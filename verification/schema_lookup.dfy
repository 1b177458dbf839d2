/** Exact and related lookups over the XSD schema index, which is loaded per
    domain and may be unavailable. The index loader is an input. */
module SchemaLookup {
  import opened Wrappers
  import opened Text

  /** One indexed schema file. Absent optional fields are `None`. */
  datatype SchemaEntry = SchemaEntry(
    schemaName: string,
    fileName: string,
    uploadFileName: string,
    filePath: string,
    domain: string,
    namespace: Option<string>,
    version: Option<string>,
    rootElements: Option<seq<string>>,
    keyElements: Option<seq<string>>)

  /** `index.schemas` in `Object.entries` order: key and its entries. */
  type SchemaIndex = seq<(string, seq<SchemaEntry>)>

  /** `loadSchemaIndex`: `None` when the index is unavailable. */
  type IndexLoader = string -> Option<SchemaIndex>

  /** The domains searched when none is given. */
  const ALL_DOMAINS: seq<string> := ["nfe", "nfce", "confaz", "mdfe", "cte", "bpe", "nf3e", "dce", "nfgas",
                                     "nff", "nfag", "nfcom", "one", "nfeab", "pes", "difal", "other"]

  /** A given (non-empty) domain is searched alone. */
  function DomainsToSearch(domain: Option<string>): (r: seq<string>)
    ensures domain.Some? && domain.value != "" ==> r == [domain.value]
    ensures domain.None? || domain.value == "" ==> r == ALL_DOMAINS
  {
    if domain.Some? && domain.value != "" then [domain.value] else ALL_DOMAINS
  }

  /** The characters `[_\s-]` removes. */
  predicate IsNameSeparator(c: char) {
    c == '_' || c == '-' || IsSpace(c)
  }

  function DropNameSeparators(s: string): (r: string)
    ensures forall c :: c in r <==> c in s && !IsNameSeparator(c)
    decreases |s|
  {
    if |s| == 0 then ""
    else
      var rest := DropNameSeparators(s[1..]);
      assert forall c :: c in s <==> c == s[0] || c in s[1..];
      if IsNameSeparator(s[0]) then rest else [s[0]] + rest
  }

  lemma {:induction false} DropNameSeparatorsNoop(s: string)
    requires forall c :: c in s ==> !IsNameSeparator(c)
    ensures DropNameSeparators(s) == s
    decreases |s|
  {
    if |s| > 0 {
      assert s[0] in s;
      assert forall c :: c in s[1..] ==> c in s;
      DropNameSeparatorsNoop(s[1..]);
      assert s == [s[0]] + s[1..];
    }
  }

  /** `normalizeSchemaName`: lower-cased, separators and spaces dropped;
      the version rewrite `v(\d+)` to `v$1` is the identity and the final
      trim finds nothing left to trim. */
  function NormalizeSchemaName(name: string): (r: string)
    ensures forall c :: c in r ==> !IsUpper(c) && !IsNameSeparator(c)
  {
    var lowered := ToLower(name);
    var dropped := DropNameSeparators(lowered);
    assert forall c :: c in lowered ==> !IsUpper(c);
    assert |dropped| > 0 ==> dropped[0] in dropped && dropped[|dropped| - 1] in dropped;
    TrimNoop(dropped);
    Trim(dropped)
  }

  /** Normalizing twice is normalizing once. */
  lemma NormalizeSchemaNameIdempotent(name: string)
    ensures NormalizeSchemaName(NormalizeSchemaName(name)) == NormalizeSchemaName(name)
  {
    var n := NormalizeSchemaName(name);
    assert NoUpper(n) by {
      forall i | 0 <= i < |n| ensures !IsUpper(n[i]) {
        assert n[i] in n;
      }
    }
    ToLowerOfNoUpper(n);
    DropNameSeparatorsNoop(n);
    TrimNoop(n);
  }

  /** The key test: either normalized string contains the other. */
  predicate KeyMatches(key: string, query: string) {
    var k := NormalizeSchemaName(key);
    Contains(k, query) || Contains(query, k)
  }

  /** A query that normalizes to nothing matches every key. */
  lemma EmptyQueryMatchesEveryKey(key: string)
    ensures KeyMatches(key, "")
  {
    ContainsEmpty(NormalizeSchemaName(key));
  }

  /** The file-name test: either file name contains the query. */
  predicate FileMatches(e: SchemaEntry, query: string) {
    Contains(NormalizeSchemaName(e.fileName), query) || Contains(NormalizeSchemaName(e.uploadFileName), query)
  }

  /** `results.some(r => r.filePath === path)`. */
  predicate HasPath(results: seq<SchemaEntry>, path: string) {
    exists i :: 0 <= i < |results| && results[i].filePath == path
  }

  /** Appends `e` when it passes `keep` and no result has its path yet. */
  function AddNew(acc: seq<SchemaEntry>, e: SchemaEntry, keep: SchemaEntry -> bool): seq<SchemaEntry> {
    if keep(e) && !HasPath(acc, e.filePath) then acc + [e] else acc
  }

  /** `AddNew` over a list of entries, in order. */
  function AddAllNew(acc: seq<SchemaEntry>, entries: seq<SchemaEntry>, keep: SchemaEntry -> bool): (r: seq<SchemaEntry>)
    ensures acc <= r
    decreases |entries|
  {
    if |entries| == 0 then acc else AddAllNew(AddNew(acc, entries[0], keep), entries[1..], keep)
  }

  /** The two tests of a lookup, bound to its normalized query. */
  datatype Matcher = Matcher(keyTest: string -> bool, fileTest: SchemaEntry -> bool)

  function QueryMatcher(query: string): Matcher {
    Matcher(key => KeyMatches(key, query), e => FileMatches(e, query))
  }

  /** One key: all its entries on a key match, unchecked, then the
      file-name pass that skips known paths. */
  function KeyStep(acc: seq<SchemaEntry>, key: string, entries: seq<SchemaEntry>, m: Matcher): (r: seq<SchemaEntry>)
    ensures acc <= r
  {
    AddAllNew(if m.keyTest(key) then acc + entries else acc, entries, m.fileTest)
  }

  function KeyScan(acc: seq<SchemaEntry>, schemas: SchemaIndex, m: Matcher): (r: seq<SchemaEntry>)
    ensures acc <= r
    decreases |schemas|
  {
    if |schemas| == 0 then acc else KeyScan(KeyStep(acc, schemas[0].0, schemas[0].1, m), schemas[1..], m)
  }

  /** The domain loop; an unavailable index is skipped. */
  function DomainScan(acc: seq<SchemaEntry>, domains: seq<string>, load: IndexLoader, m: Matcher): (r: seq<SchemaEntry>)
    ensures acc <= r
    decreases |domains|
  {
    if |domains| == 0 then acc
    else
      var next := match load(domains[0]) case None => acc case Some(index) => KeyScan(acc, index, m);
      DomainScan(next, domains[1..], load, m)
  }

  /** `lookupSchema`. */
  function LookupSchema(schemaName: string, domain: Option<string>, load: IndexLoader): seq<SchemaEntry> {
    DomainScan([], DomainsToSearch(domain), load, QueryMatcher(NormalizeSchemaName(schemaName)))
  }

  /** `x` is listed in `index` under a key that matches, or its file name matches. */
  predicate FromIndex(x: SchemaEntry, index: SchemaIndex, m: Matcher) {
    exists j :: 0 <= j < |index| && x in index[j].1 && (m.keyTest(index[j].0) || m.fileTest(x))
  }

  /** `x` comes from an available index of one of the domains. */
  predicate FromDomains(x: SchemaEntry, domains: seq<string>, load: IndexLoader, m: Matcher) {
    exists i :: 0 <= i < |domains| && load(domains[i]).Some? && FromIndex(x, load(domains[i]).value, m)
  }

  lemma {:induction false} AddAllNewSound(acc: seq<SchemaEntry>, entries: seq<SchemaEntry>, keep: SchemaEntry -> bool, x: SchemaEntry)
    requires x in AddAllNew(acc, entries, keep)
    ensures x in acc || (x in entries && keep(x))
    decreases |entries|
  {
    if |entries| > 0 {
      AddAllNewSound(AddNew(acc, entries[0], keep), entries[1..], keep, x);
    }
  }

  lemma {:induction false} KeyScanSound(acc: seq<SchemaEntry>, schemas: SchemaIndex, m: Matcher, x: SchemaEntry)
    requires x in KeyScan(acc, schemas, m)
    ensures x in acc || FromIndex(x, schemas, m)
    decreases |schemas|
  {
    if |schemas| > 0 {
      var next := KeyStep(acc, schemas[0].0, schemas[0].1, m);
      KeyScanSound(next, schemas[1..], m, x);
      if x in next && x !in acc {
        var start := if m.keyTest(schemas[0].0) then acc + schemas[0].1 else acc;
        AddAllNewSound(start, schemas[0].1, m.fileTest, x);
        assert x in schemas[0].1;
      } else if x !in acc {
        var j :| 0 <= j < |schemas[1..]| && x in schemas[1..][j].1 && (m.keyTest(schemas[1..][j].0) || m.fileTest(x));
        assert schemas[1..][j] == schemas[j + 1];
      }
    }
  }

  lemma {:induction false} DomainScanSound(acc: seq<SchemaEntry>, domains: seq<string>, load: IndexLoader, m: Matcher, x: SchemaEntry)
    requires x in DomainScan(acc, domains, load, m)
    ensures x in acc || FromDomains(x, domains, load, m)
    decreases |domains|
  {
    if |domains| > 0 {
      var next := match load(domains[0]) case None => acc case Some(index) => KeyScan(acc, index, m);
      DomainScanSound(next, domains[1..], load, m, x);
      if x in next && x !in acc {
        KeyScanSound(acc, load(domains[0]).value, m, x);
      } else if x !in acc {
        var i :| 0 <= i < |domains[1..]| && load(domains[1..][i]).Some? && FromIndex(x, load(domains[1..][i]).value, m);
        assert domains[1..][i] == domains[i + 1];
      }
    }
  }

  /** Every result is listed in an available index of a searched domain,
      under a key that matches the normalized query or with a file name
      that does. */
  lemma LookupSchemaSound(schemaName: string, domain: Option<string>, load: IndexLoader, x: SchemaEntry)
    requires x in LookupSchema(schemaName, domain, load)
    ensures exists i, j :: 0 <= i < |DomainsToSearch(domain)| && load(DomainsToSearch(domain)[i]).Some? &&
              0 <= j < |load(DomainsToSearch(domain)[i]).value| &&
              x in load(DomainsToSearch(domain)[i]).value[j].1 &&
              (KeyMatches(load(DomainsToSearch(domain)[i]).value[j].0, NormalizeSchemaName(schemaName)) ||
               FileMatches(x, NormalizeSchemaName(schemaName)))
  {
    var m := QueryMatcher(NormalizeSchemaName(schemaName));
    DomainScanSound([], DomainsToSearch(domain), load, m, x);
  }

  lemma HasPathAfter(a: seq<SchemaEntry>, b: seq<SchemaEntry>, path: string)
    requires HasPath(a, path) && a <= b
    ensures HasPath(b, path)
  {
    var i :| 0 <= i < |a| && a[i].filePath == path;
    assert b[i] == a[i];
  }

  lemma AddNewHasPath(acc: seq<SchemaEntry>, e: SchemaEntry, keep: SchemaEntry -> bool)
    requires keep(e)
    ensures HasPath(AddNew(acc, e, keep), e.filePath)
  {
    if !HasPath(acc, e.filePath) {
      assert AddNew(acc, e, keep)[|acc|] == e;
    }
  }

  /** Every entry passing `keep` is represented by its path. */
  lemma {:induction false} AddAllNewComplete(acc: seq<SchemaEntry>, entries: seq<SchemaEntry>, keep: SchemaEntry -> bool, k: nat)
    requires k < |entries| && keep(entries[k])
    ensures HasPath(AddAllNew(acc, entries, keep), entries[k].filePath)
    decreases |entries|
  {
    var next := AddNew(acc, entries[0], keep);
    if k == 0 {
      AddNewHasPath(acc, entries[0], keep);
      HasPathAfter(next, AddAllNew(acc, entries, keep), entries[0].filePath);
    } else {
      AddAllNewComplete(next, entries[1..], keep, k - 1);
    }
  }

  /** Under a matching key, every entry is in the key step's result; with a
      matching file name, its path is. */
  lemma KeyStepComplete(acc: seq<SchemaEntry>, key: string, entries: seq<SchemaEntry>, m: Matcher, k: nat)
    requires k < |entries|
    ensures m.keyTest(key) ==> entries[k] in KeyStep(acc, key, entries, m)
    ensures m.fileTest(entries[k]) ==> HasPath(KeyStep(acc, key, entries, m), entries[k].filePath)
  {
    if m.keyTest(key) {
      var r := KeyStep(acc, key, entries, m);
      assert r[|acc| + k] == (acc + entries)[|acc| + k];
    }
    if m.fileTest(entries[k]) {
      AddAllNewComplete(if m.keyTest(key) then acc + entries else acc, entries, m.fileTest, k);
    }
  }

  /** What an index contributes: entries under matching keys, and the paths
      of entries whose file names match. */
  predicate Covers(r: seq<SchemaEntry>, index: SchemaIndex, m: Matcher) {
    forall j, k :: 0 <= j < |index| && 0 <= k < |index[j].1| ==>
      (m.keyTest(index[j].0) ==> index[j].1[k] in r) &&
      (m.fileTest(index[j].1[k]) ==> HasPath(r, index[j].1[k].filePath))
  }

  lemma CoversExtend(r: seq<SchemaEntry>, s: seq<SchemaEntry>, index: SchemaIndex, m: Matcher)
    requires Covers(r, index, m) && r <= s
    ensures Covers(s, index, m)
  {
    forall j, k | 0 <= j < |index| && 0 <= k < |index[j].1|
      ensures (m.keyTest(index[j].0) ==> index[j].1[k] in s) &&
              (m.fileTest(index[j].1[k]) ==> HasPath(s, index[j].1[k].filePath))
    {
      if m.keyTest(index[j].0) {
        var t :| 0 <= t < |r| && r[t] == index[j].1[k];
        assert s[t] == r[t];
      }
      if m.fileTest(index[j].1[k]) {
        HasPathAfter(r, s, index[j].1[k].filePath);
      }
    }
  }

  lemma {:induction false} KeyScanComplete(acc: seq<SchemaEntry>, schemas: SchemaIndex, m: Matcher)
    ensures Covers(KeyScan(acc, schemas, m), schemas, m)
    decreases |schemas|
  {
    if |schemas| > 0 {
      var next := KeyStep(acc, schemas[0].0, schemas[0].1, m);
      var r := KeyScan(acc, schemas, m);
      KeyScanComplete(next, schemas[1..], m);
      forall j, k | 0 <= j < |schemas| && 0 <= k < |schemas[j].1|
        ensures (m.keyTest(schemas[j].0) ==> schemas[j].1[k] in r) &&
                (m.fileTest(schemas[j].1[k]) ==> HasPath(r, schemas[j].1[k].filePath))
      {
        if j == 0 {
          KeyStepComplete(acc, schemas[0].0, schemas[0].1, m, k);
          if m.keyTest(schemas[0].0) {
            var t :| 0 <= t < |next| && next[t] == schemas[0].1[k];
            assert r[t] == next[t];
          }
          if m.fileTest(schemas[0].1[k]) {
            HasPathAfter(next, r, schemas[0].1[k].filePath);
          }
        } else {
          assert schemas[j] == schemas[1..][j - 1];
        }
      }
    }
  }

  lemma {:induction false} DomainScanComplete(acc: seq<SchemaEntry>, domains: seq<string>, load: IndexLoader, m: Matcher, i: nat)
    requires i < |domains| && load(domains[i]).Some?
    ensures Covers(DomainScan(acc, domains, load, m), load(domains[i]).value, m)
    decreases |domains|
  {
    var next := match load(domains[0]) case None => acc case Some(index) => KeyScan(acc, index, m);
    if i == 0 {
      KeyScanComplete(acc, load(domains[0]).value, m);
      CoversExtend(next, DomainScan(acc, domains, load, m), load(domains[0]).value, m);
    } else {
      assert domains[i] == domains[1..][i - 1];
      DomainScanComplete(next, domains[1..], load, m, i - 1);
    }
  }

  /** Every available index of a searched domain is covered, whatever the
      other domains' indexes are: an unavailable index skips only itself.
      Entries under a matching key are returned; an entry whose file name
      matches has its path among the results. */
  lemma LookupSchemaComplete(schemaName: string, domain: Option<string>, load: IndexLoader, i: nat, j: nat, k: nat)
    requires i < |DomainsToSearch(domain)| && load(DomainsToSearch(domain)[i]).Some?
    requires j < |load(DomainsToSearch(domain)[i]).value| && k < |load(DomainsToSearch(domain)[i]).value[j].1|
    ensures KeyMatches(load(DomainsToSearch(domain)[i]).value[j].0, NormalizeSchemaName(schemaName)) ==>
              load(DomainsToSearch(domain)[i]).value[j].1[k] in LookupSchema(schemaName, domain, load)
    ensures FileMatches(load(DomainsToSearch(domain)[i]).value[j].1[k], NormalizeSchemaName(schemaName)) ==>
              HasPath(LookupSchema(schemaName, domain, load), load(DomainsToSearch(domain)[i]).value[j].1[k].filePath)
  {
    var m := QueryMatcher(NormalizeSchemaName(schemaName));
    DomainScanComplete([], DomainsToSearch(domain), load, m, i);
  }

  /** The key branch does not check for duplicates: an entry listed under two
      matching keys is returned twice, while the file-name branch would have
      added it once. */
  lemma KeyBranchKeepsDuplicates(schemaName: string, d: string, load: IndexLoader, k1: string, k2: string, e: SchemaEntry)
    requires d != "" && load(d) == Some([(k1, [e]), (k2, [e])])
    requires KeyMatches(k1, NormalizeSchemaName(schemaName)) && KeyMatches(k2, NormalizeSchemaName(schemaName))
    ensures LookupSchema(schemaName, Some(d), load) == [e, e]
  {
    var q := NormalizeSchemaName(schemaName);
    var m := QueryMatcher(q);
    assert m.keyTest(k1) && m.keyTest(k2);
    TwoMatchingKeys(m, k1, k2, e);
    assert DomainsToSearch(Some(d)) == [d];
    assert DomainScan([], [d], load, m) == DomainScan(KeyScan([], load(d).value, m), [], load, m);
  }

  lemma TwoMatchingKeys(m: Matcher, k1: string, k2: string, e: SchemaEntry)
    requires m.keyTest(k1) && m.keyTest(k2)
    ensures KeyScan([], [(k1, [e]), (k2, [e])], m) == [e, e]
  {
    assert HasPath([e], e.filePath) by { assert [e][0] == e; }
    assert HasPath([e, e], e.filePath) by { assert [e, e][0] == e; }
    assert AddAllNew([e], [e], m.fileTest) == [e];
    assert [] + [e] == [e];
    assert KeyStep([], k1, [e], m) == [e];
    assert AddAllNew([e, e], [e], m.fileTest) == [e, e];
    assert [e] + [e] == [e, e];
    assert KeyStep([e], k2, [e], m) == [e, e];
    var index := [(k1, [e]), (k2, [e])];
    assert KeyScan([e, e], index[2..], m) == [e, e];
    assert KeyScan([e], index[1..], m) == [e, e];
  }

  /** The criteria of `findRelatedSchemas`; `None` or "" imposes nothing. */
  datatype Criteria = Criteria(namespace: Option<string>, version: Option<string>, elementName: Option<string>, domain: Option<string>)

  predicate Given(o: Option<string>) {
    o.Some? && o.value != ""
  }

  /** Some element name contains `name`, ignoring case. */
  predicate SomeElementHas(elements: Option<seq<string>>, name: string) {
    elements.Some? && exists i :: 0 <= i < |elements.value| && Contains(ToLower(elements.value[i]), ToLower(name))
  }

  /** The per-entry test of `findRelatedSchemas`. */
  predicate MeetsCriteria(e: SchemaEntry, c: Criteria) {
    && (Given(c.namespace) ==> e.namespace == c.namespace)
    && (Given(c.version) ==> e.version == c.version)
    && (Given(c.elementName) ==>
          SomeElementHas(e.rootElements, c.elementName.value) || SomeElementHas(e.keyElements, c.elementName.value))
  }

  /** Absent criteria accept every entry. */
  lemma NoCriteriaAcceptAll(e: SchemaEntry, domain: Option<string>)
    ensures MeetsCriteria(e, Criteria(None, None, None, domain))
  {
  }

  function CriteriaTest(c: Criteria): SchemaEntry -> bool {
    e => MeetsCriteria(e, c)
  }

  /** `Object.values(index.schemas)`, one list after another. */
  function RelatedIndex(acc: seq<SchemaEntry>, schemas: SchemaIndex, c: Criteria): (r: seq<SchemaEntry>)
    ensures acc <= r
    decreases |schemas|
  {
    if |schemas| == 0 then acc else RelatedIndex(AddAllNew(acc, schemas[0].1, CriteriaTest(c)), schemas[1..], c)
  }

  function RelatedDomains(acc: seq<SchemaEntry>, domains: seq<string>, load: IndexLoader, c: Criteria): (r: seq<SchemaEntry>)
    ensures acc <= r
    decreases |domains|
  {
    if |domains| == 0 then acc
    else
      var next := match load(domains[0]) case None => acc case Some(index) => RelatedIndex(acc, index, c);
      RelatedDomains(next, domains[1..], load, c)
  }

  /** `findRelatedSchemas`. */
  function FindRelatedSchemas(c: Criteria, load: IndexLoader): seq<SchemaEntry> {
    RelatedDomains([], DomainsToSearch(c.domain), load, c)
  }

  /** Every entry passes `keep` and no two share a path. */
  predicate Distinct(r: seq<SchemaEntry>, keep: SchemaEntry -> bool) {
    (forall i :: 0 <= i < |r| ==> keep(r[i])) &&
    (forall i, j :: 0 <= i < j < |r| ==> r[i].filePath != r[j].filePath)
  }

  lemma {:induction false} AddAllNewDistinct(acc: seq<SchemaEntry>, entries: seq<SchemaEntry>, keep: SchemaEntry -> bool)
    requires Distinct(acc, keep)
    ensures Distinct(AddAllNew(acc, entries, keep), keep)
    decreases |entries|
  {
    if |entries| > 0 {
      var next := AddNew(acc, entries[0], keep);
      assert Distinct(next, keep);
      AddAllNewDistinct(next, entries[1..], keep);
    }
  }

  lemma {:induction false} RelatedIndexDistinct(acc: seq<SchemaEntry>, schemas: SchemaIndex, c: Criteria)
    requires Distinct(acc, CriteriaTest(c))
    ensures Distinct(RelatedIndex(acc, schemas, c), CriteriaTest(c))
    decreases |schemas|
  {
    if |schemas| > 0 {
      AddAllNewDistinct(acc, schemas[0].1, CriteriaTest(c));
      RelatedIndexDistinct(AddAllNew(acc, schemas[0].1, CriteriaTest(c)), schemas[1..], c);
    }
  }

  lemma {:induction false} RelatedDomainsDistinct(acc: seq<SchemaEntry>, domains: seq<string>, load: IndexLoader, c: Criteria)
    requires Distinct(acc, CriteriaTest(c))
    ensures Distinct(RelatedDomains(acc, domains, load, c), CriteriaTest(c))
    decreases |domains|
  {
    if |domains| > 0 {
      if load(domains[0]).Some? {
        RelatedIndexDistinct(acc, load(domains[0]).value, c);
      }
      var next := match load(domains[0]) case None => acc case Some(index) => RelatedIndex(acc, index, c);
      RelatedDomainsDistinct(next, domains[1..], load, c);
    }
  }

  /** Every result meets every supplied criterion, and results have pairwise
      distinct file paths. */
  lemma FindRelatedSchemasSound(c: Criteria, load: IndexLoader)
    ensures var r := FindRelatedSchemas(c, load);
            (forall i :: 0 <= i < |r| ==> MeetsCriteria(r[i], c)) &&
            (forall i, j :: 0 <= i < j < |r| ==> r[i].filePath != r[j].filePath)
  {
    RelatedDomainsDistinct([], DomainsToSearch(c.domain), load, c);
  }

  lemma {:induction false} RelatedIndexComplete(acc: seq<SchemaEntry>, schemas: SchemaIndex, c: Criteria, j: nat, k: nat)
    requires j < |schemas| && k < |schemas[j].1| && MeetsCriteria(schemas[j].1[k], c)
    ensures HasPath(RelatedIndex(acc, schemas, c), schemas[j].1[k].filePath)
    decreases |schemas|
  {
    var next := AddAllNew(acc, schemas[0].1, CriteriaTest(c));
    if j == 0 {
      AddAllNewComplete(acc, schemas[0].1, CriteriaTest(c), k);
      HasPathAfter(next, RelatedIndex(acc, schemas, c), schemas[0].1[k].filePath);
    } else {
      assert schemas[j] == schemas[1..][j - 1];
      RelatedIndexComplete(next, schemas[1..], c, j - 1, k);
    }
  }

  lemma {:induction false} RelatedDomainsComplete(acc: seq<SchemaEntry>, domains: seq<string>, load: IndexLoader, c: Criteria,
                                                  i: nat, j: nat, k: nat)
    requires i < |domains| && load(domains[i]).Some?
    requires j < |load(domains[i]).value| && k < |load(domains[i]).value[j].1|
    requires MeetsCriteria(load(domains[i]).value[j].1[k], c)
    ensures HasPath(RelatedDomains(acc, domains, load, c), load(domains[i]).value[j].1[k].filePath)
    decreases |domains|
  {
    var next := match load(domains[0]) case None => acc case Some(index) => RelatedIndex(acc, index, c);
    if i == 0 {
      RelatedIndexComplete(acc, load(domains[0]).value, c, j, k);
      HasPathAfter(next, RelatedDomains(acc, domains, load, c), load(domains[0]).value[j].1[k].filePath);
    } else {
      assert domains[i] == domains[1..][i - 1];
      RelatedDomainsComplete(next, domains[1..], load, c, i - 1, j, k);
    }
  }

  /** Every qualifying entry of an available index of a searched domain is
      represented by a result with its file path. */
  lemma FindRelatedSchemasComplete(c: Criteria, load: IndexLoader, i: nat, j: nat, k: nat)
    requires i < |DomainsToSearch(c.domain)| && load(DomainsToSearch(c.domain)[i]).Some?
    requires j < |load(DomainsToSearch(c.domain)[i]).value| && k < |load(DomainsToSearch(c.domain)[i]).value[j].1|
    requires MeetsCriteria(load(DomainsToSearch(c.domain)[i]).value[j].1[k], c)
    ensures HasPath(FindRelatedSchemas(c, load), load(DomainsToSearch(c.domain)[i]).value[j].1[k].filePath)
  {
    RelatedDomainsComplete([], DomainsToSearch(c.domain), load, c, i, j, k);
  }
}

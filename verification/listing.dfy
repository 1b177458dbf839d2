/** Turning a portal's listing page into candidate documents: tag stripping,
    date extraction, the content hash and the "never empty" placeholder. The
    anchor regular expression, URL resolution, SHA-256 and the clock are
    inputs. */
module Listing {
  import opened Wrappers
  import opened Text
  import opened AgentTypes

  /** No tag is left: each `<` is directly followed by `>` (the empty `<>`,
      which `<[^>]+>` does not match) or has no `>` after it. */
  predicate NoTag(s: string) {
    forall i :: 0 <= i < |s| && s[i] == '<' ==> (i + 1 < |s| && s[i + 1] == '>') || '>' !in s[i + 1..]
  }

  /** Index of the first `>` at or after `i`. */
  function FindClose(s: string, i: nat): (r: Option<nat>)
    requires i <= |s|
    ensures r.Some? ==> i <= r.value < |s| && s[r.value] == '>' && '>' !in s[i..r.value]
    ensures r.None? ==> '>' !in s[i..]
    decreases |s| - i
  {
    if i == |s| then None
    else if s[i] == '>' then Some(i)
    else
      var r := FindClose(s, i + 1);
      assert s[i..] == [s[i]] + s[i + 1..];
      assert r.Some? ==> s[i..r.value] == [s[i]] + s[i + 1..r.value];
      r
  }

  /** `value.replace(/<[^>]+>/g, "")`: left to right, a `<` that has a `>`
      after it, with at least one character between, starts a tag that runs
      to that first `>`. */
  function RemoveTags(s: string): (r: string)
    ensures NoTag(r)
    ensures forall c :: c in r ==> c in s
    ensures |s| > 0 && s[0] != '<' ==> |r| > 0 && r[0] == s[0]
    decreases |s|
  {
    if |s| == 0 then ""
    else if s[0] == '<' && FindClose(s, 1).Some? && FindClose(s, 1).value >= 2 then
      var j := FindClose(s, 1).value;
      var r := RemoveTags(s[j + 1..]);
      assert forall c :: c in s[j + 1..] ==> c in s;
      r
    else
      var rest := RemoveTags(s[1..]);
      var r := [s[0]] + rest;
      assert forall c :: c in s[1..] ==> c in s;
      assert NoTag(r) by {
        forall i | 0 <= i < |r| && r[i] == '<'
          ensures (i + 1 < |r| && r[i + 1] == '>') || '>' !in r[i + 1..]
        {
          if i > 0 {
            assert r[i..] == rest[i - 1..];
            assert r[i + 1..] == rest[i..];
          } else if s[1..] != [] && s[1] == '>' {
            assert r[1] == '>';
          } else {
            assert r[1..] == rest;
            if s[1..] != [] {
              var j := FindClose(s, 1);
              assert j.None?;
              assert '>' !in s[1..];
            }
          }
        }
      }
      r
  }

  /** No white space other than single blanks between non-blank characters. */
  predicate SingleSpaced(s: string) {
    (forall i :: 0 <= i < |s| && IsSpace(s[i]) ==> s[i] == ' ') &&
    (forall i :: 0 <= i < |s| - 1 ==> !(IsSpace(s[i]) && IsSpace(s[i + 1])))
  }

  lemma SingleSpacedCons(c: char, r: string)
    requires SingleSpaced(r)
    requires IsSpace(c) ==> c == ' ' && (|r| > 0 ==> !IsSpace(r[0]))
    ensures SingleSpaced([c] + r)
  {
    var s := [c] + r;
    forall i | 1 <= i < |s| ensures s[i] == r[i - 1] { }
  }

  /** `value.replace(/\s+/g, " ")`. */
  function CollapseSpaces(s: string): (r: string)
    ensures SingleSpaced(r)
    ensures |s| > 0 ==> |r| > 0 && r[0] == (if IsSpace(s[0]) then ' ' else s[0])
    decreases |s|
  {
    if |s| == 0 then ""
    else if IsSpace(s[0]) then
      var rest := CollapseSpaces(TrimStart(s[1..]));
      SingleSpacedCons(' ', rest);
      [' '] + rest
    else
      var rest := CollapseSpaces(s[1..]);
      SingleSpacedCons(s[0], rest);
      [s[0]] + rest
  }

  /** Collapsing white space neither brings in a `>` nor opens a tag. */
  lemma {:induction false} CollapseSpacesNoTag(s: string)
    ensures '>' !in s ==> '>' !in CollapseSpaces(s)
    ensures NoTag(s) ==> NoTag(CollapseSpaces(s))
    decreases |s|
  {
    if |s| > 0 {
      var r := CollapseSpaces(s);
      if IsSpace(s[0]) {
        var t := TrimStart(s[1..]);
        CollapseSpacesNoTag(t);
        var a := 1 + |s[1..]| - |t|;
        assert s[a..] == t;
        NoTagInfix(s, a, |s|);
        assert '>' !in s ==> '>' !in t;
        assert r == [' '] + CollapseSpaces(t);
        NoTagCons(' ', CollapseSpaces(t));
      } else {
        CollapseSpacesNoTag(s[1..]);
        NoTagInfix(s, 1, |s|);
        assert r == [s[0]] + CollapseSpaces(s[1..]);
        NoTagCons(s[0], CollapseSpaces(s[1..]));
      }
    }
  }

  /** A piece of a tag-free string is tag-free. */
  lemma NoTagInfix(s: string, a: nat, b: nat)
    requires a <= b <= |s|
    ensures NoTag(s) ==> NoTag(s[a..b])
  {
    var t := s[a..b];
    if NoTag(s) {
      forall i | 0 <= i < |t| && t[i] == '<'
        ensures (i + 1 < |t| && t[i + 1] == '>') || '>' !in t[i + 1..]
      {
        assert t[i] == s[a + i];
        if '>' in t[i + 1..] {
          var k :| i + 1 <= k < |t| && t[k] == '>';
          assert s[a + k] == '>';
          assert '>' in s[a + i + 1..] by { assert s[a + i + 1..][k - i - 1] == '>'; }
        }
      }
    }
  }

  /** Putting a character before a tag-free string keeps it tag-free unless
      it opens a tag. */
  lemma NoTagCons(c: char, r: string)
    ensures NoTag(r) && (c == '<' ==> (|r| > 0 && r[0] == '>') || '>' !in r) ==> NoTag([c] + r)
  {
    var s := [c] + r;
    if NoTag(r) && (c == '<' ==> (|r| > 0 && r[0] == '>') || '>' !in r) {
      assert s[1..] == r;
      forall i | 0 <= i < |s| && s[i] == '<'
        ensures (i + 1 < |s| && s[i + 1] == '>') || '>' !in s[i + 1..]
      {
        if i > 0 {
          assert s[i + 1..] == r[i..];
        }
      }
    }
  }

  lemma SingleSpacedInfix(s: string, a: nat, b: nat)
    requires SingleSpaced(s) && a <= b <= |s|
    ensures SingleSpaced(s[a..b])
  {
    var t := s[a..b];
    assert forall i :: 0 <= i < |t| ==> t[i] == s[a + i];
  }

  /** `stripTags`: drop tags, collapse white space, trim. */
  function StripTags(value: string): (r: string)
    ensures NoTag(r) && SingleSpaced(r)
    ensures |r| > 0 ==> !IsSpace(r[0]) && !IsSpace(r[|r| - 1])
  {
    var c := CollapseSpaces(RemoveTags(value));
    var r := Trim(c);
    var a, b :| 0 <= a <= b <= |c| && r == c[a..b] && AllSpace(c[..a]) && AllSpace(c[b..]);
    SingleSpacedInfix(c, a, b);
    CollapseSpacesNoTag(RemoveTags(value));
    NoTagInfix(c, a, b);
    r
  }

  /** Removing tags from a tag-free string changes nothing. */
  lemma {:induction false} RemoveTagsNoop(s: string)
    requires NoTag(s)
    ensures RemoveTags(s) == s
    decreases |s|
  {
    if |s| > 0 {
      NoTagInfix(s, 1, |s|);
      RemoveTagsNoop(s[1..]);
      if s[0] == '<' && FindClose(s, 1).Some? {
        var j := FindClose(s, 1).value;
        assert s[1] == '>' by {
          assert s[1..][j - 1] == '>';
        }
        assert j == 1;
      }
      assert RemoveTags(s) == [s[0]] + RemoveTags(s[1..]);
      assert s == [s[0]] + s[1..];
    }
  }

  /** Collapsing white space in a single-spaced string changes nothing. */
  lemma {:induction false} CollapseSpacesNoop(s: string)
    requires SingleSpaced(s)
    ensures CollapseSpaces(s) == s
    decreases |s|
  {
    if |s| > 0 {
      var tail := s[1..];
      SingleSpacedInfix(s, 1, |s|);
      CollapseSpacesNoop(tail);
      if IsSpace(s[0]) {
        assert s[0] == ' ';
        assert TrimStart(tail) == tail by {
          if |tail| > 0 {
            assert !IsSpace(tail[0]) by { assert tail[0] == s[1]; }
          }
        }
        assert CollapseSpaces(s) == [' '] + CollapseSpaces(tail);
      } else {
        assert CollapseSpaces(s) == [s[0]] + CollapseSpaces(tail);
      }
      assert s == [s[0]] + tail;
    }
  }

  /** Stripping is idempotent: a stripped title is already clean. */
  lemma StripTagsIdempotent(value: string)
    ensures StripTags(StripTags(value)) == StripTags(value)
  {
    var r := StripTags(value);
    RemoveTagsNoop(r);
    CollapseSpacesNoop(r);
    TrimNoop(r);
  }

  /** Text without `<` passes tag removal unchanged, whatever follows it. */
  lemma {:induction false} RemoveTagsKeepsText(w: string, v: string)
    requires '<' !in w
    ensures RemoveTags(w + v) == w + RemoveTags(v)
    decreases |w|
  {
    if |w| > 0 {
      var s := w + v;
      assert s[0] == w[0];
      assert s[1..] == w[1..] + v;
      RemoveTagsKeepsText(w[1..], v);
      assert RemoveTags(s) == [w[0]] + RemoveTags(s[1..]);
      assert w == [w[0]] + w[1..];
    } else {
      assert w + v == v;
    }
  }

  /** A tag `<t>` is dropped whole, up to its first `>`. */
  lemma RemoveTagsDropsTag(t: string, v: string)
    requires |t| > 0 && '>' !in t
    ensures RemoveTags("<" + t + ">" + v) == RemoveTags(v)
  {
    var s := "<" + t + ">" + v;
    var j := |t| + 1;
    assert s[j] == '>';
    assert forall k :: 1 <= k < j ==> s[k] == t[k - 1];
    assert s[1..][j - 1] == '>';
    assert FindClose(s, 1) == Some(j);
    assert s[j + 1..] == v;
  }

  /** A tag after plain text is removed as if it had never been there, and
      the text before it is kept. */
  lemma RemoveTagsSkipsTag(w: string, t: string, v: string)
    requires '<' !in w && |t| > 0 && '>' !in t
    ensures RemoveTags(w + "<" + t + ">" + v) == w + RemoveTags(v)
    ensures StripTags(w + "<" + t + ">" + v) == StripTags(w + v)
  {
    assert w + "<" + t + ">" + v == w + ("<" + t + ">" + v);
    RemoveTagsKeepsText(w, "<" + t + ">" + v);
    RemoveTagsDropsTag(t, v);
    RemoveTagsKeepsText(w, v);
  }

  lemma CollapseSpacesCons(c: char, t: string)
    requires !IsSpace(c)
    ensures CollapseSpaces([c] + t) == [c] + CollapseSpaces(t)
  {
    assert ([c] + t)[1..] == t;
  }

  /** A word without white space is kept as it is. */
  lemma {:induction false} CollapseSpacesKeepsWord(w: string, v: string)
    requires forall i :: 0 <= i < |w| ==> !IsSpace(w[i])
    ensures CollapseSpaces(w + v) == w + CollapseSpaces(v)
    decreases |w|
  {
    if |w| > 0 {
      assert w + v == [w[0]] + (w[1..] + v);
      CollapseSpacesCons(w[0], w[1..] + v);
      CollapseSpacesKeepsWord(w[1..], v);
      assert w == [w[0]] + w[1..];
    } else {
      assert w + v == v;
    }
  }

  /** A run of white space becomes a single blank. */
  lemma CollapseSpacesRun(u: string, v: string)
    requires |u| > 0 && AllSpace(u) && (|v| > 0 ==> !IsSpace(v[0]))
    ensures CollapseSpaces(u + v) == " " + CollapseSpaces(v)
  {
    var s := u + v;
    assert s[0] == u[0];
    assert s[1..] == u[1..] + v;
    TrimStartSkips(u[1..], v);
  }

  lemma AllSpaceConcat(a: string, b: string)
    ensures AllSpace(a + b) <==> AllSpace(a) && AllSpace(b)
  {
    var s := a + b;
    assert forall i :: 0 <= i < |a| ==> s[i] == a[i];
    assert forall i :: 0 <= i < |b| ==> s[|a| + i] == b[i];
  }

  /** Collapsing white space leaves only white space exactly when there was
      only white space. */
  lemma {:induction false} CollapseSpacesAllSpace(s: string)
    ensures AllSpace(CollapseSpaces(s)) <==> AllSpace(s)
    decreases |s|
  {
    if |s| > 0 {
      assert s == [s[0]] + s[1..];
      AllSpaceConcat([s[0]], s[1..]);
      if IsSpace(s[0]) {
        var t := TrimStart(s[1..]);
        CollapseSpacesAllSpace(t);
        var n := |s[1..]| - |t|;
        assert s[1..] == s[1..][..n] + t;
        AllSpaceConcat(s[1..][..n], t);
        assert CollapseSpaces(s) == [' '] + CollapseSpaces(t);
        AllSpaceConcat([' '], CollapseSpaces(t));
      } else {
        assert CollapseSpaces(s)[0] == s[0];
      }
    }
  }

  /** Stripping leaves nothing exactly when the text outside the tags is all
      white space: only then does a listing title fall back to the portal
      name. */
  lemma StripTagsEmptyIff(value: string)
    ensures StripTags(value) == "" <==> AllSpace(RemoveTags(value))
  {
    CollapseSpacesAllSpace(RemoveTags(value));
    BlankIffAllSpace(CollapseSpaces(RemoveTags(value)));
  }

  /** Plain text, with no `<`, is stripped to nothing only when it is blank. */
  lemma StripPlainTextEmptyIff(w: string)
    requires '<' !in w
    ensures StripTags(w) == "" <==> AllSpace(w)
  {
    RemoveTagsKeepsText(w, "");
    assert w + "" == w;
    assert RemoveTags("") == "";
    StripTagsEmptyIff(w);
  }

  /** `\d{2}\/\d{2}\/\d{4}` matches at position `i`. */
  predicate DateAt(s: string, i: nat) {
    i + 10 <= |s|
    && IsDigit(s[i]) && IsDigit(s[i + 1]) && s[i + 2] == '/'
    && IsDigit(s[i + 3]) && IsDigit(s[i + 4]) && s[i + 5] == '/'
    && IsDigit(s[i + 6]) && IsDigit(s[i + 7]) && IsDigit(s[i + 8]) && IsDigit(s[i + 9])
  }

  /** Day, month and year strings of a date. */
  datatype DateParts = DateParts(day: string, month: string, year: string)

  predicate AllDigits(s: string) {
    forall i :: 0 <= i < |s| ==> IsDigit(s[i])
  }

  /** The date parts of the leftmost match at or after `i`. */
  function FindDate(s: string, i: nat): (r: Option<DateParts>)
    ensures r.None? ==> forall k: nat :: i <= k ==> !DateAt(s, k)
    ensures r.Some? ==> exists k: nat :: i <= k && DateAt(s, k) && (forall m: nat :: i <= m < k ==> !DateAt(s, m)) &&
                          r.value == DateParts(s[k..k + 2], s[k + 3..k + 5], s[k + 6..k + 10])
    ensures r.Some? ==> AllDigits(r.value.day) && AllDigits(r.value.month) && AllDigits(r.value.year)
    decreases |s| - i
  {
    if i + 10 > |s| then None
    else if DateAt(s, i) then Some(DateParts(s[i..i + 2], s[i + 3..i + 5], s[i + 6..i + 10]))
    else FindDate(s, i + 1)
  }

  /** `extractPublishedAt`, up to the date conversion: the day, month and year
      of the first `dd/mm/yyyy` in the raw title. */
  function ExtractPublishedAt(rawTitle: string): (r: Option<DateParts>)
    ensures r.Some? ==> |r.value.day| == 2 && |r.value.month| == 2 && |r.value.year| == 4
    ensures r.Some? ==> AllDigits(r.value.day) && AllDigits(r.value.month) && AllDigits(r.value.year)
    ensures r.None? <==> forall k: nat :: !DateAt(rawTitle, k)
  {
    FindDate(rawTitle, 0)
  }

  /** The string `buildContentHash` hashes. */
  function HashInput(portalId: string, url: string, title: string): string {
    portalId + ":" + url + ":" + title
  }

  /** `buildContentHash`, with SHA-256 as the parameter `sha256`. */
  function BuildContentHash(portalId: string, url: string, title: string, sha256: string -> string): string {
    sha256(HashInput(portalId, url, title))
  }

  /** The hash input is ambiguous: a colon moved between the portal id and
      the URL gives the same key, whatever the hash function. */
  lemma ContentHashCollides(sha256: string -> string)
    ensures BuildContentHash("a:b", "c", "t", sha256) == BuildContentHash("a", "b:c", "t", sha256)
  {
    assert HashInput("a:b", "c", "t") == HashInput("a", "b:c", "t");
  }

  /** One anchor matched on the listing page: its `href` and raw inner HTML. */
  datatype Anchor = Anchor(href: string, rawTitle: string)

  /** What the listing parser takes from its surroundings: URL resolution
      against a base (`new URL(href, base)`, an error where it throws),
      SHA-256, the current time as an ISO string and the conversion of date
      parts to an ISO string (an error for a date the calendar rejects, as
      `toISOString` throws on an invalid date). */
  datatype ListingEnv = ListingEnv(
    resolve: (string, string) -> Result<string>,
    sha256: string -> string,
    now: string,
    dateToIso: DateParts -> Result<string>)

  /** `stripTags(rawTitle) || portal.name`. */
  function AnchorTitle(portal: PortalDefinition, rawTitle: string): (t: string)
    ensures t == StripTags(rawTitle) || (StripTags(rawTitle) == "" && t == portal.name)
  {
    var s := StripTags(rawTitle);
    if s == "" then portal.name else s
  }

  /** `extractPublishedAt(rawTitle) || now` for the date found, if any. */
  function PublishedAt(date: Option<DateParts>, env: ListingEnv): Result<string> {
    match date
    case Some(parts) => env.dateToIso(parts)
    case None => Ok(env.now)
  }

  /** The anchor's URL cannot be resolved, or its title carries a date that
      does not convert. */
  predicate AnchorFails(portal: PortalDefinition, a: Anchor, env: ListingEnv) {
    env.resolve(a.href, portal.baseUrl).Err? || PublishedAt(ExtractPublishedAt(a.rawTitle), env).Err?
  }

  /** The document record for a resolved anchor. */
  function AnchorRecord(portal: PortalDefinition, title: string, url: string, publishedAt: string,
                        listingUrl: string, env: ListingEnv): PortalDocument
  {
    PortalDocument(portal.id, Some(portal.portalType), title, url, Some(publishedAt), Some(env.now),
                   Some(BuildContentHash(portal.id, url, title, env.sha256)), None, Some(listingUrl))
  }

  /** The document for one anchor. The URL is resolved before the date is
      converted, so a bad URL is the error reported when both fail. */
  function AnchorDocument(portal: PortalDefinition, a: Anchor, listingUrl: string, env: ListingEnv)
    : (r: Result<PortalDocument>)
    ensures r.Err? <==> AnchorFails(portal, a, env)
    ensures env.resolve(a.href, portal.baseUrl).Err? ==> r == Err(env.resolve(a.href, portal.baseUrl).message)
    ensures r.Ok? ==> r.value.portalId == portal.id && r.value.portalType == Some(portal.portalType)
    ensures r.Ok? ==> r.value.sourceListing == Some(listingUrl) && r.value.externalId.None?
    ensures r.Ok? ==> r.value.title == AnchorTitle(portal, a.rawTitle) &&
                      Ok(r.value.url) == env.resolve(a.href, portal.baseUrl)
    ensures r.Ok? ==> r.value.contentHash == Some(BuildContentHash(portal.id, r.value.url, r.value.title, env.sha256))
    ensures r.Ok? ==> r.value.detectedAt == Some(env.now)
    ensures r.Ok? ==> r.value.publishedAt.Some? &&
                      Ok(r.value.publishedAt.value) == PublishedAt(ExtractPublishedAt(a.rawTitle), env)
  {
    var resolved := env.resolve(a.href, portal.baseUrl);
    var published := PublishedAt(ExtractPublishedAt(a.rawTitle), env);
    if resolved.Err? then Err(resolved.message)
    else if published.Err? then Err(published.message)
    else Ok(AnchorRecord(portal, AnchorTitle(portal, a.rawTitle), resolved.value, published.value, listingUrl, env))
  }

  const PLACEHOLDER_TITLE_PREFIX := "Atualização detectada em "

  /** The document reported when the listing has no anchor at all. Its hash
      uses the portal name, not the placeholder title. */
  function Placeholder(portal: PortalDefinition, listingUrl: string, env: ListingEnv): (d: PortalDocument)
    ensures d.portalId == portal.id && d.portalType == Some(portal.portalType)
    ensures d.sourceListing == Some(listingUrl) && d.url == listingUrl
    ensures d.title == PLACEHOLDER_TITLE_PREFIX + portal.name
    ensures d.contentHash == Some(BuildContentHash(portal.id, listingUrl, portal.name, env.sha256))
  {
    PortalDocument(portal.id, Some(portal.portalType), PLACEHOLDER_TITLE_PREFIX + portal.name, listingUrl,
                   Some(env.now), Some(env.now),
                   Some(BuildContentHash(portal.id, listingUrl, portal.name, env.sha256)), None, Some(listingUrl))
  }

  /** `parsePortalListing`: one document per anchor, in page order, or the
      placeholder when there is none; an anchor that throws aborts the whole
      page with its error. */
  function ParsePortalListing(portal: PortalDefinition, anchors: seq<Anchor>, listingUrl: string, env: ListingEnv)
    : (r: Result<seq<PortalDocument>>)
    ensures |anchors| == 0 ==> r == Ok([Placeholder(portal, listingUrl, env)])
    ensures r.Err? <==> exists i :: 0 <= i < |anchors| && AnchorFails(portal, anchors[i], env)
    ensures r.Err? ==> exists i :: 0 <= i < |anchors| && AnchorFails(portal, anchors[i], env) &&
                         (forall k :: 0 <= k < i ==> !AnchorFails(portal, anchors[k], env)) &&
                         r.message == AnchorDocument(portal, anchors[i], listingUrl, env).message
    ensures r.Ok? ==> |r.value| > 0
    ensures r.Ok? && |anchors| > 0 ==> |r.value| == |anchors|
    ensures r.Ok? && |anchors| > 0 ==>
              forall i :: 0 <= i < |anchors| ==> Ok(r.value[i]) == AnchorDocument(portal, anchors[i], listingUrl, env)
    ensures r.Ok? ==> forall d :: d in r.value ==>
              d.portalId == portal.id && d.portalType == Some(portal.portalType) &&
              d.sourceListing == Some(listingUrl) && d.contentHash.Some?
  {
    if |anchors| == 0 then Ok([Placeholder(portal, listingUrl, env)])
    else
      var r := MapResults(a => AnchorDocument(portal, a, listingUrl, env), anchors);
      assert r.Ok? ==> forall d :: d in r.value ==>
               d.portalId == portal.id && d.portalType == Some(portal.portalType) &&
               d.sourceListing == Some(listingUrl) && d.contentHash.Some? by {
        if r.Ok? {
          forall d | d in r.value
            ensures d.portalId == portal.id && d.portalType == Some(portal.portalType) &&
                    d.sourceListing == Some(listingUrl) && d.contentHash.Some?
          {
            var i :| 0 <= i < |r.value| && r.value[i] == d;
            assert Ok(d) == AnchorDocument(portal, anchors[i], listingUrl, env);
          }
        }
      }
      r
  }

  /** The content hashes do not depend on the clock: parsing the same page at
      two times succeeds at both or at neither, and gives documents with the
      same hashes and URLs. */
  lemma ParseHashesIgnoreClock(portal: PortalDefinition, anchors: seq<Anchor>, listingUrl: string,
                               env1: ListingEnv, env2: ListingEnv)
    requires env1.resolve == env2.resolve && env1.sha256 == env2.sha256 && env1.dateToIso == env2.dateToIso
    ensures ParsePortalListing(portal, anchors, listingUrl, env1).Ok? <==>
            ParsePortalListing(portal, anchors, listingUrl, env2).Ok?
    ensures var r1 := ParsePortalListing(portal, anchors, listingUrl, env1);
            var r2 := ParsePortalListing(portal, anchors, listingUrl, env2);
            r1.Ok? ==> |r1.value| == |r2.value| &&
                       forall i :: 0 <= i < |r1.value| ==>
                         r1.value[i].contentHash == r2.value[i].contentHash && r1.value[i].url == r2.value[i].url
  {
    var r1 := ParsePortalListing(portal, anchors, listingUrl, env1);
    var r2 := ParsePortalListing(portal, anchors, listingUrl, env2);
    assert forall i :: 0 <= i < |anchors| ==> (AnchorFails(portal, anchors[i], env1) <==> AnchorFails(portal, anchors[i], env2));
    if r1.Ok? && |anchors| > 0 {
      forall i | 0 <= i < |r1.value|
        ensures r1.value[i].contentHash == r2.value[i].contentHash && r1.value[i].url == r2.value[i].url
      {
        assert Ok(r1.value[i]) == AnchorDocument(portal, anchors[i], listingUrl, env1);
        assert Ok(r2.value[i]) == AnchorDocument(portal, anchors[i], listingUrl, env2);
      }
    }
  }
}

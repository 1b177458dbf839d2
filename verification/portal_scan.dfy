/** The maintenance agent's portal scan: documents are deduplicated against a
    per-portal list of keys already seen, and the keys of the unseen ones are
    remembered. Fetching a page and matching its anchors are inputs. */
module PortalScan {
  import opened Wrappers
  import opened Seqs
  import opened AgentTypes
  import opened Listing

  /** The persisted state's `seen` record: portal id to the keys seen. */
  type Seen = map<string, seq<string>>

  /** `doc.contentHash || doc.url`: an empty hash falls back to the URL. */
  function DedupKey(doc: PortalDocument): string {
    if doc.contentHash.Some? && doc.contentHash.value != "" then doc.contentHash.value else doc.url
  }

  /** `state.seen[portalId] || []`. */
  function SeenFor(seen: Seen, portalId: string): seq<string> {
    if portalId in seen then seen[portalId] else []
  }

  /** `hasSeen`. */
  predicate HasSeen(seen: Seen, doc: PortalDocument) {
    DedupKey(doc) in SeenFor(seen, doc.portalId)
  }

  /** `parsed.filter((doc) => !hasSeen(state, doc))`. */
  function Unseen(seen: Seen, parsed: seq<PortalDocument>): seq<PortalDocument>
    decreases |parsed|
  {
    if |parsed| == 0 then []
    else (if HasSeen(seen, parsed[0]) then [] else [parsed[0]]) + Unseen(seen, parsed[1..])
  }

  lemma {:induction false} UnseenIff(seen: Seen, parsed: seq<PortalDocument>, d: PortalDocument)
    ensures d in Unseen(seen, parsed) <==> d in parsed && !HasSeen(seen, d)
    decreases |parsed|
  {
    if |parsed| > 0 {
      UnseenIff(seen, parsed[1..], d);
      assert d in parsed <==> d == parsed[0] || d in parsed[1..];
    }
  }

  lemma {:induction false} UnseenAll(seen: Seen, parsed: seq<PortalDocument>)
    requires forall d :: d in parsed ==> !HasSeen(seen, d)
    ensures Unseen(seen, parsed) == parsed
    decreases |parsed|
  {
    if |parsed| > 0 {
      UnseenAll(seen, parsed[1..]);
    }
  }

  lemma UnseenNone(seen: Seen, parsed: seq<PortalDocument>)
    requires forall d :: d in parsed ==> HasSeen(seen, d)
    ensures Unseen(seen, parsed) == []
  {
    var u := Unseen(seen, parsed);
    if u != [] {
      UnseenIff(seen, parsed, u[0]);
    }
  }

  /** `rememberDocument`: append the key to the document's portal, creating
      its list when missing; nothing else changes. */
  function RememberDocument(seen: Seen, doc: PortalDocument): (s: Seen)
    ensures s.Keys == seen.Keys + {doc.portalId}
    ensures forall p :: SeenFor(s, p) == SeenFor(seen, p) + (if p == doc.portalId then [DedupKey(doc)] else [])
  {
    seen[doc.portalId := SeenFor(seen, doc.portalId) + [DedupKey(doc)]]
  }

  /** `fresh.forEach(rememberDocument)`. */
  function RememberAll(seen: Seen, docs: seq<PortalDocument>): Seen
    decreases |docs|
  {
    if |docs| == 0 then seen else RememberAll(RememberDocument(seen, docs[0]), docs[1..])
  }

  /** The keys of the documents of portal `p`, in order. */
  function KeysFor(docs: seq<PortalDocument>, p: string): seq<string>
    decreases |docs|
  {
    if |docs| == 0 then []
    else (if docs[0].portalId == p then [DedupKey(docs[0])] else []) + KeysFor(docs[1..], p)
  }

  /** Remembering a batch appends, per portal, exactly the keys of that
      portal's documents in batch order. */
  lemma {:induction false} RememberAllAppends(seen: Seen, docs: seq<PortalDocument>, p: string)
    ensures SeenFor(RememberAll(seen, docs), p) == SeenFor(seen, p) + KeysFor(docs, p)
    decreases |docs|
  {
    if |docs| > 0 {
      var s1 := RememberDocument(seen, docs[0]);
      assert RememberAll(seen, docs) == RememberAll(s1, docs[1..]);
      var head := if docs[0].portalId == p then [DedupKey(docs[0])] else [];
      assert KeysFor(docs, p) == head + KeysFor(docs[1..], p);
      assert SeenFor(s1, p) == SeenFor(seen, p) + head;
      RememberAllAppends(s1, docs[1..], p);
    }
  }

  lemma {:induction false} KeysForHas(docs: seq<PortalDocument>, i: nat)
    requires i < |docs|
    ensures DedupKey(docs[i]) in KeysFor(docs, docs[i].portalId)
    decreases |docs|
  {
    if i > 0 {
      KeysForHas(docs[1..], i - 1);
    }
  }

  /** A document already seen stays seen. */
  lemma RememberAllKeeps(seen: Seen, docs: seq<PortalDocument>, d: PortalDocument)
    ensures HasSeen(seen, d) ==> HasSeen(RememberAll(seen, docs), d)
  {
    RememberAllAppends(seen, docs, d.portalId);
  }

  /** Every remembered document is seen afterwards. */
  lemma RememberAllCovers(seen: Seen, docs: seq<PortalDocument>, i: nat)
    requires i < |docs|
    ensures HasSeen(RememberAll(seen, docs), docs[i])
  {
    RememberAllAppends(seen, docs, docs[i].portalId);
    KeysForHas(docs, i);
  }

  /** One portal's batch: the parsed documents whose key is not seen yet,
      all judged against the state before the batch, and the state with
      their keys remembered. */
  function ScanBatch(seen: Seen, parsed: seq<PortalDocument>): (seq<PortalDocument>, Seen) {
    BatchFrom(seen, seen, parsed)
  }

  /** The batch in one pass: freshness is judged against `before`, the
      state the batch started from, while keys are added to `acc`. */
  function BatchFrom(before: Seen, acc: Seen, parsed: seq<PortalDocument>): (seq<PortalDocument>, Seen)
    decreases |parsed|
  {
    if |parsed| == 0 then ([], acc)
    else if HasSeen(before, parsed[0]) then BatchFrom(before, acc, parsed[1..])
    else
      var rest := BatchFrom(before, RememberDocument(acc, parsed[0]), parsed[1..]);
      ([parsed[0]] + rest.0, rest.1)
  }

  lemma {:induction false} BatchFromFilterThenRemember(before: Seen, acc: Seen, parsed: seq<PortalDocument>)
    ensures BatchFrom(before, acc, parsed) == (Unseen(before, parsed), RememberAll(acc, Unseen(before, parsed)))
    decreases |parsed|
  {
    if |parsed| > 0 {
      var d := parsed[0];
      if HasSeen(before, d) {
        BatchFromFilterThenRemember(before, acc, parsed[1..]);
        assert Unseen(before, parsed) == [] + Unseen(before, parsed[1..]);
        assert [] + Unseen(before, parsed[1..]) == Unseen(before, parsed[1..]);
      } else {
        BatchFromFilterThenRemember(before, RememberDocument(acc, d), parsed[1..]);
        var u := Unseen(before, parsed);
        assert u == [d] + Unseen(before, parsed[1..]);
        assert u[1..] == Unseen(before, parsed[1..]);
      }
    }
  }

  /** The one-pass batch is `parsed.filter(!hasSeen)` followed by
      `forEach(rememberDocument)` on the result. */
  lemma ScanBatchFilterThenRemember(seen: Seen, parsed: seq<PortalDocument>)
    ensures ScanBatch(seen, parsed) == (Unseen(seen, parsed), RememberAll(seen, Unseen(seen, parsed)))
  {
    BatchFromFilterThenRemember(seen, seen, parsed);
  }

  /** A document is fresh exactly when its key was absent before the batch. */
  lemma BatchFreshIffUnseen(seen: Seen, parsed: seq<PortalDocument>)
    ensures forall d :: d in ScanBatch(seen, parsed).0 <==> d in parsed && !HasSeen(seen, d)
  {
    ScanBatchFilterThenRemember(seen, parsed);
    forall d | true ensures d in ScanBatch(seen, parsed).0 <==> d in parsed && !HasSeen(seen, d) {
      UnseenIff(seen, parsed, d);
    }
  }

  /** After a batch every fresh document's key is remembered. */
  lemma BatchRemembersFresh(seen: Seen, parsed: seq<PortalDocument>, i: nat)
    requires i < |ScanBatch(seen, parsed).0|
    ensures HasSeen(ScanBatch(seen, parsed).1, ScanBatch(seen, parsed).0[i])
  {
    ScanBatchFilterThenRemember(seen, parsed);
    RememberAllCovers(seen, Unseen(seen, parsed), i);
  }

  /** A batch forgets no key seen before it. */
  lemma BatchKeepsSeen(seen: Seen, parsed: seq<PortalDocument>, d: PortalDocument)
    ensures HasSeen(seen, d) ==> HasSeen(ScanBatch(seen, parsed).1, d)
  {
    ScanBatchFilterThenRemember(seen, parsed);
    RememberAllKeeps(seen, Unseen(seen, parsed), d);
  }

  /** After a batch every parsed document, fresh or not, is seen. */
  lemma BatchCoversParsed(seen: Seen, parsed: seq<PortalDocument>, d: PortalDocument)
    requires d in parsed
    ensures HasSeen(ScanBatch(seen, parsed).1, d)
  {
    ScanBatchFilterThenRemember(seen, parsed);
    var unseen := Unseen(seen, parsed);
    RememberAllKeeps(seen, unseen, d);
    if !HasSeen(seen, d) {
      UnseenIff(seen, parsed, d);
      var i :| 0 <= i < |unseen| && unseen[i] == d;
      RememberAllCovers(seen, unseen, i);
    }
  }

  /** Scanning the same documents again finds nothing fresh. */
  lemma RescanFindsNothing(seen: Seen, parsed: seq<PortalDocument>)
    ensures ScanBatch(ScanBatch(seen, parsed).1, parsed).0 == []
  {
    var next := ScanBatch(seen, parsed).1;
    forall d | d in parsed ensures HasSeen(next, d) {
      BatchCoversParsed(seen, parsed, d);
    }
    UnseenNone(next, parsed);
    ScanBatchFilterThenRemember(next, parsed);
  }

  /** The same listing page parsed again later, at another time, yields no
      fresh document: the keys do not depend on the clock, and the
      placeholder's key is fixed too. */
  lemma RescanLaterFindsNothing(seen: Seen, portal: PortalDefinition, anchors: seq<Anchor>, listingUrl: string,
                                env1: ListingEnv, env2: ListingEnv)
    requires env1.resolve == env2.resolve && env1.sha256 == env2.sha256 && env1.dateToIso == env2.dateToIso
    requires ParsePortalListing(portal, anchors, listingUrl, env1).Ok?
    ensures ParsePortalListing(portal, anchors, listingUrl, env2).Ok?
    ensures var first := ScanBatch(seen, ParsePortalListing(portal, anchors, listingUrl, env1).value);
            ScanBatch(first.1, ParsePortalListing(portal, anchors, listingUrl, env2).value).0 == []
  {
    ParseHashesIgnoreClock(portal, anchors, listingUrl, env1, env2);
    var docs1 := ParsePortalListing(portal, anchors, listingUrl, env1).value;
    var docs2 := ParsePortalListing(portal, anchors, listingUrl, env2).value;
    var next := ScanBatch(seen, docs1).1;
    forall i | 0 <= i < |docs2| ensures HasSeen(next, docs2[i]) {
      BatchCoversParsed(seen, docs1, docs1[i]);
      assert DedupKey(docs1[i]) == DedupKey(docs2[i]);
    }
    UnseenNone(next, docs2);
    ScanBatchFilterThenRemember(next, docs2);
  }

  /** Two documents of one page with the same key are both unseen, because
      freshness is judged before remembering, and the key is stored twice. */
  lemma SameKeyTwiceBothFresh(seen: Seen, d1: PortalDocument, d2: PortalDocument)
    requires d1.portalId == d2.portalId && DedupKey(d1) == DedupKey(d2)
    requires !HasSeen(seen, d1)
    ensures ScanBatch(seen, [d1, d2]).0 == [d1, d2]
    ensures SeenFor(ScanBatch(seen, [d1, d2]).1, d1.portalId) == SeenFor(seen, d1.portalId) + [DedupKey(d1), DedupKey(d1)]
  {
    ScanBatchFilterThenRemember(seen, [d1, d2]);
    UnseenAll(seen, [d1, d2]);
    RememberAllAppends(seen, [d1, d2], d1.portalId);
    assert [d1, d2][1..] == [d2];
    assert KeysFor([d2], d1.portalId) == [DedupKey(d2)] by {
      assert [d2][1..] == [];
    }
  }

  /** The page fetcher, the anchor matcher, the listing environment and the
      time the state file is written. */
  datatype ScanIO = ScanIO(
    fetch: string -> Result<string>,
    anchorsOf: string -> seq<Anchor>,
    env: ListingEnv,
    finishedAt: string)

  /** A listing parser: portal, anchors on the page and listing URL to
      documents, or the error it throws. */
  type Parser = (PortalDefinition, seq<Anchor>, string) -> Result<seq<PortalDocument>>

  /** `parsePortalListing` in the given environment. */
  function ListingParser(env: ListingEnv): Parser {
    (portal, anchors, listingUrl) => ParsePortalListing(portal, anchors, listingUrl, env)
  }

  /** `new URL(portal.listingPath, portal.baseUrl).toString()`. */
  function ListingUrl(portal: PortalDefinition, env: ListingEnv): Result<string> {
    env.resolve(portal.listingPath, portal.baseUrl)
  }

  /** One portal's listing: resolve its URL, fetch the page, parse it. The
      first step that throws gives the error. */
  function Listed(portals: seq<PortalDefinition>, i: nat, io: ScanIO, parse: Parser): (r: Result<seq<PortalDocument>>)
    requires i < |portals|
    ensures ListingUrl(portals[i], io.env).Err? ==> r == Err(ListingUrl(portals[i], io.env).message)
    ensures ListingUrl(portals[i], io.env).Ok? ==>
              var page := io.fetch(ListingUrl(portals[i], io.env).value);
              (page.Err? ==> r == Err(page.message)) &&
              (page.Ok? ==> r == parse(portals[i], io.anchorsOf(page.value), ListingUrl(portals[i], io.env).value))
  {
    var url :- ListingUrl(portals[i], io.env);
    var html :- io.fetch(url);
    parse(portals[i], io.anchorsOf(html), url)
  }

  /** Portal `j`'s listing throws. */
  predicate PortalFails(portals: seq<PortalDefinition>, j: nat, io: ScanIO, parse: Parser)
    requires j < |portals|
  {
    Listed(portals, j, io, parse).Err?
  }

  /** With the real parser a portal fails exactly when its listing URL does
      not resolve, its page cannot be fetched, or one of the page's anchors
      has a URL that does not resolve or a date that does not convert. */
  lemma PortalFailsIff(portals: seq<PortalDefinition>, j: nat, io: ScanIO)
    requires j < |portals|
    ensures var url := ListingUrl(portals[j], io.env);
            PortalFails(portals, j, io, ListingParser(io.env)) <==>
              url.Err? ||
              io.fetch(url.value).Err? ||
              exists k :: 0 <= k < |io.anchorsOf(io.fetch(url.value).value)| &&
                          AnchorFails(portals[j], io.anchorsOf(io.fetch(url.value).value)[k], io.env)
  {
  }

  /** What a scan produces: the documents found, or the first error, and the
      in-memory state. */
  datatype ScanOutcome = ScanOutcome(result: Result<seq<PortalDocument>>, state: Seen)

  /** `found` put before the documents of a successful outcome. */
  function Prepend(found: seq<PortalDocument>, out: ScanOutcome): ScanOutcome {
    if out.result.Ok? then ScanOutcome(Ok(found + out.result.value), out.state) else out
  }

  /** The scan of `portals[i..]` from `state`. */
  function Scan(portals: seq<PortalDefinition>, i: nat, state: Seen, io: ScanIO, parse: Parser): ScanOutcome
    requires i <= |portals|
    decreases |portals| - i
  {
    if i == |portals| then ScanOutcome(Ok([]), state)
    else
      match Listed(portals, i, io, parse)
      case Err(message) => ScanOutcome(Err(message), state)
      case Ok(parsed) =>
        var batch := ScanBatch(state, parsed);
        Prepend(batch.0, Scan(portals, i + 1, batch.1, io, parse))
  }

  lemma ScanStep(portals: seq<PortalDefinition>, i: nat, state: Seen, io: ScanIO, parse: Parser)
    requires i < |portals| && !PortalFails(portals, i, io, parse)
    ensures var batch := ScanBatch(state, Listed(portals, i, io, parse).value);
            Scan(portals, i, state, io, parse) == Prepend(batch.0, Scan(portals, i + 1, batch.1, io, parse))
  {
  }

  lemma ScanStops(portals: seq<PortalDefinition>, i: nat, state: Seen, io: ScanIO, parse: Parser)
    requires i <= |portals|
    ensures i == |portals| ==> Scan(portals, i, state, io, parse) == ScanOutcome(Ok([]), state)
    ensures i < |portals| && PortalFails(portals, i, io, parse) ==>
              Scan(portals, i, state, io, parse) == ScanOutcome(Err(Listed(portals, i, io, parse).message), state)
  {
  }

  lemma PrependNothing(out: ScanOutcome)
    ensures Prepend([], out) == out
  {
    if out.result.Ok? {
      assert [] + out.result.value == out.result.value;
    }
  }

  lemma PrependTwice(a: seq<PortalDocument>, b: seq<PortalDocument>, out: ScanOutcome)
    ensures Prepend(a, Prepend(b, out)) == Prepend(a + b, out)
  {
    if out.result.Ok? {
      assert a + (b + out.result.value) == (a + b) + out.result.value;
    }
  }

  /** Some portal from `i` on fails. */
  predicate SomePortalFails(portals: seq<PortalDefinition>, i: nat, io: ScanIO, parse: Parser)
    requires i <= |portals|
    decreases |portals| - i
  {
    i < |portals| && (PortalFails(portals, i, io, parse) || SomePortalFails(portals, i + 1, io, parse))
  }

  lemma {:induction false} SomePortalFailsIff(portals: seq<PortalDefinition>, i: nat, io: ScanIO, parse: Parser)
    requires i <= |portals|
    ensures SomePortalFails(portals, i, io, parse) <==> exists j :: i <= j < |portals| && PortalFails(portals, j, io, parse)
    decreases |portals| - i
  {
    if i < |portals| {
      SomePortalFailsIff(portals, i + 1, io, parse);
      if exists j :: i <= j < |portals| && PortalFails(portals, j, io, parse) {
        var j :| i <= j < |portals| && PortalFails(portals, j, io, parse);
        assert j == i || (i + 1 <= j < |portals| && PortalFails(portals, j, io, parse));
      }
    }
  }

  lemma {:induction false} ScanFailsIffSome(portals: seq<PortalDefinition>, i: nat, state: Seen, io: ScanIO, parse: Parser)
    requires i <= |portals|
    ensures Scan(portals, i, state, io, parse).result.Err? <==> SomePortalFails(portals, i, io, parse)
    decreases |portals| - i
  {
    if i < |portals| && !PortalFails(portals, i, io, parse) {
      var batch := ScanBatch(state, Listed(portals, i, io, parse).value);
      ScanFailsIffSome(portals, i + 1, batch.1, io, parse);
    }
  }

  /** The scan fails exactly when some portal's listing throws. */
  lemma ScanFailsIffPortalFails(portals: seq<PortalDefinition>, i: nat, state: Seen, io: ScanIO, parse: Parser)
    requires i <= |portals|
    ensures Scan(portals, i, state, io, parse).result.Err? <==>
            exists j :: i <= j < |portals| && PortalFails(portals, j, io, parse)
  {
    ScanFailsIffSome(portals, i, state, io, parse);
    SomePortalFailsIff(portals, i, io, parse);
  }

  /** A failed scan reports the error of the first portal whose listing
      throws. */
  lemma {:induction false} ScanReportsFirstError(portals: seq<PortalDefinition>, i: nat, j: nat, state: Seen,
                                                 io: ScanIO, parse: Parser)
    requires i <= j < |portals| && PortalFails(portals, j, io, parse)
    requires forall m :: i <= m < j ==> !PortalFails(portals, m, io, parse)
    ensures Scan(portals, i, state, io, parse).result == Err(Listed(portals, j, io, parse).message)
    decreases j - i
  {
    if i < j {
      assert !PortalFails(portals, i, io, parse);
      var batch := ScanBatch(state, Listed(portals, i, io, parse).value);
      ScanReportsFirstError(portals, i + 1, j, batch.1, io, parse);
      assert Scan(portals, i, state, io, parse) == Prepend(batch.0, Scan(portals, i + 1, batch.1, io, parse));
    } else {
      assert Scan(portals, i, state, io, parse) == ScanOutcome(Err(Listed(portals, j, io, parse).message), state);
    }
  }

  /** A scan forgets no key seen before it. */
  lemma {:induction false} ScanKeepsSeen(portals: seq<PortalDefinition>, i: nat, state: Seen, io: ScanIO, parse: Parser,
                                         d: PortalDocument)
    requires i <= |portals|
    ensures HasSeen(state, d) ==> HasSeen(Scan(portals, i, state, io, parse).state, d)
    decreases |portals| - i
  {
    if i < |portals| && !PortalFails(portals, i, io, parse) {
      var parsed := Listed(portals, i, io, parse).value;
      var batch := ScanBatch(state, parsed);
      BatchKeepsSeen(state, parsed, d);
      ScanKeepsSeen(portals, i + 1, batch.1, io, parse, d);
    }
  }

  /** The final state of a successful scan holds the key of every document
      it returns. */
  lemma {:induction false} ScanRemembersFound(portals: seq<PortalDefinition>, i: nat, state: Seen, io: ScanIO,
                                              parse: Parser, k: nat)
    requires i <= |portals|
    ensures var out := Scan(portals, i, state, io, parse);
            out.result.Ok? && k < |out.result.value| ==> HasSeen(out.state, out.result.value[k])
    decreases |portals| - i
  {
    if i < |portals| && !PortalFails(portals, i, io, parse) {
      var parsed := Listed(portals, i, io, parse).value;
      var batch := ScanBatch(state, parsed);
      var rest := Scan(portals, i + 1, batch.1, io, parse);
      if rest.result.Ok? {
        var v := batch.0 + rest.result.value;
        if k < |batch.0| {
          assert v[k] == batch.0[k];
          BatchRemembersFresh(state, parsed, k);
          ScanKeepsSeen(portals, i + 1, batch.1, io, parse, batch.0[k]);
        } else if k < |v| {
          assert v[k] == rest.result.value[k - |batch.0|];
          ScanRemembersFound(portals, i + 1, batch.1, io, parse, k - |batch.0|);
        }
      }
    }
  }

  /** The state file: the `seen` record and the time of the last run. */
  datatype PortalStateFile = PortalStateFile(seen: Seen, lastRun: Option<string>)

  /** `watchPortals`: scans the portals in order; an error in resolving,
      fetching or parsing a listing aborts the whole scan and nothing is
      persisted, although the in-memory state keeps the keys of the portals
      scanned before it. A finished scan writes the state with `lastRun` set
      to the time of writing. */
  method WatchPortals(portals: seq<PortalDefinition>, seen: Seen, io: ScanIO)
    returns (r: Result<seq<PortalDocument>>, state: Seen, persisted: Option<PortalStateFile>)
    ensures ScanOutcome(r, state) == Scan(portals, 0, seen, io, ListingParser(io.env))
    ensures persisted.Some? <==> r.Ok?
    ensures r.Ok? ==> persisted == Some(PortalStateFile(state, Some(io.finishedAt)))
  {
    var parse := ListingParser(io.env);
    state := seen;
    var discovered: seq<PortalDocument> := [];
    var i := 0;
    PrependNothing(Scan(portals, 0, seen, io, parse));
    while i < |portals|
      invariant 0 <= i <= |portals|
      invariant Scan(portals, 0, seen, io, parse) == Prepend(discovered, Scan(portals, i, state, io, parse))
    {
      var listingUrl := ListingUrl(portals[i], io.env);
      if listingUrl.Err? {
        ScanStops(portals, i, state, io, parse);
        return Err(listingUrl.message), state, None;
      }
      var html := io.fetch(listingUrl.value);
      if html.Err? {
        ScanStops(portals, i, state, io, parse);
        return Err(html.message), state, None;
      }
      var parsed := ParsePortalListing(portals[i], io.anchorsOf(html.value), listingUrl.value, io.env);
      if parsed.Err? {
        ScanStops(portals, i, state, io, parse);
        return Err(parsed.message), state, None;
      }
      var batch := ScanBatch(state, parsed.value);
      ScanStep(portals, i, state, io, parse);
      PrependTwice(discovered, batch.0, Scan(portals, i + 1, batch.1, io, parse));
      state := batch.1;
      discovered := discovered + batch.0;
      i := i + 1;
    }
    ScanStops(portals, i, state, io, parse);
    assert discovered + [] == discovered;
    r := Ok(discovered);
    persisted := Some(PortalStateFile(state, Some(io.finishedAt)));
  }
}

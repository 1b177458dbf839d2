/** Retrieval with guardrails: search only the planned stores that the
    catalog knows, at most `maxStores` of them, stopping at a deadline. The
    file search and the clock are oracles passed in by the caller. */
module Retrieval {
  import opened Wrappers
  import opened Seqs
  import opened OrderedMaps
  import opened VectorStores
  import SourcePlanner

  const RETRIEVAL_TIMEOUT_MS: int := 60000

  datatype RetrievalOptions = RetrievalOptions(timeoutMs: Option<int>, maxStores: Option<int>)

  /** What one file search gives: the texts found, or the thrown error's
      message. */
  datatype SearchOutcome = Found(results: seq<string>) | Failed(message: string)

  /** The file search: the outcome of the `n`-th call, made on a store with a
      query. Indexing by call lets repeated calls on one store differ. */
  type Search = (nat, string, string) -> SearchOutcome

  /** The clock: the value of the `n`-th `Date.now()` reading; reading 0 is
      the start of the search loop. */
  type Clock = nat -> int

  datatype RetrievalResult = RetrievalResult(
    byStore: OMap<string, seq<string>>,
    errors: OMap<string, string>,
    storesQueried: seq<string>)

  /** `options?.timeoutMs ?? RETRIEVAL_TIMEOUT_MS`. */
  function TimeoutOf(options: Option<RetrievalOptions>): int {
    if options.Some? && options.value.timeoutMs.Some? then options.value.timeoutMs.value
    else RETRIEVAL_TIMEOUT_MS
  }

  /** `options?.maxStores ?? MAX_STORES_PER_QUERY`. */
  function MaxStoresOf(options: Option<RetrievalOptions>): int {
    if options.Some? && options.value.maxStores.Some? then options.value.maxStores.value
    else SourcePlanner.MAX_STORES_PER_QUERY
  }

  lemma DefaultOptions()
    ensures TimeoutOf(None) == 60000 && MaxStoresOf(None) == 3
    ensures TimeoutOf(Some(RetrievalOptions(None, None))) == 60000
    ensures MaxStoresOf(Some(RetrievalOptions(None, None))) == 3
  {
  }

  /** The ids the loop will search: the registered ones among the first
      `maxStores` inputs, in input order. */
  function Selected(catalog: Catalog, storeIds: seq<string>, maxStores: int): (v: seq<string>)
    ensures |v| <= |storeIds| && (0 <= maxStores ==> |v| <= maxStores)
    ensures forall id :: id in v <==> id in Take(storeIds, maxStores) && IsRegistered(catalog, id)
  {
    Filter(RegisteredIn(catalog), Take(storeIds, maxStores))
  }

  /** The deadline check before the `j`-th search passes: at most
      `timeoutMs` have elapsed since the start reading. */
  predicate InTime(now: Clock, j: nat, timeoutMs: int) {
    now(j + 1) - now(0) <= timeoutMs
  }

  /** Number of searches made before the deadline check stops the loop: the
      first position whose check finds the elapsed time above the timeout,
      or all of them. */
  function Cutoff(now: Clock, n: nat, timeoutMs: int): (k: nat)
    ensures k <= n
    ensures forall j :: 0 <= j < k ==> InTime(now, j, timeoutMs)
    ensures k < n ==> !InTime(now, k, timeoutMs)
  {
    CutoffFrom(now, 0, n, timeoutMs)
  }

  function CutoffFrom(now: Clock, i: nat, n: nat, timeoutMs: int): (k: nat)
    requires i <= n
    requires forall j :: 0 <= j < i ==> InTime(now, j, timeoutMs)
    ensures i <= k <= n
    ensures forall j :: 0 <= j < k ==> InTime(now, j, timeoutMs)
    ensures k < n ==> !InTime(now, k, timeoutMs)
    decreases n - i
  {
    if i == n || !InTime(now, i, timeoutMs) then i
    else CutoffFrom(now, i + 1, n, timeoutMs)
  }

  /** The cutoff is the only position that satisfies its two defining
      conditions. */
  lemma CutoffUnique(now: Clock, n: nat, timeoutMs: int, k: nat)
    requires k <= n
    requires forall j :: 0 <= j < k ==> InTime(now, j, timeoutMs)
    requires k < n ==> !InTime(now, k, timeoutMs)
    ensures Cutoff(now, n, timeoutMs) == k
  {
  }

  type Maps = (OMap<string, seq<string>>, OMap<string, string>)

  /** One search's effect: results go to `byStore`, a failure's message to
      `errors`, each replacing an earlier entry for the same store. */
  function Step(maps: Maps, id: string, outcome: SearchOutcome): Maps {
    match outcome
    case Found(rs) => (Put(maps.0, id, rs), maps.1)
    case Failed(msg) => (maps.0, Put(maps.1, id, msg))
  }

  /** The two maps after the first `k` searches of `valid`. */
  function Record(valid: seq<string>, query: string, search: Search, k: nat): Maps
    requires k <= |valid|
  {
    if k == 0 then ([], [])
    else Step(Record(valid, query, search, k - 1), valid[k - 1], search(k - 1, valid[k - 1], query))
  }

  /** Only searched stores get keys. */
  lemma {:induction false} RecordKeysSearched(valid: seq<string>, query: string, search: Search, k: nat, id: string)
    requires k <= |valid|
    ensures HasKey(Record(valid, query, search, k).0, id) || HasKey(Record(valid, query, search, k).1, id)
            ==> id in valid[..k]
  {
    if k > 0 {
      var maps := Record(valid, query, search, k - 1);
      var last := valid[k - 1];
      assert valid[..k] == valid[..k - 1] + [last];
      if id != last {
        match search(k - 1, last, query) {
          case Found(rs) => PutGet(maps.0, last, rs, id);
          case Failed(msg) => PutGet(maps.1, last, msg, id);
        }
        RecordKeysSearched(valid, query, search, k - 1, id);
      }
    }
  }

  /** `Put` keeps the keys it had and adds its own. */
  lemma PutKeeps<K, V>(m: OMap<K, V>, k: K, v: V, k': K)
    requires k' == k || HasKey(m, k')
    ensures HasKey(Put(m, k, v), k')
  {
    PutGet(m, k, v, k');
  }

  /** Every searched store has a key in one of the two maps. */
  lemma {:induction false} RecordCoversSearched(valid: seq<string>, query: string, search: Search, k: nat, j: nat)
    requires j < k <= |valid|
    ensures HasKey(Record(valid, query, search, k).0, valid[j]) ||
            HasKey(Record(valid, query, search, k).1, valid[j])
  {
    var maps := Record(valid, query, search, k - 1);
    var last := valid[k - 1];
    var id := valid[j];
    if j < k - 1 {
      RecordCoversSearched(valid, query, search, k - 1, j);
    }
    assert id == last || HasKey(maps.0, id) || HasKey(maps.1, id);
    match search(k - 1, last, query) {
      case Found(rs) =>
        if id == last || HasKey(maps.0, id) {
          PutKeeps(maps.0, last, rs, id);
        }
      case Failed(msg) =>
        if id == last || HasKey(maps.1, id) {
          PutKeeps(maps.1, last, msg, id);
        }
    }
  }

  /** A step leaves every other store's entries alone. */
  lemma StepKeepsOthers(maps: Maps, last: string, outcome: SearchOutcome, id: string)
    requires id != last
    ensures Get(Step(maps, last, outcome).0, id) == Get(maps.0, id)
    ensures Get(Step(maps, last, outcome).1, id) == Get(maps.1, id)
  {
    match outcome {
      case Found(rs) => PutGet(maps.0, last, rs, id);
      case Failed(msg) => PutGet(maps.1, last, msg, id);
    }
  }

  /** A step on a store seen for the first time puts it in exactly one map. */
  lemma StepFresh(maps: Maps, id: string, outcome: SearchOutcome)
    requires Get(maps.0, id).None? && Get(maps.1, id).None?
    ensures outcome.Found? ==> Get(Step(maps, id, outcome).0, id) == Some(outcome.results) &&
                               Get(Step(maps, id, outcome).1, id).None?
    ensures outcome.Failed? ==> Get(Step(maps, id, outcome).1, id) == Some(outcome.message) &&
                                Get(Step(maps, id, outcome).0, id).None?
  {
    match outcome {
      case Found(rs) => PutGet(maps.0, id, rs, id);
      case Failed(msg) => PutGet(maps.1, id, msg, id);
    }
  }

  /** With no store repeated, each searched store ends up in exactly one
      map: in `byStore` with its results when the search succeeded, in
      `errors` with the message when it failed. */
  lemma {:induction false} RecordExact(valid: seq<string>, query: string, search: Search, k: nat, j: nat)
    requires j < k <= |valid| && NoDup(valid)
    ensures search(j, valid[j], query).Found? ==>
              Get(Record(valid, query, search, k).0, valid[j]) == Some(search(j, valid[j], query).results) &&
              Get(Record(valid, query, search, k).1, valid[j]).None?
    ensures search(j, valid[j], query).Failed? ==>
              Get(Record(valid, query, search, k).1, valid[j]) == Some(search(j, valid[j], query).message) &&
              Get(Record(valid, query, search, k).0, valid[j]).None?
  {
    var maps := Record(valid, query, search, k - 1);
    var last := valid[k - 1];
    var id := valid[j];
    assert Record(valid, query, search, k) == Step(maps, last, search(k - 1, last, query));
    if j < k - 1 {
      RecordExact(valid, query, search, k - 1, j);
      assert id != last;
      StepKeepsOthers(maps, last, search(k - 1, last, query), id);
    } else {
      RecordKeysSearched(valid, query, search, k - 1, id);
      assert id !in valid[..k - 1];
      StepFresh(maps, id, search(j, id, query));
    }
  }

  /** Without the no-repeat condition the two maps can share a key: a store
      listed twice whose first search succeeds and second fails is in
      both. */
  lemma RepeatedStoreInBothMaps(valid: seq<string>, id: string, search: Search, query: string)
    requires valid == [id, id]
    requires search(0, id, query).Found? && search(1, id, query).Failed?
    ensures HasKey(Record(valid, query, search, 2).0, id)
    ensures HasKey(Record(valid, query, search, 2).1, id)
  {
    var m0 := Record(valid, query, search, 0);
    var m1 := Record(valid, query, search, 1);
    var m2 := Record(valid, query, search, 2);
    assert m1 == Step(m0, id, search(0, id, query));
    StepFresh(m0, id, search(0, id, query));
    assert m2 == Step(m1, id, search(1, id, query));
    PutGet(m1.1, id, search(1, id, query).message, id);
  }

  lemma RecordNext(valid: seq<string>, query: string, search: Search, i: nat)
    requires i < |valid|
    ensures Record(valid, query, search, i + 1) ==
            Step(Record(valid, query, search, i), valid[i], search(i, valid[i], query))
  {
  }

  lemma PutHasKey<K, V>(m: OMap<K, V>, k: K, v: V)
    ensures forall k' :: HasKey(Put(m, k, v), k') <==> k' == k || HasKey(m, k')
  {
    forall k' ensures HasKey(Put(m, k, v), k') <==> k' == k || HasKey(m, k') {
      PutGet(m, k, v, k');
    }
  }

  /** The first loop: each id goes to `valid` or `invalid`, keeping order. */
  method PartitionIds(catalog: Catalog, toQuery: seq<string>)
    returns (valid: seq<string>, invalid: seq<string>)
    ensures valid == Filter(RegisteredIn(catalog), toQuery)
    ensures invalid == Filter(UnregisteredIn(catalog), toQuery)
  {
    valid := [];
    invalid := [];
    var registered := RegisteredIn(catalog);
    var unregistered := UnregisteredIn(catalog);
    for i := 0 to |toQuery|
      invariant valid == Filter(registered, toQuery[..i])
      invariant invalid == Filter(unregistered, toQuery[..i])
    {
      assert toQuery[..i + 1] == toQuery[..i] + [toQuery[i]];
      FilterSnoc(registered, toQuery[..i], toQuery[i]);
      FilterSnoc(unregistered, toQuery[..i], toQuery[i]);
      if IsRegistered(catalog, toQuery[i]) {
        valid := valid + [toQuery[i]];
      } else {
        invalid := invalid + [toQuery[i]];
      }
    }
    assert toQuery[..|toQuery|] == toQuery;
  }

  /** The second loop: search each valid store in turn, checking the deadline
      before every call; a failed search is recorded and the loop goes on. */
  method SearchStores(query: string, valid: seq<string>, timeoutMs: int, search: Search, now: Clock)
    returns (byStore: OMap<string, seq<string>>, errors: OMap<string, string>, searched: seq<string>)
    ensures searched == valid[..Cutoff(now, |valid|, timeoutMs)]
    ensures (byStore, errors) == Record(valid, query, search, Cutoff(now, |valid|, timeoutMs))
  {
    var maps: Maps := ([], []);
    searched := [];
    var start := now(0);
    var i := 0;
    var stopped := false;
    while i < |valid| && !stopped
      invariant 0 <= i <= |valid|
      invariant forall j :: 0 <= j < i ==> InTime(now, j, timeoutMs)
      invariant stopped ==> i < |valid| && !InTime(now, i, timeoutMs)
      invariant maps == Record(valid, query, search, i)
      invariant searched == valid[..i]
      decreases |valid| - i, if stopped then 0 else 1
    {
      if now(i + 1) - start > timeoutMs {
        stopped := true;
      } else {
        var id := valid[i];
        var outcome := search(i, id, query);
        RecordNext(valid, query, search, i);
        maps := Step(maps, id, outcome);
        searched := searched + [id];
        assert searched == valid[..i + 1];
        i := i + 1;
      }
    }
    CutoffUnique(now, |valid|, timeoutMs, i);
    byStore, errors := maps.0, maps.1;
  }

  /** `runRetrieval`. `searched` lists the stores the search oracle was
      called on, in call order. */
  method RunRetrieval(query: string, storeIds: seq<string>, options: Option<RetrievalOptions>,
                      catalog: Catalog, search: Search, now: Clock)
    returns (r: RetrievalResult, searched: seq<string>)
    ensures r.storesQueried == Selected(catalog, storeIds, MaxStoresOf(options))
    ensures searched == r.storesQueried[..Cutoff(now, |r.storesQueried|, TimeoutOf(options))]
    ensures (r.byStore, r.errors) ==
            Record(r.storesQueried, query, search, Cutoff(now, |r.storesQueried|, TimeoutOf(options)))
    ensures forall id :: id in searched ==> IsRegistered(catalog, id) && id in Take(storeIds, MaxStoresOf(options))
    ensures forall id :: HasKey(r.byStore, id) || HasKey(r.errors, id) ==> id in searched
  {
    var timeoutMs := TimeoutOf(options);
    var maxStores := MaxStoresOf(options);
    var toQuery := Take(storeIds, maxStores);
    var valid, invalid := PartitionIds(catalog, toQuery);
    var byStore, errors;
    byStore, errors, searched := SearchStores(query, valid, timeoutMs, search, now);
    r := RetrievalResult(byStore, errors, valid);
    var k := Cutoff(now, |valid|, timeoutMs);
    forall id | HasKey(r.byStore, id) || HasKey(r.errors, id) ensures id in searched {
      RecordKeysSearched(valid, query, search, k, id);
    }
  }
}

/** The deterministic parts of the `/query` workflow: which specialists to
    suggest, whether to run the trusted-sources enricher, the context block
    handed to the coordinator, and the assembly of the final answer. */
module UserQuery {
  import opened Wrappers
  import opened Text
  import opened Seqs
  import opened OrderedMaps
  import opened Triage
  import SourcePlanner
  import Retrieval
  import VectorStores

  /** The specialist agents the workflow can suggest. */
  datatype AgentId = SpecMercadorias | SpecTransporte | LegislacaoIbsCbs

  const SPECIALIST_CATALOG: seq<AgentId> := [SpecMercadorias, SpecTransporte, LegislacaoIbsCbs]

  /** The rule that selects each specialist. */
  predicate Fires(a: AgentId, t: TriageResult) {
    match a
    case SpecMercadorias =>
      t.family == Some(Mercadorias) || t.docType == Some(Nfe) || t.docType == Some(Nfce)
    case SpecTransporte =>
      t.family == Some(Transporte) || t.docType == Some(Cte) || t.docType == Some(Mdfe) || t.docType == Some(Bpe)
    case LegislacaoIbsCbs => t.trail == Legislacao
  }

  predicate NoneFires(t: TriageResult) {
    !Fires(SpecMercadorias, t) && !Fires(SpecTransporte, t) && !Fires(LegislacaoIbsCbs, t)
  }

  /** The selection test as a filter callback: the specialist's own rule, or
      no rule at all. */
  function ChosenBy(t: TriageResult): AgentId -> bool {
    a => Fires(a, t) || NoneFires(t)
  }

  /** `pickSpecialistsFromTriage`: the catalog filtered by the selection
      test. */
  function PickSpecialists(t: TriageResult): (r: seq<AgentId>)
    ensures |r| > 0
    ensures r == Filter(ChosenBy(t), SPECIALIST_CATALOG)
  {
    var selected :=
      (if Fires(SpecMercadorias, t) then [SpecMercadorias] else [])
      + (if Fires(SpecTransporte, t) then [SpecTransporte] else [])
      + (if Fires(LegislacaoIbsCbs, t) then [LegislacaoIbsCbs] else []);
    if |selected| == 0 then SPECIALIST_CATALOG else selected
  }

  /** The suggestion is never empty, follows the catalog order without
      repeats, and holds exactly the specialists whose rule fires, or all
      three when none does. */
  lemma PickSpecialistsSpec(t: TriageResult)
    ensures NoDup(PickSpecialists(t))
    ensures OrderedIn(PickSpecialists(t), SPECIALIST_CATALOG)
    ensures forall a :: a in PickSpecialists(t) <==> Fires(a, t) || NoneFires(t)
  {
    var c := SPECIALIST_CATALOG;
    assert NoDup(c);
    assert OrderedIn(c, c) by {
      assert IndexOf(c, c[0]) == 0 && IndexOf(c, c[1]) == 1 && IndexOf(c, c[2]) == 2;
    }
    FilterNoDup(ChosenBy(t), c);
    FilterOrderedIn(ChosenBy(t), c, c);
    forall a ensures a in c {
      assert a == SpecMercadorias || a == SpecTransporte || a == LegislacaoIbsCbs;
    }
  }

  /** The substrings that call for the enricher outside the Legislacao
      trail. */
  const ENRICHER_TERMS: seq<string> :=
    ["cgibs", "pré-cgibs", "pre-cgibs", "ibs", "cbs", "impactos administrativos", "reforma tribut"]

  /** `shouldRunTrustedSourcesEnricher`. */
  predicate ShouldRunEnricher(t: TriageResult, question: string) {
    var q := ToLower(question);
    t.trail == Legislacao
    || Contains(q, "cgibs") || Contains(q, "pré-cgibs") || Contains(q, "pre-cgibs")
    || Contains(q, "ibs") || Contains(q, "cbs")
    || Contains(q, "impactos administrativos") || Contains(q, "reforma tribut")
  }

  /** The decision, stated over the term list: the Legislacao trail always
      runs the enricher, whatever the text; otherwise some listed term
      occurs in the lower-cased question. */
  lemma ShouldRunEnricherIff(t: TriageResult, question: string)
    ensures ShouldRunEnricher(t, question) <==>
            t.trail == Legislacao ||
            exists i :: 0 <= i < |ENRICHER_TERMS| && Contains(ToLower(question), ENRICHER_TERMS[i])
  {
    var q := ToLower(question);
    if ShouldRunEnricher(t, question) && t.trail != Legislacao {
      if Contains(q, "cgibs") { assert ENRICHER_TERMS[0] == "cgibs"; }
      else if Contains(q, "pré-cgibs") { assert ENRICHER_TERMS[1] == "pré-cgibs"; }
      else if Contains(q, "pre-cgibs") { assert ENRICHER_TERMS[2] == "pre-cgibs"; }
      else if Contains(q, "ibs") { assert ENRICHER_TERMS[3] == "ibs"; }
      else if Contains(q, "cbs") { assert ENRICHER_TERMS[4] == "cbs"; }
      else if Contains(q, "impactos administrativos") { assert ENRICHER_TERMS[5] == "impactos administrativos"; }
      else { assert ENRICHER_TERMS[6] == "reforma tribut"; }
    }
  }

  /** The three CGIBS terms are redundant: each contains "ibs", so four
      substrings decide. */
  lemma EnricherNeedsOnlyFourTerms(t: TriageResult, question: string)
    ensures ShouldRunEnricher(t, question) <==>
            t.trail == Legislacao || Contains(ToLower(question), "ibs") || Contains(ToLower(question), "cbs")
            || Contains(ToLower(question), "impactos administrativos") || Contains(ToLower(question), "reforma tribut")
  {
    CgibsTermsContainIbs(ToLower(question));
  }

  /** Each CGIBS spelling contains "ibs". */
  lemma CgibsTermsContainIbs(q: string)
    ensures Contains(q, "cgibs") || Contains(q, "pré-cgibs") || Contains(q, "pre-cgibs") ==> Contains(q, "ibs")
  {
    if Contains(q, "cgibs") {
      ContainsPiece(q, "cgibs", 2, 5);
      assert "cgibs"[2..5] == "ibs";
    }
    if Contains(q, "pré-cgibs") {
      ContainsPiece(q, "pré-cgibs", 6, 9);
      assert "pré-cgibs"[6..9] == "ibs";
    }
    if Contains(q, "pre-cgibs") {
      ContainsPiece(q, "pre-cgibs", 6, 9);
      assert "pre-cgibs"[6..9] == "ibs";
    }
  }

  /** The non-blank strings of a list, in order. A `None` entry stands for a
      value that is not a string at run time. */
  function NonBlankStrings(values: seq<Option<string>>): (r: seq<string>)
    ensures forall x :: x in r <==> Some(x) in values && !IsBlank(x)
  {
    if |values| == 0 then []
    else
      var rest := NonBlankStrings(values[1..]);
      assert forall v :: v in values <==> v == values[0] || v in values[1..];
      match values[0]
      case Some(s) => if !IsBlank(s) then [s] + rest else rest
      case None => rest
  }

  /** Keeping the non-blank strings of a concatenation keeps those of each
      part. */
  lemma {:induction false} NonBlankStringsAppend(a: seq<Option<string>>, b: seq<Option<string>>)
    ensures NonBlankStrings(a + b) == NonBlankStrings(a) + NonBlankStrings(b)
    decreases |a|
  {
    if |a| == 0 {
      assert a + b == b;
    } else {
      assert (a + b)[0] == a[0];
      assert (a + b)[1..] == a[1..] + b;
      NonBlankStringsAppend(a[1..], b);
    }
  }

  /** `dedupeStrings`. */
  function DedupeStrings(values: seq<Option<string>>): (r: seq<string>)
    ensures NoDup(r)
    ensures forall x :: x in r <==> Some(x) in values && !IsBlank(x)
    ensures OrderedIn(r, NonBlankStrings(values))
  {
    DedupOrderedIn(NonBlankStrings(values));
    Dedup(NonBlankStrings(values))
  }

  function Lift(xs: seq<string>): (r: seq<Option<string>>)
    ensures |r| == |xs| && forall i :: 0 <= i < |xs| ==> r[i] == Some(xs[i])
  {
    seq(|xs|, i requires 0 <= i < |xs| => Some(xs[i]))
  }

  /** One store's block in the coordinator's context. */
  function Section(storeId: string, texts: seq<string>): (r: string)
    ensures |r| >= 3
  {
    "## " + storeId + "\n" + Join(texts, "\n\n")
  }

  predicate HasResults(entry: (string, seq<string>)) {
    |entry.1| > 0
  }

  /** The separator between two stores' blocks. */
  const CONTEXT_RULE := "\n\n---\n\n"

  /** The blocks of the stores with non-empty results, in map order. */
  function ContextParts(byStore: OMap<string, seq<string>>): (parts: seq<string>)
    ensures |parts| <= |byStore|
    ensures forall i :: 0 <= i < |byStore| && HasResults(byStore[i]) ==>
              Section(byStore[i].0, byStore[i].1) in parts
    ensures forall p :: p in parts ==>
              exists i :: 0 <= i < |byStore| && HasResults(byStore[i]) && p == Section(byStore[i].0, byStore[i].1)
  {
    if |byStore| == 0 then []
    else
      var rest := ContextParts(byStore[1..]);
      assert forall i :: 1 <= i < |byStore| ==> byStore[i] == byStore[1..][i - 1];
      var parts := if HasResults(byStore[0]) then [Section(byStore[0].0, byStore[0].1)] + rest else rest;
      assert forall p :: p in parts ==>
               exists i :: 0 <= i < |byStore| && HasResults(byStore[i]) && p == Section(byStore[i].0, byStore[i].1) by {
        forall p | p in parts
          ensures exists i :: 0 <= i < |byStore| && HasResults(byStore[i]) && p == Section(byStore[i].0, byStore[i].1)
        {
          if p in rest {
            var i :| 0 <= i < |byStore[1..]| && HasResults(byStore[1..][i]) && p == Section(byStore[1..][i].0, byStore[1..][i].1);
            assert byStore[i + 1] == byStore[1..][i];
          }
        }
      }
      parts
  }

  /** The blocks come in map order, one per store with results: the blocks
      of a concatenation are the blocks of its halves, and a single store
      gives its block exactly when it has results. */
  lemma ContextPartsInMapOrder(a: OMap<string, seq<string>>, b: OMap<string, seq<string>>)
    ensures ContextParts(a + b) == ContextParts(a) + ContextParts(b)
    ensures |a| == 1 ==> ContextParts(a) == (if HasResults(a[0]) then [Section(a[0].0, a[0].1)] else [])
  {
    ContextPartsAppend(a, b);
    if |a| == 1 {
      ContextPartsSingle(a);
    }
  }

  /** The first entry's block, if any, followed by the rest's blocks. */
  lemma ContextPartsCons(m: OMap<string, seq<string>>)
    requires |m| > 0
    ensures ContextParts(m) ==
            (if HasResults(m[0]) then [Section(m[0].0, m[0].1)] else []) + ContextParts(m[1..])
  {
  }

  lemma {:induction false} ContextPartsAppend(a: OMap<string, seq<string>>, b: OMap<string, seq<string>>)
    ensures ContextParts(a + b) == ContextParts(a) + ContextParts(b)
    decreases |a|
  {
    if |a| == 0 {
      assert a + b == b;
    } else {
      var ab := a + b;
      var rest := a[1..];
      assert ab[0] == a[0];
      assert ab[1..] == rest + b;
      ContextPartsCons(ab);
      ContextPartsCons(a);
      ContextPartsAppend(rest, b);
      SeqAssoc(if HasResults(a[0]) then [Section(a[0].0, a[0].1)] else [], ContextParts(rest), ContextParts(b));
    }
  }

  lemma SeqAssoc(x: seq<string>, y: seq<string>, z: seq<string>)
    ensures x + (y + z) == (x + y) + z
  {
  }

  lemma ContextPartsSingle(a: OMap<string, seq<string>>)
    requires |a| == 1
    ensures ContextParts(a) == (if HasResults(a[0]) then [Section(a[0].0, a[0].1)] else [])
  {
    ContextPartsCons(a);
    assert |a[1..]| == 0;
    assert ContextParts(a[1..]) == [];
  }

  /** The pre-retrieved context: the blocks joined by a rule, or none when no
      store returned anything. */
  function PreRetrievedContext(byStore: OMap<string, seq<string>>): (r: Option<string>)
    ensures r.None? <==> forall i :: 0 <= i < |byStore| ==> !HasResults(byStore[i])
    ensures r.Some? ==> forall i :: 0 <= i < |byStore| && HasResults(byStore[i]) ==>
                          Contains(r.value, Section(byStore[i].0, byStore[i].1))
    ensures r.Some? ==> r.value == Join(ContextParts(byStore), CONTEXT_RULE)
  {
    var parts := ContextParts(byStore);
    var joined := if |parts| > 0 then Join(parts, CONTEXT_RULE) else "";
    assert |parts| > 0 ==> joined != "" && forall i :: 0 <= i < |byStore| && HasResults(byStore[i]) ==>
                             Contains(joined, Section(byStore[i].0, byStore[i].1)) by {
      if |parts| > 0 {
        JoinStartsWithFirst(parts, CONTEXT_RULE);
        assert parts[0] in parts;
        forall i | 0 <= i < |byStore| && HasResults(byStore[i])
          ensures Contains(joined, Section(byStore[i].0, byStore[i].1))
        {
          var k :| 0 <= k < |parts| && parts[k] == Section(byStore[i].0, byStore[i].1);
          JoinContainsEach(parts, CONTEXT_RULE, k);
        }
      }
    }
    assert |parts| > 0 ==> exists i :: 0 <= i < |byStore| && HasResults(byStore[i]) by {
      if |parts| > 0 { assert parts[0] in parts; }
    }
    if joined == "" then None else Some(joined)
  }

  const SUGGESTED_PREFIX := "Especialistas sugeridos (trilha "

  /** The plan line naming the suggested specialists. */
  function SpecialistLine(trail: Trail, names: seq<string>): (line: string)
    ensures StartsWith(line, SUGGESTED_PREFIX)
  {
    var joined := Join(names, ", ");
    SUGGESTED_PREFIX + TrailName(trail) + "): " + (if joined == "" then "nenhum" else joined) + "."
  }

  /** The coordinator's plan followed by the specialist line. */
  function BuildPlan(coordinatorPlan: Option<seq<string>>, trail: Trail, names: seq<string>): (plan: seq<string>)
    ensures |plan| == |coordinatorPlan.GetOr([])| + 1
    ensures plan[..|plan| - 1] == coordinatorPlan.GetOr([])
    ensures StartsWith(plan[|plan| - 1], SUGGESTED_PREFIX)
  {
    coordinatorPlan.GetOr([]) + [SpecialistLine(trail, names)]
  }

  /** When the coordinator's own plan has no specialist line, the plan has
      exactly one, and it is last. */
  lemma PlanHasOneSpecialistLine(coordinatorPlan: Option<seq<string>>, trail: Trail, names: seq<string>, i: nat)
    requires forall p :: p in coordinatorPlan.GetOr([]) ==> !StartsWith(p, SUGGESTED_PREFIX)
    requires i < |BuildPlan(coordinatorPlan, trail, names)|
    ensures StartsWith(BuildPlan(coordinatorPlan, trail, names)[i], SUGGESTED_PREFIX) <==>
            i == |BuildPlan(coordinatorPlan, trail, names)| - 1
  {
    var plan := BuildPlan(coordinatorPlan, trail, names);
    if i < |plan| - 1 {
      assert plan[i] == plan[..|plan| - 1][i];
    }
  }

  /** The coordinator's sources, the specialists' names and the two
      workflow documents. */
  function BuildSources(coordinatorSources: Option<seq<string>>, names: seq<string>): (r: seq<string>)
    ensures |r| == |coordinatorSources.GetOr([])| + |names| + 2
    ensures r[..|coordinatorSources.GetOr([])|] == coordinatorSources.GetOr([])
    ensures r[|coordinatorSources.GetOr([])|..|r| - 2] == names
    ensures r[|r| - 2..] == ["docs/AGENTS.md", "docs/WORKFLOWS.md"]
  {
    coordinatorSources.GetOr([]) + names + ["docs/AGENTS.md", "docs/WORKFLOWS.md"]
  }

  /** What the enricher returns; either part may be missing. */
  datatype EnricherReply = EnricherReply(answer: Option<string>, sources: Option<seq<Option<string>>>)

  /** The answer and sources after the optional enrichment: a non-blank
      enriched answer replaces the draft and merges the sources; otherwise
      both are kept. */
  function FinalizeAnswer(draft: string, sources: seq<string>, enriched: Option<EnricherReply>)
    : (out: (string, seq<string>))
    ensures !(enriched.Some? && enriched.value.answer.Some? && !IsBlank(enriched.value.answer.value)) ==>
              out == (draft, sources)
    ensures enriched.Some? && enriched.value.answer.Some? && !IsBlank(enriched.value.answer.value) ==>
              out.0 == enriched.value.answer.value && NoDup(out.1) &&
              forall x :: x in out.1 <==>
                (x in sources || Some(x) in enriched.value.sources.GetOr([])) && !IsBlank(x)
    ensures enriched.Some? && enriched.value.answer.Some? && !IsBlank(enriched.value.answer.value) ==>
              var kept := DedupeStrings(Lift(sources));
              |kept| <= |out.1| && out.1[..|kept|] == kept &&
              (forall x :: x in out.1[|kept|..] ==> x !in sources) &&
              OrderedIn(out.1[|kept|..], NonBlankStrings(enriched.value.sources.GetOr([])))
  {
    if enriched.Some? && enriched.value.answer.Some? && !IsBlank(enriched.value.answer.value) then
      var values := Lift(sources) + enriched.value.sources.GetOr([]);
      assert forall x :: Some(x) in values <==> x in sources || Some(x) in enriched.value.sources.GetOr([]) by {
        forall x ensures Some(x) in values <==> x in sources || Some(x) in enriched.value.sources.GetOr([]) {
          if x in sources {
            var i :| 0 <= i < |sources| && sources[i] == x;
            assert values[i] == Some(x);
          }
        }
      }
      MergedSourcesOrder(sources, enriched.value.sources.GetOr([]));
      (enriched.value.answer.value, DedupeStrings(values))
    else (draft, sources)
  }

  /** Merging keeps the draft's sources first, as deduplicated alone, then
      the enricher's new ones in the order they first appear. */
  lemma MergedSourcesOrder(sources: seq<string>, extra: seq<Option<string>>)
    ensures var kept := DedupeStrings(Lift(sources));
            var merged := DedupeStrings(Lift(sources) + extra);
            |kept| <= |merged| && merged[..|kept|] == kept &&
            (forall x :: x in merged[|kept|..] ==> x !in sources) &&
            OrderedIn(merged[|kept|..], NonBlankStrings(extra))
  {
    var xs := NonBlankStrings(Lift(sources));
    var ys := NonBlankStrings(extra);
    NonBlankStringsAppend(Lift(sources), extra);
    DedupAppend(xs, ys);
    forall x | x in sources && !IsBlank(x) ensures x in xs {
      var i :| 0 <= i < |sources| && sources[i] == x;
      assert Lift(sources)[i] == Some(x);
    }
  }

  /** An agent trace the coordinator may attach to its reply. */
  datatype AgentTraceExample = AgentTraceExample(agent: string, calledTools: seq<string>, sample: string, note: Option<string>)

  /** The coordinator's reply. */
  datatype CoordinatorResponse = CoordinatorResponse(answer: string, plan: Option<seq<string>>, sources: Option<seq<string>>,
                                                     agentTraces: Option<seq<AgentTraceExample>>)

  /** The workflow's reply: the coordinator's, with answer, plan and sources
      replaced. */
  datatype QueryResponse = QueryResponse(answer: string, plan: seq<string>, sources: seq<string>,
                                         agentTraces: Option<seq<AgentTraceExample>>)

  /** The registry names of the chosen specialists, in catalog order. */
  function SpecialistNames(triage: TriageResult, nameOf: AgentId -> string): (names: seq<string>)
    ensures |names| == |PickSpecialists(triage)|
    ensures forall i :: 0 <= i < |names| ==> names[i] == nameOf(PickSpecialists(triage)[i])
  {
    var specialists := PickSpecialists(triage);
    seq(|specialists|, i requires 0 <= i < |specialists| => nameOf(specialists[i]))
  }

  /** The response assembly of `runUserQueryWorkflow`, after triage,
      planning and retrieval: `nameOf` is the agent registry's name lookup
      and `enricherReply` what the enricher would answer. */
  function AssembleResponse(question: string, triage: TriageResult, coordinator: CoordinatorResponse,
                            nameOf: AgentId -> string, enricherReply: EnricherReply): (r: QueryResponse)
    ensures r.plan == BuildPlan(coordinator.plan, triage.trail, SpecialistNames(triage, nameOf))
    ensures (r.answer, r.sources) ==
            FinalizeAnswer(coordinator.answer, BuildSources(coordinator.sources, SpecialistNames(triage, nameOf)),
                           if ShouldRunEnricher(triage, question) then Some(enricherReply) else None)
    ensures r.agentTraces == coordinator.agentTraces
    ensures |r.plan| == |coordinator.plan.GetOr([])| + 1
    ensures !ShouldRunEnricher(triage, question) ==> r.answer == coordinator.answer
    ensures r.answer == coordinator.answer || (ShouldRunEnricher(triage, question) && Some(r.answer) == enricherReply.answer)
  {
    var names := SpecialistNames(triage, nameOf);
    var plan := BuildPlan(coordinator.plan, triage.trail, names);
    var sources := BuildSources(coordinator.sources, names);
    var enriched := if ShouldRunEnricher(triage, question) then Some(enricherReply) else None;
    var (answer, finalSources) := FinalizeAnswer(coordinator.answer, sources, enriched);
    QueryResponse(answer, plan, finalSources, coordinator.agentTraces)
  }

  /** A `/query` request: the question, with optional free-text context
      and string metadata. */
  datatype QueryRequest = QueryRequest(question: string, context: Option<string>, metadata: Option<map<string, string>>)

  /** What the coordinator receives: the request's own fields, then the
      pre-retrieved context, the triage result and the queried stores. */
  datatype CoordinatorInput = CoordinatorInput(question: string, context: Option<string>,
                                               metadata: Option<map<string, string>>,
                                               preRetrievedContext: Option<string>, triageResult: TriageResult,
                                               storesQueried: seq<string>)

  /** The coordinator agent: from its input, its reply. */
  type Coordinator = CoordinatorInput -> CoordinatorResponse

  /** `runUserQueryWorkflow`: triage, plan, retrieve, ask the coordinator,
      assemble. The agents, the search and the clock are oracles. */
  method RunUserQueryWorkflow(input: QueryRequest, catalog: VectorStores.Catalog,
                              search: Retrieval.Search, now: Retrieval.Clock,
                              coordinator: Coordinator, nameOf: AgentId -> string,
                              enricherReply: EnricherReply)
    returns (r: QueryResponse, retrieval: Retrieval.RetrievalResult)
    ensures retrieval.storesQueried ==
            Retrieval.Selected(catalog, SourcePlanner.PlanStores(ClassifyQuestion(input.question), catalog),
                               SourcePlanner.MAX_STORES_PER_QUERY)
    ensures (retrieval.byStore, retrieval.errors) ==
            Retrieval.Record(retrieval.storesQueried, input.question, search,
                             Retrieval.Cutoff(now, |retrieval.storesQueried|, Retrieval.TimeoutOf(None)))
    ensures r == AssembleResponse(input.question, ClassifyQuestion(input.question),
                                  coordinator(CoordinatorInput(input.question, input.context, input.metadata,
                                                               PreRetrievedContext(retrieval.byStore),
                                                               ClassifyQuestion(input.question),
                                                               retrieval.storesQueried)),
                                  nameOf, enricherReply)
  {
    var triage := ClassifyQuestion(input.question);
    var storePlan := SourcePlanner.PlanStores(triage, catalog);
    var searched;
    retrieval, searched := Retrieval.RunRetrieval(input.question, storePlan, None, catalog, search, now);
    var context := PreRetrievedContext(retrieval.byStore);
    var coordinatorInput :=
      CoordinatorInput(input.question, input.context, input.metadata, context, triage, retrieval.storesQueried);
    var response := coordinator(coordinatorInput);
    r := AssembleResponse(input.question, triage, response, nameOf, enricherReply);
  }

  /** The planned stores are all registered and at most three, so retrieval
      queries exactly the plan. */
  lemma RetrievalQueriesThePlan(triage: TriageResult, catalog: VectorStores.Catalog)
    ensures Retrieval.Selected(catalog, SourcePlanner.PlanStores(triage, catalog), SourcePlanner.MAX_STORES_PER_QUERY)
            == SourcePlanner.PlanStores(triage, catalog)
  {
    var plan := SourcePlanner.PlanStores(triage, catalog);
    assert Take(plan, SourcePlanner.MAX_STORES_PER_QUERY) == plan;
    FilterAll(VectorStores.RegisteredIn(catalog), plan);
  }
}

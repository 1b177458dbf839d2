/** The deterministic source planner: from a triage result, the vector stores
    to query, at most three of them. */
module SourcePlanner {
  import opened Wrappers
  import opened Seqs
  import opened Triage
  import opened VectorStores

  const MAX_STORES_PER_QUERY: nat := 3

  /** The twelve official store ids. */
  const VALID_STORE_IDS: seq<string> := [
    "vs_specs_mercadorias", "vs_specs_transporte", "vs_specs_utilities",
    "vs_specs_plataformas", "vs_specs_declaracoes", "vs_schemas_xsd",
    "vs_legal_federal", "vs_legal_confaz", "vs_legal_estados",
    "vs_jurisprudencia", "vs_tabelas_fiscais", "vs_changelog_normativo"]

  const BROAD_DEFAULT: seq<string> := [
    "vs_specs_mercadorias", "vs_specs_transporte", "vs_schemas_xsd",
    "vs_tabelas_fiscais", "vs_legal_federal"]

  /** JavaScript truthiness of the optional `uf`: an empty string is false. */
  predicate HasUF(t: TriageResult) {
    t.uf.Some? && t.uf.value != ""
  }

  /** The candidate list pushed by the trail switch, duplicates included. */
  function Candidates(t: TriageResult): (c: seq<string>)
    ensures forall i :: 0 <= i < |c| ==> c[i] in VALID_STORE_IDS
    ensures 2 <= |c| <= 5
  {
    match t.trail
    case Calculo => ["vs_tabelas_fiscais", "vs_legal_federal", "vs_legal_estados"]
    case Legislacao =>
      ["vs_legal_federal", "vs_legal_confaz", "vs_legal_estados", "vs_jurisprudencia"]
      + (if HasUF(t) then ["vs_legal_estados"] else [])
    case Historico => ["vs_changelog_normativo", "vs_legal_federal", "vs_specs_mercadorias"]
    case _ =>
      if t.family == Some(Mercadorias) || t.docType == Some(Nfe) || t.docType == Some(Nfce) then
        ["vs_specs_mercadorias", "vs_schemas_xsd", "vs_tabelas_fiscais"]
      else if t.family == Some(Transporte) || t.docType == Some(Cte) || t.docType == Some(Mdfe)
              || t.docType == Some(Bpe) then
        ["vs_specs_transporte", "vs_schemas_xsd", "vs_tabelas_fiscais", "vs_legal_confaz"]
      else if t.family == Some(Utilities) then ["vs_specs_utilities", "vs_schemas_xsd"]
      else if t.family == Some(Declaracoes) then ["vs_specs_declaracoes", "vs_schemas_xsd"]
      else if t.family == Some(Plataformas) then ["vs_specs_plataformas", "vs_schemas_xsd"]
      else BROAD_DEFAULT
  }

  /** The pipeline of `planStores` over any candidate list: dedup keeping
      first occurrences, keep the registered ids, cut to three. */
  function PlanFrom(c: seq<string>, catalog: Catalog): (r: seq<string>)
    ensures |r| <= MAX_STORES_PER_QUERY
    ensures NoDup(r)
    ensures forall id :: id in r ==> id in c && IsRegistered(catalog, id)
    ensures OrderedIn(r, c)
    ensures forall id :: id in c && IsRegistered(catalog, id) && id !in r ==>
              |r| == MAX_STORES_PER_QUERY &&
              forall x :: x in r ==> IndexOf(c, x) < IndexOf(c, id)
  {
    var valid := RegisteredIn(catalog);
    var d := Dedup(c);
    var f := Filter(valid, d);
    var r := Take(f, MAX_STORES_PER_QUERY);
    DedupOrderedIn(c);
    FilterOrderedIn(valid, d, c);
    FilterNoDup(valid, d);
    TakeOrderedIn(f, MAX_STORES_PER_QUERY, c);
    assert forall id :: id in c && IsRegistered(catalog, id) && id !in r ==>
             |r| == MAX_STORES_PER_QUERY &&
             forall x :: x in r ==> IndexOf(c, x) < IndexOf(c, id) by {
      forall id | id in c && IsRegistered(catalog, id) && id !in r
        ensures |r| == MAX_STORES_PER_QUERY
        ensures forall x :: x in r ==> IndexOf(c, x) < IndexOf(c, id)
      {
        assert id in f;
        TakeKeepsEarliest(f, MAX_STORES_PER_QUERY, c, id);
      }
    }
    r
  }

  /** `planStores` over the loaded catalog. */
  function PlanStores(t: TriageResult, catalog: Catalog): (r: seq<string>)
    ensures |r| <= MAX_STORES_PER_QUERY
    ensures NoDup(r)
    ensures forall id :: id in r ==> id in Candidates(t) && IsRegistered(catalog, id)
    ensures OrderedIn(r, Candidates(t))
    ensures forall id :: id in Candidates(t) && IsRegistered(catalog, id) && id !in r ==>
              |r| == MAX_STORES_PER_QUERY &&
              forall x :: x in r ==> IndexOf(Candidates(t), x) < IndexOf(Candidates(t), id)
  {
    PlanFrom(Candidates(t), catalog)
  }

  /** `planStores` with the catalog behind the cache: every candidate is
      checked with `isValidVectorStoreId`, which loads the catalog and
      rethrows a load failure. */
  function PlanStoresLoading(t: TriageResult, file: CatalogFile, cache: Cache)
    : (out: (Result<seq<string>>, Cache))
    ensures out.0.Err? <==> LoadCatalog(file, cache).0.Err?
    ensures out.0.Ok? ==> out.0.value == PlanStores(t, LoadCatalog(file, cache).0.value)
    ensures out.1 == LoadCatalog(file, cache).1
  {
    var (loaded, c) := LoadCatalog(file, cache);
    match loaded
    case Ok(catalog) => (Ok(PlanStores(t, catalog)), c)
    case Err(e) => (Err(e), c)
  }

  /** `isValidPlannedStoreId`. */
  predicate IsValidPlannedStoreId(id: string) {
    id in VALID_STORE_IDS
  }

  /** Every planned id is one of the twelve official ids. */
  lemma PlannedIdsAreOfficial(t: TriageResult, catalog: Catalog)
    ensures forall id :: id in PlanStores(t, catalog) ==> IsValidPlannedStoreId(id)
  {
    var c := Candidates(t);
    forall id | id in PlanStores(t, catalog) ensures IsValidPlannedStoreId(id) {
      var i :| 0 <= i < |c| && c[i] == id;
    }
  }

  /** For the Calculo trail the tariff-table store leads the plan whenever it
      is registered. */
  lemma CalculoPlansTabelasFirst(t: TriageResult, catalog: Catalog)
    requires t.trail == Calculo && IsRegistered(catalog, "vs_tabelas_fiscais")
    ensures |PlanStores(t, catalog)| > 0 && PlanStores(t, catalog)[0] == "vs_tabelas_fiscais"
  {
    var c := Candidates(t);
    assert c[0] == "vs_tabelas_fiscais";
    assert IndexOf(c, "vs_tabelas_fiscais") == 0;
  }

  /** For the Legislacao trail the extra state-legislation push made when a
      state is known changes nothing: deduplication keeps its first
      occurrence. */
  lemma LegislacaoIgnoresUF(t: TriageResult, catalog: Catalog)
    requires t.trail == Legislacao
    ensures PlanStores(t, catalog) == PlanStores(t.(uf := None), catalog)
  {
    if HasUF(t) {
      var c0 := Candidates(t.(uf := None));
      assert c0[2] == "vs_legal_estados";
      assert Candidates(t) == c0 + ["vs_legal_estados"];
      DedupAppendPresent(c0, "vs_legal_estados");
    }
  }

  /** The catalog registers all twelve official ids. */
  predicate RegistersAll(catalog: Catalog) {
    forall i :: 0 <= i < |VALID_STORE_IDS| ==> IsRegistered(catalog, VALID_STORE_IDS[i])
  }

  /** Against a full catalog the registry filter removes nothing: the plan is
      the first three distinct candidates. */
  lemma FullCatalogPlan(t: TriageResult, catalog: Catalog)
    requires RegistersAll(catalog)
    ensures PlanStores(t, catalog) == Take(Dedup(Candidates(t)), MAX_STORES_PER_QUERY)
  {
    var d := Dedup(Candidates(t));
    var valid := RegisteredIn(catalog);
    forall x | x in d ensures valid(x) {
      var i :| 0 <= i < |VALID_STORE_IDS| && VALID_STORE_IDS[i] == x;
    }
    FilterAll(valid, d);
  }

  /** The transport branch has four candidates; with every id registered the
      cap cuts the fourth, the CONFAZ legislation store. */
  lemma TransportCapDropsConfaz(t: TriageResult, catalog: Catalog)
    requires t.trail !in {Calculo, Legislacao, Historico}
    requires t.family != Some(Mercadorias) && t.docType != Some(Nfe) && t.docType != Some(Nfce)
    requires t.family == Some(Transporte) || t.docType in {Some(Cte), Some(Mdfe), Some(Bpe)}
    requires RegistersAll(catalog)
    ensures PlanStores(t, catalog) == ["vs_specs_transporte", "vs_schemas_xsd", "vs_tabelas_fiscais"]
    ensures "vs_legal_confaz" in Candidates(t) && "vs_legal_confaz" !in PlanStores(t, catalog)
  {
    var c := Candidates(t);
    assert c == ["vs_specs_transporte", "vs_schemas_xsd", "vs_tabelas_fiscais", "vs_legal_confaz"];
    DedupOfNoDup(c);
    FullCatalogPlan(t, catalog);
    assert c[3] == "vs_legal_confaz";
  }

  /** With neither family nor document type on a specification trail the plan
      is drawn from the five broad default stores, and against a full
      catalog it is their first three. */
  lemma BroadDefaultPlan(t: TriageResult, catalog: Catalog)
    requires t.trail !in {Calculo, Legislacao, Historico}
    requires t.family.None? && t.docType.None?
    ensures forall id :: id in PlanStores(t, catalog) ==> id in BROAD_DEFAULT
    ensures RegistersAll(catalog) ==>
              PlanStores(t, catalog) == ["vs_specs_mercadorias", "vs_specs_transporte", "vs_schemas_xsd"]
  {
    var c := Candidates(t);
    assert c == BROAD_DEFAULT;
    if RegistersAll(catalog) {
      DedupOfNoDup(c);
      FullCatalogPlan(t, catalog);
    }
  }

  /** Against a full catalog the Legislacao plan is the federal, CONFAZ and
      state legislation stores, in that order. */
  lemma LegislacaoFullPlan(t: TriageResult, catalog: Catalog)
    requires t.trail == Legislacao && RegistersAll(catalog)
    ensures PlanStores(t, catalog) == ["vs_legal_federal", "vs_legal_confaz", "vs_legal_estados"]
  {
    var t0 := t.(uf := None);
    var c := Candidates(t0);
    assert c == ["vs_legal_federal", "vs_legal_confaz", "vs_legal_estados", "vs_jurisprudencia"];
    DedupOfNoDup(c);
    FullCatalogPlan(t0, catalog);
    LegislacaoIgnoresUF(t, catalog);
  }

  /** Every official id carries the `vs_` prefix. */
  lemma OfficialIdsArePrefixed(id: string)
    requires IsValidPlannedStoreId(id)
    ensures |id| >= 3 && id[..3] == "vs_"
  {
  }
}

/** The maintenance agent's document classifier: a heuristic score per
    catalogued vector store from the document's title and portal type, the
    best-scoring store (earliest on ties), the rule-based fallback, and the
    tags. */
module Classifier {
  import opened Wrappers
  import opened Text
  import opened AgentTypes
  import opened VectorStores

  const NORMAS := "normas-tecnicas-nfe-nfce-cte"
  const ESTADUAIS := "documentos-estaduais-ibc-cbs"
  const NACIONAL := "legislacao-nacional-ibs-cbs-is"

  const MSG_ESTADUAL := "Portal estadual prioriza store de documentos estaduais."
  const MSG_NFE := "Título menciona NF-e, priorizando stores especializados."
  const MSG_NFCE := "Título cita NFC-e; armazenar em normas técnicas."
  const MSG_AJUSTE := "Ajustes SINIEF vão para legislação nacional."
  const DEFAULT_RATIONALE := "Roteamento por heurísticas de título e tipo de portal."

  predicate NfeTitle(title: string) {
    Contains(title, "nf-e") || Contains(title, "nfe")
  }

  predicate NfceTitle(title: string) {
    Contains(title, "nfce") || Contains(title, "nfc-e")
  }

  predicate AjusteTitle(title: string) {
    Contains(title, "ajuste") || Contains(title, "sinief")
  }

  /** The portal type compared exactly, without lower-casing. */
  predicate EstadualPortal(doc: PortalDocument) {
    doc.portalType == Some("estadual")
  }

  /** The points of the title and portal-type rules for the store `id`. */
  function RuleScore(doc: PortalDocument, id: string): int {
    var title := ToLower(doc.title);
    (if EstadualPortal(doc) && id == ESTADUAIS then 3 else 0)
    + (if NfeTitle(title) then (if Contains(id, "nfe") then 4 else 0) + (if id == NORMAS then 2 else 0) else 0)
    + (if NfceTitle(title) && id == NORMAS then 4 else 0)
    + (if AjusteTitle(title) && id == NACIONAL then 3 else 0)
  }

  /** `document.portalType || ""`. */
  function PortalTypeOrEmpty(doc: PortalDocument): string {
    if doc.portalType.Some? then doc.portalType.value else ""
  }

  /** The store's description mentions the portal type; always true without
      a portal type, since every string includes "". */
  predicate DescribesType(doc: PortalDocument, store: VectorStoreDefinition) {
    Contains(ToLower(store.description), PortalTypeOrEmpty(doc))
  }

  function Score(doc: PortalDocument, store: VectorStoreDefinition): int {
    RuleScore(doc, store.id) + (if DescribesType(doc, store) then 1 else 0)
  }

  function Scores(doc: PortalDocument, catalog: Catalog): (s: seq<int>)
    ensures |s| == |catalog|
    ensures forall i :: 0 <= i < |catalog| ==> s[i] == Score(doc, catalog[i])
  {
    seq(|catalog|, i requires 0 <= i < |catalog| => Score(doc, catalog[i]))
  }

  function RuleScores(doc: PortalDocument, catalog: Catalog): (s: seq<int>)
    ensures |s| == |catalog|
    ensures forall i :: 0 <= i < |catalog| ==> s[i] == RuleScore(doc, catalog[i].id)
  {
    seq(|catalog|, i requires 0 <= i < |catalog| => RuleScore(doc, catalog[i].id))
  }

  /** Is `k` the first position of a maximum of `s`? This is the head of a
      stable sort by descending value. */
  predicate IsFirstMax(s: seq<int>, k: nat) {
    k < |s| && (forall j :: 0 <= j < |s| ==> s[j] <= s[k]) && (forall j :: 0 <= j < k ==> s[j] < s[k])
  }

  function FirstMax(s: seq<int>): (k: nat)
    requires |s| > 0
    ensures IsFirstMax(s, k)
    decreases |s|
  {
    if |s| == 1 then 0
    else
      var k := FirstMax(s[1..]) + 1;
      assert forall j :: 1 <= j < |s| ==> s[j] == s[1..][j - 1];
      if s[0] >= s[k] then 0 else k
  }

  /** There is only one first maximum. */
  lemma FirstMaxUnique(s: seq<int>, k: nat)
    requires |s| > 0 && IsFirstMax(s, k)
    ensures FirstMax(s) == k
  {
  }

  /** Adding the same amount to every value keeps the first maximum. */
  lemma FirstMaxShift(s: seq<int>, t: seq<int>, c: int)
    requires |s| == |t| > 0
    requires forall i :: 0 <= i < |s| ==> t[i] == s[i] + c
    ensures FirstMax(t) == FirstMax(s)
  {
    var k := FirstMax(s);
    assert IsFirstMax(t, k);
    FirstMaxUnique(t, k);
  }

  /** Without a portal type every store gets the description point, so the
      winner is the winner of the rules alone. */
  lemma AbsentTypeKeepsWinner(doc: PortalDocument, catalog: Catalog)
    requires doc.portalType.None? && |catalog| > 0
    ensures forall i :: 0 <= i < |catalog| ==> Scores(doc, catalog)[i] == RuleScores(doc, catalog)[i] + 1
    ensures FirstMax(Scores(doc, catalog)) == FirstMax(RuleScores(doc, catalog))
  {
    forall i | 0 <= i < |catalog| ensures DescribesType(doc, catalog[i]) {
      ContainsEmpty(ToLower(catalog[i].description));
    }
    FirstMaxShift(RuleScores(doc, catalog), Scores(doc, catalog), 1);
  }

  /** The rationale messages one store adds, in the order the rules run. */
  function StoreMessages(doc: PortalDocument, store: VectorStoreDefinition): seq<string> {
    var title := ToLower(doc.title);
    (if EstadualPortal(doc) && store.id == ESTADUAIS then [MSG_ESTADUAL] else [])
    + (if NfeTitle(title) && Contains(store.id, "nfe") then [MSG_NFE] else [])
    + (if NfceTitle(title) && store.id == NORMAS then [MSG_NFCE] else [])
    + (if AjusteTitle(title) && store.id == NACIONAL then [MSG_AJUSTE] else [])
  }

  /** A store whose rules leave a message earns at least three points from them. */
  lemma MessagesComeWithPoints(doc: PortalDocument, store: VectorStoreDefinition)
    ensures StoreMessages(doc, store) != [] ==> RuleScore(doc, store.id) >= 3
  {
  }

  /** Messages of all stores in catalog order. */
  function Messages(doc: PortalDocument, catalog: Catalog): (m: seq<string>)
    decreases |catalog|
  {
    if |catalog| == 0 then [] else StoreMessages(doc, catalog[0]) + Messages(doc, catalog[1..])
  }

  lemma {:induction false} MessagesIff(doc: PortalDocument, catalog: Catalog, m: string)
    ensures m in Messages(doc, catalog) <==> exists i :: 0 <= i < |catalog| && m in StoreMessages(doc, catalog[i])
    decreases |catalog|
  {
    if |catalog| > 0 {
      MessagesIff(doc, catalog[1..], m);
      if exists i :: 0 <= i < |catalog| && m in StoreMessages(doc, catalog[i]) {
        var i :| 0 <= i < |catalog| && m in StoreMessages(doc, catalog[i]);
        if i > 0 {
          assert catalog[i] == catalog[1..][i - 1];
        }
      }
      if m in Messages(doc, catalog[1..]) {
        var i :| 0 <= i < |catalog[1..]| && m in StoreMessages(doc, catalog[1..][i]);
        assert catalog[1..][i] == catalog[i + 1];
      }
    }
  }

  /** `rationale.length ? rationale.join(" ") : "Roteamento …"`. */
  function Rationale(doc: PortalDocument, catalog: Catalog): string {
    var m := Messages(doc, catalog);
    if |m| > 0 then Join(m, " ") else DEFAULT_RATIONALE
  }

  /** The rationale names every rule that fired on any store, and falls back
      to the default sentence exactly when none did. */
  lemma RationaleNamesFiredRules(doc: PortalDocument, catalog: Catalog, i: nat, m: string)
    requires i < |catalog| && m in StoreMessages(doc, catalog[i])
    ensures Contains(Rationale(doc, catalog), m)
  {
    MessagesIff(doc, catalog, m);
    var ms := Messages(doc, catalog);
    var k :| 0 <= k < |ms| && ms[k] == m;
    JoinContainsEach(ms, " ", k);
  }

  lemma RationaleDefaultWhenSilent(doc: PortalDocument, catalog: Catalog)
    ensures (forall i :: 0 <= i < |catalog| ==> StoreMessages(doc, catalog[i]) == []) ==>
            Rationale(doc, catalog) == DEFAULT_RATIONALE
  {
    var ms := Messages(doc, catalog);
    if ms != [] {
      MessagesIff(doc, catalog, ms[0]);
    }
  }

  /** `findVectorStore`: the store with the wanted id when there is one,
      else the first store, and nothing for an empty catalog. */
  function FindVectorStore(catalog: Catalog, fallbackId: string): (r: Option<string>)
    ensures r.Some? <==> |catalog| > 0
    ensures IsRegistered(catalog, fallbackId) ==> r == Some(fallbackId)
    ensures !IsRegistered(catalog, fallbackId) && |catalog| > 0 ==> r == Some(catalog[0].id)
  {
    match FindById(catalog, fallbackId)
    case Some(store) => Some(store.id)
    case None => if |catalog| > 0 then Some(catalog[0].id) else None
  }

  /** The store `chooseVectorStore` asks for: technical notes and FAQs, then
      state portals (portal type compared lower-cased), then national law. */
  function ChooseTarget(doc: PortalDocument): string {
    var title := ToLower(doc.title);
    if Contains(title, "nota tecnica") || Contains(title, "faq") then NORMAS
    else if doc.portalType.Some? && ToLower(doc.portalType.value) == "estadual" then ESTADUAIS
    else NACIONAL
  }

  function ChooseVectorStore(doc: PortalDocument, catalog: Catalog): (r: Option<string>)
    ensures r.Some? <==> |catalog| > 0
    ensures r.Some? ==> IsRegistered(catalog, r.value)
    ensures IsRegistered(catalog, ChooseTarget(doc)) ==> r == Some(ChooseTarget(doc))
    ensures !IsRegistered(catalog, ChooseTarget(doc)) && |catalog| > 0 ==> r == Some(catalog[0].id)
  {
    FindVectorStore(catalog, ChooseTarget(doc))
  }

  /** What `scoreVectorStores` returns. */
  datatype Scored = Scored(vectorStoreId: Option<string>, score: int, rationale: string)

  /** `scoreVectorStores`: the first store of the stable descending sort
      wins; an empty id, or an empty catalog, falls back to the rules. */
  function ScoreVectorStores(doc: PortalDocument, catalog: Catalog): (r: Scored)
    ensures |catalog| == 0 ==> r.vectorStoreId.None? && r.score == 0
    ensures |catalog| > 0 ==> r.vectorStoreId.Some? && IsRegistered(catalog, r.vectorStoreId.value)
    ensures |catalog| > 0 ==>
              exists k :: 0 <= k < |catalog| && IsFirstMax(Scores(doc, catalog), k) && r.score == Score(doc, catalog[k]) &&
                          (catalog[k].id != "" ==> r.vectorStoreId == Some(catalog[k].id)) &&
                          (catalog[k].id == "" ==> r.vectorStoreId == ChooseVectorStore(doc, catalog))
    ensures r.rationale == Rationale(doc, catalog)
  {
    if |catalog| == 0 then Scored(ChooseVectorStore(doc, catalog), 0, Rationale(doc, catalog))
    else
      var scores := Scores(doc, catalog);
      var k := FirstMax(scores);
      var best := catalog[k];
      var id := if best.id != "" then Some(best.id) else ChooseVectorStore(doc, catalog);
      assert IsRegistered(catalog, best.id) by { assert catalog[k].id == best.id; }
      Scored(id, scores[k], Rationale(doc, catalog))
  }

  /** `buildTags`: the portal id, then the portal type and the external id
      when they are present and non-empty. */
  function BuildTags(doc: PortalDocument): (tags: seq<string>)
    ensures 1 <= |tags| <= 3 && tags[0] == doc.portalId
    ensures forall t :: t in tags <==>
              t == doc.portalId || (doc.portalType == Some(t) && t != "") || (doc.externalId == Some(t) && t != "")
    ensures |tags| == 1 + (if doc.portalType.Some? && doc.portalType.value != "" then 1 else 0)
                        + (if doc.externalId.Some? && doc.externalId.value != "" then 1 else 0)
  {
    [doc.portalId]
    + (if doc.portalType.Some? && doc.portalType.value != "" then [doc.portalType.value] else [])
    + (if doc.externalId.Some? && doc.externalId.value != "" then [doc.externalId.value] else [])
  }

  /** `classifyDocument`. An empty catalog leaves the store id undefined,
      which is `None` here. */
  function ClassifyDocument(doc: PortalDocument, catalog: Catalog): (r: ClassifiedDocument)
    ensures r.vectorStoreId.None? <==> |catalog| == 0
    ensures r.vectorStoreId.Some? ==> IsRegistered(catalog, r.vectorStoreId.value)
    ensures r.tags == BuildTags(doc) && r.rationale == Some(Rationale(doc, catalog))
    ensures r.score.Some? && forall j :: 0 <= j < |catalog| ==> Score(doc, catalog[j]) <= r.score.value
    ensures |catalog| == 0 ==> r.score == Some(0)
    ensures |catalog| > 0 ==>
              exists k :: 0 <= k < |catalog| && IsFirstMax(Scores(doc, catalog), k) && r.score == Some(Score(doc, catalog[k])) &&
                          (catalog[k].id != "" ==> r.vectorStoreId == Some(catalog[k].id)) &&
                          (catalog[k].id == "" ==> r.vectorStoreId == ChooseVectorStore(doc, catalog))
  {
    var s := ScoreVectorStores(doc, catalog);
    ClassifiedDocument(s.vectorStoreId, BuildTags(doc), Some(s.rationale), Some(s.score))
  }
}

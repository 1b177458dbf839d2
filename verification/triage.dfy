/** Deterministic question triage (src/workflows/triage.ts): an ordered
    cascade of pattern rules picks the trail, a second, independent cascade
    picks family and document type, and a whole-word match looks for a
    state code. */
module Triage {
  import opened Wrappers
  import opened Text
  import opened Pattern

  datatype Trail = Calculo | Legislacao | Documento | Integracao | Validacao | Evento | Historico | Operacao
  datatype Family = Mercadorias | Transporte | Utilities | Declaracoes | Plataformas
  datatype DocType = Nfe | Nfce | Cte | Mdfe | Bpe | Nf3e | Nfcom | Dce

  /** The classifier's output; `None` stands for a key left off the object. */
  datatype TriageResult = TriageResult(trail: Trail, family: Option<Family>, docType: Option<DocType>, uf: Option<string>)

  datatype FamilyAndDocType = FamilyAndDocType(family: Option<Family>, docType: Option<DocType>)

  function TrailName(t: Trail): string {
    match t
    case Calculo => "Calculo"
    case Legislacao => "Legislacao"
    case Documento => "Documento"
    case Integracao => "Integracao"
    case Validacao => "Validacao"
    case Evento => "Evento"
    case Historico => "Historico"
    case Operacao => "Operacao"
  }

  const TRAIL_DEFAULT: Trail := Documento

  // ---- trail rules, in priority order ----

  const CALCULO_RULE: seq<Alt> := [
    [Lit("c"), In("aá"), Lit("lculo")],
    [Lit("al"), In("ií"), Lit("quota")],
    [Lit("cfop")],
    [Lit("ncm")],
    [Lit("base"), Spaces1, Lit("de"), Spaces1, Lit("c"), In("aá"), Lit("lculo")],
    [Lit("tabela"), Spaces1, Lit("fiscal")]
  ]

  const LEGISLACAO_RULE: seq<Alt> := [
    [Lit("lei")],
    [Lit("decreto")],
    [Lit("lc"), Spaces1, Dig],
    [Lit("ec"), Spaces1, Dig],
    [Lit("ibs")],
    [Lit("cbs")],
    [Lit("is"), Spaces1, Lit("imposto")],
    [Lit("reforma"), Spaces1, Lit("tribut"), In("aá"), Lit("ria")],
    [Lit("conv"), In("eê"), Lit("nio")],
    [Lit("con faz")],
    [Lit("sinief")],
    [Lit("cotepe")],
    [Lit("jurisprud"), In("eê"), Lit("ncia")],
    [Lit("parecer")],
    [Lit("art."), Spaces0, Dig]
  ]

  const DOCUMENTO_RULE: seq<Alt> := [
    [Lit("schema")],
    [Lit("xsd")],
    [Lit("xml")],
    [Lit("tag")],
    [Lit("campo"), Spaces1, Plus(Word)],
    [Lit("estrutura"), Spaces1, Lit("xml")],
    [Lit("leiaute")],
    [Lit("layout")]
  ]

  const INTEGRACAO_RULE: seq<Alt> := [
    [Lit("integra"), In("cç"), In("aã"), Lit("o")],
    [Lit("api")],
    [Lit("web"), Spaces1, Lit("service")],
    [Lit("autoriza"), In("cç"), In("aã"), Lit("o")],
    [Lit("envio")],
    [Lit("consulta"), Spaces1, Lit("recibo")]
  ]

  const VALIDACAO_RULE: seq<Alt> := [
    [Lit("valida"), In("cç"), In("aã"), Lit("o")],
    [Lit("rejei"), In("cç"), In("aã"), Lit("o")],
    [Lit("c"), In("oó"), Lit("digo"), Spaces1, Lit("de"), Spaces1, Lit("erro")],
    [Lit("validador")]
  ]

  const EVENTO_RULE: seq<Alt> := [
    [Lit("evento")],
    [Lit("carta"), Spaces1, Lit("de"), Spaces1, Lit("corre"), In("cç"), In("aã"), Lit("o")],
    [Lit("manifesta"), In("cç"), In("aã"), Lit("o")],
    [Lit("epec")],
    [Lit("cancelamento")],
    [Lit("inutiliza"), In("cç"), In("aã"), Lit("o")]
  ]

  const HISTORICO_RULE: seq<Alt> := [
    [Lit("a"), Spaces1, Lit("partir"), Spaces1, Lit("de")],
    [Lit("vig"), In("eê"), Lit("ncia")],
    [Lit("prazo")],
    [Lit("transi"), In("cç"), In("aã"), Lit("o")],
    [Lit("2026")],
    [Lit("2027")],
    [Lit("2033")],
    [Lit("timeline")]
  ]

  /** The trail cascade: the first rule that matches decides. */
  function DetectTrail(n: string): (t: Trail)
    ensures t != Operacao
  {
    if Test(n, CALCULO_RULE) then Calculo
    else if Test(n, LEGISLACAO_RULE) then Legislacao
    else if Test(n, DOCUMENTO_RULE) then Documento
    else if Test(n, INTEGRACAO_RULE) then Integracao
    else if Test(n, VALIDACAO_RULE) then Validacao
    else if Test(n, EVENTO_RULE) then Evento
    else if Test(n, HISTORICO_RULE) then Historico
    else TRAIL_DEFAULT
  }

  /** The same rules as a table, in priority order. */
  const TRAIL_RULES: seq<(seq<Alt>, Trail)> := [
    (CALCULO_RULE, Calculo),
    (LEGISLACAO_RULE, Legislacao),
    (DOCUMENTO_RULE, Documento),
    (INTEGRACAO_RULE, Integracao),
    (VALIDACAO_RULE, Validacao),
    (EVENTO_RULE, Evento),
    (HISTORICO_RULE, Historico)
  ]

  /** Reference reading of a priority cascade over a rule table: the trail of
      the lowest-indexed matching rule, or the default when none matches. */
  function FirstMatchFrom<T>(n: string, rules: seq<(seq<Alt>, T)>, i: nat, dflt: T): (t: T)
    requires i <= |rules|
    ensures (forall j :: i <= j < |rules| ==> !Test(n, rules[j].0)) ==> t == dflt
    ensures forall k :: i <= k < |rules| && Test(n, rules[k].0) && (forall j :: i <= j < k ==> !Test(n, rules[j].0)) ==> t == rules[k].1
    decreases |rules| - i
  {
    if i == |rules| then dflt
    else if Test(n, rules[i].0) then rules[i].1
    else FirstMatchFrom(n, rules, i + 1, dflt)
  }

  /** When some rule matches, the walk reports the value of a matching rule. */
  lemma {:induction false} FirstMatchIsSomeRule<T>(n: string, rules: seq<(seq<Alt>, T)>, i: nat, dflt: T, j: nat)
    requires i <= j < |rules| && Test(n, rules[j].0)
    ensures exists k :: i <= k < |rules| && Test(n, rules[k].0) && FirstMatchFrom(n, rules, i, dflt) == rules[k].1
    decreases |rules| - i
  {
    if Test(n, rules[i].0) {
      assert FirstMatchFrom(n, rules, i, dflt) == rules[i].1;
    } else {
      FirstMatchIsSomeRule(n, rules, i + 1, dflt, j);
      assert FirstMatchFrom(n, rules, i, dflt) == FirstMatchFrom(n, rules, i + 1, dflt);
    }
  }

  /** One step of the table walk. */
  lemma TrailStep(n: string, i: nat)
    requires i < |TRAIL_RULES|
    ensures FirstMatchFrom(n, TRAIL_RULES, i, TRAIL_DEFAULT)
         == if Test(n, TRAIL_RULES[i].0) then TRAIL_RULES[i].1 else FirstMatchFrom(n, TRAIL_RULES, i + 1, TRAIL_DEFAULT)
  {
  }

  /** The cascade is exactly "first matching rule of the table wins, else Documento". */
  lemma DetectTrailIsFirstMatch(n: string)
    ensures DetectTrail(n) == FirstMatchFrom(n, TRAIL_RULES, 0, TRAIL_DEFAULT)
  {
    var r := TRAIL_RULES;
    assert r[0] == (CALCULO_RULE, Calculo);
    assert r[1] == (LEGISLACAO_RULE, Legislacao);
    assert r[2] == (DOCUMENTO_RULE, Documento);
    assert r[3] == (INTEGRACAO_RULE, Integracao);
    assert r[4] == (VALIDACAO_RULE, Validacao);
    assert r[5] == (EVENTO_RULE, Evento);
    assert r[6] == (HISTORICO_RULE, Historico);
    TrailStep(n, 0);
    TrailStep(n, 1);
    TrailStep(n, 2);
    TrailStep(n, 3);
    TrailStep(n, 4);
    TrailStep(n, 5);
    TrailStep(n, 6);
    assert FirstMatchFrom(n, r, 7, TRAIL_DEFAULT) == TRAIL_DEFAULT;
  }

  /** Since "leiaute" contains "lei", the layout alternative of the schema
      rule can never be the one that decides: such a question is Calculo or
      Legislacao. */
  lemma LeiauteIsLegislacaoUnlessCalculo(n: string)
    requires Contains(n, "leiaute")
    ensures DetectTrail(n) == Calculo || DetectTrail(n) == Legislacao
  {
    ContainsPiece(n, "leiaute", 0, 3);
    assert "leiaute"[0..3] == "lei";
    LiteralTestIsContains(n, "lei");
    assert Test(n, [[Lit("lei")]]);
    TestIff(n, [[Lit("lei")]]);
    var a, i :| a in [[Lit("lei")]] && 0 <= i <= |n| && MatchAt(n, i, a);
    TestWitness(n, LEGISLACAO_RULE, [Lit("lei")], i);
  }

  // ---- family / document type rules, in priority order ----

  /** An explicit model-55 mention. */
  const NFE_MODEL_RULE: seq<Alt> := [
    [Lit("nf"), Maybe("-"), Lit("e"), Spaces1, Lit("modelo"), Spaces0, Lit("55")],
    [Lit("modelo"), Spaces0, Lit("55")],
    [Lit("nfe"), Spaces1, Lit("55")],
    [Lit("nota"), Spaces1, Lit("fiscal"), Spaces1, Lit("eletr"), In("oô"), Lit("nica"), Spaces1, Lit("55")]
  ]

  /** A bare "nfe" / "nf-e" word. */
  const NFE_TOKEN_RULE: seq<Alt> := [
    [Boundary, Lit("nfe"), Boundary],
    [Boundary, Lit("nf-e"), Boundary]
  ]

  /** A consumer-invoice mention, which vetoes the bare token. */
  const NFCE_MENTION_RULE: seq<Alt> := [
    [Lit("nfce")],
    [Lit("nf-c-e")]
  ]

  const NFCE_RULE: seq<Alt> := [
    [Lit("nfce")],
    [Lit("nf-c-e")],
    [Lit("nfc"), Maybe("-"), Lit("e")],
    [Lit("modelo"), Spaces0, Lit("65")],
    [Boundary, Lit("nf"), Spaces1, Lit("e"), Spaces1, Lit("consumidor")]
  ]

  const CTE_RULE: seq<Alt> := [
    [Lit("ct"), Maybe("-"), Lit("e")],
    [Lit("cte"), Spaces1, Lit("modelo"), Spaces0, Lit("57")],
    [Lit("conhecimento"), Spaces1, Lit("de"), Spaces1, Lit("transporte")]
  ]

  const MDFE_RULE: seq<Alt> := [
    [Lit("mdf"), Maybe("-"), Lit("e")],
    [Lit("manifesto"), Spaces1, Lit("eletr"), In("oô"), Lit("nico")]
  ]

  const BPE_RULE: seq<Alt> := [
    [Lit("bp"), Maybe("-"), Lit("e")],
    [Lit("bilhete"), Spaces1, Lit("de"), Spaces1, Lit("passagem")]
  ]

  const NF3E_RULE: seq<Alt> := [[Lit("nf3e")], [Lit("nf-3-e")]]

  const NFCOM_RULE: seq<Alt> := [[Lit("nfcom")], [Lit("nf-com")]]

  const DCE_RULE: seq<Alt> := [
    [Lit("dce")],
    [Lit("dc"), Maybe("-"), Lit("e")],
    [Lit("declara"), In("cç"), In("aã"), Lit("o")]
  ]

  const PLATAFORMAS_RULE: seq<Alt> := [[Lit("nff")], [Lit("pes")], [Lit("cff")], [Lit("one")], [Lit("difal")], [Lit("nfeab")]]

  /** The family every document type belongs to. */
  function FamilyOf(d: DocType): Family {
    match d
    case Nfe | Nfce => Mercadorias
    case Cte | Mdfe | Bpe => Transporte
    case Nf3e | Nfcom => Utilities
    case Dce => Declaracoes
  }

  predicate IsNfeQuestion(n: string) {
    Test(n, NFE_MODEL_RULE) || (Test(n, NFE_TOKEN_RULE) && !Test(n, NFCE_MENTION_RULE))
  }

  /** The family / document type cascade: first match wins, and nothing is
      reported when no rule matches (`DetectFamilyIsFirstMatch`). */
  function DetectFamilyAndDocType(n: string): (r: FamilyAndDocType)
    ensures r.docType.Some? ==> r.family == Some(FamilyOf(r.docType.value))
    ensures r.docType.None? ==> r.family.None? || r.family == Some(Plataformas)
    ensures r.family == Some(Plataformas) ==> r.docType.None?
    ensures r.docType == Some(Nfe) <==> IsNfeQuestion(n)
    ensures r.family.None? ==> !Test(n, PLATAFORMAS_RULE) && !Test(n, DCE_RULE) && !Test(n, CTE_RULE)
  {
    if IsNfeQuestion(n) then FamilyAndDocType(Some(Mercadorias), Some(Nfe))
    else if Test(n, NFCE_RULE) then FamilyAndDocType(Some(Mercadorias), Some(Nfce))
    else if Test(n, CTE_RULE) then FamilyAndDocType(Some(Transporte), Some(Cte))
    else if Test(n, MDFE_RULE) then FamilyAndDocType(Some(Transporte), Some(Mdfe))
    else if Test(n, BPE_RULE) then FamilyAndDocType(Some(Transporte), Some(Bpe))
    else if Test(n, NF3E_RULE) then FamilyAndDocType(Some(Utilities), Some(Nf3e))
    else if Test(n, NFCOM_RULE) then FamilyAndDocType(Some(Utilities), Some(Nfcom))
    else if Test(n, DCE_RULE) then FamilyAndDocType(Some(Declaracoes), Some(Dce))
    else if Test(n, PLATAFORMAS_RULE) then FamilyAndDocType(Some(Plataformas), None)
    else FamilyAndDocType(None, None)
  }

  const NFE_RESULT := FamilyAndDocType(Some(Mercadorias), Some(Nfe))

  const NO_FAMILY := FamilyAndDocType(None, None)

  /** The rules after the nfe test, as a table in priority order: each
      pattern with the fixed pair it reports. */
  const FAMILY_RULES: seq<(seq<Alt>, FamilyAndDocType)> := [
    (NFCE_RULE, FamilyAndDocType(Some(Mercadorias), Some(Nfce))),
    (CTE_RULE, FamilyAndDocType(Some(Transporte), Some(Cte))),
    (MDFE_RULE, FamilyAndDocType(Some(Transporte), Some(Mdfe))),
    (BPE_RULE, FamilyAndDocType(Some(Transporte), Some(Bpe))),
    (NF3E_RULE, FamilyAndDocType(Some(Utilities), Some(Nf3e))),
    (NFCOM_RULE, FamilyAndDocType(Some(Utilities), Some(Nfcom))),
    (DCE_RULE, FamilyAndDocType(Some(Declaracoes), Some(Dce))),
    (PLATAFORMAS_RULE, FamilyAndDocType(Some(Plataformas), None))
  ]

  lemma FamilyStep(n: string, i: nat)
    requires i < |FAMILY_RULES|
    ensures FirstMatchFrom(n, FAMILY_RULES, i, NO_FAMILY)
         == if Test(n, FAMILY_RULES[i].0) then FAMILY_RULES[i].1 else FirstMatchFrom(n, FAMILY_RULES, i + 1, NO_FAMILY)
  {
  }

  /** The cascade is "nfe first, then the first matching rule of the table,
      else nothing". */
  lemma DetectFamilyIsFirstMatch(n: string)
    ensures DetectFamilyAndDocType(n) ==
            if IsNfeQuestion(n) then NFE_RESULT else FirstMatchFrom(n, FAMILY_RULES, 0, NO_FAMILY)
  {
    var r := FAMILY_RULES;
    assert r[0].0 == NFCE_RULE && r[1].0 == CTE_RULE && r[2].0 == MDFE_RULE && r[3].0 == BPE_RULE;
    assert r[4].0 == NF3E_RULE && r[5].0 == NFCOM_RULE && r[6].0 == DCE_RULE && r[7].0 == PLATAFORMAS_RULE;
    FamilyStep(n, 0);
    FamilyStep(n, 1);
    FamilyStep(n, 2);
    FamilyStep(n, 3);
    FamilyStep(n, 4);
    FamilyStep(n, 5);
    FamilyStep(n, 6);
    FamilyStep(n, 7);
    assert FirstMatchFrom(n, r, 8, NO_FAMILY) == NO_FAMILY;
  }

  /** No family is reported exactly when neither the nfe test nor any rule
      of the table matches. */
  lemma FamilyNoneIff(n: string)
    ensures DetectFamilyAndDocType(n).family.None? <==>
            !IsNfeQuestion(n) && forall j :: 0 <= j < |FAMILY_RULES| ==> !Test(n, FAMILY_RULES[j].0)
  {
    DetectFamilyIsFirstMatch(n);
    if !IsNfeQuestion(n) && exists j :: 0 <= j < |FAMILY_RULES| && Test(n, FAMILY_RULES[j].0) {
      var j :| 0 <= j < |FAMILY_RULES| && Test(n, FAMILY_RULES[j].0);
      FirstMatchIsSomeRule(n, FAMILY_RULES, 0, NO_FAMILY, j);
      var k :| 0 <= k < |FAMILY_RULES| && FirstMatchFrom(n, FAMILY_RULES, 0, NO_FAMILY) == FAMILY_RULES[k].1;
      assert FAMILY_RULES[k].1.family.Some?;
    }
  }

  /** An explicit "modelo 55" gives nfe even when the consumer invoice is also named. */
  lemma Modelo55WinsOverNfce(n: string)
    requires Contains(n, "modelo 55")
    ensures DetectFamilyAndDocType(n).docType == Some(Nfe)
  {
    ContainsIff(n, "modelo 55");
    var k :| OccursAt(n, "modelo 55", k);
    OccursAtPiece(n, "modelo 55", k, 0, 6);
    OccursAtPiece(n, "modelo 55", k, 7, 9);
    assert "modelo 55"[0..6] == "modelo" && "modelo 55"[7..9] == "55";
    assert n[k + 6] == "modelo 55"[6] == ' ';
    var alt := [Lit("modelo"), Spaces0, Lit("55")];
    assert MatchAt(n, k + 9, alt[2..][1..]);
    assert MatchAt(n, k + 7, alt[2..]);
    assert MatchAt(n, k + 6, alt[1..]) by {
      assert MatchAt(n, k + 7, alt[1..]);
    }
    assert MatchAt(n, k, alt);
    TestWitness(n, NFE_MODEL_RULE, alt, k);
  }

  // ---- state code ----

  /** The 27 state abbreviations, upper case as the pattern spells them. */
  const UFS: seq<string> := [
    "AC", "AL", "AP", "AM", "BA", "CE", "DF", "ES", "GO", "MA", "MT", "MS", "MG", "PA",
    "PB", "PR", "PE", "PI", "RJ", "RN", "RS", "RO", "RR", "SC", "SP", "SE", "TO"
  ]

  predicate IsUF(u: string) {
    u in UFS
  }

  /** `\b(AC|AL|...)\b` as one alternative per code. */
  function WholeWord(u: string): Alt {
    [Boundary, Lit(u), Boundary]
  }

  /** Every state code is two upper-case letters. */
  lemma UFsAreTwoUpper(u: string)
    requires IsUF(u)
    ensures |u| == 2 && IsUpper(u[0]) && IsUpper(u[1])
  {
    assert forall i :: 0 <= i < |UFS| ==> |UFS[i]| == 2 && 'A' <= UFS[i][0] <= 'Z' && 'A' <= UFS[i][1] <= 'Z';
  }

  /** What a whole-word match of a code at `k` says about the text. */
  lemma WholeWordAt(s: string, k: nat, u: string)
    requires k <= |s| && MatchAt(s, k, WholeWord(u))
    ensures AtBoundary(s, k) && k + |u| <= |s| && s[k..k + |u|] == u && AtBoundary(s, k + |u|)
  {
    var p := WholeWord(u);
    assert p[1..] == [Lit(u), Boundary];
    assert MatchAt(s, k, p[1..]);
    assert [Lit(u), Boundary][1..] == [Boundary];
    assert MatchAt(s, k + |u|, [Boundary]);
  }

  lemma WholeWordIntro(s: string, k: nat, u: string)
    requires k + |u| <= |s| && AtBoundary(s, k) && s[k..k + |u|] == u && AtBoundary(s, k + |u|)
    ensures MatchAt(s, k, WholeWord(u))
  {
    var p := WholeWord(u);
    assert [Lit(u), Boundary][1..] == [Boundary];
    assert [Boundary][1..] == [];
    assert MatchAt(s, k + |u|, [Boundary]);
    assert p[1..] == [Lit(u), Boundary];
  }

  /** A state code stands as a whole word at `k`. */
  predicate UFHere(s: string, k: nat)
    requires k <= |s|
  {
    k + 2 <= |s| && AtBoundary(s, k) && AtBoundary(s, k + 2) && IsUF(s[k..k + 2])
  }

  /** Since every code has two letters, the alternation matches at `k`
      exactly when the two characters there form a code between word boundaries. */
  lemma UFHereIff(s: string, k: nat)
    requires k <= |s|
    ensures UFHere(s, k) ==> MatchAt(s, k, WholeWord(s[k..k + 2]))
    ensures !UFHere(s, k) ==> forall u :: IsUF(u) ==> !MatchAt(s, k, WholeWord(u))
  {
    if UFHere(s, k) {
      WholeWordIntro(s, k, s[k..k + 2]);
    } else {
      forall u | IsUF(u) ensures !MatchAt(s, k, WholeWord(u)) {
        UFsAreTwoUpper(u);
        if MatchAt(s, k, WholeWord(u)) {
          WholeWordAt(s, k, u);
        }
      }
    }
  }

  /** No code stands as a whole word anywhere in `[i, k)`. */
  ghost predicate NoUFBetween(s: string, i: nat, k: nat)
    requires k <= |s|
  {
    forall j, u :: i <= j < k && IsUF(u) ==> !MatchAt(s, j, WholeWord(u))
  }

  /** `u` stands as a whole word at some position from `i` on, and no code
      does so earlier. */
  ghost predicate LeftmostUFAt(s: string, i: nat, u: string) {
    exists k :: i <= k <= |s| && MatchAt(s, k, WholeWord(u)) && NoUFBetween(s, i, k)
  }

  /** The leftmost whole-word state code at position `i` or later, as
      `String.match` reports its capture group. */
  function FirstUF(s: string, i: nat): (r: Option<string>)
    requires i <= |s|
    ensures r.Some? ==> IsUF(r.value) && LeftmostUFAt(s, i, r.value)
    ensures r.None? ==> forall k, u :: i <= k <= |s| && IsUF(u) ==> !MatchAt(s, k, WholeWord(u))
    decreases |s| - i
  {
    UFHereIff(s, i);
    if UFHere(s, i) then
      assert MatchAt(s, i, WholeWord(s[i..i + 2]));
      Some(s[i..i + 2])
    else if i == |s| then None
    else
      var r := FirstUF(s, i + 1);
      assert r.Some? ==> LeftmostUFAt(s, i, r.value) by {
        if r.Some? {
          var k :| i + 1 <= k <= |s| && MatchAt(s, k, WholeWord(r.value)) && NoUFBetween(s, i + 1, k);
          assert NoUFBetween(s, i, k);
        }
      }
      r
  }

  /** The search moves past a position where two upper-case letters between
      word boundaries do not stand. */
  lemma FirstUFSkips(s: string, k: nat)
    requires k < |s|
    requires k + 2 > |s| || !AtBoundary(s, k) || !IsUpper(s[k]) || !IsUpper(s[k + 1]) || !AtBoundary(s, k + 2)
    ensures FirstUF(s, k) == FirstUF(s, k + 1)
  {
    if UFHere(s, k) {
      UFsAreTwoUpper(s[k..k + 2]);
    }
  }

  /** The state code as the source computes it, on the already lower-cased text. */
  function DetectUF(n: string): Option<string> {
    FirstUF(n, 0)
  }

  /** A text without upper-case letters contains no needle that has one. */
  lemma NoUpperInfix(s: string, w: string)
    requires NoUpper(s) && Contains(s, w)
    ensures NoUpper(w)
  {
    ContainsIff(s, w);
    var k :| OccursAt(s, w, k);
    forall i | 0 <= i < |w| ensures !IsUpper(w[i]) {
      assert w[i] == s[k + i];
    }
  }

  lemma TrimKeepsNoUpper(s: string)
    requires NoUpper(s)
    ensures NoUpper(Trim(s))
  {
    var a, b :| 0 <= a <= b <= |s| && Trim(s) == s[a..b] && AllSpace(s[..a]) && AllSpace(s[b..]);
    forall i | 0 <= i < |Trim(s)| ensures !IsUpper(Trim(s)[i]) {
      assert Trim(s)[i] == s[a + i];
    }
  }

  /** As written, the case-sensitive upper-case pattern runs on lower-cased
      text, so no question ever yields a state code. */
  lemma DetectUFNeverMatches(q: string)
    ensures DetectUF(Trim(ToLower(q))) == None
  {
    var n := Trim(ToLower(q));
    ToLowerHasNoUpper(q);
    TrimKeepsNoUpper(ToLower(q));
    if DetectUF(n).Some? {
      var u := DetectUF(n).value;
      var k :| 0 <= k <= |n| && MatchAt(n, k, WholeWord(u)) && NoUFBetween(n, 0, k);
      assert Lit(u) in WholeWord(u);
      MatchContainsLiterals(n, k, WholeWord(u), u);
      NoUpperInfix(n, u);
      UFsAreTwoUpper(u);
    }
  }

  /** The detector as evidently intended: the same pattern on the trimmed
      question in its original case. */
  function DetectUFCorrected(q: string): (r: Option<string>)
    ensures r.Some? ==> IsUF(r.value) && Contains(q, r.value)
  {
    var t := Trim(q);
    var r := FirstUF(t, 0);
    if r.Some? then
      assert Contains(q, r.value) by {
        var k :| 0 <= k <= |t| && MatchAt(t, k, WholeWord(r.value)) && NoUFBetween(t, 0, k);
        assert Lit(r.value) in WholeWord(r.value);
        MatchContainsLiterals(t, k, WholeWord(r.value), r.value);
        TrimIsInfix(q);
      }
      r
    else r
  }

  lemma TrimIsInfix(q: string)
    ensures forall w :: Contains(Trim(q), w) ==> Contains(q, w)
  {
    var a, b :| 0 <= a <= b <= |q| && Trim(q) == q[a..b] && AllSpace(q[..a]) && AllSpace(q[b..]);
    forall w | Contains(Trim(q), w) ensures Contains(q, w) {
      ContainsInfix(q, a, b, w);
    }
  }

  /** `classifyQuestion`: every part is computed from the lower-cased,
      trimmed question. */
  function ClassifyQuestion(q: string): (r: TriageResult)
    ensures r.trail != Operacao
    ensures r.uf == None
    ensures r.docType.Some? ==> r.family == Some(FamilyOf(r.docType.value))
    ensures r.family == Some(Plataformas) ==> r.docType == None
  {
    var n := Trim(ToLower(q));
    var fd := DetectFamilyAndDocType(n);
    DetectUFNeverMatches(q);
    TriageResult(DetectTrail(n), fd.family, fd.docType, DetectUF(n))
  }

  /** The classifier with the state-code detector corrected. */
  function ClassifyQuestionCorrected(q: string): (r: TriageResult)
    ensures r.uf.Some? ==> IsUF(r.uf.value) && Contains(q, r.uf.value)
    ensures r.trail == ClassifyQuestion(q).trail
  {
    ClassifyQuestion(q).(uf := DetectUFCorrected(q))
  }
}

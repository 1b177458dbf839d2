/** The classifier's own examples, worked through the model: each question
    below is lower-cased and trimmed, and the rules are followed to the trail,
    family and document type the classifier reports. */
module TriageExamples {
  import opened Wrappers
  import opened Text
  import opened Pattern
  import opened Triage

  const Q1: string := "Qual a alíquota de ICMS para SP?"
  const N1: string := "qual a alíquota de icms para sp?"
  const Q2: string := "O que diz a LC 214/2025 sobre IBS?"
  const N2: string := "o que diz a lc 214/2025 sobre ibs?"
  const Q3: string := "Estrutura XML do campo cProd na NF-e"
  const N3: string := "estrutura xml do campo cprod na nf-e"
  const Q4: string := "Como cancelar uma NF-e modelo 55?"
  const N4: string := "como cancelar uma nf-e modelo 55?"
  const Q5: string := "Prazo para evento no CT-e"
  const N5: string := "prazo para evento no ct-e"

  lemma Normalize1Lower(q: string, n: string)
    requires q == Q1 && n == N1
    ensures ToLower(q) == n
  {
    assert q[0] == 'Q'; assert q[1] == 'u'; assert q[2] == 'a'; assert q[3] == 'l'; assert q[4] == ' '; assert q[5] == 'a';
    assert q[6] == ' '; assert q[7] == 'a'; assert q[8] == 'l'; assert q[9] == 'í'; assert q[10] == 'q'; assert q[11] == 'u';
    assert q[12] == 'o'; assert q[13] == 't'; assert q[14] == 'a'; assert q[15] == ' '; assert q[16] == 'd'; assert q[17] == 'e';
    assert q[18] == ' '; assert q[19] == 'I'; assert q[20] == 'C'; assert q[21] == 'M'; assert q[22] == 'S'; assert q[23] == ' ';
    assert q[24] == 'p'; assert q[25] == 'a'; assert q[26] == 'r'; assert q[27] == 'a'; assert q[28] == ' '; assert q[29] == 'S';
    assert q[30] == 'P'; assert q[31] == '?';
    assert n[0] == 'q'; assert n[1] == 'u'; assert n[2] == 'a'; assert n[3] == 'l'; assert n[4] == ' '; assert n[5] == 'a';
    assert n[6] == ' '; assert n[7] == 'a'; assert n[8] == 'l'; assert n[9] == 'í'; assert n[10] == 'q'; assert n[11] == 'u';
    assert n[12] == 'o'; assert n[13] == 't'; assert n[14] == 'a'; assert n[15] == ' '; assert n[16] == 'd'; assert n[17] == 'e';
    assert n[18] == ' '; assert n[19] == 'i'; assert n[20] == 'c'; assert n[21] == 'm'; assert n[22] == 's'; assert n[23] == ' ';
    assert n[24] == 'p'; assert n[25] == 'a'; assert n[26] == 'r'; assert n[27] == 'a'; assert n[28] == ' '; assert n[29] == 's';
    assert n[30] == 'p'; assert n[31] == '?';
    assert LowerFrom(q, n, 32);
    assert LowerFrom(q, n, 24);
    assert LowerFrom(q, n, 16);
    assert LowerFrom(q, n, 8);
    assert LowerFrom(q, n, 0);
    LowerFromGives(q, n);
  }

  lemma Normalize1Trim(n: string)
    requires n == N1
    ensures Trim(n) == n
  {
    assert n[0] == 'q' && n[31] == '?';
    TrimNoop(n);
  }

  lemma Normalize1(q: string, n: string)
    requires q == Q1 && n == N1
    ensures Trim(ToLower(q)) == n
  {
    Normalize1Lower(q, n);
    Normalize1Trim(n);
  }

  lemma Normalize2Lower(q: string, n: string)
    requires q == Q2 && n == N2
    ensures ToLower(q) == n
  {
    assert q[0] == 'O'; assert q[1] == ' '; assert q[2] == 'q'; assert q[3] == 'u'; assert q[4] == 'e'; assert q[5] == ' ';
    assert q[6] == 'd'; assert q[7] == 'i'; assert q[8] == 'z'; assert q[9] == ' '; assert q[10] == 'a'; assert q[11] == ' ';
    assert q[12] == 'L'; assert q[13] == 'C'; assert q[14] == ' '; assert q[15] == '2'; assert q[16] == '1'; assert q[17] == '4';
    assert q[18] == '/'; assert q[19] == '2'; assert q[20] == '0'; assert q[21] == '2'; assert q[22] == '5'; assert q[23] == ' ';
    assert q[24] == 's'; assert q[25] == 'o'; assert q[26] == 'b'; assert q[27] == 'r'; assert q[28] == 'e'; assert q[29] == ' ';
    assert q[30] == 'I'; assert q[31] == 'B'; assert q[32] == 'S'; assert q[33] == '?';
    assert n[0] == 'o'; assert n[1] == ' '; assert n[2] == 'q'; assert n[3] == 'u'; assert n[4] == 'e'; assert n[5] == ' ';
    assert n[6] == 'd'; assert n[7] == 'i'; assert n[8] == 'z'; assert n[9] == ' '; assert n[10] == 'a'; assert n[11] == ' ';
    assert n[12] == 'l'; assert n[13] == 'c'; assert n[14] == ' '; assert n[15] == '2'; assert n[16] == '1'; assert n[17] == '4';
    assert n[18] == '/'; assert n[19] == '2'; assert n[20] == '0'; assert n[21] == '2'; assert n[22] == '5'; assert n[23] == ' ';
    assert n[24] == 's'; assert n[25] == 'o'; assert n[26] == 'b'; assert n[27] == 'r'; assert n[28] == 'e'; assert n[29] == ' ';
    assert n[30] == 'i'; assert n[31] == 'b'; assert n[32] == 's'; assert n[33] == '?';
    assert LowerFrom(q, n, 32);
    assert LowerFrom(q, n, 24);
    assert LowerFrom(q, n, 16);
    assert LowerFrom(q, n, 8);
    assert LowerFrom(q, n, 0);
    LowerFromGives(q, n);
  }

  lemma Normalize2Trim(n: string)
    requires n == N2
    ensures Trim(n) == n
  {
    assert n[0] == 'o' && n[33] == '?';
    TrimNoop(n);
  }

  lemma Normalize2(q: string, n: string)
    requires q == Q2 && n == N2
    ensures Trim(ToLower(q)) == n
  {
    Normalize2Lower(q, n);
    Normalize2Trim(n);
  }

  lemma Normalize3Lower(q: string, n: string)
    requires q == Q3 && n == N3
    ensures ToLower(q) == n
  {
    assert q[0] == 'E'; assert q[1] == 's'; assert q[2] == 't'; assert q[3] == 'r'; assert q[4] == 'u'; assert q[5] == 't';
    assert q[6] == 'u'; assert q[7] == 'r'; assert q[8] == 'a'; assert q[9] == ' '; assert q[10] == 'X'; assert q[11] == 'M';
    assert q[12] == 'L'; assert q[13] == ' '; assert q[14] == 'd'; assert q[15] == 'o'; assert q[16] == ' '; assert q[17] == 'c';
    assert q[18] == 'a'; assert q[19] == 'm'; assert q[20] == 'p'; assert q[21] == 'o'; assert q[22] == ' '; assert q[23] == 'c';
    assert q[24] == 'P'; assert q[25] == 'r'; assert q[26] == 'o'; assert q[27] == 'd'; assert q[28] == ' '; assert q[29] == 'n';
    assert q[30] == 'a'; assert q[31] == ' '; assert q[32] == 'N'; assert q[33] == 'F'; assert q[34] == '-'; assert q[35] == 'e';
    assert n[0] == 'e'; assert n[1] == 's'; assert n[2] == 't'; assert n[3] == 'r'; assert n[4] == 'u'; assert n[5] == 't';
    assert n[6] == 'u'; assert n[7] == 'r'; assert n[8] == 'a'; assert n[9] == ' '; assert n[10] == 'x'; assert n[11] == 'm';
    assert n[12] == 'l'; assert n[13] == ' '; assert n[14] == 'd'; assert n[15] == 'o'; assert n[16] == ' '; assert n[17] == 'c';
    assert n[18] == 'a'; assert n[19] == 'm'; assert n[20] == 'p'; assert n[21] == 'o'; assert n[22] == ' '; assert n[23] == 'c';
    assert n[24] == 'p'; assert n[25] == 'r'; assert n[26] == 'o'; assert n[27] == 'd'; assert n[28] == ' '; assert n[29] == 'n';
    assert n[30] == 'a'; assert n[31] == ' '; assert n[32] == 'n'; assert n[33] == 'f'; assert n[34] == '-'; assert n[35] == 'e';
    assert LowerFrom(q, n, 32);
    assert LowerFrom(q, n, 24);
    assert LowerFrom(q, n, 16);
    assert LowerFrom(q, n, 8);
    assert LowerFrom(q, n, 0);
    LowerFromGives(q, n);
  }

  lemma Normalize3Trim(n: string)
    requires n == N3
    ensures Trim(n) == n
  {
    assert n[0] == 'e' && n[35] == 'e';
    TrimNoop(n);
  }

  lemma Normalize3(q: string, n: string)
    requires q == Q3 && n == N3
    ensures Trim(ToLower(q)) == n
  {
    Normalize3Lower(q, n);
    Normalize3Trim(n);
  }

  lemma Normalize4Lower(q: string, n: string)
    requires q == Q4 && n == N4
    ensures ToLower(q) == n
  {
    assert q[0] == 'C'; assert q[1] == 'o'; assert q[2] == 'm'; assert q[3] == 'o'; assert q[4] == ' '; assert q[5] == 'c';
    assert q[6] == 'a'; assert q[7] == 'n'; assert q[8] == 'c'; assert q[9] == 'e'; assert q[10] == 'l'; assert q[11] == 'a';
    assert q[12] == 'r'; assert q[13] == ' '; assert q[14] == 'u'; assert q[15] == 'm'; assert q[16] == 'a'; assert q[17] == ' ';
    assert q[18] == 'N'; assert q[19] == 'F'; assert q[20] == '-'; assert q[21] == 'e'; assert q[22] == ' '; assert q[23] == 'm';
    assert q[24] == 'o'; assert q[25] == 'd'; assert q[26] == 'e'; assert q[27] == 'l'; assert q[28] == 'o'; assert q[29] == ' ';
    assert q[30] == '5'; assert q[31] == '5'; assert q[32] == '?';
    assert n[0] == 'c'; assert n[1] == 'o'; assert n[2] == 'm'; assert n[3] == 'o'; assert n[4] == ' '; assert n[5] == 'c';
    assert n[6] == 'a'; assert n[7] == 'n'; assert n[8] == 'c'; assert n[9] == 'e'; assert n[10] == 'l'; assert n[11] == 'a';
    assert n[12] == 'r'; assert n[13] == ' '; assert n[14] == 'u'; assert n[15] == 'm'; assert n[16] == 'a'; assert n[17] == ' ';
    assert n[18] == 'n'; assert n[19] == 'f'; assert n[20] == '-'; assert n[21] == 'e'; assert n[22] == ' '; assert n[23] == 'm';
    assert n[24] == 'o'; assert n[25] == 'd'; assert n[26] == 'e'; assert n[27] == 'l'; assert n[28] == 'o'; assert n[29] == ' ';
    assert n[30] == '5'; assert n[31] == '5'; assert n[32] == '?';
    assert LowerFrom(q, n, 32);
    assert LowerFrom(q, n, 24);
    assert LowerFrom(q, n, 16);
    assert LowerFrom(q, n, 8);
    assert LowerFrom(q, n, 0);
    LowerFromGives(q, n);
  }

  lemma Normalize4Trim(n: string)
    requires n == N4
    ensures Trim(n) == n
  {
    assert n[0] == 'c' && n[32] == '?';
    TrimNoop(n);
  }

  lemma Normalize4(q: string, n: string)
    requires q == Q4 && n == N4
    ensures Trim(ToLower(q)) == n
  {
    Normalize4Lower(q, n);
    Normalize4Trim(n);
  }

  lemma Normalize5Lower(q: string, n: string)
    requires q == Q5 && n == N5
    ensures ToLower(q) == n
  {
    assert q[0] == 'P'; assert q[1] == 'r'; assert q[2] == 'a'; assert q[3] == 'z'; assert q[4] == 'o'; assert q[5] == ' ';
    assert q[6] == 'p'; assert q[7] == 'a'; assert q[8] == 'r'; assert q[9] == 'a'; assert q[10] == ' '; assert q[11] == 'e';
    assert q[12] == 'v'; assert q[13] == 'e'; assert q[14] == 'n'; assert q[15] == 't'; assert q[16] == 'o'; assert q[17] == ' ';
    assert q[18] == 'n'; assert q[19] == 'o'; assert q[20] == ' '; assert q[21] == 'C'; assert q[22] == 'T'; assert q[23] == '-';
    assert q[24] == 'e';
    assert n[0] == 'p'; assert n[1] == 'r'; assert n[2] == 'a'; assert n[3] == 'z'; assert n[4] == 'o'; assert n[5] == ' ';
    assert n[6] == 'p'; assert n[7] == 'a'; assert n[8] == 'r'; assert n[9] == 'a'; assert n[10] == ' '; assert n[11] == 'e';
    assert n[12] == 'v'; assert n[13] == 'e'; assert n[14] == 'n'; assert n[15] == 't'; assert n[16] == 'o'; assert n[17] == ' ';
    assert n[18] == 'n'; assert n[19] == 'o'; assert n[20] == ' '; assert n[21] == 'c'; assert n[22] == 't'; assert n[23] == '-';
    assert n[24] == 'e';
    assert LowerFrom(q, n, 24);
    assert LowerFrom(q, n, 16);
    assert LowerFrom(q, n, 8);
    assert LowerFrom(q, n, 0);
    LowerFromGives(q, n);
  }

  lemma Normalize5Trim(n: string)
    requires n == N5
    ensures Trim(n) == n
  {
    assert n[0] == 'p' && n[24] == 'e';
    TrimNoop(n);
  }

  lemma Normalize5(q: string, n: string)
    requires q == Q5 && n == N5
    ensures Trim(ToLower(q)) == n
  {
    Normalize5Lower(q, n);
    Normalize5Trim(n);
  }

  /** "Qual a alíquota de ICMS para SP?" is a calculation question. */
  lemma CalculoExampleHit(s: string)
    requires s == N1
    ensures Test(s, CALCULO_RULE)
  {
    assert s[6] == ' '; assert s[7] == 'a'; assert s[8] == 'l'; assert s[9] == 'í'; assert s[10] == 'q'; assert s[11] == 'u';
    assert s[12] == 'o'; assert s[13] == 't'; assert s[14] == 'a'; assert s[15] == ' ';
    assert MatchAt(s, 7, CALCULO_RULE[1]);
    TestWitness(s, CALCULO_RULE, CALCULO_RULE[1], 7);
  }

  lemma CalculoExample(q: string)
    requires q == Q1
    ensures ClassifyQuestion(q).trail == Calculo
  {
    var s := N1;
    Normalize1(q, s);
    CalculoExampleHit(s);
  }

  lemma NotCalculo2At0(s: string)
    requires s == N2
    ensures !SearchFrom(s, 0, CALCULO_RULE[0])
  {
    N2Lacks0(s);
    NoSearchWithout(s, CALCULO_RULE[0], "lculo");
  }

  lemma NotCalculo2At1(s: string)
    requires s == N2
    ensures !SearchFrom(s, 0, CALCULO_RULE[1])
  {
    N2Lacks1(s);
    NoSearchWithout(s, CALCULO_RULE[1], "quota");
  }

  lemma NotCalculo2At2(s: string)
    requires s == N2
    ensures !SearchFrom(s, 0, CALCULO_RULE[2])
  {
    N2Lacks2(s);
    NoSearchWithout(s, CALCULO_RULE[2], "cfop");
  }

  lemma NotCalculo2At3(s: string)
    requires s == N2
    ensures !SearchFrom(s, 0, CALCULO_RULE[3])
  {
    N2Lacks3(s);
    NoSearchWithout(s, CALCULO_RULE[3], "ncm");
  }

  lemma NotCalculo2At4(s: string)
    requires s == N2
    ensures !SearchFrom(s, 0, CALCULO_RULE[4])
  {
    N2Lacks4(s);
    NoSearchWithout(s, CALCULO_RULE[4], "base");
  }

  lemma NotCalculo2At5(s: string)
    requires s == N2
    ensures !SearchFrom(s, 0, CALCULO_RULE[5])
  {
    N2Lacks5(s);
    NoSearchWithout(s, CALCULO_RULE[5], "tabela");
  }

  /** No calculation term occurs in the second question. */
  lemma NotCalculo2(s: string)
    requires s == N2
    ensures !Test(s, CALCULO_RULE)
  {
    forall i | 0 <= i < |CALCULO_RULE| ensures !SearchFrom(s, 0, CALCULO_RULE[i]) {
      if i == 0 {
        NotCalculo2At0(s);
      } else if i == 1 {
        NotCalculo2At1(s);
      } else if i == 2 {
        NotCalculo2At2(s);
      } else if i == 3 {
        NotCalculo2At3(s);
      } else if i == 4 {
        NotCalculo2At4(s);
      } else {
        NotCalculo2At5(s);
      }
    }
    TestNone(s, CALCULO_RULE);
  }

  /** "O que diz a LC 214/2025 sobre IBS?" is a legislation question. */
  lemma LegislacaoExampleHit(s: string)
    requires s == N2
    ensures Test(s, LEGISLACAO_RULE)
  {
    assert s[29] == ' '; assert s[30] == 'i'; assert s[31] == 'b'; assert s[32] == 's'; assert s[33] == '?';
    assert MatchAt(s, 30, LEGISLACAO_RULE[4]);
    TestWitness(s, LEGISLACAO_RULE, LEGISLACAO_RULE[4], 30);
  }

  lemma LegislacaoExample(q: string)
    requires q == Q2
    ensures ClassifyQuestion(q).trail == Legislacao
  {
    var s := N2;
    Normalize2(q, s);
    NotCalculo2(s);
    LegislacaoExampleHit(s);
  }

  lemma NotCalculo3At0(s: string)
    requires s == N3
    ensures !SearchFrom(s, 0, CALCULO_RULE[0])
  {
    N3Lacks0(s);
    NoSearchWithout(s, CALCULO_RULE[0], "lculo");
  }

  lemma NotCalculo3At1(s: string)
    requires s == N3
    ensures !SearchFrom(s, 0, CALCULO_RULE[1])
  {
    N3Lacks1(s);
    NoSearchWithout(s, CALCULO_RULE[1], "quota");
  }

  lemma NotCalculo3At2(s: string)
    requires s == N3
    ensures !SearchFrom(s, 0, CALCULO_RULE[2])
  {
    N3Lacks2(s);
    NoSearchWithout(s, CALCULO_RULE[2], "cfop");
  }

  lemma NotCalculo3At3(s: string)
    requires s == N3
    ensures !SearchFrom(s, 0, CALCULO_RULE[3])
  {
    N3Lacks3(s);
    NoSearchWithout(s, CALCULO_RULE[3], "ncm");
  }

  lemma NotCalculo3At4(s: string)
    requires s == N3
    ensures !SearchFrom(s, 0, CALCULO_RULE[4])
  {
    N3Lacks4(s);
    NoSearchWithout(s, CALCULO_RULE[4], "base");
  }

  lemma NotCalculo3At5(s: string)
    requires s == N3
    ensures !SearchFrom(s, 0, CALCULO_RULE[5])
  {
    N3Lacks5(s);
    NoSearchWithout(s, CALCULO_RULE[5], "tabela");
  }

  /** No calculation term occurs in the third question. */
  lemma NotCalculo3(s: string)
    requires s == N3
    ensures !Test(s, CALCULO_RULE)
  {
    forall i | 0 <= i < |CALCULO_RULE| ensures !SearchFrom(s, 0, CALCULO_RULE[i]) {
      if i == 0 {
        NotCalculo3At0(s);
      } else if i == 1 {
        NotCalculo3At1(s);
      } else if i == 2 {
        NotCalculo3At2(s);
      } else if i == 3 {
        NotCalculo3At3(s);
      } else if i == 4 {
        NotCalculo3At4(s);
      } else {
        NotCalculo3At5(s);
      }
    }
    TestNone(s, CALCULO_RULE);
  }

  lemma NotLegislacao3At0(s: string)
    requires s == N3
    ensures !SearchFrom(s, 0, LEGISLACAO_RULE[0])
  {
    N3Lacks6(s);
    NoSearchWithout(s, LEGISLACAO_RULE[0], "lei");
  }

  lemma NotLegislacao3At1(s: string)
    requires s == N3
    ensures !SearchFrom(s, 0, LEGISLACAO_RULE[1])
  {
    N3Lacks7(s);
    NoSearchWithout(s, LEGISLACAO_RULE[1], "decreto");
  }

  lemma NotLegislacao3At2(s: string)
    requires s == N3
    ensures !SearchFrom(s, 0, LEGISLACAO_RULE[2])
  {
    N3Lacks8(s);
    NoSearchWithout(s, LEGISLACAO_RULE[2], "lc");
  }

  lemma NotLegislacao3At3(s: string)
    requires s == N3
    ensures !SearchFrom(s, 0, LEGISLACAO_RULE[3])
  {
    N3Lacks9(s);
    NoSearchWithout(s, LEGISLACAO_RULE[3], "ec");
  }

  lemma NotLegislacao3At4(s: string)
    requires s == N3
    ensures !SearchFrom(s, 0, LEGISLACAO_RULE[4])
  {
    N3Lacks10(s);
    NoSearchWithout(s, LEGISLACAO_RULE[4], "ibs");
  }

  lemma NotLegislacao3At5(s: string)
    requires s == N3
    ensures !SearchFrom(s, 0, LEGISLACAO_RULE[5])
  {
    N3Lacks11(s);
    NoSearchWithout(s, LEGISLACAO_RULE[5], "cbs");
  }

  lemma NotLegislacao3At6(s: string)
    requires s == N3
    ensures !SearchFrom(s, 0, LEGISLACAO_RULE[6])
  {
    N3Lacks12(s);
    NoSearchWithout(s, LEGISLACAO_RULE[6], "imposto");
  }

  lemma NotLegislacao3At7(s: string)
    requires s == N3
    ensures !SearchFrom(s, 0, LEGISLACAO_RULE[7])
  {
    N3Lacks13(s);
    NoSearchWithout(s, LEGISLACAO_RULE[7], "reforma");
  }

  lemma NotLegislacao3At8(s: string)
    requires s == N3
    ensures !SearchFrom(s, 0, LEGISLACAO_RULE[8])
  {
    N3Lacks14(s);
    NoSearchWithout(s, LEGISLACAO_RULE[8], "conv");
  }

  lemma NotLegislacao3At9(s: string)
    requires s == N3
    ensures !SearchFrom(s, 0, LEGISLACAO_RULE[9])
  {
    N3Lacks15(s);
    NoSearchWithout(s, LEGISLACAO_RULE[9], "con faz");
  }

  lemma NotLegislacao3At10(s: string)
    requires s == N3
    ensures !SearchFrom(s, 0, LEGISLACAO_RULE[10])
  {
    N3Lacks16(s);
    NoSearchWithout(s, LEGISLACAO_RULE[10], "sinief");
  }

  lemma NotLegislacao3At11(s: string)
    requires s == N3
    ensures !SearchFrom(s, 0, LEGISLACAO_RULE[11])
  {
    N3Lacks17(s);
    NoSearchWithout(s, LEGISLACAO_RULE[11], "cotepe");
  }

  lemma NotLegislacao3At12(s: string)
    requires s == N3
    ensures !SearchFrom(s, 0, LEGISLACAO_RULE[12])
  {
    N3Lacks18(s);
    NoSearchWithout(s, LEGISLACAO_RULE[12], "jurisprud");
  }

  lemma NotLegislacao3At13(s: string)
    requires s == N3
    ensures !SearchFrom(s, 0, LEGISLACAO_RULE[13])
  {
    N3Lacks19(s);
    NoSearchWithout(s, LEGISLACAO_RULE[13], "parecer");
  }

  lemma NotLegislacao3At14(s: string)
    requires s == N3
    ensures !SearchFrom(s, 0, LEGISLACAO_RULE[14])
  {
    N3Lacks20(s);
    NoSearchWithout(s, LEGISLACAO_RULE[14], "art.");
  }

  /** No legislation term occurs in the third question. */
  lemma NotLegislacao3(s: string)
    requires s == N3
    ensures !Test(s, LEGISLACAO_RULE)
  {
    forall i | 0 <= i < |LEGISLACAO_RULE| ensures !SearchFrom(s, 0, LEGISLACAO_RULE[i]) {
      if i == 0 {
        NotLegislacao3At0(s);
      } else if i == 1 {
        NotLegislacao3At1(s);
      } else if i == 2 {
        NotLegislacao3At2(s);
      } else if i == 3 {
        NotLegislacao3At3(s);
      } else if i == 4 {
        NotLegislacao3At4(s);
      } else if i == 5 {
        NotLegislacao3At5(s);
      } else if i == 6 {
        NotLegislacao3At6(s);
      } else if i == 7 {
        NotLegislacao3At7(s);
      } else if i == 8 {
        NotLegislacao3At8(s);
      } else if i == 9 {
        NotLegislacao3At9(s);
      } else if i == 10 {
        NotLegislacao3At10(s);
      } else if i == 11 {
        NotLegislacao3At11(s);
      } else if i == 12 {
        NotLegislacao3At12(s);
      } else if i == 13 {
        NotLegislacao3At13(s);
      } else {
        NotLegislacao3At14(s);
      }
    }
    TestNone(s, LEGISLACAO_RULE);
  }

  /** "Estrutura XML do campo cProd na NF-e" is a document question. */
  lemma DocumentoExampleHit(s: string)
    requires s == N3
    ensures Test(s, DOCUMENTO_RULE)
  {
    assert s[9] == ' '; assert s[10] == 'x'; assert s[11] == 'm'; assert s[12] == 'l'; assert s[13] == ' ';
    assert MatchAt(s, 10, DOCUMENTO_RULE[2]);
    TestWitness(s, DOCUMENTO_RULE, DOCUMENTO_RULE[2], 10);
  }

  lemma DocumentoExample(q: string)
    requires q == Q3
    ensures ClassifyQuestion(q).trail == Documento
  {
    var s := N3;
    Normalize3(q, s);
    NotCalculo3(s);
    NotLegislacao3(s);
    DocumentoExampleHit(s);
  }

  lemma NfeExampleHit(s: string)
    requires s == N4
    ensures Contains(s, "modelo 55")
  {
    assert s[23] == 'm'; assert s[24] == 'o'; assert s[25] == 'd'; assert s[26] == 'e'; assert s[27] == 'l'; assert s[28] == 'o';
    assert s[29] == ' '; assert s[30] == '5'; assert s[31] == '5';
    assert s[23..32] == "modelo 55";
    assert OccursAt(s, "modelo 55", 23);
    ContainsWitness(s, "modelo 55", 23);
  }

  /** "Como cancelar uma NF-e modelo 55?" is about the model-55 invoice. */
  lemma NfeExample(q: string)
    requires q == Q4
    ensures ClassifyQuestion(q).family == Some(Mercadorias) && ClassifyQuestion(q).docType == Some(Nfe)
  {
    var s := N4;
    Normalize4(q, s);
    NfeExampleHit(s);
    Modelo55WinsOverNfce(s);
  }

  lemma NoNfeModel5At0(s: string)
    requires s == N5
    ensures !SearchFrom(s, 0, NFE_MODEL_RULE[0])
  {
    N5Lacks0(s);
    NoSearchWithout(s, NFE_MODEL_RULE[0], "modelo");
  }

  lemma NoNfeModel5At1(s: string)
    requires s == N5
    ensures !SearchFrom(s, 0, NFE_MODEL_RULE[1])
  {
    N5Lacks0(s);
    NoSearchWithout(s, NFE_MODEL_RULE[1], "modelo");
  }

  lemma NoNfeModel5At2(s: string)
    requires s == N5
    ensures !SearchFrom(s, 0, NFE_MODEL_RULE[2])
  {
    N5Lacks1(s);
    NoSearchWithout(s, NFE_MODEL_RULE[2], "nfe");
  }

  lemma NoNfeModel5At3(s: string)
    requires s == N5
    ensures !SearchFrom(s, 0, NFE_MODEL_RULE[3])
  {
    N5Lacks2(s);
    NoSearchWithout(s, NFE_MODEL_RULE[3], "nota");
  }

  /** The fifth question names no model-55 invoice. */
  lemma NoNfeModel5(s: string)
    requires s == N5
    ensures !Test(s, NFE_MODEL_RULE)
  {
    forall i | 0 <= i < |NFE_MODEL_RULE| ensures !SearchFrom(s, 0, NFE_MODEL_RULE[i]) {
      if i == 0 {
        NoNfeModel5At0(s);
      } else if i == 1 {
        NoNfeModel5At1(s);
      } else if i == 2 {
        NoNfeModel5At2(s);
      } else {
        NoNfeModel5At3(s);
      }
    }
    TestNone(s, NFE_MODEL_RULE);
  }

  lemma NoNfeToken5At0(s: string)
    requires s == N5
    ensures !SearchFrom(s, 0, NFE_TOKEN_RULE[0])
  {
    N5Lacks1(s);
    NoSearchWithout(s, NFE_TOKEN_RULE[0], "nfe");
  }

  lemma NoNfeToken5At1(s: string)
    requires s == N5
    ensures !SearchFrom(s, 0, NFE_TOKEN_RULE[1])
  {
    N5Lacks3(s);
    NoSearchWithout(s, NFE_TOKEN_RULE[1], "nf-e");
  }

  /** The fifth question has no bare nfe token. */
  lemma NoNfeToken5(s: string)
    requires s == N5
    ensures !Test(s, NFE_TOKEN_RULE)
  {
    forall i | 0 <= i < |NFE_TOKEN_RULE| ensures !SearchFrom(s, 0, NFE_TOKEN_RULE[i]) {
      if i == 0 {
        NoNfeToken5At0(s);
      } else {
        NoNfeToken5At1(s);
      }
    }
    TestNone(s, NFE_TOKEN_RULE);
  }

  lemma NoNfce5At0(s: string)
    requires s == N5
    ensures !SearchFrom(s, 0, NFCE_RULE[0])
  {
    N5Lacks4(s);
    NoSearchWithout(s, NFCE_RULE[0], "nfce");
  }

  lemma NoNfce5At1(s: string)
    requires s == N5
    ensures !SearchFrom(s, 0, NFCE_RULE[1])
  {
    N5Lacks5(s);
    NoSearchWithout(s, NFCE_RULE[1], "nf-c-e");
  }

  lemma NoNfce5At2(s: string)
    requires s == N5
    ensures !SearchFrom(s, 0, NFCE_RULE[2])
  {
    N5Lacks6(s);
    NoSearchWithout(s, NFCE_RULE[2], "nfc");
  }

  lemma NoNfce5At3(s: string)
    requires s == N5
    ensures !SearchFrom(s, 0, NFCE_RULE[3])
  {
    N5Lacks0(s);
    NoSearchWithout(s, NFCE_RULE[3], "modelo");
  }

  lemma NoNfce5At4(s: string)
    requires s == N5
    ensures !SearchFrom(s, 0, NFCE_RULE[4])
  {
    N5Lacks7(s);
    NoSearchWithout(s, NFCE_RULE[4], "consumidor");
  }

  /** The fifth question names no consumer invoice. */
  lemma NoNfce5(s: string)
    requires s == N5
    ensures !Test(s, NFCE_RULE)
  {
    forall i | 0 <= i < |NFCE_RULE| ensures !SearchFrom(s, 0, NFCE_RULE[i]) {
      if i == 0 {
        NoNfce5At0(s);
      } else if i == 1 {
        NoNfce5At1(s);
      } else if i == 2 {
        NoNfce5At2(s);
      } else if i == 3 {
        NoNfce5At3(s);
      } else {
        NoNfce5At4(s);
      }
    }
    TestNone(s, NFCE_RULE);
  }

  /** "Prazo para evento no CT-e" is about the transport bill of lading. */
  lemma CteExampleHit(s: string)
    requires s == N5
    ensures Test(s, CTE_RULE)
  {
    assert s[20] == ' '; assert s[21] == 'c'; assert s[22] == 't'; assert s[23] == '-'; assert s[24] == 'e';
    assert MatchAt(s, 21, CTE_RULE[0]);
    TestWitness(s, CTE_RULE, CTE_RULE[0], 21);
  }

  lemma CteExample(q: string)
    requires q == Q5
    ensures ClassifyQuestion(q).family == Some(Transporte) && ClassifyQuestion(q).docType == Some(Cte)
  {
    var s := N5;
    Normalize5(q, s);
    NoNfeModel5(s);
    NoNfeToken5(s);
    NoNfce5(s);
    CteExampleHit(s);
  }

  lemma N2Lacks0(s: string)
    requires s == N2
    ensures !Contains(s, "lculo")
  {
    assert s[0] == 'o'; assert s[1] == ' '; assert s[2] == 'q'; assert s[3] == 'u'; assert s[4] == 'e'; assert s[5] == ' ';
    assert s[6] == 'd'; assert s[7] == 'i'; assert s[8] == 'z'; assert s[9] == ' '; assert s[10] == 'a'; assert s[11] == ' ';
    assert s[12] == 'l'; assert s[13] == 'c'; assert s[14] == ' '; assert s[15] == '2'; assert s[16] == '1'; assert s[17] == '4';
    assert s[18] == '/'; assert s[19] == '2'; assert s[20] == '0'; assert s[21] == '2'; assert s[22] == '5'; assert s[23] == ' ';
    assert s[24] == 's'; assert s[25] == 'o'; assert s[26] == 'b'; assert s[27] == 'r'; assert s[28] == 'e'; assert s[29] == ' ';
    assert s[30] == 'i'; assert s[31] == 'b'; assert s[32] == 's'; assert s[33] == '?';
    assert !ScanFrom(s, "lculo", 32);
    assert !ScanFrom(s, "lculo", 24);
    assert !ScanFrom(s, "lculo", 16);
    assert !ScanFrom(s, "lculo", 8);
    assert !ScanFrom(s, "lculo", 0);
    ScanFromIff(s, "lculo", 0);
  }

  lemma N2Lacks1(s: string)
    requires s == N2
    ensures !Contains(s, "quota")
  {
    AbsentChar(s, "quota", 't');
  }

  lemma N2Lacks2(s: string)
    requires s == N2
    ensures !Contains(s, "cfop")
  {
    AbsentChar(s, "cfop", 'f');
  }

  lemma N2Lacks3(s: string)
    requires s == N2
    ensures !Contains(s, "ncm")
  {
    AbsentChar(s, "ncm", 'n');
  }

  lemma N2Lacks4(s: string)
    requires s == N2
    ensures !Contains(s, "base")
  {
    assert s[0] == 'o'; assert s[1] == ' '; assert s[2] == 'q'; assert s[3] == 'u'; assert s[4] == 'e'; assert s[5] == ' ';
    assert s[6] == 'd'; assert s[7] == 'i'; assert s[8] == 'z'; assert s[9] == ' '; assert s[10] == 'a'; assert s[11] == ' ';
    assert s[12] == 'l'; assert s[13] == 'c'; assert s[14] == ' '; assert s[15] == '2'; assert s[16] == '1'; assert s[17] == '4';
    assert s[18] == '/'; assert s[19] == '2'; assert s[20] == '0'; assert s[21] == '2'; assert s[22] == '5'; assert s[23] == ' ';
    assert s[24] == 's'; assert s[25] == 'o'; assert s[26] == 'b'; assert s[27] == 'r'; assert s[28] == 'e'; assert s[29] == ' ';
    assert s[30] == 'i'; assert s[31] == 'b'; assert s[32] == 's'; assert s[33] == '?';
    assert !ScanFrom(s, "base", 32);
    assert !ScanFrom(s, "base", 24);
    assert !ScanFrom(s, "base", 16);
    assert !ScanFrom(s, "base", 8);
    assert !ScanFrom(s, "base", 0);
    ScanFromIff(s, "base", 0);
  }

  lemma N2Lacks5(s: string)
    requires s == N2
    ensures !Contains(s, "tabela")
  {
    AbsentChar(s, "tabela", 't');
  }

  lemma N3Lacks0(s: string)
    requires s == N3
    ensures !Contains(s, "lculo")
  {
    assert s[0] == 'e'; assert s[1] == 's'; assert s[2] == 't'; assert s[3] == 'r'; assert s[4] == 'u'; assert s[5] == 't';
    assert s[6] == 'u'; assert s[7] == 'r'; assert s[8] == 'a'; assert s[9] == ' '; assert s[10] == 'x'; assert s[11] == 'm';
    assert s[12] == 'l'; assert s[13] == ' '; assert s[14] == 'd'; assert s[15] == 'o'; assert s[16] == ' '; assert s[17] == 'c';
    assert s[18] == 'a'; assert s[19] == 'm'; assert s[20] == 'p'; assert s[21] == 'o'; assert s[22] == ' '; assert s[23] == 'c';
    assert s[24] == 'p'; assert s[25] == 'r'; assert s[26] == 'o'; assert s[27] == 'd'; assert s[28] == ' '; assert s[29] == 'n';
    assert s[30] == 'a'; assert s[31] == ' '; assert s[32] == 'n'; assert s[33] == 'f'; assert s[34] == '-'; assert s[35] == 'e';
    assert !ScanFrom(s, "lculo", 32);
    assert !ScanFrom(s, "lculo", 24);
    assert !ScanFrom(s, "lculo", 16);
    assert !ScanFrom(s, "lculo", 8);
    assert !ScanFrom(s, "lculo", 0);
    ScanFromIff(s, "lculo", 0);
  }

  lemma N3Lacks1(s: string)
    requires s == N3
    ensures !Contains(s, "quota")
  {
    AbsentChar(s, "quota", 'q');
  }

  lemma N3Lacks2(s: string)
    requires s == N3
    ensures !Contains(s, "cfop")
  {
    assert s[0] == 'e'; assert s[1] == 's'; assert s[2] == 't'; assert s[3] == 'r'; assert s[4] == 'u'; assert s[5] == 't';
    assert s[6] == 'u'; assert s[7] == 'r'; assert s[8] == 'a'; assert s[9] == ' '; assert s[10] == 'x'; assert s[11] == 'm';
    assert s[12] == 'l'; assert s[13] == ' '; assert s[14] == 'd'; assert s[15] == 'o'; assert s[16] == ' '; assert s[17] == 'c';
    assert s[18] == 'a'; assert s[19] == 'm'; assert s[20] == 'p'; assert s[21] == 'o'; assert s[22] == ' '; assert s[23] == 'c';
    assert s[24] == 'p'; assert s[25] == 'r'; assert s[26] == 'o'; assert s[27] == 'd'; assert s[28] == ' '; assert s[29] == 'n';
    assert s[30] == 'a'; assert s[31] == ' '; assert s[32] == 'n'; assert s[33] == 'f'; assert s[34] == '-'; assert s[35] == 'e';
    assert !ScanFrom(s, "cfop", 32);
    assert !ScanFrom(s, "cfop", 24);
    assert !ScanFrom(s, "cfop", 16);
    assert !ScanFrom(s, "cfop", 8);
    assert !ScanFrom(s, "cfop", 0);
    ScanFromIff(s, "cfop", 0);
  }

  lemma N3Lacks3(s: string)
    requires s == N3
    ensures !Contains(s, "ncm")
  {
    assert s[0] == 'e'; assert s[1] == 's'; assert s[2] == 't'; assert s[3] == 'r'; assert s[4] == 'u'; assert s[5] == 't';
    assert s[6] == 'u'; assert s[7] == 'r'; assert s[8] == 'a'; assert s[9] == ' '; assert s[10] == 'x'; assert s[11] == 'm';
    assert s[12] == 'l'; assert s[13] == ' '; assert s[14] == 'd'; assert s[15] == 'o'; assert s[16] == ' '; assert s[17] == 'c';
    assert s[18] == 'a'; assert s[19] == 'm'; assert s[20] == 'p'; assert s[21] == 'o'; assert s[22] == ' '; assert s[23] == 'c';
    assert s[24] == 'p'; assert s[25] == 'r'; assert s[26] == 'o'; assert s[27] == 'd'; assert s[28] == ' '; assert s[29] == 'n';
    assert s[30] == 'a'; assert s[31] == ' '; assert s[32] == 'n'; assert s[33] == 'f'; assert s[34] == '-'; assert s[35] == 'e';
    assert !ScanFrom(s, "ncm", 32);
    assert !ScanFrom(s, "ncm", 24);
    assert !ScanFrom(s, "ncm", 16);
    assert !ScanFrom(s, "ncm", 8);
    assert !ScanFrom(s, "ncm", 0);
    ScanFromIff(s, "ncm", 0);
  }

  lemma N3Lacks4(s: string)
    requires s == N3
    ensures !Contains(s, "base")
  {
    AbsentChar(s, "base", 'b');
  }

  lemma N3Lacks5(s: string)
    requires s == N3
    ensures !Contains(s, "tabela")
  {
    AbsentChar(s, "tabela", 'b');
  }

  lemma N3Lacks6(s: string)
    requires s == N3
    ensures !Contains(s, "lei")
  {
    AbsentChar(s, "lei", 'i');
  }

  lemma N3Lacks7(s: string)
    requires s == N3
    ensures !Contains(s, "decreto")
  {
    assert s[0] == 'e'; assert s[1] == 's'; assert s[2] == 't'; assert s[3] == 'r'; assert s[4] == 'u'; assert s[5] == 't';
    assert s[6] == 'u'; assert s[7] == 'r'; assert s[8] == 'a'; assert s[9] == ' '; assert s[10] == 'x'; assert s[11] == 'm';
    assert s[12] == 'l'; assert s[13] == ' '; assert s[14] == 'd'; assert s[15] == 'o'; assert s[16] == ' '; assert s[17] == 'c';
    assert s[18] == 'a'; assert s[19] == 'm'; assert s[20] == 'p'; assert s[21] == 'o'; assert s[22] == ' '; assert s[23] == 'c';
    assert s[24] == 'p'; assert s[25] == 'r'; assert s[26] == 'o'; assert s[27] == 'd'; assert s[28] == ' '; assert s[29] == 'n';
    assert s[30] == 'a'; assert s[31] == ' '; assert s[32] == 'n'; assert s[33] == 'f'; assert s[34] == '-'; assert s[35] == 'e';
    assert !ScanFrom(s, "decreto", 32);
    assert !ScanFrom(s, "decreto", 24);
    assert !ScanFrom(s, "decreto", 16);
    assert !ScanFrom(s, "decreto", 8);
    assert !ScanFrom(s, "decreto", 0);
    ScanFromIff(s, "decreto", 0);
  }

  lemma N3Lacks8(s: string)
    requires s == N3
    ensures !Contains(s, "lc")
  {
    assert s[0] == 'e'; assert s[1] == 's'; assert s[2] == 't'; assert s[3] == 'r'; assert s[4] == 'u'; assert s[5] == 't';
    assert s[6] == 'u'; assert s[7] == 'r'; assert s[8] == 'a'; assert s[9] == ' '; assert s[10] == 'x'; assert s[11] == 'm';
    assert s[12] == 'l'; assert s[13] == ' '; assert s[14] == 'd'; assert s[15] == 'o'; assert s[16] == ' '; assert s[17] == 'c';
    assert s[18] == 'a'; assert s[19] == 'm'; assert s[20] == 'p'; assert s[21] == 'o'; assert s[22] == ' '; assert s[23] == 'c';
    assert s[24] == 'p'; assert s[25] == 'r'; assert s[26] == 'o'; assert s[27] == 'd'; assert s[28] == ' '; assert s[29] == 'n';
    assert s[30] == 'a'; assert s[31] == ' '; assert s[32] == 'n'; assert s[33] == 'f'; assert s[34] == '-'; assert s[35] == 'e';
    assert !ScanFrom(s, "lc", 32);
    assert !ScanFrom(s, "lc", 24);
    assert !ScanFrom(s, "lc", 16);
    assert !ScanFrom(s, "lc", 8);
    assert !ScanFrom(s, "lc", 0);
    ScanFromIff(s, "lc", 0);
  }

  lemma N3Lacks9(s: string)
    requires s == N3
    ensures !Contains(s, "ec")
  {
    assert s[0] == 'e'; assert s[1] == 's'; assert s[2] == 't'; assert s[3] == 'r'; assert s[4] == 'u'; assert s[5] == 't';
    assert s[6] == 'u'; assert s[7] == 'r'; assert s[8] == 'a'; assert s[9] == ' '; assert s[10] == 'x'; assert s[11] == 'm';
    assert s[12] == 'l'; assert s[13] == ' '; assert s[14] == 'd'; assert s[15] == 'o'; assert s[16] == ' '; assert s[17] == 'c';
    assert s[18] == 'a'; assert s[19] == 'm'; assert s[20] == 'p'; assert s[21] == 'o'; assert s[22] == ' '; assert s[23] == 'c';
    assert s[24] == 'p'; assert s[25] == 'r'; assert s[26] == 'o'; assert s[27] == 'd'; assert s[28] == ' '; assert s[29] == 'n';
    assert s[30] == 'a'; assert s[31] == ' '; assert s[32] == 'n'; assert s[33] == 'f'; assert s[34] == '-'; assert s[35] == 'e';
    assert !ScanFrom(s, "ec", 32);
    assert !ScanFrom(s, "ec", 24);
    assert !ScanFrom(s, "ec", 16);
    assert !ScanFrom(s, "ec", 8);
    assert !ScanFrom(s, "ec", 0);
    ScanFromIff(s, "ec", 0);
  }

  lemma N3Lacks10(s: string)
    requires s == N3
    ensures !Contains(s, "ibs")
  {
    AbsentChar(s, "ibs", 'i');
  }

  lemma N3Lacks11(s: string)
    requires s == N3
    ensures !Contains(s, "cbs")
  {
    AbsentChar(s, "cbs", 'b');
  }

  lemma N3Lacks12(s: string)
    requires s == N3
    ensures !Contains(s, "imposto")
  {
    AbsentChar(s, "imposto", 'i');
  }

  lemma N3Lacks13(s: string)
    requires s == N3
    ensures !Contains(s, "reforma")
  {
    assert s[0] == 'e'; assert s[1] == 's'; assert s[2] == 't'; assert s[3] == 'r'; assert s[4] == 'u'; assert s[5] == 't';
    assert s[6] == 'u'; assert s[7] == 'r'; assert s[8] == 'a'; assert s[9] == ' '; assert s[10] == 'x'; assert s[11] == 'm';
    assert s[12] == 'l'; assert s[13] == ' '; assert s[14] == 'd'; assert s[15] == 'o'; assert s[16] == ' '; assert s[17] == 'c';
    assert s[18] == 'a'; assert s[19] == 'm'; assert s[20] == 'p'; assert s[21] == 'o'; assert s[22] == ' '; assert s[23] == 'c';
    assert s[24] == 'p'; assert s[25] == 'r'; assert s[26] == 'o'; assert s[27] == 'd'; assert s[28] == ' '; assert s[29] == 'n';
    assert s[30] == 'a'; assert s[31] == ' '; assert s[32] == 'n'; assert s[33] == 'f'; assert s[34] == '-'; assert s[35] == 'e';
    assert !ScanFrom(s, "reforma", 32);
    assert !ScanFrom(s, "reforma", 24);
    assert !ScanFrom(s, "reforma", 16);
    assert !ScanFrom(s, "reforma", 8);
    assert !ScanFrom(s, "reforma", 0);
    ScanFromIff(s, "reforma", 0);
  }

  lemma N3Lacks14(s: string)
    requires s == N3
    ensures !Contains(s, "conv")
  {
    AbsentChar(s, "conv", 'v');
  }

  lemma N3Lacks15(s: string)
    requires s == N3
    ensures !Contains(s, "con faz")
  {
    AbsentChar(s, "con faz", 'z');
  }

  lemma N3Lacks16(s: string)
    requires s == N3
    ensures !Contains(s, "sinief")
  {
    AbsentChar(s, "sinief", 'i');
  }

  lemma N3Lacks17(s: string)
    requires s == N3
    ensures !Contains(s, "cotepe")
  {
    assert s[0] == 'e'; assert s[1] == 's'; assert s[2] == 't'; assert s[3] == 'r'; assert s[4] == 'u'; assert s[5] == 't';
    assert s[6] == 'u'; assert s[7] == 'r'; assert s[8] == 'a'; assert s[9] == ' '; assert s[10] == 'x'; assert s[11] == 'm';
    assert s[12] == 'l'; assert s[13] == ' '; assert s[14] == 'd'; assert s[15] == 'o'; assert s[16] == ' '; assert s[17] == 'c';
    assert s[18] == 'a'; assert s[19] == 'm'; assert s[20] == 'p'; assert s[21] == 'o'; assert s[22] == ' '; assert s[23] == 'c';
    assert s[24] == 'p'; assert s[25] == 'r'; assert s[26] == 'o'; assert s[27] == 'd'; assert s[28] == ' '; assert s[29] == 'n';
    assert s[30] == 'a'; assert s[31] == ' '; assert s[32] == 'n'; assert s[33] == 'f'; assert s[34] == '-'; assert s[35] == 'e';
    assert !ScanFrom(s, "cotepe", 32);
    assert !ScanFrom(s, "cotepe", 24);
    assert !ScanFrom(s, "cotepe", 16);
    assert !ScanFrom(s, "cotepe", 8);
    assert !ScanFrom(s, "cotepe", 0);
    ScanFromIff(s, "cotepe", 0);
  }

  lemma N3Lacks18(s: string)
    requires s == N3
    ensures !Contains(s, "jurisprud")
  {
    AbsentChar(s, "jurisprud", 'j');
  }

  lemma N3Lacks19(s: string)
    requires s == N3
    ensures !Contains(s, "parecer")
  {
    assert s[0] == 'e'; assert s[1] == 's'; assert s[2] == 't'; assert s[3] == 'r'; assert s[4] == 'u'; assert s[5] == 't';
    assert s[6] == 'u'; assert s[7] == 'r'; assert s[8] == 'a'; assert s[9] == ' '; assert s[10] == 'x'; assert s[11] == 'm';
    assert s[12] == 'l'; assert s[13] == ' '; assert s[14] == 'd'; assert s[15] == 'o'; assert s[16] == ' '; assert s[17] == 'c';
    assert s[18] == 'a'; assert s[19] == 'm'; assert s[20] == 'p'; assert s[21] == 'o'; assert s[22] == ' '; assert s[23] == 'c';
    assert s[24] == 'p'; assert s[25] == 'r'; assert s[26] == 'o'; assert s[27] == 'd'; assert s[28] == ' '; assert s[29] == 'n';
    assert s[30] == 'a'; assert s[31] == ' '; assert s[32] == 'n'; assert s[33] == 'f'; assert s[34] == '-'; assert s[35] == 'e';
    assert !ScanFrom(s, "parecer", 32);
    assert !ScanFrom(s, "parecer", 24);
    assert !ScanFrom(s, "parecer", 16);
    assert !ScanFrom(s, "parecer", 8);
    assert !ScanFrom(s, "parecer", 0);
    ScanFromIff(s, "parecer", 0);
  }

  lemma N3Lacks20(s: string)
    requires s == N3
    ensures !Contains(s, "art.")
  {
    AbsentChar(s, "art.", '.');
  }

  lemma N5Lacks0(s: string)
    requires s == N5
    ensures !Contains(s, "modelo")
  {
    AbsentChar(s, "modelo", 'm');
  }

  lemma N5Lacks1(s: string)
    requires s == N5
    ensures !Contains(s, "nfe")
  {
    AbsentChar(s, "nfe", 'f');
  }

  lemma N5Lacks2(s: string)
    requires s == N5
    ensures !Contains(s, "nota")
  {
    assert s[0] == 'p'; assert s[1] == 'r'; assert s[2] == 'a'; assert s[3] == 'z'; assert s[4] == 'o'; assert s[5] == ' ';
    assert s[6] == 'p'; assert s[7] == 'a'; assert s[8] == 'r'; assert s[9] == 'a'; assert s[10] == ' '; assert s[11] == 'e';
    assert s[12] == 'v'; assert s[13] == 'e'; assert s[14] == 'n'; assert s[15] == 't'; assert s[16] == 'o'; assert s[17] == ' ';
    assert s[18] == 'n'; assert s[19] == 'o'; assert s[20] == ' '; assert s[21] == 'c'; assert s[22] == 't'; assert s[23] == '-';
    assert s[24] == 'e';
    assert !ScanFrom(s, "nota", 24);
    assert !ScanFrom(s, "nota", 16);
    assert !ScanFrom(s, "nota", 8);
    assert !ScanFrom(s, "nota", 0);
    ScanFromIff(s, "nota", 0);
  }

  lemma N5Lacks3(s: string)
    requires s == N5
    ensures !Contains(s, "nf-e")
  {
    AbsentChar(s, "nf-e", 'f');
  }

  lemma N5Lacks4(s: string)
    requires s == N5
    ensures !Contains(s, "nfce")
  {
    AbsentChar(s, "nfce", 'f');
  }

  lemma N5Lacks5(s: string)
    requires s == N5
    ensures !Contains(s, "nf-c-e")
  {
    AbsentChar(s, "nf-c-e", 'f');
  }

  lemma N5Lacks6(s: string)
    requires s == N5
    ensures !Contains(s, "nfc")
  {
    AbsentChar(s, "nfc", 'f');
  }

  lemma N5Lacks7(s: string)
    requires s == N5
    ensures !Contains(s, "consumidor")
  {
    AbsentChar(s, "consumidor", 's');
  }


  const Q6: string := "Alíquota de ICMS em SP"

  lemma UFExampleAt(s: string)
    requires s == Q6
    ensures FirstUF(s, 20) == Some("SP")
  {
    assert s[19] == ' '; assert s[20] == 'S'; assert s[21] == 'P';
    assert s[20..22] == "SP";
    assert IsUF("SP");
    assert UFHere(s, 20);
  }

  /** The search skips a stretch whose letters after the first are not
      upper case. */
  lemma {:induction false} SkipNonUpper(s: string, a: nat, b: nat)
    requires a <= b < |s|
    requires forall k :: a < k <= b ==> !IsUpper(s[k])
    ensures FirstUF(s, a) == FirstUF(s, b)
    decreases b - a
  {
    if a < b {
      FirstUFSkips(s, a);
      SkipNonUpper(s, a + 1, b);
    }
  }

  lemma UFExampleSkip0(s: string)
    requires s == Q6
    ensures FirstUF(s, 0) == FirstUF(s, 11)
  {
    assert s[1..12] == "líquota de ";
    forall k | 0 < k <= 11 ensures !IsUpper(s[k]) {
      assert s[k] == s[1..12][k - 1];
    }
    SkipNonUpper(s, 0, 11);
  }

  lemma UFExampleSkip11(s: string)
    requires s == Q6
    ensures FirstUF(s, 11) == FirstUF(s, 13)
  {
    assert s[10] == 'e'; assert s[11] == ' '; assert s[12] == 'I'; assert s[13] == 'C'; assert s[14] == 'M';
    FirstUFSkips(s, 12);
    FirstUFSkips(s, 11);
  }

  lemma UFExampleSkip13(s: string)
    requires s == Q6
    ensures FirstUF(s, 13) == FirstUF(s, 16)
  {
    assert s[12] == 'I'; assert s[13] == 'C'; assert s[14] == 'M'; assert s[15] == 'S'; assert s[16] == ' '; assert s[17] == 'e';
    FirstUFSkips(s, 15);
    FirstUFSkips(s, 14);
    FirstUFSkips(s, 13);
  }

  lemma UFExampleSkip16(s: string)
    requires s == Q6
    ensures FirstUF(s, 16) == FirstUF(s, 20)
  {
    assert s[15] == 'S'; assert s[16] == ' '; assert s[17] == 'e'; assert s[18] == 'm'; assert s[19] == ' '; assert s[20] == 'S';
    assert s[21] == 'P';
    FirstUFSkips(s, 19);
    FirstUFSkips(s, 18);
    FirstUFSkips(s, 17);
    FirstUFSkips(s, 16);
  }

  /** "Alíquota de ICMS em SP": the corrected detector reports SP, while the
      classifier as written reports no state. */
  lemma UFExample(q: string)
    requires q == Q6
    ensures ClassifyQuestionCorrected(q).uf == Some("SP")
    ensures ClassifyQuestion(q).uf == None
  {
    assert q[0] == 'A' && q[21] == 'P';
    TrimNoop(q);
    UFExampleSkip0(q);
    UFExampleSkip11(q);
    UFExampleSkip13(q);
    UFExampleSkip16(q);
    UFExampleAt(q);
  }
}

/** The classifier cases of test_level4_fix.py:4-10, each proved by exhibiting an
    occurrence for the rule that fires and, for every earlier rule, a character, a pair
    or a triple of each of its phrases that the text lacks.

    Every absent phrase has a lemma of its own (`<Case>Lacks<n>`): each absence proof
    unfolds the string windows of one literal, and grouping many of them in one proof
    makes the solver's work grow past what a single proof may use and vary with the
    random seed. The lemmas differ only in the phrase and the witness they name. */
module TregCases {
  import opened Strings
  import opened TregVocab

  /** With no functional phrase at all, the functional score is zero. */
  lemma ScoreZero(c: string)
    requires !AnyIn(c, FunctionalCytokines) && !AnyIn(c, FunctionalMechanisms) && !AnyIn(c, FunctionalKeywords)
    ensures FunctionalScore2(c) == 0
  {
    CountInPositive(c, FunctionalCytokines);
    CountInPositive(c, FunctionalMechanisms);
    CountInPositive(c, FunctionalKeywords);
  }

  lemma ThymicLacks0(c: string)
    requires c == "thymic treg natural regulatory cells"
    ensures !Contains(c, "il-10")
  {
    NoChar(c, "il-10", 2);
  }

  lemma ThymicLacks1(c: string)
    requires c == "thymic treg natural regulatory cells"
    ensures !Contains(c, "il-35")
  {
    NoChar(c, "il-35", 2);
  }

  lemma ThymicLacks2(c: string)
    requires c == "thymic treg natural regulatory cells"
    ensures !Contains(c, "tgf-beta secret")
  {
    NoChar(c, "tgf-beta secret", 2);
  }

  lemma ThymicLacks3(c: string)
    requires c == "thymic treg natural regulatory cells"
    ensures !Contains(c, "tgf-β secret")
  {
    NoChar(c, "tgf-β secret", 2);
  }

  lemma ThymicLacks4(c: string)
    requires c == "thymic treg natural regulatory cells"
    ensures !Contains(c, "il-10 produc")
  {
    NoChar(c, "il-10 produc", 2);
  }

  lemma ThymicLacks5(c: string)
    requires c == "thymic treg natural regulatory cells"
    ensures !Contains(c, "il-10+")
  {
    NoChar(c, "il-10+", 2);
  }

  lemma ThymicLacks6(c: string)
    requires c == "thymic treg natural regulatory cells"
    ensures !Contains(c, "il-10 secret")
  {
    NoChar(c, "il-10 secret", 2);
  }

  lemma ThymicLacks7(c: string)
    requires c == "thymic treg natural regulatory cells"
    ensures !Contains(c, "suppressive function")
  {
    NoChar(c, "suppressive function", 2);
  }

  lemma ThymicLacks8(c: string)
    requires c == "thymic treg natural regulatory cells"
    ensures !Contains(c, "immunosuppression")
  {
    NoChar(c, "immunosuppression", 8);
  }

  lemma ThymicLacks9(c: string)
    requires c == "thymic treg natural regulatory cells"
    ensures !Contains(c, "immune suppression")
  {
    NoChar(c, "immune suppression", 9);
  }

  lemma ThymicLacks10(c: string)
    requires c == "thymic treg natural regulatory cells"
    ensures !Contains(c, "contact-dependent suppress")
  {
    NoChar(c, "contact-dependent suppress", 7);
  }

  lemma ThymicLacks11(c: string)
    requires c == "thymic treg natural regulatory cells"
    ensures !Contains(c, "effector suppress")
  {
    NoChar(c, "effector suppress", 1);
  }

  lemma ThymicLacks12(c: string)
    requires c == "thymic treg natural regulatory cells"
    ensures !Contains(c, "ctla-4 mediat")
  {
    NoChar(c, "ctla-4 mediat", 4);
  }

  lemma ThymicLacks13(c: string)
    requires c == "thymic treg natural regulatory cells"
    ensures !Contains(c, "lag-3 express")
  {
    NoChar(c, "lag-3 express", 3);
  }

  lemma ThymicLacks14(c: string)
    requires c == "thymic treg natural regulatory cells"
    ensures !Contains(c, "immune tolerance mechanism")
  {
    NoTriple(c, "immune tolerance mechanism", 0);
  }

  lemma ThymicLacks15(c: string)
    requires c == "thymic treg natural regulatory cells"
    ensures !Contains(c, "suppressor cell")
  {
    NoChar(c, "suppressor cell", 2);
  }

  lemma ThymicLacks16(c: string)
    requires c == "thymic treg natural regulatory cells"
    ensures !Contains(c, "suppressive capacity")
  {
    NoChar(c, "suppressive capacity", 2);
  }

  lemma ThymicLacks17(c: string)
    requires c == "thymic treg natural regulatory cells"
    ensures !Contains(c, "suppressive activity")
  {
    NoChar(c, "suppressive activity", 2);
  }

  lemma ThymicLacks18(c: string)
    requires c == "thymic treg natural regulatory cells"
    ensures !Contains(c, "regulatory function")
  {
    NoChar(c, "regulatory function", 11);
  }

  lemma ThymicLacks19(c: string)
    requires c == "thymic treg natural regulatory cells"
    ensures !Contains(c, "tolerogenic")
  {
    NoTriple(c, "tolerogenic", 0);
  }

  lemma ThymicLacks20(c: string)
    requires c == "thymic treg natural regulatory cells"
    ensures !Contains(c, "anti-inflammatory")
  {
    NoChar(c, "anti-inflammatory", 4);
  }

  lemma ThymicLacks21(c: string)
    requires c == "thymic treg natural regulatory cells"
    ensures !Contains(c, "foxp3 express")
  {
    NoChar(c, "foxp3 express", 0);
  }

  lemma ThymicLacks22(c: string)
    requires c == "thymic treg natural regulatory cells"
    ensures !Contains(c, "foxp3+")
  {
    NoChar(c, "foxp3+", 0);
  }

  lemma ThymicLacks23(c: string)
    requires c == "thymic treg natural regulatory cells"
    ensures !Contains(c, "foxp3 positive")
  {
    NoChar(c, "foxp3 positive", 0);
  }

  lemma ThymicLacks24(c: string)
    requires c == "thymic treg natural regulatory cells"
    ensures !Contains(c, "scurfin")
  {
    NoChar(c, "scurfin", 4);
  }

  lemma ThymicLacks25(c: string)
    requires c == "thymic treg natural regulatory cells"
    ensures !Contains(c, "foxp3 transcript")
  {
    NoChar(c, "foxp3 transcript", 0);
  }

  lemma ThymicLacks26(c: string)
    requires c == "thymic treg natural regulatory cells"
    ensures !Contains(c, "ipex")
  {
    NoChar(c, "ipex", 1);
  }

  lemma ThymicLacks27(c: string)
    requires c == "thymic treg natural regulatory cells"
    ensures !Contains(c, "foxp3 gene")
  {
    NoChar(c, "foxp3 gene", 0);
  }

  lemma ThymicLacks28(c: string)
    requires c == "thymic treg natural regulatory cells"
    ensures !Contains(c, "foxp3 protein")
  {
    NoChar(c, "foxp3 protein", 0);
  }

  lemma ThymicLowered(t: string, c: string)
    requires t == "thymic treg natural regulatory cells" && c == "thymic treg natural regulatory cells"
    ensures Lower(t) == c
  {
    assert NoUpper(t);
    LowerOfLower(t);
  }

  lemma ThymicOccurs0(c: string)
    requires c == "thymic treg natural regulatory cells"
    ensures AnyIn(c, NtregSpecific)
  {
    assert MatchesAt(c, NtregSpecific[0], 0);
    AnyInAt(c, NtregSpecific, 0, 0);
  }

  lemma ThymicMisses(c: string)
    requires c == "thymic treg natural regulatory cells"
    ensures !AnyIn(c, FunctionalCytokines)
    ensures !AnyIn(c, FunctionalMechanisms)
    ensures !AnyIn(c, FunctionalKeywords)
    ensures !AnyIn(c, Foxp3Specific)
  {
    ThymicLacks0(c);
    ThymicLacks1(c);
    ThymicLacks2(c);
    ThymicLacks3(c);
    ThymicLacks4(c);
    ThymicLacks5(c);
    ThymicLacks6(c);
    ThymicLacks7(c);
    ThymicLacks8(c);
    ThymicLacks9(c);
    ThymicLacks10(c);
    ThymicLacks11(c);
    ThymicLacks12(c);
    ThymicLacks13(c);
    ThymicLacks14(c);
    ThymicLacks15(c);
    ThymicLacks16(c);
    ThymicLacks17(c);
    ThymicLacks18(c);
    ThymicLacks19(c);
    ThymicLacks20(c);
    ThymicLacks21(c);
    ThymicLacks22(c);
    ThymicLacks23(c);
    ThymicLacks24(c);
    ThymicLacks25(c);
    ThymicLacks26(c);
    ThymicLacks27(c);
    ThymicLacks28(c);
  }

  /** test_level4_fix.py:5: an nTreg phrase gives 4. */
  lemma OracleThymic()
    ensures DetermineTregLevel("thymic treg natural regulatory cells") == 4
  {
    var t, c := "thymic treg natural regulatory cells", "thymic treg natural regulatory cells";
    ThymicLowered(t, c);
    ThymicOccurs0(c);
    ThymicMisses(c);
    ScoreZero(c);
    NtregBeforeItreg(t);
  }

  lemma InducedLacks0(c: string)
    requires c == "induced treg peripheral conversion tgf-beta"
    ensures !Contains(c, "il-10")
  {
    NoChar(c, "il-10", 3);
  }

  lemma InducedLacks1(c: string)
    requires c == "induced treg peripheral conversion tgf-beta"
    ensures !Contains(c, "il-35")
  {
    NoChar(c, "il-35", 3);
  }

  lemma InducedLacks2(c: string)
    requires c == "induced treg peripheral conversion tgf-beta"
    ensures !Contains(c, "tgf-beta secret")
  {
    NoTriple(c, "tgf-beta secret", 6);
  }

  lemma InducedLacks3(c: string)
    requires c == "induced treg peripheral conversion tgf-beta"
    ensures !Contains(c, "tgf-β secret")
  {
    NoChar(c, "tgf-β secret", 4);
  }

  lemma InducedLacks4(c: string)
    requires c == "induced treg peripheral conversion tgf-beta"
    ensures !Contains(c, "il-10 produc")
  {
    NoChar(c, "il-10 produc", 3);
  }

  lemma InducedLacks5(c: string)
    requires c == "induced treg peripheral conversion tgf-beta"
    ensures !Contains(c, "il-10+")
  {
    NoChar(c, "il-10+", 3);
  }

  lemma InducedLacks6(c: string)
    requires c == "induced treg peripheral conversion tgf-beta"
    ensures !Contains(c, "il-10 secret")
  {
    NoChar(c, "il-10 secret", 3);
  }

  lemma InducedLacks7(c: string)
    requires c == "induced treg peripheral conversion tgf-beta"
    ensures !Contains(c, "suppressive function")
  {
    NoTriple(c, "suppressive function", 0);
  }

  lemma InducedLacks8(c: string)
    requires c == "induced treg peripheral conversion tgf-beta"
    ensures !Contains(c, "immunosuppression")
  {
    NoChar(c, "immunosuppression", 1);
  }

  lemma InducedLacks9(c: string)
    requires c == "induced treg peripheral conversion tgf-beta"
    ensures !Contains(c, "immune suppression")
  {
    NoChar(c, "immune suppression", 1);
  }

  lemma InducedLacks10(c: string)
    requires c == "induced treg peripheral conversion tgf-beta"
    ensures !Contains(c, "contact-dependent suppress")
  {
    NoTriple(c, "contact-dependent suppress", 1);
  }

  lemma InducedLacks11(c: string)
    requires c == "induced treg peripheral conversion tgf-beta"
    ensures !Contains(c, "effector suppress")
  {
    NoTriple(c, "effector suppress", 0);
  }

  lemma InducedLacks12(c: string)
    requires c == "induced treg peripheral conversion tgf-beta"
    ensures !Contains(c, "ctla-4 mediat")
  {
    NoChar(c, "ctla-4 mediat", 5);
  }

  lemma InducedLacks13(c: string)
    requires c == "induced treg peripheral conversion tgf-beta"
    ensures !Contains(c, "lag-3 express")
  {
    NoChar(c, "lag-3 express", 4);
  }

  lemma InducedLacks14(c: string)
    requires c == "induced treg peripheral conversion tgf-beta"
    ensures !Contains(c, "immune tolerance mechanism")
  {
    NoChar(c, "immune tolerance mechanism", 1);
  }

  lemma InducedLacks15(c: string)
    requires c == "induced treg peripheral conversion tgf-beta"
    ensures !Contains(c, "suppressor cell")
  {
    NoTriple(c, "suppressor cell", 0);
  }

  lemma InducedLacks16(c: string)
    requires c == "induced treg peripheral conversion tgf-beta"
    ensures !Contains(c, "suppressive capacity")
  {
    NoChar(c, "suppressive capacity", 19);
  }

  lemma InducedLacks17(c: string)
    requires c == "induced treg peripheral conversion tgf-beta"
    ensures !Contains(c, "suppressive activity")
  {
    NoChar(c, "suppressive activity", 19);
  }

  lemma InducedLacks18(c: string)
    requires c == "induced treg peripheral conversion tgf-beta"
    ensures !Contains(c, "regulatory function")
  {
    NoChar(c, "regulatory function", 9);
  }

  lemma InducedLacks19(c: string)
    requires c == "induced treg peripheral conversion tgf-beta"
    ensures !Contains(c, "tolerogenic")
  {
    NoTriple(c, "tolerogenic", 0);
  }

  lemma InducedLacks20(c: string)
    requires c == "induced treg peripheral conversion tgf-beta"
    ensures !Contains(c, "anti-inflammatory")
  {
    NoChar(c, "anti-inflammatory", 10);
  }

  lemma InducedLacks21(c: string)
    requires c == "induced treg peripheral conversion tgf-beta"
    ensures !Contains(c, "foxp3 express")
  {
    NoChar(c, "foxp3 express", 2);
  }

  lemma InducedLacks22(c: string)
    requires c == "induced treg peripheral conversion tgf-beta"
    ensures !Contains(c, "foxp3+")
  {
    NoChar(c, "foxp3+", 2);
  }

  lemma InducedLacks23(c: string)
    requires c == "induced treg peripheral conversion tgf-beta"
    ensures !Contains(c, "foxp3 positive")
  {
    NoChar(c, "foxp3 positive", 2);
  }

  lemma InducedLacks24(c: string)
    requires c == "induced treg peripheral conversion tgf-beta"
    ensures !Contains(c, "scurfin")
  {
    NoTriple(c, "scurfin", 0);
  }

  lemma InducedLacks25(c: string)
    requires c == "induced treg peripheral conversion tgf-beta"
    ensures !Contains(c, "foxp3 transcript")
  {
    NoChar(c, "foxp3 transcript", 2);
  }

  lemma InducedLacks26(c: string)
    requires c == "induced treg peripheral conversion tgf-beta"
    ensures !Contains(c, "ipex")
  {
    NoChar(c, "ipex", 3);
  }

  lemma InducedLacks27(c: string)
    requires c == "induced treg peripheral conversion tgf-beta"
    ensures !Contains(c, "foxp3 gene")
  {
    NoChar(c, "foxp3 gene", 2);
  }

  lemma InducedLacks28(c: string)
    requires c == "induced treg peripheral conversion tgf-beta"
    ensures !Contains(c, "foxp3 protein")
  {
    NoChar(c, "foxp3 protein", 2);
  }

  lemma InducedLacks29(c: string)
    requires c == "induced treg peripheral conversion tgf-beta"
    ensures !Contains(c, "thymic treg")
  {
    NoChar(c, "thymic treg", 2);
  }

  lemma InducedLacks30(c: string)
    requires c == "induced treg peripheral conversion tgf-beta"
    ensures !Contains(c, "natural treg")
  {
    NoTriple(c, "natural treg", 0);
  }

  lemma InducedLacks31(c: string)
    requires c == "induced treg peripheral conversion tgf-beta"
    ensures !Contains(c, "ntreg")
  {
    NoTriple(c, "ntreg", 0);
  }

  lemma InducedLacks32(c: string)
    requires c == "induced treg peripheral conversion tgf-beta"
    ensures !Contains(c, "ttreg")
  {
    NoTriple(c, "ttreg", 0);
  }

  lemma InducedLacks33(c: string)
    requires c == "induced treg peripheral conversion tgf-beta"
    ensures !Contains(c, "helios+ treg")
  {
    NoChar(c, "helios+ treg", 6);
  }

  lemma InducedLacks34(c: string)
    requires c == "induced treg peripheral conversion tgf-beta"
    ensures !Contains(c, "nrp1+ treg")
  {
    NoChar(c, "nrp1+ treg", 3);
  }

  lemma InducedLacks35(c: string)
    requires c == "induced treg peripheral conversion tgf-beta"
    ensures !Contains(c, "aire medulla")
  {
    NoChar(c, "aire medulla", 5);
  }

  lemma InducedLowered(t: string, c: string)
    requires t == "induced treg peripheral conversion TGF-beta" && c == "induced treg peripheral conversion tgf-beta"
    ensures Lower(t) == c
  {
    var a, b := "induced treg peripheral conversion ", "TGF-beta";
    assert t == a + b;
    assert NoUpper(a);
    LowerOfLower(a);
    assert Lower(b) == "tgf-beta";
    LowerAppend(a, b);
  }

  lemma InducedOccurs0(c: string)
    requires c == "induced treg peripheral conversion tgf-beta"
    ensures AnyIn(c, ItregSpecific)
  {
    assert MatchesAt(c, ItregSpecific[0], 0);
    AnyInAt(c, ItregSpecific, 0, 0);
  }

  lemma InducedMisses(c: string)
    requires c == "induced treg peripheral conversion tgf-beta"
    ensures !AnyIn(c, FunctionalCytokines)
    ensures !AnyIn(c, FunctionalMechanisms)
    ensures !AnyIn(c, FunctionalKeywords)
    ensures !AnyIn(c, Foxp3Specific)
    ensures !AnyIn(c, NtregSpecific)
  {
    InducedLacks0(c);
    InducedLacks1(c);
    InducedLacks2(c);
    InducedLacks3(c);
    InducedLacks4(c);
    InducedLacks5(c);
    InducedLacks6(c);
    InducedLacks7(c);
    InducedLacks8(c);
    InducedLacks9(c);
    InducedLacks10(c);
    InducedLacks11(c);
    InducedLacks12(c);
    InducedLacks13(c);
    InducedLacks14(c);
    InducedLacks15(c);
    InducedLacks16(c);
    InducedLacks17(c);
    InducedLacks18(c);
    InducedLacks19(c);
    InducedLacks20(c);
    InducedLacks21(c);
    InducedLacks22(c);
    InducedLacks23(c);
    InducedLacks24(c);
    InducedLacks25(c);
    InducedLacks26(c);
    InducedLacks27(c);
    InducedLacks28(c);
    InducedLacks29(c);
    InducedLacks30(c);
    InducedLacks31(c);
    InducedLacks32(c);
    InducedLacks33(c);
    InducedLacks34(c);
    InducedLacks35(c);
  }

  /** test_level4_fix.py:6: an iTreg phrase gives 7, whatever the case of the letters. */
  lemma OracleInduced()
    ensures DetermineTregLevel("induced treg peripheral conversion TGF-beta") == 7
  {
    var t, c := "induced treg peripheral conversion TGF-beta", "induced treg peripheral conversion tgf-beta";
    InducedLowered(t, c);
    InducedOccurs0(c);
    InducedMisses(c);
    ScoreZero(c);
    ItregSpecificGives7(t);
  }

  lemma RegulatoryLacks0(c: string)
    requires c == "regulatory t cell suppression"
    ensures !Contains(c, "il-10")
  {
    NoChar(c, "il-10", 2);
  }

  lemma RegulatoryLacks1(c: string)
    requires c == "regulatory t cell suppression"
    ensures !Contains(c, "il-35")
  {
    NoChar(c, "il-35", 2);
  }

  lemma RegulatoryLacks2(c: string)
    requires c == "regulatory t cell suppression"
    ensures !Contains(c, "tgf-beta secret")
  {
    NoChar(c, "tgf-beta secret", 2);
  }

  lemma RegulatoryLacks3(c: string)
    requires c == "regulatory t cell suppression"
    ensures !Contains(c, "tgf-β secret")
  {
    NoChar(c, "tgf-β secret", 2);
  }

  lemma RegulatoryLacks4(c: string)
    requires c == "regulatory t cell suppression"
    ensures !Contains(c, "il-10 produc")
  {
    NoChar(c, "il-10 produc", 2);
  }

  lemma RegulatoryLacks5(c: string)
    requires c == "regulatory t cell suppression"
    ensures !Contains(c, "il-10+")
  {
    NoChar(c, "il-10+", 2);
  }

  lemma RegulatoryLacks6(c: string)
    requires c == "regulatory t cell suppression"
    ensures !Contains(c, "il-10 secret")
  {
    NoChar(c, "il-10 secret", 2);
  }

  lemma RegulatoryLacks7(c: string)
    requires c == "regulatory t cell suppression"
    ensures !Contains(c, "suppressive function")
  {
    NoChar(c, "suppressive function", 9);
  }

  lemma RegulatoryLacks8(c: string)
    requires c == "regulatory t cell suppression"
    ensures !Contains(c, "immunosuppression")
  {
    NoChar(c, "immunosuppression", 1);
  }

  lemma RegulatoryLacks9(c: string)
    requires c == "regulatory t cell suppression"
    ensures !Contains(c, "immune suppression")
  {
    NoChar(c, "immune suppression", 1);
  }

  lemma RegulatoryLacks10(c: string)
    requires c == "regulatory t cell suppression"
    ensures !Contains(c, "contact-dependent suppress")
  {
    NoChar(c, "contact-dependent suppress", 7);
  }

  lemma RegulatoryLacks11(c: string)
    requires c == "regulatory t cell suppression"
    ensures !Contains(c, "effector suppress")
  {
    NoChar(c, "effector suppress", 1);
  }

  lemma RegulatoryLacks12(c: string)
    requires c == "regulatory t cell suppression"
    ensures !Contains(c, "ctla-4 mediat")
  {
    NoChar(c, "ctla-4 mediat", 4);
  }

  lemma RegulatoryLacks13(c: string)
    requires c == "regulatory t cell suppression"
    ensures !Contains(c, "lag-3 express")
  {
    NoChar(c, "lag-3 express", 3);
  }

  lemma RegulatoryLacks14(c: string)
    requires c == "regulatory t cell suppression"
    ensures !Contains(c, "immune tolerance mechanism")
  {
    NoChar(c, "immune tolerance mechanism", 1);
  }

  lemma RegulatoryLacks15(c: string)
    requires c == "regulatory t cell suppression"
    ensures !Contains(c, "suppressor cell")
  {
    NoTriple(c, "suppressor cell", 6);
  }

  lemma RegulatoryLacks16(c: string)
    requires c == "regulatory t cell suppression"
    ensures !Contains(c, "suppressive capacity")
  {
    NoChar(c, "suppressive capacity", 9);
  }

  lemma RegulatoryLacks17(c: string)
    requires c == "regulatory t cell suppression"
    ensures !Contains(c, "suppressive activity")
  {
    NoChar(c, "suppressive activity", 9);
  }

  lemma RegulatoryLacks18(c: string)
    requires c == "regulatory t cell suppression"
    ensures !Contains(c, "regulatory function")
  {
    NoChar(c, "regulatory function", 11);
  }

  lemma RegulatoryLacks19(c: string)
    requires c == "regulatory t cell suppression"
    ensures !Contains(c, "tolerogenic")
  {
    NoTriple(c, "tolerogenic", 0);
  }

  lemma RegulatoryLacks20(c: string)
    requires c == "regulatory t cell suppression"
    ensures !Contains(c, "anti-inflammatory")
  {
    NoChar(c, "anti-inflammatory", 4);
  }

  lemma RegulatoryLacks21(c: string)
    requires c == "regulatory t cell suppression"
    ensures !Contains(c, "foxp3 express")
  {
    NoChar(c, "foxp3 express", 0);
  }

  lemma RegulatoryLacks22(c: string)
    requires c == "regulatory t cell suppression"
    ensures !Contains(c, "foxp3+")
  {
    NoChar(c, "foxp3+", 0);
  }

  lemma RegulatoryLacks23(c: string)
    requires c == "regulatory t cell suppression"
    ensures !Contains(c, "foxp3 positive")
  {
    NoChar(c, "foxp3 positive", 0);
  }

  lemma RegulatoryLacks24(c: string)
    requires c == "regulatory t cell suppression"
    ensures !Contains(c, "scurfin")
  {
    NoChar(c, "scurfin", 4);
  }

  lemma RegulatoryLacks25(c: string)
    requires c == "regulatory t cell suppression"
    ensures !Contains(c, "foxp3 transcript")
  {
    NoChar(c, "foxp3 transcript", 0);
  }

  lemma RegulatoryLacks26(c: string)
    requires c == "regulatory t cell suppression"
    ensures !Contains(c, "ipex")
  {
    NoChar(c, "ipex", 3);
  }

  lemma RegulatoryLacks27(c: string)
    requires c == "regulatory t cell suppression"
    ensures !Contains(c, "foxp3 gene")
  {
    NoChar(c, "foxp3 gene", 0);
  }

  lemma RegulatoryLacks28(c: string)
    requires c == "regulatory t cell suppression"
    ensures !Contains(c, "foxp3 protein")
  {
    NoChar(c, "foxp3 protein", 0);
  }

  lemma RegulatoryLacks29(c: string)
    requires c == "regulatory t cell suppression"
    ensures !Contains(c, "thymic treg")
  {
    NoChar(c, "thymic treg", 1);
  }

  lemma RegulatoryLacks30(c: string)
    requires c == "regulatory t cell suppression"
    ensures !Contains(c, "natural treg")
  {
    NoTriple(c, "natural treg", 0);
  }

  lemma RegulatoryLacks31(c: string)
    requires c == "regulatory t cell suppression"
    ensures !Contains(c, "ntreg")
  {
    NoTriple(c, "ntreg", 0);
  }

  lemma RegulatoryLacks32(c: string)
    requires c == "regulatory t cell suppression"
    ensures !Contains(c, "ttreg")
  {
    NoTriple(c, "ttreg", 0);
  }

  lemma RegulatoryLacks33(c: string)
    requires c == "regulatory t cell suppression"
    ensures !Contains(c, "helios+ treg")
  {
    NoChar(c, "helios+ treg", 0);
  }

  lemma RegulatoryLacks34(c: string)
    requires c == "regulatory t cell suppression"
    ensures !Contains(c, "nrp1+ treg")
  {
    NoChar(c, "nrp1+ treg", 3);
  }

  lemma RegulatoryLacks35(c: string)
    requires c == "regulatory t cell suppression"
    ensures !Contains(c, "aire medulla")
  {
    NoChar(c, "aire medulla", 5);
  }

  lemma RegulatoryLacks36(c: string)
    requires c == "regulatory t cell suppression"
    ensures !Contains(c, "induced treg")
  {
    NoChar(c, "induced treg", 2);
  }

  lemma RegulatoryLacks37(c: string)
    requires c == "regulatory t cell suppression"
    ensures !Contains(c, "itreg")
  {
    NoTriple(c, "itreg", 0);
  }

  lemma RegulatoryLacks38(c: string)
    requires c == "regulatory t cell suppression"
    ensures !Contains(c, "ptreg")
  {
    NoTriple(c, "ptreg", 0);
  }

  lemma RegulatoryLacks39(c: string)
    requires c == "regulatory t cell suppression"
    ensures !Contains(c, "peripheral treg conversion")
  {
    NoChar(c, "peripheral treg conversion", 5);
  }

  lemma RegulatoryLacks40(c: string)
    requires c == "regulatory t cell suppression"
    ensures !Contains(c, "tgf-beta induc")
  {
    NoChar(c, "tgf-beta induc", 2);
  }

  lemma RegulatoryLacks41(c: string)
    requires c == "regulatory t cell suppression"
    ensures !Contains(c, "tgf-β induc")
  {
    NoChar(c, "tgf-β induc", 2);
  }

  lemma RegulatoryLacks42(c: string)
    requires c == "regulatory t cell suppression"
    ensures !Contains(c, "retinoic acid treg")
  {
    NoChar(c, "retinoic acid treg", 12);
  }

  lemma RegulatoryLacks43(c: string)
    requires c == "regulatory t cell suppression"
    ensures !Contains(c, "gut-associated treg")
  {
    NoChar(c, "gut-associated treg", 3);
  }

  lemma RegulatoryLacks44(c: string)
    requires c == "regulatory t cell suppression"
    ensures !Contains(c, "oral tolerance treg")
  {
    NoTriple(c, "oral tolerance treg", 0);
  }

  lemma RegulatoryLacks45(c: string)
    requires c == "regulatory t cell suppression"
    ensures !Contains(c, "cd4+cd25+cd127low")
  {
    NoChar(c, "cd4+cd25+cd127low", 1);
  }

  lemma RegulatoryLacks46(c: string)
    requires c == "regulatory t cell suppression"
    ensures !Contains(c, "cd4+ cd25+ cd127low")
  {
    NoChar(c, "cd4+ cd25+ cd127low", 1);
  }

  lemma RegulatoryLacks47(c: string)
    requires c == "regulatory t cell suppression"
    ensures !Contains(c, "cd25high cd127low")
  {
    NoChar(c, "cd25high cd127low", 1);
  }

  lemma RegulatoryLacks48(c: string)
    requires c == "regulatory t cell suppression"
    ensures !Contains(c, "cd25+ cd127-")
  {
    NoChar(c, "cd25+ cd127-", 1);
  }

  lemma RegulatoryLacks49(c: string)
    requires c == "regulatory t cell suppression"
    ensures !Contains(c, "cd127low treg")
  {
    NoChar(c, "cd127low treg", 1);
  }

  lemma RegulatoryLacks50(c: string)
    requires c == "regulatory t cell suppression"
    ensures !Contains(c, "cd127- treg")
  {
    NoChar(c, "cd127- treg", 1);
  }

  lemma RegulatoryLacks51(c: string)
    requires c == "regulatory t cell suppression"
    ensures !Contains(c, "il-7rαlow treg")
  {
    NoChar(c, "il-7rαlow treg", 2);
  }

  lemma RegulatoryLacks52(c: string)
    requires c == "regulatory t cell suppression"
    ensures !Contains(c, "il-7r alpha low regulatory")
  {
    NoChar(c, "il-7r alpha low regulatory", 2);
  }

  lemma RegulatoryLacks53(c: string)
    requires c == "regulatory t cell suppression"
    ensures !Contains(c, "peripheral")
  {
    NoChar(c, "peripheral", 5);
  }

  lemma RegulatoryLacks54(c: string)
    requires c == "regulatory t cell suppression"
    ensures !Contains(c, "induced")
  {
    NoChar(c, "induced", 2);
  }

  lemma RegulatoryLacks55(c: string)
    requires c == "regulatory t cell suppression"
    ensures !Contains(c, "conversion")
  {
    NoChar(c, "conversion", 3);
  }

  lemma RegulatoryLacks56(c: string)
    requires c == "regulatory t cell suppression"
    ensures !Contains(c, "gut")
  {
    NoTriple(c, "gut", 0);
  }

  lemma RegulatoryLacks57(c: string)
    requires c == "regulatory t cell suppression"
    ensures !Contains(c, "intestin")
  {
    NoTriple(c, "intestin", 0);
  }

  lemma RegulatoryLacks58(c: string)
    requires c == "regulatory t cell suppression"
    ensures !Contains(c, "mucosal")
  {
    NoChar(c, "mucosal", 0);
  }

  lemma RegulatoryLacks59(c: string)
    requires c == "regulatory t cell suppression"
    ensures !Contains(c, "tgf")
  {
    NoChar(c, "tgf", 2);
  }

  lemma RegulatoryLacks60(c: string)
    requires c == "regulatory t cell suppression"
    ensures !Contains(c, "oral tolerance")
  {
    NoTriple(c, "oral tolerance", 0);
  }

  lemma RegulatoryLacks61(c: string)
    requires c == "regulatory t cell suppression"
    ensures !Contains(c, "thymus")
  {
    NoChar(c, "thymus", 1);
  }

  lemma RegulatoryLacks62(c: string)
    requires c == "regulatory t cell suppression"
    ensures !Contains(c, "thymic")
  {
    NoChar(c, "thymic", 1);
  }

  lemma RegulatoryLacks63(c: string)
    requires c == "regulatory t cell suppression"
    ensures !Contains(c, "natural regulatory")
  {
    NoTriple(c, "natural regulatory", 0);
  }

  lemma RegulatoryLacks64(c: string)
    requires c == "regulatory t cell suppression"
    ensures !Contains(c, "central tolerance")
  {
    NoTriple(c, "central tolerance", 0);
  }

  lemma RegulatoryLowered(t: string, c: string)
    requires t == "regulatory t cell suppression" && c == "regulatory t cell suppression"
    ensures Lower(t) == c
  {
    assert NoUpper(t);
    LowerOfLower(t);
  }

  lemma RegulatoryOccurs0(c: string)
    requires c == "regulatory t cell suppression"
    ensures AnyIn(c, TregKeywords)
  {
    assert MatchesAt(c, TregKeywords[0], 0);
    AnyInAt(c, TregKeywords, 0, 0);
  }

  lemma RegulatoryOccurs1(c: string)
    requires c == "regulatory t cell suppression"
    ensures Contains(c, "regulatory t")
  {
    assert MatchesAt(c, "regulatory t", 0);
  }

  lemma RegulatoryMisses(c: string)
    requires c == "regulatory t cell suppression"
    ensures !AnyIn(c, FunctionalCytokines)
    ensures !AnyIn(c, FunctionalMechanisms)
    ensures !AnyIn(c, FunctionalKeywords)
    ensures !AnyIn(c, Foxp3Specific)
    ensures !AnyIn(c, NtregSpecific)
    ensures !AnyIn(c, ItregSpecific)
    ensures !AnyIn(c, Cd25Cd127Specific)
    ensures !AnyIn(c, GeneralItreg)
    ensures !AnyIn(c, GeneralNtreg)
  {
    RegulatoryLacks0(c);
    RegulatoryLacks1(c);
    RegulatoryLacks2(c);
    RegulatoryLacks3(c);
    RegulatoryLacks4(c);
    RegulatoryLacks5(c);
    RegulatoryLacks6(c);
    RegulatoryLacks7(c);
    RegulatoryLacks8(c);
    RegulatoryLacks9(c);
    RegulatoryLacks10(c);
    RegulatoryLacks11(c);
    RegulatoryLacks12(c);
    RegulatoryLacks13(c);
    RegulatoryLacks14(c);
    RegulatoryLacks15(c);
    RegulatoryLacks16(c);
    RegulatoryLacks17(c);
    RegulatoryLacks18(c);
    RegulatoryLacks19(c);
    RegulatoryLacks20(c);
    RegulatoryLacks21(c);
    RegulatoryLacks22(c);
    RegulatoryLacks23(c);
    RegulatoryLacks24(c);
    RegulatoryLacks25(c);
    RegulatoryLacks26(c);
    RegulatoryLacks27(c);
    RegulatoryLacks28(c);
    RegulatoryLacks29(c);
    RegulatoryLacks30(c);
    RegulatoryLacks31(c);
    RegulatoryLacks32(c);
    RegulatoryLacks33(c);
    RegulatoryLacks34(c);
    RegulatoryLacks35(c);
    RegulatoryLacks36(c);
    RegulatoryLacks37(c);
    RegulatoryLacks38(c);
    RegulatoryLacks39(c);
    RegulatoryLacks40(c);
    RegulatoryLacks41(c);
    RegulatoryLacks42(c);
    RegulatoryLacks43(c);
    RegulatoryLacks44(c);
    RegulatoryLacks45(c);
    RegulatoryLacks46(c);
    RegulatoryLacks47(c);
    RegulatoryLacks48(c);
    RegulatoryLacks49(c);
    RegulatoryLacks50(c);
    RegulatoryLacks51(c);
    RegulatoryLacks52(c);
    RegulatoryLacks53(c);
    RegulatoryLacks54(c);
    RegulatoryLacks55(c);
    RegulatoryLacks56(c);
    RegulatoryLacks57(c);
    RegulatoryLacks58(c);
    RegulatoryLacks59(c);
    RegulatoryLacks60(c);
    RegulatoryLacks61(c);
    RegulatoryLacks62(c);
    RegulatoryLacks63(c);
    RegulatoryLacks64(c);
  }

  /** test_level4_fix.py:7 expects 0, but the Treg-context fallback gives 4. */
  lemma OracleRegulatory()
    ensures DetermineTregLevel("regulatory t cell suppression") == 4
  {
    var t, c := "regulatory t cell suppression", "regulatory t cell suppression";
    RegulatoryLowered(t, c);
    RegulatoryOccurs0(c);
    RegulatoryOccurs1(c);
    RegulatoryMisses(c);
    ScoreZero(c);
    ContextFallback(t);
  }

  lemma Foxp3Lacks0(c: string)
    requires c == "foxp3 positive regulatory"
    ensures !Contains(c, "il-10")
  {
    NoChar(c, "il-10", 2);
  }

  lemma Foxp3Lacks1(c: string)
    requires c == "foxp3 positive regulatory"
    ensures !Contains(c, "il-35")
  {
    NoChar(c, "il-35", 2);
  }

  lemma Foxp3Lacks2(c: string)
    requires c == "foxp3 positive regulatory"
    ensures !Contains(c, "tgf-beta secret")
  {
    NoChar(c, "tgf-beta secret", 3);
  }

  lemma Foxp3Lacks3(c: string)
    requires c == "foxp3 positive regulatory"
    ensures !Contains(c, "tgf-β secret")
  {
    NoChar(c, "tgf-β secret", 3);
  }

  lemma Foxp3Lacks4(c: string)
    requires c == "foxp3 positive regulatory"
    ensures !Contains(c, "il-10 produc")
  {
    NoChar(c, "il-10 produc", 2);
  }

  lemma Foxp3Lacks5(c: string)
    requires c == "foxp3 positive regulatory"
    ensures !Contains(c, "il-10+")
  {
    NoChar(c, "il-10+", 2);
  }

  lemma Foxp3Lacks6(c: string)
    requires c == "foxp3 positive regulatory"
    ensures !Contains(c, "il-10 secret")
  {
    NoChar(c, "il-10 secret", 2);
  }

  lemma Foxp3Lacks7(c: string)
    requires c == "foxp3 positive regulatory"
    ensures !Contains(c, "suppressive function")
  {
    NoChar(c, "suppressive function", 14);
  }

  lemma Foxp3Lacks8(c: string)
    requires c == "foxp3 positive regulatory"
    ensures !Contains(c, "immunosuppression")
  {
    NoChar(c, "immunosuppression", 1);
  }

  lemma Foxp3Lacks9(c: string)
    requires c == "foxp3 positive regulatory"
    ensures !Contains(c, "immune suppression")
  {
    NoChar(c, "immune suppression", 1);
  }

  lemma Foxp3Lacks10(c: string)
    requires c == "foxp3 positive regulatory"
    ensures !Contains(c, "contact-dependent suppress")
  {
    NoChar(c, "contact-dependent suppress", 0);
  }

  lemma Foxp3Lacks11(c: string)
    requires c == "foxp3 positive regulatory"
    ensures !Contains(c, "effector suppress")
  {
    NoChar(c, "effector suppress", 4);
  }

  lemma Foxp3Lacks12(c: string)
    requires c == "foxp3 positive regulatory"
    ensures !Contains(c, "ctla-4 mediat")
  {
    NoChar(c, "ctla-4 mediat", 0);
  }

  lemma Foxp3Lacks13(c: string)
    requires c == "foxp3 positive regulatory"
    ensures !Contains(c, "lag-3 express")
  {
    NoChar(c, "lag-3 express", 3);
  }

  lemma Foxp3Lacks14(c: string)
    requires c == "foxp3 positive regulatory"
    ensures !Contains(c, "immune tolerance mechanism")
  {
    NoChar(c, "immune tolerance mechanism", 1);
  }

  lemma Foxp3Lacks15(c: string)
    requires c == "foxp3 positive regulatory"
    ensures !Contains(c, "suppressor cell")
  {
    NoChar(c, "suppressor cell", 11);
  }

  lemma Foxp3Lacks16(c: string)
    requires c == "foxp3 positive regulatory"
    ensures !Contains(c, "suppressive capacity")
  {
    NoChar(c, "suppressive capacity", 12);
  }

  lemma Foxp3Lacks17(c: string)
    requires c == "foxp3 positive regulatory"
    ensures !Contains(c, "suppressive activity")
  {
    NoChar(c, "suppressive activity", 13);
  }

  lemma Foxp3Lacks18(c: string)
    requires c == "foxp3 positive regulatory"
    ensures !Contains(c, "regulatory function")
  {
    NoChar(c, "regulatory function", 13);
  }

  lemma Foxp3Lacks19(c: string)
    requires c == "foxp3 positive regulatory"
    ensures !Contains(c, "tolerogenic")
  {
    NoChar(c, "tolerogenic", 8);
  }

  lemma Foxp3Lacks20(c: string)
    requires c == "foxp3 positive regulatory"
    ensures !Contains(c, "anti-inflammatory")
  {
    NoChar(c, "anti-inflammatory", 1);
  }

  lemma Foxp3Lowered(t: string, c: string)
    requires t == "foxp3 positive regulatory" && c == "foxp3 positive regulatory"
    ensures Lower(t) == c
  {
    assert NoUpper(t);
    LowerOfLower(t);
  }

  lemma Foxp3Occurs0(c: string)
    requires c == "foxp3 positive regulatory"
    ensures AnyIn(c, Foxp3Specific)
  {
    assert MatchesAt(c, Foxp3Specific[2], 0);
    AnyInAt(c, Foxp3Specific, 2, 0);
  }

  lemma Foxp3Misses(c: string)
    requires c == "foxp3 positive regulatory"
    ensures !AnyIn(c, FunctionalCytokines)
    ensures !AnyIn(c, FunctionalMechanisms)
    ensures !AnyIn(c, FunctionalKeywords)
  {
    Foxp3Lacks0(c);
    Foxp3Lacks1(c);
    Foxp3Lacks2(c);
    Foxp3Lacks3(c);
    Foxp3Lacks4(c);
    Foxp3Lacks5(c);
    Foxp3Lacks6(c);
    Foxp3Lacks7(c);
    Foxp3Lacks8(c);
    Foxp3Lacks9(c);
    Foxp3Lacks10(c);
    Foxp3Lacks11(c);
    Foxp3Lacks12(c);
    Foxp3Lacks13(c);
    Foxp3Lacks14(c);
    Foxp3Lacks15(c);
    Foxp3Lacks16(c);
    Foxp3Lacks17(c);
    Foxp3Lacks18(c);
    Foxp3Lacks19(c);
    Foxp3Lacks20(c);
  }

  /** test_level4_fix.py:8: a Foxp3-specific phrase gives 5. */
  lemma OracleFoxp3()
    ensures DetermineTregLevel("foxp3 positive regulatory") == 5
  {
    var t, c := "foxp3 positive regulatory", "foxp3 positive regulatory";
    Foxp3Lowered(t, c);
    Foxp3Occurs0(c);
    Foxp3Misses(c);
    ScoreZero(c);
    Level5Iff(t);
  }

  lemma FunctionalLowered(t: string, c: string)
    requires t == "il-10 secreting suppressive function" && c == "il-10 secreting suppressive function"
    ensures Lower(t) == c
  {
    assert NoUpper(t);
    LowerOfLower(t);
  }

  lemma FunctionalOccurs0(c: string)
    requires c == "il-10 secreting suppressive function"
    ensures AnyIn(c, FunctionalCytokines)
  {
    assert MatchesAt(c, FunctionalCytokines[0], 0);
    AnyInAt(c, FunctionalCytokines, 0, 0);
  }

  lemma FunctionalOccurs1(c: string)
    requires c == "il-10 secreting suppressive function"
    ensures AnyIn(c, FunctionalMechanisms)
  {
    assert MatchesAt(c, FunctionalMechanisms[0], 16);
    AnyInAt(c, FunctionalMechanisms, 0, 16);
  }

  /** test_level4_fix.py:9: a cytokine together with a mechanism gives 6. */
  lemma OracleFunctional()
    ensures DetermineTregLevel("il-10 secreting suppressive function") == 6
  {
    var t, c := "il-10 secreting suppressive function", "il-10 secreting suppressive function";
    FunctionalLowered(t, c);
    FunctionalOccurs0(c);
    FunctionalOccurs1(c);
    CombinationReachesScore(t);
    Level6Iff(t);
  }
}

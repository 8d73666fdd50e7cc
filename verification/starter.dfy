/** The starter grammar, as installed and as intended. As installed, its
    rule for "?" rewrites "?" to itself, so "?" is a nonterminal, every
    question expansion recurses without end, and one sentence in three (the
    question branch of "S") never comes out. Without that rule "?" is a
    literal and every generation finishes. */
module Starter {
  import opened Text
  import opened Lexicons
  import opened Grammars
  import opened Derivations
  import opened Generator
  import opened Rendering
  import opened Sentences
  import opened Termination

  // ---------------------------------------------------------------------
  // The rules, one fact per nonterminal
  // ---------------------------------------------------------------------

  /** The grammar's rule for `k` has right-hand side `rhs`. */
  ghost predicate RuleIs(g: Grammar, k: string, rhs: seq<Alternative>) {
    Has(g, k) && g.rules[k].rhs == rhs
  }

  /** The phrase-level rules other than "Q". */
  ghost predicate PhraseRules(g: Grammar) {
    && RuleIs(g, "S", StartRhs) && RuleIs(g, "CLAUSE", ClauseRhs) && RuleIs(g, "NP", NounPhraseRhs)
    && RuleIs(g, "VP", VerbPhraseRhs) && RuleIs(g, "PP", PrepPhraseRhs) && RuleIs(g, "IMP", ImperativeRhs)
  }

  ghost predicate QuestionRule(g: Grammar) {
    RuleIs(g, "Q", QuestionRhs)
  }

  /** The preterminal rules: each rewrites to one slot. */
  ghost predicate WordRules(g: Grammar) {
    && RuleIs(g, "DET", SlotRhs("<DET>")) && RuleIs(g, "N", SlotRhs("<NOUN>"))
    && RuleIs(g, "V", SlotRhs("<VERB>")) && RuleIs(g, "ADJ", SlotRhs("<ADJ>"))
    && RuleIs(g, "P", SlotRhs("<P>")) && RuleIs(g, "AUX", SlotRhs("<AUX>"))
    && RuleIs(g, "WH", SlotRhs("<WH>"))
  }

  /** `name` has a rule whose only alternative is `name` itself. */
  ghost predicate SelfRule(g: Grammar, name: string) {
    RuleIs(g, name, [[Ref(name)]])
  }

  lemma SeedPhraseRules()
    ensures PhraseRules(SeedGrammar()) && QuestionRule(SeedGrammar())
  {
  }

  lemma SeedWordRules()
    ensures WordRules(SeedGrammar())
  {
  }

  /** The defect: "?" has a rule, and that rule is "?" itself. */
  lemma SeedQuestionMarkRule()
    ensures SelfRule(SeedGrammar(), "?")
  {
  }

  lemma IntendedRules()
    ensures PhraseRules(IntendedGrammar()) && QuestionRule(IntendedGrammar())
    ensures WordRules(IntendedGrammar())
  {
    SeedPhraseRules();
    SeedWordRules();
  }

  // ---------------------------------------------------------------------
  // Shape: no empty alternative, every symbol yields a word
  // ---------------------------------------------------------------------

  /** A right-hand side that offers an alternative, none empty, and whose
      every symbol yields a word. */
  predicate Shaped(rhs: seq<Alternative>) {
    |rhs| > 0 && AllProduce(rhs)
  }

  /** No alternative is empty and each yields words, stated alternative by
      alternative so that it is checked on the literal right-hand sides. */
  predicate AllProduce(rhs: seq<Alternative>)
    decreases |rhs|
  {
    |rhs| == 0 || (|rhs[0]| > 0 && AltProducesWords(rhs[0]) && AllProduce(rhs[1..]))
  }

  lemma {:induction false} AllProduceMeans(rhs: seq<Alternative>)
    requires AllProduce(rhs)
    ensures forall a :: a in rhs ==> |a| > 0 && AltProducesWords(a)
    decreases |rhs|
  {
    if |rhs| > 0 {
      AllProduceMeans(rhs[1..]);
      assert forall a :: a in rhs ==> a == rhs[0] || a in rhs[1..];
    }
  }

  /** Every rule of `g` filed under one of `keys` is shaped. */
  ghost predicate ShapedOn(g: Grammar, keys: set<string>) {
    forall k :: k in keys && k in g.rules ==> Shaped(g.rules[k].rhs)
  }

  lemma StartRhsShaped() ensures Shaped(StartRhs) {}
  lemma ClauseRhsShaped() ensures Shaped(ClauseRhs) {}
  lemma NounPhraseRhsShaped() ensures Shaped(NounPhraseRhs) {}
  lemma VerbPhraseRhsShaped() ensures Shaped(VerbPhraseRhs) {}
  lemma PrepPhraseRhsShaped() ensures Shaped(PrepPhraseRhs) {}
  lemma QuestionRhsShaped() ensures Shaped(QuestionRhs) {}
  lemma ImperativeRhsShaped() ensures Shaped(ImperativeRhs) {}

  lemma WordRhsShaped()
    ensures forall tag :: KnownSlot(tag) ==> Shaped(SlotRhs(tag))
    ensures Shaped([[Ref("?")]])
  {
  }

  lemma KnownSlots()
    ensures KnownSlot("<DET>") && KnownSlot("<NOUN>") && KnownSlot("<VERB>") && KnownSlot("<ADJ>")
    ensures KnownSlot("<P>") && KnownSlot("<AUX>") && KnownSlot("<WH>")
  {
  }

  lemma PhraseRulesShaped(g: Grammar)
    requires PhraseRules(g) && QuestionRule(g)
    ensures ShapedOn(g, {"S", "CLAUSE", "NP", "VP", "PP", "Q", "IMP"})
  {
    StartRhsShaped();
    ClauseRhsShaped();
    NounPhraseRhsShaped();
    VerbPhraseRhsShaped();
    PrepPhraseRhsShaped();
    QuestionRhsShaped();
    ImperativeRhsShaped();
  }

  lemma WordRulesShaped(g: Grammar)
    requires WordRules(g) && (Has(g, "?") ==> SelfRule(g, "?"))
    ensures ShapedOn(g, {"DET", "N", "V", "ADJ", "P", "AUX", "WH", "?"})
  {
    WordRhsShaped();
    KnownSlots();
  }

  /** A grammar with the starter's rules, and possibly the self-rule for
      "?", has no empty alternative and yields a word for every symbol. */
  lemma StarterShape(g: Grammar)
    requires PhraseRules(g) && QuestionRule(g) && WordRules(g)
    requires g.rules.Keys <= {"S", "CLAUSE", "NP", "VP", "PP", "Q", "IMP"} + {"DET", "N", "V", "ADJ", "P", "AUX", "WH", "?"}
    requires Has(g, "?") ==> SelfRule(g, "?")
    ensures NoEmptyAlternative(g) && ProducesWords(g)
  {
    PhraseRulesShaped(g);
    WordRulesShaped(g);
    forall k | k in g.rules
      ensures |g.rules[k].rhs| > 0 && forall a :: a in g.rules[k].rhs ==> |a| > 0 && AltProducesWords(a)
    {
      AllProduceMeans(g.rules[k].rhs);
    }
  }

  lemma SeedShape()
    ensures NoEmptyAlternative(SeedGrammar()) && ProducesWords(SeedGrammar())
  {
    SeedPhraseRules();
    SeedWordRules();
    SeedQuestionMarkRule();
    StarterShape(SeedGrammar());
  }

  lemma IntendedShape()
    ensures NoEmptyAlternative(IntendedGrammar()) && ProducesWords(IntendedGrammar())
  {
    IntendedRules();
    StarterShape(IntendedGrammar());
  }

  // ---------------------------------------------------------------------
  // Ranks
  // ---------------------------------------------------------------------

  /** Preterminals rank 0, "NP" 1, the other phrases 2, "CLAUSE" 3. */
  ghost predicate RankValues(rank: map<string, nat>) {
    && "DET" in rank && rank["DET"] == 0 && "N" in rank && rank["N"] == 0
    && "V" in rank && rank["V"] == 0 && "ADJ" in rank && rank["ADJ"] == 0
    && "P" in rank && rank["P"] == 0 && "AUX" in rank && rank["AUX"] == 0
    && "WH" in rank && rank["WH"] == 0 && "NP" in rank && rank["NP"] == 1
    && "VP" in rank && rank["VP"] == 2 && "PP" in rank && rank["PP"] == 2
    && "IMP" in rank && rank["IMP"] == 2 && "CLAUSE" in rank && rank["CLAUSE"] == 3
  }

  /** Ranks for the part of the starter grammar that does not reach "?". */
  function SeedRank(): (rank: map<string, nat>)
    ensures RankValues(rank)
    ensures rank.Keys == {"DET", "N", "V", "ADJ", "P", "AUX", "WH", "NP", "VP", "PP", "IMP", "CLAUSE"}
  {
    map["DET" := 0, "N" := 0, "V" := 0, "ADJ" := 0, "P" := 0, "AUX" := 0, "WH" := 0,
        "NP" := 1, "VP" := 2, "PP" := 2, "IMP" := 2, "CLAUSE" := 3]
  }

  /** Once "?" is a literal, "Q" ranks 2 and "S" ranks 4. */
  function IntendedRank(): (rank: map<string, nat>)
    ensures RankValues(rank) && "Q" in rank && rank["Q"] == 2 && "S" in rank && rank["S"] == 4
    ensures rank.Keys == SeedRank().Keys + {"Q", "S"}
  {
    SeedRank()["Q" := 2]["S" := 4]
  }

  lemma RankedWords(g: Grammar, rank: map<string, nat>)
    requires WordRules(g) && RankValues(rank)
    ensures RankedAt(g, rank, "DET") && RankedAt(g, rank, "N") && RankedAt(g, rank, "V")
    ensures RankedAt(g, rank, "ADJ") && RankedAt(g, rank, "P") && RankedAt(g, rank, "AUX")
    ensures RankedAt(g, rank, "WH")
  {
  }

  lemma RankedNP(g: Grammar, rank: map<string, nat>)
    requires PhraseRules(g) && WordRules(g) && RankValues(rank)
    ensures RankedAt(g, rank, "NP")
  {
  }

  lemma RankedVP(g: Grammar, rank: map<string, nat>)
    requires PhraseRules(g) && WordRules(g) && RankValues(rank)
    ensures RankedAt(g, rank, "VP")
  {
  }

  lemma RankedPPAndIMP(g: Grammar, rank: map<string, nat>)
    requires PhraseRules(g) && WordRules(g) && RankValues(rank)
    ensures RankedAt(g, rank, "PP") && RankedAt(g, rank, "IMP")
  {
  }

  lemma RankedClause(g: Grammar, rank: map<string, nat>)
    requires PhraseRules(g) && RankValues(rank)
    ensures RankedAt(g, rank, "CLAUSE")
  {
  }

  lemma RankedQuestion(g: Grammar, rank: map<string, nat>)
    requires QuestionRule(g) && PhraseRules(g) && WordRules(g) && !Has(g, "?")
    requires RankValues(rank) && "Q" in rank && rank["Q"] == 2
    ensures RankedAt(g, rank, "Q")
  {
  }

  lemma RankedStart(g: Grammar, rank: map<string, nat>)
    requires PhraseRules(g) && RankValues(rank)
    requires "Q" in rank && rank["Q"] == 2 && "S" in rank && rank["S"] == 4
    ensures RankedAt(g, rank, "S")
  {
  }

  lemma SeedRanked()
    ensures Ranked(SeedGrammar(), SeedRank())
  {
    var g, rank := SeedGrammar(), SeedRank();
    SeedPhraseRules();
    SeedWordRules();
    RankedWords(g, rank);
    RankedNP(g, rank);
    RankedVP(g, rank);
    RankedPPAndIMP(g, rank);
    RankedClause(g, rank);
  }

  lemma IntendedRanked()
    ensures Ranked(IntendedGrammar(), IntendedRank())
  {
    var g, rank := IntendedGrammar(), IntendedRank();
    IntendedRules();
    RankedWords(g, rank);
    RankedNP(g, rank);
    RankedVP(g, rank);
    RankedPPAndIMP(g, rank);
    RankedClause(g, rank);
    RankedQuestion(g, rank);
    RankedStart(g, rank);
  }

  // ---------------------------------------------------------------------
  // As installed: questions never finish
  // ---------------------------------------------------------------------

  /** Expanding a self-rule fails for every amount of fuel. */
  lemma {:induction false} SelfRuleDiverges(g: Grammar, lex: Lexicon, name: string, oracle: Oracle, pos: nat, fuel: nat)
    requires Valid(lex) && SelfRule(g, name)
    ensures ExpandName(g, lex, name, oracle, pos, fuel) == Err(OutOfFuel)
    decreases fuel
  {
    if fuel > 0 {
      SelfRuleDiverges(g, lex, name, oracle, pos + 1, fuel - 1);
      assert ExpandSymbol(g, lex, Ref(name), oracle, pos + 1, fuel - 1) == Err(OutOfFuel);
    }
  }

  /** In a grammar without empty rules, any alternative that mentions a
      self-rule fails. */
  lemma {:induction false} SeqWithSelfRuleDiverges(g: Grammar, lex: Lexicon, name: string, syms: seq<Symbol>, oracle: Oracle, pos: nat, fuel: nat)
    requires Valid(lex) && SelfRule(g, name) && NoEmptyAlternative(g)
    requires Ref(name) in syms
    ensures ExpandSeq(g, lex, syms, oracle, pos, fuel) == Err(OutOfFuel)
    decreases |syms|
  {
    var head := ExpandSymbol(g, lex, syms[0], oracle, pos, fuel);
    if syms[0] == Ref(name) {
      SelfRuleDiverges(g, lex, name, oracle, pos, fuel);
    } else if head.Ok? {
      assert Ref(name) in syms[1..];
      SeqWithSelfRuleDiverges(g, lex, name, syms[1..], oracle, head.value.next, fuel);
    }
  }

  /** Rule `k` has an alternative, and every alternative ends with `Ref(last)`. */
  ghost predicate EveryAltEndsWith(g: Grammar, k: string, last: string) {
    && Has(g, k)
    && |g.rules[k].rhs| > 0
    && forall i :: 0 <= i < |g.rules[k].rhs| ==>
         var a := g.rules[k].rhs[i]; |a| > 0 && a[|a| - 1] == Ref(last)
  }

  lemma QuestionAltsEndWithQuestionMark(g: Grammar)
    requires QuestionRule(g)
    ensures EveryAltEndsWith(g, "Q", "?")
  {
    forall i | 0 <= i < |QuestionRhs|
      ensures |QuestionRhs[i]| > 0 && QuestionRhs[i][|QuestionRhs[i]| - 1] == Ref("?")
    {
      QuestionRhsEndsInQuestionMark(i);
    }
  }

  /** The alternative the draw picks for `name` mentions `last`. */
  lemma DrawnAltEndsWith(g: Grammar, name: string, last: string, oracle: Oracle, pos: nat)
    requires EveryAltEndsWith(g, name, last)
    ensures var rhs := g.rules[name].rhs;
            Ref(last) in rhs[Draw(oracle, pos, |rhs|)]
  {
    var rhs := g.rules[name].rhs;
    var alt := rhs[Draw(oracle, pos, |rhs|)];
    assert alt[|alt| - 1] == Ref(last);
  }

  /** A nonterminal fails for lack of fuel when the alternative its draw
      picks does. */
  lemma DrawnAltDiverges(g: Grammar, lex: Lexicon, name: string, oracle: Oracle, pos: nat, fuel: nat)
    requires Valid(lex) && Has(g, name) && fuel > 0 && |g.rules[name].rhs| > 0
    requires var rhs := g.rules[name].rhs;
             ExpandSeq(g, lex, rhs[Draw(oracle, pos, |rhs|)], oracle, pos + 1, fuel - 1) == Err(OutOfFuel)
    ensures ExpandName(g, lex, name, oracle, pos, fuel) == Err(OutOfFuel)
  {
    ExpandNameStep(g, lex, name, oracle, pos, fuel);
  }

  /** With a self-rule for `mark`, a nonterminal all of whose alternatives
      end with `mark` fails, whatever the choices and however much fuel is
      given. */
  lemma EndingInSelfRuleDiverges(g: Grammar, lex: Lexicon, name: string, mark: string, oracle: Oracle, pos: nat, fuel: nat)
    requires Valid(lex) && EveryAltEndsWith(g, name, mark) && SelfRule(g, mark) && NoEmptyAlternative(g)
    ensures ExpandName(g, lex, name, oracle, pos, fuel) == Err(OutOfFuel)
  {
    if fuel > 0 {
      var rhs := g.rules[name].rhs;
      DrawnAltEndsWith(g, name, mark, oracle, pos);
      SeqWithSelfRuleDiverges(g, lex, mark, rhs[Draw(oracle, pos, |rhs|)], oracle, pos + 1, fuel - 1);
      DrawnAltDiverges(g, lex, name, oracle, pos, fuel);
    }
  }

  /** In the starter grammar "?" never expands and no question comes out. */
  lemma SeedQuestionDiverges(lex: Lexicon, oracle: Oracle, pos: nat, fuel: nat)
    requires Valid(lex)
    ensures ExpandName(SeedGrammar(), lex, "?", oracle, pos, fuel) == Err(OutOfFuel)
    ensures ExpandName(SeedGrammar(), lex, "Q", oracle, pos, fuel) == Err(OutOfFuel)
  {
    SeedPhraseRules();
    SeedQuestionMarkRule();
    SeedShape();
    QuestionAltsEndWithQuestionMark(SeedGrammar());
    SelfRuleDiverges(SeedGrammar(), lex, "?", oracle, pos, fuel);
    EndingInSelfRuleDiverges(SeedGrammar(), lex, "Q", "?", oracle, pos, fuel);
  }

  /** The start rule's alternatives are the three one-symbol branches. */
  lemma StartRhsBranch(i: nat)
    requires i < 3
    ensures |StartRhs| == 3 && StartRhs[i] == [Ref(["CLAUSE", "Q", "IMP"][i])]
  {
  }

  /** Both question alternatives end with "?". */
  lemma QuestionRhsEndsInQuestionMark(i: nat)
    requires i < |QuestionRhs|
    ensures var a := QuestionRhs[i]; |a| > 0 && a[|a| - 1] == Ref("?") && Ref("?") in a
  {
  }

  /** A start expansion in a grammar with the starter's "S" rule: the first
      draw picks "CLAUSE", "Q" or "IMP" and the outcome is that of the one
      branch expansion. */
  lemma StartBranch(g: Grammar, lex: Lexicon, oracle: Oracle, fuel: nat)
    requires Valid(lex) && RuleIs(g, "S", StartRhs) && fuel > 0
    ensures var branch := ["CLAUSE", "Q", "IMP"][Draw(oracle, 0, 3)];
            var r := ExpandName(g, lex, "S", oracle, 0, fuel);
            var b := ExpandName(g, lex, branch, oracle, 1, fuel - 1);
            && (b.Err? ==> r == Err(b.error))
            && (b.Ok? ==> r.Ok? && r.value.tokens == b.value.tokens)
  {
    StartRhsBranch(Draw(oracle, 0, 3));
    var alt := g.rules["S"].rhs[Draw(oracle, 0, 3)];
    var branch := ["CLAUSE", "Q", "IMP"][Draw(oracle, 0, 3)];
    assert alt == [Ref(branch)];
    var b := ExpandSymbol(g, lex, Ref(branch), oracle, 1, fuel - 1);
    assert ExpandSeq(g, lex, alt[1..], oracle, if b.Ok? then b.value.next else 1, fuel - 1).Ok?;
  }

  /** The draw at `pos` picks, for `name`, the alternative made of the
      single name `b`. */
  ghost predicate Picks(g: Grammar, name: string, oracle: Oracle, pos: nat, b: string) {
    && Has(g, name)
    && |g.rules[name].rhs| > 0
    && g.rules[name].rhs[Draw(oracle, pos, |g.rules[name].rhs|)] == [Ref(b)]
  }

  /** A nonterminal whose draw picks the single name `b` fails or succeeds
      as `b` does one draw later, with the same tokens. */
  lemma UnitStep(g: Grammar, lex: Lexicon, name: string, b: string, oracle: Oracle, pos: nat, fuel: nat)
    requires Valid(lex) && Picks(g, name, oracle, pos, b) && fuel > 0
    ensures var r := ExpandName(g, lex, name, oracle, pos, fuel);
            var x := ExpandName(g, lex, b, oracle, pos + 1, fuel - 1);
            && (x.Err? ==> r == Err(x.error))
            && (x.Ok? ==> r.Ok? && r.value.tokens == x.value.tokens)
  {
    var alt := [Ref(b)];
    ExpandNameStep(g, lex, name, oracle, pos, fuel);
    var x := ExpandSymbol(g, lex, alt[0], oracle, pos + 1, fuel - 1);
    assert alt[1..] == [];
    assert ExpandSeq(g, lex, alt[1..], oracle, if x.Ok? then x.value.next else pos + 1, fuel - 1).Ok?;
  }

  /** A first draw of 1 makes the start rule pick the question branch. */
  lemma StartPicksQuestion(g: Grammar, oracle: Oracle)
    requires RuleIs(g, "S", StartRhs) && Draw(oracle, 0, 3) == 1
    ensures Picks(g, "S", oracle, 0, "Q")
  {
    StartRhsBranch(1);
  }

  /** A draw that picks a name whose alternatives all end with a self-rule
      name makes the expansion fail. */
  lemma PickedSelfEndingDiverges(g: Grammar, lex: Lexicon, name: string, b: string, mark: string, oracle: Oracle, pos: nat, fuel: nat)
    requires Valid(lex) && Picks(g, name, oracle, pos, b) && EveryAltEndsWith(g, b, mark)
    requires SelfRule(g, mark) && NoEmptyAlternative(g)
    ensures ExpandName(g, lex, name, oracle, pos, fuel) == Err(OutOfFuel)
  {
    if fuel > 0 {
      UnitStep(g, lex, name, b, oracle, pos, fuel);
      EndingInSelfRuleDiverges(g, lex, b, mark, oracle, pos + 1, fuel - 1);
    }
  }

  /** A draw that picks a name whose alternatives all end with the literal
      `lit` yields tokens ending with `lit`. */
  lemma PickedLiteralEndingEnds(g: Grammar, lex: Lexicon, name: string, b: string, lit: string, oracle: Oracle, pos: nat, fuel: nat)
    requires Valid(lex) && Picks(g, name, oracle, pos, b) && EveryAltEndsWith(g, b, lit) && !Has(g, lit)
    requires ExpandName(g, lex, name, oracle, pos, fuel).Ok?
    ensures var ts := ExpandName(g, lex, name, oracle, pos, fuel).value.tokens;
            |ts| > 0 && ts[|ts| - 1] == lit
  {
    UnitStep(g, lex, name, b, oracle, pos, fuel);
    EndingInLiteralEnds(g, lex, b, lit, oracle, pos + 1, fuel - 1);
  }

  /** With the self-rule for "?", a start expansion whose first draw picks
      the question branch fails, for any fuel. */
  lemma QuestionBranchDiverges(g: Grammar, lex: Lexicon, oracle: Oracle, fuel: nat)
    requires Valid(lex) && RuleIs(g, "S", StartRhs) && EveryAltEndsWith(g, "Q", "?")
    requires SelfRule(g, "?") && NoEmptyAlternative(g)
    requires Draw(oracle, 0, 3) == 1
    ensures ExpandName(g, lex, "S", oracle, 0, fuel) == Err(OutOfFuel)
  {
    StartPicksQuestion(g, oracle);
    PickedSelfEndingDiverges(g, lex, "S", "Q", "?", oracle, 0, fuel);
  }

  /** A start expansion whose first draw picks the declarative or the
      imperative branch finishes once the fuel reaches 5. */
  lemma OtherBranchesFinish(g: Grammar, rank: map<string, nat>, lex: Lexicon, oracle: Oracle, fuel: nat)
    requires Valid(lex) && RuleIs(g, "S", StartRhs) && Ranked(g, rank) && RankValues(rank)
    requires Draw(oracle, 0, 3) != 1 && fuel >= 5
    ensures ExpandName(g, lex, "S", oracle, 0, fuel).Ok?
  {
    StartBranch(g, lex, oracle, fuel);
    var branch := ["CLAUSE", "Q", "IMP"][Draw(oracle, 0, 3)];
    assert branch == "CLAUSE" || branch == "IMP";
    ExpandNameTerminates(g, lex, rank, branch, oracle, 1, fuel - 1);
  }

  /** The starter grammar as installed: one sentence in three, the question
      branch, never comes out, for any fuel; the other two always do once
      the fuel reaches 5 (given a lexicon without the empty word). */
  lemma SeedGenerationByFirstChoice(lex: Lexicon, oracle: Oracle, fuel: nat, squash: real -> real)
    requires Valid(lex)
    ensures Draw(oracle, 0, 3) == 1 ==> Generate(SeedGrammar(), lex, oracle, fuel, squash) == Err(OutOfFuel)
    ensures Draw(oracle, 0, 3) != 1 && fuel >= 5 && "" !in lex.entries ==>
              Generate(SeedGrammar(), lex, oracle, fuel, squash).Ok?
  {
    var g := SeedGrammar();
    SeedPhraseRules();
    SeedQuestionMarkRule();
    SeedShape();
    if Draw(oracle, 0, 3) == 1 {
      QuestionAltsEndWithQuestionMark(g);
      QuestionBranchDiverges(g, lex, oracle, fuel);
    } else if fuel >= 5 && "" !in lex.entries {
      SeedRanked();
      OtherBranchesFinish(g, SeedRank(), lex, oracle, fuel);
      StartRendersText(g, lex, oracle, fuel, squash);
    }
  }

  /** A start expansion that succeeds in a grammar of the starter's shape
      renders to text. */
  lemma StartRendersText(g: Grammar, lex: Lexicon, oracle: Oracle, fuel: nat, squash: real -> real)
    requires Valid(lex) && "" !in lex.entries && g.start == "S"
    requires NoEmptyAlternative(g) && ProducesWords(g)
    requires ExpandName(g, lex, "S", oracle, 0, fuel).Ok?
    ensures Generate(g, lex, oracle, fuel, squash).Ok?
  {
    var x := ExpandName(g, lex, "S", oracle, 0, fuel).value;
    ExpandNameWords(g, lex, "S", oracle, 0, fuel);
    var tokens := FixArticles(x.tokens);
    assert tokens[0] != "";
  }

  // ---------------------------------------------------------------------
  // As intended: every generation finishes
  // ---------------------------------------------------------------------

  /** Without the "?" rule every generation finishes with fuel 5, whatever
      the choices: the sentence comes out, closes with ".", "?" or "!", does
      not start with a lower-case letter, and its tree, printed, opens with
      "S". The lexicon must not hold the empty word, which would let a
      one-word imperative render to empty text. */
  lemma IntendedGenerationSucceeds(lex: Lexicon, oracle: Oracle, fuel: nat, squash: real -> real)
    requires Valid(lex) && "" !in lex.entries && fuel >= 5
    ensures var r := Generate(IntendedGrammar(), lex, oracle, fuel, squash);
            && r.Ok?
            && EndsInTerminal(r.value.text)
            && !IsAsciiLower(r.value.text[0])
            && r.value.tree.symbol == "S"
            && "S" <= Pretty(r.value.tree, 0)
  {
    var g := IntendedGrammar();
    IntendedRanked();
    IntendedShape();
    ExpandNameTerminates(g, lex, IntendedRank(), "S", oracle, 0, fuel);
    StartRendersText(g, lex, oracle, fuel, squash);
    PrettyStartsWithRoot(Generate(g, lex, oracle, fuel, squash).value.tree);
  }

  /** When "?" is a literal, a start expansion whose first draw picks the
      question branch ends with the token "?". */
  lemma QuestionBranchEndsInQuestionMark(g: Grammar, lex: Lexicon, oracle: Oracle, fuel: nat)
    requires Valid(lex) && fuel > 0
    requires RuleIs(g, "S", StartRhs) && EveryAltEndsWith(g, "Q", "?") && !Has(g, "?")
    requires Draw(oracle, 0, 3) == 1
    requires ExpandName(g, lex, "S", oracle, 0, fuel).Ok?
    ensures var ts := ExpandName(g, lex, "S", oracle, 0, fuel).value.tokens;
            |ts| > 0 && ts[|ts| - 1] == "?"
  {
    StartPicksQuestion(g, oracle);
    PickedLiteralEndingEnds(g, lex, "S", "Q", "?", oracle, 0, fuel);
  }

  /** A token list ending in "?" renders to text ending in "?". */
  lemma QuestionMarkTokenEndsText(tokens: seq<string>)
    requires |tokens| > 0 && tokens[|tokens| - 1] == "?"
    ensures var r := Linearize(FixArticles(tokens));
            r.Some? ==> |r.value| > 0 && r.value[|r.value| - 1] == '?'
  {
    var fixed := FixArticles(tokens);
    JoinLast(fixed);
  }

  /** Questions now come out, and their text ends in "?". */
  lemma IntendedQuestionEndsInQuestionMark(lex: Lexicon, oracle: Oracle, fuel: nat, squash: real -> real)
    requires Valid(lex) && "" !in lex.entries && fuel >= 5
    requires Draw(oracle, 0, 3) == 1
    ensures var r := Generate(IntendedGrammar(), lex, oracle, fuel, squash);
            r.Ok? && |r.value.text| > 0 && r.value.text[|r.value.text| - 1] == '?'
  {
    var g := IntendedGrammar();
    IntendedRules();
    QuestionAltsEndWithQuestionMark(g);
    IntendedGenerationSucceeds(lex, oracle, fuel, squash);
    QuestionTextEndsInQuestionMark(g, lex, oracle, fuel, squash);
  }

  /** When "?" is a literal, a generated question's text ends in "?". */
  lemma QuestionTextEndsInQuestionMark(g: Grammar, lex: Lexicon, oracle: Oracle, fuel: nat, squash: real -> real)
    requires Valid(lex) && fuel > 0 && g.start == "S"
    requires RuleIs(g, "S", StartRhs) && EveryAltEndsWith(g, "Q", "?") && !Has(g, "?")
    requires Draw(oracle, 0, 3) == 1
    requires Generate(g, lex, oracle, fuel, squash).Ok?
    ensures var r := Generate(g, lex, oracle, fuel, squash);
            |r.value.text| > 0 && r.value.text[|r.value.text| - 1] == '?'
  {
    var x := ExpandName(g, lex, "S", oracle, 0, fuel).value;
    var r := Generate(g, lex, oracle, fuel, squash);
    assert r.value.tree == x.tree;
    QuestionBranchEndsInQuestionMark(g, lex, oracle, fuel);
    QuestionMarkTokenEndsText(x.tokens);
  }

  /** When `lit` is a literal, a nonterminal all of whose alternatives end
      with `lit` expands to tokens ending with `lit`. */
  lemma EndingInLiteralEnds(g: Grammar, lex: Lexicon, name: string, lit: string, oracle: Oracle, pos: nat, fuel: nat)
    requires Valid(lex) && EveryAltEndsWith(g, name, lit) && !Has(g, lit)
    requires ExpandName(g, lex, name, oracle, pos, fuel).Ok?
    ensures var ts := ExpandName(g, lex, name, oracle, pos, fuel).value.tokens;
            |ts| > 0 && ts[|ts| - 1] == lit
  {
    var rhs := g.rules[name].rhs;
    var alt := rhs[Draw(oracle, pos, |rhs|)];
    ExpandNameStep(g, lex, name, oracle, pos, fuel);
    SeqEndingInLiteral(g, lex, alt, lit, oracle, pos + 1, fuel - 1);
  }

  /** Well-formedness ties each leaf to the kind of symbol it stands for.
      In a grammar where "?" is a literal and "N" is the one-slot rule of the
      starter grammar, a "?" leaf showing anything but "?" is not well
      formed, nor is an "N" node whose "<NOUN>" leaf shows its own tag,
      which no lexicon can list. */
  lemma MislabelledLeavesRejected(g: Grammar, lex: Lexicon)
    requires Valid(lex) && !Has(g, "?")
    requires Has(g, "N") && g.rules["N"].rhs == [[Slot("<NOUN>")]]
    ensures !WellFormed(g, lex, DerivationNode("?", [], Some("")))
    ensures !WellFormed(g, lex, DerivationNode("N", [DerivationNode("<NOUN>", [], Some("<NOUN>"))], None))
  {
    assert !IsLowered("<NOUN>") by {
      assert IsAsciiUpper("<NOUN>"[1]);
    }
    assert "<NOUN>" !in WordsForPos(lex, "NOUN");
    assert !SlotWord(lex, "<NOUN>", "<NOUN>");
    var n := DerivationNode("N", [DerivationNode("<NOUN>", [], Some("<NOUN>"))], None);
    forall a | a in g.rules["N"].rhs
      ensures !ChildrenFit(g, lex, n, a)
    {
      assert a == [Slot("<NOUN>")];
      assert !Fits(g, lex, a[0], n.children[0]);
    }
  }
}

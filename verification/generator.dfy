/** Derivation: expanding a grammar symbol into a derivation tree and a flat
    token list. Every `random.choice` of the source reads the next index from
    a caller-supplied oracle instead, and expansion carries fuel: one unit
    per level of nested nonterminal expansion, a bound on depth as Python's
    recursion limit is, so that a grammar that recurses forever is
    answered with `OutOfFuel` (the source would exhaust Python's recursion
    limit) instead of not being a function at all. */
module Generator {
  import opened Text
  import opened Lexicons
  import opened Grammars
  import opened Derivations

  datatype GenError =
    | OutOfFuel              // unbounded recursion in the grammar
    | EmptyRule(lhs: string) // `random.choice` on a rule with no alternatives
    | EmptyText              // rendering a sentence whose text is empty

  datatype Result<+T> = Ok(value: T) | Err(error: GenError)

  /** The choice indices, one per draw, in draw order. */
  type Oracle = seq<nat>

  /** The index of one uniform draw among `n` items: the oracle entry at
      `pos` reduced modulo `n`; an oracle read past its end gives 0. */
  function Draw(oracle: Oracle, pos: nat, n: nat): (i: nat)
    requires n > 0
    ensures i < n
    ensures pos < |oracle| && oracle[pos] < n ==> i == oracle[pos]
  {
    var x := if pos < |oracle| then oracle[pos] else 0;
    ModBounds(x, n);
    x % n
  }

  lemma ModBounds(x: nat, n: nat)
    requires n > 0
    ensures x % n < n
    ensures x < n ==> x % n == x
  {
  }

  /** The closed-class word lists of the function-word slots. */
  const FunctionalWords: map<string, seq<string>> :=
    map[
      "<P>" := ["with", "without", "near", "against"],
      "<AUX>" := ["does", "did", "will"],
      "<WH>" := ["why", "how", "what", "who"]
    ]

  /** Python's `words or [default]`. */
  function OrDefault(words: seq<string>, default: string): (r: seq<string>)
    ensures |r| > 0
  {
    if |words| == 0 then [default] else words
  }

  /** The list a slot draws its word from, `None` for a slot the generator
      does not know. */
  function Candidates(lex: Lexicon, slot: string): (r: Option<seq<string>>)
    requires Valid(lex)
    ensures r.Some? ==> |r.value| > 0
  {
    if slot in FunctionalWords then Some(FunctionalWords[slot])
    else if slot == "<DET>" then Some(["the", "a", "an"])
    else if slot == "<NOUN>" then Some(OrDefault(WordsForPos(lex, "NOUN"), "cat"))
    else if slot == "<VERB>" then Some(OrDefault(WordsForPos(lex, "VERB"), "see"))
    else if slot == "<ADJ>" then Some(OrDefault(WordsForPos(lex, "ADJ"), "happy"))
    else None
  }

  predicate KnownSlot(slot: string) {
    slot in {"<P>", "<AUX>", "<WH>", "<DET>", "<NOUN>", "<VERB>", "<ADJ>"}
  }

  /** A word a slot may resolve to: one of its candidates, or "" for an
      unknown slot. */
  ghost predicate SlotWord(lex: Lexicon, slot: string, word: string)
    requires Valid(lex)
  {
    match Candidates(lex, slot)
    case Some(ws) => word in ws
    case None => word == ""
  }

  /** A resolved slot: the word and the oracle position after the draw. */
  datatype Pick = Pick(word: string, next: nat)

  function ChooseForPos(lex: Lexicon, slot: string, oracle: Oracle, pos: nat): (r: Pick)
    requires Valid(lex)
    ensures KnownSlot(slot) ==> r.next == pos + 1
    ensures !KnownSlot(slot) ==> r == Pick("", pos)
    ensures SlotWord(lex, slot, r.word)
    ensures KnownSlot(slot) && "" !in lex.entries ==> r.word != ""
  {
    match Candidates(lex, slot)
    case Some(ws) => Pick(ws[Draw(oracle, pos, |ws|)], pos + 1)
    case None => Pick("", pos)
  }

  /** The words each known slot draws from: the closed lists for the
      function-word slots, and for the content slots a lexicon word of that
      part of speech, or the fallback word when the lexicon has none. */
  lemma ChooseForPosWords(lex: Lexicon, slot: string, oracle: Oracle, pos: nat)
    requires Valid(lex)
    ensures var r := ChooseForPos(lex, slot, oracle, pos);
            && (slot == "<P>" ==> r.word in ["with", "without", "near", "against"])
            && (slot == "<AUX>" ==> r.word in ["does", "did", "will"])
            && (slot == "<WH>" ==> r.word in ["why", "how", "what", "who"])
            && (slot == "<DET>" ==> r.word in ["the", "a", "an"])
            && (slot == "<NOUN>" ==>
                 (r.word in lex.entries && lex.entries[r.word].pos == "NOUN")
                 || (WordsForPos(lex, "NOUN") == [] && r.word == "cat"))
            && (slot == "<VERB>" ==>
                 (r.word in lex.entries && lex.entries[r.word].pos == "VERB")
                 || (WordsForPos(lex, "VERB") == [] && r.word == "see"))
            && (slot == "<ADJ>" ==>
                 (r.word in lex.entries && lex.entries[r.word].pos == "ADJ")
                 || (WordsForPos(lex, "ADJ") == [] && r.word == "happy"))
  {
    assert Upper("NOUN") == "NOUN" && Upper("VERB") == "VERB" && Upper("ADJ") == "ADJ";
  }

  /** Every candidate of a slot is reachable: the draw picks the word at the
      index the oracle supplies. */
  lemma ChooseReachesEveryCandidate(lex: Lexicon, slot: string, prefix: Oracle, i: nat)
    requires Valid(lex)
    requires Candidates(lex, slot).Some? && i < |Candidates(lex, slot).value|
    ensures ChooseForPos(lex, slot, prefix + [i], |prefix|)
            == Pick(Candidates(lex, slot).value[i], |prefix| + 1)
  {
  }

  /** A node built for symbol `s` of an alternative carries the symbol's
      name and is of the kind the symbol asks for: a slot gives a leaf
      showing one of the slot's words, a literal (a name without a rule) a
      leaf showing itself, and a nonterminal an inner node. */
  ghost predicate Fits(g: Grammar, lex: Lexicon, s: Symbol, c: DerivationNode)
    requires Valid(lex)
  {
    && c.symbol == SymbolName(s)
    && match s
       case Slot(tag) => c.children == [] && c.token.Some? && SlotWord(lex, tag, c.token.value)
       case Ref(name) => if Has(g, name) then c.token.None? else c.children == [] && c.token == Some(name)
  }

  /** The children of `n` fit the symbols of `alt`, one by one and in order. */
  ghost predicate ChildrenFit(g: Grammar, lex: Lexicon, n: DerivationNode, alt: Alternative)
    requires Valid(lex)
  {
    |alt| == |n.children| && forall i :: 0 <= i < |alt| ==> Fits(g, lex, alt[i], n.children[i])
  }

  /** Every inner node is a nonterminal whose children fit one of its rule's
      alternatives, and leaves have no children. */
  ghost predicate Derived(g: Grammar, lex: Lexicon, n: DerivationNode)
    requires Valid(lex)
    decreases n
  {
    if n.token.Some? then n.children == []
    else
      && Has(g, n.symbol)
      && (exists a :: a in g.rules[n.symbol].rhs && ChildrenFit(g, lex, n, a))
      && forall i :: 0 <= i < |n.children| ==> Derived(g, lex, n.children[i])
  }

  /** The shape of every tree expanding a name builds: a derivation whose
      root fits the name it was built for. */
  ghost predicate WellFormed(g: Grammar, lex: Lexicon, n: DerivationNode)
    requires Valid(lex)
  {
    Derived(g, lex, n) && Fits(g, lex, Ref(n.symbol), n)
  }

  /** Every rule offers at least one alternative, and none is empty. */
  ghost predicate NoEmptyAlternative(g: Grammar) {
    forall k :: k in g.rules ==>
      |g.rules[k].rhs| > 0 && forall a :: a in g.rules[k].rhs ==> |a| > 0
  }

  /** A symbol that always yields non-empty tokens, given a lexicon without
      the empty word: a non-empty name, or a slot the generator knows. */
  predicate SymbolProducesWord(s: Symbol) {
    match s
    case Ref(name) => name != ""
    case Slot(tag) => KnownSlot(tag)
  }

  predicate AltProducesWords(alt: Alternative) {
    forall s :: s in alt ==> SymbolProducesWord(s)
  }

  ghost predicate ProducesWords(g: Grammar) {
    forall k :: k in g.rules ==> forall a :: a in g.rules[k].rhs ==> AltProducesWords(a)
  }

  /** The symbol a tree built from `s` is labelled with. */
  function SymbolName(s: Symbol): string {
    match s
    case Ref(name) => name
    case Slot(tag) => tag
  }

  /** The error an expansion may fail with: fuel ran out, or a rule it
      reached has no alternative to choose from. */
  ghost predicate ExpansionError(g: Grammar, e: GenError) {
    e.OutOfFuel? || (e.EmptyRule? && Has(g, e.lhs) && g.rules[e.lhs].rhs == [])
  }

  datatype Expansion = Expansion(tree: DerivationNode, tokens: seq<string>, next: nat)

  datatype Expansions = Expansions(trees: seq<DerivationNode>, tokens: seq<string>, next: nat)

  /** Expands a bare-string symbol: a name without a rule becomes a literal
      leaf; otherwise one alternative is drawn and its symbols expanded left
      to right. */
  function ExpandName(g: Grammar, lex: Lexicon, name: string, oracle: Oracle, pos: nat, fuel: nat)
    : (r: Result<Expansion>)
    requires Valid(lex)
    ensures !Has(g, name) ==> r == Ok(Expansion(DerivationNode(name, [], Some(name)), [name], pos))
    ensures r.Ok? ==> r.value.tokens == Leaves(r.value.tree)
    ensures r.Ok? ==> r.value.tree.symbol == name && r.value.next >= pos
    ensures r.Ok? && Has(g, name) ==> r.value.tree.token.None?
    ensures r.Err? ==> ExpansionError(g, r.error)
    decreases fuel, 0
  {
    if !Has(g, name) then Ok(Expansion(DerivationNode(name, [], Some(name)), [name], pos))
    else if fuel == 0 then Err(OutOfFuel)
    else
      var rhs := g.rules[name].rhs;
      if |rhs| == 0 then Err(EmptyRule(name))
      else
        var alt := rhs[Draw(oracle, pos, |rhs|)];
        match ExpandSeq(g, lex, alt, oracle, pos + 1, fuel - 1)
        case Err(e) => Err(e)
        case Ok(xs) => Ok(Expansion(DerivationNode(name, xs.trees, None), xs.tokens, xs.next))
  }

  /** Expands the symbols of one alternative left to right, threading the
      oracle position; the first failure aborts the whole expansion. */
  function ExpandSeq(g: Grammar, lex: Lexicon, syms: seq<Symbol>, oracle: Oracle, pos: nat, fuel: nat)
    : (r: Result<Expansions>)
    requires Valid(lex)
    ensures r.Ok? ==> |r.value.trees| == |syms| && r.value.tokens == LeavesOf(r.value.trees)
    ensures r.Ok? ==> r.value.next >= pos
    ensures r.Err? ==> ExpansionError(g, r.error)
    decreases fuel, |syms| + 1
  {
    if |syms| == 0 then Ok(Expansions([], [], pos))
    else
      var head := ExpandSymbol(g, lex, syms[0], oracle, pos, fuel);
      if head.Err? then Err(head.error)
      else
        match ExpandSeq(g, lex, syms[1..], oracle, head.value.next, fuel)
        case Err(e) => Err(e)
        case Ok(rest) =>
          LeavesOfCons(head.value.tree, rest.trees);
          Ok(Expansions([head.value.tree] + rest.trees, head.value.tokens + rest.tokens, rest.next))
  }

  /** One symbol of an alternative: a slot is resolved on the spot into a
      leaf labelled with its tag; a bare string is expanded. */
  function ExpandSymbol(g: Grammar, lex: Lexicon, s: Symbol, oracle: Oracle, pos: nat, fuel: nat)
    : (r: Result<Expansion>)
    requires Valid(lex)
    ensures r.Ok? ==> r.value.tokens == Leaves(r.value.tree)
    ensures r.Ok? ==> r.value.tree.symbol == SymbolName(s) && r.value.next >= pos
    ensures r.Err? ==> ExpansionError(g, r.error)
    ensures s.Slot? ==> r.Ok? && r.value.tree.children == [] && r.value.tree.token.Some?
    ensures s.Slot? ==> SlotWord(lex, s.tag, r.value.tree.token.value)
    ensures s.Slot? && KnownSlot(s.tag) ==> r.value.next == pos + 1
    ensures s.Slot? && !KnownSlot(s.tag) ==> r.value.next == pos
    decreases fuel, 1
  {
    match s
    case Slot(tag) =>
      var p := ChooseForPos(lex, tag, oracle, pos);
      Ok(Expansion(DerivationNode(tag, [], Some(p.word)), [p.word], p.next))
    case Ref(name) => ExpandName(g, lex, name, oracle, pos, fuel)
  }

  /** Without empty rules or alternatives every expansion yields at least one
      token per symbol; when, besides, no alternative holds the empty name or
      an unknown slot and the lexicon lacks the empty word, no token is empty. */
  lemma {:induction false} ExpandNameWords(g: Grammar, lex: Lexicon, name: string, oracle: Oracle, pos: nat, fuel: nat)
    requires Valid(lex) && ExpandName(g, lex, name, oracle, pos, fuel).Ok?
    ensures var ts := ExpandName(g, lex, name, oracle, pos, fuel).value.tokens;
            && (NoEmptyAlternative(g) ==> |ts| > 0)
            && (ProducesWords(g) && "" !in lex.entries && name != "" ==> "" !in ts)
    decreases fuel, 0
  {
    if Has(g, name) {
      var rhs := g.rules[name].rhs;
      var alt := rhs[Draw(oracle, pos, |rhs|)];
      ExpandSeqWords(g, lex, alt, oracle, pos + 1, fuel - 1);
    }
  }

  lemma {:induction false} ExpandSeqWords(g: Grammar, lex: Lexicon, syms: seq<Symbol>, oracle: Oracle, pos: nat, fuel: nat)
    requires Valid(lex) && ExpandSeq(g, lex, syms, oracle, pos, fuel).Ok?
    ensures var ts := ExpandSeq(g, lex, syms, oracle, pos, fuel).value.tokens;
            && (NoEmptyAlternative(g) ==> |ts| >= |syms|)
            && (ProducesWords(g) && "" !in lex.entries && AltProducesWords(syms) ==> "" !in ts)
    decreases fuel, |syms| + 1
  {
    if |syms| > 0 {
      ExpandSymbolWords(g, lex, syms[0], oracle, pos, fuel);
      var head := ExpandSymbol(g, lex, syms[0], oracle, pos, fuel);
      ExpandSeqWords(g, lex, syms[1..], oracle, head.value.next, fuel);
      assert syms[0] in syms;
      assert forall s :: s in syms[1..] ==> s in syms;
    }
  }

  lemma {:induction false} ExpandSymbolWords(g: Grammar, lex: Lexicon, s: Symbol, oracle: Oracle, pos: nat, fuel: nat)
    requires Valid(lex) && ExpandSymbol(g, lex, s, oracle, pos, fuel).Ok?
    ensures var ts := ExpandSymbol(g, lex, s, oracle, pos, fuel).value.tokens;
            && (NoEmptyAlternative(g) ==> |ts| > 0)
            && (ProducesWords(g) && "" !in lex.entries && SymbolProducesWord(s) ==> "" !in ts)
    decreases fuel, 1
  {
    if s.Ref? {
      ExpandNameWords(g, lex, s.name, oracle, pos, fuel);
    }
  }

  /** The trees of an expanded alternative are labelled with its symbols,
      in order. */
  lemma {:induction false} ExpandSeqLabels(g: Grammar, lex: Lexicon, syms: seq<Symbol>, oracle: Oracle, pos: nat, fuel: nat)
    requires Valid(lex) && ExpandSeq(g, lex, syms, oracle, pos, fuel).Ok?
    ensures var trees := ExpandSeq(g, lex, syms, oracle, pos, fuel).value.trees;
            forall i :: 0 <= i < |syms| ==> trees[i].symbol == SymbolName(syms[i])
    decreases |syms|
  {
    if |syms| > 0 {
      var head := ExpandSymbol(g, lex, syms[0], oracle, pos, fuel);
      ExpandSeqLabels(g, lex, syms[1..], oracle, head.value.next, fuel);
    }
  }

  /** Every tree the expansion builds is well formed: each inner node is a
      nonterminal whose children fit, symbol by symbol, the alternative
      drawn for it; a literal shows itself and a slot one of its words. */
  lemma {:induction false} ExpandNameWellFormed(g: Grammar, lex: Lexicon, name: string, oracle: Oracle, pos: nat, fuel: nat)
    requires Valid(lex) && ExpandName(g, lex, name, oracle, pos, fuel).Ok?
    ensures WellFormed(g, lex, ExpandName(g, lex, name, oracle, pos, fuel).value.tree)
    decreases fuel, 0
  {
    if Has(g, name) {
      var rhs := g.rules[name].rhs;
      var alt := rhs[Draw(oracle, pos, |rhs|)];
      var xs := ExpandSeq(g, lex, alt, oracle, pos + 1, fuel - 1);
      ExpandSeqWellFormed(g, lex, alt, oracle, pos + 1, fuel - 1);
      ExpandNameTree(g, lex, name, oracle, pos, fuel);
      InnerWellFormed(g, lex, name, alt, xs.value.trees);
    }
  }

  /** The tree of an expanded nonterminal: an inner node over the trees of
      the alternative its draw picks. */
  lemma ExpandNameTree(g: Grammar, lex: Lexicon, name: string, oracle: Oracle, pos: nat, fuel: nat)
    requires Valid(lex) && Has(g, name) && ExpandName(g, lex, name, oracle, pos, fuel).Ok?
    ensures var rhs := g.rules[name].rhs;
            |rhs| > 0 && fuel > 0 &&
            var xs := ExpandSeq(g, lex, rhs[Draw(oracle, pos, |rhs|)], oracle, pos + 1, fuel - 1);
            xs.Ok? && ExpandName(g, lex, name, oracle, pos, fuel).value.tree == DerivationNode(name, xs.value.trees, None)
  {
  }

  /** An inner node of a nonterminal whose derived children fit one of its
      rule's alternatives is well formed. */
  lemma InnerWellFormed(g: Grammar, lex: Lexicon, name: string, alt: Alternative, trees: seq<DerivationNode>)
    requires Valid(lex) && Has(g, name) && alt in g.rules[name].rhs
    requires |trees| == |alt|
    requires forall i :: 0 <= i < |alt| ==> Derived(g, lex, trees[i]) && Fits(g, lex, alt[i], trees[i])
    ensures WellFormed(g, lex, DerivationNode(name, trees, None))
  {
    assert ChildrenFit(g, lex, DerivationNode(name, trees, None), alt);
  }

  lemma {:induction false} ExpandSeqWellFormed(g: Grammar, lex: Lexicon, syms: seq<Symbol>, oracle: Oracle, pos: nat, fuel: nat)
    requires Valid(lex) && ExpandSeq(g, lex, syms, oracle, pos, fuel).Ok?
    ensures var trees := ExpandSeq(g, lex, syms, oracle, pos, fuel).value.trees;
            |trees| == |syms| &&
            forall i :: 0 <= i < |syms| ==> Derived(g, lex, trees[i]) && Fits(g, lex, syms[i], trees[i])
    decreases fuel, |syms| + 1
  {
    if |syms| > 0 {
      ExpandSymbolWellFormed(g, lex, syms[0], oracle, pos, fuel);
      var head := ExpandSymbol(g, lex, syms[0], oracle, pos, fuel);
      ExpandSeqWellFormed(g, lex, syms[1..], oracle, head.value.next, fuel);
    }
  }

  lemma {:induction false} ExpandSymbolWellFormed(g: Grammar, lex: Lexicon, s: Symbol, oracle: Oracle, pos: nat, fuel: nat)
    requires Valid(lex) && ExpandSymbol(g, lex, s, oracle, pos, fuel).Ok?
    ensures var t := ExpandSymbol(g, lex, s, oracle, pos, fuel).value.tree;
            Derived(g, lex, t) && Fits(g, lex, s, t)
    decreases fuel, 1
  {
    if s.Ref? {
      ExpandNameWellFormed(g, lex, s.name, oracle, pos, fuel);
    }
  }
}

/** When expansion finishes. Fuel is only a bound: a result obtained with
    some fuel stays the same with more. A grammar whose rules can be ranked,
    so that every nonterminal refers only to lower-ranked ones, always
    finishes once the fuel exceeds the rank of the symbol expanded. */
module Termination {
  import opened Text
  import opened Lexicons
  import opened Grammars
  import opened Generator

  // ---------------------------------------------------------------------
  // Fuel is only a bound
  // ---------------------------------------------------------------------

  lemma {:induction false} ExpandNameFuel(g: Grammar, lex: Lexicon, name: string, oracle: Oracle, pos: nat, fuel: nat, more: nat)
    requires Valid(lex)
    requires ExpandName(g, lex, name, oracle, pos, fuel).Ok? && more >= fuel
    ensures ExpandName(g, lex, name, oracle, pos, more) == ExpandName(g, lex, name, oracle, pos, fuel)
    decreases fuel, 0
  {
    if Has(g, name) {
      var rhs := g.rules[name].rhs;
      var alt := rhs[Draw(oracle, pos, |rhs|)];
      ExpandSeqFuel(g, lex, alt, oracle, pos + 1, fuel - 1, more - 1);
    }
  }

  lemma {:induction false} ExpandSeqFuel(g: Grammar, lex: Lexicon, syms: seq<Symbol>, oracle: Oracle, pos: nat, fuel: nat, more: nat)
    requires Valid(lex)
    requires ExpandSeq(g, lex, syms, oracle, pos, fuel).Ok? && more >= fuel
    ensures ExpandSeq(g, lex, syms, oracle, pos, more) == ExpandSeq(g, lex, syms, oracle, pos, fuel)
    decreases fuel, |syms| + 1
  {
    if |syms| > 0 {
      ExpandSymbolFuel(g, lex, syms[0], oracle, pos, fuel, more);
      var head := ExpandSymbol(g, lex, syms[0], oracle, pos, fuel);
      ExpandSeqFuel(g, lex, syms[1..], oracle, head.value.next, fuel, more);
    }
  }

  lemma {:induction false} ExpandSymbolFuel(g: Grammar, lex: Lexicon, s: Symbol, oracle: Oracle, pos: nat, fuel: nat, more: nat)
    requires Valid(lex)
    requires ExpandSymbol(g, lex, s, oracle, pos, fuel).Ok? && more >= fuel
    ensures ExpandSymbol(g, lex, s, oracle, pos, more) == ExpandSymbol(g, lex, s, oracle, pos, fuel)
    decreases fuel, 1
  {
    if s.Ref? {
      ExpandNameFuel(g, lex, s.name, oracle, pos, fuel, more);
    }
  }

  /** One expansion step: a nonterminal with a non-empty rule and fuel left
      fails or succeeds as the alternative its draw picks does, with the
      same tokens. */
  lemma ExpandNameStep(g: Grammar, lex: Lexicon, name: string, oracle: Oracle, pos: nat, fuel: nat)
    requires Valid(lex) && Has(g, name) && fuel > 0 && |g.rules[name].rhs| > 0
    ensures var rhs := g.rules[name].rhs;
            var r := ExpandName(g, lex, name, oracle, pos, fuel);
            var xs := ExpandSeq(g, lex, rhs[Draw(oracle, pos, |rhs|)], oracle, pos + 1, fuel - 1);
            && (xs.Err? ==> r == Err(xs.error))
            && (xs.Ok? ==> r.Ok? && r.value.tokens == xs.value.tokens)
  {
  }

  // ---------------------------------------------------------------------
  // Ranked grammars finish
  // ---------------------------------------------------------------------

  /** A literal or slot, or a nonterminal ranked below `bound`. */
  ghost predicate SymbolBelow(g: Grammar, rank: map<string, nat>, s: Symbol, bound: nat) {
    s.Ref? && Has(g, s.name) ==> s.name in rank && rank[s.name] < bound
  }

  /** Every symbol of `alt` is below `bound`. */
  ghost predicate AltBelow(g: Grammar, rank: map<string, nat>, alt: Alternative, bound: nat) {
    forall s :: s in alt ==> SymbolBelow(g, rank, s, bound)
  }

  /** The ranked nonterminal `k` has a rule with at least one alternative,
      and each alternative refers only to lower-ranked nonterminals. */
  ghost predicate RankedAt(g: Grammar, rank: map<string, nat>, k: string)
    requires k in rank
  {
    && Has(g, k)
    && |g.rules[k].rhs| > 0
    && forall a :: a in g.rules[k].rhs ==> AltBelow(g, rank, a, rank[k])
  }

  ghost predicate Ranked(g: Grammar, rank: map<string, nat>) {
    forall k :: k in rank ==> RankedAt(g, rank, k)
  }

  /** Expanding a literal, or a nonterminal whose rank is below the fuel,
      always succeeds, whatever the choices. */
  lemma {:induction false} ExpandNameTerminates(g: Grammar, lex: Lexicon, rank: map<string, nat>, name: string, oracle: Oracle, pos: nat, fuel: nat)
    requires Valid(lex) && Ranked(g, rank)
    requires Has(g, name) ==> name in rank && rank[name] < fuel
    ensures ExpandName(g, lex, name, oracle, pos, fuel).Ok?
    decreases fuel, 0
  {
    if Has(g, name) {
      assert RankedAt(g, rank, name);
      var rhs := g.rules[name].rhs;
      var alt := rhs[Draw(oracle, pos, |rhs|)];
      ExpandSeqTerminates(g, lex, rank, alt, rank[name], oracle, pos + 1, fuel - 1);
    }
  }

  lemma {:induction false} ExpandSeqTerminates(g: Grammar, lex: Lexicon, rank: map<string, nat>, syms: seq<Symbol>, bound: nat, oracle: Oracle, pos: nat, fuel: nat)
    requires Valid(lex) && Ranked(g, rank)
    requires AltBelow(g, rank, syms, bound) && bound <= fuel
    ensures ExpandSeq(g, lex, syms, oracle, pos, fuel).Ok?
    decreases fuel, |syms| + 1
  {
    if |syms| > 0 {
      assert SymbolBelow(g, rank, syms[0], bound);
      if syms[0].Ref? {
        ExpandNameTerminates(g, lex, rank, syms[0].name, oracle, pos, fuel);
      }
      var head := ExpandSymbol(g, lex, syms[0], oracle, pos, fuel);
      assert forall s :: s in syms[1..] ==> s in syms;
      ExpandSeqTerminates(g, lex, rank, syms[1..], bound, oracle, head.value.next, fuel);
    }
  }

  /** An alternative whose last symbol is a literal ends with that literal's token. */
  lemma {:induction false} SeqEndingInLiteral(g: Grammar, lex: Lexicon, syms: seq<Symbol>, lit: string, oracle: Oracle, pos: nat, fuel: nat)
    requires Valid(lex)
    requires |syms| > 0 && syms[|syms| - 1] == Ref(lit) && !Has(g, lit)
    requires ExpandSeq(g, lex, syms, oracle, pos, fuel).Ok?
    ensures var ts := ExpandSeq(g, lex, syms, oracle, pos, fuel).value.tokens;
            |ts| > 0 && ts[|ts| - 1] == lit
    decreases |syms|
  {
    var head := ExpandSymbol(g, lex, syms[0], oracle, pos, fuel);
    if |syms| > 1 {
      SeqEndingInLiteral(g, lex, syms[1..], lit, oracle, head.value.next, fuel);
    }
  }
}

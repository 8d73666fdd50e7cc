/** The context-free grammar: a map from a left-hand side to its rule, whose
    right-hand side is a list of alternatives, each a list of symbols. */
module Grammars {

  /** A symbol of an alternative. `Ref(name)` is a bare string: it is a
      nonterminal when the grammar has a rule for `name` and a literal
      terminal otherwise, a question `Has` answers at expansion time.
      `Slot(tag)` is a part-of-speech slot such as "<NOUN>"; the attribute
      dictionary that accompanies it in the source is always empty and has
      no effect, so it is not carried. */
  datatype Symbol = Ref(name: string) | Slot(tag: string)

  type Alternative = seq<Symbol>

  datatype Rule = Rule(lhs: string, rhs: seq<Alternative>)

  datatype Grammar = Grammar(rules: map<string, Rule>, start: string)

  /** Every rule is filed under its own left-hand side. */
  ghost predicate Consistent(g: Grammar) {
    forall k :: k in g.rules ==> g.rules[k].lhs == k
  }

  predicate Has(g: Grammar, nonterminal: string) {
    nonterminal in g.rules
  }

  /** Inserts or overwrites the rule for `lhs`; nothing else changes. */
  function AddRule(g: Grammar, lhs: string, rhs: seq<Alternative>): (r: Grammar)
    ensures Has(r, lhs) && r.rules[lhs] == Rule(lhs, rhs)
    ensures r.start == g.start
    ensures forall k :: k != lhs ==> (Has(r, k) <==> Has(g, k))
    ensures forall k :: k != lhs && Has(g, k) ==> Has(r, k) && r.rules[k] == g.rules[k]
    ensures Consistent(g) ==> Consistent(r)
  {
    Grammar(g.rules[lhs := Rule(lhs, rhs)], g.start)
  }

  /** After adding a rule, exactly the old nonterminals and the new one are known. */
  lemma AddRuleHas(g: Grammar, lhs: string, rhs: seq<Alternative>, k: string)
    ensures Has(AddRule(g, lhs, rhs), k) <==> k == lhs || Has(g, k)
  {
  }

  /** The starter rule set, as the constructor installs it, start symbol "S".
      Note the rule for "?": it rewrites "?" to itself. */
  function SeedGrammar(): (g: Grammar)
    ensures g.start == "S"
    ensures Consistent(g)
    ensures forall nt :: nt in ["S", "CLAUSE", "NP", "VP", "Q", "IMP"] ==> Has(g, nt)
    ensures g.rules.Keys == {"S", "CLAUSE", "NP", "VP", "PP", "Q", "IMP",
                             "DET", "N", "V", "ADJ", "P", "AUX", "WH", "?"}
  {
    Grammar(SeedRules(), "S")
  }

  function SeedRules(): map<string, Rule> {
    map[
      "S" := Rule("S", StartRhs),
      "CLAUSE" := Rule("CLAUSE", ClauseRhs),
      "NP" := Rule("NP", NounPhraseRhs),
      "VP" := Rule("VP", VerbPhraseRhs),
      "PP" := Rule("PP", PrepPhraseRhs),
      "Q" := Rule("Q", QuestionRhs),
      "IMP" := Rule("IMP", ImperativeRhs),
      "DET" := Rule("DET", SlotRhs("<DET>")),
      "N" := Rule("N", SlotRhs("<NOUN>")),
      "V" := Rule("V", SlotRhs("<VERB>")),
      "ADJ" := Rule("ADJ", SlotRhs("<ADJ>")),
      "P" := Rule("P", SlotRhs("<P>")),
      "AUX" := Rule("AUX", SlotRhs("<AUX>")),
      "WH" := Rule("WH", SlotRhs("<WH>")),
      "?" := Rule("?", [[Ref("?")]])
    ]
  }

  const StartRhs: seq<Alternative> := [[Ref("CLAUSE")], [Ref("Q")], [Ref("IMP")]]
  const ClauseRhs: seq<Alternative> := [[Ref("NP"), Ref("VP")], [Ref("NP"), Ref("VP"), Ref("PP")]]
  const NounPhraseRhs: seq<Alternative> := [[Ref("DET"), Ref("N")], [Ref("DET"), Ref("ADJ"), Ref("N")], [Ref("N")]]
  const VerbPhraseRhs: seq<Alternative> := [[Ref("V"), Ref("NP")], [Ref("V")], [Ref("V"), Ref("ADJ")]]
  const PrepPhraseRhs: seq<Alternative> := [[Ref("P"), Ref("NP")]]
  const QuestionRhs: seq<Alternative> :=
    [[Ref("AUX"), Ref("NP"), Ref("V"), Ref("NP"), Ref("?")], [Ref("WH"), Ref("V"), Ref("NP"), Ref("?")]]
  const ImperativeRhs: seq<Alternative> := [[Ref("V"), Ref("NP")], [Ref("V")]]

  /** A preterminal's right-hand side: the one slot. */
  function SlotRhs(tag: string): seq<Alternative> {
    [[Slot(tag)]]
  }

  /** The starter rule set without the self-referential rule for "?", so
      that "?" is a literal terminal, as the question rules intend. */
  function IntendedGrammar(): (g: Grammar)
    ensures g.start == "S"
    ensures Consistent(g)
    ensures !Has(g, "?")
    ensures forall k :: k != "?" ==> (Has(g, k) <==> Has(SeedGrammar(), k))
    ensures forall k :: Has(g, k) ==> Has(SeedGrammar(), k) && g.rules[k] == SeedGrammar().rules[k]
  {
    Grammar(SeedRules() - {"?"}, "S")
  }
}

/** One whole generation: expand the start symbol, correct the articles,
    fold the valence and render the text. */
module Sentences {
  import opened Text
  import opened Lexicons
  import opened Grammars
  import opened Derivations
  import opened Generator
  import opened Rendering
  import opened Emotion

  datatype Sentence = Sentence(text: string, tree: DerivationNode, valence: real)

  function Generate(g: Grammar, lex: Lexicon, oracle: Oracle, fuel: nat, squash: real -> real): (r: Result<Sentence>)
    requires Valid(lex)
    ensures r.Ok? ==> WellFormed(g, lex, r.value.tree) && r.value.tree.symbol == g.start
    ensures r.Ok? ==> Linearize(FixArticles(Leaves(r.value.tree))) == Some(r.value.text)
    ensures r.Ok? ==> r.value.valence == Valence(FixArticles(Leaves(r.value.tree)), lex, squash)
    ensures r.Ok? && NoEmptyAlternative(g) ==> EndsInTerminal(r.value.text) && !IsAsciiLower(r.value.text[0])
    ensures r.Err? ==> ExpansionError(g, r.error) || r.error == EmptyText
  {
    match ExpandName(g, lex, g.start, oracle, 0, fuel)
    case Err(e) => Err(e)
    case Ok(x) =>
      ExpandNameWords(g, lex, g.start, oracle, 0, fuel);
      ExpandNameWellFormed(g, lex, g.start, oracle, 0, fuel);
      Realize(x.tree, lex, squash)
  }

  /** Corrects the articles of the tree's leaves, folds their valence and
      linearizes them into the sentence text. */
  function Realize(tree: DerivationNode, lex: Lexicon, squash: real -> real): (r: Result<Sentence>)
    ensures r.Ok? ==> r.value.tree == tree
    ensures r.Ok? ==> Linearize(FixArticles(Leaves(tree))) == Some(r.value.text)
    ensures r.Ok? ==> r.value.valence == Valence(FixArticles(Leaves(tree)), lex, squash)
    ensures r.Err? <==> Leaves(tree) == [""]
    ensures r.Err? ==> r.error == EmptyText
  {
    var tokens := FixArticles(Leaves(tree));
    match Linearize(tokens)
    case None => Err(EmptyText)
    case Some(text) => Ok(Sentence(text, tree, Valence(tokens, lex, squash)))
  }

  /** With a squashing function into [-1, 1] every realized valence is in [-1, 1]. */
  lemma RealizeValenceBounded(tree: DerivationNode, lex: Lexicon, squash: real -> real)
    requires forall x :: -1.0 <= squash(x) <= 1.0
    ensures var r := Realize(tree, lex, squash);
            r.Ok? ==> -1.0 <= r.value.valence <= 1.0
  {
    FoldValenceBounded(0.0, FixArticles(Leaves(tree)), lex, squash);
  }

  /** With a squashing function into [-1, 1] every generated valence is in [-1, 1]. */
  lemma GenerateValenceBounded(g: Grammar, lex: Lexicon, oracle: Oracle, fuel: nat, squash: real -> real)
    requires Valid(lex)
    requires forall x :: -1.0 <= squash(x) <= 1.0
    ensures var r := Generate(g, lex, oracle, fuel, squash);
            r.Ok? ==> -1.0 <= r.value.valence <= 1.0
  {
    var r := Generate(g, lex, oracle, fuel, squash);
    if r.Ok? {
      RealizeValenceBounded(r.value.tree, lex, squash);
    }
  }
}

/** The sentence valence: word polarities folded left to right from a
    neutral 0, each step squashing the running sum. The squashing function
    (`math.tanh` in the source) is a parameter; only its range matters to
    the properties below. */
module Emotion {
  import opened Text
  import opened Lexicons

  /** The polarity of a word, 0 when the lexicon does not know it. */
  function FromWord(word: string, lex: Lexicon): (v: real)
    ensures Lower(word) in lex.entries ==> v == lex.entries[Lower(word)].polarity
    ensures Lower(word) !in lex.entries ==> v == 0.0
  {
    match Get(lex, word)
    case Some(e) => e.polarity
    case None => 0.0
  }

  /** One combination step: the squashed sum of the two valences. */
  function Combine(a: real, b: real, squash: real -> real): real {
    squash(a + b)
  }

  /** Folds the lower-cased tokens' polarities into `acc`, left to right. */
  function FoldValence(acc: real, tokens: seq<string>, lex: Lexicon, squash: real -> real): real
    decreases |tokens|
  {
    if |tokens| == 0 then acc
    else FoldValence(Combine(acc, FromWord(Lower(tokens[0]), lex), squash), tokens[1..], lex, squash)
  }

  function Valence(tokens: seq<string>, lex: Lexicon, squash: real -> real): real {
    FoldValence(0.0, tokens, lex, squash)
  }

  /** The fold is a left fold: the last token is combined last. */
  lemma {:induction false} FoldValenceSnoc(acc: real, tokens: seq<string>, t: string, lex: Lexicon, squash: real -> real)
    ensures FoldValence(acc, tokens + [t], lex, squash)
            == Combine(FoldValence(acc, tokens, lex, squash), FromWord(Lower(t), lex), squash)
    decreases |tokens|
  {
    if |tokens| == 0 {
      assert tokens + [t] == [t];
    } else {
      assert (tokens + [t])[1..] == tokens[1..] + [t];
      FoldValenceSnoc(Combine(acc, FromWord(Lower(tokens[0]), lex), squash), tokens[1..], t, lex, squash);
    }
  }

  /** For three tokens the valence is squash(squash(squash(0 + p1) + p2) + p3). */
  lemma ValenceOfThree(a: string, b: string, c: string, lex: Lexicon, squash: real -> real)
    ensures var p1, p2, p3 := FromWord(Lower(a), lex), FromWord(Lower(b), lex), FromWord(Lower(c), lex);
            Valence([a, b, c], lex, squash) == squash(squash(squash(0.0 + p1) + p2) + p3)
  {
    FoldValenceSnoc(0.0, [a, b], c, lex, squash);
    FoldValenceSnoc(0.0, [a], b, lex, squash);
    FoldValenceSnoc(0.0, [], a, lex, squash);
    assert [a, b] + [c] == [a, b, c];
    assert [a] + [b] == [a, b];
    assert [] + [a] == [a];
  }

  /** With a squashing function into [-1, 1], the valence stays in [-1, 1]
      whatever the sentence length. */
  lemma {:induction false} FoldValenceBounded(acc: real, tokens: seq<string>, lex: Lexicon, squash: real -> real)
    requires forall x :: -1.0 <= squash(x) <= 1.0
    requires -1.0 <= acc <= 1.0
    ensures -1.0 <= FoldValence(acc, tokens, lex, squash) <= 1.0
    decreases |tokens|
  {
    if |tokens| > 0 {
      FoldValenceBounded(Combine(acc, FromWord(Lower(tokens[0]), lex), squash), tokens[1..], lex, squash);
    }
  }
}

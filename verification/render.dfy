/** Turning a token list into sentence text: the "a"/"an" correction and
    the linearization into one capitalised, punctuated string. */
module Rendering {
  import opened Text

  /** Position `i` holds the article "a" (any case) and the next token is
      non-empty and starts with a vowel once lower-cased. */
  predicate NeedsAn(tokens: seq<string>, i: nat)
    requires i < |tokens|
  {
    && Lower(tokens[i]) == "a"
    && i + 1 < |tokens|
    && var next := Lower(tokens[i + 1]); |next| > 0 && next[0] in "aeiou"
  }

  /** The article correction as a whole-list function. */
  function FixArticles(tokens: seq<string>): (r: seq<string>)
    ensures |r| == |tokens|
    ensures forall i :: 0 <= i < |r| ==> (r[i] != tokens[i] <==> NeedsAn(tokens, i))
    ensures forall i :: 0 <= i < |r| && r[i] != tokens[i] ==> r[i] == "an" && Lower(tokens[i]) == "a"
    ensures |tokens| > 0 ==> r[|r| - 1] == tokens[|tokens| - 1]
  {
    seq(|tokens|, i requires 0 <= i < |tokens| => if NeedsAn(tokens, i) then "an" else tokens[i])
  }

  /** The source's single left-to-right pass. */
  method Postprocess(tokens: seq<string>) returns (out: seq<string>)
    ensures out == FixArticles(tokens)
  {
    out := [];
    var i := 0;
    while i < |tokens|
      invariant 0 <= i <= |tokens|
      invariant out == FixArticles(tokens)[..i]
    {
      var tok := tokens[i];
      if Lower(tok) == "a" && i + 1 < |tokens| {
        var next := Lower(tokens[i + 1]);
        if |next| > 0 && next[0] in "aeiou" {
          tok := "an";
        }
      }
      assert tok == if NeedsAn(tokens, i) then "an" else tokens[i];
      assert tok == FixArticles(tokens)[i];
      assert FixArticles(tokens)[..i + 1] == FixArticles(tokens)[..i] + [tok];
      out := out + [tok];
      i := i + 1;
    }
  }

  /** Correcting twice changes nothing more: an "a" the pass leaves alone is
      followed by a token the pass leaves alone too. */
  lemma FixArticlesIdempotent(tokens: seq<string>)
    ensures FixArticles(FixArticles(tokens)) == FixArticles(tokens)
  {
    var r := FixArticles(tokens);
    LowerAnIsNotA();
    forall i | 0 <= i < |r|
      ensures !NeedsAn(r, i)
    {
      if i + 1 < |r| {
        ArticleStartsWithVowel(tokens[i + 1]);
      }
    }
  }

  lemma LowerAnIsNotA()
    ensures Lower("an") != "a"
  {
  }

  /** A token that lower-cases to "a" itself starts with a vowel. */
  lemma ArticleStartsWithVowel(s: string)
    ensures Lower(s) == "a" ==> |Lower(s)| > 0 && Lower(s)[0] in "aeiou"
  {
  }

  predicate EndsInTerminal(s: string) {
    |s| > 0 && s[|s| - 1] in ".?!"
  }

  /** `s.replace(" ?", "?").replace(" ,", ",")`. */
  function Collapse(s: string): (r: string)
    ensures |s| > 0 ==> |r| > 0 && r[|r| - 1] == s[|s| - 1]
    ensures |s| > 0 && s[0] != ' ' ==> r[0] == s[0]
    ensures NoPair(s, ' ', ' ') ==> NoPair(r, ' ', ' ') && NoPair(r, ' ', '?') && NoPair(r, ' ', ',')
    ensures WithoutSpaces(r) == WithoutSpaces(s)
    ensures r == Tidy(s, "?,")
    ensures NoPair(s, ' ', '?') && NoPair(s, ' ', ',') ==> r == s
  {
    CollapseFacts(s);
    CollapseIsTidy(s);
    CollapseSpaceBefore(CollapseSpaceBefore(s, '?'), ',')
  }

  /** The two replacements drop exactly the spaces standing right before a
      "?" or a ","; a text without such a space is left as it is. */
  lemma CollapseIsTidy(s: string)
    ensures CollapseSpaceBefore(CollapseSpaceBefore(s, '?'), ',') == Tidy(s, "?,")
    ensures NoPair(s, ' ', '?') && NoPair(s, ' ', ',') ==> Tidy(s, "?,") == s
  {
    var t := CollapseSpaceBefore(s, '?');
    CollapseSpaceBeforeIsTidy(s, '?');
    CollapseSpaceBeforeIsTidy(t, ',');
    assert [','] == "," && ['?'] == "?";
    TidyTwice(s);
    if NoPair(s, ' ', '?') && NoPair(s, ' ', ',') {
      forall i | 0 <= i < |s|
        ensures !SpaceBeforeMark(s, i, "?,")
      {
        if i + 1 < |s| {
          assert !(s[i] == ' ' && s[i + 1] == '?') && !(s[i] == ' ' && s[i + 1] == ',');
        }
      }
      TidyUnchanged(s, "?,");
    }
  }

  lemma CollapseFacts(s: string)
    ensures var r := CollapseSpaceBefore(CollapseSpaceBefore(s, '?'), ',');
            && (NoPair(s, ' ', ' ') ==> NoPair(r, ' ', ' ') && NoPair(r, ' ', '?') && NoPair(r, ' ', ','))
            && WithoutSpaces(r) == WithoutSpaces(s)
  {
    var t := CollapseSpaceBefore(s, '?');
    CollapseKeepsNonSpaces(s, '?');
    CollapseKeepsNonSpaces(t, ',');
    if NoPair(s, ' ', ' ') {
      CollapseKeepsSingleSpaces(s, '?');
      CollapseRemovesSpaceBefore(s, '?');
      CollapseKeepsSingleSpaces(t, ',');
      CollapseRemovesSpaceBefore(t, ',');
      CollapseKeepsNoSpaceBefore(t, ',', '?');
    }
  }

  /** Upper-casing the first character keeps every missing space-pair missing. */
  lemma CapitalizeNoPair(s: string, b: char)
    requires |s| > 0 && b != ' ' && NoPair(s, ' ', b)
    ensures NoPair([UpperChar(s[0])] + s[1..], ' ', b)
  {
    var t := [UpperChar(s[0])] + s[1..];
    forall i | 0 <= i < |t| - 1
      ensures !(t[i] == ' ' && t[i + 1] == b)
    {
      assert t[i + 1] == s[i + 1];
      if i > 0 {
        assert t[i] == s[i];
      }
    }
  }

  /** Appending a character other than `b` keeps a space-`b` pair missing. */
  lemma AppendNoPair(s: string, c: char, b: char)
    requires c != b && NoPair(s, ' ', b)
    ensures NoPair(s + [c], ' ', b)
  {
  }

  /** Joins the tokens with spaces, removes the space before "?" and ",",
      upper-cases the first character and closes with "." unless the text
      already ends in ".", "?" or "!". `None` stands for the source's index
      error on a text that is empty after joining, which happens exactly for
      the list holding one empty token. */
  function Linearize(tokens: seq<string>): (r: Option<string>)
    ensures r.None? <==> tokens == [""]
    ensures tokens == [] ==> r == Some("")
    ensures r.Some? && tokens != [] ==> EndsInTerminal(r.value) && !IsAsciiLower(r.value[0])
    ensures r.Some? && tokens != [] ==>
              (EndsInTerminal(Join(tokens)) <==> |r.value| == |Collapse(Join(tokens))|)
    ensures r.Some? && EndsInTerminal(Join(tokens)) ==>
              r.value[|r.value| - 1] == Join(tokens)[|Join(tokens)| - 1]
    ensures r.Some? && tokens != [] ==>
              WithoutSpaces(r.value[1..]) == WithoutSpaces(Collapse(Join(tokens))[1..])
              || WithoutSpaces(r.value[1..]) == WithoutSpaces(Collapse(Join(tokens))[1..]) + "."
    ensures r.Some? && |tokens| > 0 && |tokens[0]| > 0 && tokens[0][0] != ' ' ==> r.value[0] == UpperChar(tokens[0][0])
    ensures r.Some? && NoPair(Join(tokens), ' ', ' ') ==> NoPair(r.value, ' ', '?') && NoPair(r.value, ' ', ',')
    ensures r.Some? && tokens != [] ==>
              var s := Collapse(Join(tokens));
              && 0 < |s| <= |r.value| <= |s| + 1
              && r.value[0] == UpperChar(s[0])
              && r.value[1..|s|] == s[1..]
              && (|r.value| == |s| + 1 ==> r.value[|s|] == '.')
    ensures r.Some? && tokens != [] && NoPair(Join(tokens), ' ', '?') && NoPair(Join(tokens), ' ', ',') ==>
              var j := Join(tokens);
              && |j| <= |r.value| <= |j| + 1
              && r.value[0] == UpperChar(j[0])
              && r.value[1..|j|] == j[1..]
  {
    JoinEmpty(tokens);
    if |tokens| == 0 then Some("")
    else
      var joined := Join(tokens);
      var s := Collapse(joined);
      if |s| == 0 then None
      else
        var t := [UpperChar(s[0])] + s[1..];
        var text := if EndsInTerminal(t) then t else t + ".";
        LinearizeFacts(tokens, joined, s, t, text);
        Some(text)
  }

  /** Tokens that are non-empty and free of spaces render to a text with
      no space in front of "?" or ",": the text is the join of the tokens
      with its first character upper-cased, and possibly "." appended. */
  lemma LinearizeSpaceFreeTokens(tokens: seq<string>)
    requires |tokens| > 0
    requires forall i :: 0 <= i < |tokens| ==> |tokens[i]| > 0 && HasNoSpace(tokens[i])
    ensures var r := Linearize(tokens);
            && r.Some?
            && NoPair(r.value, ' ', '?') && NoPair(r.value, ' ', ',')
  {
    JoinNoDoubleSpace(tokens);
    assert tokens != [""] by {
      assert |tokens[0]| > 0;
    }
  }

  lemma LinearizeFacts(tokens: seq<string>, joined: string, s: string, t: string, text: string)
    requires |tokens| > 0 && joined == Join(tokens) && s == Collapse(joined) && |s| > 0
    requires t == [UpperChar(s[0])] + s[1..]
    requires text == if EndsInTerminal(t) then t else t + "."
    ensures EndsInTerminal(text)
    ensures EndsInTerminal(joined) <==> |text| == |s|
    ensures EndsInTerminal(joined) ==> text[|text| - 1] == joined[|joined| - 1]
    ensures WithoutSpaces(text[1..]) == WithoutSpaces(s[1..]) || WithoutSpaces(text[1..]) == WithoutSpaces(s[1..]) + "."
    ensures |tokens[0]| > 0 && tokens[0][0] != ' ' ==> text[0] == UpperChar(tokens[0][0])
    ensures NoPair(joined, ' ', ' ') ==> NoPair(text, ' ', '?') && NoPair(text, ' ', ',')
    ensures |s| <= |text| <= |s| + 1 && text[0] == UpperChar(s[0]) && text[1..|s|] == s[1..]
    ensures |text| == |s| + 1 ==> text[|s|] == '.'
  {
    LinearizeShape(joined, s, t, text);
    LinearizeSpacing(joined, s, t, text);
    if |tokens[0]| > 0 {
      JoinFirst(tokens);
    }
  }

  /** The rendered text is the collapsed text, capitalised, with "." added
      exactly when no terminal mark ends it. */
  lemma LinearizeShape(joined: string, s: string, t: string, text: string)
    requires s == Collapse(joined) && |s| > 0
    requires t == [UpperChar(s[0])] + s[1..]
    requires text == if EndsInTerminal(t) then t else t + "."
    ensures EndsInTerminal(text)
    ensures EndsInTerminal(joined) <==> |text| == |s|
    ensures EndsInTerminal(joined) ==> text[|text| - 1] == joined[|joined| - 1]
    ensures |s| <= |text| <= |s| + 1 && text[0] == UpperChar(s[0]) && text[1..|s|] == s[1..]
    ensures |text| == |s| + 1 ==> text[|s|] == '.'
  {
    assert t[1..] == s[1..];
    assert text[1..|s|] == s[1..];
    assert EndsInTerminal(t) <==> EndsInTerminal(s);
  }

  /** Capitalising and closing the text keep its non-space characters and
      add no space in front of "?" or ",". */
  lemma LinearizeSpacing(joined: string, s: string, t: string, text: string)
    requires s == Collapse(joined) && |s| > 0
    requires t == [UpperChar(s[0])] + s[1..]
    requires text == if EndsInTerminal(t) then t else t + "."
    ensures WithoutSpaces(text[1..]) == WithoutSpaces(s[1..]) || WithoutSpaces(text[1..]) == WithoutSpaces(s[1..]) + "."
    ensures NoPair(joined, ' ', ' ') ==> NoPair(text, ' ', '?') && NoPair(text, ' ', ',')
  {
    assert t[1..] == s[1..];
    if !EndsInTerminal(t) {
      assert text[1..] == s[1..] + ".";
      WithoutSpacesAppend(s[1..], '.');
    }
    if NoPair(joined, ' ', ' ') {
      CapitalizeNoPair(s, '?');
      CapitalizeNoPair(s, ',');
      if !EndsInTerminal(t) {
        AppendNoPair(t, '.', '?');
        AppendNoPair(t, '.', ',');
      }
    }
  }

  lemma {:induction false} WithoutSpacesAppend(s: string, c: char)
    requires c != ' '
    ensures WithoutSpaces(s + [c]) == WithoutSpaces(s) + [c]
  {
    if |s| > 0 {
      assert (s + [c])[1..] == s[1..] + [c];
      WithoutSpacesAppend(s[1..], c);
    } else {
      assert s + [c] == [c];
    }
  }
}

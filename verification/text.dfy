/** String helpers shared by the lexicon, the morphology rules and the
    sentence renderer. Case mapping is ASCII-only: the letters 'A'..'Z' and
    'a'..'z' are mapped, every other character is left alone. */
module Text {

  datatype Option<+T> = None | Some(value: T)

  predicate IsAsciiUpper(c: char) { 'A' <= c <= 'Z' }

  predicate IsAsciiLower(c: char) { 'a' <= c <= 'z' }

  function LowerChar(c: char): (r: char)
    ensures !IsAsciiUpper(r)
    ensures !IsAsciiUpper(c) ==> r == c
  {
    if IsAsciiUpper(c) then (c as int + 32) as char else c
  }

  function UpperChar(c: char): (r: char)
    ensures !IsAsciiLower(r)
    ensures !IsAsciiLower(c) ==> r == c
  {
    if IsAsciiLower(c) then (c as int - 32) as char else c
  }

  /** `str.lower()` restricted to ASCII letters. */
  function Lower(s: string): (r: string)
    ensures |r| == |s|
  {
    seq(|s|, i requires 0 <= i < |s| => LowerChar(s[i]))
  }

  /** `str.upper()` restricted to ASCII letters. */
  function Upper(s: string): (r: string)
    ensures |r| == |s|
  {
    seq(|s|, i requires 0 <= i < |s| => UpperChar(s[i]))
  }

  /** A string `Lower` leaves unchanged. */
  predicate IsLowered(s: string) {
    forall i :: 0 <= i < |s| ==> !IsAsciiUpper(s[i])
  }

  lemma LowerOfLowered(s: string)
    requires IsLowered(s)
    ensures Lower(s) == s
  {
  }

  lemma LowerIsLowered(s: string)
    ensures IsLowered(Lower(s))
    ensures Lower(Lower(s)) == Lower(s)
  {
    LowerOfLowered(Lower(s));
  }

  lemma UpperIdempotent(s: string)
    ensures Upper(Upper(s)) == Upper(s)
  {
  }

  /** `s.endswith(suffix)`. */
  predicate EndsWith(s: string, suffix: string) {
    |suffix| <= |s| && s[|s| - |suffix|..] == suffix
  }

  /** `" ".join(tokens)`. */
  function Join(tokens: seq<string>): string {
    if |tokens| == 0 then ""
    else if |tokens| == 1 then tokens[0]
    else tokens[0] + " " + Join(tokens[1..])
  }

  function TotalLength(tokens: seq<string>): nat {
    if |tokens| == 0 then 0 else |tokens[0]| + TotalLength(tokens[1..])
  }

  /** One separator between each pair of neighbouring tokens. */
  lemma {:induction false} JoinLength(tokens: seq<string>)
    requires |tokens| > 0
    ensures |Join(tokens)| == TotalLength(tokens) + |tokens| - 1
  {
    if |tokens| > 1 {
      JoinLength(tokens[1..]);
    }
  }

  /** The joined text is empty exactly for no tokens or one empty token. */
  lemma JoinEmpty(tokens: seq<string>)
    ensures Join(tokens) == "" <==> tokens == [] || tokens == [""]
  {
    if |tokens| > 0 {
      JoinLength(tokens);
      if |tokens| == 1 && tokens[0] == "" {
        assert tokens == [""];
      }
    }
  }

  /** The joined text starts with the first token's first character. */
  lemma JoinFirst(tokens: seq<string>)
    requires |tokens| > 0 && |tokens[0]| > 0
    ensures |Join(tokens)| > 0 && Join(tokens)[0] == tokens[0][0]
  {
  }

  /** The joined text ends with the last token's last character. */
  lemma {:induction false} JoinLast(tokens: seq<string>)
    requires |tokens| > 0 && |tokens[|tokens| - 1]| > 0
    ensures var s := Join(tokens); var t := tokens[|tokens| - 1];
            |s| > 0 && s[|s| - 1] == t[|t| - 1]
  {
    if |tokens| > 1 {
      JoinLast(tokens[1..]);
    }
  }

  /** No position of `s` holds `a` immediately followed by `b`. */
  predicate NoPair(s: string, a: char, b: char) {
    forall i :: 0 <= i < |s| - 1 ==> !(s[i] == a && s[i + 1] == b)
  }

  predicate HasNoSpace(s: string) {
    forall i :: 0 <= i < |s| ==> s[i] != ' '
  }

  /** Joining space-free, non-empty tokens never produces two spaces in a row. */
  lemma {:induction false} JoinNoDoubleSpace(tokens: seq<string>)
    requires forall i :: 0 <= i < |tokens| ==> |tokens[i]| > 0 && HasNoSpace(tokens[i])
    ensures NoPair(Join(tokens), ' ', ' ')
  {
    if |tokens| > 1 {
      JoinNoDoubleSpace(tokens[1..]);
      var rest := Join(tokens[1..]);
      JoinFirst(tokens[1..]);
      var s := tokens[0] + " " + rest;
      assert s == Join(tokens);
      forall i | 0 <= i < |s| - 1
        ensures !(s[i] == ' ' && s[i + 1] == ' ')
      {
        if i < |tokens[0]| {
          assert s[i] == tokens[0][i];
        } else if i == |tokens[0]| {
          assert s[i + 1] == rest[0] == tokens[1][0];
        } else {
          assert s[i] == rest[i - |tokens[0]| - 1];
          assert s[i + 1] == rest[i - |tokens[0]|];
        }
      }
    }
  }

  /** `s.replace(" " + c, c)`: every occurrence of a space immediately
      followed by `c`, found left to right without overlap, loses the space. */
  function CollapseSpaceBefore(s: string, c: char): (r: string)
    requires c != ' '
    ensures |r| <= |s|
    ensures |s| > 0 ==> |r| > 0 && r[|r| - 1] == s[|s| - 1]
    ensures |s| > 0 && s[0] != ' ' ==> r[0] == s[0]
  {
    if |s| < 2 then s
    else if s[0] == ' ' && s[1] == c then [c] + CollapseSpaceBefore(s[2..], c)
    else [s[0]] + CollapseSpaceBefore(s[1..], c)
  }

  /** Collapsing only ever deletes spaces. */
  lemma {:induction false} CollapseKeepsNonSpaces(s: string, c: char)
    requires c != ' '
    ensures WithoutSpaces(CollapseSpaceBefore(s, c)) == WithoutSpaces(s)
  {
    if |s| >= 2 {
      if s[0] == ' ' && s[1] == c {
        CollapseKeepsNonSpaces(s[2..], c);
        assert s[1..][1..] == s[2..];
      } else {
        CollapseKeepsNonSpaces(s[1..], c);
      }
    }
  }

  /** A pair in `[x] + t` is either the pair at the seam or one inside `t`. */
  lemma ConsNoPair(x: char, t: string, a: char, b: char)
    requires NoPair(t, a, b)
    requires |t| > 0 ==> !(x == a && t[0] == b)
    ensures NoPair([x] + t, a, b)
  {
    var r := [x] + t;
    forall i | 0 <= i < |r| - 1
      ensures !(r[i] == a && r[i + 1] == b)
    {
      if i > 0 {
        assert r[i] == t[i - 1] && r[i + 1] == t[i];
      }
    }
  }

  /** Dropping a prefix keeps a missing pair missing. */
  lemma SuffixNoPair(s: string, k: nat, a: char, b: char)
    requires k <= |s| && NoPair(s, a, b)
    ensures NoPair(s[k..], a, b)
  {
    var t := s[k..];
    forall i | 0 <= i < |t| - 1
      ensures !(t[i] == a && t[i + 1] == b)
    {
      assert t[i] == s[i + k] && t[i + 1] == s[i + k + 1];
    }
  }

  /** Without double spaces in `s`, no double space appears after collapsing. */
  lemma {:induction false} CollapseKeepsSingleSpaces(s: string, c: char)
    requires c != ' ' && NoPair(s, ' ', ' ')
    ensures NoPair(CollapseSpaceBefore(s, c), ' ', ' ')
  {
    if |s| >= 2 {
      var k := if s[0] == ' ' && s[1] == c then 2 else 1;
      SuffixNoPair(s, k, ' ', ' ');
      CollapseKeepsSingleSpaces(s[k..], c);
      var rt := CollapseSpaceBefore(s[k..], c);
      if k == 1 && s[0] == ' ' {
        assert rt[0] == s[1];
      }
      ConsNoPair(if k == 2 then c else s[0], rt, ' ', ' ');
    }
  }

  /** Without double spaces in `s`, no space is left in front of `c`. */
  lemma {:induction false} CollapseRemovesSpaceBefore(s: string, c: char)
    requires c != ' ' && NoPair(s, ' ', ' ')
    ensures NoPair(CollapseSpaceBefore(s, c), ' ', c)
  {
    if |s| >= 2 {
      var k := if s[0] == ' ' && s[1] == c then 2 else 1;
      SuffixNoPair(s, k, ' ', ' ');
      CollapseRemovesSpaceBefore(s[k..], c);
      var rt := CollapseSpaceBefore(s[k..], c);
      if k == 1 && s[0] == ' ' {
        assert rt[0] == s[1];
      }
      ConsNoPair(if k == 2 then c else s[0], rt, ' ', c);
    }
  }

  /** Collapsing before `c` creates no space in front of any other `d`. */
  lemma {:induction false} CollapseKeepsNoSpaceBefore(s: string, c: char, d: char)
    requires c != ' ' && d != ' ' && d != c
    requires NoPair(s, ' ', ' ') && NoPair(s, ' ', d)
    ensures NoPair(CollapseSpaceBefore(s, c), ' ', d)
  {
    if |s| >= 2 {
      var k := if s[0] == ' ' && s[1] == c then 2 else 1;
      SuffixNoPair(s, k, ' ', ' ');
      SuffixNoPair(s, k, ' ', d);
      CollapseKeepsNoSpaceBefore(s[k..], c, d);
      var rt := CollapseSpaceBefore(s[k..], c);
      if k == 1 && s[0] == ' ' {
        assert rt[0] == s[1];
      }
      ConsNoPair(if k == 2 then c else s[0], rt, ' ', d);
    }
  }

  /** Position `i` holds a space immediately followed by one of `marks`. */
  predicate SpaceBeforeMark(s: string, i: nat, marks: string)
    requires i < |s|
  {
    s[i] == ' ' && i + 1 < |s| && s[i + 1] in marks
  }

  /** Reference for removing the space in front of punctuation: each
      character is dropped or kept on its own, by looking only at the
      character after it. */
  function Tidy(s: string, marks: string): string {
    if |s| == 0 then ""
    else (if SpaceBeforeMark(s, 0, marks) then "" else [s[0]]) + Tidy(s[1..], marks)
  }

  /** The left-to-right replacement of " " + `c` by `c` drops exactly the
      spaces that stand right before a `c`. */
  lemma {:induction false} CollapseSpaceBeforeIsTidy(s: string, c: char)
    requires c != ' '
    ensures CollapseSpaceBefore(s, c) == Tidy(s, [c])
  {
    if |s| >= 2 {
      if s[0] == ' ' && s[1] == c {
        CollapseSpaceBeforeIsTidy(s[2..], c);
        assert s[1..][1..] == s[2..];
      } else {
        CollapseSpaceBeforeIsTidy(s[1..], c);
      }
    } else if |s| == 1 {
      assert s[1..] == "";
    }
  }

  /** The first character `Tidy` keeps: the second one when the first is dropped. */
  lemma TidyHead(s: string, marks: string)
    requires |s| > 0 && ' ' !in marks
    ensures |Tidy(s, marks)| > 0
    ensures Tidy(s, marks)[0] == if SpaceBeforeMark(s, 0, marks) then s[1] else s[0]
  {
    if SpaceBeforeMark(s, 0, marks) {
      assert !SpaceBeforeMark(s[1..], 0, marks);
    }
  }

  /** Removing the spaces before "?" and then those before "," removes, in
      one pass, the spaces before either. */
  lemma {:induction false} TidyTwice(s: string)
    ensures Tidy(Tidy(s, "?"), ",") == Tidy(s, "?,")
  {
    if |s| > 0 {
      TidyTwice(s[1..]);
      var t := Tidy(s[1..], "?");
      if |s| > 1 {
        TidyHead(s[1..], "?");
        assert t[0] == ',' <==> s[1] == ',';
      }
      if !SpaceBeforeMark(s, 0, "?") {
        var u := [s[0]] + t;
        assert Tidy(s, "?") == u;
        assert u[1..] == t;
        assert SpaceBeforeMark(u, 0, ",") <==> SpaceBeforeMark(s, 0, "?,");
        assert Tidy(u, ",") == (if SpaceBeforeMark(u, 0, ",") then "" else [s[0]]) + Tidy(t, ",");
      } else {
        assert Tidy(s, "?") == t;
        assert SpaceBeforeMark(s, 0, "?,");
      }
      assert Tidy(s, "?,") == (if SpaceBeforeMark(s, 0, "?,") then "" else [s[0]]) + Tidy(s[1..], "?,");
    }
  }

  /** With no space in front of a mark, `Tidy` changes nothing. */
  lemma {:induction false} TidyUnchanged(s: string, marks: string)
    requires forall i :: 0 <= i < |s| ==> !SpaceBeforeMark(s, i, marks)
    ensures Tidy(s, marks) == s
  {
    if |s| > 0 {
      forall i | 0 <= i < |s[1..]|
        ensures !SpaceBeforeMark(s[1..], i, marks)
      {
        assert !SpaceBeforeMark(s, i + 1, marks);
      }
      TidyUnchanged(s[1..], marks);
      assert !SpaceBeforeMark(s, 0, marks);
    }
  }

  /** The non-space characters of `s`, in order. */
  function WithoutSpaces(s: string): string {
    if |s| == 0 then ""
    else if s[0] == ' ' then WithoutSpaces(s[1..])
    else [s[0]] + WithoutSpaces(s[1..])
  }
}

/** Suffix-rewriting rules for English inflection: plural nouns, third
    person singular verbs and past tense verbs. All three are total. */
module Morphology {
  import opened Text

  /** The vowel set the rules consult; only lower-case letters count. */
  predicate IsVowel(c: char) {
    c in "aeiou"
  }

  /** The word ends in "y" with a non-vowel right before it. */
  predicate EndsInConsonantY(w: string) {
    EndsWith(w, "y") && |w| > 1 && !IsVowel(w[|w| - 2])
  }

  /** The word ends in one of s, x, z, ch, sh. */
  predicate EndsInSibilant(w: string) {
    EndsWith(w, "s") || EndsWith(w, "x") || EndsWith(w, "z") || EndsWith(w, "ch") || EndsWith(w, "sh")
  }

  /** All of `w` but its last character (the empty word stays empty). */
  function Stem(w: string): string {
    if |w| == 0 then w else w[..|w| - 1]
  }

  function Pluralize(noun: string): (r: string)
    ensures |r| > |noun|
    ensures Stem(noun) <= r && EndsWith(r, "s")
    ensures EndsInConsonantY(noun) ==> r == Stem(noun) + "ies"
    ensures !EndsInConsonantY(noun) ==> noun <= r
    ensures !EndsInConsonantY(noun) ==> (r[|noun|..] == "es" <==> EndsInSibilant(noun))
    ensures !EndsInConsonantY(noun) ==> (r[|noun|..] == "s" <==> !EndsInSibilant(noun))
  {
    if EndsInConsonantY(noun) then noun[..|noun| - 1] + "ies"
    else if EndsInSibilant(noun) then noun + "es"
    else noun + "s"
  }

  /** Written out separately in the source with the same three rules as
      `Pluralize`, and agrees with it on every word. */
  function ThirdPersonSingular(verbBase: string): (r: string)
    ensures r == Pluralize(verbBase)
  {
    if EndsInConsonantY(verbBase) then verbBase[..|verbBase| - 1] + "ies"
    else if EndsInSibilant(verbBase) then verbBase + "es"
    else verbBase + "s"
  }

  function PastTense(verbBase: string): (r: string)
    ensures |r| > |verbBase|
    ensures Stem(verbBase) <= r && EndsWith(r, "d")
    ensures EndsWith(verbBase, "e") ==> r == verbBase + "d"
    ensures !EndsWith(verbBase, "e") && EndsInConsonantY(verbBase) ==> r == Stem(verbBase) + "ied"
    ensures !EndsWith(verbBase, "e") && !EndsInConsonantY(verbBase) ==> r == verbBase + "ed"
  {
    if EndsWith(verbBase, "e") then verbBase + "d"
    else if EndsInConsonantY(verbBase) then verbBase[..|verbBase| - 1] + "ied"
    else verbBase + "ed"
  }

  /** The base words a plural form could have come from: undo "ies" to "y",
      or strip "es", or strip "s". */
  function SingularCandidates(plural: string): set<string> {
    (if EndsWith(plural, "ies") then {plural[..|plural| - 3] + "y"} else {})
    + (if EndsWith(plural, "es") then {plural[..|plural| - 2]} else {})
    + (if EndsWith(plural, "s") then {plural[..|plural| - 1]} else {})
  }

  /** The base words a past tense form could have come from. */
  function PastCandidates(past: string): set<string> {
    (if EndsWith(past, "ied") then {past[..|past| - 3] + "y"} else {})
    + (if EndsWith(past, "ed") then {past[..|past| - 2]} else {})
    + (if EndsWith(past, "d") then {past[..|past| - 1]} else {})
  }

  /** Every word is recovered among the candidates of its plural. */
  lemma PluralizeRecoverable(w: string)
    ensures w in SingularCandidates(Pluralize(w))
  {
    var r := Pluralize(w);
    if EndsInConsonantY(w) {
      assert r[..|r| - 3] + "y" == w;
    } else if EndsInSibilant(w) {
      assert r[..|r| - 2] == w;
    } else {
      assert r[..|r| - 1] == w;
    }
  }

  /** Every verb is recovered among the candidates of its past tense. */
  lemma PastTenseRecoverable(w: string)
    ensures w in PastCandidates(PastTense(w))
  {
    var r := PastTense(w);
    if EndsWith(w, "e") {
      assert r[..|r| - 1] == w;
    } else if EndsInConsonantY(w) {
      assert r[..|r| - 3] + "y" == w;
    } else {
      assert r[..|r| - 2] == w;
    }
  }

  /** The heuristic is lossy: two different words share one plural. */
  lemma PluralizeNotInjective()
    ensures Pluralize("by") == Pluralize("bie") == "bies"
  {
    assert EndsInConsonantY("by");
    assert !EndsInConsonantY("bie") && !EndsInSibilant("bie");
  }

  /** The expected plurals from the source's own checks. */
  lemma PluralExamples()
    ensures Pluralize("cat") == "cats"
    ensures Pluralize("box") == "boxes"
  {
    assert !EndsInConsonantY("cat") && !EndsInSibilant("cat");
    assert !EndsInConsonantY("box") && EndsInSibilant("box");
  }

  /** The expected verb forms from the source's own checks. */
  lemma VerbExamples()
    ensures ThirdPersonSingular("chase") == "chases"
    ensures PastTense("like") == "liked"
  {
    assert !EndsInConsonantY("chase") && !EndsInSibilant("chase");
    assert EndsWith("like", "e");
  }
}

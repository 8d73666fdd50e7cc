/** The lexicon: a case-insensitive map from words to their part of speech
    and polarity. Keys are stored lower-cased and kept in insertion order,
    which is the order `WordsForPos` lists them in (a Python dict iterates in
    insertion order, and overwriting a key keeps its place). Polarities are
    reals; floating-point rounding is not modelled. */
module Lexicons {
  import opened Text

  datatype LexEntry = LexEntry(pos: string, polarity: real)

  /** `order` lists the keys of `entries` in insertion order. */
  datatype Lexicon = Lexicon(order: seq<string>, entries: map<string, LexEntry>)

  predicate NoDuplicates(s: seq<string>) {
    forall i, j :: 0 <= i < j < |s| ==> s[i] != s[j]
  }

  /** The representation invariant every reachable lexicon keeps. */
  ghost predicate Valid(lex: Lexicon) {
    && NoDuplicates(lex.order)
    && (forall w :: w in lex.entries <==> w in lex.order)
    && (forall w :: w in lex.entries ==> IsLowered(w))
  }

  /** The starter vocabulary the lexicon is constructed with, in the order
      its dict literal lists it. */
  function SeedLexicon(): (lex: Lexicon)
    ensures Valid(lex)
    ensures |lex.order| == 17
  {
    SeedLexiconValid();
    Lexicon(SeedWords(), SeedEntries())
  }

  function SeedWords(): seq<string> {
    ["the", "a", "an",
     "cat", "dog", "child", "war", "love",
     "see", "like", "chase", "hate", "adore",
     "happy", "sad", "brave", "angry"]
  }

  function SeedEntries(): map<string, LexEntry> {
    map[
      "the" := LexEntry("DET", 0.0), "a" := LexEntry("DET", 0.0), "an" := LexEntry("DET", 0.0),
      "cat" := LexEntry("NOUN", 0.2), "dog" := LexEntry("NOUN", 0.3), "child" := LexEntry("NOUN", 0.4),
      "war" := LexEntry("NOUN", -0.9), "love" := LexEntry("NOUN", 0.9),
      "see" := LexEntry("VERB", 0.0), "like" := LexEntry("VERB", 0.6), "chase" := LexEntry("VERB", -0.1),
      "hate" := LexEntry("VERB", -0.7), "adore" := LexEntry("VERB", 0.8),
      "happy" := LexEntry("ADJ", 0.8), "sad" := LexEntry("ADJ", -0.6), "brave" := LexEntry("ADJ", 0.5),
      "angry" := LexEntry("ADJ", -0.5)
    ]
  }

  lemma SeedLexiconValid()
    ensures Valid(Lexicon(SeedWords(), SeedEntries()))
    ensures |SeedWords()| == 17
  {
    SeedWordsDistinct();
    SeedKeysAreWords();
    SeedWordsAreKeys();
    SeedWordsLowered();
  }

  lemma SeedWordsDistinct()
    ensures NoDuplicates(SeedWords())
  {
  }

  lemma SeedKeysAreWords()
    ensures forall w :: w in SeedEntries() ==> w in SeedWords()
  {
  }

  lemma SeedWordsAreKeys()
    ensures forall w :: w in SeedWords() ==> w in SeedEntries()
  {
  }

  lemma SeedWordsLowered()
    ensures forall w :: w in SeedWords() ==> IsLowered(w)
  {
  }

  /** Case-insensitive lookup; absence is `None`, not an error. */
  function Get(lex: Lexicon, word: string): (r: Option<LexEntry>)
    ensures r.Some? <==> Lower(word) in lex.entries
    ensures r.Some? ==> r.value == lex.entries[Lower(word)]
  {
    var key := Lower(word);
    if key in lex.entries then Some(lex.entries[key]) else None
  }

  /** Stores (or overwrites) the entry for the lower-cased word, with the
      part of speech upper-cased. */
  function Add(lex: Lexicon, word: string, pos: string, polarity: real := 0.0): (r: Lexicon)
    requires Valid(lex)
    ensures Valid(r)
    ensures forall v :: Lower(v) == Lower(word) ==> Get(r, v) == Some(LexEntry(Upper(pos), polarity))
    ensures forall k :: k != Lower(word) ==>
              (k in r.entries <==> k in lex.entries) && (k in lex.entries ==> r.entries[k] == lex.entries[k])
    ensures Lower(word) in lex.entries ==> r.order == lex.order
    ensures Lower(word) !in lex.entries ==> r.order == lex.order + [Lower(word)]
  {
    var key := Lower(word);
    LowerIsLowered(word);
    var order := if key in lex.entries then lex.order else lex.order + [key];
    var r := Lexicon(order, lex.entries[key := LexEntry(Upper(pos), polarity)]);
    assert forall v :: Lower(v) == key ==> Get(r, v) == Some(LexEntry(Upper(pos), polarity));
    r
  }

  /** The words whose stored part of speech is `pos` upper-cased, in
      insertion order. */
  function WordsForPos(lex: Lexicon, pos: string): (r: seq<string>)
    requires Valid(lex)
    ensures forall w :: w in r <==> w in lex.entries && lex.entries[w].pos == Upper(pos)
    ensures NoDuplicates(r)
  {
    FilterByPos(lex.order, lex.entries, Upper(pos))
  }

  function FilterByPos(order: seq<string>, entries: map<string, LexEntry>, p: string): (r: seq<string>)
    requires NoDuplicates(order)
    requires forall w :: w in order ==> w in entries
    ensures forall w :: w in r <==> w in order && entries[w].pos == p
    ensures NoDuplicates(r)
  {
    if |order| == 0 then []
    else
      var rest := FilterByPos(order[1..], entries, p);
      assert order[0] !in order[1..];
      if entries[order[0]].pos == p then [order[0]] + rest else rest
  }

  function Count(s: seq<string>, w: string): nat {
    multiset(s)[w]
  }

  lemma NoDuplicatesCount(s: seq<string>, w: string)
    requires NoDuplicates(s) && w in s
    ensures Count(s, w) == 1
  {
    var i :| 0 <= i < |s| && s[i] == w;
    assert s == s[..i] + [w] + s[i + 1..];
    assert w !in s[..i] && w !in s[i + 1..];
  }

  /** After `Add(lex, w, p, x)`, the lower-cased word is listed exactly once
      under `p`, and the listing under `p` is exactly the words stored with
      that part of speech. */
  lemma AddListsWordOnce(lex: Lexicon, word: string, pos: string, polarity: real)
    requires Valid(lex)
    ensures var r := Add(lex, word, pos, polarity);
            && Count(WordsForPos(r, pos), Lower(word)) == 1
            && (forall k :: k in WordsForPos(r, pos) <==> k in r.entries && r.entries[k].pos == Upper(pos))
  {
    var r := Add(lex, word, pos, polarity);
    UpperIdempotent(pos);
    NoDuplicatesCount(WordsForPos(r, pos), Lower(word));
  }

  lemma NoDuplicatesSnoc(s: seq<string>, k: string)
    requires NoDuplicates(s) && k !in s
    ensures NoDuplicates(s + [k])
  {
    var t := s + [k];
    forall i, j | 0 <= i < j < |t|
      ensures t[i] != t[j]
    {
      assert t[i] == s[i];
      if j < |s| {
        assert t[j] == s[j];
      }
    }
  }

  lemma NoDuplicatesTail(s: seq<string>)
    requires NoDuplicates(s) && |s| > 0
    ensures NoDuplicates(s[1..]) && s[0] !in s[1..]
  {
    var t := s[1..];
    forall i, j | 0 <= i < j < |t|
      ensures t[i] != t[j]
    {
      assert t[i] == s[i + 1] && t[j] == s[j + 1];
    }
  }

  /** Filtering an order extended by one key extends the filtered list by
      that key when it carries the part of speech, and by nothing otherwise. */
  lemma {:induction false} FilterByPosSnoc(order: seq<string>, entries: map<string, LexEntry>,
                                           grown: map<string, LexEntry>, p: string, k: string)
    requires NoDuplicates(order) && k !in order
    requires forall w :: w in order ==> w in entries && w in grown && grown[w] == entries[w]
    requires k in grown
    ensures NoDuplicates(order + [k])
            && FilterByPos(order + [k], grown, p)
               == FilterByPos(order, entries, p) + (if grown[k].pos == p then [k] else [])
  {
    NoDuplicatesSnoc(order, k);
    if |order| > 0 {
      NoDuplicatesTail(order);
      FilterByPosSnoc(order[1..], entries, grown, p, k);
      var head := if entries[order[0]].pos == p then [order[0]] else [];
      assert (order + [k])[0] == order[0] && (order + [k])[1..] == order[1..] + [k];
      assert FilterByPos(order, entries, p) == head + FilterByPos(order[1..], entries, p);
      assert FilterByPos(order + [k], grown, p) == head + FilterByPos(order[1..] + [k], grown, p);
    } else {
      assert order + [k] == [k];
    }
  }

  /** A new word is listed last under its part of speech: the listing keeps
      insertion order, which is the order the generator's draws index into. */
  lemma AddAppendsToListing(lex: Lexicon, word: string, pos: string, polarity: real)
    requires Valid(lex) && Lower(word) !in lex.entries
    ensures WordsForPos(Add(lex, word, pos, polarity), pos) == WordsForPos(lex, pos) + [Lower(word)]
  {
    var r := Add(lex, word, pos, polarity);
    UpperIdempotent(pos);
    FilterByPosSnoc(lex.order, lex.entries, r.entries, Upper(pos), Lower(word));
  }

  /** Adding under one part of speech leaves the listing of every other part
      of speech unchanged, except that the added word leaves the one it had. */
  lemma AddKeepsOtherListings(lex: Lexicon, word: string, pos: string, polarity: real, other: string)
    requires Valid(lex)
    requires Upper(other) != Upper(pos)
    ensures forall k :: k in WordsForPos(Add(lex, word, pos, polarity), other) <==>
              k in WordsForPos(lex, other) && k != Lower(word)
  {
    UpperIdempotent(pos);
  }

  /** The starter vocabulary has no "scientist"; adding it as a NOUN lists it
      among the nouns exactly once. */
  lemma ScientistExample()
    ensures "scientist" !in WordsForPos(SeedLexicon(), "NOUN")
    ensures Count(WordsForPos(Add(SeedLexicon(), "scientist", "NOUN", 0.3), "NOUN"), "scientist") == 1
  {
    var lex := SeedLexicon();
    assert "scientist" !in lex.entries by {
      assert "scientist" !in lex.order;
    }
    LowerOfLowered("scientist");
    AddListsWordOnce(lex, "scientist", "NOUN", 0.3);
  }
}

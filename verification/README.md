# Wave-Graph Grammar-Core in Dafny

A Dafny model of the core of the Wave-Graph Grammar-Core prototype. That
prototype is a small sentence generator built on a context-free grammar. The
model covers these parts:

- **Lexicon**: a case-insensitive word map to part of speech and polarity,
  kept in insertion order (`Lexicons`).
- **Morphology**: three suffix rules, for plurals, third person singular and
  past tense (`Morphology`).
- **Grammar**: maps a left-hand side to alternatives of symbols. It comes with
  the starter rule set (`Grammars`).
- **Derivation trees**: their leaf tokens and their indented pretty printer
  (`Derivations`).
- **Expansion**: expands a symbol into a tree and a token list. Every random
  choice reads the next entry of a caller-supplied oracle, and expansion
  carries fuel (`Generator`).
- **Rendering**: the "a"/"an" correction and the linearization into one
  capitalised, punctuated sentence (`Rendering`).
- **Emotion field**: word polarities folded into a sentence valence through a
  squashing function (`Emotion`).
- **Generation**: one whole generation, which expands the start symbol,
  corrects articles, folds the valence and renders the text (`Sentences`).

Beyond the operations, the model proves a set of properties:

- Fuel is only a bound on expansion.
- A ranked grammar always finishes expanding (`Termination`).
- The starter grammar behaves as summarised below (`Starter`).

As written, the starter grammar installs a rule that rewrites "?" to itself.
That makes "?" a nonterminal, so expanding a question never finishes. One
sentence in three, the question branch of "S", therefore never comes out.
The grammar's own comment (wave_graph_grammar_core.py:109) calls quoted
strings such as "?" terminals. The model follows the code and records the
discrepancy under Findings. It also proves that
without that rule every generation finishes, and that questions then end in
"?".

## Model

| member | source | states |
|---|---|---|
| Lexicons.SeedLexicon | wave_graph_grammar_core.py:34-61 | The starter lexicon satisfies the representation invariant: keys are lower-case, listed once each, in dict order. It has 17 words. |
| Lexicons.Get | wave_graph_grammar_core.py:66-67 | Lookup finds an entry exactly when the lower-cased word is a key, and returns that key's entry. |
| Lexicons.Add | wave_graph_grammar_core.py:63-64 | The polarity defaults to 0. Adding keeps the invariant. Every case variant of the word then finds the new entry, with the part of speech upper-cased. Every other key is unchanged. An overwritten key keeps its place; a new key is appended. |
| Lexicons.WordsForPos | wave_graph_grammar_core.py:69-71 | Lists exactly the words whose stored part of speech equals the upper-cased query, without duplicates. |
| Lexicons.AddListsWordOnce | wave_graph_grammar_core.py:63-71 | After an add, the word is listed exactly once under its part of speech, and that listing is exactly the words stored with it. |
| Lexicons.AddAppendsToListing | wave_graph_grammar_core.py:63-71 | A word not yet known is listed last under its part of speech, after the words already listed there in their order. |
| Lexicons.AddKeepsOtherListings | wave_graph_grammar_core.py:63-71 | An add changes no other part of speech's listing, except that the re-filed word leaves the listing it was in. |
| Lexicons.ScientistExample | test_core.py:6-10 | "scientist" is not a starter noun. Once added as a NOUN, it is listed among the nouns exactly once. |
| Morphology.Pluralize | wave_graph_grammar_core.py:82-88 | After a consonant and "y", the "y" becomes "ies". After s, x, z, ch or sh, "es" is appended (and only then). Otherwise "s" is appended. The result is longer and ends in "s". |
| Morphology.ThirdPersonSingular | wave_graph_grammar_core.py:91-96 | Agrees with `Pluralize` on every word: the two rules are the same. |
| Morphology.PastTense | wave_graph_grammar_core.py:99-104 | A word ending in "e" gets "d". Otherwise, after a consonant and "y", the "y" becomes "ied". Otherwise "ed" is appended. The result keeps the stem and ends in "d". |
| Morphology.PluralizeRecoverable | wave_graph_grammar_core.py:82-88 | Undoing one of the three suffix rules on a plural always yields the original word among the candidates. |
| Morphology.PastTenseRecoverable | wave_graph_grammar_core.py:99-104 | Undoing one of the three past-tense rules always yields the original verb among the candidates. |
| Morphology.PluralizeNotInjective | wave_graph_grammar_core.py:82-88 | The rules lose information: "by" and "bie" share the plural "bies". |
| Morphology.PluralExamples | test_core.py:12-14 | "cat" becomes "cats" and "box" becomes "boxes". |
| Morphology.VerbExamples | test_core.py:15-16 | "chase" becomes "chases" and "like" becomes "liked". |
| Grammars.AddRule | wave_graph_grammar_core.py:153-154 | The rule is stored under its left-hand side. Every other rule and the start symbol are unchanged. Rules stay filed under their own left-hand side. |
| Grammars.AddRuleHas | wave_graph_grammar_core.py:153-157 | After an add, `Has` (the membership test of lines 156-157) knows exactly the old nonterminals and the new one. |
| Grammars.SeedGrammar | wave_graph_grammar_core.py:123-151 | The start symbol is "S". The known nonterminals are exactly the fifteen installed, "?" among them. S, CLAUSE, NP, VP, Q and IMP are all present. |
| Grammars.IntendedGrammar | wave_graph_grammar_core.py:128-150 | The starter rules without the one for "?": every other rule is identical and "?" is unknown. |
| Emotion.FromWord | wave_graph_grammar_core.py:174-177 | A word's polarity is its entry's polarity, or 0 when the lexicon does not know it. |
| Emotion.FoldValenceSnoc | wave_graph_grammar_core.py:217-219 | The valence is a left fold: the last token is combined last. |
| Emotion.ValenceOfThree | wave_graph_grammar_core.py:169-172 | For three tokens, the valence is the nested squash of the running sums, starting from 0. Each step is `Combine`, the squashed sum of lines 169-172. |
| Emotion.FoldValenceBounded | wave_graph_grammar_core.py:169-172 | A squashing function into [-1, 1] keeps the valence in [-1, 1], whatever the length. |
| Derivations.Lines | wave_graph_grammar_core.py:190-197 | The reference pre-order listing has one line per node, starts with the root's label, and never goes shallower than the start depth. |
| Derivations.PrettyRendersLines | wave_graph_grammar_core.py:190-197 | The pretty printer `Pretty` is exactly the rendering of the pre-order listing: each node on its own line, two spaces per level. |
| Derivations.PrettyStartsWithRoot | wave_graph_grammar_core.py:190-194 | At indentation zero the printout opens with the root's symbol. |
| Generator.Draw | wave_graph_grammar_core.py:228 | A draw among n items is a valid index. It equals the oracle entry whenever that entry is in range. |
| Generator.ChooseForPos | wave_graph_grammar_core.py:246-257 | A known slot draws one of its candidates and consumes one draw. An unknown slot yields "" and consumes none. With no empty word in the lexicon, a known slot's word is non-empty. |
| Generator.ChooseForPosWords | wave_graph_grammar_core.py:246-257 | The closed lists for P, AUX, WH and DET. For NOUN, VERB and ADJ, a lexicon word of that part of speech, or "cat"/"see"/"happy" when there is none. |
| Generator.ChooseReachesEveryCandidate | wave_graph_grammar_core.py:246-257 | Every candidate of a slot is drawn by the oracle entry holding its index. |
| Generator.ExpandName | wave_graph_grammar_core.py:223-244 | A name without a rule becomes a leaf showing itself. The tokens are the tree's leaves, and the tree is labelled with the name. A nonterminal gets an inner node. Failures are running out of fuel, or a reached rule with no alternatives. |
| Generator.ExpandSymbol | wave_graph_grammar_core.py:233-243 | A slot always succeeds, as a childless leaf labelled with its tag whose token is one of the slot's candidate words ("" for an unknown slot). A known slot consumes one draw, an unknown one none. The tokens are the tree's leaves, the tree carries the symbol's name, and failures are only expansion errors. |
| Generator.ExpandSeq | wave_graph_grammar_core.py:232-244 | One tree per symbol. The tokens are the trees' leaves in order. The oracle position only advances. |
| Generator.ExpandSeqLabels | wave_graph_grammar_core.py:232-241 | The children are labelled with the chosen alternative's symbols, in order. |
| Generator.ExpandNameWellFormed | wave_graph_grammar_core.py:223-244 | Every tree built is a derivation. The root fits the name: a leaf showing the name when it has no rule, an inner node otherwise. Each inner node is a nonterminal whose children fit one of its rule's alternatives, symbol by symbol and in order: a literal becomes a leaf showing itself, a slot a leaf showing one of its candidate words, and a nonterminal an inner node. |
| Starter.MislabelledLeavesRejected | wave_graph_grammar_core.py:223-235 | Well-formedness rejects a literal "?" leaf that does not show "?", and an "N" node whose "<NOUN>" leaf shows its own tag, which no lexicon lists. |
| Generator.ExpandNameWords | wave_graph_grammar_core.py:223-244 | Without empty rules or alternatives, there is at least one token per symbol. With word-yielding symbols and no empty lexicon word, no token is empty. |
| Rendering.FixArticles | wave_graph_grammar_core.py:259-272 | A token changes exactly when it is "a" in any case and the next token starts with a vowel once lower-cased. It then becomes "an". The length and the last token are kept. |
| Rendering.Postprocess | wave_graph_grammar_core.py:259-272 | The left-to-right loop computes exactly `FixArticles`. |
| Rendering.FixArticlesIdempotent | wave_graph_grammar_core.py:259-272 | Correcting twice changes nothing more. |
| Rendering.LinearizeSpaceFreeTokens | wave_graph_grammar_core.py:275-283 | Non-empty tokens without spaces always render, and the text has no space in front of "?" or ",". |
| Rendering.Collapse | wave_graph_grammar_core.py:279 | The result is `Tidy`: a reference that drops exactly the spaces standing right before "?" or "," and keeps every other character. A text without such a space is unchanged. Only spaces are removed, and the last character is kept. Without double spaces, no space is left before "?" or ",". |
| Rendering.Linearize | wave_graph_grammar_core.py:275-283 | An empty list gives "". The one-empty-token list is the index error. Otherwise the text ends in ".", "?" or "!", starts with the upper-cased first character, and keeps every non-space character. "." is added exactly when the joined text lacked a terminal mark. The text is the collapsed join with its first character upper-cased and, possibly, "." appended; when the join has no space before "?" or ",", that is the join itself. |
| Sentences.Generate | wave_graph_grammar_core.py:214-221 | The tree is well formed and rooted at the start symbol. The text is the linearization of the tree's leaves after the article correction, and the valence folds those same corrected leaves. Without empty alternatives, the text ends in a terminal mark and does not start lower-case. |
| Sentences.Realize | wave_graph_grammar_core.py:216-221 | The tree is kept. The text is the linearization of its article-corrected leaves, and the valence is the fold over those same tokens. It fails, with `EmptyText`, exactly when the leaves are the one empty token. |
| Sentences.RealizeValenceBounded | wave_graph_grammar_core.py:169-172 | With a squashing function into [-1, 1], the valence of every realized sentence lies in [-1, 1], whatever the tree. |
| Sentences.GenerateValenceBounded | wave_graph_grammar_core.py:214-221 | Every generated valence lies in [-1, 1]. |
| Termination.ExpandNameFuel | wave_graph_grammar_core.py:223-244 | A result obtained with some fuel is the same with more: fuel only bounds the recursion. |
| Termination.ExpandNameTerminates | wave_graph_grammar_core.py:223-244 | A nonterminal ranked below the fuel always expands, whatever the choices, when each rule refers only to lower-ranked nonterminals. |
| Starter.SeedQuestionDiverges | wave_graph_grammar_core.py:151 | In the starter grammar as installed, expanding "?" or "Q" fails for every oracle and every fuel. |
| Starter.SeedGenerationByFirstChoice | wave_graph_grammar_core.py:128-151 | As installed: generation fails whenever the first draw picks the question branch. For a lexicon without the empty word, it succeeds for the other two branches once the fuel reaches 5. |
| Starter.IntendedGenerationSucceeds | wave_graph_grammar_core.py:214-221 | Without the "?" rule and for a lexicon without the empty word, every generation with fuel 5 succeeds. The text ends in a terminal mark and does not start lower-case. The tree is rooted at "S", and its printout opens with "S". |
| Starter.IntendedQuestionEndsInQuestionMark | wave_graph_grammar_core.py:138 | Without the "?" rule and for a lexicon without the empty word, a question comes out and its text ends in "?". |

## Left out

- Randomness: `random.choice` and `random.seed` are replaced by an oracle of
  choice indices. A draw among n items takes the next entry modulo n, and 0
  past the end. Python's generator itself, and which indices a seed yields,
  are not modelled.
- Recursion depth: Python's recursion limit becomes fuel, one unit per
  level of nested nonterminal expansion; siblings share the same fuel, so
  fuel bounds depth, not the number of expansions. The `RecursionError` becomes `OutOfFuel`.
- `math.tanh` is a parameter `squash`. Floating-point polarities and
  valences are reals, and rounding is not modelled.
- Case mapping (`lower`, `upper`) is ASCII-only. Other Unicode letters are
  left as they are.
- Starter.IntendedGenerationSucceeds: states that the first character is not
  a lower-case ASCII letter. That is weaker than the `isupper()` check in
  test_core.py:32, because case mapping is ASCII-only and a lexicon word
  could start with a non-letter.
- The attribute dictionaries that accompany part-of-speech slots are always
  empty and unused, so a slot carries only its tag.
- The `ValueError` branch for a symbol that is neither a string nor a tuple
  is unreachable: a symbol here is a name or a slot by construction.
- `random.choice` on a rule with no alternatives raises `IndexError`. This is
  modelled as the error `EmptyRule`.
- `s[0]` in `_linearize` raises `IndexError` when the text is empty after
  joining. That happens only for the list holding one empty token, and it is
  modelled as `None`, or `EmptyText` in `Generate`.
- Successive `generate()` calls on one generator share a random stream.
  Here each `Generate` reads the oracle from position 0 and does not return
  the position it reached, so two generations are not chained.
- The generator object, its constructor and its `functional_words` field
  are folded into pure functions and one constant map.
- The demo, the command-line entry point and `_mini_checks` are left out;
  they print and parse arguments. Their assertions duplicate test_core.py
  and appear as the example lemmas.

## Findings

| source | as written | input that shows it | evidently intended | confidence | as-written member | corrected member |
|---|---|---|---|---|---|---|
| wave_graph_grammar_core.py:151 | `add_rule("?", [["?"]])` makes "?" a nonterminal whose only alternative is itself, so every expansion of "?", and with it of "Q", recurses without end | any oracle whose first entry is 1 (mod 3), which picks the question branch of "S" | "?" is the literal question mark that closes both question alternatives, so a question sentence ends in "?" | not executed | Starter.SeedGenerationByFirstChoice | Starter.IntendedGenerationSucceeds |

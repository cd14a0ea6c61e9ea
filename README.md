# Regulation-state scoring, modelled in Dafny

This project models the scoring core of a small demo that estimates a person's
regulation state from words. The three states are hypoarousal ("hypo"), hyperarousal
("hyper") and flow. There are two scorers:

- **Selection scorer** (`demo1/app.py`). A lexicon maps each lower-cased word to one
  state and one weight. `predict` takes a list of selected words with intensities. For
  every known word it adds `intensity * weight` to that word's state. It then turns the
  three totals into percentages, guarded against a zero total. A lexicon state other
  than hypo, hyper or flow makes the update raise `KeyError`.
- **Anchor scorer** (`demo2/scorer.py`, class `RobertaAnchorScorer`).
  - The constructor reads a lexicon table (word, hypo, hyper, flow). Its keys are the
    lower-cased, stripped words. Its insertion order gives the anchor words, and it
    embeds every anchor word.
  - `_encode_texts` is a memo cache in front of the sentence encoder.
  - `score_sentence` tokenizes the sentence and compares every token with every
    anchor. Each pair whose similarity reaches the threshold adds the anchor's
    weights, scaled by the similarity, to the scores, and is recorded as a match.
    The scores are then normalised and rounded to two places, and the dominant state
    is picked.

Modules, one per concern:

| file | module | models |
|---|---|---|
| `wrappers.dfy` | `Wrappers` | `Option` and `Result` |
| `text.dfy` | `Text` | `str.lower`, `str.strip`, `str.isalpha` |
| `states.dfy` | `States` | the three states, per-state tallies, normalisation, `round(x, 2)`, the dominant pick |
| `selection.dfy` | `SelectionScorer` | `demo1/app.py`: lexicon comprehension and `predict` |
| `lexicon.dfy` | `AnchorLexicon` | the lexicon table read by `RobertaAnchorScorer.__init__` |
| `join.dfy` | `AnchorJoin` | the threshold join, scores, match records and the result of `score_sentence` |
| `scorer.dfy` | `AnchorScorer` | the class `RobertaAnchorScorer`: constructor, `_encode_texts`, `score_sentence`, token filter |

The source's mutable state keeps its form in the model:

- `RobertaAnchorScorer` is a Dafny class.
  - `cache` is a `map` field, which `EncodeTexts` updates in a loop.
  - A ghost field `encoderBatches` records every batch handed to the encoder. This lets
    the contracts say which texts were encoded.
- The loops of `__init__`, `score_sentence` and `predict` are `for` loops. Each carries
  invariants against a specification function, and lemmas prove properties of those
  functions.
- The comprehensions are functions: the token filter, the uncached-text filter and the
  lexicon of `demo1`.

Scores are exact reals, and the encoder, similarity, tokenizer and stopword list are
parameters (see "Left out").

## Model

| member | source | states |
|---|---|---|
| Text.LowerChar | demo1/app.py:30 | a lower-cased character is never upper case; `A`–`Z` move to `a`–`z`, every other character is unchanged |
| Text.Lower | demo2/scorer.py:15 | `lower()` keeps the length, leaves no upper-case letter and changes exactly the upper-case letters |
| Text.LeadingSpaces | demo2/scorer.py:15 | the leading run that `strip()` removes is all whitespace and is followed by a non-space |
| Text.TrailingSpaces | demo2/scorer.py:15 | the trailing run that `strip()` removes is all whitespace and is preceded by a non-space |
| Text.StripTrims | demo2/scorer.py:15 | `strip()` returns a middle slice with only whitespace cut off both ends, and its result neither starts nor ends with whitespace |
| Text.Strip | demo2/scorer.py:15 | `strip()`: drops the leading and the trailing whitespace run; Text.StripTrims states what the result is |
| Text.IsAlpha | demo2/scorer.py:45 | `isalpha()`: a non-empty string of letters only |
| States.Named | demo1/app.py:27 | exactly the keys hypo, hyper and flow name an accumulator; any other state is a missing key |
| States.Tally.Bump | demo1/app.py:35 | `scores[state] += x` adds `x` to that state and leaves the other two unchanged |
| States.Normalized | demo1/app.py:37-38 | a zero total gives all-zero percentages, so no division happens |
| States.NormalizedIsShare | demo2/scorer.py:80 | with a non-zero total, each percentage times the total equals its score times 100 and the three sum to 100; non-negative scores give percentages in [0, 100] |
| States.Round2 | demo2/scorer.py:80 | `round(x, 2)` lies within 0.005 of `x` and keeps values in [0, 100] in that range |
| States.Round2OfWhole | demo2/scorer.py:80 | rounding a whole number gives it back |
| States.Rounded | demo2/scorer.py:80 | each rounded percentage is within 0.005 of the exact one, the sum within 0.015, and [0, 100] bounds are kept |
| States.Dominant | demo2/scorer.py:81 | `max(percentages, key=percentages.get)` is a state with the largest percentage, and every earlier state in hypo, hyper, flow order is strictly smaller |
| States.FirstMaximumUnique | demo2/scorer.py:81 | only one state satisfies that tie-break, so the dominant state is determined |
| SelectionScorer.BuildLexicon | demo1/app.py:9-12 | the dict comprehension over the rows, keyed by the lower-cased word; SelectionScorer.LexiconKeys and SelectionScorer.LexiconLastRowWins state its keys and values |
| SelectionScorer.LexiconKeys | demo1/app.py:9-12 | the lexicon's keys are exactly the lower-cased words of the rows |
| SelectionScorer.LexiconLastRowWins | demo1/app.py:9-12 | a key holds the state and weight of the last row that spells it, in any case |
| SelectionScorer.Contribution | demo1/app.py:30-35 | a selection adds `intensity * weight` to its lexicon state only, and an unknown word adds nothing |
| SelectionScorer.Accumulated | demo1/app.py:29-35 | `scores` after the loop: the selections' contributions added in order to zero totals; SelectionScorer.AccumulatedPermutation and SelectionScorer.UnknownWordsScoreNothing state its properties |
| SelectionScorer.AccumulatedPermutation | demo1/app.py:29-35 | the accumulated totals are the same for any reordering of the selections |
| SelectionScorer.OrderIrrelevant | demo1/app.py:29-38 | whether `predict` fails, and its totals, do not depend on the order of the selections |
| SelectionScorer.UnknownWordsScoreNothing | demo1/app.py:30-38 | selections of unknown words only, or none at all, leave every total and percentage at zero |
| SelectionScorer.FirstFaulty | demo1/app.py:33-35 | a selection whose lexicon state is not hypo, hyper or flow makes the list unscorable, and the first such selection has the least index of all faulty ones, so the state `predict` reports is determined |
| SelectionScorer.Predict | demo1/app.py:26-38 | fails exactly when some selection's lexicon state has no accumulator, and reports the first such state; otherwise returns the normalised accumulated totals |
| SelectionScorer.OneHypoWordGivesAllHypo | demo1/app.py:9-38 | the lexicon numb/hypo/1.0 and one selection of numb at intensity 2 give 100% hypo |
| AnchorLexicon.Key | demo2/scorer.py:15 | `row["word"].lower().strip()`; AnchorLexicon.KeyIsNormal states what a key looks like |
| AnchorLexicon.KeyIsNormal | demo2/scorer.py:15 | a lexicon key has no upper-case letter and no whitespace at either end |
| AnchorLexicon.WeightsOf | demo2/scorer.py:16-20 | a present cell is stored as it is; a missing column reads as 0.0 |
| AnchorLexicon.Build | demo2/scorer.py:13-20 | `self.lexicon` after the loop; AnchorLexicon.BuildKeys, AnchorLexicon.LastRowWins and AnchorLexicon.WeightsFromRows state its keys and values |
| AnchorLexicon.Anchors | demo2/scorer.py:23 | `list(self.lexicon.keys())`; AnchorLexicon.AnchorsListKeys and AnchorLexicon.AnchorsByFirstOccurrence state its contents and order |
| AnchorLexicon.BuildKeys | demo2/scorer.py:13-20 | the lexicon's keys are exactly the keys of the table's words |
| AnchorLexicon.LastRowWins | demo2/scorer.py:14-20 | a key holds the weights of the last row with that key |
| AnchorLexicon.WeightsFromRows | demo2/scorer.py:14-20 | every stored weight triple comes from a row with that key |
| AnchorLexicon.AbsentColumnIsZero | demo2/scorer.py:17-19 | a table without a state's column gives every word weight 0.0 for that state |
| AnchorLexicon.AnchorsListKeys | demo2/scorer.py:23 | the anchor words list every lexicon key exactly once and nothing else |
| AnchorLexicon.AnchorsByFirstOccurrence | demo2/scorer.py:14-23 | anchor words come in the order their keys first occur in the table |
| AnchorLexicon.BuildStep | demo2/scorer.py:14-20 | one row stores its weights under its key; a new key takes the next place in the key order, and a repeated key keeps its place |
| AnchorJoin.AllMatches | demo2/scorer.py:59-71 | `matched` after the nested loop: each token's records against the anchors in order, token after token; AnchorJoin.MatchesExact and AnchorJoin.MatchesSound state its contents |
| AnchorJoin.MatchesExact | demo2/scorer.py:59-71 | the match list has one record per qualifying pair, and no other; each qualifying pair's record sits at the pair's place in token-then-anchor order |
| AnchorJoin.PositionsIncrease | demo2/scorer.py:59-63 | records of earlier pairs, in token-then-anchor order, come first |
| AnchorJoin.MatchesSound | demo2/scorer.py:62-71 | every record comes from a pair whose similarity reaches the threshold |
| AnchorJoin.IdenticalTokenMatches | demo2/scorer.py:60-71 | a token embedded like an anchor, with self-similarity 1 and a threshold of at most 1, is matched to that anchor |
| AnchorJoin.ThresholdMonotone | demo2/scorer.py:62 | raising the threshold never increases the number of matches |
| AnchorJoin.MatchGainSnoc | demo2/scorer.py:64-71 | recording a match adds its anchor's weights, scaled by its similarity, to the scores |
| AnchorJoin.TotalScore | demo2/scorer.py:55-66 | `scores` after the nested loop: every match's gain added to zero scores; AnchorJoin.ScoreNonNegative states its sign |
| AnchorJoin.CompareStep | demo2/scorer.py:61-71 | one inner pass appends the pair's record and adds its anchor's weights scaled by the similarity exactly when the similarity reaches the threshold, and changes nothing otherwise |
| AnchorJoin.ScoreNonNegative | demo2/scorer.py:55-66 | with a non-negative threshold and non-negative weights every score is non-negative |
| AnchorJoin.CompareAll | demo2/scorer.py:55-71 | the nested loop produces all qualifying records in order, and scores equal to the records' summed gains |
| AnchorJoin.Summarize | demo2/scorer.py:73-91 | the result dict from the final scores and matches; AnchorJoin.SummaryCases states its two cases |
| AnchorJoin.SentenceScore | demo2/scorer.py:43-92 | no tokens give the fixed answer, tokens against no anchors raise, otherwise the join is summarised; AnchorJoin.EmptyOutcomes and AnchorJoin.CalmScenario state its outcomes |
| AnchorJoin.SummaryCases | demo2/scorer.py:73-85 | a zero total gives zero percentages, no dominant state and "No relevant keywords found"; otherwise the percentages are the rounded shares, the dominant state is their first maximum, and non-negative scores give percentages in [0, 100] summing to 100 ± 0.015 |
| AnchorJoin.EmptyOutcomes | demo2/scorer.py:47-78 | no tokens give "No valid tokens"; the result is an error exactly when there are tokens but no anchor words; tokens against anchors without matches give zeros and "No relevant keywords found" |
| AnchorJoin.CalmScenario | demo2/scorer.py:43-92 | the tokens feel and calm against the single all-flow anchor calm give 100% flow, dominant flow and the one match calm/calm/1.0 |
| AnchorScorer.Tokens | demo2/scorer.py:45 | a token is kept exactly when it is alphabetic and not a stopword |
| AnchorScorer.TokensOfConcat | demo2/scorer.py:45 | the filter keeps order and duplicates: it distributes over concatenation |
| AnchorScorer.Uncached | demo2/scorer.py:36 | a text is handed to the encoder exactly when it is one of the inputs and not cached |
| AnchorScorer.NothingUncached | demo2/scorer.py:36-37 | the encoder is called exactly when some input is not cached |
| AnchorScorer.ReadLexicon | demo2/scorer.py:13-23 | the loop builds the lexicon and its key order from the rows |
| AnchorScorer.RobertaAnchorScorer.SentenceTokens | demo2/scorer.py:44-45 | the tokens of the lower-cased sentence filtered by AnchorScorer.Tokens, whose contract states which are kept |
| AnchorScorer.RobertaAnchorScorer.constructor | demo2/scorer.py:10-33 | the lexicon and anchor words come from the rows; the scorer keeps the given threshold, encoder, similarity, tokenizer and stopwords; each anchor's embedding is the encoder's vector for it, from one encoder call over all anchors; the cache holds exactly the anchors, and the scorer's invariant holds |
| AnchorScorer.RobertaAnchorScorer.EncodeTexts | demo2/scorer.py:35-41 | one vector per input, in input order, equal to its cache entry and its embedding; the cache gains exactly the inputs and keeps old entries; only the uncached texts go to the encoder, in one batch, and only if there are any |
| AnchorScorer.RobertaAnchorScorer.ScoreSentence | demo2/scorer.py:43-92 | the result is the summarised threshold join of the sentence's tokens with all anchors, or the error when there are tokens but no anchors; the cache gains exactly the tokens and keeps old entries; the encoder gets the uncached tokens in one batch, and nothing for a sentence without tokens |
| AnchorScorer.RobertaAnchorScorer.RepeatedEncodeIsStable | demo2/scorer.py:36-41 | encoding the same texts twice returns the same vectors, and the second call hands nothing to the encoder |

## Left out

- Reading the CSV files with pandas is not modelled. The lexicon is a given sequence of
  rows.
- A row whose `word` is missing or not a string is not modelled; the source raises an
  error for it.
- NaN weight cells are not modelled. `row.get(col, 0.0)` defaults only when the whole
  column is absent, and a blank cell stays NaN; the model gives each cell an `Option`.
- Text.Lower: only ASCII `A`–`Z` is lower-cased. Python's Unicode case mapping is not
  modelled.
- Text.IsAlpha: only ASCII letters count as alphabetic, not all Unicode letters.
- The sentence encoder is the parameter `embed`, a deterministic function of one text.
  Batch numerics are not modelled.
- Cosine similarity is the parameter `similarity`. Its value range is not modelled.
- NLTK's `word_tokenize` and the English stopword corpus are the parameters `tokenize`
  and `stopwords`. The calm scenario therefore starts from the tokens feel and calm,
  not from the sentence "I feel calm".
- The default threshold of 0.7 is left to the caller.
- Floating-point arithmetic is replaced by exact reals. States.Round2 rounds half to
  even on exact reals, whereas Python rounds the binary double.
- States.Round2: its contract states only the 0.005 bound and the [0, 100] range. The
  half-even tie rule lives in its definition.
- The "Mixed: …" label is not formatted as a string. The model's `Mixed` label carries
  the percentages and the dominant state that it is formatted from.
- The difference between the integer 0 and the float 0.0 in the zero branches is not
  modelled.
- `np.array` packaging of the returned vectors is not modelled.
- The Flask routes, JSON handling, temporary files, audio conversion, speech
  recognition, the emotion CNN and the browser script are left out. They are I/O and
  foreign libraries.
- Malformed request items in `predict` are not modelled. These are a missing `word` or
  `intensity`, or an intensity that `float()` rejects.
- AnchorJoin.SentenceScore and AnchorScorer.RobertaAnchorScorer.ScoreSentence: tokens
  against an empty lexicon give the `Failure(NoAnchorEmbeddings)` result. In the source,
  `cosine_similarity` raises a `ValueError` for the empty one-dimensional anchor array;
  scikit-learn is not part of this model.
- SelectionScorer.Predict: the failure is a `Failure(UnknownState(state))` result, where
  the source raises `KeyError`. The totals at that moment are not exposed.

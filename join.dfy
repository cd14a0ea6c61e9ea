/**
 * What `score_sentence` computes once the tokens are embedded: every
 * (token, anchor) pair whose similarity reaches the threshold adds the anchor's
 * weights, scaled by the similarity, to the three scores and is recorded as a
 * match; the scores are then turned into percentages and a dominant state.
 */
module AnchorJoin {

  import opened Wrappers
  import opened States

  /** An embedding vector. */
  type Vec = seq<real>

  /** One entry `{"token", "matched_anchor", "similarity"}` of `matched`. */
  datatype Match = Match(token: string, anchor: string, similarity: real)

  /**
   * The inputs of the join: the tokens with their vectors, the anchor words with
   * theirs, the lexicon weights, the similarity measure and the threshold.
   */
  datatype Join = Join(
    tokens: seq<string>, tokenVecs: seq<Vec>,
    anchors: seq<string>, anchorVecs: seq<Vec>,
    weights: map<string, Tally>,
    sim: (Vec, Vec) -> real,
    threshold: real)
  {
    /** One vector per token and per anchor, and a lexicon entry for every anchor. */
    predicate Valid()
    {
      && |tokenVecs| == |tokens|
      && |anchorVecs| == |anchors|
      && forall a :: a in anchors ==> a in weights
    }
  }

  /** The similarity of token `t` and anchor `a`. */
  function Sim(j: Join, t: nat, a: nat): real
    requires j.Valid() && t < |j.tokens| && a < |j.anchors|
  {
    j.sim(j.tokenVecs[t], j.anchorVecs[a])
  }

  /** `sim >= self.threshold`: the threshold itself qualifies. */
  predicate Qualifies(j: Join, t: nat, a: nat)
    requires j.Valid() && t < |j.tokens| && a < |j.anchors|
  {
    Sim(j, t, a) >= j.threshold
  }

  /** The match record of token `t` and anchor `a`. */
  function Record(j: Join, t: nat, a: nat): Match
    requires j.Valid() && t < |j.tokens| && a < |j.anchors|
  {
    Match(j.tokens[t], j.anchors[a], Sim(j, t, a))
  }

  /** The records token `t` produces against the first `n` anchors, in anchor order. */
  function RowMatches(j: Join, t: nat, n: nat): seq<Match>
    requires j.Valid() && t < |j.tokens| && n <= |j.anchors|
  {
    if n == 0 then []
    else RowMatches(j, t, n - 1) + (if Qualifies(j, t, n - 1) then [Record(j, t, n - 1)] else [])
  }

  /** `matched` after the first `m` tokens, each compared with all anchors. */
  function MatchesUpTo(j: Join, m: nat): seq<Match>
    requires j.Valid() && m <= |j.tokens|
  {
    if m == 0 then []
    else MatchesUpTo(j, m - 1) + RowMatches(j, m - 1, |j.anchors|)
  }

  function AllMatches(j: Join): seq<Match>
    requires j.Valid()
  {
    MatchesUpTo(j, |j.tokens|)
  }

  // ---------------------------------------------------------------------
  // The records are exactly the qualifying pairs, in token-then-anchor order.

  /** How many of the first `n` anchors qualify for token `t`. */
  function RowCount(j: Join, t: nat, n: nat): nat
    requires j.Valid() && t < |j.tokens| && n <= |j.anchors|
  {
    if n == 0 then 0
    else RowCount(j, t, n - 1) + (if Qualifies(j, t, n - 1) then 1 else 0)
  }

  /** How many pairs with one of the first `m` tokens qualify. */
  function CountUpTo(j: Join, m: nat): nat
    requires j.Valid() && m <= |j.tokens|
  {
    if m == 0 then 0
    else CountUpTo(j, m - 1) + RowCount(j, m - 1, |j.anchors|)
  }

  /** The number of qualifying pairs that come before (t, a) in token-then-anchor order. */
  function Position(j: Join, t: nat, a: nat): nat
    requires j.Valid() && t < |j.tokens| && a < |j.anchors|
  {
    CountUpTo(j, t) + RowCount(j, t, a)
  }

  lemma {:induction false} RowCountGrows(j: Join, t: nat, a: nat, n: nat)
    requires j.Valid() && t < |j.tokens| && a < n <= |j.anchors|
    ensures RowCount(j, t, a) + (if Qualifies(j, t, a) then 1 else 0) <= RowCount(j, t, n)
  {
    if a < n - 1 {
      RowCountGrows(j, t, a, n - 1);
    }
  }

  lemma {:induction false} CountUpToGrows(j: Join, t: nat, m: nat)
    requires j.Valid() && t < m <= |j.tokens|
    ensures CountUpTo(j, t) + RowCount(j, t, |j.anchors|) <= CountUpTo(j, m)
  {
    if t < m - 1 {
      CountUpToGrows(j, t, m - 1);
    }
  }

  /** Qualifying pairs earlier in token-then-anchor order get smaller positions. */
  lemma PositionsIncrease(j: Join, t: nat, a: nat, t': nat, a': nat)
    requires j.Valid() && t < |j.tokens| && a < |j.anchors| && t' < |j.tokens| && a' < |j.anchors|
    requires Qualifies(j, t, a)
    requires t < t' || (t == t' && a < a')
    ensures Position(j, t, a) < Position(j, t', a')
  {
    if t == t' {
      RowCountGrows(j, t, a, a');
    } else {
      RowCountGrows(j, t, a, |j.anchors|);
      CountUpToGrows(j, t, t');
    }
  }

  lemma {:induction false} RowMatchesExact(j: Join, t: nat, n: nat)
    requires j.Valid() && t < |j.tokens| && n <= |j.anchors|
    ensures |RowMatches(j, t, n)| == RowCount(j, t, n)
    ensures forall a :: 0 <= a < n && Qualifies(j, t, a) ==>
              RowCount(j, t, a) < RowCount(j, t, n) && RowMatches(j, t, n)[RowCount(j, t, a)] == Record(j, t, a)
  {
    if n > 0 {
      RowMatchesExact(j, t, n - 1);
      var before := RowMatches(j, t, n - 1);
      assert forall k :: 0 <= k < |before| ==> RowMatches(j, t, n)[k] == before[k];
    }
  }

  /**
   * The match list holds one record per qualifying pair and nothing else: its
   * length is the number of qualifying pairs, and the record of each qualifying
   * pair sits at that pair's position in token-then-anchor order.
   */
  lemma {:induction false} MatchesExact(j: Join, m: nat)
    requires j.Valid() && m <= |j.tokens|
    ensures |MatchesUpTo(j, m)| == CountUpTo(j, m)
    ensures forall t, a :: 0 <= t < m && 0 <= a < |j.anchors| && Qualifies(j, t, a) ==>
              Position(j, t, a) < CountUpTo(j, m) && MatchesUpTo(j, m)[Position(j, t, a)] == Record(j, t, a)
  {
    if m > 0 {
      MatchesExact(j, m - 1);
      RowMatchesExact(j, m - 1, |j.anchors|);
      var before := MatchesUpTo(j, m - 1);
      var row := RowMatches(j, m - 1, |j.anchors|);
      assert MatchesUpTo(j, m) == before + row;
      forall t, a | 0 <= t < m && 0 <= a < |j.anchors| && Qualifies(j, t, a)
        ensures Position(j, t, a) < CountUpTo(j, m) && MatchesUpTo(j, m)[Position(j, t, a)] == Record(j, t, a)
      {
        if t < m - 1 {
          assert (before + row)[Position(j, t, a)] == before[Position(j, t, a)];
        } else {
          assert (before + row)[Position(j, t, a)] == row[RowCount(j, t, a)];
        }
      }
    }
  }

  /** Every record comes from a qualifying pair, so every recorded similarity reaches the threshold. */
  lemma {:induction false} MatchesSound(j: Join, m: nat)
    requires j.Valid() && m <= |j.tokens|
    ensures forall r :: r in MatchesUpTo(j, m) ==>
              exists t, a :: 0 <= t < m && 0 <= a < |j.anchors| && Qualifies(j, t, a) && r == Record(j, t, a)
    ensures forall r :: r in MatchesUpTo(j, m) ==> r.similarity >= j.threshold
  {
    if m > 0 {
      MatchesSound(j, m - 1);
      RowMatchesSound(j, m - 1, |j.anchors|);
    }
  }

  lemma {:induction false} RowMatchesSound(j: Join, t: nat, n: nat)
    requires j.Valid() && t < |j.tokens| && n <= |j.anchors|
    ensures forall r :: r in RowMatches(j, t, n) ==> exists a :: 0 <= a < n && Qualifies(j, t, a) && r == Record(j, t, a)
  {
    if n > 0 {
      RowMatchesSound(j, t, n - 1);
    }
  }

  /** An identical token meets its anchor with similarity 1, so for a threshold of at most 1 it is matched. */
  lemma IdenticalTokenMatches(j: Join, t: nat, a: nat)
    requires j.Valid() && t < |j.tokens| && a < |j.anchors|
    requires j.tokenVecs[t] == j.anchorVecs[a] && j.sim(j.anchorVecs[a], j.anchorVecs[a]) == 1.0
    requires j.threshold <= 1.0
    ensures Record(j, t, a) in AllMatches(j)
  {
    MatchesExact(j, |j.tokens|);
  }

  // ---------------------------------------------------------------------
  // Raising the threshold never adds matches.

  lemma {:induction false} RowCountMonotone(j: Join, th: real, t: nat, n: nat)
    requires j.Valid() && j.threshold <= th && t < |j.tokens| && n <= |j.anchors|
    ensures RowCount(j.(threshold := th), t, n) <= RowCount(j, t, n)
  {
    if n > 0 {
      RowCountMonotone(j, th, t, n - 1);
      assert Sim(j.(threshold := th), t, n - 1) == Sim(j, t, n - 1);
    }
  }

  lemma {:induction false} CountMonotone(j: Join, th: real, m: nat)
    requires j.Valid() && j.threshold <= th && m <= |j.tokens|
    ensures CountUpTo(j.(threshold := th), m) <= CountUpTo(j, m)
  {
    if m > 0 {
      CountMonotone(j, th, m - 1);
      RowCountMonotone(j, th, m - 1, |j.anchors|);
    }
  }

  /** A higher threshold never yields more match records. */
  lemma ThresholdMonotone(j: Join, th: real)
    requires j.Valid() && j.threshold <= th
    ensures |AllMatches(j.(threshold := th))| <= |AllMatches(j)|
  {
    MatchesExact(j, |j.tokens|);
    MatchesExact(j.(threshold := th), |j.tokens|);
    CountMonotone(j, th, |j.tokens|);
  }

  // ---------------------------------------------------------------------
  // The scores: every record adds its anchor's weights scaled by its similarity.

  /** What a record adds to the scores: `val * sim` for each state's weight `val` of its anchor. */
  function RecordGain(weights: map<string, Tally>, m: Match): Tally
  {
    if m.anchor in weights then weights[m.anchor].Scale(m.similarity) else Zero
  }

  /** The scores after the records' gains are added, in order, to all-zero scores. */
  function MatchGain(weights: map<string, Tally>, ms: seq<Match>): Tally
  {
    if ms == [] then Zero
    else MatchGain(weights, ms[..|ms| - 1]).Plus(RecordGain(weights, ms[|ms| - 1]))
  }

  /** `scores` at the end of the join. */
  function TotalScore(j: Join): Tally
    requires j.Valid()
  {
    MatchGain(j.weights, AllMatches(j))
  }

  /** Appending a record adds its gain, as the loop body does. */
  lemma MatchGainSnoc(weights: map<string, Tally>, ms: seq<Match>, m: Match)
    ensures MatchGain(weights, ms + [m]) == MatchGain(weights, ms).Plus(RecordGain(weights, m))
  {
    assert (ms + [m])[..|ms|] == ms;
  }

  lemma ScaleNonNegative(w: Tally, k: real)
    requires w.NonNegative() && k >= 0.0
    ensures w.Scale(k).NonNegative()
  {
  }

  lemma {:induction false} MatchGainNonNegative(weights: map<string, Tally>, ms: seq<Match>)
    requires forall m :: m in ms ==> m.similarity >= 0.0 && (m.anchor in weights ==> weights[m.anchor].NonNegative())
    ensures MatchGain(weights, ms).NonNegative()
  {
    if ms != [] {
      var m := ms[|ms| - 1];
      assert m in ms;
      assert forall x :: x in ms[..|ms| - 1] ==> x in ms;
      MatchGainNonNegative(weights, ms[..|ms| - 1]);
      if m.anchor in weights {
        ScaleNonNegative(weights[m.anchor], m.similarity);
      }
    }
  }

  /** With a non-negative threshold and non-negative anchor weights every score is non-negative. */
  lemma ScoreNonNegative(j: Join)
    requires j.Valid() && j.threshold >= 0.0
    requires forall a :: a in j.anchors ==> j.weights[a].NonNegative()
    ensures TotalScore(j).NonNegative()
  {
    MatchesSound(j, |j.tokens|);
    forall m | m in AllMatches(j)
      ensures m.similarity >= 0.0 && (m.anchor in j.weights ==> j.weights[m.anchor].NonNegative())
    {
      var t, a :| 0 <= t < |j.tokens| && 0 <= a < |j.anchors| && Qualifies(j, t, a) && m == Record(j, t, a);
      assert j.anchors[a] in j.anchors;
    }
    MatchGainNonNegative(j.weights, AllMatches(j));
  }

  /** One pass of the inner loop: pair (t, a) appends its record and adds its gain exactly when it qualifies. */
  lemma CompareStep(j: Join, t: nat, a: nat, matched: seq<Match>)
    requires j.Valid() && t < |j.tokens| && a < |j.anchors|
    requires matched == MatchesUpTo(j, t) + RowMatches(j, t, a)
    ensures j.anchors[a] in j.weights
    ensures Qualifies(j, t, a) ==>
              && matched + [Record(j, t, a)] == MatchesUpTo(j, t) + RowMatches(j, t, a + 1)
              && MatchGain(j.weights, matched + [Record(j, t, a)])
                 == MatchGain(j.weights, matched).Plus(j.weights[j.anchors[a]].Scale(Sim(j, t, a)))
    ensures !Qualifies(j, t, a) ==> matched == MatchesUpTo(j, t) + RowMatches(j, t, a + 1)
  {
    assert j.anchors[a] in j.anchors;
    MatchGainSnoc(j.weights, matched, Record(j, t, a));
  }

  /**
   * The nested loop of `score_sentence`: each token, in order, against every
   * anchor, in order, adding the gain and the record of each qualifying pair.
   */
  method CompareAll(j: Join) returns (scores: Tally, matched: seq<Match>)
    requires j.Valid()
    ensures matched == AllMatches(j)
    ensures scores == MatchGain(j.weights, matched)
  {
    scores := Zero;
    matched := [];
    for i := 0 to |j.tokens|
      invariant matched == MatchesUpTo(j, i)
      invariant scores == MatchGain(j.weights, matched)
    {
      var sims := seq(|j.anchorVecs|, k requires 0 <= k < |j.anchorVecs| => j.sim(j.tokenVecs[i], j.anchorVecs[k]));
      for idx := 0 to |sims|
        invariant matched == MatchesUpTo(j, i) + RowMatches(j, i, idx)
        invariant scores == MatchGain(j.weights, matched)
      {
        CompareStep(j, i, idx, matched);
        var sim := sims[idx];
        if sim >= j.threshold {
          var anchor := j.anchors[idx];
          var contrib := j.weights[anchor];
          scores := scores.Plus(contrib.Scale(sim));
          matched := matched + [Match(j.tokens[i], anchor, sim)];
        }
      }
    }
  }

  // ---------------------------------------------------------------------
  // The result.

  const NoValidTokens := "No valid tokens"
  const NoRelevantKeywords := "No relevant keywords found"

  /**
   * The label: one of the two fixed texts, or the "Mixed: ..." summary, which
   * is formatted from the percentages and the dominant state it carries.
   */
  datatype Label = Fixed(text: string) | Mixed(percentages: Tally, dominant: State)

  /** The dict `score_sentence` returns; `caption` is its `label` entry. */
  datatype ScoreResult = ScoreResult(percentages: Tally, dominant: Option<State>, caption: Label, matched: seq<Match>)

  /** The answer for a sentence without usable tokens. */
  const NoTokens := ScoreResult(Zero, None, Fixed(NoValidTokens), [])

  /** Percentages, dominant state and label from the final scores. */
  function Summarize(scores: Tally, matched: seq<Match>): ScoreResult
  {
    if scores.Total() == 0.0 then ScoreResult(Zero, None, Fixed(NoRelevantKeywords), matched)
    else
      var p := Rounded(Normalized(scores));
      var d := Dominant(p);
      ScoreResult(p, Some(d), Mixed(p, d), matched)
  }

  /**
   * A zero total gives zero percentages, no dominant state and the fixed label;
   * otherwise each percentage is its state's share of the total, rounded to two
   * places, and the dominant state is the first largest of them.
   */
  lemma SummaryCases(scores: Tally, matched: seq<Match>)
    ensures Summarize(scores, matched).matched == matched
    ensures Summarize(scores, matched).dominant.None? <==> scores.Total() == 0.0
    ensures scores.Total() == 0.0 ==>
              Summarize(scores, matched).percentages == Zero && Summarize(scores, matched).caption == Fixed(NoRelevantKeywords)
    ensures scores.Total() != 0.0 ==>
              var r := Summarize(scores, matched);
              && (forall s :: r.percentages.Get(s) - 0.005 <= Normalized(scores).Get(s) <= r.percentages.Get(s) + 0.005)
              && IsFirstMaximum(r.percentages, r.dominant.value)
              && r.caption == Mixed(r.percentages, r.dominant.value)
    ensures scores.Total() != 0.0 && scores.NonNegative() ==>
              var p := Summarize(scores, matched).percentages;
              p.NonNegative() && p.AtMost(100.0) && 99.985 <= p.Total() <= 100.015
  {
    if scores.Total() != 0.0 {
      NormalizedIsShare(scores);
    }
  }

  /**
   * The error `score_sentence` raises: with no anchor words the anchor embeddings
   * are an empty one-dimensional array, which the similarity call rejects as soon
   * as there is a token to compare.
   */
  datatype ScoreError = NoAnchorEmbeddings

  /**
   * `score_sentence` on embedded tokens: no tokens give the fixed answer; tokens
   * against no anchors raise; otherwise the join is summarised.
   */
  function SentenceScore(j: Join): Result<ScoreResult, ScoreError>
    requires j.Valid()
  {
    if j.tokens == [] then Success(NoTokens)
    else if j.anchors == [] then Failure(NoAnchorEmbeddings)
    else Success(Summarize(TotalScore(j), AllMatches(j)))
  }

  /**
   * A sentence without tokens gets the fixed "No valid tokens" answer; tokens
   * with no anchor words to compare against raise; tokens that match no anchor
   * get zero percentages, no dominant state and the "No relevant keywords
   * found" label.
   */
  lemma EmptyOutcomes(j: Join)
    requires j.Valid()
    ensures j.tokens == [] ==>
              SentenceScore(j) == Success(ScoreResult(Zero, None, Fixed("No valid tokens"), []))
    ensures SentenceScore(j).Failure? <==> j.tokens != [] && j.anchors == []
    ensures j.tokens != [] && j.anchors != [] && AllMatches(j) == [] ==>
              SentenceScore(j) == Success(ScoreResult(Zero, None, Fixed("No relevant keywords found"), []))
  {
  }

  /**
   * The sentence "I feel calm" against the single anchor calm (all flow): of
   * its tokens feel and calm, only calm reaches the threshold 0.7, so the result
   * is 100% flow with calm as the one match.
   */
  lemma CalmScenario(j: Join, feel: Vec, calm: Vec)
    requires j.tokens == ["feel", "calm"] && j.tokenVecs == [feel, calm]
    requires j.anchors == ["calm"] && j.anchorVecs == [calm]
    requires j.weights == map["calm" := Tally(0.0, 0.0, 1.0)] && j.threshold == 0.7
    requires j.sim(feel, calm) < 0.7 && j.sim(calm, calm) == 1.0
    ensures j.Valid()
    ensures SentenceScore(j) ==
              Success(ScoreResult(Tally(0.0, 0.0, 100.0), Some(Flow), Mixed(Tally(0.0, 0.0, 100.0), Flow), [Match("calm", "calm", 1.0)]))
  {
    assert j.Valid();
    CalmMatches(j, feel, calm);
    CalmGain(j.weights, AllMatches(j));
    CalmSummary(TotalScore(j), AllMatches(j));
  }

  lemma CalmMatches(j: Join, feel: Vec, calm: Vec)
    requires j.Valid()
    requires j.tokens == ["feel", "calm"] && j.tokenVecs == [feel, calm]
    requires j.anchors == ["calm"] && j.anchorVecs == [calm] && j.threshold == 0.7
    requires j.sim(feel, calm) < 0.7 && j.sim(calm, calm) == 1.0
    ensures AllMatches(j) == [Match("calm", "calm", 1.0)]
  {
    assert !Qualifies(j, 0, 0) && Qualifies(j, 1, 0);
    assert RowMatches(j, 0, 1) == [];
    assert RowMatches(j, 1, 1) == [Record(j, 1, 0)];
    assert MatchesUpTo(j, 1) == [];
  }

  lemma CalmGain(weights: map<string, Tally>, ms: seq<Match>)
    requires weights == map["calm" := Tally(0.0, 0.0, 1.0)] && ms == [Match("calm", "calm", 1.0)]
    ensures MatchGain(weights, ms) == Tally(0.0, 0.0, 1.0)
  {
    assert ms[..0] == [];
  }

  lemma CalmSummary(scores: Tally, ms: seq<Match>)
    requires scores == Tally(0.0, 0.0, 1.0)
    ensures Summarize(scores, ms) == ScoreResult(Tally(0.0, 0.0, 100.0), Some(Flow), Mixed(Tally(0.0, 0.0, 100.0), Flow), ms)
  {
    var p := Normalized(scores);
    AllFlowNormalized(scores, p);
    AllFlowRounded(p);
  }

  lemma AllFlowNormalized(scores: Tally, p: Tally)
    requires scores == Tally(0.0, 0.0, 1.0) && p == Normalized(scores)
    ensures p == Tally(0.0, 0.0, 100.0)
  {
    assert scores.Total() == 1.0;
  }

  lemma AllFlowRounded(p: Tally)
    requires p == Tally(0.0, 0.0, 100.0)
    ensures Rounded(p) == p && Dominant(p) == Flow
  {
    Round2OfWhole(p.hypo, 0);
    Round2OfWhole(p.flow, 100);
  }
}

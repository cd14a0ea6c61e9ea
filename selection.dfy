/**
 * The discrete selection scorer: a lexicon mapping each lower-cased word to one
 * state and one weight, and `predict`, which adds `intensity * weight` for every
 * selected lexicon word into that word's state and normalises the three totals.
 */
module SelectionScorer {

  import opened Wrappers
  import opened Text
  import opened States

  /** One row of the lexicon table (columns word, state, weight). */
  datatype LexiconRow = LexiconRow(word: string, state: string, weight: real)

  /** What the lexicon holds for a word; `state` is the table's text, not yet checked. */
  datatype Entry = Entry(state: string, weight: real)

  type Lexicon = map<string, Entry>

  /** The dict comprehension over the rows, keyed by the lower-cased word. */
  function BuildLexicon(rows: seq<LexiconRow>): Lexicon
  {
    if rows == [] then map[]
    else
      var last := rows[|rows| - 1];
      BuildLexicon(rows[..|rows| - 1])[Lower(last.word) := Entry(last.state, last.weight)]
  }

  /** The keys are exactly the lower-cased words of the rows. */
  lemma {:induction false} LexiconKeys(rows: seq<LexiconRow>, k: string)
    ensures k in BuildLexicon(rows) <==> exists i :: 0 <= i < |rows| && Lower(rows[i].word) == k
  {
    if rows != [] {
      var prefix := rows[..|rows| - 1];
      LexiconKeys(prefix, k);
      if exists i :: 0 <= i < |prefix| && Lower(prefix[i].word) == k {
        var i :| 0 <= i < |prefix| && Lower(prefix[i].word) == k;
        assert rows[i] == prefix[i];
      }
      if exists i :: 0 <= i < |rows| && Lower(rows[i].word) == k {
        var i :| 0 <= i < |rows| && Lower(rows[i].word) == k;
        if i < |prefix| {
          assert prefix[i] == rows[i];
        }
      }
    }
  }

  /** A word maps to the state and weight of the last row that spells it (in any case). */
  lemma {:induction false} LexiconLastRowWins(rows: seq<LexiconRow>, i: nat)
    requires i < |rows|
    requires forall j :: i < j < |rows| ==> Lower(rows[j].word) != Lower(rows[i].word)
    ensures Lower(rows[i].word) in BuildLexicon(rows)
    ensures BuildLexicon(rows)[Lower(rows[i].word)] == Entry(rows[i].state, rows[i].weight)
  {
    if i < |rows| - 1 {
      var prefix := rows[..|rows| - 1];
      assert prefix[i] == rows[i];
      LexiconLastRowWins(prefix, i);
    }
  }

  /** One `{"word": ..., "intensity": ...}` item of the request. */
  datatype Selection = Selection(word: string, intensity: real)

  /** `scores[state]` raised KeyError: the lexicon gave a state that has no accumulator. */
  datatype PredictError = UnknownState(state: string)

  /** The selection names a lexicon word whose state is not hypo, hyper or flow. */
  predicate Faulty(lex: Lexicon, sel: Selection)
  {
    var w := Lower(sel.word);
    w in lex && Named(lex[w].state).None?
  }

  /** No selection makes the update fail. */
  predicate Scorable(lex: Lexicon, sels: seq<Selection>)
  {
    forall sel :: sel in sels ==> !Faulty(lex, sel)
  }

  /**
   * What one selection adds: `intensity * weight` to its lexicon state, nothing
   * to the other two, and nothing at all for a word the lexicon lacks.
   */
  function Contribution(lex: Lexicon, sel: Selection): (c: Tally)
    ensures Lower(sel.word) !in lex ==> c == Zero
    ensures forall s :: c.Get(s) ==
              (if Lower(sel.word) in lex && Named(lex[Lower(sel.word)].state) == Some(s)
               then sel.intensity * lex[Lower(sel.word)].weight
               else 0.0)
  {
    var w := Lower(sel.word);
    if w in lex then
      match Named(lex[w].state)
      case Some(s) => Zero.Bump(s, sel.intensity * lex[w].weight)
      case None => Zero
    else Zero
  }

  /** The three accumulators after the selections, taken in order, have been added in. */
  function Accumulated(lex: Lexicon, sels: seq<Selection>): Tally
  {
    if sels == [] then Zero
    else Accumulated(lex, sels[..|sels| - 1]).Plus(Contribution(lex, sels[|sels| - 1]))
  }

  /** Accumulating a concatenation adds the two parts' totals. */
  lemma {:induction false} AccumulatedAppend(lex: Lexicon, a: seq<Selection>, b: seq<Selection>)
    ensures Accumulated(lex, a + b) == Accumulated(lex, a).Plus(Accumulated(lex, b))
  {
    if b == [] {
      assert a + b == a;
    } else {
      var b' := b[..|b| - 1];
      var c := Contribution(lex, b[|b| - 1]);
      assert (a + b)[..|a + b| - 1] == a + b';
      assert (a + b)[|a + b| - 1] == b[|b| - 1];
      AccumulatedAppend(lex, a, b');
      PlusAssociative(Accumulated(lex, a), Accumulated(lex, b'), c);
    }
  }

  /** Taking one selection out of the middle removes exactly its contribution. */
  lemma AccumulatedSplit(lex: Lexicon, b: seq<Selection>, k: nat)
    requires k < |b|
    ensures Accumulated(lex, b) == Accumulated(lex, b[..k] + b[k + 1..]).Plus(Contribution(lex, b[k]))
  {
    var x := b[k];
    var front, back := b[..k], b[k + 1..];
    assert b == (front + [x]) + back;
    assert (front + [x])[..k] == front;
    var a, c, z := Accumulated(lex, front), Contribution(lex, x), Accumulated(lex, back);
    assert Accumulated(lex, front + [x]) == a.Plus(c);
    AccumulatedAppend(lex, front + [x], back);
    AccumulatedAppend(lex, front, back);
    PlusRightCommute(a, c, z);
  }

  /** The totals do not depend on the order of the selections. */
  lemma {:induction false} AccumulatedPermutation(lex: Lexicon, a: seq<Selection>, b: seq<Selection>)
    requires multiset(a) == multiset(b)
    ensures Accumulated(lex, a) == Accumulated(lex, b)
  {
    if a == [] {
      assert |b| == |multiset(b)| == 0;
    } else {
      var n := |a| - 1;
      var x := a[n];
      assert x in multiset(b);
      var k :| 0 <= k < |b| && b[k] == x;
      var rest := b[..k] + b[k + 1..];
      RemoveOne(a, n, b, k);
      AccumulatedPermutation(lex, a[..n], rest);
      AccumulatedSplit(lex, b, k);
    }
  }

  lemma RemoveOne<T>(a: seq<T>, n: nat, b: seq<T>, k: nat)
    requires n == |a| - 1 && k < |b| && a[n] == b[k]
    requires multiset(a) == multiset(b)
    ensures multiset(a[..n]) == multiset(b[..k] + b[k + 1..])
  {
    var x := a[n];
    assert a == a[..n] + [x];
    assert b == b[..k] + [x] + b[k + 1..];
    assert multiset(a[..n]) == multiset(a) - multiset{x};
    assert multiset(b[..k] + b[k + 1..]) == multiset(b) - multiset{x};
  }

  /** Whether `predict` fails and, if not, its totals are the same in every order of the selections. */
  lemma OrderIrrelevant(lex: Lexicon, a: seq<Selection>, b: seq<Selection>)
    requires multiset(a) == multiset(b)
    ensures Scorable(lex, a) <==> Scorable(lex, b)
    ensures Accumulated(lex, a) == Accumulated(lex, b)
  {
    forall sel
      ensures sel in a <==> sel in b
    {
      assert sel in a <==> sel in multiset(a);
      assert sel in b <==> sel in multiset(b);
    }
    AccumulatedPermutation(lex, a, b);
  }

  /** Selections of words the lexicon lacks (including none at all) leave every accumulator at zero. */
  lemma {:induction false} UnknownWordsScoreNothing(lex: Lexicon, sels: seq<Selection>)
    requires forall sel :: sel in sels ==> Lower(sel.word) !in lex
    ensures Accumulated(lex, sels) == Zero
    ensures Normalized(Accumulated(lex, sels)) == Zero
  {
    if sels != [] {
      var last := sels[|sels| - 1];
      assert last in sels;
      UnknownWordsScoreNothing(lex, sels[..|sels| - 1]);
      assert Contribution(lex, last) == Zero;
    }
  }

  lemma BumpAddsContribution(lex: Lexicon, t: Tally, sel: Selection, s: State, points: real)
    requires Lower(sel.word) in lex && Named(lex[Lower(sel.word)].state) == Some(s)
    requires points == sel.intensity * lex[Lower(sel.word)].weight
    ensures t.Bump(s, points) == t.Plus(Contribution(lex, sel))
  {
    var c := Contribution(lex, sel);
    assert c.hypo == c.Get(Hypo) && c.hyper == c.Get(Hyper) && c.flow == c.Get(Flow);
  }

  lemma ScorableStep(lex: Lexicon, sels: seq<Selection>, i: nat)
    requires i < |sels| && !Faulty(lex, sels[i]) && Scorable(lex, sels[..i])
    ensures Scorable(lex, sels[..i + 1])
  {
    assert sels[..i + 1] == sels[..i] + [sels[i]];
  }

  lemma AccumulatedStep(lex: Lexicon, sels: seq<Selection>, i: nat)
    requires i < |sels|
    ensures Accumulated(lex, sels[..i + 1]) == Accumulated(lex, sels[..i]).Plus(Contribution(lex, sels[i]))
  {
    assert sels[..i + 1][..i] == sels[..i];
  }

  /**
   * When selection `i` is the first to fail, the list is unscorable and `i` is
   * the least faulty index, so the state `predict` reports is determined.
   */
  lemma FirstFaulty(lex: Lexicon, sels: seq<Selection>, i: nat)
    requires i < |sels| && Faulty(lex, sels[i]) && Scorable(lex, sels[..i])
    ensures !Scorable(lex, sels)
    ensures forall k :: 0 <= k < |sels| && Faulty(lex, sels[k]) ==> i <= k
  {
    assert sels[i] in sels;
    assert forall j :: 0 <= j < i ==> sels[j] in sels[..i];
  }

  /** `predict`: the percentages for a list of selections, or the KeyError of the first faulty one. */
  method Predict(lex: Lexicon, sels: seq<Selection>) returns (r: Result<Tally, PredictError>)
    ensures r.Failure? <==> !Scorable(lex, sels)
    ensures r.Failure? ==> exists i ::
              && 0 <= i < |sels| && Faulty(lex, sels[i])
              && (forall j :: 0 <= j < i ==> !Faulty(lex, sels[j]))
              && r.error == UnknownState(lex[Lower(sels[i].word)].state)
    ensures r.Success? ==> r.value == Normalized(Accumulated(lex, sels))
  {
    var scores := Zero;
    assert sels[..0] == [];
    for i := 0 to |sels|
      invariant Scorable(lex, sels[..i])
      invariant scores == Accumulated(lex, sels[..i])
    {
      var before, points := scores, 0.0;
      var w := Lower(sels[i].word);
      var inten := sels[i].intensity;
      if w in lex {
        var state := lex[w].state;
        var weight := lex[w].weight;
        if Named(state).None? {
          FirstFaulty(lex, sels, i);
          return Failure(UnknownState(state));
        }
        points := inten * weight;
        scores := scores.Bump(Named(state).value, points);
        BumpAddsContribution(lex, before, sels[i], Named(state).value, points);
      }
      ScorableStep(lex, sels, i);
      AccumulatedStep(lex, sels, i);
    }
    assert sels[..|sels|] == sels;
    r := Success(Normalized(scores));
  }

  /** A lexicon with the single row numb/hypo/1.0 and one selection of numb at intensity 2 give 100% hypo. */
  lemma OneHypoWordGivesAllHypo(rows: seq<LexiconRow>, sels: seq<Selection>)
    requires rows == [LexiconRow("numb", "hypo", 1.0)]
    requires sels == [Selection("numb", 2.0)]
    ensures Normalized(Accumulated(BuildLexicon(rows), sels)) == Tally(100.0, 0.0, 0.0)
  {
    NumbLexicon(rows);
    NumbSelection(BuildLexicon(rows), sels);
    TwoHypoNormalized();
  }

  lemma TwoHypoNormalized()
    ensures Normalized(Tally(2.0, 0.0, 0.0)) == Tally(100.0, 0.0, 0.0)
  {
    assert Tally(2.0, 0.0, 0.0).Total() == 2.0;
  }

  lemma NumbLexicon(rows: seq<LexiconRow>)
    requires rows == [LexiconRow("numb", "hypo", 1.0)]
    ensures BuildLexicon(rows) == map["numb" := Entry("hypo", 1.0)]
  {
    assert Lower("numb") == "numb";
    assert rows[..0] == [];
  }

  lemma NumbSelection(lex: Lexicon, sels: seq<Selection>)
    requires lex == map["numb" := Entry("hypo", 1.0)]
    requires sels == [Selection("numb", 2.0)]
    ensures Accumulated(lex, sels) == Tally(2.0, 0.0, 0.0)
  {
    assert Lower("numb") == "numb";
    assert Named("hypo") == Some(Hypo);
    BumpAddsContribution(lex, Zero, sels[0], Hypo, 2.0);
    assert sels[..0] == [];
  }
}

/**
 * The three regulation states, per-state tallies, and the normalisation both
 * scorers share: scores to percentages with a zero-total guard, two-decimal
 * rounding, and the choice of a dominant state.
 */
module States {

  import opened Wrappers

  /** hypoarousal, hyperarousal and flow, in the order the scorers' dicts list them. */
  datatype State = Hypo | Hyper | Flow

  /** Position in the dict order hypo, hyper, flow; ties go to the earlier state. */
  function Rank(s: State): nat
  {
    match s
    case Hypo => 0
    case Hyper => 1
    case Flow => 2
  }

  /** The key under which the scorers' dicts hold a state. */
  function Name(s: State): string
  {
    match s
    case Hypo => "hypo"
    case Hyper => "hyper"
    case Flow => "flow"
  }

  /** The state a dict key names, if it names one: looking up any other key raises KeyError. */
  function Named(name: string): (r: Option<State>)
    ensures r.Some? <==> name == "hypo" || name == "hyper" || name == "flow"
    ensures r.Some? ==> Name(r.value) == name
  {
    if name == "hypo" then Some(Hypo)
    else if name == "hyper" then Some(Hyper)
    else if name == "flow" then Some(Flow)
    else None
  }

  /** One real per state: lexicon weights, accumulated scores or percentages. */
  datatype Tally = Tally(hypo: real, hyper: real, flow: real) {

    function Get(s: State): real
    {
      match s
      case Hypo => hypo
      case Hyper => hyper
      case Flow => flow
    }

    /** `sum(scores.values())`. */
    function Total(): real
    {
      hypo + hyper + flow
    }

    /** Adds `x` to the accumulator of `s` and to no other. */
    function Bump(s: State, x: real): (r: Tally)
      ensures r.Get(s) == Get(s) + x
      ensures forall t :: t != s ==> r.Get(t) == Get(t)
    {
      match s
      case Hypo => Tally(hypo + x, hyper, flow)
      case Hyper => Tally(hypo, hyper + x, flow)
      case Flow => Tally(hypo, hyper, flow + x)
    }

    function Plus(o: Tally): Tally
    {
      Tally(hypo + o.hypo, hyper + o.hyper, flow + o.flow)
    }

    /** Every entry multiplied by `k`. */
    function Scale(k: real): Tally
    {
      Tally(hypo * k, hyper * k, flow * k)
    }

    predicate NonNegative()
    {
      hypo >= 0.0 && hyper >= 0.0 && flow >= 0.0
    }

    predicate AtMost(bound: real)
    {
      hypo <= bound && hyper <= bound && flow <= bound
    }
  }

  const Zero := Tally(0.0, 0.0, 0.0)

  lemma PlusAssociative(x: Tally, y: Tally, z: Tally)
    ensures x.Plus(y).Plus(z) == x.Plus(y.Plus(z))
  {
  }

  lemma PlusRightCommute(a: Tally, c: Tally, z: Tally)
    ensures a.Plus(c).Plus(z) == a.Plus(z).Plus(c)
  {
  }

  /**
   * `v / total * 100` for every state, and all zero when the total is zero
   * (so no division by zero happens).
   */
  function Normalized(t: Tally): (p: Tally)
    ensures t.Total() == 0.0 ==> p == Zero
  {
    var total := t.Total();
    if total == 0.0 then Zero
    else Tally(t.hypo / total * 100.0, t.hyper / total * 100.0, t.flow / total * 100.0)
  }

  /**
   * With a non-zero total every percentage is its score's share of the total,
   * and the three add up to 100; with non-negative scores each lies in [0, 100].
   */
  lemma NormalizedIsShare(t: Tally)
    ensures t.Total() != 0.0 ==> forall s :: Normalized(t).Get(s) * t.Total() == t.Get(s) * 100.0
    ensures t.Total() != 0.0 ==> Normalized(t).Total() == 100.0
    ensures t.NonNegative() ==> Normalized(t).NonNegative() && Normalized(t).AtMost(100.0)
  {
    if t.Total() != 0.0 {
      PercentagesSumTo100(t, Normalized(t));
      PercentagesBounded(t, Normalized(t));
    }
  }

  lemma PercentagesSumTo100(t: Tally, p: Tally)
    requires t.Total() != 0.0
    requires p == Tally(t.hypo / t.Total() * 100.0, t.hyper / t.Total() * 100.0, t.flow / t.Total() * 100.0)
    ensures forall s :: p.Get(s) * t.Total() == t.Get(s) * 100.0
    ensures p.Total() == 100.0
  {
    DivisionSum(t.hypo, t.hyper, t.flow, t.Total());
  }

  lemma DivisionSum(x: real, y: real, z: real, total: real)
    requires total != 0.0 && total == x + y + z
    ensures x / total * 100.0 + y / total * 100.0 + z / total * 100.0 == 100.0
  {
    assert x / total + y / total + z / total == (x + y + z) / total;
  }

  lemma DivisionAtMostOne(x: real, total: real)
    requires 0.0 <= x <= total && total > 0.0
    ensures 0.0 <= x / total <= 1.0
  {
    var q := x / total;
    assert q * total == x;
    assert (1.0 - q) * total == total - x;
  }

  lemma PercentagesBounded(t: Tally, p: Tally)
    requires t.Total() != 0.0
    requires p == Tally(t.hypo / t.Total() * 100.0, t.hyper / t.Total() * 100.0, t.flow / t.Total() * 100.0)
    ensures t.NonNegative() ==> p.NonNegative() && p.AtMost(100.0)
  {
    if t.NonNegative() {
      var total := t.Total();
      assert total > 0.0;
      forall s
        ensures 0.0 <= t.Get(s) / total <= 1.0
      {
        DivisionAtMostOne(t.Get(s), total);
      }
      assert p.hypo == t.Get(Hypo) / total * 100.0;
      assert p.hyper == t.Get(Hyper) / total * 100.0;
      assert p.flow == t.Get(Flow) / total * 100.0;
    }
  }

  /**
   * Python's `round(x, 2)` taken over exact reals: the nearest multiple of
   * 0.01, and on an exact half the one with an even last digit.
   */
  function Round2(x: real): (r: real)
    ensures x - 0.005 <= r <= x + 0.005
    ensures 0.0 <= x <= 100.0 ==> 0.0 <= r <= 100.0
  {
    var n := x * 100.0;
    var f := n.Floor;
    var frac := n - f as real;
    var k := if frac > 0.5 then f + 1
             else if frac < 0.5 then f
             else if f % 2 == 0 then f else f + 1;
    k as real / 100.0
  }

  /** A whole number is already rounded. */
  lemma Round2OfWhole(x: real, n: int)
    requires x == n as real
    ensures Round2(x) == x
  {
    var m := x * 100.0;
    assert m == (n * 100) as real;
    assert m.Floor == n * 100;
  }

  /** Every percentage rounded to two places. */
  function Rounded(p: Tally): (r: Tally)
    ensures forall s :: p.Get(s) - 0.005 <= r.Get(s) <= p.Get(s) + 0.005
    ensures p.Total() - 0.015 <= r.Total() <= p.Total() + 0.015
    ensures p.NonNegative() && p.AtMost(100.0) ==> r.NonNegative() && r.AtMost(100.0)
  {
    Tally(Round2(p.hypo), Round2(p.hyper), Round2(p.flow))
  }

  /** `s` holds a largest value and every state before it holds a strictly smaller one. */
  ghost predicate IsFirstMaximum(p: Tally, s: State)
  {
    && (forall t :: p.Get(t) <= p.Get(s))
    && (forall t :: Rank(t) < Rank(s) ==> p.Get(t) < p.Get(s))
  }

  /**
   * `max(percentages, key=percentages.get)` over the keys hypo, hyper, flow:
   * a later key replaces the current best only when strictly greater.
   */
  function Dominant(p: Tally): (d: State)
    ensures IsFirstMaximum(p, d)
  {
    var best := if p.hyper > p.hypo then Hyper else Hypo;
    if p.flow > p.Get(best) then Flow else best
  }

  /** At most one state is the first maximum, so Dominant is the only state meeting its contract. */
  lemma FirstMaximumUnique(p: Tally, s: State, t: State)
    requires IsFirstMaximum(p, s) && IsFirstMaximum(p, t)
    ensures s == t
  {
    assert p.Get(s) <= p.Get(t) && p.Get(t) <= p.Get(s);
  }
}

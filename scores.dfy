/**
 * The `f64` scores the evaluators and the searches pass around: a finite
 * value or one of the two infinities (`1./0.` and `-1./0.`).  NaN never
 * arises from the operations modelled here and is not represented.
 */
module Scores {

  datatype Score = NegInf | Fin(v: real) | PosInf

  /** The order of `f64` on non-NaN values. */
  predicate Le(a: Score, b: Score)
  {
    a.NegInf? || b.PosInf? || (a.Fin? && b.Fin? && a.v <= b.v)
  }

  predicate Lt(a: Score, b: Score)
  {
    !Le(b, a)
  }

  /** `a.max(b)`. */
  function Max(a: Score, b: Score): (r: Score)
    ensures Le(a, r) && Le(b, r)
    ensures r == a || r == b
  {
    if Le(a, b) then b else a
  }

  /** `a.min(b)`. */
  function Min(a: Score, b: Score): (r: Score)
    ensures Le(r, a) && Le(r, b)
    ensures r == a || r == b
  {
    if Le(a, b) then a else b
  }

  /** Unary minus: the infinities swap. */
  function Neg(a: Score): (r: Score)
    ensures r.Fin? <==> a.Fin?
    ensures r == PosInf <==> a == NegInf
    ensures a.Fin? ==> r.v == -a.v
  {
    match a
    case NegInf => PosInf
    case Fin(x) => Fin(-x)
    case PosInf => NegInf
  }

  /** A whole count as a score. */
  function OfNat(n: nat): (r: Score)
    ensures r.Fin? && r.v == n as real
  {
    Fin(n as real)
  }

  /** `r` clamped into `[lo, hi]`. */
  function Clamp(r: Score, lo: Score, hi: Score): Score
  {
    Max(lo, Min(r, hi))
  }

  /**
   * What a fail-soft search promises when the exact value is `v` and the
   * window is `(alpha, beta)`: the exact value inside the window, an upper
   * bound no higher than `alpha` when `v` fails low, and a lower bound no
   * lower than `beta` when `v` fails high.
   */
  predicate FailSoft(r: Score, v: Score, alpha: Score, beta: Score)
  {
    && (Lt(alpha, v) && Lt(v, beta) ==> r == v)
    && (Le(v, alpha) ==> Le(r, alpha))
    && (Le(beta, v) ==> Le(beta, r))
  }

  /** Within a proper window, agreeing after clamping is exactly the fail-soft promise. */
  lemma ClampFailSoft(r: Score, v: Score, alpha: Score, beta: Score)
    requires Lt(alpha, beta)
    ensures Clamp(r, alpha, beta) == Clamp(v, alpha, beta) <==> FailSoft(r, v, alpha, beta)
  {
  }

  /** Clamping into the full window changes nothing. */
  lemma ClampFull(r: Score)
    ensures Clamp(r, NegInf, PosInf) == r
  {
  }

  /** Negation reverses the order. */
  lemma NegAntitone(a: Score, b: Score)
    ensures Le(a, b) <==> Le(Neg(b), Neg(a))
    ensures Neg(Neg(a)) == a
  {
  }
  // ---------------------------------------------------------------------------
  // Folds over the children of a search node

  /** `scores.fold(-inf, max)`: the largest score of `s`, minus infinity when `s` is empty. */
  function MaxOf(s: seq<Score>): Score
  {
    if |s| == 0 then NegInf else Max(MaxOf(s[..|s| - 1]), s[|s| - 1])
  }

  /** `scores.fold(inf, min)`: the smallest score of `s`, plus infinity when `s` is empty. */
  function MinOf(s: seq<Score>): Score
  {
    if |s| == 0 then PosInf else Min(MinOf(s[..|s| - 1]), s[|s| - 1])
  }

  /** The maximum bounds every score from above and is one of them when there is one. */
  lemma {:induction false} MaxOfSpec(s: seq<Score>)
    ensures forall i | 0 <= i < |s| :: Le(s[i], MaxOf(s))
    ensures |s| > 0 ==> MaxOf(s) in s
    ensures |s| == 0 ==> MaxOf(s) == NegInf
  {
    if |s| > 0 {
      var t := s[..|s| - 1];
      MaxOfSpec(t);
      assert forall i | 0 <= i < |t| :: t[i] == s[i];
    }
  }

  /** The minimum bounds every score from below and is one of them when there is one. */
  lemma {:induction false} MinOfSpec(s: seq<Score>)
    ensures forall i | 0 <= i < |s| :: Le(MinOf(s), s[i])
    ensures |s| > 0 ==> MinOf(s) in s
    ensures |s| == 0 ==> MinOf(s) == PosInf
  {
    if |s| > 0 {
      var t := s[..|s| - 1];
      MinOfSpec(t);
      assert forall i | 0 <= i < |t| :: t[i] == s[i];
    }
  }

  /** Extending the folded prefix by one score. */
  lemma MaxOfStep(s: seq<Score>, i: nat)
    requires i < |s|
    ensures MaxOf(s[..i + 1]) == Max(MaxOf(s[..i]), s[i])
  {
    assert s[..i + 1][..i] == s[..i];
  }

  lemma MinOfStep(s: seq<Score>, i: nat)
    requires i < |s|
    ensures MinOf(s[..i + 1]) == Min(MinOf(s[..i]), s[i])
  {
    assert s[..i + 1][..i] == s[..i];
  }

  /** A longer prefix never has a smaller maximum. */
  lemma MaxOfPrefix(s: seq<Score>, i: nat)
    requires i <= |s|
    ensures Le(MaxOf(s[..i]), MaxOf(s))
  {
    MaxOfSpec(s[..i]);
    MaxOfSpec(s);
    if i > 0 {
      var k :| 0 <= k < i && s[..i][k] == MaxOf(s[..i]);
      assert s[k] == MaxOf(s[..i]);
    }
  }

  /** A longer prefix never has a larger minimum. */
  lemma MinOfPrefix(s: seq<Score>, i: nat)
    requires i <= |s|
    ensures Le(MinOf(s), MinOf(s[..i]))
  {
    MinOfSpec(s[..i]);
    MinOfSpec(s);
    if i > 0 {
      var k :| 0 <= k < i && s[..i][k] == MinOf(s[..i]);
      assert s[k] == MinOf(s[..i]);
    }
  }
  /** `max` and `min` are associative, so a fold may start from any score. */
  lemma MaxAssoc(a: Score, b: Score, c: Score)
    ensures Max(Max(a, b), c) == Max(a, Max(b, c))
  {
  }

  lemma MinAssoc(a: Score, b: Score, c: Score)
    ensures Min(Min(a, b), c) == Min(a, Min(b, c))
  {
  }

  /** A score already inside `[lo, hi]` is left alone by clamping. */
  lemma ClampWithin(r: Score, lo: Score, hi: Score)
    requires Le(lo, r) && Le(r, hi)
    ensures Clamp(r, lo, hi) == r
  {
  }

  /**
   * Clamping every score into `[lo, hi]` and folding from `lo` gives the
   * clamped maximum: starting a maximum at a finite floor only clamps it.
   */
  lemma {:induction false} MaxOfClamped(s: seq<Score>, t: seq<Score>, lo: Score, hi: Score)
    requires Le(lo, hi) && |s| == |t|
    requires forall i | 0 <= i < |s| :: t[i] == Clamp(s[i], lo, hi)
    ensures Max(lo, MaxOf(t)) == Clamp(MaxOf(s), lo, hi)
  {
    if |s| > 0 {
      var n := |s| - 1;
      MaxOfClamped(s[..n], t[..n], lo, hi);
      MaxAssoc(lo, MaxOf(t[..n]), t[n]);
      assert t[..n] == t[..|t| - 1] && s[..n] == s[..|s| - 1];
      ClampMax(MaxOf(s[..n]), s[n], lo, hi);
    }
  }

  /** Clamping commutes with taking the larger of two scores. */
  lemma ClampMax(a: Score, b: Score, lo: Score, hi: Score)
    requires Le(lo, hi)
    ensures Max(Clamp(a, lo, hi), Clamp(b, lo, hi)) == Clamp(Max(a, b), lo, hi)
  {
  }

  /** Clamping commutes with taking the smaller of two scores. */
  lemma ClampMin(a: Score, b: Score, lo: Score, hi: Score)
    requires Le(lo, hi)
    ensures Min(Clamp(a, lo, hi), Clamp(b, lo, hi)) == Clamp(Min(a, b), lo, hi)
  {
  }

  /** Clamping every score into `[lo, hi]` and folding from `hi` gives the clamped minimum. */
  lemma {:induction false} MinOfClamped(s: seq<Score>, t: seq<Score>, lo: Score, hi: Score)
    requires Le(lo, hi) && |s| == |t|
    requires forall i | 0 <= i < |s| :: t[i] == Clamp(s[i], lo, hi)
    ensures Min(hi, MinOf(t)) == Clamp(MinOf(s), lo, hi)
  {
    if |s| > 0 {
      var n := |s| - 1;
      MinOfClamped(s[..n], t[..n], lo, hi);
      MinAssoc(hi, MinOf(t[..n]), t[n]);
      assert t[..n] == t[..|t| - 1] && s[..n] == s[..|s| - 1];
      ClampMin(MinOf(s[..n]), s[n], lo, hi);
    }
  }
}

/** Vectors and matrices over the reals, as far as the compressed linear layers need them. */
module LinearAlgebra {
  import opened Sequences
  import opened Wrappers

  type Vec = seq<real>
  type Mat = seq<Vec>

  /** Every row has n entries. */
  ghost predicate Width(m: Mat, n: nat) {
    forall i :: 0 <= i < |m| ==> |m[i]| == n
  }

  ghost function Products(a: Vec, b: Vec): (p: Vec)
    requires |a| == |b|
    ensures |p| == |a|
  {
    seq(|a|, i requires 0 <= i < |a| => a[i] * b[i])
  }

  ghost function Sum(s: Vec): real {
    if s == [] then 0.0 else Sum(s[..|s| - 1]) + s[|s| - 1]
  }

  ghost function Dot(a: Vec, b: Vec): real
    requires |a| == |b|
  {
    Sum(Products(a, b))
  }

  ghost function Apply(m: Mat, x: Vec): (y: Vec)
    requires Width(m, |x|)
    ensures |y| == |m|
  {
    seq(|m|, i requires 0 <= i < |m| => Dot(m[i], x))
  }

  ghost function Add(a: Vec, b: Vec): (c: Vec)
    requires |a| == |b|
    ensures |c| == |a|
  {
    seq(|a|, i requires 0 <= i < |a| => a[i] + b[i])
  }

  /** A linear layer: weight times input plus bias, if any. */
  ghost function Linear(weight: Mat, bias: Option<Vec>, x: Vec): (y: Vec)
    requires Width(weight, |x|) && (bias.Some? ==> |bias.value| == |weight|)
    ensures |y| == |weight|
  {
    match bias
    case None => Apply(weight, x)
    case Some(b) => Add(Apply(weight, x), b)
  }

  /** A pointwise activation. */
  ghost function Pointwise(f: real -> real, x: Vec): (y: Vec)
    ensures |y| == |x|
  {
    seq(|x|, i requires 0 <= i < |x| => f(x[i]))
  }

  lemma {:induction false} SumConcat(a: Vec, b: Vec)
    ensures Sum(a + b) == Sum(a) + Sum(b)
  {
    if b == [] {
      assert a + b == a;
    } else {
      SumConcat(a, b[..|b| - 1]);
      assert (a + b)[..|a + b| - 1] == a + b[..|b| - 1];
    }
  }

  lemma {:induction false} SumOfZeros(s: Vec)
    requires forall i :: 0 <= i < |s| ==> s[i] == 0.0
    ensures Sum(s) == 0.0
  {
    if s != [] { SumOfZeros(s[..|s| - 1]); }
  }

  lemma DotConcat(a: Vec, b: Vec, x: Vec, y: Vec)
    requires |a| == |x| && |b| == |y|
    ensures Dot(a + b, x + y) == Dot(a, x) + Dot(b, y)
  {
    var whole, parts := Products(a + b, x + y), Products(a, x) + Products(b, y);
    forall i | 0 <= i < |whole| ensures whole[i] == parts[i] {
      if i < |a| {
        assert (a + b)[i] == a[i] && (x + y)[i] == x[i];
      } else {
        assert (a + b)[i] == b[i - |a|] && (x + y)[i] == y[i - |a|];
      }
    }
    assert whole == parts;
    SumConcat(Products(a, x), Products(b, y));
  }

  lemma {:induction false} JoinWidth(parts: seq<Mat>, n: nat)
    requires forall p :: 0 <= p < |parts| ==> Width(parts[p], n)
    ensures Width(Flatten(parts), n)
  {
    if parts != [] { JoinWidth(parts[..|parts| - 1], n); }
  }

  lemma ApplyConcat(a: Mat, b: Mat, x: Vec)
    requires Width(a, |x|) && Width(b, |x|)
    ensures Width(a + b, |x|) && Apply(a + b, x) == Apply(a, x) + Apply(b, x)
  {
  }
}

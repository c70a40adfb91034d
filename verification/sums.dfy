/** Sums and flattening of nested sequences: the arithmetic behind every
    offset of the single-block arena. */
module Sums {

  /** Sum of a sequence of counts, peeled from the end so that a prefix
      extended by one element adds exactly that element. */
  function Sum(xs: seq<nat>): nat
  {
    if |xs| == 0 then 0 else Sum(xs[..|xs| - 1]) + xs[|xs| - 1]
  }

  /** Concatenation of a sequence of sequences, in order. */
  function Flatten<T>(xss: seq<seq<T>>): seq<T>
  {
    if |xss| == 0 then [] else Flatten(xss[..|xss| - 1]) + xss[|xss| - 1]
  }

  /** The length of each inner sequence. */
  function Lens<T>(xss: seq<seq<T>>): (r: seq<nat>)
    ensures |r| == |xss|
    ensures forall k :: 0 <= k < |xss| ==> r[k] == |xss[k]|
  {
    seq(|xss|, k requires 0 <= k < |xss| => |xss[k]|)
  }

  /** A sequence of `n` copies of `k`. */
  function Repeat(n: nat, k: nat): (r: seq<nat>)
    ensures |r| == n
    ensures forall i :: 0 <= i < n ==> r[i] == k
  {
    seq(n, _ => k)
  }

  lemma {:induction false} SumPrefixStep(xs: seq<nat>, k: nat)
    requires k < |xs|
    ensures Sum(xs[..k + 1]) == Sum(xs[..k]) + xs[k]
  {
    assert xs[..k + 1][..k] == xs[..k];
  }

  lemma {:induction false} SumPrefixMonotone(xs: seq<nat>, i: nat, j: nat)
    requires i <= j <= |xs|
    ensures Sum(xs[..i]) <= Sum(xs[..j])
    decreases j - i
  {
    if i < j {
      SumPrefixStep(xs, j - 1);
      SumPrefixMonotone(xs, i, j - 1);
    }
  }

  /** A value below the sum falls in exactly the span of some element:
      at or past the sum of the elements before it, short of that sum plus
      the element. */
  lemma {:induction false} SumLocate(xs: seq<nat>, k: nat) returns (i: nat)
    requires k < Sum(xs)
    ensures i < |xs| && Sum(xs[..i]) <= k < Sum(xs[..i]) + xs[i]
  {
    var init := xs[..|xs| - 1];
    if k < Sum(init) {
      i := SumLocate(init, k);
      assert init[..i] == xs[..i];
    } else {
      i := |xs| - 1;
    }
  }

  lemma {:induction false} SumAll(xs: seq<nat>)
    ensures Sum(xs[..|xs|]) == Sum(xs)
  {
    assert xs[..|xs|] == xs;
  }

  lemma {:induction false} SumConcat(a: seq<nat>, b: seq<nat>)
    ensures Sum(a + b) == Sum(a) + Sum(b)
    decreases |b|
  {
    if |b| == 0 {
      assert a + b == a;
    } else {
      var b' := b[..|b| - 1];
      assert (a + b)[..|a + b| - 1] == a + b';
      SumConcat(a, b');
    }
  }

  lemma {:induction false} SumRepeat(n: nat, k: nat)
    ensures Sum(Repeat(n, k)) == n * k
  {
    if n > 0 {
      assert Repeat(n, k)[..n - 1] == Repeat(n - 1, k);
      SumRepeat(n - 1, k);
    }
  }

  /** Sum of a prefix of a constant sequence. */
  lemma {:induction false} SumRepeatPrefix(n: nat, k: nat, i: nat)
    requires i <= n
    ensures Sum(Repeat(n, k)[..i]) == i * k
  {
    assert Repeat(n, k)[..i] == Repeat(i, k);
    SumRepeat(i, k);
  }

  lemma {:induction false} FlattenLength<T>(xss: seq<seq<T>>)
    ensures |Flatten(xss)| == Sum(Lens(xss))
  {
    if |xss| > 0 {
      var init := xss[..|xss| - 1];
      assert Lens(xss)[..|xss| - 1] == Lens(init);
      FlattenLength(init);
    }
  }

  /** Element `n` of inner sequence `l` sits in the flattening right after
      the elements of every earlier inner sequence. */
  lemma {:induction false} FlattenIndex<T>(xss: seq<seq<T>>, l: nat, n: nat)
    requires l < |xss| && n < |xss[l]|
    ensures Sum(Lens(xss)[..l]) + n < |Flatten(xss)|
    ensures Flatten(xss)[Sum(Lens(xss)[..l]) + n] == xss[l][n]
    decreases |xss|
  {
    var init := xss[..|xss| - 1];
    FlattenLength(init);
    assert Lens(xss)[..|xss| - 1] == Lens(init);
    if l == |xss| - 1 {
      assert Lens(xss)[..l] == Lens(init);
    } else {
      assert Lens(xss)[..l] == Lens(init)[..l];
      FlattenIndex(init, l, n);
      SumPrefixMonotone(Lens(init), l + 1, |init|);
      SumPrefixStep(Lens(init), l);
      SumAll(Lens(init));
    }
  }

  /** Element `i` of a sequence whose inner sequences all have length `k`
      lies at `i * k + j`. */
  lemma {:induction false} FlattenUniformIndex<T>(xss: seq<seq<T>>, k: nat, i: nat, j: nat)
    requires forall m :: 0 <= m < |xss| ==> |xss[m]| == k
    requires i < |xss| && j < k
    ensures i * k + j < |Flatten(xss)|
    ensures Flatten(xss)[i * k + j] == xss[i][j]
  {
    assert Lens(xss) == Repeat(|xss|, k);
    SumRepeatPrefix(|xss|, k, i);
    FlattenIndex(xss, i, j);
  }

  lemma {:induction false} FlattenUniformLength<T>(xss: seq<seq<T>>, k: nat)
    requires forall m :: 0 <= m < |xss| ==> |xss[m]| == k
    ensures |Flatten(xss)| == |xss| * k
  {
    assert Lens(xss) == Repeat(|xss|, k);
    FlattenLength(xss);
    SumRepeat(|xss|, k);
  }

  /** Every element of `xs` multiplied by `c`. */
  function Scale(xs: seq<nat>, c: nat): (r: seq<nat>)
    ensures |r| == |xs|
    ensures forall i :: 0 <= i < |xs| ==> r[i] == c * xs[i]
  {
    seq(|xs|, i requires 0 <= i < |xs| => c * xs[i])
  }

  /** The sum of each inner sequence. */
  function SumEach(xss: seq<seq<nat>>): (r: seq<nat>)
    ensures |r| == |xss|
    ensures forall k :: 0 <= k < |xss| ==> r[k] == Sum(xss[k])
  {
    seq(|xss|, k requires 0 <= k < |xss| => Sum(xss[k]))
  }

  lemma {:induction false} SumScale(xs: seq<nat>, c: nat)
    ensures Sum(Scale(xs, c)) == c * Sum(xs)
  {
    if |xs| > 0 {
      var n := |xs| - 1;
      var ys := Scale(xs, c);
      assert ys[..n] == Scale(xs[..n], c);
      SumScale(xs[..n], c);
      assert Sum(ys) == Sum(ys[..n]) + ys[n];
      assert Sum(xs) == Sum(xs[..n]) + xs[n];
      MulDistributes(c, Sum(xs[..n]), xs[n]);
    }
  }

  lemma MulDistributes(c: nat, a: nat, b: nat)
    ensures c * (a + b) == c * a + c * b
  {
  }

  lemma {:induction false} SumScalePrefix(xs: seq<nat>, c: nat, i: nat)
    requires i <= |xs|
    ensures Sum(Scale(xs, c)[..i]) == c * Sum(xs[..i])
  {
    assert Scale(xs, c)[..i] == Scale(xs[..i], c);
    SumScale(xs[..i], c);
  }

  lemma {:induction false} FlattenConcat<T>(a: seq<seq<T>>, b: seq<seq<T>>)
    ensures Flatten(a + b) == Flatten(a) + Flatten(b)
    decreases |b|
  {
    if |b| == 0 {
      assert a + b == a;
    } else {
      var b' := b[..|b| - 1];
      assert (a + b)[..|a + b| - 1] == a + b';
      FlattenConcat(a, b');
    }
  }

  lemma {:induction false} SumFlatten(xss: seq<seq<nat>>)
    ensures Sum(Flatten(xss)) == Sum(SumEach(xss))
  {
    if |xss| > 0 {
      var init := xss[..|xss| - 1];
      assert SumEach(xss)[..|xss| - 1] == SumEach(init);
      SumFlatten(init);
      SumConcat(Flatten(init), xss[|xss| - 1]);
    }
  }

  /** The flattening around inner sequence `l`: the sequences before it,
      then it, then the sequences after it. */
  lemma {:induction false} FlattenAround<T>(xss: seq<seq<T>>, l: nat)
    requires l < |xss|
    ensures Flatten(xss) == Flatten(xss[..l]) + xss[l] + Flatten(xss[l + 1..])
  {
    var before := xss[..l];
    var rest := xss[l + 1..];
    assert xss == before + ([xss[l]] + rest);
    FlattenConcat(before, [xss[l]] + rest);
    FlattenConcat([xss[l]], rest);
    assert Flatten([xss[l]]) == xss[l] by {
      var one: seq<seq<T>> := [xss[l]];
      assert one[..0] == [];
    }
  }

  /** The elements of the flattening before element `n` of inner sequence
      `l` add up to the totals of the earlier inner sequences plus the first
      `n` elements of sequence `l`. */
  lemma {:induction false} SumFlattenPrefix(xss: seq<seq<nat>>, l: nat, n: nat)
    requires l < |xss| && n <= |xss[l]|
    ensures Sum(Lens(xss)[..l]) + n <= |Flatten(xss)|
    ensures Sum(Flatten(xss)[..Sum(Lens(xss)[..l]) + n]) == Sum(SumEach(xss)[..l]) + Sum(xss[l][..n])
  {
    var before := xss[..l];
    FlattenAround(xss, l);
    FlattenLength(before);
    assert Lens(before) == Lens(xss)[..l];
    SumPrefixInPart(Flatten(before), xss[l], Flatten(xss[l + 1..]), n);
    SumFlatten(before);
    assert SumEach(before) == SumEach(xss)[..l];
  }

  /** Consecutive regions whose starts are the prefix sums of their lengths
      never overlap: each one ends at or before any later one starts. */
  lemma {:induction false} PrefixRegionsDisjoint(lens: seq<nat>, i: nat, j: nat)
    requires i < j < |lens|
    ensures Sum(lens[..i]) + lens[i] <= Sum(lens[..j])
  {
    SumPrefixStep(lens, i);
    SumPrefixMonotone(lens, i + 1, j);
  }

  lemma MulAssoc(a: nat, b: nat, c: nat)
    ensures a * b * c == a * (b * c)
  {
  }

  /** A prefix that ends inside the middle part `q` of `p + q + r`. */
  lemma {:induction false} SumPrefixInPart(p: seq<nat>, q: seq<nat>, r: seq<nat>, j: nat)
    requires j <= |q|
    ensures Sum((p + q + r)[..|p| + j]) == Sum(p) + Sum(q[..j])
  {
    assert (p + q + r)[..|p| + j] == p + q[..j];
    SumConcat(p, q[..j]);
  }

  /** The lengths of a concatenation are the lengths of its parts. */
  lemma LensConcat<T>(a: seq<seq<T>>, b: seq<seq<T>>)
    ensures Lens(a + b) == Lens(a) + Lens(b)
  {
    assert forall k :: 0 <= k < |a + b| ==> Lens(a + b)[k] == (Lens(a) + Lens(b))[k];
  }

  /** The lengths of each inner sequence of every group, in order. */
  function LensEach<T>(xsss: seq<seq<seq<T>>>): (r: seq<seq<nat>>)
    ensures |r| == |xsss|
    ensures forall l :: 0 <= l < |xsss| ==> r[l] == Lens(xsss[l])
  {
    seq(|xsss|, l requires 0 <= l < |xsss| => Lens(xsss[l]))
  }

  /** Flattening one level and then taking lengths is taking lengths in
      each group and then flattening. */
  lemma {:induction false} LensFlatten<T>(xsss: seq<seq<seq<T>>>)
    ensures Lens(Flatten(xsss)) == Flatten(LensEach(xsss))
    decreases |xsss|
  {
    if |xsss| > 0 {
      var init := xsss[..|xsss| - 1];
      LensFlatten(init);
      assert LensEach(xsss) == LensEach(init) + [Lens(xsss[|xsss| - 1])];
      LensConcat(Flatten(init), xsss[|xsss| - 1]);
      assert LensEach(xsss)[..|xsss| - 1] == LensEach(init);
    }
  }

  /** Flattening a single sequence gives it back. */
  lemma FlattenSingle<T>(xs: seq<T>)
    ensures Flatten([xs]) == xs
  {
    assert [xs][..0] == [];
  }

  /** Flattening peeled from the front. */
  lemma {:induction false} FlattenFront<T>(xss: seq<seq<T>>)
    requires |xss| > 0
    ensures Flatten(xss) == xss[0] + Flatten(xss[1..])
  {
    FlattenConcat([xss[0]], xss[1..]);
    assert xss == [xss[0]] + xss[1..];
    assert [xss[0]][..0] == [];
  }
}

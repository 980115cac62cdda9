/** An optional value, and counting and summing over the elements of a sequence. */
module Counting {

  datatype Option<+T> = None | Some(value: T)

  function Bit(b: bool): nat { if b then 1 else 0 }

  function CountIf<T>(xs: seq<T>, p: T -> bool): nat {
    if xs == [] then 0 else Bit(p(xs[0])) + CountIf(xs[1..], p)
  }

  lemma {:induction false} CountUpdate<T>(xs: seq<T>, i: nat, x: T, p: T -> bool)
    requires i < |xs|
    ensures CountIf(xs[i := x], p) + Bit(p(xs[i])) == CountIf(xs, p) + Bit(p(x))
  {
    var ys := xs[i := x];
    if i == 0 {
      assert ys[1..] == xs[1..];
    } else {
      assert ys[1..] == xs[1..][i - 1 := x];
      CountUpdate(xs[1..], i - 1, x, p);
    }
  }

  lemma {:induction false} CountSnoc<T>(xs: seq<T>, x: T, p: T -> bool)
    ensures CountIf(xs + [x], p) == CountIf(xs, p) + Bit(p(x))
  {
    if xs == [] {
      assert xs + [x] == [x] && [x][1..] == [];
    } else {
      assert (xs + [x])[1..] == xs[1..] + [x];
      CountSnoc(xs[1..], x, p);
    }
  }

  lemma {:induction false} CountAtLeastOne<T>(xs: seq<T>, i: nat, p: T -> bool)
    requires i < |xs| && p(xs[i])
    ensures CountIf(xs, p) >= 1
  {
    if i > 0 { CountAtLeastOne(xs[1..], i - 1, p); }
  }

  lemma {:induction false} CountAtLeastTwo<T>(xs: seq<T>, i: nat, j: nat, p: T -> bool)
    requires i < j < |xs| && p(xs[i]) && p(xs[j])
    ensures CountIf(xs, p) >= 2
  {
    if i == 0 {
      CountAtLeastOne(xs[1..], j - 1, p);
    } else {
      CountAtLeastTwo(xs[1..], i - 1, j - 1, p);
    }
  }

  lemma {:induction false} CountWitness<T>(xs: seq<T>, p: T -> bool) returns (i: nat)
    requires CountIf(xs, p) > 0
    ensures i < |xs| && p(xs[i])
  {
    if p(xs[0]) {
      i := 0;
    } else {
      i := CountWitness(xs[1..], p);
      i := i + 1;
    }
  }

  /** If p implies q everywhere there are at least as many q; if they agree in number, q
      implies p everywhere. */
  lemma {:induction false} CountImplies<T>(xs: seq<T>, p: T -> bool, q: T -> bool)
    requires forall i :: 0 <= i < |xs| && p(xs[i]) ==> q(xs[i])
    ensures CountIf(xs, p) <= CountIf(xs, q) <= |xs|
    ensures CountIf(xs, p) == CountIf(xs, q)
            ==> forall i :: 0 <= i < |xs| && q(xs[i]) ==> p(xs[i])
  {
    if xs != [] {
      CountImplies(xs[1..], p, q);
      if CountIf(xs, p) == CountIf(xs, q) {
        forall i | 0 <= i < |xs| && q(xs[i]) ensures p(xs[i]) {
          if i > 0 { assert xs[i] == xs[1..][i - 1]; }
        }
      }
    }
  }

  function SumOf<T>(xs: seq<T>, f: T -> nat): nat {
    if xs == [] then 0 else f(xs[0]) + SumOf(xs[1..], f)
  }

  lemma {:induction false} SumUpdate<T>(xs: seq<T>, i: nat, x: T, f: T -> nat)
    requires i < |xs|
    ensures SumOf(xs[i := x], f) + f(xs[i]) == SumOf(xs, f) + f(x)
  {
    var ys := xs[i := x];
    if i == 0 {
      assert ys[1..] == xs[1..];
    } else {
      assert ys[1..] == xs[1..][i - 1 := x];
      SumUpdate(xs[1..], i - 1, x, f);
    }
  }
}

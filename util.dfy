/** Small shared vocabulary: an optional value and sums and counts over
    sequences of reals, with the facts about them that the other modules use. */
module Util {

  datatype Option<+T> = None | Some(value: T)

  /** Sum of a sequence, accumulated from the front as a loop would. */
  function Sum(s: seq<real>): real
  {
    if |s| == 0 then 0.0 else Sum(s[..|s| - 1]) + s[|s| - 1]
  }

  /** Arithmetic mean; the empty sequence has none. */
  function Mean(s: seq<real>): Option<real>
  {
    if |s| == 0 then None else Some(Sum(s) / |s| as real)
  }

  /** Every element divided by `c`. */
  function Divided(s: seq<real>, c: real): (r: seq<real>)
    requires c != 0.0
    ensures |r| == |s| && forall i :: 0 <= i < |s| ==> r[i] == s[i] / c
  {
    seq(|s|, i requires 0 <= i < |s| => s[i] / c)
  }

  /** Number of true entries. */
  function CountTrue(b: seq<bool>): (c: nat)
    ensures c <= |b|
  {
    if |b| == 0 then 0 else CountTrue(b[..|b| - 1]) + (if b[|b| - 1] then 1 else 0)
  }

  function Abs(x: real): (r: real)
    ensures r >= 0.0 && (r == x || r == -x)
  {
    if x < 0.0 then -x else x
  }

  /** `a` holds at most where `b` holds. */
  predicate Implies(a: seq<bool>, b: seq<bool>)
  {
    |a| == |b| && forall i :: 0 <= i < |a| && a[i] ==> b[i]
  }

  /** Counting respects pointwise implication, and two counts agree only
      when the flags do. */
  lemma {:induction false} CountTrueMonotone(a: seq<bool>, b: seq<bool>)
    requires Implies(a, b)
    ensures CountTrue(a) <= CountTrue(b)
    ensures CountTrue(a) == CountTrue(b) ==> a == b
  {
    if |a| > 0 {
      var a', b' := a[..|a| - 1], b[..|b| - 1];
      CountTrueMonotone(a', b');
      if CountTrue(a) == CountTrue(b) {
        assert a == a' + [a[|a| - 1]] && b == b' + [b[|b| - 1]];
      }
    }
  }

  /** No flag is set exactly when the count is zero. */
  lemma {:induction false} CountTrueZero(b: seq<bool>)
    ensures CountTrue(b) == 0 <==> forall i :: 0 <= i < |b| ==> !b[i]
  {
    if |b| > 0 {
      CountTrueZero(b[..|b| - 1]);
      if CountTrue(b) == 0 {
        forall i | 0 <= i < |b| ensures !b[i] {
          if i < |b| - 1 {
            assert b[..|b| - 1][i] == b[i];
          }
        }
      }
    }
  }

  /** Setting one clear flag adds one to the count. */
  lemma {:induction false} CountTrueSet(b: seq<bool>, i: nat)
    requires i < |b| && !b[i]
    ensures CountTrue(b[i := true]) == CountTrue(b) + 1
  {
    var b' := b[..|b| - 1];
    if i == |b| - 1 {
      assert b[i := true][..|b| - 1] == b';
    } else {
      assert b[i := true][..|b| - 1] == b'[i := true];
      CountTrueSet(b', i);
    }
  }

  /** A sum of values in [-1, 1] that vanish outside `allowed` is at most
      the number of allowed positions in absolute value. */
  lemma {:induction false} SumWithinSupport(s: seq<real>, allowed: seq<bool>)
    requires |allowed| == |s| && AllIn(s, -1.0, 1.0)
    requires forall i :: 0 <= i < |s| && s[i] != 0.0 ==> allowed[i]
    ensures Abs(Sum(s)) <= CountTrue(allowed) as real
  {
    if |s| > 0 {
      SumWithinSupport(s[..|s| - 1], allowed[..|s| - 1]);
    }
  }

  predicate AllIn(s: seq<real>, lo: real, hi: real)
  {
    forall i :: 0 <= i < |s| ==> lo <= s[i] <= hi
  }

  lemma {:induction false} SumAppend(s: seq<real>, x: real)
    ensures Sum(s + [x]) == Sum(s) + x
  {
    assert (s + [x])[..|s|] == s;
  }

  lemma {:induction false} SumConcat(s: seq<real>, t: seq<real>)
    ensures Sum(s + t) == Sum(s) + Sum(t)
    decreases |t|
  {
    if |t| > 0 {
      var t' := t[..|t| - 1];
      assert (s + t)[..|s + t| - 1] == s + t';
      SumConcat(s, t');
    } else {
      assert s + t == s;
    }
  }

  /** Dividing every element divides the sum. */
  lemma {:induction false} SumDivided(s: seq<real>, c: real)
    requires c != 0.0
    ensures Sum(Divided(s, c)) == Sum(s) / c
  {
    if |s| > 0 {
      var s' := s[..|s| - 1];
      assert Divided(s, c)[..|s| - 1] == Divided(s', c);
      SumDivided(s', c);
      var a, b := Sum(s'), s[|s| - 1];
      assert a / c + b / c == (a + b) / c;
    }
  }

  /** A sum of values in [lo, hi] lies in [|s| * lo, |s| * hi]. */
  lemma {:induction false} SumBounds(s: seq<real>, lo: real, hi: real)
    requires AllIn(s, lo, hi)
    ensures |s| as real * lo <= Sum(s) <= |s| as real * hi
  {
    if |s| > 0 {
      SumBounds(s[..|s| - 1], lo, hi);
    }
  }

  /** A sum of non-negative values is at least each of them. */
  lemma {:induction false} SumAtLeastElement(s: seq<real>, i: nat)
    requires forall j :: 0 <= j < |s| ==> s[j] >= 0.0
    requires i < |s|
    ensures Sum(s) >= s[i]
  {
    var s' := s[..|s| - 1];
    if i == |s| - 1 {
      SumNonNegative(s');
    } else {
      SumAtLeastElement(s', i);
    }
  }

  lemma {:induction false} SumNonNegative(s: seq<real>)
    requires forall j :: 0 <= j < |s| ==> s[j] >= 0.0
    ensures Sum(s) >= 0.0
  {
    if |s| > 0 {
      SumNonNegative(s[..|s| - 1]);
    }
  }

  /** The only non-zero element of a sequence is its sum. */
  lemma {:induction false} SumSingle(s: seq<real>, i: nat)
    requires i < |s|
    requires forall j :: 0 <= j < |s| && j != i ==> s[j] == 0.0
    ensures Sum(s) == s[i]
  {
    var s' := s[..|s| - 1];
    if i == |s| - 1 {
      SumZero(s');
    } else {
      SumSingle(s', i);
    }
  }

  lemma {:induction false} SumZero(s: seq<real>)
    requires forall j :: 0 <= j < |s| ==> s[j] == 0.0
    ensures Sum(s) == 0.0
  {
    if |s| > 0 {
      SumZero(s[..|s| - 1]);
    }
  }

  /** The mean of values in [lo, hi] lies in [lo, hi]. */
  lemma MeanBounds(s: seq<real>, lo: real, hi: real)
    requires AllIn(s, lo, hi) && |s| > 0
    ensures Mean(s).Some? && lo <= Mean(s).value <= hi
  {
    SumBounds(s, lo, hi);
    var n := |s| as real;
    assert n * lo <= Sum(s) <= n * hi;
    assert lo == (n * lo) / n && hi == (n * hi) / n;
  }
}

/** The archetype allocation of mix_network: every type of the distribution
    gets int(p * n) slots, the shortfall up to n goes to the last-listed type
    with the fewest slots, the slots are shuffled, and each type is mapped to
    the list of nodes that carry it. */
module Mixing {
  import opened Util

  /** Python's int() of a float: truncation toward zero. */
  function Trunc(x: real): (r: int)
    ensures x >= 0.0 ==> r >= 0 && r as real <= x < r as real + 1.0
    ensures x < 0.0 ==> r <= 0 && r as real - 1.0 < x <= r as real
  {
    if x >= 0.0 then x.Floor else -((-x).Floor)
  }

  /** The starting value of the running minimum. */
  const Sentinel: int := 99999999

  /** A type distribution: the entries of the dictionary in its order. */
  type Dist = seq<(string, real)>

  predicate DistinctKeys(d: Dist)
  {
    forall i, j :: 0 <= i < j < |d| ==> d[i].0 != d[j].0
  }

  function Keys(d: Dist): (ks: set<string>)
    ensures forall t :: t in ks <==> exists i :: 0 <= i < |d| && d[i].0 == t
  {
    set i | 0 <= i < |d| :: d[i].0
  }

  function Proportions(d: Dist): (p: seq<real>)
    ensures |p| == |d| && forall i :: 0 <= i < |d| ==> p[i] == d[i].1
  {
    seq(|d|, i requires 0 <= i < |d| => d[i].1)
  }

  /** The sum check: the proportions must sum to 1 within 1e-6. */
  predicate SumsToOne(d: Dist)
  {
    Abs(Sum(Proportions(d)) - 1.0) <= 0.000001
  }

  /** nums[t] = int(d[t] * n). */
  function Slots(d: Dist, n: nat, i: nat): int
    requires i < |d|
  {
    Trunc(d[i].1 * n as real)
  }

  function Max0(x: int): nat
  {
    if x < 0 then 0 else x
  }

  /** The running (min_num, min_t) after the first k entries: `<=` lets a
      later entry with an equal count take over. */
  function MinScan(d: Dist, n: nat, k: nat): (int, string)
    requires k <= |d|
  {
    if k == 0 then (Sentinel, "")
    else
      var prev := MinScan(d, n, k - 1);
      if Slots(d, n, k - 1) <= prev.0 then (Slots(d, n, k - 1), d[k - 1].0) else prev
  }

  /** min_t after the scan: a key of the distribution as soon as some
      count is at most the sentinel, and '' when every count exceeds it. */
  function MinTag(d: Dist, n: nat): (t: string)
    ensures (exists i :: 0 <= i < |d| && Slots(d, n, i) <= Sentinel) ==> t in Keys(d)
    ensures (forall i :: 0 <= i < |d| ==> Slots(d, n, i) > Sentinel) ==> t == ""
  {
    MinScanIsLastMinimal(d, n, |d|);
    MinScan(d, n, |d|).1
  }

  /** n copies of t; none for a negative count, as range() gives. */
  function Repeat(t: string, c: int): (r: seq<string>)
    ensures |r| == Max0(c) && forall i :: 0 <= i < |r| ==> r[i] == t
  {
    seq(Max0(c), _ => t)
  }

  /** The type vector after the allocation loop has seen k entries. */
  function Allocated(d: Dist, n: nat, k: nat): seq<string>
    requires k <= |d|
  {
    if k == 0 then [] else Allocated(d, n, k - 1) + Repeat(d[k - 1].0, Slots(d, n, k - 1))
  }

  function Shortfall(d: Dist, n: nat): nat
  {
    var a := |Allocated(d, n, |d|)|;
    if a < n then n - a else 0
  }

  /** The type vector before the shuffle: n slots, or the truncated total
      when it overshoots n. */
  function Unshuffled(d: Dist, n: nat): (r: seq<string>)
    ensures |r| == if SlotTotal(d, n, |d|) <= n then n else SlotTotal(d, n, |d|)
  {
    AllocatedLength(d, n, |d|);
    Allocated(d, n, |d|) + Repeat(MinTag(d, n), Shortfall(d, n))
  }

  /** Slot total of the first k entries. */
  function SlotTotal(d: Dist, n: nat, k: nat): nat
    requires k <= |d|
  {
    if k == 0 then 0 else SlotTotal(d, n, k - 1) + Max0(Slots(d, n, k - 1))
  }

  lemma {:induction false} AllocatedLength(d: Dist, n: nat, k: nat)
    requires k <= |d|
    ensures |Allocated(d, n, k)| == SlotTotal(d, n, k)
  {
    if k > 0 {
      AllocatedLength(d, n, k - 1);
    }
  }

  /** With non-negative proportions summing to at most 1, truncation never
      overshoots, so the type vector has exactly n slots. */
  lemma {:induction false} NoOvershoot(d: Dist, n: nat, k: nat)
    requires k <= |d| && forall i :: 0 <= i < |d| ==> d[i].1 >= 0.0
    ensures SlotTotal(d, n, k) as real <= n as real * Sum(Proportions(d)[..k])
  {
    if k > 0 {
      NoOvershoot(d, n, k - 1);
      var p := Proportions(d);
      assert p[..k][..k - 1] == p[..k - 1];
      assert Sum(p[..k]) == Sum(p[..k - 1]) + d[k - 1].1;
      assert n as real * Sum(p[..k]) == n as real * Sum(p[..k - 1]) + d[k - 1].1 * n as real;
    }
  }

  lemma ExactlyN(d: Dist, n: nat)
    requires forall i :: 0 <= i < |d| ==> d[i].1 >= 0.0
    requires Sum(Proportions(d)) <= 1.0
    ensures |Unshuffled(d, n)| == n
  {
    var p := Proportions(d);
    NoOvershoot(d, n, |d|);
    assert p[..|d|] == p;
    AtMostN(SlotTotal(d, n, |d|), n, Sum(p));
  }

  /** A count bounded by n times a fraction of at most 1 is at most n. */
  lemma AtMostN(total: nat, n: nat, x: real)
    requires total as real <= n as real * x && x <= 1.0
    ensures total <= n
  {
    assert n as real * x <= n as real;
  }

  /** The tolerance of the sum check lets truncation overshoot: a single
      type with proportion 1.0000005 passes it and, for two million nodes,
      gets one slot more than there are nodes (2000001 is also what the
      double product truncates to). */
  lemma OvershootExample()
    ensures SumsToOne([("a", 1.0000005)])
    ensures |Unshuffled([("a", 1.0000005)], 2000000)| == 2000001
  {
    var d := [("a", 1.0000005)];
    assert Proportions(d) == [1.0000005];
    assert Sum([1.0000005]) == Sum([]) + 1.0000005;
    assert Slots(d, 2000000, 0) == 2000001;
    assert SlotTotal(d, 2000000, 1) == 2000001;
  }

  /** The minimum tag is the last-listed entry with the fewest slots, as long
      as some count reaches the sentinel; otherwise it stays "". */
  lemma {:induction false} MinScanIsLastMinimal(d: Dist, n: nat, k: nat)
    requires k <= |d|
    ensures MinScan(d, n, k).0 <= Sentinel
    ensures (MinScan(d, n, k).0 == Sentinel && MinScan(d, n, k).1 == "") ||
      exists j :: 0 <= j < k && MinScan(d, n, k) == (Slots(d, n, j), d[j].0)
    ensures forall i :: 0 <= i < k ==> Slots(d, n, i) >= MinScan(d, n, k).0 || Slots(d, n, i) > Sentinel
    ensures (exists i :: 0 <= i < k && Slots(d, n, i) <= Sentinel) ==>
      exists j :: 0 <= j < k && MinScan(d, n, k) == (Slots(d, n, j), d[j].0)
        && (forall i :: 0 <= i < k ==> Slots(d, n, i) >= Slots(d, n, j))
        && (forall i :: j < i < k ==> Slots(d, n, i) > Slots(d, n, j))
  {
    if k > 0 {
      MinScanIsLastMinimal(d, n, k - 1);
      var prev := MinScan(d, n, k - 1);
      if Slots(d, n, k - 1) <= prev.0 {
        assert MinScan(d, n, k) == (Slots(d, n, k - 1), d[k - 1].0);
      } else if exists i :: 0 <= i < k && Slots(d, n, i) <= Sentinel {
        assert exists i :: 0 <= i < k - 1 && Slots(d, n, i) <= Sentinel;
      }
    }
  }

  /** Occurrences of t in a sequence. */
  function Occurrences(s: seq<string>, t: string): nat
  {
    multiset(s)[t]
  }

  lemma {:induction false} AllocatedCounts(d: Dist, n: nat, k: nat, i: nat)
    requires DistinctKeys(d) && i < |d| && k <= |d|
    ensures Occurrences(Allocated(d, n, k), d[i].0) == if i < k then Max0(Slots(d, n, i)) else 0
  {
    if k > 0 {
      AllocatedCounts(d, n, k - 1, i);
      var r := Repeat(d[k - 1].0, Slots(d, n, k - 1));
      assert multiset(Allocated(d, n, k)) == multiset(Allocated(d, n, k - 1)) + multiset(r);
      RepeatCount(d[k - 1].0, Slots(d, n, k - 1), d[i].0);
    }
  }

  lemma {:induction false} RepeatCount(t: string, c: int, x: string)
    ensures multiset(Repeat(t, c))[x] == if x == t then Max0(c) else 0
    decreases Max0(c)
  {
    if c > 0 {
      assert Repeat(t, c) == Repeat(t, c - 1) + [t];
      RepeatCount(t, c - 1, x);
    } else {
      assert Repeat(t, c) == [];
    }
  }

  lemma {:induction false} AllocatedKeys(d: Dist, n: nat, k: nat)
    requires k <= |d|
    ensures forall x :: x in Allocated(d, n, k) ==> x in Keys(d)
  {
    if k > 0 {
      AllocatedKeys(d, n, k - 1);
    }
  }

  /** Each type gets its truncated count, and the minimum tag the shortfall on top. */
  lemma UnshuffledCounts(d: Dist, n: nat, i: nat)
    requires DistinctKeys(d) && i < |d|
    ensures Occurrences(Unshuffled(d, n), d[i].0) ==
      Max0(Slots(d, n, i)) + (if d[i].0 == MinTag(d, n) then Shortfall(d, n) else 0)
  {
    AllocatedCounts(d, n, |d|, i);
    RepeatCount(MinTag(d, n), Shortfall(d, n), d[i].0);
  }

  /** Every slot holds a type of the distribution, provided the minimum tag
      is one whenever there is a shortfall. */
  lemma UnshuffledKeys(d: Dist, n: nat)
    requires Shortfall(d, n) > 0 ==> MinTag(d, n) in Keys(d)
    ensures forall x :: x in Unshuffled(d, n) ==> x in Keys(d)
  {
    AllocatedKeys(d, n, |d|);
  }

  function Swap(s: seq<string>, i: nat, j: nat): (r: seq<string>)
    requires i < |s| && j < |s|
    ensures |r| == |s| && multiset(r) == multiset(s)
  {
    s[i := s[j]][j := s[i]]
  }

  /** A shuffle as a pass of swaps from the last position down: position
      i - 1 is swapped with pick(i - 1), for i = m, ..., 2. */
  predicate ValidPicks(pick: int -> int, len: nat)
  {
    forall j :: 0 < j < len ==> 0 <= pick(j) <= j
  }

  /** rnd.shuffle as a pass of swaps: a rearrangement that keeps every
      slot's type and every count. */
  function ShuffleDown(s: seq<string>, pick: int -> int, m: nat): (r: seq<string>)
    requires m <= |s| && ValidPicks(pick, |s|)
    ensures |r| == |s| && multiset(r) == multiset(s)
    decreases m
  {
    if m <= 1 then s else ShuffleDown(Swap(s, m - 1, pick(m - 1)), pick, m - 1)
  }

  /** The index list of t over s[..k]: exactly the positions below k that
      hold t. */
  function IndexesOf(s: seq<string>, t: string, k: nat): (r: seq<nat>)
    requires k <= |s|
    ensures forall i: nat :: i in r <==> i < k && s[i] == t
    ensures forall p :: 0 <= p < |r| ==> r[p] < k
  {
    if k == 0 then [] else IndexesOf(s, t, k - 1) + (if s[k - 1] == t then [k - 1] else [])
  }

  /** The index list is in increasing order, as the appending loop builds it. */
  lemma {:induction false} IndexesAscending(s: seq<string>, t: string, k: nat)
    requires k <= |s|
    ensures forall p, q :: 0 <= p < q < |IndexesOf(s, t, k)| ==> IndexesOf(s, t, k)[p] < IndexesOf(s, t, k)[q]
  {
    if k > 0 {
      IndexesAscending(s, t, k - 1);
    }
  }

  /** The index lists partition the positions of the type vector: position
      i is in the list of t exactly when t is its type. */
  lemma IndexesPartition(s: seq<string>, keys: set<string>, i: nat, t: string)
    requires i < |s| && forall x :: x in s ==> x in keys
    requires t in keys
    ensures i in IndexesOf(s, t, |s|) <==> s[i] == t
    ensures s[i] in keys && i in IndexesOf(s, s[i], |s|)
  {
    assert s[i] in s;
  }

  /** After the shuffle every slot holds a type of the distribution, and
      every type fills its truncated count of slots plus, for the minimum
      tag, the shortfall. */
  lemma MixedTypes(d: Dist, n: nat, pick: int -> int, i: nat)
    requires DistinctKeys(d) && i < |d|
    requires Shortfall(d, n) > 0 ==> MinTag(d, n) in Keys(d)
    requires ValidPicks(pick, |Unshuffled(d, n)|)
    ensures forall x :: x in ShuffleDown(Unshuffled(d, n), pick, |Unshuffled(d, n)|) ==> x in Keys(d)
    ensures Occurrences(ShuffleDown(Unshuffled(d, n), pick, |Unshuffled(d, n)|), d[i].0) ==
      Max0(Slots(d, n, i)) + (if d[i].0 == MinTag(d, n) then Shortfall(d, n) else 0)
  {
    var u := Unshuffled(d, n);
    UnshuffledKeys(d, n);
    UnshuffledCounts(d, n, i);
    forall x | x in ShuffleDown(u, pick, |u|) ensures x in Keys(d) {
      assert x in multiset(ShuffleDown(u, pick, |u|));
    }
  }
}

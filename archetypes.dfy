/** The behaviour of the six agent archetypes: the reward a node draws from
    what it sees of a neighbour, the unweighted local average of its
    neighbourhood, and the rule that decides whether one of its coordinates
    flips. */
module Archetypes {
  import opened Util

  /** R, E and SC flip towards the sign of their neighbourhood. */
  predicate Conformist(tag: string)
  {
    tag == "R" || tag == "E" || tag == "SC"
  }

  /** DA, RWC and SR flip away from the sign of their neighbourhood. */
  predicate Contrarian(tag: string)
  {
    tag == "DA" || tag == "RWC" || tag == "SR"
  }

  predicate IsArchetype(tag: string)
  {
    Conformist(tag) || Contrarian(tag)
  }

  /** R and DA prefer agreement, E and RWC difference, SC and SR an even split. */
  predicate LikesAgreement(tag: string) { tag == "R" || tag == "DA" }
  predicate LikesDifference(tag: string) { tag == "E" || tag == "RWC" }
  predicate LikesBalance(tag: string) { tag == "SC" || tag == "SR" }

  /** The coordinates of a view that are shown: a hidden coordinate is 0. */
  function Shown(view: seq<real>): (b: seq<bool>)
    ensures |b| == |view|
  {
    seq(|view|, k requires 0 <= k < |view| => view[k] != 0.0)
  }

  /** The shown coordinates on which the observer's own value differs from the view. */
  function Differing(own: seq<real>, view: seq<real>): (b: seq<bool>)
    requires |own| == |view|
    ensures Implies(b, Shown(view))
  {
    seq(|view|, k requires 0 <= k < |view| => view[k] != 0.0 && own[k] != view[k])
  }

  /** Hamming distance restricted to the shown coordinates: the fraction of
      them on which `own` and `view` differ. */
  function Distance(own: seq<real>, view: seq<real>): (d: real)
    requires |own| == |view| && CountTrue(Shown(view)) > 0
    ensures 0.0 <= d <= 1.0
  {
    CountTrueMonotone(Differing(own, view), Shown(view));
    Ratio(CountTrue(Differing(own, view)), CountTrue(Shown(view)));
    CountTrue(Differing(own, view)) as real / CountTrue(Shown(view)) as real
  }

  /** A count over a larger count is a fraction in [0, 1] that scales back. */
  lemma Ratio(m: nat, s: nat)
    requires 0 < s && m <= s
    ensures 0.0 <= m as real / s as real <= 1.0
    ensures (m as real / s as real) * s as real == m as real
  {
  }

  /** get_reward_for_neighbor: 0 when nothing is shown (before the tag is
      looked up); otherwise 1 - d, d or 1 - 2|d - 1/2| by archetype family;
      None stands for a missing tag or a tag that is no archetype. */
  function Reward(tag: Option<string>, own: seq<real>, view: seq<real>): (r: Option<real>)
    requires |own| == |view|
    ensures r.Some? ==> 0.0 <= r.value <= 1.0
    ensures r.Some? <==> CountTrue(Shown(view)) == 0 || (tag.Some? && IsArchetype(tag.value))
    ensures CountTrue(Shown(view)) == 0 ==> r == Some(0.0)
  {
    if CountTrue(Shown(view)) == 0 then Some(0.0)
    else if tag.None? then None
    else
      var d := Distance(own, view);
      if LikesAgreement(tag.value) then Some(1.0 - d)
      else if LikesDifference(tag.value) then Some(d)
      else if LikesBalance(tag.value) then Some(1.0 - Abs(d - 0.5) * 2.0)
      else None
  }

  /** Distance times the number of shown coordinates is the number of differing ones. */
  lemma DistanceScaled(own: seq<real>, view: seq<real>)
    requires |own| == |view| && CountTrue(Shown(view)) > 0
    ensures Distance(own, view) * CountTrue(Shown(view)) as real == CountTrue(Differing(own, view)) as real
  {
    var m, s := CountTrue(Differing(own, view)), CountTrue(Shown(view));
    CountTrueMonotone(Differing(own, view), Shown(view));
    assert Distance(own, view) == m as real / s as real;
    Ratio(m, s);
  }

  /** Distance 0 means agreement on every shown coordinate. */
  lemma DistanceZero(own: seq<real>, view: seq<real>)
    requires |own| == |view| && CountTrue(Shown(view)) > 0
    ensures Distance(own, view) == 0.0 <==> forall k :: 0 <= k < |view| && view[k] != 0.0 ==> own[k] == view[k]
  {
    var diff := Differing(own, view);
    DistanceScaled(own, view);
    CountTrueZero(diff);
    if forall k :: 0 <= k < |view| && view[k] != 0.0 ==> own[k] == view[k] {
      forall k | 0 <= k < |view| ensures !diff[k] {
      }
    }
    if Distance(own, view) == 0.0 {
      forall k | 0 <= k < |view| && view[k] != 0.0 ensures own[k] == view[k] {
        assert !diff[k];
      }
    }
  }

  /** Distance 1 means difference on every shown coordinate. */
  lemma DistanceOne(own: seq<real>, view: seq<real>)
    requires |own| == |view| && CountTrue(Shown(view)) > 0
    ensures Distance(own, view) == 1.0 <==> forall k :: 0 <= k < |view| && view[k] != 0.0 ==> own[k] != view[k]
  {
    var diff, shown := Differing(own, view), Shown(view);
    CountTrueMonotone(diff, shown);
    RatioOne(CountTrue(diff), CountTrue(shown));
    if forall k :: 0 <= k < |view| && view[k] != 0.0 ==> own[k] != view[k] {
      assert forall k :: 0 <= k < |view| ==> diff[k] == shown[k];
      assert diff == shown;
    }
    if diff == shown {
      forall k | 0 <= k < |view| && view[k] != 0.0 ensures own[k] != view[k] {
        assert shown[k];
      }
    }
  }

  /** A ratio of counts m <= s is 1 exactly when m == s. */
  lemma RatioOne(m: nat, s: nat)
    requires 0 < s && m <= s
    ensures m as real / s as real == 1.0 <==> m == s
  {
    if m as real / s as real == 1.0 {
      assert m as real == (m as real / s as real) * s as real;
    }
  }

  /** An agreement seeker's reward is 1 exactly when every shown coordinate
      agrees with its own, and 0 exactly when every one differs. */
  lemma AgreementReward(tag: string, own: seq<real>, view: seq<real>)
    requires |own| == |view| && CountTrue(Shown(view)) > 0 && LikesAgreement(tag)
    ensures Reward(Some(tag), own, view) == Some(1.0) <==> forall k :: 0 <= k < |view| && view[k] != 0.0 ==> own[k] == view[k]
    ensures Reward(Some(tag), own, view) == Some(0.0) <==> forall k :: 0 <= k < |view| && view[k] != 0.0 ==> own[k] != view[k]
  {
    DistanceZero(own, view);
    DistanceOne(own, view);
  }

  /** A difference seeker's reward is 1 exactly when every shown coordinate
      differs from its own, and 0 exactly when every one agrees. */
  lemma DifferenceReward(tag: string, own: seq<real>, view: seq<real>)
    requires |own| == |view| && CountTrue(Shown(view)) > 0 && LikesDifference(tag)
    ensures Reward(Some(tag), own, view) == Some(1.0) <==> forall k :: 0 <= k < |view| && view[k] != 0.0 ==> own[k] != view[k]
    ensures Reward(Some(tag), own, view) == Some(0.0) <==> forall k :: 0 <= k < |view| && view[k] != 0.0 ==> own[k] == view[k]
  {
    DistanceZero(own, view);
    DistanceOne(own, view);
  }

  /** A balance seeker's reward is 1 exactly when exactly half of the shown
      coordinates differ. */
  lemma BalanceReward(tag: string, own: seq<real>, view: seq<real>)
    requires |own| == |view| && CountTrue(Shown(view)) > 0 && LikesBalance(tag)
    ensures Reward(Some(tag), own, view) == Some(1.0) <==> 2 * CountTrue(Differing(own, view)) == CountTrue(Shown(view))
  {
    var d := Distance(own, view);
    DistanceScaled(own, view);
    HalfExactly(d, CountTrue(Differing(own, view)), CountTrue(Shown(view)));
  }

  /** For d * s == m with s > 0, the balance score 1 - 2|d - 1/2| is 1
      exactly when 2m == s. */
  lemma HalfExactly(d: real, m: nat, s: nat)
    requires s > 0 && d * s as real == m as real
    ensures 1.0 - Abs(d - 0.5) * 2.0 == 1.0 <==> 2 * m == s
  {
    assert 1.0 - Abs(d - 0.5) * 2.0 == 1.0 <==> d == 0.5;
    ScaledHalf(d, m as real, s as real);
  }

  lemma ScaledHalf(d: real, mr: real, sr: real)
    requires sr > 0.0 && d * sr == mr
    ensures d == 0.5 <==> 2.0 * mr == sr
  {
    if d < 0.5 {
      assert d * sr < 0.5 * sr;
    } else if d > 0.5 {
      assert d * sr > 0.5 * sr;
    }
  }

  /** Agreement and difference seekers score the same neighbour to a total of 1. */
  lemma RewardsComplementary(own: seq<real>, view: seq<real>)
    requires |own| == |view| && CountTrue(Shown(view)) > 0
    ensures Reward(Some("R"), own, view).value + Reward(Some("E"), own, view).value == 1.0
    ensures Reward(Some("DA"), own, view) == Reward(Some("R"), own, view)
    ensures Reward(Some("RWC"), own, view) == Reward(Some("E"), own, view)
  {
  }

  /** The present rewards of a list; empty when any is missing. */
  function Present(rs: seq<Option<real>>): (v: seq<real>)
    requires forall i :: 0 <= i < |rs| ==> rs[i].Some?
    ensures |v| == |rs| && forall i :: 0 <= i < |rs| ==> rs[i] == Some(v[i])
  {
    seq(|rs|, i requires 0 <= i < |rs| => rs[i].value)
  }

  /** get_reward_for_node from the neighbour rewards: 0 for no neighbour,
      otherwise their mean, which does not exist when one of them is missing. */
  function NodeReward(rs: seq<Option<real>>): (r: Option<real>)
    ensures |rs| == 0 ==> r == Some(0.0)
    ensures r.None? <==> exists i :: 0 <= i < |rs| && rs[i].None?
  {
    if |rs| == 0 then Some(0.0)
    else if exists i :: 0 <= i < |rs| && rs[i].None? then None
    else Mean(Present(rs))
  }

  /** A node reward is a reward: a mean of values in [0, 1] lies in [0, 1]. */
  lemma NodeRewardBounded(rs: seq<Option<real>>)
    requires forall i :: 0 <= i < |rs| ==> rs[i].Some? ==> 0.0 <= rs[i].value <= 1.0
    ensures NodeReward(rs).Some? ==> 0.0 <= NodeReward(rs).value <= 1.0
  {
    if |rs| > 0 && forall i :: 0 <= i < |rs| ==> rs[i].Some? {
      MeanBounds(Present(rs), 0.0, 1.0);
    }
  }

  /** Column k of a matrix given as rows. */
  function Column(m: seq<seq<real>>, k: nat): (c: seq<real>)
    requires forall v :: 0 <= v < |m| ==> k < |m[v]|
    ensures |c| == |m| && forall v :: 0 <= v < |m| ==> c[v] == m[v][k]
  {
    seq(|m|, v requires 0 <= v < |m| => m[v][k])
  }

  /** get_local_average, unweighted: each coordinate of the observer's view
      matrix summed over all rows and divided by its neighbour count plus one. */
  function LocalAverage(view: seq<seq<real>>, dims: nat, degree: nat): (r: seq<real>)
    requires forall v :: 0 <= v < |view| ==> |view[v]| == dims
    ensures |r| == dims
  {
    seq(dims, k requires 0 <= k < dims => Sum(Column(view, k)) / (degree + 1) as real)
  }

  /** Rows of the view that are non-zero only for the observer and its neighbours. */
  predicate SeenOnlyFrom(view: seq<seq<real>>, nbr: seq<bool>, u: nat)
    requires |nbr| == |view| && u < |view|
  {
    forall v, k :: 0 <= v < |view| && v != u && !nbr[v] && 0 <= k < |view[v]| ==> view[v][k] == 0.0
  }

  /** With opinions in [-1, 1], seen only from the observer and its
      neighbours, every coordinate of the local average lies in [-1, 1]. */
  lemma LocalAverageBounded(view: seq<seq<real>>, dims: nat, nbr: seq<bool>, u: nat)
    requires |nbr| == |view| && u < |view| && !nbr[u]
    requires forall v :: 0 <= v < |view| ==> |view[v]| == dims && AllIn(view[v], -1.0, 1.0)
    requires SeenOnlyFrom(view, nbr, u)
    ensures AllIn(LocalAverage(view, dims, CountTrue(nbr)), -1.0, 1.0)
  {
    var avg := LocalAverage(view, dims, CountTrue(nbr));
    forall k | 0 <= k < dims ensures -1.0 <= avg[k] <= 1.0 {
      ColumnAverageBounded(view, dims, nbr, u, k);
    }
  }

  lemma ColumnAverageBounded(view: seq<seq<real>>, dims: nat, nbr: seq<bool>, u: nat, k: nat)
    requires |nbr| == |view| && u < |view| && !nbr[u] && k < dims
    requires forall v :: 0 <= v < |view| ==> |view[v]| == dims && AllIn(view[v], -1.0, 1.0)
    requires SeenOnlyFrom(view, nbr, u)
    ensures -1.0 <= Sum(Column(view, k)) / (CountTrue(nbr) + 1) as real <= 1.0
  {
    ColumnSupport(view, dims, nbr, u, k);
    SupportAverageBounded(Column(view, k), nbr, u);
  }

  /** Values in [-1, 1] that vanish outside nbr and u, averaged over the
      count of nbr plus one, stay in [-1, 1]. */
  lemma SupportAverageBounded(c: seq<real>, nbr: seq<bool>, u: nat)
    requires |c| == |nbr| && u < |nbr| && !nbr[u] && AllIn(c, -1.0, 1.0)
    requires forall v :: 0 <= v < |c| && c[v] != 0.0 ==> nbr[u := true][v]
    ensures -1.0 <= Sum(c) / (CountTrue(nbr) + 1) as real <= 1.0
  {
    CountTrueSet(nbr, u);
    SumWithinSupport(c, nbr[u := true]);
    Normalized(Sum(c), (CountTrue(nbr) + 1) as real);
  }

  lemma ColumnSupport(view: seq<seq<real>>, dims: nat, nbr: seq<bool>, u: nat, k: nat)
    requires |nbr| == |view| && u < |view| && k < dims
    requires forall v :: 0 <= v < |view| ==> |view[v]| == dims && AllIn(view[v], -1.0, 1.0)
    requires SeenOnlyFrom(view, nbr, u)
    ensures AllIn(Column(view, k), -1.0, 1.0)
    ensures forall v :: 0 <= v < |view| && Column(view, k)[v] != 0.0 ==> nbr[u := true][v]
  {
    var c := Column(view, k);
    forall v | 0 <= v < |c| ensures -1.0 <= c[v] <= 1.0 {
      assert c[v] == view[v][k];
    }
  }

  lemma Normalized(x: real, t: real)
    requires t > 0.0 && Abs(x) <= t
    ensures -1.0 <= x / t <= 1.0
  {
    assert x / t * t == x;
  }

  /** A node with no neighbour that sees nothing but itself averages to its
      own view of itself. */
  lemma IsolatedAverageIsOwnView(view: seq<seq<real>>, dims: nat, u: nat)
    requires u < |view| && forall v :: 0 <= v < |view| ==> |view[v]| == dims
    requires forall v, k :: 0 <= v < |view| && v != u && 0 <= k < dims ==> view[v][k] == 0.0
    ensures LocalAverage(view, dims, 0) == view[u]
  {
    var avg := LocalAverage(view, dims, 0);
    forall k | 0 <= k < dims ensures avg[k] == view[u][k] {
      SumSingle(Column(view, k), u);
    }
  }

  /** Mean of every column of a matrix with `dims` columns; an empty matrix has none. */
  function ColumnMeans(m: seq<seq<real>>, dims: nat): (r: Option<seq<real>>)
    requires forall v :: 0 <= v < |m| ==> |m[v]| == dims
    ensures r.None? <==> |m| == 0
    ensures r.Some? ==> |r.value| == dims
  {
    if |m| == 0 then None
    else Some(seq(dims, k requires 0 <= k < dims => Sum(Column(m, k)) / |m| as real))
  }

  /** Averages of opinions in [-1, 1] lie in [-1, 1]. */
  lemma ColumnMeansBounded(m: seq<seq<real>>, dims: nat)
    requires forall v :: 0 <= v < |m| ==> |m[v]| == dims && AllIn(m[v], -1.0, 1.0)
    ensures ColumnMeans(m, dims).Some? ==> AllIn(ColumnMeans(m, dims).value, -1.0, 1.0)
  {
    if |m| > 0 {
      var r := ColumnMeans(m, dims).value;
      forall k | 0 <= k < dims ensures -1.0 <= r[k] <= 1.0 {
        MeanBounds(Column(m, k), -1.0, 1.0);
      }
    }
  }

  /** update_attributes' choice for one coordinate with value x, local
      average avg, resistance res and draw p: the archetype test does not
      skip it, the average outweighs the resistance and the draw is below
      the update probability. */
  predicate Chosen(tag: string, x: real, avg: real, res: real, p: real, update: real)
    ensures Chosen(tag, x, avg, res, p, update) ==> IsArchetype(tag)
    ensures -1.0 <= avg <= 1.0 && res >= 1.0 ==> !Chosen(tag, x, avg, res, p, update)
    ensures 0.0 <= p && update <= 0.0 ==> !Chosen(tag, x, avg, res, p, update)
  {
    && ((Conformist(tag) && !(x * avg > 0.0)) || (Contrarian(tag) && !(x * avg < 0.0)))
    && Abs(avg) > res
    && p < update
  }

  /** For an opinion of +1 or -1 and a non-negative resistance, a conformist
      coordinate flips exactly when it disagrees in sign with a strong enough
      local average, a contrarian one exactly when it agrees; either way the
      flipped value conforms to, or opposes, that average strictly. */
  lemma ChosenMeaning(tag: string, x: real, avg: real, res: real, p: real, update: real)
    requires x == 1.0 || x == -1.0
    requires res >= 0.0
    ensures Chosen(tag, x, avg, res, p, update) <==>
      ((Conformist(tag) && x * avg < 0.0) || (Contrarian(tag) && x * avg > 0.0)) && Abs(avg) > res && p < update
    ensures Chosen(tag, x, avg, res, p, update) && Conformist(tag) ==> (-x) * avg > 0.0
    ensures Chosen(tag, x, avg, res, p, update) && Contrarian(tag) ==> (-x) * avg < 0.0
  {
    if Abs(avg) > res {
      assert avg != 0.0;
      assert x * avg != 0.0;
    }
  }
}

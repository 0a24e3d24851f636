/** Raw and normalized influence weights.  Column u of the raw matrix W holds
    the influence every node has on u; column u of the normalized matrix N is
    the same column scaled to a convex combination. */
module Weights {
  import opened Util

  /** Column u of N as update_weight_column writes it from column u of W:
      every influencer v of u gets W[v][u] / total, u itself 1 / total, any
      other node 0, where total is the sum of the whole column of W. */
  function NormalizeColumn(w: seq<real>, nbr: seq<bool>, u: nat): (r: seq<real>)
    requires |nbr| == |w| && u < |w| && Sum(w) != 0.0
    ensures |r| == |w|
    ensures r[u] == 1.0 / Sum(w)
    ensures forall v :: 0 <= v < |w| && v != u && !nbr[v] ==> r[v] == 0.0
  {
    var total := Sum(w);
    seq(|w|, v requires 0 <= v < |w| => if v == u then 1.0 / total else if nbr[v] then w[v] / total else 0.0)
  }

  /** Self-weight 1 and non-zero raw weight only from an influencer. */
  predicate Supported(w: seq<real>, nbr: seq<bool>, u: nat)
    requires |nbr| == |w| && u < |w|
  {
    w[u] == 1.0 && forall v :: 0 <= v < |w| && w[v] != 0.0 ==> v == u || nbr[v]
  }

  /** The invariant a raw column keeps: supported and non-negative. */
  predicate WellFormedColumn(w: seq<real>, nbr: seq<bool>, u: nat)
    requires |nbr| == |w| && u < |w|
  {
    Supported(w, nbr, u) && forall v :: 0 <= v < |w| ==> w[v] >= 0.0
  }

  /** A well-formed column has a total of at least its self-weight. */
  lemma ColumnTotalAtLeastOne(w: seq<real>, nbr: seq<bool>, u: nat)
    requires |nbr| == |w| && u < |w| && WellFormedColumn(w, nbr, u)
    ensures Sum(w) >= 1.0
  {
    SumAtLeastElement(w, u);
  }

  /** For a supported column, normalizing is dividing every raw weight by the
      column total: N[v][u] == W[v][u] / sum over x of W[x][u]. */
  lemma NormalizeColumnIsProportional(w: seq<real>, nbr: seq<bool>, u: nat)
    requires |nbr| == |w| && u < |w| && Sum(w) != 0.0
    requires Supported(w, nbr, u)
    ensures NormalizeColumn(w, nbr, u) == Divided(w, Sum(w))
  {
    var r, d := NormalizeColumn(w, nbr, u), Divided(w, Sum(w));
    forall v | 0 <= v < |w| ensures r[v] == d[v] {
      if v != u && !nbr[v] {
        assert w[v] == 0.0;
      }
    }
  }

  /** The normalization invariant: a supported column of N sums to 1. */
  lemma NormalizedColumnSumsToOne(w: seq<real>, nbr: seq<bool>, u: nat)
    requires |nbr| == |w| && u < |w| && Sum(w) != 0.0
    requires Supported(w, nbr, u)
    ensures Sum(NormalizeColumn(w, nbr, u)) == 1.0
  {
    var total := Sum(w);
    NormalizeColumnIsProportional(w, nbr, u);
    SumDivided(w, total);
    SelfRatio(total);
  }

  lemma SelfRatio(x: real)
    requires x != 0.0
    ensures x / x == 1.0
  {
  }

  /** A well-formed column normalizes to a convex combination: every entry in
      [0, 1], the entries summing to 1. */
  lemma NormalizedColumnIsConvex(w: seq<real>, nbr: seq<bool>, u: nat)
    requires |nbr| == |w| && u < |w| && WellFormedColumn(w, nbr, u)
    ensures Sum(w) >= 1.0
    ensures AllIn(NormalizeColumn(w, nbr, u), 0.0, 1.0)
    ensures Sum(NormalizeColumn(w, nbr, u)) == 1.0
  {
    ColumnTotalAtLeastOne(w, nbr, u);
    var total := Sum(w);
    NormalizeColumnIsProportional(w, nbr, u);
    forall v | 0 <= v < |w| ensures 0.0 <= w[v] / total <= 1.0 {
      SumAtLeastElement(w, v);
    }
    NormalizedColumnSumsToOne(w, nbr, u);
  }

  /** Linking a new influencer v with a non-negative weight keeps column u well-formed. */
  lemma LinkKeepsWellFormed(w: seq<real>, nbr: seq<bool>, u: nat, v: nat, x: real)
    requires |nbr| == |w| && u < |w| && v < |w| && v != u && x >= 0.0
    requires WellFormedColumn(w, nbr, u)
    ensures WellFormedColumn(w[v := x], nbr[v := true], u)
  {
  }

  /** Unlinking influencer v and zeroing its weight keeps column u well-formed. */
  lemma UnlinkKeepsWellFormed(w: seq<real>, nbr: seq<bool>, u: nat, v: nat)
    requires |nbr| == |w| && u < |w| && v < |w| && v != u
    requires WellFormedColumn(w, nbr, u)
    ensures WellFormedColumn(w[v := 0.0], nbr[v := false], u)
  {
  }

  /** The raw weight initialize_edge_weights leaves in W[v][u].
      `wvu` is the weight chosen when target u is visited and v is found
      among its influencers; `wuv` the one chosen for W[u][v] when v is
      visited.  Undirected, the edge is weighted at the first visit of one of
      its ends and mirrored; the second visit redoes the weighting only when
      that first weight is not positive. */
  function InitialWeight(directed: bool, edge: bool, v: nat, u: nat, wvu: real, wuv: real): (r: real)
    ensures v == u ==> r == 1.0
    ensures v != u && !edge ==> r == 0.0
    ensures v != u && edge ==> r == wvu || r == wuv
    ensures v != u && edge && directed ==> r == wvu
    ensures v != u && edge && wvu > 0.0 ==> r > 0.0
  {
    if v == u then 1.0
    else if !edge then 0.0
    else if directed then wvu
    else if u < v then (if wvu > 0.0 then wvu else wuv)
    else (if wuv > 0.0 then wuv else wvu)
  }

  /** W[v][u] at the moment column u of N is computed, at the end of the
      visit of u: undirected, an edge to a later node v still carries the
      weight of this visit. */
  function WeightAtVisit(directed: bool, edge: bool, v: nat, u: nat, wvu: real, wuv: real): (r: real)
    ensures wvu > 0.0 ==> r == InitialWeight(directed, edge, v, u, wvu, wuv)
    ensures v != u && edge ==> r == wvu || r == wuv
  {
    if !directed && edge && u < v then wvu else InitialWeight(directed, edge, v, u, wvu, wuv)
  }

  /** Undirected, the initial weights are mirrored. */
  lemma InitialWeightMirrored(edge: bool, v: nat, u: nat, wvu: real, wuv: real)
    ensures InitialWeight(false, edge, v, u, wvu, wuv) == InitialWeight(false, edge, u, v, wuv, wvu)
  {
  }
}

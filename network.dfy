/** The network state of SocialNetwork.py and the operations that change it
    in place.  Node a influences node b when the graph has the edge a -> b
    (adj[a, b]); undirected graphs store both directions.  W is the raw and
    N the normalized weight matrix, W[a, b] being a's influence on b;
    masks[a, b, k] is what a sees of b's coordinate k (0 = hidden). */
module Network {
  import opened Util
  import opened Settings
  import opened Weights
  import opened Archetypes
  import Mixing
  import Resistance
  import Rewire

  class SocialNetwork {
    const n: nat
    const K: nat
    const directed: bool
    const symmetric: bool
    const weightMode: WeightMode
    const visibility: Visibility
    const unfriend: real
    const update: real
    const friend: real
    const unfriendThreshold: real
    const resistanceParam: ResistanceParam

    const adj: array2<bool>
    const W: array2<real>
    const N: array2<real>
    const attrs: array2<real>
    const masks: array3<real>
    const resistance: array<real>

    var types: seq<string>
    var indexesByType: map<string, seq<nat>>
    var typeDist: Option<Mixing.Dist>

    /** Undirected graphs, and symmetric directed ones, keep both directions of every edge. */
    predicate Mirror()
    {
      !directed || symmetric
    }

    /** The raw weight a new edge gets: the configured constant, or the draw
        when the weight is 'random'. */
    function WeightOf(d: real): real
    {
      match weightMode
      case FixedWeight(w) => w
      case RandomWeight => d
    }

    /** Array sizes, distinct weight matrices, symmetric implying directed,
        and raw weights that are never negative. */
    ghost predicate Shape()
    {
      && adj.Length0 == n && adj.Length1 == n
      && W.Length0 == n && W.Length1 == n
      && N.Length0 == n && N.Length1 == n
      && attrs.Length0 == n && attrs.Length1 == K
      && masks.Length0 == n && masks.Length1 == n && masks.Length2 == K
      && resistance.Length == n
      && W != N && W != attrs && N != attrs
      && (symmetric ==> directed)
      && (weightMode.FixedWeight? ==> weightMode.w >= 0.0)
    }

    /** No self-loops, and both directions stored under Mirror(). */
    ghost predicate GraphOk()
      reads adj
      requires Shape()
    {
      forall a, b :: 0 <= a < n && 0 <= b < n ==>
        (adj[a, b] ==> a != b) && (Mirror() ==> adj[a, b] == adj[b, a])
    }

    /** Self-weight 1, no negative weight, and a non-zero weight only on an edge. */
    ghost predicate WellWeighted()
      reads adj, W
      requires Shape()
    {
      forall a, b :: 0 <= a < n && 0 <= b < n ==>
        W[a, b] >= 0.0 && (a == b ==> W[a, b] == 1.0) && (a != b && W[a, b] != 0.0 ==> adj[a, b])
    }

    ghost predicate Valid()
      reads this, adj, W
    {
      Shape() && GraphOk() && WellWeighted()
    }

    /** Column u of W: the raw influence of every node on u. */
    ghost function WCol(u: nat): (c: seq<real>)
      reads W
      requires Shape() && u < n
      ensures |c| == n && forall v :: 0 <= v < n ==> c[v] == W[v, u]
    {
      seq(n, v requires 0 <= v < n reads W => W[v, u])
    }

    ghost function NCol(u: nat): (c: seq<real>)
      reads N
      requires Shape() && u < n
      ensures |c| == n && forall v :: 0 <= v < n ==> c[v] == N[v, u]
    {
      seq(n, v requires 0 <= v < n reads N => N[v, u])
    }

    /** get_neighbors(u) as flags: predecessors of u, or its adjacent nodes
        when undirected (the same flags, as both directions are stored). */
    function NbrCol(u: nat): (c: seq<bool>)
      reads adj
      requires Shape() && u < n
      ensures |c| == n && forall v :: 0 <= v < n ==> c[v] == adj[v, u]
    {
      seq(n, v requires 0 <= v < n reads adj => adj[v, u])
    }

    /** get_neighbors(u). */
    function Neighbors(u: nat): (r: set<nat>)
      reads adj
      requires Shape() && u < n
      ensures forall v: nat :: v in r <==> v < n && adj[v, u]
    {
      set v: nat | v < n && adj[v, u]
    }

    /** In undirected and symmetric mode, influence is mutual. */
    lemma NeighborsMutual(u: nat, v: nat)
      requires Valid() && u < n && v < n && Mirror()
      ensures v in Neighbors(u) <==> u in Neighbors(v)
    {
    }

    /** Column u of N is what update_weight_column computes from column u of W. */
    ghost predicate ColumnNormalized(u: nat)
      reads adj, W, N
      requires Shape() && u < n
    {
      Sum(WCol(u)) != 0.0 && NCol(u) == NormalizeColumn(WCol(u), NbrCol(u), u)
    }

    ghost predicate Normalized()
      reads adj, W, N
      requires Shape()
    {
      forall u :: 0 <= u < n ==> ColumnNormalized(u)
    }

    /** Every column of W is well-formed. */
    lemma ColumnWellFormed(u: nat)
      requires Valid() && u < n
      ensures WellFormedColumn(WCol(u), NbrCol(u), u) && Sum(WCol(u)) >= 1.0
    {
      ColumnTotalAtLeastOne(WCol(u), NbrCol(u), u);
    }

    /** The normalization invariant: every column of N is a convex combination. */
    lemma NormalizedIsConvex(u: nat)
      requires Valid() && Normalized() && u < n
      ensures AllIn(NCol(u), 0.0, 1.0) && Sum(NCol(u)) == 1.0
      ensures Sum(WCol(u)) >= 1.0 && forall v :: 0 <= v < n ==> N[v, u] == W[v, u] / Sum(WCol(u))
    {
      assert ColumnNormalized(u);
      ColumnWellFormed(u);
      NormalizedColumnIsConvex(WCol(u), NbrCol(u), u);
      NormalizeColumnIsProportional(WCol(u), NbrCol(u), u);
    }

    /** self._properties['weights'].sum(axis=0)[u]. */
    method ColumnTotal(u: nat) returns (total: real)
      requires Shape() && u < n
      ensures total == Sum(WCol(u))
    {
      total := 0.0;
      ghost var c := WCol(u);
      for v := 0 to n
        invariant total == Sum(c[..v])
      {
        assert c[..v + 1] == c[..v] + [c[v]];
        SumAppend(c[..v], c[v]);
        total := total + W[v, u];
      }
      assert c[..n] == c;
    }

    /** update_weight_column(u): rewrites column u of N from column u of W
        and leaves every other column alone. */
    method UpdateWeightColumn(u: nat)
      requires Shape() && u < n && Sum(WCol(u)) != 0.0
      modifies N
      ensures ColumnNormalized(u)
      ensures forall a, b :: 0 <= a < n && 0 <= b < n && b != u ==> N[a, b] == old(N[a, b])
    {
      ZeroColumn(u);
      var total := ColumnTotal(u);
      FillColumn(u, total);
      N[u, u] := 1.0 / total;
      assert forall a :: 0 <= a < n ==> NCol(u)[a] == NormalizeColumn(WCol(u), NbrCol(u), u)[a];
    }

    /** The first loop of update_weight_column: column u of N is zeroed. */
    method ZeroColumn(u: nat)
      requires Shape() && u < n
      modifies N
      ensures forall a, b :: 0 <= a < n && 0 <= b < n ==> N[a, b] == if b == u then 0.0 else old(N[a, b])
    {
      for v := 0 to n
        invariant forall a, b :: 0 <= a < n && 0 <= b < n ==> N[a, b] == if b == u && a < v then 0.0 else old(N[a, b])
      {
        N[v, u] := 0.0;
      }
    }

    /** The second loop of update_weight_column: every influencer v of u gets
        W[v][u] / total in column u of N. */
    method FillColumn(u: nat, total: real)
      requires Shape() && u < n && total != 0.0
      requires forall a :: 0 <= a < n ==> N[a, u] == 0.0
      modifies N
      ensures forall a :: 0 <= a < n ==> N[a, u] == if adj[a, u] then W[a, u] / total else 0.0
      ensures forall a, b :: 0 <= a < n && 0 <= b < n && b != u ==> N[a, b] == old(N[a, b])
    {
      for v := 0 to n
        invariant forall a :: 0 <= a < n ==> N[a, u] == if a < v && adj[a, u] then W[a, u] / total else 0.0
        invariant forall a, b :: 0 <= a < n && 0 <= b < n && b != u ==> N[a, b] == old(N[a, b])
      {
        if adj[v, u] {
          N[v, u] := W[v, u] / total;
        }
      }
    }

    /** masks[viewer][target] := attribute row of target. */
    method ShowView(viewer: nat, target: nat)
      requires Shape() && viewer < n && target < n
      modifies masks
      ensures forall a, b, k :: 0 <= a < n && 0 <= b < n && 0 <= k < K ==>
        masks[a, b, k] == if a == viewer && b == target then attrs[target, k] else old(masks[a, b, k])
    {
      for k := 0 to K
        invariant forall a, b, j :: 0 <= a < n && 0 <= b < n && 0 <= j < K ==>
          masks[a, b, j] == if a == viewer && b == target && j < k then attrs[target, j] else old(masks[a, b, j])
      {
        masks[viewer, target, k] := attrs[target, k];
      }
    }

    /** masks[viewer][target] := 0. */
    method ClearView(viewer: nat, target: nat)
      requires Shape() && viewer < n && target < n
      modifies masks
      ensures forall a, b, k :: 0 <= a < n && 0 <= b < n && 0 <= k < K ==>
        masks[a, b, k] == if a == viewer && b == target then 0.0 else old(masks[a, b, k])
    {
      for k := 0 to K
        invariant forall a, b, j :: 0 <= a < n && 0 <= b < n && 0 <= j < K ==>
          masks[a, b, j] == if a == viewer && b == target && j < k then 0.0 else old(masks[a, b, j])
      {
        masks[viewer, target, k] := 0.0;
      }
    }

    /** Edge u -> v added to the store (both directions under Mirror()). */
    method AddEdge(u: nat, v: nat)
      requires Shape() && u < n && v < n
      modifies adj
      ensures forall a, b :: 0 <= a < n && 0 <= b < n ==>
        adj[a, b] == (old(adj[a, b]) || (a == u && b == v) || (!directed && a == v && b == u))
    {
      adj[u, v] := true;
      if !directed {
        adj[v, u] := true;
      }
    }

    /** Edge u -> v taken from the store (both directions when undirected);
        `existed` says whether it was there, as networkx raises otherwise. */
    method RemoveEdge(u: nat, v: nat) returns (existed: bool)
      requires Shape() && u < n && v < n
      modifies adj
      ensures existed == old(adj[u, v])
      ensures forall a, b :: 0 <= a < n && 0 <= b < n ==>
        adj[a, b] == (old(adj[a, b]) && !((a == u && b == v) || (!directed && a == v && b == u)))
    {
      existed := adj[u, v];
      adj[u, v] := false;
      if !directed {
        adj[v, u] := false;
      }
    }

    /** One direction of connect: the edge u -> v, its weight, and u shown to v. */
    method Link(u: nat, v: nat, d: real)
      requires Shape() && u < n && v < n
      modifies adj, W, masks
      ensures forall a, b :: 0 <= a < n && 0 <= b < n ==>
        adj[a, b] == (old(adj[a, b]) || (a == u && b == v) || (!directed && a == v && b == u))
      ensures forall a, b :: 0 <= a < n && 0 <= b < n ==>
        W[a, b] == if a == u && b == v then WeightOf(d) else old(W[a, b])
      ensures forall a, b, k :: 0 <= a < n && 0 <= b < n && 0 <= k < K ==>
        masks[a, b, k] == if visibility == Visible && a == v && b == u then attrs[u, k] else old(masks[a, b, k])
    {
      AddEdge(u, v);
      W[u, v] := WeightOf(d);
      if visibility == Visible {
        ShowView(v, u);
      }
    }

    /** The store changes of connect(u, v), with u != v. */
    method LinkPair(u: nat, v: nat, d1: real, d2: real)
      requires Shape() && u < n && v < n && u != v
      modifies adj, W, masks
      ensures forall a, b :: 0 <= a < n && 0 <= b < n ==>
        adj[a, b] == (old(adj[a, b]) || (a == u && b == v) || (Mirror() && a == v && b == u))
      ensures forall a, b :: 0 <= a < n && 0 <= b < n ==>
        W[a, b] == if a == u && b == v then WeightOf(d1)
                   else if symmetric && a == v && b == u then WeightOf(d2)
                   else old(W[a, b])
      ensures forall a, b, k :: 0 <= a < n && 0 <= b < n && 0 <= k < K ==>
        masks[a, b, k] == if visibility == Visible && a == v && b == u then attrs[u, k]
                          else if visibility == Visible && symmetric && a == u && b == v then attrs[v, k]
                          else old(masks[a, b, k])
    {
      Link(u, v, d1);
      if symmetric {
        Link(v, u, d2);
      }
    }

    /** connect(u, v) with the weight draws d1 (for W[u][v]) and d2 (for
        W[v][u], symmetric mode only).  Adds u -> v, weights it, shows u to
        v under 'visible', does the same the other way when symmetric, and
        renormalizes columns u and v. */
    method Connect(u: nat, v: nat, d1: real, d2: real)
      requires Valid() && u < n && v < n
      requires visibility == RandomVisibility ==> u == v
      requires 0.0 <= d1 < 1.0 && 0.0 <= d2 < 1.0
      modifies adj, W, N, masks
      ensures Valid()
      ensures u == v ==> unchanged(adj, W, N, masks)
      ensures forall a, b :: 0 <= a < n && 0 <= b < n ==>
        adj[a, b] == (old(adj[a, b]) || (u != v && ((a == u && b == v) || (Mirror() && a == v && b == u))))
      ensures forall a, b :: 0 <= a < n && 0 <= b < n ==>
        W[a, b] == if u != v && a == u && b == v then WeightOf(d1)
                   else if u != v && symmetric && a == v && b == u then WeightOf(d2)
                   else old(W[a, b])
      ensures forall a, b, k :: 0 <= a < n && 0 <= b < n && 0 <= k < K ==>
        masks[a, b, k] == if u != v && visibility == Visible && a == v && b == u then attrs[u, k]
                          else if u != v && visibility == Visible && symmetric && a == u && b == v then attrs[v, k]
                          else old(masks[a, b, k])
      ensures u != v ==> ColumnNormalized(u) && ColumnNormalized(v)
      ensures forall a, b :: 0 <= a < n && 0 <= b < n && b != u && b != v ==> N[a, b] == old(N[a, b])
      ensures old(Normalized()) ==> Normalized()
      ensures old(ViewsValid()) && Spins() ==> ViewsValid()
    {
      if u == v {
        return;
      }
      LinkPair(u, v, d1, d2);
      assert GraphOk() by {
        forall a, b | 0 <= a < n && 0 <= b < n
          ensures (adj[a, b] ==> a != b) && (Mirror() ==> adj[a, b] == adj[b, a])
        {
          assert old(adj[a, b]) ==> a != b;
          assert Mirror() ==> old(adj[a, b]) == old(adj[b, a]);
        }
      }
      assert WellWeighted() by {
        forall a, b | 0 <= a < n && 0 <= b < n
          ensures W[a, b] >= 0.0 && (a == b ==> W[a, b] == 1.0) && (a != b && W[a, b] != 0.0 ==> adj[a, b])
        {
          assert old(W[a, b]) >= 0.0 && (a == b ==> old(W[a, b]) == 1.0);
          assert a != b && old(W[a, b]) != 0.0 ==> old(adj[a, b]);
        }
      }
      KeepOtherColumns(u, v);
      if old(Normalized()) {
        forall c | 0 <= c < n ensures ColumnNormalized(c) {
          if c != u && c != v {
            assert old(ColumnNormalized(c));
            assert WCol(c) == old(WCol(c));
            assert NbrCol(c) == old(NbrCol(c));
          }
        }
      }
      if old(ViewsValid()) && Spins() {
        forall a, b, k | 0 <= a < n && 0 <= b < n && 0 <= k < K
          ensures -1.0 <= masks[a, b, k] <= 1.0 && (a != b && masks[a, b, k] != 0.0 ==> adj[b, a])
        {
          assert -1.0 <= old(masks[a, b, k]) <= 1.0 && (a != b && old(masks[a, b, k]) != 0.0 ==> old(adj[b, a]));
          assert attrs[u, k] == 1.0 || attrs[u, k] == -1.0;
          assert attrs[v, k] == 1.0 || attrs[v, k] == -1.0;
        }
      }
    }

    /** update_weight_column(u) then update_weight_column(v), seen from a
        caller that changed only columns u and v of W and of the adjacency. */
    method KeepOtherColumns(u: nat, v: nat)
      requires Valid() && u < n && v < n
      modifies N
      ensures ColumnNormalized(u) && ColumnNormalized(v)
      ensures forall a, b :: 0 <= a < n && 0 <= b < n && b != u && b != v ==> N[a, b] == old(N[a, b])
      ensures forall c :: 0 <= c < n && c != u && c != v ==> NCol(c) == old(NCol(c))
    {
      ColumnWellFormed(u);
      UpdateWeightColumn(u);
      ColumnWellFormed(v);
      UpdateWeightColumn(v);
      forall c | 0 <= c < n && c != u && c != v ensures NCol(c) == old(NCol(c)) {
      }
    }

    /** One side of disconnect: the edge u -> v goes (both directions when
        undirected), and v -> u too when symmetric; the views between u and
        v are cleared if u -> v was there; both weights become 0. */
    method Unlink(u: nat, v: nat)
      requires Shape() && u < n && v < n
      modifies adj, W, masks
      ensures forall a, b :: 0 <= a < n && 0 <= b < n ==>
        adj[a, b] == (old(adj[a, b]) && !((a == u && b == v) || (Mirror() && a == v && b == u)))
      ensures forall a, b :: 0 <= a < n && 0 <= b < n ==>
        W[a, b] == if (a == u && b == v) || (a == v && b == u) then 0.0 else old(W[a, b])
      ensures forall a, b, k :: 0 <= a < n && 0 <= b < n && 0 <= k < K ==>
        masks[a, b, k] == if old(adj[u, v]) && ((a == v && b == u) || (a == u && b == v)) then 0.0
                          else old(masks[a, b, k])
    {
      var existed := RemoveEdge(u, v);
      if existed {
        ClearView(v, u);
        ClearView(u, v);
      }
      if symmetric {
        var _ := RemoveEdge(v, u);
      }
      W[u, v] := 0.0;
      W[v, u] := 0.0;
    }

    /** disconnect(u, v) with its gate draw q: nothing happens when q is
        below 'unfriend'.  Otherwise the edge u -> v goes (and v -> u when
        symmetric), the views between u and v are cleared if u -> v was
        there, both weights become 0, and columns u and v are renormalized. */
    method Disconnect(u: nat, v: nat, q: real)
      requires Valid() && u < n && v < n && u != v
      modifies adj, W, N, masks
      ensures Valid()
      ensures q < unfriend ==> unchanged(adj, W, N, masks)
      ensures forall a, b :: 0 <= a < n && 0 <= b < n ==>
        adj[a, b] == (old(adj[a, b]) && !(q >= unfriend && ((a == u && b == v) || (Mirror() && a == v && b == u))))
      ensures forall a, b :: 0 <= a < n && 0 <= b < n ==>
        W[a, b] == if q >= unfriend && ((a == u && b == v) || (a == v && b == u)) then 0.0 else old(W[a, b])
      ensures forall a, b, k :: 0 <= a < n && 0 <= b < n && 0 <= k < K ==>
        masks[a, b, k] == if q >= unfriend && old(adj[u, v]) && ((a == v && b == u) || (a == u && b == v)) then 0.0
                          else old(masks[a, b, k])
      ensures q >= unfriend ==> ColumnNormalized(u) && ColumnNormalized(v)
      ensures forall a, b :: 0 <= a < n && 0 <= b < n && b != u && b != v ==> N[a, b] == old(N[a, b])
      ensures old(Normalized()) ==> Normalized()
      ensures old(ViewsValid()) ==> ViewsValid()
    {
      if q < unfriend {
        return;
      }
      Unlink(u, v);
      assert GraphOk() by {
        forall a, b | 0 <= a < n && 0 <= b < n
          ensures (adj[a, b] ==> a != b) && (Mirror() ==> adj[a, b] == adj[b, a])
        {
          assert old(adj[a, b]) ==> a != b;
          assert Mirror() ==> old(adj[a, b]) == old(adj[b, a]);
        }
      }
      assert WellWeighted() by {
        forall a, b | 0 <= a < n && 0 <= b < n
          ensures W[a, b] >= 0.0 && (a == b ==> W[a, b] == 1.0) && (a != b && W[a, b] != 0.0 ==> adj[a, b])
        {
          assert old(W[a, b]) >= 0.0 && (a == b ==> old(W[a, b]) == 1.0);
          assert a != b && old(W[a, b]) != 0.0 ==> old(adj[a, b]);
        }
      }
      KeepOtherColumns(u, v);
      if old(Normalized()) {
        forall c | 0 <= c < n ensures ColumnNormalized(c) {
          if c != u && c != v {
            assert old(ColumnNormalized(c));
            assert WCol(c) == old(WCol(c));
            assert NbrCol(c) == old(NbrCol(c));
          }
        }
      }
      if old(ViewsValid()) {
        forall a, b, k | 0 <= a < n && 0 <= b < n && 0 <= k < K
          ensures -1.0 <= masks[a, b, k] <= 1.0 && (a != b && masks[a, b, k] != 0.0 ==> adj[b, a])
        {
          assert -1.0 <= old(masks[a, b, k]) <= 1.0 && (a != b && old(masks[a, b, k]) != 0.0 ==> old(adj[b, a]));
          assert Mirror() ==> old(adj[u, v]) == old(adj[v, u]);
        }
      }
    }

    /** reveal(u, v, k): writes the constant 1.0, not u's actual value. */
    method Reveal(u: nat, v: nat, k: nat)
      requires Shape() && u < n && v < n && k < K
      modifies masks
      ensures forall a, b, j :: 0 <= a < n && 0 <= b < n && 0 <= j < K ==>
        masks[a, b, j] == if a == v && b == u && j == k then 1.0 else old(masks[a, b, j])
    {
      masks[v, u, k] := 1.0;
    }

    /** hide(u, v, k): hides u's coordinate k from v; hiding what is hidden changes nothing. */
    method Hide(u: nat, v: nat, k: nat)
      requires Shape() && u < n && v < n && k < K
      modifies masks
      ensures forall a, b, j :: 0 <= a < n && 0 <= b < n && 0 <= j < K ==>
        masks[a, b, j] == if a == v && b == u && j == k then 0.0 else old(masks[a, b, j])
      ensures old(masks[v, u, k]) == 0.0 ==>
        forall a, b, j :: 0 <= a < n && 0 <= b < n && 0 <= j < K ==> masks[a, b, j] == old(masks[a, b, j])
    {
      masks[v, u, k] := 0.0;
    }

    /** The graph generate_edges leaves: a fresh store of n nodes and the
        edges of the generated list inserted in order, each also reversed
        when symmetric (and stored both ways when undirected). */
    method GenerateEdges(edges: seq<(nat, nat)>)
      requires Shape()
      requires forall e :: e in edges ==> e.0 < n && e.1 < n && e.0 != e.1
      modifies adj
      ensures GraphOk()
      ensures forall a, b :: 0 <= a < n && 0 <= b < n ==>
        (adj[a, b] <==> (a, b) in edges || (Mirror() && (b, a) in edges))
    {
      for a := 0 to n
        invariant forall x, y :: 0 <= x < n && 0 <= y < n ==> (adj[x, y] ==> x >= a)
      {
        for b := 0 to n
          invariant forall x, y :: 0 <= x < n && 0 <= y < n ==> (adj[x, y] ==> x > a || (x == a && y >= b))
        {
          adj[a, b] := false;
        }
      }
      for i := 0 to |edges|
        invariant forall a, b :: 0 <= a < n && 0 <= b < n ==>
          (adj[a, b] <==> (a, b) in edges[..i] || (Mirror() && (b, a) in edges[..i]))
      {
        assert edges[..i + 1] == edges[..i] + [edges[i]];
        AddEdge(edges[i].0, edges[i].1);
        if symmetric {
          AddEdge(edges[i].1, edges[i].0);
        }
      }
      assert edges[..|edges|] == edges;
    }

    /** np.zeros((n, n)). */
    method ZeroMatrix(m: array2<real>)
      requires m.Length0 == n && m.Length1 == n
      modifies m
      ensures forall a, b :: 0 <= a < n && 0 <= b < n ==> m[a, b] == 0.0
    {
      for a := 0 to n
        invariant forall x, y :: 0 <= x < a && 0 <= y < n ==> m[x, y] == 0.0
      {
        for b := 0 to n
          invariant forall x, y :: 0 <= x < n && 0 <= y < n && (x < a || (x == a && y < b)) ==> m[x, y] == 0.0
        {
          m[a, b] := 0.0;
        }
      }
    }

    /** The raw weight of the edge a -> b drawn at b's visit. */
    function Draw(draw: (int, int) -> real, a: nat, b: nat): real
    {
      WeightOf(draw(a, b))
    }

    /** The visit of node y has handled its influencer x. */
    predicate Handled(x: nat, y: nat, u: nat, v: nat)
    {
      y < u || (y == u && x < v)
    }

    /** W[a][b] part-way through initialize_edge_weights, at u's visit before
        its influencer v: the pair (a, b) has been given a weight at b's visit
        when a was among b's influencers, and (undirected) at a's visit
        unless the first weight was positive. */
    ghost function PartialWeight(draw: (int, int) -> real, a: nat, b: nat, u: nat, v: nat): real
      reads adj
      requires Shape() && a < n && b < n
    {
      var atB := Handled(a, b, u, v);
      var atA := Handled(b, a, u, v);
      if a == b then (if b < u then 1.0 else 0.0)
      else if !adj[a, b] then 0.0
      else if directed then (if atB then Draw(draw, a, b) else 0.0)
      else if atB && atA then InitialWeight(false, true, a, b, Draw(draw, a, b), Draw(draw, b, a))
      else if atB then Draw(draw, a, b)
      else if atA then Draw(draw, b, a)
      else 0.0
    }

    /** Column u of W as u's visit leaves it, when column u of N is computed. */
    ghost function VisitColumn(draw: (int, int) -> real, u: nat): (c: seq<real>)
      reads adj
      requires Shape() && u < n
      ensures |c| == n
    {
      seq(n, a requires 0 <= a < n reads adj =>
        WeightAtVisit(directed, adj[a, u], a, u, Draw(draw, a, u), Draw(draw, u, a)))
    }

    /** Column u of N is normalized from column u of W as u's visit left it. */
    ghost predicate NormalizedAtVisit(draw: (int, int) -> real, u: nat)
      reads adj, N
      requires Shape() && u < n
    {
      Sum(VisitColumn(draw, u)) != 0.0 && NCol(u) == NormalizeColumn(VisitColumn(draw, u), NbrCol(u), u)
    }

    /** The visit of u in initialize_edge_weights: each influencer v whose
        W[v][u] is not yet positive gets its weight (mirrored into W[u][v]
        when undirected), then W[u][u] becomes 1. */
    method VisitNode(draw: (int, int) -> real, u: nat)
      requires Shape() && GraphOk() && u < n
      requires forall a, b :: 0 <= a < n && 0 <= b < n ==> W[a, b] == PartialWeight(draw, a, b, u, 0)
      modifies W
      ensures forall a, b :: 0 <= a < n && 0 <= b < n ==> W[a, b] == PartialWeight(draw, a, b, u + 1, 0)
    {
      for v := 0 to n
        invariant forall a, b :: 0 <= a < n && 0 <= b < n ==> W[a, b] == PartialWeight(draw, a, b, u, v)
      {
        if adj[v, u] && !(W[v, u] > 0.0) {
          W[v, u] := Draw(draw, v, u);
          if !directed {
            W[u, v] := W[v, u];
          }
        }
      }
      W[u, u] := 1.0;
    }

    /** At the end of u's visit, column u of W is VisitColumn, a well-formed column. */
    lemma VisitColumnWellFormed(draw: (int, int) -> real, u: nat)
      requires Shape() && GraphOk() && u < n
      requires forall a, b :: 0.0 <= draw(a, b) < 1.0
      requires forall a, b :: 0 <= a < n && 0 <= b < n ==> W[a, b] == PartialWeight(draw, a, b, u + 1, 0)
      ensures WCol(u) == VisitColumn(draw, u)
      ensures WellFormedColumn(WCol(u), NbrCol(u), u) && Sum(WCol(u)) >= 1.0
    {
      forall a | 0 <= a < n ensures WCol(u)[a] == VisitColumn(draw, u)[a] && WCol(u)[a] >= 0.0 {
        assert W[a, u] == PartialWeight(draw, a, u, u + 1, 0);
      }
      assert WCol(u) == VisitColumn(draw, u);
      ColumnTotalAtLeastOne(WCol(u), NbrCol(u), u);
    }

    /** After every visit, W holds the initial weights, and with positive
        draws on the edges every column is as its visit left it. */
    lemma AllVisited(draw: (int, int) -> real)
      requires Shape() && GraphOk()
      requires forall a, b :: 0.0 <= draw(a, b) < 1.0
      requires forall a, b :: 0 <= a < n && 0 <= b < n ==> W[a, b] == PartialWeight(draw, a, b, n, 0)
      ensures forall a, b :: 0 <= a < n && 0 <= b < n ==>
        W[a, b] == InitialWeight(directed, adj[a, b], a, b, Draw(draw, a, b), Draw(draw, b, a))
      ensures WellWeighted()
      ensures (forall a, b :: 0 <= a < n && 0 <= b < n && adj[a, b] ==> Draw(draw, a, b) > 0.0) ==>
        forall u :: 0 <= u < n ==> WCol(u) == VisitColumn(draw, u)
    {
      if forall a, b :: 0 <= a < n && 0 <= b < n && adj[a, b] ==> Draw(draw, a, b) > 0.0 {
        forall u | 0 <= u < n ensures WCol(u) == VisitColumn(draw, u) {
          forall a | 0 <= a < n ensures WCol(u)[a] == VisitColumn(draw, u)[a] {
          }
        }
      }
    }

    /** initialize_edge_weights, with draw(v, u) the rnd.random() of the
        influencer v at u's visit.  Every raw weight is InitialWeight; every
        column of N is normalized from its column of W as it stood at the
        end of that node's visit, which is the final column when every draw
        on an edge is positive. */
    method InitializeEdgeWeights(draw: (int, int) -> real)
      requires Shape() && GraphOk()
      requires forall a, b :: 0.0 <= draw(a, b) < 1.0
      modifies W, N
      ensures Valid()
      ensures forall a, b :: 0 <= a < n && 0 <= b < n ==>
        W[a, b] == InitialWeight(directed, adj[a, b], a, b, Draw(draw, a, b), Draw(draw, b, a))
      ensures forall u :: 0 <= u < n ==> NormalizedAtVisit(draw, u)
      ensures (forall a, b :: 0 <= a < n && 0 <= b < n && adj[a, b] ==> Draw(draw, a, b) > 0.0) ==> Normalized()
    {
      ZeroMatrix(W);
      ZeroMatrix(N);
      for u := 0 to n
        invariant forall a, b :: 0 <= a < n && 0 <= b < n ==> W[a, b] == PartialWeight(draw, a, b, u, 0)
        invariant forall c :: 0 <= c < u ==> NormalizedAtVisit(draw, c)
      {
        VisitAndNormalize(draw, u);
      }
      AllVisited(draw);
      VisitedNormalized(draw);
    }

    /** One turn of the loop of initialize_edge_weights: u's visit, then
        update_weight_column(u), which leaves the earlier columns alone. */
    method VisitAndNormalize(draw: (int, int) -> real, u: nat)
      requires Shape() && GraphOk() && u < n
      requires forall a, b :: 0.0 <= draw(a, b) < 1.0
      requires forall a, b :: 0 <= a < n && 0 <= b < n ==> W[a, b] == PartialWeight(draw, a, b, u, 0)
      requires forall c :: 0 <= c < u ==> NormalizedAtVisit(draw, c)
      modifies W, N
      ensures forall a, b :: 0 <= a < n && 0 <= b < n ==> W[a, b] == PartialWeight(draw, a, b, u + 1, 0)
      ensures forall c :: 0 <= c < u + 1 ==> NormalizedAtVisit(draw, c)
    {
      VisitNode(draw, u);
      VisitColumnWellFormed(draw, u);
      NormalizeVisited(draw, u);
    }

    /** update_weight_column(u) at the end of u's visit. */
    method NormalizeVisited(draw: (int, int) -> real, u: nat)
      requires Shape() && u < n
      requires WCol(u) == VisitColumn(draw, u) && Sum(WCol(u)) >= 1.0
      requires forall c :: 0 <= c < u ==> NormalizedAtVisit(draw, c)
      modifies N
      ensures forall c :: 0 <= c < u + 1 ==> NormalizedAtVisit(draw, c)
    {
      UpdateWeightColumn(u);
      assert WCol(u) == VisitColumn(draw, u);
      forall c | 0 <= c < u + 1 ensures NormalizedAtVisit(draw, c) {
        if c < u {
          assert old(NormalizedAtVisit(draw, c));
          assert forall v :: 0 <= v < n ==> NCol(c)[v] == old(NCol(c))[v];
          assert NCol(c) == old(NCol(c));
        }
      }
    }

    /** With positive draws on the edges, the columns normalized at their
        visits are the normalized final columns. */
    lemma VisitedNormalized(draw: (int, int) -> real)
      requires Shape()
      requires forall u :: 0 <= u < n ==> NormalizedAtVisit(draw, u)
      requires (forall a, b :: 0 <= a < n && 0 <= b < n && adj[a, b] ==> Draw(draw, a, b) > 0.0) ==>
        forall u :: 0 <= u < n ==> WCol(u) == VisitColumn(draw, u)
      ensures (forall a, b :: 0 <= a < n && 0 <= b < n && adj[a, b] ==> Draw(draw, a, b) > 0.0) ==> Normalized()
    {
      if forall a, b :: 0 <= a < n && 0 <= b < n && adj[a, b] ==> Draw(draw, a, b) > 0.0 {
        forall u | 0 <= u < n ensures ColumnNormalized(u) {
          assert NormalizedAtVisit(draw, u);
        }
      }
    }

    /** Every opinion coordinate is +1 or -1. */
    ghost predicate Spins()
      reads attrs
      requires Shape()
    {
      forall i, k :: 0 <= i < n && 0 <= k < K ==> attrs[i, k] == 1.0 || attrs[i, k] == -1.0
    }

    /** Views lie in [-1, 1], and a node sees of another node only what an
        influencer shows it. */
    ghost predicate ViewsValid()
      reads adj, masks
      requires Shape()
    {
      forall a, b, k :: 0 <= a < n && 0 <= b < n && 0 <= k < K ==>
        -1.0 <= masks[a, b, k] <= 1.0 && (a != b && masks[a, b, k] != 0.0 ==> adj[b, a])
    }

    /** initialize_attribute_space, with choice(i, k) the rnd.choice picking -1. */
    method InitializeAttributeSpace(choice: (int, int) -> bool)
      requires Shape()
      modifies attrs
      ensures Spins()
      ensures forall i, k :: 0 <= i < n && 0 <= k < K ==> attrs[i, k] == if choice(i, k) then -1.0 else 1.0
    {
      for i := 0 to n
        invariant forall x, k :: 0 <= x < i && 0 <= k < K ==> attrs[x, k] == if choice(x, k) then -1.0 else 1.0
      {
        for k := 0 to K
          invariant forall x, j :: 0 <= x < n && 0 <= j < K && (x < i || (x == i && j < k)) ==>
            attrs[x, j] == if choice(x, j) then -1.0 else 1.0
        {
          attrs[i, k] := if choice(i, k) then -1.0 else 1.0;
        }
      }
    }

    /** What initialize_masks gives a's view of b's coordinate k, with
        coin(a, b, k) the rnd.choice that keeps the value under 'random'. */
    ghost function InitialView(coin: (int, int, int) -> bool, a: nat, b: nat, k: nat): real
      reads adj, attrs
      requires Shape() && a < n && b < n && k < K
    {
      if a == b then attrs[b, k]
      else if !adj[a, b] then 0.0
      else match visibility
        case Visible => attrs[b, k]
        case RandomVisibility => if coin(a, b, k) then attrs[b, k] else 0.0
        case Hidden => 0.0
    }

    /** masks[viewer][target][k] := rnd.choice([0, attribute[target][k]]). */
    method RandomView(viewer: nat, target: nat, coin: (int, int, int) -> bool)
      requires Shape() && viewer < n && target < n
      modifies masks
      ensures forall a, b, k :: 0 <= a < n && 0 <= b < n && 0 <= k < K ==>
        masks[a, b, k] == if a == viewer && b == target then (if coin(a, b, k) then attrs[b, k] else 0.0)
                          else old(masks[a, b, k])
    {
      for k := 0 to K
        invariant forall a, b, j :: 0 <= a < n && 0 <= b < n && 0 <= j < K ==>
          masks[a, b, j] == if a == viewer && b == target && j < k then (if coin(a, b, j) then attrs[b, j] else 0.0)
                            else old(masks[a, b, j])
      {
        masks[viewer, target, k] := if coin(viewer, target, k) then attrs[target, k] else 0.0;
      }
    }

    /** initialize_masks: every node sees itself; an influencer j of i sees i
        under 'visible', sees each coordinate by a coin under 'random', and
        sees nothing otherwise.  In directed mode that is the view of the
        edge's tail on its head, the reverse of what connect writes, so the
        views are consistent with the influence relation only when the
        adjacency is mirrored. */
    method InitializeMasks(coin: (int, int, int) -> bool)
      requires Shape() && GraphOk()
      modifies masks
      ensures forall a, b, k :: 0 <= a < n && 0 <= b < n && 0 <= k < K ==> masks[a, b, k] == InitialView(coin, a, b, k)
      ensures Spins() && Mirror() ==> ViewsValid()
    {
      for a := 0 to n
        invariant forall x, y, k :: 0 <= x < a && 0 <= y < n && 0 <= k < K ==> masks[x, y, k] == 0.0
      {
        for b := 0 to n
          invariant forall x, y, k :: 0 <= x < n && 0 <= y < n && 0 <= k < K && (x < a || (x == a && y < b)) ==>
            masks[x, y, k] == 0.0
        {
          ClearView(a, b);
        }
      }
      for i := 0 to n
        invariant forall a, b, k :: 0 <= a < n && 0 <= b < n && 0 <= k < K ==>
          masks[a, b, k] == if b < i then InitialView(coin, a, b, k) else 0.0
      {
        ShowView(i, i);
        for j := 0 to n
          invariant forall a, b, k :: 0 <= a < n && 0 <= b < n && 0 <= k < K ==>
            masks[a, b, k] == if b < i || (b == i && (a == i || a < j)) then InitialView(coin, a, b, k) else 0.0
        {
          if adj[j, i] {
            if visibility == RandomVisibility {
              RandomView(j, i, coin);
            } else if visibility == Visible {
              ShowView(j, i);
            }
          }
        }
      }
    }

    /** attribute_space[u]. */
    function AttrRow(u: nat): (r: seq<real>)
      reads attrs
      requires Shape() && u < n
      ensures |r| == K && forall k :: 0 <= k < K ==> r[k] == attrs[u, k]
    {
      seq(K, k requires 0 <= k < K reads attrs => attrs[u, k])
    }

    /** masks[u][v]: what u sees of v. */
    function MaskRow(u: nat, v: nat): (r: seq<real>)
      reads masks
      requires Shape() && u < n && v < n
      ensures |r| == K && forall k :: 0 <= k < K ==> r[k] == masks[u, v, k]
    {
      seq(K, k requires 0 <= k < K reads masks => masks[u, v, k])
    }

    /** types[u], absent past the end of the list. */
    function Tag(u: nat): Option<string>
      reads this
    {
      if u < |types| then Some(types[u]) else None
    }

    /** get_reward_for_neighbor(u, v): 0 when u sees nothing of v, a value in
        [0, 1] for an archetype, and no value (None: the source returns None
        for an unknown tag and raises for a missing one) otherwise. */
    function RewardForNeighbor(u: nat, v: nat): (r: Option<real>)
      reads this, attrs, masks
      requires Shape() && u < n && v < n
      ensures r.Some? ==> 0.0 <= r.value <= 1.0
      ensures (forall k :: 0 <= k < K ==> masks[u, v, k] == 0.0) ==> r == Some(0.0)
      ensures r.None? <==> (exists k :: 0 <= k < K && masks[u, v, k] != 0.0) && !(u < |types| && IsArchetype(types[u]))
    {
      CountTrueZero(Shown(MaskRow(u, v)));
      assert forall k :: 0 <= k < K ==> Shown(MaskRow(u, v))[k] == (masks[u, v, k] != 0.0);
      Reward(Tag(u), AttrRow(u), MaskRow(u, v))
    }

    /** The influencers of u below k, ascending. */
    function InfluencerList(u: nat, k: nat): (r: seq<nat>)
      reads adj
      requires Shape() && u < n && k <= n
      ensures forall v: nat :: v in r <==> v < k && adj[v, u]
      ensures forall p, q :: 0 <= p < q < |r| ==> r[p] < r[q]
    {
      if k == 0 then []
      else
        var prev := InfluencerList(u, k - 1);
        assert forall p :: 0 <= p < |prev| ==> prev[p] < k - 1 by {
          forall p | 0 <= p < |prev| ensures prev[p] < k - 1 {
            assert prev[p] in prev;
          }
        }
        prev + (if adj[k - 1, u] then [k - 1] else [])
    }

    /** get_reward_for_node(u): the mean of the rewards for u's influencers,
        0 for a node without any. */
    function RewardForNode(u: nat): (r: Option<real>)
      reads this, adj, attrs, masks
      requires Shape() && u < n
      ensures (forall v :: 0 <= v < n ==> !adj[v, u]) ==> r == Some(0.0)
      ensures r.Some? ==> 0.0 <= r.value <= 1.0
      ensures r.None? <==> exists v :: 0 <= v < n && adj[v, u] && RewardForNeighbor(u, v).None?
    {
      var rs := NeighborRewards(u);
      NodeRewardBounded(rs);
      NeighborRewardMissing(u);
      NoInfluencers(u);
      NodeReward(rs)
    }

    /** The rewards of u's influencers, in index order. */
    function NeighborRewards(u: nat): (rs: seq<Option<real>>)
      reads this, adj, attrs, masks
      requires Shape() && u < n
      ensures |rs| == |InfluencerList(u, n)|
      ensures forall i :: 0 <= i < |rs| ==> InfluencerList(u, n)[i] < n && rs[i] == RewardForNeighbor(u, InfluencerList(u, n)[i])
    {
      var nbrs := InfluencerList(u, n);
      assert forall i :: 0 <= i < |nbrs| ==> nbrs[i] < n by {
        forall i | 0 <= i < |nbrs| ensures nbrs[i] < n {
          assert nbrs[i] in nbrs;
        }
      }
      seq(|nbrs|, i requires 0 <= i < |nbrs| reads this, adj, attrs, masks => RewardForNeighbor(u, nbrs[i]))
    }

    /** Some influencer's reward is missing exactly when some entry of
        NeighborRewards(u) is. */
    lemma NeighborRewardMissing(u: nat)
      requires Shape() && u < n
      ensures (exists i :: 0 <= i < |NeighborRewards(u)| && NeighborRewards(u)[i].None?) <==>
        exists v :: 0 <= v < n && adj[v, u] && RewardForNeighbor(u, v).None?
    {
      var nbrs, rs := InfluencerList(u, n), NeighborRewards(u);
      if v :| 0 <= v < n && adj[v, u] && RewardForNeighbor(u, v).None? {
        var i :| 0 <= i < |nbrs| && nbrs[i] == v;
        assert rs[i].None?;
      }
      if i :| 0 <= i < |rs| && rs[i].None? {
        assert nbrs[i] in nbrs;
      }
    }

    /** A node nobody influences has no influencer list. */
    lemma NoInfluencers(u: nat)
      requires Shape() && u < n
      ensures (forall v :: 0 <= v < n ==> !adj[v, u]) ==> |InfluencerList(u, n)| == 0
    {
      var nbrs := InfluencerList(u, n);
      if |nbrs| > 0 {
        assert nbrs[0] in nbrs;
      }
    }

    /** masks[u] as a matrix of rows, one per observed node. */
    function ViewMatrix(u: nat): (m: seq<seq<real>>)
      reads masks
      requires Shape() && u < n
      ensures |m| == n && forall v :: 0 <= v < n ==> m[v] == MaskRow(u, v)
    {
      seq(n, v requires 0 <= v < n reads masks => MaskRow(u, v))
    }

    /** get_local_average(u) (unweighted): the sum of u's view rows over the
        number of u's influencers plus one. */
    function LocalAverage(u: nat): (r: seq<real>)
      reads adj, masks
      requires Shape() && u < n
      ensures |r| == K
    {
      Archetypes.LocalAverage(ViewMatrix(u), K, CountTrue(NbrCol(u)))
    }

    /** With valid views every local average lies in [-1, 1]. */
    lemma LocalAverageInRange(u: nat)
      requires Shape() && GraphOk() && ViewsValid() && u < n
      ensures AllIn(LocalAverage(u), -1.0, 1.0)
    {
      var m := ViewMatrix(u);
      forall v | 0 <= v < n ensures |m[v]| == K && AllIn(m[v], -1.0, 1.0) {
      }
      assert SeenOnlyFrom(m, NbrCol(u), u);
      LocalAverageBounded(m, K, NbrCol(u), u);
    }

    /** A node without influencers, seeing only itself, averages its own view. */
    lemma IsolatedLocalAverage(u: nat)
      requires Shape() && ViewsValid() && u < n
      requires forall v :: 0 <= v < n ==> !adj[v, u]
      ensures LocalAverage(u) == MaskRow(u, u)
    {
      assert CountTrue(NbrCol(u)) == 0 by {
        CountTrueZero(NbrCol(u));
      }
      IsolatedAverageIsOwnView(ViewMatrix(u), K, u);
    }

    /** The attribute rows of the listed nodes, if all are nodes. */
    function Rows(idx: seq<nat>): (r: Option<seq<seq<real>>>)
      reads attrs
      requires Shape()
      ensures r.Some? <==> forall j :: 0 <= j < |idx| ==> idx[j] < n
      ensures r.Some? ==> |r.value| == |idx| && forall j :: 0 <= j < |idx| ==> r.value[j] == AttrRow(idx[j])
    {
      if forall j :: 0 <= j < |idx| ==> idx[j] < n
      then Some(seq(|idx|, j requires 0 <= j < |idx| && idx[j] < n reads attrs => AttrRow(idx[j])))
      else None
    }

    /** get_global_average(t): the mean opinion of all nodes, or of the nodes
        of type t.  No value for an empty set of nodes (numpy gives nan), an
        unknown type (KeyError) or an index past the last node (IndexError). */
    function GlobalAverage(t: Option<string>): (r: Option<seq<real>>)
      reads this, attrs
      requires Shape()
      ensures r.Some? ==> |r.value| == K
      ensures t.None? ==> (r.None? <==> n == 0)
      ensures t.Some? ==> (r.None? <==>
        t.value !in indexesByType || |indexesByType[t.value]| == 0 ||
        exists j :: 0 <= j < |indexesByType[t.value]| && indexesByType[t.value][j] >= n)
    {
      if t.None? then ColumnMeans(seq(n, i requires 0 <= i < n reads attrs => AttrRow(i)), K)
      else if t.value !in indexesByType then None
      else
        var rows := Rows(indexesByType[t.value]);
        if rows.None? then None else ColumnMeans(rows.value, K)
    }

    /** Averages of opinions in {-1, +1} lie in [-1, 1]. */
    lemma GlobalAverageInRange(t: Option<string>)
      requires Shape() && Spins()
      ensures GlobalAverage(t).Some? ==> AllIn(GlobalAverage(t).value, -1.0, 1.0)
    {
      if t.None? {
        ColumnMeansBounded(seq(n, i requires 0 <= i < n reads attrs => AttrRow(i)), K);
      } else if t.value in indexesByType {
        var rows := Rows(indexesByType[t.value]);
        if rows.Some? {
          ColumnMeansBounded(rows.value, K);
        }
      }
    }

    /** The keys of the type distribution. */
    function DistKeys(): set<string>
      reads this
    {
      if typeDist.Some? then Mixing.Keys(typeDist.value) else {}
    }

    /** The state mix_network leaves for a distribution it accepts: every
        slot holds a key of the distribution, and each key lists the
        positions of its slots. */
    ghost predicate Mixed()
      reads this
    {
      && typeDist.Some?
      && (forall x :: x in types ==> x in Mixing.Keys(typeDist.value))
      && indexesByType == map t | t in Mixing.Keys(typeDist.value) :: Mixing.IndexesOf(types, t, |types|)
    }

    /** Every position of the type vector is in exactly one index list, its own type's. */
    lemma IndexesByTypePartition(i: nat, t: string)
      requires Mixed() && i < |types| && t in indexesByType
      ensures i in indexesByType[t] <==> types[i] == t
      ensures types[i] in indexesByType && i in indexesByType[types[i]]
    {
      Mixing.IndexesPartition(types, Mixing.Keys(typeDist.value), i, t);
    }

    /** The allocation loop of mix_network: the truncated count of copies of
        each type, the running minimum (min_num, min_t), and an empty index
        list per key. */
    method Allocate(d: Mixing.Dist) returns (ts: seq<string>, minT: string, idx: map<string, seq<nat>>)
      ensures ts == Mixing.Allocated(d, n, |d|)
      ensures minT == Mixing.MinTag(d, n)
      ensures forall t :: t in idx <==> t in Mixing.Keys(d)
      ensures forall t :: t in idx ==> idx[t] == []
    {
      var minNum: int := Mixing.Sentinel;
      minT := "";
      ts := [];
      idx := map[];
      for k := 0 to |d|
        invariant (minNum, minT) == Mixing.MinScan(d, n, k)
        invariant ts == Mixing.Allocated(d, n, k)
        invariant forall t :: t in idx <==> exists i :: 0 <= i < k && d[i].0 == t
        invariant forall t :: t in idx ==> idx[t] == []
      {
        idx := idx[d[k].0 := []];
        var num := Mixing.Trunc(d[k].1 * n as real);
        if num <= minNum {
          minNum := num;
          minT := d[k].0;
        }
        ts := AppendCopies(ts, d[k].0, num);
      }
    }

    /** for i in range(count): types.append(t). */
    method AppendCopies(s: seq<string>, t: string, count: int) returns (ts: seq<string>)
      ensures ts == s + Mixing.Repeat(t, count)
    {
      ts := s;
      var c := 0;
      while c < count
        invariant 0 <= c && (count >= 0 ==> c <= count) && (count < 0 ==> c == 0)
        invariant ts == s + Mixing.Repeat(t, c)
      {
        assert Mixing.Repeat(t, c + 1) == Mixing.Repeat(t, c) + [t];
        ts := ts + [t];
        c := c + 1;
      }
      assert Mixing.Repeat(t, c) == Mixing.Repeat(t, count);
    }

    /** The shortfall loop of mix_network: copies of min_t up to n slots.
        The source counts them in nums[min_t], which raises unless min_t
        is a key. */
    method PadShortfall(d: Mixing.Dist, alloc: seq<string>, minT: string) returns (ts: seq<string>)
      requires alloc == Mixing.Allocated(d, n, |d|) && minT == Mixing.MinTag(d, n)
      requires Mixing.Shortfall(d, n) > 0 ==> minT in Mixing.Keys(d)
      ensures ts == Mixing.Unshuffled(d, n)
    {
      ts := alloc;
      while |ts| < n
        invariant |alloc| <= |ts| && (|alloc| < n ==> |ts| <= n) && (|alloc| >= n ==> |ts| == |alloc|)
        invariant ts == alloc + Mixing.Repeat(minT, |ts| - |alloc|)
        decreases n - |ts|
      {
        assert minT in Mixing.Keys(d);
        assert Mixing.Repeat(minT, |ts| + 1 - |alloc|) == Mixing.Repeat(minT, |ts| - |alloc|) + [minT];
        ts := ts + [minT];
      }
    }

    /** rnd.shuffle: position j, from the last down to 1, swaps with pick(j). */
    method Shuffle(s: seq<string>, pick: int -> int) returns (ts: seq<string>)
      requires Mixing.ValidPicks(pick, |s|)
      ensures ts == Mixing.ShuffleDown(s, pick, |s|)
      ensures multiset(ts) == multiset(s)
    {
      ts := s;
      var m: nat := |ts|;
      while m > 1
        invariant m <= |ts| && |ts| == |s|
        invariant Mixing.ShuffleDown(ts, pick, m) == Mixing.ShuffleDown(s, pick, |s|)
      {
        var j := pick(m - 1);
        ts := ts[m - 1 := ts[j]][j := ts[m - 1]];
        m := m - 1;
      }
    }

    /** The last loop of mix_network: each position is appended to its type's list. */
    method IndexTypes(ts: seq<string>, empty: map<string, seq<nat>>, ghost keys: set<string>) returns (idx: map<string, seq<nat>>)
      requires forall t :: t in empty <==> t in keys
      requires forall t :: t in empty ==> empty[t] == []
      requires forall x :: x in ts ==> x in keys
      ensures idx == map t | t in keys :: Mixing.IndexesOf(ts, t, |ts|)
    {
      idx := empty;
      for i := 0 to |ts|
        invariant forall t :: t in idx <==> t in empty
        invariant forall t :: t in idx ==> idx[t] == Mixing.IndexesOf(ts, t, i)
      {
        assert ts[i] in ts;
        assert forall t :: Mixing.IndexesOf(ts, t, i + 1) == Mixing.IndexesOf(ts, t, i) + (if ts[i] == t then [i] else []);
        idx := idx[ts[i] := idx[ts[i]] + [i]];
      }
    }

    /** mix_network, with pick(j) the position rnd.shuffle swaps into j.
        A missing distribution becomes {'default': 1.0} and leaves no types;
        proportions that do not sum to 1 leave no types; otherwise the
        types are the truncated allocation plus the shortfall, shuffled,
        and each key lists its positions. */
    method MixNetwork(pick: int -> int)
      requires typeDist.Some? && Mixing.SumsToOne(typeDist.value) ==>
        && (Mixing.Shortfall(typeDist.value, n) > 0 ==> Mixing.MinTag(typeDist.value, n) in Mixing.Keys(typeDist.value))
        && Mixing.ValidPicks(pick, |Mixing.Unshuffled(typeDist.value, n)|)
      modifies this
      ensures typeDist == if old(typeDist).None? then Some([("default", 1.0)]) else old(typeDist)
      ensures old(typeDist).None? || !Mixing.SumsToOne(old(typeDist).value) ==> types == [] && indexesByType == map[]
      ensures old(typeDist).Some? && Mixing.SumsToOne(old(typeDist).value) ==>
        && types == Mixing.ShuffleDown(Mixing.Unshuffled(typeDist.value, n), pick, |Mixing.Unshuffled(typeDist.value, n)|)
        && Mixed()
    {
      types := [];
      indexesByType := map[];
      if typeDist.None? {
        typeDist := Some([("default", 1.0)]);
        return;
      }
      var d := typeDist.value;
      if Abs(Sum(Mixing.Proportions(d)) - 1.0) > 0.000001 {
        return;
      }
      var ts, idx := PlaceTypes(d, pick);
      types := ts;
      indexesByType := idx;
    }

    /** The type vector mix_network builds for a distribution d that sums to
        one, and its index lists. */
    method PlaceTypes(d: Mixing.Dist, pick: int -> int) returns (ts: seq<string>, idx: map<string, seq<nat>>)
      requires Mixing.Shortfall(d, n) > 0 ==> Mixing.MinTag(d, n) in Mixing.Keys(d)
      requires Mixing.ValidPicks(pick, |Mixing.Unshuffled(d, n)|)
      ensures ts == Mixing.ShuffleDown(Mixing.Unshuffled(d, n), pick, |Mixing.Unshuffled(d, n)|)
      ensures forall x :: x in ts ==> x in Mixing.Keys(d)
      ensures idx == map t | t in Mixing.Keys(d) :: Mixing.IndexesOf(ts, t, |ts|)
    {
      var minT, empty;
      ts, minT, empty := Allocate(d);
      ts := PadShortfall(d, ts, minT);
      ghost var unshuffled := ts;
      ts := Shuffle(ts, pick);
      Mixing.UnshuffledKeys(d, n);
      forall x | x in ts ensures x in Mixing.Keys(d) {
        assert x in multiset(ts);
        assert x in unshuffled;
      }
      idx := IndexTypes(ts, empty, Mixing.Keys(d));
    }

    /** initialize_resistance, with draw(i) the rnd.random() for node i:
        each node gets Resistance.Value of the parameter. */
    method InitializeResistance(draw: int -> real)
      requires Shape()
      requires resistanceParam.ParamPerType? ==>
        && Resistance.KeysIndexed(resistanceParam.entries, DistKeys(), indexesByType)
        && Resistance.WritesInRange(resistanceParam.entries, DistKeys(), indexesByType, n)
      modifies resistance
      ensures forall i :: 0 <= i < n ==>
        resistance[i] == Resistance.Value(resistanceParam, DistKeys(), indexesByType, draw, i)
    {
      for i := 0 to n
        invariant forall x :: 0 <= x < i ==> resistance[x] == 0.0
      {
        resistance[i] := 0.0;
      }
      var keys := DistKeys();
      match resistanceParam {
        case ParamPerType(entries) =>
          for e := 0 to |entries|
            invariant Resistance.KeysIndexed(entries[..e], keys, indexesByType)
            invariant forall i :: 0 <= i < n ==> resistance[i] == Resistance.PerType(entries[..e], keys, indexesByType, draw, i)
          {
            assert entries[..e + 1][..e] == entries[..e];
            assert Resistance.KeysIndexed(entries[..e + 1], keys, indexesByType) by {
              forall x | x in entries[..e + 1] ensures x in entries {
              }
            }
            SetTypeResistance(entries, e, keys, draw);
          }
          assert entries[..|entries|] == entries;
        case ParamFloat(x) =>
          for i := 0 to n
            invariant forall y :: 0 <= y < n ==> resistance[y] == if y < i then x else 0.0
          {
            resistance[i] := x;
          }
        case ParamRandom =>
          for i := 0 to n
            invariant forall y :: 0 <= y < n ==> resistance[y] == if y < i then draw(y) else 0.0
          {
            resistance[i] := draw(i);
          }
        case ParamIgnored =>
      }
    }

    /** The pass of initialize_resistance for the e-th key of the per-type
        dictionary, over the nodes of that type; an out-of-range float stops
        the pass before its first node. */
    method SetTypeResistance(entries: seq<(string, ResistanceValue)>, e: nat, keys: set<string>, draw: int -> real)
      requires Shape() && e < |entries|
      requires Resistance.KeysIndexed(entries, keys, indexesByType)
      requires Resistance.WritesInRange(entries, keys, indexesByType, n)
      requires forall i :: 0 <= i < n ==> resistance[i] == Resistance.PerType(entries[..e], keys, indexesByType, draw, i)
      modifies resistance
      ensures forall i :: 0 <= i < n ==> resistance[i] == Resistance.PerType(entries[..e + 1], keys, indexesByType, draw, i)
    {
      var key := entries[e].0;
      var value := entries[e].1;
      assert entries[..e + 1][..e] == entries[..e];
      assert entries[..e + 1][e] == entries[e];
      if key in keys {
        var idxs := indexesByType[key];
        for j := 0 to |idxs|
          invariant forall i :: 0 <= i < n ==>
            resistance[i] == (if i in idxs[..j] && Resistance.Entry(key, value, keys, indexesByType, draw, i).Some?
                              then Resistance.Entry(key, value, keys, indexesByType, draw, i).value
                              else Resistance.PerType(entries[..e], keys, indexesByType, draw, i))
        {
          var node := idxs[j];
          assert idxs[..j + 1] == idxs[..j] + [node];
          assert node in idxs;
          if value.ResRandom? {
            resistance[node] := draw(node);
          }
          if value.ResFloat? {
            if value.x < 0.0 || value.x > 1.0 {
              break;
            }
            resistance[node] := value.x;
          }
        }
      }
    }

    /** (i, k) comes before (j, l) in the order update_attributes visits them. */
    predicate Before(p: (nat, nat), q: (nat, nat))
    {
      p.0 < q.0 || (p.0 == q.0 && p.1 < q.1)
    }

    /** update_attributes chooses coordinate k of node i, with draw(i, k)
        the rnd.random() it compares with 'update'. */
    ghost predicate FlipChosen(draw: (int, int) -> real, i: nat, k: nat)
      reads this, adj, attrs, masks, resistance
      requires Shape() && i < n && k < K && i < |types|
      ensures FlipChosen(draw, i, k) ==> IsArchetype(types[i]) && draw(i, k) < update
      ensures AllIn(LocalAverage(i), -1.0, 1.0) && resistance[i] >= 1.0 ==> !FlipChosen(draw, i, k)
    {
      Chosen(types[i], attrs[i, k], LocalAverage(i)[k], resistance[i], draw(i, k), update)
    }

    /** The first loop of update_attributes: the chosen coordinates, in visiting order. */
    method CollectChanges(draw: (int, int) -> real) returns (changes: seq<(nat, nat)>)
      requires Shape() && (K > 0 ==> |types| >= n)
      ensures forall p: (nat, nat) :: p in changes <==> p.0 < n && p.1 < K && FlipChosen(draw, p.0, p.1)
      ensures forall x, y :: 0 <= x < y < |changes| ==> Before(changes[x], changes[y])
    {
      changes := [];
      for i := 0 to n
        invariant forall p: (nat, nat) :: p in changes <==> p.0 < i && p.1 < K && FlipChosen(draw, p.0, p.1)
        invariant forall x, y :: 0 <= x < y < |changes| ==> Before(changes[x], changes[y])
        invariant forall x :: 0 <= x < |changes| ==> changes[x].0 < i
      {
        var cs := NodeChanges(draw, i);
        changes := changes + cs;
      }
    }

    /** The coordinates of node i the first loop of update_attributes
        chooses, in ascending order. */
    method NodeChanges(draw: (int, int) -> real, i: nat) returns (cs: seq<(nat, nat)>)
      requires Shape() && i < n && (K > 0 ==> |types| >= n)
      ensures forall p: (nat, nat) :: p in cs <==> p.0 == i && p.1 < K && FlipChosen(draw, p.0, p.1)
      ensures forall x, y :: 0 <= x < y < |cs| ==> Before(cs[x], cs[y])
      ensures forall x :: 0 <= x < |cs| ==> cs[x].0 == i
    {
      cs := [];
      var res := resistance[i];
      var avg := LocalAverage(i);
      for k := 0 to K
        invariant forall p: (nat, nat) :: p in cs <==> p.0 == i && p.1 < k && FlipChosen(draw, p.0, p.1)
        invariant forall x, y :: 0 <= x < y < |cs| ==> Before(cs[x], cs[y])
        invariant forall x :: 0 <= x < |cs| ==> cs[x].0 == i && cs[x].1 < k
      {
        var x := attrs[i, k];
        var tag := types[i];
        if Conformist(tag) {
          if x * avg[k] > 0.0 {
          } else if Abs(avg[k]) > res {
            if draw(i, k) < update {
              cs := cs + [(i, k)];
            }
          }
        }
        if Contrarian(tag) {
          if x * avg[k] < 0.0 {
          } else if Abs(avg[k]) > res {
            if draw(i, k) < update {
              cs := cs + [(i, k)];
            }
          }
        }
      }
    }

    /** The second loop of update_attributes: each listed coordinate is negated once. */
    method ApplyChanges(changes: seq<(nat, nat)>)
      requires Shape()
      requires forall p :: p in changes ==> p.0 < n && p.1 < K
      requires forall x, y :: 0 <= x < y < |changes| ==> Before(changes[x], changes[y])
      modifies attrs
      ensures forall i, k :: 0 <= i < n && 0 <= k < K ==>
        attrs[i, k] == if (i, k) in changes then -old(attrs[i, k]) else old(attrs[i, k])
    {
      for c := 0 to |changes|
        invariant forall i, k :: 0 <= i < n && 0 <= k < K ==>
          attrs[i, k] == if (i, k) in changes[..c] then -old(attrs[i, k]) else old(attrs[i, k])
      {
        var p := changes[c];
        assert p in changes;
        assert p !in changes[..c] by {
          forall x | 0 <= x < c ensures changes[x] != p {
            assert Before(changes[x], changes[c]);
          }
        }
        assert changes[..c + 1] == changes[..c] + [p];
        attrs[p.0, p.1] := -attrs[p.0, p.1];
      }
      assert changes[..|changes|] == changes;
    }

    /** update_attributes: every flip is decided from the state before the
        update, then each chosen coordinate is negated; the views are left
        as they were. */
    method UpdateAttributes(draw: (int, int) -> real)
      requires Shape() && (K > 0 ==> |types| >= n)
      modifies attrs
      ensures forall i, k :: 0 <= i < n && 0 <= k < K ==>
        attrs[i, k] == if old(FlipChosen(draw, i, k)) then -old(attrs[i, k]) else old(attrs[i, k])
      ensures old(Spins()) ==> Spins()
    {
      var changes := CollectChanges(draw);
      ApplyChanges(changes);
    }

    /** The adjacency as a matrix. */
    ghost function AdjMatrix(): (e: seq<seq<bool>>)
      reads adj
      requires Shape()
      ensures Rewire.Square(e) && |e| == n
      ensures forall a, b :: 0 <= a < n && 0 <= b < n ==> e[a][b] == adj[a, b]
    {
      seq(n, a requires 0 <= a < n reads adj => seq(n, b requires 0 <= b < n reads adj => adj[a, b]))
    }

    ghost function WMatrix(): (m: seq<seq<real>>)
      reads W
      requires Shape()
      ensures |m| == n && forall a :: 0 <= a < n ==> |m[a]| == n && forall b :: 0 <= b < n ==> m[a][b] == W[a, b]
    {
      seq(n, a requires 0 <= a < n reads W => seq(n, b requires 0 <= b < n reads W => W[a, b]))
    }

    ghost function MaskTensor(): (m: seq<seq<seq<real>>>)
      reads masks
      requires Shape()
      ensures |m| == n && forall a :: 0 <= a < n ==> |m[a]| == n && forall b :: 0 <= b < n ==> m[a][b] == MaskRow(a, b)
    {
      seq(n, a requires 0 <= a < n reads masks => seq(n, b requires 0 <= b < n reads masks => MaskRow(a, b)))
    }

    /** act would cut x's edge from y if x's turn found y: the reward is
        below the threshold, the first draw below 'unfriend', and the draw
        inside disconnect not below it. */
    ghost predicate WantsCut(g1: (int, int) -> real, g2: (int, int) -> real, x: nat, y: nat)
      reads this, attrs, masks
      requires Shape() && x < n && y < n
      ensures WantsCut(g1, g2, x, y) ==>
        RewardForNeighbor(x, y).Some? && RewardForNeighbor(x, y).value < unfriendThreshold
    {
      CutWanted(g1, g2, x, y, MaskRow(x, y))
    }

    /** The same decision, taken on a given view of y by x. */
    ghost predicate CutWanted(g1: (int, int) -> real, g2: (int, int) -> real, x: nat, y: nat, view: seq<real>)
      reads this, attrs
      requires Shape() && x < n && |view| == K
      ensures CutWanted(g1, g2, x, y, view) ==> unfriendThreshold > 0.0 && g1(x, y) < unfriend <= g2(x, y)
    {
      var r := Reward(Tag(x), AttrRow(x), view);
      r.Some? && r.value < unfriendThreshold && g1(x, y) < unfriend && g2(x, y) >= unfriend
    }

    ghost function Wants(g1: (int, int) -> real, g2: (int, int) -> real): (m: seq<seq<bool>>)
      reads this, attrs, masks
      requires Shape()
      ensures Rewire.Square(m) && |m| == n
      ensures forall x, y :: 0 <= x < n && 0 <= y < n ==> m[x][y] == WantsCut(g1, g2, x, y)
    {
      seq(n, x requires 0 <= x < n reads this, attrs, masks =>
        seq(n, y requires 0 <= y < n reads this, attrs, masks => WantsCut(g1, g2, x, y)))
    }

    /** Every reward act may compare is defined (the source raises otherwise). */
    ghost predicate RewardsDefined()
      reads this, adj, attrs, masks
      requires Shape()
    {
      forall x, y :: 0 <= x < n && 0 <= y < n && adj[y, x] ==> RewardForNeighbor(x, y).Some?
    }

    /** Whether a reward is defined depends on the views and the types
        only: a view showing an attribute needs an archetype observer. */
    ghost predicate ViewsRewardable()
      reads this, adj, masks
      requires Shape()
    {
      forall x, y :: 0 <= x < n && 0 <= y < n && adj[y, x] ==>
        (forall k :: 0 <= k < K ==> masks[x, y, k] == 0.0) || (x < |types| && IsArchetype(types[x]))
    }

    lemma RewardsDefinedByViews()
      requires Shape()
      ensures RewardsDefined() <==> ViewsRewardable()
    {
      if ViewsRewardable() {
        forall x, y | 0 <= x < n && 0 <= y < n && adj[y, x] ensures RewardForNeighbor(x, y).Some? {
          assert (forall k :: 0 <= k < K ==> masks[x, y, k] == 0.0) || (x < |types| && IsArchetype(types[x]));
        }
      }
    }

    /** disconnect(a, b) has gone through before act handles y0 in x0's turn. */
    ghost predicate CutBefore(e0: seq<seq<bool>>, wants: seq<seq<bool>>, a: nat, b: nat, x0: nat, y0: nat)
      requires Rewire.Conform(e0, wants) && a < |e0| && b < |e0|
    {
      Rewire.Fired(e0, wants, a, b) && (a < x0 || (a == x0 && b < y0))
    }

    /** The state of act before it handles y0 in x0's turn, against the
        adjacency e0, weights W0 and views M0 before the sweep. */
    ghost predicate ActState(e0: seq<seq<bool>>, wants: seq<seq<bool>>, W0: seq<seq<real>>,
                             M0: seq<seq<seq<real>>>, x0: nat, y0: nat)
      reads adj, W, masks
      requires Shape() && Rewire.Conform(e0, wants) && |e0| == n
      requires |W0| == n && forall a :: 0 <= a < n ==> |W0[a]| == n
      requires |M0| == n && forall a :: 0 <= a < n ==> |M0[a]| == n && forall b :: 0 <= b < n ==> |M0[a][b]| == K
    {
      ActAdj(e0, wants, x0, y0) && ActW(e0, wants, W0, x0, y0) && ActMasks(e0, wants, M0, x0, y0)
    }

    /** The edges of a cut pair are gone (both directions under Mirror()). */
    ghost predicate ActAdj(e0: seq<seq<bool>>, wants: seq<seq<bool>>, x0: nat, y0: nat)
      reads adj
      requires Shape() && Rewire.Conform(e0, wants) && |e0| == n
    {
      forall a, b :: 0 <= a < n && 0 <= b < n ==>
        adj[a, b] == (e0[a][b] && !(CutBefore(e0, wants, a, b, x0, y0) || (Mirror() && CutBefore(e0, wants, b, a, x0, y0))))
    }

    /** Both weights of a cut pair are 0. */
    ghost predicate ActW(e0: seq<seq<bool>>, wants: seq<seq<bool>>, W0: seq<seq<real>>, x0: nat, y0: nat)
      reads W
      requires Shape() && Rewire.Conform(e0, wants) && |e0| == n
      requires |W0| == n && forall a :: 0 <= a < n ==> |W0[a]| == n
    {
      forall a, b :: 0 <= a < n && 0 <= b < n ==>
        W[a, b] == if CutBefore(e0, wants, a, b, x0, y0) || CutBefore(e0, wants, b, a, x0, y0) then 0.0 else W0[a][b]
    }

    /** The views between a cut pair are cleared when the cut edge was there. */
    ghost predicate ActMasks(e0: seq<seq<bool>>, wants: seq<seq<bool>>, M0: seq<seq<seq<real>>>, x0: nat, y0: nat)
      reads masks
      requires Shape() && Rewire.Conform(e0, wants) && |e0| == n
      requires |M0| == n && forall a :: 0 <= a < n ==> |M0[a]| == n && forall b :: 0 <= b < n ==> |M0[a][b]| == K
    {
      forall a, b, k :: 0 <= a < n && 0 <= b < n && 0 <= k < K ==>
        masks[a, b, k] == if (CutBefore(e0, wants, a, b, x0, y0) && e0[a][b]) || (CutBefore(e0, wants, b, a, x0, y0) && e0[b][a])
                          then 0.0 else M0[a][b][k]
    }

    /** Moving past (x, y) adds at most the pair (x, y) to the cut pairs. */
    lemma CutBeforeNext(e0: seq<seq<bool>>, wants: seq<seq<bool>>, x: nat, y: nat)
      requires Rewire.Conform(e0, wants) && x < |e0| && y < |e0|
      ensures forall a, b :: 0 <= a < |e0| && 0 <= b < |e0| ==>
        CutBefore(e0, wants, a, b, x, y + 1) == (CutBefore(e0, wants, a, b, x, y) || (a == x && b == y && Rewire.Fired(e0, wants, x, y)))
    {
      forall a, b | 0 <= a < |e0| && 0 <= b < |e0|
        ensures CutBefore(e0, wants, a, b, x, y + 1) == (CutBefore(e0, wants, a, b, x, y) || (a == x && b == y && Rewire.Fired(e0, wants, x, y)))
      {
        if a == x && b == y {
          assert Rewire.Fired(e0, wants, a, b) == Rewire.Fired(e0, wants, x, y);
        }
      }
    }

    /** When disconnect(x, y) does not go through, act's state moves on unchanged. */
    lemma ActKeep(e0: seq<seq<bool>>, wants: seq<seq<bool>>, W0: seq<seq<real>>, M0: seq<seq<seq<real>>>, x: nat, y: nat)
      requires Shape() && Rewire.Conform(e0, wants) && |e0| == n && x < n && y < n
      requires |W0| == n && forall a :: 0 <= a < n ==> |W0[a]| == n
      requires |M0| == n && forall a :: 0 <= a < n ==> |M0[a]| == n && forall b :: 0 <= b < n ==> |M0[a][b]| == K
      requires ActState(e0, wants, W0, M0, x, y) && !Rewire.Fired(e0, wants, x, y)
      ensures ActState(e0, wants, W0, M0, x, y + 1)
    {
      CutBeforeNext(e0, wants, x, y);
    }

    /** disconnect(x, y) on a listed influencer y, going through exactly
        when the pair fires. */
    method ActCut(x: nat, y: nat, q: real,
                  ghost e0: seq<seq<bool>>, ghost wants: seq<seq<bool>>, ghost W0: seq<seq<real>>,
                  ghost M0: seq<seq<seq<real>>>, ghost wasNormalized: bool, ghost wasViews: bool)
      requires Valid() && x < n && y < n
      requires Rewire.Conform(e0, wants) && |e0| == n
      requires |W0| == n && forall a :: 0 <= a < n ==> |W0[a]| == n
      requires |M0| == n && forall a :: 0 <= a < n ==> |M0[a]| == n && forall b :: 0 <= b < n ==> |M0[a][b]| == K
      requires ActState(e0, wants, W0, M0, x, y)
      requires Rewire.InSnapshot(e0, wants, x, y)
      requires Rewire.Fired(e0, wants, x, y) <==> q >= unfriend
      requires wasNormalized ==> Normalized()
      requires wasViews ==> ViewsValid()
      modifies adj, W, N, masks
      ensures Valid() && ActState(e0, wants, W0, M0, x, y + 1)
      ensures wasNormalized ==> Normalized()
      ensures wasViews ==> ViewsValid()
    {
      assert !CutBefore(e0, wants, y, x, x, y) && !CutBefore(e0, wants, x, y, x, y);
      assert adj[y, x] && adj[x, y] == e0[x][y];
      ghost var A, Wm, M := AdjMatrix(), WMatrix(), MaskTensor();
      ghost var wasEdge := adj[x, y];
      assert CutAdj(e0, wants, A, x, y);
      assert CutW(e0, wants, W0, Wm, x, y);
      assert CutMasks(e0, wants, M0, M, x, y);
      Disconnect(x, y, q);
      var fired := q >= unfriend;
      ActAdjNext(e0, wants, A, x, y, fired);
      ActWNext(e0, wants, W0, Wm, x, y, fired);
      ActMasksNext(e0, wants, M0, M, x, y, fired, wasEdge);
    }

    /** ActAdj on a snapshot A of the adjacency. */
    ghost predicate CutAdj(e0: seq<seq<bool>>, wants: seq<seq<bool>>, A: seq<seq<bool>>, x0: nat, y0: nat)
      requires Rewire.Conform(e0, wants) && |e0| == n && Rewire.Square(A) && |A| == n
    {
      forall a, b :: 0 <= a < n && 0 <= b < n ==>
        A[a][b] == (e0[a][b] && !(CutBefore(e0, wants, a, b, x0, y0) || (Mirror() && CutBefore(e0, wants, b, a, x0, y0))))
    }

    /** ActW on a snapshot Wm of the weights. */
    ghost predicate CutW(e0: seq<seq<bool>>, wants: seq<seq<bool>>, W0: seq<seq<real>>, Wm: seq<seq<real>>, x0: nat, y0: nat)
      requires Rewire.Conform(e0, wants) && |e0| == n
      requires |W0| == n && forall a :: 0 <= a < n ==> |W0[a]| == n
      requires |Wm| == n && forall a :: 0 <= a < n ==> |Wm[a]| == n
    {
      forall a, b :: 0 <= a < n && 0 <= b < n ==>
        Wm[a][b] == if CutBefore(e0, wants, a, b, x0, y0) || CutBefore(e0, wants, b, a, x0, y0) then 0.0 else W0[a][b]
    }

    /** ActMasks on a snapshot M of the views. */
    ghost predicate CutMasks(e0: seq<seq<bool>>, wants: seq<seq<bool>>, M0: seq<seq<seq<real>>>, M: seq<seq<seq<real>>>,
                             x0: nat, y0: nat)
      requires Rewire.Conform(e0, wants) && |e0| == n
      requires |M0| == n && forall a :: 0 <= a < n ==> |M0[a]| == n && forall b :: 0 <= b < n ==> |M0[a][b]| == K
      requires |M| == n && forall a :: 0 <= a < n ==> |M[a]| == n && forall b :: 0 <= b < n ==> |M[a][b]| == K
    {
      forall a, b, k :: 0 <= a < n && 0 <= b < n && 0 <= k < K ==>
        M[a][b][k] == if (CutBefore(e0, wants, a, b, x0, y0) && e0[a][b]) || (CutBefore(e0, wants, b, a, x0, y0) && e0[b][a])
                      then 0.0 else M0[a][b][k]
    }

    /** The adjacency part of act's state after disconnect(x, y), from the
        adjacency A before it. */
    lemma ActAdjNext(e0: seq<seq<bool>>, wants: seq<seq<bool>>, A: seq<seq<bool>>, x: nat, y: nat, fired: bool)
      requires Shape() && Rewire.Conform(e0, wants) && |e0| == n && x < n && y < n
      requires Rewire.Square(A) && |A| == n && CutAdj(e0, wants, A, x, y)
      requires fired == Rewire.Fired(e0, wants, x, y) && !CutBefore(e0, wants, y, x, x, y)
      requires forall a, b :: 0 <= a < n && 0 <= b < n ==>
        adj[a, b] == (A[a][b] && !(fired && ((a == x && b == y) || (Mirror() && a == y && b == x))))
      ensures ActAdj(e0, wants, x, y + 1)
    {
      CutBeforeNext(e0, wants, x, y);
    }

    /** The weight part of act's state after disconnect(x, y), from the
        weights Wm before it. */
    lemma ActWNext(e0: seq<seq<bool>>, wants: seq<seq<bool>>, W0: seq<seq<real>>, Wm: seq<seq<real>>,
                   x: nat, y: nat, fired: bool)
      requires Shape() && Rewire.Conform(e0, wants) && |e0| == n && x < n && y < n
      requires |W0| == n && forall a :: 0 <= a < n ==> |W0[a]| == n
      requires |Wm| == n && forall a :: 0 <= a < n ==> |Wm[a]| == n
      requires CutW(e0, wants, W0, Wm, x, y) && fired == Rewire.Fired(e0, wants, x, y)
      requires forall a, b :: 0 <= a < n && 0 <= b < n ==>
        W[a, b] == if fired && ((a == x && b == y) || (a == y && b == x)) then 0.0 else Wm[a][b]
      ensures ActW(e0, wants, W0, x, y + 1)
    {
      CutBeforeNext(e0, wants, x, y);
    }

    /** The view part of act's state after disconnect(x, y), from the views
        M before it; wasEdge is whether x -> y was there. */
    lemma ActMasksNext(e0: seq<seq<bool>>, wants: seq<seq<bool>>, M0: seq<seq<seq<real>>>, M: seq<seq<seq<real>>>,
                       x: nat, y: nat, fired: bool, wasEdge: bool)
      requires Shape() && Rewire.Conform(e0, wants) && |e0| == n && x < n && y < n
      requires |M0| == n && forall a :: 0 <= a < n ==> |M0[a]| == n && forall b :: 0 <= b < n ==> |M0[a][b]| == K
      requires |M| == n && forall a :: 0 <= a < n ==> |M[a]| == n && forall b :: 0 <= b < n ==> |M[a][b]| == K
      requires CutMasks(e0, wants, M0, M, x, y) && fired == Rewire.Fired(e0, wants, x, y)
      requires !CutBefore(e0, wants, y, x, x, y) && !CutBefore(e0, wants, x, y, x, y) && wasEdge == e0[x][y]
      requires forall a, b, k :: 0 <= a < n && 0 <= b < n && 0 <= k < K ==>
        masks[a, b, k] == if fired && wasEdge && ((a == y && b == x) || (a == x && b == y)) then 0.0 else M[a][b][k]
      ensures ActMasks(e0, wants, M0, x, y + 1)
    {
      CutBeforeNext(e0, wants, x, y);
    }

    /** act's handling of the listed influencer y in x's turn. */
    method ActOn(x: nat, y: nat, listed: bool, g1: (int, int) -> real, g2: (int, int) -> real,
                 ghost e0: seq<seq<bool>>, ghost wants: seq<seq<bool>>, ghost W0: seq<seq<real>>,
                 ghost M0: seq<seq<seq<real>>>, ghost wasNormalized: bool, ghost wasViews: bool)
      requires Valid() && x < n && y < n
      requires Rewire.Conform(e0, wants) && |e0| == n
      requires |W0| == n && forall a :: 0 <= a < n ==> |W0[a]| == n
      requires |M0| == n && forall a :: 0 <= a < n ==> |M0[a]| == n && forall b :: 0 <= b < n ==> |M0[a][b]| == K
      requires ActState(e0, wants, W0, M0, x, y)
      requires listed == Rewire.InSnapshot(e0, wants, x, y)
      requires listed ==> RewardForNeighbor(x, y).Some? && (wants[x][y] <==> WantsCut(g1, g2, x, y))
      requires wasNormalized ==> Normalized()
      requires wasViews ==> ViewsValid()
      modifies adj, W, N, masks
      ensures Valid() && ActState(e0, wants, W0, M0, x, y + 1)
      ensures wasNormalized ==> Normalized()
      ensures wasViews ==> ViewsValid()
    {
      assert Rewire.Fired(e0, wants, x, y) <==> listed && wants[x][y];
      if listed {
        var r := RewardForNeighbor(x, y);
        if r.value < unfriendThreshold && g1(x, y) < unfriend {
          ActCut(x, y, g2(x, y), e0, wants, W0, M0, wasNormalized, wasViews);
        } else {
          ActKeep(e0, wants, W0, M0, x, y);
        }
      } else {
        ActKeep(e0, wants, W0, M0, x, y);
      }
    }

    /** One turn of act: x lists its influencers once, then handles each. */
    method ActTurn(x: nat, g1: (int, int) -> real, g2: (int, int) -> real,
                   ghost e0: seq<seq<bool>>, ghost wants: seq<seq<bool>>, ghost W0: seq<seq<real>>,
                   ghost M0: seq<seq<seq<real>>>, ghost wasNormalized: bool, ghost wasViews: bool)
      requires Valid() && x < n
      requires Rewire.Conform(e0, wants) && |e0| == n
      requires |W0| == n && forall a :: 0 <= a < n ==> |W0[a]| == n
      requires |M0| == n && forall a :: 0 <= a < n ==> |M0[a]| == n && forall b :: 0 <= b < n ==> |M0[a][b]| == K
      requires ActState(e0, wants, W0, M0, x, 0)
      requires forall y :: 0 <= y < n ==> wants[x][y] == CutWanted(g1, g2, x, y, M0[x][y])
      requires forall y :: 0 <= y < n && e0[y][x] ==> Reward(Tag(x), AttrRow(x), M0[x][y]).Some?
      requires wasNormalized ==> Normalized()
      requires wasViews ==> ViewsValid()
      modifies adj, W, N, masks
      ensures Valid() && ActState(e0, wants, W0, M0, x + 1, 0)
      ensures wasNormalized ==> Normalized()
      ensures wasViews ==> ViewsValid()
    {
      var listed := NbrCol(x);
      assert forall z :: 0 <= z < n ==> listed[z] == Rewire.InSnapshot(e0, wants, x, z);
      for y := 0 to n
        invariant Valid() && ActState(e0, wants, W0, M0, x, y)
        invariant wasNormalized ==> Normalized()
        invariant wasViews ==> ViewsValid()
      {
        if listed[y] {
          assert MaskRow(x, y) == M0[x][y];
        }
        ActOn(x, y, listed[y], g1, g2, e0, wants, W0, M0, wasNormalized, wasViews);
      }
      assert forall a, b :: 0 <= a < n && 0 <= b < n ==>
        CutBefore(e0, wants, a, b, x, n) == CutBefore(e0, wants, a, b, x + 1, 0);
    }

    /** Before the first turn nothing is cut. */
    lemma ActStart(e0: seq<seq<bool>>, wants: seq<seq<bool>>, W0: seq<seq<real>>, M0: seq<seq<seq<real>>>)
      requires Shape() && Rewire.Conform(e0, wants)
      requires e0 == AdjMatrix() && W0 == WMatrix() && M0 == MaskTensor()
      ensures ActState(e0, wants, W0, M0, 0, 0)
    {
    }

    /** The decisions act takes on the views before the sweep, and those
        views give every listed influencer a defined reward. */
    lemma ActSetup(g1: (int, int) -> real, g2: (int, int) -> real, e0: seq<seq<bool>>, wants: seq<seq<bool>>,
                   M0: seq<seq<seq<real>>>)
      requires Shape() && RewardsDefined()
      requires e0 == AdjMatrix() && wants == Wants(g1, g2) && M0 == MaskTensor()
      ensures forall a, b :: 0 <= a < n && 0 <= b < n ==> wants[a][b] == CutWanted(g1, g2, a, b, M0[a][b])
      ensures forall a, b :: 0 <= a < n && 0 <= b < n && e0[b][a] ==> Reward(Tag(a), AttrRow(a), M0[a][b]).Some?
    {
    }

    /** After the last turn the cut pairs are exactly the fired ones. */
    lemma ActDone(e0: seq<seq<bool>>, wants: seq<seq<bool>>, W0: seq<seq<real>>, M0: seq<seq<seq<real>>>)
      requires Shape() && Rewire.Conform(e0, wants) && |e0| == n
      requires |W0| == n && forall a :: 0 <= a < n ==> |W0[a]| == n
      requires |M0| == n && forall a :: 0 <= a < n ==> |M0[a]| == n && forall b :: 0 <= b < n ==> |M0[a][b]| == K
      requires ActState(e0, wants, W0, M0, n, 0)
      ensures forall a, b :: 0 <= a < n && 0 <= b < n ==> adj[a, b] == Rewire.AfterAct(e0, wants, Mirror(), a, b)
      ensures forall a, b :: 0 <= a < n && 0 <= b < n ==>
        W[a, b] == if Rewire.Fired(e0, wants, a, b) || Rewire.Fired(e0, wants, b, a) then 0.0 else W0[a][b]
      ensures forall a, b, k :: 0 <= a < n && 0 <= b < n && 0 <= k < K ==>
        masks[a, b, k] == if (Rewire.Fired(e0, wants, a, b) && e0[a][b]) || (Rewire.Fired(e0, wants, b, a) && e0[b][a])
                          then 0.0 else M0[a][b][k]
    {
      assert forall a, b :: 0 <= a < n && 0 <= b < n ==> CutBefore(e0, wants, a, b, n, 0) == Rewire.Fired(e0, wants, a, b);
    }

    /** act, with g1(x, y) its own draw and g2(x, y) the one inside
        disconnect for the pair.  Each turn lists the influencers once and
        handles them against the rewards of the state before the sweep,
        which the sweep does not change for any pair still to be handled.
        The result is Rewire's sweep: an edge goes when disconnect goes
        through on it, weights go on both directions of a cut pair, and the
        views between a cut pair go if the cut edge was there. */
    method Act(g1: (int, int) -> real, g2: (int, int) -> real)
      requires Valid() && RewardsDefined()
      modifies adj, W, N, masks
      ensures Valid()
      ensures forall a, b :: 0 <= a < n && 0 <= b < n ==>
        adj[a, b] == Rewire.AfterAct(old(AdjMatrix()), old(Wants(g1, g2)), Mirror(), a, b)
      ensures forall a, b :: 0 <= a < n && 0 <= b < n ==>
        W[a, b] == if Rewire.Fired(old(AdjMatrix()), old(Wants(g1, g2)), a, b) ||
                      Rewire.Fired(old(AdjMatrix()), old(Wants(g1, g2)), b, a) then 0.0 else old(W[a, b])
      ensures forall a, b, k :: 0 <= a < n && 0 <= b < n && 0 <= k < K ==>
        masks[a, b, k] == if (Rewire.Fired(old(AdjMatrix()), old(Wants(g1, g2)), a, b) && old(adj[a, b])) ||
                             (Rewire.Fired(old(AdjMatrix()), old(Wants(g1, g2)), b, a) && old(adj[b, a]))
                          then 0.0 else old(masks[a, b, k])
      ensures old(Normalized()) ==> Normalized()
      ensures old(ViewsValid()) ==> ViewsValid()
    {
      ghost var e0 := AdjMatrix();
      ghost var wants := Wants(g1, g2);
      ghost var W0 := WMatrix();
      ghost var M0 := MaskTensor();
      ghost var wasNormalized := Normalized();
      ghost var wasViews := ViewsValid();
      ActSetup(g1, g2, e0, wants, M0);
      ActStart(e0, wants, W0, M0);
      for x := 0 to n
        invariant Valid() && ActState(e0, wants, W0, M0, x, 0)
        invariant wasNormalized ==> Normalized()
        invariant wasViews ==> ViewsValid()
        invariant forall a, b :: 0 <= a < n && 0 <= b < n ==> wants[a][b] == CutWanted(g1, g2, a, b, M0[a][b])
        invariant forall a, b :: 0 <= a < n && 0 <= b < n && e0[b][a] ==> Reward(Tag(a), AttrRow(a), M0[a][b]).Some?
      {
        ActTurn(x, g1, g2, e0, wants, W0, M0, wasNormalized, wasViews);
      }
      ActDone(e0, wants, W0, M0);
    }

    /** Draws of rnd.random() indexed by turn and position, all in [0, 1). */
    ghost predicate UnitPicks(pick: (int, int) -> real)
    {
      forall i, j :: 0.0 <= pick(i, j) < 1.0
    }

    /** The candidate set of i's turn in network_effects: five draws scaled
        to node indexes, duplicates merged. */
    function Candidates(pick: (int, int) -> real, i: nat): (s: set<nat>)
      requires n > 0 && UnitPicks(pick)
      ensures forall c :: c in s ==> c < n
      ensures forall c :: c in s <==> exists j :: 0 <= j < 5 && Rewire.Candidate(pick(i, j), n) == c
    {
      set j | 0 <= j < 5 :: Rewire.Candidate(pick(i, j), n) as nat
    }

    /** network_effects calls connect(c, i) at i's turn and it adds an edge:
        c is a candidate, its gate draw is below 'friend', and c is not i. */
    ghost predicate Linked(pick: (int, int) -> real, gate: (int, int) -> real, i: nat, c: nat)
      requires UnitPicks(pick) && i < n
      ensures Linked(pick, gate, i, c) ==> c < n && c != i
    {
      c in Candidates(pick, i) && c != i && gate(i, c) < friend
    }

    /** connect(c, i) has run before the rest of i0's candidates, those not in done. */
    ghost predicate LinkedBefore(pick: (int, int) -> real, gate: (int, int) -> real, i: nat, c: nat, i0: nat, done: set<nat>)
      requires UnitPicks(pick) && i < n
    {
      Linked(pick, gate, i, c) && (i < i0 || (i == i0 && c in done))
    }

    /** The state of network_effects against adjacency A0, weights W0 and
        views M0 before it. */
    ghost predicate EffectState(pick: (int, int) -> real, gate: (int, int) -> real, w1: (int, int) -> real,
                                w2: (int, int) -> real, A0: seq<seq<bool>>, W0: seq<seq<real>>,
                                M0: seq<seq<seq<real>>>, i0: nat, done: set<nat>)
      reads adj, W, masks, attrs
      requires Shape() && UnitPicks(pick) && Rewire.Square(A0) && |A0| == n
      requires |W0| == n && forall a :: 0 <= a < n ==> |W0[a]| == n
      requires |M0| == n && forall a :: 0 <= a < n ==> |M0[a]| == n && forall b :: 0 <= b < n ==> |M0[a][b]| == K
    {
      && (forall a, b :: 0 <= a < n && 0 <= b < n ==>
            adj[a, b] == (A0[a][b] || LinkedBefore(pick, gate, b, a, i0, done) || (Mirror() && LinkedBefore(pick, gate, a, b, i0, done))))
      && EffectW(pick, gate, w1, w2, W0, i0, done)
      && EffectMasks(pick, gate, M0, i0, done)
    }

    /** The weight part of EffectState. */
    ghost predicate EffectW(pick: (int, int) -> real, gate: (int, int) -> real, w1: (int, int) -> real,
                            w2: (int, int) -> real, W0: seq<seq<real>>, i0: nat, done: set<nat>)
      reads W
      requires Shape() && UnitPicks(pick)
      requires |W0| == n && forall a :: 0 <= a < n ==> |W0[a]| == n
    {
      forall a, b :: 0 <= a < n && 0 <= b < n ==>
        W[a, b] == Rewire.EffectWeight(W0[a][b], LinkedBefore(pick, gate, b, a, i0, done), LinkedBefore(pick, gate, a, b, i0, done),
                                       symmetric, a, b, WeightOf(w1(b, a)), WeightOf(w2(a, b)))
    }

    /** The view part of EffectState. */
    ghost predicate EffectMasks(pick: (int, int) -> real, gate: (int, int) -> real, M0: seq<seq<seq<real>>>,
                                i0: nat, done: set<nat>)
      reads masks, attrs
      requires Shape() && UnitPicks(pick)
      requires |M0| == n && forall a :: 0 <= a < n ==> |M0[a]| == n && forall b :: 0 <= b < n ==> |M0[a][b]| == K
    {
      forall a, b, k :: 0 <= a < n && 0 <= b < n && 0 <= k < K ==>
        masks[a, b, k] == if visibility == Visible && (LinkedBefore(pick, gate, a, b, i0, done) || (symmetric && LinkedBefore(pick, gate, b, a, i0, done)))
                          then attrs[b, k] else M0[a][b][k]
    }

    /** The adjacency part of EffectState, on a snapshot A. */
    ghost predicate EffAdj(pick: (int, int) -> real, gate: (int, int) -> real, A0: seq<seq<bool>>, A: seq<seq<bool>>,
                           i0: nat, done: set<nat>)
      requires UnitPicks(pick) && Rewire.Square(A0) && |A0| == n && Rewire.Square(A) && |A| == n
    {
      forall a, b :: 0 <= a < n && 0 <= b < n ==>
        A[a][b] == (A0[a][b] || LinkedBefore(pick, gate, b, a, i0, done) || (Mirror() && LinkedBefore(pick, gate, a, b, i0, done)))
    }

    /** The weight part of EffectState, on a snapshot Wm. */
    ghost predicate EffW(pick: (int, int) -> real, gate: (int, int) -> real, w1: (int, int) -> real,
                         w2: (int, int) -> real, W0: seq<seq<real>>, Wm: seq<seq<real>>, i0: nat, done: set<nat>)
      requires UnitPicks(pick)
      requires |W0| == n && forall a :: 0 <= a < n ==> |W0[a]| == n
      requires |Wm| == n && forall a :: 0 <= a < n ==> |Wm[a]| == n
    {
      forall a, b :: 0 <= a < n && 0 <= b < n ==>
        Wm[a][b] == Rewire.EffectWeight(W0[a][b], LinkedBefore(pick, gate, b, a, i0, done), LinkedBefore(pick, gate, a, b, i0, done),
                                        symmetric, a, b, WeightOf(w1(b, a)), WeightOf(w2(a, b)))
    }

    /** The view part of EffectState, on a snapshot M. */
    ghost predicate EffMasks(pick: (int, int) -> real, gate: (int, int) -> real, M0: seq<seq<seq<real>>>,
                             M: seq<seq<seq<real>>>, i0: nat, done: set<nat>)
      reads attrs
      requires Shape() && UnitPicks(pick)
      requires |M0| == n && forall a :: 0 <= a < n ==> |M0[a]| == n && forall b :: 0 <= b < n ==> |M0[a][b]| == K
      requires |M| == n && forall a :: 0 <= a < n ==> |M[a]| == n && forall b :: 0 <= b < n ==> |M[a][b]| == K
    {
      forall a, b, k {:trigger M[a][b][k]} :: 0 <= a < n && 0 <= b < n && 0 <= k < K ==>
        M[a][b][k] == if visibility == Visible && (LinkedBefore(pick, gate, a, b, i0, done) || (symmetric && LinkedBefore(pick, gate, b, a, i0, done)))
                      then attrs[b, k] else M0[a][b][k]
    }

    /** EffectState read off snapshots of the arrays. */
    lemma EffectSnapshot(pick: (int, int) -> real, gate: (int, int) -> real, w1: (int, int) -> real,
                         w2: (int, int) -> real, A0: seq<seq<bool>>, W0: seq<seq<real>>,
                         M0: seq<seq<seq<real>>>, i0: nat, done: set<nat>)
      requires Shape() && UnitPicks(pick) && Rewire.Square(A0) && |A0| == n
      requires |W0| == n && forall a :: 0 <= a < n ==> |W0[a]| == n
      requires |M0| == n && forall a :: 0 <= a < n ==> |M0[a]| == n && forall b :: 0 <= b < n ==> |M0[a][b]| == K
      requires EffectState(pick, gate, w1, w2, A0, W0, M0, i0, done)
      ensures EffAdj(pick, gate, A0, AdjMatrix(), i0, done)
      ensures EffW(pick, gate, w1, w2, W0, WMatrix(), i0, done)
      ensures EffMasks(pick, gate, M0, MaskTensor(), i0, done)
    {
      var M := MaskTensor();
      forall a, b, k | 0 <= a < n && 0 <= b < n && 0 <= k < K
        ensures M[a][b][k] == masks[a, b, k]
      {
        assert M[a][b] == MaskRow(a, b);
      }
    }

    /** Handling candidate c at i's turn adds at most the pair (i, c) to
        the links made so far. */
    lemma LinkedBeforeNext(pick: (int, int) -> real, gate: (int, int) -> real, i: nat, c: nat, done: set<nat>)
      requires UnitPicks(pick) && i < n
      ensures forall x, y :: 0 <= x < n && 0 <= y < n ==>
        LinkedBefore(pick, gate, x, y, i, done + {c}) ==
        (LinkedBefore(pick, gate, x, y, i, done) || (x == i && y == c && Linked(pick, gate, i, c)))
    {
    }

    /** EffAdj after connect(c, i) or nothing, from the adjacency A before it. */
    lemma EffAdjNext(pick: (int, int) -> real, gate: (int, int) -> real, A0: seq<seq<bool>>, A: seq<seq<bool>>,
                     i: nat, c: nat, done: set<nat>, linked: bool)
      requires Shape() && UnitPicks(pick) && i < n && c < n
      requires Rewire.Square(A0) && |A0| == n && Rewire.Square(A) && |A| == n
      requires EffAdj(pick, gate, A0, A, i, done) && linked == Linked(pick, gate, i, c)
      requires forall a, b :: 0 <= a < n && 0 <= b < n ==>
        adj[a, b] == (A[a][b] || (linked && ((a == c && b == i) || (Mirror() && a == i && b == c))))
      ensures forall a, b :: 0 <= a < n && 0 <= b < n ==>
        adj[a, b] == (A0[a][b] || LinkedBefore(pick, gate, b, a, i, done + {c}) || (Mirror() && LinkedBefore(pick, gate, a, b, i, done + {c})))
    {
      LinkedBeforeNext(pick, gate, i, c, done);
    }

    /** EffW after connect(c, i) or nothing, from the weights Wm before it. */
    lemma EffWNext(pick: (int, int) -> real, gate: (int, int) -> real, w1: (int, int) -> real, w2: (int, int) -> real,
                   W0: seq<seq<real>>, Wm: seq<seq<real>>, i: nat, c: nat, done: set<nat>, linked: bool)
      requires Shape() && UnitPicks(pick) && i < n && c < n
      requires |W0| == n && forall a :: 0 <= a < n ==> |W0[a]| == n
      requires |Wm| == n && forall a :: 0 <= a < n ==> |Wm[a]| == n
      requires EffW(pick, gate, w1, w2, W0, Wm, i, done) && linked == Linked(pick, gate, i, c) && c !in done
      requires forall a, b :: 0 <= a < n && 0 <= b < n ==>
        W[a, b] == if linked && a == c && b == i then WeightOf(w1(i, c))
                   else if linked && symmetric && a == i && b == c then WeightOf(w2(i, c))
                   else Wm[a][b]
      ensures EffectW(pick, gate, w1, w2, W0, i, done + {c})
    {
      LinkedBeforeNext(pick, gate, i, c, done);
    }

    /** EffMasks after connect(c, i) or nothing, from the views M before it. */
    lemma EffMasksNext(pick: (int, int) -> real, gate: (int, int) -> real, M0: seq<seq<seq<real>>>,
                       M: seq<seq<seq<real>>>, i: nat, c: nat, done: set<nat>, linked: bool)
      requires Shape() && UnitPicks(pick) && i < n && c < n
      requires |M0| == n && forall a :: 0 <= a < n ==> |M0[a]| == n && forall b :: 0 <= b < n ==> |M0[a][b]| == K
      requires |M| == n && forall a :: 0 <= a < n ==> |M[a]| == n && forall b :: 0 <= b < n ==> |M[a][b]| == K
      requires EffMasks(pick, gate, M0, M, i, done) && linked == Linked(pick, gate, i, c) && c !in done
      requires forall a, b, k :: 0 <= a < n && 0 <= b < n && 0 <= k < K ==>
        masks[a, b, k] == if linked && visibility == Visible && a == i && b == c then attrs[c, k]
                          else if linked && visibility == Visible && symmetric && a == c && b == i then attrs[i, k]
                          else M[a][b][k]
      ensures EffectMasks(pick, gate, M0, i, done + {c})
    {
      LinkedBeforeNext(pick, gate, i, c, done);
      forall a, b, k | 0 <= a < n && 0 <= b < n && 0 <= k < K
        ensures masks[a, b, k] == if visibility == Visible && (LinkedBefore(pick, gate, a, b, i, done + {c}) ||
                                    (symmetric && LinkedBefore(pick, gate, b, a, i, done + {c})))
                                  then attrs[b, k] else M0[a][b][k]
      {
        if visibility != Visible {
        } else if linked && ((a == i && b == c) || (symmetric && a == c && b == i)) {
          assert LinkedBefore(pick, gate, i, c, i, done + {c});
        }
      }
    }

    /** network_effects' handling of candidate c at i's turn. */
    method EffectOn(i: nat, c: nat, pick: (int, int) -> real, gate: (int, int) -> real, w1: (int, int) -> real,
                    w2: (int, int) -> real, ghost A0: seq<seq<bool>>, ghost W0: seq<seq<real>>,
                    ghost M0: seq<seq<seq<real>>>, ghost done: set<nat>, ghost wasNormalized: bool,
                    ghost wasViews: bool)
      requires Valid() && UnitPicks(pick) && i < n && c < n
      requires forall x, y :: 0.0 <= w1(x, y) < 1.0 && 0.0 <= w2(x, y) < 1.0
      requires visibility == RandomVisibility ==> !Linked(pick, gate, i, c)
      requires Rewire.Square(A0) && |A0| == n
      requires |W0| == n && forall a :: 0 <= a < n ==> |W0[a]| == n
      requires |M0| == n && forall a :: 0 <= a < n ==> |M0[a]| == n && forall b :: 0 <= b < n ==> |M0[a][b]| == K
      requires c in Candidates(pick, i) && c !in done
      requires EffectState(pick, gate, w1, w2, A0, W0, M0, i, done)
      requires wasNormalized ==> Normalized()
      requires wasViews ==> ViewsValid() && Spins()
      modifies adj, W, N, masks
      ensures Valid() && EffectState(pick, gate, w1, w2, A0, W0, M0, i, done + {c})
      ensures wasNormalized ==> Normalized()
      ensures wasViews ==> ViewsValid()
    {
      EffectSnapshot(pick, gate, w1, w2, A0, W0, M0, i, done);
      ghost var A, Wm, M := AdjMatrix(), WMatrix(), MaskTensor();
      ghost var linked := Linked(pick, gate, i, c);
      ConnectIfGated(i, c, gate(i, c), w1(i, c), w2(i, c));
      EffAdjNext(pick, gate, A0, A, i, c, done, linked);
      EffWNext(pick, gate, w1, w2, W0, Wm, i, c, done, linked);
      EffMasksNext(pick, gate, M0, M, i, c, done, linked);
    }

    /** connect(c, i) when the draw g passes the 'friend' gate; the edge
        appears unless c is i itself. */
    method ConnectIfGated(i: nat, c: nat, g: real, d1: real, d2: real)
      requires Valid() && i < n && c < n
      requires visibility == RandomVisibility ==> !(c != i && g < friend)
      requires 0.0 <= d1 < 1.0 && 0.0 <= d2 < 1.0
      modifies adj, W, N, masks
      ensures Valid()
      ensures forall a, b :: 0 <= a < n && 0 <= b < n ==>
        adj[a, b] == (old(adj[a, b]) || (c != i && g < friend && ((a == c && b == i) || (Mirror() && a == i && b == c))))
      ensures forall a, b :: 0 <= a < n && 0 <= b < n ==>
        W[a, b] == if c != i && g < friend && a == c && b == i then WeightOf(d1)
                   else if c != i && g < friend && symmetric && a == i && b == c then WeightOf(d2)
                   else old(W[a, b])
      ensures forall a, b, k :: 0 <= a < n && 0 <= b < n && 0 <= k < K ==>
        masks[a, b, k] == if c != i && g < friend && visibility == Visible && a == i && b == c then attrs[c, k]
                          else if c != i && g < friend && visibility == Visible && symmetric && a == c && b == i then attrs[i, k]
                          else old(masks[a, b, k])
      ensures old(Normalized()) ==> Normalized()
      ensures old(ViewsValid()) && Spins() ==> ViewsValid()
    {
      if g < friend {
        Connect(c, i, d1, d2);
      }
    }

    /** One turn of network_effects: the candidates in any order. */
    method EffectTurn(i: nat, pick: (int, int) -> real, gate: (int, int) -> real, w1: (int, int) -> real,
                      w2: (int, int) -> real, ghost A0: seq<seq<bool>>, ghost W0: seq<seq<real>>,
                      ghost M0: seq<seq<seq<real>>>, ghost wasNormalized: bool, ghost wasViews: bool)
      requires Valid() && UnitPicks(pick) && i < n
      requires forall x, y :: 0.0 <= w1(x, y) < 1.0 && 0.0 <= w2(x, y) < 1.0
      requires visibility == RandomVisibility ==> forall c :: 0 <= c < n ==> !Linked(pick, gate, i, c)
      requires Rewire.Square(A0) && |A0| == n
      requires |W0| == n && forall a :: 0 <= a < n ==> |W0[a]| == n
      requires |M0| == n && forall a :: 0 <= a < n ==> |M0[a]| == n && forall b :: 0 <= b < n ==> |M0[a][b]| == K
      requires EffectState(pick, gate, w1, w2, A0, W0, M0, i, {})
      requires wasNormalized ==> Normalized()
      requires wasViews ==> ViewsValid() && Spins()
      modifies adj, W, N, masks
      ensures Valid() && EffectState(pick, gate, w1, w2, A0, W0, M0, i + 1, {})
      ensures wasNormalized ==> Normalized()
      ensures wasViews ==> ViewsValid()
    {
      var candidates := Candidates(pick, i);
      var rest := candidates;
      ghost var done: set<nat> := {};
      while rest != {}
        invariant rest <= candidates && done == candidates - rest
        invariant Valid() && EffectState(pick, gate, w1, w2, A0, W0, M0, i, done)
        invariant wasNormalized ==> Normalized()
        invariant wasViews ==> ViewsValid()
        decreases rest
      {
        var c :| c in rest;
        EffectOn(i, c, pick, gate, w1, w2, A0, W0, M0, done, wasNormalized, wasViews);
        rest := rest - {c};
        done := done + {c};
      }
      assert forall x, y :: 0 <= x < n && 0 <= y < n ==>
        LinkedBefore(pick, gate, x, y, i, done) == LinkedBefore(pick, gate, x, y, i + 1, {});
    }

    /** Before the first turn nothing is linked. */
    lemma EffectStart(pick: (int, int) -> real, gate: (int, int) -> real, w1: (int, int) -> real,
                      w2: (int, int) -> real, A0: seq<seq<bool>>, W0: seq<seq<real>>, M0: seq<seq<seq<real>>>)
      requires Shape() && UnitPicks(pick)
      requires A0 == AdjMatrix() && W0 == WMatrix() && M0 == MaskTensor()
      ensures EffectState(pick, gate, w1, w2, A0, W0, M0, 0, {})
    {
    }

    /** After the last turn every linked pair counts. */
    lemma EffectDone(pick: (int, int) -> real, gate: (int, int) -> real, w1: (int, int) -> real,
                     w2: (int, int) -> real, A0: seq<seq<bool>>, W0: seq<seq<real>>, M0: seq<seq<seq<real>>>)
      requires Shape() && UnitPicks(pick) && Rewire.Square(A0) && |A0| == n
      requires |W0| == n && forall a :: 0 <= a < n ==> |W0[a]| == n
      requires |M0| == n && forall a :: 0 <= a < n ==> |M0[a]| == n && forall b :: 0 <= b < n ==> |M0[a][b]| == K
      requires EffectState(pick, gate, w1, w2, A0, W0, M0, n, {})
      ensures forall a, b :: 0 <= a < n && 0 <= b < n ==>
        adj[a, b] == (A0[a][b] || Linked(pick, gate, b, a) || (Mirror() && Linked(pick, gate, a, b)))
      ensures forall a, b :: 0 <= a < n && 0 <= b < n ==>
        W[a, b] == Rewire.EffectWeight(W0[a][b], Linked(pick, gate, b, a), Linked(pick, gate, a, b),
                                      symmetric, a, b, WeightOf(w1(b, a)), WeightOf(w2(a, b)))
      ensures forall a, b, k :: 0 <= a < n && 0 <= b < n && 0 <= k < K ==>
        masks[a, b, k] == if visibility == Visible && (Linked(pick, gate, a, b) || (symmetric && Linked(pick, gate, b, a)))
                          then attrs[b, k] else M0[a][b][k]
    {
      assert forall x, y :: 0 <= x < n && 0 <= y < n ==> LinkedBefore(pick, gate, x, y, n, {}) == Linked(pick, gate, x, y);
    }

    /** network_effects, with pick(i, j) the j-th candidate draw of i's turn,
        gate(i, c) the draw compared with 'friend' for candidate c, and
        w1(i, c), w2(i, c) the weight draws of connect(c, i).  An edge c -> i
        appears (and i -> c when mirrored) for every linked candidate, the
        viewer sees the new influencer under 'visible', and of two connects
        that write the same weight the later turn wins.  The result does not
        depend on the order the candidate sets are walked in. */
    method NetworkEffects(pick: (int, int) -> real, gate: (int, int) -> real, w1: (int, int) -> real, w2: (int, int) -> real)
      requires Valid() && UnitPicks(pick)
      requires forall x, y :: 0.0 <= w1(x, y) < 1.0 && 0.0 <= w2(x, y) < 1.0
      requires visibility == RandomVisibility ==> forall i, c :: 0 <= i < n && 0 <= c < n ==> !Linked(pick, gate, i, c)
      modifies adj, W, N, masks
      ensures Valid()
      ensures forall a, b :: 0 <= a < n && 0 <= b < n ==>
        adj[a, b] == (old(adj[a, b]) || Linked(pick, gate, b, a) || (Mirror() && Linked(pick, gate, a, b)))
      ensures forall a, b :: 0 <= a < n && 0 <= b < n ==>
        W[a, b] == Rewire.EffectWeight(old(W[a, b]), Linked(pick, gate, b, a), Linked(pick, gate, a, b),
                                      symmetric, a, b, WeightOf(w1(b, a)), WeightOf(w2(a, b)))
      ensures forall a, b, k :: 0 <= a < n && 0 <= b < n && 0 <= k < K ==>
        masks[a, b, k] == if visibility == Visible && (Linked(pick, gate, a, b) || (symmetric && Linked(pick, gate, b, a)))
                          then attrs[b, k] else old(masks[a, b, k])
      ensures old(Normalized()) ==> Normalized()
      ensures old(ViewsValid()) && Spins() ==> ViewsValid()
    {
      ghost var A0 := AdjMatrix();
      ghost var W0 := WMatrix();
      ghost var M0 := MaskTensor();
      ghost var wasNormalized := Normalized();
      ghost var wasViews := ViewsValid() && Spins();
      EffectStart(pick, gate, w1, w2, A0, W0, M0);
      for i := 0 to n
        invariant Valid() && EffectState(pick, gate, w1, w2, A0, W0, M0, i, {})
        invariant wasNormalized ==> Normalized()
        invariant wasViews ==> ViewsValid()
      {
        EffectTurn(i, pick, gate, w1, w2, A0, W0, M0, wasNormalized, wasViews);
      }
      EffectDone(pick, gate, w1, w2, A0, W0, M0);
    }


    /** step: update_attributes, then act, then network_effects, each with
        its own draws.  The opinions follow the update rule against the
        state before the step; an edge after the step was there before or
        was added by network_effects, and every edge network_effects adds
        is there after it. */
    method Step(draw: (int, int) -> real, g1: (int, int) -> real, g2: (int, int) -> real,
                pick: (int, int) -> real, gate: (int, int) -> real, w1: (int, int) -> real, w2: (int, int) -> real)
      requires Valid() && (K > 0 ==> |types| >= n) && RewardsDefined()
      requires UnitPicks(pick) && forall x, y :: 0.0 <= w1(x, y) < 1.0 && 0.0 <= w2(x, y) < 1.0
      requires visibility == RandomVisibility ==> forall i, c :: 0 <= i < n && 0 <= c < n ==> !Linked(pick, gate, i, c)
      modifies adj, W, N, masks, attrs
      ensures Valid()
      ensures forall i, k :: 0 <= i < n && 0 <= k < K ==>
        attrs[i, k] == if old(FlipChosen(draw, i, k)) then -old(attrs[i, k]) else old(attrs[i, k])
      ensures old(Spins()) ==> Spins()
      ensures forall a, b :: 0 <= a < n && 0 <= b < n && adj[a, b] ==>
        old(adj[a, b]) || Linked(pick, gate, b, a) || (Mirror() && Linked(pick, gate, a, b))
      ensures forall a, b :: 0 <= a < n && 0 <= b < n && (Linked(pick, gate, b, a) || (Mirror() && Linked(pick, gate, a, b))) ==>
        adj[a, b]
      ensures old(Normalized()) ==> Normalized()
      ensures old(ViewsValid()) && old(Spins()) ==> ViewsValid()
    {
      RewardsDefinedByViews();
      UpdateAttributes(draw);
      RewardsDefinedByViews();
      Act(g1, g2);
      assert forall a, b :: 0 <= a < n && 0 <= b < n && adj[a, b] ==> old(adj[a, b]);
      NetworkEffects(pick, gate, w1, w2);
    }

    /** _build from a validated property set: the edge list of the chosen
        topology, then initialize_edge_weights, initialize_attribute_space,
        initialize_masks, mix_network and initialize_resistance, each with
        its own draws. */
    constructor Build(n: nat, K: nat, directed: bool, symmetric: bool, weightMode: WeightMode,
                      visibility: Visibility, unfriend: real, update: real, friend: real,
                      unfriendThreshold: real, resistanceParam: ResistanceParam,
                      typeDist: Option<Mixing.Dist>, edges: seq<(nat, nat)>,
                      weightDraw: (int, int) -> real, choice: (int, int) -> bool,
                      coin: (int, int, int) -> bool, shuffle: int -> int, resistanceDraw: int -> real)
      requires symmetric ==> directed
      requires weightMode.FixedWeight? ==> weightMode.w >= 0.0
      requires forall e :: e in edges ==> e.0 < n && e.1 < n && e.0 != e.1
      requires forall a, b :: 0.0 <= weightDraw(a, b) < 1.0
      requires TypesPlaceable(typeDist, n, shuffle, resistanceParam)
      ensures this.n == n && this.K == K && this.directed == directed && this.symmetric == symmetric
      ensures this.weightMode == weightMode && this.visibility == visibility && this.resistanceParam == resistanceParam
      ensures this.unfriend == unfriend && this.update == update && this.friend == friend
      ensures this.unfriendThreshold == unfriendThreshold
      ensures Valid() && Built(edges, weightDraw, choice, coin) && TypesPlaced(typeDist, shuffle, resistanceDraw)
    {
      this.n := n;
      this.K := K;
      this.directed := directed;
      this.symmetric := symmetric;
      this.weightMode := weightMode;
      this.visibility := visibility;
      this.unfriend := unfriend;
      this.update := update;
      this.friend := friend;
      this.unfriendThreshold := unfriendThreshold;
      this.resistanceParam := resistanceParam;
      this.typeDist := typeDist;
      this.types := [];
      this.indexesByType := map[];
      adj := new bool[n, n];
      W := new real[n, n];
      N := new real[n, n];
      attrs := new real[n, K];
      masks := new real[n, n, K];
      resistance := new real[n];
      new;
      Initialize(edges, weightDraw, choice, coin, shuffle, resistanceDraw);
    }

    /** The body of _build once the arrays exist: the arrays, then the types. */
    method Initialize(edges: seq<(nat, nat)>, weightDraw: (int, int) -> real, choice: (int, int) -> bool,
                      coin: (int, int, int) -> bool, shuffle: int -> int, resistanceDraw: int -> real)
      requires Shape()
      requires forall e :: e in edges ==> e.0 < n && e.1 < n && e.0 != e.1
      requires forall a, b :: 0.0 <= weightDraw(a, b) < 1.0
      requires TypesPlaceable(typeDist, n, shuffle, resistanceParam)
      modifies this, adj, W, N, attrs, masks, resistance
      ensures Valid() && Built(edges, weightDraw, choice, coin) && TypesPlaced(old(typeDist), shuffle, resistanceDraw)
    {
      InitializeArrays(edges, weightDraw, choice, coin);
      InitializeTypes(shuffle, resistanceDraw);
    }

    /** The types as _build leaves them for the distribution dist it was
        given: the default one-type distribution when there was none; the
        shuffled type vector and its index lists when dist sums to one (and
        no types and no index lists otherwise); each node's resistance from the
        parameter and those lists. */
    ghost predicate TypesPlaced(dist: Option<Mixing.Dist>, shuffle: int -> int, resistanceDraw: int -> real)
      reads this, resistance
      requires Shape() && TypesPlaceable(dist, n, shuffle, resistanceParam)
    {
      && typeDist == (if dist.None? then Some([("default", 1.0)]) else dist)
      && DistKeys() == MixedKeys(dist) && indexesByType == MixedIndexes(dist, n, shuffle)
      && (dist.Some? && Mixing.SumsToOne(dist.value) ==>
            types == Mixing.ShuffleDown(Mixing.Unshuffled(dist.value, n), shuffle, |Mixing.Unshuffled(dist.value, n)|) && Mixed())
      && (dist.None? || !Mixing.SumsToOne(dist.value) ==> types == [])
      && (forall i :: 0 <= i < n ==>
            resistance[i] == Resistance.Value(resistanceParam, MixedKeys(dist), MixedIndexes(dist, n, shuffle), resistanceDraw, i))
    }

    /** The part of _build that places the types: mix_network, then
        initialize_resistance on the index lists it leaves. */
    method InitializeTypes(shuffle: int -> int, resistanceDraw: int -> real)
      requires Shape()
      requires TypesPlaceable(typeDist, n, shuffle, resistanceParam)
      modifies this, resistance
      ensures TypesPlaced(old(typeDist), shuffle, resistanceDraw)
    {
      ghost var dist := typeDist;
      MixNetwork(shuffle);
      assert DistKeys() == MixedKeys(dist) && indexesByType == MixedIndexes(dist, n, shuffle) by {
        if dist.None? {
          assert Mixing.Keys([("default", 1.0)]) == {"default"} by {
            assert [("default", 1.0)][0].0 == "default";
          }
        } else if dist.Some? && Mixing.SumsToOne(dist.value) {
          assert Mixed();
        }
      }
      InitializeResistance(resistanceDraw);
    }

    /** The part of _build that fills the arrays: generate_edges,
        initialize_edge_weights, initialize_attribute_space and
        initialize_masks. */
    method InitializeArrays(edges: seq<(nat, nat)>, weightDraw: (int, int) -> real, choice: (int, int) -> bool,
                            coin: (int, int, int) -> bool)
      requires Shape()
      requires forall e :: e in edges ==> e.0 < n && e.1 < n && e.0 != e.1
      requires forall a, b :: 0.0 <= weightDraw(a, b) < 1.0
      modifies adj, W, N, attrs, masks
      ensures Built(edges, weightDraw, choice, coin)
    {
      GenerateEdges(edges);
      InitializeEdgeWeights(weightDraw);
      InitializeAttributeSpace(choice);
      InitializeMasks(coin);
    }

    /** The arrays as _build leaves them: the edge list (mirrored when the
        graph is undirected or symmetric), the initial weights normalized
        column by column, the +-1 attributes and the initial views. */
    ghost predicate Built(edges: seq<(nat, nat)>, weightDraw: (int, int) -> real, choice: (int, int) -> bool,
                          coin: (int, int, int) -> bool)
      reads adj, W, N, attrs, masks
      requires Shape()
    {
      && GraphOk() && WellWeighted() && Spins()
      && (forall a, b :: 0 <= a < n && 0 <= b < n ==>
            (adj[a, b] <==> (a, b) in edges || (Mirror() && (b, a) in edges)))
      && (forall a, b :: 0 <= a < n && 0 <= b < n ==>
            W[a, b] == InitialWeight(directed, adj[a, b], a, b, Draw(weightDraw, a, b), Draw(weightDraw, b, a)))
      && (forall u :: 0 <= u < n ==> NormalizedAtVisit(weightDraw, u))
      && (forall i, k :: 0 <= i < n && 0 <= k < K ==> attrs[i, k] == if choice(i, k) then -1.0 else 1.0)
      && (forall a, b, k :: 0 <= a < n && 0 <= b < n && 0 <= k < K ==> masks[a, b, k] == InitialView(coin, a, b, k))
      && (Mirror() ==> ViewsValid())
    }
  }

  /** What mix_network and initialize_resistance need of their inputs: a
      shortfall goes to a key of the distribution, the shuffle picks
      indexes in range, and a per-type resistance dictionary names types
      that have index lists within the network. */
  predicate TypesPlaceable(dist: Option<Mixing.Dist>, n: nat, shuffle: int -> int, param: ResistanceParam)
  {
    && (dist.Some? && Mixing.SumsToOne(dist.value) ==>
          && (Mixing.Shortfall(dist.value, n) > 0 ==> Mixing.MinTag(dist.value, n) in Mixing.Keys(dist.value))
          && Mixing.ValidPicks(shuffle, |Mixing.Unshuffled(dist.value, n)|))
    && (param.ParamPerType? ==>
          && Resistance.KeysIndexed(param.entries, MixedKeys(dist), MixedIndexes(dist, n, shuffle))
          && Resistance.WritesInRange(param.entries, MixedKeys(dist), MixedIndexes(dist, n, shuffle), n))
  }

  /** The type keys initialize_resistance sees once mix_network has run:
      those of the distribution, or of the default one when none is set. */
  function MixedKeys(dist: Option<Mixing.Dist>): set<string>
  {
    if dist.None? then {"default"} else Mixing.Keys(dist.value)
  }

  /** The index lists mix_network leaves for a distribution, a network size
      and a shuffle: none unless the distribution sums to one. */
  function MixedIndexes(dist: Option<Mixing.Dist>, n: nat, shuffle: int -> int): map<string, seq<nat>>
    requires dist.Some? && Mixing.SumsToOne(dist.value) ==> Mixing.ValidPicks(shuffle, |Mixing.Unshuffled(dist.value, n)|)
  {
    if dist.None? || !Mixing.SumsToOne(dist.value) then map[]
    else
      var types := Mixing.ShuffleDown(Mixing.Unshuffled(dist.value, n), shuffle, |Mixing.Unshuffled(dist.value, n)|);
      map t | t in Mixing.Keys(dist.value) :: Mixing.IndexesOf(types, t, |types|)
  }
}

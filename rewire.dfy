/** What the two rewiring sweeps of a step decide, as functions of the
    state before the sweep and of the draws.

    act visits the nodes in order; at x's turn it takes the list of x's
    influencers y and calls disconnect(x, y) for those whose reward is below
    the threshold and whose two gates pass.  A call removes the edge x -> y
    (and y -> x in undirected or symmetric mode), so it can take y out of
    the list a later turn takes.  Rewards never change during the sweep
    (the views a call clears belong to pairs no later turn looks at), so the
    whole sweep is fixed by the adjacency before it and by `wants`: whether
    disconnect(x, y) would go through if x's turn found y. */
module Rewire {

  predicate Square(m: seq<seq<bool>>)
  {
    forall a :: 0 <= a < |m| ==> |m[a]| == |m|
  }

  /** Matrices of the same size: e[a][b] means the edge a -> b. */
  predicate Conform(e: seq<seq<bool>>, wants: seq<seq<bool>>)
  {
    Square(e) && Square(wants) && |wants| == |e|
  }

  /** disconnect(x, y) goes through at x's turn. */
  function Fired(e: seq<seq<bool>>, wants: seq<seq<bool>>, x: nat, y: nat): bool
    requires Conform(e, wants) && x < |e| && y < |e|
    ensures Fired(e, wants, x, y) ==> e[y][x] && wants[x][y]
    decreases x, 1
  {
    InSnapshot(e, wants, x, y) && wants[x][y]
  }

  /** y is in the influencer list of x's turn: the edge y -> x was there
      before the sweep, and disconnect(y, x) did not take it away at y's
      earlier turn. */
  function InSnapshot(e: seq<seq<bool>>, wants: seq<seq<bool>>, x: nat, y: nat): bool
    requires Conform(e, wants) && x < |e| && y < |e|
    ensures InSnapshot(e, wants, x, y) ==> e[y][x]
    ensures x <= y ==> (InSnapshot(e, wants, x, y) <==> e[y][x])
    decreases x, 0
  {
    e[y][x] && !(y < x && Fired(e, wants, y, x))
  }

  /** The edge a -> b after the sweep: taken away by disconnect(a, b), or,
      in undirected or symmetric mode, by disconnect(b, a). */
  function AfterAct(e: seq<seq<bool>>, wants: seq<seq<bool>>, mirror: bool, a: nat, b: nat): bool
    requires Conform(e, wants) && a < |e| && b < |e|
    ensures AfterAct(e, wants, mirror, a, b) ==> e[a][b]
    ensures !wants[a][b] && !(mirror && wants[b][a]) ==> AfterAct(e, wants, mirror, a, b) == e[a][b]
  {
    e[a][b] && !(Fired(e, wants, a, b) || (mirror && Fired(e, wants, b, a)))
  }

  /** A pair is cut from at most one side: once disconnect(y, x) went
      through, y is no longer in x's list. */
  lemma AtMostOneSide(e: seq<seq<bool>>, wants: seq<seq<bool>>, x: nat, y: nat)
    requires Conform(e, wants) && x < |e| && y < |e| && x != y
    ensures !(Fired(e, wants, x, y) && Fired(e, wants, y, x))
  {
    if y < x {
      SeenCut(e, wants, x, y);
    } else if x < y {
      SeenCut(e, wants, y, x);
    }
  }

  /** A later turn only finds what the earlier turn did not cut. */
  lemma SeenCut(e: seq<seq<bool>>, wants: seq<seq<bool>>, x: nat, y: nat)
    requires Conform(e, wants) && y < x < |e|
    ensures Fired(e, wants, y, x) ==> !Fired(e, wants, x, y)
  {
    if Fired(e, wants, x, y) {
      assert InSnapshot(e, wants, x, y);
    }
  }

  /** In undirected storage an edge is cut exactly when either end wants
      to cut it: the earlier end decides first, the later one only if the
      edge survived. */
  lemma UndirectedCut(e: seq<seq<bool>>, wants: seq<seq<bool>>, x: nat, y: nat)
    requires Conform(e, wants) && x < y < |e|
    requires e[x][y] == e[y][x]
    ensures Fired(e, wants, x, y) <==> e[y][x] && wants[x][y]
    ensures Fired(e, wants, y, x) <==> e[x][y] && wants[y][x] && !wants[x][y]
    ensures !AfterAct(e, wants, true, x, y) <==> !e[x][y] || wants[x][y] || wants[y][x]
  {
    assert InSnapshot(e, wants, x, y) == e[y][x];
    assert InSnapshot(e, wants, y, x) == (e[x][y] && !Fired(e, wants, x, y));
  }

  /** int(rnd.random() * n): a node index for a draw in [0, 1). */
  function Candidate(p: real, n: nat): (c: int)
    requires 0.0 <= p < 1.0 && n > 0
    ensures 0 <= c < n
  {
    assert p * n as real < n as real;
    (p * n as real).Floor
  }

  /** The weight W[a][b] has after network_effects.  connect(a, b) at b's
      turn writes w1; in symmetric mode connect(b, a) at a's turn writes w2;
      the later turn wins, and the weight stays when neither happened. */
  function EffectWeight(w0: real, connectAB: bool, connectBA: bool, symmetric: bool, a: nat, b: nat,
                        w1: real, w2: real): (w: real)
    ensures !connectAB && !(symmetric && connectBA) ==> w == w0
    ensures connectAB && !(symmetric && connectBA) ==> w == w1
    ensures symmetric && connectBA && !connectAB ==> w == w2
    ensures symmetric && connectAB && connectBA ==> w == (if a > b then w2 else w1)
  {
    if symmetric && connectBA && (!connectAB || a > b) then w2 else if connectAB then w1 else w0
  }
}

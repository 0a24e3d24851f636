/** The resistance initialize_resistance gives each node: a per-type
    dictionary, one scalar for everybody, or a fresh draw per node. */
module Resistance {
  import opened Util
  import opened Settings

  /** Draws of rnd.random(), one per node, all in [0, 1). */
  ghost predicate UnitDraws(draw: int -> real)
  {
    forall i :: 0.0 <= draw(i) < 1.0
  }

  /** Every key of the per-type dictionary that names a type of the
      distribution must have an index list (the source looks it up). */
  predicate KeysIndexed(entries: seq<(string, ResistanceValue)>, distKeys: set<string>, idx: map<string, seq<nat>>)
  {
    forall e :: e in entries && e.0 in distKeys ==> e.0 in idx
  }

  /** The nodes an entry that sets anything writes are nodes of the network
      (the source would raise IndexError otherwise). */
  predicate WritesInRange(entries: seq<(string, ResistanceValue)>, distKeys: set<string>,
                          idx: map<string, seq<nat>>, n: nat)
    requires KeysIndexed(entries, distKeys, idx)
  {
    forall e :: e in entries && e.0 in distKeys && (e.1.ResRandom? || (e.1.ResFloat? && 0.0 <= e.1.x <= 1.0)) ==>
      forall j :: j in idx[e.0] ==> j < n
  }

  /** What the entry (key, value) sets node i to, if anything: only a key of
      the distribution counts, only for the nodes of that type, and only a
      float in [0, 1] or 'random'; an out-of-range float stops the key at
      its first node, so it sets none. */
  function Entry(key: string, value: ResistanceValue, distKeys: set<string>, idx: map<string, seq<nat>>,
                 draw: int -> real, i: nat): (r: Option<real>)
    requires key in distKeys ==> key in idx
    ensures r.Some? <==>
      (key in distKeys && i in idx[key] && (value.ResRandom? || (value.ResFloat? && 0.0 <= value.x <= 1.0)))
    ensures r.Some? && value.ResFloat? ==> r.value == value.x
    ensures r.Some? && value.ResRandom? ==> r.value == draw(i)
  {
    if key !in distKeys || i !in idx[key] then None
    else match value
      case ResRandom => Some(draw(i))
      case ResFloat(x) => if x < 0.0 || x > 1.0 then None else Some(x)
      case ResIgnored => None
  }

  /** The per-type dictionary in order: a later key that sets the node wins,
      a node no key sets keeps 0. */
  function PerType(entries: seq<(string, ResistanceValue)>, distKeys: set<string>, idx: map<string, seq<nat>>,
                   draw: int -> real, i: nat): real
    requires KeysIndexed(entries, distKeys, idx)
  {
    if |entries| == 0 then 0.0
    else
      var last := entries[|entries| - 1];
      var e := Entry(last.0, last.1, distKeys, idx, draw, i);
      if e.Some? then e.value else PerType(entries[..|entries| - 1], distKeys, idx, draw, i)
  }

  /** Node i's resistance for the given parameter.  A scalar is copied to
      every node without a range check; 'random' draws per node; any other
      kind of value leaves 0. */
  function Value(param: ResistanceParam, distKeys: set<string>, idx: map<string, seq<nat>>,
                 draw: int -> real, i: nat): (r: real)
    requires param.ParamPerType? ==> KeysIndexed(param.entries, distKeys, idx)
    ensures param.ParamFloat? ==> r == param.x
    ensures !param.ParamFloat? && UnitDraws(draw) ==> 0.0 <= r <= 1.0
  {
    match param
    case ParamFloat(x) => x
    case ParamRandom => draw(i)
    case ParamPerType(entries) =>
      PerTypeWithUnitDraws(entries, distKeys, idx, draw, i);
      PerType(entries, distKeys, idx, draw, i)
    case ParamIgnored => 0.0
  }

  /** Per-type resistances lie in [0, 1], and a node gets a non-zero one
      only from a key that lists it. */
  lemma {:induction false} PerTypeBounded(entries: seq<(string, ResistanceValue)>, distKeys: set<string>,
                                          idx: map<string, seq<nat>>, draw: int -> real, i: nat)
    requires KeysIndexed(entries, distKeys, idx) && UnitDraws(draw)
    ensures 0.0 <= PerType(entries, distKeys, idx, draw, i) <= 1.0
    ensures PerType(entries, distKeys, idx, draw, i) != 0.0 ==>
      exists e :: e in entries && e.0 in distKeys && i in idx[e.0]
  {
    if |entries| > 0 {
      var front := entries[..|entries| - 1];
      assert KeysIndexed(front, distKeys, idx) by {
        forall e | e in front ensures e in entries {
        }
      }
      PerTypeBounded(front, distKeys, idx, draw, i);
      var last := entries[|entries| - 1];
      if Entry(last.0, last.1, distKeys, idx, draw, i).None? && PerType(entries, distKeys, idx, draw, i) != 0.0 {
        var e :| e in front && e.0 in distKeys && i in idx[e.0];
        assert e in entries;
      }
    }
  }

  lemma PerTypeWithUnitDraws(entries: seq<(string, ResistanceValue)>, distKeys: set<string>,
                             idx: map<string, seq<nat>>, draw: int -> real, i: nat)
    requires KeysIndexed(entries, distKeys, idx)
    ensures UnitDraws(draw) ==> 0.0 <= PerType(entries, distKeys, idx, draw, i) <= 1.0
  {
    if UnitDraws(draw) {
      PerTypeBounded(entries, distKeys, idx, draw, i);
    }
  }

  /** An out-of-range per-type value is dropped: the dictionary acts as if
      that entry were absent. (The source prints a message and breaks.) */
  lemma {:induction false} OutOfRangeIgnored(entries: seq<(string, ResistanceValue)>, k: nat, distKeys: set<string>,
                                             idx: map<string, seq<nat>>, draw: int -> real, i: nat)
    requires KeysIndexed(entries, distKeys, idx) && k < |entries|
    requires entries[k].1.ResFloat? && (entries[k].1.x < 0.0 || entries[k].1.x > 1.0)
    ensures KeysIndexed(entries[..k] + entries[k + 1..], distKeys, idx)
    ensures PerType(entries, distKeys, idx, draw, i) == PerType(entries[..k] + entries[k + 1..], distKeys, idx, draw, i)
  {
    var rest := entries[..k] + entries[k + 1..];
    assert KeysIndexed(rest, distKeys, idx) by {
      forall e | e in rest ensures e in entries {
      }
    }
    var front := entries[..|entries| - 1];
    assert KeysIndexed(front, distKeys, idx) by {
      forall e | e in front ensures e in entries {
      }
    }
    if k < |entries| - 1 {
      OutOfRangeIgnored(front, k, distKeys, idx, draw, i);
      assert rest[..|rest| - 1] == front[..k] + front[k + 1..];
      assert rest[|rest| - 1] == entries[|entries| - 1];
    } else {
      assert rest == front;
    }
  }
}

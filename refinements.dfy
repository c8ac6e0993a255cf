/**
 * The KeyTree refinements that turn core values into woods: a Hash becomes
 * a Tree, an Array a Forest of its converted elements. The conversions to
 * key paths (String, Symbol, Array) are Paths.ToKeyPath.
 */
module Refinements {
  import opened Wrappers
  import opened Paths
  import opened DeepHash
  import opened DeepHashProps
  import opened Trees
  import opened Forests

  /** A value with to_key_wood: a Hash, an Array of such values, or a tree or forest already. */
  datatype Raw = RawHash(h: Entries<KeySource>) | RawArray(items: seq<Raw>) | RawWood(wood: Wood)

  /** The trees a wood holds, at any depth. */
  function WoodTrees(w: Wood): set<Tree>
    decreases w
  {
    match w
    case T(t) => {t}
    case F(ws) => ForestTrees(ws)
  }

  function ForestTrees(ws: seq<Wood>): set<Tree>
    decreases ws
  {
    set j, t | 0 <= j < |ws| && t in WoodTrees(ws[j]) :: t
  }

  lemma {:induction false} WoodTreesAllocated(w: Wood)
    ensures forall t :: t in WoodTrees(w) ==> allocated(t)
    decreases w
  {
    if w.F? {
      forall t | t in WoodTrees(w) ensures allocated(t) {
        assert t in ForestTrees(w.woods);
        var j :| 0 <= j < |w.woods| && t in WoodTrees(w.woods[j]);
        WoodTreesAllocated(w.woods[j]);
      }
    }
  }

  /** No hash inside x has a key that reads as the empty path. */
  predicate Convertible(x: Raw)
    decreases x
  {
    match x
    case RawHash(h) => NoEmptyKeyPaths(h)
    case RawArray(items) => forall i :: 0 <= i < |items| ==> Convertible(items[i])
    case RawWood(_) => true
  }

  /** Some hash inside x makes deep_key_pathify raise KeyError. */
  predicate Fails(x: Raw)
    decreases x
  {
    match x
    case RawHash(h) => NoEmptyKeyPaths(h) && Pathify(h).KeyError?
    case RawArray(items) => exists i :: 0 <= i < |items| && Fails(items[i])
    case RawWood(_) => false
  }

  /**
   * w is what to_key_wood makes of x: a hash becomes a tree over its
   * pathified hash with no default, an array a forest of the conversions of
   * its elements in the same order, and a wood stays itself.
   */
  ghost predicate Converts(x: Raw, w: Wood)
    reads WoodTrees(w)
    decreases x
  {
    match x
    case RawHash(h) =>
      w.T? && w.tree.Valid() && NoEmptyKeyPaths(h) && Pathify(h).Ok? && w.tree.hash == Pathify(h).value
      && w.tree.default == Nil && w.tree.defaultProc.None?
    case RawArray(items) => w.F? && ConvertsAll(items, w.woods)
    case RawWood(v) => w == v
  }

  ghost predicate ConvertsAll(items: seq<Raw>, ws: seq<Wood>)
    reads ForestTrees(ws)
    decreases items
  {
    |items| == |ws| && forall i :: 0 <= i < |items| ==> Converts(items[i], ws[i])
  }

  /**
   * to_key_wood: Hash#to_key_tree is Tree[hash], Array#to_key_forest is
   * Forest[*items], and a tree or forest is returned as it is.
   */
  method ToKeyWood(x: Raw) returns (r: Result<Wood>)
    requires Convertible(x)
    ensures r.KeyError? <==> Fails(x)
    ensures r.Ok? ==> Converts(x, r.value)
    decreases x, 1
  {
    match x
    case RawHash(h) =>
      var t := Tree.New(h, Nil, None);
      if t.KeyError? {
        return KeyError;
      }
      return Ok(T(t.value));
    case RawArray(items) =>
      var ws := ForestOf(items);
      if ws.KeyError? {
        return KeyError;
      }
      return Ok(F(ws.value));
    case RawWood(w) =>
      return Ok(w);
  }

  /** Forest[*contents]: the forest of every content's to_key_wood, in order. */
  method ForestOf(items: seq<Raw>) returns (r: Result<seq<Wood>>)
    requires forall i :: 0 <= i < |items| ==> Convertible(items[i])
    ensures r.KeyError? <==> exists i :: 0 <= i < |items| && Fails(items[i])
    ensures r.Ok? ==> ConvertsAll(items, r.value)
    decreases items, 0
  {
    var ws: seq<Wood> := [];
    var i := 0;
    while i < |items|
      invariant 0 <= i <= |items| && |ws| == i
      invariant forall j :: 0 <= j < i ==> !Fails(items[j])
      invariant forall j :: 0 <= j < i ==> Converts(items[j], ws[j])
    {
      ghost var prev := ws;
      forall j | 0 <= j < i ensures forall t :: t in WoodTrees(prev[j]) ==> allocated(t) {
        WoodTreesAllocated(prev[j]);
      }
      var w := ToKeyWood(items[i]);
      if w.KeyError? {
        return KeyError;
      }
      ws := ws + [w.value];
      assert forall j :: 0 <= j < i ==> ws[j] == prev[j];

      i := i + 1;
    }
    return Ok(ws);
  }
}

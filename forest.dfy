/**
 * KeyTree::Forest: an ordered, possibly nested collection of trees. Lookups
 * go through the trees in breadth-first order, so earlier trees take
 * precedence over later ones.
 */
module Forests {
  import opened Wrappers
  import opened Paths
  import opened DeepHash
  import opened DeepHashProps
  import opened Trees

  /** An entry of a forest: a tree, or a nested forest. */
  datatype Wood = T(tree: Tree) | F(woods: seq<Wood>)

  // ---------------------------------------------------------------------
  // trees: the breadth-first worklist
  // ---------------------------------------------------------------------

  function Size(w: Wood): nat
    decreases w
  {
    match w
    case T(_) => 1
    case F(ws) => 1 + SizeOf(ws)
  }

  function SizeOf(ws: seq<Wood>): nat
    decreases ws
  {
    if ws == [] then 0 else Size(ws[0]) + SizeOf(ws[1..])
  }

  lemma {:induction false} SizeOfConcat(a: seq<Wood>, b: seq<Wood>)
    ensures SizeOf(a + b) == SizeOf(a) + SizeOf(b)
  {
    if a == [] {
      assert a + b == b;
    } else {
      assert (a + b)[0] == a[0];
      assert (a + b)[1..] == a[1..] + b;
      SizeOfConcat(a[1..], b);
      assert SizeOf(a + b) == Size(a[0]) + SizeOf(a[1..] + b);
    }
  }

  /**
   * The order in which the worklist of trees visits a queue of woods: a
   * tree is yielded, a forest appends its entries to the end of the queue.
   */
  function LevelOrder(queue: seq<Wood>): seq<Tree>
    decreases SizeOf(queue)
  {
    if queue == [] then []
    else
      assert SizeOf(queue) == Size(queue[0]) + SizeOf(queue[1..]);
      match queue[0]
      case T(t) => [t] + LevelOrder(queue[1..])
      case F(ws) =>
        SizeOfConcat(queue[1..], ws);
        LevelOrder(queue[1..] + ws)
  }

  /** The trees among the entries, in order. */
  function Tops(ws: seq<Wood>): seq<Tree>
  {
    if ws == [] then []
    else (if ws[0].T? then [ws[0].tree] else []) + Tops(ws[1..])
  }

  /** The entries of the nested forests among the entries, in order. */
  function Subs(ws: seq<Wood>): seq<Wood>
  {
    if ws == [] then []
    else (if ws[0].F? then ws[0].woods else []) + Subs(ws[1..])
  }

  /** Every tree of the forest in depth-first order: an independent enumeration. */
  function AllTrees(ws: seq<Wood>): seq<Tree>
    decreases ws
  {
    if ws == [] then [] else TreesOf(ws[0]) + AllTrees(ws[1..])
  }

  function TreesOf(w: Wood): seq<Tree>
    decreases w
  {
    match w
    case T(t) => [t]
    case F(ws) => AllTrees(ws)
  }

  /**
   * forest.trees: the worklist starts with the forest itself and grows while
   * it is being walked.
   */
  method EnumTrees(forest: seq<Wood>) returns (ts: seq<Tree>)
    ensures ts == LevelOrder(forest)
  {
    var remaining := [F(forest)];
    ts := [];
    var i := 0;
    while i < |remaining|
      invariant 0 <= i <= |remaining|
      invariant ts + LevelOrder(remaining[i..]) == LevelOrder([F(forest)])
      decreases SizeOf(remaining[i..])
    {
      var rest := remaining[i + 1..];
      assert remaining[i..][1..] == rest;
      assert SizeOf(remaining[i..]) == Size(remaining[i]) + SizeOf(rest);
      if remaining[i].T? {
        ts := ts + [remaining[i].tree];
      } else {
        var ws := remaining[i].woods;
        remaining := remaining + ws;
        assert remaining[i + 1..] == rest + ws;
        SizeOfConcat(rest, ws);
      }
      i := i + 1;
    }
    assert [F(forest)][1..] + forest == forest;
  }

  /** Level order: the trees at the top of a queue come first, then the level below. */
  lemma {:induction false} LevelOrderConcat(q: seq<Wood>, r: seq<Wood>)
    ensures LevelOrder(q + r) == Tops(q) + LevelOrder(r + Subs(q))
    decreases |q|
  {
    if q == [] {
      assert q + r == r && r + Subs(q) == r;
    } else {
      var q' := q[1..];
      var qr := q + r;
      assert qr != [] && qr[0] == q[0];
      assert qr[1..] == q' + r;
      if q[0].T? {
        var t := q[0].tree;
        assert LevelOrder(qr) == [t] + LevelOrder(q' + r);
        LevelOrderConcat(q', r);
        assert Tops(q) == [t] + Tops(q');
        assert Subs(q) == Subs(q');
      } else {
        var ws := q[0].woods;
        assert LevelOrder(qr) == LevelOrder((q' + r) + ws);
        assert (q' + r) + ws == q' + (r + ws);
        LevelOrderConcat(q', r + ws);
        assert Tops(q) == Tops(q');
        assert Subs(q) == ws + Subs(q');
        assert (r + ws) + Subs(q') == r + Subs(q);
      }
    }
  }

  lemma Levels(forest: seq<Wood>)
    ensures LevelOrder(forest) == Tops(forest) + LevelOrder(Subs(forest))
  {
    LevelOrderConcat(forest, []);
    assert forest + [] == forest && [] + Subs(forest) == Subs(forest);
  }

  lemma {:induction false} AllTreesConcat(a: seq<Wood>, b: seq<Wood>)
    ensures AllTrees(a + b) == AllTrees(a) + AllTrees(b)
  {
    if a == [] {
      assert a + b == b;
    } else {
      assert (a + b)[0] == a[0];
      assert (a + b)[1..] == a[1..] + b;
      AllTreesConcat(a[1..], b);
      assert AllTrees(a + b) == TreesOf(a[0]) + AllTrees(a[1..] + b);
    }
  }

  /** Level order visits every tree of the forest exactly as often as depth-first order does. */
  lemma {:induction false} LevelOrderComplete(queue: seq<Wood>)
    ensures multiset(LevelOrder(queue)) == multiset(AllTrees(queue))
    decreases SizeOf(queue)
  {
    if queue != [] {
      var rest := queue[1..];
      assert SizeOf(queue) == Size(queue[0]) + SizeOf(rest);
      match queue[0]
      case T(t) =>
        LevelOrderComplete(rest);
      case F(ws) =>
        SizeOfConcat(rest, ws);
        LevelOrderComplete(rest + ws);
        AllTreesConcat(rest, ws);
    }
  }

  // ---------------------------------------------------------------------
  // Lookup
  // ---------------------------------------------------------------------

  /** forest[n] for a number n: Ruby's Array#[], counting from the end when n is negative. */
  function At(forest: seq<Wood>, n: int): (r: Option<Wood>)
    ensures r.Some? <==> -|forest| <= n < |forest|
    ensures 0 <= n < |forest| ==> r == Some(forest[n])
    ensures -|forest| <= n < 0 ==> r == Some(forest[|forest| + n])
  {
    var i := if n < 0 then n + |forest| else n;
    if 0 <= i < |forest| then Some(forest[i]) else None
  }

  /** A tree lets a lookup of p pass on to later trees: no answer, and p is not a path of the tree. */
  predicate Transparent(t: Tree, p: KeyPath)
    reads t
  {
    t.Get(p) == Nil && Resolve(t.hash, p).None?
  }

  /** The answer of forest[p] over trees in order: the first non-nil tree[p], with the shadowing stop. */
  function Lookup(ts: seq<Tree>, p: KeyPath): Value
    reads ts
  {
    if ts == [] then Nil
    else if ts[0].Get(p) != Nil then ts[0].Get(p)
    else if Resolve(ts[0].hash, p).Some? then Nil
    else Lookup(ts[1..], p)
  }

  /** The first tree that does not let the lookup pass decides it. */
  lemma {:induction false} LookupDecided(ts: seq<Tree>, p: KeyPath, i: nat)
    requires i < |ts| && !Transparent(ts[i], p)
    requires forall j :: 0 <= j < i ==> Transparent(ts[j], p)
    ensures Lookup(ts, p) == ts[i].Get(p)
  {
    if i > 0 {
      assert Transparent(ts[0], p);
      LookupDecided(ts[1..], p, i - 1);
    }
  }

  /** A lookup that every tree lets pass answers nil. */
  lemma {:induction false} LookupPasses(ts: seq<Tree>, p: KeyPath)
    requires forall j :: 0 <= j < |ts| ==> Transparent(ts[j], p)
    ensures Lookup(ts, p) == Nil
  {
    if ts != [] {
      assert Transparent(ts[0], p);
      LookupPasses(ts[1..], p);
    }
  }

  /** forest[p]: tries tree[p] on each tree in turn and stops at a tree that has the path. */
  method Get(forest: seq<Wood>, p: KeyPath) returns (v: Value)
    ensures v == Lookup(LevelOrder(forest), p)
  {
    var ts := EnumTrees(forest);
    var i := 0;
    while i < |ts|
      invariant 0 <= i <= |ts|
      invariant Lookup(ts[i..], p) == Lookup(ts, p)
    {
      assert ts[i..][1..] == ts[i + 1..];
      var result := ts[i].Get(p);
      if result != Nil {
        return result;
      }
      var shadows := ts[i].Prefix(p);
      if shadows {
        return Nil;
      }
      i := i + 1;
    }
    return Nil;
  }

  /** The first value that fetch finds among trees in order, ignoring their defaults. */
  function FirstFetch(ts: seq<Tree>, p: KeyPath): (r: Option<Value>)
    reads ts
    ensures r.None? <==> forall j :: 0 <= j < |ts| ==> !IsLeafAt(ts[j].hash, p)
  {
    if ts == [] then None
    else if IsLeafAt(ts[0].hash, p) then LeafAt(ts[0].hash, p)
    else
      var r := FirstFetch(ts[1..], p);
      assert forall j :: 1 <= j < |ts| ==> ts[j] == ts[1..][j - 1];
      r
  }

  /** The first tree holding a leaf at p gives the value of fetch. */
  lemma {:induction false} FirstFetchIs(ts: seq<Tree>, p: KeyPath, i: nat)
    requires i < |ts| && IsLeafAt(ts[i].hash, p)
    requires forall j :: 0 <= j < i ==> !IsLeafAt(ts[j].hash, p)
    ensures FirstFetch(ts, p) == LeafAt(ts[i].hash, p)
  {
    if i > 0 {
      assert !IsLeafAt(ts[0].hash, p);
      FirstFetchIs(ts[1..], p, i - 1);
    }
  }

  /**
   * forest.fetch(p, *default, &block): tree.fetch on each tree in turn;
   * then the block, the default, or KeyError.
   */
  method Fetch(forest: seq<Wood>, p: KeyPath, d: Option<Value>, block: Option<KeyPath -> Value>) returns (r: Result<Value>)
    ensures FirstFetch(LevelOrder(forest), p).Some? ==> r == Ok(FirstFetch(LevelOrder(forest), p).value)
    ensures r.KeyError? <==> FirstFetch(LevelOrder(forest), p).None? && block.None? && d.None?
    ensures FirstFetch(LevelOrder(forest), p).None? && block.Some? ==> r == Ok(block.value(p))
    ensures FirstFetch(LevelOrder(forest), p).None? && block.None? && d.Some? ==> r == Ok(d.value)
  {
    var ts := EnumTrees(forest);
    var i := 0;
    while i < |ts|
      invariant 0 <= i <= |ts|
      invariant FirstFetch(ts[i..], p) == FirstFetch(ts, p)
    {
      assert ts[i..][1..] == ts[i + 1..];
      var found := ts[i].Fetch(p, None, None);
      if found.Ok? {
        return found;
      }
      i := i + 1;
    }
    if block.Some? {
      return Ok(block.value(p));
    }
    if d.Some? {
      return Ok(d.value);
    }
    return KeyError;
  }

  // ---------------------------------------------------------------------
  // Existential tests
  // ---------------------------------------------------------------------

  /** Some tree answers include?(p) (Tree's include? is also its key? and key_path?). */
  function AnyKeyPath(ts: seq<Tree>, p: KeyPath): (b: bool)
    reads ts
    ensures b <==> exists j :: 0 <= j < |ts| && IsLeafAt(ts[j].hash, p)
  {
    if ts == [] then false
    else
      var b := ts[0].IsKeyPath(p) || AnyKeyPath(ts[1..], p);
      assert forall j :: 1 <= j < |ts| ==> ts[j] == ts[1..][j - 1];
      b
  }

  /** Some tree answers prefix?(p). */
  function AnyPrefix(ts: seq<Tree>, p: KeyPath): (b: bool)
    reads ts
    ensures b <==> exists j :: 0 <= j < |ts| && Resolve(ts[j].hash, p).Some?
  {
    if ts == [] then false
    else
      var b := Resolve(ts[0].hash, p).Some? || AnyPrefix(ts[1..], p);
      assert forall j :: 1 <= j < |ts| ==> ts[j] == ts[1..][j - 1];
      b
  }

  /** forest.key_path?(p), also key?(p): some tree of the forest has a leaf at p. */
  function HasKeyPath(forest: seq<Wood>, p: KeyPath): (b: bool)
    reads LevelOrder(forest)
    ensures b <==> exists t :: t in LevelOrder(forest) && IsLeafAt(t.hash, p)
  {
    AnyKeyPath(LevelOrder(forest), p)
  }

  /** forest.prefix?(p): some tree of the forest has p as a path. */
  function HasPrefix(forest: seq<Wood>, p: KeyPath): (b: bool)
    reads LevelOrder(forest)
    ensures b <==> exists t :: t in LevelOrder(forest) && Resolve(t.hash, p).Some?
  {
    AnyPrefix(LevelOrder(forest), p)
  }

  /** The argument of include?: a tree or forest, or anything with to_key_path. */
  datatype Needle = WoodNeedle(wood: Wood) | KeyNeedle(key: KeySource)

  /** forest.include?(x): entry membership for a tree or forest, key_path? otherwise. */
  function Include(forest: seq<Wood>, x: Needle): (b: bool)
    reads LevelOrder(forest)
    ensures x.WoodNeedle? ==> (b <==> exists i :: 0 <= i < |forest| && forest[i] == x.wood)
    ensures x.KeyNeedle? ==> (b <==> exists t :: t in LevelOrder(forest) && IsLeafAt(t.hash, ToKeyPath(x.key)))
  {
    match x
    case WoodNeedle(w) => w in forest
    case KeyNeedle(k) => HasKeyPath(forest, ToKeyPath(k))
  }

  /** The key paths of all trees in order, shadowed ones included. */
  function KeyPathsOf(ts: seq<Tree>): (r: set<KeyPath>)
    requires forall j :: 0 <= j < |ts| ==> ts[j].Valid()
    reads ts
    ensures forall p :: p in r <==> AnyKeyPath(ts, p)
  {
    if ts == [] then {}
    else
      assert ts[0].Valid();
      var r := (set q | q in LeafPaths(Deep(ts[0].hash, []))) + KeyPathsOf(ts[1..]);
      assert forall p :: p in r <==> AnyKeyPath(ts, p) by {
        forall p ensures p in r <==> AnyKeyPath(ts, p) {
          KeyPathsAreLeaves(ts[0].hash, p);
        }
      }
      r
  }

  /** forest.key_paths: the set of every tree's key paths. */
  function KeyPaths(forest: seq<Wood>): (r: set<KeyPath>)
    requires forall t :: t in LevelOrder(forest) ==> t.Valid()
    reads LevelOrder(forest)
    ensures forall p :: p in r <==> HasKeyPath(forest, p)
  {
    KeyPathsOf(LevelOrder(forest))
  }

  // ---------------------------------------------------------------------
  // flatten
  // ---------------------------------------------------------------------

  /** The hash of flatten: the trees merged in reverse order, so the first tree is merged last. */
  function Flattened(ts: seq<Tree>, block: Option<Combiner<Sym>>): Entries<Sym>
    reads ts
  {
    if ts == [] then Empty else DeepMerge(Flattened(ts[1..], block), ts[0].hash, [], block)
  }

  lemma {:induction false} FlattenedWF(ts: seq<Tree>, block: Option<Combiner<Sym>>)
    requires forall j :: 0 <= j < |ts| ==> ts[j].Valid()
    requires KeepsWF(block)
    ensures WF(Flattened(ts, block))
  {
    if ts != [] {
      assert ts[0].Valid();
      FlattenedWF(ts[1..], block);
      MergeWF(Flattened(ts[1..], block), ts[0].hash, [], block);
    }
  }

  /** Flattening one tree gives its hash. */
  lemma FlattenSingle(t: Tree, block: Option<Combiner<Sym>>)
    requires t.Valid()
    ensures Flattened([t], block) == t.hash
  {
    MergeIntoEmpty(t.hash, [], block);
  }

  /**
   * Without a block, the leaf of the first tree that has one at p wins,
   * provided the trees before it have nothing at p and no leaf above it.
   */
  lemma {:induction false} FlattenFirstWins(ts: seq<Tree>, p: KeyPath, i: nat, v: Value)
    requires forall j :: 0 <= j < |ts| ==> ts[j].Valid()
    requires i < |ts| && Resolve(ts[i].hash, p) == Some(Leaf(v))
    requires forall j :: 0 <= j < i ==> Resolve(ts[j].hash, p).None? && !Blocked(ts[j].hash, p)
    ensures Resolve(Flattened(ts, None), p) == Some(Leaf(v))
  {
    assert ts[0].Valid();
    if i == 0 {
      MergeRightLeafWins(Flattened(ts[1..], None), ts[0].hash, [], p, v);
    } else {
      assert Resolve(ts[0].hash, p).None? && !Blocked(ts[0].hash, p);
      FlattenFirstWins(ts[1..], p, i - 1, v);
      MergeLeftLeafKept(Flattened(ts[1..], None), ts[0].hash, [], None, p, v);
    }
  }

  /** forest.flatten(&merger): merge! of every tree, last first, into a new empty tree. */
  method Flatten(forest: seq<Wood>, block: Option<Combiner<Sym>>) returns (acc: Tree)
    requires forall t :: t in LevelOrder(forest) ==> t.Valid()
    requires KeepsWF(block)
    ensures fresh(acc) && acc.Valid()
    ensures acc.hash == Flattened(LevelOrder(forest), block)
    ensures acc.default == Nil && acc.defaultProc.None?
  {
    var ts := LevelOrder(forest);
    assert allocated(ts);
    acc := new Tree.Init(Empty, Nil, None);
    assert acc !in ts;
    var i := |ts|;
    while i > 0
      invariant 0 <= i <= |ts|
      invariant fresh(acc) && acc.Valid()
      invariant acc.hash == Flattened(ts[i..], block)
      invariant acc.default == Nil && acc.defaultProc.None?
      invariant acc !in ts && forall t :: t in ts ==> t.Valid()
    {
      i := i - 1;
      assert ts[i..][1..] == ts[i + 1..];
      acc.MergeBang(ts[i], block);
    }
  }

  // ---------------------------------------------------------------------
  // Shadowing
  // ---------------------------------------------------------------------

  /** A tree holding an empty hash at a does not shadow a.b in a later tree. */
  lemma AncestorDoesNotShadow(upper: Tree, lower: Tree)
    requires upper.hash == Entry("a", Hash(Empty), Empty)
    requires upper.default == Nil && upper.defaultProc.None?
    requires lower.hash == Entry("a", Hash(Entry("b", Leaf(Int(1)), Empty)), Empty)
    ensures Lookup([upper, lower], ["a", "b"]) == Int(1)
  {
    WalkStep(upper.hash, ["a", "b"]);
    WalkStep(lower.hash, ["a", "b"]);
    assert [upper, lower][1..] == [lower];
  }

  /** A tree holding a subtree at a.b shadows the leaf at a.b of a later tree. */
  lemma SubtreeShadows(upper: Tree, lower: Tree)
    requires upper.hash == Entry("a", Hash(Entry("b", Hash(Empty), Empty)), Empty)
    requires upper.default == Nil && upper.defaultProc.None?
    requires lower.hash == Entry("a", Hash(Entry("b", Leaf(Int(1)), Empty)), Empty)
    ensures Lookup([upper, lower], ["a", "b"]) == Nil
    ensures FirstFetch([upper, lower], ["a", "b"]) == Some(Int(1))
  {
    WalkStep(upper.hash, ["a", "b"]);
    WalkStep(lower.hash, ["a", "b"]);
    assert [upper, lower][1..] == [lower];
  }
}

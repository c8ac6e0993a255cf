/**
 * KeyTree::Tree: a nested hash with symbol keys, a default value and an
 * optional default proc. Every operation takes a key path that the caller
 * has converted with to_key_path (Paths.ToKeyPath).
 */
module Trees {
  import opened Wrappers
  import opened Paths
  import opened DeepHash
  import opened DeepHashProps

  /** The default proc of a tree: called with the tree's hash and the key path that missed. */
  type DefaultProc = (Entries<Sym>, KeyPath) -> Value

  // ---------------------------------------------------------------------
  // delete! and store! on hash values
  // ---------------------------------------------------------------------

  /**
   * delete!(p): deep_delete(p), and while that raises, the same with the
   * last segment of the path dropped.
   */
  function DeleteTrimmed(es: Entries<Sym>, p: KeyPath): (Entries<Sym>, Option<Node<Sym>>)
    decreases |p|
  {
    if |p| <= 1 then DeepDelete(es, p).value
    else
      match DeepDelete(es, p)
      case Ok(res) => res
      case KeyError => DeleteTrimmed(es, p[..|p| - 1])
  }

  /** How much of p delete! ends up deleting: one segment past the hashes it leads through. */
  function TrimLength(es: Entries<Sym>, p: KeyPath): nat
  {
    var d := HashDepth(es, p);
    if d + 1 < |p| then d + 1 else |p|
  }

  /**
   * store!(p, v): deep_store(p, v); if that raises, delete!(p) and store
   * again, which then succeeds.
   */
  function StoreForced(es: Entries<Sym>, p: KeyPath, v: Node<Sym>): Entries<Sym>
    requires WF(es) && |p| > 0
  {
    match DeepStore(es, p, v)
    case Ok(r) => r
    case KeyError =>
      StoreFailsIffBlocked(es, p, v);
      TrimUnblocks(es, p, v);
      DeepStore(DeleteTrimmed(es, p).0, p, v).value
  }

  /** delete! deletes at the path cut to TrimLength, and that deletion succeeds. */
  lemma {:induction false} DeleteTrimmedCuts(es: Entries<Sym>, p: KeyPath)
    ensures DeepDelete(es, p[..TrimLength(es, p)]).Ok?
    ensures DeleteTrimmed(es, p) == DeepDelete(es, p[..TrimLength(es, p)]).value
    decreases |p|
  {
    var c := TrimLength(es, p);
    DeleteFailsIff(es, p);
    if |p| <= 1 || DeepDelete(es, p).Ok? {
      assert p[..c] == p;
    } else {
      var p' := p[..|p| - 1];
      HashDepthPrefix(es, p, |p| - 1);
      DeleteTrimmedCuts(es, p');
      assert p'[..TrimLength(es, p')] == p[..c];
    }
  }

  /** After delete!, nothing is left at the path. */
  lemma DeleteTrimmedMisses(es: Entries<Sym>, p: KeyPath)
    requires WF(es) && |p| >= 1
    ensures Resolve(DeleteTrimmed(es, p).0, p).None?
    ensures WF(DeleteTrimmed(es, p).0)
  {
    DeleteTrimmedCuts(es, p);
    var c := TrimLength(es, p);
    var r := DeleteTrimmed(es, p).0;
    DeleteResult(es, p[..c]);
    if c < |p| {
      BeyondNonHash(r, p[..c], p);
    } else {
      assert p[..c] == p;
    }
  }

  /** delete! changes nothing at a path that diverges from its argument. */
  lemma DeleteTrimmedFrame(es: Entries<Sym>, p: KeyPath, q: KeyPath)
    requires WF(es) && Diverge(p, q)
    ensures Resolve(DeleteTrimmed(es, p).0, q) == Resolve(es, q)
  {
    DeleteTrimmedCuts(es, p);
    var c := TrimLength(es, p);
    var cut := p[..c];
    var r := DeleteTrimmed(es, p).0;
    PrefixOrder(p, cut, q);
    if c == |p| {
      assert cut == p;
      DeleteFrame(es, p, q);
    } else if IsPrefix(q, cut) {
      HashDepthMeans(es, p, c);
      BeyondNonHash(es, cut, q);
      if |cut| >= 1 {
        DeleteResult(es, cut);
        BeyondNonHash(r, cut, q);
      }
    } else {
      DeleteFrame(es, cut, q);
    }
  }

  /** When a leaf blocks the path, delete! removes it, so that the store that follows succeeds. */
  lemma TrimUnblocks(es: Entries<Sym>, p: KeyPath, v: Node<Sym>)
    requires WF(es) && |p| > 0 && Blocked(es, p)
    ensures DeepStore(DeleteTrimmed(es, p).0, p, v).Ok?
  {
    BlockedMeans(es, p);
    var i :| 0 < i < |p| && IsLeafAt(es, p[..i]);
    forall j | 0 <= j < i ensures IsHashAt(es, p[..j]) {
      WalkThroughHashes(es, p[..i], j);
      assert p[..i][..j] == p[..j];
    }
    HashDepthMeans(es, p, i - 1);
    HashDepthMeans(es, p, i);
    assert TrimLength(es, p) == i;
    DeleteTrimmedCuts(es, p);
    var r := DeleteTrimmed(es, p).0;
    DeleteResult(es, p[..i]);
    assert p[..i][..i - 1] == p[..i - 1];
    forall j | 0 < j < |p| ensures !IsLeafAt(r, p[..j]) {
      if j < i - 1 {
        WalkThroughHashes(r, p[..i - 1], j);
        assert p[..i - 1][..j] == p[..j];
      } else if j > i {
        BeyondNonHash(r, p[..i], p[..j]);
      }
    }
    BlockedMeans(r, p);
    StoreFailsIffBlocked(r, p, v);
  }

  /**
   * After store!, the path leads to the stored value through hashes, and
   * nothing changed at any path that diverges from it.
   */
  lemma StoreForcedResult(es: Entries<Sym>, p: KeyPath, v: Node<Sym>, q: KeyPath)
    requires WF(es) && |p| > 0 && NodeWF(v)
    ensures Resolve(StoreForced(es, p, v), p) == Some(v)
    ensures forall i :: 0 <= i < |p| ==> IsHashAt(StoreForced(es, p, v), p[..i])
    ensures Diverge(p, q) ==> Resolve(StoreForced(es, p, v), q) == Resolve(es, q)
    ensures WF(StoreForced(es, p, v))
  {
    var r := StoreForced(es, p, v);
    if DeepStore(es, p, v).Ok? {
      StoreResolves(es, p, v);
      StoreWF(es, p, v);
      if Diverge(p, q) {
        StoreFrame(es, p, v, q);
      }
    } else {
      StoreFailsIffBlocked(es, p, v);
      TrimUnblocks(es, p, v);
      var t := DeleteTrimmed(es, p).0;
      DeleteTrimmedMisses(es, p);
      StoreResolves(t, p, v);
      StoreWF(t, p, v);
      if Diverge(p, q) {
        DeleteTrimmedFrame(es, p, q);
        StoreFrame(t, p, v, q);
      }
    }
    forall i | 0 <= i < |p| ensures IsHashAt(r, p[..i]) {
      WalkThroughHashes(r, p, i);
    }
  }

  /** After store! of a leaf, nothing resolves below the path any more. */
  lemma StoreForcedPrunes(es: Entries<Sym>, p: KeyPath, x: Value, q: KeyPath)
    requires WF(es) && |p| > 0 && IsPrefix(q, p) && q != p
    ensures Resolve(StoreForced(es, p, Leaf(x)), q).None?
  {
    StoreForcedResult(es, p, Leaf(x), q);
    BeyondNonHash(StoreForced(es, p, Leaf(x)), p, q);
  }

  // ---------------------------------------------------------------------
  // The tree object
  // ---------------------------------------------------------------------

  class Tree {
    var hash: Entries<Sym>
    var default: Value
    var defaultProc: Option<DefaultProc>

    /** Every Hash of the tree has distinct keys. */
    ghost predicate Valid()
      reads this
    {
      WF(hash)
    }

    /** Sets the three instance variables of a new tree. */
    constructor Init(h: Entries<Sym>, d: Value, proc: Option<DefaultProc>)
      requires WF(h)
      ensures Valid() && hash == h && default == d && defaultProc == proc
    {
      hash := h;
      default := d;
      defaultProc := proc;
    }

    /**
     * Tree.new(hash, default, &default_proc): the hash converted by
     * deep_key_pathify, which may raise KeyError. Tree[hash] is
     * New(hash, Nil, None).
     */
    static method New(h: Entries<KeySource>, d: Value, proc: Option<DefaultProc>) returns (r: Result<Tree>)
      requires NoEmptyKeyPaths(h)
      ensures r.KeyError? <==> Pathify(h).KeyError?
      ensures r.Ok? ==> fresh(r.value) && r.value.Valid() && r.value.hash == Pathify(h).value
      ensures r.Ok? ==> r.value.default == d && r.value.defaultProc == proc
    {
      var converted := KeyPathify(h);
      if converted.KeyError? {
        return KeyError;
      }
      PathifyWF(Empty, h);
      var t := new Tree.Init(converted.value, d, proc);
      return Ok(t);
    }

    /**
     * fetch_default(p, *default, &block): the leaf value at p; on a miss the
     * default proc, else the block, else the default, else KeyError.
     */
    function FetchDefault(p: KeyPath, d: Option<Value>, block: Option<KeyPath -> Value>): (r: Result<Value>)
      reads this
      ensures LeafAt(hash, p).Some? ==> r == Ok(LeafAt(hash, p).value)
      ensures r.KeyError? <==> LeafAt(hash, p).None? && defaultProc.None? && block.None? && d.None?
      ensures LeafAt(hash, p).None? && defaultProc.Some? ==> r == Ok(defaultProc.value(hash, p))
      ensures LeafAt(hash, p).None? && defaultProc.None? && block.Some? ==> r == Ok(block.value(p))
      ensures LeafAt(hash, p).None? && defaultProc.None? && block.None? && d.Some? ==> r == Ok(d.value)
    {
      match LeafAt(hash, p)
      case Some(v) => Ok(v)
      case None =>
        if defaultProc.Some? then Ok(defaultProc.value(hash, p))
        else if block.Some? then Ok(block.value(p))
        else if d.Some? then Ok(d.value)
        else KeyError
    }

    /** tree[p]: never raises; a miss gives the default proc's value or the default. */
    function Get(p: KeyPath): (v: Value)
      reads this
      ensures LeafAt(hash, p).Some? ==> v == LeafAt(hash, p).value
      ensures LeafAt(hash, p).None? ==> v == if defaultProc.Some? then defaultProc.value(hash, p) else default
    {
      FetchDefault(p, Some(default), None).value
    }

    /** fetch(p, *default, &block): deep_fetch on the hash; the tree's defaults play no part. */
    function Fetch(p: KeyPath, d: Option<Value>, block: Option<KeyPath -> Value>): (r: Result<Value>)
      reads this
      ensures r.KeyError? <==> !IsLeafAt(hash, p) && d.None? && block.None?
      ensures IsLeafAt(hash, p) ==> r == Ok(LeafAt(hash, p).value)
      ensures !IsLeafAt(hash, p) && block.Some? ==> r == Ok(block.value(p))
      ensures !IsLeafAt(hash, p) && block.None? && d.Some? ==> r == Ok(d.value)
    {
      DeepFetch(hash, p, d, block)
    }

    /** values_at(p1, p2, ...): tree[p] for each path. */
    function ValuesAt(ps: seq<KeyPath>): (vs: seq<Value>)
      reads this
      ensures |vs| == |ps| && forall i :: 0 <= i < |ps| ==> vs[i] == Get(ps[i])
    {
      if ps == [] then [] else [Get(ps[0])] + ValuesAt(ps[1..])
    }

    /** include?(p), also key? and key_path?: whether fetch(p) would find a value. */
    function IsKeyPath(p: KeyPath): (b: bool)
      reads this
      ensures b <==> IsLeafAt(hash, p)
    {
      Fetch(p, None, None).Ok?
    }

    /** value?(x): whether deep yields a value == to x, Hash#== ignoring key order. */
    function HasValue(x: Node<Sym>): (b: bool)
      requires Valid()
      reads this
      ensures b <==> exists q :: q != [] && Resolve(hash, q).Some? && NodeEq(Resolve(hash, q).value, x)
      ensures (exists q :: q != [] && Resolve(hash, q) == Some(x)) ==> b
    {
      DeepValuesEq(hash, x);
      exists i :: 0 <= i < |Deep(hash, [])| && NodeEq(Deep(hash, [])[i].1, x)
    }

    /** keys (also key_paths): the key paths of deep whose value is not a Hash, in order. */
    method Keys() returns (ks: seq<KeyPath>)
      requires Valid()
      ensures ks == LeafPaths(Deep(hash, []))
      ensures forall p :: p in ks <==> IsLeafAt(hash, p)
    {
      var pairs := Deep(hash, []);
      ks := [];
      var i := 0;
      while i < |pairs|
        invariant 0 <= i <= |pairs|
        invariant ks == LeafPaths(pairs[..i])
      {
        assert pairs[..i + 1][..i] == pairs[..i];
        if !pairs[i].1.Hash? {
          ks := ks + [pairs[i].0];
        }
        i := i + 1;
      }
      assert pairs[..i] == pairs;
      forall p ensures p in ks <==> IsLeafAt(hash, p) {
        KeyPathsAreLeaves(hash, p);
      }
    }

    /**
     * prefix?(p): walks p from the root; false as soon as a step is not a
     * Hash or lacks the key.
     */
    method Prefix(p: KeyPath) returns (b: bool)
      ensures b <==> Resolve(hash, p).Some?
    {
      var subtree := Hash(hash);
      var i := 0;
      while i < |p|
        invariant 0 <= i <= |p|
        invariant Resolve(hash, p[..i]) == Some(subtree)
      {
        WalkConcat(Hash(hash), p[..i], p[i..]);
        assert p[..i] + p[i..] == p;
        if !subtree.Hash? {
          return false;
        }
        var next := DeepHash.Get(subtree.entries, p[i]);
        if next.None? {
          return false;
        }
        WalkConcat(Hash(hash), p[..i], [p[i]]);
        assert p[..i] + [p[i]] == p[..i + 1];
        subtree := next.value;
        i := i + 1;
      }
      assert p[..i] == p;
      return true;
    }

    /** store(p, v): deep_store on the hash; on KeyError the tree is unchanged. */
    method Store(p: KeyPath, v: Node<Sym>) returns (r: Result<Node<Sym>>)
      requires Valid() && |p| > 0 && NodeWF(v)
      modifies this`hash
      ensures Valid()
      ensures r.KeyError? <==> Blocked(old(hash), p)
      ensures r.Ok? ==> r.value == v && old(DeepStore(hash, p, v)) == Ok(hash)
      ensures r.KeyError? ==> hash == old(hash)
    {
      StoreFailsIffBlocked(hash, p, v);
      var stored := DeepStore(hash, p, v);
      if stored.KeyError? {
        return KeyError;
      }
      StoreWF(hash, p, v);
      hash := stored.value;
      return Ok(v);
    }

    /** store!(p, v), also tree[p] = v: stores v, deleting whatever leaf stands in the way. */
    method StoreBang(p: KeyPath, v: Node<Sym>) returns (r: Node<Sym>)
      requires Valid() && |p| > 0 && NodeWF(v)
      modifies this`hash
      ensures Valid() && r == v
      ensures hash == StoreForced(old(hash), p, v)
    {
      var res := Store(p, v);
      while res.KeyError?
        invariant Valid()
        invariant res.KeyError? ==> hash == old(hash) && Blocked(hash, p)
        invariant res.Ok? ==> hash == StoreForced(old(hash), p, v)
        decreases if res.KeyError? then 1 else 0
      {
        var _ := DeleteBang(p);
        TrimUnblocks(old(hash), p, v);
        StoreFailsIffBlocked(hash, p, v);
        StoreFailsIffBlocked(old(hash), p, v);
        res := Store(p, v);
      }
      r := v;
    }

    /** delete(p): deep_delete on the hash; on KeyError the tree is unchanged. */
    method Delete(p: KeyPath) returns (r: Result<Option<Node<Sym>>>)
      requires Valid()
      modifies this`hash
      ensures Valid()
      ensures r.KeyError? <==> old(DeepDelete(hash, p)).KeyError?
      ensures r.Ok? ==> old(DeepDelete(hash, p)) == Ok((hash, r.value))
      ensures r.KeyError? ==> hash == old(hash)
    {
      var res := DeepDelete(hash, p);
      if res.KeyError? {
        return KeyError;
      }
      if |p| >= 1 {
        DeleteResult(hash, p);
      }
      hash := res.value.0;
      return Ok(res.value.1);
    }

    /** delete!(p): delete(p), retried with one segment fewer while it raises. */
    method DeleteBang(p: KeyPath) returns (r: Option<Node<Sym>>)
      requires Valid()
      modifies this`hash
      ensures Valid()
      ensures (hash, r) == DeleteTrimmed(old(hash), p)
    {
      ghost var h0 := hash;
      var q := p;
      DeleteFailsIff(h0, q);
      var res := Delete(q);
      while res.KeyError?
        invariant Valid()
        invariant res.KeyError? ==> hash == h0 && DeepDelete(h0, q).KeyError? && |q| >= 2 && DeleteTrimmed(h0, q) == DeleteTrimmed(h0, p)
        invariant res.Ok? ==> (hash, res.value) == DeleteTrimmed(h0, p)
        decreases |q|
      {
        q := q[..|q| - 1];
        DeleteFailsIff(h0, q);
        res := Delete(q);
        if res.Ok? {
          assert DeepDelete(h0, q) == Ok((hash, res.value));
        }
      }
      return res.value;
    }

    /** merge!(other, &block), also <<: deep_merge! of the other tree's hash into this one. */
    method MergeBang(other: Tree, block: Option<Combiner<Sym>>)
      requires Valid() && other.Valid() && KeepsWF(block)
      modifies this`hash
      ensures Valid()
      ensures hash == DeepMerge(old(hash), old(other.hash), [], block)
    {
      MergeWF(hash, other.hash, [], block);
      hash := DeepMerge(hash, other.hash, [], block);
    }

    /**
     * merge(other, &block), also +: a new tree built from the merged hash by
     * to_key_tree, so it is pathified again and has no default or proc.
     */
    method Merge(other: Tree, block: Option<Combiner<Sym>>) returns (r: Result<Tree>)
      requires NoEmptyKeyPaths(Lift(DeepMerge(hash, other.hash, [], block)))
      ensures r.KeyError? <==> Pathify(Lift(DeepMerge(hash, other.hash, [], block))).KeyError?
      ensures r.Ok? ==> fresh(r.value) && r.value.Valid()
      ensures r.Ok? ==> r.value.hash == Pathify(Lift(DeepMerge(hash, other.hash, [], block))).value
      ensures r.Ok? ==> r.value.default == Nil && r.value.defaultProc.None?
    {
      var merged := DeepMerge(hash, other.hash, [], block);
      r := New(Lift(merged), Nil, None);
    }
  }

  /** value? compares hashes as Hash#== does: {x: {a: 1, b: 2}} has the value {b: 2, a: 1}. */
  lemma HasValueReordered(t: Tree)
    requires t.hash == Entry("x", Hash(Entry("a", Leaf(Int(1)), Entry("b", Leaf(Int(2)), Empty))), Empty)
    ensures t.Valid()
    ensures t.HasValue(Hash(Entry("b", Leaf(Int(2)), Entry("a", Leaf(Int(1)), Empty))))
  {
    var inner := Hash(Entry("a", Leaf(Int(1)), Entry("b", Leaf(Int(2)), Empty)));
    var needle := Hash(Entry("b", Leaf(Int(2)), Entry("a", Leaf(Int(1)), Empty)));
    assert Resolve(t.hash, ["x"]) == Some(inner);
    assert NodeEq(inner, needle);
  }

  /**
   * Merging two trees whose keys are plain segments gives exactly the deep
   * merge of their hashes: the re-conversion changes nothing.
   */
  lemma MergeOfPlainTrees(l: Entries<Sym>, r: Entries<Sym>)
    requires WF(l) && WF(r) && Plain(l) && Plain(r)
    ensures NoEmptyKeyPaths(Lift(DeepMerge(l, r, [], None)))
    ensures Pathify(Lift(DeepMerge(l, r, [], None))) == Ok(DeepMerge(l, r, [], None))
  {
    MergeWF(l, r, [], None);
    MergePlain(l, r, []);
    PathifyRoundTrip(DeepMerge(l, r, [], None));
  }

  /**
   * Without a block, every key path of the other tree is a key path of the
   * merged tree, with the other tree's value.
   */
  lemma MergeKeepsOtherLeaves(l: Entries<Sym>, r: Entries<Sym>, p: KeyPath, v: Value)
    requires WF(l) && WF(r) && Plain(l) && Plain(r)
    requires Resolve(r, p) == Some(Leaf(v))
    ensures NoEmptyKeyPaths(Lift(DeepMerge(l, r, [], None)))
    ensures Pathify(Lift(DeepMerge(l, r, [], None))).Ok?
    ensures Resolve(Pathify(Lift(DeepMerge(l, r, [], None))).value, p) == Some(Leaf(v))
  {
    MergeOfPlainTrees(l, r);
    MergeRightLeafWins(l, r, [], p, v);
  }

  /**
   * Without plain keys a merge can lose a key path of the other tree: the
   * segment "a.b", stored as one key by an Array path, is re-pathified into
   * a -> b.
   */
  lemma MergeLosesDottedSegment()
    ensures var r := Entry("a.b", Leaf(Int(1)), Empty);
            NoEmptyKeyPaths(Lift(DeepMerge(Empty, r, [], None))) &&
            Pathify(Lift(DeepMerge(Empty, r, [], None))).Ok? &&
            Resolve(r, ["a.b"]) == Some(Leaf(Int(1))) &&
            Resolve(Pathify(Lift(DeepMerge(Empty, r, [], None))).value, ["a.b"]).None? &&
            LeafAt(Pathify(Lift(DeepMerge(Empty, r, [], None))).value, ["a", "b"]) == Some(Int(1))
  {
    var r := Entry("a.b", Leaf(Int(1)), Empty);
    MergeIntoEmpty(r, [], None);
    assert Lift(DeepMerge(Empty, r, [], None)) == Entry(SymKey("a.b"), Leaf(Int(1)), Empty);
    var h := DottedSegmentPathified();
    assert Get(h, "a.b").None?;
  }

  /** The pathified form of {"a.b" => 1}, with "a.b" read as a Symbol. */
  lemma DottedSegmentPathified() returns (h: Entries<Sym>)
    ensures NoEmptyKeyPaths(Entry(SymKey("a.b"), Leaf(Int(1)), Empty))
    ensures h == Entry("a", Hash(Entry("b", Leaf(Int(1)), Empty)), Empty)
    ensures Pathify(Entry(SymKey("a.b"), Leaf(Int(1)), Empty)) == Ok(h)
  {
    DottedStringExample();
    PlainSymbol("a");
    var kp := ToKeyPath(SymKey("a.b"));
    assert kp == ["a", "b"];
    var inner := Entry("b", Leaf(Int(1)), Empty);
    h := Entry("a", Hash(inner), Empty);
    assert DeepStore(Empty, [kp[1]], Leaf(Int(1))) == Ok(inner);
    assert DeepStore(Empty, kp, Leaf(Int(1))) == Ok(h);
  }
}

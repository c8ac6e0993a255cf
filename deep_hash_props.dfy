/**
 * Properties of the deep_* operations on nested hashes.
 */
module DeepHashProps {
  import opened Wrappers
  import opened Paths
  import opened DeepHash

  // ---------------------------------------------------------------------
  // Hash primitives
  // ---------------------------------------------------------------------

  lemma {:induction false} GetPut<K>(es: Entries<K>, k: K, v: Node<K>, k': K)
    ensures Get(Put(es, k, v), k') == if k' == k then Some(v) else Get(es, k')
  {
    if es.Entry? {
      GetPut(es.rest, k, v, k');
    }
  }

  lemma {:induction false} GetRemove<K>(es: Entries<K>, k: K, k': K)
    requires Unique(es)
    ensures Get(Remove(es, k), k') == if k' == k then None else Get(es, k')
  {
    if es.Entry? {
      GetRemove(es.rest, k, k');
    }
  }

  lemma {:induction false} PutWF<K>(es: Entries<K>, k: K, v: Node<K>)
    requires WF(es) && NodeWF(v)
    ensures WF(Put(es, k, v))
  {
    if es.Entry? {
      PutWF(es.rest, k, v);
      GetPut(es.rest, k, v, es.key);
    }
  }

  lemma {:induction false} PutUnique<K>(es: Entries<K>, k: K, v: Node<K>)
    requires Unique(es)
    ensures Unique(Put(es, k, v))
  {
    if es.Entry? {
      PutUnique(es.rest, k, v);
      GetPut(es.rest, k, v, es.key);
    }
  }

  lemma {:induction false} RemoveWF<K>(es: Entries<K>, k: K)
    requires WF(es)
    ensures WF(Remove(es, k))
  {
    if es.Entry? {
      RemoveWF(es.rest, k);
      WFUnique(es.rest);
      GetRemove(es.rest, k, es.key);
    }
  }

  lemma {:induction false} WFUnique<K>(es: Entries<K>)
    requires WF(es)
    ensures Unique(es)
  {
    if es.Entry? {
      WFUnique(es.rest);
    }
  }

  /** A key absent from the hash is appended at the end. */
  lemma {:induction false} PutAppends<K>(es: Entries<K>, k: K, v: Node<K>)
    requires Get(es, k).None?
    ensures Put(es, k, v) == Append(es, Entry(k, v, Empty))
  {
    if es.Entry? {
      PutAppends(es.rest, k, v);
    }
  }

  lemma {:induction false} AppendAssoc<K>(a: Entries<K>, b: Entries<K>, c: Entries<K>)
    ensures Append(Append(a, b), c) == Append(a, Append(b, c))
  {
    if a.Entry? {
      AppendAssoc(a.rest, b, c);
    }
  }

  lemma {:induction false} AppendEmpty<K>(a: Entries<K>)
    ensures Append(a, Empty) == a
  {
    if a.Entry? {
      AppendEmpty(a.rest);
    }
  }

  lemma {:induction false} GetAppend<K>(a: Entries<K>, b: Entries<K>, k: K)
    ensures Get(Append(a, b), k) == if Get(a, k).Some? then Get(a, k) else Get(b, k)
  {
    if a.Entry? {
      GetAppend(a.rest, b, k);
    }
  }

  lemma {:induction false} GetKeys<K>(es: Entries<K>, k: K)
    ensures Get(es, k).Some? <==> k in Keys(es)
  {
    if es.Entry? {
      GetKeys(es.rest, k);
    }
  }

  /** Hash#[]= keeps the order of the keys and appends a new one. */
  lemma {:induction false} KeysPut<K>(es: Entries<K>, k: K, v: Node<K>)
    ensures Keys(Put(es, k, v)) == if k in Keys(es) then Keys(es) else Keys(es) + [k]
  {
    if es.Entry? {
      KeysPut(es.rest, k, v);
    }
  }

  // ---------------------------------------------------------------------
  // Walking
  // ---------------------------------------------------------------------

  /** Walking p + q is walking p, then q from where p ends. */
  lemma {:induction false} WalkConcat<K>(n: Node<K>, p: seq<K>, q: seq<K>)
    ensures Walk(n, p + q) == match Walk(n, p) case None => None case Some(m) => Walk(m, q)
    decreases |p|
  {
    if p == [] {
      assert p + q == q;
    } else {
      assert (p + q)[0] == p[0];
      assert (p + q)[1..] == p[1..] + q;
      if n.Hash? && Get(n.entries, p[0]).Some? {
        WalkConcat(Get(n.entries, p[0]).value, p[1..], q);
      }
    }
  }

  /** Every proper prefix of a path that resolves leads to a Hash. */
  lemma WalkThroughHashes<K>(es: Entries<K>, p: seq<K>, i: nat)
    requires Resolve(es, p).Some? && i < |p|
    ensures IsHashAt(es, p[..i])
  {
    WalkConcat(Hash(es), p[..i], p[i..]);
    assert p[..i] + p[i..] == p;
  }

  /** Nothing resolves beyond a path that does not lead to a Hash. */
  lemma BeyondNonHash<K>(es: Entries<K>, p: seq<K>, q: seq<K>)
    requires !IsHashAt(es, p) && IsPrefix(q, p) && q != p
    ensures Resolve(es, q).None?
  {
    assert q == p + q[|p|..];
    WalkConcat(Hash(es), p, q[|p|..]);
  }

  /** The first step of a walk from a hash. */
  lemma WalkStep<K>(es: Entries<K>, p: seq<K>)
    requires p != []
    ensures Resolve(es, p) == match Get(es, p[0]) case None => None case Some(c) => Walk(c, p[1..])
  {
  }

  /** A path with a Hash at depth i has one at every smaller depth. */
  lemma {:induction false} HashDepthMeans<K>(es: Entries<K>, p: seq<K>, i: nat)
    requires i <= |p|
    ensures IsHashAt(es, p[..i]) <==> i <= HashDepth(es, p)
    decreases |p|
  {
    if i > 0 {
      assert p[..i][0] == p[0];
      assert p[..i][1..] == p[1..][..i - 1];
      WalkStep(es, p[..i]);
      match Get(es, p[0])
      case Some(Hash(c)) => HashDepthMeans(c, p[1..], i - 1);
      case Some(Leaf(x)) =>
        assert i > 1 ==> Walk(Leaf(x), p[..i][1..]).None?;
      case None =>
    }
  }

  /** Two paths with the same first segment: one leads the other iff their tails do. */
  lemma PrefixTail<T>(p: seq<T>, q: seq<T>)
    requires p != [] && q != [] && p[0] == q[0]
    ensures IsPrefix(p, q) <==> IsPrefix(p[1..], q[1..])
  {
    assert q == [q[0]] + q[1..];
    if |q| <= |p| {
      assert p[..|q|] == [p[0]] + p[1..][..|q| - 1];
    }
  }

  /** A path of one segment is led by q exactly when q starts with that segment. */
  lemma PrefixSingle<T>(p: seq<T>, q: seq<T>)
    requires |p| == 1 && q != []
    ensures IsPrefix(q, p) <==> q[0] == p[0]
  {
    assert q[..1] == [q[0]];
  }

  // ---------------------------------------------------------------------
  // deep_fetch
  // ---------------------------------------------------------------------

  /** deep_fetch finds a value exactly at the paths that lead to a leaf. */
  lemma FetchHitsLeaves<K>(es: Entries<K>, p: seq<K>)
    ensures DeepFetch(es, p, None, None).Ok? <==> IsLeafAt(es, p)
    ensures IsLeafAt(es, p) ==> p != [] && forall i :: 0 <= i < |p| ==> IsHashAt(es, p[..i])
  {
    if IsLeafAt(es, p) {
      forall i | 0 <= i < |p| ensures IsHashAt(es, p[..i]) {
        WalkThroughHashes(es, p, i);
      }
    }
  }

  // ---------------------------------------------------------------------
  // deep_store
  // ---------------------------------------------------------------------

  /** deep_store fails exactly when a leaf blocks the path. */
  lemma {:induction false} StoreFailsIffBlocked<K>(es: Entries<K>, p: seq<K>, v: Node<K>)
    requires |p| > 0
    ensures DeepStore(es, p, v).KeyError? <==> Blocked(es, p)
    decreases |p|
  {
    if |p| > 1 {
      match Get(es, p[0])
      case None => StoreFailsIffBlocked(Empty, p[1..], v);
      case Some(Hash(c)) => StoreFailsIffBlocked(c, p[1..], v);
      case Some(Leaf(_)) =>
    }
  }

  /** Blocked means: some proper, non-empty prefix of p leads to a leaf. */
  lemma {:induction false} BlockedMeans<K>(es: Entries<K>, p: seq<K>)
    ensures Blocked(es, p) <==> exists i :: 0 < i < |p| && IsLeafAt(es, p[..i])
    decreases |p|
  {
    if |p| >= 2 {
      forall i | 0 < i < |p| ensures IsLeafAt(es, p[..i]) <==> match Get(es, p[0])
        case None => false
        case Some(c) => WalksToLeaf(c, p[1..][..i - 1])
      {
        assert p[..i][0] == p[0];
        assert p[..i][1..] == p[1..][..i - 1];
        WalkStep(es, p[..i]);
      }
      match Get(es, p[0])
      case None =>
      case Some(Leaf(x)) =>
        assert WalksToLeaf(Leaf(x), p[1..][..0]);
        assert 0 < 1 < |p| && IsLeafAt(es, p[..1]);
      case Some(Hash(c)) =>
        BlockedMeans(c, p[1..]);
        if Blocked(c, p[1..]) {
          var j :| 0 < j < |p| - 1 && IsLeafAt(c, p[1..][..j]);
          assert IsLeafAt(es, p[..j + 1]);
        }
    }
  }

  /** The node n leads to a leaf along p. */
  ghost predicate WalksToLeaf<K>(n: Node<K>, p: seq<K>)
  {
    Walk(n, p).Some? && Walk(n, p).value.Leaf?
  }

  /** After a successful deep_store the path leads to the stored value. */
  lemma {:induction false} StoreResolves<K>(es: Entries<K>, p: seq<K>, v: Node<K>)
    requires |p| > 0 && DeepStore(es, p, v).Ok?
    ensures Resolve(DeepStore(es, p, v).value, p) == Some(v)
    decreases |p|
  {
    var r := DeepStore(es, p, v).value;
    if |p| == 1 {
      GetPut(es, p[0], v, p[0]);
      WalkStep(Put(es, p[0], v), p);
      assert p[1..] == [];
    } else {
      var c := match Get(es, p[0]) case None => Empty case Some(n) => n.entries;
      StoreResolves(c, p[1..], v);
      GetPut(es, p[0], Hash(DeepStore(c, p[1..], v).value), p[0]);
    }
  }

  /** deep_store changes nothing at a path that diverges from the stored one. */
  lemma {:induction false} StoreFrame<K>(es: Entries<K>, p: seq<K>, v: Node<K>, q: seq<K>)
    requires |p| > 0 && DeepStore(es, p, v).Ok? && Diverge(p, q)
    ensures Resolve(DeepStore(es, p, v).value, q) == Resolve(es, q)
    decreases |p|
  {
    assert IsPrefix(p, []);
    if |p| == 1 {
      PrefixSingle(p, q);
      GetPut(es, p[0], v, q[0]);
    } else {
      var c := match Get(es, p[0]) case None => Empty case Some(n) => n.entries;
      var c' := DeepStore(c, p[1..], v).value;
      GetPut(es, p[0], Hash(c'), q[0]);
      if q[0] == p[0] {
        PrefixTail(p, q);
        PrefixTail(q, p);
        StoreFrame(c, p[1..], v, q[1..]);
        assert IsPrefix(p[1..], []);
      }
    }
  }

  /** deep_store keeps every Hash well formed. */
  lemma {:induction false} StoreWF<K>(es: Entries<K>, p: seq<K>, v: Node<K>)
    requires |p| > 0 && WF(es) && NodeWF(v) && DeepStore(es, p, v).Ok?
    ensures WF(DeepStore(es, p, v).value)
    decreases |p|
  {
    if |p| == 1 {
      PutWF(es, p[0], v);
    } else {
      var c := match Get(es, p[0]) case None => Empty case Some(n) => n.entries;
      GetWF(es, p[0]);
      StoreWF(c, p[1..], v);
      PutWF(es, p[0], Hash(DeepStore(c, p[1..], v).value));
    }
  }

  lemma {:induction false} GetWF<K>(es: Entries<K>, k: K)
    requires WF(es)
    ensures Get(es, k).Some? ==> NodeWF(Get(es, k).value)
  {
    if es.Entry? {
      GetWF(es.rest, k);
    }
  }

  // ---------------------------------------------------------------------
  // deep_delete
  // ---------------------------------------------------------------------

  /** deep_delete fails exactly when the parent of the path is not a Hash. */
  lemma {:induction false} DeleteFailsIff<K>(es: Entries<K>, p: seq<K>)
    ensures DeepDelete(es, p).KeyError? <==> |p| >= 2 && HashDepth(es, p) < |p| - 1
    ensures |p| >= 1 ==> (DeepDelete(es, p).KeyError? <==> !IsHashAt(es, p[..|p| - 1]))
    decreases |p|
  {
    if |p| >= 2 {
      match Get(es, p[0])
      case Some(Hash(c)) => DeleteFailsIff(c, p[1..]);
      case _ =>
    }
    if |p| >= 1 {
      HashDepthMeans(es, p, |p| - 1);
    }
  }

  /**
   * A successful deep_delete gives back the node that was at the path, and
   * afterwards the path leads nowhere while its parent is still a Hash.
   */
  lemma {:induction false} DeleteResult<K>(es: Entries<K>, p: seq<K>)
    requires WF(es) && |p| >= 1 && DeepDelete(es, p).Ok?
    ensures DeepDelete(es, p).value.1 == Resolve(es, p)
    ensures Resolve(DeepDelete(es, p).value.0, p).None?
    ensures IsHashAt(DeepDelete(es, p).value.0, p[..|p| - 1])
    ensures WF(DeepDelete(es, p).value.0)
    decreases |p|
  {
    var r := DeepDelete(es, p).value.0;
    WalkStep(es, p);
    WalkStep(r, p);
    WFUnique(es);
    if |p| == 1 {
      GetRemove(es, p[0], p[0]);
      RemoveWF(es, p[0]);
      assert p[..0] == [];
    } else {
      var c := Get(es, p[0]).value.entries;
      GetWF(es, p[0]);
      DeleteResult(c, p[1..]);
      var c' := DeepDelete(c, p[1..]).value.0;
      GetPut(es, p[0], Hash(c'), p[0]);
      PutWF(es, p[0], Hash(c'));
      assert p[..|p| - 1] == [p[0]] + p[1..][..|p| - 2];
      WalkStep(r, p[..|p| - 1]);
    }
  }

  /** deep_delete changes nothing at a path that diverges from the deleted one. */
  lemma {:induction false} DeleteFrame<K>(es: Entries<K>, p: seq<K>, q: seq<K>)
    requires WF(es) && DeepDelete(es, p).Ok? && Diverge(p, q)
    ensures Resolve(DeepDelete(es, p).value.0, q) == Resolve(es, q)
    decreases |p|
  {
    assert IsPrefix(p, []);
    var r := DeepDelete(es, p).value.0;
    WFUnique(es);
    if |p| == 1 {
      PrefixSingle(p, q);
      GetRemove(es, p[0], q[0]);
    } else if |p| >= 2 {
      var c := Get(es, p[0]).value.entries;
      var c' := DeepDelete(c, p[1..]).value.0;
      GetPut(es, p[0], Hash(c'), q[0]);
      if q[0] == p[0] {
        GetWF(es, p[0]);
        PrefixTail(p, q);
        PrefixTail(q, p);
        DeleteFrame(c, p[1..], q[1..]);
      }
    }
  }

  /** The hash depth of a leading part of p is that of p, cut to its length. */
  lemma {:induction false} HashDepthPrefix<K>(es: Entries<K>, p: seq<K>, m: nat)
    requires m <= |p|
    ensures HashDepth(es, p[..m]) == if m < HashDepth(es, p) then m else HashDepth(es, p)
    decreases |p|
  {
    if m > 0 {
      assert p[..m][0] == p[0];
      assert p[..m][1..] == p[1..][..m - 1];
      match Get(es, p[0])
      case Some(Hash(c)) => HashDepthPrefix(c, p[1..], m - 1);
      case _ =>
    }
  }

  // ---------------------------------------------------------------------
  // deep_merge
  // ---------------------------------------------------------------------

  /**
   * The value of a key after a merge: a key only one side has keeps that
   * side's value, and a key both have gets MergeValues of the two.
   */
  lemma {:induction false} MergeGet<K>(l: Entries<K>, r: Entries<K>, prefix: seq<K>, block: Option<Combiner<K>>, k: K)
    requires Unique(r)
    ensures Get(DeepMerge(l, r, prefix, block), k) ==
      match Get(r, k)
      case None => Get(l, k)
      case Some(rv) =>
        match Get(l, k)
        case None => Some(rv)
        case Some(lv) => Some(MergeValues(prefix + [k], lv, rv, block))
    decreases r
  {
    if r.Entry? {
      var v := match Get(l, r.key) case None => r.node case Some(lv) => MergeValues(prefix + [r.key], lv, r.node, block);
      MergeGet(Put(l, r.key, v), r.rest, prefix, block, k);
      GetPut(l, r.key, v, k);
    }
  }

  /** The keys of r that are not among the existing keys, in r's order. */
  function NewKeys<K(==)>(ks: seq<K>, existing: seq<K>): seq<K>
  {
    if ks == [] then []
    else (if ks[0] in existing then [] else [ks[0]]) + NewKeys(ks[1..], existing)
  }

  lemma {:induction false} NewKeysIgnore<K>(ks: seq<K>, existing: seq<K>, x: K)
    requires x !in ks
    ensures NewKeys(ks, existing + [x]) == NewKeys(ks, existing)
  {
    if ks != [] {
      NewKeysIgnore(ks[1..], existing, x);
    }
  }

  /** A merge keeps the receiver's keys in their order and appends r's new keys in r's order. */
  lemma {:induction false} MergeKeys<K>(l: Entries<K>, r: Entries<K>, prefix: seq<K>, block: Option<Combiner<K>>)
    requires Unique(r)
    ensures Keys(DeepMerge(l, r, prefix, block)) == Keys(l) + NewKeys(Keys(r), Keys(l))
    decreases r
  {
    if r.Entry? {
      var k := r.key;
      var v := match Get(l, k) case None => r.node case Some(lv) => MergeValues(prefix + [k], lv, r.node, block);
      var l' := Put(l, k, v);
      assert DeepMerge(l, r, prefix, block) == DeepMerge(l', r.rest, prefix, block);
      MergeKeys(l', r.rest, prefix, block);
      KeysPut(l, k, v);
      GetKeys(r.rest, k);
      var ks := Keys(r.rest);
      assert Keys(r) == [k] + ks;
      assert [k] + ks != [] && ([k] + ks)[0] == k && ([k] + ks)[1..] == ks;
      var added := if k in Keys(l) then [] else [k];
      assert NewKeys(Keys(r), Keys(l)) == added + NewKeys(ks, Keys(l));
      if k !in Keys(l) {
        NewKeysIgnore(ks, Keys(l), k);
      }
      assert Keys(l') == Keys(l) + added;
    }
  }

  /** With a block that keeps hashes well formed, merging keeps them well formed. */
  lemma {:induction false} MergeWF<K(!new)>(l: Entries<K>, r: Entries<K>, prefix: seq<K>, block: Option<Combiner<K>>)
    requires WF(l) && WF(r) && KeepsWF(block)
    ensures WF(DeepMerge(l, r, prefix, block))
    decreases r
  {
    if r.Entry? {
      var k := r.key;
      GetWF(l, k);
      var v := match Get(l, k) case None => r.node case Some(lv) => MergeValues(prefix + [k], lv, r.node, block);
      if Get(l, k).Some? {
        MergeValuesWF(prefix + [k], Get(l, k).value, r.node, block);
      }
      PutWF(l, k, v);
      MergeWF(Put(l, k, v), r.rest, prefix, block);
    }
  }

  lemma {:induction false} MergeValuesWF<K(!new)>(kp: seq<K>, lv: Node<K>, rv: Node<K>, block: Option<Combiner<K>>)
    requires NodeWF(lv) && NodeWF(rv) && KeepsWF(block)
    ensures NodeWF(MergeValues(kp, lv, rv, block))
    decreases rv
  {
    if lv.Hash? && rv.Hash? {
      MergeWF(lv.entries, rv.entries, kp, block);
    }
  }

  /** Without a block, every leaf of the right-hand hash survives the merge. */
  lemma {:induction false} MergeRightLeafWins<K>(l: Entries<K>, r: Entries<K>, prefix: seq<K>, p: seq<K>, v: Value)
    requires WF(r) && Resolve(r, p) == Some(Leaf(v))
    ensures Resolve(DeepMerge(l, r, prefix, None), p) == Some(Leaf(v))
    decreases |p|
  {
    var m := DeepMerge(l, r, prefix, None);
    WalkStep(r, p);
    WalkStep(m, p);
    WFUnique(r);
    MergeGet(l, r, prefix, None, p[0]);
    var rv := Get(r, p[0]).value;
    if |p| > 1 && Get(l, p[0]).Some? {
      var lv := Get(l, p[0]).value;
      if lv.Hash? {
        GetWF(r, p[0]);
        if Get(l, p[0]).Some? {
          MergeRightLeafWins(lv.entries, rv.entries, prefix + [p[0]], p[1..], v);
        }
      }
    }
  }

  /**
   * A leaf of the receiver survives a merge, whatever the block, when the
   * other hash has nothing at its path and no leaf on the way to it.
   */
  lemma {:induction false} MergeLeftLeafKept<K>(l: Entries<K>, r: Entries<K>, prefix: seq<K>, block: Option<Combiner<K>>, p: seq<K>, v: Value)
    requires WF(r) && Resolve(l, p) == Some(Leaf(v)) && Resolve(r, p).None? && !Blocked(r, p)
    ensures Resolve(DeepMerge(l, r, prefix, block), p) == Some(Leaf(v))
    decreases |p|
  {
    var m := DeepMerge(l, r, prefix, block);
    WalkStep(l, p);
    WalkStep(r, p);
    WalkStep(m, p);
    WFUnique(r);
    MergeGet(l, r, prefix, block, p[0]);
    if Get(r, p[0]).Some? && |p| > 1 {
      var rv := Get(r, p[0]).value;
      var lv := Get(l, p[0]).value;
      GetWF(r, p[0]);
      MergeLeftLeafKept(lv.entries, rv.entries, prefix + [p[0]], block, p[1..], v);
    }
  }

  /** Merging into an empty hash, or one with none of r's keys, appends r. */
  lemma {:induction false} MergeIntoDisjoint<K>(acc: Entries<K>, r: Entries<K>, prefix: seq<K>, block: Option<Combiner<K>>)
    requires Unique(r)
    requires forall k :: Get(r, k).Some? ==> Get(acc, k).None?
    ensures DeepMerge(acc, r, prefix, block) == Append(acc, r)
    decreases r
  {
    if r.Entry? {
      var k := r.key;
      assert Get(r, k).Some?;
      PutAppends(acc, k, r.node);
      var acc' := Put(acc, k, r.node);
      forall k' | Get(r.rest, k').Some? ensures Get(acc', k').None? {
        GetPut(acc, k, r.node, k');
        assert Get(r, k').Some?;
      }
      MergeIntoDisjoint(acc', r.rest, prefix, block);
      AppendAssoc(acc, Entry(k, r.node, Empty), r.rest);
    } else {
      AppendEmpty(acc);
    }
  }

  lemma MergeIntoEmpty<K>(r: Entries<K>, prefix: seq<K>, block: Option<Combiner<K>>)
    requires WF(r)
    ensures DeepMerge(Empty, r, prefix, block) == r
  {
    WFUnique(r);
    MergeIntoDisjoint(Empty, r, prefix, block);
  }

  /** Every key both sides hold maps to two hashes, at every level: no leaf meets anything. */
  predicate Clashless<K(==)>(l: Entries<K>, r: Entries<K>)
    decreases r
  {
    match r
    case Empty => true
    case Entry(k, rv, rest) =>
      (match Get(l, k)
       case None => true
       case Some(lv) => lv.Hash? && rv.Hash? && Clashless(lv.entries, rv.entries))
      && Clashless(l, rest)
  }

  lemma {:induction false} ClashlessPut<K>(l: Entries<K>, r: Entries<K>, k: K, v: Node<K>)
    requires Clashless(l, r) && Get(r, k).None?
    ensures Clashless(Put(l, k, v), r)
    decreases r
  {
    if r.Entry? {
      GetPut(l, k, v, r.key);
      ClashlessPut(l, r.rest, k, v);
    }
  }

  /** The block is consulted only where a leaf meets a value: without such a clash it does not matter. */
  lemma {:induction false} MergeBlockOnlyOnClash<K>(l: Entries<K>, r: Entries<K>, prefix: seq<K>, f: Combiner<K>)
    requires WF(r) && Clashless(l, r)
    ensures DeepMerge(l, r, prefix, Some(f)) == DeepMerge(l, r, prefix, None)
    decreases r
  {
    if r.Entry? {
      var k := r.key;
      var v := match Get(l, k) case None => r.node case Some(lv) => MergeValues(prefix + [k], lv, r.node, Some(f));
      if Get(l, k).Some? {
        MergeValuesOnlyOnClash(prefix + [k], Get(l, k).value, r.node, f);
      }
      ClashlessPut(l, r.rest, k, v);
      MergeBlockOnlyOnClash(Put(l, k, v), r.rest, prefix, f);
    }
  }

  lemma {:induction false} MergeValuesOnlyOnClash<K>(kp: seq<K>, lv: Node<K>, rv: Node<K>, f: Combiner<K>)
    requires NodeWF(rv) && lv.Hash? && rv.Hash? && Clashless(lv.entries, rv.entries)
    ensures MergeValues(kp, lv, rv, Some(f)) == MergeValues(kp, lv, rv, None)
    decreases rv
  {
    MergeBlockOnlyOnClash(lv.entries, rv.entries, kp, f);
  }

  // ---------------------------------------------------------------------
  // deep: pre-order enumeration
  // ---------------------------------------------------------------------

  /** Every key path the enumeration yields extends the prefix by at least one key. */
  lemma {:induction false} DeepShape<K>(es: Entries<K>, prefix: seq<K>, e: (seq<K>, Node<K>))
    requires e in Deep(es, prefix)
    ensures |e.0| > |prefix| && e.0[..|prefix|] == prefix
    decreases es
  {
    var k, v, rest := es.key, es.node, es.rest;
    var kp := prefix + [k];
    var dv := match v case Hash(c) => Deep(c, kp) case Leaf(_) => [];
    assert Deep(es, prefix) == [(kp, v)] + dv + Deep(rest, prefix);
    if e in dv {
      DeepShape(v.entries, kp, e);
      assert e.0[..|prefix|] == e.0[..|kp|][..|prefix|];
    } else if e in Deep(rest, prefix) {
      DeepShape(rest, prefix, e);
    }
  }

  /**
   * deep yields (prefix + q, n) exactly for the non-empty paths q that lead
   * to n: every subtree and every leaf, each once reachable.
   */
  lemma {:induction false} DeepMember<K>(es: Entries<K>, prefix: seq<K>, q: seq<K>, n: Node<K>)
    requires WF(es)
    ensures (prefix + q, n) in Deep(es, prefix) <==> q != [] && Resolve(es, q) == Some(n)
    decreases es
  {
    if es.Entry? {
      var k, v, rest := es.key, es.node, es.rest;
      var kp := prefix + [k];
      var dv := match v case Hash(c) => Deep(c, kp) case Leaf(_) => [];
      var pq := prefix + q;
      assert Deep(es, prefix) == [(kp, v)] + dv + Deep(rest, prefix);
      DeepMember(rest, prefix, q, n);
      assert (pq, n) == (kp, v) <==> q == [k] && n == v by {
        if pq == kp { assert q == pq[|prefix|..] == kp[|prefix|..] == [k]; }
      }
      if q != [] {
        WalkStep(es, q);
        WalkStep(rest, q);
        assert pq[|prefix|] == q[0];
        if q[0] == k {
          assert pq == kp + q[1..];
          if v.Hash? {
            DeepMember(v.entries, kp, q[1..], n);
          }
        } else if (pq, n) in dv {
          DeepShape(v.entries, kp, (pq, n));
          assert pq[..|kp|][|prefix|] == k;
        }
      } else if (pq, n) in dv {
        DeepShape(v.entries, kp, (pq, n));
      }
    }
  }

  /** Membership in the leaf paths of an enumeration: a pair with a leaf value. */
  lemma {:induction false} LeafPathsMember<K>(pairs: seq<(seq<K>, Node<K>)>, p: seq<K>)
    ensures p in LeafPaths(pairs) <==> exists n :: (p, n) in pairs && n.Leaf?
  {
    if pairs != [] {
      var init, last := pairs[..|pairs| - 1], pairs[|pairs| - 1];
      LeafPathsMember(init, p);
      assert pairs == init + [last];
      if p in LeafPaths(pairs) && p !in LeafPaths(init) {
        assert (p, last.1) in pairs;
      }
      if exists n :: (p, n) in pairs && n.Leaf? {
        var n :| (p, n) in pairs && n.Leaf?;
        if (p, n) !in init {
          assert (p, n) == last;
        }
      }
    }
  }

  /** The leaf paths of the whole enumeration are exactly the paths deep_fetch finds. */
  lemma KeyPathsAreLeaves<K>(es: Entries<K>, p: seq<K>)
    requires WF(es)
    ensures p in LeafPaths(Deep(es, [])) <==> IsLeafAt(es, p)
  {
    LeafPathsMember(Deep(es, []), p);
    assert [] + p == p;
    if IsLeafAt(es, p) {
      DeepMember(es, [], p, Resolve(es, p).value);
    }
    if p in LeafPaths(Deep(es, [])) {
      var n :| (p, n) in Deep(es, []) && n.Leaf?;
      DeepMember(es, [], p, n);
    }
  }

  /** A node below a well-formed hash is well formed. */
  lemma {:induction false} WalkWF<K>(n: Node<K>, p: seq<K>)
    requires NodeWF(n)
    ensures Walk(n, p).Some? ==> NodeWF(Walk(n, p).value)
    decreases |p|
  {
    if p != [] && n.Hash? {
      GetWF(n.entries, p[0]);
      if Get(n.entries, p[0]).Some? {
        WalkWF(Get(n.entries, p[0]).value, p[1..]);
      }
    }
  }

  /** Every well-formed node is == to itself. */
  lemma {:induction false} NodeEqRefl<K>(n: Node<K>)
    requires NodeWF(n)
    ensures NodeEq(n, n)
    decreases n, 1
  {
    if n.Hash? {
      PairsInSelf(n.entries, n.entries);
    }
  }

  /** A well-formed hash whose pairs all stand, unchanged, in es has its pairs in es. */
  lemma {:induction false} PairsInSelf<K>(sub: Entries<K>, es: Entries<K>)
    requires WF(sub)
    requires forall k :: Get(sub, k).Some? ==> Get(es, k) == Get(sub, k)
    ensures PairsIn(sub, es)
    decreases sub, 0
  {
    if sub.Entry? {
      assert Get(sub, sub.key) == Some(sub.node);
      NodeEqRefl(sub.node);
      forall k | Get(sub.rest, k).Some?
        ensures Get(es, k) == Get(sub.rest, k)
      {
        assert k != sub.key;
      }
      PairsInSelf(sub.rest, es);
    }
  }

  /** Every enumerated pair is a non-empty path and the node it resolves to. */
  lemma EnumeratedResolves<K>(es: Entries<K>, i: nat)
    requires WF(es) && i < |Deep(es, [])|
    ensures Deep(es, [])[i].0 != [] && Resolve(es, Deep(es, [])[i].0) == Some(Deep(es, [])[i].1)
  {
    var e := Deep(es, [])[i];
    DeepShape(es, [], e);
    assert [] + e.0 == e.0;
    DeepMember(es, [], e.0, e.1);
    assert (e.0, e.1) == e;
  }

  /** Every non-empty path that resolves is enumerated with its node. */
  lemma ResolvedEnumerated<K>(es: Entries<K>, p: seq<K>) returns (i: nat)
    requires WF(es) && p != [] && Resolve(es, p).Some?
    ensures i < |Deep(es, [])| && Deep(es, [])[i] == (p, Resolve(es, p).value)
  {
    assert [] + p == p;
    DeepMember(es, [], p, Resolve(es, p).value);
    i :| 0 <= i < |Deep(es, [])| && Deep(es, [])[i] == (p, Resolve(es, p).value);
  }

  /** A node == to x occurs among the enumerated values exactly when some non-empty path leads to one. */
  lemma DeepValuesEq<K>(es: Entries<K>, x: Node<K>)
    requires WF(es)
    ensures (exists i :: 0 <= i < |Deep(es, [])| && NodeEq(Deep(es, [])[i].1, x)) <==>
            (exists p :: p != [] && Resolve(es, p).Some? && NodeEq(Resolve(es, p).value, x))
    ensures (exists p :: p != [] && Resolve(es, p) == Some(x)) ==>
            (exists p :: p != [] && Resolve(es, p).Some? && NodeEq(Resolve(es, p).value, x))
  {
    var d := Deep(es, []);
    if exists p :: p != [] && Resolve(es, p) == Some(x) {
      var p :| p != [] && Resolve(es, p) == Some(x);
      WalkWF(Hash(es), p);
      NodeEqRefl(x);
      assert Resolve(es, p).Some? && NodeEq(Resolve(es, p).value, x);
    }
    if exists i :: 0 <= i < |d| && NodeEq(d[i].1, x) {
      var i :| 0 <= i < |d| && NodeEq(d[i].1, x);
      EnumeratedResolves(es, i);
      var p := d[i].0;
      assert p != [] && Resolve(es, p).Some? && NodeEq(Resolve(es, p).value, x);
    }
    if exists p :: p != [] && Resolve(es, p).Some? && NodeEq(Resolve(es, p).value, x) {
      var p :| p != [] && Resolve(es, p).Some? && NodeEq(Resolve(es, p).value, x);
      var i := ResolvedEnumerated(es, p);
      assert 0 <= i < |d| && NodeEq(d[i].1, x);
    }
  }

  /** The enumeration of {a: {b: 1, c: 2}, b: 3}. */
  lemma DeepExample()
    ensures Deep(Entry("a", Hash(Entry("b", Leaf(Int(1)), Entry("c", Leaf(Int(2)), Empty))),
                 Entry("b", Leaf(Int(3)), Empty)), [])
         == [(["a"], Hash(Entry("b", Leaf(Int(1)), Entry("c", Leaf(Int(2)), Empty)))),
             (["a", "b"], Leaf(Int(1))), (["a", "c"], Leaf(Int(2))), (["b"], Leaf(Int(3)))]
  {
    assert [] + ["a"] == ["a"];
    assert [] + ["b"] == ["b"];
    assert ["a"] + ["b"] == ["a", "b"];
    assert ["a"] + ["c"] == ["a", "c"];
  }

  // ---------------------------------------------------------------------
  // deep_transform_keys
  // ---------------------------------------------------------------------

  /** Whatever f does, the renamed hashes have distinct keys. */
  lemma {:induction false} TransformWF<K, J>(acc: Entries<J>, es: Entries<K>, f: K -> J)
    requires WF(acc)
    ensures WF(TransformInto(acc, es, f))
    decreases es
  {
    if es.Entry? {
      TransformNodeWF(es.node, f);
      PutWF(acc, f(es.key), TransformNode(es.node, f));
      TransformWF(Put(acc, f(es.key), TransformNode(es.node, f)), es.rest, f);
    }
  }

  lemma {:induction false} TransformNodeWF<K, J>(n: Node<K>, f: K -> J)
    ensures NodeWF(TransformNode(n, f))
    decreases n
  {
    if n.Hash? {
      TransformWF(Empty, n.entries, f);
    }
  }

  /** f gives distinct keys for distinct keys. */
  ghost predicate Injective<K(!new), J>(f: K -> J)
  {
    forall a, b :: f(a) == f(b) ==> a == b
  }

  /** Renaming key by key, with no collisions to resolve. */
  function Rekey<K(==), J(==)>(es: Entries<K>, f: K -> J): Entries<J>
  {
    match es
    case Empty => Empty
    case Entry(k, v, rest) => Entry(f(k), TransformNode(v, f), Rekey(rest, f))
  }

  lemma {:induction false} GetRekey<K(!new), J>(es: Entries<K>, f: K -> J, k: K)
    requires Injective(f)
    ensures Get(Rekey(es, f), f(k)) == match Get(es, k) case None => None case Some(n) => Some(TransformNode(n, f))
  {
    if es.Entry? {
      GetRekey(es.rest, f, k);
    }
  }

  /** With an injective f, renaming appends the renamed pairs in their order. */
  lemma {:induction false} TransformIsRekey<K(!new), J>(acc: Entries<J>, es: Entries<K>, f: K -> J)
    requires Injective(f) && Unique(es)
    requires forall k :: Get(es, k).Some? ==> Get(acc, f(k)).None?
    ensures TransformInto(acc, es, f) == Append(acc, Rekey(es, f))
    decreases es
  {
    if es.Entry? {
      var k, v := es.key, TransformNode(es.node, f);
      assert Get(es, k).Some?;
      PutAppends(acc, f(k), v);
      var acc' := Put(acc, f(k), v);
      forall k' | Get(es.rest, k').Some? ensures Get(acc', f(k')).None? {
        GetPut(acc, f(k), v, f(k'));
        assert Get(es, k').Some?;
      }
      TransformIsRekey(acc', es.rest, f);
      AppendAssoc(acc, Entry(f(k), v, Empty), Rekey(es.rest, f));
    } else {
      AppendEmpty(acc);
    }
  }

  /** The key path p renamed segment by segment. */
  function MapPath<K, J>(f: K -> J, p: seq<K>): (r: seq<J>)
    ensures |r| == |p|
  {
    if p == [] then [] else [f(p[0])] + MapPath(f, p[1..])
  }

  /**
   * With an injective f, the renamed tree holds at the renamed path what the
   * original holds at the path (renamed in turn), and the same leaf values.
   */
  lemma {:induction false} TransformResolve<K(!new), J>(es: Entries<K>, f: K -> J, p: seq<K>)
    requires Injective(f) && WF(es)
    ensures Resolve(TransformKeys(es, f), MapPath(f, p)) ==
            match Resolve(es, p) case None => None case Some(n) => Some(TransformNode(n, f))
    ensures LeafAt(TransformKeys(es, f), MapPath(f, p)) == LeafAt(es, p)
    decreases |p|
  {
    WFUnique(es);
    TransformIsRekey(Empty, es, f);
    var t := TransformKeys(es, f);
    assert t == Rekey(es, f);
    if p != [] {
      var mp := MapPath(f, p);
      WalkStep(es, p);
      WalkStep(t, mp);
      GetRekey(es, f, p[0]);
      assert mp[1..] == MapPath(f, p[1..]);
      match Get(es, p[0])
      case None =>
      case Some(Leaf(x)) =>
      case Some(Hash(c)) =>
        GetWF(es, p[0]);
        TransformResolve(c, f, p[1..]);
    }
  }

  // ---------------------------------------------------------------------
  // deep_key_pathify
  // ---------------------------------------------------------------------

  /** deep_key_pathify builds well-formed hashes. */
  lemma {:induction false} PathifyWF(acc: Entries<Sym>, es: Entries<KeySource>)
    requires NoEmptyKeyPaths(es) && WF(acc)
    ensures PathifyInto(acc, es).Ok? ==> WF(PathifyInto(acc, es).value)
    decreases es
  {
    if es.Entry? {
      PathifyNodeWF(es.node);
      var v' := PathifyNode(es.node);
      if v'.Ok? {
        var kp := ToKeyPath(es.key);
        if DeepStore(acc, kp, v'.value).Ok? {
          StoreWF(acc, kp, v'.value);
          PathifyWF(DeepStore(acc, kp, v'.value).value, es.rest);
        }
      }
    }
  }

  lemma {:induction false} PathifyNodeWF(n: Node<KeySource>)
    requires n.Hash? ==> NoEmptyKeyPaths(n.entries)
    ensures PathifyNode(n).Ok? ==> NodeWF(PathifyNode(n).value)
    decreases n
  {
    if n.Hash? {
      PathifyWF(Empty, n.entries);
    }
  }

  lemma {:induction false} LiftNoEmpty(es: Entries<Sym>)
    requires Plain(es)
    ensures NoEmptyKeyPaths(Lift(es))
  {
    if es.Entry? {
      PlainSymbol(es.key);
      LiftNoEmpty(es.rest);
      if es.node.Hash? {
        LiftNoEmpty(es.node.entries);
      }
    }
  }

  /**
   * A symbol-keyed hash whose keys contain no dot comes back unchanged:
   * Tree[h].to_h == h.
   */
  lemma {:induction false} PathifyRoundTrip(es: Entries<Sym>)
    requires WF(es) && Plain(es)
    ensures NoEmptyKeyPaths(Lift(es)) && Pathify(Lift(es)) == Ok(es)
  {
    LiftNoEmpty(es);
    WFUnique(es);
    PathifyIntoLift(Empty, es);
  }

  lemma {:induction false} PathifyIntoLift(acc: Entries<Sym>, es: Entries<Sym>)
    requires WF(es) && Plain(es) && Unique(es)
    requires forall k :: Get(es, k).Some? ==> Get(acc, k).None?
    ensures NoEmptyKeyPaths(Lift(es)) && PathifyInto(acc, Lift(es)) == Ok(Append(acc, es))
    decreases es
  {
    LiftNoEmpty(es);
    if es.Entry? {
      var k, v := es.key, es.node;
      PathifyNodeLift(v);
      PlainSymbol(k);
      assert Get(es, k).Some?;
      PutAppends(acc, k, v);
      var acc' := Put(acc, k, v);
      assert DeepStore(acc, [k], v) == Ok(acc');
      forall k' | Get(es.rest, k').Some? ensures Get(acc', k').None? {
        GetPut(acc, k, v, k');
        assert Get(es, k').Some?;
      }
      PathifyIntoLift(acc', es.rest);
      AppendAssoc(acc, Entry(k, v, Empty), es.rest);
    } else {
      AppendEmpty(acc);
    }
  }

  lemma {:induction false} PathifyNodeLift(n: Node<Sym>)
    requires NodeWF(n) && (n.Hash? ==> Plain(n.entries))
    ensures (n.Hash? ==> NoEmptyKeyPaths(Lift(n.entries))) && PathifyNode(LiftNode(n)) == Ok(n)
    decreases n
  {
    if n.Hash? {
      WFUnique(n.entries);
      PathifyIntoLift(Empty, n.entries);
    }
  }

  lemma {:induction false} NoEmptyAppend(a: Entries<KeySource>, b: Entries<KeySource>)
    ensures NoEmptyKeyPaths(Append(a, b)) <==> NoEmptyKeyPaths(a) && NoEmptyKeyPaths(b)
  {
    if a.Entry? {
      NoEmptyAppend(a.rest, b);
    }
  }

  /** deep_key_pathify of a hash with one more pair at the end: one more store into the result. */
  lemma {:induction false} PathifyAppend(acc: Entries<Sym>, es: Entries<KeySource>, more: Entries<KeySource>)
    requires NoEmptyKeyPaths(es) && NoEmptyKeyPaths(more)
    ensures NoEmptyKeyPaths(Append(es, more))
    ensures PathifyInto(acc, Append(es, more)) ==
            match PathifyInto(acc, es) case KeyError => KeyError case Ok(a) => PathifyInto(a, more)
    decreases es
  {
    NoEmptyAppend(es, more);
    if es.Entry? {
      var v' := PathifyNode(es.node);
      if v'.Ok? {
        var st := DeepStore(acc, ToKeyPath(es.key), v'.value);
        if st.Ok? {
          PathifyAppend(st.value, es.rest, more);
        }
      }
    }
  }

  /**
   * A later key that spells the same path as an earlier one replaces whatever
   * stood there: a leaf, or its own pathified Hash, which is not merged with
   * the earlier subtree.
   */
  lemma LaterKeyWins(es: Entries<KeySource>, k: KeySource, v: Node<KeySource>)
    requires NoEmptyKeyPaths(es) && ToKeyPath(k) != []
    requires v.Hash? ==> NoEmptyKeyPaths(v.entries)
    ensures NoEmptyKeyPaths(Append(es, Entry(k, v, Empty)))
    ensures var r := Pathify(Append(es, Entry(k, v, Empty)));
            r.Ok? ==> PathifyNode(v).Ok? && Resolve(r.value, ToKeyPath(k)) == Some(PathifyNode(v).value)
    ensures var r := Pathify(Append(es, Entry(k, v, Empty)));
            r.Ok? && v.Leaf? ==> LeafAt(r.value, ToKeyPath(k)) == Some(v.value)
  {
    PathifyAppend(Empty, es, Entry(k, v, Empty));
    var r := Pathify(Append(es, Entry(k, v, Empty)));
    if r.Ok? {
      var a := Pathify(es).value;
      StoreResolves(a, ToKeyPath(k), PathifyNode(v).value);
    }
  }

  /** A key whose path passes through a leaf stored by an earlier key makes the conversion fail. */
  lemma EarlierLeafBlocks(es: Entries<KeySource>, k: KeySource, v: Node<KeySource>, i: nat)
    requires NoEmptyKeyPaths(es) && ToKeyPath(k) != [] && (v.Hash? ==> NoEmptyKeyPaths(v.entries))
    requires Pathify(es).Ok? && 0 < i < |ToKeyPath(k)| && IsLeafAt(Pathify(es).value, ToKeyPath(k)[..i])
    ensures NoEmptyKeyPaths(Append(es, Entry(k, v, Empty)))
    ensures Pathify(Append(es, Entry(k, v, Empty))).KeyError?
  {
    PathifyAppend(Empty, es, Entry(k, v, Empty));
    var a := Pathify(es).value;
    if PathifyNode(v).Ok? {
      BlockedMeans(a, ToKeyPath(k));
      StoreFailsIffBlocked(a, ToKeyPath(k), PathifyNode(v).value);
    }
  }

  /** {'a.b' => 2, [:a, :c] => 3} becomes {a: {b: 2, c: 3}}. */
  lemma PathifyExample()
    ensures NoEmptyKeyPaths(Entry(StrKey("a.b"), Leaf(Int(2)), Entry(ArrKey(["a", "c"]), Leaf(Int(3)), Empty)))
    ensures Pathify(Entry(StrKey("a.b"), Leaf(Int(2)), Entry(ArrKey(["a", "c"]), Leaf(Int(3)), Empty)))
         == Ok(Entry("a", Hash(Entry("b", Leaf(Int(2)), Entry("c", Leaf(Int(3)), Empty))), Empty))
  {
    DottedStringExample();
    var ab: seq<Sym> := ["a", "b"];
    var ac: seq<Sym> := ["a", "c"];
    assert ab[1..] == ["b"] && ac[1..] == ["c"];
    var first := Entry("a", Hash(Entry("b", Leaf(Int(2)), Empty)), Empty);
    var second := Entry("a", Hash(Entry("b", Leaf(Int(2)), Entry("c", Leaf(Int(3)), Empty))), Empty);
    assert DeepStore(Empty, ab, Leaf(Int(2))) == Ok(first);
    assert DeepStore(first, ac, Leaf(Int(3))) == Ok(second);
    assert PathifyInto(first, Entry(ArrKey(ac), Leaf(Int(3)), Empty)) == Ok(second);
  }

  lemma {:induction false} PutPlain(es: Entries<Sym>, k: Sym, v: Node<Sym>)
    requires Plain(es) && PlainSegment(k) && (v.Hash? ==> Plain(v.entries))
    ensures Plain(Put(es, k, v))
  {
    if es.Entry? {
      PutPlain(es.rest, k, v);
    }
  }

  lemma {:induction false} GetPlain(es: Entries<Sym>, k: Sym)
    requires Plain(es) && Get(es, k).Some? && Get(es, k).value.Hash?
    ensures Plain(Get(es, k).value.entries)
  {
    if es.key != k {
      GetPlain(es.rest, k);
    }
  }

  /** Without a block, merging hashes with plain keys gives a hash with plain keys. */
  lemma {:induction false} MergePlain(l: Entries<Sym>, r: Entries<Sym>, prefix: KeyPath)
    requires Plain(l) && Plain(r)
    ensures Plain(DeepMerge(l, r, prefix, None))
    decreases r
  {
    if r.Entry? {
      var k := r.key;
      var v := match Get(l, k) case None => r.node case Some(lv) => MergeValues(prefix + [k], lv, r.node, None);
      if Get(l, k).Some? && Get(l, k).value.Hash? && r.node.Hash? {
        GetPlain(l, k);
        MergePlain(Get(l, k).value.entries, r.node.entries, prefix + [k]);
      }
      PutPlain(l, k, v);
      MergePlain(Put(l, k, v), r.rest, prefix);
    }
  }
}

/**
 * The nested hashes a key tree stores, and the deep_* refinements of Hash
 * that walk, update, merge, enumerate and re-key them.
 *
 * A Ruby Hash is an ordered table: Entries keeps its pairs in insertion
 * order, and the primitives below behave like Hash#fetch, Hash#[]= (which
 * replaces in place or appends) and Hash#delete.
 */
module DeepHash {
  import opened Wrappers
  import opened Paths

  /** The leaf values a tree holds (any Ruby object that is not a Hash). */
  datatype Value = Nil | Bool(b: bool) | Int(i: int) | Str(s: string)

  /** A value in a nested hash: a leaf, or a nested Hash. */
  datatype Node<K> = Leaf(value: Value) | Hash(entries: Entries<K>)

  /** The pairs of a Hash, in insertion order. */
  datatype Entries<K> = Empty | Entry(key: K, node: Node<K>, rest: Entries<K>)

  // ---------------------------------------------------------------------
  // Hash primitives
  // ---------------------------------------------------------------------

  /** Hash#fetch: the node stored under k, if any. */
  function Get<K(==)>(es: Entries<K>, k: K): Option<Node<K>>
  {
    match es
    case Empty => None
    case Entry(k', v, rest) => if k' == k then Some(v) else Get(rest, k)
  }

  /** Hash#[]=: replaces the value of an existing key in place, or appends the pair. */
  function Put<K(==)>(es: Entries<K>, k: K, v: Node<K>): Entries<K>
  {
    match es
    case Empty => Entry(k, v, Empty)
    case Entry(k', v', rest) => if k' == k then Entry(k, v, rest) else Entry(k', v', Put(rest, k, v))
  }

  /** Hash#delete: drops the pair of k. */
  function Remove<K(==)>(es: Entries<K>, k: K): Entries<K>
  {
    match es
    case Empty => Empty
    case Entry(k', v', rest) => if k' == k then rest else Entry(k', v', Remove(rest, k))
  }

  /** Hash#keys, in order. */
  function Keys<K>(es: Entries<K>): seq<K>
  {
    match es
    case Empty => []
    case Entry(k, _, rest) => [k] + Keys(rest)
  }

  /** The pairs of a followed by those of b. */
  function Append<K>(a: Entries<K>, b: Entries<K>): Entries<K>
  {
    match a
    case Empty => b
    case Entry(k, v, rest) => Entry(k, v, Append(rest, b))
  }

  /** No key occurs twice at the top level. */
  predicate Unique<K(==)>(es: Entries<K>)
  {
    match es
    case Empty => true
    case Entry(k, _, rest) => Get(rest, k).None? && Unique(rest)
  }

  /** Every Hash in the nesting has distinct keys: what any Ruby Hash satisfies. */
  predicate WF<K(==)>(es: Entries<K>)
  {
    match es
    case Empty => true
    case Entry(k, v, rest) => Get(rest, k).None? && NodeWF(v) && WF(rest)
  }

  predicate NodeWF<K(==)>(n: Node<K>)
  {
    match n
    case Leaf(_) => true
    case Hash(es) => WF(es)
  }

  /**
   * Ruby's == on nodes: equal leaf values, or two hashes with as many keys
   * where every pair of the first recurs, by ==, under its key in the
   * second. Hash#== ignores insertion order.
   */
  predicate NodeEq<K(==)>(a: Node<K>, b: Node<K>)
    decreases a, 1
  {
    match a
    case Leaf(v) => b == Leaf(v)
    case Hash(es) => b.Hash? && |Keys(es)| == |Keys(b.entries)| && PairsIn(es, b.entries)
  }

  /** Every pair of es has a node equal to it, by NodeEq, under its key in other. */
  predicate PairsIn<K(==)>(es: Entries<K>, other: Entries<K>)
    decreases es, 0
  {
    match es
    case Empty => true
    case Entry(k, v, rest) => Get(other, k).Some? && NodeEq(v, Get(other, k).value) && PairsIn(rest, other)
  }

  // ---------------------------------------------------------------------
  // Walking a key path
  // ---------------------------------------------------------------------

  /**
   * The node reached from n by following p through nested hashes; None when
   * a key is missing or a leaf stands in the way.
   */
  function Walk<K(==)>(n: Node<K>, p: seq<K>): Option<Node<K>>
    decreases |p|
  {
    if p == [] then Some(n)
    else match n
      case Leaf(_) => None
      case Hash(es) =>
        match Get(es, p[0])
        case None => None
        case Some(c) => Walk(c, p[1..])
  }

  /** The node at p in the hash es (the root itself for the empty path). */
  function Resolve<K(==)>(es: Entries<K>, p: seq<K>): Option<Node<K>>
  {
    Walk(Hash(es), p)
  }

  /** The leaf value at p, if p leads to a leaf: what deep_fetch finds. */
  function LeafAt<K(==)>(es: Entries<K>, p: seq<K>): Option<Value>
  {
    match Resolve(es, p)
    case Some(Leaf(v)) => Some(v)
    case _ => None
  }

  /** p leads to a nested Hash (the root counts, for the empty path). */
  predicate IsHashAt<K(==)>(es: Entries<K>, p: seq<K>)
  {
    Resolve(es, p).Some? && Resolve(es, p).value.Hash?
  }

  /** p leads to a leaf. */
  predicate IsLeafAt<K(==)>(es: Entries<K>, p: seq<K>)
  {
    Resolve(es, p).Some? && Resolve(es, p).value.Leaf?
  }

  /**
   * deep_fetch(p, *default, &block): the leaf value at p; otherwise the
   * block's value for p, otherwise the default, otherwise KeyError. A path
   * that ends at a nested Hash, and the empty path, find nothing.
   */
  function DeepFetch<K(==)>(es: Entries<K>, p: seq<K>, default: Option<Value>, block: Option<seq<K> -> Value>): (r: Result<Value>)
    ensures LeafAt(es, p).Some? ==> r == Ok(LeafAt(es, p).value)
    ensures r.KeyError? <==> LeafAt(es, p).None? && block.None? && default.None?
    ensures LeafAt(es, p).None? && block.Some? ==> r == Ok(block.value(p))
    ensures LeafAt(es, p).None? && block.None? && default.Some? ==> r == Ok(default.value)
    ensures p == [] ==> LeafAt(es, p).None?
  {
    match LeafAt(es, p)
    case Some(v) => Ok(v)
    case None =>
      if block.Some? then Ok(block.value(p))
      else if default.Some? then Ok(default.value)
      else KeyError
  }

  // ---------------------------------------------------------------------
  // deep_store and deep_delete
  // ---------------------------------------------------------------------

  /**
   * deep_store(p, v): stores v at p, creating an empty Hash for every missing
   * key on the way; KeyError when a leaf sits at a proper prefix of p.
   */
  function DeepStore<K(==)>(es: Entries<K>, p: seq<K>, v: Node<K>): Result<Entries<K>>
    requires |p| > 0
    decreases |p|
  {
    if |p| == 1 then Ok(Put(es, p[0], v))
    else
      var child := match Get(es, p[0])
        case None => Some(Empty)
        case Some(Hash(c)) => Some(c)
        case Some(Leaf(_)) => None;
      match child
      case None => KeyError
      case Some(c) =>
        match DeepStore(c, p[1..], v)
        case KeyError => KeyError
        case Ok(c') => Ok(Put(es, p[0], Hash(c')))
  }

  /** A leaf stands at a proper, non-empty prefix of p. */
  predicate Blocked<K(==)>(es: Entries<K>, p: seq<K>)
    decreases |p|
  {
    |p| >= 2 &&
    match Get(es, p[0])
    case None => false
    case Some(Leaf(_)) => true
    case Some(Hash(c)) => Blocked(c, p[1..])
  }

  /** How many leading segments of p lead to nested hashes. */
  function HashDepth<K(==)>(es: Entries<K>, p: seq<K>): (d: nat)
    ensures d <= |p|
    decreases |p|
  {
    if p == [] then 0
    else match Get(es, p[0])
      case Some(Hash(c)) => 1 + HashDepth(c, p[1..])
      case _ => 0
  }

  /**
   * deep_delete(p): removes the entry at p, giving back what it held; KeyError
   * when a proper prefix of p does not lead to a Hash. The empty path names
   * the nil key, which a tree never holds, so nothing is removed.
   */
  function DeepDelete<K(==)>(es: Entries<K>, p: seq<K>): Result<(Entries<K>, Option<Node<K>>)>
    decreases |p|
  {
    if p == [] then Ok((es, None))
    else if |p| == 1 then Ok((Remove(es, p[0]), Get(es, p[0])))
    else
      match Get(es, p[0])
      case Some(Hash(c)) =>
        (match DeepDelete(c, p[1..])
         case KeyError => KeyError
         case Ok((c', gone)) => Ok((Put(es, p[0], Hash(c')), gone)))
      case _ => KeyError
  }

  // ---------------------------------------------------------------------
  // deep_merge
  // ---------------------------------------------------------------------

  /** The block of deep_merge: called with the key path and both values. */
  type Combiner<!K> = (seq<K>, Node<K>, Node<K>) -> Node<K>

  /** A merge block that gives well-formed nodes for well-formed ones. */
  ghost predicate KeepsWF<K(!new)>(block: Option<Combiner<K>>)
  {
    block.Some? ==> forall kp, a, b :: NodeWF(a) && NodeWF(b) ==> NodeWF(block.value(kp, a, b))
  }

  /**
   * l.deep_merge(r, prefix, &block): Hash#merge over the pairs of r in order;
   * a key only r has is appended with r's value, and a key both have gets
   * MergeValues of the two.
   */
  function DeepMerge<K(==)>(l: Entries<K>, r: Entries<K>, prefix: seq<K>, block: Option<Combiner<K>>): Entries<K>
    decreases r
  {
    match r
    case Empty => l
    case Entry(k, rv, rest) =>
      var v := match Get(l, k)
        case None => rv
        case Some(lv) => MergeValues(prefix + [k], lv, rv, block);
      DeepMerge(Put(l, k, v), rest, prefix, block)
  }

  /**
   * The value kept for a key both sides hold: two hashes merge deeply;
   * otherwise the block decides, and without a block the right side wins.
   */
  function MergeValues<K(==)>(kp: seq<K>, lv: Node<K>, rv: Node<K>, block: Option<Combiner<K>>): Node<K>
    decreases rv
  {
    if lv.Hash? && rv.Hash? then Hash(DeepMerge(lv.entries, rv.entries, kp, block))
    else if block.Some? then block.value(kp, lv, rv)
    else rv
  }

  // ---------------------------------------------------------------------
  // deep: the pre-order enumeration of (key path, value) pairs
  // ---------------------------------------------------------------------

  /**
   * deep_enumerator(prefix): each pair of es in order, as (prefix + [key],
   * value), followed at once by the pairs of its value when that is a Hash.
   */
  function Deep<K>(es: Entries<K>, prefix: seq<K>): seq<(seq<K>, Node<K>)>
    decreases es
  {
    match es
    case Empty => []
    case Entry(k, v, rest) =>
      var kp := prefix + [k];
      [(kp, v)] + (match v case Hash(c) => Deep(c, kp) case Leaf(_) => []) + Deep(rest, prefix)
  }

  /** The key paths of the pairs whose value is not a Hash, in order. */
  function LeafPaths<K>(pairs: seq<(seq<K>, Node<K>)>): seq<seq<K>>
  {
    if pairs == [] then []
    else
      var last := pairs[|pairs| - 1];
      LeafPaths(pairs[..|pairs| - 1]) + (if last.1.Leaf? then [last.0] else [])
  }

  // ---------------------------------------------------------------------
  // deep_transform_keys
  // ---------------------------------------------------------------------

  /**
   * deep_transform_keys(&f): renames every key with f at every level;
   * when f sends two keys of one Hash to the same key, the later value
   * replaces the earlier one at the earlier position.
   */
  function TransformKeys<K(==), J(==)>(es: Entries<K>, f: K -> J): Entries<J>
  {
    TransformInto(Empty, es, f)
  }

  function TransformInto<K(==), J(==)>(acc: Entries<J>, es: Entries<K>, f: K -> J): Entries<J>
    decreases es
  {
    match es
    case Empty => acc
    case Entry(k, v, rest) => TransformInto(Put(acc, f(k), TransformNode(v, f)), rest, f)
  }

  function TransformNode<K(==), J(==)>(n: Node<K>, f: K -> J): Node<J>
    decreases n
  {
    match n
    case Leaf(x) => Leaf(x)
    case Hash(c) => Hash(TransformInto(Empty, c, f))
  }

  // ---------------------------------------------------------------------
  // deep_key_pathify
  // ---------------------------------------------------------------------

  /** Every key, at every level, converts to a non-empty key path. */
  predicate NoEmptyKeyPaths(es: Entries<KeySource>)
  {
    match es
    case Empty => true
    case Entry(k, v, rest) =>
      ToKeyPath(k) != [] && (v.Hash? ==> NoEmptyKeyPaths(v.entries)) && NoEmptyKeyPaths(rest)
  }

  /**
   * deep_key_pathify: a new symbol-keyed Hash built by storing, in order,
   * each value (itself pathified when it is a Hash) at the key path of its
   * key; KeyError when a store meets a leaf on its way.
   */
  function Pathify(es: Entries<KeySource>): Result<Entries<Sym>>
    requires NoEmptyKeyPaths(es)
  {
    PathifyInto(Empty, es)
  }

  function PathifyInto(acc: Entries<Sym>, es: Entries<KeySource>): Result<Entries<Sym>>
    requires NoEmptyKeyPaths(es)
    decreases es
  {
    match es
    case Empty => Ok(acc)
    case Entry(k, v, rest) =>
      match PathifyNode(v)
      case KeyError => KeyError
      case Ok(v') =>
        match DeepStore(acc, ToKeyPath(k), v')
        case KeyError => KeyError
        case Ok(acc') => PathifyInto(acc', rest)
  }

  function PathifyNode(n: Node<KeySource>): Result<Node<Sym>>
    requires n.Hash? ==> NoEmptyKeyPaths(n.entries)
    decreases n
  {
    match n
    case Leaf(x) => Ok(Leaf(x))
    case Hash(c) =>
      match PathifyInto(Empty, c)
      case KeyError => KeyError
      case Ok(c') => Ok(Hash(c'))
  }

  /**
   * deep_key_pathify as a loop over the pairs, pathifying nested hashes by
   * recursion and storing each value into the result.
   */
  method KeyPathify(es: Entries<KeySource>) returns (r: Result<Entries<Sym>>)
    requires NoEmptyKeyPaths(es)
    ensures r == Pathify(es)
    decreases es
  {
    var acc: Entries<Sym> := Empty;
    var cur := es;
    while cur.Entry?
      invariant cur == es || cur < es
      invariant NoEmptyKeyPaths(cur)
      invariant PathifyInto(acc, cur) == Pathify(es)
      decreases cur
    {
      var v: Node<Sym>;
      if cur.node.Hash? {
        var sub := KeyPathify(cur.node.entries);
        if sub.KeyError? {
          return KeyError;
        }
        v := Hash(sub.value);
      } else {
        v := Leaf(cur.node.value);
      }
      var stored := DeepStore(acc, ToKeyPath(cur.key), v);
      if stored.KeyError? {
        return KeyError;
      }
      acc := stored.value;
      cur := cur.rest;
    }
    return Ok(acc);
  }

  /** Keys that Path.new leaves as they are: each segment plain, at every level. */
  predicate Plain(es: Entries<Sym>)
  {
    match es
    case Empty => true
    case Entry(k, v, rest) => PlainSegment(k) && (v.Hash? ==> Plain(v.entries)) && Plain(rest)
  }

  /** A symbol-keyed hash seen as raw input, each key a Symbol. */
  function Lift(es: Entries<Sym>): Entries<KeySource>
  {
    match es
    case Empty => Empty
    case Entry(k, v, rest) => Entry(SymKey(k), LiftNode(v), Lift(rest))
  }

  function LiftNode(n: Node<Sym>): Node<KeySource>
  {
    match n
    case Leaf(x) => Leaf(x)
    case Hash(c) => Hash(Lift(c))
  }
}

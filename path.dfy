/**
 * Key paths: the addresses of values in a key tree (KeyTree::Path), and the
 * to_key_path conversions that turn strings, symbols and arrays into them.
 */
module Paths {
  import opened Wrappers

  /** A Ruby Symbol, identified by its name. */
  type Sym = string

  /** The segments of a KeyTree::Path, in order. */
  type KeyPath = seq<Sym>

  /**
   * The values that answer to_key_path: a String, a Symbol, or an Array of
   * strings or symbols (a KeyTree::Path is such an Array).
   */
  datatype KeySource = StrKey(s: string) | SymKey(name: string) | ArrKey(elems: seq<string>)

  // ---------------------------------------------------------------------
  // String#split('.') and Array#join('.')
  // ---------------------------------------------------------------------

  /** The fields of s between dots, empty ones included. */
  function Fields(s: string): (r: seq<string>)
    ensures |r| >= 1
  {
    if s == [] then [""]
    else
      var rest := Fields(s[1..]);
      if s[0] == '.' then [""] + rest else [[s[0]] + rest[0]] + rest[1..]
  }

  /** Drops the empty fields at the end, as String#split does. */
  function DropTrailingEmpty(fs: seq<string>): seq<string>
  {
    if fs == [] then []
    else if fs[|fs| - 1] == "" then DropTrailingEmpty(fs[..|fs| - 1])
    else fs
  }

  /** String#split('.'). */
  function Split(s: string): seq<string>
  {
    DropTrailingEmpty(Fields(s))
  }

  /** Array#join('.'): the text of Path#to_s. */
  function Join(p: seq<string>): string
  {
    if p == [] then ""
    else if |p| == 1 then p[0]
    else p[0] + "." + Join(p[1..])
  }

  /** A segment that a dotted string can spell: not empty and without a dot. */
  predicate PlainSegment(seg: string)
  {
    seg != "" && '.' !in seg
  }

  // ---------------------------------------------------------------------
  // to_key_path and Path.new
  // ---------------------------------------------------------------------

  /**
   * The key path Path.new builds from a source: a String or Symbol is split
   * at dots, an Array is taken element by element.
   */
  function ToKeyPath(k: KeySource): (r: KeyPath)
    ensures k.ArrKey? ==> r == k.elems
    ensures !k.ArrKey? ==> forall i :: 0 <= i < |r| ==> '.' !in r[i]
    ensures !k.ArrKey? && r != [] ==> r[|r| - 1] != ""
  {
    match k
    case StrKey(s) => SplitShape(s); Split(s)
    case SymKey(n) => SplitShape(n); Split(n)
    case ArrKey(e) => e
  }

  /** Path[k1, k2, ...]: the key paths of the sources, concatenated left to right. */
  function ConcatPaths(sources: seq<KeySource>): KeyPath
  {
    if sources == [] then []
    else ConcatPaths(sources[..|sources| - 1]) + ToKeyPath(sources[|sources| - 1])
  }

  // ---------------------------------------------------------------------
  // prefix?, drop and conflict?
  // ---------------------------------------------------------------------

  /** p.prefix?(q): the path q leads the path p. */
  predicate IsPrefix<T(==)>(p: seq<T>, q: seq<T>)
  {
    |q| <= |p| && p[..|q|] == q
  }

  /** Neither path leads the other. */
  predicate Diverge<T(==)>(p: seq<T>, q: seq<T>)
  {
    !IsPrefix(p, q) && !IsPrefix(q, p)
  }

  /** p.drop(q): what is left of p after its leading q; KeyError unless q leads p. */
  function Drop(p: KeyPath, q: KeyPath): (r: Result<KeyPath>)
    ensures r.Ok? <==> IsPrefix(p, q)
    ensures r.Ok? ==> q + r.value == p
  {
    if IsPrefix(p, q) then Ok(p[|q|..]) else KeyError
  }

  /**
   * p.conflict?(q): nil when the paths are equal, otherwise whether one of
   * them leads the other.
   */
  function Conflict(p: KeyPath, q: KeyPath): (r: Option<bool>)
    ensures r.None? <==> p == q
    ensures r == Some(true) <==> p != q && !Diverge(p, q)
  {
    if p != q then Some(IsPrefix(p, q) || IsPrefix(q, p)) else None
  }

  /**
   * The mutable Array behind a KeyTree::Path. `<<` extends it in place; the
   * other operations leave it alone.
   */
  class Path {
    var segments: KeyPath

    /** Path.new(source). */
    constructor (source: KeySource)
      ensures segments == ToKeyPath(source)
    {
      segments := ToKeyPath(source);
    }

    /** Path[k1, k2, ...]: one empty path, extended by each source in turn. */
    static method Build(sources: seq<KeySource>) returns (p: Path)
      ensures fresh(p)
      ensures p.segments == ConcatPaths(sources)
    {
      p := new Path(ArrKey([]));
      var i := 0;
      while i < |sources|
        invariant 0 <= i <= |sources|
        invariant p.segments == ConcatPaths(sources[..i])
      {
        assert sources[..i + 1][..i] == sources[..i];
        p.Append(sources[i]);
        i := i + 1;
      }
      assert sources[..i] == sources;
    }

    /** path << other: appends the segments of other to this path. */
    method Append(other: KeySource)
      modifies this
      ensures segments == old(segments) + ToKeyPath(other)
    {
      segments := segments + ToKeyPath(other);
    }

    /** path + other: a new path; this one is left unchanged. */
    method Plus(other: KeySource) returns (r: Path)
      ensures fresh(r)
      ensures r.segments == segments + ToKeyPath(other)
    {
      r := new Path(ArrKey(segments + ToKeyPath(other)));
    }

    /**
     * path.prefix?(other): false at once when other is longer, otherwise
     * compares other's segments one by one with this path's.
     */
    method Prefix(other: KeySource) returns (b: bool)
      ensures b == IsPrefix(segments, ToKeyPath(other))
    {
      var q := ToKeyPath(other);
      if |q| > |segments| {
        return false;
      }
      var i := 0;
      while i < |q|
        invariant 0 <= i <= |q|
        invariant segments[..i] == q[..i]
      {
        if segments[i] != q[i] {
          return false;
        }
        i := i + 1;
      }
      assert q[..i] == q;
      return true;
    }
  }

  // ---------------------------------------------------------------------
  // Lemmas
  // ---------------------------------------------------------------------

  /** No field contains a dot; a dot-free string is a single field. */
  lemma {:induction false} FieldsDotFree(s: string)
    ensures forall i :: 0 <= i < |Fields(s)| ==> '.' !in Fields(s)[i]
    ensures '.' !in s ==> Fields(s) == [s]
  {
    if s != [] {
      FieldsDotFree(s[1..]);
      var rest := Fields(s[1..]);
      if s[0] != '.' {
        assert forall c :: c in [s[0]] + rest[0] ==> c == s[0] || c in rest[0];
        if '.' !in s {
          assert forall c :: c in s[1..] ==> c in s;
          assert [s[0]] + s[1..] == s;
        }
      }
    }
  }

  /** When s does not end with a dot, its last field is not empty. */
  lemma {:induction false} FieldsLast(s: string)
    requires s != [] && s[|s| - 1] != '.'
    ensures Fields(s)[|Fields(s)| - 1] != ""
  {
    var t := s[1..];
    var rest := Fields(t);
    if |s| > 1 {
      assert t[|t| - 1] == s[|s| - 1];
      FieldsLast(t);
      if s[0] == '.' {
        assert Fields(s) == [""] + rest;
      } else {
        assert Fields(s) == [[s[0]] + rest[0]] + rest[1..];
      }
    } else {
      assert t == [] && rest == [""];
      assert Fields(s) == [[s[0]] + rest[0]] + rest[1..];
      assert [s[0]] + rest[0] != "";
    }
  }

  /** When s ends with a dot, its last field is empty. */
  lemma {:induction false} FieldsLastDot(s: string)
    requires s != [] && s[|s| - 1] == '.'
    ensures Fields(s)[|Fields(s)| - 1] == ""
  {
    if |s| > 1 {
      FieldsLastDot(s[1..]);
    }
  }

  /** DropTrailingEmpty keeps a leading part of the fields whose last one is not empty. */
  lemma {:induction false} DropTrailingEmptyShape(fs: seq<string>)
    ensures |DropTrailingEmpty(fs)| <= |fs|
    ensures DropTrailingEmpty(fs) == fs[..|DropTrailingEmpty(fs)|]
    ensures DropTrailingEmpty(fs) != [] ==> DropTrailingEmpty(fs)[|DropTrailingEmpty(fs)| - 1] != ""
  {
    if fs != [] && fs[|fs| - 1] == "" {
      DropTrailingEmptyShape(fs[..|fs| - 1]);
    }
  }

  /** The segments of a split string contain no dot, and the last is not empty. */
  lemma SplitShape(s: string)
    ensures forall i :: 0 <= i < |Split(s)| ==> '.' !in Split(s)[i]
    ensures Split(s) != [] ==> Split(s)[|Split(s)| - 1] != ""
  {
    FieldsDotFree(s);
    DropTrailingEmptyShape(Fields(s));
    var r := Split(s);
    forall i | 0 <= i < |r| ensures '.' !in r[i] {
      assert r[i] == Fields(s)[i];
    }
  }

  lemma JoinCons(x: string, p: seq<string>)
    requires p != []
    ensures Join([x] + p) == x + "." + Join(p)
  {
    assert ([x] + p)[1..] == p;
  }

  /** Joining the fields of a string with dots gives the string back. */
  lemma {:induction false} JoinFields(s: string)
    ensures Join(Fields(s)) == s
  {
    if s != [] {
      JoinFields(s[1..]);
      var rest := Fields(s[1..]);
      if s[0] == '.' {
        JoinCons("", rest);
      } else if |rest| == 1 {
        assert Fields(s) == [[s[0]] + rest[0]];
      } else {
        JoinCons([s[0]] + rest[0], rest[1..]);
        JoinCons(rest[0], rest[1..]);
        assert [rest[0]] + rest[1..] == rest;
      }
    }
  }

  /** The text of a non-empty path ends with the last character of its last segment. */
  lemma {:induction false} JoinEnds(p: seq<string>)
    requires p != [] && p[|p| - 1] != ""
    ensures Join(p) != "" && Join(p)[|Join(p)| - 1] == p[|p| - 1][|p[|p| - 1]| - 1]
  {
    if |p| > 1 {
      JoinEnds(p[1..]);
    }
  }

  /**
   * Path#to_s undoes Path.new on a string exactly when the string is empty
   * or does not end with a dot (split drops trailing empty fields).
   */
  lemma StringRoundTrip(s: string)
    ensures Join(ToKeyPath(StrKey(s))) == s <==> (s == "" || s[|s| - 1] != '.')
  {
    var fs := Fields(s);
    DropTrailingEmptyShape(fs);
    FieldsDotFree(s);
    JoinFields(s);
    if s == "" {
    } else if s[|s| - 1] != '.' {
      FieldsLast(s);
      assert DropTrailingEmpty(fs) == fs;
    } else {
      var r := Split(s);
      if r != [] {
        JoinEnds(r);
        assert r[|r| - 1] == fs[|r| - 1];
        var last := r[|r| - 1];
        assert last[|last| - 1] in last;
      }
    }
  }

  /** A single field: the fields of x.y, where x has no dot, are x and the fields of y. */
  lemma {:induction false} FieldsDot(x: string, y: string)
    requires '.' !in x
    ensures Fields(x + "." + y) == [x] + Fields(y)
  {
    if x == [] {
      assert x + "." + y == ['.'] + y;
      assert (['.'] + y)[1..] == y;
    } else {
      assert (x + "." + y)[1..] == x[1..] + "." + y;
      FieldsDot(x[1..], y);
      assert [x[0]] + x[1..] == x;
    }
  }

  /** Path.new(path.to_s) gives back a path whose segments are plain. */
  lemma {:induction false} PathRoundTrip(p: KeyPath)
    requires forall i :: 0 <= i < |p| ==> PlainSegment(p[i])
    ensures ToKeyPath(StrKey(Join(p))) == p
  {
    FieldsOfJoin(p);
    if p != [] {
      assert p[|p| - 1] != "";
    }
  }

  lemma {:induction false} FieldsOfJoin(p: KeyPath)
    requires forall i :: 0 <= i < |p| ==> PlainSegment(p[i])
    ensures p != [] ==> Fields(Join(p)) == p
  {
    if |p| == 1 {
      FieldsDotFree(p[0]);
    } else if |p| > 1 {
      FieldsOfJoin(p[1..]);
      FieldsDot(p[0], Join(p[1..]));
      assert [p[0]] + p[1..] == p;
    }
  }

  /**
   * A plain segment, as a Symbol or a String, is a path of one segment; and
   * every Symbol is split exactly like the String of its name.
   */
  lemma PlainSymbol(seg: string)
    requires PlainSegment(seg)
    ensures ToKeyPath(SymKey(seg)) == [seg] && ToKeyPath(StrKey(seg)) == [seg]
    ensures forall s :: ToKeyPath(SymKey(s)) == ToKeyPath(StrKey(s))
  {
    FieldsDotFree(seg);
  }

  lemma SeqAssoc<T>(x: seq<T>, y: seq<T>, z: seq<T>)
    ensures (x + y) + z == x + (y + z)
  {
  }

  /** Path[a + b] is Path[a] followed by Path[b]. */
  lemma {:induction false} ConcatPathsAppend(a: seq<KeySource>, b: seq<KeySource>)
    ensures ConcatPaths(a + b) == ConcatPaths(a) + ConcatPaths(b)
  {
    if b != [] {
      var ab, init, x := a + b, b[..|b| - 1], b[|b| - 1];
      assert ab[..|ab| - 1] == a + init;
      assert ab[|ab| - 1] == x;
      ConcatPathsAppend(a, init);
      var pa, pi, px := ConcatPaths(a), ConcatPaths(init), ToKeyPath(x);
      calc {
        ConcatPaths(ab);
        ConcatPaths(a + init) + px;
        (pa + pi) + px;
        { SeqAssoc(pa, pi, px); }
        pa + (pi + px);
      }
    } else {
      assert a + b == a;
    }
  }

  /** prefix? is a partial order with the empty path at the bottom. */
  lemma PrefixOrder(p: KeyPath, q: KeyPath, r: KeyPath)
    ensures IsPrefix(p, []) && IsPrefix(p, p)
    ensures IsPrefix(p, q) && IsPrefix(q, r) ==> IsPrefix(p, r)
    ensures IsPrefix(p, q) && IsPrefix(q, p) ==> p == q
  {
    if IsPrefix(p, q) && IsPrefix(q, r) {
      assert p[..|r|] == p[..|q|][..|r|];
    }
  }

  /** conflict? is symmetric, and when it holds exactly one path leads the other. */
  lemma ConflictSymmetric(p: KeyPath, q: KeyPath)
    ensures Conflict(p, q) == Conflict(q, p)
    ensures Conflict(p, q) == Some(true) ==> (IsPrefix(p, q) != IsPrefix(q, p))
  {
    PrefixOrder(p, q, p);
  }

  /** Path['a.b'] and Path[[:a, :b]] are the same path. */
  lemma DottedStringExample()
    ensures ToKeyPath(StrKey("a.b")) == ["a", "b"] == ToKeyPath(ArrKey(["a", "b"]))
    ensures ToKeyPath(StrKey("")) == [] && ToKeyPath(StrKey("a.")) == ["a"]
  {
    FieldsDot("a", "b");
    FieldsDotFree("b");
    FieldsDot("a", "");
  }
}

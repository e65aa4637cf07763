/** The values bpickle carries, and the order in which `dumps_dict` writes dictionary keys. */
module KeyOrder {
  import opened Common

  type byte = n: int | 0 <= n < 256
  type Bytes = seq<byte>

  /** Text is the UTF-8 encoding of a `str`; a float is the text `repr` gives for it. */
  datatype Value =
    | VNone
    | VBool(b: bool)
    | VInt(n: int)
    | VFloat(token: Bytes)
    | VBytes(s: Bytes)
    | VText(s: Bytes)
    | VList(xs: seq<Value>)
    | VTuple(xs: seq<Value>)
    | VDict(m: map<Value, Value>)

  /** Whether a value can be a dictionary key. */
  predicate Hashable(v: Value) {
    match v
    case VList(_) => false
    case VDict(_) => false
    case VTuple(xs) => forall x :: x in xs ==> Hashable(x)
    case _ => true
  }

  /** `keys.sort()` does not raise: one key, or keys of mutually comparable types. */
  predicate Sortable(keys: set<Value>) {
    forall k, l :: k in keys && l in keys && k != l ==> Comparable(k, l)
  }

  /** `k < l` does not raise. Tuples are compared at the first place where they differ. */
  predicate Comparable(k: Value, l: Value)
    decreases k
  {
    match k
    case VBool(_) => l.VBool? || l.VInt? || l.VFloat?
    case VInt(_) => l.VBool? || l.VInt? || l.VFloat?
    case VFloat(_) => l.VBool? || l.VInt? || l.VFloat?
    case VBytes(_) => l.VBytes?
    case VText(_) => l.VText?
    case VTuple(xs) => l.VTuple? && ComparableItems(xs, l.xs)
    case _ => false
  }

  predicate ComparableItems(xs: seq<Value>, ys: seq<Value>)
    decreases xs
  {
    xs == [] || ys == []
    || if Equal(xs[0], ys[0]) then ComparableItems(xs[1..], ys[1..]) else Comparable(xs[0], ys[0])
  }

  /** `k == l`; truth values are the numbers one and zero. */
  predicate Equal(k: Value, l: Value)
    decreases k
  {
    if (k.VBool? || k.VInt?) && (l.VBool? || l.VInt?) then Number(k) == Number(l)
    else if k.VTuple? && l.VTuple? then
      |k.xs| == |l.xs| && forall i :: 0 <= i < |k.xs| ==> Equal(k.xs[i], l.xs[i])
    else k == l
  }

  function Number(k: Value): int
    requires k.VBool? || k.VInt?
  {
    match k
    case VBool(b) => if b then 1 else 0
    case VInt(n) => n
  }

  /** Tuples of one element each whose elements cannot be compared cannot be sorted. */
  lemma MixedTuples(n: int, s: Bytes)
    ensures !Sortable({VTuple([VInt(n)]), VTuple([VText(s)])})
  {
    var k, l := VTuple([VInt(n)]), VTuple([VText(s)]);
    assert !Equal(k.xs[0], l.xs[0]) && !Comparable(k.xs[0], l.xs[0]);
    assert !ComparableItems(k.xs, l.xs);
    assert k in {k, l} && l in {k, l} && k != l;
  }

  // ---------------------------------------------------------------------------------
  // The order of keys
  // ---------------------------------------------------------------------------------

  /** Lexicographic order. */
  predicate LexLess(a: seq<int>, b: seq<int>) {
    b != [] && (a == [] || a[0] < b[0] || (a[0] == b[0] && LexLess(a[1..], b[1..])))
  }

  /** The first place where they differ decides; a proper prefix comes first. */
  lemma {:induction false} LexMeaning(a: seq<int>, b: seq<int>)
    ensures LexLess(a, b) <==>
              exists i :: 0 <= i <= |a| && i < |b| && a[..i] == b[..i] && (i == |a| || a[i] < b[i])
    decreases |a|
  {
    assert a[..0] == b[..0];
    if a != [] && b != [] && a[0] == b[0] {
      var c, d := a[1..], b[1..];
      LexMeaning(c, d);
      if LexLess(c, d) {
        var i :| 0 <= i <= |c| && i < |d| && c[..i] == d[..i] && (i == |c| || c[i] < d[i]);
        assert a[..i + 1] == [a[0]] + c[..i] && b[..i + 1] == [b[0]] + d[..i];
        assert i + 1 == |a| || a[i + 1] < b[i + 1];
      }
      if i :| 0 <= i <= |a| && i < |b| && a[..i] == b[..i] && (i == |a| || a[i] < b[i]) {
        assert c[..i - 1] == a[..i][1..] && d[..i - 1] == b[..i][1..];
        assert i - 1 == |c| || c[i - 1] < d[i - 1];
      }
    } else if i :| 0 <= i <= |a| && i < |b| && a[..i] == b[..i] && (i == |a| || a[i] < b[i]) {
      if i > 0 {
        assert a[..i][0] == a[0] && b[..i][0] == b[0];
      }
    }
  }

  function StringCode(s: Bytes): seq<int> {
    if s == [] then [0] else [s[0] + 1] + StringCode(s[1..])
  }

  /** A code whose lexicographic order is the order of the keys: numbers by value, strings
      and tuples element by element, a proper prefix first. */
  function Code(v: Value): (c: seq<int>)
    ensures c != []
    decreases v
  {
    match v
    case VNone => [0]
    case VBool(b) => [1, if b then 1 else 0, 1]
    case VInt(n) => [1, n, 0]
    case VFloat(t) => [2] + StringCode(t)
    case VBytes(s) => [3] + StringCode(s)
    case VText(s) => [4] + StringCode(s)
    case VTuple(xs) => [5] + TupleCode(xs)
    case VList(xs) => [6]
    case VDict(m) => [7]
  }

  function TupleCode(xs: seq<Value>): (c: seq<int>)
    ensures c != []
    decreases xs
  {
    if xs == [] then [0] else [1] + Code(xs[0]) + TupleCode(xs[1..])
  }

  predicate KeyLess(k: Value, l: Value) {
    LexLess(Code(k), Code(l))
  }

  lemma {:induction false} LexTotal(a: seq<int>, b: seq<int>)
    ensures LexLess(a, b) || a == b || LexLess(b, a)
    ensures !(LexLess(a, b) && (a == b || LexLess(b, a)))
  {
    if a != [] && b != [] {
      LexTotal(a[1..], b[1..]);
      assert a == [a[0]] + a[1..] && b == [b[0]] + b[1..];
    }
  }

  lemma {:induction false} LexTransitive(a: seq<int>, b: seq<int>, c: seq<int>)
    requires LexLess(a, b) && LexLess(b, c)
    ensures LexLess(a, c)
    decreases |a|
  {
    if a != [] && a[0] == b[0] == c[0] {
      LexTransitive(a[1..], b[1..], c[1..]);
    }
  }

  lemma {:induction false} StringCodeInjective(s: Bytes, t: Bytes, x: seq<int>, y: seq<int>)
    requires StringCode(s) + x == StringCode(t) + y
    ensures s == t && x == y
  {
    var a, b := StringCode(s) + x, StringCode(t) + y;
    assert a[0] == b[0];
    if s == [] {
      assert a[1..] == x && b[1..] == y;
    } else {
      assert a[1..] == StringCode(s[1..]) + x && b[1..] == StringCode(t[1..]) + y;
      StringCodeInjective(s[1..], t[1..], x, y);
      assert s == [s[0]] + s[1..] && t == [t[0]] + t[1..];
    }
  }

  /** Distinct keys have distinct codes, whatever follows them. */
  lemma {:induction false} CodeInjective(k: Value, l: Value, x: seq<int>, y: seq<int>)
    requires Hashable(k) && Hashable(l) && Code(k) + x == Code(l) + y
    ensures k == l && x == y
    decreases k, 1
  {
    var a, b := Code(k) + x, Code(l) + y;
    assert a[0] == Code(k)[0] && b[0] == Code(l)[0];
    match k
    case VNone => assert a[1..] == x && b[1..] == y;
    case VBool(c) => assert a[1] == b[1] && a[2] == b[2] && a[3..] == x && b[3..] == y;
    case VInt(n) => assert a[1] == b[1] && a[2] == b[2] && a[3..] == x && b[3..] == y;
    case VFloat(t) => TailCode(k, l, x, y); StringCodeInjective(t, l.token, x, y);
    case VBytes(t) => TailCode(k, l, x, y); StringCodeInjective(t, l.s, x, y);
    case VText(t) => TailCode(k, l, x, y); StringCodeInjective(t, l.s, x, y);
    case VTuple(ks) => TailCode(k, l, x, y); TupleCodeInjective(k, ks, l.xs, x, y);
  }

  lemma TailCode(k: Value, l: Value, x: seq<int>, y: seq<int>)
    requires Code(k) + x == Code(l) + y
    ensures Code(k)[1..] + x == Code(l)[1..] + y
  {
    assert (Code(k) + x)[1..] == Code(k)[1..] + x;
    assert (Code(l) + y)[1..] == Code(l)[1..] + y;
  }

  lemma {:induction false} TupleCodeInjective(parent: Value, ks: seq<Value>, ls: seq<Value>, x: seq<int>, y: seq<int>)
    requires forall k :: k in ks ==> Hashable(k) && k < parent
    requires forall l :: l in ls ==> Hashable(l)
    requires TupleCode(ks) + x == TupleCode(ls) + y
    ensures ks == ls && x == y
    decreases parent, 0, |ks|
  {
    assert (TupleCode(ks) + x)[0] == TupleCode(ks)[0] && (TupleCode(ls) + y)[0] == TupleCode(ls)[0];
    TupleCodeParts(ks, x);
    TupleCodeParts(ls, y);
    if ks != [] {
      hide Code, Hashable, TupleCode;
      assert ks[0] in ks && ls[0] in ls;
      CodeInjective(ks[0], ls[0], TupleCode(ks[1..]) + x, TupleCode(ls[1..]) + y);
      TupleCodeInjective(parent, ks[1..], ls[1..], x, y);
      assert ks == [ks[0]] + ks[1..] && ls == [ls[0]] + ls[1..];
    }
  }

  lemma TupleCodeParts(ks: seq<Value>, x: seq<int>)
    ensures (TupleCode(ks) + x)[1..] == if ks == [] then x else Code(ks[0]) + (TupleCode(ks[1..]) + x)
  {
  }

  /** `KeyLess` is a strict total order on the values that can be keys. */
  lemma KeyOrderTotal(k: Value, l: Value)
    requires Hashable(k) && Hashable(l)
    ensures KeyLess(k, l) || k == l || KeyLess(l, k)
    ensures !(KeyLess(k, l) && (k == l || KeyLess(l, k)))
  {
    LexTotal(Code(k), Code(l));
    if Code(k) == Code(l) {
      CodeInjective(k, l, [], []);
    }
  }

  ghost predicate AllHashable(keys: set<Value>) {
    forall k :: k in keys ==> Hashable(k)
  }

  predicate Least(keys: set<Value>, k: Value) {
    k in keys && forall l :: l in keys ==> l == k || KeyLess(k, l)
  }

  lemma {:induction false} LeastExists(keys: set<Value>)
    requires keys != {} && AllHashable(keys)
    ensures exists k :: Least(keys, k)
    decreases keys
  {
    var k :| k in keys;
    if keys == {k} {
      assert Least(keys, k);
    } else {
      assert keys - {k} != {} by {
        assert keys != {k};
        assert forall x :: x in keys ==> x == k || x in keys - {k};
      }
      LeastExists(keys - {k});
      var m :| Least(keys - {k}, m);
      KeyOrderTotal(k, m);
      if KeyLess(k, m) {
        forall l | l in keys && l != k ensures KeyLess(k, l) {
          if l != m {
            assert l in keys - {k} && KeyLess(m, l);
            LexTransitive(Code(k), Code(m), Code(l));
          }
        }
        assert Least(keys, k);
      } else {
        assert Least(keys, m);
      }
    }
  }

  /** The keys in ascending order; the order does not matter for sets that cannot be keys. */
  ghost function SortedKeys(keys: set<Value>): (r: seq<Value>)
    ensures forall k :: k in r <==> k in keys
    ensures |r| == |keys|
    decreases keys
  {
    if keys == {} then [] else
    var k :| k in keys && ((exists j :: Least(keys, j)) ==> Least(keys, k));
    [k] + SortedKeys(keys - {k})
  }

  ghost predicate Ascending(r: seq<Value>) {
    forall i, j :: 0 <= i < j < |r| ==> KeyLess(r[i], r[j])
  }

  lemma {:induction false} SortedKeysAscending(keys: set<Value>)
    requires AllHashable(keys)
    ensures Ascending(SortedKeys(keys))
    decreases keys
  {
    var r := SortedKeys(keys);
    if keys != {} {
      LeastExists(keys);
      SortedKeysAscending(keys - {r[0]});
      forall i, j | 0 <= i < j < |r| ensures KeyLess(r[i], r[j]) {
        if i == 0 {
          assert r[1..][j - 1] in keys - {r[0]};
        } else {
          assert r[1..][i - 1] == r[i] && r[1..][j - 1] == r[j];
        }
      }
    }
  }

  /** `keys.sort()`: taking the least remaining key until none is left. */
  method SortKeys(keys: set<Value>) returns (r: seq<Value>)
    requires AllHashable(keys)
    ensures r == SortedKeys(keys) && Ascending(r)
  {
    var rest := keys;
    r := [];
    while rest != {}
      invariant rest <= keys
      invariant r + SortedKeys(rest) == SortedKeys(keys)
      decreases rest
    {
      LeastExists(rest);
      var k :| k in rest && Least(rest, k);
      SortedKeysStep(rest, k);
      Regroup(r, [k], SortedKeys(rest - {k}));
      r := r + [k];
      rest := rest - {k};
    }
    SortedKeysAscending(keys);
    assert r + [] == r;
  }

  lemma SortedKeysStep(keys: set<Value>, k: Value)
    requires AllHashable(keys) && Least(keys, k)
    ensures SortedKeys(keys) == [k] + SortedKeys(keys - {k})
  {
    KeyOrderTotal(k, SortedKeys(keys)[0]);
  }

  /** Numbers sort by value and strings byte by byte. */
  lemma KeyOrderMeaning(m: int, n: int, s: Bytes, t: Bytes)
    ensures KeyLess(VInt(m), VInt(n)) <==> m < n
    ensures KeyLess(VText(s), VText(t)) <==> LexLess(s, t)
    ensures KeyLess(VBytes(s), VBytes(t)) <==> LexLess(s, t)
    ensures n < 0 ==> KeyLess(VInt(n), VBool(false))
    ensures n < 1 ==> KeyLess(VInt(n), VBool(true))
    ensures n > 0 ==> KeyLess(VBool(false), VInt(n))
    ensures n > 1 ==> KeyLess(VBool(true), VInt(n))
    ensures KeyLess(VBool(false), VBool(true))
  {
    var a, b := Code(VInt(m)), Code(VInt(n));
    assert a[1..] == [m, 0] && b[1..] == [n, 0];
    assert [m, 0][1..] == [0] && [n, 0][1..] == [0];
    assert LexLess([m, 0], [n, 0]) <==> m < n by {
      LexTotal([0], [0]);
    }
    var f, g := Code(VBool(false)), Code(VBool(true));
    assert f[1..] == [0, 1] && g[1..] == [1, 1];
    StringCodeOrder(s, t);
    assert Code(VText(s))[1..] == StringCode(s) && Code(VText(t))[1..] == StringCode(t);
    assert Code(VBytes(s))[1..] == StringCode(s) && Code(VBytes(t))[1..] == StringCode(t);
  }

  /** Tuples sort element by element. */
  lemma TupleOrder(x: Value, xs: seq<Value>, y: Value, ys: seq<Value>)
    requires Hashable(VTuple([x] + xs)) && Hashable(VTuple([y] + ys))
    ensures KeyLess(VTuple([x] + xs), VTuple([y] + ys))
       <==> KeyLess(x, y) || (x == y && KeyLess(VTuple(xs), VTuple(ys)))
  {
    hide Code, TupleCode, Hashable, LexLess;
    var a, b, s, t := Code(x), Code(y), TupleCode(xs), TupleCode(ys);
    FirstHashable(x, xs);
    FirstHashable(y, ys);
    TupleParts(x, xs);
    TupleParts(y, ys);
    SameHead(5, [1] + (a + s), [1] + (b + t));
    SameHead(1, a + s, b + t);
    SameHead(5, s, t);
    CodesDiffer(x, y, s, t);
  }

  /** The empty tuple comes before all others. */
  lemma EmptyTupleFirst(y: Value, ys: seq<Value>)
    ensures KeyLess(VTuple([]), VTuple([y] + ys))
  {
    hide LexLess;
    TupleParts(y, ys);
    var t := Code(y) + TupleCode(ys);
    SameHead(5, [0], [1] + t);
    assert Code(VTuple([])) == [5] + [0];
    LowerFirst(0, 1, t);
  }

  lemma LowerFirst(c: int, d: int, t: seq<int>)
    requires c < d
    ensures LexLess([c], [d] + t)
  {
  }

  lemma FirstHashable(x: Value, xs: seq<Value>)
    requires Hashable(VTuple([x] + xs))
    ensures Hashable(x)
  {
    assert x in [x] + xs;
  }

  /** The codes of the first elements decide, and if those are the same, what follows. */
  lemma CodesDiffer(x: Value, y: Value, s: seq<int>, t: seq<int>)
    requires Hashable(x) && Hashable(y)
    ensures LexLess(Code(x) + s, Code(y) + t)
       <==> LexLess(Code(x), Code(y)) || (x == y && LexLess(s, t))
  {
    hide Code, Hashable, LexLess;
    var a, b := Code(x), Code(y);
    LexTotal(a, a);
    if x == y {
      SamePrefix(a, s, t);
    } else {
      NotPrefix(x, y);
      NotPrefix(y, x);
      LexAppend(a, b, s, t);
    }
  }

  /** The code of a key is not the front of another one's. */
  lemma NotPrefix(x: Value, y: Value)
    requires Hashable(x) && Hashable(y) && x != y
    ensures !(Code(x) <= Code(y))
  {
    hide Code, Hashable;
    if Code(x) <= Code(y) {
      assert Code(x) + Code(y)[|Code(x)|..] == Code(y) + [];
      CodeInjective(x, y, Code(y)[|Code(x)|..], []);
    }
  }

  lemma TupleParts(x: Value, xs: seq<Value>)
    ensures Code(VTuple(xs)) == [5] + TupleCode(xs)
    ensures Code(VTuple([x] + xs)) == [5] + ([1] + (Code(x) + TupleCode(xs)))
  {
    assert ([x] + xs)[1..] == xs;
    assert [1] + Code(x) + TupleCode(xs) == [1] + (Code(x) + TupleCode(xs));
  }

  lemma SameHead(c: int, a: seq<int>, b: seq<int>)
    ensures LexLess([c] + a, [c] + b) <==> LexLess(a, b)
  {
    assert ([c] + a)[1..] == a && ([c] + b)[1..] == b;
  }

  lemma {:induction false} SamePrefix(c: seq<int>, a: seq<int>, b: seq<int>)
    ensures LexLess(c + a, c + b) <==> LexLess(a, b)
  {
    if c == [] {
      assert c + a == a && c + b == b;
    } else {
      SamePrefix(c[1..], a, b);
      SameHead(c[0], c[1..] + a, c[1..] + b);
      assert [c[0]] + (c[1..] + a) == c + a && [c[0]] + (c[1..] + b) == c + b;
    }
  }

  /** What follows codes that differ does not matter. */
  lemma {:induction false} LexAppend(a: seq<int>, b: seq<int>, s: seq<int>, t: seq<int>)
    requires !(a <= b) && !(b <= a)
    ensures LexLess(a + s, b + t) <==> LexLess(a, b)
    decreases |a|
  {
    assert (a + s)[1..] == a[1..] + s && (b + t)[1..] == b[1..] + t;
    if a[0] == b[0] {
      assert a == [a[0]] + a[1..] && b == [b[0]] + b[1..];
      LexAppend(a[1..], b[1..], s, t);
    }
  }

  lemma {:induction false} StringCodeOrder(s: Bytes, t: Bytes)
    ensures LexLess(StringCode(s), StringCode(t)) <==> LexLess(s, t)
  {
    if s != [] && t != [] {
      StringCodeOrder(s[1..], t[1..]);
      assert StringCode(s)[1..] == StringCode(s[1..]) && StringCode(t)[1..] == StringCode(t[1..]);
    }
  }
}

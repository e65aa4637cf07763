/** The format spelled out: the bytes a dump consists of, the numbers and texts it can hold, and the
    values that can be dumped, independently of the printer and the parser. */
module BpickleFormat {
  import opened Common
  import opened KeyOrder
  import opened Decimal
  import opened Bpickle
  import opened BpickleProofs

  /** Every kind of value has its letter. */
  lemma WireFormat(b: bool, n: int, t: Bytes, s: Bytes, xs: seq<Value>)
    requires FloatToken(t) && forall x :: x in xs ==> Dumpable(x)
    ensures Dumps(VNone) == ['n' as int]
    ensures Dumps(VBool(b)) == ['b' as int, if b then '1' as int else '0' as int]
    ensures Dumps(VInt(n)) == ['i' as int] + IntText(n) + [';' as int]
    ensures Dumps(VFloat(t)) == ['f' as int] + t + [';' as int]
    ensures Dumps(VBytes(s)) == ['s' as int] + IntText(|s|) + [':' as int] + s
    ensures ValidUtf8(s) ==> Dumps(VText(s)) == ['u' as int] + IntText(|s|) + [':' as int] + s
    ensures Dumps(VList(xs)) == ['l' as int] + DumpItems(xs) + [';' as int]
    ensures Dumps(VTuple(xs)) == ['t' as int] + DumpItems(xs) + [';' as int]
  {
  }

  /** Items one after the other; entries key first. */
  lemma WireItems(x: Value, xs: seq<Value>, dict: Value, k: Value, keys: seq<Value>)
    requires Dumpable(x) && forall y :: y in xs ==> Dumpable(y)
    requires dict.VDict? && Dumpable(dict) && k in dict.m && forall l :: l in keys ==> l in dict.m
    ensures DumpItems([]) == [] && DumpItems([x] + xs) == Dumps(x) + DumpItems(xs)
    ensures DumpPairs(dict, []) == []
    ensures DumpPairs(dict, [k] + keys) == Dumps(k) + Dumps(dict.m[k]) + DumpPairs(dict, keys)
    ensures Dumps(dict) == ['d' as int] + DumpPairs(dict, SortedKeys(dict.m.Keys)) + [';' as int]
  {
    assert ([x] + xs)[1..] == xs && ([k] + keys)[1..] == keys;
    DictFrame(dict);
  }

  // ---------------------------------------------------------------------------------
  // What the parser takes beyond dumps
  // ---------------------------------------------------------------------------------

  /** An integer is whatever is a number up to the semicolon. */
  lemma LoadsInts(t: Bytes, more: Bytes, asIs: bool)
    requires ';' as int !in t
    ensures Loads(['i' as int] + t + [';' as int] + more, asIs)
         == match ParseInt(t) case Some(n) => Loaded(VInt(n)) case None => Raised(ValueError)
  {
    var s := [INT] + t + [SEMI] + more;
    AtFront([INT] + t + [SEMI], more);
    FramedAt(s, 0, INT, t, SEMI);
  }

  /** A truth value is one character: a digit other than zero is true. */
  lemma LoadsBools(c: byte, more: Bytes, asIs: bool)
    ensures Loads(['b' as int, c] + more, asIs)
         == match ParseInt([c]) case Some(n) => Loaded(VBool(n != 0)) case None => Raised(ValueError)
  {
    var s := [BOOL, c] + more;
    assert s[0] == BOOL && s[1..2] == [c];
    assert Slice(s, 1, 2) == [c];
  }

  lemma BytesLoad(s: Bytes)
    requires s != [] && s[0] == BYTES
    ensures forall asIs :: Loads(s, asIs)
                        == match LoadString(s, 0) case Ok(b, _) => Loaded(VBytes(b)) case Err(e) => Raised(e)
  {
    hide LoadString, LoadPairs, LoadItems;
  }

  /** A string is as long as the number up to the colon says, or as the data go. */
  lemma LoadsStrings(t: Bytes, rest: Bytes, asIs: bool)
    requires ':' as int !in t
    ensures Loads(['s' as int] + t + [':' as int] + rest, asIs)
         == match ParseInt(t)
            case Some(n) =>
              if n < 0 then Raised(ValueError) else Loaded(VBytes(if n <= |rest| then rest[..n] else rest))
            case None => Raised(ValueError)
  {
    hide Load, ParseInt;
    var s, h := [BYTES] + t + [COLON] + rest, [BYTES] + t + [COLON];
    BytesLoad(s);
    AtFront(h, rest);
    FramedAt(s, 0, BYTES, t, COLON);
    if ParseInt(t).Some? && ParseInt(t).value >= 0 {
      SliceBehind(h, rest, ParseInt(t).value);
    }
  }

  lemma SliceBehind(h: Bytes, rest: Bytes, n: nat)
    ensures Slice(h + rest, |h|, |h| + n) == if n <= |rest| then rest[..n] else rest
  {
  }

  lemma AtFront(d: Bytes, more: Bytes)
    ensures At(d + more, 0, d)
  {
  }

  /** Data without a known letter in front are an error. */
  lemma LoadsUnknown(s: Bytes, asIs: bool)
    requires s == [] || (s[0] != 'n' as int && s[0] != 'b' as int && s[0] != 'i' as int && s[0] != 'f' as int
                         && s[0] != 's' as int && s[0] != 'u' as int && s[0] != 'l' as int && s[0] != 't' as int
                         && s[0] != 'd' as int)
    ensures Loads(s, asIs).Raised?
  {
  }

  // ---------------------------------------------------------------------------------
  // Numbers
  // ---------------------------------------------------------------------------------

  /** The number decimal digits stand for. */
  function DecimalValue(d: Bytes): int {
    if d == [] then 0 else 10 * DecimalValue(d[..|d| - 1]) + (d[|d| - 1] - '0' as int)
  }

  predicate AllDigits(d: Bytes) {
    forall i :: 0 <= i < |d| ==> '0' as int <= d[i] <= '9' as int
  }

  /** Numbers are printed in decimal, without leading zeros, with a minus sign if negative. */
  lemma {:induction false} IntTextMeaning(n: nat)
    ensures var d := IntText(n);
            && d != [] && AllDigits(d) && DecimalValue(d) == n && (d[0] == '0' as int ==> n == 0)
            && (n > 0 ==> IntText(-(n as int)) == ['-' as int] + d)
    ensures n == 0 ==> IntText(n) == ['0' as int]
  {
    if n >= 10 {
      IntTextMeaning(n / 10);
      var d := Digits(n / 10);
      assert Digits(n)[..|d|] == d;
    } else {
      assert Digits(n)[..0] == [];
    }
  }

  /** Any digits are read as the number they stand for, with or without a sign. */
  lemma ParseIntMeaning(d: Bytes)
    requires d != [] && AllDigits(d)
    ensures ParseInt(d) == Some(DecimalValue(d))
    ensures ParseInt(['+' as int] + d) == Some(DecimalValue(d))
    ensures ParseInt(['-' as int] + d) == Some(-DecimalValue(d))
  {
    DigitsRead(d);
    var p, m := ['+' as int] + d, ['-' as int] + d;
    assert p[1..] == d && m[1..] == d;
    assert p[|p| - 1] == d[|d| - 1] == m[|m| - 1];
    assert TrimLeft(d) == d && TrimRight(d) == d;
    assert TrimLeft(p) == p && TrimRight(p) == p;
    assert TrimLeft(m) == m && TrimRight(m) == m;
  }

  lemma {:induction false} DigitsRead(d: Bytes)
    requires d != [] && AllDigits(d)
    ensures ParseDigits(d) == Some(DecimalValue(d))
  {
    if |d| > 1 {
      DigitsRead(d[..|d| - 1]);
    } else {
      assert d[..0] == [];
    }
  }

  /** White space around a number does not matter, and one underscore between digits does not. */
  lemma ParseIntSpaces(s: Bytes, c: byte)
    requires c == ' ' as int || 9 <= c <= 13
    ensures ParseInt([c] + s) == ParseInt(s)
    ensures ParseInt(s + [c]) == ParseInt(s)
  {
    assert ([c] + s)[1..] == s;
    TrimBoth(s, c);
  }

  lemma {:induction false} TrimBoth(s: Bytes, c: byte)
    requires IsSpace(c)
    ensures TrimRight(TrimLeft(s + [c])) == TrimRight(TrimLeft(s))
  {
    var t := s + [c];
    if s == [] {
      assert t[1..] == [];
    } else if IsSpace(s[0]) {
      assert t[1..] == s[1..] + [c];
      TrimBoth(s[1..], c);
    } else {
      assert t[..|t| - 1] == s;
    }
  }

  lemma {:induction false} Underscores(a: Bytes, b: Bytes)
    requires a != [] && b != [] && AllDigits(a) && AllDigits(b)
    ensures ParseDigits(a + ['_' as int] + b) == Some(DecimalValue(a + b))
  {
    var u, s, i := a + ['_' as int], a + ['_' as int] + b, b[..|b| - 1];
    assert s[|s| - 1] == b[|b| - 1] && s[..|s| - 1] == u + i;
    assert (a + b)[..|a + b| - 1] == a + i && (a + b)[|a + b| - 1] == b[|b| - 1];
    if i == [] {
      assert u + i == u && a + i == a && u[..|u| - 1] == a;
      DigitsRead(a);
    } else {
      Underscores(a, i);
      assert (u + i)[|u + i| - 1] == i[|i| - 1];
    }
  }

  /** Nothing, and anything with another character in it, is not a number. */
  lemma ParseIntRefuses(s: Bytes, i: nat)
    ensures ParseInt([]) == None
    ensures i < |s| && Foreign(s[i]) ==> ParseInt(s) == None
  {
    if i < |s| && Foreign(s[i]) {
      ForeignLeft(s, i);
      var l := TrimLeft(s);
      var j :| 0 <= j < |l| && Foreign(l[j]);
      ForeignRight(l, j);
      var t := TrimRight(l);
      var k :| 0 <= k < |t| && Foreign(t[k]);
      if t[0] == PLUS || t[0] == MINUS {
        assert t[1..][k - 1] == t[k];
        ForeignDigits(t[1..], k - 1);
      } else {
        ForeignDigits(t, k);
      }
    }
  }

  predicate Foreign(c: byte) {
    !('0' as int <= c <= '9' as int) && c != ' ' as int && !(9 <= c <= 13)
    && c != '+' as int && c != '-' as int && c != '_' as int
  }

  lemma {:induction false} ForeignLeft(s: Bytes, i: nat)
    requires i < |s| && Foreign(s[i])
    ensures exists j :: 0 <= j < |TrimLeft(s)| && Foreign(TrimLeft(s)[j])
  {
    if IsSpace(s[0]) {
      assert s[1..][i - 1] == s[i] && TrimLeft(s) == TrimLeft(s[1..]);
      ForeignLeft(s[1..], i - 1);
    } else {
      assert TrimLeft(s)[i] == s[i];
    }
  }

  lemma {:induction false} ForeignRight(s: Bytes, i: nat)
    requires i < |s| && Foreign(s[i])
    ensures exists j :: 0 <= j < |TrimRight(s)| && Foreign(TrimRight(s)[j])
  {
    if IsSpace(s[|s| - 1]) {
      assert s[..|s| - 1][i] == s[i] && TrimRight(s) == TrimRight(s[..|s| - 1]);
      ForeignRight(s[..|s| - 1], i);
    } else {
      assert TrimRight(s)[i] == s[i];
    }
  }

  lemma {:induction false} ForeignDigits(s: Bytes, i: nat)
    requires i < |s| && Foreign(s[i])
    ensures ParseDigits(s) == None
    decreases |s|
  {
    if |s| > 1 && i < |s| - 1 {
      var rest := s[..|s| - 1];
      ForeignDigits(if rest[|rest| - 1] == UNDERSCORE then rest[..|rest| - 1] else rest, i);
    }
  }

  // ---------------------------------------------------------------------------------
  // Text
  // ---------------------------------------------------------------------------------

  /** A Unicode scalar value. */
  predicate Scalar(c: int) {
    0 <= c <= 0x10FFFF && !(0xD800 <= c <= 0xDFFF)
  }

  /** Its encoding (section 3 of RFC 3629). */
  function Encode(c: int): Bytes
    requires Scalar(c)
  {
    if c < 0x80 then [c]
    else if c < 0x800 then [0xC0 + c / 0x40, 0x80 + c % 0x40]
    else if c < 0x10000 then [0xE0 + c / 0x1000, 0x80 + c / 0x40 % 0x40, 0x80 + c % 0x40]
    else [0xF0 + c / 0x40000, 0x80 + c / 0x1000 % 0x40, 0x80 + c / 0x40 % 0x40, 0x80 + c % 0x40]
  }

  predicate Scalars(cs: seq<int>) {
    forall i :: 0 <= i < |cs| ==> Scalar(cs[i])
  }

  function EncodeAll(cs: seq<int>): Bytes
    requires Scalars(cs)
  {
    if cs == [] then [] else Encode(cs[0]) + EncodeAll(cs[1..])
  }

  /** The encoding of one scalar value, with anything behind it. */
  lemma EncodeValid(c: int, more: Bytes)
    requires Scalar(c)
    ensures ValidUtf8(Encode(c) + more) <==> ValidUtf8(more)
  {
    var e := Encode(c);
    var s := e + more;
    assert s[|e|..] == more;
    if c >= 0x10000 {
      assert 0x10 <= c / 0x1000 && (c / 0x40000 == 0 ==> c / 0x1000 % 0x40 >= 0x10);
      assert c / 0x40000 == 4 ==> c / 0x1000 % 0x40 <= 0xF;
    } else if c >= 0x800 {
      assert c / 0x1000 == 0 ==> c / 0x40 % 0x40 >= 0x20;
      assert c / 0x1000 == 0xD ==> c / 0x40 % 0x40 < 0x20;
    }
  }

  lemma {:induction false} EncodedValid(cs: seq<int>)
    requires Scalars(cs)
    ensures ValidUtf8(EncodeAll(cs))
  {
    if cs != [] {
      EncodedValid(cs[1..]);
      EncodeValid(cs[0], EncodeAll(cs[1..]));
    }
  }

  /** The scalar value at the start of well-formed text. */
  lemma DecodeOne(s: Bytes) returns (c: int)
    requires ValidUtf8(s) && s != []
    ensures Scalar(c) && Encode(c) <= s && ValidUtf8(s[|Encode(c)|..])
  {
    var a: int := s[0];
    if a <= 0x7F {
      c := a;
    } else if a <= 0xDF {
      var b: int := s[1];
      c := (a - 0xC0) * 0x40 + (b - 0x80);
      Digits64(a - 0xC0, b - 0x80);
    } else if a <= 0xEF {
      var b: int, b2: int := s[1], s[2];
      var d := (a - 0xE0) * 0x40 + (b - 0x80);
      c := d * 0x40 + (b2 - 0x80);
      Digits64(d, b2 - 0x80);
      Digits64(a - 0xE0, b - 0x80);
      assert c / 0x1000 == d / 0x40;
    } else {
      var b: int, b2: int, b3: int := s[1], s[2], s[3];
      var d := (a - 0xF0) * 0x40 + (b - 0x80);
      var e := d * 0x40 + (b2 - 0x80);
      c := e * 0x40 + (b3 - 0x80);
      Digits64(e, b3 - 0x80);
      Digits64(d, b2 - 0x80);
      Digits64(a - 0xF0, b - 0x80);
      assert c / 0x1000 == d && c / 0x40000 == d / 0x40;
    }
  }

  lemma Digits64(d: int, r: int)
    requires 0 <= r < 0x40
    ensures (d * 0x40 + r) / 0x40 == d && (d * 0x40 + r) % 0x40 == r
  {
  }

  lemma {:induction false} DecodeAll(s: Bytes) returns (cs: seq<int>)
    requires ValidUtf8(s)
    ensures Scalars(cs) && EncodeAll(cs) == s
    decreases |s|
  {
    if s == [] {
      cs := [];
    } else {
      var c := DecodeOne(s);
      var rest := DecodeAll(s[|Encode(c)|..]);
      cs := [c] + rest;
      assert cs[1..] == rest;
    }
  }

  /** Text is exactly the encodings of scalar values, one after the other. */
  lemma Utf8Exactly(s: Bytes)
    ensures ValidUtf8(s) <==> exists cs: seq<int> :: Scalars(cs) && EncodeAll(cs) == s
  {
    if ValidUtf8(s) {
      var cs := DecodeAll(s);
    }
    if cs: seq<int> :| Scalars(cs) && EncodeAll(cs) == s {
      EncodedValid(cs);
    }
  }

  // ---------------------------------------------------------------------------------
  // Keys
  // ---------------------------------------------------------------------------------

  /** Everything can be a key but lists, dictionaries, and tuples that hold one. */
  lemma KeysAllowed(v: Value)
    ensures Hashable(v) <==>
              !v.VList? && !v.VDict? && (v.VTuple? ==> forall x :: x in v.xs ==> Hashable(x))
  {
  }

  predicate Numeric(k: Value) {
    k.VBool? || k.VInt? || k.VFloat?
  }

  /** Keys can be sorted if they are all text, all bytes, all numbers, or tuples of text only. */
  lemma KeysSortable(keys: set<Value>)
    ensures (forall k :: k in keys ==> k.VText?) ==> Sortable(keys)
    ensures (forall k :: k in keys ==> k.VBytes?) ==> Sortable(keys)
    ensures (forall k :: k in keys ==> Numeric(k)) ==> Sortable(keys)
    ensures Sortable({}) && forall k: Value :: Sortable({k})
    ensures (forall k :: k in keys ==> k.VTuple? && forall x :: x in k.xs ==> x.VText?) ==> Sortable(keys)
  {
    if forall k :: k in keys ==> k.VTuple? && forall x :: x in k.xs ==> x.VText? {
      forall k, l | k in keys && l in keys && k != l ensures Comparable(k, l) {
        TextTuples(k.xs, l.xs);
      }
    }
  }

  lemma {:induction false} TextTuples(xs: seq<Value>, ys: seq<Value>)
    requires (forall x :: x in xs ==> x.VText?) && forall y :: y in ys ==> y.VText?
    ensures ComparableItems(xs, ys)
    decreases |xs|
  {
    if xs != [] && ys != [] {
      assert xs[0] in xs && ys[0] in ys;
      TextTuples(xs[1..], ys[1..]);
    }
  }

  /** Two keys of different kinds cannot be sorted together, nor can the key None with any other. */
  lemma KeysMixed(k: Value, l: Value)
    requires k != l && !(Numeric(k) && Numeric(l))
    requires k.VNone? || (k.VText? && !l.VText?) || (k.VBytes? && !l.VBytes?) || (Numeric(k) && !Numeric(l))
             || (k.VTuple? && !l.VTuple?)
    ensures !Sortable({k, l})
  {
    assert k in {k, l} && l in {k, l};
    assert !Comparable(k, l);
  }

  /** What can be dumped: text that is well-formed, lists and tuples of what can be, and
      dictionaries of what can be under keys that are allowed and can be sorted. */
  lemma DumpableExactly(s: Bytes, t: Bytes, n: int, b: bool, xs: seq<Value>, m: map<Value, Value>)
    ensures Dumpable(VNone) && Dumpable(VBool(b)) && Dumpable(VInt(n)) && Dumpable(VBytes(s))
    ensures Dumpable(VText(s)) <==> ValidUtf8(s)
    ensures Dumpable(VFloat(t)) <==> ';' as int !in t
    ensures Dumpable(VList(xs)) <==> forall x :: x in xs ==> Dumpable(x)
    ensures Dumpable(VTuple(xs)) <==> forall x :: x in xs ==> Dumpable(x)
    ensures Dumpable(VDict(m)) <==>
              Sortable(m.Keys) && forall k :: k in m ==> Hashable(k) && Dumpable(k) && Dumpable(m[k])
    ensures (forall k :: k in m ==> k.VText? && ValidUtf8(k.s) && Dumpable(m[k])) ==> Dumpable(VDict(m))
  {
    KeysSortable(m.Keys);
  }

  /** A key has to be one that is allowed; bytes have to be ASCII if they are to become text. */
  lemma KeyChecked(k: Value, v: Value, asIs: bool)
    requires Loadable(k, asIs) && Loadable(v, asIs)
    ensures Loads(['d' as int] + Dumps(k) + Dumps(v) + [';' as int], asIs)
         == if k.VBytes? && !asIs then
              if forall i :: 0 <= i < |k.s| ==> k.s[i] < 128 then Loaded(VDict(map[VText(k.s) := v]))
              else Raised(ValueError)
            else if Hashable(k) then Loaded(VDict(map[k := v]))
            else Raised(TypeError)
  {
    hide Load, Dumps, Dumpable, LoadPairs, NoBytesKeys, Hashable;
    var a, b := Dumps(k), Dumps(v);
    var d := [DICT] + a + b + [SEMI];
    var p, q := 1 + |a|, 1 + |a| + |b|;
    DumpsHead(k);
    assert d == [DICT] + a + (b + [SEMI]);
    LoadInContext([DICT], k, b + [SEMI], asIs);
    LoadInContext([DICT] + a, v, [SEMI], asIs);
    assert d[1] == a[0] && d[q] == SEMI;
    FirstEntry(d, k, v, p, q, asIs);
    DictLoads(d, asIs);
  }

  lemma DumpsHead(v: Value)
    ensures Dumps(v) != [] && Dumps(v)[0] != SEMI
  {
  }

  lemma FirstEntry(d: Bytes, k: Value, v: Value, p: nat, q: nat, asIs: bool)
    requires 1 < |d| && d[1] != SEMI && q < |d| && d[q] == SEMI
    requires Load(d, 1, asIs) == Ok(k, p) && Load(d, p, asIs) == Ok(v, q)
    ensures var r := LoadPairs(d, 1, asIs, map[]);
            match Store(map[], k, v, asIs)
            case Ok(m, _) => r == Ok(m, q + 1)
            case Err(e) => r == Err(e)
  {
    hide Load, Store;
  }

  lemma DictLoads(d: Bytes, asIs: bool)
    requires d != [] && d[0] == DICT
    ensures Loads(d, asIs)
         == match LoadPairs(d, 1, asIs, map[]) case Ok(m, _) => Loaded(VDict(m)) case Err(e) => Raised(e)
  {
    hide LoadPairs, LoadItems, LoadBool, LoadInt, LoadFloat, LoadBytes, LoadText;
  }

  /** When two entries end up under the same key, the last one wins. */
  lemma LastEntryWins(s: Bytes, v: Value, w: Value)
    requires Ascii(s) && ValidUtf8(s) && Loadable(v, false) && Loadable(w, false)
    ensures Loads(['d' as int] + Dumps(VBytes(s)) + Dumps(v) + Dumps(VText(s)) + Dumps(w) + [';' as int], false)
         == Loaded(VDict(map[VText(s) := w]))
  {
    hide Load, Dumps, Dumpable, LoadPairs, NoBytesKeys;
    var k, l := VBytes(s), VText(s);
    BytesAndText(s);
    var a, b, c, e := Dumps(k), Dumps(v), Dumps(l), Dumps(w);
    var d := [DICT] + a + b + c + e + [SEMI];
    assert d == [DICT] + a + (b + c + e + [SEMI]);
    LoadInContext([DICT], k, b + c + e + [SEMI], false);
    assert d == ([DICT] + a) + b + (c + e + [SEMI]);
    LoadInContext([DICT] + a, v, c + e + [SEMI], false);
    assert d == ([DICT] + a + b) + c + (e + [SEMI]);
    LoadInContext([DICT] + a + b, l, e + [SEMI], false);
    LoadInContext([DICT] + a + b + c, w, [SEMI], false);
    var p, q := 1 + |a| + |b|, 1 + |a| + |b| + |c| + |e|;
    assert d[1] == a[0] && d[p] == c[0] && d[q] == SEMI;
    Entry(d, 1, map[], k, v, 1 + |a|, p);
    Entry(d, p, map[VText(s) := v], l, w, p + |c|, q);
    Nothing(d, q, map[VText(s) := w]);
    assert map[VText(s) := v][VText(s) := w] == map[VText(s) := w];
    DictLoads(d, false);
  }

  lemma BytesAndText(s: Bytes)
    requires ValidUtf8(s)
    ensures Loadable(VBytes(s), false) && Loadable(VText(s), false)
    ensures Dumps(VBytes(s)) != [] && Dumps(VBytes(s))[0] == BYTES
    ensures Dumps(VText(s)) != [] && Dumps(VText(s))[0] == TEXT
  {
  }

  lemma Entry(d: Bytes, pos: nat, res: map<Value, Value>, k: Value, v: Value, p: nat, q: nat)
    requires pos < |d| && d[pos] != SEMI && (k.VBytes? || k.VText?) && (k.VBytes? ==> Ascii(k.s))
    requires Load(d, pos, false) == Ok(k, p) && Load(d, p, false) == Ok(v, q)
    ensures LoadPairs(d, pos, false, res) == LoadPairs(d, q, false, res[VText(k.s) := v])
  {
    hide Load;
  }

  lemma Nothing(d: Bytes, pos: nat, res: map<Value, Value>)
    requires pos < |d| && d[pos] == SEMI
    ensures LoadPairs(d, pos, false, res) == Ok(res, pos + 1)
  {
  }
}

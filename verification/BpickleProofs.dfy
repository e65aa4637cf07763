/** What the bpickle format promises: loading undoes dumping in any context, a torn dump of
    a container never loads, and no dump is a prefix of another. */
module BpickleProofs {
  import opened Common
  import opened KeyOrder
  import opened Decimal
  import opened Bpickle

  /** `d` occurs in `s` at `pos`. */
  ghost predicate At(s: Bytes, pos: nat, d: Bytes) {
    pos + |d| <= |s| && forall i :: 0 <= i < |d| ==> d[i] == s[pos + i]
  }

  lemma AtSplit(s: Bytes, pos: nat, a: Bytes, b: Bytes)
    ensures At(s, pos, a + b) <==> At(s, pos, a) && At(s, pos + |a|, b)
  {
    var d := a + b;
    if At(s, pos, d) {
      forall i | 0 <= i < |a| ensures a[i] == s[pos + i] {
        assert d[i] == a[i];
      }
      forall i | 0 <= i < |b| ensures b[i] == s[pos + |a| + i] {
        assert d[|a| + i] == b[i];
      }
    }
  }

  lemma AtSplit3(s: Bytes, pos: nat, a: Bytes, b: Bytes, c: Bytes)
    ensures At(s, pos, a + b + c) <==>
            At(s, pos, a) && At(s, pos + |a|, b) && At(s, pos + |a| + |b|, c)
  {
    AtSplit(s, pos, a + b, c);
    AtSplit(s, pos, a, b);
  }

  lemma AtOne(s: Bytes, pos: nat, c: byte)
    ensures At(s, pos, [c]) <==> pos < |s| && s[pos] == c
  {
    assert [c][0] == c;
  }

  /** The first `c` at or after `pos` is where the text without `c` ends. */
  lemma {:induction false} IndexAfter(s: Bytes, c: byte, pos: nat, t: Bytes)
    requires At(s, pos, t) && c !in t && pos + |t| < |s| && s[pos + |t|] == c
    ensures Index(s, c, pos) == Some(pos + |t|)
    decreases |t|
  {
    if t != [] {
      assert s[pos] == t[0];
      IndexAfter(s, c, pos + 1, t[1..]);
    }
  }

  lemma IndexFound(s: Bytes, c: byte, pos: nat)
    requires pos <= |s|
    ensures Index(s, c, pos).Some? <==> c in s[pos..]
  {
    var r := Index(s, c, pos);
    if r.Some? {
      assert s[pos..][r.value - pos] == c;
    }
  }

  lemma HeadAt(s: Bytes, pos: nat, d: Bytes)
    requires At(s, pos, d) && d != []
    ensures pos < |s| && s[pos] == d[0]
  {
  }

  lemma SliceAt(s: Bytes, pos: nat, t: Bytes)
    requires At(s, pos, t)
    ensures Slice(s, pos, pos + |t|) == t
  {
  }

  /** A tag, a text without the terminator, and the terminator. */
  lemma FramedAt(s: Bytes, pos: nat, tag: byte, t: Bytes, end: byte)
    requires At(s, pos, [tag] + t + [end]) && tag != end && end !in t
    ensures s[pos] == tag && Index(s, end, pos) == Some(pos + 1 + |t|)
    ensures Slice(s, pos + 1, pos + 1 + |t|) == t
  {
    AtSplit3(s, pos, [tag], t, [end]);
    AtSplit(s, pos, [tag], t);
    AtOne(s, pos, tag);
    AtOne(s, pos + 1 + |t|, end);
    IndexAfter(s, end, pos, [tag] + t);
    SliceAt(s, pos + 1, t);
  }

  lemma LoadStringAt(s: Bytes, pos: nat, tag: byte, b: Bytes)
    requires tag != COLON && At(s, pos, [tag] + IntText(|b|) + [COLON] + b)
    ensures s[pos] == tag
    ensures LoadString(s, pos) == Ok(b, pos + |[tag] + IntText(|b|) + [COLON] + b|)
  {
    hide At, ParseInt, IntText;
    AtSplit(s, pos, [tag] + IntText(|b|) + [COLON], b);
    FramedAt(s, pos, tag, IntText(|b|), COLON);
    ParseIntRoundTrip(|b|);
    SliceAt(s, pos + 1 + |IntText(|b|)| + 1, b);
  }

  // ---------------------------------------------------------------------------------
  // Loading what was dumped
  // ---------------------------------------------------------------------------------

  /** No dictionary inside `v` has a `bytes` key, so nothing is reinterpreted. */
  ghost predicate NoBytesKeys(v: Value)
    decreases v
  {
    match v
    case VList(xs) => forall x :: x in xs ==> NoBytesKeys(x)
    case VTuple(xs) => forall x :: x in xs ==> NoBytesKeys(x)
    case VDict(m) => forall k :: k in m ==> !k.VBytes? && NoBytesKeys(k) && NoBytesKeys(m[k])
    case _ => true
  }

  ghost predicate Loadable(v: Value, asIs: bool) {
    Dumpable(v) && (asIs || NoBytesKeys(v))
  }

  /** `loads(dumps(v))` with anything before and after: `v`, and the offset just past it. */
  lemma {:induction false} LoadDump(s: Bytes, pos: nat, v: Value, asIs: bool)
    requires Loadable(v, asIs) && At(s, pos, Dumps(v))
    ensures Load(s, pos, asIs) == Ok(v, pos + |Dumps(v)|)
    decreases v, 2
  {
    match v
    case VList(xs) => LoadDumpSequence(s, pos, v, xs, LIST, asIs);
    case VTuple(xs) => LoadDumpSequence(s, pos, v, xs, TUPLE, asIs);
    case VDict(_) => LoadDumpDict(s, pos, v, asIs);
    case _ => LoadDumpScalar(s, pos, v, asIs);
  }

  lemma LoadDumpScalar(s: Bytes, pos: nat, v: Value, asIs: bool)
    requires !v.VList? && !v.VTuple? && !v.VDict? && Dumpable(v) && At(s, pos, Dumps(v))
    ensures Load(s, pos, asIs) == Ok(v, pos + |Dumps(v)|)
  {
    match v
    case VNone => HeadAt(s, pos, [NONE]);
    case VBool(b) => LoadDumpBool(s, pos, b);
    case VInt(n) => LoadDumpInt(s, pos, n);
    case VFloat(t) => LoadDumpFloat(s, pos, t);
    case VBytes(b) => LoadDumpBytes(s, pos, b);
    case VText(b) => LoadDumpText(s, pos, b);
  }

  lemma LoadDumpInt(s: Bytes, pos: nat, n: int)
    requires At(s, pos, Dumps(VInt(n)))
    ensures forall asIs :: Load(s, pos, asIs) == Ok(VInt(n), pos + |Dumps(VInt(n))|)
  {
    hide At, ParseInt, IntText;
    FramedAt(s, pos, INT, IntText(n), SEMI);
    ParseIntRoundTrip(n);
  }

  lemma LoadDumpFloat(s: Bytes, pos: nat, t: Bytes)
    requires FloatToken(t) && At(s, pos, Dumps(VFloat(t)))
    ensures forall asIs :: Load(s, pos, asIs) == Ok(VFloat(t), pos + |Dumps(VFloat(t))|)
  {
    FramedAt(s, pos, FLOAT, t, SEMI);
  }

  lemma LoadDumpBytes(s: Bytes, pos: nat, b: Bytes)
    requires At(s, pos, Dumps(VBytes(b)))
    ensures forall asIs :: Load(s, pos, asIs) == Ok(VBytes(b), pos + |Dumps(VBytes(b))|)
  {
    LoadStringAt(s, pos, BYTES, b);
  }

  lemma LoadDumpText(s: Bytes, pos: nat, b: Bytes)
    requires ValidUtf8(b) && At(s, pos, Dumps(VText(b)))
    ensures forall asIs :: Load(s, pos, asIs) == Ok(VText(b), pos + |Dumps(VText(b))|)
  {
    LoadStringAt(s, pos, TEXT, b);
  }

  lemma LoadDumpSequence(s: Bytes, pos: nat, v: Value, xs: seq<Value>, tag: byte, asIs: bool)
    requires (v == VList(xs) && tag == LIST) || (v == VTuple(xs) && tag == TUPLE)
    requires Loadable(v, asIs) && At(s, pos, Dumps(v))
    ensures Load(s, pos, asIs) == Ok(v, pos + |Dumps(v)|)
    decreases v, 1
  {
    assert Dumps(v) == [tag] + DumpItems(xs) + [SEMI];
    HeadAt(s, pos, Dumps(v));
    AtSplit3(s, pos, [tag], DumpItems(xs), [SEMI]);
    LoadDumpItems(s, pos + 1, v, xs, asIs);
  }

  lemma LoadDumpDict(s: Bytes, pos: nat, v: Value, asIs: bool)
    requires v.VDict? && Loadable(v, asIs) && At(s, pos, Dumps(v))
    ensures Load(s, pos, asIs) == Ok(v, pos + |Dumps(v)|)
    decreases v, 1
  {
    hide At, Dumpable, NoBytesKeys, LoadPairs, LoadItems, LoadBool, LoadInt, LoadFloat, LoadString, SortedKeys;
    var keys := SortedKeys(v.m.Keys);
    var body := DumpPairs(v, keys);
    HeadAt(s, pos, Dumps(v));
    AtSplit3(s, pos, [DICT], body, [SEMI]);
    LoadDumpPairs(s, pos + 1, v, keys, asIs, map[]);
    ExtendAll(map[], v.m, keys);
  }

  lemma LoadDumpBool(s: Bytes, pos: nat, b: bool)
    requires At(s, pos, Dumps(VBool(b)))
    ensures forall asIs :: Load(s, pos, asIs) == Ok(VBool(b), pos + |Dumps(VBool(b))|)
  {
    var d := if b then DIGIT0 + 1 else DIGIT0;
    assert Dumps(VBool(b)) == [BOOL] + [d];
    AtSplit(s, pos, [BOOL], [d]);
    HeadAt(s, pos, [BOOL] + [d]);
    SliceAt(s, pos + 1, [d]);
    ParseIntRoundTrip(d - DIGIT0);
    assert [d] == IntText(d - DIGIT0);
  }

  function Cons(x: Value, r: Result<seq<Value>>): Result<seq<Value>> {
    match r
    case Ok(xs, p) => Ok([x] + xs, p)
    case Err(e) => Err(e)
  }

  lemma LoadDumpItem(s: Bytes, pos: nat, x: Value, asIs: bool)
    requires Loadable(x, asIs) && At(s, pos, Dumps(x))
    ensures LoadItems(s, pos, asIs) == Cons(x, LoadItems(s, pos + |Dumps(x)|, asIs))
    decreases x, 3
  {
    hide Load, Dumps, Dumpable, NoBytesKeys, At;
    HeadAt(s, pos, Dumps(x));
    LoadDump(s, pos, x, asIs);
  }

  lemma {:induction false} LoadDumpItems(s: Bytes, pos: nat, parent: Value, xs: seq<Value>, asIs: bool)
    requires forall x :: x in xs ==> x < parent && Loadable(x, asIs)
    requires At(s, pos, DumpItems(xs)) && At(s, pos + |DumpItems(xs)|, [SEMI])
    ensures LoadItems(s, pos, asIs) == Ok(xs, pos + |DumpItems(xs)| + 1)
    decreases parent, 0, |xs|
  {
    hide Load, Dumps, Dumpable, NoBytesKeys, Loadable, At;
    if xs != [] {
      var x, rest := xs[0], xs[1..];
      assert xs[0] in xs && forall y :: y in rest ==> y in xs;
      AtSplit(s, pos, Dumps(x), DumpItems(rest));
      LoadDumpItem(s, pos, x, asIs);
      LoadDumpItems(s, pos + |Dumps(x)|, parent, rest, asIs);
      assert [x] + rest == xs;
    } else {
      AtOne(s, pos, SEMI);
    }
  }

  /** The entries for `keys`, stored one after the other. */
  ghost function Extend(res: map<Value, Value>, m: map<Value, Value>, keys: seq<Value>): map<Value, Value>
    requires forall k :: k in keys ==> k in m
    decreases keys
  {
    if keys == [] then res
    else assert keys[0] in keys; Extend(res[keys[0] := m[keys[0]]], m, keys[1..])
  }

  lemma {:induction false} ExtendAll(res: map<Value, Value>, m: map<Value, Value>, keys: seq<Value>)
    requires forall k :: k in keys ==> k in m
    requires forall k :: k in res ==> k in m && res[k] == m[k]
    requires forall k :: k in m ==> k in res || k in keys
    ensures Extend(res, m, keys) == m
    decreases keys
  {
    if keys != [] {
      assert keys == [keys[0]] + keys[1..];
      ExtendAll(res[keys[0] := m[keys[0]]], m, keys[1..]);
    }
  }

  lemma EntryLoadable(dict: Value, k: Value, asIs: bool)
    requires dict.VDict? && Loadable(dict, asIs) && k in dict.m
    ensures Loadable(k, asIs) && Loadable(dict.m[k], asIs) && Hashable(k) && (asIs || !k.VBytes?)
  {
  }

  lemma LoadDumpPair(s: Bytes, pos: nat, dict: Value, k: Value, asIs: bool, res: map<Value, Value>)
    requires dict.VDict? && Loadable(dict, asIs) && k in dict.m
    requires At(s, pos, Dumps(k)) && At(s, pos + |Dumps(k)|, Dumps(dict.m[k]))
    ensures LoadPairs(s, pos, asIs, res)
         == LoadPairs(s, pos + |Dumps(k)| + |Dumps(dict.m[k])|, asIs, res[k := dict.m[k]])
    decreases dict, 0, 0
  {
    hide Load, Dumps, Dumpable, NoBytesKeys, Loadable, At, Hashable;
    EntryLoadable(dict, k, asIs);
    HeadAt(s, pos, Dumps(k));
    LoadDump(s, pos, k, asIs);
    LoadDump(s, pos + |Dumps(k)|, dict.m[k], asIs);
  }

  lemma {:induction false} LoadDumpPairs(s: Bytes, pos: nat, dict: Value, keys: seq<Value>, asIs: bool,
                                         res: map<Value, Value>)
    requires dict.VDict? && Loadable(dict, asIs) && forall k :: k in keys ==> k in dict.m
    requires At(s, pos, DumpPairs(dict, keys)) && At(s, pos + |DumpPairs(dict, keys)|, [SEMI])
    ensures LoadPairs(s, pos, asIs, res)
         == Ok(Extend(res, dict.m, keys), pos + |DumpPairs(dict, keys)| + 1)
    decreases dict, 0, |keys| + 1
  {
    hide Load, Dumps, Dumpable, NoBytesKeys, At, Loadable;
    if keys != [] {
      assert keys[0] in keys;
      var k, v, rest := keys[0], dict.m[keys[0]], keys[1..];
      AtSplit3(s, pos, Dumps(k), Dumps(v), DumpPairs(dict, rest));
      LoadDumpPair(s, pos, dict, k, asIs, res);
      LoadDumpPairs(s, pos + |Dumps(k)| + |Dumps(v)|, dict, rest, asIs, res[k := v]);
    } else {
      AtOne(s, pos, SEMI);
    }
  }

  // ---------------------------------------------------------------------------------
  // Torn dumps
  // ---------------------------------------------------------------------------------

  /** `s` ends inside an occurrence of `d` that starts at `pos`. */
  ghost predicate Cut(s: Bytes, pos: nat, d: Bytes) {
    pos <= |s| < pos + |d| && forall i :: 0 <= i < |s| - pos ==> d[i] == s[pos + i]
  }

  lemma CutSplit(s: Bytes, pos: nat, a: Bytes, b: Bytes)
    requires Cut(s, pos, a + b)
    ensures Cut(s, pos, a) || (At(s, pos, a) && Cut(s, pos + |a|, b))
  {
    var d := a + b;
    forall i | 0 <= i < |a| && i < |s| - pos ensures a[i] == s[pos + i] {
      assert d[i] == a[i];
    }
    forall i | 0 <= i < |b| && |a| + i < |s| - pos ensures b[i] == s[pos + |a| + i] {
      assert d[|a| + i] == b[i];
    }
  }

  /** A frame cut before its terminator has no terminator. */
  lemma CutFrame(s: Bytes, pos: nat, tag: byte, t: Bytes, end: byte)
    requires Cut(s, pos, [tag] + t + [end]) && tag != end && end !in t
    ensures Index(s, end, pos) == None
    ensures pos < |s| ==> s[pos] == tag
  {
    var d := [tag] + t + [end];
    assert pos < |s| ==> d[0] == s[pos + 0];
    IndexFound(s, end, pos);
    forall i | 0 <= i < |s| - pos ensures s[pos..][i] != end {
      assert d[i] == s[pos + i];
    }
  }

  /** A cut string either has no length yet, or is shorter than its length says. */
  lemma CutString(s: Bytes, pos: nat, tag: byte, b: Bytes)
    requires tag != COLON && Cut(s, pos, [tag] + IntText(|b|) + [COLON] + b)
    ensures pos < |s| ==> s[pos] == tag
    ensures LoadString(s, pos).Ok? ==> LoadString(s, pos).pos > |s|
  {
    var header := [tag] + IntText(|b|) + [COLON];
    CutSplit(s, pos, header, b);
    if Cut(s, pos, header) {
      CutFrame(s, pos, tag, IntText(|b|), COLON);
    } else {
      hide At, Cut, ParseInt, IntText;
      FramedAt(s, pos, tag, IntText(|b|), COLON);
      ParseIntRoundTrip(|b|);
    }
  }

  /** A whole dump is loaded to its end, or not at all. */
  ghost predicate EndsAt<T>(r: Result<T>, end: nat) {
    r.Ok? ==> r.pos == end
  }

  /** Reinterpreted keys may make loading a dump fail, but never make it stop elsewhere. */
  lemma {:induction false} LoadEnds(s: Bytes, pos: nat, v: Value, asIs: bool)
    requires Dumpable(v) && At(s, pos, Dumps(v))
    ensures EndsAt(Load(s, pos, asIs), pos + |Dumps(v)|)
    decreases v, 2
  {
    hide Load, Dumps, At;
    match v
    case VList(xs) => LoadEndsSequence(s, pos, v, xs, LIST, asIs);
    case VTuple(xs) => LoadEndsSequence(s, pos, v, xs, TUPLE, asIs);
    case VDict(_) => LoadEndsDict(s, pos, v, asIs);
    case _ => LoadDumpScalar(s, pos, v, asIs);
  }

  lemma LoadEndsSequence(s: Bytes, pos: nat, v: Value, xs: seq<Value>, tag: byte, asIs: bool)
    requires (v == VList(xs) && tag == LIST) || (v == VTuple(xs) && tag == TUPLE)
    requires Dumpable(v) && At(s, pos, Dumps(v))
    ensures EndsAt(Load(s, pos, asIs), pos + |Dumps(v)|)
    decreases v, 1
  {
    assert Dumps(v) == [tag] + DumpItems(xs) + [SEMI];
    HeadAt(s, pos, Dumps(v));
    AtSplit3(s, pos, [tag], DumpItems(xs), [SEMI]);
    LoadEndsItems(s, pos + 1, v, xs, asIs);
  }

  lemma LoadDict(s: Bytes, pos: nat, asIs: bool)
    requires pos < |s| && s[pos] == DICT
    ensures var m, v := LoadPairs(s, pos + 1, asIs, map[]), Load(s, pos, asIs);
            (m.Err? <==> v.Err?) && (m.Ok? ==> v.pos == m.pos)
  {
    hide LoadPairs, LoadItems, LoadBool, LoadInt, LoadFloat, LoadBytes, LoadText;
  }

  lemma DictFrame(v: Value)
    requires v.VDict? && Dumpable(v)
    ensures Dumps(v) == [DICT] + DumpPairs(v, SortedKeys(v.m.Keys)) + [SEMI]
  {
  }

  lemma LoadEndsDict(s: Bytes, pos: nat, v: Value, asIs: bool)
    requires v.VDict? && Dumpable(v) && At(s, pos, Dumps(v))
    ensures EndsAt(Load(s, pos, asIs), pos + |Dumps(v)|)
    decreases v, 1
  {
    hide At, Dumpable, Dumps, DumpPairs, Load, LoadPairs, SortedKeys;
    var keys := SortedKeys(v.m.Keys);
    DictFrame(v);
    HeadAt(s, pos, Dumps(v));
    AtSplit3(s, pos, [DICT], DumpPairs(v, keys), [SEMI]);
    LoadEndsPairs(s, pos + 1, v, keys, asIs, map[]);
    LoadDict(s, pos, asIs);
  }

  lemma {:induction false} LoadEndsItems(s: Bytes, pos: nat, parent: Value, xs: seq<Value>, asIs: bool)
    requires forall x :: x in xs ==> x < parent && Dumpable(x)
    requires At(s, pos, DumpItems(xs)) && At(s, pos + |DumpItems(xs)|, [SEMI])
    ensures EndsAt(LoadItems(s, pos, asIs), pos + |DumpItems(xs)| + 1)
    decreases parent, 0, |xs|
  {
    hide Load, Dumps, Dumpable, At;
    if xs != [] {
      var x, rest := xs[0], xs[1..];
      assert xs[0] in xs && forall y :: y in rest ==> y in xs;
      AtSplit(s, pos, Dumps(x), DumpItems(rest));
      HeadAt(s, pos, Dumps(x));
      LoadEnds(s, pos, x, asIs);
      LoadEndsItems(s, pos + |Dumps(x)|, parent, rest, asIs);
    } else {
      AtOne(s, pos, SEMI);
    }
  }

  lemma {:induction false} LoadEndsPairs(s: Bytes, pos: nat, dict: Value, keys: seq<Value>, asIs: bool,
                                         res: map<Value, Value>)
    requires dict.VDict? && Dumpable(dict) && forall k :: k in keys ==> k in dict.m
    requires At(s, pos, DumpPairs(dict, keys)) && At(s, pos + |DumpPairs(dict, keys)|, [SEMI])
    ensures EndsAt(LoadPairs(s, pos, asIs, res), pos + |DumpPairs(dict, keys)| + 1)
    decreases dict, 0, |keys| + 1
  {
    hide Load, Dumps, Dumpable, At;
    if keys != [] {
      assert keys[0] in keys;
      var k, v, rest := keys[0], dict.m[keys[0]], keys[1..];
      AtSplit3(s, pos, Dumps(k), Dumps(v), DumpPairs(dict, rest));
      EntryDumpable(dict, k);
      HeadAt(s, pos, Dumps(k));
      LoadEnds(s, pos, k, asIs);
      LoadEnds(s, pos + |Dumps(k)|, v, asIs);
      var stored := StoredAt(s, pos, asIs, res);
      if stored.Ok? {
        LoadEndsPairs(s, pos + |Dumps(k)| + |Dumps(v)|, dict, rest, asIs, stored.value);
      }
    } else {
      AtOne(s, pos, SEMI);
    }
  }

  lemma EntryDumpable(dict: Value, k: Value)
    requires dict.VDict? && Dumpable(dict) && k in dict.m
    ensures Dumpable(k) && Dumpable(dict.m[k])
  {
  }

  /** The dictionary after the entry at `pos`, or the error there. */
  ghost function StoredAt(s: Bytes, pos: nat, asIs: bool, res: map<Value, Value>): Result<map<Value, Value>> {
    match Load(s, pos, asIs)
    case Err(e) => Err(e)
    case Ok(key, p) =>
      match Load(s, p, asIs)
      case Err(e) => Err(e)
      case Ok(val, _) => Store(res, key, val, asIs)
  }

  /** What loading a torn dump can give: an error, or a string that ends past the data. */
  ghost predicate Torn(s: Bytes, v: Value, r: Result<Value>) {
    r.Ok? ==> (v.VBytes? || v.VText?) && r.pos > |s|
  }

  lemma {:induction false} LoadCut(s: Bytes, pos: nat, v: Value, asIs: bool)
    requires Dumpable(v) && Cut(s, pos, Dumps(v))
    ensures Torn(s, v, Load(s, pos, asIs))
    decreases v, 2
  {
    if pos < |s| {
      assert Dumps(v)[0] == s[pos + 0];
      match v
      case VNone =>
      case VBool(_) => assert Slice(s, pos + 1, pos + 2) == [];
      case VInt(n) => CutFrame(s, pos, INT, IntText(n), SEMI);
      case VFloat(t) => CutFrame(s, pos, FLOAT, t, SEMI);
      case VBytes(b) => CutString(s, pos, BYTES, b);
      case VText(b) => CutString(s, pos, TEXT, b);
      case VList(xs) => LoadCutSequence(s, pos, v, xs, LIST, asIs);
      case VTuple(xs) => LoadCutSequence(s, pos, v, xs, TUPLE, asIs);
      case VDict(_) => LoadCutDict(s, pos, v, asIs);
    }
  }

  /** The body of a container that is cut after its tag. */
  lemma CutBody(s: Bytes, pos: nat, tag: byte, body: Bytes)
    requires Cut(s, pos, [tag] + body + [SEMI]) && pos < |s|
    ensures s[pos] == tag && Cut(s, pos + 1, body + [SEMI])
  {
    assert [tag] + body + [SEMI] == [tag] + (body + [SEMI]);
    CutSplit(s, pos, [tag], body + [SEMI]);
    assert ([tag] + body + [SEMI])[0] == s[pos + 0];
  }

  lemma LoadCutSequence(s: Bytes, pos: nat, v: Value, xs: seq<Value>, tag: byte, asIs: bool)
    requires (v == VList(xs) && tag == LIST) || (v == VTuple(xs) && tag == TUPLE)
    requires Dumpable(v) && Cut(s, pos, Dumps(v)) && pos < |s|
    ensures Load(s, pos, asIs).Err?
    decreases v, 1
  {
    CutBody(s, pos, tag, DumpItems(xs));
    LoadCutItems(s, pos + 1, v, xs, asIs);
  }

  lemma {:induction false} LoadCutItems(s: Bytes, pos: nat, parent: Value, xs: seq<Value>, asIs: bool)
    requires forall x :: x in xs ==> x < parent && Dumpable(x)
    requires Cut(s, pos, DumpItems(xs) + [SEMI])
    ensures LoadItems(s, pos, asIs).Err?
    decreases parent, 0, |xs|
  {
    hide Load, Dumps, Dumpable, NoBytesKeys, At, Cut;
    if xs == [] {
      assert DumpItems(xs) + [SEMI] == [SEMI];
      CutOne(s, pos, SEMI);
    } else {
      var x, rest := xs[0], xs[1..];
      assert xs[0] in xs && forall y :: y in rest ==> y in xs;
      assert DumpItems(xs) + [SEMI] == Dumps(x) + (DumpItems(rest) + [SEMI]);
      CutSplit(s, pos, Dumps(x), DumpItems(rest) + [SEMI]);
      if Cut(s, pos, Dumps(x)) {
        LoadCut(s, pos, x, asIs);
        CutHead(s, pos, Dumps(x));
        ItemsAfterCut(s, pos, asIs);
      } else {
        HeadAt(s, pos, Dumps(x));
        LoadEnds(s, pos, x, asIs);
        LoadCutItems(s, pos + |Dumps(x)|, parent, rest, asIs);
      }
    }
  }

  lemma CutOne(s: Bytes, pos: nat, c: byte)
    requires Cut(s, pos, [c])
    ensures pos == |s|
  {
  }

  lemma CutHead(s: Bytes, pos: nat, d: Bytes)
    requires Cut(s, pos, d)
    ensures pos < |s| ==> s[pos] == d[0]
  {
    assert pos < |s| ==> d[0] == s[pos + 0];
  }

  /** Once an element has failed or run past the data, the list fails. */
  lemma ItemsAfterCut(s: Bytes, pos: nat, asIs: bool)
    requires pos < |s| ==> s[pos] != SEMI
    requires Load(s, pos, asIs).Ok? ==> Load(s, pos, asIs).pos > |s|
    ensures LoadItems(s, pos, asIs).Err?
  {
  }

  lemma LoadCutDict(s: Bytes, pos: nat, v: Value, asIs: bool)
    requires v.VDict? && Dumpable(v) && Cut(s, pos, Dumps(v)) && pos < |s|
    ensures Load(s, pos, asIs).Err?
    decreases v, 1
  {
    hide At, Cut, Dumpable, NoBytesKeys, LoadPairs, LoadItems, LoadBool, LoadInt, LoadFloat, LoadString, SortedKeys;
    var keys := SortedKeys(v.m.Keys);
    CutBody(s, pos, DICT, DumpPairs(v, keys));
    LoadCutPairs(s, pos + 1, v, keys, asIs, map[]);
  }

  lemma {:induction false} LoadCutPairs(s: Bytes, pos: nat, dict: Value, keys: seq<Value>, asIs: bool,
                                        res: map<Value, Value>)
    requires dict.VDict? && Dumpable(dict) && forall k :: k in keys ==> k in dict.m
    requires Cut(s, pos, DumpPairs(dict, keys) + [SEMI])
    ensures LoadPairs(s, pos, asIs, res).Err?
    decreases dict, 0, |keys| + 1
  {
    hide Load, Dumps, Dumpable, At, Cut;
    if keys == [] {
      assert DumpPairs(dict, keys) + [SEMI] == [SEMI];
      CutOne(s, pos, SEMI);
    } else {
      assert keys[0] in keys;
      var k, v, rest := keys[0], dict.m[keys[0]], keys[1..];
      var dk, dv, more := Dumps(k), Dumps(v), DumpPairs(dict, rest) + [SEMI];
      assert DumpPairs(dict, keys) + [SEMI] == dk + (dv + more);
      EntryDumpable(dict, k);
      CutSplit(s, pos, dk, dv + more);
      if Cut(s, pos, dk) {
        LoadCut(s, pos, k, asIs);
        CutHead(s, pos, dk);
        PairsAfterCutKey(s, pos, asIs, res);
      } else {
        LoadEnds(s, pos, k, asIs);
        HeadAt(s, pos, dk);
        CutSplit(s, pos + |dk|, dv, more);
        var stored := StoredAt(s, pos, asIs, res);
        if Cut(s, pos + |dk|, dv) {
          LoadCut(s, pos + |dk|, v, asIs);
          PairsAfterCutValue(s, pos, asIs, res);
        } else {
          LoadEnds(s, pos + |dk|, v, asIs);
          if stored.Ok? {
            LoadCutPairs(s, pos + |dk| + |dv|, dict, rest, asIs, stored.value);
          }
        }
      }
    }
  }

  lemma PairsAfterCutKey(s: Bytes, pos: nat, asIs: bool, res: map<Value, Value>)
    requires pos < |s| ==> s[pos] != SEMI
    requires Load(s, pos, asIs).Ok? ==> Load(s, pos, asIs).pos > |s|
    ensures LoadPairs(s, pos, asIs, res).Err?
  {
  }

  lemma PairsAfterCutValue(s: Bytes, pos: nat, asIs: bool, res: map<Value, Value>)
    requires pos < |s| && s[pos] != SEMI
    requires Load(s, pos, asIs).Ok? ==> var r := Load(s, Load(s, pos, asIs).pos, asIs); r.Ok? ==> r.pos > |s|
    ensures LoadPairs(s, pos, asIs, res).Err?
  {
    hide Load;
    var key := Load(s, pos, asIs);
    if key.Ok? && Load(s, key.pos, asIs).Ok? {
      var stored := StoredAt(s, pos, asIs, res);
      if stored.Ok? {
        assert LoadPairs(s, Load(s, key.pos, asIs).pos, asIs, stored.value).Err?;
      }
    }
  }

  // ---------------------------------------------------------------------------------
  // The promises of the format
  // ---------------------------------------------------------------------------------

  lemma AtStart(d: Bytes, more: Bytes)
    ensures At(d + more, 0, d)
  {
  }

  /** `loads(dumps(v) + anything) == v`. */
  lemma LoadsDumps(v: Value, more: Bytes, asIs: bool)
    requires Loadable(v, asIs)
    ensures Loads(Dumps(v) + more, asIs) == Loaded(v)
  {
    hide Load, Dumps;
    AtStart(Dumps(v), more);
    LoadDump(Dumps(v) + more, 0, v, asIs);
  }

  /** The same in the middle of other data: the loader stops exactly where the dump does. */
  lemma LoadInContext(before: Bytes, v: Value, after: Bytes, asIs: bool)
    requires Loadable(v, asIs)
    ensures Load(before + Dumps(v) + after, |before|, asIs) == Ok(v, |before| + |Dumps(v)|)
  {
    hide Load, Dumps;
    var s := before + Dumps(v) + after;
    assert forall i :: 0 <= i < |Dumps(v)| ==> s[|before| + i] == Dumps(v)[i];
    LoadDump(s, |before|, v, asIs);
  }

  /** No dump is a prefix of another one; in particular dumping is injective. */
  lemma DumpsPrefixFree(v: Value, w: Value)
    requires Dumpable(v) && Dumpable(w)
    ensures Dumps(v) <= Dumps(w) <==> v == w
  {
    hide Load, Dumps, Dumpable;
    if Dumps(v) <= Dumps(w) {
      assert Dumps(w) == Dumps(v) + Dumps(w)[|Dumps(v)|..];
      LoadsDumps(v, Dumps(w)[|Dumps(v)|..], true);
      assert Dumps(w) + [] == Dumps(w);
      LoadsDumps(w, [], true);
    }
  }

  /** A list, tuple or dictionary cut anywhere does not load. */
  lemma TornContainerFails(v: Value, n: nat, asIs: bool)
    requires Dumpable(v) && (v.VList? || v.VTuple? || v.VDict?)
    requires n < |Dumps(v)|
    ensures Loads(Dumps(v)[..n], asIs).Raised?
  {
    hide Load, Dumps;
    LoadCut(Dumps(v)[..n], 0, v, asIs);
  }

  /** A byte string cut after its length loads as what is left of it. */
  lemma TornBytesLoads(b: Bytes, n: nat, asIs: bool)
    requires n <= |b|
    ensures var header := [BYTES] + IntText(|b|) + [COLON];
            Dumps(VBytes(b)) == header + b && Loads(header + b[..n], asIs) == Loaded(VBytes(b[..n]))
  {
    var header := [BYTES] + IntText(|b|) + [COLON];
    var s := header + b[..n];
    AtStart(header, b[..n]);
    FramedAt(s, 0, BYTES, IntText(|b|), COLON);
    ParseIntRoundTrip(|b|);
    assert Slice(s, |header|, |header| + |b|) == b[..n];
  }

  // ---------------------------------------------------------------------------------
  // Reinterpreted keys
  // ---------------------------------------------------------------------------------

  ghost predicate PairsClean(m: map<Value, Value>) {
    forall k :: k in m ==> !k.VBytes? && NoBytesKeys(k) && NoBytesKeys(m[k])
  }

  /** Whatever the data, loading with reinterpretation gives no dictionary with a `bytes` key. */
  lemma {:induction false} LoadedKeys(s: Bytes, pos: nat)
    ensures var r := Load(s, pos, false); r.Ok? ==> NoBytesKeys(r.value)
    decreases if pos <= |s| then |s| - pos else 0, 0
  {
    if pos < |s| && (s[pos] == LIST || s[pos] == TUPLE) {
      LoadedItems(s, pos + 1);
    } else if pos < |s| && s[pos] == DICT {
      LoadedPairs(s, pos + 1, map[]);
    }
  }

  lemma {:induction false} LoadedItems(s: Bytes, pos: nat)
    ensures var r := LoadItems(s, pos, false); r.Ok? ==> forall x :: x in r.value ==> NoBytesKeys(x)
    decreases if pos <= |s| then |s| - pos else 0, 1
  {
    hide Load, NoBytesKeys;
    LoadedKeys(s, pos);
    if Load(s, pos, false).Ok? {
      LoadedItems(s, Load(s, pos, false).pos);
    }
  }

  lemma {:induction false} LoadedPairs(s: Bytes, pos: nat, res: map<Value, Value>)
    requires PairsClean(res)
    ensures var r := LoadPairs(s, pos, false, res); r.Ok? ==> PairsClean(r.value)
    decreases if pos <= |s| then |s| - pos else 0, 1
  {
    hide Load;
    LoadedKeys(s, pos);
    var key := Load(s, pos, false);
    if key.Ok? {
      LoadedKeys(s, key.pos);
      var val := Load(s, key.pos, false);
      if val.Ok? {
        var stored := Store(res, key.value, val.value, false);
        if stored.Ok? {
          LoadedPairs(s, val.pos, stored.value);
        }
      }
    }
  }

  /** Without `as_is` a value comes back exactly when no dictionary in it has a `bytes` key. */
  lemma RoundTripExactly(v: Value)
    requires Dumpable(v)
    ensures Loads(Dumps(v), false) == Loaded(v) <==> NoBytesKeys(v)
    ensures Loads(Dumps(v), true) == Loaded(v)
  {
    hide Load, Dumps, NoBytesKeys;
    LoadedKeys(Dumps(v), 0);
    assert Dumps(v) + [] == Dumps(v);
    LoadsDumps(v, [], true);
    if NoBytesKeys(v) {
      LoadsDumps(v, [], false);
    }
  }
}

/** The loops of landscape/lib/bpickle.py, proved against the functions of `Bpickle`. */
module BpickleCode {
  import opened KeyOrder
  import opened Decimal
  import opened Bpickle

  /** The dispatch through `dumps_table`. */
  method DumpsValue(v: Value) returns (d: Bytes)
    requires Dumpable(v)
    ensures d == Dumps(v)
    decreases v, 2
  {
    match v
    case VNone => d := [NONE];
    case VBool(b) => d := [BOOL, if b then DIGIT0 + 1 else DIGIT0];
    case VInt(n) => d := [INT] + IntText(n) + [SEMI];
    case VFloat(t) => d := [FLOAT] + t + [SEMI];
    case VBytes(s) => d := [BYTES] + IntText(|s|) + [COLON] + s;
    case VText(s) => d := [TEXT] + IntText(|s|) + [COLON] + s;
    case VList(xs) =>
      var body := DumpsAll(v, xs);
      d := [LIST] + body + [SEMI];
    case VTuple(xs) =>
      var body := DumpsAll(v, xs);
      d := [TUPLE] + body + [SEMI];
    case VDict(_) => d := DumpsDict(v);
  }

  /** The joined dumps of the elements. */
  method DumpsAll(parent: Value, xs: seq<Value>) returns (d: Bytes)
    requires forall x :: x in xs ==> x < parent && Dumpable(x)
    ensures d == DumpItems(xs)
    decreases parent, 0
  {
    hide Dumps, Dumpable;
    d := [];
    for i := 0 to |xs|
      invariant d == DumpItems(xs[..i])
    {
      assert xs[i] in xs;
      var part := DumpsValue(xs[i]);
      DumpItemsSnoc(xs[..i], xs[i]);
      assert xs[..i + 1] == xs[..i] + [xs[i]];
      d := d + part;
    }
    assert xs[..|xs|] == xs;
  }

  lemma {:induction false} DumpItemsSnoc(xs: seq<Value>, x: Value)
    ensures DumpItems(xs + [x]) == DumpItems(xs) + Dumps(x)
  {
    hide Dumps;
    if xs == [] {
      assert xs + [x] == [x] && [x][1..] == [];
    } else {
      assert (xs + [x])[1..] == xs[1..] + [x];
      DumpItemsSnoc(xs[1..], x);
    }
  }

  /** `dumps_dict`: sorted keys, each followed by its value. */
  method DumpsDict(v: Value) returns (d: Bytes)
    requires v.VDict? && Dumpable(v)
    ensures d == Dumps(v)
    decreases v, 1
  {
    hide *;
    DictParts(v);
    var keys := SortKeys(v.m.Keys);
    var res := DumpsEntries(v, keys);
    d := [DICT] + res + [SEMI];
  }

  /** The append loop of `dumps_dict`. */
  method DumpsEntries(v: Value, keys: seq<Value>) returns (res: Bytes)
    requires v.VDict? && forall k :: k in keys ==> k in v.m && Dumpable(k) && Dumpable(v.m[k])
    ensures res == DumpPairs(v, keys)
    decreases v, 0
  {
    hide *;
    res := [];
    NoPairs(v);
    for i := 0 to |keys|
      invariant res == DumpPairs(v, keys[..i])
    {
      var key := keys[i];
      assert key in keys;
      var val := v.m[key];
      var dumpedKey := DumpsValue(key);
      var dumpedVal := DumpsValue(val);
      assert keys[..i + 1] == keys[..i] + [key];
      DumpPairsSnoc(v, keys[..i], key);
      res := res + dumpedKey + dumpedVal;
    }
    assert keys[..|keys|] == keys;
  }

  lemma DictParts(v: Value)
    requires v.VDict? && Dumpable(v)
    ensures AllHashable(v.m.Keys)
    ensures forall k :: k in v.m ==> Dumpable(k) && Dumpable(v.m[k])
    ensures Dumps(v) == [DICT] + DumpPairs(v, SortedKeys(v.m.Keys)) + [SEMI]
  {
  }

  lemma NoPairs(v: Value)
    requires v.VDict?
    ensures DumpPairs(v, []) == []
  {
  }

  lemma {:induction false} DumpPairsSnoc(dict: Value, keys: seq<Value>, key: Value)
    requires dict.VDict? && key in dict.m && forall k :: k in keys ==> k in dict.m
    ensures DumpPairs(dict, keys + [key]) == DumpPairs(dict, keys) + Dumps(key) + Dumps(dict.m[key])
    decreases |keys|
  {
    hide Dumps;
    if keys == [] {
      assert keys + [key] == [key] && [key][1..] == [];
    } else {
      assert keys[0] in keys;
      assert (keys + [key])[1..] == keys[1..] + [key];
      DumpPairsSnoc(dict, keys[1..], key);
    }
  }

  /** The dispatch through `loads_table`. */
  method LoadsValue(s: Bytes, pos: nat, asIs: bool) returns (r: Result<Value>)
    ensures r == Load(s, pos, asIs)
    decreases if pos <= |s| then |s| - pos else 0, 0
  {
    if pos < |s| && (s[pos] == LIST || s[pos] == TUPLE) {
      var items := LoadsItems(s, pos, asIs);
      match items
      case Ok(xs, p) => r := Ok(if s[pos] == LIST then VList(xs) else VTuple(xs), p);
      case Err(e) => r := Err(e);
    } else if pos < |s| && s[pos] == DICT {
      var pairs := LoadsDict(s, pos, asIs);
      match pairs
      case Ok(m, p) => r := Ok(VDict(m), p);
      case Err(e) => r := Err(e);
    } else {
      r := if pos >= |s| then Err(ValueError)
           else if s[pos] == NONE then Ok(VNone, pos + 1)
           else if s[pos] == BOOL then LoadBool(s, pos)
           else if s[pos] == INT then LoadInt(s, pos)
           else if s[pos] == FLOAT then LoadFloat(s, pos)
           else if s[pos] == BYTES then LoadBytes(s, pos)
           else if s[pos] == TEXT then LoadText(s, pos)
           else Err(ValueError);
    }
  }

  function Prepend(res: seq<Value>, r: Result<seq<Value>>): Result<seq<Value>> {
    match r
    case Ok(xs, p) => Ok(res + xs, p)
    case Err(e) => Err(e)
  }

  /** The loop of `loads_list` and `loads_tuple`. */
  method LoadsItems(s: Bytes, start: nat, asIs: bool) returns (r: Result<seq<Value>>)
    requires start < |s|
    ensures r == LoadItems(s, start + 1, asIs)
    decreases |s| - (start + 1), 1
  {
    hide Load;
    var pos := start + 1;
    var res := [];
    PrependNil(LoadItems(s, pos, asIs));
    while !(pos < |s| && s[pos] == SEMI)
      invariant start < pos
      invariant LoadItems(s, start + 1, asIs) == Prepend(res, LoadItems(s, pos, asIs))
      decreases if pos <= |s| then |s| - pos else 0
    {
      var next := LoadsValue(s, pos, asIs);
      match next
      case Err(e) =>
        return Err(e);
      case Ok(obj, p) =>
        PrependSnoc(res, obj, LoadItems(s, p, asIs));
        res := res + [obj];
        pos := p;
    }
    assert res + [] == res;
    r := Ok(res, pos + 1);
  }

  lemma PrependNil(r: Result<seq<Value>>)
    ensures Prepend([], r) == r
  {
    if r.Ok? {
      assert [] + r.value == r.value;
    }
  }

  lemma PrependSnoc(res: seq<Value>, x: Value, r: Result<seq<Value>>)
    ensures Prepend(res, Prepend([x], r)) == Prepend(res + [x], r)
  {
    if r.Ok? {
      assert res + ([x] + r.value) == (res + [x]) + r.value;
    }
  }

  /** The loop of `loads_dict`. */
  method LoadsDict(s: Bytes, start: nat, asIs: bool) returns (r: Result<map<Value, Value>>)
    requires start < |s|
    ensures r == LoadPairs(s, start + 1, asIs, map[])
    decreases |s| - (start + 1), 1
  {
    hide Load;
    var pos := start + 1;
    var res := map[];
    while !(pos < |s| && s[pos] == SEMI)
      invariant start < pos
      invariant LoadPairs(s, start + 1, asIs, map[]) == LoadPairs(s, pos, asIs, res)
      decreases if pos <= |s| then |s| - pos else 0
    {
      var next := LoadsValue(s, pos, asIs);
      if next.Err? {
        return Err(next.error);
      }
      var after := LoadsValue(s, next.pos, asIs);
      if after.Err? {
        return Err(after.error);
      }
      var stored := Store(res, next.value, after.value, asIs);
      if stored.Err? {
        return Err(stored.error);
      }
      res := stored.value;
      pos := after.pos;
    }
    r := Ok(res, pos + 1);
  }

  /** `loads`. */
  method LoadsBytes(data: Bytes, asIs: bool) returns (o: Outcome)
    ensures o == Loads(data, asIs)
  {
    var r := LoadsValue(data, 0, asIs);
    match r
    case Ok(v, _) => o := Loaded(v);
    case Err(e) => o := Raised(e);
  }
}

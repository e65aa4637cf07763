/** What loading without `as_is` makes of a value: dictionary keys that are bytes become text
    (landscape/lib/bpickle.py:168-180). */
module BpickleText {
  import opened Common
  import opened KeyOrder
  import opened Decimal
  import opened Bpickle
  import opened BpickleProofs

  /** The value with every bytes key, at any depth, replaced by the text of the same bytes; nothing
      if some bytes key is not ASCII. */
  ghost function Texted(v: Value): Option<Value>
    decreases v, 2
  {
    match v
    case VList(xs) => if AllTexted(v, xs) then Some(VList(TextedItems(v, xs))) else None
    case VTuple(xs) => if AllTexted(v, xs) then Some(VTuple(TextedItems(v, xs))) else None
    case VDict(m) =>
      if forall k :: k in m ==> (k.VBytes? ==> forall i :: 0 <= i < |k.s| ==> k.s[i] < 128) && Texted(m[k]).Some? then
        Some(VDict(map t | t in Names(m) :: Texted(m[Original(m, t)]).value))
      else None
    case _ => Some(v)
  }

  ghost predicate AllTexted(parent: Value, xs: seq<Value>)
    requires forall x :: x in xs ==> x < parent
    decreases parent, 0
  {
    forall i :: 0 <= i < |xs| ==> assert xs[i] in xs; Texted(xs[i]).Some?
  }

  ghost function TextedItems(parent: Value, xs: seq<Value>): seq<Value>
    requires (forall x :: x in xs ==> x < parent) && AllTexted(parent, xs)
    decreases parent, 1
  {
    seq(|xs|, i requires 0 <= i < |xs| => assert xs[i] in xs; Texted(xs[i]).value)
  }

  /** The key an entry has afterwards. */
  function NameOf(k: Value): Value {
    if k.VBytes? then VText(k.s) else k
  }

  ghost function Names(m: map<Value, Value>): set<Value> {
    set k | k in m :: NameOf(k)
  }

  /** The key it had before. */
  ghost function Original(m: map<Value, Value>, t: Value): (k: Value)
    requires t in Names(m)
    ensures k in m && NameOf(k) == t
  {
    if t in m && !t.VBytes? then t else VBytes(t.s)
  }

  /** In a dictionary that can be dumped no two keys become the same, since bytes and text cannot be
      sorted together. */
  lemma NamesApart(m: map<Value, Value>, k: Value, l: Value)
    requires Dumpable(VDict(m)) && k in m && l in m && NameOf(k) == NameOf(l)
    ensures k == l
  {
    assert k.VBytes? && l.VText? ==> !Comparable(k, l);
    assert k.VText? && l.VBytes? ==> !Comparable(k, l);
  }

  /** Keys hold no dictionaries, so they are loaded as they are. */
  lemma {:induction false} KeysPlain(k: Value)
    requires Hashable(k)
    ensures NoBytesKeys(k)
  {
    if k.VTuple? {
      forall x | x in k.xs ensures NoBytesKeys(x) {
        KeysPlain(x);
      }
    }
  }

  /** Loading without `as_is` what was dumped gives exactly that value, and an error if there is
      none. */
  lemma {:induction false} LoadTexted(s: Bytes, pos: nat, v: Value)
    requires Dumpable(v) && At(s, pos, Dumps(v))
    ensures var r := Load(s, pos, false);
            if Texted(v).Some? then r == Ok(Texted(v).value, pos + |Dumps(v)|) else r.Err?
    decreases v, 2
  {
    match v
    case VList(xs) => LoadTextedSequence(s, pos, v, xs, LIST);
    case VTuple(xs) => LoadTextedSequence(s, pos, v, xs, TUPLE);
    case VDict(_) => LoadTextedDict(s, pos, v);
    case _ => LoadDumpScalar(s, pos, v, false);
  }

  lemma LoadTextedSequence(s: Bytes, pos: nat, v: Value, xs: seq<Value>, tag: byte)
    requires (v == VList(xs) && tag == LIST) || (v == VTuple(xs) && tag == TUPLE)
    requires Dumpable(v) && At(s, pos, Dumps(v))
    ensures var r := Load(s, pos, false);
            if Texted(v).Some? then r == Ok(Texted(v).value, pos + |Dumps(v)|) else r.Err?
    decreases v, 1
  {
    hide At, Dumpable, AllTexted, TextedItems, LoadItems, LoadPairs;
    assert Dumps(v) == [tag] + DumpItems(xs) + [SEMI];
    HeadAt(s, pos, Dumps(v));
    AtSplit3(s, pos, [tag], DumpItems(xs), [SEMI]);
    ItemsDumpable(v, xs);
    LoadTextedItems(s, pos + 1, v, xs);
  }

  lemma ItemsDumpable(v: Value, xs: seq<Value>)
    requires Dumpable(v) && (v == VList(xs) || v == VTuple(xs))
    ensures forall x :: x in xs ==> x < v && Dumpable(x)
  {
  }

  lemma {:induction false} LoadTextedItems(s: Bytes, pos: nat, parent: Value, xs: seq<Value>)
    requires forall x :: x in xs ==> x < parent && Dumpable(x)
    requires At(s, pos, DumpItems(xs)) && At(s, pos + |DumpItems(xs)|, [SEMI])
    ensures var r := LoadItems(s, pos, false);
            if AllTexted(parent, xs) then r == Ok(TextedItems(parent, xs), pos + |DumpItems(xs)| + 1) else r.Err?
    decreases parent, 0, |xs|
  {
    hide Load, Dumps, Dumpable, At, Texted;
    if xs != [] {
      var x, rest := xs[0], xs[1..];
      assert xs[0] in xs && forall y :: y in rest ==> y in xs;
      AtSplit(s, pos, Dumps(x), DumpItems(rest));
      HeadAt(s, pos, Dumps(x));
      LoadTexted(s, pos, x);
      LoadTextedItems(s, pos + |Dumps(x)|, parent, rest);
      AllStep(parent, xs);
    } else {
      assert TextedItems(parent, xs) == [];
      AtOne(s, pos, SEMI);
    }
  }

  lemma AllStep(parent: Value, xs: seq<Value>)
    requires (forall x :: x in xs ==> x < parent) && xs != []
    ensures xs[0] in xs && forall x :: x in xs[1..] ==> x < parent
    ensures AllTexted(parent, xs) <==> Texted(xs[0]).Some? && AllTexted(parent, xs[1..])
    ensures AllTexted(parent, xs) ==>
              TextedItems(parent, xs) == [Texted(xs[0]).value] + TextedItems(parent, xs[1..])
  {
    hide Texted;
    assert xs[0] in xs && forall x :: x in xs[1..] ==> x in xs;
    if Texted(xs[0]).Some? && AllTexted(parent, xs[1..]) {
      forall i | 0 <= i < |xs| ensures xs[i] in xs && Texted(xs[i]).Some? {
        assert i > 0 ==> xs[1..][i - 1] == xs[i];
      }
    }
  }

  // ---------------------------------------------------------------------------------
  // Dictionaries
  // ---------------------------------------------------------------------------------

  ghost predicate EntryTexted(m: map<Value, Value>, k: Value)
    requires k in m
  {
    (k.VBytes? ==> Ascii(k.s)) && Texted(m[k]).Some?
  }

  ghost predicate AllEntries(m: map<Value, Value>, keys: seq<Value>)
    requires forall k :: k in keys ==> k in m
  {
    forall k :: k in keys ==> EntryTexted(m, k)
  }

  lemma EntriesStep(m: map<Value, Value>, keys: seq<Value>)
    requires (forall k :: k in keys ==> k in m) && keys != []
    ensures keys[0] in keys && forall k :: k in keys[1..] ==> k in m
    ensures AllEntries(m, keys) <==> EntryTexted(m, keys[0]) && AllEntries(m, keys[1..])
  {
    assert keys == [keys[0]] + keys[1..];
  }

  ghost function EntryValue(m: map<Value, Value>, k: Value): Value
    requires k in m
  {
    if Texted(m[k]).Some? then Texted(m[k]).value else VNone
  }

  /** The entries for `keys`, stored one after the other. */
  ghost function Entered(m: map<Value, Value>, keys: seq<Value>, res: map<Value, Value>): map<Value, Value>
    requires forall k :: k in keys ==> k in m
    decreases |keys|
  {
    if keys == [] then res
    else
      assert keys[0] in keys;
      Entered(m, keys[1..], res[NameOf(keys[0]) := EntryValue(m, keys[0])])
  }

  lemma {:induction false} EnteredFacts(m: map<Value, Value>, keys: seq<Value>, res: map<Value, Value>)
    requires Dumpable(VDict(m)) && forall k :: k in keys ==> k in m
    ensures var r := Entered(m, keys, res);
            && (forall t :: t in r <==> t in res || exists k :: k in keys && NameOf(k) == t)
            && (forall k :: k in keys ==> r[NameOf(k)] == EntryValue(m, k))
            && (forall t :: t in res && (forall k :: k in keys ==> NameOf(k) != t) ==> r[t] == res[t])
    decreases |keys|
  {
    hide EntryValue, Dumpable, NameOf;
    if keys != [] {
      var k, rest := keys[0], keys[1..];
      assert keys == [k] + rest;
      EnteredFacts(m, rest, res[NameOf(k) := EntryValue(m, k)]);
      var r := Entered(m, keys, res);
      forall l | l in keys ensures NameOf(l) in r && r[NameOf(l)] == EntryValue(m, l) {
        if l !in rest {
          if o :| o in rest && NameOf(o) == NameOf(k) {
            NamesApart(m, o, k);
          }
        }
      }
    }
  }

  lemma EntryFacts(m: map<Value, Value>, k: Value)
    requires Dumpable(VDict(m)) && k in m
    ensures Dumpable(k) && Dumpable(m[k]) && Hashable(k)
  {
  }

  lemma {:induction false} LoadTextedPairs(s: Bytes, pos: nat, dict: Value, keys: seq<Value>, res: map<Value, Value>)
    requires dict.VDict? && Dumpable(dict) && forall k :: k in keys ==> k in dict.m
    requires At(s, pos, DumpPairs(dict, keys)) && At(s, pos + |DumpPairs(dict, keys)|, [SEMI])
    ensures var r := LoadPairs(s, pos, false, res);
            if AllEntries(dict.m, keys) then
              r == Ok(Entered(dict.m, keys, res), pos + |DumpPairs(dict, keys)| + 1)
            else r.Err?
    decreases dict, 0, |keys| + 1
  {
    hide Load, Dumps, Dumpable, At, Texted, Hashable, NoBytesKeys, Store, AllEntries;
    if keys != [] {
      assert keys[0] in keys && keys == [keys[0]] + keys[1..];
      var k, v, rest := keys[0], dict.m[keys[0]], keys[1..];
      AtSplit3(s, pos, Dumps(k), Dumps(v), DumpPairs(dict, rest));
      EntryFacts(dict.m, k);
      KeysPlain(k);
      HeadAt(s, pos, Dumps(k));
      LoadDump(s, pos, k, false);
      LoadTexted(s, pos + |Dumps(k)|, v);
      EntriesStep(dict.m, keys);
      if Texted(v).Some? {
        StoreTexted(res, k, Texted(v).value);
        if EntryTexted(dict.m, k) {
          LoadTextedPairs(s, pos + |Dumps(k)| + |Dumps(v)|, dict, rest, res[NameOf(k) := EntryValue(dict.m, k)]);
        }
      }
    } else {
      NoEntries(dict.m);
      AtOne(s, pos, SEMI);
    }
  }

  lemma NoEntries(m: map<Value, Value>)
    ensures AllEntries(m, [])
  {
  }

  lemma StoreTexted(res: map<Value, Value>, k: Value, v: Value)
    requires Hashable(k)
    ensures var r := Store(res, k, v, false);
            if k.VBytes? ==> Ascii(k.s) then r.Ok? && r.value == res[NameOf(k) := v] else r.Err?
  {
  }

  lemma LoadTextedDict(s: Bytes, pos: nat, v: Value)
    requires v.VDict? && Dumpable(v) && At(s, pos, Dumps(v))
    ensures var r := Load(s, pos, false);
            if Texted(v).Some? then r == Ok(Texted(v).value, pos + |Dumps(v)|) else r.Err?
    decreases v, 1
  {
    hide At, Dumpable, Dumps, DumpPairs, Load, LoadPairs, SortedKeys, Texted, Entered, EntryTexted;
    var keys := SortedKeys(v.m.Keys);
    DictFrame(v);
    HeadAt(s, pos, Dumps(v));
    AtSplit3(s, pos, [DICT], DumpPairs(v, keys), [SEMI]);
    LoadTextedPairs(s, pos + 1, v, keys, map[]);
    LoadDictValue(s, pos);
    TextedDict(v.m);
    EnteredAll(v.m, keys);
  }

  lemma LoadDictValue(s: Bytes, pos: nat)
    requires pos < |s| && s[pos] == DICT
    ensures var m, v := LoadPairs(s, pos + 1, false, map[]), Load(s, pos, false);
            (m.Err? <==> v.Err?) && (m.Ok? ==> v == Ok(VDict(m.value), m.pos))
  {
    hide LoadPairs, LoadItems, LoadBool, LoadInt, LoadFloat, LoadBytes, LoadText;
  }

  lemma TextedDict(m: map<Value, Value>)
    ensures Texted(VDict(m)).Some? <==> forall k :: k in m ==> EntryTexted(m, k)
    ensures Texted(VDict(m)).Some? ==>
              Texted(VDict(m)).value == VDict(map t | t in Names(m) :: EntryValue(m, Original(m, t)))
  {
  }

  lemma EnteredAll(m: map<Value, Value>, keys: seq<Value>)
    requires Dumpable(VDict(m)) && forall k :: k in keys <==> k in m
    ensures Entered(m, keys, map[]) == map t | t in Names(m) :: EntryValue(m, Original(m, t))
  {
    hide EntryValue, Entered, Names, Original, Dumpable;
    var r := Entered(m, keys, map[]);
    EnteredNames(m, keys);
    forall t | t in Names(m) ensures r[t] == EntryValue(m, Original(m, t)) {
      EnteredAt(m, keys, Original(m, t));
    }
  }

  lemma EnteredNames(m: map<Value, Value>, keys: seq<Value>)
    requires Dumpable(VDict(m)) && forall k :: k in keys <==> k in m
    ensures Entered(m, keys, map[]).Keys == Names(m)
  {
    EnteredFacts(m, keys, map[]);
    hide EntryValue, Entered, NameOf, Dumpable;
    var r := Entered(m, keys, map[]);
    forall t ensures t in r <==> t in Names(m) {
    }
  }

  lemma EnteredAt(m: map<Value, Value>, keys: seq<Value>, k: Value)
    requires Dumpable(VDict(m)) && (forall k :: k in keys <==> k in m) && k in m
    ensures NameOf(k) in Entered(m, keys, map[]) && Entered(m, keys, map[])[NameOf(k)] == EntryValue(m, k)
  {
    EnteredFacts(m, keys, map[]);
  }

  /** `loads(dumps(v))`. */
  lemma LoadsTexted(v: Value)
    requires Dumpable(v)
    ensures if Texted(v).Some? then Loads(Dumps(v), false) == Loaded(Texted(v).value)
            else Loads(Dumps(v), false).Raised?
  {
    hide Load, Dumps, Texted;
    assert Dumps(v) + [] == Dumps(v);
    AtStart(Dumps(v), []);
    LoadTexted(Dumps(v), 0, v);
  }
}

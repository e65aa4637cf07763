/** The bpickle wire format: a recursive printer and a parser that passes positions along
    (landscape/lib/bpickle.py). */
module Bpickle {
  import opened Common
  import opened Decimal
  import opened KeyOrder

  // ---------------------------------------------------------------------------------
  // What can be dumped
  // ---------------------------------------------------------------------------------

  /** A float is kept as the text `repr` gives for it, which has no `;`. */
  predicate FloatToken(t: Bytes) {
    SEMI !in t
  }

  /** The values `dumps` accepts: dictionary keys are hashable and can be sorted together. */
  ghost predicate Dumpable(v: Value)
    decreases v
  {
    match v
    case VNone => true
    case VBool(_) => true
    case VInt(_) => true
    case VFloat(t) => FloatToken(t)
    case VBytes(_) => true
    case VText(s) => ValidUtf8(s)
    case VList(xs) => forall x :: x in xs ==> Dumpable(x)
    case VTuple(xs) => forall x :: x in xs ==> Dumpable(x)
    case VDict(m) =>
      && Sortable(m.Keys)
      && forall k :: k in m ==> Hashable(k) && Dumpable(k) && Dumpable(m[k])
  }

  // ---------------------------------------------------------------------------------
  // The printer
  // ---------------------------------------------------------------------------------

  const NONE: byte := 'n' as int
  const BOOL: byte := 'b' as int
  const INT: byte := 'i' as int
  const FLOAT: byte := 'f' as int
  const BYTES: byte := 's' as int
  const TEXT: byte := 'u' as int
  const LIST: byte := 'l' as int
  const TUPLE: byte := 't' as int
  const DICT: byte := 'd' as int
  const SEMI: byte := ';' as int
  const COLON: byte := ':' as int

  /** `dumps`. */
  ghost function Dumps(v: Value): (d: Bytes)
    ensures d != [] && d[0] != SEMI
    decreases v
  {
    match v
    case VNone => [NONE]
    case VBool(b) => [BOOL, if b then DIGIT0 + 1 else DIGIT0]
    case VInt(n) => [INT] + IntText(n) + [SEMI]
    case VFloat(t) => [FLOAT] + t + [SEMI]
    case VBytes(s) => [BYTES] + IntText(|s|) + [COLON] + s
    case VText(s) => [TEXT] + IntText(|s|) + [COLON] + s
    case VList(xs) => [LIST] + DumpItems(xs) + [SEMI]
    case VTuple(xs) => [TUPLE] + DumpItems(xs) + [SEMI]
    case VDict(m) => [DICT] + DumpPairs(v, SortedKeys(m.Keys)) + [SEMI]
  }

  ghost function DumpItems(xs: seq<Value>): Bytes
    decreases xs
  {
    if xs == [] then [] else Dumps(xs[0]) + DumpItems(xs[1..])
  }

  ghost function DumpPairs(dict: Value, keys: seq<Value>): Bytes
    requires dict.VDict? && forall k :: k in keys ==> k in dict.m
    decreases dict, 0, keys
  {
    if keys == [] then []
    else
      assert keys[0] in keys;
      Dumps(keys[0]) + Dumps(dict.m[keys[0]]) + DumpPairs(dict, keys[1..])
  }

  // ---------------------------------------------------------------------------------
  // The parser
  // ---------------------------------------------------------------------------------

  datatype Error = ValueError | TypeError

  datatype Result<+T> = Ok(value: T, pos: nat) | Err(error: Error)

  /** `bytestring.index(c, pos)`. */
  function Index(s: Bytes, c: byte, pos: nat): (r: Option<nat>)
    ensures r.Some? ==> pos <= r.value < |s| && s[r.value] == c && c !in s[pos..r.value]
    ensures r.None? && pos <= |s| ==> c !in s[pos..]
    decreases if pos <= |s| then |s| - pos else 0
  {
    if pos >= |s| then None
    else if s[pos] == c then Some(pos)
    else
      var r := Index(s, c, pos + 1);
      assert s[pos..] == [s[pos]] + s[pos + 1..];
      assert r.Some? ==> s[pos..r.value] == [s[pos]] + s[pos + 1..r.value];
      r
  }

  /** `bytestring[from:to]`, which stops silently at the end of the string. */
  function Slice(s: Bytes, from: nat, to: nat): Bytes {
    if from >= |s| || to <= from then [] else s[from..if to <= |s| then to else |s|]
  }

  function LoadBool(s: Bytes, pos: nat): Result<Value> {
    match ParseInt(Slice(s, pos + 1, pos + 2))
    case Some(n) => Ok(VBool(n != 0), pos + 2)
    case None => Err(ValueError)
  }

  function LoadInt(s: Bytes, pos: nat): Result<Value> {
    match Index(s, SEMI, pos)
    case None => Err(ValueError)
    case Some(endpos) =>
      match ParseInt(Slice(s, pos + 1, endpos))
      case Some(n) => Ok(VInt(n), endpos + 1)
      case None => Err(ValueError)
  }

  function LoadFloat(s: Bytes, pos: nat): Result<Value> {
    match Index(s, SEMI, pos)
    case None => Err(ValueError)
    case Some(endpos) => Ok(VFloat(Slice(s, pos + 1, endpos)), endpos + 1)
  }

  /** The common part of `loads_bytes` and `loads_unicode`. */
  function LoadString(s: Bytes, pos: nat): (r: Result<Bytes>)
    ensures r.Ok? ==> pos < r.pos
  {
    match Index(s, COLON, pos)
    case None => Err(ValueError)
    case Some(colon) =>
      var startpos := colon + 1;
      match ParseInt(Slice(s, pos + 1, startpos - 1))
      case None => Err(ValueError)
      case Some(step) =>
        if step < 0 then Err(ValueError)
        else Ok(Slice(s, startpos, startpos + step), startpos + step)
  }

  function LoadBytes(s: Bytes, pos: nat): Result<Value> {
    match LoadString(s, pos)
    case Err(e) => Err(e)
    case Ok(b, p) => Ok(VBytes(b), p)
  }

  function LoadText(s: Bytes, pos: nat): Result<Value> {
    match LoadString(s, pos)
    case Err(e) => Err(e)
    case Ok(b, p) => if ValidUtf8(b) then Ok(VText(b), p) else Err(ValueError)
  }

  /** The loader the table holds for the tag at `pos`; an unknown tag, or none, is an error. */
  function Load(s: Bytes, pos: nat, asIs: bool): (r: Result<Value>)
    ensures r.Ok? ==> pos < r.pos && pos < |s|
    decreases if pos <= |s| then |s| - pos else 0, 0
  {
    if pos >= |s| then Err(ValueError)
    else if s[pos] == NONE then Ok(VNone, pos + 1)
    else if s[pos] == BOOL then LoadBool(s, pos)
    else if s[pos] == INT then LoadInt(s, pos)
    else if s[pos] == FLOAT then LoadFloat(s, pos)
    else if s[pos] == BYTES then LoadBytes(s, pos)
    else if s[pos] == TEXT then LoadText(s, pos)
    else if s[pos] == LIST then
      match LoadItems(s, pos + 1, asIs) {
        case Ok(xs, p) => Ok(VList(xs), p)
        case Err(e) => Err(e)
      }
    else if s[pos] == TUPLE then
      match LoadItems(s, pos + 1, asIs) {
        case Ok(xs, p) => Ok(VTuple(xs), p)
        case Err(e) => Err(e)
      }
    else if s[pos] == DICT then
      match LoadPairs(s, pos + 1, asIs, map[]) {
        case Ok(m, p) => Ok(VDict(m), p)
        case Err(e) => Err(e)
      }
    else Err(ValueError)
  }

  function LoadItems(s: Bytes, pos: nat, asIs: bool): (r: Result<seq<Value>>)
    ensures r.Ok? ==> pos < r.pos <= |s|
    decreases if pos <= |s| then |s| - pos else 0, 1
  {
    if pos < |s| && s[pos] == SEMI then Ok([], pos + 1)
    else
      match Load(s, pos, asIs)
      case Err(e) => Err(e)
      case Ok(x, p) =>
        match LoadItems(s, p, asIs)
        case Err(e) => Err(e)
        case Ok(xs, q) => Ok([x] + xs, q)
  }

  /** `res[key] = val`, after the reinterpretation of byte keys. */
  function Store(res: map<Value, Value>, key: Value, val: Value, asIs: bool): Result<map<Value, Value>> {
    if !asIs && key.VBytes? then
      if Ascii(key.s) then Ok(res[VText(key.s) := val], 0) else Err(ValueError)
    else if Hashable(key) then Ok(res[key := val], 0)
    else Err(TypeError)
  }

  function LoadPairs(s: Bytes, pos: nat, asIs: bool, res: map<Value, Value>): (r: Result<map<Value, Value>>)
    ensures r.Ok? ==> pos < r.pos <= |s|
    decreases if pos <= |s| then |s| - pos else 0, 1
  {
    if pos < |s| && s[pos] == SEMI then Ok(res, pos + 1)
    else
      match Load(s, pos, asIs)
      case Err(e) => Err(e)
      case Ok(key, p) =>
        match Load(s, p, asIs)
        case Err(e) => Err(e)
        case Ok(val, q) =>
          match Store(res, key, val, asIs)
          case Err(e) => Err(e)
          case Ok(res', _) => LoadPairs(s, q, asIs, res')
  }

  datatype Outcome = Loaded(value: Value) | Raised(error: Error)

  /** `loads`: whatever follows the first value is ignored. */
  function Loads(s: Bytes, asIs: bool): Outcome {
    match Load(s, 0, asIs)
    case Ok(v, _) => Loaded(v)
    case Err(e) => Raised(e)
  }
}

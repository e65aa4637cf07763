/** Method calls over AMP: the arguments travel as one bpickle dump, cut into pieces that the
    receiver collects per call (landscape/lib/amp.py:138-316). */
module Amp {
  import opened Common
  import opened KeyOrder
  import opened Bpickle
  import opened BpickleProofs
  import opened BpickleCode

  /** `MethodCallChunk` and `MethodCall`, which carries the last piece. */
  datatype Command =
    | Chunk(sequence: int, data: Bytes)
    | Call(sequence: int, name: Bytes, data: Bytes)

  /** What a `MethodCall` leads to: the object's method runs, or an error goes back. */
  datatype Reply =
    | Dispatched(name: Bytes, args: Value, kwargs: Value)
    | Failed

  datatype Record = Record(sequence: int, reply: Reply)

  // ---------------------------------------------------------------------------------
  // Sending
  // ---------------------------------------------------------------------------------

  /** The slices of `data` at multiples of `size`. */
  function Pieces(data: Bytes, size: nat): (r: seq<Bytes>)
    requires size > 0
    ensures data != [] <==> r != []
    ensures forall i :: 0 <= i < |r| ==> 0 < |r[i]| <= size
    ensures forall i :: 0 <= i < |r| - 1 ==> |r[i]| == size
    decreases |data|
  {
    if data == [] then []
    else if |data| <= size then [data]
    else [data[..size]] + Pieces(data[size..], size)
  }

  /** `b"".join(pieces)`. */
  function Join(pieces: seq<Bytes>): Bytes {
    if pieces == [] then [] else pieces[0] + Join(pieces[1..])
  }

  lemma {:induction false} JoinPieces(data: Bytes, size: nat)
    requires size > 0
    ensures Join(Pieces(data, size)) == data
    decreases |data|
  {
    if |data| > size {
      JoinPieces(data[size..], size);
      assert data == data[..size] + data[size..];
    } else if data != [] {
      assert [data][1..] == [] && data + [] == data;
    }
  }

  lemma {:induction false} JoinSnoc(pieces: seq<Bytes>, last: Bytes)
    ensures Join(pieces + [last]) == Join(pieces) + last
    decreases |pieces|
  {
    if pieces == [] {
      assert pieces + [last] == [last] && [last][1..] == [];
    } else {
      assert (pieces + [last])[1..] == pieces[1..] + [last];
      JoinSnoc(pieces[1..], last);
    }
  }

  lemma JoinOne(piece: Bytes)
    ensures Join([piece]) == piece
  {
    assert [piece][1..] == [] && piece + [] == piece;
  }

  /** One call: every piece but the last as a chunk, the last with the method's name. */
  ghost function Stream(sequence: int, name: Bytes, pieces: seq<Bytes>): seq<Command>
    requires pieces != []
  {
    seq(|pieces|, i requires 0 <= i < |pieces| =>
      if i < |pieces| - 1 then Chunk(sequence, pieces[i]) else Call(sequence, name, pieces[i]))
  }

  ghost function CallStream(sequence: int, name: Bytes, args: Value, kwargs: Value, size: nat): seq<Command>
    requires size > 0
  {
    Stream(sequence, name, Pieces(Dumps(VTuple([args, kwargs])), size))
  }

  /** `send_method_call`: the commands it issues, in order. */
  method SendMethodCall(sequence: int, name: Bytes, args: Value, kwargs: Value, chunkSize: nat)
    returns (commands: seq<Command>)
    requires chunkSize > 0 && Dumpable(args) && Dumpable(kwargs)
    ensures commands == CallStream(sequence, name, args, kwargs, chunkSize)
    ensures forall i :: 0 <= i < |commands| ==> |commands[i].data| <= chunkSize
    ensures |commands| > 0 && commands[|commands| - 1].Call?
  {
    hide Dumps;
    var arguments := DumpsValue(VTuple([args, kwargs]));
    var chunks := Pieces(arguments, chunkSize);
    commands := [];
    if |chunks| > 1 {
      for i := 0 to |chunks| - 1
        invariant |commands| == i
        invariant forall j :: 0 <= j < i ==> commands[j] == Chunk(sequence, chunks[j])
      {
        commands := commands + [Chunk(sequence, chunks[i])];
      }
    }
    commands := commands + [Call(sequence, name, chunks[|chunks| - 1])];
  }

  // ---------------------------------------------------------------------------------
  // Receiving
  // ---------------------------------------------------------------------------------

  /** `args, kwargs = value`. Other values of two elements unpack as well, but never into
      keyword arguments: they fail at the call if not before. */
  function Unpack(value: Value): Option<(Value, Value)> {
    match value
    case VTuple(xs) => if |xs| == 2 then Some((xs[0], xs[1])) else None
    case VList(xs) => if |xs| == 2 then Some((xs[0], xs[1])) else None
    case _ => None
  }

  /** `method(*args, **kwargs)` can be made: the arguments can be iterated over, and the keyword
      arguments are a dictionary with text keys. */
  predicate Spreads(args: Value, kwargs: Value) {
    && (args.VList? || args.VTuple? || args.VDict? || args.VText? || args.VBytes?)
    && kwargs.VDict? && forall k :: k in kwargs.m ==> k.VText?
  }

  /** What the receiver does with the complete arguments of a call. */
  function Handle(methods: set<Bytes>, name: Bytes, arguments: Bytes): Reply {
    match Loads(arguments, true)
    case Raised(_) => Failed
    case Loaded(v) =>
      match Unpack(v)
      case None => Failed
      case Some(pair) =>
        if name in methods && Spreads(pair.0, pair.1) then Dispatched(name, pair.0, pair.1) else Failed
  }

  datatype State = State(pending: map<int, seq<Bytes>>, log: seq<Record>)

  function Buffer(pending: map<int, seq<Bytes>>, sequence: int): seq<Bytes> {
    if sequence in pending then pending[sequence] else []
  }

  function Step(methods: set<Bytes>, s: State, c: Command): State {
    match c
    case Chunk(n, data) => s.(pending := s.pending[n := Buffer(s.pending, n) + [data]])
    case Call(n, name, data) =>
      State(s.pending - {n},
            s.log + [Record(n, Handle(methods, name, Join(Buffer(s.pending, n) + [data])))])
  }

  ghost function Run(methods: set<Bytes>, s: State, commands: seq<Command>): State
    decreases |commands|
  {
    if commands == [] then s
    else Step(methods, Run(methods, s, commands[..|commands| - 1]), commands[|commands| - 1])
  }

  /** `MethodCallReceiver`: the buffers, and the replies given so far. */
  class MethodCallReceiver {
    const methods: set<Bytes>
    var pendingChunks: map<int, seq<Bytes>>
    var log: seq<Record>

    constructor (methods: set<Bytes>)
      ensures this.methods == methods && pendingChunks == map[] && log == []
    {
      this.methods := methods;
      pendingChunks := map[];
      log := [];
    }

    ghost function Now(): State
      reads this
    {
      State(pendingChunks, log)
    }

    method ReceiveMethodCallChunk(sequence: int, chunk: Bytes) returns (result: int)
      modifies this
      ensures result == sequence
      ensures Now() == Step(methods, old(Now()), Chunk(sequence, chunk))
    {
      var buffer := if sequence in pendingChunks then pendingChunks[sequence] else [];
      pendingChunks := pendingChunks[sequence := buffer + [chunk]];
      result := sequence;
    }

    method ReceiveMethodCall(sequence: int, name: Bytes, arguments: Bytes) returns (reply: Reply)
      modifies this
      ensures Now() == Step(methods, old(Now()), Call(sequence, name, arguments))
      ensures log == old(log) + [Record(sequence, reply)]
    {
      hide Loads;
      var data := arguments;
      if sequence in pendingChunks {
        var chunks := pendingChunks[sequence];
        pendingChunks := pendingChunks - {sequence};
        chunks := chunks + [arguments];
        data := Join(chunks);
      } else {
        JoinOne(arguments);
        assert [] + [arguments] == [arguments];
        assert pendingChunks - {sequence} == pendingChunks;
      }
      assert data == Join(Buffer(old(pendingChunks), sequence) + [arguments]);
      var loaded := LoadsBytes(data, true);
      reply := Failed;
      if loaded.Loaded? {
        var pair := Unpack(loaded.value);
        if pair.Some? && name in methods && Spreads(pair.value.0, pair.value.1) {
          reply := Dispatched(name, pair.value.0, pair.value.1);
        }
      }
      log := log + [Record(sequence, reply)];
    }
  }

  // ---------------------------------------------------------------------------------
  // Interleaved calls
  // ---------------------------------------------------------------------------------

  ghost function For(commands: seq<Command>, n: int): seq<Command>
    decreases |commands|
  {
    if commands == [] then []
    else
      var last := commands[|commands| - 1];
      For(commands[..|commands| - 1], n) + if last.sequence == n then [last] else []
  }

  ghost function LogFor(log: seq<Record>, n: int): seq<Reply>
    decreases |log|
  {
    if log == [] then []
    else
      var last := log[|log| - 1];
      LogFor(log[..|log| - 1], n) + if last.sequence == n then [last.reply] else []
  }

  lemma LogForSnoc(log: seq<Record>, r: Record, n: int)
    ensures LogFor(log + [r], n) == LogFor(log, n) + if r.sequence == n then [r.reply] else []
  {
    assert (log + [r])[..|log|] == log;
  }

  const START := State(map[], [])

  /** A call's buffer and replies depend on its own commands alone. */
  lemma {:induction false} Independent(methods: set<Bytes>, commands: seq<Command>, n: int)
    ensures var all, own := Run(methods, START, commands), Run(methods, START, For(commands, n));
            && Buffer(all.pending, n) == Buffer(own.pending, n)
            && (n in all.pending <==> n in own.pending)
            && LogFor(all.log, n) == LogFor(own.log, n)
    decreases |commands|
  {
    if commands != [] {
      var init, last := commands[..|commands| - 1], commands[|commands| - 1];
      Independent(methods, init, n);
      var all, own := Run(methods, START, init), Run(methods, START, For(init, n));
      if last.sequence == n {
        var mine := For(commands, n);
        assert mine[..|mine| - 1] == For(init, n) && mine[|mine| - 1] == last;
        assert Run(methods, START, mine) == Step(methods, own, last);
      } else {
        assert For(commands, n) == For(init, n);
      }
      if last.Call? {
        var reply := Handle(methods, last.name, Join(Buffer(all.pending, last.sequence) + [last.data]));
        LogForSnoc(all.log, Record(last.sequence, reply), n);
        LogForSnoc(own.log, Record(last.sequence, reply), n);
      }
    }
  }

  /** The chunks of a stream pile up in its buffer and nothing else happens. */
  lemma {:induction false} ChunksPileUp(methods: set<Bytes>, n: int, name: Bytes, pieces: seq<Bytes>, k: nat)
    requires k < |pieces|
    ensures var s := Run(methods, START, Stream(n, name, pieces)[..k]);
            Buffer(s.pending, n) == pieces[..k] && s.log == []
    decreases k
  {
    if k > 0 {
      var front := Stream(n, name, pieces)[..k];
      assert front[..k - 1] == Stream(n, name, pieces)[..k - 1];
      ChunksPileUp(methods, n, name, pieces, k - 1);
      assert pieces[..k] == pieces[..k - 1] + [pieces[k - 1]];
    }
  }

  /** A whole stream ends in one reply, computed from the joined pieces, and an empty buffer. */
  lemma StreamReply(methods: set<Bytes>, n: int, name: Bytes, pieces: seq<Bytes>)
    requires pieces != []
    ensures var s := Run(methods, START, Stream(n, name, pieces));
            n !in s.pending && s.log == [Record(n, Handle(methods, name, Join(pieces)))]
  {
    var k := |pieces| - 1;
    var stream := Stream(n, name, pieces);
    ChunksPileUp(methods, n, name, pieces, k);
    assert pieces == pieces[..k] + [pieces[k]];
  }

  /** A method call in flight. */
  datatype Sent = Sent(name: Bytes, args: Value, kwargs: Value)

  /** What should come of a call. */
  function Answer(methods: set<Bytes>, c: Sent): Reply {
    if c.name in methods && Spreads(c.args, c.kwargs) then Dispatched(c.name, c.args, c.kwargs) else Failed
  }

  /** Once all commands of a call have arrived, in whatever company, the call has been answered
      exactly once, from exactly the arguments its sender passed, and its buffer is gone. The
      other commands can be anything, calls still half sent included. */
  lemma EveryCallDispatchedOnce(methods: set<Bytes>, commands: seq<Command>, c: Sent, size: nat, n: int)
    requires size > 0 && Dumpable(c.args) && Dumpable(c.kwargs)
    requires For(commands, n) == CallStream(n, c.name, c.args, c.kwargs, size)
    ensures var s := Run(methods, START, commands);
            && n !in s.pending
            && LogFor(s.log, n) == [Answer(methods, c)]
  {
    hide Dumps, Loads, Run, For, Join, Pieces;
    var data := Dumps(VTuple([c.args, c.kwargs]));
    Independent(methods, commands, n);
    StreamReply(methods, n, c.name, Pieces(data, size));
    JoinPieces(data, size);
    HandleDump(methods, c);
    assert [Record(n, Handle(methods, c.name, data))] == [] + [Record(n, Handle(methods, c.name, data))];
    LogForSnoc([], Record(n, Handle(methods, c.name, data)), n);
  }

  /** A call with positional arguments in a list or tuple, or anything else that has elements, and
      keyword arguments under text keys, of a method that is allowed, runs the method with them. */
  lemma CallRuns(methods: set<Bytes>, commands: seq<Command>, c: Sent, size: nat, n: int)
    requires size > 0 && Dumpable(c.args) && Dumpable(c.kwargs)
    requires For(commands, n) == CallStream(n, c.name, c.args, c.kwargs, size)
    requires c.name in methods
    requires c.args.VList? || c.args.VTuple? || c.args.VDict? || c.args.VText? || c.args.VBytes?
    requires c.kwargs.VDict? && forall k :: k in c.kwargs.m ==> k.VText?
    ensures LogFor(Run(methods, START, commands).log, n) == [Dispatched(c.name, c.args, c.kwargs)]
  {
    EveryCallDispatchedOnce(methods, commands, c, size, n);
  }

  /** A call of a method that is not allowed, with a number or nothing for the positional arguments,
      or with anything but text for a keyword, is refused. */
  lemma CallRefused(methods: set<Bytes>, commands: seq<Command>, c: Sent, size: nat, n: int)
    requires size > 0 && Dumpable(c.args) && Dumpable(c.kwargs)
    requires For(commands, n) == CallStream(n, c.name, c.args, c.kwargs, size)
    requires c.name !in methods || c.args.VNone? || c.args.VBool? || c.args.VInt? || c.args.VFloat?
             || !c.kwargs.VDict? || exists k :: k in c.kwargs.m && !k.VText?
    ensures LogFor(Run(methods, START, commands).log, n) == [Failed]
  {
    EveryCallDispatchedOnce(methods, commands, c, size, n);
  }

  /** A list of two is as good as a tuple; any other number of elements is an error, and so are data
      that do not load. */
  lemma OtherArguments(methods: set<Bytes>, name: Bytes, xs: seq<Value>)
    requires forall x :: x in xs ==> Dumpable(x)
    ensures |xs| == 2 ==>
              Handle(methods, name, Dumps(VList(xs))) == Handle(methods, name, Dumps(VTuple(xs)))
    ensures |xs| != 2 ==>
              Handle(methods, name, Dumps(VList(xs))) == Failed == Handle(methods, name, Dumps(VTuple(xs)))
    ensures forall data :: Loads(data, true).Raised? ==> Handle(methods, name, data) == Failed
  {
    hide Dumps, Loads;
    assert Dumpable(VList(xs)) && Dumpable(VTuple(xs));
    assert Dumps(VList(xs)) + [] == Dumps(VList(xs)) && Dumps(VTuple(xs)) + [] == Dumps(VTuple(xs));
    LoadsDumps(VList(xs), [], true);
    LoadsDumps(VTuple(xs), [], true);
  }

  /** The receiver unpacks what the sender packed. */
  lemma HandleDump(methods: set<Bytes>, c: Sent)
    requires Dumpable(c.args) && Dumpable(c.kwargs)
    ensures Handle(methods, c.name, Dumps(VTuple([c.args, c.kwargs])))
         == Answer(methods, c)
  {
    hide Dumps, Loads;
    var v := VTuple([c.args, c.kwargs]);
    PairDumpable(c.args, c.kwargs);
    assert Dumps(v) + [] == Dumps(v);
    LoadsDumps(v, [], true);
  }

  lemma PairDumpable(a: Value, b: Value)
    requires Dumpable(a) && Dumpable(b)
    ensures Dumpable(VTuple([a, b]))
  {
  }

  /** Commands that belong to no call leave no trace: the buffers are those of unfinished calls. */
  lemma {:induction false} NoStrayBuffers(methods: set<Bytes>, commands: seq<Command>, n: int)
    requires forall c :: c in commands ==> c.sequence != n
    ensures n !in Run(methods, START, commands).pending
    decreases |commands|
  {
    if commands != [] {
      assert commands[|commands| - 1] in commands;
      NoStrayBuffers(methods, commands[..|commands| - 1], n);
    }
  }

  /** The commands are the streams of `calls`, interleaved in any way. */
  ghost predicate Interleaves(commands: seq<Command>, calls: map<int, Sent>, size: nat)
    requires size > 0
  {
    && (forall c :: c in commands ==> c.sequence in calls)
    && (forall n :: n in calls ==>
          For(commands, n) == CallStream(n, calls[n].name, calls[n].args, calls[n].kwargs, size))
  }

  /** Once every stream has arrived, all buffers are gone. */
  lemma AllBuffersGone(methods: set<Bytes>, commands: seq<Command>, calls: map<int, Sent>, size: nat)
    requires size > 0 && Interleaves(commands, calls, size)
    requires forall n :: n in calls ==> Dumpable(calls[n].args) && Dumpable(calls[n].kwargs)
    ensures Run(methods, START, commands).pending == map[]
  {
    var s := Run(methods, START, commands);
    forall n ensures n !in s.pending {
      if n in calls {
        EveryCallDispatchedOnce(methods, commands, calls[n], size, n);
      } else {
        NoStrayBuffers(methods, commands, n);
      }
    }
  }
}

/** The outgoing queue as a list in walk order, and what each operation of the message store
    does to it (landscape/client/broker/store.py, landscape/lib/message.py). */
module StoreModel {
  import opened Common

  /** `id` is what `add` returns; `api` is the place of the version in the order of versions. */
  datatype Message = Message(id: nat, kind: string, api: int)

  /** A stored message and its HELD flag. */
  datatype Entry = Entry(msg: Message, held: bool)

  /** `sequence` numbers the live message at index `offset`. */
  datatype Store = Store(queue: seq<Entry>, sequence: int, offset: nat, types: set<string>, api: int)
  {
    /** The number of the live message at index 0. */
    function Base(): int {
      sequence - offset
    }

    predicate Accepts(m: Message) {
      m.kind in types
    }

    /** Neither of unknown type nor of unknown API version. */
    predicate Sendable(m: Message) {
      m.kind in types && m.api <= api
    }
  }

  /** The messages that are not held, in walk order. */
  function Live(q: seq<Entry>): seq<Message> {
    if q == [] then [] else if q[0].held then Live(q[1..]) else [q[0].msg] + Live(q[1..])
  }

  function Held(q: seq<Entry>): seq<Message> {
    if q == [] then [] else if q[0].held then [q[0].msg] + Held(q[1..]) else Held(q[1..])
  }

  function Messages(q: seq<Entry>): seq<Message> {
    if q == [] then [] else [q[0].msg] + Messages(q[1..])
  }

  /** `count_pending_messages`. */
  function PendingCount(s: Store): nat {
    if s.offset <= |Live(s.queue)| then |Live(s.queue)| - s.offset else 0
  }

  ghost predicate Valid(s: Store) {
    s.offset <= |Live(s.queue)|
  }

  ghost function Pending(s: Store): seq<Message>
    requires Valid(s)
  {
    Live(s.queue)[s.offset..]
  }

  // ---------------------------------------------------------------------------------
  // Adding and deleting
  // ---------------------------------------------------------------------------------

  /** `add`: last in walk order, held unless its type is accepted. */
  function Add(s: Store, m: Message): Store {
    s.(queue := s.queue + [Entry(m, !s.Accepts(m))])
  }

  /** What becomes of a message given to `add`: rejected while the store waits for a resync, or
      queued after the first `dropped` entries, and perhaps all sent ones, have been trimmed. */
  datatype Adding = Rejected | Queued(dropped: nat, cleared: bool)

  const UNTRIMMED := Queued(0, false)

  function AddAs(s: Store, how: Adding, m: Message): Store {
    match how
    case Rejected => s
    case Queued(dropped, cleared) =>
      Add(s.(queue := if dropped <= |s.queue| then s.queue[dropped..] else [],
             offset := if cleared then 0 else s.offset), m)
  }

  lemma AddUntrimmed(s: Store, m: Message)
    ensures AddAs(s, UNTRIMMED, m) == Add(s, m)
  {
    assert s.queue[0..] == s.queue;
  }

  /** `delete_old_messages`: the first `n` live messages go, held ones stay. */
  function DropLive(q: seq<Entry>, n: nat): seq<Entry> {
    if q == [] || n == 0 then q
    else if q[0].held then [q[0]] + DropLive(q[1..], n)
    else DropLive(q[1..], n - 1)
  }

  lemma {:induction false} LiveConcat(a: seq<Entry>, b: seq<Entry>)
    ensures Live(a + b) == Live(a) + Live(b)
    decreases |a|
  {
    if a == [] {
      assert a + b == b;
    } else {
      LiveConcat(a[1..], b);
      Front(a, b);
    }
  }

  lemma {:induction false} HeldConcat(a: seq<Entry>, b: seq<Entry>)
    ensures Held(a + b) == Held(a) + Held(b)
    decreases |a|
  {
    if a == [] {
      assert a + b == b;
    } else {
      HeldConcat(a[1..], b);
      Front(a, b);
    }
  }

  lemma {:induction false} MessagesConcat(a: seq<Entry>, b: seq<Entry>)
    ensures Messages(a + b) == Messages(a) + Messages(b)
    decreases |a|
  {
    if a == [] {
      assert a + b == b;
    } else {
      MessagesConcat(a[1..], b);
      Front(a, b);
    }
  }

  lemma Front(a: seq<Entry>, b: seq<Entry>)
    requires a != []
    ensures (a + b)[0] == a[0] && (a + b)[1..] == a[1..] + b
  {
  }

  lemma LiveOne(e: Entry)
    ensures Live([e]) == if e.held then [] else [e.msg]
    ensures Held([e]) == if e.held then [e.msg] else []
    ensures Messages([e]) == [e.msg]
  {
    assert [e][1..] == [];
  }

  lemma {:induction false} DropLiveFacts(q: seq<Entry>, n: nat)
    requires n <= |Live(q)|
    ensures Live(DropLive(q, n)) == Live(q)[n..]
    ensures Held(DropLive(q, n)) == Held(q)
    decreases |q|
  {
    if q != [] && n > 0 {
      if q[0].held {
        DropLiveFacts(q[1..], n);
        var rest := DropLive(q[1..], n);
        assert ([q[0]] + rest)[1..] == rest;
      } else {
        DropLiveFacts(q[1..], n - 1);
      }
    }
  }

  lemma AddFacts(s: Store, m: Message)
    ensures var s' := Add(s, m);
            && Live(s'.queue) == Live(s.queue) + (if m.kind in s.types then [m] else [])
            && Held(s'.queue) == Held(s.queue) + (if m.kind in s.types then [] else [m])
            && Messages(s'.queue) == Messages(s.queue) + [m]
  {
    LiveConcat(s.queue, [Entry(m, !s.Accepts(m))]);
    HeldConcat(s.queue, [Entry(m, !s.Accepts(m))]);
    MessagesConcat(s.queue, [Entry(m, !s.Accepts(m))]);
    LiveOne(Entry(m, !s.Accepts(m)));
  }

  // ---------------------------------------------------------------------------------
  // The walk over pending messages
  // ---------------------------------------------------------------------------------

  /** The messages a walk returns, and the queue with the flags it sets. */
  datatype Walked = Walked(messages: seq<Message>, queue: seq<Entry>)

  /** `get_pending_messages` from a point where `skip` live messages are still to be passed
      over and `max` may still be collected. */
  function Walk(s: Store, q: seq<Entry>, skip: nat, max: Option<nat>): Walked
    decreases |q|
  {
    if q == [] then Walked([], [])
    else if q[0].held then
      var w := Walk(s, q[1..], skip, max);
      Walked(w.messages, [q[0]] + w.queue)
    else if skip > 0 then
      var w := Walk(s, q[1..], skip - 1, max);
      Walked(w.messages, [q[0]] + w.queue)
    else if max == Some(0) then Walked([], q)
    else if !s.Sendable(q[0].msg) then
      var w := Walk(s, q[1..], skip, max);
      Walked(w.messages, [Entry(q[0].msg, true)] + w.queue)
    else
      var w := Walk(s, q[1..], skip, if max.Some? then Some(max.value - 1) else None);
      Walked([q[0].msg] + w.messages, [q[0]] + w.queue)
  }

  /** A walk over one live message. */
  lemma WalkSingle(s: Store, e: Entry, skip: nat, max: Option<nat>)
    requires !e.held
    ensures Walk(s, [e], skip, max)
         == if skip > 0 || max == Some(0) then Walked([], [e])
            else if !s.Sendable(e.msg) then Walked([], [Entry(e.msg, true)])
            else Walked([e.msg], [e])
  {
    assert [e][1..] == [];
    assert Walk(s, [e][1..], 0, max) == Walked([], []);
    assert [e] + [] == [e] && [Entry(e.msg, true)] + [] == [Entry(e.msg, true)] && [e.msg] + [] == [e.msg];
  }

  function PendingMessages(s: Store, max: Option<nat>): (Store, seq<Message>) {
    var w := Walk(s, s.queue, s.offset, max);
    (s.(queue := w.queue), w.messages)
  }

  ghost predicate AllSendable(s: Store, ms: seq<Message>) {
    forall i :: 0 <= i < |ms| ==> s.Sendable(ms[i])
  }

  /** The position just after the first `n` live messages. */
  ghost function Cut(q: seq<Entry>, n: nat): (k: nat)
    ensures k <= |q|
    decreases |q|
  {
    if q == [] || n == 0 then 0 else 1 + Cut(q[1..], if q[0].held then n else n - 1)
  }

  lemma {:induction false} LiveAtCut(q: seq<Entry>, n: nat)
    requires n <= |Live(q)|
    ensures var k := Cut(q, n); Live(q[..k]) == Live(q)[..n] && Live(q[k..]) == Live(q)[n..]
    decreases |q|
  {
    if q != [] && n > 0 {
      var n' := if q[0].held then n else n - 1;
      LiveAtCut(q[1..], n');
      var k := Cut(q[1..], n');
      assert q[..k + 1][1..] == q[1..][..k] && q[k + 1..] == q[1..][k..];
    }
  }

  /** The messages before the pending offset are passed over. */
  lemma {:induction false} WalkSkips(s: Store, q: seq<Entry>, skip: nat, max: Option<nat>)
    requires skip <= |Live(q)|
    ensures var k := Cut(q, skip);
            var v := Walk(s, q[k..], 0, max);
            Walk(s, q, skip, max) == Walked(v.messages, q[..k] + v.queue)
    decreases |q|
  {
    if q == [] || skip == 0 {
      assert q[0..] == q && [] + Walk(s, q, 0, max).queue == Walk(s, q, 0, max).queue;
    } else {
      var n' := if q[0].held then skip else skip - 1;
      WalkSkips(s, q[1..], n', max);
      var k := Cut(q[1..], n');
      TakeCons(q, k, Walk(s, q[1..][k..], 0, max).queue);
    }
  }

  lemma TakeCons(q: seq<Entry>, k: nat, more: seq<Entry>)
    requires q != [] && k < |q|
    ensures q[k + 1..] == q[1..][k..]
    ensures [q[0]] + (q[1..][..k] + more) == q[..k + 1] + more
  {
    assert q[..k + 1] == [q[0]] + q[1..][..k];
  }

  /** The live messages after those the walk has returned. */
  ghost function WalkRest(s: Store, q: seq<Entry>, max: Option<nat>): seq<Message>
    decreases |q|
  {
    if q == [] then []
    else if q[0].held then WalkRest(s, q[1..], max)
    else if max == Some(0) then Live(q)
    else if !s.Sendable(q[0].msg) then WalkRest(s, q[1..], max)
    else WalkRest(s, q[1..], if max.Some? then Some(max.value - 1) else None)
  }

  lemma {:induction false} WalkLive(s: Store, q: seq<Entry>, max: Option<nat>)
    ensures var w := Walk(s, q, 0, max);
            && Live(w.queue) == w.messages + WalkRest(s, q, max)
            && AllSendable(s, w.messages)
            && (max.Some? ==> |w.messages| <= max.value)
            && (max.None? || |w.messages| < max.value ==> WalkRest(s, q, max) == [])
    decreases |q|
  {
    if q != [] {
      var w, e := Walk(s, q, 0, max), q[0];
      if e.held {
        WalkLive(s, q[1..], max);
        assert w.queue[1..] == Walk(s, q[1..], 0, max).queue;
      } else if max != Some(0) {
        var max' := if max.Some? && s.Sendable(e.msg) then Some(max.value - 1) else max;
        WalkLive(s, q[1..], max');
        assert w.queue[1..] == Walk(s, q[1..], 0, max').queue;
      }
    }
  }

  lemma {:induction false} WalkMovesNothing(s: Store, q: seq<Entry>, skip: nat, max: Option<nat>)
    ensures Messages(Walk(s, q, skip, max).queue) == Messages(q)
    decreases |q|
  {
    if q != [] {
      var e := q[0];
      if e.held {
        WalkMovesNothing(s, q[1..], skip, max);
      } else if skip > 0 {
        WalkMovesNothing(s, q[1..], skip - 1, max);
      } else if max != Some(0) {
        WalkMovesNothing(s, q[1..], 0, if max.Some? && s.Sendable(e.msg) then Some(max.value - 1) else max);
      }
    }
  }

  /** One queue is another one with some messages that cannot be sent held besides. */
  ghost predicate HoldsMore(s: Store, before: seq<Entry>, after: seq<Entry>) {
    && |before| == |after|
    && forall i :: 0 <= i < |before| ==>
         after[i] == before[i] || (after[i] == Entry(before[i].msg, true) && !s.Sendable(before[i].msg))
  }

  lemma {:induction false} WalkHolds(s: Store, q: seq<Entry>, skip: nat, max: Option<nat>)
    ensures HoldsMore(s, q, Walk(s, q, skip, max).queue)
    decreases |q|
  {
    if q != [] {
      var e := q[0];
      if e.held {
        WalkHolds(s, q[1..], skip, max);
      } else if skip > 0 {
        WalkHolds(s, q[1..], skip - 1, max);
      } else if max != Some(0) {
        WalkHolds(s, q[1..], 0, if max.Some? && s.Sendable(e.msg) then Some(max.value - 1) else max);
      }
    }
  }

  /** Sendable messages at the front of the pending ones are returned, as far as the limit goes. */
  lemma {:induction false} WalkReturns(s: Store, q: seq<Entry>, max: Option<nat>, u: nat)
    requires u <= |Live(q)| && (max.Some? ==> u <= max.value)
    requires AllSendable(s, Live(q)[..u])
    ensures var w := Walk(s, q, 0, max); |w.messages| >= u && w.messages[..u] == Live(q)[..u]
    decreases |q|
  {
    if u > 0 {
      var e := q[0];
      if e.held {
        WalkReturns(s, q[1..], max, u);
      } else {
        assert Live(q)[..u][0] == e.msg;
        assert Live(q)[..u][1..] == Live(q[1..])[..u - 1];
        WalkReturns(s, q[1..], if max.Some? then Some(max.value - 1) else None, u - 1);
      }
    }
  }

  /** What `get_pending_messages` returns and leaves: nothing moves, nothing is released, and only
      what cannot be sent is held; nothing before the pending offset changes; the messages
      returned are sendable, at most `max`, and the first pending ones afterwards; and they are
      all the pending ones unless the limit was reached. */
  lemma PendingFacts(s: Store, max: Option<nat>)
    requires Valid(s)
    ensures var (s', ms) := PendingMessages(s, max);
            && s' == s.(queue := s'.queue) && Messages(s'.queue) == Messages(s.queue)
            && HoldsMore(s, s.queue, s'.queue)
            && Valid(s') && Live(s'.queue)[..s.offset] == Live(s.queue)[..s.offset]
            && ms <= Pending(s') && AllSendable(s, ms)
            && (max.Some? ==> |ms| <= max.value)
            && (max.None? || |ms| < max.value ==> Pending(s') == ms)
  {
    var q, k := s.queue, Cut(s.queue, s.offset);
    var v := Walk(s, q[k..], 0, max);
    WalkSkips(s, q, s.offset, max);
    WalkMovesNothing(s, q, s.offset, max);
    WalkHolds(s, q, s.offset, max);
    LiveAtCut(q, s.offset);
    WalkLive(s, q[k..], max);
    LiveConcat(q[..k], v.queue);
    assert Live(q[..k] + v.queue)[s.offset..] == Live(v.queue);
  }

  /** The messages of a kind in `types` and of an API version up to `api`. */
  function Deliverable(types: set<string>, api: int, ms: seq<Message>): seq<Message> {
    if ms == [] then []
    else if ms[0].kind in types && ms[0].api <= api then [ms[0]] + Deliverable(types, api, ms[1..])
    else Deliverable(types, api, ms[1..])
  }

  lemma {:induction false} WalkDelivers(s: Store, q: seq<Entry>, max: Option<nat>)
    ensures var ms, d := Walk(s, q, 0, max).messages, Deliverable(s.types, s.api, Live(q));
            ms == if max.Some? && max.value <= |d| then d[..max.value] else d
    decreases |q|
  {
    if q != [] {
      var e := q[0];
      if e.held {
        WalkDelivers(s, q[1..], max);
      } else if max != Some(0) {
        assert Live(q)[1..] == Live(q[1..]);
        WalkDelivers(s, q[1..], if max.Some? && s.Sendable(e.msg) then Some(max.value - 1) else max);
      }
    }
  }

  /** What the walk means for kinds and versions. It returns the pending messages of an accepted
      kind and of a version up to the server's, older ones included, in order and up to the limit.
      Such a message it never holds; and where the limit was not reached, it has held all others. */
  lemma PendingMeaning(s: Store, max: Option<nat>)
    requires Valid(s)
    ensures var (s', ms) := PendingMessages(s, max);
            var d := Deliverable(s.types, s.api, Pending(s));
            && Valid(s') && |s'.queue| == |s.queue|
            && ms == (if max.Some? && max.value <= |d| then d[..max.value] else d)
            && (forall i :: 0 <= i < |s.queue| && s'.queue[i].held && !s.queue[i].held ==>
                  s.queue[i].msg.kind !in s.types || s.queue[i].msg.api > s.api)
            && (max.None? || |ms| < max.value ==>
                  forall i :: 0 <= i < |Pending(s')| ==> Pending(s')[i].kind in s.types && Pending(s')[i].api <= s.api)
  {
    var q, k := s.queue, Cut(s.queue, s.offset);
    var (s', ms) := PendingMessages(s, max);
    PendingFacts(s, max);
    WalkSkips(s, q, s.offset, max);
    LiveAtCut(q, s.offset);
    WalkDelivers(s, q[k..], max);
    hide Live, Walk, Deliverable;
    forall i | 0 <= i < |q| && s'.queue[i].held && !q[i].held
      ensures q[i].msg.kind !in s.types || q[i].msg.api > s.api
    {
      assert s'.queue[i] != q[i];
    }
  }

  /** Messages already sent stay put: if the first `u` pending messages are sendable and fit
      the limit, a walk returns them first. */
  lemma PendingKeeps(s: Store, max: Option<nat>, u: nat)
    requires Valid(s) && u <= |Pending(s)| && (max.Some? ==> u <= max.value)
    requires AllSendable(s, Pending(s)[..u])
    ensures var (_, ms) := PendingMessages(s, max); |ms| >= u && ms[..u] == Pending(s)[..u]
  {
    var q, k := s.queue, Cut(s.queue, s.offset);
    WalkSkips(s, q, s.offset, max);
    LiveAtCut(q, s.offset);
    WalkReturns(s, q[k..], max, u);
  }

  /** Every message is live or held. */
  lemma {:induction false} SplitMessages(q: seq<Entry>)
    ensures multiset(Messages(q)) == multiset(Live(q)) + multiset(Held(q))
    decreases |q|
  {
    if q != [] {
      SplitMessages(q[1..]);
    }
  }

  // ---------------------------------------------------------------------------------
  // Accepted types
  // ---------------------------------------------------------------------------------

  /** The files `_reprocess_holding` leaves in place: after the first `skip` live messages the
      ones of unaccepted type are held, and accepted held ones have moved away. */
  function Kept(s: Store, q: seq<Entry>, skip: nat): seq<Entry> {
    if q == [] then []
    else if q[0].held then
      if s.Accepts(q[0].msg) then Kept(s, q[1..], skip) else [q[0]] + Kept(s, q[1..], skip)
    else if skip > 0 then [q[0]] + Kept(s, q[1..], skip - 1)
    else [Entry(q[0].msg, !s.Accepts(q[0].msg))] + Kept(s, q[1..], 0)
  }

  /** The files it moves to the end of the queue. */
  function Released(s: Store, q: seq<Entry>): seq<Entry> {
    if q == [] then []
    else if q[0].held && s.Accepts(q[0].msg) then [Entry(q[0].msg, false)] + Released(s, q[1..])
    else Released(s, q[1..])
  }

  /** `set_accepted_types`. */
  function SetAcceptedTypes(s: Store, types: set<string>): Store {
    var s' := s.(types := types);
    s'.(queue := Kept(s', s.queue, s.offset) + Released(s', s.queue))
  }

  function Accepted(s: Store, ms: seq<Message>): seq<Message> {
    if ms == [] then []
    else if ms[0].kind in s.types then [ms[0]] + Accepted(s, ms[1..]) else Accepted(s, ms[1..])
  }

  lemma {:induction false} AcceptedOnly(s: Store, ms: seq<Message>)
    ensures forall i :: 0 <= i < |Accepted(s, ms)| ==> Accepted(s, ms)[i].kind in s.types
  {
    if ms != [] {
      AcceptedOnly(s, ms[1..]);
    }
  }

  lemma {:induction false} KeptFacts(s: Store, q: seq<Entry>, skip: nat)
    requires skip <= |Live(q)|
    ensures Live(Kept(s, q, skip)) == Live(q)[..skip] + Accepted(s, Live(q)[skip..])
    ensures forall i :: 0 <= i < |Held(Kept(s, q, skip))| ==> !s.Accepts(Held(Kept(s, q, skip))[i])
    decreases |q|
  {
    if q != [] {
      var e, k := q[0], Kept(s, q, skip);
      if e.held {
        KeptFacts(s, q[1..], skip);
        assert !s.Accepts(e.msg) ==> k[1..] == Kept(s, q[1..], skip);
      } else if skip > 0 {
        KeptFacts(s, q[1..], skip - 1);
        assert k[1..] == Kept(s, q[1..], skip - 1);
        assert Live(q)[..skip] == [e.msg] + Live(q[1..])[..skip - 1];
        assert Live(q)[skip..] == Live(q[1..])[skip - 1..];
      } else {
        KeptFacts(s, q[1..], 0);
        assert k[1..] == Kept(s, q[1..], 0);
        assert Live(q)[0..][1..] == Live(q[1..])[0..];
      }
    }
  }

  /** The messages that are not released. */
  function Staying(s: Store, q: seq<Entry>): seq<Message> {
    if q == [] then []
    else if q[0].held && q[0].msg.kind in s.types then Staying(s, q[1..])
    else [q[0].msg] + Staying(s, q[1..])
  }

  /** What is kept and what is released each stay in order. */
  lemma {:induction false} OrderKept(s: Store, q: seq<Entry>, skip: nat)
    ensures Messages(Kept(s, q, skip)) == Staying(s, q)
    ensures Messages(Released(s, q)) == Accepted(s, Held(q))
    decreases |q|
  {
    if q != [] {
      var skip' := if !q[0].held && skip > 0 then skip - 1 else skip;
      OrderKept(s, q[1..], skip');
      MessagesCons(q[0], Kept(s, q[1..], skip'));
      MessagesCons(Entry(q[0].msg, !s.Accepts(q[0].msg)), Kept(s, q[1..], skip'));
      MessagesCons(Entry(q[0].msg, false), Released(s, q[1..]));
    }
  }

  lemma {:induction false} ReleasedFacts(s: Store, q: seq<Entry>)
    ensures Live(Released(s, q)) == Accepted(s, Held(q)) && Held(Released(s, q)) == []
    decreases |q|
  {
    if q != [] {
      ReleasedFacts(s, q[1..]);
      if q[0].held && s.Accepts(q[0].msg) {
        assert Released(s, q)[1..] == Released(s, q[1..]);
      }
    }
  }

  lemma {:induction false} ReprocessKeepsAll(s: Store, q: seq<Entry>, skip: nat)
    ensures multiset(Messages(Kept(s, q, skip))) + multiset(Messages(Released(s, q))) == multiset(Messages(q))
    decreases |q|
  {
    if q != [] {
      var skip' := if !q[0].held && skip > 0 then skip - 1 else skip;
      ReprocessKeepsAll(s, q[1..], skip');
      KeptFirst(s, q, skip, skip');
      ReleasedFirst(s, q);
    }
  }

  lemma KeptFirst(s: Store, q: seq<Entry>, skip: nat, skip': nat)
    requires q != [] && skip' == if !q[0].held && skip > 0 then skip - 1 else skip
    ensures multiset(Messages(Kept(s, q, skip)))
         == (if q[0].held && s.Accepts(q[0].msg) then multiset{} else multiset{q[0].msg})
            + multiset(Messages(Kept(s, q[1..], skip')))
  {
    MessagesCons(q[0], Kept(s, q[1..], skip'));
    MessagesCons(Entry(q[0].msg, !s.Accepts(q[0].msg)), Kept(s, q[1..], skip'));
  }

  lemma ReleasedFirst(s: Store, q: seq<Entry>)
    requires q != []
    ensures multiset(Messages(Released(s, q)))
         == (if q[0].held && s.Accepts(q[0].msg) then multiset{q[0].msg} else multiset{})
            + multiset(Messages(Released(s, q[1..])))
  {
    MessagesCons(Entry(q[0].msg, false), Released(s, q[1..]));
  }

  lemma MessagesCons(e: Entry, q: seq<Entry>)
    ensures Messages([e] + q) == [e.msg] + Messages(q)
  {
    assert ([e] + q)[1..] == q;
  }

  /** Changing the accepted types loses and duplicates no message. The messages already sent
      are untouched; after them come the unsent ones that are accepted, in their order, then the
      released ones in theirs; what is held afterwards is exactly what is not accepted; and in the
      whole queue only the released ones have moved, to the end. */
  lemma SetAcceptedTypesFacts(s: Store, types: set<string>)
    requires Valid(s)
    ensures var s' := SetAcceptedTypes(s, types);
            && Valid(s') && s' == s.(types := types, queue := s'.queue)
            && Live(s'.queue) == Live(s.queue)[..s.offset] + Accepted(s', Pending(s)) + Accepted(s', Held(s.queue))
            && (forall i :: s.offset <= i < |Live(s'.queue)| ==> Live(s'.queue)[i].kind in types)
            && (forall i :: 0 <= i < |Held(s'.queue)| ==> Held(s'.queue)[i].kind !in types)
            && Messages(s'.queue) == Staying(s', s.queue) + Accepted(s', Held(s.queue))
            && multiset(Messages(s'.queue)) == multiset(Messages(s.queue))
  {
    var t := s.(types := types);
    var kept, released := Kept(t, s.queue, s.offset), Released(t, s.queue);
    KeptFacts(t, s.queue, s.offset);
    ReleasedFacts(t, s.queue);
    LiveConcat(kept, released);
    HeldConcat(kept, released);
    MessagesConcat(kept, released);
    ReprocessKeepsAll(t, s.queue, s.offset);
    OrderKept(t, s.queue, s.offset);
    StayingSame(t, t.(queue := kept + released), s.queue);
    var s' := SetAcceptedTypes(s, types);
    AcceptedSame(t, s', Pending(s));
    AcceptedSame(t, s', Held(s.queue));
    AcceptedOnly(s', Pending(s));
    AcceptedOnly(s', Held(s.queue));
  }

  lemma {:induction false} StayingSame(s: Store, t: Store, q: seq<Entry>)
    requires s.types == t.types
    ensures Staying(s, q) == Staying(t, q)
  {
    if q != [] {
      StayingSame(s, t, q[1..]);
    }
  }

  lemma {:induction false} AcceptedSame(s: Store, t: Store, ms: seq<Message>)
    requires s.types == t.types
    ensures Accepted(s, ms) == Accepted(t, ms)
  {
    if ms != [] {
      AcceptedSame(s, t, ms[1..]);
    }
  }

  // ---------------------------------------------------------------------------------
  // The peer's next expected number
  // ---------------------------------------------------------------------------------

  /** `got_next_expected`: the new state, and whether RESYNC is returned. */
  function GotNextExpected(s: Store, next: int): (Store, bool) {
    if next - s.sequence > PendingCount(s) then
      (s.(queue := DropLive(s.queue, s.offset), offset := 0, sequence := next), true)
    else if next > s.sequence then
      (s.(queue := DropLive(s.queue, s.offset), offset := next - s.sequence, sequence := next), false)
    else if next < s.sequence - s.offset then
      (s.(offset := 0, sequence := next), true)
    else
      (s.(offset := s.offset + next - s.sequence, sequence := next), false)
  }

  /** How many messages `got_next_expected` deletes. */
  function Deleted(s: Store, next: int): nat {
    if next > s.sequence then s.offset else 0
  }

  /** RESYNC exactly when the peer is ahead of everything queued or behind everything kept.
      Only messages that had been sent before are deleted, oldest first, and held ones never.
      Without RESYNC every surviving message keeps its number. */
  lemma GotNextExpectedFacts(s: Store, next: int)
    requires Valid(s)
    ensures var (s', resync) := GotNextExpected(s, next);
            && Valid(s') && s'.sequence == next && s'.types == s.types && s'.api == s.api
            && (resync <==> next < s.Base() || next > s.Base() + |Live(s.queue)|)
            && Live(s'.queue) == Live(s.queue)[Deleted(s, next)..]
            && Held(s'.queue) == Held(s.queue)
            && (!resync ==> s'.Base() == s.Base() + Deleted(s, next))
            && (resync ==> s'.Base() == next)
  {
    DropLiveFacts(s.queue, s.offset);
  }

  /** The number the next exchange would give a live message. */
  function Number(s: Store, i: nat): int {
    s.Base() + i
  }

  lemma NumbersUnchanged(s: Store, next: int, i: nat)
    requires Valid(s) && Deleted(s, next) <= i < |Live(s.queue)|
    requires !GotNextExpected(s, next).1
    ensures var s', j := GotNextExpected(s, next).0, i - Deleted(s, next);
            j < |Live(s'.queue)| && Live(s'.queue)[j] == Live(s.queue)[i] && Number(s', j) == Number(s, i)
  {
    GotNextExpectedFacts(s, next);
  }

  /** The loop of `is_pending` after `i` live messages. */
  predicate IsPendingFrom(q: seq<Entry>, i: nat, offset: nat, id: nat)
    decreases |q|
  {
    q != [] &&
    (((q[0].held || i >= offset) && q[0].msg.id == id)
     || IsPendingFrom(q[1..], if q[0].held then i else i + 1, offset, id))
  }

  predicate IsPending(s: Store, id: nat) {
    IsPendingFrom(s.queue, 0, s.offset, id)
  }

  predicate HasId(ms: seq<Message>, id: nat) {
    exists i :: 0 <= i < |ms| && ms[i].id == id
  }

  lemma HasIdCons(m: Message, ms: seq<Message>, id: nat)
    ensures HasId([m] + ms, id) <==> m.id == id || HasId(ms, id)
  {
    var l := [m] + ms;
    assert l[0] == m;
    if HasId(ms, id) {
      var i :| 0 <= i < |ms| && ms[i].id == id;
      assert l[i + 1].id == id;
    }
    if HasId(l, id) && m.id != id {
      var i :| 0 <= i < |l| && l[i].id == id;
      assert ms[i - 1].id == id;
    }
  }

  lemma {:induction false} IsPendingFromFacts(q: seq<Entry>, i: nat, offset: nat, id: nat)
    ensures var skip := if i >= offset then 0 else if offset - i <= |Live(q)| then offset - i else |Live(q)|;
            IsPendingFrom(q, i, offset, id) <==> HasId(Held(q), id) || HasId(Live(q)[skip..], id)
    decreases |q|
  {
    if q != [] {
      var e, rest := q[0], q[1..];
      IsPendingFromFacts(rest, if e.held then i else i + 1, offset, id);
      if e.held {
        HasIdCons(e.msg, Held(rest), id);
      } else {
        TailFrom(e.msg, Live(rest), if i >= offset then 0 else offset - i, id);
      }
    }
  }

  lemma TailFrom(m: Message, ms: seq<Message>, n: nat, id: nat)
    ensures var l := [m] + ms;
            && (n == 0 ==> (HasId(l[0..], id) <==> m.id == id || HasId(ms[0..], id)))
            && (0 < n <= |l| ==> l[n..] == ms[n - 1..])
            && l[|l|..] == ms[|ms|..]
  {
    var l := [m] + ms;
    HasIdCons(m, ms, id);
    assert l[0..] == l && ms[0..] == ms;
  }

  /** `is_pending(id)`: some message with that id is held, or has a number not below the
      sequence. */
  lemma IsPendingFacts(s: Store, id: nat)
    requires Valid(s)
    ensures IsPending(s, id) <==>
              HasId(Held(s.queue), id)
              || exists i :: 0 <= i < |Live(s.queue)| && Live(s.queue)[i].id == id && Number(s, i) >= s.sequence
  {
    IsPendingFromFacts(s.queue, 0, s.offset, id);
    var live := Live(s.queue);
    assert HasId(live[s.offset..], id) <==>
           exists i :: 0 <= i < |live| && live[i].id == id && Number(s, i) >= s.sequence by {
      if HasId(live[s.offset..], id) {
        var i :| 0 <= i < |live[s.offset..]| && live[s.offset..][i].id == id;
        assert live[s.offset + i].id == id && Number(s, s.offset + i) >= s.sequence;
      }
      if j :| 0 <= j < |live| && live[j].id == id && Number(s, j) >= s.sequence {
        assert live[s.offset..][j - s.offset].id == id;
      }
    }
  }

  // ---------------------------------------------------------------------------------
  // Trimming
  // ---------------------------------------------------------------------------------

  /** The messages a walk counts as pending: those past the offset, none when it points past
      the end. */
  function Counted(s: Store): seq<Message> {
    if s.offset <= |Live(s.queue)| then Live(s.queue)[s.offset..] else []
  }

  /** What an `add` does that trims the first `k` files, with the pending offset as it is. The
      offset still counts the sent messages that are left exactly when no live message was
      trimmed or nothing had been sent. Otherwise messages are taken for sent ones: the unsent
      ones that survive, with the new one, are still the pending ones only if there are none.
      An accepted new message alone is enough for damage. */
  lemma TrimSkips(s: Store, k: nat, m: Message)
    requires Valid(s) && k <= |s.queue|
    ensures |Live(s.queue[..k])| <= |Live(s.queue)|
    ensures var d, live, s' := |Live(s.queue[..k])|, Live(s.queue), AddAs(s, Queued(k, false), m);
            var unsent := live[if d > s.offset then d else s.offset..] + if s.Accepts(m) then [m] else [];
            && Live(s'.queue) == live[d..] + (if s.Accepts(m) then [m] else [])
            && (s'.offset == (if d > s.offset then 0 else s.offset - d) <==> d == 0 || s.offset == 0)
            && (Counted(s') == unsent <==> d == 0 || s.offset == 0 || unsent == [])
            && (s.Accepts(m) ==> (Counted(s') == unsent <==> d == 0 || s.offset == 0))
  {
    LiveConcat(s.queue[..k], s.queue[k..]);
    assert s.queue == s.queue[..k] + s.queue[k..];
    AddFacts(s.(queue := s.queue[k..]), m);
    var s', d, live := AddAs(s, Queued(k, false), m), |Live(s.queue[..k])|, Live(s.queue);
    var unsent := live[if d > s.offset then d else s.offset..] + if s.Accepts(m) then [m] else [];
    hide Live, AddAs;
    if d == 0 || s.offset == 0 {
      assert Counted(s') == unsent;
    }
  }

  /** A store where that loses a message. The first of two messages has been sent and is
      trimmed; the second one, unsent, counts as sent. A third one is added; the next payload is
      that third message, and when the server acknowledges it the second one is deleted. */
  lemma TrimLoses(max: nat, sent: Message, unsent: Message, third: Message)
    requires max > 0 && sent.kind == unsent.kind == third.kind == "a" && third.api == 0
    ensures var s := Store([Entry(sent, false), Entry(unsent, false)], 1, 1, {"a"}, 0);
            var trimmed := s.(queue := s.queue[1..]);
            var added := Add(trimmed, third);
            && Valid(s) && Pending(s) == [unsent]
            && Counted(trimmed) == []
            && PendingMessages(added, Some(max)) == (added, [third])
            && GotNextExpected(added, 2) == (Store([Entry(third, false)], 2, 1, {"a"}, 0), false)
  {
    var s := Store([Entry(sent, false), Entry(unsent, false)], 1, 1, {"a"}, 0);
    var a, b, c := Entry(sent, false), Entry(unsent, false), Entry(third, false);
    var added := Store([b, c], 1, 1, {"a"}, 0);
    LiveTwo(sent, unsent);
    LiveTwo(unsent, third);
    assert s.queue[1..] == [b];
    LiveOne(b);
    assert [b, c][1..] == [c];
    assert Add(s.(queue := [b]), third) == added;
    WalkSingle(added, c, 0, Some(max));
    assert Walk(added, [b, c], 1, Some(max)) == Walked([third], [b] + [c]);
    assert PendingMessages(added, Some(max)).0 == added;
    assert DropLive([b, c], 1) == DropLive([c], 0);
  }

  lemma LiveTwo(m: Message, n: Message)
    ensures Live([Entry(m, false), Entry(n, false)]) == [m, n]
  {
    assert [Entry(m, false), Entry(n, false)][1..] == [Entry(n, false)];
    LiveOne(Entry(n, false));
  }

  // ---------------------------------------------------------------------------------
  // Payloads
  // ---------------------------------------------------------------------------------

  /** The longest prefix of messages with API version `api`. */
  function SameApi(ms: seq<Message>, api: int): seq<Message> {
    if ms != [] && ms[0].api == api then [ms[0]] + SameApi(ms[1..], api) else []
  }

  /** The messages a payload is cut down to. */
  function Batch(ms: seq<Message>): seq<Message> {
    if ms == [] then [] else SameApi(ms, ms[0].api)
  }

  lemma {:induction false} SameApiFacts(ms: seq<Message>, api: int)
    ensures SameApi(ms, api) <= ms
    ensures forall i :: 0 <= i < |SameApi(ms, api)| ==> SameApi(ms, api)[i].api == api
    ensures |SameApi(ms, api)| < |ms| ==> ms[|SameApi(ms, api)|].api != api
  {
    if ms != [] && ms[0].api == api {
      SameApiFacts(ms[1..], api);
    }
  }

  lemma BatchFacts(ms: seq<Message>)
    ensures Batch(ms) <= ms && (ms != [] ==> Batch(ms) != [])
    ensures forall i :: 0 <= i < |Batch(ms)| ==> Batch(ms)[i].api == ms[0].api
    ensures |Batch(ms)| < |ms| ==> ms[|Batch(ms)|].api != ms[0].api
  {
    if ms != [] {
      SameApiFacts(ms, ms[0].api);
    }
  }

  ghost predicate OneApi(ms: seq<Message>) {
    forall i :: 0 <= i < |ms| ==> ms[i].api == ms[0].api
  }

  /** A prefix with one API version is part of the batch. */
  lemma BatchContains(ms: seq<Message>, u: nat)
    requires u <= |ms| && OneApi(ms[..u])
    ensures u <= |Batch(ms)|
  {
    BatchFacts(ms);
    forall i | 0 <= i < u ensures ms[i].api == ms[0].api {
      assert ms[..u][i].api == ms[..u][0].api;
    }
  }

  // ---------------------------------------------------------------------------------
  // Messages without repetition
  // ---------------------------------------------------------------------------------

  ghost predicate Distinct(ms: seq<Message>) {
    forall i, j :: 0 <= i < j < |ms| ==> ms[i] != ms[j]
  }

  lemma TwiceCounts(ms: seq<Message>, i: nat, j: nat)
    requires i < j < |ms| && ms[i] == ms[j]
    ensures multiset(ms)[ms[i]] >= 2
  {
    assert ms == ms[..j] + [ms[j]] + ms[j + 1..];
    assert ms[..j][i] == ms[i];
    assert multiset(ms) == multiset(ms[..j]) + multiset{ms[j]} + multiset(ms[j + 1..]);
    assert ms[i] in multiset(ms[..j]);
  }

  lemma DistinctWhen(ms: seq<Message>)
    requires forall m :: multiset(ms)[m] <= 1
    ensures Distinct(ms)
  {
    forall i, j | 0 <= i < j < |ms| ensures ms[i] != ms[j] {
      if ms[i] == ms[j] {
        TwiceCounts(ms, i, j);
      }
    }
  }
}

/** When trimming or clearing the queue does no damage to delivery, in the system in `Delivery`
    (landscape/client/broker/store.py:315-362). */
module DeliveryTrims {
  import opened Common
  import opened StoreModel
  import opened Delivery
  import opened DeliveryRuns

  /** No two live messages are the same. */
  lemma LiveDistinct(s: System)
    requires Ledger(s)
    ensures Distinct(Live(s.client.queue))
  {
    hide Live, Held, Messages, Distinct;
    SplitMessages(s.client.queue);
    var live := multiset(Live(s.client.queue));
    forall m ensures live[m] <= 1 {
      assert live[m] <= multiset(Messages(s.client.queue))[m] <= s.added[m];
    }
    DistinctWhen(Live(s.client.queue));
  }

  /** After trimming, the log is still what the numbers say if and only if no live message was
      trimmed or the server has nothing beyond the client's base number: no live message has
      reached it, not even in an exchange whose response was lost. */
  lemma TrimPrefixExactly(s: System, k: nat)
    requires Ledger(s) && k <= |s.client.queue|
    ensures s.log <= s.acked + Live(Trimmed(s, k).client.queue)
       <==> |Live(s.client.queue[..k])| == 0 || |s.log| <= |s.acked|
  {
    hide Live, Messages;
    var c := s.client;
    var d, live, live' := |Live(c.queue[..k])|, Live(c.queue), Live(c.queue[k..]);
    TrimmedQueue(c.queue, k);
    LiveDistinct(s);
    if d == 0 {
      assert live' == live;
    } else if |s.log| <= |s.acked| {
      PrefixWithin(s.log, s.acked, live, live');
    } else {
      ShiftedLog(s.log, s.acked, live, d);
    }
  }

  lemma ShiftedLog(log: seq<Message>, acked: seq<Message>, live: seq<Message>, d: nat)
    requires Distinct(live) && 0 < d <= |live| && log <= acked + live && |log| > |acked|
    ensures !(log <= acked + live[d..])
  {
    var n, other := |acked|, acked + live[d..];
    assert log[n] == (acked + live)[n] == live[0];
    assert d < |live| ==> other[n] == live[d] != live[0];
  }

  /** A payload is not the front of what is pending after a live message has been trimmed. */
  lemma ShiftedPayload(live: seq<Message>, offset: nat, d: nat, ms: seq<Message>)
    requires Distinct(live) && d > 0 && offset + d <= |live| && ms != []
    requires |ms| <= |live| - offset && ms == live[offset..][..|ms|]
    ensures !(|ms| <= |live[d..]| - offset && ms == live[d..][offset..][..|ms|])
  {
    assert ms[0] == live[offset];
    assert offset + d < |live| ==> live[d..][offset..][0] == live[offset + d] != live[offset];
  }

  /** Trimming keeps the invariant if and only if it is safe: no live message goes, or the server
      has nothing beyond the base number, nothing is on its way to it, and the pending offset
      still points into the queue. */
  lemma TrimSafeExactly(max: nat, s: System, k: nat)
    requires Inv(max, s) && k <= |s.client.queue|
    ensures Inv(max, Trimmed(s, k)) <==> TrimSafe(s, k)
  {
    if TrimSafe(s, k) {
      TrimKeeps(max, s, k);
    } else {
      TrimBreaks(max, s, k);
    }
  }

  lemma TrimBreaks(max: nat, s: System, k: nat)
    requires Inv(max, s) && k <= |s.client.queue| && !TrimSafe(s, k)
    ensures !Inv(max, Trimmed(s, k))
  {
    hide Live, Messages, Repeatable, AllSendable, OneApi;
    var c := s.client;
    var d, live := |Live(c.queue[..k])|, Live(c.queue);
    TrimmedQueue(c.queue, k);
    TrimPrefixExactly(s, k);
    if |s.log| <= |s.acked| && c.offset + d <= |live| {
      LiveDistinct(s);
      ShiftedPayload(live, c.offset, d, s.phase.payload.messages);
    }
  }

  /** Clearing keeps the invariant if and only if it is safe: the server has nothing beyond the
      sequence, and nothing is on its way to it. */
  lemma ClearSafeExactly(max: nat, s: System)
    requires Inv(max, s)
    ensures Inv(max, Cleared(s)) <==> ClearSafe(s)
  {
    if ClearSafe(s) {
      ClearKeeps(max, s);
    } else {
      hide Messages, Live, AllSendable, OneApi;
      ClearedBooks(s);
      NoEntries();
    }
  }

  // ---------------------------------------------------------------------------------
  // Adding to a store at its limits
  // ---------------------------------------------------------------------------------

  /** What an `add` amounts to. */
  function AddSteps(how: Adding, m: Message): seq<Step> {
    match how
    case Rejected => []
    case Queued(dropped, cleared) => [if cleared then Clear else Trim(dropped)] + [AddMessage(m)]
  }

  /** An `add` that does no damage. */
  predicate AddSafe(s: System, how: Adding) {
    match how
    case Rejected => true
    case Queued(dropped, cleared) =>
      if cleared then dropped == |s.client.queue| && ClearSafe(s)
      else dropped <= |s.client.queue| && TrimSafe(s, dropped)
  }

  /** The system after it. */
  function AddedAs(s: System, how: Adding, m: Message): System
    requires Valid(s.client) && AddSafe(s, how)
  {
    match how
    case Rejected => s
    case Queued(dropped, cleared) => Added(if cleared then Cleared(s) else Trimmed(s, dropped), m)
  }

  lemma AddedAsClient(s: System, how: Adding, m: Message)
    requires Valid(s.client) && AddSafe(s, how)
    ensures AddedAs(s, how, m).client == AddAs(s.client, how, m) && AddedAs(s, how, m).phase == s.phase
    ensures AddedAs(s, how, m).added == s.added + if how.Queued? then multiset{m} else multiset{}
    ensures AddedAs(s, how, m).log == s.log && AddedAs(s, how, m).rolledBack == s.rolledBack
    ensures AddedAs(s, how, m).client.api == s.client.api
  {
    hide Live, Held, Messages;
    assert s.client.queue[|s.client.queue|..] == [];
  }

  /** An `add` that trims or clears is steps of the system, as long as that is safe; `more` can go
      on from there. */
  lemma AddIsSteps(max: nat, s: System, how: Adding, m: Message, more: seq<Step>)
    requires Inv(max, s) && m !in s.added && AddSafe(s, how)
    ensures Valid(s.client) && Inv(max, AddedAs(s, how, m))
    ensures CanRun(max, s, AddSteps(how, m) + more) == CanRun(max, AddedAs(s, how, m), more)
    ensures CanRun(max, AddedAs(s, how, m), more) ==>
              Run(max, s, AddSteps(how, m) + more) == Run(max, AddedAs(s, how, m), more)
  {
    hide Inv, CanRun, Run, Live, Held, Messages;
    InvValid(max, s);
    if how.Rejected? {
      assert AddSteps(how, m) + more == more;
    } else {
      var step := if how.cleared then Clear else Trim(how.dropped);
      Regroup([step], [AddMessage(m)], more);
      FirstStep(max, s, step, [AddMessage(m)] + more);
      FirstStep(max, Apply(max, s, step), AddMessage(m), more);
    }
  }

  /** An `add` that rejects or does not trim is safe at any time. */
  predicate Harmless(how: Adding) {
    how == Rejected || how == UNTRIMMED
  }

  lemma HarmlessSafe(s: System, how: Adding)
    requires Harmless(how)
    ensures AddSafe(s, how)
  {
    assert s.client.queue[..0] == [];
  }

  // ---------------------------------------------------------------------------------
  // A message lost by a trim
  // ---------------------------------------------------------------------------------

  /** The server has the first of two messages, but its response was lost, so nothing counts as
      sent. The first one is trimmed. The next payload gives its number to the second one; the
      server discards it as seen, and its answer makes the client take it for acknowledged. */
  lemma TrimForgets(max: nat, a: Message, b: Message)
    requires max > 0 && a != b && a.kind == b.kind == "a" && a.api == b.api == 0
    ensures var s := OneReceived(a, b);
            var t := Trimmed(s, 1);
            && Inv(max, s) && !TrimSafe(s, 1) && Valid(t.client)
            && var sent := Start(max, t);
               && sent.phase == Waiting(Payload(0, [b]), None)
               && Receive(sent.log, sent.phase.payload) == [a]
               && GotNextExpected(sent.client, 1) == (Store([Entry(b, false)], 1, 1, {"a"}, 0), false)
  {
    var s, e, f := OneReceived(a, b), Entry(a, false), Entry(b, false);
    var c := Store([f], 0, 0, {"a"}, 0);
    LiveTwo(a, b);
    LiveOne(e);
    LiveOne(f);
    MessagesTwo(a, b);
    assert s.client.queue[1..] == [f] && s.client.queue[..1] == [e];
    assert Pending(s.client) == [a, b] && Pending(s.client)[..1] == [a];
    WalkSingle(c, f, 0, Some(max));
    assert c.Sendable(b);
    assert PendingMessages(c, Some(max)) == (c, [b]);
    assert SameApi([b], 0) == [b] + SameApi([b][1..], 0);
    assert [b][1..] == [];
  }

  function OneReceived(a: Message, b: Message): System {
    System(Store([Entry(a, false), Entry(b, false)], 0, 0, {"a"}, 0), Idle, [a], [], multiset{a, b}, multiset{},
           multiset{}, false, 0)
  }

  /** The same state cleared instead: the next message added gets the number of the first one and
      is discarded as seen in the same way. */
  lemma ClearForgets(max: nat, a: Message, b: Message, c: Message)
    requires max > 0 && a != b && a.kind == b.kind == c.kind == "a" && a.api == b.api == c.api == 0
    ensures var s := OneReceived(a, b);
            && Inv(max, s) && !ClearSafe(s)
            && var t := Added(Cleared(s), c);
               var sent := Start(max, t);
               && sent.phase == Waiting(Payload(0, [c]), None)
               && Receive(sent.log, sent.phase.payload) == [a]
               && GotNextExpected(sent.client, 1) == (Store([Entry(c, false)], 1, 1, {"a"}, 0), false)
  {
    var f := Entry(c, false);
    var d := Store([f], 0, 0, {"a"}, 0);
    TrimForgets(max, a, b);
    ClearedReceived(a, b, c);
    LiveOne(f);
    WalkSingle(d, f, 0, Some(max));
    assert d.Sendable(c);
    assert PendingMessages(d, Some(max)) == (d, [c]);
    hide PendingMessages, Inv, Added, Cleared;
    assert SameApi([c], 0) == [c] + SameApi([c][1..], 0);
    assert [c][1..] == [];
  }

  lemma ClearedReceived(a: Message, b: Message, c: Message)
    requires c.kind == "a"
    ensures Valid(OneReceived(a, b).client)
    ensures var t := Added(Cleared(OneReceived(a, b)), c);
            t.client == Store([Entry(c, false)], 0, 0, {"a"}, 0) && t.log == [a]
  {
  }

  lemma MessagesTwo(a: Message, b: Message)
    ensures Messages([Entry(a, false), Entry(b, false)]) == [a, b]
  {
    assert [Entry(a, false), Entry(b, false)][1..] == [Entry(b, false)];
    LiveOne(Entry(b, false));
  }

  // ---------------------------------------------------------------------------------
  // What damage costs
  // ---------------------------------------------------------------------------------

  /** The live messages from the receiver's next number on. */
  function Tail(t: System): seq<Message> {
    var next, live := |t.log| - t.client.Base(), Live(t.client.queue);
    if 0 <= next <= |live| then live[next..] else []
  }

  /** Every message is in the log, still to be sent, held, or trimmed. */
  ghost predicate Accounted(t: System) {
    forall m :: m in t.added ==> m in t.log || m in Tail(t) || m in Held(t.client.queue) || m in t.trimmed
  }

  lemma DeliveredAccounts(t: System)
    requires Delivered(t)
    ensures Accounted(t)
  {
    hide Live, Held, Distinct;
    var parts := multiset(t.log) + multiset(Tail(t)) + multiset(Held(t.client.queue)) + t.trimmed;
    assert parts == t.added;
    forall m | m in t.added
      ensures m in t.log || m in Tail(t) || m in Held(t.client.queue) || m in t.trimmed
    {
      assert m in parts;
    }
  }

  /** The request of the exchange under way reaches the server. */
  function Arrived(s: System): System
    requires s.phase.Waiting?
  {
    var log := Receive(s.log, s.phase.payload);
    s.(log := log, phase := s.phase.(reply := Some(|log|)))
  }

  /** The live messages behind those the server has are shifted below its number. */
  lemma ShiftLoses(s: System, k: nat)
    requires Ledger(s) && s.lost == s.trimmed && k <= |s.client.queue|
    requires var d, n := |Live(s.client.queue[..k])|, |s.log| - |s.acked|;
             d > 0 && n > 0 && d < |Live(s.client.queue)| && n < |Live(s.client.queue)|
    ensures !Accounted(Trimmed(s, k))
  {
    hide Live, Held, Messages, Distinct;
    var c, d, n := s.client, |Live(s.client.queue[..k])|, |s.log| - |s.acked|;
    var live, j := Live(c.queue), if d >= n then d else n;
    var m, t := live[j], Trimmed(s, k);
    TrimmedQueue(c.queue, k);
    LiveDistinct(s);
    OnlyLive(s, m);
    Before(s, j);
    SplitMessages(c.queue[..k]);
    HeldParts(c.queue, k);
    Apart(live, d, n, j);
    TrimmedFront(c.queue, k);
    assert Live(c.queue[..k]) == live[..d];
    assert m !in Tail(t);
    assert m !in multiset(Messages(c.queue[..k]));
  }

  lemma TrimmedFront(q: seq<Entry>, k: nat)
    requires k <= |q|
    ensures Live(q[..k]) <= Live(q)
  {
    assert q == q[..k] + q[k..];
    LiveConcat(q[..k], q[k..]);
  }

  lemma HeldParts(q: seq<Entry>, k: nat)
    requires k <= |q|
    ensures forall m :: m in Held(q[..k]) || m in Held(q[k..]) ==> m in Held(q)
  {
    assert q == q[..k] + q[k..];
    HeldConcat(q[..k], q[k..]);
  }

  lemma Apart(live: seq<Message>, d: nat, n: nat, j: nat)
    requires Distinct(live) && 0 < d < |live| && 0 < n < |live| && j == if d >= n then d else n
    ensures live[j] !in live[..d] && (n <= |live| - d ==> live[j] !in live[d..][n..])
  {
    assert forall i :: 0 <= i < d ==> live[..d][i] == live[i] != live[j];
    if n <= |live| - d {
      assert forall i :: 0 <= i < |live| - d - n ==> live[d..][n..][i] == live[d + n + i] != live[j];
    }
  }

  /** A live message is nowhere else. */
  lemma OnlyLive(s: System, m: Message)
    requires Ledger(s) && m in Live(s.client.queue)
    ensures m in s.added && m !in s.acked && m !in Held(s.client.queue) && m !in s.lost
  {
    hide Live, Held, Messages;
    SplitMessages(s.client.queue);
    var live, held := multiset(Live(s.client.queue)), multiset(Held(s.client.queue));
    assert live[m] >= 1;
    assert multiset(s.acked)[m] + live[m] + held[m] + s.lost[m] == s.added[m] <= 1;
  }

  /** A live message the receiver's number is not past is not in its log. */
  lemma Before(s: System, j: nat)
    requires Ledger(s) && |s.log| - |s.acked| <= j < |Live(s.client.queue)|
    ensures Live(s.client.queue)[j] !in s.log
  {
    hide Live, Held, Messages;
    var live := Live(s.client.queue);
    var m := live[j];
    LiveDistinct(s);
    OnlyLive(s, m);
    forall i | 0 <= i < |s.log| ensures s.log[i] != m {
      assert s.log[i] == (s.acked + live)[i];
      assert i < |s.acked| ==> s.acked[i] in s.acked;
    }
  }

  /** The state in which damage shows: what the server has is beyond the client's `number`, if
      need be once the request under way has arrived. */
  function Seen(s: System, number: nat): System
    requires |s.log| <= number ==> s.phase.Waiting?
  {
    if |s.log| > number then s else Arrived(s)
  }

  /** An unsafe trim costs a message: as long as the server has forgotten nothing, once the request
      under way has arrived, if any has to, and any accepted message has been added, some message
      is neither in the log nor still to be sent, nor held, nor was it trimmed. */
  lemma UnsafeTrimLoses(max: nat, s: System, k: nat, m: Message)
    requires Inv(max, s) && !s.rolledBack && k <= |s.client.queue| && !TrimSafe(s, k)
    requires m !in s.added && s.client.Accepts(m)
    ensures |s.log| <= |s.acked| ==> s.phase.Waiting?
    ensures !Accounted(Added(Seen(Trimmed(s, k), |s.acked|), m)) && !Delivered(Added(Seen(Trimmed(s, k), |s.acked|), m))
  {
    hide Live, Held, Messages, Receive, Accounted, Repeatable, Burst, AllSendable, Delivered;
    TrimmedQueue(s.client.queue, k);
    var s1 := Seen(s, |s.acked|);
    SeenKeeps(max, s, |s.acked|);
    var s2 := Added(s1, m);
    AddedKeeps(max, s1, m);
    AddFacts(s1.client, m);
    AddLast(s1.client, m, k);
    assert Trimmed(s2, k) == Added(Seen(Trimmed(s, k), |s.acked|), m);
    ShiftLoses(s2, k);
    if Delivered(Trimmed(s2, k)) {
      DeliveredAccounts(Trimmed(s2, k));
    }
  }

  lemma AddLast(c: Store, m: Message, k: nat)
    requires k <= |c.queue|
    ensures Add(c, m).queue[..k] == c.queue[..k] && Add(c, m).queue[k..] == Add(c.(queue := c.queue[k..]), m).queue
  {
  }

  lemma SeenKeeps(max: nat, s: System, number: nat)
    requires Inv(max, s) && !s.rolledBack && number <= s.client.sequence
    requires |s.log| <= number ==> s.phase.Waiting? && s.phase.payload.messages != []
    ensures Inv(max, Seen(s, number)) && !Seen(s, number).rolledBack && |Seen(s, number).log| > number
  {
    if |s.log| <= number {
      DeliverKeeps(max, s);
    }
  }

  /** An unsafe clearing costs the next message added, in the same way. */
  lemma UnsafeClearLoses(max: nat, s: System, m: Message)
    requires Inv(max, s) && !s.rolledBack && !ClearSafe(s)
    requires m !in s.added && s.client.Accepts(m)
    ensures Valid(s.client) && s.client.sequence >= 0
    ensures |s.log| <= s.client.sequence ==> s.phase.Waiting?
    ensures var t := Added(Seen(Cleared(s), s.client.sequence), m);
            m in t.added && !Accounted(t) && !Delivered(t)
  {
    hide Live, Held, Messages, Receive, Repeatable, Burst, AllSendable, Delivered;
    ClearedBooks(s);
    var s1 := Seen(s, s.client.sequence);
    SeenKeeps(max, s, s.client.sequence);
    var u := Cleared(s1);
    var t := Added(u, m);
    assert t == Added(Seen(Cleared(s), s.client.sequence), m);
    ClearedBooks(s1);
    NoEntries();
    AddFacts(u.client, m);
    Unknown(s1, m);
    assert Tail(t) == [];
    if Delivered(t) {
      DeliveredAccounts(t);
    }
  }

  /** A message never added is nowhere. */
  lemma Unknown(s: System, m: Message)
    requires Ledger(s) && m !in s.added && s.lost == s.trimmed
    ensures m !in s.log && m !in Cleared(s).trimmed
  {
    hide Live, Held, Messages;
    SplitMessages(s.client.queue);
    var live := Live(s.client.queue);
    assert multiset(s.acked)[m] + multiset(Messages(s.client.queue))[m] + s.lost[m] == s.added[m] == 0;
    assert multiset(live)[m] == 0 && multiset(Held(s.client.queue))[m] == 0;
    assert live == live[..s.client.offset] + live[s.client.offset..];
    assert forall i :: 0 <= i < |s.log| ==> s.log[i] == (s.acked + live)[i];
    assert m !in s.acked && m !in live;
  }
}

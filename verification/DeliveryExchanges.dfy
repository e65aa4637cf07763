/** Payloads, completed exchanges, and what comes back after a server has forgotten something, in
    the system in `Delivery`. */
module DeliveryExchanges {
  import opened Common
  import opened StoreModel
  import opened Delivery
  import opened DeliveryRuns

  // ---------------------------------------------------------------------------------
  // One exchange
  // ---------------------------------------------------------------------------------

  /** The message at place `i` of a payload is the live message with number `sequence + i`. */
  ghost predicate NumberedAt(c: Store, p: Payload, i: nat)
    requires i < |p.messages|
  {
    && c.offset + i < |Live(c.queue)|
    && p.messages[i] == Live(c.queue)[c.offset + i]
    && Number(c, c.offset + i) == p.sequence + i
  }

  ghost predicate Numbered(c: Store, p: Payload) {
    forall i {:trigger NumberedAt(c, p, i)} :: 0 <= i < |p.messages| ==> NumberedAt(c, p, i)
  }

  /** The payload holds the live messages numbered `sequence`, `sequence + 1` and so on after
      the walk: at most `max`, of one API version, all sendable, and none only if no pending
      message is sendable. */
  lemma PayloadFacts(max: nat, s: System)
    requires Inv(max, s) && s.phase.Idle?
    ensures var t := Start(max, s);
            var p := t.phase.payload;
            && p.sequence == s.client.sequence == t.client.sequence && Valid(t.client)
            && |p.messages| <= max && OneApi(p.messages)
            && (forall i :: 0 <= i < |p.messages| ==>
                  p.messages[i].kind in s.client.types && p.messages[i].api <= s.client.api)
            && Numbered(t.client, p)
            && Messages(t.client.queue) == Messages(s.client.queue)
            && (max > 0 && p.messages == [] ==> Pending(t.client) == [])
  {
    hide Live, Messages, Batch, PendingMessages;
    StartKeeps(max, s);
    PendingFacts(s.client, Some(max));
    BatchFacts(PendingMessages(s.client, Some(max)).1);
    var t := Start(max, s);
    PrefixNumbers(t.client, t.phase.payload);
    assert AllSendable(t.client, t.phase.payload.messages) && OneApi(t.phase.payload.messages);
  }

  lemma PrefixNumbers(c: Store, p: Payload)
    requires Valid(c) && |p.messages| <= |Pending(c)| && p.messages == Pending(c)[..|p.messages|]
    requires p.sequence == c.sequence
    ensures Numbered(c, p)
  {
    forall i | 0 <= i < |p.messages| ensures NumberedAt(c, p, i) {
      assert p.messages[i] == Pending(c)[i];
    }
  }

  /** The sendable ones among messages: of an accepted kind and a version the server speaks. */
  function SendableOnly(c: Store, ms: seq<Message>): seq<Message> {
    Deliverable(c.types, c.api, ms)
  }

  lemma {:induction false} SendableConcat(c: Store, a: seq<Message>, b: seq<Message>)
    ensures SendableOnly(c, a + b) == SendableOnly(c, a) + SendableOnly(c, b)
    decreases |a|
  {
    if a == [] {
      assert a + b == b;
    } else {
      assert (a + b)[1..] == a[1..] + b;
      SendableConcat(c, a[1..], b);
    }
  }

  lemma {:induction false} SendableAll(c: Store, ms: seq<Message>)
    requires AllSendable(c, ms)
    ensures SendableOnly(c, ms) == ms
  {
    if ms != [] {
      SendableAll(c, ms[1..]);
      assert [ms[0]] + ms[1..] == ms;
    }
  }

  /** The walk flags only messages that are not sendable. */
  lemma {:induction false} WalkKeepsSendable(c: Store, q: seq<Entry>, max: Option<nat>)
    ensures SendableOnly(c, Live(Walk(c, q, 0, max).queue)) == SendableOnly(c, Live(q))
    decreases |q|
  {
    if q != [] {
      var e := q[0];
      if e.held {
        WalkKeepsSendable(c, q[1..], max);
      } else if max != Some(0) {
        var max' := if max.Some? && c.Sendable(e.msg) then Some(max.value - 1) else max;
        WalkKeepsSendable(c, q[1..], max');
        assert Walk(c, q, 0, max).queue[1..] == Walk(c, q[1..], 0, max').queue;
        assert Live(q)[1..] == Live(q[1..]);
      }
    }
  }

  lemma SendableKept(c: Store, max: Option<nat>)
    requires Valid(c)
    ensures Valid(PendingMessages(c, max).0)
    ensures SendableOnly(c, Pending(PendingMessages(c, max).0)) == SendableOnly(c, Pending(c))
  {
    var q, k := c.queue, Cut(c.queue, c.offset);
    var v := Walk(c, q[k..], 0, max);
    PendingFacts(c, max);
    WalkSkips(c, q, c.offset, max);
    LiveAtCut(q, c.offset);
    LiveConcat(q[..k], v.queue);
    assert Live(q[..k] + v.queue)[c.offset..] == Live(v.queue);
    WalkKeepsSendable(c, q[k..], max);
  }

  /** A walk leaves no more messages pending than there were. */
  lemma {:induction false} HoldsMoreLive(c: Store, before: seq<Entry>, after: seq<Entry>)
    requires HoldsMore(c, before, after)
    ensures |Live(after)| <= |Live(before)|
    decreases |before|
  {
    if before != [] {
      assert after[0] == before[0] || after[0] == Entry(before[0].msg, true);
      HoldsMoreLive(c, before[1..], after[1..]);
    }
  }

  /** The walk that ends an exchange. */
  lemma ClosingWalk(c: Store)
    requires Valid(c)
    ensures var c' := PendingMessages(c, Some(1)).0;
            && Valid(c') && c' == c.(queue := c'.queue) && HoldsMore(c, c.queue, c'.queue)
            && Messages(c'.queue) == Messages(c.queue)
            && PendingCount(c') <= PendingCount(c)
            && SendableOnly(c', Pending(c')) == SendableOnly(c, Pending(c))
  {
    var c' := PendingMessages(c, Some(1)).0;
    PendingFacts(c, Some(1));
    SendableKept(c, Some(1));
    HoldsMoreLive(c, c.queue, c'.queue);
    SameSendable(c, c', Pending(c'));
  }

  /** An exchange up to the handling of the answer: the request arrives, the response arrives. */
  ghost function Acknowledged(max: nat, s: System, resync: Message): System
    requires Inv(max, s) && s.phase.Idle? && resync !in s.added
  {
    InvValid(max, s);
    StartKeeps(max, s);
    DeliverKeeps(max, Start(max, s));
    var s2 := Apply(max, Start(max, s), Deliver);
    var c := Completed(s2, s2.phase.reply.value);
    if c.resyncs > s2.resyncs then Added(c, resync) else c
  }

  /** A completed exchange: nothing is lost, the response holds no messages, and the client
      walks its queue once more at the end. */
  ghost function Exchange(max: nat, s: System, resync: Message): System
    requires Inv(max, s) && s.phase.Idle? && resync !in s.added
  {
    var a := Acknowledged(max, s, resync);
    a.(client := PendingMessages(a.client, Some(1)).0, phase := Idle)
  }

  lemma AcknowledgedKeeps(max: nat, s: System, resync: Message)
    requires Inv(max, s) && s.phase.Idle? && resync !in s.added
    ensures var a := Acknowledged(max, s, resync); Inv(max, a) && a.phase.Handling?
  {
    StartKeeps(max, s);
    DeliverKeeps(max, Start(max, s));
    var s2 := Apply(max, Start(max, s), Deliver);
    CompleteKeeps(max, s2);
    if Completed(s2, s2.phase.reply.value).resyncs > s2.resyncs {
      AddedKeeps(max, Completed(s2, s2.phase.reply.value), resync);
    }
  }

  lemma ExchangeKeeps(max: nat, s: System, resync: Message)
    requires Inv(max, s) && s.phase.Idle? && resync !in s.added
    ensures Inv(max, Exchange(max, s, resync)) && Exchange(max, s, resync).phase.Idle?
  {
    hide Inv, Acknowledged, PendingMessages;
    var a := Acknowledged(max, s, resync);
    AcknowledgedKeeps(max, s, resync);
    InvValid(max, a);
    StepKeeps(max, a, Peek);
    StepKeeps(max, Apply(max, a, Peek), DoneHandling);
    InvValid(max, Apply(max, a, Peek));
  }

  /** When the server is not behind, the answer acknowledges the whole payload, and the pending
      messages are the rest. */
  lemma AcknowledgedDelivers(max: nat, s: System, resync: Message)
    requires Inv(max, s) && s.phase.Idle? && resync !in s.added && s.client.sequence <= |s.log|
    ensures var s1, a := Start(max, s), Acknowledged(max, s, resync);
            var ms := s1.phase.payload.messages;
            && Valid(s1.client) && Valid(a.client) && |ms| <= |Pending(s1.client)|
            && a.client.sequence == |a.log| == s.client.sequence + |ms|
            && a.log == s.log[..s.client.sequence] + ms
            && Pending(a.client) == Pending(s1.client)[|ms|..]
            && a.resyncs == s.resyncs && a.added == s.added
            && a.client.types == s.client.types && a.client.api == s.client.api
  {
    hide Acknowledged, Live, Receive, Batch, PendingMessages, GotNextExpected;
    var s1 := Start(max, s);
    StartKeeps(max, s);
    StartClient(max, s);
    AcknowledgedParts(max, s, resync);
    DeliverKeeps(max, s1);
    LogGrows(s1);
    RestPending(s1.client, |s1.phase.payload.messages|);
  }

  /** When the server is not behind, an exchange delivers its whole payload: both sides agree
      on the next number, and of the messages behind the payload all sendable ones are pending,
      and no more than there were. */
  lemma ExchangeDelivers(max: nat, s: System, resync: Message)
    requires Inv(max, s) && s.phase.Idle? && resync !in s.added && s.client.sequence <= |s.log|
    ensures var s1, a, t := Start(max, s), Acknowledged(max, s, resync), Exchange(max, s, resync);
            var ms := s1.phase.payload.messages;
            && Valid(s1.client) && Valid(t.client) && |ms| <= |Pending(s1.client)|
            && t.client.sequence == |t.log| == s.client.sequence + |ms|
            && t.log == s.log[..s.client.sequence] + ms
            && HoldsMore(t.client, a.client.queue, t.client.queue)
            && SendableOnly(t.client, Pending(t.client)) == SendableOnly(s.client, Pending(s1.client)[|ms|..])
            && PendingCount(t.client) <= PendingCount(s1.client) - |ms|
            && t.resyncs == s.resyncs && t.added == s.added
            && t.client.types == s.client.types && t.client.api == s.client.api
  {
    hide Acknowledged, Start, Live, PendingMessages;
    var s1, a := Start(max, s), Acknowledged(max, s, resync);
    AcknowledgedDelivers(max, s, resync);
    ClosingWalk(a.client);
    SameSendable(s.client, a.client, Pending(a.client));
  }

  lemma StartClient(max: nat, s: System)
    requires Valid(s.client)
    ensures var s1 := Start(max, s);
            && s1 == s.(client := s1.client, phase := s1.phase)
            && s1.client == s.client.(queue := s1.client.queue)
            && Valid(s1.client)
            && Messages(s1.client.queue) == Messages(s.client.queue)
            && Live(s1.client.queue)[..s.client.offset] == Live(s.client.queue)[..s.client.offset]
  {
    PendingFacts(s.client, Some(max));
  }

  /** An exchange that asks for nothing ancient, taken apart. */
  lemma AcknowledgedParts(max: nat, s: System, resync: Message)
    requires Inv(max, s) && s.phase.Idle? && resync !in s.added && s.client.Base() <= |s.log|
    ensures var s1, t := Start(max, s), Acknowledged(max, s, resync);
            s1.phase.Waiting? && Valid(s1.client)
            && var log := Receive(s1.log, s1.phase.payload);
               && t.log == log && t.client == GotNextExpected(s1.client, |log|).0
               && t.resyncs == s.resyncs && t.added == s.added && t.client.sequence == |log|
               && t.client.types == s.client.types && t.client.api == s.client.api
  {
    hide Live, Batch, PendingMessages, Receive, Messages, DropLive, Repeatable, InFlight, Burst;
    var s1 := Start(max, s);
    StartKeeps(max, s);
    StartClient(max, s);
    DeliverKeeps(max, s1);
    var s2 := Apply(max, s1, Deliver);
    ReceiveGrows(s1.log, s1.phase.payload);
    CompleteKeeps(max, s2);
  }

  lemma ReceiveGrows(log: seq<Message>, p: Payload)
    ensures |log| <= |Receive(log, p)|
  {
  }

  /** What the receiver had already is the front of the payload. */
  lemma LogGrows(s: System)
    requires Ledger(s) && s.phase.Waiting? && s.phase.payload.sequence == s.client.sequence <= |s.log|
    requires var ms := s.phase.payload.messages;
             |s.log| <= s.client.sequence + |ms| && |ms| <= |Pending(s.client)| && ms == Pending(s.client)[..|ms|]
    ensures Receive(s.log, s.phase.payload) == s.log[..s.client.sequence] + s.phase.payload.messages
  {
    hide Live;
    var ms, n, all := s.phase.payload.messages, s.client.sequence, s.acked + Live(s.client.queue);
    var seen := |s.log| - n;
    assert Pending(s.client) == all[n..];
    Overlap(s.log, all, ms, n);
  }

  lemma Overlap(log: seq<Message>, all: seq<Message>, ms: seq<Message>, n: nat)
    requires log <= all && n <= |log| <= n + |ms| && ms <= all[n..]
    ensures log + ms[|log| - n..] == log[..n] + ms
  {
    var k := |log| - n;
    assert log[n..] == all[n..][..k] == ms[..k];
    assert log == log[..n] + log[n..] && ms == ms[..k] + ms[k..];
  }

  lemma RestPending(c: Store, k: nat)
    requires Valid(c) && k <= |Pending(c)|
    ensures var c' := GotNextExpected(c, c.sequence + k).0; Valid(c') && Pending(c') == Pending(c)[k..]
  {
    GotNextExpectedFacts(c, c.sequence + k);
  }

  /** As long as anything is pending, the number of pending messages falls with every exchange:
      by the payload at least. */
  lemma PendingFalls(max: nat, s: System, resync: Message)
    requires Inv(max, s) && s.phase.Idle? && resync !in s.added && s.client.sequence <= |s.log|
    requires max > 0
    ensures var s1, t := Start(max, s), Exchange(max, s, resync);
            && PendingCount(t.client) <= PendingCount(s.client) - |s1.phase.payload.messages|
            && (PendingCount(s.client) > 0 ==> PendingCount(t.client) < PendingCount(s.client))
  {
    hide Exchange, Inv, Live, Number, Numbered, OneApi, AllSendable, PendingMessages, Batch;
    ExchangeDelivers(max, s, resync);
    PayloadFacts(max, s);
    InvValid(max, s);
    PendingFacts(s.client, Some(max));
    HoldsMoreLive(s.client, s.client.queue, Start(max, s).client.queue);
  }

  /** Exchanges one after the other, with nothing else in between. */
  ghost function Exchanges(max: nat, s: System, resync: Message, n: nat): System
    requires Inv(max, s) && s.phase.Idle? && s.client.sequence <= |s.log| && resync !in s.added
    decreases n
  {
    if n == 0 then s
    else
      ExchangeKeeps(max, s, resync);
      ExchangeDelivers(max, s, resync);
      Exchanges(max, Exchange(max, s, resync), resync, n - 1)
  }

  /** The part of the log that the client knows of. */
  ghost function KnownLog(s: System): seq<Message> {
    if 0 <= s.client.sequence <= |s.log| then s.log[..s.client.sequence] else s.log
  }

  /** What one exchange does to the sendable messages: a non-empty front of them arrives. */
  lemma ExchangeSendable(max: nat, s: System, resync: Message)
    requires Inv(max, s) && s.phase.Idle? && resync !in s.added && s.client.sequence <= |s.log| && max > 0
    ensures var t := Exchange(max, s, resync);
            && Valid(t.client) && Inv(max, t)
            && var before, after := SendableOnly(s.client, Pending(s.client)),
                                     SendableOnly(t.client, Pending(t.client));
               && t.log == KnownLog(t) && t.log + after == KnownLog(s) + before
               && (before == [] || |after| < |before|)
  {
    hide *;
    InvValid(max, s);
    StartPrefix(max, s);
    StartClient(max, s);
    ExchangeKeeps(max, s, resync);
    ExchangeDelivers(max, s, resync);
    SendableFront(max, s);
    var s1, t := Start(max, s), Exchange(max, s, resync);
    InvValid(max, t);
    var ms, n := s1.phase.payload.messages, s.client.sequence;
    var before, after := SendableOnly(s.client, Pending(s.client)), SendableOnly(t.client, Pending(t.client));
    assert before == ms + after;
    KnownIs(s);
    KnownIs(t);
    Regroup(s.log[..n], ms, after);
  }

  lemma KnownIs(s: System)
    requires 0 <= s.client.sequence <= |s.log|
    ensures KnownLog(s) == s.log[..s.client.sequence]
    ensures s.client.sequence == |s.log| ==> KnownLog(s) == s.log
  {
  }

  /** The payload is the front of the sendable messages, and empty only if there are none. */
  lemma SendableFront(max: nat, s: System)
    requires Inv(max, s) && s.phase.Idle? && max > 0
    ensures var s1 := Start(max, s);
            var ms := s1.phase.payload.messages;
            && Valid(s.client) && Valid(s1.client) && |ms| <= |Pending(s1.client)|
            && SendableOnly(s.client, Pending(s.client)) == ms + SendableOnly(s.client, Pending(s1.client)[|ms|..])
            && (ms == [] ==> SendableOnly(s.client, Pending(s.client)) == [])
  {
    hide Start, Inv, Live, PendingMessages, Number, Numbered;
    InvValid(max, s);
    StartPrefix(max, s);
    StartClient(max, s);
    PayloadFacts(max, s);
    SendableKept(s.client, Some(max));
    var s1 := Start(max, s);
    var ms, p := s1.phase.payload.messages, Pending(s1.client);
    assert AllSendable(s.client, ms);
    assert p == ms + p[|ms|..];
    SendableConcat(s.client, ms, p[|ms|..]);
    SendableAll(s.client, ms);
  }

  lemma StartPrefix(max: nat, s: System)
    requires Inv(max, s) && s.phase.Idle?
    ensures var s1 := Start(max, s);
            var ms := s1.phase.payload.messages;
            && s1.phase.Waiting? && Valid(s1.client)
            && |ms| <= |Pending(s1.client)| && ms == Pending(s1.client)[..|ms|]
            && s1.client == PendingMessages(s.client, Some(max)).0
  {
    StartKeeps(max, s);
  }

  lemma {:induction false} SameSendable(c: Store, d: Store, ms: seq<Message>)
    requires c.types == d.types && c.api == d.api
    ensures SendableOnly(c, ms) == SendableOnly(d, ms)
  {
    if ms != [] {
      SameSendable(c, d, ms[1..]);
    }
  }

  /** With enough exchanges and no new messages, everything sendable arrives, in order. */
  lemma {:induction false} Drained(max: nat, s: System, resync: Message, n: nat)
    requires Inv(max, s) && s.phase.Idle? && resync !in s.added && s.client.sequence <= |s.log| && max > 0
    requires n >= |SendableOnly(s.client, Pending(s.client))| && n > 0
    ensures var t := Exchanges(max, s, resync, n);
            && Valid(t.client) && SendableOnly(t.client, Pending(t.client)) == []
            && t.log == KnownLog(s) + SendableOnly(s.client, Pending(s.client))
    decreases n
  {
    hide Exchange, Inv, Live, Acknowledged, Start, PendingMessages, SendableOnly, HoldsMore;
    var s' := Exchange(max, s, resync);
    InvValid(max, s);
    ExchangeKeeps(max, s, resync);
    ExchangeDelivers(max, s, resync);
    ExchangeSendable(max, s, resync);
    if n > 1 {
      Drained(max, s', resync, n - 1);
    }
  }

  /** In particular a pending message of an accepted kind arrives even if the server speaks a newer
      version by now, and one of a newer version than the server's does not. */
  lemma OldVersionsArrive(max: nat, s: System, resync: Message, n: nat, m: Message)
    requires Inv(max, s) && s.phase.Idle? && resync !in s.added && s.client.sequence <= |s.log| && max > 0
    requires Valid(s.client) && m in Pending(s.client) && n > 0 && n >= |Pending(s.client)|
    ensures m.kind in s.client.types && m.api <= s.client.api ==> m in Exchanges(max, s, resync, n).log
    ensures m !in KnownLog(s) && m.api > s.client.api ==> m !in Exchanges(max, s, resync, n).log
  {
    hide Exchanges, Inv, Live, SendableOnly, KnownLog;
    SendableFewer(s.client, Pending(s.client));
    Drained(max, s, resync, n);
    SendableMember(s.client, Pending(s.client), m);
  }

  lemma {:induction false} SendableFewer(c: Store, ms: seq<Message>)
    ensures |SendableOnly(c, ms)| <= |ms|
  {
    if ms != [] {
      SendableFewer(c, ms[1..]);
    }
  }

  /** The server forgot part of the last acknowledged batch: one exchange finds out and deletes
      nothing, and of the messages from the server's number on exactly the sendable ones are
      pending again. Forgotten messages whose type is no longer accepted are held instead. */
  lemma RollbackRecovered(max: nat, s: System, resync: Message)
    requires Inv(max, s) && s.phase.Idle? && resync !in s.added
    requires s.client.Base() <= |s.log| < s.client.sequence
    ensures var t := Exchange(max, s, resync);
            && t.resyncs == s.resyncs && t.log == s.log && t.client.sequence == |s.log|
            && Messages(t.client.queue) == Messages(s.client.queue)
            && Valid(t.client) && Valid(s.client)
            && t.client.types == s.client.types && t.client.api == s.client.api && t.added == s.added
            && SendableOnly(t.client, Pending(t.client))
               == SendableOnly(s.client, Live(s.client.queue)[|s.log| - s.client.Base()..])
  {
    hide Acknowledged, Start, Live, PendingMessages, Messages;
    var a := Acknowledged(max, s, resync);
    InvValid(max, s);
    RollbackFound(max, s, resync);
    RollbackPending(max, s, resync);
    ClosingWalk(a.client);
    SameSendable(s.client, a.client, Pending(a.client));
  }

  /** The answer to the exchange after a rollback. */
  lemma RollbackFound(max: nat, s: System, resync: Message)
    requires Inv(max, s) && s.phase.Idle? && resync !in s.added
    requires s.client.Base() <= |s.log| < s.client.sequence
    ensures var s1, a := Start(max, s), Acknowledged(max, s, resync);
            var k := |s.log| - s.client.Base();
            && a.resyncs == s.resyncs && a.log == s.log && a.client.sequence == |s.log| && a.added == s.added
            && Messages(a.client.queue) == Messages(s.client.queue)
            && Valid(a.client) && Valid(s.client) && Valid(s1.client)
            && a.client.types == s.client.types && a.client.api == s.client.api
            && k <= s.client.offset && Pending(a.client) == Live(s1.client.queue)[k..]
  {
    hide Acknowledged, Live, Batch, PendingMessages, Messages, Repeatable, Burst;
    var s1 := Start(max, s);
    InvValid(max, s);
    StartKeeps(max, s);
    StartClient(max, s);
    StartPrefix(max, s);
    AcknowledgedParts(max, s, resync);
    GotNextExpectedFacts(s1.client, |s.log|);
  }

  lemma RollbackPending(max: nat, s: System, resync: Message)
    requires Inv(max, s) && s.phase.Idle? && resync !in s.added
    requires s.client.Base() <= |s.log| < s.client.sequence
    ensures var a := Acknowledged(max, s, resync);
            && Valid(a.client) && Valid(s.client)
            && SendableOnly(s.client, Pending(a.client))
               == SendableOnly(s.client, Live(s.client.queue)[|s.log| - s.client.Base()..])
  {
    hide Acknowledged, Inv, Live, PendingMessages, Messages;
    var s1, k, c := Start(max, s), |s.log| - s.client.Base(), s.client;
    InvValid(max, s);
    RollbackFound(max, s, resync);
    StartClient(max, s);
    StartPrefix(max, s);
    var before, after := Live(c.queue), Live(s1.client.queue);
    Rejoin(before, k, c.offset);
    Rejoin(after, k, c.offset);
    SlicesAgree(before, after, k, c.offset);
    SendableConcat(c, before[k..c.offset], before[c.offset..]);
    SendableConcat(c, before[k..c.offset], after[c.offset..]);
    SendableKept(c, Some(max));
  }

  lemma Rejoin(ms: seq<Message>, k: nat, n: nat)
    requires k <= n <= |ms|
    ensures ms[k..] == ms[k..n] + ms[n..]
  {
  }

  /** With enough exchanges and no new messages, what the server forgot is in its log again as
      far as it is sendable, in order, and so is everything pending. */
  lemma RollbackResent(max: nat, s: System, resync: Message, n: nat)
    requires Inv(max, s) && s.phase.Idle? && resync !in s.added && max > 0
    requires s.client.Base() <= |s.log| < s.client.sequence
    requires n > 0 && n >= |SendableOnly(s.client, Live(s.client.queue)[|s.log| - s.client.Base()..])|
    ensures Resent(max, s, resync, n).log
         == s.log + SendableOnly(s.client, Live(s.client.queue)[|s.log| - s.client.Base()..])
  {
    hide Exchange, Exchanges, Inv, Live;
    var t := Exchange(max, s, resync);
    RollbackRecovered(max, s, resync);
    ExchangeKeeps(max, s, resync);
    Drained(max, t, resync, n);
    assert KnownLog(t) == s.log;
  }

  /** The exchange that finds out about a rollback, and `n` more. */
  ghost function Resent(max: nat, s: System, resync: Message, n: nat): System
    requires Inv(max, s) && s.phase.Idle? && resync !in s.added
    requires s.client.Base() <= |s.log| < s.client.sequence
  {
    RollbackRecovered(max, s, resync);
    ExchangeKeeps(max, s, resync);
    Exchanges(max, Exchange(max, s, resync), resync, n)
  }

  /** A forgotten message, of number `k` below the sequence, is in the log again after enough
      exchanges if and only if it is sendable now. */
  lemma ForgottenReturns(max: nat, s: System, resync: Message, n: nat, k: nat)
    requires Inv(max, s) && s.phase.Idle? && resync !in s.added && max > 0
    requires s.client.Base() <= |s.log| <= k < s.client.sequence
    requires n > 0 && n >= |SendableOnly(s.client, Live(s.client.queue)[|s.log| - s.client.Base()..])|
    ensures Valid(s.client)
    ensures var m := Live(s.client.queue)[k - s.client.Base()];
            && m !in s.log
            && (m in Resent(max, s, resync, n).log <==> m.kind in s.client.types && m.api <= s.client.api)
  {
    hide Live, Held, Resent, Repeatable, InFlight, Messages, SendableOnly;
    var c, base := s.client, s.client.Base();
    var m, rest := Live(c.queue)[k - base], Live(c.queue)[|s.log| - base..];
    InvValid(max, s);
    RollbackResent(max, s, resync, n);
    LedgerSplit(s);
    assert (s.acked + Live(c.queue))[|s.log|..] == rest;
    assert rest[k - |s.log|] == m;
    assert m in multiset(rest);
    assert multiset(s.log)[m] + multiset(rest)[m] <= s.added[m] <= 1;
    SendableMember(c, rest, m);
  }

  lemma {:induction false} SendableMember(c: Store, ms: seq<Message>, m: Message)
    ensures m in SendableOnly(c, ms) <==> m in ms && m.kind in c.types && m.api <= c.api
  {
    if ms != [] {
      SendableMember(c, ms[1..], m);
    }
  }

  lemma SlicesAgree(a: seq<Message>, b: seq<Message>, k: nat, n: nat)
    requires k <= n <= |a| && n <= |b| && a[..n] == b[..n]
    ensures a[k..n] <= b[k..]
  {
    assert a[k..n] == a[..n][k..] && b[k..n] == b[..n][k..];
  }

  // ---------------------------------------------------------------------------------
  // A forgotten message that does not come back
  // ---------------------------------------------------------------------------------

  const DROPPED := Message(0, "a", 0)
  const RESYNC := Message(1, "resynchronize", 0)

  function One(held: bool, number: int, offset: nat, types: set<string>): Store {
    Store([Entry(DROPPED, held)], number, offset, types, 0)
  }

  /** The message is sent, acknowledged, and its type dropped by the same response; then the
      server forgets it. */
  ghost function DropAndForget(k: nat): System
    requires k <= 7
  {
    var empty := START.(client := Store([], 0, 0, {"a"}, 0));
    if k == 0 then empty else
    var added := empty.(client := One(false, 0, 0, {"a"}), added := multiset{DROPPED});
    if k == 1 then added else
    var payload := Payload(0, [DROPPED]);
    if k == 2 then added.(phase := Waiting(payload, None)) else
    var received := added.(log := [DROPPED], phase := Waiting(payload, Some(1)));
    if k == 3 then received else
    if k == 4 then received.(client := One(false, 1, 1, {"a"}), phase := Handling) else
    if k == 5 then received.(client := One(false, 1, 1, {}), phase := Handling) else
    if k == 6 then received.(client := One(false, 1, 1, {}), phase := Idle)
    else received.(client := One(false, 1, 1, {}), phase := Idle, log := [], rolledBack := true)
  }

  const DROP_STEPS: seq<Step> := [
    AddMessage(DROPPED), StartExchange, Deliver, Complete, ChangeTypes({}), DoneHandling, Rollback(0)]

  lemma WalkSent(max: nat)
    requires max > 0
    ensures PendingMessages(One(false, 0, 0, {"a"}), Some(max)) == (One(false, 0, 0, {"a"}), [DROPPED])
    ensures Batch([DROPPED]) == [DROPPED]
  {
    var c := One(false, 0, 0, {"a"});
    WalkSingle(c, Entry(DROPPED, false), 0, Some(max));
    assert c.Sendable(DROPPED);
    assert PendingMessages(c, Some(max)).0 == c;
    assert SameApi([DROPPED], 0) == [DROPPED] + SameApi([DROPPED][1..], 0);
  }

  lemma SentStays(types: set<string>)
    ensures SetAcceptedTypes(One(false, 1, 1, {"a"}), types) == One(false, 1, 1, types)
    ensures GotNextExpected(One(false, 0, 0, {"a"}), 1) == (One(false, 1, 1, {"a"}), false)
    ensures Live([Entry(DROPPED, false)]) == [DROPPED]
  {
    var s, q := One(false, 1, 1, types), [Entry(DROPPED, false)];
    assert q[1..] == [];
    assert Kept(s, q, 1) == [q[0]] + Kept(s, q[1..], 0);
    assert Released(s, q) == Released(s, q[1..]);
    assert Live(q) == [DROPPED] + Live(q[1..]);
  }

  lemma DropStep(max: nat, k: nat)
    requires max > 0 && k < 7
    ensures var s := DropAndForget(k);
            Valid(s.client) && Enabled(s, DROP_STEPS[k]) && Apply(max, s, DROP_STEPS[k]) == DropAndForget(k + 1)
  {
    WalkSent(max);
    SentStays({});
    hide PendingMessages, SetAcceptedTypes, GotNextExpected, Batch, Live;
    assert Valid(Store([], 0, 0, {"a"}, 0));
  }

  /** The client in the state reached still has the message, live and before the pending offset,
      so the server's number is within the last batch. The exchange that finds out about the
      rollback holds the message instead of making it pending. */
  lemma ForgottenAndHeld(max: nat)
    requires max > 0
    ensures Initial(DropAndForget(0)) && CanRun(max, DropAndForget(0), DROP_STEPS)
    ensures var t := Run(max, DropAndForget(0), DROP_STEPS);
            && Inv(max, t) && t.phase.Idle? && t.log == [] && RESYNC !in t.added
            && Live(t.client.queue) == [DROPPED] && t.client.Base() <= |t.log| < t.client.sequence
            && Exchange(max, t, RESYNC).client == One(true, 0, 0, {})
  {
    hide Inv, CanRun, Run, Exchange, Live, DropAndForget;
    DropEnds();
    InitialInv(max, DropAndForget(0));
    DropRun(max, 0);
    assert DROP_STEPS[0..] == DROP_STEPS;
    SentStays({});
    ExchangeHolds(max, DropAndForget(7));
  }

  lemma DropEnds()
    ensures Initial(DropAndForget(0))
    ensures var t := DropAndForget(7);
            t.phase.Idle? && t.client == One(false, 1, 1, {}) && t.log == [] && RESYNC !in t.added
  {
  }

  lemma {:induction false} DropRun(max: nat, k: nat)
    requires max > 0 && k <= 7 && Inv(max, DropAndForget(k))
    ensures CanRun(max, DropAndForget(k), DROP_STEPS[k..])
    ensures Run(max, DropAndForget(k), DROP_STEPS[k..]) == DropAndForget(7) && Inv(max, DropAndForget(7))
    decreases 7 - k
  {
    hide Inv, DropAndForget, CanRun, Run, Apply, Enabled;
    if k == 7 {
      NoSteps(max, DropAndForget(7));
    } else {
      DropStep(max, k);
      FirstStep(max, DropAndForget(k), DROP_STEPS[k], DROP_STEPS[k + 1..]);
      DropRun(max, k + 1);
      assert DROP_STEPS[k..] == [DROP_STEPS[k]] + DROP_STEPS[k + 1..];
    }
  }

  lemma ExchangeHolds(max: nat, s: System)
    requires max > 0 && Inv(max, s) && RESYNC !in s.added
    requires s.phase.Idle? && s.client == One(false, 1, 1, {}) && s.log == []
    ensures Exchange(max, s, RESYNC).client == One(true, 0, 0, {})
  {
    WalkHeld(max);
    StartKeeps(max, s);
    DeliverKeeps(max, Start(max, s));
    hide PendingMessages, GotNextExpected, Inv, InFlight, Repeatable, Ledger;
    assert Start(max, s) == s.(phase := Waiting(Payload(1, []), None));
    assert Apply(max, Start(max, s), Deliver) == s.(phase := Waiting(Payload(1, []), Some(0)));
    assert Acknowledged(max, s, RESYNC).client == One(false, 0, 0, {});
  }

  lemma WalkHeld(max: nat)
    ensures PendingMessages(One(false, 1, 1, {}), Some(max)) == (One(false, 1, 1, {}), [])
    ensures PendingMessages(One(false, 0, 0, {}), Some(1)) == (One(true, 0, 0, {}), [])
    ensures GotNextExpected(One(false, 1, 1, {}), 0) == (One(false, 0, 0, {}), false)
  {
    var c, d, e := One(false, 1, 1, {}), One(false, 0, 0, {}), Entry(DROPPED, false);
    WalkSingle(c, e, 1, Some(max));
    WalkSingle(d, e, 0, Some(1));
    assert !d.Sendable(DROPPED);
    assert PendingMessages(c, Some(max)).0 == c;
    assert PendingMessages(d, Some(1)).0 == One(true, 0, 0, {});
    assert Live([e]) == [DROPPED] + Live([e][1..]);
  }
}

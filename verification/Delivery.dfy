/** The client and a server that follows the documented receiver rules, as one system with lost
    requests, lost responses and servers that forget (landscape/client/broker/exchange.py). */
module Delivery {
  import opened Common
  import opened StoreModel

  datatype Payload = Payload(sequence: int, messages: seq<Message>)

  /** Between exchanges; an exchange under way, with the number the server answered once the
      request has reached it; or a response being handled. */
  datatype Phase = Idle | Waiting(payload: Payload, reply: Option<int>) | Handling

  /** `log` is what the receiver has processed; it expects number `|log|` next. The other fields
      keep books: the messages below the client's base number, all messages ever added, those
      given up after an ancient request or by trimming, those given up by trimming, whether the
      server ever forgot, and the RESYNCs. */
  datatype System = System(client: Store, phase: Phase, log: seq<Message>, acked: seq<Message>,
                           added: multiset<Message>, lost: multiset<Message>, trimmed: multiset<Message>,
                           rolledBack: bool, resyncs: nat)

  datatype Step =
    | AddMessage(m: Message)
    | StartExchange
    | Deliver
    | Fail
    | Complete
    | ChangeTypes(types: set<string>)
    | Peek
    | ChangeApi(api: int)
    | DoneHandling
    | Rollback(r: nat)
    | Trim(k: nat)
    | Clear

  /** The receiver: numbers already seen are discarded, a payload from the future is refused. */
  function Receive(log: seq<Message>, p: Payload): seq<Message> {
    if p.sequence > |log| then log
    else
      var seen := |log| - p.sequence;
      if seen <= |p.messages| then log + p.messages[seen..] else log
  }

  /** What `add` does, with the books. */
  function Added(s: System, m: Message): System {
    s.(client := Add(s.client, m), added := s.added + multiset{m})
  }

  /** The end of `_make_payload`: the walk, then the batch of one API version. */
  function Start(max: nat, s: System): System {
    var (client, ms) := PendingMessages(s.client, Some(max));
    s.(client := client, phase := Waiting(Payload(client.sequence, Batch(ms)), None))
  }

  /** `got_next_expected`, at the start of `_handle_result`. A message queued for RESYNC is a step of
      its own. */
  function Completed(s: System, next: int): System
    requires Valid(s.client)
  {
    var c := s.client;
    var (client, again) := GotNextExpected(c, next);
    s.(client := client, phase := Handling,
       acked := if next > c.sequence then s.acked + Live(c.queue)[..c.offset]
                else if again && 0 <= next <= |s.acked| then s.acked[..next] else s.acked,
       lost := if again && 0 <= next <= |s.acked| then s.lost + multiset(s.acked[next..]) else s.lost,
       resyncs := if again then s.resyncs + 1 else s.resyncs)
  }

  /** The first `k` entries of the queue are trimmed; the pending offset stays. */
  function Trimmed(s: System, k: nat): System
    requires k <= |s.client.queue|
  {
    var gone := multiset(Messages(s.client.queue[..k]));
    s.(client := s.client.(queue := s.client.queue[k..]), lost := s.lost + gone, trimmed := s.trimmed + gone)
  }

  /** Nothing of what the server has beyond the base number, or of what is on its way to it, may
      be trimmed. */
  predicate TrimSafe(s: System, k: nat)
    requires k <= |s.client.queue|
  {
    var d := |Live(s.client.queue[..k])|;
    d == 0
    || (&& |s.log| <= |s.acked| && s.client.offset + d <= |Live(s.client.queue)|
        && (s.phase.Waiting? ==> s.phase.payload.messages == []))
  }

  /** `delete_all_messages`: the sent messages count as acknowledged. */
  function Cleared(s: System): System
    requires Valid(s.client)
  {
    var live, offset := Live(s.client.queue), s.client.offset;
    var gone := multiset(live[offset..]) + multiset(Held(s.client.queue));
    s.(client := s.client.(queue := [], offset := 0), acked := s.acked + live[..offset],
       lost := s.lost + gone, trimmed := s.trimmed + gone)
  }

  predicate ClearSafe(s: System) {
    |s.log| <= s.client.sequence && (s.phase.Waiting? ==> s.phase.payload.messages == [])
  }

  /** Whether a step can happen. Trimming and clearing happen at other times as well, but not
      without damage: `DeliveryTrims` shows that these are exactly the harmless ones. */
  predicate Enabled(s: System, step: Step) {
    match step
    case AddMessage(m) => m !in s.added
    case StartExchange => s.phase.Idle?
    case Deliver => s.phase.Waiting?
    case Fail => s.phase.Waiting?
    case Complete => s.phase.Waiting? && s.phase.reply.Some?
    case ChangeTypes(_) => s.phase.Handling?
    case Peek => s.phase.Handling?
    case ChangeApi(_) => s.phase.Handling?
    case DoneHandling => s.phase.Handling?
    case Rollback(r) => r <= |s.log|
    case Trim(k) => k <= |s.client.queue| && TrimSafe(s, k)
    case Clear => ClearSafe(s)
  }

  function Apply(max: nat, s: System, step: Step): System
    requires Valid(s.client) && Enabled(s, step)
  {
    match step
    case AddMessage(m) => Added(s, m)
    case StartExchange => Start(max, s)
    case Deliver =>
      var log := Receive(s.log, s.phase.payload);
      s.(log := log, phase := s.phase.(reply := Some(|log|)))
    case Fail => s.(phase := Idle)
    case Complete => Completed(s, s.phase.reply.value)
    case ChangeTypes(types) => s.(client := SetAcceptedTypes(s.client, types))
    case Peek => s.(client := PendingMessages(s.client, Some(1)).0)
    case ChangeApi(api) => s.(client := s.client.(api := api))
    case DoneHandling => s.(phase := Idle)
    case Rollback(r) => s.(log := s.log[..r], rolledBack := true)
    case Trim(k) => Trimmed(s, k)
    case Clear => Cleared(s)
  }

  const START := System(Store([], 0, 0, {}, 0), Idle, [], [], multiset{}, multiset{}, multiset{}, false, 0)

  /** Starting states: nothing stored, nothing received, numbers agree at zero. */
  ghost predicate Initial(s: System) {
    s == START.(client := s.client) && s.client.queue == [] && s.client.sequence == 0 && s.client.offset == 0
  }

  // ---------------------------------------------------------------------------------
  // The invariant
  // ---------------------------------------------------------------------------------

  /** The live message at index `i` carries number `|acked| + i`; the receiver's log is what
      these numbers say; and every message is in exactly one place. */
  ghost predicate Ledger(s: System) {
    && Valid(s.client) && s.client.Base() == |s.acked|
    && s.log <= s.acked + Live(s.client.queue)
    && multiset(s.acked) + multiset(Messages(s.client.queue)) + s.lost == s.added
    && (forall m :: s.added[m] <= 1)
  }

  /** Messages the server has and the client does not know about go out again in the next
      payload: they are sendable, of one API version, and fit it. */
  ghost predicate Repeatable(max: nat, s: System)
    requires Ledger(s)
  {
    var u := |s.log| - s.client.sequence;
    u > 0 ==> Burst(max, s.client, u)
  }

  ghost predicate Burst(max: nat, c: Store, u: nat)
    requires Valid(c)
  {
    u <= |Pending(c)| && u <= max && AllSendable(c, Pending(c)[..u]) && OneApi(Pending(c)[..u])
  }

  ghost predicate InFlight(max: nat, s: System)
    requires Ledger(s) && s.phase.Waiting?
  {
    var p, c, r := s.phase.payload, s.client, s.phase.reply;
    && p.sequence == c.sequence && |s.log| <= c.sequence + |p.messages|
    && Burst(max, c, |p.messages|) && p.messages == Pending(c)[..|p.messages|]
    && (r.Some? ==> |s.log| <= r.value <= c.sequence + |p.messages|)
    && (r.Some? && !s.rolledBack ==> r.value == |s.log| == c.sequence + |p.messages|)
  }

  ghost predicate Inv(max: nat, s: System) {
    && Ledger(s)
    && (!s.rolledBack ==> s.client.sequence <= |s.log| && s.lost == s.trimmed && s.resyncs == 0)
    && (s.phase.Idle? ==> Repeatable(max, s))
    && (s.phase.Waiting? ==> InFlight(max, s))
    && (s.phase.Handling? ==> |s.log| <= s.client.sequence)
  }

  lemma InitialInv(max: nat, s: System)
    requires Initial(s)
    ensures Inv(max, s)
  {
  }

  lemma LedgerAdded(s: System, m: Message)
    requires Ledger(s) && m !in s.added
    ensures Ledger(Added(s, m))
  {
    var s', live := Added(s, m), Live(s.client.queue);
    var live' := Live(s'.client.queue);
    AddFacts(s.client, m);
    assert live <= live';
    assert s.acked + live <= s.acked + live';
    forall x ensures s'.added[x] <= 1 {
      assert s.added[x] <= 1 && s.added[m] == 0;
    }
  }

  /** Adding only lengthens the list of pending messages. */
  lemma PendingAdded(c: Store, m: Message)
    requires Valid(c)
    ensures Valid(Add(c, m)) && Pending(c) <= Pending(Add(c, m))
    ensures forall max, u: nat :: u <= |Pending(c)| && Burst(max, c, u) ==> Burst(max, Add(c, m), u)
    ensures forall u: nat :: u <= |Pending(c)| ==> Pending(Add(c, m))[..u] == Pending(c)[..u]
  {
    AddFacts(c, m);
    assert Live(c.queue) <= Live(Add(c, m).queue);
    var p, p' := Pending(c), Pending(Add(c, m));
    assert p <= p';
    forall u: nat | u <= |p| ensures p'[..u] == p[..u] {
    }
  }

  lemma AddedKeeps(max: nat, s: System, m: Message)
    requires Inv(max, s) && m !in s.added
    ensures Inv(max, Added(s, m))
  {
    hide Live, Add;
    LedgerAdded(s, m);
    PendingAdded(s.client, m);
    AddChangesOnly(s.client, m);
  }

  lemma AddChangesOnly(c: Store, m: Message)
    ensures Add(c, m) == c.(queue := Add(c, m).queue)
  {
  }

  lemma StartKeeps(max: nat, s: System)
    requires Inv(max, s) && s.phase.Idle?
    ensures Inv(max, Start(max, s))
  {
    hide Live, Held, Messages, PendingMessages, Batch, OneApi;
    var c, u := s.client, if |s.log| > s.client.sequence then |s.log| - s.client.sequence else 0;
    var (c', ms) := PendingMessages(c, Some(max));
    var s', batch := Start(max, s), Batch(ms);
    PendingFacts(c, Some(max));
    PendingKeeps(c, Some(max), u);
    BatchFacts(ms);
    assert ms[..u] == Pending(c)[..u];
    BatchContains(ms, u);
    assert Pending(c')[..|ms|] == ms;
    assert Pending(c')[..u] == ms[..u];
    SamePrefix(s.acked, Live(c.queue), Live(c'.queue), c.offset, u, s.log);
    assert Pending(c')[..|batch|] == batch;
    assert AllSendable(c', batch) by {
      forall i | 0 <= i < |batch| ensures c'.Sendable(batch[i]) {
        assert batch[i] == ms[i] && c.Sendable(ms[i]);
      }
    }
    OneApiBatch(ms);
  }

  lemma OneApiBatch(ms: seq<Message>)
    ensures OneApi(Batch(ms))
  {
    BatchFacts(ms);
  }

  /** A log that ends within the unchanged part stays a prefix. */
  lemma SamePrefix(acked: seq<Message>, live: seq<Message>, live': seq<Message>, offset: nat, u: nat, log: seq<Message>)
    requires offset + u <= |live| && offset + u <= |live'|
    requires live[..offset] == live'[..offset] && live[offset..][..u] == live'[offset..][..u]
    requires log <= acked + live && |log| <= |acked| + offset + u
    ensures log <= acked + live'
  {
    forall i | 0 <= i < |log| ensures log[i] == (acked + live')[i] {
      assert log[i] == (acked + live)[i];
      if |acked| <= i < |acked| + offset {
        assert live[..offset][i - |acked|] == live'[..offset][i - |acked|];
      } else if i >= |acked| + offset {
        assert live[offset..][..u][i - |acked| - offset] == live'[offset..][..u][i - |acked| - offset];
      }
    }
  }

  lemma DeliverKeeps(max: nat, s: System)
    requires Inv(max, s) && s.phase.Waiting?
    ensures Inv(max, Apply(max, s, Deliver))
    ensures var log := Apply(max, s, Deliver).log;
            s.client.sequence <= |s.log| ==> |log| == s.client.sequence + |s.phase.payload.messages|
  {
    hide Live, Held, Messages, Receive, AllSendable, OneApi;
    ReceivePrefix(s.acked + Live(s.client.queue), s.log, s.phase.payload);
  }

  /** The receiver's rules by number: a payload from the future changes nothing; otherwise what it
      has stays, and the messages with numbers it has not seen follow under their numbers. */
  lemma ReceiveMeaning(log: seq<Message>, p: Payload)
    requires p.sequence >= 0
    ensures var r := Receive(log, p);
            && (p.sequence > |log| ==> r == log)
            && (p.sequence <= |log| ==>
                  && |r| == (if p.sequence + |p.messages| >= |log| then p.sequence + |p.messages| else |log|)
                  && log <= r
                  && forall n :: |log| <= n < |r| ==> r[n] == p.messages[n - p.sequence])
  {
  }

  /** The receiver's log stays a prefix of the messages in the order of their numbers. */
  lemma ReceivePrefix(all: seq<Message>, log: seq<Message>, p: Payload)
    requires log <= all && 0 <= p.sequence && |log| <= p.sequence + |p.messages| <= |all|
    requires p.messages == all[p.sequence..][..|p.messages|]
    ensures var r := Receive(log, p);
            && r <= all && (p.sequence <= |log| ==> |r| == p.sequence + |p.messages|)
            && (p.sequence > |log| ==> r == log)
  {
    if p.sequence <= |log| {
      var seen := |log| - p.sequence;
      assert forall i :: 0 <= i < |p.messages| ==> p.messages[i] == all[p.sequence + i];
      assert log + p.messages[seen..] <= all;
    }
  }

  lemma CompleteKeeps(max: nat, s: System)
    requires Inv(max, s) && Enabled(s, Complete)
    ensures Inv(max, Apply(max, s, Complete))
    ensures var s' := Apply(max, s, Complete);
            && s'.client.sequence == s.phase.reply.value && s'.log == s.log && s'.phase.Handling?
            && (s'.resyncs > s.resyncs <==> s.phase.reply.value < s.client.Base())
  {
    var next := s.phase.reply.value;
    if next < s.client.Base() {
      CompleteAncient(max, s, next);
    } else if next > s.client.sequence {
      CompleteAhead(max, s, next);
    } else {
      CompleteOld(max, s, next);
    }
  }

  /** The server asks for something the client has deleted: all that is left goes out again. */
  lemma CompleteAncient(max: nat, s: System, next: int)
    requires Inv(max, s) && Enabled(s, Complete) && next == s.phase.reply.value < s.client.Base()
    ensures var s' := Completed(s, next);
            Inv(max, s') && s'.client.sequence == next && s'.log == s.log && s'.resyncs == s.resyncs + 1
  {
    hide Live, Held, Messages, DropLive;
    var c, live := s.client, Live(s.client.queue);
    assert 0 <= next <= |s.acked| && s.rolledBack;
    assert s.acked == s.acked[..next] + s.acked[next..];
    assert s.log <= s.acked[..next] + live;
    var s1 := s.(client := c.(offset := 0, sequence := next), phase := Handling, acked := s.acked[..next],
                 lost := s.lost + multiset(s.acked[next..]), resyncs := s.resyncs + 1);
    assert multiset(s.acked) == multiset(s.acked[..next]) + multiset(s.acked[next..]);
    assert Completed(s, next) == s1;
  }

  /** The server has more than before: what was sent before that is deleted. */
  lemma CompleteAhead(max: nat, s: System, next: int)
    requires Inv(max, s) && Enabled(s, Complete) && s.client.sequence < next == s.phase.reply.value
    ensures var s' := Completed(s, next);
            Inv(max, s') && s'.client.sequence == next && s'.log == s.log && s'.resyncs == s.resyncs
  {
    hide Live, Held, Messages, DropLive;
    var c, live := s.client, Live(s.client.queue);
    var c' := GotNextExpected(c, next).0;
    GotNextExpectedFacts(c, next);
    assert |Pending(c)| == |live| - c.offset;
    assert live == live[..c.offset] + live[c.offset..];
    assert s.acked + live[..c.offset] + live[c.offset..] == s.acked + live;
    DeletedMessages(c, next);
    assert multiset(s.acked + live[..c.offset]) == multiset(s.acked) + multiset(live[..c.offset]);
  }

  /** Deleting moves messages from the queue to the acknowledged ones. */
  lemma DeletedMessages(c: Store, next: int)
    requires Valid(c) && c.sequence < next <= c.sequence + |Pending(c)|
    ensures multiset(Messages(c.queue))
         == multiset(Messages(GotNextExpected(c, next).0.queue)) + multiset(Live(c.queue)[..c.offset])
  {
    var live := Live(c.queue);
    GotNextExpectedFacts(c, next);
    SplitMessages(c.queue);
    SplitMessages(GotNextExpected(c, next).0.queue);
    assert live == live[..c.offset] + live[c.offset..];
  }

  /** Nothing new, or a request for something still kept: the offset moves back. */
  lemma CompleteOld(max: nat, s: System, next: int)
    requires Inv(max, s) && Enabled(s, Complete)
    requires s.client.Base() <= next <= s.client.sequence && next == s.phase.reply.value
    ensures var s' := Completed(s, next);
            Inv(max, s') && s'.client.sequence == next && s'.log == s.log && s'.resyncs == s.resyncs
  {
    GotNextExpectedFacts(s.client, next);
  }

  lemma QuietKeeps(max: nat, s: System, c': Store)
    requires Inv(max, s) && s.phase.Handling?
    requires c' == s.client.(queue := c'.queue, types := c'.types, api := c'.api) && Valid(c')
    requires Live(c'.queue)[..c'.offset] == Live(s.client.queue)[..c'.offset]
    requires multiset(Messages(c'.queue)) == multiset(Messages(s.client.queue))
    ensures Inv(max, s.(client := c'))
  {
    SamePrefix(s.acked, Live(s.client.queue), Live(c'.queue), c'.offset, 0, s.log);
  }

  lemma TypesKeep(max: nat, s: System, types: set<string>)
    requires Inv(max, s) && s.phase.Handling?
    ensures Inv(max, Apply(max, s, ChangeTypes(types)))
  {
    hide Live, Held, Messages, Accepted;
    var live, live' := Live(s.client.queue), Live(SetAcceptedTypes(s.client, types).queue);
    SetAcceptedTypesFacts(s.client, types);
    assert live'[..s.client.offset] == live[..s.client.offset];
    QuietKeeps(max, s, SetAcceptedTypes(s.client, types));
  }

  lemma PeekKeeps(max: nat, s: System)
    requires Inv(max, s) && s.phase.Handling?
    ensures Inv(max, Apply(max, s, Peek))
  {
    PendingFacts(s.client, Some(1));
    QuietKeeps(max, s, PendingMessages(s.client, Some(1)).0);
  }

  lemma ApiKeeps(max: nat, s: System, api: int)
    requires Inv(max, s) && s.phase.Handling?
    ensures Inv(max, s.(client := s.client.(api := api)))
  {
    QuietKeeps(max, s, s.client.(api := api));
  }

  lemma FailKeeps(max: nat, s: System)
    requires Inv(max, s) && s.phase.Waiting?
    ensures Inv(max, s.(phase := Idle))
  {
    var c, p := s.client, s.phase.payload.messages;
    var u := |s.log| - c.sequence;
    if u > 0 {
      assert Pending(c)[..u] == Pending(c)[..|p|][..u];
    }
  }

  lemma DoneKeeps(max: nat, s: System)
    requires Inv(max, s) && s.phase.Handling?
    ensures Inv(max, s.(phase := Idle))
  {
  }

  lemma RollbackKeeps(max: nat, s: System, r: nat)
    requires Inv(max, s) && r <= |s.log|
    ensures Inv(max, s.(log := s.log[..r], rolledBack := true))
  {
    var c, u := s.client, r - s.client.sequence;
    if s.phase.Idle? && u > 0 {
      assert Pending(c)[..u] == Pending(c)[..|s.log| - c.sequence][..u];
    }
  }

  /** What trimming leaves of the live messages. */
  lemma TrimmedQueue(q: seq<Entry>, k: nat)
    requires k <= |q|
    ensures |Live(q[..k])| <= |Live(q)| && Live(q[k..]) == Live(q)[|Live(q[..k])|..]
    ensures multiset(Messages(q)) == multiset(Messages(q[..k])) + multiset(Messages(q[k..]))
  {
    assert q == q[..k] + q[k..];
    LiveConcat(q[..k], q[k..]);
    MessagesConcat(q[..k], q[k..]);
  }

  lemma TrimKeeps(max: nat, s: System, k: nat)
    requires Inv(max, s) && k <= |s.client.queue| && TrimSafe(s, k)
    ensures Inv(max, Trimmed(s, k))
  {
    hide Live, Messages;
    var c := s.client;
    var live, live' := Live(c.queue), Live(c.queue[k..]);
    TrimmedQueue(c.queue, k);
    if |live'| == |live| {
      assert live' == live;
    } else {
      PrefixWithin(s.log, s.acked, live, live');
    }
  }

  /** A log that ends with the acknowledged messages goes with any live ones. */
  lemma PrefixWithin(log: seq<Message>, acked: seq<Message>, live: seq<Message>, live': seq<Message>)
    requires log <= acked + live && |log| <= |acked|
    ensures log <= acked + live'
  {
    assert forall i :: 0 <= i < |log| ==> log[i] == (acked + live)[i] == acked[i] == (acked + live')[i];
  }

  /** The books after clearing, but for the log. */
  lemma ClearedBooks(s: System)
    requires Ledger(s)
    ensures var t := Cleared(s);
            && Valid(t.client) && t.client.Base() == |t.acked| == s.client.sequence
            && t.acked + Live(t.client.queue) == t.acked
            && multiset(t.acked) + multiset(Messages(t.client.queue)) + t.lost == t.added
            && t.acked <= s.acked + Live(s.client.queue)
  {
    hide Messages, Live;
    var c, t := s.client, Cleared(s);
    var live := Live(c.queue);
    SplitMessages(c.queue);
    NoEntries();
    var sent, unsent := live[..c.offset], live[c.offset..];
    assert live == sent + unsent;
    assert multiset(t.acked) == multiset(s.acked) + multiset(sent);
    assert s.acked + live == t.acked + unsent;
  }

  lemma NoEntries()
    ensures Live([]) == [] && Held([]) == [] && Messages([]) == []
  {
  }

  lemma ClearKeeps(max: nat, s: System)
    requires Inv(max, s) && ClearSafe(s)
    ensures Inv(max, Cleared(s))
  {
    hide Messages, Live;
    ClearedBooks(s);
    NoEntries();
    PrefixOfTwo(s.log, Cleared(s).acked, s.acked + Live(s.client.queue));
    assert Pending(Cleared(s).client)[..0] == [];
  }

  lemma PrefixOfTwo(a: seq<Message>, b: seq<Message>, all: seq<Message>)
    requires a <= all && b <= all && |a| <= |b|
    ensures a <= b
  {
    assert forall i :: 0 <= i < |a| ==> a[i] == all[i] == b[i];
  }

  /** Every step keeps the invariant. */
  lemma StepKeeps(max: nat, s: System, step: Step)
    requires Inv(max, s) && Enabled(s, step)
    ensures Inv(max, Apply(max, s, step))
  {
    hide Inv, Start, Added, Completed, Receive, Trimmed, Cleared, TrimSafe, ClearSafe;
    assert Valid(s.client) by {
      InvValid(max, s);
    }
    match step
    case AddMessage(m) => AddedKeeps(max, s, m);
    case StartExchange => StartKeeps(max, s);
    case Deliver => DeliverKeeps(max, s);
    case Fail => FailKeeps(max, s);
    case Complete => CompleteKeeps(max, s);
    case ChangeTypes(types) => TypesKeep(max, s, types);
    case Peek => PeekKeeps(max, s);
    case ChangeApi(api) => ApiKeeps(max, s, api);
    case DoneHandling => DoneKeeps(max, s);
    case Rollback(r) => RollbackKeeps(max, s, r);
    case Trim(k) => TrimKeeps(max, s, k);
    case Clear => ClearKeeps(max, s);
  }

  lemma InvValid(max: nat, s: System)
    requires Inv(max, s)
    ensures Valid(s.client)
  {
  }
}

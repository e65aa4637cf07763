/** Exchanges with the server, on a real store, and the steps of `Delivery` they amount to
    (landscape/client/broker/exchange.py, landscape/lib/message.py). */
module Exchange {
  import opened Common
  import opened SM = StoreModel
  import opened MessageStore
  import opened Delivery
  import opened DeliveryRuns
  import opened DeliveryTrims
  import DE = DeliveryExchanges

  /** A message from the server. `id` and `tooLarge` are what the file system will say of the
      message that answers a request to resynchronize. */
  datatype ServerMessage =
    | AcceptedTypes(types: set<string>)
    | Resynchronize(id: nat, tooLarge: bool)
    | OtherMessage

  datatype Response = Response(nextExpected: Option<int>, serverApi: int, messages: seq<ServerMessage>)

  /** How an exchange ends: with a response, with an empty one, or with an error. */
  datatype Ending = Answered(response: Response) | NoAnswer | Failed

  /** `got_next_expected`. */
  method GotNext(store: MessageStore, nextExpected: int) returns (resync: bool)
    requires store.Valid()
    modifies store
    ensures store.Valid() && store.dirs <= old(store.dirs) && store.blackhole == old(store.blackhole)
    ensures (store.Model(), resync) == GotNextExpected(old(store.Model()), nextExpected)
    ensures store.sequence == nextExpected && store.acceptedTypes == old(store.acceptedTypes)
    ensures store.serverApi == old(store.serverApi)
  {
    resync := false;
    var oldSequence := store.sequence;
    var pendingOffset: nat;
    var pendingCount := store.CountPendingMessages();
    if nextExpected - oldSequence > pendingCount {
      store.DeleteOldMessages();
      pendingOffset := 0;
      resync := true;
    } else if nextExpected > oldSequence {
      store.DeleteOldMessages();
      pendingOffset := nextExpected - oldSequence;
    } else if nextExpected < oldSequence - store.pendingOffset {
      pendingOffset := 0;
      resync := true;
    } else {
      pendingOffset := store.pendingOffset + nextExpected - oldSequence;
    }
    store.pendingOffset := pendingOffset;
    store.sequence := nextExpected;
  }

  // ---------------------------------------------------------------------------------
  // What an exchange does to the store
  // ---------------------------------------------------------------------------------

  /** The number the server is taken to expect. Without one it is taken to have processed the
      whole payload. */
  function NextExpected(s: Store, sent: nat, r: Response): int {
    if r.nextExpected.Some? then r.nextExpected.value else s.sequence + sent
  }

  function Negotiated(s: Store, serverApi: int, highest: int): int {
    if serverApi >= s.api then if serverApi <= highest then serverApi else highest else s.api
  }

  /** The handler of one message; `how` is what becomes of a message it adds. */
  function HandledOne(s: Store, message: ServerMessage, how: Adding): Store {
    match message
    case AcceptedTypes(types) => PendingMessages(SetAcceptedTypes(s, types), Some(1)).0
    case Resynchronize(id, _) => AddAs(s, how, Message(id, RESYNCHRONIZE, s.api))
    case OtherMessage => s
  }

  /** Handlers of the messages in a response, in order. */
  function Handled(s: Store, messages: seq<ServerMessage>, hows: seq<Adding>): Store
    requires |hows| == |messages|
    decreases |messages|
  {
    if messages == [] then s else Handled(HandledOne(s, messages[0], hows[0]), messages[1..], hows[1..])
  }

  /** `_handle_result`; `id` is the file number a resynchronize message for RESYNC would get. */
  function AfterResponse(s: Store, sent: nat, r: Response, highest: int, id: nat, how: Adding, hows: seq<Adding>): Store
    requires |hows| == |r.messages|
  {
    var (s1, resync) := GotNextExpected(s, NextExpected(s, sent, r));
    var s2 := if resync then AddAs(s1, how, Message(id, RESYNCHRONIZE, s1.api)) else s1;
    var s3 := s2.(api := Negotiated(s2, r.serverApi, highest));
    PendingMessages(Handled(s3, r.messages, hows), Some(1)).0
  }

  /** The accepted types after the messages of a response: the last ones sent, if any. */
  function LastTypes(types: set<string>, messages: seq<ServerMessage>): set<string> {
    if messages == [] then types
    else
      var last := messages[|messages| - 1];
      if last.AcceptedTypes? then last.types else LastTypes(types, messages[..|messages| - 1])
  }

  class MessageExchange {
    const store: MessageStore
    const maxMessages: nat
    /** The highest server API this client speaks. */
    const api: int
    var exchanging: bool

    constructor (store: MessageStore, maxMessages: nat, api: int)
      ensures this.store == store && this.maxMessages == maxMessages && this.api == api && !exchanging
    {
      this.store, this.maxMessages, this.api := store, maxMessages, api;
      exchanging := false;
    }

    /** `_make_payload`: the batch, the number of pending messages, the version it is for. */
    method MakePayload() returns (payload: Payload, totalMessages: nat, serverApi: int)
      requires store.Valid()
      modifies store`files, store`order
      ensures store.Valid()
      ensures var (s', ms) := PendingMessages(old(store.Model()), Some(maxMessages));
              && store.Model() == s' && payload == Payload(s'.sequence, Batch(ms))
              && totalMessages == PendingCount(s')
              && serverApi == if ms != [] then ms[0].api else s'.api
    {
      var messages := store.GetPendingMessages(Some(maxMessages));
      totalMessages := store.CountPendingMessages();
      if messages != [] {
        serverApi := messages[0].api;
        ghost var all := messages;
        var i := 0;
        while i < |messages| && messages[i].api == serverApi
          invariant 0 <= i <= |messages|
          invariant SameApi(all, serverApi) == all[..i] + SameApi(all[i..], serverApi)
        {
          assert all[i..][0] == all[i] && all[i..][1..] == all[i + 1..];
          assert all[..i + 1] == all[..i] + [all[i]];
          i := i + 1;
        }
        assert SameApi(all[i..], serverApi) == [];
        messages := messages[..i];
      } else {
        serverApi := store.serverApi;
      }
      payload := Payload(store.sequence, messages);
    }

    /** The start of `exchange`: nothing when one is under way already. */
    method BeginExchange() returns (payload: Option<Payload>)
      requires store.Valid()
      modifies this, store`files, store`order
      ensures store.Valid() && exchanging
      ensures old(exchanging) ==> payload == None && store.Model() == old(store.Model())
      ensures !old(exchanging) ==>
                var (s', ms) := PendingMessages(old(store.Model()), Some(maxMessages));
                store.Model() == s' && payload == Some(Payload(s'.sequence, Batch(ms)))
    {
      if exchanging {
        return None;
      }
      exchanging := true;
      var p, _, _ := MakePayload();
      payload := Some(p);
    }

    /** `_handle_result`. `how` and `hows` tell what becomes of the messages it adds. */
    method HandleResult(payload: Payload, result: Response, id: nat, tooLarge: bool)
      returns (ghost how: Adding, ghost hows: seq<Adding>)
      requires store.Valid()
      modifies store
      ensures store.Valid() && store.blackhole == old(store.blackhole) && |hows| == |result.messages|
      ensures store.Model() == AfterResponse(old(store.Model()), |payload.messages|, result, api, id, how, hows)
      ensures if store.blackhole then how == Rejected
              else how.Queued? && (|old(store.dirs)| <= store.maxDirs && !tooLarge ==> how == UNTRIMMED)
      ensures forall k :: 0 <= k < |hows| ==>
                hows[k].Rejected? == (store.blackhole || !result.messages[k].Resynchronize?)
      ensures result.serverApi < old(store.serverApi) ==> store.serverApi == old(store.serverApi)
      ensures result.serverApi >= old(store.serverApi) ==>
                store.serverApi == if result.serverApi <= api then result.serverApi else api
      ensures result.nextExpected.Some? ==> store.sequence == result.nextExpected.value
      ensures result.nextExpected.None? ==> store.sequence == old(store.sequence) + |payload.messages|
      ensures store.acceptedTypes == LastTypes(old(store.acceptedTypes), result.messages)
    {
      hide PendingMessages, SetAcceptedTypes, GotNextExpected, DiskOk, AddAs, Handled, HandledOne;
      ghost var s := store.Model();
      var nextExpected := if result.nextExpected.Some? then result.nextExpected.value
                          else store.sequence + |payload.messages|;
      var resync := GotNext(store, nextExpected);
      ghost var s1 := store.Model();
      assert |old(store.dirs)| <= store.maxDirs ==> |store.dirs| <= store.maxDirs by {
        Subset(store.dirs, old(store.dirs));
      }
      how := if store.blackhole then Rejected else UNTRIMMED;
      if resync {
        var messageId;
        messageId, how := store.AddMessage(id, RESYNCHRONIZE, None, tooLarge);
      }
      if result.serverApi >= store.serverApi {
        store.serverApi := if result.serverApi <= api then result.serverApi else api;
      }
      hows := HandleMessages(result.messages);
      var _ := store.GetPendingMessages(Some(1));
    }

    /** The loop over the messages of a response. */
    method HandleMessages(messages: seq<ServerMessage>) returns (ghost hows: seq<Adding>)
      requires store.Valid()
      modifies store
      ensures store.Valid() && store.blackhole == old(store.blackhole) && |hows| == |messages|
      ensures store.Model() == Handled(old(store.Model()), messages, hows)
      ensures store.sequence == old(store.sequence) && store.serverApi == old(store.serverApi)
      ensures store.acceptedTypes == LastTypes(old(store.acceptedTypes), messages)
      ensures forall k :: 0 <= k < |hows| ==> hows[k].Rejected? == (store.blackhole || !messages[k].Resynchronize?)
    {
      hide PendingMessages, SetAcceptedTypes, DiskOk, AddAs, Handled, HandledOne;
      ghost var s3 := store.Model();
      hows := [];
      HandledNone(s3);
      assert messages[..0] == [];
      for k := 0 to |messages|
        invariant store.Valid() && |hows| == k && store.blackhole == old(store.blackhole)
        invariant store.Model() == Handled(s3, messages[..k], hows)
        invariant store.sequence == s3.sequence && store.serverApi == s3.api
        invariant store.acceptedTypes == LastTypes(old(store.acceptedTypes), messages[..k])
        invariant forall j :: 0 <= j < k ==> hows[j].Rejected? == (store.blackhole || !messages[j].Resynchronize?)
      {
        ghost var one := HandleMessage(messages[k]);
        HandledSnoc(s3, messages[..k], hows, messages[k], one);
        assert messages[..k + 1] == messages[..k] + [messages[k]];
        hows := hows + [one];
      }
      assert messages[..|messages|] == messages;
    }

    /** `handle_message`, with `_handle_accepted_types` and `_handle_resynchronize`. */
    method HandleMessage(message: ServerMessage) returns (ghost how: Adding)
      requires store.Valid()
      modifies store
      ensures store.Valid() && store.blackhole == old(store.blackhole)
      ensures store.Model() == HandledOne(old(store.Model()), message, how)
      ensures match message
              case AcceptedTypes(types) =>
                && store.acceptedTypes == types
                && store.Model() == PendingMessages(SetAcceptedTypes(old(store.Model()), types), Some(1)).0
              case Resynchronize(id, _) =>
                && store.acceptedTypes == old(store.acceptedTypes)
                && store.Model() == AddAs(old(store.Model()), how, Message(id, "resynchronize", old(store.serverApi)))
              case OtherMessage => store.Model() == old(store.Model())
      ensures store.sequence == old(store.sequence) && store.serverApi == old(store.serverApi)
      ensures how.Rejected? == (store.blackhole || !message.Resynchronize?)
      ensures how.Queued? && |old(store.dirs)| <= store.maxDirs && !message.tooLarge ==> how == UNTRIMMED
    {
      how := Rejected;
      match message {
        case AcceptedTypes(types) =>
          store.SetTypes(types);
          var _ := store.GetPendingMessages(Some(1));
        case Resynchronize(id, tooLarge) =>
          var messageId;
          messageId, how := store.AddMessage(id, RESYNCHRONIZE, None, tooLarge);
        case OtherMessage =>
      }
    }

    /** The end of `exchange`: `handle_result`, or `handle_failure` when there was an error. */
    method FinishExchange(payload: Payload, ending: Ending, id: nat, tooLarge: bool, timestamp: int)
      returns (ghost how: Adding, ghost hows: seq<Adding>)
      requires store.Valid()
      modifies this, store
      ensures store.Valid() && !exchanging
      ensures match ending
              case Answered(response) =>
                && |hows| == |response.messages|
                && store.Model()
                   == AfterResponse(old(store.Model()), |payload.messages|, response, api, id, how, hows)
                && (if old(store.blackhole) then how == Rejected
                    else how.Queued? && (|old(store.dirs)| <= store.maxDirs && !tooLarge ==> how == UNTRIMMED))
                && (forall k :: 0 <= k < |hows| ==>
                      hows[k].Rejected? == (old(store.blackhole) || !response.messages[k].Resynchronize?))
                && !store.blackhole && store.firstFailureTime == None
                && store.acceptedTypes == LastTypes(old(store.acceptedTypes), response.messages)
                && (response.serverApi < old(store.serverApi) ==> store.serverApi == old(store.serverApi))
                && (response.serverApi >= old(store.serverApi) ==>
                      store.serverApi == if response.serverApi <= api then response.serverApi else api)
              case NoAnswer => store.Model() == old(store.Model()) && store.blackhole == old(store.blackhole)
              case Failed =>
                && store.firstFailureTime.Some?
                && store.Model() == AddAs(old(store.Model()), how, Message(id, "resynchronize", old(store.serverApi)))
                && store.serverApi == old(store.serverApi)
                && (how.Queued? <==> store.blackhole && !old(store.blackhole))
                && (how.Queued? && |old(store.dirs)| <= store.maxDirs && !tooLarge ==> how == UNTRIMMED)
    {
      exchanging := false;
      how, hows := Rejected, [];
      match ending {
        case Answered(response) =>
          how, hows := HandleResult(payload, response, id, tooLarge);
          store.RecordSuccess();
        case NoAnswer =>
        case Failed =>
          how := store.RecordFailure(timestamp, id, tooLarge);
      }
    }
  }

  lemma HandledNone(s: Store)
    ensures Handled(s, [], []) == s
  {
  }

  lemma {:induction false} HandledSnoc(s: Store, messages: seq<ServerMessage>, hows: seq<Adding>,
                                       message: ServerMessage, how: Adding)
    requires |hows| == |messages|
    ensures Handled(s, messages + [message], hows + [how]) == HandledOne(Handled(s, messages, hows), message, how)
    decreases |messages|
  {
    hide HandledOne;
    var all, every := messages + [message], hows + [how];
    if messages == [] {
      assert all[1..] == [] && every[1..] == [];
    } else {
      assert all[1..] == messages[1..] + [message] && every[1..] == hows[1..] + [how];
      HandledSnoc(HandledOne(s, messages[0], hows[0]), messages[1..], hows[1..], message, how);
    }
  }

  lemma Subset(a: set<nat>, b: set<nat>)
    requires a <= b
    ensures |a| <= |b|
  {
    assert b == a + (b - a);
  }

  // ---------------------------------------------------------------------------------
  // Refinement
  // ---------------------------------------------------------------------------------

  /** The ids of added messages are none of those in use, and all different. */
  ghost predicate FreshIds(used: set<nat>, messages: seq<ServerMessage>)
    decreases |messages|
  {
    messages == [] ||
    if messages[0].Resynchronize? then
      messages[0].id !in used && FreshIds(used + {messages[0].id}, messages[1..])
    else FreshIds(used, messages[1..])
  }

  ghost predicate InUse(used: set<nat>, s: System) {
    forall m :: m in s.added ==> m.id in used
  }

  function OneSteps(message: ServerMessage, how: Adding, api: int): seq<Step> {
    match message
    case AcceptedTypes(types) => [ChangeTypes(types)] + [Peek]
    case Resynchronize(id, _) => AddSteps(how, Message(id, RESYNCHRONIZE, api))
    case OtherMessage => []
  }

  function HandlerSteps(messages: seq<ServerMessage>, hows: seq<Adding>, api: int): seq<Step>
    requires |hows| == |messages|
    decreases |messages|
  {
    if messages == [] then []
    else OneSteps(messages[0], hows[0], api) + HandlerSteps(messages[1..], hows[1..], api)
  }

  /** The steps that handling a response takes in `Delivery`. */
  function ResponseSteps(c: Store, sent: nat, r: Response, highest: int, id: nat, how: Adding, hows: seq<Adding>)
    : seq<Step>
    requires |hows| == |r.messages|
  {
    var (c1, again) := GotNextExpected(c, NextExpected(c, sent, r));
    var api := Negotiated(c1, r.serverApi, highest);
    var first := if again then AddSteps(how, Message(id, RESYNCHRONIZE, c1.api)) else [];
    [Complete] + (first + ([ChangeApi(api)] + (HandlerSteps(r.messages, hows, api) + ([Peek] + [DoneHandling]))))
  }

  /** The handler of one message does no damage. */
  predicate OneSafe(s: System, message: ServerMessage, how: Adding) {
    message.Resynchronize? ==> AddSafe(s, how)
  }

  function OneSystem(s: System, message: ServerMessage, how: Adding): System
    requires Valid(s.client) && OneSafe(s, message, how)
  {
    match message
    case AcceptedTypes(types) => s.(client := PendingMessages(SetAcceptedTypes(s.client, types), Some(1)).0)
    case Resynchronize(id, _) => AddedAs(s, how, Message(id, RESYNCHRONIZE, s.client.api))
    case OtherMessage => s
  }

  ghost predicate HandlersSafe(s: System, messages: seq<ServerMessage>, hows: seq<Adding>)
    requires |hows| == |messages|
    decreases |messages|
  {
    messages == []
    || (&& Valid(s.client) && OneSafe(s, messages[0], hows[0])
        && HandlersSafe(OneSystem(s, messages[0], hows[0]), messages[1..], hows[1..]))
  }

  /** Once RESYNC has been answered and the API version set. */
  ghost function Prepared(s: System, r: Response, highest: int, id: nat, how: Adding): System
    requires Valid(s.client) && s.phase.Waiting? && s.phase.reply.Some? && ResyncSafe(s, how)
  {
    var t := Completed(s, s.phase.reply.value);
    var u := if t.resyncs > s.resyncs then AddedAs(t, how, Message(id, RESYNCHRONIZE, t.client.api)) else t;
    u.(client := u.client.(api := Negotiated(u.client, r.serverApi, highest)))
  }

  /** If there is a RESYNC, the message queued for it does no damage. */
  ghost predicate ResyncSafe(s: System, how: Adding)
    requires Valid(s.client) && s.phase.Waiting? && s.phase.reply.Some?
  {
    var t := Completed(s, s.phase.reply.value);
    t.resyncs > s.resyncs ==> Valid(t.client) && AddSafe(t, how)
  }

  /** No message added while a response is handled does any damage. */
  ghost predicate ResponseSafe(s: System, r: Response, highest: int, id: nat, how: Adding, hows: seq<Adding>)
    requires |hows| == |r.messages| && Valid(s.client) && s.phase.Waiting? && s.phase.reply.Some?
  {
    ResyncSafe(s, how) && HandlersSafe(Prepared(s, r, highest, id, how), r.messages, hows)
  }

  /** One handler, as steps; `more` can go on from the system it leaves. */
  lemma OneIsSteps(max: nat, s: System, message: ServerMessage, how: Adding, used: set<nat>, more: seq<Step>)
    requires Inv(max, s) && s.phase.Handling? && InUse(used, s) && OneSafe(s, message, how)
    requires message.Resynchronize? ==> message.id !in used
    ensures Valid(s.client)
    ensures var t, steps := OneSystem(s, message, how), OneSteps(message, how, s.client.api);
            && Inv(max, t) && t.phase.Handling? && t.client == HandledOne(s.client, message, how)
            && InUse(if message.Resynchronize? then used + {message.id} else used, t)
            && t.client.api == s.client.api
            && CanRun(max, s, steps + more) == CanRun(max, t, more)
            && (CanRun(max, t, more) ==> Run(max, s, steps + more) == Run(max, t, more))
  {
    hide Inv, CanRun, Run, SetAcceptedTypes, PendingMessages, AddAs, AddedAs, AddSafe, AddSteps;
    InvValid(max, s);
    match message
    case AcceptedTypes(types) =>
      Regroup([ChangeTypes(types)], [Peek], more);
      FirstStep(max, s, ChangeTypes(types), [Peek] + more);
      FirstStep(max, Apply(max, s, ChangeTypes(types)), Peek, more);
      KeepsOthers(s.client, types);
    case Resynchronize(id, _) =>
      var m := Message(id, RESYNCHRONIZE, s.client.api);
      AddIsSteps(max, s, how, m, more);
      AddedAsClient(s, how, m);
    case OtherMessage =>
      assert [] + more == more;
  }

  lemma KeepsOthers(c: Store, types: set<string>)
    ensures PendingMessages(SetAcceptedTypes(c, types), Some(1)).0.api == c.api
  {
  }

  /** The handlers of the messages in a response, as steps. */
  lemma {:induction false} HandlersAreSteps(max: nat, s: System, messages: seq<ServerMessage>, hows: seq<Adding>,
                                            used: set<nat>, more: seq<Step>) returns (t: System)
    requires Inv(max, s) && s.phase.Handling? && InUse(used, s) && FreshIds(used, messages)
    requires |hows| == |messages| && HandlersSafe(s, messages, hows)
    ensures Inv(max, t) && t.phase.Handling? && t.client == Handled(s.client, messages, hows)
    ensures CanRun(max, s, HandlerSteps(messages, hows, s.client.api) + more) == CanRun(max, t, more)
    ensures CanRun(max, t, more) ==>
              Run(max, s, HandlerSteps(messages, hows, s.client.api) + more) == Run(max, t, more)
    decreases |messages|
  {
    hide Inv, CanRun, Run, HandledOne, OneSteps, OneSystem, OneSafe, InUse;
    var api := s.client.api;
    if messages == [] {
      assert HandlerSteps(messages, hows, api) + more == more;
      t := s;
    } else {
      var rest, after := messages[1..], hows[1..];
      var used' := if messages[0].Resynchronize? then used + {messages[0].id} else used;
      Regroup(OneSteps(messages[0], hows[0], api), HandlerSteps(rest, after, api), more);
      OneIsSteps(max, s, messages[0], hows[0], used, HandlerSteps(rest, after, api) + more);
      t := HandlersAreSteps(max, OneSystem(s, messages[0], hows[0]), rest, after, used', more);
    }
  }

  /** The start of the handling, as steps. */
  lemma PreparedSteps(max: nat, s: System, r: Response, highest: int, id: nat, how: Adding, used: set<nat>,
                      more: seq<Step>)
    requires Inv(max, s) && s.phase.Waiting? && s.phase.reply.Some? && InUse(used, s) && id !in used
    requires NextExpected(s.client, |s.phase.payload.messages|, r) == s.phase.reply.value
    requires Valid(s.client) && ResyncSafe(s, how)
    ensures var (c1, again) := GotNextExpected(s.client, s.phase.reply.value);
            var first := if again then AddSteps(how, Message(id, RESYNCHRONIZE, c1.api)) else [];
            var t, api := Prepared(s, r, highest, id, how), Negotiated(c1, r.serverApi, highest);
            var c2 := if again then AddAs(c1, how, Message(id, RESYNCHRONIZE, c1.api)) else c1;
            && Inv(max, t) && t.phase.Handling? && InUse(used + {id}, t)
            && t.client == c2.(api := Negotiated(c2, r.serverApi, highest)) && t.client.api == api
            && CanRun(max, s, [Complete] + (first + ([ChangeApi(api)] + more))) == CanRun(max, t, more)
            && (CanRun(max, t, more) ==>
                  Run(max, s, [Complete] + (first + ([ChangeApi(api)] + more))) == Run(max, t, more))
  {
    hide Inv, CanRun, Run, DropLive, AddAs, AddedAs, AddSafe, AddSteps, Live;
    var (c1, again) := GotNextExpected(s.client, s.phase.reply.value);
    var m, api := Message(id, RESYNCHRONIZE, c1.api), Negotiated(c1, r.serverApi, highest);
    var first := if again then AddSteps(how, m) else [];
    FirstStep(max, s, Complete, first + ([ChangeApi(api)] + more));
    var s1 := Apply(max, s, Complete);
    var s2 := s1;
    if again {
      AddIsSteps(max, s1, how, m, [ChangeApi(api)] + more);
      AddedAsClient(s1, how, m);
      s2 := AddedAs(s1, how, m);
    } else {
      assert [] + ([ChangeApi(api)] + more) == [ChangeApi(api)] + more;
    }
    FirstStep(max, s2, ChangeApi(api), more);
  }

  /** Handling a response on the store, added messages rejected or not, is a run of `Delivery` from
      the moment the response is there to the end of the exchange, as long as no added message
      does damage by trimming. */
  lemma ResponseIsSteps(max: nat, s: System, r: Response, highest: int, id: nat, how: Adding, hows: seq<Adding>,
                        used: set<nat>)
    requires Inv(max, s) && s.phase.Waiting? && s.phase.reply.Some? && |hows| == |r.messages|
    requires NextExpected(s.client, |s.phase.payload.messages|, r) == s.phase.reply.value
    requires InUse(used, s) && id !in used && FreshIds(used + {id}, r.messages)
    requires Valid(s.client) && ResponseSafe(s, r, highest, id, how, hows)
    ensures var sent := |s.phase.payload.messages|;
            var steps := ResponseSteps(s.client, sent, r, highest, id, how, hows);
            && CanRun(max, s, steps)
            && Run(max, s, steps).client == AfterResponse(s.client, sent, r, highest, id, how, hows)
            && Run(max, s, steps).phase.Idle?
  {
    hide Inv, CanRun, Run, GotNextExpected, SetAcceptedTypes, PendingMessages, AddAs, Handled, HandlerSteps, Prepared,
         ResyncSafe, HandlersSafe, Negotiated, NextExpected, AddSteps, Apply, InUse, FreshIds;
    var (c1, again) := GotNextExpected(s.client, s.phase.reply.value);
    var t, api, last := Prepared(s, r, highest, id, how), Negotiated(c1, r.serverApi, highest), [Peek] + [DoneHandling];
    var first := if again then AddSteps(how, Message(id, RESYNCHRONIZE, c1.api)) else [];
    PreparedSteps(max, s, r, highest, id, how, used, HandlerSteps(r.messages, hows, api) + last);
    var s3 := HandlersAreSteps(max, t, r.messages, hows, used + {id}, last);
    LastSteps(max, s3);
    assert ResponseSteps(s.client, |s.phase.payload.messages|, r, highest, id, how, hows)
        == [Complete] + (first + ([ChangeApi(api)] + (HandlerSteps(r.messages, hows, api) + last)));
  }

  /** The end of the handling. */
  lemma LastSteps(max: nat, s: System)
    requires Inv(max, s) && s.phase.Handling?
    ensures CanRun(max, s, [Peek] + [DoneHandling])
    ensures var t := Run(max, s, [Peek] + [DoneHandling]);
            t.phase.Idle? && t.client == PendingMessages(s.client, Some(1)).0
  {
    hide Inv, CanRun, Run, PendingMessages;
    FirstStep(max, s, Peek, [DoneHandling]);
    var t := Apply(max, s, Peek);
    assert [DoneHandling] == [DoneHandling] + [];
    FirstStep(max, t, DoneHandling, []);
    NoSteps(max, Apply(max, t, DoneHandling));
  }

  /** Handlers that reject or do not trim do no damage. */
  lemma {:induction false} HarmlessHandlers(max: nat, s: System, messages: seq<ServerMessage>, hows: seq<Adding>,
                                            used: set<nat>)
    requires Inv(max, s) && s.phase.Handling? && InUse(used, s) && FreshIds(used, messages)
    requires |hows| == |messages|
    requires forall k :: 0 <= k < |messages| && messages[k].Resynchronize? ==> Harmless(hows[k])
    ensures HandlersSafe(s, messages, hows)
    decreases |messages|
  {
    hide Inv, OneSystem, InUse, Harmless, AddSafe;
    if messages != [] {
      var used' := if messages[0].Resynchronize? then used + {messages[0].id} else used;
      if messages[0].Resynchronize? {
        HarmlessSafe(s, hows[0]);
      }
      OneIsSteps(max, s, messages[0], hows[0], used, []);
      HarmlessHandlers(max, OneSystem(s, messages[0], hows[0]), messages[1..], hows[1..], used');
    }
  }

  /** A response is safe if every message it adds is rejected or trims nothing; whether there is one
      for RESYNC does not matter as long as there is no RESYNC. */
  lemma HarmlessResponse(max: nat, s: System, r: Response, highest: int, id: nat, how: Adding, hows: seq<Adding>,
                         used: set<nat>)
    requires Inv(max, s) && s.phase.Waiting? && s.phase.reply.Some? && |hows| == |r.messages|
    requires NextExpected(s.client, |s.phase.payload.messages|, r) == s.phase.reply.value
    requires InUse(used, s) && id !in used && FreshIds(used + {id}, r.messages)
    requires forall k :: 0 <= k < |hows| && r.messages[k].Resynchronize? ==> Harmless(hows[k])
    ensures Valid(s.client)
    ensures Harmless(how) || !GotNextExpected(s.client, s.phase.reply.value).1 ==>
              ResponseSafe(s, r, highest, id, how, hows)
  {
    hide Inv, GotNextExpected, Prepared, Harmless, Negotiated, AddSafe, HandlersSafe, FreshIds, InUse, NextExpected;
    InvValid(max, s);
    FirstStep(max, s, Complete, []);
    InvValid(max, Apply(max, s, Complete));
    if Harmless(how) || !GotNextExpected(s.client, s.phase.reply.value).1 {
      if Harmless(how) {
        HarmlessSafe(Completed(s, s.phase.reply.value), how);
      }
      PreparedSteps(max, s, r, highest, id, how, used, []);
      HarmlessHandlers(max, Prepared(s, r, highest, id, how), r.messages, hows, used + {id});
    }
  }

  /** A response without a number means what one with the number would have meant, as long as
      the server has forgotten nothing. */
  lemma SilentAcknowledgement(max: nat, s: System, serverApi: int, messages: seq<ServerMessage>)
    requires Inv(max, s) && s.phase.Waiting? && s.phase.reply.Some? && !s.rolledBack
    ensures NextExpected(s.client, |s.phase.payload.messages|, Response(None, serverApi, messages))
         == s.phase.reply.value
  {
  }

  /** A response with the receiver's number, no messages and no new API version makes of the store
      what the completed exchange does that the results about exchanges are about. */
  lemma PlainResponse(max: nat, s: System, r: Response, highest: int, id: nat)
    requires Inv(max, s) && s.phase.Idle? && forall m :: m in s.added ==> m.id != id
    requires r.messages == [] && Negotiated(s.client, r.serverApi, highest) == s.client.api
    requires r.nextExpected == Some(|Receive(s.log, Start(max, s).phase.payload)|)
    ensures Message(id, RESYNCHRONIZE, s.client.api) !in s.added
    ensures AfterResponse(Start(max, s).client, |Start(max, s).phase.payload.messages|, r, highest, id, UNTRIMMED, [])
         == DE.Exchange(max, s, Message(id, RESYNCHRONIZE, s.client.api)).client
  {
    hide Inv, PendingMessages, GotNextExpected, Receive, Batch;
    InvValid(max, s);
    DE.StartClient(max, s);
    StartKeeps(max, s);
    InvValid(max, Start(max, s));
    KeepsApi(Start(max, s).client, r.nextExpected.value);
    var c := GotNextExpected(Start(max, s).client, r.nextExpected.value).0;
    AddUntrimmed(c, Message(id, RESYNCHRONIZE, c.api));
  }

  /** The message that asks for a resync carries the version in use before the response. */
  lemma ResyncTagged(s: Store, sent: nat, r: Response, highest: int, id: nat)
    requires Valid(s) && r.messages == []
    ensures var (s', resync) := GotNextExpected(s, NextExpected(s, sent, r));
            resync ==>
              Messages(AfterResponse(s, sent, r, highest, id, UNTRIMMED, []).queue)
              == Messages(s'.queue) + [Message(id, "resynchronize", s.api)]
  {
    hide PendingMessages, GotNextExpected;
    var next := NextExpected(s, sent, r);
    GotNextExpectedFacts(s, next);
    var s1 := GotNextExpected(s, next).0;
    var m := Message(id, "resynchronize", s.api);
    AddUntrimmed(s1, m);
    AddFacts(s1, m);
    MessagesConcat(s1.queue, [Entry(m, !s1.Accepts(m))]);
    PendingFacts(Add(s1, m).(api := Negotiated(s1, r.serverApi, highest)), Some(1));
  }

  lemma KeepsApi(c: Store, next: int)
    ensures GotNextExpected(c, next).0.api == c.api && GotNextExpected(c, next).0.types == c.types
  {
  }
}

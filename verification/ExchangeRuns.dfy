/** Exchanges of a client with its store on disk, and the runs of `Delivery` they are: begun,
    ended in any way, with messages added before, after and while one is under way, and with
    restarts. */
module ExchangeRuns {
  import opened Common
  import opened SM = StoreModel
  import opened MessageStore
  import opened Delivery
  import opened DeliveryRuns
  import opened DeliveryTrims
  import opened Exchange

  // ---------------------------------------------------------------------------------
  // Endings as steps
  // ---------------------------------------------------------------------------------

  /** A response is the receiver's: its number is the one the receiver answered the payload with,
      or is left out and taken for that. */
  ghost predicate Truthful(s: System, ending: Ending)
    requires s.phase.Waiting?
  {
    ending.Answered? ==>
      && s.phase.reply.Some?
      && NextExpected(s.client, |s.phase.payload.messages|, ending.response) == s.phase.reply.value
  }

  /** The message ids are not in use. */
  ghost predicate Unused(used: set<nat>, s: System, ending: Ending, id: nat) {
    InUse(used, s) && id !in used && (ending.Answered? ==> FreshIds(used + {id}, ending.response.messages))
  }

  predicate Fits(ending: Ending, hows: seq<Adding>) {
    ending.Answered? ==> |hows| == |ending.response.messages|
  }

  function EndingSteps(c: Store, sent: nat, ending: Ending, highest: int, id: nat, how: Adding, hows: seq<Adding>)
    : seq<Step>
    requires Fits(ending, hows)
  {
    match ending
    case Answered(r) => ResponseSteps(c, sent, r, highest, id, how, hows)
    case NoAnswer => [Fail]
    case Failed => [Fail] + AddSteps(how, Message(id, RESYNCHRONIZE, c.api))
  }

  /** What an ending makes of the store. */
  function EndingStore(c: Store, sent: nat, ending: Ending, highest: int, id: nat, how: Adding, hows: seq<Adding>)
    : Store
    requires Fits(ending, hows)
  {
    match ending
    case Answered(r) => AfterResponse(c, sent, r, highest, id, how, hows)
    case NoAnswer => c
    case Failed => AddAs(c, how, Message(id, RESYNCHRONIZE, c.api))
  }

  /** No message added at the end of the exchange does damage. */
  ghost predicate EndingSafe(s: System, ending: Ending, highest: int, id: nat, how: Adding, hows: seq<Adding>)
    requires Valid(s.client) && s.phase.Waiting? && Fits(ending, hows) && Truthful(s, ending)
  {
    match ending
    case Answered(r) => ResponseSafe(s, r, highest, id, how, hows)
    case NoAnswer => true
    case Failed => AddSafe(s.(phase := Idle), how)
  }

  /** The end of an exchange, whatever it is, is steps, as long as no message added then does
      damage. */
  lemma EndingIsSteps(max: nat, s: System, ending: Ending, highest: int, id: nat, how: Adding, hows: seq<Adding>,
                      used: set<nat>)
    requires Inv(max, s) && s.phase.Waiting? && Fits(ending, hows)
    requires Truthful(s, ending) && Unused(used, s, ending, id)
    requires Valid(s.client) && EndingSafe(s, ending, highest, id, how, hows)
    ensures var sent := |s.phase.payload.messages|;
            var steps := EndingSteps(s.client, sent, ending, highest, id, how, hows);
            && CanRun(max, s, steps) && Run(max, s, steps).phase.Idle?
            && Run(max, s, steps).client == EndingStore(s.client, sent, ending, highest, id, how, hows)
  {
    hide Inv, CanRun, Run, ResponseSteps, AfterResponse, ResponseSafe, FreshIds, NextExpected, AddSafe, AddAs, AddSteps;
    match ending
    case Answered(r) =>
      ResponseIsSteps(max, s, r, highest, id, how, hows, used);
    case NoAnswer =>
      assert [Fail] == [Fail] + [];
      FirstStep(max, s, Fail, []);
      NoSteps(max, Apply(max, s, Fail));
    case Failed =>
      var m := Message(id, RESYNCHRONIZE, s.client.api);
      FirstStep(max, s, Fail, AddSteps(how, m));
      var t := Apply(max, s, Fail);
      assert AddSteps(how, m) == AddSteps(how, m) + [];
      AddIsSteps(max, t, how, m, []);
      AddedAsClient(t, how, m);
      NoSteps(max, AddedAs(t, how, m));
  }

  /** When the end is safe for certain. */
  lemma HarmlessEnding(max: nat, s: System, ending: Ending, highest: int, id: nat, how: Adding, hows: seq<Adding>,
                       used: set<nat>)
    requires Inv(max, s) && s.phase.Waiting? && Fits(ending, hows)
    requires Truthful(s, ending) && Unused(used, s, ending, id)
    requires ending.Answered? ==>
               && (Harmless(how) || !s.rolledBack)
               && forall k :: 0 <= k < |hows| && ending.response.messages[k].Resynchronize? ==> Harmless(hows[k])
    requires ending.Failed? ==> Harmless(how)
    ensures Valid(s.client) && EndingSafe(s, ending, highest, id, how, hows)
  {
    hide Inv, ResponseSafe, FreshIds, NextExpected, AddSafe, Harmless, InUse;
    InvValid(max, s);
    match ending
    case Answered(r) =>
      HarmlessResponse(max, s, r, highest, id, how, hows, used);
      if !s.rolledBack {
        NoResync(max, s);
      }
    case NoAnswer =>
    case Failed =>
      HarmlessSafe(s.(phase := Idle), how);
  }

  /** A server that has forgotten nothing never causes RESYNC. */
  lemma NoResync(max: nat, s: System)
    requires Inv(max, s) && s.phase.Waiting? && s.phase.reply.Some? && !s.rolledBack
    ensures !GotNextExpected(s.client, s.phase.reply.value).1
  {
    hide GotNextExpected, Repeatable, InFlight, Live;
    CompleteKeeps(max, s);
  }

  // ---------------------------------------------------------------------------------
  // No ending rolls the server back
  // ---------------------------------------------------------------------------------

  lemma ForgetNothing(a: seq<Step>, b: seq<Step>)
    requires NoRollback(a) && NoRollback(b)
    ensures NoRollback(a + b)
  {
  }

  lemma EndingForgets(c: Store, sent: nat, ending: Ending, highest: int, id: nat, how: Adding, hows: seq<Adding>)
    requires Fits(ending, hows)
    ensures NoRollback(EndingSteps(c, sent, ending, highest, id, how, hows))
  {
    if ending.Answered? {
      hide GotNextExpected, NextExpected, Negotiated, HandlerSteps;
      var r := ending.response;
      var (c1, again) := GotNextExpected(c, NextExpected(c, sent, r));
      HandlersForget(r.messages, hows, Negotiated(c1, r.serverApi, highest));
    }
  }

  lemma {:induction false} HandlersForget(messages: seq<ServerMessage>, hows: seq<Adding>, api: int)
    requires |hows| == |messages|
    ensures NoRollback(HandlerSteps(messages, hows, api))
    decreases |messages|
  {
    if messages != [] {
      HandlersForget(messages[1..], hows[1..], api);
      ForgetNothing(OneSteps(messages[0], hows[0], api), HandlerSteps(messages[1..], hows[1..], api));
    }
  }

  // ---------------------------------------------------------------------------------
  // The client on disk
  // ---------------------------------------------------------------------------------

  /** A client somewhere on a run: its store on disk is the store of the system there, and an
      exchange is under way in both or in neither. */
  ghost predicate On(exchange: MessageExchange, start: System, past: seq<Step>)
    reads exchange, exchange.store
  {
    var max := exchange.maxMessages;
    && exchange.store.Valid() && Inv(max, start) && CanRun(max, start, past)
    && var s := Run(max, start, past);
       && s.client == exchange.store.Model() && !s.phase.Handling?
       && (exchange.exchanging <==> s.phase.Waiting?)
  }

  /** What has been promised of runs holds of the store on disk. */
  lemma OnDisk(exchange: MessageExchange, start: System, past: seq<Step>)
    requires On(exchange, start, past) && Initial(start) && NoRollback(past)
    ensures Delivered(Run(exchange.maxMessages, start, past))
    ensures Run(exchange.maxMessages, start, past).client == exchange.store.Model()
  {
    ReliableDelivery(exchange.maxMessages, start, past);
  }

  lemma OnInv(exchange: MessageExchange, start: System, past: seq<Step>)
    requires On(exchange, start, past)
    ensures Inv(exchange.maxMessages, Run(exchange.maxMessages, start, past))
  {
    RunKeeps(exchange.maxMessages, start, past);
  }

  /** A client that has just started is on the run without steps. */
  method NewClient(directorySize: nat, maxDirs: nat, serverApi: int, maxMessages: nat, api: int)
    returns (exchange: MessageExchange, ghost start: System)
    requires directorySize > 0
    ensures fresh(exchange) && fresh(exchange.store) && Initial(start) && On(exchange, start, [])
    ensures exchange.maxMessages == maxMessages && exchange.api == api && exchange.store.maxDirs == maxDirs
    ensures exchange.store.serverApi == serverApi
  {
    var store := new MessageStore(directorySize, maxDirs, serverApi);
    exchange := new MessageExchange(store, maxMessages, api);
    start := START.(client := store.Model());
    InitialInv(maxMessages, start);
    NoSteps(maxMessages, start);
  }

  /** A client restarted on what another one left is on the same run; an exchange that was under
      way has failed. */
  method Restart(exchange: MessageExchange, ghost start: System, ghost past: seq<Step>)
    returns (again: MessageExchange, ghost steps: seq<Step>)
    requires On(exchange, start, past)
    ensures fresh(again) && fresh(again.store) && again.maxMessages == exchange.maxMessages && again.api == exchange.api
    ensures On(again, start, past + steps) && NoRollback(steps)
    ensures again.store.serverApi == exchange.store.serverApi
  {
    hide Inv, CanRun, Run, DiskOk;
    ghost var max, s := exchange.maxMessages, Run(exchange.maxMessages, start, past);
    var store := new MessageStore.Reopen(exchange.store);
    again := new MessageExchange(store, exchange.maxMessages, exchange.api);
    steps := if s.phase.Waiting? then [Fail] else [];
    OnInv(exchange, start, past);
    NoSteps(max, s);
    if s.phase.Waiting? {
      assert [Fail] == [Fail] + [];
      FirstStep(max, s, Fail, []);
      NoSteps(max, Apply(max, s, Fail));
    }
    RunAppend(max, start, past, steps);
  }

  /** Adding a message, between exchanges or while one is under way. Whether it is rejected,
      queued, or queued after trimming or clearing, as long as that does no damage the client is on
      a longer run afterwards. */
  method SendMessage(exchange: MessageExchange, id: nat, kind: string, tooLarge: bool,
                     ghost start: System, ghost past: seq<Step>)
    returns (messageId: Option<nat>, ghost how: Adding, ghost steps: seq<Step>)
    requires On(exchange, start, past)
    requires forall m :: m in Run(exchange.maxMessages, start, past).added ==> m.id != id
    modifies exchange.store
    ensures exchange.store.Valid() && NoRollback(steps)
    ensures messageId == if old(exchange.store.blackhole) then None else Some(id)
    ensures exchange.store.serverApi == old(exchange.store.serverApi)
    ensures AddSafe(Run(exchange.maxMessages, start, past), how) ==> On(exchange, start, past + steps)
    ensures (old(exchange.store.blackhole)
             || (|old(exchange.store.dirs)| <= exchange.store.maxDirs && !tooLarge))
            ==> On(exchange, start, past + steps)
  {
    hide Inv, CanRun, Run, DiskOk, AddAs, AddSafe, AddSteps;
    ghost var max, s := exchange.maxMessages, Run(exchange.maxMessages, start, past);
    ghost var m := Message(id, kind, exchange.store.serverApi);
    OnInv(exchange, start, past);
    messageId, how := exchange.store.AddMessage(id, kind, None, tooLarge);
    steps := AddSteps(how, m);
    AddsForget(how, m);
    if Harmless(how) {
      HarmlessSafe(s, how);
    }
    if AddSafe(s, how) {
      SentSteps(max, start, past, how, m);
    }
  }

  lemma AddsForget(how: Adding, m: Message)
    ensures NoRollback(AddSteps(how, m))
  {
  }

  /** An `add` as the end of a run. */
  lemma SentSteps(max: nat, start: System, past: seq<Step>, how: Adding, m: Message)
    requires Inv(max, start) && CanRun(max, start, past)
    requires AddSafe(Run(max, start, past), how) && m !in Run(max, start, past).added
    ensures CanRun(max, start, past + AddSteps(how, m))
    ensures var s, t := Run(max, start, past), Run(max, start, past + AddSteps(how, m));
            t.client == AddAs(s.client, how, m) && t.phase == s.phase
  {
    hide Inv, CanRun, Run, AddAs, AddSafe, AddSteps;
    var s, steps := Run(max, start, past), AddSteps(how, m);
    RunKeeps(max, start, past);
    AddIsSteps(max, s, how, m, []);
    AddedAsClient(s, how, m);
    NoSteps(max, AddedAs(s, how, m));
    assert steps + [] == steps;
    RunAppend(max, start, past, steps);
  }

  /** The beginning of an exchange, or nothing when one is under way. */
  method Begin(exchange: MessageExchange, ghost start: System, ghost past: seq<Step>)
    returns (payload: Option<Payload>, ghost steps: seq<Step>)
    requires On(exchange, start, past)
    modifies exchange, exchange.store
    ensures On(exchange, start, past + steps) && NoRollback(steps) && exchange.exchanging
    ensures payload.None? <==> old(exchange.exchanging)
    ensures payload.Some? ==> Run(exchange.maxMessages, start, past + steps).phase == Waiting(payload.value, None)
    ensures exchange.store.blackhole == old(exchange.store.blackhole) && exchange.store.dirs == old(exchange.store.dirs)
    ensures steps == if old(exchange.exchanging) then [] else [StartExchange]
    ensures exchange.store.serverApi == old(exchange.store.serverApi)
  {
    hide Inv, CanRun, Run, DiskOk, PendingMessages, Batch;
    ghost var max, s := exchange.maxMessages, Run(exchange.maxMessages, start, past);
    OnInv(exchange, start, past);
    steps := if exchange.exchanging then [] else [StartExchange];
    NoSteps(max, s);
    if !exchange.exchanging {
      assert [StartExchange] == [StartExchange] + [];
      FirstStep(max, s, StartExchange, []);
      NoSteps(max, Apply(max, s, StartExchange));
    }
    payload := exchange.BeginExchange();
    RunAppend(max, start, past, steps);
  }

  /** The request reaches the server. */
  lemma RequestArrives(exchange: MessageExchange, start: System, past: seq<Step>)
    requires On(exchange, start, past) && exchange.exchanging
    ensures On(exchange, start, past + [Deliver])
    ensures var s, t := Run(exchange.maxMessages, start, past), Run(exchange.maxMessages, start, past + [Deliver]);
            && t.log == Receive(s.log, s.phase.payload) && t.phase == s.phase.(reply := Some(|t.log|))
            && t.added == s.added && t.client == s.client
  {
    hide Inv, CanRun, Run, DiskOk, Receive;
    var max, s := exchange.maxMessages, Run(exchange.maxMessages, start, past);
    OnInv(exchange, start, past);
    assert [Deliver] == [Deliver] + [];
    FirstStep(max, s, Deliver, []);
    NoSteps(max, Apply(max, s, Deliver));
    RunAppend(max, start, past, [Deliver]);
  }

  /** The end of an exchange. As long as no message added then does damage by trimming, the client
      is on a longer run afterwards. That is so whenever nothing is trimmed: the ending is empty;
      the store rejects what is added; or the response asks for no resynchronization and either
      the store is below its limits or the server has forgotten nothing. */
  method Finish(exchange: MessageExchange, payload: Payload, ending: Ending, id: nat, tooLarge: bool, timestamp: int,
                ghost start: System, ghost past: seq<Step>, ghost used: set<nat>)
    returns (ghost how: Adding, ghost hows: seq<Adding>, ghost steps: seq<Step>)
    requires On(exchange, start, past) && exchange.exchanging
    requires var s := Run(exchange.maxMessages, start, past);
             s.phase.payload == payload && Truthful(s, ending) && Unused(used, s, ending, id)
    modifies exchange, exchange.store
    ensures exchange.store.Valid() && !exchange.exchanging && NoRollback(steps) && Fits(ending, hows)
    ensures Valid(Run(exchange.maxMessages, start, past).client)
    ensures EndingSafe(Run(exchange.maxMessages, start, past), ending, exchange.api, id, how, hows) ==>
              On(exchange, start, past + steps)
    ensures exchange.store.serverApi == NewApi(old(exchange.store.serverApi), ending, exchange.api)
    ensures old(exchange.store.serverApi) <= exchange.api ==>
              old(exchange.store.serverApi) <= exchange.store.serverApi <= exchange.api
    ensures ending.NoAnswer? ==> On(exchange, start, past + steps)
    ensures ending.Failed? && exchange.store.blackhole == old(exchange.store.blackhole) ==>
              On(exchange, start, past + steps)
    ensures ending.Answered? && old(exchange.store.blackhole) ==> On(exchange, start, past + steps)
    ensures ending.Answered? && Quiet(ending.response) && Initial(start) && NoRollback(past) ==>
              On(exchange, start, past + steps)
    ensures (&& |old(exchange.store.dirs)| <= exchange.store.maxDirs && !tooLarge
             && (ending.Answered? ==> Quiet(ending.response)))
            ==> On(exchange, start, past + steps)
  {
    hide Inv, CanRun, Run, DiskOk, EndingSteps, EndingSafe, Truthful, Unused, AfterResponse, AddAs;
    ghost var max, s := exchange.maxMessages, Run(exchange.maxMessages, start, past);
    OnInv(exchange, start, past);
    InvValid(max, s);
    how, hows := exchange.FinishExchange(payload, ending, id, tooLarge, timestamp);
    steps := EndingSteps(s.client, |payload.messages|, ending, exchange.api, id, how, hows);
    EndingForgets(s.client, |payload.messages|, ending, exchange.api, id, how, hows);
    if Initial(start) && NoRollback(past) {
      NeverForgot(max, start, past);
    }
    if ending.NoAnswer? || (ending.Failed? && Harmless(how))
       || (ending.Answered? && (Harmless(how) || !s.rolledBack)
           && forall k :: 0 <= k < |hows| && ending.response.messages[k].Resynchronize? ==> Harmless(hows[k])) {
      HarmlessEnding(max, s, ending, exchange.api, id, how, hows, used);
    }
    if EndingSafe(s, ending, exchange.api, id, how, hows) {
      EndingIsSteps(max, s, ending, exchange.api, id, how, hows, used);
      RunAppend(max, start, past, steps);
    }
  }

  /** The version spoken after an exchange: the server's, as far as the client can, if that is no
      step back. */
  function NewApi(before: int, ending: Ending, highest: int): int {
    if ending.Answered? && ending.response.serverApi >= before then Min(ending.response.serverApi, highest) else before
  }

  /** A response that does not ask for a resynchronization. */
  predicate Quiet(r: Response) {
    forall k :: 0 <= k < |r.messages| ==> !r.messages[k].Resynchronize?
  }

  /** A whole exchange with nothing in between: the request reaches the server or not, and the
      exchange ends in some way. */
  method RunExchange(exchange: MessageExchange, ghost delivered: bool, ending: Ending, id: nat, tooLarge: bool,
                     timestamp: int, ghost start: System, ghost past: seq<Step>, ghost used: set<nat>)
    returns (ghost how: Adding, ghost hows: seq<Adding>, ghost steps: seq<Step>)
    requires On(exchange, start, past) && !exchange.exchanging
    requires var s := Run(exchange.maxMessages, start, past);
             Unused(used, s, ending, id) && Expected(Start(exchange.maxMessages, s), delivered, ending)
    modifies exchange, exchange.store
    ensures exchange.store.Valid() && !exchange.exchanging && NoRollback(steps) && Fits(ending, hows)
    ensures var t := Reached(exchange.maxMessages, Run(exchange.maxMessages, start, past), delivered);
            && Valid(t.client) && t.phase.Waiting? && Truthful(t, ending)
            && (EndingSafe(t, ending, exchange.api, id, how, hows) ==> On(exchange, start, past + steps))
    ensures exchange.store.serverApi == NewApi(old(exchange.store.serverApi), ending, exchange.api)
    ensures old(exchange.store.serverApi) <= exchange.api ==>
              old(exchange.store.serverApi) <= exchange.store.serverApi <= exchange.api
    ensures ending.NoAnswer? ==> On(exchange, start, past + steps)
    ensures ending.Failed? && exchange.store.blackhole == old(exchange.store.blackhole) ==>
              On(exchange, start, past + steps)
    ensures ending.Answered? && old(exchange.store.blackhole) ==> On(exchange, start, past + steps)
    ensures ending.Answered? && Quiet(ending.response) && Initial(start) && NoRollback(past) ==>
              On(exchange, start, past + steps)
    ensures (&& |old(exchange.store.dirs)| <= exchange.store.maxDirs && !tooLarge
             && (ending.Answered? ==> Quiet(ending.response)))
            ==> On(exchange, start, past + steps)
    ensures On(exchange, start, past + steps) && Initial(start) && NoRollback(past) ==>
              && Delivered(Run(exchange.maxMessages, start, past + steps))
              && Run(exchange.maxMessages, start, past + steps).client == exchange.store.Model()
  {
    hide Inv, CanRun, Run, DiskOk, EndingSafe, FreshIds, NextExpected, Delivered, Start, Receive;
    ghost var max, s := exchange.maxMessages, Run(exchange.maxMessages, start, past);
    ghost var more: seq<Step> := if delivered then [StartExchange] + [Deliver] else [StartExchange];
    OnInv(exchange, start, past);
    ReachedSteps(max, start, past, delivered);
    var payload, _ := Begin(exchange, start, past);
    if delivered {
      RequestArrives(exchange, start, past + [StartExchange]);
      Regroup(past, [StartExchange], [Deliver]);
    }
    ghost var rest;
    how, hows, rest := Finish(exchange, payload.value, ending, id, tooLarge, timestamp, start, past + more, used);
    steps := more + rest;
    Regroup(past, more, rest);
    ForgetNothing(more, rest);
    if NoRollback(past) {
      ForgetNothing(past, more);
      ForgetNothing(past, steps);
    }
    if On(exchange, start, past + steps) && Initial(start) && NoRollback(past) {
      OnDisk(exchange, start, past + steps);
    }
  }

  /** The answer of a server that a request has reached. */
  ghost predicate Expected(started: System, delivered: bool, ending: Ending) {
    ending.Answered? ==>
      && delivered && started.phase.Waiting?
      && NextExpected(started.client, |started.phase.payload.messages|, ending.response)
         == |Receive(started.log, started.phase.payload)|
  }

  /** The system before the end of an exchange with nothing in between. */
  ghost function Reached(max: nat, s: System, delivered: bool): System {
    var t := Start(max, s);
    if delivered then
      var log := Receive(t.log, t.phase.payload);
      t.(log := log, phase := t.phase.(reply := Some(|log|)))
    else t
  }

  lemma ReachedSteps(max: nat, start: System, past: seq<Step>, delivered: bool)
    requires Inv(max, start) && CanRun(max, start, past) && Run(max, start, past).phase.Idle?
    ensures var s, more := Run(max, start, past), if delivered then [StartExchange] + [Deliver] else [StartExchange];
            && CanRun(max, start, past + more) && Run(max, start, past + more) == Reached(max, s, delivered)
            && Reached(max, s, delivered).phase.Waiting? && Reached(max, s, delivered).added == s.added
            && Start(max, s).phase.Waiting?
  {
    hide Inv, CanRun, Run, Receive, Start;
    var s := Run(max, start, past);
    RunKeeps(max, start, past);
    InvValid(max, s);
    Started(max, s);
    var t := Start(max, s);
    assert [StartExchange] == [StartExchange] + [] && [Deliver] == [Deliver] + [];
    if delivered {
      FirstStep(max, s, StartExchange, [Deliver]);
      FirstStep(max, t, Deliver, []);
      NoSteps(max, Apply(max, t, Deliver));
      RunAppend(max, start, past, [StartExchange] + [Deliver]);
    } else {
      FirstStep(max, s, StartExchange, []);
      NoSteps(max, t);
      RunAppend(max, start, past, [StartExchange]);
    }
  }

  lemma Started(max: nat, s: System)
    ensures Start(max, s).phase.Waiting? && Start(max, s).added == s.added
  {
  }
}

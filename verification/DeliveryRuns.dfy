/** What holds over whole runs of the system in `Delivery`. */
module DeliveryRuns {
  import opened StoreModel
  import opened Delivery

  ghost predicate CanRun(max: nat, s: System, steps: seq<Step>)
    decreases |steps|
  {
    steps == [] || (Valid(s.client) && Enabled(s, steps[0]) && CanRun(max, Apply(max, s, steps[0]), steps[1..]))
  }

  ghost function Run(max: nat, s: System, steps: seq<Step>): System
    requires CanRun(max, s, steps)
    decreases |steps|
  {
    if steps == [] then s else Run(max, Apply(max, s, steps[0]), steps[1..])
  }

  lemma {:induction false} RunKeeps(max: nat, s: System, steps: seq<Step>)
    requires Inv(max, s) && CanRun(max, s, steps)
    ensures Inv(max, Run(max, s, steps))
    decreases |steps|
  {
    hide Inv, Apply, Enabled;
    if steps != [] {
      StepKeeps(max, s, steps[0]);
      RunKeeps(max, Apply(max, s, steps[0]), steps[1..]);
    }
  }

  lemma FirstStep(max: nat, s: System, step: Step, steps: seq<Step>)
    requires Inv(max, s) && Enabled(s, step)
    ensures Valid(s.client) && Inv(max, Apply(max, s, step))
    ensures CanRun(max, s, [step] + steps) == CanRun(max, Apply(max, s, step), steps)
    ensures CanRun(max, Apply(max, s, step), steps) ==>
              Run(max, s, [step] + steps) == Run(max, Apply(max, s, step), steps)
  {
    InvValid(max, s);
    StepKeeps(max, s, step);
    assert ([step] + steps)[1..] == steps;
  }

  lemma {:induction false} RunAppend(max: nat, s: System, past: seq<Step>, more: seq<Step>)
    requires CanRun(max, s, past) && CanRun(max, Run(max, s, past), more)
    ensures CanRun(max, s, past + more) && Run(max, s, past + more) == Run(max, Run(max, s, past), more)
    decreases |past|
  {
    hide Apply, Enabled;
    if past == [] {
      assert past + more == more;
    } else {
      assert (past + more)[1..] == past[1..] + more;
      RunAppend(max, Apply(max, s, past[0]), past[1..], more);
    }
  }

  lemma NoSteps(max: nat, s: System)
    ensures CanRun(max, s, []) && Run(max, s, []) == s
  {
  }

  ghost predicate NoRollback(steps: seq<Step>) {
    forall i :: 0 <= i < |steps| ==> !steps[i].Rollback?
  }

  lemma OnlyRollbackForgets(max: nat, s: System, step: Step)
    requires Valid(s.client) && Enabled(s, step) && !step.Rollback?
    ensures Apply(max, s, step).rolledBack == s.rolledBack
  {
    hide Receive, Add, Live, GotNextExpected;
  }

  lemma {:induction false} NeverForgot(max: nat, s: System, steps: seq<Step>)
    requires CanRun(max, s, steps) && NoRollback(steps) && !s.rolledBack
    ensures !Run(max, s, steps).rolledBack
    decreases |steps|
  {
    hide Apply, Enabled;
    if steps != [] {
      OnlyRollbackForgets(max, s, steps[0]);
      NeverForgot(max, Apply(max, s, steps[0]), steps[1..]);
    }
  }

  /** The log, and the messages numbered from the receiver's next number on, split what the
      client and its history hold. */
  lemma LedgerSplit(s: System)
    requires Ledger(s)
    ensures var all := s.acked + Live(s.client.queue);
            && multiset(s.log) + multiset(all[|s.log|..]) + multiset(Held(s.client.queue)) + s.lost == s.added
            && Distinct(s.log)
  {
    hide Live, Held, Messages;
    var all := s.acked + Live(s.client.queue);
    SplitMessages(s.client.queue);
    var live, held := multiset(Live(s.client.queue)), multiset(Held(s.client.queue));
    var log, rest := multiset(s.log), multiset(all[|s.log|..]);
    assert all == s.log + all[|s.log|..];
    assert multiset(s.acked + Live(s.client.queue)) == multiset(s.acked) + live;
    assert multiset(s.log + all[|s.log|..]) == log + rest;
    Resum(multiset(s.acked), live, held, multiset(Messages(s.client.queue)), s.lost, log, rest);
    forall m ensures log[m] <= 1 {
      assert log[m] <= (log + rest + held + s.lost)[m] == s.added[m];
    }
    DistinctWhen(s.log);
  }

  lemma Resum(acked: multiset<Message>, live: multiset<Message>, held: multiset<Message>, queue: multiset<Message>,
              lost: multiset<Message>, log: multiset<Message>, rest: multiset<Message>)
    requires queue == live + held && acked + live == log + rest
    ensures acked + queue + lost == log + rest + held + lost
  {
    assert acked + queue + lost == (acked + live) + held + lost;
  }

  /** Whatever is lost, delayed or forgotten on the way, nothing is processed twice. */
  lemma NeverTwice(max: nat, s: System, steps: seq<Step>)
    requires Initial(s) && CanRun(max, s, steps)
    ensures Distinct(Run(max, s, steps).log)
  {
    InitialInv(max, s);
    RunKeeps(max, s, steps);
    LedgerSplit(Run(max, s, steps));
  }

  /** What is promised as long as the server forgets nothing: no RESYNC; the log holds no message
      twice and holds every message the client has deleted, except by trimming; the log, the
      client's live messages from the receiver's next number on, the held ones and the trimmed
      ones are all the messages ever added. */
  ghost predicate Delivered(t: System) {
    var next, base := |t.log|, t.client.Base();
    && t.resyncs == 0 && Distinct(t.log)
    && 0 <= base <= next <= base + |Live(t.client.queue)|
    && multiset(t.log) + multiset(Live(t.client.queue)[next - base..])
       + multiset(Held(t.client.queue)) + t.trimmed == t.added
    && (forall m :: m in t.added && m !in Messages(t.client.queue) && m !in t.trimmed ==> m in t.log)
  }

  /** It holds on every run, whatever requests and responses are lost. */
  lemma ReliableDelivery(max: nat, s: System, steps: seq<Step>)
    requires Initial(s) && CanRun(max, s, steps) && NoRollback(steps)
    ensures Delivered(Run(max, s, steps))
  {
    hide Live, Held, Messages;
    var t := Run(max, s, steps);
    InitialInv(max, s);
    RunKeeps(max, s, steps);
    NeverForgot(max, s, steps);
    LedgerSplit(t);
    var all, next, base := t.acked + Live(t.client.queue), |t.log|, t.client.Base();
    assert all[next..] == Live(t.client.queue)[next - base..];
    forall m | m in t.added && m !in Messages(t.client.queue) && m !in t.trimmed ensures m in t.log {
      assert m in multiset(t.acked);
      var i :| 0 <= i < |t.acked| && t.acked[i] == m;
      assert t.log[i] == all[i] == m;
    }
  }

  /** RESYNC happens exactly when a response asks for less than the client still has. */
  lemma ResyncExactlyWhen(max: nat, s: System, step: Step)
    requires Inv(max, s) && Enabled(s, step)
    ensures Valid(s.client)
    ensures Apply(max, s, step).resyncs > s.resyncs
       <==> step.Complete? && s.phase.reply.value < s.client.Base()
  {
    InvValid(max, s);
    if step.Complete? {
      CompleteKeeps(max, s);
    } else {
      hide Receive, Add, Live, GotNextExpected;
    }
  }
}

/**
Properties of whole runs of traps: the invariant, the pairing of sends with receives, the register
contexts, and how long a queued thread can wait.
*/
module KernelRuns {
  import opened Basics
  import opened KernelState
  import opened KernelCalls
  import opened KernelInvariants
  import opened ThreadQueues

  /// One trap: the call, then the context switch if one is due.
  ghost function Step(st: State, c: Call): (st': State)
    requires Ready(st)
    ensures Inv(st') && !st'.pending && |st'.queues| == NUM_PRIORITIES
  {
    HandleInv(st, c);
    SwitchInv(Handle(st, c));
    Switch(Handle(st, c))
  }

  /// Traps come from a running thread, so a run ends where the processor idles.
  ghost predicate CanRun(st: State, cs: seq<Call>)
    decreases |cs|
  {
    cs == [] || (Ready(st) && CanRun(Step(st, cs[0]), cs[1..]))
  }

  ghost function After(st: State, cs: seq<Call>): State
    requires CanRun(st, cs)
    decreases |cs|
  {
    if cs == [] then st else After(Step(st, cs[0]), cs[1..])
  }

  /// After every run: the invariant holds, no switch is due, and the processor idles only when nobody is queued.
  lemma {:induction false} RunInv(st: State, cs: seq<Call>)
    requires Inv(st) && !st.pending && CanRun(st, cs)
    ensures Inv(After(st, cs)) && !After(st, cs).pending
    ensures After(st, cs).current.None? ==> After(st, cs).queues[RUN_QUEUE] == []
    decreases |cs|
  {
    if cs != [] {
      RunInv(Step(st, cs[0]), cs[1..]);
    }
  }

  // ---------------------------------------------------------------- who is paired with whom

  datatype Sent = Sent(t: Tid, buf: Buf, badge: nat)
  datatype Received = Received(t: Tid, buf: Buf)

  /// The sends and the receives invoked on an endpoint, in order.
  datatype Log = Log(sends: seq<Sent>, receives: seq<Received>)

  function LogOf(logs: map<Eid, Log>, e: Eid): Log { if e in logs then logs[e] else Log([], []) }

  function Record(logs: map<Eid, Log>, st: State, c: Call): map<Eid, Log>
    requires st.current.Some?
  {
    match c
    case SendTo(e, buf, badge) =>
      if e !in st.endpoints then logs else
      logs[e := LogOf(logs, e).(sends := LogOf(logs, e).sends + [Sent(st.current.value, buf, badge)])]
    case ReceiveFrom(e, buf, _) =>
      if e !in st.endpoints then logs else
      logs[e := LogOf(logs, e).(receives := LogOf(logs, e).receives + [Received(st.current.value, buf)])]
    case _ => logs
  }

  /// How many sends of the log have met a receive.
  function Pairs(l: Log): nat { if |l.sends| <= |l.receives| then |l.sends| else |l.receives| }

  /// What a step of the logs of one endpoint does to message memory: it completes pair `i` when it makes both the i-th send
  /// and the i-th receive present, and then the bytes in the sender's buffer reach the receiver's with the badge.
  ghost predicate Completes(mem: map<Buf, Message>, mem': map<Buf, Message>, before: Log, after: Log) {
    var i := Pairs(before);
    if i < Pairs(after) then Arrives(mem, mem', after.sends[i].buf, after.receives[i].buf, after.sends[i].badge) else mem' == mem
  }

  function Target(c: Call): Eid { if c.SendTo? || c.ReceiveFrom? then c.e else 0 }

  ghost predicate SenderWaits(st: State, s: Sent) {
    s.t in st.threads && st.threads[s.t].buffer == s.buf && st.threads[s.t].badge == s.badge
  }

  ghost predicate ReceiverWaits(st: State, r: Received) {
    r.t in st.threads && st.threads[r.t].buffer == r.buf
  }

  /// The queues of `e` hold exactly the unpaired end of its log.
  ghost predicate LogOk(st: State, e: Eid, l: Log)
    requires e in st.endpoints
  {
    var ep, n := st.endpoints[e], Pairs(l);
    && |ep.sending| == |l.sends| - n && |ep.receiving| == |l.receives| - n
    && (forall i {:trigger l.sends[i]} :: n <= i < |l.sends| ==> ep.sending[i - n] == l.sends[i].t && SenderWaits(st, l.sends[i]))
    && (forall i {:trigger l.receives[i]} :: n <= i < |l.receives| ==> ep.receiving[i - n] == l.receives[i].t && ReceiverWaits(st, l.receives[i]))
  }

  ghost predicate LogsOk(st: State, logs: map<Eid, Log>) {
    && logs.Keys <= st.endpoints.Keys
    && forall e :: e in st.endpoints ==> LogOk(st, e, LogOf(logs, e))
  }

  /// Waiting threads keep their message buffer and badge.
  ghost predicate SameMail(st: State, st': State) {
    && st.threads.Keys <= st'.threads.Keys
    && forall t :: t in st.threads && st.threads[t].blockedOn.Some? ==>
         st'.threads[t].buffer == st.threads[t].buffer && st'.threads[t].badge == st.threads[t].badge
  }

  lemma LogKept(st: State, st': State, e: Eid, l: Log)
    requires Rendezvous(st) && e in st.endpoints && e in st'.endpoints && st'.endpoints[e] == st.endpoints[e]
    requires LogOk(st, e, l) && SameMail(st, st')
    ensures LogOk(st', e, l)
  {
    assert EndpointOk(st, e);
    var ep, n := st.endpoints[e], Pairs(l);
    forall i {:trigger l.sends[i]} | n <= i < |l.sends| ensures SenderWaits(st', l.sends[i]) {
      assert ep.sending[i - n] in ep.sending;
    }
    forall i {:trigger l.receives[i]} | n <= i < |l.receives| ensures ReceiverWaits(st', l.receives[i]) {
      assert ep.receiving[i - n] in ep.receiving;
    }
  }

  ghost predicate OneSided(st: State, e: Eid)
    requires e in st.endpoints && st.current.Some?
  {
    var ep := st.endpoints[e];
    (ep.sending == [] || ep.receiving == []) && st.current.value !in ep.sending && st.current.value !in ep.receiving
  }

  lemma ReadyOneSided(st: State, e: Eid)
    requires Ready(st) && e in st.endpoints
    ensures OneSided(st, e)
  {
    Parties(st, e);
    assert EndpointOk(st, e);
  }

  lemma SendMeetsLog(st: State, st': State, e: Eid, buf: Buf, badge: nat, l: Log)
    requires |st.queues| == NUM_PRIORITIES
    requires e in st.endpoints && st.current.Some? && OneSided(st, e) && LogOk(st, e, l) && Sends(st, st', e, buf, badge)
    requires st.endpoints[e].receiving != []
    ensures var l' := l.(sends := l.sends + [Sent(st.current.value, buf, badge)]);
      LogOk(st', e, l') && Completes(st.mem, st'.mem, l, l')
  {
    var ep, n := st.endpoints[e], Pairs(l);
    var l' := l.(sends := l.sends + [Sent(st.current.value, buf, badge)]);
    assert ep.receiving[0] == l.receives[n].t && ReceiverWaits(st, l.receives[n]);
    forall i {:trigger l'.receives[i]} | Pairs(l') <= i < |l'.receives|
      ensures st'.endpoints[e].receiving[i - Pairs(l')] == l'.receives[i].t && ReceiverWaits(st', l'.receives[i])
    {
      assert ep.receiving[i - n] == l.receives[i].t && ep.receiving[i - n] in ep.receiving;
    }
  }

  lemma SendWaitsLog(st: State, st': State, e: Eid, buf: Buf, badge: nat, l: Log)
    requires |st.queues| == NUM_PRIORITIES
    requires e in st.endpoints && st.current.Some? && OneSided(st, e) && LogOk(st, e, l) && Sends(st, st', e, buf, badge)
    requires st.endpoints[e].receiving == []
    ensures var l' := l.(sends := l.sends + [Sent(st.current.value, buf, badge)]);
      LogOk(st', e, l') && Completes(st.mem, st'.mem, l, l')
  {
    var ep, n := st.endpoints[e], Pairs(l);
    var l' := l.(sends := l.sends + [Sent(st.current.value, buf, badge)]);
    forall i {:trigger l'.sends[i]} | Pairs(l') <= i < |l'.sends|
      ensures st'.endpoints[e].sending[i - Pairs(l')] == l'.sends[i].t && SenderWaits(st', l'.sends[i])
    {
      if i < |l.sends| {
        assert l'.sends[i] == l.sends[i] && ep.sending[i - n] == l.sends[i].t && ep.sending[i - n] in ep.sending;
      }
    }
  }

  lemma ReceiveMeetsLog(st: State, st': State, e: Eid, buf: Buf, badge: nat, l: Log)
    requires |st.queues| == NUM_PRIORITIES
    requires e in st.endpoints && st.current.Some? && OneSided(st, e) && LogOk(st, e, l) && Receives(st, st', e, buf, badge)
    requires st.endpoints[e].sending != []
    ensures var l' := l.(receives := l.receives + [Received(st.current.value, buf)]);
      LogOk(st', e, l') && Completes(st.mem, st'.mem, l, l')
  {
    var ep, n := st.endpoints[e], Pairs(l);
    var l' := l.(receives := l.receives + [Received(st.current.value, buf)]);
    assert ep.sending[0] == l.sends[n].t && SenderWaits(st, l.sends[n]);
    forall i {:trigger l'.sends[i]} | Pairs(l') <= i < |l'.sends|
      ensures st'.endpoints[e].sending[i - Pairs(l')] == l'.sends[i].t && SenderWaits(st', l'.sends[i])
    {
      assert ep.sending[i - n] == l.sends[i].t && ep.sending[i - n] in ep.sending;
    }
  }

  lemma ReceiveWaitsLog(st: State, st': State, e: Eid, buf: Buf, badge: nat, l: Log)
    requires |st.queues| == NUM_PRIORITIES
    requires e in st.endpoints && st.current.Some? && OneSided(st, e) && LogOk(st, e, l) && Receives(st, st', e, buf, badge)
    requires st.endpoints[e].sending == []
    ensures var l' := l.(receives := l.receives + [Received(st.current.value, buf)]);
      LogOk(st', e, l') && Completes(st.mem, st'.mem, l, l')
  {
    var ep, n := st.endpoints[e], Pairs(l);
    var l' := l.(receives := l.receives + [Received(st.current.value, buf)]);
    forall i {:trigger l'.receives[i]} | Pairs(l') <= i < |l'.receives|
      ensures st'.endpoints[e].receiving[i - Pairs(l')] == l'.receives[i].t && ReceiverWaits(st', l'.receives[i])
    {
      if i < |l.receives| {
        assert l'.receives[i] == l.receives[i] && ep.receiving[i - n] == l.receives[i].t && ep.receiving[i - n] in ep.receiving;
      }
    }
  }

  // ---------------------------------------------------------------- one trap

  /// Calls other than sends and receives leave mail and endpoint queues alone.
  lemma OtherCalls(st: State, c: Call)
    requires Ready(st) && !(c.SendTo? && c.e in st.endpoints) && !(c.ReceiveFrom? && c.e in st.endpoints)
    ensures var st' := Handle(st, c);
      && st'.mem == st.mem && SameMail(st, st') && st.endpoints.Keys <= st'.endpoints.Keys
      && (forall e :: e in st.endpoints ==> st'.endpoints[e] == st.endpoints[e])
      && (forall e :: e in st'.endpoints && e !in st.endpoints ==> st'.endpoints[e] == Endpoint([], []))
  {
    CallDoes(st, c);
    hide Scheduled, Rendezvous, Handle, Called;
    CalledOther(st, Handle(st, c), c);
  }

  lemma CalledOther(st: State, mid: State, c: Call)
    requires st.current.Some? && |st.queues| == NUM_PRIORITIES && Called(st, mid, c)
    requires !(c.SendTo? && c.e in st.endpoints) && !(c.ReceiveFrom? && c.e in st.endpoints)
    ensures mid.mem == st.mem && st.endpoints.Keys <= mid.endpoints.Keys && SameMail(st, mid)
    ensures forall e :: e in st.endpoints ==> mid.endpoints[e] == st.endpoints[e]
    ensures forall e :: e in mid.endpoints && e !in st.endpoints ==> mid.endpoints[e] == Endpoint([], [])
  {
    hide Sends, Receives, WithoutIt;
  }

  // ---------------------------------------------------------------- what a context switch leaves alone

  /// The registers with which thread `t` goes on when it runs next.
  function Context(st: State, t: Tid): Regs
    requires t in st.threads
  {
    if st.current == Some(t) then st.cpu else st.threads[t].regs
  }

  ghost predicate Undisturbed(st: State, st': State, t: Tid) {
    && t in st.threads && t in st'.threads
    && var th := st'.threads[t];
    && th == st.threads[t].(runqueue := th.runqueue, running := th.running, regs := th.regs)
    && Context(st', t) == Context(st, t)
  }

  /// Every thread keeps its register context, its wait and its mail.
  ghost predicate AllUndisturbed(st: State, st': State) {
    && st'.endpoints == st.endpoints && st'.mem == st.mem && st'.threads.Keys == st.threads.Keys
    && forall t {:trigger Undisturbed(st, st', t)} :: t in st.threads ==> Undisturbed(st, st', t)
  }

  lemma UndisturbedThen(st: State, st': State, st'': State)
    requires AllUndisturbed(st, st') && AllUndisturbed(st', st'')
    ensures AllUndisturbed(st, st'')
  {
    forall t | t in st.threads ensures Undisturbed(st, st'', t) {
      assert Undisturbed(st, st', t) && Undisturbed(st', st'', t);
    }
  }

  lemma PopUndisturbed(st: State)
    requires |st.queues| == NUM_PRIORITIES
    requires forall i, t :: 0 <= i < |st.queues| && t in st.queues[i] ==> t in st.threads
    ensures AllUndisturbed(st, PopNext(st).0) && PopNext(st).0.current == st.current
  {
  }

  lemma LeaveUndisturbed(st: State, next: Option<Tid>)
    requires |st.queues| == NUM_PRIORITIES && (st.current.Some? ==> st.current.value in st.threads)
    ensures AllUndisturbed(st, Leave(st, next))
    ensures next.Some? && Leave(st, next).current.Some? ==>
      Leave(st, next).current == st.current && Leave(st, next).threads[st.current.value].regs == Leave(st, next).cpu
  {
    forall t | t in st.threads ensures Undisturbed(st, Leave(st, next), t) {
      LeaveUndisturbedThread(st, next, t);
    }
    hide Undisturbed;
  }

  lemma LeaveUndisturbedThread(st: State, next: Option<Tid>, t: Tid)
    requires |st.queues| == NUM_PRIORITIES && (st.current.Some? ==> st.current.value in st.threads) && t in st.threads
    ensures Undisturbed(st, Leave(st, next), t)
  {
    if st.current.Some? {
      var c := st.current.value;
      QueueEffect(WithThread(st, c, st.threads[c].(regs := st.cpu, running := false)), c);
    }
    hide Queue;
  }

  lemma EnterUndisturbed(st: State, next: Option<Tid>)
    requires next.Some? ==> next.value in st.threads
    requires next.Some? && st.current.Some? ==> st.current.value in st.threads && st.threads[st.current.value].regs == st.cpu
    ensures AllUndisturbed(st, Enter(st, next))
  {
  }

  /// A context switch never loses or mixes up a thread's registers, and touches no mail.
  lemma SwitchUndisturbed(st: State)
    requires |st.queues| == NUM_PRIORITIES && (st.current.Some? ==> st.current.value in st.threads)
    requires forall i, t :: 0 <= i < |st.queues| && t in st.queues[i] ==> t in st.threads
    ensures AllUndisturbed(st, Switch(st))
  {
    var st0 := st.(pending := false);
    assert AllUndisturbed(st, st0);
    if st.pending {
      PopUndisturbed(st0);
      var (st1, next) := PopNext(st0);
      hide AllUndisturbed, PopNext;
      UndisturbedThen(st, st0, st1);
      LeaveUndisturbed(st1, next);
      UndisturbedThen(st, st1, Leave(st1, next));
      EnterUndisturbed(Leave(st1, next), next);
      UndisturbedThen(st, Leave(st1, next), Switch(st));
    }
  }

  // ---------------------------------------------------------------- pairing over runs

  /// Only endpoint `e` changed, and no waiting thread's mail.
  ghost predicate OnlyEndpoint(st: State, st': State, e: Eid) {
    && SameMail(st, st') && st'.endpoints.Keys == st.endpoints.Keys
    && forall f :: f in st.endpoints && f != e ==> st'.endpoints[f] == st.endpoints[f]
  }

  lemma SendMail(st: State, st': State, e: Eid, buf: Buf, badge: nat)
    requires |st.queues| == NUM_PRIORITIES
    requires e in st.endpoints && st.current.Some? && st.current.value in st.threads
    requires Sends(st, st', e, buf, badge) && st.threads[st.current.value].blockedOn.None?
    ensures OnlyEndpoint(st, st', e)
  {
  }

  lemma ReceiveMail(st: State, st': State, e: Eid, buf: Buf, badge: nat)
    requires |st.queues| == NUM_PRIORITIES
    requires e in st.endpoints && st.current.Some? && st.current.value in st.threads
    requires Receives(st, st', e, buf, badge) && st.threads[st.current.value].blockedOn.None?
    ensures OnlyEndpoint(st, st', e)
  {
  }

  lemma LogAt(st: State, logs: map<Eid, Log>, e: Eid)
    requires LogsOk(st, logs) && e in st.endpoints
    ensures LogOk(st, e, LogOf(logs, e))
  {
  }

  lemma LogsElsewhere(st: State, st': State, logs: map<Eid, Log>, logs': map<Eid, Log>, e: Eid)
    requires Rendezvous(st) && LogsOk(st, logs) && OnlyEndpoint(st, st', e) && e in st.endpoints
    requires logs'.Keys == logs.Keys + {e} && forall f :: f in logs && f != e ==> logs'[f] == logs[f]
    requires LogOk(st', e, LogOf(logs', e))
    ensures LogsOk(st', logs')
  {
    hide LogOk, Rendezvous;
    forall f | f in st'.endpoints && f != e ensures LogOk(st', f, LogOf(logs', f)) {
      assert LogOk(st, f, LogOf(logs, f));
      LogKept(st, st', f, LogOf(logs, f));
    }
  }

  lemma SendLogs(st: State, logs: map<Eid, Log>, e: Eid, buf: Buf, badge: nat)
    requires Ready(st) && LogsOk(st, logs) && e in st.endpoints
    ensures LogsOk(Send(st, e, buf, badge), Record(logs, st, SendTo(e, buf, badge)))
    ensures Completes(st.mem, Send(st, e, buf, badge).mem, LogOf(logs, e), LogOf(Record(logs, st, SendTo(e, buf, badge)), e))
  {
    hide Send, Scheduled, Rendezvous, LogOk, LogsOk, OneSided, Sends, Completes;
    Parties(st, e);
    PartiesQueueable(st, e);
    ReadyOneSided(st, e);
    SendDoes(st, e, buf, badge);
    LogAt(st, logs, e);
    var st' := Send(st, e, buf, badge);
    SendMail(st, st', e, buf, badge);
    if st.endpoints[e].receiving != [] {
      SendMeetsLog(st, st', e, buf, badge, LogOf(logs, e));
    } else {
      SendWaitsLog(st, st', e, buf, badge, LogOf(logs, e));
    }
    LogsElsewhere(st, st', logs, Record(logs, st, SendTo(e, buf, badge)), e);
  }

  lemma ReceiveLogs(st: State, logs: map<Eid, Log>, e: Eid, buf: Buf, badge: nat)
    requires Ready(st) && LogsOk(st, logs) && e in st.endpoints
    ensures LogsOk(Receive(st, e, buf, badge), Record(logs, st, ReceiveFrom(e, buf, badge)))
    ensures Completes(st.mem, Receive(st, e, buf, badge).mem, LogOf(logs, e), LogOf(Record(logs, st, ReceiveFrom(e, buf, badge)), e))
  {
    hide Receive, Scheduled, Rendezvous, LogOk, LogsOk, OneSided, Receives, Completes;
    Parties(st, e);
    PartiesQueueable(st, e);
    ReadyOneSided(st, e);
    ReceiveDoes(st, e, buf, badge);
    LogAt(st, logs, e);
    var st' := Receive(st, e, buf, badge);
    ReceiveMail(st, st', e, buf, badge);
    if st.endpoints[e].sending != [] {
      ReceiveMeetsLog(st, st', e, buf, badge, LogOf(logs, e));
    } else {
      ReceiveWaitsLog(st, st', e, buf, badge, LogOf(logs, e));
    }
    LogsElsewhere(st, st', logs, Record(logs, st, ReceiveFrom(e, buf, badge)), e);
  }

  lemma OtherLogs(st: State, logs: map<Eid, Log>, c: Call)
    requires Ready(st) && LogsOk(st, logs) && !(c.SendTo? && c.e in st.endpoints) && !(c.ReceiveFrom? && c.e in st.endpoints)
    ensures LogsOk(Handle(st, c), logs) && Handle(st, c).mem == st.mem
  {
    hide Handle, Scheduled, Rendezvous, SameMail, LogOk, LogOf;
    OtherCalls(st, c);
    var st' := Handle(st, c);
    forall f | f in st'.endpoints ensures LogOk(st', f, LogOf(logs, f)) {
      if f in st.endpoints {
        LogKept(st, st', f, LogOf(logs, f));
      } else {
        NoLog(st', f, logs);
      }
    }
  }

  lemma NoLog(st: State, e: Eid, logs: map<Eid, Log>)
    requires e in st.endpoints && st.endpoints[e] == Endpoint([], []) && e !in logs
    ensures LogOk(st, e, LogOf(logs, e))
  {
  }

  /// The logs say who sent and received what: the invocation is added at the end of its endpoint's log.
  ghost predicate Noted(st: State, logs: map<Eid, Log>, logs': map<Eid, Log>, c: Call)
    requires st.current.Some?
  {
    if (c.SendTo? || c.ReceiveFrom?) && c.e in st.endpoints then
      var l := if c.e in logs then logs[c.e] else Log([], []);
      && logs'.Keys == logs.Keys + {c.e} && (forall f :: f in logs && f != c.e ==> logs'[f] == logs[f])
      && logs'[c.e].sends == l.sends + (if c.SendTo? then [Sent(st.current.value, c.buf, c.badge)] else [])
      && logs'[c.e].receives == l.receives + (if c.ReceiveFrom? then [Received(st.current.value, c.buf)] else [])
    else logs' == logs
  }

  /// One trap: the logs grow by the invocation, message memory changes exactly as they call for, and the state goes
  /// through what the call does and then what the context switch does.
  ghost predicate Moves(st: State, logs: map<Eid, Log>, st': State, logs': map<Eid, Log>, c: Call) {
    && st.current.Some? && |st.queues| == NUM_PRIORITIES
    && Noted(st, logs, logs', c)
    && Completes(st.mem, st'.mem, LogOf(logs, Target(c)), LogOf(logs', Target(c)))
    && exists mid {:trigger Called(st, mid, c)} :: Called(st, mid, c) && Goes(mid, st')
  }

  ghost predicate Goes(mid: State, st': State) {
    |mid.queues| == NUM_PRIORITIES && (mid.current.Some? ==> mid.current.value in mid.threads) && Switched(mid, st')
  }

  lemma RecordNotes(st: State, logs: map<Eid, Log>, c: Call)
    requires st.current.Some?
    ensures Noted(st, logs, Record(logs, st, c), c)
  {
  }

  /// One trap moves as told, and the queues go on holding the unpaired end of each log.
  lemma StepLogs(st: State, logs: map<Eid, Log>, c: Call)
    requires Ready(st) && LogsOk(st, logs)
    ensures LogsOk(Step(st, c), Record(logs, st, c))
    ensures Moves(st, logs, Step(st, c), Record(logs, st, c), c)
  {
    hide Switch, Scheduled, Completes, Record, LogsOk, AllUndisturbed, Called, Switched;
    HandleLogs(st, logs, c);
    HandleInv(st, c);
    var mid := Handle(st, c);
    ScheduledKnown(mid);
    SwitchInv(mid);
    SwitchUndisturbed(mid);
    AllKept(mid, Switch(mid));
    UndisturbedLogs(mid, Step(st, c), Record(logs, st, c));
    RecordNotes(st, logs, c);
    CallDoes(st, c);
    SwitchDoes(mid);
    hide Handle;
    assert Called(st, mid, c) && Goes(mid, Step(st, c));
  }

  lemma HandleLogs(st: State, logs: map<Eid, Log>, c: Call)
    requires Ready(st) && LogsOk(st, logs)
    ensures LogsOk(Handle(st, c), Record(logs, st, c))
    ensures Completes(st.mem, Handle(st, c).mem, LogOf(logs, Target(c)), LogOf(Record(logs, st, c), Target(c)))
  {
    hide Send, Receive, Resume, Suspend, Scheduled, Rendezvous, LogsOk;
    if c.SendTo? && c.e in st.endpoints {
      SendLogs(st, logs, c.e, c.buf, c.badge);
    } else if c.ReceiveFrom? && c.e in st.endpoints {
      ReceiveLogs(st, logs, c.e, c.buf, c.badge);
    } else {
      OtherLogs(st, logs, c);
    }
  }

  lemma AllKept(st: State, st': State)
    requires AllUndisturbed(st, st')
    ensures st'.mem == st.mem && st'.endpoints == st.endpoints
  {
  }

  lemma UndisturbedLogs(st: State, st': State, logs: map<Eid, Log>)
    requires Rendezvous(st) && LogsOk(st, logs) && AllUndisturbed(st, st')
    ensures LogsOk(st', logs)
  {
    forall t | t in st.threads ensures st'.threads[t].buffer == st.threads[t].buffer && st'.threads[t].badge == st.threads[t].badge {
      assert Undisturbed(st, st', t);
    }
    forall f | f in st'.endpoints ensures LogOk(st', f, LogOf(logs, f)) {
      assert LogOk(st, f, LogOf(logs, f));
      LogKept(st, st', f, LogOf(logs, f));
    }
  }

  ghost function LogsAfter(st: State, logs: map<Eid, Log>, cs: seq<Call>): map<Eid, Log>
    requires CanRun(st, cs)
    decreases |cs|
  {
    if cs == [] then logs else LogsAfter(Step(st, cs[0]), Record(logs, st, cs[0]), cs[1..])
  }

  /// The state and the logs before call `n` of a run; after the last call for n == |cs|.
  ghost function At(st: State, cs: seq<Call>, n: nat): State
    requires CanRun(st, cs) && n <= |cs|
    decreases |cs|
  {
    if n == 0 then st else At(Step(st, cs[0]), cs[1..], n - 1)
  }

  ghost function LogsAt(st: State, logs: map<Eid, Log>, cs: seq<Call>, n: nat): map<Eid, Log>
    requires CanRun(st, cs) && n <= |cs|
    decreases |cs|
  {
    if n == 0 then logs else LogsAt(Step(st, cs[0]), Record(logs, st, cs[0]), cs[1..], n - 1)
  }

  /// Call `n` of the run moves as told.
  ghost predicate MovesAt(st: State, logs: map<Eid, Log>, cs: seq<Call>, n: nat)
    requires CanRun(st, cs) && n < |cs|
  {
    Moves(At(st, cs, n), LogsAt(st, logs, cs, n), At(st, cs, n + 1), LogsAt(st, logs, cs, n + 1), cs[n])
  }

  /// Over every run: each call moves as told, from the first state to the last, and the queues hold the unpaired end
  /// of each log at the end.
  lemma {:induction false} RunPairs(st: State, logs: map<Eid, Log>, cs: seq<Call>)
    requires Inv(st) && !st.pending && CanRun(st, cs) && LogsOk(st, logs)
    ensures LogsOk(After(st, cs), LogsAfter(st, logs, cs))
    ensures At(st, cs, 0) == st && At(st, cs, |cs|) == After(st, cs)
    ensures LogsAt(st, logs, cs, 0) == logs && LogsAt(st, logs, cs, |cs|) == LogsAfter(st, logs, cs)
    ensures forall n {:trigger MovesAt(st, logs, cs, n)} :: 0 <= n < |cs| ==> MovesAt(st, logs, cs, n)
    decreases |cs|
  {
    hide Step, Moves, LogsOk, Scheduled, Rendezvous;
    if cs != [] {
      StepLogs(st, logs, cs[0]);
      RunPairs(Step(st, cs[0]), Record(logs, st, cs[0]), cs[1..]);
      forall n | 0 <= n < |cs| ensures MovesAt(st, logs, cs, n) {
        assert n > 0 ==> MovesAt(Step(st, cs[0]), Record(logs, st, cs[0]), cs[1..], n - 1);
      }
    }
  }

  ghost predicate Prefix(l: Log, l': Log) { l.sends <= l'.sends && l.receives <= l'.receives }

  lemma NotedGrows(st: State, logs: map<Eid, Log>, logs': map<Eid, Log>, c: Call, e: Eid)
    requires st.current.Some? && Noted(st, logs, logs', c)
    ensures Prefix(LogOf(logs, e), LogOf(logs', e)) && Pairs(LogOf(logs', e)) <= Pairs(LogOf(logs, e)) + 1
    ensures Pairs(LogOf(logs', e)) > Pairs(LogOf(logs, e)) ==> e == Target(c)
  {
  }

  lemma {:induction false} LogsGrow(st: State, logs: map<Eid, Log>, cs: seq<Call>, e: Eid)
    requires CanRun(st, cs)
    ensures Prefix(LogOf(logs, e), LogOf(LogsAfter(st, logs, cs), e))
    decreases |cs|
  {
    hide Step, Scheduled, Rendezvous;
    if cs != [] {
      RecordNotes(st, logs, cs[0]);
      NotedGrows(st, logs, Record(logs, st, cs[0]), cs[0], e);
      LogsGrow(Step(st, cs[0]), Record(logs, st, cs[0]), cs[1..], e);
    }
  }

  /// The i-th send on an endpoint meets its i-th receive in one call of the run, and in that call the receiver's buffer
  /// gets the bytes that the sender's buffer then held, with the sender's badge. No other buffer changes.
  lemma {:induction false} PairMeets(st: State, logs: map<Eid, Log>, cs: seq<Call>, e: Eid, i: nat) returns (n: nat)
    requires Inv(st) && !st.pending && CanRun(st, cs) && LogsOk(st, logs)
    requires Pairs(LogOf(logs, e)) <= i < Pairs(LogOf(LogsAfter(st, logs, cs), e))
    ensures n < |cs|
    ensures Pairs(LogOf(LogsAt(st, logs, cs, n), e)) == i && Pairs(LogOf(LogsAt(st, logs, cs, n + 1), e)) == i + 1
    ensures var l := LogOf(LogsAfter(st, logs, cs), e);
      Arrives(At(st, cs, n).mem, At(st, cs, n + 1).mem, l.sends[i].buf, l.receives[i].buf, l.sends[i].badge)
    decreases |cs|
  {
    hide Step, LogsOk, Scheduled, Rendezvous, Called, Goes, Record, Arrives, Noted, LogOf;
    var st', logs' := Step(st, cs[0]), Record(logs, st, cs[0]);
    StepLogs(st, logs, cs[0]);
    NotedGrows(st, logs, logs', cs[0], e);
    if Pairs(LogOf(logs', e)) > i {
      n := 0;
      LogsGrow(st', logs', cs[1..], e);
    } else {
      var m := PairMeets(st', logs', cs[1..], e, i);
      n := m + 1;
    }
  }

  // ---------------------------------------------------------------- waiting for the processor

  /// A trap changes the register context with which a thread goes on in one case only: the caller
  /// writes the registers of another thread. A write to the running thread itself is lost.
  lemma StepContexts(st: State, c: Call, t: Tid)
    requires Ready(st) && t in st.threads
    ensures t in Step(st, c).threads
    ensures Context(Step(st, c), t) ==
      if c.WriteRegisters? && c.t == t && st.current != Some(t) then c.regs else Context(st, t)
  {
    HandleInv(st, c);
    var mid := Handle(st, c);
    HandleRegs(st, c, t);
    hide Handle, Scheduled, Rendezvous, Switch;
    SwitchInv(mid);
    SwitchUndisturbed(mid);
    assert Undisturbed(mid, Switch(mid), t);
  }

  /// What an operation may do to the scheduler: the run queue is extended or loses one thread that
  /// can no longer run.
  ghost predicate QueueStep(st: State, st': State) {
    && st'.current == st.current && st'.cpu == st.cpu && |st.queues| == |st'.queues| == NUM_PRIORITIES
    && st.threads.Keys <= st'.threads.Keys
    && var q, q' := st.queues[RUN_QUEUE], st'.queues[RUN_QUEUE];
    && (q <= q' || exists u :: u in st'.threads && st'.threads[u].mode != {} && WithoutIt(q, q', u))
  }

  /// Saved registers change only by being written.
  lemma HandleRegs(st: State, c: Call, t: Tid)
    requires Ready(st) && t in st.threads
    ensures var mid := Handle(st, c);
      && t in mid.threads && mid.current == st.current && mid.cpu == st.cpu
      && mid.threads[t].regs == if c.WriteRegisters? && c.t == t then c.regs else st.threads[t].regs
  {
    CallDoes(st, c);
    hide Scheduled, Rendezvous, Handle, Called;
    CalledRegs(st, Handle(st, c), c, t);
  }

  lemma CalledRegs(st: State, mid: State, c: Call, t: Tid)
    requires st.current.Some? && |st.queues| == NUM_PRIORITIES && Called(st, mid, c) && t in st.threads
    ensures t in mid.threads && mid.current == st.current && mid.cpu == st.cpu
    ensures mid.threads[t].regs == if c.WriteRegisters? && c.t == t then c.regs else st.threads[t].regs
  {
    hide Arrives, WithoutIt;
  }

  lemma HandleStep(st: State, c: Call)
    requires Ready(st)
    ensures QueueStep(st, Handle(st, c))
  {
    CallDoes(st, c);
    hide Scheduled, Rendezvous, Handle, Called;
    CalledStep(st, Handle(st, c), c);
  }

  lemma CalledStep(st: State, mid: State, c: Call)
    requires st.current.Some? && |st.queues| == NUM_PRIORITIES && Called(st, mid, c)
    ensures QueueStep(st, mid)
  {
    hide Arrives, WithoutIt;
    var q, q', u := st.queues[RUN_QUEUE], mid.queues[RUN_QUEUE], Suspends(st, c);
    assert q <= q' || (u.Some? && WithoutIt(q, q', u.value));
  }

  /// The trap ends in a context switch.
  ghost predicate Switches(st: State, c: Call)
    requires Ready(st)
  {
    Handle(st, c).pending
  }

  /// The call does not suspend or block thread `t`.
  ghost predicate Spares(st: State, c: Call, t: Tid)
    requires Ready(st)
  {
    t in Handle(st, c).threads && Handle(st, c).threads[t].mode == {}
  }

  lemma HandlePosition(st: State, mid: State, t: Tid, k: nat) returns (i: nat)
    requires QueueStep(st, mid) && k < |st.queues[RUN_QUEUE]| && st.queues[RUN_QUEUE][k] == t
    requires t in mid.threads && mid.threads[t].mode == {}
    ensures i <= k && i < |mid.queues[RUN_QUEUE]| && mid.queues[RUN_QUEUE][i] == t
  {
    var q, q' := st.queues[RUN_QUEUE], mid.queues[RUN_QUEUE];
    i := k;
    if !(q <= q') {
      var u :| u in mid.threads && mid.threads[u].mode != {} && WithoutIt(q, q', u);
      var j :| 0 <= j < |q| && q[j] == u && q' == q[..j] + q[j + 1..];
      i := if j < k then k - 1 else k;
    }
  }

  lemma SwitchPosition(st: State, t: Tid, i: nat) returns (j: nat)
    requires Inv(st) && i < |st.queues[RUN_QUEUE]| && st.queues[RUN_QUEUE][i] == t
    requires forall n, u :: 0 <= n < |st.queues| && u in st.queues[n] ==> u in st.threads
    ensures |Switch(st).queues| == NUM_PRIORITIES
    ensures var q := Switch(st).queues[RUN_QUEUE];
      if !st.pending then j == i && i < |q| && q[i] == t
      else Switch(st).current == Some(t) || (j == i - 1 && j < |q| && q[j] == t)
  {
    if st.pending {
      SwitchEffect(st);
      hide Scheduled, Rendezvous, Switch, ThreadAfter;
      j := if i == 0 then 0 else i - 1;
    } else {
      j := i;
    }
  }

  /// A queued thread that is spared moves up by a place at each switch, or is dispatched.
  lemma StepPosition(st: State, c: Call, t: Tid, k: nat) returns (j: nat)
    requires Ready(st) && |st.queues| == NUM_PRIORITIES && k < |st.queues[RUN_QUEUE]| && st.queues[RUN_QUEUE][k] == t && Spares(st, c, t)
    ensures var st' := Step(st, c); var q := st'.queues[RUN_QUEUE];
      if !Switches(st, c) then j <= k && j < |q| && q[j] == t
      else st'.current == Some(t) || (j + 1 <= k && j < |q| && q[j] == t)
  {
    hide Handle, Scheduled, Rendezvous, Switch, QueueStep;
    var mid := Handle(st, c);
    HandleStep(st, c);
    var i := HandlePosition(st, mid, t, k);
    HandleInv(st, c);
    SwitchInv(mid);
    j := SwitchPosition(mid, t, i);
  }

  /// `t` gets the processor at one of the next `n` switches of the run.
  ghost predicate DispatchedWithin(st: State, cs: seq<Call>, t: Tid, n: nat)
    requires CanRun(st, cs)
    decreases |cs|
  {
    && cs != [] && n > 0
    && if Switches(st, cs[0]) then
         Step(st, cs[0]).current == Some(t) || DispatchedWithin(Step(st, cs[0]), cs[1..], t, n - 1)
       else DispatchedWithin(Step(st, cs[0]), cs[1..], t, n)
  }

  ghost function SwitchCount(st: State, cs: seq<Call>): nat
    requires CanRun(st, cs)
    decreases |cs|
  {
    if cs == [] then 0 else (if Switches(st, cs[0]) then 1 else 0) + SwitchCount(Step(st, cs[0]), cs[1..])
  }

  ghost predicate SparesAll(st: State, cs: seq<Call>, t: Tid)
    requires CanRun(st, cs)
    decreases |cs|
  {
    cs == [] || (Spares(st, cs[0], t) && SparesAll(Step(st, cs[0]), cs[1..], t))
  }

  lemma QueueCount(st: State)
    requires Inv(st)
    ensures |st.queues| == NUM_PRIORITIES
  {
  }

  /// A queued thread with `k` threads ahead of it is dispatched within k + 1 switches unless suspended.
  lemma {:induction false} DispatchBound(st: State, cs: seq<Call>, t: Tid, k: nat)
    requires Inv(st) && !st.pending && CanRun(st, cs)
    requires k < |st.queues[RUN_QUEUE]| && st.queues[RUN_QUEUE][k] == t
    requires SparesAll(st, cs, t) && k < SwitchCount(st, cs)
    ensures DispatchedWithin(st, cs, t, k + 1)
    decreases |cs|
  {
    hide Scheduled, Rendezvous, Handle, Switch, Step, Spares;
    QueueCount(st);
    var j := StepPosition(st, cs[0], t, k);
    var st' := Step(st, cs[0]);
    if !Switches(st, cs[0]) {
      DispatchBound(st', cs[1..], t, j);
      WithinMore(st', cs[1..], t, j + 1, k + 1);
    } else if st'.current != Some(t) {
      DispatchBound(st', cs[1..], t, j);
      WithinMore(st', cs[1..], t, j + 1, k);
    }
  }

  lemma {:induction false} WithinMore(st: State, cs: seq<Call>, t: Tid, m: nat, n: nat)
    requires CanRun(st, cs) && DispatchedWithin(st, cs, t, m) && m <= n
    ensures DispatchedWithin(st, cs, t, n)
    decreases |cs|
  {
    hide Scheduled, Rendezvous, Handle, Switch, Step;
    var st' := Step(st, cs[0]);
    if !Switches(st, cs[0]) {
      WithinMore(st', cs[1..], t, m, n);
    } else if st'.current != Some(t) {
      WithinMore(st', cs[1..], t, m - 1, n - 1);
    }
  }

  // ---------------------------------------------------------------- linked queues

  function RunQueue(st: State): seq<Tid>
    requires |st.queues| == NUM_PRIORITIES
  {
    st.queues[RUN_QUEUE]
  }

  /// The thread that the call suspends or blocks.
  function Suspends(st: State, c: Call): Option<Tid>
    requires st.current.Some?
  {
    match c
    case SendTo(e, _, _) => if e in st.endpoints && st.endpoints[e].receiving == [] then st.current else None
    case ReceiveFrom(e, _, _) => if e in st.endpoints && st.endpoints[e].sending == [] then st.current else None
    case SuspendThread(t) => if t in st.threads then Some(t) else None
    case Fault => st.current
    case _ => None
  }

  /// The call takes a thread out of the run queue that is its head, while the head still points back at
  /// a thread that was popped before it (`stale`): then LIST_REMOVE leaves the thread in the queue.
  ghost predicate Unsafe(st: State, stale: bool, c: Call)
    requires st.current.Some? && |st.queues| == NUM_PRIORITIES
  {
    stale && RunQueue(st) != [] && Suspends(st, c) == Some(RunQueue(st)[0])
  }

  /// Whether the head of the run queue points back after a context switch: a pop makes it so unless
  /// it empties the queue.
  function StaleAfter(mid: State, stale: bool): bool
    requires |mid.queues| == NUM_PRIORITIES
  {
    if mid.pending && RunQueue(mid) != [] then |RunQueue(mid)| > 1 else stale
  }

  /// No step of the run is unsafe.
  ghost predicate SafeRun(st: State, stale: bool, cs: seq<Call>)
    requires CanRun(st, cs)
    decreases |cs|
  {
    cs == [] || (QueueCount(st); HandleInv(st, cs[0]); QueueCount(Handle(st, cs[0]));
      !Unsafe(st, stale, cs[0]) && SafeRun(Step(st, cs[0]), StaleAfter(Handle(st, cs[0]), stale), cs[1..]))
  }

  /// A run in which nobody suspends a queued thread and nobody resumes the running thread is safe:
  /// the running thread is then never queued itself.
  ghost predicate Quiet(st: State, c: Call)
    requires st.current.Some? && |st.queues| == NUM_PRIORITIES
  {
    && (c.SuspendThread? ==> c.t !in RunQueue(st))
    && (c.ResumeThread? ==> st.current != Some(c.t))
  }

  ghost predicate QuietRun(st: State, cs: seq<Call>)
    requires CanRun(st, cs)
    decreases |cs|
  {
    cs == [] || (QueueCount(st); Quiet(st, cs[0]) && QuietRun(Step(st, cs[0]), cs[1..]))
  }

  ghost predicate CurrentNotQueued(st: State)
    requires |st.queues| == NUM_PRIORITIES
  {
    st.current.Some? ==> st.current.value !in RunQueue(st)
  }

  lemma QueuedOrNot(st: State, t: Tid)
    requires Scheduled(st) && t in st.threads
    ensures st.threads[t].runqueue.Some? <==> t in RunQueue(st)
  {
    assert QueueOk(st, t);
  }

  /// A quiet call does not queue the running thread.
  lemma QuietCall(st: State, c: Call)
    requires Ready(st) && Quiet(st, c) && CurrentNotQueued(st)
    ensures |Handle(st, c).queues| == NUM_PRIORITIES && Handle(st, c).current == st.current
    ensures CurrentNotQueued(Handle(st, c))
  {
    HandleInv(st, c);
    var t, mid := st.current.value, Handle(st, c);
    HandleRegs(st, c, t);
    QueuedOrNot(st, t);
    QuietThread(st, c);
    QueuedOrNot(mid, t);
  }

  lemma QuietThread(st: State, c: Call)
    requires Ready(st) && Quiet(st, c) && st.threads[st.current.value].runqueue.None?
    ensures st.current.value in Handle(st, c).threads && Handle(st, c).threads[st.current.value].runqueue.None?
  {
    CallDoes(st, c);
    if (c.SendTo? || c.ReceiveFrom?) && c.e in st.endpoints {
      ReadyOneSided(st, c.e);
    }
    hide Scheduled, Rendezvous, Handle, Arrives, WithoutIt;
  }

  /// Neither does the context switch.
  lemma QuietSwitch(st: State)
    requires Inv(st) && |st.queues| == NUM_PRIORITIES && CurrentNotQueued(st)
    requires forall i, t :: 0 <= i < |st.queues| && t in st.queues[i] ==> t in st.threads
    ensures |Switch(st).queues| == NUM_PRIORITIES && CurrentNotQueued(Switch(st))
  {
    if st.pending {
      if RunQueue(st) == [] {
        SwitchAloneEffect(st);
      } else {
        SwitchEffect(st);
        var q := RunQueue(st);
        assert q == [q[0]] + q[1..];
        TailDistinct(q[0], q[1..]);
        hide Scheduled, Rendezvous, Switch, ThreadAfter;
      }
    }
  }

  /// Quiet runs are safe, whatever happened before.
  lemma {:induction false} QuietIsSafe(st: State, stale: bool, cs: seq<Call>)
    requires Inv(st) && !st.pending && CanRun(st, cs) && |st.queues| == NUM_PRIORITIES && CurrentNotQueued(st)
    requires QuietRun(st, cs)
    ensures SafeRun(st, stale, cs)
    decreases |cs|
  {
    if cs != [] {
      QuietCall(st, cs[0]);
      var mid := Handle(st, cs[0]);
      HandleInv(st, cs[0]);
      SwitchInv(mid);
      QuietSwitch(mid);
      hide Scheduled, Rendezvous, Handle, Switch;
      QuietIsSafe(Step(st, cs[0]), StaleAfter(mid, stale), cs[1..]);
      assert !Unsafe(st, stale, cs[0]);
    }
  }
}

/**
What each call of the running thread does, and what a context switch does, told on the fields of the
state before and after. The operations of KernelState are shown to do exactly this.
*/
module KernelCalls {
  import opened Basics
  import opened KernelState
  import opened KernelInvariants
  import opened ThreadQueues

  // ---------------------------------------------------------------- before and after

  /// The bytes that buffer `from` held, if any, are in buffer `to` together with the badge. Every other buffer keeps
  /// its bytes and its badge.
  ghost predicate Arrives(mem: map<Buf, Message>, mem': map<Buf, Message>, from: Buf, to: Buf, badge: nat) {
    && mem'.Keys == mem.Keys + {to}
    && mem'[to].buffer == (if from in mem then mem[from].buffer else [])
    && mem'[to].badge == badge
    && forall b :: b in mem && b != to ==> mem'[b] == mem[b]
  }

  /// Thread `t` has lost one reason to wait. With none left it is in the run queue: at the end, unless it was there
  /// before; and an idle processor is told. Its other fields are those of `th`.
  ghost predicate Wakes(st: State, st': State, t: Tid, th: Thread, reason: Mode)
    requires t in st.threads && |st.queues| == NUM_PRIORITIES
  {
    var q, mode := st.queues[RUN_QUEUE], st.threads[t].mode - {reason};
    && st'.threads == st.threads[t := th.(mode := mode, runqueue := if mode == {} then Some(RUN_QUEUE) else st.threads[t].runqueue)]
    && st'.queues == st.queues[RUN_QUEUE := if mode == {} && t !in q then q + [t] else q]
    && st'.pending == (st.pending || (mode == {} && st.current.None?))
    && st'.current == st.current && st'.cpu == st.cpu
  }

  /// Thread `t` has one more reason to wait and is not in the run queue; a switch is due if it was running. Its other
  /// fields are those of `th`.
  ghost predicate Stops(st: State, st': State, t: Tid, th: Thread, reason: Mode)
    requires t in st.threads && |st.queues| == NUM_PRIORITIES
  {
    var q := st.queues[RUN_QUEUE];
    && st'.threads == st.threads[t := th.(mode := st.threads[t].mode + {reason}, runqueue := None)]
    && |st'.queues| == NUM_PRIORITIES && st'.queues == st.queues[RUN_QUEUE := st'.queues[RUN_QUEUE]]
    && (if t in q then WithoutIt(q, st'.queues[RUN_QUEUE], t) else st'.queues[RUN_QUEUE] == q)
    && st'.pending == (st.pending || st.current == Some(t))
    && st'.current == st.current && st'.cpu == st.cpu
  }

  /// A send meets the first receiver, or the sender joins the queue.
  ghost predicate Sends(st: State, st': State, e: Eid, buf: Buf, badge: nat)
    requires e in st.endpoints && st.current.Some? && |st.queues| == NUM_PRIORITIES
  {
    var ep := st.endpoints[e];
    if ep.receiving != [] then
      var r := ep.receiving[0];
      && r in st.threads && st'.endpoints == st.endpoints[e := Endpoint(ep.sending, ep.receiving[1..])]
      && Arrives(st.mem, st'.mem, buf, st.threads[r].buffer, badge)
      && Wakes(st, st', r, st.threads[r].(onReceive := false, blockedOn := None), Blocked)
    else
      var t := st.current.value;
      && t in st.threads && st'.endpoints == st.endpoints[e := Endpoint(ep.sending + [t], [])] && st'.mem == st.mem
      && Stops(st, st', t, st.threads[t].(onSend := true, blockedOn := Some(e), buffer := buf, badge := badge), Blocked)
  }

  /// A receive meets the first sender, or the receiver joins the queue.
  ghost predicate Receives(st: State, st': State, e: Eid, buf: Buf, badge: nat)
    requires e in st.endpoints && st.current.Some? && |st.queues| == NUM_PRIORITIES
  {
    var ep := st.endpoints[e];
    if ep.sending != [] then
      var s := ep.sending[0];
      && s in st.threads && st'.endpoints == st.endpoints[e := Endpoint(ep.sending[1..], ep.receiving)]
      && Arrives(st.mem, st'.mem, st.threads[s].buffer, buf, st.threads[s].badge)
      && Wakes(st, st', s, st.threads[s].(onSend := false, blockedOn := None), Blocked)
    else
      var t := st.current.value;
      && t in st.threads && st'.endpoints == st.endpoints[e := Endpoint([], ep.receiving + [t])] && st'.mem == st.mem
      && Stops(st, st', t, st.threads[t].(onReceive := true, blockedOn := Some(e), buffer := buf, badge := badge), Blocked)
  }

  ghost predicate SameIpc(st: State, st': State) { st'.endpoints == st.endpoints && st'.mem == st.mem }

  /// What the call does before the context switch.
  ghost predicate Called(st: State, st': State, c: Call)
    requires st.current.Some? && |st.queues| == NUM_PRIORITIES
  {
    match c
    case Yield => st' == st.(pending := true)
    case SendTo(e, buf, badge) => if e in st.endpoints then Sends(st, st', e, buf, badge) else st' == st
    case ReceiveFrom(e, buf, badge) => if e in st.endpoints then Receives(st, st', e, buf, badge) else st' == st
    case ResumeThread(t) =>
      if t in st.threads then Wakes(st, st', t, st.threads[t], Suspended) && SameIpc(st, st') else st' == st
    case SuspendThread(t) =>
      if t in st.threads then Stops(st, st', t, st.threads[t], Suspended) && SameIpc(st, st') else st' == st
    case WriteRegisters(t, regs) =>
      if t in st.threads then st' == st.(threads := st.threads[t := st.threads[t].(regs := regs)]) else st' == st
    case NewThread(t) =>
      if t in st.threads then st' == st
      else st' == st.(threads := st.threads[t := Thread({Suspended}, None, None, false, false, 0, 0, false, 0)])
    case NewEndpoint(e) =>
      if e in st.endpoints then st' == st else st' == st.(endpoints := st.endpoints[e := Endpoint([], [])])
    case Fault =>
      var t := st.current.value;
      t in st.threads && Stops(st, st', t, st.threads[t], Suspended) && SameIpc(st, st')
    case Other => st' == st
  }

  /// What the context switch does, if one is due: the first queued thread takes over; without one, the running thread
  /// goes on if it can, and else the processor idles.
  ghost predicate Switched(st: State, st': State)
    requires |st.queues| == NUM_PRIORITIES && (st.current.Some? ==> st.current.value in st.threads)
  {
    if !st.pending then st' == st
    else if st.queues[RUN_QUEUE] != [] then SwitchedTo(st, st', st.queues[RUN_QUEUE][0])
    else if st.current.None? then st' == st.(pending := false, cpu := IDLE)
    else
      var t := st.current.value;
      if st.threads[t].mode == {} then st' == st.(pending := false)
      else st' == st.(pending := false, current := None, cpu := IDLE,
        threads := st.threads[t := st.threads[t].(regs := st.cpu, running := false)])
  }

  // ---------------------------------------------------------------- the operations do this

  /// Thread `u` can be woken or stopped.
  ghost predicate Queueable(st: State, u: Tid) {
    && u in st.threads && |st.queues| == NUM_PRIORITIES && Distinct(st.queues[RUN_QUEUE])
    && (st.threads[u].runqueue == None || st.threads[u].runqueue == Some(RUN_QUEUE))
    && (st.threads[u].runqueue.Some? <==> u in st.queues[RUN_QUEUE])
  }

  lemma ResumeWakes(st: State, t: Tid, reason: Mode)
    requires Queueable(st, t)
    ensures Wakes(st, Resume(st, t, reason), t, st.threads[t], reason) && SameIpc(st, Resume(st, t, reason))
  {
    var q := st.queues[RUN_QUEUE];
    assert st.queues[RUN_QUEUE := q] == st.queues;
  }

  lemma SuspendStops(st: State, t: Tid, reason: Mode)
    requires Queueable(st, t)
    ensures Stops(st, Suspend(st, t, reason), t, st.threads[t], reason) && SameIpc(st, Suspend(st, t, reason))
  {
    hide Suspend, Removed, WithoutIt, Distinct;
    SuspendFields(st, t, reason);
    SuspendQueue(st, t, reason);
    var q := st.queues[RUN_QUEUE];
    if t in q {
      RemovedIs(q, t);
    }
    assert st.queues[RUN_QUEUE := q] == st.queues;
  }

  lemma SuspendFields(st: State, t: Tid, reason: Mode)
    requires Queueable(st, t) && t in st.threads && |st.queues| == NUM_PRIORITIES
    ensures var st' := Suspend(st, t, reason);
      && st'.threads == st.threads[t := st.threads[t].(mode := st.threads[t].mode + {reason}, runqueue := None)]
      && st'.pending == (st.pending || st.current == Some(t))
      && st'.current == st.current && st'.cpu == st.cpu && st'.endpoints == st.endpoints && st'.mem == st.mem
  {
    hide Suspend, Queueable;
    SuspendEffect(st, t, reason);
    SuspendRest(st, t, reason);
  }

  lemma SuspendRest(st: State, t: Tid, reason: Mode)
    requires Queueable(st, t)
    ensures var st' := Suspend(st, t, reason);
      t in st'.threads && st'.threads[t].runqueue == None && st'.pending == (st.pending || st.current == Some(t))
  {
    hide Removed, Distinct;
  }

  lemma SuspendQueue(st: State, t: Tid, reason: Mode)
    requires Queueable(st, t)
    ensures var q := st.queues[RUN_QUEUE];
      Suspend(st, t, reason).queues == if t in q then st.queues[RUN_QUEUE := Removed(q, t)] else st.queues
  {
    hide Removed, Distinct;
  }

  lemma RemovedIs(q: seq<Tid>, t: Tid)
    requires Distinct(q) && t in q
    ensures WithoutIt(q, Removed(q, t), t)
  {
    var k :| 0 <= k < |q| && q[k] == t;
    RemovedAt(q, t, k);
  }

  /// A thread whose other fields were changed first.
  lemma WakesFrom(st: State, st3: State, st': State, t: Tid, th: Thread, reason: Mode)
    requires t in st.threads && |st.queues| == NUM_PRIORITIES && st3.threads == st.threads[t := th]
    requires th.mode == st.threads[t].mode && th.runqueue == st.threads[t].runqueue
    requires st3.queues == st.queues && st3.pending == st.pending && st3.current == st.current && st3.cpu == st.cpu
    requires Wakes(st3, st', t, th, reason)
    ensures Wakes(st, st', t, th, reason)
  {
  }

  lemma StopsFrom(st: State, st3: State, st': State, t: Tid, th: Thread, reason: Mode)
    requires t in st.threads && |st.queues| == NUM_PRIORITIES && st3.threads == st.threads[t := th]
    requires th.mode == st.threads[t].mode
    requires st3.queues == st.queues && st3.pending == st.pending && st3.current == st.current && st3.cpu == st.cpu
    requires Stops(st3, st', t, th, reason)
    ensures Stops(st, st', t, th, reason)
  {
    hide WithoutIt;
  }

  lemma QueuedIff(st: State, t: Tid)
    requires Scheduled(st) && t in st.threads
    ensures Queueable(st, t)
  {
    assert QueueOk(st, t);
  }

  lemma SendDoes(st: State, e: Eid, buf: Buf, badge: nat)
    requires e in st.endpoints && st.current.Some?
    requires forall r :: r in st.endpoints[e].receiving ==> r in st.threads
    requires st.endpoints[e].receiving != [] ==> Queueable(st, st.endpoints[e].receiving[0])
    requires Queueable(st, st.current.value)
    ensures Sends(st, Send(st, e, buf, badge), e, buf, badge)
  {
    hide Resume, Suspend, Wakes, Stops, Distinct;
    var ep, t := st.endpoints[e], st.current.value;
    if ep.receiving != [] {
      var r := ep.receiving[0];
      var th := st.threads[r].(onReceive := false, blockedOn := None);
      var st3 := st.(endpoints := st.endpoints[e := ep.(receiving := ep.receiving[1..])], threads := st.threads[r := th],
        mem := Deliver(st.mem, buf, st.threads[r].buffer, badge));
      ResumeWakes(st3, r, Blocked);
      WakesFrom(st, st3, Resume(st3, r, Blocked), r, th, Blocked);
      assert Send(st, e, buf, badge) == Resume(st3, r, Blocked);
    } else {
      var th := st.threads[t].(buffer := buf, badge := badge, blockedOn := Some(e), onSend := true);
      var st2 := st.(threads := st.threads[t := th], endpoints := st.endpoints[e := ep.(sending := ep.sending + [t])]);
      SuspendStops(st2, t, Blocked);
      StopsFrom(st, st2, Suspend(st2, t, Blocked), t, th, Blocked);
      assert Send(st, e, buf, badge) == Suspend(st2, t, Blocked);
    }
  }

  lemma ReceiveDoes(st: State, e: Eid, buf: Buf, badge: nat)
    requires e in st.endpoints && st.current.Some?
    requires forall s :: s in st.endpoints[e].sending ==> s in st.threads
    requires st.endpoints[e].sending != [] ==> Queueable(st, st.endpoints[e].sending[0])
    requires Queueable(st, st.current.value)
    ensures Receives(st, Receive(st, e, buf, badge), e, buf, badge)
  {
    hide Resume, Suspend, Wakes, Stops, Distinct;
    var ep, t := st.endpoints[e], st.current.value;
    if ep.sending != [] {
      var s := ep.sending[0];
      var th := st.threads[s].(onSend := false, blockedOn := None);
      var st3 := st.(endpoints := st.endpoints[e := ep.(sending := ep.sending[1..])], threads := st.threads[s := th],
        mem := Deliver(st.mem, st.threads[s].buffer, buf, st.threads[s].badge));
      ResumeWakes(st3, s, Blocked);
      WakesFrom(st, st3, Resume(st3, s, Blocked), s, th, Blocked);
      assert Receive(st, e, buf, badge) == Resume(st3, s, Blocked);
    } else {
      var th := st.threads[t].(buffer := buf, badge := badge, blockedOn := Some(e), onReceive := true);
      var st2 := st.(threads := st.threads[t := th], endpoints := st.endpoints[e := ep.(receiving := ep.receiving + [t])]);
      SuspendStops(st2, t, Blocked);
      StopsFrom(st, st2, Suspend(st2, t, Blocked), t, th, Blocked);
      assert Receive(st, e, buf, badge) == Suspend(st2, t, Blocked);
    }
  }

  /// What a rendezvous on `e` can wake or stop.
  lemma PartiesQueueable(st: State, e: Eid)
    requires Ready(st) && e in st.endpoints
    ensures forall r :: r in st.endpoints[e].receiving ==> r in st.threads
    ensures forall s :: s in st.endpoints[e].sending ==> s in st.threads
    ensures st.endpoints[e].receiving != [] ==> Queueable(st, st.endpoints[e].receiving[0])
    ensures st.endpoints[e].sending != [] ==> Queueable(st, st.endpoints[e].sending[0])
    ensures Queueable(st, st.current.value)
  {
    Parties(st, e);
    var ep := st.endpoints[e];
    QueuedIff(st, st.current.value);
    if ep.receiving != [] {
      assert ep.receiving[0] in ep.receiving;
      QueuedIff(st, ep.receiving[0]);
    }
    if ep.sending != [] {
      assert ep.sending[0] in ep.sending;
      QueuedIff(st, ep.sending[0]);
    }
    hide Scheduled, Rendezvous, Queueable;
  }

  /// Every call has its effect, and no other.
  lemma CallDoes(st: State, c: Call)
    requires Ready(st)
    ensures |st.queues| == NUM_PRIORITIES && Called(st, Handle(st, c), c)
  {
    QueuedIff(st, st.current.value);
    hide Rendezvous, Scheduled, Send, Receive, Sends, Receives, Resume, Suspend, Wakes, Stops;
    match c {
      case SendTo(e, buf, badge) => if e in st.endpoints { PartiesQueueable(st, e); SendDoes(st, e, buf, badge); }
      case ReceiveFrom(e, buf, badge) => if e in st.endpoints { PartiesQueueable(st, e); ReceiveDoes(st, e, buf, badge); }
      case ResumeThread(t) => if t in st.threads { QueuedIff(st, t); ResumeWakes(st, t, Suspended); }
      case SuspendThread(t) => if t in st.threads { QueuedIff(st, t); SuspendStops(st, t, Suspended); }
      case Fault => SuspendStops(st, st.current.value, Suspended);
      case _ =>
    }
  }

  lemma SwitchDoes(st: State)
    requires Scheduled(st)
    ensures |st.queues| == NUM_PRIORITIES && (st.current.Some? ==> st.current.value in st.threads)
    ensures forall i, t :: 0 <= i < |st.queues| && t in st.queues[i] ==> t in st.threads
    ensures Switched(st, Switch(st))
  {
    ScheduledKnown(st);
    InvQueued(st);
    if st.pending {
      if st.queues[RUN_QUEUE] == [] {
        SwitchAloneEffect(st);
      } else {
        SwitchEffect(st);
      }
    }
    hide Scheduled, SwitchedTo;
  }
}

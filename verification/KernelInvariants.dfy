/**
Every trap keeps the invariant of KernelState: run queues and endpoint queues agree with the threads.
*/
module KernelInvariants {
  import opened Basics
  import opened KernelState

  // ---------------------------------------------------------------- run queues

  lemma {:induction false} RemovedDistinct(q: seq<Tid>, t: Tid)
    requires Distinct(q)
    ensures Distinct(Removed(q, t))
  {
    if q != [] {
      var rest := Removed(q[1..], t);
      RemovedDistinct(q[1..], t);
      assert q[0] !in q[1..];
      assert q[0] !in rest;
      var r := Removed(q, t);
      if q[0] != t {
        assert r == [q[0]] + rest;
        forall i, j | 0 <= i < j < |r| ensures r[i] != r[j] {
          assert r[j] == rest[j - 1];
        }
      }
    }
  }

  lemma {:induction false} RemovedAt(q: seq<Tid>, t: Tid, k: nat)
    requires Distinct(q) && k < |q| && q[k] == t
    ensures Removed(q, t) == q[..k] + q[k + 1..]
  {
    if k == 0 {
      assert t !in q[1..];
      RemovedNone(q[1..], t);
    } else {
      RemovedAt(q[1..], t, k - 1);
      assert q[1..][..k - 1] == q[1..k] && q[..k] == [q[0]] + q[1..k];
    }
  }

  lemma {:induction false} RemovedNone(q: seq<Tid>, t: Tid)
    requires t !in q
    ensures Removed(q, t) == q
  {
    if q != [] {
      RemovedNone(q[1..], t);
    }
  }

  /// Nothing that the scheduler looks at has changed.
  ghost predicate SameSchedule(st: State, st': State) {
    && st'.queues == st.queues && st'.current == st.current && st'.pending == st.pending
    && st'.threads.Keys == st.threads.Keys
    && forall t :: t in st.threads ==>
         st'.threads[t].mode == st.threads[t].mode && st'.threads[t].runqueue == st.threads[t].runqueue && st'.threads[t].running == st.threads[t].running
  }

  lemma SameScheduled(st: State, st': State)
    requires Scheduled(st) && SameSchedule(st, st')
    ensures Scheduled(st')
  {
    forall t | t in st'.threads ensures QueueOk(st', t) {
      assert QueueOk(st, t);
    }
  }

  lemma ResumeScheduled(st: State, t: Tid, reason: Mode)
    requires Scheduled(st) && t in st.threads
    ensures Scheduled(Resume(st, t, reason))
  {
    hide QueueOk, Distinct;
    var st' := Resume(st, t, reason);
    assert QueueOk(st, t);
    ResumeQueue(st, t, reason);
    forall u | u in st'.threads ensures QueueOk(st', u) {
      assert QueueOk(st, u);
      ResumeQueueOk(st, t, reason, u);
    }
  }

  lemma ResumeQueue(st: State, t: Tid, reason: Mode)
    requires t in st.threads && |st.queues| == NUM_PRIORITIES && Distinct(st.queues[RUN_QUEUE]) && QueueOk(st, t)
    ensures Distinct(Resume(st, t, reason).queues[RUN_QUEUE])
  {
  }

  lemma ResumeQueueOk(st: State, t: Tid, reason: Mode, u: Tid)
    requires t in st.threads && u in st.threads && |st.queues| == NUM_PRIORITIES && QueueOk(st, t) && QueueOk(st, u)
    ensures var st' := Resume(st, t, reason); u in st'.threads && |st'.queues| == NUM_PRIORITIES && QueueOk(st', u)
  {
  }

  lemma SuspendScheduled(st: State, t: Tid, mode: Mode)
    requires Scheduled(st) && t in st.threads
    ensures Scheduled(Suspend(st, t, mode))
  {
    var st' := Suspend(st, t, mode);
    assert QueueOk(st, t);
    RemovedDistinct(st.queues[RUN_QUEUE], t);
    assert mode in st'.threads[t].mode;
    forall u | u in st'.threads ensures QueueOk(st', u) {
      assert QueueOk(st, u);
    }
  }

  // ---------------------------------------------------------------- endpoints

  ghost predicate SameWait(th: Thread, th': Thread) {
    && (Blocked in th'.mode <==> Blocked in th.mode)
    && th'.blockedOn == th.blockedOn && th'.onSend == th.onSend && th'.onReceive == th.onReceive
  }

  ghost predicate SameWaits(st: State, st': State, but: Tid) {
    && st'.threads.Keys == st.threads.Keys
    && forall t :: t in st.threads && t != but ==> SameWait(st.threads[t], st'.threads[t])
  }

  lemma SameRendezvous(st: State, st': State)
    requires Rendezvous(st) && st'.endpoints == st.endpoints
    requires st'.threads.Keys == st.threads.Keys && forall t :: t in st.threads ==> SameWait(st.threads[t], st'.threads[t])
    ensures Rendezvous(st')
  {
    forall e | e in st'.endpoints ensures EndpointOk(st', e) {
      assert EndpointOk(st, e);
    }
  }

  /// The first waiter on `e` is released.
  lemma ReleaseRendezvous(st: State, st': State, e: Eid, r: Tid, ep: Endpoint)
    requires Rendezvous(st) && e in st.endpoints && SameWaits(st, st', r)
    requires r in st.threads && Blocked !in st'.threads[r].mode
    requires st'.threads[r].blockedOn == None && !st'.threads[r].onSend && !st'.threads[r].onReceive
    requires st'.endpoints == st.endpoints[e := ep]
    requires (ep.sending == st.endpoints[e].sending && st.endpoints[e].receiving == [r] + ep.receiving)
          || (ep.receiving == st.endpoints[e].receiving && st.endpoints[e].sending == [r] + ep.sending)
    ensures Rendezvous(st')
  {
    hide EndpointOk, SameWaits, BlockedOk;
    WaitsThere(st, e, r);
    ReleaseThreads(st, st', r);
    ReleaseEndpoint(st, st', e, r, ep);
    forall f | f in st'.endpoints && f != e ensures EndpointOk(st', f) {
      assert EndpointOk(st, f);
      ElsewhereEndpoint(st, st', e, r, f);
    }
  }

  lemma ReleaseThreads(st: State, st': State, r: Tid)
    requires Rendezvous(st) && SameWaits(st, st', r) && r in st.threads && Blocked !in st'.threads[r].mode
    requires st'.threads[r].blockedOn == None && !st'.threads[r].onSend && !st'.threads[r].onReceive
    ensures st'.threads.Keys == st.threads.Keys
    ensures forall t :: t in st'.threads ==> BlockedOk(st'.threads[t])
    ensures forall t :: t in st'.threads && st'.threads[t].blockedOn.Some? ==> st'.threads[t].blockedOn.value in st.endpoints
  {
    hide EndpointOk;
  }

  lemma WaitsThere(st: State, e: Eid, r: Tid)
    requires e in st.endpoints && r in st.threads && EndpointOk(st, e) && BlockedOk(st.threads[r])
    requires (st.endpoints[e].sending != [] && st.endpoints[e].sending[0] == r) || (st.endpoints[e].receiving != [] && st.endpoints[e].receiving[0] == r)
    ensures st.threads[r].blockedOn == Some(e)
  {
    assert r in st.endpoints[e].sending || r in st.endpoints[e].receiving;
  }

  lemma ReleaseEndpoint(st: State, st': State, e: Eid, r: Tid, ep: Endpoint)
    requires e in st.endpoints && EndpointOk(st, e) && SameWaits(st, st', r)
    requires r in st.threads && BlockedOk(st.threads[r]) && st'.threads[r].blockedOn == None
    requires st'.endpoints == st.endpoints[e := ep]
    requires (ep.sending == st.endpoints[e].sending && st.endpoints[e].receiving == [r] + ep.receiving)
          || (ep.receiving == st.endpoints[e].receiving && st.endpoints[e].sending == [r] + ep.sending)
    ensures EndpointOk(st', e)
  {
    var ep0 := st.endpoints[e];
    assert forall x :: x in [r] + ep.receiving <==> x == r || x in ep.receiving;
    assert forall x :: x in [r] + ep.sending <==> x == r || x in ep.sending;
    assert ep0.receiving == [r] + ep.receiving ==> r !in ep.receiving && Distinct(ep.receiving) by {
      TailDistinct(r, ep.receiving);
    }
    assert ep0.sending == [r] + ep.sending ==> r !in ep.sending && Distinct(ep.sending) by {
      TailDistinct(r, ep.sending);
    }
  }

  lemma TailDistinct(r: Tid, q: seq<Tid>)
    ensures Distinct([r] + q) ==> r !in q && Distinct(q)
  {
    var s := [r] + q;
    if Distinct(s) {
      assert forall i :: 0 <= i < |q| ==> q[i] == s[i + 1] != s[0];
    }
  }

  /// Thread `t` joins a queue of `e` whose opposite queue is empty.
  lemma JoinRendezvous(st: State, st': State, e: Eid, t: Tid, ep: Endpoint)
    requires Rendezvous(st) && e in st.endpoints && SameWaits(st, st', t)
    requires t in st.threads && st.threads[t].blockedOn.None? && Blocked in st'.threads[t].mode && st'.threads[t].blockedOn == Some(e)
    requires st'.endpoints == st.endpoints[e := ep]
    requires Joins(st, st', e, t, ep)
    ensures Rendezvous(st')
  {
    assert EndpointOk(st, e);
    JoinEndpoint(st, st', e, t, ep);
    forall f | f in st'.endpoints && f != e ensures EndpointOk(st', f) {
      assert EndpointOk(st, f);
      ElsewhereEndpoint(st, st', e, t, f);
    }
  }

  lemma ElsewhereEndpoint(st: State, st': State, e: Eid, t: Tid, f: Eid)
    requires f in st.endpoints && f in st'.endpoints && st'.endpoints[f] == st.endpoints[f] && f != e
    requires EndpointOk(st, f) && SameWaits(st, st', t) && t in st.threads
    requires st.threads[t].blockedOn != Some(f) && st'.threads[t].blockedOn != Some(f)
    ensures EndpointOk(st', f)
  {
  }

  ghost predicate Joins(st: State, st': State, e: Eid, t: Tid, ep: Endpoint)
    requires e in st.endpoints && t in st'.threads
  {
    if st'.threads[t].onSend then
      !st'.threads[t].onReceive && ep == Endpoint(st.endpoints[e].sending + [t], []) && st.endpoints[e].receiving == []
    else
      st'.threads[t].onReceive && ep == Endpoint([], st.endpoints[e].receiving + [t]) && st.endpoints[e].sending == []
  }

  lemma JoinEndpoint(st: State, st': State, e: Eid, t: Tid, ep: Endpoint)
    requires e in st.endpoints && EndpointOk(st, e) && SameWaits(st, st', t)
    requires t in st.threads && st.threads[t].blockedOn.None? && st'.threads[t].blockedOn == Some(e)
    requires st'.endpoints == st.endpoints[e := ep] && Joins(st, st', e, t, ep)
    ensures EndpointOk(st', e)
  {
    var ep0 := st.endpoints[e];
    assert t !in ep0.sending && t !in ep0.receiving;
    forall u ensures u in ep.sending <==> u in st'.threads && st'.threads[u].blockedOn == Some(e) && st'.threads[u].onSend {
      assert u != t ==> (u in ep.sending <==> u in ep0.sending);
    }
    forall u ensures u in ep.receiving <==> u in st'.threads && st'.threads[u].blockedOn == Some(e) && st'.threads[u].onReceive {
      assert u != t ==> (u in ep.receiving <==> u in ep0.receiving);
    }
  }

  // ---------------------------------------------------------------- traps

  /// What Resume and Suspend leave alone.
  lemma ResumeEffect(st: State, t: Tid, reason: Mode)
    requires t in st.threads && |st.queues| == NUM_PRIORITIES
    ensures var st' := Resume(st, t, reason);
      && st'.endpoints == st.endpoints && st'.mem == st.mem && st'.current == st.current && st'.cpu == st.cpu
      && st'.threads == st.threads[t := st.threads[t].(mode := st.threads[t].mode - {reason}, runqueue := st'.threads[t].runqueue)]
  {
  }

  lemma SuspendEffect(st: State, t: Tid, mode: Mode)
    requires t in st.threads && |st.queues| == NUM_PRIORITIES
    ensures var st' := Suspend(st, t, mode);
      && st'.endpoints == st.endpoints && st'.mem == st.mem && st'.current == st.current && st'.cpu == st.cpu
      && st'.threads == st.threads[t := st.threads[t].(mode := st.threads[t].mode + {mode}, runqueue := st'.threads[t].runqueue)]
  {
  }

  /// A waiter `r` on `e` is released after its wait fields were cleared.
  lemma MeetInv(st: State, st3: State, e: Eid, r: Tid, ep: Endpoint)
    requires Inv(st) && e in st.endpoints && r in st.threads
    requires st3.endpoints == st.endpoints[e := ep] && SameSchedule(st, st3)
    requires (ep.sending == st.endpoints[e].sending && st.endpoints[e].receiving == [r] + ep.receiving)
          || (ep.receiving == st.endpoints[e].receiving && st.endpoints[e].sending == [r] + ep.sending)
    requires st3.threads == st.threads[r := st.threads[r].(onSend := false, onReceive := false, blockedOn := None)]
    ensures Inv(Resume(st3, r, Blocked))
  {
    SameScheduled(st, st3);
    hide Scheduled, Rendezvous, SameSchedule;
    ResumeScheduled(st3, r, Blocked);
    ResumeEffect(st3, r, Blocked);
    ReleaseRendezvous(st, Resume(st3, r, Blocked), e, r, ep);
  }

  /// The running thread joins a queue of `e` after its wait fields were set.
  lemma WaitInv(st: State, st2: State, e: Eid, t: Tid, ep: Endpoint)
    requires Inv(st) && e in st.endpoints && t in st.threads && st.threads[t].blockedOn.None?
    requires st2.endpoints == st.endpoints[e := ep] && SameSchedule(st, st2)
    requires SameWaits(st, st2, t) && st2.threads[t].blockedOn == Some(e) && Joins(st, st2, e, t, ep)
    ensures Inv(Suspend(st2, t, Blocked))
  {
    SameScheduled(st, st2);
    hide Scheduled, Rendezvous, SameSchedule;
    SuspendScheduled(st2, t, Blocked);
    SuspendEffect(st2, t, Blocked);
    JoinRendezvous(st, Suspend(st2, t, Blocked), e, t, ep);
  }

  /// Who can take part in a rendezvous on `e`.
  lemma Parties(st: State, e: Eid)
    requires Ready(st) && e in st.endpoints
    ensures st.current.Some?
    ensures var ep, t := st.endpoints[e], st.current.value;
      && t in st.threads && st.threads[t].blockedOn.None? && !st.threads[t].onSend && !st.threads[t].onReceive
      && (ep.receiving == [] || ep.sending == []) && |st.queues| == NUM_PRIORITIES
      && (forall r :: r in ep.receiving ==> r in st.threads && !st.threads[r].onSend)
      && (forall r :: r in ep.sending ==> r in st.threads && !st.threads[r].onReceive)
  {
    assert EndpointOk(st, e);
    assert BlockedOk(st.threads[st.current.value]);
    forall r | r in st.threads ensures BlockedOk(st.threads[r]) {
    }
  }

  /// Only thread `t` changed, and nothing that the scheduler looks at.
  lemma OnlyOne(st: State, st2: State, t: Tid)
    requires t in st.threads && t in st2.threads && st2.threads == st.threads[t := st2.threads[t]]
    requires st2.threads[t].mode == st.threads[t].mode && st2.threads[t].runqueue == st.threads[t].runqueue
    requires st2.threads[t].running == st.threads[t].running
    requires st2.queues == st.queues && st2.current == st.current && st2.pending == st.pending
    ensures SameWaits(st, st2, t) && SameSchedule(st, st2)
  {
  }

  lemma SendInv(st: State, e: Eid, buf: Buf, badge: nat)
    requires Ready(st) && e in st.endpoints
    ensures Inv(Send(st, e, buf, badge))
  {
    Parties(st, e);
    hide Scheduled, Rendezvous, SameWaits, SameSchedule, Resume, Suspend, Inv;
    var ep, t := st.endpoints[e], st.current.value;
    if ep.receiving != [] {
      var r := ep.receiving[0];
      var ep' := ep.(receiving := ep.receiving[1..]);
      assert ep.receiving == [r] + ep'.receiving;
      var st1 := st.(endpoints := st.endpoints[e := ep']);
      var st2 := WithThread(st1, r, st1.threads[r].(onReceive := false, blockedOn := None));
      var st3 := st2.(mem := Deliver(st2.mem, buf, st2.threads[r].buffer, badge));
      OnlyOne(st, st3, r);
      MeetInv(st, st3, e, r, ep');
    } else {
      var ep' := ep.(sending := ep.sending + [t]);
      var st1 := WithThread(st, t, st.threads[t].(buffer := buf, badge := badge, blockedOn := Some(e), onSend := true));
      var st2 := st1.(endpoints := st1.endpoints[e := ep']);
      OnlyOne(st, st2, t);
      WaitInv(st, st2, e, t, ep');
    }
  }

  lemma ReceiveInv(st: State, e: Eid, buf: Buf, badge: nat)
    requires Ready(st) && e in st.endpoints
    ensures Inv(Receive(st, e, buf, badge))
  {
    Parties(st, e);
    hide Scheduled, Rendezvous, SameWaits, SameSchedule, Resume, Suspend, Inv;
    var ep, t := st.endpoints[e], st.current.value;
    if ep.sending != [] {
      var s := ep.sending[0];
      var ep' := ep.(sending := ep.sending[1..]);
      assert ep.sending == [s] + ep'.sending;
      var st1 := st.(endpoints := st.endpoints[e := ep']);
      var st2 := WithThread(st1, s, st1.threads[s].(onSend := false, blockedOn := None));
      var st3 := st2.(mem := Deliver(st2.mem, st2.threads[s].buffer, buf, st2.threads[s].badge));
      OnlyOne(st, st3, s);
      MeetInv(st, st3, e, s, ep');
    } else {
      var ep' := ep.(receiving := ep.receiving + [t]);
      var st1 := WithThread(st, t, st.threads[t].(buffer := buf, badge := badge, blockedOn := Some(e), onReceive := true));
      var st2 := st1.(endpoints := st1.endpoints[e := ep']);
      OnlyOne(st, st2, t);
      WaitInv(st, st2, e, t, ep');
    }
  }

  lemma WriteRegistersInv(st: State, t: Tid, regs: Regs)
    requires Inv(st) && t in st.threads
    ensures Inv(WithThread(st, t, st.threads[t].(regs := regs)))
  {
    var st' := WithThread(st, t, st.threads[t].(regs := regs));
    OnlyOne(st, st', t);
    SameScheduled(st, st');
    hide Scheduled, Rendezvous;
    SameRendezvous(st, st');
  }

  lemma NewThreadInv(st: State, t: Tid)
    requires Inv(st) && t !in st.threads
    ensures Inv(WithThread(st, t, FRESH))
  {
    var st' := WithThread(st, t, FRESH);
    assert Suspended in FRESH.mode;
    forall u | u in st'.threads ensures QueueOk(st', u) {
      assert u != t ==> QueueOk(st, u);
    }
    forall e | e in st'.endpoints ensures EndpointOk(st', e) {
      assert EndpointOk(st, e);
    }
  }

  lemma NewEndpointInv(st: State, e: Eid)
    requires Ready(st) && e !in st.endpoints
    ensures Inv(st.(endpoints := st.endpoints[e := Endpoint([], [])]))
  {
    var st' := st.(endpoints := st.endpoints[e := Endpoint([], [])]);
    SameScheduled(st, st');
    forall f | f in st'.endpoints ensures EndpointOk(st', f) {
      assert f != e ==> EndpointOk(st, f);
    }
  }

  lemma YieldInv(st: State)
    requires Inv(st)
    ensures Inv(st.(pending := true))
  {
    var st' := st.(pending := true);
    forall t | t in st.threads ensures QueueOk(st', t) {
      assert QueueOk(st, t);
    }
    SameRendezvous(st, st');
  }

  lemma ResumeInv(st: State, t: Tid)
    requires Inv(st) && t in st.threads
    ensures Inv(Resume(st, t, Suspended))
  {
    assert |st.queues| == NUM_PRIORITIES;
    hide Scheduled, Rendezvous, Resume;
    ResumeScheduled(st, t, Suspended);
    ResumeEffect(st, t, Suspended);
    SameRendezvous(st, Resume(st, t, Suspended));
  }

  lemma SuspendInv(st: State, t: Tid)
    requires Inv(st) && t in st.threads
    ensures Inv(Suspend(st, t, Suspended))
  {
    hide Scheduled, Rendezvous, Suspend;
    ScheduledKnown(st);
    SuspendScheduled(st, t, Suspended);
    SuspendEffect(st, t, Suspended);
    SameRendezvous(st, Suspend(st, t, Suspended));
  }

  /// Every call keeps the invariant.
  lemma HandleInv(st: State, c: Call)
    requires Ready(st)
    ensures Inv(Handle(st, c))
  {
    hide Rendezvous;
    match c {
      case Yield => YieldInv(st);
      case SendTo(e, buf, badge) => if e in st.endpoints { SendInv(st, e, buf, badge); }
      case ReceiveFrom(e, buf, badge) => if e in st.endpoints { ReceiveInv(st, e, buf, badge); }
      case ResumeThread(t) => if t in st.threads { ResumeInv(st, t); }
      case SuspendThread(t) => if t in st.threads { SuspendInv(st, t); }
      case WriteRegisters(t, regs) => if t in st.threads { WriteRegistersInv(st, t, regs); }
      case NewThread(t) => if t !in st.threads { NewThreadInv(st, t); }
      case NewEndpoint(e) => if e !in st.endpoints { NewEndpointInv(st, e); }
      case Fault => SuspendInv(st, st.current.value);
      case Other =>
    }
  }

  // ---------------------------------------------------------------- the context switch

  /// With the invariant, the switch looks at one queue only.
  lemma HighestIsRunQueue(queues: seq<seq<Tid>>)
    requires |queues| == NUM_PRIORITIES && forall i :: 0 <= i < NUM_PRIORITIES && i != RUN_QUEUE ==> queues[i] == []
    ensures Highest(queues, NUM_PRIORITIES) == if queues[RUN_QUEUE] == [] then 0 else NUM_PRIORITIES
  {
  }

  lemma InvQueued(st: State)
    requires Scheduled(st)
    ensures forall i, t :: 0 <= i < |st.queues| && t in st.queues[i] ==> t in st.threads
  {
  }

  /// A switch with nobody queued: the running thread goes on if it can, else the processor idles.
  lemma SwitchAloneEffect(st: State)
    requires Scheduled(st) && st.pending && st.queues[RUN_QUEUE] == []
    requires forall i, t :: 0 <= i < |st.queues| && t in st.queues[i] ==> t in st.threads
    ensures Switch(st) ==
      if st.current.None? then st.(pending := false, cpu := IDLE)
      else
        var t := st.current.value;
        if st.threads[t].mode == {} then st.(pending := false)
        else WithThread(st, t, st.threads[t].(regs := st.cpu, running := false)).(pending := false, current := None, cpu := IDLE)
  {
    HighestIsRunQueue(st.queues);
  }

  lemma ScheduledKnown(st: State)
    requires Scheduled(st)
    ensures |st.queues| == NUM_PRIORITIES && (st.current.Some? ==> st.current.value in st.threads)
  {
  }

  lemma SwitchAlone(st: State)
    requires Inv(st) && st.pending && st.queues[RUN_QUEUE] == []
    requires forall i, t :: 0 <= i < |st.queues| && t in st.queues[i] ==> t in st.threads
    ensures Inv(Switch(st)) && !Switch(st).pending
  {
    hide Switch, Rendezvous, Scheduled;
    ScheduledKnown(st);
    SwitchAloneEffect(st);
    SwitchAloneScheduled(st);
    SameRendezvous(st, Switch(st));
  }

  lemma SwitchAloneScheduled(st: State)
    requires Scheduled(st) && st.pending && st.queues[RUN_QUEUE] == []
    requires forall i, t :: 0 <= i < |st.queues| && t in st.queues[i] ==> t in st.threads
    ensures Scheduled(Switch(st))
  {
    SwitchAloneEffect(st);
    hide Switch;
    var st' := Switch(st);
    forall t | t in st'.threads ensures QueueOk(st', t) {
      assert QueueOk(st, t);
    }
  }

  lemma PopScheduled(st: State)
    requires Scheduled(st) && st.pending && st.queues[RUN_QUEUE] != []
    requires forall i, t :: 0 <= i < |st.queues| && t in st.queues[i] ==> t in st.threads
    ensures var (st1, next) := PopNext(st.(pending := false)); var q := st.queues[RUN_QUEUE];
      && next == Some(q[0]) && st1.queues == st.queues[RUN_QUEUE := q[1..]]
      && st1 == WithThread(st, q[0], st.threads[q[0]].(runqueue := None)).(queues := st1.queues, pending := false)
      && q[0] !in q[1..] && Distinct(q[1..])
  {
    HighestIsRunQueue(st.queues);
    var q := st.queues[RUN_QUEUE];
    assert q == [q[0]] + q[1..];
    TailDistinct(q[0], q[1..]);
  }

  /// Whether the running thread is queued again when `n` takes over.
  ghost predicate Requeued(st: State, n: Tid)
    requires st.current.Some? ==> st.current.value in st.threads
  {
    st.current.Some? && st.threads[st.current.value].mode == {} && (st.current.value == n || st.threads[st.current.value].runqueue.None?)
  }

  /// Thread `t` after a switch to `n`.
  ghost predicate ThreadAfter(st: State, st': State, n: Tid, t: Tid)
    requires st.current.Some? ==> st.current.value in st.threads
  {
    && t in st.threads && t in st'.threads
    && var th, th' := st.threads[t], st'.threads[t];
    && th' == th.(
         running := t == n || (st.current != Some(t) && th.running),
         regs := if st.current == Some(t) then st.cpu else th.regs,
         runqueue := if Requeued(st, n) && t == st.current.value then Some(RUN_QUEUE) else if t == n then None else th.runqueue)
  }

  /// The state after a switch to the first thread `n` of the run queue.
  ghost predicate SwitchedTo(st: State, st': State, n: Tid) {
    && |st.queues| == NUM_PRIORITIES && st.queues[RUN_QUEUE] != [] && n == st.queues[RUN_QUEUE][0]
    && st'.current == Some(n) && !st'.pending && st'.endpoints == st.endpoints && st'.mem == st.mem
    && st'.threads.Keys == st.threads.Keys
    && n in st.threads && (st.current.Some? ==> st.current.value in st.threads)
    && st'.cpu == (if st.current == Some(n) then st.cpu else st.threads[n].regs)
    && st'.queues == st.queues[RUN_QUEUE := st.queues[RUN_QUEUE][1..] + if Requeued(st, n) then [st.current.value] else []]
    && forall t {:trigger ThreadAfter(st, st', n, t)} :: t in st.threads ==> ThreadAfter(st, st', n, t)
  }

  lemma SwitchEffect(st: State)
    requires Scheduled(st) && st.pending && st.queues[RUN_QUEUE] != []
    requires forall i, t :: 0 <= i < |st.queues| && t in st.queues[i] ==> t in st.threads
    ensures SwitchedTo(st, Switch(st), st.queues[RUN_QUEUE][0])
  {
    PopScheduled(st);
    assert QueueOk(st, st.queues[RUN_QUEUE][0]);
    hide Scheduled, PopNext, Leave, Enter, SwitchedTo;
    var (st1, next) := PopNext(st.(pending := false));
    TakeOver(st, st1, next.value);
  }

  ghost predicate Popped(st: State, st1: State, n: Tid) {
    && |st.queues| == NUM_PRIORITIES && st.queues[RUN_QUEUE] != [] && n == st.queues[RUN_QUEUE][0] && n in st.threads
    && (st.current.Some? ==> st.current.value in st.threads)
    && st1 == WithThread(st, n, st.threads[n].(runqueue := None)).(queues := st.queues[RUN_QUEUE := st.queues[RUN_QUEUE][1..]], pending := false)
  }

  lemma TakeOver(st: State, st1: State, n: Tid)
    requires Popped(st, st1, n)
    ensures SwitchedTo(st, Enter(Leave(st1, Some(n)), Some(n)), n)
  {
    hide Leave, Enter, ThreadAfter;
    LeaveEffect(st1, n);
    EnterEffect(Leave(st1, Some(n)), n);
    var st' := Enter(Leave(st1, Some(n)), Some(n));
    forall t | t in st.threads ensures ThreadAfter(st, st', n, t) {
      TakeOverThread(st, st1, n, t);
    }
    assert st.queues[RUN_QUEUE][1..] + [] == st.queues[RUN_QUEUE][1..];
  }

  /// What the running thread leaves behind.
  lemma LeaveEffect(st: State, n: Tid)
    requires |st.queues| == NUM_PRIORITIES && n in st.threads && (st.current.Some? ==> st.current.value in st.threads)
    ensures var st' := Leave(st, Some(n));
      && st'.threads.Keys == st.threads.Keys && st'.endpoints == st.endpoints && st'.mem == st.mem && st'.pending == st.pending
      && st'.queues == (if st.current.Some? && st.threads[st.current.value].mode == {} && st.threads[st.current.value].runqueue.None?
           then st.queues[RUN_QUEUE := st.queues[RUN_QUEUE] + [st.current.value]] else st.queues)
      && forall t :: t in st.threads ==> st'.threads[t] == if st.current == Some(t) then Saved(st, t) else st.threads[t]
  {
    hide Queue;
    if st.current.Some? {
      var c := st.current.value;
      QueueEffect(WithThread(st, c, st.threads[c].(regs := st.cpu, running := false)), c);
    }
  }

  /// The running thread, saved and put back in the queue unless something else holds it.
  ghost function Saved(st: State, t: Tid): Thread
    requires t in st.threads
  {
    var th := st.threads[t].(regs := st.cpu, running := false);
    if th.mode == {} && th.runqueue.None? then th.(runqueue := Some(RUN_QUEUE)) else th
  }

  lemma EnterEffect(st: State, n: Tid)
    requires n in st.threads
    ensures var st' := Enter(st, Some(n));
      && st'.threads == st.threads[n := st.threads[n].(running := true)] && st'.endpoints == st.endpoints && st'.mem == st.mem
      && st'.pending == st.pending && st'.cpu == st.threads[n].regs
      && st'.queues == st.queues && st'.current == Some(n)
  {
  }

  lemma TakeOverThread(st: State, st1: State, n: Tid, t: Tid)
    requires Popped(st, st1, n) && t in st.threads
    ensures ThreadAfter(st, Enter(Leave(st1, Some(n)), Some(n)), n, t)
  {
    hide Leave, Enter;
    LeaveEffect(st1, n);
    EnterEffect(Leave(st1, Some(n)), n);
  }

  lemma QueueEffect(st: State, t: Tid)
    requires t in st.threads && |st.queues| == NUM_PRIORITIES
    ensures var th, st' := st.threads[t], Queue(st, t);
      && st' == st.(threads := st'.threads, queues := st'.queues)
      && st'.threads == st.threads[t := th.(runqueue := if th.runqueue.Some? then th.runqueue else Some(RUN_QUEUE))]
      && st'.queues == if th.runqueue.Some? then st.queues else st.queues[RUN_QUEUE := st.queues[RUN_QUEUE] + [t]]
  {
  }

  lemma SwitchScheduled(st: State, st': State, n: Tid)
    requires Scheduled(st) && SwitchedTo(st, st', n)
    ensures Scheduled(st')
  {
    var q := st.queues[RUN_QUEUE];
    assert q == [n] + q[1..];
    TailDistinct(n, q[1..]);
    assert n in q && QueueOk(st, n);
    if st.current.Some? {
      assert QueueOk(st, st.current.value);
    }
    forall t | t in st'.threads ensures QueueOk(st', t) {
      assert QueueOk(st, t) && ThreadAfter(st, st', n, t);
      assert t in q <==> t == n || t in q[1..];
    }
    assert ThreadAfter(st, st', n, n);
  }

  lemma SwitchTo(st: State)
    requires Inv(st) && st.pending && st.queues[RUN_QUEUE] != []
    requires forall i, t :: 0 <= i < |st.queues| && t in st.queues[i] ==> t in st.threads
    ensures Inv(Switch(st)) && !Switch(st).pending && Switch(st).current == Some(st.queues[RUN_QUEUE][0])
  {
    SwitchEffect(st);
    var n, st' := st.queues[RUN_QUEUE][0], Switch(st);
    SwitchScheduled(st, st', n);
    hide Scheduled, Rendezvous, Switch;
    forall t | t in st.threads ensures SameWait(st.threads[t], st'.threads[t]) {
      assert ThreadAfter(st, st', n, t);
    }
    SameRendezvous(st, st');
  }

  lemma SwitchInv(st: State)
    requires Inv(st)
    ensures forall i, t :: 0 <= i < |st.queues| && t in st.queues[i] ==> t in st.threads
    ensures Inv(Switch(st)) && !Switch(st).pending
    ensures Switch(st).current.None? ==> Switch(st).queues[RUN_QUEUE] == []
    ensures st.pending && st.queues[RUN_QUEUE] != [] ==> Switch(st).current == Some(st.queues[RUN_QUEUE][0])
  {
    InvQueued(st);
    if st.pending {
      if st.queues[RUN_QUEUE] == [] {
        SwitchAlone(st);
      } else {
        SwitchTo(st);
      }
    }
  }
}

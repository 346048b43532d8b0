/**
The scheduler and the endpoints as the kernel runs them: one object whose run queue is an intrusive
list. Each operation is proved against its effect on the value in KernelState, with the one
exception that the links make: suspending a thread that heads the run queue and still points
back at a popped thread.
*/
module Kernel {
  import opened Basics
  import opened KernelState
  import opened KernelCalls
  import opened KernelInvariants
  import opened KernelRuns
  import opened ThreadQueues
  import Lists = ContainerLists

  // ---------------------------------------------------------------- the value and the links

  /// Threads know whether they are queued, and only one run queue is used.
  ghost predicate Shaped(st: State) {
    && |st.queues| == NUM_PRIORITIES
    && (forall i :: 0 <= i < NUM_PRIORITIES && i != RUN_QUEUE ==> st.queues[i] == [])
    && (forall t :: t in RunQueue(st) <==> t in st.threads && st.threads[t].runqueue.Some?)
    && (forall t :: t in st.threads ==> st.threads[t].runqueue == None || st.threads[t].runqueue == Some(RUN_QUEUE))
    && (st.current.Some? ==> st.current.value in st.threads)
  }

  lemma QueueShaped(st: State, t: Tid)
    requires Shaped(st) && t in st.threads
    ensures Shaped(Queue(st, t))
    ensures st.threads[t].runqueue.Some? <==> t in RunQueue(st)
    ensures st.threads[t].runqueue.None? ==> RunQueue(Queue(st, t)) == RunQueue(st) + [t]
  {
  }

  /// What has nothing to do with queues keeps the shape.
  lemma OtherShaped(st: State, st': State)
    requires Shaped(st) && st'.queues == st.queues && st'.current == st.current && st.threads.Keys == st'.threads.Keys
    requires forall t :: t in st.threads ==> st'.threads[t].runqueue == st.threads[t].runqueue
    ensures Shaped(st')
  {
  }

  lemma SuspendIs(st: State, t: Tid, mode: Mode)
    requires Shaped(st) && t in st.threads
    ensures Suspend(st, t, mode) == st.(
      threads := st.threads[t := st.threads[t].(mode := st.threads[t].mode + {mode}, runqueue := None)],
      pending := st.pending || st.current == Some(t), queues := Suspend(st, t, mode).queues)
    ensures Suspend(st, t, mode).queues ==
      if t in RunQueue(st) then st.queues[RUN_QUEUE := Removed(RunQueue(st), t)] else st.queues
    ensures st.threads[t].runqueue.Some? <==> t in RunQueue(st)
  {
    hide Removed;
  }

  lemma SuspendShaped(st: State, t: Tid, mode: Mode)
    requires Shaped(st) && t in st.threads
    ensures Shaped(Suspend(st, t, mode))
    ensures RunQueue(Suspend(st, t, mode)) == if t in RunQueue(st) then Removed(RunQueue(st), t) else RunQueue(st)
  {
    hide Suspend, Removed;
    SuspendIs(st, t, mode);
  }

  lemma ShapedQueueable(st: State, t: Tid)
    requires Shaped(st) && Distinct(RunQueue(st)) && t in st.threads
    ensures Queueable(st, t)
  {
  }

  /// The queues hold known threads.
  lemma ShapedKnown(st: State)
    requires Shaped(st)
    ensures forall i, t :: 0 <= i < |st.queues| && t in st.queues[i] ==> t in st.threads
  {
    assert forall t :: t in RunQueue(st) ==> t in st.threads;
  }

  lemma PopShaped(st: State)
    requires Shaped(st) && Distinct(RunQueue(st))
    requires forall i, t :: 0 <= i < |st.queues| && t in st.queues[i] ==> t in st.threads
    ensures var (st', next) := PopNext(st); var q := RunQueue(st);
      && Shaped(st')
      && (q == [] ==> next.None? && st' == st)
      && (q != [] ==> next == Some(q[0]) && q[0] in st.threads && RunQueue(st') == q[1..])
      && (q != [] ==> st' == st.(threads := st.threads[q[0] := st.threads[q[0]].(runqueue := None)], queues := st'.queues))
  {
    HighestIsRunQueue(st.queues);
    var q := RunQueue(st);
    if q != [] {
      assert q == [q[0]] + q[1..];
      TailDistinct(q[0], q[1..]);
    }
  }

  lemma PopKnown(st: State)
    requires Shaped(st)
    requires forall i, t :: 0 <= i < |st.queues| && t in st.queues[i] ==> t in st.threads
    ensures PopNext(st).0.threads.Keys == st.threads.Keys
    ensures PopNext(st).1.Some? ==> PopNext(st).1.value in st.threads
    ensures RunQueue(st) != [] ==> RunQueue(st)[0] in st.threads
  {
  }

  /// Saving the running thread, and letting another one run.
  lemma SaveShaped(st: State, t: Tid, regs: Regs, running: bool, current: Option<Tid>)
    requires Shaped(st) && t in st.threads && (current.Some? ==> current.value in st.threads)
    ensures Shaped(WithThread(st, t, st.threads[t].(regs := regs, running := running)).(current := current))
    ensures Shaped(WithThread(st, t, st.threads[t].(regs := regs, running := running)))
  {
  }

  lemma CurrentKnown(st: State)
    requires Shaped(st)
    ensures st.current.Some? ==> st.current.value in st.threads
  {
  }

  lemma EnterShaped(st: State, next: Option<Tid>)
    requires Shaped(st) && (next.Some? ==> next.value in st.threads)
    ensures Shaped(Enter(st, next)) && Enter(st, next).queues == st.queues
  {
  }

  lemma NewThreadShaped(st: State, t: Tid)
    requires Shaped(st) && t !in st.threads
    ensures Shaped(WithThread(st, t, FRESH))
  {
  }

  /// Resuming a new thread on an idle processor asks for a context switch to it.
  lemma ResumeFirst(st: State, t: Tid)
    requires Inv(st) && st.current.None? && !st.pending && t in st.threads && st.threads[t] == FRESH
    ensures |st.queues| == NUM_PRIORITIES
    ensures var st' := Resume(st, t, Suspended); st'.pending && |st'.queues| == NUM_PRIORITIES && RunQueue(st') == [t]
  {
    assert QueueOk(st, t);
    assert {Suspended} - {Suspended} == {};
  }

  /// A yield turns the queue by one place.
  lemma YieldTurns(st: State)
    requires Ready(st) && |st.queues| == NUM_PRIORITIES && |RunQueue(st)| >= 2
    ensures Handle(st, Yield).queues == st.queues && Handle(st, Yield).pending
    ensures var q := Step(st, Yield).queues[RUN_QUEUE]; q != [] && q[0] == RunQueue(st)[1]
  {
    HandleInv(st, Yield);
    SwitchEffect(Handle(st, Yield));
  }

  lemma HeadKnown(st: State)
    requires Shaped(st)
    ensures |st.queues| == NUM_PRIORITIES && (RunQueue(st) != [] ==> RunQueue(st)[0] in st.threads)
  {
  }

  /// Taking out the one occurrence is taking out all.
  lemma RemovedFrom(q: seq<Tid>, t: Tid)
    requires Distinct(q)
    ensures forall r :: WithoutIt(q, r, t) ==> r == Removed(q, t)
  {
    forall k | 0 <= k < |q| && q[k] == t ensures q[..k] + q[k + 1..] == Removed(q, t) {
      RemovedAt(q, t, k);
    }
  }

  method EmptyContainers(n: nat) returns (cs: seq<Lists.Container>)
    ensures |cs| == n && forall i :: 0 <= i < n ==> cs[i].start == null && fresh(cs[i])
  {
    cs := [];
    while |cs| < n
      invariant |cs| <= n && forall i :: 0 <= i < |cs| ==> cs[i].start == null && fresh(cs[i])
    {
      var c := new Lists.Container(|cs|);
      cs := cs + [c];
    }
  }

  class Machine {
    var threads: map<Tid, Thread>
    var endpoints: map<Eid, Endpoint>
    const run: ThreadQueue
    /// The other priorities; nothing is ever queued there.
    const lower: seq<Lists.Container>
    var current: Option<Tid>
    var pending: bool
    var cpu: Regs
    var mem: map<Buf, Message>
    /// The state as a value, and what was sent and received.
    ghost var st: State
    ghost var logs: map<Eid, Log>

    ghost predicate Mirrors()
      reads this
    {
      && st.threads == threads && st.endpoints == endpoints && st.current == current
      && st.pending == pending && st.cpu == cpu && st.mem == mem
      && |st.queues| == NUM_PRIORITIES && Shaped(st)
    }

    /// The queues of the other priorities are empty, and no part of the run queue.
    ghost predicate LowerEmpty()
      reads this, lower, run
    {
      |lower| == RUN_QUEUE && forall i :: 0 <= i < RUN_QUEUE ==> lower[i].start == null && lower[i] !in run.Repr
    }

    /// The fields agree with the state, and the linked run queue holds the run queue of the state.
    ghost predicate Valid()
      reads this, run, run.Repr, lower
    {
      Mirrors() && run.Valid() && run in run.Repr && this !in run.Repr && run.q == RunQueue(st) && LowerEmpty()
    }

    /// init_scheduler, with no threads and no endpoints yet.
    constructor ()
      ensures Valid() && Inv(st) && LogsOk(st, logs) && !pending && current.None?
      ensures threads == map[] && endpoints == map[] && !run.stale && fresh(run.Repr)
    {
      threads, endpoints := map[], map[];
      run := new ThreadQueue();
      var idle := EmptyContainers(RUN_QUEUE);
      lower := idle;
      current, pending, cpu, mem := None, false, IDLE, map[];
      st := State(map[], map[], seq(NUM_PRIORITIES, i => []), None, false, IDLE, map[]);
      logs := map[];
    }

    // -------------------------------------------------------------- scheduler.c

    /// queue_thread: the linked queue holds the thread once, at its end if it was not there before.
    method QueueThread(t: Tid)
      requires Valid() && t in threads
      modifies this`threads, this`st, run.Repr
      ensures Valid() && st == Queue(old(st), t) && fresh(run.Repr - old(run.Repr)) && run.stale == old(run.stale)
      ensures threads.Keys == old(threads.Keys)
      ensures run.q == if t in old(run.q) then old(run.q) else old(run.q) + [t]
      ensures forall u :: u in threads ==> threads[u].mode == old(threads)[u].mode
    {
      hide Shaped, ThreadQueue.Valid;
      QueueShaped(st, t);
      run.Inside();
      if threads[t].runqueue.Some? {
        return;
      }
      threads := threads[t := threads[t].(runqueue := Some(RUN_QUEUE))];
      run.Append(t);
      run.Inside();
      st := Queue(st, t);
    }

    /// A thread's fields change, but not whether it is queued.
    method PutThread(t: Tid, th: Thread)
      requires Valid() && t in threads && th.runqueue == threads[t].runqueue
      modifies this`threads, this`st
      ensures Valid() && st == WithThread(old(st), t, th)
    {
      hide Shaped, ThreadQueue.Valid;
      OtherShaped(st, WithThread(st, t, th));
      threads := threads[t := th];
      st := WithThread(st, t, th);
    }

    method PutEndpoint(e: Eid, ep: Endpoint)
      requires Valid()
      modifies this`endpoints, this`st
      ensures Valid() && st == old(st).(endpoints := old(st).endpoints[e := ep])
    {
      hide Shaped, ThreadQueue.Valid;
      OtherShaped(st, st.(endpoints := st.endpoints[e := ep]));
      endpoints := endpoints[e := ep];
      st := st.(endpoints := st.endpoints[e := ep]);
    }

    method PutMessage(buf: Buf, m: Message)
      requires Valid()
      modifies this`mem, this`st
      ensures Valid() && st == old(st).(mem := old(st).mem[buf := m])
    {
      hide Shaped, ThreadQueue.Valid;
      OtherShaped(st, st.(mem := st.mem[buf := m]));
      mem := mem[buf := m];
      st := st.(mem := st.mem[buf := m]);
    }

    /// yield_thread sets the flag, and a context switch clears it.
    method SetPending(flag: bool)
      requires Valid()
      modifies this`pending, this`st
      ensures Valid() && st == old(st).(pending := flag)
    {
      hide Shaped, ThreadQueue.Valid;
      OtherShaped(st, st.(pending := flag));
      pending := flag;
      st := st.(pending := flag);
    }

    /// resume_thread: a thread with no other reason to wait joins the end of the linked queue, once, and a
    /// processor that idles is told. Nothing else changes.
    method ResumeThread(t: Tid, reason: Mode)
      requires Valid() && t in threads
      modifies this`threads, this`st, this`pending, run.Repr
      ensures |old(st).queues| == NUM_PRIORITIES && t in old(st).threads
      ensures Wakes(old(st), st, t, old(st).threads[t], reason) && SameIpc(old(st), st)
      ensures t in threads && threads[t].mode == old(threads)[t].mode - {reason}
      ensures run.q == if t in old(run.q) || threads[t].mode != {} then old(run.q) else old(run.q) + [t]
      ensures pending <==> old(pending) || (current.None? && threads[t].mode == {})
      ensures Valid() && st == Resume(old(st), t, reason) && fresh(run.Repr - old(run.Repr)) && run.stale == old(run.stale)
    {
      hide Shaped, ThreadQueue.Valid, Queue, Wakes;
      run.Inside();
      ShapedQueueable(st, t);
      ResumeWakes(st, t, reason);
      PutThread(t, threads[t].(mode := threads[t].mode - {reason}));
      if threads[t].mode == {} {
        QueueThread(t);
        if current.None? {
          SetPending(true);
        }
      }
    }

    /// `t` heads the run queue and points back at a thread that was popped.
    ghost predicate StaleHead(t: Tid)
      reads this, run
    {
      run.stale && run.q != [] && run.q[0] == t
    }

    /// LIST_REMOVE on the run queue.
    method Dequeue(t: Tid)
      requires run.Valid() && run in run.Repr && this !in run.Repr && t in run.q && LowerEmpty()
      modifies run.Repr
      ensures !old(StaleHead(t)) ==> run.Valid() && run.q == Removed(old(run.q), t)
      ensures old(StaleHead(t)) ==> run.container.start != null && run.container.start.owner == t && run.container.start in run.Repr
      ensures run in run.Repr && run.Repr == old(run.Repr) && run.stale == old(run.stale) && LowerEmpty()
    {
      hide ThreadQueue.Valid, WithoutIt, Removed;
      run.Inside();
      RemovedFrom(run.q, t);
      run.Remove(t);
    }

    /// suspend_thread. The thread leaves the run queue exactly when it is not a stale head; otherwise the
    /// queue goes on starting with it although it is suspended.
    method SuspendThread(t: Tid, mode: Mode)
      requires Valid() && t in threads
      modifies this`threads, this`st, this`pending, run.Repr
      ensures |old(st).queues| == NUM_PRIORITIES && t in old(st).threads
      ensures !old(StaleHead(t)) ==> Valid() && st == Suspend(old(st), t, mode) && run.stale == old(run.stale)
      ensures !old(StaleHead(t)) ==> Stops(old(st), st, t, old(st).threads[t], mode) && SameIpc(old(st), st)
      ensures old(StaleHead(t)) ==> run.container.start != null && run.container.start.owner == t && run.container.start in run.Repr
      ensures t in threads && mode in threads[t].mode && threads[t].runqueue.None?
      ensures threads.Keys == old(threads.Keys) && run.Repr == old(run.Repr) && LowerEmpty()
    {
      hide Shaped, ThreadQueue.Valid, Suspend, Removed, Stops;
      run.Inside();
      ShapedQueueable(st, t);
      SuspendStops(st, t, mode);
      SuspendShaped(st, t, mode);
      SuspendIs(st, t, mode);
      ghost var after := Suspend(st, t, mode);
      if current == Some(t) {
        pending := true;
      }
      var th := threads[t].(mode := threads[t].mode + {mode});
      assert mode in th.mode;
      if th.mode != {} && th.runqueue.Some? {
        Dequeue(t);
        th := th.(runqueue := None);
      }
      threads := threads[t := th];
      st := after;
    }

    /// The part of try_context_switch that finds the next thread. It takes whatever the queue starts with.
    method TakeNext() returns (next: Option<Tid>)
      requires |lower| == RUN_QUEUE && forall i :: 0 <= i < RUN_QUEUE ==> lower[i].start == null
      requires run.container.start != null ==> run.container.start.owner in threads
      modifies this`threads, this`st, run`q, run`stale, run.container, run.container.start
      ensures old(run.container.start) != null ==> next == Some(old(run.container.start).owner)
      ensures threads.Keys == old(threads.Keys) && forall t :: t in threads ==> threads[t].mode == old(threads)[t].mode
      ensures old(Valid()) ==>
        && Valid() && run.Repr == old(run.Repr)
        && (forall i, t :: 0 <= i < |old(st).queues| && t in old(st).queues[i] ==> t in old(st).threads)
        && (st, next) == PopNext(old(st))
        && run.stale == if old(run.q) == [] then old(run.stale) else |old(run.q)| > 1
    {
      hide Shaped, ThreadQueue.Valid, PopNext;
      ghost var valid, before := Valid(), st;
      if valid {
        run.Inside();
        ShapedKnown(st);
        PopShaped(st);
      }
      next := None;
      var i := NUM_PRIORITIES;
      while i > 0 && (if i - 1 == RUN_QUEUE then run.container else lower[i - 1]).start == null
        invariant 0 <= i <= NUM_PRIORITIES && (i < NUM_PRIORITIES ==> run.container.start == null)
      {
        i := i - 1;
      }
      if i > 0 {
        var head := run.Pop();
        next := Some(head.owner);
        threads := threads[head.owner := threads[head.owner].(runqueue := None)];
      }
      if valid {
        st := PopNext(st).0;
      }
    }

    /// The part of try_context_switch that saves the running thread.
    method LeaveProcessor(next: Option<Tid>)
      requires Valid()
      modifies this`threads, this`current, this`st, run.Repr
      ensures Valid() && st == Leave(old(st), next) && fresh(run.Repr - old(run.Repr)) && run.stale == old(run.stale)
      ensures threads.Keys == old(threads.Keys)
    {
      hide Shaped, ThreadQueue.Valid, Queue;
      CurrentKnown(st);
      if current.Some? {
        var t := current.value;
        if threads[t].mode == {} {
          if next.Some? {
            SaveShaped(st, t, cpu, false, st.current);
            threads := threads[t := threads[t].(regs := cpu, running := false)];
            st := WithThread(st, t, st.threads[t].(regs := st.cpu, running := false));
            QueueThread(t);
          }
        } else {
          SaveShaped(st, t, cpu, false, None);
          threads := threads[t := threads[t].(regs := cpu, running := false)];
          current := None;
          st := Leave(st, next);
        }
      }
    }

    /// The part of try_context_switch that lets the next thread run.
    method EnterProcessor(next: Option<Tid>)
      requires Valid() && (next.Some? ==> next.value in threads)
      modifies this`threads, this`current, this`cpu, this`st
      ensures Valid() && st == Enter(old(st), next)
    {
      hide Shaped, ThreadQueue.Valid;
      EnterShaped(st, next);
      if next.Some? {
        var t := next.value;
        cpu := threads[t].regs;
        current := next;
        threads := threads[t := threads[t].(running := true)];
      } else if current.None? {
        cpu := IDLE;
      }
      st := Enter(st, next);
    }

    /// try_context_switch
    method TryContextSwitch()
      requires Valid()
      modifies this`threads, this`pending, this`current, this`cpu, this`st, run.Repr
      ensures forall i, t :: 0 <= i < |old(st).queues| && t in old(st).queues[i] ==> t in old(st).threads
      ensures old(st).current.Some? ==> old(st).current.value in old(st).threads
      ensures Valid() && st == Switch(old(st)) && run.stale == StaleAfter(old(st), old(run.stale))
      ensures |old(st).queues| == NUM_PRIORITIES && (Scheduled(old(st)) ==> Switched(old(st), st))
      ensures fresh(run.Repr - old(run.Repr))
    {
      hide Shaped, ThreadQueue.Valid, PopNext, Leave, Enter, Scheduled, Switched;
      if Scheduled(st) {
        SwitchDoes(st);
      }
      CurrentKnown(st);
      ShapedKnown(st);
      if !pending {
        return;
      }
      SetPending(false);
      SwitchThreads();
    }

    /// The part of try_context_switch once a switch is due.
    method SwitchThreads()
      requires Valid()
      modifies this`threads, this`current, this`cpu, this`st, run.Repr
      ensures forall i, t :: 0 <= i < |old(st).queues| && t in old(st).queues[i] ==> t in old(st).threads
      ensures old(st).current.Some? ==> old(st).current.value in old(st).threads
      ensures Valid() && st == SwitchNow(old(st))
      ensures run.stale == (if old(run.q) == [] then old(run.stale) else |old(run.q)| > 1)
      ensures fresh(run.Repr - old(run.Repr))
    {
      hide Shaped, ThreadQueue.Valid, PopNext, Leave, Enter;
      CurrentKnown(st);
      ShapedKnown(st);
      run.Inside();
      PopKnown(st);
      var next := TakeNext();
      LeaveProcessor(next);
      EnterProcessor(next);
    }

    // -------------------------------------------------------------- ipc.c

    /// endpoint_send by the running thread. The value it is proved against is what KernelRuns.RunPairs is about.
    method EndpointSend(e: Eid, buf: Buf, badge: nat)
      requires Valid() && current.Some? && e in endpoints
      requires forall t :: t in endpoints[e].receiving ==> t in threads
      modifies this, run.Repr
      ensures !(old(StaleHead(current.value)) && old(endpoints[e].receiving) == []) ==>
        && old(st).current.Some? && old(st).current.value in old(st).threads && |old(st).queues| == NUM_PRIORITIES
        && Valid() && st == Send(old(st), e, buf, badge) && fresh(run.Repr - old(run.Repr)) && run.stale == old(run.stale)
      ensures old(StaleHead(current.value)) && old(endpoints[e].receiving) == [] ==>
        run.container.start != null && run.container.start.owner == old(current.value)
      ensures |old(st).queues| == NUM_PRIORITIES && e in old(st).endpoints && old(st).current.Some?
      ensures !(old(StaleHead(current.value)) && old(endpoints[e].receiving) == []) ==> Sends(old(st), st, e, buf, badge)
      ensures logs == old(logs)
    {
      hide Shaped, ThreadQueue.Valid, Resume, Suspend, Distinct, Wakes, Stops, Sends;
      run.Inside();
      CurrentKnown(st);
      ShapedQueueable(st, current.value);
      if endpoints[e].receiving != [] {
        ShapedQueueable(st, endpoints[e].receiving[0]);
      }
      SendDoes(st, e, buf, badge);
      if endpoints[e].receiving != [] {
        var r := endpoints[e].receiving[0];
        PutEndpoint(e, endpoints[e].(receiving := endpoints[e].receiving[1..]));
        PutThread(r, threads[r].(onReceive := false, blockedOn := None));
        PutMessage(threads[r].buffer, Message(Read(mem, buf).buffer, badge));
        ResumeThread(r, Blocked);
      } else {
        var t := current.value;
        PutThread(t, threads[t].(buffer := buf, badge := badge, blockedOn := Some(e), onSend := true));
        PutEndpoint(e, endpoints[e].(sending := endpoints[e].sending + [t]));
        SuspendThread(t, Blocked);
      }
    }

    /// endpoint_receive by the running thread.
    method EndpointReceive(e: Eid, buf: Buf, badge: nat)
      requires Valid() && current.Some? && e in endpoints
      requires forall t :: t in endpoints[e].sending ==> t in threads
      modifies this, run.Repr
      ensures !(old(StaleHead(current.value)) && old(endpoints[e].sending) == []) ==>
        && old(st).current.Some? && old(st).current.value in old(st).threads && |old(st).queues| == NUM_PRIORITIES
        && Valid() && st == Receive(old(st), e, buf, badge) && fresh(run.Repr - old(run.Repr)) && run.stale == old(run.stale)
      ensures old(StaleHead(current.value)) && old(endpoints[e].sending) == [] ==>
        run.container.start != null && run.container.start.owner == old(current.value)
      ensures |old(st).queues| == NUM_PRIORITIES && e in old(st).endpoints && old(st).current.Some?
      ensures !(old(StaleHead(current.value)) && old(endpoints[e].sending) == []) ==> Receives(old(st), st, e, buf, badge)
      ensures logs == old(logs)
    {
      hide Shaped, ThreadQueue.Valid, Resume, Suspend, Distinct, Wakes, Stops, Receives;
      run.Inside();
      CurrentKnown(st);
      ShapedQueueable(st, current.value);
      if endpoints[e].sending != [] {
        ShapedQueueable(st, endpoints[e].sending[0]);
      }
      ReceiveDoes(st, e, buf, badge);
      if endpoints[e].sending != [] {
        var s := endpoints[e].sending[0];
        PutEndpoint(e, endpoints[e].(sending := endpoints[e].sending[1..]));
        PutThread(s, threads[s].(onSend := false, blockedOn := None));
        PutMessage(buf, Message(Read(mem, threads[s].buffer).buffer, threads[s].badge));
        ResumeThread(s, Blocked);
      } else {
        var t := current.value;
        PutThread(t, threads[t].(buffer := buf, badge := badge, blockedOn := Some(e), onReceive := true));
        PutEndpoint(e, endpoints[e].(receiving := endpoints[e].receiving + [t]));
        SuspendThread(t, Blocked);
      }
    }

    // -------------------------------------------------------------- traps

    method AddThread(t: Tid)
      requires Valid() && t !in threads
      modifies this`threads, this`st
      ensures Valid() && st == WithThread(old(st), t, FRESH)
    {
      hide Shaped, ThreadQueue.Valid;
      NewThreadShaped(st, t);
      threads := threads[t := FRESH];
      st := WithThread(st, t, FRESH);
    }

    /// The first thread is made, resumed and let run.
    method Boot(t: Tid)
      requires Valid() && Inv(st) && !pending && current.None? && threads == map[]
      modifies this, run.Repr
      ensures Valid() && Ready(st) && st.current == Some(t) && logs == old(logs)
    {
      hide Shaped, ThreadQueue.Valid, Switch, Resume, Scheduled, Rendezvous;
      NewThreadInv(st, t);
      AddThread(t);
      ResumeInv(st, t);
      ResumeFirst(st, t);
      ResumeThread(t, Suspended);
      SwitchInv(st);
      TryContextSwitch();
    }

    /// The call itself.
    method Dispatch(c: Call)
      requires Valid() && Ready(st)
      modifies this, run.Repr
      ensures |old(st).queues| == NUM_PRIORITIES
      ensures !old(Unsafe(st, run.stale, c)) ==>
        Valid() && st == Handle(old(st), c) && fresh(run.Repr - old(run.Repr)) && run.stale == old(run.stale)
      ensures old(Unsafe(st, run.stale, c)) ==>
        run.container.start != null && run.container.start.owner == RunQueue(old(st))[0]
      ensures logs == old(logs)
    {
      hide Shaped, ThreadQueue.Valid, Send, Receive, Resume, Suspend, Scheduled, Rendezvous;
      match c {
        case Yield =>
          SetPending(true);
        case SendTo(e, buf, badge) =>
          if e in endpoints {
            Parties(st, e);
            EndpointSend(e, buf, badge);
          }
        case ReceiveFrom(e, buf, badge) =>
          if e in endpoints {
            Parties(st, e);
            EndpointReceive(e, buf, badge);
          }
        case ResumeThread(t) =>
          if t in threads {
            ResumeThread(t, Suspended);
          }
        case SuspendThread(t) =>
          if t in threads {
            SuspendThread(t, Suspended);
          }
        case WriteRegisters(t, regs) =>
          if t in threads {
            PutThread(t, threads[t].(regs := regs));
          }
        case NewThread(t) =>
          if t !in threads {
            AddThread(t);
          }
        case NewEndpoint(e) =>
          if e !in endpoints {
            PutEndpoint(e, Endpoint([], []));
          }
        case Fault =>
          CurrentKnown(st);
          SuspendThread(current.value, Suspended);
        case Other =>
      }
    }

    /// Whether the call takes the head of the run queue out of it while that still points back.
    method Endangers(c: Call) returns (b: bool)
      requires Valid() && Ready(st) && |st.queues| == NUM_PRIORITIES
      ensures b <==> Unsafe(st, run.stale, c)
    {
      hide Shaped, ThreadQueue.Valid, Scheduled, Rendezvous;
      var head, none, back := run.Head();
      var t := None;
      match c {
        case SendTo(e, _, _) => if e in endpoints && endpoints[e].receiving == [] { t := current; }
        case ReceiveFrom(e, _, _) => if e in endpoints && endpoints[e].sending == [] { t := current; }
        case SuspendThread(u) => if u in threads { t := Some(u); }
        case Fault => t := current;
        case _ =>
      }
      b := back && !none && t == Some(head);
    }

    /// trap_handler: the call of the running thread, then the context switch if one is due. Exactly if the step
    /// is not unsafe, the linked machine does what the value does: the invariant holds again, the state moves as the
    /// call and then the switch are told to, sends and receives stay paired, and message memory changes as the pairing
    /// calls for. Otherwise the thread that was suspended still heads the queue, and the step is not followed further.
    method Trap(c: Call) returns (sound: bool)
      requires Valid() && Ready(st) && LogsOk(st, logs) && |st.queues| == NUM_PRIORITIES
      modifies this, run.Repr
      ensures sound <==> !old(Unsafe(st, run.stale, c))
      ensures !sound ==>
        && run.container.start != null && run.container.start.owner == RunQueue(old(st))[0]
        && Suspends(old(st), c) == Some(RunQueue(old(st))[0])
      ensures sound ==>
        && Valid() && st == Step(old(st), c) && Inv(st) && !pending && fresh(run.Repr - old(run.Repr))
        && |Handle(old(st), c).queues| == NUM_PRIORITIES && run.stale == StaleAfter(Handle(old(st), c), old(run.stale))
        && logs == Record(old(logs), old(st), c) && LogsOk(st, logs)
        && Moves(old(st), old(logs), st, logs, c)
    {
      hide Shaped, ThreadQueue.Valid, Handle, Switch, LogsOk, Record, Moves, Scheduled, Rendezvous, Suspends;
      HandleInv(st, c);
      QueueCount(Handle(st, c));
      SwitchInv(Handle(st, c));
      StepLogs(st, logs, c);
      ghost var after := Record(logs, st, c);
      var unsafe := Endangers(c);
      Dispatch(c);
      if unsafe {
        return false;
      }
      TryContextSwitch();
      logs := after;
      return true;
    }

    /// A whole run, up to its first unsafe step: exactly if there is none, the linked machine ends where the run of the
    /// value ends, and on the way from the old state to the new one each call moves as told.
    method Run(cs: seq<Call>) returns (sound: bool)
      requires Valid() && Inv(st) && !st.pending && CanRun(st, cs) && LogsOk(st, logs)
      modifies this, run.Repr
      ensures sound <==> old(SafeRun(st, run.stale, cs))
      ensures sound ==>
        && Valid() && st == After(old(st), cs) && fresh(run.Repr - old(run.Repr))
        && logs == LogsAfter(old(st), old(logs), cs) && LogsOk(st, logs)
        && At(old(st), cs, 0) == old(st) && At(old(st), cs, |cs|) == st
        && LogsAt(old(st), old(logs), cs, 0) == old(logs) && LogsAt(old(st), old(logs), cs, |cs|) == logs
        && forall n {:trigger MovesAt(old(st), old(logs), cs, n)} :: 0 <= n < |cs| ==> MovesAt(old(st), old(logs), cs, n)
      decreases |cs|
    {
      hide Shaped, ThreadQueue.Valid, Handle, LogsOk, Record, Moves, MovesAt, Scheduled, Rendezvous, Step, Unsafe;
      RunPairs(st, logs, cs);
      if cs == [] {
        return true;
      }
      QueueCount(st);
      sound := Trap(cs[0]);
      if sound {
        sound := Run(cs[1..]);
      }
    }

    /// The failure: with two threads queued, the running thread yields; the thread that is second in the
    /// queue becomes its head and points back. Whoever suspends it then, it is the next to run.
    method SuspendedThreadRuns() returns (next: Option<Tid>)
      requires Valid() && Ready(st) && LogsOk(st, logs) && |run.q| >= 2
      modifies this, run.Repr
      ensures next == Some(old(run.q)[1]) && next.value in threads && Suspended in threads[next.value].mode
    {
      hide Shaped, ThreadQueue.Valid, Scheduled, Rendezvous, LogsOk;
      ghost var q := run.q;
      QueueCount(st);
      YieldTurns(st);
      var sound := Trap(Yield);
      run.Inside();
      var t := run.container.start.owner;
      HeadKnown(st);
      SuspendThread(t, Suspended);
      next := TakeNext();
    }
  }
}

/**
Threads, endpoints and run queues as a value, and the effect of each kernel operation on it
(core/kernel/scheduler.c, core/kernel/ipc.c). Queues are sequences here; ContainerLists relates the
intrusive lists to sequences.
*/
module KernelState {
  import opened Basics

  type Tid = nat
  type Eid = nat
  type Buf = nat
  type Regs = nat

  /// The bits of exec_mode; RUNNING is the empty set.
  datatype Mode = Blocked | Suspended | Exited

  datatype Message = Message(buffer: seq<bv8>, badge: nat)

  datatype Thread = Thread(
    mode: set<Mode>, runqueue: Option<nat>, blockedOn: Option<Eid>, onSend: bool, onReceive: bool,
    buffer: Buf, badge: nat, running: bool, regs: Regs)

  datatype Endpoint = Endpoint(sending: seq<Tid>, receiving: seq<Tid>)

  datatype State = State(
    threads: map<Tid, Thread>, endpoints: map<Eid, Endpoint>, queues: seq<seq<Tid>>,
    current: Option<Tid>, pending: bool, cpu: Regs, mem: map<Buf, Message>)

  const NUM_PRIORITIES: nat := 64
  const RUN_QUEUE: nat := 63
  const IDLE: Regs := 0

  function Read(mem: map<Buf, Message>, b: Buf): Message { if b in mem then mem[b] else Message([], 0) }

  /// What a rendezvous does to message memory: the payload of `from` and the badge arrive at `to`.
  function Deliver(mem: map<Buf, Message>, from: Buf, to: Buf, badge: nat): map<Buf, Message> {
    mem[to := Message(Read(mem, from).buffer, badge)]
  }

  function Removed(q: seq<Tid>, t: Tid): (r: seq<Tid>)
    ensures |r| <= |q|
    ensures forall x :: x in r <==> x in q && x != t
  {
    if q == [] then [] else if q[0] == t then Removed(q[1..], t) else [q[0]] + Removed(q[1..], t)
  }

  // ---------------------------------------------------------------- scheduler.c

  function WithThread(st: State, t: Tid, th: Thread): State { st.(threads := st.threads[t := th]) }

  /// queue_thread
  function Queue(st: State, t: Tid): State
    requires t in st.threads && |st.queues| == NUM_PRIORITIES
  {
    if st.threads[t].runqueue.Some? then st
    else WithThread(st, t, st.threads[t].(runqueue := Some(RUN_QUEUE))).(queues := st.queues[RUN_QUEUE := st.queues[RUN_QUEUE] + [t]])
  }

  /// resume_thread
  function Resume(st: State, t: Tid, reason: Mode): State
    requires t in st.threads && |st.queues| == NUM_PRIORITIES
  {
    var st1 := WithThread(st, t, st.threads[t].(mode := st.threads[t].mode - {reason}));
    if st1.threads[t].mode == {} then
      var st2 := Queue(st1, t);
      if st2.current.None? then st2.(pending := true) else st2
    else st1
  }

  /// suspend_thread, with LIST_REMOVE repaired: the thread leaves its queue. What the macro does to a
  /// linked queue, and when that is this, is stated in Kernel.Machine.
  function Suspend(st: State, t: Tid, mode: Mode): State
    requires t in st.threads && |st.queues| == NUM_PRIORITIES
  {
    var st1 := if st.current == Some(t) then st.(pending := true) else st;
    var th := st1.threads[t].(mode := st1.threads[t].mode + {mode});
    if th.runqueue.Some? && th.runqueue.value < |st.queues| then
      WithThread(st1, t, th.(runqueue := None)).(queues := st1.queues[th.runqueue.value := Removed(st1.queues[th.runqueue.value], t)])
    else WithThread(st1, t, th)
  }

  /// The highest queue among the first `n` that holds a thread, plus one; 0 when there is none.
  function Highest(queues: seq<seq<Tid>>, n: nat): (r: nat)
    requires n <= |queues|
    ensures r <= n
    ensures r > 0 ==> queues[r - 1] != []
    ensures forall i :: r <= i < n ==> queues[i] == []
  {
    if n == 0 then 0 else if queues[n - 1] != [] then n else Highest(queues, n - 1)
  }

  /// The running thread steps aside: it is saved, and queued if it can go on.
  function Leave(st: State, next: Option<Tid>): State
    requires |st.queues| == NUM_PRIORITIES && (st.current.Some? ==> st.current.value in st.threads)
  {
    if st.current.None? then st
    else
      var t := st.current.value;
      var saved := WithThread(st, t, st.threads[t].(regs := st.cpu, running := false));
      if st.threads[t].mode == {} then
        if next.Some? then Queue(saved, t) else st
      else saved.(current := None)
  }

  /// The next thread takes over the processor, or nobody does.
  function Enter(st: State, next: Option<Tid>): State
    requires next.Some? ==> next.value in st.threads
  {
    if next.Some? then
      var t := next.value;
      WithThread(st, t, st.threads[t].(running := true)).(current := next, cpu := st.threads[t].regs)
    else if st.current.None? then st.(cpu := IDLE)
    else st
  }

  /// The first thread of the highest queue that is not empty leaves its queue.
  function PopNext(st: State): (r: (State, Option<Tid>))
    requires |st.queues| == NUM_PRIORITIES
    requires forall i, t :: 0 <= i < |st.queues| && t in st.queues[i] ==> t in st.threads
    ensures |r.0.queues| == NUM_PRIORITIES && r.0.threads.Keys == st.threads.Keys
    ensures r.1.Some? ==> r.1.value in st.threads
  {
    var i := Highest(st.queues, NUM_PRIORITIES);
    if i == 0 then (st, None)
    else
      var t := st.queues[i - 1][0];
      (WithThread(st, t, st.threads[t].(runqueue := None)).(queues := st.queues[i - 1 := st.queues[i - 1][1..]]), Some(t))
  }

  /// The part of try_context_switch once a switch is due.
  function SwitchNow(st: State): State
    requires |st.queues| == NUM_PRIORITIES && (st.current.Some? ==> st.current.value in st.threads)
    requires forall i, t :: 0 <= i < |st.queues| && t in st.queues[i] ==> t in st.threads
  {
    var (st1, next) := PopNext(st);
    Enter(Leave(st1, next), next)
  }

  /// try_context_switch
  function Switch(st: State): State
    requires |st.queues| == NUM_PRIORITIES && (st.current.Some? ==> st.current.value in st.threads)
    requires forall i, t :: 0 <= i < |st.queues| && t in st.queues[i] ==> t in st.threads
  {
    if st.pending then SwitchNow(st.(pending := false)) else st
  }

  // ---------------------------------------------------------------- ipc.c

  /// endpoint_send by the running thread, through a capability with the given badge.
  function Send(st: State, e: Eid, buf: Buf, badge: nat): State
    requires st.current.Some? && st.current.value in st.threads && e in st.endpoints && |st.queues| == NUM_PRIORITIES
    requires forall t :: t in st.endpoints[e].receiving ==> t in st.threads
  {
    var ep := st.endpoints[e];
    if ep.receiving != [] then
      var r := ep.receiving[0];
      var st1 := st.(endpoints := st.endpoints[e := ep.(receiving := ep.receiving[1..])]);
      var st2 := WithThread(st1, r, st1.threads[r].(onReceive := false, blockedOn := None));
      Resume(st2.(mem := Deliver(st2.mem, buf, st2.threads[r].buffer, badge)), r, Blocked)
    else
      var t := st.current.value;
      var st1 := WithThread(st, t, st.threads[t].(buffer := buf, badge := badge, blockedOn := Some(e), onSend := true));
      Suspend(st1.(endpoints := st1.endpoints[e := ep.(sending := ep.sending + [t])]), t, Blocked)
  }

  /// endpoint_receive by the running thread.
  function Receive(st: State, e: Eid, buf: Buf, badge: nat): State
    requires st.current.Some? && st.current.value in st.threads && e in st.endpoints && |st.queues| == NUM_PRIORITIES
    requires forall t :: t in st.endpoints[e].sending ==> t in st.threads
  {
    var ep := st.endpoints[e];
    if ep.sending != [] then
      var s := ep.sending[0];
      var st1 := st.(endpoints := st.endpoints[e := ep.(sending := ep.sending[1..])]);
      var st2 := WithThread(st1, s, st1.threads[s].(onSend := false, blockedOn := None));
      Resume(st2.(mem := Deliver(st2.mem, st2.threads[s].buffer, buf, st2.threads[s].badge)), s, Blocked)
    else
      var t := st.current.value;
      var st1 := WithThread(st, t, st.threads[t].(buffer := buf, badge := badge, blockedOn := Some(e), onReceive := true));
      Suspend(st1.(endpoints := st1.endpoints[e := ep.(receiving := ep.receiving + [t])]), t, Blocked)
  }

  // ---------------------------------------------------------------- traps

  /// What the running thread asks for. Invocations that touch neither threads nor endpoints are `Other`.
  datatype Call =
    | Yield
    | SendTo(e: Eid, buf: Buf, badge: nat)
    | ReceiveFrom(e: Eid, buf: Buf, badge: nat)
    | ResumeThread(t: Tid)
    | SuspendThread(t: Tid)
    | WriteRegisters(t: Tid, regs: Regs)
    | NewThread(t: Tid)
    | NewEndpoint(e: Eid)
    | Fault
    | Other

  /// A thread as alloc_thread leaves it.
  const FRESH := Thread({Suspended}, None, None, false, false, 0, 0, false, 0)

  /// The part of a trap before the context switch.
  function Handle(st: State, c: Call): State
    requires Ready(st)
  {
    match c
    case Yield => st.(pending := true)
    case SendTo(e, buf, badge) => if e in st.endpoints then Send(st, e, buf, badge) else st
    case ReceiveFrom(e, buf, badge) => if e in st.endpoints then Receive(st, e, buf, badge) else st
    case ResumeThread(t) => if t in st.threads then Resume(st, t, Suspended) else st
    case SuspendThread(t) => if t in st.threads then Suspend(st, t, Suspended) else st
    case WriteRegisters(t, regs) => if t in st.threads then WithThread(st, t, st.threads[t].(regs := regs)) else st
    case NewThread(t) => if t in st.threads then st else WithThread(st, t, FRESH)
    case NewEndpoint(e) => if e in st.endpoints then st else st.(endpoints := st.endpoints[e := Endpoint([], [])])
    case Fault => Suspend(st, st.current.value, Suspended)
    case Other => st
  }

  // ---------------------------------------------------------------- the invariant

  ghost predicate Distinct(q: seq<Tid>) { forall i, j :: 0 <= i < j < |q| ==> q[i] != q[j] }

  /// Thread `t` and the run queue agree.
  ghost predicate QueueOk(st: State, t: Tid)
    requires t in st.threads && |st.queues| == NUM_PRIORITIES
  {
    var th := st.threads[t];
    && (th.runqueue == None || th.runqueue == Some(RUN_QUEUE))
    && (th.runqueue.Some? <==> t in st.queues[RUN_QUEUE])
    && (th.runqueue.Some? ==> th.mode == {})
    && (th.mode == {} ==> th.runqueue.Some? || st.current == Some(t))
    && (th.running <==> st.current == Some(t))
  }

  /// Thread `t` is blocked exactly when it waits on one endpoint, in one direction.
  ghost predicate BlockedOk(th: Thread) {
    && (Blocked in th.mode <==> th.blockedOn.Some?)
    && (th.blockedOn.Some? <==> th.onSend || th.onReceive)
    && !(th.onSend && th.onReceive)
  }

  /// The queues of endpoint `e` hold exactly the threads that wait on it, each once.
  ghost predicate EndpointOk(st: State, e: Eid)
    requires e in st.endpoints
  {
    var ep := st.endpoints[e];
    && Distinct(ep.sending) && Distinct(ep.receiving)
    && (ep.sending == [] || ep.receiving == [])
    && (forall t :: t in ep.sending <==> t in st.threads && st.threads[t].blockedOn == Some(e) && st.threads[t].onSend)
    && (forall t :: t in ep.receiving <==> t in st.threads && st.threads[t].blockedOn == Some(e) && st.threads[t].onReceive)
  }

  ghost predicate Scheduled(st: State) {
    && |st.queues| == NUM_PRIORITIES
    && (forall i :: 0 <= i < NUM_PRIORITIES && i != RUN_QUEUE ==> st.queues[i] == [])
    && Distinct(st.queues[RUN_QUEUE])
    && (forall t :: t in st.queues[RUN_QUEUE] ==> t in st.threads)
    && (forall t :: t in st.threads ==> QueueOk(st, t))
    && (st.current.Some? ==> st.current.value in st.threads && (st.threads[st.current.value].mode == {} || st.pending))
    && (st.current.None? ==> st.queues[RUN_QUEUE] == [] || st.pending)
  }

  ghost predicate Rendezvous(st: State) {
    && (forall t :: t in st.threads ==> BlockedOk(st.threads[t]))
    && (forall t :: t in st.threads && st.threads[t].blockedOn.Some? ==> st.threads[t].blockedOn.value in st.endpoints)
    && (forall e :: e in st.endpoints ==> EndpointOk(st, e))
  }

  ghost predicate Inv(st: State) { Scheduled(st) && Rendezvous(st) }

  /// A trap can come: some thread runs, and no switch is due.
  ghost predicate Ready(st: State) { Inv(st) && !st.pending && st.current.Some? }
}

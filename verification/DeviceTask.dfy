/** The device task and its callers as a transition system (src/nw_engine.c:1290-1539,
    src/narrator_device.c:74-127). One step is one exec call or one access to the shared
    context; steps of different parties interleave in any order that Forbid() allows. */
module DeviceTask {

  import opened Bytes

  /** What sits in the task's port: a request, or the shutdown message of close. */
  datatype Msg = Req(id: nat) | Shut

  /** Where the device task stands; `run` is its loop variable. */
  datatype TaskPc =
    | NotStarted
    | Created | Publishing | Announcing | FirstLook
    | Waiting | Getting | InFlight(id: nat) | Replying(id: nat) | Looking(run: bool)
    | Draining | DrainReplying(id: nat) | ClosingSession | DeletingPort
    | Snapping | SignallingDead
    | Gone

  /** Where the task that opens and closes the device stands. */
  datatype OwnerPc =
    | Outside | Opening | WaitReady | Open
    | Flagging | Posting | WaitDead | Freeing | Closed

  /** A BeginIO(CMD_WRITE) in progress: about to read cmdPort, to post, or to fail the request. */
  datatype SubmitPc = ReadPort | PutMsg | FailRequest

  /** An AbortIO or CMD_FLUSH in progress: about to read cmdPort, or to walk the list. */
  datatype Walk = AbortLook(id: nat) | AbortWalk(id: nat) | FlushLook | FlushWalk

  /** The two assumptions the design rests on. */
  datatype Rules = Rules(hooksForbid: bool, ownerOnly: bool)

  /** Both program counters and the flags of the shared context. */
  datatype Control = Control(
    task: TaskPc,
    hasPort: bool,                  // CreateMsgPort succeeded in the task
    owner: OwnerPc,
    forbid: bool,                   // the owner's hook holds Forbid()
    ctxLive: bool,                  // the context is allocated
    cmdPort: bool,                  // ctx->cmdPort is not NULL
    shutting: bool,
    portLive: bool,                 // the port is allocated
    ready: bool,                    // ready signal pending
    dead: bool                      // dead signal pending
  )

  /** Calls of other tasks that are under way. */
  datatype Calls = Calls(
    submits: map<nat, SubmitPc>,    // by request
    walks: map<nat, Walk>,          // by caller
    unlinked: set<nat>              // aborted requests, removed and not yet replied
  )

  /** Where close found the task, and the requests that were queued then. */
  datatype Meeting = NotYet | Met(task: TaskPc, waiting: seq<nat>)

  datatype History = History(
    replies: seq<nat>,              // requests completed, in the order of their replies
    used: set<nat>,                 // every request ever submitted
    log: seq<nat>,                  // requests in the order they were posted
    served: seq<nat>,               // requests the task got in its message loop, in order
    drained: seq<nat>,              // requests it got in the drain behind the loop, in order
    pulled: set<nat>,               // requests aborted or flushed from the queue
    met: Meeting
  )

  datatype State = State(ctl: Control, queue: seq<Msg>, calls: Calls, hist: History)

  const INIT := State(Control(NotStarted, false, Outside, false, false, false, false, false, false, false), [],
                      Calls(map[], map[], {}), History([], {}, [], [], [], {}, NotYet))

  /** Steps of nw_dev_open and nw_dev_close. */
  datatype OwnerAct =
    | OpenEnter | OpenFail | OpenCreate | OpenReady
    | CloseEnter | CloseFlag | ClosePost | CloseDead | CloseFree

  /** Steps of nw_dev_task. */
  datatype TaskAct =
    | TaskPort(ok: bool) | TaskPublish | TaskReady | TaskFirst | TaskWake | TaskGet | TaskFinish | TaskReply
    | TaskLook | TaskDrain | TaskDrainReply | TaskCloseSession | TaskDelete | TaskSnap | TaskDead

  /** Steps of nw_dev_submit, nw_dev_abort and nw_dev_flush. */
  datatype ClientAct =
    | SubmitEnter(id: nat) | SubmitLook(id: nat) | SubmitPut(id: nat) | SubmitFail(id: nat)
    | WalkEnter(c: nat, w: Walk) | WalkLook(c: nat) | WalkDo(c: nat) | AbortReply(id: nat)

  datatype Step = Owner(o: OwnerAct) | Task(t: TaskAct) | Client(a: ClientAct)

  /** No other task is inside the device's code. */
  predicate NoCalls(k: Calls)
  {
    k.submits == map[] && k.walks == map[] && k.unlinked == {}
  }

  // ---- when a step can happen ----

  predicate OwnerEnabled(rules: Rules, s: State, o: OwnerAct)
  {
    var c := s.ctl;
    match o
    case OpenEnter => c.owner.Outside? && !c.forbid
    case OpenFail => c.owner.Opening?
    case OpenCreate => c.owner.Opening?
    case OpenReady => c.owner.WaitReady? && c.ready && !c.forbid
    case CloseEnter => c.owner.Open? && !c.forbid && (rules.ownerOnly ==> NoCalls(s.calls))
    case CloseFlag => c.owner.Flagging?
    case ClosePost => c.owner.Posting?
    case CloseDead => c.owner.WaitDead? && c.dead && !c.forbid
    case CloseFree => c.owner.Freeing?
  }

  /** The act is the one that belongs to the task's position. */
  predicate TaskAt(pc: TaskPc, t: TaskAct)
  {
    match t
    case TaskPort(_) => pc.Created?
    case TaskPublish => pc.Publishing?
    case TaskReady => pc.Announcing?
    case TaskFirst => pc.FirstLook?
    case TaskWake => pc.Waiting?
    case TaskGet => pc.Getting?
    case TaskFinish => pc.InFlight?
    case TaskReply => pc.Replying?
    case TaskLook => pc.Looking?
    case TaskDrain => pc.Draining?
    case TaskDrainReply => pc.DrainReplying?
    case TaskCloseSession => pc.ClosingSession?
    case TaskDelete => pc.DeletingPort?
    case TaskSnap => pc.Snapping?
    case TaskDead => pc.SignallingDead?
  }

  /** WaitPort blocks on an empty port. */
  predicate TaskEnabled(s: State, t: TaskAct)
  {
    TaskAt(s.ctl.task, t) && (t.TaskWake? ==> s.queue != [])
  }

  /** The device is used while it is open; a call, once begun, goes on whatever happens. */
  predicate ClientEnabled(s: State, a: ClientAct)
  {
    var k := s.calls;
    match a
    case SubmitEnter(id) => s.ctl.owner.Open? && id !in s.hist.used
    case SubmitLook(id) => id in k.submits && k.submits[id].ReadPort?
    case SubmitPut(id) => id in k.submits && k.submits[id].PutMsg?
    case SubmitFail(id) => id in k.submits && k.submits[id].FailRequest?
    case WalkEnter(c, w) => s.ctl.owner.Open? && c !in k.walks && (w.AbortLook? || w.FlushLook?)
    case WalkLook(c) => c in k.walks && (k.walks[c].AbortLook? || k.walks[c].FlushLook?)
    case WalkDo(c) => c in k.walks && (k.walks[c].AbortWalk? || k.walks[c].FlushWalk?)
    case AbortReply(id) => id in k.unlinked
  }

  /** While the owner holds Forbid() only the owner runs; Wait() gives it up. */
  predicate Enabled(rules: Rules, s: State, step: Step)
  {
    match step
    case Owner(o) => OwnerEnabled(rules, s, o)
    case Task(t) => !s.ctl.forbid && TaskEnabled(s, t)
    case Client(a) => !s.ctl.forbid && ClientEnabled(s, a)
  }

  // ---- list operations, as ExecList proves them ----

  function Without(q: seq<Msg>, id: nat): (r: seq<Msg>)
  {
    if q == [] then [] else if q[0] == Req(id) then q[1..] else [q[0]] + Without(q[1..], id)
  }

  function OnlyShut(q: seq<Msg>): (r: seq<Msg>)
  {
    if q == [] then [] else if q[0].Shut? then [Shut] + OnlyShut(q[1..]) else OnlyShut(q[1..])
  }

  function Ids(q: seq<Msg>): (ids: seq<nat>)
  {
    if q == [] then [] else if q[0].Req? then [q[0].id] + Ids(q[1..]) else Ids(q[1..])
  }

  // ---- what a step does ----

  function OwnerControl(rules: Rules, c: Control, o: OwnerAct): (r: Control)
  {
    match o
    case OpenEnter => c.(owner := Opening, forbid := rules.hooksForbid)
    case OpenFail => c.(owner := Closed, forbid := false)
    // context, signals and task are made under a Forbid() of their own; then Wait(ready)
    case OpenCreate => c.(owner := WaitReady, forbid := false, ctxLive := true, task := Created)
    case OpenReady => c.(owner := Open, ready := false)
    case CloseEnter => c.(owner := Flagging, forbid := rules.hooksForbid)
    case CloseFlag => c.(owner := Posting, shutting := true)
    case ClosePost => c.(owner := WaitDead, forbid := false)
    case CloseDead => c.(owner := Freeing, forbid := rules.hooksForbid, dead := false)
    case CloseFree => c.(owner := Closed, forbid := false, ctxLive := false)
  }

  function OwnerStep(rules: Rules, s: State, o: OwnerAct): (r: State)
  {
    s.(ctl := OwnerControl(rules, s.ctl, o),
       queue := if o.ClosePost? && s.ctl.cmdPort then s.queue + [Shut] else s.queue,
       hist := if o.CloseFlag? then s.hist.(met := Met(s.ctl.task, Ids(s.queue))) else s.hist)
  }

  /** The task's next position; `head` is what GetMsg returned. */
  function TaskControl(c: Control, t: TaskAct, head: Option<Msg>): (r: Control)
  {
    match t
    case TaskPort(ok) => c.(task := Publishing, hasPort := ok, portLive := ok)
    case TaskPublish => c.(task := Announcing, cmdPort := c.hasPort)
    case TaskReady => c.(task := FirstLook, ready := true)
    case TaskFirst => c.(task := if !c.hasPort then ClosingSession else if c.shutting then Draining else Waiting)
    case TaskWake => c.(task := Getting)
    case TaskGet =>
      c.(task := match head
                 case None => Looking(true)
                 case Some(Shut) => Looking(false)
                 case Some(Req(id)) => InFlight(id))
    case TaskFinish => if c.task.InFlight? then c.(task := Replying(c.task.id)) else c
    case TaskReply => c.(task := Getting)
    case TaskLook => if c.task.Looking? then c.(task := if c.shutting || !c.task.run then Draining else Waiting) else c
    case TaskDrain =>
      c.(task := match head
                 case None => ClosingSession
                 case Some(Shut) => Draining
                 case Some(Req(id)) => DrainReplying(id))
    case TaskDrainReply => c.(task := Draining)
    case TaskCloseSession => c.(task := if c.hasPort then DeletingPort else Snapping)
    case TaskDelete => c.(task := Snapping, portLive := false)
    case TaskSnap => c.(task := SignallingDead)
    case TaskDead => c.(task := Gone, dead := true)
  }

  function Head(q: seq<Msg>): (m: Option<Msg>)
  {
    if q == [] then None else Some(q[0])
  }

  /** The request the task has got and not replied. */
  function Held(pc: TaskPc): (ids: seq<nat>)
  {
    match pc
    case InFlight(id) => [id]
    case Replying(id) => [id]
    case DrainReplying(id) => [id]
    case _ => []
  }

  function Got(h: History, t: TaskAct, id: nat): (r: History)
  {
    if t.TaskGet? then h.(served := h.served + [id]) else h.(drained := h.drained + [id])
  }

  function TaskStep(s: State, t: TaskAct): (r: State)
  {
    var c := TaskControl(s.ctl, t, Head(s.queue));
    if (t.TaskGet? || t.TaskDrain?) && s.queue != [] then
      State(c, s.queue[1..], s.calls,
            if s.queue[0].Req? then Got(s.hist, t, s.queue[0].id) else s.hist)
    else if t.TaskReply? || t.TaskDrainReply? then
      State(c, s.queue, s.calls, s.hist.(replies := s.hist.replies + Held(s.ctl.task)))
    else s.(ctl := c)
  }

  function WalkStep(s: State, c: nat): (r: State)
    requires c in s.calls.walks
  {
    var k, h := s.calls.(walks := s.calls.walks - {c}), s.hist;
    match s.calls.walks[c]
    case AbortWalk(id) =>
      if Req(id) in s.queue
      then State(s.ctl, Without(s.queue, id), k.(unlinked := k.unlinked + {id}), h.(pulled := h.pulled + {id}))
      else s.(calls := k)
    case FlushWalk =>
      var ids := Ids(s.queue);
      State(s.ctl, OnlyShut(s.queue), k,
            h.(replies := h.replies + ids, pulled := h.pulled + (set i | i in ids)))
    case _ => s
  }

  function LookStep(s: State, c: nat): (r: State)
    requires c in s.calls.walks
  {
    var k := s.calls;
    if !s.ctl.cmdPort then s.(calls := k.(walks := k.walks - {c}))
    else match k.walks[c]
         case AbortLook(id) => s.(calls := k.(walks := k.walks[c := AbortWalk(id)]))
         case FlushLook => s.(calls := k.(walks := k.walks[c := FlushWalk]))
         case _ => s
  }

  function ClientStep(s: State, a: ClientAct): (r: State)
  {
    var k, h := s.calls, s.hist;
    match a
    case SubmitEnter(id) => s.(calls := k.(submits := k.submits[id := ReadPort]), hist := h.(used := h.used + {id}))
    case SubmitLook(id) => s.(calls := k.(submits := k.submits[id := if s.ctl.cmdPort then PutMsg else FailRequest]))
    case SubmitPut(id) =>
      State(s.ctl, s.queue + [Req(id)], k.(submits := k.submits - {id}), h.(log := h.log + [id]))
    case SubmitFail(id) =>
      s.(calls := k.(submits := k.submits - {id}), hist := h.(replies := h.replies + [id]))
    case WalkEnter(c, w) => s.(calls := k.(walks := k.walks[c := w]))
    case WalkLook(c) => if c in k.walks then LookStep(s, c) else s
    case WalkDo(c) => if c in k.walks then WalkStep(s, c) else s
    case AbortReply(id) =>
      s.(calls := k.(unlinked := k.unlinked - {id}), hist := h.(replies := h.replies + [id]))
  }

  function Apply(rules: Rules, s: State, step: Step): (r: State)
  {
    match step
    case Owner(o) => OwnerStep(rules, s, o)
    case Task(t) => TaskStep(s, t)
    case Client(a) => ClientStep(s, a)
  }

  // ---- what a step touches ----

  predicate TouchesCtx(s: State, step: Step)
  {
    match step
    case Owner(o) => o.CloseFlag? || o.ClosePost? || o.CloseDead? || o.CloseFree?
    case Task(t) => t.TaskPublish? || t.TaskReady? || (t.TaskFirst? && s.ctl.hasPort) || t.TaskLook? || t.TaskSnap?
    case Client(a) => a.SubmitLook? || a.SubmitPut? || a.WalkLook?
  }

  predicate TouchesPort(s: State, step: Step)
  {
    match step
    case Owner(o) => o.ClosePost? && s.ctl.cmdPort
    case Task(t) => t.TaskWake? || t.TaskGet? || t.TaskDrain? || t.TaskDelete?
    case Client(a) => a.SubmitPut? || a.WalkDo?
  }

  /** A step uses memory that is not, or no longer, allocated. */
  predicate Violates(s: State, step: Step)
  {
    (TouchesCtx(s, step) && !s.ctl.ctxLive) || (TouchesPort(s, step) && !s.ctl.portLive)
  }

  // ---- runs ----

  predicate Runs(rules: Rules, steps: seq<Step>)
  {
    steps == []
    || (Runs(rules, steps[..|steps| - 1])
        && Enabled(rules, After(rules, steps[..|steps| - 1]), steps[|steps| - 1]))
  }

  /** The state behind a run from the beginning. */
  function After(rules: Rules, steps: seq<Step>): (s: State)
  {
    if steps == [] then INIT
    else Apply(rules, After(rules, steps[..|steps| - 1]), steps[|steps| - 1])
  }

  const DESIGN := Rules(true, true)
}

/** What every interleaving of the device task, its owner and its callers keeps. */
module DeviceSafety {
  import opened Bytes
  import opened DeviceTask

  // ---- memory ----

  /** How far the task has come. */
  function Stage(t: TaskPc): (n: nat)
    ensures n <= 11
  {
    match t
    case NotStarted => 0
    case Created => 1
    case Publishing => 2
    case Announcing => 3
    case FirstLook => 4
    case Draining => 6
    case DrainReplying(_) => 6
    case ClosingSession => 7
    case DeletingPort => 8
    case Snapping => 9
    case SignallingDead => 10
    case Gone => 11
    case _ => 5              // the message loop
  }

  /** How far the owner has come. */
  function OwnerStage(o: OwnerPc): (n: nat)
    ensures n <= 8
  {
    match o
    case Outside => 0
    case Opening => 1
    case WaitReady => 2
    case Open => 3
    case Flagging => 4
    case Posting => 5
    case WaitDead => 6
    case Freeing => 7
    case Closed => 8
  }

  /** The context lives from the creation of the task to the end of close; the two signals are
      pending exactly between being sent and being waited for; the hooks hold Forbid(). */
  ghost predicate Handshake(c: Control)
  {
    var t, o := Stage(c.task), OwnerStage(c.owner);
    && (c.ctxLive <==> 2 <= o <= 7)
    && (o <= 1 ==> t == 0)
    && (t == 0 ==> o <= 1 || o == 8)
    && (o >= 7 ==> t == 0 || t == 11)
    && (c.ready <==> o == 2 && t >= 4)
    && (3 <= o <= 7 ==> t >= 4)
    && (t == 0 || t >= 4 || o == 2)
    && (c.shutting ==> o >= 5)
    && (5 <= o <= 7 ==> c.shutting)
    && (c.forbid <==> o == 1 || o == 4 || o == 5 || o == 7)
    && (c.dead <==> t == 11 && o < 7)
  }

  /** The port lives from its creation to its deletion, and is deleted only when close waits. */
  ghost predicate Port(c: Control)
  {
    var t, o := Stage(c.task), OwnerStage(c.owner);
    && (c.portLive <==> c.hasPort && t < 9)
    && (c.cmdPort <==> c.hasPort && t >= 3)
    && (c.hasPort ==> t >= 2)
    && (5 <= t <= 6 || t == 8 ==> c.hasPort)
    && (c.hasPort && t >= 6 ==> o >= 6)
    && (c.task.Looking? && !c.task.run ==> o == 6)
  }

  /** Messages wait only where the task still fetches them, and close has posted its own before it waits. */
  ghost predicate Queue(c: Control, q: seq<Msg>)
  {
    && (q != [] ==> c.cmdPort && Stage(c.task) <= 6)
    && (Shut in q ==> c.owner.WaitDead?)
    && (c.owner.WaitDead? && c.task.Waiting? ==> q != [])
  }

  ghost predicate Callers(c: Control, k: Calls)
  {
    && (!NoCalls(k) ==> c.owner.Open?)
    && (forall id | id in k.submits ::
          (k.submits[id].PutMsg? ==> c.cmdPort) && (k.submits[id].FailRequest? ==> !c.cmdPort))
    && (forall w | w in k.walks :: k.walks[w].AbortWalk? || k.walks[w].FlushWalk? ==> c.cmdPort)
  }

  ghost predicate Inv(s: State)
  {
    Handshake(s.ctl) && Port(s.ctl) && Queue(s.ctl, s.queue) && Callers(s.ctl, s.calls)
  }

  lemma OwnerKeepsInv(s: State, o: OwnerAct)
    requires Inv(s) && OwnerEnabled(DESIGN, s, o)
    ensures Inv(OwnerStep(DESIGN, s, o))
  {
  }

  lemma TaskKeepsHandshake(c: Control, t: TaskAct, head: Option<Msg>)
    requires Handshake(c) && Port(c) && !c.forbid && TaskAt(c.task, t)
    ensures Handshake(TaskControl(c, t, head))
  {
  }

  lemma TaskKeepsPort(c: Control, t: TaskAct, head: Option<Msg>)
    requires Handshake(c) && Port(c) && !c.forbid && TaskAt(c.task, t)
    requires head == Some(Shut) ==> c.owner.WaitDead?
    ensures Port(TaskControl(c, t, head))
  {
  }

  lemma ControlKeepsQueue(c: Control, t: TaskAct, head: Option<Msg>, q: seq<Msg>, rest: seq<Msg>)
    requires Handshake(c) && Port(c) && Queue(c, q) && !c.forbid && TaskAt(c.task, t) && (t.TaskWake? ==> q != [])
    requires (head.Some? <==> q != []) && (head.Some? ==> head.value == q[0])
    requires if (t.TaskGet? || t.TaskDrain?) && q != [] then q == [q[0]] + rest else rest == q
    ensures Queue(TaskControl(c, t, head), rest)
  {
  }

  lemma TaskKeepsQueue(s: State, t: TaskAct)
    requires Inv(s) && !s.ctl.forbid && TaskEnabled(s, t)
    ensures Queue(TaskStep(s, t).ctl, TaskStep(s, t).queue)
  {
    hide Handshake, Port, Queue, Callers, TaskAt, TaskControl;
    ControlKeepsQueue(s.ctl, t, Head(s.queue), s.queue, TaskStep(s, t).queue);
  }

  lemma TaskKeepsCallers(s: State, t: TaskAct)
    requires Inv(s) && !s.ctl.forbid && TaskEnabled(s, t)
    ensures Callers(TaskStep(s, t).ctl, s.calls)
  {
    if t.TaskPublish? {
      assert NoCalls(s.calls);
    }
  }

  lemma {:induction false} WithoutStays(q: seq<Msg>, id: nat)
    ensures forall m | m in Without(q, id) :: m in q
  {
    if q != [] {
      assert q == [q[0]] + q[1..];
      WithoutStays(q[1..], id);
    }
  }

  lemma {:induction false} OnlyShutStays(q: seq<Msg>)
    ensures forall m | m in OnlyShut(q) :: m == Shut && m in q
  {
    if q != [] {
      assert q == [q[0]] + q[1..];
      OnlyShutStays(q[1..]);
    }
  }

  /** Callers leave the control state alone, and never put a shutdown message in the queue. */
  lemma ClientTouches(s: State, a: ClientAct)
    requires Inv(s) && ClientEnabled(s, a)
    ensures ClientStep(s, a).ctl == s.ctl && s.ctl.owner.Open?
    ensures Queue(s.ctl, ClientStep(s, a).queue)
  {
    if a.WalkDo? && s.calls.walks[a.c].AbortWalk? {
      WithoutStays(s.queue, s.calls.walks[a.c].id);
    }
    OnlyShutStays(s.queue);
  }

  lemma ClientKeepsCallers(s: State, a: ClientAct)
    requires Inv(s) && ClientEnabled(s, a)
    ensures Callers(s.ctl, ClientStep(s, a).calls)
  {
    match a
    case SubmitEnter(id) =>
    case SubmitLook(id) =>
    case SubmitPut(id) =>
    case SubmitFail(id) =>
    case WalkEnter(c, w) =>
    case WalkLook(c) =>
    case WalkDo(c) =>
    case AbortReply(id) =>
  }

  lemma InvOfTask(s: State, t: TaskAct)
    requires Inv(s) && TaskEnabled(s, t)
    ensures Handshake(s.ctl) && Port(s.ctl) && TaskAt(s.ctl.task, t)
    ensures Head(s.queue) == Some(Shut) ==> s.ctl.owner.WaitDead?
  {
  }

  lemma StepKeepsInv(s: State, step: Step)
    requires Inv(s) && Enabled(DESIGN, s, step)
    ensures Inv(Apply(DESIGN, s, step))
  {
    hide Handshake, Port, Queue, Callers, OwnerEnabled, TaskEnabled, ClientEnabled, OwnerStep, TaskControl, ClientStep;
    match step
    case Owner(o) => OwnerKeepsInv(s, o);
    case Task(t) =>
      InvOfTask(s, t);
      TaskKeepsHandshake(s.ctl, t, Head(s.queue));
      TaskKeepsPort(s.ctl, t, Head(s.queue));
      TaskKeepsQueue(s, t);
      TaskKeepsCallers(s, t);
    case Client(a) =>
      ClientTouches(s, a);
      ClientKeepsCallers(s, a);
  }

  /** No step of either side uses the context or the port outside their lifetimes. */
  lemma SafeStep(s: State, step: Step)
    requires Inv(s) && Enabled(DESIGN, s, step)
    ensures !Violates(s, step)
  {
  }
}

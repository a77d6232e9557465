/** Closing the device ends, in every interleaving (src/nw_engine.c:1343-1370, 1443-1471). */
module DeviceShutdown {
  import opened Bytes
  import opened DeviceTask
  import opened DeviceSafety
  import opened DeviceHistory

  // ---- termination ----

  /** Steps the task has at most before it is gone, with `q` messages in its port and close waiting. */
  function Work(pc: TaskPc, q: nat): (n: nat)
  {
    match pc
    case Gone => 0
    case SignallingDead => 1
    case Snapping => 2
    case DeletingPort => 3
    case ClosingSession => 4
    case Draining => 2 * q + 5
    case DrainReplying(_) => 2 * q + 6
    case Looking(_) => 2 * q + 6
    case Getting => 4 * q + 7
    case Replying(_) => 4 * q + 8
    case InFlight(_) => 4 * q + 9
    case _ => 4 * q + 8
  }

  /** Steps left until close returns. */
  function Left(s: State): (n: nat)
  {
    if s.ctl.owner.Closed? then 0
    else if s.ctl.owner.Freeing? then 1
    else Work(s.ctl.task, |s.queue|) + 2
  }

  predicate Closing(s: State)
  {
    s.ctl.owner.WaitDead? || s.ctl.owner.Freeing? || s.ctl.owner.Closed?
  }

  lemma ControlWorks(c: Control, t: TaskAct, head: Option<Msg>, q: nat)
    requires Handshake(c) && Port(c) && c.owner.WaitDead? && TaskAt(c.task, t)
    requires head.Some? <==> q > 0
    requires t.TaskWake? ==> q > 0
    ensures var rest := if (t.TaskGet? || t.TaskDrain?) && q > 0 then q - 1 else q;
            Work(TaskControl(c, t, head).task, rest) < Work(c.task, q)
    ensures TaskControl(c, t, head).owner == c.owner
  {
  }

  lemma TaskWorks(s: State, t: TaskAct)
    requires Inv(s) && s.ctl.owner.WaitDead? && TaskEnabled(s, t)
    ensures Work(TaskStep(s, t).ctl.task, |TaskStep(s, t).queue|) < Work(s.ctl.task, |s.queue|)
    ensures TaskStep(s, t).ctl.owner == s.ctl.owner
  {
    hide Work, TaskControl, TaskAt, Handshake, Port, Queue, Callers;
    ControlWorks(s.ctl, t, Head(s.queue), |s.queue|);
  }

  lemma QuietWhenClosing(s: State)
    requires Inv(s) && Closing(s)
    ensures NoCalls(s.calls)
    ensures s.ctl.owner.WaitDead? || s.ctl.task.NotStarted? || s.ctl.task.Gone?
  {
  }

  /** Behind close's PutMsg every step, whoever makes it, brings the end nearer. */
  lemma ClosingStep(s: State, step: Step)
    requires Inv(s) && Closing(s) && Enabled(DESIGN, s, step)
    ensures Closing(Apply(DESIGN, s, step)) && Left(Apply(DESIGN, s, step)) < Left(s)
  {
    QuietWhenClosing(s);
    hide Work, TaskStep, Inv, OwnerStep;
    match step
    case Owner(o) =>
      ClosingOwner(s, o);
    case Task(t) =>
      if s.ctl.owner.WaitDead? {
        TaskWorks(s, t);
      }
    case Client(a) =>
  }

  lemma ClosingOwner(s: State, o: OwnerAct)
    requires Inv(s) && Closing(s) && OwnerEnabled(DESIGN, s, o)
    ensures Closing(OwnerStep(DESIGN, s, o)) && Left(OwnerStep(DESIGN, s, o)) < Left(s)
  {
  }

  /** Nobody is ever stuck before close has returned. */
  function NextStep(s: State): (step: Step)
    requires Inv(s) && Closing(s) && !s.ctl.owner.Closed?
    ensures Enabled(DESIGN, s, step)
  {
    if s.ctl.owner.Freeing? then Owner(CloseFree)
    else match s.ctl.task
         case Gone => Owner(CloseDead)
         case SignallingDead => Task(TaskDead)
         case Snapping => Task(TaskSnap)
         case DeletingPort => Task(TaskDelete)
         case ClosingSession => Task(TaskCloseSession)
         case DrainReplying(_) => Task(TaskDrainReply)
         case Draining => Task(TaskDrain)
         case Looking(_) => Task(TaskLook)
         case Getting => Task(TaskGet)
         case Replying(_) => Task(TaskReply)
         case InFlight(_) => Task(TaskFinish)
         case FirstLook => Task(TaskFirst)
         case _ => Task(TaskWake)
  }

  lemma {:induction false} RunsPrefix(steps: seq<Step>, more: seq<Step>)
    requires Runs(DESIGN, steps + more)
    ensures Runs(DESIGN, steps)
    decreases |more|
  {
    if more == [] {
      assert steps + more == steps;
    } else {
      var all := steps + more;
      assert all[..|all| - 1] == steps + more[..|more| - 1];
      RunsPrefix(steps, more[..|more| - 1]);
    }
  }

  /** Once close has posted its message, at most `Left` further steps are possible in any run, and
      a run can be carried on until close has returned. */
  lemma {:induction false} ShutdownEnds(steps: seq<Step>, more: seq<Step>)
    requires Runs(DESIGN, steps + more) && Closing(After(DESIGN, steps))
    ensures Closing(After(DESIGN, steps + more))
    ensures |more| + Left(After(DESIGN, steps + more)) <= Left(After(DESIGN, steps))
    ensures After(DESIGN, steps + more).ctl.owner.Closed?
            || exists step :: Enabled(DESIGN, After(DESIGN, steps + more), step)
    decreases |more|
  {
    hide Apply, Enabled, Inv, Closing, Left;
    var all := steps + more;
    if more == [] {
      assert all == steps;
    } else {
      var last := all[..|all| - 1];
      assert last == steps + more[..|more| - 1];
      ShutdownEnds(steps, more[..|more| - 1]);
      RunsKeepInv(last);
      ClosingStep(After(DESIGN, last), all[|all| - 1]);
    }
    RunsKeepInv(all);
    var s := After(DESIGN, all);
    if !s.ctl.owner.Closed? {
      assert Enabled(DESIGN, s, NextStep(s));
    }
  }
}

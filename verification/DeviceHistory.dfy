/** What becomes of every request, over whole runs of the device (src/nw_engine.c:1328-1356, 1473-1539):
    each is completed exactly once, and the task takes them in the order they were posted. */
module DeviceHistory {
  import opened Bytes
  import opened DeviceTask
  import opened DeviceSafety
  import opened Counting

  lemma InitKeeps()
    ensures Inv(INIT) && OnePlace(INIT) && InOrder(INIT) && Drains(INIT)
  {
  }

  lemma {:induction false} RunsKeepInv(steps: seq<Step>)
    requires Runs(DESIGN, steps)
    ensures Inv(After(DESIGN, steps))
  {
    hide Apply, Enabled, Inv;
    if steps == [] {
      InitKeeps();
    } else {
      RunsKeepInv(steps[..|steps| - 1]);
      StepKeepsInv(After(DESIGN, steps[..|steps| - 1]), steps[|steps| - 1]);
    }
  }

  /** No run, however interleaved, touches the context or the port outside its lifetime. */
  lemma {:induction false} RunsAreSafe(steps: seq<Step>, step: Step)
    requires Runs(DESIGN, steps) && Enabled(DESIGN, After(DESIGN, steps), step)
    ensures !Violates(After(DESIGN, steps), step)
  {
    hide Runs, After, Enabled, Violates, Inv;
    RunsKeepInv(steps);
    SafeStep(After(DESIGN, steps), step);
  }

  // ---- each request is in one place ----

  /** The task has got the request and not replied it. */
  predicate Holds(pc: TaskPc, id: nat)
  {
    (pc.InFlight? || pc.Replying? || pc.DrainReplying?) && pc.id == id
  }

  /** How often a request is somewhere: on its way to the queue, in the queue, held by the task,
      removed and waiting to be replied, or replied. */
  function Places(s: State, id: nat): (n: nat)
  {
    Bit(id in s.calls.submits) + Count(s.queue, Req(id)) + Bit(Holds(s.ctl.task, id))
    + Bit(id in s.calls.unlinked) + Count(s.hist.replies, id)
  }

  ghost predicate OnePlace(s: State)
  {
    forall id :: Places(s, id) == Bit(id in s.hist.used)
  }

  lemma {:induction false} CountWithout(q: seq<Msg>, i: nat, id: nat)
    requires Req(i) in q
    ensures Count(Without(q, i), Req(id)) == Count(q, Req(id)) - Bit(i == id)
    ensures Count(q, Req(i)) >= 1
  {
    assert q == [q[0]] + q[1..];
    if q[0] != Req(i) {
      CountWithout(q[1..], i, id);
      assert Without(q, i)[1..] == Without(q[1..], i);
    }
  }

  lemma {:induction false} CountOnlyShut(q: seq<Msg>, id: nat)
    ensures Count(OnlyShut(q), Req(id)) == 0
    ensures Count(Ids(q), id) == Count(q, Req(id))
  {
    if q != [] {
      CountOnlyShut(q[1..], id);
      if q[0].Req? {
        assert Ids(q)[1..] == Ids(q[1..]);
      } else {
        assert OnlyShut(q)[1..] == OnlyShut(q[1..]);
      }
    }
  }

  lemma CountHeld(pc: TaskPc, id: nat)
    ensures Count(Held(pc), id) == Bit(Holds(pc, id))
  {
  }

  /** What the task holds changes only when it fetches or replies. */
  lemma HeldByTask(c: Control, t: TaskAct, head: Option<Msg>, id: nat)
    requires TaskAt(c.task, t)
    ensures t.TaskGet? || t.TaskDrain? ==>
              !Holds(c.task, id) && (Holds(TaskControl(c, t, head).task, id) <==> head == Some(Req(id)))
    ensures t.TaskReply? || t.TaskDrainReply? ==> !Holds(TaskControl(c, t, head).task, id)
    ensures !t.TaskGet? && !t.TaskDrain? && !t.TaskReply? && !t.TaskDrainReply? ==>
              (Holds(TaskControl(c, t, head).task, id) <==> Holds(c.task, id))
  {
  }

  lemma TaskKeepsPlaces(s: State, t: TaskAct, id: nat)
    requires TaskEnabled(s, t)
    ensures Places(TaskStep(s, t), id) == Places(s, id)
    ensures TaskStep(s, t).hist.used == s.hist.used
  {
    hide TaskControl, TaskAt, Held, Holds;
    HeldByTask(s.ctl, t, Head(s.queue), id);
    CountHeld(s.ctl.task, id);
    CountAppend(s.hist.replies, Held(s.ctl.task), id);
  }

  lemma WalkKeepsPlaces(s: State, c: nat, id: nat)
    requires OnePlace(s) && ClientEnabled(s, WalkDo(c))
    ensures Places(WalkStep(s, c), id) == Places(s, id)
    ensures WalkStep(s, c).hist.used == s.hist.used
  {
    match s.calls.walks[c]
    case AbortWalk(i) =>
      assert Places(s, i) <= 1;
      if Req(i) in s.queue {
        CountWithout(s.queue, i, id);
      }
    case FlushWalk =>
      CountOnlyShut(s.queue, id);
      CountAppend(s.hist.replies, Ids(s.queue), id);
    case _ =>
  }

  lemma SubmitKeepsPlaces(s: State, a: ClientAct, id: nat)
    requires OnePlace(s) && ClientEnabled(s, a)
    requires a.SubmitEnter? || a.SubmitLook? || a.SubmitPut? || a.SubmitFail?
    ensures Places(ClientStep(s, a), id) == Bit(id in ClientStep(s, a).hist.used)
  {
    hide WalkStep, Holds;
    assert Places(s, id) == Bit(id in s.hist.used);
    match a
    case SubmitPut(i) => CountAppend(s.queue, [Req(i)], Req(id));
    case SubmitFail(i) => CountAppend(s.hist.replies, [i], id);
    case _ =>
  }

  lemma ClientKeepsPlaces(s: State, a: ClientAct, id: nat)
    requires OnePlace(s) && ClientEnabled(s, a)
    ensures Places(ClientStep(s, a), id) == Bit(id in ClientStep(s, a).hist.used)
  {
    hide WalkStep, Holds;
    assert Places(s, id) == Bit(id in s.hist.used);
    match a
    case WalkEnter(_, _) =>
    case WalkLook(_) =>
    case WalkDo(c) => WalkKeepsPlaces(s, c, id);
    case AbortReply(i) => CountAppend(s.hist.replies, [i], id);
    case _ => SubmitKeepsPlaces(s, a, id);
  }

  lemma OwnerKeepsPlaces(s: State, o: OwnerAct, id: nat)
    requires Inv(s) && OwnerEnabled(DESIGN, s, o)
    ensures Places(OwnerStep(DESIGN, s, o), id) == Places(s, id)
    ensures OwnerStep(DESIGN, s, o).hist.used == s.hist.used
  {
    CountAppend(s.queue, [Shut], Req(id));
  }

  lemma StepKeepsOnePlace(s: State, step: Step)
    requires Inv(s) && OnePlace(s) && Enabled(DESIGN, s, step)
    ensures OnePlace(Apply(DESIGN, s, step))
  {
    hide Places, Inv, TaskStep, ClientStep, OwnerStep, TaskEnabled, ClientEnabled, OwnerEnabled;
    forall id
      ensures Places(Apply(DESIGN, s, step), id) == Bit(id in Apply(DESIGN, s, step).hist.used)
    {
      assert Places(s, id) == Bit(id in s.hist.used);
      match step
      case Owner(o) => OwnerKeepsPlaces(s, o, id);
      case Task(t) => TaskKeepsPlaces(s, t, id);
      case Client(a) => ClientKeepsPlaces(s, a, id);
    }
  }

  lemma {:induction false} RunsKeepOnePlace(steps: seq<Step>)
    requires Runs(DESIGN, steps)
    ensures OnePlace(After(DESIGN, steps))
  {
    hide Apply, Enabled, OnePlace;
    if steps == [] {
      InitKeeps();
    } else {
      RunsKeepInv(steps[..|steps| - 1]);
      RunsKeepOnePlace(steps[..|steps| - 1]);
      StepKeepsOnePlace(After(DESIGN, steps[..|steps| - 1]), steps[|steps| - 1]);
    }
  }

  /** Behind the end of close nothing is under way any more. */
  lemma NothingLeft(s: State, id: nat)
    requires Inv(s) && s.ctl.owner.Closed?
    ensures s.queue == [] && NoCalls(s.calls) && !Holds(s.ctl.task, id)
  {
  }

  /** At most one reply ever; and once close has returned, exactly one for every request. */
  lemma ExactlyOneReply(steps: seq<Step>, id: nat)
    requires Runs(DESIGN, steps)
    ensures Count(After(DESIGN, steps).hist.replies, id) <= 1
    ensures Count(After(DESIGN, steps).hist.replies, id) == 1 ==> id in After(DESIGN, steps).hist.used
    ensures After(DESIGN, steps).ctl.owner.Closed?
            ==> Count(After(DESIGN, steps).hist.replies, id) == Bit(id in After(DESIGN, steps).hist.used)
  {
    var s := After(DESIGN, steps);
    RunsKeepInv(steps);
    RunsKeepOnePlace(steps);
    hide Runs, After, Inv, Holds;
    assert Places(s, id) == Bit(id in s.hist.used);
    if s.ctl.owner.Closed? {
      NothingLeft(s, id);
    }
  }

  // ---- requests are taken in the order of submission ----

  function Pruned(ids: seq<nat>, gone: set<nat>): (r: seq<nat>)
  {
    if ids == [] then [] else if ids[0] in gone then Pruned(ids[1..], gone) else [ids[0]] + Pruned(ids[1..], gone)
  }

  /** What the task has got: first in its loop, then in the drain. */
  function Taken(h: History): (ids: seq<nat>)
  {
    h.served + h.drained
  }

  /** What was posted and not pulled out again is what the task took, in the same order, and then
      what is still queued. */
  ghost predicate InOrder(s: State)
  {
    var h := s.hist;
    && Distinct(h.log)
    && (forall id | id in h.log :: id in h.used && id !in s.calls.submits)
    && (forall id | id in s.calls.submits :: id in h.used)
    && (forall id | id in h.pulled :: id in h.log)
    && Pruned(h.log, h.pulled) == Taken(h) + Ids(s.queue)
  }

  lemma {:induction false} PrunedAppend(ids: seq<nat>, id: nat, gone: set<nat>)
    requires id !in gone
    ensures Pruned(ids + [id], gone) == Pruned(ids, gone) + [id]
  {
    if ids != [] {
      PrunedAppend(ids[1..], id, gone);
      assert (ids + [id])[1..] == ids[1..] + [id];
    }
  }

  lemma {:induction false} PrunedStays(ids: seq<nat>, gone: set<nat>)
    requires Distinct(ids)
    ensures Distinct(Pruned(ids, gone))
    ensures forall x | x in Pruned(ids, gone) :: x in ids
  {
    if ids != [] {
      DistinctFirst(ids);
      PrunedStays(ids[1..], gone);
      assert ids == [ids[0]] + ids[1..];
      if ids[0] !in gone {
        assert Pruned(ids, gone)[1..] == Pruned(ids[1..], gone);
        DistinctFirst(Pruned(ids, gone));
      }
    }
  }

  /** Pruning in two goes is pruning once. */
  lemma {:induction false} PrunedTwice(ids: seq<nat>, gone: set<nat>, more: set<nat>)
    ensures Pruned(ids, gone + more) == Pruned(Pruned(ids, gone), more)
  {
    if ids != [] {
      PrunedTwice(ids[1..], gone, more);
      if ids[0] !in gone {
        assert Pruned(ids, gone)[1..] == Pruned(ids[1..], gone);
      }
    }
  }

  /** Pruning the tail of a list without repeats leaves its front alone. */
  lemma {:induction false} PrunedTail(front: seq<nat>, back: seq<nat>, gone: set<nat>)
    requires Distinct(front + back) && forall i | i in gone :: i in back
    ensures Pruned(front + back, gone) == front + Pruned(back, gone)
    ensures Distinct(back)
  {
    if front == [] {
      assert front + back == back;
    } else {
      var rest := front[1..] + back;
      assert front + back == [front[0]] + rest;
      DistinctFirst(front + back);
      assert front[0] !in gone by {
        assert forall i | i in back :: i in rest;
      }
      PrunedTail(front[1..], back, gone);
      assert front == [front[0]] + front[1..];
    }
  }

  lemma {:induction false} PrunedAll(ids: seq<nat>, gone: set<nat>)
    requires forall i | i in ids :: i in gone
    ensures Pruned(ids, gone) == []
  {
    if ids != [] {
      assert ids == [ids[0]] + ids[1..];
      PrunedAll(ids[1..], gone);
    }
  }

  lemma {:induction false} PrunedNone(ids: seq<nat>, gone: set<nat>)
    requires forall i | i in ids :: i !in gone
    ensures Pruned(ids, gone) == ids
  {
    if ids != [] {
      assert ids == [ids[0]] + ids[1..];
      PrunedNone(ids[1..], gone);
    }
  }

  /** Aborting a request prunes it from the list of requests. */
  lemma {:induction false} IdsWithout(q: seq<Msg>, i: nat)
    requires Distinct(Ids(q))
    ensures Ids(Without(q, i)) == Pruned(Ids(q), {i})
    ensures Req(i) in q <==> i in Ids(q)
  {
    hide Distinct;
    if q != [] {
      assert q == [q[0]] + q[1..];
      if q[0].Req? {
        DistinctFirst(Ids(q));
        assert Ids(q)[1..] == Ids(q[1..]);
      }
      IdsWithout(q[1..], i);
      if q[0] == Req(i) {
        PrunedNone(Ids(q[1..]), {i});
      } else {
        assert Without(q, i)[1..] == Without(q[1..], i);
      }
    }
  }

  lemma {:induction false} IdsOnlyShut(q: seq<Msg>)
    ensures Ids(OnlyShut(q)) == []
  {
    if q != [] {
      IdsOnlyShut(q[1..]);
      if q[0].Shut? {
        assert OnlyShut(q)[1..] == OnlyShut(q[1..]);
      }
    }
  }

  lemma {:induction false} IdsAppend(q: seq<Msg>, m: Msg)
    ensures Ids(q + [m]) == Ids(q) + (if m.Req? then [m.id] else [])
  {
    if q != [] {
      IdsAppend(q[1..], m);
      assert (q + [m])[1..] == q[1..] + [m];
    }
  }

  /** Taking the requests `ids` out of the queue: what is left is still in order. */
  lemma PullKeepsOrder(s: State, gone: set<nat>)
    requires InOrder(s) && forall i | i in gone :: i in Ids(s.queue)
    ensures Pruned(s.hist.log, s.hist.pulled + gone) == Taken(s.hist) + Pruned(Ids(s.queue), gone)
    ensures Distinct(Ids(s.queue))
    ensures forall i | i in gone :: i in s.hist.log
  {
    var h := s.hist;
    PrunedStays(h.log, h.pulled);
    PrunedTwice(h.log, h.pulled, gone);
    PrunedTail(Taken(h), Ids(s.queue), gone);
  }

  lemma OwnerKeepsOrder(s: State, o: OwnerAct)
    requires InOrder(s) && OwnerEnabled(DESIGN, s, o)
    ensures InOrder(OwnerStep(DESIGN, s, o))
  {
    IdsAppend(s.queue, Shut);
  }

  lemma TaskKeepsOrder(s: State, t: TaskAct)
    requires InOrder(s) && Drains(s) && Inv(s) && TaskEnabled(s, t)
    ensures InOrder(TaskStep(s, t))
  {
    hide Pruned, Distinct;
    if (t.TaskGet? || t.TaskDrain?) && s.queue != [] {
      var rest := Ids(s.queue[1..]);
      if s.queue[0].Req? {
        var i := s.queue[0].id;
        assert t.TaskGet? ==> s.hist.drained == [];
        assert Taken(TaskStep(s, t).hist) == Taken(s.hist) + [i];
        assert Taken(s.hist) + ([i] + rest) == (Taken(s.hist) + [i]) + rest;
      }
    }
  }

  lemma WalkKeepsOrder(s: State, c: nat)
    requires InOrder(s) && ClientEnabled(s, WalkDo(c))
    ensures InOrder(WalkStep(s, c))
  {
    match s.calls.walks[c]
    case AbortWalk(i) =>
      PullKeepsOrder(s, {});
      IdsWithout(s.queue, i);
      if Req(i) in s.queue {
        PullKeepsOrder(s, {i});
      }
    case FlushWalk =>
      var ids := Ids(s.queue);
      var gone := set i | i in ids;
      PullKeepsOrder(s, gone);
      PrunedAll(ids, gone);
      IdsOnlyShut(s.queue);
    case _ =>
  }

  lemma ClientKeepsOrder(s: State, a: ClientAct)
    requires InOrder(s) && ClientEnabled(s, a)
    ensures InOrder(ClientStep(s, a))
  {
    hide WalkStep, Pruned, Distinct, Ids;
    match a
    case SubmitEnter(_) =>
    case SubmitLook(_) =>
    case SubmitPut(id) =>
      DistinctAppend(s.hist.log, id);
      PrunedAppend(s.hist.log, id, s.hist.pulled);
      IdsAppend(s.queue, Req(id));
      assert Taken(s.hist) + (Ids(s.queue) + [id]) == Taken(s.hist) + Ids(s.queue) + [id];
    case SubmitFail(_) =>
    case WalkEnter(_, _) =>
    case WalkLook(_) =>
    case WalkDo(c) => WalkKeepsOrder(s, c);
    case AbortReply(_) =>
  }

  // ---- the drain ----

  /** Close found the task in front of a look at `shutting`, with whatever was queued not yet looked at. */
  predicate Early(pc: TaskPc)
  {
    pc == FirstLook || pc == Looking(true)
  }

  /** The shutdown message stands behind everything else. */
  predicate ShutLast(q: seq<Msg>)
  {
    q != [] && q[|q| - 1] == Shut && Shut !in q[..|q| - 1]
  }

  /** If close came early, what was queued then is drained, and nothing is served any more; if not, nothing is
      drained: the task gets everything else before the shutdown message. */
  ghost predicate DrainsAs(c: Control, q: seq<Msg>, drained: seq<nat>, met: Meeting)
  {
    && (c.shutting <==> met.Met?)
    && if met.NotYet? then drained == []
       else if Early(met.task) then drained + Ids(q) == met.waiting && (c.task == met.task || Stage(c.task) >= 6)
       else
         && drained == [] && !Early(c.task)
         && (Stage(c.task) >= 6 || c.task.Looking? ==> Ids(q) == [])
         && (c.owner.WaitDead? && Stage(c.task) == 5 && !c.task.Looking? ==> ShutLast(q))
  }

  ghost predicate Drains(s: State)
  {
    DrainsAs(s.ctl, s.queue, s.hist.drained, s.hist.met)
  }

  lemma OwnerKeepsDrains(s: State, o: OwnerAct)
    requires Inv(s) && Drains(s) && OwnerEnabled(DESIGN, s, o)
    ensures Drains(OwnerStep(DESIGN, s, o))
  {
    IdsAppend(s.queue, Shut);
    assert (s.queue + [Shut])[..|s.queue|] == s.queue;
    assert [] + Ids(s.queue) == Ids(s.queue);
  }

  lemma FetchKeepsDrains(c: Control, t: TaskAct, q: seq<Msg>, drained: seq<nat>, met: Meeting)
    requires Handshake(c) && Port(c) && Queue(c, q) && !c.forbid && TaskAt(c.task, t)
    requires DrainsAs(c, q, drained, met) && (t.TaskGet? || t.TaskDrain?)
    ensures var rest := if q == [] then [] else q[1..];
            var more := if q != [] && q[0].Req? && t.TaskDrain? then drained + [q[0].id] else drained;
            DrainsAs(TaskControl(c, t, Head(q)), rest, more, met)
  {
    if q != [] {
      assert q == [q[0]] + q[1..];
    }
  }

  lemma OtherKeepsDrains(c: Control, t: TaskAct, head: Option<Msg>, q: seq<Msg>, drained: seq<nat>, met: Meeting)
    requires Handshake(c) && Port(c) && Queue(c, q) && !c.forbid && TaskAt(c.task, t)
    requires DrainsAs(c, q, drained, met) && !t.TaskGet? && !t.TaskDrain?
    ensures DrainsAs(TaskControl(c, t, head), q, drained, met)
  {
    hide Ids, ShutLast;
  }

  lemma TaskKeepsDrains(s: State, t: TaskAct)
    requires Inv(s) && Drains(s) && !s.ctl.forbid && TaskEnabled(s, t)
    ensures Drains(TaskStep(s, t))
  {
    hide DrainsAs, Handshake, Port, Queue, Callers, TaskAt, TaskControl;
    if t.TaskGet? || t.TaskDrain? {
      FetchKeepsDrains(s.ctl, t, s.queue, s.hist.drained, s.hist.met);
    } else {
      OtherKeepsDrains(s.ctl, t, Head(s.queue), s.queue, s.hist.drained, s.hist.met);
    }
  }

  /** Callers are gone before close begins. */
  lemma ClientKeepsDrains(s: State, a: ClientAct)
    requires Inv(s) && Drains(s) && ClientEnabled(s, a)
    ensures Drains(ClientStep(s, a))
  {
    ClientTouches(s, a);
  }

  lemma {:induction false} RunsKeepOrder(steps: seq<Step>)
    requires Runs(DESIGN, steps)
    ensures InOrder(After(DESIGN, steps)) && Drains(After(DESIGN, steps))
  {
    hide InOrder, Drains, Inv, TaskStep, ClientStep, OwnerStep, TaskEnabled, ClientEnabled, OwnerEnabled;
    if steps == [] {
      InitKeeps();
    } else {
      RunsKeepOrder(steps[..|steps| - 1]);
      RunsKeepInv(steps[..|steps| - 1]);
      var s := After(DESIGN, steps[..|steps| - 1]);
      match steps[|steps| - 1]
      case Owner(o) =>
        OwnerKeepsOrder(s, o);
        OwnerKeepsDrains(s, o);
      case Task(t) =>
        TaskKeepsOrder(s, t);
        TaskKeepsDrains(s, t);
      case Client(a) =>
        ClientKeepsOrder(s, a);
        ClientKeepsDrains(s, a);
    }
  }

  /** What the drain behind the message loop gets: what close found queued, if it came in front of the task's
      first look at `shutting` or between an empty GetMsg and its next look; else nothing. */
  function LeftToDrain(met: Meeting): (ids: seq<nat>)
  {
    if met.Met? && Early(met.task) then met.waiting else []
  }

  lemma DrainedBehindClose(s: State)
    requires Inv(s) && Drains(s)
    ensures s.hist.drained <= LeftToDrain(s.hist.met)
    ensures s.ctl.owner.Closed? ==> s.hist.drained == LeftToDrain(s.hist.met)
  {
  }

  /** First come, first served: the task has taken a prefix of the requests posted and not pulled out, and all
      of them once close has returned; those it drained without serving them are the last of these. */
  lemma {:induction false} FirstComeFirstServed(steps: seq<Step>)
    requires Runs(DESIGN, steps)
    ensures var h := After(DESIGN, steps).hist;
            h.served + h.drained <= Pruned(h.log, h.pulled) && Distinct(h.log) && h.drained <= LeftToDrain(h.met)
    ensures var s := After(DESIGN, steps);
            s.ctl.owner.Closed? ==>
              s.hist.served + s.hist.drained == Pruned(s.hist.log, s.hist.pulled)
              && s.hist.drained == LeftToDrain(s.hist.met)
  {
    var s := After(DESIGN, steps);
    RunsKeepInv(steps);
    RunsKeepOrder(steps);
    hide Runs, After, Inv, Pruned, Distinct, Drains, LeftToDrain;
    DrainedBehindClose(s);
    if s.ctl.owner.Closed? {
      NothingLeft(s, 0);
    }
  }
}

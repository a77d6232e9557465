/** What the calls of other tasks do to the queue and to the replies, in every reachable state of the device
    (src/nw_engine.c:1473-1539). */
module DeviceSteps {
  import opened Bytes
  import opened DeviceTask
  import opened DeviceSafety
  import opened DeviceHistory
  import opened Counting

  // ---- lists of messages, by membership and position ----

  /** The requests of a queue, in its order: their positions are increasing, and no other request is queued. */
  ghost predicate InQueueOrder(q: seq<Msg>, ids: seq<nat>, at: seq<nat>)
  {
    && |at| == |ids|
    && (forall k | 0 <= k < |at| :: at[k] < |q| && q[at[k]] == Req(ids[k]))
    && (forall j, k | 0 <= j < k < |at| :: at[j] < at[k])
    && (forall i | 0 <= i < |q| && q[i].Req? :: i in at)
  }

  lemma {:induction false} IdsInOrder(q: seq<Msg>) returns (at: seq<nat>)
    ensures InQueueOrder(q, Ids(q), at)
  {
    at := [];
    if q != [] {
      var n := |q| - 1;
      var init := q[..n];
      assert q == init + [q[n]];
      at := IdsInOrder(init);
      IdsAppend(init, q[n]);
      hide Ids;
      assert forall i | 0 <= i < n :: q[i] == init[i];
      if q[n].Req? {
        var more := at + [n];
        assert more[|at|] == n && forall i | i in at :: i in more;
        at := more;
      }
    }
  }

  lemma {:induction false} OnlyShutHas(q: seq<Msg>)
    ensures forall m :: m in OnlyShut(q) <==> m == Shut && m in q
    ensures |OnlyShut(q)| == Count(q, Shut)
  {
    if q != [] {
      OnlyShutHas(q[1..]);
      assert q == [q[0]] + q[1..];
    }
  }

  /** q without its k-th message. */
  function DropAt(q: seq<Msg>, k: nat): (r: seq<Msg>)
    requires k < |q|
  {
    q[..k] + q[k + 1..]
  }

  lemma DropAtBehind(m: Msg, q: seq<Msg>, j: nat)
    requires j < |q|
    ensures DropAt([m] + q, j + 1) == [m] + DropAt(q, j)
  {
  }

  lemma DropFirst(m: Msg, q: seq<Msg>)
    ensures DropAt([m] + q, 0) == q
  {
  }

  lemma {:induction false} WithoutTakesOut(q: seq<Msg>, id: nat) returns (k: nat)
    requires Req(id) in q
    ensures k < |q| && q[k] == Req(id) && Without(q, id) == DropAt(q, k)
  {
    hide DropAt;
    assert q == [q[0]] + q[1..];
    k := 0;
    if q[0] == Req(id) {
      DropFirst(q[0], q[1..]);
    } else {
      var j := WithoutTakesOut(q[1..], id);
      DropAtBehind(q[0], q[1..], j);
      k := j + 1;
    }
  }

  lemma {:induction false} OnceQueued(q: seq<Msg>, id: nat)
    requires Distinct(Ids(q)) && Req(id) in q
    ensures Req(id) !in Without(q, id)
  {
    hide Distinct;
    assert q == [q[0]] + q[1..];
    if q[0].Req? {
      DistinctFirst(Ids(q));
      assert Ids(q)[1..] == Ids(q[1..]);
    }
    IdsWithout(q[1..], id);
    if q[0] != Req(id) {
      OnceQueued(q[1..], id);
    }
  }

  lemma QueuedOnce(steps: seq<Step>)
    requires Runs(DESIGN, steps)
    ensures Distinct(Ids(After(DESIGN, steps).queue))
  {
    RunsKeepOrder(steps);
    hide Runs, After, Distinct, Pruned;
    PullKeepsOrder(After(DESIGN, steps), {});
  }

  // ---- flush and abort ----

  /** A flush takes every request out of the queue and replies it, in queue order; the shutdown message stays.
      It is what Flush does to the list. */
  lemma FlushEmptiesQueue(steps: seq<Step>, c: nat) returns (ids: seq<nat>, at: seq<nat>)
    requires Runs(DESIGN, steps)
    requires var s := After(DESIGN, steps);
             c in s.calls.walks && s.calls.walks[c] == FlushWalk && Enabled(DESIGN, s, Client(WalkDo(c)))
    ensures var s := After(DESIGN, steps);
            var r := Apply(DESIGN, s, Client(WalkDo(c)));
            && (forall id :: Req(id) !in r.queue) && (Shut in r.queue <==> Shut in s.queue)
            && r.hist.replies == s.hist.replies + ids && InQueueOrder(s.queue, ids, at)
            && r.queue == OnlyShut(s.queue) && ids == Ids(s.queue)
            && r.ctl == s.ctl && r.calls == s.calls.(walks := s.calls.walks - {c})
  {
    hide Runs;
    var s := After(DESIGN, steps);
    ids := Ids(s.queue);
    at := IdsInOrder(s.queue);
    OnlyShutHas(s.queue);
  }

  /** An abort takes out exactly its own request, if it is queued, for a reply of its own; all others keep their
      order. It is what Abort does to the list. */
  lemma AbortTakesOne(steps: seq<Step>, c: nat, id: nat) returns (k: nat)
    requires Runs(DESIGN, steps)
    requires var s := After(DESIGN, steps);
             c in s.calls.walks && s.calls.walks[c] == AbortWalk(id) && Enabled(DESIGN, s, Client(WalkDo(c)))
    ensures var s := After(DESIGN, steps);
            var r := Apply(DESIGN, s, Client(WalkDo(c)));
            && r.ctl == s.ctl && r.hist.replies == s.hist.replies && r.calls.submits == s.calls.submits
            && r.calls.walks == s.calls.walks - {c} && Req(id) !in r.queue
            && if Req(id) in s.queue
               then k < |s.queue| && s.queue[k] == Req(id) && r.queue == s.queue[..k] + s.queue[k + 1..]
                    && r.calls.unlinked == s.calls.unlinked + {id} && r.queue == Without(s.queue, id)
               else r.queue == s.queue && r.calls.unlinked == s.calls.unlinked
  {
    var s := After(DESIGN, steps);
    k := 0;
    QueuedOnce(steps);
    hide Runs, After, Distinct;
    if Req(id) in s.queue {
      k := WithoutTakesOut(s.queue, id);
      OnceQueued(s.queue, id);
    }
  }

  // ---- whole calls, when nothing comes in between ----

  function Do(s: State, a: ClientAct): (r: State)
  {
    Apply(DESIGN, s, Client(a))
  }

  /** A submit puts its request behind all others, or, without a port, replies it at once. */
  lemma SubmitCall(steps: seq<Step>, id: nat)
    requires Runs(DESIGN, steps) && Enabled(DESIGN, After(DESIGN, steps), Client(SubmitEnter(id)))
    ensures var s := After(DESIGN, steps);
            var s2 := Do(Do(s, SubmitEnter(id)), SubmitLook(id));
            if s.ctl.cmdPort
            then ClientEnabled(s2, SubmitPut(id)) && Do(s2, SubmitPut(id)).queue == s.queue + [Req(id)]
                 && Do(s2, SubmitPut(id)).hist.replies == s.hist.replies && id !in Do(s2, SubmitPut(id)).calls.submits
            else ClientEnabled(s2, SubmitFail(id)) && Do(s2, SubmitFail(id)).hist.replies == s.hist.replies + [id]
                 && Do(s2, SubmitFail(id)).queue == s.queue && id !in Do(s2, SubmitFail(id)).calls.submits
  {
    hide Runs, After;
  }

  /** An abort replies its request if it is queued and leaves everything as it was if not. */
  lemma AbortCall(steps: seq<Step>, c: nat, id: nat)
    requires Runs(DESIGN, steps) && Enabled(DESIGN, After(DESIGN, steps), Client(WalkEnter(c, AbortLook(id))))
    ensures var s := After(DESIGN, steps);
            var s2 := Do(Do(s, WalkEnter(c, AbortLook(id))), WalkLook(c));
            if s.ctl.cmdPort
            then ClientEnabled(s2, WalkDo(c))
                 && var s3 := Do(s2, WalkDo(c));
                    if Req(id) in s.queue
                    then ClientEnabled(s3, AbortReply(id))
                         && Do(s3, AbortReply(id)).hist.replies == s.hist.replies + [id]
                         && Do(s3, AbortReply(id)).queue == Without(s.queue, id)
                    else s3.queue == s.queue && s3.hist == s.hist && s3.calls == s.calls
            else s2.queue == s.queue && s2.hist == s.hist && s2.calls == s.calls
  {
    hide Runs, After;
    var s := After(DESIGN, steps);
    assert s.calls.walks[c := AbortWalk(id)] - {c} == s.calls.walks;
  }

  /** A flush replies every queued request, in queue order. */
  lemma FlushCall(steps: seq<Step>, c: nat)
    requires Runs(DESIGN, steps) && Enabled(DESIGN, After(DESIGN, steps), Client(WalkEnter(c, FlushLook)))
    ensures var s := After(DESIGN, steps);
            var s2 := Do(Do(s, WalkEnter(c, FlushLook)), WalkLook(c));
            if s.ctl.cmdPort
            then ClientEnabled(s2, WalkDo(c))
                 && var s3 := Do(s2, WalkDo(c));
                    s3.hist.replies == s.hist.replies + Ids(s.queue) && s3.queue == OnlyShut(s.queue)
            else s2.queue == s.queue && s2.hist == s.hist && s2.calls == s.calls
  {
    hide Runs, After;
  }

  // ---- the task's turn, when nothing comes in between ----

  function Turn(s: State, t: TaskAct): (r: State)
  {
    Apply(DESIGN, s, Task(t))
  }

  /** In its loop the task takes the oldest message: a request is served and replied, and then the next is looked
      for; the shutdown message ends the loop; with nothing queued it looks at `shutting`. */
  lemma ServeTurn(steps: seq<Step>)
    requires Runs(DESIGN, steps) && Enabled(DESIGN, After(DESIGN, steps), Task(TaskGet))
    ensures var s := After(DESIGN, steps);
            var s1 := Turn(s, TaskGet);
            if s.queue == [] then s1 == s.(ctl := s.ctl.(task := Looking(true)))
            else if s.queue[0] == Shut
            then s1 == s.(ctl := s.ctl.(task := Looking(false)), queue := s.queue[1..])
            else
              var s3 := Turn(Turn(s1, TaskFinish), TaskReply);
              TaskEnabled(s1, TaskFinish) && TaskEnabled(Turn(s1, TaskFinish), TaskReply)
              && s3.queue == s.queue[1..] && s3.hist.replies == s.hist.replies + [s.queue[0].id]
              && s3.hist.served == s.hist.served + [s.queue[0].id] && s3.ctl == s.ctl && s3.calls == s.calls
  {
    hide Runs, After;
  }

  /** In the drain it replies the oldest request unserved, passes over the shutdown message, and ends with the
      queue. */
  lemma DrainTurn(steps: seq<Step>)
    requires Runs(DESIGN, steps) && Enabled(DESIGN, After(DESIGN, steps), Task(TaskDrain))
    ensures var s := After(DESIGN, steps);
            var s1 := Turn(s, TaskDrain);
            if s.queue == [] then s1 == s.(ctl := s.ctl.(task := ClosingSession))
            else if s.queue[0] == Shut then s1 == s.(queue := s.queue[1..])
            else
              var s2 := Turn(s1, TaskDrainReply);
              TaskEnabled(s1, TaskDrainReply)
              && s2.queue == s.queue[1..] && s2.hist.replies == s.hist.replies + [s.queue[0].id]
              && s2.hist.drained == s.hist.drained + [s.queue[0].id] && s2.hist.served == s.hist.served
              && s2.ctl == s.ctl && s2.calls == s.calls
  {
    hide Runs, After;
  }
}

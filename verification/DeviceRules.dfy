/** What the two assumptions of the device's design are for (src/nw_engine.c:1285-1288,
    src/narrator_device.c:74-76): without either, some run touches freed memory or loses a request. */
module DeviceRules {
  import opened DeviceTask
  import opened DeviceSafety
  import opened DeviceHistory

  ghost predicate Reachable(rules: Rules, s: State)
  {
    exists steps :: Runs(rules, steps) && After(rules, steps) == s
  }

  lemma Start(rules: Rules)
    ensures Reachable(rules, INIT)
  {
    assert Runs(rules, []) && After(rules, []) == INIT;
  }

  lemma Go(rules: Rules, s: State, step: Step) returns (next: State)
    requires Reachable(rules, s) && Enabled(rules, s, step)
    ensures next == Apply(rules, s, step) && Reachable(rules, next)
  {
    next := Apply(rules, s, step);
    hide Apply, Enabled;
    var steps :| Runs(rules, steps) && After(rules, steps) == s;
    var longer := steps + [step];
    assert longer[..|longer| - 1] == steps;
    assert Runs(rules, longer) && After(rules, longer) == next;
  }

  /** The device has just been opened; the task has announced itself and not yet looked at `shutting`. */
  const FRESH := State(Control(FirstLook, true, Open, false, true, true, false, true, false, false), [],
                       Calls(map[], map[], {}), History([], {}, [], [], [], {}, NotYet))

  const STARTED := State(Control(Publishing, true, WaitReady, false, true, false, false, true, false, false), [],
                         Calls(map[], map[], {}), History([], {}, [], [], [], {}, NotYet))

  lemma Started(rules: Rules)
    ensures Reachable(rules, STARTED)
  {
    hide Reachable, Inv;
    Start(rules);
    var s := Go(rules, INIT, Owner(OpenEnter));
    s := Go(rules, s, Owner(OpenCreate));
    s := Go(rules, s, Task(TaskPort(true)));
  }

  lemma Opened(rules: Rules)
    ensures Reachable(rules, FRESH)
  {
    hide Reachable, Inv;
    Started(rules);
    var s := Go(rules, STARTED, Task(TaskPublish));
    s := Go(rules, s, Task(TaskReady));
    s := Go(rules, s, Owner(OpenReady));
  }

  /** Without Forbid() around the hook, the task may see `shutting` and delete its port before
      close posts its message to it. */
  lemma FlagSeen(rules: Rules) returns (s: State)
    requires !rules.hooksForbid
    ensures Reachable(rules, s)
    ensures s == State(Control(Draining, true, Posting, false, true, true, true, true, false, false), [],
                       Calls(map[], map[], {}), History([], {}, [], [], [], {}, Met(FirstLook, [])))
  {
    hide Reachable, Inv;
    Opened(rules);
    s := Go(rules, FRESH, Owner(CloseEnter));
    s := Go(rules, s, Owner(CloseFlag));
    s := Go(rules, s, Task(TaskFirst));
  }

  lemma PostToDeadPort(rules: Rules) returns (s: State)
    requires !rules.hooksForbid
    ensures Reachable(rules, s) && Enabled(rules, s, Owner(ClosePost)) && Violates(s, Owner(ClosePost))
  {
    hide Reachable, Inv;
    s := FlagSeen(rules);
    s := Go(rules, s, Task(TaskDrain));
    s := Go(rules, s, Task(TaskCloseSession));
    s := Go(rules, s, Task(TaskDelete));
  }

  lemma CloseFlagged(rules: Rules) returns (s: State)
    requires rules.hooksForbid && !rules.ownerOnly
    ensures Reachable(rules, s)
    ensures s == State(Control(FirstLook, true, Posting, true, true, true, true, true, false, false), [],
                       Calls(map[0 := PutMsg], map[], {}), History([], {0}, [], [], [], {}, Met(FirstLook, [])))
  {
    hide Reachable, Inv;
    Opened(rules);
    s := Go(rules, FRESH, Client(SubmitEnter(0)));
    s := Go(rules, s, Client(SubmitLook(0)));
    s := Go(rules, s, Owner(CloseEnter));
    s := Go(rules, s, Owner(CloseFlag));
  }

  /** Close is called while another task is about to post a request; its first drain is over. */
  lemma CloseDuringSubmit(rules: Rules) returns (s: State)
    requires rules.hooksForbid && !rules.ownerOnly
    ensures Reachable(rules, s)
    ensures s == State(Control(ClosingSession, true, WaitDead, false, true, true, true, true, false, false), [],
                       Calls(map[0 := PutMsg], map[], {}), History([], {0}, [], [], [], {}, Met(FirstLook, [])))
  {
    hide Reachable, Inv;
    s := CloseFlagged(rules);
    s := Go(rules, s, Owner(ClosePost));
    s := Go(rules, s, Task(TaskFirst));
    s := Go(rules, s, Task(TaskDrain));
    s := Go(rules, s, Task(TaskDrain));
  }

  /** The other task then posts to a port that has been deleted. */
  lemma SubmitToDeadPort(rules: Rules) returns (s: State)
    requires rules.hooksForbid && !rules.ownerOnly
    ensures Reachable(rules, s) && Enabled(rules, s, Client(SubmitPut(0))) && Violates(s, Client(SubmitPut(0)))
  {
    hide Reachable, Inv;
    s := CloseDuringSubmit(rules);
    s := Go(rules, s, Task(TaskCloseSession));
    s := Go(rules, s, Task(TaskDelete));
  }

  /** Or it posts in time for the port but too late for the drain: the request is never completed. */
  lemma LostRequest(rules: Rules) returns (s: State)
    requires rules.hooksForbid && !rules.ownerOnly
    ensures Reachable(rules, s) && s.ctl.owner.Closed? && 0 in s.hist.used && 0 !in s.hist.replies
    ensures s.ctl.task.Gone? && NoCalls(s.calls)
  {
    hide Reachable, Inv;
    s := CloseDuringSubmit(rules);
    s := Go(rules, s, Client(SubmitPut(0)));
    s := Go(rules, s, Task(TaskCloseSession));
    s := Go(rules, s, Task(TaskDelete));
    s := Go(rules, s, Task(TaskSnap));
    s := Go(rules, s, Task(TaskDead));
    s := Go(rules, s, Owner(CloseDead));
    s := Go(rules, s, Owner(CloseFree));
  }

  const POSTED := State(Control(FirstLook, true, Open, false, true, true, false, true, false, false), [Req(0)],
                        Calls(map[], map[], {}), History([], {0}, [0], [], [], {}, NotYet))

  lemma Posted()
    ensures Reachable(DESIGN, POSTED)
  {
    hide Reachable, Inv;
    Opened(DESIGN);
    var s := Go(DESIGN, FRESH, Client(SubmitEnter(0)));
    assert s.calls.submits == map[0 := ReadPort];
    s := Go(DESIGN, s, Client(SubmitLook(0)));
    assert s.calls.submits == map[0 := PutMsg];
    s := Go(DESIGN, s, Client(SubmitPut(0)));
    assert s.calls.submits == map[] && s.queue == [Req(0)] && s.hist.log == [0] && s.hist.used == {0};
  }

  lemma CloseMeetsFirst() returns (s: State)
    ensures Reachable(DESIGN, s)
    ensures s == State(Control(Draining, true, WaitDead, false, true, true, true, true, false, false), [Req(0), Shut],
                       Calls(map[], map[], {}), History([], {0}, [0], [], [], {}, Met(FirstLook, [0])))
  {
    hide Reachable, Inv;
    Posted();
    assert [Req(0)][1..] == [] && Ids([Req(0)]) == [0];
    s := Go(DESIGN, POSTED, Owner(CloseEnter));
    s := Go(DESIGN, s, Owner(CloseFlag));
    s := Go(DESIGN, s, Owner(ClosePost));
    assert s.queue == [Req(0), Shut];
    s := Go(DESIGN, s, Task(TaskFirst));
  }

  /** Under both assumptions, too, a request may be replied without being served: close came before the task's
      first look at `shutting`. */
  lemma DrainedUnserved() returns (s: State)
    ensures Reachable(DESIGN, s) && s.ctl.owner.Closed? && s.hist.replies == [0]
    ensures s.hist.served == [] && s.hist.drained == [0]
  {
    hide Reachable, Inv;
    s := CloseMeetsFirst();
    s := Go(DESIGN, s, Task(TaskDrain));
    s := Go(DESIGN, s, Task(TaskDrainReply));
    s := Go(DESIGN, s, Task(TaskDrain));
    s := Go(DESIGN, s, Task(TaskDrain));
    s := Go(DESIGN, s, Task(TaskCloseSession));
    s := Go(DESIGN, s, Task(TaskDelete));
    s := Go(DESIGN, s, Task(TaskSnap));
    s := Go(DESIGN, s, Task(TaskDead));
    s := Go(DESIGN, s, Owner(CloseDead));
    s := Go(DESIGN, s, Owner(CloseFree));
  }

  ghost predicate AlwaysSafe(rules: Rules)
  {
    forall s, step | Reachable(rules, s) && Enabled(rules, s, step) :: !Violates(s, step)
  }

  /** The device is safe in every interleaving exactly under both assumptions. */
  lemma SafeIffAssumptions(rules: Rules)
    ensures AlwaysSafe(rules) <==> rules.hooksForbid && rules.ownerOnly
  {
    hide Enabled, Violates, Runs, After;
    if !rules.hooksForbid {
      var s := PostToDeadPort(rules);
    } else if !rules.ownerOnly {
      var s := SubmitToDeadPort(rules);
    } else {
      assert rules == DESIGN;
      forall s, step | Reachable(rules, s) && Enabled(rules, s, step)
        ensures !Violates(s, step)
      {
        var steps :| Runs(rules, steps) && After(rules, steps) == s;
        RunsAreSafe(steps, step);
      }
    }
  }
}

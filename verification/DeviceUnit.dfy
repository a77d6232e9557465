/** What the device does to the message list of its port: dispatch, abort and flush
    (src/narrator_device.c:118-189, src/nw_engine.c:1473-1539). */
module DeviceUnit {
  import opened DeviceTask
  import opened ExecList
  import opened Counting
  import DeviceHistory

  // ---- removing nodes, and what that does to the messages ----

  ghost predicate OneNodeEach(ns: seq<Node>)
  {
    forall i, j | 0 <= i < j < |ns| :: ns[i].msg != ns[j].msg
  }

  lemma MsgsAppend(a: seq<Node>, b: seq<Node>)
    ensures Msgs(a + b) == Msgs(a) + Msgs(b)
  {
  }

  lemma {:induction false} WithoutAt(q: seq<Msg>, k: nat)
    requires k < |q| && q[k].Req? && forall i | 0 <= i < k :: q[i] != q[k]
    ensures Without(q, q[k].id) == q[..k] + q[k + 1..]
  {
    if k > 0 {
      WithoutAt(q[1..], k - 1);
      assert q[1..][..k - 1] == q[1..k] && q[1..][k..] == q[k + 1..];
    }
  }

  lemma {:induction false} OnlyShutSnoc(q: seq<Msg>, m: Msg)
    ensures OnlyShut(q + [m]) == OnlyShut(q) + (if m.Shut? then [m] else [])
    ensures Ids(q + [m]) == Ids(q) + (if m.Req? then [m.id] else [])
  {
    if q != [] {
      assert (q + [m])[1..] == q[1..] + [m];
      OnlyShutSnoc(q[1..], m);
    }
  }

  lemma FlushedMore(q: seq<Node>, i: nat, kept: seq<Node>)
    requires i < |q|
    ensures OnlyShut(Msgs(q[..i + 1])) == OnlyShut(Msgs(q[..i])) + (if q[i].msg.Shut? then [q[i].msg] else [])
    ensures Ids(Msgs(q[..i + 1])) == Ids(Msgs(q[..i])) + (if q[i].msg.Req? then [q[i].msg.id] else [])
    ensures Msgs(kept + [q[i]]) == Msgs(kept) + [q[i].msg]
  {
    assert Msgs(q[..i + 1]) == Msgs(q[..i]) + [q[i].msg];
    OnlyShutSnoc(Msgs(q[..i]), q[i].msg);
  }

  /** The node at the cursor of a walk that has come to q[i]. */
  ghost function Cursor(port: MsgList, q: seq<Node>, i: nat): (n: Node)
  {
    if i < |q| then q[i] else port.last
  }

  lemma Standing(port: MsgList, kept: seq<Node>, q: seq<Node>, i: nat)
    requires port.Valid() && i <= |q| && port.nodes == kept + q[i..]
    ensures port.All()[|kept| + 1] == Cursor(port, q, i)
    ensures Cursor(port, q, i).succ == null <==> i == |q|
  {
    hide MsgList.Valid;
    port.AtEnd(|kept|);
  }

  lemma Successor(port: MsgList, kept: seq<Node>, q: seq<Node>, i: nat)
    requires port.Valid() && i < |q| && port.nodes == kept + q[i..]
    ensures q[i].succ == Cursor(port, q, i + 1)
  {
    hide MsgList.Valid;
    port.Neighbours(|kept|);
  }

  /** The per-open context of the device, as the callers see it. */
  class Unit {
    const shutMsg: Node
    var cmdPort: MsgList?
    ghost var replied: seq<nat>          // requests handed back by ReplyMsg, in order

    ghost function Ports(): (ps: set<MsgList>)
      reads `cmdPort
    {
      if cmdPort == null then {} else {cmdPort}
    }

    /** Every node in the port's list, with its sentinels. */
    ghost function Chain(): (ns: set<Node>)
      reads `cmdPort, cmdPort
    {
      if cmdPort == null then {} else set n | n in cmdPort.All()
    }

    /** The messages waiting in the port. */
    ghost function Waiting(): (q: seq<Msg>)
      reads `cmdPort, cmdPort
    {
      if cmdPort == null then [] else Msgs(cmdPort.nodes)
    }

    ghost predicate Valid()
      reads `cmdPort, cmdPort, Chain()`succ, Chain()`pred
    {
      && shutMsg.msg == Shut
      && (cmdPort != null ==>
            && cmdPort.Valid() && OneNodeEach(cmdPort.nodes)
            && shutMsg != cmdPort.first && shutMsg != cmdPort.last
            && (forall n | n in cmdPort.nodes :: n == shutMsg || n.msg.Req?))
    }

    /** The context as nw_dev_open allocates it: no port yet. */
    constructor ()
      ensures Valid() && cmdPort == null && replied == [] && fresh(shutMsg)
    {
      shutMsg := new Node(Shut);
      cmdPort, replied := null, [];
    }

    /** ReplyMsg puts the node on its caller's reply port: its pointers are the caller's from then on. */
    method ReplyMsg(n: Node)
      requires n.msg.Req?
      modifies n`succ, n`pred, `replied
      ensures replied == old(replied) + [n.msg.id]
    {
      n.succ, n.pred := *, *;
      replied := replied + [n.msg.id];
    }

    /** One queued request is unlinked, marked and replied. */
    method TakeOut(io: Node, ghost k: nat)
      requires Valid() && cmdPort != null && k < |cmdPort.nodes| && cmdPort.nodes[k] == io && io.msg.Req?
      modifies `replied, io`error, cmdPort`nodes, cmdPort.first`succ, cmdPort.last`pred
      modifies cmdPort.nodes`succ, cmdPort.nodes`pred
      ensures Valid() && io.error == Aborted && replied == old(replied) + [io.msg.id]
      ensures cmdPort.nodes == old(cmdPort.nodes[..k] + cmdPort.nodes[k + 1..]) && io !in cmdPort.All()
      ensures Msgs(cmdPort.nodes) == Without(old(Msgs(cmdPort.nodes)), io.msg.id)
    {
      hide MsgList.Valid;
      WithoutAt(Msgs(cmdPort.nodes), k);
      cmdPort.Remove(io, k);
      io.error := Aborted;
      ReplyMsg(io);
    }

    /** nw_dev_abort: 0 exactly if the request was queued; it is then replied, and the others
        keep their order. */
    method Abort(io: Node?) returns (r: int)
      requires Valid() && (io != null ==> io.msg.Req?)
      modifies `replied, (if io == null then {} else {io})`error, Ports()`nodes, Chain()`succ, Chain()`pred
      ensures Valid()
      ensures r == if io != null && cmdPort != null && io in old(cmdPort.nodes) then 0 else -1
      ensures r == 0 ==> Waiting() == Without(old(Waiting()), io.msg.id) && io !in cmdPort.nodes
                         && replied == old(replied) + [io.msg.id] && io.error == Aborted
      ensures r != 0 ==> Waiting() == old(Waiting()) && replied == old(replied)
    {
      hide MsgList.Valid, OneNodeEach;
      if io == null { return -1; }
      var port := cmdPort;
      if port == null { return -1; }
      port.Ends();
      var n := port.first.succ;
      ghost var k := 0;
      port.AtEnd(0);
      while n.succ != null
        invariant k <= |port.nodes| && n == port.All()[k + 1] && (n.succ == null <==> k == |port.nodes|)
        invariant io !in port.nodes[..k]
        decreases |port.nodes| - k
        modifies {}
      {
        assert n == port.nodes[k];
        if n == io { break; }
        port.Neighbours(k);
        port.AtEnd(k + 1);
        n := n.succ;
        k := k + 1;
      }
      if n.succ != null {
        TakeOut(io, k);
        return 0;
      }
      assert port.nodes[..k] == port.nodes;
      return -1;
    }

    /** The port's nodes are among these. */
    ghost predicate Within(chain: set<Node>)
      reads `cmdPort, cmdPort
    {
      cmdPort != null && cmdPort.first in chain && cmdPort.last in chain
      && forall n | n in cmdPort.nodes :: n in chain
    }

    /** How far a flush has come in the list q it found: the first i messages are dealt with. */
    ghost predicate Flushed(chain: set<Node>, q: seq<Node>, i: nat, kept: seq<Node>, before: seq<nat>)
      reads `cmdPort, `replied, cmdPort, Chain()`succ, Chain()`pred, q`error
    {
      && Valid() && Within(chain) && (forall n | n in q :: n in chain) && i <= |q|
      && cmdPort.nodes == kept + q[i..] && Msgs(kept) == OnlyShut(Msgs(q[..i]))
      && replied == before + Ids(Msgs(q[..i]))
      && forall n | n in q[..i] && n.msg.Req? :: n.error == Aborted
    }

    /** One trip of the flush: the shutdown message is passed over, a request is taken out. */
    method FlushOne(n: Node, ghost chain: set<Node>, ghost q: seq<Node>, ghost i: nat, ghost kept: seq<Node>,
                    ghost before: seq<nat>) returns (ghost more: seq<Node>)
      requires Flushed(chain, q, i, kept, before) && i < |q| && n == q[i]
      modifies `replied, cmdPort`nodes, chain`succ, chain`pred, chain`error
      ensures Flushed(chain, q, i + 1, more, before)
    {
      hide MsgList.Valid, OneNodeEach, OnlyShut, Ids;
      FlushedMore(q, i, kept);
      assert q[..i + 1] == q[..i] + [n];
      assert cmdPort.nodes[|kept|] == n;
      if n != shutMsg {
        TakeOut(n, |kept|);
        more := kept;
        assert cmdPort.nodes == more + q[i + 1..];
      } else {
        more := kept + [n];
        assert cmdPort.nodes == more + q[i + 1..];
      }
    }

    /** Where the walk stands, and the successor it saves. */
    lemma WalkStands(chain: set<Node>, q: seq<Node>, i: nat, kept: seq<Node>, before: seq<nat>)
      requires Flushed(chain, q, i, kept, before)
      ensures i <= |q| && (Cursor(cmdPort, q, i).succ == null <==> i == |q|)
      ensures i < |q| ==> Cursor(cmdPort, q, i) == q[i] && q[i].succ == Cursor(cmdPort, q, i + 1)
    {
      hide MsgList.Valid;
      Standing(cmdPort, kept, q, i);
      if i < |q| {
        Successor(cmdPort, kept, q, i);
      }
    }

    lemma FlushBegins(chain: set<Node>, q: seq<Node>)
      requires Valid() && cmdPort != null && chain == Chain() && q == cmdPort.nodes
      ensures Flushed(chain, q, 0, [], replied) && cmdPort.first.succ == Cursor(cmdPort, q, 0)
    {
      hide MsgList.Valid, OneNodeEach;
      assert q[..0] == [] && q[0..] == q && [] + q == q;
      cmdPort.Ends();
    }

    lemma FlushEnds(chain: set<Node>, q: seq<Node>, kept: seq<Node>, before: seq<nat>)
      requires Flushed(chain, q, |q|, kept, before)
      ensures Valid() && Waiting() == OnlyShut(Msgs(q)) && replied == before + Ids(Msgs(q))
      ensures Chain() <= chain
      ensures forall n | n in q :: n.msg.Req? ==> n.error == Aborted
    {
      hide MsgList.Valid, OneNodeEach, OnlyShut, Ids;
      assert q[..|q|] == q && cmdPort.nodes == kept;
    }

    /** nw_dev_flush: every queued request is replied, in queue order, and marked aborted; only the
        shutdown message stays. The walk steps over the successor saved before Remove and ReplyMsg. */
    method Flush()
      requires Valid()
      modifies `replied, Ports()`nodes, Chain()`succ, Chain()`pred, Chain()`error
      ensures Valid()
      ensures Waiting() == OnlyShut(old(Waiting())) && replied == old(replied) + Ids(old(Waiting()))
      ensures Chain() <= old(Chain())
      ensures cmdPort != null ==> forall n | n in old(cmdPort.nodes) :: n.msg.Req? ==> n.error == Aborted
    {
      var port := cmdPort;
      if port == null { return; }
      ghost var q, chain, before := port.nodes, Chain(), replied;
      FlushBegins(chain, q);
      hide Flushed, Cursor, Valid, Chain;
      ghost var kept := Walk(port.first.succ, chain, q, before);
      FlushEnds(chain, q, kept, before);
    }

    method Walk(start: Node, ghost chain: set<Node>, ghost q: seq<Node>, ghost before: seq<nat>)
      returns (ghost kept: seq<Node>)
      requires cmdPort != null && Flushed(chain, q, 0, [], before) && start == Cursor(cmdPort, q, 0)
      modifies `replied, cmdPort`nodes, chain`succ, chain`pred, chain`error
      ensures Flushed(chain, q, |q|, kept, before)
    {
      hide Flushed, Cursor;
      var n := start;
      ghost var i := 0;
      kept := [];
      WalkStands(chain, q, 0, kept, before);
      var next := n.succ;
      while next != null
        invariant Flushed(chain, q, i, kept, before) && i <= |q|
        invariant n == Cursor(cmdPort, q, i) && next == n.succ && (next == null <==> i == |q|)
        decreases |q| - i
      {
        WalkStands(chain, q, i, kept, before);
        kept := FlushOne(n, chain, q, i, kept, before);
        n := next;
        i := i + 1;
        WalkStands(chain, q, i, kept, before);
        next := n.succ;
      }
    }

    /** A request may be handed to the device while it is in no list. */
    ghost predicate Free(io: Node)
      reads `cmdPort, cmdPort
    {
      io.msg.Req? && io != shutMsg && io !in Chain() && io.msg !in Waiting()
    }

    lemma WaitingNodes(m: Msg)
      requires cmdPort != null && m !in Waiting()
      ensures forall n | n in cmdPort.nodes :: n.msg != m
    {
      forall n | n in cmdPort.nodes
        ensures n.msg != m
      {
        var i :| 0 <= i < |cmdPort.nodes| && cmdPort.nodes[i] == n;
        assert Waiting()[i] == n.msg;
      }
    }

    /** nw_dev_submit: the request goes behind the others; without a port it fails at once. */
    method Submit(io: Node)
      requires Valid() && Free(io)
      modifies `replied, io`error, io`succ, io`pred, Ports()`nodes, Chain()`succ, Chain()`pred
      ensures Valid() && Waiting() == old(Waiting()) + (if cmdPort == null then [] else [io.msg])
      ensures io.error == if cmdPort == null then StartFailed else old(io.error)
      ensures replied == old(replied) + (if cmdPort == null && !io.quick then [io.msg.id] else [])
    {
      hide MsgList.Valid;
      if cmdPort == null {
        io.error := StartFailed;
        if !io.quick { ReplyMsg(io); }
        return;
      }
      WaitingNodes(io.msg);
      MsgsAppend(cmdPort.nodes, [io]);
      cmdPort.AddTail(io);
    }

    /** Completion in place: a reply unless IOF_QUICK is set. */
    method Complete(io: Node, error: IoError)
      requires Valid() && io.msg.Req? && io !in Chain()
      modifies `replied, io`error, io`succ, io`pred
      ensures Valid() && Waiting() == old(Waiting()) && io.error == error
      ensures replied == old(replied) + (if io.quick then [] else [io.msg.id])
    {
      hide MsgList.Valid, OneNodeEach;
      io.error := error;
      if !io.quick { ReplyMsg(io); }
    }

    /** CMD_FLUSH, itself completed in place. */
    method BeginFlush(io: Node)
      requires Valid() && io.msg.Req? && io !in Chain()
      modifies `replied, io`error, io`succ, io`pred
      modifies Ports()`nodes, Chain()`succ, Chain()`pred, Chain()`error
      ensures Valid() && io.error == NoError && Waiting() == OnlyShut(old(Waiting()))
      ensures replied == old(replied) + Ids(old(Waiting())) + (if io.quick then [] else [io.msg.id])
    {
      hide Valid, Waiting, Chain;
      Flush();
      Complete(io, NoError);
    }

    /** CMD_WRITE, never completed in place. */
    method BeginWrite(io: Node)
      requires Valid() && Free(io)
      modifies `replied, io`error, io`quick, io`succ, io`pred, Ports()`nodes, Chain()`succ, Chain()`pred
      ensures Valid() && Waiting() == old(Waiting()) + (if cmdPort == null then [] else [io.msg])
      ensures io.error == (if cmdPort == null then StartFailed else old(io.error)) && !io.quick
      ensures replied == old(replied) + (if cmdPort == null then [io.msg.id] else [])
    {
      hide Valid, Waiting, Chain;
      io.quick := false;
      Submit(io);
    }

    /** __BeginIO. */
    method BeginIO(io: Node)
      requires Valid() && Free(io)
      modifies `replied, io`error, io`quick, io`succ, io`pred
      modifies Ports()`nodes, Chain()`succ, Chain()`pred, Chain()`error
      ensures Valid()
      // command by command
      ensures io.command.Write? ==>
                !io.quick && io.error == (if cmdPort == null then StartFailed else NoError)
                && Waiting() == old(Waiting()) + (if cmdPort == null then [] else [io.msg])
                && replied == old(replied) + (if cmdPort == null then [io.msg.id] else [])
      ensures io.command.Flush? ==>
                io.error == NoError && Waiting() == OnlyShut(old(Waiting())) && io.quick == old(io.quick)
                && replied == old(replied) + Ids(old(Waiting())) + (if io.quick then [] else [io.msg.id])
      ensures !io.command.Write? && !io.command.Flush? ==>
                io.error == (if io.command.Read? then NoWrite else if io.command.Other? then NoCmd else NoError)
                && Waiting() == old(Waiting()) && io.quick == old(io.quick)
                && replied == old(replied) + (if io.quick then [] else [io.msg.id])
      // in one formula
      ensures io.error == ErrorOf(io.command, cmdPort != null)
      ensures io.quick == QuickAfter(io.command, old(io.quick))
      ensures Waiting() == QueueAfter(io.command, cmdPort != null, old(Waiting()), io.msg)
      ensures replied == old(replied)
                       + RepliesOf(io.command, cmdPort != null, old(io.quick), old(Waiting()), io.msg.id)
    {
      hide Valid, Waiting, OnlyShut, Ids, Chain, ErrorOf, QuickAfter, QueueAfter, RepliesOf;
      Outcomes(io.command, cmdPort != null, io.quick, Waiting(), io.msg, replied);
      io.error := NoError;
      match io.command {
        case Write => BeginWrite(io);
        case Read => Complete(io, NoWrite);
        case Flush => BeginFlush(io);
        case Other => Complete(io, NoCmd);
        case _ => Complete(io, NoError);          // CMD_RESET, CMD_START, CMD_STOP, CMD_CLEAR
      }
    }
  }

  /** __AbortIO: a null request or a request that never went through an open is not queued. */
  method AbortIO(unit: Unit?, io: Node?) returns (r: int)
    requires unit != null ==> unit.Valid() && (io != null ==> io.msg.Req?)
    modifies (if unit == null then {} else {unit})`replied, (if unit == null then {} else unit.Ports())`nodes
    modifies (if unit == null then {} else unit.Chain())`succ, (if unit == null then {} else unit.Chain())`pred
    modifies (if io == null then {} else {io})`error
    ensures r == if unit != null && io != null && unit.cmdPort != null && io in old(unit.cmdPort.nodes) then 0 else -1
    ensures unit != null ==> unit.Valid()
    ensures r == 0 ==> unit.Waiting() == Without(old(unit.Waiting()), io.msg.id) && io.error == Aborted
                       && unit.replied == old(unit.replied) + [io.msg.id]
    ensures r != 0 && unit != null ==> unit.Waiting() == old(unit.Waiting()) && unit.replied == old(unit.replied)
  {
    if io == null || unit == null { return -1; }
    r := unit.Abort(io);
  }

  // ---- completion ----

  function ErrorOf(c: Command, port: bool): (e: IoError)
  {
    match c
    case Write => if port then NoError else StartFailed
    case Read => NoWrite
    case Other => NoCmd
    case _ => NoError
  }

  function QuickAfter(c: Command, quick: bool): (q: bool)
  {
    quick && !c.Write?
  }

  function QueueAfter(c: Command, port: bool, q: seq<Msg>, m: Msg): (r: seq<Msg>)
  {
    if c.Write? && port then q + [m] else if c.Flush? then OnlyShut(q) else q
  }

  /** The requests replied by one BeginIO, in order. */
  function RepliesOf(c: Command, port: bool, quick: bool, q: seq<Msg>, id: nat): (r: seq<nat>)
  {
    (if c.Flush? then Ids(q) else []) + (if QuickAfter(c, quick) || (c.Write? && port) then [] else [id])
  }

  lemma Outcomes(c: Command, port: bool, quick: bool, q: seq<Msg>, m: Msg, replied: seq<nat>)
    requires m.Req?
    ensures ErrorOf(c, port) == if c.Write? && !port then StartFailed
                                else if c.Read? then NoWrite else if c.Other? then NoCmd else NoError
    ensures QuickAfter(c, quick) == (quick && !c.Write?)
    ensures QueueAfter(c, port, q, m) == if c.Write? then q + (if port then [m] else [])
                                         else if c.Flush? then OnlyShut(q) else q
    ensures replied + RepliesOf(c, port, quick, q, m.id)
         == if c.Write? then replied + (if port then [] else [m.id])
            else if c.Flush? then replied + Ids(q) + (if quick then [] else [m.id])
            else replied + (if quick then [] else [m.id])
  {
    hide OnlyShut, Ids;
  }

  /** Every command is completed in exactly one way: in place with IOF_QUICK still set, by one reply,
      or, for a write, later by the task, in whose queue it then stands. */
  lemma CompletedOnce(c: Command, port: bool, quick: bool, q: seq<Msg>, id: nat)
    requires Req(id) !in q
    ensures Bit(QuickAfter(c, quick)) + Count(QueueAfter(c, port, q, Req(id)), Req(id))
            + Count(RepliesOf(c, port, quick, q, id), id) == 1
  {
    NotCounted(q, Req(id));
    CountAppend(q, [Req(id)], Req(id));
    DeviceHistory.CountOnlyShut(q, id);
    CountAppend(if c.Flush? then Ids(q) else [], if QuickAfter(c, quick) || (c.Write? && port) then [] else [id], id);
  }

  lemma {:induction false} NotCounted(q: seq<Msg>, m: Msg)
    requires m !in q
    ensures Count(q, m) == 0
  {
    if q != [] {
      assert forall x | x in q[1..] :: x in q;
      NotCounted(q[1..], m);
    }
  }
}

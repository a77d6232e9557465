/** The message list of an exec port as it stands in memory: nodes linked both ways between two
    sentinels, and the list operations the device relies on. */
module ExecList {
  import opened DeviceTask
  import opened Counting

  datatype IoError = NoError | StartFailed | Aborted | NoWrite | NoCmd

  datatype Command = Write | Read | Flush | Reset | Start | Stop | Clear | Other

  /** A message node and, for a request, the IORequest that starts with it. */
  class Node {
    const msg: Msg
    var succ: Node?
    var pred: Node?
    var command: Command
    var error: IoError
    var quick: bool             // IOF_QUICK

    constructor (msg: Msg)
      ensures this.msg == msg && succ == null && pred == null
    {
      this.msg := msg;
      succ, pred := null, null;
    }
  }

  function Msgs(ns: seq<Node>): (ms: seq<Msg>)
    ensures |ms| == |ns| && forall i | 0 <= i < |ns| :: ms[i] == ns[i].msg
  {
    seq(|ns|, i requires 0 <= i < |ns| => ns[i].msg)
  }

  ghost predicate LinkAt(s: seq<Node>, i: int)
    requires 0 <= i && i + 1 < |s|
    reads s`succ, s`pred
  {
    s[i].succ == s[i + 1] && s[i + 1].pred == s[i]
  }

  ghost predicate Linked(s: seq<Node>)
    reads s`succ, s`pred
  {
    forall i | 0 <= i && i + 1 < |s| :: LinkAt(s, i)
  }

  class MsgList {
    const first: Node            // lh_Head seen as a node
    const last: Node             // lh_Tail seen as a node
    ghost var nodes: seq<Node>

    ghost function All(): (s: seq<Node>)
      reads `nodes
    {
      [first] + nodes + [last]
    }

    ghost predicate Valid()
      reads `nodes, first`succ, first`pred, last`succ, last`pred, nodes`succ, nodes`pred
    {
      Distinct(All()) && Linked(All()) && first.pred == null && last.succ == null
    }

    /** NewList. */
    constructor ()
      ensures Valid() && nodes == [] && fresh(first) && fresh(last)
    {
      first := new Node(Shut);
      last := new Node(Shut);
      nodes := [];
      new;
      first.succ := last;
      last.pred := first;
      assert All() == [first, last];
    }

    /** The node at a place of the list has its neighbours in the list. */
    lemma Neighbours(k: nat)
      requires Valid() && k < |nodes|
      ensures nodes[k].succ == All()[k + 2] && nodes[k].pred == All()[k]
      ensures nodes[k].succ != null && nodes[k].pred != null
      ensures nodes[k].succ != first && nodes[k].succ != nodes[k]
      ensures nodes[k].pred != last && nodes[k].pred != nodes[k]
      ensures nodes[k] != first && nodes[k] != last && first != last
    {
      assert LinkAt(All(), k) && LinkAt(All(), k + 1);
      assert All()[k + 1] == nodes[k];
      assert All()[0] == first && All()[|nodes| + 1] == last;
    }

    lemma Ends()
      requires Valid()
      ensures first.succ == All()[1] && last.pred == All()[|nodes|] && first != last
      ensures first.succ != first && last.pred != last
    {
      assert LinkAt(All(), 0) && LinkAt(All(), |nodes|);
      assert All()[0] == first && All()[|nodes| + 1] == last;
    }

    /** A walk by ln_Succ meets a null pointer exactly at the tail sentinel. */
    lemma AtEnd(k: nat)
      requires Valid() && k <= |nodes|
      ensures All()[k + 1].succ == null <==> k == |nodes|
    {
      if k < |nodes| {
        Neighbours(k);
      }
    }

    /** AddTail, as PutMsg does it. */
    method AddTail(n: Node)
      requires Valid() && n !in All()
      modifies `nodes, n`succ, n`pred, first`succ, last`pred, nodes`succ
      ensures Valid() && nodes == old(nodes) + [n]
    {
      Ends();
      ghost var s := All();
      var p := last.pred;
      n.succ := last;
      n.pred := p;
      last.pred := n;
      p.succ := n;
      nodes := nodes + [n];
      var k := |s| - 1;
      assert All() == s[..k] + [n] + s[k..];
      forall i | 0 <= i && i + 1 < |All()|
        ensures LinkAt(All(), i)
      {
        if i < k - 1 {
          assert old(LinkAt(s, i));
        }
      }
    }

    /** Remove: unlinks the node and leaves its own pointers as they are. */
    method Remove(n: Node, ghost k: nat)
      requires Valid() && k < |nodes| && nodes[k] == n
      modifies `nodes, first`succ, last`pred, nodes`succ, nodes`pred
      ensures Valid() && nodes == old(nodes[..k] + nodes[k + 1..])
      ensures n !in All() && n.succ == old(n.succ)
    {
      ghost var s := All();
      Neighbours(k);
      assert s[k + 1] == n;
      var p, q := n.pred, n.succ;
      p.succ := q;
      q.pred := p;
      nodes := nodes[..k] + nodes[k + 1..];
      assert All() == s[..k + 1] + s[k + 2..];
      forall i | 0 <= i && i + 1 < |All()|
        ensures LinkAt(All(), i)
      {
        if i < k {
          assert old(LinkAt(s, i));
        } else if i > k {
          assert old(LinkAt(s, i + 1));
        }
      }
    }

    /** RemHead, as GetMsg does it: the oldest message, or none. */
    method RemHead() returns (n: Node?)
      requires Valid()
      modifies `nodes, first`succ, last`pred, nodes`succ, nodes`pred
      ensures Valid()
      ensures old(nodes) == [] ==> n == null && nodes == []
      ensures old(nodes) != [] ==> n == old(nodes)[0] && nodes == old(nodes)[1..] && n !in All()
    {
      Ends();
      n := first.succ;
      if nodes != [] {
        Neighbours(0);
      }
      if n.succ == null { return null; }
      Remove(n, 0);
    }
  }
}

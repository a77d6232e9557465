/** The connection to the speech server: what a socket may do, how the peer splits requests
    (tests/mock_wyoming_server.py:72-92), and sending everything over short writes. */
module Wire {
  import opened Bytes
  import opened Counting

  // ---- complete lines of a byte stream ----

  /** The complete lines of s, without their line feeds. */
  function Lines(s: seq<byte>): (ls: seq<seq<byte>>)
  {
    if s == [] then []
    else
      var init, last := s[..|s| - 1], s[|s| - 1];
      if last == LF then Lines(init) + [Partial(init)] else Lines(init)
  }

  /** What follows the last line feed of s. */
  function Partial(s: seq<byte>): (p: seq<byte>)
  {
    if s == [] || s[|s| - 1] == LF then [] else Partial(s[..|s| - 1]) + [s[|s| - 1]]
  }

  lemma {:induction false} NoLines(s: seq<byte>)
    requires LF !in s
    ensures Lines(s) == [] && Partial(s) == s
  {
    if s != [] {
      NoLines(s[..|s| - 1]);
    }
  }

  lemma {:induction false} PartialIsPartial(s: seq<byte>)
    ensures LF !in Partial(s)
  {
    if s != [] {
      PartialIsPartial(s[..|s| - 1]);
    }
  }

  lemma LinesSnoc(s: seq<byte>, c: byte)
    ensures Lines(s + [c]) == if c == LF then Lines(s) + [Partial(s)] else Lines(s)
    ensures Partial(s + [c]) == if c == LF then [] else Partial(s) + [c]
  {
    assert (s + [c])[..|s|] == s;
  }

  /** Lines can be split off piece by piece, keeping the unfinished one. */
  lemma {:induction false} LinesAppend(a: seq<byte>, b: seq<byte>)
    ensures Lines(a + b) == Lines(a) + Lines(Partial(a) + b)
    ensures Partial(a + b) == Partial(Partial(a) + b)
    decreases |b|
  {
    hide Lines, Partial;
    if b == [] {
      assert a + b == a && Partial(a) + b == Partial(a);
      PartialIsPartial(a);
      NoLines(Partial(a));
    } else {
      var init, c := b[..|b| - 1], b[|b| - 1];
      LinesAppend(a, init);
      assert a + b == a + init + [c] && Partial(a) + b == Partial(a) + init + [c];
      LinesSnoc(a + init, c);
      LinesSnoc(Partial(a) + init, c);
    }
  }

  lemma LineFirst(a: seq<byte>, b: seq<byte>)
    requires LF !in a
    ensures Lines(a + [LF] + b) == [a] + Lines(b)
    ensures Partial(a + [LF] + b) == Partial(b)
  {
    NoLines(a);
    assert (a + [LF])[..|a|] == a;
    assert Lines(a + [LF]) == [a] && Partial(a + [LF]) == [];
    LinesAppend(a + [LF], b);
    assert [] + b == b;
  }

  /** Whole lines put back on the wire. */
  function Join(ls: seq<seq<byte>>): (s: seq<byte>)
  {
    if ls == [] then [] else Join(ls[..|ls| - 1]) + (ls[|ls| - 1] + [LF])
  }

  /** A line sent behind complete lines is one more complete line. */
  lemma OneMoreLine(s: seq<byte>, line: seq<byte>)
    requires Partial(s) == [] && LF !in line
    ensures Lines(s + (line + [LF])) == Lines(s) + [line] && Partial(s + (line + [LF])) == []
  {
    LinesAppend(s, line + [LF]);
    assert [] + (line + [LF]) == line + [LF] + [];
    LineFirst(line, []);
  }

  /** Splitting undoes joining. */
  lemma {:induction false} JoinSplits(ls: seq<seq<byte>>)
    requires forall l | l in ls :: LF !in l
    ensures Lines(Join(ls)) == ls && Partial(Join(ls)) == []
  {
    if ls != [] {
      var init, last := ls[..|ls| - 1], ls[|ls| - 1];
      hide Lines, Partial;
      assert ls == init + [last];
      JoinSplits(init);
      assert LF !in last;
      OneMoreLine(Join(init), last);
    }
  }

  lemma JoinSplitsBehind(s: seq<byte>, ls: seq<seq<byte>>)
    requires Partial(s) == [] && forall l | l in ls :: LF !in l
    ensures Lines(s + Join(ls)) == Lines(s) + ls && Partial(s + Join(ls)) == []
  {
    JoinSplits(ls);
    LinesAppend(s, Join(ls));
    assert [] + Join(ls) == Join(ls);
  }

  // ---- the socket ----

  /** What recv reports once no byte is left: end of file, or an error (also a time-out). */
  datatype Ending = Eof | Failed

  /** The answer of the far side to the last line of a history of request lines. */
  type Server = seq<seq<byte>> -> seq<byte>

  /** Everything the server says in answer to these lines, in order. */
  function Answers(server: Server, lines: seq<seq<byte>>): (a: seq<byte>)
  {
    if lines == [] then [] else Answers(server, lines[..|lines| - 1]) + server(lines)
  }

  lemma {:induction false} AnswersGrow(server: Server, lines: seq<seq<byte>>, more: seq<seq<byte>>)
    ensures Answers(server, lines) <= Answers(server, lines + more)
    decreases |more|
  {
    if more == [] {
      assert lines + more == lines;
    } else {
      var all := lines + more;
      assert all[..|all| - 1] == lines + more[..|more| - 1];
      AnswersGrow(server, lines, more[..|more| - 1]);
    }
  }

  lemma CutGrows(a: seq<byte>, b: seq<byte>, n: nat)
    requires a <= b && n <= |a|
    ensures a[n..] <= b[n..]
  {
  }

  /** What a link of that limit has carried, or will carry, in answer to these request bytes. */
  function Carried(server: Server, limit: nat, wire: seq<byte>): (s: seq<byte>)
  {
    var all := Answers(server, Lines(wire));
    all[..Min(limit, |all|)]
  }

  /** How the link ends behind that: a server with nothing to say runs into the receive time-out. */
  function EndBehind(server: Server, limit: nat, ending: Ending, wire: seq<byte>): (e: Ending)
  {
    if |Carried(server, limit, wire)| == limit then ending else Failed
  }

  /** A link that has carried its last byte ends the way it ends; one with nothing more to carry times out. */
  lemma LinkEnds(server: Server, limit: nat, ending: Ending, wire: seq<byte>)
    ensures |Answers(server, Lines(wire))| >= limit ==> EndBehind(server, limit, ending, wire) == ending
    ensures |Answers(server, Lines(wire))| < limit ==> EndBehind(server, limit, ending, wire) == Failed
  {
    hide Answers, Lines;
  }

  /** A connected socket. The link carries `limit` bytes from the server and then ends the way `ending` says; the
      n-th send is taken exactly if `accepts` says so; how many bytes one call moves is up to the network. */
  class Socket {
    const server: Server
    const limit: nat
    const ending: Ending
    const accepts: nat -> bool
    var sent: seq<byte>
    var taken: nat
    var sends: nat               // calls of send so far

    constructor (server: Server, limit: nat, ending: Ending, accepts: nat -> bool)
      ensures Valid() && sent == [] && taken == 0 && sends == 0
      ensures this.server == server && this.limit == limit && this.ending == ending && this.accepts == accepts
      ensures Pending() == []
    {
      this.server, this.limit, this.ending, this.accepts := server, limit, ending, accepts;
      sent, taken, sends := [], 0, 0;
    }

    /** How many sends were refused. */
    ghost function Refused(): (n: nat)
      reads `sends
    {
      Refusals(accepts, sends)
    }

    /** What the link will carry in answer to the lines sent so far. */
    function Incoming(): (s: seq<byte>)
      reads `sent
    {
      Carried(server, limit, sent)
    }

    ghost predicate Valid()
      reads `sent, `taken
    {
      taken <= |Incoming()|
    }

    /** The bytes recv has not handed out yet. */
    function Pending(): (s: seq<byte>)
      requires Valid()
      reads `sent, `taken
    {
      Incoming()[taken..]
    }

    /** How recv ends when nothing is pending. */
    function End(): (e: Ending)
      reads `sent
    {
      EndBehind(server, limit, ending, sent)
    }

    /** send: any short write or an error. */
    method Send(p: seq<byte>) returns (n: int)
      requires Valid() && p != []
      modifies this`sent, this`sends
      ensures Valid() && n <= |p|
      ensures n > 0 <==> accepts(old(sends))
      ensures Refused() == old(Refused()) + if n > 0 then 0 else 1
      ensures sent == old(sent) + if n > 0 then p[..n] else []
      ensures old(Pending()) <= Pending()
    {
      var taking := accepts(sends);
      sends := sends + 1;
      if !taking {
        n :| n <= 0;
      } else {
        n :| 1 <= n <= |p|;
        ghost var before := Incoming();
        LinesAppend(sent, p[..n]);
        AnswersGrow(server, Lines(sent), Lines(Partial(sent) + p[..n]));
        sent := sent + p[..n];
        CutGrows(before, Incoming(), taken);
      }
    }

    /** recv: any non-empty piece of what is pending that fits, or the way the link ends. */
    method Recv(buf: array<byte>) returns (n: int)
      requires Valid() && buf.Length > 0
      modifies this`taken, buf
      ensures Valid() && End() == old(End())
      ensures old(Pending()) != [] ==>
                1 <= n <= Min(buf.Length, |old(Pending())|)
                && buf[..n] == old(Pending())[..n] && Pending() == old(Pending())[n..]
      ensures old(Pending()) == [] ==>
                Pending() == [] && buf[..] == old(buf[..]) && (if End() == Eof then n == 0 else n < 0)
    {
      var p := Pending();
      if p == [] {
        return if End() == Eof then 0 else -1;
      }
      var most := Min(buf.Length, |p|);
      var k: nat :| 1 <= k <= most;
      forall i | 0 <= i < k {
        buf[i] := p[i];
      }
      assert buf[..k] == p[..k];
      taken := taken + k;
      n := k;
    }
  }

  lemma Further(s: seq<byte>, p: nat, len: nat, n: nat)
    requires p + n <= len <= |s|
    ensures s[..p] + s[p..len][..n] == s[..p + n]
  {
    assert s[p..len][..n] == s[p..p + n];
    assert s[..p + n] == s[..p] + s[p..p + n];
  }

  /** write_all: everything goes out, or -1 after a proper prefix. */
  method WriteAll(sock: Socket, buf: array<byte>, len: nat) returns (r: int)
    requires sock.Valid() && len <= buf.Length
    modifies sock`sent, sock`sends
    ensures sock.Valid() && old(sock.Pending()) <= sock.Pending()
    ensures r == 0 || r == -1
    // it fails exactly if the link refuses a send
    ensures r == 0 <==> sock.Refused() == old(sock.Refused())
    ensures sock.Refused() >= old(sock.Refused())
    ensures r == 0 ==> sock.sent == old(sock.sent) + buf[..len]
    ensures r == -1 ==> exists k: nat :: k < len && sock.sent == old(sock.sent) + buf[..k]
  {
    var p := 0;
    while p < len
      invariant p <= len && sock.Valid() && sock.Refused() == old(sock.Refused())
      invariant sock.sent == old(sock.sent) + buf[..p]
      invariant old(sock.Pending()) <= sock.Pending()
    {
      var n := sock.Send(buf[p..len]);
      if n <= 0 {
        assert p < len && sock.sent == old(sock.sent) + buf[..p];
        return -1;
      }
      Further(buf[..], p, len, n);
      assert buf[..][..p] == buf[..p] && buf[..][p..len] == buf[p..len] && buf[..][..p + n] == buf[..p + n];
      p := p + n;
    }
    return 0;
  }

  // ---- the line-splitting peer ----

  /** The server's end of a connection, over what the client will have sent when it closes. */
  class Inbound {
    var left: seq<byte>

    constructor (s: seq<byte>)
      ensures left == s
    {
      left := s;
    }

    method Recv(max: nat) returns (got: seq<byte>)
      requires max > 0
      modifies this
      ensures got + left == old(left) && |got| <= max
      ensures got == [] <==> old(left) == []
    {
      if left == [] { got := []; return; }
      var most := Min(max, |left|);
      var k: nat :| 1 <= k <= most;
      got, left := left[..k], left[k..];
    }
  }

  /** Position of the first line feed. */
  method Find(buf: seq<byte>) returns (k: nat)
    requires LF in buf
    ensures k < |buf| && buf[k] == LF && LF !in buf[..k]
  {
    k := 0;
    while buf[k] != LF
      invariant k < |buf| && LF !in buf[..k]
      decreases |buf| - k
    {
      assert LF in buf[k + 1..];
      k := k + 1;
    }
  }

  /** serve_connection: the requests it answers are the complete lines of what was sent,
      however the bytes arrive. */
  method ServeConnection(conn: Inbound) returns (requests: seq<seq<byte>>)
    modifies conn
    ensures requests == Lines(old(conn.left))
  {
    var buf: seq<byte> := [];
    requests := [];
    assert buf + conn.left == conn.left;
    while true
      invariant Lines(old(conn.left)) == requests + Lines(buf + conn.left)
      decreases |buf| + |conn.left|
    {
      ghost var stream := buf + conn.left;
      while LF !in buf
        invariant buf + conn.left == stream
        decreases |conn.left|
      {
        var got := conn.Recv(4096);
        if got == [] {
          assert stream == buf;
          NoLines(buf);
          return;
        }
        buf := buf + got;
      }
      var k := Find(buf);
      var line, rest := buf[..k], buf[k + 1..];
      assert stream == line + [LF] + (rest + conn.left);
      LineFirst(line, rest + conn.left);
      requests, buf := requests + [line], rest;
    }
  }
}

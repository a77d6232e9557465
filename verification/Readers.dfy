/** The buffered stream reader: a 16 KB cursor buffer over arbitrary recv pieces behaves like a
    plain byte stream (src/nw_engine.c:662-709, 1120-1127). */
module Readers {
  import opened Bytes
  import opened Wire
  import opened Response

  const RBUFSZ := 16384

  method Store(buf: array<byte>, i: nat, c: byte)
    requires i < buf.Length
    modifies buf
    ensures buf[..] == old(buf[..])[i := c]
  {
    buf[i] := c;
  }

  class Reader {
    const rbuf: array<byte>
    var sock: Socket?
    var rpos: nat
    var rlen: nat

    constructor ()
      ensures Valid() && sock == null && Unread() == [] && fresh(rbuf) && rbuf.Length == 16 * 1024
    {
      rbuf := new byte[RBUFSZ];
      sock, rpos, rlen := null, 0, 0;
    }

    /** session_disconnect: the socket is closed and the buffer forgotten. */
    method Disconnect()
      requires Valid()
      modifies this
      ensures sock == null && Valid() && Unread() == []
    {
      sock, rpos, rlen := null, 0, 0;
    }

    /** A new connection. */
    method Attach(s: Socket)
      requires Valid() && s.Valid() && rpos == rlen
      modifies this`sock
      ensures Valid() && sock == s && Unread() == s.Pending()
    {
      sock := s;
      assert rbuf[rpos..rlen] == [];
    }

    /** The reset at the start of an utterance: what was buffered is dropped. */
    method DropBuffered()
      requires Valid()
      modifies this`rpos, this`rlen
      ensures Valid() && Unread() == if sock == null then [] else sock.Pending()
    {
      rpos, rlen := 0, 0;
      assert rbuf[0..0] == [];
    }

    ghost predicate Valid()
      reads this, rbuf, sock
    {
      && rbuf.Length == RBUFSZ && rpos <= rlen <= RBUFSZ
      && (sock != null ==> sock.Valid()) && (sock == null ==> rpos == rlen)
    }

    /** The byte stream in front of the reader: what is buffered, then what the link still carries. */
    ghost function Unread(): (s: seq<byte>)
      requires Valid()
      reads this, rbuf, sock
    {
      rbuf[rpos..rlen] + if sock == null then [] else sock.Pending()
    }

    /** buf_fill: at least one byte is buffered, or the stream has ended. */
    method BufFill() returns (n: int)
      requires Valid() && sock != null
      modifies this`rpos, this`rlen, rbuf, sock`taken
      ensures Valid() && Unread() == old(Unread()) && sock.End() == old(sock.End())
      ensures old(Unread()) != [] ==> n == rlen - rpos > 0
      ensures old(Unread()) == [] ==> if sock.End() == Eof then n == 0 else n < 0
    {
      hide Socket.Pending, Socket.End, Socket.Valid;
      if rpos < rlen { return rlen - rpos; }
      ghost var p := sock.Pending();
      assert Unread() == p;
      rpos := 0;
      n := sock.Recv(rbuf);
      if n <= 0 {
        rlen := 0;
        return;
      }
      rlen := n;
      assert rbuf[0..rlen] == p[..n];
    }

    /** One buffered byte is taken. */
    method NextByte() returns (c: byte)
      requires Valid() && rpos < rlen
      modifies this`rpos
      ensures Valid() && old(Unread()) != [] && c == old(Unread())[0] && Unread() == old(Unread())[1..]
    {
      assert rbuf[rpos..rlen] == [rbuf[rpos]] + rbuf[rpos + 1..rlen];
      c := rbuf[rpos];
      rpos := rpos + 1;
    }

    /** The next piece of at most `want` bytes, as recv happened to cut it; the cursor stays. */
    method NextPiece(want: nat) returns (take: int)
      requires Valid() && sock != null && want > 0
      modifies this`rpos, this`rlen, rbuf, sock`taken
      ensures Valid() && Unread() == old(Unread()) && sock.End() == old(sock.End())
      ensures old(Unread()) == [] <==> take <= 0
      ensures take > 0 ==> take <= want && rpos + take <= rlen <= rbuf.Length && take <= |Unread()|
                           && rbuf[rpos..rpos + take] == Unread()[..take]
    {
      hide Socket.Pending, Socket.End, Socket.Valid;
      var avail := BufFill();
      if avail <= 0 { return avail; }
      take := if avail < want then avail else want;
      assert rbuf[rpos..rlen] == rbuf[rpos..rpos + take] + rbuf[rpos + take..rlen];
    }

    /** The cursor moves over buffered bytes. */
    method Skip(k: nat)
      requires Valid() && rpos + k <= rlen
      modifies this`rpos
      ensures Valid() && k <= |old(Unread())| && Unread() == old(Unread())[k..] && rpos == old(rpos) + k
    {
      assert rbuf[rpos..rlen] == rbuf[rpos..rpos + k] + rbuf[rpos + k..rlen];
      rpos := rpos + k;
    }

    /** read_line refines LineFrom, however the bytes arrive. */
    method ReadLine(buf: array<byte>) returns (n: int)
      requires Valid() && sock != null && buf != rbuf && buf.Length > 0
      modifies this`rpos, this`rlen, rbuf, sock`taken, buf
      ensures Valid() && sock.End() == old(sock.End())
      ensures LineFrom(old(Unread()), sock.End(), old(buf[..]), 0) == LineRead(n, buf[..], Unread())
    {
      hide Valid, Unread, Socket.End, Socket.Pending, Socket.Valid;
      ghost var s0, e, b0 := Unread(), sock.End(), buf[..];
      var i := 0;
      while i + 1 < buf.Length
        invariant Valid() && sock.End() == e && i < buf.Length
        invariant LineFrom(s0, e, b0, 0) == LineFrom(Unread(), e, buf[..], i)
        decreases buf.Length - i
      {
        var avail := BufFill();
        if avail == 0 { return i; }
        if avail < 0 { return -1; }
        var c := NextByte();
        if c == LF { break; }
        Store(buf, i, c);
        i := i + 1;
      }
      Store(buf, i, NUL);
      return i;
    }

    /** CopyMem of buffered bytes. */
    method CopyMem(buf: array<byte>, o: nat, take: nat)
      requires Valid() && buf != rbuf && o + take <= buf.Length && rpos + take <= rlen
      modifies buf
      ensures buf[..o + take] == old(buf[..o]) + rbuf[rpos..rpos + take]
    {
      forall i | 0 <= i < take {
        buf[o + i] := rbuf[rpos + i];
      }
    }

    /** read_block: exactly len bytes, or -1 with the stream exhausted. */
    method ReadBlock(buf: array<byte>, len: nat) returns (r: int)
      requires Valid() && sock != null && buf != rbuf && len <= buf.Length
      modifies this`rpos, this`rlen, rbuf, sock`taken, buf
      ensures Valid() && sock.End() == old(sock.End())
      ensures len <= |old(Unread())| ==>
                r == 0 && buf[..len] == old(Unread())[..len] && Unread() == old(Unread())[len..]
      ensures len > |old(Unread())| ==> r == -1 && Unread() == []
    {
      hide Valid, Unread, Socket.End;
      ghost var s0 := Unread();
      var o: nat, left: nat := 0, len;
      while left > 0
        invariant o + left == len && o <= |s0|
        invariant Valid() && sock.End() == old(sock.End())
        invariant buf[..o] == s0[..o] && Unread() == s0[o..]
      {
        var take := NextPiece(left);
        if take <= 0 { return -1; }
        CopyMem(buf, o, take);
        Skip(take);
        o := o + take;
        left := left - take;
      }
      return 0;
    }

    /** The loop that discards a data block too long for its buffer. */
    method SkipBlock(len: nat) returns (r: int)
      requires Valid() && sock != null
      modifies this`rpos, this`rlen, rbuf, sock`taken
      ensures Valid() && sock.End() == old(sock.End())
      ensures len <= |old(Unread())| ==> r == 0 && Unread() == old(Unread())[len..]
      ensures len > |old(Unread())| ==> r == -1 && Unread() == []
    {
      hide Valid, Unread, Socket.End;
      ghost var s0 := Unread();
      var left: nat := len;
      while left > 0
        invariant left <= len && len - left <= |s0|
        invariant Valid() && sock.End() == old(sock.End())
        invariant Unread() == s0[len - left..]
      {
        var t := NextPiece(left);
        if t <= 0 { return -1; }
        Skip(t);
        left := left - t;
      }
      return 0;
    }
  }
}

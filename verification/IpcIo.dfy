/** The partial-transfer loops over `read` and `write`, and the client's packet reader built on them. */
module IpcIo {
  import opened Wire
  import opened Deframe
  import opened Sequences

  const READ_FAILED: int := -0x09ae5c0e
  const WRITE_FAILED: int := -0x11b0ae4f

  const INT_MOD: nat := 0x1_0000_0000

  /** A byte count returned as a C `int`. */
  function ToInt(n: nat): (r: int)
    ensures -0x8000_0000 <= r < 0x8000_0000
  {
    var m := n % INT_MOD;
    if m < 0x8000_0000 then m else m - INT_MOD
  }

  lemma ToIntSmall(left: nat)
    ensures left < INT_MOD ==> (ToInt(left) == 0 <==> left == 0)
  {
  }

  /** How a transfer ended: bytes left, and whether a call failed or found the other side closed. */
  datatype Transfer = Transfer(left: nat, failed: bool, closed: bool)

  /** What a transfer loop returns. */
  function Returned(o: Transfer, failure: int): int {
    if o.failed then failure else ToInt(o.left)
  }

  /** It stopped because nothing was to be had for the moment, as only happens on a non-blocking descriptor. */
  predicate Dry(o: Transfer) {
    !o.failed && !o.closed && o.left > 0
  }

  // ---------------------------------------------------------------- writing

  datatype WriteEvent = Wrote(n: nat) | WriteIntr | WriteFull | WriteFailed

  /** Something written to: what has got through, and how the next writes will go. */
  class Sink {
    var out: seq<byte>
    var events: seq<WriteEvent>

    /** `write`: some of the bytes, perhaps none, or an error; as many as it can once nothing else is in store. */
    method Write(data: seq<byte>) returns (e: WriteEvent)
      modifies this
      ensures e.Wrote? ==> e.n <= |data| && out == old(out) + data[..e.n]
      ensures !e.Wrote? ==> out == old(out)
      ensures e == Limited(if old(events) == [] then Wrote(|data|) else old(events)[0], |data|)
      ensures events == if old(events) == [] then [] else old(events)[1..]
    {
      e := Limited(if events == [] then Wrote(|data|) else events[0], |data|);
      events := if events == [] then [] else events[1..];
      if e.Wrote? {
        out := out + data[..e.n];
      }
    }
  }

  /**
   One call moves no more than is wanted, and no more than the system moves at once, so
   that its `int` result fits.
   */
  function Limited(e: WriteEvent, want: nat): WriteEvent {
    if e.Wrote? then Wrote(AtMost(e.n, want)) else e
  }

  /** How writing `left` bytes goes on. */
  function WriteRun(left: nat, es: seq<WriteEvent>): (o: Transfer)
    ensures o.left <= left
    decreases |es|
  {
    if left == 0 || es == [] then Transfer(0, false, false)
    else
      match Limited(es[0], left)
      case Wrote(n) => if n == 0 then Transfer(left, false, false) else WriteRun(left - n, es[1..])
      case WriteFailed => Transfer(left, true, false)
      case _ => WriteRun(left, es[1..])
  }

  /** One write of the loop, and how the rest goes on from there. */
  method WriteMore(fd: Sink, data: seq<byte>) returns (e: WriteEvent)
    requires data != []
    modifies fd
    ensures fd.out == old(fd.out) + if e.Wrote? && e.n <= |data| then data[..e.n] else []
    ensures e.Wrote? ==> e.n <= |data|
    ensures e != Wrote(0) && !e.WriteFailed? ==> |data| - Count(e) + |fd.events| < |data| + |old(fd.events)|
    ensures WriteRun(|data|, old(fd.events)) ==
            match e
            case WriteFailed => Transfer(|data|, true, false)
            case _ => if e == Wrote(0) then Transfer(|data|, false, false) else WriteRun(|data| - Count(e), fd.events)
  {
    e := fd.Write(data);
    assert data[..0] == [];
  }

  function Count(e: WriteEvent): nat {
    if e.Wrote? then e.n else 0
  }

  /**
   Write until all bytes are through, a write takes nothing, or it fails; EINTR and
   EAGAIN are tried again. `ttl` of the bytes, in order and no others, got through.
   */
  method IoWrite(fd: Sink, buf: seq<byte>) returns (r: int, ghost ttl: nat)
    modifies fd
    ensures ttl == |buf| - WriteRun(|buf|, old(fd.events)).left && fd.out == old(fd.out) + buf[..ttl]
    ensures r == Returned(WriteRun(|buf|, old(fd.events)), WRITE_FAILED)
    ensures |buf| < INT_MOD ==> (r == 0 <==> ttl == |buf|)
  {
    ttl := 0;
    var done := 0;
    ghost var goal := WriteRun(|buf|, fd.events);
    assert buf[..0] == [];
    while done < |buf|
      invariant 0 <= done == ttl <= |buf| && fd.out == old(fd.out) + buf[..ttl]
      invariant WriteRun(|buf| - done, fd.events) == goal
      decreases |buf| - done + |fd.events|
    {
      var e := WriteMore(fd, buf[done..]);
      match e {
        case Wrote(n) =>
          if n == 0 {
            break;
          }
          WroteOn(old(fd.out), buf, done, n);
          done := done + n;
          ttl := done;
        case WriteIntr =>
        case WriteFull =>
        case WriteFailed =>
          return WRITE_FAILED, ttl;
      }
    }
    r := ToInt(|buf| - done);
    ToIntSmall(|buf| - done);
  }

  lemma WroteOn(out: seq<byte>, buf: seq<byte>, done: nat, n: nat)
    requires done + n <= |buf|
    ensures out + buf[..done] + buf[done..][..n] == out + buf[..done + n]
  {
    assert buf[..done] + buf[done..][..n] == buf[..done + n];
  }

  lemma WriteReturn(len: nat, es: seq<WriteEvent>)
    requires len < INT_MOD
    ensures Returned(WriteRun(len, es), WRITE_FAILED) == 0 <==> WriteRun(len, es).left == 0
  {
  }

  // ---------------------------------------------------------------- reading

  /** How reading `left` bytes goes on when `avail` are still to come. */
  function ReadRun(left: nat, avail: nat, es: seq<Event>): (o: Transfer)
    ensures o.left <= left && (o.failed || o.closed ==> o.left > 0)
    decreases |es|
  {
    if left == 0 || es == [] then Transfer(left, false, false)
    else
      match es[0]
      case Bytes(n) =>
        var k := AtMost(AtMost(n, left), avail);
        if k == 0 then Transfer(left, false, false) else ReadRun(left - k, avail - k, es[1..])
      case Interrupted => ReadRun(left, avail, es[1..])
      case NoData => Transfer(left, false, false)
      case Eof => Transfer(left, false, true)
      case Failed => Transfer(left, true, false)
  }

  /** The events that are left after it. */
  function ReadLeft(left: nat, avail: nat, es: seq<Event>): (r: seq<Event>)
    ensures |r| <= |es|
    decreases |es|
  {
    if left == 0 || es == [] then es
    else
      match es[0]
      case Bytes(n) =>
        var k := AtMost(AtMost(n, left), avail);
        if k == 0 then es[1..] else ReadLeft(left - k, avail - k, es[1..])
      case Interrupted => ReadLeft(left, avail, es[1..])
      case _ => es[1..]
  }

  /** One read of the loop, and how the rest goes on from there. */
  method ReadMore(fd: Socket, left: nat) returns (res: ReadResult)
    requires left > 0
    modifies fd
    ensures res.Got? ==> |res.data| <= left && old(fd.incoming) == res.data + fd.incoming
    ensures res.Got? ==> fd.taken == old(fd.taken) + res.data
    ensures !res.Got? ==> fd.incoming == old(fd.incoming) && fd.taken == old(fd.taken)
    ensures res.Got? || res.Intr? ==> |fd.events| < |old(fd.events)|
    ensures ReadRun(left, |old(fd.incoming)|, old(fd.events)) ==
            match res
            case Got(data) => ReadRun(left - |data|, |fd.incoming|, fd.events)
            case Intr => ReadRun(left, |fd.incoming|, fd.events)
            case Again => Transfer(left, false, false)
            case Closed => Transfer(left, false, true)
            case Error => Transfer(left, true, false)
    ensures ReadLeft(left, |old(fd.incoming)|, old(fd.events)) ==
            match res
            case Got(data) => ReadLeft(left - |data|, |fd.incoming|, fd.events)
            case Intr => ReadLeft(left, |fd.incoming|, fd.events)
            case _ => fd.events
  {
    res := fd.Read(left);
  }

  /** The loop: it goes on until `len` bytes are there, the other side closes, nothing is to be had or reading fails. */
  method ReadLoop(fd: Socket, len: nat) returns (data: seq<byte>, failed: bool, closed: bool, ghost dry: bool)
    modifies fd
    ensures |data| <= len && fd.taken == old(fd.taken) + data && old(fd.incoming) == data + fd.incoming
    ensures ReadRun(len, |old(fd.incoming)|, old(fd.events)) == Transfer(len - |data|, failed, closed)
    ensures ReadLeft(len, |old(fd.incoming)|, old(fd.events)) == fd.events
    ensures dry <==> !failed && !closed && |data| < len
  {
    data, failed, closed, dry := [], false, false, false;
    ghost var goal := ReadRun(len, |fd.incoming|, fd.events);
    ghost var left := ReadLeft(len, |fd.incoming|, fd.events);
    while |data| < len
      invariant |data| <= len && fd.taken == old(fd.taken) + data && old(fd.incoming) == data + fd.incoming
      invariant ReadRun(len - |data|, |fd.incoming|, fd.events) == goal
      invariant ReadLeft(len - |data|, |fd.incoming|, fd.events) == left
      invariant !dry && !failed && !closed
      decreases |fd.events|
    {
      var res := ReadMore(fd, len - |data|);
      match res {
        case Got(more) =>
          Regroup(old(fd.taken), data, more);
          Regroup(data, more, fd.incoming);
          data := data + more;
        case Closed =>
          closed := true;
          return;
        case Intr =>
        case Again =>
          dry := true;
          return;
        case Error =>
          failed := true;
          return;
      }
    }
  }

  /**
   Reads `len` bytes and tells how many are missing. `dry` says that a read found
   nothing, as only a non-blocking one does.
   */
  method IoRead(fd: Socket, len: nat) returns (r: int, data: seq<byte>, closed: bool, ghost dry: bool)
    modifies fd
    ensures |data| <= len && fd.taken == old(fd.taken) + data && old(fd.incoming) == data + fd.incoming
    ensures var o := ReadRun(len, |old(fd.incoming)|, old(fd.events));
            |data| == len - o.left && r == Returned(o, READ_FAILED) && closed == o.closed && dry == Dry(o)
    ensures fd.events == ReadLeft(len, |old(fd.incoming)|, old(fd.events))
    ensures r != READ_FAILED && !closed && !dry ==> |data| == len && r == 0
    ensures len < INT_MOD ==> (r == 0 <==> |data| == len)
  {
    if len < INT_MOD {
      ReadReturn(len, |fd.incoming|, fd.events);
    }
    var failed;
    data, failed, closed, dry := ReadLoop(fd, len);
    r := if failed then READ_FAILED else ToInt(len - |data|);
  }

  lemma ReadReturn(len: nat, avail: nat, es: seq<Event>)
    requires len < INT_MOD
    ensures Returned(ReadRun(len, avail, es), READ_FAILED) == 0 <==> ReadRun(len, avail, es).left == 0
  {
  }

  // ---------------------------------------------------------------- how far a transfer comes

  /** What one write or read can move at most of what an event offers. */
  function Capped(n: nat): nat {
    if n <= 0x7fff_f000 then n else 0x7fff_f000
  }

  /** A write that takes nothing, or fails, ends the loop; EINTR and EAGAIN do not. */
  function FirstStop(es: seq<WriteEvent>): (i: nat)
    ensures i <= |es|
  {
    if es == [] || es[0] == Wrote(0) || es[0].WriteFailed? then 0 else 1 + FirstStop(es[1..])
  }

  function Through(es: seq<WriteEvent>): nat {
    if es == [] then 0 else (if es[0].Wrote? then Capped(es[0].n) else 0) + Through(es[1..])
  }

  /**
   A write goes on, whatever is interrupted or finds the buffer full, until all is
   through or the first write that takes nothing or fails; what is left then is all but
   the sum of the writes before it.
   */
  lemma {:induction false} WriteCourse(left: nat, es: seq<WriteEvent>)
    ensures var i := FirstStop(es); var t := Through(es[..i]);
            WriteRun(left, es) == if t >= left || i == |es| then Transfer(0, false, false)
                                  else Transfer(left - t, es[i].WriteFailed?, false)
    decreases |es|
  {
    if es != [] && left > 0 {
      var i := FirstStop(es);
      if i > 0 {
        assert es[..i][0] == es[0] && es[..i][1..] == es[1..][..i - 1];
        var n := if es[0].Wrote? then AtMost(es[0].n, left) else 0;
        WriteCourse(left - n, es[1..]);
      }
    }
  }

  function FirstEnd(es: seq<Event>): (i: nat)
    ensures i <= |es|
  {
    if es == [] || (!es[0].Interrupted? && (es[0].Bytes? ==> es[0].n == 0)) then 0 else 1 + FirstEnd(es[1..])
  }

  function Brought(es: seq<Event>): nat {
    if es == [] then 0 else (if es[0].Bytes? then Capped(es[0].n) else 0) + Brought(es[1..])
  }

  /**
   A read goes on, whatever is interrupted, until all that is wanted is there or the
   first read that brings nothing, finds the other side closed, or fails.
   */
  lemma {:induction false} ReadCourse(left: nat, avail: nat, es: seq<Event>)
    requires avail >= left
    ensures var i := FirstEnd(es); var t := Brought(es[..i]);
            ReadRun(left, avail, es) == if t >= left then Transfer(0, false, false)
                                        else if i == |es| then Transfer(left - t, false, false)
                                        else Transfer(left - t, es[i].Failed?, es[i].Eof?)
    decreases |es|
  {
    if es != [] && left > 0 {
      var i := FirstEnd(es);
      if i > 0 {
        assert es[..i][0] == es[0] && es[..i][1..] == es[1..][..i - 1];
        var n := if es[0].Bytes? then AtMost(es[0].n, left) else 0;
        ReadCourse(left - n, avail - n, es[1..]);
      }
    }
  }

  // ---------------------------------------------------------------- what the count tells

  lemma {:induction false} WriteSome(left: nat, n: nat)
    requires n < left
    ensures WriteRun(left, seq(n, _ => Wrote(1)) + [Wrote(0)]) == Transfer(left - n, false, false)
  {
    var es := seq(n, _ => Wrote(1)) + [Wrote(0)];
    if n > 0 {
      assert es[1..] == seq(n - 1, _ => Wrote(1)) + [Wrote(0)];
      WriteSome(left - 1, n - 1);
    }
  }

  /**
   A return of 0 means that all bytes got through, however the single writes go, if
   and only if there were fewer than 2^32: of longer ones, all but 2^32 may get
   through, and the loop returns 0.
   */
  lemma WriteTellsAll(len: nat)
    ensures (forall es :: Returned(WriteRun(len, es), WRITE_FAILED) == 0 ==> WriteRun(len, es).left == 0)
            <==> len < INT_MOD
  {
    if len < INT_MOD {
      forall es | Returned(WriteRun(len, es), WRITE_FAILED) == 0 ensures WriteRun(len, es).left == 0 {
        WriteReturn(len, es);
      }
    } else {
      WriteSome(len, len - INT_MOD);
      var es := seq(len - INT_MOD, _ => Wrote(1)) + [Wrote(0)];
      assert Returned(WriteRun(len, es), WRITE_FAILED) == 0 && WriteRun(len, es).left != 0;
    }
  }

  lemma {:induction false} ReadSome(left: nat, n: nat)
    requires n < left
    ensures ReadRun(left, n, seq(n, _ => Bytes(1)) + [NoData]) == Transfer(left - n, false, false)
  {
    var es := seq(n, _ => Bytes(1)) + [NoData];
    if n > 0 {
      assert es[1..] == seq(n - 1, _ => Bytes(1)) + [NoData];
      ReadSome(left - 1, n - 1);
    }
  }

  /** The same of reading, by a read that finds nothing when 2^32 bytes are missing. */
  lemma ReadTellsAll(len: nat)
    ensures (forall avail: nat, es ::
               Returned(ReadRun(len, avail, es), READ_FAILED) == 0 ==> ReadRun(len, avail, es).left == 0)
            <==> len < INT_MOD
  {
    if len < INT_MOD {
      forall avail: nat, es | Returned(ReadRun(len, avail, es), READ_FAILED) == 0
        ensures ReadRun(len, avail, es).left == 0
      {
        ReadReturn(len, avail, es);
      }
    } else {
      var n := len - INT_MOD;
      ReadSome(len, n);
      var es := seq(n, _ => Bytes(1)) + [NoData];
      assert Returned(ReadRun(len, n, es), READ_FAILED) == 0 && ReadRun(len, n, es).left != 0;
    }
  }

  // ---------------------------------------------------------------- packets

  /** Sizes wrap around here. */
  const SIZE_MOD: nat := 0x1_0000_0000_0000_0000

  /** How much memory is asked for, for a header and a payload of length `ttl`. */
  function Requested(ttl: nat): nat {
    (HEAD_LEN + ttl) % SIZE_MOD
  }

  /** The memory asked for holds the packet exactly when the sum does not wrap, and else not even the header. */
  lemma RequestedHolds(ttl: nat)
    requires ttl < SIZE_MOD
    ensures Requested(ttl) == HEAD_LEN + ttl <==> HEAD_LEN + ttl < SIZE_MOD
    ensures Requested(ttl) < HEAD_LEN <==> HEAD_LEN + ttl >= SIZE_MOD
  {
  }

  /** What the client's reader comes to: a packet, connecting again, or a copy past the end of what was allocated. */
  datatype Fetched = Packet(m: Message) | Reconnect | Overrun

  /** The header has come, and memory can be had for what it asks for. */
  predicate HeaderTaken(s: seq<byte>, limit: nat) {
    |s| >= HEAD_LEN && DecodeHeader(s[..HEAD_LEN]).seqId >= SEQ_ID_MIN &&
    Requested(DecodeHeader(s[..HEAD_LEN]).ttl) <= limit
  }

  /** How reading the payload goes, after the header at the start of `s`. */
  function PayloadRun(s: seq<byte>, es: seq<Event>): Transfer
    requires |s| >= HEAD_LEN
  {
    ReadRun(DecodeHeader(s[..HEAD_LEN]).ttl, |s| - HEAD_LEN, ReadLeft(HEAD_LEN, |s|, es))
  }

  /** How many bytes the client's reader takes of those to come. */
  function FetchedLen(s: seq<byte>, es: seq<Event>, limit: nat): (n: nat)
  {
    var left := ReadRun(HEAD_LEN, |s|, es).left;
    if left > 0 || !HeaderTaken(s, limit) || HEAD_LEN + DecodeHeader(s[..HEAD_LEN]).ttl >= SIZE_MOD
    then HEAD_LEN - left
    else HEAD_LEN + DecodeHeader(s[..HEAD_LEN]).ttl - PayloadRun(s, es).left
  }

  /** The payload behind a header; less than all of it is taken for all when so much is missing that 0 is returned. */
  method ReadPayload(fd: Socket, h: Header) returns (p: Fetched, ghost body: seq<byte>, ghost dry: bool)
    modifies fd
    ensures fd.taken == old(fd.taken) + body && old(fd.incoming) == body + fd.incoming
    ensures var o := ReadRun(h.ttl, |old(fd.incoming)|, old(fd.events)); |body| == h.ttl - o.left && dry == Dry(o)
    ensures p == Packet(Message(h, body)) || p == Reconnect
    ensures |body| == h.ttl ==> p.Packet?
    ensures p.Packet? && (!dry || h.ttl < INT_MOD) ==> |body| == h.ttl
  {
    var r, data, closed, dry2 := IoRead(fd, h.ttl);
    body, dry := data, dry2;
    p := if r != 0 || closed then Reconnect else Packet(Message(h, data));
  }

  /** What was read, and what it came to, fit together. */
  ghost predicate Fetches(bytes: seq<byte>, limit: nat, p: Fetched, dry: bool) {
    (p.Overrun? <==> HeaderTaken(bytes, limit) && HEAD_LEN + DecodeHeader(bytes[..HEAD_LEN]).ttl >= SIZE_MOD) &&
    (p.Packet? ==> HeaderTaken(bytes, limit) && p.m.head == DecodeHeader(bytes[..HEAD_LEN])) &&
    (p.Packet? && (!dry || p.m.head.ttl < INT_MOD) ==>
       Whole(bytes) && FirstOf(bytes) == p.m && RestOf(bytes) == []) &&
    (p.Packet? && Whole(bytes) ==> FirstOf(bytes) == p.m) &&
    (HeaderTaken(bytes, limit) && Whole(bytes) && HEAD_LEN + DecodeHeader(bytes[..HEAD_LEN]).ttl < SIZE_MOD ==>
       p.Packet?)
  }

  lemma PayloadFetches(head: seq<byte>, body: seq<byte>, limit: nat, p: Fetched, dry: bool)
    requires |head| == HEAD_LEN && HeaderTaken(head, limit) && HEAD_LEN + DecodeHeader(head).ttl < SIZE_MOD
    requires |body| <= DecodeHeader(head).ttl && (p == Reconnect || p == Packet(Message(DecodeHeader(head), body)))
    requires |body| == DecodeHeader(head).ttl ==> p.Packet?
    requires p.Packet? && (!dry || DecodeHeader(head).ttl < INT_MOD) ==> |body| == DecodeHeader(head).ttl
    ensures Fetches(head + body, limit, p, dry)
  {
    var bytes := head + body;
    assert head[..HEAD_LEN] == head && bytes[..HEAD_LEN] == head;
    assert |body| == DecodeHeader(head).ttl ==> bytes[HEAD_LEN..] == body;
  }

  method FetchPacket(fd: Socket, limit: nat) returns (p: Fetched, ghost bytes: seq<byte>, ghost dry: bool)
    modifies fd
    ensures fd.taken == old(fd.taken) + bytes && old(fd.incoming) == bytes + fd.incoming
    ensures |bytes| == FetchedLen(old(fd.incoming), old(fd.events), limit)
    ensures Fetches(bytes, limit, p, dry)
    ensures dry <==> Dry(ReadRun(HEAD_LEN, |old(fd.incoming)|, old(fd.events))) ||
                     (HeaderTaken(bytes, limit) && !p.Overrun? && Dry(PayloadRun(old(fd.incoming), old(fd.events))))
  {
    ghost var s := fd.incoming;
    var r, head, closed, dry1 := IoRead(fd, HEAD_LEN);
    bytes, dry := head, dry1;
    if r != 0 || closed {
      return Reconnect, bytes, dry;
    }
    assert head[..HEAD_LEN] == head == s[..HEAD_LEN];
    var h := DecodeHeader(head);
    if h.seqId < SEQ_ID_MIN {
      return Reconnect, bytes, dry;
    }
    if Requested(h.ttl) > limit {
      return Reconnect, bytes, dry;
    }
    HeaderBound(head);
    RequestedHolds(h.ttl);
    if Requested(h.ttl) < HEAD_LEN {
      return Overrun, bytes, dry;
    }
    ghost var dry2, body;
    p, body, dry2 := ReadPayload(fd, h);
    bytes, dry := head + body, dry1 || dry2;
    assert bytes[..HEAD_LEN] == head;
    PayloadFetches(head, body, limit, p, dry);
  }

  /**
   The client's reader: header, then payload. `limit` is the most memory that can be
   allocated. A payload below 4 GiB is accepted exactly when all of it has come, and
   then it is the next packet; so is any on a blocking socket, where no read is dry.
   */
  method ReadPacket(fd: Socket, limit: nat) returns (p: Fetched, ghost bytes: seq<byte>, ghost dry: bool)
    modifies fd
    ensures fd.taken == old(fd.taken) + bytes && old(fd.incoming) == bytes + fd.incoming
    ensures |bytes| == FetchedLen(old(fd.incoming), old(fd.events), limit)
    ensures p.Overrun? <==> HeaderTaken(bytes, limit) && HEAD_LEN + DecodeHeader(bytes[..HEAD_LEN]).ttl >= SIZE_MOD
    ensures p.Packet? ==> HeaderTaken(bytes, limit) && p.m.head == DecodeHeader(bytes[..HEAD_LEN])
    ensures p.Packet? ==> p.m.head.seqId >= 10000 && HEAD_LEN + p.m.head.ttl <= limit
    ensures Whole(bytes) && FirstOf(bytes).head.seqId >= 10000 &&
            HEAD_LEN + FirstOf(bytes).head.ttl <= limit < SIZE_MOD ==>
              p == Packet(FirstOf(bytes))
    ensures p.Packet? && (!dry || p.m.head.ttl < INT_MOD) ==>
              Whole(bytes) && FirstOf(bytes) == p.m && RestOf(bytes) == []
    ensures HeaderTaken(bytes, limit) && Whole(bytes) && HEAD_LEN + DecodeHeader(bytes[..HEAD_LEN]).ttl < SIZE_MOD ==>
              p.Packet?
    ensures dry <==> Dry(ReadRun(HEAD_LEN, |old(fd.incoming)|, old(fd.events))) ||
                     (HeaderTaken(bytes, limit) && !p.Overrun? && Dry(PayloadRun(old(fd.incoming), old(fd.events))))
  {
    p, bytes, dry := FetchPacket(fd, limit);
  }
}

/** The server's incremental reader: one client connection, read piece by piece. */
module Deframe {
  import A = AckProtocol
  import opened Wire
  import opened Sequences

  /** At most this much of a payload is asked for at a time. */
  const READ_BLOCK_MAX: nat := 8192

  /** What the operating system does at one call of `read`. */
  datatype Event = Bytes(n: nat) | Interrupted | NoData | Eof | Failed

  datatype ReadResult = Got(data: seq<byte>) | Intr | Again | Closed | Error

  /** The system moves no more at one call than this. */
  const RW_MAX: nat := 0x7fff_f000

  function AtMost(n: nat, want: nat): (k: nat)
    ensures k <= n && k <= want && k <= RW_MAX
    ensures k == 0 <==> n == 0 || want == 0
  {
    if n <= want && n <= RW_MAX then n else if want <= RW_MAX then want else RW_MAX
  }

  /** What `read` makes of an event when `want` bytes are asked for. */
  function ReadOne(e: Event, want: nat, incoming: seq<byte>): ReadResult {
    match e
    case Bytes(n) =>
      var k := AtMost(AtMost(n, want), |incoming|);
      if k == 0 then Again else Got(incoming[..k])
    case Interrupted => Intr
    case NoData => Again
    case Eof => Closed
    case Failed => Error
  }

  /** A connected socket: the bytes still to come, and how they will be cut up. */
  class Socket {
    var incoming: seq<byte>
    var events: seq<Event>
    /** All bytes handed out so far. */
    ghost var taken: seq<byte>

    constructor (incoming: seq<byte>, events: seq<Event>)
      ensures this.incoming == incoming && this.events == events && taken == []
    {
      this.incoming, this.events, taken := incoming, events, [];
    }

    /** `read`: some bytes, but never more than wanted or there are. */
    method Read(want: nat) returns (r: ReadResult)
      modifies this
      ensures r == ReadOne(Coming(old(events)), want, old(incoming)) && events == Rest(old(events))
      ensures r.Got? ==> r.data <= old(incoming) && incoming == old(incoming)[|r.data|..]
      ensures r.Got? ==> taken == old(taken) + r.data
      ensures !r.Got? ==> incoming == old(incoming) && taken == old(taken)
    {
      r := ReadOne(Coming(events), want, incoming);
      events := Rest(events);
      if r.Got? {
        incoming := incoming[|r.data|..];
        taken := taken + r.data;
      }
    }

    /** The same, by what a reader that asks for something has to know. */
    method Receive(want: nat) returns (r: ReadResult)
      requires want > 0
      modifies this
      ensures r.Got? ==> 0 < |r.data| <= want && old(incoming) == r.data + incoming && taken == old(taken) + r.data
      ensures !r.Got? ==> incoming == old(incoming) && taken == old(taken)
      ensures r == ReadOne(Coming(old(events)), want, old(incoming)) && events == Rest(old(events))
    {
      r := Read(want);
    }
  }

  /** What comes next; nothing does once no event is in store. */
  function Coming(es: seq<Event>): Event {
    if es == [] then NoData else es[0]
  }

  function Rest(es: seq<Event>): seq<Event> {
    if es == [] then [] else es[1..]
  }

  // ---------------------------------------------------------------- the stream

  /** How many bytes are asked for when `p` has arrived of a packet. */
  function WantAfter(p: seq<byte>): (w: nat)
    requires !Whole(p)
    ensures w > 0
    ensures |p| < HEAD_LEN ==> |p| + w == HEAD_LEN
    ensures |p| >= HEAD_LEN ==> |p| + w <= HEAD_LEN + DecodeHeader(p[..HEAD_LEN]).ttl && w <= 8192
  {
    if |p| < HEAD_LEN then HEAD_LEN - |p|
    else
      var left := HEAD_LEN + DecodeHeader(p[..HEAD_LEN]).ttl - |p|;
      if left > READ_BLOCK_MAX then READ_BLOCK_MAX else left
  }

  /** The header at the start of `s` tells of a payload that cannot be allocated. */
  predicate TooBig(s: seq<byte>, limit: nat) {
    |s| >= HEAD_LEN && DecodeHeader(s[..HEAD_LEN]).ttl > limit
  }

  /** The client is closed, a packet is complete, there is nothing more for now, or reading goes on at once. */
  datatype Verdict = Gone | Complete | Wait | GoOn

  /** What bytes that arrive after `p` lead to. */
  function Arrival(p: seq<byte>, data: seq<byte>, limit: nat): Verdict {
    var q := p + data;
    if |q| < HEAD_LEN then Wait
    else if |p| < HEAD_LEN && TooBig(q, limit) then Gone
    else if Whole(q) then Complete
    else if |p| < HEAD_LEN then GoOn
    else Wait
  }

  /** So many bytes of those coming are taken, this is what they lead to, and these events are left. */
  datatype Course = Course(taken: nat, verdict: Verdict, left: seq<Event>)

  /** One read. */
  function OneRead(p: seq<byte>, incoming: seq<byte>, es: seq<Event>, limit: nat): (c: Course)
    requires !Whole(p)
    ensures c.taken <= |incoming| && c.taken <= WantAfter(p) && c.left == Rest(es)
    ensures c.verdict.GoOn? ==> es != []
    ensures c.verdict.Wait? || c.verdict.GoOn? ==> !Whole(p + incoming[..c.taken])
    ensures c.verdict.Complete? ==> Whole(p + incoming[..c.taken])
  {
    match ReadOne(Coming(es), WantAfter(p), incoming)
    case Got(data) => Course(|data|, Arrival(p, data, limit), Rest(es))
    case Intr => assert p + [] == p; Course(0, GoOn, Rest(es))
    case Again => assert p + [] == p; Course(0, Wait, Rest(es))
    case _ => Course(0, Gone, Rest(es))
  }

  /** One call of the reader: an interrupted read is tried again, and the payload is read right after the header. */
  function OneCall(p: seq<byte>, incoming: seq<byte>, es: seq<Event>, limit: nat): (c: Course)
    ensures c.taken <= |incoming| && !c.verdict.GoOn?
    decreases |es|
  {
    if Whole(p) then Course(0, Gone, es)
    else
      var c := OneRead(p, incoming, es, limit);
      if c.verdict.GoOn? then
        var d := OneCall(p + incoming[..c.taken], incoming[c.taken..], c.left, limit);
        Further(c.taken, d)
      else c
  }

  function Further(taken: nat, c: Course): Course {
    c.(taken := taken + c.taken)
  }

  /** An interrupted read changes nothing. */
  lemma TriesAgain(p: seq<byte>, incoming: seq<byte>, es: seq<Event>, limit: nat)
    requires !Whole(p) && es != [] && es[0].Interrupted?
    ensures OneCall(p, incoming, es, limit) == OneCall(p, incoming, es[1..], limit)
  {
    assert p + incoming[..0] == p && incoming[0..] == incoming;
  }

  /** With a header at hand, and a payload that a read brings as a whole, one call completes the packet. */
  lemma PacketInOneCall(incoming: seq<byte>, n: nat, m: nat, es: seq<Event>, limit: nat)
    requires |incoming| >= HEAD_LEN && n >= HEAD_LEN
    requires var ttl := DecodeHeader(incoming[..HEAD_LEN]).ttl;
             |incoming| >= HEAD_LEN + ttl && 0 < ttl <= 8192 && ttl <= limit && m >= ttl
    ensures var ttl := DecodeHeader(incoming[..HEAD_LEN]).ttl;
            OneCall([], incoming, [Bytes(n), Bytes(m)] + es, limit) == Course(HEAD_LEN + ttl, Complete, es)
  {
    var all, head := [Bytes(n), Bytes(m)] + es, incoming[..HEAD_LEN];
    var ttl, rest := DecodeHeader(head).ttl, incoming[HEAD_LEN..];
    assert all[1..] == [Bytes(m)] + es && all[1..][1..] == es;
    assert [] + head == head && head[..HEAD_LEN] == head;
    assert OneRead([], incoming, all, limit) == Course(HEAD_LEN, GoOn, all[1..]);
    assert (head + rest[..ttl])[..HEAD_LEN] == head;
    assert OneRead(head, rest, all[1..], limit) == Course(ttl, Complete, es);
  }

  /** A packet without a payload is complete with its header. */
  lemma HeaderInOneCall(incoming: seq<byte>, n: nat, es: seq<Event>, limit: nat)
    requires |incoming| >= HEAD_LEN && n >= HEAD_LEN && DecodeHeader(incoming[..HEAD_LEN]).ttl == 0
    ensures OneCall([], incoming, [Bytes(n)] + es, limit) == Course(HEAD_LEN, Complete, es)
  {
    var all, head := [Bytes(n)] + es, incoming[..HEAD_LEN];
    assert all[1..] == es;
    assert [] + head == head && head[..HEAD_LEN] == head;
  }

  /** How the bytes of a client are heard: how many, whether it is still open, and the events left. */
  datatype Heard = Heard(taken: nat, open: bool, left: seq<Event>)

  /**
   The simple reader, without calls and returns: one read after the other, whatever
   the last one led to, until the events are used up or the client is closed.
   */
  function Hearing(p: seq<byte>, incoming: seq<byte>, es: seq<Event>, limit: nat): (h: Heard)
    ensures h.taken <= |incoming| && (h.open ==> h.left == [])
    decreases |es|
  {
    if Whole(p) then Heard(0, false, es)
    else if es == [] then Heard(0, true, [])
    else
      var c := OneRead(p, incoming, es, limit);
      if c.verdict.Gone? then Heard(c.taken, false, c.left)
      else
        var q := if c.verdict.Complete? then [] else p + incoming[..c.taken];
        Added(c.taken, Hearing(q, incoming[c.taken..], c.left, limit))
  }

  function Added(taken: nat, h: Heard): Heard {
    h.(taken := taken + h.taken)
  }

  /** What is heard when a read or a call had this course. */
  function HeardBy(p: seq<byte>, incoming: seq<byte>, c: Course, limit: nat): Heard
    requires c.taken <= |incoming|
  {
    if c.verdict.Gone? then Heard(c.taken, false, c.left)
    else
      Added(c.taken, Hearing(if c.verdict.Complete? then [] else p + incoming[..c.taken],
                             incoming[c.taken..], c.left, limit))
  }

  lemma HearingStep(p: seq<byte>, incoming: seq<byte>, es: seq<Event>, limit: nat)
    requires !Whole(p)
    ensures Hearing(p, incoming, es, limit) == HeardBy(p, incoming, OneRead(p, incoming, es, limit), limit)
  {
    if es == [] {
      assert p + incoming[..0] == p && incoming[0..] == incoming;
    }
  }

  /** What follows on a first read that goes on. */
  lemma HeardOn(p: seq<byte>, incoming: seq<byte>, k: nat, d: Course, limit: nat)
    requires k + d.taken <= |incoming|
    ensures p + incoming[..k] + incoming[k..][..d.taken] == p + incoming[..k + d.taken]
    ensures HeardBy(p, incoming, Further(k, d), limit) ==
            Added(k, HeardBy(p + incoming[..k], incoming[k..], d, limit))
  {
    TakeTwice(p, incoming, k, d.taken);
  }

  /** Calls of the reader, one after the other, hear what the simple reader hears. */
  lemma {:induction false} CallHeard(p: seq<byte>, incoming: seq<byte>, es: seq<Event>, limit: nat)
    requires !Whole(p)
    ensures Hearing(p, incoming, es, limit) == HeardBy(p, incoming, OneCall(p, incoming, es, limit), limit)
    decreases |es|
  {
    var c, d := OneRead(p, incoming, es, limit), OneCall(p, incoming, es, limit);
    HearingStep(p, incoming, es, limit);
    if c.verdict.GoOn? {
      var q, rest := p + incoming[..c.taken], incoming[c.taken..];
      CallHeard(q, rest, c.left, limit);
      var d' := OneCall(q, rest, c.left, limit);
      assert d == Further(c.taken, d');
      HeardOn(p, incoming, c.taken, d', limit);
    } else {
      assert d == c;
    }
  }

  lemma CallGives(p: seq<byte>, incoming: seq<byte>, es: seq<Event>, data: seq<byte>, rest: seq<byte>, v: Verdict,
                  left: seq<Event>, limit: nat)
    requires !Whole(p) && incoming == data + rest && OneCall(p, incoming, es, limit) == Course(|data|, v, left)
    ensures Hearing(p, incoming, es, limit) ==
            if v.Gone? then Heard(|data|, false, left)
            else Added(|data|, Hearing(if v.Complete? then [] else p + data, rest, left, limit))
  {
    CallHeard(p, incoming, es, limit);
    assert incoming[..|data|] == data && incoming[|data|..] == rest;
  }

  predicate Breaks(e: Event) {
    e.Eof? || e.Failed?
  }

  /** The other side closes, or reading fails. */
  predicate Broken(es: seq<Event>) {
    exists i :: 0 <= i < |es| && Breaks(es[i])
  }

  /** The last header to be completed by `data` is the one of a payload that cannot be allocated. */
  predicate Denied(p: seq<byte>, data: seq<byte>, limit: nat) {
    var left := Decode(p + data).1;
    TooBig(left, limit) && (|p| >= HEAD_LEN ==> left != p + data)
  }

  lemma BrokenStep(es: seq<Event>)
    requires es != []
    ensures Broken(es) <==> Breaks(es[0]) || Broken(es[1..])
  {
    if Broken(es[1..]) {
      var i :| 0 <= i < |es[1..]| && Breaks(es[1..][i]);
      assert Breaks(es[i + 1]);
    }
    if Broken(es) && !Breaks(es[0]) {
      var i :| 0 <= i < |es| && Breaks(es[i]);
      assert Breaks(es[1..][i - 1]);
    }
  }

  /** No more is asked for than makes the packet whole. */
  lemma JustWhole(p: seq<byte>, data: seq<byte>)
    requires !Whole(p) && |data| <= WantAfter(p) && Whole(p + data)
    ensures RestOf(p + data) == []
  {
    if |p| >= HEAD_LEN {
      assert (p + data)[..HEAD_LEN] == p[..HEAD_LEN];
    }
  }

  /** A packet that is complete has no part in what comes after. */
  lemma DeniedNext(p: seq<byte>, now: seq<byte>, later: seq<byte>, limit: nat)
    requires Whole(p + now) && RestOf(p + now) == []
    ensures Denied(p, now + later, limit) <==> Denied([], later, limit)
  {
    Regroup(p, now, later);
    WholeMore(p + now, later);
    DecodeStep(p + now + later);
    assert [] + later == later;
    DecodeShort(later);
  }

  lemma {:induction false} DecodeShort(s: seq<byte>)
    ensures |Decode(s).1| <= |s|
    decreases |s|
  {
    if Whole(s) {
      DecodeShort(RestOf(s));
    }
  }

  /** A packet that goes on is denied at its header, or never. */
  lemma DeniedOn(p: seq<byte>, now: seq<byte>, later: seq<byte>, limit: nat)
    requires |p| >= HEAD_LEN || |p + now| < HEAD_LEN || !TooBig(p + now, limit)
    ensures Denied(p, now + later, limit) <==> Denied(p + now, later, limit)
  {
    Regroup(p, now, later);
    if |p + now| >= HEAD_LEN {
      assert (p + now + later)[..HEAD_LEN] == (p + now)[..HEAD_LEN];
    }
  }

  lemma DeniedHere(p: seq<byte>, now: seq<byte>, limit: nat)
    requires |p| < HEAD_LEN && |p + now| == HEAD_LEN && TooBig(p + now, limit)
    ensures Denied(p, now, limit)
  {
  }

  /** A payload of any length can be allocated when there is room for the largest length that fits a header. */
  lemma RoomForAll(s: seq<byte>, limit: nat)
    requires limit + 1 >= Pow256(TTL_LEN)
    ensures !TooBig(s, limit)
  {
    if |s| >= HEAD_LEN {
      UnLeBound(s[..HEAD_LEN][..TTL_LEN]);
    }
  }

  /** Hearing ended as it should: open unless the connection broke or the packet begun cannot be allocated. */
  predicate EndsWell(p: seq<byte>, incoming: seq<byte>, es: seq<Event>, limit: nat, h: Heard)
    requires h.taken <= |incoming|
  {
    h.open <==> !Broken(es) && !Denied(p, incoming[..h.taken], limit)
  }

  lemma GoneWhy(p: seq<byte>, incoming: seq<byte>, es: seq<Event>, limit: nat)
    requires !Whole(p) && es != []
    ensures var c := OneRead(p, incoming, es, limit);
            c.verdict.Gone? ==> Breaks(es[0]) || Denied(p, incoming[..c.taken], limit)
    ensures Breaks(es[0]) ==> OneRead(p, incoming, es, limit).verdict.Gone?
  {
    var c := OneRead(p, incoming, es, limit);
    if c.verdict.Gone? && !Breaks(es[0]) {
      DeniedHere(p, incoming[..c.taken], limit);
    }
  }

  lemma DeniedAfter(p: seq<byte>, incoming: seq<byte>, es: seq<Event>, k: nat, limit: nat)
    requires !Whole(p) && es != []
    requires var c := OneRead(p, incoming, es, limit); !c.verdict.Gone? && c.taken + k <= |incoming|
    ensures !Breaks(es[0])
    ensures var c := OneRead(p, incoming, es, limit);
            Denied(p, incoming[..c.taken + k], limit) <==>
            Denied(if c.verdict.Complete? then [] else p + incoming[..c.taken], incoming[c.taken..][..k], limit)
  {
    var c := OneRead(p, incoming, es, limit);
    var now, later := incoming[..c.taken], incoming[c.taken..][..k];
    GoneWhy(p, incoming, es, limit);
    TakeTwice([], incoming, c.taken, k);
    assert now + later == incoming[..c.taken + k];
    if c.verdict.Complete? {
      JustWhole(p, now);
      DeniedNext(p, now, later, limit);
    } else {
      DeniedOn(p, now, later, limit);
    }
  }

  lemma EndsWellStep(p: seq<byte>, incoming: seq<byte>, es: seq<Event>, limit: nat, d: Heard)
    requires !Whole(p) && es != []
    requires var c := OneRead(p, incoming, es, limit);
             !c.verdict.Gone? && c.taken + d.taken <= |incoming| &&
             EndsWell(if c.verdict.Complete? then [] else p + incoming[..c.taken],
                      incoming[c.taken..], c.left, limit, d)
    ensures EndsWell(p, incoming, es, limit, Added(OneRead(p, incoming, es, limit).taken, d))
  {
    BrokenStep(es);
    DeniedAfter(p, incoming, es, d.taken, limit);
  }

  /**
   A client is closed exactly when the other side closes, a read fails, or the packet
   it has begun cannot be allocated: never by an interrupted read, one that finds
   nothing, or one that brings a part only.
   */
  lemma {:induction false} OpenExactly(p: seq<byte>, incoming: seq<byte>, es: seq<Event>, limit: nat)
    requires !Whole(p)
    ensures var h := Hearing(p, incoming, es, limit);
            h.open <==> !Broken(es) && !Denied(p, incoming[..h.taken], limit)
    // so, on a client that is open, no read has failed and a header completed was that of a payload with room
    ensures var h := Hearing(p, incoming, es, limit); var left := Decode(p + incoming[..h.taken]).1;
            h.open ==> (forall e :: e in es ==> !e.Eof? && !e.Failed?) &&
                       (|p| < HEAD_LEN && |left| >= HEAD_LEN ==> DecodeHeader(left[..HEAD_LEN]).ttl <= limit)
    decreases |es|
  {
    if es == [] {
      assert p + incoming[..0] == p;
    } else {
      var c := OneRead(p, incoming, es, limit);
      if c.verdict.Gone? {
        BrokenStep(es);
        GoneWhy(p, incoming, es, limit);
      } else {
        var q, rest := if c.verdict.Complete? then [] else p + incoming[..c.taken], incoming[c.taken..];
        var d := Hearing(q, rest, c.left, limit);
        OpenExactly(q, rest, c.left, limit);
        EndsWellStep(p, incoming, es, limit, d);
        assert Hearing(p, incoming, es, limit) == Added(c.taken, d);
      }
    }
  }

  /** With room for whatever length a header can tell of, only the connection decides. */
  lemma OpenWithRoom(p: seq<byte>, incoming: seq<byte>, es: seq<Event>, limit: nat)
    requires !Whole(p) && limit + 1 >= Pow256(TTL_LEN)
    ensures Hearing(p, incoming, es, limit).open <==> !Broken(es)
  {
    var h := Hearing(p, incoming, es, limit);
    OpenExactly(p, incoming, es, limit);
    RoomForAll(Decode(p + incoming[..h.taken]).1, limit);
  }

  /** How many reads bring something, as long as something is still to come. */
  function Bringing(es: seq<Event>): nat {
    if es == [] then 0 else (if es[0].Bytes? && es[0].n > 0 then 1 else 0) + Bringing(es[1..])
  }

  /** A client that stays open is heard to the end, if only reads go on bringing something. */
  lemma {:induction false} HeardOut(p: seq<byte>, incoming: seq<byte>, es: seq<Event>, limit: nat)
    requires !Whole(p) && Hearing(p, incoming, es, limit).open && Bringing(es) >= |incoming|
    ensures Hearing(p, incoming, es, limit).taken == |incoming|
    decreases |es|
  {
    if es != [] {
      var c := OneRead(p, incoming, es, limit);
      var q := if c.verdict.Complete? then [] else p + incoming[..c.taken];
      HeardOut(q, incoming[c.taken..], c.left, limit);
    }
  }

  /** What has arrived of packets that can all be allocated never begins one that cannot. */
  lemma {:induction false} NoneTooBig(ms: seq<Message>, t: seq<byte>, limit: nat)
    requires (forall m :: m in ms ==> GoodMessage(m) && |m.payload| <= limit) && t <= EncodeAll(ms)
    ensures !TooBig(Decode(t).1, limit)
    decreases |ms|
  {
    if ms != [] && |t| >= HEAD_LEN {
      var rest := EncodeAll(ms[1..]);
      var s := Encode(ms[0]) + rest;
      EncodeWhole(ms[0], rest);
      assert t[..HEAD_LEN] == s[..HEAD_LEN];
      if Whole(t) {
        WholeMore(t, s[|t|..]);
        assert t + s[|t|..] == s;
        NoneTooBig(ms[1..], RestOf(t), limit);
        DecodeStep(t);
      }
    }
  }

  /**
   What clients send is what the server handles: packets that can be allocated, sent
   over a connection that holds, are all heard, and decoded to the messages sent, in
   order, however the bytes are cut up and whatever reads are interrupted or find
   nothing.
   */
  lemma Delivered(ms: seq<Message>, es: seq<Event>, limit: nat)
    requires (forall m :: m in ms ==> GoodMessage(m) && |m.payload| <= limit)
    requires !Broken(es) && Bringing(es) >= |EncodeAll(ms)|
    ensures Hearing([], EncodeAll(ms), es, limit) == Heard(|EncodeAll(ms)|, true, [])
    ensures Decode(EncodeAll(ms)) == (ms, [])
  {
    var bytes := EncodeAll(ms);
    var t := bytes[..Hearing([], bytes, es, limit).taken];
    NoneTooBig(ms, t, limit);
    assert [] + t == t;
    OpenExactly([], bytes, es, limit);
    HeardOut([], bytes, es, limit);
    DecodeEncode(ms, []);
    assert bytes + [] == bytes;
  }

  // ---------------------------------------------------------------- the client

  /** Bytes written into a buffer at an offset, as `read` does. */
  method CopyIn(dst: array<byte>, off: nat, data: seq<byte>)
    requires off + |data| <= dst.Length
    modifies dst
    ensures dst[..off] == old(dst[..off]) && dst[off..off + |data|] == data
    ensures dst[off + |data|..] == old(dst[off + |data|..])
  {
    for i := 0 to |data|
      invariant dst[..off] == old(dst[..off]) && dst[off..off + i] == data[..i]
      invariant dst[off + |data|..] == old(dst[off + |data|..])
    {
      dst[off + i] := data[i];
      assert dst[off..off + i + 1] == dst[off..off + i] + [data[i]];
    }
  }

  /** What the server keeps about a client it is reading from. */
  class Client {
    const head: array<byte>
    var hasRead: nat
    var headDone: bool
    var bufDone: bool
    var buf: array?<byte>
    var open: bool

    ghost predicate Valid()
      reads this, head, buf
    {
      head.Length == HEAD_LEN && (buf != null ==> buf != head) &&
      (open ==>
         if !headDone then hasRead < HEAD_LEN && buf == null && !bufDone
         else
           var ttl := DecodeHeader(head[..]).ttl;
           HEAD_LEN <= hasRead <= HEAD_LEN + ttl && (bufDone <==> hasRead == HEAD_LEN + ttl) &&
           (if ttl == 0 then buf == null else buf != null && buf.Length == ttl))
    }

    /** The bytes of the packet being read that have arrived. */
    ghost function Partial(): seq<byte>
      requires Valid() && open
      reads this, head, buf
    {
      if !headDone then head[..hasRead]
      else if buf == null then head[..]
      else head[..] + buf[..hasRead - HEAD_LEN]
    }

    /** The packet is complete exactly when its bytes are a whole packet, and then they are nothing more. */
    lemma PartialWhole()
      requires Valid() && open
      ensures Whole(Partial()) <==> bufDone
      ensures bufDone ==> RestOf(Partial()) == []
    {
      if headDone {
        assert Partial()[..HEAD_LEN] == head[..];
      }
    }

    /** The header and the buffer of a complete packet are the message. */
    lemma PartialMessage()
      requires Valid() && open && bufDone
      ensures Whole(Partial())
      ensures FirstOf(Partial()) == Message(DecodeHeader(head[..]), if buf == null then [] else buf[..])
    {
      var p, h := Partial(), DecodeHeader(head[..]);
      assert p[..HEAD_LEN] == head[..];
      assert p[HEAD_LEN..HEAD_LEN + h.ttl] == if buf == null then [] else buf[..];
    }

    constructor ()
      ensures Valid() && open && Partial() == [] && fresh(head) && buf == null && !bufDone
    {
      head := new byte[HEAD_LEN](_ => 0);
      hasRead, headDone, bufDone, buf, open := 0, false, false, null, true;
    }

    /** Ready for the next packet. */
    method Reset()
      requires Valid() && open
      modifies this, head
      ensures Valid() && open && Partial() == [] && !bufDone && buf == null
    {
      hasRead, headDone, bufDone := 0, false, false;
      forall i | 0 <= i < head.Length {
        head[i] := 0;
      }
      buf := null;
    }

    /** Header bytes as they arrive. */
    method TakeHead(data: seq<byte>)
      requires Valid() && open && !headDone && hasRead + |data| < HEAD_LEN
      modifies this`hasRead, head
      ensures Valid() && open && !headDone && Partial() == old(Partial()) + data
    {
      CopyIn(head, hasRead, data);
      assert head[..hasRead + |data|] == head[..hasRead] + head[hasRead..hasRead + |data|];
      hasRead := hasRead + |data|;
    }

    /** The last header bytes: the payload is allocated, if there is one and it can be. */
    method FinishHead(data: seq<byte>, limit: nat) returns (ok: bool)
      requires Valid() && open && !headDone && hasRead + |data| == HEAD_LEN
      modifies this, head
      ensures Valid() && ok == open && (buf == null || fresh(buf))
      ensures ok ==> headDone && Partial() == old(Partial()) + data
      ensures ok <==> !TooBig(old(Partial()) + data, limit)
      ensures !ok ==> !Whole(old(Partial()) + data)
    {
      CopyIn(head, hasRead, data);
      assert head[..] == head[..hasRead] + head[hasRead..hasRead + |data|];
      assert head[..][..HEAD_LEN] == head[..];
      hasRead := hasRead + |data|;
      headDone := true;
      var ttl := DecodeHeader(head[..]).ttl;
      if hasRead == HEAD_LEN + ttl {
        buf := null;
        bufDone := true;
      } else {
        if ttl > limit {
          Close();
          return false;
        }
        buf := new byte[ttl](_ => 0);
        assert buf[..0] == [];
      }
      ok := true;
    }

    /** Payload bytes as they arrive. */
    method TakeBody(data: seq<byte>)
      requires Valid() && open && headDone && !bufDone && hasRead + |data| <= HEAD_LEN + DecodeHeader(head[..]).ttl
      modifies this`hasRead, this`bufDone, buf
      ensures Valid() && open && headDone && Partial() == old(Partial()) + data && hasRead == old(hasRead) + |data|
    {
      var off := hasRead - HEAD_LEN;
      CopyIn(buf, off, data);
      assert buf[..off + |data|] == buf[..off] + buf[off..off + |data|];
      assert head[..] + buf[..off + |data|] == head[..] + buf[..off] + data;
      hasRead := hasRead + |data|;
      if hasRead == HEAD_LEN + DecodeHeader(head[..]).ttl {
        bufDone := true;
      }
    }

    /** How many bytes to ask for. */
    function Want(): (w: nat)
      requires Valid() && open && !bufDone
      reads this, head, buf
      ensures !Whole(Partial()) && w == WantAfter(Partial())
    {
      PartialWhole();
      assert headDone ==> Partial()[..HEAD_LEN] == head[..];
      if !headDone then HEAD_LEN - hasRead
      else
        var left := DecodeHeader(head[..]).ttl - (hasRead - HEAD_LEN);
        if left > READ_BLOCK_MAX then READ_BLOCK_MAX else left
    }

    /** How things stand after a read; `more` when reading should go on at once. */
    ghost function Standing(more: bool): Verdict
      reads this
    {
      if !open then Gone else if bufDone then Complete else if more then GoOn else Wait
    }

    /** Bytes as they arrive; `more` when reading should go on at once. */
    method Take(data: seq<byte>, limit: nat) returns (more: bool)
      requires Valid() && open && !bufDone && 0 < |data| <= Want()
      modifies this, head, buf
      ensures Valid() && (buf == old(buf) || buf == null || fresh(buf))
      ensures open ==> Partial() == old(Partial()) + data
      ensures more ==> open && !bufDone && !old(headDone) && headDone
      ensures !open ==> !Whole(old(Partial()) + data)
      ensures Standing(more) == Arrival(old(Partial()), data, limit)
    {
      if !headDone {
        if hasRead + |data| < HEAD_LEN {
          TakeHead(data);
          more := false;
        } else {
          var ok := FinishHead(data, limit);
          more := ok && !bufDone;
        }
      } else {
        TakeBody(data);
        more := false;
      }
      if open {
        PartialWhole();
      }
    }

    method Close()
      requires head.Length == HEAD_LEN
      modifies this
      ensures Valid() && !open && buf == null
    {
      hasRead, headDone, bufDone, buf := 0, false, false, null;
      open := false;
    }
  }

  /** One turn of the read loop; `more` when reading goes on at once. */
  method ReadTurn(cli: Client, sock: Socket, limit: nat) returns (more: bool, ret: int, ghost got: seq<byte>)
    requires cli.Valid() && cli.open && !cli.bufDone && !Whole(cli.Partial())
    modifies cli, cli.head, cli.buf, sock
    ensures cli.Valid() && (cli.buf == old(cli.buf) || cli.buf == null || fresh(cli.buf))
    ensures sock.taken == old(sock.taken) + got && old(sock.incoming) == got + sock.incoming
    ensures |sock.events| <= |old(sock.events)|
    ensures more || old(sock.events) != [] ==> |sock.events| < |old(sock.events)|
    ensures more ==> cli.open && !cli.bufDone
    ensures !more ==> ret == if !cli.open then -1 else if cli.bufDone then 1 else 0
    ensures cli.open ==> cli.Partial() == old(cli.Partial()) + got
    ensures !cli.open ==> !Whole(old(cli.Partial()) + got)
    ensures OneCall(old(cli.Partial()), old(sock.incoming), old(sock.events), limit) ==
            if more then Further(|got|, OneCall(cli.Partial(), sock.incoming, sock.events, limit))
            else Course(|got|, cli.Standing(false), sock.events)
  {
    ghost var p0 := cli.Partial();
    more, ret, got := false, 0, [];
    assert p0 + [] == p0;
    var r := sock.Receive(cli.Want());
    match r {
      case Got(data) =>
        got := data;
        more := cli.Take(data, limit);
        ret := if !cli.open then -1 else if cli.bufDone then 1 else 0;
      case Intr =>
        more := true;
      case Again =>
      case _ =>
        cli.Close();
        ret := -1;
    }
  }

  /**
   Read what there is. 1: a packet is complete; 0: wait for more; -1: the client
   was closed. `limit` is the largest payload that can be allocated.
   */
  method ReadClient(cli: Client, sock: Socket, limit: nat) returns (ret: int, ghost got: seq<byte>)
    requires cli.Valid() && cli.open
    modifies cli, cli.head, cli.buf, sock
    ensures cli.Valid() && (cli.buf == old(cli.buf) || cli.buf == null || fresh(cli.buf))
    ensures ret == 1 || ret == 0 || ret == -1
    ensures ret == -1 <==> !cli.open
    ensures OneCall(old(cli.Partial()), old(sock.incoming), old(sock.events), limit) ==
            Course(|got|, cli.Standing(false), sock.events)
    ensures |sock.events| <= |old(sock.events)|
    ensures old(sock.events) != [] && !old(cli.bufDone) ==> |sock.events| < |old(sock.events)|
    ensures old(cli.bufDone) ==> ret == -1
    ensures sock.taken == old(sock.taken) + got && old(sock.incoming) == got + sock.incoming
    ensures ret == -1 && !old(cli.bufDone) ==> !Whole(old(cli.Partial()) + got)
    ensures ret != -1 ==> cli.Partial() == old(cli.Partial()) + got && (cli.bufDone <==> ret == 1)
  {
    ghost var p0 := cli.Partial();
    ghost var goal := OneCall(p0, sock.incoming, sock.events, limit);
    got := [];
    assert p0 + [] == p0;
    while true
      invariant cli.Valid() && cli.open && (cli.buf == old(cli.buf) || cli.buf == null || fresh(cli.buf))
      invariant sock.taken == old(sock.taken) + got && old(sock.incoming) == got + sock.incoming
      invariant cli.Partial() == p0 + got
      invariant goal == Further(|got|, OneCall(cli.Partial(), sock.incoming, sock.events, limit))
      invariant |sock.events| <= |old(sock.events)|
      invariant cli.bufDone == old(cli.bufDone)
      decreases |sock.events|
    {
      cli.PartialWhole();
      if cli.bufDone {
        cli.Close();
        return -1, got;
      }
      var more: bool;
      ghost var data;
      more, ret, data := ReadTurn(cli, sock, limit);
      Regroup(p0, got, data);
      Regroup(old(sock.taken), got, data);
      Regroup(got, data, sock.incoming);
      got := got + data;
      if !more {
        return;
      }
    }
  }

  const HEARTBEAT: nat := 1
  const VOID: nat := 2
  const ASYNC_SEND: nat := 3
  const SYNC_SEND: nat := 5

  /**
   What becomes of a packet: nothing yet, dropped for want of memory, echoed, dropped,
   acknowledged and passed on, passed on, refused.
   */
  datatype Action = NotReady | NoMemory | Echo | Discard | AckAndCall | Call | Unknown

  function Dispatch(msgType: nat): Action {
    if msgType == HEARTBEAT then Echo
    else if msgType == VOID then Discard
    else if msgType == ASYNC_SEND then AckAndCall
    else if msgType == SYNC_SEND then Call
    else Unknown
  }

  /** The packet type of a kind of request. */
  function TypeOf(k: A.Kind): nat {
    match k
    case Beat => HEARTBEAT
    case Void => VOID
    case Async => ASYNC_SEND
    case Sync => SYNC_SEND
  }

  /**
   The actions are those of the protocol: a heartbeat is echoed and an asynchronous
   request acknowledged at once, these two only; a request is passed on to the
   callback exactly when the protocol's receiving thread keeps hold of it.
   */
  lemma DispatchFollows(s: A.State)
    requires A.Enabled(s, A.ServerReceive(false))
    ensures var p, s' := s.up[0], A.Next(s, A.ServerReceive(false));
            var a := Dispatch(TypeOf(p.kind));
            (a.Echo? <==> s'.down == s.down + [A.Reply(A.Beat, p.id, p.payload)]) &&
            (a.AckAndCall? <==> s'.down == s.down + [A.Reply(A.Async, p.id, [])]) &&
            (!a.Echo? && !a.AckAndCall? <==> s'.down == s.down) &&
            (a.AckAndCall? || a.Call? <==> s'.taken.Some? && s'.taken.value == p) &&
            (a.Echo? || a.Discard? <==> s'.taken.None?)
  {
    var s' := A.Next(s, A.ServerReceive(false));
    if s'.down != s.down {
      assert s'.down[|s.down|] == s'.down[|s'.down| - 1];
    }
  }

  /** Only these four types are served. */
  lemma DispatchTypes(t: nat)
    ensures Dispatch(t).Unknown? <==> forall k :: TypeOf(k) != t
    ensures Dispatch(t) == if t == 1 then Echo else if t == 2 then Discard else if t == 3 then AckAndCall
                           else if t == 5 then Call else Unknown
  {
    if t == 1 { assert TypeOf(A.Beat) == t; }
    if t == 2 { assert TypeOf(A.Void) == t; }
    if t == 3 { assert TypeOf(A.Async) == t; }
    if t == 5 { assert TypeOf(A.Sync) == t; }
  }

  /** Handle the complete packet, and get ready for the next; `mem` tells whether there is memory to hand it on. */
  method HandleClientMsg(cli: Client, mem: bool) returns (m: Message, a: Action)
    requires cli.Valid() && cli.open
    modifies cli, cli.head
    ensures cli.Valid() && cli.open && !cli.bufDone
    ensures a.NotReady? <==> !old(cli.bufDone)
    ensures a.NotReady? ==> cli.buf == old(cli.buf) && cli.Partial() == old(cli.Partial())
    ensures !a.NotReady? ==> cli.Partial() == [] && cli.buf == null
    ensures !a.NotReady? ==> Whole(old(cli.Partial())) && m == FirstOf(old(cli.Partial()))
    ensures !a.NotReady? ==> a == if mem then Dispatch(m.head.msgType) else NoMemory
  {
    if !cli.bufDone {
      return Message(Header(0, 0, 0, 0), []), NotReady;
    }
    cli.PartialMessage();
    m := Message(DecodeHeader(cli.head[..]), if cli.buf == null then [] else cli.buf[..]);
    cli.Reset();
    if !mem {
      a := NoMemory;
    } else if m.head.msgType == HEARTBEAT {
      a := Echo;
    } else if m.head.msgType == VOID {
      a := Discard;
    } else if m.head.msgType == ASYNC_SEND {
      a := AckAndCall;
    } else if m.head.msgType == SYNC_SEND {
      a := Call;
    } else {
      a := Unknown;
    }
  }

  /** Each message met its action; `mem` tells for which there was memory. */
  ghost predicate Acted(ms: seq<Message>, done: seq<Action>, mem: nat -> bool) {
    |done| == |ms| && forall i :: 0 <= i < |ms| ==> done[i] == if mem(i) then Dispatch(ms[i].head.msgType) else NoMemory
  }

  lemma ActedOneMore(ms: seq<Message>, done: seq<Action>, mem: nat -> bool, m: Message, a: Action)
    requires Acted(ms, done, mem) && a == if mem(|ms|) then Dispatch(m.head.msgType) else NoMemory
    ensures Acted(ms + [m], done + [a], mem)
  {
  }

  /** One round of the receive loop: what has been decoded of all bytes `seen` goes on by those just read. */
  method ServeOnce(cli: Client, sock: Socket, limit: nat, mem: bool, ghost seen: seq<byte>, ms: seq<Message>)
    returns (ms': seq<Message>, a: Action, ghost data: seq<byte>)
    requires cli.Valid() && cli.open && !cli.bufDone && Decode(seen) == (ms, cli.Partial())
    modifies cli, cli.head, cli.buf, sock
    ensures cli.Valid() && (cli.open ==> !cli.bufDone) && (cli.buf == old(cli.buf) || cli.buf == null || fresh(cli.buf))
    ensures |sock.events| <= |old(sock.events)| && (old(sock.events) != [] ==> |sock.events| < |old(sock.events)|)
    ensures sock.taken == old(sock.taken) + data && old(sock.incoming) == data + sock.incoming
    ensures Hearing(old(cli.Partial()), old(sock.incoming), old(sock.events), limit) ==
            if cli.open then Added(|data|, Hearing(cli.Partial(), sock.incoming, sock.events, limit))
            else Heard(|data|, false, sock.events)
    ensures Decode(seen + data).0 == ms' && (cli.open ==> Decode(seen + data).1 == cli.Partial())
    ensures if a.NotReady? then ms' == ms
            else |ms'| == |ms| + 1 && ms' == ms + [ms'[|ms|]] &&
                 a == if mem then Dispatch(ms'[|ms|].head.msgType) else NoMemory
  {
    cli.PartialWhole();
    ghost var p, coming := cli.Partial(), sock.incoming;
    var ret;
    ret, data := ReadClient(cli, sock, limit);
    CallGives(p, coming, old(sock.events), data, sock.incoming, cli.Standing(false), sock.events, limit);
    DecodeMore(seen, data);
    ms', a := ms, NotReady;
    if ret != -1 {
      cli.PartialWhole();
    }
    if ret == 1 {
      DecodeStep(cli.Partial());
      var m;
      m, a := HandleClientMsg(cli, mem);
      ms' := ms + [m];
    }
  }

  /**
   The receive loop for one client, however its bytes are cut up: the messages
   handled are those of decoding all bytes at once, each met the action for its
   kind, and what is kept is the rest.
   */
  method Serve(cli: Client, sock: Socket, limit: nat, mem: nat -> bool)
    returns (ms: seq<Message>, done: seq<Action>, ghost data: seq<byte>)
    requires cli.Valid() && cli.open && !cli.bufDone
    modifies cli, cli.head, cli.buf, sock
    ensures cli.Valid() && (cli.open ==> sock.events == [])
    ensures sock.taken == old(sock.taken) + data && old(sock.incoming) == data + sock.incoming
    ensures Decode(old(cli.Partial()) + data).0 == ms && Acted(ms, done, mem)
    ensures cli.open ==> Decode(old(cli.Partial()) + data).1 == cli.Partial()
    ensures Hearing(old(cli.Partial()), old(sock.incoming), old(sock.events), limit) ==
            Heard(|data|, cli.open, sock.events)
    ensures cli.open <==> !Broken(old(sock.events)) && !Denied(old(cli.Partial()), data, limit)
    ensures cli.open ==> forall e :: e in old(sock.events) ==> !e.Eof? && !e.Failed?
  {
    ghost var p0 := cli.Partial();
    ghost var coming, goal := sock.incoming, Hearing(p0, sock.incoming, sock.events, limit);
    cli.PartialWhole();
    assert p0 + [] == p0;
    ms, done, data := [], [], [];
    while cli.open && sock.events != []
      invariant cli.Valid() && (cli.open ==> !cli.bufDone)
      invariant cli.buf == old(cli.buf) || cli.buf == null || fresh(cli.buf)
      invariant sock.taken == old(sock.taken) + data && old(sock.incoming) == data + sock.incoming
      invariant Decode(p0 + data).0 == ms && (cli.open ==> Decode(p0 + data).1 == cli.Partial())
      invariant goal == if cli.open then Added(|data|, Hearing(cli.Partial(), sock.incoming, sock.events, limit))
                        else Heard(|data|, false, sock.events)
      invariant Acted(ms, done, mem)
      decreases |sock.events|
    {
      var a;
      ghost var more;
      ms, a, more := ServeOnce(cli, sock, limit, mem(|ms|), p0 + data, ms);
      if !a.NotReady? {
        ActedOneMore(ms[..|ms| - 1], done, mem, ms[|ms| - 1], a);
        done := done + [a];
      }
      Regroup(p0, data, more);
      Regroup(old(sock.taken), data, more);
      Regroup(data, more, sock.incoming);
      data := data + more;
    }
    assert goal == Heard(|data|, cli.open, sock.events);
    assert data == coming[..|data|];
    OpenExactly(p0, coming, old(sock.events), limit);
  }
}

/** The packets of the IPC protocol as bytes: a packed little-endian header, then the payload. */
module Wire {
  import opened Arith
  import opened Sequences

  type byte = b: nat | b < 256

  const HEAD_LEN: nat := 28
  const TTL_LEN: nat := 8
  const TYPE_LEN: nat := 4
  const ID_LEN: nat := 8

  /** Sequence numbers below are reserved. */
  const SEQ_ID_MIN: nat := 10000

  datatype Header = Header(ttl: nat, msgType: nat, seqId: nat, ackId: nat)

  datatype Message = Message(head: Header, payload: seq<byte>)

  // ---------------------------------------------------------------- numbers

  function Pow256(k: nat): (p: nat)
    ensures p > 0
  {
    if k == 0 then 1 else 256 * Pow256(k - 1)
  }

  /** The low `k` bytes of `n`, lowest first. */
  function Le(n: nat, k: nat): (s: seq<byte>)
    ensures |s| == k
  {
    if k == 0 then [] else [n % 256] + Le(n / 256, k - 1)
  }

  function UnLe(s: seq<byte>): nat {
    if s == [] then 0 else s[0] + 256 * UnLe(s[1..])
  }

  lemma {:induction false} UnLeLe(n: nat, k: nat)
    requires n < Pow256(k)
    ensures UnLe(Le(n, k)) == n
  {
    if k > 0 {
      UnLeLe(n / 256, k - 1);
      assert Le(n, k)[1..] == Le(n / 256, k - 1);
    }
  }

  lemma {:induction false} UnLeBound(s: seq<byte>)
    ensures UnLe(s) < Pow256(|s|)
  {
    if s != [] {
      UnLeBound(s[1..]);
    }
  }

  // ---------------------------------------------------------------- packets

  predicate GoodHeader(h: Header) {
    h.ttl < Pow256(TTL_LEN) && h.msgType < Pow256(TYPE_LEN) && h.seqId < Pow256(ID_LEN) && h.ackId < Pow256(ID_LEN)
  }

  predicate GoodMessage(m: Message) {
    GoodHeader(m.head) && m.head.ttl == |m.payload|
  }

  function EncodeHeader(h: Header): (s: seq<byte>)
    ensures |s| == HEAD_LEN
  {
    Le(h.ttl, TTL_LEN) + Le(h.msgType, TYPE_LEN) + Le(h.seqId, ID_LEN) + Le(h.ackId, ID_LEN)
  }

  lemma {:induction false} LeAt(n: nat, k: nat, i: nat)
    requires i < k
    ensures Le(n, k)[i] == n / Pow256(i) % 256
  {
    if i > 0 {
      LeAt(n / 256, k - 1, i - 1);
      DivTwice(n, Pow256(i - 1));
    }
  }

  lemma DivTwice(n: nat, p: nat)
    requires p > 0
    ensures n / 256 / p == n / (256 * p)
  {
    var q := n / 256 / p;
    DivMul(n, 256);
    DivMul(n / 256, p);
    var b := n / 256 % p;
    Spread(q, p, b, n % 256);
    DivIs(n, 256 * p, q, 256 * b + n % 256);
  }

  lemma Spread(q: nat, p: nat, b: nat, r: nat)
    requires b < p && r < 256
    ensures 256 * (q * p + b) + r == q * (256 * p) + (256 * b + r) && 256 * b + r < 256 * p
  {
  }

  /** Which byte of which field stands where: the length first, lowest byte first, then the type and the two numbers. */
  lemma HeaderBytes(h: Header, i: nat)
    requires i < 28
    ensures EncodeHeader(h)[i] == if i < 8 then h.ttl / Pow256(i) % 256
                                  else if i < 12 then h.msgType / Pow256(i - 8) % 256
                                  else if i < 20 then h.seqId / Pow256(i - 12) % 256
                                  else h.ackId / Pow256(i - 20) % 256
  {
    if i < 8 {
      LeAt(h.ttl, 8, i);
    } else if i < 12 {
      LeAt(h.msgType, 4, i - 8);
    } else if i < 20 {
      LeAt(h.seqId, 8, i - 12);
    } else {
      LeAt(h.ackId, 8, i - 20);
    }
  }

  function DecodeHeader(s: seq<byte>): Header
    requires |s| == HEAD_LEN
  {
    Header(UnLe(s[..8]), UnLe(s[8..12]), UnLe(s[12..20]), UnLe(s[20..]))
  }

  lemma HeaderBound(s: seq<byte>)
    requires |s| == HEAD_LEN
    ensures GoodHeader(DecodeHeader(s))
  {
    UnLeBound(s[..8]);
    UnLeBound(s[8..12]);
    UnLeBound(s[12..20]);
    UnLeBound(s[20..]);
  }

  lemma HeaderRoundTrip(h: Header)
    requires GoodHeader(h)
    ensures DecodeHeader(EncodeHeader(h)) == h
  {
    var s := EncodeHeader(h);
    UnLeLe(h.ttl, TTL_LEN);
    UnLeLe(h.msgType, TYPE_LEN);
    UnLeLe(h.seqId, ID_LEN);
    UnLeLe(h.ackId, ID_LEN);
    assert s[..8] == Le(h.ttl, TTL_LEN);
    assert s[8..12] == Le(h.msgType, TYPE_LEN);
    assert s[12..20] == Le(h.seqId, ID_LEN);
    assert s[20..] == Le(h.ackId, ID_LEN);
  }

  function Encode(m: Message): seq<byte> {
    EncodeHeader(m.head) + m.payload
  }

  function EncodeAll(ms: seq<Message>): seq<byte> {
    if ms == [] then [] else Encode(ms[0]) + EncodeAll(ms[1..])
  }

  /** Whether `s` starts with a whole packet. */
  predicate Whole(s: seq<byte>) {
    |s| >= HEAD_LEN && |s| >= HEAD_LEN + DecodeHeader(s[..HEAD_LEN]).ttl
  }

  /** The packet at the start of `s`. */
  function FirstOf(s: seq<byte>): Message
    requires Whole(s)
  {
    var h := DecodeHeader(s[..HEAD_LEN]);
    Message(h, s[HEAD_LEN..HEAD_LEN + h.ttl])
  }

  function RestOf(s: seq<byte>): (r: seq<byte>)
    requires Whole(s)
    ensures |r| < |s|
  {
    s[HEAD_LEN + DecodeHeader(s[..HEAD_LEN]).ttl..]
  }

  /** One-shot decoding: all whole packets, and the bytes left over. */
  function Decode(s: seq<byte>): (seq<Message>, seq<byte>)
    decreases |s|
  {
    if !Whole(s) then ([], s)
    else
      var (ms, left) := Decode(RestOf(s));
      ([FirstOf(s)] + ms, left)
  }

  lemma DecodeStep(s: seq<byte>)
    requires Whole(s)
    ensures Decode(s) == ([FirstOf(s)] + Decode(RestOf(s)).0, Decode(RestOf(s)).1)
  {
  }

  lemma EncodeWhole(m: Message, tail: seq<byte>)
    requires GoodMessage(m)
    ensures Whole(Encode(m) + tail) && FirstOf(Encode(m) + tail) == m && RestOf(Encode(m) + tail) == tail
  {
    var s := Encode(m) + tail;
    assert s[..HEAD_LEN] == EncodeHeader(m.head);
    HeaderRoundTrip(m.head);
    assert s[HEAD_LEN..HEAD_LEN + m.head.ttl] == m.payload;
  }

  /** Decoding what was encoded gives the messages back in order, whatever incomplete packet follows. */
  lemma {:induction false} DecodeEncode(ms: seq<Message>, tail: seq<byte>)
    requires (forall i :: 0 <= i < |ms| ==> GoodMessage(ms[i])) && !Whole(tail)
    ensures Decode(EncodeAll(ms) + tail) == (ms, tail)
    decreases |ms|
  {
    if ms == [] {
      assert EncodeAll(ms) + tail == tail;
    } else {
      var rest := EncodeAll(ms[1..]) + tail;
      assert EncodeAll(ms) + tail == Encode(ms[0]) + rest;
      EncodeWhole(ms[0], rest);
      DecodeEncode(ms[1..], tail);
      DecodeStep(Encode(ms[0]) + rest);
      assert [ms[0]] + ms[1..] == ms;
    }
  }

  /** Bytes that arrive later only add to what was decoded before. */
  lemma {:induction false} DecodeMore(s: seq<byte>, t: seq<byte>)
    ensures var (ms, left) := Decode(s);
            var (ms', left') := Decode(left + t);
            Decode(s + t) == (ms + ms', left')
    decreases |s|
  {
    if !Whole(s) {
      NothingYet(Decode(s + t).0);
    } else {
      WholeMore(s, t);
      DecodeMore(RestOf(s), t);
      DecodeStep(s);
      DecodeStep(s + t);
      Regroup([FirstOf(s)], Decode(RestOf(s)).0, Decode(Decode(RestOf(s)).1 + t).0);
    }
  }

  lemma NothingYet<T>(ms: seq<T>)
    ensures [] + ms == ms
  {
  }

  lemma WholeMore(s: seq<byte>, t: seq<byte>)
    requires Whole(s)
    ensures Whole(s + t) && FirstOf(s + t) == FirstOf(s) && RestOf(s + t) == RestOf(s) + t
  {
    assert (s + t)[..HEAD_LEN] == s[..HEAD_LEN];
  }

  /** What is left over holds no whole packet. */
  lemma {:induction false} LeftNotWhole(s: seq<byte>)
    ensures !Whole(Decode(s).1)
    decreases |s|
  {
    if Whole(s) {
      LeftNotWhole(RestOf(s));
    }
  }
}

/**
 Replies addressed by client number while connections come and go: the server's
 receiving thread opens and closes descriptors, which the system hands out again,
 and two threads write replies through the map from numbers to descriptors.
 */
module FdMap {
  import opened Options

  type Uuid = nat
  type Fd = nat
  type Thread = bool    // the receiving thread and the callback thread

  /** What the receiving thread is in the middle of. */
  datatype Rcv = Idle | Accepted(u: Uuid, fd: Fd) | Unmapped(u: Uuid, fd: Fd)

  /** What a thread that holds the mutex for a reply has found. */
  datatype Sending = Locked(u: Uuid) | Found(u: Uuid, fd: Fd)

  /** Bytes written for client `u`, while their descriptor belonged to `owner`. */
  datatype Written = Written(u: Uuid, owner: Uuid)

  datatype State = State(
    cliFd: map<Uuid, Fd>,                  // the map under the mutex
    owner: map<Fd, Uuid>,                  // the system's open descriptors
    used: set<Uuid>,                       // client numbers ever drawn
    rcv: Rcv,
    holder: Option<(Thread, Sending)>,     // who holds the mutex across several steps
    log: seq<Written>)

  datatype Step =
    | Accept(u: Uuid, fd: Fd)      // any free descriptor, a new number
    | Register                     // map insert, under the mutex
    | Abandon                      // accept gives up and closes again
    | Unmap(u: Uuid)               // closing a client: map delete, under the mutex
    | CloseFd                      // and then the descriptor
    | Lock(t: Thread, u: Uuid)     // a reply: take the mutex
    | LookUp
    | Write                        // one partial write
    | Unlock

  const INIT: State := State(map[], map[], {}, Idle, None, [])

  /** The receiving thread does one thing at a time; a map change needs the mutex free. */
  predicate Enabled(s: State, st: Step) {
    match st
    case Accept(u, fd) => s.rcv.Idle? && !RcvSends(s) && fd !in s.owner && u !in s.used
    case Register => s.rcv.Accepted? && s.holder.None?
    case Abandon => s.rcv.Accepted?
    case Unmap(u) => s.rcv.Idle? && !RcvSends(s) && u in s.cliFd && s.holder.None?
    case CloseFd => s.rcv.Unmapped?
    case Lock(t, u) => s.holder.None? && (t ==> s.rcv.Idle?)
    case LookUp => s.holder.Some? && s.holder.value.1.Locked?
    case Write => s.holder.Some? && s.holder.value.1.Found? && s.holder.value.1.fd in s.owner
    case Unlock => s.holder.Some?
  }

  /** The receiving thread itself is sending an immediate acknowledgement. */
  predicate RcvSends(s: State) {
    s.holder.Some? && s.holder.value.0
  }

  function Next(s: State, st: Step): State
    requires Enabled(s, st)
  {
    match st
    case Accept(u, fd) => s.(owner := s.owner[fd := u], used := s.used + {u}, rcv := Accepted(u, fd))
    case Register => s.(cliFd := s.cliFd[s.rcv.u := s.rcv.fd], rcv := Idle)
    case Abandon => s.(owner := s.owner - {s.rcv.fd}, rcv := Idle)
    case Unmap(u) => s.(cliFd := s.cliFd - {u}, rcv := Unmapped(u, s.cliFd[u]))
    case CloseFd => s.(owner := s.owner - {s.rcv.fd}, rcv := Idle)
    case Lock(t, u) => s.(holder := Some((t, Locked(u))))
    case LookUp =>
      var (t, l) := s.holder.value;
      s.(holder := if l.u in s.cliFd then Some((t, Found(l.u, s.cliFd[l.u]))) else None)
    case Write =>
      var f := s.holder.value.1;
      s.(log := s.log + [Written(f.u, s.owner[f.fd])])
    case Unlock => s.(holder := None)
  }

  /**
   Mapped numbers have their descriptors open, one each; a descriptor that is being
   opened or closed is not mapped; a reply under way has its number mapped.
   */
  ghost predicate Inv(s: State) {
    (forall u :: u in s.cliFd ==> s.cliFd[u] in s.owner && s.owner[s.cliFd[u]] == u && u in s.used) &&
    (!s.rcv.Idle? ==>
       s.rcv.u !in s.cliFd && s.rcv.fd in s.owner && s.owner[s.rcv.fd] == s.rcv.u && s.rcv.u in s.used) &&
    (forall fd :: fd in s.owner ==> s.owner[fd] in s.used) &&
    (s.holder.Some? && s.holder.value.1.Found? ==>
       var f := s.holder.value.1; f.u in s.cliFd && s.cliFd[f.u] == f.fd) &&
    (forall i :: 0 <= i < |s.log| ==> s.log[i].owner == s.log[i].u)
  }

  lemma StepInv(s: State, st: Step)
    requires Inv(s) && Enabled(s, st)
    ensures Inv(Next(s, st))
  {
  }

  ghost predicate Legal(s: State, sts: seq<Step>)
    decreases |sts|
  {
    sts == [] || (Enabled(s, sts[0]) && Legal(Next(s, sts[0]), sts[1..]))
  }

  ghost function Run(s: State, sts: seq<Step>): State
    requires Legal(s, sts)
    decreases |sts|
  {
    if sts == [] then s else Run(Next(s, sts[0]), sts[1..])
  }

  lemma {:induction false} RunInv(s: State, sts: seq<Step>)
    requires Inv(s) && Legal(s, sts)
    ensures Inv(Run(s, sts))
    decreases |sts|
  {
    if sts != [] {
      StepInv(s, sts[0]);
      RunInv(Next(s, sts[0]), sts[1..]);
    }
  }

  lemma RunFirst(s: State, st: Step, rest: seq<Step>)
    requires Enabled(s, st) && Legal(Next(s, st), rest)
    ensures Legal(s, [st] + rest) && Run(s, [st] + rest) == Run(Next(s, st), rest)
  {
    assert ([st] + rest)[1..] == rest;
  }

  function Comes(u: Uuid, fd: Fd): seq<Step> {
    [Accept(u, fd)] + [Register]
  }

  function Leaves(u: Uuid): seq<Step> {
    [Unmap(u)] + [CloseFd]
  }

  function Replies(t: Thread, u: Uuid): seq<Step> {
    [Lock(t, u)] + ([LookUp] + ([Write] + [Unlock]))
  }

  /**
   Descriptors do come to other clients: from every reachable state at rest, one client
   may come, get a reply and leave, and its descriptor be given to the next; and then
   replies to that one go out by it.
   */
  lemma DescriptorReused(s: State, t: Thread, u: Uuid, v: Uuid, fd: Fd)
    requires Inv(s) && s.rcv.Idle? && s.holder.None? && fd !in s.owner && u !in s.used && v !in s.used && u != v
    ensures Legal(s, Comes(u, fd) + (Leaves(u) + (Comes(v, fd) + Replies(t, v))))
    ensures var r := Run(s, Comes(u, fd) + (Leaves(u) + (Comes(v, fd) + Replies(t, v))));
            r.log == s.log + [Written(v, v)] && fd in r.owner && r.owner[fd] == v && r.cliFd == s.cliFd[v := fd]
  {
    var s1 := Arrived(s, u, fd);
    var s2 := Departed(s1, u);
    var s3 := Arrived(s2, v, fd);
    var s4 := Answered(s3, t, v);
    assert s2.cliFd == s.cliFd && s2.owner == s.owner;
    assert Replies(t, v) + [] == Replies(t, v);
    RunJoin(s3, Replies(t, v), []);
    RunJoin(s2, Comes(v, fd), Replies(t, v));
    RunJoin(s1, Leaves(u), Comes(v, fd) + Replies(t, v));
    RunJoin(s, Comes(u, fd), Leaves(u) + (Comes(v, fd) + Replies(t, v)));
  }

  lemma {:induction false} RunJoin(s: State, a: seq<Step>, b: seq<Step>)
    requires Legal(s, a) && Legal(Run(s, a), b)
    ensures Legal(s, a + b) && Run(s, a + b) == Run(Run(s, a), b)
    decreases |a|
  {
    if a == [] {
      assert a + b == b;
    } else {
      RunJoin(Next(s, a[0]), a[1..], b);
      assert (a + b)[1..] == a[1..] + b;
    }
  }

  lemma Arrived(s: State, u: Uuid, fd: Fd) returns (r: State)
    requires s.rcv.Idle? && s.holder.None? && fd !in s.owner && u !in s.used
    ensures Legal(s, Comes(u, fd)) && r == Run(s, Comes(u, fd))
    ensures r == s.(cliFd := s.cliFd[u := fd], owner := s.owner[fd := u], used := s.used + {u})
  {
    r := Next(Next(s, Accept(u, fd)), Register);
    assert [Register] + [] == [Register];
    RunFirst(Next(s, Accept(u, fd)), Register, []);
    RunFirst(s, Accept(u, fd), [Register]);
  }

  lemma Departed(s: State, u: Uuid) returns (r: State)
    requires s.rcv.Idle? && s.holder.None? && u in s.cliFd
    ensures Legal(s, Leaves(u)) && r == Run(s, Leaves(u))
    ensures r == s.(cliFd := s.cliFd - {u}, owner := s.owner - {s.cliFd[u]})
  {
    r := Next(Next(s, Unmap(u)), CloseFd);
    assert [CloseFd] + [] == [CloseFd];
    RunFirst(Next(s, Unmap(u)), CloseFd, []);
    RunFirst(s, Unmap(u), [CloseFd]);
  }

  lemma Answered(s: State, t: Thread, u: Uuid) returns (r: State)
    requires s.rcv.Idle? && s.holder.None? && u in s.cliFd && s.cliFd[u] in s.owner && s.owner[s.cliFd[u]] == u
    ensures Legal(s, Replies(t, u)) && r == Run(s, Replies(t, u)) && r == s.(log := s.log + [Written(u, u)])
  {
    var s1 := Next(s, Lock(t, u));
    var s2 := Next(s1, LookUp);
    var s3 := Next(s2, Write);
    r := Next(s3, Unlock);
    assert [Unlock] + [] == [Unlock];
    RunFirst(s3, Unlock, []);
    RunFirst(s2, Write, [Unlock]);
    RunFirst(s1, LookUp, [Write] + [Unlock]);
    RunFirst(s, Lock(t, u), [LookUp] + ([Write] + [Unlock]));
  }

  /** A reply finds exactly the clients that are mapped. */
  lemma LookUpFinds(s: State)
    requires Enabled(s, LookUp)
    ensures var (t, l) := s.holder.value; var s' := Next(s, LookUp);
            s'.holder == (if l.u in s.cliFd then Some((t, Found(l.u, s.cliFd[l.u]))) else None) &&
            s' == s.(holder := s'.holder)
  {
  }

  /**
   In every reachable state with the mutex free, a reply to a client that is mapped
   is written, to a descriptor of that client; one to any other is not.
   */
  lemma ReplyGoesOut(sts: seq<Step>, t: Thread, u: Uuid)
    requires Legal(INIT, sts) && Enabled(Run(INIT, sts), Lock(t, u))
    ensures var s := Run(INIT, sts);
            var s1 := Next(s, Lock(t, u)); var s2 := Next(s1, LookUp);
            (u in s.cliFd <==> Enabled(s2, Write)) &&
            (u in s.cliFd ==> Next(s2, Write).log == s.log + [Written(u, u)]) &&
            (u !in s.cliFd ==> s2.holder.None? && s2.log == s.log)
  {
    RunInv(INIT, sts);
  }

  /**
   Over all interleavings and all reuse of descriptors: bytes for a client are only
   ever written while their descriptor is that client's, and a descriptor that a
   reply has looked up is never found closed.
   */
  lemma RepliesReachTheirClient(sts: seq<Step>)
    requires Legal(INIT, sts)
    ensures var s := Run(INIT, sts);
            (forall i :: 0 <= i < |s.log| ==> s.log[i].owner == s.log[i].u) &&
            (s.holder.Some? && s.holder.value.1.Found? ==>
               s.holder.value.1.fd in s.owner && s.owner[s.holder.value.1.fd] == s.holder.value.1.u)
  {
    RunInv(INIT, sts);
  }
}

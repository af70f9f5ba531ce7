/**
 Requests and acknowledgements of one client connection, over all interleavings of
 the calling threads, the client's receiver and the server's two threads. Each
 step is what happens under one hold of a mutex or in one packet transfer.
 */
module AckProtocol {
  import opened Options
  import opened Sequences
  import Wire

  const SEQ_ID_MOD: nat := 0x1_0000_0000_0000_0000

  type Bytes = seq<nat>

  datatype Kind = Beat | Void | Async | Sync

  /** How a call ended. */
  datatype Outcome = Got(reply: Reply) | SendError | WaitError

  /**
   Where a call is: it has a number, its entry is made, its packet was sent or could not
   be, it gave up waiting, it is over.
   */
  datatype Pc = Numbered | Entered | Sent | Unsent | GaveUp | Returned(how: Outcome)

  datatype Call = Call(kind: Kind, payload: Bytes, pc: Pc)

  datatype Packet = Packet(kind: Kind, id: nat, payload: Bytes)

  /** A message of the server: the echo of a heartbeat, or an acknowledgement. */
  datatype Reply = Reply(kind: Kind, ackId: nat, bytes: Bytes)

  /** One run of the server's callback. */
  datatype CallbackRun = CallbackRun(kind: Kind, id: nat, payload: Bytes, returned: Bytes)

  datatype State = State(
    next: nat,                           // the client's next sequence number
    calls: map<nat, Call>,               // all calls so far, by their sequence number
    pending: map<nat, Option<Reply>>,    // the client's hash of awaited acknowledgements
    up: seq<Packet>,                     // from client to server
    taken: Option<Packet>,               // in the hands of the server's receiving thread
    pipe: seq<Packet>,                   // from there to the callback thread
    answer: Option<CallbackRun>,         // in the hands of the callback thread
    down: seq<Reply>,                    // from server to client
    accepted: set<nat>,                  // asynchronous requests the server has received
    ran: seq<CallbackRun>)               // callbacks run

  function NextSeq(id: nat): nat {
    var n := (id + 1) % SEQ_ID_MOD;
    if n < Wire.SEQ_ID_MIN then Wire.SEQ_ID_MIN else n
  }

  function Init(first: nat): State {
    State(if first < Wire.SEQ_ID_MIN then Wire.SEQ_ID_MIN else first, map[], map[], [], None, [], None, [], {}, [])
  }

  predicate Awaited(k: Kind) {
    k == Async || k == Sync
  }

  datatype Step =
    | Begin(kind: Kind, payload: Bytes)
    | Enter(id: nat)
    | Send(id: nat, lost: bool)
    | SendFails(id: nat)
    | TakeReply(id: nat)
    | WaitFails(id: nat)
    | NoEntry(id: nat)
    | DeleteEntry(id: nat)
    | Receive
    | ServerReceive(lost: bool)
    | ServerPipe(lost: bool)
    | RunCallback(returned: Bytes)
    | ServerAnswer(lost: bool)

  predicate At(s: State, id: nat, pc: Pc) {
    id in s.calls && s.calls[id].pc == pc
  }

  /** A number that is in use is not handed out again; apart from that, the code's own guards. */
  predicate Enabled(s: State, st: Step) {
    match st
    case Begin(_, _) => s.next !in s.calls
    case Enter(id) => At(s, id, Numbered) && Awaited(s.calls[id].kind)
    case Send(id, _) => id in s.calls && s.calls[id].pc == if Awaited(s.calls[id].kind) then Entered else Numbered
    case SendFails(id) => At(s, id, Entered)
    case TakeReply(id) => At(s, id, Sent) && Awaited(s.calls[id].kind) && id in s.pending && s.pending[id].Some?
    case WaitFails(id) => At(s, id, Sent) && Awaited(s.calls[id].kind) && id in s.pending
    case NoEntry(id) => At(s, id, Sent) && Awaited(s.calls[id].kind) && id !in s.pending
    case DeleteEntry(id) => At(s, id, Unsent) || At(s, id, GaveUp)
    case Receive => s.down != []
    case ServerReceive(_) => s.up != [] && s.taken.None?
    case ServerPipe(_) => s.taken.Some?
    case RunCallback(_) => s.pipe != [] && s.answer.None?
    case ServerAnswer(_) => s.answer.Some?
  }

  function SetPc(s: State, id: nat, pc: Pc): State
    requires id in s.calls
  {
    s.(calls := s.calls[id := s.calls[id].(pc := pc)])
  }

  function Next(s: State, st: Step): State
    requires Enabled(s, st)
  {
    match st
    case Begin(kind, payload) =>
      s.(next := NextSeq(s.next), calls := s.calls[s.next := Call(kind, payload, Numbered)])
    case Enter(id) =>
      SetPc(s, id, Entered).(pending := s.pending[id := None])
    case Send(id, lost) =>
      var c := s.calls[id];
      SetPc(s, id, Sent).(up := if lost then s.up else s.up + [Packet(c.kind, id, c.payload)])
    case SendFails(id) =>
      SetPc(s, id, Unsent)
    case TakeReply(id) =>
      SetPc(s, id, Returned(Got(s.pending[id].value))).(pending := s.pending - {id})
    case WaitFails(id) =>
      // a synchronous call leaves its entry behind
      SetPc(s, id, if s.calls[id].kind == Async then GaveUp else Returned(WaitError))
    case NoEntry(id) =>
      SetPc(s, id, if s.calls[id].kind == Async then GaveUp else Returned(WaitError))
    case DeleteEntry(id) =>
      SetPc(s, id, Returned(if s.calls[id].pc == Unsent then SendError else WaitError)).(pending := s.pending - {id})
    case Receive =>
      var r := s.down[0];
      s.(down := s.down[1..],
         pending := if Awaited(r.kind) && r.ackId in s.pending then s.pending[r.ackId := Some(r)] else s.pending)
    case ServerReceive(lost) =>
      var p := s.up[0];
      var echo := if p.kind == Beat then [Reply(Beat, p.id, p.payload)]
                  else if p.kind == Async then [Reply(Async, p.id, [])] else [];
      s.(up := s.up[1..],
         down := if lost then s.down else s.down + echo,
         accepted := if p.kind == Async then s.accepted + {p.id} else s.accepted,
         taken := if Awaited(p.kind) then Some(p) else None)
    case ServerPipe(lost) =>
      s.(taken := None, pipe := if lost then s.pipe else s.pipe + [s.taken.value])
    case RunCallback(returned) =>
      var p := s.pipe[0];
      var run := CallbackRun(p.kind, p.id, p.payload, returned);
      s.(pipe := s.pipe[1..], answer := Some(run), ran := s.ran + [run])
    case ServerAnswer(lost) =>
      var run := s.answer.value;
      s.(answer := None,
         down := if run.kind == Sync && !lost then s.down + [Reply(Sync, run.id, run.returned)] else s.down)
  }

  // ---------------------------------------------------------------- invariant

  /** The call's packet has left the client. */
  predicate Gone(c: Call) {
    c.pc.Sent? || c.pc.GaveUp? || (c.pc.Returned? && c.pc.how != SendError)
  }

  predicate PacketOk(s: State, p: Packet) {
    p.id in s.calls && s.calls[p.id].kind == p.kind && s.calls[p.id].payload == p.payload && Gone(s.calls[p.id])
  }

  predicate RunOk(s: State, r: CallbackRun) {
    Awaited(r.kind) && PacketOk(s, Packet(r.kind, r.id, r.payload))
  }

  /** The server sent this reply for the very request whose number it bears. */
  predicate Answers(s: State, r: Reply) {
    r.ackId in s.calls && s.calls[r.ackId].kind == r.kind && Gone(s.calls[r.ackId]) &&
    (r.kind == Async ==> r.ackId in s.accepted) &&
    (r.kind == Sync ==> CallbackRun(Sync, r.ackId, s.calls[r.ackId].payload, r.bytes) in s.ran)
  }

  function Ids(ps: seq<Packet>): seq<nat> {
    seq(|ps|, i requires 0 <= i < |ps| => ps[i].id)
  }

  function RunIds(rs: seq<CallbackRun>): seq<nat> {
    seq(|rs|, i requires 0 <= i < |rs| => rs[i].id)
  }

  /** The numbers of all requests on their way through the server, the furthest first. */
  function Flight(s: State): seq<nat> {
    RunIds(s.ran) + Ids(s.pipe) + (if s.taken.Some? then [s.taken.value.id] else []) + Ids(s.up)
  }

  ghost predicate PacketsOk(s: State) {
    (forall i :: 0 <= i < |s.up| ==> PacketOk(s, s.up[i])) &&
    (forall i :: 0 <= i < |s.pipe| ==> PacketOk(s, s.pipe[i]) && Awaited(s.pipe[i].kind)) &&
    (s.taken.Some? ==> PacketOk(s, s.taken.value) && Awaited(s.taken.value.kind)) &&
    (forall i :: 0 <= i < |s.ran| ==> RunOk(s, s.ran[i])) &&
    (s.answer.Some? ==> s.answer.value in s.ran)
  }

  ghost predicate FlightOk(s: State) {
    NoDup(Flight(s)) && forall id :: id in Flight(s) ==> id in s.calls && Gone(s.calls[id])
  }

  ghost predicate RepliesOk(s: State) {
    (forall i :: 0 <= i < |s.down| ==> Answers(s, s.down[i])) &&
    (forall id :: id in s.pending && s.pending[id].Some? ==>
       s.pending[id].value.ackId == id && Answers(s, s.pending[id].value)) &&
    (forall id :: id in s.calls && s.calls[id].pc.Returned? && s.calls[id].pc.how.Got? ==>
       s.calls[id].pc.how.reply.ackId == id && Answers(s, s.calls[id].pc.how.reply))
  }

  /**
   Entries are there exactly from their making to their deletion, which a synchronous call
   skips when its wait fails.
   */
  ghost predicate EntriesOk(s: State) {
    forall id :: id in s.pending <==>
      id in s.calls && Awaited(s.calls[id].kind) && s.calls[id].pc != Numbered &&
      (s.calls[id].pc.Returned? ==> s.calls[id].kind == Sync && s.calls[id].pc.how == WaitError)
  }

  ghost predicate CallsOk(s: State) {
    s.next >= Wire.SEQ_ID_MIN &&
    forall id :: id in s.calls ==>
      var c := s.calls[id];
      id >= Wire.SEQ_ID_MIN && (c.pc.GaveUp? ==> c.kind == Async) &&
      (!c.pc.Numbered? && !c.pc.Sent? ==> Awaited(c.kind))
  }

  ghost predicate Inv(s: State) {
    PacketsOk(s) && FlightOk(s) && RepliesOk(s) && EntriesOk(s) && CallsOk(s)
  }

  lemma InitInv(first: nat)
    ensures Inv(Init(first))
  {
  }

  // ---------------------------------------------------------------- steps keep the invariant

  /** Calls keep their kind and payload and, once their packet is gone, stay so; the server forgets nothing. */
  ghost predicate Evolves(s: State, s': State) {
    (forall id :: id in s.calls ==>
       id in s'.calls && s'.calls[id].kind == s.calls[id].kind && s'.calls[id].payload == s.calls[id].payload &&
       (Gone(s.calls[id]) ==> Gone(s'.calls[id]))) &&
    s.accepted <= s'.accepted && (forall r :: r in s.ran ==> r in s'.ran)
  }

  lemma StepEvolves(s: State, st: Step)
    requires CallsOk(s) && Enabled(s, st)
    ensures Evolves(s, Next(s, st))
  {
    var s' := Next(s, st);
    forall r | r in s.ran ensures r in s'.ran {
      if st.RunCallback? {
        assert s'.ran == s.ran + [s'.answer.value];
      }
    }
  }

  lemma StepCalls(s: State, st: Step)
    requires Inv(s) && Enabled(s, st)
    ensures CallsOk(Next(s, st))
  {
  }

  lemma StepEntries(s: State, st: Step)
    requires Inv(s) && Enabled(s, st)
    ensures EntriesOk(Next(s, st))
  {
    var s' := Next(s, st);
    forall id
      ensures id in s'.pending <==>
        id in s'.calls && Awaited(s'.calls[id].kind) && s'.calls[id].pc != Numbered &&
        (s'.calls[id].pc.Returned? ==> s'.calls[id].kind == Sync && s'.calls[id].pc.how == WaitError)
    {
      assert s'.pending.Keys == s.pending.Keys || st.Enter? || st.TakeReply? || st.DeleteEntry?;
    }
  }

  lemma PacketLater(s: State, s': State, p: Packet)
    requires Evolves(s, s') && PacketOk(s, p)
    ensures PacketOk(s', p)
  {
  }

  lemma UpPackets(s: State, st: Step, i: nat)
    requires PacketsOk(s) && CallsOk(s) && Enabled(s, st) && i < |Next(s, st).up|
    ensures PacketOk(Next(s, st), Next(s, st).up[i])
  {
    StepEvolves(s, st);
    var j := if st.ServerReceive? then i + 1 else i;
    if j < |s.up| {
      PacketLater(s, Next(s, st), s.up[j]);
    }
  }

  lemma PipePackets(s: State, st: Step, i: nat)
    requires PacketsOk(s) && CallsOk(s) && Enabled(s, st) && i < |Next(s, st).pipe|
    ensures PacketOk(Next(s, st), Next(s, st).pipe[i]) && Awaited(Next(s, st).pipe[i].kind)
  {
    StepEvolves(s, st);
    var j := if st.RunCallback? then i + 1 else i;
    PacketLater(s, Next(s, st), if j < |s.pipe| then s.pipe[j] else s.taken.value);
  }

  lemma RanCallbacks(s: State, st: Step, i: nat)
    requires PacketsOk(s) && CallsOk(s) && Enabled(s, st) && i < |Next(s, st).ran|
    ensures RunOk(Next(s, st), Next(s, st).ran[i])
  {
    StepEvolves(s, st);
    var p := if i < |s.ran| then Packet(s.ran[i].kind, s.ran[i].id, s.ran[i].payload) else s.pipe[0];
    assert i < |s.ran| ==> RunOk(s, s.ran[i]);
    PacketLater(s, Next(s, st), p);
  }

  lemma StepPackets(s: State, st: Step)
    requires Inv(s) && Enabled(s, st)
    ensures PacketsOk(Next(s, st))
  {
    var s' := Next(s, st);
    StepEvolves(s, st);
    forall i | 0 <= i < |s'.up| ensures PacketOk(s', s'.up[i]) {
      UpPackets(s, st, i);
    }
    forall i | 0 <= i < |s'.pipe| ensures PacketOk(s', s'.pipe[i]) && Awaited(s'.pipe[i].kind) {
      PipePackets(s, st, i);
    }
    forall i | 0 <= i < |s'.ran| ensures RunOk(s', s'.ran[i]) {
      RanCallbacks(s, st, i);
    }
    if s'.taken.Some? {
      PacketLater(s, s', if st.ServerReceive? then s.up[0] else s.taken.value);
    }
  }

  lemma AnswersLater(s: State, s': State, r: Reply)
    requires Evolves(s, s') && Answers(s, r)
    ensures Answers(s', r)
  {
  }

  /** What the server puts on the wire answers a request. */
  lemma NewReplies(s: State, st: Step)
    requires Inv(s) && Enabled(s, st)
    ensures forall i :: 0 <= i < |Next(s, st).down| ==> Answers(Next(s, st), Next(s, st).down[i])
  {
    var s' := Next(s, st);
    StepEvolves(s, st);
    forall i | 0 <= i < |s'.down| ensures Answers(s', s'.down[i]) {
      var j := if st.Receive? then i + 1 else i;
      if j < |s.down| {
        AnswersLater(s, s', s.down[j]);
      } else if st.ServerReceive? {
        assert PacketOk(s, s.up[0]);
      } else {
        assert RunOk(s, s.answer.value) by {
          var k :| 0 <= k < |s.ran| && s.ran[k] == s.answer.value;
        }
      }
    }
  }

  lemma PendingReplies(s: State, st: Step, id: nat)
    requires RepliesOk(s) && CallsOk(s) && Enabled(s, st) && id in Next(s, st).pending && Next(s, st).pending[id].Some?
    ensures var r := Next(s, st).pending[id].value; r.ackId == id && Answers(Next(s, st), r)
  {
    var s' := Next(s, st);
    StepEvolves(s, st);
    if st.Receive? && s'.pending != s.pending && id == s.down[0].ackId {
      AnswersLater(s, s', s.down[0]);
    } else {
      AnswersLater(s, s', s.pending[id].value);
    }
  }

  lemma ReturnedReplies(s: State, st: Step, id: nat)
    requires RepliesOk(s) && CallsOk(s) && Enabled(s, st) && id in Next(s, st).calls
    requires Next(s, st).calls[id].pc.Returned? && Next(s, st).calls[id].pc.how.Got?
    ensures var r := Next(s, st).calls[id].pc.how.reply; r.ackId == id && Answers(Next(s, st), r)
  {
    var s' := Next(s, st);
    StepEvolves(s, st);
    if st == TakeReply(id) {
      AnswersLater(s, s', s.pending[id].value);
    } else {
      AnswersLater(s, s', s.calls[id].pc.how.reply);
    }
  }

  lemma StepReplies(s: State, st: Step)
    requires Inv(s) && Enabled(s, st)
    ensures RepliesOk(Next(s, st))
  {
    var s' := Next(s, st);
    NewReplies(s, st);
    forall id | id in s'.pending && s'.pending[id].Some?
      ensures s'.pending[id].value.ackId == id && Answers(s', s'.pending[id].value)
    {
      PendingReplies(s, st, id);
    }
    forall id | id in s'.calls && s'.calls[id].pc.Returned? && s'.calls[id].pc.how.Got?
      ensures s'.calls[id].pc.how.reply.ackId == id && Answers(s', s'.calls[id].pc.how.reply)
    {
      ReturnedReplies(s, st, id);
    }
  }

  lemma IdsSnoc(ps: seq<Packet>, p: Packet)
    ensures Ids(ps + [p]) == Ids(ps) + [p.id]
  {
  }

  lemma IdsCons(ps: seq<Packet>)
    requires ps != []
    ensures Ids(ps) == [ps[0].id] + Ids(ps[1..])
  {
  }

  /**
   How the requests under way change: a new one comes behind when it is sent; one drops out
   when it is lost on the pipe, or received and of no further use; otherwise they stay.
   */
  ghost predicate FlightStep(s: State, f: seq<nat>, f': seq<nat>, st: Step) {
    match st
    case Send(id, lost) => f' == if lost then f else f + [id]
    case ServerReceive(_) => s.up != [] && if Awaited(s.up[0].kind) then f' == f else DropsOne(f, f')
    case ServerPipe(lost) => if lost then DropsOne(f, f') else f' == f
    case _ => f' == f
  }

  ghost predicate DropsOne(f: seq<nat>, f': seq<nat>) {
    exists i :: 0 <= i < |f| && f' == Without(f, i)
  }

  lemma DropsMiddle(a: seq<nat>, x: nat, b: seq<nat>)
    ensures DropsOne(a + [x] + b, a + b)
  {
    assert a + b == Without(a + [x] + b, |a|);
  }

  lemma FlightReceive(s: State, lost: bool)
    requires Enabled(s, ServerReceive(lost))
    ensures FlightStep(s, Flight(s), Flight(Next(s, ServerReceive(lost))), ServerReceive(lost))
  {
    var f' := Flight(Next(s, ServerReceive(lost)));
    var ahead, id, rest := RunIds(s.ran) + Ids(s.pipe), s.up[0].id, Ids(s.up[1..]);
    IdsCons(s.up);
    Regroup(ahead, [id], rest);
    assert Flight(s) == ahead + [id] + rest by {
      assert ahead + [] == ahead;
    }
    if Awaited(s.up[0].kind) {
      assert f' == ahead + [id] + rest;
    } else {
      assert f' == ahead + rest by {
        assert ahead + [] == ahead;
      }
      DropsMiddle(ahead, id, rest);
    }
  }

  lemma FlightPipe(s: State, lost: bool)
    requires Enabled(s, ServerPipe(lost))
    ensures FlightStep(s, Flight(s), Flight(Next(s, ServerPipe(lost))), ServerPipe(lost))
  {
    var f' := Flight(Next(s, ServerPipe(lost)));
    var ran, id, rest := RunIds(s.ran), s.taken.value.id, Ids(s.up);
    var ahead := ran + Ids(s.pipe);
    assert Flight(s) == ahead + [id] + rest;
    if lost {
      assert f' == ahead + rest by {
        assert ahead + [] == ahead;
      }
      DropsMiddle(ahead, id, rest);
    } else {
      IdsSnoc(s.pipe, s.taken.value);
      Regroup(ran, Ids(s.pipe), [id]);
      assert f' == ahead + [id] + rest by {
        assert ahead + [id] + [] == ahead + [id];
      }
    }
  }

  /** Requests move through the server in order: a step leaves them as they are, drops one, or adds a new one behind. */
  lemma FlightMoves(s: State, st: Step)
    requires Enabled(s, st)
    ensures FlightStep(s, Flight(s), Flight(Next(s, st)), st)
  {
    var s' := Next(s, st);
    var f, f' := Flight(s), Flight(s');
    match st {
      case Send(id, lost) =>
        if !lost {
          IdsSnoc(s.up, Packet(s.calls[id].kind, id, s.calls[id].payload));
          assert f' == f + [id];
        }
      case ServerReceive(lost) =>
        FlightReceive(s, lost);
      case ServerPipe(lost) =>
        FlightPipe(s, lost);
      case RunCallback(_) =>
        IdsCons(s.pipe);
        assert RunIds(s'.ran) == RunIds(s.ran) + [s.pipe[0].id];
        assert f' == f;
      case _ =>
        assert f' == f;
    }
  }

  lemma StepFlight(s: State, st: Step)
    requires Inv(s) && Enabled(s, st)
    ensures FlightOk(Next(s, st))
  {
    StepEvolves(s, st);
    FlightMoves(s, st);
    var f, f' := Flight(s), Flight(Next(s, st));
    if DropsOne(f, f') {
      var i :| 0 <= i < |f| && f' == Without(f, i);
      WithoutHolds(f, i);
    }
  }

  lemma StepInv(s: State, st: Step)
    requires Inv(s) && Enabled(s, st)
    ensures Inv(Next(s, st))
  {
    StepPackets(s, st);
    StepFlight(s, st);
    StepReplies(s, st);
    StepEntries(s, st);
    StepCalls(s, st);
  }

  // ---------------------------------------------------------------- runs

  ghost predicate Legal(s: State, sts: seq<Step>)
    decreases |sts|
  {
    sts == [] || (Enabled(s, sts[0]) && Legal(Next(s, sts[0]), sts[1..]))
  }

  ghost function Run(s: State, sts: seq<Step>): State
    requires Legal(s, sts)
    decreases |sts|
  {
    if sts == [] then s else Run(Next(s, sts[0]), sts[1..])
  }

  lemma {:induction false} RunInv(s: State, sts: seq<Step>)
    requires Inv(s) && Legal(s, sts)
    ensures Inv(Run(s, sts))
    decreases |sts|
  {
    if sts != [] {
      StepInv(s, sts[0]);
      RunInv(Next(s, sts[0]), sts[1..]);
    }
  }

  /** The call with number `id` is over and returned 0. */
  predicate Succeeded(s: State, id: nat) {
    id in s.calls && s.calls[id].pc.Returned? && s.calls[id].pc.how.Got?
  }

  /**
   In every reachable state, a call that returned 0 consumed an acknowledgement of
   its own number, sent for its own request: an asynchronous request was received
   by the server, and a synchronous one returned what the callback gave back for
   its payload in the only run of the callback for it.
   */
  lemma AckSafety(first: nat, sts: seq<Step>, id: nat)
    requires Legal(Init(first), sts) && Succeeded(Run(Init(first), sts), id)
    ensures var s := Run(Init(first), sts);
            var c, r := s.calls[id], s.calls[id].pc.how.reply;
            r.ackId == id && r.kind == c.kind &&
            (c.kind == Async ==> id in s.accepted) &&
            (c.kind == Sync ==>
               CallbackRun(Sync, id, c.payload, r.bytes) in s.ran &&
               forall run :: run in s.ran && run.id == id ==> run == CallbackRun(Sync, id, c.payload, r.bytes))
  {
    var s := Run(Init(first), sts);
    InitInv(first);
    RunInv(Init(first), sts);
    var c, r := s.calls[id], s.calls[id].pc.how.reply;
    if c.kind == Sync {
      forall run | run in s.ran && run.id == id ensures run == CallbackRun(Sync, id, c.payload, r.bytes) {
        OneRun(s, run, CallbackRun(Sync, id, c.payload, r.bytes));
      }
    }
  }

  /** The callback runs at most once for a number. */
  lemma OneRun(s: State, a: CallbackRun, b: CallbackRun)
    requires FlightOk(s) && a in s.ran && b in s.ran && a.id == b.id
    ensures a == b
  {
    var i :| 0 <= i < |s.ran| && s.ran[i] == a;
    var j :| 0 <= j < |s.ran| && s.ran[j] == b;
    assert Flight(s)[i] == a.id && Flight(s)[j] == b.id;
  }

  /** No acknowledgement is consumed by two calls: the numbers they bear differ. */
  lemma NoSharedAck(first: nat, sts: seq<Step>, id: nat, id': nat)
    requires Legal(Init(first), sts) && id != id'
    requires Succeeded(Run(Init(first), sts), id) && Succeeded(Run(Init(first), sts), id')
    ensures var s := Run(Init(first), sts); s.calls[id].pc.how.reply.ackId != s.calls[id'].pc.how.reply.ackId
  {
    AckSafety(first, sts, id);
    AckSafety(first, sts, id');
  }

  /** A waiting call always finds its entry: the error for a missing one cannot happen. */
  lemma EntryFound(first: nat, sts: seq<Step>, id: nat)
    requires Legal(Init(first), sts)
    ensures !Enabled(Run(Init(first), sts), NoEntry(id))
  {
    InitInv(first);
    RunInv(Init(first), sts);
  }

  /**
   A call that is over leaves no entry in the client's hash, with one exception: a
   synchronous call whose wait failed leaves its entry behind, and always does.
   */
  lemma LeftBehind(first: nat, sts: seq<Step>, id: nat)
    requires Legal(Init(first), sts)
    requires id in Run(Init(first), sts).calls && Run(Init(first), sts).calls[id].pc.Returned?
    ensures var s := Run(Init(first), sts);
            id in s.pending <==> s.calls[id].kind == Sync && s.calls[id].pc.how == WaitError
  {
    InitInv(first);
    RunInv(Init(first), sts);
  }

  // ---------------------------------------------------------------- what is awaited arrives

  /** A message that is awaited is stored under its number; any other changes nothing but the wire. */
  lemma ReceiveStores(s: State)
    requires s.down != []
    ensures var r, s' := s.down[0], Next(s, Receive);
            s'.pending == (if (r.kind == Async || r.kind == Sync) && r.ackId in s.pending
                           then s.pending[r.ackId := Some(r)] else s.pending) &&
            s' == s.(down := s.down[1..], pending := s'.pending)
  {
  }

  /** A waiting call whose acknowledgement is received can take it then, and returns the very message. */
  lemma ReceivedIsTaken(s: State)
    requires Inv(s) && s.down != [] && At(s, s.down[0].ackId, Sent) && Awaited(s.calls[s.down[0].ackId].kind)
    ensures var r, s' := s.down[0], Next(s, Receive);
            Enabled(s', TakeReply(r.ackId)) && At(Next(s', TakeReply(r.ackId)), r.ackId, Returned(Got(r))) &&
            r.ackId !in Next(s', TakeReply(r.ackId)).pending
  {
    assert Answers(s, s.down[0]);
  }

  lemma {:induction false} RunJoin(s: State, a: seq<Step>, b: seq<Step>)
    requires Legal(s, a) && Legal(Run(s, a), b)
    ensures Legal(s, a + b) && Run(s, a + b) == Run(Run(s, a), b)
    decreases |a|
  {
    if a == [] {
      assert a + b == b;
    } else {
      RunJoin(Next(s, a[0]), a[1..], b);
      assert (a + b)[1..] == a[1..] + b;
    }
  }

  lemma RunOne(s: State, st: Step)
    requires Enabled(s, st)
    ensures Legal(s, [st]) && Run(s, [st]) == Next(s, st)
  {
    assert [st][1..] == [];
  }

  lemma RunThree(s: State, a: Step, b: Step, c: Step)
    requires Enabled(s, a) && Enabled(Next(s, a), b) && Enabled(Next(Next(s, a), b), c)
    ensures Legal(s, [a, b, c]) && Run(s, [a, b, c]) == Next(Next(Next(s, a), b), c)
  {
    RunOne(s, a);
    RunOne(Next(s, a), b);
    RunOne(Next(Next(s, a), b), c);
    RunJoin(s, [a], [b]);
    assert [a] + [b] == [a, b];
    RunJoin(s, [a, b], [c]);
    assert [a, b] + [c] == [a, b, c];
  }

  /** Nothing is on its way. */
  predicate Quiet(s: State) {
    s.up == [] && s.taken.None? && s.pipe == [] && s.answer.None? && s.down == []
  }

  function Asking(id: nat, kind: Kind, payload: Bytes): seq<Step> {
    [Begin(kind, payload), Enter(id), Send(id, false)]
  }

  /** A call of which nothing is lost, up to the packet on the wire. */
  lemma Asked(s: State, kind: Kind, payload: Bytes)
    requires Inv(s) && Quiet(s) && s.next !in s.calls && Awaited(kind)
    ensures Legal(s, Asking(s.next, kind, payload))
    ensures Run(s, Asking(s.next, kind, payload)) ==
            s.(next := NextSeq(s.next), calls := s.calls[s.next := Call(kind, payload, Sent)],
               pending := s.pending[s.next := None], up := [Packet(kind, s.next, payload)])
  {
    var id := s.next;
    var s1 := Next(s, Begin(kind, payload));
    var s2 := Next(s1, Enter(id));
    RunThree(s, Begin(kind, payload), Enter(id), Send(id, false));
    assert s2.calls[id := s2.calls[id].(pc := Sent)] == s.calls[id := Call(kind, payload, Sent)];
    assert s2.up + [Packet(kind, id, payload)] == [Packet(kind, id, payload)];
  }

  function AsyncRun(id: nat, payload: Bytes): seq<Step> {
    Asking(id, Async, payload) + [ServerReceive(false), Receive, TakeReply(id)]
  }

  /**
   From every reachable state in which nothing is on its way, an asynchronous call
   of which nothing is lost succeeds, as soon as the server has received it.
   */
  lemma AsyncSucceeds(s: State, payload: Bytes)
    requires Inv(s) && Quiet(s) && s.next !in s.calls
    ensures Legal(s, AsyncRun(s.next, payload))
    ensures var r := Run(s, AsyncRun(s.next, payload));
            At(r, s.next, Returned(Got(Reply(Async, s.next, [])))) && s.next !in r.pending &&
            r.taken == Some(Packet(Async, s.next, payload))
  {
    var id := s.next;
    Asked(s, Async, payload);
    var s3 := Run(s, Asking(id, Async, payload));
    var s4 := Next(s3, ServerReceive(false));
    assert s4.down == [Reply(Async, id, [])];
    RunThree(s3, ServerReceive(false), Receive, TakeReply(id));
    RunJoin(s, Asking(id, Async, payload), [ServerReceive(false), Receive, TakeReply(id)]);
  }

  function Calling(returned: Bytes): seq<Step> {
    [ServerReceive(false), ServerPipe(false), RunCallback(returned)]
  }

  /** A packet alone on its way, up to the callback. */
  lemma Called(s: State, p: Packet, returned: Bytes)
    requires s.up == [p] && p.kind == Sync && Quiet(s.(up := []))
    ensures Legal(s, Calling(returned))
    ensures var run := CallbackRun(Sync, p.id, p.payload, returned);
            Run(s, Calling(returned)) == s.(up := [], answer := Some(run), ran := s.ran + [run])
  {
    var s1 := Next(s, ServerReceive(false));
    var s2 := Next(s1, ServerPipe(false));
    assert s1 == s.(up := [], taken := Some(p));
    assert s2 == s.(up := [], pipe := [p]);
    RunThree(s, ServerReceive(false), ServerPipe(false), RunCallback(returned));
  }

  function Answering(id: nat): seq<Step> {
    [ServerAnswer(false), Receive, TakeReply(id)]
  }

  /** What the callback returned, up to the call that waits for it. */
  lemma Answered(s: State, run: CallbackRun)
    requires s.answer == Some(run) && run.kind == Sync && Quiet(s.(answer := None))
    requires At(s, run.id, Sent) && s.calls[run.id].kind == Sync && run.id in s.pending
    ensures Legal(s, Answering(run.id))
    ensures Run(s, Answering(run.id)) ==
            SetPc(s, run.id, Returned(Got(Reply(Sync, run.id, run.returned)))).(answer := None,
                                                                                 pending := s.pending - {run.id})
  {
    var r := Reply(Sync, run.id, run.returned);
    var s1 := Next(s, ServerAnswer(false));
    var s2 := Next(s1, Receive);
    assert s1 == s.(answer := None, down := [r]);
    assert s2 == s.(answer := None, pending := s.pending[run.id := Some(r)]);
    RunThree(s, ServerAnswer(false), Receive, TakeReply(run.id));
    assert s.pending[run.id := Some(r)] - {run.id} == s.pending - {run.id};
  }

  function SyncRun(id: nat, payload: Bytes, returned: Bytes): seq<Step> {
    Asking(id, Sync, payload) + Calling(returned) + Answering(id)
  }

  /**
   From every such state, a synchronous call of which nothing is lost succeeds with the
   bytes that the callback returned for its payload.
   */
  lemma SyncSucceeds(s: State, payload: Bytes, returned: Bytes)
    requires Inv(s) && Quiet(s) && s.next !in s.calls
    ensures Legal(s, SyncRun(s.next, payload, returned))
    ensures var r := Run(s, SyncRun(s.next, payload, returned));
            At(r, s.next, Returned(Got(Reply(Sync, s.next, returned)))) && s.next !in r.pending && Quiet(r) &&
            r.ran == s.ran + [CallbackRun(Sync, s.next, payload, returned)]
  {
    var id := s.next;
    Asked(s, Sync, payload);
    var s1 := Run(s, Asking(id, Sync, payload));
    Called(s1, Packet(Sync, id, payload), returned);
    RunJoin(s, Asking(id, Sync, payload), Calling(returned));
    Answered(Run(s1, Calling(returned)), CallbackRun(Sync, id, payload, returned));
    RunJoin(s, Asking(id, Sync, payload) + Calling(returned), Answering(id));
  }

  /** The exception does happen: a synchronous call that times out at once. */
  lemma LeftBehindHappens()
    ensures exists sts :: Legal(Init(Wire.SEQ_ID_MIN), sts) &&
                          Wire.SEQ_ID_MIN in Run(Init(Wire.SEQ_ID_MIN), sts).pending &&
                          At(Run(Init(Wire.SEQ_ID_MIN), sts), Wire.SEQ_ID_MIN, Returned(WaitError))
  {
    var id := Wire.SEQ_ID_MIN;
    var s0 := Init(id);
    var s1 := Next(s0, Begin(Sync, []));
    var s2 := Next(s1, Enter(id));
    var s3 := Next(s2, Send(id, true));
    var s4 := Next(s3, WaitFails(id));
    var d: seq<Step> := [WaitFails(id)];
    var c: seq<Step> := [Send(id, true)] + d;
    var b: seq<Step> := [Enter(id)] + c;
    var a: seq<Step> := [Begin(Sync, [])] + b;
    assert d[1..] == [] && c[1..] == d && b[1..] == c && a[1..] == b;
    assert Legal(s4, []) && Run(s4, []) == s4;
    assert Legal(s3, d) && Run(s3, d) == s4;
    assert Legal(s2, c) && Run(s2, c) == s4;
    assert Legal(s1, b) && Run(s1, b) == s4;
    assert Legal(s0, a) && Run(s0, a) == s4;
  }
}

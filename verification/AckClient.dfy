/**
 The client's side of requests as an object: its sequence counter and its hash of
 awaited acknowledgements, one method for each hold of a mutex, each tied to a step
 of the protocol.
 */
module AckClient {
  import opened Options
  import opened AckProtocol

  /** One look at the hash while waiting: no entry, nothing yet, the wait is given up, or the message. */
  datatype Looked = Missing | Waiting | Failed | Acked(reply: Reply)

  class Client {
    var seqId: nat
    var ackHash: map<nat, Option<Reply>>
    ghost var view: State // the same, and the rest of the system

    ghost predicate Valid()
      reads this
    {
      seqId == view.next && ackHash == view.pending
    }

    constructor (first: nat)
      ensures Valid() && view == Init(first) && Inv(view)
    {
      seqId := if first < Wire.SEQ_ID_MIN then Wire.SEQ_ID_MIN else first;
      ackHash := map[];
      view := Init(first);
      InitInv(first);
    }

    method NextSeqId(ghost kind: Kind, ghost payload: Bytes) returns (next: nat)
      requires Valid() && Inv(view) && Enabled(view, Begin(kind, payload))
      modifies this
      ensures Valid() && Inv(view) && view == Next(old(view), Begin(kind, payload))
      ensures next == old(seqId) && Wire.SEQ_ID_MIN <= next
      ensures old(seqId) + 1 < SEQ_ID_MOD ==> seqId == old(seqId) + 1
      ensures old(seqId) + 1 == SEQ_ID_MOD ==> seqId == Wire.SEQ_ID_MIN
    {
      StepInv(view, Begin(kind, payload));
      next := seqId;
      seqId := (seqId + 1) % SEQ_ID_MOD;
      if seqId < Wire.SEQ_ID_MIN {
        seqId := Wire.SEQ_ID_MIN;
      }
      view := Next(view, Begin(kind, payload));
    }

    method InsertSeq(id: nat)
      requires Valid() && Inv(view) && Enabled(view, Enter(id))
      modifies this
      ensures Valid() && Inv(view) && view == Next(old(view), Enter(id)) && ackHash == old(ackHash)[id := None]
    {
      StepInv(view, Enter(id));
      ackHash := ackHash[id := None];
      view := Next(view, Enter(id));
    }

    method DeleteSeq(id: nat)
      requires Valid() && Inv(view) && Enabled(view, DeleteEntry(id))
      modifies this
      ensures Valid() && Inv(view) && view == Next(old(view), DeleteEntry(id)) && ackHash == old(ackHash) - {id}
    {
      StepInv(view, DeleteEntry(id));
      ackHash := ackHash - {id};
      view := Next(view, DeleteEntry(id));
    }

    /** The receiver with a message of the server in hand; one that nobody awaits is dropped. */
    method HandleReply(r: Reply)
      requires Valid() && Inv(view) && view.down != [] && r == view.down[0]
      modifies this
      ensures Valid() && Inv(view) && view == Next(old(view), Receive)
      ensures ackHash == if (r.kind == Async || r.kind == Sync) && r.ackId in old(ackHash)
                         then old(ackHash)[r.ackId := Some(r)] else old(ackHash)
    {
      StepInv(view, Receive);
      view := Next(view, Receive);
      if Awaited(r.kind) {
        if r.ackId in ackHash {
          ackHash := ackHash[r.ackId := Some(r)];
        }
      }
    }

    /**
     A waiting call that holds the mutex: `failed` tells that the wait has just timed
     out. What it takes out of the hash answers its own request.
     */
    method LookForAck(id: nat, failed: bool) returns (r: Looked)
      requires Valid() && Inv(view) && At(view, id, Sent) && Awaited(view.calls[id].kind)
      modifies this
      ensures Valid() && Inv(view) && !r.Missing?
      ensures r.Waiting? <==> !failed && old(ackHash)[id].None?
      ensures r.Waiting? ==> view == old(view)
      ensures r.Failed? <==> failed
      ensures r.Failed? ==> view == Next(old(view), WaitFails(id)) && ackHash == old(ackHash)
      ensures r.Acked? ==> view == Next(old(view), TakeReply(id)) && ackHash == old(ackHash) - {id}
      ensures r.Acked? ==> old(ackHash)[id] == Some(r.reply) && r.reply.ackId == id && Answers(old(view), r.reply)
    {
      if id !in ackHash {
        assert false;
        return Missing;
      }
      if failed {
        StepInv(view, WaitFails(id));
        view := Next(view, WaitFails(id));
        return Failed;
      }
      if ackHash[id].None? {
        return Waiting;
      }
      StepInv(view, TakeReply(id));
      r := Acked(ackHash[id].value);
      ackHash := ackHash - {id};
      view := Next(view, TakeReply(id));
    }
  }
}

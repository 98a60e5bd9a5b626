/** Properties promised by the documentation of the message system calls, relating several
    calls: the oldest wanted message comes first, a message too big for the buffer is not
    skipped, an emitted body arrives unchanged at the handler, an answer arrives once, and a
    cancelled message is never answered. */
module SyscallProperties {
  import opened Wrappers
  import opened Types
  import opened IoVec
  import opened Syscalls

  /** At most one message is next: the oldest wanted message and its first asking entry. */
  lemma {:induction false} IsNextUnique(queue: seq<Queued>, toPoll: seq<u64>, q1: nat, e1: nat, q2: nat, e2: nat)
    requires IsNext(queue, toPoll, q1, e1) && IsNext(queue, toPoll, q2, e2)
    ensures q1 == q2 && e1 == e2
  {
    assert Wanted(toPoll, queue[q1]) by { assert Matches(toPoll[e1], queue[q1]); }
    assert Wanted(toPoll, queue[q2]) by { assert Matches(toPoll[e2], queue[q2]); }
  }

  /** The message pulled is the oldest one the poll list asks for. */
  lemma OldestWantedFirst(queue: seq<Queued>, toPoll: seq<u64>, outLen: u32, block: bool, encode: Message -> seq<byte>, i: nat, ei: nat)
    requires |toPoll| < 0x1_0000_0000
    requires forall m :: |encode(m)| > 0
    requires IsNext(queue, toPoll, i, ei)
    requires |encode(ToMessage(queue[i], ei))| <= outLen
    ensures NextMessage(queue, toPoll, outLen, block, encode)
      == Returned(|encode(ToMessage(queue[i], ei))|, Some(encode(ToMessage(queue[i], ei))),
                  toPoll[ei := IGNORED], queue[..i] + queue[i + 1..])
  {
    var r := NextMessage(queue, toPoll, outLen, block, encode);
    assert Wanted(toPoll, queue[i]) by { assert Matches(toPoll[ei], queue[i]); }
    assert !r.Sleeping?;
    var qi: nat, e: nat :| IsNext(queue, toPoll, qi, e) && r.ret == |encode(ToMessage(queue[qi], e))|
      && (r.ret <= outLen ==>
            && r.written == Some(encode(ToMessage(queue[qi], e)))
            && r.toPoll == toPoll[e := IGNORED]
            && r.queue == queue[..qi] + queue[qi + 1..]);
    IsNextUnique(queue, toPoll, qi, e, i, ei);
  }

  /** No search for a message that fits: when the oldest wanted message does not fit, its
      length is returned and nothing changes, even if a later wanted message would fit. */
  lemma TooBigIsNotSkipped(queue: seq<Queued>, toPoll: seq<u64>, outLen: u32, block: bool, encode: Message -> seq<byte>, i: nat, ei: nat)
    requires |toPoll| < 0x1_0000_0000
    requires forall m :: |encode(m)| > 0
    requires IsNext(queue, toPoll, i, ei)
    requires |encode(ToMessage(queue[i], ei))| > outLen
    ensures NextMessage(queue, toPoll, outLen, block, encode)
      == Returned(|encode(ToMessage(queue[i], ei))|, None, toPoll, queue)
  {
    var r := NextMessage(queue, toPoll, outLen, block, encode);
    assert Wanted(toPoll, queue[i]) by { assert Matches(toPoll[ei], queue[i]); }
    assert !r.Sleeping?;
    var qi: nat, e: nat :| IsNext(queue, toPoll, qi, e) && r.ret == |encode(ToMessage(queue[qi], e))|;
    IsNextUnique(queue, toPoll, qi, e, i, ei);
  }

  /** A queue that has nothing the poll list wants, followed by one message it wants: that
      message is next. */
  lemma {:induction false} LastIsNext(queue: seq<Queued>, m: Queued, entry: u64)
    requires NoneWanted(queue, [entry])
    requires Matches(entry, m)
    ensures IsNext(queue + [m], [entry], |queue|, 0)
  {
    var q := queue + [m];
    forall j | 0 <= j < |queue|
      ensures !Wanted([entry], q[j])
    {
      assert q[j] == queue[j];
    }
  }

  /** A scatter list laid out at `|pre|` in memory yields exactly the gathered buffers as the
      message body. */
  lemma LaidOutBody(pre: seq<byte>, bufs: seq<Buf>, post: seq<byte>)
    requires |pre| < 0x1_0000_0000 && |bufs| < 0x1_0000_0000
    ensures MessageBody(pre + EncodeBufs(bufs) + post, |pre|, |bufs|) == Gather(pre + EncodeBufs(bufs) + post, bufs)
  {
    ReadBufsRoundTrip(pre, bufs, post);
  }

  /** Polling with one entry, when the only message it wants is the newest one: that
      message is pulled, the entry cleared, and the older messages stay as they were. */
  lemma ReceiveLast(queue: seq<Queued>, m: Queued, entry: u64, outLen: u32, block: bool, encode: Message -> seq<byte>)
    requires forall x :: |encode(x)| > 0
    requires NoneWanted(queue, [entry]) && Matches(entry, m)
    requires |encode(ToMessage(m, 0))| <= outLen
    ensures NextMessage(queue + [m], [entry], outLen, block, encode)
      == Returned(|encode(ToMessage(m, 0))|, Some(encode(ToMessage(m, 0))), [IGNORED], queue)
  {
    LastIsNext(queue, m, entry);
    OldestWantedFirst(queue + [m], [entry], outLen, block, encode, |queue|, 0);
    assert (queue + [m])[..|queue|] + (queue + [m])[|queue| + 1..] == queue;
  }

  /** A successful `emit_message` appends the message to the handler's queue. */
  lemma EmitQueues(
    k: Kernel, emitter: Pid, iface: InterfaceHash, mem: seq<byte>, bufsPtr: u32, bufsNum: u32,
    needsAnswer: bool, allowDelay: bool, freshId: MessageId)
    requires freshId !in k.awaiting && freshId != IGNORED && freshId != INTERFACE_OR_DESTROYED
    requires iface in k.handlers
    requires MessageBody(mem, bufsPtr, bufsNum).Some?
    ensures
      var id := if needsAnswer then Some(freshId) else None;
      var r := EmitMessage(k, emitter, iface, mem, bufsPtr, bufsNum, needsAnswer, allowDelay, freshId);
      && r == Emitted(0, id, r.kernel)
      && QueueOf(r.kernel, k.handlers[iface])
        == QueueOf(k, k.handlers[iface]) + [QueuedInterface(iface, id, emitter, MessageBody(mem, bufsPtr, bufsNum).value)]
  {
  }

  /** What the handler of `iface` receives after `emit_message`, when it polls with the
      single entry `INTERFACE_OR_DESTROYED` and had nothing else pending: the interface, the
      emitter, the id handed to the emitter, and the body gathered from the emitter's memory. */
  lemma EmitThenReceive(
    k: Kernel, emitter: Pid, iface: InterfaceHash, mem: seq<byte>, bufsPtr: u32, bufsNum: u32,
    needsAnswer: bool, allowDelay: bool, freshId: MessageId,
    outLen: u32, encode: Message -> seq<byte>)
    requires freshId !in k.awaiting && freshId != IGNORED && freshId != INTERFACE_OR_DESTROYED
    requires forall m :: |encode(m)| > 0
    requires iface in k.handlers
    requires NoneWanted(QueueOf(k, k.handlers[iface]), [INTERFACE_OR_DESTROYED])
    requires MessageBody(mem, bufsPtr, bufsNum).Some?
    requires
      var id := if needsAnswer then Some(freshId) else None;
      |encode(Interface(InterfaceMessage(iface, id, emitter, 0, MessageBody(mem, bufsPtr, bufsNum).value)))| <= outLen
    ensures
      var r := EmitMessage(k, emitter, iface, mem, bufsPtr, bufsNum, needsAnswer, allowDelay, freshId);
      && r == Emitted(0, if needsAnswer then Some(freshId) else None, r.kernel)
      && var got := NextMessage(QueueOf(r.kernel, k.handlers[iface]), [INTERFACE_OR_DESTROYED], outLen, true, encode);
      && got.Returned?
      && got.written == Some(encode(Interface(InterfaceMessage(iface, r.idOut, emitter, 0, MessageBody(mem, bufsPtr, bufsNum).value))))
      && got.toPoll == [IGNORED]
      && got.queue == QueueOf(k, k.handlers[iface])
  {
    var id := if needsAnswer then Some(freshId) else None;
    EmitQueues(k, emitter, iface, mem, bufsPtr, bufsNum, needsAnswer, allowDelay, freshId);
    var m := QueuedInterface(iface, id, emitter, MessageBody(mem, bufsPtr, bufsNum).value);
    ReceiveLast(QueueOf(k, k.handlers[iface]), m, INTERFACE_OR_DESTROYED, outLen, true, encode);
  }

  /** An answer reaches the emitter once: polling with the message's id yields the response,
      the entry is cleared, and polling again without blocking finds nothing. */
  lemma AnswerReceivedOnce(k: Kernel, id: MessageId, answer: Result<seq<byte>, ()>, outLen: u32, encode: Message -> seq<byte>)
    requires forall m :: |encode(m)| > 0
    requires id != IGNORED && id != INTERFACE_OR_DESTROYED
    requires id in k.awaiting
    requires NoneWanted(QueueOf(k, k.awaiting[id]), [id])
    requires |encode(Response(ResponseMessage(id, 0, answer)))| <= outLen
    ensures Answer(k, id, answer).Success?
    ensures
      var emitter := k.awaiting[id];
      var got := NextMessage(QueueOf(Answer(k, id, answer).value, emitter), [id], outLen, true, encode);
      && got.Returned?
      && got.written == Some(encode(Response(ResponseMessage(id, 0, answer))))
      && got.toPoll == [IGNORED]
      && got.queue == QueueOf(k, emitter)
      && NextMessage(got.queue, [id], outLen, false, encode) == Returned(0, None, [id], got.queue)
    ensures Answer(Answer(k, id, answer).value, id, answer) == Failure(UnknownMessage)
  {
    var emitter := k.awaiting[id];
    var queue := QueueOf(k, emitter);
    var m := QueuedResponse(id, answer);
    assert QueueOf(Answer(k, id, answer).value, emitter) == queue + [m];
    ReceiveLast(queue, m, id, outLen, true, encode);
  }

  /** After `cancel_message`, the message is never answered to its emitter: answering it
      fails, and polling for its id finds nothing. */
  lemma CancelledNeverAnswered(k: Kernel, caller: Pid, id: MessageId, answer: Result<seq<byte>, ()>, outLen: u32, encode: Message -> seq<byte>)
    requires forall m :: |encode(m)| > 0
    requires id != IGNORED && id != INTERFACE_OR_DESTROYED
    requires id in k.awaiting && k.awaiting[id] == caller
    ensures Answer(CancelMessage(k, caller, id), id, answer) == Failure(UnknownMessage)
    ensures
      var q := QueueOf(CancelMessage(k, caller, id), caller);
      NextMessage(q, [id], outLen, false, encode) == Returned(0, None, [id], q)
  {
    var k' := CancelMessage(k, caller, id);
    var q := QueueOf(k', caller);
    assert !StillAwaited(k', caller, id);
    forall j | 0 <= j < |q|
      ensures !Wanted([id], q[j])
    {
      assert !AnswersTo(q[j], id);
      assert !Matches([id][0], q[j]);
    }
  }
}

/** The message-passing system calls a process uses, as their documentation states them: the
    wire messages a process receives, the queue `next_message` pulls from with a poll list,
    and the kernel bookkeeping behind `emit_message`, `emit_answer`, `emit_message_error` and
    `cancel_message`.

    The kernel's implementation of these calls is not part of this model; the functions below
    are a reference reading of their documented behaviour. The message encoding is a
    parameter (`encode`), and the id the kernel allocates for a new message is an input. */
module Syscalls {
  import opened Wrappers
  import opened Seqs
  import opened Types
  import IoVec

  /** A message received on one of the process's interfaces. `messageId` is `None` exactly
      when the emitter expects no answer. */
  datatype InterfaceMessage = InterfaceMessage(
    interface: InterfaceHash,
    messageId: Option<MessageId>,
    emitterPid: Pid,
    indexInList: u32,
    actualData: seq<byte>)

  /** A process that emitted on one of our interfaces has stopped. */
  datatype ProcessDestroyedMessage = ProcessDestroyedMessage(pid: Pid, indexInList: u32)

  /** The answer to a message we emitted; `Failure(())` when the handler crashed or marked
      the message invalid. */
  datatype ResponseMessage = ResponseMessage(messageId: MessageId, indexInList: u32, actualData: Result<seq<byte>, ()>)

  datatype Message =
    | Interface(interfaceMessage: InterfaceMessage)
    | Response(responseMessage: ResponseMessage)
    | ProcessDestroyed(destroyedMessage: ProcessDestroyedMessage)

  /** A message waiting in a process's queue; its index in the poll list is attached when it
      is pulled. */
  datatype Queued =
    | QueuedInterface(interface: InterfaceHash, answerId: Option<MessageId>, emitterPid: Pid, data: seq<byte>)
    | QueuedResponse(messageId: MessageId, answer: Result<seq<byte>, ()>)
    | QueuedDestroyed(pid: Pid)

  /** A poll-list entry that is ignored. */
  const IGNORED: u64 := 0

  /** A poll-list entry standing for "an interface message or a process-destroyed message". */
  const INTERFACE_OR_DESTROYED: u64 := 1

  /** Poll-list entry `entry` asks for message `m`: any other entry is the id of a message
      whose response is awaited. */
  predicate Matches(entry: u64, m: Queued)
  {
    if entry == IGNORED then false
    else if entry == INTERFACE_OR_DESTROYED then m.QueuedInterface? || m.QueuedDestroyed?
    else m.QueuedResponse? && m.messageId == entry
  }

  /** Some entry of the poll list asks for `m`. */
  predicate Wanted(toPoll: seq<u64>, m: Queued)
  {
    exists e | 0 <= e < |toPoll| :: Matches(toPoll[e], m)
  }

  /** No queued message is asked for by the poll list. */
  predicate NoneWanted(queue: seq<Queued>, toPoll: seq<u64>)
  {
    forall j | 0 <= j < |queue| :: !Wanted(toPoll, queue[j])
  }

  /** The message at `qi` is the oldest one the poll list asks for, and `ei` is the first
      entry asking for it. */
  predicate IsNext(queue: seq<Queued>, toPoll: seq<u64>, qi: nat, ei: nat)
  {
    && qi < |queue| && ei < |toPoll|
    && Matches(toPoll[ei], queue[qi])
    && (forall e | 0 <= e < ei :: !Matches(toPoll[e], queue[qi]))
    && (forall j | 0 <= j < qi :: !Wanted(toPoll, queue[j]))
  }

  /** The wire message for queued message `m` pulled through poll-list entry `index`. */
  function ToMessage(m: Queued, index: u32): Message
  {
    match m
    case QueuedInterface(i, id, pid, data) => Interface(InterfaceMessage(i, id, pid, index, data))
    case QueuedResponse(id, answer) => Response(ResponseMessage(id, index, answer))
    case QueuedDestroyed(pid) => ProcessDestroyed(ProcessDestroyedMessage(pid, index))
  }

  /** What a call to `next_message` does: it either puts the thread to sleep or returns a
      value, possibly having written the encoded message, cleared its poll-list entry and
      taken it off the queue. */
  datatype NextOutcome =
    | Sleeping
    | Returned(ret: nat, written: Option<seq<byte>>, toPoll: seq<u64>, queue: seq<Queued>)

  /** First poll-list entry asking for `m`. */
  function EntryFor(toPoll: seq<u64>, m: Queued): (r: Option<nat>)
    ensures r.None? <==> !Wanted(toPoll, m)
    ensures r.Some? ==> r.value < |toPoll| && Matches(toPoll[r.value], m)
    ensures r.Some? ==> forall e | 0 <= e < r.value :: !Matches(toPoll[e], m)
  {
    FirstIndex(toPoll, (e: u64) => Matches(e, m))
  }

  /** `next_message`. The oldest message the poll list asks for is the only candidate: if it
      does not fit in `outLen` bytes its length is returned and nothing changes (no later
      message is looked at); if it fits it is written, its entry is set to `IGNORED` and it
      leaves the queue. With nothing to pull, a blocking call sleeps and a non-blocking call
      returns 0. */
  function NextMessage(queue: seq<Queued>, toPoll: seq<u64>, outLen: u32, block: bool, encode: Message -> seq<byte>): (r: NextOutcome)
    requires |toPoll| < 0x1_0000_0000
    requires forall m :: |encode(m)| > 0
    ensures r.Sleeping? <==> block && NoneWanted(queue, toPoll)
    ensures block ==> r.Sleeping? || r.ret != 0
    ensures r.Returned? && r.ret == 0 ==> r.written.None? && r.toPoll == toPoll && r.queue == queue && NoneWanted(queue, toPoll)
    ensures r.Returned? && r.ret > outLen ==> r.written.None? && r.toPoll == toPoll && r.queue == queue
    ensures r.Returned? && 0 < r.ret <= outLen ==> r.written.Some? && |r.written.value| == r.ret
    ensures r.Returned? && r.ret != 0 ==> exists qi: nat, ei: nat | IsNext(queue, toPoll, qi, ei) ::
      && r.ret == |encode(ToMessage(queue[qi], ei))|
      && (r.ret <= outLen ==>
            && r.written == Some(encode(ToMessage(queue[qi], ei)))
            && r.toPoll == toPoll[ei := IGNORED]
            && r.queue == queue[..qi] + queue[qi + 1..])
  {
    match FirstIndex(queue, (m: Queued) => EntryFor(toPoll, m).Some?)
    case None => if block then Sleeping else Returned(0, None, toPoll, queue)
    case Some(qi) =>
      var ei := EntryFor(toPoll, queue[qi]).value;
      var bytes := encode(ToMessage(queue[qi], ei));
      if |bytes| > outLen then Returned(|bytes|, None, toPoll, queue)
      else Returned(|bytes|, Some(bytes), toPoll[ei := IGNORED], queue[..qi] + queue[qi + 1..])
  }

  /** The kernel state behind the calls: who handles each interface, each process's queue,
      and, for every message still awaiting an answer, the process that emitted it. */
  datatype Kernel = Kernel(handlers: map<InterfaceHash, Pid>, queues: map<Pid, seq<Queued>>, awaiting: map<MessageId, Pid>)

  function QueueOf(k: Kernel, pid: Pid): seq<Queued>
  {
    if pid in k.queues then k.queues[pid] else []
  }

  /** Appends `m` to the queue of `pid`. */
  function Enqueue(k: Kernel, pid: Pid, m: Queued): (r: Kernel)
    ensures QueueOf(r, pid) == QueueOf(k, pid) + [m]
    ensures forall p | p != pid :: QueueOf(r, p) == QueueOf(k, p)
    ensures r.handlers == k.handlers && r.awaiting == k.awaiting
  {
    k.(queues := k.queues[pid := QueueOf(k, pid) + [m]])
  }

  /** What a call to `emit_message` does: it blocks while a handler is lazily loaded, or
      returns 0 (success) or 1 (error), with the new message's id when one was asked for. */
  datatype EmitOutcome =
    | Delayed
    | Emitted(ret: u32, idOut: Option<MessageId>, kernel: Kernel)

  /** `emit_message` from process `emitter`: the body is gathered from the scatter list at
      `bufsPtr` in the emitter's memory `mem` and queued for the interface's handler.
      `freshId` is the id the kernel allocates when an answer is needed. */
  function EmitMessage(
    k: Kernel, emitter: Pid, iface: InterfaceHash, mem: seq<byte>, bufsPtr: u32, bufsNum: u32,
    needsAnswer: bool, allowDelay: bool, freshId: MessageId): (r: EmitOutcome)
    requires freshId !in k.awaiting && freshId != IGNORED && freshId != INTERFACE_OR_DESTROYED
    ensures r.Emitted? ==> r.ret == 0 || r.ret == 1
    ensures r.Emitted? ==> (r.idOut.Some? <==> r.ret == 0 && needsAnswer)
    ensures r.Emitted? && r.ret == 1 ==> r.kernel == k
    ensures r.Delayed? ==> allowDelay && iface !in k.handlers
    ensures !allowDelay && iface !in k.handlers ==> r == Emitted(1, None, k)
    ensures IoVec.MessageBody(mem, bufsPtr, bufsNum).None? ==> r == Emitted(1, None, k)
    ensures iface in k.handlers && IoVec.MessageBody(mem, bufsPtr, bufsNum).Some? ==> r.Emitted? && r.ret == 0
    ensures r.Emitted? && r.ret == 0 ==>
      && iface in k.handlers
      && IoVec.MessageBody(mem, bufsPtr, bufsNum).Some?
      && var handler := k.handlers[iface];
      && QueueOf(r.kernel, handler) == QueueOf(k, handler)
           + [QueuedInterface(iface, r.idOut, emitter, IoVec.MessageBody(mem, bufsPtr, bufsNum).value)]
      && (forall p | p != handler :: QueueOf(r.kernel, p) == QueueOf(k, p))
      && r.kernel.handlers == k.handlers
      && r.kernel.awaiting == (if needsAnswer then k.awaiting[freshId := emitter] else k.awaiting)
  {
    match IoVec.MessageBody(mem, bufsPtr, bufsNum)
    case None => Emitted(1, None, k)
    case Some(body) =>
      if iface !in k.handlers then
        if allowDelay then Delayed else Emitted(1, None, k)
      else
        var id := if needsAnswer then Some(freshId) else None;
        var k' := Enqueue(k, k.handlers[iface], QueuedInterface(iface, id, emitter, body));
        Emitted(0, id, if needsAnswer then k'.(awaiting := k'.awaiting[freshId := emitter]) else k')
  }

  datatype SyscallError = UnknownMessage

  /** Delivers `answer` to the emitter of message `id`, which stops awaiting it. */
  function Answer(k: Kernel, id: MessageId, answer: Result<seq<byte>, ()>): (r: Result<Kernel, SyscallError>)
    ensures r.Failure? <==> id !in k.awaiting
    ensures r.Success? ==>
      && var emitter := k.awaiting[id];
      && QueueOf(r.value, emitter) == QueueOf(k, emitter) + [QueuedResponse(id, answer)]
      && (forall p | p != emitter :: QueueOf(r.value, p) == QueueOf(k, p))
      && r.value.awaiting == k.awaiting - {id}
      && r.value.handlers == k.handlers
  {
    if id !in k.awaiting then Failure(UnknownMessage)
    else Success(Enqueue(k.(awaiting := k.awaiting - {id}), k.awaiting[id], QueuedResponse(id, answer)))
  }

  /** `emit_answer`: the handler's answer reaches the emitter as a successful response, and
      the message stops being awaited. */
  function EmitAnswer(k: Kernel, id: MessageId, msg: seq<byte>): (r: Result<Kernel, SyscallError>)
    ensures id in k.awaiting ==> r.Success? && QueueOf(r.value, k.awaiting[id]) == QueueOf(k, k.awaiting[id]) + [QueuedResponse(id, Success(msg))]
    ensures r.Failure? <==> id !in k.awaiting
    ensures r.Success? ==>
      && r.value.awaiting == k.awaiting - {id}
      && r.value.handlers == k.handlers
      && forall p | p != k.awaiting[id] :: QueueOf(r.value, p) == QueueOf(k, p)
  {
    Answer(k, id, Success(msg))
  }

  /** `emit_message_error`: the message is marked invalid; its emitter receives `Err`, and the
      message stops being awaited. */
  function EmitMessageError(k: Kernel, id: MessageId): (r: Result<Kernel, SyscallError>)
    ensures id in k.awaiting ==> r.Success? && QueueOf(r.value, k.awaiting[id]) == QueueOf(k, k.awaiting[id]) + [QueuedResponse(id, Failure(()))]
    ensures r.Failure? <==> id !in k.awaiting
    ensures r.Success? ==>
      && r.value.awaiting == k.awaiting - {id}
      && r.value.handlers == k.handlers
      && forall p | p != k.awaiting[id] :: QueueOf(r.value, p) == QueueOf(k, p)
  {
    Answer(k, id, Failure(()))
  }

  /** `m` is a response to message `id`. */
  predicate AnswersTo(m: Queued, id: MessageId)
  {
    m.QueuedResponse? && m.messageId == id
  }

  /** The queue without responses to message `id`, the other messages kept in their order. */
  function DropResponses(q: seq<Queued>, id: MessageId): (r: seq<Queued>)
    ensures forall j | 0 <= j < |r| :: !AnswersTo(r[j], id)
    ensures forall j | 0 <= j < |r| :: r[j] in q
    ensures forall m | m in q && !AnswersTo(m, id) :: m in r
    ensures |q| == 1 ==> r == if AnswersTo(q[0], id) then [] else q
    decreases |q|
  {
    if |q| == 0 then []
    else
      var rest := DropResponses(q[1..], id);
      if AnswersTo(q[0], id) then rest else [q[0]] + rest
  }

  /** Dropping distributes over concatenation: with the one-element case above, this makes
      `DropResponses` the order-preserving filter, which neither reorders, duplicates nor
      adds a message. */
  lemma {:induction false} DropResponsesAppend(a: seq<Queued>, b: seq<Queued>, id: MessageId)
    ensures DropResponses(a + b, id) == DropResponses(a, id) + DropResponses(b, id)
    decreases |a|
  {
    if |a| == 0 {
      assert a + b == b;
    } else {
      assert (a + b)[1..] == a[1..] + b;
      DropResponsesAppend(a[1..], b, id);
    }
  }

  /** Message `id` still has an answer on its way to `caller`: the caller awaits it, or a
      response to it sits in the caller's queue. */
  predicate StillAwaited(k: Kernel, caller: Pid, id: MessageId)
  {
    || (id in k.awaiting && k.awaiting[id] == caller)
    || exists j | 0 <= j < |QueueOf(k, caller)| :: AnswersTo(QueueOf(k, caller)[j], id)
  }

  /** `cancel_message` by `caller`: after it, no answer to `id` is on its way to the caller, and
      nothing belonging to another process or another message changes. */
  function CancelMessage(k: Kernel, caller: Pid, id: MessageId): (r: Kernel)
    ensures !StillAwaited(r, caller, id)
    ensures r.handlers == k.handlers
    ensures forall p | p != caller :: QueueOf(r, p) == QueueOf(k, p)
    ensures QueueOf(r, caller) == DropResponses(QueueOf(k, caller), id)
    ensures forall x | x != id :: (x in r.awaiting <==> x in k.awaiting) && (x in k.awaiting ==> r.awaiting[x] == k.awaiting[x])
    ensures id in k.awaiting && k.awaiting[id] != caller ==> id in r.awaiting && r.awaiting[id] == k.awaiting[id]
  {
    var awaiting := if id in k.awaiting && k.awaiting[id] == caller then k.awaiting - {id} else k.awaiting;
    var queues := if caller in k.queues then k.queues[caller := DropResponses(k.queues[caller], id)] else k.queues;
    Kernel(k.handlers, queues, awaiting)
  }
}

/** The kernel-side bus for trusted native programs: an ordered collection of programs, each
    wrapped in an adapter that remembers which interfaces the program registered and which
    message ids it expects answers for.

    The wrapped programs themselves are not modelled. What a program produces when it is polled
    is an input (`polls`), and every call the collection makes into a program is recorded, in
    order, in that program's `inbox`. Rust panics become `Failure`s. */
module NativeCollection {
  import opened Wrappers
  import opened Seqs
  import opened Types

  type EncodedMessage = seq<byte>

  /** An event a wrapped program yields when polled. `wantsId` says whether the program
      handed over a writer for the id of its emitted message. */
  datatype ProgramEvent =
    | Emit(interface: InterfaceHash, message: EncodedMessage, wantsId: bool)
    | CancelMessage(messageId: MessageId)
    | Answer(messageId: MessageId, answer: Result<EncodedMessage, ()>)

  /** A call made by the collection into a wrapped program. */
  datatype Delivery =
    | GotInterfaceMessage(interface: InterfaceHash, answerId: Option<MessageId>, emitterPid: Pid, message: EncodedMessage)
    | GotResponse(messageId: MessageId, response: Result<EncodedMessage, ()>)
    | GotProcessDestroyed(pid: Pid)
    | GotMessageId(messageId: MessageId)

  /** The wrapper around one program. */
  datatype Adapter = Adapter(registered: set<InterfaceHash>, expected: set<MessageId>, inbox: seq<Delivery>)

  datatype Entry = Entry(pid: Pid, adapter: Adapter)

  /** The programs in insertion order. */
  datatype Collection = Collection(processes: seq<Entry>)

  /** The interface on which programs announce registrations, and the decoder of the
      `Register(h)` message sent on it; `None` when a message fails to decode. */
  datatype RegistrationCodec = RegistrationCodec(interface: InterfaceHash, decodeRegister: EncodedMessage -> Option<InterfaceHash>)

  /** The writer through which the id of an emitted message is reported back. `armed` is
      false once the wrapped writer has been taken. */
  datatype IdWriter = IdWriter(emitter: Pid, armed: bool)

  /** An event of the whole collection. */
  datatype CollectionEvent =
    | EmitEvent(interface: InterfaceHash, emitterPid: Pid, message: EncodedMessage, idWrite: Option<IdWriter>)
    | CancelEvent(messageId: MessageId)
    | AnswerEvent(messageId: MessageId, answer: Result<EncodedMessage, ()>)

  datatype Panic =
    | PidAlreadyPresent
    | NoRegisteredProgram
    | NoExpectingProgram
    | WriterAlreadyUsed
    | IdAlreadyExpected

  const FreshAdapter := Adapter({}, {}, [])

  predicate HasPid(c: Collection, pid: Pid)
  {
    exists i | 0 <= i < |c.processes| :: c.processes[i].pid == pid
  }

  /** No pid occurs twice. */
  predicate UniquePids(c: Collection)
  {
    forall i, j | 0 <= i < j < |c.processes| :: c.processes[i].pid != c.processes[j].pid
  }

  /** `c'` holds the same programs as `c` and differs from it at most in the adapter at `k`. */
  predicate SameExcept(c: Collection, c': Collection, k: nat)
  {
    && |c'.processes| == |c.processes|
    && k < |c.processes|
    && c'.processes[k].pid == c.processes[k].pid
    && forall i | 0 <= i < |c.processes| && i != k :: c'.processes[i] == c.processes[i]
  }

  /** `new`: the empty collection. */
  function New(): (c: Collection)
    ensures UniquePids(c)
    ensures forall pid: Pid :: !HasPid(c, pid)
  {
    Collection([])
  }

  /** `push`: appends a program with an empty adapter, panicking when the pid is present. */
  function Push(c: Collection, pid: Pid): (r: Result<Collection, Panic>)
    ensures r.Failure? <==> HasPid(c, pid)
    ensures r.Failure? ==> r.error == PidAlreadyPresent
    ensures r.Success? ==> |r.value.processes| == |c.processes| + 1
    ensures r.Success? ==> r.value.processes[..|c.processes|] == c.processes
    ensures r.Success? ==> r.value.processes[|c.processes|] == Entry(pid, FreshAdapter)
    ensures r.Success? && UniquePids(c) ==> UniquePids(r.value)
  {
    if HasPid(c, pid) then Failure(PidAlreadyPresent)
    else Success(Collection(c.processes + [Entry(pid, FreshAdapter)]))
  }

  /** The interface a program registers by emitting `ev`, if any. */
  function RegistrationOf(codec: RegistrationCodec, ev: ProgramEvent): Option<InterfaceHash>
  {
    if ev.Emit? && ev.interface == codec.interface then codec.decodeRegister(ev.message) else None
  }

  /** What the adapter learns when its program yields `ev` (`poll_next_event`). */
  function Observe(codec: RegistrationCodec, a: Adapter, ev: ProgramEvent): (r: Adapter)
    ensures r.expected == a.expected && r.inbox == a.inbox
    ensures forall h :: h in r.registered <==> h in a.registered || RegistrationOf(codec, ev) == Some(h)
  {
    match RegistrationOf(codec, ev)
    case Some(h) => a.(registered := a.registered + {h})
    case None => a
  }

  /** The collection event built from program `pid`'s event `ev`. */
  function Lift(pid: Pid, ev: ProgramEvent): CollectionEvent
  {
    match ev
    case Emit(i, m, w) => EmitEvent(i, pid, m, if w then Some(IdWriter(pid, true)) else None)
    case CancelMessage(id) => CancelEvent(id)
    case Answer(id, a) => AnswerEvent(id, a)
  }

  /** `next_event`: polls the programs in insertion order and yields the first ready event,
      or `None` (pending) when no program is ready. `polls[i]` is what program `i` would yield. */
  function NextEvent(codec: RegistrationCodec, c: Collection, polls: seq<Option<ProgramEvent>>): (r: Option<(Collection, CollectionEvent)>)
    requires |polls| == |c.processes|
    ensures r.None? <==> forall i | 0 <= i < |polls| :: polls[i].None?
    ensures r.Some? ==> exists k | 0 <= k < |polls| ::
      && polls[k].Some?
      && (forall j | 0 <= j < k :: polls[j].None?)
      && r.value.1 == Lift(c.processes[k].pid, polls[k].value)
      && SameExcept(c, r.value.0, k)
      && r.value.0.processes[k].adapter == Observe(codec, c.processes[k].adapter, polls[k].value)
  {
    match FirstIndex(polls, (p: Option<ProgramEvent>) => p.Some?)
    case None => None
    case Some(k) =>
      var e := c.processes[k];
      var ev := polls[k].value;
      Some((Collection(c.processes[k := e.(adapter := Observe(codec, e.adapter, ev))]), Lift(e.pid, ev)))
  }

  /** `Adapter::deliver_interface_message`: the adapter's new state when it accepts the
      message, `None` when it hands the message back; accepted iff the program registered `iface`. */
  function AdapterInterfaceMessage(a: Adapter, iface: InterfaceHash, id: Option<MessageId>, emitter: Pid, msg: EncodedMessage): (r: Option<Adapter>)
    ensures r.Some? <==> iface in a.registered
    ensures r.Some? ==> r.value.registered == a.registered && r.value.expected == a.expected
    ensures r.Some? ==> r.value.inbox == a.inbox + [GotInterfaceMessage(iface, id, emitter, msg)]
  {
    if iface in a.registered then Some(a.(inbox := a.inbox + [GotInterfaceMessage(iface, id, emitter, msg)])) else None
  }

  /** `Adapter::deliver_response`: the adapter's new state when it accepts the response,
      `None` when it hands it back; accepted iff the id is expected, which consumes it. */
  function AdapterResponse(a: Adapter, id: MessageId, response: Result<EncodedMessage, ()>): (r: Option<Adapter>)
    ensures r.Some? <==> id in a.expected
    ensures r.Some? ==> r.value.registered == a.registered && id !in r.value.expected
    ensures r.Some? ==> r.value.expected + {id} == a.expected
    ensures r.Some? ==> r.value.inbox == a.inbox + [GotResponse(id, response)]
  {
    if id in a.expected then Some(a.(expected := a.expected - {id}, inbox := a.inbox + [GotResponse(id, response)])) else None
  }

  /** `interface_message`: hands the message to the first program, in insertion order, that
      registered `iface`; panics when none did. */
  function InterfaceMessage(c: Collection, iface: InterfaceHash, id: Option<MessageId>, emitter: Pid, msg: EncodedMessage): (r: Result<Collection, Panic>)
    ensures r.Failure? <==> forall i | 0 <= i < |c.processes| :: iface !in c.processes[i].adapter.registered
    ensures r.Failure? ==> r.error == NoRegisteredProgram
    ensures r.Success? ==> exists k | 0 <= k < |c.processes| ::
      && iface in c.processes[k].adapter.registered
      && (forall j | 0 <= j < k :: iface !in c.processes[j].adapter.registered)
      && SameExcept(c, r.value, k)
      && r.value.processes[k].adapter.registered == c.processes[k].adapter.registered
      && r.value.processes[k].adapter.expected == c.processes[k].adapter.expected
      && r.value.processes[k].adapter.inbox == c.processes[k].adapter.inbox + [GotInterfaceMessage(iface, id, emitter, msg)]
  {
    match FirstIndex(c.processes, (e: Entry) => AdapterInterfaceMessage(e.adapter, iface, id, emitter, msg).Some?)
    case None => Failure(NoRegisteredProgram)
    case Some(k) =>
      var e := c.processes[k];
      Success(Collection(c.processes[k := e.(adapter := AdapterInterfaceMessage(e.adapter, iface, id, emitter, msg).value)]))
  }

  /** `message_response`: hands the response to the first program expecting `id`, which
      stops expecting it; panics when no program expects it. */
  function MessageResponse(c: Collection, id: MessageId, response: Result<EncodedMessage, ()>): (r: Result<Collection, Panic>)
    ensures r.Failure? <==> forall i | 0 <= i < |c.processes| :: id !in c.processes[i].adapter.expected
    ensures r.Failure? ==> r.error == NoExpectingProgram
    ensures r.Success? ==> exists k | 0 <= k < |c.processes| ::
      && id in c.processes[k].adapter.expected
      && (forall j | 0 <= j < k :: id !in c.processes[j].adapter.expected)
      && SameExcept(c, r.value, k)
      && r.value.processes[k].adapter.registered == c.processes[k].adapter.registered
      && r.value.processes[k].adapter.expected == c.processes[k].adapter.expected - {id}
      && r.value.processes[k].adapter.inbox == c.processes[k].adapter.inbox + [GotResponse(id, response)]
  {
    match FirstIndex(c.processes, (e: Entry) => AdapterResponse(e.adapter, id, response).Some?)
    case None => Failure(NoExpectingProgram)
    case Some(k) =>
      var e := c.processes[k];
      Success(Collection(c.processes[k := e.(adapter := AdapterResponse(e.adapter, id, response).value)]))
  }

  /** `process_destroyed`: every program is told, and no registration or expectation changes. */
  function ProcessDestroyed(c: Collection, pid: Pid): (r: Collection)
    ensures |r.processes| == |c.processes|
    ensures forall i | 0 <= i < |c.processes| ::
      && r.processes[i].pid == c.processes[i].pid
      && r.processes[i].adapter.registered == c.processes[i].adapter.registered
      && r.processes[i].adapter.expected == c.processes[i].adapter.expected
      && r.processes[i].adapter.inbox == c.processes[i].adapter.inbox + [GotProcessDestroyed(pid)]
  {
    Collection(seq(|c.processes|, i requires 0 <= i < |c.processes| =>
      var e := c.processes[i];
      e.(adapter := e.adapter.(inbox := e.adapter.inbox + [GotProcessDestroyed(pid)]))))
  }

  /** Position of `pid` in the collection. */
  function IndexOf(c: Collection, pid: Pid): (k: nat)
    requires HasPid(c, pid)
    ensures k < |c.processes| && c.processes[k].pid == pid
  {
    FirstIndex(c.processes, (e: Entry) => e.pid == pid).value
  }

  /** `MessageIdWriteAdapter::acknowledge`: forwards the id to the emitter's own writer, which
      can happen once (a second call is `unreachable!`), then records that the emitter now
      expects a response with that id (a debug assertion checks it was not expected yet). */
  function Acknowledge(c: Collection, w: IdWriter, id: MessageId): (r: Result<(Collection, IdWriter), Panic>)
    requires HasPid(c, w.emitter)
    ensures !w.armed ==> r == Failure(WriterAlreadyUsed)
    ensures r.Success? ==> !r.value.1.armed && r.value.1.emitter == w.emitter
    ensures r.Success? ==> exists k | 0 <= k < |c.processes| ::
      && c.processes[k].pid == w.emitter
      && id !in c.processes[k].adapter.expected
      && SameExcept(c, r.value.0, k)
      && r.value.0.processes[k].adapter.registered == c.processes[k].adapter.registered
      && r.value.0.processes[k].adapter.expected == c.processes[k].adapter.expected + {id}
      && r.value.0.processes[k].adapter.inbox == c.processes[k].adapter.inbox + [GotMessageId(id)]
    ensures UniquePids(c) && w.armed && r.Failure? ==> r.error == IdAlreadyExpected && id in c.processes[IndexOf(c, w.emitter)].adapter.expected
  {
    if !w.armed then Failure(WriterAlreadyUsed)
    else
      var k := IndexOf(c, w.emitter);
      var a := c.processes[k].adapter;
      if id in a.expected then Failure(IdAlreadyExpected)
      else
        var a' := a.(expected := a.expected + {id}, inbox := a.inbox + [GotMessageId(id)]);
        Success((Collection(c.processes[k := c.processes[k].(adapter := a')]), w.(armed := false)))
  }
}

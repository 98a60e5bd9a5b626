/** Properties of the native-program collection that relate several of its operations:
    registrations only grow, a response is consumed once, an id writer works once, and a
    registration makes the registrant (or an earlier registrant) the receiver of the interface. */
module CollectionProperties {
  import opened Wrappers
  import opened Types
  import opened NativeCollection

  /** One operation on the collection. */
  datatype Op =
    | OpPush(pid: Pid)
    | OpNextEvent(polls: seq<Option<ProgramEvent>>)
    | OpInterfaceMessage(interface: InterfaceHash, answerId: Option<MessageId>, emitter: Pid, message: EncodedMessage)
    | OpMessageResponse(messageId: MessageId, response: Result<EncodedMessage, ()>)
    | OpProcessDestroyed(pid: Pid)
    | OpAcknowledge(writer: IdWriter, messageId: MessageId)

  /** The collection after `op`, or `None` when `op` panics, is pending or is not applicable. */
  function Apply(codec: RegistrationCodec, c: Collection, op: Op): Option<Collection>
  {
    match op
    case OpPush(pid) =>
      (match Push(c, pid) case Success(c') => Some(c') case Failure(_) => None)
    case OpNextEvent(polls) =>
      if |polls| != |c.processes| then None
      else (match NextEvent(codec, c, polls) case Some(r) => Some(r.0) case None => None)
    case OpInterfaceMessage(i, id, e, m) =>
      (match InterfaceMessage(c, i, id, e, m) case Success(c') => Some(c') case Failure(_) => None)
    case OpMessageResponse(id, resp) =>
      (match MessageResponse(c, id, resp) case Success(c') => Some(c') case Failure(_) => None)
    case OpProcessDestroyed(pid) => Some(ProcessDestroyed(c, pid))
    case OpAcknowledge(w, id) =>
      if !HasPid(c, w.emitter) then None
      else (match Acknowledge(c, w, id) case Success(r) => Some(r.0) case Failure(_) => None)
  }

  /** `c'` extends `c`: existing programs keep their place and pid, and every registration
      they had is still there. */
  predicate Grows(c: Collection, c': Collection)
  {
    && |c.processes| <= |c'.processes|
    && forall i | 0 <= i < |c.processes| ::
      && c'.processes[i].pid == c.processes[i].pid
      && c.processes[i].adapter.registered <= c'.processes[i].adapter.registered
  }

  /** A change confined to one adapter, which keeps its registrations, is growth. */
  lemma SameExceptGrows(c: Collection, c': Collection, k: nat)
    requires SameExcept(c, c', k)
    requires c.processes[k].adapter.registered <= c'.processes[k].adapter.registered
    ensures Grows(c, c')
    ensures UniquePids(c) ==> UniquePids(c')
  {
    if UniquePids(c) {
      forall i, j | 0 <= i < j < |c'.processes|
        ensures c'.processes[i].pid != c'.processes[j].pid
      {
        assert c'.processes[i].pid == c.processes[i].pid;
        assert c'.processes[j].pid == c.processes[j].pid;
      }
    }
  }

  /** Every operation keeps the pids unique and in place, and never drops a registration. */
  lemma StepKeepsRegistrations(codec: RegistrationCodec, c: Collection, op: Op, c': Collection)
    requires Apply(codec, c, op) == Some(c')
    ensures Grows(c, c')
    ensures UniquePids(c) ==> UniquePids(c')
  {
    match op
    case OpPush(pid) =>
      assert c' == Push(c, pid).value;
    case OpNextEvent(polls) =>
      var k :| 0 <= k < |polls| && polls[k].Some? && SameExcept(c, c', k)
        && c'.processes[k].adapter == Observe(codec, c.processes[k].adapter, polls[k].value);
      SameExceptGrows(c, c', k);
    case OpInterfaceMessage(i, id, e, m) =>
      var k :| 0 <= k < |c.processes| && SameExcept(c, c', k)
        && c'.processes[k].adapter.registered == c.processes[k].adapter.registered;
      SameExceptGrows(c, c', k);
    case OpMessageResponse(id, resp) =>
      var k :| 0 <= k < |c.processes| && SameExcept(c, c', k)
        && c'.processes[k].adapter.registered == c.processes[k].adapter.registered;
      SameExceptGrows(c, c', k);
    case OpProcessDestroyed(pid) =>
      assert c' == ProcessDestroyed(c, pid);
      if UniquePids(c) {
        forall i, j | 0 <= i < j < |c'.processes|
          ensures c'.processes[i].pid != c'.processes[j].pid
        {
          assert c'.processes[i].pid == c.processes[i].pid;
          assert c'.processes[j].pid == c.processes[j].pid;
        }
      }
    case OpAcknowledge(w, id) =>
      var k :| 0 <= k < |c.processes| && SameExcept(c, c', k)
        && c'.processes[k].adapter.registered == c.processes[k].adapter.registered;
      SameExceptGrows(c, c', k);
  }

  /** The empty collection never yields an event. */
  lemma EmptyCollectionNeverYields(codec: RegistrationCodec)
    ensures NextEvent(codec, New(), []) == None
  {
  }

  /** No message id is expected by two programs. */
  ghost predicate UniqueExpectations(c: Collection)
  {
    forall i, j, id | Expects(c, i, id) && Expects(c, j, id) :: i == j
  }

  /** Program `i` expects a response with `id`. */
  predicate Expects(c: Collection, i: int, id: MessageId)
  {
    0 <= i < |c.processes| && id in c.processes[i].adapter.expected
  }

  /** A response is delivered at most once: once delivered, the same id finds nobody. */
  lemma ResponseDeliveredOnce(c: Collection, id: MessageId, r1: Result<EncodedMessage, ()>, r2: Result<EncodedMessage, ()>)
    requires UniqueExpectations(c)
    requires MessageResponse(c, id, r1).Success?
    ensures UniqueExpectations(MessageResponse(c, id, r1).value)
    ensures MessageResponse(MessageResponse(c, id, r1).value, id, r2) == Failure(NoExpectingProgram)
  {
    var c' := MessageResponse(c, id, r1).value;
    var k :| 0 <= k < |c.processes| && id in c.processes[k].adapter.expected && SameExcept(c, c', k)
      && c'.processes[k].adapter.expected == c.processes[k].adapter.expected - {id};
    assert Expects(c, k, id);
    forall i | 0 <= i < |c'.processes|
      ensures id !in c'.processes[i].adapter.expected
    {
      if i != k {
        assert c'.processes[i] == c.processes[i];
        assert !Expects(c, i, id);
      }
    }
    forall i, j, x | Expects(c', i, x) && Expects(c', j, x)
      ensures i == j
    {
      if i != k { assert c'.processes[i] == c.processes[i]; }
      if j != k { assert c'.processes[j] == c.processes[j]; }
      assert Expects(c, i, x) && Expects(c, j, x);
    }
  }

  /** Acknowledging an id nobody expects keeps expectations unique. */
  lemma AcknowledgeKeepsExpectationsUnique(c: Collection, w: IdWriter, id: MessageId)
    requires HasPid(c, w.emitter)
    requires UniqueExpectations(c)
    requires forall i | 0 <= i < |c.processes| :: id !in c.processes[i].adapter.expected
    requires Acknowledge(c, w, id).Success?
    ensures UniqueExpectations(Acknowledge(c, w, id).value.0)
  {
    var c' := Acknowledge(c, w, id).value.0;
    var k :| 0 <= k < |c.processes| && SameExcept(c, c', k)
      && c'.processes[k].adapter.expected == c.processes[k].adapter.expected + {id};
    forall i, j, x | Expects(c', i, x) && Expects(c', j, x)
      ensures i == j
    {
      if i != k { assert c'.processes[i] == c.processes[i]; }
      if j != k { assert c'.processes[j] == c.processes[j]; }
      if x == id {
        assert i == k && j == k;
      } else {
        assert Expects(c, i, x) && Expects(c, j, x);
      }
    }
  }

  /** Expectations that stay put at every index keep their uniqueness. */
  lemma SameExpectations(c: Collection, c': Collection)
    requires UniqueExpectations(c)
    requires |c'.processes| == |c.processes|
    requires forall i | 0 <= i < |c.processes| :: c'.processes[i].adapter.expected == c.processes[i].adapter.expected
    ensures UniqueExpectations(c')
  {
    forall i, j, x | Expects(c', i, x) && Expects(c', j, x)
      ensures i == j
    {
      assert Expects(c, i, x) && Expects(c, j, x);
    }
  }

  /** A change confined to one adapter that keeps its expectations keeps them unique. */
  lemma SameExceptExpectations(c: Collection, c': Collection, k: nat)
    requires UniqueExpectations(c)
    requires SameExcept(c, c', k)
    requires c'.processes[k].adapter.expected == c.processes[k].adapter.expected
    ensures UniqueExpectations(c')
  {
    forall i | 0 <= i < |c.processes|
      ensures c'.processes[i].adapter.expected == c.processes[i].adapter.expected
    {
      if i != k { assert c'.processes[i] == c.processes[i]; }
    }
    SameExpectations(c, c');
  }

  /** The kernel's promise about the id it acknowledges: it allocates a fresh one, so no
      program already expects it. Every other operation needs no promise. */
  predicate FreshAcknowledgement(c: Collection, op: Op)
  {
    op.OpAcknowledge? ==> forall i | 0 <= i < |c.processes| :: !Expects(c, i, op.messageId)
  }

  /** Every operation keeps each message id expected by at most one program, provided the
      kernel never acknowledges an id it allocated before. With ResponseDeliveredOnce this
      makes every response reach one program once, along any run of operations. */
  lemma StepKeepsExpectationsUnique(codec: RegistrationCodec, c: Collection, op: Op, c': Collection)
    requires Apply(codec, c, op) == Some(c')
    requires UniqueExpectations(c)
    requires FreshAcknowledgement(c, op)
    ensures UniqueExpectations(c')
  {
    match op
    case OpPush(pid) =>
      assert c' == Push(c, pid).value;
      forall i, j, x | Expects(c', i, x) && Expects(c', j, x)
        ensures i == j
      {
        assert i < |c.processes| && j < |c.processes| by {
          assert c'.processes[|c.processes|].adapter.expected == {};
        }
        assert c'.processes[i] == c.processes[i] && c'.processes[j] == c.processes[j];
        assert Expects(c, i, x) && Expects(c, j, x);
      }
    case OpNextEvent(polls) =>
      var k :| 0 <= k < |polls| && polls[k].Some? && SameExcept(c, c', k)
        && c'.processes[k].adapter == Observe(codec, c.processes[k].adapter, polls[k].value);
      SameExceptExpectations(c, c', k);
    case OpInterfaceMessage(i, id, e, m) =>
      var k :| 0 <= k < |c.processes| && SameExcept(c, c', k)
        && c'.processes[k].adapter.expected == c.processes[k].adapter.expected;
      SameExceptExpectations(c, c', k);
    case OpMessageResponse(id, resp) =>
      ResponseDeliveredOnce(c, id, resp, resp);
    case OpProcessDestroyed(pid) =>
      SameExpectations(c, c');
    case OpAcknowledge(w, id) =>
      forall i | 0 <= i < |c.processes|
        ensures id !in c.processes[i].adapter.expected
      {
        assert !Expects(c, i, id);
      }
      AcknowledgeKeepsExpectationsUnique(c, w, id);
  }

  /** The writer handed out with an event forwards one id; a second acknowledgement is
      the unreachable branch. */
  lemma SecondAcknowledgeUnreachable(c: Collection, w: IdWriter, id1: MessageId, id2: MessageId)
    requires HasPid(c, w.emitter)
    requires Acknowledge(c, w, id1).Success?
    ensures HasPid(Acknowledge(c, w, id1).value.0, w.emitter)
    ensures Acknowledge(Acknowledge(c, w, id1).value.0, Acknowledge(c, w, id1).value.1, id2) == Failure(WriterAlreadyUsed)
  {
    var c' := Acknowledge(c, w, id1).value.0;
    var k :| 0 <= k < |c.processes| && c.processes[k].pid == w.emitter && SameExcept(c, c', k);
    assert c'.processes[k].pid == w.emitter;
  }

  /** Polling a program that emits `Register(h)` on the registration interface records `h`
      in the emitter's registered set. */
  lemma PolledRegistrationRecorded(codec: RegistrationCodec, c: Collection, polls: seq<Option<ProgramEvent>>, h: InterfaceHash)
    requires |polls| == |c.processes|
    requires NextEvent(codec, c, polls).Some?
    requires NextEvent(codec, c, polls).value.1.EmitEvent?
    requires NextEvent(codec, c, polls).value.1.interface == codec.interface
    requires codec.decodeRegister(NextEvent(codec, c, polls).value.1.message) == Some(h)
    ensures
      var c' := NextEvent(codec, c, polls).value.0;
      exists k | 0 <= k < |c'.processes| ::
        c'.processes[k].pid == NextEvent(codec, c, polls).value.1.emitterPid && h in c'.processes[k].adapter.registered
  {
    var c' := NextEvent(codec, c, polls).value.0;
    var ev := NextEvent(codec, c, polls).value.1;
    var k :| 0 <= k < |polls| && polls[k].Some?
      && ev == Lift(c.processes[k].pid, polls[k].value)
      && SameExcept(c, c', k)
      && c'.processes[k].adapter == Observe(codec, c.processes[k].adapter, polls[k].value);
    var pe := polls[k].value;
    assert Lift(c.processes[k].pid, pe).EmitEvent? ==> pe.Emit?;
    assert ev.interface == pe.interface && ev.message == pe.message && ev.emitterPid == c.processes[k].pid by {
      assert Lift(c.processes[k].pid, pe).message == pe.message;
      assert Lift(c.processes[k].pid, pe).emitterPid == c.processes[k].pid;
    }
    assert RegistrationOf(codec, pe) == Some(h);
    assert h in Observe(codec, c.processes[k].adapter, pe).registered;
    assert c'.processes[k].pid == ev.emitterPid;
  }

  /** A message on an interface that program `k` registered is delivered, to program `k` or to
      an earlier registrant, and never to a program after `k`. */
  lemma RegistrantReceives(c: Collection, k: nat, h: InterfaceHash, id: Option<MessageId>, emitter: Pid, msg: EncodedMessage)
    requires k < |c.processes| && h in c.processes[k].adapter.registered
    ensures InterfaceMessage(c, h, id, emitter, msg).Success?
    ensures forall j | k < j < |c.processes| :: InterfaceMessage(c, h, id, emitter, msg).value.processes[j] == c.processes[j]
  {
    var c' := InterfaceMessage(c, h, id, emitter, msg).value;
    var m :| 0 <= m < |c.processes| && h in c.processes[m].adapter.registered
      && (forall j | 0 <= j < m :: h !in c.processes[j].adapter.registered)
      && SameExcept(c, c', m);
    assert m <= k;
  }
}

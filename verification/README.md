# redshirt message bus, syscall contract and Vulkan registry parser in Dafny

This project models three sequential pieces of the redshirt microkernel and proves
properties about them.

- **Native-program collection** (`core/src/native/collection.rs`). The kernel-side bus
  for trusted native programs. Programs are kept in insertion order under unique pids.
  Each program sits in an adapter that records the interfaces the program registered.
  It learns them by watching the program emit `Register(h)` on the interface-registration
  interface. The adapter also records the message ids the program expects answers for.
  An interface message goes to the first program that registered the interface. A
  response goes to the program that expects its id, and it consumes the id.
  (`NativeCollection`, `CollectionProperties`)
- **Message system calls** (`interfaces/syscalls/src/ffi.rs`). The kernel side of these
  calls is not part of this model. What is modelled is the contract their documentation
  states, completed by the choices listed below where it is silent:
  - `next_message`: a poll list with `0`/`1`/id entries, and a queue.
  - The return-value encoding against `out_len`, with no search for a message that fits.
  - `emit_message`: its writev-style scatter list of little-endian (address, length) pairs.
  - `emit_answer`, `emit_message_error` and `cancel_message`.
  - The wire datatypes.

  (`Syscalls`, `IoVec`, `SyscallProperties`)
- **Vulkan registry parser** (`interfaces/vulkan/build/parse.rs`). A recursive descent
  over the XML event stream of `vk.xml`. The events are a datatype (`XmlEvents`). Every
  parsing function takes the remaining stream and returns its value together with the
  stream left over. A panic of the parser is a `Failure` naming its reason. (`VkParse`)
  - `SkipProperties` compares element skipping with a stack machine and with rendered
    element trees.
  - `VkRender` writes registries as event streams.
  - `VkRoundTrip` proves that the parser reads every level of a written registry back:
    type-and-name pairs, struct members, type definitions, commands, sections and the
    whole document.
  - `VkSkipping` states what the parser's loops skip (text, comments and the sections it
    does not read) and what `parse_ty_name` collects from text around its tagged elements.
  - `VkPadded` proves that a document laid out like `vk.xml`, with such filler between
    its sections, type definitions and commands, still reads back as its registry.

The code behaves as follows, and the model does the same:

- Two native programs may register the same interface. Polling inserts the interface
  into the program's own set without looking at the others
  (`core/src/native/collection.rs:246-248`). Delivery tries the programs in insertion
  order and stops at the first that accepts (`core/src/native/collection.rs:189-195`).
  So both registrations are kept, and the first program in insertion order gets the
  message.
- A response or interface message that no native program accepts reaches the
  `panic!() // TODO` at `core/src/native/collection.rs:198` or `:223`. It does not
  return a recoverable error.
- `parse_registry` asserts `is_empty()` on the section it is about to replace
  (`interfaces/vulkan/build/parse.rs:102` and `:107`). So a section is assigned while
  the previous one is empty, not "at most once". After an empty first `<types>`
  section, a second one is accepted (`VkRoundTrip.EmptyTypesSectionReplaced`). After a
  non-empty one, a second one is refused (`VkRoundTrip.SecondTypesSectionRefused`).

Where the documentation of the system calls leaves a choice open, the model makes one:

- `next_message`: when several poll-list entries match the message that is pulled, the
  first of them is cleared and becomes the message's `index_in_list`.
- `emit_message`: the documentation only says that `1` means an error and leaves the
  errors to be documented (`ffi.rs:76` and `:86`). In the model, a scatter list whose
  pairs or buffers lie outside memory returns `1` and changes nothing. This is checked
  before the handler is looked up, so it returns `1` even when `allow_delay` would have
  let the call wait for a handler. A readable scatter list sent to a registered handler
  never fails.
- `emit_answer` and `emit_message_error` return nothing (`ffi.rs:101` and `:111`). The
  model reports an id that is not awaited as a failure, and then changes nothing.
- `cancel_message`: the documentation says the id is no longer valid afterwards
  (`ffi.rs:119`), with no exception. The model cancels only on behalf of the caller. The
  caller stops awaiting the id and its queued responses to the id are dropped. An id that
  another process awaits stays valid for that process.

## Model

| member | source | states |
|---|---|---|
| NativeCollection.New | core/src/native/collection.rs:105-112 | the new collection has no programs and its pids are unique |
| NativeCollection.Push | core/src/native/collection.rs:114-139 | fails exactly when the pid is already present; otherwise appends it with an empty adapter after the unchanged existing entries, and keeps pids unique |
| NativeCollection.Observe | core/src/native/collection.rs:231-250 | polling adds `h` to the registered set exactly when the event is an emit of a decodable `Register(h)` on the registration interface; nothing else changes |
| NativeCollection.NextEvent | core/src/native/collection.rs:141-178 | pending exactly when no program is ready; otherwise the event is that of the first ready program in insertion order, lifted with that program's pid as emitter, and only that program's adapter changes |
| NativeCollection.AdapterInterfaceMessage | core/src/native/collection.rs:275-290 | an adapter accepts an interface message exactly when its program registered the interface, and then passes it on unchanged |
| NativeCollection.AdapterResponse | core/src/native/collection.rs:292-304 | an adapter accepts a response exactly when it expects the id, removes the id and passes the response on |
| NativeCollection.InterfaceMessage | core/src/native/collection.rs:180-199 | panics exactly when no program registered the interface; otherwise delivers to the first registrant in insertion order and to no other program |
| NativeCollection.MessageResponse | core/src/native/collection.rs:208-224 | panics exactly when no program expects the id; otherwise the first program expecting it receives the response and stops expecting it, and nobody else changes |
| NativeCollection.ProcessDestroyed | core/src/native/collection.rs:201-206 | every program is notified in place, and no registered or expected set changes |
| NativeCollection.Acknowledge | core/src/native/collection.rs:311-322 | a used writer is the unreachable branch; otherwise the id reaches the emitter and is added to the emitter's expected set, and an id already there is the debug-assertion failure |
| CollectionProperties.StepKeepsRegistrations | core/src/native/collection.rs:243-250 | no operation removes a registration, moves a program or breaks pid uniqueness |
| CollectionProperties.EmptyCollectionNeverYields | core/src/native/collection.rs:105-112 | `next_event` on a new collection never yields |
| CollectionProperties.PolledRegistrationRecorded | core/src/native/collection.rs:238-250 | an emitted `Register(h)` lands in the registered set of the program named as emitter |
| CollectionProperties.RegistrantReceives | core/src/native/collection.rs:182-199 | a message on an interface that program `k` registered is delivered, and no program after `k` is touched |
| CollectionProperties.ResponseDeliveredOnce | core/src/native/collection.rs:292-304 | after a response is delivered, a second response with the same id finds nobody, and ids stay expected by at most one program |
| CollectionProperties.AcknowledgeKeepsExpectationsUnique | core/src/native/collection.rs:315-322 | acknowledging a fresh id keeps every id expected by at most one program |
| CollectionProperties.StepKeepsExpectationsUnique | core/src/native/collection.rs:292-322 | every operation keeps each id expected by at most one program, given the kernel acknowledges only ids that no program already expects |
| CollectionProperties.SecondAcknowledgeUnreachable | core/src/native/collection.rs:315-319 | a writer forwards one id; a second acknowledge is the unreachable branch |
| Syscalls.EntryFor | interfaces/syscalls/src/ffi.rs:25-28 | the first poll-list entry asking for a message (`0` never asks; `1` asks for interface and process-destroyed messages; an id asks for its response), or none exactly when no entry asks |
| Syscalls.NextMessage | interfaces/syscalls/src/ffi.rs:23-56 | sleeps exactly when blocking with nothing wanted; a blocking call never returns 0; 0 means nothing wanted or written; a value over `out_len` writes nothing; otherwise the oldest wanted message is written, its entry set to 0 and it leaves the queue |
| Syscalls.EmitMessage | interfaces/syscalls/src/ffi.rs:58-94 | returns 0 or 1; an id is written exactly on success with `needs_answer`; without delay, a missing handler fails immediately and changes nothing; by the model's choice, an unreadable scatter list also fails immediately and changes nothing, and a readable one sent to a registered handler always succeeds; success queues the gathered body at the handler with the emitter and id |
| Syscalls.EmitAnswer | interfaces/syscalls/src/ffi.rs:96-101 | the emitter's queue gains a successful response with the answer, the id stops being awaited, and handlers and every other queue are unchanged; by the model's choice, an id not awaiting an answer is reported as a failure |
| Syscalls.EmitMessageError | interfaces/syscalls/src/ffi.rs:103-111 | the emitter's queue gains an `Err` response, the id stops being awaited, and handlers and every other queue are unchanged; by the model's choice, an id not awaiting an answer is reported as a failure |
| Syscalls.CancelMessage | interfaces/syscalls/src/ffi.rs:113-124 | afterwards no answer to the id is awaited or queued for the caller; the caller's queue keeps every other message in its order; nothing of another process or another message changes, and by the model's choice an id another process awaits stays awaited |
| Syscalls.DropResponsesAppend | interfaces/syscalls/src/ffi.rs:113-124 | dropping the responses to an id from a queue works piecewise: a split queue drops from each part and keeps the parts in order |
| SyscallProperties.IsNextUnique | interfaces/syscalls/src/ffi.rs:40-43 | there is only one oldest wanted message and one first entry asking for it |
| SyscallProperties.OldestWantedFirst | interfaces/syscalls/src/ffi.rs:40-43 | when the oldest wanted message fits, `next_message` returns exactly it, clears its entry and removes it from the queue |
| SyscallProperties.TooBigIsNotSkipped | interfaces/syscalls/src/ffi.rs:35-43 | when the oldest wanted message does not fit, its length is returned and nothing changes, whatever follows it |
| SyscallProperties.ReceiveLast | interfaces/syscalls/src/ffi.rs:25-38 | a newly queued message that only the entry wants is pulled, with that entry cleared and the older messages left in place |
| SyscallProperties.EmitThenReceive | interfaces/syscalls/src/ffi.rs:58-80 | the handler receives an interface message holding the emitter, the id handed to the emitter and the gathered body |
| SyscallProperties.AnswerReceivedOnce | interfaces/syscalls/src/ffi.rs:96-101 | polling with the id yields the answer and clears the entry, leaving the emitter's queue as it was before the answer; polling for the id again without blocking then finds nothing, and a second answer is refused |
| SyscallProperties.CancelledNeverAnswered | interfaces/syscalls/src/ffi.rs:113-124 | after cancelling, answering fails and polling for the id finds nothing |
| SyscallProperties.LaidOutBody | interfaces/syscalls/src/ffi.rs:60-64 | a scatter list encoded in memory yields the concatenation of its buffers |
| IoVec.LE32RoundTrip | interfaces/syscalls/src/ffi.rs:60-62 | decoding the four little-endian bytes of a 32-bit value gives the value back |
| IoVec.LE32Canonical | interfaces/syscalls/src/ffi.rs:60-62 | every four bytes are the little-endian encoding of what they decode to |
| IoVec.ReadBufs | interfaces/syscalls/src/ffi.rs:60-63 | the `num` pairs are read exactly when `8 * num` bytes at the pointer lie in memory, pair `i` from offset `8 * i` |
| IoVec.ReadBufsRoundTrip | interfaces/syscalls/src/ffi.rs:60-63 | reading encoded pairs gives them back |
| IoVec.Gather | interfaces/syscalls/src/ffi.rs:63-64 | the body exists exactly when every buffer lies inside memory; its length is the sum of the buffer lengths |
| IoVec.GatherPlacesBuffers | interfaces/syscalls/src/ffi.rs:63-64 | buffer `i` appears in the body at the sum of the earlier lengths |
| IoVec.GatherAppend | interfaces/syscalls/src/ffi.rs:63-64 | the body of two scatter lists is the concatenation of their bodies |
| IoVec.MessageBody | interfaces/syscalls/src/ffi.rs:60-71 | a body exists exactly when the `num` pairs at the pointer and every buffer they describe lie in memory; its length is the sum of the buffer lengths, and buffer `i`'s bytes sit at the sum of the earlier lengths |
| VkParse.NameEquals | interfaces/vulkan/build/parse.rs:392-395 | true exactly for an unqualified name whose local part is the expected string |
| VkParse.FindAttr | interfaces/vulkan/build/parse.rs:397-400 | the value of the first attribute with that name, none exactly when no attribute has it |
| VkParse.SkipElement | interfaces/vulkan/build/parse.rs:357-372 | success consumes part of the stream; every failure is an unexpected event |
| VkParse.ExpectCharacters | interfaces/vulkan/build/parse.rs:374-390 | succeeds exactly when a run of text events ends with an end of element; returns their texts in order and the stream after the end; otherwise reports the event after the run |
| VkParse.TyNameLoop | interfaces/vulkan/build/parse.rs:307-324 | success consumes part of the stream; failures are unexpected events |
| VkParse.Classify | interfaces/vulkan/build/parse.rs:326-352 | a pointer exactly when the text holds `*` (const exactly when it also holds `const`); otherwise an array when it holds `[`, with the enum text or else the first of `[2]`, `[3]`, `[4]`; otherwise an identifier; no length is the only failure |
| VkParse.ParseTyName | interfaces/vulkan/build/parse.rs:297-355 | the name read and the classification of the text around `<type>` |
| VkParse.StructFields | interfaces/vulkan/build/parse.rs:198-219 | fields are appended after those already read |
| VkParse.ParseType | interfaces/vulkan/build/parse.rs:168-230 | each kept definition kind matches its category and name attribute; `None` only for the ignored categories, or with no category but `requires` or `name="int"`; the unknown-category failure names a category outside those; the missing-name failure only for an enum or struct without a name |
| VkParse.ParseTypes | interfaces/vulkan/build/parse.rs:141-166 | definitions read are appended after those already read; the end-mismatch failure names an element other than `types` |
| VkParse.CommandLoop | interfaces/vulkan/build/parse.rs:265-286 | parameters are appended after those already read |
| VkParse.ParseCommand | interfaces/vulkan/build/parse.rs:256-295 | `None` or the missing-alias failure exactly when no name or no return type was read; `None` only with an `alias` attribute; otherwise the command read |
| VkParse.ParseCommands | interfaces/vulkan/build/parse.rs:232-254 | commands are appended in order |
| VkParse.ParseRegistry | interfaces/vulkan/build/parse.rs:92-139 | a registry is returned only with both sections non-empty, and a section already non-empty is never replaced |
| VkParse.Trailer | interfaces/vulkan/build/parse.rs:66-72 | succeeds exactly when only whitespace precedes an end of document, and returns what follows it |
| VkParse.Parse | interfaces/vulkan/build/parse.rs:50-78 | success needs a start of document, a `<registry>` element whose content parses, whitespace, the end of document and the end of the stream |
| SkipProperties.SkipIsStackSkip | interfaces/vulkan/build/parse.rs:357-372 | skipping by recursion agrees with a stack machine over the open elements, failures included |
| SkipProperties.SkipElementMatchesStack | interfaces/vulkan/build/parse.rs:357-372 | `advance_until_elem_end` is the stack machine started with the one element |
| SkipProperties.SkipRendered | interfaces/vulkan/build/parse.rs:357-372 | skipping consumes exactly a well-formed element's content and its end, however deeply it nests |
| SkipProperties.ExpectCharactersRoundTrip | interfaces/vulkan/build/parse.rs:374-390 | a run of text events and an end tag read back as the concatenated texts |
| SkipProperties.ExpectCharactersRefusesNesting | interfaces/vulkan/build/parse.rs:374-390 | a start of element inside is refused and reported |
| VkRender.ClassifyWritten | interfaces/vulkan/build/parse.rs:326-352 | the written forms `""`, `"* "`, `"const * "` and `"[]"` classify as identifier, pointer, const pointer and array |
| VkRender.ParseTyNameRoundTrip | interfaces/vulkan/build/parse.rs:300-355 | `parse_ty_name` reads back every written identifier, pointer, const pointer and array with its name |
| VkRoundTrip.StructFieldsRoundTrip | interfaces/vulkan/build/parse.rs:198-219 | written members are read back in document order |
| VkRoundTrip.ParamsRoundTrip | interfaces/vulkan/build/parse.rs:273-275 | written parameters are read back in document order |
| VkRoundTrip.ParseTypeRoundTrip | interfaces/vulkan/build/parse.rs:170-229 | every written enum, bitmask, handle and struct definition is read back |
| VkRoundTrip.IgnoredTypeSkipped | interfaces/vulkan/build/parse.rs:181-197 | a definition of an ignored category is skipped whole, whatever it contains |
| VkRoundTrip.UnknownCategoryRefused | interfaces/vulkan/build/parse.rs:228 | an unknown category is refused, naming it |
| VkRoundTrip.ParseTypesRoundTrip | interfaces/vulkan/build/parse.rs:143-166 | written definitions are read back in order |
| VkRoundTrip.ParseCommandRoundTrip | interfaces/vulkan/build/parse.rs:258-295 | a written command is read back with its parameters in order |
| VkRoundTrip.AliasCommand | interfaces/vulkan/build/parse.rs:288-292 | a command without a prototype is `None` with an alias and refused without one |
| VkRoundTrip.ParseCommandsRoundTrip | interfaces/vulkan/build/parse.rs:234-254 | written commands are read back in order |
| VkRoundTrip.ParseRegistryRoundTrip | interfaces/vulkan/build/parse.rs:92-139 | a written registry with both sections non-empty is read back |
| VkRoundTrip.ParseDocument | interfaces/vulkan/build/parse.rs:52-78 | a written document is read back, and anything after it is refused at its first item |
| VkRoundTrip.ParseRoundTrip | interfaces/vulkan/build/parse.rs:52-78 | `parse` reads back the registry a document was written from |
| VkRoundTrip.ParseRefusesTrailingItem | interfaces/vulkan/build/parse.rs:74-77 | an item after the end of the document is refused |
| VkRoundTrip.SecondTypesSectionRefused | interfaces/vulkan/build/parse.rs:100-104 | a second `<types>` after a non-empty one is refused |
| VkRoundTrip.EmptyTypesSectionReplaced | interfaces/vulkan/build/parse.rs:100-104 | a second `<types>` after an empty one replaces it |
| VkSkipping.ParseTypesSkipsFiller | interfaces/vulkan/build/parse.rs:143-166 | text items and well-formed `<comment>` elements before the rest of `<types>` leave the definitions read from the rest unchanged |
| VkSkipping.StructFieldsSkipsFiller | interfaces/vulkan/build/parse.rs:202-216 | text items and well-formed `<comment>` elements between the members of a struct leave the fields read unchanged |
| VkSkipping.CommandLoopSkipsFiller | interfaces/vulkan/build/parse.rs:265-286 | text items and well-formed `<implicitexternsyncparams>` elements inside a `<command>` leave what is read unchanged |
| VkSkipping.ParseCommandsSkipsFiller | interfaces/vulkan/build/parse.rs:234-254 | text items and well-formed `<comment>` elements before the rest of `<commands>` leave the commands read unchanged |
| VkSkipping.ParseRegistrySkipsFiller | interfaces/vulkan/build/parse.rs:111-135 | text items and well-formed `<enums>`, `<comment>`, `<platforms>`, `<tags>`, `<feature>` and `<extensions>` sections leave the registry read unchanged |
| VkSkipping.TyNameLoopReads | interfaces/vulkan/build/parse.rs:307-324 | over text items, `<name>`/`<type>`/`<enum>` elements holding only text, and well-formed `<comment>` elements, the loop appends every text to the surrounding text, keeps the last text of each tagged element, ignores the comments, and stops after the first end element |
| VkSkipping.ParseTyNameReads | interfaces/vulkan/build/parse.rs:300-355 | on such a stream `parse_ty_name` returns the collected name with the type classified from the collected surrounding text, type and enum text, or the classification's failure |
| VkPadded.ParseTypesPadded | interfaces/vulkan/build/parse.rs:143-166 | written definitions separated by text and `<comment>` elements are read back in order |
| VkPadded.ParseCommandsPadded | interfaces/vulkan/build/parse.rs:234-254 | written commands separated by text and `<comment>` elements are read back in order |
| VkPadded.ParseRegistryPadded | interfaces/vulkan/build/parse.rs:92-139 | a registry written with skipped sections and text before, between and after its two sections is read back |
| VkPadded.ParsePaddedRoundTrip | interfaces/vulkan/build/parse.rs:52-78 | `parse` reads back the registry of a whole document laid out with such filler |

## Left out

- The `futures` machinery, `Context`/`Poll`, `spin::Mutex` and the boxed trait objects of
  the collection are not modelled. `next_event` is one synchronous step. Each program's
  next event is an input, and "pending" is `None`.
- The wrapped native programs are not modelled. Each call the collection makes into a
  program is appended to that program's `inbox`.
- `InterfaceMessage::decode` is not modelled. It is a decoder parameter of the
  registration codec, so a message that fails to decode registers nothing.
- `NativeProgramsCollectionMessageIdWrite::acknowledge` (`collection.rs:325-329`) only
  forwards to `Acknowledge`, so it has no member of its own.
- NativeCollection.Acknowledge: treats the `debug_assert!` on a fresh id as always
  enabled. A release build would silently keep the id instead of failing.
- The kernel's implementation of the system calls is not modelled. That covers the
  locks on buffers, sleeping, and the lazy loading of handlers. Lazy loading is the
  `Delayed` outcome.
- The SCALE encoding of `Message` is the `encode` parameter. It is only required to
  produce non-empty output.
- The id the kernel allocates for a new message is the `freshId` parameter.
- Process memory writes of `next_message` are not modelled. The new poll list and the
  written bytes are returned instead.
- Syscalls.NextMessage: returns an unbounded length. The `u32` return value would
  truncate a message of 2^32 bytes or more.
- Crash of an interface handler is not modelled. It is the second documented source of
  an `Err` response. Only the `emit_message_error` path is.
- The xml-rs tokenizer is not modelled. A document is the sequence of items it would
  yield, each an event or a read error. A read error, like any other unexpected item, is
  a `Unexpected` failure.
- The panic message texts of the parser are not modelled.
- The writer in `VkRender` writes one form of each type-and-name pair: no comments
  inside it, no `**`, and array lengths as `<enum>` text. Streams with comments, extra
  text and `<comment>` elements inside the pair are covered by `VkSkipping.TyNameLoopReads`
  and `VkSkipping.ParseTyNameReads`; `VkParse.Classify` states the classification of any
  collected text.
- VkParse.TyNameLoop: its own contract states only progress and the kinds of failure.
  What it collects is stated by `VkSkipping.TyNameLoopReads` for streams made of text
  items, `<name>`/`<type>`/`<enum>` elements holding only text, and well-formed
  `<comment>` elements. The converse, that every stream the loop accepts has this
  shape, is not proved; a tagged element holding a nested element is refused by
  `VkParse.ExpectCharacters`, as `SkipProperties.ExpectCharactersRefusesNesting` states.

# Composable runtime: a verified model

The runtime composes WebAssembly components, wraps them in interceptors, connects them by channels, and
exposes their functions over HTTP and messages. This project models the parts of it that decide something, and
proves what they promise.

- **The interceptor compiler.** For each function of a target, the generator emits a core-wasm body that shows
  the call to an advice component, lets it skip, proceed, repeat or fail, and returns what the advice accepts.
  `Signature`, `Protocol`, `CoreWasm` and `Generator` hold the signature's core form, the loop the interceptor
  stands for, a semantics of the emitted instructions over a byte memory, and the generator itself. The advice and
  the target are a script of replies; each reply carries the memory the host leaves behind. `Layouts` and
  `CanonicalAbi` are the host's side: how a type is flattened and laid out, and how a value is stored and loaded
  (Canonical ABI of the Component Model). `SourceTypes` tells what advice is shown, may answer and hands on from the
  function's WIT types alone, and `AdviceInterface` that its records are those of the published advice interface.
  `InterceptorEntry` to `InterceptorRefinement` prove that the emitted code is the loop, `GeneratorTyping` that it
  type-checks, `InterceptorModule` that a module stays sound over a session and how calls end where code and
  documentation part, `InterceptorArea` and `InterceptorResults` which complex results reach the caller;
  `HostReplies`, `InterceptorWitness` and `OutgrownResults` show such calls.
- **The type encoder** (`TypeEncoder`) turns a graph of WIT types into an append-only index space, once for each
  type.
- **Messaging.** `Channel` is the in-memory channel as steps of publishers, consumers and group creators that
  interleave in any order; `ChannelGuarantees` is what every interleaving keeps; `LocalChannel` is the channel's own
  code, run by one thread while the others interfere; `Dispatcher` drains a channel with bounded concurrency; `Bus`
  starts and closes the whole.
- **Mapping.** `Json` defines values, schemas and conformance; `PathSyntax` the paths of templates; `Templates`
  the schema derived from a template and the value substituted into it, `TemplateLaws` what that value is, place by
  place and piece by piece, and `TemplateText` templates as they are written; `InputSchema`, `InputAcceptance`,
  `Arguments` and `ParamEncoding` the input side: the schema derived from mappings, the bodies it accepts, the
  arguments assembled from them and their encoding as bytes; `InsertionOrder` what the order of insertion
  changes; `Coercion` structural alignment; `Conversion`, `Converter`, `MergedPayloads`, `RoundTrips` and
  `EmittedSchema` component values, their JSON and their schemas; `AdmittedValues` what a value that passes its
  schema is read as; `Invocations` the whole way from a body to a function's arguments, and `Replies` from its
  result to a reply.
- **Composition.** `Definitions`, `CompositionGraph` and `GraphGuarantees` build the component graph with its
  interceptor chains; `Topology` orders it; `Registry` folds over the order.
- **Two decision procedures.** `Matcher` is glob matching over `Texts`, `RouteTable` the HTTP route table.

Where the code and its documentation part, the model follows the code:

- The advice interface promises that accepting a complex result uses the target's value regardless of what is
  provided; the emitted code keeps it exactly when the provided value is itself complex, and traps otherwise
  (`InterceptorModule.ComplexAccept`, `InterceptorWitness.ComplexResultLost`).
- The area for a target's complex result is sized by its core values, while the host stores the result by its memory
  layout, which can end further up. Such a result reaches the caller in every call if and only if it ends below the first
  block the host takes after `before`, which the list of arguments keeps free (`InterceptorResults.ResultReaches`).
  Without parameters `option<option<u64>>` is lost (`OutgrownResults.NestedOptionLost`), and a text in an option can be
  destroyed by the storing itself (`OutgrownResults.TextOverwritten`).
- Skipping or accepting with `none` where a result is due reads whatever bytes the slot holds
  (`InterceptorModule.AbsentSkip`, `InterceptorModule.AbsentAccept`, `InterceptorWitness.EmptyTextReturned`).
- A boolean is stored as one byte and read back as a word, so that a stored false can reach the target as true
  (`InterceptorModule.BooleanReaches`, `InterceptorWitness.FalseArrivesTrue`).
- A channel group whose creator is between its two locks at close stays open
  (`ChannelGuarantees.ReopensOnlyIfPending`, `ChannelGuarantees.ReopenedByCreator`).
- The conflict check takes a fixed required value and a different fixed optional value of one query parameter to
  overlap; they never do (`RouteTable.OverlapUnlessMissed`).
- With a response template, result decoding rewrites no schema when the function returns a `result` or an `option`: a
  template that refers to a decoded field is promised bytes (`Replies.DecodedReply`, `Replies.DecodingMissedInResult`).
  Without a template the schema is unwrapped first and rewritten (`Replies.PlainDecodedReply`).
- A lone optional parameter that is absent from an object body receives the whole body, and is never none
  (`Arguments.UnmappedArguments`, `Invocations.LoneAbsent`).
- A variant's payload that renders as an object is merged with the tag. A result comes back; anything else only if it has
  a field `type` that says the tag, no field `value`, and no field `variant` that it would miss
  (`MergedPayloads.PayloadReturns`, `MergedPayloads.MergedPayloadLost`).
- Mappings are inserted in the order of a hash map. Where a path leads through another's leaf, the order can decide
  whether there is a schema (`InsertionOrder.OrderDecides`, `InsertionOrder.OrderMattersOtherwise`).
- The schema of an integer type admits any number within its bounds; only 64-bit integers are read
  (`AdmittedValues.Admitted`).
- Interpolation puts the characters of a template out one byte at a time, so that a literal text is kept if and only if it
  is ASCII (`TemplateText.LiteralKept`, `TemplateText.LiteralGarbled`).
- A lone token whose default does not parse counts as a reference when a schema is derived, but cannot be substituted;
  otherwise the two readings of a template agree (`TemplateText.TextsAgree`, `TemplateText.HalvesAgree`).
- A match pattern without a `:` ignores what stands behind a `#` (`Matcher.BarePattern`).
- Alignment descends into tuples, coercion does not (`Coercion.AlignExactly`, `Coercion.TuplesNotCoerced`).

## Model

| member | source | states |
|---|---|---|
| Signature.DeriveConsistent | crates/interceptor/src/generator.rs:137-211 | For every supported signature the derived record is coherent: one discriminant and one list of flats for each parameter, the result's flats those of its type, lifted and lowered core parameters the concatenated flats, with a return-area pointer exactly when the result needs one. |
| Signature.DiscriminantFitsFlats | crates/interceptor/src/types.rs:104-137 | The tag and the flattening of a type agree: text has a pointer and a length, scalars one flat of the right width. Which tag a source type has is settled by `SourceTypes`. |
| Signature.Despecialized | crates/interceptor/src/types.rs:104-115 | A tuple, option, result, enum, fixed-length list or map has the layout of the record, variant or list it abbreviates. |
| SourceTypes.ArgumentShown | crates/interceptor/src/types.rs:119-137 | For every function that can be intercepted, each argument is shown under its parameter's name as the one value its core values denote by the source type with aliases followed: a signed number for `s8` to `s64`, an unsigned one for `u8` to `u64` and characters, a boolean, single, double or text for these, and an empty complex value for all else. |
| SourceTypes.ArgumentsAdmitted | crates/interceptor/src/types.rs:119-137 | Arguments the advice proceeds with have the kinds the interceptor asks for exactly when each has the kind of its parameter's source type. |
| SourceTypes.ArgumentGiven | crates/interceptor/src/generator.rs:908-974 | The target then receives the core value of what the advice gave, its text, or, for a compound type, the caller's own core values. |
| SourceTypes.ResultTold | crates/interceptor/src/generator.rs:1106-1177 | What `after` is told is the value of the result's source type that the target's answer denotes. |
| SourceTypes.SkipReturned | crates/interceptor/src/generator.rs:841-879 | In any round, a value to skip with is returned exactly when it has the kind of the result's source type and that is not compound; a function without result returns, anything else traps. |
| SourceTypes.AcceptReturned | crates/interceptor/src/generator.rs:881-906 | In any round, a value to accept with is returned exactly when it has the kind of the result's source type; for a compound type the target's own result is; anything else traps. |
| SourceTypes.ResultGiven | crates/interceptor/src/generator.rs:908-974 | The caller of a scalar function gets the core value of the value returned. |
| SourceTypes.TypeNameShown | crates/interceptor/src/types.rs:139-181 | A named type is shown under its name, an unnamed alias as what it stands for, a number by the letter of its kind and its width in bits, and `bool`, `char` and `string` as such. |
| AdviceInterface.ValueLifts | crates/interceptor/wit/package.wit:10-18 | What the protocol reads at an address is what the host loads from there as the interface's `value`: same case, same payload. |
| AdviceInterface.JunkExactly | crates/interceptor/wit/package.wit:10-18 | The protocol reads junk exactly where the host loads no `value`, or a boolean in a word that is neither zero nor one. |
| AdviceInterface.ArgsLift | crates/interceptor/wit/package.wit:21-28 | The records the interceptor keeps of its arguments are, loaded by the host, the interface's `list<arg>` of just those arguments. |
| Signature.AlignUp | crates/interceptor/src/generator.rs:586-594 | Rounding up to an alignment, here by division, yields the least aligned address at or above its input. |
| Signature.SlotInArea | crates/interceptor/src/generator.rs:1074-1088 | Each result component lies naturally aligned inside the allocated return area and after its predecessors, so the two layout loops agree. |
| Memory.LoadStored | crates/interceptor/src/generator.rs:744-839 | A little-endian load reads back exactly what a store of the same width put there. |
| Protocol.CoreRoundTrip | crates/interceptor/src/generator.rs:908-974 | A scalar's core bits survive being widened into an advice value and narrowed back, for every discriminant and flat type. |
| Protocol.NumberShown | crates/interceptor/src/generator.rs:771-800 | Advice is shown the very number a core value is in two's complement, sign-extended or zero-extended by its kind. |
| Protocol.NumberGiven | crates/interceptor/src/generator.rs:930-942 | The number advice gives goes on as the low bits of its two's complement. |
| Protocol.HandlesDropped | crates/interceptor/src/generator.rs:640-741 | On every path of the loop that does not trap, each invocation handle that was created has been dropped exactly once, in order, over any number of repeats. |
| Protocol.ToldResult | crates/interceptor/src/generator.rs:1106-1177 | What `after` is told carries the declared kind and, given back, denotes the target's own result. |
| Protocol.IdentityAdvice | crates/interceptor/src/generator.rs:519-741 | Advice that proceeds with what it was shown and accepts what it was told is invisible: the target runs once on the caller's values and its value is returned. |
| Generator.WriteInterceptorFunc | crates/interceptor/src/generator.rs:519-741 | The writer, appending instruction by instruction through its loops, emits exactly the interceptor's code for the signature, with its declared locals. |
| Generator.WriteMarshalParam | crates/interceptor/src/generator.rs:744-839 | Appends the record of one parameter and advances the core parameter index by its flats. |
| Generator.WriteProceedAndCallTarget | crates/interceptor/src/generator.rs:976-1100 | Appends the unwrapping of every argument, the call on the original flats for complex positions, and the result loads. |
| Generator.WriteSkipReturn | crates/interceptor/src/generator.rs:841-879 | Appends the guarded return of a skipped call. |
| Generator.WriteAcceptReturn | crates/interceptor/src/generator.rs:881-906 | Appends the guarded return of an accepted result. |
| Generator.WriteUnwrapValueToOut | crates/interceptor/src/generator.rs:908-974 | Appends the load of an advice value into the out local, a trap for complex ones. |
| Generator.MeasureRetarea | crates/interceptor/src/generator.rs:586-594 | The measuring loop computes the end of the last naturally aligned slot. |
| Generator.DeclareLocals | crates/interceptor/src/generator.rs:529-566 | Declares exactly the locals the body uses. |
| GeneratorTyping.InterceptorTypes | crates/interceptor/src/generator.rs:519-741 | For every signature the emitted function type-checks: each local is declared once with the type its uses need, parameter indexes stay in range, call arity and types match the lowered import, and the returned value has the lifted result type. |
| GeneratorTyping.LocalsDistinct | crates/interceptor/src/generator.rs:529-566 | No local name is declared twice. |
| GeneratorTyping.CheckCall | crates/interceptor/src/generator.rs:1040-1100 | The arguments pushed for the target match the lowered import in number and type. |
| InterceptorEntry.RunMarshal | crates/interceptor/src/generator.rs:602-641 | Running the marshalling code leaves one complete record for each parameter and touches nothing below the work areas. |
| InterceptorEntry.RecordReads | crates/interceptor/src/generator.rs:744-839 | A marshalled record, read as the advice reads it, is the argument shown for the caller's flats. |
| InterceptorEntry.RecordKept | crates/interceptor/src/generator.rs:602-641 | Later records do not disturb earlier ones. |
| InterceptorBefore.RunBegin | crates/interceptor/src/generator.rs:647-680 | The heap returns to the watermark, the constructor reads the whole list first, `before` answers, and an error drops the handle and traps. |
| InterceptorBefore.RunGuardedSkip | crates/interceptor/src/generator.rs:841-879 | A skip with the wrong kind traps after dropping, with a complex result always traps, and otherwise returns the advice's value. |
| InterceptorTarget.RunUnwrap | crates/interceptor/src/generator.rs:976-1040 | Unwrapping traps at the first argument of the wrong kind and otherwise binds every argument to the bits the advice gave. |
| InterceptorTarget.StepTargetOk | crates/interceptor/src/generator.rs:1042-1070 | The target receives exactly the advice's arguments, complex positions keeping the caller's flats. |
| InterceptorAfter.StepAfterOk | crates/interceptor/src/generator.rs:1106-1177 | `after` is told the target's result as the protocol says it. |
| InterceptorAfter.RunAfterDispatch | crates/interceptor/src/generator.rs:694-728 | After an answer the code traps, repeats with the advice's new list, or accepts, each with the handle dropped as it should be. |
| InterceptorRefinement.RunIteration | crates/interceptor/src/generator.rs:647-735 | One iteration of the emitted loop ends as one round of the abstract loop, or asks for another round whose argument list lies intact above the watermark. |
| InterceptorRefinement.LoopRefines | crates/interceptor/src/generator.rs:640-735 | By induction over the replies, any number of repeats of the emitted loop agree with the abstract loop. |
| InterceptorRefinement.InterceptorRefines | crates/interceptor/src/generator.rs:519-741 | Compiler correctness: for every supported signature, caller's arguments and sequence of host replies, the emitted body makes the same calls in the same order on the same values as the abstract loop, traps exactly where it traps, returns its value, and leaves the memory below the entry heap as it was. A complex result in memory is what the last reply left in its area, and loads as the target's value if the signature leaves room for it. The body waits exactly when the sequence has no reply the host could give at that point, and runs out of memory exactly when a text is to be returned and eight bytes are not left for it. |
| InterceptorArea.RoundKeepsResult | crates/interceptor/src/generator.rs:586-599 | If the result's layout ends below the first block the host takes after `before`, what the caller loads from the area at the end of a round is the value the target's answer stored there, nested texts and lists included. |
| InterceptorResults.ResultReaches | crates/interceptor/src/generator.rs:586-599 | In every call in which the target's complex result is handed through the caller loads the target's value, if and only if the result's layout ends no higher above the area's start than the area's size, 8-aligned, and 32 bytes for each parameter. |
| InterceptorResults.ResultLost | crates/interceptor/src/generator.rs:586-599 | Otherwise, whatever the parameters, there are replies with which the call completes and the caller loads something else. |
| OutgrownResults.NestedOptionLost | crates/interceptor/src/generator.rs:586-599 | A run of a function that takes nothing and returns `option<option<u64>>`, 16 bytes by core values and 24 in memory, in which the value is lost. |
| OutgrownResults.ParameterSaves | crates/interceptor/src/generator.rs:586-599 | With any parameter the same result outgrows its area and still reaches the caller: the list of arguments lies in between. |
| OutgrownResults.AlignmentSaves | crates/interceptor/src/generator.rs:586-599 | A record of a record and a text outgrows its area of 20 bytes by four, just what aligning the list of arguments, even an empty one, leaves free. |
| OutgrownResults.TextOverwritten | crates/interceptor/src/generator.rs:586-599 | Where the allocator stands at the end of the area, storing an option of a couple with a text puts the text where its address is stored next: the value does not load back even if nothing else is written. |
| InterceptorWitness.SimpleCallRuns | crates/interceptor/src/generator.rs:519-741 | With obliging advice any call of a function without result runs to its end: one instance, the target once, the handle dropped. |
| InterceptorWitness.EmptyTextReturned | crates/interceptor/src/generator.rs:841-879 | A run of the emitted body in which advice skips without a value and the caller is given a text: a zeroed slot bears the tag of text. |
| InterceptorWitness.FalseArrivesTrue | crates/interceptor/src/generator.rs:1010-1016 | A run in which the advice proceeds with false, stored as one byte, and the target is called with a nonzero flat. |
| InterceptorWitness.ComplexResultLost | crates/interceptor/src/generator.rs:881-906 | For any function with a complex result in memory, a run in which the advice accepts without a value of its own, and the call traps. |
| InterceptorWitness.SomeSimple | crates/interceptor/src/generator.rs:137-211 | Such a call of a function that takes and returns nothing exists, the derived record being the one of the WIT function. |
| InterceptorWitness.SomeCarrier | crates/interceptor/src/generator.rs:137-211 | So does the call of a function that returns two numbers, a complex result in memory. |
| InterceptorWitness.SomeBlank | crates/interceptor/src/generator.rs:137-211 | So does the call of a function that returns a text, in a memory of zeros. |
| InterceptorWitness.SomeStale | crates/interceptor/src/generator.rs:137-211 | So does the call of a function of one boolean, in memory where an earlier call has left a byte. |
| InterceptorModule.LayOutStrings | crates/interceptor/src/generator.rs:390-426 | Every function's and parameter's name and type name is found at its recorded offset in the string data, which ends below the 8-aligned heap base. |
| InterceptorModule.Realloc | crates/interceptor/src/generator.rs:218-229 | A block is aligned as asked, does not overlap anything allocated before, and ends at the new heap. |
| InterceptorModule.CallKeepsRest | crates/interceptor/src/generator.rs:464-489 | Running a call's body and then the code of its post-return leaves the heap at its base and the string data intact. |
| InterceptorModule.SessionAtRest | crates/interceptor/src/generator.rs:426-489 | Over any session of completed calls of any functions of the module, each followed by the run of its post-return, every call starts and ends at rest, so each finds its strings and its room. |
| InterceptorModule.AbsentSkip | crates/interceptor/src/generator.rs:841-879 | In the run of any call whose advice, after any number of repeats, skips without a value where one is due, the tag byte in the slot decides: another kind than the declared one traps, the declared one returns the bits that lie there. |
| InterceptorModule.AbsentAccept | crates/interceptor/src/generator.rs:881-906 | The same where the advice in the end lets the target run and accepts without a value. |
| InterceptorModule.ComplexAccept | crates/interceptor/src/generator.rs:881-906 | In the run of any call of a function with a complex result that is accepted, after any number of repeats, the target's result is handed through exactly when the tag byte of the advice's value says complex, and otherwise the call traps; handed through in memory it is what the last reply left, and the target's value if there is room for it. |
| InterceptorModule.BooleanReadBack | crates/interceptor/src/generator.rs:1010-1016 | A boolean stored as one byte and read as a word is read right exactly when it is true or the next three bytes are zero. |
| InterceptorModule.BooleanReaches | crates/interceptor/src/generator.rs:1010-1016 | In the run of any call whose advice, after any number of repeats, proceeds with a boolean, the last call of the target gets the whole word the boolean lies in, which reads as the boolean exactly when that is true or the next three bytes are zero. |
| TypeEncoder.ReadGrows | crates/interceptor/src/encoder.rs:145-365 | What an index of the table means never changes as the table grows. |
| TypeEncoder.InstanceTypeEncoder.Push | crates/interceptor/src/encoder.rs:90-110 | Appending an entry keeps every entry referring to earlier ones only, every memoised index meaning its type, and no type defined twice. |
| TypeEncoder.InstanceTypeEncoder.ImportType | crates/interceptor/src/encoder.rs:115-137 | The returned index reads as the foreign type, opaque, under its name. |
| TypeEncoder.InstanceTypeEncoder.Define | crates/interceptor/src/encoder.rs:343-364 | Defines a type once, exports it when named, and the remembered index means the source type. |
| TypeEncoder.InstanceTypeEncoder.EncodeValtype | crates/interceptor/src/encoder.rs:145-365 | For every acyclic type graph: encoding succeeds exactly when the type has a meaning, and then the returned reference is in range and reads back from the table as the source type; the table only grows, and an index is remembered under its type. A named type that another interface owns succeeds exactly when the component level holds it, and reads as that, opaque, under its name. |
| TypeEncoder.ForeignMeaning | crates/interceptor/src/encoder.rs:174-188 | Such a type means its name over what the component level holds for it, or nothing if that holds nothing. |
| TypeEncoder.LocalMeaning | crates/interceptor/src/encoder.rs:174-364 | A compound type of this interface, of none or without a name means its own shape over what its parts mean, under its name if it has one, whatever the component level holds; it means nothing exactly when a part does, or when it is a handle to a primitive. |
| TypeEncoder.LocalOther | crates/interceptor/src/encoder.rs:272-341 | An alias of this interface means what it stands for, a resource its name; an unnamed resource and an unknown type mean nothing. |
| TypeEncoder.SelfContainedMeans | crates/interceptor/src/encoder.rs:145-365 | Every type of an interface without foreign and unknown types, unnamed resources and handles to primitives has a meaning, with no help from the component level. |
| TypeEncoder.InstanceTypeEncoder.EncodeCompound | crates/interceptor/src/encoder.rs:190-341 | A compound type reads back as its shape over what its component types mean; a handle to anything not indexed fails. |
| TypeEncoder.InstanceTypeEncoder.EncodeParts | crates/interceptor/src/encoder.rs:191-240 | Component types are encoded left to right and read back in order; the first that fails, fails all. |
| TypeEncoder.InstanceTypeEncoder.EncodeFunctype | crates/interceptor/src/encoder.rs:369-406 | The entry describes the function: same parameter names and types in order, same result, same asynchrony; it exists exactly when all types mentioned have a meaning. |
| TypeEncoder.InstanceTypeEncoder.EncodeInstance | crates/interceptor/src/encoder.rs:413-438 | Succeeds only when every owned type and every type a function mentions has a meaning, each owned type then indexed or a primitive, and each function described under its name in order; fails only if some such type has none, and never on a self-contained interface. |
| Channel.StepKeeps | src/messaging/channel.rs:206-359 | Every step of any thread keeps the invariant: one queue and at most one sender for each group, bounded queues in FIFO order, one copy for each target already sent to, one publisher's messages in order; and undoes nothing. |
| Channel.RunKeeps | src/messaging/channel.rs:206-359 | The same over every interleaving of any length. |
| ChannelGuarantees.ExactCopies | src/messaging/channel.rs:269-303 | A publish has put exactly one copy in each queue it has sent to and none anywhere else. |
| ChannelGuarantees.FanOut | src/messaging/channel.rs:257-306 | Whatever the other threads do: an Ok publish left exactly one copy with every group of its snapshot and none elsewhere, a failed one exactly a proper prefix of its iteration order, and it fails for want of receivers exactly when the snapshot was empty. |
| ChannelGuarantees.SingleDeliveryInOrder | src/messaging/channel.rs:316-359 | In every reachable state each copy is still queued or was handed to one consumer of the group, never two, in the order accepted; queues stay within capacity; one publisher's messages keep their order. |
| ChannelGuarantees.OneQueueForLife | src/messaging/channel.rs:208-221 | A group keeps its queue for ever, shares it with no other, and any sender of the group feeds it. |
| ChannelGuarantees.ClosedIsFinal | src/messaging/channel.rs:333-349 | Once a consumer sees Closed, everything its group ever accepted has been consumed and no later step of any thread changes that. |
| ChannelGuarantees.ReopensOnlyIfPending | src/messaging/channel.rs:236-240 | A group that exists when the senders are cleared has a sender later exactly when its creator had not yet stored it at the clear and has stored it since. |
| ChannelGuarantees.ReopenedByCreator | src/messaging/channel.rs:208-240 | From every state, a creator overtaken by the clear ends it with the only sender of the channel. |
| ChannelGuarantees.LateMessages | src/messaging/channel.rs:236-306 | After the clear, a group registered before accepts only from publishers that had already cloned its sender. |
| ChannelGuarantees.DrainEnds | src/messaging/channel.rs:236-359 | What is on its way runs out: no schedule of sends, returns and receives is longer than the load. |
| ChannelGuarantees.DrainProceeds | src/messaging/channel.rs:236-359 | With all senders gone, either every group sees Closed or some send, return or receive is possible, so draining cannot get stuck. |
| LocalChannel.LocalChannel.InitGroup | src/messaging/channel.rs:208-221 | Registers a group across two locks with others interfering between them: exactly those steps happen; the group ends with its own sender, a registered one is left alone. |
| LocalChannel.LocalChannel.Close | src/messaging/channel.rs:236-240 | Drops the channel's senders and nothing else. |
| LocalChannel.LocalChannel.Publish | src/messaging/channel.rs:257-306 | Sends to one cloned sender after another while others interfere. At each turn it finds the state its own sends and the schedules in between lead to, and either sends one copy to the next group or finds that group's queue at capacity; it gives up only at such a queue, by Full without waiting or by a timeout when its time has run out, and then at once; no receivers is reported exactly for an empty snapshot. It leaves exactly the promised copies in every group. Left alone with room in every queue and as many turns as groups, it succeeds whatever its timeout. |
| LocalChannel.LocalChannel.TrySend | src/messaging/channel.rs:271-303 | One attempt: a copy goes into the next queue exactly when that has room; else the publisher gives up exactly when it waits no longer. |
| LocalChannel.TurnSends | src/messaging/channel.rs:286-303 | A turn puts one copy at the end of the next queue and changes no other, unless that queue is at capacity. |
| LocalChannel.IdleSucceeds | src/messaging/channel.rs:271-306 | A publisher left alone with room in each of its queues succeeds, for every timeout, once it has as many turns as queues. |
| LocalChannel.LocalChannel.Consume | src/messaging/channel.rs:316-359 | Joins or creates the group, then takes its oldest message at the first wait that ends with one queued; before that it has found, after every wait, nothing queued, a sender left and time to go on. Closed is reported exactly when nothing is queued and no sender is left, a timeout exactly when nothing is queued, a sender is left and the time has run out. |
| Dispatcher.Conserved | src/messaging/dispatcher.rs:43-99 | In every history of any number of dispatchers: in-flight work never exceeds the concurrency (one where that is zero), and the accepted messages are the queued ones plus those in flight, acknowledged and refused. |
| Dispatcher.DrainedExactlyOnce | src/messaging/dispatcher.rs:43-99 | Once all dispatchers of a group have ended, one of them by Closed, each message the group ever accepted has had one handler call: it has been acknowledged once and never refused if that succeeded, refused once and never acknowledged if it failed; nothing else has been acknowledged or refused. |
| Dispatcher.VerdictsRight | src/messaging/dispatcher.rs:85-97 | In every history, what the workers of a group have acknowledged is exactly what their successful handler calls were given, and what they have refused what their failed ones were given. |
| Dispatcher.EventKeeps | src/messaging/dispatcher.rs:43-99 | Every event keeps conservation, the bound on in-flight work, and that a dispatcher ending by Closed saw a closed channel. |
| Dispatcher.RunLoop | src/messaging/dispatcher.rs:43-75 | The dispatch loop, given any schedule of what others do, is a history of the machine in which the loop moves at its own turns only, and at each of them unless nothing is left but to wait: a queued message is taken before the end of the channel, the timer and the token are looked at. It ends by Closed only on a closed channel and only with no task left. |
| Dispatcher.NextMove | src/messaging/dispatcher.rs:46-75 | Finds the loop's next move, or that it can only wait. |
| Bus.GenericBus.Start | src/messaging/bus.rs:121-173 | Succeeds exactly when an invoker is set and every subscription activates; then every subscriber has a live group before start returns and one dispatcher of concurrency 1; on failure exactly the subscriptions up to the failing one have groups, and the failing one has no dispatcher. |
| Bus.GenericBus.Shutdown | src/messaging/bus.rs:175-178 | Every registered channel loses its senders, nothing else changes. |
| Bus.SubscriberHears | src/messaging/bus.rs:121-178 | Every message whose publish returns Ok before the close is accepted, exactly once, into the queue of each subscriber registered by start, under any interleaving. |
| Matcher.GlobMatch | crates/interceptor/src/matcher.rs:46-80 | Greedy matching is exact: it accepts if and only if some choice of strings for the stars yields the value. |
| Matcher.Leftmost | crates/interceptor/src/matcher.rs:62-71 | Taking the leftmost occurrence of a middle part loses no match. |
| Matcher.Find | crates/interceptor/src/matcher.rs:67-70 | Finds the leftmost occurrence, or there is none. |
| Matcher.MatchesFunction | crates/interceptor/src/matcher.rs:154-167 | Decides what a pattern selects; interface qualifiers never select a direct function. |
| Matcher.MatchesInterface | crates/interceptor/src/matcher.rs:170-195 | Decides what the four interface segments select; malformed names are not selected. |
| Matcher.QualifiedPattern | crates/interceptor/src/matcher.rs:101-195 | A pattern with a ':', with or without its interface, version and function, selects exactly the functions of interfaces for which every part it has is a glob for its counterpart, a version other than a lone star being equal; it never selects a direct function. |
| Matcher.BarePattern | crates/interceptor/src/matcher.rs:107-130 | A pattern without a ':' selects by function name, in any interface of its version if it has one, else in any interface or none; what stands behind a '#' is ignored. |
| Matcher.TwoForms | crates/interceptor/src/matcher.rs:107-150 | Every text is a pattern of one of these two forms. |
| Matcher.SpaceAround | crates/interceptor/src/matcher.rs:101-105 | White space around a pattern does not matter. |
| Matcher.NoPattern | crates/interceptor/src/matcher.rs:101-105 | Exactly the texts of nothing but white space are no patterns. |
| Matcher.ParsesPrinted | crates/interceptor/src/matcher.rs:170-185 | Only texts made of the parts of an interface name with their delimiters are read as one; any other lacks the ':' or a '/' behind it. |
| PathSyntax.ParsePath | src/mapping.rs:876-956 | The cursor parser accepts just the strings of the path grammar, with its result, every slice in bounds and the scan ending. |
| PathSyntax.ParseSegment | src/mapping.rs:892-953 | Reads one segment and where it ends, or fails just where the grammar has none. |
| PathSyntax.ParsePrinted | src/mapping.rs:876-956 | Printing any path whose first segment is a name and whose others are quote-free keys or indexes that fit, then parsing it, gives it back. |
| PathSyntax.AcceptedReprints | src/mapping.rs:876-956 | Every accepted string denotes such a path, so re-printing it gives a string for the same path. |
| PathSyntax.ReadsExactly | src/mapping.rs:873-956 | A text is accepted, as a path, exactly when it spells that path: a bare name, then dotted names, quoted keys and decimal indexes that fit. |
| Templates.ResolvePath | src/schema.rs:89-136 | The cursor loop returns the unwrapped schema reached by the path. |
| Templates.ReachConforms | src/schema.rs:89-136 | Looking up a path in a conforming value leads to a value that conforms to the schema the path reaches. |
| Templates.PathSound | src/schema.rs:89-178 | The value a bare reference yields conforms to the schema derived for it if and only if it is not a null at an option. |
| Templates.TemplateSound | src/schema.rs:393-436 | Template type soundness, exactly: if the value conforms to the source schema and both halves succeed, the substituted value conforms to the derived schema if and only if no bare reference picks up a null at an option. |
| Templates.TemplateSoundOneOfFree | src/schema.rs:393-436 | For source schemas without `oneOf` the substituted value always conforms to the derived schema. |
| TemplateText.SubstituteString | src/mapping.rs:1005-1031 | The interpolation loop over the text of a template puts out its characters and the text of its references in order, and fails exactly where a token does not parse or resolve; `TemplateLaws` says what text that is. |
| Templates.ResolveValue | src/mapping.rs:972-1003 | The cursor loop leads to the value at the path, or to the default. |
| TemplateLaws.LookupJoins | src/mapping.rs:972-1003 | A path leads where its second half leads from where its first half does. |
| TemplateLaws.OnePiece | src/mapping.rs:1005-1031 | A piece of plain text yields itself; a reference yields a string verbatim, null as nothing, and any other value as its JSON text, its default standing in for a value that is not there; a token that does not parse, or without value and default, fails. |
| TemplateLaws.TextsJoin | src/mapping.rs:1005-1023 | Pieces put together yield their texts put together, and fail exactly when one of the two halves does. |
| TemplateLaws.ShapeKept | src/mapping.rs:794-817 | At every path into a template stands, in the result, what the template there yields: arrays keep their length, objects their keys. |
| TemplateLaws.AllOrNothing | src/mapping.rs:794-817 | A template yields a value exactly when each reference and text in it, at any depth, does. |
| TemplateLaws.LeafYields | src/mapping.rs:794-817 | A lone reference yields the value at its path as it is, or its default; literals yield themselves. |
| TemplateText.OutsideTokens | src/mapping.rs:1016-1020 | Characters before any token are put out before what follows. |
| TemplateText.TokenFirst | src/mapping.rs:1009-1015 | A token up to its closing brace yields its own text, and the text behind it follows. |
| TemplateText.LiteralKept | src/mapping.rs:1016-1020 | A text without tokens comes out as it is if and only if all its characters are ASCII; any other is put out byte by byte. |
| TemplateText.LiteralGarbled | src/mapping.rs:1019 | The smallest text that is not kept: one letter comes out as two. |
| TemplateText.TextsAgree | src/schema.rs:25-67 | The reading of a text for schemas and the one for values differ only at a lone token whose default does not parse, and there substitution fails. |
| TemplateText.HalvesAgree | src/schema.rs:393-455 | Wherever substitution succeeds, the derived schema and the paths a template names are those of the template that substitution reads. |
| TemplateText.WrittenTemplateSound | src/schema.rs:393-436 | Soundness, exactly, of a template as it is written, with its two readings. |
| TemplateText.SameContributions | src/schema.rs:260-286 | Likewise a parameter's template asks the same of a body in both readings. |
| Templates.ApplyResultDecoding | src/mapping.rs:247-314 | Content types are settled on the original result, then exactly the named fields are replaced by their decoded values, or it fails. |
| Templates.DecodingSound | src/schema.rs:378-391 | Decoding rewrites schema and value together: the decoded value conforms to the decoded schema. |
| Templates.DecodedTemplateSound | src/schema.rs:328-373 | Soundness of a whole reply body: decoding, then substitution. |
| Templates.Bytes | src/mapping.rs:316-328 | A list is taken as bytes if and only if all its entries are integers from 0 to 255, and then each byte is its entry. |
| Replies.ReplySound | src/mapping.rs:650-689 | The JSON of any acceptable value of a result-free type, put through a response template, conforms to the schema derived from the type, if and only if no bare reference picks up an absent option. |
| Replies.DecodedReply | src/schema.rs:328-391 | A decoded reply of a function that returns a record, or an option or result of one, put through a response template, conforms to the derived schema if and only if no bare reference picks up an absent option and, unless the record is returned bare, none takes from a decoded field anything that does not still look like bytes. |
| Replies.PlainDecodedReply | src/schema.rs:334-349 | Without a response template the decoded reply of such a function always conforms, since the schema is unwrapped before it is decoded. |
| Replies.DecodingMissedInResult | src/schema.rs:365-391 | For a result whose record has one field of bytes, decoded as text and referred to on its own: value and schema run through the code, and the schema refuses the value. |
| InputSchema.InsertTree | src/schema.rs:489-588 | Inserting a leaf into the tree of a set of leaves gives the tree of one leaf more, or fails exactly where a different leaf stands. |
| InputSchema.InsertAll | src/schema.rs:240-287 | In whatever order the entries are visited: where no path leads through another's leaf, insertion succeeds exactly when paths are made of keys and no path has two schemas, and the schema depends on the set of contributions alone. |
| InputSchema.DeriveInputSchema | src/schema.rs:202-295 | The derived input schema is the tree of all contributions, independent of order, and exists exactly when names, paths and schemas agree. |
| InsertionOrder.OutcomeIs | src/schema.rs:489-588 | What becomes of a leaf inserted after any number of the leaves below it: first of all, it takes them in if nothing else stands at their paths; later, it must be exactly what those before it made. |
| InsertionOrder.OrderDecides | src/schema.rs:489-588 | A leaf above others: every order of insertion fails exactly when the leaf holds something else at one of their paths; every order succeeds, with one result, exactly when there is one leaf below and it alone makes the leaf above; in all other cases the order decides whether there is a schema. |
| InsertionOrder.OrderMattersOtherwise | src/schema.rs:489-588 | One pair of contributions for which one order gives a schema and the other none: a titled record and one of its own fields. |
| Arguments.ToInvocation | src/mapping.rs:576-632 | The assembly loops yield the argument of every parameter in order, or fail if one cannot be had. |
| Arguments.AssembledExactly | src/mapping.rs:588-607 | A mapped parameter has what its template yields, any other the body's property of its name; failing that, a lone parameter without mapping has the whole body and an optional one null. There are no arguments exactly when a template yields nothing, a required parameter goes without, or a body to be taken apart is no object. |
| Arguments.FinishedExactly | src/mapping.rs:609-627 | After encoding, a string parameter takes any value but text and null by its JSON text; all else is left as it is. |
| Arguments.SourceHolds | src/mapping.rs:587-596 | Templates find the body under `body`, the headers under `headers`, and nothing else. |
| Arguments.MappedProgress | src/mapping.rs:597-607 | Progress: with a usable mapping every body that conforms to the derived schema gives a value for each parameter: what its template yields, conforming to the advertised schema if taken whole from the body, or, for an optional parameter without template, the property of its name or null. |
| InputAcceptance.TreeAccepts | src/schema.rs:489-588 | A body conforms to the derived input schema if and only if it has a conforming value at each leaf's path and, above the leaves, only objects whose keys all lead on to a leaf. |
| Arguments.MappedAccepts | src/schema.rs:237-292 | With a mapping the input schema accepts exactly the bodies that have, for each template, a value that fits at a bare reference and a text at any other, and nothing beside the paths referred to. |
| Arguments.SubstituteSucceeds | src/mapping.rs:794-817 | Substitution succeeds when every token parses and every reference resolves. |
| Arguments.UnmappedArguments | src/mapping.rs:718-788 | Without a mapping each parameter gets its own property, or null if absent, if and only if it is not a lone optional parameter that is absent. |
| Arguments.UnmappedAccepts | src/schema.rs:220-238 | Without a mapping the input schema accepts exactly the objects whose keys are parameters, with every required one present and each present one fitting the schema it advertises. |
| ParamEncoding.ApplyParamEncoding | src/mapping.rs:341-385 | Replaces in place exactly the named arguments by their encodings, each by a content type settled on the original arguments, or fails if one cannot be encoded. |
| ParamEncoding.DecodesBack | src/mapping.rs:247-314 | Decoding a field by the content type it was encoded with gives back the value that was encoded. |
| ParamEncoding.DecodingUndoes | src/mapping.rs:247-314 | Decoding undoes encoding for a whole result: fields that hold encodings, by content types that are fixed or stand in the result as it is, are replaced by the values encoded, and the others stay. |
| ParamEncoding.EncodedExactly | src/mapping.rs:337-385 | Each named argument is replaced by its own encoding and every other stays; it fails exactly where a name is no parameter's, a content type is missing, or an encoding fails. |
| ParamEncoding.ContentTypeRead | src/mapping.rs:387-430 | A content type that is not fixed is the text at its path into the arguments, taken as one object by parameter. |
| Invocations.UnmappedInvocation | src/runtime/component.rs:134-151 | Without a mapping, every body that passes the advertised schema gives each parameter exactly what the body says of it, read as the parameter's type; the only failures are integers not written as 64-bit ones and content types read at run time that do not suit. Excepted is a lone optional parameter left out. |
| Invocations.LoneAbsent | src/mapping.rs:718-788 | The excepted case: the argument is the empty body itself, which fails to convert unless an empty object stands for a value of the type, and never converts to none. |
| Invocations.LoneWhole | src/mapping.rs:718-788 | A body of any shape that does not name a lone parameter becomes its argument; for an optional one it converts to none just where it is null. |
| Invocations.MappedInvocation | src/mapping.rs:576-632 | The same with a mapping, for every parameter taken whole from the body. |
| Invocations.FixedNeverFails | src/mapping.rs:341-385 | Encoding by fixed, supported content types never fails on values of the advertised shape. |
| Coercion.CoerceValue | src/schema.rs:671-703 | The in-place loops coerce every field and item the schema describes and leave the rest. |
| Coercion.TextPutIn | src/schema.rs:671-703 | Wherever the schema asks for text and another value stands, that value's JSON text stands afterwards. |
| Coercion.RestKept | src/schema.rs:671-703 | Everything else, unless inside a value so replaced, stands as it stood: scalars unchanged, objects with their keys, arrays with their length. |
| Coercion.CoerceIdempotent | src/schema.rs:671-703 | Coercing twice is coercing once, for every schema and value. |
| Coercion.AlignedCoercion | src/schema.rs:705-796 | If the schemas align and no kind stands for another beneath a declared tuple, coercion turns every value of the derived shape into one of the declared shape. |
| Coercion.AlignExactly | src/schema.rs:705-796 | Coercion takes every derived shape to the declared one if and only if the schemas align and are steady: beneath a declared tuple the kinds are equal, no tuple is declared for a list, and the positions of a tuple declared as a list align with the items. Without tuples alignment alone decides. |
| Coercion.TuplesNotCoerced | src/schema.rs:693-700 | The smallest aligned pairs that are not steady: a tuple of text declared for a tuple of another kind, and a tuple declared for a list; each has a value that coercion does not bring to the declared shape. |
| Coercion.UntypedAligns | src/schema.rs:724-729 | A position without a kind aligns with any other. |
| Coercion.WrappedAlign | src/schema.rs:705-707 | On either side an option or a result, whichever way round it is written, is aligned by its value. |
| RoundTrips.RoundTrip | src/runtime/conversion.rs:6-491 | A well-typed value comes back from JSON if and only if its numbers are finite, nothing inside an option renders as null, no map without string keys is empty, and every payload merged with a variant's tag is told apart from it. |
| RoundTrips.RecordReturns | src/runtime/conversion.rs:204-236 | The same for records, field by field. |
| RoundTrips.VariantReturns | src/runtime/conversion.rs:249-283 | The same for variants. |
| MergedPayloads.PayloadReturns | src/runtime/conversion.rs:249-283 | A variant with a payload of any type comes back if and only if the payload does and it renders as no object, or is a result, or has a field "type" that says the tag, no field "value", and no field "variant" that it would miss. |
| MergedPayloads.MergedPayloadLost | src/runtime/conversion.rs:263-278 | No value whose payload is a record or an option of one, without fields "type" and "value", is ever read back. |
| MergedPayloads.MergedPayloadExample | src/runtime/conversion.rs:263-278 | The smallest loss: a case with a record of one field. |
| MergedPayloads.ResultPayloadReturns | src/runtime/conversion.rs:263-278 | A variant with a result as payload comes back exactly when the result does on its own. |
| Conversion.DecimalRead | src/runtime/conversion.rs:23-55 | An integer given as text in decimal is read as itself if and only if it is in the type's range, and refused otherwise. |
| Converter.ValToJson | src/runtime/conversion.rs:351-491 | The element-by-element conversion builds exactly the JSON the round trip is proved about. |
| Converter.JsonToVal | src/runtime/conversion.rs:6-349 | The element-by-element reading yields exactly the value the round trip is proved about, or fails with it. |
| EmittedSchema.AcceptsExactly | src/composition/wit.rs:246-475 | The emitted schema accepts the emitted JSON of a well-typed value, one arm matching in every `oneOf`, if and only if numbers are finite, maps without string keys are not empty, a null stands for one option only, and an object that a payload was merged into passes for a value of the case its "type" names: no further field for a case without payload, else just a "value" that the case's payload schema accepts. |
| EmittedSchema.TaggedAccepts | src/composition/wit.rs:302-329 | That is what a variant's schema accepts of any object with a "type". |
| EmittedSchema.NullAccepted | src/composition/wit.rs:338-345 | Null conforms to an emitted schema exactly when the type is an option of a type that does not itself take null. |
| EmittedSchema.VariantAccepts | src/composition/wit.rs:302-329 | Exactly the arm of the value's own case accepts it. |
| EmittedSchema.RecordAccepts | src/composition/wit.rs:274-301 | A record's JSON is accepted exactly when each field's is. |
| AdmittedValues.Admitted | src/runtime/conversion.rs:6-349 | The converse of acceptance: every JSON value that conforms to the schema emitted for a type is read, as the value of that type it stands for, if and only if its integers are written as 64-bit ones; nothing is truncated or misread. |
| AdmittedValues.SaysOne | src/runtime/conversion.rs:351-491 | A JSON value stands for at most one value of a type. |
| Definitions.ValidateNames | src/config/processor.rs:395-422 | Succeeds exactly when all names are distinct and none is reserved. |
| Definitions.ValidateImports | src/config/processor.rs:424-448 | Succeeds exactly when every import is a valid, defined name. |
| Definitions.InternalDistinct | src/composition/graph.rs:85-114 | Reserved names tell component and position apart and never collide with a valid name. |
| CompositionGraph.ComponentGraph.AddNode | src/composition/graph.rs:34-58 | Adds a node whose name was free, keeping names and nodes one to one. |
| CompositionGraph.ComponentGraph.Wrap | src/composition/graph.rs:79-126 | Takes over the component's name and links its clones outwards; fails exactly when the component has no node or an interceptor is not defined. |
| CompositionGraph.ComponentGraph.Connect | src/composition/graph.rs:128-171 | Adds an edge from each import to the node, and overwrites no link of a chain. |
| CompositionGraph.ComponentGraph.Build | src/composition/graph.rs:27-186 | On success nodes, names, chains and dependency edges are exactly those the definitions call for and there is no cycle; Cyclic is reported only with a cycle, other failures only with an offending definition. |
| CompositionGraph.ComponentGraph.GetBuildOrder | src/composition/graph.rs:200-202 | Every dependency stands before what depends on it. |
| GraphGuarantees.ChainComplete | src/composition/graph.rs:60-126 | The chain of a placed component runs from its own node under the reserved name through its interceptors, last declared first, to the outermost under the component's name, each linked to the next. |
| GraphGuarantees.CallOrder | src/composition/graph.rs:60-126 | Interceptors are called in the order they are listed: the first stands under the component's name, each is a clone of the definition it names and reached from the next, and the component comes last, under its reserved name. |
| GraphGuarantees.TemplateUnplaced | src/composition/graph.rs:28-58 | A component has a node under its name exactly when it is imported or nobody's interceptor. |
| GraphGuarantees.NamesAreNodes | src/composition/graph.rs:31-58 | Names and nodes correspond one to one. |
| GraphGuarantees.ImportsLinked | src/composition/graph.rs:128-171 | Every import of every node, clones included, has its edge. |
| GraphGuarantees.OneWayOut | src/composition/graph.rs:60-77 | From inside a chain the only edge leads to the next interceptor. |
| GraphGuarantees.NoBypass | src/composition/graph.rs:60-77 | Interceptors cannot be bypassed: every path from a component's own node out of its chain visits all of the chain in order first. |
| Topology.Toposort | src/composition/graph.rs:174-202 | Returns an order with every edge forwards, or there is a cycle. |
| Topology.SortedAcyclic | src/composition/graph.rs:174-183 | A sorted graph has no cycle. |
| Registry.ProcessComponent | src/composition/registry.rs:595-719 | Succeeds exactly when every dependency is built and open to all and the component itself is not rejected; its capabilities are then exactly what its dependencies contribute. Each failure names a dependency, or the component, that causes it. |
| Registry.UnionOfContributions | src/composition/registry.rs:606-685 | What the dependencies contribute is exactly the capabilities from which the component is reachable. |
| Registry.BuildRegistries | src/composition/registry.rs:261-316 | Succeeds exactly when no component is rejected and none depends on what is out of scope. Then every component is built, may use exactly the capabilities from which it is reachable, and lists its dependents in build order; looking up a dependency never fails. |
| Registry.BuiltGraphFolds | src/composition/registry.rs:233-251 | Every built graph meets what the fold needs of it. |
| RouteTable.SameStructureSamePaths | crates/http-server/src/config.rs:834-845 | Two path patterns have the same structure if and only if they match the same paths. |
| RouteTable.QuerySpecsDisjoint | crates/http-server/src/config.rs:564-599 | Decides whether some parameter is required by one route and excluded by the other. |
| RouteTable.FindConflict | crates/http-server/src/config.rs:527-549 | Finds a conflicting pair, or there is none. |
| RouteTable.AcceptedNeverBoth | crates/http-server/src/config.rs:527-549 | Two accepted routes of one path structure and content type never match the same request. |
| RouteTable.OverlapExactly | crates/http-server/src/config.rs:554-599 | Two routes of one path structure, with any query specifications, can both match a request if and only if they have one method and no name that one specification requires is forbidden by another or given two values. |
| RouteTable.OverlapUnlessMissed | crates/http-server/src/config.rs:564-599 | Where each route names a parameter once, that is exactly when the check does not find them exclusive and no parameter has a fixed required and a different fixed optional value. |
| RouteTable.ConflictExactly | crates/http-server/src/config.rs:527-549 | So the check reports exactly the routes of one content type and path structure that can both match a request, and those that only a missed value keeps apart. |
| RouteTable.LastCounts | crates/http-server/src/config.rs:564-575 | Of specifications with the same name on one side the last counts. |
| RouteTable.ValidateRouteCaptures | crates/http-server/src/config.rs:764-806 | Succeeds exactly when placeholders are well formed and distinct and no capturing parameter shares a placeholder's name. |
| RouteTable.ApplyQuerySpec | crates/http-server/src/server.rs:294-339 | Rejects exactly the queries that do not meet the specification, and captures a value only where it is present and asked for. |
| RouteTable.MatchRequest | crates/http-server/src/server.rs:250-292 | Matches exactly the requests of the route, capturing each named placeholder's part and each capturing parameter's value. |
| RouteTable.CompileExactly | crates/http-server/src/server.rs:113-129 | Braces around a name make a capture of that name, empty ones match any part, and any other segment stands for itself. |
| RouteTable.SegmentsSplit | crates/http-server/src/server.rs:260 | A slash parts the segments before it from those behind it; what holds no slash is one segment, or none if empty. |
| RouteTable.MergeKeepsAll | crates/http-server/src/server.rs:353-364 | Merging path and query captures of a validated route loses nothing. |

## Left out

- wasmtime, the linker, WASI, gRPC, OCI and file access, TOML loading, OpenTelemetry and the command line: foreign code and I/O.
- The shim and fixup modules and the component builder around the interceptor: sequencing of calls into an encoder library.
- WAT text, JSON text, UTF-8 and form decoding: apart from the texts of templates, paths and patterns the model works on syntax trees and values; JSON text and byte decoding are parameters.
- The outer component-level type encoder: its alias indices live in the component builder.
- The drop-oldest channel: its behaviour is a broadcast library's.
- Real time: a timeout is a choice of the schedule. Bounded queues, mutexes and join sets are taken by their contracts; handlers that panic are not modelled.
- Composition of component bytes, satisfaction of imports and wrapper generation in the registry: one set of nodes that are rejected stands for all their failures.
- Content-type negotiation between routes, which matching ignores.
- Message construction: header propagation, identifiers, timestamps and error wording.
- InterceptorRefinement.InterceptorRefines: covers at most 16 core parameters and results with at least one flat, replies with one argument for each parameter, and one page of memory with room for the work areas and for the result by its memory layout. Texts and complex results are stored as the Canonical ABI does with UTF-8 on both sides; another encoding takes several blocks for a text, and the allocator does not copy the old one.
- InterceptorResults.ResultReaches: takes every choice to have a case, as WIT demands, and values as bits: what a host checks of characters, booleans and text on loading is not modelled.
- InterceptorModule.SessionAtRest: speaks of completed calls; a trap ends the session.
- GeneratorTyping.InterceptorTypes: types the modelled instructions; validation of the whole module by an engine is not modelled.
- TypeEncoder.InstanceTypeEncoder.EncodeValtype: a plain alias loses its own name in the table, as in the source, so the meaning of an alias is that of its target; a missing foreign alias, which makes the source panic, is a failure.
- Channel.RunKeeps: giving up a publish is allowed at any time it waits, which covers timeouts and dropped futures alike.
- LocalChannel.LocalChannel.Publish: a queue has room as soon as a message is taken from it; that the library counts room by permits, which may lag behind, is not captured.
- Replies.DecodedReply: covers decoded fields of the types that setup accepts, lists of bytes and options of them, and templates without defaults whose references name something.
- Bus.GenericBus.Start: other threads are idle while start runs; channels are values in the bus, so sharing of channel objects with others is not captured.
- Dispatcher.Conserved: all consumers of a group are dispatchers.
- InputSchema.DeriveInputSchema: inserts into schema values rather than in place, and gathers all contributions before inserting any. Where one path leads through another's leaf nothing is claimed here; `InsertionOrder.OrderDecides` settles one leaf above any number of others.
- Invocations.MappedInvocation: says nothing of how an argument assembled from several references or literals converts; no schema is checked for it.
- Templates.TemplateSound: covers source schemas in which every two-armed `oneOf` that unwrapping changes is an option of a type that is never null; nested results are not covered, because the schema side unwraps them and the value side does not.
- Coercion.AlignExactly: covers fully typed schemas without `oneOf` or null whose arrays have one item schema or a tuple of them, not both.
- RoundTrips.RoundTrip: leaves out resources, streams, futures and error contexts; maps with string keys are compared without order; decimal text at a float position is not read, and rounding to single precision is not modelled.
- EmittedSchema.AcceptsExactly: leaves out fixed-length lists, which cannot be invoked from the host.
- Registry.BuildRegistries: says nothing about which error is reported when several apply.
- CompositionGraph.ComponentGraph.Build: a component used only as a template that has interceptors of its own makes the source panic; the model reports it as a failure.
- PathSyntax.ParsePath: error messages are not distinguished.

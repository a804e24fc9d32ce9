# Verified model of LinuxTracepoints-Go

A Dafny model of the parts of LinuxTracepoints-Go whose correctness is hard to see by
reading: the EventHeader codec with its precompiled fast path, the lifetime of
`user_events` registrations and their file, the metadata and framing of `perf.data`
readers, their stable merge, and two algorithms of the code generator. Run
`dafny verify dfyconfig.toml` in this directory to verify everything.

## How it is organised

Byte sequences, byte order and fixed-width integers are in `Wire.dfy`; masks and shifts are
division and remainder there and everywhere else. The byte order of an event is a parameter.

**The event codec.** `Format.dfy` defines the tree an event stands for and its reference
encoding. `Building.dfy` is the builder as a class over metadata, payload and open-structure
frames; a ghost field holds the tree under construction, and every method states the new tree.
`Parser.dfy`, `EventParser.dfy` and `WireValue.dfy` are the decoder's parsers, each method
proved against a recursive function; `MetadataInverse.dfy` and `EventInverse.dfy` show that they
invert the encoder, and `Chains.dfy` says what the parser finds in extensions of any kind.
`Walk.dfy` gives the recursive meaning of iteration, `Enumerator.dfy` the explicit stack that
refines it, `Decode.dfy` the second stack that rebuilds the tree, and `Codec.dfy` the round
trip of whole events. `Tiling.dfy` is about all inputs, not only
encoded ones. `RoundTrips.dfy` puts the imperative pieces together for whole runs of builder
calls. `Clock.dfy` and `Semantics.dfy` interpret value bytes, `Names.dfy` is the tracepoint
name grammar, `Utf8.dfy` what a valid name is, and `Numbers.dfy` the wire format in bytes.

**The precompiled path.** `Schemas.dfy` compiles field definitions to metadata and a flat
plan, `SchemaMeaning.dfy` says what a plan and its values stand for and why the size check is
tight, `Bindings.dfy` binds values, and `Events.dfy` writes them and proves the bytes equal to
those of a builder that replays the same definitions.

**Registrations and files.** `Registrations.dfy` is a state machine with one transition for
every atomic step of `acquire`, `release`, `Writev`, `Enabled` and `Close`, any number of
threads and system calls that fail at will. `Files.dfy` runs any number of those registrations
under one file and its `Close`. `Providers.dfy` is the cache of event sets above them.

**perf.data.** `PerfReader.dfy` holds clock, descriptors and suffix layout, `Samples.dfy` the
sample layout and its parser, `Framing.dfy` records and the blocks behind them, `Streams.dfy`
their inverse law, `Merging.dfy` the merge.

**The generator.** `Constraints.dfy` decides build constraints, `BuildTargets.dfy` says what
its tables of systems and feature levels mean, and `Rollback.dfy` undoes a replace.

## Where code and documentation disagree

The model follows the code.

* `Registration.Close` is documented to serialize concurrent calls
  (userevents/userevents_linux.go:412-415). It does not: waiting for operations to drain
  releases the mutex (445-447), and a second call then reads Closing (424), skips the drain and
  unmaps the enable word while an operation is inside and before `unregister`.
  `Registrations.StepKeeps` and `Registrations.StepSafe` show that this step is the only one that breaks the protocol, in
  both directions; `Registrations.OverlapUnmaps` and `Registrations.OverlapStrands` are the
  concrete run. All safety theorems hold for runs without that step, and in particular for one
  `Close` in flight per registration.
* `File.Close` (283-292) can release the descriptor while a registration is not yet Closed:
  its own `Close` leaves the map (462) before it stores the final state (465).
  `Files.ReleaseBeforeClosed` is a run, `Files.ClosedAtRelease` says that this is the only
  exception. The registration is dead by then, so the descriptor is not used again.

## Model

| member | source | states |
|---|---|---|
| Codec.DecodeEncoded | eventheader/decode/parse.go:101-238 | Decoding an encoded event under a tracepoint name of the same level, in either byte order and for every raw limit setting, gives back its header, activity IDs, name, metadata, tree and value bytes with nothing left over if the limits admit it, and a limit error if they do not |
| Codec.WalkEncoded | eventheader/decode/enumerator.go:94-158 | On an encoded event the walk gives exactly the items of the tree that was encoded and ends exactly at the end of the payload |
| RoundTrips.RoundTrip | eventheader/builder.go:715-725 | Encoding a builder's tree and decoding it under the printed tracepoint name returns header, provider, level, keyword, group option, names, nesting and values, or the limit error exactly when the limits exclude the event |
| RoundTrips.Run | eventheader/builder.go:143-189 | Any sequence of calls that set header fields or activity, open and close structures, or add values (Uint8, Uint16, Int32, Uint64, Bool, UUID, Port, String, UTF16, Uint16Array, StringArray), refused ones included, leaves the header and tree that folding the calls gives, each field with the tag and format that its caller gave |
| RoundTrips.Carry | eventheader/builder.go:143-189 | A fresh builder takes any such calls, the event is encoded and decoded with the default limits: the record is that of the tree the calls described if it has at most 4096 items, and the limit error otherwise; the bytes are the reference encoding of that tree |
| RoundTrips.OptionsCarried | eventheader/builder.go:477-483 | The item of a field that a value call added has the tag the caller gave and the caller's format, or the call's own if the caller gave none; two options, or a format with the chain bit, add nothing |
| RoundTrips.ItemsBack | eventheader/decode/enumerator.go:94-158 | With the default limits the iterator over an encoded event gives the items of its tree, tags and formats included, and uses the payload up |
| RoundTrips.DefaultsAdmit | eventheader/decode/enumerator.go:160-163 | With the default limits the decoder accepts an encoder's event if and only if it has at most 4096 items; size, depth and number of fields never refuse it on their own |
| Building.Builder.BeginStruct | eventheader/builder.go:143-172 | Opens a structure, or says why not and changes nothing; metadata, payload and frames stay those of the tree |
| Building.Builder.EndStruct | eventheader/builder.go:174-189 | Closes the innermost structure by patching its child count into bytes written long before; refused exactly when nothing is open or the structure is empty |
| Building.PatchBytes | eventheader/builder.go:186-186 | Writing the child count into one byte turns the metadata of the open tree into that of the closed tree, keeping the chain bit |
| Building.ResolvesAsGiven | eventheader/builder.go:556-573 | The option of a call is the tag given, or 0, and the format given if nonzero, or the call's own; refused exactly for two options or a format of 0x80 and more |
| Building.Builder.AddField | eventheader/builder.go:502-554 | Appends one leaf to metadata and payload: the new bytes are those of the tree with the leaf, or the error is named and nothing changes |
| Building.Builder.AddArray | eventheader/builder.go:485-500 | Array calls: kind, count and option errors in the order of the checks, and otherwise a leaf with the tag and format that the caller gave |
| Building.Builder.UTF16 | eventheader/builder.go:301-308 | Counted UTF-16 text becomes a leaf holding its units in the event's byte order |
| Building.Builder.Uint16Array | eventheader/builder.go:338-344 | Array elements are written in the event's byte order, one after the other |
| Building.Builder.StringArray | eventheader/builder.go:440-451 | The first string that is invalid or too long gives the error and refuses the whole array; otherwise the leaf holds every string with its length |
| Building.FirstStringErrorIs | eventheader/builder.go:440-451 | The error is that of the first failing string, and there is none exactly when every string can be written |
| Building.Builder.EncodeSegments | eventheader/builder.go:665-713 | The three segments concatenate to the reference encoding of the tree, or the error is the first failing check |
| Building.Builder.Encode | eventheader/builder.go:715-725 | Encoding a complete tree gives the reference encoding and an event the format admits |
| MetadataInverse.ParseWhole | eventheader/decode/parse.go:284-389 | Parsing the metadata of any forest gives its definitions if it fits the item and depth limits, and a limit error otherwise |
| EventInverse.ParseEncoded | eventheader/decode/parse.go:101-238 | The event parser finds header, activity extension, name, definitions and payload of every encoded event within its limits, and reports the limit otherwise |
| EventInverse.ChainOf | eventheader/decode/parse.go:138-196 | The extension chain of an encoded event yields exactly its activity IDs and metadata block |
| Parser.MetadataParser.ParseTopFields | eventheader/decode/parse.go:284-294 | The parser that advances a position and an item count computes the recursive parse and stops where it stops |
| EventParser.Parse | eventheader/decode/parse.go:101-238 | The loop over extensions computes the chain that the recursive definition describes, with the same errors; what that chain is for any bytes is said by Chains.ChainBack and Chains.AnyEvent |
| Chains.ChainBack | eventheader/decode/parse.go:143-196 | Any list of extensions laid out one behind the other gives the one metadata block, the one activity and related ID, and all others in order with kind, chain bit, offset and data; or the error at the first extension of kind zero, second metadata or activity block, or activity size other than 16 or 32 |
| Chains.ChainIff | eventheader/decode/parse.go:143-196 | Bytes are accepted as a chain if and only if a lawful list of extensions stands there |
| Chains.AnyEvent | eventheader/decode/parse.go:101-238 | An event of eight header bytes, any chain and a payload is refused for its chain exactly when that is unlawful or without metadata, then for its limits, then for its metadata at the true offset, and otherwise every header field, block, other extension and payload is found where it stands |
| Chains.MetadataShifts | eventheader/decode/parse.go:207-233 | What a metadata block gives does not depend on where it stands, and its errors count from the start of the event |
| Parser.LimitsMeant | eventheader/decode/types.go:79-105 | A raw setting is accepted unless a field is negative or the depth beyond 8; a zero field means the documented default and any other itself |
| Utf8.NameIff | eventheader/builder.go:593-606 | A name is valid exactly if it is the UTF-8 form of some Unicode scalar values, nonempty and without NUL and semicolon |
| Utf8.Utf8Iff | eventheader/builder.go:597-599 | The byte-by-byte check accepts exactly the UTF-8 forms of sequences of scalar values |
| Numbers.LeafLayout | eventheader/builder.go:530-547 | The metadata of a leaf in bytes: which bits announce array, format and tag, and where count and tag stand |
| Numbers.EventLayoutNumbers | eventheader/builder.go:665-713 | The bytes of a whole event by flag bit and extension kind number |
| Numbers.KindTable | eventheader/schema.go:72-156 | Encoding, format and least payload of every kind of value, in the numbers of the format |
| Enumeration.Enumerator.Next | eventheader/decode/enumerator.go:94-158 | Each call yields the next item of the recursive walk or its error, pops at most two tasks, keeps the stack within 4 times the depth limit plus 4 also when it fails, and returns true at most as often as the transition limit allows |
| Enumeration.Enumerator.NextField | eventheader/decode/enumerator.go:109-147 | Expanding a field on the explicit stack gives what the recursive walk gives for it, then the rest |
| Enumeration.Enumerator.Finish | eventheader/decode/enumerator.go:197-205 | Bytes behind the last field become one diagnostic at their true offset |
| Enumeration.RestSize | eventheader/decode/enumerator.go:94-108 | A stack at rest holds at most four tasks for each open level |
| Walk.PendingFields | eventheader/decode/enumerator.go:104-112 | One pending list of fields means its first field and then the list of the others |
| Walk.PendingBracket | eventheader/decode/enumerator.go:109-147 | Begin item, content task and end task on the stack mean the bracketed walk of the container |
| Decode.StacksAgree | eventheader/decode/decode.go:22-57 | The second stack never underflows on the items of any walk and rebuilds exactly the tree that a recursive reader gives; the reader fails exactly when the walk does |
| Decode.DecodeRecord | eventheader/decode/decode.go:17-77 | The loop over the iterator with its frame stack returns the recursive reader's tree, the parse or payload error at its offset, or the limit error at the item that exceeds it |
| Decode.ParsedEventHeight | eventheader/decode/parse.go:366-387 | No parsed definition is nested deeper than the depth limit, so that the iterator's stack bound applies to every parsed event |
| WireValue.ReadValue | eventheader/decode/value.go:57-99 | The search loop reads fixed, terminated and counted values as the reference says, with the same truncation offsets |
| WireValue.TerminatorIsFirst | eventheader/decode/value.go:69-84 | The terminator found is the first zero unit; no unit before it is zero, and none is found only if all are nonzero |
| WireValue.ReadBack | eventheader/builder.go:608-627 | A value that the encoder wrote is read back whole, whatever follows it |
| Tiling.FieldsTile | eventheader/decode/enumerator.go:109-182 | For any definitions and any payload, also when the walk fails midway, the items account for every byte consumed, once and in order: counts, length prefixes, values and terminators |
| Tiling.FieldTiles | eventheader/decode/enumerator.go:160-182 | The end item of every array and structure holds exactly its own count prefix followed by the wire bytes of everything inside |
| Tiling.ValueTiles | eventheader/decode/value.go:57-99 | Length prefix, content and terminator of one value are exactly the bytes between its start and the next position |
| Semantics.SignedBack | eventheader/decode/value.go:384-399 | Sign extension undoes wrapping for every value of each width and both byte orders |
| Semantics.UnsignedBack | eventheader/decode/value.go:369-382 | Unsigned values of each width decode to themselves in both byte orders |
| Semantics.PortBack | eventheader/builder.go:282-286 | A port reads back the same although it is big-endian in a little-endian event |
| Semantics.BoolBack | eventheader/builder.go:231-237 | A boolean reads back the same |
| Semantics.TimeExact | eventheader/decode/value.go:312-334 | A time is exactly its seconds in nanoseconds, or marked invalid exactly when they leave int64 |
| Semantics.NumberBack | eventheader/decode/value.go:129-399 | A number of 1, 2, 4 or 8 bytes under every format number and in either order: signed for SIGNED, ERRNO and PID, true, false or invalid for BOOLEAN, seconds for TIME, port, address, float bits, text, bytes, or the plain number where the format does not apply |
| Semantics.CountedBack | eventheader/decode/value.go:129-399 | Counted bytes under every format: null when empty, the number of that width, UUID or address where the format explains the length, and unchanged text or bytes otherwise |
| Schemas.NewSchema | eventheader/schema.go:186-211 | The accumulating loops compute the recursive compilation, and an accepted schema records what it compiled |
| Schemas.AppendDefinition | eventheader/schema.go:213-334 | One definition appended in place equals its recursive compilation, or fails with the same error |
| Schemas.ConstructorsConstruct | eventheader/schema.go:72-184 | Every definition that the field constructors build, arrays and structures included, has the encoding and format of its kind, which the compiler relies on |
| SchemaMeaning.SchemaAccepted | eventheader/schema.go:186-211 | A schema is accepted if and only if its name and definitions are well formed and some complete binding of it fits an event |
| SchemaMeaning.LeastIsLower | eventheader/schema.go:320-355 | The running minimum is a lower bound on the payload of every complete binding |
| SchemaMeaning.LeastIsAttained | eventheader/schema.go:320-355 | The bound is attained, by empty counted values and empty variable arrays |
| SchemaMeaning.CompileAllExact | eventheader/schema.go:213-334 | Compiling a list adds exactly its flat plan and its least payload, and fails exactly on a misshapen definition or when the least payload exceeds an event |
| SchemaMeaning.SchemaTree | eventheader/schema.go:213-318 | Compiled metadata and bound payload are the metadata and payload of the tree that the schema and the values stand for |
| SchemaMeaning.ConstructorTrees | eventheader/schema.go:72-184 | The field constructors stand for a leaf of the kind with the options' tag and format, for fixed and variable arrays of it, and for a structure of the fields |
| SchemaMeaning.ArrayFieldKind | eventheader/schema.go:158-172 | An array constructor is accepted exactly over a plain field, as a fixed array with one nonzero count or a variable one without a count |
| Bindings.Binding.Begin | eventheader/binding.go:50-78 | Makes room for the values and writes a variable array's count, or names the first failing check: turn, kind, shape, count, size |
| Bindings.Binding.Bind | eventheader/binding.go:50-104 | Binds the values exactly if the plan's next entry takes values of this kind, shape and number and the event stays within its size; then they are appended, otherwise the error is named and nothing changes |
| Bindings.Binding.Complete | eventheader/binding.go:40-48 | Complete exactly when every planned value is bound, and the payload is then the plan's payload of the values |
| Bindings.BindAll | eventheader/binding.go:50-104 | Binding values that fit the plan, in plan order, succeeds at every step and is complete if metadata and payload together fit an event, and ends in the size error if they do not |
| Bindings.Binding.Check | eventheader/binding.go:80-104 | State error exactly for a finished plan, other kind or other shape; count error from 65536 elements on; value error exactly for a fixed array of another length |
| Bindings.Binding.StringArray | eventheader/binding.go:458-486 | The error is the first of kind or shape, an invalid string, a string too long, one that does not fit behind those before it, and the size of the whole; otherwise strings are bound with their lengths |
| Bindings.EarlyIsExact | eventheader/binding.go:462-472 | Over valid strings the loop gives up early exactly when the array as a whole exceeds an event |
| Events.Event.Write | eventheader/event.go:94-137 | Closed, disabled, missing activity, foreign schema and incomplete binding are refused in this order; otherwise the segments concatenate to the reference encoding of the bound tree |
| Events.Event.Splice | eventheader/event.go:116-136 | The precomputed prefix with the activity extension spliced in is the prefix that an encoder would emit |
| Events.Event.constructor | eventheader/event.go:18-39 | The fixed prefix filled in place is the header and metadata head without activity |
| Events.Replay | eventheader/builder.go:665-725 | A builder replaying an accepted schema with fitting values accepts every call and encodes the bound tree; strings, booleans and every other kind with a modelled typed call go through that call and its checks |
| Events.TypedScalar | eventheader/builder.go:199-316 | Reading a bound value back and passing it to the typed call of its kind adds exactly its bytes, and the typed checks cannot refuse what the binding accepted |
| Events.PrecompiledEqualsDynamic | eventheader/event.go:94-137 | For every accepted schema and complete binding, the precompiled event's segments and the replaying builder's bytes are equal |
| Names.ParsePrinted | eventheader/decode/parse.go:27-73 | Parsing a printed tracepoint name gives back provider, level, keyword and group option, even if the provider itself contains the level marker |
| Names.NameIff | eventheader/decode/parse.go:27-73 | A tracepoint name is accepted if and only if it is provider, marker, hexadecimal level from 1 to 5, K, hexadecimal keyword below 2^64 and options that start upper case, within 255 bytes |
| Names.SpelledParses | eventheader/decode/parse.go:27-73 | A name made of such parts is read as exactly those parts |
| Names.NamesInjective | eventheader/name.go:21-44 | Names are injective in level, keyword and group |
| Names.GroupLimitSuffices | eventheader/name.go:21-44 | Printing succeeds exactly for valid parts within the 233-byte limit; the 255-byte limit never rejects on its own |
| Providers.Provider.Get | eventheader/provider.go:124-166 | An open cached set is shared, a closed one is replaced only after it is released, other keys keep their sets, and whatever holds kernel state stays cached |
| Providers.Provider.Close | eventheader/provider.go:170-202 | Exactly the sets that could not be released stay cached for a retry, and an owned file is closed only when nothing ever handed out is left |
| Providers.CachedNamesDiffer | eventheader/provider.go:144-164 | Two sets of one provider never share a tracepoint |
| Registrations.StepKeeps | userevents/userevents_linux.go:416-467 | For any number of threads, a step keeps the protocol's invariant if and only if it is not a Close that reads Closing while another Close still drains; that step leads straight to munmap of a live registration |
| Registrations.StepSafe | userevents/userevents_linux.go:416-467 | A step from a state that obeys the protocol leads to a safe state if and only if it is not such an overlapping Close |
| Registrations.RunSafe | userevents/userevents_linux.go:340-467 | Over every run of users and closers without such a step: the word is state plus four times the holders, holders see a registered mapping, nobody is inside from unregister on, each system call succeeds at most once, a failed unregister reopens intact, and Close answers success exactly when the state is Closed, failure only when never registered, open and intact, or unregistered and still mapped |
| Registrations.CloseSucceeds | userevents/userevents_linux.go:416-467 | Over every such run in which unregister and munmap succeed, no Close answers with a failure, whoever else uses or closes the registration |
| Registrations.CloseAloneReturns | userevents/userevents_linux.go:416-467 | Undisturbed, Close from each state and for each outcome of its system calls returns the stated answer and leaves exactly the stated state |
| Registrations.AcquireAndRelease | userevents/userevents_linux.go:340-358 | acquire gives up only where it read a word that is not open, enters an open registration, and release takes away what it added |
| Registrations.OneCloseSafe | userevents/userevents_linux.go:412-467 | In particular one Close in flight at a time is safe beside any number of users and with any failures |
| Registrations.NoDeadlock | userevents/userevents_linux.go:352-359 | While a thread is inside an operation some thread inside an operation can move: no wake-up is lost |
| Registrations.ClosingProgress | userevents/userevents_linux.go:445-447 | While closing, every step of a busy thread decreases one measure |
| Registrations.DrainBounded | userevents/userevents_linux.go:445-447 | A serialized run that stays closing and in which no thread starts a new operation has at most as many steps as the measure of its first state |
| Registrations.DrainEnds | userevents/userevents_linux.go:445-447 | If after a serialized run no thread inside an operation can move, no thread is inside one: no Close is left waiting |
| Registrations.ActKeeps | userevents/userevents_linux.go:340-358 | The step of one thread keeps the lifecycle word, with its 64-bit wrap-around, equal to state plus four times the holders |
| Registrations.StepWakes | userevents/userevents_linux.go:352-359 | A waiting Close always has an operation or a pending broadcast to wait for |
| Registrations.OverlapUnmaps | userevents/userevents_linux.go:424-456 | A concrete run of two overlapping Close calls unmaps the enable word while a user that has read it is about to write and the kernel still holds the registration |
| Registrations.OverlapStrands | userevents/userevents_linux.go:424-465 | The same run goes on until the word has underflowed and the first Close waits with nobody to wake it |
| Registrations.StrandedForever | userevents/userevents_linux.go:445-447 | From there it waits for ever, whatever the other threads do |
| Files.StepKeeps | userevents/userevents_linux.go:156-296 | Every step of register, delete, use and close keeps the file's invariant while Close calls on one registration do not slip past each other |
| Files.RunSafe | userevents/userevents_linux.go:240-296 | Over every such run, with any failures, closeFD runs at most once and only when the map is empty and every registration ever made is unregistered and unmapped exactly once with nobody inside; no system call uses the descriptor afterwards |
| Files.DescriptorAlive | userevents/userevents_linux.go:223-296 | No writev or ioctl, for registering, deleting or unregistering, happens after closeFD |
| Files.CloseReleases | userevents/userevents_linux.go:266-296 | Over every run in which the system calls of closing succeed, File.Close goes on to closeFD when its loop is done |
| Files.FailedCloseKeeps | userevents/userevents_linux.go:271-281 | A failed close reopens the file, wakes every waiting Close, touches no registration and keeps those still mapped, except one that its own Close is about to remove |
| Files.ClosedAtRelease | userevents/userevents_linux.go:283-292 | At release a registration reads Closed if and only if no Close of it stands between leaving the map and the final store |
| Files.ReleaseBeforeClosed | userevents/userevents_linux.go:461-465 | That exception is reachable: a concrete run releases the descriptor while a registration still reads Closing |
| PerfReader.Reader.AddDescriptor | perfdata/attr.go:83-161 | An attribute is accepted exactly when it agrees with the file's clock, sample and suffix layout and its IDs lead to one compatible descriptor within the limits; IDs and descriptors stay inverse, and what was found before is found as before |
| PerfReader.Reader.CheckSuffix | perfdata/attr.go:99-120 | Suffix layouts stay unambiguous: none, one shared mask, or IDENTIFIER in all |
| PerfReader.Reader.AddIds | perfdata/attr.go:146-159 | IDs are added without duplicates up to the limit, which is reported exactly when the distinct IDs exceed it |
| PerfReader.Reader.SuffixDispatch | perfdata/records.go:652-682 | A suffix written in the order of the perf ABI, by bit number, for any accepted descriptor resolves to that descriptor's bits and true start, reads back, and ends exactly at the end of the record |
| PerfReader.Reader.SuffixResolved | perfdata/records.go:652-682 | Whatever the record: a suffix that resolves has the shared bits or those of the descriptor owning its last word and fits behind the header; an unknown owner is reported, everything else is too short |
| PerfReader.Reader.SampleDispatch | perfdata/records.go:238-246 | A sample written for a descriptor finds that descriptor by the eight bytes at the constant offset |
| PerfReader.Reader.SampleOwner | perfdata/records.go:238-246 | A sample leads to a descriptor if and only if that descriptor owns the ID at the lookup offset, and to the unknown-ID error otherwise |
| PerfReader.CompatibleFields | perfdata/attr.go:163-174 | Two attributes are compatible exactly if all that is compared but the clock ID agrees |
| PerfReader.Reader.ParseClockData | perfdata/clock.go:10-32 | Afterwards every timestamp converts to exactly ns + wall - clock when the difference and the sum fit int64, and is unavailable otherwise |
| Clock.UnixNanoExact | tracepoint/model.go:182-210 | The overflow-safe conversion is exact, and unavailable exactly when the offset is unknown or the sum leaves int64 |
| Clock.SignedDifferenceExact | perfdata/clock.go:34-50 | The signed difference of two unsigned words, or none exactly when it leaves int64 |
| PerfReader.Reader.StampsCompare | perfdata/clock.go:74-79 | A timestamp keeps the reading and names the reader's clock, so that two of one reader compare as their readings do |
| Clock.CompareAgrees | tracepoint/model.go:223-240 | Comparison agrees with the Unix time of both sides wherever both convert, also across clocks |
| Clock.CompareSame | tracepoint/model.go:223-240 | Readings of one clock compare without conversion unless their known offsets differ; what then does not convert is incomparable |
| Samples.LookupIsParsed | perfdata/attr.go:176-190 | The bytes at the constant lookup offset are those that the full parser takes for IDENTIFIER, or ID without one |
| Samples.SampleBack | perfdata/records.go:317-398 | A sample laid out in the order of the perf ABI, by bit number, parses back to every field, the unsupported bits and its trailing data; only the count limits can refuse it, and exactly when exceeded |
| Samples.FixedInOrder | perfdata/records.go:322-354 | The words of the fixed fields stand in the order IDENTIFIER, IP, TID, TIME, ADDR, ID, STREAM_ID, CPU, PERIOD, by bit number |
| Samples.LeftoverRemains | perfdata/records.go:393-395 | Clearing the supported bits leaves exactly bits 11 to 15 and those from 17 on |
| Samples.ReadBack | perfdata/records.go:400-457 | Grouped and single counter reads in every format below 32 parse back, or report the limit exactly when exceeded |
| Samples.WordsIff | perfdata/records.go:322-354 | Parsing yields given words if and only if they stand in the data in wire order |
| Samples.TakeSample | perfdata/records.go:317-398 | The cursor that advances through the record computes the reference parse, which Samples.SampleBack inverts by bit number |
| Samples.WireCursor.TakeRead | perfdata/records.go:400-457 | The loop over counter values computes the reference parse and stops where it stops |
| Samples.WireCursor.TakeWords | perfdata/records.go:604-627 | Reading the words of a mask one by one gives the reference parse |
| Framing.Reader.Next | perfdata/records.go:26-55 | Metadata records change the reader's state in order and are skipped unless wanted; the offset advances by exactly what was read, the end is not sticky, every error, also one raised by metadata, is |
| Framing.Reader.NextFrame | perfdata/records.go:57-106 | From a file or a pipe, the result is the first frame of what remains, with its block; the offset advances by exactly record and block |
| Framing.Reader.ReadPost | perfdata/records.go:189-211 | The block behind a record is refused above the limits, reported truncated, or read whole, from either source |
| Framing.SourcesAgree | perfdata/records.go:26-106 | From equal metadata, a file section and a pipe with the same bytes give the same records, the same metadata updates and the same final outcome, for every deterministic interpretation of metadata records |
| Streams.StreamBack | perfdata/records.go:26-211 | Any list of records written one behind the other, with the block sizes that records 66 and 71 declare, is read back as that list, with the records about the file applied and skipped unless wanted |
| Streams.EntryRefused | perfdata/records.go:108-196 | Compressed records are unsupported, a size field that is missing is truncated, a block above its limit is refused, a missing block is truncated, and everything else is read |
| Merging.MergedReader.Next | perfdata/merge.go:70-108 | Hands out the least head by absolute time and reader index; a reader is advanced only when its previous record was handed out, and by one record |
| Merging.Merge | perfdata/merge.go:33-66 | Succeeds exactly for distinct readers within the limit that all have an offset, taken by index, then by reader, then from the reader's clock |
| Merging.OutExact | perfdata/merge.go:81-94 | What is handed out has the clock reading plus the reader's offset as its time, and converts exactly when that sum fits int64 |
| Merging.Drain | perfdata/merge.go:68-108 | Read to the end, the output is the merge of the readers' records |
| Merging.DrainAll | perfdata/merge.go:20-108 | Read to the end, every record of every reader comes out once and in its reader's order; if each reader is sorted by time, the whole output is, with ties in reader order |
| Merging.MergeInterleaves | perfdata/merge.go:68-108 | A merge loses nothing, repeats nothing and keeps each reader's own order |
| Merging.MergeSorted | perfdata/merge.go:20-32 | Readers sorted by time give a sorted merge with ties in reader order |
| Merging.MergeUnique | perfdata/merge.go:68-108 | Given readers have one merge |
| Rollback.Restore | cmd/eventheader-gen/internal/generator/outputreplace_rollback.go:17-58 | Against a writer that may change the target between any two steps, at most one file is deleted and only the staged output or content this loop placed; on success the target holds the last unexpected content displaced, on any failure the last displaced content survives at the reported path, and exhaustion means every race was lost |
| Constraints.Implies | cmd/eventheader-gen/internal/generator/generator.go:1111-1132 | True only if every target, feature profile and valuation of custom tags that satisfies the left satisfies the right; within the tag limit if and only if |
| Constraints.Equivalent | cmd/eventheader-gen/internal/generator/generator.go:1134-1141 | True only for constraints that entail each other; within the tag limit if and only if |
| Constraints.Overlap | cmd/eventheader-gen/internal/generator/generator.go:1143-1155 | False only if no build satisfies both; within the tag limit if and only if; always true beyond it |
| Constraints.Evaluate | cmd/eventheader-gen/internal/generator/generator.go:1157-1223 | Complete exactly within the limits, and then found exactly when some build is accepted |
| Constraints.Search | cmd/eventheader-gen/internal/generator/generator.go:1184-1219 | Backtracking over a shared map of values finds an accepted valuation exactly when one exists |
| Constraints.SatisfiedDepends | cmd/eventheader-gen/internal/generator/generator.go:1171-1210 | Only the custom tags collected from a constraint can change its value |
| Constraints.CombineMeans | cmd/eventheader-gen/internal/generator/generator.go:1049-1076 | Combining keeps the meaning of the conjunction |
| Constraints.CombineReordered | cmd/eventheader-gen/internal/generator/generator.go:1049-1076 | The result depends only on which conjuncts there are, neither on their order nor on how often each is repeated |
| Constraints.CombineFlattened | cmd/eventheader-gen/internal/generator/generator.go:1055-1062 | The result does not depend on nesting or repetition of conjuncts |
| Constraints.CombineAgain | cmd/eventheader-gen/internal/generator/generator.go:1049-1076 | Combining a combined constraint changes nothing |
| BuildTargets.SystemsEntail | cmd/eventheader-gen/internal/generator/generator.go:1311-1331 | For all targets android implies linux, ios darwin and illumos solaris, and each of these unix |
| BuildTargets.SystemsDiffer | cmd/eventheader-gen/internal/generator/generator.go:1311-1331 | No such implication runs backwards where a target tells the two apart, and unrelated systems never meet |
| BuildTargets.LevelsEntail | cmd/eventheader-gen/internal/generator/generator.go:1238-1288 | For every architecture with levels and all targets, a feature level implies each lower one |
| BuildTargets.LevelsImply | cmd/eventheader-gen/internal/generator/generator.go:1238-1288 | In every profile a level brings the lower ones, and of exclusive features there is at most one |
| BuildTargets.Arm64Implies | cmd/eventheader-gen/internal/generator/generator.go:1290-1301 | In every arm64 profile a minor level implies those below, and v9.m implies v8.(m + 5) |
| BuildTargets.Architectures | cmd/eventheader-gen/internal/generator/generator.go:1194-1210 | No build has two architectures, and a feature of a known architecture implies it |
| BuildTargets.Searched | cmd/eventheader-gen/internal/generator/generator.go:1165-1177 | The tags searched are exactly those of either constraint that no target decides |

## Left out

- Registrations.RunSafe: assumes fewer than 2^62 - 1 threads, so that the 62-bit holder count cannot overflow, and takes a section under the file's mutex inside `Close` as one step.
- Files.RunSafe: holds while `Close` calls on one registration do not overlap in the way described above; sections under the file's mutex are single steps, and threads may use several registrations at once, which only adds runs.
- PerfReader.Reader.AddDescriptor: after a refusal the reader keeps what it had noted so far, as in the code; the code never uses a reader again after a refusal.
- Framing.SourcesAgree: what a metadata record does is a parameter, any function of the state so far and the record's bytes; `PerfReader.Reader.AddDescriptor` says what descriptors do, the bytes of attributes and features are not decoded.
- Events.Replay: kinds without a typed call in the model go to `addScalar` and `addArray` with their encoding and format, which is all their typed calls do.
- Rollback.Restore: a failing replace changes nothing and recovery paths are unused beforehand; both are promised by the operations the loop is given.
- Constraints.CombineMeans: printing and parsing of constraint text belong to go/build/constraint and are taken as faithful, so that a constraint is its tree; sorting by text is any fixed order.
- Providers.Provider.Get: what the creator does inside, beyond returning a new set, an unusable one, nothing or an error.
- System calls (mmap, ioctl, writev, close, unregister) appear only as success or failure; discovery of the data file and its mount points is not part of this model.
- The registration command text, its flags and the short-write check of `Writev`.
- Readers and io errors other than a short read; decoding of tracefs formats, tracing-data containers, feature sections and attribute bytes.
- perf records other than samples: COMM, MMAP, FORK and the like are fixed offsets in front of the suffix.
- Diagnostics about Unicode, replacement characters, byte-order marks, Latin-1 and UTF-16 or UTF-32 conversion: text carries raw bytes; only the UTF-8 validity that encoders check is modelled.
- Floating-point values, IP address types, `uintptr` values and human-readable format names and error strings; errors carry an offset and a class.
- `BeginStructArray`, which always fails, and the typed builder and binding calls whose width, signedness or element form another one here already has.
- The builder's and binding's reuse of storage capacity, and nil receivers.
- `Enumerator.Next` appears with its switch divided over several methods of the class; the fields `array` and `index` of a pending array are the same numbers.
- The `if` statements that read the fixed words of a sample or suffix, one for each bit, appear as a loop over the same bits in the same order; descriptor pointers are indexes into the list of attributes.
- `addField`'s checks of encodings that no caller passes.
- The Linux and Windows sequences around the rollback loop, file locks, and the rest of the generator.

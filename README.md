# windbg-debug, modelled in Dafny

windbg-debug is a Visual Studio Code debug adapter for native Windows
programs. It drives the Windows debugging engine (DbgEng) and shows Rust
and C++ values. This project models its core and proves properties of the
model:

- the protocol front end (`DebugSession`): request dispatch, `initialize`
  options, line and path conversion between client and debugger;
- the debugger gateway (`WinDbgWrapper`): the message queue and tickets,
  breakpoint registration, continue and step requests, the variables
  routes, and the main-loop schedule;
- the entity store (`DebuggerState`): handles for frames, scopes and
  variables, the parent/child relation, threads, symbol groups, and the
  walk up to a variable's scope;
- typed memory access (`RequestHelper`): raw reads, little-endian integer
  reads, and the field keys of a typed variable;
- both generations of value visualizers: the older kind-dispatched set
  (default, Rust enum, encoded enum, `&str`/`String`, WTF-8, slice,
  vector) and the newer registry with its fallback chain;
- the path-expansion helpers (`StringExtensions`): `Replace` with a
  comparison mode, the start-up environment table and
  `ReplaceEnvironmentVariables`;
- the small data records: breakpoints, threads and scopes.

Modules follow the program's structure:

| file | module | models |
|---|---|---|
| Base.dfy | Base | `Option`, `Result` and the exceptions the code throws |
| Text.dfy | Text | the .NET string operations the core relies on |
| Bytes.dfy | Bytes | `BitConverter`: little-endian bytes and two's complement |
| Records.dfy | Records | `BreakPoint`, `DebuggeeThread`, the protocol `Thread`, `Scope`, `Scopes` |
| DebuggerState.dfy | EntityStore | the older `DebuggerState` (`windbg-debug/WinDbg/DebuggerState.cs`), over which the gateway is modelled |
| TypedMemory.dfy | TypedMemory | `RequestHelper` |
| Visualization.dfy | Visualization | shared visualizer pieces: results, array items, child resolution, encoded-enum names |
| LegacyVisualizers.dfy | LegacyVisualizers | the older visualizers and their registry |
| RustEnum.dfy | RustEnum | `RustEnumVisualizer`: the enum-definition parser, variant names and variant fields |
| VisualizerChain.dfy | VisualizerChain | the newer `VisualizerRegistry`, `VisualizerBase`, string and encoded-enum visualizers |
| StringExtensions.dfy | StringExtensions | `StringExtensions` |
| Gateway.dfy | Gateway | `WinDbgWrapper` |
| DebugSession.dfy | DebugSession | `DebugSession` |

The debugging engine, the URI library and the environment are not
modelled. They appear as records of functions passed in as parameters:
`AdvancedApi`, `DataSpacesApi` and `SymbolsApi` (engine queries),
`BreakpointEngine` and `ScopeEngine` (gateway engine calls), `UriApi`
(`Uri`), and `RawVariable` lists (`Environment.GetEnvironmentVariables`).
Each method says in its postcondition what it returns and how it changes
the state. The gateway's handlers are also described as values: a ghost
relation `Handles` between the gateway's state before and after a message
and the handler's answer, and `Drains` for a whole drain of the queue. The
lemmas then prove the properties the program relies on about the
specification functions.

## Model

| member | source | states |
|---|---|---|
| Records.NewBreakpoint | windbg-debug/WinDbg/Data/BreakPoint.cs:9-19 | a breakpoint is built exactly when the file is not blank and the line is positive; a blank file is an ArgumentNull("file") error, a non-positive line an ArgumentOutOfRange("line") error; the record keeps both values |
| Records.DefaultThreadName | windbg-debug/WinDbg/Data/DebuggeeThread.cs:14-15 | the default thread name is `Thread #` followed by something |
| Records.DefaultThreadNameInjective | windbg-debug/WinDbg/Data/DebuggeeThread.cs:14-15 | different thread ids get different default names |
| Records.NewDebuggeeThread | windbg-debug/WinDbg/Data/DebuggeeThread.cs:9-19 | a thread is built exactly when the id is positive, otherwise Argument("id"); a blank name is replaced by the default name, any other name is kept |
| Records.DebuggeeThreadNameNotBlank | windbg-debug/WinDbg/Data/DebuggeeThread.cs:14-17 | every constructed thread has a non-blank name |
| Records.NewProtocolThread | src/VSCodeDebug/Thread.cs:18-29 | the protocol thread keeps its id; a null or empty name becomes the default name, so the name is never empty |
| Records.NewScope | src/windbg-debug/WinDbg/Data/Scope.cs:7-17 | a scope is built exactly when the id is positive and the name is not blank, with Argument("id") or ArgumentNull("name") otherwise |
| Records.GetNames | src/windbg-debug/WinDbg/Data/Scopes.cs:9-19 | the names are the scope table's keys, in order |
| Records.GetScopeByName | src/windbg-debug/WinDbg/Data/Scopes.cs:10-28 | a null name is ArgumentNull("key"); a name resolves exactly when it equals a table key ignoring case, and then to that key's scope group |
| Records.GetNamesResolve | src/windbg-debug/WinDbg/Data/Scopes.cs:16-28 | every name `GetNames` lists resolves to its own scope group |
| Records.GetScopeByNameIgnoresCase | src/windbg-debug/WinDbg/Data/Scopes.cs:10-25 | names that differ only in case resolve alike |
| EntityStore.Upsert | windbg-debug/WinDbg/DebuggerState.cs:109-118 | storing threads keeps every thread under its own id |
| EntityStore.UpsertLastWins | windbg-debug/WinDbg/DebuggerState.cs:109-118 | after storing, an id is present exactly when it was before or a stored thread has it; an id no thread carries keeps its old thread; otherwise the last thread with that id wins |
| EntityStore.DebuggerState.constructor | windbg-debug/WinDbg/DebuggerState.cs:14-20 | a new store is empty with the counter at its first index |
| EntityStore.DebuggerState.GetNewIndex | windbg-debug/WinDbg/DebuggerState.cs:55-58 | the new handle is one more than the old counter and becomes the counter; nothing else changes |
| EntityStore.DebuggerState.AddConnection | windbg-debug/WinDbg/DebuggerState.cs:43-53 | the child is added to the parent's child set, creating the set if needed; nothing else changes |
| EntityStore.DebuggerState.NewChild | windbg-debug/WinDbg/DebuggerState.cs:120-131 | a null factory is ArgumentNull("factory") and changes nothing; otherwise a fresh handle is drawn, connected under the parent and passed to the factory |
| EntityStore.DebuggerState.AddFrame | windbg-debug/WinDbg/DebuggerState.cs:120-132 | a frame gets a handle no frame, scope or variable had, is a child of its thread and reads back by that handle; the thread's child set gains exactly the new handle (starting from empty when the thread had none), other parents' sets are unchanged, and the other tables are unchanged |
| EntityStore.DebuggerState.AddScope | windbg-debug/WinDbg/DebuggerState.cs:143-155 | as AddFrame, for a scope under its frame: the frame's child set gains exactly the new handle and nothing else in the store changes |
| EntityStore.DebuggerState.AddVariable | windbg-debug/WinDbg/DebuggerState.cs:180-192 | as AddFrame, for a variable under its scope or parent variable: the parent's child set gains exactly the new handle and nothing else in the store changes |
| EntityStore.DebuggerState.GetFrame | windbg-debug/WinDbg/DebuggerState.cs:134-141 | a lookup misses exactly when the handle is not a frame, and otherwise returns the stored frame |
| EntityStore.DebuggerState.GetScope | windbg-debug/WinDbg/DebuggerState.cs:157-164 | as GetFrame, for scopes |
| EntityStore.DebuggerState.GetVariable | windbg-debug/WinDbg/DebuggerState.cs:194-201 | as GetFrame, for variables |
| EntityStore.DebuggerState.GetSymbolsForScope | windbg-debug/WinDbg/DebuggerState.cs:166-173 | as GetFrame, for cached symbol groups |
| EntityStore.DebuggerState.UpdateSymbolGroup | windbg-debug/WinDbg/DebuggerState.cs:175-178 | the scope's symbol group is replaced and reads back; nothing else changes |
| EntityStore.DebuggerState.Clear | windbg-debug/WinDbg/DebuggerState.cs:98-107 | every table is emptied and the counter reset |
| EntityStore.DebuggerState.AddThreads | windbg-debug/WinDbg/DebuggerState.cs:109-118 | a null list changes nothing; otherwise the threads are stored by id as Upsert describes; nothing else changes |
| EntityStore.DebuggerState.GetThreads | windbg-debug/WinDbg/DebuggerState.cs:73-76 | the result holds exactly the stored threads |
| EntityStore.DebuggerState.GetChildren | windbg-debug/WinDbg/DebuggerState.cs:26-41 | the result lists each child of the parent that is in the given table exactly once, with its stored entity |
| EntityStore.DebuggerState.GetScopes | windbg-debug/WinDbg/DebuggerState.cs:78-81 | the frame's child scopes, each once |
| EntityStore.DebuggerState.GetFrames | windbg-debug/WinDbg/DebuggerState.cs:83-86 | the thread's child frames, each once |
| EntityStore.DebuggerState.GetVariablesByScope | windbg-debug/WinDbg/DebuggerState.cs:88-91 | the scope's child variables, each once |
| EntityStore.DebuggerState.ExpandVariable | windbg-debug/WinDbg/DebuggerState.cs:93-96 | the variable's child variables, each once |
| EntityStore.DebuggerState.ParentOf | windbg-debug/WinDbg/DebuggerState.cs:211-220 | a parent found holds the child; no parent means no child set holds it |
| EntityStore.DebuggerState.GetTopMostParentScope | windbg-debug/WinDbg/DebuggerState.cs:209-223 | the loop computes the upward walk that stops at a scope or at a handle without a parent |
| EntityStore.DebuggerState.GetScopeForVariable | windbg-debug/WinDbg/DebuggerState.cs:203-207 | the variable's scope is the scope at the end of the walk; a walk that never ends is a StackOverflow error |
| EntityStore.DebuggerState.NoParentIsOwnScope | windbg-debug/WinDbg/DebuggerState.cs:222 | a handle without a parent is its own top-most parent |
| EntityStore.DebuggerState.ScopeParentIsFound | windbg-debug/WinDbg/DebuggerState.cs:213-216 | a variable directly under a scope finds that scope |
| EntityStore.DebuggerState.WalkEndsAtScopeOrRoot | windbg-debug/WinDbg/DebuggerState.cs:209-223 | the walk ends at a scope, or at a handle that has no parent |
| EntityStore.DebuggerState.WalkFuelMonotone | windbg-debug/WinDbg/DebuggerState.cs:209-223 | a walk that ends keeps its answer under any larger depth bound |
| TypedMemory.NewRequestHelper | windbg-debug/WinDbg/Helpers/RequestHelper.cs:22-36 | the helper is built exactly when all three engine interfaces are present; the first missing one names the ArgumentNull error |
| TypedMemory.ReadValue | windbg-debug/WinDbg/Helpers/RequestHelper.cs:137-146 | a readable range gives exactly its bytes; an unreadable one gives no bytes |
| TypedMemory.ReadString | windbg-debug/WinDbg/Helpers/RequestHelper.cs:148-157 | the engine's string, or the empty string when the engine reads none |
| TypedMemory.ReadLong | windbg-debug/WinDbg/Helpers/RequestHelper.cs:159-175 | a size other than 2, 4 or 8 is Argument("size"); otherwise the read succeeds exactly when memory is readable, and the value is the signed number in range whose little-endian bytes are in memory |
| TypedMemory.ReadLongOfStoredValue | windbg-debug/WinDbg/Helpers/RequestHelper.cs:159-175 | a signed value written in memory at a supported size is read back unchanged |
| TypedMemory.CombineArrays | windbg-debug/WinDbg/Helpers/RequestHelper.cs:246-253 | the result is the base array followed by the additional array |
| TypedMemory.RequestBytesIsConcatenation | windbg-debug/WinDbg/Helpers/RequestHelper.cs:240-243 | a request's bytes are the structure's bytes followed by the extra bytes |
| TypedMemory.Candidate | windbg-debug/WinDbg/Helpers/RequestHelper.cs:219-225 | every candidate key starts with the field name |
| TypedMemory.CandidateInjective | windbg-debug/WinDbg/Helpers/RequestHelper.cs:219-225 | different attempts give different candidate keys |
| TypedMemory.CandidatesTakenBound | windbg-debug/WinDbg/Helpers/RequestHelper.cs:221 | at most as many candidates as there are keys can be taken, so the search for a free key ends |
| TypedMemory.FreeKey | windbg-debug/WinDbg/Helpers/RequestHelper.cs:217-228 | the chosen key is not yet used; a field name not yet used is its own key |
| TypedMemory.GetKey | windbg-debug/WinDbg/Helpers/RequestHelper.cs:217-228 | the loop finds the first free candidate key |
| TypedMemory.AssignKeysDistinct | windbg-debug/WinDbg/Helpers/RequestHelper.cs:207-212 | the keys given to a variable's fields are pairwise different and each starts with its field's name |
| TypedMemory.FreshNameKeptVerbatim | windbg-debug/WinDbg/Helpers/RequestHelper.cs:207-212 | a field whose name is not already a key is stored under its own name |
| TypedMemory.Operand | windbg-debug/WinDbg/Helpers/RequestHelper.cs:196-204 | only a pointer is replaced by its target before the fields are read |
| TypedMemory.FieldEntries | windbg-debug/WinDbg/Helpers/RequestHelper.cs:204-212 | one entry per field name of the operand, in order, keyed by the assigned key and holding that field's typed data |
| TypedMemory.ReadVariable | windbg-debug/WinDbg/Helpers/RequestHelper.cs:194-215 | the read succeeds exactly when the field tree is no deeper than the depth given (ReadsWithin), and otherwise is StackOverflow; the result keeps the data, and at every level of the tree (WellRead) dereferences exactly the pointers and has the fields, keys and data FieldEntries gives |
| TypedMemory.WellReadUnique | windbg-debug/WinDbg/Helpers/RequestHelper.cs:194-215 | two field trees read as ReadVariable reads them from the same value are equal, at every level |
| TypedMemory.ReadFields | windbg-debug/WinDbg/Helpers/RequestHelper.cs:194-215 | what a visualizer gets from one `ReadVariable` of its value: the first level of the field tree when the whole tree is read within the stack's depth, StackOverflow exactly otherwise |
| TypedMemory.SelfContainingNeverRead | windbg-debug/WinDbg/Helpers/RequestHelper.cs:203-207 | a value with a field that leads back to the same value (directly or through a pointer) is never read to the end, whatever the depth |
| TypedMemory.ReadsWithinMonotone | windbg-debug/WinDbg/Helpers/RequestHelper.cs:203-207 | a tree read within some depth is read within any larger one |
| TypedMemory.NextKey | windbg-debug/WinDbg/Helpers/RequestHelper.cs:210 | the next key extends the keys assigned so far as AssignKeys does |
| Bytes.ToUnsigned | windbg-debug/WinDbg/Visualizers/RustStringVisualizer.cs:66 | reading an unsigned number needs at least the width in bytes (none at all is ArgumentOutOfRange("startIndex")), and gives the number whose little-endian bytes those are |
| Bytes.ToSigned | windbg-debug/WinDbg/Helpers/RequestHelper.cs:163-170 | reading a signed number needs at least the width in bytes and gives the in-range number whose two's complement bytes those are |
| Bytes.SignedRoundTrip | windbg-debug/WinDbg/Helpers/RequestHelper.cs:163-170 | writing a signed number and reading it back gives the number |
| Bytes.DecodeEncode | windbg-debug/WinDbg/Helpers/RequestHelper.cs:163-170 | decoding the little-endian bytes of a number in range gives the number |
| Bytes.EncodeDecode | windbg-debug/WinDbg/Helpers/RequestHelper.cs:163-170 | encoding a decoded byte sequence gives the sequence back |
| Text.IndexOf | src/windbg-debug/WinDbg/Helpers/StringExtensions.cs:21-29 | a found index lies between the start and the last place a match fits, and a match is there |
| Text.IndexOfFirst | src/windbg-debug/WinDbg/Helpers/StringExtensions.cs:21-29 | the index found is the first match from the start; not found means there is no match |
| Text.EqualsIgnoringCase | windbg-debug/WinDbg/Visualizers/RustStringVisualizer.cs:31-33 | an ordinal comparison ignoring case holds exactly when the two strings fold to the same string |
| Text.StartsWithIgnoringCase | windbg-debug/WinDbg/Visualizers/RustVectorVisualizer.cs:28 | a case-insensitive prefix test holds exactly when the folded prefix is a prefix of the folded string |
| Text.OccursAtMatches | windbg-debug/WinDbg/Visualizers/RustSliceVisualizer.cs:28 | the pattern occurs at an index exactly when the ordinal match there succeeds |
| Text.ContainsOccurs | windbg-debug/WinDbg/Visualizers/RustSliceVisualizer.cs:28 | `Contains` holds exactly when the pattern occurs at some index |
| Text.TrimPadded | windbg-debug/WinDbg/Visualizers/RustEncodedEnumVisualizer.cs:74-77 | trimming text padded with spaces gives back the text |
| Text.SplitJoin | windbg-debug/WinDbg/Visualizers/RustEnumVisualizer.cs:102 | splitting lines joined by the separator, none empty or holding it, gives the lines back |
| Text.ParseInt32RoundTrip | windbg-debug/WinDbg/Visualizers/RustEnumVisualizer.cs:108 | parsing the decimal text of a 32-bit number gives the number |
| Visualization.NewShown | windbg-debug/WinDbg/Data/VisualizationResult.cs:5-9 | a null value is shown as the unknown-value text; the children flag is kept |
| Visualization.GetTypeName | windbg-debug/WinDbg/Visualizers/VisualizerBase.cs:101-110 | the engine's type name, or the empty string when it has none |
| Visualization.EnquoteInjective | src/windbg-debug/WinDbg/Visualizers/RustStringVisualizer.cs:46-49 | different strings are shown as different quoted texts |
| Visualization.Qualified | windbg-debug/WinDbg/Visualizers/RustEncodedEnumVisualizer.cs:61 | the shown variant is the type name, `::`, then the variant name |
| Visualization.CutAtNul | windbg-debug/WinDbg/Visualizers/RustStringVisualizer.cs:76-78 | text is cut at its first NUL; text without NUL is marked with `...` as possibly truncated |
| Visualization.ItemNameInjective | src/windbg-debug/WinDbg/Visualizers/VisualizerBase.cs:41 | different array positions get different `[i]` names |
| Visualization.ArrayItems | src/windbg-debug/WinDbg/Visualizers/VisualizerBase.cs:36-43 | n items, item i named `[i]`, typed as the pointed-to type and read at position i |
| Visualization.ResolvedPairs | windbg-debug/WinDbg/Visualizers/VisualizerBase.cs:79-91 | resolving children succeeds exactly when every child is handled, and then pairs each child with its shown value, in order |
| Visualization.ResolvedTotal | windbg-debug/WinDbg/Visualizers/VisualizerBase.cs:79-91 | a handler that never throws resolves every child |
| Visualization.ResolvedFirstFailure | windbg-debug/WinDbg/Visualizers/VisualizerBase.cs:79-91 | a failed resolution reports the error of the first child that failed |
| Visualization.ResolvedStops | windbg-debug/WinDbg/Visualizers/VisualizerBase.cs:79-91 | once a prefix fails, the later children do not change the outcome |
| Visualization.ResolveAll | windbg-debug/WinDbg/Visualizers/VisualizerBase.cs:79-91 | the loop computes the resolution that ResolvedPairs describes |
| Visualization.ReadArray | windbg-debug/WinDbg/Visualizers/VisualizerBase.cs:79-91 | reading an array resolves its item descriptions |
| Visualization.FieldMetas | windbg-debug/WinDbg/Visualizers/RustEnumVisualizer.cs:58-63 | one description per field, with its key, type name and data |
| Visualization.FirstField | windbg-debug/WinDbg/Visualizers/RustEncodedEnumVisualizer.cs:43 | the first field, or InvalidOperation when there is none |
| Visualization.FieldNamed | windbg-debug/WinDbg/Visualizers/RustSliceVisualizer.cs:34-35 | a field is found exactly when a field has that key, otherwise KeyNotFound |
| Visualization.Discriminant | windbg-debug/WinDbg/Visualizers/RustEnumVisualizer.cs:91-94 | the discriminant is the byte at the value's address, or IndexOutOfRange when it cannot be read |
| Visualization.LastWordAddress | windbg-debug/WinDbg/Visualizers/RustEncodedEnumVisualizer.cs:56 | the last 8 bytes of the value, with 64-bit wrap-around |
| Visualization.TrailingPointer | windbg-debug/WinDbg/Visualizers/RustEncodedEnumVisualizer.cs:56 | the pointer is read exactly when the last word is readable, and its bytes are the bytes in memory |
| Visualization.EncodedEnumNames | windbg-debug/WinDbg/Visualizers/RustEncodedEnumVisualizer.cs:68-81 | a definition without `:` fails; the empty-variant name holds no `$` or `:` |
| Visualization.AnyStartsWithFolded | windbg-debug/WinDbg/Visualizers/RustEncodedEnumVisualizer.cs:33-37 | some field name starts with the prefix ignoring case exactly when some folded name starts with the folded prefix |
| Visualization.EncodedEnumCanHandle | windbg-debug/WinDbg/Visualizers/RustEncodedEnumVisualizer.cs:33-37 | the encoded-enum visualizer accepts a value exactly when one of its field names starts with the encoded-enum prefix, ignoring case |
| Visualization.EncodedEnumNamesOf | windbg-debug/WinDbg/Visualizers/RustEncodedEnumVisualizer.cs:68-81 | a definition `prefix$None: path::Some` yields the names None and Some |
| Visualization.EncodedEnumShown | windbg-debug/WinDbg/Visualizers/RustEncodedEnumVisualizer.cs:58-61 | a null pointer shows the empty variant, any other the filled one; only a filled variant with a distinct name has children |
| Visualization.EncodedEnumHandle | windbg-debug/WinDbg/Visualizers/RustEncodedEnumVisualizer.cs:51-62 | a field tree too deep for the stack is StackOverflow; otherwise showing succeeds exactly when the value has a field, the definition parses and the pointer is readable, and shows the variant the pointer selects |
| Visualization.EncodedEnumChild | windbg-debug/WinDbg/Visualizers/RustEncodedEnumVisualizer.cs:39-48 | a field tree too deep for the stack is StackOverflow; otherwise the only child is `inner`, the first field, and InvalidOperation when there is none |
| LegacyVisualizers.NewVisualizer | windbg-debug/WinDbg/Visualizers/VisualizerBase.cs:23-37 | a visualizer is built exactly when helper, symbols and registry are present and, for kinds that capture output, the output; each missing one names its ArgumentNull error in that order |
| LegacyVisualizers.ReadText | windbg-debug/WinDbg/Visualizers/VisualizerBase.cs:69-72 | a readable range is decoded from exactly its `size` memory bytes; an unreadable one decodes no bytes |
| LegacyVisualizers.CanHandle | windbg-debug/WinDbg/Visualizers/VisualizerBase.cs:43-46 | the class's own acceptance test: the default visualizer accepts every value, and a value the encoded-enum visualizer accepts is one the enum visualizer accepts too |
| LegacyVisualizers.DefaultShown | windbg-debug/WinDbg/Visualizers/DefaultVisualizer.cs:66-82 | a pointer shows its address and type and has children; an array shows its type and has children when at least 16 bytes; anything else shows the trimmed engine text and has children exactly when it has fields |
| LegacyVisualizers.FieldChild | windbg-debug/WinDbg/Visualizers/DefaultVisualizer.cs:57-58 | a field child is named after the field and holds its data and type |
| LegacyVisualizers.StructChildren | windbg-debug/WinDbg/Visualizers/DefaultVisualizer.cs:53-61 | one child per field, in order, each shown by the default visualizer |
| LegacyVisualizers.DefaultChildren | windbg-debug/WinDbg/Visualizers/DefaultVisualizer.cs:36-64 | a pointer has one `inner` child, its target; an array has its items resolved, or DivideByZero for a zero-sized item; anything else has its fields |
| LegacyVisualizers.DefaultChildrenAgree | windbg-debug/WinDbg/Visualizers/DefaultVisualizer.cs:36-82 | outside arrays, the default visualizer says there are children exactly when it lists some |
| LegacyVisualizers.DefaultArrayFlagIgnoresItems | windbg-debug/WinDbg/Visualizers/DefaultVisualizer.cs:46-51 | an 8-byte array of bytes is shown without children yet lists 8 items, because the flag compares the byte size against 16 |
| LegacyVisualizers.GetStructChildren | windbg-debug/WinDbg/Visualizers/DefaultVisualizer.cs:53-61 | the loop builds StructChildren |
| LegacyVisualizers.GetDefaultChildren | windbg-debug/WinDbg/Visualizers/DefaultVisualizer.cs:36-64 | the method computes DefaultChildren |
| LegacyVisualizers.PointerString | windbg-debug/WinDbg/Visualizers/RustStringVisualizer.cs:72-81 | the text is the `MaxStringSize` bytes read at the pointee, cut just before its first NUL, or all of them followed by `...` when they hold none; so it holds no NUL |
| LegacyVisualizers.StaticString | windbg-debug/WinDbg/Visualizers/RustStringVisualizer.cs:62-70 | a field tree too deep for the stack is StackOverflow; otherwise reading needs a `length` field and 8 readable bytes, and the text is read at the stored pointer with the length cut to 32 bits |
| LegacyVisualizers.StringHandle | windbg-debug/WinDbg/Visualizers/RustStringVisualizer.cs:37-46 | an unsupported type is Argument("meta"); a pointer type is read up to NUL, others through the length; the text is quoted and has no children |
| LegacyVisualizers.StringPointerPath | windbg-debug/WinDbg/Visualizers/RustStringVisualizer.cs:13-15 | among the accepted types, a name ending in `*` is exactly the pointer string type |
| LegacyVisualizers.StringCanHandle | windbg-debug/WinDbg/Visualizers/RustStringVisualizer.cs:30-35 | accepted exactly when the type name folds to one of the three `&str` spellings |
| LegacyVisualizers.Wtf8CanHandle | windbg-debug/WinDbg/Visualizers/RustWtf8Visualizer.cs:27-30 | accepted exactly when the type name folds to the `Wtf8` struct name |
| LegacyVisualizers.Wtf8Shown | windbg-debug/WinDbg/Visualizers/RustWtf8Visualizer.cs:37-46 | the value is the text read at the address cut at its first NUL, and has no children |
| LegacyVisualizers.SliceLength | windbg-debug/WinDbg/Visualizers/RustSliceVisualizer.cs:42-43 | the length is found exactly when the slice's field tree is read within the stack and has a `length` field; otherwise StackOverflow or KeyNotFound |
| LegacyVisualizers.SliceHandle | windbg-debug/WinDbg/Visualizers/RustSliceVisualizer.cs:40-47 | a slice is shown as its type and `[length]`, with children exactly when the length is positive |
| LegacyVisualizers.SliceCanHandle | windbg-debug/WinDbg/Visualizers/RustSliceVisualizer.cs:26-29 | accepted exactly when `&[` occurs somewhere in the type name, case-sensitively |
| LegacyVisualizers.VectorCanHandle | windbg-debug/WinDbg/Visualizers/RustVectorVisualizer.cs:26-29 | accepted exactly when the folded type name starts with the folded `Vec` type name |
| LegacyVisualizers.SliceChildren | windbg-debug/WinDbg/Visualizers/RustSliceVisualizer.cs:31-38 | a field tree too deep for the stack is StackOverflow; missing `length` or `data_ptr` are KeyNotFound errors; otherwise the children are exactly the `length` array items read from `data_ptr`, each shown through the registry |
| LegacyVisualizers.GetSliceChildren | windbg-debug/WinDbg/Visualizers/RustSliceVisualizer.cs:31-38 | the method computes SliceChildren |
| LegacyVisualizers.SliceChildrenAgree | windbg-debug/WinDbg/Visualizers/RustSliceVisualizer.cs:31-47 | a slice that lists its items says it has children exactly when it lists some |
| LegacyVisualizers.VectorHandle | windbg-debug/WinDbg/Visualizers/RustVectorVisualizer.cs:48-59 | a vector is shown as `Vec`, the rest of its type name and `[len]`, with children exactly when len is positive |
| LegacyVisualizers.VectorHandleAccepted | windbg-debug/WinDbg/Visualizers/RustVectorVisualizer.cs:26-29 | every vector the visualizer accepts whose length is readable is shown |
| LegacyVisualizers.VectorChildren | windbg-debug/WinDbg/Visualizers/RustVectorVisualizer.cs:31-46 | a vector lists no children, once its length is readable |
| LegacyVisualizers.Handle | windbg-debug/WinDbg/Visualizers/VisualizerBase.cs:48-51 | the default kind always succeeds; strings never have children; an enum always has children |
| LegacyVisualizers.Children | windbg-debug/WinDbg/Visualizers/VisualizerBase.cs:53-58 | strings list no children; an encoded enum lists only `inner`, StackOverflow on a tree too deep, or InvalidOperation without fields |
| LegacyVisualizers.GetVisualizerChildren | windbg-debug/WinDbg/Visualizers/VisualizerBase.cs:53-58 | the method computes Children |
| LegacyVisualizers.EncodedEnumAlsoEnum | windbg-debug/WinDbg/Visualizers/RustEnumVisualizer.cs:32-37 | every value the encoded-enum visualizer accepts the enum visualizer accepts too, so registration order decides |
| LegacyVisualizers.FirstAccepting | windbg-debug/WinDbg/Visualizers/VisualizerRegistry.cs:51 | the first registered visualizer that accepts the value, or none when none does |
| LegacyVisualizers.FindHandlerIn | windbg-debug/WinDbg/Visualizers/VisualizerRegistry.cs:78-84 | the first accepting visualizer, or the default one |
| LegacyVisualizers.HandleIn | windbg-debug/WinDbg/Visualizers/VisualizerRegistry.cs:62-66 | a value is shown by the visualizer FindHandlerIn picks |
| LegacyVisualizers.ReHandler | windbg-debug/WinDbg/Visualizers/VisualizerBase.cs:74-77 | children are shown through the registry again |
| LegacyVisualizers.RegisterKeepsEarlier | windbg-debug/WinDbg/Visualizers/VisualizerRegistry.cs:36-42 | registering a visualizer never takes a value away from an earlier one that accepts it |
| LegacyVisualizers.FirstAcceptingIs | windbg-debug/WinDbg/Visualizers/VisualizerRegistry.cs:80 | a visualizer that accepts, with no earlier one accepting, is the one chosen |
| LegacyVisualizers.LegacyRegistry.constructor | windbg-debug/WinDbg/Visualizers/VisualizerRegistry.cs:18-24 | a new registry is empty and keeps its default visualizer |
| LegacyVisualizers.LegacyRegistry.AddVisualizer | windbg-debug/WinDbg/Visualizers/VisualizerRegistry.cs:36-42 | a null visualizer is ignored; any other goes at the end |
| LegacyVisualizers.LegacyRegistry.CanHandle | windbg-debug/WinDbg/Visualizers/VisualizerRegistry.cs:44-47 | the registry accepts every value |
| LegacyVisualizers.LegacyRegistry.FindHandler | windbg-debug/WinDbg/Visualizers/VisualizerRegistry.cs:78-84 | the registry's handler is FindHandlerIn over its own list |
| LegacyVisualizers.LegacyRegistry.TryHandle | windbg-debug/WinDbg/Visualizers/VisualizerRegistry.cs:49-60 | succeeds exactly when Handle does, marked as handled |
| LegacyVisualizers.LegacyRegistry.Handle | windbg-debug/WinDbg/Visualizers/VisualizerRegistry.cs:62-66 | the value as the chosen visualizer shows it |
| LegacyVisualizers.LegacyRegistry.GetChildren | windbg-debug/WinDbg/Visualizers/VisualizerRegistry.cs:68-72 | the chosen visualizer's children, shown through the registry |
| LegacyVisualizers.NewLegacyRegistry | windbg-debug/WinDbg/Visualizers/VisualizerRegistry.cs:18-24 | a null default visualizer is ArgumentNull("defaultVisualizer"); otherwise a new empty registry |
| RustEnum.ParseEnumLine | windbg-debug/WinDbg/Visualizers/RustEnumVisualizer.cs:106-108 | a line without `=` is ArgumentOutOfRange("length"); a parsed value is a 32-bit number and the name holds no `=` |
| RustEnum.ParsedLines | windbg-debug/WinDbg/Visualizers/RustEnumVisualizer.cs:102-109 | each line is parsed on its own, in order |
| RustEnum.CollectOk | windbg-debug/WinDbg/Visualizers/RustEnumVisualizer.cs:103-111 | the name table is built exactly when every line parses and no value repeats |
| RustEnum.CollectHas | windbg-debug/WinDbg/Visualizers/RustEnumVisualizer.cs:103-111 | every parsed value maps to its name |
| RustEnum.CollectOnly | windbg-debug/WinDbg/Visualizers/RustEnumVisualizer.cs:103-111 | the table holds no value that no line gave |
| RustEnum.CollectStops | windbg-debug/WinDbg/Visualizers/RustEnumVisualizer.cs:103-111 | the first failing line decides the error |
| RustEnum.ReadEnumNames | windbg-debug/WinDbg/Visualizers/RustEnumVisualizer.cs:96-112 | the loop computes the name table of the definition |
| RustEnum.MarkerRemoved | windbg-debug/WinDbg/Visualizers/RustEnumVisualizer.cs:107 | removing the `0n` marker leaves the digits |
| RustEnum.ParseEnumLineOf | windbg-debug/WinDbg/Visualizers/RustEnumVisualizer.cs:106-108 | the line `name = 0nvalue` parses to that value and name |
| RustEnum.EnumNamesRoundTrip | windbg-debug/WinDbg/Visualizers/RustEnumVisualizer.cs:96-112 | a definition listing distinct values parses to the table that maps each value to its name, and nothing else |
| RustEnum.DefinitionParses | windbg-debug/WinDbg/Visualizers/RustEnumVisualizer.cs:102-108 | the definition's lines parse to its variants, in order |
| RustEnum.EnumCanHandle | windbg-debug/WinDbg/Visualizers/RustEnumVisualizer.cs:32-37 | accepted exactly when a field name starts, ignoring case, with the enum sentinel or the encoded-enum prefix; so every value the encoded-enum visualizer accepts is accepted |
| RustEnum.VariantName | windbg-debug/WinDbg/Visualizers/RustEnumVisualizer.cs:70-82 | a field tree too deep for the stack is StackOverflow; no fields is InvalidOperation; an encoded first field names the variant after its last `$` |
| RustEnum.EnumHandle | windbg-debug/WinDbg/Visualizers/RustEnumVisualizer.cs:68-85 | an enum is shown as type `::` variant, always with children, exactly when the variant is found |
| RustEnum.EnumHandleOf | windbg-debug/WinDbg/Visualizers/RustEnumVisualizer.cs:79-84 | a discriminant the definition lists shows that variant's name |
| RustEnum.EnumHandleUnknown | windbg-debug/WinDbg/Visualizers/RustEnumVisualizer.cs:81 | a discriminant the definition does not list shows the unknown value |
| RustEnum.RecursiveEnumOverflows | windbg-debug/WinDbg/Visualizers/RustEnumVisualizer.cs:68-70 | an enum that holds itself, such as a `Box`ed list, is StackOverflow rather than shown |
| RustEnum.Sentinels | windbg-debug/WinDbg/Visualizers/RustEnumVisualizer.cs:47-50 | no more sentinels than fields |
| RustEnum.KeptFields | windbg-debug/WinDbg/Visualizers/RustEnumVisualizer.cs:45-55 | the kept fields are fields of the value and none is a sentinel |
| RustEnum.KeptAppend | windbg-debug/WinDbg/Visualizers/RustEnumVisualizer.cs:43-55 | the selection over two runs of fields is the two selections joined, with the counter carried over |
| RustEnum.KeptBelow | windbg-debug/WinDbg/Visualizers/RustEnumVisualizer.cs:43-55 | fields before the variant's sentinel are skipped |
| RustEnum.KeptAbove | windbg-debug/WinDbg/Visualizers/RustEnumVisualizer.cs:43-55 | fields after the variant are skipped |
| RustEnum.KeptRun | windbg-debug/WinDbg/Visualizers/RustEnumVisualizer.cs:43-55 | a run with no sentinel inside the variant is kept whole |
| RustEnum.VariantFieldsBetween | windbg-debug/WinDbg/Visualizers/RustEnumVisualizer.cs:43-55 | the variant's fields are exactly those between its sentinel and the next sentinel |
| RustEnum.SelectVariantFields | windbg-debug/WinDbg/Visualizers/RustEnumVisualizer.cs:41-55 | the loop selects VariantFields |
| RustEnum.EnumChildren | windbg-debug/WinDbg/Visualizers/RustEnumVisualizer.cs:39-66 | a field tree too deep for the stack is StackOverflow; then an unreadable discriminant is IndexOutOfRange; otherwise the children are the selected variant's fields, resolved |
| RustEnum.GetEnumChildren | windbg-debug/WinDbg/Visualizers/RustEnumVisualizer.cs:39-66 | the method computes EnumChildren |
| VisualizerChain.NewVisualizerBase | src/windbg-debug/WinDbg/Visualizers/VisualizerBase.cs:15-25 | built exactly when helper and symbols are present; the first missing one names the ArgumentNull error |
| VisualizerChain.GetArrayLength | src/windbg-debug/WinDbg/Visualizers/VisualizerBase.cs:45-54 | the number of whole items that fit in the array; 0 for a zero-sized item |
| VisualizerChain.FirstAccepting | src/windbg-debug/WinDbg/Visualizers/VisualizerRegistry.cs:42 | the first visualizer that accepts, with every earlier one declining; none when all decline; an error only from a visualizer that threw |
| VisualizerChain.FindHandlerIn | src/windbg-debug/WinDbg/Visualizers/VisualizerRegistry.cs:106-112 | the first accepting visualizer, or the default one; it fails only when an acceptance test throws |
| VisualizerChain.TryHandleIn | src/windbg-debug/WinDbg/Visualizers/VisualizerRegistry.cs:40-68 | the chosen visualizer's result; if it throws, the default one's; if that throws too, not handled and shown as unidentified |
| VisualizerChain.HandleIn | src/windbg-debug/WinDbg/Visualizers/VisualizerRegistry.cs:70-79 | the shown value of TryHandleIn |
| VisualizerChain.HandleFallsBack | src/windbg-debug/WinDbg/Visualizers/VisualizerRegistry.cs:40-79 | when every acceptance test answers, a value is always shown, falling back in the stated order |
| VisualizerChain.TryHandleFails | src/windbg-debug/WinDbg/Visualizers/VisualizerRegistry.cs:59-67 | a value is not handled exactly when both the chosen and the default visualizer throw |
| VisualizerChain.ReHandler | src/windbg-debug/WinDbg/Visualizers/VisualizerRegistry.cs:94 | children are shown through the registry again |
| VisualizerChain.ChildrenIn | src/windbg-debug/WinDbg/Visualizers/VisualizerRegistry.cs:81-104 | any error, or no children reported, gives an empty list; otherwise the reported children, each shown through the registry |
| VisualizerChain.ChildrenComplete | src/windbg-debug/WinDbg/Visualizers/VisualizerRegistry.cs:88-97 | when the registry decides every child, all children are listed, each with its shown value |
| VisualizerChain.RegisterKeepsEarlier | src/windbg-debug/WinDbg/Visualizers/VisualizerRegistry.cs:27-33 | a new visualizer never takes a value away from an earlier one that accepts it |
| VisualizerChain.FirstAcceptingExtends | src/windbg-debug/WinDbg/Visualizers/VisualizerRegistry.cs:42 | once decided by a prefix, later registrations do not change the choice |
| VisualizerChain.VisualizerRegistry.constructor | src/windbg-debug/WinDbg/Visualizers/VisualizerRegistry.cs:17-23 | a new registry is empty and keeps its default visualizer |
| VisualizerChain.VisualizerRegistry.AddVisualizer | src/windbg-debug/WinDbg/Visualizers/VisualizerRegistry.cs:27-33 | a null visualizer is ignored; any other goes at the end |
| VisualizerChain.VisualizerRegistry.CanHandle | src/windbg-debug/WinDbg/Visualizers/VisualizerRegistry.cs:35-38 | the registry accepts every value |
| VisualizerChain.VisualizerRegistry.TryHandle | src/windbg-debug/WinDbg/Visualizers/VisualizerRegistry.cs:40-68 | the registry's answer is TryHandleIn over its own list |
| VisualizerChain.VisualizerRegistry.Handle | src/windbg-debug/WinDbg/Visualizers/VisualizerRegistry.cs:70-79 | the registry's answer is HandleIn over its own list |
| VisualizerChain.VisualizerRegistry.GetChildren | src/windbg-debug/WinDbg/Visualizers/VisualizerRegistry.cs:81-104 | the loop computes ChildrenIn over its own list |
| VisualizerChain.NewVisualizerRegistry | src/windbg-debug/WinDbg/Visualizers/VisualizerRegistry.cs:17-23 | a null default is ArgumentNull("defaultVisualizer"); otherwise a new empty registry |
| VisualizerChain.StringCanHandle | src/windbg-debug/WinDbg/Visualizers/RustStringVisualizer.cs:23-28 | accepted exactly when the type name folds to either `&str` spelling, or `string::String` occurs in it case-sensitively |
| VisualizerChain.PointerSize | src/windbg-debug/WinDbg/Visualizers/RustStringVisualizer.cs:64-65 | pointers are 8 bytes in a 64-bit process and 4 otherwise |
| VisualizerChain.ReadStringAt | src/windbg-debug/WinDbg/Visualizers/RustStringVisualizer.cs:61-68 | reading succeeds exactly when the pointer is readable, and reads the text at that pointer with the length cut to 32 bits |
| VisualizerChain.StaticString | src/windbg-debug/WinDbg/Visualizers/RustStringVisualizer.cs:51-59 | a field tree too deep for the stack is StackOverflow; a missing `length` is KeyNotFound; otherwise the text at the stored pointer |
| VisualizerChain.DynamicString | src/windbg-debug/WinDbg/Visualizers/RustStringVisualizer.cs:70-79 | a field tree too deep for the stack is StackOverflow; no field is InvalidOperation; missing `len` or `buf` in the first field are KeyNotFound; otherwise the text at `buf` of length `len` |
| VisualizerChain.StringHandle | src/windbg-debug/WinDbg/Visualizers/RustStringVisualizer.cs:30-39 | an unsupported type is Argument("meta"); `String` types take the dynamic path, others the static one; the quoted text has no children |
| VisualizerChain.StringPathChoice | src/windbg-debug/WinDbg/Visualizers/RustStringVisualizer.cs:23-28 | an accepted type takes the dynamic path only when it is a `String` type |
| VisualizerChain.StringVisualizer | src/windbg-debug/WinDbg/Visualizers/RustStringVisualizer.cs:23-44 | the string visualizer accepts the string types, shows them as StringHandle does, and reports no children |
| VisualizerChain.EncodedEnumVisualizer | src/windbg-debug/WinDbg/Visualizers/RustEncodedEnumVisualizer.cs:24-50 | accepts encoded enums, shows them as EncodedEnumHandle does, and reports the `inner` child, StackOverflow on a tree too deep, or InvalidOperation without fields |
| VisualizerChain.EncodedEnumUnreadableNoChildren | src/windbg-debug/WinDbg/Visualizers/RustEncodedEnumVisualizer.cs:30-37 | an encoded enum read to the end but without fields lists no children through the registry |
| StringExtensions.ReplacedStep | src/windbg-debug/WinDbg/Helpers/StringExtensions.cs:21-29 | at the next occurrence the text before it is copied, the new value put in its place, and the scan resumes after it |
| StringExtensions.Replace | src/windbg-debug/WinDbg/Helpers/StringExtensions.cs:16-34 | the loop replaces every occurrence found from left to right, as ReplacedFrom describes |
| StringExtensions.ReplaceLoopStep | src/windbg-debug/WinDbg/Helpers/StringExtensions.cs:22-30 | one pass of the loop keeps the built text plus the rest's replacement equal to the answer |
| StringExtensions.NoOccurrenceUnchanged | src/windbg-debug/WinDbg/Helpers/StringExtensions.cs:21-31 | text with no occurrence is copied unchanged |
| StringExtensions.ReplaceSelfIdentity | src/windbg-debug/WinDbg/Helpers/StringExtensions.cs:16-34 | replacing a value by itself, ordinally, gives the text back |
| StringExtensions.ReplacedLength | src/windbg-debug/WinDbg/Helpers/StringExtensions.cs:16-34 | the length changes by the length difference once per replaced occurrence |
| StringExtensions.Delimited | src/windbg-debug/WinDbg/Helpers/StringExtensions.cs:79 | a variable's key is its name between `%` signs |
| StringExtensions.Contributed | src/windbg-debug/WinDbg/Helpers/StringExtensions.cs:68-89 | every key an environment contributes is `%`-delimited |
| StringExtensions.ReadEnvironmentVariablesSafely | src/windbg-debug/WinDbg/Helpers/StringExtensions.cs:68-89 | the loop skips null keys and values, and an environment that cannot be read contributes nothing |
| StringExtensions.AssignKeysShape | src/windbg-debug/WinDbg/Helpers/StringExtensions.cs:62 | an assignment keeps existing keys in place and adds a new key at the end |
| StringExtensions.AssignKeepsOthers | src/windbg-debug/WinDbg/Helpers/StringExtensions.cs:62 | an assignment leaves every other entry where it was |
| StringExtensions.Lookup | src/windbg-debug/WinDbg/Helpers/StringExtensions.cs:42 | a key is found exactly when the table has it |
| StringExtensions.AssignLookup | src/windbg-debug/WinDbg/Helpers/StringExtensions.cs:62 | after an assignment the key reads its new value and every other key its old one |
| StringExtensions.AssignKeepsDistinct | src/windbg-debug/WinDbg/Helpers/StringExtensions.cs:62 | an assignment never duplicates a key |
| StringExtensions.LastFor | src/windbg-debug/WinDbg/Helpers/StringExtensions.cs:58-66 | a key has a last value exactly when some pair carries it |
| StringExtensions.IncludedLookup | src/windbg-debug/WinDbg/Helpers/StringExtensions.cs:58-66 | after including pairs, the last pair for a key wins and other keys keep their value |
| StringExtensions.IncludedDistinct | src/windbg-debug/WinDbg/Helpers/StringExtensions.cs:58-66 | including pairs never duplicates a key |
| StringExtensions.Include | src/windbg-debug/WinDbg/Helpers/StringExtensions.cs:58-66 | the loop stores each pair in turn |
| StringExtensions.ReadEnvironmentTable | src/windbg-debug/WinDbg/Helpers/StringExtensions.cs:47-56 | the table is machine, then user, then process variables included in turn |
| StringExtensions.EnvironmentPrecedence | src/windbg-debug/WinDbg/Helpers/StringExtensions.cs:51-53 | a process variable overrides a user one, which overrides a machine one |
| StringExtensions.EnvironmentTableWellFormed | src/windbg-debug/WinDbg/Helpers/StringExtensions.cs:47-56 | the start-up table has distinct, `%`-delimited keys |
| StringExtensions.ReplaceEnvironmentVariables | src/windbg-debug/WinDbg/Helpers/StringExtensions.cs:36-45 | a path without `%` is returned as it is; any other has every table key replaced in turn, ignoring case |
| StringExtensions.NoDelimiterNothingToExpand | src/windbg-debug/WinDbg/Helpers/StringExtensions.cs:38-42 | without `%` no key can match, so the early return agrees with the full expansion |
| Gateway.OutcomesMatchStored | src/windbg-debug/WinDbg/WinDbgWrapper.cs:391-431 | one outcome per breakpoint, in order; a breakpoint is reported as set exactly when it is stored under its id |
| Gateway.StoredLookup | src/windbg-debug/WinDbg/WinDbgWrapper.cs:391-431 | older ids keep their breakpoints, each new id holds its breakpoint exactly when the engine registered it, and no later id is used |
| Gateway.RegisterBreakpoints | src/windbg-debug/WinDbg/WinDbgWrapper.cs:391-431 | the loop gives every breakpoint a fresh id, reports the outcomes and stores the registered ones |
| Gateway.StoredIdsBounded | src/windbg-debug/WinDbg/WinDbgWrapper.cs:32-34 | stored ids stay between the first id and the last id given out |
| Gateway.HandledTickets | src/windbg-debug/WinDbg/WinDbgWrapper.cs:150-165 | no more answers than messages |
| Gateway.HandledTicketsExactly | src/windbg-debug/WinDbg/WinDbgWrapper.cs:484-493 | when every message has a handler each is answered under its ticket, in order; when none has, none is answered |
| Gateway.LoopStep | src/windbg-debug/WinDbg/WinDbgWrapper.cs:455-473 | the loop ends exactly when the status cannot be read or there is no debuggee, and waits for an event exactly while the target runs |
| Gateway.ScheduleShape | src/windbg-debug/WinDbg/WinDbgWrapper.cs:455-475 | the loop takes one step per status until the first ending status, and drains the queue last |
| Gateway.RunMainLoop | src/windbg-debug/WinDbg/WinDbgWrapper.cs:455-475 | the loop computes Schedule |
| Gateway.WinDbgWrapper.constructor | src/windbg-debug/WinDbg/WinDbgWrapper.cs:49-62 | a new gateway has an empty queue, no breakpoints and the last breakpoint id 1 |
| Gateway.WinDbgWrapper.HandleMessage | src/windbg-debug/WinDbg/WinDbgWrapper.cs:80-98 | a disposed or closed gateway completes at once; otherwise the message is queued under the next ticket, and a terminate message closes the queue |
| Gateway.WinDbgWrapper.Dispose | src/windbg-debug/WinDbg/WinDbgWrapper.cs:817-868 | the gateway is marked disposed; nothing else changes |
| Gateway.WinDbgWrapper.GetBreakpoint | src/windbg-debug/WinDbg/WinDbgWrapper.cs:131-148 | an engine id resolves exactly when a breakpoint is stored under it |
| Gateway.WinDbgWrapper.DoSetBreakpoints | src/windbg-debug/WinDbg/WinDbgWrapper.cs:391-431 | the request reports the outcomes, advances the last id by the number of breakpoints and stores the registered ones |
| Gateway.WinDbgWrapper.DoContinue | src/windbg-debug/WinDbg/WinDbgWrapper.cs:478-482 | continuing clears the entity store and requests Go-handled |
| Gateway.WinDbgWrapper.DoGetVariables | src/windbg-debug/WinDbg/WinDbgWrapper.cs:523-537 | an unknown handle has no variables; a variable handle is expanded; a scope handle takes the scope's route (`AnswersVariables`): an unknown scope name fails and changes nothing, no symbol group gives no variables and changes nothing, otherwise only the scope's symbol group is replaced, a changed symbol count re-reads the symbols and an unchanged one lists exactly the variables stored under the scope |
| Gateway.WinDbgWrapper.DoGetVariablesByScope | src/windbg-debug/WinDbg/WinDbgWrapper.cs:625-646 | an unknown scope name fails and changes nothing; no symbol group gives no variables; otherwise the new group is stored and the counter, frames, scopes, threads, variables and children are unchanged; a changed symbol count re-reads the symbols, and an unchanged one lists each variable stored under the scope once, in the store's order |
| Gateway.WinDbgWrapper.Dispatch | src/windbg-debug/WinDbg/WinDbgWrapper.cs:495-521 | the answer and the whole new gateway state are those `Handles` gives for the message kind: breakpoints get their outcomes and advance the last id and the stored table; variables take the `AnswersVariables` route and change only the store; continue clears the store and requests Go-handled; the steps request their status; stack trace, scopes and threads are routed and may change the store but nothing else; every other kind is routed and changes nothing |
| Gateway.WinDbgWrapper.ProcessNext | src/windbg-debug/WinDbg/WinDbgWrapper.cs:486-492 | the first queued message is taken off (`Takes`): without a handler nothing else changes; otherwise the gateway moves as `Handles` says, and a successful handler's answer is appended under the message's ticket while a failing one appends nothing |
| Gateway.WinDbgWrapper.ProcessMessages | src/windbg-debug/WinDbg/WinDbgWrapper.cs:484-493 | the queue is drained in order (`Drains`): a trace of gateway states links each message to its handler's answer and state change, each handled message is answered under its ticket; a failure stops the drain right after the failing message, whose handler moved the state as `Handles` says for that failure |
| Gateway.HasHandler | src/windbg-debug/WinDbg/WinDbgWrapper.cs:152-164 | exactly the thirteen message kinds the handler table lists have a handler; a pause message has none |
| Gateway.TakesAnswersTicket | src/windbg-debug/WinDbg/WinDbgWrapper.cs:486-492 | taking one message answers it under its own ticket when its handler succeeds, and adds no answer when it fails or has no handler |
| Gateway.DrainsSnoc | src/windbg-debug/WinDbg/WinDbgWrapper.cs:484-493 | a drain of a prefix of the queue followed by taking the next message is a drain one message longer |
| Gateway.DrainsAnswerHandledTickets | src/windbg-debug/WinDbg/WinDbgWrapper.cs:484-493 | the answers of a drain carry, in order, exactly the tickets of the handled messages |
| Gateway.DrainedTickets | src/windbg-debug/WinDbg/WinDbgWrapper.cs:484-493 | answers made before a drain are kept, and the drain adds the tickets of the handled messages after them |
| DebugSession.Failure | src/VSCodeDebug/DebugSession.cs:155-158 | a handler that throws gives error 1104 |
| DebugSession.AfterHandler | src/VSCodeDebug/DebugSession.cs:155-158 | a handler that returns gives its reply; one that throws gives the failure reply with its message |
| DebugSession.DebuggerLineToClient | src/VSCodeDebug/DebugSession.cs:213-223 | lines move by one exactly when the two sides count from different bases |
| DebugSession.ClientLineToDebugger | src/VSCodeDebug/DebugSession.cs:225-235 | the opposite shift of DebuggerLineToClient |
| DebugSession.LineConversionsRoundTrip | src/VSCodeDebug/DebugSession.cs:213-235 | converting a line one way and back gives the line |
| DebugSession.DebuggerPathToClient | src/VSCodeDebug/DebugSession.cs:237-270 | same formats pass the path through; a path becomes a URI, or null when it has none; a URI becomes a local path, and a null URI is ArgumentNull("uriString") |
| DebugSession.ClientPathToDebugger | src/VSCodeDebug/DebugSession.cs:272-308 | a null path stays null; same formats pass through; a URI that is not well formed gives null, another its local path; a path becomes a URI |
| DebugSession.FilePathRoundTrip | src/VSCodeDebug/DebugSession.cs:253-263 | a file path sent to a URI client and back is unchanged when the URI library round-trips it |
| DebugSession.Session.constructor | src/VSCodeDebug/DebugSession.cs:14-23 | a new session keeps the debugger's conventions and assumes a client counting from 1 and using URIs |
| DebugSession.Session.DispatchRequest | src/VSCodeDebug/DebugSession.cs:42-164 | `initialize` without arguments is error 1104 and changes nothing; otherwise it records the client's line base and path format, and a bad path format is error 1015; known commands go to their handler, whose throw is error 1104; `source` is error 1020; others are error 1014; `disconnect` stops the session |
| DebugSession.Session.ConvertDebuggerLineToClient | src/VSCodeDebug/DebugSession.cs:213-223 | the client line converts back to the debugger line |
| DebugSession.Session.ConvertClientLineToDebugger | src/VSCodeDebug/DebugSession.cs:225-235 | the debugger line converts back to the client line |
| DebugSession.Session.ConvertDebuggerPathToClient | src/VSCodeDebug/DebugSession.cs:237-270 | the session's conventions applied to DebuggerPathToClient |
| DebugSession.Session.ConvertClientPathToDebugger | src/VSCodeDebug/DebugSession.cs:272-308 | the session's conventions applied to ClientPathToDebugger |

## Left out

- The debugging engine, COM interop, the worker threads, locks, sleeps and cancellation of the gateway are not modelled. Engine answers are function parameters.
- The two initial queue drains in the main loop are not modelled; nor are logging and console output.
- Gateway.WinDbgWrapper.Dispose: only the disposed flag is modelled. Detaching from and releasing the engine are external calls.
- Gateway.WinDbgWrapper.DoGetVariables: returns the route the request takes (cached, expand, read symbols), not the variables the engine then builds. `DoGetVariablesFromSymbols` and the visualizer expansion are engine calls. The variables the expand and read-symbols routes then add to the store with `AddVariable` are not modelled either, so `AnswersVariables` describes the store as the route leaves it, before those additions.
- Gateway.WinDbgWrapper.Dispatch: launch, attach, terminate, stack trace, step out, evaluate, threads and scopes go straight to the engine. They are routed but their results are not modelled. Stack trace, scopes and threads also write to the store (`AddFrame`, `AddScope`, `SetThreads`); those writes are not modelled, so `Handles` leaves the store free for them and the model's `Dispatch` leaves it as it was. `EnsureIsCurrentScope` is not modelled either.
- Gateway.Registers: the four engine calls that set a breakpoint are one predicate that short-circuits on the first failure.
- Gateway.RegisterBreakpoints: breakpoint ids are unbounded. The source's counter `_lastBreakpointId` is a 32-bit `int`, incremented with `Interlocked.Increment` (which wraps to negative past `int.MaxValue`) and cast to `uint` for the engine; that wrap-around is not modelled.
- EntityStore.DebuggerState.GetNewIndex: handles are unbounded. The source's `_indexCounter` is a 32-bit `int` advanced with `Interlocked.Increment` (DebuggerState.cs:14, 57), which wraps to negative handles past `int.MaxValue` and could then hand out a handle already in use; that wrap-around is not modelled, so the freshness that AddFrame, AddScope and AddVariable promise holds only for fewer than 2^31 handles since the last `Clear`.
- DebugSession.DebuggerLineToClient: lines are unbounded integers; 32-bit overflow at the extremes is not modelled. The same holds for DebugSession.ClientLineToDebugger.
- DebugSession.Session.DispatchRequest: the JSON marshalling of arguments and replies is left out. Handlers are one function from command to outcome.
- EntityStore.DebuggerState.GetTopMostParentScope: the recursion is bounded by a depth parameter. On cyclic parent links the source overflows its stack; there the model returns no scope, and GetScopeForVariable reports StackOverflow. GetScopeForVariable allows one step per parent in the map; that this depth suffices for every chain without a cycle is not proved.
- TypedMemory.ReadVariable: the recursion is bounded by a depth parameter. Running out gives Err(StackOverflow), where the source would overflow its stack. The visualizers read with the fixed depth `StackDepth`, whose value stands for the unknown size of the thread's stack.
- VisualizerChain.TryHandleIn: StackOverflow is a `Fault` like the others, so this catch-all fallback, and the one in VisualizerChain.ChildrenIn, treat it as a caught exception. In .NET a stack overflow cannot be caught and ends the process.
- TypedMemory: `ReadFieldNames` is the `SymbolsApi` function. The raw request marshalling is only `RequestBytes`.
- LegacyVisualizers.DefaultShown: `ToTypedData(meta)` is not defined in the modelled sources. The model takes it to be the identity and uses `meta.entry` directly.
- The newer `DebuggerState` under `src/` is not part of this model. The gateway is modelled over the older store in `windbg-debug/WinDbg/DebuggerState.cs`.
- Gateway: the store operations the gateway calls that the older store lacks are not modelled. They are `GetThreadForFrame`, `GetFrameForScope`, `GetVariableDescription`, `SetThreads`, the `CurrentThread` and `CurrentFrame` properties, and the three-argument `AddVariable`. The handlers that use them (`EnsureIsCurrentFrame`, `EnsureIsCurrentScope`, `EnsureIsCurrentThread`, variable expansion, thread listing) are routed only.
- StringExtensions.Replace: an empty `oldValue` is excluded. The source never leaves its loop on it, because the search finds an empty match at the same index again.
- Text: case-insensitive comparison folds ASCII letters only. Culture-sensitive `EndsWith` is treated as ordinal.
- Text: dictionary enumeration order is taken to be insertion order.
- LegacyVisualizers: text decoding (`Encoding.Default.GetString` and the engine's Unicode reads) is a function parameter.
- LegacyVisualizers.VectorChildren: the vector visualizer's `buf` field lookup is unused in the source and not modelled.
- LegacyVisualizers: the `StopCatching` output capture of the default visualizer is the engine's `shortValueText`.

# Stored documents, policy evaluation and their laws

This project models the parts of Enterprise OPA in which a mistake would be hardest to
see, and proves what they are for.

**The binary JSON store** (`pkg/json`). A document is written into one growing buffer of
bytes: strings, numbers and object shapes are interned, null and booleans live in the
offsets that point at them, placeholders are filled in later. A second document is
stored as a delta: new bytes, and a sorted table of offsets that are to be read
elsewhere. `Trees` holds documents, `Reader` says what an offset of a snapshot or of a
snapshot with a delta means (`Denotes`), `SnapshotFormat`, `DeltaValues` and
`DeltaFormat` say which bytes are written; `SnapshotWriters`, `DeltaWriters`,
`EncodingCaches`, `ArrayDiffs` and `Lookups` are the algorithms that write and read them,
proved against those specifications. `DeltaFiles.DeltaCorrect` is the main theorem:
reading a snapshot with its delta gives exactly the other document. `DeltaLookups` adds
that binary search finds the same: `ExtractThroughDelta` follows any pointer from the
root. The elements of arrays are compared as they are stored, with the kind of every
object (`StoredShapes`); `WrittenShapes` says which kinds the snapshot writer uses. From
that, `DeltaEmpty` and `SettledSnapshots` say when a delta is empty, and `ArrayReuse`
which elements are taken over. `FileBytes` says what the files look like, without the
reader: its numbers by position, and a snapshot and a delta byte by byte.

**The policy machine** (`pkg/vm`). `Ir` is the intermediate representation, `Compilers`
and `CodeWriters` turn it into bytes, `Bytecode` and `Executables` read the bytes back.
`Evaluation` says what a policy means, by recursion over its structure, with calls that
are remembered or without; `Machines` walks the bytes, keeps locals, remembers calls layer
by layer and counts against a budget. `Machines.EvalPlan` and `Policies.Run` say that
they agree, for all code, as long as the cost of the plan is within the budget.
`StatementLaws` says of each kind of statement, in terms of the locals alone, when it goes
on, stops or fails and what it assigns. `Transparency` says that remembering calls changes nothing
unless both undefined and the empty string are passed to functions, `Collisions` gives a
policy for which it does, and `Dataflow` is a check of the code that rules one of the two
out. `Breaks` says where a break lands, `Registers` that chunked and pooled registers are a
map from locals to values.

**Hash tables of JSON values** (`pkg/json`). `JsonValues` says what a value means
(`Sem`) and that equality decides it, `JsonHashes` that equal values are hashed alike;
`JsonTables` and `JsonSets` are the growing tables, which refine maps and sets under any
hash function, and `JsonUnions` is the recursive union.

**Prepared statements** (`pkg/builtins/sqlsend.go`). `PreparedStatements` and
`ConnectionPools` are state machines in which any number of queries take their steps in
any order; every lock section and every call to the statement cache is one step. What
a query holds or gets is for the text or key it has asked for, which is read off the run.

**JSON pointers** (`pkg/json/ptr.go`). `Pointers` proves the round trip of sections 3 and
4 of RFC 6901 through the successive global replacements.

## What is assumed

- Offsets are unbounded integers in the specifications; the theorems about reading assume
  that the whole content is shorter than 2^31 bytes, which is what 32-bit offsets can
  address. `Proper` states that single texts and lists are shorter than that and that the
  names of an object are ascending, which is how the writer is given them.
- The first document of a delta is a snapshot as the writer leaves it: both roots are
  objects, and no container is shared (`Comparable`; `SnapshotRoundTrip` proves it of
  every written snapshot). The second document may be read through any view, a delta
  included. The delta algorithm in its imperative form excludes binary data in arrays that
  it compares, which the original refuses to hash (`BlobsApart`).
- Reading a corrupt file is an absent node, whether the original panics or returns an
  error.
- The hash functions of the array comparison, the caches and the tables are arbitrary
  parameters; nothing depends on the absence of collisions.
- Numbers are identified with their canonical text. "0" and "-0" are therefore different
  numbers here, where the original compares them equal and hashes them differently.
- Data operations and builtins of the machine are arbitrary deterministic functions
  (`Ops`), and collections are immutable values.
- Transparency of memoization is about planned code (`FuncTame`): functions take the input
  and the data document first and pass them on, only `with` replaces them, and a function
  returns in the last statement of its last block. Undefined and the empty string share a
  key (`KeysAgree`), so code that passes both can get a wrong answer
  (`BlankArgumentsCollide`). Code that passes only one of them cannot, and
  `Dataflow.Check` decides from the code, the constants and which documents are present
  whether it follows that one of them is never passed.
- The statement cache is a bounded map whose look-ups and insertions are atomic, and
  which calls back for the evicted statement after the insertion is over; which statement
  it evicts is arbitrary.

## Where the code does less than one might expect

- Equal array elements are not always taken over: a full object is not equal to a thin one
  (`elementEqual` compares the types first), though both are hashed alike and `diffImpl`
  treats them alike. `EqualArrayRewritten` gives two documents, `ReusedExactly` and
  `RewrittenExactly` the exact conditions.
- A delta between equal documents is not always empty: an array among the fields is reported
  as changed against itself when it holds, at different places, two elements that are stored
  alike. For a written document these are two equal arrays or objects such that no object
  inside the first is the first one with its names (`SelfDeltaEmpty`): [[], []] is such an
  array (`TwinsHaveADelta`), [{"x": null}, {"x": null}] is not when no object with the one
  name "x" comes before it (`ThinTwinsHaveNone`).
- Remembered calls can give a wrong answer, as said above.
- A database whose statement cache cannot be created stays open outside of the pool, and so
  does one that was opened in vain and could not be closed, as far as the pool can tell.
  `OpenMeansPooled` says that nothing else does.
- The packing of a type with a length is exact only below 2^24 (`PackReadsBack`), and
  nothing in the writer checks that.

## Model

| member | source | states |
|---|---|---|
| ByteCodec.Be32ReadBack | pkg/json/delta.go:1105-1109 | a word written big-endian reads back as its low 32 bits, and as the same signed offset if it is one |
| ByteCodec.WordsReadBack | pkg/json/delta.go:61-82 | a table of 32-bit offsets reads back as the list that was written |
| ByteCodec.PatchNext | pkg/json/snapshot.go:688-702 | overwriting the first placeholder of a half-filled table at the cursor gives the table with one more offset and nothing else moved |
| ByteCodec.UvarintReadBack | pkg/json/snapshot.go:1359-1376 | a variable-length number reads back with the position behind it, at any of its ten bytes, as long as it fits into what is left of 64 bits |
| ByteCodec.VarintReadBack | pkg/json/snapshot.go:1379-1386 | every 64-bit integer survives the zig-zag variable-length encoding |
| ByteCodec.ReadUvarint | pkg/json/snapshot.go:1359-1376 | the loop that shifts seven bits at a time computes the decoded number and the position behind it, and fails on exactly the truncated and overflowing encodings |
| ByteCodec.StringReadBack | pkg/json/snapshot.go:873-894 | a length-prefixed string reads back exactly |
| Names.SortNames | pkg/json/delta.go:879-884 | sorting the keys of a map gives exactly these names, each before the next: a proper prefix first, otherwise by the first byte that differs |
| Names.LessMeans | pkg/json/snapshot.go:862-870 | the comparison of two names, said by position: one is a proper prefix of the other, or smaller in the first byte that differs |
| Names.AscendingMeans | pkg/json/snapshot.go:862-870 | a list of names is in order exactly when each name is before the next |
| Names.SortedCount | pkg/json/delta.go:879-884 | sorting loses no name and repeats none |
| Trees.StringScalarIsInt | pkg/json/snapshot.go:627-646 | a string is stored as an integer exactly when it is the canonical text of a 64-bit integer |
| Trees.ItoaRoundTrip | pkg/json/snapshot.go:627-646 | the canonical text of a 64-bit integer parses back to it |
| Trees.AtoiMeans | pkg/json/snapshot.go:627-646 | a text is parsed as an integer exactly when it consists of digits, perhaps behind a sign, and then as the sum of its digits times their powers of ten |
| Trees.ItoaMeans | pkg/json/snapshot.go:627-646 | the canonical text of an integer is its digits without leading zeros, behind a minus sign if it is negative |
| Trees.ReprKeepsValue | pkg/json/snapshot.go:627-646 | the compact representation of integer-looking strings reads back as the value the client handed over, at any depth |
| FileBytes.WordBytes | pkg/json/delta.go:1105-1109 | a word is the sum of its four bytes times powers of 256, the highest first |
| FileBytes.UvarintBytes | pkg/json/snapshot.go:1359-1376 | a variable-length number is the sum of seven bits of each byte times powers of 128, the lowest first, and all bytes but the last have the high bit |
| FileBytes.SnapshotInBytes | pkg/json/snapshot.go:521-773 | the snapshot of a document with a full and a thin object, an array, a string and embedded values, byte by byte |
| FileBytes.DeltaInBytes | pkg/json/delta.go:590-630 | the delta that changes one value of an object, byte by byte: the place of the table, the patch, the table |
| Reader.DenotesUnique | pkg/json/file.go:10-60 | an offset of a view means at most one document |
| Reader.DenotesExtends | pkg/json/file.go:10-60 | an offset keeps its meaning when bytes are appended |
| Containers.InsideIsContainer | pkg/json/file.go:10-60 | what counts as a container within a document is an array or object in the bytes |
| SnapshotFormat.SnapshotRoundTrip | pkg/json/snapshot.go:506-625 | the file of any document reads back from offset 0 as the document, with exact number and string text, and no container of it is reachable along two paths |
| SnapshotFormat.WriteCorrect | pkg/json/snapshot.go:521-773 | at any base, with any valid cache, behind any content: the offset returned for a document denotes it in every extension of the content, its containers lie in the bytes just written, and the cache stays valid |
| SnapshotFormat.WriteKeepsEarlier | pkg/json/snapshot.go:521-625 | whatever is appended, offsets handed out earlier still denote the same documents |
| SnapshotFormat.ThinObjectReadBack | pkg/json/snapshot.go:1015-1063 | a thin object reads as an object with the name table it borrows and its own values |
| SnapshotFormat.CacheObjectType | pkg/json/internal.go:122-153 | the offset of a full object can be remembered as its shape before its values are written, even by objects nested in it |
| SnapshotFormat.WriteStringCorrect | pkg/json/snapshot.go:627-646 | an interned string denotes the string, whether it was written now or earlier and as text or as an integer |
| EncodingCaches.EncodingCache.CacheString | pkg/json/internal.go:155-169 | the hash buckets refine a map from strings to offsets under any hash function: the first offset given for a string is returned ever after |
| EncodingCaches.EncodingCache.CacheNumber | pkg/json/internal.go:171-177 | the same for number texts |
| EncodingCaches.EncodingCache.CacheObjectType | pkg/json/internal.go:122-153 | the same for lists of names, hashed by a sum modulo 2^64 that need not tell permutations apart |
| SnapshotWriters.SnapshotWriter.Serialize | pkg/json/snapshot.go:521-625 | the writer with placeholders, cursors and caches appends exactly the bytes, returns the offset and leaves the cache of the specification that the round trip is about |
| SnapshotWriters.SnapshotWriter.SerializeElements | pkg/json/snapshot.go:694-702 | after the loop the placeholders hold the offsets of the elements in order, and the elements follow |
| SnapshotWriters.SnapshotWriter.SerializeNames | pkg/json/snapshot.go:726-731 | the same for the names of a full object, with the placeholders of the values left empty |
| SnapshotWriters.SnapshotWriter.SerializeObject | pkg/json/snapshot.go:707-773 | a known shape is written thin, a new one in full, and remembered before its values are written |
| Lookups.DeltaReader.DeltaOffset | pkg/json/delta.go:84-134 | the binary search applies exactly the overrides that the table describes, and none beyond the snapshot |
| Lookups.NameIndex | pkg/json/snapshot.go:1131-1193 | the binary search in the bytes finds a name exactly when the name table holds it, at its position |
| Lookups.SnapshotValueOffset | pkg/json/snapshot.go:1209-1221 | the lookup in a full or thin object gives the offset listed with the name, or none |
| Lookups.PatchedLookup | pkg/json/delta.go:453-475 | in the merged listing of a patched object a changed name has its change, a removed name is absent, and any other name is what the object underneath says |
| Lookups.PatchedValueOffset | pkg/json/delta.go:382-475 | the binary search in the changes and then in the object underneath agrees with the merged listing on every name |
| Lookups.DeltaValueOffset | pkg/json/delta.go:195-235 | a lookup through the overrides, on an object of any of the three kinds, agrees with what reading the object lists |
| Lookups.PatchedListing | pkg/json/delta.go:530-588 | the listing of a patched object, built from the slots underneath and one change after the other, is the merged map, each name before the next by the first byte that differs |
| DeltaLookups.DenotedIsSorted | pkg/json/delta.go:382-422 | every object that reading finds in an opened delta, patched or not, has name tables in the order that binary search needs |
| DeltaLookups.Find | pkg/json/json.go:836-857 | the binary search on any object of an opened delta finds exactly the names of the document it denotes, each with an offset that denotes its value |
| DeltaLookups.ReadElement | pkg/json/file.go:10-60 | reading an offset through the binary search over the overrides gives the node that the document has there |
| DeltaLookups.ExtractAt | pkg/json/json.go:924-935 | a pointer followed from lookup to lookup, through objects and arrays, leads to exactly what the document holds there, or nowhere if it holds nothing |
| DeltaLookups.ExtractThroughDelta | pkg/json/delta.go:590-630 | end to end: any pointer looked up in a snapshot with its delta to a document leads to exactly what that document holds there |
| DeltaLookups.ElementLaw | pkg/json/json.go:586-603 | below an array, the decimal text of an index leads to the element with this index, a plus sign and leading zeros make no difference, and an index out of range or of binary data leads nowhere |
| DeltaLookups.NoIndexLaw | pkg/json/json.go:1691-1697 | a segment that is no integer leads nowhere below an array |
| DeltaLookups.FieldLaw | pkg/json/json.go:924-935 | below an object, a name leads to its value and any other segment nowhere |
| DeltaFiles.DeltaCorrect | pkg/json/delta.go:590-630 | opening a snapshot followed by its delta to another document gives a view that denotes exactly the other document from the root on, however that document was stored: every name and value at any depth is read, and every object can be searched |
| DeltaFiles.SnapshotPlusDelta | pkg/json/delta.go:590-630 | end to end: a document written as a snapshot and opened with the delta to a second document, stored in any way, reads as the value of the second |
| DeltaFiles.OverridesAreIsolated | pkg/json/delta.go:632-928 | the keys of the override table are arrays and objects within the old document, which have one parent slot each, and never interned scalars; they are sent into the bytes of the delta |
| DeltaFiles.NoOverridesMeansEqual | pkg/json/delta.go:608-629 | a delta without overrides is made only for equal documents |
| DeltaEmpty.EmptyExactly | pkg/json/delta.go:608-629 | a delta is empty exactly when the documents are equal and every array among the fields is stored alike in both, object kinds included, without elements of the old one that are stored alike at different places |
| DeltaEmpty.SameArrayExactly | pkg/json/array_diff.go:92-107 | an array is left alone exactly when both versions store it alike and elements that are stored alike share their place |
| DeltaEmpty.RepeatsDoNotSettle | pkg/json/array_diff.go:64-107 | an array with two elements that are stored alike at different places is not left alone, however the new version stores it |
| SettledSnapshots.SelfDeltaEmpty | pkg/json/delta.go:608-629 | for a written document: its delta to itself is empty exactly when no array among its fields, at any depth, holds two equal arrays or objects such that no object in the first of them is the first one with its names in the document |
| SettledSnapshots.WrittenDeltaEmpty | pkg/json/delta.go:608-629 | for two written documents: the delta is empty exactly when they are equal and there is no such array |
| ArrayReuse.TwinsHaveADelta | pkg/json/array_diff.go:64-107 | a written document, an object with an array of two empty arrays, whose delta to itself is not empty |
| ArrayReuse.ThinTwinsHaveNone | pkg/json/array_diff.go:128-141 | a written document with an array of two equal objects, the first full and the second thin, whose delta to itself is empty |
| ArrayReuse.EqualArrayRewritten | pkg/json/array_diff.go:128-141 | two written documents with an equal array under the same name, whose delta overrides that array, as its element is full in one and thin in the other |
| ArrayReuse.RewrittenExactly | pkg/json/array_diff.go:64-107 | an array that is equal in both versions is overridden exactly when they store it differently, or elements that are stored alike stand at different places |
| ArrayReuse.ReusedExactly | pkg/json/array_diff.go:64-90 | an element of a written array is taken over from a written old array exactly when an equal element is there such that each list of names in it occurs earlier in both documents or in neither |
| ArrayReuse.PicksReuse | pkg/json/delta.go:742-793 | in a changed array, an element that the old one stores alike keeps an old offset and is not copied |
| WrittenShapes.SnapShape | pkg/json/snapshot.go:703-773 | in a written snapshot, the first object with a list of names is full and all later ones are thin, at any depth |
| WrittenShapes.SameShape | pkg/json/snapshot.go:703-773 | a document is stored in the same way in two places exactly when each list of names in it had been written before in both or in neither |
| WrittenShapes.StoredAlike | pkg/json/snapshot.go:703-773 | two elements of a written array are stored alike exactly when they are equal and no object in the first is the first one with its names |
| StoredShapes.StoredIsDoc | pkg/json/array_diff.go:115-126 | what is stored at an offset, with the kind of every object, is the document that is read there: elements that are stored alike are equal |
| StoredShapes.StoredType | pkg/json/array_diff.go:115-126 | the type is known from the offset or the byte where the overrides send it |
| SettledSnapshots.LeavesPlaced | pkg/json/snapshot.go:627-677 | scalars written with one cache keep one offset for each text |
| DeltaFiles.OpenedView | pkg/json/delta.go:32-59 | the reader opened on a finished delta applies exactly the overrides that the comparison recorded |
| DeltaFiles.TableIsRead | pkg/json/delta.go:608-627 | header, count and both tables of a delta read back as they were written |
| DeltaFiles.SortKeys | pkg/json/delta.go:613-618 | the override keys are listed in their one increasing order |
| DeltaProof.DiffCorrect | pkg/json/delta.go:632-928 | comparing at any place, behind any delta written so far, however the new version is stored: if a change is reported, the new offset denotes the new value in the finished delta, else the old place does |
| DeltaFrame.DiffFrame | pkg/json/delta.go:632-928 | a comparison adds or drops overrides only at or below its place, only of containers, and sends them to bytes it appended |
| DeltaProof.ChangedArrayCorrect | pkg/json/delta.go:742-793 | an array patch denotes the new array: its elements are copies, or old elements stored alike that no override touches |
| DeltaProof.UnchangedObject | pkg/json/delta.go:864-868 | an object without changes of its own denotes the new object through the overrides below it |
| DeltaProof.EarlierFieldsKept | pkg/json/delta.go:827-849 | what a later name decides never touches an earlier one |
| DeltaProof.OwnPlace | pkg/json/delta.go:827-849 | comparing the values of an object never overrides the object itself |
| DeltaPatches.MergedIsNew | pkg/json/delta.go:477-528 | the old slots with the recorded changes have exactly the names of the new object, each with an offset that denotes its new value |
| DeltaPatches.PatchReadBack | pkg/json/delta.go:870-893 | an object patch reads back as the object underneath, the size and the changes that were written |
| DeltaPatches.PatchedObjectDenotes | pkg/json/delta.go:259-295 | a view that overrides an object with such a patch denotes the new object there, for reading and for searching |
| DeltaValues.CopyCorrect | pkg/json/delta.go:955-1103 | a document copied into the delta denotes itself there, whatever the overrides are and whatever follows |
| DeltaValues.CachedNamesCorrect | pkg/json/delta.go:1068-1073 | the names of a copied object, interned in the delta, stand where the recorded offsets say |
| DeltaValues.BeyondOverrides | pkg/json/delta.go:84-91 | offsets in the delta are beyond the reach of any override |
| DeltaWriters.WriteDelta | pkg/json/delta.go:590-630 | the algorithm with its buffer, override map, caches and two hash caches writes exactly the delta of the theorems, for any hash functions and any reader of the new document with its own kinds of objects, as long as arrays that are compared hold no binary data, and reports emptiness truthfully |
| DeltaWriters.DeltaWriter.DiffImpl | pkg/json/delta.go:632-928 | one comparison appends the bytes, returns the offset and change flag, and leaves the overrides and cache of the specification |
| DeltaWriters.DeltaWriter.CompareName | pkg/json/delta.go:827-849 | a name of the old object is compared with the new object or removed; the override of its own place is dropped when its change goes into the patch |
| DeltaWriters.DeltaWriter.AddOneName | pkg/json/delta.go:851-862 | a name that only the new object has is interned and its value copied |
| DeltaWriters.DeltaWriter.DiffArrays | pkg/json/delta.go:742-793 | an array is left alone, or patched in place with copied and old elements, as the comparison of stored elements decides |
| DeltaWriters.DeltaWriter.Reserialize | pkg/json/delta.go:955-1103 | copying appends the bytes of the specification and returns the offset of the copy |
| DeltaWriters.NameInEntrySlice | pkg/json/delta.go:930-952 | the binary search in the sorted entries finds a name exactly when it is there |
| ArrayDiffs.ElementEqual | pkg/json/array_diff.go:128-258 | two stored elements compare equal exactly when they are the same document with the same kind of object, full, thin or patched, at every place |
| ArrayDiffs.HashCache.Hash | pkg/json/array_diff.go:269-284 | the cached hash of an element depends on its document only |
| ArrayDiffs.ArrayDiff | pkg/json/array_diff.go:17-107 | for any hash function: no change is reported exactly when each element would be taken from its own place, and only for equal arrays; otherwise each pick is the first old element that is stored like the new one, or the new one |
| ArrayDiffs.PicksDenote | pkg/json/array_diff.go:17-107 | every returned index denotes the element of the new array and is stored like it |
| Compilers.CompiledCallsDescend | pkg/vm/compiler.go:197-257 | a policy that compiles has no recursion: each function calls only smaller indexes, and the index finds every function under its own name |
| Compilers.CompilesIfCompilable | pkg/vm/compiler.go:238-254 | the functions compile exactly when each has a parameter and calls only builtins and functions declared before it |
| Compilers.ResolvesIfKnown | pkg/vm/compiler.go:293-507 | a statement compiles exactly when every function called in it, at any depth, is in the index |
| Compilers.ResolveNames | pkg/vm/compiler.go:293-507 | compilation changes nothing but the names of called functions, which can be read back |
| Compilers.CompileFuncs | pkg/vm/compiler.go:197-257 | the two passes that fill the function table and index while functions compile give the specified program, which is well founded |
| CodeWriters.CompileStmt | pkg/vm/compiler.go:296-506 | the bytes emitted for a statement are the encoding of its resolved form, or none if a name does not resolve |
| CodeWriters.CompileBlock | pkg/vm/compiler.go:293-507 | the same for a block, statement by statement until one fails |
| CodeWriters.CompileBlocks | pkg/vm/compiler.go:278-291 | the same for several blocks |
| CodeWriters.WriteBlocks | pkg/vm/executable.go:508-535 | the offset index filled in place holds where each block starts |
| CodeWriters.WriteStmt | pkg/vm/executable.go:1541-1599 | the type and length are put in front once the rest has been written |
| Bytecode.PackReadsBack | pkg/vm/executable.go:1785-1797 | packing a type with a length loses nothing exactly when the length fits 24 bits |
| Bytecode.OperandReadsBack | pkg/vm/executable.go:1854-1900 | every operand that fits its 24 bits reads back |
| Bytecode.Int64ReadsBack | pkg/vm/executable.go:1708-1716 | a 64-bit constant reads back from its two words |
| Bytecode.FlatReadsBack | pkg/vm/executable.go:596-1539 | the getters of every statement without nested blocks return what was written |
| Bytecode.DecodeCorrect | pkg/vm/executable.go:508-1645 | walking the encoding of any statement recovers it: type, operands, paths and all nested blocks |
| Bytecode.BlockDecodeCorrect | pkg/vm/executable.go:548-592 | the cursor that advances by the statements' sizes recovers exactly the statements of a block, in order |
| Bytecode.BlocksDecodeCorrect | pkg/vm/executable.go:508-546 | the offset index recovers exactly the blocks |
| Bytecode.BlocksParts | pkg/vm/executable.go:538-546 | each offset of the index points at the bytes of its block |
| Executables.TableReadsBack | pkg/vm/executable.go:1663-1678 | every item of a table stands where its offset says |
| Executables.FunctionReadsBack | pkg/vm/executable.go:285-395 | a function's getters find its index, parameters, return local and blocks |
| Executables.FuncsReadBack | pkg/vm/compiler.go:197-257 | the compiled function table finds every builtin and function |
| Policies.Compiled | pkg/vm/compiler.go:144-161 | whatever compiles can be evaluated without a budget: neither functions nor the plan call a function with an index that is not smaller |
| Policies.Run | pkg/vm/vm.go:235-383 | compiling and running any policy: it does not compile, or its bytes give the result of evaluation with remembered calls, or more than the limit has been counted; what is counted is the cost of the plan, so the budget does not run out if that is within the limit; the result is that of plain evaluation if the code is planned and does not pass both undefined and the empty string |
| Machines.EvalPlan | pkg/vm/vm.go:235-383 | for any code: the bytes of a plan give the result set or error of structural evaluation with remembered calls, unless more than the limit has been counted; all blocks and statements of the evaluation are counted, and no others, so the result comes if they are within the limit and an error if they are more than 32 beyond |
| Machines.State.Execute | pkg/vm/statements.go:335-342 | for any statement: executing its bytes moves the cursor by its size and gives the stop flag, break index, locals, remembered calls, results and count of the structural evaluation, or its error, or the counter is over the limit; the layers below are as before |
| Machines.State.ExecuteBlock | pkg/vm/statements.go:234-281 | the same for a block, which takes one level off a break |
| Machines.State.ExecuteCounted | pkg/vm/statements.go:234-266 | the counting loop of a block: a check every 32nd statement, the rest counted on leaving, never more than 32 statements behind for each open block |
| Machines.State.ExecuteScan | pkg/vm/statements.go:381-413 | the same for a scan, which takes one level more |
| Machines.State.ExecuteBlockStmt | pkg/vm/statements.go:415-429 | the same for a block statement, which takes none |
| Machines.State.ExecuteNot | pkg/vm/statements.go:435-462 | the same for `not` |
| Machines.State.ExecuteWith | pkg/vm/statements.go:962-999 | the same for `with`: a layer of remembered calls of its own, popped on every exit, and the local restored |
| Machines.State.ExecuteCall | pkg/vm/statements.go:596-638 | the same for a call, which stops when the function returns nothing |
| Machines.State.CallFunction | pkg/vm/statements.go:52-102 | a call is answered from the top layer, or run and remembered there, as evaluation with remembered calls says |
| Machines.State.ExecutePlan | pkg/vm/statements.go:26-37 | each block of a plan is counted before it runs; a stop does not keep the next block from running |
| Machines.Globals.MemoizeGet | pkg/vm/vm.go:694-726 | a call is looked up in the top layer under its key |
| Machines.Globals.MemoizeInsert | pkg/vm/vm.go:728-755 | a result goes into the top layer under the key of its call, and into no other |
| Machines.Globals.MemoizePush | pkg/vm/vm.go:669-671 | a new layer remembers nothing |
| Machines.Globals.MemoizePop | pkg/vm/vm.go:673-675 | popping restores the layers below |
| Machines.Globals.Instr | pkg/vm/vm.go:757-771 | the counter never passes the limit by more than 32, and an exhausted budget stops the run |
| Machines.Globals.Dispatch | pkg/vm/statements.go:245-254 | statements dispatched are never ahead of the counter by more than 32 for each open block |
| StatementLaws.EqualLaw | pkg/vm/statements.go:733-753 | equality goes on exactly when both operands are undefined or both are defined and equal, stops exactly when it does neither, and fails as the comparison does; no local changes |
| StatementLaws.NotEqualLaw | pkg/vm/statements.go:755-758 | the test for difference goes on exactly when equality stops |
| StatementLaws.TypeLaw | pkg/vm/statements.go:760-802 | a type test stops on an undefined operand, and otherwise goes on or stops as the value has the type or not |
| StatementLaws.DefinedLaws | pkg/vm/statements.go:804-810 | the two tests of a local are opposites |
| StatementLaws.AssignLaw | pkg/vm/statements.go:376-379 | an assignment changes its target only, which has the value of the operand, or none |
| StatementLaws.AssignOnceLaw | pkg/vm/statements.go:353-374 | only an undefined local is assigned; an assigned one must be equal, or it is a conflict |
| StatementLaws.MakeLaw | pkg/vm/statements.go:812-840 | the statements that make a value assign it to their target and change nothing else |
| StatementLaws.ResetLaw | pkg/vm/statements.go:941-944 | a reset local is undefined and no longer part of the data document |
| StatementLaws.ReturnLaw | pkg/vm/statements.go:464-467 | a local is returned only if it is defined |
| StatementLaws.DotLaw | pkg/vm/statements.go:689-731 | access assigns what it finds, in the data document also under a number as text, and marks it as data there; otherwise the target is undefined and the block stops |
| StatementLaws.ConstantDotLaw | pkg/vm/statements.go:689-697 | access to a constant stops |
| StatementLaws.SetAddLaw | pkg/vm/statements.go:862-871 | a set with one value more is assigned to its local |
| StatementLaws.ArrayAppendLaw | pkg/vm/statements.go:851-860 | an array is assigned only if appending returned one |
| StatementLaws.LenLaw | pkg/vm/statements.go:842-849 | the length is assigned, or the error returned |
| StatementLaws.InsertLaw | pkg/vm/statements.go:895-902 | an object is assigned only if insertion returned another one |
| StatementLaws.InsertOnceLaw | pkg/vm/statements.go:873-893 | a key that is there already must have an equal value, or it is a conflict |
| StatementLaws.MergeLaw | pkg/vm/statements.go:904-939 | an undefined side leaves the other, anything but two objects is a conflict, two objects are merged |
| StatementLaws.ResultLaw | pkg/vm/statements.go:946-960 | a defined local is added to the result set |
| StatementLaws.ScanElementLaw | pkg/vm/statements.go:381-402 | the block of a scan sees the key and then the value of each element in their locals |
| StatementLaws.UpsertLaw | pkg/vm/statements.go:1001-1084 | the value that replaces a document: with the empty path itself, otherwise put under the first key into a copy of the object there, as replaced within what stands under the key |
| StatementLaws.CallLaw | pkg/vm/statements.go:52-102 | calls with at most nine arguments, none of them a collection, are remembered under function and arguments, the documents excluded; all others run |
| StatementLaws.EnterLaw | pkg/vm/statements.go:52-102 | a call starts with its arguments in its parameters and the documents in the first two locals |
| StatementLaws.DispatchedLaw | pkg/vm/statements.go:234-266 | what a block counts: at least its first statement, at most all, and all if none stops or fails |
| StatementLaws.NullPlanLaw | pkg/vm/statements.go:26-37 | a plan that makes null and returns it has the result {null} and costs three |
| CodeBytes.TypesInBytes | pkg/vm/executable.go:16-49 | the number of each kind of statement |
| CodeBytes.PlanInBytes | pkg/vm/executable.go:16-49 | a plan of one block and two statements, byte by byte |
| Transparency.MemoizationIsTransparent | pkg/vm/statements.go:52-102 | memoization is transparent: planned code has the same result set or error with remembered calls as without, unless it passes both undefined and the empty string to functions whose calls can be remembered |
| Transparency.EvalAgrees | pkg/vm/statements.go:335-342 | each statement agrees: same stop flag, break index, locals and failure, the same values in the result set, and every remembered call is still what evaluating it for the documents in force gives |
| Transparency.FuncAgrees | pkg/vm/statements.go:52-102 | a call answered from memory is what evaluating this very call gives, and what it adds to the result set is there already |
| Transparency.WithAgrees | pkg/vm/statements.go:962-999 | calls inside `with` are remembered for the replaced document only |
| Collisions.BlankArgumentsCollide | pkg/vm/vm.go:677-682 | a planned policy that passes the empty string and then undefined to one function: its result with remembered calls is {null}, its result without is empty |
| Dataflow.CheckIsSound | pkg/vm/statements.go:596-638 | code that passes the check never passes the value checked for, undefined or the empty string, to a function whose calls can be remembered, whatever the data |
| Dataflow.CallFreeIsSafe | pkg/vm/statements.go:596-638 | code without calls is accepted by the check |
| Dataflow.MadeArgumentIsAccepted | pkg/vm/statements.go:596-638 | a call whose argument has just been made is accepted |
| Dataflow.CheckedIsTransparent | pkg/vm/statements.go:52-102 | planned code that passes the check for either value has the same result with remembered calls |
| Dataflow.EvalFlows | pkg/vm/statements.go:335-999 | behind each statement, with its blocks, breaks and calls, the locals that the check holds to be clean are clean |
| Memoization.KeysAgree | pkg/vm/vm.go:677-755 | two calls share a key exactly when they agree on the function and, up to undefined values and empty strings, on the arguments |
| Memoization.KeysOfTheirOwn | pkg/vm/vm.go:677-755 | if undefined is never passed, or the empty string is never passed, calls share a key only if they are the same |
| Memoization.EvalKeeps | pkg/vm/statements.go:335-999 | planned code leaves the input and data document of a call, and its return slot, as they were |
| Memoization.ReturnIsDefined | pkg/vm/statements.go:52-102 | a planned function that runs and returns, returns a defined value |
| Breaks.BreakEscapes | pkg/vm/statements.go:234-462 | through any nest of blocks, scans and `not` a break arrives with its index less one level for each block and one more for each scan |
| Breaks.LandsInBlock | pkg/vm/statements.go:271-281 | a break that runs out in a block skips the rest of the block and goes on with the block behind it |
| Breaks.LandsInNot | pkg/vm/statements.go:435-462 | a break that runs out in `not` lets it succeed, and execution goes on behind it |
| Breaks.LandsInScan | pkg/vm/statements.go:381-413 | a break that runs out in the block of a scan goes on with the next element; with one more level it ends the scan |
| Breaks.WithFlattens | pkg/vm/statements.go:984-998 | a break out of `with` arrives with index 0 however many levels were left, and the replaced local is as before |
| Registers.RegisterFile.SetValue | pkg/vm/vm.go:637-639 | storing changes one local of an unbounded file of locals and no other, with chunks added as needed |
| Registers.RegisterFile.SetLocal | pkg/vm/vm.go:622-626 | copying one local to another changes no third |
| Registers.RegisterFile.Local | pkg/vm/vm.go:591-593 | reading gives the local's value, undefined if it was never set, and changes none |
| Registers.RegisterFile.FindReg | pkg/vm/vm.go:789-800 | the walk ends at the local's chunk, and what it takes from the pool is undefined |
| Registers.RegisterFile.Find2Regs | pkg/vm/vm.go:802-829 | one walk finds the chunks of two locals |
| Registers.RegisterFile.Release | pkg/vm/vm.go:508-522 | all locals are undefined afterwards, and every chunk but the first is back in the pool |
| Registers.Pool.Get | pkg/vm/vm.go:197-203 | a chunk taken from the pool is all undefined and in nobody else's hands |
| JsonValues.EqualMeans | pkg/json/compare.go:17-127 | equality of values holds exactly when they mean the same scalar, array, map or set, whatever the representation of objects and the order of entries |
| JsonHashes.SameStream | pkg/json/hash.go:29-117 | values that mean the same are fed to the hash as the same bytes, with entry hashes summed modulo 2^64 |
| JsonHashes.EqualHash | pkg/json/hash.go:23-27 | equal values have equal hashes, for any hash function |
| JsonHashes.ScalarStreams | pkg/json/hash.go:29-117 | scalars feed the same bytes only if they are the same, or numbers that are hashed alike |
| JsonTables.Object2.constructor | pkg/json/object2.go:39-54 | a new table is empty, and its kind and capacity follow from the size asked for |
| JsonTables.CapacityLaw | pkg/json/object2.go:39-54 | compact tables hold 0, 2, 4, 8 or 16 entries, and the smallest that fits is taken |
| JsonTables.Object2.Get | pkg/json/object2.go:338-370 | a lookup finds a key exactly when the map has it, with its value, under any colliding hash |
| JsonTables.Object2.Insert | pkg/json/object2.go:272-320 | insertion is the update of the map, in place or in a larger table that takes over all entries; the full table is left as it was |
| JsonTables.Object2.Add | pkg/json/object2.go:322-336 | unchecked insertion of a key that is not there is the same |
| JsonTables.Object2.PutNew | pkg/json/object2.go:105-109 | the slot appended for a new key keeps each key of the map stored once, where its hash says |
| JsonTables.Object2.Grown | pkg/json/object2.go:298-320 | a full table moves into the next larger one without losing or repeating an entry |
| JsonTables.Object2.Diff | pkg/json/object2.go:423-438 | the entries whose keys the other map lacks |
| JsonTables.Object2.Equal | pkg/json/object2.go:404-421 | equal length and a lookup one way decide equality of the maps |
| JsonTables.Object2.Union | pkg/json/object2.go:463-478 | each key of both sides once, although entries of the difference are added unchecked; merged where both sides have the key |
| JsonTables.UnionModelMeans | pkg/json/object2.go:234-249 | the result has exactly the union of the keys and means the recursive right-biased merge |
| JsonUnions.UnionMeans | pkg/json/union.go:6-21 | on values: union has exactly the keys of both sides, takes the right value on conflict, and merges where both are objects, at every level |
| JsonSets.MemberSet.Add | pkg/json/set.go:216-243 | addition is addition to the set, in place or in a larger table |
| JsonSets.MemberSet.Get | pkg/json/set.go:256-272 | a lookup succeeds exactly for members |
| JsonSets.MemberSet.MergeTo | pkg/json/set.go:93-101 | merging gives the union; a set merged into itself keeps its members |
| JsonSets.MemberSet.Equal | pkg/json/set.go:304-320 | equal length and a lookup one way decide equality of the sets |
| JsonSets.MemberSet.Grown | pkg/json/set.go:221-243 | growing keeps the members |
| PreparedStatements.HoldersAreSafe | pkg/builtins/sqlsend.go:445-524 | in every run of any number of queries: the active count is the number of holders, a holder finds its handle there and never closed, a cached statement is not marked closed, and the cache keeps its capacity |
| PreparedStatements.NothingLeaks | pkg/builtins/sqlsend.go:445-524 | in every run, every statement is cached, held, awaiting its eviction callback, about to be closed by exactly one query, or closed exactly once |
| PreparedStatements.HoldersHaveTheirText | pkg/builtins/sqlsend.go:445-484 | in every run, a query that holds a statement holds one prepared for the text it has asked for last, and each cache entry is a statement of its text |
| PreparedStatements.CachedIsUsed | pkg/builtins/sqlsend.go:445-454 | a query whose text is cached gets the cached statement and prepares none |
| PreparedStatements.NewIsCached | pkg/builtins/sqlsend.go:456-483 | a query whose text is not cached caches the statement it prepares, and the oldest one makes room if the cache is full |
| PreparedStatements.StepKeeps | pkg/builtins/sqlsend.go:445-524 | each step of each query keeps the invariant that counts holders, waiters and closers of every statement |
| PreparedStatements.DatabaseStmt.Acquire | pkg/builtins/sqlsend.go:491-501 | acquisition counts a user unless the statement is marked closed |
| PreparedStatements.DatabaseStmt.Release | pkg/builtins/sqlsend.go:503-524 | the handle is taken for closing by the release that leaves a closed statement unused |
| ConnectionPools.OneConnectionPerKey | pkg/builtins/sqlsend.go:391-443 | in every run, two queries that get a connection for a key, at any two times, get the same one |
| ConnectionPools.ConnectionsHaveTheirKey | pkg/builtins/sqlsend.go:391-443 | in every run, a query that has got a connection has an open database for the key it has asked for last |
| ConnectionPools.PooledIsUsed | pkg/builtins/sqlsend.go:403-407 | a query whose key is pooled gets the pooled connection and opens none |
| ConnectionPools.OpenMeansPooled | pkg/builtins/sqlsend.go:391-443 | when no query is under way, a database is open exactly when it is pooled or has been abandoned: its statement cache could not be created, or closing it failed |
| ConnectionPools.AbandonedInitially | pkg/builtins/sqlsend.go:391-443 | a run of one query whose statement cache cannot be created, which ends with an open database that nobody has |
| ConnectionPools.StepKeeps | pkg/builtins/sqlsend.go:391-443 | no step takes a key out of the pool or changes its connection |
| Pointers.PointerRoundTrip | pkg/json/ptr.go:21-59 | parsing a printed pointer gives the segments back, for any strings in any number |
| Pointers.UnescapeEscape | pkg/json/ptr.go:62-71 | the two successive replacements one way undo the two the other way |
| Pointers.SplitPointer | pkg/json/ptr.go:21-34 | a printed pointer splits into its escaped segments behind an empty first one |
| Pointers.EscapeUnescape | pkg/json/ptr.go:62-71 | pointer text survives parsing and printing exactly when each tilde starts one of the two escape sequences |
| Pointers.NewPointer | pkg/json/ptr.go:21-34 | the loop over the segments prints that pointer |
| Pointers.PreparePointer | pkg/json/ptr.go:42-59 | the loop that overwrites the split segments computes the parse, and fails on exactly the texts that are neither empty nor start with a slash |

## Left out

- Positional accessors of patched objects (`ObjectNamesIndex(i)`, `objectValueOffset(i)`): they index the changed entries only, so they do not agree with the merged listing.
- `deltaPatch.apply`: it keys overrides by a value's own offset, which interned scalars share, so it is not the same as patching the document.
- JSON Patch, extraction by pointer from values that are not stored, resources and metadata of collections: thin layers over the store.
- DeltaLookups.ExtractAt: a pointer that goes on through binary data in an array leads nowhere here; the original calls `extractImpl` on the nil that `Value(i)` returns, which panics.
- Serialization of Go-native maps and structs: the writer is given a document whose object names are sorted.
- `MultiReader`: content is one sequence of bytes; where the readers start from is a parameter.
- Table kinds: the model has one class for the compact tables and the chained one, told apart by the kind of its slots; conversion to AST terms and iteration callbacks are left out.
- JsonUnions.UnionMeans: covers objects held in tables; with the older object type on one side the original swaps the arguments.
- JsonHashes.EqualHash: objects of the older type hold plain JSON, and comparison of two of them is equality of their sorted names and of their values.
- JsonSets.MemberSet.Add: a chained table keeps the newest of several equal representatives and a compact one the first; the model follows this but states only the members.
- Machines.EvalPlan: dynamic calls, calls to external namespaces, cancellation, collected builtin errors, recorded intermediate results and metrics are not modelled; their statements fail.
- Policies.Run: compiles one plan of a policy; string tables, names and paths of functions are parameters of the encoding, and the two kinds of specialized builtins are encoded like any other.
- Corrupt executables: the walker of the model refuses block offsets that lie before the end of the offset index, which no compiled code has.
- Dropped chunks: the pool of registers is a list here, where the original may drop chunks at any time; a dropped chunk only makes a fresh one necessary.
- Machines.State.Execute: keeps the locals of a call in one map; that the chunked register file is such a map is proved in Registers, on its own. The bit set that records which locals hold data is a set of locals, and the cache of strings of the machine is left out.
- Loop-invariant code motion and the other optimizations of the intermediate representation: the code records known wrong results for the first.
- Filter compilation to UCAST and SQL: comparison flipping negates the operators, and rendering is done elsewhere.
- The interleaved steps of queries act on the values of statements; the class DatabaseStmt is tied to them by the functions that both are stated with.
- Errors of preparing and closing statements are recorded only as far as they change who holds what.
- HTTP handlers, command line, storage plugins, bundles, telemetry and configuration: input and output, or thin wrappers.

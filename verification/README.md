# A verified model of the TDF bit format, its tools and their data structures

TDF is the program format of the TenDRA compilers: capsules of bits in which
numbers take as many octal digits or packets as they need, aligned and nested
bitstreams, and sorts whose constructs are told apart by a code.  This project
models, in Dafny, the parts of the repository that write that format, read it,
compile and interpret the descriptions of it, and keep the tables they need.
`dafny verify dfyconfig.toml` checks all of it.

- **Bits and codes** (`bits.dfy`, `views.dfy`, `codes.dfy`, `files.dfy`).  Shifts
  and masks as the C program uses them, on naturals; a file as a sequence of
  bytes which readers see followed by ones without end; the two codes of the
  TDF specification, "The TDF encoding" and "Extended encoding".
- **The writer** (`bitstream.dfy`, `session.dfy`).  The `libtdf` streams, as chunk
  objects on the heap: a `prev` chain in memory or one chunk flushed to a file,
  with the free list.  A stream's content is what is in its file and then the
  chunks from the oldest to the newest.  Every writer appends exactly its bits
  to the content.  `Session.Run` runs any commands over any number of streams
  against a map of plain bit strings.
- **The readers** (`decode.dfy`, `dispfile.dfy`, `dispbasic.dfy`, `calcread.dfy`).
  Three bit readers with different buffers, each proved against the same
  `NumAt`; `script.dfy` closes the circle from written files to values.
- **Decode strings** (`encodings.dfy`, `runs.dfy`, `alignment.dfy`,
  `decodestring.dfy`, `solve.dfy`, `unitbody.dfy`, `tokenargs.dfy`).  The language of
  these strings, the bits of a value, how they depend on where it starts, and
  `disp`'s interpreter.
- **Compiling to them** (`tdfoutput.dfy`, `compile.dfy`, `bracebalance.dfy`,
  `values.dfy`, `meaning.dfy`, `selfdelimiting.dfy`).  `make_tdf` compiles a sort to
  such a string.  `Meaning.CompileThenDecode` says that the string read where a
  value lies gives this value and ends where it ends.
- **From the writer to the interpreter** (`nesting.dfy`).  Values written with the
  streams of `libtdf`, nested bitstreams in streams of their own, come back from
  the file through the interpreter, and are stepped over by their lengths.
- **Graphs and types** (`closure.dfy`, `marking.dfy`, `typeshapes.dfy`,
  `typesizes.dfy`, `types.dfy`).  Marking of sorts and lists of derived types as
  reachability by paths that avoid a set, compound types made once each, and
  the stored sizes.
- **Tables** (`bindings.dfy`, `bitvec.dfy`).  Binding tables that are used again,
  and sets packed in bytes.
- **Templates** (`templates.dfy`, `templateoutput.dfy`, `templateaccounts.dfy`).
  Reading a template file and writing by it; what a run does, told by the places
  of the tree of commands.

Some facts about the code that the proofs bring out:

- `enc_bits` or-s digits of d above the n-th into the partial byte.
  `WrittenExactly` gives the exact condition for this to be harmless, and
  `enc_long_bits`, which does not mask, meets it.
- `read_error` in `disp` outlives `set_place`, and `skip_bits` and `tdf_int` do
  nothing once it is set.  Skipping more than 32 bits to a byte boundary behind
  the end of the file reads nothing, so the end goes unnoticed.
  `SkipIsDiscard` and `SetPlaceRecovers` say exactly when skipping leaves the
  reader as discarding does, and going back as a new reader; `SkipDiffers` and
  `PlaceDiffers` are inputs on which they do not.
- A list is preceded by a bit that must not be set (`check_list`), before the
  count of its elements.
- `de_bits` tests `sz` before anything is assigned to it
  (`libtdf/src/decode.c:99`); the model tests the number of bytes in the buffer,
  as `de_eof` does and as must be meant.
- The length a nested bitstream is given is an unsigned 32-bit count; the
  contracts say modulo 2^32 instead of asking for short streams.
- A bitstream is encoded from position 0 and read where it was put.  Its bits are
  right there if and only if it starts where a byte does or comes past no
  alignment (`EncExactly`).  `AlignedByChance` is a value that is read correctly
  although its bits are not right.
- `tdf_int_str` stores the terminator behind the digits without asking whether
  there is room: there is just when the number has fewer than 1000 digits.
- `mark_sort` stops at sorts that have the mark.  It finds all that is reachable
  when nothing leads out of the marked sorts before (`ClosedShut`); unmarking
  with `@use !` stops in the same way.

## Model

| member | source | states |
|---|---|---|
| Bitstreams.Bitstream.Dump | libtdf/src/encode.c:19-44 | the whole bytes of the chunk go to the end of the file and the partial byte to the front of the chunk: the content is the same |
| Bitstreams.Library.ExtendBitstream | libtdf/src/encode.c:46-68 | a full chunk is flushed to the file or gets a chunk linked in front of it; the bits up to the end of the full chunk are those up to the start of the new room |
| Bitstreams.Library.EncBits | libtdf/src/encode.c:70-138 | for n <= 16 and any d: the content becomes Written(content, odd bits, n, d), which for d < 2^n is the content and the n bits of d; across partial bytes, chunk ends and file flushes, the stream staying live |
| Bitstreams.WrittenExactly | libtdf/src/encode.c:87-128 | enc_bits appends exactly n bits if and only if every digit of d above the n-th that meets an odd bit meets one that is set already |
| Bitstreams.WrittenSmall | libtdf/src/encode.c:87-128 | no condition is needed when d < 2^n |
| Bitstreams.WrittenLow | libtdf/src/encode.c:145-155 | the condition holds for the second call of enc_long_bits, which passes d without masking it |
| Bitstreams.Library.EncLongBits | libtdf/src/encode.c:140-155 | exactly the n <= 32 bits of d < 2^n are appended |
| Bitstreams.Library.EncBytes | libtdf/src/encode.c:157-200 | exactly the bits of the bytes are appended, whether the stream is aligned or not |
| Bitstreams.Library.CopyBitstream | libtdf/src/encode.c:202-224 | the bits of one chunk are appended to another stream |
| Bitstreams.Library.JoinBitstreams | libtdf/src/encode.c:226-288 | the content of the result is the one content followed by the other, for null streams, through a file, by copying and by linking; the free list stays apart from the result and takes chunks only from itself and the second stream |
| Bitstreams.Library.JoinFile | libtdf/src/encode.c:248-273 | the file path: chunks go to the file oldest first, for any length of the chain |
| Bitstreams.Library.JoinLink | libtdf/src/encode.c:282-287 | the link path: the oldest chunk of the second stream is linked to the newest of the first |
| Bitstreams.Library.EncBoundary | libtdf/src/encode.c:290-309 | zero bits up to a multiple of eight of the whole content, including what is in the file |
| Bitstreams.Library.EncExtn | libtdf/src/encode.c:311-329 | the extended encoding of d in n-bit packets is appended |
| Bitstreams.Library.EncInt | libtdf/src/encode.c:350-367 | the marked octal digits of n are appended |
| Bitstreams.Library.EncIntAux | libtdf/src/encode.c:331-348 | the unmarked octal digits of n are appended |
| Bitstreams.Library.EncBitstream | libtdf/src/encode.c:369-383 | the length of the second stream, as a 32-bit count, and its content are appended |
| Bitstreams.LengthBitstream | libtdf/src/bitstream.c:79-94 | the number of bits held in the chunks of a stream, modulo 2^32, by walking the prev chain |
| Bitstreams.StreamLength | libtdf/src/bitstream.c:79-94 | for a stream in memory that number is the length of its content |
| Bitstreams.Library.StartBitstream | libtdf/src/bitstream.c:28-53 | the stream is empty and live: its chunk is the head of the free list or new, so never part of a live stream |
| Bitstreams.Library.EndBitstream | libtdf/src/bitstream.c:55-77 | the chunks go to the free list as they are linked; if asked to, the file gets the content padded to whole bytes first |
| Codes.IntInverts | disp/src/basic.c:44-64 | where the code of n lies, reading gives n and stops exactly behind it, whatever follows |
| Codes.ExtnInverts | disp/src/basic.c:29-41 | the same for the extended encoding, for k >= 1 and d >= 1 |
| Codes.IntEnds | libtdf/src/decode.c:28-36 | reading an integer ends on every file, from any position, with the first digit that starts behind the end of the file at the latest |
| Codes.ExtnEnds | disp/src/file.c:109-127 | the same for extended numbers and packets |
| Codes.IntPrefixFree | libtdf/src/encode.c:350-367 | no integer code is a prefix of another |
| Codes.ExtnPrefixFree | libtdf/src/encode.c:311-329 | no extended code is a prefix of another |
| Codes.IntMarked | libtdf/src/encode.c:331-367 | just the last digit of a code has its mark bit set |
| Codes.IntMinimal | libtdf/src/encode.c:331-367 | the number of octal digits is the least that holds n |
| Decode.FillBitstream | libtdf/src/decode.c:16-40 | refilling keeps the view of the file followed by ones without end |
| Decode.DeBits | libtdf/src/decode.c:76-128 | the big-endian value of the next n bits of that view, from any bit position, and the position n bits on |
| Decode.DeLongBits | libtdf/src/decode.c:130-149 | the same for n <= 32 |
| Decode.DeInt | libtdf/src/decode.c:151-174 | the marked octal number at the position; ends on every file, even a truncated one |
| Decode.DeBoundary | libtdf/src/decode.c:176-186 | the position moves to the next multiple of eight |
| DispFile.Input.NextByte | disp/src/file.c:100-135 | the byte at the position through the buffer, or 255 and the error flag beyond the end |
| DispFile.Input.Fetch | disp/src/file.c:138-168 | the same value as de_bits for the same bytes; the error flag is set exactly when the bits reach beyond the file |
| DispFile.Input.ByteAlign | disp/src/file.c:171-183 | the position moves to the next multiple of eight, with no error |
| DispFile.Input.SetPlace | disp/src/file.c:186-202 | position and error flag as after going to the byte and fetching the bits of the place |
| DispFile.Input.SkipBits | disp/src/file.c:205-225 | position and error flag for both branches and after an error |
| DispFile.SkipIsDiscard | disp/src/file.c:205-225 | skipping leaves position and error flag, and so all later reading, as fetching and discarding does if and only if, after an error, there is nothing to skip and, without one, not more than 32 bits are skipped to a byte boundary behind the end of the file |
| DispFile.SkipUnnoticed | disp/src/file.c:205-225 | where they differ without an error before, the position is the same and the end of the file goes unnoticed |
| DispBasic.SkipDiffers | disp/src/file.c:205-225 | an empty file and 40 bits: after skipping them a number is read, after discarding them none is |
| DispFile.SetPlaceRecovers | disp/src/file.c:186-202 | going to a place leaves the reader as a new one brought there, if and only if there was no reading error and the place is not inside a byte behind the end of the file |
| DispBasic.PlaceDiffers | disp/src/file.c:186-202 | a file of ones after an error: back at its start nothing is read, where a new reader moves on |
| DispBasic.FetchExtn | disp/src/basic.c:29-41 | the extended number at the position, on every file |
| DispBasic.TdfInt | disp/src/basic.c:44-64 | the marked octal number at the position, on every file, and the error flag behind it; after a reading error 0, with nothing read |
| DispBasic.TdfIntStr | disp/src/basic.c:81-108 | the buffer of 1000 characters holds the octal digits, the first thousand of them, as their characters; the position is behind all of them and the error flag says whether the file ended; there is room for the terminator if and only if there are fewer than 1000 digits, and then it is there |
| DispBasic.DigitsAreInt | disp/src/basic.c:81-108 | the digits denote the number tdf_int returns and end at the same position |
| CalcRead.Reader.ReadBits | calculus/src/read.c:54-94 | the same value as the other two readers; premature end if and only if the bits do not lie within the file |
| CalcRead.Reader.ReadInt | calculus/src/read.c:96-114 | the same number as the other two readers; premature end if and only if its code does not lie within the file |
| Script.ItemInverts | libtdf/src/encode.c:70-367 | reading any written item, at the position where it was written, gives it back and ends behind it |
| Script.WriteScript | libtdf/src/bitstream.c:55-77 | a file written by a script and ended holds the bits of the script padded to whole bytes |
| Script.RoundTrip | libtdf/src/decode.c:76-186 | for every script of fixed, long, integer, extended, byte and boundary writes: reading the file with the matching script of either reader gives all values back in order |
| Session.Run | libtdf/src/encode.c:19-383 | for every run of start, write, join, nest and end over any number of streams, in memory or with files: every closed file holds the bits that concatenating plain bit strings gives |
| Session.RunOn | libtdf/src/encode.c:19-383 | every run keeps Valid: each live stream holds the bits of the map and has objects of its own, so no chunk is in two live streams or in one and on the free list or in a closed file |
| Session.StepLive | libtdf/src/encode.c:19-383 | what start, write, join, nest and end do to streams that are live: plain concatenation |
| DecodeStrings.SkipSub | disp/src/tdf.c:2820-2842 | the rest of the string behind the bracket that matches, nested ones skipped |
| DecodeStrings.Balanced | disp/src/tdf.c:2820-2842 | scanning a decode string leaves the bracket depth as it was |
| DecodeStrings.Decode | disp/src/tdf.c:2845-3005 | at the encoding of a value of the string whose bitstreams with an alignment inside start on byte boundaries, followed by anything: that value is read, and the position is exactly at its end |
| DecodeStrings.DecodeGroup | disp/src/tdf.c:2892-2937 | the groups: repeated, repeated once more, optional, and bitstreams, whose length check succeeds at any depth |
| DecodeStrings.ReadHead | disp/src/tdf.c:2892-2911 | on any file, also after an error: the value is reported as no list just if the next bit is set, and the count is the number behind that bit; nothing is read where the file has ended |
| DecodeStrings.GroupLies | disp/src/tdf.c:2892-2937 | where the bits of a group's value lie: a list is a bit that is not set, the number of elements or one less, and the elements; an option a bit that is set just if something is there; a bitstream its number of bits and the bits |
| DecodeStrings.LetterLies | disp/src/tdf.c:2845-2891 | the same for letters: a number, or a construct read as the sort's codes are, and its arguments |
| DecodeStrings.StringLies | disp/src/basic.c:165-185 | the size of the characters, their number, and their codes in fields of that size |
| Alignment.EncSame | disp/src/tdf.c:2927-2936 | a value has the same bits at positions that are equal modulo 8, and at any positions if it comes past no alignment, so a bitstream encoded by itself can be read in place |
| Alignment.EncExactly | disp/src/tdf.c:2938-2942 | and only then: for every value of every string, where an alignment counts unless it is inside a bitstream of the value |
| Alignment.AlignedByChance | disp/src/tdf.c:2927-2942 | reading may succeed where the bits are not those of the position: an integer, an alignment and an integer, half a byte off |
| TokenArgs.ReadArgs | disp/src/sort.c:155-212 | the arguments of a token behind their length: decoded, stepped over, or left alone, and where the reader is then; arguments missing and a wrong length are reported if and only if they are, the latter when they are decoded |
| Nesting.WriteFile | libtdf/src/encode.c:70-383 | any value of any decode string written by the stream writers, bitstreams nested to any depth each in a stream of its own that is then put behind its length: the file holds the value's encoding |
| Nesting.WriteThenDecode | disp/src/tdf.c:2927-2936 | write a value to a file and interpret the decode string on the file: the value comes back |
| Nesting.WriteThenStepOver | disp/src/sort.c:155-212 | write the arguments of a token and a value behind them, and read: the value comes back whether the arguments are decoded or stepped over by the length that was written |
| TdfOutput.Emitter.OutputSort | make_tdf/src/output.c:143-200 | what is written is the encoding string of the sort, and the code returned |
| TdfOutput.Emitter.OutputCons | make_tdf/src/output.c:93-141 | the strings of the parameters with alignments, braces, edge marks from the first intro parameter on, and the construct's own sort behind a bitstream |
| TdfOutput.ParamsSplit | make_tdf/src/output.c:93-141 | the text of a construct's parameters is that of those in front, of any one of them, with its alignment, brace and bitstream, and of those behind; edges are marked from the first intro parameter on |
| Compile.SortSpells | make_tdf/src/output.c:143-200 | the text written, as C reads the string literal, spells the operations of the sort |
| BraceBalance.SortBalanced | make_tdf/src/output.c:93-200 | in the string of a sort brackets and braces are balanced and properly nested in each other: scanning it never closes anything but the innermost open one and leaves open just what was |
| BraceBalance.ParamsOpen | make_tdf/src/output.c:93-141 | the parameters from the i-th on leave open one brace for each of their breaks, and nothing else |
| BraceBalance.TextBalanced | make_tdf/src/output.c:143-200 | the same of the text written, from nothing open to nothing open |
| Meaning.Compiles | make_tdf/src/output.c:143-200 | these operations read exactly the values of the sort: at any position they have the bits of the value's encoding, come past an alignment if it does, and are well placed if it is; for letters, lists, options, dummies and conditional constructs |
| Meaning.SortOpsOk | make_tdf/src/output.c:143-200 | the operations are well formed |
| Meaning.FlatDetermines | disp/src/tdf.c:2845-3005 | what is read determines the value |
| Meaning.CompileThenDecode | make_tdf/src/output.c:93-200 | compile a sort and interpret the string where a value lies whose bitstreams with an alignment inside start on byte boundaries: that value and no other is read, up to its end |
| SelfDelimiting.EncOnce | disp/src/tdf.c:2845-3005 | two values of a decode string whose encodings, at one position, begin the same bit string are the same value |
| SelfDelimiting.ValueOnce | make_tdf/src/output.c:143-200 | no encoding of a value of a sort is a prefix of another one's: the bits ahead start with at most one value |
| Solve.DeSolve | disp/src/sort.c:301-375 | on n, A1..An, B, perhaps m, C1..Cn with any decode strings: B, A1, C1, ..., An, Cn are output and the position is behind Cn; a second count that differs is reported, and ends the decoding unless errors are recovered from |
| Solve.LabelledTwice | disp/src/sort.c:313-350 | a construct whose number is given again is encoded as a list, a value and a list of decode strings are, and is well placed if they are |
| Solve.LabelledOnce | disp/src/sort.c:313-350 | for any second number, or none: the first two parts as of decode strings, the number as of a list, and the last parts |
| Solve.InterleaveAt | disp/src/sort.c:352-372 | the i-th pair of what is output |
| Solve.ReadPairs | disp/src/sort.c:350-372 | every Ai is read from its own recorded place and every Ci from the one after it |
| UnitBody.ReadBody | disp/src/capsule.c:217-237 | skipping the body by its length goes to the end that length says, decoding it to the end of the contents, the same place if the length is right, eight times it being the number of bits; when decoding, a wrong length is reported if and only if it is wrong, when skipping nothing is |
| UnitBody.BodyWhole | disp/src/capsule.c:217-237 | there is a right length: from a byte boundary the aligned contents are whole bytes |
| Closure.ClosedEnter | make_tdf/src/input.c:228-282 | visiting a node is adding it and visiting where it leads, avoiding it |
| Closure.ClosedThen | make_tdf/src/input.c:202-226 | visiting two lists of roots is visiting one and then the other: depth-first search computes white-path reachability |
| Closure.ClosedShut | make_tdf/src/input.c:228-282 | if nothing leads out of the marked set before, nothing does after, and it is what was there and all that is reachable by any path |
| Marking.Sorts.MarkSort | make_tdf/src/input.c:228-282 | the sorts marked m are those marked m before and those reached from s through sorts not marked m; whatever a newly marked sort is made of, its element or all parameters of all its constructs, is marked, and besides s nothing but such a part is newly marked; other marks are as before; ends on cyclic grammars |
| Marking.ClosedSpreads | make_tdf/src/input.c:228-282 | the white-path closure is closed under what sorts are made of, and made of nothing else |
| Marking.Sorts.MarkConstruct | make_tdf/src/input.c:202-226 | the same from the parameter sorts of a construct, which may be null |
| Marking.Sorts.MarkAllSorts | make_tdf/src/input.c:284-298 | every sort is marked |
| Marking.Sorts.FindSort | make_tdf/src/input.c:147-200 | the sort of the name, new if there was none and then put in its place: the list holds every sort once in the order of strcmp |
| Marking.StrcmpFirst | make_tdf/src/input.c:147-200 | the order of names: the first characters that differ decide, and a proper prefix comes first |
| Marking.Sorts.Use | make_tdf/src/output.c:939-961 | the mark after any number of exclamation marks; all sorts, the white-path closure of the sort named, or that of the construct of that name of the sort, if it has one |
| Marking.Sorts.FindConstruct | make_tdf/src/input.c:437-463 | the construct of a basic sort that has the name and has none in front that does; null just if there is none |
| Marking.TargetParity | make_tdf/src/output.c:944-947 | the mark of a use command is turned by an odd number of exclamation marks, and the name is what is behind them |
| TypeShapes.DerivedThen | calculus/src/common.c:280-382 | list building composes: new types in front, each once |
| TypeShapes.DerivedFromNothing | calculus/src/common.c:280-382 | from an empty list, the list holds just what is reachable by any path, each once |
| Types.Algebra.DerivedTypes | calculus/src/common.c:280-382 | the list p with the types reached from t by paths avoiding p put in front of it, each once; with a new type its definition, components, fields, each map's return and argument types or sub-type are listed, and besides t nothing else is new; ends on cyclic types |
| Types.Algebra.TypesToImport | calculus/src/common.c:476 | importing a type starts from all the types it is made of, each once |
| Types.Algebra.CompoundType | calculus/src/common.c:219-253 | one entry for each operation and sub-type, returned if it is there; without an error every compound made has its expansion on the list; there is no error if going from identities to definitions ends within the depth bound; the call ends even for X = PTR X |
| Types.Algebra.CompoundIdentity | calculus/src/common.c:182-217 | the type with the identity it is made from replaced by its definition, or null if it is made from none or the depth bound was met |
| TypeShapes.ShallowNext | calculus/src/common.c:182-217 | replacing the identity a type is made from is one step towards the end of the definitions |
| TypeShapes.SelfReference | calculus/src/common.c:182-217 | the type X = PTR X has no such end, which is what the depth bound is for |
| Types.Algebra.RegisterType | calculus/src/common.c:93-134 | a type used before is filled in, or a new one listed; an error if it was defined; names stay unique |
| Types.Algebra.FindType | calculus/src/common.c:136-163 | the type of the name, created undefined if there was none |
| Types.Algebra.SizeType | calculus/src/common.c:506-566 | with right sizes stored, the size by structure for nesting within the bound: 1, 2 or 3 for what is made of nothing and for compounds, that of the definition or only component, and the sum where the components of two structures are put together; without an error if all is defined; an error for a type that contains itself |
| Types.Algebra.CheckTypes | calculus/src/common.c:255-278 | stored sizes stay right in any order of the list and are set for every defined type nested within the bound, where they obey the same laws; no error means nothing listed is undefined or contains itself, and there is none if nothing is |
| TypeSizes.SizeBoth | calculus/src/common.c:537-548 | the components of two structures together make the sum of their sizes |
| TypeSizes.SizeSingle | calculus/src/common.c:537-548 | a structure of one component has its size |
| TypeSizes.SizeIdent | calculus/src/common.c:530-535 | an identity has the size of its definition |
| TypeSizes.SizeLeaf | calculus/src/common.c:550-564 | the sizes of the other types |
| TypeSizes.SizeDeeper | calculus/src/common.c:512-566 | the size by structure does not depend on the depth allowed |
| TypeSizes.CyclicBelow | calculus/src/common.c:512-566 | what contains itself is an identity or a structure with a part that does |
| Bindings.Disp.NewBindingTable | disp/src/binding.c:67-93 | a new table or the spare one again, with every size zero |
| Bindings.Disp.SetBindingSize | disp/src/binding.c:109-135 | the row has the size and all its entries are cleared, those of an earlier use too |
| Bindings.Disp.SetBinding | disp/src/binding.c:138-169 | the entry is set; an error if and only if it is out of range or was bound |
| Bindings.Disp.CompleteBinding | disp/src/binding.c:172-192 | blank entries get objects numbered on from the count |
| Bindings.LinksStep | disp/src/capsule.c:185-211 | one more link is right if the ones before are, both numbers are in range and the variable has no object yet |
| Bindings.Disp.LookUp | disp/src/sort.c:61-68 | the object bound, or a new one that is bound; an error if and only if the number is out of range |
| Bindings.Disp.BindUnit | disp/src/capsule.c:151-215 | an error unless there are as many counts and links as kinds of variables, every link is between declared variables, and no variable is linked again after it was linked to an object; without one every row is, after linking and completing, the row of a fresh table, whichever table was used |
| Bindings.UnitRowBound | disp/src/capsule.c:185-215 | in such a row every index is bound, linked ones to the very object outside, others to objects of their own with numbers never used |
| Bindings.Disp.DeEquation | disp/src/capsule.c:141-256 | the body starts with such rows, and the table outside is restored with its contents |
| Bindings.Disp.DeUnits | disp/src/capsule.c:141-256 | through any number of units on the same two tables: each starts like the first, and what a unit makes for itself occurs in no unit before it |
| BitVectors.BitVectors.SetSize | libexds/src/bitvec.c:38-56 | the number of bytes, and a mask of just the bits in use of the last byte |
| BitVectors.BitVectors.SetBit | libexds/src/bitvec.c:119-124 | the set with one more member; padding stays zero |
| BitVectors.BitVectors.IsSet | libexds/src/bitvec.c:126-132 | membership |
| BitVectors.BitVectors.Empty | libexds/src/bitvec.c:77-81 | the empty set |
| BitVectors.BitVectors.Replace | libexds/src/bitvec.c:71-75 | the same bytes, also onto itself |
| BitVectors.BitVectors.Copy | libexds/src/bitvec.c:64-69 | a new vector with the same bytes |
| BitVectors.BitVectors.Union | libexds/src/bitvec.c:134-144 | union; padding stays zero |
| BitVectors.BitVectors.Intersect | libexds/src/bitvec.c:146-156 | intersection; padding stays zero |
| BitVectors.BitVectors.Complement | libexds/src/bitvec.c:158-169 | complement below the size, with zero padding afterwards |
| BitVectors.BitVectors.Equal | libexds/src/bitvec.c:171-185 | equality of the sets |
| BitVectors.BitVectors.IsEmpty | libexds/src/bitvec.c:83-96 | emptiness of the set |
| BitVectors.BitVectors.IsFull | libexds/src/bitvec.c:98-117 | whether every number below the size is a member |
| BitVectors.BitVectors.Intersects | libexds/src/bitvec.c:187-201 | whether the sets have a member in common |
| BitVectors.BitVectors.NumBits | libexds/src/bitvec.c:203-220 | the number of members |
| BitVectors.BitVectors.FirstBit | libexds/src/bitvec.c:222-234 | the least member, or the size |
| BitVectors.BitVectors.NextBit | libexds/src/bitvec.c:236-249 | the least member above, if there is one |
| BitVectors.BitVectors.Enumerate | libexds/src/bitvec.c:222-249 | first and next visit the members once each, ascending |
| Templates.Reader.ReadTemplate | make_tdf/src/lex.c:242-389 | without an error the lines read are, comments apart, the commands as they are written; commands as they are written are read back without an error |
| Templates.Reader.ReadFile | make_tdf/src/lex.c:242-389 | the same for a whole file |
| Templates.WrittenForms | make_tdf/src/lex.c:242-389 | how loops and conditions with and without an else are written, one command behind the other |
| TemplateOutput.Writer.OutputTemplate | make_tdf/src/output.c:803-989 | for any format strings, tests and use commands: the state becomes what Meaning says, and every global variable of the scope is afterwards as before |
| TemplateAccounts.MeaningAccount | make_tdf/src/output.c:803-989 | a run has an account, and leads to the state it replays: events in the order of the tree, and exactly what happens at its places; a place is a command and a turn of its loop at every level, where a condition is entered by its first branch just if it held and by the other one if not, and a loop binds a sort that was shown, a construct of the sort, or a parameter below the bound |
| TemplateAccounts.AccountOnce | make_tdf/src/output.c:803-989 | a run has no other account, so the account determines what is written, marked and reported |
| TemplateAccounts.TestsDecide | make_tdf/src/output.c:836-937 | whatever follows a condition comes from its first commands if the test holds in that scope with the marks of that time and from the others if not; what follows a turn over the sorts comes from the body, and the sort was shown |

## Left out

- de_eof: it refills without resetting the byte index and does not keep the position, except at the end of the file.
- The `link` field of a bitstream, which the encoders of other tools use, and the memory of outer chunks that joining to a file drops without freeing; only disjointness and reuse matter here.
- Opening, closing and failing of files; a file is a sequence of bytes. Error messages, printing layout and the word tree of `disp`; what is read is returned as data, and the branches with an `input_error` set a flag or are excluded by the encoding being well formed.
- Numbers beyond the machine's width: readers and writers return and take unbounded naturals, except for the 32-bit length of a stream.
- DecodeStrings.Decode: gives the result at encodings of values whose bitstreams are well placed, which is enough for reading but not necessary (`AlignedByChance`); on other input it is the bit readers' contracts that hold. Token application inside a string, foreign sorts and the letters `T`, `F`, `~`, `%`, `#`, `=`, `j` are not interpreted, nor is a bare `@` outside conditional constructs.
- The sixty `de_*` functions of `disp/src/tdf.c` are one grammar: for each letter the number of bits, whether it extends, and a decode string for each construct.
- Meaning.Compiles: takes sorts as finite trees, so dummy sorts that contain themselves, on which the compiler does not end, are not there.
- The code letters given to sorts in the order of their definition, `define_sort` for sorts defined twice, and `basic_sort` and `compound_sort`, which build the descriptions the model starts from.
- Script.RoundTrip: through `libtdf` for scripts without extended numbers, for which `libtdf` has no reader.
- Bitstreams.Library.EncBytes: the bytes are a value, not a buffer the caller may share with a chunk.
- DispBasic.TdfIntStr: where there is no room for the terminator, the store is left out and reported instead.
- TokenArgs.ReadArgs: what a token is declared as is an argument; reading and naming the token, and the words put around its arguments, are left out.
- Nesting.WriteThenStepOver: says nothing for arguments given to a token declared to have none; the reader stays in front of them.
- Solve.DeSolve: for decode strings of the grammar above, with bitstreams well placed; places are restored exactly because no reading error occurs while the whole construct lies in the file.
- Types.Algebra.RegisterType: takes the shape to be stored; the cell the C program allocated for it before is not kept when the type is known already. Names of files and lines in errors, the lists of primitives and structures of an algebra, and importing are left out.
- Types.Algebra.CheckTypes: says nothing about sizes and errors of types nested deeper than the bound that do not contain themselves; there the order of the list decides.
- Bindings.Disp.DeEquation: takes the numbers as arguments instead of reading them; the body is any run of uses of variables. With too few kinds of variables, which is reported, the rows not mentioned keep old entries behind the range check.
- Bindings.Disp.NewBindingTable: a table is an array of rows; the C rows point to arrays that are reallocated, here each row holds a sequence.
- Marking.Sorts.MarkSort: sorts are named by their place in a store, with marks in a sequence, instead of by pointers to cells. The same goes for the types of an algebra.
- Templates.Reader.ReadTemplate: a line comes with its first words told apart; splitting it, and the complaints about missing and surplus words, are left out, and so are line numbers.
- TemplateOutput.Writer.OutputTemplate: format strings, conditions and use commands are parameters of the specification.
- DecodeStrings.StringLies: the characters of a string are data of any size; `disp` shows strings whose characters are not of 8 bits, or of 1000 or more, as unprintable and steps over them.
- The SID and lexi generated parsers, the calculus output, JavaScript, exceptions and streams of libexds, `write_bitvec_indices`.

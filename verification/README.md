# Verification of isojson's core

A Dafny model of the algorithms inside isojson, a JSON serializer and deserializer for CPython,
with proofs of what they promise. `dafny verify dfyconfig.toml` checks the whole project.

The model has five parts that share definitions of bytes, UTF-8 and JSON values:

1. **Text and the output buffer.** `Utf8` (section 3 of RFC 3629), `Swar` (the word-at-a-time scan),
   `Out` (the growing buffer, whose bytes object may fail to grow at any time and which then spills
   to a vector), and `Strings` (the two string writers: the UTF-8 one with 16-, 8- and 1-byte steps
   and the code-unit one). Both writers work on the buffer's block directly, past its length, after a
   worst-case reservation that is renewed at each escape.
2. **The serializer.** `Objects` holds a finite, possibly cyclic object graph and the JSON value each
   object stands for; `JsonText` the text of a value; `Sorting` the key order; `Encode` the recursive
   encoder; `Rfc8259` and `RoundTrip` an independent reader of the JSON grammar and the proof that it
   reads what is written; `Layout` the lines and indents of a document, read off its bytes; `Reading`
   what a written value shows of the objects, dates and elements it came from; `Document` whole calls
   of `dumps`; `Faults` when a call fails and what its error says; `Rollback` declined arrays anywhere
   in a document.
3. **Reentrancy.** `Python` is the interpreter while `dumps` runs: a ledger of reference counts, and
   Python code that makes, drops and changes objects in any order. `Guard` is the walk again, this
   time with every object it reads, every reference it takes and every place where Python code runs,
   and with what it writes when the containers change under it.
4. **The deserializer.** `Tape` (a document, its pre-order tape and its value), `Ledger` (objects and
   reference counts), `KeyCache` (the interpreter's calls, each of which may fail, and the
   direct-mapped cache), `Stack`, `Frames` and `Build` (the explicit-stack builder), `PyStr` (making
   a `str` from UTF-8 in the narrowest kind), `Loads` (when an object in the ledger holds a JSON
   value), and `Whole`, which puts the two halves together: `loads(dumps(x))`.
5. **Dates, `datetime64` and arrays.** `Calendar`, `Datetime`, `UnitText`, `IsoText`, `Numpy` and
   `NumpyWalk`.

Methods model the code that works in place and are specified by functions; the lemmas say what those
functions mean. The relations of `Reading`, `Layout`, `Loads` and `Faults` are stated on what is read
back, on bytes and on memory, and name none of the functions that choose what is written or built. Nondeterministic choices stand for allocation failures, for the addresses a vector
gets, and for what Python code does.

## Findings

- `copy_plain` asks its callers for 16 bytes of slack that it never touches: all it stores lies
  within the bytes left of its input (`Strings.CopyPlain`).
- The comparator of sorted dicts, which mixes UTF-8 byte order and CPython's own comparison, is
  consistent only because the two orders agree (`Utf8.OrderPreserved`). The order of the output is
  fixed by the keys alone when they are distinct (`Sorting.OrderedPermutationUnique`); keys that are
  equal as text, possible only with subclasses of `str`, keep their order in the dict.
- Not every integer is written: one outside 64 bits with more digits than the interpreter allows,
  4300 unless it is changed, raises `ValueError` wherever it stands (`Document.LongIntegerRefused`).
  `Document.TreeRoundTrip` carries the exact condition.
- 128-bit overflow in `dt64_to_parts` never refuses a representable value
  (`Datetime.Dt64ToPartsExact`).
- The builder relies on nothing but reference counts to let go of what it made: new containers only
  refer to newer ones, so no cycle can keep itself alive (`Frames.Reached`).

## Model

| member | source | states |
|---|---|---|
| Utf8.BitForms | src/encode.rs:992-1045 | shifting and masking the machine word of a code point, as the code-unit writer does, gives exactly the bytes of its UTF-8 form, for every code point |
| Utf8.DecodeAtInvertsEncodeOne | src/encode.rs:992-1045 | reading at any place of any text where a non-surrogate character's bytes lie gives that character and its end |
| Utf8.DecodeIffEncode | src/decode.rs:142-180 | a byte string decodes to given code points exactly when they have no surrogate and it is their encoding |
| Utf8.OrderPreserved | src/encode.rs:829-848 | byte order of UTF-8 is code-point order, for all pairs of texts |
| Utf8.CompareIsLexicographic | src/encode.rs:844-848 | the comparison puts a proper prefix first and otherwise the text with the smaller number where two first differ |
| Swar.HasSpecialExact | src/swar.rs:7-23 | despite borrows between bytes the word test holds exactly when one of the eight bytes is below 0x20, a quote or a backslash |
| Swar.HighBitsExact | src/swar.rs:26-35 | the high-bit mask of a word is zero exactly when all its eight bytes are ASCII |
| Swar.IsAscii | src/swar.rs:26-35 | the word-wise loop with its byte-wise end says exactly whether every byte is ASCII |
| Out.OutputBuffer.Create | src/out.rs:43-57 | a new buffer is empty, with at least 64 bytes and the hinted capacity, or does not come about |
| Out.OutputBuffer.Grow | src/out.rs:86-114 | whichever allocation fails, growing keeps every written byte, makes the room asked for and at least doubles the capacity |
| Out.OutputBuffer.VecReserve | src/out.rs:107-112 | the vector moves only the bytes it was told about, which are all written ones |
| Out.OutputBuffer.Push | src/out.rs:117-123 | one byte is appended, and the text is moved to another block only if it no longer fits |
| Out.OutputBuffer.ExtendFromSlice | src/out.rs:126-132 | a slice is appended, and the text is moved to another block only if it no longer fits |
| Out.OutputBuffer.Finish | src/out.rs:136-146 | what is handed over is exactly the written text, without a copy when the block is full, and the next hint is its length |
| Out.AfterSnoc | src/out.rs:78-132 | a history one operation longer has the effect of that operation on the effect of the history |
| Out.Replay | src/out.rs:41-146 | over any history of appends, reservations and truncations and any failures, the bytes handed over are those of a plain byte sequence |
| Strings.EscapeCodeIsSpecial | src/encode.rs:869-945 | the escape table is non-zero for exactly the bytes the word scan finds: those below 0x20, the quote and the backslash |
| Strings.EscapeForms | src/encode.rs:45-70 | seven bytes have a two-byte escape, and the others `\u00` with two lower-case hexadecimal digits of their number |
| Strings.StoreBlock | src/encode.rs:869-905 | a 16-byte store writes 16 bytes and reports the first special one, or that there is none |
| Strings.CopyBlocks | src/encode.rs:869-905 | whole blocks are copied up to the first special byte, and no byte outside the remaining input's room is written |
| Strings.CopyPlain | src/encode.rs:869-945 | with its 16-, 8- and 1-byte steps it stops where a simple byte scan stops, has copied exactly that prefix, and stays within the room of the remaining input |
| Strings.PutEscape | src/encode.rs:950-967 | the escape of a byte, of two or six bytes, and its end |
| Strings.PutMultibyte | src/encode.rs:1022-1041 | a character of two to four bytes is stored by those shifts and masks, and nothing before it changes |
| Strings.EscapeThenCopy | src/encode.rs:1048-1074 | after each escape the written bytes are declared before the block may move, and the room left again covers the rest, the closing quote and the slack |
| Strings.WriteEscaped | src/encode.rs:1048-1074 | appends the quoted, escaped text of its bytes and nothing else |
| Strings.WriteUnit | src/encode.rs:1006-1040 | one code unit: its escape or its UTF-8 form, with enough room kept for all units still to come and the closing quote; refused exactly at a surrogate |
| Strings.WriteEscapedUcs | src/encode.rs:992-1045 | appends the quoted, escaped text of its code units; false exactly when one is a surrogate |
| Strings.EscapeBytesOfEncode | src/encode.rs:973-1074 | escaping the UTF-8 of a text byte by byte gives the same bytes as escaping its characters and encoding the rest: the two writers agree |
| Strings.HasSurrogateOfText | src/strfast.rs:52-62 | in any of the four forms, the test finds a surrogate exactly when the characters hold one |
| Strings.WriteStr | src/encode.rs:973-990 | whichever form CPython holds a text in, the same bytes are appended; it fails exactly when there is a surrogate |
| RoundTrip.StringReads | src/encode.rs:973-1074 | read by section 7 of RFC 8259, a written string gives back its characters, anywhere in a document |
| RoundTrip.ParsesInt | src/encode.rs:206-209 | read by section 6 of RFC 8259, written digits give back the integer |
| RoundTrip.ValueReads | src/encode.rs:653-810 | read by the grammar of RFC 8259, the text of any value, compact or indented, at any level, gives back the value and ends where it ends |
| Layout.ValueLaidOut | src/encode.rs:653-810 | in the text of any value, indented, each item, key and closing byte inside `n` containers stands behind one line feed and exactly `2n` spaces and each colon before one space; compact, there is no white space outside strings |
| Layout.DocumentLaidOut | src/encode.rs:236-247 | the same of a whole document, which starts at no level |
| RoundTrip.DocumentReads | src/encode.rs:1080-1182 | a whole document, with or without a final newline, is read back as its value |
| Sorting.KeyCompareIsCodePointOrder | src/encode.rs:844-848 | comparing bytes where both keys have UTF-8 and characters otherwise is code-point order in every case: negative exactly where the first key comes before the second, zero exactly for equal keys |
| Sorting.CompareTransitive | src/encode.rs:844-848 | the order is transitive, strictly where either step is strict |
| Sorting.SortIsOrderedPermutation | src/encode.rs:844-848 | sorting keeps every key with its value and puts the keys in order, a prefix before what extends it |
| Sorting.SortIsStable | src/encode.rs:844-848 | items whose keys are equal keep their order |
| Sorting.OrderedPermutationUnique | src/encode.rs:844-848 | two orderings of the same distinct keys are equal, so the output does not depend on the sorting algorithm |
| Sorting.SortBy | src/encode.rs:844-848 | sorting with the mixed comparator computes that ordering, stably |
| Objects.WrittenPairsPermute | src/encode.rs:812-858 | the written members are the dict's members, each once; unsorted, in the dict's order; sorted, every key is valid before the first write and each comes before the next in code-point order or equals it |
| Objects.AdmittedExactly | src/encode.rs:600-651 | with the 53-bit option an integer is written exactly when it is at most 2^53 - 1 in size; without it exactly when it fits 64 bits, or CPython has no limit on digits, or it is below that power of ten; otherwise the call raises the error for it |
| Objects.DigitLimitRefuses | src/encode.rs:627-651 | the power of ten with one digit more than the limit is refused, with either sign, and the largest integer below it is written |
| Encode.Encoder.Enter | src/encode.rs:249-256 | a container is opened unless 254 are open |
| Encode.Encoder.Serialize | src/encode.rs:258-294 | succeeds exactly when the object has a value, which an integer beyond the digit limit has not, and has then appended that value's text at the current level; a failure names the error the value has; `depth` is restored |
| Encode.Encoder.WriteInt | src/encode.rs:600-651 | an integer is written in full exactly when it is admitted: by the 53-bit option, or as one of at most 64 bits, or by the limit on digits |
| Encode.Encoder.SerializeOther | src/encode.rs:299-392 | datetimes, dates, times, subclasses, numpy arrays and numpy scalars that are written natively are written as their value, and everything else, declined arrays and scalars included, as what `default` gives |
| Encode.Encoder.CallDefault | src/encode.rs:410-448 | the result of `default` is written in the object's place, at most 255 calls deep |
| Encode.Encoder.List | src/encode.rs:653-688 | a list's brackets, commas and indentation are those of its value's text |
| Encode.Encoder.DictInOrder | src/encode.rs:780-810 | an unsorted dict is written in its own order, or fails at the first bad key or value |
| Encode.Encoder.DictSorted | src/encode.rs:812-858 | a sorted dict is written in key order; a bad key fails the call with the text as it was before the first key |
| Encode.Encoder.KeyedOf | src/encode.rs:829-843 | the pre-check accepts exactly the dicts whose keys can all be written |
| Encode.DatetimeIsString | src/encode.rs:132-150 | the datetime writer's bytes are a JSON string that needs no escapes |
| Encode.Encoder.WriteTime | src/encode.rs:569-594 | a `time` is written with its own offset, microseconds unless omitted, and no other option |
| Document.Dumps | src/encode.rs:1080-1182 | returned bytes are the text of the object's value, laid out as asked for, with one line feed more if asked for; they parse to the value, and it shows the object; an error is the value's error |
| Document.ValueReadable | src/encode.rs:258-368 | every value the encoder writes, however it came about, can be read back |
| Document.ArrayReads | src/numpy.rs:298-418 | the bytes of an array parse to nested lists of its shape whose leaves are, in row-major order, the elements at the offsets the walk visits |
| Document.TreeRoundTrip | src/encode.rs:653-858 | a tree of null, booleans, integers, finite floats, surrogate-free strings, lists, tuples and string-keyed dicts is written, compact or indented, sorted or not, as text that parses to it exactly when at most 254 containers are nested and its integers are admitted; otherwise the call raises |
| Document.LongIntegerRefused | src/encode.rs:627-651 | the round trip fails for a list with an integer of one digit more than the limit, and holds for the largest below it |
| Document.RecursionMeansNesting | src/encode.rs:249-256 | on any graph the recursion error comes only where 255 containers nest in one another, through results of `default` too |
| Document.NestingFails | src/encode.rs:249-256 | and where they do, the call always fails |
| Document.CycleFails | src/encode.rs:410-778 | a walk that enters a cycle, made of containers, of results of `default` or of both, ends with an error |
| Faults.ErrorMeans | src/encode.rs:249-475 | whatever error a call on any graph raises, the object or something in it, through lists, dicts and results of `default`, has the fault the error names |
| Faults.FaultFails | src/encode.rs:249-475 | and wherever there is such a fault the call fails |
| Reading.ValueShows | src/encode.rs:258-368 | whatever is written shows the object it was written for: leaves as themselves, lists and tuples item by item, dicts with their own keys and values in their order or in key order, dates by what reads back, arrays by the elements in memory, and everything else by what `default` made of it |
| Reading.HandedOnIsDefault | src/encode.rs:299-392 | which objects go to `default`: foreign types, subclasses and dates under their options, numpy objects that are off, not accepted or have an element that cannot be written |
| Reading.DatetimeReads | src/encode.rs:534-554 | a datetime reads back as its fields, microseconds unless omitted, and its own offset, or zero where it is naive and taken as UTC |
| Reading.DateReads | src/encode.rs:556-567 | a date reads back as itself, whatever the options |
| Reading.TimeReads | src/encode.rs:569-594 | a time reads back as itself with its own offset |
| Reading.TextShows | src/encode.rs:132-150 | the text of a datetime has a fraction exactly where there are microseconds to write, and a `Z` exactly for a zero offset under that option |
| Reading.TimeTextShows | src/encode.rs:569-594 | a time has a fraction likewise and never a `Z` |
| Document.FewerDefaults | src/encode.rs:410-435 | a value that can be written inside one more call of `default` is written the same without it |
| Document.DefaultTakesThePlace | src/encode.rs:455-473 | a list with a declined array as one of its items is written as the list with the result of `default` in its place |
| Rollback.WrittenPairsMoved | src/encode.rs:812-858 | replacing values of a dict does not change the order its members are written in |
| Rollback.SameValue | src/encode.rs:410-475 | at any depth, an object whose items and values are replaced by what `default` returned for them has the value it had |
| Rollback.DocumentUnchanged | src/numpy.rs:396-418 | in a whole document, any number of declined arrays and other objects handed to `default`, as items, as values of dicts, at any depth or at the top, replaced by the results of `default`, leave the same bytes |
| Calendar.YearOfEraBrackets | src/datetime.rs:102-114 | the year-of-era formula finds the one year that contains a given day of the 400-year era |
| Calendar.CivilFromDaysCounts | src/datetime.rs:102-114 | for every integer the formula gives a valid Gregorian date whose day number, the sum of year and month lengths since 1970, is that integer |
| Calendar.CivilFromDaysUnique | src/datetime.rs:102-114 | and every valid date is what the formula gives for its day number |
| Calendar.Epoch | src/datetime.rs:102-114 | day 0 is 1970-01-01 |
| Calendar.DayNumberInjective | src/datetime.rs:102-114 | two valid dates with the same day number are the same date |
| Calendar.CivilFromDaysSuccessor | src/datetime.rs:102-114 | the next day number gives the next date |
| Datetime.ProductFits | src/datetime.rs:222-262 | a product that leaves 128 bits is far outside the years 0 to 9999 |
| Datetime.PartsOfMicrosExact | src/datetime.rs:249-264 | the parts of a count of microseconds are valid, count back to it, and are refused exactly outside the years 0 to 9999 |
| Datetime.DateOnlyExact | src/datetime.rs:213-229 | years and months since 1970 give the first of that month, refused exactly outside those years |
| Datetime.Dt64ToPartsExact | src/datetime.rs:209-264 | for every value, unit and multiplier the checked 128-bit arithmetic gives the floor-to-microsecond parts of the exact instant, and `Unrepresentable` exactly when that instant is outside the years 0 to 9999; the least 64-bit value is NaT, and there is no other |
| Datetime.ScaledInstant | src/datetime.rs:228-247 | the length of each unit, and years and months counted from 1970 |
| Datetime.PartsUnique | src/datetime.rs:209-264 | valid parts that count the same microseconds are the same parts |
| UnitText.Multiplier | src/datetime.rs:176-187 | the checked accumulation fails exactly when the number is zero or does not fit an i64 |
| UnitText.DecimalReads | src/datetime.rs:176-187 | the digits of a number are read as that number |
| UnitText.CodesAre | src/datetime.rs:162-205 | the byte orders, the `M8` and the codes of the units, letter by letter |
| UnitText.SplitIsUnique | src/datetime.rs:173-175 | the longest run of digits is the only way to split number and unit |
| UnitText.ParseDt64 | src/datetime.rs:162-205 | a dtype string gives a unit exactly when it spells that unit, for every string and unit |
| IsoText.Six | src/datetime.rs:29-36 | six digits, zero-padded, and no byte before or after them changes |
| IsoText.FmtYmd | src/datetime.rs:38-49 | the ten bytes of a date |
| IsoText.FmtHms | src/datetime.rs:51-66 | the bytes of a time, with microseconds only where they are not zero or omitted |
| IsoText.FmtOffset | src/datetime.rs:68-97 | the bytes of an offset, with seconds and microseconds only where there are any, `Z` for zero where asked |
| IsoText.OffsetForm | src/datetime.rs:68-97 | a zero offset is `Z` or `+00:00`; any other has six bytes, nine if it has seconds, sixteen if it has microseconds |
| IsoText.ReadOffsetInverts | src/datetime.rs:68-97 | every offset of less than a day can be read back exactly |
| IsoText.ReadDatetimeInverts | src/encode.rs:132-150 | every written datetime can be read back: all fields, microseconds unless omitted, and the offset |
| IsoText.WriteDatetime | src/encode.rs:118-150 | appends exactly that text |
| Numpy.Dt64TextIsString | src/numpy.rs:114-131 | a written datetime64 is a JSON string that needs no escapes |
| Numpy.WriteElem | src/numpy.rs:114-201 | an element appends its value's text, or is declined and appends nothing |
| Reading.ElementRead | src/numpy.rs:114-201 | a boolean, integer or finite float is written as itself, any other float and NaT as null, and a datetime64 as text that reads back as the valid parts of its exact instant; it is declined exactly when that instant cannot be written |
| Numpy.IntTextLength | src/numpy.rs:275-288 | the digits of an integer element never exceed its type's bound |
| Numpy.MaxTextBounds | src/numpy.rs:275-288 | nor does the text of any element, so what is reserved for a chunk covers its elements and their commas |
| NumpyWalk.CopyDigits | src/numpy.rs:241-258 | overlapping block copies write exactly the digits |
| NumpyWalk.WriteIntRow | src/numpy.rs:211-236 | the fast row stays within its reservation of 21 bytes an element and two, and appends the compact array of its integers, each read once in order |
| NumpyWalk.FastRow | src/numpy.rs:318-326 | the fast row appends the same bytes as the element-by-element path |
| NumpyWalk.Walk | src/numpy.rs:298-352 | appends the text of the nested list of the array's elements, reading each element once in order, or stops at the first declined one |
| NumpyWalk.WalkItem | src/numpy.rs:325-346 | in a compact row only an element at the start of a chunk can move the text to another block, and room is left for the rest of its chunk |
| NumpyWalk.WalkRow | src/numpy.rs:324-352 | a compact row is written with at most one move for each chunk of up to 1024 elements and one for its opening bracket |
| Reading.TreeShown | src/numpy.rs:298-352 | an array is written as nested lists in which the element at indices `i, j, ...` is the one `i * strides[0] + j * strides[1] + ...` past the base |
| Reading.LeavesInOrder | src/numpy.rs:298-352 | in row-major order the leaves are the elements at the visited offsets, one by one; the array is declined exactly when one of them cannot be written |
| NumpyWalk.ContiguousOffsets | src/numpy.rs:298-352 | in a C-contiguous array of any shape the elements are read at offsets 0, itemsize, 2 itemsize and so on, and none if a dimension is 0 |
| NumpyWalk.SerializeArray | src/numpy.rs:362-418 | a declined array leaves the output as it was before the array |
| Ledger.DropBalanced | src/decode.rs:197-208 | giving one reference back keeps all counts exact: an object is freed exactly when nothing holds it, and what it held is then owed |
| Ledger.ReleaseBalanced | src/decode.rs:197-208 | giving references back, and what that frees in turn, keeps all counts exact |
| Ledger.AppendPairBalanced | src/decode.rs:285-294 | a dict that takes a new pair takes its own references |
| Ledger.ReplaceValueBalanced | src/decode.rs:285-294 | a dict that replaces a value owes the old one's reference |
| Ledger.SetItemBalanced | src/decode.rs:283-284 | a list slot takes over the caller's reference |
| Tape.LastValueWins | src/decode.rs:285-294 | after all members are put in, a key has the last value given for it |
| Tape.PutAllDistinct | src/decode.rs:285-294 | a built dict has no key twice |
| Tape.StartMember | src/decode.rs:215-230 | reading a key and starting its value changes neither the tape still to read nor the document's value |
| Tape.OpenContainer | src/decode.rs:247-274 | opening a container splits its tape and its value into what is still to be read |
| KeyCache.HashOf | src/decode.rs:63-72 | the loop hashes eight bytes at a time and then the padded rest |
| KeyCache.Cache.Get | src/decode.rs:80-101 | after any history, hit, collision or eviction, the result is a new reference to a string equal to the bytes, and every occupied slot owns exactly one reference |
| KeyCache.Cache.Clear | src/decode.rs:52-60 | every slot's reference is given back once |
| KeyCache.Interpreter.DictSetItem | src/decode.rs:285-294 | an equal key keeps its place and gets the value; a failed call changes nothing |
| Stack.ReprEvolves | src/decode.rs:182-208 | a built value survives whatever happens to other objects as long as something holds it |
| Frames.KeyPlace | src/decode.rs:285-294 | the dict finds an equal key exactly where the document's value has it |
| Frames.MemberPut | src/decode.rs:285-294 | after a dict insert the frame's container is what its plan says, with the key's reference gone |
| Frames.FinishedValue | src/decode.rs:295-301 | a completed container represents its part of the document |
| Frames.Reached | src/decode.rs:195-208 | a new object is alive only because a chain of references from something held leads to it |
| Build.MakeKey | src/decode.rs:215-230 | with the cache or without it, for short ASCII keys and all others, a key is a string equal to the text |
| Build.MakeStr | src/decode.rs:125-180 | a string has the text of its bytes, whether it is ASCII or put character by character in a string of the narrowest kind |
| Build.PutMember | src/decode.rs:285-294 | value and key are given back once, whether or not the dict took them |
| Build.Settle | src/decode.rs:277-301 | a finished value goes into its parent and closes every container this completes; with no parent it is the document's value |
| Build.DropFrames | src/decode.rs:197-208 | every partial container and waiting key is given back exactly once, outermost container first and of each the key first |
| Build.Build | src/decode.rs:210-304 | from the tape of any document the loop ends, reads each node once and in range, and returns an object that holds the JSON value whose tape it is, with or without a cache; wherever a call fails, every reference taken has been given back; either way nothing new is alive that the result or the cache does not lead to |
| Loads.TapeMeans | src/decode.rs:236-296 | the tape of a JSON value, each kind of leaf fixed by the value it comes from, means that value: lists item by item, and dicts with each name once, where it first came, with the value it was given last |
| Loads.LoadedHolds | src/decode.rs:236-296 | an object that represents a document's meaning holds the JSON value, leaf by leaf |
| Loads.TreeForShows | src/decode.rs:236-296 | every JSON value without surrogates has such a tape |
| Whole.DumpsThenLoads | src/decode.rs:210-304 | what is loaded from the bytes of any object holds a value that shows that object, and the very tree where the object is a tree |
| PyStr.MaskForm | src/decode.rs:142-161 | the mask test of the source finds exactly the continuation bytes |
| PyStr.StartsCountCharacters | src/decode.rs:142-161 | the bytes that are not continuation bytes count the characters, and the highest byte tells the width of the widest |
| PyStr.NewOfKind | src/decode.rs:163-180 | every place of the new string is filled with exactly its character, none changed by the cast |
| PyStr.NewNonAscii | src/decode.rs:142-161 | the kind is the narrowest that holds every character |
| PyStr.CharPosIsIndex | src/decode.rs:346-356 | the character offset of the first byte of a character is its index, and of any later byte of it the next |
| PyStr.CharPos | src/decode.rs:346-356 | the offset counts the characters that start before the byte offset, also beyond the end |
| Python.Runtime.RunPython | src/encode.rs:410-426 | whatever Python code does, references held by others keep their objects, tuples and leaves keep their contents and every object its kind; it can run only under the guard |
| Python.Runtime.GiveBack | src/encode.rs:395-408 | a reference is given back once; without a guard it is never the last, so nothing is freed |
| Guard.ProtectedStays | src/encode.rs:690-719 | an object that the encoder or the caller holds, or that tuples lead to from one held, stays alive and protected whatever Python code does |
| Guard.SafeStays | src/encode.rs:395-408 | a container being walked stays safe to read, and of its kind |
| Guard.Walker.constructor | src/encode.rs:1152-1177 | `guard` is set exactly when `default`, numpy or the datetime types are there |
| Guard.Walker.Serialize | src/encode.rs:258-294 | whatever Python code does, an object that was safe is read only while alive, and a successful call has appended the text of one value that can be read back |
| Guard.Walker.Guarded | src/encode.rs:400-408 | an item is held for as long as Python code may run, and given back |
| Guard.Walker.Items | src/encode.rs:653-688 | the list is alive whenever it is read anew, and however Python code changes it the items written are one array body with commas between them |
| Guard.Walker.Tuple | src/encode.rs:690-719 | a tuple's items need no reference of their own |
| Guard.Walker.DictInOrder | src/encode.rs:780-810 | key and value are alive whenever they are read, and the dict at every step; however it changes, the members written are one object body |
| Guard.Walker.DictSorted | src/encode.rs:812-858 | all pairs are held from before the first write, and given back on every way out |
| Guard.Walker.CallDefault | src/encode.rs:410-475 | the object is still alive for the error message after `default` raised, and the result is held while it is written |
| Guard.Walker.DatetimeLike | src/encode.rs:483-592 | object, tzinfo and offset are alive at each read, and every result is given back |
| Guard.Walker.SerializeArray | src/numpy.rs:58-108 | the array's memory is read only while its capsule is held, and everything taken is given back on every way out |
| Guard.Dumps | src/encode.rs:1146-1182 | every object is alive when it is read, all references taken are given back on every way out, without a guard no Python code runs and no object changes, and bytes that are returned are one document of RFC 8259, laid out as asked for, whatever Python code did to the containers |

## Left out

- CPython itself: type objects, exceptions and their notes, module state, sub-interpreters; its calls are ledger operations that may fail.
- simd-json: the tape of a document is the input of `Build.Build`; strings on it are UTF-8, as that parser ensures. `Whole.SimdJson` stands for it: it may refuse any text, and otherwise reads it by the grammar of RFC 8259.
- zmij and itoa: a finite float is a given number token of section 6 of RFC 8259, an integer its decimal digits; a non-finite float is `null` and left out of the round trip. `small_copy` is an append, and the in-place `write_finite` of src/float.rs is not part of this model.
- NumpyWalk.WalkRow: the number of moves is not stated for rows of floats, as `write_finite` asks for the whole of a formatter's buffer, whose size zmij fixes.
- `f16_to_f32`: a table of 65,536 inputs.
- src/decline.rs, `classify` and the wording of errors: an array comes with whether it is accepted, an element with whether it is declined.
- src/types.rs, src/lib.rs, argument parsing in `dumps`, and `loads` around `build`: plumbing.
- src/strfast.rs: the memory layout of `str`; a string is given in one of its four forms.
- The capacity of a `usize`: lengths and capacities are unbounded integers, as no buffer near that size can exist.
- The thread-local size hint: a parameter of `Out.OutputBuffer.Create` and a result of `Out.OutputBuffer.Finish`. Who owns the bytes object inside the buffer is not counted.
- `sort_by`: the standard library's stable sort is stood in for by a stable insertion sort; `Sorting.OrderedPermutationUnique` says why that does not matter for distinct keys.
- Encode.Encoder.Serialize: Python code does not change the graph here, and `default` gives the same result each time for an object. `Guard` lets it change everything, and then says that what is written is some document, not which one. The limit on digits does not change during a call.
- Python.Runtime.RunPython: a run of `dumps` has some number of times that Python code changes anything, any number, fixed beforehand; a list that `default` makes longer for ever is covered for every such number, as every read is checked when it happens.
- Guard.Walker.Serialize: a result of `default`, of an attribute or of `utcoffset()` is any object alive; calls that fail for other reasons are free choices, and so is the text of a date and the value of an array, which `IsoText` and `NumpyWalk` determine. Its output is a byte sequence, which `Out.Replay` shows the buffer to be.
- The interpreter's cyclic garbage collector: what it does to unreachable objects is among the things `Python.Runtime.Move` can do.
- KeyCache.Cache.Get: that `PyObject_Hash` is called ahead, and how often the cache hits, are not stated.

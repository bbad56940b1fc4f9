# Readers, values and the message queue of React Native for Windows

A Dafny model of three parts of the repository, with proofs about every input, every sequence of calls and every
interleaving.

1. **JSON text to value.** `JsonReader` is a pushdown automaton over characters (`JsonTokens`, and as the class
   `JsonReaders.JsonReader`). `JsonJSValueReader` turns its tokens into a cursor, `JSValueTreeReader` is the same cursor
   over a tree (`Cursors`, and as classes in `Readers`). `JSValue::ReadFrom` and the typed reads of `JSValueReader.h`
   drive either of them (`ReadFroms`, `ArgReaders`, `ScalarReads`, and as loops in `Readers` and `ArgLoops`).
2. **The value tree.** Equality, loose equality and its conversions, copying (`Equality`, `LooseEquality`), the event
   stream and the tree writer (`Writers`), the log printer (`LogWriters`).
3. **The message-queue thread.** `ControllableMessageQueueThread` as a state machine over its waits, lock sections,
   events and functor runs (`MessageQueues`, `MessageQueueRuns`).

Main results:

- The tokenizer accepts exactly the texts that are blanks, a legal array or object, and anything behind it
  (`JsonLanguage.AcceptedLanguage`), and every legal text for a tree, with any blanks, escapes and member order, reads back
  as exactly that tree (`Spelling.ReadSpelled`). On any text at all, reading ends and the tokens before the first error
  begin one well-nested document (`JsonNesting.TokensNest`).
- The two readers cannot be told apart by any sequence of calls, right or wrong, exactly as long as no call enters the
  root again after it was read to the end (`Bisimulation.ReadersAgree`).
- `ReadFrom` of a child returns that child and leaves the stack alone (`ReadFroms.FrameRule`); `ReadArgs` ends where a
  full read would if and only if each item is consumed by its type (`ArgReaders.ReadArgsExactly`).
- The log text of a plain tree reads back as the tree if and only if every integer behind a hex escape is a single
  decimal digit (`LogWriters.LogRoundTrip`).
- `JSEquals` is transitive on values of three given types if and only if the types are safe; every other combination of
  types has a counterexample (`LooseEquality.LooseIsTransitiveExactly`).
- The queue never loses a wake-up and never pops an empty queue, and functors run once each and in order. In automatic mode
  quitting runs exactly the functors whose calls had signalled when the worker took the quit request
  (`MessageQueueRuns.RunIffSignalledInTime`).
- The calls already begun take a bounded number of steps, and when no thread can move every `runOnQueue` and
  `quitSynchronous` has returned (`MessageQueueRuns.BoundedWork`, `MessageQueueRuns.QuietIsFinished`). `DispatchOne` without
  a time limit need not return: one that has handed its item over returns if and only if the worker had not taken the quit request with the event still set
  (`MessageQueueRuns.DispatchReturnsExactly`), and there is a schedule in which it waits for ever
  (`MessageQueueRuns.DispatchCanHang`).

Conventions. Text is a sequence of code units, and conversion between `std::string`, `std::wstring` and `hstring` is the
identity. An object is a list of properties; a map is such a list with ascending names (`WellFormed`), and `Canon` is what
`try_emplace` makes of an arbitrary list. Doubles are NaN, the infinities or a real; the sign of zero is not kept.
Calls into the C runtime (`wcstoul`, `_wcstoi64`, `wcstod`, `strtod`, number printing) are function parameters, and what is
assumed of them is stated where it is used: `ReadsWords`, `ReadsDecimals`, `ReadsIntegers` (a lower-case letter is never a
digit of an `_wcstoi64` numeral), `PlainNumerals` (a `strtod` numeral holds no comma and no bracket), `IeeeNumbers`
(rounding an Int64 keeps small integers apart and joins 2^53 and 2^53 + 1, numbers print without brackets, `false` is no
numeral, the numeral of 2^53 is read).

Characters, numerals, blanks, escapes and printed texts are pinned to string literals and digit positions in `Literals` and
`TextLiterals`, so that no theorem about texts rests only on the tables of the code it speaks of.

Each class has its state as a value (`State()`, or `Cursor()` for the reader interface), and its methods are proved equal
to the step functions that the theorems are about.

Where the code differs from what one would expect, the code is followed:

- Blanks inside an unquoted scalar are dropped (`JsonSyntax.ReadScalar`), and an unquoted scalar that is neither a numeral
  nor a boolean reads as null. Both are part of the accepted language, and so are the `\u` escapes `wcstoul` tolerates.
- The tree reader starts over when its root has been read to the end; the JSON reader does not.
- `std::hex` stays set on the log stream, so later integers print in hex (`LogWriters.HexModeLosesIntegers`).
- `JSValue.h` describes loose comparison of containers through their text; the code goes through `AsJSString` and has a
  shortcut by array size in `AsJSNumber`. The two agree (`Equality.ContainersCompareAsText`).
- A scalar type read from a container does not consume it, which shifts later arguments
  (`ArgReaders.UnconsumedItemShiftsArgs`).

## Model

| member | source | states |
|---|---|---|
| JsonReaders.JsonReader.ReadNext | vnext/Microsoft.ReactNative.Cxx.UnitTests/JsonReader.cpp:20-115 | The scanning loop over the buffer position returns the token and reaches the state of the step-by-step automaton, for every text; position stays within the buffer and the top of the stack is read only when there is one |
| JsonReaders.JsonReader.ResetContainerState | vnext/Microsoft.ReactNative.Cxx.UnitTests/JsonReader.cpp:119-130 | What a comma allows next, by the kind of the open container |
| JsonReaders.JsonReader.HandleStartContainer | vnext/Microsoft.ReactNative.Cxx.UnitTests/JsonReader.cpp:140-150 | Opening a bracket pushes its state and sets the flags of an empty container, or reports invalid data |
| JsonReaders.JsonReader.HandleEndContainer | vnext/Microsoft.ReactNative.Cxx.UnitTests/JsonReader.cpp:153-170 | A closing bracket first ends an unquoted value without being consumed, then closes only the container of its own kind |
| JsonReaders.JsonReader.HandleNonStringChar | vnext/Microsoft.ReactNative.Cxx.UnitTests/JsonReader.cpp:187-208 | A character outside strings starts or extends an unquoted value where one is allowed |
| JsonReaders.JsonReader.HandleEscapeChar | vnext/Microsoft.ReactNative.Cxx.UnitTests/JsonReader.cpp:211-252 | The character after a backslash is replaced by what it stands for, or opens a hex escape, or is refused |
| JsonReaders.JsonReader.HandleEscapeCharHex | vnext/Microsoft.ReactNative.Cxx.UnitTests/JsonReader.cpp:255-274 | After four characters the buffer holds the decoded unit in their place |
| JsonReaders.JsonReader.HandleEndContainerOrValue | vnext/Microsoft.ReactNative.Cxx.UnitTests/JsonReader.cpp:277-291 | Pops the expected state and allows a comma or bracket, unless the root has ended |
| JsonTokens.StepKeepsInv | vnext/Microsoft.ReactNative.Cxx.UnitTests/JsonReader.cpp:20-303 | Every character keeps the invariant that ties flags, stack, text buffer and hex position together |
| JsonTokens.ReadNextKeepsReady | vnext/Microsoft.ReactNative.Cxx.UnitTests/JsonReader.cpp:20-115 | Every call, on every text, ends in a state from which the next call is safe |
| JsonTokens.ReadNextProgress | vnext/Microsoft.ReactNative.Cxx.UnitTests/JsonReader.cpp:20-115 | A call that reports no error strictly advances the position |
| JsonTokens.ErrorsArePermanent | vnext/Microsoft.ReactNative.Cxx.UnitTests/JsonReader.cpp:20-115 | On any text, once one call has failed every later call fails |
| JsonTokens.ErrorWithinLength | vnext/Microsoft.ReactNative.Cxx.UnitTests/JsonReader.cpp:20-115 | A text of m units yields at most m tokens before an error |
| JsonNesting.ReadNextBuilds | vnext/Microsoft.ReactNative.Cxx.UnitTests/JsonReader.cpp:119-303 | Each token extends a partial document by one bracket, name or value at the innermost open container |
| JsonNesting.TokensNest | vnext/Microsoft.ReactNative.Cxx.UnitTests/JsonReader.cpp:119-303 | For every text, valid or not, the tokens before the first error are a prefix of the tokens of one document: brackets match, each member is a Name then one value, nothing follows the root |
| JsonSyntax.ReadQuoted | vnext/Microsoft.ReactNative.Cxx.UnitTests/JsonReader.cpp:173-274 | A quoted string of any legal escapes is read as one token whose text is the decoded string |
| JsonSyntax.ReadScalar | vnext/Microsoft.ReactNative.Cxx.UnitTests/JsonReader.cpp:187-208 | An unquoted scalar is read as one Value token with its characters, blanks inside dropped, and the delimiter behind it is left |
| Literals.HexNumeralDecodes | vnext/Microsoft.ReactNative.Cxx.UnitTests/JsonReader.cpp:255-274 | Four characters are decoded to a unit exactly when they are the unit's base-16 numeral by digit positions, in either case |
| Literals.EscapeLiterals | vnext/Microsoft.ReactNative.Cxx.UnitTests/JsonReader.cpp:211-252 | The escape letters and the characters they stand for, as a table of literals |
| Literals.WhitespaceLiterals | vnext/Microsoft.ReactNative.Cxx.UnitTests/JsonReader.cpp:14-16 | The blanks are space, tab, return and newline |
| Literals.PieceLiterals | vnext/Microsoft.ReactNative.Cxx.UnitTests/JsonReader.cpp:211-274 | What a string piece stands for, in literals: the unit itself, an escape letter, a numeral, or what only the runtime accepts; nothing else is legal |
| Literals.ScalarUnitLiterals | vnext/Microsoft.ReactNative.Cxx.UnitTests/JsonReader.cpp:20-115 | An unquoted scalar may hold everything but blanks and punctuation |
| Literals.PunctuationLiterals | vnext/Microsoft.ReactNative.Cxx.UnitTests/JsonReader.cpp:20-115 | Brackets, comma, colon, quote and backslash as literals |
| Literals.WordLiterals | vnext/Microsoft.ReactNative.Cxx.UnitTests/JsonReader.cpp:319-335 | The words true, false and null as literals |
| Literals.DecimalLiteral | vnext/Microsoft.ReactNative.Cxx/JSValueReader.h:154-156 | The text of an integer is its decimal numeral by digit values, without leading zeros, behind a minus sign if negative |
| JsonLanguage.AcceptedLanguage | vnext/Microsoft.ReactNative.Cxx.UnitTests/JsonReader.cpp:20-303 | For every text: the tokenizer reaches the end of a root without an error if and only if the text is blanks, a legal array or object, and anything behind it |
| JsonLanguage.AcceptsByCalls | vnext/Microsoft.ReactNative.Cxx.UnitTests/JsonReader.cpp:20-115 | Acceptance means that after some number of calls, none of which fails, the state stack is empty again |
| JsonLanguage.ReadAccepted | vnext/Microsoft.ReactNative.Cxx.UnitTests/JsonReader.cpp:20-303 | Reading an accepted text gives the value its root denotes |
| JsonLanguage.RootSplit | vnext/Microsoft.ReactNative.Cxx.UnitTests/JsonReader.cpp:119-303 | An accepted text is taken apart into blanks, a syntax tree and the rest |
| Readers.JsonJSValueReader.GetNextObjectProperty | vnext/Microsoft.ReactNative.Cxx.UnitTests/JsonJSValueReader.cpp:22-51 | The method is the step of the JSON cursor, answers and new state alike, in every state |
| Readers.JsonJSValueReader.GetNextArrayItem | vnext/Microsoft.ReactNative.Cxx.UnitTests/JsonJSValueReader.cpp:53-81 | The method is the step of the JSON cursor, in every state |
| Readers.JsonJSValueReader.SetScalarValue | vnext/Microsoft.ReactNative.Cxx.UnitTests/JsonJSValueReader.cpp:83-127 | Kinds are tried as string, Int64, double, boolean, null, each attempt overwriting the stored scalar |
| Readers.JSValueTreeReader.GetNextObjectProperty | vnext/Microsoft.ReactNative.Cxx/JSValueTreeReader.cpp:31-63 | The method is the step of the tree cursor and keeps the path invariant |
| Readers.JSValueTreeReader.GetNextArrayItem | vnext/Microsoft.ReactNative.Cxx/JSValueTreeReader.cpp:65-92 | The method is the step of the tree cursor and keeps the path invariant |
| Cursors.TreeCursorInvariant | vnext/Microsoft.ReactNative.Cxx/JSValueTreeReader.cpp:31-105 | After any calls in any order the stack is a path of containers from the root, no iterator is at the end of its container, the current node is where the path leads, and the stack is not deeper than the tree is high |
| Cursors.DepthWithinHeight | vnext/Microsoft.ReactNative.Cxx/JSValueTreeReader.cpp:31-105 | Depth of the stack plus height of the current node is at most the height of the tree |
| Bisimulation.NextItemAgrees | vnext/Microsoft.ReactNative.Cxx.UnitTests/JsonJSValueReader.cpp:53-81 | In matching states both readers find or miss an item alike and reach matching states |
| Bisimulation.NextPropertyAgrees | vnext/Microsoft.ReactNative.Cxx.UnitTests/JsonJSValueReader.cpp:22-51 | In matching states both readers report the same property name and reach matching states |
| Bisimulation.ReadersAgree | vnext/Microsoft.ReactNative.Cxx.UnitTests/JsonJSValueReader.cpp:22-127 | For any legal text and the tree it lists, all answers to any sequence of calls are equal if and only if no call enters the root again after it was left |
| Bisimulation.ReadText | vnext/Microsoft.ReactNative.Cxx.UnitTests/JsonReader.cpp:20-303 | ReadFrom over a legal text gives the value the text denotes; of repeated names the first counts |
| Bisimulation.OpenIsValid | vnext/Microsoft.ReactNative.Cxx.UnitTests/JsonJSValueReader.cpp:12-15 | A reader opened on any text is in a state on which ReadFrom is defined and ends |
| Spelling.Denotes | vnext/Microsoft.ReactNative.Cxx/JSValue.cpp:320-330 | A text that spells a tree, members in any order, denotes that tree after map insertion |
| Spelling.ReadSpelled | vnext/Microsoft.ReactNative.Cxx.UnitTests/JsonReader.cpp:20-303 | For every tree with a container root and every text that writes it in literal blanks, escapes, numerals and words, members in any order, whatever follows, reading gives exactly the tree |
| Spelling.SpelledIsLegal | vnext/Microsoft.ReactNative.Cxx.UnitTests/JsonReader.cpp:20-303 | A text written by literal blanks, escapes, numerals and words is legal |
| Spelling.ReadHexEscape | vnext/Microsoft.ReactNative.Cxx.UnitTests/JsonReader.cpp:255-274 | A one-string array holding any numeral of a unit in a \u escape reads as that unit |
| ReadFroms.NextFacts | vnext/Microsoft.ReactNative.Cxx/JSValueTreeReader.cpp:31-105 | Finding a child strictly lowers the work left in either reader, so ReadFrom ends on every reader |
| ReadFroms.FrameRule | vnext/Microsoft.ReactNative.Cxx/JSValue.cpp:823-842 | From any reachable cursor on a freshly entered child, ReadFrom returns that subtree, its member lists turned into maps, and leaves the stack unchanged and ready for the next sibling |
| ReadFroms.ReadSubtree | vnext/Microsoft.ReactNative.Cxx/JSValue.cpp:823-842 | In a tree made of maps the value returned is the very subtree the cursor stands on, wherever the cursor is |
| ReadFroms.ReadWholeTree | vnext/Microsoft.ReactNative.Cxx/JSValue.cpp:823-842 | From the root it returns the tree and restores the initial state, so it can be repeated |
| ReadFroms.ReadIsWellFormed | vnext/Microsoft.ReactNative.Cxx/JSValue.cpp:320-330 | Whatever the reader and its input, the result is made of maps |
| ReadFroms.ReadNamesAscend | vnext/Microsoft.ReactNative.Cxx/JSValue.h:36 | Whatever the reader and its input, the names of every object in the result ascend unit by unit |
| JSValues.LessIsLexicographic | vnext/Microsoft.ReactNative.Cxx/JSValue.h:36 | The order of names is the lexicographic order of code units |
| Readers.ReadFrom | vnext/Microsoft.ReactNative.Cxx/JSValue.cpp:823-842 | Terminates on every reader and input, and value and reader state are those of the recursive reading |
| Readers.ReadObject | vnext/Microsoft.ReactNative.Cxx/JSValue.cpp:320-330 | The loop over properties, first value of a repeated name kept |
| Readers.ReadArray | vnext/Microsoft.ReactNative.Cxx/JSValue.cpp:408-417 | The loop over items, in order |
| JSValues.TryEmplaceLookup | vnext/Microsoft.ReactNative.Cxx/JSValue.cpp:320-330 | Insertion changes the lookup of an absent name only |
| JSValues.CanonLookup | vnext/Microsoft.ReactNative.Cxx/JSValue.cpp:320-330 | A map filled from a list holds, at each name, the first value listed under it |
| ArgReaders.TypedReadExactly | vnext/Microsoft.ReactNative.Cxx/JSValueReader.h:146-426 | A read of any type, into any output, ends behind its value if and only if the type consumes the value, and then returns the converted value |
| ArgReaders.ReadArgsExactly | vnext/Microsoft.ReactNative.Cxx/JSValueReader.h:445-459 | On an array, the reader ends exactly as after a full read if and only if every item is consumed by its argument type, and then the arguments are the converted items followed by defaults |
| ArgReaders.ConvertPartsAt | vnext/Microsoft.ReactNative.Cxx/JSValueReader.h:453-459 | Argument i is item i converted where there is one, and a default otherwise |
| ArgReaders.ConvertPropsAt | vnext/Microsoft.ReactNative.Cxx/JSValueReader.h:357-379 | A map holds, at each name, the first property of that name, converted, beside what it held before |
| ArgReaders.ConvertFieldsAt | vnext/Microsoft.ReactNative.Cxx/JSValueReader.h:412-426 | A struct read from a map holds, in each field, the property of its name converted, or what was there before |
| ArgReaders.ReadValueArgs | vnext/Microsoft.ReactNative.Cxx/JSValueReader.h:453-459 | Arguments of type JSValue are always consumed: the first items as they are, padded with null |
| ArgReaders.ReadArgsElsewhere | vnext/Microsoft.ReactNative.Cxx/JSValueReader.h:453-459 | On a reader that is not on an array all arguments are defaults and the reader does not move |
| ArgReaders.UnconsumedItemShiftsArgs | vnext/Microsoft.ReactNative.Cxx/JSValueReader.h:252-278 | Reading [[7], 8] as two integers gives 0 and 7 |
| ScalarReads.BoolRead | vnext/Microsoft.ReactNative.Cxx/JSValueReader.h:214-232 | A bool is true exactly for a nonempty text, true, a nonzero integer and a double other than zero; the reader does not move |
| ScalarReads.TextRead | vnext/Microsoft.ReactNative.Cxx/JSValueReader.h:146-166 | The text of a text is itself, of a boolean its word, of an integer its decimal numeral, of null and containers empty |
| ScalarReads.IntRead | vnext/Microsoft.ReactNative.Cxx/JSValueReader.h:252-278 | An integer is 1 or 0 for a boolean, itself for an integer, what the runtime reads in a text or else 0, the truncated double, and 0 for null and containers |
| ScalarReads.NumeralRead | vnext/Microsoft.ReactNative.Cxx/JSValueReader.h:252-263 | The decimal numeral of an integer reads as that integer |
| ScalarReads.DoubleRead | vnext/Microsoft.ReactNative.Cxx/JSValueReader.h:304-336 | The same for doubles and floats |
| ScalarReads.NarrowRead | vnext/Microsoft.ReactNative.Cxx/JSValueReader.h:234-302 | A narrow integer is a value of its type and differs from the Int64 read by a multiple of the number of its values |
| ScalarReads.MissingArgument | vnext/Microsoft.ReactNative.Cxx/JSValueReader.h:453-459 | An argument behind the last item is false, empty, zero, nullopt or null by its type |
| ScalarReads.FieldShapeOfName | vnext/Microsoft.ReactNative.Cxx/JSValueReader.h:412-426 | A property is read as the first field of its name, and as a JSValue when it is no field |
| ScalarReads.OutputIsKept | vnext/Microsoft.ReactNative.Cxx/JSValueReader.h:357-388 | A vector read appends to what its output holds, a map read keeps it, and a value of the wrong kind leaves it alone |
| ScalarReads.StructIsKept | vnext/Microsoft.ReactNative.Cxx/JSValueReader.h:412-426 | A struct read starts from what its fields hold |
| ScalarReads.OnlyFieldsAreStored | vnext/Microsoft.ReactNative.Cxx/JSValueReader.h:412-426 | A property that is no field leaves no trace |
| ScalarReads.OthersAreKept | vnext/Microsoft.ReactNative.Cxx/JSValueReader.h:412-426 | What was held under other names stays |
| ArgBisimulation.ArgsAgree | vnext/Microsoft.ReactNative.Cxx/JSValueReader.h:146-426 | Over a legal text and over its tree, a read of any type returns the same argument and leaves matching states |
| ArgBisimulation.SameEnd | vnext/Microsoft.ReactNative.Cxx/JSValueReader.h:146-426 | A type that consumes the value makes the JSON reader go exactly where ReadFrom makes it go |
| ArgBisimulation.ReadArgsFromText | vnext/Microsoft.ReactNative.Cxx/JSValueReader.h:445-459 | ReadArgs over the text of an array returns what it returns over the tree, and the JSON reader ends as after a full read if and only if every item is consumed by its type |
| ArgLoops.ReadTyped | vnext/Microsoft.ReactNative.Cxx/JSValueReader.h:338-426 | The overloads as methods over a reader object, in any state of the reader, terminate and do what the recursive reading does |
| ArgLoops.ReadVector | vnext/Microsoft.ReactNative.Cxx/JSValueReader.h:381-388 | The loop over items pushes each typed read |
| ArgLoops.ReadMap | vnext/Microsoft.ReactNative.Cxx/JSValueReader.h:357-367 | The loop over properties emplaces each typed read; the first of a name stays |
| ArgLoops.ReadFields | vnext/Microsoft.ReactNative.Cxx/JSValueReader.h:412-426 | The loop over properties reads fields into what they hold and drops other properties |
| ArgLoops.SkipArrayToEnd | vnext/Microsoft.ReactNative.Cxx/JSValueReader.h:445-451 | Always returns true, and leaves the reader behind the remaining items |
| ArgLoops.ReadArgs | vnext/Microsoft.ReactNative.Cxx/JSValueReader.h:453-459 | The fold over arguments with its success flag, then the skip, gives the specified arguments and reader state |
| Equality.WriteJSString | vnext/Microsoft.ReactNative.Cxx/JSValue.cpp:619-676 | The recursive stream writer appends exactly the comma-joined text, at any nesting |
| Equality.EqualsValue | vnext/Microsoft.ReactNative.Cxx/JSValue.cpp:774-821 | The dispatch and the container loops decide the recursive relation, strict and loose |
| Equality.EqualsObject | vnext/Microsoft.ReactNative.Cxx/JSValue.cpp:284-318 | The lockstep loop decides the recursive relation on property lists |
| Equality.EqSymmetric | vnext/Microsoft.ReactNative.Cxx/JSValue.cpp:774-821 | Equals and JSEquals are symmetric |
| Equality.EqualsTransitive | vnext/Microsoft.ReactNative.Cxx/JSValue.cpp:774-797 | Equals is transitive |
| Equality.StrictIsLoose | vnext/Microsoft.ReactNative.Cxx/JSValue.cpp:774-821 | Equals implies JSEquals |
| LooseEquality.LooseIsTransitiveExactly | vnext/Microsoft.ReactNative.Cxx/JSValue.cpp:799-821 | For every three types: JSEquals is transitive on values of these types if and only if the types are safe |
| LooseEquality.LooseAcrossTypes | vnext/Microsoft.ReactNative.Cxx/JSValue.cpp:799-821 | For three different types the outer values are equal if and only if they are not two different texts compared through a number |
| LooseEquality.LooseAdjacent | vnext/Microsoft.ReactNative.Cxx/JSValue.cpp:799-821 | Two equal values of one type against a third of another: equality carries over if and only if they are not arrays of different text, or number |
| LooseEquality.LooseIsTransitiveInside | vnext/Microsoft.ReactNative.Cxx/JSValue.cpp:799-821 | Containers whose parts have safe types wherever they are walked together: JSEquals is transitive on them |
| LooseEquality.TextsThroughNumber | vnext/Microsoft.ReactNative.Cxx/JSValue.cpp:799-821 | Two texts that are equal to zero differ |
| LooseEquality.TextAndArrayThroughNumber | vnext/Microsoft.ReactNative.Cxx/JSValue.cpp:799-821 | A blank text and the empty array are both equal to zero and differ |
| LooseEquality.ArraysThrough | vnext/Microsoft.ReactNative.Cxx/JSValue.cpp:799-821 | Two arrays that are equal to zero, or to the empty text, differ |
| LooseEquality.EqualArraysDiffer | vnext/Microsoft.ReactNative.Cxx/JSValue.cpp:393-406 | Two arrays that are equal item by item compare differently with a third value |
| LooseEquality.ObjectsThroughText | vnext/Microsoft.ReactNative.Cxx/JSValue.cpp:799-821 | Two objects are equal to their common text, two arrays of objects to an object, and differ |
| LooseEquality.IntegersThrough | vnext/Microsoft.ReactNative.Cxx/JSValue.cpp:799-821 | Two Int64s that round to one double are equal to that double, its numeral and an array of the numeral, and differ |
| LooseEquality.NestedBreaks | vnext/Microsoft.ReactNative.Cxx/JSValue.cpp:302-318 | Inside arrays and objects the same losses occur |
| Equality.Copy | vnext/Microsoft.ReactNative.Cxx/JSValue.cpp:512-529 | The copying loops rebuild the value as maps and arrays |
| Equality.CopyEquals | vnext/Microsoft.ReactNative.Cxx/JSValue.cpp:774-821 | A value equals its copy exactly when it contains no NaN, for both equalities |
| Equality.LockstepIsMapEquality | vnext/Microsoft.ReactNative.Cxx/JSValue.cpp:284-318 | Walking two key-sorted objects side by side returns true exactly when they have the same names with equal values |
| Equality.TextAsNumber | vnext/Microsoft.ReactNative.Cxx/JSValue.cpp:40-49 | A text is read as a number without the blanks at both its ends (a literal set), and a blank text as zero |
| Equality.TextEqualsNumber | vnext/Microsoft.ReactNative.Cxx/JSValue.cpp:89-98 | A text is loosely equal to a double exactly when, blanks at its ends aside, it is a numeral of it |
| TextLiterals.NumberLiterals | vnext/Microsoft.ReactNative.Cxx/JSValue.cpp:696-720 | The numbers of null, booleans, the empty array and objects |
| TextLiterals.BooleanEqualsNumber | vnext/Microsoft.ReactNative.Cxx/JSValue.cpp:799-821 | A boolean is loosely equal to the integers and doubles one and zero, and to no other |
| TextLiterals.IntegerEqualsNumber | vnext/Microsoft.ReactNative.Cxx/JSValue.cpp:799-821 | An integer is loosely equal to the double it is rounded to, an object to no number |
| TextLiterals.NullEqualsNull | vnext/Microsoft.ReactNative.Cxx/JSValue.cpp:799-821 | Null is equal to null only |
| TextLiterals.ScalarTexts | vnext/Microsoft.ReactNative.Cxx/JSValue.cpp:619-676 | The literal texts of null, booleans, NaN and the infinities |
| TextLiterals.ObjectText | vnext/Microsoft.ReactNative.Cxx/JSValue.cpp:619-676 | The literal text of an object |
| TextLiterals.ArrayText | vnext/Microsoft.ReactNative.Cxx/JSValue.cpp:619-676 | Two parts of an array are printed with one comma between them, one item as it is, no item as nothing |
| Equality.ContainerNumber | vnext/Microsoft.ReactNative.Cxx/JSValue.cpp:696-720 | The size-based shortcut agrees with converting the comma-joined text |
| Equality.ContainersCompareAsText | vnext/Microsoft.ReactNative.Cxx/JSValue.cpp:799-821 | A container compares with a value of another type exactly as its AsJSString text does |
| Writers.EventsArePrefixCode | vnext/Microsoft.ReactNative.Cxx/JSValue.cpp:332-340 | Events of one value followed by anything equal events of another followed by anything only if the values and the rests are equal |
| Writers.ReplayDelivers | vnext/Microsoft.ReactNative.Cxx/JSValueTreeWriter.cpp:45-88 | Replaying the events of a value in any writer state delivers exactly that value and meets every check of the writer |
| Writers.WriteRoundTrip | vnext/Microsoft.ReactNative.Cxx/JSValueTreeWriter.cpp:25-88 | Writing a value into a new tree writer and taking the result gives the value back |
| Writers.WriteTo | vnext/Microsoft.ReactNative.Cxx/JSValue.cpp:844-863 | WriteTo driving the tree writer object delivers the value to its innermost open container |
| Writers.JSValueTreeWriter.WriteValue | vnext/Microsoft.ReactNative.Cxx/JSValueTreeWriter.cpp:75-88 | Delivery to the innermost container, or as the result, in place |
| LogWriters.JSValueLogWriter.WriteQuotedString | vnext/Microsoft.ReactNative.Cxx/JSValue.cpp:139-172 | Appends the quoted text with its escapes, and leaves the stream in hex mode exactly when a hex escape was printed |
| LogWriters.JSValueLogWriter.WriteArray | vnext/Microsoft.ReactNative.Cxx/JSValue.cpp:200-215 | Appends the indented text of the array and restores the indentation |
| LogWriters.JSValueLogWriter.WriteObject | vnext/Microsoft.ReactNative.Cxx/JSValue.cpp:183-198 | Appends the indented text of the object, names unquoted, and restores the indentation |
| LogWriters.JSValueLogWriter.WriteValue | vnext/Microsoft.ReactNative.Cxx/JSValue.cpp:217-235 | Appends the text of any value and keeps the indentation |
| TextLiterals.IndentText | vnext/Microsoft.ReactNative.Cxx/JSValue.cpp:121-127 | Two spaces for each level |
| TextLiterals.EmptyLayout | vnext/Microsoft.ReactNative.Cxx/JSValue.cpp:183-205 | Empty containers are two brackets |
| TextLiterals.ContainerLayout | vnext/Microsoft.ReactNative.Cxx/JSValue.cpp:183-215 | Brackets around the lines of the items, the closing one on a line of its own at the outer level |
| TextLiterals.ItemLayout | vnext/Microsoft.ReactNative.Cxx/JSValue.cpp:200-215 | Each item on a line of its own, a comma before every line but the first |
| TextLiterals.PropertyLayout | vnext/Microsoft.ReactNative.Cxx/JSValue.cpp:183-198 | Each property on a line of its own: name, colon, space, value |
| TextLiterals.HexModeStarts | vnext/Microsoft.ReactNative.Cxx/JSValue.cpp:141-162 | The stream enters hex mode exactly at the control characters without an escape letter, which are printed as four digits |
| TextLiterals.HexIntegerText | vnext/Microsoft.ReactNative.Cxx/JSValue.cpp:228-229 | Hex mode prints the base-16 numeral of an integer, of a negative one that of its 64-bit pattern |
| LogWriters.LogReadBack | vnext/Microsoft.ReactNative.Cxx/JSValue.cpp:139-235 | Reading the log text of a tree of arrays, strings, booleans, null, integers and empty objects gives the tree, but for integers printed in hex mode |
| LogWriters.LogRoundTrip | vnext/Microsoft.ReactNative.Cxx/JSValue.cpp:139-235 | The log text reads back as the same tree if and only if each integer printed behind a hex escape is a single decimal digit; so always without integers, all control characters included |
| LogWriters.HexModeLosesIntegers | vnext/Microsoft.ReactNative.Cxx/JSValue.cpp:157-158 | A control character followed by 16 reads back as 10 |
| MessageQueues.StepKeepsInv | vnext/IntegrationTests/ControllableMessageQueueThread.cpp:95-219 | Every step of every thread keeps mutual exclusion, order, token accounting, no lost wake-up and the quit and dispatch hand-over |
| MessageQueues.MutualExclusion | vnext/IntegrationTests/ControllableMessageQueueThread.cpp:15-24 | In every reachable state at most one thread is inside the critical section |
| MessageQueues.ExactlyOnceInOrder | vnext/IntegrationTests/ControllableMessageQueueThread.cpp:173-219 | In every reachable state and either mode, functors run, then the one in flight, then the queue, are the pushes in order; each placed call stands for its own push |
| MessageQueues.WakeUpAccounting | vnext/IntegrationTests/ControllableMessageQueueThread.cpp:95-101 | In AutoDispatch the worker never pops an empty queue, and while a signalled functor is queued the event is set or the worker holds a wake-up or is about to signal |
| MessageQueueRuns.NoRefusalBeforeQuit | vnext/IntegrationTests/ControllableMessageQueueThread.cpp:95-101 | While quitSynchronous has not been called no runOnQueue is refused, and one that is over has pushed its functor |
| MessageQueueRuns.CallAfterQuitIsRefused | vnext/IntegrationTests/ControllableMessageQueueThread.cpp:95-101 | A runOnQueue begun after quitSynchronous was called never pushes its functor |
| MessageQueueRuns.DrainOnQuit | vnext/IntegrationTests/ControllableMessageQueueThread.cpp:122-219 | In AutoDispatch every functor whose runOnQueue was over before quitSynchronous was called was pushed and has run when it returns |
| MessageQueueRuns.NothingRunsAfterQuit | vnext/IntegrationTests/ControllableMessageQueueThread.cpp:121-126 | In either mode no functor runs after quitSynchronous returned |
| MessageQueueRuns.RunIffSignalledInTime | vnext/IntegrationTests/ControllableMessageQueueThread.cpp:95-219 | When quitSynchronous returns, the functor of a call that pushed has run if and only if the call had signalled when the worker took the quit request |
| MessageQueueRuns.LateCallIsLost | vnext/IntegrationTests/ControllableMessageQueueThread.cpp:95-101 | A call admitted before the quit that had not returned can push a functor that never runs |
| MessageQueueRuns.DispatchedAreOldest | vnext/IntegrationTests/ControllableMessageQueueThread.cpp:133-147 | Between DispatchOne calls the functors run are exactly the oldest, one for each call that returned true |
| MessageQueueRuns.DispatchRunsOne | vnext/IntegrationTests/ControllableMessageQueueThread.cpp:133-171 | One DispatchOne that returns true runs exactly one functor, the oldest queued |
| MessageQueueRuns.SignalsHaveItems | vnext/IntegrationTests/ControllableMessageQueueThread.cpp:133-171 | The item-present event, a dispatcher that took it and a woken worker each have a functor in the queue behind them |
| MessageQueueRuns.BoundedWork | vnext/IntegrationTests/ControllableMessageQueueThread.cpp:95-219 | Under any schedule the calls already begun take a bounded number of steps |
| MessageQueueRuns.QuietIsFinished | vnext/IntegrationTests/ControllableMessageQueueThread.cpp:95-219 | When no thread can move, every runOnQueue and quitSynchronous has returned, runOnQueue with its functor pushed unless a quit was called, an automatic queue not told to quit has run everything, and a DispatchOne still waiting waits for a first item on an empty queue or has handed its item to a worker that had taken the quit request |
| MessageQueueRuns.DispatchReturnsExactly | vnext/IntegrationTests/ControllableMessageQueueThread.cpp:133-219 | A DispatchOne that has handed its item over returns true, in every run to rest, if and only if it is not the case that the worker has taken the quit request and the event is still set |
| MessageQueueRuns.HandOverExactly | vnext/IntegrationTests/ControllableMessageQueueThread.cpp:133-219 | A DispatchOne that has taken its item and not handed it over can still return true if and only if the worker has not taken the quit request |
| MessageQueueRuns.DoomedForever | vnext/IntegrationTests/ControllableMessageQueueThread.cpp:133-219 | A DispatchOne that waits for a worker that has taken the quit request never returns, whatever happens later |
| MessageQueueRuns.DispatchCanHang | vnext/IntegrationTests/ControllableMessageQueueThread.cpp:133-147 | A schedule that ends with a returned quitSynchronous, the functor still queued and DispatchOne waiting for ever |
| MessageQueueRuns.QuitCanReturn | vnext/IntegrationTests/ControllableMessageQueueThread.cpp:122-159 | From every reachable state in which quitSynchronous was called, a schedule lets it return |

## Left out

- `runOnQueueSync`, timed-out `DispatchOne` calls, several dispatching or quitting threads, quitting from the worker, and the
  destructor: the source limits the first to initialization and cleanup, and the others are outside the runs modelled.
- The functors run by the worker before and after its loop, and `IsEmpty`.
- A functor that itself calls `runOnQueue` is one of the callers of the model; what functors compute is not modelled.
- The message queue is modelled as a step relation and not as a class, because its methods interleave; memory order of the
  atomics is sequential consistency.
- Which characters `wcstoul` tolerates in `\u` escapes besides four hex digits: an arbitrary runtime function decides.
- Printing and parsing of doubles, rounding, and the edges of conversion from double to Int64: runtime parameters.
- Reading the log text of non-empty objects back (their names are unquoted) and of doubles.
- `JSValue::ToString` on a root that is not a container, `AsString`, `AsBoolean`, `AsInt64`, `AsDouble`, `AsJSBoolean`, and
  `operator[]`: they would only add easy members.
- UTF-8 and UTF-16 conversion, base64, WinRT plumbing, move construction, HTTP, WebSocket and UI code.
- LogWriters.LogReadBack: covers trees without doubles and without non-empty objects, whose log text is not JSON.
- LogWriters.LogRoundTrip: covers trees without doubles and without non-empty objects, whose log text is not JSON.

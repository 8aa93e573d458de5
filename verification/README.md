# wxdap protocol core: a verified model

A Dafny model of the parts of the wxdap library that decide whether a debug session works: the JSON
parser, printer and node lists in `dap/cJSON.cpp` with their wrapper `dap/JSON.cpp`, the stream framer
`dap/JsonRPC.cpp`, the client session `dap/Client.cpp` with its reader thread, the command-line tokenizer
in `dap/StringUtils.cpp`, and two message classes of `dap/dap.cpp` that carry a theorem from end to end.
`dafny verify dfyconfig.toml` checks all of it.

Each component has a specification on values, methods or a state machine in the form of the source that
are proved against it, and theorems about the specification.

- **JSON text.** `JsonPrinter` and `JsonParser` give the printed text of a value and the value read from a text.
  `JsonReading.ReadsExactly`: the parser reads a value exactly of the texts that spell it by a grammar that knows
  nothing of the parser (`JsonGrammar`), with any white space, escapes and numerals; `JsonRoundTrip.LayoutIsPrinted`
  says which of the spellings is printed. So `JsonRoundTrip.PrintedIsRead`: printing and then parsing gives the value
  back and stops right behind it, at any nesting and depth, in both formats, whatever follows; a number is read back
  exactly when what follows does not extend it. `StringCodec` proves the two passes over string literals safe and in
  agreement, and settles what `\u` escapes become: the one well-formed UTF-8 sequence of the code point (RFC 3629,
  section 4), and for a surrogate pair the code point of RFC 2781 exactly when bit 6 of its high half is clear.
  `Words` proves the shifts and masks on 32-bit words to be that encoding.
- **Nodes.** `Dom` describes a tree of doubly linked child lists on the heap and who owns what. `cJSON_Delete`
  frees each owned object once; the list mutators (`DomEdit`, `DomNames`) are sequence operations that keep the
  links right; the parser (`DomParser`) builds a tree that denotes the value and leaks nothing when it fails;
  the printer (`DomPrinter`, `PrintBuffers`) stays inside the buffers whose length it computed.
- **Framing.** `FramingProofs.ChunkIndependence`: every way of cutting a byte stream delivers all its messages
  exactly when no message stands behind a payload that does not parse; deliveries are always a prefix;
  what the sender writes arrives whole. `HeaderLines.SectionIsRead`: what is found behind any header section,
  whatever other headers stand in it, is decided by its first Content-Length.
- **End to end.** `EndToEnd.WireRoundTrip`: messages sent through `To`, printer and encoder and cut arbitrarily
  come out of framer, parser and `FromJSON` equal and in order. `MessageReading` says what messages with other
  members, or without some, are read as.
- **Session.** `Session` says what each call and each message does; `Client` is the class proved to do that, from its
  constructor on through any sequence of calls (`Client.RunClient`). `SessionRuns` holds for every run: each request
  has exactly one fate and is handed to at most one event; the four queues list the arguments of the requests in
  flight as long as the adapter answers each kind in order, so that an event's `refId` belongs to the request that
  `request_seq` names; events are gated by the handshake, and are those due of the messages, in their order.
  `SessionSteps` states each step on the fields.
- **Reader thread.** `ReaderThread` interleaves the thread and the event loop: bytes are conserved in order, a
  lost connection is posted once and last, one late read at most, and the join ends; what the framer of a session
  that began with nothing waiting delivers is a prefix of the messages in the bytes that were read.
- **Command line.** `ArgvGrammar.LineIsArgv` with `ArgvGrammar.LineFound`: the arguments of every command line are
  the meanings of its words. Tokenizing what was quoted and joined gives the arguments back exactly when every one
  of them meets a condition a caller can check: `ArgvScan.ScannedRoundTrip`, with quotes of any kind in them, for
  lists without empty arguments, and `Argv.ListRoundTrip`, for arguments without double quotes, empty ones included.
- **Handles.** `JsonHandle`: the shared counter is the number of handles, and the tree goes with the last one, also
  among the handles without a tree that a rejected text gives.

Where the code does less than its comments say, the model follows the code:

- A header section without `Content-Length` is not removed, as the comment at `dap/JsonRPC.cpp:35-37` says it is:
  everything behind it is dropped and the section stays, and the framer delivers nothing ever after. A length that is
  not positive blocks it as well, with everything behind it piling up (`FramingProofs.Stuck`, with
  `FramingProofs.EmptySectionIsStuck` and `FramingProofs.EmptyFrameIsStuck` as inputs).
- A stored `false` reads back as the default (`JsonAccess.BoolReadsBack`).
- Surrogates are joined with `0x10000 |` (`Utf8.JoinIsRight`).
- `cJSON_ReplaceItemInObject` does not free the name that the new item had: everything that is allocated afterwards
  is owned exactly when the new item had no name (`DomNames.ReplaceItemInObject`; `DomNames.ReplaceNamedItem` is an
  input on which a name is lost).
- Adding a handle to an object deletes its counter: that is right exactly when no other handle shares it
  (`JsonHandle.Memory.AddObject`).
- Initialize, evaluate, source, step and continue requests stay in flight when they are answered
  (`SessionRuns.OwnResponseTakes`), until a reset, or another response that names them (`SessionRuns.InFlightUntil`).
- Events that were posted survive `Reset`: a session starts with its own events only exactly when none are
  waiting. Otherwise bytes of one session reach the framer of the next, and a connection lost in one can end the next
  (`ReaderThread.OwnEventsKept`, `ReaderThread.StaleBytesReachNextFramer`, `ReaderThread.StaleLossEndsNextSession`).
- The file name that a failed `BreakpointLocations` call leaves behind is harmless, because a new transport
  resets the client first (`SessionQueues.LocatedKept`).

Text is modelled as bytes: a `char` stands for a byte, a pointer into a buffer for the suffix it points at.

## Model

| member | source | states |
|---|---|---|
| `CStrings.SkipSpace` | dap/cJSON.cpp:349-354 | the loop stops at the first byte above 32 or at the terminator |
| `CStrings.SkipSpaces` | dap/cJSON.cpp:349-354 | indentation in front of any text is skipped whole |
| `CStrings.TakeDigitsOfDigits` | dap/cJSON.cpp:119-122 | the digit loop reads a printed number back and goes on with what follows |
| `CStrings.DigitsInPlace` | dap/cJSON.cpp:119-122 | the digit loop takes digits in their places behind those read before |
| `CStrings.DigitsArePlaces` | dap/cJSON.cpp:153-156 | a printed number is its digits in their places |
| `Utf8.EncodeDecodes` | dap/cJSON.cpp:234-256 | the encoding of any code point decodes to it, and is well-formed by the grammar of RFC 3629, section 4, exactly when it is not a surrogate |
| `Utf8.DecodeEncodes` | dap/cJSON.cpp:234-256 | any well-formed sequence decodes to a scalar value and is its encoding |
| `Utf8.EncodingIsExact` | dap/cJSON.cpp:234-256 | a scalar value has exactly one well-formed sequence that decodes to it, and it is the one that is written |
| `Utf8.JoinIsRight` | dap/cJSON.cpp:231 | or-ing bit 16 in gives the RFC 2781 value exactly when bit 6 of the high half is clear |
| `Words.SplitOff` | dap/cJSON.cpp:245-246 | on 32-bit words: mask and mark give the low six bits of a code point as a continuation byte, and the shift divides by 64 |
| `Words.ShiftIsDivision` | dap/cJSON.cpp:246 | what is shifted out is the remainder |
| `Words.LeadIsSum` | dap/cJSON.cpp:254 | for each length, what is left of the word and the lead mark do not overlap, so or-ing is adding |
| `Words.SizesAgree` | dap/cJSON.cpp:234-240 | the comparisons that choose the length |
| `Words.WordsAreBytes` | dap/cJSON.cpp:234-256 | for every code point, all the bytes that the switch shifts, masks and ors together are those of RFC 3629 |
| `Words.ScanHex4` | dap/cJSON.cpp:217 | the word of four hexadecimal digits is their value |
| `Words.SurrogatesAgree` | dap/cJSON.cpp:220-223 | the comparisons that look for surrogates |
| `Words.JoinIsWord` | dap/cJSON.cpp:231 | the word that the masks, the shift and the ors join from two halves is the number of which `Utf8.JoinIsRight` speaks |
| `StringCodec.PassesAgree` | dap/cJSON.cpp:185-267 | both passes end at the same place and the second writes no more than the first counted, for every literal with complete escapes |
| `StringCodec.CountLiteral` | dap/cJSON.cpp:185-187 | the counting loop |
| `StringCodec.PutContinuation` | dap/cJSON.cpp:245-246 | one masked byte in front of what is written, and the word that goes on |
| `StringCodec.ByteCount` | dap/cJSON.cpp:234-240 | the length by the size of the word |
| `StringCodec.PutLead` | dap/cJSON.cpp:254 | the marked lead byte in front of the others |
| `StringCodec.WriteCodePoint` | dap/cJSON.cpp:234-256 | the backward fall-through switch on the 32-bit word writes its bytes in place and nothing else |
| `StringCodec.ReadUnicode` | dap/cJSON.cpp:216-257 | the unicode case writes what the grammar says and ends behind the last digit used |
| `StringCodec.PutUnescaped` | dap/cJSON.cpp:195-263 | one turn of the filling loop |
| `StringCodec.ReadString` | dap/cJSON.cpp:173-271 | parse_string gives the value and rest of the grammar, inside the buffer it allocated |
| `StringCodec.BasicEscape` | dap/cJSON.cpp:216-257 | the escape of every code point but zero and the surrogates gives the one well-formed UTF-8 sequence that decodes to it, and no other |
| `StringCodec.PairEscape` | dap/cJSON.cpp:223-257 | a surrogate pair always gives one well-formed sequence; it is the encoding of the code point of the pair exactly when bit 6 of the high half is clear |
| `StringCodec.CountEscaped` | dap/cJSON.cpp:284-290 | the counting loop of print_string_ptr counts the escaped text exactly |
| `StringCodec.PutEscaped` | dap/cJSON.cpp:299-332 | one turn of the writing loop |
| `StringCodec.PutAllEscaped` | dap/cJSON.cpp:299-332 | the writing loop |
| `StringCodec.PrintStringPtr` | dap/cJSON.cpp:274-336 | the literal and its terminator fill the buffer exactly |
| `NumberCodec.ReadNumber` | dap/cJSON.cpp:109-146 | the loops of parse_number compute the value and rest of the grammar |
| `NumberCodec.ReadDigits` | dap/cJSON.cpp:120-122 | the digit loop |
| `NumberCodec.ReadInteger` | dap/cJSON.cpp:117-122 | the integer part |
| `NumberCodec.ReadFraction` | dap/cJSON.cpp:123-128 | the fraction and its scale |
| `NumberCodec.ReadExponent` | dap/cJSON.cpp:129-138 | the exponent with its sign |
| `JsonParser.ParseString` | dap/cJSON.cpp:173-271 | a literal that is read leaves a shorter rest and a value without terminators |
| `JsonParser.ParseNumber` | dap/cJSON.cpp:109-146 | a number consumes at least one byte |
| `JsonParser.ParseValue` | dap/cJSON.cpp:376-408 | every successful parse leaves a strictly shorter rest, so the recursion ends |
| `JsonParser.ParseItems` | dap/cJSON.cpp:459-478 | the same for the entries of an array |
| `JsonParser.ParseMembers` | dap/cJSON.cpp:564-601 | the same for the members of an object |
| `JsonReading.SkipWhite` | dap/cJSON.cpp:349-354 | any run of the bytes 1 to 32 is skipped |
| `JsonReading.HexIsRead` | dap/cJSON.cpp:217 | the hexadecimal digits are these 22, and each has its value |
| `JsonReading.UnitIsRead` | dap/cJSON.cpp:217 | four of them count 4096, 256, 16 and 1 |
| `JsonReading.PieceIsRead` | dap/cJSON.cpp:195-263 | each way of writing a part of a literal means what the table says; what it does not name stands for itself |
| `JsonReading.LiteralIsRead` | dap/cJSON.cpp:173-271 | a literal of such parts is read to its end; the closing quote may be missing where the text ends |
| `JsonReading.PiecesFound` | dap/cJSON.cpp:173-271 | every literal that is read is made of such parts |
| `JsonReading.NumeralIsRead` | dap/cJSON.cpp:109-146 | a numeral with sign, digits, fraction and exponent is read to its end, as its digits in their places, negated by the sign and scaled by the power of ten |
| `JsonReading.NumeralFound` | dap/cJSON.cpp:109-146 | every text that parse_number is called on starts with such a numeral |
| `JsonReading.EntriesAreRead` | dap/cJSON.cpp:459-478 | the entries of an array, with white space anywhere between them |
| `JsonReading.FieldIsRead` | dap/cJSON.cpp:564-575 | a member with white space before and behind the name, behind the colon and behind the value |
| `JsonReading.FieldsAreRead` | dap/cJSON.cpp:564-601 | the members of an object |
| `JsonReading.SpelledIsRead` | dap/cJSON.cpp:376-602 | every spelling of a value is read as that value, and to its end |
| `JsonReading.SpellingFound` | dap/cJSON.cpp:376-602 | whatever text is read as a value is a spelling of one |
| `JsonReading.ReadsExactly` | dap/cJSON.cpp:376-408 | parse_value reads a value and leaves a rest exactly of the texts that spell the value with that rest behind it |
| `JsonReading.ParsesExactly` | dap/cJSON.cpp:357-369 | the same for cJSON_Parse, with white space in front |
| `JsonCutShort.ValueIsCut` | dap/cJSON.cpp:195-232 | the texts of which nothing is said hold an escape that is cut short |
| `JsonRoundTrip.QuotedIsRead` | dap/cJSON.cpp:173-336 | parse_string undoes print_string_ptr for every string without terminators, whatever follows |
| `JsonRoundTrip.DecimalIsRead` | dap/cJSON.cpp:109-169 | parse_number reads a printed integer back exactly when what follows does not extend it |
| `JsonRoundTrip.ExtensionIsTaken` | dap/cJSON.cpp:117-138 | what extends the digits is consumed with them |
| `JsonRoundTrip.PieceIsPrinted` | dap/cJSON.cpp:299-332 | each byte is printed as itself unless a literal cannot hold it, and then by its short escape if it has one |
| `JsonRoundTrip.QuotedIsPrinted` | dap/cJSON.cpp:274-336 | what is printed for a string is a literal of such parts that means the string |
| `JsonRoundTrip.LayoutIsPrinted` | dap/cJSON.cpp:411-695 | what is printed for a value is a spelling of it, with no white space at all or, formatted, with a blank behind commas and colons and a line for each member, indented by its depth |
| `JsonRoundTrip.PrintedIsRead` | dap/cJSON.cpp:376-695 | parse_value on the printed value and any rest gives the value and leaves exactly the rest |
| `JsonRoundTrip.PrintedIsParsed` | dap/cJSON.cpp:357-373 | cJSON_Parse undoes cJSON_Print and cJSON_PrintUnformatted |
| `Dom.Allocator.Free` | dap/cJSON.cpp:55-56 | only what is allocated can be freed, and is then no longer allocated |
| `Dom.Allocator.NewItem` | dap/cJSON.cpp:83-89 | a new node is all zeros and belongs to no list |
| `Dom.Allocator.Strdup` | dap/cJSON.cpp:58-68 | a copy of the string in memory of its own |
| `Dom.ConcatLists` | dap/cJSON.cpp:741-753 | what two joined lists own, and when nothing in them is owned twice |
| `Dom.ConcatSiblings` | dap/cJSON.cpp:722-726 | a doubly linked list splits and joins at every place |
| `Dom.Delete` | dap/cJSON.cpp:92-106 | a forest: every owned object is freed, each once, and nothing else; nothing behind a reference is touched |
| `Dom.DeleteNode` | dap/cJSON.cpp:96-103 | one turn of the loop: a node and everything it owns |
| `Dom.DeleteTree` | dap/cJSON.cpp:92-106 | the same for one detached tree |
| `Dom.CreateReference` | dap/cJSON.cpp:728-738 | a detached node that shares children and value and owns only itself |
| `Dom.DeleteReferenceThenTree` | dap/cJSON.cpp:92-106 | a reference into a tree and then the tree can be deleted with nothing freed twice |
| `DomEdit.GetArraySize` | dap/cJSON.cpp:698-705 | the number of children, of a reference too |
| `DomEdit.GetArrayItem` | dap/cJSON.cpp:706-712 | the child at the index, of a reference too, a negative index counting as zero, null past the end |
| `DomEdit.SuffixObject` | dap/cJSON.cpp:722-726 | linking a node behind the last sibling makes a longer list |
| `DomEdit.FindLast` | dap/cJSON.cpp:749-750 | the walk ends at the last child |
| `DomEdit.Append` | dap/cJSON.cpp:741-753 | appends to the sequence of children and keeps the links and the ownership |
| `DomEdit.Bridge` | dap/cJSON.cpp:779-782 | what is before and behind a node become neighbours |
| `DomEdit.Release` | dap/cJSON.cpp:783-785 | the head is moved if need be and the node's links are cleared |
| `DomEdit.DetachItemFromArray` | dap/cJSON.cpp:772-787 | removes exactly the child at the index, detached and whole, or nothing |
| `DomEdit.DeleteItemFromArray` | dap/cJSON.cpp:788 | the same and frees exactly what that child owned |
| `DomEdit.CopyLinks` | dap/cJSON.cpp:812-813 | the new item gets the old one's neighbours |
| `DomEdit.Substitute` | dap/cJSON.cpp:814-819 | the neighbours point at the new item |
| `DomEdit.Swap` | dap/cJSON.cpp:812-820 | the list with one node replaced, the old one detached |
| `DomEdit.ReplaceItemInArray` | dap/cJSON.cpp:805-822 | updates the sequence at the index and frees what was there; out of range nothing changes |
| `DomNames.StrCaseEqual` | dap/cJSON.cpp:43-53 | the loop tells whether two strings differ only in the case of letters |
| `DomNames.CaseIsAll` | dap/cJSON.cpp:48-52 | two bytes are alike exactly when they are equal or one letter in two cases |
| `DomNames.Find` | dap/cJSON.cpp:715-718 | the first child whose name matches without regard to case |
| `DomNames.Walk` | dap/cJSON.cpp:791-794 | the loop of the by-name functions finds that child and its index |
| `DomNames.GetObjectItem` | dap/cJSON.cpp:713-719 | gives that child or null |
| `DomNames.DetachItemFromObject` | dap/cJSON.cpp:789-798 | removes that child from the sequence |
| `DomNames.DeleteItemFromObject` | dap/cJSON.cpp:799-802 | the same and frees exactly what it owned |
| `DomNames.SetName` | dap/cJSON.cpp:830 | a fresh copy of the name, owned by the item |
| `DomNames.SwapName` | dap/cJSON.cpp:758-760 | the former name is freed first |
| `DomNames.AddItemToObject` | dap/cJSON.cpp:754-762 | appends the item under its new name |
| `DomNames.ReplaceItemInObject` | dap/cJSON.cpp:823-833 | updates the sequence at the first match; everything allocated is then in the new tree or was in neither exactly when the new item had no name, and otherwise that name alone is lost |
| `DomNames.ReplacementOwns` | dap/cJSON.cpp:823-833 | what the tree owns after a replacement, and that nothing owns the former name of the new item |
| `DomNames.OnlyNameLeaks` | dap/cJSON.cpp:830 | the accounts are in balance exactly when the new item had no name |
| `DomNames.NameNewItem` | dap/cJSON.cpp:830 | the new item gets its name and the tree it is for stays as it was |
| `DomNames.ReplaceNamedItem` | dap/cJSON.cpp:823-833 | an input on which a name is lost: an item called "b" replaces "a" |
| `DomNames.RenameAndReplace` | dap/cJSON.cpp:829-832 | the taken branch of it |
| `DomNames.AddItemReferenceToArray` | dap/cJSON.cpp:763-766 | appends a reference that owns only itself |
| `DomParser.ReadText` | dap/cJSON.cpp:173-271 | parse_string into a node |
| `DomParser.ReadValue` | dap/cJSON.cpp:376-408 | parse_value succeeds exactly when the grammar does, with its rest; the nodes denote its value, and the tree owns all that was allocated, on failure too |
| `DomParser.ReadArray` | dap/cJSON.cpp:443-479 | the same for parse_array |
| `DomParser.ReadItems` | dap/cJSON.cpp:456-461 | the first entry and the rest of the list |
| `DomParser.ReadMoreItems` | dap/cJSON.cpp:463-478 | the loop over the commas |
| `DomParser.LinkNext` | dap/cJSON.cpp:464-470 | a new node behind the last |
| `DomParser.ReadNext` | dap/cJSON.cpp:464-470 | a new node linked behind the last and filled |
| `DomParser.ReadObject` | dap/cJSON.cpp:548-602 | the same for parse_object |
| `DomParser.ReadMembers` | dap/cJSON.cpp:561-575 | the first member and the rest of the list |
| `DomParser.ReadMember` | dap/cJSON.cpp:564-575 | the name that parse_string leaves in the value is moved over, and the value follows |
| `DomParser.ReadNextMember` | dap/cJSON.cpp:578-593 | a new node linked behind the last and filled |
| `DomParser.ReadMoreMembers` | dap/cJSON.cpp:577-601 | the loop over the commas |
| `DomParser.Parse` | dap/cJSON.cpp:357-369 | cJSON_Parse: a tree that denotes the value and owns all that was allocated, or null with everything freed |
| `DomParser.DenoteItemsAppend` | dap/cJSON.cpp:463-473 | one more node is one more entry |
| `DomParser.DenoteMembersAppend` | dap/cJSON.cpp:577-596 | one more named node is one more member |
| `PrintBuffers.ArrayFits` | dap/cJSON.cpp:486-544 | the computed length exceeds text and terminator by one byte an entry and a constant |
| `PrintBuffers.ObjectFits` | dap/cJSON.cpp:608-693 | the computed length exceeds text and terminator by five bytes, four if empty, at any depth |
| `PrintBuffers.StrCpy` | dap/cJSON.cpp:531-532 | writes the string and its terminator, and the pointer stands at the terminator |
| `PrintBuffers.PutItemEnd` | dap/cJSON.cpp:533-538 | the separator and the terminator behind it |
| `PrintBuffers.ComposeArray` | dap/cJSON.cpp:526-544 | every write is inside the computed length and the buffer holds the array's text |
| `PrintBuffers.PutMember` | dap/cJSON.cpp:668-682 | one turn of the loop over the members |
| `PrintBuffers.PutMembers` | dap/cJSON.cpp:667-685 | the loop over the members |
| `PrintBuffers.ComposeObject` | dap/cJSON.cpp:661-694 | every write is inside the computed length and the buffer holds the object's text |
| `DomPrinter.ArrayBufferFits` | dap/cJSON.cpp:482-545 | the array's buffer is long enough for every array at every depth, and by how much |
| `DomPrinter.ObjectBufferFits` | dap/cJSON.cpp:605-695 | the same for an object |
| `DomPrinter.DecimalFits` | dap/cJSON.cpp:153-156 | a 32-bit number fits the 21 bytes |
| `DomPrinter.PrintedIsNulFree` | dap/cJSON.cpp:411-440 | printed text holds no terminator, so strlen measures all of it |
| `DomPrinter.PrintValue` | dap/cJSON.cpp:411-440 | print_value returns a buffer that holds the text of the value the nodes denote |
| `DomPrinter.PrintArray` | dap/cJSON.cpp:482-545 | the same for an array |
| `DomPrinter.PrintEntries` | dap/cJSON.cpp:499-508 | the loop that prints the entries computes the buffer's length |
| `DomPrinter.PrintObject` | dap/cJSON.cpp:605-695 | the same for an object |
| `DomPrinter.PrintPairs` | dap/cJSON.cpp:628-640 | the loop that prints names and values computes the buffer's length |
| `DomPrinter.PrintAndParse` | dap/cJSON.cpp:357-373 | printing a tree and parsing the text gives a second tree for the same value in memory of its own |
| `JsonNodes.Position` | dap/JSON.cpp:103-110 | where the first member of exactly that name is, the same one that the lookup by value gives |
| `JsonNodes.Lookup` | dap/JSON.cpp:97-111 | the walk over the children finds the node of the first member of exactly that name |
| `JsonNodes.CreateString` | dap/cJSON.cpp:874-882 | a detached node that denotes the string |
| `JsonNodes.CreateNumber` | dap/cJSON.cpp:864-873 | a detached node that denotes the number |
| `JsonNodes.CreateBool` | dap/cJSON.cpp:857-863 | a detached node that denotes the boolean |
| `JsonNodes.CreateObject` | dap/JSON.cpp:149-154 | a new tree that denotes the empty object |
| `JsonNodes.MemberAdded` | dap/JSON.cpp:263-274 | a named node at the end of the children is a member at the end |
| `JsonNodes.AddMember` | dap/JSON.cpp:263-274 | adding the node of a value adds the member, and nothing allocated is lost |
| `JsonNodes.AddString` | dap/JSON.cpp:167-177 | Add of a string to an object appends that member |
| `JsonNodes.AddNumber` | dap/JSON.cpp:179-189 | Add of a number to an object appends that member |
| `JsonNodes.AddBool` | dap/JSON.cpp:191-201 | Add of a boolean to an object appends that member |
| `JsonNodes.SourceToNodes` | dap/dap.cpp:395-409 | the calls of Source::To leave nodes that denote its Json |
| `HeaderText.Find` | dap/StringUtils.cpp:53-69 | the first place of a character |
| `HeaderText.LTrim` | dap/StringUtils.cpp:30 | no blank is left in front |
| `HeaderText.RTrim` | dap/StringUtils.cpp:31 | no blank is left at the end |
| `HeaderText.AtolOfDigits` | dap/JsonRPC.cpp:43 | atol reads a printed length back |
| `HeaderText.AtolIsRead` | dap/JsonRPC.cpp:43 | behind any space, an optional sign and digits are the number, whatever follows |
| `HeaderText.AtolOfNone` | dap/JsonRPC.cpp:43 | without a digit it is zero |
| `Framing.FindSeparator` | dap/JsonRPC.cpp:76-79 | the end of the header section, inside the buffer |
| `HeaderLines.SeparatorIsFirst` | dap/JsonRPC.cpp:76-79 | the separator is found where it stands first, and is found if it stands anywhere |
| `HeaderLines.SplitLine` | dap/StringUtils.cpp:71-87 | one line is split off and trimmed, an empty one dropped |
| `HeaderLines.TrimAround` | dap/StringUtils.cpp:28-33 | the blanks around a text are trimmed, and nothing else |
| `HeaderLines.HeaderIsCut` | dap/JsonRPC.cpp:82-88 | a line is cut at its first colon into name and value, without the blanks around them |
| `HeaderLines.HeadersAreFirst` | dap/JsonRPC.cpp:74-90 | for any list of lines: the headers are exactly the names that occur, each with the value of its first line |
| `Framing.LookAt` | dap/JsonRPC.cpp:14-61 | a frame that is found leaves a shorter buffer |
| `HeaderLines.SectionIsRead` | dap/JsonRPC.cpp:14-61 | what one look finds behind any header section, by the first Content-Length in it: too short, not positive, or the frame |
| `HeaderLines.SectionWithoutLength` | dap/JsonRPC.cpp:33-40 | and behind a section in which no line is named so |
| `HeaderLines.FrameIsFound` | dap/JsonRPC.cpp:14-61 | a frame is found whole wherever its length stands among other headers |
| `Framing.Drain` | dap/JsonRPC.cpp:63-72 | a call never grows the buffer |
| `FramingProofs.LookStays` | dap/JsonRPC.cpp:14-61 | more bytes do not change what one look at the buffer found |
| `FramingProofs.SectionStays` | dap/JsonRPC.cpp:34-39 | a section without a length is kept and found again, whatever arrives |
| `FramingProofs.Stuck` | dap/JsonRPC.cpp:34-47 | for all that may arrive, in any cut: behind a section without a length, or with one that is not positive, nothing is ever delivered; of the first the section is what stays in the buffer, behind the second everything piles up |
| `FramingProofs.EmptySectionIsStuck` | dap/JsonRPC.cpp:34-39 | a section without headers is such a section, whatever follows |
| `FramingProofs.EmptyFrameIsStuck` | dap/JsonRPC.cpp:43-47 | so is a sent frame without a payload |
| `FramingProofs.DrainConserves` | dap/JsonRPC.cpp:63-72 | one call neither loses nor invents a message of the stream |
| `FramingProofs.FeedConserves` | dap/JsonRPC.cpp:63-94 | for every stream and every cut: its messages are those delivered and then those still in the buffer |
| `FramingProofs.DeliveredIsPrefix` | dap/JsonRPC.cpp:63-94 | for every stream and every cut the deliveries are a prefix of what a one-shot decoder yields |
| `FramingProofs.CleanIsDelivered` | dap/JsonRPC.cpp:63-94 | with no message behind a payload that does not parse, any cut delivers all |
| `FramingProofs.CleanLeavesNone` | dap/JsonRPC.cpp:60-71 | one call leaves a message in the buffer exactly when one stands behind a payload that does not parse |
| `FramingProofs.ChunkIndependence` | dap/JsonRPC.cpp:14-94 | all cuts deliver all messages exactly when none stands behind a payload that does not parse |
| `FramingProofs.LeftoverIsTail` | dap/JsonRPC.cpp:14-94 | when every payload parses, the buffer ends, however the stream was cut, as the tail behind the last frame, or as a header section without a length alone, the bytes behind which were dropped |
| `FramingProofs.SentHeader` | dap/JsonRPC.hpp:62-64 | the header that Send writes is read as one header with that length |
| `FramingProofs.SentIsFound` | dap/JsonRPC.hpp:54-67 | a frame that Send wrote is found whole, whatever follows it, if it has a payload |
| `FramingProofs.SentIsDelivered` | dap/JsonRPC.hpp:54-67 | a stream of sent frames whose payloads parse is delivered in full and in order, nothing is left |
| `JsonRpc.SplitLines` | dap/StringUtils.cpp:71-87 | the strtok loop with Trim, for one delimiter |
| `JsonRpc.Framer.constructor` | dap/JsonRPC.cpp:10 | an empty buffer |
| `JsonRpc.Framer.AppendBuffer` | dap/JsonRPC.cpp:94 | the bytes are appended |
| `JsonRpc.Framer.ReadHeaders` | dap/JsonRPC.cpp:74-90 | the headers of the section, the first of a name winning, and its size with the separator, or -1 |
| `JsonRpc.Framer.DoProcessBuffer` | dap/JsonRPC.cpp:14-61 | what one call takes out of the buffer and returns, in each of its cases |
| `JsonRpc.Framer.ProcessBuffer` | dap/JsonRPC.cpp:63-72 | the delivery loop, also with a callback that resets the client; it ends because every delivery shrinks the buffer |
| `JsonRpc.Framer.Receive` | dap/Client.cpp:202-213 | a run of calls, chunk by chunk, is the run that the theorems speak of |
| `JsonRpc.NeverReset` | dap/JsonRPC.cpp:63-72 | without resets a call is Drain |
| `JsonRpc.ResetEndsCall` | dap/JsonRPC.cpp:63-72 | a reset ends the call behind the message that caused it, with an empty buffer |
| `JsonRpc.Send` | dap/JsonRPC.hpp:54-67 | nothing without a connection, else header, separator and payload |
| `JsonAccess.BoolReadsBack` | dap/JSON.cpp:227-233 | a stored boolean reads back exactly when it is true or the default is false |
| `JsonAccess.FindInConcat` | dap/JSON.cpp:97-111 | the first of several members of a name is found |
| `JsonAccess.FindAt` | dap/JSON.cpp:97-111 | a member with no namesake before it is found |
| `Messages.ReadBreakpoints` | dap/dap.cpp:938-945 | the loop reads one breakpoint an element, in order |
| `Messages.ReadFrames` | dap/dap.cpp:1399-1407 | the loop reads one frame an element, in order |
| `Messages.SourceRoundTrip` | dap/dap.cpp:395-416 | a source comes back exactly when its reference is not negative |
| `Messages.StackFrameRoundTrip` | dap/dap.cpp:422-438 | a frame comes back exactly when its source does |
| `Messages.BreakpointRoundTrip` | dap/dap.cpp:887-899 | a breakpoint always comes back |
| `Messages.RequestRoundTrip` | dap/dap.cpp:923-989 | a setBreakpoints request, dispatched by FromJSON, comes back exactly when its source does |
| `Messages.ResponseRoundTrip` | dap/dap.cpp:1386-1408 | a stackTrace response, dispatched by FromJSON, comes back exactly when all its frames do |
| `Messages.MessageRoundTrip` | dap/dap.cpp:142-156 | either message comes back exactly when it holds no negative source reference |
| `MessageReading.DispatchIs` | dap/dap.cpp:142-156 | an object is made exactly for the two types and commands modelled, by the first members of those names |
| `MessageReading.ResponseIsRead` | dap/dap.cpp:1396-1397 | a response with whatever members it has: each field is its first member, or the value of a new object where that is missing or of another type |
| `MessageReading.FramesAreRead` | dap/dap.cpp:1396-1408 | one frame for each element of the body's stackFrames, and none where either is missing |
| `MessageReading.RequestIsRead` | dap/dap.cpp:938-989 | a request, likewise |
| `MessageReading.SourceIsRead` | dap/dap.cpp:411-416 | a source, likewise |
| `MessageReading.FrameIsRead` | dap/dap.cpp:432-438 | a frame, likewise |
| `MessageReading.BreakpointIsRead` | dap/dap.cpp:895-899 | a breakpoint, likewise |
| `MessageReading.TowardZero` | dap/JSON.cpp:211-225 | a number is stored into an int toward zero |
| `MessageReading.ElementsAreRead` | dap/JSON.cpp:235-262 | the elements of an array or object, in order |
| `EndToEnd.PayloadRoundTrip` | dap/dap.cpp:109-156 | printed, parsed and dispatched, a message comes back |
| `EndToEnd.WireRoundTrip` | dap/JsonRPC.hpp:54-67 | any sequence of messages, sent and cut in any way, arrives equal and in order, and nothing is left over |
| `SessionProofs.ValuesWith` | dap/Client.cpp:634 | filing a request under a new number adds that request and no other |
| `SessionProofs.ValuesWithout` | dap/Client.cpp:226-227 | taking a number out removes that request and no other |
| `SessionProofs.FreeKeeps` | dap/Client.cpp:458-461 | Reset moves the requests in flight to the freed ones and keeps the ledger |
| `SessionProofs.FileKeeps` | dap/Client.hpp:184-205 | a request that is made and sent is in flight under its own number |
| `SessionProofs.AbandonKeeps` | dap/Client.cpp:636-640 | a request whose send fails is forgotten, and all others freed |
| `SessionProofs.TakeKeeps` | dap/Client.cpp:221-229 | a request that is handed out was not handed out before |
| `SessionProofs.LedgerKept` | dap/Client.cpp:221-705 | every call and message keeps the ledger |
| `SessionProofs.OpenedGrows` | dap/Client.cpp:244-275 | the first event that is not a log event stays the initialize response |
| `SessionProofs.GateKept` | dap/Client.cpp:236-276 | every call and message keeps the gate |
| `SessionProofs.AskLeaves` | dap/Client.cpp:625-642 | a request that is sent changes only the requests in flight; one that cannot be sent resets |
| `SessionProofs.EventFlagged` | dap/Client.cpp:288-312 | what an event does to CanInteract |
| `SessionProofs.ResponseFlagged` | dap/Client.cpp:314-380 | what a response does to CanInteract and to the callbacks |
| `SessionProofs.FlagsKept` | dap/Client.cpp:288-418 | every call and message keeps CanInteract and the callbacks as stated by SessionRuns |
| `SessionQueues.PendingOldest` | dap/Client.cpp:314-367 | the oldest request of a kind stands in front of the list of its kind |
| `SessionQueues.PendingFiled` | dap/Client.cpp:625-642 | a new request goes to the end of the list of its kind and of no other |
| `SessionQueues.TakeAgrees` | dap/Client.cpp:314-367 | taking the oldest request of a kind shortens its queue and no other |
| `SessionQueues.AskAgrees` | dap/Client.cpp:481-539 | the calls that queue something before they send keep the agreement, sent or not |
| `SessionQueues.ResponseAgrees` | dap/Client.cpp:314-376 | a response in order keeps the agreement |
| `SessionQueues.AgreementKept` | dap/Client.cpp:221-705 | every call, and every message in order, keeps queues and requests in flight in agreement |
| `SessionQueues.ClearAgrees` | dap/Client.cpp:439-462 | Reset leaves nothing to disagree on |
| `SessionQueues.LocatingLocates` | dap/Client.cpp:611-623 | a breakpointLocations call records its file under its own number, and a failed one does no harm |
| `SessionQueues.LocatedKept` | dap/Client.cpp:221-705 | every call and message keeps the record of files right |
| `SessionRuns.RunKeeps` | dap/Client.cpp:221-705 | the invariants hold in every run |
| `SessionRuns.BalancedFates` | dap/Client.cpp:420-462 | a request is in one place if it was created and in none if it was not |
| `SessionRuns.OneFate` | dap/Client.cpp:221-229 | in every run each created request is in flight, handed to one event, freed or forgotten, and just one of these, and no two events carry the same request |
| `SessionRuns.RunAgrees` | dap/Client.cpp:314-367 | in every orderly run the four queues are the arguments of the requests in flight, by number |
| `SessionRuns.AnswerMatches` | dap/Client.cpp:314-367 | while they agree, an event's refId is right exactly when the request it names has the argument of the oldest of its kind |
| `SessionRuns.AnswerNamesRequest` | dap/Client.cpp:314-367 | after every orderly run, a response in order gives an event with the request that request_seq names and that request's own argument |
| `SessionRuns.LocationsNameRequest` | dap/Client.cpp:346-355 | after every run, the event for breakpointLocations carries the file of the request it names, in any order |
| `SessionRuns.OwnResponseTakes` | dap/Client.cpp:247-380 | in any state, a response takes its own request out of flight exactly when the handshake is over and it is of a kind that looks for it |
| `SessionRuns.StepHolds` | dap/Client.cpp:221-705 | a step takes a request out of flight exactly when it is a reset, or a response of a kind that looks for requests and names it; the request is then handed out or freed |
| `SessionRuns.RunSettles` | dap/Client.cpp:221-462 | a request that was handed out or freed stays so |
| `SessionRuns.InFlightUntil` | dap/Client.cpp:221-705 | over every run, a request stays in flight exactly until such a step, and does not come back |
| `SessionRuns.SessionGating` | dap/Client.cpp:236-344 | in every run only log events precede a session's initialize response, and CanInteract is the verdict of the latest message that has one |
| `SessionRuns.CallbacksInTurn` | dap/Client.cpp:390-418 | in every run, the callbacks given in the session are those called and then those that wait, in order, and as many were called as evaluate or source responses found one waiting |
| `SessionRuns.EventsAreDue` | dap/Client.cpp:288-388 | in every run, the events of the session but for logs and the handshake are those due of its messages, one each and in order; the active thread is that of the latest stopped event |
| `SessionSteps.MessageCalls` | dap/Client.cpp:376-418 | a response of that kind calls the first callback that waits, if there is one, and no other message touches the callbacks |
| `SessionSteps.StepCalls` | dap/Client.cpp:390-703 | what every call and message does to the callbacks, on the fields |
| `SessionSteps.CallsAreCounted` | dap/Client.cpp:390-418 | over every run, callbacks called are counted by the responses that found one |
| `SessionSteps.StepReports` | dap/Client.cpp:236-388 | every call and message keeps the events those due |
| `SessionSteps.CallTells` | dap/Client.cpp:625-659 | the events of a call: a lost connection or a log event |
| `SessionSteps.StepFields` | dap/Client.cpp:150-710 | after every call and message: active thread, handshake, connection, logging, feature bit |
| `SessionSteps.ThreadIsLatest` | dap/Client.cpp:425-428 | over every run, the active thread is that of the latest stopped event since a launch or reset |
| `SessionSteps.CallSends` | dap/Client.cpp:465-710 | a call puts the one request it sends in flight, with its command and argument, -1 standing for the active thread |
| `SessionSteps.PlainAnswer` | dap/Client.cpp:357-375 | the responses without a queue fire one event with the request under their number |
| `Client.Client.constructor` | dap/Client.cpp:141-146 | a new client is in the state where the runs start |
| `Client.Client.DeleteAll` | dap/Client.cpp:458-460 | the loop frees each request in flight |
| `Client.Client.Reset` | dap/Client.cpp:439-462 | the whole new state is that of Clear |
| `Client.Client.OnConnectionError` | dap/Client.cpp:194-200 | the event and then Reset |
| `Client.Client.SetTransport` | dap/Client.cpp:150-156 | Reset and then the new transport |
| `Client.Client.GetNextSequence` | dap/Client.hpp:201-205 | the next number |
| `Client.Client.MakeRequest` | dap/Client.hpp:184-190 | a new request with the next number |
| `Client.Client.SendRequest` | dap/Client.cpp:625-642 | in flight when there is a transport, else lost connection and Reset |
| `Client.Client.GetOriginatingRequest` | dap/Client.cpp:221-229 | the request under that number, taken out of flight, or nothing |
| `Client.Client.SendResponse` | dap/Client.cpp:644-659 | sent when there is a transport, else lost connection and Reset |
| `Client.Client.SetWantsLogEvents` | dap/Client.hpp:182 | log events on or off |
| `Client.Client.Initialize` | dap/Client.cpp:465-479 | the new state of the call, the handshake in progress even when the send failed |
| `Client.Client.Launch` | dap/Client.cpp:500-514 | the new state of the call, the active thread forgotten |
| `Client.Client.SetBreakpointsFile` | dap/Client.cpp:481-492 | the new state of the call, the file queued before the send |
| `Client.Client.GetScopes` | dap/Client.cpp:522-528 | the new state of the call, the frame queued before the send |
| `Client.Client.GetFrames` | dap/Client.cpp:530-539 | the new state of the call, the thread or the active one queued before the send |
| `Client.Client.GetChildrenVariables` | dap/Client.cpp:593-602 | the new state of the call, reference and context queued before the send |
| `Client.Client.Next` | dap/Client.cpp:541-559 | the new state of the call |
| `Client.Client.Continue` | dap/Client.cpp:561-567 | the new state of the call |
| `Client.Client.StepIn` | dap/Client.cpp:577-583 | the new state of the call |
| `Client.Client.StepOut` | dap/Client.cpp:585-591 | the new state of the call |
| `Client.Client.Pause` | dap/Client.cpp:604-609 | the new state of the call |
| `Client.Client.ConfigurationDone` | dap/Client.cpp:494-498 | the new state of the call |
| `Client.Client.GetThreads` | dap/Client.cpp:516-520 | the new state of the call |
| `Client.Client.SetFunctionBreakpoints` | dap/Client.cpp:569-575 | the new state of the call |
| `Client.Client.Attach` | dap/Client.cpp:705-710 | the new state of the call |
| `Client.Client.BreakpointLocations` | dap/Client.cpp:611-623 | the new state of the call, the file recorded after the send, whether it failed or not |
| `Client.Client.LoadSource` | dap/Client.cpp:661-675 | the new state of the call, nothing without a positive reference |
| `Client.Client.EvaluateExpression` | dap/Client.cpp:677-703 | the new state of the call, the callback queued before the send |
| `Client.Client.HandleEvaluateResponse` | dap/Client.cpp:390-403 | the first waiting callback is called and taken off, if there is one |
| `Client.Client.HandleSourceResponse` | dap/Client.cpp:405-418 | the first waiting callback is called and taken off, if there is one |
| `Client.Client.SendAnswer` | dap/Client.cpp:420-437 | one event with the request that request_seq names |
| `Client.Client.OnEvent` | dap/Client.cpp:288-312 | the flags and the event, by the event's name |
| `Client.Client.OnStackTrace` | dap/Client.cpp:314-321 | the front of the queue and the named request go into one event |
| `Client.Client.OnScopes` | dap/Client.cpp:323-329 | the same for scopes |
| `Client.Client.OnVariables` | dap/Client.cpp:330-338 | the same for variables |
| `Client.Client.OnSetBreakpoints` | dap/Client.cpp:361-367 | the same for setBreakpoints |
| `Client.Client.OnBreakpointLocations` | dap/Client.cpp:346-355 | the file recorded under the number and the named request go into one event |
| `Client.Client.OnPlainResponse` | dap/Client.cpp:340-380 | the responses without a queue |
| `Client.Client.OnResponse` | dap/Client.cpp:313-381 | the new state for every command |
| `Client.Client.OnHandshake` | dap/Client.cpp:244-276 | before the handshake is over only the initialize response has an effect |
| `Client.Client.OnMessage` | dap/Client.cpp:236-388 | the new state for every message |
| `Client.Client.Do` | dap/Client.cpp:150-710 | every action of the state machine is a call or message of the class |
| `Client.Client.Perform` | dap/Client.cpp:150-710 | any sequence of calls and messages takes the fields through the run of the state machine |
| `Client.RunClient` | dap/Client.cpp:141-710 | after any sequence on a new client, its fields are where the run from the start ends, and all invariants hold of them |
| `ReaderThread.ConservedKept` | dap/Client.cpp:176-189 | every step keeps what Read returned equal to what was dispatched, is posted and is in hand |
| `ReaderThread.OneMore` | dap/Client.cpp:184-187 | a failed read is the last of its session |
| `ReaderThread.OrderedKept` | dap/Client.cpp:176-189 | every step keeps sessions in order and a lost connection last |
| `ReaderThread.InvariantKept` | dap/Client.cpp:160-192 | every step of either side keeps the invariant |
| `ReaderThread.RunsKeep` | dap/Client.cpp:160-213 | every interleaving keeps it |
| `ReaderThread.BytesInOrder` | dap/Client.cpp:160-213 | for every interleaving and session: bytes read are bytes dispatched, then posted ones, then those in hand |
| `ReaderThread.FedKept` | dap/Client.cpp:176-213 | every step keeps the bytes of a session that began with nothing waiting in order up to its framer |
| `ReaderThread.FramerGetsOwnBytes` | dap/Client.cpp:160-213 | for every interleaving, in such a session: bytes read are bytes given to its framer, then posted ones, then those in hand |
| `ReaderThread.DeliveredFromRead` | dap/Client.cpp:160-213 | for every interleaving, in such a session: the messages delivered are a prefix of what a one-shot decoder makes of all that was read |
| `ReaderThread.StaleBytesReachNextFramer` | dap/Client.cpp:202-213 | a run in which the second session's framer is given bytes that were read in the first |
| `ReaderThread.LostIsPostedLast` | dap/Client.cpp:184-187 | for every interleaving a session posts its lost connection at most once and nothing after it |
| `ReaderThread.OneLateRead` | dap/Client.cpp:160-181 | for every interleaving Read returns at most once after the stop, and only a thread with a transport may read |
| `ReaderThread.ReadingGoesOn` | dap/Client.cpp:170-192 | for every interleaving, the thread is over only when it was asked to stop or its connection was lost, and m_terminated is set exactly from a lost connection on |
| `ReaderThread.SessionEnds` | dap/Client.cpp:150-168 | what ends a session starts the next at once or has the event loop wait |
| `ReaderThread.SessionStarts` | dap/Client.cpp:150-168 | the join starts the next session, with a thread exactly if there is a transport |
| `ReaderThread.StopsSoon` | dap/Client.cpp:160-181 | each step of a thread that was asked to stop brings its end closer |
| `ReaderThread.JoinEnds` | dap/Client.cpp:160-168 | while the event loop waits the thread can move until it is over, and is over after three steps |
| `ReaderThread.OwnEventsKept` | dap/Client.cpp:150-156 | a session that has only its own events waiting hands on to one of which this is true exactly when nothing is waiting |
| `ReaderThread.StaleLossEndsNextSession` | dap/Client.cpp:194-200 | a run in which a connection lost in the first session ends the second |
| `Argv.Tokenize` | dap/StringUtils.cpp:125-244 | the five-state loop finds the tokens of the recursive grammar, an escape always with a quotation saved and every other state with none |
| `Argv.StepNormal` | dap/StringUtils.cpp:133-157 | a step outside quotes keeps the tokens to come |
| `Argv.StepQuoted` | dap/StringUtils.cpp:194-241 | a step inside quotes keeps the tokens to come |
| `Argv.StepEscape` | dap/StringUtils.cpp:158-193 | a step behind a backslash keeps the tokens to come |
| `Argv.QuotationKeeps` | dap/StringUtils.cpp:158-241 | a quotation adds its characters but for the backslashes that are dropped |
| `Argv.TokensKeep` | dap/StringUtils.cpp:125-248 | put together, the tokens are the input without blanks outside quotes, backslashes that escape the closing quote, and a last dangling one |
| `Argv.TokensAreWhole` | dap/StringUtils.cpp:105-111 | no token is empty, and none holds a terminator that was not in the input |
| `Argv.BuildArgv` | dap/StringUtils.cpp:263-280 | the tokens as C strings, each without its double quotes |
| `Argv.JoinCommand` | dap/Client.cpp:86-91 | the loop joins the quoted arguments, a space behind each |
| `Argv.CompleteIsEven` | dap/StringUtils.cpp:194-209 | every backslash has a character to escape exactly when the run at the end is even |
| `Argv.QuotedRun` | dap/StringUtils.cpp:194-209 | what a quotation around a text without double quotes takes in, with an even and with an odd run of backslashes at its end |
| `Argv.SafeIsRead` | dap/StringUtils.cpp:342-354 | a safe argument is read back in front of any rest |
| `Argv.OpenIsToken` | dap/StringUtils.cpp:194-209 | with an odd run the argument takes in what follows it |
| `Argv.FirstIsReadable` | dap/StringUtils.cpp:263-280 | an argument that is not safe is not what its first token is read as |
| `Argv.ListRoundTrip` | dap/StringUtils.cpp:125-354 | the list that was quoted and joined comes back exactly when every argument is safe |
| `ArgvGrammar.SegmentIsRead` | dap/StringUtils.cpp:131-244 | a character, a quotation in any of the three quotes, or one that the text ends in adds its meaning to the token |
| `ArgvGrammar.LineIsRead` | dap/StringUtils.cpp:125-248 | the tokens of a line are the meanings of its words, in order |
| `ArgvGrammar.LineFound` | dap/StringUtils.cpp:125-248 | every command line is made of such words and blanks |
| `ArgvGrammar.LineIsArgv` | dap/StringUtils.cpp:263-280 | one argument for each word: its meaning, without the pair of double quotes it may begin and end with |
| `ArgvGrammar.QuotedIsStripped` | dap/StringUtils.cpp:273-279 | an argument in double quotes is read without them, spaces or not |
| `ArgvScan.OutsideOutcome` | dap/StringUtils.cpp:125-248 | what the tokenizer makes of any text and a space: one token that is the text exactly when the scan drops nothing and ends outside quotes |
| `ArgvScan.WithinOutcome` | dap/StringUtils.cpp:194-241 | the same from between quotes |
| `ArgvScan.ScannedIsRead` | dap/StringUtils.cpp:263-354 | an argument that scans is read back in front of any rest, with quotes of any kind in it |
| `ArgvScan.FirstIsScanned` | dap/StringUtils.cpp:263-354 | an argument that does not scan is not what its first token is read as |
| `ArgvScan.ScannedRoundTrip` | dap/StringUtils.cpp:125-354 | any list without arguments that are empty or only tabs comes back exactly when every argument scans |
| `ArgvScan.VisibleIsRead` | dap/StringUtils.cpp:125-354 | of a list of arguments that scan or are empty or only tabs, those that scan are read |
| `ArgvScan.ScansIsSafe` | dap/StringUtils.cpp:125-354 | where `Argv.ListRoundTrip` applies, to scan is to be safe |
| `ArgvScan.BlankCanReturn` | dap/StringUtils.cpp:125-354 | a list with an empty argument that comes back because another does not scan |
| `JsonHandle.Leaving` | dap/JSON.cpp:40-51 | what remains when a handle has given up its count, last or not, with a tree or without |
| `JsonHandle.Joining` | dap/JSON.cpp:53-58 | one more handle that shares or only points |
| `JsonHandle.Managing` | dap/JSON.cpp:60-66 | the first handle on a new tree, or on none |
| `JsonHandle.GivenAway` | dap/JSON.cpp:68-74 | deleting the counter of a tree that was given away keeps the accounts right exactly when no other handle shared it |
| `JsonHandle.LiveIsHeld` | dap/JSON.cpp:40-51 | allocated are the trees and counters of managed handles and nothing else |
| `JsonHandle.Memory.IncRef` | dap/JSON.cpp:53-58 | one more, if there is a counter |
| `JsonHandle.Memory.DecRef` | dap/JSON.cpp:40-51 | one less; at zero the tree, if there is one, and the counter are freed and the handle is empty |
| `JsonHandle.Memory.Delete` | dap/JSON.cpp:156-163 | the tree, if there is one, is freed and forgotten |
| `JsonHandle.Memory.Manage` | dap/JSON.cpp:60-66 | a counter of one; a handle that is managed already is left alone |
| `JsonHandle.Memory.Assign` | dap/JSON.cpp:76-87 | the handle is a copy of the other, itself included, and a tree goes exactly when its last handle is turned away from it |
| `JsonHandle.Memory.Copy` | dap/JSON.cpp:89 | one more handle and no tree lost |
| `JsonHandle.Memory.Destroy` | dap/JSON.cpp:91-95 | a tree goes exactly with its last handle |
| `JsonHandle.Memory.Borrow` | dap/JSON.cpp:35-38 | a handle that only points counts for nothing |
| `JsonHandle.Memory.Create` | dap/JSON.cpp:142-154 | a new tree with one handle |
| `JsonHandle.Memory.Parse` | dap/JSON.cpp:314-319 | one handle with a counter of its own, on the new tree or, for a rejected text, on none |
| `JsonHandle.Memory.AssignRejected` | dap/JsonRPC.cpp:60-71 | when the delivery loop assigns what a rejected payload gives, the message before goes with its last handle and nothing is left behind |
| `JsonHandle.Memory.UnManage` | dap/JSON.cpp:68-74 | the counter is deleted, whoever shares it |
| `JsonHandle.Memory.AddObject` | dap/JSON.cpp:263-274 | a managed tree becomes the parent's; the accounts of the other handles stay right exactly when none shared it |

## Left out

- Floating point: numbers are exact reals in the parser and 32-bit integers in the printer; `%e`, `%f` and rounding are not modelled, and neither are numbers that do not fit an int.
- malloc failure and malloc(0), the global error pointer and the allocation hooks: allocation succeeds.
- JsonRoundTrip.PrintedIsRead: values whose numbers are not 32-bit integers, or whose strings hold a terminator, are outside.
- StringCodec.ReadString: escapes cut short are outside; the code reads past the terminator or an unset variable there; the grammar says `Unspecified` and no claim is made.
- The width of int, long and size_t in lengths, counters and `atol`.
- Characters: wxString encodings and locale; text is bytes, and `tolower` and `isspace` are those of the C locale.
- Printing of references and the temporary buffers of the printer, which are not in the allocator's accounts; the printer's two counting loops over the children are the lengths of the lists it collects.
- DomEdit.Append: the mutators are stated for the tree whose top is the edited container; a container deep inside a tree is edited as a tree of its own.
- DomNames.AddItemReferenceToArray: a reference and the tree it points into are kept apart by the caller, as the code has it; the ByObject variant adds nothing to it.
- JsonNodes.Lookup: entries of arrays, which have no names, and `operator[]` by index, are modelled by value only.
- JsonRpc.Framer.Receive: messages are delivered to a callback that may reset the client, and does nothing else to the framer.
- JsonHandle.Memory.Assign: borrowed handles are not tracked, so nothing is claimed about a handle that is assigned a child of the very tree it is the last to hold. Handles live in maps from addresses, because the proof on objects was too costly; a tree is its root.
- JsonHandle.Memory.AddObject: that the tree given away is linked into the parent's is stated by `JsonNodes.AddMember`, on nodes, and not here; `Add` of a handle to an array does the same to the counter.
- Session: event handlers and callbacks that call the client again while it is at work.
- Session: the order of answers is the adapter's; where it does not keep it, SessionRuns.AnswerMatches says what happens.
- Client.Client.SendRequest: a transport that fails to write returns 0 and the code does not look; only a missing transport is a failure.
- Client.Client.Initialize: the arguments of requests that play no part in correlation.
- Feature bits other than breakpoint locations; the seq in responses the client sends; logging text.
- ReaderThread: what Read does inside, sockets, pipes, processes and wxWidgets event delivery; Read gives bytes, nothing or an error.
- The other message classes of `dap/dap.cpp`; some of them knowingly do not come back, for instance BreakpointLocation, which reads `line` from another key (`dap/dap.cpp:786`).
- `refId` and `context` are not serialized and are not part of the messages.
- Argv.ListRoundTrip: arguments that hold a double quote, or another quote and no space, are outside; ArgvScan.ScannedRoundTrip has them.
- ArgvScan.ScannedRoundTrip: lists that hold both an empty argument, or one of only tabs, and an argument with quotes that does not scan are outside; no condition on the single arguments settles them (ArgvScan.BlankCanReturn).
- Slash conversion, `ConnectionString`, `Queue`: easy members.

# Verified model of ser2mqtt's JSON and Modbus code and of quectel_cm_5G's multiplexers

This project models two programs in Dafny and proves what they are for.

`ser2mqtt` carries a copy of cJSON and a Modbus RTU frame check. The model covers the printer over its
growing buffer, the recursive parser with its two-pass string decoder, minifying in place, comparison,
duplication, and the doubly linked child lists; and the bitwise CRC-16 with its error-detection
guarantees for frames of any length.

`quectel_cm_5G` lets many clients share one modem. The model covers the three proxies, each with its own
discipline (QMI: a FIFO of control requests; MBIM: transaction ids tagged with a slot; QRTR: two id
tables and routing by port), the QMI TLV composer and reader, the matching of responses to requests
across timeouts, the AT line reader, and the intrusive lists of `qlist.h`.

Code that changes buffers, tables and nodes in place is imperative Dafny: arrays and classes with the
fields of the source, proved against functions that say what each step does; the lemmas are about those
functions, over every input, every run or every reachable state. Comparison, which only reads, is a
function.

| file | subject |
|---|---|
| `Bytes.dfy`, `JsonTree.dfy`, `JsonText.dfy` | bytes and C strings, JSON trees, the text of a tree |
| `JsonPrint.dfy` | printing into a fixed or growing buffer |
| `JsonString.dfy`, `JsonNumber.dfy`, `JsonParse.dfy` | parsing |
| `JsonEscapes.dfy`, `JsonNumberGrammar.dfy` | the tables of the escapes; numbers as the standard writes them |
| `JsonGrammar.dfy`, `JsonDocuments.dfy`, `JsonErrors.dfy` | JSON texts with any blanks: what parses, to what, and where it fails |
| `JsonRoundTrip.dfy`, `JsonPipeline.dfy` | parse undoes print; laws across operations |
| `JsonLayout.dfy` | the print as a JSON text with its line breaks and tabs |
| `JsonMinify.dfy`, `JsonMinifyLaws.dfy` | minifying in place |
| `JsonMinifyDocuments.dfy` | what minifying drops and keeps |
| `JsonCompare.dfy`, `ChildList.dfy` | comparison and duplication; child lists |
| `Modbus.dfy`, `ModbusPeriod.dfy` | CRC and frame check; the distance of undetected errors |
| `QList.dfy` | circular lists |
| `QrtrProxy.dfy`, `QrtrLaws.dfy`, `QrtrAnswers.dfy` | the QRTR proxy |
| `QmiProxy.dfy`, `QmiProxyLaws.dfy`, `QmiProxyPackets.dfy` | the QMI proxy |
| `MbimProxy.dfy`, `MbimIds.dfy` | the MBIM proxy and the ids of its client |
| `QmiTlv.dfy`, `QmiMatch.dfy` | TLVs; matching responses |
| `AtReader.dfy`, `AtCommand.dfy` | AT lines and responses |

`dafny verify dfyconfig.toml` checks everything.

## What the code does not promise

Where a property that one would expect is false, the model keeps the code as it is, names an input for
which it fails, and proves a condition under which it holds; the condition is exact unless the bullet
says otherwise.

- Minifying takes `\\"` for an escaped quote. `MinifyOfFormatted` gives the exact trees for which
  minifying the formatted print is the unformatted print; `BackslashExample` is one for which it is not.
- A number of more than 63 characters is cut: `NumeralIsRead` says exactly which ones are read whole. A
  byte order mark is skipped only in texts of more than four bytes: `OpenTextParses`.
- A unit of an escape whose characters are no hexadecimal digits is taken for U+0000 and cuts the string
  instead of failing: `NonHexEndsString`, and `NonHexIsZero` for when it is certainly read (one way: a
  quote or backslash among those characters shifts what follows).
- Comparison is not reflexive on objects in which members of one name differ: `CompareIsEquality`,
  `RepeatedNameExample`. The code answers true at once for one and the same item:
  `CompareItemIsEquality` covers both cases.
- The QRTR allocators fall out of step at the 240th live client: `AllocateKeepsLockstep`,
  `AllocationWhenFull`. The byte table keeps an id exactly if it is below 256 (`BytesKeepIds`), and a run
  of 256 requests reaches the first port that it loses (`PortTableLosesIds`).
- The QMI proxy's queue and the modem come apart when a connection closes whose request is the head, or
  which has more than one request queued: `HangupIsHarmless`, `HangupMisdirectsTheAnswer`.
- The MBIM client's counter leaves its range exactly when a request composed at the wrap never reaches
  the check: `IdsStayInRange`.
- Responses are matched to callers only while one request is made at a time; every overlap can mix them
  up: `OverlapMixesUp`, `StartIsSafe`, `TwoCallersMixUp`.
- The overflow restart in `readline` is not reached by an orderly stream and is not a separate case here.
  The CDMA profile index branch of `WdsStartNwInterfaceReq` (QMIThread.c:263-266) is dead code and is
  not modelled.

## Model

| member | source | states |
|---|---|---|
| `Modbus.CalculateCrc16` | ser2mqtt/src/modbus.c:5-20 | the array loops compute the CRC fold of the first `length` bytes from 0xFFFF |
| `Modbus.CheckModbusRtuFormat` | ser2mqtt/src/modbus.c:23-54 | returns 0 exactly for frames of at least four bytes with a legal function code whose CRC register, run over the whole frame including the stored CRC, ends at zero; otherwise -1 |
| `Modbus.StoredCrcMatches` | ser2mqtt/src/modbus.c:44-53 | the register over a whole frame is zero if and only if the last two bytes are the CRC of the rest, low byte first |
| `Modbus.AppendedCrcIsAccepted` | ser2mqtt/src/modbus.c:23-54 | a frame with a legal function code is accepted if and only if its sender appended the CRC, low byte first |
| `Modbus.CrcStartsWithOnes` | ser2mqtt/src/modbus.c:5-20 | the register is what sixteen ones become when the bits of the message are fed into them, lowest bit of each byte first |
| `Modbus.AcceptedMeans` | ser2mqtt/src/modbus.c:23-54 | a frame is accepted if and only if it has four bytes, one of the function codes 1 to 6, 15 and 16, and its bits, CRC included, take sixteen ones to sixteen zeros |
| `Modbus.StandardRequestIsAccepted` | ser2mqtt/src/modbus.c:23-54 | the read request 01 03 00 00 00 0A C5 CD is accepted |
| `Modbus.CheckValue` | ser2mqtt/src/modbus.c:5-20 | the CRC of the nine characters 123456789 is 0x4B37, the published check value of CRC-16/MODBUS |
| `Modbus.CrcIsFeed` | ser2mqtt/src/modbus.c:5-20 | the word-wise register equals a bit-serial feedback shift register fed the message in transmission order |
| `Modbus.FeedToZero` | ser2mqtt/src/modbus.c:5-20 | feeding at most sixteen bits brings the register to zero exactly if it held those bits |
| `Modbus.BurstIsRejected` | ser2mqtt/src/modbus.c:23-54 | an accepted frame of any length that is changed only inside some window of sixteen consecutive bits is rejected |
| `Modbus.TwoByteCorruptionIsRejected` | ser2mqtt/src/modbus.c:23-54 | an accepted frame changed in two neighbouring bytes only is rejected |
| `Modbus.OddErrorIsRejected` | ser2mqtt/src/modbus.c:23-54 | an accepted frame with an odd number of flipped bits, anywhere, is rejected |
| `ModbusPeriod.PeriodIs` | ser2mqtt/src/modbus.c:5-20 | the powers of x modulo the generator of the CRC, which are what zero bits do to the register, repeat exactly after multiples of 32767 |
| `ModbusPeriod.TwoBitErrors` | ser2mqtt/src/modbus.c:23-54 | two flipped bits of an accepted frame are missed by the CRC if and only if their distance is a multiple of 32767 bits |
| `ModbusPeriod.ThreeBitErrorsAreRejected` | ser2mqtt/src/modbus.c:23-54 | an accepted frame of at most 32767 bits with one, two or three flipped bits, anywhere, is rejected |
| `JsonPrint.PrintBuffer.Ensure` | ser2mqtt/src/cJSON.c:458-541 | succeeds if and only if offset, needed bytes and one more fit the limit (the buffer, or INT_MAX when it may grow); grows to twice the need or INT_MAX; keeps everything written; an offset outside the buffer is refused |
| `JsonPrint.PrintBuffer.Reallocate` | ser2mqtt/src/cJSON.c:508-537 | a fresh larger buffer with the whole old contents at its front |
| `JsonPrint.PrintBuffer.UpdateOffset` | ser2mqtt/src/cJSON.c:544-554 | the walk to the NUL ends exactly behind the text just written |
| `JsonPrint.PrintBuffer.PrintNumber` | ser2mqtt/src/cJSON.c:564-631 | an int32 number is rendered in decimal, in exactly the space its text needs plus two |
| `JsonPrint.PrintBuffer.PrintStringPtr` | ser2mqtt/src/cJSON.c:922-1041 | the quoted, escaped string, two quotes for NULL, is written if and only if it, its NUL and one spare byte fit; counting and writing agree |
| `JsonPrint.CountEscapes` | ser2mqtt/src/cJSON.c:949-973 | the counting pass gives exactly the bytes that escaping adds |
| `JsonPrint.PrintBuffer.PrintValue` | ser2mqtt/src/cJSON.c:1391-1462 | any tree: success if and only if text, NUL and one spare byte fit, and then the text stands behind what was written before |
| `JsonPrint.PrintBuffer.PrintArray` | ser2mqtt/src/cJSON.c:1563-1622 | the same for arrays, the depth counter restored |
| `JsonPrint.PrintBuffer.PrintObject` | ser2mqtt/src/cJSON.c:1743-1854 | the same for objects, formatted or not, the depth counter restored |
| `JsonPrint.PrintPreallocated` | ser2mqtt/src/cJSON.c:1316-1333 | succeeds if and only if the buffer holds the text and two more bytes; the buffer then starts with exactly the text and a NUL |
| `JsonPrint.PrintBuffered` | ser2mqtt/src/cJSON.c:1285-1314 | the same text for every starting capacity; fails only for a negative one or a text that INT_MAX bytes cannot hold |
| `JsonPrint.Print` | ser2mqtt/src/cJSON.c:1207-1272 | the result is exactly the text and its NUL |
| `JsonString.ParseHex4` | ser2mqtt/src/cJSON.c:634-667 | four hex digits of either case, or 0 if one of them is not a digit |
| `JsonString.Utf16LiteralToUtf8` | ser2mqtt/src/cJSON.c:671-789 | the escape or surrogate pair is turned into the bytes of its UTF-8 encoding; length 0 for exactly the rejected escapes |
| `JsonString.EncodeUtf8` | ser2mqtt/src/cJSON.c:741-779 | the shifting loop writes the UTF-8 encoding of the code point |
| `JsonString.SizeString` | ser2mqtt/src/cJSON.c:804-830 | the first pass finds the closing quote and counts the escapes on its own boundaries |
| `JsonString.DecodeString` | ser2mqtt/src/cJSON.c:838-893 | on every input the second pass stays inside the buffer that the first pass sized and leaves a place for the NUL, also when a non-hex escape shifts the boundaries; its bytes are those of the specification |
| `JsonString.LiteralFits` | ser2mqtt/src/cJSON.c:671-789 | one decoded escape never writes more bytes than the first pass set aside for the characters it takes |
| `JsonString.RoomAt` | ser2mqtt/src/cJSON.c:804-836 | the allowance of the first pass up to any point bounds what the second pass may have written there |
| `JsonString.MeaningParses` | ser2mqtt/src/cJSON.c:792-919 | a literal of plain bytes, two-character escapes, units and surrogate pairs, mixed in any order, parses to the C string of what its pieces stand for, and the offset stops behind the closing quote |
| `JsonString.EscapesDecode` | ser2mqtt/src/cJSON.c:792-919 | Unicode text, each scalar value as raw UTF-8, as a two-character escape, as a unit or as a surrogate pair, parses to its UTF-8 encoding (up to an escaped U+0000), which decodes back to the same values |
| `JsonString.GrammarDecides` | ser2mqtt/src/cJSON.c:792-919 | every string literal of the grammar (section 7 of RFC 8259) parses if and only if all its surrogates are paired, and then to what it stands for |
| `JsonString.Utf8RoundTrip` | ser2mqtt/src/cJSON.c:741-779 | an independent UTF-8 decoder (section 3 of RFC 3629) reads back every sequence of scalar values |
| `JsonString.SurrogateRejected` | ser2mqtt/src/cJSON.c:682-734 | after any text, escapes or not, that stands for something, a lone or mis-paired surrogate makes the whole string fail, whatever follows: at the surrogate, or behind the first quote if no quote closes the string |
| `JsonEscapes.EscapeTable` | ser2mqtt/src/cJSON.c:991-1034 | each byte is printed as section 7 of RFC 8259 writes it: the seven two-character escapes, a unit for the other control characters, itself otherwise |
| `JsonEscapes.SimpleTable` | ser2mqtt/src/cJSON.c:856-877 | the two-character escapes that are read, and the byte each one stands for |
| `JsonEscapes.HexTable` | ser2mqtt/src/cJSON.c:634-667 | the hexadecimal digits of both cases, and no other byte, have the values 0 to 15 |
| `JsonEscapes.UnitValue` | ser2mqtt/src/cJSON.c:634-667 | four digits of either case are read highest first |
| `JsonEscapes.PairsAre` | ser2mqtt/src/cJSON.c:688-739 | the surrogate ranges, and the one pair for each code point above 0xFFFF |
| `JsonEscapes.UnknownEscapeRejected` | ser2mqtt/src/cJSON.c:856-890 | after any text that stands for something, a backslash in front of another character fails there, or behind the first quote if no quote closes the string |
| `JsonEscapes.NonHexEndsString` | ser2mqtt/src/cJSON.c:634-667 | a unit of other characters than hexadecimal digits ends the C string where it stands, if the string is read at all |
| `JsonEscapes.NonHexIsZero` | ser2mqtt/src/cJSON.c:671-779 | it is read, and the offset stops behind the closing quote, when plain characters stand in the unit and a text that stands for something follows it |
| `JsonEscapes.UnclosedRejected` | ser2mqtt/src/cJSON.c:804-824 | a literal that is not closed fails behind its first quote; what begins with no quote is no string |
| `JsonNumber.CopyNumber` | ser2mqtt/src/cJSON.c:320-354 | the characters handed to strtod are the longest run of number characters, at most 63 |
| `JsonNumber.StrtodOfInt` | ser2mqtt/src/cJSON.c:307-381 | a printed integer is read back as its own value, to its last character |
| `JsonNumber.ParseNumberReadsBack` | ser2mqtt/src/cJSON.c:307-381 | a printed int32 followed by anything but a number character is read back exactly |
| `JsonNumberGrammar.StrtodStops` | ser2mqtt/src/cJSON.c:307-381 | a numeral (section 6 of RFC 8259), whatever follows that does not make it longer, is read to its last character and gives what its digits, fraction and power of ten are worth |
| `JsonNumberGrammar.NumeralIsRead` | ser2mqtt/src/cJSON.c:307-381 | in a text a numeral is read as what it is worth, and to its end, if and only if it is no longer than 63 characters |
| `JsonNumberGrammar.BarePoint` | ser2mqtt/src/cJSON.c:307-381 | a point without digits behind it is read as part of the number |
| `JsonNumberGrammar.BareMinus` | ser2mqtt/src/cJSON.c:307-381 | a minus in front of neither a digit nor a point and a digit is no number |
| `JsonNumberGrammar.PrintedInteger` | ser2mqtt/src/cJSON.c:564-631 | a number is printed as a numeral of its sign and its decimal digits, without superfluous zeros |
| `JsonParse.Value` | ser2mqtt/src/cJSON.c:1336-1388 | a successful parse moves the offset strictly forward and no parse moves it past the end; the recursion terminates on every input |
| `JsonParse.Skip` | ser2mqtt/src/cJSON.c:1058-1081 | the offset never passes the end, and stays before it if it was before it, despite the step back |
| `JsonParse.ParseBuffer.SkipWhitespace` | ser2mqtt/src/cJSON.c:1058-1081 | the loop and its step back reach the specified offset |
| `JsonParse.ParseBuffer.ParseString` | ser2mqtt/src/cJSON.c:792-919 | both passes together leave the C string and the offset of the specification, or the offset of the failure |
| `JsonParse.ParseBuffer.ParseValue` | ser2mqtt/src/cJSON.c:1336-1388 | value, offset and failure offset are those of the specification; the depth is restored on success and never above 1000 |
| `JsonParse.ParseBuffer.ParseArray` | ser2mqtt/src/cJSON.c:1465-1560 | the same for arrays, including `offset--` and the loop over elements |
| `JsonParse.ParseBuffer.ParseObject` | ser2mqtt/src/cJSON.c:1625-1740 | the same for objects, with keys and colons |
| `JsonParse.ParseWithLengthOpts` | ser2mqtt/src/cJSON.c:1115-1192 | byte order mark, value, and the check for the terminating NUL give the specified tree and end, or error position |
| `JsonGrammar.StandingParses` | ser2mqtt/src/cJSON.c:1336-1740 | a document that stands in a buffer, with any bytes up to 32 before and after every token, parses to its tree and stops at its end if and only if its containers fit in the depth that is left |
| `JsonGrammar.ValueIsDocument` | ser2mqtt/src/cJSON.c:1336-1740 | parsing succeeds exactly where such a document stands whose containers fit, with that tree and that end |
| `JsonDocuments.TextParses` | ser2mqtt/src/cJSON.c:1084-1192 | every JSON text (RFC 8259), written out with any blanks between its tokens, with or without a byte order mark, parses to its tree and to the terminating NUL if and only if at most 1000 containers are nested |
| `JsonDocuments.OpenTextParses` | ser2mqtt/src/cJSON.c:1084-1192 | without the demand for a NUL the offset stops behind the value; a byte order mark is skipped only in texts of more than four bytes |
| `JsonDocuments.ParseIsDocument` | ser2mqtt/src/cJSON.c:1115-1192 | a whole text parses exactly if behind an optional byte order mark and blanks a document stands that nests at most 1000 deep and has nothing but blanks between itself and a NUL at the very end |
| `JsonErrors.NoValueBegins` | ser2mqtt/src/cJSON.c:1336-1388 | where no value begins, parsing fails at that place |
| `JsonErrors.TooDeep` | ser2mqtt/src/cJSON.c:1465-1650 | the bracket of the 1001st open container fails at itself |
| `JsonErrors.BadLeaf` | ser2mqtt/src/cJSON.c:1336-1388 | a broken string fails where its literal does, a broken number where it begins |
| `JsonErrors.ArrayStops` | ser2mqtt/src/cJSON.c:1465-1560 | an array fails at the first byte behind its elements that is neither comma nor bracket, or where the next element fails |
| `JsonErrors.ObjectStops` | ser2mqtt/src/cJSON.c:1625-1740 | an object fails where its next key, its missing colon or its next value does, or at the first byte behind a member that is neither comma nor brace |
| `JsonErrors.ErrorPosition` | ser2mqtt/src/cJSON.c:1166-1192 | the error position of a text is the place of that failure or the first byte of garbage, moved back to the last byte if it lies behind it |
| `JsonRoundTrip.StringReadsBack` | ser2mqtt/src/cJSON.c:792-919 | a printed string anywhere in a buffer parses to the string that was printed |
| `JsonRoundTrip.ValueReadsBack` | ser2mqtt/src/cJSON.c:1336-1388 | a printed tree anywhere in a buffer, at any depth, parses to the same tree and stops right after its text if the nesting fits, and fails if it does not |
| `JsonRoundTrip.ParseUndoesPrint` | ser2mqtt/src/cJSON.c:1115-1192 | for every tree of null, booleans, int32 numbers, C strings, arrays and objects: parsing its formatted or unformatted print gives an equal tree and stops at the terminating NUL if and only if at most 1000 containers are nested (RFC 8259, sections 2 to 7) |
| `JsonLayout.TextIsLaidOut` | ser2mqtt/src/cJSON.c:1391-1854 | either print of a tree is the document whose members each stand on a line of their own behind as many tabs as they are deep, with a tab behind the colon and a space behind the commas of arrays, or the document without any blanks |
| `JsonLayout.LayoutIsJson` | ser2mqtt/src/cJSON.c:1391-1854 | that document is a JSON text (RFC 8259) for that tree |
| `JsonPipeline.ValueNesting` | ser2mqtt/src/cJSON.c:1336-1388 | whatever the input, depth plus the nesting of what was parsed is at most 1000 |
| `JsonPipeline.ParsedTreesDuplicate` | ser2mqtt/src/cJSON.c:2747-2831 | every tree that was parsed can be duplicated, and the duplicate stands for the same value |
| `JsonPipeline.ReparsedComparesEqual` | ser2mqtt/src/cJSON.c:3030-3153 | what is parsed back from either print compares equal to the original exactly when members that share a name have the same value |
| `JsonMinify.SkipOnelineComment` | ser2mqtt/src/cJSON.c:2833-2844 | reading resumes behind the newline that ends the comment |
| `JsonMinify.SkipMultilineComment` | ser2mqtt/src/cJSON.c:2846-2858 | reading resumes behind the star and slash that end the comment |
| `JsonMinify.MinifyString` | ser2mqtt/src/cJSON.c:2860-2880 | a string is copied down with its quotes; the write position stays at or before the read position and nothing unread changes |
| `JsonMinify.Minify` | ser2mqtt/src/cJSON.c:2882-2928 | the buffer ends up with the minified text and a NUL; writing never overtakes reading, and nothing behind the old NUL changes |
| `JsonMinifyLaws.Idempotent` | ser2mqtt/src/cJSON.c:2882-2928 | minifying twice equals minifying once, on every input |
| `JsonMinifyLaws.MinifyOfFormatted` | ser2mqtt/src/cJSON.c:2860-2928 | minifying the formatted print gives the unformatted print if and only if every string or key that ends in a backslash is followed by nothing but closing brackets |
| `JsonMinifyLaws.MinifyOfClean` | ser2mqtt/src/cJSON.c:2860-2928 | in particular whenever no string and no key ends in a backslash |
| `JsonMinifyLaws.BackslashExample` | ser2mqtt/src/cJSON.c:2860-2880 | a concrete array for which the two prints differ after minifying |
| `JsonMinifyDocuments.MinifyLeavesTokens` | ser2mqtt/src/cJSON.c:2882-2928 | every document, with any blanks, line comments and block comments between its tokens, minifies to its tokens, if no string literal ends in a backslash |
| `JsonMinifyDocuments.GapIsDropped` | ser2mqtt/src/cJSON.c:2833-2928 | any run of spaces, tabs, line breaks and comments is dropped, whatever follows |
| `JsonMinifyDocuments.OpenComments` | ser2mqtt/src/cJSON.c:2833-2858 | a comment that is not ended takes the rest of the text with it |
| `JsonMinifyDocuments.LoneSlash` | ser2mqtt/src/cJSON.c:2901-2912 | a slash that begins no comment is dropped alone |
| `JsonMinifyDocuments.TokenIsKept` | ser2mqtt/src/cJSON.c:2860-2928 | plain text and string literals are kept, whatever follows, if the literal does not end in a backslash |
| `JsonMinifyDocuments.OtherBytesAreKept` | ser2mqtt/src/cJSON.c:2918-2922 | every byte but the four blanks, the slash and the quote is kept |
| `JsonMinifyDocuments.OpenStringIsKept` | ser2mqtt/src/cJSON.c:2860-2880 | a string that is not closed is kept to the end |
| `JsonCompare.Find` | ser2mqtt/src/cJSON.c:1909-1939 | the first member whose key is the same C string, and None only if there is none |
| `JsonCompare.Int32Compare` | ser2mqtt/src/cJSON.c:557-561 | on int32 numbers the epsilon comparison is equality |
| `JsonCompare.FindDenotes` | ser2mqtt/src/cJSON.c:1909-1939 | lookup finds exactly the names in the map an object stands for, with the mapped value |
| `JsonCompare.CompareIsEquality` | ser2mqtt/src/cJSON.c:3030-3153 | on all trees with int32 numbers: true if and only if both stand for the same value (lists for arrays, maps for objects) and, in each object, members that share a name have the same value |
| `JsonCompare.DistinctCompareIsEquality` | ser2mqtt/src/cJSON.c:3030-3153 | with pairwise distinct keys: equality of values |
| `JsonCompare.CompareIsEquivalence` | ser2mqtt/src/cJSON.c:3030-3153 | symmetric and transitive on all trees with int32 numbers, reflexive exactly on those without conflicting members |
| `JsonCompare.RepeatedNameExample` | ser2mqtt/src/cJSON.c:3104-3142 | an object with conflicting members does not compare equal to a copy of itself |
| `JsonCompare.OrderIsIrrelevant` | ser2mqtt/src/cJSON.c:3104-3142 | objects that list the same members in any order, repeated or not, compare equal, unless members that share a name differ |
| `JsonCompare.CompareItemIsEquality` | ser2mqtt/src/cJSON.c:3030-3153 | with the answer for identical pointers: true if and only if both stand for the same value and, in two different items, members that share a name agree |
| `JsonCompare.DuplicateMeans` | ser2mqtt/src/cJSON.c:2747-2831 | a duplicate exists exactly when no item lies deeper than 10000, and stands for the same value |
| `JsonCompare.DuplicateIsSame` | ser2mqtt/src/cJSON.c:2747-2831 | within that limit a recursive duplicate has the same items in the same order, and any other is the item without its children |
| `JsonCompare.EpsilonIs` | ser2mqtt/src/cJSON.c:557-561 | two numbers compare equal exactly if they lie within 2 to the power -52 of one of them |
| `JsonCompare.DuplicateComparesEqual` | ser2mqtt/src/cJSON.c:2747-2831 | a tree compares equal to its recursive duplicate exactly when it compares equal to any copy of itself |
| `ChildList.Item.GetItem` | ser2mqtt/src/cJSON.c:1880-1897 | the child at the index, or NULL past the end |
| `ChildList.Item.Size` | ser2mqtt/src/cJSON.c:1857-1878 | the number of children |
| `ChildList.Item.Append` | ser2mqtt/src/cJSON.c:1985-2016 | next, prev and the tail pointer in `head.prev` stay correct; the list is the old one with the item at its end |
| `ChildList.Item.Insert` | ser2mqtt/src/cJSON.c:2292-2324 | the item stands at the index, or at the end if that is past it; the links stay correct |
| `ChildList.Item.Detach` | ser2mqtt/src/cJSON.c:2216-2250 | exactly that child is gone, its own pointers are cleared, the links of the others are correct; an item in no list is refused |
| `ChildList.Item.DetachAt` | ser2mqtt/src/cJSON.c:2252-2260 | the child at the index is gone and returned, or nothing changes |
| `ChildList.Item.Replace` | ser2mqtt/src/cJSON.c:2326-2373 | exactly that child is replaced in place; the cases of head, tail, single child and identical replacement keep the links correct |
| `ChildList.Item.ReplaceAt` | ser2mqtt/src/cJSON.c:2375-2383 | the same by index |
| `ChildList.Item.BuildByParse` | ser2mqtt/src/cJSON.c:1509-1548 | the list that parsing hangs together is well linked and holds the parsed values in order |
| `ChildList.BuildByDuplicate` | ser2mqtt/src/cJSON.c:2790-2820 | the copied list is well linked and holds the copies in order; it fails exactly when the specification of duplication does |
| `ChildList.DetachUndoesInsert` | ser2mqtt/src/cJSON.c:2216-2324 | detaching what was inserted, wherever, restores the list |
| `QList.Init` | quectel_cm_5G/src/qlist.h:19-23 | an empty ring |
| `QList.AddTail` | quectel_cm_5G/src/qlist.h:25-31 | the ring holds the old items and the new one last, all links correct |
| `QList.Remove` | quectel_cm_5G/src/qlist.h:33-37 | the ring holds the other items in order, all links correct, given the node only |
| `QList.Length` | quectel_cm_5G/src/qlist.h:12-15 | the walk visits every item once and ends at the head; the emptiness test is right |
| `QrtrProxy.Proxy.AllocId` | quectel_cm_5G/src/quectel-qrtr-proxy.c:129-163 | the first unmarked id is marked with its low byte, or 0 if all are marked |
| `QrtrProxy.Proxy.FreeId` | quectel_cm_5G/src/quectel-qrtr-proxy.c:143-171 | a mark is cleared exactly if it equals the id |
| `QrtrProxy.Proxy.AllocateClient` | quectel_cm_5G/src/quectel-qrtr-proxy.c:373-389 | the two tables, the appended record and the id of the specification |
| `QrtrProxy.Proxy.ReleaseClient` | quectel_cm_5G/src/quectel-qrtr-proxy.c:391-416 | the first matching record is unlinked, both ids are freed, DEL_CLIENT goes out; nothing if there is none |
| `QrtrProxy.Proxy.AcceptConnection` | quectel_cm_5G/src/quectel-qrtr-proxy.c:418-437 | a connection without records is appended |
| `QrtrProxy.Proxy.CleanupConnection` | quectel_cm_5G/src/quectel-qrtr-proxy.c:439-465 | releases from the head until none is left, then unlinks the connection |
| `QrtrProxy.Proxy.ReceiveFromDevice` | quectel_cm_5G/src/quectel-qrtr-proxy.c:479-515 | a DATA packet is sent to every record with its address, with the type and client id of the record; a confirmation is returned on demand |
| `QrtrProxy.Proxy.ReceiveFromClient` | quectel_cm_5G/src/quectel-qrtr-proxy.c:527-665 | refused, granted, released, version and forwarded requests: state and packets of the specification |
| `QrtrProxy.Proxy.HandleServerChange` | quectel_cm_5G/src/quectel-qrtr-proxy.c:308-342 | a new service of the modem's node is appended, others are ignored; DEL_SERVER leaves the list as it is, because the node that it unlinks is in no list |
| `QrtrLaws.TablesAgree` | quectel_cm_5G/src/quectel-qrtr-proxy.c:127-163 | with lockstep and fewer than 239 live records both tables yield the same unused id; at 239 the client table yields none and the port table 240 |
| `QrtrLaws.AllocateKeepsLockstep` | quectel_cm_5G/src/quectel-qrtr-proxy.c:373-389 | allocation keeps the lockstep if and only if fewer than 239 records are live; the id is then one that nobody holds |
| `QrtrLaws.AllocationWhenFull` | quectel_cm_5G/src/quectel-qrtr-proxy.c:373-389 | at 239 the client is refused, but a record with client id 0 and port 240 stays behind |
| `QrtrLaws.BytesKeepIds` | quectel_cm_5G/src/quectel-qrtr-proxy.c:128-171 | a mark equals its id if and only if the id is below 256; marking a free id is lost altogether, so that the next search finds it again, if and only if the id is a multiple of 256 |
| `QrtrLaws.AskingExhausts` | quectel_cm_5G/src/quectel-qrtr-proxy.c:373-389 | the tables and records after any number n of requests for an id by one connection |
| `QrtrLaws.PortTableLosesIds` | quectel_cm_5G/src/quectel-qrtr-proxy.c:128-163 | in that run 239 requests fill the client table, the 240th ends the lockstep, and from the 256th on each further record gets port 256 again: one packet for it is delivered n - 255 times |
| `QrtrLaws.ReleaseKeepsLockstep` | quectel_cm_5G/src/quectel-qrtr-proxy.c:391-416 | releasing keeps the lockstep and takes exactly the released id out of use |
| `QrtrLaws.CleanupKeepsLockstep` | quectel_cm_5G/src/quectel-qrtr-proxy.c:439-465 | closing a connection returns exactly its ids |
| `QrtrLaws.StepKeepsLockstep` | quectel_cm_5G/src/quectel-qrtr-proxy.c:418-665 | one event keeps the lockstep if and only if it does not ask for an id while 239 are live |
| `QrtrLaws.EveryRunKeepsLockstep` | quectel_cm_5G/src/quectel-qrtr-proxy.c:418-665 | on every run without such a request, ClientId equals port, live ids are pairwise distinct over all connections, and both tables mark exactly them |
| `QrtrLaws.RoutingIsExact` | quectel_cm_5G/src/quectel-qrtr-proxy.c:479-504 | under lockstep a packet for a port reaches exactly the record that has it, or nobody |
| `QrtrLaws.ReplyReachesSender` | quectel_cm_5G/src/quectel-qrtr-proxy.c:479-657 | what is sent back to the address a request left from reaches the requesting connection, with the QMI type and client id of the request, and nobody else |
| `QrtrLaws.GrantedIdRoutes` | quectel_cm_5G/src/quectel-qrtr-proxy.c:541-657 | an id just granted works: a request under it leaves from (1, id) to the service |
| `QrtrLaws.NothingAfterRelease` | quectel_cm_5G/src/quectel-qrtr-proxy.c:391-416 | after a release nothing is delivered to the freed address |
| `QrtrLaws.FreeUntilGranted` | quectel_cm_5G/src/quectel-qrtr-proxy.c:373-416 | a free port comes into use only by being granted |
| `QrtrLaws.SilentUntilGranted` | quectel_cm_5G/src/quectel-qrtr-proxy.c:373-504 | on every run within the limit nothing is delivered to a free port until it is granted again |
| `QrtrLaws.SilentAfterRelease` | quectel_cm_5G/src/quectel-qrtr-proxy.c:391-504 | so a released id stays silent, whatever happens, until it is granted again |
| `QrtrLaws.RecordStays` | quectel_cm_5G/src/quectel-qrtr-proxy.c:391-465 | on every run within the limit a record stays until its connection hangs up or releases it |
| `QrtrLaws.LateReplyReachesSender` | quectel_cm_5G/src/quectel-qrtr-proxy.c:479-657 | a reply reaches the sender of the request and nobody else also after any further events, unless the sender hung up or released the id |
| `QrtrAnswers.RequestGoesOut` | quectel_cm_5G/src/quectel-qrtr-proxy.c:640-657 | with lockstep a request under any record of its connection, not only the newest, leaves from the record's address to its service, and nothing else changes or goes out |
| `QrtrAnswers.RequestWithoutRecord` | quectel_cm_5G/src/quectel-qrtr-proxy.c:640-665 | a request without a record for its type and id, or without a service, sends nothing and changes nothing |
| `QrtrAnswers.StrangerIsIgnored` | quectel_cm_5G/src/quectel-qrtr-proxy.c:527-541 | what comes from no accepted descriptor does nothing |
| `QrtrAnswers.ControlIsAnswered` | quectel_cm_5G/src/quectel-qrtr-proxy.c:542-638 | a version request gets one answer under its own transaction id, synchronisation none, and a request for an id of an unknown service the refusal |
| `QrtrAnswers.GrantIsAnswered` | quectel_cm_5G/src/quectel-qrtr-proxy.c:547-581 | a request for an id of a known service is granted an id from 1 to 239 that nobody holds, or refused if 239 are live |
| `QrtrAnswers.ReleaseIsAnswered` | quectel_cm_5G/src/quectel-qrtr-proxy.c:582-610 | a release is always answered, and the modem is told exactly if the connection holds the id; otherwise nothing changes |
| `QrtrAnswers.HangupTellsModem` | quectel_cm_5G/src/quectel-qrtr-proxy.c:439-465 | a hangup tells the modem about every record of the connection, in order, and sends nothing else |
| `QrtrAnswers.PacketReachesOwner` | quectel_cm_5G/src/quectel-qrtr-proxy.c:479-515 | a packet for a live port is handed to its owner alone, with the type and id of its record, and confirmed exactly on demand, with the addresses exchanged |
| `QrtrAnswers.PacketForNobody` | quectel_cm_5G/src/quectel-qrtr-proxy.c:479-515 | a packet for no live port is handed to nobody, and confirmed likewise |
| `QrtrAnswers.ServicesAreAnnounced` | quectel_cm_5G/src/quectel-qrtr-proxy.c:308-342 | on every run the known services are those of the modem's node that were announced, in order |
| `QrtrAnswers.DescriptorsAreUnique` | quectel_cm_5G/src/quectel-qrtr-proxy.c:418-465 | on every run within the limit in which the system gives out no open descriptor, descriptors are pairwise distinct |
| `QrtrAnswers.ConnectionsComeAndGo` | quectel_cm_5G/src/quectel-qrtr-proxy.c:418-465 | accepting adds a connection without records behind the others, hanging up removes it, and all others stay as they are |
| `QrtrAnswers.Conversation` | quectel_cm_5G/src/quectel-qrtr-proxy.c:479-657 | on every such run, from the time a connection holds a record until it hangs up or releases it, its requests go to the service that was announced and packets for its port come to it alone |
| `QmiProxy.Proxy.AcceptConnection` | quectel_cm_5G/src/quectel-qmi-proxy.c:183-202 | a connection without records is appended |
| `QmiProxy.Proxy.FromClientPacket` | quectel_cm_5G/src/quectel-qmi-proxy.c:382-408 | synchronisation is refused; a control request is queued, and sent on at once only if the queue was empty; other packets pass |
| `QmiProxy.Proxy.FromModemPacket` | quectel_cm_5G/src/quectel-qmi-proxy.c:319-380 | the answer goes to the sender of the head, with its bookkeeping, the head leaves and the next one is sent; service packets go to the holders |
| `QmiProxy.Proxy.UpdateRecords` | quectel_cm_5G/src/quectel-qmi-proxy.c:239-268 | a successful grant appends the id, a successful release or revocation removes its first record |
| `QmiProxy.Proxy.CleanupConnection` | quectel_cm_5G/src/quectel-qmi-proxy.c:204-237 | the connection goes, and the first of its queued requests only |
| `QmiProxyLaws.AnswerKeepsFifo` | quectel_cm_5G/src/quectel-qmi-proxy.c:325-365 | one answer pops the head and forwards the next request, and keeps the FIFO discipline |
| `QmiProxyLaws.StepKeepsFifo` | quectel_cm_5G/src/quectel-qmi-proxy.c:183-408 | every orderly event keeps it |
| `QmiProxyLaws.EveryRunIsFifo` | quectel_cm_5G/src/quectel-qmi-proxy.c:183-408 | on every orderly run: the queue is what has not been answered, requests were forwarded once each and in order of arrival, and the k-th answer went to the sender of the k-th request |
| `QmiProxyLaws.OneIsOutstanding` | quectel_cm_5G/src/quectel-qmi-proxy.c:319-408 | at most one request is with the modem, and it is the head of the queue |
| `QmiProxyLaws.RecordsAreHeld` | quectel_cm_5G/src/quectel-qmi-proxy.c:239-268 | on every orderly run each connection's records are its granted minus its released ids |
| `QmiProxyLaws.ServicePacketsReachHolders` | quectel_cm_5G/src/quectel-qmi-proxy.c:366-379 | a packet of a service, for one client id or for all, reaches a connection once per record there that it addresses |
| `QmiProxyLaws.AddressedRecordsAre` | quectel_cm_5G/src/quectel-qmi-proxy.c:366-379 | those are the records with the packet's service and client id, and all records of the service for client id 0 |
| `QmiProxyPackets.ServicePacketsPass` | quectel_cm_5G/src/quectel-qmi-proxy.c:403-405 | on every run, orderly or not, the packets passed on to the modem are exactly the service packets of the clients, unchanged, once each and in order of arrival |
| `QmiProxyPackets.GrantedIdsReceive` | quectel_cm_5G/src/quectel-qmi-proxy.c:366-379 | on every orderly run a packet for a client id reaches a connection as often as it was granted and did not release that id, and changes nothing |
| `QmiProxyPackets.BroadcastReaches` | quectel_cm_5G/src/quectel-qmi-proxy.c:366-379 | a packet for all clients of a service reaches a connection once per record of that service |
| `QmiProxyPackets.OnlyThePacketGoesOut` | quectel_cm_5G/src/quectel-qmi-proxy.c:366-379 | nothing but that packet goes out, and only to open connections |
| `QmiProxyPackets.SyncIsRefused` | quectel_cm_5G/src/quectel-qmi-proxy.c:389-392 | a synchronisation request does nothing |
| `QmiProxyPackets.StrayControlMessages` | quectel_cm_5G/src/quectel-qmi-proxy.c:325-365 | an unsolicited control message makes the head of the queue go out again, an answer to an empty queue does nothing |
| `QmiProxyPackets.ConnectionsAreOpen` | quectel_cm_5G/src/quectel-qmi-proxy.c:183-237 | on every run the connections are the accepted descriptors that have not been hung up, in order |
| `QmiProxyLaws.HangupIsHarmless` | quectel_cm_5G/src/quectel-qmi-proxy.c:204-237 | a closing connection leaves queue and modem in agreement if and only if it has at most one request queued and that one is not the head |
| `QmiProxyLaws.HangupMisdirectsTheAnswer` | quectel_cm_5G/src/quectel-qmi-proxy.c:220-228 | if a connection closes while its request is with the modem, the answer is handed to the next client in the queue |
| `MbimProxy.Proxy.HandleConnect` | quectel_cm_5G/src/quectel-mbim-proxy.c:156-182 | the first free slot gets the descriptor and its place plus one; refused if there is none |
| `MbimProxy.Proxy.HandleDisconnect` | quectel_cm_5G/src/quectel-mbim-proxy.c:184-195 | the first slot with the descriptor is emptied |
| `MbimProxy.Proxy.HandleRequest` | quectel_cm_5G/src/quectel-mbim-proxy.c:197-237 | OPEN and CLOSE are answered on the spot, everything else goes to the device with the slot's tag |
| `MbimProxy.Proxy.HandleResponse` | quectel_cm_5G/src/quectel-mbim-proxy.c:244-279 | id 0 goes to all live slots, other ids to the slot of their tag, untagged |
| `MbimProxy.TagUntag` | quectel_cm_5G/src/quectel-mbim-proxy.c:226-263 | tag then untag is the identity if and only if the id is at most 0xFFFFFF, and then the tag gives the index back |
| `MbimProxy.StepKeepsWellformed` | quectel_cm_5G/src/quectel-mbim-proxy.c:156-195 | used slots have index slot plus one and distinct descriptors, whatever happens |
| `MbimProxy.EveryRunIsWellformed` | quectel_cm_5G/src/quectel-mbim-proxy.c:156-279 | so on every run in which the system gives out no descriptor twice |
| `MbimProxy.EchoReachesSlot` | quectel_cm_5G/src/quectel-mbim-proxy.c:257-271 | an echoed tag reaches whoever is in the issuing slot, with the original id, or nobody |
| `MbimProxy.RequestEchoes` | quectel_cm_5G/src/quectel-mbim-proxy.c:197-279 | a request with an id up to 0xFFFFFF goes out with only its id changed, and any echo of that id comes back to its client under the original id |
| `MbimProxy.LateEchoReachesIssuer` | quectel_cm_5G/src/quectel-mbim-proxy.c:197-279 | so also after any further events, unless the client disconnected |
| `MbimProxy.UnsolicitedReachesAll` | quectel_cm_5G/src/quectel-mbim-proxy.c:249-256 | a message with id 0 goes unchanged to each live client once and to nobody else |
| `MbimProxy.OpenAndCloseStayLocal` | quectel_cm_5G/src/quectel-mbim-proxy.c:216-229 | no OPEN or CLOSE of a client reaches the device, and what does differs from what was sent in the id only |
| `MbimProxy.OpenAndCloseAreAnswered` | quectel_cm_5G/src/quectel-mbim-proxy.c:216-225 | the OPEN or CLOSE of a live client gets exactly one answer: to it, with the top bit of the type set, its own id and status 0 |
| `MbimProxy.ConnectTakesAFreeSlot` | quectel_cm_5G/src/quectel-mbim-proxy.c:156-182 | a new client gets in if and only if one of the 32 slots is free, and nobody else is affected |
| `MbimProxy.DisconnectRemoves` | quectel_cm_5G/src/quectel-mbim-proxy.c:184-195 | a disconnected client, and only it, is no longer served |
| `MbimProxy.SlotsAfter` | quectel_cm_5G/src/quectel-mbim-proxy.c:156-195 | the slots after a connection came or went: only the first that fits is touched, and gets the descriptor and its place plus one, or loses the descriptor |
| `MbimProxy.StrangersAreIgnored` | quectel_cm_5G/src/quectel-mbim-proxy.c:205-275 | requests of descriptors without a slot and responses with the tag of no slot do nothing |
| `MbimIds.Counter.Compose` | quectel_cm_5G/src/mbim-cm.c:921-960 | the id is the counter, which then advances with 32-bit wrap-around |
| `MbimIds.Counter.Send` | quectel_cm_5G/src/mbim-cm.c:1446-1450 | an id of 0x1000000 is replaced by 1 and the counter set to 2 |
| `MbimIds.IdsStayInRange` | quectel_cm_5G/src/mbim-cm.c:1446-1452 | at every point of a run, its end included, the id with which a request would be sent is in 1..0xFFFFFF, if and only if no request composed at the wrap was given up before its check |
| `MbimIds.SentIdsAreInRange` | quectel_cm_5G/src/mbim-cm.c:1446-1452 | so on such a run every id that was sent is in that range |
| `MbimIds.CheckedIdsCycle` | quectel_cm_5G/src/mbim-cm.c:1446-1452 | if every request is checked the ids cycle with period 0xFFFFFF |
| `QmiTlv.Composer.PutString` | quectel_cm_5G/src/QMIThread.c:56-221 | the copied NUL lies behind the TLV: the TLVs written so far are intact and the new one follows them |
| `QmiTlv.Composer.PutStart` | quectel_cm_5G/src/QMIThread.c:181-271 | the bytes written are the encoding of the start request's TLVs, CDMA defaults included |
| `QmiTlv.Composer.PutModify` | quectel_cm_5G/src/QMIThread.c:503-560 | the bytes written are the encoding of the modify request's TLVs |
| `QmiTlv.ComposeQMUXMsg` | quectel_cm_5G/src/QMIThread.c:103-133 | headers, both length fields and TLVs of the message, for every profile that fits the buffer; read back byte by byte, the header announces type, transaction id, message and both lengths |
| `QmiTlv.HeaderReadsBack` | quectel_cm_5G/src/QMIThread.c:103-133 | byte 0 is 1, byte 4 the QMI type, bytes 7 to 10 the transaction id and the message type modulo 65536, low byte first, bytes 1, 2 and 11, 12 the two lengths, the others 0 |
| `QmiTlv.TlvBytes` | quectel_cm_5G/src/QMIThread.c:181-271 | each TLV stands at the sum of the extents before it: its kind, its length, low byte first, its value |
| `QmiTlv.StartKinds` | quectel_cm_5G/src/QMIThread.c:181-271 | the kinds of TLV in a start request and their order |
| `QmiTlv.ModifyKinds` | quectel_cm_5G/src/QMIThread.c:503-560 | the kinds of TLV in a modify request and their order |
| `QmiTlv.CdmaCredentials` | quectel_cm_5G/src/QMIThread.c:196-255 | a CDMA request without user and password carries the operator's, with CHAP; every other request carries its own, and an authentication exactly with both |
| `QmiTlv.GetTLV` | quectel_cm_5G/src/QMIThread.c:75-94 | on a well-formed message: the position of the first TLV of the kind, or of the i-th TLV for 0x1000 + i, and NULL exactly if there is none |
| `QmiTlv.Chosen` | quectel_cm_5G/src/QMIThread.c:75-94 | the first TLV of a kind; counting from 0x1001 enumerates the TLVs in order and then ends |
| `QmiTlv.StartSize` | quectel_cm_5G/src/QMIThread.c:181-271 | the length is the sum of the parts that are present |
| `QmiTlv.ModifySize` | quectel_cm_5G/src/QMIThread.c:503-560 | the length is the sum of the parts that are present |
| `QmiTlv.ComposedIsReadable` | quectel_cm_5G/src/QMIThread.c:75-133 | what was composed is a well-formed message for the reader |
| `QmiTlv.StartReadsBack` | quectel_cm_5G/src/QMIThread.c:75-271 | looking up any kind in a composed start request gives exactly the value to be written, and nothing for what was not |
| `QmiTlv.ModifyReadsBack` | quectel_cm_5G/src/QMIThread.c:503-560 | the same for the modify request |
| `QmiMatch.Matcher.GetQMUXTransactionId` | quectel_cm_5G/src/QMIThread.c:96-101 | 1 to 0xFFFF, then 1 again |
| `QmiMatch.Matcher.GetQCTLTransactionId` | quectel_cm_5G/src/QmiWwanCM.c:28-33 | 1 to 0xFF, then 1 again |
| `QmiMatch.Matcher.DeviceSend` | quectel_cm_5G/src/QmiWwanCM.c:125-162 | the request itself gets the client id of its service, IPv6 data becomes data, control stays; fails without an id |
| `QmiMatch.Matcher.StartRequest` | quectel_cm_5G/src/QMIThread.c:600-620 | the request becomes the pending one, as rewritten by the send, and no response is there |
| `QmiMatch.Matcher.FinishRequest` | quectel_cm_5G/src/QMIThread.c:620-637 | a response is handed out only if there is one, it is wanted and the wait did not time out |
| `QmiMatch.Matcher.Receive` | quectel_cm_5G/src/QMIThread.c:639-662 | a matching message becomes the response and ends the pending request; NULL ends it without one; others change nothing |
| `QmiMatch.StepKeepsDiscipline` | quectel_cm_5G/src/QMIThread.c:600-660 | with one request at a time, a response that is there matches the request of the caller that waits |
| `QmiMatch.ResponsesMatch` | quectel_cm_5G/src/QMIThread.c:582-660 | in every interleaving, a response handed to a caller has the service, client id and transaction id of its own request as rewritten by the send |
| `QmiMatch.HeadersSent` | quectel_cm_5G/src/QmiWwanCM.c:125-162 | control requests leave unchanged; an IPv6 data request leaves as a data request under the IPv6 client id; others leave under the client id of their service; without such an id nothing can leave |
| `QmiMatch.IdsCount` | quectel_cm_5G/src/QMIThread.c:96-101 | after any events the counters are the numbers of service and control requests, wrapped to 1..0xFFFF and 1..0xFF |
| `QmiMatch.NextHeader` | quectel_cm_5G/src/QMIThread.c:96-133 | so the next request of either kind gets the next of those ids |
| `QmiMatch.Exchange` | quectel_cm_5G/src/QMIThread.c:600-660 | a request that can be sent waits under its rewritten header; another message leaves it waiting, its answer is handed to it and to nobody else, and a timeout, an unwanted answer or NULL hands out nothing |
| `QmiMatch.UnsentRequest` | quectel_cm_5G/src/QMIThread.c:616-637 | a request that cannot be sent does not wait |
| `QmiMatch.TidsRepeat` | quectel_cm_5G/src/QMIThread.c:96-101 | two service requests share a transaction id exactly when their numbers differ by a multiple of 65535 |
| `QmiMatch.LateResponseIsNotHanded` | quectel_cm_5G/src/QMIThread.c:96-660 | a late answer is never handed to the caller of one of the next 65534 service requests |
| `QmiMatch.OverlapMixesUp` | quectel_cm_5G/src/QMIThread.c:600-660 | from every state in which a caller waits, whatever request a second caller starts, sent or not, can be answered so that the first is handed that answer, which does not match its own request |
| `QmiMatch.StartIsSafe` | quectel_cm_5G/src/QMIThread.c:600-660 | so a request can be started without that danger exactly when no caller waits |
| `QmiMatch.TwoCallersMixUp` | quectel_cm_5G/src/QMIThread.c:600-637 | with two threads requesting at once, one is handed the other's answer |
| `AtReader.Reader.FindNextEOL` | quectel_cm_5G/src/atchannel.c:298-315 | the place behind a lone prompt, or else the first newline in the buffered data, or none |
| `AtReader.Reader.MoveUp` | quectel_cm_5G/src/atchannel.c:355-362 | the partial line and its NUL are moved to the front of the buffer, nothing is lost |
| `AtReader.Reader.ReadUntilEol` | quectel_cm_5G/src/atchannel.c:368-415 | however many bytes each read gives, the loop stops at the next line of the stream, or at the end of input |
| `AtReader.Reader.ReadLine` | quectel_cm_5G/src/atchannel.c:328-429 | returns the next non-empty line of buffered and unread data and leaves exactly the rest, through the empty, leading-newline and compaction paths |
| `AtReader.ReadAll` | quectel_cm_5G/src/atchannel.c:450-489 | successive calls return exactly the lines of the stream, in order, however it arrives in pieces |
| `AtReader.NewlinesSeparate` | quectel_cm_5G/src/atchannel.c:348-350 | newlines in front do not matter |
| `AtReader.TextIsALine` | quectel_cm_5G/src/atchannel.c:304-315 | text up to a newline is one line |
| `AtReader.UnfinishedTextIsNoLine` | quectel_cm_5G/src/atchannel.c:304-315 | text without a newline is no line yet |
| `AtReader.LinesOfPieces` | quectel_cm_5G/src/atchannel.c:328-429 | cutting the stream in two anywhere loses, adds and splits no line |
| `AtCommand.Response.AddIntermediate` | quectel_cm_5G/src/atchannel.c:111-124 | the line is pushed in front of the linked list |
| `AtCommand.Response.ReverseIntermediates` | quectel_cm_5G/src/atchannel.c:722-735 | the linked list is reversed in place |
| `AtCommand.Channel.ProcessLine` | quectel_cm_5G/src/atchannel.c:229-295 | raw data is sent on CONNECT and the PDU on the prompt; final, intermediate and unsolicited lines change the response and reach the handler as specified |
| `AtCommand.Channel.Dispatch` | quectel_cm_5G/src/atchannel.c:256-290 | for each type of command: exactly the wanted lines are stored, the others reach the handler |
| `AtCommand.LinesArriveInOrder` | quectel_cm_5G/src/atchannel.c:229-295 | while a command goes on, its reversed list is its lines, and the handler got all others, both in order of arrival; requests for data are answered and go to neither |
| `AtCommand.NoLineIsLost` | quectel_cm_5G/src/atchannel.c:229-295 | between them the two get every reply, each once |
| `AtCommand.DataIsSentOnce` | quectel_cm_5G/src/atchannel.c:236-266 | what is written is exactly the raw data, on the first CONNECT, and the PDU followed by Ctrl-Z, on the first prompt, each at most once, and not before |
| `AtCommand.CommandResponse` | quectel_cm_5G/src/atchannel.c:229-295 | the final line decides success and the response holds exactly the expected lines in order; the handler got the others, and behind a proxy the final line too; a CONNECT that asks for data is no final line |
| `AtCommand.FinalLines` | quectel_cm_5G/src/atchannel.c:127-177 | the texts with which a final line begins, of success and of either kind |
| `AtCommand.WantedLines` | quectel_cm_5G/src/atchannel.c:256-290 | which lines each type of command wants |
| `AtCommand.ExpectedMultiLine` | quectel_cm_5G/src/atchannel.c:280-286 | a multi-line command gets every line with its prefix, as often as it came |
| `AtCommand.ExpectedFirst` | quectel_cm_5G/src/atchannel.c:259-279 | a numeric or single-line command gets the first line that fits, only |

## Left out

- JsonPrint.PrintBuffer.PrintNumber: takes int32 values; the printing of other numbers, with its test whether 15 digits read back, rests on the rounding of `sprintf` and `sscanf`, and NaN and infinities are no reals.
- JsonPrint.PrintBuffer.PrintValue: trees with int32 numbers and without `cJSON_Raw` items, for the same reason and because raw text need not be JSON.
- JsonPrint.PrintBuffer.PrintArray: as PrintValue.
- JsonPrint.PrintBuffer.PrintObject: as PrintValue.
- JsonPrint.PrintPreallocated: as PrintValue; the checks for a NULL buffer and a negative length are left out, which an array cannot have.
- JsonPrint.PrintBuffered: as PrintValue.
- JsonPrint.Print: as PrintValue.
- Rounding in `strtod`: numbers are reals. Custom hooks, failing allocation, reference items and constant keys.
- Case-insensitive comparison and lookup; child lists by key (`...FromObject`, `...InObject`), which are lookup (`JsonCompare.Find`) followed by the list operation.
- ChildList.Item.BuildByParse: the parsed values are given; the parser itself is modelled on tree values, so the parse of an item does not happen between two links.
- ChildList.DetachUndoesInsert: about the edits of the sequence to which `Insert` and `Detach` are proved equal, not about two calls.
- JsonCompare.CompareIsEquality: two different items; the answer for identical pointers is added in `JsonCompare.CompareItemIsEquality`.
- JsonCompare.CompareIsEquivalence: two different items, likewise.
- Sockets, poll, serial lines, threads and condition variables: steps that deliver, time out or fail. A send succeeds or fails as a whole.
- QmiProxyLaws.EveryRunIsFifo: assumes that the modem answers each forwarded control request once and sends no other control message, and that no connection closes with a request queued, because the code does not keep the property without that.
- The QMI proxy before its server socket exists, merged QMI packets, and the reset flag of a revocation.
- QRTR HELLO packets, which are answered and change nothing.
- QrtrProxy.Proxy.ReceiveFromClient: with no connection at all the source reads an unset pointer; only descriptors of accepted connections reach it, and the model returns without effect.
- MbimProxy.Proxy.HandleRequest: the log line that indexes the slots with the client index under the verbose flag.
- QmiTlv.GetTLV: its contract is on well-formed messages only, because the remaining length is 16 bits wide and wraps on malformed ones.
- QmiTlv.Composer.PutStart: requires a message that fits the 256-byte buffer, which the source does not check; beyond it the source writes outside its buffer.
- QmiTlv.Composer.PutModify: requires a message that fits the 256-byte buffer, likewise.
- QmiTlv.ComposeQMUXMsg: requires a message that fits the 256-byte buffer, likewise.
- QmiMatch.ResponsesMatch: assumes that one request is in flight at a time, as the code does not keep the property otherwise.
- The indications that `QmiThreadRecvQMI` forwards to the main loop, and the send functions of other back ends.
- AtReader.Reader.ReadLine: assumes a stream without NUL, without lines starting with `>` and with lines that fit the buffer, and reads that leave room for the NUL; a read that fills the buffer to its last byte makes the source write the NUL behind it.
- AtReader.Reader.ReadUntilEol: the same stream.
- AtReader.ReadAll: the same stream.
- A read error of the AT channel in the middle of the stream: a failing read ends the stream, and the reader stops there as the source does.
- The two-line SMS notifications of the AT channel.
- Dialling, DHCP, device detection, netlink, the MBIM command bodies, MQTT and serial plumbing: no algorithm beyond system calls and tables.

# Stream protocol, callback lists and calendar, verified

Dafny models of three parts of this repository that change state step by step, with proofs of what they promise.

**FastCGI streams** (`fcgi_*.dfy`, after `fcgiapp.c`). A reader is a byte buffer filled by operating system reads of
any size, out of which a resumable loop cuts records; a writer is a buffer with a reserved header slot that is padded
and sealed in place. Both are classes over arrays. Their methods are proved to do what functions on values say in
which the reads and writes no longer appear (`fcgi_reader_spec`, `fcgi_writer_spec`), and about those values the
protocol is proved: the reader refines a machine on whole records (`fcgi_demux`), the writers of a request keep the
shape of the wire under any interleaving (`fcgi_session`), what is written is what is read (`fcgi_roundtrip`,
`fcgi_loopback`), name-value pairs decode what was encoded (`fcgi_params`), and a whole connection is accepted
(`fcgi_accept_spec`, `fcgi_accept`, `fcgi_serve`) or refused (`fcgi_refusals`). `fcgi_answers` says what a peer reads
of the answers, and `fcgi_conversation` spells out one request and one response. `fcgi_capacity` counts the bytes a
run needs, `fcgi_shortage` says what is sent without them, and `fcgi_exchange` adds the reader's answers on the same
wire. Sections 3.3, 3.4, 4.1, 4.2, 5.1, 5.2, 5.3 and 5.5 of the FastCGI Specification 1.0 give the formats.

Faults are part of a connection's script: reading reports `readErrno` behind the last incoming byte, writing reports
`writeErrno` once `room` bytes are out. Everything holds for all scripts.

Six places of the code need a condition, which is proved exact:

- a skipped record without content leaves `skip` set, so that the next wanted content is lost, and content of an unknown
  management record is answered but not consumed (`ExactRecordByRecord` for both; `ExactUnlessSkipPending` and
  `ExactUnlessUnknownHasContent` for each alone);
- `SetReaderType` forgets padding, so that a padded BEGIN_REQUEST loses the parameters; since a protocol error between
  two pairs looks like their end, the request is accepted all the same (`ParamsArriveUnlessBeginPadded`);
- in the same way the padded end of a stream loses the next stream (`NextArrivesUnlessEndPadded`); both conditions are
  exact for padding whose first byte is not 1, such as zeros, while other padding may happen to be records
  (`PaddingOfRecords`);
- a query at the very end of what has arrived is not answered, because the next read comes before the test for the end
  of the record (`QueryNeedsAnotherByte`);
- the size of an entry is computed as an int: declared lengths, in as few as six bytes, can take it out of range
  (`DefinedUnlessTooLarge`);
- the answer to a query is built in 64 bytes, and the end of a name is searched for as in a C string: four known names,
  or one name with a NUL, are too much (`QueryIsSurvived`).

In the last two the defined behaviour of the library ends: it may abort, write where it must not, or go on by luck.
The reader's `aborted` is set then, its value is `Dead`, and nothing is claimed of what follows. Concrete runs are
`EmptyForeignRecordLosesTheNext`, `UnknownManagementContentLeaks`, `PaddedParamsEndExample`, `SixBytesOverflow`,
`FourNamesOverrun` and `NulNameAborts`.

**jQuery callback lists, Deferred, when, and Sizzle's caches** (`jq_*.dfy`, `sizzle_*.dfy`, after `jquery-1.10.1.js`).
A callback list is a class with the closure's variables; ghost state numbers the registered functions and keeps a
history of what was added, removed, fired and called, and `jq_firing` says what firing means on histories, without
indexes. Callbacks are arbitrary: a script says what each call of a user's function does to the lists, and any finite
behaviour is that of some script. A deferred is three such lists, whose first functions keep its state, and the master
of `jQuery.when` is such a deferred. Sizzle's combinators write what they find on the nodes they pass; the invariant
says what an entry means for the current run, its context and the current candidate, although combinators of one
direction overwrite each other. Selectors are compiled from tokens once, for all contexts, and compiling keeps their
meaning, which is told a second time as a way through the document by parents and siblings.

**The date picker's calendar** (`datepicker_*.dfy`, after `bootstrap-datepicker.js`). Dates are day numbers with the
setters of section 15.9.1 of ECMA-262 edition 5.1, carried over month ends. Two further conditions are exact: years 0
to 99 are moved by `Date.UTC` to the twentieth century, so that such a month is not on its own page, clicks on its
page, or on a day of such a year, set another date, with one exception, and a relative date does not reach such a year
(`MonthIsShown`, `ClickGivesDate`, `RelativeReaches`); and the sign of a negative year is read as punctuation
(`ParseInvertsFormat`). The day numbers are those of the Gregorian calendar by an independent formula
(`MakeDayIsGregorian`).

`dafny verify dfyconfig.toml` checks everything.

## Model

| member | source | states |
|---|---|---|
| `FcgiWire.AlignInt8` | library/server/libfcgi/Clib/libfcgi/libfcgi/fcgiapp.c:1300-1302 | the result is a multiple of 8, at least the argument and less than 8 above it |
| `FcgiWire.HeaderRoundTrip` | library/server/libfcgi/Clib/libfcgi/libfcgi/fcgiapp.c:1229-1247 | the 16-bit request id and content length of any header read back unchanged and stand in it high byte first, between version and type and the padding length |
| `FcgiWire.EndRequestStatusRoundTrip` | library/server/libfcgi/Clib/libfcgi/libfcgi/fcgiapp.c:1258-1270 | any 32-bit exit status, negative ones included, can be read back from the END_REQUEST body, and the protocol status is the byte behind it |
| `FcgiConnection.Connection.Read` | library/server/libfcgi/Clib/libfcgi/libfcgi/os_unix.c:457-461 | a read gives any positive number of the next bytes, in order; at the end 0, or -1 on a fault |
| `FcgiConnection.Connection.Write` | library/server/libfcgi/Clib/libfcgi/libfcgi/os_unix.c:479-483 | a write takes any number of the next bytes, none included, or fails |
| `FcgiConnection.Connection.WriteItAll` | library/server/libfcgi/Clib/libfcgi/libfcgi/fcgiapp.c:1388-1402 | everything is sent, in order, however the writes are cut; on failure exactly what was accepted is out |
| `FcgiParams.ParsePairInverts` | library/server/libfcgi/Clib/libfcgi/libfcgi/fcgiapp.c:1166-1218 | an encoded pair whose entry size is an int, in front of anything, is decoded to its "name=value" entry, leaving the rest |
| `FcgiParams.ParsePairsThen` | library/server/libfcgi/Clib/libfcgi/libfcgi/fcgiapp.c:1166-1218 | any list of encoded pairs in front of anything adds exactly the listed entries first, in order |
| `FcgiParams.DecodeInvertsEncode` | library/server/libfcgi/Clib/libfcgi/libfcgi/fcgiapp.c:1166-1218 | decoding inverts encoding for every list of pairs whose entry sizes fit an int and every choice of 1-byte or 4-byte lengths |
| `FcgiParams.CutPairFails` | library/server/libfcgi/Clib/libfcgi/libfcgi/fcgiapp.c:1176-1214 | bytes that end strictly inside a pair make the decoding fail and add nothing for it |
| `FcgiParams.TruncatedPairFails` | library/server/libfcgi/Clib/libfcgi/libfcgi/fcgiapp.c:1176-1214 | complete pairs before a cut pair are still added, and the result is the error |
| `FcgiParams.AcceptedIsEncoding` | library/server/libfcgi/Clib/libfcgi/libfcgi/fcgiapp.c:1166-1218 | the converse of DecodeInvertsEncode: whatever is accepted is the encoding of some list of pairs |
| `FcgiParams.DefinedUnlessTooLarge` | library/server/libfcgi/Clib/libfcgi/libfcgi/fcgiapp.c:1200-1202 | reading pairs from some bytes is defined throughout, and gives 0 or -1, if and only if it does not reach, through whole pairs, two declared lengths whose entry size is beyond an int, whatever follows them |
| `FcgiParams.SixBytesOverflow` | library/server/libfcgi/Clib/libfcgi/libfcgi/fcgiapp.c:1200-1202 | such lengths can be declared in six bytes; eight bytes of 255 declare them too |
| `FcgiParams.LookupFindsFirstPair` | library/server/libfcgi/Clib/libfcgi/libfcgi/fcgiapp.c:1131-1146 | lookup finds the first pair of a name if and only if no earlier pair has a name that itself begins with "name="; names without = never have that |
| `FcgiParams.LookupFindsFirstValue` | library/server/libfcgi/Clib/libfcgi/libfcgi/fcgiapp.c:1131-1146 | and what it gives is that pair's value, or nothing if there is no such pair |
| `FcgiParams.Params.constructor` | library/server/libfcgi/Clib/libfcgi/libfcgi/fcgiapp.c:1051-1060 | the vector starts empty with a free NULL slot |
| `FcgiParams.Params.PutParam` | library/server/libfcgi/Clib/libfcgi/libfcgi/fcgiapp.c:1104-1117 | the entry is appended, nothing before it changes, a NULL slot stays free, and the capacity doubles exactly when it would be lost |
| `FcgiParams.Params.GetParam` | library/server/libfcgi/Clib/libfcgi/libfcgi/fcgiapp.c:1131-1146 | the value behind the first matching entry, up to its NUL; NULL for no match or no name |
| `FcgiReaderSpec.FillLeavesByteOrEnd` | library/server/libfcgi/Clib/libfcgi/libfcgi/fcgiapp.c:1655-1780 | every fill of a begun request leaves an unread byte or a closed stream, keeps the request begun, and filling again changes nothing |
| `FcgiReaderSpec.FromBoundaryShape` | library/server/libfcgi/Clib/libfcgi/libfcgi/fcgiapp.c:1712-1780 | between records the header loop stops only with content ready, a closed stream, or a request just begun |
| `FcgiReaderSpec.OnHeaderKeepsBegun` | library/server/libfcgi/Clib/libfcgi/libfcgi/fcgiapp.c:1734-1779 | interpreting a header never un-begins a request; the fill returns only closed or with a request just begun, and otherwise goes on with an open stream |
| `FcgiReaderSpec.TakeReady` | library/server/libfcgi/Clib/libfcgi/libfcgi/fcgiapp.c:153-197 | bytes that are ready can be taken in one piece: the same bytes and state as one at a time |
| `FcgiReaderSpec.GetStrSplit` | library/server/libfcgi/Clib/libfcgi/libfcgi/fcgiapp.c:153-197 | reading a + b bytes is reading a and then b, unless the end came first |
| `FcgiReaderSpec.GetStrIsPrefixOfDrain` | library/server/libfcgi/Clib/libfcgi/libfcgi/fcgiapp.c:153-197 | what GetStr returns is the front of everything the client would ever read, and a short result means the end |
| `FcgiReaderSpec.GetLineTakesLine` | library/server/libfcgi/Clib/libfcgi/libfcgi/fcgiapp.c:216-237 | a line is the longest prefix with at most k bytes and no newline except as its last byte |
| `FcgiReaderSpec.ReadParamsAborts` | library/server/libfcgi/Clib/libfcgi/libfcgi/fcgiapp.c:1166-1218 | where reading parameters ends is known unless the bytes overflow the entry size or their stream had ended so |
| `FcgiFill.SkippedSome` | library/server/libfcgi/Clib/libfcgi/libfcgi/fcgiapp.c:1688-1696 | skipping part of the content now and the rest later is skipping it at once |
| `FcgiFill.PaddedSome` | library/server/libfcgi/Clib/libfcgi/libfcgi/fcgiapp.c:1702-1711 | passing over part of the padding now and the rest later is passing over it at once |
| `FcgiFill.HeaderComplete` | library/server/libfcgi/Clib/libfcgi/libfcgi/fcgiapp.c:1721-1739 | a header assembled over several reads is interpreted as if it had come in one |
| `FcgiFill.DrainInsideRecord` | library/server/libfcgi/Clib/libfcgi/libfcgi/fcgiapp.c:1713-1720 | with eorStop set a client reads exactly the content of the current record and then meets the end |
| `FcgiFill.BeginBodyIsGetStr` | library/server/libfcgi/Clib/libfcgi/libfcgi/fcgiapp.c:1583-1590 | reading the 8 bytes of a BEGIN_REQUEST body gives them however they arrive, and otherwise a closed stream |
| `FcgiReader.ReaderStream.constructor` | library/server/libfcgi/Clib/libfcgi/libfcgi/fcgiapp.c:1792-1853 | a new reader has read nothing; its buffer size does not show |
| `FcgiReader.ReaderStream.SetStreamError` | library/server/libfcgi/Clib/libfcgi/libfcgi/fcgiapp.c:970-980 | the first error is kept and the stream is closed |
| `FcgiReader.ReaderStream.Refill` | library/server/libfcgi/Clib/libfcgi/libfcgi/fcgiapp.c:1663-1676 | a read changes nothing of what the client will read, unless nothing is left, which closes the stream |
| `FcgiReader.ReaderStream.FillBuffProc` | library/server/libfcgi/Clib/libfcgi/libfcgi/fcgiapp.c:1655-1780 | the resumable loop over buffer indexes does what the chunk-free Advance says, for every way the operating system cuts the reads; a begun request ends up closed or with a byte to read |
| `FcgiReader.ReaderStream.PassRecord` | library/server/libfcgi/Clib/libfcgi/libfcgi/fcgiapp.c:1663-1711 | one round down to the end of the current record advances through it or returns what Advance would |
| `FcgiReader.ReaderStream.PassSkipped` | library/server/libfcgi/Clib/libfcgi/libfcgi/fcgiapp.c:1690-1711 | skipped content and padding are passed over as far as they are buffered |
| `FcgiReader.ReaderStream.ReadHeader` | library/server/libfcgi/Clib/libfcgi/libfcgi/fcgiapp.c:1712-1779 | the rest of a round: record end, part of a header, or a header interpreted |
| `FcgiReader.ReaderStream.Deliver` | library/server/libfcgi/Clib/libfcgi/libfcgi/fcgiapp.c:1681-1689 | handing buffered content to the client changes nothing of what it will read |
| `FcgiReader.ReaderStream.GetChar` | library/server/libfcgi/Clib/libfcgi/libfcgi/fcgiapp.c:118-136 | the next byte of everything the client will read, or the end, which is then closed |
| `FcgiReader.ReaderStream.GetStr` | library/server/libfcgi/Clib/libfcgi/libfcgi/fcgiapp.c:153-197 | the same bytes and the same reader state as GetChar called up to n times; fewer than n bytes only at the end |
| `FcgiReader.ReaderStream.GetLine` | library/server/libfcgi/Clib/libfcgi/libfcgi/fcgiapp.c:216-237 | NULL at the end, else the bytes up to newline, end or n - 1 |
| `FcgiReader.ReaderStream.SetReaderType` | library/server/libfcgi/Clib/libfcgi/libfcgi/fcgiapp.c:1886-1898 | the reader starts over at the read position with the new type; a pending skip and padding are forgotten |
| `FcgiReader.ReaderStream.StartFilterData` | library/server/libfcgi/Clib/libfcgi/libfcgi/fcgiapp.c:2317-2329 | 0 and a DATA reader exactly for a filter at the end of STDIN, else -1 and a call sequence error |
| `FcgiReader.ReaderStream.ReadLengthBytes` | library/server/libfcgi/Clib/libfcgi/libfcgi/fcgiapp.c:1177-1184 | a length in either form, or failure when the bytes end inside it, for any chunking |
| `FcgiReader.ReaderStream.ReadPair` | library/server/libfcgi/Clib/libfcgi/libfcgi/fcgiapp.c:1172-1214 | one pair taken off the stream as ParsePair takes it off the bytes, in all three outcomes |
| `FcgiReader.ReaderStream.ReadNext` | library/server/libfcgi/Clib/libfcgi/libfcgi/fcgiapp.c:1172-1217 | one round of the loop: a pair appended, or the end with 0, -1 or no return |
| `FcgiReader.ReaderStream.ReadParams` | library/server/libfcgi/Clib/libfcgi/libfcgi/fcgiapp.c:1166-1218 | all pairs up to the end of the stream are appended in order; 0 if they decode, -1 with a parameter error if not, and an end of defined behaviour exactly if an entry size overflows, for any chunking |
| `FcgiReader.ReaderStream.ProcessManagementRecord` | library/server/libfcgi/Clib/libfcgi/libfcgi/fcgiapp.c:1482-1538 | GET_VALUES is answered from the content of its record only, with the bytes that AnswerDecodes is about; any other type gets the unknown-type reply of OtherAnswers and its content stays |
| `FcgiReader.ReaderStream.AnswerQuery` | library/server/libfcgi/Clib/libfcgi/libfcgi/fcgiapp.c:1486-1520 | GET_VALUES from its content: answered as ReplyAnswers says, failed, or ended by an overflow or an answer the array cannot hold |
| `FcgiReader.ReaderStream.Answer` | library/server/libfcgi/Clib/libfcgi/libfcgi/fcgiapp.c:1498-1511 | one answer, none or a whole pair as AnswerIsPair says, is written behind the others in the 64-byte array, with the NUL of sprintf, unless the name has a NUL or the array has no room |
| `FcgiReader.ReaderStream.AnswerValues` | library/server/libfcgi/Clib/libfcgi/libfcgi/fcgiapp.c:1487-1520 | the array holds one answer for each known variable asked for, in order, padded to 8 bytes, exactly if every name ends at its = and all of it fits |
| `FcgiReader.ReaderStream.ProcessBeginRecord` | library/server/libfcgi/Clib/libfcgi/libfcgi/fcgiapp.c:1558-1595 | a first BEGIN_REQUEST sets id, role and keep flag from its body; a later one is refused with CANT_MPX_CONN and skipped |
| `FcgiReader.ReaderStream.ProcessHeader` | library/server/libfcgi/Clib/libfcgi/libfcgi/fcgiapp.c:1619-1644 | a record is classified by version, type and request id, answered or refused, without reading beyond it |
| `FcgiReader.ReaderStream.Interpret` | library/server/libfcgi/Clib/libfcgi/libfcgi/fcgiapp.c:1734-1779 | a header is interpreted with the record end as end of stream, which is undone afterwards |
| `FcgiDemux.OneRecord` | library/server/libfcgi/Clib/libfcgi/libfcgi/fcgiapp.c:1619-1780 | any one record, of any type and id, has exactly the effect of the record machine |
| `FcgiDemux.DemuxRefinesRecords` | library/server/libfcgi/Clib/libfcgi/libfcgi/fcgiapp.c:1655-1780 | the byte-level reader refines the record machine on every list of records with anything behind it |
| `FcgiDemux.LawfulRun` | library/server/libfcgi/Clib/libfcgi/libfcgi/fcgiapp.c:1655-1780 | lawful records in any order and with any padding are all read, each answered, and leave the reader idle; queries are lawful if the library can answer them |
| `FcgiDemux.StreamDecodes` | library/server/libfcgi/Clib/libfcgi/libfcgi/fcgiapp.c:1655-1780 | a whole stream: delivered contents, then the end without error, all replies sent, everything behind the last header unread |
| `FcgiDemux.StreamContentsArrive` | library/server/libfcgi/Clib/libfcgi/libfcgi/fcgiapp.c:1619-1644 | with nonempty records of other requests, multiplexing attempts and answerable queries mixed in, the client reads exactly the contents of its records up to the first empty one |
| `FcgiDemux.ExactRecordByRecord` | library/server/libfcgi/Clib/libfcgi/libfcgi/fcgiapp.c:1619-1644 | for every lawful list, record by record: it delivers what it should if and only if it is neither wanted and met by a pending skip nor a nonempty unknown management record met by none |
| `FcgiDemux.EmptyForeignRecordLosesTheNext` | library/server/libfcgi/Clib/libfcgi/libfcgi/fcgiapp.c:1761-1763 | a concrete run in which an empty foreign record makes the next wanted record disappear |
| `FcgiDemux.UnknownManagementContentLeaks` | library/server/libfcgi/Clib/libfcgi/libfcgi/fcgiapp.c:1523-1537 | a concrete run in which management content reaches the client as stream data |
| `FcgiDemux.QueryNeedsAnotherByte` | library/server/libfcgi/Clib/libfcgi/libfcgi/fcgiapp.c:1663-1720 | a query is answered if and only if a byte follows its content: the read comes before the end of the record is noticed |
| `FcgiDemux.QueryIsSurvived` | library/server/libfcgi/Clib/libfcgi/libfcgi/fcgiapp.c:1486-1520 | a query with a byte behind it goes on, answered, if and only if its pairs decode, its names end at their = and the answers fit the 64 bytes; it ends everything if and only if a size overflows or its decoded pairs break one of the other two |
| `FcgiDemux.FourNamesOverrun` | library/server/libfcgi/Clib/libfcgi/libfcgi/fcgiapp.c:1487-1511 | asking four times for FCGI_MAX_CONNS overruns the array, three times does not |
| `FcgiDemux.NulNameAborts` | library/server/libfcgi/Clib/libfcgi/libfcgi/fcgiapp.c:1498-1499 | a name with a NUL inside has no = for strchr to find |
| `FcgiAnswers.AnswerIsPair` | library/server/libfcgi/Clib/libfcgi/libfcgi/fcgiapp.c:1498-1511 | the answer to one entry is the encoded pair of its name, as far as the first =, and the value of the library, for the three names the library knows, and nothing for any other |
| `FcgiAnswers.NameEndsAtEquals` | library/server/libfcgi/Clib/libfcgi/libfcgi/fcgiapp.c:1498-1499 | the name of any entry is what stands before its first = |
| `FcgiAnswers.AnswerDecodes` | library/server/libfcgi/Clib/libfcgi/libfcgi/fcgiapp.c:1487-1520 | for any entries, what is answered decodes without error, to exactly one pair for each known variable asked for, in that order: FCGI_MAX_CONNS=1, FCGI_MAX_REQS=1 or FCGI_MPXS_CONNS=0 |
| `FcgiAnswers.ReplyAnswers` | library/server/libfcgi/Clib/libfcgi/libfcgi/fcgiapp.c:1512-1521 | an answer that fits is sent as one GET_VALUES_RESULT record of request 0, with that content, padded to a multiple of 8 bytes |
| `FcgiAnswers.QueryAnsweredOnWire` | library/server/libfcgi/Clib/libfcgi/libfcgi/fcgiapp.c:1482-1538 | behind a query for any encoded pairs whose names have no =, the wire has grown by one such record, which answers the names that were sent, and the client reads on as if the query had not been there |
| `FcgiAnswers.QueriesAnswered` | library/server/libfcgi/Clib/libfcgi/libfcgi/fcgiapp.c:1619-1644 | the answers to any list of queries in front of a request are such records, one for each, in order |
| `FcgiAnswers.OtherAnswers` | library/server/libfcgi/Clib/libfcgi/libfcgi/fcgiapp.c:1523-1573 | byte for byte: an unknown management type is answered with itself in an UNKNOWN_TYPE record, and a second BEGIN_REQUEST with END_REQUEST of its id and CANT_MPX_CONN |
| `FcgiAcceptSpec.BeginTaken` | library/server/libfcgi/Clib/libfcgi/libfcgi/fcgiapp.c:1558-1595 | a BEGIN_REQUEST at the front of a connection is taken whatever follows, and its padding is still to be passed over |
| `FcgiAcceptSpec.StreamThenNext` | library/server/libfcgi/Clib/libfcgi/libfcgi/fcgiapp.c:1886-1898 | a stream with an unpadded end is read to its end, and switching the type continues exactly behind it |
| `FcgiAcceptSpec.QueriesPassed` | library/server/libfcgi/Clib/libfcgi/libfcgi/fcgiapp.c:1619-1644 | answerable queries in front of BEGIN_REQUEST are answered and otherwise do not show |
| `FcgiAcceptSpec.WholeConnection` | library/server/libfcgi/Clib/libfcgi/libfcgi/fcgiapp.c:2219-2297 | for every role: perhaps behind queries, BEGIN_REQUEST, PARAMS and STDIN, with anything behind, are accepted with the role entry and then the pairs in order, and with the id and keep flag that were sent; reads give STDIN and its end without error; for a filter with a DATA stream, switching gives that and its end |
| `FcgiRefusals.AcceptedExactly` | library/server/libfcgi/Clib/libfcgi/libfcgi/fcgiapp.c:2245-2284 | for any role and any parameter stream, perhaps behind queries: the request is accepted if and only if the role is 1, 2 or 3 and the stream is an encoding of pairs, and defined behaviour ends if and only if the role is one of them and the stream declares a size beyond an int; otherwise it is rejected |
| `FcgiRefusals.CutPairRejected` | library/server/libfcgi/Clib/libfcgi/libfcgi/fcgiapp.c:2271-2284 | parameters that end strictly inside a pair, behind any whole ones, are rejected for every role |
| `FcgiRefusals.RefusedIsRejected` | library/server/libfcgi/Clib/libfcgi/libfcgi/fcgiapp.c:2245-2284 | a connection is rejected whose parameters end inside a pair, whose role is not 1, 2 or 3, which ends anywhere inside its first record, also behind queries or with nothing at all, or whose first record is of another version |
| `FcgiAcceptSpec.PaddedBeginLosesParams` | library/server/libfcgi/Clib/libfcgi/libfcgi/fcgiapp.c:1886-1898 | a padded BEGIN_REQUEST is accepted with only the role entry, and the stream carries the error |
| `FcgiAcceptSpec.ParamsArriveUnlessBeginPadded` | library/server/libfcgi/Clib/libfcgi/libfcgi/fcgiapp.c:2271-2278 | with any padding whose first byte is not 1, zeros for example, the pairs arrive if and only if BEGIN_REQUEST is unpadded or there are none |
| `FcgiAcceptSpec.NextArrivesUnlessEndPadded` | library/server/libfcgi/Clib/libfcgi/libfcgi/fcgiapp.c:1886-1898 | with such padding on the end of a stream, the content of the next arrives if and only if there is no padding or no content, and its end is without error if and only if there is no padding |
| `FcgiAcceptSpec.PaddingOfRecords` | library/server/libfcgi/Clib/libfcgi/libfcgi/fcgiapp.c:1886-1898 | padding that happens to be whole records is read in front of the next stream |
| `FcgiAcceptSpec.PaddedParamsEndLosesInput` | library/server/libfcgi/Clib/libfcgi/libfcgi/fcgiapp.c:2277-2290 | with a padded end of the parameters, the padding not beginning with 1, the request is accepted with all of them, and STDIN reads as empty with an error |
| `FcgiAcceptSpec.PaddedParamsEndExample` | library/server/libfcgi/Clib/libfcgi/libfcgi/fcgiapp.c:2277-2290 | the shortest such connection: one byte of padding loses the input "A" |
| `FcgiAccept.Application.Finish` | library/server/libfcgi/Clib/libfcgi/libfcgi/fcgiapp.c:2043-2062 | the error stream and then the output stream are closed, and the connection unless it is kept and nothing failed |
| `FcgiAccept.Application.Free` | library/server/libfcgi/Clib/libfcgi/libfcgi/fcgiapp.c:2064-2078 | all streams are gone and the connection is closed if asked |
| `FcgiAccept.Application.Attempt` | library/server/libfcgi/Clib/libfcgi/libfcgi/fcgiapp.c:2245-2277 | one pass over an open connection accepts, rejects or ends exactly as the value-level attempt does, of which AcceptedExactly says when, with its entries |
| `FcgiAccept.Application.Turn` | library/server/libfcgi/Clib/libfcgi/libfcgi/fcgiapp.c:2226-2284 | one pass of the retry loop: taken, or closed and dropped from the candidates, as AcceptedExactly and RefusedIsRejected decide |
| `FcgiAccept.Application.FindRequest` | library/server/libfcgi/Clib/libfcgi/libfcgi/fcgiapp.c:2226-2284 | the loop stops at the first connection, in order, on which a request is accepted, having dropped those before it |
| `FcgiAccept.Application.FinishFor` | library/server/libfcgi/Clib/libfcgi/libfcgi/fcgiapp.c:2043-2062 | FCGX_Finish_r at the start of accepting: the writers are closed as a run of the two closes, and the connection is a candidate only if it is kept and nothing failed |
| `FcgiAccept.Application.AcceptNext` | library/server/libfcgi/Clib/libfcgi/libfcgi/fcgiapp.c:2225-2297 | accepting on a kept connection, if there is one, and then on those that come |
| `FcgiAccept.Application.Accept` | library/server/libfcgi/Clib/libfcgi/libfcgi/fcgiapp.c:2219-2297 | finishing the request in progress and then accepting: 0 with environment, input at STDIN, two fresh writers and a writer count of two; an error exactly when no connection works out; AcceptBehindRefused says which connections are passed over |
| `FcgiWriterSpec.BufferSize` | library/server/libfcgi/Clib/libfcgi/libfcgi/fcgiapp.c:1804-1815 | every buffer length is a multiple of 8 between 24 and 65536, and for an aligned buffer of a permitted length at least that and less than 8 more |
| `FcgiWriterSteps.PutFits` | library/server/libfcgi/Clib/libfcgi/libfcgi/fcgiapp.c:326-340 | bytes that fit are appended in one piece |
| `FcgiWriterSteps.PutSplit` | library/server/libfcgi/Clib/libfcgi/libfcgi/fcgiapp.c:326-359 | writing a + b is writing a and then, if that succeeded, b |
| `FcgiWriterSteps.FlushMakesRoom` | library/server/libfcgi/Clib/libfcgi/libfcgi/fcgiapp.c:1412-1458 | an emptied buffer has room for another byte, or the stream is closed |
| `FcgiWriter.WriterStream.constructor` | library/server/libfcgi/Clib/libfcgi/libfcgi/fcgiapp.c:1792-1853 | a new writer is empty, with the header slot reserved |
| `FcgiWriter.WriterStream.Seal` | library/server/libfcgi/Clib/libfcgi/libfcgi/fcgiapp.c:1419-1440 | header and padding are filled in around the content in place, making it one record; no content makes no record |
| `FcgiWriter.WriterStream.EmptyBuffer` | library/server/libfcgi/Clib/libfcgi/libfcgi/fcgiapp.c:1412-1458 | the buffer goes out as one whole record and is empty again, or the error is kept |
| `FcgiWriter.WriterStream.PutChar` | library/server/libfcgi/Clib/libfcgi/libfcgi/fcgiapp.c:298-309 | the byte is buffered, after a flush if the buffer is full |
| `FcgiWriter.WriterStream.PutStr` | library/server/libfcgi/Clib/libfcgi/libfcgi/fcgiapp.c:326-359 | the same stream state and the same wire bytes as one PutChar for every byte, record boundaries included |
| `FcgiWriter.WriterStream.FFlush` | library/server/libfcgi/Clib/libfcgi/libfcgi/fcgiapp.c:915-921 | what is buffered goes out; nothing happens on a closed stream |
| `FcgiWriter.WriterStream.WriteCloseRecords` | library/server/libfcgi/Clib/libfcgi/libfcgi/fcgiapp.c:1352-1386 | the closing records are added in raw mode, END_REQUEST only by the last writer |
| `FcgiWriter.WriterStream.FClose` | library/server/libfcgi/Clib/libfcgi/libfcgi/fcgiapp.c:940-957 | the content, the end of the stream and perhaps the end of the request go out, once; 0 exactly without an error |
| `FcgiEmission.BufferArithmetic` | library/server/libfcgi/Clib/libfcgi/libfcgi/fcgiapp.c:1423-1436 | header, content and padding never pass the end of the buffer, MakeHeader's assertions hold, and its fields read back |
| `FcgiEmission.PutStrMoves` | library/server/libfcgi/Clib/libfcgi/libfcgi/fcgiapp.c:326-359 | a write without error sends whole records of the stream, and every byte is either sent or still buffered, in order |
| `FcgiEmission.CloseSends` | library/server/libfcgi/Clib/libfcgi/libfcgi/fcgiapp.c:1352-1458 | closing without error puts exactly the closing records, whole and in order, on the wire, though raw mode may split them over flushes |
| `FcgiSession.CallKeeps` | library/server/libfcgi/Clib/libfcgi/libfcgi/fcgiapp.c:298-359 | any call that ends without error keeps the shape of the stream and sends only whole records |
| `FcgiSession.StepStreams` | library/server/libfcgi/Clib/libfcgi/libfcgi/fcgiapp.c:1352-1458 | one call on either writer, or a change of the exit status, sends whole records and keeps the promise about them |
| `FcgiSession.StepKeeps` | library/server/libfcgi/Clib/libfcgi/libfcgi/fcgiapp.c:1352-1458 | and the wire of the request grows by just these |
| `FcgiSession.EveryInterleaving` | library/server/libfcgi/Clib/libfcgi/libfcgi/fcgiapp.c:915-957 | over every interleaving of writes, flushes and closes: whole records at every boundary, no empty record before its stream's close, none for an unused error stream, END_REQUEST once, last, with the second close |
| `FcgiSession.CallKeepsSound` | library/server/libfcgi/Clib/libfcgi/libfcgi/fcgiapp.c:1412-1458 | the bounds of every buffer are kept by every call, with or without errors |
| `FcgiRoundTrip.SplittingDoesNotMatter` | library/server/libfcgi/Clib/libfcgi/libfcgi/fcgiapp.c:298-359 | any calls and the same calls byte by byte leave the same stream and the same wire, errors included |
| `FcgiRoundTrip.RunCallsSends` | library/server/libfcgi/Clib/libfcgi/libfcgi/fcgiapp.c:298-359 | a run of calls leaves on the wire whole records that carry what was put and is no longer buffered |
| `FcgiRoundTrip.WireIsRead` | library/server/libfcgi/Clib/libfcgi/libfcgi/fcgiapp.c:1655-1780 | a closed stream on the wire is read back as what was put to it, then the end |
| `FcgiRoundTrip.RoundTrip` | library/server/libfcgi/Clib/libfcgi/libfcgi/fcgiapp.c:940-957 | whatever any calls put before a close, a reader of the same type and id reads exactly that, then the end with error 0, consuming nothing behind it |
| `FcgiLoopback.Interleave` | library/server/libfcgi/Clib/libfcgi/libfcgi/fcgiapp.c:915-957 | the two stream objects, called in any interleaving, do what the run of their values says |
| `FcgiCapacity.CallExactly` | library/server/libfcgi/Clib/libfcgi/libfcgi/fcgiapp.c:298-359 | any call on a writer fails if and only if the bytes it has to send do not fit what the connection takes, and otherwise sends exactly so many |
| `FcgiCapacity.CallsExactly` | library/server/libfcgi/Clib/libfcgi/libfcgi/fcgiapp.c:298-359 | calls and then a close: no write fails if and only if everything to be sent fits |
| `FcgiCapacity.OpsExactly` | library/server/libfcgi/Clib/libfcgi/libfcgi/fcgiapp.c:915-957 | the same over every interleaving of calls on the two writers |
| `FcgiCapacity.EveryInterleavingThatFits` | library/server/libfcgi/Clib/libfcgi/libfcgi/fcgiapp.c:915-957 | from the start of a request, an interleaving runs without error and keeps the promise about the wire if and only if its bytes fit |
| `FcgiShortage.CallLags` | library/server/libfcgi/Clib/libfcgi/libfcgi/fcgiapp.c:1412-1458 | any call on a connection that accepts less does the same as on one that accepts more, or uses it up and has sent a prefix |
| `FcgiShortage.FailingRunSendsPrefix` | library/server/libfcgi/Clib/libfcgi/libfcgi/fcgiapp.c:915-957 | over every interleaving and wherever a write fails, the wire is the prefix, as long as the connection accepted bytes, of the wire the same calls leave with more room |
| `FcgiExchange.ReaderAnswers` | library/server/libfcgi/Clib/libfcgi/libfcgi/fcgiapp.c:1482-1644 | a lawful record met by the reader is answered on the shared connection as the exchange says |
| `FcgiExchange.AnswerIsRecords` | library/server/libfcgi/Clib/libfcgi/libfcgi/fcgiapp.c:1521-1575 | every answer is a whole record, or none |
| `FcgiExchange.QueryAnswer` | library/server/libfcgi/Clib/libfcgi/libfcgi/fcgiapp.c:1482-1521 | the one record that answers a query decodes to the values of the names asked for |
| `FcgiExchange.EventKeeps` | library/server/libfcgi/Clib/libfcgi/libfcgi/fcgiapp.c:915-957 | a call on a writer, or a record met by the reader, keeps the promise about the wire they share |
| `FcgiExchange.EveryExchange` | library/server/libfcgi/Clib/libfcgi/libfcgi/fcgiapp.c:915-957 | over every interleaving of the two writers and the reader: whole records of three sources, the writers' promise, one answer for each record met that has one, in order; END_REQUEST of the request is on the wire exactly once after both closes if and only if the peer did not begin it again |
| `FcgiLoopback.Loopback` | library/server/libfcgi/Clib/libfcgi/libfcgi/fcgiapp.c:1943-1960 | a writer object and a reader object joined by connections with any partial writes and reads: the writing succeeds if and only if its records fit, and then what is read is what was put, and then the end |
| `FcgiServe.AcceptSent` | library/server/libfcgi/Clib/libfcgi/libfcgi/fcgiapp.c:2219-2297 | the objects accept any properly sent connection of any role, with its id, its keep flag, the environment in order and the input still to be read |
| `FcgiServe.FoundBehindRefused` | library/server/libfcgi/Clib/libfcgi/libfcgi/fcgiapp.c:2226-2284 | behind any number of refused connections, the request of the next proper one is found |
| `FcgiServe.NoneFound` | library/server/libfcgi/Clib/libfcgi/libfcgi/fcgiapp.c:2226-2284 | refused connections alone give no request |
| `FcgiServe.AcceptBehindRefused` | library/server/libfcgi/Clib/libfcgi/libfcgi/fcgiapp.c:2219-2297 | with any number of refused connections waiting first and a proper one behind them, FCGX_Accept_r gives 0 with the environment and input of the proper one; the refused ones are gone, and what waits behind it still waits |
| `FcgiServe.ReadInput` | library/server/libfcgi/Clib/libfcgi/libfcgi/fcgiapp.c:153-197 | its STDIN content is read to the end without error, and then, exactly for a filter, its DATA content |
| `FcgiServe.Serve` | library/server/libfcgi/Clib/libfcgi/libfcgi/fcgiapp.c:2219-2329 | accepting and reading, end to end, for any padding and undisturbing records on the way and any cutting of the reads |
| `FcgiServe.EnvironmentLookup` | library/server/libfcgi/Clib/libfcgi/libfcgi/fcgiapp.c:1131-1146 | a name without = finds the role for FCGI_ROLE and otherwise the first pair sent with it |
| `FcgiServe.LookUp` | library/server/libfcgi/Clib/libfcgi/libfcgi/fcgiapp.c:1131-1146 | FCGX_GetParam on the environment of an accepted connection gives the value sent with the first pair of the name, up to a NUL |
| `FcgiConversation.RoleEntries` | library/server/libfcgi/Clib/libfcgi/libfcgi/fcgiapp.c:2254-2269 | the role entries spelt out, and no entry for any other role |
| `FcgiConversation.FilterAccepted` | library/server/libfcgi/Clib/libfcgi/libfcgi/fcgiapp.c:2219-2297 | the 70 bytes of one filter request, written out, are accepted as request 258 with the entries FCGI_ROLE=FILTER and A=B, and its input and its data are read |
| `FcgiConversation.ResponseSent` | library/server/libfcgi/Clib/libfcgi/libfcgi/fcgiapp.c:2043-2062 | what the web server gets for any short output, error output and exit status of request 258, byte by byte: error stream, its end, output, its end, END_REQUEST |
| `JqFiring.PassOrder` | library/network/websocket/client/www/js/jquery-1.10.1.js:3066-3082 | at any point of a pass, what has run followed by what is pending is the pass and its additions in order, less what was removed before its turn |
| `JqFiring.PassRunsEachOnce` | library/network/websocket/client/www/js/jquery-1.10.1.js:3066-3082 | a pass not cut short runs exactly the registrations, each a function with its number, not removed before their turn, each once, in list order |
| `JqFiring.HistoryRunsEachOnce` | library/network/websocket/client/www/js/jquery-1.10.1.js:3066-3082 | the same of every such pass anywhere in a history |
| `JqFiring.LiveInOrder` | library/network/websocket/client/www/js/jquery-1.10.1.js:3095-3124 | registrations stay in the order in which they were made |
| `JqCallbacks.CallbackList.constructor` | library/network/websocket/client/www/js/jquery-1.10.1.js:3041-3065 | a new list is empty, not fired, and has a stack unless it fires once |
| `JqCallbacks.CallbackList.PushAll` | library/network/websocket/client/www/js/jquery-1.10.1.js:3095-3117 | the functions are appended; a unique list has every argument afterwards, and each new one once; each has its own event in the history, and a running pass is extended by them |
| `JqCallbacks.CallbackList.Splice` | library/network/websocket/client/www/js/jquery-1.10.1.js:3131-3140 | one entry is deleted, the registration of just that entry is recorded as removed, and the indexes of a running pass are adjusted so that its queue loses just that one |
| `JqCallbacks.CallbackList.Remove` | library/network/websocket/client/www/js/jquery-1.10.1.js:3126-3145 | every occurrence of every argument is gone, everything else stays in order, and only registrations of the arguments are recorded as removed |
| `JqCallbacks.CallbackList.Disable` | library/network/websocket/client/www/js/jquery-1.10.1.js:3158-3161 | list, stack and memory are gone, also from a running pass |
| `JqCallbacks.CallbackList.Lock` | library/network/websocket/client/www/js/jquery-1.10.1.js:3167-3173 | no more repeated fires; a list that remembers nothing is disabled |
| `JqCallbacks.CallbackList.Enqueue` | library/network/websocket/client/www/js/jquery-1.10.1.js:3182-3184 | a fire made while firing is recorded and queued last |
| `JqCallbacks.CallbackList.NextCallback` | library/network/websocket/client/www/js/jquery-1.10.1.js:3073-3074 | the callback at the firing index is the head of the queue of the pass, and its call is recorded |
| `JqDeferred.World.AddTo` | library/network/websocket/client/www/js/jquery-1.10.1.js:3095-3124 | the functions are registered in order, which the history shows; a running pass is extended, a remembered fire starts a pass at the first of them, and otherwise nothing runs |
| `JqDeferred.World.FireWith` | library/network/websocket/client/www/js/jquery-1.10.1.js:3179-3190 | a fire is queued, run at once or ignored just as the list's state says; exactly if it is not ignored, exactly its data is recorded as accepted; on a deferred the first outcome wins, and later outcomes and notifications change nothing |
| `JqDeferred.World.FirePass` | library/network/websocket/client/www/js/jquery-1.10.1.js:3066-3092 | a pass and all that follows from it, with callbacks acting on any list, leaves every list consistent and no pass running that was not before |
| `JqDeferred.World.RunPass` | library/network/websocket/client/www/js/jquery-1.10.1.js:3066-3078 | the loop ends with nothing pending, or cut, which happens only on a list that stops on false and makes it forget its data |
| `JqDeferred.World.FinishPass` | library/network/websocket/client/www/js/jquery-1.10.1.js:3079-3092 | the oldest fire in the queue is begun next; a list that fires once is emptied or disabled |
| `JqDeferred.World.OneTurn` | library/network/websocket/client/www/js/jquery-1.10.1.js:3073-3077 | the function at the firing index is called, which the history shows; the pass stops and forgets its data if and only if the list stops on false and a user's function returned false, and otherwise goes on behind it |
| `JqDeferred.World.CallUser` | library/network/websocket/client/www/js/jquery-1.10.1.js:3073-3077 | a user's function may do anything its script says to any list and still finds and leaves every promise kept |
| `JqDeferred.World.Do` | library/network/websocket/client/www/js/jquery-1.10.1.js:3179-3190 | one operation of a callback or of the program; resolving or rejecting a deferred settles it, with its own outcome and arguments if it had none |
| `JqDeferred.World.Perform` | library/network/websocket/client/www/js/jquery-1.10.1.js:3066-3190 | any operations one after the other keep every list consistent and every promise, and settle a deferred if one of them does |
| `JqDeferred.World.CallBuiltin` | library/network/websocket/client/www/js/jquery-1.10.1.js:3264-3271 | what the functions a deferred adds first do to state and lists |
| `JqDeferred.World.Deferred` | library/network/websocket/client/www/js/jquery-1.10.1.js:3206-3291 | a new deferred keeps the promise, with nothing fired |
| `JqDeferred.World.FiresIffPending` | library/network/websocket/client/www/js/jquery-1.10.1.js:3179-3190 | resolve, reject or notify is effective if and only if the deferred has no outcome |
| `JqDeferred.SettlesOnce` | library/network/websocket/client/www/js/jquery-1.10.1.js:3206-3291 | whenever user code runs: the state is Resolved, Rejected or Pending if and only if the deferred was settled through its done list, its fail list or not yet; it has changed at most once, the other outcome's callbacks never ran, the winner's ran once each in registration order with the settling arguments, and none is left over outside a pass |
| `JqDeferred.FirstFireDecides` | library/network/websocket/client/www/js/jquery-1.10.1.js:3206-3291 | the outcome of a deferred is that of the first fire ever made, in whatever nesting, that can settle |
| `JqDeferred.FirstSettlingMeans` | library/network/websocket/client/www/js/jquery-1.10.1.js:3206-3213 | that fire is one that was made and can settle, and none before it could |
| `JqDeferred.AnyRun` | library/network/websocket/client/www/js/jquery-1.10.1.js:3206-3291 | the same after every run of any operations with any callbacks in any nesting, with all of the winner's callbacks run: the state is Resolved if and only if the first fire made that can settle is a resolve, Rejected if and only if it is a reject, and Pending if and only if there is none; the first operation settles if it can |
| `JqDeferred.FiringUnderMutation` | library/network/websocket/client/www/js/jquery-1.10.1.js:3066-3145 | in the history of any list, every pass neither stopped nor disabled called the functions of exactly those of its registrations not removed before their turn, once and in list order; and the list holds the functions of what is registered |
| `JqDeferred.FiresInOrder` | library/network/websocket/client/www/js/jquery-1.10.1.js:3079-3086 | the fires a repeatable list did not ignore become passes in the order in which they were made, and none is left over between passes |
| `JqWhen.CallTells` | library/network/websocket/client/www/js/jquery-1.10.1.js:3306-3316 | a call of the master before the decisive one decides if it can, and one behind it changes nothing |
| `JqWhen.ResolveKeeps` | library/network/websocket/client/www/js/jquery-1.10.1.js:3306-3316 | the value goes to its place, the count drops by one, and the master is resolved exactly at zero |
| `JqWhen.RejectKeeps` | library/network/websocket/client/www/js/jquery-1.10.1.js:3329 | the first rejection settles the master |
| `JqWhen.NotifyKeeps` | library/network/websocket/client/www/js/jquery-1.10.1.js:3306-3311 | progress changes nothing of that |
| `JqWhen.NotifiedWithNewest` | library/network/websocket/client/www/js/jquery-1.10.1.js:3306-3331 | when a subordinate makes progress the master is notified once, with a value for every place: the new one in its own, the newest in the others |
| `JqWhen.ProgressIsNewest` | library/network/websocket/client/www/js/jquery-1.10.1.js:3306-3331 | after any happenings every place of progressValues holds the newest progress of its subordinate |
| `JqWhen.SetUpKeeps` | library/network/websocket/client/www/js/jquery-1.10.1.js:3294-3340 | after setup, with settled and unsettled promises and plain values in any mixture, the count is that of unresolved promises and the master is settled just when it should be |
| `JqWhen.ReactAllKeeps` | library/network/websocket/client/www/js/jquery-1.10.1.js:3306-3335 | any happenings in any order keep all that |
| `JqWhen.WholeTells` | library/network/websocket/client/www/js/jquery-1.10.1.js:3294-3343 | the first call of the master that can settle it is a resolution exactly when every subordinate is resolved, with every value in argument order, and otherwise a rejection exactly when one was rejected, with the first rejection |
| `JqWhen.Completion` | library/network/websocket/client/www/js/jquery-1.10.1.js:3294-3343 | any run of a master on which the calls made for some happenings, in any nesting, are all that was fired ends so: it is Resolved if and only if every subordinate is, Rejected if and only if one was rejected, and every callback added for the outcome has run once, in order, with those arguments |
| `JqWhen.When.constructor` | library/network/websocket/client/www/js/jquery-1.10.1.js:3294-3340 | the call itself leaves what the setup says |
| `JqWhen.When.CallMaster` | library/network/websocket/client/www/js/jquery-1.10.1.js:3306-3316 | the master is called with an argument list: a call before the outcome begins a pass, and one after it changes no list |
| `JqWhen.When.Notify` | library/network/websocket/client/www/js/jquery-1.10.1.js:3306-3311 | a waiting master is notified with all progress so far, which begins a pass of its progress list; the lists of a settled one do not change |
| `JqWhen.When.Attach` | library/network/websocket/client/www/js/jquery-1.10.1.js:3342 | callbacks added to the promise that when returned leave everything as it is |
| `JqWhen.When.Deliver` | library/network/websocket/client/www/js/jquery-1.10.1.js:3306-3335 | the object does what the closure on values does, over any happenings |
| `JqWhen.AnyCompletion` | library/network/websocket/client/www/js/jquery-1.10.1.js:3294-3343 | objects and values together, from the call to the outcome |
| `JqWhen.SameInAnyOrder` | library/network/websocket/client/www/js/jquery-1.10.1.js:3306-3316 | the same happenings in any other order end in the same state of the subordinates |
| `SizzleCombinator.ReachesMeansSome` | library/network/websocket/client/www/js/jquery-1.10.1.js:2547-2554 | the plain search finds exactly: some node on the way that matches or, for > and +, the nearest one |
| `SizzleCombinator.VisitKnown` | library/network/websocket/client/www/js/jquery-1.10.1.js:2575-2578 | an entry with the current key gives the answer of the plain search, or says nothing of the rest of the way |
| `SizzleCombinator.Remembered` | library/network/websocket/client/www/js/jquery-1.10.1.js:2579-2582 | writing an entry keeps all entries right, though it overwrites those of other combinators of the same direction |
| `SizzleCombinator.NextCandidate` | library/network/websocket/client/www/js/jquery-1.10.1.js:2808-2812 | raising cachedruns for the next candidate leaves every remembered failure right and no longer final |
| `SizzleCombinator.NewRun` | library/network/websocket/client/www/js/jquery-1.10.1.js:2790-2796 | raising dirruns makes all that was left on the nodes harmless |
| `SizzleCombinator.Sizzle.Visit` | library/network/websocket/client/www/js/jquery-1.10.1.js:2571-2586 | one node on the way with its cache, looked up or written |
| `SizzleCombinator.Sizzle.SearchCached` | library/network/websocket/client/www/js/jquery-1.10.1.js:2556-2588 | the search with caches gives the answer of the plain search and keeps the caches right |
| `SizzleCombinator.Sizzle.SearchPlain` | library/network/websocket/client/www/js/jquery-1.10.1.js:2562-2569 | the search on XML documents gives it too and writes nothing |
| `SizzleCombinator.Sizzle.Nearest` | library/network/websocket/client/www/js/jquery-1.10.1.js:2547-2554 | the search for > and + gives the answer for the closest node |
| `SizzleCombinator.Sizzle.MatchElement` | library/network/websocket/client/www/js/jquery-1.10.1.js:2592-2604 | a compound matcher of any depth agrees with the plain search, for the context and document kind it is called with |
| `SizzleCombinator.Sizzle.SuperMatcher` | library/network/websocket/client/www/js/jquery-1.10.1.js:2775-2818 | the results are the candidates that match by the plain search, for any context and for candidates in any order and repeated, on whatever earlier runs left on the nodes |
| `SizzleCompile.Compiler.AddCombinator` | library/network/websocket/client/www/js/jquery-1.10.1.js:2542-2546 | closures get numbers never used before |
| `SizzleCompile.Compiler.MatcherFromTokens` | library/network/websocket/client/www/js/jquery-1.10.1.js:2720-2773 | whatever context it is called with, the matcher means what the tokens mean, read from right to left: it matches a node if and only if there is a way to it through the document by parents and previous siblings, as the tokens ask, from the context or, without a leading relation, from below it |
| `SizzleCompile.Compiler.Compile` | library/network/websocket/client/www/js/jquery-1.10.1.js:2877-2904 | every selector of a group is compiled so, its ways included |
| `SizzleCompile.CompileAll` | library/network/websocket/client/www/js/jquery-1.10.1.js:2877-2904 | compiling one group leaves the matchers of those before as they were |
| `SizzleCompile.SelectAll` | library/network/websocket/client/www/js/jquery-1.10.1.js:2775-2904 | over any run of selections, with compiled selectors used again and again with any contexts, each result is exactly the candidates the tokens mean, in their order: those that there is a way to by some selector of the group |
| `SizzleCompile.MeansWay` | library/network/websocket/client/www/js/jquery-1.10.1.js:2720-2773 | the recursive meaning of the tokens is that there is a way, told by parents and previous siblings alone |
| `SizzleCompile.SelectedBelowContext` | library/network/websocket/client/www/js/jquery-1.10.1.js:2722-2738 | without a leading relation, on a document neither XML nor itself the context, whatever is selected has the context, or a node of it, as an ancestor at some depth, whatever other relations the selector has |
| `SizzleCompile.SimpleSelector` | library/network/websocket/client/www/js/jquery-1.10.1.js:2722-2738 | a simple selector selects exactly what passes it and stands below the context or, on an XML document or from the document, exactly what passes it |
| `SizzleCompile.ChildrenOfContext` | library/network/websocket/client/www/js/jquery-1.10.1.js:2722-2738 | with a leading > it selects exactly the children of the context that pass it, on any document |
| `SizzleNth.InCycleMeansSomeN` | library/network/websocket/client/www/js/jquery-1.10.1.js:2213-2215 | the final condition, with JavaScript's remainder and division by zero, holds if and only if the position is first * n + last for some n >= 0 |
| `SizzleNth.PositionIsNumber` | library/network/websocket/client/www/js/jquery-1.10.1.js:2153-2211 | a position is the number of elements, or of nodes of one name, from the first or the last child up to there |
| `SizzleNth.Parent.NoneOnWay` | library/network/websocket/client/www/js/jquery-1.10.1.js:2153-2165 | no counted sibling on one side means position one from that side |
| `SizzleNth.Parent.SeekFromCache` | library/network/websocket/client/www/js/jquery-1.10.1.js:2169-2188 | resumed from the remembered place or restarted, the walk counts the position from the front and remembers it |
| `SizzleNth.Parent.SeekFromEnd` | library/network/websocket/client/www/js/jquery-1.10.1.js:2190-2211 | looked up or walked, the position from the end, every element passed remembering its own |
| `SizzleNth.Parent.SeekPlain` | library/network/websocket/client/www/js/jquery-1.10.1.js:2194-2211 | the position among nodes of one name, or without caches |
| `SizzleNth.Parent.Filter` | library/network/websocket/client/www/js/jquery-1.10.1.js:2131-2218 | the filter holds exactly when counting says so, and keeps the caches right |
| `SizzleNth.Parent.Queries` | library/network/websocket/client/www/js/jquery-1.10.1.js:2143-2217 | any queries, each with its own kind and numbers, in any order in one run agree with counting |
| `SizzleNth.Parent.NewRun` | library/network/websocket/client/www/js/jquery-1.10.1.js:2173-2175 | after a new run begins, any change of the children leaves no wrong cache |
| `Calendar.YearLength` | draft/library/server/wsf_js_widget/assets/bootstrap-datepicker.js:1190-1195 | the closed form for day numbers of years and the month lengths agree on every year; DaysUntilNext and FourCenturies fix the lengths |
| `Calendar.MakeDayIsGregorian` | draft/library/server/wsf_js_widget/assets/bootstrap-datepicker.js:25-27 | every date has the day number of the Gregorian calendar by a closed formula, which counts months from March |
| `Calendar.DaysUntilNext` | draft/library/server/wsf_js_widget/assets/bootstrap-datepicker.js:1190-1195 | a month has the days there are, by that formula, until the next one begins |
| `Calendar.FourCenturies` | draft/library/server/wsf_js_widget/assets/bootstrap-datepicker.js:1190-1195 | 400 years are 146097 days, whole weeks |
| `Calendar.KnownDays` | draft/library/server/wsf_js_widget/assets/bootstrap-datepicker.js:607-610 | 1970 began with day 0, a Thursday; 1 August 2014 was a Friday; February had 28 days in 1900 and 29 in 2000 |
| `Calendar.UTCDates` | draft/library/server/wsf_js_widget/assets/bootstrap-datepicker.js:25-27 | Date.UTC gives the day of any year as it stands, except that 0 to 99 are those of the twentieth century |
| `Calendar.NormalizeKeepsDay` | draft/library/server/wsf_js_widget/assets/bootstrap-datepicker.js:607-610 | carrying days over month ends in either direction keeps the day number |
| `Calendar.OneDate` | draft/library/server/wsf_js_widget/assets/bootstrap-datepicker.js:607-610 | a day number names one date |
| `Calendar.FromDayInverts` | draft/library/server/wsf_js_widget/assets/bootstrap-datepicker.js:607-610 | the date of a day number has that day number |
| `Calendar.MakeDayDate` | draft/library/server/wsf_js_widget/assets/bootstrap-datepicker.js:25-27 | a year, month and day out of range stand for the date their day number names |
| `Calendar.Date.SetUTCDate` | draft/library/server/wsf_js_widget/assets/bootstrap-datepicker.js:885-892 | a day out of range moves to the month it falls in |
| `Calendar.Date.SetUTCMonth` | draft/library/server/wsf_js_widget/assets/bootstrap-datepicker.js:871-892 | a month out of range moves to its year, and a day too large on to the next month |
| `DatepickerMonth.MoveMonth` | draft/library/server/wsf_js_widget/assets/bootstrap-datepicker.js:857-895 | for every integer: that many months away, with the day clamped once to the last day of that month, so that one more would be no date, and a new Date unless the count is zero |
| `DatepickerMonth.ResetDay` | draft/library/server/wsf_js_widget/assets/bootstrap-datepicker.js:889-894 | stepping the day down ends at the last day of the new month, in the right year |
| `DatepickerMonth.MoveYear` | draft/library/server/wsf_js_widget/assets/bootstrap-datepicker.js:897-899 | the same with twelve months a year |
| `DatepickerMonth.YearsAway` | draft/library/server/wsf_js_widget/assets/bootstrap-datepicker.js:897-899 | moving by years changes at most the 29th of February |
| `DatepickerMonth.ThereAndBack` | draft/library/server/wsf_js_widget/assets/bootstrap-datepicker.js:857-895 | moving back returns to the same month, and to the same day unless it was clamped |
| `DatepickerMonth.ClampedOnce` | draft/library/server/wsf_js_widget/assets/bootstrap-datepicker.js:857-895 | how one long move differs from two: by the smaller of the days |
| `DatepickerGrid.Fill` | draft/library/server/wsf_js_widget/assets/bootstrap-datepicker.js:607-660 | 42 cells for the 42 consecutive days from the start of the page, with their day numbers and classes |
| `DatepickerGrid.PageStarts` | draft/library/server/wsf_js_widget/assets/bootstrap-datepicker.js:607-610 | the page starts on weekStart and has one to seven days of the month before |
| `DatepickerGrid.PageShows` | draft/library/server/wsf_js_widget/assets/bootstrap-datepicker.js:551-561 | the page is the end of the month before, all old, the whole month, and the beginning of the month after, all new |
| `DatepickerGrid.MonthIsShown` | draft/library/server/wsf_js_widget/assets/bootstrap-datepicker.js:607 | the month is on its page if and only if its year is not one of 0 to 99, which Date.UTC moves to the twentieth century |
| `DatepickerGrid.Click` | draft/library/server/wsf_js_widget/assets/bootstrap-datepicker.js:808-829 | the date a click sets, for each class |
| `DatepickerGrid.ClickGivesDate` | draft/library/server/wsf_js_widget/assets/bootstrap-datepicker.js:808-829 | on the page of any month, a click gives back the date of the cell if and only if ClicksBack: the cell's year is not one of 0 to 99 or, if the month's own year is, the cell is of the month after and the month is not December 99 |
| `DatepickerGrid.FillAndClick` | draft/library/server/wsf_js_widget/assets/bootstrap-datepicker.js:587-660 | the two together |
| `DatepickerFormat.FormatDate` | draft/library/server/wsf_js_widget/assets/bootstrap-datepicker.js:1307-1333 | separators and parts alternate |
| `DatepickerFormat.TextMeans` | draft/library/server/wsf_js_widget/assets/bootstrap-datepicker.js:1307-1319 | d and m show the number without a leading zero, dd and mm two digits, yy the last two digits of a year of four, yyyy the whole year with its sign |
| `DatepickerFormat.ThreePartsAlternate` | draft/library/server/wsf_js_widget/assets/bootstrap-datepicker.js:1320-1333 | separators and parts alternate, beginning and ending with a separator |
| `DatepickerFormat.Formatted2014` | draft/library/server/wsf_js_widget/assets/bootstrap-datepicker.js:1307-1333 | 5 August 2014 is 05/08/2014 in dd/mm/yyyy and 5.8.14 in d.m.yy |
| `DatepickerFormat.SeparatorsOfAscii` | draft/library/server/wsf_js_widget/assets/bootstrap-datepicker.js:1197 | of the printable ASCII characters, all are punctuation but letters, digits and four others |
| `DatepickerFormat.SetMonth` | draft/library/server/wsf_js_widget/assets/bootstrap-datepicker.js:1244-1254 | the month setter's loops end in the month asked for, with the day clamped |
| `DatepickerFormat.ParseDate` | draft/library/server/wsf_js_widget/assets/bootstrap-datepicker.js:1208-1305 | a relative date is counted from today; else tokens are matched with parts, and the setters run in their fixed order |
| `DatepickerFormat.TodayUnlessMatched` | draft/library/server/wsf_js_widget/assets/bootstrap-datepicker.js:1237-1305 | with another number of tokens than parts, such as none, the date is today's |
| `DatepickerFormat.NumbersAreReached` | draft/library/server/wsf_js_widget/assets/bootstrap-datepicker.js:1240-1303 | three numbers in a text, whatever they are, set the day they stand for, whatever day it is today: the month wraps around within its year, days out of range are carried |
| `DatepickerFormat.NotANumber` | draft/library/server/wsf_js_widget/assets/bootstrap-datepicker.js:1294-1303 | a part whose token is not a number is as if it were not there |
| `DatepickerRelative.ParseRelative` | draft/library/server/wsf_js_widget/assets/bootstrap-datepicker.js:1212-1236 | the parts of a relative date move the date one after the other |
| `DatepickerRelative.DaysAway` | draft/library/server/wsf_js_widget/assets/bootstrap-datepicker.js:1221-1228 | days and weeks move the day number by just so many days |
| `DatepickerRelative.WrittenAreRead` | draft/library/server/wsf_js_widget/assets/bootstrap-datepicker.js:1212-1219 | the text of any number of signed parts is taken for a relative date and read as just these parts |
| `DatepickerRelative.MonthsAreAway` | draft/library/server/wsf_js_widget/assets/bootstrap-datepicker.js:1221-1232 | months and years move by just so many months, to the same day or the last of the month |
| `DatepickerRelative.RelativeReaches` | draft/library/server/wsf_js_widget/assets/bootstrap-datepicker.js:1212-1236 | any list of signed days, weeks, months and years is read as such, takes effect from today one after the other, and the date is reached if and only if it is in no year from 0 to 99 |
| `DatepickerFormat.TokensOfFormatted` | draft/library/server/wsf_js_widget/assets/bootstrap-datepicker.js:1197 | the tokens of a formatted date are the digits of its parts, for any separators |
| `DatepickerFormat.SettersReach` | draft/library/server/wsf_js_widget/assets/bootstrap-datepicker.js:1240-1258 | setting year, month and day in that order reaches the date from any other, the 29th of February and the 31st included |
| `DatepickerFormat.ParseInvertsFormat` | draft/library/server/wsf_js_widget/assets/bootstrap-datepicker.js:1237-1333 | parsing a formatted date gives it back, whatever day it is today, if and only if its year is not negative or, with only the last two digits of a year from 1000 to 9999 shown, if and only if it is one of 2000 to 2099 |
| `DatepickerFormat.NotRelative` | draft/library/server/wsf_js_widget/assets/bootstrap-datepicker.js:1212 | a formatted date is never taken for a relative one |
| `DatepickerFormat.FormatThenParse` | draft/library/server/wsf_js_widget/assets/bootstrap-datepicker.js:1208-1333 | the two methods one after the other |

## Left out

- FastCGI: `FCGX_UnGetChar` and `stopUnget`, the reader's unused `wrNext`, `FCGX_VFPrintF`, `FCGX_ClearError` and the wrappers around one default request.
- FastCGI: sockets, locks, named pipes, address checks and signals; listening is a queue of connections, and a failed accept an empty queue.
- FastCGI: pipelining over a kept connection; bytes buffered beyond a request go away with its reader, as in the code.
- FcgiReader.ReaderStream.AnswerValues: the padding of the reply, uninitialised in the code, is zeros; a write beyond the array or through NULL ends the run, and what a program does after one is not modelled.
- FastCGI: running out of memory, for an entry whose size is an int too.
- jQuery: `then`, `pipe`, `always`, `promise( obj )`, `empty`, nested argument lists of `add`, and `this` and the argument list of a call, which are one token.
- jQuery: a `when` with one argument, which is its own master or an already resolved one.
- JqWhen.When.Deliver: the object is driven from outside the master's callbacks; callbacks of the master that settle or notify a subordinate are covered by JqWhen.Completion, on values.
- Sizzle: tokenizing, positional set matchers, pseudo-classes that take selectors, the choice of candidates, and browser quirks; the simple selectors of a compound are the set of nodes that pass them, and runs nested in a run, which such pseudo-classes start, are not modelled.
- SizzleNth.Parent.Filter: elements without a parent, for which the filter gives nothing, are not modelled.
- Calendar.Date.SetUTCFullYear: the range of JavaScript's time values and invalid dates are not modelled, so that near the year 275760 setters may fail in ways the model does not show.
- DatepickerFormat.ParseDate: month and day names, and the splitting of a format string into parts, are not modelled; in a round trip a two-digit year stands for one of 1000 to 9999; a token is read without the Unicode blanks that `parseInt` would skip.
- Date picker: building HTML, placement, keys, ranges, locales, week numbers, and the classes other than old and new.
- Everything else in the repository.

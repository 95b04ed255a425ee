# Proofs about the CAN bit-timing search and the Mongoose 3.6 core

This project models, in Dafny, the two pieces of the repository with real logic in them, and proves what
they promise.

* `mpc5121/dev.c`: the search for a CAN bit timing (`CanBitTiming.dfy`,
  `CanExample.dfy`).
* `m36/mongoose36.c`, the embedded web server:
  * the queue of accepted sockets and the start/stop protocol of master and workers
    (`SocketQueue.dfy`, `ServerProtocol.dfy`, `ServerProgress.dfy`);
  * requests on a kept-alive connection: the in-place tokenizer (`Tokenizer.dfy`), quoted strings
    (`QuotedString.dfy`), the header section (`HttpMessage.dfy`, `HttpFormat.dfy`, `HttpRequest.dfy`),
    reading bodies (`BodyRead.dfy`), framing over a byte stream that arrives in arbitrary pieces
    (`HttpFraming.dfy`, `StaleLength.dfy`, `HugeLength.dfy`, `HttpConnection.dfy`), the Digest
    authorization header (`AuthHeader.dfy`);
  * the wildcard matcher (`Wildcard.dfy`), the percent codec (`UrlCodec.dfy`), the path normalizer
    (`PathNormalizer.dfy`), the server-side-include scanner (`Ssi.dfy`, `SsiTags.dfy`, `SsiPages.dfy`), base64
    (`Base64.dfy`);
  * the streaming hashes (`HashStream.dfy`, `Md5Block.dfy`, `Md5.dfy`, `Md5Vector.dfy`,
    `Sha1Block.dfy`, `Sha1.dfy`, `Sha1Vector.dfy`).

Code that works on buffers and contexts is modelled by methods over arrays and classes, each tied to a
function on values; the laws are lemmas about those functions. Bytes are `char`s where the code treats
them as text, and a `byte` type where it treats them as data. Machine arithmetic is written out where it
can wrap: `u32` in the bit-timing search, `bv32` in the rounds of MD5 and SHA-1, words modulo 2^32 in the bit
counts and in the index of SHA1Update, the narrowings in `mg_read`, and the 64-bit sum that decides how much
of the receive buffer is dropped after a request.

Some promises do not hold as one would first write them. For each of these the exact condition is proved,
for all inputs; the proof, or a lemma beside it, names an input for which the promise fails:

* No accurate setting lies outside the prescalers brp_min..brp_max that the bit-timing search visits if and
  only if the driver's limit is at most 500 (`CanBitTiming.RangeLosesNothingIff`). Up to that limit the search
  finds the very setting that a search over all prescalers finds; for every limit its winner is undominated
  among the settings in the range (`CanBitTiming.RangedSearchIsParetoOptimal`). Its largest product fits 32 bits
  if and only if the limit is at most 1073 (`CanBitTiming.ToleranceFitsIff`). The driver's default is 64.
* The tokenizer takes a quoted string apart into what was escaped if and only if the word has no backslash
  (`QuotedString.UnquoteUndoesEscapeIff`): it unescapes quotes only.
* `num_threads++` in `mg_start` is not protected by the mutex, so it and the `num_threads--` of a worker can
  overwrite each other. In every run the count exceeds the active workers by the decrements that are lost in this
  way, less the increments that are (`ServerProtocol.CountIsOffByLost`). It is exact in all runs if and only if no
  worker can fail to allocate its connection (`ServerProtocol.ExactCountNeedsAllocation`); and so is the assertion
  in the worker always true (`ServerProtocol.AssertionNeedsAllocation`), and the freed context never used again
  (`ServerProtocol.SafeStopNeedsAllocation`). Otherwise the two numbers decide. With more decrements lost the
  server never finishes stopping (`ServerProtocol.LostDecrementNeverStops`), and in all other cases it still can
  (`ServerProgress.CanStopIff`). With as many of both, and only then, no
  worker is active and the count is 0 when `stop_flag` is 2 (`ServerProtocol.NothingRunsAfterTwo`). With more
  increments lost, and as long as no assertion fails, the master stops waiting while exactly as many workers are
  active as the numbers differ by (`ServerProtocol.JoinIsEarlyByLost`): `ServerProtocol.LostIncrement` is a run that
  frees the context while a worker waits for a socket.
* `mg_read` narrows the number of buffered bytes, and the number of bytes to receive, to an int. A read of any
  size hands out the next part of the body, and counts it, if and only if it wants nothing, or it wants less
  than 2^31 bytes and the number of bytes read past the buffer, modulo 2^32, is at most 2^31
  (`BodyRead.ReadIsRightIff`). In any sequence of reads the first wrong one is the first that is begun more than
  2^31 bytes past the buffer or wants 2^31 bytes or more (`BodyRead.FirstWrongRead`). `BodyRead.ThirdReadIsWrong`
  copies from beyond the buffer. For a socket without SSL, `pull` converts the int back to an unsigned size: a
  negative one asks for more than is left (`BodyRead.AskedForTooMuchIff`), and from 2^32 bytes on no receives bring
  all (`BodyRead.LongReceiveNeverEnds`): `BodyRead.LongReadAsksForNothing` stops although the peer has not closed.
* The sum of header length and body length is one of 64 bits. What is dropped from the buffer after a request is
  what was intended if and only if the sum does not overflow (`HttpFraming.DiscardIsRightIff`). With
  `Content-Length: 9223372036854775807` the next request is looked for at the last character of the header section
  of this one (`HugeLength.NextIsInsideHead`).
* `content_len` is not among the attributes that are reset for each request: a request answered 505 keeps the
  value of the last valid request, or of an earlier connection of the same worker. The next request is looked
  for right after the body that a request declares if and only if `HttpFraming.CutRight` holds
  (`HttpFraming.NextIsDeclaredEndIff`). `StaleLength.WrongCut` is a stream on which it is not.
* The include scanner takes a tag out of a file if and only if the tag is at most 8191 bytes long and no
  candidate for a tag that begins before it reaches beyond its `<` (`SsiTags.TakenOutIff`). So a stray `<` hides a tag
  (`SsiTags.StrayHidesTag`), unless the `<` itself lies in a candidate, and a candidate that grows too long
  gives way to the next one (`SsiTags.OverflowRevealsTag`).
* SHA1Update decides rightly whether a block is completed if and only if the length and the bytes of the block
  that was begun add up to less than 2^32 (`Sha1.UpdateGuardIff`).

## Model

| member | source | states |
|---|---|---|
| CanBitTiming.SearchIsParetoOptimal | mpc5121/dev.c:92-148 | the winner over all prescalers, segments and jump widths is a candidate within 0.1% that no candidate dominates in tolerance, rate error and propagation segment; there is no winner exactly when no candidate is within 0.1% |
| CanBitTiming.SearchIsLegal | mpc5121/dev.c:92-148 | the winner obeys the segment rules of ISO 11898-1 and the driver's limits |
| CanBitTiming.RangedSearchIsLossless | mpc5121/dev.c:79-91 | restricting the search to brp_min..brp_max gives the very same winner, for limits up to 500 |
| CanBitTiming.RangedSearchIsParetoOptimal | mpc5121/dev.c:79-148 | for every limit, the winner of the search over brp_min..brp_max is accurate and undominated among the candidates in the range, and there is none exactly when no candidate in the range is accurate |
| CanBitTiming.RangeLosesNothingIff | mpc5121/dev.c:79-91 | every accurate candidate, for every bit time, lies in brp_min..brp_max exactly when the limit is at most 500 |
| CanBitTiming.BelowRangeIsInaccurate | mpc5121/dev.c:79-83 | candidates below brp_min are off by more than 0.1% |
| CanBitTiming.AboveRangeIsInaccurate | mpc5121/dev.c:85-90 | candidates above brp_max are off by more than 0.1% |
| CanBitTiming.WiderJumpIsNoWorse | mpc5121/dev.c:102-124 | trying only the widest jump width for a phase segment 2 loses no tolerance and no rate |
| CanBitTiming.LongPropagationEndsPrescaler | mpc5121/dev.c:112-115 | once the propagation segment is too long, no smaller phase segment 2 of this prescaler can win: leaving both loops is sound |
| CanBitTiming.AchievedRateIsAccurate | mpc5121/dev.c:74-77 | the bit rate of the winner is at least 99.9% of the wanted one, and at most 100.11% plus what the truncated bit time hides |
| CanBitTiming.FoldSeg2Settles | mpc5121/dev.c:100-141 | after the visits to one prescaler, every visited candidate is beaten, tied or incomparable, and the winner never got worse |
| CanBitTiming.FoldBrpSettles | mpc5121/dev.c:92-143 | the same over all prescalers |
| CanBitTiming.Err1 | mpc5121/dev.c:117-118 | the first tolerance bound in u32 arithmetic equals its exact value: nothing wraps, nothing is divided by zero |
| CanBitTiming.Err2 | mpc5121/dev.c:119 | the second bound does so too, and fits a signed int |
| CanBitTiming.RateDeviation | mpc5121/dev.c:123-124 | the unsigned difference, read as signed, gives the exact absolute rate error |
| CanBitTiming.ComputeQuanta | mpc5121/dev.c:93-96 | the u32 computation gives the number of quanta of the specification |
| CanBitTiming.Offer | mpc5121/dev.c:117-139 | one visit, with its unsigned comparison against -1, is the selection rule of the specification |
| CanBitTiming.SearchPrescaler | mpc5121/dev.c:100-141 | the two inner loops, with a phase segment 2 that is never reset and a jump out of both, compute the fold over every phase segment 2 |
| CanBitTiming.CalcBitTime | mpc5121/dev.c:60-148 | the search in u32 arithmetic returns the winner of the specification, touches the result only on success, and tells the two errors apart; no operation wraps for limits up to 1073 |
| CanBitTiming.ToleranceFitsIff | mpc5121/dev.c:117-118 | the largest product of the search stays below 2^32 for every visited candidate exactly when the limit is at most 1073 |
| CanBitTiming.ToleranceIsLargest | mpc5121/dev.c:117-121 | the tolerance of a setting is the largest number that neither the bound of the phase segments nor the bound of the jump width excludes |
| CanBitTiming.RateErrorAtMost | mpc5121/dev.c:123-124 | the rate error is at most k exactly when the bit time is within k units of 0.01%, and less than one more upwards |
| CanBitTiming.QuantaFill | mpc5121/dev.c:93-96 | the quanta are as many as it takes to fill the bit time, up to 25, and above that as many as fit |
| CanBitTiming.WinnerIsNotUndercut | mpc5121/dev.c:92-148 | no setting in the range that is as good in rate and propagation segment meets both bounds for a tolerance for which the winner does not |
| CanExample.ExampleIsFound | mpc5121/dev.c:60-148 | at 8 MHz, 500 kbit/s and limits 64 and 4 the winner is prescaler 1, segments 7, 4 and 4, jump width 3 |
| SocketQueue.PutAppends | m36/mongoose36.c:4970-4974 | putting appends to the queue: no waiting socket is overwritten or moved |
| SocketQueue.TakeRemovesFirst | m36/mongoose36.c:4892-4903 | taking removes the oldest socket, across the wrap-around of the indices |
| SocketQueue.Context.TakeSocket | m36/mongoose36.c:4892-4903 | the consumer's critical section returns the oldest waiting socket, and leaves the caller's variable alone when there is none |
| SocketQueue.Context.PutSocket | m36/mongoose36.c:4962-4980 | the producer's critical section appends the socket exactly when there is room |
| ServerProtocol.StepKeepsInv | m36/mongoose36.c:4883-5200 | every step of every thread, failing allocations included, keeps mutual exclusion, the flag protocol, the account of lost updates of num_threads, what the master knows when it stops waiting, the queue and the handouts consistent |
| ServerProtocol.RunKeepsInv | m36/mongoose36.c:4883-5200 | so does every run |
| ServerProtocol.QueueIsFifo | m36/mongoose36.c:4883-4980 | in every interleaving, failing allocations included, what was put is what was taken, in order, followed by what waits; while the server runs every accepted socket is queued, none is abandoned, and what a worker takes goes to that worker alone |
| ServerProtocol.ServedSocketsAreFresh | m36/mongoose36.c:4883-4910 | a worker never serves a socket left over from an earlier call, although the stop flag is read outside the mutex |
| ServerProtocol.MutexIsExclusive | m36/mongoose36.c:4883-5068 | no two threads are between lock and unlock at the same time |
| ServerProtocol.StopFlagOnlyRises | m36/mongoose36.c:5099-5106 | stop_flag moves 0, 1, 2 in single steps, in every run |
| ServerProtocol.ThreadCountIsExact | m36/mongoose36.c:5193-5200 | without failing allocations, outside the unprotected increment, num_threads is the number of workers that have not signed off |
| ServerProtocol.CountingIsUndisturbed | m36/mongoose36.c:5193-5200 | without failing allocations, no worker is near its decrement during the unprotected increment |
| ServerProtocol.NothingRunsAfterTwo | m36/mongoose36.c:5041-5106 | in every run, when stop_flag is 2 at least as many increments as decrements are lost; exactly when they are as many, no worker is active and the count is 0, and then nothing but the freeing is possible, and nothing after it |
| ServerProtocol.CountIsOffByLost | m36/mongoose36.c:4951-4952 | in every run and at every moment, the count and the worker that mg_start is counting make up the active workers plus the lost decrements minus the lost increments; they are right exactly when these are as many |
| ServerProtocol.LostIsSettled | m36/mongoose36.c:4950-4955 | once mg_start has returned and no worker is about to write back a count it read before, nothing is lost any more and nothing lost comes back |
| ServerProtocol.JoinIsEarlyByLost | m36/mongoose36.c:5048-5053 | as long as no assertion fails, the master stops waiting when exactly as many workers are active as more increments than decrements are lost; so all have exited exactly when these are as many |
| ServerProtocol.LostDecrementNeverStops | m36/mongoose36.c:5048-5106 | from a settled state with more decrements than increments lost, no run leads to stop_flag 2 or to a freed context |
| ServerProtocol.NothingIsLost | m36/mongoose36.c:4912-4959 | without failing allocations no update of num_threads is lost |
| ServerProtocol.ExactCountNeedsAllocation | m36/mongoose36.c:4912-4959 | after mg_start the count is exact in all runs exactly when no worker may fail to allocate |
| ServerProtocol.SafeStopNeedsAllocation | m36/mongoose36.c:4912-5106 | after the context has been freed no thread makes a step, in all runs, exactly when no worker may fail to allocate |
| ServerProtocol.AssertionNeedsAllocation | m36/mongoose36.c:4954-4954 | the assertion of a worker that signs off holds in all runs exactly when no worker may fail to allocate |
| ServerProtocol.LostDecrement | m36/mongoose36.c:4912-4959 | a run, on which every assertion holds, that ends settled with no worker left and a count of 1 |
| ServerProtocol.LostIncrement | m36/mongoose36.c:4912-5106 | a run, on which every assertion holds, that frees the context while a worker waits for a socket |
| ServerProtocol.EarlySignOff | m36/mongoose36.c:4949-4954 | a run that leads to the assertion with a count of -1 |
| ServerProgress.WaitingWorkerCanTake | m36/mongoose36.c:4883-4910 | from every reachable state with a free mutex and a socket in the queue, some run has a waiting worker take the oldest socket, also during the shutdown |
| ServerProgress.WaitingWorkerCanServe | m36/mongoose36.c:4883-4946 | if the server is not being stopped, some run has that worker serve it |
| ServerProgress.AcceptedSocketCanBeServed | m36/mongoose36.c:4883-4980 | with a polling master, an empty queue and a waiting worker, any socket can be accepted and served by that worker |
| ServerProgress.WaitingMasterCanQueue | m36/mongoose36.c:4962-4980 | once there is room, some run has a waiting master put its socket into the queue |
| ServerProgress.CanStopIff | m36/mongoose36.c:5041-5106 | from every reachable settled state, some run stops the server and frees its context exactly when no more decrements than increments are lost |
| ServerProgress.ServerCanAlwaysStop | m36/mongoose36.c:4883-5200 | without failing allocations, some run does so from every reachable state, whatever each thread is waiting for |
| Tokenizer.SkipQuoted | m36/mongoose36.c:774-814 | the loop ends; the word is moved together at its start and followed by NULs; nothing before it and nothing from the new position on is touched |
| Tokenizer.JoinOne | m36/mongoose36.c:784-796 | one memmove takes the quote out and the delimiter with what follows in, and stays before the rest of the text |
| Tokenizer.CutWord | m36/mongoose36.c:774-814 | a word never extends beyond the delimiter that ends it |
| Tokenizer.NextWord | m36/mongoose36.c:774-814 | the tokenizer makes progress unless it is at the end of the text |
| QuotedString.UnquoteEscaped | m36/mongoose36.c:774-814 | a word without backslashes, escaped as a quoted string and closed, comes back intact, and the cut ends at the closing quote |
| QuotedString.UnquoteUndoesEscapeIff | m36/mongoose36.c:774-814 | that happens exactly for the words without backslashes |
| QuotedString.ContinueRemovesFew | m36/mongoose36.c:784-796 | the tokenizer drops at most one character for each delimiter it passes |
| QuotedString.BackslashIsNotUnescaped | m36/mongoose36.c:774-814 | a word whose escaped backslash stays doubled |
| HttpMessage.RequestLenIsFirst | m36/mongoose36.c:1840-1858 | the answer is what the first deciding position says: malformed, or the end of the first blank line; 0 exactly when no position decides |
| HttpMessage.RequestLenStable | m36/mongoose36.c:1840-1858 | a nonzero answer on a prefix is the answer on every extension, and lies within the prefix |
| HttpMessage.ScanSkipsNoNul | m36/mongoose36.c:1840-1858 | a complete request has no NUL before its last character |
| HttpMessage.MalformedIs | m36/mongoose36.c:1846-1847 | malformed are the control characters, but for line feed and carriage return |
| HttpMessage.BlankLineIs | m36/mongoose36.c:1850-1855 | a blank line is two line feeds, or two with a carriage return between them |
| HttpMessage.GetRequestLen | m36/mongoose36.c:1840-1858 | the loop computes that answer |
| HttpMessage.CutPlain | m36/mongoose36.c:818-820 | without a quote character a word is the text up to the first delimiter |
| HttpMessage.SameRest | m36/mongoose36.c:774-814 | cutting depends only on the text from the position on, so what was cut before does not matter |
| HttpMessage.ParseHeader | m36/mongoose36.c:2874-2879 | one name and one value are cut, and all strings cut before stay as they are |
| HttpMessage.ParseHttpHeaders | m36/mongoose36.c:2871-2881 | the recorded positions show the fields of the text, at most 64, up to the first empty name |
| HttpMessage.ParseHttpMessage | m36/mongoose36.c:2893-2912 | the record shows the parsed header section, and not one character behind it is touched |
| HttpRequest.HeadIsNulFree | m36/mongoose36.c:2893-2912 | the strings of a parsed header section are proper C strings |
| HttpRequest.ParseHttpRequest | m36/mongoose36.c:2914-2924 | the result is positive exactly for a complete request with a known method over HTTP |
| HttpRequest.GetHeader | m36/mongoose36.c:824-833 | the value of the first field whose name agrees up to case |
| HttpRequest.ContentLength | m36/mongoose36.c:4843-4850 | the declared length: the header value, or -1 for POST and PUT without one, or 0 |
| HttpRequest.ConnectionHeader | m36/mongoose36.c:920-931 | whether the header, or without it the version, asks to keep the connection |
| HttpRequest.SameUpToCase | m36/mongoose36.c:689-712 | names agree when they are equal but for the case of letters |
| HttpRequest.FindFieldFirst | m36/mongoose36.c:824-833 | what is found is the first field with a name, and there is none exactly when nothing is found |
| HttpRequest.WantsKeepAliveIff | m36/mongoose36.c:920-931 | the connection is wanted exactly when the first Connection field says keep-alive, up to case, or there is none and the version is HTTP/1.1 |
| HttpRequest.DeclaredLengthIs | m36/mongoose36.c:4843-4850 | the first Content-Length field counts; without one the length is -1 for POST and PUT, and 0 otherwise |
| HttpRequest.VerdictIs | m36/mongoose36.c:4830-4841 | valid are eight methods, HTTP/1.0 and HTTP/1.1, and absolute paths or `*`; 505 is for such requests with another version of HTTP, and the rest is bad |
| HttpFormat.FormatIsOneRequest | m36/mongoose36.c:1840-1858 | a written-out header section is one request, whatever follows it in the stream |
| HttpFormat.ParseUndoesFormat | m36/mongoose36.c:2893-2912 | every header section of words, values and at most 64 fields is parsed into itself |
| HttpFormat.FormattedInStream | m36/mongoose36.c:2893-2912 | both, wherever it stands in a stream |
| BodyRead.NarrowedCount | m36/mongoose36.c:1560-1562 | the narrowed count of a position k bytes past the buffer is not positive exactly when k modulo 2^32 is at most 2^31 |
| BodyRead.AskedForTooMuchIff | m36/mongoose36.c:1528-1545 | a receive asks the socket for more than is left exactly when the length modulo 2^32 is 2^31 or more |
| BodyRead.LongReceiveNeverEnds | m36/mongoose36.c:1574-1587 | with 2^32 bytes or more to receive, no sequence of receives brings them all |
| BodyRead.BringsAllIff | m36/mongoose36.c:1574-1587 | some sequence of receives brings all exactly below 2^32 bytes, if it does not matter what is asked for |
| BodyRead.CanReceiveIff | m36/mongoose36.c:1528-1587 | receives that never ask for more than is left can bring all exactly when it is less than 2^31 bytes |
| BodyRead.ReadIsRightIff | m36/mongoose36.c:1547-1590 | for any size, a read copies the next part of the body, can receive the rest without asking for more, and counts both exactly under the stated condition; what it copies wrongly is beyond the buffer |
| BodyRead.LongReadAsksForNothing | m36/mongoose36.c:1575-1581 | a read of 2^32 bytes that asks the socket for none |
| BodyRead.FirstWrongRead | m36/mongoose36.c:1547-1590 | for any sizes and any arrivals, the first wrong read of a body is the first one begun more than 2^31 bytes past the buffer, or wanting 2^31 bytes or more |
| BodyRead.ThirdReadIsWrong | m36/mongoose36.c:1547-1590 | three reads of a long body, of which the third copies a byte from beyond the buffer |
| HttpFraming.FramingIsDetermined | m36/mongoose36.c:4808-4880 | two connections that get the same stream in different pieces and read bodies in different portions serve the same requests at the same places, as long as bodies are taken |
| HttpFraming.KeptOnlyIfAsked | m36/mongoose36.c:4864-4880 | on every connection, all requests but the last ask to keep it: by the first Connection field, or without one by the version |
| HttpFraming.DiscardIsRightIff | m36/mongoose36.c:4868-4870 | what is dropped is header section and body, or everything buffered, exactly when the 64-bit sum does not overflow; else it is only a part of the header section |
| HttpFraming.NextIsEndIff | m36/mongoose36.c:4867-4872 | the next request is looked for after as many bytes as content_len says exactly when the sum does not overflow and that many were buffered or read |
| HttpFraming.LengthIsInherited | m36/mongoose36.c:4830-4856 | content_len is what the last valid request of the connection declared, or what an earlier connection left |
| HttpFraming.NextIsDeclaredEndIff | m36/mongoose36.c:4808-4880 | over whole connections, with the 64-bit sum as it wraps: where the next request is looked for, and the exact condition for that to be right after the body that the request declares |
| StaleLength.WrongCut | m36/mongoose36.c:4836-4872 | a stream on which, however it arrives, a valid request after one answered 505 is cut three bytes late and answered as a bad one |
| StaleLength.WrongCutHappens | m36/mongoose36.c:4836-4872 | and there is such a connection |
| HugeLength.NextIsInsideHead | m36/mongoose36.c:4868-4872 | after a request that declares 2^63 - 1 bytes, the next one is looked for at the last character of its header section |
| HugeLength.NextIsInsideHeadHappens | m36/mongoose36.c:4868-4872 | and there is such a served request |
| HttpConnection.Connection.ReadRequest | m36/mongoose36.c:2936-2954 | the boundary that is found is that of the stream, however the stream was cut into pieces; 0 only at the end of the stream or with a full buffer |
| HttpConnection.Connection.SameAnswerInStream | m36/mongoose36.c:2936-2954 | the answer for the buffered prefix is the answer for the stream |
| HttpConnection.Connection.CopyBuffered | m36/mongoose36.c:1559-1571 | for every read that is right, hands out the next body bytes that are in the buffer |
| HttpConnection.Connection.PullRest | m36/mongoose36.c:1573-1587 | hands out the body bytes that follow, straight from the stream |
| HttpConnection.Connection.Read | m36/mongoose36.c:1547-1590 | for every read that is right, what is returned is the next part of the body, never beyond its end, short only when the peer closes |
| HttpConnection.Connection.Handle | m36/mongoose36.c:1547-1590 | any sequence of read sizes yields the body from its beginning, without gap or overlap, and all that was asked for unless the peer stopped sending; up to an error, or to the first read that is not right |
| HttpConnection.Connection.ParseBuffered | m36/mongoose36.c:4830-4837 | scanning the whole buffer, stale bytes included, parses the very request that the stream holds, and leaves its body in place |
| HttpConnection.Connection.ServeRequest | m36/mongoose36.c:4830-4856 | only a valid request sets content_len and gets its body read; another one keeps the old content_len; a bad one closes the connection |
| HttpConnection.Connection.ShouldKeepAlive | m36/mongoose36.c:920-931 | the connection is kept exactly when nothing forbids it and the client wants it |
| HttpConnection.Connection.Discard | m36/mongoose36.c:4867-4874 | for every content_len, the buffer begins again where the wrapping sum says, or at what has not been received yet; it is a copy of the stream again unless the sum overflows |
| HttpConnection.Connection.ProcessNewConnection | m36/mongoose36.c:4808-4880 | every served request is where the stream says it is; the next one is looked for after as many bytes as content_len says, if they were buffered or read, where content_len is stale for a request answered 505; none follows a bad one, or one for which the sum overflows; the connection ends only for the reasons listed; what that means for whole connections is in HttpFraming |
| AuthHeader.ParseUndoesFormat | m36/mongoose36.c:2322-2358 | a header made of any list of pairs, each with a quoted or a plain value, and separated by commas, spaces and white space as its kind of value needs, is taken apart into the same pairs |
| AuthHeader.KnownIsLast | m36/mongoose36.c:2343-2357 | each of the seven names is recorded with the value of its last pair, and no other name is |
| AuthHeader.QuotedSameRest | m36/mongoose36.c:774-814 | with a quote character, too, cutting depends only on the text from the position on |
| AuthHeader.ParseOne | m36/mongoose36.c:2324-2338 | one pair is cut, and the values recorded before stay readable |
| AuthHeader.ParseAuthHeader | m36/mongoose36.c:2307-2368 | the endless loop ends on every header; each known field shows the value of its last pair; success exactly when there is a user name |
| Wildcard.FindIsSound | m36/mongoose36.c:886-914 | what is found is a match in the sense of the declarative semantics |
| Wildcard.FindIsComplete | m36/mongoose36.c:886-914 | if there is any match, one is found, and a non-empty one if there is a non-empty one |
| Wildcard.SingleAnswer | m36/mongoose36.c:886-914 | without a bar, -1 exactly when nothing matches, otherwise the length of a match |
| Wildcard.PositiveIff | m36/mongoose36.c:882-886 | with bars, positive exactly when some alternative matches a non-empty part; it is then the length of a match of the first such alternative |
| Wildcard.MatchPrefix | m36/mongoose36.c:878-915 | the backtracking matcher ends and computes that answer |
| Wildcard.MatchRest | m36/mongoose36.c:905-908 | the loop over the length of a star finds the last position from which the rest matches |
| HashStream.AbsorbAppend | m36/mongoose36.c:2150-2184 | folding a concatenation is folding the first part and going on from its state and residue |
| HashStream.PositionFromCount | m36/mongoose36.c:2153-2158 | the low count word tells the position inside the block |
| HashStream.AddedCounts | m36/mongoose36.c:2153-2156 | with its carry, the pair of count words holds 8 times the length modulo 2^64 |
| HashStream.EndianValues | m36/mongoose36.c:3770-3774 | the byte encodings of a word hold the whole word |
| HashStream.RolMovesBits | m36/mongoose36.c:2053-2054 | a rotation by n moves bit k to bit k + n modulo 32 |
| Md5.Context.Update | m36/mongoose36.c:2150-2184 | the context stands for the old message followed by the data, whatever the lengths |
| Md5.Context.Pad | m36/mongoose36.c:2190-2202 | both ways of padding give the padding of section 3.1 of RFC 1321 |
| Md5Block.FirstBits | m36/mongoose36.c:2048-2048 | the macro's F1 is the standard's F |
| Md5Block.SecondBits | m36/mongoose36.c:2049-2049 | the macro's F2 is the standard's G |
| Md5Block.MacroIsStep | m36/mongoose36.c:2053-2054 | a macro step with renamed registers is a step of the standard |
| Md5Block.Transform | m36/mongoose36.c:2068-2148 | the 64 macro calls, each with its word, constant and rotation, compute one block of section 3.4 of RFC 1321 |
| Md5.WordBytesCover | m36/mongoose36.c:2209-2210 | the four bytes taken from a word make up the word |
| Md5.WordBytesHold | m36/mongoose36.c:2209-2210 | the bytes of a word of the digest, read as a message word, are the word |
| Md5.Context.Final | m36/mongoose36.c:2186-2212 | the digest is the MD5 hash of everything that was added; the context is wiped |
| Md5.PaddingShape | m36/mongoose36.c:2190-2206 | the padding in one block, or across two, is the standard's padded message |
| Md5.Bin2Str | m36/mongoose36.c:2217-2225 | two hexadecimal digits for each byte, high one first |
| Md5.MgMd5 | m36/mongoose36.c:2228-2244 | the MD5 hash of a list of strings is that of their concatenation |
| Md5Vector.HashOfAbc | m36/mongoose36.c:2059-2244 | the hash of "abc", and its hexadecimal form, are the published ones of section A.5 of RFC 1321 |
| Sha1Block.SwapBits | m36/mongoose36.c:3676-3683 | swapping the bytes of a little-endian word gives the big-endian message word |
| Sha1Block.ChooseBits | m36/mongoose36.c:3687-3688 | the macro's selection is the standard's Ch |
| Sha1Block.MajorityBits | m36/mongoose36.c:3690-3690 | the macro's majority is the standard's Maj |
| Sha1Block.MacroIsShift | m36/mongoose36.c:3687-3691 | a macro step with renamed registers is a step of the standard with shifted ones |
| Sha1Block.Blk | m36/mongoose36.c:3685-3686 | the slot that is overwritten gives word t of the 80-word schedule, and the other slots stay right |
| Sha1Block.Transform | m36/mongoose36.c:3699-3736 | the transform is one block of section 6.1.2 of FIPS 180-4 |
| Sha1.WordBytesCover | m36/mongoose36.c:3783-3785 | the four bytes taken from a word make up the word |
| Sha1.WordBytesHold | m36/mongoose36.c:3783-3785 | the bytes of a word of the digest, read as a message word, are the word |
| Sha1.UpdateGuardIff | m36/mongoose36.c:3756-3756 | the 32-bit sum decides rightly whether a block is completed exactly when it does not wrap |
| Sha1.Context.Update | m36/mongoose36.c:3747-3766 | whenever that sum does not wrap, the context stands for the old message followed by the data |
| Sha1.Context.Pad | m36/mongoose36.c:3776-3781 | the byte-at-a-time loop ends after exactly the standard's number of zeros |
| Sha1.Context.Final | m36/mongoose36.c:3768-3790 | the digest is the hash of everything that was added; the context is wiped |
| Sha1.PaddingGrows | m36/mongoose36.c:3776-3781 | the loop condition on the count holds off exactly until the padding is long enough |
| Sha1Vector.HashOfAbc | m36/mongoose36.c:3676-3790 | the hash of "abc" is the published one |
| UrlCodec.DecodeUndoesEncode | m36/mongoose36.c:1673-1696 | in form and in URI mode, whatever follows it, an encoded string decodes to the string |
| UrlCodec.PlusIsSpace | m36/mongoose36.c:1686-1690 | in text without percent signs every byte is kept, but in a form a plus sign becomes a space |
| UrlCodec.EscapeIsByte | m36/mongoose36.c:1679-1686 | a percent sign and two hexadecimal digits of either case become the byte they write |
| UrlCodec.PercentAlone | m36/mongoose36.c:1679-1691 | any other percent sign is kept |
| UrlCodec.EncodedByteIs | m36/mongoose36.c:2543-2551 | letters, digits and nine punctuation characters are kept, and every other byte becomes an escape with lower-case digits |
| UrlCodec.UrlDecode | m36/mongoose36.c:1673-1696 | decodes the original text also when the destination is the source; -1 and a cut result when there is no room |
| UrlCodec.UrlEncode | m36/mongoose36.c:2538-2556 | writes the whole encoding when there is room, and always a terminator in bounds |
| PathNormalizer.NormalizeIsNormal | m36/mongoose36.c:1905-1924 | no separator of the result is followed by a separator or by two dots |
| PathNormalizer.NormalizeIsSubsequence | m36/mongoose36.c:1905-1924 | the result is what is left of the path after dropping characters |
| PathNormalizer.NormalizeDropsJunk | m36/mongoose36.c:1908-1921 | each dropped character is a separator or one of two adjacent dots, and follows a separator that is kept, with only dropped characters between them |
| PathNormalizer.NormalIsKept | m36/mongoose36.c:1905-1924 | a normal path is kept |
| PathNormalizer.NormalizeIsIdempotent | m36/mongoose36.c:1905-1924 | unchanged exactly when normal; normalizing twice is normalizing once |
| PathNormalizer.RemoveDoubleDotsAndDoubleSlashes | m36/mongoose36.c:1905-1924 | the loop with two pointers into one buffer leaves the normal form of the original path |
| Ssi.PiecesCoverFile | m36/mongoose36.c:3516-3577 | every byte of a file is in exactly one piece, in order; tags and dropped pieces begin with the mark, and a tag ends at its first `>` |
| Ssi.NoMarkNoTag | m36/mongoose36.c:3516-3577 | a file that nowhere contains the mark has only text pieces |
| Ssi.PlainFileIsCopied | m36/mongoose36.c:3516-3577 | such a file is sent byte for byte |
| SsiTags.ScanState | m36/mongoose36.c:3527-3571 | at every byte, what is in the buffer is an unfinished candidate, and every other candidate that began has ended |
| SsiTags.ReleasedIffReady | m36/mongoose36.c:3527-3571 | the tag is released with its last byte exactly when the scanner is outside any tag, or gives up one that is too long, at its first |
| SsiTags.TakenOutIff | m36/mongoose36.c:3516-3577 | a tag is one of the pieces, right after the text before it, exactly when it fits the buffer and no candidate that begins before it reaches beyond its `<` |
| SsiTags.TagAfterPlainText | m36/mongoose36.c:3516-3577 | a tag is taken out when no `<` stands between the last `>`, or the start of the file, and the tag |
| SsiTags.StrayHidesTag | m36/mongoose36.c:3528-3563 | a `<` right before a tag hides it if that `<` begins a candidate |
| SsiTags.OverflowRevealsTag | m36/mongoose36.c:3552-3556 | a tag that begins where a candidate grows too long is taken out |
| SsiTags.StrayLessThanHidesTag | m36/mongoose36.c:3528-3563 | a file in which a tag is sent as text |
| SsiPages.IncludedFileIsSent | m36/mongoose36.c:3447-3488 | text, an include of a file that is not scanned, and text are sent as the text, the bytes of that file, and the text |
| SsiPages.IncludedPageIsRendered | m36/mongoose36.c:3480-3483 | an included file that is scanned appears as what it is sent as itself, one level deeper |
| SsiPages.IncludedCommandIsRun | m36/mongoose36.c:3480-3505 | if that file is a command, what the command prints appears, up to level 10 |
| SsiPages.CommandIsRun | m36/mongoose36.c:3491-3505 | a command appears as what it prints |
| SsiPages.MissingTargetIsEmpty | m36/mongoose36.c:3470-3477 | an include without a target, or of a missing file, gives nothing |
| SsiPages.UnknownCommandIsEmpty | m36/mongoose36.c:3537-3546 | a tag with any other command gives nothing |
| SsiPages.TooDeepIsEmpty | m36/mongoose36.c:3521-3524 | above level 10 nothing is sent |
| SsiPages.OverlongTagIsDropped | m36/mongoose36.c:3552-3557 | the first 8190 characters of a tag that does not fit are not sent, and the text after them is |
| Ssi.Connection.ScanByte | m36/mongoose36.c:3527-3571 | one byte keeps the buffer in bounds and sends exactly what leaves the scanner |
| Ssi.Connection.CloseTag | m36/mongoose36.c:3528-3547 | comparing with command names never reads past the tag; the tag is replaced by what it means |
| Ssi.Connection.DoSsiInclude | m36/mongoose36.c:3447-3488 | an include sends the rendered file, one level deeper |
| Ssi.Connection.SendSsiFile | m36/mongoose36.c:3516-3577 | the output grows by the rendering of the file; the mutual recursion is bounded by the include level |
| Base64.DecodeUndoesEncode | m36/mongoose36.c:3792-3815 | the decoder of section 4 of RFC 4648 gives back the bytes, for every length |
| Base64.EncodedLength | m36/mongoose36.c:3792-3815 | four characters for every three bytes begun |
| Base64.EncodeGroup | m36/mongoose36.c:3797-3809 | writes the characters of one group that are not padding |
| Base64.Base64Encode | m36/mongoose36.c:3792-3815 | the loop writes the encoding and a NUL, and nothing behind them |

## Left out

- Sha1.Context.Update: calls for which the length and the bytes of the begun block add up to 2^32 or more; the code then takes the wrong branch (UpdateGuardIff).
- Md5.Context.Update: the length of one call fits 32 bits, as the parameter of the code does.
- Sha1Block.Transform: the machine is little-endian, so the swap of blk0 is modelled, and the other branch is not.
- Md5Block.Transform: the machine is little-endian, so byteReverse does nothing.
- UrlCodec.UrlEncode: for a destination that is too small only the terminator and the bounds are promised; the code then leaves out escape sequences and skips places.
- UrlCodec.UrlDecode: the bytes that the code looks at can be read; a terminating NUL behind the source is enough (TerminatorSuffices).
- Wildcard.MatchPrefix: the character behind the pattern is not `*`, because the code looks at it after a star that ends the pattern.
- HttpConnection.Connection.Read: reads that are not right by ReadIsRightIff.
- HttpConnection.Connection.Handle: what happens after the first wrong read (FirstWrongRead); the modelled handler stops before it.
- HttpConnection.Connection.ProcessNewConnection: what the code does after the first request for which the 64-bit sum overflows (DiscardIsRightIff, HugeLength); and the receive buffer is smaller than 2 GB.
- AuthHeader.ParseUndoesFormat: quoted values with backslashes (what happens to them is in QuotedString), plain values with commas or spaces, names with `=` or leading white space, and spaces after the `=`.
- CanBitTiming.CalcBitTime: prescaler limits above 1073, for which the 32-bit products can wrap; the driver sets 64.
- For a negative length SSL_read returns an error; only recv is modelled there, with a count that fits an int.
- A failing assertion does not stop the modelled server, so that what is said of every run holds with assertions and without; runs on which none fails are told apart (IsCheckedRun).
- Liveness: what is proved is that a run to the end, or to a served socket, exists (ServerProgress), and not that every schedule takes one; stop_flag and a broadcast happen without the mutex.
- The master's failure to start, and the closing of sockets still queued at the end.
- A socket is reduced to its descriptor; access lists, SSL, timeouts and logging are not modelled.
- Receiving is arbitrary in how many bytes arrive, when it fails and when the server is told to stop; sending is assumed to succeed.
- What handlers decide (status, closing, how much of a body to read) is arbitrary; strtoll and sscanf are parameters.
- parse_auth_header from the point where the header value has been copied; the copy itself, and the check of the digest.
- Include files in memory, for which the scanner's offset never advances.
- Leap-day arithmetic, Range requests, websocket frames, uploads, directory listings, CGI, Lua and the option parser.
- The re-indented copies of the server (m36/mongoose36_2k.c, m36/mongoose36vc.c).
- The ioctl and register code of the CAN driver, and everything outside the two files above.

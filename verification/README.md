# Verified models of low.js

low.js is a small JavaScript runtime: Node's API in JavaScript (`lib_js/`) over
C++ services (`src/`). These Dafny files model the parts of it with the most
state, and prove what those parts are for.

| area | modules |
|---|---|
| worker threads, the event loop and open files | `FileProtocol` (the state machine), `FileSafety`, `FileCalls`, `FileOpens` (its invariant), `FileDeletes` (how often a file is deleted), `FileRuns`, `FileOrder`, `FileWaits`, `FileEnds`, `FileLinger` (what holds over runs), `FileDrop` and `FileStray` (runs that show why results have conditions), `FilePhases` and `LowFileObject` (one file), `DataQueue` and `Queues` (the linked lists) |
| HTTP messages | `HttpBytes` (the parser byte by byte), `HttpReader` (bulk copies and parked input), `HttpWriter` (chunk framing over `writev`), `HttpRoundTrip` |
| paths | `Segments` (one stack machine), `PosixPath`, `PosixRelative`, `FsResolve`, `FsAgreement` |
| URLs | `UrlPath`, `UrlResolve` |
| query strings | `PercentText`, `PercentCoding`, `PercentLoops`, `QueryParse`, `QueryFlags`, `QueryRoundTrip`, `QueryReading` |
| language runtime | `Generator`, `Collections` |
| timers, events, line editing | `Timers`, `Events`, `EventsOnce`, `Prefixes` |
| shared | `Options`, `Slices` |

Code that changes state is written as classes and methods with the source's own
loops, each proved against functions whose properties are then proved as lemmas.
What several threads do is a state machine whose steps are what one thread does
between two points where another can come in. `dafny verify dfyconfig.toml`
checks everything.

## Model

| member | source | states |
|---|---|---|
| FileOpens.KeepsStep | src/LowFile.cpp:37-482 | Every step of the code thread, a worker or the event loop keeps the protocol's invariant: queued work is owed, owed work is queued or being done, counts agree. Exceptions out of FinishPhase and out of callbacks are steps like any other. |
| FileRuns.SafeAlways | src/low_data_thread.cpp:15-98 | At every moment of every run: no file is run by two workers, flags tell who runs, only busy files are queued, runnable work never meets sleeping workers only, `run_ref` is exact, and no worker runs a deleted file. |
| FileDeletes.ExcessStep | src/low_fs.cpp:141-177 | A law of conservation: deletions under way less files there are change only by a closeSync, a closing file in OnLoop, or an exception that stops a deletion. Deletion itself changes nothing. |
| FileRuns.CarefulFindsAll | src/low_fs.cpp:141-177 | In every run in which no closeSync is called inside a callback that a deletion of the same file waits for, the code thread refers to no deleted file and no file is to be deleted twice. |
| FileRuns.TakesFirst | src/low_data_thread.cpp:30-63 | The worker takes the first file that no other worker has, and one of priority 1 only if none of priority 0 can be taken. |
| FileOrder.AnsweredInOrder | src/low_loop.cpp:92-104 | In every run: as long as a file is in the loop queue, no file is answered that was behind it or was posted later, so completions are answered in the order of their posts. |
| FileOrder.RunInOrder | src/low_data_thread.cpp:24-74 | In every run: as long as a file is in a data queue and no thread is at work on it, nothing is run that was behind it in that queue or came into it later; in queue 0, nothing from queue 1 either. |
| FileOrder.WritesLast | src/LowFile.cpp:139-171 | In every run, a worker only takes a write when no other waiting operation could be run. |
| FileWaits.ReturnsWhenOver | src/low_fs.cpp:96-106 | In every run, openSync, closeSync and waitdone let JavaScript and the event loop go on only when the operation that they wait for is over. |
| FileOrder.CallsAreFrames | src/LowFile.cpp:392-473 | In every step: a callback is entered exactly when an operation is answered, the one that its file was busy with. |
| FileRuns.AtMostOnce | src/LowFile.cpp:373-482 | In every run an operation is run, finished and answered at most once, never answered before it was run, and answered if finished and it has a callback. |
| FileRuns.ComesToRest | src/low_loop.cpp:24-191 | Left to themselves the threads come to rest within a number of steps that the state bounds, whatever the schedule. |
| FileRuns.RestIsQuiet | src/low_data_thread.cpp:24-98 | At rest no file is busy, no queue holds anything and no callback is counted: no wake-up is lost. The only other end is the deletion of a file that is gone. |
| FileEnds.EveryOperationEnds | src/LowFile.cpp:256-367 | After every run that has come to rest and does not delete a file that is gone, each accepted operation has been run, finished and answered exactly once, except exactly those that were pending when the callback returned that a closeSync of their file waited for; these are dropped. |
| FileEnds.CutIsDropped | src/low_fs.cpp:141-177 | The other half by itself: an operation pending on the file at that moment is dropped and never answered, whatever happens after. |
| FileEnds.CloseSyncExactly | src/low_fs.cpp:141-177 | From any sound state, whatever else is called: a closeSync leads to the deletion of a file that is gone if and only if it is called inside a callback after which the same file is deleted, and no exception stops one of the two deletions, such as the one thrown when its close fails. |
| FileEnds.TwiceDeletes | src/low_fs.cpp:141-177 | A file that is to be deleted twice is deleted when it is gone, under every schedule and whatever is called, unless an exception stops one deletion. |
| FileEnds.StaysDeleting | src/low_fs.cpp:141-177 | No later step undoes that. |
| FileDrop.SomeOperationIsDropped | src/low_fs.cpp:141-177 | A run from the start in which a read with a callback is accepted, never run and never answered. |
| FileDrop.SomeFileIsDeletedTwice | src/low_fs.cpp:141-177 | A run from the start in which a closeSync within a closeSync deletes the file, and the outer one is about to delete it again. |
| FileLinger.ClosedStaysExactly | src/LowFile.cpp:357-482 | In every run without such a nested closeSync: the closed files that exist at rest are exactly the stranded ones, and these stay for good. A file is stranded when FinishPhase notices that its open failed, or throws because its close failed without a callback, or when the callback throws that its close waited for; and the data thread has posted the file and the post has been taken. |
| FileLinger.AsyncOpenStrands | src/LowFile.cpp:357-482 | An asynchronous open that fails always strands its file. |
| FileStray.FailedOpenStays | src/LowFile.cpp:373-482 | A run from the start in which an asynchronous open fails and its file is stranded. |
| FileStray.FailedCloseStays | src/low_fs.cpp:159-174 | A run from the start in which closeSync throws because close failed, and the file is stranded. |
| FileStray.ThrownCallbackStays | src/LowFile.cpp:459-466 | A run from the start in which the callback of a close that went well throws, and the file is stranded. |
| LowFileObject.LowFile.Begin | src/LowFile.cpp:101-250 | What Read, Write, FStat and Close do to the object's fields and to `run_ref` is the protocol's step, refusals included. |
| LowFileObject.LowFile.FinishPhase | src/LowFile.cpp:373-482 | The same for FinishPhase, and its four ways of ending are the protocol's: wait, go on, call the callback, throw. |
| LowFileObject.LowFile.OnLoop | src/LowFile.cpp:357-367 | The same for OnLoop: it asks for the deletion exactly when the protocol's step begins one. |
| DataQueue.DataThreads.SetCallback | src/low_data_thread.cpp:104-125 | On the intrusive lists: what is queued already stays where it is, anything else goes to the end of its list; the workers are woken unless the callback is on a worker. |
| DataQueue.DataThreads.ClearCallback | src/low_data_thread.cpp:131-174 | The three ways of unlinking take the callback out of whichever list holds it and keep the order of the rest and both last pointers. |
| DataQueue.DataThreads.Take | src/low_data_thread.cpp:30-63 | The search takes the first callback that no worker holds, list 0 before list 1, and nothing if there is none. |
| HttpBytes.FeedConcat | src/LowHTTPDirect.cpp:660-994 | Feeding the parser in two pieces gives the state and the body of feeding it at once. |
| HttpBytes.StepSane | src/LowHTTPDirect.cpp:660-994 | Each byte keeps the parser's counters in their ranges; the chunk line buffer never overflows. |
| HttpBytes.ContentLength | src/LowHTTPDirect.cpp:768-812 | With a Content-Length of N the body is the first N bytes, and then the message is complete. |
| HttpBytes.NothingAfter | src/LowHTTPDirect.cpp:678-679 | After the body nothing more is handed out. |
| HttpRoundTrip.AfterTheEnd | src/LowHTTPDirect.cpp:678-679 | A byte after the message is an error, unless it is the second half of a line end. |
| HttpReader.Machine.Digest | src/LowHTTPDirect.cpp:676-970 | The phase switch over the object's fields is one step of the byte automaton. |
| HttpReader.Reader.SocketData | src/LowHTTPDirect.cpp:660-994 | Whatever comes in is taken or parked, in order; it closes on an error or the end of the stream; a reader with room gets at least a byte of a body. |
| HttpReader.Reader.Read | src/LowHTTPDirect.cpp:163-268 | A Read during another is refused; one that is accepted keeps all input in order, and one with room gets at least one byte out of parked input. |
| HttpReader.HandedOut | src/LowHTTPDirect.cpp:163-268 | For every way of cutting the input and of reading: what JavaScript got is the body of what was taken, a prefix of the body of all that came in, and all of it when nothing is parked. |
| HttpWriter.Writer.DoWrite | src/LowHTTPDirect.cpp:398-443 | For all answers of `writev`: exactly the bytes that it took are sent, as far as there are any, and the rest is queued; nothing is queued any more if and only if it has answered and all is sent; the error is set exactly by an answer other than EAGAIN and EINTR; the shutdown exactly at the end of a message without framing whose length was unknown or not met. |
| HttpWriter.Writer.Write | src/LowHTTPDirect.cpp:304-392 | A Write is refused exactly when a message is not open, more than one buffer is still queued, a callback is pending or the end was written; else the bytes go behind the others and what `writev` takes is sent; the line buffer is overrun exactly by chunks of 0x100000 bytes or more; the callback runs at once exactly if nothing is left or there was an error. |
| HttpWriter.Writer.WriteHeaders | src/LowHTTPDirect.cpp:274-298 | Starts a message unless one is open, and sends of it what `writev` takes; a chunked one holds its last line end back for the first chunk. |
| HttpWriter.Writer.OnSocketWrite | src/LowHTTPDirect.cpp:1000-1012 | What `writev` takes is sent; more is wanted while something is queued and nothing failed; the waiting callback is due otherwise. |
| HttpWriter.ChunkLineFits | src/LowHTTPDirect.h:109 | The header line of a chunk fits the ten bytes with its zero if and only if the chunk has less than 0x100000 bytes. |
| HttpWriter.LineOverrun | src/LowHTTPDirect.cpp:331 | At 0x100000 bytes it does not; one byte less fits. |
| HttpRoundTrip.HexRoundTrip | src/LowHTTPDirect.cpp:331 | Reading back a size that was written in hexadecimal gives the size. |
| HttpRoundTrip.ScanExtension | src/LowHTTPDirect.cpp:739-750 | A chunk extension behind the size, or white space in front of it, changes nothing. |
| HttpRoundTrip.ScanPrefix | src/LowHTTPDirect.cpp:739-750 | Nor does "0x" in front. |
| HttpRoundTrip.HexDigitIs | src/LowHTTPDirect.cpp:739-750 | The digits count the same in either case. |
| HttpRoundTrip.ReadFields | src/LowHTTPDirect.cpp:813-968 | Any lines that are no line folding leave the parser before the blank line, with nothing handed out. |
| HttpRoundTrip.LineFeedAlone | src/LowHTTPDirect.cpp:671-676 | A line feed by itself ends a line as CR and LF do, in header fields and chunk headers. |
| HttpRoundTrip.LeadingBlank | src/LowHTTPDirect.cpp:813-816 | White space at the start of a line is as good as none. |
| HttpRoundTrip.NoBody | src/LowHTTPDirect.cpp:923-945 | Without a length and with a method that has no body, or with length 0: the blank line completes the message and nothing is handed out. |
| HttpRoundTrip.EndlessBody | src/LowHTTPDirect.cpp:923-945 | Without a length and with any other method: everything after the blank line is body, to the end of the connection. |
| HttpRoundTrip.ReadContentLength | src/LowHTTPDirect.cpp:917-945 | From the blank line on: exactly the announced number of bytes is handed out. |
| HttpRoundTrip.ReadChunked | src/LowHTTPDirect.cpp:731-812 | For any chunked body, with any chunk header line under ten bytes that scans to the size and any trailer lines: the reader is handed the data of the chunks, and the parser ends up waiting for the response. |
| HttpRoundTrip.RoundTrip | src/LowHTTPDirect.cpp:731-812 | For every list of chunks, the parser's body of the framed chunks is their concatenation, and it ends up waiting for the response. |
| HttpRoundTrip.EndToEnd | src/LowHTTPDirect.cpp:304-392 | A finished writer, and a reader that was fed what it sent in any pieces and with any Read sizes: the reader got a prefix of the written data, and all of it without an error once nothing is parked. |
| PosixPath.NormalizeString | lib_js/path.js:57-123 | The one-pass builder with its counters is: split at slashes, run the stack machine, join. |
| PosixPath.Resolve | lib_js/path.js:1075-1118 | The backward search for an absolute argument gives the stack machine over the segments of the arguments that count. |
| Segments.FoldUps | lib_js/path.js:74-98 | n times ".." takes n names away; what is too much piles up if the path is relative, and stops at the root if not. |
| PosixPath.NormalizeCancels | lib_js/path.js:1121-1142 | In any path, a name and the ".." behind it cancel. |
| PosixPath.NormalizeSkips | lib_js/path.js:1121-1142 | In any path, "//" is "/" and "/./" is "/". |
| PosixPath.NormalizeUps | lib_js/path.js:1121-1142 | Names followed by ".." segments are what is left of the names, ".", or the ".." segments that are too much. |
| PosixPath.NormalizeEnds | lib_js/path.js:1121-1142 | An absolute path stays absolute, a relative one relative, and a closing slash stays. |
| PosixPath.NormalizeIdempotent | lib_js/path.js:1121-1142 | Normalizing twice is normalizing once, for every path. |
| PosixPath.ResolveIgnoresCwd | lib_js/path.js:1075-1118 | With an absolute argument, the current directory does not matter. |
| PosixPath.ResolveUsesCwd | lib_js/path.js:1075-1118 | Names are resolved below the current directory, whatever it is. |
| PosixPath.JoinIsJoin | lib_js/path.js:1151-1168 | What join normalizes is the arguments that are not empty, with slashes between. |
| PosixPath.JoinAll | lib_js/path.js:1151-1168 | The loop over the arguments computes the normalization of that. |
| PosixPath.JoinKeepsSegments | lib_js/path.js:1151-1168 | join lets the stack machine see the segments of all arguments, in order. |
| PosixPath.ResolveNormalForm | lib_js/path.js:1075-1118 | An absolute path in normal form is its own resolution. |
| PosixRelative.Relative | lib_js/path.js:1171-1261 | The scan over characters computes "up past what differs, then down", over segments. |
| PosixRelative.ResolveUndoesRelative | lib_js/path.js:1171-1261 | resolve(from, relative(from, to)) is resolve(to), for all from and to. |
| PosixRelative.RelativeIsShortest | lib_js/path.js:1171-1261 | No relative path that resolves to the same target has fewer segments. |
| FsResolve.LowFsResolve | src/low_fs.cpp:309-431 | In place in a buffer of any length: succeeds if and only if no ".." leaves the root and the longest text along the way is shorter than the buffer, then holds the path with its zero, and never writes past the length. |
| FsAgreement.NormalForm | src/low_fs.cpp:309-431 | A result is the root, plain names and at most one closing slash. |
| FsAgreement.AgreesWithResolve | lib_js/path.js:1075-1118 | Where it succeeds, it agrees with posix.resolve up to a closing slash. |
| FsAgreement.ClimbsTooFar | src/low_fs.cpp:360-372 | A path of names and then ".." segments resolves if and only if there are enough names. |
| UrlPath.RemoveDotsOnSegments | lib_js/url.js:846-871 | The algorithm of section 5.2.4 of RFC 3986 is the stack machine over segments. |
| UrlResolve.RemoveDots | lib_js/url.js:856-868 | The backward pass with its counter leaves what the forward stack machine leaves. |
| UrlResolve.ResolvePathname | lib_js/url.js:782-915 | The method computes the function that the next lemmas are about. |
| UrlResolve.MatchesRfcExactly | lib_js/url.js:782-915 | The resolved path is that of section 5.2 of RFC 3986 if and only if the input does not depart: no empty segment survives in front of a closing "." or "..", or first after the root was lost. |
| UrlResolve.MatchesRfcWithoutDoubleSlash | lib_js/url.js:782-915 | So it is for every input without an empty segment inside. |
| UrlResolve.DepartsSomewhere | lib_js/url.js:846-882 | For "/a//." it is not. |
| QueryParse.Parse | lib_js/querystring.js:261-442 | The scanner with its two match indices, its decode flags and its pair limit is: cut at "&", cut at the first "=", decode what is flagged, collect. |
| QueryFlags.DecodedExactly | lib_js/querystring.js:330-405 | The key's flag is set exactly if the key holds a "%HH"; the value's exactly if, without its plus signs, the value holds one or what follows the first "%HH" of the key does. |
| QueryFlags.DecodedForNothing | lib_js/querystring.js:330-405 | The value "%+41" is decoded although it holds no "%HH". |
| QueryReading.ReadsField | lib_js/querystring.js:261-442 | Text around the first "=" is key and value, with plus signs read as spaces. |
| QueryReading.ReadsKey | lib_js/querystring.js:261-442 | Without a "=" the value is empty. |
| QueryReading.ReadsCustom | lib_js/querystring.js:261-442 | A custom decoder is called for every text that is not empty and sees "%20" for a plus sign. |
| QueryReading.ReadsPieces | lib_js/querystring.js:261-442 | A text of pieces with "&" between is read piece by piece, all of it if the limit is not positive. |
| QueryReading.ReadsUpToLimit | lib_js/querystring.js:261-442 | With a limit, reading is reading the text of that many pieces. |
| QueryReading.EmptyPieceIgnored | lib_js/querystring.js:261-442 | Nothing between two "&" is no entry. |
| QueryRoundTrip.Stringify | lib_js/querystring.js:209-247 | Fails exactly if a text ends in an unpaired surrogate, and otherwise writes the fields in order. |
| QueryRoundTrip.FieldsJoin | lib_js/querystring.js:219-242 | What is written is the fields joined by "&", with one more "&" exactly if an empty array is the last property. |
| QueryRoundTrip.ParseUndoesStringify | lib_js/querystring.js:209-442 | parse(stringify(obj)), for all distinct well-formed keys with strings and arrays of any length, within the pair limit: the same object, except that an array of one comes back as its text and an empty one not at all. |
| QueryRoundTrip.ComesBackExactly | lib_js/querystring.js:209-442 | So it is the same object if and only if no array is shorter than two. |
| PercentLoops.QsEscape | lib_js/querystring.js:136-196 | The loop that copies slices is the per-character encoder, with the same failure. |
| PercentLoops.UnescapeBuffer | lib_js/querystring.js:66-106 | The loop over one buffer is the left-to-right reading of escapes, and the output never gets ahead of the input. |
| PercentCoding.DecodeEscaped | lib_js/querystring.js:109-196 | decodeURIComponent(escape(s)) is s for all well-formed text. |
| PercentCoding.UnescapeEscaped | lib_js/querystring.js:66-196 | unescapeBuffer(escape(s)) is the UTF-8 encoding of s. |
| PercentCoding.UnescapesPlain | lib_js/querystring.js:66-106 | Text without a "%" is its own unescaping, but for the plus signs if these are decoded. |
| PercentCoding.UnescapesStray | lib_js/querystring.js:66-106 | So is text in which no "%" starts an escape. |
| PercentCoding.UnhexIs | lib_js/querystring.js:46-64 | The digits of an escape count the same in either case. |
| PercentCoding.LoneSurrogate | lib_js/querystring.js:136-196 | A surrogate left alone at the end cannot be escaped. |
| PercentCoding.EscapesExactly | lib_js/querystring.js:117-134 | Exactly the unreserved characters of section 2.3 of RFC 2396 stay as they are. |
| PercentCoding.EscapedIsSafe | lib_js/querystring.js:117-196 | escape writes unreserved characters and "%HH" with upper-case digits only. |
| PercentCoding.Utf8Value | lib_js/querystring.js:160-190 | The bytes that escape writes for a code point are its UTF-8 encoding. |
| Generator.Context.DispatchException | lib_js/init.js:1471-1529 | By the locations alone: of the last statement that guards the location, the catch block is next if the location is in front of it, with or without a finally block, and the finally block otherwise; only its completion changes. |
| Generator.Context.AbruptReturn | lib_js/init.js:1531-1563 | By the locations alone: the finally block of the last statement that has one ahead is next, or the end. |
| Generator.Context.Finish | lib_js/init.js:1584-1593 | A finally block's end throws its exception on, or goes on with its return and is reset. |
| Generator.Context.Invoke | lib_js/init.js:1173-1226 | For properly nested try statements, and finally blocks that end or are left anywhere, the way of one throw or return through the loop of invoke is the journey along the statements ahead of where it started, innermost first. |
| Generator.TravelsToCatch | lib_js/init.js:1471-1529 | What is thrown in the try block of the innermost guarding statement ends in its catch block. |
| Generator.TravelsToFinally | lib_js/init.js:1471-1563 | Anything else goes through its finally block and on from there. |
| Generator.TravelsOut | lib_js/init.js:1471-1563 | Where nothing guards, the exception or the value gets out. |
| Generator.Overrides | lib_js/init.js:1471-1593 | A finally block that returns or throws itself replaces what was on its way. |
| Generator.EachOnce | lib_js/init.js:1471-1563 | On that journey no handler is entered twice. |
| Generator.OwnValue | lib_js/init.js:1471-1593 | If the finally blocks fall through, the value gets out unchanged, and every finally block ahead has been entered. |
| Collections.Map.Set | lib_js/init.js:394-401 | A known key keeps its place, a new one goes to the end; no iterator is put out of place. |
| Collections.Map.Delete | lib_js/init.js:361-370 | Takes the entry out; an iterator in its place stays there if and only if it is in `_itp` or not behind the entry. |
| Collections.Map.Next | lib_js/init.js:431-450 | An iterator in its place gives entries newer than all it gave before, and at its end has given every entry that is still there; asking one that has left makes the last of the others leave. |
| Collections.Run | lib_js/init.js:361-450 | For any sequence of set, delete and next on any number of iterators, none asked again after its end: each gives different entries in the order in which they were made, and at its end has given every one that was there and still is. |
| Collections.Map.Clear | lib_js/init.js:409-412 | An iterator stays in its place if and only if it has given nothing out yet. |
| Collections.Map.Get | lib_js/init.js:372-374 | The value of the key, NaN and both zeros being equal to themselves. |
| Collections.LooksUp | lib_js/init.js:372-384 | NaN finds NaN, each zero finds either zero, everything else finds itself. |
| Collections.LooksUpNothing | lib_js/init.js:372-384 | Nothing else is found. |
| Collections.SkipsAnEntry | lib_js/init.js:431-450 | Two iterators and a delete, after which one skips an entry that is there. |
| Timers.NextIsFirst | src/low_loop.cpp:119-121 | Searching the wrapped stamps from the last chore time on finds the one that is the least ahead, for all stamps. |
| Timers.Loop.SetTimeout | src/low_loop.cpp:312-350 | The chore is due after the delay, and is the newest; a new id is below all others; the old chore of the id is gone; nothing else changes. |
| Timers.Loop.SetChore | src/low_loop.cpp:260-279 | The same for a chore of JavaScript, which keeps the loop alive and is repeated or not. |
| Timers.Loop.Fire | src/low_loop.cpp:113-168 | A chore fires if and only if the one due first is due, and not late by more than 2^31 ms; it is that one that fires, and of several the one set first; fired times never go back; an interval is due again one interval later, or at once if it has fallen behind; otherwise the loop waits exactly until the first one is due, or 2^32 ms longer if it is late. |
| Timers.Loop.ClearChore | src/low_loop.cpp:285-305 | Removes the chore from both tables and from `run_ref`. |
| Events.EventEmitter.AddListener | lib_js/events.js:194-260 | The listener goes to the end or the front of the event's list, over all three representations, after whatever the handlers of "newListener" did. |
| Events.EventEmitter.RemoveListener | lib_js/events.js:309-366 | The last match by itself or by what it wraps goes, the others keep their order. |
| Events.RemovesOriginal | lib_js/events.js:309-366 | The function given to on or to once takes its listener out, of several the last, and nothing else. |
| Events.RemovesNothing | lib_js/events.js:309-366 | A function that was not added takes nothing out. |
| Events.EventEmitter.RemoveAllOf | lib_js/events.js:370-417 | The event is emptied and nothing else changes; "removeListener" is told of the listeners from the last to the first, except of the last of its own. |
| Events.EventEmitter.Emit | lib_js/events.js:140-192 | All listeners in order; thrown exactly for "error" without a listener. |
| EventsOnce.OnceAtMostOnce | lib_js/events.js:273-307 | In every run of nested emits, with handlers that do anything, a listener of once runs at most once, and is in no list afterwards. |
| EventsOnce.EmitFiresAll | lib_js/events.js:140-192 | In every run, an emit that has gone through its snapshot has fired every once listener in it, each exactly once. |
| EventsOnce.AddedInOrder | lib_js/events.js:194-260 | In every run in which nothing is prepended, the once listeners of an event stand in the order in which they were added. |
| Prefixes.CommonPrefix | lib_js/readline.js:536-550 | The prefix shared by the first and the last in order is the longest common prefix of all. |
| Prefixes.LongestCommonPrefix | lib_js/repl.js:1195-1212 | Comparing column by column gives the longest common prefix. |
| Prefixes.LongestIsOne | lib_js/repl.js:1195-1212 | There is only one, so both give the same. |

## Findings

Where the code does not have the property that one would expect, the model keeps
the code, names an input, and states exactly when the property holds.

- closeSync inside the callback that an outer closeSync of the same file waits for
  deletes the file, and the outer one deletes it again:
  `fs.read(fd, ..., () => fs.closeSync(fd)); fs.closeSync(fd)`.
  `FileDrop.SomeFileIsDeletedTwice` is the run, `FileEnds.CloseSyncExactly` the exact
  condition; `FileRuns.CarefulFindsAll` is what holds for callers that do not do this.
- An operation that such a callback starts on its own file is accepted and then
  dropped without an answer. `FileDrop.SomeOperationIsDropped` is the run,
  `FileEnds.EveryOperationEnds` says exactly which operations are dropped.
- A closed file can stay undeleted for good: when its open failed, when its close
  failed without a callback, as in `try { fs.closeSync(fd) } catch (e) {}`, and when the
  callback of its close throws. `FileStray` has a run for each,
  `FileLinger.ClosedStaysExactly` says exactly which files stay.
- A chunk of 0x100000 bytes or more makes the chunk header line one byte longer than
  its buffer. `HttpWriter.LineOverrun`, `HttpWriter.ChunkLineFits`,
  `HttpWriter.Writer.Write`.
- Resolving "/a//." gives "/a/" where RFC 3986 has "/a//". `UrlResolve.DepartsSomewhere`,
  `UrlResolve.MatchesRfcExactly`.
- querystring.parse calls the decoder for some values that hold no encoded byte, such
  as "%+41"; `QueryFlags.DecodedExactly` says when.
- stringify ends in "&" when the last property is an empty array;
  `QueryRoundTrip.FieldsJoin`.
- A timer that is late by more than 2^31 ms does not fire until its stamp has come
  round; `Timers.Loop.Fire`.
- A Map iterator that is asked again after its end takes another iterator out of the
  list of those that deletions adjust, and that one can skip entries; clear leaves
  positions behind. `Collections.SkipsAnEntry`, `Collections.Map.Next`,
  `Collections.Map.Clear`, `Collections.Map.Delete`.

## Left out

- Files: the data and positions that read and write move, errno values, the stat
  record, the Duktape stash, and shutting down (`destroying`).
- Files: time. A wait is a step that can be taken when its condition holds.
- LowFileObject.LowFile.OnData: the system calls are a parameter that says what went
  wrong.
- FsResolve.LowFsResolve: `resLen == 1` is not covered; the source writes `res[1]` before
  it looks at the length, and no caller passes 1. The node_modules cut and the ESP32
  prefix are not modelled.
- HttpReader.HandedOut: the first line and the values of header fields are not parsed by
  the model; a message starts from what they decided (length, chunked, no body). A
  header line longer than a parameter block is not an error in the model.
- HttpBytes.StepSane: a chunk size with a sign, which `sscanf` takes, or of 2^31 and
  more is an error in the model.
- HttpReader.Reader.SocketData: runs without another thread's Read in between, as under
  the mutex; byte counters, and the restart for a next request on the same connection,
  are not modelled.
- HttpReader.Reader.Read: without a request or a socket it is refused; the model has
  both. What the callback is called with is `HttpReader.Reader.Complete`.
- HttpWriter.Writer.WriteHeaders: nothing happens without a request; the model has one,
  and a socket.
- HttpWriter.Writer.Write: after an overrun of the line buffer nothing more is promised.
- Paths: the win32 half of `lib_js/path.js`, dirname, basename, extname, parse, format.
- URLs: parsing and formatting, hosts and auth, protocols without slashes, and results
  that need not be absolute.
- QueryParse.Parse: the separators are "&" and "="; other separators and custom
  encoders are not modelled, nor numbers and booleans as values. The decoder is a
  parameter.
- Generator.Context.Invoke: break, continue, delegation with `yield*`, and a yield within
  a finally block are not modelled.
- Collections.Map.Next: Set, WeakMap and WeakSet share this code and are not modelled
  separately.
- Timers.Loop.Fire: chores late by 2^32 ms and more are outside the window in which
  wrapped stamps have an order.
- Timers.Loop.SetTimeout: so are chores set for 2^32 ms after the last chore that ran.
- Events.EventEmitter.RemoveAllOf: what "removeListener" is told assumes that its
  handlers leave this emitter alone.
- EventsOnce.OnceAtMostOnce: a wrapper that a program gets from rawListeners and
  registers once more is not modelled.
- Prefixes.CommonPrefix: sort is modelled as any sort by code units, as an insertion sort.
- Buffers, streams, modules, TLS, DNS, crypto: nothing of these is modelled.

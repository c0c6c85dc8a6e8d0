# cpp-http-server, modelled in Dafny

This project models the request-handling core of a small multi-threaded HTTP/1.1 server written in C++: the
`HttpServer` class (src/http_server.cpp) and `ThreadPool::enqueue` (include/thread_pool.h).

- **Request parsing.** `parseRequest` reads three white-space separated words from the request text with
  `std::istringstream >>` and returns the second one, the request target.
- **Response building.** `buildResponse` writes a status line, `Content-Type`, `Content-Length`,
  `Connection: close`, an empty line and the body.
- **Content types.** `getContentType` maps a file suffix to a media type.
- **Routing.** The route table inside `handleClient` serves three fixed HTML pages with status 200. Every other
  path gets a 404 page.
- **Client connections.** `handleClient` reads one request into a 4096-byte buffer (at most 4095 bytes, then a
  NUL terminator). It answers only when the read returned more than zero bytes, and it closes the connection
  on every path.
- **Lifecycle.** `start` creates, configures, binds and listens on the server socket. `stop` clears
  `running_`, closes a valid socket and resets it to -1, so a second `stop` does nothing.
- **Thread pool.** `enqueue` throws on a stopped pool. Otherwise it appends exactly one task at the back of the
  queue and returns a future bound to that task.

Modules, one per concern of the source:

| module | file | models |
|---|---|---|
| `Wrappers` | wrappers.dfy | `Option`, `Result`, `Outcome` |
| `Text` | text.dfy | "C" locale `isspace`; `operator<<` on integers |
| `Request` | request.dfy | `parseRequest`; `Tokens`, the reference tokeniser it is proved against |
| `Response` | response.dfy | `buildResponse`; `ParseResponse`, the parser its round trip is proved against |
| `Mime` | mime.dfy | `getContentType` and its suffix table |
| `Routes` | routes.dfy | the route table of `handleClient`; `Respond`, the whole text-level answer |
| `Server` | server.dfy | class `HttpServer`: construction, `start` setup, `stop`, `handleClient`. Class `ClientSocket`: one accepted connection |
| `Pool` | pool.dfy | class `ThreadPool`: the queue fields and `enqueue` |

How the system's environment is represented:

- **Socket calls.** System calls become inputs.
  - `start` receives what `socket`, `setsockopt`, `bind` and `listen` answered, as a `SetupAnswers` value.
  - Each `close` of the listening socket is recorded in the server's `closedHandles`.
  - A `ClientSocket` object stands for one accepted connection. Its `read` hands over the bytes the peer made
    available or fails. It records what `write` sent and how often `close` was called.
- **Futures.** The future that `enqueue` returns is modelled by the id of the task it is bound to.

## Model

| member | source | states |
|---|---|---|
| Text.IntToDecimal | src/http_server.cpp:174-176 | a stream writes an integer as a leading '-' exactly for negative values, then at least one decimal digit and nothing else, with no leading zero; 0 is written exactly as "0" |
| Text.DecimalRoundTrip | src/http_server.cpp:174-176 | reading back the decimal text of any integer gives that integer |
| Text.DecimalIsPlain | src/http_server.cpp:174-176 | decimal text never contains white space or a carriage return, so it cannot break a header line |
| Request.SkipSpace | src/http_server.cpp:164 | the sentry before each `>>` drops only white space, and stops at a non-space character or the end |
| Request.SkipSpaceIsSuffix | src/http_server.cpp:164 | what remains after skipping is the untouched rest of the stream |
| Request.Extract | src/http_server.cpp:164 | computes one `>>`: the word read and the rest of the stream; `ExtractWord` states that a word followed by white space or the end is read whole and the rest is left |
| Request.ExtractWord | src/http_server.cpp:164 | a non-empty space-free word followed by white space or the end is read whole by one `>>`, and exactly the rest is left in the stream |
| Request.Word | src/http_server.cpp:164 | one `>>` takes a prefix free of white space that ends at white space or at the end: the longest such run |
| Request.ParseRequest | src/http_server.cpp:160-166 | the extracted target never contains white space |
| Request.TokensAreWords | src/http_server.cpp:164 | every word the reference tokeniser yields is non-empty and free of white space |
| Request.TokensOfJoin | src/http_server.cpp:164 | for any non-empty space-free words, tokenising them joined by single spaces gives the words back: the tokeniser is the inverse of joining |
| Request.ParseRequestIsSecondToken | src/http_server.cpp:160-166 | for every request text, the result is the second word; it is empty exactly when there are fewer than two words |
| Request.ParseRequestLine | src/http_server.cpp:160-166 | for a request line `M SP T` followed by white space or nothing, the result is `T` |
| Request.ParseRequestExample | src/http_server.cpp:160-166 | `GET /about HTTP/1.1` yields `/about` |
| Request.ParseRequestTooShort | src/http_server.cpp:160-166 | the empty text, white space only, and a lone method all yield the empty path |
| Response.StatusText | src/http_server.cpp:172 | the reason phrase is "OK" exactly for 200 and "Not Found" for every other code |
| Response.BuildResponse | src/http_server.cpp:168-182 | computes the response text; `ParseBuildResponse` and `BuildResponseFrame` state its properties |
| Response.BuildResponseFrame | src/http_server.cpp:168-182 | the response starts with `HTTP/1.1 <code> <reason>` CR LF and ends with `Connection: close` CR LF, CR LF and exactly the body |
| Response.StatusLineRoundTrip | src/http_server.cpp:174 | parsing the status line gives back the status code and its reason phrase |
| Response.FieldsRoundTrip | src/http_server.cpp:175-179 | parsing the header lines gives back the content type, and the announced `Content-Length` equals the body's length |
| Response.ParseBuildResponse | src/http_server.cpp:168-182 | for any status, any content type without CR and any body, parsing the response gives back status, reason, content type and exactly the body |
| Mime.ContentType | src/http_server.cpp:184-195 | computes the chain of suffix tests; `ContentTypeSpec` and `ContentTypeIsTableLookup` state its properties |
| Mime.SuffixesExclusive | src/http_server.cpp:186-193 | no path ends with two different suffixes of the table |
| Mime.ContentTypeSpec | src/http_server.cpp:184-195 | the type is each table entry's type exactly when the path has that entry's suffix; it is "text/plain" exactly when no suffix matches |
| Mime.ContentTypeIsTableLookup | src/http_server.cpp:184-195 | the chain of tests is a front-to-back lookup in the suffix table |
| Mime.OrderIrrelevant | src/http_server.cpp:184-195 | looking the path up in any sub-table, in any order, gives the server's answer when some entry matches and "text/plain" otherwise |
| Mime.PermutedTable | src/http_server.cpp:184-195 | any reordering of the table answers every path as the server does, so the order of the tests does not matter |
| Routes.Route | src/http_server.cpp:99-152 | computes the status, content type and body chosen for a path; `RouteIsTableLookup` and `RouteStatus` state its properties |
| Routes.Respond | src/http_server.cpp:95-154 | computes the response text for a request text; `RespondSpec` states what a client reads back from it |
| Routes.RouteIsTableLookup | src/http_server.cpp:99-152 | the if-chain is a lookup in the map of three known paths: a hit gets its page with 200, a miss the 404 page |
| Routes.RouteStatus | src/http_server.cpp:99-152 | every route answers `text/html`; the status is 200 exactly for "/", "/about" and "/stats"; otherwise it is 404 with body `<h1>404 Not Found</h1>` |
| Routes.RespondRoutesParsedTarget | src/http_server.cpp:95-154 | the response a client reads back carries the routed page's status, reason, `text/html` and the page body |
| Routes.RespondSpec | src/http_server.cpp:95-154 | for every request text, the response carries the page routed for the second word, or the 404 page when there are fewer than two words |
| Routes.RespondToShortRequest | src/http_server.cpp:95-154 | a request with fewer than two words is answered 404 "Not Found" with the 404 page |
| Routes.RespondToRequestLine | src/http_server.cpp:95-154 | for a request line `M SP T ...`, the response carries the status and page that the route table gives for `T` |
| Server.AfterStop | src/http_server.cpp:77-85 | computes the state after `stop`; `StopSpec` and `StopIdempotent` state its properties |
| Server.StopTimes | src/http_server.cpp:77-85 | computes the state after `k` calls of `stop`; `StopTimesIsStop` states that it equals one call |
| Server.StopSpec | src/http_server.cpp:77-85 | after `stop` the server is not running and holds no valid socket (-1 when the field held a handle or -1); the old handle is closed exactly when it was valid |
| Server.StopIdempotent | src/http_server.cpp:77-85 | a second `stop` changes nothing and closes nothing |
| Server.StopTimesIsStop | src/http_server.cpp:77-85 | any number (at least one) of `stop` calls has the effect of one, as when the signal handler and then the destructor call it |
| Server.StartSetupAsWritten | src/http_server.cpp:24-54 | computes the setup part of `start` as written; `StartSetupSpec` and `StartSetupAsWrittenClosesTwice` state its properties |
| Server.StartSetup | src/http_server.cpp:24-54 | computes the corrected setup, which also resets a closed handle to -1; `StartSetupSpec` and `StartThenStopClosesOnce` state its properties |
| Server.ErrorMessagesDistinct | src/http_server.cpp:22-52 | the four exceptions `start` can throw carry four different messages, so the message names the failing step |
| Server.StartSetupSpec | src/http_server.cpp:22-54 | `start` reports the first failing step, as written and corrected alike; it runs exactly when all four calls succeed and then holds the new handle. After a failure the corrected setup holds no valid handle (-1), while the setup as written still holds the handle it closed (lines 33, 44, 50) |
| Server.StartThenStopClosesOnce | src/http_server.cpp:17-85 | from a fresh server, one start attempt followed by any number of `stop` calls closes the handle `socket` returned exactly once, unless `socket` failed or the server started and was never stopped |
| Server.StartSetupAsWrittenClosesTwice | src/http_server.cpp:30-52 | as written, a start whose `setsockopt`, `bind` or `listen` fails, followed by the destructor's `stop`, closes the same handle twice |
| Server.UntilNul | src/http_server.cpp:95 | `std::string(buffer)` takes a NUL-free prefix of the buffer that ends at the first NUL or at the end |
| Server.ReadCount | src/http_server.cpp:90 | the count one read returns: all available bytes up to the 4095 asked for, that is the smaller of the two |
| Server.RequestText | src/http_server.cpp:89-95 | the request text is a NUL-free prefix of what the peer sent that ends where the read stopped (at most 4095 bytes) or at the first NUL |
| Server.UntilNulAt | src/http_server.cpp:94-95 | the string taken from a buffer is exactly the characters before the first NUL |
| Server.CStringLength | src/http_server.cpp:94-95 | the length of the C string in the buffer is the index of its first NUL |
| Server.ClientSocket.Read | src/http_server.cpp:90 | a read of at most `count` bytes fails with -1 and changes nothing, or copies the first bytes to the front of the buffer and consumes them |
| Server.ClientSocket.Write | src/http_server.cpp:154 | the data is appended to what the connection has sent |
| Server.ClientSocket.Close | src/http_server.cpp:157 | the connection's close count goes up by one |
| Server.HttpServer.constructor | src/http_server.cpp:11-15 | a new server keeps its port, holds socket -1, is not running and has closed nothing |
| Server.HttpServer.Start | src/http_server.cpp:22-54 | the new fields and the outcome are those of the corrected setup `StartSetup`; the port is unchanged |
| Server.HttpServer.Stop | src/http_server.cpp:77-85 | the new fields are those of `AfterStop`, whose properties `StopSpec` and `StopIdempotent` state |
| Server.HttpServer.HandleClient | src/http_server.cpp:87-158 | the connection is closed exactly once; the response to the NUL-terminated request text is written exactly when the read returned more than zero bytes, and nothing is written otherwise; a successful read consumes the bytes it returned and a failed one consumes nothing |
| Pool.ValidIdsUnique | include/thread_pool.h:24-28 | in a valid queue no two tasks share an id, and every id is below the next one to be handed out |
| Pool.EnqueueStep | include/thread_pool.h:42-52 | computes one `enqueue` call: the new queue fields and the future or the exception; `EnqueueOnStoppedPool` and `EnqueueOnRunningPool` state its properties |
| Pool.EnqueueAll | include/thread_pool.h:31-53 | computes successive `enqueue` calls; `EnqueueAllStopped`, `EnqueueAllRunning`, `EnqueueAllFutures` and `EnqueueAllFifo` state its properties |
| Pool.EnqueueOnStoppedPool | include/thread_pool.h:42-46 | on a stopped pool `enqueue` throws "enqueue on stopped ThreadPool" and the pool is unchanged |
| Pool.EnqueueOnRunningPool | include/thread_pool.h:38-52 | on a running pool exactly one task is appended at the back with the job, earlier tasks are untouched, `stop_` and `workers_` are unchanged, and the returned future is bound to the new task, whose id no queued task has |
| Pool.EnqueuePreservesValid | include/thread_pool.h:45-49 | `enqueue` keeps the queue valid |
| Pool.EnqueueAllStopped | include/thread_pool.h:45-46 | every call on a stopped pool throws and the pool is left as it was |
| Pool.EnqueueAllRunning | include/thread_pool.h:48-49 | successive calls on a running pool append their jobs, numbered consecutively, behind the queued tasks and change nothing else |
| Pool.EnqueueAllFutures | include/thread_pool.h:38-52 | the i-th of successive calls on a running pool returns the future bound to the i-th new id |
| Pool.EnqueueAllFifo | include/thread_pool.h:48-49 | jobs submitted one after another end up at the back of the queue in submission order, the queued tasks stay in front, and the queue stays valid |
| Pool.ThreadPool.Enqueue | include/thread_pool.h:31-53 | the new fields and the returned future are those of one `EnqueueStep`; a valid queue stays valid |

## Left out

- The accept loop of `start` (src/http_server.cpp:55-74) is not modelled: the startup message, accepting clients and handing each to the pool. Setting `running_` at line 54 is modelled. Its behaviour depends on concurrent `accept` calls and on signals.
- Socket system calls (`socket`, `setsockopt`, `bind`, `listen`, `read`, `write`, `close`) are not executed. They appear as the answers in `SetupAnswers` and as the `ClientSocket` object.
- `readFile` is not modelled. It does file I/O, and the route table never calls it.
- Threads, `queue_mutex_`, `condition_`, `notify_one` and the `std::packaged_task` / `std::future` machinery are not modelled. `ThreadPool.Enqueue` is the sequential effect of the critical section, and a future is the id of its task.
- The `ThreadPool` constructor, destructor and worker loop are not part of this model. Their definitions are not in the source files, so the class has no constructor.
- `HttpServer`'s `thread_pool_` member and the `thread_count` argument of its constructor are not modelled.
- src/main.cpp and include/http_server.h are not part of this model, apart from the call order that the finding depends on.
- Server.HttpServer.Start: models the corrected setup. The as-written setup is `StartSetupAsWritten`, described under Findings.
- Server.StartSetupSpec: its "no valid handle after a failure" clause is about the corrected setup only; for the setup as written it states instead that the closed handle stays in the field.
- Server.StopSpec: it states that `server_socket_` becomes -1 only when the field held a handle or -1. Other negative values cannot come from `socket`, and `stop` leaves them in place.
- Server.ClientSocket.Write: it sends the whole response. Partial writes and write errors are not modelled, because the source ignores `write`'s result.
- Request.ParseRequest: the third word (the HTTP version) is still read by the source, but it cannot change the returned target, so the model does not extract it.
- Characters are Dafny `char`s, not C++'s signed `char`. `isspace` on negative `char` values is not modelled.
- Text.IntToDecimal: integers are unbounded. The source writes an `int` status code and a `size_t` length, whose widths never matter for the codes 200 and 404 or for realistic body lengths.

## Findings

| source | as written | input that shows it | evidently intended | confidence | as-written member | corrected member |
|---|---|---|---|---|---|---|
| src/http_server.cpp:30-52 (with 17-20) | when `setsockopt`, `bind` or `listen` fails, `start` closes `server_socket_` but leaves the descriptor in the field, so the destructor's `stop` closes it a second time | `socket` returns descriptor 3 and `bind` fails (port in use): `main` catches the exception and returns, the global server is destroyed, and `stop` calls `close(3)` again, possibly on a descriptor reused by then | a closed handle is reset to -1, so the handle is closed exactly once | not executed | Server.StartSetupAsWrittenClosesTwice | Server.StartThenStopClosesOnce |

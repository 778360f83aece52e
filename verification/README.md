# A verified model of the _wbsv web server

The server is a small HTTP/1.x stack in Go. This project models the parts of it that carry the most state and branching
and proves what they promise, for every input, every registration history and every interleaving.

- **Router** (`RoutePattern`, `RoutePriority`, `RouteShape`, `RouteNodes`, `RouteTrie`, `Router`, `RouteDispatch`,
  `RouteRanking`, `RouteOrder`, `RouteClash`, `RouteCases`, `RouteRequests`, `SortedLists`). The segment trie is a heap
  of mutable nodes built by `Trie.Insert` and searched by a recursive backtracking method. A ghost map from key prefixes
  to nodes makes "tree-shaped and unshared" a flat invariant, and every stored route has a method table of its own,
  updated in place. The trie is proved equal to a linear scan over the registered patterns in priority order; dispatch,
  framing, capture and ordering laws are then proved about the scan, and `RouteRequests` ties them to the strings that
  are registered and requested.
- **Connection lifecycle** (`TcpServer`, `TcpLifecycle`, `TcpInvariants`, `TcpPool`, `TcpLiveness`, `TcpAccept`,
  `TcpRefinement`).
  The accept loop, the worker pool (or one goroutine per connection), the context watcher, the once-only shutdown and
  the environment take 32 kinds of atomic step in any order. Every step is also performed on the server object, whose
  fields after any interleaving are those the step system predicts.
- **HTTP/1.x** (`HttpStream`, `HttpHeader`, `HttpRequest`, `HttpGrammar`, `HttpFaults`, `HttpChunked`, `HttpResponse`,
  `HttpClient`, `HttpServe`, `HttpAnswers`). A reader over a schedule of reads, a writer to an output that may close
  after any byte, and the keep-alive loop between them. Each method is proved equal to a function of the bytes; a
  grammar, an RFC 9112 decoder and an RFC 9112 client are the independent other side of every round trip, and
  `HttpFaults` and `HttpAnswers` say from the bytes received what is refused and what is answered.
- **Rate limiter** (`RateLimit`) and **server-sent events** (`Sse`), with bounds and round trips over whole runs.
- `Text` holds the string operations the server borrows from Go's library.

Strings are sequences of bytes and letter case is ASCII only. A connection's input is a schedule of non-empty reads
followed by an end (end of file, timeout or another error), and an error never arrives together with data: the body
reader would report such an error even when the read that brought it completed the body
(internal/http1/body.go:42-53). The application is a function from the requests of a connection so far to a response.
A connection that is closed makes its handler return after finitely many steps, and `Serve` is called once per server.

## What turned out different

- The limiter admits at most 2·limit − 1 requests in any half-open interval as long as the window, not 2·limit
  (`SlidingBound`), and that number is reached (`BoundIsReached`), except with a window of one nanosecond, where it is
  the limit (`OneTickBound`). A clock stuck at Go's zero time switches it off (`ZeroClockNeverRefuses`).
- The advertised delay is the least one exactly when the time left is at most 2^63 − 10^9 ns (`RetryAfterIsLeastIff`);
  above that it comes out negative, as with a window of 2^63 − 1 ns (`LongWindowAdvertisesNoDelay`).
- docs/router.md:68-90 promises that the more specific route wins and that registration order breaks ties. The code
  keys parameter and wildcard edges by name, in order of creation, so this fails when overlapping patterns part at
  captures with different names: /users/:id/:section, registered first, answers GET /users/42/books although
  /users/:uid/books is registered too (`NamesCanInvert`). `DocumentedRuleIff` gives the exact condition.
- Of two such patterns the one whose capture edge is older goes first (`OlderCaptureDecides`), and that edge may be
  another route's: with /users/:uid/x registered before both, the later /users/:uid/books answers (`LaterCanAnswer`).
- The order of registration shows in the routing exactly when one registration contradicts another or two patterns
  clash, that is, match a common path and have one key or part at captures of one kind with different names
  (`OrderNeverShowsIff`). Patterns that differ only in empty segments have one key (`DoubledSlashSharesKey`,
  `SlashOrderShows`); of two handlers for one path and method the later one stays (`HandlerOrderShows`). Routing alike
  means equal static entries and, for every path, equal lists of matching routes, which makes every request dispatch
  alike (`SameRoutingDispatches`). A clash need not be visible in a response: it is not when the two patterns share no
  method (`OrderDoesNotMatter` asks only about patterns for the request's own method), nor when a third route answers
  every path both match.
- docs/backpressure.md:74-75 says that many connections may wait for workers when the pool is small and the limit is
  large. The hand-off is unbuffered and the accept loop waits in it, so of the connections the server has accepted at
  most one waits (`PoolBound`); more can wait only in the listener's queue. A limit above the pool's size therefore
  never rejects, and any other positive limit does in some run (`NeverRejectsIff`).
- An application's own `Transfer-Encoding` goes out beside the server's `Content-Length` when the body is not chunked,
  and a client then follows the former (`OwnCodingMisleads`) and takes a body cut anywhere for a whole one
  (`OwnCodingCutShort`). A field name may hold a colon: `Content-Length:5` is written without a fault, and a client
  sees a second, malformed Content-Length and refuses the response (`ColonNameMisleads`). `ResponseRoundTripIff` says
  exactly when a response reads back, and `FramingSeen` exactly when a client sees the one length the server states.
- A client that closes cleanly after its last request is sent one more response, 400 (`CleanCloseGets400`).

## Model

| member | source | states |
|---|---|---|
| `RoutePattern.ParseRouteSegments` | internal/httpserver/router.go:331-365 | a pattern is accepted exactly when its names are usable and pairwise different and only its last segment is a wildcard; the result is its classified segments |
| `RoutePattern.AcceptedIff` | internal/httpserver/router.go:331-386 | a list of raw segments is accepted exactly when every name after a colon or an asterisk is non-empty and free of blanks and line breaks, no name is used twice, and only the last segment starts with an asterisk |
| `RoutePattern.PatternIff` | internal/httpserver/router.go:375-382 | a path with a leading slash is taken for a pattern exactly when somewhere a slash is followed by a colon or an asterisk |
| `RoutePattern.OuterSlashes` | internal/httpserver/router.go:367-373 | slashes before and after a path do not change its segments |
| `RoutePattern.PatternKeyIsValid` | internal/httpserver/router.go:201-212 | every accepted pattern has a key the trie can hold: no empty literal, no slash inside a literal |
| `RoutePattern.DoubledSlashSharesKey` | internal/httpserver/router.go:203-212 | an empty literal anywhere in a pattern does not change the node it is stored at |
| `RoutePattern.MatchesIff` | internal/httpserver/router.go:274-300 | a pattern matches exactly the paths of its length that agree with its literals; one that ends in a wildcard, those at least as long as what stands before it that agree with its literals |
| `RoutePattern.BoundInPlace` | internal/httpserver/router.go:285-297 | a parameter is bound to the path segment at its own place, a wildcard to the rest joined with slashes |
| `RoutePattern.CaptureRoundTrip` | internal/httpserver/router.go:274-329 | the captures of a match are exactly the pattern's names, and putting them back gives the path without its outer slashes |
| `RoutePattern.EmptyWildcardIffNothingLeft` | internal/httpserver/router.go:277-282 | a wildcard captures the empty string exactly when no path segment is left for it |
| `RoutePriority.BeforeTotal` | internal/httpserver/router.go:277-297 | the priority order decides between any two registered patterns |
| `RoutePriority.BeforeAsymmetric` | internal/httpserver/router.go:277-297 | and never both ways |
| `RoutePriority.BeforeTransitive` | internal/httpserver/router.go:277-297 | and is transitive |
| `RoutePriority.SameKeyByAge` | internal/httpserver/router.go:214-222 | routes stored at one node are tried in the order of their first registration |
| `RoutePriority.ScanIsSorted` | internal/httpserver/router.go:274-300 | the linear scan lists the matching patterns in priority order |
| `RoutePriority.SortedIsUnique` | internal/httpserver/router.go:274-300 | no other list of exactly the matching patterns is in priority order |
| `RoutePriority.InsertIsFramed` | internal/httpserver/router.go:201-223 | one more pattern leaves the list of every path it does not match unchanged and enters every other list at one place |
| `RouteShape.EdgesMembers` | internal/httpserver/router.go:237-265 | the edges at a prefix are exactly the next segments of the keys through it |
| `RouteShape.EdgesByAge` | internal/httpserver/router.go:237-265 | and are in order of creation |
| `RouteShape.RootListIsLinearScan` | internal/httpserver/router.go:267-300 | a complete ordered list of matches below the root is the linear scan's list, with its captures |
| `RouteNodes.GrowLinked` | internal/httpserver/router.go:225-265 | a fresh child linked from one node keeps the nodes a tree without sharing |
| `RouteNodes.EdgeLookup` | internal/httpserver/router.go:225-265 | a node has an edge for a segment exactly when the tree has a node there, and the edge leads to it |
| `RouteNodes.RegisterEverywhere` | internal/httpserver/router.go:214-222 | storing a route at the node of its key is registering it in the whole table |
| `RouteNodes.Node.LiteralChild` | internal/httpserver/router.go:225-235 | the child for a literal: the existing one, or a fresh blank node added under it |
| `RouteNodes.Node.ParamChild` | internal/httpserver/router.go:237-250 | the child for a parameter name: the existing one, or a fresh blank node at the end of the edges |
| `RouteNodes.Node.WildcardChild` | internal/httpserver/router.go:252-265 | the same for a wildcard name |
| `RouteNodes.Node.StoreRoute` | internal/httpserver/router.go:214-222 | the entry with the same pattern string gets the methods written into its own table; otherwise the route is appended |
| `RouteNodes.UnaliasedStore` | internal/httpserver/router.go:158-170 | storing a route keeps every method table owned by one entry of one node |
| `RouteNodes.ReflectsStore` | internal/httpserver/router.go:214-222 | what the nodes store after it are the routes of the whole table with the new one registered |
| `RouteNodes.Node.TerminalMatches` | internal/httpserver/router.go:302-315 | one match per route of the node, in order, with the given captures |
| `RouteTrie.Trie.Locate` | internal/httpserver/router.go:201-212 | the walk ends at the node of the pattern's key and keeps the tree linked |
| `RouteTrie.Trie.Insert` | internal/httpserver/router.go:201-223 | keeps the whole representation invariant and registers the route in the abstract table |
| `RouteTrie.Trie.WildcardsAreLeaves` | internal/httpserver/router.go:349-353 | a wildcard edge always leads to a node without children |
| `RouteTrie.Trie.Match` | internal/httpserver/router.go:267-300 | the trie returns exactly the linear scan's matches, in its order |
| `Router.AllowedMethods` | internal/httpserver/router.go:146-156 | the strictly sorted list of the method names other than the reserved one, joined |
| `Router.TextLessIff` | internal/httpserver/router.go:146-156 | its order is that of a dictionary: by the first character that differs, a prefix before what it begins |
| `Router.BuildIsValid` | internal/httpserver/router.go:37-57 | every sequence of registrations, refused ones included, leaves a valid table |
| `Router.Mux.HandleMethod` | internal/httpserver/router.go:37-57 | the router's state is the one its history of registrations builds; a refused registration changes nothing |
| `Router.Mux.ServeHTTP` | internal/httpserver/router.go:76-144 | the outcome is the dispatch function of the registered state, for the path before the query, or the root when there is none, and the method in upper case |
| `Router.QueryIsIgnored` | internal/httpserver/router.go:135-144 | in every state a request is answered for the path before its first question mark, whatever query follows; an empty path is looked up as the root, any other as itself |
| `RouteRequests.RegistrationIff` | internal/httpserver/router.go:37-57 | which registrations are refused and with which error, from the strings given; an accepted one is for the method in upper case, as a pattern exactly when a slash is followed by a colon or an asterisk |
| `RouteRequests.StaticPathAnswers` | internal/httpserver/router.go:76-126 | a registered static path, with or without a query, is answered by the handler registered last for the method, failing that by the one registered last for any method, and otherwise by 405 |
| `Text.ToUpperIs` | internal/httpserver/router.go:37-38 | upper-casing leaves no lower-case letter and changes nothing but case |
| `Text.EqualFoldIff` | internal/http1/request.go:80-87 | folding compares texts of one length, ignoring the case of letters and nothing else |
| `RouteDispatch.DispatchOutcomes` | internal/httpserver/router.go:76-126 | 404 exactly when nothing matches the path, 405 exactly when something matches but nothing offers the method, otherwise one handler runs |
| `RouteDispatch.AllowListsOffered` | internal/httpserver/router.go:128-156 | on 405, Allow is a non-empty strictly sorted list of exactly the offered methods and omits the request's own |
| `RouteDispatch.RunIsWinner` | internal/httpserver/router.go:76-126 | the handler that runs is the static entry's, or that of the first matching pattern in priority order that offers the method, with its captures |
| `RouteDispatch.RegistrationIsFramed` | internal/httpserver/router.go:158-223 | a registration changes no list of matches of a path its pattern does not match, and in any other adds one entry or updates one |
| `RouteRanking.DocumentedRuleIff` | docs/router.md:68-90 | on every path the documented order holds exactly when no two overlapping patterns part at differently named captures the wrong way round |
| `RouteRanking.InvertedPath` | internal/httpserver/router.go:237-250 | every such pair is tried in the wrong order on some path |
| `RouteRanking.CoherentIsDocumented` | docs/router.md:68-90 | the documented order holds on every path when sibling captures share a name |
| `RouteCases.NamesCanInvert` | docs/router.md:84-90 | with /users/:id/:section registered before /users/:uid/books, GET /users/42/books runs the former's handler with its captures |
| `RouteCases.LaterCanAnswer` | internal/httpserver/router.go:237-250 | with /users/:uid/x registered before both, /users/:uid/books answers GET /users/42/books although /users/:id/:section is registered earlier |
| `RouteOrder.LastRegistrationWins` | internal/httpserver/router.go:52-56 | for every path and method the router holds the handler registered last, and nothing that was not registered |
| `RouteRanking.FirstOfClashing` | internal/httpserver/router.go:237-265 | of two clashing patterns registered before all others the one registered first goes first |
| `RouteRanking.OlderCaptureDecides` | internal/httpserver/router.go:237-265 | in every table, of two patterns that part at captures of one kind with different names the one goes first whose capture was created first, by whatever registration |
| `RouteRanking.OrderedAlike` | internal/httpserver/router.go:277-297 | patterns that match one path without clashing are ordered by specificity in every table that holds them |
| `RouteOrder.OrderDoesNotMatter` | internal/httpserver/router.go:76-104 | without contradictions the same registrations in any order, repeated or not, dispatch alike every request for whose method no two patterns clash, and route alike when no two patterns clash at all |
| `RouteOrder.SameForMethod` | internal/httpserver/router.go:106-144 | two tables with the same routes answer a method alike when no two routes that support it clash |
| `RouteOrder.SameRoutingDispatches` | internal/httpserver/router.go:76-104 | routers that route alike dispatch every request alike |
| `RouteClash.OrderNeverShowsIff` | internal/httpserver/router.go:37-57 | every order of the registrations routes alike exactly when none contradicts another and no two patterns clash |
| `RouteClash.FirstRegisteredRuns` | internal/httpserver/router.go:76-126 | in a router that holds two clashing patterns for one method and no others, the one registered first answers every path both match |
| `RouteCases.SlashOrderShows` | internal/httpserver/router.go:203-212 | /a//:id and /a/:id answer GET /a/7 by whichever was registered first |
| `RouteCases.HandlerOrderShows` | internal/httpserver/router.go:52-56 | of two handlers for one path and method the one registered last answers |
| `RouteOrder.MostSpecificRuns` | internal/httpserver/router.go:76-104 | when no two patterns for the request's method clash, the route that runs is the most specific one that matches and offers the method |
| `TcpRefinement.Perform` | internal/tcpserver/server.go:219-250 | with calls of the server object's methods and closes on the network every step can be performed: the object's fields, its counter and the set of closed connections are afterwards the step's |
| `TcpRefinement.Play` | internal/tcpserver/server.go:65-148 | after any interleaving the object's fields are those predicted; after Serve's return it holds no connection, its counter is zero and all accepted connections are closed; without a limit, or with one above the size of the pool, it has rejected nothing; without an end of the context or a failed Accept it is not shutting down; before the grace period expires no running handler's connection is closed |
| `TcpInvariants.StepKeeps` | internal/tcpserver/server.go:65-155 | every step of every process keeps every invariant |
| `TcpInvariants.ReachableInv` | internal/tcpserver/server.go:65-155 | so every reachable state has them |
| `TcpInvariants.WaitGroupAccounting` | internal/tcpserver/server.go:219-250 | the counter is the active connections plus the untracks between delete and Done, the limit is never exceeded, and every accepted connection is tracked, limited or refused |
| `TcpInvariants.UntrackedOnce` | internal/tcpserver/server.go:150-155 | no run untracks a connection twice or before it is closed, and one that ends with Serve's return has untracked every tracked one |
| `TcpPool.PoolBound` | internal/tcpserver/server.go:95-109 | with W workers at most W handlers run, at most one tracked connection waits for one, and at most W + 1 connections are tracked, or the limit's number if that is not above W |
| `TcpPool.PoolBoundReached` | internal/tcpserver/server.go:95-140 | both bounds are reached by some run, for every configuration with workers |
| `TcpPool.NeverRejectsIff` | internal/tcpserver/server.go:219-236 | no run rejects a connection exactly when there is no limit, or there is a pool and the limit is above its size |
| `TcpAccept.KeepsServing` | internal/tcpserver/server.go:114-147 | in every run without an end of the context and without a failed Accept, whatever is accepted, rejected or served, the loop never leaves or refuses and the shutdown never starts |
| `TcpAccept.AcceptsAgain` | internal/tcpserver/server.go:114-147 | after such a run, unless all workers are busy, at most two steps of the loop lead back to Accept |
| `TcpAccept.RejectionPasses` | internal/tcpserver/server.go:126-129 | closing a connection over the limit changes nothing else, and the loop can accept the next one |
| `TcpAccept.RejectsAndGoesOn` | internal/tcpserver/server.go:114-129 | whenever the limit can be met, some run turns a connection away, closes it and accepts another |
| `TcpAccept.LeavesOnlyBy` | internal/tcpserver/server.go:114-147 | the loop leaves only by a failed Accept, by closing a connection that came during the shutdown, or by giving back one that no worker took before the context ended |
| `TcpAccept.StopsWhenAsked` | internal/tcpserver/server.go:65-148 | from every reachable state the end of the context, and from the loop's Accept its failure, can be followed by bound steps to Serve's return |
| `TcpAccept.GracePeriodSpares` | internal/tcpserver/server.go:68-79 | in every run in which the grace period does not expire no connection is closed under its handler and none by force |
| `TcpAccept.GracefulReturn` | internal/tcpserver/server.go:68-79 | from every shutting-down state whose grace period has not expired, some run in which it never does leads to Serve's return |
| `TcpInvariants.ShutdownOnlyDrains` | internal/tcpserver/server.go:301-305 | once the flag is set the active set only shrinks and nothing is added to the wait group; a finished shutdown stays at zero |
| `TcpInvariants.AddsPrecedeWaits` | internal/tcpserver/server.go:307-332 | no wait-group Add happens after the flag that precedes every Wait |
| `TcpInvariants.ForceCloseReachesAll` | internal/tcpserver/server.go:334-347 | at the final wait every connection ever tracked is closed, including one still waiting for a worker |
| `TcpInvariants.ServeReturnsClean` | internal/tcpserver/server.go:106-148 | when Serve returns every accepted connection is closed and untracked, the counter is zero and every worker has left |
| `TcpLiveness.StepWorks` | internal/tcpserver/server.go:65-148 | after the flag every step, the environment's included, leaves less work |
| `TcpLiveness.ShutdownIsBounded` | internal/tcpserver/server.go:65-148 | every run from a shutting-down state is bounded by that work |
| `TcpLiveness.Progress` | internal/tcpserver/server.go:65-148 | no deadlock: until Serve returns some process has a step it is bound to take |
| `TcpLiveness.ShutdownCompletes` | internal/tcpserver/server.go:65-148 | from any triggered state there is a run of bound steps alone to Serve's return |
| `TcpLiveness.EveryShutdownReturns` | internal/tcpserver/server.go:65-148 | every run from a shutting-down state, in whatever order, is bounded, and where it can take no further bound step Serve has returned clean |
| `TcpLiveness.StuckOnlyWhenReturned` | internal/tcpserver/server.go:65-148 | a triggered shutdown without a bound step left has returned clean |
| `HttpStream.LineReader.ReadByte` | internal/http1/line_reader.go:35-44 | the next pending byte, whether it is buffered or still to be read |
| `HttpStream.LineReader.Read` | internal/http1/body.go:42-46 | a non-empty prefix of the pending bytes, at most the size asked for |
| `HttpStream.LineReader.ReadLine` | internal/http1/line_reader.go:32-57 | the line, fault and remaining bytes the pending bytes determine, for every way reads cut them |
| `HttpStream.LineReader.ReadFixedBody` | internal/http1/body.go:17-57 | exactly length bytes, or the fault, and what is left |
| `HttpStream.LineAccepted` | internal/http1/line_reader.go:32-57 | a line is accepted exactly when it is there without a line feed inside, ends in CRLF and fits the limit |
| `HttpStream.LineRefused` | internal/http1/line_reader.go:32-58 | which fault a refused line has: too long, badly ended, or cut by the end of the stream, from the bytes and the limit alone |
| `HttpStream.LineIsBounded` | internal/http1/line_reader.go:44-47 | a line takes at most its limit from the stream, one byte more only when it is too long |
| `HttpHeader.PrintedFieldParses` | internal/http1/header.go:24-46 | a well-formed field printed with any blanks around its value parses to that field |
| `HttpHeader.ParsedFieldIsPrinted` | internal/http1/header.go:24-46 | every accepted line is the printing of a well-formed field |
| `HttpHeader.ReadHeaderFields` | internal/http1/header.go:50-72 | the header section the pending bytes determine, and what is left |
| `HttpHeader.ContentLength` | internal/http1/header.go:77-102 | the loop computes the length of the fields in order, with the first fault met |
| `HttpHeader.ContentLengthIff` | internal/http1/header.go:77-138 | a length is known exactly when a Content-Length is present and all of them are digit strings of that one number below 2^63; absent exactly when there is none |
| `HttpRequest.ReadRequest` | internal/http1/request.go:28-66 | outcome and remaining bytes are a function of the bytes sent, not of how reads cut them |
| `HttpRequest.PrintedLineParses` | internal/http1/request_line.go:26-52 | every well-formed request line parses to itself |
| `HttpRequest.ParsedLineIsPrinted` | internal/http1/request_line.go:26-52 | every accepted request line is the printing of a well-formed one |
| `HttpGrammar.RestAccepted` | internal/http1/request.go:44-66 | head and body are accepted exactly when Host, Transfer-Encoding and Content-Length allow them, and exactly the body's bytes are taken |
| `HttpGrammar.RefusedFor` | internal/http1/request.go:48-87 | the first thing wrong decides the fault: no field named Host with a value in HTTP/1.1, then a field named Transfer-Encoding with a value, then a stated length above the limit, then a body the client was too slow to finish |
| `HttpGrammar.OtherFieldsIgnored` | internal/http1/request.go:68-87 | adding a field of any other name changes neither acceptance nor fault nor body |
| `HttpGrammar.PrintedRequestParses` | internal/http1/request.go:28-66 | every well-formed request within the limits is read back and exactly its bytes are taken |
| `HttpGrammar.ParsedRequestIsPrinted` | internal/http1/request.go:28-66 | whatever is accepted is the printing of a well-formed request within the limits |
| `HttpGrammar.ReprintRoundTrip` | internal/http1/request.go:28-66 | an accepted request reprinted with Name:value fields reads back as itself, whatever follows |
| `HttpGrammar.PipelinedRequestsParse` | internal/http1/request.go:28-66 | any list of well-formed requests on one stream is read back in order and the trailing bytes are left alone |
| `HttpFaults.FaultIff` | internal/http1/request.go:28-77 | from the bytes received alone: a read succeeds exactly when they start with a well-formed request, and fails for a transfer coding, for a body above the limit, or for a client that is too slow, exactly when they show a whole head that names a coding, a whole head that states too much, or an unfinished line, head or body |
| `HttpGrammar.RequestIsBounded` | internal/http1/request.go:28-66 | with positive limits no request, accepted or refused, takes more than (maxHeaders + 2) · maxLine + maxBody bytes |
| `HttpChunked.ChunksDecode` | internal/http1/response.go:124-166 | decoding printed chunks by section 7.1 of RFC 9112 gives their data and leaves what follows |
| `HttpChunked.DecodeExtends` | internal/http1/response.go:124-166 | a complete chunked body marks its own end: more bytes change only what is left over |
| `HttpChunked.TruncatedChunksFail` | internal/http1/response.go:124-166 | a chunked body cut short anywhere does not decode |
| `HttpChunked.HexIsCanonical` | internal/http1/response.go:157-166 | sizes are written in lower case without leading zeros |
| `HttpResponse.WriteChunkedReader` | internal/http1/response.go:139-155 | writes the rendering of the reader's results as far as the output takes it |
| `HttpResponse.CopyN` | internal/http1/response.go:111-115 | copies the announced number of bytes, or all there are and a fault |
| `HttpResponse.WriteHeaderField` | internal/http1/response.go:230-240 | writes the field line, or nothing and a fault |
| `HttpResponse.KeptInOrder` | internal/http1/response.go:63-71 | the application's fields that go out are exactly those not named Content-Length nor, in a chunked response, Transfer-Encoding, each at its own place in the application's order |
| `HttpResponse.StatusTextIs` | internal/http1/response.go:184-221 | the codes with a phrase of their own and their phrases; every other code has one common phrase |
| `HttpResponse.DataUntilEnd` | internal/http1/response.go:139-155 | a reader's data is that of its results up to and including the first that is not followed by more |
| `HttpResponse.WriteResponse` | internal/http1/response.go:30-102 | whatever room the output has, exactly the rendering is written as far as it fits, with the fault that stopped it |
| `HttpClient.ReaderPrintsChunks` | internal/http1/response.go:139-166 | one chunk for every non-empty read, none of size zero, none above the buffer, together all the data |
| `HttpClient.ChunkedBodyDecodes` | internal/http1/response.go:124-166 | a chunked body decodes to the application's bytes and leaves what follows |
| `HttpClient.FailedReaderNeverEnds` | internal/http1/response.go:141-155 | when the application's reader fails, what was written does not decode as a complete body |
| `HttpClient.FieldSurvives` | internal/http1/response.go:230-240 | a written field is read back as itself exactly when its name has no colon and its value no outer blanks |
| `HttpClient.FramingCounts` | internal/http1/response.go:63-97 | of the field records that go out one states the length for a status with a body and none otherwise, by the framing in use |
| `HttpClient.FramingSeen` | internal/http1/response.go:63-97 | a client sees that one length exactly when no other field's name has a framing name before a colon |
| `HttpClient.WrittenIff` | internal/http1/response.go:30-122 | a response is written without a fault exactly when version, status, framing and reason are in order, every field that goes out has a non-empty name without blanks and no line break in name or value, and the reader delivers what was announced |
| `HttpClient.HeadRefused` | internal/http1/response.go:30-55 | which head is refused, with nothing written, and which of the reasons is reported |
| `HttpClient.ClientReadsAll` | internal/http1/response.go:30-122 | what a client reads from a response whose fields survive, spelled out: version and reason as set or by default, status, the application's fields in its order followed by the one that states the length, and the application's bytes |
| `Text.DecimalIsCanonical` | internal/http1/response.go:91-96 | lengths are written without leading zeros |
| `HttpClient.ResponseRoundTripIff` | internal/http1/response.go:30-122 | a client following section 6.3 of RFC 9112 reads a written response back and leaves what follows exactly when every kept field survives and no own Transfer-Encoding goes out with a plain body, or one that is read to the end of the stream and nothing follows |
| `HttpClient.OwnCodingMisleads` | internal/http1/response.go:63-97 | a plain body under the application's own gzip coding is written without a fault but not read back when anything follows |
| `HttpClient.ColonNameMisleads` | internal/http1/response.go:230-240 | a field named Content-Length:5 is written without a fault, seen as a malformed Content-Length, and no client reads the response |
| `HttpClient.ResponseSeen` | internal/http1/response.go:30-122 | a written response without a coding of its own on a plain body is read with its fields as a client sees them and what follows left alone; it is not read at all when a kept name starts with a colon or, with a plain body, has Content-Length before one |
| `HttpClient.ResponseRoundTrip` | internal/http1/response.go:30-122 | when the kept fields survive and no own coding goes out with a plain body, status line, emitted fields in order and body are read back, whatever follows |
| `HttpClient.CutResponseFails` | internal/http1/response.go:30-122 | a response without a coding of its own on a plain body is never taken for a whole one when only a part of it arrived, whatever its other fields |
| `HttpClient.OwnCodingCutShort` | internal/http1/response.go:63-97 | with a coding of its own other than chunked and fields that survive, a plain body cut anywhere is taken for a whole one |
| `HttpClient.FaultyResponseFails` | internal/http1/response.go:63-155 | no part of a response that stopped at a fault of its own, and brings no coding of its own on a plain body, is taken for a response, whatever its other fields |
| `HttpServe.ServeConn` | internal/httpserver/handler.go:32-71 | what is written is the rendering of the responses the received bytes call for, as far as the output takes it |
| `HttpServe.OneResponseEach` | internal/httpserver/handler.go:32-104 | one response per request in order, one error response when a read fails, Connection: close added to the last only, and 101 ends the run |
| `HttpServe.PipelinedExchange` | internal/httpserver/handler.go:32-71 | pipelined well-formed requests that keep the connection alive get the application's responses in order, then the run goes on with the bytes after them |
| `HttpServe.ErrorIsDeliverable` | internal/httpserver/handler.go:73-88 | every error response is written without a fault and can be read back |
| `HttpServe.ClientReadsPrefix` | internal/httpserver/handler.go:61-69 | wherever writing ends, the client reads the first of the responses as it sees them, up to the first that cannot be finished, read or told from what follows; all of those when everything was written, and nothing else when no response brings a coding of its own on a plain body |
| `HttpServe.ConnectionDelivers` | internal/httpserver/handler.go:32-71 | the same for any input, any application and any point at which the output closes; when every response of the application is client-readable they arrive as meant, a prefix of them always and all of them when nothing fails |
| `HttpServe.CleanCloseGets400` | internal/httpserver/handler.go:73-88 | the end of the stream between requests is answered with 400 |
| `HttpAnswers.RefusedReadIsAnswered` | internal/httpserver/handler.go:73-88 | when the bytes received do not start with a well-formed request, exactly one response goes out, given byte by byte: 408 for a client too slow to finish, 413 for a stated length above the limit, 501 for a transfer coding, 400 for everything else |
| `HttpAnswers.RequestIsAnswered` | internal/httpserver/handler.go:90-104 | a well-formed request gets the application's response, with Connection: close at the end of its fields exactly when the request asks to close; then or after status 101 the connection ends, otherwise the bytes after the request are next |
| `HttpAnswers.CloseIff` | internal/httpserver/handler.go:99-104 | a request asks to close when it speaks HTTP/1.0 or a Connection field lists the token close, in any case and between blanks, as an element separated by commas |
| `HttpAnswers.DefaultBodyLimit` | internal/httpserver/handler.go:106-125 | without settings a head of lines up to 8190 bytes and up to 100 fields is refused for its size exactly when it states more than 1048576 bytes |
| `HttpAnswers.PlainGetIsRead` | internal/http1/request.go:28-87 | GET / with a Host and nothing else is accepted and read back |
| `RateLimit.CounterIsExact` | internal/httpserver/rate_limit.go:54-70 | the counter is the number of admissions since the current window began |
| `RateLimit.SlidingBound` | internal/httpserver/rate_limit.go:54-70 | no half-open interval as long as the window holds 2·limit admissions, over any run |
| `RateLimit.BoundIsReached` | internal/httpserver/rate_limit.go:54-70 | some run admits 2·limit − 1 in such an interval, for every window longer than a nanosecond |
| `RateLimit.OneTickBound` | internal/httpserver/rate_limit.go:54-70 | with a window of one nanosecond an instant admits no more than the limit |
| `RateLimit.RefusedIffWindowFull` | internal/httpserver/rate_limit.go:54-70 | a request is refused exactly when its window has not passed and holds limit admissions |
| `RateLimit.RetryAfterRoundsUp` | internal/httpserver/rate_limit.go:72-77 | the seconds are the duration rounded up exactly when the addition stays within 64 bits |
| `RateLimit.RetryAfterIsLeastIff` | internal/httpserver/rate_limit.go:69-77 | the delay is the least number of whole seconds after which the next request is admitted exactly when the time left is at most 2^63 − 10^9 ns; above that it is not positive |
| `RateLimit.LongWindowAdvertisesNoDelay` | internal/httpserver/rate_limit.go:69-77 | with a window of 2^63 − 1 ns a refused request is told a negative delay |
| `RateLimit.ZeroClockNeverRefuses` | internal/httpserver/rate_limit.go:59-62 | a clock stuck at the zero time refuses nothing |
| `RateLimit.FixedWindowLimiter.Allow` | internal/httpserver/rate_limit.go:54-70 | the call's answer and the new state are those of the whole history of calls |
| `RateLimit.Middleware.Serve` | internal/httpserver/rate_limit.go:14-42 | a non-positive limit or window switches limiting off; otherwise the limiter decides |
| `Sse.NormalizeIsOneScan` | internal/httpserver/sse.go:72-75 | the two replacements equal one left-to-right scan for CRLF, CR and LF |
| `Sse.NormalizeIsIdempotent` | internal/httpserver/sse.go:72-75 | normalising twice changes nothing more |
| `Sse.EncodeServerSentEvent` | internal/httpserver/sse.go:33-70 | an event is refused for a line break in its id, then for one in its type, then for a negative retry, and for nothing else; the text of an accepted one |
| `Sse.StreamRoundTrip` | internal/httpserver/sse.go:33-70 | a stream of accepted events, interpreted by section 9.2.6 of the HTML Living Standard, delivers exactly those events and leaves what follows |
| `Sse.EventsArriveInOrder` | internal/httpserver/sse.go:33-70 | message i carries event i's type, its normalised data, empty data included, and the id in force |
| `Sse.IdArrivesIffNulFree` | internal/httpserver/sse.go:45-49 | an event's id reaches the client exactly when it is non-empty and free of NUL |

## Left out

- Sockets, deadlines, timers and logging: accepts, failures, timeouts and the end of the context are environment
  steps, ends of input, or bytes the output no longer takes; a failing deadline call, which ends a connection
  silently, is not modelled.
- Gzip, SHA-1, base64, HTTP dates, file I/O, WebSocket upgrades and byte ranges: they rest on libraries not in the
  repository.
- CORS, authentication, cookies, request identifiers, MIME types, recovery and the other middleware: short branches
  over one value.
- The buffered response writer that handlers fill: the application is a function to a finished response.
- HEAD responses, keep-alive for HTTP/1.0, trailers on output and chunked request bodies: the code does not implement
  them.
- Panics in handlers, the echo loop, `WaitForIdle`, several `Serve` calls on one server, and `cmd/`.
- The method tables of static routes are values, and a match carries the contents of its route's table at the time,
  not the table itself; the router reads it at once.
- Pool workers are counted, not identified; which idle worker takes a connection is not modelled.
- Text outside ASCII: case folding and upper-casing are ASCII only.
- HttpClient.ResponseRoundTrip: assumes fields that read back (`FieldSurvives` says when), no Transfer-Encoding of the
  application's own on a plain body, and a length that fits an int64; `ResponseRoundTripIff` has the first two as its
  condition.
- HttpClient.CutResponseFails: assumes no Transfer-Encoding of the application's own on a plain body, as a client sees
  the names; with one it is false (`OwnCodingCutShort`).
- HttpClient.FaultyResponseFails: assumes the same.
- HttpServe.ClientReadsPrefix: what a client reads after a response with such a coding is not described.
- HttpServe.ConnectionDelivers: the same.
- RateLimit.SlidingBound: assumes a clock that neither runs backwards nor shows the zero time.

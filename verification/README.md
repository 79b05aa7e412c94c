# Monkey HTTP server: a verified model of its core

Monkey is an event-driven HTTP server.  This project models the parts of it that carry hard
invariants and proves them for every input, every run and every reachable state:

- **Red-black tree** (`Rb*.dfy`, `ConnTree.dfy`): insertion, removal, rebalancing and the
  parent-pointer traversals, on mutable nodes.  A snapshot of the nodes' fields (`Memory`) is
  tied to a ghost tree and to a zipper (focus and way to the root); the links that are stale in
  the middle of a rotation are part of the intermediate predicates (`Swapped`, `Shifted`,
  `Unstale`).
- **Request parser** (`Http*.dfy`): the resumable state machine with its look-ahead shortcuts,
  as functions (`HttpParser`, `HttpSegments`) and as the class that works on the shared buffer
  (`HttpMachine`), called once or many times on a buffer that every call may change (`HttpReads`);
  a printer and the round trip (`HttpPrinter`, `HttpRoundTrip`); the grammar of what is accepted,
  in both directions (`HttpGrammar`, `HttpLanguage`, `HttpNumbers`); where reads matter after all
  (`HttpQuery`, `HttpKeys`); the session that reads and pipelines requests (`HttpSession`) and
  whole conversations on it (`HttpConversation`).
- **SHA-1** (`Sha1.dfy`): FIPS 180-4 as a specification, and the 80 unrolled rounds with rolling
  schedule, renamed registers and block buffering as the implementation; the standard's example
  "abc" pins the specification (`Sha1Example.dfy`).
- **Outgoing channel** (`Iov.dfy`, `Channel.dfy`), the **directory listing** that feeds itself to
  it (`Dirlisting.dfy`) and a decoder of the chunked coding (`Chunked.dfy`).
- **Shared file descriptors** (`FdTable.dfy`, `FdWorker.dfy`) and the hash of their paths (`PathHash.dfy`).
- **Scheduler** (`Lifecycle.dfy`, `SchedWorker.dfy`, `Balance.dfy`): connection lifecycle on top of
  the red-black tree, and fair balancing.
- **Codecs**: Base64 (`Base64.dfy`), FastCGI request records (`FastCgi.dfy`), and the integer
  printer (`Itop.dfy`), with shared definitions in `Texts.dfy` and `Wrappers.dfy`.

Code that updates fields, arrays and lists in place is modelled by classes and loops; each such
method is proved equal to a function of the old state, and the properties are lemmas about that
function or invariants that all methods keep.  Sockets, files, clocks and `open(2)` appear as
parameters with arbitrary values.  `dafny verify dfyconfig.toml` checks everything.

## Where the code does not do what one would expect

The model follows the code; these are proved, with the exact condition where there is one.

- A carriage return or line feed in the query string is accepted when the whole request is in the
  buffer and rejected with 400 when it arrives byte by byte (`HttpQuery.QueryBreaks`: reads do
  not matter if and only if there is none).  A carriage return in an unlisted header's key behind
  its second byte is accepted in the same way, and ends byte-by-byte reading with an error that
  has no status (`HttpKeys.KeyBreaks`).
- A pipelined request that a read cuts leaves the session marked as completed, so the read that
  completes it closes the connection.  Of the next request, with a body or not, the first `c` bytes
  are in the buffer when a response ends: below the keep-alive limit it is answered if and only if
  all of it was there, or nothing was there, the connection is to stay open and the request fits
  into the largest buffer, whatever the reads (`HttpConversation.CutRequest`).  `Connection: close`
  is looked at only when no more bytes are buffered.
- The fields of a request are offsets in this model and addresses in the program: a `realloc` that
  moves the body buffer leaves those that were set before at the old place.  The buffer grows while
  a request is read if and only if the request is longer than the buffer is (`HttpConversation.ReadRequest`).
- A method is recognised by any beginning of at least two letters ("GE" is GET), except PUT, which
  needs its whole word (`HttpGrammar.WordMeans`).
- With keep-alive turned off in the configuration a request never decides to close: the connection
  stays open until the limit (`HttpConversation.ClosesAfter`, `HttpConversation.Converse`).
- A host is taken whole if and only if its only colon, if any, is the first byte
  (`HttpRoundTrip.HostWhole`): `[::1]` ends in 400, and `::1` is host `:` with port 1
  (`HttpRoundTrip.HostOfIpv6`).
- A FastCGI name or value of exactly 127 bytes is counted as one length byte but written with four;
  a content of more than 65535 bytes has its length cut to 16 bits.  The pair is recovered if and
  only if neither length is 127 and the content fits (`FastCgi.ParamDecodes`), and a whole stream
  if and only if that holds of each pair (`FastCgi.ParamsBack`).
- The hash 0 stands for a free slot of the descriptor table: opening a path with that hash is safe
  if and only if the bucket has no free slot (`FdShare.ZeroHash`); in general it is safe if and
  only if the slot that is found is in use for the same path (`FdShare.OpenKeeps`,
  `FdShare.OpenServes`).  Below the document root, `/riisvqv` has the hash 0, and `/bcxcgrx` and
  `/rjmyytw` have the same one (`PathHash.ZeroPathLost`, `PathHash.TwinPathsMixed`: the first is
  not opened, and of the others the second is answered with the file of the first).
- A stream of no bytes is never called back and ends in an error (`Channels.EmptyStays`), so a
  directory listing is delivered only if no piece of the page is empty (`Dirlisting.Delivered`), and
  if none is, a socket that goes on taking bytes gets the whole page (`Dirlisting.Serve`).
- `total_len` of a partly consumed vector may exceed the bytes left: from an exact total it stays
  exact if and only if the consumed bytes end in the first non-empty entry or are all of them
  (`IoVectors.TotalStaysExact`; `IoVectors.TotalTooLarge` for the entries "ab" and "cd").
- An `EOF` stream is called back at every write and never leaves the queue; the property that a
  callback runs once is one of the streams that carry bytes (`Channels.OnceEach`).
- When the events of an accepted connection cannot be registered, it stays in tree and timeout
  queue without being counted as accepted (`Lifecycle.AcceptKeeps`: the invariant survives if and
  only if the registration succeeds).
- The moment of a timeout is cut to 32 bits, so one beyond 2^31 seconds has always passed
  (`Lifecycle.ExpiredMeans`).
- An idle first worker takes a connection even when the capacity is 0: no run exceeds the capacity
  if and only if it is at least 1 (`Balance.CapacityNeeded`).

## Model

| member | source | states |
|---|---|---|
| `RbInsert.InsertColor` | SuperExe/mk_core/mk_rbtree.c:73-195 | from any red-black tree in which one red node may have a red parent, ends with all five properties, the same nodes in the same order and every parent link consistent |
| `RbInsert.FlippedKeeps` | SuperExe/mk_core/mk_rbtree.c:96-118 | case 1, the colour flip: order unchanged, balanced as before, and the problem is two levels further up |
| `RbInsert.RotatedKeeps` | SuperExe/mk_core/mk_rbtree.c:142-158 | case 3, the rotation at the grandparent: order unchanged and the tree below is red-black of the same black height |
| `RbInsert.InnerKeeps` | SuperExe/mk_core/mk_rbtree.c:119-141 | case 2, the rotation at the parent: order and balance unchanged, and the red pair now lies on the outside |
| `RbInsert.InnerAt` | SuperExe/mk_core/mk_rbtree.c:119-141 | the fields after case 2 spell the turned tree except for the one parent link that the following rotation repairs |
| `RbMemory.RotateSetParents` | SuperExe/mk_core/mk_rbtree.c:62-70 | exactly which parent, colour and child fields a rotation changes |
| `RbMemory.ChangeChild` | SuperExe/mk_core/include/mk_core/mk_rbtree_augmented.h:110-122 | exactly one child link, or the root, is redirected |
| `RbErase.EraseColor` | SuperExe/mk_core/mk_rbtree.c:202-361 | from any tree that is red-black except that the ways through one child of the parent are one black node short, terminates with all five properties, the same order and consistent parent links |
| `RbErase.Case1Balanced` | SuperExe/mk_core/mk_rbtree.c:217-234 | a red sibling is lifted: the shortage stays where it was, now with a black sibling and a red parent |
| `RbErase.Case2Balanced` | SuperExe/mk_core/mk_rbtree.c:236-263 | the sibling turns red: the shortage is resolved at a red parent or moves one level up |
| `RbErase.Case3Balanced` | SuperExe/mk_core/mk_rbtree.c:264-287 | the inner nephew is lifted: the shortage stays, and the outer nephew is red |
| `RbErase.Case4Balanced` | SuperExe/mk_core/mk_rbtree.c:288-308 | the sibling is lifted and the outer nephew turns black: no shortage is left |
| `RbErase.InnerAt` | SuperExe/mk_core/mk_rbtree.c:264-287 | the fields after case 3 spell the turned tree except for the parent link that case 4 repairs |
| `RbRemove.EraseAugmented` | SuperExe/mk_core/include/mk_core/mk_rbtree_augmented.h:126-221 | the node is unlinked in each of the three cases; what is left is in the old order, with consistent links, and red-black or short at the returned node |
| `RbRemove.FindSuccessor` | SuperExe/mk_core/include/mk_core/mk_rbtree_augmented.h:163-196 | the first node in order of the right subtree, with the way to it |
| `RbRemove.Erase` | SuperExe/mk_core/mk_rbtree.c:391-398 | from any red-black tree, a red-black tree of all other nodes in the same order, every parent link consistent |
| `RbRemove.RenamedAt` | SuperExe/mk_core/include/mk_core/mk_rbtree_augmented.h:196-206 | putting one node in the place of another, with all links to it, spells the same tree with that node renamed |
| `RbShape.HeightBound` | SuperExe/mk_core/mk_rbtree.c:28-40 | a balanced tree is at most twice as high as its black height, and has at least 2^h - 1 nodes |
| `RbShape.LogarithmicHeight` | SuperExe/mk_core/mk_rbtree.c:28-40 | the longest way in a red-black tree is at most twice the black height, hence logarithmic |
| `RbShape.PlugRedBlack` | SuperExe/mk_core/mk_rbtree.c:28-40 | a balanced subtree in a balanced surrounding is a red-black tree |
| `RbWalk.First` | SuperExe/mk_core/mk_rbtree.c:415-425 | the first node in order, or none |
| `RbWalk.Last` | SuperExe/mk_core/mk_rbtree.c:427-437 | the last node in order, or none |
| `RbWalk.Next` | SuperExe/mk_core/mk_rbtree.c:439-468 | on any parent-consistent tree, leads from the i-th node in order to the next |
| `RbWalk.Prev` | SuperExe/mk_core/mk_rbtree.c:470-496 | leads from the i-th node in order to the one before |
| `RbWalk.NextThenPrev` | SuperExe/mk_core/mk_rbtree.c:439-496 | rb_prev undoes rb_next |
| `RbWalk.Walk` | SuperExe/mk_core/mk_rbtree.c:415-468 | iterating from rb_first along rb_next yields exactly the in-order sequence |
| `RbWalk.FirstPostorder` | SuperExe/mk_core/mk_rbtree.c:544-550 | the first node in postorder, or none |
| `RbWalk.NextPostorder` | SuperExe/mk_core/mk_rbtree.c:526-542 | leads from the i-th node in postorder to the next |
| `RbWalk.WalkPostorder` | SuperExe/mk_core/mk_rbtree.c:514-550 | the postorder walk yields exactly the postorder sequence |
| `RbWalk.PostorderIsPermutation` | SuperExe/mk_core/mk_rbtree.c:514-550 | postorder visits every node exactly as often as the in-order walk, once |
| `RbWalk.ChildrenFirst` | SuperExe/mk_core/mk_rbtree.c:526-542 | every node comes directly behind its two subtrees |
| `ConnTree.Get` | SuperExe/mk_server/mk_scheduler.c:481-515 | the connection with the descriptor, or none exactly if there is none |
| `ConnTree.Link` | SuperExe/mk_core/include/mk_core/mk_rbtree.h:78-85 | the node becomes a red leaf at the place that was found |
| `ConnTree.Add` | SuperExe/mk_server/mk_scheduler.c:205-225 | a new descriptor is inserted at its place in the order and the tree is red-black again; a known one is refused |
| `ConnTree.Remove` | SuperExe/mk_server/mk_scheduler.c:465-466 | exactly the connection leaves the order; the tree is red-black |
| `HttpSegments.PiecesDecide` | SuperExe/mk_server/mk_http_parser.c:352-701 | the specification that `HttpReads.ParseAll` meets: under any growing prefixes, every call before the deciding byte returns PENDING and the call that sees it returns the result of byte-by-byte parsing with the same field positions, if no skipped byte would have been an error |
| `HttpSegments.CutsDoNotMatter` | SuperExe/mk_server/mk_http_parser.c:352-701 | two ways of cutting the same bytes up to the deciding one give the same result |
| `HttpSegments.PiecesPending` | SuperExe/mk_server/mk_http_parser.c:352-701 | while the request is incomplete the state depends only on the bytes received |
| `HttpSegments.RunReaches` | SuperExe/mk_server/mk_http_parser.c:80-92 | one call with all shortcuts reaches the state of byte-by-byte parsing |
| `HttpSegments.JumpLands` | SuperExe/mk_server/mk_http_parser.c:80-92 | the jump of char_lookup lands in the state that reading the skipped bytes one by one gives |
| `HttpSegments.PeekLands` | SuperExe/mk_server/mk_http_parser.c:634-642 | the peek at the line feed does what the next round would |
| `HttpSegments.BodyReaches` | SuperExe/mk_server/mk_http_parser.c:677-697 | while a body is incomplete only the number of bytes counts |
| `HttpPrinter.WindowIsFullScan` | SuperExe/mk_server/mk_http_parser.c:546-581 | the rows that the first letter leaves contain the row that a scan of the whole table finds, for every key |
| `HttpPrinter.WindowExact` | SuperExe/mk_server/mk_http_parser.c:195-203 | a row in the window matches exactly if it spells the key, ignoring case; no row outside does |
| `HttpPrinter.RowNames` | SuperExe/mk_server/mk_http_parser.c:54-74 | each of the nineteen header names, ignoring case, has its own row and no other name has one |
| `HttpPrinter.NamedRows` | SuperExe/mk_server/mk_http_parser.c:54-74 | the rows that are acted upon are those of content-length, connection and host |
| `HttpPrinter.MethodNumbers` | SuperExe/mk_server/mk_http_parser.c:47-56 | the six methods by their words and numbers |
| `HttpPrinter.LowerIs` | SuperExe/mk_server/mk_http_parser.c:156-179 | the 26 capitals become their small letters and nothing else changes |
| `HttpRoundTrip.RoundTrip` | SuperExe/mk_server/mk_http_parser.c:352-701 | a printed well-formed request (six methods, URI, query, HTTP/1.0 or 1.1, distinct known headers, at most eight others, body of the announced length) is complete exactly with its last byte and every field, header, port and body comes back |
| `HttpLanguage.Language` | SuperExe/mk_server/mk_http_parser.c:352-701 | the parser accepts at byte n, and not before, if and only if the first n bytes are a request of the grammar: a method word, a URI, a version 1.0 or 1.1, header lines that each say something acceptable, at most eight unlisted, a Content-Length with POST and PUT, a blank line and the announced number of bytes |
| `HttpGrammar.Accepted` | SuperExe/mk_server/mk_http_parser.c:352-701 | whatever is accepted has that form, and method, URI, query string and data are found where they stand |
| `HttpLanguage.FormAccepted` | SuperExe/mk_server/mk_http_parser.c:352-701 | every request of the grammar is accepted, repeated headers and unknown methods included |
| `HttpGrammar.ReadsUpto` | SuperExe/mk_server/mk_http_parser.c:352-701 | whatever has been read without an error is the beginning of such a request |
| `HttpGrammar.WordMeans` | SuperExe/mk_server/mk_http_parser.c:107-141 | which words give which method: PUT by its whole word, the others by any beginning of at least two letters |
| `HttpNumbers.StrtolSigned` | SuperExe/mk_server/mk_http_parser.c:246-261 | a numeral with or without a sign is read up to the first byte that is no digit |
| `HttpNumbers.StrtolSpaces` | SuperExe/mk_server/mk_http_parser.c:246-261 | white space in front of a number does not matter, and without a digit there is none |
| `HttpNumbers.LengthDecided` | SuperExe/mk_server/mk_http_parser.c:246-261 | a Content-Length below 2^63 is accepted, a larger one gives 413, a negative one an error without a status |
| `HttpNumbers.PortDecided` | SuperExe/mk_server/mk_http_parser.c:214-245 | a port is a number of at most five digits and nothing behind it; anything else gives 400 |
| `HttpRoundTrip.AnyReads` | SuperExe/mk_server/mk_http_parser.c:352-701 | the specification of `HttpReads.ParseRequest`: for such a request, under any reads, every call before the last byte is PENDING and the call that sees it is OK with every field recovered |
| `HttpRoundTrip.Verdict` | SuperExe/mk_server/mk_http_parser.c:327-346 | a request of the right form is decided exactly by its last byte: 505 if and only if the version is not 1.0 or 1.1, 411 if and only if POST or PUT lacks Content-Length, OK otherwise |
| `HttpRoundTrip.TooManyHeaders` | SuperExe/mk_server/mk_http_parser.c:293-319 | the ninth header that is not in the table ends the request with 413, at the end of its line and not before |
| `HttpRoundTrip.MethodFound` | SuperExe/mk_server/mk_http_parser.c:107-141 | each of the six methods is recognised, also PUT whose first letter suggests POST |
| `HttpRoundTrip.StrtolDecimal` | SuperExe/mk_server/mk_http_parser.c:246-261 | a decimal numeral is read back as its number |
| `HttpRoundTrip.EffectOfHost` | SuperExe/mk_server/mk_http_parser.c:214-245 | the port behind the last colon is recovered and cut off the value; without one, a value whose only colon may be its first byte is taken whole |
| `HttpRoundTrip.HostWhole` | SuperExe/mk_server/mk_http_parser.c:214-245 | a host is taken whole if and only if it has no colon behind its first byte |
| `HttpRoundTrip.HostOfIpv6` | SuperExe/mk_server/mk_http_parser.c:214-245 | "[::1]" gives 400; "::1" gives the host ":" and port 1 |
| `HttpRoundTrip.RecoveredAdd` | SuperExe/mk_server/mk_http_parser.c:181-320 | a further header line extends the table by exactly what it says |
| `HttpQuery.QueryBreaks` | SuperExe/mk_server/mk_http_parser.c:442-454 | one call accepts any query string without a blank; byte by byte gives the same if and only if it has no line break, and else 400 |
| `HttpKeys.KeyBreaks` | SuperExe/mk_server/mk_http_parser.c:583-600 | one call accepts any unlisted key without a colon that has no carriage return in its first two bytes; byte by byte gives the same if and only if there is none further on |
| `HttpFrame.RunFrom` | SuperExe/mk_server/mk_http_parser.c:302-305 | a call does not depend on bytes that will not be read again, such as keys already in lower case |
| `HttpMachine.Parser.Parse` | SuperExe/mk_server/mk_http_parser.c:352-701 | the loop over the parser's fields and the shared buffer returns what the functional form says of the bytes as they were; the buffer changes only by lower-casing, and no byte changes that a later call will read again |
| `HttpReads.ParseAll` | SuperExe/mk_server/mk_http_parser.c:352-701 | any number of calls on one buffer, each on the bytes as the earlier ones have left them, give the result and positions that the functional form gives for the bytes as they arrived; which of the calls decides |
| `HttpReads.ParseRequest` | SuperExe/mk_server/mk_http_parser.c:352-701 | on the machine, for any well-formed request and any reads: every call but the last is PENDING, the one that sees the last byte is OK, every field comes back, and extra keys stand in the buffer in lower case |
| `HttpReads.PiecewiseGrows` | SuperExe/mk_server/mk_http_parser.c:352-701 | what the calls so far have given does not depend on bytes that arrive later |
| `HttpMachine.Parser.Round` | SuperExe/mk_server/mk_http_parser.c:380-698 | one round of the loop |
| `HttpMachine.Parser.HeaderLookup` | SuperExe/mk_server/mk_http_parser.c:181-320 | the row, its effect on port, length and connection, or the extra table; errors with their status |
| `HttpMachine.Parser.HeaderCmp` | SuperExe/mk_server/mk_http_parser.c:156-179 | true exactly if the lower-cased bytes are the expected ones, also for eight bytes and more |
| `HttpMachine.Parser.MethodLookup` | SuperExe/mk_server/mk_http_parser.c:107-141 | the guessed method or the first row that matches |
| `HttpMachine.Parser.CharLookup` | SuperExe/mk_server/mk_http_parser.c:80-92 | the position of the next occurrence, or the old one |
| `HttpMachine.Parser.Searchr` | SuperExe/mk_server/mk_http_parser.c:94-105 | the last occurrence or -1 |
| `HttpMachine.Parser.Accept` | SuperExe/mk_server/mk_http_parser.c:327-346 | version and Content-Length are validated |
| `HttpMachine.Parser.Init` | SuperExe/include/monkey/mk_http_parser.h:296-316 | the initial state |
| `HttpMachine.RunUpto` | SuperExe/mk_server/mk_http_parser.c:352-701 | a call does not depend on what lies behind the bytes it is given |
| `HttpSession.FirstRequest` | SuperExe/mk_server/mk_http.c:1002-1018 | of buffered complete requests the first is parsed and exactly the others are left |
| `HttpSession.RequestsAre` | SuperExe/mk_server/mk_http.c:990-1055 | with a limit of at most the number of buffered requests, repeated parsing finds exactly as many of them, in order |
| `HttpConversation.RequestsAll` | SuperExe/mk_server/mk_http.c:990-1055 | with a limit of at least their number, repeated parsing finds all buffered requests in order, and then exactly what the bytes behind them hold |
| `HttpSession.RunLeaves` | SuperExe/include/monkey/mk_http_parser.h:318-325 | a call never moves past the buffer, so that the number of unread bytes is never negative |
| `HttpSession.RunForward` | SuperExe/mk_server/mk_http.c:1438-1440 | a call does not find the end of a request in front of where it began |
| `HttpSession.Session.RequestEnd` | SuperExe/mk_server/mk_http.c:990-1055 | the next request is parsed from exactly the unread bytes: it is there with what follows it still unread and the decision to close made anew, or its first bytes are kept for the next read, or the session closes; the counters |
| `HttpSession.Session.Drain` | SuperExe/mk_server/mk_http.c:990-1055 | one end after the other serves exactly the requests that parsing the unread bytes finds within the limit; at most max_keep_alive_request + 1 in all |
| `HttpSession.Session.SchedRead` | SuperExe/mk_server/mk_http.c:1405-1464 | nothing is read beyond max_request_size; parsing gives what the functional form says of all bytes of the request so far, however they arrived; the request is served only if none has completed since the last wait, exactly the bytes behind it are then unread, and whether the connection is to close is decided; else the connection closes |
| `HttpSession.Session.NextRequest` | SuperExe/mk_server/mk_http.c:1002-1034 | the unread bytes move to the front and are parsed afresh; what is unread behind that request |
| `HttpSession.Session.Grow` | SuperExe/mk_server/mk_http.c:288-323 | the buffer grows by one chunk, which leaves the largest size it can get unchanged |
| `HttpSession.CapacityIs` | SuperExe/mk_server/mk_http.c:288-323 | the buffer can grow by whole chunks as far as the limit allows and no further |
| `HttpConversation.DrainThese` | SuperExe/mk_server/mk_http.c:990-1055 | a session whose buffer holds requests and a rest serves exactly these requests in order as far as the limit goes, and then what the rest holds |
| `HttpConversation.ReadRequest` | SuperExe/mk_server/mk_http.c:1405-1464 | a waiting session reads any well-formed request, and bytes behind it, in any pieces: it is served with its last byte, every field recovered and exactly what came behind it unread, if it fits into the largest buffer, and the connection closes otherwise; when the buffer grows |
| `HttpConversation.ReadRest` | SuperExe/mk_server/mk_http.c:1405-1464 | the same from any first bytes that are there already, and whether a request has completed since the last wait |
| `HttpConversation.ReadAndDrain` | SuperExe/mk_server/mk_http.c:990-1464 | pipelined requests come in any pieces: when the first is complete, exactly those that have come as a whole are served, in order, as far as the keep-alive limit goes |
| `HttpConversation.CutRequest` | SuperExe/mk_server/mk_http.c:990-1464 | of the next request, with a body or not, the first c bytes are buffered when a response ends and the others come in any reads: below the limit it is served if and only if c is its length, or c is 0, the connection stays open and it fits into the largest buffer; otherwise the connection closes |
| `HttpConversation.ReadDecides` | SuperExe/mk_server/mk_http.c:1438-1460 | a further piece completes a request exactly if its last byte is there, and what lies behind it |
| `HttpSession.Session.KeepaliveCheck` | SuperExe/mk_server/mk_http.c:944-975 | when the connection is to be closed, by protocol, header and limit |
| `HttpSession.Session.Prepare` | SuperExe/mk_server/mk_http.c:86-166 | a request is served, and for one with a rooted URI and a host, if it needs one, the keep-alive check decides |
| `HttpConversation.ClosesMeans` | SuperExe/mk_server/mk_http.c:944-975 | by the fields of the message: the connection is to close at the limit, by "Connection: close", and in HTTP/1.0 without "Connection: keep-alive"; a request that is not rooted, or of HTTP/1.1 without a host, and any without keep-alive, changes nothing |
| `HttpConversation.ReadAndEnd` | SuperExe/mk_server/mk_http.c:990-1464 | one request is read in any pieces and answered, and then the connection is open if and only if its fields and the limit say so |
| `HttpConversation.NextAndEnd` | SuperExe/mk_server/mk_http.c:990-1055 | the same for a request that was in the buffer already |
| `HttpConversation.Converse` | SuperExe/mk_server/mk_http.c:990-1464 | requests that wait for the answer before: exactly those up to the first that closes are answered, and the connection is open after that if and only if none did |
| `HttpSession.Session.MoveDown` | SuperExe/mk_server/mk_http.c:1008-1011 | the unread bytes are at the front, unchanged |
| `HttpSession.Session.Shutdown` | SuperExe/mk_server/mk_http.c:1035-1052 | close, or reset for the next request |
| `Sha1.Context.Final` | SuperExe/plugins/auth/sha1.c:271-288 | the result is the digest of sections 5.1.1 and 6.1.2 of FIPS 180-4 of everything the context was given |
| `Sha1Example.DigestOfAbc` | SuperExe/plugins/auth/sha1.c:271-288 | the digest of "abc" is a9993e36 4706816a ba3e2571 7850c26c 9cd0d89d |
| `Sha1Standard.Rotation1` | SuperExe/plugins/auth/sha1.c:103-110 | a rotation by one as a number |
| `Sha1Standard.Rotation5` | SuperExe/plugins/auth/sha1.c:112-115 | a rotation by five as a number |
| `Sha1Standard.Rotation30` | SuperExe/plugins/auth/sha1.c:112-115 | a rotation by thirty as a number |
| `Sha1Standard.WordIs` | SuperExe/plugins/auth/sha1.c:86-92 | a word is the big-endian number of its four bytes |
| `Sha1Standard.WordBack` | SuperExe/plugins/auth/sha1.c:86-101 | writing and reading a word are inverse |
| `Sha1Standard.Bytes32Is` | SuperExe/plugins/auth/sha1.c:275-280 | the four bytes of a length word spell it |
| `Sha1.Context.Update` | SuperExe/plugins/auth/sha1.c:243-269 | the context stands for the message with the data added, however it was split |
| `Sha1.Context.Block` | SuperExe/plugins/auth/sha1.c:123-229 | the 80 unrolled rounds are one step of the standard's compression |
| `Sha1.EightyRounds` | SuperExe/plugins/auth/sha1.c:123-222 | the renamed registers after round 80 are the standard's working variables |
| `Sha1.Context.Init` | SuperExe/plugins/auth/sha1.c:231-241 | the context of the empty message |
| `Sha1.ChRewritten` | SuperExe/plugins/auth/sha1.c:117-118 | the rewritten choice is the standard's Ch |
| `Sha1.MajRewritten` | SuperExe/plugins/auth/sha1.c:120-120 | the sum in the code is the standard's Maj |
| `Sha1.RollsOn` | SuperExe/plugins/auth/sha1.c:103-110 | sixteen words are enough: the rolling array holds the last sixteen schedule words |
| `Sha1.NextRound` | SuperExe/plugins/auth/sha1.c:112-115 | a round in place, with renaming, is a round of the standard |
| `Sha1.LengthWords` | SuperExe/plugins/auth/sha1.c:275-280 | the two length words are the 64-bit length in bits |
| `IoVectors.Iov.Consume` | SuperExe/mk_core/mk_iov.c:171-203 | the entries spell exactly the unsent suffix; the new total, as a function of the entries and the bytes consumed, and never below what is left, which makes the early exit sound |
| `IoVectors.TotalStaysExact` | SuperExe/mk_core/mk_iov.c:181-202 | from an exact total, consuming leaves an exact one if and only if it ends in the first non-empty entry or takes all |
| `IoVectors.TotalTooLarge` | SuperExe/mk_core/mk_iov.c:181-202 | three bytes of "ab" and "cd": one is left and the total says three |
| `IoVectors.LeftIsAll` | SuperExe/mk_core/mk_iov.c:181-202 | the loop subtracts the whole number of bytes if and only if they end in the first non-empty entry |
| `IoVectors.DropText` | SuperExe/mk_core/mk_iov.c:181-199 | the loop removes exactly the first bytes |
| `IoVectors.Iov.Add` | SuperExe/mk_core/include/mk_core/mk_iov.h:107-125 | the bytes are appended and counted |
| `IoVectors.Iov.Realloc` | SuperExe/mk_core/mk_iov.c:66-98 | the same entries in a vector of another size |
| `IoVectors.Iov.FreeMarked` | SuperExe/mk_core/mk_iov.c:130-150 | exactly the buffers that the vector owns are freed, each once, in the order they were added; nothing is left in the vector |
| `Channels.Channel.Write` | SuperExe/mk_server/mk_stream.c:167-260 | for an empty channel, an EOF stream, a failing, a busy and a writing socket: the return value, and exactly which bytes, streams, callbacks and failures there are then; a busy socket changes nothing |
| `Channels.Drive` | SuperExe/mk_server/mk_stream.c:167-260 | over any run of writes to a socket that takes some bytes or is busy, channels without empty streams never fail, nothing is lost, and every take brings the end nearer until everything is sent |
| `Channels.Channel.Transmit` | SuperExe/mk_server/mk_stream.c:167-236 | the return value and the callback, if any, for every outcome and stream type |
| `Channels.Conserved` | SuperExe/mk_server/mk_stream.c:167-260 | bytes sent and bytes queued are the appended streams in order, nothing lost, repeated or reordered |
| `Channels.OnceEach` | SuperExe/mk_server/mk_stream.c:212-236 | every appended stream is either queued or has ended, never both; the callback of a stream that carries bytes has run once if it has ended and else not at all |
| `Channels.EmptyStays` | SuperExe/mk_server/mk_stream.c:238-250 | a stream of no bytes is never called back: a write on it is an error, or the socket is busy |
| `Channels.Stream.Take` | SuperExe/include/monkey/mk_stream.h:178-206 | the stream loses exactly the bytes written, for vectors, files and copied buffers |
| `Channels.Stream.CopybufConsume` | SuperExe/mk_server/mk_stream.c:81-101 | the unsent bytes are at the front of the buffer |
| `Channels.Channel.Append` | SuperExe/include/monkey/mk_stream.h:112-116 | a stream at the end of the queue |
| `Channels.Channel.Clean` | SuperExe/mk_server/mk_stream.c:263-275 | the queue is empty and no callback was called |
| `ChunkedCoding.ChunkBack` | SuperExe/plugins/dirlisting/dirlisting.c:687-718 | a size line, data and line end decode to the data |
| `ChunkedCoding.HexIs` | SuperExe/plugins/dirlisting/dirlisting.c:687-694 | sizes are written in small hexadecimal letters, without leading zeros |
| `Dirlisting.PageBack` | SuperExe/plugins/dirlisting/dirlisting.c:638-720 | the page on the wire decodes to header, every row once in order, and footer |
| `Dirlisting.Listing.Step` | SuperExe/plugins/dirlisting/dirlisting.c:615-735 | a write with the listing's callbacks keeps its invariant; a busy socket changes nothing, and only a failing one, or one that takes nothing, fails it |
| `Dirlisting.Listing.BodyRows` | SuperExe/plugins/dirlisting/dirlisting.c:638-720 | exactly the next row, or the footer, is appended; only the last queued stream will call back |
| `Dirlisting.Listing.Complete` | SuperExe/plugins/dirlisting/dirlisting.c:591-622 | the request is released, once, when nothing refers to its vectors |
| `Dirlisting.Listing.constructor` | SuperExe/plugins/dirlisting/dirlisting.c:819-849 | the page header is queued with the callback that starts the rows |
| `Dirlisting.SentPrefix` | SuperExe/plugins/dirlisting/dirlisting.c:615-735 | at any time, for any partial or busy writes, what was sent is a beginning of the page |
| `Dirlisting.Delivered` | SuperExe/plugins/dirlisting/dirlisting.c:615-735 | when the channel is empty without an error the whole page was sent, it decodes to header, rows and footer, and the request was released; and no piece of the page was empty |
| `Dirlisting.Serve` | SuperExe/plugins/dirlisting/dirlisting.c:615-735 | a page without an empty piece never fails on a socket that takes some bytes or is busy, and with enough takes the whole page is sent and the request released |
| `FdShare.OpenKeeps` | SuperExe/mk_server/mk_vhost.c:185-246 | opening keeps readers, free-slot counts and descriptors right if and only if the slot found is in use for this path |
| `FdShare.OpenServes` | SuperExe/mk_server/mk_vhost.c:185-246 | if the file can be opened, the request has a descriptor open on its path if and only if the slot found is in use for this path |
| `FdShare.OpenShares` | SuperExe/mk_server/mk_vhost.c:209-243 | an open that succeeds is shared if and only if its hash has a slot or one of the bucket's slots is free |
| `FdShare.SecondOpen` | SuperExe/mk_server/mk_vhost.c:203-211 | as long as a request shares a slot, every further one for its path gets the same descriptor and opens none |
| `FdShare.GoodHashes` | SuperExe/mk_server/mk_vhost.c:185-246 | one open is safe if its hash is not 0 and in use for no other path |
| `FdShare.RunKeeps` | SuperExe/mk_server/mk_vhost.c:185-288 | over every run of opens and closes with a hash that is never 0 and injective on the paths: readers count the live sharers, no hash has two slots, free slots are counted, and every live request holds a descriptor open on its path |
| `FdShare.StepKeeps` | SuperExe/mk_server/mk_vhost.c:185-288 | every single open or close keeps it, opens on the right path, and closes a descriptor only with its last user |
| `FdShare.Reachable` | SuperExe/mk_server/mk_vhost.c:185-288 | in every state reachable from the empty table a live request holds a descriptor of its path, shared with exactly the requests for that path that go through the table |
| `FdShare.ZeroHash` | SuperExe/mk_server/mk_vhost.c:168-182 | the hash 0 is safe exactly when its bucket is full |
| `PathHash.GenHash` | SuperExe/mk_server/mk_utils.c:346-388 | the loop and the switch compute the hash as a function of the path |
| `PathHash.EndingPath` | SuperExe/mk_server/mk_utils.c:346-388 | the hash of a path of seven bytes |
| `PathHash.ZeroPath` | SuperExe/mk_server/mk_utils.c:346-388 | a path whose hash is 0 |
| `PathHash.TwinPaths` | SuperExe/mk_server/mk_utils.c:346-388 | two paths with one hash |
| `PathHash.NotCollisionFree` | SuperExe/mk_server/mk_vhost.c:291-303 | the assumptions of `FdShare.RunKeeps` do not hold of this hash on every set of paths |
| `PathHash.ZeroPathLost` | SuperExe/mk_server/mk_vhost.c:185-303 | on an empty table the first is not opened, although open(2) succeeds |
| `PathHash.TwinPathsMixed` | SuperExe/mk_server/mk_vhost.c:185-303 | a request for the second of the two gets the file of the first |
| `FdShare.CloseKeeps` | SuperExe/mk_server/mk_vhost.c:248-288 | every other request keeps its open descriptor, and a descriptor is closed once, by its last user |
| `FdShare.SlotUsers` | SuperExe/mk_server/mk_vhost.c:203-211 | exactly the sharers of a slot have its descriptor |
| `FdWorker.Table.Open` | SuperExe/mk_server/mk_vhost.c:185-303 | the table in place: the request has a descriptor open on its path |
| `FdWorker.Table.Close` | SuperExe/mk_server/mk_vhost.c:248-308 | the table in place: which descriptor is closed, if any |
| `FdWorker.Table.ChainLookup` | SuperExe/mk_server/mk_vhost.c:168-182 | the first slot with the hash |
| `FdWorker.Table.constructor` | SuperExe/mk_server/mk_vhost.c:60-116 | all slots are free and counted |
| `Lifecycle.RunKeeps` | SuperExe/mk_server/mk_scheduler.c:444-555 | over every interleaving of accepts, closes, timeout changes, sweeps and frees: accepted minus closed is the tree, queue membership is the flag, and nothing is freed twice or before it left tree and queue |
| `Lifecycle.StepKeeps` | SuperExe/mk_server/mk_scheduler.c:444-555 | every single step keeps it |
| `Lifecycle.FreedForever` | SuperExe/include/monkey/mk_scheduler.h:249-260 | a freed connection is never in tree, queues or memory again |
| `Lifecycle.SweepDrops` | SuperExe/mk_server/mk_scheduler.c:528-555 | a sweep drops exactly the expired connections on the queue and touches no other |
| `Lifecycle.ExpiredMeans` | SuperExe/mk_server/mk_scheduler.c:542-545 | with the sum cut to int, a connection is expired exactly when its time has come or lies beyond 2^31 |
| `Lifecycle.AcceptKeeps` | SuperExe/mk_server/mk_server.c:66-104 | a new connection is live and on the queue; the accounting is right if and only if its events were registered |
| `Lifecycle.RemoveKeeps` | SuperExe/mk_server/mk_scheduler.c:444-479 | a connection leaves tree and queue, is counted and waits to be freed |
| `Lifecycle.TimeoutsMean` | SuperExe/include/monkey/mk_scheduler.h:262-278 | starting and stopping a timeout changes queue and flag by exactly this connection and nothing else |
| `Lifecycle.FreeAllKeeps` | SuperExe/include/monkey/mk_scheduler.h:249-260 | exactly the waiting connections are freed |
| `SchedWorker.Worker.Accept` | SuperExe/mk_server/mk_server.c:66-104 | the same on the red-black tree, for refused, known and unregistered descriptors |
| `SchedWorker.Worker.RemoveClient` | SuperExe/mk_server/mk_scheduler.c:444-479 | the same on the red-black tree |
| `SchedWorker.Worker.CloseEvent` | SuperExe/mk_server/mk_server.c:406-438 | the guarded close removes a connection exactly if it is still in the tree |
| `SchedWorker.Worker.RemoveByFd` | SuperExe/mk_server/mk_plugin.c:644-658 | removal by descriptor, or -1 exactly if there is none |
| `SchedWorker.Worker.CheckTimeouts` | SuperExe/mk_server/mk_scheduler.c:528-555 | the loop is the sweep, with the sum of arrival time and timeout cut to int |
| `SchedWorker.Worker.FreeAll` | SuperExe/include/monkey/mk_scheduler.h:249-260 | the loop frees the whole queue |
| `SchedWorker.Worker.TimeoutAdd` | SuperExe/include/monkey/mk_scheduler.h:262-269 | queue and flag together, once |
| `SchedWorker.Worker.TimeoutDel` | SuperExe/include/monkey/mk_scheduler.h:271-278 | queue and flag together |
| `SchedWorker.Worker.EventFree` | SuperExe/mk_server/mk_scheduler.c:702-712 | a connection is queued for freeing once |
| `Balance.NextTarget` | SuperExe/mk_server/mk_scheduler.c:50-84 | on the two counters of each worker, wrapped around or not: the first worker with the fewest open connections, or -1 if and only if the first has one and all reach the capacity |
| `Balance.LoadsAreLive` | SuperExe/mk_server/mk_scheduler.c:56-69 | the difference of the counters is the number of open connections, also when they have wrapped around |
| `Balance.PlainCounters` | SuperExe/mk_server/mk_scheduler.c:56-69 | counters that have not wrapped around track their differences |
| `Balance.RunTracks` | SuperExe/mk_server/mk_scheduler.c:50-84 | over every run of arrivals and closes the counters stand for the open connections |
| `Balance.Conserved` | SuperExe/mk_server/mk_scheduler.c:50-84 | the open connections are those taken less those that left |
| `Balance.NeverOver` | SuperExe/mk_server/mk_scheduler.c:73-82 | with a capacity of at least 1 no run of accepts and closes takes a worker over it |
| `Balance.CapacityNeeded` | SuperExe/mk_server/mk_scheduler.c:50-84 | from loads within the capacity no run exceeds it if and only if it is at least 1 |
| `Balance.ArrivalsStayEven` | SuperExe/mk_server/mk_scheduler.c:50-84 | while nobody leaves, loads stay within one of each other |
| `Base64.RoundTrip` | SuperExe/plugins/auth/base64.c:39-172 | decoding the encoding of any non-empty byte string gives it back, line feeds and padding included |
| `Base64.Base64Encode` | SuperExe/plugins/auth/base64.c:39-100 | the buffer holds the encoding and its terminator and never needs more than was allocated |
| `Base64.Base64Decode` | SuperExe/plugins/auth/base64.c:113-172 | the decoded bytes, or NULL for no symbols, a wrong number or wrong padding, within the allocated buffer |
| `Base64.EncodeFits` | SuperExe/plugins/auth/base64.c:47-51 | the allocated size is enough for every length |
| `Base64.EncodeLength` | SuperExe/plugins/auth/base64.c:68-97 | four characters for three bytes begun and a line feed for each line begun |
| `Base64.Groups` | SuperExe/plugins/auth/base64.c:60-67 | three bytes and their four six-bit values are the same 24-bit number |
| `Base64.Tails` | SuperExe/plugins/auth/base64.c:77-90 | one or two last bytes are filled up with zero bits and padding |
| `Base64.OneLine` | SuperExe/plugins/auth/base64.c:68-74 | a line feed comes after every 72 characters |
| `Base64.MakeTable` | SuperExe/plugins/auth/base64.c:120-123 | the decoding table inverts the alphabet |
| `FastCgi.ParamDecodes` | SuperExe/plugins/fastcgi/fcgi_handler.c:52-123 | a decoder of sections 3.3 and 3.4 of the FastCGI Specification 1.0 recovers a pair if and only if neither length is 127 and the content fits 16 bits |
| `FastCgi.ParamsBack` | SuperExe/plugins/fastcgi/fcgi_handler.c:67-123 | a whole PARAMS stream gives all pairs back in order, and ends where it was closed, if and only if that holds of each pair |
| `FastCgi.StdinBack` | SuperExe/plugins/fastcgi/fcgi_handler.c:280-331 | the STDIN records of any non-empty body concatenate to it and end in one empty record |
| `FastCgi.RecordAligned` | SuperExe/plugins/fastcgi/fcgi_handler.c:299-320 | every STDIN record is padded to a multiple of eight |
| `FastCgi.RecordHeads` | SuperExe/plugins/fastcgi/fcgi_handler.c:30-43 | the literal bytes of record headers: version 1, type 4 for PARAMS and 5 for STDIN, request 1; chunks of at most 65535 bytes |
| `FastCgi.Handler.AddParam` | SuperExe/plugins/fastcgi/fcgi_handler.c:79-123 | the vector grows by exactly the record of the pair, and owns what the caller gave away |
| `FastCgi.Handler.StdinChunk` | SuperExe/plugins/fastcgi/fcgi_handler.c:280-331 | the vector grows by one record, and the empty one behind the last |
| `FastCgi.Handler.SendStdin` | SuperExe/plugins/fastcgi/fcgi_handler.c:791-806 | the repeated chunks terminate and the whole body goes out; an empty body is refused |
| `Itop.Digits10Counts` | SuperExe/mk_core/mk_string.c:346-364 | digits10 is the number of decimal digits |
| `Itop.StringItop` | SuperExe/mk_core/mk_string.c:366-404 | the buffer holds exactly the decimal numeral, CR, LF and the terminator, and the length is right |
| `Itop.TableAt` | SuperExe/mk_core/mk_string.c:368-373 | entry i of the table is the two digits of i |
| `Itop.NoLeadingZero` | SuperExe/mk_core/mk_string.c:366-404 | the numeral has no leading zero |

## Left out

- Sockets, event loops, timers, signals, threads, configuration, plugin loading, logging and the shell: operating-system calls and I/O.
- `rb_replace_node`, `rb_insert_augmented` callbacks: `RenamedAt` covers the replacement of a node inside removal; the augmentation callbacks are the dummies that rb_insert_color and rb_erase pass.
- HttpParser.LengthEffect: reads the Content-Length number inside the value only; for a value of nothing but tabs the C library would read on behind the line end.
- HttpParser.HeaderLookup: a repeated known header is listed twice; linking the same list node again in C damages the list.
- HttpParser.FindRow: row -1 of the table, which the code reads for a first letter that no known header has, matches nothing.
- HttpParser.Request: fields that mk_http_request_init does not reset (query string, data) start out empty.
- HttpSession.Session.SchedRead: a failing realloc of the body buffer is left out; URL decoding, virtual host selection and the answer itself are left out of Prepare.
- HttpSession.Session.Grow: the fields are offsets into the body buffer here, and addresses in C.
- HttpConversation.ReadRequest: fields recovered are offsets; in C they hold for a request that does not outgrow the buffer, or until the buffer moves.
- HttpSession.FirstRequest: requests with a body that are followed by further bytes are left out, since the parser takes all buffered bytes as the body.
- Sha1.Context.Block: the byte-order macros are the big-endian reading of the standard.
- Channels.Channel.Write: callbacks append streams and do nothing else to the channel; preserved streams do not occur (mk_stream_set clears the flag); the busy-retry loop of mk_channel_flush is left out.
- Dirlisting.Listing.constructor: reading the directory, sorting, and composing the theme from its templates are given as lists of pieces; lengths are below 2^31; the error callback is not reached by mk_channel_write.
- PathHash.Hash: four bytes are read as a little-endian word; characters stand for bytes.
- FdWorker.Table.Open: one virtual host; descriptors are positive, since a private descriptor 0 would not be closed.
- Balance.Count: an accept is counted at once, not when the worker has registered the connection.
- Base64.Base64Encode: lengths whose fourfold exceeds size_t.
- FastCgi.Handler.StdinChunk: the room in buf_data for record headers is not bounded.
- FastCGI and CGI response parsing, theme template splitting, authentication, caching, MIME types and the remaining string helpers: left out, since they depend on how reads align or would only add easy members.

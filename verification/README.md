# Verified models of joebot and the programs it carries

The repository joins several Go programs: the joebot server and client, the gost proxy, the
filebrowser, and an HCL/JSON configuration parser. This Dafny 4.11 project models the parts of them
that carry the most logic and proves what they promise. `dafny verify dfyconfig.toml` checks it all.

- **Parsers** (`Lalr`, `Evidence`, `JsonTables`, `HclTables`, `Engine`). The LALR engine with its
  printed tables, lookup by lookup. A general theory says what a table-driven automaton needs (kernel
  items, closure, first and follow sets, a rank of the unit productions) and derives soundness,
  completeness, termination and unambiguity; both sets of tables are unpacked into the automaton they
  hold and shown to have it. `Engine.Parse` is the imperative loop with its growing stack, its
  lookahead variables and its error recovery.
- **Actions, objects and texts** (`Objects`, `ObjectList`, `ObjectHeap`, `JsonParser`, `HclParser`, `LexRules`,
  `Lexer`, `JsonLexer`, `HclLexer`, `JsonText`, `HclText`, `HclSyntax`, `HclDocuments`). Both lexers
  over bytes decoded as UTF-8, the 27 and 38 semantic actions, the linked lists that `Flat` threads
  through the parsed objects, and the round trips of JSON values and of HCL documents to bytes and back.
- **Text or binary** (`Utf8`, `Binary`): the test on 512 bytes that may end inside a character.
- **TLS obfuscation** (`ObfsTls`): the parser that strips record headers inside the caller's buffer
  against an automaton that sees one byte at a time, and the server's record writer.
- **Ports** (`PortRuns`, `Ports`): who owns a port of the joebot server, as a state machine over all
  interleavings of its threads, and the classes that take its steps.
- **Relay, names, routes** (`Relay`, `Bytes`, `Base64`, `Sni`, `Chain`, `Selector`): datagrams over a
  stream, the hidden server name, the route through a proxy chain, and taking turns between nodes.
- **Addresses** (`Ipv4`): networks and ranges in wrapping 32-bit arithmetic.
- **Paths** (`Paths`, `Archive`, `Versions`): cleaning and joining, archive names below a common
  directory, and the search for a free file name.

Where the code misses what it is for, the model keeps the code and a theorem says exactly when it
does: `ObfsTls.NothingLost`, `ObfsTls.ReportedExactly`, `ObfsTls.PanicsExactly`, `ObfsTls.Parser.Parse`
(when the loop never ends), `HclText.StringUndoesQuote`, `HclText.WideMarkerNeverCloses`,
`HclText.FirstStarSlashEnds`, `ObjectList.ElemMembers` with `JsonText.ParsedClashes`,
`PortRuns.TunnelsTwiceExactly`, `PortRuns.LeaksExactly`, `Ipv4.GetAvailableIPRange`, `Ipv4.StopsExactly`,
`Selector.TurnsWrapExactly`, `Archive.CommonPrefix`.

## Model

| member | source | states |
|---|---|---|
| Lalr.AcceptsExactly | src/yudai/hcl/json/y.go:359-488 | the automaton accepts a token sequence, with a given tree, exactly when that tree is a derivation of the sequence from the start symbol |
| Lalr.RunSound | src/yudai/hcl/hcl/y.go:365-494 | from every configuration the stack invariant allows, an accepted tree has as leaves the stack's leaves followed by the tokens left |
| Lalr.RunComplete | src/yudai/hcl/json/y.go:359-488 | every derivation is found again by the run on its leaves |
| Lalr.Unambiguous | src/yudai/hcl/json/y.go:77-150 | two derivations of the same tokens are equal |
| Lalr.PopsRightSide | src/yudai/hcl/json/y.go:465-488 | a reduction finds on the stack exactly trees for the right-hand side of its production, and a state that can go on with its left-hand side |
| Lalr.ItemBelow | src/yudai/hcl/json/y.go:359-382 | states on the stack spell a viable prefix: an item with its dot after d symbols has those d symbols on top of the stack and its start in the state below |
| Lalr.ReduceKeeps | src/yudai/hcl/hcl/y.go:471-494 | a reduction keeps the stack invariant, enters a state whose symbol Chk gives, and loses no leaf |
| Lalr.ReduceLightens | src/yudai/hcl/json/y.go:465-488 | a reduction lowers the measure made of stack height and the rank of the top symbol, so the automaton ends on every input |
| Lalr.AcceptingStack | src/yudai/hcl/json/y.go:405-420 | when the automaton accepts there is one tree on the stack, of the start symbol, and no token left |
| Evidence.Certifies | src/yudai/hcl/json/y.go:77-150 | printed tables that hold an automaton whose moves and actions agree with the items of a grammar, entry by entry, fit the grammar |
| JsonTables.Certified | src/yudai/hcl/json/y.go:77-150 | the JSON tables are an SLR automaton of the 27 productions: every shift, goto and reduction agrees with the items, and nothing shifts the error token |
| HclTables.Certified | src/yudai/hcl/hcl/y.go:72-156 | the same for the 50 states and 38 productions of the HCL tables, with their exception table |
| HclParser.KeyOrBlock | src/yudai/hcl/hcl/y.go:72-82 | where an item begins with a name, the next token alone decides: EQUAL makes it a key, anything else a block id |
| Engine.Lex1 | src/yudai/hcl/json/y.go:276-309 | the internal code and value of the next lexed token, and the code of the end once there is none |
| Engine.Lookup | src/yudai/hcl/json/y.go:374-420 | the lookups in Pact, Act, Chk, Def and Exca with the lookahead read only where needed find the action of the pure automaton, and the lookahead variables keep standing for the first token left |
| Engine.PopAndAct | src/yudai/hcl/json/y.go:465-490 | a reduction on the stack array leaves the values of the remaining trees in place and the value of the new tree as the next one |
| Engine.Recover | src/yudai/hcl/json/y.go:426-450 | the search for a state that shifts the error token pops the whole stack without finding one |
| Engine.Parse | src/yudai/hcl/json/y.go:315-488 | the loop returns 0 with the stored result of the accepted tree when the automaton accepts, and 1 when it rejects, and always ends |
| HclParser.StartStores | src/yudai/hcl/hcl/y.go:496-788 | of the 38 actions only those of the start symbol store a result |
| JsonText.StartStores | src/yudai/hcl/json/y.go:490-697 | of the 27 actions only that of the start symbol stores a result |
| Objects.GroupsCover | src/yudai/hcl/hcl/object.go:110-128 | no object is lost in grouping |
| Objects.GroupsSplitByKey | src/yudai/hcl/hcl/object.go:110-128 | two objects are in one group exactly when their keys are equal |
| Objects.GroupsOrdered | src/yudai/hcl/hcl/object.go:110-128 | groups keep the input order, and are ordered by first occurrence |
| ObjectList.Flat | src/yudai/hcl/hcl/object.go:110-128 | on distinct unlinked objects it returns one head per key, in order of first occurrence, links each object to the next of its key, ends each chain with nil, and changes nothing else |
| ObjectList.HeadsChain | src/yudai/hcl/hcl/object.go:110-128 | the chain from each head is the list's objects of that key in list order |
| ObjectHeap.Build | src/yudai/hcl/json/y.go:490-697 | the nodes that the actions make for any JSON value, with Flat run on the members of each object, stand for the value that the actions compute, however deep one looks |
| ObjectHeap.FlatLinks | src/yudai/hcl/hcl/object.go:110-128 | what Flat links among nodes that stand for objects stands for what it computes on the objects |
| ObjectHeap.LinkedPanics | src/yudai/hcl/hcl/object.go:62-93 | among the chains so made those whose objects clash, and only those, make Elem(true) panic |
| ObjectList.WalkAndLink | src/yudai/hcl/hcl/object.go:110-128 | the walk to the end of a chain ends, and only its last object gets a new Next |
| ObjectList.Len | src/yudai/hcl/hcl/object.go:96-104 | the number of objects of the chain |
| ObjectList.ElemCopies | src/yudai/hcl/hcl/object.go:62-93 | Elem(false) returns one fresh unlinked copy per object of the chain, in order |
| ObjectList.ElemMembers | src/yudai/hcl/hcl/object.go:62-93 | Elem(true) returns the members of all objects of the chain in order, and panics exactly when an object of a chain whose head has members has none |
| ObjectList.ClashesPanic | src/yudai/hcl/hcl/object.go:62-93 | the heap chain of given values makes Elem(true) panic exactly when an object with members comes first and something that holds no list of objects follows |
| JsonText.ParsedClashes | src/yudai/hcl/json/y.go:498-531 | the parser builds such a chain exactly for a repeated key whose first value is an object with members and one of whose others is neither that nor an array |
| JsonText.ClashIsParsed | src/yudai/hcl/json/parse.go:17-40 | so texts like `{"a": {"b": 1}, "a": {}}`, whatever their white space, parse to an object whose members cannot be had |
| ObjectList.Get | src/yudai/hcl/hcl/object.go:43-59 | the first member with the key, with or without case folding, nothing if there is none, and the same panics |
| JsonParser.ParseUndoesPrint | src/yudai/hcl/json/y.go:344-698 | running the JSON automaton on the printed tokens of any object accepts and stores that object with Flat applied at each level; its values use all 27 productions |
| JsonParser.NumberDerives | src/yudai/hcl/json/y.go:613-697 | a number with sign, fraction and exponent evaluates to its integer, or to the conversion of the text that is put together for it |
| JsonText.LexUndoesText | src/yudai/hcl/json/lex.go:28-83 | the text of any printable tokens lexes to those tokens, with any white space between them as long as there is some where two would run together |
| JsonText.ParseUndoesText | src/yudai/hcl/json/parse.go:17-40 | parsing the text of any object with integers of at most 2^63-1 in magnitude and strings without NUL yields that object |
| JsonText.ParseUndoesBytes | src/yudai/hcl/json/parse.go:17-40 | the same for the UTF-8 bytes of the text |
| JsonText.ParsesExactly | src/yudai/hcl/json/parse.go:17-40 | a text parses to an object exactly when its tokens have a derivation in the grammar whose actions store that object |
| HclSyntax.ParseUndoesPrint | src/yudai/hcl/hcl/y.go:350-788 | running the HCL automaton on the printed tokens of any document, the empty one included, accepts and stores its objects; its items use all 38 productions |
| HclSyntax.BlockDerives | src/yudai/hcl/hcl/y.go:613-629 | a block has its first name as key and its body, or the one block nested in it, as value |
| HclDocuments.LexUndoesText | src/yudai/hcl/hcl/lex.go:30-108 | the text of any printable tokens lexes to those tokens, with any white space as long as there is some where two would run together and none before an exponent |
| HclDocuments.ParseUndoesText | src/yudai/hcl/hcl/parse.go:16-39 | parsing the text of any document yields its objects, blocks, lists, numbers with exponents and strings that close their interpolations, however it is spaced |
| HclDocuments.ParseUndoesBytes | src/yudai/hcl/hcl/parse.go:16-39 | the same for the UTF-8 bytes of the text |
| HclDocuments.SpacesSuffice | src/yudai/hcl/hcl/lex.go:30-108 | a space where two tokens would run together, and nothing anywhere else, is enough, so every document can be written |
| HclText.ParsesExactly | src/yudai/hcl/hcl/parse.go:16-39 | a text parses to an object exactly when its tokens have a derivation in the grammar whose actions store that object |
| HclText.LineCommentSkipped | src/yudai/hcl/hcl/lex.go:110-167 | a comment after a hash or two slashes is skipped with its newline |
| HclText.FirstStarSlashEnds | src/yudai/hcl/hcl/lex.go:147-163 | the first star-slash ends a block comment exactly when no slash stands before it |
| HclText.BlockCommentSkipped | src/yudai/hcl/hcl/lex.go:110-167 | a block comment is then skipped, and the token after it is next |
| JsonText.ParseText | src/yudai/hcl/json/parse.go:17-40 | Parse returns the stored result when lexer and automaton accept, and an error otherwise |
| JsonText.StringUndoesQuote | src/yudai/hcl/json/lex.go:175-210 | every string without NUL, with quote, backslash and newline escaped, lexes back to itself |
| JsonText.NumberUndoesPrint | src/yudai/hcl/json/lex.go:126-172 | digits with at most one period are read whole, and told apart as integer or float |
| JsonText.ParseIntUndoesDecimal | src/yudai/hcl/json/lex.go:126-172 | reading the decimal digits of a number in base 0 gives the number |
| JsonText.LexAll | src/yudai/hcl/json/lex.go:28-83 | repeated calls of Lex give the tokens of the text and end |
| JsonLexer.Lex | src/yudai/hcl/json/lex.go:28-83 | each call returns the next token of the lexical rules, keeps the position inside the input, and moves it on whenever the token is not the end |
| JsonLexer.LexNumber | src/yudai/hcl/json/lex.go:126-172 | integers out of range are an error, everything else the number read |
| JsonLexer.LexId | src/yudai/hcl/json/lex.go:86-123 | only the three keywords are words |
| Lexer.Reader.Next | src/yudai/hcl/hcl/lex.go:404-424 | reads the first rune left and its width, or 0 at the end |
| Lexer.Reader.Backup | src/yudai/hcl/hcl/lex.go:434-437 | puts the last rune back, so the runes left are those before it was read |
| Lexer.Reader.Peek | src/yudai/hcl/hcl/lex.go:427-431 | shows the next rune and leaves the position |
| Lexer.Reader.JsonStringBody | src/yudai/hcl/json/lex.go:175-210 | reads the string the rules give and stops after its quote |
| Lexer.Reader.HclStringBody | src/yudai/hcl/hcl/lex.go:343-401 | the same with interpolation braces, and fails at a raw newline |
| Lexer.Reader.NumberText | src/yudai/hcl/hcl/lex.go:294-340 | reads digits and one period, and backs up one rune |
| Lexer.Reader.ConsumeComment | src/yudai/hcl/hcl/lex.go:110-167 | skips a line or block comment, or reports that it is malformed |
| Lexer.Reader.HeredocText | src/yudai/hcl/hcl/lex.go:214-291 | reads the marker line and the body up to the marker |
| Lexer.Reader.MatchMarker | src/yudai/hcl/hcl/lex.go:251-278 | reads exactly what agrees with the marker and the rune after it |
| HclLexer.Lex | src/yudai/hcl/hcl/lex.go:30-108 | as for JSON, with comments, and exponents only after a number |
| HclLexer.LexHeredoc | src/yudai/hcl/hcl/lex.go:214-291 | the token of a heredoc, or the end where it is not closed |
| HclLexer.LexId | src/yudai/hcl/hcl/lex.go:170-211 | an identifier, true, false or null; an empty one is an error |
| HclText.AllTokens | src/yudai/hcl/hcl/lex.go:30-108 | an input has at most as many tokens as runes |
| HclText.ParseText | src/yudai/hcl/hcl/parse.go:16-39 | Parse returns the stored result when lexer and automaton accept, and an error otherwise |
| HclText.StringUndoesQuote | src/yudai/hcl/hcl/lex.go:343-401 | quoting is undone exactly for the strings that close every interpolation they open |
| HclText.NoInterpolation | src/yudai/hcl/hcl/lex.go:343-401 | strings without a dollar sign before a brace do |
| HclText.HeredocLexes | src/yudai/hcl/hcl/lex.go:214-291 | a heredoc with an ASCII marker lexes to its body, for every body of complete lines none of which starts with the marker |
| HclText.WideMarkerNeverCloses | src/yudai/hcl/hcl/lex.go:214-291 | a marker with a rune beyond ASCII never closes its heredoc, since its bytes are counted against runes |
| Utf8.RunesEncodeAll | src/filebrowser/files/utils.go:8-51 | decoding undoes encoding, whatever follows |
| Utf8.CutRune | src/filebrowser/files/utils.go:8-51 | the part of a character that a cut leaves decodes to at most three error runes |
| Binary.IsBinary | src/filebrowser/files/utils.go:8-51 | content is text exactly when no rune is at most 8 and the error runes are a suffix of at most four |
| Binary.CutTextLooksLikeText | src/filebrowser/files/utils.go:8-51 | any byte prefix of UTF-8 text without runes at most 8 and without U+FFFD is judged text |
| ObfsTls.Parser.Parse | src/ginuerzh/gost/obfs.go:352-429 | on any chunk it leaves at the front of the buffer exactly the payload the byte automaton finds, in the same parser state or error; it never ends exactly when some body byte has, with itself, a multiple of 65536 bytes left in the chunk |
| ObfsTls.ReportedExactly | src/ginuerzh/gost/obfs.go:352-429 | the count it returns is the payload's length exactly when the chunk has no payload byte, ends with one, or has as many bytes after the last one as there is payload |
| ObfsTls.HeaderByteMisreported | src/ginuerzh/gost/obfs.go:352-429 | a chunk of the server's output that ends one byte into the header of the second write's record has one byte reported, whatever the first write was |
| ObfsTls.PanicsExactly | src/ginuerzh/gost/obfs.go:352-429 | the parser indexes out of range exactly on a byte that follows an empty record where payload is expected, in the same chunk or at the start of the next |
| ObfsTls.ChunkingIrrelevant | src/ginuerzh/gost/obfs.go:352-429 | however a stream is cut into chunks, the payloads of the chunks make up the payload of the stream |
| ObfsTls.ServerConn.constructor | src/ginuerzh/gost/obfs.go:526-594 | the handshake leaves the ServerHello and ChangeCipherSpec records in the write buffer |
| ObfsTls.ServerConn.Write | src/ginuerzh/gost/obfs.go:629-666 | the records one call sends: all of its data in application records of at most 16384 bytes, or behind the cached handshake one record of its first 16384 bytes |
| ObfsTls.WritesArrive | src/ginuerzh/gost/obfs.go:526-594 | the client's automaton accepts whatever the server writes, and its payload is what the writes put into records |
| ObfsTls.NothingLost | src/ginuerzh/gost/obfs.go:629-666 | all data written arrives exactly when the first write that is not empty has at most 16384 bytes |
| PortRuns.RunsKeepInv | src/joebot/server/client.go:234-297 | in every state of every run each port in use is held by exactly one service, pending call or recorded tunnel, and only those are held; services run while the server does, and no two calls are inside one |
| PortRuns.NoSharedPort | src/joebot/utils/ports_manager.go:32-82 | in every reachable state no live tunnel shares its server port with another tunnel, a service or a pending call |
| PortRuns.FailureLeavesNoTrace | src/joebot/server/client.go:254-267 | whatever other threads do between the reservation and the failure of a call, and whether or not its request went out, they could have done without it and with the same final state |
| PortRuns.ClearFrees | src/joebot/server/client.go:274-280 | stopping a client frees the ports of its tunnels and no port of another owner |
| PortRuns.StopTwice | src/joebot/server/client.go:274-297 | a second stop closes and releases nothing |
| PortRuns.StoppedStaysEmpty | src/joebot/server/client.go:258-297 | a stopped client for which no call has an answer left to act on holds no port in any later state, whatever calls for it are under way or begin: its closed session makes them fail |
| PortRuns.LeaksExactly | src/joebot/server/client.go:264-297 | once its session is closed, a client that is stopped can keep a tunnel whose port nobody releases exactly when a call has its answer and has not yet recorded the tunnel |
| PortRuns.TunnelsTwiceExactly | src/joebot/server/server.go:226-262 | on a running server with n services a client port can be tunnelled twice at once exactly when n is at least 2 and n + 2 ports may be used |
| PortRuns.OneServiceNeverTwice | src/joebot/server/client.go:236-247 | with one service the check before the reservation rules that out in every run |
| PortRuns.UninterruptedCall | src/joebot/server/client.go:234-272 | a call nobody interrupts is the run of steps that finds a tunnel, gives its port back, or records one if the session is open |
| Ports.GetFreePort | src/joebot/utils/utils.go:40-54 | a port in the range that was asked for, any port for 0, or an error |
| Ports.PortsManager.AddAllowedPort | src/joebot/utils/ports_manager.go:25-30 | allows one port more |
| Ports.PortsManager.GetAllowedAndFreePort | src/joebot/utils/ports_manager.go:36-50 | an allowed port nobody has reserved; an error when all are reserved |
| Ports.PortsManager.ReservePort | src/joebot/utils/ports_manager.go:32-70 | adds one port that was free and is allowed, where allowing port 0 allows any, or fails and adds none |
| Ports.PortsManager.ReleasePort | src/joebot/utils/ports_manager.go:72-82 | takes out the port, and reports whether it was in use |
| Ports.StartServices | src/joebot/server/server.go:239-250 | reserves a different allowed port for each of n services, or fails and keeps those reserved before |
| Ports.Client.CreateTunnel | src/joebot/server/client.go:234-272 | returns the tunnel the client port has, or records one new tunnel with a reserved port, or fails and restores the ports; on a closed session it fails |
| Ports.Client.Stop | src/joebot/server/client.go:274-297 | closes the session, then releases the ports of all tunnels and forgets them |
| Ports.ClientList.AddClient | src/joebot/server/server.go:207-213 | appends the client, in place or in a larger array |
| Ports.ClientList.RemoveClient | src/joebot/server/server.go:70-92 | with distinct identifiers the shift while ranging takes out that client alone, keeps the order and stops it |
| Relay.KeepsDatagrams | src/ginuerzh/gost/relay.go:274-365 | for any datagrams of at most 65535 bytes the peer's reads return them in order, one each, cut to the reader's buffer; with the header sent ahead an empty one comes first |
| Relay.ReadsEachDatagram | src/ginuerzh/gost/relay.go:299-314 | a read never takes bytes of the next datagram |
| Relay.RelayConn.Write | src/ginuerzh/gost/relay.go:323-365 | what one call sends with a cached header, without one, and before any header; more than 65535 bytes are refused |
| Relay.RelayConn.Read | src/ginuerzh/gost/relay.go:274-315 | the first read of a client takes the response off; then each read receives one datagram, or fails where the stream ends inside it |
| Relay.RelayConn.ReadDatagram | src/ginuerzh/gost/relay.go:302-314 | the datagram cut to the buffer, the rest of the buffer untouched |
| Relay.Connect | src/ginuerzh/gost/relay.go:95-111 | the request is sent at once with two zero bytes behind it, or kept for the first write |
| Base64.Encoding.DecodeUndoesEncode | src/ginuerzh/gost/sni.go:327-332 | unpadded base64 decodes what it encodes, for every length modulo 3 and every alphabet |
| Base64.Encoding.EncodeUndoesDecodeExactly | src/ginuerzh/gost/sni.go:334-338 | encoding a decoded text gives it back exactly when it has no line breaks and zeros in its spare bits |
| Sni.DecodeUndoesEncodeName | src/ginuerzh/gost/sni.go:327-350 | every server name comes back through both layers, whatever 32-bit checksum is used |
| Sni.DecodesExactly | src/ginuerzh/gost/sni.go:334-350 | a text decodes to a name exactly when it carries the name behind the name's checksum |
| Sni.OneCanonicalText | src/ginuerzh/gost/sni.go:327-350 | of the texts that decode to a name only its encoding is canonical on both layers |
| Chain.SelectRouteFor | src/ginuerzh/gost/chain.go:287-323 | an empty chain gives an empty route, a route itself, and otherwise the selected nodes are routed, or the first group without a node before a bypass is an error |
| Chain.SelectedExactly | src/ginuerzh/gost/chain.go:297-306 | the selected nodes are those before the first bypassed one |
| Chain.RoutePassesSelected | src/ginuerzh/gost/chain.go:308-321 | a connection along the route passes exactly the selected nodes in order, and multiplex nodes only head their segments |
| Chain.RoutesSelected | src/ginuerzh/gost/chain.go:287-323 | asking the groups one by one and cutting off at multiplex nodes is selecting first and routing then |
| Chain.PassesAdd | src/ginuerzh/gost/chain.go:79-86 | adding a node to a route adds it at the end of what a connection passes |
| Chain.GetConn | src/ginuerzh/gost/chain.go:235-280 | connects exactly when every node works; the nodes before the first that fails are reset and it is marked |
| Chain.OneIsMarked | src/ginuerzh/gost/chain.go:235-280 | on a failure one node is marked once more, those before it are reset, and the others are untouched |
| Selector.RoundStrategy.Apply | src/ginuerzh/gost/selector.go:96-103 | the node whose turn it is by the counter of 64 bits |
| Selector.TurnsAreFair | src/ginuerzh/gost/selector.go:96-103 | in any k calls each of n nodes gets its turn k/n times, rounded down or up, while the counter does not wrap |
| Selector.TurnsWrapExactly | src/ginuerzh/gost/selector.go:96-103 | the turns go on in order over a wrap exactly when n divides 2^64 |
| Selector.FailFilter.Filter | src/ginuerzh/gost/selector.go:179-202 | the nodes not marked often enough or not lately, in order; a single node always stays |
| Selector.Select | src/ginuerzh/gost/selector.go:26-43 | an error exactly when the filter leaves no node; otherwise a live node whose turn it is |
| Selector.Node.Mark | src/ginuerzh/gost/selector.go:256-266 | counts a failure with wrap-around at 32 bits, unless the node has no marker |
| Ipv4.GetAvailableIP | src/joebot/sshconnect/cfg.go:189-209 | for prefixes 1 to 30 exactly the addresses strictly between network and broadcast, in order, prefix 1 by overflow included; none for 0, 31 and 32 |
| Ipv4.MaskRoundsDown | src/joebot/sshconnect/cfg.go:248-256 | masking four bytes rounds the address down to a multiple of the network's size |
| Ipv4.NetworkRange | src/joebot/sshconnect/cfg.go:248-256 | the first and last addresses of the network as numbers |
| Ipv4.NetworkSize | src/joebot/sshconnect/cfg.go:259-265 | the complement of the mask plus one, in int32 |
| Ipv4.MaxIs | src/joebot/sshconnect/cfg.go:194-199 | the loop's limit is the number of hosts, although the size overflows for prefix 1 and is 0 for prefix 0 |
| Ipv4.GetAvailableIPRange | src/joebot/sshconnect/cfg.go:168-187 | the addresses from first to end, completely and in order, exactly when both are in the same half of the address space and the end is not 127.255.255.255; in the order of int32 otherwise, without end for 127.255.255.255, and nothing unless both are IPv4 |
| Ipv4.StopsExactly | src/joebot/sshconnect/cfg.go:180-185 | the loop stops exactly when the end is not 127.255.255.255 |
| Ipv4.RangeExactly | src/joebot/sshconnect/cfg.go:168-187 | the order of int32 lists a range as the order of addresses does exactly for ends in the same half of the address space |
| Paths.JoinPlain | src/filebrowser/http/resource.go:254-254 | joining a plain name to any directory puts it behind the resolved directory |
| Paths.CleanIsAbsolute | src/filebrowser/http/raw.go:21-26 | cleaning a rooted path gives plain elements behind slashes, which cleaning leaves alone |
| Archive.CommonPrefix | src/filebrowser/fileutils/file.go:75-128 | for two or more paths the result with a separator is the longest common prefix of the cleaned paths that ends in one; without any, it is their common characters |
| Archive.CommonIsAbove | src/filebrowser/http/raw.go:182-182 | clean absolute paths are all in or below their common prefix |
| Archive.QueryFileAbsolute | src/filebrowser/http/raw.go:28-47 | the files of a request are clean absolute paths |
| Archive.AddFile | src/filebrowser/http/raw.go:110-163 | appends the items of the path in the order of the walk |
| Archive.ItemsExactly | src/filebrowser/http/raw.go:110-163 | an item is written exactly when allowed directories lead down to its allowed path, it is not the common directory, and its name is the path without that directory |
| Archive.ItemsRebuild | src/filebrowser/http/raw.go:132-134 | for every item the common directory, a slash and the item's name rebuild its path |
| Archive.NamesDiffer | src/filebrowser/http/raw.go:132-134 | items have the same name exactly when they have the same path |
| Archive.ItemsOnce | src/filebrowser/http/raw.go:110-163 | one call archives no file twice |
| Archive.RawDir | src/filebrowser/http/raw.go:165-201 | the archive of several files holds exactly what can be reached from one of them but the common directory, its names lead back to the paths, and a single plain file gives an empty archive |
| Versions.AddVersionSuffix | src/filebrowser/http/resource.go:243-259 | ends on every finite file system and returns the source if it is free, and otherwise the name with the least free number, at most one more than there are files |
| Versions.CandidatesDiffer | src/filebrowser/http/resource.go:249-256 | different numbers give different names |
| Versions.DecimalInjective | src/filebrowser/http/resource.go:253-253 | decimal digits determine a number |
| Versions.SameDirectory | src/filebrowser/http/resource.go:245-256 | in a clean absolute path only the name changes: the number goes before the extension, in the same directory |

## Left out

- JsonText.ParseText: all tokens are read before the automaton runs; the source reads them as the automaton asks, and so stops reading after a syntax error. Line and column numbers and the texts of errors are not modelled.
- HclText.ParseText: the same; and `hcl` and `json` share one `Reader` although the source has two copies of it.
- JsonParser.ParseUndoesPrint: a float is kept as the text it was converted from and the operations on it; strconv.ParseFloat, its errors and the panic on an exponent it cannot read are not modelled. The same holds for HCL.
- Engine.Parse: the global result and the lock around it become a return value; debug output is left out.
- HclLexer.Lex: white space, letters and digits beyond ASCII are any predicates; only on ASCII are they those of the unicode package.
- HclText.HeredocLexes: the rune after the closing marker is read with it, as in the source, so the remaining input starts one rune later.
- ObjectList.Flat: needs distinct objects that are in no chain, as the actions of the parsers produce them.
- ObfsTls.Parser.Parse: the outcome Hangs stands for a loop that never ends, and Panic for an index out of range.
- ObfsTls.WritesArrive: the body of the ServerHello is any 91 bytes; its encoding, the client's side of the handshake and the server's reading are not modelled. That obfsTLSConn.Read hands on the count of Parse is what ReportedExactly is about.
- PortRuns.RunsKeepInv: the code takes no lock on the list of a client's tunnels; recording a tunnel, and releasing and clearing all of them, are modelled as atomic steps. Of Server.Stop, which ranges over a list that RemoveClient shifts, only the emptied list of services is modelled (Halt); a call that begins after it indexes that list out of range, and is not a step.
- PortRuns.LeaksExactly: an answer that came in before the session closed can still be read; one that did not cannot. The state of the session is all that is modelled of yamux.
- Ports.Client.CreateTunnel: is the call nobody interrupts; interleavings are those of PortRuns. The messages to the client either arrive or fail, and fail once the session is closed.
- ObjectHeap.Build: goes down the value instead of the automaton's stack, in the order of the JSON actions; the HCL actions make their nodes in the same way and are not repeated.
- Ports.PortsManager.ReservePort: the operating system's answers and the order of the allowed ports are arbitrary choices.
- Ports.ClientList.RemoveClient: needs distinct identifiers, which the server draws at random.
- Relay.RelayConn.Read: the relay header is an opaque block that can be told from what follows; errors of the connection below other than its end, and the pool of buffers, are left out.
- Sni.DecodeUndoesEncodeName: CRC-32 is an arbitrary function to 32 bits.
- Chain.SelectRouteFor: chains are values, so the array that append may share between two copies of a node's dial options is not modelled. Sessions that a multiplex transport reuses, timeouts and retries are left out.
- Chain.GetConn: the time of a failure is in Selector, not here.
- Selector.Select: random and first-in strategies and the filter for invalid ports are left out.
- Ipv4.GetAvailableIP: takes the address and prefix that net.ParseCIDR would find; texts that it rejects make the source panic. Masks are bytes that are 256 less a power of two, and their bitwise operations are written as arithmetic.
- Ipv4.GetAvailableIPRange: Endless stands for a loop that collects addresses without limit.
- Archive.AddFile: errors of the file system and of the archive writer, which end the walk, are left out, and so are file contents.
- Archive.RawDir: the name of the archive file and the choice of its format are left out.
- Versions.AddVersionSuffix: a path is free if it is not in a finite set of existing ones; races with other writers are not modelled.
- Sockets, TLS, SSH, KCP, QUIC, websockets and tun devices, the decoder from HCL objects to structs by reflection, the HTTP handlers around the modelled functions, storage, commands and the web frontend: plumbing around foreign libraries.
- RandomStrategy and the expiry filters of shares, the size counter of UDP maps, and handlers that only forward: easy, or without a theorem of the expected form.

# Sharegres in Dafny

Sharegres is a single-threaded PostgreSQL sharding proxy: it speaks the wire protocol to clients,
asks libpg_query for the parse tree of each query, looks for a shard key in the text of that tree,
and sends the query to one shard or to all shards of the table over pooled connections. This
project models that logic and proves what it keeps. `dafny verify dfyconfig.toml` checks it all, with
automatic induction on lemmas switched off: every induction is written out.

What is proved, from the outside in:

- **Transparency** (`Transparency`, `Cluster`, `Conditions`, `Inserts`, `Updates`, `Limits`,
  `QuotedKeys`). WHERE trees, SET lists and VALUES get a meaning on rows, and a cluster is the rows of
  each shard. Over every run of statements, the cluster holds the rows and gives the answers of one
  unsharded table, and every row is on the shard that the lookup gives for its key. The conditions
  under which the router may be trusted are exact, and can be read off the statement: a SELECT or a
  DELETE sent to one shard is right for all contents if and only if every alternative of its condition
  that can be met confines the key to that shard, an INSERT keeps placement if and only if every row
  is confined to every shard it is sent to, and an UPDATE if and only if it does not set the shard
  column or every key its condition leaves lives together with every value it may be set to. Nested
  ANDs always qualify. `Examples` and `Trees` hold, for each failure of these, the document member by
  member as libpg_query prints it, and a table.
- **Broadcast tables** (`Broadcast`). Over every run the shards hold copies of one table; every answer
  comes once per shard, so that it is right for all contents exactly when there is one.
- **The text navigator** (`JsonText`, `JsonScan`, `JsonInside`, `JsonUtil`, `QueryParser`,
  `ParseTree`). The parser never builds a tree. Its pointer walks over the text are proved to find
  what the plain tree search finds, and the whole of `parse_query` and the second pass for INSERT
  report what the same extraction on the tree reports.
- **Connections** (`Pool`, `Ownership`, `Proxy`, `Queries`). In every reachable state of any number of
  interleaved sessions, every connection ever made is in exactly one place, each pool's active count
  is the number of places that hold its connections, callbacks are registered exactly for held
  connections, and a pool never hands out a connection with an open transaction.
- **Transactions** (`Transactions`, `Proxy`). Over every run a session keeps its connection from one
  event to the next exactly unless it asks for another backend or ends a request without a
  transaction, and a client that was told it is in a transaction goes on with the same connection.
- **Replies** (`Sessions`, `Forwarding`, `Gather`, `Proxy`, `Traces`). What a client gets is read off the
  messages: the rows, descriptions, tags, errors and COPY data of the results of one backend, each
  in order and none other. Over every run each request is answered by
  exactly one ReadyForQuery. A scattered query yields one header, all rows, one CommandComplete and
  one ReadyForQuery for every order in which the shards answer, whatever other sessions do meanwhile,
  and the rows are those of every shard it was sent to exactly when none reported its end twice.
- **Bytes** (`Wire`, `Formats`, `MsgBuf`, `Outbox`, `Framing`, `Copying`, `Frontend`, `Replies`,
  `Dispatch`). Messages survive encoding, partial sends and reallocation, what can be read was so
  written, and one message of each kind is given byte by byte. In every state of the session, cutting
  the input into packets does not depend on how it arrives, up to the packet that ends the loop. The
  packets taken out are the session's events, those of a COPY reach the backend as they are, and what
  the loop queues is what the session's log says.
- **Routing tables, timers** (`ShardMap`, `Router`, `Kinds`, `Config`, `RuleLines`, `Timers`).

C pointers into a text are modelled by the text from that position on, NULL by `None`. Code that
changes fields or runs loops is a class or a method with loops, proved against functions on values
(`World`, `Pool`, `Front`, `Parsed`). A connection is a number, and `home` in `Ownership` says where
each one is. libpq, the kernel and the clock are parameters: whether a connection is alive, whether
connecting and sending work, which results arrive, how many bytes `send` takes, what time it is.

Where the code does less than its documentation says, the code is followed:

- The feature list promises keys from AND conditions. The code does not read the operator, so OR and
  NOT are treated alike (`Examples.OrIsRoutedWrong`; exact condition `Conditions.ImpliedExactly`).
- libpg_query does not print an integer 0, so `= 0` is not seen as a key. A SELECT then goes to all
  shards, which is harmless, and an INSERT with key 0 is stored on every shard
  (`Transparency.InsertPlacedExactly`, `Examples.ZeroIsStoredTwice`). An integer beyond 32 bits is
  printed as `fval`, which the parser does not look for, so an INSERT with such a key goes to every
  shard too (`Examples.BigIsStoredTwice`); for `Limits.InsertAlwaysPlacedExactly` it is a value
  without a visible constant.
- Only the first VALUES row and the first constant in it decide where an INSERT goes
  (`Limits.InsertAlwaysPlacedExactly`, `Examples.SecondRowIsStoredWrong`, `Examples.SumIsStoredWrong`).
- The SET list of an UPDATE is not looked at, so a row whose key changes stays where it was and is not
  found again (`Limits.UpdatePlacedExactly`, `Examples.MoveMisplaces`, `Examples.MovedRowIsLost`).
- A read of a broadcast table goes to all of its shards, so every row comes back once per shard
  (`Broadcast.AnswersExactly`).
- The column of a key is compared with the shard column of the rule without asking whether the rule
  has one (`Examples.ComparableExactly`, `Examples.NullColumnIsCompared`).
- BEGIN is sent to the default backend, and the first statement for a shard closes that connection
  (`Kinds.BeginGoesToDefault`, `Transactions.BeginIsLost`; exact condition `Transactions.SwitchLoses`).
- COPY goes to the default backend whatever its table (`Kinds.DefaultRoute`), and so does DDL in which
  no `relname` is found, such as DROP TABLE (`Kinds.DdlRoute`, `Kinds.DropReachesNoShard`).
- Of several result sets of one query only the first is described
  (`Forwarding.AllDescribedExactly`, `Forwarding.SecondUndescribed`).
- The same key quoted and bare can be looked up on different shards
  (`QuotedKeys.HashAlwaysAgreesExactly`, `QuotedKeys.RangeAgreesExactly`).
- The query text is read after the buffer was shifted, so bytes behind the Query message can change
  it (`Framing.QueryTextExactly`, `Framing.PipelinedQueryLost`).
- The scatter counter counts events, not shards (`Gather.EveryShardEndedExactly`, `Gather.LostTwice`).
- Once 64 shards or 64 tables are configured, further lines for known ones are ignored too
  (`Config.LastLineExactly`, `Config.LastShardWithoutRange`, `RuleLines.LastRuleLineExactly`,
  `RuleLines.LastTableWithoutColumn`).
- The length of a packet is computed in 32 bits; one length makes the loop spin, or ends a COPY with a
  packet that stays in the buffer (`Framing.SpinsExactly`, `Framing.SpinsOnFiveBytes`,
  `Copying.LoopForwardsExactly`, `Copying.WrappedEnd`).

## Model

| member | source | states |
|---|---|---|
| JsonUtil.SkipWhitespace | src/parser/json_util.c:6-10 | stops at the first character that is not white space |
| JsonUtil.SkipString | src/parser/json_util.c:20-30 | the loop over escapes ends where PastString ends |
| JsonUtil.SkipNested | src/parser/json_util.c:40-62 | the loop that counts one kind of bracket and jumps over strings ends where PastNest ends |
| JsonUtil.SkipValue | src/parser/json_util.c:32-70 | on the text of any tree followed by anything that delimits it, the position returned is the end of that tree |
| JsonScan.NestValue | src/parser/json_util.c:40-62 | balance: a whole value leaves the depth counter where it was, whichever bracket is counted |
| JsonScan.ValueEnds | src/parser/json_util.c:32-70 | the scanner passes exactly one value, for every tree and every delimited continuation |
| JsonScan.StringEnds | src/parser/json_util.c:20-30 | a quoted body with escapes is passed exactly |
| JsonScan.KeyOfMember | src/parser/json_util.c:86-93 | the key comparison on text holds exactly when the member has that key |
| JsonUtil.FindKey | src/parser/json_util.c:72-108 | the position found is that of the first member with the key in the tree, NULL when there is none |
| JsonUtil.FindKeyRecursive | src/parser/json_util.c:149-196 | returns the occurrence of the tree search "this level first, then children left to right"; terminates |
| JsonInside.FoundInside | src/parser/json_util.c:149-196 | what the recursive search finds begins after the value it was given begins and ends before that value ends |
| JsonUtil.FindAllValues | src/parser/json_util.c:198-235 | the values listed are those of ScanAll on the whole remaining text |
| JsonScan.ScanValue | src/parser/json_util.c:198-235 | on a tree the linear scan lists every value under the key in text order, then goes on behind the tree |
| JsonUtil.StartsWithKey | src/parser/json_util.c:137-147 | true exactly when the text is an object whose first key is the given one |
| JsonUtil.GetString | src/parser/json_util.c:110-128 | the characters up to the closing quote, escapes untouched; NULL when there is no string |
| JsonScan.StringAtValue | src/parser/json_util.c:110-128 | read back from the text of a tree: the body of a string, nothing for other values |
| JsonUtil.GetInt | src/parser/json_util.c:130-135 | the number in the value at hand, whatever text follows it, and 0 for a value that is not a number |
| JsonScan.IntAt | src/parser/json_util.c:130-135 | the digits end with the atom, whatever follows |
| JsonScan.DecimalRoundTrip | src/parser/json_util.c:130-135 | reading the printed digits of any 64-bit integer gives it back |
| QueryParser.DetectStmtType | src/parser/query_parser.c:18-54 | the statement kind is that of the root node, first match in the order tested |
| QueryParser.ReadConstant | src/parser/query_parser.c:160-182 | the literal of an A_Const text is the one in its tree |
| QueryParser.ExtractFromComparison | src/parser/query_parser.c:110-183 | column and literal of an A_Expr, or no change, as the tree says |
| QueryParser.ExtractFromWhere | src/parser/query_parser.c:80-183 | the result on the text equals the recursive extraction on the tree |
| QueryParser.ExtractFromArgs | src/parser/query_parser.c:89-106 | the loop over BoolExpr arguments stops at the first key found and never reads the operator |
| QueryParser.ExtractTable | src/parser/query_parser.c:60-72 | table and schema of a RangeVar |
| QueryParser.ExtractFrom | src/parser/query_parser.c:323-338 | the table of a SELECT is the first RangeVar of FROM |
| QueryParser.ParseStatement | src/parser/query_parser.c:316-396 | fields set for each kind of statement, as the tree says |
| QueryParser.ParseQuery | src/parser/query_parser.c:282-400 | from text to result: equals the tree-level parse, failure cases included |
| QueryParser.ColumnPosition | src/parser/query_parser.c:195-219 | the position of the shard column among the names found by the linear scan |
| QueryParser.ValueAt | src/parser/query_parser.c:239-278 | the first constant under the n-th value of the first row |
| QueryParser.ExtractFromInsert | src/parser/query_parser.c:188-279 | the second pass on the text equals the one on the tree |
| QueryParser.ParseExtractInsertShardKey | src/parser/query_parser.c:403-419 | the second pass from the saved parse tree |
| Conditions.WhereExact | src/parser/query_parser.c:80-183 | on a nested AND the key reported is exactly the first equality whose literal is not 0 |
| Conditions.WhereSound | src/parser/query_parser.c:80-183 | on a nested AND every row that satisfies the condition has the reported value in the reported column |
| Conditions.SatMeets | src/parser/query_parser.c:80-183 | a row satisfies a condition only if it meets one of its alternatives, and exactly then if all other conditions hold |
| Conditions.ImpliedExactly | src/parser/query_parser.c:89-106 | a condition implies a key if and only if every alternative asks for that key or contradicts itself |
| Conditions.ReportedInAll | src/parser/query_parser.c:89-106 | the key reported for a nested AND is in every alternative |
| Inserts.PositionExact | src/parser/query_parser.c:195-219 | although the scan runs to the end of the document, it hits the shard column where the column list has it |
| Inserts.ConstExact | src/parser/query_parser.c:252-278 | a plain constant is read as it is, except that 0 is not seen |
| Inserts.InsertExact | src/parser/query_parser.c:188-279 | an INSERT with a column list reports the literal under the shard column of its first row, or nothing if it is 0 |
| ShardMap.FindRule | src/router/shard_map.c:53-63 | the first rule with the table name, NULL when there is none |
| ShardMap.FindOwner | src/router/shard_map.c:70-80 | the scan returns the first shard that covers the key, the first of the rule otherwise |
| ShardMap.FindByInt | src/router/shard_map.c:65-88 | range or hash lookup of the key taken as 64-bit unsigned; which shard that is: HashByInt, OwnerFirst |
| ShardMap.HashOf | src/router/shard_map.c:95-98 | shift and add in 64 bits gives the base-33 polynomial of the bytes modulo 2^64 |
| ShardMap.FindByStr | src/router/shard_map.c:90-112 | range or hash lookup of the hash of the text; which shard that is: HashByStr, OwnerFirst |
| ShardMap.HashByInt | src/router/shard_map.c:82-85 | by hash an integer goes to the shard whose place i in the rule makes its 64-bit value i plus a multiple of the number of shards |
| ShardMap.HashByStr | src/router/shard_map.c:95-112 | a text goes where the 64-bit value of its base-33 polynomial goes |
| ShardMap.HashPlace | src/router/shard_map.c:82-85 | every key has such a place |
| ShardMap.HashOfA | src/router/shard_map.c:95-98 | the text a has the hash 177670 |
| ShardMap.CharExactly | src/router/shard_map.c:95-98 | a byte is added as a signed character |
| ShardMap.OwnerFirst | src/router/shard_map.c:70-79 | of overlapping ranges the shard that the rule lists first |
| ShardMap.OwnerUnique | src/router/shard_map.c:70-80 | for disjoint ranges the owner of a covered key is the one shard that covers it |
| ShardMap.OwnerOrderFree | src/router/shard_map.c:70-80 | so permuting the shard list of a rule does not move covered keys |
| ShardMap.LookupTotal | src/router/shard_map.c:65-112 | every lookup in a rule with shards gives one of its own shards |
| Router.RouterDecide | src/router/router.c:6-93 | the decision tree on a parse result, the mutation of the result for INSERT included |
| Router.RouteText | src/router/router.c:6-93 | from the text of a parse tree to the decision, equal to the decision on the tree |
| Kinds.LocalRoute | src/router/router.c:10-16 | SET, SHOW and DISCARD are answered by the proxy |
| Kinds.DefaultRoute | src/router/router.c:18-28 | BEGIN, COMMIT and ROLLBACK go to the default backend, and so does COPY, whatever its table |
| Kinds.DdlRoute | src/router/router.c:30-57 | DDL goes to all shards of the rule for the first table name found in it, and to the default backend without a name or a rule |
| Kinds.DdlExactly | src/parser/query_parser.c:41-53 | the eleven kinds of DDL |
| Kinds.OtherRoute | src/router/router.c:24-28 | any other statement goes to the default backend |
| Kinds.PlanExactly | src/protocol/fe_protocol.c:333-386 | one shard, all of them, an answer at once or the default backend, by the route |
| Kinds.BeginGoesToDefault | src/router/router.c:18-22 | the document of BEGIN, with any shards |
| Kinds.DropReachesNoShard | src/parser/query_parser.c:385-391 | the document of DROP TABLE, which goes to the default backend with any rules |
| Cluster.ParseSays | src/parser/query_parser.c:282-400 | for a statement on one table the parser reports its kind and table, and a key only from its condition |
| Cluster.RouteShape | src/router/router.c:59-93 | such a statement goes to one shard of the rule or to all of them |
| Cluster.InsertRoute | src/router/router.c:59-93 | an INSERT with a constant key goes to the shard of that key, and to all shards if it is 0 |
| Cluster.SingleKey | src/router/router.c:64-86 | a statement with a condition goes to one shard only for a key that was reported for the shard column |
| Cluster.PlainConfined | src/router/router.c:64-86 | a nested AND sent to one shard admits only key values that live there |
| Transparency.OthersUntouched | src/router/router.c:64-86 | on every other shard no row satisfies the condition of a statement sent to one shard |
| Transparency.SingleEqualsScatter | src/router/router.c:64-93 | sent to one shard, a statement changes and returns what it would on all shards |
| Transparency.OrderFree | README.md:3 | the effect and the answer of a statement depend on the rows as a multiset only |
| Transparency.InsertPlacedExactly | src/parser/query_parser.c:188-279 | an INSERT with constant keys keeps placement if and only if all rows belong where the first does, or for a first key 0 the rule has one shard |
| Transparency.StepRefines | README.md:3 | one statement on the cluster is that statement on one table with the same rows: rows, answer, placement |
| Transparency.RunRefines | README.md:3 | over every run, the cluster has the rows and gives the answers of one unsharded table, every row on the shard of its key |
| Limits.SelectTransparentExactly | src/router/router.c:64-86 | a SELECT sent to one shard is answered as by all shards for all rows if and only if its condition is confined to that shard |
| Examples.OrReportedExactly | src/parser/query_parser.c:89-106 | for an OR of two equalities the first is reported, which the condition implies if and only if both are the same |
| Examples.OrMissesRows | src/parser/query_parser.c:89-106 | on every table sharded by id with keys on several shards, id = 5 OR zip = 7 goes to the shard of 5 alone and misses rows |
| Examples.OrIsRoutedWrong | src/parser/query_parser.c:89-106 | the document of SELECT * FROM t WHERE id = 5 OR zip = 7 as it is printed, member by member, and a table of two shards on which that happens |
| Examples.FiveIsRoutedRight | src/router/router.c:64-86 | the document of SELECT * FROM t WHERE id = 5 on the same table, sent to the shard it is confined to |
| Examples.HashIsRoutedRight | src/router/shard_map.c:82-85 | the documents of id = 2 and id = 5 on a table of two shards by hash: the first and the second shard |
| Examples.ZeroIsStoredTwice | src/parser/query_parser.c:252-278 | the document of INSERT INTO t (id) VALUES (0), which puts the row on both shards |
| Examples.BigIsStoredTwice | src/parser/query_parser.c:160-182 | the document of VALUES (3000000000), printed as fval, which puts the row on both shards whatever the number is read as |
| Examples.SecondRowIsStoredWrong | src/parser/query_parser.c:234-278 | the document of VALUES (1), (2), which puts both rows on the shard of 1 |
| Examples.SumIsStoredWrong | src/parser/query_parser.c:252-278 | the document of VALUES (1 + 1), which puts the row with key 2 on the shard of 1 |
| Updates.AssignAt | src/parser/query_parser.c:359-370 | what a SET list, read from the targetList of an UPDATE, makes of every column of a row: the last value set, computed from the row as it was, or what was there |
| Transparency.ExecPlaced | src/router/router.c:59-93 | a statement that adds no rows and sets the shard column to nothing that lives elsewhere keeps every row on its own shard, on whatever shards it is run |
| Limits.UpdateKeptExactly | src/router/router.c:59-93 | sent to any shards, an UPDATE keeps placement for all rows, other conditions and computed values if and only if the shard column is not set, or every key there that its condition leaves lives together with every value it may be set to |
| Limits.UpdateOnAllExactly | README.md:3 | the same for an UPDATE run on all shards |
| Limits.UpdatePlacedExactly | src/router/router.c:64-93 | the same for an UPDATE sent where the router says, be its condition confined to there or not |
| Limits.DeleteTransparentExactly | src/router/router.c:64-86 | a DELETE on one shard does what it would do on all, for all rows, if and only if its condition is confined to that shard |
| Limits.UpdateTransparentExactly | src/router/router.c:64-86 | so does an UPDATE, if and only if each key its condition leaves lives on that shard or the rows with it already have every value that is set |
| Examples.MoveDoc | src/router/router.c:64-86 | the document of UPDATE t SET id = 2 WHERE id = 1, sent to the shard of 1 |
| Examples.MoveMisplaces | src/router/router.c:64-86 | on every table sharded by id with 1 and 2 on different shards it leaves the row with key 2 on the shard of 1 |
| Examples.TwoDoc | src/router/router.c:64-86 | the document of SELECT * FROM t WHERE id = 2, sent to the shard of 2 |
| Examples.MovedRowIsLost | src/router/router.c:64-86 | which then does not find the row |
| Examples.OneTableFinds | src/router/router.c:64-86 | on one table the same UPDATE and SELECT find it |
| Examples.ComparableExactly | src/router/router.c:64-66 | no document has its column compared with a null pointer if and only if every rule looked up that is not broadcast has a shard column |
| Examples.NullColumnIsCompared | src/router/router.c:64-66 | a loaded configuration without a shard column, and SELECT * FROM t WHERE id = 5, which makes that comparison |
| Broadcast.GoesToAll | src/router/router.c:41-48 | every statement on a broadcast table goes to all shards of its rule, whatever keys it mentions |
| Broadcast.RunKeepsCopies | src/router/router.c:41-48 | over every run the shards hold copies of one table, and each answer is that table's, once per shard |
| Broadcast.AnswersExactly | src/router/router.c:41-48 | the client gets the answer of one table for all contents if and only if the rule has one shard |
| Limits.InsertAlwaysPlacedExactly | src/parser/query_parser.c:234-278 | an INSERT naming the shard column keeps placement whatever its expressions evaluate to if and only if every row is confined to every shard chosen from the first constant found |
| QuotedKeys.HashAgreesExactly | src/router/shard_map.c:82-84 | under a hash rule a bare and a quoted key meet if and only if number and text hash differ by a multiple of the shard count |
| QuotedKeys.HashAlwaysAgreesExactly | src/router/shard_map.c:110-111 | under a hash rule they meet for every 64-bit key if and only if there is one shard |
| QuotedKeys.RangeAgreesExactly | src/router/shard_map.c:100-108 | under a range rule they meet if and only if the first shard covering one of the two numbers covers both, or is the fallback and nothing covers the other |
| QuotedKeys.RangeDisagrees | src/router/shard_map.c:100-108 | two ranges for which the key 0 and its quoted form are on different shards |
| Limits.EveryRowOnceExactly | src/router/shard_map.c:114-118 | a scatter sees every row once if and only if the rule lists no shard twice |
| MsgBuf.MsgBuf.Ensure | src/protocol/message.c:28-39 | room for the additional bytes, contents kept across reallocation |
| MsgBuf.MsgBuf.PutByte | src/protocol/message.c:41-45 | one byte appended, nothing else changed |
| MsgBuf.MsgBuf.PutInt16 | src/protocol/message.c:47-53 | two bytes appended, high byte first, across reallocation |
| MsgBuf.MsgBuf.PutInt32 | src/protocol/message.c:55-61 | four bytes appended, most significant first |
| MsgBuf.MsgBuf.PutString | src/protocol/message.c:63-69 | the bytes and a NUL appended |
| MsgBuf.MsgBuf.PutBytes | src/protocol/message.c:71-76 | the bytes appended, whatever reallocation happened |
| MsgBuf.MsgBuf.GetInt16 | src/protocol/message.c:83-89 | the signed value of the two bytes at the read position, high byte first |
| MsgBuf.MsgBuf.GetInt32 | src/protocol/message.c:91-97 | the signed value at the read position |
| MsgBuf.MsgBuf.GetString | src/protocol/message.c:99-104 | the bytes up to the NUL, position behind it |
| MsgBuf.MsgBuf.End | src/protocol/message.c:122-127 | the back-patched length makes the bytes since msg_begin a frame |
| MsgBuf.MsgBuf.WriteAuthOk | src/protocol/message.c:129-134 | appends the encoding of AuthenticationOk |
| MsgBuf.MsgBuf.WriteParamStatus | src/protocol/message.c:136-142 | appends the encoding of ParameterStatus |
| MsgBuf.MsgBuf.WriteBackendKey | src/protocol/message.c:144-150 | appends the encoding of BackendKeyData |
| MsgBuf.MsgBuf.WriteReadyForQuery | src/protocol/message.c:152-157 | appends the encoding of ReadyForQuery |
| MsgBuf.MsgBuf.WriteError | src/protocol/message.c:159-175 | appends the encoding of ErrorResponse with severity, code and message |
| MsgBuf.MsgBuf.WriteCommandComplete | src/protocol/message.c:177-182 | appends the encoding of CommandComplete |
| Wire.FrameRoundTrip | src/protocol/message.c:110-127 | a frame is cut back into type and payload, and its length is its size minus one |
| Wire.CellRoundTrip | src/session/session.c:255-263 | a cell is read back, with NULL and the empty value kept apart |
| Wire.MessageRoundTrip | src/protocol/message.c:129-182 | every message that fits is decoded to itself |
| Wire.StreamRoundTrip | src/session/session.c:217-273 | a stream of messages is decoded to the same list |
| Wire.PrefixDecodes | src/session/session.c:135-162 | any beginning of an encoded stream decodes to the first messages and then a part of the next |
| Formats.Be16Exactly | src/protocol/message.c:47-53 | the first of the two bytes counts 256 times: together they are the number modulo 2^16 |
| Formats.Be32Exactly | src/protocol/message.c:55-61 | the same for four bytes, modulo 2^32 |
| Formats.Int16Exactly | src/protocol/message.c:83-89 | two bytes read back as a signed number, high byte first |
| Formats.Int32Exactly | src/protocol/message.c:91-97 | four bytes read back as a signed number, high byte first |
| Formats.SessionBytes | src/protocol/message.c:129-157 | the complete bytes, as numbers, of AuthenticationOk, a ParameterStatus, a BackendKeyData and ReadyForQuery |
| Formats.DescriptionBytes | src/session/session.c:224-245 | the complete bytes of a RowDescription with one column |
| Formats.RowBytes | src/session/session.c:248-272 | the complete bytes of a DataRow with a NULL and an empty value |
| Formats.EndBytes | src/protocol/message.c:159-182 | the complete bytes of a CommandComplete and an ErrorResponse |
| Formats.CopyBytes | src/session/session.c:344-390 | the complete bytes of the four COPY messages |
| Formats.ReadAsWritten | src/protocol/message.c:110-182 | a message that can be read has just the bytes the proxy writes for it, constant fields included |
| Formats.StreamRead | src/protocol/message.c:110-182 | so a stream that can be read is the stream of the messages read: reading and writing undo each other |
| Outbox.RowDescriptionBytes | src/session/session.c:224-245 | the bytes built field by field are the encoding of RowDescription |
| Outbox.DataRowBytes | src/session/session.c:248-269 | the bytes built cell by cell are the encoding of DataRow |
| Outbox.Outbox.ForwardResult | src/session/session.c:217-273 | queues one RowDescription if asked for and there are columns, and one DataRow per row in order |
| Outbox.Outbox.QueueSend | src/session/session.c:130-133 | appends to what is queued |
| Outbox.Outbox.SendAll | src/session/session.c:135-162 | partial sends move a prefix; flushed exactly when nothing is left |
| Outbox.Outbox.Drive | src/session/session.c:130-162 | over any interleaving of queueing and sending, bytes sent followed by the unsent part are everything queued; after leading SSL refusals they decode to the messages queued, and what was sent to a beginning of them |
| Replies.RepliesFramed | src/protocol/fe_protocol.c:187-226 | what the framing loop says is N bytes and then whole messages |
| Framing.IndependentOfChunks | src/protocol/fe_protocol.c:392-511 | from every state, however the bytes are split into receives: packets, commands forwarded, replies, bytes left, state and outcome are those of one receive, up to the first Query, end of COPY or close |
| Framing.LoopAppend | src/protocol/fe_protocol.c:392-511 | processing what has arrived and then the rest is processing everything at once |
| Framing.WholeIsFrame | src/protocol/fe_protocol.c:425-441 | a packet cut out is a frame by its own length field |
| Framing.LoopConserves | src/protocol/fe_protocol.c:392-511 | every byte received is in a whole packet that was taken out or still in the buffer |
| Framing.LoopParks | src/protocol/fe_protocol.c:392-441 | an open loop stops only for want of bytes or for an outstanding request |
| Framing.StartupTurnExactly | src/protocol/fe_protocol.c:209-238 | a startup packet is refused exactly if it is short, a cancel request or of another major version |
| Framing.ReadyTurnExactly | src/protocol/fe_protocol.c:471-507 | Close exactly for Terminate, a query exactly for Query, one refusal exactly for an extended message |
| Framing.CopyTurnExactly | src/executor/copy_handler.c:22-71 | in COPY IN the session is closed exactly when the backend refuses, and goes back to QUERY exactly after an accepted end |
| Copying.CopyTurnCarries | src/executor/copy_handler.c:33-65 | one packet in COPY IN: d tells the backend its data, c the end, f the failure with its text, other types nothing; only if accepted |
| Copying.LoopForwardsExactly | src/protocol/fe_protocol.c:443-469 | whatever has arrived and as long as the backend accepts, it is told just what the packets of type d, c and f that were taken out say, in their order, if and only if the COPY is not ended by a packet whose length wraps |
| Copying.WrappedEnd | src/protocol/fe_protocol.c:434-469 | five bytes that end a COPY and stay in the buffer |
| Copying.DataArrives | src/executor/copy_handler.c:33-41 | the data that reaches the backend is the concatenation of the CopyData payloads received |
| Copying.CopyArrives | src/executor/copy_handler.c:33-54 | a COPY in any number of messages, in whatever pieces its bytes arrive: each message's data and then the end |
| Copying.FailArrives | src/executor/copy_handler.c:56-65 | a CopyFail: the backend gets its reason |
| Copying.FrameIsWhole | src/protocol/fe_protocol.c:428-441 | a frame of at most sixteen megabytes is taken out whole whatever follows |
| Copying.LongFrameIsBad | src/protocol/fe_protocol.c:436-439 | a longer one closes the session |
| Copying.PartIsShort | src/protocol/fe_protocol.c:441-442 | no part of a frame is taken out |
| Copying.StartupIsWhole | src/protocol/fe_protocol.c:401-411 | a startup packet is whole up to 65535 bytes and bad beyond |
| Framing.LoopRefuses | src/protocol/fe_protocol.c:483-499 | every extended message of an idle client is refused once and nothing else is |
| Framing.LoopSslFirst | src/protocol/fe_protocol.c:220-226 | refusals of SSL come before everything else |
| Framing.SpinsExactly | src/protocol/fe_protocol.c:428-441 | the loop spins for an idle client if and only if, before the first Query or Terminate, a packet comes whose length wraps to 0 |
| Framing.SpinsOnFiveBytes | src/protocol/fe_protocol.c:428-441 | five bytes on which it does |
| Framing.QueryTextExactly | src/protocol/fe_protocol.c:472-477 | the text handed on after the shift is the text sent if and only if the bytes behind the Query repeat it as far as they reach into its place |
| Framing.PipelinedQueryLost | src/protocol/fe_protocol.c:472-477 | two Queries that arrive together: the first is run with the text of the second |
| Frontend.Frontend.HandleStartup | src/protocol/fe_protocol.c:209-280 | one startup packet: equal to the startup turn of the specification |
| Frontend.Frontend.HandleMessage | src/protocol/fe_protocol.c:471-507 | one message of an idle client: equal to the ready turn of the specification, the query text read after the shift included |
| Frontend.Frontend.HandleCopy | src/executor/copy_handler.c:24-70 | equals the COPY turn, whose commands Copying pins to the packets |
| Frontend.Frontend.Process | src/protocol/fe_protocol.c:392-511 | the loop ends, from every state, with the fields and the outcome of the specified loop |
| Frontend.Frontend.OnClientReadable | src/session/session.c:175-211 | bytes are appended and processed; nothing received is lost |
| Pool.ConnPool.constructor | src/pool/conn_pool.c:7-15 | an empty pool |
| Pool.ConnPool.PopIdle | src/pool/conn_pool.c:32-45 | pops until a live connection is found, closing the dead ones |
| Pool.ConnPool.AcquireConn | src/pool/conn_pool.c:29-64 | a live idle connection, or a new one if there is room, or none; every connection closed is recorded |
| Pool.ConnPool.ReleaseConn | src/pool/conn_pool.c:66-94 | back on the stack if it is alive and quiet, closed otherwise |
| Pool.ConnPool.RemoveAt | src/pool/conn_pool.c:102-105 | the shifting loop removes one element and keeps the order of the rest |
| Pool.ConnPool.HealthCheck | src/pool/conn_pool.c:96-113 | exactly the live idle connections stay, in order; the dead ones are closed once each |
| Pool.AcquireOk | src/pool/conn_pool.c:29-64 | idle plus active stay within the limit, though the reuse path checks none |
| Pool.AcquireReuses | src/pool/conn_pool.c:29-45 | with a live idle connection the newest one is lent, the newer dead ones are closed, and neither dialling nor the limit matters |
| Pool.AcquireDials | src/pool/conn_pool.c:47-64 | without one a connection is dialled exactly below the limit and lent exactly if that works |
| Pool.LivingExactly | src/pool/conn_pool.c:96-113 | a health check keeps each live connection and closes each dead one |
| Pool.LivingInOrder | src/pool/conn_pool.c:96-113 | in their order |
| Pool.ReleaseHasRoom | src/pool/conn_pool.c:66-94 | a connection is closed on release exactly when it is dead or busy: the pool is never full |
| Ownership.AcquireInv | src/pool/conn_pool.c:29-64 | acquiring keeps every connection in one place, counts and registrations exact |
| Ownership.ReleaseInv | src/pool/conn_pool.c:66-94 | so does releasing, and the connection becomes idle exactly when it is pooled, alive and quiet |
| Ownership.DialInv | src/protocol/fe_protocol.c:39-76 | so does connecting to the default backend |
| Ownership.CheckInv | src/pool/conn_pool.c:96-113 | so does a health check |
| Ownership.OnePlace | src/pool/conn_pool.c:29-113 | a connection is in at most one place, and finished at most once |
| Ownership.NoSharing | src/session/session.c:83-128 | two places never hold the same connection |
| Ownership.ClearedSlotsExactly | src/protocol/fe_protocol.c:128-136 | clearing the scatter slots loses no connection if and only if none held one |
| Proxy.Proxy.constructor | src/router/shard_map.c:7-19 | no sessions, empty pools: the invariant holds at the start |
| Proxy.Proxy.AcquireFor | src/protocol/fe_protocol.c:19-37 | a shard connection into a place of a session; it is never busy with another session's transaction |
| Proxy.Proxy.ReleaseFrom | src/session/session.c:83-100 | a connection leaves a place, its registration with it |
| Proxy.Proxy.Dial | src/protocol/fe_protocol.c:55-76 | a new default connection, or a failed one closed |
| Proxy.Proxy.ConnectDefault | src/protocol/fe_protocol.c:39-76 | a live backend is kept, a dead one is dropped and a new connection dialled |
| Proxy.Proxy.SwitchBackend | src/protocol/fe_protocol.c:83-103 | the backend at hand is reused if it fits, otherwise one is got from the target, and when that works is told |
| Proxy.Proxy.ExecuteSingle | src/protocol/fe_protocol.c:81-115 | a query sent leaves the session in QUERY on the target shard |
| Proxy.Proxy.SendOnSlot | src/protocol/fe_protocol.c:138-167 | a slot holds a connection exactly if connecting and sending worked |
| Proxy.Proxy.StartSlots | src/protocol/fe_protocol.c:128-168 | one slot per target, the counter equal to the failed ones |
| Proxy.FullExactly | src/protocol/fe_protocol.c:170-183 | the counter is full exactly when no slot holds a connection |
| Proxy.Proxy.ExecuteScatter | src/protocol/fe_protocol.c:120-185 | scattered, refused when no shard was reached, or failed exactly beyond 64 targets |
| Proxy.Proxy.ReleaseScatter | src/session/session.c:83-100 | every slot gives its connection back |
| Proxy.Proxy.Destroy | src/session/session.c:102-128 | the session goes and leaves no connection and no registration behind |
| Proxy.Proxy.OnQuery | src/protocol/fe_protocol.c:285-390 | a query is answered at once or waits on connections to just the shards it was routed to, a scatter without a header and with the slots that could not be sent to counted as ended; the connection at hand is kept exactly if it suits and let go otherwise; other sessions are untouched |
| Proxy.Proxy.OnStartup | src/protocol/fe_protocol.c:187-201 | the startup messages, one ReadyForQuery among them |
| Proxy.Proxy.OnExtended | src/protocol/fe_protocol.c:483-499 | one error and one ReadyForQuery |
| Proxy.Proxy.OnCopyInput | src/protocol/fe_protocol.c:443-469 | the end of COPY IN goes back to QUERY, a refusal closes the session |
| Proxy.Proxy.FinishRequest | src/session/session.c:425-450 | one ReadyForQuery with the transaction state; the connection is given up if and only if no transaction is open and it came from a pool, is kept otherwise, and is busy exactly in a transaction |
| Proxy.Proxy.OnBackendResults | src/session/session.c:305-515 | the whole new session for a list of results: the messages of ReplyOf, which Forwarding reads, the next state, and the connection kept or given up |
| Forwarding.ReplyExactly | src/session/session.c:305-515 | the reply to any results: for each result up to the first COPY its description if it is the first result set, its rows, its tag or its error, in order; then the start of the COPY, and for COPY OUT its data, CopyDone and the tag; and the next state |
| Forwarding.SingleReads | src/session/session.c:313-423 | read off the messages: the rows, the one description, the tags and the errors of the results, each in order and none other |
| Forwarding.ReplyRows | src/session/session.c:313-334 | the DataRows of the whole reply are the rows of its results |
| Forwarding.ReplyData | src/session/session.c:455-470 | the CopyData of the whole reply is the data read |
| Forwarding.AllDescribedExactly | src/session/session.c:308-318 | every result set with columns gets a description if and only if there is none behind the first result set |
| Forwarding.SecondUndescribed | src/session/session.c:308-318 | two result sets of one query, the second without a description |
| Forwarding.OneRowReply | src/session/session.c:313-334 | the messages for a result set of one row |
| Transactions.RepliesInLog | src/session/session.c:305-515 | in every run, results add to the client's log the rows and the COPY data they hold, and at the end one ReadyForQuery with the transaction state |
| Transactions.StatusExactly | src/session/session.c:425-431 | T exactly in a transaction, E exactly in a failed one |
| Transactions.StepKeepsExactly | src/protocol/fe_protocol.c:81-115 | after any event a session has the connection it had if and only if the event is no query for another backend and no end of a request without a transaction on a pooled connection |
| Transactions.TransactionStays | src/session/session.c:439-445 | in every run, a client that was told T or E goes on with the same connection until it sends a query for another backend, its transaction ends or its session does |
| Transactions.SwitchLoses | src/protocol/fe_protocol.c:83-94 | a query in a transaction runs on the transaction's connection if and only if it is for that backend, and otherwise that connection is closed |
| Transactions.BeginIsLost | src/protocol/fe_protocol.c:83-94 | a statement for a shard closes the default connection on which BEGIN was answered |
| Proxy.Proxy.OnBackendReadable | src/session/session.c:278-303 | an error destroys the session, an unfinished result changes nothing, results have the effect of OnBackendResults |
| Proxy.Proxy.OnSlotReadable | src/session/session.c:526-550 | an unfinished result changes nothing; an end is counted |
| Proxy.Proxy.OnSlotEnds | src/session/session.c:526-614 | one end of a scatter slot: the output is that of Gather.Arrive, the last one frees all slots, other sessions are untouched |
| Proxy.Proxy.OnAccept | src/session/session.c:50-81 | a new session holds nothing and has been told nothing |
| Proxy.Proxy.OnHealthCheck | src/pool/health_check.c:4-18 | every pool keeps exactly its live idle connections; no session notices |
| Proxy.Proxy.Handle | src/session/session.c:164-614 | every event that can happen keeps ownership and every ledger and has the effect of its callback |
| Proxy.Proxy.Run | src/session/session.c:164-614 | over every run of any number of interleaved sessions, in every state: one place per connection, active counts equal to holders, registered exactly when held, idle connections quiet, one ReadyForQuery per request; and every step has its effect |
| Traces.OthersUnchanged | src/session/session.c:164-614 | a callback of one session changes no other session |
| Traces.LogsGrow | src/session/session.c:130-133 | over every run the messages queued for a client only grow while its session lives |
| Traces.ScatterInterleaved | src/session/session.c:526-614 | in every run a scattering session is what the ends of its own slots alone make of it, whatever happens between them |
| Traces.ScatterAnswered | src/session/session.c:526-614 | in every run, from the Query event on: a finished scatter has given one header, all rows in order of arrival, one CommandComplete and one ReadyForQuery; the rows are those of shards it was sent to, and of every one of them if and only if none reported its end twice |
| Sessions.SingleNotReady | src/session/session.c:305-423 | forwarding results says ReadyForQuery nowhere |
| Sessions.AnsweredAtOnce | src/protocol/fe_protocol.c:285-390 | a request answered at once keeps the ledger |
| Sessions.ReplyNotReady | src/session/session.c:305-515 | COPY responses and data do not say it either |
| Sessions.StillOutstanding | src/session/session.c:452-515 | output that does not end the request keeps the ledger |
| Sessions.AnsweredLater | src/session/session.c:425-450 | the end of an outstanding request keeps the ledger |
| Sessions.SpuriousAnswer | src/session/session.c:425-450 | an answer keeps the ledger if and only if a request was outstanding |
| Sessions.StartupCount | src/protocol/fe_protocol.c:187-201 | startup says ReadyForQuery once |
| Gather.GatherOutput | src/session/session.c:526-614 | for every arrival order: one header, all rows shard by shard in order, one CommandComplete, one ReadyForQuery, and nothing final before the last event |
| Gather.NotBefore | src/session/session.c:581-613 | while the counter is not full the query goes on and nothing final is said |
| Gather.GatherConcat | src/session/session.c:552-576 | the results of two shards one after the other give their messages one after the other, one header in all |
| Gather.EveryShardEndedExactly | src/session/session.c:531-582 | when the reply goes out every shard has ended if and only if no shard was counted twice |
| Gather.SameRows | src/session/session.c:552-576 | in whatever order the shards answer, the rows are those they give in slot order |
| Gather.LostTwice | src/session/session.c:531-536 | two shards of which one reports its error twice: the client is told the query is over while the other still runs |
| Gather.FinalExactly | src/session/session.c:584-597 | the tag is SELECT 0 exactly when no shard returned a result set |
| Timers.AddMs | src/event/timer.c:4-11 | exact in nanoseconds; normalised unless the delay is negative beyond the fraction |
| Timers.DiffWithinOneMs | src/event/timer.c:13-17 | truncation loses less than a millisecond |
| Timers.DueExactly | src/event/timer.c:72-91 | a timer fires exactly when its time has come, or within the last millisecond if the fractions are in order |
| Timers.FiresAfterInterval | src/event/timer.c:72-91 | no timer fires a millisecond or more before its interval is over |
| Timers.TimerQueue.Add | src/event/timer.c:24-41 | refused when the table is full, else the next slot |
| Timers.TimerQueue.NextTimeout | src/event/timer.c:49-70 | 0 exactly when a timer is due, else the least time left, at most a second |
| Timers.TimerQueue.ProcessExpired | src/event/timer.c:72-91 | exactly the due timers fire, in order, and are set again from the clock; the others stay |
| Timers.ZeroTimeoutExactly | src/event/timer.c:49-91 | a zero timeout is asked for exactly when something would fire |
| Config.FindShardIndex | src/config.c:39-46 | the first shard with the name |
| Config.LoadShards | src/config.c:138-156 | at most 64 shards with distinct names, each line applied in turn |
| Config.FullTableFrozen | src/config.c:138-139 | once 64 shards are known no line changes any of them |
| Config.FrozenAfter | src/config.c:138-139 | the lines after the one that fills the table change nothing |
| Config.LastLineHolds | src/config.c:138-156 | among the lines read before the table is full the last one for each bound of each shard holds |
| Config.FillsExactly | src/config.c:138-139 | the line that fills the table is the one with the sixty-fourth name |
| Config.LastLineExactly | src/config.c:138-156 | the last lines of the file hold for a shard if and only if no line after the one that fills the table overrules what the lines up to it say |
| Config.LastShardWithoutRange | src/config.c:138-156 | sixty-four sections, of which the last never gets its range |
| Config.LoadRules | src/config.c:157-183 | at most 64 rules with distinct tables |
| Config.ResolveList | src/config.c:218-236 | the shards named, unknown names skipped, cut at the number of shards |
| Config.ResolvedExactly | src/config.c:218-236 | a shard is a target as often as the list names it |
| Config.BuildRule | src/config.c:203-245 | targets from the list, all shards for a broadcast without one, none otherwise; empty column as none |
| RuleLines.LastRuleLineHolds | src/config.c:157-183 | among the lines read before the table of rules is full, the last method, column, list and broadcast lines of a table hold in its rule |
| RuleLines.LastRuleLineExactly | src/config.c:157-183 | the last lines of the file hold if and only if no line after the one that fills the table of rules overrules what the lines up to it say |
| RuleLines.BuiltRule | src/config.c:203-245 | hash exactly when the last method line says hash, no column exactly for an empty one, broadcast and targets as the last lines say |
| RuleLines.ResolvedInOrder | src/config.c:218-236 | the targets are the named shards in the order of the list |
| RuleLines.ResolveConcat | src/config.c:218-236 | a list is resolved name by name |
| RuleLines.LastTableWithoutColumn | src/config.c:157-183 | sixty-four sections, of which the last table never gets its shard column |
| Config.LoadConfig | src/config.c:188-245 | distinct names and tables, every target in the shard table, one rule for each table of the file |
| Dispatch.LoopMatches | src/protocol/fe_protocol.c:396-511 | in every state and for every buffer, the packets the framing loop takes out are events the session can take, they close it exactly when the loop does, and leave it in the loop's state with the loop's replies in its log |
| Dispatch.LoopIsEvents | src/protocol/fe_protocol.c:396-511 | the same when the proxy handles those events on the shared state |
| Dispatch.AskedReady | src/protocol/fe_protocol.c:472-477 | a Query that the loop hands over finds its session ready |
| Dispatch.RejectionsArePackets | src/protocol/fe_protocol.c:483-499 | an idle session is charged one rejection for each extended-protocol packet taken out |
| Dispatch.FirstWords | src/protocol/fe_protocol.c:187-201 | up to its first Query, in whatever pieces its bytes arrive, the bytes queued for a client are an N for each refusal of SSL and then its session's log |
| Queries.PlanFits | src/protocol/fe_protocol.c:123-126 | under a loaded configuration every target has a pool and no query is too wide for a scatter |
| Queries.HandleQuery | src/protocol/fe_protocol.c:285-390 | from the parse tree to the connections: the session is kept, and answered at once or waiting on the shards of its route |

## Left out

- SQL text and libpg_query: the model starts from the parse tree and its compact JSON text. Text with white space between tokens is not modelled.
- Joins, set operations, schema-qualified tables and several statements in one string: the transparency theorems are about one statement on one table, and `Cluster.Says` admits no other.
- Clauses other than FROM with one table, WHERE, SET, a column list and VALUES: `Cluster.Says` admits no WITH, DISTINCT, LIMIT, GROUP BY, ORDER BY, UPDATE ... FROM, DELETE ... USING, ON CONFLICT or RETURNING. The target list of a SELECT is not interpreted: it returns whole rows, so aggregates and expressions over rows are not covered. Answers are compared as multisets of rows; the proxy does not merge them.
- Conditions, SET values and VALUES that are not equalities with constants, AND, OR or constants are arbitrary functions of the row; subqueries in them that read a table are not.
- Values are integers or strings as written. Coercion between the two is not modelled; `QuotedKeys` says exactly when it matters. Strings are compared by their JSON spelling.
- Transparency.RunRefines: holds for admissible statements, namely a condition confined to the one shard chosen, INSERT rows with constant keys that belong together and do not start with 0, and UPDATEs that set the shard column to nothing that lives elsewhere; that these are needed is proved in SelectTransparentExactly, DeleteTransparentExactly, InsertPlacedExactly and UpdatePlacedExactly.
- Router.RouterDecide: asks for a shard column where the source compares it with a column found in the statement, which it does without a NULL check; `Examples.ComparableExactly` says when that matters.
- Broadcast.RunKeepsCopies: one statement computes the same values on every shard, and the rule lists no shard twice (`Limits.EveryRowOnceExactly`).
- Dispatch.LoopIsEvents: the events of one call of the loop; the Query that ends it is handled by `Queries.HandleQuery` and its answer encoded by `Outbox`, without one theorem over all of them.
- Column lists that do not name the shard column: the scan for names then runs into the rest of the document, and what it finds there is not given a meaning.
- Proxy.Proxy.OnBackendReadable: results arrive only while a request is outstanding. `Sessions.SpuriousAnswer` and `Ownership.ClearedSlotsExactly` say exactly what an unexpected one would break.
- Stale events that epoll delivers in the same batch after a callback was deregistered.
- COPY OUT that pauses: data is read in one go, or the request stays outstanding.
- Tuple results without a command status, for which the proxy would make up a tag, and results in single-row mode, which it never asks for.
- Error texts: an error reply is one ErrorResponse message, its fields are modelled in `MsgBuf` and `Wire` but not in the session log.
- Frontend.Frontend.HandleCopy: the text of a CopyFail that is not terminated inside its message, and the payload of the one packet whose length wraps to 0, are not given a value.
- MsgBuf.MsgBuf.Ensure: sizes are unbounded integers, so neither overflow of a buffer size nor failure to allocate is modelled; lengths written are modulo 2^32 and round trips ask that they fit.
- The growth of the receive buffer, startup parameters and cancel requests beyond closing the session.
- The reading of the configuration file: lines are given as settings, lists as trimmed names, and truncation of long names is not modelled. Connection strings are left out.
- TimerQueue callbacks that change timers, timer_remove, and 64-bit overflow of times.
- Deferred BEGIN, distributed commit and summed row counts, which docs/design.md describes and the code does not have.
- Logging, freeing of memory, signals and the listener.

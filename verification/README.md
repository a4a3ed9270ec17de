# Verified kernels of the MariaDB client programs

A Dafny model of the parts of `mariadb`, `mariadb-dump` and `mariadb-binlog` that carry state from
one step to the next, with proofs of what they promise over whole runs.

| files | what they model |
|---|---|
| `SqlText`, `SplitterTheorems`, `StatementSplitter` | `add_line`: the lexer that cuts a session into statements while it edits each line in place |
| `LineReader`, `BatchClient` | `batch_readline` over a growing, shifting buffer, and the batch loop of `read_and_execute` on top of it |
| `CompletionIndex`, `CompletionGenerator` | the hash table of all prefixes of all words, and the resumable generator that walks it |
| `ConnectionPool` | the asynchronous pool of connections, `poll` branch |
| `Arguments`, `Quoting` | `get_arg`, which edits a command line in place, against `quote_name` |
| `Escapers`, `InsertPacking` | what `mariadb-dump` writes for other readers, and how it packs rows into INSERT statements |
| `BinlogEvents`, `BinlogWriter`, `BinlogFilter`, `Flashback` | the filter over Annotate, Table_map and Rows events, the caches and blocks their output goes through, and their reversal in flashback |
| `Basics` | what these share |

The code that works by changing things is imperative here too: arrays that are edited in place,
classes with the fields of the source, loops with invariants. Each method is proved against a
function of its inputs or of the old state, and the theorems are about those functions.

A `char` is a byte of a single-byte character set. How much a read returns and which queries `poll`
finds completed are nondeterministic, so a result holds for every schedule of them. Whether and where
a read fails, whether the server takes a query and how it answers are inputs: a result says what
follows from each.

## Main results

- Feeding a session line by line gives the statements of a one-pass lexer on the joined text if and
  only if no newline is swallowed; `add_line` swallows one after a continuation line that starts
  like a DELIMITER command, in any case and with most accents, and a family of inputs shows it.
- The batch loop, with the line reader and the splitter working in one shared buffer, submits
  exactly those statements, for every schedule of short reads. How it ends, at the end of the stream,
  at a client command, at a zero byte or at a failed read, is a function of the stream and of what the
  read behind it finds, and so is what has been submitted by then.
- The pool accepts exactly the queries the server takes; every accepted query has its handler called
  exactly once, with its own result; no connection ever carries two queries; every wait completes one,
  so the waiting loops end.
- The completion index agrees with a scan of the word list whatever collides, the longest match is
  the longest common prefix, and the generator returns each word once for each time it was added.
- INSERT packing loses no row and uses the fewest statements of any split under its own accounting.
- Names written by `quote_name` are read back by `get_arg`; where that fails (double quotes, short
  commands) it fails exactly for names with a backslash, or also with the quote.
- Flashback writes the row events that are not filtered in the exact reverse of their order, with the
  maps of each statement before its row events, for every log of complete statements that are each
  wholly shown or wholly filtered. Within a statement that condition is exact: the table filter is
  respected if and only if all row events are filtered or none is, since the queue holds filtered
  ones too.

## Model

| member | source | states |
|---|---|---|
| `SplitterTheorems.SplitterMeetsReference` | client/mysql.cc:2525-2811 | fed line by line, with no client command and no comment opener inside a comment, the splitter has the statements and the rest of the one-pass reference on the joined text if and only if it swallows no newline |
| `SplitterTheorems.DelimiterLineIsGlued` | client/mysql.cc:2786-2809 | for every word, line that begins like a DELIMITER command, and word: the splitter joins the last two with nothing between them, the reference does not, and the results differ |
| `SplitterTheorems.RunAgrees` | client/mysql.cc:2543-2784 | from every state outside strings and comments, on every text that meets no command and nests no comment, the run and the reference collect as many characters, up to the newlines swallowed, and the same statements when none is |
| `SqlText.DelimiterByWeight` | client/mysql.cc:1182-1192 | the test for a DELIMITER line compares nine bytes with the name of the command by their weights in latin1_swedish_ci |
| `SplitterTheorems.FeedIsRun` | client/mysql.cc:2205-2392 | feeding lines one by one is one run over the joined text, unless a command stops it |
| `SplitterTheorems.RunAppend` | client/mysql.cc:2525-2811 | a run can be cut at any newline: nothing the splitter looks at lies behind one |
| `SplitterTheorems.RunLiteral` | client/mysql.cc:2765-2784 | from inside a string the run reaches the end of the literal having added exactly its text, whatever delimiters or comment markers are in it |
| `SplitterTheorems.RunBlock` | client/mysql.cc:2729-2764 | from inside a comment the run reaches its end having added nothing, and owes one blank |
| `SplitterTheorems.LiteralIsVerbatim` | client/mysql.cc:2571-2592 | the text of a literal is its bytes, if no escaping backslash ends a line |
| `StatementSplitter.Session.AddLine` | client/mysql.cc:2525-2811 | the session moves exactly as the run over the line and its newline; only the line and its terminator are written |
| `StatementSplitter.Session.ScanLine` | client/mysql.cc:2543-2784 | the loop over a line: the write position and a pending blank never pass the read position; strings and comments are never both open |
| `StatementSplitter.Session.Step` | client/mysql.cc:2543-2784 | one turn of the loop is one lexical step, written back in place behind the read position |
| `StatementSplitter.Session.NextToken` | client/mysql.cc:2543-2765 | the tests of the loop, in order, find the token the text calls for |
| `StatementSplitter.Session.AddNewline` | client/mysql.cc:2786-2809 | the newline lands no later than the terminating zero, and is left out as the run leaves it out |
| `StatementSplitter.IsPrefixAt` | strings/is_prefix.c:39-44 | true exactly when the text at a place starts with the prefix |
| `LineReader.ReadAll` | client/readline.cc:58-262 | for every stream, every schedule of reads and either mode: it succeeds if and only if no read fails; each piece is the next line, or a part of one that nearly fills the largest buffer, until nothing can be taken any more; in binary mode the pieces rebuild the stream with at most a final newline added, or all of it up to its last newline when the read behind it fails; if no line exceeds the largest buffer less a block they are the lines of the stream and none is cut |
| `LineReader.LineBuffer.BatchReadline` | client/readline.cc:58-75 | one call takes one line, or a piece of one, off the unread text and leaves the rest, with its terminator where no unread byte is; it reports an error only when a read failed and no newline is left |
| `LineReader.LineBuffer.InternReadLine` | client/readline.cc:224-262 | the line found is the first of the unread text, across every refill; nothing is found only at the end, or when the read behind the last byte fails and the unread text has no newline |
| `LineReader.LineBuffer.FillBuffer` | client/readline.cc:154-221 | the line so far is kept and the next bytes of the file follow it; zero before the end of the file means the line has no room in the largest buffer; minus one means that the read behind the last byte failed |
| `LineReader.LineBuffer.MakeRoom` | client/readline.cc:154-188 | the buffer doubles until a block fits, keeping the line, or cannot and the line nearly fills the largest buffer |
| `LineReader.AllIsTaken` | client/readline.cc:58-262 | any sequence of calls that leaves nothing to take has rebuilt the stream in binary mode, and has its lines in either mode if they fit the buffer |
| `LineReader.RejoinStep` | client/readline.cc:58-75 | taking one more piece keeps pieces and rest together equal to the stream |
| `LineReader.LinesStep` | client/readline.cc:224-262 | a taken piece of a stream whose lines fit is its first line, and the rest has the other lines |
| `BatchClient.ExecuteBatch` | client/mysql.cc:2205-2392 | for every stream and schedule of reads a session submits what the splitter makes of the pieces read before it ends, and ends for the reason it gives; if every line fits the buffer both are functions of the lines before the first with a zero byte, and the statements are those of the reference when no newline is swallowed and no comment nests |
| `BatchClient.SessionIsOfLines` | client/mysql.cc:2205-2372 | if every line fits the buffer, whatever the schedule, the outcome is that of the splitter on the lines before the first with a zero byte: stopped, zero byte, failed read or finished, in that order, and nothing but its statements is submitted |
| `BatchClient.WhySessionsEnd` | client/mysql.cc:2222-2322 | on every stream: finished only if no read fails, a read error only if one does, a zero byte only if the stream has one |
| `BatchClient.PiecesAreLines` | client/mysql.cc:2205-2356 | feeding pieces that are whole lines is feeding the lines, without the marker of the first |
| `BatchClient.Round` | client/mysql.cc:2222-2356 | one line read and fed: the session is where the pieces taken off the stream so far lead, and goes on, or ends at the end of the stream, at a failed read, at a zero byte in the next piece or where the splitter stops |
| `BatchClient.FeedLine` | client/mysql.cc:2230-2356 | a zero byte is refused and changes nothing, a byte order marker is skipped on the first line, a command stops; any other line moves the session as the run does and leaves the unread text alone |
| `BatchClient.SessionMeetsReference` | client/mysql.cc:2361-2372 | what is submitted, trimmed and with empty statements dropped, is that of the reference, with the rest behind the last delimiter only when the stream has ended well |
| `SqlText.Trim` | client/mysql.cc:5393-5400 | what is left ends in a printable byte, and only bytes that are not were dropped |
| `CompletionIndex.HashTable.FindAllMatches` | client/completion_hash.cc:158-171 | for every collision: the bucket of a non-empty prefix has exactly the added words with that prefix, newest first, and their number; null when there are none |
| `CompletionIndex.HashTable.FindLongestMatch` | client/completion_hash.cc:173-202 | the bucket and length of the longest common prefix of all added words with the given one |
| `CompletionIndex.HashTable.AddWord` | client/completion_hash.cc:220-226 | the index of the words becomes the index of the words and one more |
| `CompletionIndex.HashTable.Update` | client/completion_hash.cc:60-111 | a string is stored first under its key and nothing else changes; an empty key is refused |
| `CompletionIndex.HashTable.Find` | client/completion_hash.cc:113-133 | the one bucket of a key, or null exactly when the key is not in the index |
| `CompletionIndex.HashTable.Clean` | client/completion_hash.cc:205-210 | the table is the index of no words |
| `CompletionIndex.HashTable.constructor` | client/completion_hash.cc:42-57 | a new table is valid and empty |
| `CompletionIndex.Hashpjw` | client/completion_hash.cc:28-40 | the hash is that of the bytes with their sign, and never leaves 28 bits, so a shift loses none |
| `CompletionIndex.LinkedStep` | client/completion_hash.cc:107-108 | linking a bucket with a new key keeps every bucket in the chain of its key, once |
| `CompletionIndex.Longer` | client/completion_hash.cc:190-197 | equal counts mean that all matches share one more character; unequal counts mean that none longer is shared |
| `CompletionIndex.Narrow` | client/completion_hash.cc:190-197 | a longer prefix has as many matches exactly when every match has it |
| `CompletionIndex.MatchesAre` | client/completion_hash.cc:158-171 | the matches of the reference are the added words with the prefix |
| `CompletionGenerator.Completions` | client/mysql.cc:2967-3043 | calls until null give every word with the text as prefix, newest first; for the empty text every non-empty word, once for each time it was added |
| `CompletionGenerator.EachWordOnce` | client/mysql.cc:3013-3038 | of the entries of all buckets, those that stand under their whole length are the added non-empty words, as a multiset |
| `CompletionGenerator.Generator.NextOfAll` | client/mysql.cc:2997-3041 | a call returns the next such entry and keeps its place for the next call; null only at the end; a first call starts over, unless the table is empty, where it goes on with the old walk |
| `CompletionGenerator.Generator.NextOfPrefix` | client/mysql.cc:2978-2996 | a call returns the next entry of the prefix; a first call starts at the newest |
| `CompletionGenerator.Step` | client/mysql.cc:3018-3037 | the walk moves to the next entry, bucket or chain, and what it has still to meet loses one visit |
| `ConnectionPool.RunWorkload` | client/connection_pool.cc:190-220 | for every run of submits and waits and every server: a query is accepted if and only if the server takes it, and the handler calls are, as a multiset, one for each accepted query with a handler, with its own text, result, context and connection |
| `ConnectionPool.Pool.ExecuteAsync` | client/connection_pool.cc:190-210 | succeeds if and only if the query could be sent; an accepted query adds one owed call, with the result the server will give, and a rejected one none; every connection is free with its slot disarmed, or in use with it armed |
| `ConnectionPool.Pool.WaitAll` | client/connection_pool.cc:216-220 | ends with all connections in the queue and every owed call made |
| `ConnectionPool.Pool.GetConnection` | client/connection_pool.cc:44-51 | ends with a connection that carries no query, taken from the queue |
| `ConnectionPool.Pool.WaitForCompletions` | client/connection_pool.cc:119-144 | the set of armed slots strictly shrinks, each slot is as it was or completed, and no event is left over |
| `ConnectionPool.Pool.ScanEvents` | client/connection_pool.cc:128-143 | the scan completes exactly the slots with an event and its counter ends at zero |
| `ConnectionPool.Pool.CompleteQuery` | client/connection_pool.cc:147-157 | the owed call moves from in flight to delivered, and the connection returns if its query said so |
| `ConnectionPool.Pool.AddToPollset` | client/connection_pool.cc:105-112 | arming a slot puts its query's call in flight |
| `ConnectionPool.Pool.constructor` | client/connection_pool.cc:164-188 | a new pool has every connection in the queue and every slot disarmed |
| `ConnectionPool.SomeArmed` | client/connection_pool.cc:44-51 | `poll` is never called with nothing armed: a slot is armed while a connection is missing |
| `ConnectionPool.Sent` | client/connection_pool.cc:190-210 | sending keeps the discipline of slots and adds what the query owes |
| `ConnectionPool.Requeued` | client/connection_pool.cc:200-204 | a failed send keeps the discipline of slots and owes nothing |
| `ConnectionPool.FullQueue` | client/connection_pool.cc:216-220 | the queue is as long as the pool exactly when every connection is in it |
| `Arguments.GetArg` | client/mysql.cc:4899-4955 | in all three modes: the place of the argument, or null when it is missing, empty or not closed; outside CHECK the line has the argument there, a NUL behind it and the rest moved up, and nothing else changed |
| `Arguments.ReadArg` | client/mysql.cc:4932-4953 | the loop over the argument, in place, gives its characters without the escapes |
| `Arguments.RemoveChar` | strings/strmov_overlapp.c:19-24 | the text behind a character moves over it, up to its NUL |
| `Arguments.SkipCommand` | client/mysql.cc:4906-4924 | the text behind a long or short command, or behind the previous argument |
| `Arguments.Scan` | client/mysql.cc:4932-4953 | argument, dropped escapes, end and rest account for every character of the text |
| `Quoting.BackQuotedName` | client/mysqldump.cc:2181-2198 | on a long command, GET reads back every non-empty name in back quotes |
| `Quoting.DoubleQuotedName` | client/mysqldump.cc:2181-2198 | in double quotes it reads the name back if and only if there is no backslash in it |
| `Quoting.ShortCommandName` | client/mysql.cc:4932-4944 | a short command reads a quoted name back if and only if it has neither a backslash nor the quote |
| `Quoting.PlainName` | client/mysqldump.cc:2186-2187 | a name left without quotes is read back by every command |
| `Quoting.TwoNames` | client/mysql.cc:4899-4955 | GET and then GET_NEXT read two quoted names, although the first call moves the second name |
| `Quoting.CheckThenGet` | client/mysql.cc:4899-4955 | for every line CHECK and then GET give the same place, or null both |
| `Quoting.ConnectArguments` | client/mysql.cc:4642-4663 | both calls stay inside the buffer for every line, and give what the two readings define |
| `Quoting.QuoteName` | client/mysqldump.cc:2181-2198 | the buffer holds the quoted name and a NUL, and is otherwise unchanged, unless the name goes without |
| `Quoting.ScanEscaped` | client/mysql.cc:4932-4944 | where backslashes escape, what is read of a quoted name with one is shorter, or is not closed |
| `Escapers.LikeFindsOnlyTheName` | client/mysqldump.cc:2201-2242 | read as a string literal, the output is a LIKE pattern that matches a string if and only if it is the name up to the collation |
| `Escapers.QuoteForLike` | client/mysqldump.cc:2223-2242 | the buffer holds the quoted pattern and a NUL, and is otherwise unchanged |
| `Escapers.LiteralIsPattern` | sql/sql_lex.cc:1561-1613 | the literal closes where the output does and its value escapes exactly the wildcards and backslashes of the name |
| `Escapers.CdataReadsBack` | client/mysqldump.cc:2425-2448 | the adjacent sections, read by section 2.7 of XML 1.0, hold the text between two newlines, whatever is in it |
| `Escapers.PrintXmlCdata` | client/mysqldump.cc:2425-2448 | the loop, which looks two characters ahead, writes those sections |
| `InsertPacking.PackingIsOptimal` | client/mysqldump.cc:4459-4462 | the greedy split has all rows once and in order, each statement of several rows below the limit, and no more statements than any split that does so |
| `InsertPacking.PlacedIsBest` | client/mysqldump.cc:4666-4688 | placing one more row keeps the split ahead of every other: fewer statements, or as many and a last one that is not longer |
| `InsertPacking.StatementLength` | client/mysqldump.cc:4666-4688 | a statement is four bytes shorter than it is counted |
| `InsertPacking.Pack` | client/mysqldump.cc:4459-4700 | the loop writes the statements of that split |
| `InsertPacking.PackRow` | client/mysqldump.cc:4666-4688 | the counted length is that of the open statement, and the row goes where the split puts it |
| `BinlogEvents.RowsPrinted` | client/mysqlbinlog.cc:709-793 | outside flashback a row event is printed if and only if its statement had no filtered map of its table before it |
| `BinlogEvents.AnnotatePrinted` | client/mysqlbinlog.cc:248-263 | an Annotate event is printed exactly at the first shown map behind it in its statement, unless another one came between; just before that map, and once |
| `BinlogEvents.OutputHoldsPrinted` | client/mysqlbinlog.cc:1159-1347 | all that is printed, in order, has each event that is to be printed, once, and nothing else |
| `BinlogEvents.NothingSurvives` | client/mysqlbinlog.cc:746-760 | after a statement end nothing is ignored and nothing waits |
| `BinlogWriter.StatementInFile` | sql/log_event_client.cc:2921-2990 | in the file of a flashback run every statement whose last row event is not filtered stands in one piece: its comments, the maps it has shown, its row events |
| `BinlogWriter.MapsPrecedeRows` | sql/log_event_client.cc:3139-3178 | for every such statement each shown map stands before each of its row events |
| `BinlogWriter.OpenMapsAre` | sql/log_event_client.cc:3139-3178 | the maps that wait for the end of a statement are those shown since the last end |
| `BinlogWriter.FlashbackGains` | client/mysqlbinlog.cc:1380-1402 | each event of a flashback run adds to the file and to the blocks what the log defines, and only maps wait in the caches |
| `BinlogWriter.FileIsInOrder` | sql/log_event_client.cc:2921-2990 | outside flashback the file, with what waits, has the encoded events in the order they are printed in, and the comments of the Annotate events |
| `BinlogWriter.FileIsComplete` | sql/log_event_client.cc:2951-2961 | once the last statement has ended nothing waits: the file has all that is printed |
| `BinlogFilter.EventFilter.ProcessEvent` | client/mysqlbinlog.cc:1159-1402 | the kept Annotate event, the ignored maps, the queue, the caches, the blocks and the file are always what the events so far mean |
| `BinlogFilter.EventFilter.PrintRowEvent` | client/mysqlbinlog.cc:709-826 | prints what the event is to print; a statement end clears what was kept, a filtered one sends the caches to the file, and a flush empties the queue |
| `BinlogFilter.EventFilter.ProcessTableMap` | client/mysqlbinlog.cc:1172-1316 | a filtered map is remembered; a shown one is printed behind the kept Annotate event |
| `BinlogFilter.EventFilter.PrintTableMap` | sql/log_event_client.cc:3139-3178 | the comments go to the file at once, the encoded map waits |
| `BinlogFilter.EventFilter.PrintRows` | sql/log_event_client.cc:2921-2990 | a row event waits, unless it ends the statement: then all that waits goes to the file or, in flashback, to the output of the event |
| `BinlogFilter.EventFilter.Finish` | client/mysqlbinlog.cc:3389-3403 | what flashback held is written from the last event to the first, behind what is in the file |
| `BinlogFilter.Dump` | client/mysqlbinlog.cc:3380-3403 | a whole run writes the file the log defines |
| `Flashback.StatementIsReversed` | client/mysqlbinlog.cc:718-816 | a statement whose last row event is not filtered is printed last to first, exactly the last printed one ends it, and nothing stays queued; otherwise none of its row events is printed |
| `Flashback.FilterInFlashback` | client/mysqlbinlog.cc:718-816 | exactly the row events that are not filtered are printed if and only if all of the statement are filtered or none is |
| `Flashback.FlashbackPrintsFiltered` | client/mysqlbinlog.cc:718-816 | a statement on two tables, one filtered, whose filtered row event is printed |
| `Flashback.FlashbackReverses` | client/mysqlbinlog.cc:3389-3403 | in a log of complete statements, each with its maps before its row events and wholly shown or wholly filtered, flashback writes exactly the row events that are not filtered, in the reverse of their order |
| `Flashback.UnfilteredIsRegular` | client/mysqlbinlog.cc:1172-1316 | every log without a filtered map, in which the maps of a statement come before its row events, is such a log |

## Left out

- The splitter: comments kept with `--comments`, multi-byte character sets, binary mode, and what a client command does (a run stops there).
- `find_command` and its tables are parameters of the splitter; delimiter changes end the modelled run.
- `SplitterTheorems.SplitterMeetsReference`: requires that no comment opener stands inside a comment, since the flag for conditional comments is local to one line.
- `BatchClient.ExecuteBatch`: for a stream with a line longer than the largest buffer the result depends on the schedule of reads, and is stated over the pieces that were read; the answers of the server are not modelled.
- Failed reads: `InputFile` holds the bytes before the first read that fails, since nothing is read after it.
- `LineReader.ReadAll`: the limit is below two to the power 31, so that doubling does not leave 32 bits; the callers pass one gigabyte.
- `CompletionGenerator.Generator.NextOfAll`: where a first call goes on with an old walk, the buckets of that walk are taken to be still there; the source may have freed them.
- `ConnectionPool.Pool.GetConnection`: requires that some connection is free or due to come back, without which the source waits for ever.
- `ConnectionPool.Pool.WaitAll`: requires that every connection is due to come back, for the same reason.
- `ConnectionPool.RunWorkload`: submits with the connection released, as the caller in `mariadb-dump` does; the methods also cover queries that keep it.
- The pool: handlers that call the pool, interrupted or failing `poll`, the Windows branch.
- The completion index: failed allocations, and `completion_hash_exists`, which compares against the first word stored.
- Counters are unbounded; only the hash and the buffer size have the width of the source.
- `Arguments.GetArg`: requires a NUL behind the place where the arguments begin, which a lone backslash at the very end of a buffer would not have.
- `Escapers.LikeFindsOnlyTheName`: backslash escapes are on in the server, as they are by default.
- `Escapers.PrintXmlCdata`: requires the NUL that stands behind a field, which the look ahead of the source relies on.
- `InsertPacking.Pack`: the text of a row is given; its escaping is not modelled.
- The binary log filter: other kinds of events, bodies of events, GTID and position filters, errors while printing, the short form and verbose output; the comment lines of an event are one unit.
- `Flashback.FlashbackReverses`: a statement with shown and filtered row events is excluded; `FilterInFlashback` says what becomes of it.
- `create_delimiter`, the other escapers of the dump, table printing, options, connections and the remaining programs.

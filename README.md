# ChatKat activity ledger, modelled in Dafny

ChatKat is a Discord bot that counts how many messages each member of a guild
has sent. This project models its core:

- how every message becomes a point in an InfluxDB measurement;
- how deleted messages are retracted lazily;
- how channel histories are backfilled while the bot tracks which channels
  are ready;
- how a `&kat` request is answered with a ranked report.

Two versions of the pipeline are modelled:

- `DatabaseHandler`: the current handler, with per-guild measurements, the
  readiness gates and the `-help`, `-guild`/`-server`, `-tag`/`-tags` and
  `-day`/`-week`/`-month`/`-year` flags.
- `ChatKat`: the earlier standalone program, with one measurement
  `messages`, the `&Kat` trigger, the hyphen-split interval and the in-place
  sort.

A third part, `Debugger`, models the CSV debug log.

The database is a map from point identity to the `isValid` field:
measurement, channel tag, author tag and time map to 0 or 1. Writing a batch
overwrites points of the same identity, so nothing is ever deleted. The query
`SELECT sum("isValid") … GROUP BY authorID` is a function of that map. Java
library behaviour the code depends on is written out:

- `String.split` drops trailing empty strings.
- `String.toLowerCase` is modelled on ASCII letters only.
- `String.compareTo` is lexicographic.
- `List.sort` and `Stream.sorted` are stable.
- `Double.toString` of a whole sum is its digits followed by `.0`.
- `String.hashCode` and the bucket layout of `java.util.HashMap` fix the
  order in which the request loop visits the interval flags.

Files:

- `wrappers.dfy`: `Option` and `Result`.
- `text.dfy`: the string operations.
- `stable_sort.dfy`: a stable insertion sort. It comes as a specification
  function and as an in-place method on an array.
- `hash_order.dfy`: `HashMap` iteration order.
- `platform.dfy`: messages, authors and the clock.
- `ledger.dfy`: points, batches, writing and the grouped query.
- `database_handler.dfy`, `chat_kat.dfy`, `debugger.dfy`: the three source
  classes.

The classes keep their state in Dafny classes:

- `DatabaseHandler.DatabaseHandler`: the store, the live batch and the
  readiness map.
- `ChatKat.ChatKat`: the store, the program's one batch, and whether the
  history and deletion subscriptions are still running.
- `Debugger.Debugger`: the text written so far and whether the writer is
  open.

Where the code and its documentation disagree, the model follows the code:

- **Interval flags.** In the earlier program the comment at
  `src/main/java/ChatKat.java:145` says that the last matching flag of a
  request is used, and there it is (`ChatKat.LastSegmentWins`).
  `answerRequest` departs from that rule: its loop runs over a `HashMap`
  keyed by the flags. A HashMap made with capacity 4 grows to 8 buckets with the
  fourth put. It then visits `-year`, `-week`, `-day`, `-month` in that
  order, whatever the request says. So the month flag beats the day flag,
  the day flag beats the week flag and the week flag beats the year flag
  (`DatabaseHandler.IntervalPriority`).
- **Readiness on a second backfill.** Backfilling a channel again sets it
  back to "not ready" until the new backfill completes
  (`DatabaseHandler.DatabaseHandler.StartBackfill`).
- **Backfill filter.** The filter reads the author before it checks that
  there is one. The first message without an author therefore ends the
  stream, and the batch is written and the channel marked ready at that
  point (`DatabaseHandler.FirstAuthorless`).
- **Sort order in ChatKat.** The earlier program sorts by the text of the
  sum, so "9.0" ranks above "10.0" (`ChatKat.NineBeforeTen`).

## Model

| member | source | states |
|---|---|---|
| Text.Lower | src/main/java/DatabaseHandler.java:213-214 | lower-casing keeps the length, maps each character on its own and leaves no capital letter |
| Text.LowerIdempotent | src/main/java/DatabaseHandler.java:249 | lower-casing an already lower-cased text changes nothing, so the flag names compare as written |
| Text.LowerOfLowerCase | src/main/java/DatabaseHandler.java:249 | a text without capital letters is its own lower-case form |
| Text.JavaSplit | src/main/java/DatabaseHandler.java:213-214 | no piece of a split contains the delimiter |
| Text.JoinSplit | src/main/java/ChatKat.java:146 | splitting on one character and joining with it gives back the text: the segments lose nothing but the hyphens |
| Text.SplitJoin | src/main/java/DatabaseHandler.java:277 | joining line-free pieces with a line break and splitting again gives back the pieces |
| Text.JoinOccurrences | src/main/java/DatabaseHandler.java:277 | a join of n line-free pieces holds n-1 line breaks |
| Text.JavaSplitTwo | src/main/java/DatabaseHandler.java:276 | splitting "<digits>.0" on the point gives the digits and "0" |
| Text.ParseNatToString | src/main/java/DatabaseHandler.java:276 | the decimal text of a count reads back as the count |
| Text.NatToStringInjective | src/main/java/ChatKat.java:169-170 | different counts have different decimal texts |
| Text.LexLessIrreflexive | src/main/java/ChatKat.java:169-170 | no text compares below itself |
| Text.LexLessTransitive | src/main/java/ChatKat.java:169-170 | compareTo order is transitive |
| Text.LexLessTotal | src/main/java/ChatKat.java:169-170 | any two different texts are ordered one way or the other |
| Text.LexLessAsymmetric | src/main/java/ChatKat.java:169-170 | two texts are never each below the other |
| Text.LeastExists | src/main/java/DatabaseHandler.java:266-268 | every non-empty set of author tags has a least element, so grouped series can be listed in tag order |
| Text.LeastUnique | src/main/java/DatabaseHandler.java:266-268 | the least author tag is unique |
| StableSort.SortPermutes | src/main/java/DatabaseHandler.java:270-271 | the sort returns a permutation of its input |
| StableSort.SortSorted | src/main/java/DatabaseHandler.java:270-271 | the sort's result is ordered by a comparator that is a strict weak order |
| StableSort.SortStable | src/main/java/DatabaseHandler.java:270-271 | elements the comparator ties leave the sort in the order they entered it |
| StableSort.InsertAtGap | src/main/java/ChatKat.java:169-170 | insertion places the new element right after the last element it need not precede |
| StableSort.SortInPlace | src/main/java/ChatKat.java:169-170 | the array after the in-place sort is the stable sort of the array before it |
| HashOrder.JavaHash | src/main/java/DatabaseHandler.java:239-244 | String.hashCode as an unsigned 32-bit value |
| HashOrder.TableBits | src/main/java/DatabaseHandler.java:239-244 | the table grows until the entries fit under three quarters of its capacity, and stops at the first size where they fit |
| HashOrder.IterationOrder | src/main/java/DatabaseHandler.java:248 | keySet iteration visits every entry exactly once: the order is a permutation of the puts |
| HashOrder.IntervalFlagOrder | src/main/java/DatabaseHandler.java:239-251 | the four flags, put in the order year, month, week, day, are visited as year, week, day, month |
| HashOrder.BucketsOfFlags | src/main/java/DatabaseHandler.java:239-244 | in 8 buckets, "-year" and "-week" fall in bucket 0, "-day" in 2 and "-month" in 5 |
| Ledger.Batch.Add | src/main/java/DatabaseHandler.java:149-154 | a point is appended to the batch and the earlier points are kept |
| Ledger.TagValue | src/main/java/DatabaseHandler.java:275 | substring(1) returns the id behind a tag's one-letter prefix |
| Ledger.WriteLastWins | src/main/java/DatabaseHandler.java:66-74 | after a write, each identity holds the value of its last point in the batch, or its earlier value when the batch has none |
| Ledger.WriteConcat | src/main/java/DatabaseHandler.java:66-74 | writing a + b is writing a, then b |
| Ledger.WriteAgain | src/main/java/DatabaseHandler.java:205-206 | writing a batch that only grew since its last write is the same as writing all of it once |
| Ledger.WriteIdempotent | src/main/java/DatabaseHandler.java:280-281 | writing the same batch twice is writing it once |
| Ledger.WriteAgreeing | src/main/java/DatabaseHandler.java:66-74 | writing points the store already holds changes nothing |
| Ledger.Query | src/main/java/DatabaseHandler.java:266-268 | when there are series, there is one per selected author, and at least one |
| Ledger.QueryNoSeries | src/main/java/DatabaseHandler.java:266-268 | the series list is missing exactly when no point is selected |
| Ledger.QueryAscending | src/main/java/DatabaseHandler.java:266-268 | series come in strictly ascending order of the author tag |
| Ledger.QueryCoversAuthors | src/main/java/DatabaseHandler.java:266-268 | an author has a series exactly when a selected point carries its tag |
| Ledger.SumValidCounts | src/main/java/DatabaseHandler.java:266 | the sum of isValid over a set of points is the number of points whose isValid is 1 |
| Ledger.QuerySumsIsValid | src/main/java/DatabaseHandler.java:266 | each series' value is the sum of isValid over its author's selected points |
| Ledger.RetractionUncounts | src/main/java/DatabaseHandler.java:174-179 | writing a zero point over a counted message lowers its author's count by exactly one |
| Ledger.SumText | src/main/java/DatabaseHandler.java:276 | Double.toString of a sum ends in ".0" |
| Ledger.CountText | src/main/java/DatabaseHandler.java:276 | the text before the decimal point is the count's decimal form and reads back as the count |
| Ledger.MaxExists | src/main/java/DatabaseHandler.java:101 | a non-empty set of times has a latest one |
| Ledger.LatestTime | src/main/java/DatabaseHandler.java:101-104 | last(time) is missing exactly when the measurement is empty; otherwise it is the time of a stored point and no stored point is later |
| Ledger.StoredAuthor | src/main/java/DatabaseHandler.java:168-171 | the lookup fails exactly when no point is stored at that channel and time; otherwise it names the author of such a point |
| DatabaseHandler.MessagePoint | src/main/java/DatabaseHandler.java:141-154 | the point has the guild, channel and author ids behind "g", "c", "a", the message time, and isValid 1 exactly when the message has content |
| DatabaseHandler.MessagePointInjective | src/main/java/DatabaseHandler.java:141-143 | two messages share a point identity only when they share guild, channel, author and time |
| DatabaseHandler.BackfillWindow | src/main/java/DatabaseHandler.java:100-116 | the whole history is read when the guild has no point; otherwise the history after the guild's latest point |
| DatabaseHandler.FirstAuthorless | src/main/java/DatabaseHandler.java:118-119 | the backfill gets through exactly the messages before the first one without an author |
| DatabaseHandler.HumanPointsMembership | src/main/java/DatabaseHandler.java:118-120 | a point is in the batch exactly when it records a message of a non-bot author |
| DatabaseHandler.BackfillRecords | src/main/java/DatabaseHandler.java:117-126 | the backfill records exactly the non-bot messages before the first message without an author |
| DatabaseHandler.PickInterval | src/main/java/DatabaseHandler.java:247-251 | the loop's bound is that of the last visited flag present in the request, or the epoch |
| DatabaseHandler.IntervalPriority | src/main/java/DatabaseHandler.java:239-251 | the bound is the month's if "-month" is present, else the day's, else the week's, else the year's, else the epoch, wherever the flags stand |
| DatabaseHandler.FlagsAreLowerCase | src/main/java/DatabaseHandler.java:249 | the flag names are unchanged by toLowerCase |
| DatabaseHandler.RequestSelection | src/main/java/DatabaseHandler.java:261-267 | the query reads the guild's measurement, the request's channel unless "-guild" or "-server" is given, from the interval bound on |
| DatabaseHandler.MoreMessagesOrder | src/main/java/DatabaseHandler.java:270-271 | the comparator by descending sum is a strict weak order |
| DatabaseHandler.RankedProperties | src/main/java/DatabaseHandler.java:270-271 | the ranking holds the same series with non-increasing sums, and equal sums keep the query's order |
| Ledger.RankTextOneLine | src/main/java/DatabaseHandler.java:273-276 | an entry "k. <name> sent **<count>** messages." holds no line break when the name holds none |
| DatabaseHandler.ReportLines | src/main/java/DatabaseHandler.java:262-277 | the report splits into one line per series, the i-th ranking the i-th series as number i+1, with n-1 line breaks |
| DatabaseHandler.Answer | src/main/java/DatabaseHandler.java:212-278 | "-help" gets the help text; an untracked channel fails; a channel not ready, or a guild request with any channel not ready, gets the smoke-break text; no series only when nothing is selected |
| DatabaseHandler.ReportStartsWithRank | src/main/java/DatabaseHandler.java:273-277 | a report starts with "1" and is never one of the fixed texts |
| DatabaseHandler.FixedTextsStart | src/main/java/DatabaseHandler.java:217-228 | the smoke-break text starts with 'I' and the help text with 'H' |
| DatabaseHandler.AnswerReport | src/main/java/DatabaseHandler.java:237-277 | past the gates, a request without an author fails, one whose query is empty fails with NoSeries, and otherwise the answer is the report of the query's series, with mentions exactly when the requester is the guild owner and gave "-tag" or "-tags" |
| DatabaseHandler.AnswerLines | src/main/java/DatabaseHandler.java:253-277 | past the gates, a request with an author that selects points gets one line per series, the i-th ranking the i-th series as number i+1, when no label spans lines |
| DatabaseHandler.PastTheGates | src/main/java/DatabaseHandler.java:216-235 | a request that passes the help and readiness gates gets neither fixed text nor the untracked failure |
| DatabaseHandler.DatabaseHandler.constructor | src/main/java/DatabaseHandler.java:40-63 | the handler starts on the existing database with an empty live batch and no channel seen |
| DatabaseHandler.DatabaseHandler.WriteBatch | src/main/java/DatabaseHandler.java:66-74 | the store becomes the write of the batch; an empty batch changes nothing; the batch keeps its points |
| DatabaseHandler.DatabaseHandler.AddMessage | src/main/java/DatabaseHandler.java:135-156 | the message's point is appended to the given batch and the message is handed back |
| DatabaseHandler.DatabaseHandler.AddLiveMessage | src/main/java/DatabaseHandler.java:132-134 | the message's point is appended to the live batch |
| DatabaseHandler.DatabaseHandler.DeleteMessage | src/main/java/DatabaseHandler.java:160-180 | a zero point with the identity of the stored point at that channel and time is appended; with none, nothing is appended; the store is untouched |
| DatabaseHandler.DatabaseHandler.StartBackfill | src/main/java/DatabaseHandler.java:93-116 | the window follows the guild's latest point, the channel batch is fresh and empty, and the channel is marked not ready with the rest of the map kept |
| DatabaseHandler.DatabaseHandler.FinishBackfill | src/main/java/DatabaseHandler.java:117-126 | the batch gains the backfilled points, the store becomes the write of the batch, and only the channel is marked ready |
| DatabaseHandler.DatabaseHandler.AnswerRequest | src/main/java/DatabaseHandler.java:212-278 | the answer is the one Answer defines for the current store and readiness |
| DatabaseHandler.DatabaseHandler.ProcessRequest | src/main/java/DatabaseHandler.java:185-209 | without send permission nothing happens; otherwise the live batch is written before the request is answered from the new store |
| DatabaseHandler.DatabaseHandler.Close | src/main/java/DatabaseHandler.java:280-284 | closing writes the live batch |
| DatabaseHandler.ReadyAfterBackfill | src/main/java/DatabaseHandler.java:122-124 | once a channel's backfill has finished, a channel request there passes the readiness gate |
| ChatKat.LivePoint | src/main/java/ChatKat.java:41-55 | the point has measurement "messages", the channel and author ids behind "c" and "a", the message time and isValid 1 |
| ChatKat.SegmentInterval | src/main/java/ChatKat.java:133-148 | the loop's bound is that of the last hyphen segment that names a flag, or the epoch |
| ChatKat.LastSegmentWins | src/main/java/ChatKat.java:143-148 | the last segment that names a flag decides the bound |
| ChatKat.NoSegmentNoBound | src/main/java/ChatKat.java:139-148 | with no segment naming a flag, the bound is the epoch |
| ChatKat.SegmentExamples | src/main/java/ChatKat.java:146-147 | a segment counts only when it is exactly a flag name: the segments of "&Kat -week -day" select the day, those of "&Kat -day -week" the week, and those of "&Kat -week -day " neither |
| ChatKat.LowerExamples | src/main/java/ChatKat.java:147 | lower-casing the example segments |
| ChatKat.ByTextOrder | src/main/java/ChatKat.java:169-170 | the comparator on the sums' texts is a strict weak order |
| ChatKat.NineBeforeTen | src/main/java/ChatKat.java:169-170 | a sum of 9 ranks above a sum of 10 |
| ChatKat.ByTextTies | src/main/java/ChatKat.java:169-170 | two series tie exactly when their sums are equal |
| ChatKat.RankingProperties | src/main/java/ChatKat.java:169-170 | the ranking is a permutation ordered by the sums' texts, latest first |
| ChatKat.Render | src/main/java/ChatKat.java:167-175 | the StringBuilder loop produces the numbered lines of the ranking in order when every ranked author is a member, and fails with no output when a member lookup fails |
| ChatKat.RenderLineBreaks | src/main/java/ChatKat.java:173-174 | a rendered line has one line break, at its end after a space |
| ChatKat.RenderedLines | src/main/java/ChatKat.java:172-175 | the output has one line break per series |
| ChatKat.RenderedEnd | src/main/java/ChatKat.java:172-175 | the output of a non-empty ranking ends with " \n" |
| ChatKat.RequestSelection | src/main/java/ChatKat.java:152-159 | the query reads "messages" in the request's channel, from the segment bound on |
| ChatKat.ReplyMissing | src/main/java/ChatKat.java:155-181 | there is no reply exactly when the query selects nothing or one of the selected authors is no longer a member of the guild |
| ChatKat.Respond | src/main/java/ChatKat.java:152-178 | copying the query into an array, sorting it in place and rendering it gives exactly the reply Reply defines |
| ChatKat.RequestCountsItself | src/main/java/ChatKat.java:109-123 | a request's own point is written as counted before the query, so a request inside its interval gets a reply unless a selected author has left the guild |
| ChatKat.ChatKat.constructor | src/main/java/ChatKat.java:39 | the program starts on the existing database with an empty batch and both subscriptions running |
| ChatKat.ChatKat.AddMessage | src/main/java/ChatKat.java:40-54 | the message's point is appended to the batch exactly when the author's member lookup succeeds; otherwise the batch is unchanged |
| ChatKat.ChatKat.OnHistoryMessage | src/main/java/ChatKat.java:93-100 | a history message with content and a human author who is a member is recorded; one without an author, or one whose author's member lookup fails, ends the subscription |
| ChatKat.ChatKat.OnMessageCreate | src/main/java/ChatKat.java:105-180 | messages with content from human authors who are members go into the batch, and a failed member lookup drops the message; a request writes the batch and replies with Reply on the new store; anything else leaves the store alone |
| ChatKat.ChatKat.OnMessageDelete | src/main/java/ChatKat.java:185-208 | a zero point with the stored point's identity is appended; a failed lookup appends nothing and ends the subscription |
| ChatKat.ChatKat.Shutdown | src/main/java/ChatKat.java:214-217 | the batch is written on the way out |
| Debugger.ReplaceCharLength | src/main/java/Debugger.java:50-53 | replacing a character grows the text by the replacement's extra length for each occurrence |
| Debugger.StringerEscapes | src/main/java/Debugger.java:49-55 | the three replaceAll passes equal escaping each character on its own, followed by the comma |
| Debugger.PassesAppend | src/main/java/Debugger.java:50-53 | the passes distribute over concatenation |
| Debugger.PassesChar | src/main/java/Debugger.java:50-53 | a quote becomes three quotes, a comma or a line break becomes a space, any other character stays |
| Debugger.EscapedCounts | src/main/java/Debugger.java:50-53 | escaped text holds no comma and no line break, and three quotes per quote of the input |
| Debugger.StringerProperties | src/main/java/Debugger.java:49-55 | a field ends with its only comma, holds no line break, triples the quotes and grows by two per quote plus one |
| Debugger.RowValues | src/main/java/Debugger.java:63-80 | a row has 18 values after the guild id |
| Debugger.FieldsCounts | src/main/java/Debugger.java:62-81 | n escaped fields hold n commas and no line break |
| Debugger.IdColumnsCommas | src/main/java/Debugger.java:25-30 | the six identity columns, from GuildID to TimeStamp, each close with their only comma |
| Debugger.DataColumnsCommas | src/main/java/Debugger.java:31-37 | the seven data columns, from MessageType to Attachment, each close with their only comma |
| Debugger.ExtraColumnsCommas | src/main/java/Debugger.java:38-43 | the six extra columns, from the second MessageType to the webhook column, each close with their only comma |
| Debugger.HeaderShape | src/main/java/Debugger.java:24-44 | the header has 19 comma-closed columns and ends with a line break |
| Debugger.RowShape | src/main/java/Debugger.java:56-86 | when the guild id holds no comma, a row has 19 commas, one per header column, and ends with a line break, its only one when the guild id holds none |
| Debugger.RowsShape | src/main/java/Debugger.java:56-86 | n such rows hold n line breaks and 19 commas per row |
| Debugger.Debugger.constructor | src/main/java/Debugger.java:19-48 | the file starts with the header |
| Debugger.Debugger.AddMessage | src/main/java/Debugger.java:56-86 | a row is appended only for a message with content while the file is open, keeping the file equal to the header followed by the logged rows |
| Debugger.Debugger.Close | src/main/java/Debugger.java:87-94 | closing keeps what was written; later appends are lost |

## Left out

- Discord lookups are not modelled: guilds, channels, permissions, display names, mentions and the owner id. They enter as parameters: `Labeler`, `Members`, `canSend` and `ownerID`. A failing member lookup in the earlier program is modelled through `Members`.
- InfluxDB is modelled as a map from point identity to `isValid`. Its network client, the database creation, the batch options and the logging of failed writes are not modelled.
- Ledger.Query: GROUP BY is assumed to return series in ascending order of the author tag. The delete lookup (`StoredAuthor`) picks one matching point; which one InfluxDB would return first is not modelled.
- Ledger.SumText: covers whole sums below ten million only. Larger values, which Double.toString writes in scientific notation, are not modelled.
- Text.Lower: changes the ASCII letters only. Java's full Unicode case mapping is not modelled.
- Platform.Boundaries: the clock is a parameter giving the instants one year, month, week and day back. ZonedDateTime arithmetic is not modelled.
- DatabaseHandler.DatabaseHandler.AddMessage: requires an author. Where the source hits a message without one, it throws; the backfill's handling of that is modelled by `FirstAuthorless`.
- The DEBUG environment switch that attaches a `Debugger` to the handler is not modelled. The debugger's own behaviour is modelled on its own in `Debugger.Debugger`, and closing it on the first request is left out.
- Debugger.Debugger: the file name, the flush and I/O failures other than writing after close are not modelled. The values are taken as already rendered by the platform, including the hash code and the webhook id. A message with content but no author, which makes the source throw, is not modelled.
- Concurrency between the live stream, the backfills and the deletion handler is not modelled. Each event is one method call.
- The login, ready-event logging and the typing indicator have no effect on the model's state and are left out.
- DatabaseHandler.Answer: the Java null dereferences are modelled as `Err`. `UntrackedChannel` stands for a guild or channel missing from the readiness map, `NoAuthor` for a request without an author and `NoSeries` for a query with no series. In ChatKat the skipped error gives no reply.
- DatabaseHandler.Answer: the labeler is total. A user lookup in `getUserLabel` that fails, which would make the whole answer fail, is not modelled.

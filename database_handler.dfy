/** The bot's database handler: it records every message of a guild as a point
    of the guild's measurement, retracts deleted messages lazily, backfills
    the history of each text channel while tracking which channels are ready,
    and answers "&kat" requests with a ranked report of message counts. */
module DatabaseHandler {
  import opened Wrappers
  import opened Text
  import StableSort
  import HashOrder
  import opened Ledger
  import opened Platform

  // ---------------------------------------------------------------------------
  // Points of a guild's measurement

  /** Identifiers are stored with a one-letter prefix, since purely numeric
      names and tag values break the query language. */
  function GuildMeasurement(guildID: string): string { "g" + guildID }
  function ChannelTag(channelID: string): string { "c" + channelID }
  function AuthorTag(authorID: string): string { "a" + authorID }

  /** The point recording a message: guild, channel and author behind their
      prefixes, the message time, and isValid 1 exactly when it has content. */
  function MessagePoint(m: Message): (p: Point)
    requires m.author.Some?
    ensures Prefixed(p.key.measurement, 'g', m.guildID)
    ensures Prefixed(p.key.channelID, 'c', m.channelID)
    ensures Prefixed(p.key.authorID, 'a', m.author.value.id)
    ensures p.key.time == m.timestamp
    ensures p.isValid == 1 <==> m.content.Some?
  {
    var key := Key(GuildMeasurement(m.guildID), ChannelTag(m.channelID), AuthorTag(m.author.value.id), m.timestamp);
    Point(key, if m.content.Some? then 1 else 0)
  }

  /** Two messages get the same point identity only if they share guild,
      channel, author and time: the prefixes keep the ids apart. */
  lemma MessagePointInjective(m: Message, n: Message)
    requires m.author.Some? && n.author.Some?
    requires MessagePoint(m).key == MessagePoint(n).key
    ensures m.guildID == n.guildID && m.channelID == n.channelID
    ensures m.author.value.id == n.author.value.id && m.timestamp == n.timestamp
  {
    var p, q := MessagePoint(m), MessagePoint(n);
    assert p.key.measurement[1..] == q.key.measurement[1..];
    assert p.key.channelID[1..] == q.key.channelID[1..];
    assert p.key.authorID[1..] == q.key.authorID[1..];
  }

  // ---------------------------------------------------------------------------
  // Backfill

  /** The part of a channel's history the backfill reads: messages after the
      guild's latest stored point, or all of them when it has none. */
  datatype Window = Everything | After(time: int)

  function BackfillWindow(store: Store, guildID: string): (w: Window)
    ensures w.Everything? <==> forall k :: k in store ==> k.measurement != GuildMeasurement(guildID)
    ensures w.After? ==> exists k :: k in store && k.measurement == GuildMeasurement(guildID) && k.time == w.time
    ensures w.After? ==> forall k :: k in store && k.measurement == GuildMeasurement(guildID) ==> k.time <= w.time
  {
    match LatestTime(store, GuildMeasurement(guildID))
    case None => Everything
    case Some(t) => After(t)
  }

  /** The number of history messages the backfill gets through: its filter
      asks for the author before checking that there is one, so the first
      message without an author ends the stream. */
  function FirstAuthorless(history: seq<Message>): (n: nat)
    ensures n <= |history|
    ensures forall i :: 0 <= i < n ==> history[i].author.Some?
    ensures n < |history| ==> history[n].author.None?
  {
    if history == [] || history[0].author.None? then 0
    else
      var n := FirstAuthorless(history[1..]);
      assert forall i :: 1 <= i < n + 1 ==> history[i] == history[1..][i - 1];
      n + 1
  }

  /** The points of the messages of human authors, in order. */
  function HumanPoints(messages: seq<Message>): seq<Point>
    requires forall i :: 0 <= i < |messages| ==> messages[i].author.Some?
  {
    if messages == [] then []
    else
      var last := messages[|messages| - 1];
      HumanPoints(messages[..|messages| - 1]) + (if last.author.value.isBot then [] else [MessagePoint(last)])
  }

  /** The points a backfill adds to its channel batch. */
  function BackfillPoints(history: seq<Message>): seq<Point>
  {
    HumanPoints(history[..FirstAuthorless(history)])
  }

  /** The point p records message m, written by a human. */
  predicate Records(m: Message, p: Point)
  {
    m.author.Some? && !m.author.value.isBot && p == MessagePoint(m)
  }

  /** A point is among those of a message sequence exactly when it records one
      of its messages whose author is not a bot. */
  lemma {:induction false} HumanPointsMembership(messages: seq<Message>, p: Point)
    requires forall i :: 0 <= i < |messages| ==> messages[i].author.Some?
    ensures p in HumanPoints(messages) <==> exists i :: 0 <= i < |messages| && Records(messages[i], p)
  {
    if messages != [] {
      var n := |messages| - 1;
      var front := messages[..n];
      HumanPointsMembership(front, p);
      var tail := if messages[n].author.value.isBot then [] else [MessagePoint(messages[n])];
      assert HumanPoints(messages) == HumanPoints(front) + tail;
      assert p in tail <==> Records(messages[n], p);
      if p in HumanPoints(front) {
        var i :| 0 <= i < |front| && Records(front[i], p);
        assert messages[i] == front[i];
      }
      if exists i :: 0 <= i < |messages| && Records(messages[i], p) {
        var i :| 0 <= i < |messages| && Records(messages[i], p);
        if i < n { assert Records(front[i], p); }
      }
    }
  }

  /** The backfill records exactly the messages of human authors that come
      before the first message without an author. */
  lemma BackfillRecords(history: seq<Message>, p: Point)
    ensures p in BackfillPoints(history) <==> exists i :: 0 <= i < FirstAuthorless(history) && Records(history[i], p)
  {
    var n := FirstAuthorless(history);
    var read := history[..n];
    HumanPointsMembership(read, p);
    if p in BackfillPoints(history) {
      var i :| 0 <= i < |read| && Records(read[i], p);
      assert history[i] == read[i];
    }
    if exists i :: 0 <= i < n && Records(history[i], p) {
      var i :| 0 <= i < n && Records(history[i], p);
      assert read[i] == history[i];
    }
  }

  /** Readiness of every channel the backfill has seen, by guild. */
  type Readiness = map<string, map<string, bool>>

  predicate AllReady(channels: map<string, bool>)
  {
    forall c :: c in channels ==> channels[c]
  }

  // ---------------------------------------------------------------------------
  // Requests

  /** The request text, lower-cased and split on single whitespace characters. */
  function RequestTokens(content: Option<string>): seq<string>
  {
    var text := match content case Some(t) => t case None => "";
    JavaSplit(Lower(text), Whitespace)
  }

  predicate GuildScope(tokens: seq<string>)
  {
    "-guild" in tokens || "-server" in tokens
  }

  predicate WantsTags(tokens: seq<string>)
  {
    "-tag" in tokens || "-tags" in tokens
  }

  /** The interval flags, put into new HashMap<>(4) in this order. */
  function IntervalEntries(b: Boundaries): seq<(string, int)>
  {
    [("-year", b.year), ("-month", b.month), ("-week", b.week), ("-day", b.day)]
  }

  /** The order in which the request loop visits the flags. */
  function IntervalOrder(b: Boundaries): seq<(string, int)>
  {
    HashOrder.IterationOrder(IntervalEntries(b), 2)
  }

  /** The bound of the last entry whose flag is a token, or 0 (the epoch). */
  function LastFlagBound(entries: seq<(string, int)>, tokens: seq<string>): int
  {
    if entries == [] then 0
    else
      var last := entries[|entries| - 1];
      if Lower(last.0) in tokens then last.1 else LastFlagBound(entries[..|entries| - 1], tokens)
  }

  function Interval(tokens: seq<string>, b: Boundaries): int
  {
    LastFlagBound(IntervalOrder(b), tokens)
  }

  /** The loop over the flags, in HashMap order: every flag that is a token
      overwrites the bound. */
  method PickInterval(tokens: seq<string>, b: Boundaries) returns (interval: int)
    ensures interval == Interval(tokens, b)
  {
    var order := IntervalOrder(b);
    interval := 0;
    for i := 0 to |order|
      invariant interval == LastFlagBound(order[..i], tokens)
    {
      assert order[..i + 1][..i] == order[..i];
      if Lower(order[i].0) in tokens {
        interval := order[i].1;
      }
    }
    assert order[..|order|] == order;
  }

  /** Since the HashMap visits "-year", "-week", "-day", "-month" in that
      order and the last flag present wins, the month flag beats the day
      flag, which beats the week flag, which beats the year flag, wherever
      they stand in the request. */
  lemma IntervalPriority(tokens: seq<string>, b: Boundaries)
    ensures Interval(tokens, b) ==
      if "-month" in tokens then b.month
      else if "-day" in tokens then b.day
      else if "-week" in tokens then b.week
      else if "-year" in tokens then b.year
      else 0
  {
    HashOrder.IntervalFlagOrder(b.year, b.month, b.week, b.day);
    FlagsAreLowerCase();
    LastOfFour(("-year", b.year), ("-week", b.week), ("-day", b.day), ("-month", b.month), tokens);
  }

  lemma FlagsAreLowerCase()
    ensures Lower("-year") == "-year" && Lower("-week") == "-week"
    ensures Lower("-day") == "-day" && Lower("-month") == "-month"
  {
    LowerOfLowerCase("-year");
    LowerOfLowerCase("-week");
    LowerOfLowerCase("-day");
    LowerOfLowerCase("-month");
  }

  lemma LastOfFour(e0: (string, int), e1: (string, int), e2: (string, int), e3: (string, int), tokens: seq<string>)
    ensures LastFlagBound([e0, e1, e2, e3], tokens) ==
      if Lower(e3.0) in tokens then e3.1
      else if Lower(e2.0) in tokens then e2.1
      else if Lower(e1.0) in tokens then e1.1
      else if Lower(e0.0) in tokens then e0.1
      else 0
  {
    assert [e0, e1, e2, e3][..3] == [e0, e1, e2];
    assert [e0, e1, e2][..2] == [e0, e1];
    assert [e0, e1][..1] == [e0];
    assert [e0][..0] == [];
    assert LastFlagBound([e0], tokens) == if Lower(e0.0) in tokens then e0.1 else 0;
    assert LastFlagBound([e0, e1], tokens) == if Lower(e1.0) in tokens then e1.1 else LastFlagBound([e0], tokens);
    assert LastFlagBound([e0, e1, e2], tokens) == if Lower(e2.0) in tokens then e2.1 else LastFlagBound([e0, e1], tokens);
  }

  /** Where the request is counted: the guild's measurement, the request's
      channel unless the guild scope is asked for, from the interval bound on. */
  function RequestSelection(request: Message, tokens: seq<string>, b: Boundaries): (sel: Selection)
    ensures sel.measurement == GuildMeasurement(request.guildID)
    ensures sel.channel.None? <==> GuildScope(tokens)
    ensures sel.channel.Some? ==> sel.channel.value == ChannelTag(request.channelID)
    ensures sel.since == Interval(tokens, b)
  {
    Selection(GuildMeasurement(request.guildID),
              if GuildScope(tokens) then None else Some(ChannelTag(request.channelID)),
              Interval(tokens, b))
  }

  // ---------------------------------------------------------------------------
  // The report

  /** The display label of an author: given the author id, the guild id and
      whether to @mention; the user lookup behind it is not modelled. */
  type Labeler = (string, string, bool) -> string

  /** Series with the larger sum come first (the comparator returns
      sumB.compareTo(sumA)). */
  function MoreMessages(): (Series, Series) -> bool
  {
    (a: Series, b: Series) => a.sum > b.sum
  }

  lemma MoreMessagesOrder()
    ensures StableSort.StrictWeakOrder(MoreMessages())
  {
  }

  function Ranked(series: seq<Series>): seq<Series>
  {
    StableSort.Sort(series, MoreMessages())
  }

  /** The ranking lists the same series with non-increasing sums, and series
      with equal sums keep the order in which the query returned them. */
  lemma RankedProperties(series: seq<Series>)
    ensures multiset(Ranked(series)) == multiset(series)
    ensures forall i, j :: 0 <= i < j < |Ranked(series)| ==> Ranked(series)[i].sum >= Ranked(series)[j].sum
    ensures forall y :: StableSort.Ties(Ranked(series), MoreMessages(), y) == StableSort.Ties(series, MoreMessages(), y)
  {
    MoreMessagesOrder();
    StableSort.SortPermutes(series, MoreMessages());
    StableSort.SortSorted(series, MoreMessages());
    forall y ensures StableSort.Ties(Ranked(series), MoreMessages(), y) == StableSort.Ties(series, MoreMessages(), y) {
      StableSort.SortStable(series, MoreMessages(), y);
    }
  }

  /** The k-th line of a report: the rank, the author's label and the count. */
  function Line(rank: nat, s: Series, names: Labeler, guildID: string, mention: bool): string
  {
    RankText(rank, names(TagValue(s.authorID), guildID, mention), s.sum)
  }

  function Lines(ranked: seq<Series>, names: Labeler, guildID: string, mention: bool): (r: seq<string>)
    ensures |r| == |ranked|
  {
    seq(|ranked|, i requires 0 <= i < |ranked| => Line(i + 1, ranked[i], names, guildID, mention))
  }

  function Report(series: seq<Series>, names: Labeler, guildID: string, mention: bool): string
  {
    Join(Lines(Ranked(series), names, guildID, mention), "\n")
  }

  predicate OneLine(s: string)
  {
    NoDelimiter(s, Literal('\n'))
  }

  /** When no label spans lines, the report consists of exactly one line per
      series: the i-th line ranks the i-th series of the ranking as number
      i + 1, and there are one fewer line breaks than series. */
  lemma ReportLines(series: seq<Series>, names: Labeler, guildID: string, mention: bool)
    requires |series| >= 1
    requires forall s :: s in series ==> OneLine(names(TagValue(s.authorID), guildID, mention))
    ensures var lines := Split(Report(series, names, guildID, mention), Literal('\n'));
      && |lines| == |series|
      && (forall i :: 0 <= i < |lines| ==> lines[i] == Line(i + 1, Ranked(series)[i], names, guildID, mention))
    ensures Occurrences(Report(series, names, guildID, mention), '\n') == |series| - 1
  {
    var ranked := Ranked(series);
    RankedMembers(series);
    LinesOneLine(ranked, names, guildID, mention);
    SplitJoin(Lines(ranked, names, guildID, mention), '\n');
    JoinOccurrences(Lines(ranked, names, guildID, mention), '\n');
  }

  lemma RankedMembers(series: seq<Series>)
    ensures forall s :: s in Ranked(series) ==> s in series
  {
    StableSort.SortPermutes(series, MoreMessages());
    forall s | s in Ranked(series) ensures s in series {
      assert s in multiset(Ranked(series));
    }
  }

  lemma LinesOneLine(ranked: seq<Series>, names: Labeler, guildID: string, mention: bool)
    requires forall s :: s in ranked ==> OneLine(names(TagValue(s.authorID), guildID, mention))
    ensures forall i :: 0 <= i < |ranked| ==> OneLine(Lines(ranked, names, guildID, mention)[i])
  {
    forall i | 0 <= i < |ranked| ensures OneLine(Lines(ranked, names, guildID, mention)[i]) {
      RankTextOneLine(i + 1, names(TagValue(ranked[i].authorID), guildID, mention), ranked[i].sum);
    }
  }

  // ---------------------------------------------------------------------------
  // Answering a request

  /** The ways answering fails: an unknown guild or channel in the readiness
      map, a request without an author, a query that selects no point. */
  datatype Failure = UntrackedChannel | NoAuthor | NoSeries

  // The two fixed answers. Each opens with a short literal of its own: the
  // verifier cannot index into a literal much longer than that, and
  // FixedTextsStart needs their first characters.

  /** The answer to "-help". */
  const HelpText: string :=
    "Howdy, " + "dumplin'! What can I do ya fer?\n\nType \"&kat\" in any channel"
    + " that I can see, and I'll let you know who has been spending all their time at the watercooler!\n\n"
    + "The default search returns results for the same channel as the request, but you can add a \"-server\""
    + " or \"-guild\" and I'll include results for every available channel on the server. This includes channels to which I can read requestMessage history, but not write.  \n\n"
    + "Include \"-day\", \"-week\", \"-month\", or \"-year\" in your requestMessage to get a count for a shorter "
    + "interval.\n\nIf you're the server's owner, you can also use \"-tag\" or \"-tags\" to mention all the users on the list."

  /** The answer while a channel, or the guild, is still being backfilled. */
  const SmokeBreak: string := "I'm on my " + "smoke break, henny. Check back in a few."

  predicate Tracked(ready: Readiness, request: Message)
  {
    request.guildID in ready && request.channelID in ready[request.guildID]
  }

  /** The answer to a request, given the database, the readiness map, the
      guild owner's id, the labels and the clock. */
  function Answer(store: Store, ready: Readiness, request: Message, ownerID: string,
                  names: Labeler, b: Boundaries): (r: Result<string, Failure>)
    ensures "-help" in RequestTokens(request.content) ==> r == Ok(HelpText)
    ensures "-help" !in RequestTokens(request.content) && !Tracked(ready, request) ==> r == Err(UntrackedChannel)
    ensures "-help" !in RequestTokens(request.content) && Tracked(ready, request) &&
            (!ready[request.guildID][request.channelID] ||
             (GuildScope(RequestTokens(request.content)) && !AllReady(ready[request.guildID])))
            ==> r == Ok(SmokeBreak)
    ensures r == Err(NoSeries) ==> forall k :: k in store ==>
            !Selected(RequestSelection(request, RequestTokens(request.content), b), k)
  {
    var tokens := RequestTokens(request.content);
    if "-help" in tokens then Ok(HelpText)
    else if !Tracked(ready, request) then Err(UntrackedChannel)
    else if !ready[request.guildID][request.channelID] then Ok(SmokeBreak)
    else if GuildScope(tokens) && !AllReady(ready[request.guildID]) then Ok(SmokeBreak)
    else if request.author.None? then Err(NoAuthor)
    else
      var mention := request.author.value.id == ownerID && WantsTags(tokens);
      var sel := RequestSelection(request, tokens, b);
      QueryNoSeries(store, sel);
      match Query(store, sel)
      case None => Err(NoSeries)
      case Some(series) => Ok(Report(series, names, request.guildID, mention))
  }

  /** A report begins with the rank of its first line, so it is never one
      of the fixed texts. */
  lemma ReportStartsWithRank(series: seq<Series>, names: Labeler, guildID: string, mention: bool)
    requires |series| >= 1
    ensures var report := Report(series, names, guildID, mention);
      |report| >= 1 && report[0] == '1' && report != SmokeBreak && report != HelpText
  {
    var lines := Lines(Ranked(series), names, guildID, mention);
    assert NatToString(1) == "1";
    assert lines[0][0] == '1';
    var report := Report(series, names, guildID, mention);
    if |lines| == 1 {
      assert report == lines[0];
    } else {
      assert report == lines[0] + "\n" + Join(lines[1..], "\n");
    }
    assert report[0] == '1';
    FixedTextsStart();
  }

  lemma FixedTextsStart()
    ensures |SmokeBreak| >= 1 && SmokeBreak[0] == 'I'
    ensures |HelpText| >= 1 && HelpText[0] == 'H'
  {
  }

  /** A request that passes the gates (no "-help", the channel ready, and every
      channel of the guild ready when the guild scope is asked for) gets
      neither a fixed text nor the untracked-channel failure. */
  lemma PastTheGates(store: Store, ready: Readiness, request: Message, ownerID: string,
                     names: Labeler, b: Boundaries)
    requires "-help" !in RequestTokens(request.content)
    requires Tracked(ready, request) && ready[request.guildID][request.channelID]
    requires GuildScope(RequestTokens(request.content)) ==> AllReady(ready[request.guildID])
    ensures var r := Answer(store, ready, request, ownerID, names, b);
      r != Ok(SmokeBreak) && r != Ok(HelpText) && r != Err(UntrackedChannel)
  {
    var tokens := RequestTokens(request.content);
    var sel := RequestSelection(request, tokens, b);
    if request.author.Some? && Query(store, sel).Some? {
      var mention := request.author.value.id == ownerID && WantsTags(tokens);
      ReportStartsWithRank(Query(store, sel).value, names, request.guildID, mention);
    }
  }

  /** What a request that passes the gates gets: the failure for a missing
      author or an empty query, and otherwise the report of the query's
      series, with mentions only when the requester is the guild owner and
      asked for "-tag" or "-tags". */
  lemma AnswerReport(store: Store, ready: Readiness, request: Message, ownerID: string,
                     names: Labeler, b: Boundaries)
    requires "-help" !in RequestTokens(request.content)
    requires Tracked(ready, request) && ready[request.guildID][request.channelID]
    requires GuildScope(RequestTokens(request.content)) ==> AllReady(ready[request.guildID])
    ensures var tokens := RequestTokens(request.content);
      var series := Query(store, RequestSelection(request, tokens, b));
      var r := Answer(store, ready, request, ownerID, names, b);
      && (request.author.None? ==> r == Err(NoAuthor))
      && (request.author.Some? ==> (series.None? <==> r == Err(NoSeries)))
      && (request.author.Some? && series.Some? ==>
            r == Ok(Report(series.value, names, request.guildID,
                           request.author.value.id == ownerID && WantsTags(tokens))))
  {
  }

  /** A request that passes the gates, has an author and selects points
      gets one line per series, the i-th ranking the i-th series of the
      ranking as number i + 1, when no label spans lines. */
  lemma AnswerLines(store: Store, ready: Readiness, request: Message, ownerID: string,
                    names: Labeler, b: Boundaries)
    requires "-help" !in RequestTokens(request.content)
    requires Tracked(ready, request) && ready[request.guildID][request.channelID]
    requires GuildScope(RequestTokens(request.content)) ==> AllReady(ready[request.guildID])
    requires request.author.Some?
    requires forall a, m :: OneLine(names(a, request.guildID, m))
    ensures var tokens := RequestTokens(request.content);
      var series := Query(store, RequestSelection(request, tokens, b));
      var mention := request.author.value.id == ownerID && WantsTags(tokens);
      var r := Answer(store, ready, request, ownerID, names, b);
      series.Some? ==>
        && r.Ok?
        && var lines := Split(r.value, Literal('\n'));
        && |lines| == |series.value|
        && forall i :: 0 <= i < |lines| ==>
             lines[i] == Line(i + 1, Ranked(series.value)[i], names, request.guildID, mention)
  {
    var tokens := RequestTokens(request.content);
    var series := Query(store, RequestSelection(request, tokens, b));
    var mention := request.author.value.id == ownerID && WantsTags(tokens);
    AnswerReport(store, ready, request, ownerID, names, b);
    if series.Some? {
      QueryNoSeries(store, RequestSelection(request, tokens, b));
      ReportLines(series.value, names, request.guildID, mention);
    }
  }

  // ---------------------------------------------------------------------------
  // The handler

  /** The outcome of a request: nothing when the bot may not write in the
      channel, otherwise the answer. */
  datatype Outcome = NoPermission | Replied(answer: Result<string, Failure>)

  class DatabaseHandler {
    /** The database, which outlives the handler. */
    var store: Store
    /** The live batch: written before every answer and on close. */
    const batchPoints: Batch
    var backfilledChannels: Readiness

    constructor (existing: Store)
      ensures store == existing && backfilledChannels == map[]
      ensures fresh(batchPoints) && batchPoints.points == []
    {
      store := existing;
      batchPoints := new Batch();
      backfilledChannels := map[];
    }

    /** Writes a batch unless it is empty; the batch keeps its points. */
    method WriteBatch(batch: Batch)
      modifies this`store
      ensures store == Write(old(store), batch.points)
      ensures batch.points == [] ==> store == old(store)
    {
      if batch.points != [] {
        store := Write(store, batch.points);
      }
    }

    /** Records a message in the given batch and hands it back. */
    method AddMessage(message: Message, batch: Batch) returns (r: Message)
      requires message.author.Some?
      modifies batch
      ensures r == message
      ensures batch.points == old(batch.points) + [MessagePoint(message)]
    {
      batch.Add(MessagePoint(message));
      r := message;
    }

    /** Records a live message in the live batch. */
    method AddLiveMessage(message: Message) returns (r: Message)
      requires message.author.Some?
      modifies batchPoints
      ensures r == message
      ensures batchPoints.points == old(batchPoints.points) + [MessagePoint(message)]
    {
      r := AddMessage(message, batchPoints);
    }

    /** A deletion appends to the live batch a zero point with the identity of
      the stored point at that channel and time, whose author it reads from the
      database; with no such stored point the lookup fails and nothing is
      appended. The database itself changes only at the next write. */
    method DeleteMessage(guildID: string, channelID: string, messageTime: int) returns (r: Option<Point>)
      modifies batchPoints
      ensures r.None? <==> forall k :: k in store ==>
        !(k.measurement == GuildMeasurement(guildID) && k.channelID == ChannelTag(channelID) && k.time == messageTime)
      ensures r.Some? ==> r.value.key in store && r.value.isValid == 0
      ensures r.Some? ==> (r.value.key.measurement == GuildMeasurement(guildID) &&
                           r.value.key.channelID == ChannelTag(channelID) && r.value.key.time == messageTime)
      ensures batchPoints.points == old(batchPoints.points) + (if r.Some? then [r.value] else [])
    {
      var author := StoredAuthor(store, GuildMeasurement(guildID), ChannelTag(channelID), messageTime);
      if author.None? {
        return None;
      }
      var p := Point(Key(GuildMeasurement(guildID), ChannelTag(channelID), author.value, messageTime), 0);
      batchPoints.Add(p);
      r := Some(p);
    }

    /** The start of a channel's backfill: the window to read from the latest
      stored point of the guild, a fresh batch for the channel, and the channel
      marked not ready, even if it was ready before. */
    method StartBackfill(guildID: string, channelID: string) returns (window: Window, channelBatch: Batch)
      modifies this`backfilledChannels
      ensures window == BackfillWindow(store, guildID)
      ensures fresh(channelBatch) && channelBatch.points == []
      ensures var channels := if guildID in old(backfilledChannels) then old(backfilledChannels)[guildID] else map[];
        backfilledChannels == old(backfilledChannels)[guildID := channels[channelID := false]]
    {
      channelBatch := new Batch();
      window := BackfillWindow(store, guildID);
      if guildID !in backfilledChannels {
        backfilledChannels := backfilledChannels[guildID := map[]];
      }
      backfilledChannels := backfilledChannels[guildID := backfilledChannels[guildID][channelID := false]];
    }

    /** The end of a channel's backfill: the history that was read goes into
      the channel batch up to the first message without an author, the batch
      is written, and only then is the channel marked ready. */
    method FinishBackfill(guildID: string, channelID: string, history: seq<Message>, channelBatch: Batch)
      requires guildID in backfilledChannels
      modifies channelBatch, this`store, this`backfilledChannels
      ensures channelBatch.points == old(channelBatch.points) + BackfillPoints(history)
      ensures store == Write(old(store), channelBatch.points)
      ensures backfilledChannels == old(backfilledChannels)[guildID := old(backfilledChannels)[guildID][channelID := true]]
    {
      var n := FirstAuthorless(history);
      var i := 0;
      while i < |history| && history[i].author.Some?
        invariant 0 <= i <= n
        invariant channelBatch.points == old(channelBatch.points) + HumanPoints(history[..i])
        invariant store == old(store) && backfilledChannels == old(backfilledChannels)
      {
        assert history[..i + 1][..i] == history[..i];
        if !history[i].author.value.isBot {
          var _ := AddMessage(history[i], channelBatch);
        }
        i := i + 1;
      }
      WriteBatch(channelBatch);
      backfilledChannels := backfilledChannels[guildID := backfilledChannels[guildID][channelID := true]];
    }

    /** The answer to a request, against the current database and readiness. */
    method AnswerRequest(request: Message, ownerID: string, names: Labeler, b: Boundaries)
      returns (r: Result<string, Failure>)
      ensures r == Answer(store, backfilledChannels, request, ownerID, names, b)
    {
      var tokens := RequestTokens(request.content);
      if "-help" in tokens {
        return Ok(HelpText);
      }
      if !Tracked(backfilledChannels, request) {
        return Err(UntrackedChannel);
      }
      if !backfilledChannels[request.guildID][request.channelID] {
        return Ok(SmokeBreak);
      }
      if GuildScope(tokens) && !AllReady(backfilledChannels[request.guildID]) {
        return Ok(SmokeBreak);
      }
      var interval := PickInterval(tokens, b);
      if request.author.None? {
        return Err(NoAuthor);
      }
      var mention := request.author.value.id == ownerID && WantsTags(tokens);
      var sel := Selection(GuildMeasurement(request.guildID),
                           if GuildScope(tokens) then None else Some(ChannelTag(request.channelID)),
                           interval);
      var series := Query(store, sel);
      if series.None? {
        return Err(NoSeries);
      }
      r := Ok(Report(series.value, names, request.guildID, mention));
    }

    /** A request: nothing when the bot may not send in the channel; otherwise
      the live batch is written first, so the answer counts every message
      recorded before it. */
    method ProcessRequest(canSend: bool, request: Message, ownerID: string, names: Labeler, b: Boundaries)
      returns (outcome: Outcome)
      modifies this`store
      ensures !canSend ==> outcome == NoPermission && store == old(store)
      ensures canSend ==> store == Write(old(store), batchPoints.points)
      ensures canSend ==> outcome == Replied(Answer(store, backfilledChannels, request, ownerID, names, b))
    {
      if !canSend {
        return NoPermission;
      }
      WriteBatch(batchPoints);
      var answer := AnswerRequest(request, ownerID, names, b);
      outcome := Replied(answer);
    }

    /** Shutting down writes the live batch. */
    method Close()
      modifies this`store
      ensures store == Write(old(store), batchPoints.points)
    {
      WriteBatch(batchPoints);
    }
  }

  /** Once a channel's backfill has finished, a request in that channel for
      the channel alone passes the readiness gate. */
  lemma ReadyAfterBackfill(before: Readiness, store: Store, request: Message, ownerID: string,
                           names: Labeler, b: Boundaries)
    requires request.guildID in before
    requires "-help" !in RequestTokens(request.content)
    requires !GuildScope(RequestTokens(request.content))
    ensures var ready := before[request.guildID := before[request.guildID][request.channelID := true]];
      var r := Answer(store, ready, request, ownerID, names, b);
      r != Ok(SmokeBreak) && r != Err(UntrackedChannel)
  {
    var ready := before[request.guildID := before[request.guildID][request.channelID := true]];
    PastTheGates(store, ready, request, ownerID, names, b);
  }
}

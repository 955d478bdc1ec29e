/** The bot's earlier standalone pipeline: every message with content from a
    human author who is a member of the guild is recorded in the measurement
    "messages", a message that starts with "&Kat" also asks for a ranking of
    the channel, and deleted messages are retracted lazily. All recording
    goes through one batch that lives as long as the program. */
module ChatKat {
  import opened Wrappers
  import opened Text
  import StableSort
  import opened Ledger
  import opened Platform

  const Measurement: string := "messages"

  /** Messages the pipeline records: from a human author, with content. */
  predicate Recorded(m: Message)
  {
    m.author.Some? && !m.author.value.isBot && m.content.Some?
  }

  /** The platform's member lookup: a guild id and a user id give that
      member's mention, or nothing when the user is not, or no longer, a
      member of the guild, in which case the blocking lookup fails. */
  type Members = (string, string) -> Option<string>

  /** Whether the author of m is a member of m's guild. */
  predicate AuthorIsMember(m: Message, members: Members)
    requires m.author.Some?
  {
    members(m.guildID, m.author.value.id).Some?
  }

  /** Messages that end up in the batch: those the filter lets through whose
      author's member lookup succeeds. */
  predicate Counted(m: Message, members: Members)
  {
    Recorded(m) && AuthorIsMember(m, members)
  }

  /** A counted message asks for a ranking when its content starts with
      "&Kat", case included. */
  predicate IsRequest(m: Message, members: Members)
  {
    Counted(m, members) && StartsWith(m.content.value, "&Kat")
  }

  /** The point recording a message: channel and author behind their
      prefixes, the message time, and isValid 1. */
  function LivePoint(m: Message): (p: Point)
    requires m.author.Some?
    ensures p.key.measurement == Measurement && p.isValid == 1
    ensures Prefixed(p.key.channelID, 'c', m.channelID)
    ensures Prefixed(p.key.authorID, 'a', m.author.value.id)
    ensures p.key.time == m.timestamp
  {
    Point(Key(Measurement, "c" + m.channelID, "a" + m.author.value.id, m.timestamp), 1)
  }

  // ---------------------------------------------------------------------------
  // The interval flag

  /** setInterval: the flag names and their instants. */
  function IntervalTable(b: Boundaries): map<string, int>
  {
    map["year" := b.year, "month" := b.month, "week" := b.week, "day" := b.day]
  }

  /** The instant of the last segment whose lower-cased form is a flag name,
      or 0 (the epoch) when no segment is one. */
  function LastSegmentBound(segments: seq<string>, table: map<string, int>): int
  {
    if segments == [] then 0
    else
      var last := Lower(segments[|segments| - 1]);
      if last in table then table[last] else LastSegmentBound(segments[..|segments| - 1], table)
  }

  /** The segments of a request: its text split at every '-'. */
  function Segments(request: string): seq<string>
  {
    JavaSplit(request, Literal('-'))
  }

  /** The loop over the segments of the request: a segment that names a flag
      overwrites the bound. */
  method SegmentInterval(request: string, b: Boundaries) returns (interval: int)
    ensures interval == LastSegmentBound(Segments(request), IntervalTable(b))
  {
    var segments := Segments(request);
    var table := IntervalTable(b);
    interval := 0;
    for i := 0 to |segments|
      invariant interval == LastSegmentBound(segments[..i], table)
    {
      assert segments[..i + 1][..i] == segments[..i];
      var s := Lower(segments[i]);
      if s in table {
        interval := table[s];
      }
    }
    assert segments[..|segments|] == segments;
  }

  /** The last segment that names a flag decides the bound; with none, the
      bound is the epoch. */
  lemma {:induction false} LastSegmentWins(segments: seq<string>, table: map<string, int>, i: nat)
    requires i < |segments| && Lower(segments[i]) in table
    requires forall j :: i < j < |segments| ==> Lower(segments[j]) !in table
    ensures LastSegmentBound(segments, table) == table[Lower(segments[i])]
  {
    if i < |segments| - 1 {
      var front := segments[..|segments| - 1];
      assert front[i] == segments[i];
      assert forall j :: i < j < |front| ==> front[j] == segments[j];
      LastSegmentWins(front, table, i);
    }
  }

  lemma {:induction false} NoSegmentNoBound(segments: seq<string>, table: map<string, int>)
    requires forall j :: 0 <= j < |segments| ==> Lower(segments[j]) !in table
    ensures LastSegmentBound(segments, table) == 0
  {
    if segments != [] {
      var front := segments[..|segments| - 1];
      assert forall j :: 0 <= j < |front| ==> front[j] == segments[j];
      NoSegmentNoBound(front, table);
    }
  }

  /** A segment counts only when it is exactly a flag name: "week " (with the
      space before the next flag) is none, so in "&Kat -week -day" the day
      flag wins, but "&Kat -day -week" selects the week. */
  lemma SegmentExamples(b: Boundaries)
    ensures LastSegmentBound(["&Kat ", "week ", "day"], IntervalTable(b)) == b.day
    ensures LastSegmentBound(["&Kat ", "day ", "week"], IntervalTable(b)) == b.week
    ensures LastSegmentBound(["&Kat ", "week ", "day "], IntervalTable(b)) == 0
  {
    var table := IntervalTable(b);
    LowerExamples();
    assert Lower("&Kat ") !in table && "week " !in table && "day " !in table;
    LastSegmentWins(["&Kat ", "week ", "day"], table, 2);
    LastSegmentWins(["&Kat ", "day ", "week"], table, 2);
    NoSegmentNoBound(["&Kat ", "week ", "day "], table);
  }

  lemma LowerExamples()
    ensures |Lower("&Kat ")| == 5 && Lower("&Kat ")[0] == '&'
    ensures Lower("week ") == "week " && Lower("day ") == "day "
    ensures Lower("day") == "day" && Lower("week") == "week"
  {
    LowerOfLowerCase("week ");
    LowerOfLowerCase("day ");
    LowerOfLowerCase("day");
    LowerOfLowerCase("week");
  }

  // ---------------------------------------------------------------------------
  // Ranking by the text of the sum

  /** The comparator of seriesList.sort: the series whose sum reads later
      in compareTo order comes first. */
  function ByText(): (Series, Series) -> bool
  {
    (a: Series, b: Series) => LexLess(SumText(b.sum), SumText(a.sum))
  }

  lemma ByTextOrder()
    ensures StableSort.StrictWeakOrder(ByText())
  {
    var before := ByText();
    forall a ensures !before(a, a) {
      LexLessIrreflexive(SumText(a.sum));
    }
    forall a, b, c | before(a, b) && before(b, c) ensures before(a, c) {
      LexLessTransitive(SumText(c.sum), SumText(b.sum), SumText(a.sum));
    }
    forall a, b, c | !before(a, b) && !before(b, c) ensures !before(a, c) {
      var ta, tb, tc := SumText(a.sum), SumText(b.sum), SumText(c.sum);
      LexLessTotal(ta, tb);
      LexLessTotal(tb, tc);
      if LexLess(tc, ta) {
        if ta != tb && tb != tc {
          LexLessTransitive(ta, tb, tc);
          LexLessAsymmetric(ta, tc);
        } else if ta != tb {
          LexLessAsymmetric(ta, tb);
        } else if tb != tc {
          LexLessAsymmetric(tb, tc);
        } else {
          LexLessIrreflexive(ta);
        }
      }
    }
  }

  /** Text order is not number order: a sum of 9 ranks above a sum of 10,
      since "9.0" follows "10.0". */
  lemma NineBeforeTen(x: string, y: string)
    ensures ByText()(Series(x, 9), Series(y, 10))
  {
    assert SumText(9) == "9.0";
    assert SumText(10) == "10.0";
  }

  /** Only series with the same sum tie, so the ranking keeps the query's
      order among series with equal sums and no others. */
  lemma ByTextTies(a: Series, b: Series)
    ensures StableSort.Tied(ByText(), a, b) <==> a.sum == b.sum
  {
    var ta, tb := SumText(a.sum), SumText(b.sum);
    LexLessTotal(ta, tb);
    if ta == tb {
      assert ta[..|ta| - 2] == NatToString(a.sum);
      assert tb[..|tb| - 2] == NatToString(b.sum);
      NatToStringInjective(a.sum, b.sum);
    }
    if a.sum == b.sum {
      LexLessIrreflexive(ta);
    }
  }

  /** The in-place sort leaves the same series, ordered by the text of the
      sum from the latest to the earliest in compareTo order. */
  lemma RankingProperties(series: seq<Series>)
    ensures multiset(StableSort.Sort(series, ByText())) == multiset(series)
    ensures StableSort.SortedBy(StableSort.Sort(series, ByText()), ByText())
    ensures forall i, j :: 0 <= i < j < |series| ==>
      !LexLess(SumText(StableSort.Sort(series, ByText())[i].sum), SumText(StableSort.Sort(series, ByText())[j].sum))
  {
    ByTextOrder();
    StableSort.SortPermutes(series, ByText());
    StableSort.SortSorted(series, ByText());
  }

  // ---------------------------------------------------------------------------
  // Rendering

  /** The line of the rank-th series: its entry, a space and a line break. */
  function RenderLine(rank: nat, s: Series, mention: string -> string): string
  {
    RankText(rank, mention(TagValue(s.authorID)), s.sum) + " \n"
  }

  /** The lines of a ranking, numbered from 1, one after the other. */
  function Rendered(ranked: seq<Series>, mention: string -> string): string
  {
    if ranked == [] then ""
    else Rendered(ranked[..|ranked| - 1], mention) + RenderLine(|ranked|, ranked[|ranked| - 1], mention)
  }

  /** The mention the lookup gives a user of the guild; empty when the lookup
      fails, which never reaches the output. */
  function MentionOf(members: Members, guildID: string): string -> string
  {
    id => match members(guildID, id) case Some(mention) => mention case None => ""
  }

  /** Every series of the list names a member of the guild. */
  predicate AllMembers(ranked: seq<Series>, guildID: string, members: Members)
  {
    forall i :: 0 <= i < |ranked| ==> members(guildID, TagValue(ranked[i].authorID)).Some?
  }

  /** The StringBuilder loop over the sorted list. A member lookup that fails
      ends the loop with an error, and nothing is sent. */
  method Render(ranked: array<Series>, guildID: string, members: Members) returns (output: Option<string>)
    ensures AllMembers(ranked[..], guildID, members) ==> output == Some(Rendered(ranked[..], MentionOf(members, guildID)))
    ensures !AllMembers(ranked[..], guildID, members) ==> output == None
  {
    var text := "";
    for i := 0 to ranked.Length
      invariant AllMembers(ranked[..i], guildID, members)
      invariant text == Rendered(ranked[..i], MentionOf(members, guildID))
    {
      var who := members(guildID, TagValue(ranked[i].authorID));
      if who.None? {
        MissingMember(ranked[..], i, guildID, members);
        return None;
      }
      RenderStep(ranked[..], i, guildID, members, who.value);
      text := text + (RankText(i + 1, who.value, ranked[i].sum) + " \n");
    }
    assert ranked[..ranked.Length] == ranked[..];
    output := Some(text);
  }

  /** One more member lookup that succeeds extends the rendered prefix by
      that member's line. */
  lemma RenderStep(ranked: seq<Series>, i: nat, guildID: string, members: Members, who: string)
    requires i < |ranked| && members(guildID, TagValue(ranked[i].authorID)) == Some(who)
    ensures AllMembers(ranked[..i], guildID, members) ==> AllMembers(ranked[..i + 1], guildID, members)
    ensures Rendered(ranked[..i + 1], MentionOf(members, guildID)) ==
            Rendered(ranked[..i], MentionOf(members, guildID)) + (RankText(i + 1, who, ranked[i].sum) + " \n")
  {
    assert ranked[..i + 1][..i] == ranked[..i];
  }

  lemma MissingMember(ranked: seq<Series>, i: nat, guildID: string, members: Members)
    requires i < |ranked| && members(guildID, TagValue(ranked[i].authorID)).None?
    ensures !AllMembers(ranked, guildID, members)
  {
  }

  /** A line of the output holds exactly one line break, its last
      character, when the mention spans one line. */
  lemma RenderLineBreaks(rank: nat, s: Series, mention: string -> string)
    requires NoDelimiter(mention(TagValue(s.authorID)), Literal('\n'))
    ensures var line := RenderLine(rank, s, mention);
      Occurrences(line, '\n') == 1 && |line| >= 2 && line[|line| - 2..] == " \n"
  {
    var body := RankText(rank, mention(TagValue(s.authorID)), s.sum);
    RankTextOneLine(rank, mention(TagValue(s.authorID)), s.sum);
    OccurrencesAbsent(body, '\n');
    OccurrencesAppend(body, " \n", '\n');
    AppendSuffix(body, " \n");
  }

  /** When no mention spans lines, the output has exactly one line break per
      series. */
  lemma {:induction false} RenderedLines(ranked: seq<Series>, mention: string -> string)
    requires forall i :: 0 <= i < |ranked| ==> NoDelimiter(mention(TagValue(ranked[i].authorID)), Literal('\n'))
    ensures Occurrences(Rendered(ranked, mention), '\n') == |ranked|
  {
    if ranked != [] {
      var front, last := ranked[..|ranked| - 1], ranked[|ranked| - 1];
      RenderedLines(front, mention);
      RenderLineBreaks(|ranked|, last, mention);
      OccurrencesAppend(Rendered(front, mention), RenderLine(|ranked|, last, mention), '\n');
    }
  }

  /** The output of a non-empty ranking ends with " \n". */
  lemma RenderedEnd(ranked: seq<Series>, mention: string -> string)
    requires ranked != []
    ensures var out := Rendered(ranked, mention);
      |out| >= 2 && out[|out| - 2..] == " \n"
  {
    var front := Rendered(ranked[..|ranked| - 1], mention);
    var last := ranked[|ranked| - 1];
    var body := RankText(|ranked|, mention(TagValue(last.authorID)), last.sum);
    AppendAssociates(front, body, " \n");
    AppendSuffix(front + body, " \n");
  }

  // ---------------------------------------------------------------------------
  // The pipeline

  /** The query of a request: the request's channel, from its interval on. */
  function RequestSelection(m: Message, b: Boundaries): (sel: Selection)
    requires m.content.Some?
    ensures sel.measurement == Measurement && sel.channel == Some("c" + m.channelID)
    ensures sel.since == LastSegmentBound(Segments(m.content.value), IntervalTable(b))
  {
    Selection(Measurement, Some("c" + m.channelID), LastSegmentBound(Segments(m.content.value), IntervalTable(b)))
  }

  /** The reply to a request against a store: the rendered ranking of the
      channel's counts. There is none when nothing is selected, since sorting
      the missing series list fails, and none when a ranked author's member
      lookup fails; both failures are skipped. */
  function Reply(store: Store, m: Message, members: Members, b: Boundaries): Option<string>
    requires m.content.Some?
  {
    match Query(store, RequestSelection(m, b))
    case None => None
    case Some(series) =>
      var ranked := StableSort.Sort(series, ByText());
      if AllMembers(ranked, m.guildID, members) then Some(Rendered(ranked, MentionOf(members, m.guildID))) else None
  }

  /** A request gets no reply exactly when it selects no point, or when one
      of the authors it selects is no longer a member of the guild. */
  lemma ReplyMissing(store: Store, m: Message, members: Members, b: Boundaries)
    requires m.content.Some?
    ensures var sel := RequestSelection(m, b);
      Reply(store, m, members, b).None? <==>
        (forall k :: k in store ==> !Selected(sel, k)) ||
        (exists a :: a in Authors(store, sel) && members(m.guildID, TagValue(a)).None?)
  {
    var sel := RequestSelection(m, b);
    QueryNoSeries(store, sel);
    if Query(store, sel).Some? {
      var series := Query(store, sel).value;
      StableSort.SortPermutes(series, ByText());
      PermutedMembers(series, StableSort.Sort(series, ByText()), m.guildID, members);
      QueryMembers(store, sel, m.guildID, members);
    }
  }

  /** Reordering a list does not change whether all its authors are members. */
  lemma PermutedMembers(series: seq<Series>, ranked: seq<Series>, guildID: string, members: Members)
    requires multiset(ranked) == multiset(series)
    ensures AllMembers(ranked, guildID, members) <==> AllMembers(series, guildID, members)
  {
    if !AllMembers(ranked, guildID, members) {
      var j :| 0 <= j < |ranked| && members(guildID, TagValue(ranked[j].authorID)).None?;
      assert ranked[j] in multiset(series);
      var i :| 0 <= i < |series| && series[i] == ranked[j];
    }
    if !AllMembers(series, guildID, members) {
      var i :| 0 <= i < |series| && members(guildID, TagValue(series[i].authorID)).None?;
      assert series[i] in multiset(ranked);
      var j :| 0 <= j < |ranked| && ranked[j] == series[i];
    }
  }

  /** All the series of a query name members exactly when all the selected
      authors are members. */
  lemma QueryMembers(store: Store, sel: Selection, guildID: string, members: Members)
    requires Query(store, sel).Some?
    ensures AllMembers(Query(store, sel).value, guildID, members) <==>
            forall a :: a in Authors(store, sel) ==> members(guildID, TagValue(a)).Some?
  {
    var series := Query(store, sel).value;
    if !AllMembers(series, guildID, members) {
      var i :| 0 <= i < |series| && members(guildID, TagValue(series[i].authorID)).None?;
      QueryCoversAuthors(store, sel, series[i].authorID);
    }
    forall a | a in Authors(store, sel) ensures members(guildID, TagValue(a)).Some? || !AllMembers(series, guildID, members) {
      QueryCoversAuthors(store, sel, a);
    }
  }

  /** The query of a request, copied into an array, sorted in place and
      rendered with a StringBuilder. */
  method Respond(store: Store, m: Message, members: Members, b: Boundaries) returns (reply: Option<string>)
    requires m.content.Some?
    ensures reply == Reply(store, m, members, b)
  {
    var interval := SegmentInterval(m.content.value, b);
    var sel := Selection(Measurement, Some("c" + m.channelID), interval);
    assert sel == RequestSelection(m, b);
    var series := Query(store, sel);
    if series.None? {
      return None;
    }
    var ranked := new Series[|series.value|](i requires 0 <= i < |series.value| => series.value[i]);
    assert ranked[..] == series.value;
    StableSort.SortInPlace(ranked, ByText());
    reply := Render(ranked, m.guildID, members);
  }

  /** A request counts itself: its own point is in the batch written before
      the query, after every earlier point, so the store holds it as valid,
      and a request inside its interval gets a reply unless an author it
      selects has left the guild. */
  lemma RequestCountsItself(store: Store, earlier: seq<Point>, m: Message, members: Members, b: Boundaries)
    requires IsRequest(m, members)
    ensures var after := Write(store, earlier + [LivePoint(m)]);
      && LivePoint(m).key in after && after[LivePoint(m).key] == 1
      && (m.timestamp >= RequestSelection(m, b).since ==>
            Reply(after, m, members, b).Some? ||
            exists a :: a in Authors(after, RequestSelection(m, b)) && members(m.guildID, TagValue(a)).None?)
  {
    var after := Write(store, earlier + [LivePoint(m)]);
    WriteLastWins(store, earlier + [LivePoint(m)], LivePoint(m).key);
    assert LastValue(earlier + [LivePoint(m)], LivePoint(m).key) == Some(1);
    ReplyMissing(after, m, members, b);
  }

  class ChatKat {
    /** The database, which outlives the program. */
    var store: Store
    /** The one batch of the program: never emptied. */
    const batchPoints: Batch
    /** Whether the history subscription still runs: a history message
        without an author ends it. */
    var historyOpen: bool
    /** Whether the deletion subscription still runs: a deletion whose
        stored point cannot be found ends it. */
    var deletesOpen: bool

    constructor (existing: Store)
      ensures store == existing && fresh(batchPoints) && batchPoints.points == []
      ensures historyOpen && deletesOpen
    {
      store := existing;
      batchPoints := new Batch();
      historyOpen := true;
      deletesOpen := true;
    }

    /** The static addMessage: the author's member lookup comes first; when
        it fails the method fails and nothing is added. */
    method AddMessage(m: Message, members: Members) returns (added: bool)
      requires m.author.Some?
      modifies batchPoints
      ensures added == AuthorIsMember(m, members)
      ensures batchPoints.points == old(batchPoints.points) + (if added then [LivePoint(m)] else [])
    {
      if members(m.guildID, m.author.value.id).None? {
        return false;
      }
      batchPoints.Add(LivePoint(m));
      added := true;
    }

    /** A message of a channel's history read when a guild becomes
        available: recorded when it has content and a human author who is a
        member. A message without an author, or a recorded one whose author's
        member lookup fails, ends the history subscription. */
    method OnHistoryMessage(m: Message, members: Members)
      modifies batchPoints, this`historyOpen
      ensures !old(historyOpen) ==> !historyOpen && batchPoints.points == old(batchPoints.points)
      ensures old(historyOpen) ==> (historyOpen <==> m.author.Some? && (Recorded(m) ==> AuthorIsMember(m, members)))
      ensures batchPoints.points == old(batchPoints.points) + (if old(historyOpen) && Counted(m, members) then [LivePoint(m)] else [])
    {
      if !historyOpen {
        return;
      }
      if m.author.None? {
        historyOpen := false;
        return;
      }
      if !m.author.value.isBot && m.content.Some? {
        var added := AddMessage(m, members);
        if !added {
          historyOpen := false;
        }
      }
    }

    /** A new message: recorded when it has content and a human author who is
      a member; a request is answered after the batch is written, from the
      sorted query of its channel. A failing member lookup drops the message,
      and the pipeline goes on with the next one. */
    method OnMessageCreate(m: Message, members: Members, b: Boundaries) returns (reply: Option<string>)
      modifies batchPoints, this`store
      ensures batchPoints.points == old(batchPoints.points) + (if Counted(m, members) then [LivePoint(m)] else [])
      ensures !IsRequest(m, members) ==> store == old(store) && reply == None
      ensures IsRequest(m, members) ==> store == Write(old(store), batchPoints.points)
      ensures IsRequest(m, members) ==> reply == Reply(store, m, members, b)
    {
      if !Recorded(m) {
        return None;
      }
      var added := AddMessage(m, members);
      if !added || !StartsWith(m.content.value, "&Kat") {
        return None;
      }
      store := Write(store, batchPoints.points);
      reply := Respond(store, m, members, b);
    }

    /** A deletion: a zero point with the identity of the stored point at that
      channel and time goes into the batch; when there is no such point the
      lookup fails and the deletion subscription ends. */
    method OnMessageDelete(channelID: string, messageTime: int) returns (r: Option<Point>)
      modifies batchPoints, this`deletesOpen
      ensures !old(deletesOpen) ==> r == None && !deletesOpen
      ensures old(deletesOpen) ==> (r.None? <==> forall k :: k in store ==>
        !(k.measurement == Measurement && k.channelID == "c" + channelID && k.time == messageTime))
      ensures deletesOpen == (old(deletesOpen) && r.Some?)
      ensures r.Some? ==> r.value.key in store && r.value.isValid == 0
      ensures r.Some? ==> (r.value.key.measurement == Measurement &&
                           r.value.key.channelID == "c" + channelID && r.value.key.time == messageTime)
      ensures batchPoints.points == old(batchPoints.points) + (if r.Some? then [r.value] else [])
    {
      if !deletesOpen {
        return None;
      }
      var author := StoredAuthor(store, Measurement, "c" + channelID, messageTime);
      if author.None? {
        deletesOpen := false;
        return None;
      }
      var p := Point(Key(Measurement, "c" + channelID, author.value, messageTime), 0);
      batchPoints.Add(p);
      r := Some(p);
    }

    /** On the way out the batch is written once more. */
    method Shutdown()
      modifies this`store
      ensures store == Write(old(store), batchPoints.points)
    {
      store := Write(store, batchPoints.points);
    }
  }
}

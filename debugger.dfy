/** The debug log: a CSV file with a header of 19 columns and one row per
    message with content. Free text is made safe for the file by tripling
    quotes and replacing commas and line breaks with spaces. */
module Debugger {
  import opened Wrappers
  import opened Text

  // ---------------------------------------------------------------------------
  // Field escaping

  /** replaceAll of one character by a fixed text (none of the characters
      involved is special to the regular expression or the replacement). */
  function ReplaceChar(s: string, c: char, repl: string): string
  {
    if s == [] then [] else (if s[0] == c then repl else [s[0]]) + ReplaceChar(s[1..], c, repl)
  }

  /** Each occurrence of c grows the text by what the replacement adds. */
  lemma {:induction false} ReplaceCharLength(s: string, c: char, repl: string)
    ensures |ReplaceChar(s, c, repl)| == |s| + Occurrences(s, c) * (|repl| - 1)
  {
    if s != [] {
      ReplaceCharLength(s[1..], c, repl);
    }
  }

  /** The three replaceAll passes: quotes tripled, then commas and line
      breaks turned into spaces. */
  function Passes(input: string): string
  {
    ReplaceChar(ReplaceChar(ReplaceChar(input, '"', "\"\"\""), ',', " "), '\n', " ")
  }

  /** The field text: the escaped input and the field's comma. */
  function Stringer(input: string): string
  {
    Passes(input) + ","
  }

  /** What one character becomes, by itself. */
  function EscapeChar(c: char): string
  {
    if c == '"' then "\"\"\"" else if c == ',' || c == '\n' then " " else [c]
  }

  /** The escaping character by character: every other character is kept,
      in order. */
  function Escaped(s: string): string
  {
    if s == [] then [] else EscapeChar(s[0]) + Escaped(s[1..])
  }

  lemma {:induction false} ReplaceCharAppend(a: string, b: string, c: char, repl: string)
    ensures ReplaceChar(a + b, c, repl) == ReplaceChar(a, c, repl) + ReplaceChar(b, c, repl)
  {
    if a == [] {
      assert a + b == b;
    } else {
      assert (a + b)[1..] == a[1..] + b;
      ReplaceCharAppend(a[1..], b, c, repl);
    }
  }

  lemma PassesAppend(a: string, b: string)
    ensures Passes(a + b) == Passes(a) + Passes(b)
  {
    ReplaceCharAppend(a, b, '"', "\"\"\"");
    var qa, qb := ReplaceChar(a, '"', "\"\"\""), ReplaceChar(b, '"', "\"\"\"");
    ReplaceCharAppend(qa, qb, ',', " ");
    ReplaceCharAppend(ReplaceChar(qa, ',', " "), ReplaceChar(qb, ',', " "), '\n', " ");
  }

  lemma PassesChar(x: char)
    ensures Passes([x]) == EscapeChar(x)
  {
    if x == '"' {
      assert ReplaceChar([x], '"', "\"\"\"") == "\"\"\"";
      assert ReplaceChar("\"\"\"", ',', " ") == "\"\"\"";
      assert ReplaceChar("\"\"\"", '\n', " ") == "\"\"\"";
    } else if x == ',' {
      assert ReplaceChar([x], '"', "\"\"\"") == [x];
      assert ReplaceChar([x], ',', " ") == " ";
      assert ReplaceChar(" ", '\n', " ") == " ";
    } else if x == '\n' {
      assert ReplaceChar([x], '"', "\"\"\"") == [x];
      assert ReplaceChar([x], ',', " ") == [x];
      assert ReplaceChar([x], '\n', " ") == " ";
    } else {
      assert ReplaceChar([x], '"', "\"\"\"") == [x];
      assert ReplaceChar([x], ',', " ") == [x];
      assert ReplaceChar([x], '\n', " ") == [x];
    }
  }

  /** The three passes of replaceAll escape each character on its own. */
  lemma {:induction false} StringerEscapes(s: string)
    ensures Passes(s) == Escaped(s)
    ensures Stringer(s) == Escaped(s) + ","
  {
    if s != [] {
      StringerEscapes(s[1..]);
      assert s == [s[0]] + s[1..];
      PassesAppend([s[0]], s[1..]);
      PassesChar(s[0]);
    }
  }

  lemma EscapeCharCounts(x: char)
    ensures Occurrences(EscapeChar(x), ',') == 0
    ensures Occurrences(EscapeChar(x), '\n') == 0
    ensures Occurrences(EscapeChar(x), '"') == 3 * Occurrences([x], '"')
    ensures |EscapeChar(x)| == 1 + 2 * Occurrences([x], '"')
  {
    assert Occurrences([x], '"') == if x == '"' then 1 else 0;
    if x == '"' {
      assert Occurrences("\"\"\"", '"') == 3;
    }
  }

  lemma {:induction false} EscapedCounts(s: string)
    ensures Occurrences(Escaped(s), ',') == 0
    ensures Occurrences(Escaped(s), '\n') == 0
    ensures Occurrences(Escaped(s), '"') == 3 * Occurrences(s, '"')
    ensures |Escaped(s)| == |s| + 2 * Occurrences(s, '"')
  {
    if s != [] {
      EscapedCounts(s[1..]);
      EscapeCharCounts(s[0]);
      assert s == [s[0]] + s[1..];
      OccurrencesAppend([s[0]], s[1..], '"');
      OccurrencesAppend(EscapeChar(s[0]), Escaped(s[1..]), ',');
      OccurrencesAppend(EscapeChar(s[0]), Escaped(s[1..]), '\n');
      OccurrencesAppend(EscapeChar(s[0]), Escaped(s[1..]), '"');
    }
  }

  /** A field ends with its comma and holds no other comma and no line break;
      it has three quotes for each quote of the input and is two characters
      longer for each of them, plus the comma. */
  lemma StringerProperties(s: string)
    ensures var f := Stringer(s);
      && |f| == |s| + 2 * Occurrences(s, '"') + 1
      && f[|f| - 1] == ','
      && Occurrences(f, ',') == 1
      && Occurrences(f, '\n') == 0
      && Occurrences(f, '"') == 3 * Occurrences(s, '"')
  {
    StringerEscapes(s);
    EscapedCounts(s);
    OccurrencesAppend(Escaped(s), ",", ',');
    OccurrencesAppend(Escaped(s), ",", '\n');
    OccurrencesAppend(Escaped(s), ",", '"');
  }

  // ---------------------------------------------------------------------------
  // Header and rows

  /** The header: 19 column names, each followed by a comma, then a line
      break. The columns are grouped here as identities, message data and
      extra data. */
  const IdColumns: string :=
    "GuildID," + "GuildName," + "ChannelID," + "ChannelName," + "MessageID," + "TimeStamp,"
  const DataColumns: string :=
    "MessageType," + "MessageClass," + "AuthorUsername," + "AuthorID," + "Content," + "Embeds,"
    + "Attachment,"
  const ExtraColumns: string :=
    "MessageType," + "MessageClass," + "EditTimeStamp," + "HashCode," + "MessageReference Bool,"
    + "WebhookID else Epoch Snowflake,"
  const Header: string := IdColumns + DataColumns + ExtraColumns + "\n"

  /** What the log reads from a message, as the platform renders each value. */
  datatype DebugMessage = DebugMessage(
    guildID: string, guildName: string, channelID: string, channelName: string,
    messageID: string, timestamp: string, messageType: string, messageClass: string,
    authorName: string, authorID: string, content: Option<string>,
    embeds: string, attachments: string, editedTimestamp: Option<string>,
    hashCode: int, hasReference: bool, webhookID: string)

  /** Instant.EPOCH.toString(). */
  const EpochText: string := "1970-01-01T00:00:00Z"

  function BoolText(b: bool): string
  {
    if b then "true" else "false"
  }

  /** String.valueOf of an int. */
  function IntText(i: int): string
  {
    if i < 0 then "-" + NatToString(-i) else NatToString(i)
  }

  /** The 18 values after the guild id, in column order. */
  function RowValues(m: DebugMessage): (r: seq<string>)
    ensures |r| == 18
  {
    [m.guildName, m.channelID, m.channelName, m.messageID, m.timestamp,
     m.messageType, m.messageClass, m.authorName, m.authorID,
     match m.content case Some(c) => c case None => "NO CONTENT",
     m.embeds, m.attachments, m.messageType, m.messageClass,
     match m.editedTimestamp case Some(t) => t case None => EpochText,
     IntText(m.hashCode), BoolText(m.hasReference), m.webhookID]
  }

  /** The escaped fields, one after the other. */
  function Fields(values: seq<string>): string
  {
    if values == [] then "" else Stringer(values[0]) + Fields(values[1..])
  }

  function Row(m: DebugMessage): string
  {
    m.guildID + "," + Fields(RowValues(m)) + "\n"
  }

  lemma {:induction false} FieldsCounts(values: seq<string>)
    ensures Occurrences(Fields(values), ',') == |values|
    ensures Occurrences(Fields(values), '\n') == 0
  {
    if values != [] {
      FieldsCounts(values[1..]);
      StringerProperties(values[0]);
      OccurrencesAppend(Stringer(values[0]), Fields(values[1..]), ',');
      OccurrencesAppend(Stringer(values[0]), Fields(values[1..]), '\n');
    }
  }

  /** A column name followed by its comma, and no other comma. */
  predicate ClosedColumn(column: string)
  {
    |column| >= 1 && column[|column| - 1] == ',' && forall i :: 0 <= i < |column| - 1 ==> column[i] != ','
  }

  lemma ColumnComma(column: string)
    requires ClosedColumn(column)
    ensures Occurrences(column, ',') == 1
  {
    var name := column[..|column| - 1];
    assert column == name + ",";
    OccurrencesAbsent(name, ',');
    OccurrencesAppend(name, ",", ',');
  }

  /** Six closed columns in a row hold six commas. */
  lemma SixColumns(a: string, b: string, c: string, d: string, e: string, f: string)
    requires ClosedColumn(a) && ClosedColumn(b) && ClosedColumn(c)
    requires ClosedColumn(d) && ClosedColumn(e) && ClosedColumn(f)
    ensures Occurrences(a + b + c + d + e + f, ',') == 6
  {
    ColumnComma(a);
    ColumnComma(b);
    ColumnComma(c);
    ColumnComma(d);
    ColumnComma(e);
    ColumnComma(f);
    OccurrencesAppend(a, b, ',');
    OccurrencesAppend(a + b, c, ',');
    OccurrencesAppend(a + b + c, d, ',');
    OccurrencesAppend(a + b + c + d, e, ',');
    OccurrencesAppend(a + b + c + d + e, f, ',');
  }

  lemma SevenColumns(a: string, b: string, c: string, d: string, e: string, f: string, g: string)
    requires ClosedColumn(a) && ClosedColumn(b) && ClosedColumn(c) && ClosedColumn(d)
    requires ClosedColumn(e) && ClosedColumn(f) && ClosedColumn(g)
    ensures Occurrences(a + b + c + d + e + f + g, ',') == 7
  {
    SixColumns(a, b, c, d, e, f);
    ColumnComma(g);
    OccurrencesAppend(a + b + c + d + e + f, g, ',');
  }

  lemma IdColumnsCommas()
    ensures Occurrences(IdColumns, ',') == 6
  {
    SixColumns("GuildID,", "GuildName,", "ChannelID,", "ChannelName,", "MessageID,", "TimeStamp,");
  }

  lemma DataColumnsCommas()
    ensures Occurrences(DataColumns, ',') == 7
  {
    SevenColumns("MessageType,", "MessageClass,", "AuthorUsername,", "AuthorID,", "Content,", "Embeds,",
                 "Attachment,");
  }

  lemma ExtraColumnsCommas()
    ensures Occurrences(ExtraColumns, ',') == 6
  {
    SixColumns("MessageType,", "MessageClass,", "EditTimeStamp,", "HashCode,", "MessageReference Bool,",
               "WebhookID else Epoch Snowflake,");
  }

  /** The header has 19 columns, each closed by a comma, and one line break
      at its end. */
  lemma HeaderShape()
    ensures Occurrences(Header, ',') == 19
    ensures Header[|Header| - 1] == '\n'
  {
    IdColumnsCommas();
    DataColumnsCommas();
    ExtraColumnsCommas();
    OccurrencesAppend(IdColumns, DataColumns, ',');
    OccurrencesAppend(IdColumns + DataColumns, ExtraColumns, ',');
    OccurrencesAppend(IdColumns + DataColumns + ExtraColumns, "\n", ',');
  }

  /** A row has as many comma-closed fields as the header has columns, when
      the guild id has no comma, and ends with its only line break when the
      guild id has none. */
  lemma RowShape(m: DebugMessage)
    requires Occurrences(m.guildID, ',') == 0
    ensures Occurrences(Row(m), ',') == 19
    ensures Row(m)[|Row(m)| - 1] == '\n'
    ensures Occurrences(m.guildID, '\n') == 0 ==> Occurrences(Row(m), '\n') == 1
  {
    FieldsCounts(RowValues(m));
    var fields := Fields(RowValues(m));
    OccurrencesAppend(m.guildID, ",", ',');
    OccurrencesAppend(m.guildID + ",", fields, ',');
    OccurrencesAppend(m.guildID + "," + fields, "\n", ',');
    OccurrencesAppend(m.guildID, ",", '\n');
    OccurrencesAppend(m.guildID + ",", fields, '\n');
    OccurrencesAppend(m.guildID + "," + fields, "\n", '\n');
  }

  // ---------------------------------------------------------------------------
  // The log file

  /** The rows of the given messages, one after the other. */
  function Rows(logged: seq<DebugMessage>): string
  {
    if logged == [] then "" else Rows(logged[..|logged| - 1]) + Row(logged[|logged| - 1])
  }

  /** A file of n rows whose guild ids hold no comma and no line break has
      n line breaks and 19 commas per line. */
  lemma {:induction false} RowsShape(logged: seq<DebugMessage>)
    requires forall i :: 0 <= i < |logged| ==>
      Occurrences(logged[i].guildID, ',') == 0 && Occurrences(logged[i].guildID, '\n') == 0
    ensures Occurrences(Rows(logged), '\n') == |logged|
    ensures Occurrences(Rows(logged), ',') == 19 * |logged|
  {
    if logged != [] {
      var front, last := logged[..|logged| - 1], logged[|logged| - 1];
      RowsShape(front);
      RowShape(last);
      OccurrencesAppend(Rows(front), Row(last), '\n');
      OccurrencesAppend(Rows(front), Row(last), ',');
    }
  }

  lemma RowsAppend(logged: seq<DebugMessage>, m: DebugMessage)
    ensures Rows(logged + [m]) == Rows(logged) + Row(m)
  {
    assert (logged + [m])[..|logged|] == logged;
  }

  class Debugger {
    /** The header the file was created with. */
    const header: string
    /** What has been appended to the file. */
    var written: string
    /** Appending to a closed writer fails, and the failure is only logged. */
    var open: bool
    /** The messages logged so far. */
    ghost var logged: seq<DebugMessage>

    ghost predicate Valid()
      reads this
    {
      written == header + Rows(logged)
    }

    constructor ()
      ensures Valid() && open && logged == [] && header == Header
    {
      header := Header;
      written := Header;
      open := true;
      logged := [];
      new;
      assert Rows(logged) == [];
      assert written == header + Rows(logged);
    }

    /** Logs a message when it has content and the file is still open. */
    method AddMessage(m: DebugMessage)
      requires Valid()
      modifies this
      ensures Valid() && open == old(open)
      ensures logged == old(logged) + (if old(open) && m.content.Some? then [m] else [])
      ensures written == old(written) + (if old(open) && m.content.Some? then Row(m) else "")
    {
      if m.content.Some? && open {
        RowsAppend(logged, m);
        AppendAssociates(header, Rows(logged), Row(m));
        written := written + Row(m);
        logged := logged + [m];
      }
    }

    method Close()
      modifies this
      ensures !open && written == old(written) && logged == old(logged)
    {
      open := false;
    }
  }
}

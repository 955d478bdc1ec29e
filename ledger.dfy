/** The activity ledger as the bot keeps it in a time-series database: one point
    per message, identified by its measurement, its channel and author tags and
    its time, carrying the field isValid (1 for a message that counts, 0 for one
    deleted or without content). Points are collected in batches and written
    later; a written point overwrites the earlier point of the same identity, so
    the database never deletes anything. */
module Ledger {
  import opened Wrappers
  import opened Text

  /** The identity of a point: measurement, channelID tag, authorID tag, time. */
  datatype Key = Key(measurement: string, channelID: string, authorID: string, time: int)

  /** The isValid field. */
  type Flag = x: int | 0 <= x <= 1

  datatype Point = Point(key: Key, isValid: Flag)

  /** The database contents: the isValid field of every stored point. */
  type Store = map<Key, Flag>

  /** A batch of points (BatchPoints): points are appended in place and kept;
      writing the batch does not empty it. */
  class Batch {
    var points: seq<Point>

    constructor ()
      ensures points == []
    {
      points := [];
    }

    method Add(p: Point)
      modifies this
      ensures points == old(points) + [p]
    {
      points := points + [p];
    }
  }

  /** tag is the id behind the one-letter prefix it is stored with. */
  predicate Prefixed(tag: string, prefix: char, id: string)
  {
    |tag| == |id| + 1 && tag[0] == prefix && tag[1..] == id
  }

  /** substring(1): the id behind a tag's prefix. */
  function TagValue(tag: string): (id: string)
    ensures |tag| >= 1 ==> Prefixed(tag, tag[0], id)
  {
    if tag == [] then [] else tag[1..]
  }

  // ---------------------------------------------------------------------------
  // Writing a batch

  /** The store after the points are written in order. */
  function Write(store: Store, points: seq<Point>): Store
  {
    if points == [] then store
    else
      var last := points[|points| - 1];
      Write(store, points[..|points| - 1])[last.key := last.isValid]
  }

  /** The isValid of the last point of the batch with identity k, if any. */
  function LastValue(points: seq<Point>, k: Key): Option<Flag>
  {
    if points == [] then None
    else if points[|points| - 1].key == k then Some(points[|points| - 1].isValid)
    else LastValue(points[..|points| - 1], k)
  }

  /** Writing keeps every stored identity, adds the batch's identities, gives
      each identity of the batch the value of its last point and leaves every
      other identity as it was. */
  lemma {:induction false} WriteLastWins(store: Store, points: seq<Point>, k: Key)
    ensures k in Write(store, points) <==> k in store || LastValue(points, k).Some?
    ensures LastValue(points, k).Some? ==> Write(store, points)[k] == LastValue(points, k).value
    ensures LastValue(points, k).None? && k in store ==> Write(store, points)[k] == store[k]
  {
    if points != [] {
      WriteLastWins(store, points[..|points| - 1], k);
    }
  }

  /** Writing a + b is writing a and then b. */
  lemma {:induction false} WriteConcat(store: Store, a: seq<Point>, b: seq<Point>)
    ensures Write(store, a + b) == Write(Write(store, a), b)
  {
    if b == [] {
      assert a + b == a;
    } else {
      assert (a + b)[..|a + b| - 1] == a + b[..|b| - 1];
      WriteConcat(store, a, b[..|b| - 1]);
    }
  }

  /** Writing a batch again, after points were appended to it, leaves the
      store as writing the longer batch once: a batch that is never cleared
      can be written any number of times. */
  lemma WriteAgain(store: Store, a: seq<Point>, b: seq<Point>)
    ensures Write(Write(store, a), a + b) == Write(store, a + b)
  {
    var once, twice := Write(store, a + b), Write(Write(store, a), a + b);
    forall k
      ensures k in twice <==> k in once
      ensures k in once ==> twice[k] == once[k]
    {
      WriteLastWins(store, a + b, k);
      WriteLastWins(Write(store, a), a + b, k);
      WriteLastWins(store, a, k);
      if LastValue(a + b, k).None? {
        LastValueNoneSplit(a, b, k);
      }
    }
  }

  lemma {:induction false} LastValueNoneSplit(a: seq<Point>, b: seq<Point>, k: Key)
    requires LastValue(a + b, k).None?
    ensures LastValue(a, k).None?
  {
    if b == [] {
      assert a + b == a;
    } else {
      assert (a + b)[..|a + b| - 1] == a + b[..|b| - 1];
      LastValueNoneSplit(a, b[..|b| - 1], k);
    }
  }

  /** Writing the same batch twice leaves the store as writing it once. */
  lemma WriteIdempotent(store: Store, points: seq<Point>)
    ensures Write(Write(store, points), points) == Write(store, points)
  {
    WriteAgain(store, points, []);
    assert points + [] == points;
  }

  /** Re-writing points that the store already holds with the same value
      changes nothing: importing a message again does not count it twice. */
  lemma {:induction false} WriteAgreeing(store: Store, points: seq<Point>)
    requires forall i :: 0 <= i < |points| ==> points[i].key in store && store[points[i].key] == points[i].isValid
    ensures Write(store, points) == store
  {
    if points != [] {
      WriteAgreeing(store, points[..|points| - 1]);
    }
  }

  // ---------------------------------------------------------------------------
  // The aggregate query: sum of isValid grouped by author

  /** Which points a query reads: one measurement, optionally one channel
      tag, and times from `since` on. */
  datatype Selection = Selection(measurement: string, channel: Option<string>, since: int)

  predicate Selected(sel: Selection, k: Key)
  {
    && k.measurement == sel.measurement
    && (sel.channel.Some? ==> k.channelID == sel.channel.value)
    && k.time >= sel.since
  }

  /** The author tags of the selected points: one group each. */
  function Authors(store: Store, sel: Selection): set<string>
  {
    set k | k in store.Keys && Selected(sel, k) :: k.authorID
  }

  /** The selected points of one author. */
  function AuthorPoints(store: Store, sel: Selection, author: string): set<Key>
  {
    set k | k in store.Keys && Selected(sel, k) && k.authorID == author
  }

  /** The number of the author's selected points whose isValid is 1. */
  function ValidCount(store: Store, sel: Selection, author: string): nat
  {
    |set k | k in AuthorPoints(store, sel, author) && store[k] == 1|
  }

  /** One row of the query result: an author tag and its sum of isValid. */
  datatype Series = Series(authorID: string, sum: nat)

  /** The query result: no series list at all when nothing is selected;
      otherwise one series per author, in ascending order of the author tag,
      with the author's sum of isValid. */
  function Query(store: Store, sel: Selection): (r: Option<seq<Series>>)
    ensures r.Some? ==> |r.value| == |Authors(store, sel)| >= 1
  {
    var authors := Authors(store, sel);
    if authors == {} then None
    else
      var order := Ascending(authors);
      Some(seq(|order|, i requires 0 <= i < |order| => Series(order[i], ValidCount(store, sel, order[i]))))
  }

  /** The series list is missing exactly when no point is selected. */
  lemma QueryNoSeries(store: Store, sel: Selection)
    ensures Query(store, sel).None? <==> forall k :: k in store ==> !Selected(sel, k)
  {
    forall k | k in store && Selected(sel, k) ensures k.authorID in Authors(store, sel) {}
  }

  /** The series come in ascending order of the author tag, each author once. */
  lemma QueryAscending(store: Store, sel: Selection)
    requires Query(store, sel).Some?
    ensures var r := Query(store, sel).value;
      forall i, j :: 0 <= i < j < |r| ==> LexLess(r[i].authorID, r[j].authorID)
  {
    var order := Ascending(Authors(store, sel));
    assert StrictlyAscending(order);
  }

  /** There is a series for an author exactly when a selected point carries
      that author's tag. */
  lemma QueryCoversAuthors(store: Store, sel: Selection, author: string)
    requires Query(store, sel).Some?
    ensures var r := Query(store, sel).value;
      (exists i :: 0 <= i < |r| && r[i].authorID == author) <==> author in Authors(store, sel)
  {
    var r := Query(store, sel).value;
    var order := Ascending(Authors(store, sel));
    if author in Authors(store, sel) {
      var i :| 0 <= i < |order| && order[i] == author;
      assert r[i].authorID == author;
    }
    if exists i :: 0 <= i < |r| && r[i].authorID == author {
      var i :| 0 <= i < |r| && r[i].authorID == author;
      assert order[i] == author;
      assert order[i] in order;
    }
  }

  /** Double.toString of a whole-number sum below ten million: its decimal
      digits followed by ".0". */
  function SumText(sum: nat): (r: string)
    ensures |r| >= 3 && r[|r| - 2..] == ".0"
  {
    NatToString(sum) + ".0"
  }

  /** toString().split("\\.")[0] on a sum: the text before the decimal point,
      which is the decimal form of the count. */
  function CountText(sum: nat): (r: string)
    ensures r == NatToString(sum)
    ensures ParseDigits(r) == sum
  {
    var digits := NatToString(sum);
    assert NoDelimiter(digits, Literal('.'));
    assert NoDelimiter("0", Literal('.'));
    JavaSplitTwo(digits, '.', "0");
    assert SumText(sum) == digits + ['.'] + "0";
    ParseNatToString(sum);
    JavaSplit(SumText(sum), Literal('.'))[0]
  }

  /** "<rank>. <who> sent **<count>** messages.": one entry of a ranking. */
  function RankText(rank: nat, who: string, sum: nat): string
  {
    NatToString(rank) + ". " + who + " sent **" + CountText(sum) + "** messages."
  }

  /** An entry of a ranking spans one line when the name in it does. */
  lemma RankTextOneLine(rank: nat, who: string, sum: nat)
    requires NoDelimiter(who, Literal('\n'))
    ensures NoDelimiter(RankText(rank, who, sum), Literal('\n'))
  {
    var digits, count := NatToString(rank), CountText(sum);
    var nl := Literal('\n');
    DigitsSpanOneLine(digits);
    DigitsSpanOneLine(count);
    assert NoDelimiter(". ", nl) && NoDelimiter(" sent **", nl) && NoDelimiter("** messages.", nl);
    NoDelimiterConcat(digits, ". ", nl);
    NoDelimiterConcat(digits + ". ", who, nl);
    NoDelimiterConcat(digits + ". " + who, " sent **", nl);
    NoDelimiterConcat(digits + ". " + who + " sent **", count, nl);
    NoDelimiterConcat(digits + ". " + who + " sent **" + count, "** messages.", nl);
  }

  /** The same sum written as a fold of the isValid fields. */
  ghost function SumValid(store: Store, keys: set<Key>): nat
    requires keys <= store.Keys
    decreases |keys|
  {
    if keys == {} then 0
    else
      var k :| k in keys;
      store[k] + SumValid(store, keys - {k})
  }

  /** Summing a field that is 0 or 1 counts the points where it is 1. */
  lemma {:induction false} SumValidCounts(store: Store, keys: set<Key>)
    requires keys <= store.Keys
    ensures SumValid(store, keys) == |set k | k in keys && store[k] == 1|
    decreases |keys|
  {
    if keys != {} {
      var k :| k in keys && SumValid(store, keys) == store[k] + SumValid(store, keys - {k});
      SumValidCounts(store, keys - {k});
      var ones := set x | x in keys && store[x] == 1;
      var rest := set x | x in keys - {k} && store[x] == 1;
      if store[k] == 1 {
        assert ones == rest + {k};
      } else {
        assert ones == rest;
      }
    }
  }

  /** Every series of the query carries the sum of isValid over the selected
      points of its author. */
  lemma QuerySumsIsValid(store: Store, sel: Selection, i: nat)
    requires Query(store, sel).Some? && i < |Query(store, sel).value|
    ensures var s := Query(store, sel).value[i];
      s.sum == SumValid(store, AuthorPoints(store, sel, s.authorID))
  {
    var s := Query(store, sel).value[i];
    SumValidCounts(store, AuthorPoints(store, sel, s.authorID));
  }

  /** A retraction: once a zero point for a counted message is written, its
      author's sum drops by exactly one. */
  lemma RetractionUncounts(store: Store, sel: Selection, k: Key)
    requires k in store && store[k] == 1 && Selected(sel, k)
    ensures ValidCount(Write(store, [Point(k, 0)]), sel, k.authorID) == ValidCount(store, sel, k.authorID) - 1
  {
    var after := Write(store, [Point(k, 0)]);
    assert [Point(k, 0)][..0] == [];
    assert Write(store, []) == store;
    assert after == store[k := 0];
    var before := set x | x in AuthorPoints(store, sel, k.authorID) && store[x] == 1;
    var now := set x | x in AuthorPoints(after, sel, k.authorID) && after[x] == 1;
    assert now == before - {k};
  }

  // ---------------------------------------------------------------------------
  // Lookups used by backfill and deletion

  predicate IsMax(t: int, s: set<int>)
  {
    t in s && forall u :: u in s ==> u <= t
  }

  lemma {:induction false} MaxExists(s: set<int>)
    requires s != {}
    ensures exists t :: IsMax(t, s)
    decreases |s|
  {
    assert exists y :: y in s by {
      if forall y :: y !in s { assert false; }
    }
    var y :| y in s;
    if s == {y} {
      assert IsMax(y, s);
    } else {
      MaxExists(s - {y});
      var t :| IsMax(t, s - {y});
      var m := if t < y then y else t;
      forall u | u in s ensures u <= m {
        if u != y { assert u in s - {y}; }
      }
      assert IsMax(m, s);
    }
  }

  /** The time of the most recent point of a measurement, if it has any. */
  function LatestTime(store: Store, measurement: string): (r: Option<int>)
    ensures r.None? <==> forall k :: k in store ==> k.measurement != measurement
    ensures r.Some? ==> exists k :: k in store && k.measurement == measurement && k.time == r.value
    ensures r.Some? ==> forall k :: k in store && k.measurement == measurement ==> k.time <= r.value
  {
    var times := set k | k in store.Keys && k.measurement == measurement :: k.time;
    assert forall k :: k in store && k.measurement == measurement ==> k.time in times;
    if times == {} then None
    else
      MaxExists(times);
      var t :| IsMax(t, times);
      Some(t)
  }

  /** The author tag of the stored point at a channel and time: the first
      row of the lookup, in author-tag order when several authors posted in
      the same millisecond. */
  function StoredAuthor(store: Store, measurement: string, channel: string, time: int): (r: Option<string>)
    ensures r.None? <==> forall k :: k in store ==> !(k.measurement == measurement && k.channelID == channel && k.time == time)
    ensures r.Some? ==> Key(measurement, channel, r.value, time) in store
  {
    var authors := set k | k in store.Keys && k.measurement == measurement && k.channelID == channel && k.time == time :: k.authorID;
    assert forall k :: (k in store && k.measurement == measurement && k.channelID == channel && k.time == time)
                       ==> k.authorID in authors;
    if authors == {} then None
    else
      var order := Ascending(authors);
      assert order[0] in authors;
      Some(order[0])
  }
}

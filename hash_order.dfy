/** The iteration order of java.util.HashMap: keys are spread over a table of
    2^bits buckets by their String.hashCode, the table doubles when it holds
    more than three quarters of its capacity, and iteration visits the buckets
    in index order and, within a bucket, the keys in the order they were put. */
module HashOrder {
  import StableSort

  /** String.hashCode: s[0]*31^(n-1) + ... + s[n-1], as an unsigned 32-bit
      value (each character is one UTF-16 unit). */
  function JavaHash(s: string): (h: nat)
    ensures h < 0x1_0000_0000
  {
    if s == [] then 0
    else (31 * JavaHash(s[..|s| - 1]) + (s[|s| - 1] as int % 0x1_0000)) % 0x1_0000_0000
  }

  /** The low `bits` bits of a XOR b. */
  function LowXor(a: nat, b: nat, bits: nat): (r: nat)
    ensures r < Pow2(bits)
  {
    if bits == 0 then 0 else 2 * LowXor(a / 2, b / 2, bits - 1) + (if a % 2 == b % 2 then 0 else 1)
  }

  function Pow2(bits: nat): (r: nat)
    ensures r >= 1
  {
    if bits == 0 then 1 else 2 * Pow2(bits - 1)
  }

  /** The bucket of a key in a table of 2^bits buckets: HashMap.hash folds the
      high half of the hash into the low half, (h ^ (h >>> 16)), and the
      table index keeps the low `bits` bits of that (at most 16 bits here). */
  function Bucket(key: string, bits: nat): (r: nat)
    ensures r < Pow2(bits)
  {
    var h := JavaHash(key);
    LowXor(h, h / 0x1_0000, bits)
  }

  /** The table size, as a power of two, after `size` puts of distinct keys
      into a table of 2^bits buckets: it doubles whenever the size exceeds
      the threshold, three quarters of the capacity; it stops at the first
      size under which the entries fit. */
  function TableBits(bits: nat, size: nat): (r: nat)
    ensures r >= bits && size <= Pow2(r) * 3 / 4
    ensures r > bits ==> size > Pow2(r - 1) * 3 / 4
    decreases 4 * size - 3 * Pow2(bits)
  {
    if size <= Pow2(bits) * 3 / 4 then bits else TableBits(bits + 1, size)
  }

  /** The keySet order of a HashMap created with a capacity of 2^initialBits
      into which the entries (with distinct keys) were put in sequence. */
  function IterationOrder<V>(entries: seq<(string, V)>, initialBits: nat): (r: seq<(string, V)>)
    ensures |r| == |entries|
    ensures multiset(r) == multiset(entries)
  {
    StableSort.SortPermutes(entries, ByBucket(TableBits(initialBits, |entries|)));
    StableSort.Sort(entries, ByBucket(TableBits(initialBits, |entries|)))
  }

  /** Iteration puts an entry before another when its bucket index is lower. */
  function ByBucket<V>(bits: nat): ((string, V), (string, V)) -> bool
  {
    (a: (string, V), b: (string, V)) => Bucket(a.0, bits) < Bucket(b.0, bits)
  }

  lemma HashOfYear()
    ensures JavaHash("-year") == 45263338
  {
    assert JavaHash("-") == 45;
    assert "-y"[..1] == "-";
    assert JavaHash("-y") == 1516;
    assert "-ye"[..2] == "-y";
    assert JavaHash("-ye") == 47097;
    assert "-yea"[..3] == "-ye";
    assert JavaHash("-yea") == 1460104;
    assert "-year"[..4] == "-yea";
    assert JavaHash("-year") == 45263338;
  }

  lemma HashOfMonth()
    ensures JavaHash("-month") == 1392391795
  {
    assert JavaHash("-") == 45;
    assert "-m"[..1] == "-";
    assert JavaHash("-m") == 1504;
    assert "-mo"[..2] == "-m";
    assert JavaHash("-mo") == 46735;
    assert "-mon"[..3] == "-mo";
    assert JavaHash("-mon") == 1448895;
    assert "-mont"[..4] == "-mon";
    assert JavaHash("-mont") == 44915861;
    assert "-month"[..5] == "-mont";
    assert JavaHash("-month") == 1392391795;
  }

  lemma HashOfWeek()
    ensures JavaHash("-week") == 45203873
  {
    assert JavaHash("-") == 45;
    assert "-w"[..1] == "-";
    assert JavaHash("-w") == 1514;
    assert "-we"[..2] == "-w";
    assert JavaHash("-we") == 47035;
    assert "-wee"[..3] == "-we";
    assert JavaHash("-wee") == 1458186;
    assert "-week"[..4] == "-wee";
    assert JavaHash("-week") == 45203873;
  }

  lemma HashOfDay()
    ensures JavaHash("-day") == 1439823
  {
    assert JavaHash("-") == 45;
    assert "-d"[..1] == "-";
    assert JavaHash("-d") == 1495;
    assert "-da"[..2] == "-d";
    assert JavaHash("-da") == 46442;
    assert "-day"[..3] == "-da";
    assert JavaHash("-day") == 1439823;
  }

  /** new HashMap<>(4) with the four interval flags put in the order year,
      month, week, day grows to 8 buckets, where "-year" and "-week" share
      bucket 0, "-day" is in bucket 2 and "-month" in bucket 5. */
  lemma IntervalFlagOrder<V>(year: V, month: V, week: V, day: V)
    ensures IterationOrder([("-year", year), ("-month", month), ("-week", week), ("-day", day)], 2)
         == [("-year", year), ("-week", week), ("-day", day), ("-month", month)]
  {
    var y, m, w, d := ("-year", year), ("-month", month), ("-week", week), ("-day", day);
    assert TableBits(2, 4) == 3;
    BucketsOfFlags();
    var before := ByBucket<V>(3);
    assert StableSort.Sort([y], before) == [y];
    assert StableSort.Sort([y, m], before) == [y, m];
    assert StableSort.Insert([y, m], w, before) == [y, w, m];
    assert [y, m, w][..2] == [y, m];
    assert StableSort.Sort([y, m, w], before) == [y, w, m];
    assert StableSort.Insert([y, w], d, before) == [y, w, d];
    assert StableSort.Insert([y, w, m], d, before) == [y, w, d, m];
    assert [y, m, w, d][..3] == [y, m, w];
  }

  lemma BucketsOfFlags()
    ensures Bucket("-year", 3) == 0 && Bucket("-month", 3) == 5
    ensures Bucket("-week", 3) == 0 && Bucket("-day", 3) == 2
  {
    HashOfYear();
    HashOfMonth();
    HashOfWeek();
    HashOfDay();
  }
}

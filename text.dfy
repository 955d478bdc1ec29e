/** The string operations of java.lang.String that the bot relies on, stated on
    Dafny strings: lower-casing, splitting on a delimiter (with Java's removal of
    trailing empty strings), joining, decimal rendering of counts, prefixes and
    the lexicographic order of String.compareTo. */
module Text {

  /** Lower-casing of one character; only the ASCII letters change. */
  function LowerChar(c: char): char
  {
    if 'A' <= c <= 'Z' then (c as int + 32) as char else c
  }

  /** String.toLowerCase restricted to ASCII letters. */
  function Lower(s: string): (r: string)
    ensures |r| == |s|
    ensures forall i :: 0 <= i < |s| ==> r[i] == LowerChar(s[i])
    ensures forall i :: 0 <= i < |r| ==> !('A' <= r[i] <= 'Z')
  {
    seq(|s|, i requires 0 <= i < |s| => LowerChar(s[i]))
  }

  lemma LowerIdempotent(s: string)
    ensures Lower(Lower(s)) == Lower(s)
  {
    assert forall i :: 0 <= i < |s| ==> LowerChar(LowerChar(s[i])) == LowerChar(s[i]);
  }

  /** A text without capital letters is its own lower-case form. */
  lemma LowerOfLowerCase(s: string)
    requires forall i :: 0 <= i < |s| ==> !('A' <= s[i] <= 'Z')
    ensures Lower(s) == s
  {
    assert forall i :: 0 <= i < |s| ==> Lower(s)[i] == s[i];
  }

  lemma AppendAssociates(a: string, b: string, c: string)
    ensures a + b + c == a + (b + c)
  {
  }

  /** The end of a + b is b. */
  lemma AppendSuffix(a: string, b: string)
    ensures |a + b| >= |b| && (a + b)[|a + b| - |b|..] == b
  {
  }

  // ---------------------------------------------------------------------------
  // Splitting and joining

  /** The delimiters the bot splits on: the regular expression [\s] (one
      whitespace character) or one literal character such as '-'. */
  datatype Delimiter = Whitespace | Literal(c: char)

  predicate IsDelimiter(d: Delimiter, c: char)
  {
    match d
    case Whitespace =>
      c == ' ' || c == '\t' || c == '\n' || c == '\U{B}' || c == '\U{C}' || c == '\r'
    case Literal(x) => c == x
  }

  predicate NoDelimiter(s: string, d: Delimiter)
  {
    forall i :: 0 <= i < |s| ==> !IsDelimiter(d, s[i])
  }

  lemma NoDelimiterConcat(a: string, b: string, d: Delimiter)
    requires NoDelimiter(a, d) && NoDelimiter(b, d)
    ensures NoDelimiter(a + b, d)
  {
    assert forall i :: |a| <= i < |a + b| ==> (a + b)[i] == b[i - |a|];
  }

  /** The pieces between delimiters, empty pieces included. */
  function Split(s: string, d: Delimiter): (r: seq<string>)
    ensures |r| >= 1
    ensures forall i :: 0 <= i < |r| ==> NoDelimiter(r[i], d)
    decreases |s|
  {
    if s == [] then [""]
    else
      var rest := Split(s[1..], d);
      if IsDelimiter(d, s[0]) then [""] + rest
      else [[s[0]] + rest[0]] + rest[1..]
  }

  function Join(parts: seq<string>, sep: string): string
  {
    if |parts| == 0 then ""
    else if |parts| == 1 then parts[0]
    else parts[0] + sep + Join(parts[1..], sep)
  }

  /** Splitting on one literal character and joining the pieces with that
      character gives back the original string. */
  lemma {:induction false} JoinSplit(s: string, c: char)
    ensures Join(Split(s, Literal(c)), [c]) == s
    decreases |s|
  {
    if s != [] {
      var rest := Split(s[1..], Literal(c));
      JoinSplit(s[1..], c);
      if s[0] == c {
        assert Split(s, Literal(c)) == [""] + rest;
      } else {
        var parts := Split(s, Literal(c));
        assert parts == [[s[0]] + rest[0]] + rest[1..];
        if |rest| == 1 {
          assert Join(parts, [c]) == [s[0]] + rest[0];
          assert Join(rest, [c]) == rest[0];
        } else {
          assert parts[1..] == rest[1..];
          assert Join(rest, [c]) == rest[0] + [c] + Join(rest[1..], [c]);
        }
      }
    }
  }

  function DropTrailingEmpty(parts: seq<string>): (r: seq<string>)
    ensures |r| <= |parts| && r == parts[..|r|]
    ensures r != [] ==> r[|r| - 1] != ""
    ensures forall i :: |r| <= i < |parts| ==> parts[i] == ""
  {
    if parts != [] && parts[|parts| - 1] == "" then DropTrailingEmpty(parts[..|parts| - 1])
    else parts
  }

  predicate HasDelimiter(s: string, d: Delimiter)
  {
    exists i :: 0 <= i < |s| && IsDelimiter(d, s[i])
  }

  /** String.split with limit 0: a string without any delimiter comes back as
      the only element (so "" gives [""]); otherwise the pieces between the
      delimiters with the trailing empty pieces removed. */
  function JavaSplit(s: string, d: Delimiter): (r: seq<string>)
    ensures forall i :: 0 <= i < |r| ==> NoDelimiter(r[i], d)
  {
    if !HasDelimiter(s, d) then [s] else DropTrailingEmpty(Split(s, d))
  }

  lemma SplitOfPlain(s: string, d: Delimiter)
    requires !HasDelimiter(s, d)
    ensures Split(s, d) == [s]
    decreases |s|
  {
    if s != [] {
      assert !HasDelimiter(s[1..], d) by {
        forall i | 0 <= i < |s| - 1 ensures !IsDelimiter(d, s[1..][i]) {
          assert s[1..][i] == s[i + 1];
        }
      }
      SplitOfPlain(s[1..], d);
      assert !IsDelimiter(d, s[0]);
      assert s == [s[0]] + s[1..];
    }
  }

  /** A string that starts with a piece free of delimiters splits into that
      piece and the pieces of what follows the first delimiter. */
  lemma {:induction false} SplitAfterPlain(a: string, c: char, b: string, d: Delimiter)
    requires NoDelimiter(a, d) && IsDelimiter(d, c)
    ensures Split(a + [c] + b, d) == [a] + Split(b, d)
    decreases |a|
  {
    if a == [] {
      assert a + [c] + b == [c] + b;
      assert ([c] + b)[1..] == b;
    } else {
      assert (a + [c] + b)[1..] == a[1..] + [c] + b;
      assert NoDelimiter(a[1..], d) by {
        forall i | 0 <= i < |a| - 1 ensures !IsDelimiter(d, a[1..][i]) {
          assert a[1..][i] == a[i + 1];
        }
      }
      SplitAfterPlain(a[1..], c, b, d);
      assert !IsDelimiter(d, a[0]);
      assert [a[0]] + a[1..] == a;
    }
  }

  /** Two non-empty delimiter-free pieces around one delimiter come back as
      exactly those two pieces. */
  lemma JavaSplitTwo(a: string, c: char, b: string)
    requires NoDelimiter(a, Literal(c)) && NoDelimiter(b, Literal(c)) && b != []
    ensures JavaSplit(a + [c] + b, Literal(c)) == [a, b]
  {
    var s := a + [c] + b;
    assert s[|a|] == c;
    assert HasDelimiter(s, Literal(c));
    SplitAfterPlain(a, c, b, Literal(c));
    SplitOfPlain(b, Literal(c));
    assert Split(s, Literal(c)) == [a, b];
  }

  /** Joining pieces free of a literal delimiter and splitting the result on
      it gives the pieces back. */
  lemma {:induction false} SplitJoin(parts: seq<string>, c: char)
    requires |parts| >= 1
    requires forall i :: 0 <= i < |parts| ==> NoDelimiter(parts[i], Literal(c))
    ensures Split(Join(parts, [c]), Literal(c)) == parts
  {
    if |parts| == 1 {
      SplitOfPlain(parts[0], Literal(c));
    } else {
      assert Join(parts, [c]) == parts[0] + [c] + Join(parts[1..], [c]);
      SplitAfterPlain(parts[0], c, Join(parts[1..], [c]), Literal(c));
      SplitJoin(parts[1..], c);
      assert parts == [parts[0]] + parts[1..];
    }
  }

  /** Joined pieces free of the separator character contain it exactly
      once between each two pieces. */
  lemma {:induction false} JoinOccurrences(parts: seq<string>, c: char)
    requires |parts| >= 1
    requires forall i :: 0 <= i < |parts| ==> NoDelimiter(parts[i], Literal(c))
    ensures Occurrences(Join(parts, [c]), c) == |parts| - 1
  {
    OccurrencesAbsent(parts[0], c);
    if |parts| > 1 {
      JoinOccurrences(parts[1..], c);
      OccurrencesAppend(parts[0] + [c], Join(parts[1..], [c]), c);
      OccurrencesAppend(parts[0], [c], c);
    }
  }

  /** Removing the trailing empty pieces does not change which non-empty words
      occur, so membership tests on the tokens of String.split agree with the
      plain pieces. */
  lemma JavaSplitMembership(s: string, d: Delimiter, w: string)
    requires w != ""
    ensures w in JavaSplit(s, d) <==> w in Split(s, d)
  {
    if !HasDelimiter(s, d) {
      SplitOfPlain(s, d);
    } else {
      var parts := Split(s, d);
      var r := DropTrailingEmpty(parts);
      if w in parts {
        var i :| 0 <= i < |parts| && parts[i] == w;
        assert i < |r|;
        assert r[i] == w;
      }
    }
  }

  // ---------------------------------------------------------------------------
  // Prefixes and characters

  predicate StartsWith(s: string, prefix: string)
  {
    |prefix| <= |s| && s[..|prefix|] == prefix
  }

  /** The number of occurrences of the character c in s. */
  function Occurrences(s: string, c: char): nat
  {
    if s == [] then 0 else (if s[0] == c then 1 else 0) + Occurrences(s[1..], c)
  }

  lemma OccurrencesAppend(a: string, b: string, c: char)
    ensures Occurrences(a + b, c) == Occurrences(a, c) + Occurrences(b, c)
  {
    if a == [] {
      assert a + b == b;
    } else {
      assert (a + b)[1..] == a[1..] + b;
      OccurrencesAppend(a[1..], b, c);
    }
  }

  lemma OccurrencesAbsent(s: string, c: char)
    requires forall i :: 0 <= i < |s| ==> s[i] != c
    ensures Occurrences(s, c) == 0
  {
  }

  // ---------------------------------------------------------------------------
  // Decimal rendering

  function DigitChar(d: nat): (c: char)
    requires d < 10
    ensures '0' <= c <= '9'
  {
    ('0' as int + d) as char
  }

  predicate AllDigits(s: string)
  {
    forall i :: 0 <= i < |s| ==> '0' <= s[i] <= '9'
  }

  lemma DigitsSpanOneLine(s: string)
    requires AllDigits(s)
    ensures NoDelimiter(s, Literal('\n'))
  {
  }

  /** The decimal form of a count, as Java prints the integer part of it. */
  function NatToString(n: nat): (r: string)
    ensures |r| >= 1 && AllDigits(r)
    ensures r[0] == '0' ==> n == 0
  {
    if n < 10 then [DigitChar(n)] else NatToString(n / 10) + [DigitChar(n % 10)]
  }

  /** Reads a string of decimal digits back into a number. */
  function ParseDigits(s: string): nat
    requires AllDigits(s)
  {
    if s == [] then 0 else 10 * ParseDigits(s[..|s| - 1]) + (s[|s| - 1] as int - '0' as int)
  }

  lemma {:induction false} ParseNatToString(n: nat)
    ensures ParseDigits(NatToString(n)) == n
  {
    if n >= 10 {
      var r := NatToString(n);
      assert r[..|r| - 1] == NatToString(n / 10);
      ParseNatToString(n / 10);
    }
  }

  /** Different counts never render to the same text. */
  lemma NatToStringInjective(m: nat, n: nat)
    requires NatToString(m) == NatToString(n)
    ensures m == n
  {
    ParseNatToString(m);
    ParseNatToString(n);
  }

  // ---------------------------------------------------------------------------
  // String.compareTo

  /** a.compareTo(b) < 0: the first differing character decides, and a proper
      prefix comes first. */
  predicate LexLess(a: string, b: string)
  {
    if a == [] then b != []
    else if b == [] then false
    else if a[0] != b[0] then a[0] < b[0]
    else LexLess(a[1..], b[1..])
  }

  lemma {:induction false} LexLessIrreflexive(a: string)
    ensures !LexLess(a, a)
  {
    if a != [] { LexLessIrreflexive(a[1..]); }
  }

  lemma {:induction false} LexLessTransitive(a: string, b: string, c: string)
    requires LexLess(a, b) && LexLess(b, c)
    ensures LexLess(a, c)
  {
    if a != [] && b != [] && c != [] && a[0] == b[0] && b[0] == c[0] {
      LexLessTransitive(a[1..], b[1..], c[1..]);
    }
  }

  lemma {:induction false} LexLessTotal(a: string, b: string)
    ensures a == b || LexLess(a, b) || LexLess(b, a)
  {
    if a != [] && b != [] && a[0] == b[0] {
      LexLessTotal(a[1..], b[1..]);
      if a[1..] == b[1..] {
        assert a == [a[0]] + a[1..] && b == [b[0]] + b[1..];
      }
    }
  }

  lemma LexLessAsymmetric(a: string, b: string)
    requires LexLess(a, b)
    ensures !LexLess(b, a)
  {
    if LexLess(b, a) {
      LexLessTransitive(a, b, a);
      LexLessIrreflexive(a);
    }
  }

  /** x is the smallest string of s in compareTo order. */
  predicate IsLeast(x: string, s: set<string>)
  {
    x in s && forall y :: y in s && y != x ==> LexLess(x, y)
  }

  lemma {:induction false} LeastExists(s: set<string>)
    requires s != {}
    ensures exists x :: IsLeast(x, s)
    decreases |s|
  {
    var y :| y in s;
    if s == {y} {
      assert IsLeast(y, s);
    } else {
      LeastExists(s - {y});
      var x :| IsLeast(x, s - {y});
      LexLessTotal(x, y);
      if LexLess(x, y) {
        assert IsLeast(x, s);
      } else {
        forall z | z in s && z != y ensures LexLess(y, z) {
          if z != x { LexLessTransitive(y, x, z); }
        }
        assert IsLeast(y, s);
      }
    }
  }

  lemma LeastUnique(s: set<string>)
    ensures forall x, y :: IsLeast(x, s) && IsLeast(y, s) ==> x == y
  {
    forall x, y | IsLeast(x, s) && IsLeast(y, s) ensures x == y {
      if x != y { LexLessAsymmetric(x, y); }
    }
  }

  predicate StrictlyAscending(r: seq<string>)
  {
    forall i, j :: 0 <= i < j < |r| ==> LexLess(r[i], r[j])
  }

  /** The strings of s in ascending compareTo order, each once. */
  function Ascending(s: set<string>): (r: seq<string>)
    ensures |r| == |s|
    ensures forall x :: x in r <==> x in s
    ensures StrictlyAscending(r)
    decreases |s|
  {
    if s == {} then []
    else
      LeastExists(s);
      LeastUnique(s);
      var x :| IsLeast(x, s);
      var rest := Ascending(s - {x});
      forall j | 0 <= j < |rest| ensures LexLess(x, rest[j]) {
        assert rest[j] in rest;
      }
      [x] + rest
  }
}

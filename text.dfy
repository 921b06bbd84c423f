/** Text helpers for the CSV output: splitting at a separator, joining with one,
    and the unsigned decimal rendering of `%u`. */
module Text {

  datatype Option<T> = None | Some(value: T)

  /** Splits `s` at every occurrence of `sep`; the pieces never contain `sep`. */
  function Split<T(==)>(s: seq<T>, sep: T): (r: seq<seq<T>>)
    ensures |r| >= 1
    ensures forall i :: 0 <= i < |r| ==> sep !in r[i]
    decreases |s|
  {
    if s == [] then [[]]
    else if s[0] == sep then [[]] + Split(s[1..], sep)
    else
      var rest := Split(s[1..], sep);
      [[s[0]] + rest[0]] + rest[1..]
  }

  /** Joins the pieces with one `sep` between consecutive pieces. */
  function Join<T>(parts: seq<seq<T>>, sep: T): (r: seq<T>)
    requires |parts| >= 1
    decreases |parts|
  {
    if |parts| == 1 then parts[0] else parts[0] + [sep] + Join(parts[1..], sep)
  }

  /** A piece free of the separator splits into itself. */
  lemma {:induction false} SplitFree<T>(a: seq<T>, sep: T)
    requires sep !in a
    ensures Split(a, sep) == [a]
    decreases |a|
  {
    if a != [] {
      assert sep !in a[1..];
      SplitFree(a[1..], sep);
      assert [a[0]] + a[1..] == a;
    }
  }

  /** Splitting a separator-free piece followed by the separator peels off that piece. */
  lemma {:induction false} SplitCons<T>(a: seq<T>, sep: T, rest: seq<T>)
    requires sep !in a
    ensures Split(a + [sep] + rest, sep) == [a] + Split(rest, sep)
    decreases |a|
  {
    if a == [] {
      assert a + [sep] + rest == [sep] + rest;
      assert ([sep] + rest)[1..] == rest;
    } else {
      var s := a + [sep] + rest;
      assert s[0] == a[0];
      assert s[1..] == a[1..] + [sep] + rest;
      assert sep !in a[1..];
      SplitCons(a[1..], sep, rest);
      assert [a[0]] + a[1..] == a;
    }
  }

  /** Split is a left inverse of Join on separator-free pieces. */
  lemma {:induction false} SplitJoin<T>(parts: seq<seq<T>>, sep: T)
    requires |parts| >= 1
    requires forall i :: 0 <= i < |parts| ==> sep !in parts[i]
    ensures Split(Join(parts, sep), sep) == parts
    decreases |parts|
  {
    if |parts| == 1 {
      SplitFree(parts[0], sep);
    } else {
      assert sep !in parts[0];
      SplitJoin(parts[1..], sep);
      SplitCons(parts[0], sep, Join(parts[1..], sep));
      assert [parts[0]] + parts[1..] == parts;
    }
  }

  /** Every line of `lines` ends in `sep` and holds no other `sep`. */
  ghost predicate Terminated<T>(lines: seq<seq<T>>, sep: T)
  {
    forall i :: 0 <= i < |lines| ==>
      |lines[i]| >= 1 && lines[i][|lines[i]| - 1] == sep && sep !in lines[i][..|lines[i]| - 1]
  }

  function Concat<T>(lines: seq<seq<T>>): (r: seq<T>)
  {
    if lines == [] then [] else lines[0] + Concat(lines[1..])
  }

  lemma AppendAssoc<T>(a: seq<T>, b: seq<T>, c: seq<T>)
    ensures (a + b) + c == a + (b + c)
  {
  }

  lemma {:induction false} ConcatSnoc<T>(lines: seq<seq<T>>, x: seq<T>)
    ensures Concat(lines + [x]) == Concat(lines) + x
    decreases |lines|
  {
    if lines == [] {
      assert [] + [x] == [x];
      assert Concat([x]) == x + Concat([x][1..]);
    } else {
      assert (lines + [x])[1..] == lines[1..] + [x];
      ConcatSnoc(lines[1..], x);
    }
  }

  /** A value that occurs in no piece and is not the separator does not occur in the join. */
  lemma {:induction false} JoinFree<T>(parts: seq<seq<T>>, sep: T, c: T)
    requires |parts| >= 1 && c != sep
    requires forall i :: 0 <= i < |parts| ==> c !in parts[i]
    ensures c !in Join(parts, sep)
    decreases |parts|
  {
    if |parts| > 1 {
      assert c !in parts[0];
      JoinFree(parts[1..], sep, c);
    }
  }

  /** Splitting a concatenation of terminated lines at the terminator gives back each line
      without its terminator, followed by the empty text after the last one. */
  lemma {:induction false} SplitLines<T>(lines: seq<seq<T>>, sep: T)
    requires Terminated(lines, sep)
    ensures |Split(Concat(lines), sep)| == |lines| + 1
    ensures forall i :: 0 <= i < |lines| ==> Split(Concat(lines), sep)[i] + [sep] == lines[i]
    ensures Split(Concat(lines), sep)[|lines|] == []
    decreases |lines|
  {
    if lines != [] {
      var l := lines[0];
      var a := l[..|l| - 1];
      assert l == a + [sep];
      assert Terminated(lines[1..], sep) by {
        forall i | 0 <= i < |lines[1..]|
          ensures |lines[1..][i]| >= 1 && lines[1..][i][|lines[1..][i]| - 1] == sep
          ensures sep !in lines[1..][i][..|lines[1..][i]| - 1]
        {
          assert lines[1..][i] == lines[i + 1];
        }
      }
      SplitLines(lines[1..], sep);
      SplitCons(a, sep, Concat(lines[1..]));
      assert Concat(lines) == a + [sep] + Concat(lines[1..]);
      var r := Split(Concat(lines), sep);
      assert r == [a] + Split(Concat(lines[1..]), sep);
      forall i | 0 <= i < |lines| ensures r[i] + [sep] == lines[i] {
        if i > 0 {
          assert r[i] == Split(Concat(lines[1..]), sep)[i - 1];
          assert lines[i] == lines[1..][i - 1];
        }
      }
    }
  }

  // ---------------------------------------------------------------------------
  // Unsigned decimal numerals, as printed by the `%u` conversion.

  predicate IsDigit(c: char)
  {
    '0' <= c <= '9'
  }

  function DigitChar(d: nat): (c: char)
    requires d < 10
    ensures IsDigit(c)
  {
    "0123456789"[d]
  }

  function DigitOf(c: char): (d: nat)
    requires IsDigit(c)
    ensures d < 10
  {
    (c as int) - ('0' as int)
  }

  /** A numeral: a non-empty string of digits with no leading zero unless it is "0". */
  predicate IsNumeral(s: string)
  {
    |s| >= 1 && (forall i :: 0 <= i < |s| ==> IsDigit(s[i])) && (s[0] == '0' ==> |s| == 1)
  }

  /** The value of a digit string, most significant digit first. */
  function ValueOf(s: string): (r: nat)
    requires forall i :: 0 <= i < |s| ==> IsDigit(s[i])
    decreases |s|
  {
    if s == [] then 0 else 10 * ValueOf(s[..|s| - 1]) + DigitOf(s[|s| - 1])
  }

  /** The `%u` rendering of `n`: the shortest decimal numeral for it. */
  function Decimal(n: nat): (r: string)
    ensures IsNumeral(r)
    decreases n
  {
    if n < 10 then [DigitChar(n)] else Decimal(n / 10) + [DigitChar(n % 10)]
  }

  lemma DigitRoundTrip(d: nat)
    requires d < 10
    ensures DigitOf(DigitChar(d)) == d
  {
  }

  /** Reading back a rendered numeral gives its value. */
  lemma {:induction false} DecimalRoundTrip(n: nat)
    ensures ValueOf(Decimal(n)) == n
    decreases n
  {
    var r := Decimal(n);
    DigitRoundTrip(n % 10);
    if n >= 10 {
      DecimalRoundTrip(n / 10);
      assert r[..|r| - 1] == Decimal(n / 10);
    }
  }

  lemma {:induction false} LeadingDigitPositive(s: string)
    requires forall i :: 0 <= i < |s| ==> IsDigit(s[i])
    requires |s| >= 1 && s[0] != '0'
    ensures ValueOf(s) >= 1
    decreases |s|
  {
    if |s| > 1 {
      LeadingDigitPositive(s[..|s| - 1]);
    } else {
      assert DigitOf(s[0]) >= 1;
    }
  }

  /** Every numeral is the rendering of its value, so `%u` output is canonical. */
  lemma {:induction false} NumeralIsDecimal(s: string)
    requires IsNumeral(s)
    ensures Decimal(ValueOf(s)) == s
    decreases |s|
  {
    var d := s[|s| - 1];
    assert DigitChar(DigitOf(d)) == d;
    if |s| > 1 {
      var p := s[..|s| - 1];
      LeadingDigitPositive(p);
      NumeralIsDecimal(p);
      var v := ValueOf(s);
      assert v == 10 * ValueOf(p) + DigitOf(d);
      assert v / 10 == ValueOf(p) && v % 10 == DigitOf(d);
      assert p + [d] == s;
    }
  }
}

/** The optional value used for readers that may reject their input. */
module Wrappers {

  datatype Option<+T> = None | Some(value: T)
}

/**
 String operations on directive text. `Decimal` is Python's `str()` of a
 non-negative integer (what `%s` writes for the size) and `Join` is
 `sep.join(parts)`; both are used by the code. `Split` (`s.split(sep)`) and
 `Count` (`s.count(c)`) are not: they are reference operations, used only to
 state the line-count and read-back properties of the joined text.
 */
module Text {
  import opened Wrappers

  /** The character of a decimal digit value. */
  function DigitChar(d: nat): (c: char)
    requires d < 10
    ensures '0' <= c <= '9'
  {
    ('0' as int + d) as char
  }

  /** The value of a decimal digit character; inverse of DigitChar. */
  function DigitValue(c: char): (d: nat)
    requires '0' <= c <= '9'
    ensures d < 10 && DigitChar(d) == c
  {
    (c as int - '0' as int) as nat
  }

  predicate IsDigits(s: string) {
    forall i :: 0 <= i < |s| ==> '0' <= s[i] <= '9'
  }

  /**
   `str(n)` for a non-negative integer: its decimal digits, most significant
   first, never empty, and with a leading zero only for zero itself.
   */
  function Decimal(n: nat): (s: string)
    ensures |s| >= 1 && IsDigits(s)
    ensures s[0] == '0' ==> n == 0 && s == "0"
    decreases n
  {
    if n < 10 then [DigitChar(n)] else Decimal(n / 10) + [DigitChar(n % 10)]
  }

  /** The value of a string of decimal digits (zero for the empty string). */
  function ParseDecimal(s: string): (n: nat)
    requires IsDigits(s)
    decreases |s|
  {
    if s == [] then 0 else ParseDecimal(s[..|s| - 1]) * 10 + DigitValue(s[|s| - 1])
  }

  /** Reading back the decimal rendering of a number gives the number. */
  lemma {:induction false} ParseDecimalOfDecimal(n: nat)
    ensures ParseDecimal(Decimal(n)) == n
    decreases n
  {
    if n >= 10 {
      ParseDecimalOfDecimal(n / 10);
      var s := Decimal(n);
      assert s[..|s| - 1] == Decimal(n / 10);
    }
  }

  /** Distinct numbers have distinct decimal renderings. */
  lemma DecimalInjective(m: nat, n: nat)
    requires Decimal(m) == Decimal(n)
    ensures m == n
  {
    ParseDecimalOfDecimal(m);
    ParseDecimalOfDecimal(n);
  }

  /** `s.count(c)` for a one-character needle. */
  function Count(s: string, c: char): (k: nat)
    ensures k <= |s|
    ensures k == 0 <==> c !in s
    decreases |s|
  {
    if s == [] then 0 else (if s[0] == c then 1 else 0) + Count(s[1..], c)
  }

  lemma {:induction false} CountConcat(a: string, b: string, c: char)
    ensures Count(a + b, c) == Count(a, c) + Count(b, c)
    decreases |a|
  {
    if a != [] {
      assert (a + b)[1..] == a[1..] + b;
      CountConcat(a[1..], b, c);
    } else {
      assert a + b == b;
    }
  }

  /**
   Splits `s` at the first occurrence of `sep`: the part before it and the part
   after it, or None when `sep` does not occur.
   */
  function SplitAtFirst(s: string, sep: char): (r: Option<(string, string)>)
    ensures r.None? <==> sep !in s
    ensures r.Some? ==> s == r.value.0 + [sep] + r.value.1 && sep !in r.value.0
    decreases |s|
  {
    if s == [] then None
    else if s[0] == sep then Some(([], s[1..]))
    else match SplitAtFirst(s[1..], sep)
      case None => None
      case Some((before, after)) => Some(([s[0]] + before, after))
  }

  /** A separator placed after a separator-free field is the one found first. */
  lemma {:induction false} SplitAtFirstOfField(field: string, sep: char, rest: string)
    requires sep !in field
    ensures SplitAtFirst(field + [sep] + rest, sep) == Some((field, rest))
    decreases |field|
  {
    var s := field + [sep] + rest;
    if field != [] {
      assert s[1..] == field[1..] + [sep] + rest;
      SplitAtFirstOfField(field[1..], sep, rest);
      assert [field[0]] + field[1..] == field;
    } else {
      assert s[1..] == rest;
    }
  }

  /** `sep.join(parts)`: the parts with one separator between neighbours. */
  function Join(parts: seq<string>, sep: char): (r: string)
    ensures |parts| >= 1 ==> parts[0] <= r
    decreases |parts|
  {
    if |parts| == 0 then ""
    else if |parts| == 1 then parts[0]
    else parts[0] + [sep] + Join(parts[1..], sep)
  }

  /** A join ends with its last part. */
  lemma {:induction false} JoinEndsWithLast(parts: seq<string>, sep: char)
    requires |parts| >= 1
    ensures var r := Join(parts, sep);
            var last := parts[|parts| - 1];
            |last| <= |r| && r[|r| - |last|..] == last
    decreases |parts|
  {
    if |parts| > 1 {
      var head := parts[0] + [sep];
      var tail := Join(parts[1..], sep);
      var last := parts[|parts| - 1];
      JoinEndsWithLast(parts[1..], sep);
      assert parts[1..][|parts| - 2] == last;
      assert Join(parts, sep) == head + tail;
      assert (head + tail)[|head + tail| - |last|..] == tail[|tail| - |last|..];
    }
  }

  /** `s.split(sep)`: the pieces between separators; always at least one. */
  function Split(s: string, sep: char): (r: seq<string>)
    ensures |r| >= 1
    ensures forall i :: 0 <= i < |r| ==> sep !in r[i]
    decreases |s|
  {
    match SplitAtFirst(s, sep)
    case None => [s]
    case Some((before, after)) => [before] + Split(after, sep)
  }

  /** Splitting a join of separator-free parts gives the parts back. */
  lemma {:induction false} SplitJoin(parts: seq<string>, sep: char)
    requires |parts| >= 1
    requires forall i :: 0 <= i < |parts| ==> sep !in parts[i]
    ensures Split(Join(parts, sep), sep) == parts
    decreases |parts|
  {
    if |parts| > 1 {
      SplitAtFirstOfField(parts[0], sep, Join(parts[1..], sep));
      SplitJoin(parts[1..], sep);
      assert [parts[0]] + parts[1..] == parts;
    }
  }

  /** A join of n >= 1 separator-free parts holds exactly n - 1 separators. */
  lemma {:induction false} JoinCount(parts: seq<string>, sep: char)
    requires |parts| >= 1
    requires forall i :: 0 <= i < |parts| ==> sep !in parts[i]
    ensures Count(Join(parts, sep), sep) == |parts| - 1
    decreases |parts|
  {
    if |parts| > 1 {
      JoinCount(parts[1..], sep);
      CountConcat(parts[0] + [sep], Join(parts[1..], sep), sep);
      CountConcat(parts[0], [sep], sep);
    }
  }
}

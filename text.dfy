/** String helpers shared by the server and client models: prefixes, splitting on a
    separator the way JavaScript's `String.prototype.split` does, decimal numerals,
    ASCII lower-casing and JavaScript's `trim`. */
module Text {
  import opened Wrappers

  predicate StartsWith<T(==)>(s: seq<T>, prefix: seq<T>) {
    |prefix| <= |s| && s[..|prefix|] == prefix
  }

  /** The pieces joined back with the separator between them (the inverse of Split). */
  function Join(parts: seq<string>, sep: char): string
    decreases |parts|
  {
    if |parts| == 0 then []
    else if |parts| == 1 then parts[0]
    else parts[0] + [sep] + Join(parts[1..], sep)
  }

  /** `s.split(sep)`: always at least one piece; no piece contains the separator;
      joining the pieces with the separator gives back `s`. */
  function Split(s: string, sep: char): (parts: seq<string>)
    ensures |parts| >= 1
    ensures forall i :: 0 <= i < |parts| ==> sep !in parts[i]
    ensures Join(parts, sep) == s
    decreases |s|
  {
    if s == [] then [[]]
    else
      var rest := Split(s[1..], sep);
      if s[0] == sep then
        assert Join([[]] + rest, sep) == [sep] + Join(rest, sep) by {
          if |rest| == 1 { assert ([[]] + rest)[1..] == rest; }
          else { assert ([[]] + rest)[1..] == rest; }
        }
        assert s == [s[0]] + s[1..];
        [[]] + rest
      else
        var r := [[s[0]] + rest[0]] + rest[1..];
        assert r[1..] == rest[1..];
        assert Join(r, sep) == [s[0]] + Join(rest, sep);
        assert s == [s[0]] + s[1..];
        r
  }

  /** A string without the separator is a single piece. */
  lemma {:induction false} SplitWithoutSeparator(s: string, sep: char)
    requires sep !in s
    ensures Split(s, sep) == [s]
    decreases |s|
  {
    if s != [] {
      SplitWithoutSeparator(s[1..], sep);
      assert [s[0]] + s[1..] == s;
    }
  }

  /** A prefix without the separator joins the first piece of what follows it. */
  lemma {:induction false} SplitAfterPlainPrefix(p: string, s: string, sep: char)
    requires sep !in p
    ensures Split(p + s, sep) == [p + Split(s, sep)[0]] + Split(s, sep)[1..]
    decreases |p|
  {
    if p == [] {
      assert p + s == s && p + Split(s, sep)[0] == Split(s, sep)[0];
      assert Split(s, sep) == [Split(s, sep)[0]] + Split(s, sep)[1..];
    } else {
      SplitAfterPlainPrefix(p[1..], s, sep);
      assert (p + s)[1..] == p[1..] + s;
      assert [p[0]] + (p[1..] + Split(s, sep)[0]) == p + Split(s, sep)[0];
    }
  }

  /** Every line followed by the separator: what a reader has consumed when it has
      dispatched `lines`. */
  function Terminated(lines: seq<string>, sep: char): string
    decreases |lines|
  {
    if lines == [] then [] else lines[0] + [sep] + Terminated(lines[1..], sep)
  }

  predicate NoSep(lines: seq<string>, sep: char) {
    forall i :: 0 <= i < |lines| ==> sep !in lines[i]
  }

  lemma {:induction false} TerminatedAppend(a: seq<string>, b: seq<string>, sep: char)
    ensures Terminated(a + b, sep) == Terminated(a, sep) + Terminated(b, sep)
    decreases |a|
  {
    if a == [] {
      assert a + b == b;
    } else {
      assert (a + b)[1..] == a[1..] + b;
      TerminatedAppend(a[1..], b, sep);
    }
  }

  /** Joining all pieces is terminating all but the last and appending the last. */
  lemma {:induction false} JoinIsTerminatedPlusLast(parts: seq<string>, sep: char)
    requires |parts| >= 1
    ensures Join(parts, sep) == Terminated(parts[..|parts| - 1], sep) + parts[|parts| - 1]
    decreases |parts|
  {
    if |parts| == 1 {
      assert parts[..0] == [];
    } else {
      JoinIsTerminatedPlusLast(parts[1..], sep);
      assert parts[1..][..|parts[1..]| - 1] == parts[..|parts| - 1][1..];
      assert parts[..|parts| - 1][0] == parts[0];
    }
  }

  /** Position of the first occurrence of `sep` in `s` (or |s| when there is none). */
  function FirstIndex(s: string, sep: char): (i: nat)
    ensures i <= |s|
    decreases |s|
  {
    if s == [] || s[0] == sep then 0 else 1 + FirstIndex(s[1..], sep)
  }

  lemma {:induction false} FirstIndexAfter(a: string, r: string, sep: char)
    requires sep !in a
    ensures FirstIndex(a + ([sep] + r), sep) == |a|
    decreases |a|
  {
    if a != [] {
      assert (a + ([sep] + r))[1..] == a[1..] + ([sep] + r);
      FirstIndexAfter(a[1..], r, sep);
    }
  }

  /** A string has only one decomposition into separator-terminated lines followed by a
      separator-free remainder. */
  lemma {:induction false} TerminatedUnique(l1: seq<string>, p1: string, l2: seq<string>, p2: string, sep: char)
    requires NoSep(l1, sep) && NoSep(l2, sep) && sep !in p1 && sep !in p2
    requires Terminated(l1, sep) + p1 == Terminated(l2, sep) + p2
    ensures l1 == l2 && p1 == p2
    decreases |l1|
  {
    if l1 == [] || l2 == [] {
      assert Terminated([], sep) + p1 == p1 && Terminated([], sep) + p2 == p2;
    } else {
      var w := Terminated(l1, sep) + p1;
      var a, b := l1[0], l2[0];
      var r1 := Terminated(l1[1..], sep) + p1;
      var r2 := Terminated(l2[1..], sep) + p2;
      assert w == a + [sep] + r1;
      assert w == b + [sep] + r2;
      assert a + [sep] + r1 == a + ([sep] + r1);
      assert b + [sep] + r2 == b + ([sep] + r2);
      FirstIndexAfter(a, r1, sep);
      FirstIndexAfter(b, r2, sep);
      assert a == w[..|a|] == b;
      assert r1 == w[|a| + 1..] == r2;
      TerminatedUnique(l1[1..], p1, l2[1..], p2, sep);
      assert l1 == [a] + l1[1..];
      assert l2 == [b] + l2[1..];
    }
  }

  // ---- decimal numerals ----

  predicate IsDigit(c: char) { '0' <= c <= '9' }

  function DigitChar(d: nat): char
    requires d < 10
  {
    "0123456789"[d]
  }

  function DigitValue(c: char): nat
    requires IsDigit(c)
  {
    (c as int - '0' as int) as nat
  }

  /** `str(n)` for a non-negative integer: its shortest decimal numeral. */
  function NatToDecimal(n: nat): (s: string)
    ensures |s| >= 1
    ensures forall i :: 0 <= i < |s| ==> IsDigit(s[i])
    decreases n
  {
    if n < 10 then [DigitChar(n)] else NatToDecimal(n / 10) + [DigitChar(n % 10)]
  }

  function DecimalToNat(s: string): nat
    requires forall i :: 0 <= i < |s| ==> IsDigit(s[i])
    decreases |s|
  {
    if s == [] then 0 else 10 * DecimalToNat(s[..|s| - 1]) + DigitValue(s[|s| - 1])
  }

  lemma {:induction false} DecimalRoundTrip(n: nat)
    ensures DecimalToNat(NatToDecimal(n)) == n
    decreases n
  {
    var s := NatToDecimal(n);
    if n < 10 {
      assert s[..0] == [];
    } else {
      DecimalRoundTrip(n / 10);
      assert s[..|s| - 1] == NatToDecimal(n / 10);
    }
  }

  /** A numeral of a number in [10^(k-1), 10^k) has k digits; stated for the widths used here. */
  lemma DecimalLength(n: nat)
    ensures n < 10 ==> |NatToDecimal(n)| == 1
    ensures 10 <= n < 100 ==> |NatToDecimal(n)| == 2
    ensures 100 <= n < 1000 ==> |NatToDecimal(n)| == 3
    ensures 1000 <= n < 10000 ==> |NatToDecimal(n)| == 4
  {
  }

  /** Python's `str(i)` for any integer: a minus sign before the numeral of |i|. */
  function IntToDecimal(i: int): (s: string)
    ensures i >= 0 ==> s == NatToDecimal(i)
    ensures i < 0 ==> s == "-" + NatToDecimal(-i)
  {
    if i >= 0 then NatToDecimal(i) else "-" + NatToDecimal(-i)
  }

  predicate AllDigits(s: string) {
    forall i :: 0 <= i < |s| ==> IsDigit(s[i])
  }

  function Pow10(k: nat): (r: nat)
    ensures r >= 1
  {
    if k == 0 then 1 else 10 * Pow10(k - 1)
  }

  /** A numeral of k digits stands for a number below 10^k. */
  lemma {:induction false} DecimalBelow(s: string)
    requires AllDigits(s)
    ensures DecimalToNat(s) < Pow10(|s|)
    decreases |s|
  {
    if s != [] {
      DecimalBelow(s[..|s| - 1]);
    }
  }

  /** Python's `int(s)` on an optional sign followed by decimal digits; anything else is
      refused. */
  function ParseInt(s: string): (r: Option<int>)
    ensures r.Some? ==> s != []
  {
    if s == [] then None
    else if (s[0] == '-' || s[0] == '+') && |s| > 1 && AllDigits(s[1..]) then
      var n: int := DecimalToNat(s[1..]);
      Some(if s[0] == '-' then -n else n)
    else if AllDigits(s) then Some(DecimalToNat(s))
    else None
  }

  /** Reading back `str(i)` gives `i`. */
  lemma ParseIntRoundTrip(i: int)
    ensures ParseInt(IntToDecimal(i)) == Some(i)
  {
    if i >= 0 {
      DecimalRoundTrip(i);
    } else {
      var s := IntToDecimal(i);
      assert s[1..] == NatToDecimal(-i);
      DecimalRoundTrip(-i);
    }
  }

  // ---- case and whitespace ----

  /** Lower-casing of one character, on the ASCII letters. */
  function LowerChar(c: char): char {
    if 'A' <= c <= 'Z' then (c as int + 32) as char else c
  }

  function Lower(s: string): (r: string)
    ensures |r| == |s|
    ensures forall i :: 0 <= i < |s| ==> r[i] == LowerChar(s[i])
  {
    seq(|s|, i requires 0 <= i < |s| => LowerChar(s[i]))
  }

  /** The white-space characters JavaScript's `trim` strips (the ASCII ones, no-break space
      and the byte-order mark). */
  predicate IsJsSpace(c: char) {
    c == ' ' || c == '\t' || c == '\n' || c == '\r' || c == '\U{000B}' || c == '\U{000C}'
    || c == '\U{00A0}' || c == '\U{FEFF}'
  }

  function TrimStart(s: string): (r: string)
    ensures |r| <= |s|
    ensures r == [] || !IsJsSpace(r[0])
    decreases |s|
  {
    if s != [] && IsJsSpace(s[0]) then TrimStart(s[1..]) else s
  }

  function TrimEnd(s: string): (r: string)
    ensures |r| <= |s|
    ensures r == [] || !IsJsSpace(r[|r| - 1])
    decreases |s|
  {
    if s != [] && IsJsSpace(s[|s| - 1]) then TrimEnd(s[..|s| - 1]) else s
  }

  /** `s.trim()`. */
  function Trim(s: string): string {
    TrimEnd(TrimStart(s))
  }

  /** A string that neither starts nor ends with white space is its own trim. */
  lemma TrimNoop(s: string)
    requires s == [] || (!IsJsSpace(s[0]) && !IsJsSpace(s[|s| - 1]))
    ensures Trim(s) == s
  {
  }
}

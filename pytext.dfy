/**
 * The pieces of Python's string handling that the generators rely on:
 * `format(n, '#04x')`, `str(n)` for an integer, `sep.join(pieces)` and
 * `s.split(sep)` for a one-character separator.  Each formatter comes with the
 * parser that reads its output back, and the round trip is proved.
 */
module PyText {
  import opened Wrappers

  // ---------------------------------------------------------------------------
  // Digits in base 10 and base 16 (lower-case letters, as Python prints them)
  // ---------------------------------------------------------------------------

  type Base = b: nat | b == 10 || b == 16 witness 10

  predicate IsDigit(base: Base, c: char)
  {
    ('0' <= c <= '9' && (c as int - '0' as int) < base) || (base == 16 && 'a' <= c <= 'f')
  }

  /** A non-empty run of digits of `base`. */
  predicate IsNumeral(base: Base, s: string)
  {
    |s| >= 1 && forall i :: 0 <= i < |s| ==> IsDigit(base, s[i])
  }

  function DigitValue(base: Base, c: char): (d: nat)
    requires IsDigit(base, c)
    ensures d < base
  {
    if c <= '9' then c as int - '0' as int else c as int - 'a' as int + 10
  }

  function DigitChar(base: Base, d: nat): (c: char)
    requires d < base
    ensures IsDigit(base, c) && DigitValue(base, c) == d
  {
    if d < 10 then ('0' as int + d) as char else ('a' as int + d - 10) as char
  }

  /** The value of a digit string, most significant digit first. */
  function NumeralValue(base: Base, s: string): nat
    requires forall i :: 0 <= i < |s| ==> IsDigit(base, s[i])
  {
    if |s| == 0 then 0 else NumeralValue(base, s[..|s| - 1]) * base + DigitValue(base, s[|s| - 1])
  }

  /** The digits of `n` with no leading zero (Python's `format(n, 'x')` or `str(n)` for `n >= 0`). */
  function Digits(base: Base, n: nat): (r: string)
    ensures IsNumeral(base, r) && NumeralValue(base, r) == n
    ensures |r| > 1 ==> r[0] != '0'
    ensures n < base <==> |r| == 1
    ensures n < base * base <==> |r| <= 2
    decreases n
  {
    if n < base then [DigitChar(base, n)]
    else
      var r := Digits(base, n / base) + [DigitChar(base, n % base)];
      assert r[..|r| - 1] == Digits(base, n / base);
      r
  }

  lemma {:induction false} LeadingZeroIsNeutral(base: Base, s: string)
    requires forall i :: 0 <= i < |s| ==> IsDigit(base, s[i])
    ensures var z := "0" + s; (forall i :: 0 <= i < |z| ==> IsDigit(base, z[i])) && NumeralValue(base, z) == NumeralValue(base, s)
    decreases |s|
  {
    var z := "0" + s;
    if |s| > 0 {
      LeadingZeroIsNeutral(base, s[..|s| - 1]);
      assert z[..|z| - 1] == "0" + s[..|s| - 1];
    }
  }

  // ---------------------------------------------------------------------------
  // format(n, '#04x')
  // ---------------------------------------------------------------------------

  /**
   * Reads back a Python hexadecimal literal: `0x` or `-0x` followed by at
   * least one lower-case hexadecimal digit.
   */
  function ParseHex(s: string): Option<int>
  {
    if |s| >= 3 && s[..2] == "0x" && IsNumeral(16, s[2..]) then Some(NumeralValue(16, s[2..]) as int)
    else if |s| >= 4 && s[..3] == "-0x" && IsNumeral(16, s[3..]) then Some(-(NumeralValue(16, s[3..]) as int))
    else None
  }

  /**
   * Python's `format(n, '#04x')`: the `0x` prefix (after a `-` for a negative
   * number), then the lower-case hexadecimal digits, zero-padded so that the
   * whole text is at least four characters wide.
   */
  function Hex04(n: int): (r: string)
    ensures ParseHex(r) == Some(n)
    ensures |r| >= 4
    ensures 0 <= n < 256 <==> |r| == 4 && r[0] != '-'
    ensures n >= 0 ==> r[..2] == "0x" && (|r| > 4 ==> r[2] != '0')
    ensures n < 0 ==> r[..3] == "-0x" && r[3] != '0'
  {
    if n >= 0 then
      var d := Digits(16, n);
      if |d| == 1 then
        LeadingZeroIsNeutral(16, d);
        var r := "0x" + ("0" + d);
        assert r[2..] == "0" + d;
        r
      else
        var r := "0x" + d;
        assert r[2..] == d;
        r
    else
      var d := Digits(16, -n);
      var r := "-0x" + d;
      assert r[3..] == d && r[..2][0] == '-';
      r
  }

  // ---------------------------------------------------------------------------
  // str(n) for an integer
  // ---------------------------------------------------------------------------

  /** Reads back a Python decimal integer literal: an optional `-`, then decimal digits. */
  function ParseDecimal(s: string): Option<int>
  {
    if IsNumeral(10, s) then Some(NumeralValue(10, s) as int)
    else if |s| >= 2 && s[0] == '-' && IsNumeral(10, s[1..]) then Some(-(NumeralValue(10, s[1..]) as int))
    else None
  }

  /** Python's `str(n)` (and `f"{n}"`) for an integer `n`. */
  function Decimal(n: int): (r: string)
    ensures ParseDecimal(r) == Some(n)
    ensures |r| >= 1 && (r[0] == '-' <==> n < 0)
    ensures n >= 0 ==> IsNumeral(10, r) && (|r| > 1 ==> r[0] != '0')
    ensures n < 0 ==> IsNumeral(10, r[1..]) && (|r| > 2 ==> r[1] != '0')
  {
    if n >= 0 then Digits(10, n)
    else
      var r := "-" + Digits(10, -n);
      assert r[1..] == Digits(10, -n);
      r
  }

  /** A decimal rendering never reads as a hexadecimal literal. */
  lemma DecimalIsNotHex(n: int)
    ensures ParseHex(Decimal(n)) == None
  {
    var r := Decimal(n);
    if |r| >= 3 { assert r[..2] != "0x" by { assert r[1] != 'x' by { if n < 0 { assert r[1] == r[1..][0]; } } } }
    if |r| >= 4 { assert r[..3] != "-0x" by { assert r[2] != 'x' by { if n < 0 { assert r[2] == r[1..][1]; } } } }
  }

  // ---------------------------------------------------------------------------
  // sep.join(pieces) and s.split(sep)
  // ---------------------------------------------------------------------------

  /** Python's `sep.join(pieces)` for a one-character separator. */
  function Join(pieces: seq<string>, sep: char): string
  {
    if |pieces| == 0 then ""
    else if |pieces| == 1 then pieces[0]
    else pieces[0] + [sep] + Join(pieces[1..], sep)
  }

  /** The position of the first `sep` in `s`, or `|s|` when there is none. */
  function FirstIndex(s: string, sep: char): (i: nat)
    ensures i <= |s| && (i < |s| ==> s[i] == sep)
    ensures forall j :: 0 <= j < i ==> s[j] != sep
    decreases |s|
  {
    if |s| == 0 || s[0] == sep then 0 else 1 + FirstIndex(s[1..], sep)
  }

  /** The first separator is at `i` when `i` holds one (or is the end) and nothing before it does. */
  lemma FirstIndexIs(s: string, sep: char, i: nat)
    requires i <= |s| && (i < |s| ==> s[i] == sep)
    requires forall j :: 0 <= j < i ==> s[j] != sep
    ensures FirstIndex(s, sep) == i
  {
  }

  /**
   * Python's `s.split(sep)` for a one-character separator: the text up to the
   * first separator, then the split of what follows it; never an empty list.
   */
  function Split(s: string, sep: char): (r: seq<string>)
    ensures |r| >= 1
    decreases |s|
  {
    var i := FirstIndex(s, sep);
    if i == |s| then [s] else [s[..i]] + Split(s[i + 1..], sep)
  }

  /** The text with `sep` between the pieces splits into the pieces of each side. */
  lemma {:induction false} SplitAround(a: string, sep: char, b: string)
    ensures Split(a + [sep] + b, sep) == Split(a, sep) + Split(b, sep)
    decreases |a|
  {
    var s := a + [sep] + b;
    var i := FirstIndex(a, sep);
    assert forall j :: 0 <= j < |a| ==> s[j] == a[j];
    FirstIndexIs(s, sep, i);
    if i == |a| {
      assert s[..|a|] == a && s[|a| + 1..] == b;
    } else {
      assert s[..i] == a[..i];
      assert s[i + 1..] == a[i + 1..] + [sep] + b;
      SplitAround(a[i + 1..], sep, b);
    }
  }

  /** Joining and splitting on the same separator are inverse: `sep.join(s.split(sep)) == s`. */
  lemma {:induction false} JoinSplit(s: string, sep: char)
    ensures Join(Split(s, sep), sep) == s
    decreases |s|
  {
    var i := FirstIndex(s, sep);
    if i < |s| {
      var before, after := s[..i], s[i + 1..];
      var rest := Split(after, sep);
      assert Split(s, sep) == [before] + rest;
      JoinCons(before, rest, sep);
      JoinSplit(after, sep);
      CutAt(s, i);
    } else {
      assert Split(s, sep) == [s];
    }
  }

  /** A text is what comes before position `i`, the character there, and what follows. */
  lemma CutAt(s: string, i: nat)
    requires i < |s|
    ensures s == s[..i] + [s[i]] + s[i + 1..]
  {
  }

  /** Joining a first piece in front of at least one more. */
  lemma JoinCons(first: string, rest: seq<string>, sep: char)
    requires |rest| >= 1
    ensures Join([first] + rest, sep) == first + [sep] + Join(rest, sep)
  {
    assert ([first] + rest)[0] == first && ([first] + rest)[1..] == rest;
  }

  lemma SplitOfPlain(s: string, sep: char)
    requires sep !in s
    ensures Split(s, sep) == [s]
  {
    FirstIndexIs(s, sep, |s|);
  }

  /** `s.split(sep)` undoes `sep.join(pieces)` when no piece holds the separator. */
  lemma {:induction false} SplitJoin(pieces: seq<string>, sep: char)
    requires |pieces| >= 1
    requires forall k :: 0 <= k < |pieces| ==> sep !in pieces[k]
    ensures Split(Join(pieces, sep), sep) == pieces
    decreases |pieces|
  {
    if |pieces| == 1 {
      SplitOfPlain(pieces[0], sep);
    } else {
      var rest := Join(pieces[1..], sep);
      SplitJoin(pieces[1..], sep);
      SplitOfPlain(pieces[0], sep);
      SplitAround(pieces[0], sep, rest);
      assert Split(Join(pieces, sep), sep) == [pieces[0]] + pieces[1..];
    }
  }

  /** A text framed by a prefix and a closing character gives both back. */
  lemma Framed(prefix: string, body: string, close: char)
    ensures var s := prefix + body + [close];
      s[..|prefix|] == prefix && s[|prefix|..|s| - 1] == body && s[|s| - 1] == close
  {
    var s := prefix + body + [close];
    assert s[..|prefix|] == prefix;
    assert s[|prefix|..|s| - 1] == body;
  }

  /** Joining two non-empty lists puts one separator between their joins. */
  lemma {:induction false} JoinAppend(a: seq<string>, b: seq<string>, sep: char)
    requires |a| >= 1 && |b| >= 1
    ensures Join(a + b, sep) == Join(a, sep) + [sep] + Join(b, sep)
    decreases |a|
  {
    if |a| == 1 {
      assert (a + b)[1..] == b;
    } else {
      JoinAppend(a[1..], b, sep);
      assert (a + b)[1..] == a[1..] + b;
    }
  }

  /** The lines of a text: Python's `text.split("\n")`. */
  function Lines(text: string): seq<string>
  {
    Split(text, '\n')
  }

  /** Python's `"\n".join(lines)`. */
  function JoinLines(lines: seq<string>): string
  {
    Join(lines, '\n')
  }

  lemma LinesOfJoin(lines: seq<string>)
    requires |lines| >= 1
    requires forall k :: 0 <= k < |lines| ==> '\n' !in lines[k]
    ensures Lines(JoinLines(lines)) == lines
  {
    SplitJoin(lines, '\n');
  }

  lemma JoinLinesAppend(a: seq<string>, b: seq<string>)
    requires |a| >= 1 && |b| >= 1
    ensures JoinLines(a + b) == JoinLines(a) + "\n" + JoinLines(b)
  {
    JoinAppend(a, b, '\n');
  }
}

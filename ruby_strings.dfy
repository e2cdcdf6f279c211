/**
 * The few Ruby String operations the provisioning command relies on:
 * strip, chomp, split on a one-character separator, the digit-string
 * test, String#to_i and Integer#to_s.
 */
module RubyStrings {

  // ---------------------------------------------------------------------
  // strip and chomp
  // ---------------------------------------------------------------------

  /**
   * The characters String#strip removes at either end, as Ruby 3.x defines
   * them: NUL, tab, line feed, vertical tab, form feed, carriage return,
   * space. Older Rubies remove a NUL only at the end of the string.
   */
  predicate IsStripSpace(c: char) {
    c == ' ' || c == '\t' || c == '\n' || c == '\U{000B}' || c == '\U{000C}' || c == '\r' || c == '\0'
  }

  function StripLeft(s: string): (r: string)
    ensures |r| <= |s| && r == s[|s| - |r|..]
    ensures forall i :: 0 <= i < |s| - |r| ==> IsStripSpace(s[i])
    ensures |r| > 0 ==> !IsStripSpace(r[0])
  {
    if |s| > 0 && IsStripSpace(s[0]) then StripLeft(s[1..]) else s
  }

  function StripRight(s: string): (r: string)
    ensures |r| <= |s| && r == s[..|r|]
    ensures forall i :: |r| <= i < |s| ==> IsStripSpace(s[i])
    ensures |r| > 0 ==> !IsStripSpace(r[|r| - 1])
  {
    if |s| > 0 && IsStripSpace(s[|s| - 1]) then StripRight(s[..|s| - 1]) else s
  }

  /** String#strip: `s` without its leading and trailing white space. */
  function Strip(s: string): (r: string)
    ensures |r| > 0 ==> !IsStripSpace(r[0]) && !IsStripSpace(r[|r| - 1])
    ensures exists lead :: 0 <= lead <= |s| - |r| && r == s[lead..][..|r|]
                           && (forall i :: 0 <= i < lead ==> IsStripSpace(s[i]))
                           && (forall i :: lead + |r| <= i < |s| ==> IsStripSpace(s[i]))
  {
    var l := StripLeft(s);
    var r := StripRight(l);
    assert r == s[|s| - |l|..][..|r|];
    r
  }

  /** String#chomp with no argument: drops one trailing "\r\n", "\n" or "\r". */
  function Chomp(s: string): string {
    if |s| >= 2 && s[|s| - 2..] == "\r\n" then s[..|s| - 2]
    else if |s| >= 1 && (s[|s| - 1] == '\n' || s[|s| - 1] == '\r') then s[..|s| - 1]
    else s
  }

  /** A string that neither starts nor ends with white space is its own strip. */
  lemma StripUnchanged(s: string)
    requires |s| > 0 ==> !IsStripSpace(s[0]) && !IsStripSpace(s[|s| - 1])
    ensures Strip(s) == s
  {
    assert StripLeft(s) == s;
    assert StripRight(s) == s;
  }

  /** A string that does not end in a line break is its own chomp. */
  lemma ChompUnchanged(s: string)
    requires |s| > 0 ==> s[|s| - 1] != '\n' && s[|s| - 1] != '\r'
    ensures Chomp(s) == s
  {
    if |s| >= 2 {
      assert s[|s| - 2..][1] == s[|s| - 1];
    }
  }

  /** `strip.chomp`: the chomp never removes anything once strip has run. */
  lemma ChompAfterStrip(s: string)
    ensures Chomp(Strip(s)) == Strip(s)
  {
  }

  // ---------------------------------------------------------------------
  // split
  // ---------------------------------------------------------------------

  /** Every field of `s` between occurrences of `sep`, empty ones included (String#split with a negative limit). */
  function SplitAll(s: string, sep: char): (r: seq<string>)
    ensures |r| >= 1
    ensures forall i :: 0 <= i < |r| ==> sep !in r[i]
    decreases |s|
  {
    if |s| == 0 then [""]
    else
      var rest := SplitAll(s[1..], sep);
      if s[0] == sep then [""] + rest else [[s[0]] + rest[0]] + rest[1..]
  }

  /** Array#join(sep). */
  function Join(fields: seq<string>, sep: char): string {
    if |fields| == 0 then ""
    else if |fields| == 1 then fields[0]
    else fields[0] + [sep] + Join(fields[1..], sep)
  }

  /** Joining the fields back with the separator gives the original string. */
  lemma {:induction false} JoinSplitAll(s: string, sep: char)
    ensures Join(SplitAll(s, sep), sep) == s
    decreases |s|
  {
    if |s| > 0 {
      var rest := SplitAll(s[1..], sep);
      JoinSplitAll(s[1..], sep);
      if s[0] == sep {
        assert SplitAll(s, sep) == [""] + rest;
        assert Join([""] + rest, sep) == "" + [sep] + Join(rest, sep);
        assert s == [s[0]] + s[1..];
      } else {
        var fields := [[s[0]] + rest[0]] + rest[1..];
        if |rest| == 1 {
          assert Join(fields, sep) == [s[0]] + rest[0];
        } else {
          assert fields[1..] == rest[1..];
          assert Join(fields, sep) == [s[0]] + rest[0] + [sep] + Join(rest[1..], sep);
        }
        assert s == [s[0]] + s[1..];
      }
    }
  }

  /** A field free of the separator runs on into whatever follows it. */
  lemma {:induction false} SplitAllPrefix(f: string, y: string, sep: char)
    requires sep !in f
    ensures SplitAll(f + y, sep) == [f + SplitAll(y, sep)[0]] + SplitAll(y, sep)[1..]
    decreases |f|
  {
    if |f| == 0 {
      var tail := SplitAll(y, sep);
      assert f + y == y && f + tail[0] == tail[0];
      assert [tail[0]] + tail[1..] == tail;
    } else {
      SplitAllPrefix(f[1..], y, sep);
      var tail := SplitAll(y, sep);
      var rest := SplitAll(f[1..] + y, sep);
      assert (f + y)[1..] == f[1..] + y;
      assert f[0] != sep;
      assert rest[0] == f[1..] + tail[0] && rest[1..] == tail[1..];
      assert [f[0]] + rest[0] == f + tail[0];
    }
  }

  /** A string without the separator is a single field. */
  lemma SplitAllWithoutSeparator(s: string, sep: char)
    requires sep !in s
    ensures SplitAll(s, sep) == [s]
  {
    SplitAllPrefix(s, "", sep);
    assert s + "" == s;
  }

  /** Splitting is the inverse of joining fields that do not contain the separator. */
  lemma {:induction false} SplitAllJoin(fields: seq<string>, sep: char)
    requires |fields| >= 1
    requires forall i :: 0 <= i < |fields| ==> sep !in fields[i]
    ensures SplitAll(Join(fields, sep), sep) == fields
    decreases |fields|
  {
    if |fields| == 1 {
      SplitAllPrefix(fields[0], "", sep);
      assert fields[0] + "" == fields[0];
    } else {
      var tail := Join(fields[1..], sep);
      SplitAllJoin(fields[1..], sep);
      SplitAllPrefix(fields[0], [sep] + tail, sep);
      assert fields[0] + [sep] + tail == fields[0] + ([sep] + tail);
      assert SplitAll([sep] + tail, sep) == [""] + fields[1..];
      assert fields[0] + "" == fields[0];
    }
  }

  /** The longest prefix of `fields` that does not end in an empty field. */
  function DropTrailingEmpty(fields: seq<string>): (r: seq<string>)
    ensures |r| <= |fields| && r == fields[..|r|]
    ensures forall i :: |r| <= i < |fields| ==> fields[i] == ""
    ensures |r| > 0 ==> r[|r| - 1] != ""
  {
    if |fields| > 0 && fields[|fields| - 1] == "" then DropTrailingEmpty(fields[..|fields| - 1]) else fields
  }

  /**
   * String#split with a one-character string or regular expression
   * separator: the fields, with trailing empty fields removed (so an
   * empty string splits into no fields at all).
   */
  function Split(s: string, sep: char): (r: seq<string>)
    ensures forall i :: 0 <= i < |r| ==> sep !in r[i]
  {
    DropTrailingEmpty(SplitAll(s, sep))
  }

  /** Splitting recovers any list of separator-free fields whose last field is not empty. */
  lemma SplitJoin(fields: seq<string>, sep: char)
    requires |fields| >= 1 && fields[|fields| - 1] != ""
    requires forall i :: 0 <= i < |fields| ==> sep !in fields[i]
    ensures Split(Join(fields, sep), sep) == fields
  {
    SplitAllJoin(fields, sep);
  }

  // ---------------------------------------------------------------------
  // digits, String#to_i and Integer#to_s
  // ---------------------------------------------------------------------

  predicate IsDigit(c: char) { '0' <= c <= '9' }

  /** `s` is a non-empty run of decimal digits and nothing else. */
  predicate IsDigits(s: string) {
    |s| > 0 && forall i :: 0 <= i < |s| ==> IsDigit(s[i])
  }

  /** The number a string of digits denotes (String#to_i on such a string). */
  function DigitsValue(s: string): nat
    requires forall i :: 0 <= i < |s| ==> IsDigit(s[i])
  {
    if |s| == 0 then 0
    else
      assert IsDigit(s[|s| - 1]);
      DigitsValue(s[..|s| - 1]) * 10 + (s[|s| - 1] as int - '0' as int)
  }

  function DigitChar(d: nat): (c: char)
    requires d < 10
    ensures IsDigit(c) && c as int - '0' as int == d
  {
    ('0' as int + d) as char
  }

  /** Integer#to_s for a non-negative integer. */
  function DecimalString(n: nat): (s: string)
    ensures IsDigits(s)
    ensures s[0] != '0' || n == 0
  {
    if n < 10 then [DigitChar(n)] else DecimalString(n / 10) + [DigitChar(n % 10)]
  }

  /** Reading back a rendered number gives the number. */
  lemma {:induction false} DecimalStringValue(n: nat)
    ensures DigitsValue(DecimalString(n)) == n
  {
    if n >= 10 {
      DecimalStringValue(n / 10);
      var s := DecimalString(n);
      assert s[..|s| - 1] == DecimalString(n / 10);
    }
  }

  lemma {:induction false} LeadingDigitBound(s: string)
    requires IsDigits(s) && s[0] != '0'
    ensures DigitsValue(s) >= 1
    decreases |s|
  {
    if |s| > 1 {
      LeadingDigitBound(s[..|s| - 1]);
    }
  }

  /** Rendering the value of a digit string without superfluous leading zeros gives that string back. */
  lemma {:induction false} DigitsValueDecimal(s: string)
    requires IsDigits(s) && (s[0] != '0' || |s| == 1)
    ensures DecimalString(DigitsValue(s)) == s
    decreases |s|
  {
    if |s| > 1 {
      var p := s[..|s| - 1];
      LeadingDigitBound(p);
      DigitsValueDecimal(p);
      assert s == p + [s[|s| - 1]];
    }
  }

  /** The white space String#to_i skips before the number: tab, line feed, vertical tab, form feed, carriage return, space. */
  predicate IsToISpace(c: char) {
    c == ' ' || c == '\t' || c == '\n' || c == '\U{000B}' || c == '\U{000C}' || c == '\r'
  }

  /** The longest prefix of `s` made of digits. */
  function LeadingDigits(s: string): (r: string)
    ensures |r| <= |s| && r == s[..|r|]
    ensures forall i :: 0 <= i < |r| ==> IsDigit(r[i])
    ensures |r| < |s| ==> !IsDigit(s[|r|])
  {
    if |s| > 0 && IsDigit(s[0]) then [s[0]] + LeadingDigits(s[1..]) else ""
  }

  /** String#to_i: skip white space, read an optional sign and the digits that follow; 0 when there are none. */
  function ToI(s: string): int
    decreases |s|
  {
    if |s| > 0 && IsToISpace(s[0]) then ToI(s[1..])
    else if |s| > 0 && s[0] == '-' then -(DigitsValue(LeadingDigits(s[1..])) as int)
    else if |s| > 0 && s[0] == '+' then DigitsValue(LeadingDigits(s[1..]))
    else DigitsValue(LeadingDigits(s))
  }

  /** On a string of digits String#to_i reads the whole string. */
  lemma ToIOfDigits(s: string)
    requires IsDigits(s)
    ensures ToI(s) == DigitsValue(s)
  {
    assert LeadingDigits(s) == s;
  }
}

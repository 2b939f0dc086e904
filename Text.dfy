/**
 * The parts of java.lang.String, java.lang.Integer and java.io.BufferedReader
 * that the engine's text formats rely on: decimal conversion both ways,
 * String.split with a literal separator, String.trim, String.compareTo and the
 * line splitting of BufferedReader.readLine.
 */
module Text {
  import opened Wrappers

  // ---------------------------------------------------------------------------
  // Decimal numbers
  // ---------------------------------------------------------------------------

  predicate IsDigit(c: char) {
    '0' <= c <= '9'
  }

  predicate AllDigits(s: string) {
    forall i :: 0 <= i < |s| ==> IsDigit(s[i])
  }

  function DigitChar(d: nat): (c: char)
    requires d < 10
    ensures IsDigit(c)
  {
    ('0' as int + d) as char
  }

  function DigitValue(c: char): nat
    requires IsDigit(c)
  {
    c as int - '0' as int
  }

  /** Integer.toString of a non-negative value: decimal digits, no leading zero. */
  function NatToString(n: nat): (s: string)
    ensures |s| >= 1 && AllDigits(s)
    ensures |s| > 1 ==> s[0] != '0'
    ensures s[0] == '0' <==> n == 0
  {
    if n < 10 then [DigitChar(n)] else NatToString(n / 10) + [DigitChar(n % 10)]
  }

  /** Integer.toString (and string concatenation of an int). */
  function IntToString(n: int): string {
    if n < 0 then "-" + NatToString(-n) else NatToString(n)
  }

  /** The value of a string of decimal digits, leading zeros allowed. */
  function DigitsValue(s: string): nat
    requires AllDigits(s)
    decreases |s|
  {
    if s == [] then 0 else DigitsValue(s[..|s| - 1]) * 10 + DigitValue(s[|s| - 1])
  }

  const IntMin: int := -0x8000_0000
  const IntMax: int := 0x7FFF_FFFF

  /** The values a Java int holds. */
  predicate InIntRange(n: int) {
    IntMin <= n <= IntMax
  }

  /**
   * Integer.parseInt: an optional '+' or '-', then one or more ASCII decimal
   * digits, denoting a value that fits in a Java int; anything else fails.
   * Java also takes the other Unicode decimal digits; this model does not.
   */
  function ParseInt(s: string): Option<int> {
    if s == [] then None
    else
      var digits := if s[0] == '-' || s[0] == '+' then s[1..] else s;
      if digits == [] || !AllDigits(digits) then None
      else
        var v: int := if s[0] == '-' then -(DigitsValue(digits) as int) else DigitsValue(digits);
        if InIntRange(v) then Some(v) else None
  }

  lemma {:induction false} DigitsValueOfNatToString(n: nat)
    ensures DigitsValue(NatToString(n)) == n
  {
    if n >= 10 {
      var s := NatToString(n);
      assert s[..|s| - 1] == NatToString(n / 10);
      DigitsValueOfNatToString(n / 10);
    }
  }

  /** parseInt undoes toString for every int. */
  lemma ParseIntToString(n: int)
    requires InIntRange(n)
    ensures ParseInt(IntToString(n)) == Some(n)
  {
    if n < 0 {
      DigitsValueOfNatToString(-n);
      assert IntToString(n)[1..] == NatToString(-n);
    } else {
      DigitsValueOfNatToString(n);
    }
  }

  /** The decimal form of an int is never empty and holds only digits and a leading minus. */
  lemma IntToStringAvoids(n: int, c: char)
    requires !IsDigit(c) && c != '-'
    ensures IntToString(n) != "" && Avoids(IntToString(n), [c])
  {
  }

  /** A parsed value and the digits that print it agree only without leading zeros or sign. */
  lemma {:induction false} NatToStringInjective(m: nat, n: nat)
    requires NatToString(m) == NatToString(n)
    ensures m == n
  {
    DigitsValueOfNatToString(m);
    DigitsValueOfNatToString(n);
  }

  // ---------------------------------------------------------------------------
  // String.split with a literal separator, String.trim, String.join
  // ---------------------------------------------------------------------------

  /** sep occurs in s starting at position j. */
  predicate OccursAt(s: string, j: nat, sep: string) {
    j + |sep| <= |s| && s[j..j + |sep|] == sep
  }

  /** String.indexOf: the first position at which sep occurs in s. */
  function IndexOf(s: string, sep: string): (r: Option<nat>)
    requires |sep| > 0
    ensures r.Some? ==> OccursAt(s, r.value, sep)
    ensures r.Some? ==> forall j :: 0 <= j < r.value ==> !OccursAt(s, j, sep)
    decreases |s|
  {
    if |s| < |sep| then None
    else if s[..|sep|] == sep then Some(0)
    else match IndexOf(s[1..], sep)
      case None => None
      case Some(i) =>
        assert forall j :: 1 <= j <= i ==> OccursAt(s, j, sep) == OccursAt(s[1..], j - 1, sep);
        Some(i + 1)
  }

  predicate Contains(s: string, sep: string)
    requires |sep| > 0
  {
    IndexOf(s, sep).Some?
  }

  /** Every field around every non-overlapping occurrence of sep, scanning left to right. */
  function SplitAll(s: string, sep: string): (fields: seq<string>)
    requires |sep| > 0
    ensures |fields| >= 1
    decreases |s|
  {
    match IndexOf(s, sep)
    case None => [s]
    case Some(i) => [s[..i]] + SplitAll(s[i + |sep|..], sep)
  }

  function DropTrailingEmpty(fields: seq<string>): seq<string> {
    if fields != [] && fields[|fields| - 1] == "" then DropTrailingEmpty(fields[..|fields| - 1])
    else fields
  }

  /**
   * String.split(sep) with the default limit: without an occurrence the
   * string itself, otherwise every field with trailing empty fields dropped.
   */
  function Split(s: string, sep: string): seq<string>
    requires |sep| > 0
  {
    if !Contains(s, sep) then [s] else DropTrailingEmpty(SplitAll(s, sep))
  }

  /** The inverse of split: fields separated by sep. */
  function Join(fields: seq<string>, sep: string): string
    decreases |fields|
  {
    if |fields| == 0 then ""
    else if |fields| == 1 then fields[0]
    else fields[0] + sep + Join(fields[1..], sep)
  }

  /** Joining one more field appends the separator and that field. */
  lemma {:induction false} JoinSnoc(fields: seq<string>, x: string, sep: string)
    requires |fields| >= 1
    ensures Join(fields + [x], sep) == Join(fields, sep) + sep + x
    decreases |fields|
  {
    if |fields| > 1 {
      assert (fields + [x])[1..] == fields[1..] + [x];
      JoinSnoc(fields[1..], x, sep);
    }
  }

  /** No character of a can start an occurrence of sep. */
  predicate Avoids(a: string, sep: string)
    requires |sep| > 0
  {
    forall i :: 0 <= i < |a| ==> a[i] != sep[0]
  }

  /** A prefix that cannot start an occurrence only shifts the occurrences after it. */
  lemma {:induction false} IndexOfAfter(a: string, b: string, sep: string)
    requires |sep| > 0 && Avoids(a, sep)
    ensures IndexOf(a + b, sep).Some? == IndexOf(b, sep).Some?
    ensures IndexOf(b, sep).Some? ==> IndexOf(a + b, sep).value == |a| + IndexOf(b, sep).value
    decreases |a|
  {
    if a != [] {
      var s := a + b;
      if |s| < |sep| {
        assert IndexOf(b, sep) == None;
      } else {
        assert s[..|sep|][0] == a[0];
        assert s[1..] == a[1..] + b;
        IndexOfAfter(a[1..], b, sep);
      }
    } else {
      assert a + b == b;
    }
  }

  lemma IndexOfAtStart(b: string, sep: string)
    requires |sep| > 0
    ensures IndexOf(sep + b, sep) == Some(0)
  {
    assert (sep + b)[..|sep|] == sep;
  }

  lemma {:induction false} IndexOfAvoiding(a: string, sep: string)
    requires |sep| > 0 && Avoids(a, sep)
    ensures IndexOf(a, sep) == None
  {
    IndexOfAfter(a, "", sep);
    assert a + "" == a;
  }

  /** key sep value splits back into key and value when value holds no sep. */
  lemma SplitPair(key: string, sep: string, value: string)
    requires |sep| > 0 && Avoids(key, sep)
    requires value != "" && !Contains(value, sep)
    ensures Split(key + sep + value, sep) == [key, value]
  {
    var s := key + sep + value;
    assert s == key + (sep + value);
    IndexOfAfter(key, sep + value, sep);
    IndexOfAtStart(value, sep);
    assert s[..|key|] == key;
    assert s[|key| + |sep|..] == value;
    assert SplitAll(s, sep) == [key, value];
  }

  /** Joining fields free of the one-character separator and splitting again gives them back. */
  lemma {:induction false} SplitJoin(fields: seq<string>, c: char)
    requires |fields| >= 1 && fields[|fields| - 1] != ""
    requires forall k :: 0 <= k < |fields| ==> Avoids(fields[k], [c])
    ensures Split(Join(fields, [c]), [c]) == fields
  {
    SplitAllJoin(fields, c);
    if |fields| == 1 {
      IndexOfAvoiding(fields[0], [c]);
    } else {
      IndexOfAfter(fields[0], [c] + Join(fields[1..], [c]), [c]);
      IndexOfAtStart(Join(fields[1..], [c]), [c]);
      assert Join(fields, [c]) == fields[0] + ([c] + Join(fields[1..], [c]));
    }
  }

  lemma {:induction false} SplitAllJoin(fields: seq<string>, c: char)
    requires |fields| >= 1
    requires forall k :: 0 <= k < |fields| ==> Avoids(fields[k], [c])
    ensures SplitAll(Join(fields, [c]), [c]) == fields
    decreases |fields|
  {
    var sep := [c];
    if |fields| == 1 {
      IndexOfAvoiding(fields[0], sep);
    } else {
      var rest := Join(fields[1..], sep);
      var s := fields[0] + (sep + rest);
      assert Join(fields, sep) == s;
      IndexOfAfter(fields[0], sep + rest, sep);
      IndexOfAtStart(rest, sep);
      assert s[..|fields[0]|] == fields[0];
      assert s[|fields[0]| + 1..] == rest;
      SplitAllJoin(fields[1..], c);
    }
  }

  /** String.trim: drop leading and trailing characters at or below the space character. */
  function Trim(s: string): string
    decreases |s|
  {
    if s != [] && s[0] <= ' ' then Trim(s[1..])
    else if s != [] && s[|s| - 1] <= ' ' then Trim(s[..|s| - 1])
    else s
  }

  // ---------------------------------------------------------------------------
  // String.compareTo
  // ---------------------------------------------------------------------------

  /** a sorts strictly before b: at the first difference a has the smaller character, or a is a proper prefix. */
  predicate Below(a: string, b: string)
    decreases |a|
  {
    if a == [] then b != []
    else if b == [] then false
    else a[0] < b[0] || (a[0] == b[0] && Below(a[1..], b[1..]))
  }

  lemma {:induction false} BelowIrreflexive(a: string)
    ensures !Below(a, a)
    decreases |a|
  {
    if a != [] {
      BelowIrreflexive(a[1..]);
    }
  }

  lemma {:induction false} BelowTransitive(a: string, b: string, c: string)
    requires Below(a, b) && Below(b, c)
    ensures Below(a, c)
    decreases |a|
  {
    if a != [] && b != [] && c != [] && a[0] == b[0] && b[0] == c[0] {
      BelowTransitive(a[1..], b[1..], c[1..]);
    }
  }

  lemma {:induction false} BelowTotal(a: string, b: string)
    requires a != b
    ensures Below(a, b) || Below(b, a)
    decreases |a|
  {
    if a != [] && b != [] && a[0] == b[0] {
      assert a == [a[0]] + a[1..] && b == [b[0]] + b[1..];
      BelowTotal(a[1..], b[1..]);
    }
  }

  lemma {:induction false} BelowAsymmetric(a: string, b: string)
    requires Below(a, b)
    ensures !Below(b, a)
    decreases |a|
  {
    if a != [] && b != [] && a[0] == b[0] {
      BelowAsymmetric(a[1..], b[1..]);
    }
  }

  // ---------------------------------------------------------------------------
  // BufferedReader.readLine
  // ---------------------------------------------------------------------------

  predicate IsLineBreak(c: char) {
    c == '\n' || c == '\r'
  }

  /** The position of the first line terminator, or |s| if there is none. */
  function LineEnd(s: string): (i: nat)
    ensures i <= |s|
    ensures forall j :: 0 <= j < i ==> !IsLineBreak(s[j])
    ensures i < |s| ==> IsLineBreak(s[i])
    decreases |s|
  {
    if s == [] || IsLineBreak(s[0]) then 0 else 1 + LineEnd(s[1..])
  }

  /**
   * The lines that successive readLine calls return: a line ends at "\n",
   * "\r" or "\r\n"; the text after the last terminator, if not empty, is one
   * more line.
   */
  function Lines(s: string): seq<string>
    decreases |s|
  {
    if s == [] then []
    else
      var i := LineEnd(s);
      if i == |s| then [s]
      else if s[i] == '\r' && i + 1 < |s| && s[i + 1] == '\n' then [s[..i]] + Lines(s[i + 2..])
      else [s[..i]] + Lines(s[i + 1..])
  }

  predicate NoLineBreak(s: string) {
    forall i :: 0 <= i < |s| ==> !IsLineBreak(s[i])
  }

  /** Every line followed by a newline, as a StringBuilder fills up line by line. */
  function Terminated(lines: seq<string>): string
    decreases |lines|
  {
    if lines == [] then "" else lines[0] + "\n" + Terminated(lines[1..])
  }

  lemma {:induction false} TerminatedSnoc(lines: seq<string>, line: string)
    ensures Terminated(lines + [line]) == Terminated(lines) + line + "\n"
    decreases |lines|
  {
    if lines == [] {
      assert [] + [line] == [line];
    } else {
      assert (lines + [line])[1..] == lines[1..] + [line];
      TerminatedSnoc(lines[1..], line);
    }
  }

  lemma LineEndOf(line: string, rest: string)
    requires NoLineBreak(line) && rest != [] && IsLineBreak(rest[0])
    ensures LineEnd(line + rest) == |line|
    decreases |line|
  {
    if line != [] {
      assert (line + rest)[1..] == line[1..] + rest;
      LineEndOf(line[1..], rest);
    }
  }

  lemma LineEndWhole(line: string)
    requires NoLineBreak(line)
    ensures LineEnd(line) == |line|
    decreases |line|
  {
    if line != [] {
      LineEndWhole(line[1..]);
    }
  }

  /** Reading back newline-terminated lines gives the lines. */
  lemma {:induction false} LinesOfTerminated(lines: seq<string>)
    requires forall k :: 0 <= k < |lines| ==> NoLineBreak(lines[k])
    ensures Lines(Terminated(lines)) == lines
    decreases |lines|
  {
    if lines != [] {
      var s := Terminated(lines);
      var rest := Terminated(lines[1..]);
      assert s == lines[0] + ("\n" + rest);
      LineEndOf(lines[0], "\n" + rest);
      assert s[..|lines[0]|] == lines[0];
      assert s[|lines[0]| + 1..] == rest;
      LinesOfTerminated(lines[1..]);
    }
  }

  /** Reading back lines joined by newlines gives the lines when the last one is not empty. */
  lemma {:induction false} LinesOfJoined(lines: seq<string>)
    requires |lines| >= 1 && lines[|lines| - 1] != ""
    requires forall k :: 0 <= k < |lines| ==> NoLineBreak(lines[k])
    ensures Lines(Join(lines, "\n")) == lines
    decreases |lines|
  {
    if |lines| == 1 {
      LineEndWhole(lines[0]);
    } else {
      var rest := Join(lines[1..], "\n");
      var s := lines[0] + ("\n" + rest);
      assert Join(lines, "\n") == s;
      LineEndOf(lines[0], "\n" + rest);
      assert s[..|lines[0]|] == lines[0];
      assert s[|lines[0]| + 1..] == rest;
      LinesOfJoined(lines[1..]);
    }
  }

  lemma {:induction false} TerminatedThenJoined(first: seq<string>, last: seq<string>)
    requires |last| >= 1
    ensures Terminated(first) + Join(last, "\n") == Join(first + last, "\n")
    decreases |first|
  {
    if first != [] {
      var all := first + last;
      assert all[0] == first[0] && all[1..] == first[1..] + last;
      TerminatedThenJoined(first[1..], last);
      calc {
        Terminated(first) + Join(last, "\n");
        (first[0] + "\n" + Terminated(first[1..])) + Join(last, "\n");
        first[0] + "\n" + (Terminated(first[1..]) + Join(last, "\n"));
        first[0] + "\n" + Join(all[1..], "\n");
        Join(all, "\n");
      }
    } else {
      assert first + last == last;
    }
  }
}

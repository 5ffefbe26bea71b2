/**
 * Character classes and the few string primitives of Python that the
 * enrollment notifier relies on: `str.find`, slicing with a possibly
 * negative bound, `str.replace(" ", "")` and `str(int)`.
 */
module Text {

  /** The character classes of the regular expressions of portal_scraper.py and app.py. */
  datatype CharClass = Whitespace | Digit | Upper

  /** `\s`, `[0-9]` and `[A-Z]` of a byte-string regular expression. */
  predicate Is(cls: CharClass, c: char)
  {
    match cls
    case Whitespace => c == ' ' || '\t' <= c <= '\r'
    case Digit => '0' <= c <= '9'
    case Upper => 'A' <= c <= 'Z'
  }

  predicate All(cls: CharClass, s: string)
  {
    forall i :: 0 <= i < |s| ==> Is(cls, s[i])
  }

  /** Length of the longest prefix of `s` made of `cls` characters. */
  function Run(cls: CharClass, s: string): (n: nat)
    ensures n <= |s|
    ensures All(cls, s[..n])
    ensures n < |s| ==> !Is(cls, s[n])
  {
    if s == [] || !Is(cls, s[0]) then 0 else 1 + Run(cls, s[1..])
  }

  /** A run is cut exactly where a character outside the class starts. */
  lemma {:induction false} RunOfConcat(cls: CharClass, a: string, b: string)
    requires All(cls, a)
    requires b == [] || !Is(cls, b[0])
    ensures Run(cls, a + b) == |a|
  {
    if a != [] {
      assert (a + b)[1..] == a[1..] + b;
      RunOfConcat(cls, a[1..], b);
    } else {
      assert a + b == b;
    }
  }

  /** A string split after its longest prefix of `cls` characters. */
  datatype Split = Split(run: string, rest: string)

  function SplitRun(cls: CharClass, s: string): (r: Split)
    ensures r.run + r.rest == s
    ensures r.rest == [] || !Is(cls, r.rest[0])
  {
    var n := Run(cls, s);
    assert s == s[..n] + s[n..];
    Split(s[..n], s[n..])
  }

  lemma SplitRunShape(cls: CharClass, s: string)
    ensures All(cls, SplitRun(cls, s).run)
  {
  }

  lemma SplitRunOfConcat(cls: CharClass, a: string, b: string)
    requires All(cls, a)
    requires b == [] || !Is(cls, b[0])
    ensures SplitRun(cls, a + b) == Split(a, b)
  {
    RunOfConcat(cls, a, b);
    assert (a + b)[..|a|] == a && (a + b)[|a|..] == b;
  }

  /** Two spaces start at index `i` of `s`. */
  predicate DoubleSpaceAt(s: string, i: int)
  {
    0 <= i && i + 1 < |s| && s[i] == ' ' && s[i + 1] == ' '
  }

  /** Python's `s.find("  ", start)`: the first double space at or after `start`, or -1. */
  function FindDoubleSpace(s: string, start: nat): (r: int)
    ensures r == -1 || (start <= r && DoubleSpaceAt(s, r))
    ensures forall i :: start <= i && (r == -1 || i < r) ==> !DoubleSpaceAt(s, i)
    decreases |s| - start
  {
    if start + 1 >= |s| then -1
    else if s[start] == ' ' && s[start + 1] == ' ' then start
    else FindDoubleSpace(s, start + 1)
  }

  /** Python's `s[:j]`: a negative `j` counts from the end, a large one is clipped. */
  function PrefixUpTo(s: string, j: int): (r: string)
    ensures r <= s
    ensures 0 <= j <= |s| ==> r == s[..j]
    ensures -|s| <= j < 0 ==> r == s[..|s| + j]
  {
    if j >= 0 then (if j <= |s| then s[..j] else s)
    else if |s| + j >= 0 then s[..|s| + j]
    else []
  }

  /** Python's `s.replace(" ", "")`. */
  function DeleteSpaces(s: string): (r: string)
    ensures |r| <= |s|
    ensures forall c :: c in r <==> c in s && c != ' '
  {
    if s == [] then []
    else if s[0] == ' ' then DeleteSpaces(s[1..])
    else [s[0]] + DeleteSpaces(s[1..])
  }

  /** The character of a decimal digit. */
  function DigitChar(d: nat): (c: char)
    requires d < 10
    ensures Is(Digit, c) && c as int - '0' as int == d
  {
    ('0' as int + d) as char
  }

  /** Python's `str(n)` for a non-negative integer. */
  function Decimal(n: nat): (r: string)
    ensures |r| > 0 && All(Digit, r)
    ensures n >= 10 ==> r[0] != '0' && |r| >= 2
  {
    if n < 10 then [DigitChar(n)]
    else Decimal(n / 10) + [DigitChar(n % 10)]
  }

  /** Removing the spaces of a concatenation removes them from each part, keeping the order. */
  lemma {:induction false} DeleteSpacesAppend(a: string, b: string)
    ensures DeleteSpaces(a + b) == DeleteSpaces(a) + DeleteSpaces(b)
  {
    if a != [] {
      assert (a + b)[0] == a[0] && (a + b)[1..] == a[1..] + b;
      DeleteSpacesAppend(a[1..], b);
    } else {
      assert a + b == b;
    }
  }

  /** A text without spaces is left as it is. */
  lemma {:induction false} DeleteSpacesNoSpace(s: string)
    requires ' ' !in s
    ensures DeleteSpaces(s) == s
  {
    if s != [] {
      assert s[0] != ' ' && ' ' !in s[1..];
      DeleteSpacesNoSpace(s[1..]);
      assert s == [s[0]] + s[1..];
    }
  }

  /** Distinct numbers have distinct decimal texts, so a keycode is named by its text. */
  lemma {:induction false} DecimalInjective(a: nat, b: nat)
    requires Decimal(a) == Decimal(b)
    ensures a == b
  {
    var da, db := Decimal(a), Decimal(b);
    if a >= 10 && b >= 10 {
      assert da[..|da| - 1] == Decimal(a / 10);
      assert db[..|db| - 1] == Decimal(b / 10);
      DecimalInjective(a / 10, b / 10);
      assert DigitChar(a % 10) == da[|da| - 1] == db[|db| - 1] == DigitChar(b % 10);
    } else if a < 10 && b < 10 {
      assert DigitChar(a) == da[0] == db[0] == DigitChar(b);
    }
  }
}

/** Text helpers shared by the models of the C and C++ sources: searching for a
    character the way `strchr` does, cutting a text at a separator, and the decimal
    notation used by `printf("%u")` and `strtol`. */
module Text {

  datatype Option<+T> = None | Some(value: T)

  function IndexFrom(s: string, c: char, from: nat): (k: nat)
    requires from <= |s|
    ensures from <= k <= |s|
    decreases |s| - from
  {
    if from == |s| || s[from] == c then from else IndexFrom(s, c, from + 1)
  }

  lemma {:induction false} IndexFromFirst(s: string, c: char, from: nat)
    requires from <= |s|
    ensures var k := IndexFrom(s, c, from);
      (k < |s| ==> s[k] == c) && forall i | from <= i < k :: s[i] != c
    decreases |s| - from
  {
    if from < |s| && s[from] != c {
      IndexFromFirst(s, c, from + 1);
    }
  }

  /** Position of the first `c` in `s`, or `|s|` when there is none (the place of the
      terminating NUL that `strchr` stops at). */
  function IndexOf(s: string, c: char): (k: nat)
    ensures k <= |s|
  {
    IndexFrom(s, c, 0)
  }

  lemma IndexOfFirst(s: string, c: char)
    ensures var k := IndexOf(s, c);
      (k < |s| ==> s[k] == c) && c !in s[..k]
  {
    IndexFromFirst(s, c, 0);
  }

  /** The text at its first `c`. */
  lemma CutAt(s: string, c: char)
    requires IndexOf(s, c) < |s|
    ensures var k := IndexOf(s, c); s == s[..k] + [c] + s[k + 1..] && c !in s[..k]
  {
    IndexOfFirst(s, c);
  }

  /** The first occurrence is unique: whatever looks like it, is it. */
  lemma IndexOfIs(s: string, c: char, k: nat)
    requires k <= |s|
    requires k < |s| ==> s[k] == c
    requires c !in s[..k]
    ensures IndexOf(s, c) == k
  {
    IndexFromFirst(s, c, 0);
    forall i | 0 <= i < k
      ensures s[i] != c
    {
      assert s[..k][i] == s[i];
    }
  }

  /** Where the separator lies in `a + [c] + b` when `a` has none. */
  lemma IndexOfPrefix(a: string, c: char, b: string)
    requires c !in a
    ensures IndexOf(a + [c] + b, c) == |a|
  {
    var s := a + [c] + b;
    assert s[..|a|] == a;
    IndexOfIs(s, c, |a|);
  }

  lemma IndexOfAbsent(s: string, c: char)
    ensures IndexOf(s, c) == |s| <==> c !in s
  {
    assert s[..|s|] == s;
    if c !in s {
      IndexOfIs(s, c, |s|);
    } else {
      IndexOfFirst(s, c);
    }
  }

  /** Cut `s` at every `sep`; an empty piece stays a piece. */
  function Split(s: string, sep: char): (parts: seq<string>)
    ensures |parts| >= 1
    decreases |s|
  {
    var k := IndexOf(s, sep);
    if k == |s| then [s] else [s[..k]] + Split(s[k + 1..], sep)
  }

  function Join(parts: seq<string>, sep: char): string
  {
    if |parts| == 0 then ""
    else if |parts| == 1 then parts[0]
    else parts[0] + [sep] + Join(parts[1..], sep)
  }

  /** One piece, its separator, and what follows. */
  lemma SplitStep(piece: string, sep: char, rest: string)
    requires sep !in piece
    ensures Split(piece + [sep] + rest, sep) == [piece] + Split(rest, sep)
  {
    var s := piece + [sep] + rest;
    IndexOfPrefix(piece, sep, rest);
    assert s[..|piece|] == piece;
    assert s[|piece| + 1..] == rest;
  }

  lemma {:induction false} SplitJoin(parts: seq<string>, sep: char)
    requires parts != [] && forall i | 0 <= i < |parts| :: sep !in parts[i]
    ensures Split(Join(parts, sep), sep) == parts
    decreases |parts|
  {
    if |parts| == 1 {
      IndexOfAbsent(parts[0], sep);
    } else {
      SplitStep(parts[0], sep, Join(parts[1..], sep));
      SplitJoin(parts[1..], sep);
    }
  }

  lemma Assoc<T>(a: seq<T>, b: seq<T>, c: seq<T>)
    ensures a + b + c == a + (b + c)
  {
  }

  lemma HeadTail<T>(s: seq<T>)
    requires s != []
    ensures s == [s[0]] + s[1..]
  {
  }

  /** All pieces glued together, as a byte stream is from the chunks read. */
  function Concat(parts: seq<string>): string
  {
    if parts == [] then "" else parts[0] + Concat(parts[1..])
  }

  /** The port of upsd where none is given. */
  const NUT_PORT := 3493

  // ----- decimal notation -----

  predicate IsDigit(c: char) { '0' <= c <= '9' }

  predicate AllDigits(s: string) { forall i | 0 <= i < |s| :: IsDigit(s[i]) }

  function DigitChar(d: nat): char
    requires d < 10
  {
    '0' + d as char
  }

  /** What `%u` prints. */
  function Decimal(n: nat): (s: string)
    ensures s != "" && AllDigits(s)
    ensures s[0] == '0' <==> n == 0
  {
    if n < 10 then [DigitChar(n)] else Decimal(n / 10) + [DigitChar(n % 10)]
  }

  /** So the port of upsd is printed this way. */
  lemma PortIsPrinted()
    ensures Decimal(NUT_PORT) == "3493"
  {
    assert Decimal(3) == "3" && Decimal(34) == "34" && Decimal(349) == "349";
  }

  /** The number an all-digit text stands for. */
  function DigitsValue(s: string): nat
    requires AllDigits(s)
  {
    if s == "" then 0
    else 10 * DigitsValue(s[..|s| - 1]) + (s[|s| - 1] as int - '0' as int)
  }

  lemma {:induction false} DecimalValue(n: nat)
    ensures DigitsValue(Decimal(n)) == n
  {
    var s := Decimal(n);
    if n < 10 {
      assert s[..|s| - 1] == "";
    } else {
      assert s[..|s| - 1] == Decimal(n / 10);
      DecimalValue(n / 10);
    }
  }

  /** The digits a text begins with. */
  function Digits(s: string): (d: string)
    ensures AllDigits(d)
  {
    if s == "" || !IsDigit(s[0]) then "" else [s[0]] + Digits(s[1..])
  }

  lemma {:induction false} DigitsOfDigits(s: string)
    requires AllDigits(s)
    ensures Digits(s) == s
    decreases |s|
  {
    if s != "" {
      DigitsOfDigits(s[1..]);
    }
  }

  predicate IsSpace(c: char) { c == ' ' || '\t' <= c <= '\r' }

  /** `strtol(s, NULL, 10)`: white space, an optional sign, then digits; no digits is 0.
      Values beyond a C `long` are not cut: every caller rejects them either way. */
  function Strtol(s: string): int
  {
    if s == "" then 0
    else if IsSpace(s[0]) then Strtol(s[1..])
    else if s[0] == '-' then -(DigitsValue(Digits(s[1..])) as int)
    else if s[0] == '+' then DigitsValue(Digits(s[1..]))
    else DigitsValue(Digits(s))
  }

  /** The white space `strtol` skips: blank, tab, line feed, vertical tab, form feed, return. */
  const BLANKS := " \t\n\U{000B}\U{000C}\r"

  lemma SpaceIsBlank(c: char)
    ensures IsSpace(c) <==> c in BLANKS
  {
    assert BLANKS[0] == ' ' && BLANKS[1] == '\t' && BLANKS[2] == '\n' && BLANKS[5] == '\r';
    assert BLANKS[3] == '\U{000B}' && BLANKS[4] == '\U{000C}';
    assert '\t' as int == 9 && '\n' as int == 10 && '\r' as int == 13;
    assert BLANKS[3] as int == 11 && BLANKS[4] as int == 12;
  }

  /** Main result on `strtol`: any white space, a sign or none, and a number are read as that number,
      whatever comes after it that is no digit; without a digit it is 0. */
  lemma {:induction false} StrtolReads(blanks: string, digits: string, rest: string)
    requires forall i | 0 <= i < |blanks| :: blanks[i] in BLANKS
    requires AllDigits(digits) && (rest == "" || !IsDigit(rest[0]))
    ensures digits != "" || rest == "" || (rest[0] !in BLANKS && rest[0] != '+' && rest[0] != '-') ==>
      Strtol(blanks + (digits + rest)) == DigitsValue(digits)
    ensures Strtol(blanks + ("+" + (digits + rest))) == DigitsValue(digits)
    ensures Strtol(blanks + ("-" + (digits + rest))) == -(DigitsValue(digits) as int)
    decreases |blanks|
  {
    if blanks == "" {
      DigitsThenRest(digits, rest);
      assert "" + (digits + rest) == digits + rest;
      assert "" + ("+" + (digits + rest)) == "+" + (digits + rest);
      assert "" + ("-" + (digits + rest)) == "-" + (digits + rest);
      assert ("+" + (digits + rest))[1..] == digits + rest && ("-" + (digits + rest))[1..] == digits + rest;
      if digits != "" {
        assert IsDigit(digits[0]) && (digits + rest)[0] == digits[0];
      } else if rest != "" {
        assert digits + rest == rest;
        SpaceIsBlank(rest[0]);
      }
    } else {
      SpaceIsBlank(blanks[0]);
      StrtolReads(blanks[1..], digits, rest);
      assert (blanks + (digits + rest))[1..] == blanks[1..] + (digits + rest);
      assert (blanks + ("+" + (digits + rest)))[1..] == blanks[1..] + ("+" + (digits + rest));
      assert (blanks + ("-" + (digits + rest)))[1..] == blanks[1..] + ("-" + (digits + rest));
    }
  }

  lemma {:induction false} DigitsThenRest(digits: string, rest: string)
    requires AllDigits(digits) && (rest == "" || !IsDigit(rest[0]))
    ensures Digits(digits + rest) == digits
    decreases |digits|
  {
    if digits == "" {
      assert digits + rest == rest;
    } else {
      assert (digits + rest)[1..] == digits[1..] + rest;
      DigitsThenRest(digits[1..], rest);
    }
  }

  /** `strtol` reads back what `%u` printed. */
  lemma StrtolDecimal(n: nat)
    ensures Strtol(Decimal(n)) == n
  {
    var s := Decimal(n);
    assert IsDigit(s[0]);
    DigitsOfDigits(s);
    DecimalValue(n);
  }

  // ----- letter case -----

  function Lower(c: char): char
  {
    if 'A' <= c <= 'Z' then ((c as int) + 32) as char else c
  }

  /** `strcasecmp(a, b) == 0`. */
  predicate SameNoCase(a: string, b: string)
  {
    |a| == |b| && forall i | 0 <= i < |a| :: Lower(a[i]) == Lower(b[i])
  }

  /** The same letter, the first in upper case. */
  predicate CapitalOf(c: char, d: char)
  {
    'A' <= c <= 'Z' && d as int == c as int + 32
  }

  /** What comparing without case means: each character is the same, or the same letter. */
  lemma SameNoCaseMeans(a: string, b: string)
    ensures SameNoCase(a, b) <==>
      |a| == |b| && forall i | 0 <= i < |a| :: a[i] == b[i] || CapitalOf(a[i], b[i]) || CapitalOf(b[i], a[i])
  {
    if |a| == |b| {
      forall i | 0 <= i < |a|
        ensures Lower(a[i]) == Lower(b[i]) <==> a[i] == b[i] || CapitalOf(a[i], b[i]) || CapitalOf(b[i], a[i])
      {
        LowerMeans(a[i], b[i]);
      }
    }
  }

  lemma LowerMeans(c: char, d: char)
    ensures Lower(c) == Lower(d) <==> c == d || CapitalOf(c, d) || CapitalOf(d, c)
  {
  }
}

/** Python string primitives shared by the parsers: whitespace, strip, split, partition,
    the text order of `str`, and decimal numbers. */
module Text {

  datatype Option<+T> = None | Some(value: T)

  // ---------------------------------------------------------------- characters

  predicate IsDigit(c: char) { '0' <= c <= '9' }

  predicate IsLetter(c: char) { 'a' <= c <= 'z' || 'A' <= c <= 'Z' }

  /** `str.isspace`, on all of Unicode. */
  predicate IsSpace(c: char) {
    var n := c as int;
    9 <= n <= 13 || 28 <= n <= 32 || n == 0x85 || n == 0xa0 || n == 0x1680 || 0x2000 <= n <= 0x200a
    || n == 0x2028 || n == 0x2029 || n == 0x202f || n == 0x205f || n == 0x3000
  }

  predicate Lacks(s: string, c: char) { forall i :: 0 <= i < |s| ==> s[i] != c }

  // ---------------------------------------------------------------- strip

  function StripLeft(s: string): string {
    if s != "" && IsSpace(s[0]) then StripLeft(s[1..]) else s
  }

  function StripRight(s: string): string {
    if s != "" && IsSpace(s[|s| - 1]) then StripRight(s[..|s| - 1]) else s
  }

  function Strip(s: string): string { StripRight(StripLeft(s)) }

  /** No outer whitespace. */
  predicate Tight(s: string) { s != "" ==> !IsSpace(s[0]) && !IsSpace(s[|s| - 1]) }

  lemma {:induction false} StripLeftOf(s: string, c: char)
    ensures var r := StripLeft(s); (r != "" ==> !IsSpace(r[0])) && (Lacks(s, c) ==> Lacks(r, c))
  {
    hide IsSpace;
    if s != "" && IsSpace(s[0]) { StripLeftOf(s[1..], c); }
  }

  lemma {:induction false} StripRightOf(s: string, c: char)
    ensures var r := StripRight(s); r <= s && (r != "" ==> !IsSpace(r[|r| - 1])) && (Lacks(s, c) ==> Lacks(r, c))
  {
    hide IsSpace;
    if s != "" && IsSpace(s[|s| - 1]) { StripRightOf(s[..|s| - 1], c); }
  }

  /** Stripping leaves no outer whitespace and brings in no character. */
  lemma StripOf(s: string, c: char)
    ensures Tight(Strip(s)) && (Lacks(s, c) ==> Lacks(Strip(s), c))
  {
    hide IsSpace, StripLeft, StripRight, Lacks;
    StripLeftOf(s, c);
    StripRightOf(StripLeft(s), c);
  }

  lemma StripTight(s: string)
    requires Tight(s)
    ensures Strip(s) == s
  {
    hide IsSpace;
  }

  lemma StripLeading(s: string)
    ensures Strip(" " + s) == Strip(s)
  {
    hide StripRight;
    assert (" " + s)[1..] == s;
  }

  lemma {:induction false} StripTrailing(s: string)
    ensures Strip(s + " ") == Strip(s)
  {
    if s != "" && IsSpace(s[0]) {
      StripTrailingStep(s);
      StripTrailing(s[1..]);
    } else if s == "" {
      assert s + " " == " " && " "[1..] == "";
    } else {
      StripTrailingEnd(s);
    }
  }

  lemma StripTrailingStep(s: string)
    requires s != "" && IsSpace(s[0])
    ensures StripLeft(s + " ") == StripLeft(s[1..] + " ") && StripLeft(s) == StripLeft(s[1..])
  {
    hide IsSpace;
    assert (s + " ")[1..] == s[1..] + " ";
  }

  lemma StripTrailingEnd(s: string)
    requires s != "" && !IsSpace(s[0])
    ensures Strip(s + " ") == Strip(s)
  {
    assert StripLeft(s + " ") == s + " ";
    assert (s + " ")[..|s + " "| - 1] == s;
  }

  /** Spaces around the text do not matter. */
  lemma StripSpaced(lead: string, s: string, after: string)
    requires (lead == "" || lead == " ") && (after == "" || after == " ")
    ensures Strip(lead + s + after) == Strip(s)
  {
    hide Strip;
    StripLeading(s);
    StripTrailing(lead + s);
    assert lead == "" ==> lead + s == s;
    assert after == "" ==> lead + s + after == lead + s;
  }

  // ---------------------------------------------------------------- split and join

  /** `s.split(sep)` for a one-character separator. */
  function SplitOn(s: string, sep: char): (r: seq<string>)
    ensures |r| >= 1
    ensures forall i :: 0 <= i < |r| ==> Lacks(r[i], sep)
  {
    if s == "" then [""]
    else
      var rest := SplitOn(s[1..], sep);
      if s[0] == sep then [""] + rest else [[s[0]] + rest[0]] + rest[1..]
  }

  /** `sep.join(parts)`. */
  function JoinWith(parts: seq<string>, sep: string): string {
    if parts == [] then "" else if |parts| == 1 then parts[0] else parts[0] + sep + JoinWith(parts[1..], sep)
  }

  lemma {:induction false} SplitFirst(head: string, tail: string, sep: char)
    requires Lacks(head, sep)
    ensures SplitOn(head + [sep] + tail, sep) == [head] + SplitOn(tail, sep)
  {
    var s := head + [sep] + tail;
    if head == "" {
      assert s[1..] == tail;
    } else {
      assert s[1..] == head[1..] + [sep] + tail;
      assert forall i :: 0 <= i < |head[1..]| ==> head[1..][i] == head[i + 1];
      SplitFirst(head[1..], tail, sep);
      assert [head[0]] + head[1..] == head;
    }
  }

  lemma {:induction false} SplitWhole(s: string, sep: char)
    requires Lacks(s, sep)
    ensures SplitOn(s, sep) == [s]
  {
    if s != "" {
      assert forall i :: 0 <= i < |s[1..]| ==> s[1..][i] == s[i + 1];
      SplitWhole(s[1..], sep);
      assert [s[0]] + s[1..] == s;
    }
  }

  /** `s.partition(sep)`: the part before the first separator, whether there was one, the part after. */
  function Partition(s: string, sep: char): (r: (string, bool, string))
    ensures Lacks(r.0, sep)
    ensures s == if r.1 then r.0 + [sep] + r.2 else r.0
    ensures !r.1 ==> r.2 == ""
  {
    if s == "" then ("", false, "")
    else if s[0] == sep then ("", true, s[1..])
    else
      var (head, found, tail) := Partition(s[1..], sep);
      ([s[0]] + head, found, tail)
  }

  lemma {:induction false} PartitionAt(head: string, tail: string, sep: char)
    requires Lacks(head, sep)
    ensures Partition(head + [sep] + tail, sep) == (head, true, tail)
  {
    var s := head + [sep] + tail;
    if head == "" {
      assert s[1..] == tail;
    } else {
      assert s[1..] == head[1..] + [sep] + tail;
      assert forall i :: 0 <= i < |head[1..]| ==> head[1..][i] == head[i + 1];
      PartitionAt(head[1..], tail, sep);
      assert [head[0]] + head[1..] == head;
    }
  }

  lemma {:induction false} PartitionNone(s: string, sep: char)
    requires Lacks(s, sep)
    ensures Partition(s, sep) == (s, false, "")
  {
    if s != "" {
      PartitionNone(s[1..], sep);
      assert [s[0]] + s[1..] == s;
    }
  }

  // ---------------------------------------------------------------- the order of str

  /** `str.lower` on ASCII letters. */
  function Lower(s: string): string {
    if s == "" then ""
    else [if 'A' <= s[0] <= 'Z' then s[0] - 'A' + 'a' else s[0]] + Lower(s[1..])
  }

  function SmallLetter(c: char): char
    requires 'A' <= c <= 'Z'
  {
    "abcdefghijklmnopqrstuvwxyz"[c as int - 65]
  }

  /** Letters become small, everything else stays. */
  lemma {:induction false} LowerExactly(s: string)
    ensures |Lower(s)| == |s|
    ensures forall i :: 0 <= i < |s| ==> Lower(s)[i] == if 'A' <= s[i] <= 'Z' then SmallLetter(s[i]) else s[i]
  {
    hide SmallLetter;
    if s != "" {
      LowerExactly(s[1..]);
      if 'A' <= s[0] <= 'Z' { LetterSmall(s[0]); }
    }
  }

  lemma LetterSmall(c: char)
    requires 'A' <= c <= 'Z'
    ensures c - 'A' + 'a' == SmallLetter(c)
  {
  }

  /** -1, 0 or 1, as Python compares two strings by code point. */
  function CompareText(a: string, b: string): int {
    if a == "" && b == "" then 0
    else if a == "" then -1
    else if b == "" then 1
    else if a[0] < b[0] then -1
    else if a[0] > b[0] then 1
    else CompareText(a[1..], b[1..])
  }

  predicate TextLess(a: string, b: string) { CompareText(a, b) < 0 }

  lemma {:induction false} CompareTextLaws(a: string, b: string)
    ensures CompareText(a, b) == -CompareText(b, a)
    ensures -1 <= CompareText(a, b) <= 1
    ensures CompareText(a, b) == 0 <==> a == b
  {
    if a != "" && b != "" && a[0] == b[0] {
      CompareTextLaws(a[1..], b[1..]);
      assert a == [a[0]] + a[1..] && b == [b[0]] + b[1..];
    }
  }

  lemma {:induction false} CompareTextTransitive(a: string, b: string, c: string)
    requires CompareText(a, b) <= 0 && CompareText(b, c) <= 0
    ensures CompareText(a, c) <= 0
    ensures CompareText(a, b) < 0 || CompareText(b, c) < 0 ==> CompareText(a, c) < 0
  {
    if a != "" && b != "" && c != "" && a[0] == b[0] == c[0] {
      CompareTextTransitive(a[1..], b[1..], c[1..]);
    }
  }

  lemma {:induction false} CompareTextPrefix(p: string, a: string, b: string)
    ensures CompareText(p + a, p + b) == CompareText(a, b)
  {
    if p == "" {
      assert p + a == a && p + b == b;
    } else {
      assert (p + a)[1..] == p[1..] + a && (p + b)[1..] == p[1..] + b;
      CompareTextPrefix(p[1..], a, b);
    }
  }

  // ---------------------------------------------------------------- decimal numbers

  function DigitChar(d: nat): (c: char)
    requires d < 10
    ensures IsDigit(c) && DigitValue(c) == d
  {
    '0' + d as char
  }

  function DigitValue(c: char): (d: nat)
    requires IsDigit(c)
    ensures d < 10
  {
    c as int - '0' as int
  }

  predicate AllDigits(s: string) { s != "" && forall i :: 0 <= i < |s| ==> IsDigit(s[i]) }

  /** `str(n)` for a natural number. */
  function Digits(n: nat): (s: string)
    ensures AllDigits(s)
    ensures s[0] == '0' <==> n == 0
  {
    if n < 10 then [DigitChar(n)] else Digits(n / 10) + [DigitChar(n % 10)]
  }

  /** The number a run of digits denotes; the empty run denotes 0. */
  function DigitsValue(s: string): nat
    requires forall i :: 0 <= i < |s| ==> IsDigit(s[i])
  {
    if s == "" then 0 else 10 * DigitsValue(s[..|s| - 1]) + DigitValue(s[|s| - 1])
  }

  lemma {:induction false} DigitsValueOfDigits(n: nat)
    ensures DigitsValue(Digits(n)) == n
  {
    var s := Digits(n);
    if n < 10 {
      assert s[..0] == "";
    } else {
      assert s[..|s| - 1] == Digits(n / 10);
      DigitsValueOfDigits(n / 10);
    }
  }

  lemma {:induction false} LongerDigits(m: nat, n: nat)
    requires m <= n
    ensures |Digits(m)| <= |Digits(n)|
  {
    if n >= 10 && m >= 10 { LongerDigits(m / 10, n / 10); }
  }

  lemma {:induction false} SameLengthDigits(m: nat, n: nat)
    requires m < n && |Digits(m)| == |Digits(n)|
    ensures CompareText(Digits(m), Digits(n)) == -1
  {
    if n >= 10 {
      var (a, b) := (Digits(m / 10), Digits(n / 10));
      var (x, y) := ([DigitChar(m % 10)], [DigitChar(n % 10)]);
      if m / 10 == n / 10 {
        CompareTextPrefix(a, x, y);
      } else {
        SameLengthDigits(m / 10, n / 10);
        CompareTextAppend(a, b, x, y);
      }
    }
  }

  lemma {:induction false} CompareTextAppend(a: string, b: string, x: string, y: string)
    requires |a| == |b| && CompareText(a, b) != 0
    ensures CompareText(a + x, b + y) == CompareText(a, b)
  {
    if a[0] == b[0] {
      assert (a + x)[1..] == a[1..] + x && (b + y)[1..] == b[1..] + y;
      CompareTextAppend(a[1..], b[1..], x, y);
    }
  }

  /** Python's `int(s)` on ASCII text: outer whitespace, a sign, single underscores between digits. */
  function ReadInt(s: string): Option<int> {
    var t := Strip(s);
    if t == "" then None
    else if t[0] == '-' then Negated(ReadNat(t[1..]))
    else if t[0] == '+' then ReadNat(t[1..])
    else ReadNat(t)
  }

  function Negated(n: Option<int>): Option<int> {
    match n case None => None case Some(i) => Some(-i)
  }

  function ReadNat(t: string): Option<nat> {
    if t == "" || !IsDigit(t[|t| - 1]) then None
    else if |t| == 1 then Some(DigitValue(t[0]))
    else
      var head := t[..|t| - 1];
      match ReadNat(if head[|head| - 1] == '_' then head[..|head| - 1] else head)
      case None => None
      case Some(n) => Some(10 * n + DigitValue(t[|t| - 1]))
  }

  lemma {:induction false} ReadNatOfDigits(s: string)
    requires AllDigits(s)
    ensures ReadNat(s) == Some(DigitsValue(s))
  {
    if |s| == 1 {
      assert s[..0] == "";
    } else {
      ReadNatOfDigits(s[..|s| - 1]);
    }
  }

  lemma ReadIntOfNumber(s: string)
    requires AllDigits(s)
    ensures ReadInt(s) == Some(DigitsValue(s))
  {
    assert IsDigit(s[0]) && IsDigit(s[|s| - 1]);
    StripTight(s);
    assert ReadInt(s) == ReadNat(s);
    ReadNatOfDigits(s);
  }

  lemma {:induction false} DigitsValuePadded(s: string)
    requires AllDigits(s)
    ensures AllDigits("0" + s) && DigitsValue("0" + s) == DigitsValue(s)
  {
    var t := "0" + s;
    if |s| == 1 {
      assert t[..1] == "0" && s[..0] == "";
      assert "0"[..0] == "";
    } else {
      assert t[..|t| - 1] == "0" + s[..|s| - 1];
      DigitsValuePadded(s[..|s| - 1]);
    }
  }

  lemma ReadIntOfDigits(n: nat)
    ensures ReadInt(Digits(n)) == Some(n)
  {
    ReadIntOfNumber(Digits(n));
    DigitsValueOfDigits(n);
  }

  lemma DigitsInjective(m: nat, n: nat)
    requires Digits(m) == Digits(n)
    ensures m == n
  {
    DigitsValueOfDigits(m);
    DigitsValueOfDigits(n);
  }

  // ---------------------------------------------------------------- which characters, which numbers

  /** Whitespace in ASCII. */
  lemma AsciiSpaces(c: char)
    requires c as int < 128
    ensures IsSpace(c) <==> c as int in {9, 10, 11, 12, 13, 28, 29, 30, 31, 32}
  {
  }

  /** A sign and an underscore between digits are read, an underscore anywhere else is not. */
  lemma NumbersRead(m: nat, d: nat)
    requires d < 10
    ensures ReadInt("+" + Digits(m)) == Some(m)
    ensures ReadNat(Digits(m) + ("_" + [DigitChar(d)])) == Some(10 * m + d)
    ensures ReadNat("_" + [DigitChar(d)]).None? && ReadNat(Digits(m) + "_").None?
  {
    hide Digits, Strip;
    var s := "+" + Digits(m);
    assert IsDigit(Digits(m)[|Digits(m)| - 1]) && s[|s| - 1] == Digits(m)[|Digits(m)| - 1];
    StripTight(s);
    assert s[1..] == Digits(m);
    ReadNatOfDigits(Digits(m));
    DigitsValueOfDigits(m);
    var t := Digits(m) + ("_" + [DigitChar(d)]);
    assert t[..|t| - 1] == Digits(m) + "_" && t[|t| - 1] == DigitChar(d);
    assert (Digits(m) + "_")[..|Digits(m)|] == Digits(m);
    assert ("_" + [DigitChar(d)])[..1] == "_" && "_"[..0] == "";
  }
}

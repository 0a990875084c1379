/** Debian version comparison (buster/osbuild/resolver.py): `vercmp` over tokenised versions,
    the order laws it keeps, and where it agrees with section 5.6.12 of the Debian Policy Manual. */
module Versions {
  import opened Text

  // ---------------------------------------------------------------- tokens

  datatype CharClass = Number | Word | Mark | Skipped

  function Classify(c: char): CharClass {
    if IsDigit(c) then Number
    else if IsLetter(c) then Word
    else if c in ".+~-" then Mark
    else Skipped
  }

  /** Length of the longest prefix of `s` in one character class. */
  function RunLength(s: string, cls: CharClass): (n: nat)
    ensures n <= |s|
    ensures forall i :: 0 <= i < n ==> Classify(s[i]) == cls
    ensures n < |s| ==> Classify(s[n]) != cls
  {
    if s != "" && Classify(s[0]) == cls then 1 + RunLength(s[1..], cls) else 0
  }

  /** Matches of `[0-9]+|[a-zA-Z]+|[.+~-]`; characters outside all three are skipped. */
  function Pieces(s: string): seq<string> {
    if s == "" then []
    else
      match Classify(s[0])
      case Skipped => Pieces(s[1..])
      case Mark => [[s[0]]] + Pieces(s[1..])
      case cls => var n := RunLength(s, cls); [s[..n]] + Pieces(s[n..])
  }

  // ---------------------------------------------------------------- comparison

  function ComparePiece(a: string, b: string): int {
    if AllDigits(a) && AllDigits(b) then
      if |a| != |b| then (if |a| > |b| then 1 else -1)
      else if a != b then (if TextLess(b, a) then 1 else -1)
      else 0
    else if AllDigits(a) then 1
    else if AllDigits(b) then -1
    else if a != b then (if TextLess(b, a) then 1 else -1)
    else 0
  }

  /** The order of token lists: the first difference decides, and a proper prefix is smaller. */
  function CompareTokens(a: seq<string>, b: seq<string>): int {
    if a == [] && b == [] then 0
    else if a == [] then -1
    else if b == [] then 1
    else
      var c := ComparePiece(a[0], b[0]);
      if c != 0 then c else CompareTokens(a[1..], b[1..])
  }

  method CmpComponent(a: string, b: string) returns (r: int)
    ensures r == CompareTokens(Pieces(a), Pieces(b))
  {
    var aParts, bParts := Pieces(a), Pieces(b);
    var aIdx, bIdx := 0, 0;
    while aIdx < |aParts| || bIdx < |bParts|
      invariant aIdx == bIdx <= |aParts|
      invariant bIdx <= |bParts|
      invariant CompareTokens(aParts, bParts) == CompareTokens(aParts[aIdx..], bParts[bIdx..])
      decreases |aParts| - aIdx
    {
      if aIdx == |aParts| { return -1; }
      if bIdx == |bParts| { return 1; }
      var aPart, bPart := aParts[aIdx], bParts[bIdx];
      if AllDigits(aPart) && AllDigits(bPart) {
        if |aPart| != |bPart| { return if |aPart| > |bPart| then 1 else -1; }
        if aPart != bPart { return if TextLess(bPart, aPart) then 1 else -1; }
      } else if AllDigits(aPart) {
        return 1;
      } else if AllDigits(bPart) {
        return -1;
      } else if aPart != bPart {
        return if TextLess(bPart, aPart) then 1 else -1;
      }
      aIdx, bIdx := aIdx + 1, bIdx + 1;
    }
    return 0;
  }

  /** Epoch text and the rest; an epoch that is not an integer belongs to the version. */
  function SplitVersion(version: string): (r: (string, string))
    ensures ReadInt(r.0).Some?
  {
    assert ReadInt("0").Some? by { ReadIntOfDigits(0); assert Digits(0) == "0"; }
    var (epoch, found, rest) := Partition(version, ':');
    if found && ReadInt(epoch).Some? then (epoch, rest) else ("0", version)
  }

  function EpochText(version: string): string { SplitVersion(version).0 }

  function EpochValue(version: string): int { ReadInt(SplitVersion(version).0).value }

  function UpstreamTokens(version: string): seq<string> {
    Pieces(Partition(SplitVersion(version).1, '-').0)
  }

  function RevisionTokens(version: string): seq<string> {
    Pieces(Partition(SplitVersion(version).1, '-').2)
  }

  function Vercmp(a: string, b: string): int {
    if EpochText(a) != EpochText(b) then
      if EpochValue(a) < EpochValue(b) then -1 else 1
    else
      CompareBodies(UpstreamTokens(a), RevisionTokens(a), UpstreamTokens(b), RevisionTokens(b))
  }

  /** Upstream parts first, then the rest after the first hyphen. */
  function CompareBodies(aUp: seq<string>, aDown: seq<string>, bUp: seq<string>, bDown: seq<string>): int {
    var result := CompareTokens(aUp, bUp);
    if result != 0 then result else CompareTokens(aDown, bDown)
  }

  // ---------------------------------------------------------------- order laws

  lemma ComparePieceLaws(a: string, b: string)
    ensures ComparePiece(a, b) == -ComparePiece(b, a)
    ensures -1 <= ComparePiece(a, b) <= 1
    ensures ComparePiece(a, b) == 0 <==> a == b
  {
    CompareTextLaws(a, b);
  }

  lemma ComparePieceTransitive(a: string, b: string, c: string)
    requires ComparePiece(a, b) <= 0 && ComparePiece(b, c) <= 0
    ensures ComparePiece(a, c) <= 0
    ensures ComparePiece(a, b) < 0 || ComparePiece(b, c) < 0 ==> ComparePiece(a, c) < 0
  {
    CompareTextLaws(a, b);
    CompareTextLaws(b, c);
    CompareTextLaws(a, c);
    if CompareText(a, b) <= 0 && CompareText(b, c) <= 0 { CompareTextTransitive(a, b, c); }
  }

  lemma {:induction false} CompareTokensLaws(a: seq<string>, b: seq<string>)
    ensures CompareTokens(a, b) == -CompareTokens(b, a)
    ensures -1 <= CompareTokens(a, b) <= 1
    ensures CompareTokens(a, b) == 0 <==> a == b
  {
    if a != [] && b != [] {
      ComparePieceLaws(a[0], b[0]);
      CompareTokensLaws(a[1..], b[1..]);
      assert a == [a[0]] + a[1..] && b == [b[0]] + b[1..];
    }
  }

  lemma {:induction false} CompareTokensTransitive(a: seq<string>, b: seq<string>, c: seq<string>)
    requires CompareTokens(a, b) <= 0 && CompareTokens(b, c) <= 0
    ensures CompareTokens(a, c) <= 0
    ensures CompareTokens(a, b) < 0 || CompareTokens(b, c) < 0 ==> CompareTokens(a, c) < 0
  {
    if a != [] && b != [] && c != [] {
      ComparePieceLaws(a[0], b[0]);
      ComparePieceLaws(b[0], c[0]);
      ComparePieceTransitive(a[0], b[0], c[0]);
      if a[0] == b[0] == c[0] { CompareTokensTransitive(a[1..], b[1..], c[1..]); }
      ComparePieceLaws(a[0], c[0]);
    }
  }

  /** The two epochs are spelt alike exactly when they are the same number. */
  predicate EpochsAgree(a: string, b: string) {
    EpochText(a) == EpochText(b) <==> EpochValue(a) == EpochValue(b)
  }

  /** The epoch is written as `str` writes its value. */
  predicate CanonicalEpoch(a: string) {
    EpochValue(a) >= 0 && EpochText(a) == Digits(EpochValue(a))
  }

  lemma CanonicalEpochsAgree(a: string, b: string)
    requires CanonicalEpoch(a) && CanonicalEpoch(b)
    ensures EpochsAgree(a, b)
  {
  }

  lemma CompareBodiesLaws(aUp: seq<string>, aDown: seq<string>, bUp: seq<string>, bDown: seq<string>)
    ensures CompareBodies(aUp, aDown, bUp, bDown) == -CompareBodies(bUp, bDown, aUp, aDown)
    ensures -1 <= CompareBodies(aUp, aDown, bUp, bDown) <= 1
    ensures CompareBodies(aUp, aDown, bUp, bDown) == 0 <==> aUp == bUp && aDown == bDown
  {
    CompareTokensLaws(aUp, bUp);
    CompareTokensLaws(aDown, bDown);
  }

  lemma CompareBodiesTransitive(aUp: seq<string>, aDown: seq<string>, bUp: seq<string>, bDown: seq<string>,
                                cUp: seq<string>, cDown: seq<string>)
    requires CompareBodies(aUp, aDown, bUp, bDown) <= 0 && CompareBodies(bUp, bDown, cUp, cDown) <= 0
    ensures CompareBodies(aUp, aDown, cUp, cDown) <= 0
    ensures CompareBodies(aUp, aDown, bUp, bDown) < 0 || CompareBodies(bUp, bDown, cUp, cDown) < 0
            ==> CompareBodies(aUp, aDown, cUp, cDown) < 0
  {
    CompareTokensLaws(aUp, bUp);
    CompareTokensLaws(bUp, cUp);
    CompareTokensLaws(aUp, cUp);
    CompareTokensTransitive(aUp, bUp, cUp);
    if aUp == bUp == cUp { CompareTokensTransitive(aDown, bDown, cDown); }
  }

  lemma VercmpZero(a: string, b: string)
    ensures Vercmp(a, b) == 0 <==>
              EpochText(a) == EpochText(b) && UpstreamTokens(a) == UpstreamTokens(b)
              && RevisionTokens(a) == RevisionTokens(b)
    ensures -1 <= Vercmp(a, b) <= 1
  {
    CompareBodiesLaws(UpstreamTokens(a), RevisionTokens(a), UpstreamTokens(b), RevisionTokens(b));
  }

  /** Exactly when the epochs agree are the two directions of a comparison consistent, and only then
      is one of two versions at most the other. */
  lemma VercmpAntisymmetric(a: string, b: string)
    ensures Vercmp(a, b) == -Vercmp(b, a) <==> EpochsAgree(a, b)
    ensures Vercmp(a, b) <= 0 || Vercmp(b, a) <= 0 <==> EpochsAgree(a, b)
  {
    CompareBodiesLaws(UpstreamTokens(a), RevisionTokens(a), UpstreamTokens(b), RevisionTokens(b));
  }

  /** `<=` is transitive on every three strings, however their epochs are spelt. */
  lemma VercmpTransitive(a: string, b: string, c: string)
    requires Vercmp(a, b) <= 0 && Vercmp(b, c) <= 0
    ensures Vercmp(a, c) <= 0
    ensures Vercmp(a, b) < 0 || Vercmp(b, c) < 0 ==> Vercmp(a, c) < 0
  {
    if EpochText(a) == EpochText(b) == EpochText(c) {
      CompareBodiesTransitive(UpstreamTokens(a), RevisionTokens(a), UpstreamTokens(b), RevisionTokens(b),
                              UpstreamTokens(c), RevisionTokens(c));
    }
  }

  /** `>=` is transitive too once adjacent epochs agree ... */
  lemma VercmpTransitiveDown(a: string, b: string, c: string)
    requires EpochsAgree(a, b) && EpochsAgree(b, c)
    requires Vercmp(a, b) >= 0 && Vercmp(b, c) >= 0
    ensures Vercmp(a, c) >= 0
  {
    VercmpAntisymmetric(a, b);
    VercmpAntisymmetric(b, c);
    VercmpAntisymmetric(a, c);
    VercmpTransitive(c, b, a);
  }

  /** ... and not otherwise: once one epoch is spelt with and without a leading zero, two versions are each
      later than the other, and `e:m >= 0e:m >= e:n` although `e:m < e:n`. */
  lemma EpochSpellingBreaksOrder(e: string, m: string, n: string)
    requires AllDigits(e) && AllDigits(m) && AllDigits(n) && ComparePiece(m, n) < 0
    ensures Vercmp(e + ":" + m, "0" + e + ":" + m) == 1 && Vercmp("0" + e + ":" + m, e + ":" + m) == 1
    ensures Vercmp("0" + e + ":" + m, e + ":" + n) == 1 && Vercmp(e + ":" + m, e + ":" + n) == -1
  {
    DigitsValuePadded(e);
    ReadIntOfNumber(e);
    ReadIntOfNumber("0" + e);
    OneNumber(e, m);
    OneNumber("0" + e, m);
    OneNumber(e, n);
    ComparePieceLaws(m, n);
  }

  lemma OneNumber(epoch: string, number: string)
    requires AllDigits(epoch) && AllDigits(number)
    ensures EpochText(epoch + ":" + number) == epoch
    ensures UpstreamTokens(epoch + ":" + number) == [number] && RevisionTokens(epoch + ":" + number) == []
  {
    EpochedVersion(epoch, number);
    PartitionNone(number, '-');
    assert number + "" == number;
    PiecesOfNumber(number, "");
  }

  lemma EpochedVersion(epoch: string, rest: string)
    requires AllDigits(epoch)
    ensures SplitVersion(epoch + ":" + rest) == (epoch, rest)
  {
    PartitionAt(epoch, rest, ':');
    ReadIntOfNumber(epoch);
  }

  lemma PiecesOfNumber(d: string, rest: string)
    requires AllDigits(d) && (rest != "" ==> !IsDigit(rest[0]))
    ensures Pieces(d + rest) == [d] + Pieces(rest)
  {
    RunOfNumber(d, rest);
    assert (d + rest)[..|d|] == d && (d + rest)[|d|..] == rest;
  }

  lemma {:induction false} RunOfNumber(d: string, rest: string)
    requires forall i :: 0 <= i < |d| ==> IsDigit(d[i])
    requires rest != "" ==> !IsDigit(rest[0])
    ensures RunLength(d + rest, Number) == |d|
  {
    if d == "" {
      assert d + rest == rest;
    } else {
      assert (d + rest)[1..] == d[1..] + rest && (d + rest)[0] == d[0];
      RunOfNumber(d[1..], rest);
    }
  }
}

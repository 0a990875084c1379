/** Section 5.6.12 of the Debian Policy Manual as a reference, and exactly where `vercmp` agrees with it
    on numeric versions. */
module VersionPolicy {
  import opened Text
  import opened Versions

  // ---------------------------------------------------------------- the reference order

  /** Length of the initial part holding only digits (or only non-digits). */
  function Span(s: string, digits: bool): (n: nat)
    ensures n <= |s|
    ensures forall i :: 0 <= i < n ==> IsDigit(s[i]) == digits
    ensures n < |s| ==> IsDigit(s[n]) != digits
  {
    if s != "" && IsDigit(s[0]) == digits then 1 + Span(s[1..], digits) else 0
  }

  /** A tilde sorts before the end of the part, letters before everything else. */
  function Weight(s: string): int {
    if s == "" then 0
    else if s[0] == '~' then -1
    else if IsLetter(s[0]) then s[0] as int
    else s[0] as int + 0x110000
  }

  function CompareNonDigits(a: string, b: string): int {
    if a == "" && b == "" then 0
    else if Weight(a) != Weight(b) then (if Weight(a) < Weight(b) then -1 else 1)
    else CompareNonDigits(a[1..], b[1..])
  }

  function Sign(i: int): int { if i < 0 then -1 else if i > 0 then 1 else 0 }

  /** Non-digit part, then number, and again on what is left. */
  function ComparePart(a: string, b: string): int
    decreases |a| + |b|
  {
    if a == "" && b == "" then 0
    else
      var (i, j) := (Span(a, false), Span(b, false));
      var c := CompareNonDigits(a[..i], b[..j]);
      if c != 0 then c
      else
        var (k, l) := (Span(a[i..], true), Span(b[j..], true));
        var d := DigitsValue(a[i..][..k]) - DigitsValue(b[j..][..l]);
        if d != 0 then Sign(d)
        else ComparePart(a[i..][k..], b[j..][l..])
  }

  /** `s` cut at its last hyphen; with no hyphen the second part is "0". */
  function CutLast(s: string): (string, string)
    decreases |s|
  {
    if Lacks(s, '-') then (s, "0")
    else if s[|s| - 1] == '-' then (s[..|s| - 1], "")
    else var (up, down) := CutLast(s[..|s| - 1]); (up, down + [s[|s| - 1]])
  }

  function PolicyEpoch(s: string): int {
    var (epoch, found, _) := Partition(s, ':');
    if found && ReadInt(epoch).Some? then ReadInt(epoch).value else 0
  }

  function PolicyBody(s: string): (string, string) {
    var (_, found, rest) := Partition(s, ':');
    CutLast(if found then rest else s)
  }

  function PolicyCompare(a: string, b: string): int {
    if PolicyEpoch(a) != PolicyEpoch(b) then Sign(PolicyEpoch(a) - PolicyEpoch(b))
    else
      var up := ComparePart(PolicyBody(a).0, PolicyBody(b).0);
      if up != 0 then up else ComparePart(PolicyBody(a).1, PolicyBody(b).1)
  }

  // ---------------------------------------------------------------- numeric versions

  /** `[epoch:]n.n.n[-n.n.n]`, every number written without leading zeros. */
  datatype Numeric = Numeric(epoch: Option<nat>, upstream: seq<nat>, revision: Option<seq<nat>>)

  predicate WellFormed(v: Numeric) {
    v.upstream != [] && (v.revision.Some? ==> v.revision.value != [])
  }

  /** Each number preceded by a dot. */
  function DotTail(ns: seq<nat>): (s: string)
    ensures s == "" <==> ns == []
    ensures s != "" ==> s[0] == '.'
    ensures Lacks(s, '-') && Lacks(s, ':')
  {
    if ns == [] then "" else "." + (Digits(ns[0]) + DotTail(ns[1..]))
  }

  function Dotted(ns: seq<nat>): (s: string)
    requires ns != []
    ensures s != "" && IsDigit(s[0]) && Lacks(s, '-') && Lacks(s, ':')
  {
    Digits(ns[0]) + DotTail(ns[1..])
  }

  function Print(v: Numeric): string
    requires WellFormed(v)
  {
    (if v.epoch.Some? then Digits(v.epoch.value) + ":" else "") + PrintBody(v)
  }

  function PrintBody(v: Numeric): (s: string)
    requires WellFormed(v)
    ensures s != "" && IsDigit(s[0]) && Lacks(s, ':')
  {
    Dotted(v.upstream) + if v.revision.Some? then "-" + Dotted(v.revision.value) else ""
  }

  function EpochNumber(v: Numeric): nat { if v.epoch.Some? then v.epoch.value else 0 }

  /** Numbers in turn; a proper prefix is smaller. */
  function CompareNumbers(a: seq<nat>, b: seq<nat>): int {
    if a == [] && b == [] then 0
    else if a == [] then -1
    else if b == [] then 1
    else if a[0] != b[0] then (if a[0] < b[0] then -1 else 1)
    else CompareNumbers(a[1..], b[1..])
  }

  // ---------------------------------------------------------------- vercmp on numeric versions

  /** Shorter digit strings are smaller numbers, and text decides between equal lengths. */
  lemma NumbersAsPieces(m: nat, n: nat)
    ensures ComparePiece(Digits(m), Digits(n)) == Sign(m - n)
  {
    if m < n {
      NumbersInOrder(m, n);
    } else if n < m {
      NumbersInOrder(n, m);
      ComparePieceLaws(Digits(m), Digits(n));
    }
  }

  lemma NumbersInOrder(m: nat, n: nat)
    requires m < n
    ensures ComparePiece(Digits(m), Digits(n)) == -1
  {
    LongerDigits(m, n);
    if |Digits(m)| == |Digits(n)| {
      SameLengthDigits(m, n);
      CompareTextLaws(Digits(m), Digits(n));
    }
  }

  /** The token list of `DotTail`. */
  function DotTokens(ns: seq<nat>): seq<string> {
    if ns == [] then [] else ["."] + ([Digits(ns[0])] + DotTokens(ns[1..]))
  }

  lemma {:induction false} PiecesOfTail(ns: seq<nat>)
    ensures Pieces(DotTail(ns)) == DotTokens(ns)
  {
    if ns != [] {
      var rest := Digits(ns[0]) + DotTail(ns[1..]);
      assert ("." + rest)[1..] == rest && ("." + rest)[0] == '.' && Classify('.') == Mark;
      PiecesOfNumber(Digits(ns[0]), DotTail(ns[1..]));
      PiecesOfTail(ns[1..]);
    }
  }

  lemma {:induction false} CompareTails(a: seq<nat>, b: seq<nat>)
    ensures CompareTokens(DotTokens(a), DotTokens(b)) == CompareNumbers(a, b)
  {
    if a != [] && b != [] {
      var (x, y) := ([Digits(a[0])] + DotTokens(a[1..]), [Digits(b[0])] + DotTokens(b[1..]));
      assert DotTokens(a)[1..] == x && DotTokens(b)[1..] == y;
      assert ComparePiece(".", ".") == 0;
      NumbersAsPieces(a[0], b[0]);
      assert x[1..] == DotTokens(a[1..]) && y[1..] == DotTokens(b[1..]);
      CompareTails(a[1..], b[1..]);
    }
  }

  lemma CompareDotted(a: seq<nat>, b: seq<nat>)
    requires a != [] && b != []
    ensures CompareTokens(Pieces(Dotted(a)), Pieces(Dotted(b))) == CompareNumbers(a, b)
  {
    PiecesOfNumber(Digits(a[0]), DotTail(a[1..]));
    PiecesOfNumber(Digits(b[0]), DotTail(b[1..]));
    PiecesOfTail(a[1..]);
    PiecesOfTail(b[1..]);
    var (x, y) := (Pieces(Dotted(a)), Pieces(Dotted(b)));
    assert x[1..] == DotTokens(a[1..]) && y[1..] == DotTokens(b[1..]);
    NumbersAsPieces(a[0], b[0]);
    CompareTails(a[1..], b[1..]);
  }

  lemma SplitPrinted(v: Numeric)
    requires WellFormed(v)
    ensures SplitVersion(Print(v)) == (Digits(EpochNumber(v)), PrintBody(v))
    ensures PolicyEpoch(Print(v)) == EpochNumber(v)
    ensures PolicyBody(Print(v)) == CutLast(PrintBody(v))
  {
    if v.epoch.Some? {
      ReadIntOfDigits(v.epoch.value);
      PartitionAt(Digits(v.epoch.value), PrintBody(v), ':');
    } else {
      assert Print(v) == PrintBody(v);
      PartitionNone(PrintBody(v), ':');
      assert Digits(0) == "0";
    }
  }

  lemma PartitionPrinted(v: Numeric)
    requires WellFormed(v)
    ensures Partition(PrintBody(v), '-').0 == Dotted(v.upstream)
    ensures Partition(PrintBody(v), '-').2 == if v.revision.Some? then Dotted(v.revision.value) else ""
  {
    if v.revision.Some? {
      assert PrintBody(v) == Dotted(v.upstream) + ['-'] + Dotted(v.revision.value);
      PartitionAt(Dotted(v.upstream), Dotted(v.revision.value), '-');
    } else {
      assert PrintBody(v) == Dotted(v.upstream);
      PartitionNone(PrintBody(v), '-');
    }
  }

  function RevisionNumbers(v: Numeric): seq<nat> { if v.revision.Some? then v.revision.value else [] }

  lemma TokensPrinted(v: Numeric)
    requires WellFormed(v)
    ensures EpochText(Print(v)) == Digits(EpochNumber(v)) && EpochValue(Print(v)) == EpochNumber(v)
    ensures UpstreamTokens(Print(v)) == Pieces(Dotted(v.upstream))
    ensures RevisionTokens(Print(v)) == if v.revision.Some? then Pieces(Dotted(v.revision.value)) else []
  {
    SplitPrinted(v);
    PartitionPrinted(v);
    ReadIntOfDigits(EpochNumber(v));
  }

  lemma CompareRevisions(a: Option<seq<nat>>, b: Option<seq<nat>>)
    requires (a.Some? ==> a.value != []) && (b.Some? ==> b.value != [])
    ensures CompareTokens(if a.Some? then Pieces(Dotted(a.value)) else [],
                          if b.Some? then Pieces(Dotted(b.value)) else [])
         == CompareNumbers(if a.Some? then a.value else [], if b.Some? then b.value else [])
  {
    if a.Some? { PiecesOfNumber(Digits(a.value[0]), DotTail(a.value[1..])); }
    if b.Some? { PiecesOfNumber(Digits(b.value[0]), DotTail(b.value[1..])); }
    if a.Some? && b.Some? { CompareDotted(a.value, b.value); }
  }

  lemma VercmpByParts(a: string, b: string)
    ensures Vercmp(a, b) ==
              if EpochText(a) != EpochText(b) then (if EpochValue(a) < EpochValue(b) then -1 else 1)
              else CompareBodies(UpstreamTokens(a), RevisionTokens(a), UpstreamTokens(b), RevisionTokens(b))
  {
  }

  lemma VercmpNumeric(v: Numeric, w: Numeric)
    requires WellFormed(v) && WellFormed(w)
    ensures Vercmp(Print(v), Print(w)) ==
              if EpochNumber(v) != EpochNumber(w) then Sign(EpochNumber(v) - EpochNumber(w))
              else if v.upstream != w.upstream then CompareNumbers(v.upstream, w.upstream)
              else CompareNumbers(RevisionNumbers(v), RevisionNumbers(w))
  {
    TokensPrinted(v);
    TokensPrinted(w);
    CompareDotted(v.upstream, w.upstream);
    CompareNumbersZero(v.upstream, w.upstream);
    CompareRevisions(v.revision, w.revision);
    var result := CompareBodies(UpstreamTokens(Print(v)), RevisionTokens(Print(v)),
                                UpstreamTokens(Print(w)), RevisionTokens(Print(w)));
    assert result == if v.upstream != w.upstream then CompareNumbers(v.upstream, w.upstream)
                     else CompareNumbers(RevisionNumbers(v), RevisionNumbers(w));
    VercmpByParts(Print(v), Print(w));
    if EpochNumber(v) != EpochNumber(w) && Digits(EpochNumber(v)) == Digits(EpochNumber(w)) {
      DigitsInjective(EpochNumber(v), EpochNumber(w));
    }
  }

  lemma {:induction false} CompareNumbersZero(a: seq<nat>, b: seq<nat>)
    ensures CompareNumbers(a, b) == 0 <==> a == b
  {
    if a != [] && b != [] && a[0] == b[0] {
      CompareNumbersZero(a[1..], b[1..]);
      assert a == [a[0]] + a[1..] && b == [b[0]] + b[1..];
    }
  }

  // ---------------------------------------------------------------- the reference on numeric versions

  lemma {:induction false} SpanOf(d: string, rest: string, digits: bool)
    requires forall i :: 0 <= i < |d| ==> IsDigit(d[i]) == digits
    requires rest != "" ==> IsDigit(rest[0]) != digits
    ensures Span(d + rest, digits) == |d|
  {
    if d == "" {
      assert d + rest == rest;
    } else {
      assert (d + rest)[1..] == d[1..] + rest;
      SpanOf(d[1..], rest, digits);
    }
  }

  /** How one round of the comparison cuts a non-digit part, a number and a dotted tail. */
  lemma RoundParts(p: string, m: nat, ns: seq<nat>, s: string)
    requires (p == "" || p == ".") && s == p + (Digits(m) + DotTail(ns))
    ensures Span(s, false) == |p| && s[..|p|] == p
    ensures Span(s[|p|..], true) == |Digits(m)|
    ensures s[|p|..][..|Digits(m)|] == Digits(m) && s[|p|..][|Digits(m)|..] == DotTail(ns)
    ensures DigitsValue(Digits(m)) == m
  {
    var x := Digits(m) + DotTail(ns);
    SpanOf(p, x, false);
    assert s[|p|..] == x;
    SpanOf(Digits(m), DotTail(ns), true);
    DigitsValueOfDigits(m);
  }

  /** One round: equal non-digit parts `p`, then two numbers, then dotted tails. */
  lemma PolicyRound(p: string, m: nat, a: seq<nat>, n: nat, b: seq<nat>)
    requires p == "" || p == "."
    ensures ComparePart(p + (Digits(m) + DotTail(a)), p + (Digits(n) + DotTail(b)))
         == if m != n then Sign(m - n) else ComparePart(DotTail(a), DotTail(b))
  {
    var (s, t) := (p + (Digits(m) + DotTail(a)), p + (Digits(n) + DotTail(b)));
    RoundParts(p, m, a, s);
    RoundParts(p, n, b, t);
    assert CompareNonDigits(p, p) == 0;
    assert s != "" && t != "";
  }

  /** A dotted tail against the end of the version. */
  lemma PolicyEnd(ns: seq<nat>)
    requires ns != []
    ensures ComparePart(DotTail(ns), "") == 1 && ComparePart("", DotTail(ns)) == -1
  {
    var rest := Digits(ns[0]) + DotTail(ns[1..]);
    SpanOf(".", rest, false);
    assert ("." + rest)[..1] == "." && ""[..0] == "";
    assert Weight(".") > 0 && CompareNonDigits(".", "") == 1 && CompareNonDigits("", ".") == -1;
  }

  lemma {:induction false} PolicyTails(a: seq<nat>, b: seq<nat>)
    ensures ComparePart(DotTail(a), DotTail(b)) == CompareNumbers(a, b)
  {
    if a != [] && b != [] {
      PolicyRound(".", a[0], a[1..], b[0], b[1..]);
      PolicyTails(a[1..], b[1..]);
    } else if a != [] {
      PolicyEnd(a);
    } else if b != [] {
      PolicyEnd(b);
    }
  }

  lemma PolicyDotted(a: seq<nat>, b: seq<nat>)
    requires a != [] && b != []
    ensures ComparePart(Dotted(a), Dotted(b)) == CompareNumbers(a, b)
  {
    assert "" + Dotted(a) == Dotted(a) && "" + Dotted(b) == Dotted(b);
    PolicyRound("", a[0], a[1..], b[0], b[1..]);
    PolicyTails(a[1..], b[1..]);
  }

  lemma {:induction false} CutLastAt(up: string, down: string)
    requires Lacks(down, '-')
    ensures CutLast(up + "-" + down) == (up, down)
  {
    var s := up + "-" + down;
    assert s[|up|] == '-';
    if down == "" {
      assert s[..|s| - 1] == up;
    } else {
      assert s[..|s| - 1] == up + "-" + down[..|down| - 1];
      CutLastAt(up, down[..|down| - 1]);
      assert down == down[..|down| - 1] + [down[|down| - 1]];
    }
  }

  /** What the manual takes an absent revision to be. */
  function PolicyRevision(v: Numeric): seq<nat> { if v.revision.Some? then v.revision.value else [0] }

  lemma PolicyNumeric(v: Numeric, w: Numeric)
    requires WellFormed(v) && WellFormed(w)
    ensures PolicyCompare(Print(v), Print(w)) ==
              if EpochNumber(v) != EpochNumber(w) then Sign(EpochNumber(v) - EpochNumber(w))
              else if v.upstream != w.upstream then CompareNumbers(v.upstream, w.upstream)
              else CompareNumbers(PolicyRevision(v), PolicyRevision(w))
  {
    SplitPrinted(v);
    SplitPrinted(w);
    CutPrinted(v);
    CutPrinted(w);
    PolicyDotted(v.upstream, w.upstream);
    PolicyDotted(PolicyRevision(v), PolicyRevision(w));
    CompareNumbersZero(v.upstream, w.upstream);
  }

  lemma CutPrinted(v: Numeric)
    requires WellFormed(v)
    ensures PolicyRevision(v) != []
    ensures CutLast(PrintBody(v)) == (Dotted(v.upstream), Dotted(PolicyRevision(v)))
  {
    if v.revision.Some? {
      assert PrintBody(v) == Dotted(v.upstream) + "-" + Dotted(v.revision.value);
      CutLastAt(Dotted(v.upstream), Dotted(v.revision.value));
    } else {
      assert PrintBody(v) == Dotted(v.upstream);
      assert Dotted([0]) == "0" by { assert Digits(0) == "0" && DotTail([0][1..]) == ""; }
    }
  }

  // ---------------------------------------------------------------- agreement

  /** One revision is absent and the other is the single number 0. */
  predicate ZeroRevisionClash(v: Numeric, w: Numeric) {
    (v.revision.None? && w.revision == Some([0])) || (w.revision.None? && v.revision == Some([0]))
  }

  /** `vercmp` gives the sign the manual requires for two numeric versions, unless they differ only in that
      one leaves out the revision and the other writes it as 0. */
  lemma VercmpMeetsPolicy(v: Numeric, w: Numeric)
    requires WellFormed(v) && WellFormed(w)
    ensures Vercmp(Print(v), Print(w)) == PolicyCompare(Print(v), Print(w)) <==>
            !(EpochNumber(v) == EpochNumber(w) && v.upstream == w.upstream && ZeroRevisionClash(v, w))
  {
    VercmpNumeric(v, w);
    PolicyNumeric(v, w);
    AbsentRevision(v.revision, w.revision);
  }

  lemma AbsentRevision(a: Option<seq<nat>>, b: Option<seq<nat>>)
    requires (a.Some? ==> a.value != []) && (b.Some? ==> b.value != [])
    ensures CompareNumbers(if a.Some? then a.value else [], if b.Some? then b.value else [])
         == CompareNumbers(if a.Some? then a.value else [0], if b.Some? then b.value else [0])
       <==> !((a.None? && b == Some([0])) || (b.None? && a == Some([0])))
  {
    if a.None? && b.Some? { AgainstZero(b.value); }
    if b.None? && a.Some? { AgainstZero(a.value); }
  }

  lemma AgainstZero(ns: seq<nat>)
    requires ns != []
    ensures CompareNumbers([0], ns) == (if ns == [0] then 0 else -1)
    ensures CompareNumbers(ns, [0]) == (if ns == [0] then 0 else 1)
  {
    assert [0][1..] == [];
    assert ns == [ns[0]] + ns[1..];
  }

  /** Outside the numeric fragment the two differ: a tilde, which the manual sorts before even the end of a
      version, makes a version later here. */
  lemma TildeSortsLast(n: nat)
    ensures Vercmp(Digits(n) + "~", Digits(n)) == 1
    ensures PolicyCompare(Digits(n) + "~", Digits(n)) == -1
  {
    var (s, d) := (Digits(n) + "~", Digits(n));
    TildeVersion(d, "~");
    TildeVersion(d, "");
    assert d + "" == d;
    PiecesOfNumber(d, "~");
    PiecesOfNumber(d, "");
    assert Classify('~') == Mark && Pieces("~") == ["~"] by { assert "~"[1..] == ""; }
    assert CompareTokens([d, "~"], [d]) == 1 by {
      ComparePieceLaws(d, d);
      assert [d, "~"][1..] == ["~"] && [d][1..] == [];
    }
    VercmpByParts(s, d);
    TildeParts(d);
  }

  lemma TildeVersion(d: string, suffix: string)
    requires AllDigits(d) && (suffix == "" || suffix == "~")
    ensures SplitVersion(d + suffix) == ("0", d + suffix)
    ensures UpstreamTokens(d + suffix) == Pieces(d + suffix) && RevisionTokens(d + suffix) == []
    ensures PolicyEpoch(d + suffix) == 0 && PolicyBody(d + suffix) == (d + suffix, "0")
  {
    assert Lacks(d + suffix, ':') && Lacks(d + suffix, '-');
    PartitionNone(d + suffix, ':');
    PartitionNone(d + suffix, '-');
  }

  lemma TildeParts(d: string)
    requires AllDigits(d)
    ensures ComparePart(d + "~", d) == -1
  {
    SpanOf("", d + "~", false);
    SpanOf("", d, false);
    assert "" + (d + "~") == d + "~" && "" + d == d;
    SpanOf(d, "~", true);
    SpanOf(d, "", true);
    assert d + "" == d;
    var s := d + "~";
    assert s[0..] == s && d[0..] == d && s[..|d|] == d && s[|d|..] == "~" && d[..|d|] == d && d[|d|..] == "";
    assert s[..0] == "" && d[..0] == "";
    assert ComparePart(s, d) == ComparePart("~", "");
    assert "~"[..1] == "~" && Span("~", false) == 1;
    assert Weight("~") == -1 && Weight("") == 0;
  }
}

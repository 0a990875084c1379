/** Which record `pick` takes (buster/osbuild/resolver.py:178), against the order of `vercmp`. */
module PickFacts {
  import opened Text
  import opened Packages
  import opened Resolver
  import opened VersionPolicy
  import Versions

  // ---------------------------------------------------------------- numeric versions as text

  /** The first two different numbers decide, by their digits as text; a proper prefix is smaller. */
  function CompareDigits(a: seq<nat>, b: seq<nat>): int {
    if a == [] && b == [] then 0
    else if a == [] then -1
    else if b == [] then 1
    else if a[0] != b[0] then CompareText(Digits(a[0]), Digits(b[0]))
    else CompareDigits(a[1..], b[1..])
  }

  /** Starts with a character below the digits, or is empty. */
  predicate Low(s: string) { s != "" ==> s[0] < '0' }

  lemma {:induction false} NumberFirst(d: string, e: string, s: string, t: string)
    requires (forall i :: 0 <= i < |d| ==> IsDigit(d[i])) && (forall i :: 0 <= i < |e| ==> IsDigit(e[i]))
    requires d != e && Low(s) && Low(t)
    ensures CompareText(d + s, e + t) == CompareText(d, e)
  {
    if d == "" {
      assert d + s == s;
    } else if e == "" {
      assert e + t == t;
    } else {
      assert (d + s)[1..] == d[1..] + s && (e + t)[1..] == e[1..] + t;
      if d[0] == e[0] { NumberFirst(d[1..], e[1..], s, t); }
    }
  }

  lemma NumberOrder(m: nat, n: nat, s: string, t: string)
    requires Low(s) && Low(t)
    ensures CompareText(Digits(m) + s, Digits(n) + t) ==
              if m == n then CompareText(s, t) else CompareText(Digits(m), Digits(n))
  {
    hide CompareText, Digits;
    if m == n {
      CompareTextPrefix(Digits(m), s, t);
    } else {
      if Digits(m) == Digits(n) { DigitsInjective(m, n); }
      NumberFirst(Digits(m), Digits(n), s, t);
    }
  }

  /** Nothing, or a revision behind its hyphen. */
  predicate Behind(s: string) { s != "" ==> s[0] == '-' }

  lemma LowTail(a: seq<nat>, s: string)
    requires Behind(s)
    ensures Low(DotTail(a) + s)
  {
    hide Digits;
  }

  lemma {:induction false} TailOrder(a: seq<nat>, b: seq<nat>, s: string, t: string)
    requires Behind(s) && Behind(t)
    ensures CompareText(DotTail(a) + s, DotTail(b) + t) == if a == b then CompareText(s, t) else CompareDigits(a, b)
  {
    hide Digits, Lacks, Low;
    if a == [] {
      assert DotTail(a) + s == s;
      if b == [] { assert DotTail(b) + t == t; }
    } else if b == [] {
      assert DotTail(b) + t == t;
    } else {
      var (x, y) := (DotTail(a[1..]) + s, DotTail(b[1..]) + t);
      assert DotTail(a) + s == "." + (Digits(a[0]) + x) && DotTail(b) + t == "." + (Digits(b[0]) + y);
      CompareTextPrefix(".", Digits(a[0]) + x, Digits(b[0]) + y);
      LowTail(a[1..], s);
      LowTail(b[1..], t);
      NumberOrder(a[0], b[0], x, y);
      TailOrder(a[1..], b[1..], s, t);
      assert a == [a[0]] + a[1..] && b == [b[0]] + b[1..];
    }
  }

  lemma DottedOrder(a: seq<nat>, b: seq<nat>, s: string, t: string)
    requires a != [] && b != [] && Behind(s) && Behind(t)
    ensures CompareText(Dotted(a) + s, Dotted(b) + t) == if a == b then CompareText(s, t) else CompareDigits(a, b)
  {
    hide CompareText, Digits, DotTail, Low, Behind, Lacks;
    var (x, y) := (DotTail(a[1..]) + s, DotTail(b[1..]) + t);
    assert Dotted(a) + s == Digits(a[0]) + x && Dotted(b) + t == Digits(b[0]) + y;
    LowTail(a[1..], s);
    LowTail(b[1..], t);
    NumberOrder(a[0], b[0], x, y);
    if a[0] == b[0] {
      TailOrder(a[1..], b[1..], s, t);
      assert a == [a[0]] + a[1..] && b == [b[0]] + b[1..];
    }
  }

  function RevisionText(r: Option<seq<nat>>): string
    requires r.Some? ==> r.value != []
  {
    if r.Some? then "-" + Dotted(r.value) else ""
  }

  lemma RevisionOrder(a: Option<seq<nat>>, b: Option<seq<nat>>)
    requires (a.Some? ==> a.value != []) && (b.Some? ==> b.value != [])
    ensures CompareText(RevisionText(a), RevisionText(b)) ==
              CompareDigits(if a.Some? then a.value else [], if b.Some? then b.value else [])
  {
    hide Dotted;
    if a.Some? && b.Some? {
      CompareTextPrefix("-", Dotted(a.value), Dotted(b.value));
      DottedOrder(a.value, b.value, "", "");
      assert Dotted(a.value) + "" == Dotted(a.value) && Dotted(b.value) + "" == Dotted(b.value);
      if a == b { SameDigits(a.value); }
    }
  }

  lemma {:induction false} SameDigits(a: seq<nat>)
    ensures CompareDigits(a, a) == 0
  {
    if a != [] { SameDigits(a[1..]); }
  }

  /** How the texts of two numeric versions of one epoch compare, told from their numbers. */
  function TextOrder(v: Numeric, w: Numeric): int {
    if v.upstream != w.upstream then CompareDigits(v.upstream, w.upstream)
    else CompareDigits(RevisionNumbers(v), RevisionNumbers(w))
  }

  lemma PrintedOrder(v: Numeric, w: Numeric)
    requires WellFormed(v) && WellFormed(w) && v.epoch == w.epoch
    ensures CompareText(Print(v), Print(w)) == TextOrder(v, w)
  {
    hide CompareText, Digits, Dotted, CompareDigits;
    var (r, q) := (RevisionText(v.revision), RevisionText(w.revision));
    assert PrintBody(v) == Dotted(v.upstream) + r && PrintBody(w) == Dotted(w.upstream) + q;
    DottedOrder(v.upstream, w.upstream, r, q);
    RevisionOrder(v.revision, w.revision);
    var front := if v.epoch.Some? then Digits(v.epoch.value) + ":" else "";
    assert Print(v) == front + PrintBody(v) && Print(w) == front + PrintBody(w);
    CompareTextPrefix(front, PrintBody(v), PrintBody(w));
  }

  // ---------------------------------------------------------------- the pick

  /** The records have numeric versions `vs` of one epoch. */
  ghost predicate Numbered(records: seq<PackageRecord>, vs: seq<Numeric>) {
    && |vs| == |records| && records != []
    && (forall i :: 0 <= i < |vs| ==> WellFormed(vs[i]) && vs[i].epoch == vs[0].epoch && records[i].version == Print(vs[i]))
  }

  /** No record is later than `r`. */
  ghost predicate Latest(records: seq<PackageRecord>, r: PackageRecord) {
    forall i :: 0 <= i < |records| ==> Versions.Vercmp(records[i].version, r.version) <= 0
  }

  lemma SameVersion(v: Numeric, w: Numeric)
    requires WellFormed(v) && WellFormed(w) && v.epoch == w.epoch
    requires Versions.Vercmp(Print(v), Print(w)) <= 0 && Versions.Vercmp(Print(w), Print(v)) <= 0
    ensures v == w
  {
    hide Versions.Vercmp, Print, CompareNumbers;
    VercmpNumeric(v, w);
    VercmpNumeric(w, v);
    CompareNumbersBack(v.upstream, w.upstream);
    CompareNumbersBack(RevisionNumbers(v), RevisionNumbers(w));
  }

  lemma {:induction false} CompareNumbersBack(a: seq<nat>, b: seq<nat>)
    ensures CompareNumbers(a, b) == -CompareNumbers(b, a)
    ensures CompareNumbers(a, b) == 0 <==> a == b
  {
    if a != [] && b != [] {
      CompareNumbersBack(a[1..], b[1..]);
      assert a == [a[0]] + a[1..] && b == [b[0]] + b[1..];
    }
  }

  /** The pick is a latest record by `vercmp` exactly when the latest one's digits come last as text: wherever another
      version first differs from it, the digits of the smaller number also come first as text. */
  lemma PickIsLatest(records: seq<PackageRecord>, vs: seq<Numeric>, k: nat)
    requires Numbered(records, vs) && k < |records| && Latest(records, records[k])
    ensures Latest(records, Newest(records)) <==> forall i :: 0 <= i < |vs| ==> TextOrder(vs[i], vs[k]) <= 0
  {
    hide Versions.Vercmp, Print, TextOrder, CompareText, WellFormed, Newest;
    var j := NewestIsFirstGreatest(records);
    forall i, l | 0 <= i < |vs| && 0 <= l < |vs|
      ensures CompareText(records[i].version, records[l].version) == TextOrder(vs[i], vs[l])
    {
      PrintedOrder(vs[i], vs[l]);
    }
    if Latest(records, Newest(records)) {
      assert Versions.Vercmp(records[k].version, records[j].version) <= 0;
      assert Versions.Vercmp(records[j].version, records[k].version) <= 0;
      SameVersion(vs[k], vs[j]);
    }
    if forall i :: 0 <= i < |vs| ==> TextOrder(vs[i], vs[k]) <= 0 {
      assert TextOrder(vs[j], vs[k]) <= 0;
      CompareTextLaws(records[j].version, records[k].version);
      assert records[j].version == records[k].version;
    }
  }

  /** Of two plain numbers the greater is picked exactly when both have as many digits or its digits come last. */
  lemma PickOfTwoNumbers(older: PackageRecord, newer: PackageRecord, m: nat, n: nat)
    requires m < n && older.version == Digits(m) && newer.version == Digits(n)
    ensures Versions.Vercmp(older.version, newer.version) == -1
    ensures Newest([older, newer]) == newer <==> |Digits(m)| == |Digits(n)| || CompareText(Digits(m), Digits(n)) < 0
  {
    hide Versions.Vercmp, CompareText, Digits;
    OneNumber(m);
    OneNumber(n);
    VercmpNumeric(Numeric(None, [m], None), Numeric(None, [n], None));
    if |Digits(m)| == |Digits(n)| { SameLengthDigits(m, n); }
    if newer == older { DigitsInjective(m, n); }
    NewestOfTwo(older, newer);
  }

  lemma OneNumber(n: nat)
    ensures Print(Numeric(None, [n], None)) == Digits(n)
  {
    assert "" + (Digits(n) + "" + "") == Digits(n);
  }

  lemma NewestOfTwo(a: PackageRecord, b: PackageRecord)
    ensures Newest([a, b]) == if TextLess(a.version, b.version) then b else a
  {
    assert [a, b][..1] == [a];
  }

  /** A number with a greater first digit than a greater number's hides it ... */
  lemma OlderPicked(older: PackageRecord, newer: PackageRecord, m: nat, n: nat)
    requires m < n && older.version == Digits(m) && newer.version == Digits(n) && Digits(m)[0] > Digits(n)[0]
    ensures Versions.Vercmp(older.version, newer.version) == -1 && Newest([older, newer]) == older
  {
    hide Versions.Vercmp, Digits;
    PickOfTwoNumbers(older, newer, m, n);
    NewestOfTwo(older, newer);
  }

  /** ... as 9 hides 10. */
  lemma NineOverTen(older: PackageRecord, newer: PackageRecord)
    requires older.version == "9" && newer.version == "10"
    ensures Versions.Vercmp(older.version, newer.version) == -1 && Newest([older, newer]) == older
  {
    hide Versions.Vercmp, Newest;
    assert Digits(1) == [DigitChar(1)] && Digits(9) == [DigitChar(9)] == "9";
    assert Digits(10) == Digits(1) + [DigitChar(0)] == "10";
    OlderPicked(older, newer, 9, 10);
  }
}

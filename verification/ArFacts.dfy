/** What reading an ar archive does on any bytes: when the loop ends, what a cut archive gives, and which members are
    dropped (buster/osbuild/deb.py). */
module ArFacts {
  import opened Text
  import opened ArArchive

  // ---------------------------------------------------------------- where the loop goes

  lemma {:induction false} EvenOffsets(data: Bytes, k: nat)
    ensures After(data, k).offset % 2 == 0
  {
    hide SizeAt, StripName, Slice;
    if k > 0 { EvenOffsets(data, k - 1); }
  }

  /** From a header the loop comes back to the same header exactly at a size of -60 or -61, and goes back to an
      earlier offset exactly at a smaller one. */
  lemma WhereNext(data: Bytes, k: nat)
    requires Running(data, k)
    ensures var (here, next, size) := (After(data, k).offset, After(data, k + 1).offset, SizeAt(data, After(data, k).offset));
      size.Some? && (next == here <==> -61 <= size.value <= -60) && (next < here <==> size.value <= -62)
  {
    hide SizeAt, StripName, Slice;
    EvenOffsets(data, k);
  }

  /** The loop never ends exactly when it comes to some offset a second time. */
  lemma EndlessExactly(data: Bytes)
    requires Magic() <= data
    ensures Parse(data) == Endless <==> exists k: nat :: Running(data, k) && Seen(data, k, After(data, k).offset)
  {
    hide Running, After, Plain, Seen, Offsets;
    if Parse(data) == Endless {
      var n := |Offsets(data)| + 1;
      if forall k: nat :: k < n ==> ReadsNew(data, k) {
        AllDifferent(data, n);
        SubsetSize(SeenSet(data, n), Offsets(data));
      }
    }
    if k: nat :| Running(data, k) && Seen(data, k, After(data, k).offset) { ReturnedForGood(data, k); }
  }

  ghost function SeenSet(data: Bytes, k: nat): set<int> {
    if k == 0 then {} else SeenSet(data, k - 1) + {After(data, k - 1).offset}
  }

  lemma {:induction false} SeenSetIs(data: Bytes, k: nat, o: int)
    ensures o in SeenSet(data, k) <==> Seen(data, k, o)
  {
    hide After;
    if k > 0 {
      SeenSetIs(data, k - 1, o);
      SeenMore(data, k - 1);
    }
  }

  /** Round `k` reads a header at an offset no earlier round came to. */
  ghost predicate ReadsNew(data: Bytes, k: nat) { Running(data, k) && !Seen(data, k, After(data, k).offset) }

  lemma {:induction false} AllDifferent(data: Bytes, n: nat)
    requires forall k: nat :: k < n ==> ReadsNew(data, k)
    ensures SeenSet(data, n) <= Offsets(data) && |SeenSet(data, n)| == n
  {
    hide After, ReadsNew, Offsets;
    if n > 0 {
      AllDifferent(data, n - 1);
      NewOffset(data, n - 1);
    }
  }

  lemma NewOffset(data: Bytes, k: nat)
    requires ReadsNew(data, k)
    ensures After(data, k).offset in Offsets(data) && After(data, k).offset !in SeenSet(data, k)
  {
    hide After, Seen, SeenSet, Offsets, ReadMember;
    FoundWithin(data, After(data, k).offset);
    SeenSetIs(data, k, After(data, k).offset);
  }

  lemma SubsetSize(a: set<int>, b: set<int>)
    requires a <= b
    ensures |a| <= |b|
  {
    assert b == a + (b - a);
  }

  /** The size fields of the headers the loop comes to are at least `least`. */
  ghost predicate SizesFrom(data: Bytes, least: int) {
    forall k: nat :: Running(data, k) ==> SizeAt(data, After(data, k).offset).value >= least
  }

  /** With no size below -59 at a header the loop comes to, so in particular with natural numbers there, it ends. */
  lemma SizesEnd(data: Bytes)
    requires SizesFrom(data, -59)
    ensures Parse(data) != Endless
  {
    hide Running, After, SizeAt, Plain, Parse;
    if Magic() <= data && Parse(data) == Endless {
      EndlessExactly(data);
      var k: nat :| Running(data, k) && Seen(data, k, After(data, k).offset);
      var i: nat :| i < k && After(data, i).offset == After(data, k).offset;
      Forward(data, i, k);
    } else {
      NotAnArchiveEnds(data);
    }
  }

  lemma NotAnArchiveEnds(data: Bytes)
    ensures !(Magic() <= data) ==> Parse(data) == NotAnArchive
  {
  }

  lemma {:induction false} Forward(data: Bytes, i: nat, j: nat)
    requires SizesFrom(data, -59) && i < j && Running(data, j)
    ensures After(data, i).offset < After(data, j).offset
  {
    hide Running, After, SizeAt;
    if !Running(data, j - 1) { Halted(data, j - 1, j); }
    WhereNext(data, j - 1);
    if i < j - 1 { Forward(data, i, j - 1); }
  }

  /** With natural sizes every member is what lies between its header and its size's end, within the data. */
  lemma NothingPastTheEnd(data: Bytes, k: nat)
    requires SizesFrom(data, 0) && Running(data, k)
    ensures var (start, members) := (After(data, k).offset + HEADER, After(data, k + 1).members);
      var end := start + SizeAt(data, After(data, k).offset).value;
      HEADER <= start <= end <= |data| && members != [] && members[|members| - 1].data == data[start..end]
  {
    hide SizeAt, StripName;
    NaturalOffset(data, k);
  }

  lemma FirstRound(data: Bytes)
    ensures After(data, 0) == Loop(8, [])
  {
  }

  lemma {:induction false} NaturalOffset(data: Bytes, k: nat)
    requires SizesFrom(data, 0) && Running(data, k)
    ensures After(data, k).offset >= 8
  {
    hide SizeAt, Running, After;
    if k == 0 {
      FirstRound(data);
    } else {
      if !Running(data, k - 1) { Halted(data, k - 1, k); }
      NaturalOffset(data, k - 1);
      WhereNext(data, k - 1);
    }
  }

  // ---------------------------------------------------------------- negative sizes

  /** `str(-n).rjust(10)` as bytes. */
  function NegativeField(n: nat): Bytes
    requires |Digits(n)| <= 9
  {
    Spaces(9 - |Digits(n)|) + [45] + Encode(Digits(n))
  }

  lemma NegativeSize(n: nat)
    requires |Digits(n)| <= 9
    ensures |NegativeField(n)| == 10 && ReadInt(Strip(Decode(NegativeField(n)))) == Negated(Some(n))
  {
    hide Strip, Digits;
    var (d, b) := (Digits(n), Blanks(9 - |Digits(n)|));
    BlanksAt(9 - |d|);
    assert forall i :: 0 <= i < |d| ==> IsDigit(d[i]);
    assert Decode(NegativeField(n)) == b + ("-" + d);
    StripBlanks(9 - |d|, "-" + d);
    assert ("-" + d)[|"-" + d| - 1] == d[|d| - 1];
    StripTight("-" + d);
    assert ("-" + d)[1..] == d;
    ReadNatOfDigits(d);
    DigitsValueOfDigits(n);
  }

  /** The bytes of an archive whose first header has the given fields: 16 of name, 32 up to the size, 10 of size. */
  function WithFirst(name: Bytes, middle: Bytes, size: Bytes, rest: Bytes): Bytes { Magic() + name + middle + size + rest }

  lemma FirstHeader(name: Bytes, middle: Bytes, size: Bytes, rest: Bytes)
    requires |name| == 16 && |middle| == 32 && |size| == 10 && |rest| >= 2
    ensures var data := WithFirst(name, middle, size, rest);
      && Magic() <= data && |data| >= 8 + HEADER && SizeAt(data, 8) == ReadInt(Strip(Decode(size)))
      && Slice(HeaderAt(data, 8), 0, 16) == name
  {
    hide Strip, ReadInt, Decode;
    var data := WithFirst(name, middle, size, rest);
    var h := data[8..68];
    assert HeaderAt(data, 8) == h;
    assert data[8..24] == name && data[56..66] == size;
    assert h[..16] == data[8..24] && h[48..58] == data[56..66];
    assert Slice(h, 48, 58) == h[48..58] == size && Slice(h, 0, 16) == h[..16] == name;
  }

  /** A first header of size -60 or -61 is read for ever, whatever else the archive holds. */
  lemma FirstHeaderForEver(name: Bytes, middle: Bytes, n: nat, rest: Bytes)
    requires |name| == 16 && |middle| == 32 && |rest| >= 2 && 60 <= n <= 61 && |Digits(n)| <= 9
    ensures Parse(WithFirst(name, middle, NegativeField(n), rest)) == Endless
  {
    hide SizeAt, Parse, WithFirst, StripName, Slice, NegativeField, Digits;
    var data := WithFirst(name, middle, NegativeField(n), rest);
    NegativeSize(n);
    FirstHeader(name, middle, NegativeField(n), rest);
    assert After(data, 0).offset == 8;
    assert Running(data, 0);
    WhereNext(data, 0);
    assert Seen(data, 1, 8);
    ReturnedForGood(data, 1);
  }

  /** But at -62 the loop goes back two bytes, reads no size there, and ends with that one empty member. */
  lemma FirstHeaderGoesBack(name: Bytes, middle: Bytes, rest: Bytes)
    requires |name| == 16 && |middle| == 32 && |rest| >= 2
    ensures |Digits(62)| == 2
    ensures Parse(WithFirst(name, middle, NegativeField(62), rest)) == Members(Plain([Member(StripName(name), [])]))
  {
    hide SizeAt, Parse, StripName, Strip, ReadInt, Decode, Plain;
    TwoDigits();
    var data := WithFirst(name, middle, NegativeField(62), rest);
    NegativeSize(62);
    FirstHeader(name, middle, NegativeField(62), rest);
    assert Slice(data, 68, 6) == [];
    assert After(data, 0) == Loop(8, []);
    assert ReadMember(data, 8) == Found(Member(StripName(name), []), 6);
    assert After(data, 1) == Loop(6, [] + [Member(StripName(name), [])]);
    assert [] + [Member(StripName(name), [])] == [Member(StripName(name), [])];
    SizeTwoBack(name, middle, rest);
    assert !Running(data, 1);
    ParseEnds(data, 1);
  }

  lemma TwoDigits()
    ensures |Digits(62)| == 2
  {
    assert |Digits(6)| == 1;
  }

  lemma SizeTwoBack(name: Bytes, middle: Bytes, rest: Bytes)
    requires |name| == 16 && |middle| == 32 && |rest| >= 2 && |Digits(62)| == 2
    ensures SizeAt(WithFirst(name, middle, NegativeField(62), rest), 6).None?
  {
    hide Strip, ReadInt, Digits;
    var (size, data) := (NegativeField(62), WithFirst(name, middle, NegativeField(62), rest));
    NegativeSize(62);
    var h := data[6..66];
    assert HeaderAt(data, 6) == h;
    assert Slice(h, 48, 58) == h[48..58] == middle[30..] + size[..8];
    var text := Decode(middle[30..] + size[..8]);
    assert size[7] == 45;
    assert text[|text| - 1] == '-';
    EndsInMinus(text);
  }

  lemma EndsInMinus(text: string)
    requires text != "" && text[|text| - 1] == '-'
    ensures ReadInt(Strip(text)).None?
  {
    hide ReadNat;
    KeepsLast(text);
    var t := Strip(text);
    StripOf(text, ' ');
    StripTight(t);
    assert forall u: string :: u == "" || u[|u| - 1] == '-' ==> ReadNat(u).None? by { NoNumber(); }
  }

  lemma NoNumber()
    ensures forall u: string :: u == "" || u[|u| - 1] == '-' ==> ReadNat(u).None?
  {
  }

  lemma {:induction false} KeepsLast(text: string)
    requires text != "" && !IsSpace(text[|text| - 1])
    ensures Strip(text) != "" && Strip(text)[|Strip(text)| - 1] == text[|text| - 1]
  {
    if IsSpace(text[0]) { KeepsLast(text[1..]); }
  }

  // ---------------------------------------------------------------- archives cut short

  /** No body the loop comes to ends in front of the data; so with every natural size. */
  ghost predicate WithinData(data: Bytes) {
    forall k: nat :: Running(data, k) ==> After(data, k).offset + HEADER + SizeAt(data, After(data, k).offset).value >= 0
  }

  lemma ReadPrefix(data: Bytes, n: nat, offset: nat)
    requires n <= |data| && ReadMember(data[..n], offset).Found?
    ensures SizeAt(data[..n], offset) == SizeAt(data, offset) && ReadMember(data, offset).Found?
    ensures offset + HEADER + SizeAt(data, offset).value >= 0 ==> ReadMember(data[..n], offset) == ReadMember(data, offset)
  {
    hide StripName, Strip, ReadInt, Decode;
    var short := data[..n];
    assert HeaderAt(short, offset) == short[offset..offset + HEADER] == data[offset..offset + HEADER] == HeaderAt(data, offset);
    var (start, end) := (offset + HEADER, offset + HEADER + SizeAt(data, offset).value);
    if end >= 0 {
      assert start < end ==> short[start..end] == data[start..end];
    }
  }

  lemma {:induction false} RoundsPrefix(data: Bytes, n: nat, k: nat)
    requires n <= |data| && WithinData(data) && forall i: nat :: i < k ==> Running(data[..n], i)
    ensures After(data[..n], k) == After(data, k) && After(data, k).offset >= 0
    ensures forall i: nat :: i < k ==> Running(data, i)
  {
    hide ReadMember, SizeAt;
    if k > 0 {
      RoundsPrefix(data, n, k - 1);
      assert Running(data[..n], k - 1);
      var o := After(data, k - 1).offset;
      ReadPrefix(data, n, o);
      assert Running(data, k - 1);
      NextOffset(data, o);
    }
  }

  lemma NextOffset(data: Bytes, o: int)
    requires ReadMember(data, o).Found? && o + HEADER + SizeAt(data, o).value >= 0
    ensures ReadMember(data, o).next >= 0
  {
  }

  lemma {:induction false} MembersGrow(data: Bytes, j: nat, k: nat)
    requires j <= k
    ensures After(data, j).members <= After(data, k).members
  {
    hide ReadMember;
    if j < k { MembersGrow(data, j, k - 1); }
  }

  lemma {:induction false} PlainPrefix(a: seq<Member>, b: seq<Member>)
    requires a <= b
    ensures Plain(a) <= Plain(b)
  {
    if a != [] { PlainPrefix(a[1..], b[1..]); }
  }

  /** An archive cut anywhere behind the magic gives an initial part of its members. */
  lemma ParsePrefix(data: Bytes, n: nat)
    requires 8 <= n <= |data| && Parse(data).Members? && WithinData(data)
    ensures Parse(data[..n]).Members? && Parse(data[..n]).members <= Parse(data).members
  {
    hide Running, After, Plain, WithinData;
    var last: nat :| !Running(data, last);
    var short := data[..n];
    assert Magic() <= short;
    var k := FirstStop(data, n, last);
    RoundsPrefix(data, n, k);
    ParseEnds(short, k);
    ParseEnds(data, last);
    MembersGrow(data, k, last);
    PlainPrefix(After(data, k).members, After(data, last).members);
  }

  lemma FirstStop(data: Bytes, n: nat, last: nat) returns (k: nat)
    requires n <= |data| && WithinData(data) && !Running(data, last)
    ensures k <= last && !Running(data[..n], k) && forall i: nat :: i < k ==> Running(data[..n], i)
  {
    hide Running, After, WithinData;
    k := 0;
    while k < last && Running(data[..n], k)
      invariant k <= last && forall i: nat :: i < k ==> Running(data[..n], i)
    {
      k := k + 1;
    }
    if Running(data[..n], k) { RoundsPrefix(data, n, k + 1); }
  }

  /** A body that ends in front of the data is sliced from its end, so that a cut changes the member. */
  lemma BodyInFront(name: Bytes, middle: Bytes, rest: Bytes)
    requires |name| == 16 && |middle| == 32 && |rest| >= 9
    ensures |Digits(75)| == 2
    ensures var data := WithFirst(name, middle, NegativeField(75), rest);
      Parse(data) == Members(Plain([Member(StripName(name), data[68..|data| - 7])]))
  {
    hide SizeAt, Parse, StripName, Strip, ReadInt, Decode, Plain;
    assert |Digits(7)| == 1 && |Digits(75)| == 2;
    NegativeSize(75);
    var data := WithFirst(name, middle, NegativeField(75), rest);
    FirstHeader(name, middle, NegativeField(75), rest);
    assert |data| == 66 + |rest|;
    assert Slice(data, 68, -7) == data[68..|data| - 7];
    var m := Member(StripName(name), data[68..|data| - 7]);
    assert After(data, 0) == Loop(8, []);
    assert ReadMember(data, 8) == Found(m, -6);
    assert After(data, 1) == Loop(-6, [] + [m]);
    assert [] + [m] == [m];
    NothingInFront(data);
    ParseEnds(data, 1);
  }

  lemma NothingInFront(data: Bytes)
    requires |data| >= 60
    ensures ReadMember(data, -6).Stop?
  {
    hide Strip, Decode, ReadInt, StripName;
    assert HeaderAt(data, -6) == [];
    NoText();
  }

  lemma CutChangesBody(name: Bytes, middle: Bytes, rest: Bytes, n: nat)
    requires |name| == 16 && |middle| == 32 && 75 <= n < 66 + |rest|
    requires !Special(Member(StripName(name), []))
    ensures |Digits(75)| == 2
    ensures var data := WithFirst(name, middle, NegativeField(75), rest);
      && n <= |data| && Parse(data).Members? && Parse(data[..n]).Members?
      && !(Parse(data[..n]).members <= Parse(data).members)
  {
    hide Parse, Plain, WithFirst, StripName, NegativeField, Digits;
    BodyInFront(name, middle, rest);
    BodyInFront(name, middle, rest[..n - 66]);
    NegativeSize(75);
    var (data, short) := (WithFirst(name, middle, NegativeField(75), rest), WithFirst(name, middle, NegativeField(75), rest[..n - 66]));
    CutRest(name, middle, NegativeField(75), rest, n - 66);
    PlainStays([Member(StripName(name), data[68..|data| - 7])]);
    PlainStays([Member(StripName(name), short[68..|short| - 7])]);
    assert |short| == n && Parse(data[..n]).members[0].data == short[68..n - 7];
    assert Parse(data).members[0].data == data[68..|data| - 7];
  }

  lemma CutRest(name: Bytes, middle: Bytes, size: Bytes, rest: Bytes, n: nat)
    requires |name| == 16 && |middle| == 32 && |size| == 10 && n <= |rest|
    ensures |WithFirst(name, middle, size, rest)| == 66 + |rest|
    ensures WithFirst(name, middle, size, rest)[..66 + n] == WithFirst(name, middle, size, rest[..n])
  {
    var front := Magic() + name + middle + size;
    assert (front + rest)[..66 + n] == front + rest[..n];
  }

  // ---------------------------------------------------------------- which members are dropped

  predicate Blank(b: Byte) { b == SPACE || b == SLASH }

  lemma {:induction false} StripNameIs(field: Bytes)
    ensures StripName(field) <= field
    ensures StripName(field) == [] <==> forall i :: 0 <= i < |field| ==> Blank(field[i])
    ensures forall i :: |StripName(field)| <= i < |field| ==> Blank(field[i])
    ensures StripName(field) != [] ==> !Blank(StripName(field)[|StripName(field)| - 1])
  {
    if field != [] && Blank(field[|field| - 1]) { StripNameIs(field[..|field| - 1]); }
  }

  /** A member is dropped exactly when its name field begins with `//` and holds more than slashes and spaces; the
      fields `/` and `//` of a symbol table and a name table read as empty names, which stay. */
  lemma DroppedExactly(field: Bytes, data: Bytes)
    ensures Plain([Member(StripName(field), data)]) == [] <==>
              |field| >= 2 && field[0] == SLASH && field[1] == SLASH && exists i :: 2 <= i < |field| && !Blank(field[i])
    ensures (forall i :: 0 <= i < |field| ==> Blank(field[i])) ==>
              Plain([Member(StripName(field), data)]) == [Member([], data)]
  {
    hide StripName;
    StripNameIs(field);
    var m := Member(StripName(field), data);
    assert [m][1..] == [] && [m] + [] == [m];
  }

  /** The magic is the text `!<arch>` and a line feed. */
  lemma MagicText()
    ensures Magic() == Encode("!<arch>\n")
  {
  }
}

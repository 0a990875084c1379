/** Reading ar archives (buster/osbuild/deb.py): fixed headers, decimal sizes, even alignment. */
module ArArchive {
  import opened Text

  type Byte = n: int | 0 <= n < 256
  type Bytes = seq<Byte>

  datatype Member = Member(name: Bytes, data: Bytes)

  const SPACE: Byte := 32
  const SLASH: Byte := 47
  const HEADER := 60

  /** ASCII text as bytes. */
  function Encode(s: string): (b: Bytes)
    requires forall i :: 0 <= i < |s| ==> s[i] as int < 128
    ensures |b| == |s|
  {
    seq(|s|, i requires 0 <= i < |s| => s[i] as int)
  }

  /** `decode("ascii", "replace")`: other bytes become U+FFFD, which is neither a digit nor whitespace. */
  function Decode(b: Bytes): (s: string)
    ensures |s| == |b|
  {
    seq(|b|, i requires 0 <= i < |b| => if b[i] < 128 then b[i] as char else '\U{FFFD}')
  }

  function Magic(): (b: Bytes)
    ensures |b| == 8
  {
    [33, 60, 97, 114, 99, 104, 62, 10]  // "!<arch>" and a line feed
  }

  // ---------------------------------------------------------------- reading

  /** `rstrip(" /")`. */
  function StripName(b: Bytes): Bytes {
    if b != [] && (b[|b| - 1] == SPACE || b[|b| - 1] == SLASH) then StripName(b[..|b| - 1]) else b
  }

  /** Where a slice bound falls: a negative one counts from the end. */
  function Bound(i: int, n: nat): (b: nat)
    ensures b <= n
  {
    if i < 0 then (if i + n < 0 then 0 else i + n) else if i > n then n else i
  }

  /** `data[start:end]`. */
  function Slice(data: Bytes, start: int, end: int): Bytes {
    var (a, b) := (Bound(start, |data|), Bound(end, |data|));
    if a < b then data[a..b] else []
  }

  function HeaderAt(data: Bytes, offset: int): Bytes { Slice(data, offset, offset + HEADER) }

  function SizeAt(data: Bytes, offset: int): Option<int> {
    ReadInt(Strip(Decode(Slice(HeaderAt(data, offset), 48, 58))))
  }

  function Align(offset: int): int { if offset % 2 == 1 then offset + 1 else offset }

  /** One round of the loop: it ends, or there is a member and a next offset, which a negative size puts at or in front
      of this one, even in front of the data. */
  datatype Round = Stop | Found(member: Member, next: int)

  function ReadMember(data: Bytes, offset: int): Round {
    var (size, start) := (SizeAt(data, offset), offset + HEADER);
    if start > |data| || size.None? || start + size.value > |data| then Stop
    else
      Found(Member(StripName(Slice(HeaderAt(data, offset), 0, 16)), Slice(data, start, start + size.value)),
            Align(start + size.value))
  }

  predicate Special(m: Member) { |m.name| >= 2 && m.name[0] == SLASH && m.name[1] == SLASH }

  function Plain(members: seq<Member>): seq<Member> {
    if members == [] then []
    else (if Special(members[0]) then [] else [members[0]]) + Plain(members[1..])
  }

  // ---------------------------------------------------------------- the loop

  datatype Loop = Loop(offset: int, members: seq<Member>)

  /** The loop's variables after `k` rounds, or where it ended. */
  function After(data: Bytes, k: nat): Loop {
    if k == 0 then Loop(8, [])
    else
      var s := After(data, k - 1);
      match ReadMember(data, s.offset)
      case Stop => s
      case Found(member, next) => Loop(next, s.members + [member])
  }

  /** Round `k` finds a member. */
  predicate Running(data: Bytes, k: nat) { ReadMember(data, After(data, k).offset).Found? }

  /** A ValueError, the members, or a loop that never ends. */
  datatype Outcome = NotAnArchive | Members(members: seq<Member>) | Endless

  ghost function Parse(data: Bytes): Outcome {
    if !(Magic() <= data) then NotAnArchive
    else if k: nat :| !Running(data, k) then Members(Plain(After(data, k).members))
    else Endless
  }

  lemma {:induction false} Halted(data: Bytes, k: nat, j: nat)
    requires k <= j && !Running(data, k)
    ensures After(data, j) == After(data, k) && !Running(data, j)
  {
    hide ReadMember;
    if k < j { Halted(data, k, j - 1); }
  }

  lemma ParseEnds(data: Bytes, k: nat)
    requires Magic() <= data && !Running(data, k)
    ensures Parse(data) == Members(Plain(After(data, k).members))
  {
    hide Running, Plain;
    var l: nat :| !Running(data, l) && Parse(data) == Members(Plain(After(data, l).members));
    if k < l { Halted(data, k, l); } else { Halted(data, l, k); }
  }

  /** Where a header can be read at all. */
  function Offsets(data: Bytes): set<int> { Range(-(|data| + HEADER), 2 * |data| + 1) }

  function Range(first: int, n: nat): set<int> { if n == 0 then {} else Range(first, n - 1) + {first + n - 1} }

  lemma {:induction false} InRange(first: int, n: nat, i: int)
    ensures i in Range(first, n) <==> first <= i < first + n
  {
    if n > 0 { InRange(first, n - 1, i); }
  }

  lemma FoundWithin(data: Bytes, offset: int)
    requires ReadMember(data, offset).Found?
    ensures offset in Offsets(data)
  {
    hide Strip, Decode, StripName, Range;
    InRange(-(|data| + HEADER), 2 * |data| + 1, offset);
    if offset <= -(|data| + HEADER) {
      assert HeaderAt(data, offset) == [];
      NoText();
    }
  }

  lemma NoText()
    ensures ReadInt(Strip(Decode([]))).None?
  {
    assert Decode([]) == "";
    StripTight("");
  }

  /** Offset `o` was read in a round before `k`. */
  ghost predicate Seen(data: Bytes, k: nat, o: int) { exists i: nat :: i < k && After(data, i).offset == o }

  /** The loop as it stands, except that it stops where the source would go round for ever: at the first offset it
      comes back to. */
  method ParseAr(data: Bytes) returns (outcome: Outcome)
    ensures outcome == Parse(data)
  {
    hide ReadMember, Plain, Offsets;
    if |data| < 8 || data[..8] != Magic() {
      return NotAnArchive;
    }
    assert Magic() <= data;
    var offset, members := 8, [];
    var visited: set<int> := {};
    ghost var k: nat := 0;
    while offset + HEADER <= |data|
      invariant After(data, k) == Loop(offset, members)
      invariant forall i: nat :: i < k ==> Running(data, i)
      invariant visited <= Offsets(data) && forall o :: o in visited <==> Seen(data, k, o)
      decreases |Offsets(data) - visited|
    {
      var round := ReadMember(data, offset);
      if round.Stop? { break; }
      if offset in visited {
        ReturnedForGood(data, k);
        return Endless;
      }
      FoundWithin(data, offset);
      SeenMore(data, k);
      visited := visited + {offset};
      members := members + [round.member];
      offset := round.next;
      k := k + 1;
    }
    OutsideStops(data, offset);
    ParseEnds(data, k);
    return Members(Plain(members));
  }

  lemma OutsideStops(data: Bytes, offset: int)
    ensures offset + HEADER > |data| ==> ReadMember(data, offset).Stop?
  {
  }

  lemma SeenMore(data: Bytes, k: nat)
    ensures forall o :: Seen(data, k + 1, o) <==> Seen(data, k, o) || o == After(data, k).offset
  {
    hide After;
    forall o ensures Seen(data, k + 1, o) <==> Seen(data, k, o) || o == After(data, k).offset {
      if Seen(data, k, o) {
        var i: nat :| i < k && After(data, i).offset == o;
        assert i < k + 1;
      }
    }
  }

  lemma ReturnedForGood(data: Bytes, k: nat)
    requires Magic() <= data && Running(data, k) && Seen(data, k, After(data, k).offset)
    ensures Parse(data) == Endless
  {
    hide Running, After, Plain;
    var i: nat :| i < k && After(data, i).offset == After(data, k).offset;
    forall n: nat ensures Running(data, n) { RunsOn(data, i, k, n); }
  }

  lemma {:induction false} SameOrbit(data: Bytes, i: nat, j: nat, m: nat)
    requires After(data, i).offset == After(data, j).offset
    ensures After(data, i + m).offset == After(data, j + m).offset
  {
    hide ReadMember;
    if m > 0 { SameOrbit(data, i, j, m - 1); }
  }

  lemma {:induction false} RunsOn(data: Bytes, i: nat, j: nat, n: nat)
    requires i < j && After(data, i).offset == After(data, j).offset && Running(data, j)
    ensures Running(data, n)
  {
    hide ReadMember, After;
    if n <= j {
      if !Running(data, n) { Halted(data, n, j); }
    } else {
      RunsOn(data, i, j, n - (j - i));
      SameOrbit(data, i, j, n - j);
    }
  }

  // ---------------------------------------------------------------- writing

  function Spaces(n: nat): (b: Bytes)
    ensures |b| == n && forall i :: 0 <= i < n ==> b[i] == SPACE
  {
    seq(n, i => SPACE)
  }

  /** `str(n).rjust(width)`. */
  function NumberField(n: nat, width: nat): Bytes {
    var d := Encode(Digits(n));
    if |d| >= width then d else Spaces(width - |d|) + d
  }

  /** `name[:16].ljust(16)`. */
  function NameField(name: Bytes): (b: Bytes)
    ensures |b| == 16
  {
    if |name| >= 16 then name[..16] else name + Spaces(16 - |name|)
  }

  const MODE := 33188

  function HeaderOf(m: Member): Bytes {
    NameField(m.name) + NumberField(0, 12) + NumberField(0, 6) + NumberField(0, 6) + NumberField(MODE, 8)
    + NumberField(|m.data|, 10) + [96, 10]
  }

  function Padding(m: Member): Bytes { if |m.data| % 2 == 1 then [10] else [] }

  function PrintMembers(members: seq<Member>): Bytes {
    if members == [] then []
    else PrintMember(members[0]) + PrintMembers(members[1..])
  }

  function PrintMember(m: Member): Bytes { HeaderOf(m) + m.data + Padding(m) }

  function MakeAr(members: seq<Member>): Bytes { Magic() + PrintMembers(members) }

  /** At most 16 bytes, no trailing space or slash, no leading `//`; at most ten digits of size. */
  predicate Storable(m: Member) {
    && |m.name| <= 16 && !Special(m)
    && (m.name != [] ==> m.name[|m.name| - 1] != SPACE && m.name[|m.name| - 1] != SLASH)
    && |Digits(|m.data|)| <= 10
  }

  // ---------------------------------------------------------------- reading inverts writing

  lemma {:induction false} StripNameField(name: Bytes, n: nat)
    requires name != [] ==> name[|name| - 1] != SPACE && name[|name| - 1] != SLASH
    ensures StripName(name + Spaces(n)) == name
  {
    var b := name + Spaces(n);
    if n == 0 {
      assert b == name;
    } else {
      assert b[..|b| - 1] == name + Spaces(n - 1);
      StripNameField(name, n - 1);
    }
  }

  function Blanks(n: nat): string { if n == 0 then "" else " " + Blanks(n - 1) }

  lemma {:induction false} StripBlanks(n: nat, s: string)
    ensures Strip(Blanks(n) + s) == Strip(s)
  {
    hide Strip;
    if n == 0 {
      assert Blanks(0) + s == s;
    } else {
      assert Blanks(n) + s == " " + (Blanks(n - 1) + s);
      StripLeading(Blanks(n - 1) + s);
      StripBlanks(n - 1, s);
    }
  }

  lemma {:induction false} BlanksAt(n: nat)
    ensures |Blanks(n)| == n && forall i :: 0 <= i < n ==> Blanks(n)[i] == ' '
  {
    if n > 0 { BlanksAt(n - 1); }
  }

  lemma DecodeField(n: nat)
    requires |Digits(n)| <= 10
    ensures |NumberField(n, 10)| == 10 && ReadInt(Strip(Decode(NumberField(n, 10)))) == Some(n)
  {
    hide Strip, ReadInt, Digits;
    var d := Digits(n);
    assert forall i :: 0 <= i < |d| ==> IsDigit(d[i]);
    BlanksAt(10 - |d|);
    assert Decode(NumberField(n, 10)) == Blanks(10 - |d|) + d;
    StripBlanks(10 - |d|, d);
    assert Tight(d);
    StripTight(d);
    ReadIntOfDigits(n);
  }

  lemma SmallFields()
    ensures |NumberField(0, 12)| == 12 && |NumberField(0, 6)| == 6 && |NumberField(MODE, 8)| == 8
  {
    assert |Digits(0)| == 1;
    assert Digits(3) == [DigitChar(3)] && |Digits(33)| == 2 && |Digits(331)| == 3;
    assert |Digits(3318)| == 4 && |Digits(33188)| == 5;
  }

  lemma HeaderParts(m: Member)
    requires Storable(m)
    ensures var h := HeaderOf(m);
      |h| == HEADER && StripName(h[..16]) == m.name && ReadInt(Strip(Decode(h[48..58]))) == Some(|m.data|)
  {
    hide Strip, ReadInt, Digits, NumberField, Decode;
    SmallFields();
    DecodeField(|m.data|);
    var h := HeaderOf(m);
    assert h[..16] == NameField(m.name);
    assert h[48..58] == NumberField(|m.data|, 10);
    StripNameField(m.name, 16 - |m.name|);
    assert NameField(m.name) == m.name + Spaces(16 - |m.name|);
  }

  /** One written member, anywhere at an even offset, is read back, and the next offset is behind its padding. */
  lemma ReadWritten(before: Bytes, m: Member, rest: Bytes, data: Bytes)
    requires Storable(m) && |before| % 2 == 0 && data == before + PrintMember(m) + rest
    ensures ReadMember(data, |before|) == Found(m, |before + PrintMember(m)|)
    ensures |before + PrintMember(m)| % 2 == 0
  {
    hide Strip, ReadInt, Decode, StripName, HeaderOf, Storable;
    HeaderParts(m);
    var (h, o) := (HeaderOf(m), |before|);
    assert data == before + (h + m.data + Padding(m)) + rest;
    assert HeaderAt(data, o) == data[o..o + HEADER] == h;
    assert Slice(h, 0, 16) == h[..16] && Slice(h, 48, 58) == h[48..58];
    assert Slice(data, o + HEADER, o + HEADER + |m.data|) == m.data;
  }

  lemma {:induction false} PrintSplit(members: seq<Member>, i: nat)
    requires i <= |members|
    ensures PrintMembers(members) == PrintMembers(members[..i]) + PrintMembers(members[i..])
  {
    hide PrintMember;
    if i == 0 {
      assert members[0..] == members;
    } else {
      PrintSplit(members[1..], i - 1);
      assert members[1..][..i - 1] == members[..i][1..] && members[1..][i - 1..] == members[i..];
    }
  }

  lemma {:induction false} RoundsWritten(members: seq<Member>, i: nat)
    requires i <= |members| && forall j :: 0 <= j < |members| ==> Storable(members[j])
    ensures var before := Magic() + PrintMembers(members[..i]);
      |before| % 2 == 0 && After(MakeAr(members), i) == Loop(|before|, members[..i])
  {
    hide ReadMember, Storable, PrintMember, PrintMembers;
    if i == 0 {
      assert PrintMembers(members[..0]) == [] by { NothingPrinted(); }
    } else {
      RoundsWritten(members, i - 1);
      var (m, before) := (members[i - 1], Magic() + PrintMembers(members[..i - 1]));
      PrintSplit(members, i - 1);
      PrintSplit(members[i - 1..], 1);
      PrintSplit(members[..i], i - 1);
      assert members[i - 1..][..1] == [m] && members[i - 1..][1..] == members[i..];
      assert members[..i][..i - 1] == members[..i - 1] && members[..i][i - 1..] == [m];
      OnePrinted(m);
      var data := MakeAr(members);
      assert data == before + PrintMember(m) + PrintMembers(members[i..]);
      ReadWritten(before, m, PrintMembers(members[i..]), data);
      assert Magic() + PrintMembers(members[..i]) == before + PrintMember(m);
      assert members[..i] == members[..i - 1] + [m];
    }
  }

  lemma NothingPrinted()
    ensures PrintMembers([]) == []
  {
  }

  lemma OnePrinted(m: Member)
    ensures PrintMembers([m]) == PrintMember(m)
  {
    hide PrintMember;
    assert [m][1..] == [] && PrintMember(m) + [] == PrintMember(m);
  }

  lemma {:induction false} PlainStays(members: seq<Member>)
    requires forall i :: 0 <= i < |members| ==> !Special(members[i])
    ensures Plain(members) == members
  {
    if members != [] { PlainStays(members[1..]); }
  }

  /** Reading a written archive gives its members, odd sizes and empty members included. */
  lemma ParseInvertsMake(members: seq<Member>)
    requires forall i :: 0 <= i < |members| ==> Storable(members[i])
    ensures Parse(MakeAr(members)) == Members(members)
  {
    hide PrintMembers, ReadMember, After, Parse;
    var data := MakeAr(members);
    RoundsWritten(members, |members|);
    assert members[..|members|] == members;
    OutsideStops(data, |data|);
    ParseEnds(data, |members|);
    PlainStays(members);
  }
}

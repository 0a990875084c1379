/** The Packages index (buster/osbuild/packages.py): stanzas, records, and the merged dependency field. */
module Packages {
  import opened Text
  import opened Depends

  type Stanza = map<string, string>

  datatype PackageRecord = PackageRecord(
    package: string,
    version: string,
    architecture: string,
    section: string,
    depends: string,
    preDepends: string,
    provided: string,
    filename: string,
    size: int,
    md5sum: string,
    sha256: string,
    priority: string,
    essential: bool)

  function Get(stanza: Stanza, key: string, default: string): string {
    if key in stanza then stanza[key] else default
  }

  // ---------------------------------------------------------------- records

  function Norm(field: string): seq<string> { Trim(SplitOn(field, ',')) }

  /** `s.lower().startswith("yes")`. */
  predicate StartsYes(s: string) { |s| >= 3 && s[0] in "yY" && s[1] in "eE" && s[2] in "sS" }

  /** `None` stands for the ValueError of an unreadable Size. */
  function RecordFromStanza(stanza: Stanza): Option<PackageRecord>
    requires "Package" in stanza
  {
    var size := Get(stanza, "Size", "0");
    match if size == "" then Some(0) else ReadInt(size)
    case None => None
    case Some(n) =>
      Some(PackageRecord(
        stanza["Package"],
        Get(stanza, "Version", "0"),
        Get(stanza, "Architecture", "all"),
        Get(stanza, "Section", ""),
        JoinWith(Norm(Get(stanza, "Depends", "")) + Norm(Get(stanza, "Pre-Depends", "")), ", "),
        Get(stanza, "Pre-Depends", ""),
        Get(stanza, "Provides", ""),
        Get(stanza, "Filename", ""),
        n,
        Get(stanza, "MD5sum", ""),
        Get(stanza, "SHA256", ""),
        Get(stanza, "Priority", "optional"),
        StartsYes(Get(stanza, "Essential", "no"))))
  }

  /** The merged field of a record means the groups of Depends followed by those of Pre-Depends. */
  lemma MergedDepends(stanza: Stanza)
    requires "Package" in stanza && RecordFromStanza(stanza).Some?
    ensures Groups(RecordFromStanza(stanza).value.depends)
         == Groups(Get(stanza, "Depends", "")) + Groups(Get(stanza, "Pre-Depends", ""))
  {
    hide Get, Trim, SplitOn, ReadInt, ParseGroups, JoinWith;
    MergedFields(Get(stanza, "Depends", ""), Get(stanza, "Pre-Depends", ""));
  }

  lemma MergedFields(depends: string, preDepends: string)
    ensures Groups(JoinWith(Norm(depends) + Norm(preDepends), ", ")) == Groups(depends) + Groups(preDepends)
  {
    hide Trim, SplitOn, ParseGroups, JoinWith;
    var (a, b) := (Norm(depends), Norm(preDepends));
    TrimLacks(SplitOn(depends, ','), ',');
    TrimTight(SplitOn(depends, ','));
    TrimTight(SplitOn(preDepends, ','));
    TrimLacks(SplitOn(preDepends, ','), ',');
    TrimJoined("", a + b, "", ',');
    TrimTrimmed(a + b);
    assert "" + [','] + " " == ", ";
    assert "" + JoinWith(a + b, ", ") == JoinWith(a + b, ", ");
    ParseGroupsConcat(a, b);
  }

  // ---------------------------------------------------------------- provided names

  function ProvidedName(chunk: string): string {
    Strip(SplitOn(SplitOn(Strip(chunk), ' ')[0], '(')[0])
  }

  function ProvidedNames(chunks: seq<string>): seq<string> {
    if chunks == [] then []
    else (if ProvidedName(chunks[0]) == "" then [] else [ProvidedName(chunks[0])]) + ProvidedNames(chunks[1..])
  }

  function Provides(record: PackageRecord): seq<string> { ProvidedNames(SplitOn(record.provided, ',')) }

  method ProvidesNames(record: PackageRecord) returns (parts: seq<string>)
    ensures parts == Provides(record)
  {
    hide SplitOn, ProvidedName, ProvidedNames;
    parts := [];
    var chunks := SplitOn(record.provided, ',');
    var i := 0;
    ProvidedEnd(chunks);
    while i < |chunks|
      invariant 0 <= i <= |chunks|
      invariant ProvidedNames(chunks) == parts + ProvidedNames(chunks[i..])
    {
      var name := ProvidedName(chunks[i]);
      ProvidedNext(chunks, i);
      if name != "" { parts := parts + [name]; }
      i := i + 1;
    }
  }

  lemma ProvidedEnd(chunks: seq<string>)
    ensures ProvidedNames(chunks[|chunks|..]) == [] && chunks[0..] == chunks
  {
  }

  lemma ProvidedNext(chunks: seq<string>, i: nat)
    requires i < |chunks|
    ensures ProvidedNames(chunks[i..])
         == (if ProvidedName(chunks[i]) == "" then [] else [ProvidedName(chunks[i])]) + ProvidedNames(chunks[i + 1..])
  {
    hide ProvidedName;
    assert chunks[i..][1..] == chunks[i + 1..];
  }

  /** A printed Provides field, each name with an optional version relation, provides exactly its names. */
  lemma {:induction false} ProvidedOfPrinted(lead: string, written: seq<Written>)
    requires lead == "" || lead == " "
    requires forall i :: 0 <= i < |written| ==> ValidWritten(written[i]) && written[i].arch == ""
    ensures ProvidedNames(SplitOn(lead + JoinWith(PrintAll(written), ", "), ','))
         == seq(|written|, i requires 0 <= i < |written| => written[i].constraint.name)
    decreases |written|
  {
    hide ValidWritten, PrintAlternative, ProvidedName, Lacks, SplitOn, JoinWith;
    if written == [] {
      assert lead + JoinWith([], ", ") == lead by { EmptyJoin(", "); }
      NoName(lead);
    } else {
      var first := PrintAlternative(written[0]);
      NameOf(lead, written[0]);
      SplitJoined(lead, first, PrintAll(written[1..]));
      if |written| > 1 {
        assert PrintAll(written[1..]) != [];
        ProvidedOfPrinted(" ", written[1..]);
      }
    }
  }

  lemma EmptyJoin(sep: string)
    ensures JoinWith([], sep) == ""
  {
  }

  lemma SplitJoined(lead: string, first: string, rest: seq<string>)
    requires Lacks(lead + first, ',')
    ensures SplitOn(lead + JoinWith([first] + rest, ", "), ',')
         == [lead + first] + if rest == [] then [] else SplitOn(" " + JoinWith(rest, ", "), ',')
  {
    hide SplitOn;
    assert ([first] + rest)[1..] == rest;
    if rest == [] {
      SplitWhole(lead + first, ',');
    } else {
      var tail := " " + JoinWith(rest, ", ");
      assert lead + JoinWith([first] + rest, ", ") == (lead + first) + [','] + tail;
      SplitFirst(lead + first, tail, ',');
    }
  }

  lemma NoName(lead: string)
    requires lead == "" || lead == " "
    ensures SplitOn(lead, ',') == [lead] && ProvidedName(lead) == ""
  {
    SplitWhole(lead, ',');
    assert "" + "" == "" && " " + "" == " ";
    StripLeading("");
    SplitWhole("", ' ');
    SplitWhole("", '(');
  }

  lemma NameOf(lead: string, w: Written)
    requires lead == "" || lead == " "
    requires ValidWritten(w) && w.arch == ""
    ensures ProvidedName(lead + PrintAlternative(w)) == w.constraint.name && w.constraint.name != ""
    ensures Lacks(lead + PrintAlternative(w), ',')
  {
    hide PrintParenthesis, IsOperator, ValidVersion, ProvidedName, IsNameChar, IsSpace, IsArchChar, Tight, Lacks,
         PrintAlternative, PrintRest;
    var (name, end) := (w.constraint.name, PrintParenthesis(w.constraint));
    AlternativeChars(w);
    EndOf(w.constraint);
    NameChars(name);
    PrintedBare(w);
    LacksAfter(lead, name + end);
    BareName(lead, name, end);
  }

  lemma PrintedBare(w: Written)
    requires w.arch == ""
    ensures PrintAlternative(w) == w.constraint.name + PrintParenthesis(w.constraint)
  {
    hide PrintParenthesis;
    assert PrintRest(w) == PrintParenthesis(w.constraint);
  }

  lemma LacksAfter(lead: string, s: string)
    requires (lead == "" || lead == " ") && Lacks(s, ',')
    ensures Lacks(lead + s, ',')
  {
  }

  lemma BareName(lead: string, name: string, end: string)
    requires lead == "" || lead == " "
    requires Lacks(name, ' ') && Lacks(name, '(') && Tight(name)
    requires Tight(name + end) && (end != "" ==> end[0] == ' ')
    ensures ProvidedName(lead + (name + end)) == name
  {
    hide Strip, SplitOn, IsSpace;
    var s := name + end;
    StripTight(s);
    StripLeading(s);
    assert lead == "" ==> lead + s == s;
    if end == "" {
      assert s == name;
      SplitWhole(name, ' ');
    } else {
      assert s == name + [' '] + end[1..];
      SplitFirst(name, end[1..], ' ');
    }
    SplitWhole(name, '(');
    StripTight(name);
  }

  lemma NameChars(name: string)
    requires forall i :: 0 <= i < |name| ==> IsNameChar(name[i])
    ensures Lacks(name, ' ') && Lacks(name, '(') && Tight(name)
  {
  }

  // ---------------------------------------------------------------- the index reader

  /** Stanzas already flushed, the stanza being read, and the field continuation lines extend. */
  datatype Reader = Reader(done: seq<Stanza>, stanza: Stanza, current: Option<string>)

  const START := Reader([], map[], None)

  function DropReturns(line: string): string {
    if line != "" && line[|line| - 1] == '\r' then DropReturns(line[..|line| - 1]) else line
  }

  function Flush(r: Reader): Reader {
    r.(done := if Get(r.stanza, "Package", "") != "" then r.done + [r.stanza] else r.done, stanza := map[])
  }

  function Feed(r: Reader, rawLine: string): Reader {
    var line := DropReturns(rawLine);
    if line == "" then Flush(r).(current := None)
    else if line[0] == ' ' || line[0] == '\t' then
      if r.current.Some? && r.current.value != "" && r.current.value in r.stanza then
        var key := r.current.value;
        r.(stanza := r.stanza[key := r.stanza[key] + " " + Strip(line)])
      else r
    else
      var (field, found, value) := Partition(line, ':');
      if found then r.(stanza := r.stanza[Strip(field) := Strip(value)], current := Some(Strip(field)))
      else r.(current := None)
  }

  function FeedAll(r: Reader, lines: seq<string>): Reader
    decreases |lines|
  {
    if lines == [] then r else FeedAll(Feed(r, lines[0]), lines[1..])
  }

  function Stanzas(lines: seq<string>): seq<Stanza> { Flush(FeedAll(START, lines)).done }

  function Records(stanzas: seq<Stanza>): Option<seq<PackageRecord>>
    requires forall i :: 0 <= i < |stanzas| ==> "Package" in stanzas[i]
  {
    if stanzas == [] then Some([])
    else
      match (Records(stanzas[..|stanzas| - 1]), RecordFromStanza(stanzas[|stanzas| - 1]))
      case (Some(rs), Some(r)) => Some(rs + [r])
      case _ => None
  }

  lemma {:induction false} StanzasHavePackage(r: Reader, lines: seq<string>)
    requires forall i :: 0 <= i < |r.done| ==> "Package" in r.done[i]
    ensures var d := FeedAll(r, lines).done;
      |r.done| <= |d| && d[..|r.done|] == r.done && forall i :: 0 <= i < |d| ==> "Package" in d[i]
    decreases |lines|
  {
    if lines != [] { StanzasHavePackage(Feed(r, lines[0]), lines[1..]); }
  }

  lemma {:induction false} RecordsPrefix(stanzas: seq<Stanza>, n: nat)
    requires forall i :: 0 <= i < |stanzas| ==> "Package" in stanzas[i]
    requires n <= |stanzas| && Records(stanzas[..n]).None?
    ensures Records(stanzas).None?
  {
    if n < |stanzas| {
      assert stanzas[..|stanzas| - 1][..n] == stanzas[..n];
      RecordsPrefix(stanzas[..|stanzas| - 1], n);
    } else {
      assert stanzas[..n] == stanzas;
    }
  }

  /** Appends the record of a finished stanza that names a package; `None` when its Size is unreadable. */
  method FlushStanza(records: seq<PackageRecord>, stanza: Stanza, ghost done: seq<Stanza>)
    returns (result: Option<seq<PackageRecord>>)
    requires forall k :: 0 <= k < |done| ==> "Package" in done[k]
    requires Records(done) == Some(records)
    ensures Get(stanza, "Package", "") != "" ==> "Package" in stanza && result == Records(done + [stanza])
    ensures Get(stanza, "Package", "") == "" ==> result == Some(records)
  {
    hide RecordFromStanza;
    if Get(stanza, "Package", "") == "" { return Some(records); }
    assert (done + [stanza])[..|done|] == done;
    var record := RecordFromStanza(stanza);
    return match record case None => None case Some(r) => Some(records + [r]);
  }

  /** The reader on the lines of an index; `None` when a Size field stops it. */
  method ParsePackages(lines: seq<string>) returns (result: Option<seq<PackageRecord>>)
    ensures forall i :: 0 <= i < |Stanzas(lines)| ==> "Package" in Stanzas(lines)[i]
    ensures result == Records(Stanzas(lines))
  {
    hide RecordFromStanza, Strip, Partition, DropReturns, Records;
    StanzasHavePackage(START, lines);
    var records: seq<PackageRecord> := [];
    var stanza: Stanza := map[];
    var current: Option<string> := None;
    ghost var done: seq<Stanza> := [];
    NoRecords();
    var i := 0;
    while i < |lines|
      invariant 0 <= i <= |lines|
      invariant FeedAll(START, lines) == FeedAll(Reader(done, stanza, current), lines[i..])
      invariant forall k :: 0 <= k < |done| ==> "Package" in done[k]
      invariant Records(done) == Some(records)
    {
      var line := DropReturns(lines[i]);
      assert lines[i..][1..] == lines[i + 1..];
      ghost var next := Feed(Reader(done, stanza, current), lines[i]);
      if line == "" {
        var flushed := FlushStanza(records, stanza, done);
        if flushed.None? {
          UnreadableSize(lines, next, i + 1);
          return None;
        }
        records, done := flushed.value, next.done;
        stanza, current := map[], None;
      } else if line[0] == ' ' || line[0] == '\t' {
        if current.Some? && current.value != "" && current.value in stanza {
          stanza := stanza[current.value := stanza[current.value] + " " + Strip(line)];
        }
      } else {
        var (field, found, value) := Partition(line, ':');
        if found {
          current := Some(Strip(field));
          stanza := stanza[Strip(field) := Strip(value)];
        } else {
          current := None;
        }
      }
      assert next == Reader(done, stanza, current);
      i := i + 1;
    }
    result := FlushStanza(records, stanza, done);
  }

  lemma NoRecords()
    ensures Records([]) == Some([])
  {
  }

  lemma UnreadableSize(lines: seq<string>, next: Reader, i: nat)
    requires i <= |lines| && FeedAll(START, lines) == FeedAll(next, lines[i..])
    requires forall k :: 0 <= k < |next.done| ==> "Package" in next.done[k]
    requires Records(next.done).None?
    ensures forall k :: 0 <= k < |Stanzas(lines)| ==> "Package" in Stanzas(lines)[k]
    ensures Records(Stanzas(lines)).None?
  {
    hide Feed, FeedAll;
    StanzasHavePackage(START, lines);
    StanzasHavePackage(next, lines[i..]);
    assert Stanzas(lines)[..|next.done|] == next.done;
    RecordsPrefix(Stanzas(lines), |next.done|);
  }

  // ---------------------------------------------------------------- reading inverts printing

  /** A field: its key, the first line of its value and the continuation lines. */
  datatype Field = Field(key: string, first: string, more: seq<string>)

  predicate ValidField(f: Field) {
    && f.key != "" && Tight(f.key) && Lacks(f.key, ':') && Tight(f.first)
    && forall i :: 0 <= i < |f.more| ==> f.more[i] != "" && Tight(f.more[i])
  }

  predicate ValidFields(fields: seq<Field>) { forall i :: 0 <= i < |fields| ==> ValidField(fields[i]) }

  function Continuation(parts: seq<string>): seq<string> {
    if parts == [] then [] else [" " + parts[0]] + Continuation(parts[1..])
  }

  function PrintStanzaField(f: Field): seq<string> { [f.key + ": " + f.first] + Continuation(f.more) }

  function PrintFields(fields: seq<Field>): seq<string> {
    if fields == [] then [] else PrintStanzaField(fields[0]) + PrintFields(fields[1..])
  }

  function PrintIndex(stanzas: seq<seq<Field>>): seq<string> {
    if stanzas == [] then [] else PrintFields(stanzas[0]) + [""] + PrintIndex(stanzas[1..])
  }

  /** A value and its continuation lines, one space between. */
  function Unfold(value: string, more: seq<string>): string
    decreases |more|
  {
    if more == [] then value else Unfold(value + " " + more[0], more[1..])
  }

  /** The later of two fields with one key wins. */
  function FieldMap(stanza: Stanza, fields: seq<Field>): Stanza
    decreases |fields|
  {
    if fields == [] then stanza
    else FieldMap(stanza[fields[0].key := Unfold(fields[0].first, fields[0].more)], fields[1..])
  }

  function KeptOne(fields: seq<Field>): seq<Stanza> {
    var m := FieldMap(map[], fields);
    if Get(m, "Package", "") != "" then [m] else []
  }

  function Kept(stanzas: seq<seq<Field>>): seq<Stanza> {
    if stanzas == [] then [] else KeptOne(stanzas[0]) + Kept(stanzas[1..])
  }

  lemma {:induction false} FeedConcat(r: Reader, a: seq<string>, b: seq<string>)
    ensures FeedAll(r, a + b) == FeedAll(FeedAll(r, a), b)
    decreases |a|
  {
    hide Feed;
    if a == [] {
      assert a + b == b;
    } else {
      assert (a + b)[1..] == a[1..] + b;
      FeedConcat(Feed(r, a[0]), a[1..], b);
    }
  }

  lemma {:induction false} FeedContinuation(r: Reader, key: string, more: seq<string>)
    requires key != "" && r.current == Some(key) && key in r.stanza
    requires forall i :: 0 <= i < |more| ==> more[i] != "" && Tight(more[i])
    ensures FeedAll(r, Continuation(more)) == r.(stanza := r.stanza[key := Unfold(r.stanza[key], more)])
    decreases |more|
  {
    hide Strip, DropReturns, Partition;
    if more == [] {
      assert r.stanza[key := r.stanza[key]] == r.stanza;
    } else {
      var line := " " + more[0];
      assert DropReturns(line) == line by { LastIsVisible(line); }
      StripLeading(more[0]);
      StripTight(more[0]);
      var longer := r.stanza[key] + " " + more[0];
      var next := r.(stanza := r.stanza[key := longer]);
      assert Feed(r, line) == next;
      FeedContinuation(next, key, more[1..]);
      assert next.stanza[key := Unfold(longer, more[1..])] == r.stanza[key := Unfold(longer, more[1..])];
    }
  }

  lemma LastIsVisible(line: string)
    requires line != "" && !IsSpace(line[|line| - 1])
    ensures DropReturns(line) == line
  {
    assert IsSpace('\r');
  }

  lemma FeedField(r: Reader, f: Field)
    requires ValidField(f)
    ensures FeedAll(r, PrintStanzaField(f)) ==
              r.(stanza := r.stanza[f.key := Unfold(f.first, f.more)], current := Some(f.key))
  {
    hide Feed, Unfold;
    var next := r.(stanza := r.stanza[f.key := f.first], current := Some(f.key));
    FeedKeyLine(r, f);
    FeedContinuation(next, f.key, f.more);
    assert next.stanza[f.key := Unfold(f.first, f.more)] == r.stanza[f.key := Unfold(f.first, f.more)];
    assert PrintStanzaField(f)[1..] == Continuation(f.more);
  }

  lemma FeedKeyLine(r: Reader, f: Field)
    requires ValidField(f)
    ensures Feed(r, f.key + ": " + f.first) ==
              r.(stanza := r.stanza[f.key := f.first], current := Some(f.key))
  {
    hide Strip, Partition;
    var line := f.key + ": " + f.first;
    assert line == f.key + [':'] + (" " + f.first);
    assert line[0] == f.key[0] && line[0] != ' ' && line[0] != '\t';
    assert line[|line| - 1] != '\r';
    assert DropReturns(line) == line;
    PartitionAt(f.key, " " + f.first, ':');
    StripTight(f.key);
    StripLeading(f.first);
    StripTight(f.first);
  }

  lemma {:induction false} FeedFields(r: Reader, fields: seq<Field>)
    requires ValidFields(fields)
    ensures FeedAll(r, PrintFields(fields)).done == r.done
    ensures FeedAll(r, PrintFields(fields)).stanza == FieldMap(r.stanza, fields)
    decreases |fields|
  {
    hide Feed, Unfold, PrintStanzaField;
    if fields != [] {
      FeedField(r, fields[0]);
      FeedConcat(r, PrintStanzaField(fields[0]), PrintFields(fields[1..]));
      FeedFields(FeedAll(r, PrintStanzaField(fields[0])), fields[1..]);
    }
  }

  /** One stanza of an index, up to and with its blank line. */
  lemma FeedStanza(r: Reader, fields: seq<Field>, rest: seq<string>)
    requires r.stanza == map[] && ValidFields(fields)
    ensures FeedAll(r, PrintFields(fields) + [""] + rest) == FeedAll(Reader(r.done + KeptOne(fields), map[], None), rest)
  {
    hide Feed, PrintFields, ValidFields, FieldMap, Get, FeedAll;
    var mid := FeedAll(r, PrintFields(fields));
    FeedFields(r, fields);
    assert r.done + [] == r.done;
    FeedBlank(mid, rest);
    FeedConcat(r, PrintFields(fields), [""] + rest);
    assert PrintFields(fields) + [""] + rest == PrintFields(fields) + ([""] + rest);
  }

  lemma FeedBlank(r: Reader, rest: seq<string>)
    ensures FeedAll(r, [""] + rest) == FeedAll(Flush(r).(current := None), rest)
  {
    hide Flush;
    assert ([""] + rest)[1..] == rest;
    assert DropReturns("") == "";
  }

  lemma {:induction false} FeedIndex(r: Reader, stanzas: seq<seq<Field>>)
    requires r.stanza == map[]
    requires forall i :: 0 <= i < |stanzas| ==> ValidFields(stanzas[i])
    ensures FeedAll(r, PrintIndex(stanzas)).done == r.done + Kept(stanzas)
    ensures FeedAll(r, PrintIndex(stanzas)).stanza == map[]
    decreases |stanzas|
  {
    hide ValidFields, PrintFields, FeedAll, KeptOne;
    if stanzas == [] {
      FeedNothing(r);
      assert r.done + [] == r.done;
    } else {
      var one := KeptOne(stanzas[0]);
      assert (r.done + one) + Kept(stanzas[1..]) == r.done + (one + Kept(stanzas[1..]));
      FeedStanza(r, stanzas[0], PrintIndex(stanzas[1..]));
      FeedIndex(Reader(r.done + one, map[], None), stanzas[1..]);
      assert PrintIndex(stanzas) == PrintFields(stanzas[0]) + [""] + PrintIndex(stanzas[1..]);
    }
  }

  lemma FeedNothing(r: Reader)
    ensures FeedAll(r, []) == r
  {
  }

  /** Reading a printed index gives the stanzas that name a package, in order and with their fields. */
  lemma StanzasInvertPrint(stanzas: seq<seq<Field>>)
    requires forall i :: 0 <= i < |stanzas| ==> ValidFields(stanzas[i])
    ensures Stanzas(PrintIndex(stanzas)) == Kept(stanzas)
  {
    hide ValidFields, FeedAll, PrintIndex, Kept;
    FeedIndex(START, stanzas);
  }
}

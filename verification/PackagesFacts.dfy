/** A whole record through the index, and what lines do not matter (buster/osbuild/packages.py). */
module PackagesFacts {
  import opened Text
  import opened Depends
  import opened Packages

  // ---------------------------------------------------------------- records through the index

  /** The fields of an index for a record. */
  function Fields(r: PackageRecord): seq<Field>
    requires r.size >= 0
  {
    [Field("Package", r.package, []), Field("Version", r.version, []), Field("Architecture", r.architecture, []),
     Field("Section", r.section, []), Field("Depends", r.depends, []), Field("Pre-Depends", r.preDepends, []),
     Field("Provides", r.provided, []), Field("Filename", r.filename, []), Field("Size", Digits(r.size), []),
     Field("MD5sum", r.md5sum, []), Field("SHA256", r.sha256, []), Field("Priority", r.priority, []),
     Field("Essential", if r.essential then "yes" else "no", [])]
  }

  /** A named package whose texts have no outer whitespace. */
  predicate Printable(r: PackageRecord) {
    && r.package != "" && r.size >= 0
    && Tight(r.package) && Tight(r.version) && Tight(r.architecture) && Tight(r.section) && Tight(r.depends)
    && Tight(r.preDepends) && Tight(r.provided) && Tight(r.filename) && Tight(r.md5sum) && Tight(r.sha256) && Tight(r.priority)
  }

  /** The record with its dependencies merged, as reading gives it. */
  function Merged(r: PackageRecord): PackageRecord {
    r.(depends := JoinWith(Norm(r.depends) + Norm(r.preDepends), ", "))
  }

  /** No two fields have one key. */
  predicate DistinctKeys(fields: seq<Field>) { forall i, j :: 0 <= i < j < |fields| ==> fields[i].key != fields[j].key }

  lemma {:induction false} FieldOf(stanza: Stanza, fields: seq<Field>, i: nat)
    requires i < |fields| && DistinctKeys(fields) && fields[i].more == []
    ensures fields[i].key in FieldMap(stanza, fields) && FieldMap(stanza, fields)[fields[i].key] == fields[i].first
    decreases |fields|
  {
    var next := stanza[fields[0].key := Unfold(fields[0].first, fields[0].more)];
    if i == 0 {
      NotOverwritten(next, fields[1..], fields[0].key);
    } else {
      assert forall a, b :: 0 <= a < b < |fields[1..]| ==> fields[1..][a].key != fields[1..][b].key;
      FieldOf(next, fields[1..], i - 1);
    }
  }

  lemma {:induction false} NotOverwritten(stanza: Stanza, fields: seq<Field>, key: string)
    requires key in stanza && forall i :: 0 <= i < |fields| ==> fields[i].key != key
    ensures key in FieldMap(stanza, fields) && FieldMap(stanza, fields)[key] == stanza[key]
    decreases |fields|
  {
    if fields != [] { NotOverwritten(stanza[fields[0].key := Unfold(fields[0].first, fields[0].more)], fields[1..], key); }
  }

  function KeyTexts(): seq<string> {
    ["Package", "Version", "Architecture", "Section", "Depends", "Pre-Depends", "Provides", "Filename", "Size", "MD5sum",
     "SHA256", "Priority", "Essential"]
  }

  /** A number for a key from its length and two of its letters. */
  function Code(key: string): int { if |key| < 4 then 0 else 1000000 * |key| + 1000 * (key[0] as int) + key[2] as int }

  function Codes(): seq<int> {
    [7080099, 7086114, 12065099, 7083099, 7068112, 11080101, 8080111, 8070108, 4083122, 6077053, 6083065, 8080105, 9069115]
  }

  lemma KeyCodes()
    ensures |Codes()| == |KeyTexts()| == 13 && forall i :: 0 <= i < 13 ==> Code(KeyTexts()[i]) == Codes()[i]
  {
    assert Code("Package") == 7080099 && Code("Version") == 7086114 && Code("Architecture") == 12065099;
    assert Code("Section") == 7083099 && Code("Depends") == 7068112 && Code("Pre-Depends") == 11080101;
    assert Code("Provides") == 8080111 && Code("Filename") == 8070108 && Code("Size") == 4083122;
    assert Code("MD5sum") == 6077053 && Code("SHA256") == 6083065 && Code("Priority") == 8080105;
    assert Code("Essential") == 9069115;
  }

  lemma CodesDiffer()
    ensures forall i, j :: 0 <= i < j < |Codes()| ==> Codes()[i] != Codes()[j]
  {
  }

  lemma KeyAt(r: PackageRecord)
    requires r.size >= 0
    ensures |Fields(r)| == 13 == |KeyTexts()| && forall i :: 0 <= i < 13 ==> Fields(r)[i].key == KeyTexts()[i]
    ensures forall i :: 0 <= i < 13 ==> Fields(r)[i].more == []
  {
    hide Digits;
  }

  lemma KeysDiffer(r: PackageRecord)
    requires r.size >= 0
    ensures DistinctKeys(Fields(r))
  {
    hide Fields, KeyTexts, Codes, Code;
    KeyAt(r);
    KeyCodes();
    CodesDiffer();
    forall i, j | 0 <= i < j < 13 ensures Fields(r)[i].key != Fields(r)[j].key {
      assert Code(KeyTexts()[i]) != Code(KeyTexts()[j]);
    }
  }

  lemma FieldsValid(r: PackageRecord)
    requires Printable(r)
    ensures ValidFields(Fields(r))
  {
    hide Digits, IsSpace, KeyTexts, Tight, Lacks, Fields;
    KeyAt(r);
    FirstsTight(r);
    forall i | 0 <= i < |Fields(r)| ensures ValidField(Fields(r)[i]) { KeyPlain(i); }
  }

  lemma FirstsTight(r: PackageRecord)
    requires Printable(r)
    ensures |Fields(r)| == 13 && forall i :: 0 <= i < 13 ==> Tight(Fields(r)[i].first)
  {
    hide Digits, Tight;
    DigitsTight(r.size);
    WordTight("yes");
    WordTight("no");
  }

  /** Letters, digits and hyphens. */
  predicate KeyText(k: string) { k != "" && forall i :: 0 <= i < |k| ==> IsLetter(k[i]) || IsDigit(k[i]) || k[i] == '-' }

  lemma WordTight(k: string)
    requires KeyText(k)
    ensures Tight(k) && Lacks(k, ':')
  {
  }

  lemma KeyPlain(i: nat)
    requires i < |KeyTexts()|
    ensures KeyTexts()[i] != "" && Tight(KeyTexts()[i]) && Lacks(KeyTexts()[i], ':')
  {
    hide Tight, Lacks;
    assert KeyText(KeyTexts()[i]);
    WordTight(KeyTexts()[i]);
  }

  lemma DigitsTight(n: nat)
    ensures Tight(Digits(n))
  {
    var d := Digits(n);
    assert IsDigit(d[0]) && IsDigit(d[|d| - 1]);
  }

  /** The stanza has these values. */
  predicate Says(m: Stanza, key: string, value: string) { key in m && m[key] == value }

  predicate SaysRecord(m: Stanza, r: PackageRecord)
    requires r.size >= 0
  {
    && Says(m, "Package", r.package) && Says(m, "Version", r.version) && Says(m, "Architecture", r.architecture)
    && Says(m, "Section", r.section) && Says(m, "Depends", r.depends) && Says(m, "Pre-Depends", r.preDepends)
    && Says(m, "Provides", r.provided) && Says(m, "Filename", r.filename) && Says(m, "Size", Digits(r.size))
    && Says(m, "MD5sum", r.md5sum) && Says(m, "SHA256", r.sha256) && Says(m, "Priority", r.priority)
    && Says(m, "Essential", if r.essential then "yes" else "no")
  }

  lemma FieldsSaid(m: Stanza, r: PackageRecord)
    requires r.size >= 0 && forall i :: 0 <= i < |Fields(r)| ==> Says(m, Fields(r)[i].key, Fields(r)[i].first)
    ensures SaysRecord(m, r)
  {
    hide Digits, Says;
    var f := Fields(r);
    assert Says(m, f[0].key, f[0].first) && Says(m, f[1].key, f[1].first) && Says(m, f[2].key, f[2].first);
    assert Says(m, f[3].key, f[3].first) && Says(m, f[4].key, f[4].first) && Says(m, f[5].key, f[5].first);
    assert Says(m, f[6].key, f[6].first) && Says(m, f[7].key, f[7].first) && Says(m, f[8].key, f[8].first);
    assert Says(m, f[9].key, f[9].first) && Says(m, f[10].key, f[10].first) && Says(m, f[11].key, f[11].first);
    assert Says(m, f[12].key, f[12].first);
  }

  lemma RecordSaid(m: Stanza, r: PackageRecord)
    requires r.size >= 0 && SaysRecord(m, r)
    ensures "Package" in m && RecordFromStanza(m) == Some(Merged(r))
  {
    hide Norm, JoinWith, Digits, ReadInt, StartsYes;
    ReadIntOfDigits(r.size);
    YesNo();
  }

  /** Each field of a printed record is read into the part of the record it stands for. */
  lemma RecordRead(r: PackageRecord)
    requires Printable(r)
    ensures var m := FieldMap(map[], Fields(r));
      && Get(m, "Package", "") == r.package && "Package" in m && RecordFromStanza(m) == Some(Merged(r))
  {
    hide FieldMap, Digits, Tight, Fields, RecordFromStanza, Merged;
    KeyAt(r);
    KeysDiffer(r);
    var m := FieldMap(map[], Fields(r));
    forall i | 0 <= i < |Fields(r)| ensures Says(m, Fields(r)[i].key, Fields(r)[i].first) { FieldOf(map[], Fields(r), i); }
    FieldsSaid(m, r);
    RecordSaid(m, r);
  }

  lemma YesNo()
    ensures StartsYes("yes") && !StartsYes("no") && StartsYes("Yes") && StartsYes("YES")
  {
  }

  function AllFields(rs: seq<PackageRecord>): seq<seq<Field>>
    requires forall i :: 0 <= i < |rs| ==> rs[i].size >= 0
  {
    seq(|rs|, i requires 0 <= i < |rs| => Fields(rs[i]))
  }

  function AllMerged(rs: seq<PackageRecord>): seq<PackageRecord> { seq(|rs|, i requires 0 <= i < |rs| => Merged(rs[i])) }

  lemma {:induction false} AllKept(rs: seq<PackageRecord>)
    requires forall i :: 0 <= i < |rs| ==> Printable(rs[i]) && rs[i].size >= 0
    ensures |Kept(AllFields(rs))| == |rs|
    ensures forall i :: 0 <= i < |rs| ==> Kept(AllFields(rs))[i] == FieldMap(map[], Fields(rs[i]))
  {
    hide FieldMap, Printable, Fields, RecordFromStanza;
    if rs != [] {
      RecordRead(rs[0]);
      assert PackageNamed(rs[0]) by { Named(rs[0]); }
      var all := AllFields(rs);
      assert all[0] == Fields(rs[0]) && all[1..] == AllFields(rs[1..]);
      assert KeptOne(all[0]) == [FieldMap(map[], Fields(rs[0]))];
      AllKept(rs[1..]);
    }
  }

  predicate PackageNamed(r: PackageRecord) { r.package != "" }

  lemma Named(r: PackageRecord)
    requires Printable(r)
    ensures PackageNamed(r)
  {
  }

  lemma {:induction false} AllRead(stanzas: seq<Stanza>, rs: seq<PackageRecord>)
    requires |stanzas| == |rs| && forall i :: 0 <= i < |rs| ==> Printable(rs[i]) && rs[i].size >= 0
    requires forall i :: 0 <= i < |rs| ==> stanzas[i] == FieldMap(map[], Fields(rs[i]))
    ensures forall i :: 0 <= i < |stanzas| ==> "Package" in stanzas[i]
    ensures Records(stanzas) == Some(AllMerged(rs))
  {
    hide FieldMap, Printable, Fields, Merged, RecordFromStanza;
    forall i | 0 <= i < |stanzas| ensures "Package" in stanzas[i] { RecordRead(rs[i]); }
    if rs != [] {
      AllRead(stanzas[..|rs| - 1], rs[..|rs| - 1]);
      RecordRead(rs[|rs| - 1]);
      assert AllMerged(rs) == AllMerged(rs[..|rs| - 1]) + [Merged(rs[|rs| - 1])];
    }
  }

  /** Reading the index of any records gives the records, in order and each field in its place, with their dependencies
      merged. */
  lemma RecordsInvertPrint(rs: seq<PackageRecord>)
    requires forall i :: 0 <= i < |rs| ==> Printable(rs[i]) && rs[i].size >= 0
    ensures forall i :: 0 <= i < |Stanzas(PrintIndex(AllFields(rs)))| ==> "Package" in Stanzas(PrintIndex(AllFields(rs)))[i]
    ensures Records(Stanzas(PrintIndex(AllFields(rs)))) == Some(AllMerged(rs))
  {
    hide Printable, Fields, Merged, ValidFields, PrintIndex, Stanzas, FieldMap, Records;
    forall i | 0 <= i < |rs| ensures ValidFields(AllFields(rs)[i]) { FieldsValid(rs[i]); }
    StanzasInvertPrint(AllFields(rs));
    AllKept(rs);
    AllRead(Kept(AllFields(rs)), rs);
  }

  /** What a record has where its stanza has no such field. */
  lemma Defaults(package: string)
    ensures var r := RecordFromStanza(map["Package" := package]);
      r == Some(PackageRecord(package, "0", "all", "", "", "", "", "", 0, "", "", "optional", false))
  {
    hide ReadInt, SplitOn;
    NoDependencies();
    ReadIntOfDigits(0);
    assert Digits(0) == "0";
    assert !StartsYes("no");
  }

  lemma NoDependencies()
    ensures JoinWith(Norm("") + Norm(""), ", ") == ""
  {
    assert SplitOn("", ',') == [""] && Strip("") == "";
    assert Trim([""]) == [] by { assert [""][1..] == []; }
    assert Norm("") + Norm("") == [];
  }

  // ---------------------------------------------------------------- provided names

  /** A provided name ends at a parenthesis as well as at a space. */
  lemma ProvidedBeforeParenthesis(name: string, rest: string)
    requires forall i :: 0 <= i < |name| ==> IsNameChar(name[i])
    requires name != "" && Tight(rest) && rest != "" && Lacks(rest, ' ')
    ensures ProvidedName(name + "(" + rest) == name
  {
    hide IsSpace, Strip, SplitOn, IsNameChar;
    var chunk := name + "(" + rest;
    NameChars(name);
    assert chunk[0] == name[0] && chunk[|chunk| - 1] == rest[|rest| - 1];
    StripTight(chunk);
    assert Lacks(chunk, ' ');
    SplitWhole(chunk, ' ');
    assert chunk == name + ['('] + rest;
    SplitFirst(name, rest, '(');
    StripTight(name);
  }

  // ---------------------------------------------------------------- lines

  /** A carriage return at the end of a line does not matter. */
  lemma ReturnsDropped(r: Reader, line: string)
    ensures Feed(r, line + "\r") == Feed(r, line)
  {
    assert (line + "\r")[..|line|] == line;
    assert DropReturns(line + "\r") == DropReturns(line);
  }

  /** A tab continues a field as a space does. */
  lemma TabsContinue(r: Reader, text: string)
    requires text != "" && Lacks(text, '\r')
    ensures Feed(r, "\t" + text) == Feed(r, " " + text)
  {
    assert DropReturns("\t" + text) == "\t" + text && DropReturns(" " + text) == " " + text;
    assert ("\t" + text)[1..] == text && (" " + text)[1..] == text && IsSpace('\t') && IsSpace(' ');
    assert StripLeft("\t" + text) == StripLeft(text) == StripLeft(" " + text);
  }

  /** A line that is neither a field nor a continuation ends the field, so that lines continuing it are dropped. */
  lemma StrayLineEndsField(r: Reader, stray: string, text: string)
    requires stray != "" && stray[0] != ' ' && stray[0] != '\t' && Lacks(stray, ':') && Lacks(stray, '\r')
    requires text != "" && Lacks(text, '\r')
    ensures Feed(r, stray) == r.(current := None) && Feed(Feed(r, stray), " " + text) == Feed(r, stray)
  {
    assert DropReturns(stray) == stray && DropReturns(" " + text) == " " + text;
    PartitionNone(stray, ':');
  }
}

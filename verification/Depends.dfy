/** Dependency fields (buster/osbuild/resolver.py): constraints, the reader of Depends fields, and a
    printer in the syntax of section 7.1 of the Debian Policy Manual that it inverts. */
module Depends {
  import opened Text
  import opened Versions

  datatype Constraint = Constraint(name: string, operator: string, version: string) {
    /** An unknown operator is satisfied by every version. */
    predicate SatisfiedBy(candidate: string) {
      if operator == "" then true
      else
        var c := Vercmp(candidate, version);
        if operator == "<" then c < 0
        else if operator == "<=" then c <= 0
        else if operator == "=" then c == 0
        else if operator == ">=" then c >= 0
        else if operator == ">" then c > 0
        else if operator == "!=" then c != 0
        else true
    }
  }

  type Group = seq<Constraint>

  // ---------------------------------------------------------------- one alternative

  predicate IsNameChar(c: char) { IsLetter(c) || IsDigit(c) || c in "+._-" }

  predicate IsArchChar(c: char) { IsLetter(c) || IsDigit(c) || c in "_-" }

  function NameLength(s: string): (n: nat)
    ensures n <= |s|
  {
    if s != "" && IsNameChar(s[0]) then 1 + NameLength(s[1..]) else 0
  }

  function ArchRun(s: string): (n: nat)
    ensures n <= |s|
  {
    if s != "" && IsArchChar(s[0]) then 1 + ArchRun(s[1..]) else 0
  }

  /** Length of an optional `:arch`. */
  function ArchLength(s: string): (n: nat)
    ensures n <= |s|
  {
    if s != "" && s[0] == ':' && ArchRun(s[1..]) > 0 then 1 + ArchRun(s[1..]) else 0
  }

  /** Operator and version between the parentheses. The alternation `<=|<|>=|>|=|!=` is tried in order, and
      the version needs one character, so `<=` alone reads as `<` with version `=`. */
  function ReadRelation(body: string): (string, string) {
    if |body| > 2 && body[0] in "<>!" && body[1] == '=' then (body[..2], Strip(body[2..]))
    else if |body| > 1 && body[0] in "<>=" then (body[..1], Strip(body[1..]))
    else ("", "")
  }

  function ReadParenthesis(tail: string): (string, string) {
    var t := StripLeft(tail);
    if t == "" || t[0] != '(' then ("", "")
    else
      var (body, closed, _) := Partition(t[1..], ')');
      if closed then ReadRelation(body) else ("", "")
  }

  function ParseAlternative(alternative: string): Constraint {
    var n := NameLength(alternative);
    if n == 0 then Constraint(alternative, "", "")
    else
      var rest := alternative[n..];
      var (operator, version) := ReadParenthesis(rest[ArchLength(rest)..]);
      Constraint(alternative[..n], operator, version)
  }

  // ---------------------------------------------------------------- a whole field

  /** The non-empty stripped parts, in order. */
  function Trim(parts: seq<string>): seq<string> {
    if parts == [] then []
    else if Strip(parts[0]) == "" then Trim(parts[1..])
    else [Strip(parts[0])] + Trim(parts[1..])
  }

  lemma {:induction false} TrimTight(parts: seq<string>)
    ensures forall i :: 0 <= i < |Trim(parts)| ==> Trim(parts)[i] != "" && Tight(Trim(parts)[i])
  {
    hide Strip, Tight;
    if parts != [] {
      TrimTight(parts[1..]);
      StripOf(parts[0], ' ');
    }
  }

  lemma {:induction false} TrimLacks(parts: seq<string>, c: char)
    requires forall i :: 0 <= i < |parts| ==> Lacks(parts[i], c)
    ensures forall i :: 0 <= i < |Trim(parts)| ==> Lacks(Trim(parts)[i], c)
  {
    hide Strip, Tight, Lacks;
    if parts != [] {
      StripOf(parts[0], c);
      TrimLacks(parts[1..], c);
    }
  }

  function ParseAll(parts: seq<string>): Group {
    if parts == [] then [] else [ParseAlternative(parts[0])] + ParseAll(parts[1..])
  }

  function ParseGroups(parts: seq<string>): seq<Group> {
    if parts == [] then [] else [ParseAll(Trim(SplitOn(parts[0], '|')))] + ParseGroups(parts[1..])
  }

  /** What a Depends field means: groups of alternatives. */
  function Groups(field: string): seq<Group> { ParseGroups(Trim(SplitOn(field, ','))) }

  method ParseDepends(field: string) returns (groups: seq<Group>)
    ensures groups == Groups(field)
  {
    groups := [];
    var parts := SplitOn(field, ',');
    var i := 0;
    while i < |parts|
      invariant 0 <= i <= |parts|
      invariant Groups(field) == groups + ParseGroups(Trim(parts[i..]))
    {
      var group := Strip(parts[i]);
      assert parts[i..][0] == parts[i] && parts[i..][1..] == parts[i + 1..];
      if group != "" {
        assert Trim(parts[i..]) == [group] + Trim(parts[i + 1..]);
        assert ([group] + Trim(parts[i + 1..]))[1..] == Trim(parts[i + 1..]);
        groups := groups + [ParseAll(Trim(SplitOn(group, '|')))];
      }
      i := i + 1;
    }
  }

  // ---------------------------------------------------------------- joining and splitting again

  /** Parts joined by a separator with optional spaces around it come back, trimmed. */
  lemma {:induction false} TrimJoined(lead: string, parts: seq<string>, before: string, sep: char)
    requires before == "" || before == " "
    requires lead == "" || lead == " "
    requires sep != ' '
    requires forall i :: 0 <= i < |parts| ==> Lacks(parts[i], sep)
    ensures Trim(SplitOn(lead + JoinWith(parts, before + [sep] + " "), sep)) == Trim(parts)
    decreases |parts|
  {
    hide Strip, SplitOn, Lacks;
    if |parts| <= 1 {
      if parts == [] { NothingToTrim(sep); }
      TrimOne(lead, if parts == [] then "" else parts[0], sep);
    } else {
      var tail := JoinWith(parts[1..], before + [sep] + " ");
      TrimHead(lead, parts[0], before, sep, tail);
      TrimJoined(" ", parts[1..], before, sep);
    }
  }

  lemma NothingToTrim(sep: char)
    ensures Lacks("", sep) && Strip("") == ""
  {
  }

  lemma TrimOne(lead: string, only: string, sep: char)
    requires (lead == "" || lead == " ") && sep != ' ' && Lacks(only, sep)
    ensures Trim(SplitOn(lead + only, sep)) == if Strip(only) == "" then [] else [Strip(only)]
  {
    hide Strip, SplitOn;
    SplitWhole(lead + only, sep);
    StripSpaced(lead, only, "");
    assert lead + only + "" == lead + only;
  }

  lemma TrimHead(lead: string, first: string, before: string, sep: char, tail: string)
    requires (lead == "" || lead == " ") && (before == "" || before == " ") && sep != ' ' && Lacks(first, sep)
    ensures Trim(SplitOn(lead + (first + (before + [sep] + " ") + tail), sep))
         == (if Strip(first) == "" then [] else [Strip(first)]) + Trim(SplitOn(" " + tail, sep))
  {
    hide Strip, SplitOn;
    var head := lead + first + before;
    assert lead + (first + (before + [sep] + " ") + tail) == head + [sep] + (" " + tail);
    SplitFirst(head, " " + tail, sep);
    StripSpaced(lead, first, before);
  }

  lemma {:induction false} TrimTrimmed(parts: seq<string>)
    requires forall i :: 0 <= i < |parts| ==> parts[i] != "" && Tight(parts[i])
    ensures Trim(parts) == parts
  {
    hide Strip;
    if parts != [] {
      StripTight(parts[0]);
      TrimTrimmed(parts[1..]);
    }
  }

  // ---------------------------------------------------------------- the printer

  /** A constraint as written, with an optional architecture qualifier that reading drops. */
  datatype Written = Written(constraint: Constraint, arch: string)

  predicate ValidWritten(w: Written) {
    var c := w.constraint;
    && c.name != "" && (forall i :: 0 <= i < |c.name| ==> IsNameChar(c.name[i]))
    && (forall i :: 0 <= i < |w.arch| ==> IsArchChar(w.arch[i]))
    && (if c.operator == "" then c.version == ""
        else IsOperator(c.operator) && ValidVersion(c.version))
  }

  predicate IsOperator(s: string) { s in ["<", "<=", "=", ">=", ">", "!="] }

  predicate ValidVersion(v: string) {
    v != "" && Tight(v) && Lacks(v, ')') && Lacks(v, ',') && Lacks(v, '|')
  }

  /** No space in front of a version read with an angle bracket: `(<< 2)` has the operator `<` and the version `< 2`. */
  function Gap(version: string): string { if version != "" && version[0] in "<>" then "" else " " }

  function PrintParenthesis(c: Constraint): string {
    if c.operator == "" then "" else " (" + (c.operator + Gap(c.version) + c.version) + ")"
  }

  function PrintRest(w: Written): string {
    (if w.arch == "" then "" else ":" + w.arch) + PrintParenthesis(w.constraint)
  }

  function PrintAlternative(w: Written): string {
    w.constraint.name + PrintRest(w)
  }

  function PrintAll(group: seq<Written>): seq<string> {
    if group == [] then [] else [PrintAlternative(group[0])] + PrintAll(group[1..])
  }

  function PrintGroup(group: seq<Written>): string { JoinWith(PrintAll(group), " | ") }

  function PrintGroups(groups: seq<seq<Written>>): seq<string> {
    if groups == [] then [] else [PrintGroup(groups[0])] + PrintGroups(groups[1..])
  }

  function PrintField(groups: seq<seq<Written>>): string { JoinWith(PrintGroups(groups), ", ") }

  function Meaning(group: seq<Written>): Group {
    seq(|group|, i requires 0 <= i < |group| => group[i].constraint)
  }

  function Meanings(groups: seq<seq<Written>>): seq<Group> {
    seq(|groups|, i requires 0 <= i < |groups| => Meaning(groups[i]))
  }

  // ---------------------------------------------------------------- reading inverts printing

  lemma {:induction false} NameLengthOf(name: string, rest: string)
    requires forall i :: 0 <= i < |name| ==> IsNameChar(name[i])
    requires rest != "" ==> !IsNameChar(rest[0])
    ensures NameLength(name + rest) == |name|
  {
    if name == "" {
      assert name + rest == rest;
    } else {
      assert (name + rest)[1..] == name[1..] + rest;
      NameLengthOf(name[1..], rest);
    }
  }

  lemma {:induction false} ArchRunOf(arch: string, rest: string)
    requires forall i :: 0 <= i < |arch| ==> IsArchChar(arch[i])
    requires rest != "" ==> !IsArchChar(rest[0])
    ensures ArchRun(arch + rest) == |arch|
  {
    if arch == "" {
      assert arch + rest == rest;
    } else {
      assert (arch + rest)[1..] == arch[1..] + rest;
      ArchRunOf(arch[1..], rest);
    }
  }

  lemma RelationOf(c: Constraint)
    requires IsOperator(c.operator) && ValidVersion(c.version)
    ensures ReadRelation(c.operator + Gap(c.version) + c.version) == (c.operator, c.version)
  {
    hide Strip, Tight;
    StripSpaced(Gap(c.version), c.version, "");
    assert Gap(c.version) + c.version + "" == Gap(c.version) + c.version;
    StripTight(c.version);
    var body := c.operator + Gap(c.version) + c.version;
    assert body[|c.operator|..] == Gap(c.version) + c.version;
    assert body[|c.operator|] in " <>" && body[..|c.operator|] == c.operator;
    assert body[0] == c.operator[0] && (|c.operator| == 2 ==> body[1] == c.operator[1] == '=');
  }

  lemma ReadClosed(body: string)
    requires Lacks(body, ')')
    ensures ReadParenthesis(" (" + body + ")") == ReadRelation(body)
  {
    hide ReadRelation;
    var tail := "(" + body + ")";
    assert (" " + tail)[1..] == tail && " (" + body + ")" == " " + tail;
    assert StripLeft(" " + tail) == StripLeft(tail) == tail;
    assert tail[1..] == body + [')'] + "";
    PartitionAt(body, "", ')');
  }

  lemma ParenthesisOf(c: Constraint)
    requires IsOperator(c.operator) && ValidVersion(c.version)
    ensures ReadParenthesis(PrintParenthesis(c)) == (c.operator, c.version)
  {
    hide ReadRelation, ReadParenthesis;
    RelationOf(c);
    ReadClosed(c.operator + Gap(c.version) + c.version);
  }

  lemma EndOf(c: Constraint)
    requires c.operator == "" ==> c.version == ""
    requires c.operator != "" ==> IsOperator(c.operator) && ValidVersion(c.version)
    ensures ReadParenthesis(PrintParenthesis(c)) == (c.operator, c.version)
    ensures var end := PrintParenthesis(c);
      Lacks(end, ',') && Lacks(end, '|') && (end != "" ==> end[0] == ' ' && end[|end| - 1] == ')')
  {
    hide ReadRelation, ReadParenthesis, Strip;
    if c.operator != "" {
      ParenthesisOf(c);
    } else {
      EmptyEnd();
    }
  }

  lemma EmptyEnd()
    ensures ReadParenthesis("") == ("", "")
  {
  }

  lemma ArchSkipped(arch: string, end: string)
    requires forall i :: 0 <= i < |arch| ==> IsArchChar(arch[i])
    requires end != "" ==> end[0] == ' '
    ensures var rest := (if arch == "" then "" else ":" + arch) + end;
      ArchLength(rest) <= |rest| && rest[ArchLength(rest)..] == end
  {
    if arch == "" {
      assert "" + end == end;
    } else {
      var rest := ":" + arch + end;
      assert rest[1..] == arch + end;
      ArchRunOf(arch, end);
      assert rest[1 + |arch|..] == end;
    }
  }

  lemma RestChars(w: Written)
    requires ValidWritten(w)
    ensures var rest := PrintRest(w);
      Lacks(rest, ',') && Lacks(rest, '|')
      && (rest != "" ==> !IsNameChar(rest[0]) && !IsSpace(rest[|rest| - 1]))
  {
    hide ReadParenthesis, PrintParenthesis, IsOperator;
    var end := PrintParenthesis(w.constraint);
    EndOf(w.constraint);
    assert PrintRest(w) == (if w.arch == "" then "" else ":" + w.arch) + end;
  }

  lemma ReadName(c: Constraint, rest: string)
    requires c.name != "" && forall i :: 0 <= i < |c.name| ==> IsNameChar(c.name[i])
    requires rest != "" ==> !IsNameChar(rest[0])
    requires ReadParenthesis(rest[ArchLength(rest)..]) == (c.operator, c.version)
    ensures ParseAlternative(c.name + rest) == c
  {
    hide ReadParenthesis, ArchLength, IsNameChar;
    NameLengthOf(c.name, rest);
    assert (c.name + rest)[|c.name|..] == rest && (c.name + rest)[..|c.name|] == c.name;
  }

  lemma AlternativeOf(w: Written)
    requires ValidWritten(w)
    ensures ParseAlternative(PrintAlternative(w)) == w.constraint
  {
    hide ReadParenthesis, PrintParenthesis, IsOperator, ArchLength, ParseAlternative, IsNameChar, IsArchChar, IsSpace,
         ValidVersion, Lacks;
    EndOf(w.constraint);
    ArchSkipped(w.arch, PrintParenthesis(w.constraint));
    RestChars(w);
    assert PrintRest(w) == (if w.arch == "" then "" else ":" + w.arch) + PrintParenthesis(w.constraint);
    ReadName(w.constraint, PrintRest(w));
  }

  lemma AlternativeChars(w: Written)
    requires ValidWritten(w)
    ensures var s := PrintAlternative(w); s != "" && Tight(s) && Lacks(s, ',') && Lacks(s, '|')
  {
    hide PrintParenthesis, IsOperator, PrintRest;
    RestChars(w);
    var (name, rest) := (w.constraint.name, PrintRest(w));
    assert forall i :: 0 <= i < |name| ==> IsNameChar(name[i]);
    assert !IsSpace(name[0]) && !IsSpace(name[|name| - 1]);
  }

  lemma {:induction false} GroupOf(group: seq<Written>)
    requires forall i :: 0 <= i < |group| ==> ValidWritten(group[i])
    ensures ParseAll(PrintAll(group)) == Meaning(group)
    ensures |PrintAll(group)| == |group|
    ensures forall i :: 0 <= i < |group| ==>
              var s := PrintAll(group)[i]; s != "" && Tight(s) && Lacks(s, ',') && Lacks(s, '|')
  {
    hide ParseAlternative, PrintAlternative, ValidWritten, Tight, Lacks;
    if group != [] {
      AlternativeOf(group[0]);
      AlternativeChars(group[0]);
      GroupOf(group[1..]);
    }
  }

  lemma {:induction false} JoinedProperties(parts: seq<string>)
    requires parts != []
    requires forall i :: 0 <= i < |parts| ==> parts[i] != "" && Tight(parts[i]) && Lacks(parts[i], ',')
    ensures var s := JoinWith(parts, " | "); s != "" && Tight(s) && Lacks(s, ',')
  {
    if |parts| > 1 { JoinedProperties(parts[1..]); }
  }

  lemma {:induction false} GroupsOf(groups: seq<seq<Written>>)
    requires forall i :: 0 <= i < |groups| ==> groups[i] != []
    requires forall i, j :: 0 <= i < |groups| && 0 <= j < |groups[i]| ==> ValidWritten(groups[i][j])
    ensures ParseGroups(PrintGroups(groups)) == Meanings(groups)
    ensures |PrintGroups(groups)| == |groups|
    ensures forall i :: 0 <= i < |groups| ==>
              var s := PrintGroups(groups)[i]; s != "" && Tight(s) && Lacks(s, ',')
  {
    hide ParseAll, PrintAll, Trim, SplitOn, ValidWritten, Tight, Lacks, JoinWith, Meaning;
    if groups != [] {
      var parts := PrintAll(groups[0]);
      GroupOf(groups[0]);
      JoinedProperties(parts);
      TrimJoined("", parts, " ", '|');
      TrimTrimmed(parts);
      assert " " + ['|'] + " " == " | ";
      assert "" + PrintGroup(groups[0]) == PrintGroup(groups[0]);
      GroupsOf(groups[1..]);
      assert Meanings(groups) == [Meaning(groups[0])] + Meanings(groups[1..]);
    }
  }

  /** Reading a printed field gives back exactly the groups that were printed. */
  lemma ParseInvertsPrint(groups: seq<seq<Written>>)
    requires forall i :: 0 <= i < |groups| ==> groups[i] != []
    requires forall i, j :: 0 <= i < |groups| && 0 <= j < |groups[i]| ==> ValidWritten(groups[i][j])
    ensures Groups(PrintField(groups)) == Meanings(groups)
  {
    hide ParseGroups, PrintGroups, Trim, SplitOn, ValidWritten, Tight, Lacks, JoinWith, Meanings;
    var parts := PrintGroups(groups);
    GroupsOf(groups);
    TrimJoined("", parts, "", ',');
    TrimTrimmed(parts);
    assert "" + [','] + " " == ", ";
    assert "" + PrintField(groups) == PrintField(groups);
  }

  lemma {:induction false} ParseGroupsConcat(a: seq<string>, b: seq<string>)
    ensures ParseGroups(a + b) == ParseGroups(a) + ParseGroups(b)
  {
    hide ParseAll, Trim, SplitOn;
    if a == [] {
      assert a + b == b;
    } else {
      assert (a + b)[1..] == a[1..] + b;
      ParseGroupsConcat(a[1..], b);
    }
  }
}

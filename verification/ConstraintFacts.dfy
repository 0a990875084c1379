/** What a version constraint accepts (buster/osbuild/resolver.py, `Constraint.satisfied_by`). */
module ConstraintFacts {
  import opened Text
  import opened Depends
  import Versions
  import VersionPolicy

  /** Two constraints of one version that are each other's negation. */
  predicate Opposite(a: string, b: string) {
    (a == "<" && b == ">=") || (a == ">" && b == "<=") || (a == "=" && b == "!=")
  }

  /** Each version, however written, is accepted by exactly one of two opposite constraints. */
  lemma OppositesExclude(name: string, a: string, b: string, version: string, candidate: string)
    requires Opposite(a, b)
    ensures Constraint(name, a, version).SatisfiedBy(candidate) <==> !Constraint(name, b, version).SatisfiedBy(candidate)
  {
    hide Versions.Vercmp;
  }

  /** An upper bound that accepts a version accepts every version at most as late, on all strings. */
  lemma UpperBoundsInherit(c: Constraint, candidate: string, earlier: string)
    requires c.operator == "<" || c.operator == "<="
    requires c.SatisfiedBy(candidate) && Versions.Vercmp(earlier, candidate) <= 0
    ensures c.SatisfiedBy(earlier)
  {
    hide Versions.Vercmp;
    Versions.VercmpTransitive(earlier, candidate, c.version);
  }

  /** A lower bound that accepts a version accepts every later one, once adjacent epochs agree. */
  lemma LowerBoundsInherit(c: Constraint, candidate: string, later: string)
    requires c.operator == ">" || c.operator == ">="
    requires Versions.EpochsAgree(later, candidate) && Versions.EpochsAgree(candidate, c.version)
    requires c.SatisfiedBy(candidate) && Versions.Vercmp(later, candidate) >= 0
    ensures c.SatisfiedBy(later)
  {
    hide Versions.Vercmp, Versions.EpochsAgree;
    Versions.VercmpTransitiveDown(later, candidate, c.version);
    Versions.VercmpAntisymmetric(later, candidate);
    Versions.VercmpAntisymmetric(candidate, c.version);
    Versions.VercmpTransitive(c.version, candidate, later);
    Versions.VercmpZero(later, c.version);
    Versions.VercmpZero(c.version, later);
  }

  /** What an operator of the code's own set says of the order of candidate and bound. */
  predicate Related(operator: string, order: int) {
    (operator == "<" && order < 0) || (operator == "<=" && order <= 0) || (operator == "=" && order == 0)
    || (operator == ">=" && order >= 0) || (operator == ">" && order > 0) || (operator == "!=" && order != 0)
  }

  /** On numeric versions an operator of that set accepts by the manual's order, unless one of the two versions leaves
      out the revision that the other writes as 0. */
  lemma OperatorsFollowOrder(name: string, operator: string, v: VersionPolicy.Numeric, w: VersionPolicy.Numeric)
    requires IsOperator(operator) && VersionPolicy.WellFormed(v) && VersionPolicy.WellFormed(w)
    requires !(VersionPolicy.EpochNumber(v) == VersionPolicy.EpochNumber(w) && v.upstream == w.upstream
               && VersionPolicy.ZeroRevisionClash(v, w))
    ensures var (a, b) := (VersionPolicy.Print(v), VersionPolicy.Print(w));
      Constraint(name, operator, b).SatisfiedBy(a) <==> Related(operator, VersionPolicy.PolicyCompare(a, b))
  {
    hide Versions.Vercmp, VersionPolicy.PolicyCompare, VersionPolicy.Print, VersionPolicy.WellFormed;
    VersionPolicy.VercmpMeetsPolicy(v, w);
  }

  /** `<` and `>` are strict: neither accepts its own version, which the manual's former meaning of them does. */
  lemma BracketsAreStrict(name: string, version: string)
    ensures !Constraint(name, "<", version).SatisfiedBy(version) && !Constraint(name, ">", version).SatisfiedBy(version)
  {
    hide Versions.Vercmp;
    Versions.VercmpZero(version, version);
  }

  // ---------------------------------------------------------------- the manual's strict operators

  /** What `(<< v)` and `(>> v)` are read as: the single bracket, and a version with the other one in front. */
  function Strict(name: string, bracket: string, v: string): Constraint { Constraint(name, bracket, bracket + " " + v) }

  lemma StrictRead(name: string, bracket: string, v: string)
    requires name != "" && forall i :: 0 <= i < |name| ==> IsNameChar(name[i])
    requires (bracket == "<" || bracket == ">") && ValidVersion(v)
    ensures ParseAlternative(name + " (" + bracket + bracket + " " + v + ")") == Strict(name, bracket, v)
  {
    hide ParseAlternative, IsNameChar, IsSpace;
    var w := Written(Strict(name, bracket, v), "");
    assert w.constraint.version[|w.constraint.version| - 1] == v[|v| - 1];
    assert !IsSpace(bracket[0]) by { BracketVisible(); }
    assert ValidWritten(w);
    AlternativeOf(w);
    assert PrintAlternative(w) == name + " (" + bracket + bracket + " " + v + ")";
  }

  lemma BracketVisible()
    ensures !IsSpace('<') && !IsSpace('>')
  {
  }

  /** An epoch that can be read. */
  predicate HasEpoch(v: string) { Versions.SplitVersion(v).1 != v }

  lemma {:induction false} ReadNatStart(t: string)
    requires t != "" && !IsDigit(t[0])
    ensures ReadNat(t).None?
  {
    if |t| > 1 {
      var head := t[..|t| - 1];
      if head[|head| - 1] == '_' {
        if |head| > 1 { ReadNatStart(head[..|head| - 1]); }
      } else {
        ReadNatStart(head);
      }
    }
  }

  lemma BracketNoNumber(bracket: string, s: string)
    requires bracket == "<" || bracket == ">"
    ensures ReadInt(bracket + " " + s).None?
  {
    hide ReadNat, StripRight, IsSpace;
    var text := bracket + " " + s;
    BracketVisible();
    assert StripLeft(text) == text;
    StripRightOf(text, ' ');
    StripRightStart(text);
    ReadNatStart(Strip(text));
  }

  lemma {:induction false} StripRightStart(s: string)
    requires s != "" && !IsSpace(s[0])
    ensures StripRight(s) != "" && StripRight(s)[0] == s[0]
  {
    hide IsSpace;
    if IsSpace(s[|s| - 1]) { StripRightStart(s[..|s| - 1]); }
  }

  lemma PartitionBehind(front: string, s: string, sep: char)
    requires Lacks(front, sep)
    ensures var (before, found, after) := Partition(s, sep);
      Partition(front + s, sep) == (front + before, found, after)
  {
    hide Partition;
    var (before, found, after) := Partition(s, sep);
    if found {
      assert front + s == (front + before) + [sep] + after;
      PartitionAt(front + before, after, sep);
    } else {
      PartitionNone(front + s, sep);
    }
  }

  lemma BracketPieces(bracket: string, s: string)
    requires bracket == "<" || bracket == ">"
    ensures Versions.Pieces(bracket + " " + s) == Versions.Pieces(s)
  {
    var text := bracket + " " + s;
    assert text[1..] == " " + s && text[1..][1..] == s;
    assert Versions.Classify('<') == Versions.Classify('>') == Versions.Classify(' ') == Versions.Skipped;
  }

  /** Behind a bracket no epoch is read: its text joins the upstream part. */
  lemma BracketParts(bracket: string, v: string)
    requires bracket == "<" || bracket == ">"
    ensures var b := bracket + " " + v;
      && Versions.EpochText(b) == "0" && Versions.EpochValue(b) == 0
      && Versions.UpstreamTokens(b) == Versions.Pieces(Partition(v, '-').0)
      && Versions.RevisionTokens(b) == Versions.Pieces(Partition(v, '-').2)
  {
    hide Partition, Versions.Pieces, ReadInt;
    var front := bracket + " ";
    PartitionBehind(front, v, ':');
    PartitionBehind(front, v, '-');
    BracketNoNumber(bracket, Partition(v, ':').0);
    BracketPieces(bracket, Partition(v, '-').0);
    Zero();
  }

  lemma Zero()
    ensures ReadInt("0") == Some(0)
  {
    ReadIntOfDigits(0);
    assert Digits(0) == "0";
  }

  lemma NoEpochParts(v: string)
    requires !HasEpoch(v)
    ensures Versions.EpochText(v) == "0"
    ensures Versions.UpstreamTokens(v) == Versions.Pieces(Partition(v, '-').0)
    ensures Versions.RevisionTokens(v) == Versions.Pieces(Partition(v, '-').2)
  {
    hide Versions.Pieces, ReadInt;
  }

  /** Without an epoch the bracket changes no comparison. */
  lemma SameOrder(bracket: string, v: string, candidate: string)
    requires (bracket == "<" || bracket == ">") && !HasEpoch(v)
    ensures Versions.Vercmp(candidate, bracket + " " + v) == Versions.Vercmp(candidate, v)
  {
    hide Versions.EpochText, Versions.EpochValue, Versions.UpstreamTokens, Versions.RevisionTokens, Versions.Pieces,
         Versions.CompareBodies, HasEpoch;
    BracketParts(bracket, v);
    NoEpochParts(v);
    EpochZero(v);
  }

  lemma EpochZero(v: string)
    ensures Versions.EpochText(v) == "0" ==> Versions.EpochValue(v) == 0
  {
    Zero();
  }

  /** With one, a version differs from itself behind a bracket. */
  lemma DiffersFromItself(bracket: string, v: string)
    requires (bracket == "<" || bracket == ">") && HasEpoch(v)
    ensures Versions.Vercmp(v, bracket + " " + v) != 0
  {
    hide Versions.Vercmp, Versions.Pieces, Partition, ReadInt, Versions.RevisionTokens;
    BracketParts(bracket, v);
    Versions.VercmpZero(v, bracket + " " + v);
    if Versions.EpochText(v) == "0" {
      var rest := Partition(v, ':').2;
      assert v == "0:" + rest;
      PartitionBehind("0:", rest, '-');
      ZeroInFront(Partition(rest, '-').0);
    }
  }

  lemma ZeroInFront(up: string)
    ensures Versions.Pieces("0:" + up) == ["0"] + Versions.Pieces(up)
  {
    hide Versions.Pieces;
    var tail := ":" + up;
    assert "0:" + up == "0" + tail;
    Versions.PiecesOfNumber("0", tail);
    ColonSkipped(up);
  }

  lemma ColonSkipped(s: string)
    ensures Versions.Pieces(":" + s) == Versions.Pieces(s)
  {
    assert (":" + s)[1..] == s && Versions.Classify(':') == Versions.Skipped;
  }

  lemma SameForBoth(v: string, candidate: string)
    ensures Versions.Vercmp(candidate, "<" + " " + v) == Versions.Vercmp(candidate, ">" + " " + v)
  {
    hide Versions.EpochText, Versions.EpochValue, Versions.UpstreamTokens, Versions.RevisionTokens, Versions.Pieces,
         Versions.CompareBodies;
    BracketParts("<", v);
    BracketParts(">", v);
  }

  /** `(<< v)` and `(>> v)` accept the strictly earlier and the strictly later versions exactly when `v` has no epoch. */
  lemma StrictExactly(name: string, v: string)
    ensures (forall c :: (Strict(name, "<", v).SatisfiedBy(c) <==> Versions.Vercmp(c, v) < 0)
                      && (Strict(name, ">", v).SatisfiedBy(c) <==> Versions.Vercmp(c, v) > 0)) <==> !HasEpoch(v)
  {
    hide Versions.Vercmp, HasEpoch;
    if HasEpoch(v) {
      EpochAcceptsItself(name, v);
      Versions.VercmpZero(v, v);
    } else {
      forall c
        ensures Strict(name, "<", v).SatisfiedBy(c) <==> Versions.Vercmp(c, v) < 0
        ensures Strict(name, ">", v).SatisfiedBy(c) <==> Versions.Vercmp(c, v) > 0
      {
        SameOrder("<", v, c);
        SameOrder(">", v, c);
      }
    }
  }

  /** With an epoch, one of the two accepts `v` itself. */
  lemma EpochAcceptsItself(name: string, v: string)
    requires HasEpoch(v)
    ensures Strict(name, "<", v).SatisfiedBy(v) <==> !Strict(name, ">", v).SatisfiedBy(v)
  {
    hide Versions.Vercmp, HasEpoch;
    DiffersFromItself("<", v);
    SameForBoth(v, v);
  }

  // ---------------------------------------------------------------- the manual's relations

  datatype Relation = StrictlyEarlier | EarlierOrEqual | Exactly | LaterOrEqual | StrictlyLater

  function Symbol(r: Relation): string {
    match r
    case StrictlyEarlier => "<<"
    case EarlierOrEqual => "<="
    case Exactly => "="
    case LaterOrEqual => ">="
    case StrictlyLater => ">>"
  }

  predicate Demands(r: Relation, order: int) {
    match r
    case StrictlyEarlier => order < 0
    case EarlierOrEqual => order <= 0
    case Exactly => order == 0
    case LaterOrEqual => order >= 0
    case StrictlyLater => order > 0
  }

  predicate VersionChar(c: char) { IsDigit(c) || c in ".:-" }

  lemma {:induction false} DotTailChars(ns: seq<nat>)
    ensures forall i :: 0 <= i < |VersionPolicy.DotTail(ns)| ==> VersionChar(VersionPolicy.DotTail(ns)[i])
  {
    if ns != [] { DotTailChars(ns[1..]); }
  }

  lemma VersionCharPlain(c: char)
    ensures VersionChar(c) ==> !IsSpace(c) && c != ')' && c != ',' && c != '|'
  {
  }

  lemma PrintedBody(v: VersionPolicy.Numeric)
    requires VersionPolicy.WellFormed(v)
    ensures forall i :: 0 <= i < |VersionPolicy.PrintBody(v)| ==> VersionChar(VersionPolicy.PrintBody(v)[i])
  {
    DotTailChars(v.upstream[1..]);
    if v.revision.Some? { DotTailChars(v.revision.value[1..]); }
  }

  lemma PrintedChars(v: VersionPolicy.Numeric)
    requires VersionPolicy.WellFormed(v)
    ensures ValidVersion(VersionPolicy.Print(v)) && IsDigit(VersionPolicy.Print(v)[0])
    ensures HasEpoch(VersionPolicy.Print(v)) <==> v.epoch.Some?
  {
    hide IsSpace, VersionPolicy.PrintBody, Versions.SplitVersion, VersionPolicy.PolicyBody, VersionPolicy.PolicyEpoch;
    PrintedBody(v);
    var s := VersionPolicy.Print(v);
    assert forall i :: 0 <= i < |s| ==> VersionChar(s[i]);
    forall i | 0 <= i < |s| ensures !IsSpace(s[i]) && s[i] != ')' && s[i] != ',' && s[i] != '|' { VersionCharPlain(s[i]); }
    VersionPolicy.SplitPrinted(v);
    if v.epoch.Some? { assert |VersionPolicy.PrintBody(v)| < |s|; }
  }

  /** On numeric versions every relation of section 7.1 of the Debian Policy Manual, as written in a field, accepts
      what that manual's order demands, if the strict ones name no epoch and neither version leaves out a revision
      that the other writes as 0. */
  lemma RelationsMeetPolicy(name: string, r: Relation, v: VersionPolicy.Numeric, w: VersionPolicy.Numeric)
    requires name != "" && forall i :: 0 <= i < |name| ==> IsNameChar(name[i])
    requires VersionPolicy.WellFormed(v) && VersionPolicy.WellFormed(w)
    requires !(VersionPolicy.EpochNumber(v) == VersionPolicy.EpochNumber(w) && v.upstream == w.upstream
               && VersionPolicy.ZeroRevisionClash(v, w))
    requires r.StrictlyEarlier? || r.StrictlyLater? ==> w.epoch.None?
    ensures var (a, b) := (VersionPolicy.Print(v), VersionPolicy.Print(w));
      ParseAlternative(name + " (" + Symbol(r) + " " + b + ")").SatisfiedBy(a)
      <==> Demands(r, VersionPolicy.PolicyCompare(a, b))
  {
    hide ParseAlternative, Versions.Vercmp, VersionPolicy.PolicyCompare, VersionPolicy.Print, VersionPolicy.WellFormed,
         VersionPolicy.ZeroRevisionClash, IsNameChar, HasEpoch, ValidVersion;
    var b := VersionPolicy.Print(w);
    PrintedChars(w);
    RelationRead(name, r, b);
    VersionPolicy.VercmpMeetsPolicy(v, w);
    if r.StrictlyEarlier? {
      SameOrder("<", b, VersionPolicy.Print(v));
    } else if r.StrictlyLater? {
      SameOrder(">", b, VersionPolicy.Print(v));
    }
  }

  lemma RelationRead(name: string, r: Relation, v: string)
    requires name != "" && forall i :: 0 <= i < |name| ==> IsNameChar(name[i])
    requires ValidVersion(v) && IsDigit(v[0])
    ensures ParseAlternative(name + " (" + Symbol(r) + " " + v + ")") ==
              match r
              case StrictlyEarlier => Strict(name, "<", v)
              case StrictlyLater => Strict(name, ">", v)
              case _ => Constraint(name, Symbol(r), v)
  {
    hide ParseAlternative, IsNameChar, ValidVersion, Strict;
    match r
    case StrictlyEarlier =>
      StrictRead(name, "<", v);
      assert name + " (" + "<" + "<" + " " + v + ")" == name + " (" + "<<" + " " + v + ")";
    case StrictlyLater =>
      StrictRead(name, ">", v);
      assert name + " (" + ">" + ">" + " " + v + ")" == name + " (" + ">>" + " " + v + ")";
    case _ => PlainRead(name, Symbol(r), v);
  }

  lemma PlainRead(name: string, operator: string, v: string)
    requires name != "" && forall i :: 0 <= i < |name| ==> IsNameChar(name[i])
    requires IsOperator(operator) && ValidVersion(v) && IsDigit(v[0])
    ensures ParseAlternative(name + " (" + operator + " " + v + ")") == Constraint(name, operator, v)
  {
    hide ParseAlternative, IsNameChar, ValidVersion;
    var w := Written(Constraint(name, operator, v), "");
    AlternativeOf(w);
    assert PrintAlternative(w) == name + " (" + operator + " " + v + ")";
  }

  // ---------------------------------------------------------------- spacing and missing operators

  /** Without an operator every version is accepted, and so it is with one the code does not know. */
  lemma OtherwiseAccepted(c: Constraint, candidate: string)
    requires !IsOperator(c.operator)
    ensures c.SatisfiedBy(candidate)
  {
    hide Versions.Vercmp;
  }

  function Blank(n: nat): string { if n == 0 then "" else " " + Blank(n - 1) }

  lemma {:induction false} BlankLeft(n: nat, s: string)
    ensures StripLeft(Blank(n) + s) == StripLeft(s)
  {
    if n == 0 {
      assert Blank(0) + s == s;
    } else {
      assert (Blank(n) + s)[1..] == Blank(n - 1) + s && (Blank(n) + s)[0] == ' ' && IsSpace(' ');
      BlankLeft(n - 1, s);
    }
  }

  lemma BlankAround(n: nat, s: string)
    ensures Strip(Blank(n) + s) == Strip(s)
  {
    BlankLeft(n, s);
  }

  lemma {:induction false} BlankChars(n: nat)
    ensures |Blank(n)| == n && forall i :: 0 <= i < n ==> Blank(n)[i] == ' '
  {
    if n > 0 { BlankChars(n - 1); }
  }

  /** Blanks in front of the parenthesis and behind the operator do not matter, but one behind the parenthesis makes the
      relation unread, so that every version is accepted. */
  lemma SpacingExactly(name: string, before: nat, inside: nat, operator: string, behind: nat, v: string)
    requires name != "" && forall i :: 0 <= i < |name| ==> IsNameChar(name[i])
    requires IsOperator(operator) && ValidVersion(v) && v[0] !in "<>="
    ensures ParseAlternative(name + (Blank(before) + ("(" + ((Blank(inside) + (operator + (Blank(behind) + v))) + ")"))))
         == if inside == 0 then Constraint(name, operator, v) else Constraint(name, "", "")
  {
    hide ReadRelation, IsNameChar, Strip, ReadParenthesis, IsSpace, ArchLength, ParseAlternative;
    var body := Blank(inside) + (operator + (Blank(behind) + v));
    var tail := "(" + (body + ")");
    var rest := Blank(before) + tail;
    BlankChars(before);
    BlankChars(inside);
    BlankChars(behind);
    RelationSpaced(inside, operator, behind, v);
    ParenthesisSpaced(before, body);
    NoArch(rest);
    NotInNames();
    assert rest[0] == ' ' || rest[0] == '(';
    assert rest[0..] == rest;
    ReadName(if inside == 0 then Constraint(name, operator, v) else Constraint(name, "", ""), rest);
  }

  lemma NotInNames()
    ensures !IsNameChar(' ') && !IsNameChar('(')
  {
  }

  lemma NoArch(rest: string)
    requires rest != "" && rest[0] != ':'
    ensures ArchLength(rest) == 0
  {
  }

  lemma RelationSpaced(inside: nat, operator: string, behind: nat, v: string)
    requires IsOperator(operator) && ValidVersion(v) && v[0] !in "<>="
    ensures var body := Blank(inside) + (operator + (Blank(behind) + v));
      ReadRelation(body) == (if inside == 0 then (operator, v) else ("", "")) && Lacks(body, ')')
  {
    hide Strip, Tight, IsSpace, ReadRelation;
    BlankChars(inside);
    BlankChars(behind);
    var body := Blank(inside) + (operator + (Blank(behind) + v));
    if inside == 0 {
      assert body == operator + (Blank(behind) + v);
      BlankAround(behind, v);
      StripTight(v);
      assert (Blank(behind) + v)[0] == ' ' || (Blank(behind) + v)[0] == v[0];
      OperatorRead(operator, Blank(behind) + v);
    } else {
      BlankFirst(body);
    }
  }

  lemma BlankFirst(body: string)
    requires body != "" && body[0] == ' '
    ensures ReadRelation(body) == ("", "")
  {
  }

  lemma OperatorRead(operator: string, rest: string)
    requires IsOperator(operator) && rest != "" && rest[0] !in "<>="
    ensures ReadRelation(operator + rest) == (operator, Strip(rest))
  {
    hide Strip;
    assert (operator + rest)[|operator|..] == rest && (operator + rest)[..|operator|] == operator;
    assert (operator + rest)[|operator|] == rest[0] && (operator + rest)[0] == operator[0];
  }

  lemma ParenthesisSpaced(before: nat, body: string)
    requires Lacks(body, ')')
    ensures ReadParenthesis(Blank(before) + ("(" + (body + ")"))) == ReadRelation(body)
  {
    hide ReadRelation, Partition;
    var tail := "(" + (body + ")");
    BlankLeft(before, tail);
    assert StripLeft(tail) == tail by { BracketsVisible(tail); }
    assert tail[1..] == body + [')'] + "";
    PartitionAt(body, "", ')');
  }

  lemma BracketsVisible(tail: string)
    requires tail != "" && tail[0] == '('
    ensures StripLeft(tail) == tail
  {
  }

  /** Text that begins with no name is a name as it is. */
  lemma UnnamedKept(text: string)
    requires text != "" && !IsNameChar(text[0])
    ensures ParseAlternative(text) == Constraint(text, "", "")
  {
  }

  /** Without its closing parenthesis a relation is not read. */
  lemma UnclosedUnread(name: string, body: string)
    requires name != "" && forall i :: 0 <= i < |name| ==> IsNameChar(name[i])
    requires Lacks(body, ')')
    ensures ParseAlternative(name + ("(" + body)) == Constraint(name, "", "")
  {
    hide IsNameChar, ReadRelation, ParseAlternative, Partition;
    var rest := "(" + body;
    NotInNames();
    NoArch(rest);
    assert rest[0..] == rest && rest[1..] == body;
    BracketsVisible(rest);
    PartitionNone(body, ')');
    ReadName(Constraint(name, "", ""), rest);
  }

  /** A chunk of separators only is a group without alternatives, which nothing meets. */
  lemma SeparatorsGroup()
    ensures Groups("|") == [[]] && Groups(",") == [] && Groups("") == []
  {
    assert SplitOn("", ',') == [""] && SplitOn("", '|') == [""] && Strip("") == "";
    assert Lacks("|", ',');
    SplitWhole("|", ',');
    assert "|"[1..] == "" && ","[1..] == "";
    assert SplitOn("|", '|') == ["", ""] && SplitOn(",", ',') == ["", ""];
    EmptyParts();
    assert !IsSpace('|');
    StripTight("|");
    assert Trim(["|"]) == ["|"] by { assert ["|"][1..] == []; assert Trim([]) == []; }
    assert ParseGroups(["|"]) == [ParseAll([])] + ParseGroups([]) by { assert ["|"][1..] == []; }
  }

  lemma EmptyParts()
    ensures Trim([""]) == [] && Trim(["", ""]) == []
  {
    assert Strip("") == "" && [""][1..] == [] && ["", ""][1..] == [""];
    assert Trim([]) == [];
    assert Trim([""]) == [];
  }

  /** What a package name may be written with, and what an architecture. */
  lemma NameCharsAre(c: char)
    ensures IsNameChar(c) <==> 'a' <= c <= 'z' || 'A' <= c <= 'Z' || '0' <= c <= '9' || c == '+' || c == '.' || c == '_' || c == '-'
    ensures IsArchChar(c) <==> 'a' <= c <= 'z' || 'A' <= c <= 'Z' || '0' <= c <= '9' || c == '_' || c == '-'
  {
  }
}

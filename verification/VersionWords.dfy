/** How `vercmp` orders words and marks behind numbers (buster/osbuild/resolver.py), told of version texts. */
module VersionWords {
  import opened Text
  import opened Versions
  import opened VersionPolicy

  // ---------------------------------------------------------------- tokens behind numbers

  lemma {:induction false} PiecesBehindTail(ns: seq<nat>, s: string)
    requires s != "" ==> !IsDigit(s[0])
    ensures Pieces(DotTail(ns) + s) == DotTokens(ns) + Pieces(s)
  {
    if ns == [] {
      assert DotTail(ns) + s == s && DotTokens(ns) + Pieces(s) == Pieces(s);
    } else {
      hide Digits, Pieces, Lacks;
      var rest := DotTail(ns[1..]) + s;
      PiecesBehindTail(ns[1..], s);
      TailText(ns, s);
      NotDigitFirst(ns[1..], s);
      PiecesOfNumber(Digits(ns[0]), rest);
      MarkPiece('.', Digits(ns[0]) + rest);
      Rebracket(".", Digits(ns[0]), DotTokens(ns[1..]), Pieces(s));
    }
  }

  lemma TailText(ns: seq<nat>, s: string)
    requires ns != []
    ensures DotTail(ns) + s == ['.'] + (Digits(ns[0]) + (DotTail(ns[1..]) + s))
  {
    hide Digits;
  }

  lemma Rebracket(a: string, b: string, c: seq<string>, d: seq<string>)
    ensures ([a] + ([b] + c)) + d == [a] + ([b] + (c + d))
  {
  }

  lemma NotDigitFirst(ns: seq<nat>, s: string)
    requires s != "" ==> !IsDigit(s[0])
    ensures DotTail(ns) + s != "" ==> !IsDigit((DotTail(ns) + s)[0])
  {
    hide Digits;
  }

  lemma MarkPiece(x: char, rest: string)
    requires x in ".+~-"
    ensures Pieces([x] + rest) == [[x]] + Pieces(rest)
  {
    assert ([x] + rest)[1..] == rest && Classify(x) == Mark;
  }

  lemma PiecesBehind(ns: seq<nat>, s: string)
    requires ns != [] && (s != "" ==> !IsDigit(s[0]))
    ensures Pieces(Dotted(ns) + s) == [Digits(ns[0])] + DotTokens(ns[1..]) + Pieces(s)
  {
    hide Digits, DotTail, Pieces;
    assert Dotted(ns) + s == Digits(ns[0]) + (DotTail(ns[1..]) + s);
    NotDigitFirst(ns[1..], s);
    PiecesOfNumber(Digits(ns[0]), DotTail(ns[1..]) + s);
    PiecesBehindTail(ns[1..], s);
  }

  lemma {:induction false} CommonTokens(p: seq<string>, a: seq<string>, b: seq<string>)
    ensures CompareTokens(p + a, p + b) == CompareTokens(a, b)
  {
    if p == [] {
      assert p + a == a && p + b == b;
    } else {
      ComparePieceLaws(p[0], p[0]);
      assert (p + a)[1..] == p[1..] + a && (p + b)[1..] == p[1..] + b;
      CommonTokens(p[1..], a, b);
    }
  }

  /** What a version may go on with behind its numbers. */
  predicate Suffix(s: string) { (s != "" ==> !IsDigit(s[0])) && Lacks(s, ':') }

  function RevisionEnd(r: Option<string>): string { if r.Some? then "-" + r.value else "" }

  /** A version text: an epoch or none, dotted numbers, a suffix, and any revision. */
  function Worded(epoch: Option<nat>, ns: seq<nat>, s: string, r: Option<string>): string
    requires ns != []
  {
    (if epoch.Some? then Digits(epoch.value) + ":" else "") + (Dotted(ns) + s + RevisionEnd(r))
  }

  lemma WordedParts(epoch: Option<nat>, ns: seq<nat>, s: string, r: Option<string>)
    requires ns != [] && Suffix(s) && Lacks(s, '-') && (r.Some? ==> Lacks(r.value, ':'))
    ensures var v := Worded(epoch, ns, s, r);
      && EpochText(v) == Digits(if epoch.Some? then epoch.value else 0)
      && UpstreamTokens(v) == [Digits(ns[0])] + DotTokens(ns[1..]) + Pieces(s)
      && RevisionTokens(v) == if r.Some? then Pieces(r.value) else []
  {
    hide Pieces, ReadInt, Digits, Partition, DotTail;
    var body := Dotted(ns) + s + RevisionEnd(r);
    SplitWorded(epoch, body);
    assert Lacks(Dotted(ns) + s, '-');
    if r.Some? {
      assert body == (Dotted(ns) + s) + ['-'] + r.value;
      PartitionAt(Dotted(ns) + s, r.value, '-');
    } else {
      assert body == Dotted(ns) + s;
      PartitionNone(body, '-');
      NoPieces();
    }
    PiecesBehind(ns, s);
  }

  lemma NoPieces()
    ensures Pieces("") == []
  {
  }

  lemma SplitWorded(epoch: Option<nat>, body: string)
    requires Lacks(body, ':')
    ensures SplitVersion((if epoch.Some? then Digits(epoch.value) + ":" else "") + body)
         == (Digits(if epoch.Some? then epoch.value else 0), body)
  {
    if epoch.Some? {
      ReadIntOfDigits(epoch.value);
      assert Digits(epoch.value) + ":" + body == Digits(epoch.value) + [':'] + body;
      PartitionAt(Digits(epoch.value), body, ':');
    } else {
      assert "" + body == body;
      PartitionNone(body, ':');
      assert Digits(0) == "0";
    }
  }

  /** Behind the same numbers the suffixes decide, whatever revisions follow; with the same suffix the revisions do. */
  lemma SuffixesDecide(epoch: Option<nat>, ns: seq<nat>, s: string, r: Option<string>, t: string, q: Option<string>)
    requires ns != [] && Suffix(s) && Suffix(t) && Lacks(s, '-') && Lacks(t, '-')
    requires (r.Some? ==> Lacks(r.value, ':')) && (q.Some? ==> Lacks(q.value, ':'))
    ensures Vercmp(Worded(epoch, ns, s, r), Worded(epoch, ns, t, q)) ==
              if CompareTokens(Pieces(s), Pieces(t)) != 0 then CompareTokens(Pieces(s), Pieces(t))
              else CompareTokens(if r.Some? then Pieces(r.value) else [], if q.Some? then Pieces(q.value) else [])
  {
    hide Pieces, Digits, Worded, Suffix, EpochText, UpstreamTokens, RevisionTokens, EpochValue, CompareTokens;
    WordedParts(epoch, ns, s, r);
    WordedParts(epoch, ns, t, q);
    CommonTokens([Digits(ns[0])] + DotTokens(ns[1..]), Pieces(s), Pieces(t));
    VercmpByParts(Worded(epoch, ns, s, r), Worded(epoch, ns, t, q));
  }

  // ---------------------------------------------------------------- one token against another

  predicate IsWord(w: string) { w != "" && forall i :: 0 <= i < |w| ==> IsLetter(w[i]) }

  lemma {:induction false} RunOfWord(w: string, rest: string)
    requires (forall i :: 0 <= i < |w| ==> IsLetter(w[i])) && (rest != "" ==> !IsLetter(rest[0]))
    ensures RunLength(w + rest, Word) == |w|
  {
    if w == "" {
      assert w + rest == rest;
    } else {
      assert (w + rest)[1..] == w[1..] + rest && (w + rest)[0] == w[0];
      RunOfWord(w[1..], rest);
    }
  }

  lemma WordPiece(w: string, rest: string)
    requires IsWord(w) && (rest != "" ==> !IsLetter(rest[0]))
    ensures Pieces(w + rest) == [w] + Pieces(rest)
  {
    RunOfWord(w, rest);
    assert (w + rest)[..|w|] == w && (w + rest)[|w|..] == rest;
  }

  lemma WordPlain(w: string)
    requires IsWord(w)
    ensures Suffix(w) && Lacks(w, '-') && Pieces(w) == [w] && !AllDigits(w)
  {
    WordPiece(w, "");
    NoPieces();
    assert w + "" == w && [w] + [] == [w];
  }

  lemma OneToken(a: string, b: string)
    ensures CompareTokens([a], [b]) == ComparePiece(a, b)
  {
    assert [a][1..] == [] && [b][1..] == [];
  }

  /** Behind the same numbers two words compare as text, whatever revisions follow: 1.1.1n is earlier than 1.1.1w. */
  lemma WordsByText(epoch: Option<nat>, ns: seq<nat>, s: string, r: Option<string>, t: string, q: Option<string>)
    requires ns != [] && IsWord(s) && IsWord(t) && s != t
    requires (r.Some? ==> Lacks(r.value, ':')) && (q.Some? ==> Lacks(q.value, ':'))
    ensures Vercmp(Worded(epoch, ns, s, r), Worded(epoch, ns, t, q)) == CompareText(s, t)
  {
    hide Pieces, Worded, Vercmp, CompareText;
    WordPlain(s);
    WordPlain(t);
    OneToken(s, t);
    CompareTextLaws(s, t);
    SuffixesDecide(epoch, ns, s, r, t, q);
  }

  /** Nothing is earlier than any suffix that has a token. */
  lemma NothingFirst(epoch: Option<nat>, ns: seq<nat>, s: string, r: Option<string>, q: Option<string>)
    requires ns != [] && Suffix(s) && Lacks(s, '-') && Pieces(s) != []
    requires (r.Some? ==> Lacks(r.value, ':')) && (q.Some? ==> Lacks(q.value, ':'))
    ensures Vercmp(Worded(epoch, ns, "", r), Worded(epoch, ns, s, q)) == -1
  {
    hide Worded, Vercmp;
    NoPieces();
    SuffixesDecide(epoch, ns, "", r, s, q);
  }

  lemma MarkPlain(x: char, rest: string)
    requires x in "+.~" && Lacks(rest, ':') && Lacks(rest, '-')
    ensures Suffix([x] + rest) && Lacks([x] + rest, '-') && Pieces([x] + rest) == [[x]] + Pieces(rest)
  {
    MarkPiece(x, rest);
  }

  /** Behind a common mark a number is later than a word. */
  lemma NumberAfterWord(epoch: Option<nat>, ns: seq<nat>, x: char, n: nat, w: string, r: Option<string>, q: Option<string>)
    requires ns != [] && x in "+.~" && IsWord(w)
    requires (r.Some? ==> Lacks(r.value, ':')) && (q.Some? ==> Lacks(q.value, ':'))
    ensures Vercmp(Worded(epoch, ns, [x] + Digits(n), r), Worded(epoch, ns, [x] + w, q)) == 1
    ensures Vercmp(Worded(epoch, ns, [x] + w, q), Worded(epoch, ns, [x] + Digits(n), r)) == -1
  {
    hide Pieces, Worded, Vercmp, CompareText, Digits;
    WordPlain(w);
    var d := Digits(n);
    assert AllDigits(d);
    NumberPiece(d);
    MarkPlain(x, d);
    MarkPlain(x, w);
    CommonTokens([[x]], [d], [w]);
    CommonTokens([[x]], [w], [d]);
    OneToken(d, w);
    OneToken(w, d);
    SuffixesDecide(epoch, ns, [x] + d, r, [x] + w, q);
    SuffixesDecide(epoch, ns, [x] + w, q, [x] + d, r);
  }

  lemma NumberPiece(d: string)
    requires AllDigits(d)
    ensures Pieces(d) == [d] && Lacks(d, ':') && Lacks(d, '-')
  {
    PiecesOfNumber(d, "");
    NoPieces();
    assert d + "" == d && [d] + [] == [d];
  }

  /** A revision with a number is later than one with a word: 1.0-1 is later than 1.0-rc1. */
  lemma RevisionNumberAfterWord(epoch: Option<nat>, ns: seq<nat>, n: nat, w: string, a: string, b: string)
    requires ns != [] && IsWord(w) && Lacks(a, ':') && Lacks(b, ':')
    requires (a != "" ==> !IsDigit(a[0])) && (b != "" ==> !IsLetter(b[0]))
    ensures Vercmp(Worded(epoch, ns, "", Some(Digits(n) + a)), Worded(epoch, ns, "", Some(w + b))) == 1
    ensures Vercmp(Worded(epoch, ns, "", Some(w + b)), Worded(epoch, ns, "", Some(Digits(n) + a))) == -1
  {
    hide Pieces, Worded, Vercmp, CompareText, Digits;
    var d := Digits(n);
    assert AllDigits(d) && !AllDigits(w) by { WordPlain(w); }
    PiecesOfNumber(d, a);
    WordPiece(w, b);
    NoPieces();
    assert Lacks(d + a, ':') && Lacks(w + b, ':');
    FirstToken(d, Pieces(a), w, Pieces(b));
    FirstToken(w, Pieces(b), d, Pieces(a));
    SuffixesDecide(epoch, ns, "", Some(d + a), "", Some(w + b));
    SuffixesDecide(epoch, ns, "", Some(w + b), "", Some(d + a));
  }

  lemma FirstToken(a: string, x: seq<string>, b: string, y: seq<string>)
    requires ComparePiece(a, b) != 0
    ensures CompareTokens([a] + x, [b] + y) == ComparePiece(a, b)
  {
  }

  /** Two different marks compare as characters: a plus is earlier than a dot, and a dot than a tilde. */
  lemma MarksInOrder(epoch: Option<nat>, ns: seq<nat>, x: char, a: string, y: char, b: string)
    requires ns != [] && x in "+.~" && y in "+.~" && x < y
    requires Lacks(a, ':') && Lacks(a, '-') && Lacks(b, ':') && Lacks(b, '-')
    ensures Vercmp(Worded(epoch, ns, [x] + a, None), Worded(epoch, ns, [y] + b, None)) == -1
    ensures Vercmp(Worded(epoch, ns, [y] + b, None), Worded(epoch, ns, [x] + a, None)) == 1
  {
    hide Pieces, Worded, Vercmp, Digits;
    MarkPlain(x, a);
    MarkPlain(y, b);
    FirstToken([x], Pieces(a), [y], Pieces(b));
    FirstToken([y], Pieces(b), [x], Pieces(a));
    SuffixesDecide(epoch, ns, [x] + a, None, [y] + b, None);
    SuffixesDecide(epoch, ns, [y] + b, None, [x] + a, None);
  }

  /** So in a revision, where a hyphen comes between plus and dot. */
  lemma RevisionMarksInOrder(epoch: Option<nat>, ns: seq<nat>, x: char, a: string, y: char, b: string)
    requires ns != [] && x in "+-.~" && y in "+-.~" && x < y && Lacks(a, ':') && Lacks(b, ':')
    ensures Vercmp(Worded(epoch, ns, "", Some([x] + a)), Worded(epoch, ns, "", Some([y] + b))) == -1
    ensures Vercmp(Worded(epoch, ns, "", Some([y] + b)), Worded(epoch, ns, "", Some([x] + a))) == 1
  {
    hide Pieces, Worded, Vercmp, Digits;
    NoPieces();
    MarkPiece(x, a);
    MarkPiece(y, b);
    assert Lacks([x] + a, ':') && Lacks([y] + b, ':');
    FirstToken([x], Pieces(a), [y], Pieces(b));
    FirstToken([y], Pieces(b), [x], Pieces(a));
    SuffixesDecide(epoch, ns, "", Some([x] + a), "", Some([y] + b));
    SuffixesDecide(epoch, ns, "", Some([y] + b), "", Some([x] + a));
  }

  /** A word is later than a plus or a dot and earlier than a tilde. */
  lemma WordAgainstMark(epoch: Option<nat>, ns: seq<nat>, w: string, x: char, a: string)
    requires ns != [] && x in "+.~" && IsWord(w) && Lacks(a, ':') && Lacks(a, '-')
    ensures Vercmp(Worded(epoch, ns, w, None), Worded(epoch, ns, [x] + a, None)) == if x == '~' then -1 else 1
    ensures Vercmp(Worded(epoch, ns, [x] + a, None), Worded(epoch, ns, w, None)) == if x == '~' then 1 else -1
  {
    hide Pieces, Worded, Vercmp, Digits;
    WordPlain(w);
    MarkPlain(x, a);
    FirstToken(w, [], [x], Pieces(a));
    FirstToken([x], Pieces(a), w, []);
    assert [w] + [] == [w];
    SuffixesDecide(epoch, ns, w, None, [x] + a, None);
    SuffixesDecide(epoch, ns, [x] + a, None, w, None);
  }

  /** A leading number is later than a leading word or mark. */
  lemma NumberFirstIsLater(n: nat, w: string, a: string)
    requires IsWord(w) && Lacks(a, ':') && Lacks(a, '-') && (a != "" ==> !IsLetter(a[0]))
    ensures Vercmp(Digits(n), w + a) == 1 && Vercmp(w + a, Digits(n)) == -1
  {
    hide Pieces, Vercmp, Digits, CompareText;
    var d := Digits(n);
    assert AllDigits(d) && !AllDigits(w) by { WordPlain(w); }
    NumberPiece(d);
    WordPiece(w, a);
    assert Lacks(w + a, ':') && Lacks(w + a, '-');
    BareParts(d);
    BareParts(w + a);
    FirstToken(d, [], w, Pieces(a));
    FirstToken(w, Pieces(a), d, []);
    assert [d] + [] == [d];
    VercmpByParts(d, w + a);
    VercmpByParts(w + a, d);
  }

  lemma BareParts(s: string)
    requires Lacks(s, ':') && Lacks(s, '-')
    ensures EpochText(s) == "0" && UpstreamTokens(s) == Pieces(s) && RevisionTokens(s) == []
  {
    PartitionNone(s, ':');
    PartitionNone(s, '-');
    NoPieces();
  }

  /** The text before the first colon is the epoch exactly when it reads as an integer; otherwise the whole is the
      version, and its tokens those of all its text. */
  lemma EpochExactly(head: string, rest: string)
    requires Lacks(head, ':')
    ensures SplitVersion(head + ":" + rest) == if ReadInt(head).Some? then (head, rest) else ("0", head + ":" + rest)
  {
    hide ReadInt;
    assert head + ":" + rest == head + [':'] + rest;
    PartitionAt(head, rest, ':');
  }
}

/** The bounded attention queue (buster/intelligence/attention.py). Scores are in tenths. */
module Attention {
  import opened Text

  datatype Rhythm = Active | Background | Idle | Reflection | Maintenance | Constrained | Degraded | Recovery | Sleep

  datatype Note = Note(kind: string, level: string, message: string, score: int)

  // ---------------------------------------------------------------- scoring

  /** `split()`: maximal runs without whitespace, with a run begun in `word`. */
  function Words(s: string, word: string): seq<string>
    decreases |s|
  {
    var done := if word == "" then [] else [word];
    if s == "" then done
    else if IsSpace(s[0]) then done + Words(s[1..], "")
    else Words(s[1..], word + [s[0]])
  }

  predicate Contains(s: string, part: string) {
    part <= s || (s != "" && Contains(s[1..], part))
  }

  predicate Relevant(goals: seq<string>, message: string) {
    exists g :: 0 <= g < |goals| && exists w :: w in Words(Lower(goals[g]), "") && Contains(Lower(message), w)
  }

  function Weight(level: string): int {
    if level == "critical" then 40
    else if level == "warning" then 30
    else if level == "info" then 15
    else if level == "ok" then 5
    else if level == "debug" then 1
    else 5
  }

  predicate Routine(kind: string, level: string) {
    (kind == "host" || kind == "battery") && (level == "info" || level == "ok")
  }

  function Penalty(rhythm: Rhythm): int {
    match rhythm case Sleep => -20 case Constrained => -10 case _ => 0
  }

  function Score(seen: set<string>, kind: string, level: string, message: string, goals: seq<string>, rhythm: Rhythm): int {
    Weight(level)
    + (if message in seen then 0 else 20)
    + (if Relevant(goals, message) then 10 else 0)
    + (if Routine(kind, level) then -20 else 0)
    + Penalty(rhythm)
  }

  const THRESHOLD := 15

  /** A critical signal passes whatever the rhythm, the goals and what was seen before. */
  lemma CriticalPasses(seen: set<string>, kind: string, message: string, goals: seq<string>, rhythm: Rhythm)
    ensures Score(seen, kind, "critical", message, goals, rhythm) >= THRESHOLD + 5
  {
    hide Relevant;
  }

  /** Which signals pass, told by their qualities instead of their scores. */
  lemma AcceptedExactly(seen: set<string>, kind: string, level: string, message: string, goals: seq<string>, rhythm: Rhythm)
    ensures var (novel, relevant) := (message !in seen, Relevant(goals, message));
      var (open, tight) := (rhythm != Sleep && rhythm != Constrained, rhythm == Constrained);
      Score(seen, kind, level, message, goals, rhythm) >= THRESHOLD <==>
        if level == "critical" then true
        else if level == "warning" then novel || relevant || rhythm != Sleep
        else if level == "info" && kind != "host" && kind != "battery" then novel || open || (tight && relevant)
        else if level == "info" then novel && (open || (tight && relevant))
        else if level == "ok" && (kind == "host" || kind == "battery") then novel && relevant && open
        else if level == "debug" then novel && (open || (tight && relevant))
        else (novel && (open || tight || relevant)) || (relevant && open)
  {
    hide Relevant;
  }

  /** With all else equal a more urgent level scores higher, something new scores higher, so does something a goal is
      about, and a tighter rhythm scores lower; being new outweighs being about a goal. */
  lemma ScoresRank(seen: set<string>, kind: string, level: string, message: string, goals: seq<string>, rhythm: Rhythm)
    requires kind != "host" && kind != "battery"
    ensures var score := (l: string) => Score(seen, kind, l, message, goals, rhythm);
      score("critical") > score("warning") > score("info") > score("ok") > score("debug")
      && (level !in {"critical", "warning", "info", "debug"} ==> score(level) == score("ok"))
    ensures message !in seen ==>
              Score(seen, kind, level, message, goals, rhythm) > Score(seen + {message}, kind, level, message, goals, rhythm)
    ensures Relevant(goals, message) ==>
              Score(seen, kind, level, message, goals, rhythm) > Score(seen, kind, level, message, [], rhythm)
    ensures message !in seen ==>
              Score(seen, kind, level, message, [], rhythm) > Score(seen + {message}, kind, level, message, goals, rhythm)
    ensures Score(seen, kind, level, message, goals, Sleep) < Score(seen, kind, level, message, goals, Constrained)
              < Score(seen, kind, level, message, goals, Idle)
  {
    assert !Relevant([], message);
    hide Relevant;
  }

  /** Some word of the text, cut at whitespace, occurs in the other. */
  ghost predicate WordOccurs(text: string, s: string) {
    exists i, j, k :: WordAt(text, i, j) && OccursAt(s, text[i..j], k)
  }

  /** The scores in tenths of something new that no goal is about, in an idle rhythm. */
  lemma ScoresWorked(kind: string, message: string)
    requires kind != "host" && kind != "battery"
    ensures Score({}, kind, "critical", message, [], Idle) == 60 && Score({}, kind, "warning", message, [], Idle) == 50
    ensures Score({}, kind, "info", message, [], Idle) == 35 && Score({}, kind, "ok", message, [], Idle) == 25
    ensures Score({}, kind, "debug", message, [], Idle) == 21
    ensures Score({}, "host", "info", message, [], Idle) == 15 == Score({}, "battery", "info", message, [], Idle)
    ensures Score({message}, kind, "critical", message, [], Sleep) == 20
    ensures Score({message}, kind, "critical", message, [], Constrained) == 30
  {
    assert !Relevant([], message);
    hide Relevant;
  }

  /** A message is relevant exactly when some goal has a word that occurs in it, letters compared without case. */
  lemma RelevantExactly(goals: seq<string>, message: string)
    ensures Relevant(goals, message) <==> exists g :: 0 <= g < |goals| && WordOccurs(Lower(goals[g]), Lower(message))
  {
    hide Words, Contains, WordOccurs, Lower;
    forall g | 0 <= g < |goals| ensures HasWord(goals[g], message) <==> WordOccurs(Lower(goals[g]), Lower(message)) {
      GoalOccurs(goals[g], message);
    }
    assert Relevant(goals, message) <==> exists g :: 0 <= g < |goals| && HasWord(goals[g], message);
  }

  predicate HasWord(goal: string, message: string) {
    exists w :: w in Words(Lower(goal), "") && Contains(Lower(message), w)
  }

  lemma GoalOccurs(goal: string, message: string)
    ensures HasWord(goal, message) <==> WordOccurs(Lower(goal), Lower(message))
  {
    hide Words, Contains, WordAt, OccursAt, Lower;
    if HasWord(goal, message) {
      var w :| w in Words(Lower(goal), "") && Contains(Lower(message), w);
      var i, j := WordSource(Lower(goal), w);
      var k := Occurrence(Lower(message), w);
    }
    if WordOccurs(Lower(goal), Lower(message)) {
      var i, j, k :| WordAt(Lower(goal), i, j) && OccursAt(Lower(message), Lower(goal)[i..j], k);
      WordFound(Lower(goal), i, j);
      OccursContained(Lower(message), Lower(goal)[i..j], k);
    }
  }

  /** A maximal run without whitespace. */
  ghost predicate WordAt(s: string, i: int, j: int)
    ensures WordAt(s, i, j) ==> 0 <= i < j <= |s|
  {
    && 0 <= i < j <= |s| && (forall x :: i <= x < j ==> !IsSpace(s[x]))
    && (i > 0 ==> IsSpace(s[i - 1])) && (j < |s| ==> IsSpace(s[j]))
  }

  ghost predicate OccursAt(s: string, part: string, k: int) { 0 <= k && k + |part| <= |s| && s[k..k + |part|] == part }

  lemma {:induction false} Occurrence(s: string, part: string) returns (k: nat)
    requires Contains(s, part)
    ensures OccursAt(s, part, k)
  {
    if part <= s {
      k := 0;
    } else {
      k := Occurrence(s[1..], part);
      assert s[k + 1..k + 1 + |part|] == s[1..][k..k + |part|];
      k := k + 1;
    }
  }

  lemma {:induction false} OccursContained(s: string, part: string, k: int)
    requires OccursAt(s, part, k)
    ensures Contains(s, part)
  {
    if k == 0 {
      assert s[0..|part|] == s[..|part|];
      assert part <= s;
    } else {
      var rest := s[1..];
      assert forall x :: 0 <= x < |part| ==> rest[k - 1 + x] == s[k + x] == s[k..k + |part|][x] == part[x];
      assert rest[k - 1..k - 1 + |part|] == part;
      OccursContained(rest, part, k - 1);
    }
  }

  lemma WholeWord(t: string, word: string)
    requires word != "" && word <= t && (|word| < |t| ==> IsSpace(t[|word|])) && forall x :: 0 <= x < |word| ==> !IsSpace(word[x])
    ensures WordAt(t, 0, |word|) && t[0..|word|] == word
  {
    hide IsSpace;
  }

  /** A word behind whitespace is a word of the rest. */
  lemma WordShifted(t: string, n: nat, i: int, j: int)
    requires 0 < n <= |t| && IsSpace(t[n - 1])
    ensures WordAt(t[n..], i, j) <==> i >= 0 && WordAt(t, i + n, j + n)
    ensures WordAt(t[n..], i, j) ==> t[n..][i..j] == t[i + n..j + n]
  {
    hide IsSpace;
    var rest := t[n..];
    assert forall x :: 0 <= x < |rest| ==> rest[x] == t[x + n];
    if i >= 0 && WordAt(t, i + n, j + n) {
      assert forall x :: i <= x < j ==> rest[x] == t[x + n];
    }
    if WordAt(rest, i, j) {
      forall x | i + n <= x < j + n ensures !IsSpace(t[x]) { assert rest[x - n] == t[x]; }
    }
  }

  /** `word` is the start of a word that ends at the front of `s`. */
  lemma {:induction false} WordsFound(s: string, word: string, t: string, i: int, j: int)
    requires word + s == t && WordAt(t, i, j) && (forall x :: 0 <= x < |word| ==> !IsSpace(word[x]))
    ensures t[i..j] in Words(s, word)
    decreases |s|
  {
    hide IsSpace, WordAt;
    if s == "" {
      assert t == word;
      OnlyWord(t, i, j);
    } else if IsSpace(s[0]) {
      assert t[|word|] == s[0];
      BeforeSpace(t, |word|, i, j);
      if i == 0 && j == |word| {
        assert t[..j] == word;
      } else {
        assert t[|word| + 1..] == s[1..] && "" + s[1..] == s[1..];
        WordShifted(t, |word| + 1, i - |word| - 1, j - |word| - 1);
        WordsFound(s[1..], "", t[|word| + 1..], i - |word| - 1, j - |word| - 1);
      }
    } else {
      assert (word + [s[0]]) + s[1..] == t;
      WordsFound(s[1..], word + [s[0]], t, i, j);
    }
  }

  lemma OnlyWord(t: string, i: int, j: int)
    requires WordAt(t, i, j) && forall x :: 0 <= x < |t| ==> !IsSpace(t[x])
    ensures i == 0 && j == |t| && t[i..j] == t
  {
    hide IsSpace;
  }

  lemma BeforeSpace(t: string, n: nat, i: int, j: int)
    requires WordAt(t, i, j) && n < |t| && IsSpace(t[n]) && forall x :: 0 <= x < n ==> !IsSpace(t[x])
    ensures (i == 0 && j == n) || i > n
  {
    hide IsSpace;
  }

  lemma WordFound(s: string, i: int, j: int)
    requires WordAt(s, i, j)
    ensures s[i..j] in Words(s, "")
  {
    assert "" + s == s;
    WordsFound(s, "", s, i, j);
  }

  lemma {:induction false} WordsSource(s: string, word: string, t: string, w: string) returns (i: nat, j: nat)
    requires word + s == t && w in Words(s, word) && forall x :: 0 <= x < |word| ==> !IsSpace(word[x])
    ensures WordAt(t, i, j) && t[i..j] == w
    decreases |s|
  {
    hide IsSpace, WordAt;
    if s == "" {
      assert t == word;
      WholeWord(t, t);
      i, j := 0, |t|;
      assert t[0..|t|] == t;
    } else if IsSpace(s[0]) {
      assert t[|word|] == s[0];
      if word != "" && w == word {
        i, j := 0, |word|;
        assert t[..|word|] == word;
        WholeWord(t, word);
      } else {
        var rest := t[|word| + 1..];
        assert rest == s[1..] && "" + s[1..] == rest;
        var a, b := WordsSource(s[1..], "", rest, w);
        WordShifted(t, |word| + 1, a, b);
        i, j := a + (|word| + 1), b + (|word| + 1);
      }
    } else {
      assert (word + [s[0]]) + s[1..] == t;
      i, j := WordsSource(s[1..], word + [s[0]], t, w);
    }
  }

  lemma WordSource(s: string, w: string) returns (i: nat, j: nat)
    requires w in Words(s, "")
    ensures WordAt(s, i, j) && s[i..j] == w
  {
    assert "" + s == s;
    i, j := WordsSource(s, "", s, w);
  }

  /** A routine reading whose message was seen before is noise, even when a goal mentions it. */
  lemma RoutineRepeatSuppressed(seen: set<string>, kind: string, level: string, message: string, goals: seq<string>, rhythm: Rhythm)
    requires Routine(kind, level) && message in seen
    ensures Score(seen, kind, level, message, goals, rhythm) < THRESHOLD
  {
    hide Relevant;
  }

  // ---------------------------------------------------------------- stable descending order

  /** Puts a note behind every note that scores at least as much. */
  function InsertNote(queue: seq<Note>, n: Note): seq<Note> {
    if queue == [] || queue[0].score < n.score then [n] + queue else [queue[0]] + InsertNote(queue[1..], n)
  }

  /** `sort(key=score, reverse=True)`, which keeps notes of equal score in order. */
  function StableSort(notes: seq<Note>): seq<Note> {
    if notes == [] then [] else InsertNote(StableSort(notes[..|notes| - 1]), notes[|notes| - 1])
  }

  predicate Descending(queue: seq<Note>) { forall i, j :: 0 <= i < j < |queue| ==> queue[i].score >= queue[j].score }

  function IfScore(n: Note, score: int): seq<Note> { if n.score == score then [n] else [] }

  function WithScore(notes: seq<Note>, score: int): seq<Note> {
    if notes == [] then []
    else IfScore(notes[0], score) + WithScore(notes[1..], score)
  }

  lemma {:induction false} InsertKeepsOrder(queue: seq<Note>, n: Note)
    requires Descending(queue)
    ensures Descending(InsertNote(queue, n)) && |InsertNote(queue, n)| == |queue| + 1
    ensures forall x :: x in InsertNote(queue, n) ==> x in queue || x == n
  {
    if queue != [] && queue[0].score >= n.score {
      InsertKeepsOrder(queue[1..], n);
      var rest := InsertNote(queue[1..], n);
      forall i | 0 <= i < |rest| ensures rest[i].score <= queue[0].score {
        assert rest[i] in rest;
        assert rest[i] in queue[1..] || rest[i] == n;
      }
    }
  }

  lemma {:induction false} InsertKeepsStable(queue: seq<Note>, n: Note, score: int)
    requires Descending(queue)
    ensures WithScore(InsertNote(queue, n), score)
         == WithScore(queue, score) + IfScore(n, score)
  {
    if queue == [] || queue[0].score < n.score {
      assert ([n] + queue)[1..] == queue;
      if n.score == score { NoneAbove(queue, score); }
    } else {
      InsertKeepsStable(queue[1..], n, score);
      assert ([queue[0]] + InsertNote(queue[1..], n))[1..] == InsertNote(queue[1..], n);
    }
  }

  lemma {:induction false} NoneAbove(queue: seq<Note>, score: int)
    requires forall i :: 0 <= i < |queue| ==> queue[i].score < score
    ensures WithScore(queue, score) == []
  {
    if queue != [] { NoneAbove(queue[1..], score); }
  }

  lemma {:induction false} WithScoreAppend(notes: seq<Note>, n: Note, score: int)
    ensures WithScore(notes + [n], score) == WithScore(notes, score) + IfScore(n, score)
  {
    if notes == [] {
      assert [] + [n] == [n] && [n][1..] == [];
    } else {
      hide IfScore;
      var whole := notes + [n];
      assert whole[0] == notes[0] && whole[1..] == notes[1..] + [n];
      WithScoreAppend(notes[1..], n, score);
      assert WithScore(whole, score) == IfScore(notes[0], score) + WithScore(whole[1..], score);
      assert IfScore(notes[0], score) + (WithScore(notes[1..], score) + IfScore(n, score))
          == IfScore(notes[0], score) + WithScore(notes[1..], score) + IfScore(n, score);
    }
  }

  /** The sort is descending and keeps, for every score, the notes of that score in their order: nothing is lost,
      added or swapped among equals. */
  lemma {:induction false} StableSortIsStable(notes: seq<Note>, score: int)
    ensures Descending(StableSort(notes)) && |StableSort(notes)| == |notes|
    ensures WithScore(StableSort(notes), score) == WithScore(notes, score)
  {
    hide IfScore, InsertNote;
    if notes != [] {
      var (init, last) := (notes[..|notes| - 1], notes[|notes| - 1]);
      StableSortIsStable(init, score);
      InsertKeepsOrder(StableSort(init), last);
      InsertKeepsStable(StableSort(init), last, score);
      WithScoreAppend(init, last, score);
      assert init + [last] == notes;
    }
  }

  lemma NoScores(notes: seq<Note>)
    ensures (forall v :: WithScore(notes, v) == []) ==> notes == []
  {
    if notes != [] { assert WithScore(notes, notes[0].score) != []; }
  }

  /** A descending list is determined by its notes of each score. */
  lemma {:induction false} StableOrderIsUnique(a: seq<Note>, b: seq<Note>)
    requires Descending(a) && Descending(b) && forall v :: WithScore(a, v) == WithScore(b, v)
    ensures a == b
  {
    if a == [] {
      NoScores(b);
    } else {
      var v := a[0].score;
      assert WithScore(a, v)[0] == a[0];
      assert b != [] by { assert WithScore(b, v) != []; }
      var u := b[0].score;
      if u < v { NoneAbove(b, v); }
      if v < u {
        assert WithScore(b, u) != [];
        NoneAbove(a, u);
      }
      assert a[0] == b[0];
      forall s ensures WithScore(a[1..], s) == WithScore(b[1..], s) {
        assert WithScore(a, s) == WithScore(b, s);
        if s == v {
          assert WithScore(a, s)[1..] == WithScore(a[1..], s) && WithScore(b, s)[1..] == WithScore(b[1..], s);
        } else {
          assert WithScore(a, s) == WithScore(a[1..], s) && WithScore(b, s) == WithScore(b[1..], s);
        }
      }
      StableOrderIsUnique(a[1..], b[1..]);
    }
  }

  lemma {:induction false} SortedStays(queue: seq<Note>)
    requires Descending(queue)
    ensures StableSort(queue) == queue
  {
    if queue != [] {
      var (init, last) := (queue[..|queue| - 1], queue[|queue| - 1]);
      SortedStays(init);
      InsertLast(init, last);
      assert init + [last] == queue;
    }
  }

  lemma {:induction false} InsertLast(queue: seq<Note>, n: Note)
    requires forall i :: 0 <= i < |queue| ==> queue[i].score >= n.score
    ensures InsertNote(queue, n) == queue + [n]
  {
    if queue != [] { InsertLast(queue[1..], n); }
  }

  // ---------------------------------------------------------------- the bounded queue

  /** Where `q[:limit]` ends in a list of `n` elements. */
  function Bound(n: nat, limit: int): (b: nat)
    ensures b <= n
  {
    if limit < 0 then (if n + limit < 0 then 0 else n + limit) else if limit < n then limit else n
  }

  function Keep(queue: seq<Note>, limit: int): seq<Note> { queue[..Bound(|queue|, limit)] }

  /** Sort in one note and cut to the capacity. */
  function Admit(queue: seq<Note>, n: Note, capacity: int): seq<Note> {
    var sorted := StableSort(queue + [n]);
    if |sorted| > capacity then Keep(sorted, capacity) else sorted
  }

  function First(queue: seq<Note>, n: nat): seq<Note> { if n < |queue| then queue[..n] else queue }

  function Room(capacity: int): nat { if capacity < 0 then 0 else capacity }

  lemma FirstCons(x: Note, queue: seq<Note>, n: nat)
    requires n > 0
    ensures First([x] + queue, n) == [x] + First(queue, n - 1)
  {
  }

  lemma FirstFirst(queue: seq<Note>, n: nat, m: nat)
    requires m <= n
    ensures First(First(queue, n), m) == First(queue, m)
  {
  }

  lemma InsertCons(x: Note, queue: seq<Note>, n: Note)
    ensures InsertNote([x] + queue, n) == if x.score < n.score then [n] + ([x] + queue) else [x] + InsertNote(queue, n)
  {
    assert ([x] + queue)[1..] == queue;
  }

  /** Cutting before inserting loses nothing that a cut after inserting would keep. */
  lemma {:induction false} InsertThenCut(queue: seq<Note>, n: Note, room: nat)
    ensures First(InsertNote(First(queue, room), n), room) == First(InsertNote(queue, n), room)
  {
    if queue == [] || room == 0 {
      assert room == 0 ==> First(InsertNote(First(queue, room), n), room) == [] == First(InsertNote(queue, n), room);
    } else {
      hide First, InsertNote;
      var (x, rest) := (queue[0], queue[1..]);
      assert queue == [x] + rest;
      FirstCons(x, rest, room);
      InsertCons(x, rest, n);
      InsertCons(x, First(rest, room - 1), n);
      if x.score < n.score {
        FirstCons(n, First(queue, room), room);
        FirstCons(n, queue, room);
        FirstFirst(queue, room, room - 1);
      } else {
        FirstCons(x, InsertNote(First(rest, room - 1), n), room);
        FirstCons(x, InsertNote(rest, n), room);
        InsertThenCut(rest, n, room - 1);
      }
    }
  }

  lemma {:induction false} InsertLength(queue: seq<Note>, n: Note)
    ensures |InsertNote(queue, n)| == |queue| + 1
  {
    if queue != [] { InsertLength(queue[1..], n); }
  }

  lemma SortAppend(notes: seq<Note>, n: Note)
    ensures StableSort(notes + [n]) == InsertNote(StableSort(notes), n)
  {
    assert (notes + [n])[..|notes|] == notes;
  }

  lemma FirstDescending(queue: seq<Note>, n: nat)
    requires Descending(queue)
    ensures Descending(First(queue, n))
  {
  }

  lemma DropDescending(queue: seq<Note>, n: nat)
    requires Descending(queue) && n <= |queue|
    ensures Descending(queue[n..])
  {
  }

  /** Admitting into a queue that holds the best of `accepted` gives the best of `accepted` and the new note: what was
      cut off before never matters again. */
  lemma AdmitKeepsBest(accepted: seq<Note>, n: Note, capacity: int)
    ensures Admit(First(StableSort(accepted), Room(capacity)), n, capacity)
         == First(StableSort(accepted + [n]), Room(capacity))
  {
    hide StableSort, InsertNote, Descending, WithScore;
    var (all, room) := (StableSort(accepted), Room(capacity));
    StableSortIsStable(accepted, 0);
    FirstDescending(all, room);
    SortedStays(First(all, room));
    SortAppend(First(all, room), n);
    SortAppend(accepted, n);
    InsertLength(First(all, room), n);
    InsertThenCut(all, n, room);
  }

  class Attention {
    const capacity: int
    var queue: seq<Note>
    var seen: set<string>
    /** The notes accepted since the queue was last cleared; a consumption leaves those not consumed. */
    ghost var accepted: seq<Note>

    ghost predicate Valid()
      reads this
    {
      queue == First(StableSort(accepted), Room(capacity))
    }

    constructor (capacity: int)
      ensures Valid() && this.capacity == capacity && queue == [] && seen == {} && accepted == []
    {
      this.capacity, queue, seen, accepted := capacity, [], {}, [];
    }

    /** A signal below the threshold changes nothing; any other joins the accepted notes, of which the queue is
        again the best. */
    method NoteSignal(kind: string, level: string, message: string, goals: seq<string>, rhythm: Rhythm)
      returns (note: Option<Note>)
      requires Valid()
      modifies this
      ensures Valid()
      ensures var score := Score(old(seen), kind, level, message, goals, rhythm);
        if score < THRESHOLD then note == None && seen == old(seen) && accepted == old(accepted) && queue == old(queue)
        else note == Some(Note(kind, level, message, score)) && seen == old(seen) + {message}
             && accepted == old(accepted) + [note.value]
      ensures level == "critical" ==> note.Some?
    {
      hide Relevant, StableSort;
      CriticalPasses(seen, kind, message, goals, rhythm);
      var score := Score(seen, kind, level, message, goals, rhythm);
      if score < THRESHOLD { return None; }
      var n := Note(kind, level, message, score);
      AdmitKeepsBest(accepted, n, capacity);
      seen := seen + {message};
      queue := StableSort(queue + [n]);
      if |queue| > capacity { queue := Keep(queue, capacity); }
      accepted := accepted + [n];
      return Some(n);
    }

    method Peek(limit: int) returns (notes: seq<Note>)
      ensures notes <= queue && |notes| == Bound(|queue|, limit)
    {
      notes := Keep(queue, limit);
    }

    /** Takes notes from the front; what is left is still the best of itself. */
    method Consume(limit: int) returns (consumed: seq<Note>)
      requires Valid()
      modifies this
      ensures Valid() && consumed + queue == old(queue) && |consumed| == Bound(|old(queue)|, limit)
      ensures accepted == queue && seen == old(seen)
    {
      hide StableSort, WithScore, Descending;
      var b := Bound(|queue|, limit);
      StableSortIsStable(accepted, 0);
      FirstDescending(StableSort(accepted), Room(capacity));
      DropDescending(queue, b);
      consumed := queue[..b];
      queue := queue[b..];
      accepted := queue;
      SortedStays(queue);
    }

    method Clear()
      requires Valid()
      modifies this
      ensures Valid() && queue == [] && accepted == [] && seen == old(seen)
    {
      queue, accepted := [], [];
    }
  }
}

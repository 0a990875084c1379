/** Dependency resolution (buster/osbuild/resolver.py): the package index and the worklist closure of a seed set. */
module Resolver {
  import opened Text
  import opened Depends
  import opened Packages

  type Index = map<string, seq<PackageRecord>>

  function Listed(index: Index, name: string): seq<PackageRecord> {
    if name in index then index[name] else []
  }

  datatype Catalog = Catalog(candidates: Index, providers: Index)

  /** What the constructor establishes: every list of candidates is non-empty and under its own name, and
      every provider is itself a candidate. */
  ghost predicate ValidCatalog(c: Catalog) {
    ValidCandidates(c.candidates) && ValidProviders(c.providers, c.candidates.Keys)
  }

  ghost predicate ValidCandidates(candidates: Index) {
    forall name :: name in candidates ==>
      candidates[name] != [] && forall i :: 0 <= i < |candidates[name]| ==> candidates[name][i].package == name
  }

  ghost predicate ValidProviders(providers: Index, packages: set<string>) {
    forall name :: name in providers ==> forall i :: 0 <= i < |providers[name]| ==> providers[name][i].package in packages
  }

  // ---------------------------------------------------------------- what the index holds

  predicate Fits(r: PackageRecord, architecture: string) { r.architecture == architecture || r.architecture == "all" }

  /** The fitting records called `name`, in order. */
  function Candidates(records: seq<PackageRecord>, architecture: string, name: string): seq<PackageRecord> {
    if records == [] then []
    else
      var last := records[|records| - 1];
      Candidates(records[..|records| - 1], architecture, name)
      + if Fits(last, architecture) && last.package == name then [last] else []
  }

  /** The fitting records providing `name`, in order, once for each time they name it. */
  function Providers(records: seq<PackageRecord>, architecture: string, name: string): seq<PackageRecord> {
    if records == [] then []
    else
      var last := records[|records| - 1];
      Providers(records[..|records| - 1], architecture, name)
      + if Fits(last, architecture) then Copies(last, Provides(last), name) else []
  }

  function Copies(record: PackageRecord, names: seq<string>, name: string): seq<PackageRecord> {
    if names == [] then []
    else Copies(record, names[..|names| - 1], name) + if names[|names| - 1] == name then [record] else []
  }

  // ---------------------------------------------------------------- picking

  /** First of the records whose version text is greatest: the head of a stable descending sort. */
  function Newest(records: seq<PackageRecord>): PackageRecord
    requires records != []
  {
    var last := records[|records| - 1];
    if |records| == 1 then last
    else
      var best := Newest(records[..|records| - 1]);
      if TextLess(best.version, last.version) then last else best
  }

  lemma {:induction false} NewestIsFirstGreatest(records: seq<PackageRecord>) returns (k: nat)
    requires records != []
    ensures k < |records| && Newest(records) == records[k]
    ensures forall i :: 0 <= i < |records| ==> CompareText(records[i].version, records[k].version) <= 0
    ensures forall i :: 0 <= i < k ==> CompareText(records[i].version, records[k].version) < 0
  {
    var n := |records| - 1;
    if n == 0 {
      k := 0;
      CompareTextLaws(records[0].version, records[0].version);
    } else {
      k := NewestIsFirstGreatest(records[..n]);
      var (best, last) := (records[k].version, records[n].version);
      CompareTextLaws(best, last);
      CompareTextLaws(last, last);
      if TextLess(best, last) {
        forall i | 0 <= i < n ensures CompareText(records[i].version, last) < 0 {
          assert records[..n][i] == records[i];
          CompareTextTransitive(records[i].version, best, last);
        }
        k := n;
      }
    }
  }

  function FirstInstallable(c: Catalog, records: seq<PackageRecord>): Option<PackageRecord> {
    if records == [] then None
    else if records[0].package in c.candidates then Some(records[0])
    else FirstInstallable(c, records[1..])
  }

  function Pick(c: Catalog, name: string): Option<PackageRecord> {
    if Listed(c.candidates, name) != [] then Some(Newest(Listed(c.candidates, name)))
    else FirstInstallable(c, Listed(c.providers, name))
  }

  lemma {:induction false} NewestIn(records: seq<PackageRecord>)
    requires records != []
    ensures Newest(records) in records
  {
    var _ := NewestIsFirstGreatest(records);
  }

  lemma {:induction false} FirstInstallableIn(c: Catalog, records: seq<PackageRecord>)
    ensures FirstInstallable(c, records).Some? ==> FirstInstallable(c, records).value.package in c.candidates
  {
    if records != [] { FirstInstallableIn(c, records[1..]); }
  }

  /** What is picked is a candidate's package; a real name picks a record of that name. */
  lemma PickNamesCandidate(c: Catalog, name: string)
    requires ValidCatalog(c)
    ensures name in c.candidates ==> Pick(c, name).Some? && Pick(c, name).value.package == name
    ensures Pick(c, name).Some? ==> Pick(c, name).value.package in c.candidates
  {
    hide Newest, FirstInstallable;
    if name in c.candidates {
      NewestIn(c.candidates[name]);
    } else {
      FirstInstallableIn(c, Listed(c.providers, name));
    }
  }

  // ---------------------------------------------------------------- what a resolution must satisfy

  /** Some selected record is called as the alternative asks and has a version it accepts. */
  ghost predicate MetBy(order: seq<PackageRecord>, alt: Constraint) {
    exists k :: 0 <= k < |order| && order[k].package == alt.name && alt.SatisfiedBy(order[k].version)
  }

  ghost predicate GroupMet(order: seq<PackageRecord>, group: Group) {
    exists a :: 0 <= a < |group| && MetBy(order, group[a])
  }

  predicate Viable(c: Catalog, alt: Constraint) {
    Pick(c, alt.name).Some? && alt.SatisfiedBy(Pick(c, alt.name).value.version)
  }

  /** What the first viable alternative picks. */
  function FirstViable(c: Catalog, group: Group): Option<PackageRecord> {
    if group == [] then None
    else if Viable(c, group[0]) then Pick(c, group[0].name)
    else FirstViable(c, group[1..])
  }

  ghost predicate Selected(order: seq<PackageRecord>, package: string) {
    exists k :: 0 <= k < |order| && order[k].package == package
  }

  ghost predicate Supported(c: Catalog, order: seq<PackageRecord>, group: Group) {
    GroupMet(order, group) || FirstViable(c, group).None? || Selected(order, FirstViable(c, group).value.package)
  }

  ghost predicate Distinct(order: seq<PackageRecord>) {
    forall i, j :: 0 <= i < j < |order| ==> order[i].package != order[j].package
  }

  /** Every dependency group of every selected record is supported by the selection. */
  ghost predicate Closed(c: Catalog, order: seq<PackageRecord>) {
    forall k, g :: 0 <= k < |order| && 0 <= g < |Groups(order[k].depends)| ==>
      Supported(c, order, Groups(order[k].depends)[g])
  }

  /** Where a package is asked for: by the seed at an index (parent -1), or by the group at an index of an earlier
      record's dependencies. */
  datatype Ask = Ask(parent: int, index: nat)

  predicate Before(a: Ask, b: Ask) { a.parent < b.parent || (a.parent == b.parent && a.index < b.index) }

  /** A seed asks for the package of its pick; a group that nothing selected up to its own record met asks for the
      package of its first viable pick. */
  ghost predicate Asks(c: Catalog, seeds: seq<string>, order: seq<PackageRecord>, ask: Ask, package: string) {
    if ask.parent < 0 then
      ask.parent == -1 && ask.index < |seeds| && Pick(c, seeds[ask.index]).Some?
      && Pick(c, seeds[ask.index]).value.package == package
    else
      ask.parent < |order| && ask.index < |Groups(order[ask.parent].depends)|
      && NeedsGroup(c, order[..ask.parent + 1], Groups(order[ask.parent].depends)[ask.index], package)
  }

  ghost predicate NeedsGroup(c: Catalog, order: seq<PackageRecord>, group: Group, package: string) {
    !GroupMet(order, group) && FirstViable(c, group).Some? && FirstViable(c, group).value.package == package
  }

  /** `asks[k]` is the first of all asks for record `k`'s package, and the records come in the order of these asks. */
  ghost predicate Justified(c: Catalog, seeds: seq<string>, order: seq<PackageRecord>, asks: seq<Ask>) {
    && |asks| == |order|
    && (forall i, j :: 0 <= i < j < |asks| ==> Before(asks[i], asks[j]))
    && (forall k :: 0 <= k < |order| ==> -1 <= asks[k].parent < k && Asks(c, seeds, order, asks[k], order[k].package))
    && (forall k, a :: 0 <= k < |order| && Before(a, asks[k]) ==> !Asks(c, seeds, order, a, order[k].package))
  }

  /** The pick of the first seed that picks a record of `package`. */
  function SeedChoice(c: Catalog, seeds: seq<string>, package: string): Option<PackageRecord> {
    if seeds == [] then None
    else if Pick(c, seeds[0]).Some? && Pick(c, seeds[0]).value.package == package then Pick(c, seeds[0])
    else SeedChoice(c, seeds[1..], package)
  }

  /** The record a package stands for once it is selected: the first seed's pick of it, else the index's own. */
  function Standing(c: Catalog, seeds: seq<string>, package: string): Option<PackageRecord> {
    var choice := SeedChoice(c, seeds, package);
    if choice.Some? then choice else Pick(c, package)
  }

  ghost predicate Decided(c: Catalog, seeds: seq<string>, order: seq<PackageRecord>) {
    forall k :: 0 <= k < |order| ==> Some(order[k]) == Standing(c, seeds, order[k].package)
  }

  ghost predicate SeedsSelected(c: Catalog, seeds: seq<string>, order: seq<PackageRecord>) {
    forall i :: 0 <= i < |seeds| ==> Pick(c, seeds[i]).Some? && Selected(order, Pick(c, seeds[i]).value.package)
  }

  /** Whatever is asked for is selected. */
  ghost predicate Answered(c: Catalog, seeds: seq<string>, order: seq<PackageRecord>) {
    forall a: Ask, package :: Asks(c, seeds, order, a, package) ==> Selected(order, package)
  }

  ghost predicate Resolution(c: Catalog, seeds: seq<string>, order: seq<PackageRecord>, asks: seq<Ask>) {
    Distinct(order) && SeedsSelected(c, seeds, order) && Closed(c, order)
    && Justified(c, seeds, order, asks) && Answered(c, seeds, order) && Decided(c, seeds, order)
  }

  datatype Outcome = Resolved(order: seq<PackageRecord>) | CannotSatisfy(name: string)

  // ---------------------------------------------------------------- the resolver

  /** Names ever queued, how many were popped, what asked for each, and which pop selected each record. */
  datatype Trace = Trace(requests: seq<string>, popped: nat, origins: seq<Ask>, sources: seq<nat>)

  ghost predicate Bookkeeping(order: seq<PackageRecord>, chosen: map<string, PackageRecord>, queue: seq<string>,
                              queued: set<string>, t: Trace)
  {
    && t.popped <= |t.requests| == |t.origins| && |t.sources| == |order|
    && queue == t.requests[t.popped..]
    && (forall n :: n in queued <==> n in t.requests)
    && Distinct(order) && Mirrors(order, chosen)
  }

  /** `chosen` maps each selected package to its record. */
  ghost predicate Mirrors(order: seq<PackageRecord>, chosen: map<string, PackageRecord>) {
    && (forall k :: 0 <= k < |order| ==> order[k].package in chosen && chosen[order[k].package] == order[k])
    && (forall p :: p in chosen ==> Selected(order, p))
  }

  ghost predicate Requested(c: Catalog, seeds: seq<string>, order: seq<PackageRecord>, t: Trace)
    requires |t.requests| == |t.origins|
  {
    && |seeds| <= |t.requests| && t.requests[..|seeds|] == seeds
    && (forall i, j :: 0 <= i < j < |t.origins| ==> Before(t.origins[i], t.origins[j]))
    && (forall m :: 0 <= m < |seeds| ==> t.origins[m] == Ask(-1, m))
    && (forall m :: |seeds| <= m < |t.origins| ==>
          0 <= t.origins[m].parent < |order| && Asks(c, seeds, order, t.origins[m], t.requests[m])
          && t.requests[m] in c.candidates)
  }

  /** Some request for the package came no later than the ask. */
  ghost predicate Served(c: Catalog, t: Trace, ask: Ask, package: string) {
    exists m :: 0 <= m < |t.requests| && m < |t.origins| && !Before(ask, t.origins[m]) && Requests(c, t.requests[m], package)
  }

  predicate Requests(c: Catalog, name: string, package: string) {
    Pick(c, name).Some? && Pick(c, name).value.package == package
  }

  ghost predicate Heard(c: Catalog, seeds: seq<string>, order: seq<PackageRecord>, t: Trace, ask: Ask) {
    forall package :: Asks(c, seeds, order, ask, package) ==> Served(c, t, ask, package)
  }

  /** Everything that is asked before `ask` has been requested in time. */
  ghost predicate HeardBefore(c: Catalog, seeds: seq<string>, order: seq<PackageRecord>, t: Trace, ask: Ask) {
    forall a: Ask :: Before(a, ask) ==> Heard(c, seeds, order, t, a)
  }

  /** Every request was made before the ask. */
  ghost predicate AllBefore(t: Trace, ask: Ask) { forall m :: 0 <= m < |t.origins| ==> Before(t.origins[m], ask) }

  ghost predicate PoppedSelected(c: Catalog, order: seq<PackageRecord>, t: Trace)
    requires t.popped <= |t.requests|
  {
    forall m :: 0 <= m < t.popped ==>
      Pick(c, t.requests[m]).Some? && Selected(order, Pick(c, t.requests[m]).value.package)
  }

  ghost predicate SourceOf(c: Catalog, order: seq<PackageRecord>, t: Trace, k: nat)
    requires t.popped <= |t.requests| == |t.origins| && k < |order| == |t.sources|
  {
    var m := t.sources[k];
    && m < t.popped && t.origins[m].parent < k && Pick(c, t.requests[m]) == Some(order[k])
    && forall l :: 0 <= l < m ==> Pick(c, t.requests[l]).Some? && Pick(c, t.requests[l]).value.package != order[k].package
  }

  ghost predicate Sourced(c: Catalog, order: seq<PackageRecord>, t: Trace)
    requires t.popped <= |t.requests| == |t.origins| && |t.sources| == |order|
  {
    && (forall k :: 0 <= k < |order| ==> SourceOf(c, order, t, k))
    && (forall i, j :: 0 <= i < j < |order| ==> t.sources[i] < t.sources[j])
  }

  /** Supported by the selection, or about to be by a queued name. */
  ghost predicate Covered(c: Catalog, order: seq<PackageRecord>, queued: set<string>, group: Group) {
    Supported(c, order, group)
    || (FirstViable(c, group).value.package in queued && FirstViable(c, group).value.package in c.candidates)
  }

  ghost predicate AllCovered(c: Catalog, order: seq<PackageRecord>, queued: set<string>, n: nat)
    requires n <= |order|
  {
    forall k, g :: 0 <= k < n && 0 <= g < |Groups(order[k].depends)| ==>
      Covered(c, order, queued, Groups(order[k].depends)[g])
  }

  ghost predicate Progress(c: Catalog, seeds: seq<string>, order: seq<PackageRecord>,
                           chosen: map<string, PackageRecord>, queue: seq<string>, queued: set<string>, t: Trace)
  {
    Bookkeeping(order, chosen, queue, queued, t) && Requested(c, seeds, order, t) && PoppedSelected(c, order, t)
    && Sourced(c, order, t)
  }

  class DependencyResolver {
    const architecture: string
    var candidates: Index
    var providers: Index

    function Contents(): Catalog
      reads this
    {
      Catalog(candidates, providers)
    }

    constructor (records: seq<PackageRecord>, architecture: string)
      ensures this.architecture == architecture && ValidCatalog(Contents())
      ensures forall name :: Listed(candidates, name) == Candidates(records, architecture, name)
      ensures forall name :: Listed(providers, name) == Providers(records, architecture, name)
    {
      hide Provides, ValidCandidates, ValidProviders, Listed;
      var byName: Index := map[];
      var byVirtual: Index := map[];
      EmptyIndex();
      assert byName.Keys == {};
      var i := 0;
      while i < |records|
        invariant 0 <= i <= |records|
        invariant ValidCandidates(byName) && ValidProviders(byVirtual, byName.Keys)
        invariant forall name :: Listed(byName, name) == Candidates(records[..i], architecture, name)
        invariant forall name :: Listed(byVirtual, name) == Providers(records[..i], architecture, name)
      {
        var record := records[i];
        assert records[..i + 1][..i] == records[..i] && records[..i + 1][i] == record;
        if Fits(record, architecture) {
          ghost var before := byName.Keys;
          byName := Append(byName, record.package, record);
          var names := ProvidesNames(record);
          byVirtual := Register(byVirtual, names, record, before);
        }
        i := i + 1;
      }
      assert records[..i] == records;
      this.architecture := architecture;
      candidates := byName;
      providers := byVirtual;
    }

    /** What the first viable alternative of a group picks. */
    method FirstCandidate(group: Group) returns (r: Option<PackageRecord>)
      ensures r == FirstViable(Contents(), group)
    {
      hide Pick;
      var c := Contents();
      var a := 0;
      while a < |group|
        invariant 0 <= a <= |group|
        invariant FirstViable(c, group) == FirstViable(c, group[a..])
      {
        var candidate := Pick(c, group[a].name);
        assert group[a..][1..] == group[a + 1..];
        if candidate.Some? && group[a].SatisfiedBy(candidate.value.version) { return candidate; }
        a := a + 1;
      }
      return None;
    }

    method Resolve(seeds: seq<string>) returns (outcome: Outcome, ghost asks: seq<Ask>)
      requires ValidCatalog(Contents())
      ensures outcome.Resolved? ==> Resolution(Contents(), seeds, outcome.order, asks)
      ensures outcome.CannotSatisfy? ==> FirstUnsatisfied(Contents(), seeds, outcome.name)
    {
      hide Pick, Bookkeeping, Requested, PoppedSelected, Sourced, Resolution, AllCovered, Covered, ValidCatalog, Groups,
           FirstViable, GroupMet, FirstUnsatisfied, Asks, Mirrors, HeardBefore, Heard, AllBefore;
      var c := Contents();
      var chosen: map<string, PackageRecord> := map[];
      var order: seq<PackageRecord> := [];
      var queue := seeds;
      var queued := set s | s in seeds;
      ghost var names := queued + candidates.Keys;
      ghost var t := Trace(seeds, 0, SeedAsks(|seeds|), []);
      StartProgress(c, seeds, queued, t);
      while queue != []
        invariant Progress(c, seeds, order, chosen, queue, queued, t)
        invariant AllCovered(c, order, queued, |order|) && HeardBefore(c, seeds, order, t, Ask(|order|, 0))
        invariant queued <= names
        decreases names - queued, |queue|
      {
        var name := queue[0];
        QueueHead(c, seeds, order, chosen, queue, queued, t);
        queue := queue[1..];
        var picked := Pick(c, name);
        if picked.None? {
          return CannotSatisfy(name), [];
        }
        var record := picked.value;
        if record.package in chosen {
          SkipStep(c, seeds, order, chosen, [name] + queue, queued, t);
          SameHeard(c, seeds, order, t, t.(popped := t.popped + 1), Ask(|order|, 0));
          t := t.(popped := t.popped + 1);
          continue;
        }
        SelectStep(c, seeds, order, chosen, [name] + queue, queued, t, record);
        CoveredLonger(c, order, queued, record);
        HeardLonger(c, seeds, order, t, record);
        NewLast(c, seeds, order, chosen, [name] + queue, queued, t);
        t := t.(popped := t.popped + 1, sources := t.sources + [t.popped]);
        chosen := chosen[record.package := record];
        order := order + [record];
        var groups := ParseDepends(record.depends);
        ghost var (queue0, queued0) := (queue, queued);
        var g := 0;
        while g < |groups|
          invariant 0 <= g <= |groups|
          invariant Progress(c, seeds, order, chosen, queue, queued, t)
          invariant AllCovered(c, order, queued, |order| - 1)
          invariant forall h :: 0 <= h < g ==> Covered(c, order, queued, groups[h])
          invariant HeardBefore(c, seeds, order, t, Ask(|order| - 1, g)) && AllBefore(t, Ask(|order| - 1, g))
          invariant queued0 <= queued <= names
          invariant queued == queued0 ==> queue == queue0
        {
          ChosenMirrors(order, chosen, queue, queued, t);
          BeforeNext(t, |order| - 1, g, "");
          var met := AnySatisfied(chosen, groups[g], order);
          if !met {
            var candidate := FirstCandidate(groups[g]);
            if candidate.Some? {
              var package := candidate.value.package;
              CandidatePackage(c, groups[g]);
              if package !in chosen && package !in queued {
                NeedsLast(c, seeds, order, groups, g);
                EnqueueStep(c, seeds, order, chosen, queue, queued, t, package, g);
                CoveredMore(c, order, queued, package, groups[..g]);
                HeardMore(c, seeds, order, t, package, g);
                BeforeNext(t, |order| - 1, g, package);
                t := t.(requests := t.requests + [package], origins := t.origins + [Ask(|order| - 1, g)]);
                queued := queued + {package};
                queue := queue + [package];
              }
            }
          }
          GroupCovered(c, order, chosen, queued, groups[g], t, queue);
          GroupHeard(c, seeds, order, chosen, queue, queued, t, groups, g);
          g := g + 1;
        }
        LastCovered(c, order, queued, groups);
        LastHeard(c, seeds, order, t, groups);
      }
      Finished(c, seeds, order, chosen, queued, t);
      asks := FirstAsks(t);
      outcome := Resolved(order);
    }
  }

  /** `name` is the first seed for which the index has neither candidate nor provider. */
  ghost predicate FirstUnsatisfied(c: Catalog, seeds: seq<string>, name: string) {
    exists i :: 0 <= i < |seeds| && seeds[i] == name && Pick(c, seeds[i]).None?
      && forall j :: 0 <= j < i ==> Pick(c, seeds[j]).Some?
  }

  predicate SatisfiedByChosen(chosen: map<string, PackageRecord>, alt: Constraint) {
    alt.name in chosen && alt.SatisfiedBy(chosen[alt.name].version)
  }

  method AnySatisfied(chosen: map<string, PackageRecord>, group: Group, ghost order: seq<PackageRecord>)
    returns (met: bool)
    requires Mirrors(order, chosen)
    ensures met <==> GroupMet(order, group)
  {
    var a := 0;
    while a < |group|
      invariant 0 <= a <= |group|
      invariant forall b :: 0 <= b < a ==> !MetBy(order, group[b])
    {
      if SatisfiedByChosen(chosen, group[a]) {
        assert MetBy(order, group[a]);
        return true;
      }
      a := a + 1;
    }
    return false;
  }

  // ---------------------------------------------------------------- the steps of the worklist

  lemma StartProgress(c: Catalog, seeds: seq<string>, queued: set<string>, t: Trace)
    requires t == Trace(seeds, 0, SeedAsks(|seeds|), []) && queued == set s | s in seeds
    ensures Progress(c, seeds, [], map[], seeds, queued, t) && AllCovered(c, [], queued, 0)
    ensures HeardBefore(c, seeds, [], t, Ask(0, 0))
  {
    hide Pick, Groups;
    forall a: Ask, package | Before(a, Ask(0, 0)) && Asks(c, seeds, [], a, package) ensures Served(c, t, a, package) {
      assert Requests(c, t.requests[a.index], package);
    }
  }

  function SeedAsks(n: nat): (asks: seq<Ask>) { seq(n, i requires 0 <= i < n => Ask(-1, i)) }

  /** The head of the queue is the next request; only a seed can have no pick. */
  lemma QueueHead(c: Catalog, seeds: seq<string>, order: seq<PackageRecord>, chosen: map<string, PackageRecord>,
                  queue: seq<string>, queued: set<string>, t: Trace)
    requires ValidCatalog(c) && queue != [] && Progress(c, seeds, order, chosen, queue, queued, t)
    ensures [queue[0]] + queue[1..] == queue
    ensures Pick(c, queue[0]).None? ==> FirstUnsatisfied(c, seeds, queue[0])
  {
    hide Pick, Asks, Sourced;
    var m := t.popped;
    assert queue[0] == t.requests[m];
    if Pick(c, queue[0]).None? {
      PickNamesCandidate(c, queue[0]);
      assert m < |seeds|;
      forall j | 0 <= j < m ensures Pick(c, seeds[j]).Some? {
        assert t.requests[j] == t.requests[..|seeds|][j];
      }
      assert t.requests[m] == t.requests[..|seeds|][m];
    }
  }

  lemma SkipStep(c: Catalog, seeds: seq<string>, order: seq<PackageRecord>, chosen: map<string, PackageRecord>,
                 queue: seq<string>, queued: set<string>, t: Trace)
    requires queue != [] && Progress(c, seeds, order, chosen, queue, queued, t)
    requires Pick(c, queue[0]).Some? && Pick(c, queue[0]).value.package in chosen
    ensures Progress(c, seeds, order, chosen, queue[1..], queued, t.(popped := t.popped + 1))
  {
    hide Pick, Asks, Distinct;
    assert queue[0] == t.requests[t.popped];
    var t' := t.(popped := t.popped + 1);
    assert forall k :: 0 <= k < |order| ==> SourceOf(c, order, t, k) ==> SourceOf(c, order, t', k);
  }

  lemma SelectStep(c: Catalog, seeds: seq<string>, order: seq<PackageRecord>, chosen: map<string, PackageRecord>,
                   queue: seq<string>, queued: set<string>, t: Trace, record: PackageRecord)
    requires queue != [] && Progress(c, seeds, order, chosen, queue, queued, t)
    requires Pick(c, queue[0]) == Some(record) && record.package !in chosen
    ensures Progress(c, seeds, order + [record], chosen[record.package := record], queue[1..], queued,
                     t.(popped := t.popped + 1, sources := t.sources + [t.popped]))
  {
    hide Pick, Asks;
    var m := t.popped;
    var (order', chosen') := (order + [record], chosen[record.package := record]);
    var t' := t.(popped := m + 1, sources := t.sources + [m]);
    assert queue[0] == t.requests[m];
    SelectedLonger(order, record);
    assert Bookkeeping(order', chosen', queue[1..], queued, t');
    assert Requested(c, seeds, order', t') by {
      forall i | |seeds| <= i < |t.origins| ensures Asks(c, seeds, order', t.origins[i], t.requests[i]) {
        AsksLonger(c, seeds, order, t.origins[i], t.requests[i], record);
      }
    }
    assert PoppedSelected(c, order', t');
    assert Sourced(c, order', t') by {
      hide Requested, Bookkeeping;
      SourcesLonger(c, order, chosen, queue, queued, t, record, seeds);
    }
  }

  lemma SelectedLonger(order: seq<PackageRecord>, record: PackageRecord)
    ensures Selected(order + [record], record.package)
    ensures forall p :: Selected(order, p) ==> Selected(order + [record], p)
  {
    var order' := order + [record];
    assert order'[|order|] == record;
    forall p | Selected(order, p) ensures Selected(order', p) {
      var k :| 0 <= k < |order| && order[k].package == p;
      assert order'[k] == order[k];
    }
  }

  lemma AsksLonger(c: Catalog, seeds: seq<string>, order: seq<PackageRecord>, ask: Ask, package: string, record: PackageRecord)
    requires ask.parent < |order|
    ensures Asks(c, seeds, order + [record], ask, package) <==> Asks(c, seeds, order, ask, package)
  {
    hide NeedsGroup, Groups, Pick;
    if ask.parent >= 0 { assert (order + [record])[..ask.parent + 1] == order[..ask.parent + 1]; }
  }

  lemma SourcesLonger(c: Catalog, order: seq<PackageRecord>, chosen: map<string, PackageRecord>, queue: seq<string>,
                      queued: set<string>, t: Trace, record: PackageRecord, seeds: seq<string>)
    requires queue != [] && Progress(c, seeds, order, chosen, queue, queued, t)
    requires Pick(c, queue[0]) == Some(record) && record.package !in chosen
    ensures Sourced(c, order + [record], t.(popped := t.popped + 1, sources := t.sources + [t.popped]))
  {
    hide Pick, Asks;
    var m := t.popped;
    var order' := order + [record];
    var t' := t.(popped := m + 1, sources := t.sources + [m]);
    assert queue[0] == t.requests[m];
    forall k | 0 <= k < |order| ensures SourceOf(c, order', t', k) {
      assert SourceOf(c, order, t, k);
    }
    forall l | 0 <= l < m
      ensures Pick(c, t.requests[l]).Some? && Pick(c, t.requests[l]).value.package != record.package
    {
      assert Selected(order, Pick(c, t.requests[l]).value.package);
    }
    assert SourceOf(c, order', t', |order|);
    forall i, j | 0 <= i < j < |order'| ensures t'.sources[i] < t'.sources[j] {
      assert SourceOf(c, order, t, i);
    }
  }

  lemma EnqueueStep(c: Catalog, seeds: seq<string>, order: seq<PackageRecord>, chosen: map<string, PackageRecord>,
                    queue: seq<string>, queued: set<string>, t: Trace, package: string, g: nat)
    requires order != [] && Progress(c, seeds, order, chosen, queue, queued, t) && AllBefore(t, Ask(|order| - 1, g))
    requires Asks(c, seeds, order, Ask(|order| - 1, g), package) && package in c.candidates
    ensures Progress(c, seeds, order, chosen, queue + [package], queued + {package},
                     t.(requests := t.requests + [package], origins := t.origins + [Ask(|order| - 1, g)]))
  {
    hide Pick, Asks;
    var t' := t.(requests := t.requests + [package], origins := t.origins + [Ask(|order| - 1, g)]);
    assert Bookkeeping(order, chosen, queue + [package], queued + {package}, t');
    assert t'.requests[..|seeds|] == seeds;
    assert PoppedSelected(c, order, t');
    forall k | 0 <= k < |order| ensures SourceOf(c, order, t', k) {
      assert SourceOf(c, order, t, k);
    }
  }

  // ---------------------------------------------------------------- coverage of dependency groups

  lemma ChosenMirrors(order: seq<PackageRecord>, chosen: map<string, PackageRecord>, queue: seq<string>,
                      queued: set<string>, t: Trace)
    requires Bookkeeping(order, chosen, queue, queued, t)
    ensures Mirrors(order, chosen) && |t.requests| == |t.origins|
  {
  }

  lemma CoveredLonger(c: Catalog, order: seq<PackageRecord>, queued: set<string>, record: PackageRecord)
    requires AllCovered(c, order, queued, |order|)
    ensures AllCovered(c, order + [record], queued, |order|)
  {
    hide FirstViable, Groups;
    var order' := order + [record];
    forall k, g | 0 <= k < |order| && 0 <= g < |Groups(order'[k].depends)|
      ensures Covered(c, order', queued, Groups(order'[k].depends)[g])
    {
      assert order'[k] == order[k];
      SelectedLonger(order, record);
      GroupMetLonger(order, record, Groups(order[k].depends)[g]);
    }
  }

  lemma GroupMetLonger(order: seq<PackageRecord>, record: PackageRecord, group: Group)
    ensures GroupMet(order, group) ==> GroupMet(order + [record], group)
  {
    if GroupMet(order, group) {
      var a :| 0 <= a < |group| && MetBy(order, group[a]);
      var k :| 0 <= k < |order| && order[k].package == group[a].name && group[a].SatisfiedBy(order[k].version);
      assert (order + [record])[k] == order[k];
      assert MetBy(order + [record], group[a]);
    }
  }

  lemma CoveredMore(c: Catalog, order: seq<PackageRecord>, queued: set<string>, package: string, groups: seq<Group>)
    requires order != [] && AllCovered(c, order, queued, |order| - 1)
    requires forall h :: 0 <= h < |groups| ==> Covered(c, order, queued, groups[h])
    ensures AllCovered(c, order, queued + {package}, |order| - 1)
    ensures forall h :: 0 <= h < |groups| ==> Covered(c, order, queued + {package}, groups[h])
  {
    hide FirstViable, Groups, Supported;
  }

  lemma {:induction false} CandidatePackage(c: Catalog, group: Group)
    requires ValidCatalog(c)
    ensures FirstViable(c, group).Some? ==> FirstViable(c, group).value.package in c.candidates
  {
    hide Pick, ValidCatalog;
    if group != [] {
      PickNamesCandidate(c, group[0].name);
      CandidatePackage(c, group[1..]);
    }
  }

  lemma NeedsLast(c: Catalog, seeds: seq<string>, order: seq<PackageRecord>, groups: seq<Group>, g: nat)
    requires order != [] && groups == Groups(order[|order| - 1].depends) && g < |groups|
    requires !GroupMet(order, groups[g]) && FirstViable(c, groups[g]).Some?
    ensures Asks(c, seeds, order, Ask(|order| - 1, g), FirstViable(c, groups[g]).value.package)
  {
    hide Groups, GroupMet, FirstViable, Pick;
    assert order[..|order| - 1 + 1] == order;
    assert NeedsGroup(c, order, groups[g], FirstViable(c, groups[g]).value.package);
  }

  lemma GroupCovered(c: Catalog, order: seq<PackageRecord>, chosen: map<string, PackageRecord>, queued: set<string>,
                     group: Group, t: Trace, queue: seq<string>)
    requires ValidCatalog(c) && Bookkeeping(order, chosen, queue, queued, t)
    requires GroupMet(order, group) || FirstViable(c, group).None?
             || FirstViable(c, group).value.package in chosen || FirstViable(c, group).value.package in queued
    ensures Covered(c, order, queued, group)
  {
    hide FirstViable, GroupMet, ValidCatalog;
    CandidatePackage(c, group);
  }

  lemma LastCovered(c: Catalog, order: seq<PackageRecord>, queued: set<string>, groups: seq<Group>)
    requires order != [] && AllCovered(c, order, queued, |order| - 1)
    requires groups == Groups(order[|order| - 1].depends)
    requires forall h :: 0 <= h < |groups| ==> Covered(c, order, queued, groups[h])
    ensures AllCovered(c, order, queued, |order|)
  {
    hide Covered, Groups;
  }

  // ---------------------------------------------------------------- the order of the asks

  lemma SameHeard(c: Catalog, seeds: seq<string>, order: seq<PackageRecord>, t: Trace, t': Trace, ask: Ask)
    requires HeardBefore(c, seeds, order, t, ask) && t'.requests == t.requests && t'.origins == t.origins
    ensures HeardBefore(c, seeds, order, t', ask)
  {
    hide Asks, Requests;
    forall a: Ask, package | Before(a, ask) && Asks(c, seeds, order, a, package) ensures Served(c, t', a, package) {
      assert Heard(c, seeds, order, t, a);
    }
  }

  lemma HeardLonger(c: Catalog, seeds: seq<string>, order: seq<PackageRecord>, t: Trace, record: PackageRecord)
    requires HeardBefore(c, seeds, order, t, Ask(|order|, 0))
    ensures HeardBefore(c, seeds, order + [record], t.(popped := t.popped + 1, sources := t.sources + [t.popped]), Ask(|order|, 0))
  {
    hide Asks, Served;
    forall a: Ask | Before(a, Ask(|order|, 0)) ensures Heard(c, seeds, order + [record], t, a) {
      assert Heard(c, seeds, order, t, a);
      forall package | Asks(c, seeds, order + [record], a, package) ensures Served(c, t, a, package) {
        AsksLonger(c, seeds, order, a, package, record);
      }
    }
    SameHeard(c, seeds, order + [record], t, t.(popped := t.popped + 1, sources := t.sources + [t.popped]), Ask(|order|, 0));
  }

  lemma NewLast(c: Catalog, seeds: seq<string>, order: seq<PackageRecord>, chosen: map<string, PackageRecord>,
                queue: seq<string>, queued: set<string>, t: Trace)
    requires Progress(c, seeds, order, chosen, queue, queued, t)
    ensures AllBefore(t.(popped := t.popped + 1, sources := t.sources + [t.popped]), Ask(|order|, 0))
  {
    hide Asks, Sourced, PoppedSelected;
  }

  lemma BeforeNext(t: Trace, parent: int, g: nat, package: string)
    requires AllBefore(t, Ask(parent, g))
    ensures AllBefore(t, Ask(parent, g + 1))
    ensures AllBefore(t.(requests := t.requests + [package], origins := t.origins + [Ask(parent, g)]), Ask(parent, g + 1))
  {
  }

  lemma ServedMore(c: Catalog, t: Trace, package: string, origin: Ask, ask: Ask, p: string)
    requires Served(c, t, ask, p) && |t.requests| == |t.origins|
    ensures Served(c, t.(requests := t.requests + [package], origins := t.origins + [origin]), ask, p)
  {
    hide Requests;
    var t' := t.(requests := t.requests + [package], origins := t.origins + [origin]);
    var m :| 0 <= m < |t.requests| && !Before(ask, t.origins[m]) && Requests(c, t.requests[m], p);
    assert t'.requests[m] == t.requests[m] && t'.origins[m] == t.origins[m];
  }

  lemma HeardMore(c: Catalog, seeds: seq<string>, order: seq<PackageRecord>, t: Trace, package: string, g: nat)
    requires HeardBefore(c, seeds, order, t, Ask(|order| - 1, g)) && |t.requests| == |t.origins|
    ensures HeardBefore(c, seeds, order, t.(requests := t.requests + [package], origins := t.origins + [Ask(|order| - 1, g)]),
                        Ask(|order| - 1, g))
  {
    hide Asks, Served;
    var t' := t.(requests := t.requests + [package], origins := t.origins + [Ask(|order| - 1, g)]);
    forall a: Ask | Heard(c, seeds, order, t, a) ensures Heard(c, seeds, order, t', a) {
      forall p | Asks(c, seeds, order, a, p) ensures Served(c, t', a, p) {
        ServedMore(c, t, package, Ask(|order| - 1, g), a, p);
      }
    }
  }

  /** A group whose pick is selected, queued or just queued is heard. */
  lemma GroupHeard(c: Catalog, seeds: seq<string>, order: seq<PackageRecord>, chosen: map<string, PackageRecord>,
                   queue: seq<string>, queued: set<string>, t: Trace, groups: seq<Group>, g: nat)
    requires ValidCatalog(c) && order != [] && Progress(c, seeds, order, chosen, queue, queued, t)
    requires groups == Groups(order[|order| - 1].depends) && g < |groups|
    requires AllBefore(t, Ask(|order| - 1, g + 1))
    requires GroupMet(order, groups[g]) || FirstViable(c, groups[g]).None?
             || FirstViable(c, groups[g]).value.package in chosen || FirstViable(c, groups[g]).value.package in queued
    requires HeardBefore(c, seeds, order, t, Ask(|order| - 1, g))
    ensures HeardBefore(c, seeds, order, t, Ask(|order| - 1, g + 1))
  {
    hide Pick, ValidCatalog, Asks, Served, Groups, GroupMet, FirstViable, Bookkeeping, Requested, PoppedSelected, Sourced;
    LastGroupHeard(c, seeds, order, chosen, queue, queued, t, groups, g);
    forall a: Ask | Before(a, Ask(|order| - 1, g + 1)) ensures Heard(c, seeds, order, t, a) {
      if a != Ask(|order| - 1, g) { assert Before(a, Ask(|order| - 1, g)); }
    }
  }

  lemma LastGroupHeard(c: Catalog, seeds: seq<string>, order: seq<PackageRecord>, chosen: map<string, PackageRecord>,
                       queue: seq<string>, queued: set<string>, t: Trace, groups: seq<Group>, g: nat)
    requires ValidCatalog(c) && order != [] && Progress(c, seeds, order, chosen, queue, queued, t)
    requires groups == Groups(order[|order| - 1].depends) && g < |groups|
    requires AllBefore(t, Ask(|order| - 1, g + 1))
    requires GroupMet(order, groups[g]) || FirstViable(c, groups[g]).None?
             || FirstViable(c, groups[g]).value.package in chosen || FirstViable(c, groups[g]).value.package in queued
    ensures Heard(c, seeds, order, t, Ask(|order| - 1, g))
  {
    hide Pick, ValidCatalog, Groups, GroupMet, FirstViable, Requested, PoppedSelected, Distinct;
    var ask := Ask(|order| - 1, g);
    assert order[..|order| - 1 + 1] == order;
    forall package | Asks(c, seeds, order, ask, package) ensures Served(c, t, ask, package) {
      CandidatePackage(c, groups[g]);
      if package in chosen {
        var k :| 0 <= k < |order| && order[k].package == package;
        assert SourceOf(c, order, t, k);
        assert Requests(c, t.requests[t.sources[k]], package) && !Before(ask, t.origins[t.sources[k]]);
      } else {
        var m :| 0 <= m < |t.requests| && t.requests[m] == package;
        PickNamesCandidate(c, package);
        assert Requests(c, t.requests[m], package) && !Before(ask, t.origins[m]);
      }
    }
  }

  lemma LastHeard(c: Catalog, seeds: seq<string>, order: seq<PackageRecord>, t: Trace, groups: seq<Group>)
    requires order != [] && groups == Groups(order[|order| - 1].depends)
    requires HeardBefore(c, seeds, order, t, Ask(|order| - 1, |groups|))
    ensures HeardBefore(c, seeds, order, t, Ask(|order|, 0))
  {
    hide Pick, Groups, NeedsGroup, Served;
  }

  // ---------------------------------------------------------------- the finished selection

  ghost function FirstAsks(t: Trace): seq<Ask>
    requires forall k :: 0 <= k < |t.sources| ==> t.sources[k] < |t.origins|
  {
    seq(|t.sources|, k requires 0 <= k < |t.sources| => t.origins[t.sources[k]])
  }

  lemma Finished(c: Catalog, seeds: seq<string>, order: seq<PackageRecord>, chosen: map<string, PackageRecord>,
                 queued: set<string>, t: Trace)
    requires ValidCatalog(c) && Progress(c, seeds, order, chosen, [], queued, t)
    requires AllCovered(c, order, queued, |order|) && HeardBefore(c, seeds, order, t, Ask(|order|, 0))
    ensures forall k :: 0 <= k < |t.sources| ==> t.sources[k] < |t.origins|
    ensures Resolution(c, seeds, order, FirstAsks(t))
  {
    hide Pick, ValidCatalog, Asks, AllCovered, Closed, SeedChoice, HeardBefore, Justified, Answered;
    assert t.popped == |t.requests|;
    forall k | 0 <= k < |t.sources| ensures t.sources[k] < |t.origins| {
      assert SourceOf(c, order, t, k);
    }
    forall i | 0 <= i < |seeds|
      ensures Pick(c, seeds[i]).Some? && Selected(order, Pick(c, seeds[i]).value.package)
    {
      assert t.requests[i] == t.requests[..|seeds|][i];
    }
    FinishedClosed(c, seeds, order, chosen, queued, t);
    FinishedJustified(c, seeds, order, chosen, queued, t);
    FinishedAnswered(c, seeds, order, chosen, queued, t);
    FinishedDecided(c, seeds, order, chosen, queued, t);
  }

  lemma FinishedClosed(c: Catalog, seeds: seq<string>, order: seq<PackageRecord>, chosen: map<string, PackageRecord>,
                       queued: set<string>, t: Trace)
    requires ValidCatalog(c) && Progress(c, seeds, order, chosen, [], queued, t)
    requires AllCovered(c, order, queued, |order|)
    ensures Closed(c, order)
  {
    hide Pick, ValidCatalog, Asks, FirstViable, GroupMet, Groups, Sourced, Requested;
    forall k, g | 0 <= k < |order| && 0 <= g < |Groups(order[k].depends)|
      ensures Supported(c, order, Groups(order[k].depends)[g])
    {
      var group := Groups(order[k].depends)[g];
      assert Covered(c, order, queued, group);
      if !Supported(c, order, group) {
        var package := FirstViable(c, group).value.package;
        var m :| 0 <= m < |t.requests| && t.requests[m] == package;
        PickNamesCandidate(c, package);
      }
    }
  }

  lemma FinishedJustified(c: Catalog, seeds: seq<string>, order: seq<PackageRecord>, chosen: map<string, PackageRecord>,
                          queued: set<string>, t: Trace)
    requires ValidCatalog(c) && Progress(c, seeds, order, chosen, [], queued, t)
    requires forall k :: 0 <= k < |t.sources| ==> t.sources[k] < |t.origins|
    requires HeardBefore(c, seeds, order, t, Ask(|order|, 0))
    ensures Justified(c, seeds, order, FirstAsks(t))
  {
    hide Pick, ValidCatalog, Asks, PoppedSelected, HeardBefore;
    var asks := FirstAsks(t);
    forall k | 0 <= k < |order|
      ensures -1 <= asks[k].parent < k && Asks(c, seeds, order, asks[k], order[k].package)
    {
      assert SourceOf(c, order, t, k);
      var m := t.sources[k];
      if m < |seeds| {
        assert t.requests[m] == t.requests[..|seeds|][m] == seeds[m];
        SeedAsksFor(c, seeds, order, m, order[k]);
      } else {
        PickNamesCandidate(c, t.requests[m]);
      }
    }
    forall k, a | 0 <= k < |order| && Before(a, asks[k]) ensures !Asks(c, seeds, order, a, order[k].package) {
      FirstAskFor(c, seeds, order, chosen, queued, t, k, a);
    }
  }

  lemma FinishedAnswered(c: Catalog, seeds: seq<string>, order: seq<PackageRecord>, chosen: map<string, PackageRecord>,
                         queued: set<string>, t: Trace)
    requires Progress(c, seeds, order, chosen, [], queued, t) && HeardBefore(c, seeds, order, t, Ask(|order|, 0))
    ensures Answered(c, seeds, order)
  {
    hide Pick, Requested, Sourced, Distinct, Mirrors, NeedsGroup, Groups;
    assert t.popped == |t.requests|;
    forall a: Ask, package | Asks(c, seeds, order, a, package) ensures Selected(order, package) {
      assert Before(a, Ask(|order|, 0)) && Heard(c, seeds, order, t, a);
      var m :| 0 <= m < |t.requests| && Requests(c, t.requests[m], package);
    }
  }

  lemma SeedAsksFor(c: Catalog, seeds: seq<string>, order: seq<PackageRecord>, m: nat, record: PackageRecord)
    requires m < |seeds| && Pick(c, seeds[m]) == Some(record)
    ensures Asks(c, seeds, order, Ask(-1, m), record.package)
  {
    hide Pick;
  }

  lemma FirstAskFor(c: Catalog, seeds: seq<string>, order: seq<PackageRecord>, chosen: map<string, PackageRecord>,
                    queued: set<string>, t: Trace, k: nat, a: Ask)
    requires Progress(c, seeds, order, chosen, [], queued, t) && HeardBefore(c, seeds, order, t, Ask(|order|, 0)) && k < |order|
    requires t.sources[k] < |t.origins| && Before(a, t.origins[t.sources[k]])
    ensures !Asks(c, seeds, order, a, order[k].package)
  {
    hide Pick, Asks, PoppedSelected, Distinct, Mirrors;
    assert SourceOf(c, order, t, k);
    assert Before(a, Ask(|order|, 0)) && Heard(c, seeds, order, t, a);
    assert forall m :: 0 <= m < |t.requests| && Requests(c, t.requests[m], order[k].package) ==> t.sources[k] <= m;
  }

  lemma FinishedDecided(c: Catalog, seeds: seq<string>, order: seq<PackageRecord>, chosen: map<string, PackageRecord>,
                        queued: set<string>, t: Trace)
    requires ValidCatalog(c) && Progress(c, seeds, order, chosen, [], queued, t)
    ensures Decided(c, seeds, order)
  {
    hide Pick, ValidCatalog, Asks, PoppedSelected;
    forall k | 0 <= k < |order|
      ensures Some(order[k]) == Standing(c, seeds, order[k].package)
    {
      assert SourceOf(c, order, t, k);
      var m := t.sources[k];
      assert forall l :: 0 <= l < |seeds| ==> t.requests[l] == t.requests[..|seeds|][l] == seeds[l];
      if m < |seeds| {
        FirstSeedChoice(c, seeds, order[k].package, m);
      } else {
        NoSeedChoice(c, seeds, order[k].package);
        PickNamesCandidate(c, t.requests[m]);
      }
    }
  }

  lemma {:induction false} FirstSeedChoice(c: Catalog, seeds: seq<string>, package: string, m: nat)
    requires m < |seeds| && Pick(c, seeds[m]).Some? && Pick(c, seeds[m]).value.package == package
    requires forall l :: 0 <= l < m ==> Pick(c, seeds[l]).None? || Pick(c, seeds[l]).value.package != package
    ensures SeedChoice(c, seeds, package) == Pick(c, seeds[m])
  {
    hide Pick;
    if m > 0 {
      assert forall l :: 0 <= l < m - 1 ==> seeds[1..][l] == seeds[l + 1];
      FirstSeedChoice(c, seeds[1..], package, m - 1);
    }
  }

  lemma {:induction false} NoSeedChoice(c: Catalog, seeds: seq<string>, package: string)
    requires forall l :: 0 <= l < |seeds| ==> Pick(c, seeds[l]).None? || Pick(c, seeds[l]).value.package != package
    ensures SeedChoice(c, seeds, package).None?
  {
    hide Pick;
    if seeds != [] { NoSeedChoice(c, seeds[1..], package); }
  }

  lemma EmptyIndex()
    ensures ValidCandidates(map[]) && ValidProviders(map[], {}) && forall name :: Listed(map[], name) == []
  {
  }

  /** `index.setdefault(name, []).append(record)`. */
  method Append(index: Index, name: string, record: PackageRecord) returns (r: Index)
    ensures forall n :: Listed(r, n) == Listed(index, n) + if n == name then [record] else []
    ensures r.Keys == index.Keys + {name}
    ensures ValidCandidates(index) && record.package == name ==> ValidCandidates(r)
    ensures forall packages :: ValidProviders(index, packages) && record.package in packages ==> ValidProviders(r, packages)
  {
    r := index[name := Listed(index, name) + [record]];
  }

  method Register(index: Index, names: seq<string>, record: PackageRecord, ghost packages: set<string>) returns (r: Index)
    requires ValidProviders(index, packages)
    ensures ValidProviders(r, packages + {record.package})
    ensures forall n :: Listed(r, n) == Listed(index, n) + Copies(record, names, n)
  {
    hide Listed;
    r := index;
    assert ValidProviders(r, packages + {record.package}) by { MoreProviders(index, packages, record.package); }
    var v := 0;
    while v < |names|
      invariant 0 <= v <= |names|
      invariant ValidProviders(r, packages + {record.package})
      invariant forall n :: Listed(r, n) == Listed(index, n) + Copies(record, names[..v], n)
    {
      assert names[..v + 1][..v] == names[..v] && names[..v + 1][v] == names[v];
      r := Append(r, names[v], record);
      v := v + 1;
    }
    assert names[..v] == names;
  }

  lemma MoreProviders(index: Index, packages: set<string>, package: string)
    requires ValidProviders(index, packages)
    ensures ValidProviders(index, packages + {package})
  {
  }
}

/** Consequences of a resolution: when real dependencies are met by version, and the seed sets for which
    they need not be. */
module ResolverFacts {
  import opened Text
  import opened Depends
  import opened Packages
  import opened Resolver
  import Versions
  import VersionPolicy

  /** For each package some seed picks, the first such seed picks the index's own record of it. */
  ghost predicate SeedsCanonical(c: Catalog, seeds: seq<string>) {
    forall i :: 0 <= i < |seeds| && Pick(c, seeds[i]).Some? ==>
      var package := Pick(c, seeds[i]).value.package;
      SeedChoice(c, seeds, package) == Pick(c, package)
  }

  lemma {:induction false} SeedChoiceSource(c: Catalog, seeds: seq<string>, package: string) returns (i: nat)
    requires SeedChoice(c, seeds, package).Some?
    ensures i < |seeds| && Pick(c, seeds[i]) == SeedChoice(c, seeds, package)
    ensures Pick(c, seeds[i]).value.package == package
  {
    hide Pick;
    if Pick(c, seeds[0]).Some? && Pick(c, seeds[0]).value.package == package {
      i := 0;
    } else {
      i := SeedChoiceSource(c, seeds[1..], package);
      i := i + 1;
    }
  }

  lemma {:induction false} SeedChoiceExists(c: Catalog, seeds: seq<string>, i: nat)
    requires i < |seeds| && Pick(c, seeds[i]).Some?
    ensures var choice := SeedChoice(c, seeds, Pick(c, seeds[i]).value.package);
            choice.Some? && choice.value.package == Pick(c, seeds[i]).value.package
  {
    hide Pick;
    if i > 0 { SeedChoiceExists(c, seeds[1..], i - 1); }
  }

  /** Every selected record is the index's own pick for its package exactly when the seeds are canonical. */
  lemma OwnPicks(c: Catalog, seeds: seq<string>, order: seq<PackageRecord>, asks: seq<Ask>)
    requires ValidCatalog(c) && Resolution(c, seeds, order, asks)
    ensures (forall k :: 0 <= k < |order| ==> Pick(c, order[k].package) == Some(order[k])) <==> SeedsCanonical(c, seeds)
  {
    hide Pick, ValidCatalog, Justified, Closed, SeedChoice, Distinct;
    if SeedsCanonical(c, seeds) {
      forall k | 0 <= k < |order| ensures Pick(c, order[k].package) == Some(order[k]) {
        if SeedChoice(c, seeds, order[k].package).Some? {
          var i := SeedChoiceSource(c, seeds, order[k].package);
        }
      }
    }
    if forall k :: 0 <= k < |order| ==> Pick(c, order[k].package) == Some(order[k]) {
      forall i | 0 <= i < |seeds| && Pick(c, seeds[i]).Some?
        ensures var package := Pick(c, seeds[i]).value.package; SeedChoice(c, seeds, package) == Pick(c, package)
      {
        var package := Pick(c, seeds[i]).value.package;
        SeedChoiceExists(c, seeds, i);
        var k :| 0 <= k < |order| && order[k].package == package;
      }
    }
  }

  /** The first viable alternative: viable, and nothing before it is. */
  lemma {:induction false} FirstViableAt(c: Catalog, group: Group) returns (a: nat)
    requires FirstViable(c, group).Some?
    ensures a < |group| && Viable(c, group[a]) && FirstViable(c, group) == Pick(c, group[a].name)
    ensures forall b :: 0 <= b < a ==> !Viable(c, group[b])
  {
    hide Pick;
    if Viable(c, group[0]) {
      a := 0;
    } else {
      var rest := FirstViableAt(c, group[1..]);
      a := rest + 1;
      assert forall b :: 1 <= b < a ==> group[b] == group[1..][b - 1];
    }
  }

  /** `group[a]` is the first viable alternative. */
  ghost predicate FirstAt(c: Catalog, group: Group, a: int) {
    0 <= a < |group| && Viable(c, group[a]) && forall b :: 0 <= b < a ==> !Viable(c, group[b])
  }

  /** The seeds leave the package of the alternative to the index, or choose a record of it that the alternative
      accepts. */
  predicate Accepts(c: Catalog, seeds: seq<string>, alt: Constraint) {
    SeedChoice(c, seeds, alt.name).None? || alt.SatisfiedBy(SeedChoice(c, seeds, alt.name).value.version)
  }

  /** The one record selected for a package is the seeds' choice of it, or else the index's own pick. */
  lemma MetExactly(c: Catalog, seeds: seq<string>, order: seq<PackageRecord>, alt: Constraint)
    requires ValidCatalog(c) && Decided(c, seeds, order) && Viable(c, alt) && alt.name in c.candidates
    ensures MetBy(order, alt) <==> Selected(order, alt.name) && Accepts(c, seeds, alt)
  {
    hide Pick, ValidCatalog, SeedChoice;
    if Selected(order, alt.name) {
      var s :| 0 <= s < |order| && order[s].package == alt.name;
      assert Some(order[s]) == Standing(c, seeds, alt.name);
    }
  }

  lemma FirstAtIs(c: Catalog, group: Group, a: nat)
    requires FirstAt(c, group, a)
    ensures FirstViable(c, group) == Pick(c, group[a].name)
  {
    hide Viable, Pick, FirstViable;
    ViableExists(c, group, a);
    var b := FirstViableAt(c, group);
    assert a == b;
  }

  lemma {:induction false} ViableExists(c: Catalog, group: Group, a: nat)
    requires a < |group| && Viable(c, group[a])
    ensures FirstViable(c, group).Some?
  {
    if a > 0 { ViableExists(c, group[1..], a - 1); }
  }

  /** A group whose first viable alternative is a real package is met exactly when the seeds leave that alternative
      its record, or another alternative is met. */
  lemma RealGroupMet(c: Catalog, seeds: seq<string>, order: seq<PackageRecord>, asks: seq<Ask>, k: nat, g: nat, a: nat)
    requires ValidCatalog(c) && Resolution(c, seeds, order, asks)
    requires k < |order| && g < |Groups(order[k].depends)|
    requires FirstAt(c, Groups(order[k].depends)[g], a) && Groups(order[k].depends)[g][a].name in c.candidates
    ensures var group := Groups(order[k].depends)[g];
      GroupMet(order, group) <==>
        Accepts(c, seeds, group[a]) || exists b :: 0 <= b < |group| && b != a && MetBy(order, group[b])
  {
    hide Pick, ValidCatalog, Justified, SeedsSelected, Distinct, Decided, Groups, FirstViable, FirstAt, Accepts, MetBy;
    var group := Groups(order[k].depends)[g];
    assert Supported(c, order, group);
    assert 0 <= a < |group| && Viable(c, group[a]) by { FirstIsViable(c, group, a); }
    FirstAtIs(c, group, a);
    PickNamesCandidate(c, group[a].name);
    MetExactly(c, seeds, order, group[a]);
  }

  lemma FirstIsViable(c: Catalog, group: Group, a: int)
    requires FirstAt(c, group, a)
    ensures 0 <= a < |group| && Viable(c, group[a])
  {
  }

  /** The picked provider of a virtual name is itself selected exactly when its package stands for it; in any case a
      record of its package is. */
  lemma PickedProviderSelected(c: Catalog, seeds: seq<string>, order: seq<PackageRecord>, asks: seq<Ask>,
                               k: nat, g: nat, a: nat)
    requires ValidCatalog(c) && Resolution(c, seeds, order, asks)
    requires k < |order| && g < |Groups(order[k].depends)| && !GroupMet(order, Groups(order[k].depends)[g])
    requires FirstAt(c, Groups(order[k].depends)[g], a)
    ensures var provider := Pick(c, Groups(order[k].depends)[g][a].name).value;
      && Selected(order, provider.package)
      && (provider in order <==> Standing(c, seeds, provider.package) == Some(provider))
  {
    hide Pick, ValidCatalog, Justified, SeedsSelected, Distinct, Groups, FirstViable, FirstAt, GroupMet, Standing, Viable;
    var group := Groups(order[k].depends)[g];
    assert Supported(c, order, group);
    FirstIsViable(c, group, a);
    FirstAtIs(c, group, a);
    ViablePick(c, group[a]);
    var provider := Pick(c, group[a].name).value;
    var s :| 0 <= s < |order| && order[s].package == provider.package;
    assert Some(order[s]) == Standing(c, seeds, provider.package);
    assert order[s] in order;
  }

  lemma ViablePick(c: Catalog, alt: Constraint)
    requires Viable(c, alt)
    ensures Pick(c, alt.name).Some?
  {
  }

  /** The group's first viable alternative is virtual, and the record selected of its provider's package provides it. */
  ghost predicate MetByProvider(c: Catalog, order: seq<PackageRecord>, group: Group) {
    exists a, s :: FirstAt(c, group, a) && group[a].name !in c.candidates && 0 <= s < |order|
      && order[s].package == Pick(c, group[a].name).value.package && group[a].name in Provides(order[s])
  }

  /** Met by the name and version of a selected record, or by what is selected of the provider picked for a virtual
      name, or without any viable alternative in the index. */
  ghost predicate Settled(c: Catalog, order: seq<PackageRecord>, group: Group) {
    GroupMet(order, group) || MetByProvider(c, order, group) || FirstViable(c, group).None?
  }

  /** The package that the alternative's pick belongs to stands for a record that still serves: of an accepted version
      where the alternative is a real package, providing the name where it is virtual. */
  predicate Serves(c: Catalog, seeds: seq<string>, alt: Constraint)
    requires Viable(c, alt)
  {
    if alt.name in c.candidates then Accepts(c, seeds, alt)
    else
      var standing := Standing(c, seeds, Pick(c, alt.name).value.package);
      standing.Some? && alt.name in Provides(standing.value)
  }

  /** The group's first viable alternative, if it has one, will be served. */
  ghost predicate Reliable(c: Catalog, seeds: seq<string>, group: Group) {
    forall a :: FirstAt(c, group, a) ==> Serves(c, seeds, group[a])
  }

  /** Before resolving one can tell which dependency groups will be settled: every reliable one, and no other one
      unless an alternative besides its first viable one is met. For a group of one alternative it is an equivalence. */
  lemma DependenciesMet(c: Catalog, seeds: seq<string>, order: seq<PackageRecord>, asks: seq<Ask>, k: nat, g: nat)
    requires ValidCatalog(c) && Resolution(c, seeds, order, asks)
    requires k < |order| && g < |Groups(order[k].depends)|
    ensures var group := Groups(order[k].depends)[g];
      && (Settled(c, order, group) <==>
            Reliable(c, seeds, group)
            || exists a, b :: FirstAt(c, group, a) && 0 <= b < |group| && b != a && MetBy(order, group[b]))
      && (|group| == 1 ==> (Settled(c, order, group) <==> Reliable(c, seeds, group)))
  {
    hide Pick, ValidCatalog, Justified, Decided, SeedsSelected, SeedChoice, Distinct, Groups, FirstViable, Viable, Accepts,
         MetBy, GroupMet, Standing, Provides, Closed, MetByProvider, Serves, FirstAt;
    var group := Groups(order[k].depends)[g];
    if FirstViable(c, group).Some? {
      var a := FirstViableAt(c, group);
      OnlyFirst(c, group, a);
      if group[a].name in c.candidates {
        RealGroupMet(c, seeds, order, asks, k, g, a);
        RealNotProvided(c, seeds, order, group, a);
      } else {
        VirtualGroupSettled(c, seeds, order, asks, k, g, a);
      }
      MetSomewhere(order, group);
    } else {
      NoneViable(c, group);
    }
  }

  lemma OnlyFirst(c: Catalog, group: Group, a: nat)
    requires a < |group| && Viable(c, group[a]) && forall b :: 0 <= b < a ==> !Viable(c, group[b])
    ensures FirstAt(c, group, a) && forall x :: FirstAt(c, group, x) ==> x == a
  {
    hide Viable;
  }

  lemma MetSomewhere(order: seq<PackageRecord>, group: Group)
    ensures GroupMet(order, group) <==> exists b :: 0 <= b < |group| && MetBy(order, group[b])
  {
    hide MetBy;
  }

  lemma RealNotProvided(c: Catalog, seeds: seq<string>, order: seq<PackageRecord>, group: Group, a: nat)
    requires FirstAt(c, group, a) && group[a].name in c.candidates && forall x :: FirstAt(c, group, x) ==> x == a
    ensures !MetByProvider(c, order, group) && (Serves(c, seeds, group[a]) <==> Accepts(c, seeds, group[a]))
  {
    hide Viable, Pick, Provides, Accepts, Standing;
    FirstIsViable(c, group, a);
  }

  /** A group whose first viable alternative is virtual is settled exactly when the record its provider's package stands
      for provides the name, or another alternative is met. */
  lemma VirtualGroupSettled(c: Catalog, seeds: seq<string>, order: seq<PackageRecord>, asks: seq<Ask>,
                            k: nat, g: nat, a: nat)
    requires ValidCatalog(c) && Resolution(c, seeds, order, asks)
    requires k < |order| && g < |Groups(order[k].depends)|
    requires FirstAt(c, Groups(order[k].depends)[g], a) && Groups(order[k].depends)[g][a].name !in c.candidates
    ensures var group := Groups(order[k].depends)[g];
      && FirstViable(c, group).Some? && Viable(c, group[a])
      && (Settled(c, order, group) <==> Serves(c, seeds, group[a]) || GroupMet(order, group))
      && !MetBy(order, group[a])
  {
    hide Pick, ValidCatalog, Justified, SeedsSelected, Groups, FirstViable, GroupMet, Standing, Viable, Provides, MetBy;
    var group := Groups(order[k].depends)[g];
    FirstIsViable(c, group, a);
    FirstAtIs(c, group, a);
    ViablePick(c, group[a]);
    OnlyFirst(c, group, a);
    VirtualNotMet(c, seeds, order, asks, group[a]);
    var package := Pick(c, group[a].name).value.package;
    if !GroupMet(order, group) {
      PickedProviderSelected(c, seeds, order, asks, k, g, a);
      var s :| 0 <= s < |order| && order[s].package == package;
      assert Some(order[s]) == Standing(c, seeds, package);
    }
    assert forall s :: 0 <= s < |order| && order[s].package == package ==> Some(order[s]) == Standing(c, seeds, package);
  }

  /** No record of a virtual name is selected. */
  lemma VirtualNotMet(c: Catalog, seeds: seq<string>, order: seq<PackageRecord>, asks: seq<Ask>, alt: Constraint)
    requires ValidCatalog(c) && Resolution(c, seeds, order, asks) && alt.name !in c.candidates
    ensures !MetBy(order, alt)
  {
    hide Pick, ValidCatalog, Justified, SeedsSelected, Closed, Distinct, SeedChoice;
    forall s | 0 <= s < |order| ensures order[s].package in c.candidates {
      assert Some(order[s]) == Standing(c, seeds, order[s].package);
      if SeedChoice(c, seeds, order[s].package).Some? {
        var i := SeedChoiceSource(c, seeds, order[s].package);
        PickNamesCandidate(c, seeds[i]);
      } else {
        PickNamesCandidate(c, order[s].package);
      }
    }
  }

  lemma NoneViable(c: Catalog, group: Group)
    requires FirstViable(c, group).None?
    ensures forall a :: !FirstAt(c, group, a)
  {
    hide Viable, FirstViable;
    forall a ensures !FirstAt(c, group, a) {
      if FirstAt(c, group, a) { ViableExists(c, group, a); }
    }
  }

  /** Canonical seeds spoil no group whose first viable alternative is a real package; one with a virtual name is
      reliable exactly when the index's own pick of the provider's package provides that name. */
  lemma CanonicalSeedsReliable(c: Catalog, seeds: seq<string>, group: Group)
    requires SeedsCanonical(c, seeds)
    ensures Reliable(c, seeds, group) <==>
              forall a :: FirstAt(c, group, a) && group[a].name !in c.candidates ==> OwnPickProvides(c, group[a])
  {
    hide Pick, SeedChoice, Viable, Provides;
    forall a | FirstAt(c, group, a)
      ensures Serves(c, seeds, group[a]) <==> group[a].name in c.candidates || OwnPickProvides(c, group[a])
    {
      ViablePick(c, group[a]);
      CanonicalServes(c, seeds, group[a]);
    }
  }

  /** The record picked for the provider's package by its own name provides the virtual name too. */
  predicate OwnPickProvides(c: Catalog, alt: Constraint)
    requires Viable(c, alt)
  {
    var own := Pick(c, Pick(c, alt.name).value.package);
    own.Some? && alt.name in Provides(own.value)
  }

  lemma CanonicalServes(c: Catalog, seeds: seq<string>, alt: Constraint)
    requires SeedsCanonical(c, seeds) && Viable(c, alt)
    ensures Serves(c, seeds, alt) <==> alt.name in c.candidates || OwnPickProvides(c, alt)
  {
    hide Pick, SeedChoice, Provides;
    var package := if alt.name in c.candidates then alt.name else Pick(c, alt.name).value.package;
    if SeedChoice(c, seeds, package).Some? {
      var i := SeedChoiceSource(c, seeds, package);
    }
  }

  /** Once the package of a viable alternative stands for a record that does not serve it, each dependency on that
      alternative alone stays unsettled in every resolution, with some record of that package selected. */
  lemma UnservedDependency(c: Catalog, seeds: seq<string>, order: seq<PackageRecord>, asks: seq<Ask>,
                           k: nat, g: nat, alt: Constraint)
    requires ValidCatalog(c) && Resolution(c, seeds, order, asks)
    requires k < |order| && g < |Groups(order[k].depends)| && Groups(order[k].depends)[g] == [alt]
    requires Viable(c, alt) && !Serves(c, seeds, alt)
    ensures Selected(order, Pick(c, alt.name).value.package) && !Settled(c, order, [alt])
  {
    hide Pick, ValidCatalog, Justified, Closed, Distinct, Groups, SeedChoice, Viable, Serves, Decided, MetBy, Settled,
         GroupMet;
    assert FirstAt(c, [alt], 0);
    DependenciesMet(c, seeds, order, asks, k, g);
    assert !GroupMet(order, [alt]) by { SettledIfMet(c, order, [alt]); }
    PickedProviderSelected(c, seeds, order, asks, k, g, 0);
  }

  lemma SettledIfMet(c: Catalog, order: seq<PackageRecord>, group: Group)
    ensures GroupMet(order, group) ==> Settled(c, order, group)
  {
    hide GroupMet;
  }

  // ---------------------------------------------------------------- failure and origin

  /** The index lists candidates or providers for the name. */
  predicate Available(c: Catalog, name: string) { name in c.candidates || Listed(c.providers, name) != [] }

  lemma PicksWhatIsAvailable(c: Catalog, name: string)
    requires ValidCatalog(c)
    ensures Pick(c, name).Some? <==> Available(c, name)
  {
    hide Newest;
    if name in c.candidates {
      PickNamesCandidate(c, name);
    } else if Listed(c.providers, name) != [] {
      assert Listed(c.providers, name)[0].package in c.candidates;
    }
  }

  /** Resolving fails exactly when some seed has neither candidate nor provider: never because of a dependency. */
  lemma FailsOnlyOnSeeds(c: Catalog, seeds: seq<string>, outcome: Outcome, asks: seq<Ask>)
    requires ValidCatalog(c)
    requires outcome.Resolved? ==> Resolution(c, seeds, outcome.order, asks)
    requires outcome.CannotSatisfy? ==> FirstUnsatisfied(c, seeds, outcome.name)
    ensures outcome.Resolved? <==> forall i :: 0 <= i < |seeds| ==> Available(c, seeds[i])
  {
    hide Pick, ValidCatalog, Justified, Decided, Closed, Distinct, Selected, Available;
    forall i | 0 <= i < |seeds| ensures Pick(c, seeds[i]).Some? <==> Available(c, seeds[i]) {
      PicksWhatIsAvailable(c, seeds[i]);
    }
  }

  /** A name's candidates are exactly the records of that name for the architecture or for all. */
  lemma {:induction false} CandidatesFit(records: seq<PackageRecord>, architecture: string, name: string)
    ensures forall r :: r in Candidates(records, architecture, name) <==>
              r in records && r.package == name && (r.architecture == architecture || r.architecture == "all")
  {
    if records != [] {
      CandidatesFit(records[..|records| - 1], architecture, name);
      assert records == records[..|records| - 1] + [records[|records| - 1]];
    }
  }

  lemma {:induction false} CopiesOf(record: PackageRecord, names: seq<string>, name: string)
    ensures forall r :: r in Copies(record, names, name) <==> r == record && name in names
  {
    if names != [] {
      CopiesOf(record, names[..|names| - 1], name);
      assert names == names[..|names| - 1] + [names[|names| - 1]];
    }
  }

  /** Its providers are exactly the records for the architecture or for all that provide it. */
  lemma {:induction false} ProvidersFit(records: seq<PackageRecord>, architecture: string, name: string)
    ensures forall r :: r in Providers(records, architecture, name) <==>
              r in records && name in Provides(r) && (r.architecture == architecture || r.architecture == "all")
  {
    hide Provides;
    if records != [] {
      ProvidersFit(records[..|records| - 1], architecture, name);
      CopiesOf(records[|records| - 1], Provides(records[|records| - 1]), name);
      assert records == records[..|records| - 1] + [records[|records| - 1]];
    }
  }

  /** Both come in the order of the index. */
  lemma {:induction false} ListedInOrder(a: seq<PackageRecord>, b: seq<PackageRecord>, architecture: string, name: string)
    ensures Candidates(a + b, architecture, name) == Candidates(a, architecture, name) + Candidates(b, architecture, name)
    ensures Providers(a + b, architecture, name) == Providers(a, architecture, name) + Providers(b, architecture, name)
    decreases |b|
  {
    hide Provides, Copies;
    if b == [] {
      assert a + b == a;
    } else {
      assert (a + b)[..|a + b| - 1] == a + b[..|b| - 1];
      ListedInOrder(a, b[..|b| - 1], architecture, name);
    }
  }

  /** For a name without candidates the first provider is picked whose own package has candidates. */
  lemma {:induction false} FirstProviderPicked(c: Catalog, records: seq<PackageRecord>) returns (k: nat)
    requires FirstInstallable(c, records).Some?
    ensures k < |records| && FirstInstallable(c, records) == Some(records[k]) && records[k].package in c.candidates
    ensures forall i :: 0 <= i < k ==> records[i].package !in c.candidates
  {
    if records[0].package in c.candidates {
      k := 0;
    } else {
      var rest := FirstProviderPicked(c, records[1..]);
      k := rest + 1;
      assert forall i :: 1 <= i < k ==> records[i] == records[1..][i - 1];
    }
  }

  lemma {:induction false} InstallableIsListed(c: Catalog, records: seq<PackageRecord>)
    ensures FirstInstallable(c, records).Some? ==> FirstInstallable(c, records).value in records
  {
    if records != [] { InstallableIsListed(c, records[1..]); }
  }

  /** A pick is a record of the index for the architecture (or for all), of that name or providing it. */
  lemma PickFits(c: Catalog, records: seq<PackageRecord>, architecture: string, name: string)
    requires forall n :: Listed(c.candidates, n) == Candidates(records, architecture, n)
    requires forall n :: Listed(c.providers, n) == Providers(records, architecture, n)
    requires Pick(c, name).Some?
    ensures var r := Pick(c, name).value;
      r in records && Fits(r, architecture) && (r.package == name || name in Provides(r))
  {
    hide Newest, Candidates, Providers, Listed, Provides, FirstInstallable;
    CandidatesFit(records, architecture, name);
    ProvidersFit(records, architecture, name);
    if Listed(c.candidates, name) != [] {
      NewestIn(Listed(c.candidates, name));
    } else {
      InstallableIsListed(c, Listed(c.providers, name));
    }
  }

  /** Everything selected is a record of the index for the architecture or for all. */
  lemma SelectedFit(c: Catalog, records: seq<PackageRecord>, architecture: string, seeds: seq<string>,
                    order: seq<PackageRecord>, asks: seq<Ask>, k: nat)
    requires forall n :: Listed(c.candidates, n) == Candidates(records, architecture, n)
    requires forall n :: Listed(c.providers, n) == Providers(records, architecture, n)
    requires Resolution(c, seeds, order, asks) && k < |order|
    ensures order[k] in records && Fits(order[k], architecture)
  {
    hide Pick, Listed, Candidates, Providers, Closed, Distinct, SeedsSelected, Justified, SeedChoice, Fits;
    if SeedChoice(c, seeds, order[k].package).Some? {
      var i := SeedChoiceSource(c, seeds, order[k].package);
      PickFits(c, records, architecture, seeds[i]);
    } else {
      PickFits(c, records, architecture, order[k].package);
    }
  }

  // ---------------------------------------------------------------- only one selection

  /** What is asked for is selected, on an ask that comes no later. */
  lemma SelectedInTime(c: Catalog, seeds: seq<string>, order: seq<PackageRecord>, asks: seq<Ask>, ask: Ask, package: string)
    returns (m: nat)
    requires Resolution(c, seeds, order, asks) && Asks(c, seeds, order, ask, package)
    ensures m < |order| == |asks| && order[m].package == package && !Before(ask, asks[m])
  {
    hide Pick, Asks, Before, Closed, Decided, SeedsSelected, Distinct;
    m :| 0 <= m < |order| && order[m].package == package;
  }

  lemma AskOf(c: Catalog, seeds: seq<string>, order: seq<PackageRecord>, asks: seq<Ask>, k: nat)
    requires Resolution(c, seeds, order, asks) && k < |order|
    ensures |asks| == |order| && asks[k].parent < k && Asks(c, seeds, order, asks[k], order[k].package)
    ensures forall i :: 0 <= i < |order| && i != k ==> order[i].package != order[k].package
  {
    hide Pick, Asks, Before, Closed, Decided, SeedsSelected, Answered;
  }

  lemma AsksInOrder(c: Catalog, seeds: seq<string>, order: seq<PackageRecord>, asks: seq<Ask>, k: nat, m: nat)
    requires Resolution(c, seeds, order, asks) && k <= m < |order|
    ensures |asks| == |order| && !Before(asks[m], asks[k])
  {
    hide Pick, Asks, Closed, Decided, SeedsSelected, Answered, Distinct;
    if k < m { assert Before(asks[k], asks[m]); }
  }

  lemma Later(a: Ask, b: Ask, d: Ask)
    requires !Before(a, b) && !Before(b, d)
    ensures !Before(a, d)
  {
  }

  /** With the same records up to `k`, the next ask of `b` comes no later than that of `a`. */
  lemma NextAsk(c: Catalog, seeds: seq<string>, a: seq<PackageRecord>, asksA: seq<Ask>,
                b: seq<PackageRecord>, asksB: seq<Ask>, k: nat)
    requires Resolution(c, seeds, a, asksA) && Resolution(c, seeds, b, asksB)
    requires k < |a| && k <= |b| && a[..k] == b[..k]
    ensures |asksA| == |a| && |asksB| == |b|
    ensures k < |b| && !Before(asksA[k], asksB[k]) && Asks(c, seeds, b, asksA[k], a[k].package)
  {
    hide Resolution, Asks, Before;
    AskOf(c, seeds, a, asksA, k);
    AsksAlike(c, seeds, a, b, asksA[k], a[k].package, k);
    var m := SelectedInTime(c, seeds, b, asksB, asksA[k], a[k].package);
    assert forall i :: 0 <= i < k ==> b[i] == b[..k][i] == a[..k][i] == a[i];
    assert m >= k;
    AsksInOrder(c, seeds, b, asksB, k, m);
    Later(asksA[k], asksB[m], asksB[k]);
  }

  lemma AsksAlike(c: Catalog, seeds: seq<string>, a: seq<PackageRecord>, b: seq<PackageRecord>, ask: Ask, package: string, k: nat)
    requires k <= |a| && k <= |b| && a[..k] == b[..k] && ask.parent < k
    ensures Asks(c, seeds, a, ask, package) <==> Asks(c, seeds, b, ask, package)
  {
    hide Pick, Groups, NeedsGroup;
    if ask.parent >= 0 {
      assert a[..ask.parent + 1] == a[..k][..ask.parent + 1] == b[..k][..ask.parent + 1] == b[..ask.parent + 1];
      assert a[ask.parent] == a[..k][ask.parent] == b[..k][ask.parent] == b[ask.parent];
    }
  }

  /** One ask is for one package. */
  lemma OnePackage(c: Catalog, seeds: seq<string>, order: seq<PackageRecord>, ask: Ask, p: string, q: string)
    requires Asks(c, seeds, order, ask, p) && Asks(c, seeds, order, ask, q)
    ensures p == q
  {
  }

  lemma {:induction false} SamePrefix(c: Catalog, seeds: seq<string>, a: seq<PackageRecord>, asksA: seq<Ask>,
                                      b: seq<PackageRecord>, asksB: seq<Ask>, k: nat)
    requires Resolution(c, seeds, a, asksA) && Resolution(c, seeds, b, asksB) && k <= |a|
    ensures k <= |b| && a[..k] == b[..k]
  {
    hide Resolution, Asks, Before;
    if k > 0 {
      SamePrefix(c, seeds, a, asksA, b, asksB, k - 1);
      NextAsk(c, seeds, a, asksA, b, asksB, k - 1);
      NextAsk(c, seeds, b, asksB, a, asksA, k - 1);
      SameNext(c, seeds, a, asksA, b, asksB, k - 1);
      assert a[..k] == a[..k - 1] + [a[k - 1]] && b[..k] == b[..k - 1] + [b[k - 1]];
    }
  }

  lemma SameNext(c: Catalog, seeds: seq<string>, a: seq<PackageRecord>, asksA: seq<Ask>,
                 b: seq<PackageRecord>, asksB: seq<Ask>, k: nat)
    requires Resolution(c, seeds, a, asksA) && Resolution(c, seeds, b, asksB)
    requires k < |a| == |asksA| && k < |b| == |asksB|
    requires !Before(asksA[k], asksB[k]) && !Before(asksB[k], asksA[k]) && Asks(c, seeds, b, asksA[k], a[k].package)
    ensures a[k] == b[k]
  {
    hide Pick, Asks, Closed, SeedsSelected, Distinct, Answered, Standing;
    assert asksA[k] == asksB[k];
    OnePackage(c, seeds, b, asksA[k], a[k].package, b[k].package);
    assert Some(a[k]) == Standing(c, seeds, a[k].package) && Some(b[k]) == Standing(c, seeds, b[k].package);
  }

  /** An index and seeds have one resolution only: which records are selected, and in which order, is fixed by the
      groups in the order they are written and the seeds in the order they are given. */
  lemma OneResolution(c: Catalog, seeds: seq<string>, a: seq<PackageRecord>, asksA: seq<Ask>,
                      b: seq<PackageRecord>, asksB: seq<Ask>)
    requires Resolution(c, seeds, a, asksA) && Resolution(c, seeds, b, asksB)
    ensures a == b
  {
    hide Resolution;
    SamePrefix(c, seeds, a, asksA, b, asksB, |a|);
    SamePrefix(c, seeds, b, asksB, a, asksA, |b|);
    assert a[..|a|] == a && b[..|b|] == b;
  }

  // ---------------------------------------------------------------- without canonical seeds

  function Version(n: nat): string { Digits(n) }

  function Named(package: string, version: string, depends: string, provided: string): PackageRecord {
    PackageRecord(package, version, "all", "", depends, "", provided, "", 0, "", "", "optional", false)
  }

  function X(n: nat): PackageRecord { Named("x", Version(n), "", "virtual") }

  function NeedsSecond(): Written { Written(Constraint("x", "=", Version(2)), "") }

  function App(): PackageRecord { Named("app", Version(1), PrintField([[NeedsSecond()]]), "") }

  /** `x` in versions 1 and 2, the first of which is listed first as a provider, and `app` needing version 2. */
  function TwoVersions(): Catalog {
    Catalog(map["x" := [X(1), X(2)], "app" := [App()]], map["virtual" := [X(1), X(2)]])
  }

  lemma VersionOrder()
    ensures CompareText(Version(1), Version(2)) == -1
    ensures Versions.Vercmp(Version(1), Version(2)) == -1 && Versions.Vercmp(Version(2), Version(2)) == 0
  {
    hide Versions.Vercmp;
    assert |Digits(1)| == 1 && |Digits(2)| == 1;
    SameLengthDigits(1, 2);
    OneNumber(1);
    OneNumber(2);
    VersionPolicy.VercmpNumeric(Numbered(1), Numbered(2));
    VersionPolicy.VercmpNumeric(Numbered(2), Numbered(2));
    VersionPolicy.CompareNumbersZero([1], [2]);
    VersionPolicy.CompareNumbersZero([2], [2]);
  }

  function Numbered(n: nat): VersionPolicy.Numeric { VersionPolicy.Numeric(None, [n], None) }

  lemma OneNumber(n: nat)
    ensures VersionPolicy.WellFormed(Numbered(n)) && VersionPolicy.Print(Numbered(n)) == Version(n)
  {
    hide Digits;
    assert [n][1..] == [];
  }

  lemma TwoVersionsPicks()
    ensures Pick(TwoVersions(), "x") == Some(X(2)) && Pick(TwoVersions(), "virtual") == Some(X(1))
    ensures Pick(TwoVersions(), "app") == Some(App()) && ValidCatalog(TwoVersions())
    ensures "x" in TwoVersions().candidates
  {
    hide PrintField, Digits, CompareText, Versions.Vercmp;
    VersionOrder();
    var xs := [X(1), X(2)];
    assert xs[..1] == [X(1)] && Newest([X(1)]) == X(1);
    assert Newest(xs) == X(2);
    assert Newest([App()]) == App();
  }

  lemma AppGroups()
    ensures Groups(App().depends) == [[NeedsSecond().constraint]]
  {
    hide Groups, PrintField, Digits, Lacks, Tight, IsNameChar;
    assert ValidWritten(NeedsSecond()) by {
      DigitsPlain(Version(2));
      LetterName();
    }
    ParseInvertsPrint([[NeedsSecond()]]);
    assert Meaning([NeedsSecond()]) == [NeedsSecond().constraint];
    assert Meanings([[NeedsSecond()]]) == [Meaning([NeedsSecond()])];
  }

  lemma LetterName()
    ensures forall i :: 0 <= i < |"x"| ==> IsNameChar("x"[i])
  {
  }

  lemma DigitsPlain(d: string)
    requires AllDigits(d)
    ensures d != "" && Tight(d) && Lacks(d, ')') && Lacks(d, ',') && Lacks(d, '|')
  {
  }

  /** `x` in version 1, which provides `virtual`, and in version 2, which no longer does; `tool` needs `virtual`. */
  function DroppedName(): Catalog {
    Catalog(map["x" := [X(1), Bare()], "tool" := [Tool()]], map["virtual" := [X(1)]])
  }

  function Bare(): PackageRecord { Named("x", Version(2), "", "") }

  function NeedsVirtual(): Written { Written(Constraint("virtual", "", ""), "") }

  function Tool(): PackageRecord { Named("tool", Version(1), PrintField([[NeedsVirtual()]]), "") }

  lemma DroppedNamePicks()
    ensures Pick(DroppedName(), "x") == Some(Bare()) && Pick(DroppedName(), "virtual") == Some(X(1))
    ensures Pick(DroppedName(), "tool") == Some(Tool()) && ValidCatalog(DroppedName())
    ensures "virtual" !in DroppedName().candidates
  {
    hide PrintField, Digits, CompareText, Versions.Vercmp;
    VersionOrder();
    var xs := [X(1), Bare()];
    assert xs[..1] == [X(1)] && Newest([X(1)]) == X(1);
    assert Newest(xs) == Bare();
    assert Newest([Tool()]) == Tool();
  }

  lemma ToolGroups()
    ensures Groups(Tool().depends) == [[NeedsVirtual().constraint]]
  {
    hide Groups, PrintField, Digits, Lacks, Tight, IsNameChar;
    assert ValidWritten(NeedsVirtual()) by { VirtualName(); }
    ParseInvertsPrint([[NeedsVirtual()]]);
    assert Meaning([NeedsVirtual()]) == [NeedsVirtual().constraint];
    assert Meanings([[NeedsVirtual()]]) == [Meaning([NeedsVirtual()])];
  }

  lemma VirtualName()
    ensures forall i :: 0 <= i < |"virtual"| ==> IsNameChar("virtual"[i])
  {
  }

  lemma BareProvidesNothing()
    ensures Provides(Bare()) == []
  {
    hide Digits;
    assert SplitOn("", ',') == [""] && SplitOn("", ' ') == [""] && SplitOn("", '(') == [""] && Strip("") == "";
    assert ProvidedName("") == "";
    assert [""][1..] == [];
  }

  /** Even from its own name alone as a seed, a package that depends on a virtual name may get no provider of it: the
      later version of the picked provider's package is selected, which no longer provides the name. */
  lemma ProviderDropsName(order: seq<PackageRecord>, asks: seq<Ask>)
    requires Resolution(DroppedName(), ["tool"], order, asks)
    ensures SeedsCanonical(DroppedName(), ["tool"])
    ensures Tool() in order && Groups(Tool().depends) == [[NeedsVirtual().constraint]]
    ensures Viable(DroppedName(), NeedsVirtual().constraint) && Selected(order, "x")
    ensures !Settled(DroppedName(), order, [NeedsVirtual().constraint])
  {
    hide Pick, ValidCatalog, PrintField, Digits, Closed, Justified, Groups, CompareText, Versions.Vercmp, DroppedName,
         Settled, Provides, Distinct;
    var (c, seeds, alt) := (DroppedName(), ["tool"], NeedsVirtual().constraint);
    DroppedNamePicks();
    ToolGroups();
    BareProvidesNothing();
    assert seeds[1..] == [];
    assert SeedChoice(c, seeds, "x") == None && SeedChoice(c, seeds, "tool") == Some(Tool());
    var k :| 0 <= k < |order| && order[k].package == "tool";
    assert order[k] == Tool() && order[k] in order;
    assert Standing(c, seeds, "x") == Some(Bare());
    UnservedDependency(c, seeds, order, asks, k, 0, alt);
  }

  /** A seed that is virtual can select an older version of a package, and then a versioned dependency on that
      package stays unmet although the index holds a record that meets it. */
  lemma VirtualSeedBreaksDependency(order: seq<PackageRecord>, asks: seq<Ask>)
    requires Resolution(TwoVersions(), ["virtual", "app"], order, asks)
    ensures !SeedsCanonical(TwoVersions(), ["virtual", "app"])
    ensures App() in order && Groups(App().depends) == [[NeedsSecond().constraint]]
    ensures Viable(TwoVersions(), NeedsSecond().constraint) && "x" in TwoVersions().candidates
    ensures !GroupMet(order, [NeedsSecond().constraint])
  {
    hide Pick, ValidCatalog, PrintField, Digits, Closed, Justified, Groups, CompareText, Versions.Vercmp, SeedChoice, TwoVersions;
    var (c, seeds) := (TwoVersions(), ["virtual", "app"]);
    TwoVersionsPicks();
    VersionOrder();
    AppGroups();
    assert seeds[0] == "virtual" && seeds[1] == "app";
    FirstSeedChoice(c, seeds, "x", 0);
    FirstSeedChoice(c, seeds, "app", 1);
    assert Selected(order, "app");
    forall k | 0 <= k < |order| && order[k].package == "x" ensures order[k] == X(1) {
      assert Some(order[k]) == SeedChoice(c, seeds, "x");
    }
  }
}

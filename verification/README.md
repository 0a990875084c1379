# Buster OS: verified models of the image builder and the runtime

Buster OS builds Debian-based root filesystems and runs a small daemon on top of them. This project models the parts
of it whose correctness does not show from reading one function, and proves what they keep over every input, every
run and every interleaving.

| Area | Modules |
|---|---|
| Debian versions, dependency fields, package index, dependency resolver | `Versions`, `VersionPolicy`, `VersionWords`, `Depends`, `ConstraintFacts`, `Packages`, `PackagesFacts`, `Resolver`, `ResolverFacts`, `PickFacts` |
| Root filesystem: metadata overlay, staging tree, archive | `Overlay`, `Packing`, `Rootfs`, `RootfsFacts`, `Builds`, `Overwriting`, `OsRelease` |
| Job scheduler: one worker, many callers | `SchedulerModel`, `SchedulerFacts`, `SchedulerOutcomes`, `SchedulerRemoval`, `Scheduler` |
| File RPC and the runtime lock | `FileRpc`, `RpcFacts`, `RpcProgress`, `RuntimeServer`, `RuntimeLock` |
| `ar` reader, shell parser, attention queue | `ArArchive`, `ArFacts`, `ShellParser`, `Attention` |
| Python string operations the others use | `Text` |

How the models are built:

- What the source computes is a function or a method with the source's branches. Objects it updates in place are
  classes; their methods are proved against functions of the old state, and lemmas state what those functions mean.
- The scheduler and the RPC are state machines whose steps are the atomic actions of the source: what happens under
  one acquisition of a lock, or one visible file operation. An invariant is proved for every step, so the theorems
  hold for every run. The classes `Scheduler` and `RuntimeServer` carry the machine's state as a ghost field, and each
  method takes exactly the steps it names.
- The root filesystem is modelled twice: what the build recorded (a log of directories, links and files, and
  `Expected`, the archive they call for) and what overlay and staging tree hold on a host that may refuse any symlink
  or file. `Represents` ties the two; host independence follows because `Expected` does not mention the host.

Where a promise does not hold for all inputs, the project has the condition under which it does and inputs for which
it does not:

- Epochs are compared as text (resolver.py:34). `EpochsAgree` is the exact condition for the two directions of a
  comparison to agree; `<=` is transitive without it, `>=` is not (`EpochSpellingBreaksOrder`).
- On numeric versions `vercmp` agrees with section 5.6.12 of the Debian Policy Manual unless the versions differ only
  in an absent revision against revision `0` (`VercmpMeetsPolicy`). On versions with `~` it does not: here a tilde
  sorts last (`TildeSortsLast`).
- The operators of a constraint are the code's own: `<`, `<=`, `=`, `>=`, `>` and `!=`. Section 7.1 of that manual
  has `<<` and `>>` instead of the single brackets, which it once read as `<=` and `>=`, and no `!=`. A field's
  `(<< v)` is read as `<` with the version `< v`. It accepts the strictly earlier versions, and `(>> v)` the strictly
  later ones, exactly when `v` has no epoch; with one, one of the two accepts `v` itself (`StrictExactly`,
  `EpochAcceptsItself`).
- A relation with a blank behind its parenthesis, as in `name ( >= v)`, is not read, and every version is accepted
  (`SpacingExactly`).
- `pick` takes the greatest version as text (resolver.py:178). On numeric versions that is a latest one by `vercmp`
  exactly when the digits of the latest come last as text wherever another version first differs (`PickIsLatest`);
  of two plain numbers the greater is picked exactly when both have as many digits or its digits come last
  (`PickOfTwoNumbers`), so 9 hides 10 (`OlderPicked`, `NineOverTen`).
- A selected package stands for the record the seeds choose of it, if they choose one, else for the index's own pick.
  A dependency group is settled exactly when the package picked for its first viable alternative stands for a record
  that serves that alternative, or another alternative is met (`DependenciesMet`). So two kinds of groups of one
  alternative are never settled (`UnservedDependency`), and an index shows each. The seeds may choose another record
  of a package, by naming a virtual package it provides, and a versioned dependency rejects it
  (`VirtualSeedBreaksDependency`). And the provider picked for a virtual name is queued by its package's name, which is
  picked afresh (resolver.py:164-169); what is picked then may no longer provide the virtual name
  (`PickedProviderSelected`, `ProviderDropsName`).
- The loop of `parse_ar` never ends exactly when it comes to one offset twice (`EndlessExactly`). A size of -60 or -61
  leads back to the same header, a smaller one to an earlier offset (`WhereNext`), from which the loop may still end
  (`FirstHeaderForEver`, `FirstHeaderGoesBack`). With sizes above -60 at the headers it comes to, it ends.
- The comment at deb.py:60 speaks of the symbol table member. A name field of slashes and spaces only is read as an
  empty name and stays; a member is dropped exactly when its field begins with `//` and holds more than that
  (`DroppedExactly`).
- `remove` takes a job out of the table only (scheduler.py:103). Unless the job is cancelled, nothing else changes in
  the run that follows (`RemovalUnseen`); a pending one still starts (`RemovedStillStarts`), and it can be
  cancelled exactly when it is pending and has been pushed again (`CancellableExactly`).
- The remote `cancel` of a job passes `id=` as an operation argument, which replaces the request id (runtime.py:544,
  665-667). The request is executed, but a reply reaches its caller exactly when the id was not replaced
  (`ReplyLostExactly`).
- Quoting does not keep a word from being read as an option: words round-trip exactly when none after the first is of
  the form `--…` or `-x` (`QuotedWordsParse`).
- `install_payload` strips the characters `.` and `/` in front of a name (rootfs.py:134). A name is installed where it
  says exactly when it does not begin with a dot (`KeepsItsPathExactly`); `./.name` at the top of a package is
  installed as `name` (`HiddenNamesLoseTheirDot`).
- The archive is the same on every host when each path has one owner, which `OneOwnerStep` lets one check operation by
  operation. A payload file recorded twice is written as each host could stage it: two hosts agree exactly when both
  or neither staged the last one or its bytes are the same, and both or neither staged any or the archived modes are
  (`RepeatedFileHostsAgree`). A write that both hosts carry out makes them agree whatever was recorded there
  (`OverwrittenHostsAgree`). A file beneath a recorded link is in the archive exactly of a host that could not stage
  it (`FileBeneathLinkDependsOnHost`).
- `write_os_release` (rootfs.py:542-563) records `etc/os-release` as a link on a host that makes it and as a file on
  one that does not. Two such hosts write the same archive exactly when the very link was recorded there before, since
  recording the file keeps it (`OsReleaseHostsAgree`). A package that ships the link ships the two files the writer
  overwrites as well, with bytes of its own, which makes no difference (`BothHappen`). The condition is on the log
  before the writer: one owner for each path, /etc recorded, the two files at no link or directory with only
  directories above them, and `etc/os-release` no directory (`Writable`).
- A link that is not staged, as every hard link, follows its target in the archive exactly when the target is staged
  (`LinkFollowsExactly`).

`dafny verify dfyconfig.toml` verifies the whole project.

## Model

| member | source | states |
|---|---|---|
| Versions.CmpComponent | buster/osbuild/resolver.py:46-72 | The index loop computes the lexicographic order of the two token lists, a proper prefix being smaller |
| Versions.VercmpZero | buster/osbuild/resolver.py:30-43 | The comparison is zero exactly when epoch texts and both token lists are equal; its value is -1, 0 or 1 |
| Versions.VercmpAntisymmetric | buster/osbuild/resolver.py:30-43 | The two directions of a comparison have opposite signs, and one of them is at most 0, exactly when the epochs are spelt alike or differ as numbers |
| Versions.VercmpTransitive | buster/osbuild/resolver.py:30-72 | `<=` is transitive on all strings, and strict if either step is |
| Versions.VercmpTransitiveDown | buster/osbuild/resolver.py:30-72 | `>=` is transitive when adjacent epochs agree |
| Versions.EpochSpellingBreaksOrder | buster/osbuild/resolver.py:34-35 | For every epoch spelt with and without a leading zero, each of two versions is later than the other, and `>=` is not transitive |
| Versions.CanonicalEpochsAgree | buster/osbuild/resolver.py:19-35 | Epochs written as `str` writes them always agree |
| Versions.CompareTokensTransitive | buster/osbuild/resolver.py:46-72 | The order of token lists is transitive, strictly if either step is strict |
| VersionPolicy.NumbersAsPieces | buster/osbuild/resolver.py:59-63 | Length first, then text, orders digit strings without leading zeros as numbers |
| VersionPolicy.VercmpNumeric | buster/osbuild/resolver.py:30-72 | On `[epoch:]n.n.n[-n.n.n]` the sign is that of comparing epoch, upstream numbers and revision numbers in turn |
| VersionPolicy.PolicyNumeric | buster/osbuild/resolver.py:31 | An independent definition of the manual's algorithm gives the same on these versions, with an absent revision read as 0 |
| VersionPolicy.VercmpMeetsPolicy | buster/osbuild/resolver.py:30-76 | On these versions `vercmp` has the sign that section 5.6.12 of the Debian Policy Manual requires, if and only if they do not differ just by an absent revision against revision 0 |
| VersionPolicy.TildeSortsLast | buster/osbuild/resolver.py:16-76 | For every number, adding a tilde makes the version later here and earlier by the manual |
| VersionWords.SuffixesDecide | buster/osbuild/resolver.py:30-76 | Behind one epoch and the same numbers the tokens of the suffixes decide, whatever revisions follow, and with equal suffixes those of the revisions |
| VersionWords.WordsByText | buster/osbuild/resolver.py:57-69 | Behind the same numbers two different words compare as text, so 1.1.1n is earlier than 1.1.1w |
| VersionWords.NumberAfterWord | buster/osbuild/resolver.py:57-69 | Behind a common mark a number is later than a word |
| VersionWords.RevisionNumberAfterWord | buster/osbuild/resolver.py:57-69 | A revision that begins with a number is later than one that begins with a word |
| VersionWords.NumberFirstIsLater | buster/osbuild/resolver.py:57-69 | A version that is a number is later than one that begins with a word |
| VersionWords.MarksInOrder | buster/osbuild/resolver.py:57-69 | Behind the same numbers a plus is earlier than a dot and a dot than a tilde |
| VersionWords.RevisionMarksInOrder | buster/osbuild/resolver.py:57-69 | In a revision also a hyphen comes between plus and dot |
| VersionWords.WordAgainstMark | buster/osbuild/resolver.py:57-69 | A word is later than a plus or a dot and earlier than a tilde |
| VersionWords.NothingFirst | buster/osbuild/resolver.py:50-56 | A version is earlier than itself with any further token |
| VersionWords.EpochExactly | buster/osbuild/resolver.py:19-27 | What stands before the first colon is the epoch if and only if it reads as an integer; otherwise it stays in the version |
| ConstraintFacts.OppositesExclude | buster/osbuild/resolver.py:85-96 | On all strings, each version is accepted by exactly one of `<` and `>=`, of `>` and `<=`, of `=` and `!=` |
| ConstraintFacts.UpperBoundsInherit | buster/osbuild/resolver.py:85-96 | An upper bound that accepts a version accepts all versions at most as late, on all strings |
| ConstraintFacts.LowerBoundsInherit | buster/osbuild/resolver.py:85-96 | A lower bound that accepts a version accepts all later ones, once adjacent epochs agree |
| ConstraintFacts.OperatorsFollowOrder | buster/osbuild/resolver.py:85-96 | On numeric versions each operator of the code's own set accepts by the manual's order, outside the clash of an absent revision with 0 |
| ConstraintFacts.BracketsAreStrict | buster/osbuild/resolver.py:85-96 | `<` and `>` accept no version that is their own |
| ConstraintFacts.StrictRead | buster/osbuild/resolver.py:111-124 | `(<< v)` and `(>> v)` are read as the single bracket with the version `< v` or `> v` |
| ConstraintFacts.StrictExactly | buster/osbuild/resolver.py:85-124 | So read they accept the strictly earlier and the strictly later versions, on all strings, if and only if `v` has no readable epoch |
| ConstraintFacts.EpochAcceptsItself | buster/osbuild/resolver.py:85-124 | With an epoch, exactly one of the two accepts `v` itself |
| ConstraintFacts.RelationsMeetPolicy | buster/osbuild/resolver.py:85-124 | As written in a field, each of the manual's five relations between numeric versions accepts what the manual's order demands, when a strict one names no epoch and outside the clash of an absent revision with 0 |
| Depends.ParseDepends | buster/osbuild/resolver.py:99-108 | The loop gives the groups of the non-empty stripped chunks, blank alternatives dropped |
| Depends.ParseInvertsPrint | buster/osbuild/resolver.py:99-124 | Reading a printed field of groups, with the code's operators and the manual's doubled brackets as these are read, gives back its groups of alternatives with names, operators and versions; architecture qualifiers are dropped |
| Depends.ParseGroupsConcat | buster/osbuild/resolver.py:99-108 | The groups of two lists of chunks are the groups of one followed by those of the other |
| ConstraintFacts.SpacingExactly | buster/osbuild/resolver.py:111-124 | Blanks before the parenthesis and behind the operator do not matter; the relation is read if and only if none follows the parenthesis |
| ConstraintFacts.OtherwiseAccepted | buster/osbuild/resolver.py:85-96 | Without an operator, or with an unknown one, every version is accepted |
| ConstraintFacts.UnnamedKept | buster/osbuild/resolver.py:118-119 | Text that begins with no name is a name as it is |
| ConstraintFacts.UnclosedUnread | buster/osbuild/resolver.py:112-117 | A relation without its closing parenthesis is not read |
| ConstraintFacts.SeparatorsGroup | buster/osbuild/resolver.py:102-107 | A chunk of bars only is a group without alternatives; empty chunks are none |
| ConstraintFacts.NameCharsAre | buster/osbuild/resolver.py:113-114 | The characters of a package name and of an architecture |
| Packages.MergedDepends | buster/osbuild/packages.py:68-90 | Parsing a record's merged field gives the groups of Depends followed by those of Pre-Depends, whatever those fields hold |
| Packages.ProvidesNames | buster/osbuild/packages.py:23-29 | The loop gives the non-empty names of the chunks in order |
| Packages.ProvidedOfPrinted | buster/osbuild/packages.py:23-29 | A Provides field of names with optional version relations provides exactly those names, in order |
| Packages.FlushStanza | buster/osbuild/packages.py:38-42 | A finished stanza adds its record exactly when it names a package; an unreadable Size is the only failure |
| Packages.ParsePackages | buster/osbuild/packages.py:32-65 | The records are those of the stanzas the line reader collects; no result if a Size is not a number |
| Packages.StanzasInvertPrint | buster/osbuild/packages.py:44-64 | Reading a printed index gives its stanzas that name a package, in order, with later fields winning and continuation lines joined by one space |
| PackagesFacts.RecordsInvertPrint | buster/osbuild/packages.py:32-90 | Reading the printed index of any named records gives these records, in order, every field in its own place, with Depends and Pre-Depends merged |
| PackagesFacts.Defaults | buster/osbuild/packages.py:68-86 | What a record has where its stanza only names the package |
| PackagesFacts.ProvidedBeforeParenthesis | buster/osbuild/packages.py:26 | A provided name ends at a parenthesis as at a space |
| PackagesFacts.ReturnsDropped | buster/osbuild/packages.py:45 | A carriage return at the end of a line does not matter |
| PackagesFacts.TabsContinue | buster/osbuild/packages.py:50-53 | A tab continues a field as a space does |
| PackagesFacts.StrayLineEndsField | buster/osbuild/packages.py:51-63 | A line that is no field ends the field before it, so that lines continuing it are dropped |
| Resolver.NewestIsFirstGreatest | buster/osbuild/resolver.py:175-179 | The pick among candidates is the first of those whose version text is greatest |
| Resolver.PickNamesCandidate | buster/osbuild/resolver.py:175-183 | A real name picks a record of that name; whatever is picked belongs to a package with candidates |
| Resolver.DependencyResolver.constructor | buster/osbuild/resolver.py:130-139 | Candidates and providers of every name are the fitting records in index order, once for each time a record provides the name |
| Resolver.DependencyResolver.FirstCandidate | buster/osbuild/resolver.py:160-170 | The loop finds the pick of the first alternative whose pick has an accepted version |
| Resolver.AnySatisfied | buster/osbuild/resolver.py:158-159 | True exactly when some selected record has the name and an accepted version of some alternative |
| Resolver.DependencyResolver.Resolve | buster/osbuild/resolver.py:144-173 | Ends on every index; a result has distinct packages, is closed under dependencies, selects whatever a seed or an unmet group asks for, in the order of the first asks (seeds as given, then records in turn, each record's groups as written), and never replaces a choice; a failure names the first seed with no pick |
| ResolverFacts.PicksWhatIsAvailable | buster/osbuild/resolver.py:141-142 | A name has a pick exactly when the index has a candidate or a provider for it |
| ResolverFacts.FailsOnlyOnSeeds | buster/osbuild/resolver.py:144-155 | Resolving succeeds exactly when every seed has a candidate or provider; a dependency never makes it fail |
| ResolverFacts.OneResolution | buster/osbuild/resolver.py:144-173 | An index and seeds have one result only: records and order are fixed |
| ResolverFacts.SelectedFit | buster/osbuild/resolver.py:134-139 | Every selected record is one of the index, for the architecture or for all |
| ResolverFacts.CandidatesFit | buster/osbuild/resolver.py:133-136 | The candidates of a name are exactly the records of that name for the architecture or for all |
| ResolverFacts.ProvidersFit | buster/osbuild/resolver.py:133-139 | Its providers are exactly such records that provide it |
| ResolverFacts.ListedInOrder | buster/osbuild/resolver.py:133-139 | Both come in the order of the index |
| ResolverFacts.FirstProviderPicked | buster/osbuild/resolver.py:180-183 | For a name without candidates the first provider whose own package has candidates is picked |
| ResolverFacts.PickFits | buster/osbuild/resolver.py:175-183 | A pick is a fitting record of that name or one that provides it |
| ResolverFacts.OwnPicks | buster/osbuild/resolver.py:144-157 | Every selected record is the pick of its own package exactly when the first seed choosing each package chooses that pick |
| ResolverFacts.FirstViableAt | buster/osbuild/resolver.py:160-170 | The alternative taken is viable and none before it is |
| ResolverFacts.RealGroupMet | buster/osbuild/resolver.py:144-192 | A group whose first viable alternative is a real package is met exactly when that alternative accepts the record the seeds choose of the package, if they choose one, or another alternative is met |
| ResolverFacts.PickedProviderSelected | buster/osbuild/resolver.py:160-170 | Unless its group is met otherwise, a record of the package of the first viable alternative's pick is selected, and the pick itself if and only if that package stands for it |
| ResolverFacts.VirtualGroupSettled | buster/osbuild/resolver.py:144-192 | A group whose first viable alternative is virtual is settled if and only if the record its provider's package stands for provides the name, or another alternative is met |
| ResolverFacts.DependenciesMet | buster/osbuild/resolver.py:144-192 | Each group of each selected record is met by name and version, or by a selected record of its provider's package that provides the virtual name, or has no viable alternative, if and only if the package of its first viable alternative's pick stands for a record that serves it or another alternative is met; for one alternative this is known before resolving |
| ResolverFacts.CanonicalSeedsReliable | buster/osbuild/resolver.py:144-157 | Seeds that choose the index's own picks spoil no group whose first viable alternative is a real package; one that begins with a virtual name is reliable if and only if the index's own pick of the provider's package provides that name |
| ResolverFacts.UnservedDependency | buster/osbuild/resolver.py:152-170 | In every resolution, a dependency on one viable alternative stays unsettled if the package of its pick stands for a record that does not serve it, although a record of that package is selected |
| ResolverFacts.VirtualSeedBreaksDependency | buster/osbuild/resolver.py:152-157 | An index and seeds for which a versioned dependency stays unmet |
| ResolverFacts.ProviderDropsName | buster/osbuild/resolver.py:160-170 | An index for which a dependency on a virtual name stays unsettled with the depending package as the only seed |
| PickFacts.PrintedOrder | buster/osbuild/resolver.py:178 | The texts of two numeric versions of one epoch compare as the digits of their first different numbers do as text |
| PickFacts.PickIsLatest | buster/osbuild/resolver.py:175-179 | On numeric versions of one epoch the pick is a latest record by `vercmp` if and only if no other version comes after the latest in that text order |
| PickFacts.PickOfTwoNumbers | buster/osbuild/resolver.py:175-179 | Of two plain numbers the greater is picked if and only if both have as many digits or its digits come last as text |
| PickFacts.OlderPicked | buster/osbuild/resolver.py:175-179 | A smaller number with a greater first digit is picked over a greater one |
| PickFacts.NineOverTen | buster/osbuild/resolver.py:175-179 | 9 is picked over 10 |
| Overlay.InstalledRepresents | buster/osbuild/rootfs.py:130-176 | Installing any member on a host that accepts or refuses it keeps overlay, staging tree and extra members representing exactly what was recorded |
| Overlay.LaidOutRepresents | buster/osbuild/rootfs.py:106-120 | So does a layout link, staged as a link or as a directory |
| Overlay.FileModes | buster/osbuild/rootfs.py:86-96 | The overlay's mode of a file is the mode it was last recorded with |
| Packing.Visit | buster/osbuild/rootfs.py:226-258 | Walking a directory writes exactly what is staged below it and not beneath a link, each once, as recorded, parents first and siblings of a kind in name order |
| Packing.SortPaths | buster/osbuild/rootfs.py:260-262 | The recorded links in the order of their path texts |
| RootfsFacts.MembersAvoidLinks | buster/osbuild/rootfs.py:78-84 | No member goes to or beneath a merged-/usr link, whatever its name |
| RootfsFacts.MergedUsr | buster/osbuild/rootfs.py:78-84 | A member of a merged directory goes to the same place under /usr |
| RootfsFacts.SpellingsAgree | buster/osbuild/rootfs.py:134-135 | A leading `./` or `/` and a trailing slash do not change where a member goes |
| RootfsFacts.KeepsItsPathExactly | buster/osbuild/rootfs.py:134-135 | With or without a leading `./`, a name without slashes at its ends goes to its own path, up to the merged directories, if and only if it does not begin with a dot |
| RootfsFacts.HiddenNamesLoseTheirDot | buster/osbuild/rootfs.py:134-135 | A hidden name at the top of a package goes where the name without its dot goes |
| Rootfs.LayoutOneOwner | buster/osbuild/rootfs.py:41-51 | The layout of every architecture gives each path one owner |
| Rootfs.Rootfs.BuildLayout | buster/osbuild/rootfs.py:100-120 | After the layout the root filesystem represents the base directories and merged-/usr links, on every host |
| Rootfs.Rootfs.InstallMember | buster/osbuild/rootfs.py:133-175 | One member changes overlay, tree and extra members as its kind and the host decide, and what it records is represented |
| Rootfs.Rootfs.InstallPayload | buster/osbuild/rootfs.py:130-176 | A payload is represented member by member on every host; the returned paths are those of the installed members in order |
| Rootfs.Rootfs.EmitLinks | buster/osbuild/rootfs.py:260-262 | Links the walk did not meet follow it in name order, and then every link has been written |
| Rootfs.Rootfs.EmitExtras | buster/osbuild/rootfs.py:264-275 | Then every extra member whose path is not written yet follows, the first for each path |
| Rootfs.Rootfs.PackTree | buster/osbuild/rootfs.py:180-275 | The archive is the walk, then the remaining links, then the remaining extra members, no path twice |
| RootfsFacts.WritesEverythingOnce | buster/osbuild/rootfs.py:180-275 | A path is in the archive, once, exactly when it is staged and not beneath a link, or a recorded link, or an extra member |
| RootfsFacts.LinksStayLinks | buster/osbuild/rootfs.py:199-213 | A recorded link is written as that link even where a directory or file is staged at its path |
| RootfsFacts.UnstagedLinksLast | buster/osbuild/rootfs.py:260-262 | A link with nothing staged at its path (a hard link is one) comes behind everything the walk writes |
| RootfsFacts.LinkFollowsExactly | buster/osbuild/rootfs.py:260-275 | Such a link comes after an entry that is no link exactly when that is staged; before one kept as an extra member |
| RootfsFacts.ParentsComeFirst | buster/osbuild/rootfs.py:226-258 | In the walk every directory precedes its contents |
| RootfsFacts.RecordedModesKept | buster/osbuild/rootfs.py:8-17 | A recorded non-zero mode of a directory or file is the mode in the archive |
| RootfsFacts.PackedAsRecorded | buster/osbuild/rootfs.py:8-17 | The archive holds each path the recorded operations call for, with the kind, mode, bytes or target they determine, and nothing else |
| RootfsFacts.HostIndependence | buster/osbuild/rootfs.py:8-17 | Two hosts that recorded the same operations write the same entries, whatever either could stage |
| Builds.Build | buster/osbuild/rootfs.py:100-275 | A whole build, layout, payloads and archive, on any host: every member that is the last at its path has its entry, with its own kind, permission bits, bytes or target; and no file or link is archived that neither a member nor the layout brings |
| Builds.LastMemberExpected | buster/osbuild/rootfs.py:133-175 | What the archive has at a path is what the last member there calls for, told from the member alone |
| Builds.LayoutDirsArchived | buster/osbuild/rootfs.py:100-104 | A directory of the layout that no member brings is archived with the layout's mode |
| Builds.LayoutModes | buster/osbuild/rootfs.py:41-51 | 0755, but 0700 for /root and 01777 for the three places for temporary files |
| Builds.ImpliedDirs | buster/osbuild/rootfs.py:233-245 | A directory only on the way to something is archived with 0755 |
| Builds.LayoutLinksLead | buster/osbuild/rootfs.py:106-113 | There is a layout link for each merged directory, /lib64 only for amd64, and it leads where that directory's members go |
| Builds.InstalledPathsAre | buster/osbuild/rootfs.py:130-176 | The paths a payload returns are those of its members that are archived |
| Builds.BuildOnTwoHosts | buster/osbuild/rootfs.py:8-17 | The same build on two hosts gives equal multisets of entries |
| RootfsFacts.OneOwnerStep | buster/osbuild/rootfs.py:86-96 | Each path keeps one owner exactly when the next operation records nothing beneath a link or file, no link or file where something else is, and a file again only with the same mode and bytes |
| RootfsFacts.RepeatedFileHostsAgree | buster/osbuild/rootfs.py:160-175 | What a host writes for a path recorded twice as a file, for each of the four ways it may stage or not stage the two, and exactly when two hosts agree |
| RootfsFacts.FileBeneathLinkDependsOnHost | buster/osbuild/rootfs.py:240-275 | A file beneath a recorded link is in the archive if and only if the host could not stage it |
| Overwriting.OverwriteMeaning | buster/osbuild/rootfs.py:86-96 | Recording a file or link where a file was recorded keeps one owner for each path and gives the path to the new one alone |
| Overwriting.OverwriteRepresents | buster/osbuild/rootfs.py:147-175 | A host that puts it there represents that, once what it kept aside for the path is disregarded |
| Overwriting.AsideUnseen | buster/osbuild/rootfs.py:264-275 | What is kept aside for a path that is staged and reached, or a link, does not show in the archive |
| Overwriting.OverwrittenHostsAgree | buster/osbuild/rootfs.py:567-593 | Two hosts that agreed before and both put the same file or link at a path write the same archive, whatever was recorded there before and wherever either kept it |
| Rootfs.Rootfs.WriteOsRelease | buster/osbuild/rootfs.py:542-563 | The os-release file, its link or copy with the old link entry kept, and the issue file are written and recorded |
| OsRelease.PackedAsReleased | buster/osbuild/rootfs.py:542-563 | Whichever way the writer goes, over files recorded before with any bytes, the archive holds exactly what is recorded in the end, the old link where one was recorded |
| OsRelease.ReleaseEntries | buster/osbuild/rootfs.py:542-563 | The archive has both files with the writer's bytes and mode 0644, and at etc/os-release the link if it was made, else the link recorded before, else a copy |
| OsRelease.OsReleaseHostsAgree | buster/osbuild/rootfs.py:542-563 | Two hosts that agreed before write the same archive if and only if both make the link, neither does, or the very link was recorded before; otherwise they differ at that path. The files the writer overwrites may be recorded before with any bytes |
| OsRelease.BothHappen | buster/osbuild/rootfs.py:542-563 | Both cases come up, for every package that ships the two files with bytes and modes of its own: with its link beside them, and without |
| SchedulerModel.StepKeeps | buster/kernel/scheduler.py:76-162 | Every step of callers and worker keeps the invariant tying heap, table, statuses and worker |
| SchedulerFacts.AtLoopHead | buster/kernel/scheduler.py:123-130 | In every run, with the worker at its loop head: heap ids are distinct, keys are the jobs' own, entries are pending or cancelled, every pending job of the table is in the heap, none is running |
| SchedulerFacts.NoEarlyStart | buster/kernel/scheduler.py:128-146 | In every run no job starts before its run_at, whatever happens between the due check and the pop |
| SchedulerFacts.CancelledNeverStarts | buster/kernel/scheduler.py:94-101 | After a successful cancel no later step of any run starts the job |
| SchedulerFacts.OneShotRunsOnce | buster/kernel/scheduler.py:143-162 | A job that is not periodic never starts again once it finished or raised |
| SchedulerFacts.PeriodicSpacing | buster/kernel/scheduler.py:156-162 | Every later start of a periodic job is at least its interval after a finish |
| SchedulerFacts.RearmedEitherWay | buster/kernel/scheduler.py:148-162 | A periodic job is pending in the heap again whether its function returned or raised |
| SchedulerFacts.NoStarvation | buster/kernel/scheduler.py:76-92 | While an overdue job is pending in the heap, the pops so far and the smaller entries left never exceed the smaller entries at the start; nothing scheduled or re-armed later counts |
| SchedulerFacts.OverdueLeavesByPop | buster/kernel/scheduler.py:123-142 | An overdue pending job leaves the heap only by being popped for execution |
| SchedulerFacts.NoIdleWhileDue | buster/kernel/scheduler.py:123-136 | The sweep never lets the worker wait while a pending entry is due |
| SchedulerFacts.PoppedCount | buster/kernel/scheduler.py:126-142 | The pops counted are all the heap pops |
| SchedulerOutcomes.EndedAs | buster/kernel/scheduler.py:148-159 | In every run a job is completed if and only if its function returned when it last ended, failed if and only if it raised, and neither once re-armed |
| SchedulerOutcomes.EndStays | buster/kernel/scheduler.py:148-155 | A job that is not periodic keeps that status for good |
| SchedulerOutcomes.RunningExactly | buster/kernel/scheduler.py:146 | A job is running if and only if the worker is in its function |
| SchedulerOutcomes.NoIntervalRunsOnce | buster/kernel/scheduler.py:40-42 | Without a positive interval a job starts at most once |
| SchedulerOutcomes.IntervalRunsAgain | buster/kernel/scheduler.py:156-162 | With one it is pending in the heap again, the interval from its end |
| SchedulerOutcomes.DueAsScheduled | buster/kernel/scheduler.py:82-90 | In every run, until it is re-armed, a job keeps its interval and priority and is due at the time of scheduling plus its delay, a negative delay counting as none |
| SchedulerOutcomes.EarliestFirst | buster/kernel/scheduler.py:138-142 | In every run the popped job has the earliest time in the heap, then the least priority number, then the least id |
| SchedulerRemoval.OverdueStarts | buster/kernel/scheduler.py:123-162 | From its loop head the worker's own steps come to start any overdue job |
| SchedulerRemoval.RemovalUnseen | buster/kernel/scheduler.py:103-105 | In a run without a cancel of the job, removing it changes nothing but the table: the same heap, jobs, worker and starts |
| SchedulerRemoval.RemovedStillStarts | buster/kernel/scheduler.py:103-105 | A job removed while pending in the heap is started by the worker once its time has passed |
| SchedulerRemoval.HeldStillStarts | buster/kernel/scheduler.py:103-105 | One removed while the worker holds it starts at once |
| SchedulerRemoval.NotCancellable | buster/kernel/scheduler.py:94-105 | A removed job cannot be cancelled until it is pushed again |
| SchedulerRemoval.CancellableExactly | buster/kernel/scheduler.py:94-105 | After its removal, and until the next one, a job can be cancelled if and only if it is pending and has been pushed again |
| Scheduler.Scheduler.Create | buster/kernel/scheduler.py:82-90 | A new pending job with run_at from the clock and the non-negative part of the delay, in neither heap nor table yet |
| Scheduler.Scheduler.Push | buster/kernel/scheduler.py:76-80 | Heap and table gain the job, as in the model's step |
| Scheduler.Scheduler.Schedule | buster/kernel/scheduler.py:82-92 | Create and push |
| Scheduler.Scheduler.Cancel | buster/kernel/scheduler.py:94-101 | True exactly when the table has the job pending, and then it is cancelled; otherwise nothing changes |
| Scheduler.Scheduler.Remove | buster/kernel/scheduler.py:103-105 | The table loses the id; the heap stays |
| Scheduler.Scheduler.DropExpired | buster/kernel/scheduler.py:126-128 | The inner loop drops the leading entries that are not pending, from heap and table |
| Scheduler.Scheduler.SweepAndCheck | buster/kernel/scheduler.py:125-136 | Sweep and due time as in the model's step |
| Scheduler.Scheduler.PopDue | buster/kernel/scheduler.py:139-142 | The least entry leaves the heap and the worker holds its job |
| Scheduler.Scheduler.Begin | buster/kernel/scheduler.py:143-146 | Marks the job running exactly when it is still pending |
| Scheduler.Scheduler.Finish | buster/kernel/scheduler.py:148-155 | Completed or failed, as the function ended |
| Scheduler.Scheduler.Rearm | buster/kernel/scheduler.py:157-159 | The next run_at is the interval from now, and the job is pending |
| Scheduler.Scheduler.Repush | buster/kernel/scheduler.py:160-162 | Heap and table gain the job again |
| FileRpc.StepKeeps | buster/runtime.py:208-235 | Every step of client or server keeps the invariant over files, calls, server and execution log |
| FileRpc.Reachable | buster/runtime.py:208-235 | So the invariant holds in every interleaving from empty directories |
| RpcFacts.OneSequentialHistory | buster/runtime.py:208-235 | The executions form one sequential history of the kernel, and each request occurs in it at most once |
| RpcFacts.ReturnsOwnResult | buster/runtime.py:537-560 | A call that returned was executed exactly there, with its own operation and result, after it began and before it returned |
| RpcFacts.LaterCallsSeeEffects | buster/runtime.py:537-560 | A call begun after another returned is executed after it, on a kernel that includes its effects |
| RpcFacts.ReplyLostExactly | buster/runtime.py:225-235 | In every run, once the server is done with an executed request whose caller has not given up, the caller has its reply or finds it if and only if its arguments did not replace the request id |
| RpcProgress.PollReturns | buster/runtime.py:549-555 | A poll that finds a reply takes it: the call returns the response of its own execution and the file is gone |
| RpcProgress.EmptyPoll | buster/runtime.py:549-556 | A poll that finds none changes nothing |
| RpcProgress.WaitingCallReturns | buster/runtime.py:208-235 | After any interleaving, server steps and the caller's polls alone make a waiting call addressed to its own id return, with the response of its execution |
| RpcProgress.NewCallReturns | buster/runtime.py:537-556 | A call made at any time can be brought to return, with what its own operation gives on the kernel of its turn |
| RpcProgress.GivingUp | buster/runtime.py:558-560 | A caller that gives up takes away what lies at its id |
| RpcProgress.GivenUpStays | buster/runtime.py:558-560 | Its call stays given up, whatever follows |
| RpcProgress.GivenUpStillRuns | buster/runtime.py:558-560 | The server by itself still comes to execute its request |
| RpcProgress.NoEmptyReply | buster/runtime.py:232-234 | No reply is ever written under an empty id |
| RpcFacts.OverriddenCallsNeverReturn | buster/runtime.py:544-560 | A call whose arguments replace the request id never gets a response |
| RpcFacts.RepliesAreOwn | buster/runtime.py:225-235 | A reply file under a request id holds that request's response |
| RuntimeServer.RuntimeServer.Dispatch | buster/runtime.py:225-235 | One execution, one reply if there is an id to address, the request file gone |
| RuntimeServer.RuntimeServer.ServeNext | buster/runtime.py:213-223 | The next listed request is read, executed on the kernel and answered at the id it names |
| RuntimeServer.RuntimeServer.ProcessPending | buster/runtime.py:208-223 | One pass executes every listed request once, in listing order, leaves the kernel and the replies of serving them one after the other, and empties the directory |
| RuntimeServer.OwnReplies | buster/runtime.py:208-235 | Each request of a pass addressed to its own id finds there the response of its operation on the kernel left by those in front of it |
| RuntimeLock.RuntimeLock.Acquire | buster/runtime.py:125-150 | Succeeds exactly when there is no lock file, or one of no live process that the first removal takes away, and then the file names the caller; a live holder's file is unchanged, and a removal that succeeds only the second time leaves no file |
| RuntimeLock.HeldExactly | buster/runtime.py:136-149 | The lock is held if and only if the file names a live process; a missing, unreadable or stale file lets a start through |
| RuntimeLock.StartServer | buster/runtime.py:182-190 | A start on the real lock is the step of the runs below: refused with nothing changed, or the caller serves and the file names it |
| RuntimeLock.CloseServer | buster/runtime.py:201-203 | So is a close |
| RuntimeLock.AtMostOneRuntime | buster/runtime.py:119-120 | In every run of starts, closes, deaths and recoveries, failing removals included, no two processes serve, and the one that serves is alive and named by the file |
| RuntimeLock.OnlineIffServing | buster/runtime.py:161-163 | `is_online` holds exactly when a process serves, unless a PID in a stale file was given to a new process or a close failed to remove the file |
| RuntimeLock.StartRefusedIffServed | buster/runtime.py:182-190 | A start is refused while a runtime serves; after it is gone a start succeeds exactly when it left no file or the first removal takes it away |
| ArArchive.ParseAr | buster/osbuild/deb.py:34-62 | The loop gives a ValueError without the magic, the kept members once it ends, and reports exactly the inputs on which it never ends |
| ArArchive.ParseInvertsMake | buster/tests/test_osbuild.py:29-49 | Reading an archive laid out as there gives its members, odd and empty sizes included |
| ArFacts.WhereNext | buster/osbuild/deb.py:47-59 | From a header the loop comes to the same header if and only if its size is -60 or -61, and to an earlier offset if and only if it is smaller |
| ArFacts.EndlessExactly | buster/osbuild/deb.py:44-59 | The loop never ends if and only if it comes to some offset a second time |
| ArFacts.FirstHeaderForEver | buster/osbuild/deb.py:44-59 | An archive whose first size is -60 or -61 is read for ever, whatever else it holds |
| ArFacts.FirstHeaderGoesBack | buster/osbuild/deb.py:44-59 | One whose first size is -62 goes back two bytes and ends with one empty member |
| ArFacts.SizesEnd | buster/osbuild/deb.py:44-59 | If no header the loop comes to has a size below -59, natural sizes in particular, the loop ends |
| ArFacts.NothingPastTheEnd | buster/osbuild/deb.py:52-56 | With natural sizes there, each member's data are the bytes between its header and its size's end, inside the archive |
| ArFacts.ParsePrefix | buster/osbuild/deb.py:44-62 | An archive whose loop ends and comes to no body ending in front of the data, cut anywhere behind the magic, gives an initial part of its members |
| ArFacts.CutChangesBody | buster/osbuild/deb.py:52-56 | An archive whose first body ends in front of the data gives another first member when it is cut |
| ArFacts.DroppedExactly | buster/osbuild/deb.py:46-61 | A member is dropped if and only if its name field begins with `//` and holds more than slashes and spaces; a field of those alone reads as an empty name and stays |
| ArFacts.MagicText | buster/osbuild/deb.py:40 | The magic is `!<arch>` and a line feed |
| Text.AsciiSpaces | buster/shell/parser.py:41 | What counts as whitespace in ASCII |
| Text.NumbersRead | buster/osbuild/resolver.py:23 | `int` reads a sign and single underscores between digits, no others |
| Text.LowerExactly | buster/intelligence/attention.py:45-47 | Lower-casing changes ASCII capitals to their small letters and nothing else |
| ShellParser.Tokenize | buster/shell/parser.py:22-51 | The loop gives the tokens of the line |
| ShellParser.TokenizeAgain | buster/shell/parser.py:22-51 | Tokenizing the space-joined tokens of any line gives the same tokens, unclosed quotes included |
| ShellParser.TokensKeepText | buster/shell/parser.py:23 | The tokens together are the line without the whitespace outside quotes |
| ShellParser.Parse | buster/shell/parser.py:65-117 | The loop gives the command's name, arguments and coerced options, nothing for a blank line |
| ShellParser.CoerceKeeps | buster/shell/parser.py:105-117 | Natural numbers are coerced exactly, and what stays text stays the same text |
| ShellParser.ArgumentsOnly | buster/shell/parser.py:79-100 | Tokens are read as arguments only, in order, exactly when none looks like an option |
| ShellParser.CommandRoundTrip | buster/shell/parser.py:65-102 | A command written as words in quotes of either kind, arguments, flags, `--key=value`, `--key value` and letters in any order a flag allows, reads back with that name, those arguments and those options, the later of one key winning |
| ShellParser.TypedAssignment | buster/shell/parser.py:54-62 | `name --key="value"`, in quotes of either kind, reads as that option whatever else the value holds |
| ShellParser.PlainWordsAreTokens | buster/shell/parser.py:22-51 | Words without whitespace and quotes, joined by spaces, are the tokens as they are |
| ShellParser.DashesExactly | buster/shell/parser.py:79-100 | A word is read as an option only if it begins with two dashes or is a dash and one character |
| ShellParser.TruthsRead | buster/shell/parser.py:107-109 | Truth values are read in any case |
| ShellParser.NegativesRead | buster/shell/parser.py:110-113 | Negative integers come through exactly |
| ShellParser.DecimalsRead | buster/shell/parser.py:110-117 | Digits around a point are a decimal |
| ShellParser.QuotedWordsParse | buster/shell/parser.py:54-102 | Words in quotes of either kind, joined by spaces, parse back to name and arguments with no options exactly when no word after the first looks like an option |
| Attention.CriticalPasses | buster/intelligence/attention.py:39-64 | A critical signal passes the threshold whatever the rhythm, goals and history |
| Attention.AcceptedExactly | buster/intelligence/attention.py:39-64 | Which signals pass, for every kind and level, told by novelty, relevance and rhythm instead of scores |
| Attention.RelevantExactly | buster/intelligence/attention.py:44-49 | A message is relevant if and only if a word of some goal, cut at whitespace, occurs in it, letters compared without case |
| Attention.ScoresRank | buster/intelligence/attention.py:39-55 | With all else equal the score grows with urgency, novelty and relevance and falls with a tighter rhythm, and novelty outweighs relevance |
| Attention.ScoresWorked | buster/intelligence/attention.py:39-55 | The scores of something new that no goal is about, by level |
| Attention.RoutineRepeatSuppressed | buster/intelligence/attention.py:50-64 | A routine reading whose message was seen is suppressed even when a goal mentions it |
| Attention.StableSortIsStable | buster/intelligence/attention.py:69 | The sort is descending and keeps the notes of each score in their order |
| Attention.StableOrderIsUnique | buster/intelligence/attention.py:69 | Being descending with given notes for each score determines the list |
| Attention.InsertThenCut | buster/intelligence/attention.py:68-71 | Cutting before inserting loses nothing a cut after inserting would keep |
| Attention.AdmitKeepsBest | buster/intelligence/attention.py:68-71 | Appending, sorting and cutting a queue that holds the best accepted notes gives the best with the new one |
| Attention.Attention.NoteSignal | buster/intelligence/attention.py:59-73 | Below the threshold nothing changes; otherwise the queue is the first `capacity` of the stable descending order of all notes accepted since the last consume or clear |
| Attention.Attention.Peek | buster/intelligence/attention.py:84-85 | An initial part of the queue, as Python slices it, for negative limits too |
| Attention.Attention.Consume | buster/intelligence/attention.py:87-90 | What is taken and what is left make up the old queue |
| Attention.Attention.Clear | buster/intelligence/attention.py:92-93 | The queue is empty and the seen messages stay |

## Left out

- Rootfs.Rootfs.InstallPayload: requires one owner for each path (`OneOwner`). Without it the source raises on a directory whose name is taken, or writes through a staged link; neither is modelled.
- Rootfs.Rootfs.InstallPayload: member paths are `Plain`, with no empty, `.` or `..` component and no backslash; `_record` rewrites backslashes and `_path` refuses paths that leave the root.
- Rootfs.Rootfs.BuildLayout: nothing is staged that was not recorded; files left from elsewhere in the staging directory would be packed too.
- Other writers of the root filesystem (dpkg state, base configuration, account files, the Buster layer): like the os-release writer they write before they record, and raise where a payload file would become an extra member. The dpkg writer also looks at the staging tree: it writes an empty diversions file where none is staged (rootfs.py:285-287), so even over one that a host kept as an extra member.
- Rootfs.Rootfs.WriteOsRelease: a failing write, and an `etc/os-release` that is a directory, make the source raise; neither is modelled. Nor is an unlink that fails: the source goes on, cannot make the link over what is there, and writes the copy through it.
- OsRelease.OsReleaseHostsAgree: the writer's files at no link or directory (`Writable`). There the source writes through the link, or raises.
- Builds.Build: like `InstallPayload`, one owner for each path and plain member paths.
- Builds.BuildOnTwoHosts: the same two conditions.
- Hosts that fold case: every modelled host keeps distinct paths distinct, where a Windows host would write `a` over `A`.
- uid, gid and timestamps of archive entries, `_chmod` on the staging tree, and a write that fails half-way and leaves bytes behind.
- `tarfile`: members come as a sequence of name, mode and content; sizes and headers of the written archive are not modelled.
- Versions.SplitVersion: `int` on ASCII text only; Unicode digits, and the interpreter's limit on the length of a number, are not modelled.
- Packages.ParsePackages: works on the lines that `splitlines` gives.
- ShellParser.Parse: a float option keeps its text, so its rounding is not modelled; Unicode digits are not read as numbers.
- ArArchive.ParseAr: keeps the offsets it came to, which the source does not, to stop where the source would not end.
- ArArchive.ParseAr: names stay bytes; the lossy UTF-8 decoding of a name is not modelled.
- Attention.Attention.NoteSignal: scores are in tenths, so rounding of floating-point sums is not modelled; lower-casing is that of ASCII letters. Time stamps, details and the event that is emitted are left out.
- Scheduler.Scheduler.Push: the heap is modelled by the contract of `heapq`, as its entries in order, not by its array layout.
- Scheduler.Scheduler.Begin: the check of a popped job and marking it running (scheduler.py:143-146) are one step; a cancel between them would be overwritten. So are `run_at` and `status` of re-arming (157-158).
- Scheduler.Scheduler.SweepAndCheck: the wait that follows, wake-ups, `start` and `stop` are left out; time is any non-decreasing clock.
- FileRpc.StepKeeps: request ids are fresh, as are ids that replace them; the server does not crash, removals succeed and files are complete JSON. The sweep of broken requests older than a limit and JSON encoding are left out, and operations are one function on a kernel state. The client's check that a runtime is online before it writes is left out; a failing operation is a result like any other.
- RuntimeServer.RuntimeServer.ProcessPending: client steps do not occur within the pass; the state machine in `FileRpc` has them.
- RuntimeLock.RuntimeLock.Acquire: one step. Finer interleavings do not keep mutual exclusion: the file is empty between its creation and the write of its PID, and a stale file may be removed after another process replaced it.
- RuntimeLock.CloseServer: the two releases of one shutdown are one step.
- `EventRouter`, permissions, registry, memory, goals, rhythm, manifests: their invariants hold by one reading.
- Network, downloads, decompression, checksums, `verify_rootfs`, command line, GUI, mobile client, language models and sensors: I/O or foreign code.

# ise2ise: verified model

ise2ise moves configuration between two Cisco ISE deployments that share nothing:
every cross-reference is a UUID on a deployment and a name in the bundle that
travels between them. An export turns UUIDs into names, a pre-flight decides for
every object whether it is created, skipped or blocked, and an apply pass posts
what was cleared, in dependency order, to a target that may refuse any write.

This project models those passes in Dafny and proves what whole runs guarantee.
`dafny verify dfyconfig.toml` checks it.

## How it is built

A deployment is a class holding its collections and an oracle of answers: request
number `n` is accepted (under a fresh id), refused, or answered as a duplicate, in
any pattern. The passes are methods over that class, a report and a result object,
with the loops and branches of the program; each is proved equal to a
specification function (`Preflight`, `Step`, `Apply`, ...), and the lemmas about
whole runs are about those functions. Each run keeps a ghost log: what became of
every report entry, what body was sent, and the target at that moment.

| files | what they hold |
|---|---|
| `Objects`, `ObjectPaths`, `Report`, `Picking` | JSON objects, null and link stripping and what that does place by place; the report and its counters; picking things off a list |
| `TrustSecStore`, `TrustSec`, `TrustSecGrowth`, `TrustSecTheorems`, `TrustSecCells`, `TrustSecMore`, `TrustSecVerdicts`, `TrustSecArrivals`, `TrustSecImport` | groups, SGACLs and egress cells: what is specified, what a run keeps, what whole runs guarantee, which objects are cleared and what arrives of them, the program's own loops |
| `Conditions`, `ConditionPaths`, `ConditionTrees` | condition trees cleaned, checked and rewritten, as values, node by node, and as shared objects |
| `PolicySets`, `PolicySetNames`, `PolicySetRuns`, `PolicySetTheorems`, `PolicySetRetry`, `PolicySetEnvironment`, `PolicySetArrivals`, `PolicySetCompletion`, `PolicySetOnce`, `PolicySetWitnesses`, `PolicySetVerdicts`, `PolicySetRequests`, `PolicySetContent`, `PolicySetImport` | policy sets: the same split, from the specification to the loops, and when an earlier import is completed |
| `Endpoints`, `EndpointTheorems`, `EndpointVerdicts`, `EndpointImport` | endpoint identity groups and endpoints |
| `DeviceGroups`, `DeviceGroupRuns`, `Segments` | hierarchical groups, the ancestors they need, and their creation |
| `Marker`, `Drift`, `Sorting` | the description marker, field-by-field comparison, and sorting by a text |
| `WorkerPool`, `Paging`, `Csrf` | the API client: parallel reads, pagers, nonces |
| `Translate`, `Labels` | network device CSV columns and rows, and the labels of its columns |

The functions that specify a pass are themselves characterised: for each there is a
lemma that says what it decides, sends, carries or counts in terms of the bundle, the
target and the log alone, with the program's own constants written out. Those are
mostly in the files called `...Verdicts`, `...Arrivals`, `...Content`, `...Requests`,
`...Paths` and `Labels`.

A text is the sequence of its bytes, so lengths and cuts are the program's own.

Where the program does not always do what its comments or tests lead one to expect,
the result is an exact condition, and a lemma gives an input at which it fails:

- *Nothing dangling is posted.* Pre-flight counts on library conditions the run has
  yet to create. A tree that is sent is grounded in the target's ids if and only if
  every name in it has one by then (`PolicySetArrivals.SentTreesGroundedExactly`);
  when the create of a condition is refused, the set that refers to it is posted all
  the same (`PolicySetWitnesses.SetLandsDangling`).
- *An earlier import gets the rules it lacks.* A rule of the set the first run put
  there is sent by a later run if and only if the set went in under its own name, on
  the later run the whole set resolves, and it holds no rule of that name
  (`PolicySetOnce.RuleIsSentExactly`). A set that went in beside a stranger's is
  never completed (`PolicySetWitnesses.RuleBesideIsNotSent`), and one unresolved rule
  blocks the set and with it every rule that does resolve
  (`PolicySetWitnesses.RuleOfBlockedSetIsNotSent`); so for a set other than Default
  the later rule-by-rule check never finds anything. The comparison is by name: a
  refused rule that shares its name with one that is there is never sent again.
- *What landed is not sent again.* It is not, whatever the target can name by then
  (`PolicySetOnce.NothingLandsTwice`), as long as the rules of the sets merged into
  can be listed: a list that cannot be read counts as empty, and a merge sends
  exactly what it could not list (`PolicySetOnce.MergeSendsExactly`,
  `PolicySetOnce.UnlistedRuleIsSentAgain`).
- *The marker can be taken off again.* `Marker.StripTagExact`,
  `Marker.EndingInPrefixIsLost`.
- *An imported object matches its source on the next run.* `Drift.NoSelfDrift`,
  `Drift.DescriptionDrifts`, `Drift.NestedNullDrifts`.
- *An endpoint pre-flight cleared resolves.* `EndpointTheorems.UnresolvedExactly`,
  `EndpointTheorems.RefusedGroupLosesItsEndpoint`.
- *Nothing in a CSV row is lost silently.* `Translate.NothingLostSilently`,
  `Translate.BeyondHeaderIsLost`.
- *A group of the bundle arrives as it is.* On a target that takes everything, if and
  only if no other group of the bundle needs it or it carries nothing but what its
  name gives: one that is needed is created from its name alone, and its own create
  is then answered as a duplicate (`DeviceGroupRuns.ContentArrivesExactly`,
  `DeviceGroupRuns.DescriptionIsLost`).
- *A failed lookup says so.* An id that did not resolve is remembered under itself,
  so the second lookup reports success (`TrustSecImport.LookUpTwice`). Only the name
  is stable, and everything else here depends on the name alone.

That a write is applied at most once rests on one assumption about the deployment:
an answer that is an HTTP error leaves nothing behind.

## Model

| member | source | states |
|---|---|---|
| TrustSecTheorems.RerunRetriesOnlyWhatDidNotLand | trustsec.go:189-540 | for any bundle, target and pattern of answers: whatever the second pre-flight clears, the first had cleared for the same object and it did not land |
| TrustSecTheorems.CompletedRunIsFinal | trustsec.go:189-540 | when everything cleared landed, a second run sends nothing and leaves the target as it is, whatever it would have answered |
| TrustSecTheorems.SentCellsMeanWhatTheyCarry | trustsec.go:547-578 | a cell that is sent says on the target what the bundle's says if and only if the bundle's names its SGACLs; then every id sent is the target's at that moment, for the source, the destination and the whole SGACL list in order |
| TrustSecCells.CellSentExactly | trustsec.go:547-578 | a cleared cell is sent if and only if each group and SGACL it names was on the target before the run or landed in it |
| TrustSecCells.ClearedCellsAreSent | trustsec.go:327-343 | when of every group and SGACL sent one create of its name lands, each cleared cell is sent, whatever becomes of a second create of that name |
| TrustSecCells.LandedCellIsSkippedAsIs | trustsec.go:281-317 | on the next pre-flight a landed cell of a bundle with distinct pairs is skipped as taken, compared with the very cell the index keeps; the drift list is empty if and only if the cell names its SGACLs |
| TrustSecCells.LandedCellHasNoDrift | trustsec.go:433-455 | after any run the target holds, for each landed cell, one governing the same pair, with no drift against the bundle's if and only if that names its SGACLs |
| TrustSecCells.CellProvenance | trustsec.go:504-540 | every cell the target gains says what some landed item of the report carries, the SGACLs exactly when that names them |
| TrustSecMore.TagValuesStayDistinct | trustsec.go:197-266 | distinct listed tag values stay distinct under any run of a bundle with distinct values, and the target's own objects are as they were, in order |
| TrustSecMore.EveryItemIsCounted | trustsec.go:458-542 | every report item is counted exactly once, in the counter of what became of it, unless apply returned before it |
| TrustSecMore.ReachedExactly | trustsec.go:458-542 | apply returns before an item if and only if the target's ids cannot be read and a cell is to be created there or earlier; it passes over exactly what is not to be created |
| TrustSecVerdicts.ReportsEveryItem | trustsec.go:189-317 | every group, SGACL and cell of the bundle is in the report as often as in the bundle, and nothing else is |
| TrustSecVerdicts.ReportsInOrder | trustsec.go:189-317 | in any report groups stand before SGACLs and cells, and cells after both |
| TrustSecVerdicts.GroupClearedExactly | trustsec.go:249-266 | a group is cleared if and only if no listed group has its name and none has its tag value |
| TrustSecVerdicts.SgaclClearedExactly | trustsec.go:268-275 | an SGACL is cleared if and only if none of its name is listed |
| TrustSecVerdicts.CellClearedExactly | trustsec.go:281-317 | a cell is cleared if and only if it is not ANY to ANY, names a source and a destination, each group and SGACL it names is listed on the target or cleared by the same report, and no listed cell governs its pair |
| TrustSecVerdicts.GovernsThePair | trustsec.go:322 | the NUL-joined key tells pairs apart for names without a NUL |
| TrustSecVerdicts.CellReasonHolds | trustsec.go:281-345 | the reason given for a cell that is not cleared is so: the name it blames is neither listed nor about to be, the cell it is compared with governs the pair |
| TrustSecVerdicts.DefaultCellIs | trustsec.go:402-423 | the ANY to ANY cell is always skipped, and compared by rule and SGACLs with a listed cell of that pair when there is one |
| TrustSecVerdicts.NotedExactly | trustsec.go:302-304 | noted are exactly the cells, in order, that name only what is or will be there and hold both a catch-all rule and an SGACL, cleared or not |
| TrustSecVerdicts.GroupReasonHolds | trustsec.go:249-264 | a group is left out for a tag value only when a listed group of another name holds that value, and skipped as present only against a listed group of its name, with that one's drift |
| TrustSecVerdicts.CellDriftExactly | trustsec.go:425-455 | a difference of rule, status or SGACLs is reported if and only if there is one, an absent rule being NONE and an absent status of the bundle's none |
| TrustSecVerdicts.ExistsDriftExactly | trustsec.go:347-401 | a field is reported if and only if the two copies say different things in it: nulls, no, empty texts and empty lists say nothing, and ids, links and local counters are not compared |
| TrustSecArrivals.LandedWhole | trustsec.go:488-540 | for every item that landed, the target holds at the end an object of its kind with every property of the bundle's that is not null and no other, its own id and the references aside |
| TrustSecArrivals.ExportIs | trustsec.go:147-162 | a bundle has of a group or an SGACL exactly every property but its id, its link and its local counters, without links below, and its kind |
| TrustSecArrivals.ExportCellIs | trustsec.go:79-162 | and of a cell likewise, beside its references |
| TrustSecMore.ExportKeepsMeaning | trustsec.go:79-162 | the bundle's copy of a cell says by name what the cell says by id if and only if no SGACL of it has an empty name; it lists no SGACL id in any case |
| TrustSecMore.MigrationKeepsMeaning | trustsec.go:79-578 | a cell exported from one deployment and sent to another refers to present objects, and means there what it meant on the source if and only if no SGACL of it has an empty name |
| TrustSecTheorems.LandedStays | trustsec.go:458-542 | what landed is on the target at the end of the run, under its name or its pair |
| TrustSecTheorems.Provenance | trustsec.go:488-540 | every group and SGACL added was cleared by the report, under its name and with its tag value |
| TrustSecTheorems.WillExistSgtsShrinks | trustsec.go:229-266 | the group names a later pre-flight counts on are among those the first counted on |
| TrustSecGrowth.MeaningGrows | trustsec.go:488-540 | no create changes what a cell already on the target means |
| TrustSecGrowth.ResolvedMeaning | trustsec.go:547-578 | a resolved cell refers only to present ids and means what the bundle's copy carries |
| TrustSec.NoneAbsent | trustsec.go:327-343 | a cell passes the name check exactly when every SGACL it lists is there |
| TrustSecImport.NameResolver.Lookup | trustsec.go:167-184 | the name is a function of the id alone; success is reported for an id looked up before, failed or not |
| TrustSecImport.LookUpTwice | trustsec.go:167-184 | an id no read resolves: the first lookup fails, the second reports success |
| TrustSecImport.ComputeCellDrift | trustsec.go:433-455 | the three differences reported are the three there are, through any resolver state |
| TrustSecImport.PreflightTrustSec | trustsec.go:189-317 | the loops append exactly the specified verdicts, groups before SGACLs before cells, note the cells with a catch-all rule beside SGACLs, and read only |
| TrustSecImport.DecideSgts | trustsec.go:229-266 | one pass gives the group verdicts and the names that will exist |
| TrustSecImport.DecideCells | trustsec.go:281-317 | a cell is decided against the names that will exist, whole; the default cell is compared and never written |
| TrustSecImport.ResolveCellRefs | trustsec.go:547-578 | the names are replaced by the target's ids, or the first missing name is given |
| TrustSecImport.ApplyTrustSec | trustsec.go:458-542 | the loop does what Apply specifies, counters included; the early return leaves the rest unreached |
| TrustSecImport.ExportOneCell | trustsec.go:79-135 | rewriting a cell in place gives the specified copy |
| TrustSecImport.ExportTrustSec | trustsec.go:40-150 | every listed object is exported once, the cells by name, sorted by kind and then by name whatever its case |
| TrustSecImport.ExportOrder | trustsec.go:32-39 | in an export groups stand before SGACLs before cells, and within a kind by name whatever its case |
| TrustSecStore.ResolveIs | trustsec.go:167-184 | an id is read as the name of the listed object under it, else of the object a read by id returns if it has a name, else as itself |
| Conditions.AcceptedTreesArriveGrounded | policy_sets.go:157-892 | an accepted tree whose conditions all have ids arrives with exactly the target's id at every named reference, no source id or link at any depth, and cleans back to the same tree |
| Conditions.RewriteGrounds | policy_sets.go:871-892 | a cleaned, rewritten tree is grounded if and only if every name in it has an id |
| Conditions.CleanUndoesRewrite | policy_sets.go:157-185 | cleaning a rewritten tree gives the cleaned tree back |
| Conditions.CleanTwice | policy_sets.go:157-185 | cleaning is idempotent at every depth |
| Conditions.RewriteKeepsVerdict | policy_sets.go:521-559 | rewriting, which also reaches the report's own objects, changes no verdict |
| Conditions.CheckedNamesHaveIds | policy_sets.go:521-559 | an accepted tree names only conditions that were counted on |
| Conditions.CheckMonotone | policy_sets.go:521-559 | what resolves where less is known resolves where more is |
| ConditionPaths.CheckExactly | policy_sets.go:521-559 | a tree is accepted if and only if every node at every depth resolves: a named reference to a known condition, an attribute to a known dictionary and, where its attributes are known, to one of those |
| ConditionPaths.FindingIsReal | policy_sets.go:521-559 | what a refused tree is refused for is named by a node of it that does not resolve |
| ConditionPaths.CleanAt | policy_sets.go:157-185 | cleaning takes the id and the link of every node at every depth and leaves everything else as it was |
| ConditionPaths.RewriteAt | policy_sets.go:871-892 | rewriting gives exactly the named references that have a nonempty id on the target that id, at every depth, and leaves everything else as it was |
| ConditionTrees.RewriteInPlace | policy_sets.go:871-892 | the heap recursion, over nodes that may be shared, turns the tree they stand for into the rewritten value, touching nothing else |
| ConditionTrees.RewriteTwice | policy_sets.go:871-892 | rewriting a node a second time changes nothing |
| PolicySetRetry.RerunRetriesOnlyWhatDidNotLand | policy_sets.go:321-775 | whatever a second run sends, set or rule, the first had tried and did not get in |
| PolicySetOnce.NothingLandsTwice | policy_sets.go:321-775 | nothing that landed in one run is sent in the next, whatever the target can name by then, when rule lists can be read |
| PolicySetOnce.MergeSendsExactly | policy_sets.go:731-775 | a merge sends a rule if and only if it is not a default one and not among those that could be listed |
| PolicySetOnce.UnlistedRuleIsSentAgain | policy_sets.go:731-745 | such a run: a rule landed, the list could not be read, and it is sent again |
| PolicySetRetry.CompletedRunIsFinal | policy_sets.go:321-775 | when everything sent landed and was read back, a second run sends nothing and the target stays as it is |
| PolicySetEnvironment.RerunAcrossFamilies | policy_sets.go:210-307 | after a TrustSec import and a policy set import, each under any refusals, a re-run of the policy sets only retries what did not land, when the other families' lists gained only what they were cleared to create |
| PolicySetEnvironment.SecondRunCountsOnNoMore | trustsec.go:581-596 | what a second run may name lies within what the first could; for security groups because that is what a TrustSec import leaves behind |
| PolicySetEnvironment.CountedOn | policy_sets.go:210-307 | exactly which groups, stores, profiles, conditions, services and dictionaries a bundle may name: those listed, those built in, and those the report of this run clears |
| PolicySetRetry.CreatedBefore | policy_sets.go:321-371 | a set a later pre-flight would create is one the earlier would have created, under the same name |
| PolicySetCompletion.MergesExactly | policy_sets.go:336-427 | pre-flight adds rules to an earlier import if and only if it holds the set's own name, carries the marker, lacks a non-default rule, and the set resolves whole |
| PolicySetCompletion.LeftOutRuleIsSentExactly | policy_sets.go:321-775 | over two runs, whatever the target can name or list by the second: a rule of a name that is not in the set the first run put there is sent by the second if and only if the set went in under its own name and by then resolves whole |
| PolicySetOnce.RuleIsSentExactly | policy_sets.go:321-775 | the same for every rule of the set, with lists that can be read: it is sent if and only if, besides, no rule of its name is there |
| PolicySetCompletion.BesideStaysIdle | policy_sets.go:352-360 | a set that went in beside a stranger's has no entry that sends anything on a later run |
| PolicySetWitnesses.RuleBesideIsNotSent | policy_sets.go:352-360 | such a run: the rule was refused beside a stranger's set, resolves, and is not sent again |
| PolicySetWitnesses.RuleOfBlockedSetIsNotSent | policy_sets.go:364-375 | such a run: the set went in under its own name, one of two refused rules no longer resolves, and the other, which does, is not sent again |
| PolicySetRetry.MineMerged | policy_sets.go:375-427 | an own import that resolves whole and lacks a rule gets an entry that merges into it |
| PolicySetArrivals.LogAccountsForTarget | policy_sets.go:597-775 | the target after any run is the target before it with the requests that landed added in order |
| PolicySetContent.LandedRuleIsThere | policy_sets.go:781-868 | over whole runs, for every rule request that landed, the set it was sent to holds at the end a rule with the bundle rule's name, default flag, source, profiles and group, a tree that cleans to the bundle's and is grounded exactly when every name has an id, and the bundle's state when states are kept |
| PolicySetContent.LandedSetIsThere | policy_sets.go:606-680 | for every set request that landed, the set under its id has the name asked for, the bundle's service, such a tree, the bundle's state when states are kept, and the marked description |
| PolicySetRequests.RuleProvenance | policy_sets.go:597-868 | no rule is on the target at the end that was not there, is not one the target gives a new set, and did not come with a landed request for that very set |
| PolicySetRequests.SetIsSentExactly | policy_sets.go:597-720 | over a whole run a set is sent under a name if and only if it resolves whole and that is the name to give it |
| PolicySetRequests.EntrySends | policy_sets.go:597-775 | what each entry sends: a merge exactly the rules that are no default and not listed, a new set itself and then every rule that is no default, authentication before authorization, in the bundle's order, each with the next answer |
| PolicySetRequests.RunIsCounted | policy_sets.go:597-868 | each counter is exactly what happened, a refused rule counted as failed twice and a set that landed but could not be read back as failed |
| PolicySetArrivals.NothingUnresolvedIsSent | policy_sets.go:364-447 | no set with an unresolved name at any depth, no rule with one, and no default rule is ever sent |
| PolicySetArrivals.SentTreesGroundedExactly | policy_sets.go:606-892 | over whole runs, a tree that is sent carries the target's ids at every depth and nothing of the source's if and only if every name in it has an id by then |
| PolicySetArrivals.SentTreesAreGrounded | policy_sets.go:286-290 | so every tree sent is grounded when each condition pre-flight counted on has an id by then |
| PolicySetWitnesses.SetLandsDangling | policy_sets.go:871-881 | a run in which one did not arrive: the set is cleared, sent and lands with a reference without an id |
| PolicySetArrivals.NothingArrivesEnabled | policy_sets.go:628-868 | unless states are kept, every set and rule that arrives is disabled, and the target's own sets and rules are unchanged and in order |
| PolicySets.CheckersAgree | policy_sets.go:451-518 | the whole-set checker accepts exactly when service, own tree and each rule by the rule checker are accepted |
| PolicySets.AuthnAgree | policy_sets.go:946-972 | the two checkers give one verdict on authentication rules |
| PolicySets.AuthzAgree | policy_sets.go:946-972 | the two checkers give one verdict on authorization rules |
| PolicySetVerdicts.RuleCheckedExactly | policy_sets.go:946-972 | a rule is accepted if and only if its source or its profiles and its group are known and its tree resolves node by node |
| PolicySetVerdicts.SetCheckedExactly | policy_sets.go:451-518 | a set is accepted if and only if its service is known, its tree resolves, and everything its rules name does |
| PolicySetVerdicts.CreatedExactly | policy_sets.go:321-371 | a set is cleared under a name if and only if it has one of its own, is not Default, resolves whole, and the name is its own where no set has it, or else, beside a stranger's, the first candidate nobody has with none but strangers' sets before it |
| PolicySetVerdicts.BlockedExactly | policy_sets.go:321-371 | a set is blocked if and only if it has no name, or is not Default and something it names is not there |
| PolicySetVerdicts.KeptExactly | policy_sets.go:416-437 | of the Default set exactly the rules that resolve are merged, in order |
| PolicySetVerdicts.MissingExactly | policy_sets.go:375-408 | reported as missing are exactly the names, in order, of the rules that are no default, are not there and resolve |
| PolicySetVerdicts.ReportsInOrder | policy_sets.go:321-448 | the report follows the bundle's order, with an entry for every set |
| PolicySetVerdicts.SuffixIs | policy_sets.go:925-940 | the candidates are the name with (imported), (imported 2), (imported 3) and so on behind it |
| PolicySetNames.FreeNameIs | policy_sets.go:925-940 | the name found is the first candidate nobody has, and there is none exactly when an own import is met first or 99 are taken |
| PolicySetNames.FreeNameKept | policy_sets.go:925-940 | the search finds the same name after own sets were added, when it still finds one |
| PolicySetNames.CandidatesDiffer | policy_sets.go:925-940 | sets of different names never compete for one candidate |
| PolicySetNames.ReportTargets | policy_sets.go:321-371 | no two entries create a set under one name |
| PolicySetTheorems.Reached | policy_sets.go:597-775 | at every entry of any run the target has only grown, ids and names still tell its sets apart, and the entry can be carried out |
| PolicySetTheorems.PostOfEntry | policy_sets.go:597-775 | every request is sent for one entry of the report |
| PolicySetRuns.StepDone | policy_sets.go:597-775 | one entry adds only its own requests, in full, and changes nothing the target had |
| PolicySetImport.Deployment.PostSet | policy_sets.go:606-680 | an accepted set is stored marked, with the rules the target gives it, under a new id |
| PolicySetImport.FreeSetName | policy_sets.go:925-940 | the loop finds the specified name |
| PolicySetImport.Decide | policy_sets.go:321-447 | the entries of one bundle set, the one that adds missing rules first |
| PolicySetImport.PreflightPolicySets | policy_sets.go:202-448 | the loop gives exactly the specified report |
| PolicySetImport.CreateRule | policy_sets.go:781-868 | a rule is skipped, left out or sent as specified; a refused one is counted twice |
| PolicySetImport.CreateOneSet | policy_sets.go:597-720 | a set is sent, found again by name and filled, with every failure path |
| PolicySetImport.ApplyPolicySets | policy_sets.go:562-778 | the loop does what Apply specifies, counters included |
| EndpointTheorems.ArrivalsPointAtTheirGroup | endpoints.go:1490-1535 | under any refusals, an endpoint sent carries the id of a group the target then holds under the bundle's name, a profile likewise, no name, and no field only the newer API knows |
| EndpointTheorems.UnresolvedExactly | endpoints.go:1456-1520 | a cleared endpoint fails to resolve if and only if it names a group that the target did not have before the run and no create of which landed |
| EndpointTheorems.RefusedGroupLosesItsEndpoint | endpoints.go:1505-1520 | such a run: the group is refused, and its endpoint does not resolve |
| EndpointTheorems.GroupsAfter | endpoints.go:1456-1475 | the target's groups after the group pass are, by name, its own and those that landed |
| EndpointTheorems.ClearedEndpointsAreSent | endpoints.go:646-699 | when of every group sent one create of its name lands, no cleared endpoint fails to resolve |
| EndpointTheorems.RerunRetriesOnlyWhatDidNotLand | endpoints.go:646-699 | whatever a second pre-flight clears, the first had cleared; no group of that name and no endpoint of that MAC had landed |
| EndpointTheorems.CompletedImportIsFinal | endpoints.go:646-1535 | when everything sent landed, a second run clears nothing |
| EndpointTheorems.MembershipTravels | endpoints.go:110-140 | an endpoint exported from one deployment and sent to another keeps its MAC and is in the group, and under the static profile, of the same name, empty or not |
| EndpointTheorems.OwnEndpointsKeepTheirGroup | endpoints.go:1456-1535 | no run changes the group or the profile of an endpoint the target already had |
| EndpointTheorems.MemberLog | endpoints.go:1490-1535 | every cleared endpoint is tried once, in order, against the ids read after the groups, and counted once |
| EndpointTheorems.ResolvedArrives | endpoints.go:127-140 | resolution fails exactly on a missing name, and otherwise replaces both references |
| EndpointTheorems.NormalMacStays | endpoints.go:188-199 | normalising a MAC twice is normalising it once |
| EndpointVerdicts.SameMacExactly | endpoints.go:197-199 | two MACs are one if and only if, trimmed, they have the same letters whatever the case |
| EndpointVerdicts.CarriedExactly | endpoints.go:319-352 | an endpoint can be carried if and only if it has a MAC and its group, and a profile set by hand, are the source's |
| EndpointVerdicts.CarriedIs | endpoints.go:319-352 | what is carried of it: everything but its id, its link and its references, without links below, and its normalised MAC |
| EndpointVerdicts.ExportsExactly | endpoints.go:319-352 | exported are exactly the endpoints of wanted groups with something set by hand that can be carried |
| EndpointVerdicts.ExportsGroupsExactly | endpoints.go:242-268 | exported are exactly the groups of a wanted name, in order |
| EndpointVerdicts.GroupClearedExactly | endpoints.go:646-665 | a group is cleared if and only if it has a name no group of the target has |
| EndpointVerdicts.MemberClearedExactly | endpoints.go:667-699 | an endpoint is cleared if and only if it has a MAC no endpoint of the target has, its group is listed or cleared by the same report, and its profile is listed |
| EndpointVerdicts.SentWhole | endpoints.go:80-96 | under any refusals the body sent has every property of the bundle's endpoint that is not null, except the nineteen the older API refuses and the references |
| EndpointVerdicts.RunIsCounted | endpoints.go:1456-1535 | what landed, what was a duplicate, and what was refused or did not resolve, each in its own counter |
| EndpointImport.Draft.Exchange | endpoints.go:110-140 | both halves of a remapping, in place: a failed one leaves the object as it was |
| EndpointImport.ExportOne | endpoints.go:319-352 | an endpoint is carried exactly as specified, or not at all |
| EndpointImport.ExportEndpoints | endpoints.go:230-352 | the loops export the wanted groups and, sorted by MAC, exactly their operator-assigned endpoints; a group without an id is no endpoint's |
| EndpointImport.PreflightEndpoints | endpoints.go:646-699 | the loops append exactly the specified verdicts |
| EndpointImport.ApplyEndpoints | endpoints.go:1456-1535 | the loops do what Apply specifies, counters included; nothing more is sent when the ids cannot be read back |
| Report.PreflightReport.Add | endpoints.go:612-622 | the counters are always the number of items of each verdict |
| DeviceGroups.PreflightGroups | policy_elements.go:299-392 | for any order of the map: a group comes after every one above it, each one needed and not there is created exactly once from its name, and every group of the bundle follows with its own verdict and, where the target's groups could be read, its drift |
| DeviceGroups.AncestorsNest | policy_elements.go:404-414 | the ancestors of an ancestor are exactly the ancestors above it |
| DeviceGroups.AncestorsAre | policy_elements.go:404-414 | the groups a name depends on are exactly those, other than its type, whose name followed by # begins it, each longer than the one before |
| DeviceGroups.PulledIs | policy_elements.go:308-325 | a group pulled in has its name, its kind, and as its type what stands before the first # |
| DeviceGroups.OwnVerdictIs | policy_elements.go:327-392 | a group of the bundle is cleared if and only if it has a name the target does not, and blocked if and only if it has none; one that is there is reported with its drift |
| DeviceGroupRuns.ApplyGroups | policy_elements.go:579-695 | the loop does what Apply specifies, counters included, whatever the target refuses |
| DeviceGroupRuns.BodyIs | policy_elements.go:579-613 | what is sent of a group: every property but its kind and what is null, with its description marked |
| DeviceGroupRuns.RunIsCounted | policy_elements.go:579-695 | only what is cleared is sent, and each entry is counted in the counter of what became of it |
| DeviceGroupRuns.OrphansTraceToRefusal | policy_elements.go:299-613 | under any refusals, a group is left without a parent only where the target itself refused one above it earlier in the run |
| DeviceGroupRuns.GroupsAfter | policy_elements.go:579-695 | after any run the target holds its own groups as they were and exactly the names that landed; every entry is counted once |
| DeviceGroupRuns.NothingRefused | policy_elements.go:299-613 | a target that refuses nothing of its own accord refuses nothing at all, and ends with every group cleared |
| DeviceGroupRuns.ContentArrivesExactly | policy_elements.go:299-695 | on a target that refuses nothing of its own accord, what the target ends with for a group of the bundle that was not there is what the bundle has if and only if no group of the bundle needs it or it is bare |
| DeviceGroupRuns.OwnLandsExactly | policy_elements.go:299-695 | on such a target the group's own create lands if and only if no group of the bundle needs it |
| DeviceGroupRuns.BareExactly | policy_elements.go:308-325 | a group is sent as the bare one made for its name would be if and only if it holds only its name and type, and no description but the marker |
| DeviceGroupRuns.NeededGroupsLoseTheirContent | policy_elements.go:308-386 | a group of the bundle that was created because another needs it is answered as a duplicate itself, and the target keeps the bare one |
| DeviceGroupRuns.DescriptionIsLost | policy_elements.go:308-386 | such a run: the group's description does not arrive |
| DeviceGroupRuns.ImportGroups | policy_elements.go:299-695 | from pre-flight to apply, for any order of the map and any refusals the target's own groups stay; a target that refuses nothing ends with every named group and all they need |
| Marker.TagIdempotent | policy_elements.go:436-453 | tagging twice is tagging once, on any later day |
| Marker.TagMarks | policy_elements.go:436-453 | the marker is always left |
| Marker.TagFits | policy_elements.go:436-453 | an unmarked text stays within the length limit once tagged |
| Marker.StripTag | policy_elements.go:458-468 | stripping what was tagged gives the trimmed text that went in front of the marker |
| Marker.StripTagLoses | policy_elements.go:458-468 | a text that runs into the marker loses part of itself |
| Marker.StripTagExact | policy_elements.go:436-468 | strip undoes tag, up to trimming, if and only if nothing but space was cut and the text does not run into the marker |
| Marker.TagSays | policy_elements.go:436-453 | an unmarked text is followed by a space and the bracketed day, cut to 235 bytes and trimmed first when it is longer |
| Marker.StripSays | policy_elements.go:458-468 | stripping takes out the first marker up to the next bracket, or to the end without one, and trims what is left |
| Marker.EndingInPrefixIsLost | policy_elements.go:436-468 | a trimmed text that runs into the marker and does not come back |
| Drift.DriftFields | policy_elements.go:475-500 | nothing against a missing copy; otherwise, in any map order, each differing field is named exactly once, and no other, in the order of their texts |
| Drift.DriftedExactly | policy_elements.go:475-500 | a field drifts if and only if it is none of id, link, kind and conditionPath and the copies differ in it, a missing one being null and descriptions compared without their markers |
| Drift.OneReport | policy_elements.go:475-500 | the fields are listed in one way only, whatever order the maps were walked in |
| Drift.DriftSymmetric | policy_elements.go:475-500 | neither copy is privileged |
| Drift.NoSelfDrift | policy_elements.go:475-615 | an element this program created matches its source on the next run if and only if its description survives the marker and no null hides below its top level |
| Drift.DescriptionDrifts | policy_elements.go:475-615 | an element whose description runs into the marker drifts from itself in just that field |
| Drift.NestedNullDrifts | ise.go:464-490 | an element with a null below its top level drifts from itself |
| Drift.SurvivesExact | policy_elements.go:436-468 | the description compares equal exactly under the stated condition on the text |
| Drift.NullFreeExact | ise.go:464-490 | dropping nulls leaves a value alone exactly when it holds none the pass looks into; a list inside a list is not looked into |
| Objects.CompactKeepsNames | ise.go:464-490 | dropping nulls keeps every list of names |
| Objects.StripKeepsNames | endpoints.go:144-162 | dropping ids and links keeps every list of names |
| ObjectPaths.NullsGo | ise.go:464-490 | along every path of properties a null goes and everything else stays where it was |
| ObjectPaths.ListKept | ise.go:464-490 | of a list exactly the elements that are not null stay, in order, objects without their nulls and anything else as it is |
| ObjectPaths.PortableFormIs | endpoints.go:144-162 | at every path the portable form has nothing under a link or the object's own id, and otherwise what was there |
| ObjectPaths.StringsAre | trustsec.go:599-613 | a list of names is read as exactly its texts that are not empty, in order |
| WorkerPool.OutcomeOfEveryRun | ise.go:410-448 | in every interleaving that ends: success exactly when every read succeeds, then object i at position i for every i; otherwise an error that did occur |
| WorkerPool.EveryIndexOnce | ise.go:410-448 | each index is dealt with exactly once |
| WorkerPool.SomeStepEnabled | ise.go:418-443 | no deadlock, after an error too |
| WorkerPool.EveryRun | ise.go:410-448 | every run keeps the invariant and is bounded by the work there was, so every interleaving ends |
| WorkerPool.FewLateAnswers | ise.go:418-443 | after the first error at most one request per other worker is answered |
| WorkerPool.NextInv | ise.go:410-448 | every step of producer and workers keeps the invariant |
| WorkerPool.ErsGetAll | ise.go:410-448 | under any schedule the call fails exactly when some read fails, and else returns all objects in order |
| Paging.OpenApiReadsAll | ise.go:534-552 | from a deployment that answers every page, all objects in order below 100000, an error from there on |
| Paging.ErsReadsAll | ise.go:354-375 | the same, with success at 100000 when the total is reported with the last page |
| Paging.ReadsAllOrFails | ise.go:354-552 | from a deployment that may fail any page, the listing is all the objects or an error, never a strict prefix, and succeeds if and only if every page up to one that completes it was answered |
| Paging.LostPageFails | ise.go:354-552 | a page that is needed and cannot be read fails the listing |
| Paging.ErsList | ise.go:354-375 | for any answers: success is the concatenation, in order, of pages 1 to k, all answered, where k of the thousand is the first that is short or with which the reported total is reached; if there is no such page the listing fails |
| Paging.OpenApiList | ise.go:534-552 | the same without a total: success is pages 1 to k, all answered, k being the first that is short, and anything else fails |
| Csrf.Client.FetchCsrf | ise.go:248-274 | a nonempty nonce is kept, and nothing is written |
| Csrf.Client.Attempt | ise.go:181-222 | one try sends at most once; an API error means nothing was applied; its result is the answer to the one request made |
| Csrf.Client.Do | ise.go:159-178 | from any nonce state a write is sent at most twice and applied at most once, and on an API error not at all; whether it succeeds, is refused and how, or ends without an answer, how often it was sent, and which nonce is held afterwards are exactly what the next answers say |
| Csrf.HonouredNonceSucceeds | ise.go:159-274 | a nonce that is fetched and honoured with the next write is enough, whether none was held or one that is refused |
| Csrf.UncheckedSucceeds | ise.go:248-274 | with the check off, no nonce is issued and the write is done |
| Csrf.StaleNonceFails | ise.go:159-178 | a refused nonce and no other to be had: the write is not done |
| Translate.Translate | translate.go:112-225 | rows and report, the node columns rewritten and the rows refused among it, are exactly the specified ones; source rows are written rows and refused rows |
| Translate.TranslateRow | translate.go:183-224 | the empty label stands for "no masked secret" exactly; else it is the label of the first column that would take one; and the cells are the specified ones |
| Translate.NothingLostSilently | translate.go:128-210 | every source column is reported, or read-only, or its cell is found again under the same label, changed only into the target node; and every cell of a row is empty or so accounted for if and only if nothing but empty cells stands beyond the header |
| Translate.BeyondHeaderIsLost | translate.go:194-210 | what lies beyond the header leaves no trace in the row written |
| Translate.FateMatches | translate.go:128-160 | a target column takes its cells from the last source column of its own label, for want of one from the last of the label it was renamed from, and is empty only when there is neither |
| Translate.ColumnsAccounted | translate.go:128-160 | every target column is in exactly one of the three lists, by length |
| Translate.ColumnListed | translate.go:128-160 | a column is in the list of its own fate |
| Translate.NoMaskedSecretWritten | translate.go:194-210 | no written row carries a masked value under a secret label |
| Translate.NodesAreNoSecrets | translate.go:45-77 | no node label is a secret label |
| Translate.SecretHasLabel | translate.go:67-82 | a secret column's label is never empty |
| Translate.SameLayoutGivesRowBack | translate.go:194-210 | into the identical layout with distinct labels each row comes back, read-only columns aside and, when a node is given, with it in the node columns |
| Translate.BodyKeepsOrder | translate.go:183-224 | the rows written are exactly the rows that can be, each made from its own source row, in source order |
| Translate.RefusalsKeepOrder | translate.go:183-224 | refused are exactly the other rows that have content, in source order |
| Translate.RefusalIs | translate.go:187-219 | a row is refused for having no name, or under the source's label of the first target column that would take a masked secret |
| Translate.UnmappedExactly | translate.go:162-170 | reported as lost are exactly the source columns no target column takes, read-only ones aside |
| Labels.LabelIs | translate.go:26-37 | with or without a byte order mark, a label is what stands before the first part that begins, past its spaces, with one of the six type words; a header without one is its own label |
| Labels.HeaderIs | translate.go:26-37 | every header is one of those |
| Labels.SameKeyExactly | translate.go:39-43 | two labels have one key if and only if they have the same words in the same order whatever the case and the spaces |
| Labels.SecretExactly | translate.go:64-77 | a column carries a secret if and only if one of the five words stands in its key, the passwordencrypted flag aside |
| Labels.SharedSecretIsSecret | translate.go:26-77 | the column Authentication:Shared Secret:String(128) has the key authentication:shared secret and carries a secret |
| Labels.ProtocolIsNoSecret | translate.go:21-77 | the column Authentication:Protocol:String(6) has the key authentication:protocol and carries none |
| Labels.MaskedExactly | translate.go:79-82 | a value is masked if and only if it is asterisks, at least one, with nothing but spaces around them |
| Labels.WrittenExactly | translate.go:183-219 | a row is written if and only if some cell of it says something, its name does, and no target column would take a masked secret |

## Left out

- PolicySetRetry.RerunRetriesOnlyWhatDidNotLand: holds for a bundle whose set names are distinct and not already of the "(imported)" shape, a target with a Default set and distinct ids and names, rule lists that can be read, and a second run that counts on no name the first did not; without the first condition a set of that shape is taken for an earlier import.
- PolicySetEnvironment.RerunAcrossFamilies: of the other families - identity sources, profiles, conditions - it is assumed, not derived, that the target's lists gained only what the first run was cleared to create.
- Conditions.RewriteKeepsVerdict: covers the sharing of condition nodes between the report and the bodies sent by showing that it changes no verdict; the shallow clones themselves are modelled only as nodes reached more than once, in ConditionTrees.
- Marker.TagFits: a cut in the middle of a UTF-8 sequence leaves its first bytes, as in the program; what a JSON encoder then writes for them is not modelled.
- Csrf.Client.Do: assumes that an answer that is an HTTP error leaves nothing behind.
- Failed reads during pre-flight, which the program treats as empty collections: reads succeed here. Failed reads during apply are modelled: of the target's ids, for TrustSec and endpoints, of a set just created, and of the rules of a set merged into; the ids of conditions are read once and are an input.
- The wording of reasons, notes and log lines: what a reason reports is kept. Policy-set export and its order.
- JSON property names are an enumeration, with the rest under one constructor; numbers are reals.
- White space and letter case are those of ASCII.
- Rules always carry their inner rule object, as an export makes them; a new policy set is listed last.
- The remaining kinds of policy element (downloadable ACLs, authorization profiles and their redirect retry, identity source sequences, library conditions): the same decide-and-post pattern with other checks.
- Dictionary attribute lookup through its cache: the attributes known are an input.
- Active Directory, identity sources, certificates and bundle encryption: separate passes, or foreign libraries.
- HTTP, TLS, cookies, time-outs, JSON decoding and CSV lexing: responses and rows are values.
- The scan of policies for group usage, which is advice to the operator only.

# Verified model of the operator scripts and one migration

This project models, in Dafny, the algorithms and protocols behind the price-monitoring platform's operator
scripts and one data-moving migration, and proves what they keep over every input, run or interleaving. Each
module follows one script (or one part of it) and takes its form: code that changes fields, tables or
accumulators is a method or a class proved against a specification function, and the promises are lemmas about
that function; code made of expressions is functions and lemmas.

| module | models |
|---|---|
| `StratifiedSampler`, `Apportionment`, `SampleDraw`, `DrawOrder`, `GreedyFloors` | the stratified draw of `scripts/run_gate_d_canary.py`, who is drawn first, its validation, and how good its greedy pass is |
| `CompletionSla` | the precomputed completion SLA of the same script |
| `CatalogLoad`, `CatalogReaders` | the generational catalogue load, commit by commit, and what a lookup finds that pins its generation |
| `ScopingGuard` | the AST guard against unscoped workspace queries |
| `PriceKeySearch`, `Onboarding` | the budgeted JSON search and the guarded one-transaction apply of `scripts/onboard_competitor.py` |
| `EffectiveAccess`, `EffectiveProfile` | which access policy is in force for a URL and which scrape profile for a match, and what an onboarding does to them |
| `IdentifierBackfill`, `AuditSidecar` | the identifier backfill with its undo, and the audit history two scripts write |
| `Fetching`, `ClassifierFetcher`, `BackfillFetcher`, `MatchClassifier` | the two bounded fetchers, and the match classifier one of them feeds |
| `StrategyMigration` | the backfill, link and downgrade statements of revision 6e4a9c8f2d10 |
| `RlsManifest`, `ManifestFormat` | the row-level-security manifest: its check, printer and parser |
| `FleetSeeder`, `UrlIdentity` | the resumable synthetic-fleet seeder, and the URL identity that its match keys rest on |
| `Wrappers`, `Sequences`, `Ordering`, `Decimals`, `Rounding`, `Reals` | shared: options, sequences without repetition, stable sorting, decimal notation, Python's `round`, a product of reals |

Conventions. Times are integers or reals; a hash, a key derivation or what a URL normaliser makes of a host is an
arbitrary function argument, constrained only where a theorem says so. A transaction is a step: a crash is a run cut off after any
number of commits. Database rows live in maps by primary key or in sequences in insertion order; SQL statements
that visit many rows visit them in an arbitrary order. Fresh UUIDs are arguments required to be unused.

Where the code and its own documentation disagree, the model follows the code:

- `scripts/migrate_stech_identifiers.py` says a second apply inserts nothing. That holds for identifier rows and
  canonical references; the audit history gets another current row for every quarantined decision, so the second apply
  is the identity exactly when nothing is quarantined, and the reported counts are attempts (`ApplyTwice`).
- Both fetchers' docstrings say robots-blocked requests are logged. Only requests made are logged; and
  `scripts/classify_match_set.py` reports `fetched` without a request to the target exactly when the robots check took
  the last of the budget (`ClassifierFetcher.LiveFetcher.Fetch`).
- `scripts/classify_match_set.py` says a raw 404 or 410 is never a validated absence; its live fetch counts one
  (`RawNotFoundCounts`). It still never confirms a delisting by itself (`OneFetchNeverConfirms`); but on a domain whose
  identifiers are misread, as one is by default, that single answer settles a match with an identifier as invalid.
- `build_stratified_sample` calls its scarcest-first pass optimal for floors that a single pass can satisfy. It is not
  where strata overlap (`GreedyMissesCoverable`, `SharedIsMissed`); it is where they are disjoint and nothing is
  labelled: there every floor is met if and only if some sample of that size meets them all (`GreedyIsOptimal`).
- `apply_onboarding` says a refusal is raised before any row is mutated. The policy row may already have been
  written in the session; the transaction undoes it (`RefusalAfterAWrite`, `RefusedBeforeAnyWriteExactly`,
  `Session.Onboard`).
- The onboarding promises never to loosen without permission. No policy row is lowered and no rule's number is
  loosened, but the references to policies are not guarded. A rule that is retuned leaves its policy for the one named
  after the domain without a comparison of tiers (`RuleTierCanDrop`, `RuleTierDropsExactly`); the competitor's default
  is always repointed there (`CompetitorTierCanDrop`, `CompetitorTierDropsExactly`); and a first rule can take a URL
  below the workspace's default (`FirstRuleCanDropTheTier`). `TierInForceDropsExactly` says for every URL exactly when
  the tier that the resolution puts in force drops. An update whose numbers already agree leaves a rule pointing at
  another policy (`RuleFollowsPolicyExactly`).
- A probe that finds nothing must never clobber a hand-tuned selector, says `_profile_diff`. No profile row loses one,
  but the competitor is always repointed at the profile named after its domain, even with updates off, so that its
  selector can be lost to it (`HandTunedSelectorCanBeLost`, `CompetitorFieldLostExactly`), and a first onboarding can
  hide the workspace's profile (`FirstOnboardingCanHideTheProfile`). `FieldInForceLostExactly` says for every match and
  each of the three extraction fields exactly when the text in force is lost.
- `match_urls_for_product` says the two URLs of a product have distinct identities, as the unique key requires. Under a
  base with a fragment, which `validate_origin_base_url` accepts, they do not (`FragmentBaseCollides`,
  `AcceptedBaseCollides`), and no store with an extra match can be written (`MatchKeysDistinctExactly`, `SeedStore`). Nor
  does the validator read the port: under a base whose port is not one the run stops at its first URL (`SeedStore`).
- `build_plan` says a ratio above two is refused; the test is made after rounding (`PlannedExactly`).
- Price-key pointers omit the escaping in section 3 of RFC 6901: on every document the pointer and its parent lead back
  exactly as far as the steps of the path are non-empty and slash-free (`ParentResolvesExactly`,
  `UncleanKeyLosesTheHolder`).
- A silent manifest check covers a tenant table and its direct partitions, not partitions of partitions
  (`SubPartitionEscapes`): a whole partition tree is isolated exactly when everything from its second level on happens
  to be enforced (`TreeEnforcedExactly`), as it is where no partition is partitioned again (`FlatSilenceIsolates`). And
  a manifest cannot hold a table name with tabs, line breaks, a leading `#` or outer white space (`PrintThenParse`).

## Model

| member | source | states |
|---|---|---|
| Apportionment.QuotaWithinSupply | scripts/run_gate_d_canary.py:668-671 | the whole part of a quota never exceeds the domain's supply while the slots do not exceed the pool, and a fractional quota leaves room for one more |
| Apportionment.CutFractions | scripts/run_gate_d_canary.py:671-672 | the fractions cut off by flooring add up to exactly the leftover slots |
| Apportionment.LeftoverWithinOnePass | scripts/run_gate_d_canary.py:677-685 | the leftover is at most one pass over the ranked domains, each of which has a positive fraction and room, so the escape guard never acts |
| Apportionment.AllotmentSumsToRemaining | scripts/run_gate_d_canary.py:646-690 | the allotments add up to exactly the remaining slots, so the final slice cuts nothing |
| Apportionment.AllotmentObeysQuota | scripts/run_gate_d_canary.py:667-686 | every domain gets the floor or the ceiling of its exact quota and never more than its supply |
| Apportionment.ExtrasToLargestFractions | scripts/run_gate_d_canary.py:673-682 | a domain that got an extra slot has a fractional part no smaller than one that did not |
| Apportionment.ScarcityTakesAll | scripts/run_gate_d_canary.py:671-686 | when more slots remain than candidates, every domain gives all it has |
| Apportionment.RoundRobin | scripts/run_gate_d_canary.py:677-685 | the loop over the ranked domains computes the allotment; it leaves by its own condition after one turn per leftover slot, and by the guard exactly when slots are left and no domain has room |
| Apportionment.Apportion | scripts/run_gate_d_canary.py:667-685 | floors, ranking and round robin together compute the allotment |
| StratifiedSampler.StratumReach | scripts/run_gate_d_canary.py:610-618 | the pass over one stratum only adds fresh members of it and ends with the smaller of its floor and what the free slots allow |
| StratifiedSampler.OnePassReaches | scripts/run_gate_d_canary.py:603-618 | a stratum reaches its floor in its pass if and only if there is room for what it lacks |
| StratifiedSampler.FloorsReach | scripts/run_gate_d_canary.py:599-618 | if the selection and the total demand of the strata fit, every floor as far as supply allows is met at the end |
| GreedyFloors.GreedyIsOptimal | scripts/run_gate_d_canary.py:563-566 | with disjoint strata and nothing labelled, a drawn sample meets every floor if and only if some selection of its size does |
| GreedyFloors.SharedIsMissed | scripts/run_gate_d_canary.py:599-618 | wherever two strata of floor one share a candidate and an earlier one is in the first alone, a sample of one misses a floor that the shared candidate would meet |
| GreedyFloors.GreedyMissesCoverable | scripts/run_gate_d_canary.py:563-566 | three candidates and two overlapping strata for which the pass misses a floor although one candidate covers both |
| StratifiedSampler.FloorsKeep | scripts/run_gate_d_canary.py:594-618 | the floor passes never drop a selected target, never exceed the size and only take pool members |
| StratifiedSampler.SizesSum | scripts/run_gate_d_canary.py:663-667 | grouping the available candidates by domain loses and duplicates nobody |
| StratifiedSampler.FillIsExact | scripts/run_gate_d_canary.py:659-690 | the proportional fill returns exactly the remaining number of fresh candidates whenever that many are available |
| SampleDraw.SelectionIsExact | scripts/run_gate_d_canary.py:594-630 | the three stages together select exactly `size` distinct pool members, so the wrong-size refusal is unreachable |
| SampleDraw.DrawRefusesExactly | scripts/run_gate_d_canary.py:573-592 | a draw is refused exactly for a non-positive size, an unauthorised candidate or too small a pool, in that order, and with that reason: the first offender's id, or the number of distinct candidates and the size asked for |
| SampleDraw.DrawIsLegal | scripts/run_gate_d_canary.py:543-643 | a draw has exactly `size` distinct authorised targets in key order, with all labelled targets when they fit and nothing else when they do not |
| SampleDraw.FloorsAreMet | scripts/run_gate_d_canary.py:599-635 | when labelled targets and floors fit together, every stratum's coverage is at least the smaller of its floor and its supply |
| SampleDraw.ScarceFloorsAreMet | scripts/run_gate_d_canary.py:599-635 | a stratum reaches its floor, or all the pool has of it, as soon as the labelled targets and the demand of the strata no less scarce fit, whatever the more abundant ones ask for and however they overlap |
| DrawOrder.EarlierTwinFirst | scripts/run_gate_d_canary.py:586-643 | of two candidates that domain, label and strata do not tell apart, the draw takes the one with the smaller key, or the smaller id under one key, first |
| DrawOrder.TargetsInOrder | scripts/run_gate_d_canary.py:632-634 | the targets come by key and then by id |
| DrawOrder.FirstByIdExactly | scripts/run_gate_d_canary.py:583-586 | the pool is cut down to exactly the first candidate of each id |
| DrawOrder.FillIsProportional | scripts/run_gate_d_canary.py:668-690 | every domain fills its exact share of the slots left, rounded up or down |
| DrawOrder.LargestRemaindersFirst | scripts/run_gate_d_canary.py:673-686 | a domain whose share is rounded up has no smaller remainder than one whose share is rounded down |
| DrawOrder.ReportedCounts | scripts/run_gate_d_canary.py:636-643 | the reported pool size and mandatory count are those of the distinct candidates and of the labelled ones among them |
| SampleDraw.DuplicateTestIsExact | scripts/run_gate_d_canary.py:703-705 | the duplicate test fires exactly on a repeated id |
| SampleDraw.CappedMeansShortSupply | scripts/run_gate_d_canary.py:602-606 | a stratum is listed as capped exactly when its supply is below its floor |
| SampleDraw.ValidateOnDrawn | scripts/run_gate_d_canary.py:693-717 | on any drawn sample the validator can only report stratum problems, and it reports none exactly when every stratum is covered |
| SampleDraw.ProblemsExactly | scripts/run_gate_d_canary.py:693-717 | for any result at all, each kind of problem is reported exactly when its condition holds of size, ids, coverage, capped strata or targets |
| SampleDraw.FittingSampleIsValid | scripts/run_gate_d_canary.py:693-717 | when everything fits and every floor and supply is positive the validator returns no problem |
| SampleDraw.DrawForgetsOrder | scripts/run_gate_d_canary.py:583-643 | the drawn sample and its coverage do not depend on the order of the pool or of the strata |
| SampleDraw.PayloadIdentifiesTheSet | scripts/run_gate_d_canary.py:525-540 | two target sets have the same hashed payload exactly when they hold the same identities, whatever their order |
| SampleDraw.ValidateSample | scripts/run_gate_d_canary.py:693-717 | the validator's loops report exactly the listed problems in order |
| SampleDraw.ProportionalFill | scripts/run_gate_d_canary.py:646-690 | grouping, apportioning and taking prefixes compute the specified fill |
| SampleDraw.BuildStratifiedSample | scripts/run_gate_d_canary.py:543-643 | the imperative draw computes the specified draw, refusals included, whose order of strata and candidates, floors and shares the rows above and below pin in the candidates' own fields |
| CompletionSla.ComputeCompletionSla | scripts/run_gate_d_canary.py:783-904 | the accumulating loop computes the specified SLA, report and uncertified list, or the first error |
| CompletionSla.ReportIsExact | scripts/run_gate_d_canary.py:868-886 | the report holds each worked workload's entry once, slowest first, the first one being the critical path over the domains; the uncertified list is sorted and names exactly the domains worked on without a certified limit |
| CompletionSla.DomainTimeIsMax | scripts/run_gate_d_canary.py:837-840 | a domain's time is the larger of attempts over its rate and attempts times latency over its slots |
| CompletionSla.FleetTimeIsWeightedWork | scripts/run_gate_d_canary.py:865-867 | the fleet time is the latency-weighted work over the fleet's slots |
| CompletionSla.SlaEntriesExactly | scripts/run_gate_d_canary.py:816-860 | there is one entry for each workload worked on, in order, with its attempts, certification, binding limit and its time over the slower of rate limit and slots, rounded to a tenth |
| CompletionSla.SlaTimesExactly | scripts/run_gate_d_canary.py:865-868 | the critical path is the largest domain time, and the fleet time the work of all attempts over the slots |
| CompletionSla.SlaIsLeast | scripts/run_gate_d_canary.py:869-871 | the SLA without the overhead is the least integer that reaches the safety factor times both times, and the larger of SLA and target governs |
| CompletionSla.SlaErrorsExactly | scripts/run_gate_d_canary.py:817-867 | each error arises exactly in its case: no concurrency, the first workload in trouble, no workload, work that adds up to nothing |
| CompletionSla.RoundMonotone | scripts/run_gate_d_canary.py:858-870 | rounding to a tenth and the ceiling keep order |
| CompletionSla.RoundingIsClose | scripts/run_gate_d_canary.py:858-870 | rounding moves a value by at most a twentieth and the ceiling is the least integer above |
| CompletionSla.SlaMonotone | scripts/run_gate_d_canary.py:783-904 | adding or enlarging workloads never lowers the computed or governing SLA, and raising either concurrency never raises it, rounding and ceiling included |
| CatalogLoad.ReadChunk | scripts/load_catalog_index.py:223-230 | one chunk yields exactly its records' rows and counts, in order |
| CatalogLoad.Loader.Load | scripts/load_catalog_index.py:175-279 | a run to its end commits exactly the specified states in order, so a crash leaves a prefix of them, and reports the specified outcome; when it refuses, what its records hold and what it leaves are pinned by the rows below |
| CatalogLoad.LoadsExactly | scripts/load_catalog_index.py:186-198 | a load commits anything if and only if there is space and, unless small sources are allowed, enough rows have a price and no active load recorded more than twice as many products; otherwise it is refused |
| CatalogLoad.RecordsExactly | scripts/load_catalog_index.py:99-133 | the records of a source are exactly those of its rows with a price, an HTTP address and a domain, column by column |
| CatalogLoad.CodesExactly | scripts/load_catalog_index.py:131-133 | the lookup codes are exactly the barcode and model keys of those rows |
| CatalogLoad.BeginClearsTheUnfinished | scripts/load_catalog_index.py:202-208 | the first change deletes exactly the rows of generations whose load never finished |
| CatalogLoad.LoadRecordsItself | scripts/load_catalog_index.py:209-279 | a completed load leaves its own generation, one above the highest, as the active one with its counts, every earlier one retired or failed as it was active or unfinished, and reports the previous generation |
| CatalogLoad.LoadIsAtomicForReaders | scripts/load_catalog_index.py:202-259 | before the flip commits a reader finds the old set, from then on the complete new one, and the database stays honest at every commit |
| CatalogLoad.FlippedIsComplete | scripts/load_catalog_index.py:245-254 | the flipped generation holds exactly the records of the complete source, with the counts recorded |
| CatalogLoad.BatchSizeIrrelevant | scripts/load_catalog_index.py:217-243 | the final state and outcome are the same for every batch size of at least one |
| CatalogLoad.BatchesEndComplete | scripts/load_catalog_index.py:217-243 | after the last batch exactly the source's rows are under the new generation |
| CatalogLoad.CompletedLoadRecovers | scripts/load_catalog_index.py:202-279 | whatever crashes came before, a completed load leaves rows of one generation, its row counts equal the recorded ones, and products plus skipped equals the source rows |
| CatalogLoad.HistoryIsHonest | scripts/load_catalog_index.py:175-279 | after every commit of any sequence of loads, each cut off anywhere, generations increase, at most one is active, no row lies outside a recorded load and the active one is complete |
| CatalogLoad.ReadersSeeOnlyCompleteSources | scripts/load_catalog_index.py:175-279 | from an empty database, at every commit of any such sequence a reader finds nothing or exactly the records of one run's complete source |
| CatalogReaders.PinnedReaderFinds | libs/shared/app_shared/catalog_index/lookup.py:113-180 | a lookup that notes its generation after one commit and reads rows after any later one, over any sequence of loads cut off anywhere, finds exactly one run's complete source until a drop of that generation commits, and nothing from then on |
| ScopingGuard.ExprReferencesWorkspaceId | scripts/check_workspace_scoping.py:114-122 | the walk answers exactly whether some node below names `workspace_id` |
| ScopingGuard.CallHasWorkspacePredicate | scripts/check_workspace_scoping.py:125-134 | the loops answer exactly whether an argument or a keyword scopes the call |
| ScopingGuard.WalkIsExact | scripts/check_workspace_scoping.py:186-186 | the breadth-first walk visits every node of the tree exactly once |
| ScopingGuard.BuildParentMap | scripts/check_workspace_scoping.py:96-101 | the map gives every node but the root its parent and nothing else |
| ScopingGuard.LinkAbove | scripts/check_workspace_scoping.py:148-163 | one step up a fluent chain: the next call of a chain is two levels above, reached through its attribute |
| ScopingGuard.ParentsShowLink | scripts/check_workspace_scoping.py:150-162 | the parent map shows such a step exactly when the tree has one |
| ScopingGuard.ChainIsScoped | scripts/check_workspace_scoping.py:137-163 | the climb ends, and is true exactly when some enclosing method call of the same chain is a scoping method with a workspace predicate |
| ScopingGuard.CheckFile | scripts/check_workspace_scoping.py:177-252 | the loop over the walk reports exactly the specified violations in order |
| ScopingGuard.OffendsExactly | scripts/check_workspace_scoping.py:104-252 | a call is reported, with its line, shape and model, exactly when its first argument names a guarded model, its line has no pragma, and it is a `.get`, or a `select` or `.query` with no scoping call up its chain |
| ScopingGuard.MentionsDeep | scripts/check_workspace_scoping.py:114-122 | the search over paths finds `workspace_id` exactly when a name, an attribute or a keyword anywhere in the expression is it |
| ScopingGuard.ScopedExactly | scripts/check_workspace_scoping.py:125-163 | a chain is scoped exactly when, some number of receivers up, a `where`, `filter` or `filter_by` names the workspace in an argument |
| ScopingGuard.WalkIsBreadthFirst | scripts/check_workspace_scoping.py:186-186 | the walk goes level by level, each from left to right |
| ScopingGuard.EachOffenceReportedOnce | scripts/check_workspace_scoping.py:186-252 | the reported sites are distinct and are exactly the offending calls of the whole tree |
| ScopingGuard.CleanExactly | scripts/check_workspace_scoping.py:186-252 | a file passes exactly when every guarded access carries the pragma or is a query scoped up its own chain |
| PriceKeySearch.WalkJsonForPriceKey | scripts/onboard_competitor.py:227-266 | the recursion over the shared budget computes the specified hit and leaves the specified budget |
| PriceKeySearch.FoundPointerResolves | scripts/onboard_competitor.py:227-286 | for every parsed document a found pointer is the rendered path to the returned value; when the steps of that path are clean, whatever the keys elsewhere, it resolves to the value, its parent to the object holding it, and the currency is that object's |
| PriceKeySearch.SearchLeads | scripts/onboard_competitor.py:239-266 | on every parsed document, clean or not, a hit's pointer is the path of keys and indexes that leads to a price entry |
| PriceKeySearch.TokensOfRender | scripts/onboard_competitor.py:272-274 | splitting a rendered pointer gives its tokens back when they are clean |
| PriceKeySearch.VisitsWithinBudget | scripts/onboard_competitor.py:235-239 | the search spends at most its budget and at most one unit per node |
| PriceKeySearch.NoneMeansNoPrice | scripts/onboard_competitor.py:227-266 | an empty answer with neither limit reached means that no price key exists |
| PriceKeySearch.SearchDecides | scripts/onboard_competitor.py:227-266 | within the limits the search finds a hit exactly when a price key exists |
| PriceKeySearch.HitIsFirst | scripts/onboard_competitor.py:242-266 | whatever the budget, in a document not too deep a hit is the first price: an own entry of the nearest object before anything below it, and what lies below in document order |
| PriceKeySearch.SiblingCurrency | scripts/onboard_competitor.py:269-286 | the loop over the parent's tokens resolves them as the specification does and returns the first currency beside the price |
| PriceKeySearch.FirstCurrencyExactly | scripts/onboard_competitor.py:281-286 | the currency is the first text under a currency key of the object, and none only if there is none |
| PriceKeySearch.ParentResolvesExactly | scripts/onboard_competitor.py:251-281 | for every document the parent pointer splits into the way to the holder if and only if every step above the price key is non-empty and slash-free, and the whole pointer into the way to the value if and only if every step is |
| PriceKeySearch.UncleanKeyLosesTheHolder | scripts/onboard_competitor.py:251-281 | every key that is empty or holds a slash does fail: for a price one level under it, the parent pointer misses the holder |
| PriceKeySearch.CleanDocumentCleanPath | scripts/onboard_competitor.py:269-286 | where every key of a document is clean, so is every path through it, so that there search and resolve always undo each other |
| Onboarding.RuleDowngradeExactly | scripts/onboard_competitor.py:692-728 | a rule difference is a downgrade exactly when one number is looser, however much the others tighten |
| Onboarding.PolicyDowngradeExactly | scripts/onboard_competitor.py:669-689 | a policy difference is a downgrade exactly when the recommended tier ranks lower |
| Onboarding.ProfileUpdateFillsGaps | scripts/onboard_competitor.py:731-752 | applying a profile difference fills the gaps the probe can fill and changes nothing else |
| Onboarding.Session.GetOrCreateOrUpdateScrapeProfile | scripts/onboard_competitor.py:912-945 | the step creates, reuses or gap-fills the named profile as specified |
| Onboarding.Session.ApplyOnboarding | scripts/onboard_competitor.py:948-1039 | the steps in order write the specified rows and report, or raise the specified refusal with the specified leftovers in the session; `ApplyReportsDifferences` says what the rows and the report are |
| Onboarding.ApplyReportsDifferences | scripts/onboard_competitor.py:805-1039 | updates on or off, a successful apply reports every difference between a stored row and what was recommended, marks as updated exactly what updates find different, and writes field by field exactly the rows it creates or updates |
| Onboarding.Session.Onboard | scripts/onboard_competitor.py:1149-1166 | success commits exactly the applied rows; a refusal leaves the committed database as it was |
| Onboarding.NothingIsLoosened | scripts/onboard_competitor.py:805-945 | without permission no apply lowers the tier of any policy row, raises any rule's rate or concurrency or shortens its cooldown; and with or without it none overwrites a populated field of any profile row or loses a row |
| Onboarding.RefusedExactly | scripts/onboard_competitor.py:773-909 | an apply is refused exactly for an unknown competitor, an unpermitted lower tier or looser rule, or a blank-pattern rule that holds the new rule's key, the first of these being the reason given |
| Onboarding.ApplyKeepsKeys | scripts/onboard_competitor.py:948-1039 | the unique indexes of all four tables survive an apply |
| Onboarding.ApplyWires | scripts/onboard_competitor.py:1020-1021 | the competitor ends at the named policy and profile, the named rows carry the recommendation where created or updated, and every other row is unchanged |
| Onboarding.ApplyTwice | scripts/onboard_competitor.py:948-1039 | repeating a successful apply succeeds, changes nothing and, with updates on, reports no difference |
| Onboarding.RuleFollowsPolicyExactly | scripts/onboard_competitor.py:891-909 | the rule ends at the applied policy exactly when it is new, was retuned or already pointed there |
| Onboarding.RefusedBeforeAnyWriteExactly | scripts/onboard_competitor.py:948-1022 | exactly when a refusal is raised with the session's rows still untouched |
| Onboarding.RefusalAfterAWrite | scripts/onboard_competitor.py:839-904 | a concrete refusal raised after the policy row was written |
| Onboarding.CompetitorTierDropsExactly | scripts/onboard_competitor.py:1020-1020 | without permission, a known competitor's default tier drops exactly when the policy named after the domain, stored, created or updated, will rank below the competitor's former default, which is then another policy |
| Onboarding.CompetitorTierCanDrop | scripts/onboard_competitor.py:1020-1020 | a concrete apply, without permission to downgrade, that moves a competitor from the browser tier to direct access |
| Onboarding.RuleTierDropsExactly | scripts/onboard_competitor.py:891-909 | without permission, the tier behind a rule drops exactly when it is the request's rule, its numbers are retuned, and the recommended tier ranks below that of the policy it leaves |
| Onboarding.RuleTierCanDrop | scripts/onboard_competitor.py:904-904 | a concrete update, without permission to downgrade, that tightens a rule's numbers and moves it from the browser tier to direct access while the competitor's default stays |
| EffectiveAccess.SelectsTheFirst | libs/shared/app_shared/access/resolution.py:73-98 | a domain rule is selected exactly when a candidate exists, and it is the one candidate that precedes all others, whatever the order of the rows |
| EffectiveAccess.SelectedRuleExactly | libs/shared/app_shared/access/resolution.py:73-98 | the selected rule is an enabled one of the competitor and domain: the longest pattern in the URL, or a rule without pattern where none is, and the smallest id among equals; none is selected only where none applies |
| EffectiveAccess.PolicyInForceExactly | libs/shared/app_shared/access/resolution.py:101-123 | the policy in force is that of the selected rule, else the workspace's default, else the global default, passing over what the workspace does not see |
| EffectiveAccess.TierInForceDropsExactly | libs/shared/app_shared/access/resolution.py:101-123 | for every URL with a policy in force, an onboarding without permission lowers the tier in force exactly when it puts the named policy in force, by a new plain rule or a retuned enabled one that no pattern rule precedes, and that policy ends below the tier there was |
| EffectiveAccess.FirstRuleCanDropTheTier | scripts/onboard_competitor.py:878-892 | a concrete first onboarding, with neither updates nor permission, whose new rule takes the competitor's URLs from the workspace default's browser tier to direct access |
| EffectiveProfile.CompetitorFieldLostExactly | scripts/onboard_competitor.py:1014-1021 | for each of the three fields, the text of a known competitor's former default profile is lost to it exactly when the profile named after the domain ends without it: by its stored text, a gap filled with updates on and a method found, or the probe's text in a new row |
| EffectiveProfile.HandTunedSelectorCanBeLost | scripts/onboard_competitor.py:731-740 | a concrete apply, with updates off, no permission and a probe that found nothing, after which a competitor's hand-tuned selector is gone from its default profile |
| EffectiveProfile.ProfileInForceExactly | libs/shared/app_shared/profiles/resolution.py:114-163 | the profile in force is the match's override, else the competitor's default, else the workspace's, else the global default, passing over what the workspace does not see |
| EffectiveProfile.FieldInForceLostExactly | libs/shared/app_shared/profiles/resolution.py:114-163 | for every match and each field, the text in force is lost exactly when the match is the competitor's, no override of its own is visible and the named profile ends without the text, wherever it was in force from |
| EffectiveProfile.FirstOnboardingCanHideTheProfile | scripts/onboard_competitor.py:924-935 | a concrete first onboarding that hides the workspace's default profile and its selector from the competitor's matches |
| AuditSidecar.Sidecar.ApplyClassifications | scripts/classify_match_set.py:567-637 | the classifier's write supersedes the current rows of its matches and adds its own, nothing else |
| AuditSidecar.Sidecar.WriteReviews | scripts/migrate_stech_identifiers.py:576-603 | the backfill's review write does the same |
| AuditSidecar.OnlyCurrentMatchesMatter | scripts/classify_match_set.py:591-608 | superseding only the matches read as current has the effect of superseding all the matches written |
| AuditSidecar.WriteKeepsHistory | scripts/classify_match_set.py:567-637 | one write leaves at most one current row per match, exactly one for each match written, and never changes what an existing row says |
| AuditSidecar.WriteExactly | scripts/classify_match_set.py:567-637 | after a write every old row is as it was but for the stamp on the current ones of its matches, every new row carries its fields, current from then on, and nothing else is there |
| AuditSidecar.InterleavingsKeepHistory | scripts/migrate_stech_identifiers.py:576-605 | the same over any interleaving of both scripts' completed writes |
| IdentifierBackfill.DecisionsAreCautious | scripts/migrate_stech_identifiers.py:162-233 | a canonical decision is a verified variant identifier, and a quarantined one is never canonical |
| IdentifierBackfill.DecidesExactly | scripts/migrate_stech_identifiers.py:162-233 | the decision, case by case: nothing without a legacy value, a review without a document, and otherwise kind, verification, canonical choice and review as the document says of that value |
| IdentifierBackfill.Session.ApplyBackfill | scripts/migrate_stech_identifiers.py:479-610 | the apply leaves exactly the specified identifier rows, references and audit rows and reports the specified counts; `ApplyLands`, `ReviewsLand` and `CountsAreAttempts` say what these are |
| IdentifierBackfill.ApplyLands | scripts/migrate_stech_identifiers.py:541-574 | every value its match did not currently hold gets its own row with the decision's kind, value and source, and nothing else is inserted; the match of a canonical one refers to that row, and every other reference is what it was |
| IdentifierBackfill.CountsAreAttempts | scripts/migrate_stech_identifiers.py:493-610 | the counts reported are the decisions with a value, the canonical ones and the quarantined ones |
| IdentifierBackfill.ApplyKeepsSound | scripts/migrate_stech_identifiers.py:541-574 | the current-row key stays unique, and a canonical reference is null or names an existing row of its match |
| IdentifierBackfill.ApplyTwice | scripts/migrate_stech_identifiers.py:479-610 | a second apply leaves identifier rows and references as they were and reports the same counts; it changes nothing at all if and only if no decision is quarantined, and each quarantined one gets a new current audit row |
| IdentifierBackfill.ReviewsLand | scripts/migrate_stech_identifiers.py:576-603 | after an apply every quarantined decision has its own new, current review row with its evidence, exactly the rows that were current for its match are superseded, and no other row is new or changed |
| IdentifierBackfill.UndoRestoresExactly | scripts/migrate_stech_identifiers.py:694-734 | apply followed by the generated undo restores identifier rows and references if and only if no earlier row of a touched match carries that timestamp |
| IdentifierBackfill.UndoneIdentifiers | scripts/migrate_stech_identifiers.py:719-728 | the undo statements delete exactly the rows stamped for their matches |
| IdentifierBackfill.UndoOneRestoresRef | scripts/migrate_stech_identifiers.py:719-728 | one undo statement puts its match's reference back to what was read |
| Fetching.WindowHoldsFew | scripts/migrate_stech_identifiers.py:288-294 | spaced admissions put at most the window over the interval, plus one, into any window of time |
| ClassifierFetcher.LiveFetcher.RateLimit | scripts/classify_match_set.py:273-279 | the limiter returns only when the interval since every earlier admission to that origin has passed |
| ClassifierFetcher.LiveFetcher.RawGet | scripts/classify_match_set.py:281-306 | a request is made and logged exactly while budget is left |
| ClassifierFetcher.LiveFetcher.RobotsAllows | scripts/classify_match_set.py:308-334 | the first question to an origin settles its verdict, with at most one request, as rules after a success, as none after anything else, as a refusal without budget; the answer is that verdict's and later questions cost nothing |
| ClassifierFetcher.LiveFetcher.Fetch | scripts/classify_match_set.py:336-346 | at most two requests, never past the budget, the target only where the settled verdict permits it; a fetched outcome stands for a logged target request, except exactly when the robots check took the last of the budget; log and verdicts only grow |
| ClassifierFetcher.LiveFetcher.WindowsHoldFew | scripts/classify_match_set.py:273-279 | after any calls no window holds more than its length over half a second, plus one, admissions to one origin |
| BackfillFetcher.LiveFetcher.RawGet | scripts/migrate_stech_identifiers.py:311-348 | a request is admitted, made and logged exactly while budget is left |
| BackfillFetcher.LiveFetcher.GetWithBackoff | scripts/migrate_stech_identifiers.py:296-309 | at most three retries, each only after a 429 and only once its backoff since that answer, and any longer `Retry-After`, has passed; a final 429 means that all three were used, and a missing answer that the budget ran out or the transport failed |
| BackfillFetcher.LiveFetcher.Retry | scripts/migrate_stech_identifiers.py:300-308 | one retry waits for the table's delay and for any longer `Retry-After`, or is cut off by the budget |
| BackfillFetcher.LiveFetcher.Settle | scripts/migrate_stech_identifiers.py:352-366 | the last robots answer settles the verdict: rules after a 200 with a body, refusal after a 401, a 403 or without budget, none otherwise |
| BackfillFetcher.LiveFetcher.RobotsAllows | scripts/migrate_stech_identifiers.py:350-372 | a verdict is settled once and never changes, and the answer is that verdict's |
| BackfillFetcher.LiveFetcher.ProductJson | scripts/migrate_stech_identifiers.py:374-395 | the document is requested only where the settled verdict permits it, and each outcome tells what the last logged answer was: a bad status is no 429 and either not a 200 or empty, or else the budget is gone |
| BackfillFetcher.LiveFetcher.WindowsHoldFew | scripts/migrate_stech_identifiers.py:288-294 | after any calls no window holds more than its length over the interval, plus one, admissions to one origin |
| MatchClassifier.ConfirmedExactly | scripts/classify_match_set.py:143-186 | a match is confirmed delisted exactly when its identity is not misread and two of its absences are at least the gap apart |
| MatchClassifier.ClassifiesExactly | scripts/classify_match_set.py:134-229 | the whole classification, evidence and second pass included, for all facts: invalid, delisted, waiting for a second look, active exactly on a recent comparable success without any absence, or unknown |
| MatchClassifier.OrderForgotten | scripts/classify_match_set.py:168-200 | the whole result does not depend on the order of the absences |
| MatchClassifier.AbsencesAccumulate | scripts/classify_match_set.py:168-200 | another absence never undoes a confirmation and a first one never makes one |
| MatchClassifier.AbsenceOutranksSuccess | scripts/classify_match_set.py:168-200 | with any absence on record the latest observation has no influence |
| MatchClassifier.EnrichNeverObserved | scripts/classify_match_set.py:357-406 | the candidates reached are all of them or those before the budget ran out, each takes exactly its own turn at the fetcher, and the updates are exactly what the last answers of those turns say; every update is earned by one logged answer |
| MatchClassifier.FetchOne | scripts/classify_match_set.py:383-405 | one turn: a success with a body or a definite absence exactly as the last logged answer of the turn says, and nothing for any other |
| MatchClassifier.FindingExactly | scripts/classify_match_set.py:381-405 | only the last answer of the candidate's own address counts: a 2xx with more than 200 bytes is a comparable success now, a 404 or 410 one more absence, anything else nothing |
| MatchClassifier.UpdatedExactly | scripts/classify_match_set.py:373-406 | a candidate whose id is its own is updated exactly when its turn ended in a usable answer, and then as that answer says |
| MatchClassifier.RawNotFoundCounts | scripts/classify_match_set.py:143-186 | any raw 404 or 410 becomes an absence on record, which for every set of misread domains takes a match never observed to a second look, or to an invalid identity with none where its domain is misread and it has an identifier |
| MatchClassifier.OneFetchNeverConfirms | scripts/classify_match_set.py:391-406 | the live fetch alone never confirms a delisting; it asks for a second look unless the identity is misread |
| StrategyMigration.Database.BackfillMethods | alembic/versions/6e4a9c8f2d10_versioned_strategy_methods.py:206-226 | the INSERT leaves exactly one row for each joined profile, in whatever order it runs, keeping the priority index at every row |
| StrategyMigration.Database.LinkPreferred | alembic/versions/6e4a9c8f2d10_versioned_strategy_methods.py:227-235 | the UPDATE has one possible outcome although it may take any matching method |
| StrategyMigration.Database.LinkStats | alembic/versions/6e4a9c8f2d10_versioned_strategy_methods.py:282-292 | the statistics update links exactly the specified rows |
| StrategyMigration.Database.LinkOne | alembic/versions/6e4a9c8f2d10_versioned_strategy_methods.py:255-292 | both partial unique indexes hold after each single row of that update |
| StrategyMigration.OneProvenMethodEach | alembic/versions/6e4a9c8f2d10_versioned_strategy_methods.py:206-235 | each profile with a preferred access method and a same-workspace competitor gets exactly one active priority-zero method, which is the one it names, with its profile's access, extraction and confirmations and the competitor's scrape profile before the workspace's; every other profile gets none |
| StrategyMigration.MethodsKeepIndex | alembic/versions/6e4a9c8f2d10_versioned_strategy_methods.py:181-187 | any part of the backfill keeps the active-priority index |
| StrategyMigration.LinksFollowThePreference | alembic/versions/6e4a9c8f2d10_versioned_strategy_methods.py:282-292 | a statistics row is linked exactly when it counts a half of its profile's preferred method, and to that method |
| StrategyMigration.UpgradeGivesNewSchema | alembic/versions/6e4a9c8f2d10_versioned_strategy_methods.py:236-292 | the upgrade satisfies every index and foreign key it creates |
| StrategyMigration.Database.Downgrade | alembic/versions/6e4a9c8f2d10_versioned_strategy_methods.py:416-442 | the downgrade keeps exactly the rows its self-join does not delete and drops the added columns and table |
| StrategyMigration.KeepsExactlyTheOldest | alembic/versions/6e4a9c8f2d10_versioned_strategy_methods.py:416-425 | the DELETE keeps a row exactly when its id is the smallest of its legacy key |
| StrategyMigration.EveryKeyKeepsOne | alembic/versions/6e4a9c8f2d10_versioned_strategy_methods.py:413-431 | every legacy key that had rows keeps exactly one |
| StrategyMigration.DowngradeGivesOldSchema | alembic/versions/6e4a9c8f2d10_versioned_strategy_methods.py:427-431 | from any database the new schema allows, the old unique constraint can be restored |
| StrategyMigration.DowngradeLosesNothingExactly | alembic/versions/6e4a9c8f2d10_versioned_strategy_methods.py:413-425 | the downgrade loses a statistics row exactly when two rows share a legacy key |
| StrategyMigration.UpgradeThenDowngrade | alembic/versions/6e4a9c8f2d10_versioned_strategy_methods.py:206-442 | the upgrade followed at once by the downgrade gives every table back |
| RlsManifest.CheckManifest | scripts/provision_db_roles.py:449-572 | the five parts of the check report exactly the specified findings in order, each kind of which the rows below pin in the manifest's and the catalogue's own fields |
| RlsManifest.SilentExactly | scripts/provision_db_roles.py:449-572 | the check reports no FAIL exactly when every non-partition relation is declared, its class agrees or is a GAP without tenant column, tenant families are enforced and the rest carry no `workspace_id` |
| RlsManifest.UnreviewedExactly | scripts/provision_db_roles.py:455-466 | the undeclared names are reported exactly as the sorted list of top-level relations missing from the manifest, if there are any |
| RlsManifest.AllReviewedExactly | scripts/provision_db_roles.py:455-473 | full coverage is reported exactly when no top-level relation is undeclared, with the number of them |
| RlsManifest.AbsentExactly | scripts/provision_db_roles.py:475-487 | manifest names without a relation are reported exactly as their sorted list, if there are any |
| RlsManifest.GapReportedExactly | scripts/provision_db_roles.py:489-513 | a relation declared as a gap is reported as closed exactly when it has row security, and as known, with the manifest's note, exactly when it has none |
| RlsManifest.MismatchReportedExactly | scripts/provision_db_roles.py:514-521 | a declaration other than a gap fails exactly when the relation shows another class: tenant root by its name, else by its `workspace_id`, else by its row security |
| RlsManifest.TenantDataReportedExactly | scripts/provision_db_roles.py:558-571 | a relation with `workspace_id` fails exactly when it is declared as neither WORKSPACE nor TRANSITIVE |
| RlsManifest.EnforcementReportedExactly | scripts/provision_db_roles.py:523-556 | the enforcement finding fails exactly when a tenant relation or a direct partition of one does not enable and force row security under a policy, and lists exactly those |
| RlsManifest.SilenceMeansIsolation | scripts/provision_db_roles.py:525-572 | with no FAIL, a relation with `workspace_id` is declared WORKSPACE, and it and each direct partition enable and force row security under at least one policy |
| RlsManifest.NoEscape | scripts/provision_db_roles.py:495-572 | a relation with `workspace_id` declared otherwise, as GAP say, or named `workspaces`, always fails |
| RlsManifest.SubPartitionEscapes | scripts/provision_db_roles.py:538-546 | a concrete silent check with an unenforced partition of a partition |
| RlsManifest.TreeEnforcedExactly | scripts/provision_db_roles.py:529-546 | under a silent check a tenant relation's whole partition tree enforces row security if and only if every member from the second level below it on does |
| RlsManifest.FlatSilenceIsolates | scripts/provision_db_roles.py:529-546 | where no partition is partitioned again, a silent check isolates every tenant relation's whole tree |
| ManifestFormat.LoadManifest | scripts/provision_db_roles.py:170-199 | the line loop computes the specified entries or the first error |
| ManifestFormat.LoadLineExactly | scripts/provision_db_roles.py:184-198 | for any tab-separated line: a comment or a blank line adds nothing; otherwise it is refused exactly for fewer than three solid fields, an unknown class or a name read before, in this order, or adds that name with that class and note |
| ManifestFormat.LineEndsAtBreak | scripts/provision_db_roles.py:183-183 | the file is cut at every break that Python knows, a carriage return and its line feed being one |
| ManifestFormat.EmitManifest | scripts/provision_db_roles.py:739-764 | grouping and printing produce the specified text |
| ManifestFormat.LoadedIsLoadable | scripts/provision_db_roles.py:184-198 | every name any file loads is clean and every note tidy |
| ManifestFormat.PrintThenParse | scripts/provision_db_roles.py:739-764 | parsing a printed manifest returns exactly the non-partition names with their prior or implied class and note, if and only if every name is clean |
| ManifestFormat.PrintIsStable | scripts/provision_db_roles.py:739-764 | printing again from what was parsed gives the same file |
| FleetSeeder.PlannedExactly | scripts/seed_synthetic_fleet.py:180-215 | a plan is made exactly for positive counts and a ratio that rounds to between one and two matches per product, and its match count is the nearest |
| FleetSeeder.ExtraIndexesAreLowest | scripts/seed_synthetic_fleet.py:256-271 | exactly the planned number of products carries a second match, the ones with the lowest draws |
| FleetSeeder.UrlsDiffer | scripts/seed_synthetic_fleet.py:274-296 | the two URLs of a product differ |
| FleetSeeder.SecondariesMissPrimariesExactly | scripts/seed_synthetic_fleet.py:290-295 | no second SKU can name a product of the store exactly up to 250,000 products |
| FleetSeeder.SkuInjective | scripts/seed_synthetic_fleet.py:176-177 | different numbers give different SKUs, negative ones included |
| UrlIdentity.BelowBase | libs/shared/app_shared/url_pattern.py:37-60 | the identity of a URL below a base is that of the base alone if it has a fragment, and otherwise ends in the appended path to the letter |
| UrlIdentity.CollideExactly | libs/shared/app_shared/url_pattern.py:37-60 | two different paths below one base have the same identity if and only if the base has a fragment, whatever becomes of host and port |
| FleetSeeder.Chunks | scripts/seed_synthetic_fleet.py:564-572 | chunking loses, duplicates and reorders nothing, and only the last batch may be short |
| FleetSeeder.WriteStore | scripts/seed_synthetic_fleet.py:688-716 | the chunked inserts of one workspace write the specified rows and count them |
| FleetSeeder.BuiltIsExpected | scripts/seed_synthetic_fleet.py:494-561 | whatever ids are minted, the content of a store depends on the arguments and its index alone |
| FleetSeeder.RowsExactly | scripts/seed_synthetic_fleet.py:494-527 | products are numbered from one, each with one variant under its own SKU at the drawn price, and the refresh of a store starts its index times the spacing after the anchor |
| FleetSeeder.MatchIsOfProduct | scripts/seed_synthetic_fleet.py:274-296 | every match of a store belongs to one of its products and is that product's page, under its own SKU, or, for a planned extra one, its endpoint |
| FleetSeeder.ProductHasMatch | scripts/seed_synthetic_fleet.py:530-561 | every product's page, and every planned endpoint, is among the matches |
| FleetSeeder.NamesRead | scripts/seed_synthetic_fleet.py:171-177 | SKUs and slugs carry their number in at least six and three digits and can be read back |
| FleetSeeder.StoreSizes | scripts/seed_synthetic_fleet.py:494-561 | every store holds exactly the planned products, variants and matches |
| FleetSeeder.MatchKeysDistinctExactly | scripts/seed_synthetic_fleet.py:530-561 | no two matches of a store share the unique key if and only if the plan has no extra match or the base no fragment, whatever the host and the ids |
| FleetSeeder.UrlsReadable | scripts/seed_synthetic_fleet.py:543-546 | reading the port raises for the first URL of a store or for none |
| FleetSeeder.FragmentUnseen | scripts/seed_synthetic_fleet.py:390-420 | whatever fragment is added to an accepted base, it stays accepted |
| FleetSeeder.AcceptedBaseCollides | scripts/seed_synthetic_fleet.py:390-420 | every accepted base that names its host has accepted variants under which no store with an extra match keeps its keys distinct |
| FleetSeeder.FragmentBaseCollides | scripts/seed_synthetic_fleet.py:274-296 | `https://fixture.example/#x` is accepted and makes the keys of every store with an extra match collide |
| FleetSeeder.FleetDb.SeedStore | scripts/seed_synthetic_fleet.py:674-728 | a workspace is written whole, exactly when there is time for its commit, the base's port can be read, and there is no extra match or no fragment in the base; or not at all |
| FleetSeeder.FleetDb.SeedFleet | scripts/seed_synthetic_fleet.py:610-743 | a run cut off at any commit, or aborted because of its base, keeps every earlier store and adds only expected ones, none at all under such a base; when it ends it has all of them, the limits of its domain, and reports the right totals |
| FleetSeeder.ResumedEqualsUninterrupted | scripts/seed_synthetic_fleet.py:674-728 | however often a seeding is interrupted, once it completes the stores equal, up to ids, those of an uninterrupted run from the same start, and so do the limits of every domain |
| FleetSeeder.CompleteStays | scripts/seed_synthetic_fleet.py:677-686 | a run over a complete fleet changes neither stores nor limits |

## Left out

- Quotas are exact rationals: which of two domains with equal fractional parts comes first by floating-point noise is not modelled, nor is a quota whose float truncates to another integer.
- SHA-256, blake2b, canonical JSON, `barcode_keys`, `model_keys`, text cleaning, the normalisation of hosts and the robots grammar are arbitrary functions.
- UrlIdentity.CollideExactly: what a host with anything but lower-case letters becomes, and which ports can be read, are arbitrary functions; the bracket and Unicode checks of `urlsplit`, which raise, belong to the validator's `safe`.
- EffectiveProfile.FieldInForceLostExactly: answers cached from an earlier resolution and the profile's other columns are not modelled.
- CatalogLoad.Loader.Load: needs a batch of at least one row, since what a driver does with a smaller `fetchmany` is its own; two loaders at once, VACUUM and the free-space figures are not modelled, and a price that is not a number counts as a crash.
- CompletionSla.ComputeCompletionSla: the report's echo of its inputs, its rounded means and its notes are not modelled.
- EffectiveAccess.TierInForceDropsExactly: answers cached from an earlier resolution are not modelled, and a URL's domain is taken as registered.
- CatalogReaders.PinnedReaderFinds: the lookup's stages, scores and filters on the rows it reads are not modelled.
- SampleDraw.ValidateOnDrawn: the default strata and the probing statistics they test are arbitrary predicates.
- ScopingGuard.CheckFile: files that cannot be read or parsed, the path allowlist and the tree's expression-context nodes are not modelled; two calls are two nodes even on one line.
- PriceKeySearch.SiblingCurrency: digits outside ASCII, which Python's `isdigit` accepts, are not array indexes here.
- IdentifierBackfill.Session.ApplyBackfill: the CSV files are not written; the undo statements act on the state directly.
- BackfillFetcher.LiveFetcher.ProductJson: decoding and unwrapping the document after a good answer is not modelled; redirects inside the HTTP library are not either.
- ClassifierFetcher.LiveFetcher.Fetch: which transport error occurred is not modelled.
- StrategyMigration.Database.Upgrade: the scrape-profile revisions, the added empty columns, the row-security policies and the plain indexes carry no decision and are not modelled; ids compare as code-point strings.
- Onboarding.Session.Onboard: probing, the printed report and the columns that no step reads or writes are not modelled; `recommend_access` is an input.
- ManifestFormat.LoadManifest: an error carries the offending line, not its number; the header is any text of comments and blank lines.
- RlsManifest.CheckManifest: finding texts are structured values; the role, ownership and revision checks are not modelled.
- FleetSeeder.FleetDb.SeedFleet: the staging guards, progress output and elapsed time are not modelled; the fixed columns of the rows carry no decision.
- The threshold reports, gate evaluations, release manifests, configuration diffs and remaining seed wrappers: each is settled by reading one branch.

# Superkiro: verified models

Dafny models of the parts of Superkiro where a mistake costs money or data, and proofs of what they
are relied on for. `dafny verify dfyconfig.toml` checks all of it.

- **Releases** (`ReleaseWorld`, `ReleasePromotion`). The promotion of a release candidate as one
  transaction over a machine that keeps serving: containers, the `current` link, the live data, the
  copy of the stopped data, the environment files, the record and the lock. Each remote command may
  be lost, refused, or take effect and still be reported as failed, and any requests may be served
  between two commands, as any schedule at all says; every proof is over all such runs. `trace` holds
  every instant of a run. What a promotion, or a recovery from wherever it failed, does when all goes
  well, or all but one thing, is proved for the schedules on which it does (`CalmFrom`; `Undisturbed`
  gives them).
- **Pricing** (`Pricing`, `FaceValue`, `KeepMargin`, `Charging`, `Verdicts`, `Migration`,
  `Planning`, `RouteCosts`, `FreshIds`). Time-versioned price tables with their fallbacks, in exact arithmetic;
  the plans that republish prices; what a request is charged and has to reserve.
- **Backups** (`Generations`, `Bundles`, `Retention`). A reader capturing a committed generation while
  the billing engine writes, commits and prunes; bundles published atomically, verified and pruned file
  by file, each call of which may fail or be the last before the process dies (`Fates`); the directory
  over any number of such nights.
- **Lists, files and stores**: the ledger CSV (`Csv`, `Ledger`), the order of models and the listing
  of a new one (`Ordering`, `Placement`, `FirstPrice`, `Listing`), the paged card list (`Cards`), the download
  store and the signed update message (`Versions`, `Publication`, `SignedMessage`), pending balance
  adjustments (`Adjustment`), amounts as text (`Decimals`, `AmountFields`), health by attempt (`Health`).

Code that advances step by step is a class or a loop and is proved against a predicate or a function;
the theorems are lemmas about those.

## What the models show of the code

Six properties one would expect fail on some inputs. Each is stated exactly, for all inputs.

- *A rollback can leave the new release current.* The switch is `ln -s`, then `mv -T`. If the forward
  switch stops between the two, its link stays; the rollback's `ln -s` then makes its link inside the
  directory that link names, exits 0, and the `mv` puts the new release in place, while the record
  says `rolled_back`. This happens if and only if the forward switch left its link
  (`RollBack`, `SwitchExact`, `RollbackCanSwitchForward`); a promotion in which that one `mv` is lost
  and everything else succeeds ends so (`Promote`). The data and the containers are the previous
  release's all the same.
- *Up, then down is not always where it was.* It is exactly when the model was not the first of its
  group, or is its only one (`UpThenDown`, `FirstComesSecond`).
- *A cut ledger does not always read back.* It does exactly when the last record kept does not end
  inside quotes (`CutReadsBack`, `UnclosedChanges`).
- *Prices planned together can share a table, model and time.* A free time is sought among the
  published prices only. The planned ones are unique exactly when no two of the mappings they are
  for are charged at the same price (`PlannedStartsUnique`, `SharedPriceClashes`).
- *A margin moves when another mapping's is kept.* A planned version moves the price of every mapping
  charged at it. The ratio of price to cost multiplier stays for exactly those whose own cost
  multipliers ask for the same new price multiplier (`RatioStaysExactly`, `OtherMarginMoves`).
- *A bundle in view does not always verify.* Retention removes a bundle file by file under its visible
  name. Stopped after the first file it leaves one that does not verify; no later retention removes it,
  and it stays in view for ever. From an empty directory on, all bundles in view verify if and only if
  no removal so far stopped between a bundle's first file and its directory (`RemovalCanBreak`,
  `BrokenIsForever`, `VerifyUntilCut`).

## Model

| member | source | states |
|---|---|---|
| ReleaseWorld.OpSafe | deploy/release_candidate.py:364-373 | A command sent only when allowed keeps the machine's invariant and is a safe step: data is replaced only while both containers are stopped, a marked copy never changes, a public release is never stopped |
| ReleaseWorld.ServeSafe | deploy/release_candidate.py:364-373 | Requests served between two commands keep the invariant, and none is accepted while ingress is down |
| ReleaseWorld.BackupIsForever | deploy/release_candidate.py:433-437 | Over any run, once `data.complete` exists the copy of the stopped data is never removed or changed |
| ReleaseWorld.AcceptedIsNeverRewound | deploy/release_candidate.py:464-471 | Over any run, a write accepted through ingress by either release is in the live data at every later instant, or in the verified copy being renamed in while everything is stopped |
| ReleaseWorld.PublicIsForever | deploy/release_candidate.py:481-510 | Over any run, once customers reach the new release it stays up and its ledger only grows |
| ReleaseWorld.CurrentIsKnown | deploy/release_candidate.py:371-373 | Over any run, `current` is the release it was at the start, whichever that was, or one of the two |
| ReleaseWorld.LinkedWasVerified | deploy/release_candidate.py:446-449 | Over any run, wherever the new release is current, by whichever switch, or a link to it waits, its image ran at an earlier instant and had loaded the ledger sequence that was backed up, where there is one |
| ReleaseWorld.SwitchExact | deploy/release_candidate.py:371-373 | The two commands of a switch put their target in place if and only if no link was left over; else the leftover's target becomes current |
| ReleaseWorld.RollbackCanSwitchForward | deploy/release_candidate.py:371-373 | The commands of it: after a forward switch that stops between its two, a rollback's two exit 0 and make the new release current |
| ReleasePromotion.Promotion.Do | deploy/release_candidate.py:49-60 | One remote command among served requests: lost, refused, or done and perhaps reported as failed; reported done, it was; on a smooth schedule it is done and reported as it exits |
| ReleasePromotion.Promotion.WaitGateway | deploy/release_candidate.py:355-361 | Passes only if the gateway runs the image named |
| ReleasePromotion.Promotion.VerifyLedgerLoaded | deploy/release_candidate.py:156-164 | Passes only if the gateway loaded the ledger sequence read from the stopped data, when there is one |
| ReleasePromotion.Promotion.StopServices | deploy/release_candidate.py:364-368 | Reported done, both containers are stopped; data only grows until then, links and saved files stay |
| ReleasePromotion.Promotion.SwitchCurrent | deploy/release_candidate.py:371-373 | Every way a switch can end, from a clean start and over a leftover link; undisturbed it succeeds, and with its renaming lost it leaves its link |
| ReleasePromotion.Promotion.Preflight | deploy/release_candidate.py:389-416 | Passed, the build succeeded, the previous release is current, every digest is the recorded one, both images are under their tags, the previous one runs and there is room; with every answer received it passes exactly then, and refuses exactly when a check other than the migration's is the first to fail |
| ReleasePromotion.Promotion.CopyConfiguration | deploy/release_candidate.py:417-419 | Production only serves; reported done, the copy of the environment files is equal to them |
| ReleasePromotion.Promotion.StopCleanly | deploy/release_candidate.py:424-433 | The stop counts as clean only if the gateway is found to have stopped normally; undisturbed both containers are stopped either way |
| ReleasePromotion.Promotion.BackUp | deploy/release_candidate.py:424-441 | The phase becomes `backed_up` only with a verified, marked copy of the cleanly stopped data and the sequence it names; the environment files stay as they are, and the phase is recorded before it succeeds |
| ReleasePromotion.Promotion.ApplyStaged | deploy/migrate_browser_auth.py:24-33 | A migration's environment files are in place as staged only after they were rehearsed, found staged and read; the data stays |
| ReleasePromotion.Promotion.Launch | deploy/release_candidate.py:442-452 | The phase becomes `exposing` only with the pinned image running, the backed-up sequence loaded, the new release current, and the environment files as the job wants them; the phase is recorded before ingress is touched |
| ReleasePromotion.Promotion.Expose | deploy/release_candidate.py:453-459 | Success means the whole deployed state; whatever fails, the new release stays launched |
| ReleasePromotion.Promotion.RewindData | deploy/release_candidate.py:466-471 | Done, the live data is the verified copy and the candidate's data is kept; the services stay stopped throughout |
| ReleasePromotion.Promotion.RollBack | deploy/release_candidate.py:464-480 | Done, the previous release serves its own data and configuration; the wrong release is current if and only if the forward switch left its link |
| ReleasePromotion.Promotion.BringIngressUp | deploy/release_candidate.py:481-488 | The new release, once current and verified, is only ever brought up; undisturbed customers reach it in the end, whether ingress was down or up |
| ReleasePromotion.Promotion.RestartPrevious | deploy/release_candidate.py:489-499 | Done, the previous release serves again, current, and the unfinished copy is gone |
| ReleasePromotion.Promotion.Undo | deploy/release_candidate.py:460-507 | What recovering makes of each phase, undisturbed and otherwise |
| ReleasePromotion.Promotion.Recover | deploy/release_candidate.py:460-513 | The recovery is chosen by the phase reached, and each outcome recorded implies its production state. Undisturbed it brings a launched release up to customers, puts copied data back, restarts the previous release after a failed copy, leaves stopped what stopped abnormally, and records the outcome |
| ReleasePromotion.Promotion.Attempt | deploy/release_candidate.py:423-459 | Wherever the transaction stops, the phase says what holds of production; success is the deployed state; it goes no further than its first failed command or look, and each single mishap leaves its own phase |
| ReleasePromotion.Promotion.Transact | deploy/release_candidate.py:422-513 | What a status recorded says of production; it succeeds if and only if no command or look failed; where it fell, recovering undisturbed ends as `Recover` says; and what each single mishap comes to |
| ReleasePromotion.Promotion.Promote | deploy/release_candidate.py:376-519 | Over all runs: every instant is safe; `deployed`, `rolled_back` and `restarted_previous` each imply their full state, environment files included, and a clean stop; a refusal changed nothing; production only serves until the stop is recorded; it fails if and only if a command or a look failed; wherever it fell, a recovery undisturbed from there on ends as `Recover` says. On a smooth schedule it succeeds if and only if its preconditions hold and its backup directory is new. With one mishap: an abnormal stop, and all stays stopped, the previous release current; the forward switch's renaming lost, and it is recorded rolled back with the new release current; the record of exposing lost, and customers reach the new release; the copy lost, and the previous release serves again |
| ReleasePromotion.Promotion.TakeLock | deploy/release_candidate.py:75-76 | The lock is taken only if it was free, and stays taken by whoever has it |
| ReleasePromotion.Promotion.PromoteLocked | deploy/release_candidate.py:73-89 | The lock is free at the end only if the release is deployed or nothing at all was changed; under another's lock nothing happens; on a smooth schedule it succeeds exactly when the lock is free and the promotion may begin |
| Pricing.LatestFacts | deploy/migrate_official_pricing.py:122-129 | The latest version of a name applies, none that applies starts later, and there is one if any applies |
| Pricing.LatestIsFirst | apps/admin-ui/src/priceChange.ts:35-38 | Of versions that start at the same time the first in the list is the latest |
| Pricing.InForceIsLatest | apps/admin-ui/src/priceChange.ts:35-45 | A price in force is the latest version of its own name |
| Pricing.InForceRelates | deploy/migrate_official_pricing.py:122-129 | Lists that agree, up to any relation, on the latest of every name agree on the price in force, fallbacks and `*` included |
| Pricing.LatestSteady | deploy/migrate_official_pricing.py:122-129 | The latest of a name stays the same until something of that name starts |
| Pricing.CreditsAre | apps/admin-ui/src/officialPricing.ts:74 | A price's credits are its CNY price over the face value in micro-credits, to the nearest, up from the middle |
| Verdicts.GatheredIsClean | deploy/migrate_official_pricing.py:320-345 | Gathering one replacement per price in force stops exactly when a model is refused or two models sharing a price would replace it differently |
| Migration.RepublishAll | deploy/migrate_official_pricing.py:320-345 | What is republished is exactly what callable models' verdicts say, each price once; there is a problem if and only if one is refused or two disagree |
| Migration.VerdictMeans | deploy/migrate_official_pricing.py:132-155 | A version is republished only as itself with a block that gives its credits and, as the server compares them, its costs |
| Migration.OfficialPriceTable | deploy/migrate_official_pricing.py:198-216 | The live entries and every callable target they lack that the policy prices, and exactly the others are missing |
| Migration.CostChanges | deploy/migrate_official_pricing.py:258-289 | There is a problem if and only if some route of some callable mapping is not shown to cost the same; a route is named unchanged if and only if it is shown so for some mapping |
| Migration.MakePlan | deploy/migrate_official_pricing.py:308-356 | The plan: its versions, settings, problems, and that nothing is sent exactly when nothing changes |
| Planning.PlanExactly | deploy/migrate_official_pricing.py:308-356 | A plan has no problem if and only if every callable mapping is ready, mappings that share a price are billed alike, and every route costs alike: the very same answer, or the same CNY prices however found. Ready: group and own multiplier are 1, and the price in force is official, or is its own name's, fixed CNY without multiplier or charge by call, nothing later scheduled, and its credits and, nearly, its costs are those of the policy's block |
| Planning.PlanPublishes | deploy/migrate_official_pricing.py:308-356 | Without problems exactly the prices that are not official are republished, from the stamp, unchanged but for a block that records the policy, one to a table and model |
| Planning.ReadyIs | deploy/migrate_official_pricing.py:132-155 | A callable mapping is refused exactly if it is not ready; else its price is official or is republished as it is |
| Planning.PolicyPriceIs | deploy/migrate_official_pricing.py:198-216 | An official price is entered for an upstream model exactly if the policy has one under the name it is priced as, unstamped |
| Migration.DefaultsExactly | deploy/migrate_official_pricing.py:173-189 | The settings the plan leaves, field by field and route by route |
| Migration.ChargingUnchanged | deploy/migrate_official_pricing.py:308-345 | For every table, list of names and time, the price in force with the new versions has the credits, costs, currency, mode and multiplier of the one without |
| Migration.BlocksReproduce | deploy/migrate_official_pricing.py:145-155 | Each new version's block gives its credits exactly, its costs as the server compares them, at the live face value |
| Migration.CostsUnchanged | deploy/migrate_official_pricing.py:219-289 | Without problems and missing prices, every callable route, primary or fallback, costs at all times, whatever is scheduled, exactly what it cost before, and that was in CNY |
| Migration.PlanPreserves | deploy/migrate_official_pricing.py:308-356 | Both at once, for a plan without problems and missing prices |
| Migration.PlanAgain | deploy/migrate_official_pricing.py:308-370 | Planning again on what was published, read back with whatever times the server stamps on the official prices, once live and with nothing else started, yields no update and no problem |
| RouteCosts.CostsAgree | apps/admin-ui/src/officialPricing.ts:177-186 | For every configuration, mapping, route and time, the console's search finds the cost that settlement's search finds |
| FreshIds.FreshId | apps/admin-ui/src/priceChange.ts:104-113 | An ID not taken: the base, else the least free number from 2 on; the search ends |
| FaceValue.MakeFacePlan | apps/admin-ui/src/officialPricing.ts:265-280 | Exactly the live prices computed from an official one at other rates are repriced, in order, under new IDs; the scheduled ones are withdrawn; the others are listed |
| FaceValue.InForceRepriced | apps/admin-ui/src/officialPricing.ts:259-280 | From the publication on, the price in force for any table and names is the one without it, or its repricing at the new face value and dollar |
| FaceValue.SecondPlanEmpty | apps/admin-ui/src/officialPricing.ts:265-280 | Once published, the same rates ask for nothing more |
| FaceValue.WorthKept | apps/admin-ui/src/officialPricing.ts:73-76 | With the dollar as it was, a price's CNY value moves by at most half a micro-credit at each face value |
| FaceValue.InForceWorthKept | apps/admin-ui/src/officialPricing.ts:253-280 | From the publication on, with the dollar as it was, each kind of token under the price in force for any table and names is worth in CNY what it was without the plan, to those two half micro-credits |
| FaceValue.InForceFollows | apps/admin-ui/src/officialPricing.ts:93-280 | From the publication on, the price in force for any table and names costs what it cost times the new dollar over the old, and its credits are worth so in CNY to half a micro-credit at each face value; it stays fixed and in CNY, and one that charged nothing still does |
| KeepMargin.FreeTime | apps/admin-ui/src/officialPricing.ts:246-250 | The first minute from the one asked for at which none of the prices starts; the search ends by the versions still ahead |
| KeepMargin.KeepMarginPlan | apps/admin-ui/src/officialPricing.ts:399-416 | One new version for each model and price table whose first mapping's price moves, in order, under a new ID |
| KeepMargin.MovesExactly | apps/admin-ui/src/officialPricing.ts:405-409 | A price moves if and only if it is an official one, its primary route is costed before and after, its cost multipliers differ, and the price multiplier in proportion, to the nearest fourth decimal, is above 0 and at most 100 |
| KeepMargin.PriceNowIs | apps/admin-ui/src/priceChange.ts:35-45 | The price that moves is the latest of the model's own name, else of its upstream model's, else of any model's; an empty name has none |
| KeepMargin.PlannedExactly | apps/admin-ui/src/officialPricing.ts:407-413 | What is planned, in full: the official price at the moved multiplier, the new cost, dollar and face value, as a fixed CNY price charged and costed by that block |
| KeepMargin.DecidingExact | apps/admin-ui/src/officialPricing.ts:401-409 | The deciding mappings are exactly those first of their model in their price table whose price moves |
| KeepMargin.DecidingDistinct | apps/admin-ui/src/officialPricing.ts:400-404 | No two of them are of one model in one price table |
| KeepMargin.RatioKept | apps/admin-ui/src/officialPricing.ts:408-409 | The price multiplier over the cost multiplier stays to 1/(20000 x new cost multiplier) |
| KeepMargin.RatioStaysExactly | apps/admin-ui/src/officialPricing.ts:394-413 | Of all mappings charged at the price that moves, the ratio of price to cost multiplier stays for exactly those whose own cost multipliers ask for the planned price multiplier |
| KeepMargin.OtherMarginMoves | apps/admin-ui/src/officialPricing.ts:399-413 | A model of another provider at a shared price: its cost stays and its price doubles |
| KeepMargin.SharedMarginKept | apps/admin-ui/src/officialPricing.ts:394-413 | For every mapping charged at the price whose own multipliers ask for the planned one, and each kind of token, price over cost stays, to half a fourth decimal of the price multiplier and half a micro-credit of each price |
| KeepMargin.MarginKept | apps/admin-ui/src/officialPricing.ts:394-413 | So for the mapping the plan was made for, over the recorded cost: when only cost multipliers change, for each kind of token the planned price over the planned cost is the old price over the old cost, to half a fourth decimal of the price multiplier and half a micro-credit of each price |
| KeepMargin.RecordedCostIsBilled | apps/admin-ui/src/officialPricing.ts:296-306 | The cost a planned version records is what its primary route will cost |
| KeepMargin.PlannedInForce | apps/admin-ui/src/officialPricing.ts:394-416 | From its start, and at every time until another version of its names starts, every mapping charged at the price that moves is charged at the planned version, if no two deciding mappings share a price |
| KeepMargin.PlannedStartsUnique | apps/admin-ui/src/officialPricing.ts:242-250 | One price per table, model and time remains if and only if no two deciding mappings are charged at the same price |
| KeepMargin.SharedPriceClashes | apps/admin-ui/src/officialPricing.ts:399-416 | Two models charged at one upstream price are both planned at one time |
| Charging.ChargeMicro | apps/admin-ui/src/officialPricing.ts:188-193 | A million times the charge is the sum over the four kinds of tokens times price, times the multiplier, or less than a million more |
| Charging.AMillionCosts | apps/admin-ui/src/officialPricing.ts:188-193 | A million tokens of one kind, at multiplier 1, cost exactly that kind's price |
| Charging.ReservationIsDue | apps/admin-ui/src/officialPricing.ts:199-208 | A million times the reservation is the input at the dearest input-side price and the most output at its own, times the multiplier, or less than a million more |
| Charging.ReservationCovers | apps/admin-ui/src/officialPricing.ts:199-208 | What is reserved covers the charge for every split of at most the input tokens and at most the output tokens |
| Charging.ReservationTight | apps/admin-ui/src/officialPricing.ts:199-208 | Some split costs exactly what is reserved |
| Charging.ChargedInParts | apps/admin-ui/src/officialPricing.ts:188-193 | Two requests cost no less than one with the tokens of both, and at most one micro-credit more |
| Charging.ChargedInManyParts | apps/admin-ui/src/officialPricing.ts:188-193 | The same for any number of requests, each after the first adding at most one micro-credit |
| Generations.RunSound | crates/billing/src/engine.rs:1338-1374 | Over any steps of the writer, the anchor is the last commit's and the generation it names is there, whole |
| Generations.ActExactly | crates/billing/src/engine.rs:1338-1374 | A step writes or commits exactly a 64-bit number above every committed one, the anchor naming what the generation's file then holds; it removes exactly numbers below the newest committed one's predecessor, and nothing else changes |
| Generations.AttemptCaptures | deploy/backup/server-backup.py:149-173 | An attempt captures what was committed at its start, or is made again because the writer committed meanwhile; it never reports corruption |
| Generations.WasSyncedExactly | deploy/backup/server-backup.py:168-170 | The synchronized state is known exactly if a committed generation has its sequence and its digest |
| Generations.CaptureGeneration | deploy/backup/server-backup.py:147-174 | In any interleaving: a captured generation was the committed one, not older than the synchronized one; nothing is refused when that was committed; it gives up only if the writer committed during every attempt |
| Bundles.VerifiesExactly | deploy/backup/server-backup.py:225-261 | With its manifest intact, a bundle verifies if and only if its four other files are as published; then with the generation's sequence and digest |
| Bundles.VerifyExactly | deploy/backup/server-backup.py:225-261 | Any bundle verifies, with a sequence and digest, if and only if some manifest, snapshot, anchor, generation and checksum file are there and fit each other |
| Bundles.RemainderVerifies | deploy/backup/server-backup.py:225-261 | What is left of any bundle that verified verifies, as the same, if and only if none of the five files read is gone |
| Bundles.PartVerifies | deploy/backup/server-backup.py:185-261 | What is left of a published bundle verifies if and only if it is all there |
| Bundles.BackupVerifies | deploy/backup/server-backup.py:185-261 | What was captured verifies once published, with its sequence and digest, not older than the synchronized one |
| Bundles.BackupDirectory.Publish | deploy/backup/server-backup.py:185-222 | Wherever it fails or dies, nothing else changes and the new bundle is in view whole or not at all; what verified before goes on verifying |
| Bundles.BackupDirectory.Prune | deploy/backup/server-backup.py:264-282 | At its end exactly the old bundles of ours that verified are removed. Wherever it fails or dies, each item is as before or wholly removed, and was to be; but for one at most, which was to be and keeps some of its files. If all verified, all verify if and only if that one lacks none of the files verification reads |
| Bundles.BackupDirectory.RemoveTree | deploy/backup/server-backup.py:281 | The files one by one in any order, then the directory; wherever it stops, as many files are gone as there were steps |
| Retention.BrokenIsForever | deploy/backup/server-backup.py:264-282 | Over any run of publications and removals, each stopped anywhere, a bundle that does not verify stays in view as it is |
| Retention.RemovalCanBreak | deploy/backup/server-backup.py:281 | A view in which all verify, and the removal that stops after one file and leaves a bundle that does not |
| Retention.WholeOrBroken | deploy/backup/server-backup.py:185-282 | Over any run from an empty directory, a bundle in view is left of a published one, and verifies if and only if it is whole |
| Retention.VerifyUntilCut | deploy/backup/server-backup.py:185-282 | Over any run from an empty directory, at every point all bundles in view verify if and only if no removal so far stopped between a bundle's first file and its directory |
| Csv.CsvRecords | apps/admin-ui/src/period.ts:59-79 | The records in order, from the start of the text to its end, only line terminators between them, each with the cells read from its start |
| Csv.RecordsUnique | apps/admin-ui/src/period.ts:59-79 | A text has only one list of records |
| Csv.LinesReadBack | apps/admin-ui/src/period.ts:95-96 | Lines joined with a line break read back byte for byte with their cells, record by record, if and only if the last does not end inside quotes |
| Csv.WrittenReadsBack | apps/admin-ui/src/period.ts:55-79 | What is written by section 2 of RFC 4180, any fields quoted, with either line break, reads back as its rows |
| Ledger.LedgerForPeriod | apps/admin-ui/src/period.ts:85-97 | The header and the entries of the period, byte for byte, and their number; none without a `ts` column |
| Ledger.NewlineExactly | apps/admin-ui/src/period.ts:90 | The line break between entries is CR LF if the file has one anywhere, else LF |
| Ledger.KeptExactly | apps/admin-ui/src/period.ts:91-94 | The kept entries are those with a time not before the period and before its end, each once, in order |
| Ledger.CutReadsBack | apps/admin-ui/src/period.ts:81-97 | Read again, the cut has the header and the kept entries with the cells they had, if and only if the last of them does not end inside quotes |
| Ledger.UnclosedChanges | apps/admin-ui/src/period.ts:81-97 | A file whose kept entry changes when read again |
| Ledger.PeriodsAddUp | apps/admin-ui/src/period.ts:91-94 | The entries of two adjacent periods add up to those of their union |
| Ordering.GroupModelsIs | apps/admin-ui/src/listing.ts:55-58 | The group's models, each once, by place number and for equal ones as listed: the only such order |
| Ordering.UnnumberedIsZero | apps/admin-ui/src/listing.ts:53-58 | A model without a number is placed as with the number 0 |
| Ordering.Reorder | apps/admin-ui/src/listing.ts:64-72 | The models with the group numbered in the order after the move; all as they were if there is no such model |
| Ordering.ReorderMoves | apps/admin-ui/src/listing.ts:60-72 | The group is listed in the new order, numbered from 0; other groups and everything but place numbers stay |
| Ordering.UpThenDown | apps/admin-ui/src/listing.ts:60-72 | Up and then down restores the order if and only if the model was not first, or is alone |
| Ordering.FirstComesSecond | apps/admin-ui/src/listing.ts:60-72 | Two models whose first ends second |
| Placement.PlaceModels | apps/admin-ui/src/listing.ts:194-225 | It succeeds exactly when every chosen group can take the model, and refuses with the reason found; published, the new model is first, last or right after its anchor in each, every other model's order kept, other groups untouched; at an end its number is one before the group's least or behind its greatest, 0 in an empty group |
| Placement.ListableExactly | apps/admin-ui/src/listing.ts:197-217 | A group can take the model if and only if it exists, has a price table, has no entry called or also known so, and has the anchor |
| Placement.ListedOnce | apps/admin-ui/src/listing.ts:203-205 | In a published group exactly the new entry is called or also known so |
| Placement.RowsNumber | apps/admin-ui/src/listing.ts:78-81 | Publishing only the rows whose number changes numbers the whole group |
| FirstPrice.CanPriceExactly | apps/admin-ui/src/listing.ts:230-249 | A table can be priced if and only if it has no price of the model; or the model's, its upstream model's or any model's price is in force there, and it is kept, or the new one starts at once or later at a time when none of the model's does |
| FirstPrice.PriceTable | apps/admin-ui/src/listing.ts:230-257 | It succeeds exactly when the table can be priced, with at most one new price, named after the model and the time it starts, and refuses for the first reason found |
| FirstPrice.PriceTables | apps/admin-ui/src/listing.ts:226-257 | It succeeds exactly when each chosen table can be priced; then every table keeps its price, gets its first one, or one from later; one to a table, of chosen tables only, under new IDs, at free times |
| FirstPrice.PricedAtOnce | apps/admin-ui/src/listing.ts:226-257 | The moment it is published a listed model has a price in force in every chosen table: the new one where it is the table's first |
| Listing.BuildListing | apps/admin-ui/src/listing.ts:169-259 | It succeeds exactly when every chosen group can take the model and every table of theirs a price; published at any time from then, each new entry is in its place and has a price in force in its own group's table |
| Listing.ListedArePriced | apps/admin-ui/src/listing.ts:226-257 | The tables settled being those of the chosen groups, every new entry of the published list has a price in force |
| Cards.Client.Request | apps/admin-ui/src/api.ts:469-510 | A page is returned if and only if, after what ran before, the session is on, and nothing else runs until the answer arrived and was read; not logged in if and only if the session is off then; whatever ends the session meanwhile aborts the request, and an answer 401 ends it |
| Cards.PageExactly | apps/admin-ui/src/api.ts:590 | A page is the next 500 cards, or what is left of them |
| Cards.Client.ReadPage | apps/admin-ui/src/api.ts:585-602 | One more page: with no reason given it came smoothly, and the cards are the list's up to it; a smooth one gives no reason |
| Cards.Client.GetCards | apps/admin-ui/src/api.ts:585-602 | The list is returned exactly if every page came from one revision with nothing between; it is one snapshot, whole, without duplicates; no page received after the session was cleared is used |
| Versions.NewerIsStrictOrder | deploy/publish_native_windows.py:98-106 | Being newer is a strict order on versions, and only equal numbers are equally new |
| Versions.NewerExactly | deploy/publish_native_windows.py:98-106 | One version is newer than another if and only if at the first of the four places where their numbers differ, a missing one counting 0, its number is the larger |
| Versions.VersionIs | deploy/update_signing.py:29 | A version is one to four numbers of one to nine digits each, joined by dots |
| Publication.Store.Publish | deploy/publish_native_windows.py:134-165 | How it ends, by what it finds and how far it gets. Wherever it stops: no artifact changes, at most one signed entry to a target with its file and digest, and no target is offered a version below the one before |
| Publication.Store.PublishAll | deploy/publish_native_windows.py:134-165 | The same over any sequence of publications |
| Publication.RefusalMeans | deploy/publish_native_windows.py:79-95 | The manifest takes an entry if and only if no entry of its target has its version with another digest or, signed, a version above it |
| SignedMessage.MessageInjective | deploy/update_signing.py:34-49 | Equal signed messages are of equal entries |
| SignedMessage.MessageIs | deploy/update_signing.py:34-49 | The signed message is its six lines, for an entry of one of the three targets with a version, a size above 0 and up to 512 MiB, and a digest of 64 hexadecimal digits; any other entry has none |
| Versions.SplitJoins | deploy/update_signing.py:42-49 | Parts without the separator are read back from their join |
| Adjustment.Storage.SaveAdjustment | apps/admin-ui/src/adjustment.ts:19-25 | Done exactly if the very intent is stored, and each refusal exactly on its condition; another intent or damage is never overwritten |
| Adjustment.ValidExactly | apps/admin-ui/src/adjustment.ts:7-13 | Which intents are accepted, by their operator, card, amount, reason, key and linked request |
| Adjustment.TokenExactly | apps/admin-ui/src/adjustment.ts:9-10 | Which texts are keys: so many letters, digits, underscores, dots, colons and hyphens |
| Adjustment.LoadExactly | apps/admin-ui/src/adjustment.ts:14-19 | A valid intent is what its operator has exactly when it is stored under that name; only nothing stored is nothing there |
| Adjustment.InRangeExactly | apps/admin-ui/src/adjustment.ts:21 | A new amount is in whole micro-credits, at most a million credits either way |
| Adjustment.Storage.ClearAdjustment | apps/admin-ui/src/adjustment.ts:26-28 | Removes an intent only under its own key |
| Adjustment.IntentStays | apps/admin-ui/src/adjustment.ts:14-28 | Over any operations of any operators, a stored intent stays as it is until it is cleared under its own key |
| Adjustment.GoneIffCleared | apps/admin-ui/src/adjustment.ts:14-28 | It is gone at some moment of a run if and only if an operation of the run cleared it under its own key |
| Adjustment.DamageStays | apps/admin-ui/src/adjustment.ts:14-28 | What cannot be read is never overwritten or removed |
| Adjustment.OthersUntouched | apps/admin-ui/src/adjustment.ts:6-28 | An operator's intent is untouched by the operations of others |
| Decimals.PrintReads | apps/admin-ui/src/complexityRouting.ts:33-44 | Every amount is read back from its text as itself |
| Decimals.ReadPrints | apps/admin-ui/src/complexityRouting.ts:33-44 | An accepted text is printed again without superfluous zeros |
| Decimals.SameAmount | apps/admin-ui/src/complexityRouting.ts:33-44 | Two accepted texts are the same amount if and only if they differ in superfluous zeros only |
| Decimals.DecimalExactly | apps/admin-ui/src/complexityRouting.ts:35 | A decimal text is digits, or digits, a dot and one to six digits |
| Decimals.TextNatExactly | apps/admin-ui/src/complexityRouting.ts:35 | Digits read as a number in base ten |
| Decimals.MicroExactly | apps/admin-ui/src/complexityRouting.ts:36-37 | It stands for its whole part times a million, and each place behind the dot a tenth of the one before |
| AmountFields.YuanRoundTrip | apps/admin-ui/src/complexityRouting.ts:33-44 | `yuanToMicro` after `microToYuan` returns every safe amount |
| AmountFields.YuanReprints | apps/admin-ui/src/complexityRouting.ts:33-44 | An accepted yuan text is shown again without superfluous zeros |
| AmountFields.PointsRoundTrip | apps/admin-ui/src/compensation.ts:27-30 | `decimalToMicro` after `microToPoints` returns every amount, signed or not |
| AmountFields.LimitRoundTrip | apps/admin-ui/src/cardSupport.ts:147-165 | `parseLimit` after `limitInput` returns every limit a card can have |
| AmountFields.YuanExactly | apps/admin-ui/src/complexityRouting.ts:33-39 | A yuan text is accepted, as its amount, exactly if trimmed it is a decimal text of at most 32 characters below 2 to the 53rd |
| AmountFields.PointsExactly | apps/admin-ui/src/compensation.ts:92-97 | An amount of points is accepted exactly if trimmed it is a decimal text, or one behind a minus sign |
| AmountFields.LimitExactly | apps/admin-ui/src/cardSupport.ts:158-165 | A limit is accepted exactly if, trimmed and without commas, it is nothing, or a decimal text up to ten million credits |
| AmountFields.TrimExactly | apps/admin-ui/src/cardSupport.ts:159 | Trimming takes the white space off both ends and nothing else |
| AmountFields.CommasExactly | apps/admin-ui/src/cardSupport.ts:159 | Dropping the commas, ASCII and full-width, drops nothing else |
| Health.AttemptsFromTraces | apps/admin-ui/src/health.ts:27-53 | The windows by provider and by key are the tally of the attempts in the window |
| Health.CountsConserved | apps/admin-ui/src/health.ts:27-41 | Attempts and refusals are all the events; failures are exactly the failed, in sum and for each kind; taken over exactly those another provider made good |
| Health.TallyIs | apps/admin-ui/src/health.ts:27-53 | Each counter of a provider or key is the number of its attempts, in the requests later than a window ago and not later than now, that are what it counts: attempted, rightly refused, failed, made good by a later attempt of another provider, failed in one way |

## Left out

- Numbers: binary floating point is exact real arithmetic here, so the one rounding of a price to micro-credits and of a multiplier to 4 decimals are modelled and the rounding of each operation is not. A face value of 0 prices nothing; the source divides by it.
- Digests, signatures and JSON: SHA-256 is an injective function, a file's bytes and what they parse to determine each other, and Ed25519 is not modelled.
- ReleasePromotion.Promotion.Preflight: what the checks read of the server, besides the current link and the running image, is a value that does not change meanwhile.
- ReleasePromotion.Promotion.Do: nothing takes effect after its failure was reported, and containers neither crash nor restart between commands; the lock that is kept on any uncertainty is there for the first.
- Releases: customers' archived requests, which the copy leaves out, the local copy of the report, the copy taken off the server, old releases' removal and the build are not part of this model.
- ReleasePromotion.Promotion.Launch: the environment files of the optional browser-login migration are put in place as staged and restored on rollback; what is in them is not modelled.
- Migration: a malformed pricing policy is refused before anything here; the order of the added official prices, the revision check and the reading back after publication are not part of this model.
- FaceValue.InForceRepriced: IDs are unique, a table has one price of a model at a time, and no price starts between the plan and its publication, as the server keeps them and the source's caller does.
- KeepMargin.KeepMarginPlan: the order in which the mappings are gone through is the caller's, any order at all, instead of the one `modelEntries` sorts them in; the `rateCard` and model that name an entry are a pair instead of two lines of one text.
- Charging: prices with a per-call charge or from a multiplier on cost are charged elsewhere.
- Generations.CaptureGeneration: file size limits, file types and ownership are not modelled; a generation once committed is written by no one else.
- Bundles.BackupDirectory.RemoveTree: a bundle's directory holds files and links, no directories; the whole of a removal bears one time.
- Bundles.BackupDirectory.Publish: whether a write has reached the disk when power fails is not modelled; the identifier is of the shape the source makes.
- Ledger.LedgerForPeriod: how a cell reads as a number is a parameter.
- Placement.PlaceModels: IDs in the list are unique, as the server keeps them; checks of the form's own fields that only refuse are left out, and the shortening of the readable part of an ID to 128 bytes is a parameter, as is the date in a version's ID.
- FirstPrice.PriceTables: a price typed in credits, the older way, is left out; the official price's own limits are checked before.
- Cards.Client.GetCards: the server answers each page from the list it has then, and a revision identifies its contents; headers, timers, deadlines and retries are left out, the session's end at a deadline being one of the things that may happen at an await.
- Publication.Store.Publish: names are taken apart into target, version and digest; the checks of the public download that follow only report.
- Adjustment.Storage.SaveAdjustment: a reason's blanks are the ASCII ones; values of another JSON type count as damage.
- Health.AttemptsFromTraces: whether a trace was refused for its card or request is a flag of the trace.
- The console's components, acceptance scripts, launchers, HTTP, SSH, SFTP and Docker themselves, and all texts shown.

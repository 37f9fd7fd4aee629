# Verification of MyOriShop's core

This Dafny project models the parts of MyOriShop whose correctness is hardest to see from reading one
function, and proves what they promise.

- **Self-update** (`swap.dfy`, `ticks.dfy`, `launcher.dfy`, `outcomes.dfy`). One update cycle is a state machine over four
  directories, the processes that may be alive, and the database file. Every external step takes its outcome,
  including an interrupt between a rename and its flag, from an arbitrary record. `Swap` and `Ticks` hold the
  functional model and the results; `Launcher` runs the same steps on mutable fields and is proved equal to it;
  `Outcomes` reads off the fates alone when a cycle succeeds and what is there afterwards.
- **Inventory sheet import** (`receipt.dfy`, `dryrun.dfy`, `divergence.dfy`, `applied.dfy`, `importer.dfy`). The dry run and
  `--apply` as two runs of one step function with different memories, related by a simulation invariant; the exact
  condition under which other date forms make them part; and what each accepted row leaves in the tables.
- **Price history and names** (`prices.dfy`, `price_table.dfy`, `shades.dfy`, `archive.dfy`, `fullnames.dfy`,
  `names.dfy`). The
  chunked upsert against a field-wise overlay, the row scanner against a declarative rule, the choice of a spelling,
  and the two name-restoring passes.
- **Money, text and calendar** (`money.dfy`, `isotext.dfy`, `calendar.dfy`, `contacts.dfy`). Decimals as exact
  rationals with the 28-digit context explicit, Gregorian dates by day number, stored text in code-point order.
- **Ledger and audit** (`ledger.dfy`, `migration.dfy`, `corrections.dfy`, `catalog.dfy`). Tables with guards that
  abort statements, migration 0027, cached stock sums, price audit chains and active codes.
- **Offline bundle** (`html.dfy`, `offline.dfy`, `reading.dfy`). The JSON text, its escape in a page, the parser's script
  data states, the newline treatment of a form post, and the JSON reader at the other end.

`base.dfy` and `text.dfy` hold shared vocabulary. A class stands where the source updates fields, rows or files in
place; its methods are tied to functions, and the results are proved about those functions. `dafny verify
dfyconfig.toml` checks everything.

## Where the code differs from its documentation

Each point is a result with its exact condition or a concrete witness; the model follows the code.

- The rollback may restore the database under a live process in two cases: the migration call is broken off while
  its alembic child lives, or `start` is interrupted after the child exists and before its handle is stored
  (`Swap.DbRestoredQuietly`, with `Swap.BrokenMigrationRestore` and `Swap.OrphanedRestore`). `AppProcess.stop` keeps
  its handle when `terminate` itself raises, because that call stands before the `try`.
- `app` can be lost without a failing restoring rename, through an interrupt at the places `Swap.AppLostExactly`
  lists (`Swap.AppLostUnflagged` is one; `Ticks.AppGoneExactly` for any number of ticks); a marker also stays when
  its unlink after a successful cycle fails, or when reading it raises something other than ValueError
  (`Ticks.MarkerSeenAgain`).
- Canonical expiries suffice for the dry run to predict `--apply`. With expiries in other ISO forms it fails exactly
  when two rows of one code clash as `Divergence.DivergesExactly` says; two rows dated 20260131 do
  (`DryRun.BasicFormDiverges`).
- Python's IGNORECASE folds U+017F, U+0130 and U+0131 where the page's regular expression does not, so such tags are
  escaped and not restored (`Offline.RestoreUndoesEscape`, `Offline.DeliveredIntact`).
- Escaping `</script` is not the only thing an HTML parser asks for: text such as `<!--<script>` leaves the parser in a
  double escaped state, where the payload's own end tag does not close the element (`Offline.CommentedScriptIsLost`).
- Migration 0027 is not total: `astimezone` may overflow outside the `try` (`Migration.Upgrade`,
  `Migration.LastEveningOverflows`).
- `ShadeNameWouldShrink` is reachable, because the plan compares stripped lengths and the write stored ones
  (`Names.RefusedExactlyOnPadding`).
- A restored full name may be shorter than the current one when that holds long runs of white space
  (`FullNames.RestoredIsLonger`, with `FullNames.LongRunShortens`).
- A restored full name does not carry its type, letter case aside, when the type's first letter does not come back
  from its capital, as the micro sign, the final sigma, the long s and the dotless i do not
  (`FullNames.RestoredCarriesCurrent`, with `FullNames.MicroSignChanges`).
- A halved price of 28 digits may be rounded twice (`Money.SuggestionWithinPrecision`); none that a card can store is
  (`Money.StoredPricesAreHalfUp`).
- The over-removal gate of a correction also asks about an addition, when the batch stands so far below zero that
  the addition leaves it there (`Corrections.AdditionAskedBack`).
- `restore_product` does not check the code; the unique index raises an error that nothing catches
  (`Catalog.RestoreRaisesExactly`).

## Model

| member | source | states |
|---|---|---|
| `Swap.OldBundleSurvives` | launcher/swap.py:122-220 | For every outcome of every step, forward or in the handler, interrupts included: the old bundle is intact in `app` or `app_prev` at every recorded moment until the `try` body has ended without an exception (exactly when the health check passed, `Outcomes.ForwardExactly`); a normal return leaves the staged bundle in `app` and `staged` empty |
| `Swap.ForwardAnchored` | launcher/swap.py:129-160 | The invariant of the `try` body: once a rename is flagged `app_prev` is the old bundle, the second flag implies the first, and a body that does not raise ends on the staged bundle |
| `Swap.RollbackKeeps` | launcher/swap.py:162-218 | From any state with that invariant the handler, failing or cut at any step, keeps the old bundle |
| `Swap.MatchedPairRollback` | launcher/swap.py:129-218 | If the body fails, each rename and its flag being one step, and no restoring step fails (parking may, when discarding then works): `app` is the old bundle, the database is the backup exactly if migration was attempted and is untouched otherwise, a fresh process of the old bundle runs and is owned, and the exception raised is the original one; after an attempted migration that restarted process is the only one of the cycle alive, unless the body left a child no handle holds |
| `Swap.RollbackOutcome` | launcher/swap.py:162-218 | The handler re-raises what the body raised; only an interrupt can escape it instead |
| `Swap.UndoesRenames` | launcher/swap.py:181-205 | After a clean stop and parking or discarding, exactly the renames that were made are undone |
| `Swap.DbRestoredQuietly` | launcher/swap.py:175-216 | The database is restored over a live process of the cycle if and only if the body left a child that no handle holds (alembic, when the migration call was broken off before its child was gone, or the app, when `start` was interrupted between spawning it and storing its handle) and the restore is then reached |
| `Swap.ForwardProcesses` | launcher/swap.py:129-160 | The body leaves every process it answers for under its handle, or left exactly such a child and raised |
| `Swap.OrphanedRestore` | launcher/adapters.py:49-65 | A concrete run of the second case: the restore happens while the new app is alive |
| `Swap.BrokenMigrationRestore` | launcher/adapters.py:86-101 | A concrete run of the first case: Ctrl+C during the migration, and the restore happens while alembic is alive |
| `Swap.AppLostExactly` | launcher/swap.py:142-205 | A cycle that began with `app` ends without it if and only if one of the listed fault patterns occurs (renames cut from their flags, a failed or interrupted restoring rename, an interrupted second stop or removal after the swap) |
| `Swap.AppLostUnflagged` | launcher/swap.py:153-154 | One interrupt between the first rename and its flag, everything else calm, ends a cycle without `app` |
| `Swap.PidsForward` | launcher/adapters.py:49-83 | Process numbers stay fresh, so a process started by the body is never confused with an older one |
| `Outcomes.SucceedsExactly` | launcher/swap.py:122-220 | A cycle returns normally if and only if every step went well, the health check answered and passed, and the removal of the old bundle was not interrupted; then the staged bundle is in `app`, its process is the one owned, and directories, processes and database are given in full |
| `Outcomes.KeptUntilHealthy` | launcher/swap.py:122-220 | In every other run, above all one whose health check does not pass, the cycle raises, no moment of it removes the old bundle, and `app` or `app_prev` holds that bundle at every moment and at the end |
| `Outcomes.UnhealthyRollsBack` | launcher/swap.py:159-218 | A new version that comes up and does not get healthy is rolled back, when the handler works: the old bundle is in `app` and runs, the new one is in `app_failed`, the database is the backup, and HealthFailed is raised |
| `Outcomes.ForwardExactly` | launcher/swap.py:129-161 | The `try` body ends without an exception if and only if every step went well and the health check passed |
| `Ticks.MarkerSeenAgain` | launcher/__main__.py:72-168 | A marker is there for the next tick if and only if its read raised, its quarantine failed, or its unlink after a successful cycle failed; it is then unchanged |
| `Outcomes.AcceptsExactly` | launcher/__main__.py:72-168 | A marker is acted on if and only if it is an object with exactly the three keys, both paths stay inside the root, and it names the one staged directory, which is there |
| `Outcomes.UnreadTick` | launcher/__main__.py:112-133 | Without a marker, or with one that cannot be read, a tick changes nothing; a marker that is just being written is left for the next tick without an exception |
| `Outcomes.TickRunsExactly` | launcher/__main__.py:72-168 | A tick runs if and only if it read an accepted marker, the cycle succeeded and the marker could be unlinked; then the staged bundle is in `app` and runs |
| `Outcomes.MarkerSetAside` | launcher/__main__.py:72-168 | A refused or failed marker is moved aside, or stays if it cannot be moved; a refused one touches nothing else, a failed one raises what its cycle raised, which a failing move does not mask |
| `Ticks.ReplayRefused` | launcher/__main__.py:141-145 | A tick over a marker whose bundle the swap has already consumed runs nothing and touches neither directories, database nor processes |
| `Ticks.StagedMovesOnce` | launcher/swap.py:142-156 | A cycle moves `staged` away whole or not at all, and only the installing rename moves it |
| `Ticks.EntersOnce` | launcher/__main__.py:72-168 | Over any sequence of rounds with arbitrary markers and faults, no staged bundle enters `app` twice |
| `Ticks.UnbrokenKeepsApp` | launcher/swap.py:142-205 | A cycle in which no rename of `app` is left half done and no restoring rename fails ends with `app` present |
| `Ticks.AppAtEveryBoundary` | launcher/__main__.py:223-256 | Under those fates `app` is present at every tick boundary, whatever else fails |
| `Ticks.NoTickRecoversApp` | launcher/__main__.py:72-168 | Once `app` is gone no later tick puts anything there |
| `Ticks.AppGoneExactly` | launcher/__main__.py:223-256 | After any sequence of rounds `app` is gone if and only if it never was there or some round's cycle, begun with `app`, met one of the fault patterns of `Swap.AppLostExactly` |
| `Launcher.HealthOk` | launcher/adapters.py:104-149 | The poll loop answers true if and only if some poll before the deadline got an answer that counts: any nonzero status when no version is expected, otherwise status 200 with exactly that version |
| `Launcher.InstallRoot.Stop` | launcher/adapters.py:67-83 | Field-by-field stop equals `StopApp`: the handle survives a raising `terminate` and is dropped after a failed kill |
| `Launcher.InstallRoot.Start` | launcher/adapters.py:49-65 | Start equals `StartApp`, including the child whose handle was never stored |
| `Launcher.InstallRoot.Migrate` | launcher/adapters.py:86-101 | The migration call equals `RunMigration`, including the child it may leave alive |
| `Launcher.InstallRoot.RestoreDb` | launcher/adapters.py:152-164 | Copy, then both sidecar unlinks, each of which may be the last step |
| `Launcher.InstallRoot.TryUpdate` | launcher/swap.py:129-160 | The body with its three in-place flags reaches the state and the trace of `Forward` |
| `Launcher.InstallRoot.MakeRoom` | launcher/swap.py:143-154 | Stop, removal of the old anchor, the first rename and its flag reach the state, trace and flag of the functional form for every fate |
| `Launcher.InstallRoot.InstallAndRun` | launcher/swap.py:155-160 | The installing rename, its flags and the new code, as `Install` and `Launch` |
| `Launcher.InstallRoot.RunNewCode` | launcher/swap.py:155-160 | Migrate, start and health check, step by step, equal `Launch` |
| `Launcher.InstallRoot.RollBack` | launcher/swap.py:162-218 | The handler run on the fields equals `Rollback`, including the exception that escapes it |
| `Launcher.InstallRoot.PutAside` | launcher/swap.py:181-199 | Clearing `app_failed`, parking, and the discard that only an OSError triggers |
| `Launcher.InstallRoot.BringBackAndRestart` | launcher/swap.py:187-218 | The restoring rename only over an absent `app`, then database and restart |
| `Launcher.InstallRoot.RevertAndRestart` | launcher/swap.py:205-218 | The database reverts only after an attempted migration and a stop that succeeded; then the old code starts |
| `Launcher.InstallRoot.ApplyUpdate` | launcher/swap.py:66-220 | The whole cycle on the fields equals `Cycle`, so the results above hold of it |
| `Launcher.InstallRoot.QuarantineMarker` | launcher/__main__.py:59-69 | The marker moves aside or, on an OSError, stays |
| `Launcher.InstallRoot.RunOnceHere` | launcher/__main__.py:72-168 | One tick on the fields equals `RunOnce` |
| `Launcher.InstallRoot.Boot` | launcher/__main__.py:176-201 | The app is started only after a migration that did not raise |
| `Launcher.InstallRoot.Watch` | launcher/__main__.py:240-256 | The watch loop plays the rounds one after another, going on after a failed tick and ending on what is not an Exception |
| `Launcher.InstallRoot.WatchAndStop` | launcher/__main__.py:240-256 | Whatever ends the watch loop, the app is stopped last |
| `Receipt.EarliestIsFirst` | scripts/import_inventory_receipt.py:244-252 | The batch of the month query is a candidate that no other candidate precedes by expiry, then creation |
| `Applied.AppliedRow` | scripts/import_inventory_receipt.py:341-456 | What an accepted row leaves under --apply, for every store, sheet and position: a top-up adds exactly the pieces of the row to the decided batch, gives it the expiry of the row if the row has one and its old expiry otherwise, and changes no other batch; a new batch is appended with the card, pieces, date and time of its row; every other code keeps its card |
| `Applied.RefusedRow` | scripts/import_inventory_receipt.py:371-456 | For every store and sheet, --apply stops exactly at a row without a positive number of pieces, without a readable date for a new batch, or refused otherwise; it names its line, has written nothing of it and takes no row after it, and the internal error never occurs |
| `Applied.EarliestIsSoonest` | scripts/import_inventory_receipt.py:244-252 | Of the candidates of a month the chosen batch expires first, and of those the one created first |
| `Applied.SummaryCounts` | scripts/import_inventory_receipt.py:371-456 | In both modes the summary counts the rows taken, their pieces, the rows with a condition, each new card once, and the new cards without a price |
| `Applied.KnownProduct` | scripts/import_inventory_receipt.py:256-338 | A card is known if and only if the database or an earlier row has its code; a new one takes the consultant price as its cost and the consumer price as its sale price |
| `DryRun.InMonthIsMonthOf` | scripts/import_inventory_receipt.py:237-251 | For canonical expiries the LIKE filter of the month query is equality of year and month |
| `DryRun.SameDecision` | scripts/import_inventory_receipt.py:256-338 | From agreeing memories, the database under --apply and the pending sets of a dry run, `resolve_row` decides the same action, product novelty and prices |
| `DryRun.TopUpKeepsShapes` | scripts/import_inventory_receipt.py:341-368 | A top-up that rewrites an expiry changes nothing a later row can see |
| `DryRun.RunsPredict` | scripts/import_inventory_receipt.py:371-456 | The simulation invariant holds after any number of rows |
| `DryRun.DryRunPredictsApply` | scripts/import_inventory_receipt.py:371-456 | For every database, sheet and receipt outcomes with empty or canonical expiries: the actions of --apply are a prefix of the dry run's, and equal with equal counts while no receipt is refused; the internal error is unreachable |
| `DryRun.DryRunWritesNothing` | scripts/import_inventory_receipt.py:371-421 | A dry run leaves the database as it was |
| `DryRun.PredictedKeys` | scripts/import_inventory_receipt.py:272-304 | The dry run's predicted batches are exactly the distinct keys that no batch of the warehouse could take before the run |
| `DryRun.NewBatchesCounted` | scripts/import_inventory_receipt.py:272-304 | Under --apply the batches created are one per such key, and top-ups plus new batches are the rows written |
| `DryRun.StoreGrows` | scripts/import_inventory_receipt.py:424-453 | Conservation: the ledger gains exactly the counted batches and exactly the quantity summed over the sheet |
| `DryRun.TopUpTargets` | scripts/import_inventory_receipt.py:272-304 | A condition row tops up only a condition batch of this run; an ordinary row never does, and takes the earliest candidate |
| `DryRun.BasicFormDiverges` | scripts/import_inventory_receipt.py:232-253 | One sheet where the prediction fails: two rows dated 20260131 |
| `Divergence.DivergesExactly` | scripts/import_inventory_receipt.py:256-456 | For every tidy store and every sheet whose expiries are empty or dates in any ISO form, all receipts succeeding: the two action lists differ if and only if an ordinary row not written yyyy-mm-dd precedes an ordinary row of the same code that either repeats the seven characters of its month, or is the first canonical row of the month it denotes while the store offered no batch for that month; when the lists agree, so do all counts |
| `Divergence.RunsCharacterised` | scripts/import_inventory_receipt.py:371-456 | Each run's decisions are what the sheet and the initial store determine: the dry run goes by the month as written, --apply by the month of the stored date |
| `Divergence.ApplyDecision` | scripts/import_inventory_receipt.py:256-338 | Under --apply a row tops up exactly if its condition key was seen, or, for an ordinary canonical row, if the store or an earlier ordinary row put a batch on the shelf for its month |
| `Divergence.DryDecision` | scripts/import_inventory_receipt.py:256-338 | In a dry run a row tops up exactly if the store offered a batch for its month text or an earlier row had its key |
| `Divergence.LooseMonth` | scripts/import_inventory_receipt.py:168-174 | The month text of an expiry in another ISO form never names nor matches a canonical month |
| `Importer.RunImport` | scripts/import_inventory_receipt.py:371-456 | The loop over the sheet, writing the tables in place, equals `Run` in state, counters, stop line and actions |
| `Importer.Database.RegisterReceipt` | app/services/receipts.py:76-338 | Writes the batch or the quantity of `Register`, or nothing on a refusal |
| `Importer.Database.ApplyTopUpNotes` | scripts/import_inventory_receipt.py:341-368 | Writes the expiry of the row to the decided batch and nothing else; with the receipt of the row the result is what `Applied.AppliedRow` states |
| `Prices.UpsertIsOverlay` | scripts/import_prices.py:765-843 | For distinct triples the table becomes the field-wise overlay (incoming unless None); no row is lost, ids stay and new ones are distinct |
| `Prices.RecordsArrive` | scripts/import_prices.py:765-843 | Field by field: every record arrives in its row, a row that no record names is as it was, and nothing else is stored |
| `Prices.LastRecordCounts` | scripts/import_prices.py:861-888 | Of two records of one triple in a file the later one counts |
| `Prices.ImportsOnlyEnrich` | scripts/import_prices.py:765-843 | Over any sequence of imports no row disappears and no stored value becomes None |
| `Prices.SecondRunUnchanged` | scripts/import_prices.py:765-843 | A second run of the same records inserts nothing and changes no row |
| `Prices.ImportOrder` | scripts/import_prices.py:765-843 | Two sources commute if and only if they agree on the shared fields that neither leaves None |
| `Prices.MasterKeepsPoints` | scripts/import_master_pricelist.py:224-243 | The master list yields distinct triples and never touches a stored bonus point |
| `Prices.MasterPricesArrive` | scripts/import_master_pricelist.py:224-243 | The consumer and the consultant price of a line each arrive in their own field, for the issue of that line |
| `PriceTables.PriceTable.Classify` | scripts/import_prices.py:810-833 | The classifying loop finds exactly the absent records and the rows the source changes |
| `PriceTables.PriceTable.InsertInChunks` | scripts/import_prices.py:835-838 | Chunked inserts of any size equal one insert of everything |
| `PriceTables.PriceTable.UpdateInChunks` | scripts/import_prices.py:839-842 | Chunked updates of any size equal one update of everything |
| `PriceTables.PriceTable.UpsertPriceRows` | scripts/import_prices.py:765-843 | The three loops make the table the overlay for any chunk size of at least one: every record is stored field by field, the updated count is the number of rows that changed, the counts add up |
| `PriceTables.MergePriceExport` | scripts/import_prices.py:861-888 | The export file keeps every triple, takes this database's record whole, and counts additions and rewrites exactly |
| `Shades.SeriesTypeNamesSomething` | scripts/import_prices.py:339-345 | The type cut off a coded title is never empty |
| `Shades.SeriesTypeIsWords` | scripts/import_prices.py:339-345 | The type of a coded title is what stands before its last separator, whatever separators stand before that one |
| `Shades.PlainTitleIsType` | scripts/import_prices.py:339-345 | A title without dashes is its own type |
| `Shades.ShadeTextIsRest` | scripts/import_prices.py:347-356 | The text of a shade row is what follows its dashes and blanks, without blanks at the end |
| `Shades.SeriesShadeCredited` | scripts/import_prices.py:358-395 | A coded shade row below a coded title, with no other title in between, is worth exactly one count for the words of the title and the text of the shade |
| `Shades.OnlyCodedCredited` | scripts/import_prices.py:358-395 | A row is credited only if it and the nearest title above it carry a code of three to seven digits |
| `Shades.InheritsFromCodedTitle` | scripts/import_prices.py:375-394 | A shade inherits type t if and only if a coded title with type t lies above with no title of any kind in between |
| `Shades.ScanSheet` | scripts/import_prices.py:372-394 | The scanning state machine adds exactly the inherited credits of the sheet |
| `Shades.CollectShadeCandidates` | scripts/import_prices.py:358-395 | The counters say exactly what the declarative credits say; credited plus dropped is the number of coded shade rows |
| `Archive.ScanArchive` | scripts/import_prices.py:544-559 | The same over all readable files, unreadable ones being counted |
| `Archive.UnreadableCounts` | scripts/import_prices.py:544-559 | The files counted as unreadable are those that could not be read |
| `Archive.CreditsIgnoreOrder` | scripts/import_prices.py:544-559 | The archive's credits depend only on which files there are |
| `Archive.PickFullName` | scripts/import_prices.py:398-407 | The loop returns the best spelling by length, frequency and tuple order |
| `Archive.BestIsUnique` | scripts/import_prices.py:398-407 | There is only one best spelling |
| `Archive.BestMeans` | scripts/import_prices.py:398-407 | No recorded type is longer than that of the best spelling, among those as long none is more frequent, and among those as frequent it is the last one |
| `Archive.ChosenNameIgnoresOrder` | scripts/import_prices.py:398-407 | Any two readings of the same files choose the same name for a code |
| `FullNames.RestoreFullName` | scripts/import_prices.py:416-436 | A name is restored exactly if some recorded variant has the current name as its shade; the best of those variants names it |
| `FullNames.RestoredSpelling` | scripts/import_prices.py:410-436 | The restored name letter by letter: type, dash and shade with single blanks, the first letter raised and every other one lowered |
| `FullNames.RunsCollapse` | scripts/import_prices.py:410-413 | A run of white space between words becomes one blank and the words stay |
| `FullNames.RestoredLength` | scripts/import_prices.py:410-436 | A restored name has the length of a type, a dash and the current name with its runs of white space collapsed, whichever matching variant is chosen |
| `FullNames.RestoredCarriesCurrent` | scripts/import_prices.py:410-436 | Letter case aside it is that text if and only if the type's first letter comes back when its capital is lowered |
| `FullNames.MicroSignChanges` | scripts/import_prices.py:410-413 | A type that begins with the micro sign is not carried over: its capital lowers to another letter |
| `FullNames.RestoredIsLonger` | scripts/import_prices.py:426-428 | It is longer than the current name if and only if the type outweighs what collapsing takes away; without such runs always |
| `FullNames.LongRunShortens` | scripts/import_prices.py:426-436 | Next to every type there is a current name, with a long run of blanks, that its restored form is shorter than |
| `Names.PlanUpdates` | scripts/import_catalogs.py:164-194 | The plan holds the proposal of every row that qualifies and nothing else, sorted |
| `Names.NameTable.Apply` | scripts/import_catalogs.py:197-219 | Applying a plan updates exactly the planned rows, or refuses exactly when a planned name is not longer than the stored one |
| `Names.FullerMeans` | app/services/rubrics.py:111-135 | A fuller form is longer, ends in the current name letter case aside, and has a dash before that end and something before the dash |
| `Names.RecordedIsFuller` | app/services/rubrics.py:111-135 | A recorded name, a type, a dash and a shade, is the fuller form of that shade |
| `Names.DictionaryNameRestored` | scripts/import_catalogs.py:164-219 | A bare shade in the dictionary whose override is a recorded name of that shade becomes that name, with its lower-case form and the rubric of the new name; its other columns stay |
| `Names.CardNameRestored` | scripts/import_catalogs.py:164-219 | The same for a card whose code the dictionary knows under the recorded name; its category stays |
| `Names.RestoredSettles` | app/services/rubrics.py:111-135 | A restored name is never proposed for restoring again, and is longer than the stripped name it replaces |
| `Names.PlanAgainIsEmpty` | scripts/import_catalogs.py:164-219 | Planning again after applying finds nothing, for the dictionary and for the cards |
| `Names.SecondRunIsEmpty` | scripts/import_catalogs.py:375-406 | The same for a second run of both passes |
| `Names.NamesNeverShrink` | scripts/import_catalogs.py:197-219 | An accepted plan shortens no name; a changed name ends in the old one after a dash; the other columns stay |
| `Names.RefusedExactlyOnPadding` | scripts/import_catalogs.py:212-216 | A fresh plan is refused if and only if some planned stored name is padded by at least what the restored name gains; never when stored names are stripped |
| `Names.CutNameIsRefused` | scripts/import_catalogs.py:88-121 | A name the import itself stores, cut at 200 characters inside a run of blanks, reaches the refusal documented as unreachable |
| `Names.DictionaryNamesAfter` | scripts/import_catalogs.py:222-234 | The overlay of the plan equals a re-read of the written dictionary |
| `Names.RestoreShadeNames` | scripts/import_catalogs.py:375-406 | The card plan shown is the one applied; both passes are written or neither |
| `Money.ToCentsMeaning` | app/core.py:28-46 | Cents c are returned if and only if the text is a finite decimal, c is nearest to its hundredfold with ties away from zero, and the magnitude < 10^28; every other text is refused |
| `Money.WrittenToCents` | app/core.py:28-46 | What the ordinary written forms denote, for digits of any number: no separator means whole units ('7' is 700), a comma or a point separates the fraction, a single digit of it means tens of cents, further digits round half away from zero, a leading minus negates; only a result of more than 28 digits is refused |
| `Money.BlanksAround` | app/core.py:28-46 | Blanks around an amount do not matter |
| `Money.ToCentsMonotone` | app/core.py:28-46 | A smaller amount never becomes more cents |
| `Money.FormatThenToCents` | app/core.py:49-53 | Printed cents read back as themselves if and only if the magnitude < 10^28, and are refused otherwise |
| `Money.FormattedText` | app/core.py:49-53 | Printed cents are a minus sign exactly below zero, the whole units without leading zeros, a comma, and the two digits of the cents |
| `Money.Show` | app/core.py:49-53 | The printed whole part is digits that denote the number |
| `Money.SuggestionIsHalfUp` | app/core.py:84-93 | `rub_suggestion` is the half-up quotient if and only if that quotient fits and is not rounded twice |
| `Money.SuggestedByCurrency` | app/core.py:84-93 | For every amount that a 64-bit column holds: hryvnias are half, euros a hundredth, each rounded half away from zero; roubles and unknown currencies stay, a missing price stays missing |
| `Money.SuggestionWithinPrecision` | app/core.py:84-93 | For prices of at most 28 digits: always for divisors 1 and 100; for 2 except exactly from 2·10^27 on at remainder one modulo four |
| `Money.StoredPricesAreHalfUp` | app/core.py:84-93 | Every price a card can store is suggested half-up in every currency |
| `Money.HalvedTwiceRounded` | app/core.py:84-93 | One such price, suggested one too low |
| `IsoText.IsoDateOrder` | app/core.py:308-342 | Date text sorts as dates do and names each date once |
| `IsoText.IsoDateReads` | app/core.py:308-342 | The ten characters of a date are its year, month and day in digits, with dashes between |
| `IsoText.BusinessDateFilter` | app/core.py:308-342 | The closed text filter selects exactly the days of the range |
| `IsoText.IsoMomentOrder` | app/core.py:20-25 | Stored UTC timestamps sort as time does (section 5.1 of RFC 3339) |
| `IsoText.IsoMomentReads` | app/core.py:20-25 | A stored timestamp is the date of its day, a T, the clock and the UTC offset |
| `IsoText.ClockReads` | app/core.py:20-25 | The clock is hours, minutes and seconds in two digits each |
| `IsoText.LocalDayFilter` | app/core.py:268-305 | At any fixed offset the half-open text filter selects exactly the rows whose local day lies in the range |
| `IsoText.BoundsAreMidnights` | app/core.py:268-305 | The two bounds are the moments at which the first local day begins and the last one ends |
| `IsoText.IsoMicroOrder` | app/services/customers.py:104-120 | Microsecond timestamps sort as time does although isoformat drops a zero fraction |
| `IsoText.IsoMicroReads` | app/services/customers.py:104-120 | With whole seconds the text has no fraction; otherwise six digits of microseconds stand after a point |
| `Contacts.ContactTable.ReplaceContacts` | app/services/customers.py:86-120 | Delete and reinsert gives the customer the submitted values stamped one microsecond apart, and for every other customer exactly the contacts there were |
| `Contacts.ReplacedOnly` | app/services/customers.py:86-120 | Replacing one customer's contacts gives that customer exactly the new ones and leaves the contacts of every other customer |
| `Contacts.OthersKept` | app/services/customers.py:102 | The delete takes away no contact of any other customer |
| `Contacts.OfMeaning` | app/services/customers.py:316-341 | A customer's contacts are exactly the stored rows of that customer, each as often as it is stored |
| `Contacts.FormReadsBack` | app/services/customers.py:86-120 | A form with one section per kind and tidy values is read back section by section as it was posted, and everybody else's contacts are as they were |
| `Contacts.ContactTable.InsertSection` | app/services/customers.py:104-120 | The inner loop stores the stripped nonblank values of one kind in order |
| `Contacts.ContactsByKind` | app/services/customers.py:316-341 | Every kind has a bucket and a bucket is the fetched rows of that kind in fetched order |
| `Contacts.SortedIsUnique` | app/services/customers.py:316-341 | A sorted permutation of strictly increasing timestamps is the list itself |
| `Contacts.ContactsReadBack` | app/services/customers.py:86-120 | Whatever order the database gives ties, contacts read back in submitted order per kind |
| `Contacts.SubmittedIsSection` | app/services/customers.py:86-120 | A kind's values are those of its own form section |
| `Calendar.DayNumberOrder` | app/routes/reports.py:47-57 | Calendar order is day-number order |
| `Calendar.CivilInverse` | app/routes/reports.py:47-57 | Counting days and naming dates are inverse to each other |
| `Calendar.GregorianCycle` | app/routes/reports.py:47-57 | The calendar repeats after 400 years, weekdays and all, and 1 January 2024 is a Monday |
| `Calendar.LeapDay` | app/routes/reports.py:47-57 | A year has a 29 February if and only if it has 366 days, and exactly by the Gregorian rule |
| `Calendar.WeekPresetIsWeek` | app/routes/reports.py:47-57 | The week preset is the Monday-to-Sunday week around the day; it raises exactly in the last week of year 9999 |
| `Calendar.MonthPresetIsMonth` | app/routes/reports.py:47-57 | The month preset is the first to the true last day of the month; it raises exactly in December 9999 |
| `Calendar.ResolvePeriod` | app/routes/reports.py:39-90 | A readable ordered range is used as given; any other falls back to today with its error; the active preset is the first that matches |
| `Calendar.PeriodStartsAreLatest` | app/services/customers.py:364-376 | Month, quarter and year starts are ordered, not after the day, and the latest of their kind |
| `Offline.Encoded` | app/services/merge.py:663-702 | No encoded value contains `<`, reverse solidus, solidus in a row, or a line break (section 7 of RFC 8259) |
| `Reading.ValueRead` | app/services/merge.py:663-702 | Encoded JSON is read back as the value it was written from, whatever follows it (RFC 8259) |
| `Offline.EscapeLeavesNoTag` | app/routes/offline.py:125-133 | After the escape no closing script tag is left in any spelling that Python's IGNORECASE knows |
| `Offline.RestoreUndoesEscape` | app/templates/offline/self_upload.html:149-152 | The page's inverse returns the exported text if and only if no closing tag is spelled with a long s, a dotless i or a dotted capital I; otherwise it returns a longer text |
| `Offline.LongSIsExotic` | app/routes/offline.py:131-133 | A product name with a long s is in the failing family |
| `Offline.SplitJoin` | app/routes/offline.py:210-218 | Splitting joined lines gives back the lines |
| `Offline.FormThenCanonical` | app/routes/offline.py:210-218 | Canonicalisation undoes the CRLF form of a posted text without carriage returns |
| `Offline.AnyLineBreaks` | app/routes/offline.py:210-218 | The upload reads all three spellings of a line break alike |
| `Offline.DeliveredIntact` | app/routes/offline.py:114-133 | Export, page, form post and upload hand over exactly the exported lines if and only if there is a record, the body holds no such tag and the embedded text does not end in a double escaped script state |
| `Reading.DeliveredRecords` | app/routes/offline.py:210-232 | Whenever the page hands over the bundle, the upload reads each line as the record it was exported from |
| `Offline.PageHoldsText` | app/templates/offline/self_upload.html:110-116 | The page's script element holds exactly the embedded text, unless that text ends double escaped, which needs an opener that no `-->` closes and a script start tag behind it |
| `Offline.CommentedScriptIsLost` | app/routes/offline.py:122-133 | After any header without `<`, a record with the text `<!--<script>` holds no such tag and is not delivered |
| `Html.ElementTextIs` | app/templates/offline/self_upload.html:114 | Text without an end tag is the text of its script element exactly when it does not end double escaped (section 13.2.5 of the HTML Living Standard) |
| `Html.EndTagCuts` | app/routes/offline.py:122-133 | Why the export escapes: an end tag of its own, in any case, before a character that ends a tag name cuts the payload there |
| `Html.EscapedIsUnclosed` | app/templates/offline/self_upload.html:110-116 | The parser is in an escaped state only behind an opener that no `-->` has closed |
| `Html.DoubleHasStartTag` | app/templates/offline/self_upload.html:110-116 | It is in a double escaped state only behind a start tag of a script as well |
| `Html.CodeSwallowed` | app/templates/offline/self_upload.html:114-116 | Otherwise the page's own code begins as text of the same element |
| `Ledger.LedgerTable.UpdateRows` | app/db.py:48-100 | The row trigger aborts and backs out an update if and only if some row changes a guarded column |
| `Ledger.LedgerTable.DeleteRows` | app/db.py:71-75 | A delete that matches a row always aborts |
| `Ledger.LedgerIsAppendOnly` | app/db.py:48-100 | Over any run of attempted inserts, updates and deletes every row stays at its place with all guarded columns |
| `Ledger.GuardsAreComplete` | app/db.py:48-100 | The v4 enumerations name every column of the two models but `synced_at` |
| `Ledger.LedgerRowsArePermanent` | app/db.py:48-100 | Hence every ledger row keeps all columns but `synced_at` for good |
| `Ledger.LedgerIsItsInserts` | app/db.py:48-100 | After any statements, aborted or not, the ledger is what it was and then every inserted row, in order of insertion and with its guarded columns as inserted |
| `Ledger.CursorCanBeStamped` | app/db.py:31-37 | Stamping `synced_at` alone is never aborted |
| `Migration.Backfill` | alembic/versions/0027_ledger_business_date_and_reversal_links.py:350-360 | The backfill goes through if and only if every needed date can be computed and no installed guard forbids writing one; then exactly those rows are dated |
| `Migration.Upgrade` | alembic/versions/0027_ledger_business_date_and_reversal_links.py:318-369 | The upgrade aborts if and only if some stored timestamp parses but its local date falls off the calendar; otherwise both tables end as `Upgraded` |
| `Migration.UpgradeGuardsFirst` | alembic/versions/0027_ledger_business_date_and_reversal_links.py:319-334 | With the guards first it succeeds if and only if no row has a timestamp |
| `Migration.UpgradeDatesEveryRow` | alembic/versions/0027_ledger_business_date_and_reversal_links.py:292-360 | A row is dated exactly when its created_at is non-empty, with its local day or the ten-character prefix; old columns stay |
| `Migration.MoscowDay` | alembic/versions/0027_ledger_business_date_and_reversal_links.py:292-315 | A timestamp that parses is dated by its Moscow day: from 21:00 UTC on by the next one |
| `Migration.UnreadablePrefix` | alembic/versions/0027_ledger_business_date_and_reversal_links.py:292-315 | One that does not parse keeps its first ten characters |
| `Migration.DowngradeUndoesUpgrade` | alembic/versions/0027_ledger_business_date_and_reversal_links.py:372-394 | Downgrade after upgrade gives back the old columns, guards and rows |
| `Migration.Downgrade` | alembic/versions/0027_ledger_business_date_and_reversal_links.py:372-394 | In the shipped order no column drop is refused |
| `Migration.Revision0026` | alembic/versions/0027_ledger_business_date_and_reversal_links.py:213-252 | Both ledgers as revision 0026 leaves them meet what the two directions start from, whatever rows they hold |
| `Migration.DropColumn` | alembic/versions/0027_ledger_business_date_and_reversal_links.py:373-382 | A column that a guard still names cannot be dropped |
| `Migration.DatesArePermanent` | alembic/versions/0027_ledger_business_date_and_reversal_links.py:362-369 | After the upgrade no attempted statement changes a date or an old column |
| `Migration.DateFilterAgreesWithTimestamp` | alembic/versions/0027_ledger_business_date_and_reversal_links.py:292-315 | For rows stamped by the application the date filter and the timestamp filter select the same rows |
| `Migration.LastEveningOverflows` | alembic/versions/0027_ledger_business_date_and_reversal_links.py:305-315 | A timestamp half an hour before the end of year 9999 has no local date |
| `Corrections.StockStore.RegisterCorrection` | app/services/corrections.py:33-159 | The staged checks answer by the documented precedence and write one row with both cache increments, or nothing |
| `Corrections.DeltaModeAddsSignedValue` | app/services/corrections.py:91-159 | A written correction in delta mode moves its batch and the product of that batch by exactly the number typed in, with its sign, and nothing else |
| `Corrections.ValueRead` | app/services/corrections.py:91-107 | Which texts are read, and as what: signed digits in delta mode, digits in count mode, where the count is diffed with what is there; only a number that int() finds too long raises |
| `Corrections.CorrectionRow` | app/services/corrections.py:138-159 | The row written: the active product with this code, the picked batch, the change, the note if there is one, the mode, and the business date or today |
| `Corrections.OversellAsksBack` | app/services/corrections.py:124-137 | The gate asks back only about an unconfirmed signed change that would leave less than nothing; it says how much there is and how much would go, and writes nothing |
| `Corrections.AdditionAskedBack` | app/services/corrections.py:124-137 | An unconfirmed addition that does not bring a batch back to zero is asked back as an over-removal |
| `Corrections.RefusedFor` | app/services/corrections.py:72-119 | A refusal names the first of mode, code and batch that is wrong, or a value, date or race after those, and writes nothing |
| `Corrections.StockStore.RecordOperation` | app/services/ledger.py:213-257 | One appended row and the same increment of product and batch |
| `Corrections.CorrectionsStayBalanced` | app/services/ledger.py:260-289 | Over any run of corrections every cached product and batch quantity equals its ledger sum |
| `Corrections.SiblingsUntouched` | app/services/corrections.py:88-159 | A correction moves one batch and its product equally; siblings and other products stay; anything not written changes nothing |
| `Corrections.CountModeEndsAtCount` | app/services/corrections.py:91-99 | Count mode ends at exactly the counted number and never meets the over-removal gate |
| `Corrections.WrittenExactlyWhen` | app/services/corrections.py:117-137 | A valid nonzero change is written if and only if it is confirmed or remaining plus delta is at least zero, given that the database takes the row |
| `Corrections.UnconfirmedNeverNegative` | app/services/corrections.py:124-137 | Without confirmed over-removals no batch quantity ever goes below zero |
| `Corrections.CountTwiceChangesNothing` | app/services/corrections.py:117-119 | Repeating a written count is refused as no change |
| `Corrections.AcceptedDateIsInRange` | app/services/ledger.py:72-115 | A business date is accepted exactly between the floor and today, by the calendar although the check compares text |
| `Catalog.CatalogStore.ReadForm` | app/services/catalog.py:94-128 | The errors collected field by field are those of the form |
| `Catalog.CatalogStore.CreateProduct` | app/services/catalog.py:68-168 | Creates the card and its audit row; a refused or raising call changes nothing |
| `Catalog.CreatedCard` | app/services/catalog.py:68-168 | A created card is what the form says, field by field, with no stock and not deleted; one row records it and no other card changes |
| `Catalog.CatalogStore.UpdateProduct` | app/services/catalog.py:189-353 | Writes the card and one price_change row per changed price plus one product_edited row; a refused or raising call leaves every card and audit row as it was |
| `Catalog.UpdatedCard` | app/services/catalog.py:189-353 | A saved card is what the form says, field by field, no other card changes, and one row names exactly the columns besides the prices that did change |
| `Catalog.CatalogStore.SoftDeleteProduct` | app/services/catalog.py:356-362 | Marks an active card, leaves everything else |
| `Catalog.CatalogStore.QuickDeleteProduct` | app/services/catalog.py:365-383 | Blocked while stock is positive, with no write |
| `Catalog.QuickDeleteSparesStock` | app/services/catalog.py:356-383 | An active card with stock survives the quick delete, which answers how much there is; without stock it is marked deleted, as by the other delete, and nothing else changes |
| `Catalog.RestoreUndoesDelete` | app/services/catalog.py:356-392 | Restoring undoes either delete if the code is still free, and otherwise raises with nothing changed |
| `Catalog.CatalogStore.RestoreProduct` | app/services/catalog.py:386-392 | Restores a card, or raises from the unique index with nothing changed |
| `Catalog.PriceHistory` | app/services/catalog.py:311-346 | Over every run all price_change rows of a product's field form one chain from its creation price to its stored price |
| `Catalog.CallLinks` | app/services/catalog.py:311-346 | One call moves a price by exactly the chain of rows it adds |
| `Catalog.UpdateStoresSubmitted` | app/services/catalog.py:236-262 | A saved update stores each submitted price as it reads and keeps an unsubmitted one; an update not saved changes nothing |
| `Catalog.NoProblems` | app/services/catalog.py:94-128 | A form accepted without errors has a name, a free code and only readable prices |
| `Catalog.AcceptedExactly` | app/services/catalog.py:94-128 | And the converse: a form is without problems if and only if code and name are there, the code is free, and every submitted price and threshold can be read |
| `Catalog.TakenIsIndexViolation` | app/models.py:158-166 | The duplicate SELECT refuses exactly the writes that the partial unique index would refuse |
| `Catalog.RestoreRaisesExactly` | app/services/catalog.py:386-392 | Restoring raises if and only if the restored card would share its code with an active one |
| `Catalog.CodesStayUnique` | app/models.py:158-166 | Over every run of create, update, delete and restore no two active products share a code |

## Left out

- Swap.MatchedPairRollback: assumes that each rename and its flag are one step; interrupts between them are covered by `Swap.OldBundleSurvives` and `Swap.AppLostExactly`. The database is as the copy leaves it; what a child left alive writes later is not modelled.
- Ticks.ReplayRefused: markers are modelled by the fields that decide acceptance; JSON decoding and the spelling rules of path confinement are reduced to their outcome.
- Launcher.HealthOk: the clock is the number of polls that fit before the deadline.
- Importer.RunImport: a quantity counts when all its characters are ASCII digits; isdigit and int, which the summary uses (scripts/import_inventory_receipt.py:398), also read other decimal digits and raise on superscripts, and both read as zero here.
- Importer.Database.ApplyTopUpNotes: the shelf comment that a top-up may also rewrite is not modelled.
- Importer.Database.RegisterReceipt: everything else a receipt may refuse is one outcome per row, and only the fields that later rows can see are stored; warnings, notes, locations and comments are not modelled.
- DryRun.DryRunPredictsApply: that a date written in a known form exists in the calendar is part of the per-row outcome; what an ISO week form denotes is a parameter.
- PriceTables.PriceTable.UpdateInChunks: an updated row is addressed by its triple, which identifies it, instead of its id.
- Shades.ScanSheet: cells are taken after trimming and below a recognised header; workbook reading and header detection are left out.
- Archive.ChosenNameIgnoresOrder: the overrides file that is built from the restored names is not modelled.
- FullNames.RestoredCarriesCurrent: letter case goes letter by letter, lowering is assumed to keep white space and to do nothing the second time, and nothing is assumed of raising; letters whose other case has another length, and the final sigma chosen by its place in a word, are not covered.
- Names.NameTable.Apply: rows are found by their unique key; lower-casing and rubric resolution are parameters.
- Money.ToCentsMeaning: digits outside ASCII, which the decimal constructor also reads, are not modelled.
- IsoText.LocalDayFilter: a zone is a fixed offset; daylight saving is left out.
- Migration.Upgrade: Moscow is a fixed three hours, timestamp parsing is a parameter, rows are addressed by position, and what an aborted migration leaves behind is not described.
- Ledger.LedgerIsAppendOnly: INSERT OR REPLACE, which no module of the application issues, is not among the statements.
- Ledger.LedgerRowsArePermanent: the same.
- Ledger.LedgerTable.UpdateRows: INSERT OR REPLACE, foreign keys and the PostgreSQL trigger text are not modelled.
- Contacts.ContactsReadBack: a start time within a few microseconds of the end of year 9999 is excluded.
- Offline.DeliveredIntact: the header is the first line and its counts are taken as one for each line after it; character encoding, the size and token gates and the digest are left out; NUL and carriage return, which a parser would change, never occur in encoded text.
- Offline.Encoded: numbers are any text of letters, digits, sign and point; float formatting is not modelled.
- Corrections.WrittenExactlyWhen: a lost race for the sequence number is a parameter, and a cached sum beyond 64 bits is not modelled.
- Catalog.CodesStayUnique: a concurrent session's commit is the flag `raced`; its rows are not part of the store.
- Merge engine, sync protocol and digest of the exchange format: separate subsystems, only the JSON text is used.
- HTTP handlers, templates, search, pagination and list views: plumbing around the modelled services.
- Passwords, tokens, signatures and path confinement as a security matter.
- Dictionary import and export, backup pruning, release building, seed scripts and the other migrations: easy members only.

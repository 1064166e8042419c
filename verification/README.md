# Verified model of the host updater, the archive and the app lifecycle

This Dafny project models the control logic of a self-hosted app platform and proves what it promises about itself.
Git, sqlite, the object stores, the container runtime and the file system are sets, maps and sequences; every command
on them is a step that has its documented effect, or fails before or after it, or is where the process dies.

`dafny verify dfyconfig.toml` checks everything. The modules, one a file:

- **The updater.** `Versions` and `VersionNames` read release and candidate tags and order them. `UpdateWalk` decides
  the next step of a host that moves through releases one checkout at a time, and proves that the walk ends, where,
  and what it visits, for every commit history; `StepRule` tells the next step from tags and history alone, and
  `ShadowedTags` exactly when a branch named like a tag breaks the walk. `Journal` is the migration log, text that any
  crash may have torn; `Migrations` the runner that appends to it; `ApplyWalk` the two together.
- **The archive.** `ArchiveState` says what each command of a backend migration does to stores, metadata, mount, row
  and apps; `ArchiveSafety` proves what one migration keeps and `ArchiveRuns` what whole runs keep; `ArchiveHost` is
  the same operation as it changes an instance in place. `ArchiveBringUp` and `ArchiveBoot` do the same for the boot
  that restores, adopts, sets aside or formats a volume, `ArchiveOutcomes` tells each outcome from the commands alone,
  and `ArchiveRotation` follows a moved volume into another instance.
- **The apps.** `Apps` has the row and what a boot and a promotion of the primary domain do to it; `AppRecovery` the
  boot check and the sweep; `AppLifecycle` threads, operators, promotions, crashes and boots in any order; `AppSteps`
  tells each event apart, and `AppConflicts` exactly when two things may be at work on one app.
- **Smaller parts.** `Manifest` and `Ports` (host ports), `PublicPath` and `PathEscapes` (which raw request paths are
  public), `Storage` (disk space per app), `AppId` (base-58 ids), `Domains` (routing and the primary domain), and
  `Common`.

Code that changes things step by step is a class whose methods are proved equal to a function on values; the theorems are
lemmas about that function, and what they say of one call is promised by its method.

## Where the code does not do what is said of it

Each has a counterexample or an exact condition in the model, which follows the code.

- A volume still called `openhost` is said to be re-keyed when it is migrated under another name
  (`compute_space/src/compute_space/core/archive_backend.py:1434-1439`). The copy reads the new prefix, finds nothing,
  and the local store is deleted: `ArchiveRuns.LegacyRename`.
- Quiescing is said to stop every app that could write (`compute_space/src/compute_space/core/apps.py:654-668`), but
  looks only at rows that say running, and once. A live container of an app in another state keeps writing to the
  source, and an app that is building or starting, or that the operator reloads or installs meanwhile, launches after
  the copy; nothing in the code prevents it: `ArchiveRuns.CalmExactly`, `ArchiveRuns.QuiesceSufficesExactly`,
  `ArchiveRuns.LaunchDuringMigrationLoses`.
- A migration that was interrupted after re-pointing the volume and is then retried towards another bucket leaves
  behind what apps wrote to the first: `ArchiveRuns.RetryElsewhereExactly`.
- A restored metadata backup is checked for its volume's name, not for the bucket it points at:
  `ArchiveBringUp.FirstBoot`. Right after a move to another bucket every backup there names the old, emptied one:
  `ArchiveRotation.RestoredAfterRotation`.
- A promotion looks only at the rows. A rename that fails puts a row back to running behind the back of a promotion
  that committed meanwhile, and an app stopped in the middle of its launch, by its operator or for want of disk space,
  lets a promotion through: `AppLifecycle.PromotionSafeExactly`, `AppLifecycle.StopDuringLaunch`. Stopped while its
  container is starting up, it ends running without a container: `AppLifecycle.StopSafeExactly`.
- Nothing keeps a reload, a restart after an archive operation or a rename from an app that is being launched or
  renamed; the two then overwrite each other's row: `AppConflicts.ReloadSafeExactly`,
  `AppConflicts.ResumeSafeExactly`, `AppConflicts.RenameSafeExactly`.
- Rows created in the very second the process starts are taken for its own: `AppRecovery.NobodyIsStranded`.
- Symlinks are said not to be followed (`compute_space/src/compute_space/core/storage.py:107-108`); the listing of the
  roots follows top-level ones: `Storage.ConservedExactly`.
- `resolve_ref_sha` looks at `origin/<name>` first, so that a branch can hide a tag: `UpdateWalk.ShadowedTagLoops`,
  and `ShadowedTags.HopsClimbExactly` and `ShadowedTags.PinnedHopsExactly` for exactly when that matters.
- A log line that is JSON but no object raises an error the reader does not catch, and no later write makes the log
  readable again: `Journal.UnreadableExactly`, `Journal.ArrayIsUnreadable`.
- The pattern for app names ends in `$`, which a final newline passes: `AppId.ValidNameExactly`.
- An installation does not keep its own main port out of the resolution: `Ports.OwnPortsApartExactly`.

## Model

| member | source | states |
|---|---|---|
| `Versions.KeyOrder` | openhost_system_agent/src/openhost_system_agent/apply_after_checkout.py:77-80 | version keys are strictly and totally ordered, which every claim about the walk rests on |
| `Versions.CandidatesPrecedeTheirRelease` | openhost_system_agent/src/openhost_system_agent/update.py:93-101 | for every release name and candidate numbers `low < high`: the names parse as candidates, sort by number, and sort before their release |
| `VersionNames.ReleaseExactly` | openhost_system_agent/src/openhost_system_agent/apply_after_checkout.py:51-51 | the release names are `v` and runs of digits with a dot between each two |
| `VersionNames.CandidateExactly` | openhost_system_agent/src/openhost_system_agent/apply_after_checkout.py:52-52 | the candidate names are a release's, `-rc.` and a run of digits |
| `VersionNames.KeySaysNumbers` | openhost_system_agent/src/openhost_system_agent/apply_after_checkout.py:77-80 | a name written from numbers in decimal reads back as those numbers, for releases and candidates: v1.10 has a ten in it |
| `VersionNames.LessExactly` | openhost_system_agent/src/openhost_system_agent/apply_after_checkout.py:77-80 | versions compare at the first number that differs, and where one ends first it is the lower |
| `UpdateWalk.SortedAscends` | openhost_system_agent/src/openhost_system_agent/apply_after_checkout.py:92-93 | the sorted tag list ascends by key |
| `StepRule.BaseIsHighestPassed` | openhost_system_agent/src/openhost_system_agent/apply_after_checkout.py:105-127 | the base is the highest version tag on HEAD, or when there is none the highest in its history, and there is none exactly when there is no such tag |
| `StepRule.TagsStepExactly` | openhost_system_agent/src/openhost_system_agent/apply_after_checkout.py:176-198 | without a pin, from tags, history and settings alone: the step is the lowest release above every tag passed; else the highest candidate, if the opt-in says true and it is above them all; else none; and only a setting that cannot be read is an error |
| `StepRule.PinnedStepExactly` | openhost_system_agent/src/openhost_system_agent/apply_after_checkout.py:149-191 | with a pin, from tags and history alone: none on the pinned commit, the lowest release ahead that the pin has in its history, else the pin; an error exactly when the pin names nothing |
| `StepRule.NothingTaggedExactly` | openhost_system_agent/src/openhost_system_agent/update.py:395-397 | the preflight refuses exactly a remote without version tags, when there is no pin |
| `UpdateWalk.CheckAgreesWithWalk` | openhost_system_agent/src/openhost_system_agent/update.py:267-299 | on a clean tree, for every pin, opt-in and tag set: the check announces an update exactly when the walk would take a step, both fail together and with the same problem, and an announced update passes the preflight |
| `UpdateWalk.HopMakesProgress` | openhost_system_agent/src/openhost_system_agent/apply_after_checkout.py:149-198 | every hop strictly lowers the number of version tags above the base, or reaches the pin, from every HEAD, history, pin and opt-in |
| `UpdateWalk.TrailFollowsSteps` | openhost_system_agent/src/openhost_system_agent/apply_after_checkout.py:201-242 | the walk is finite, each commit is the landing of the step before it, and where it ends there is no step |
| `UpdateWalk.NoCommitTwice` | openhost_system_agent/src/openhost_system_agent/apply_after_checkout.py:149-198 | no commit is checked out twice, so no oscillation between a pin and an old release |
| `UpdateWalk.WalkSatisfiesCheck` | openhost_system_agent/src/openhost_system_agent/update.py:267-299 | after a finished walk the check reports nothing to do |
| `UpdateWalk.TagsWalkClimbs` | openhost_system_agent/src/openhost_system_agent/apply_after_checkout.py:176-198 | unpinned: every hop strictly raises the base, and at the end no release lies above it, nor a candidate when opted in; the base being what `BaseIsHighestPassed` says |
| `UpdateWalk.PinnedWalkArrives` | openhost_system_agent/src/openhost_system_agent/apply_after_checkout.py:149-198 | pinned: the walk ends exactly on the pinned commit, and every hop before the last is a release the pin contains, climbing |
| `UpdateWalk.EveryReleaseDealtWith` | openhost_system_agent/src/openhost_system_agent/apply_after_checkout.py:176-198 | a release owed at the start is visited, or passed over only because a lower stone's commit carries a tag at least as high or is the destination |
| `UpdateWalk.EveryStoneVisited` | openhost_system_agent/src/openhost_system_agent/apply_after_checkout.py:176-198 | with one version tag per commit, every owed release key is checked out on the tags channel |
| `UpdateWalk.StonesInOrder` | openhost_system_agent/src/openhost_system_agent/apply_after_checkout.py:176-198 | of any two owed releases both are visited, each key by one hop only, and the lower strictly before the higher |
| `UpdateWalk.ShadowedTagLoops` | openhost_system_agent/src/openhost_system_agent/apply_after_checkout.py:135-141 | a branch `origin/v2` left on another commit hides tag v2, and the host steps to where it already is, forever |
| `ShadowedTags.HopsClimbExactly` | openhost_system_agent/src/openhost_system_agent/apply_after_checkout.py:135-198 | unpinned, with one version tag per commit: every hop from every HEAD strictly raises the base if and only if each release the walk can step to, and the candidate when opted in and above all releases, resolves to a commit whose base is no lower than it; a branch on or past the tag's commit is harmless, one behind it always catches some host |
| `ShadowedTags.ClimbShrinks` | openhost_system_agent/src/openhost_system_agent/apply_after_checkout.py:176-198 | a hop that climbs leaves strictly fewer version tags above the base, so a walk all of whose hops climb ends |
| `ShadowedTags.PinnedHopsExactly` | openhost_system_agent/src/openhost_system_agent/apply_after_checkout.py:135-175 | pinned, for every repository: every hop from every HEAD lands on the pin or strictly raises the base if and only if each release that is the next stone for some HEAD resolves to the pin or to a commit whose base is no lower than it |
| `ShadowedTags.AdvanceShrinks` | openhost_system_agent/src/openhost_system_agent/apply_after_checkout.py:149-175 | such a hop strictly lowers the measure of the walk, so a pinned walk all of whose hops are such ends |
| `Journal.NewlineSeparates` | openhost_system_agent/src/openhost_system_agent/migrations/migration_log.py:20-43 | whatever precedes and follows a newline is read independently, for every text and every line boundary `splitlines` knows |
| `Journal.AppendReadsBack` | openhost_system_agent/src/openhost_system_agent/migrations/migration_log.py:53-64 | appending to any existing text, a torn tail included, reads back as the old entries plus exactly the new one |
| `Journal.TornWriteReadsBack` | openhost_system_agent/src/openhost_system_agent/migrations/migration_log.py:53-64 | a write torn at any point adds the entry if all of it was written and nothing otherwise |
| `Journal.WritesReadBack` | openhost_system_agent/src/openhost_system_agent/migrations/migration_log.py:20-64 | any sequence of whole, torn and missing writes to any file adds the entries written whole, in order, and nothing else |
| `Journal.UnreadableExactly` | openhost_system_agent/src/openhost_system_agent/migrations/migration_log.py:20-43 | reading raises exactly when some line of the file is JSON but no object, and so it stays, or stays away, under every later sequence of writes |
| `Journal.ArrayIsUnreadable` | openhost_system_agent/src/openhost_system_agent/migrations/migration_log.py:30-42 | the file `[]` and a newline is unreadable, whatever is appended to it |
| `Journal.StripExactly` | openhost_system_agent/src/openhost_system_agent/migrations/migration_log.py:25-28 | a line loses the blanks at both ends, all of them, and nothing else |
| `Migrations.LogFile.AppendEntry` | openhost_system_agent/src/openhost_system_agent/migrations/migration_log.py:53-64 | the file afterwards reads as before plus what of the entry was kept |
| `Migrations.LogFile.RunMigration` | openhost_system_agent/src/openhost_system_agent/migrations/runner.py:48-83 | one migration: what is logged and whether the run stops, for every failure and crash |
| `Migrations.LogFile.RunPending` | openhost_system_agent/src/openhost_system_agent/migrations/runner.py:48-88 | the loop over the registry: exactly the versions above the host's, in order, up to the first failure |
| `Migrations.LogFile.ApplySystemMigrations` | openhost_system_agent/src/openhost_system_agent/migrations/runner.py:21-88 | the whole run, its refusals in the order of the checks, against the specification `ApplyRun` |
| `Migrations.LastSuccessIsHighest` | openhost_system_agent/src/openhost_system_agent/migrations/migration_log.py:46-50 | in a contiguous history the last success is the maximum |
| `Migrations.RunShape` | openhost_system_agent/src/openhost_system_agent/migrations/runner.py:48-83 | the successes a run logs follow the current version without a gap, nothing else but at most one more migration is called, none beyond the latest, and completion means the latest was reached |
| `Migrations.RunsTold` | openhost_system_agent/src/openhost_system_agent/migrations/runner.py:48-83 | every migration called but the last got through and is logged as a success; the last, unless it did too, raised and is logged as failed with its error, or the process died, and then it is logged only if its whole entry was written |
| `Migrations.RunKeepsHistory` | openhost_system_agent/src/openhost_system_agent/migrations/runner.py:21-88 | one run, however it ends, keeps a contiguous history contiguous and calls no migration that had succeeded |
| `Migrations.HistoryStaysContiguous` | openhost_system_agent/src/openhost_system_agent/migrations/runner.py:21-88 | over any runs with failures, crashes between a migration and its log entry, torn writes and changing registries, the successes stay one contiguous increasing run and the host version never falls |
| `Migrations.StatusForetellsRun` | openhost_system_agent/src/openhost_system_agent/status.py:11-58 | the status is fine, behind, missing or ahead exactly when a run would complete with nothing to do, call something, refuse for no history, or refuse because the host is ahead |
| `ApplyWalk.Host.RunProcess` | openhost_system_agent/src/openhost_system_agent/apply_after_checkout.py:201-242 | the loop of migrate, install, step and checkout, with a failure possible at each, is `Process`; on a contiguous history it calls no migration that had succeeded, none twice, keeps every success and stays on the trail, and ending well it is at the walk's end with the host at that code's latest version and nothing left for the check |
| `ApplyWalk.Host.Update` | openhost_system_agent/src/openhost_system_agent/update.py:375-433 | the same promises for preflight, first hop and process from wherever the host was; a clean, tagged or pinned checkout on which nothing else fails restarts on the walk's destination if and only if no visited registry is behind the host, and is stopped as a host ahead of the code otherwise |
| `ApplyWalk.ProcessExtendsHistory` | openhost_system_agent/src/openhost_system_agent/apply_after_checkout.py:201-242 | however the walk ends, no migration is called that had succeeded before or earlier in the walk, and when it ends well each call is logged as a success, once and in order |
| `ApplyWalk.ProcessArrives` | openhost_system_agent/src/openhost_system_agent/apply_after_checkout.py:201-242 | a walk that ends well ends on its destination with the host at that code's latest version |
| `ApplyWalk.CompletesIffRegistriesGrow` | openhost_system_agent/src/openhost_system_agent/migrations/runner.py:21-88 | with nothing else failing the walk completes if and only if no visited registry is behind the host, and "the host is ahead" stops it otherwise; while they grow that refusal is unreachable whatever else fails |
| `ApplyWalk.UpdateCompletes` | openhost_system_agent/src/openhost_system_agent/update.py:375-433 | the same for a whole update, whose end is the walk's destination with status ok |
| `ApplyWalk.UpdateKeeps` | openhost_system_agent/src/openhost_system_agent/update.py:375-433 | however an update ends, refused ones included, the history only grows, no migration is repeated, and the host is on a commit of the trail; restarted, it is at its end |
| `ApplyWalk.EndingTold` | openhost_system_agent/src/openhost_system_agent/apply_after_checkout.py:201-242 | a process ends at the first commit of the walk at which something fails, and its ending says whether that was the migrations, the install or the checkout; it restarts only at the walk's end |
| `ApplyWalk.UpdateRefuses` | openhost_system_agent/src/openhost_system_agent/update.py:388-397 | a dirty tree is refused, and only that is refused as one; a remote with nothing tagged likewise; a refusal touches neither the host nor its log |
| `ArchiveSafety.ConfigureIsSound` | compute_space/src/compute_space/core/archive_backend.py:1364-1648 | one configuration, with any primitive failing or being where the process dies and apps coming and going and writing between its steps, loses no object written, provided no live container mounts the archive from the copy to the restart of the mount; when it returns, row, volume and mount are on the destination, which holds every object |
| `ArchiveSafety.FailsOpen` | compute_space/src/compute_space/core/archive_backend.py:1454-1622 | a configuration that raises leaves the row and every source object as they were, the store the volume points at holds everything if nobody wrote from the copy on, and it is the mounted source if the restore commands worked |
| `ArchiveSafety.OnlyCopiedObjectsAreDeleted` | compute_space/src/compute_space/core/archive_backend.py:1624-1648 | an object a configuration removes was in the source of a committed switch and is in the destination; nothing goes when the bucket's name stays the same, nor from outside the volume's prefix of a bucket |
| `ArchiveSafety.SurvivorStopsMigration` | compute_space/src/compute_space/core/apps.py:692-700 | whatever else fails or not: when an app that says running and mounts the archive survives being stopped, the configuration does not return, the row stays, and no object of any store is gone |
| `ArchiveRuns.NoArchiveLoss` | compute_space/src/compute_space/core/archive_backend.py:1364-1648 | over any run of crashed, failed and finished migrations, boots, power losses, mount restarts, writes, and apps coming and going at any time but between a copy and its remount, every object ever written is in the row's store or the pending destination |
| `ArchiveRuns.FinishedMigrationHoldsAll` | compute_space/src/compute_space/core/archive_backend.py:1364-1648 | after such a run, a configuration that returns has every object in its destination |
| `ArchiveRuns.CalmExactly` | compute_space/src/compute_space/core/archive_backend.py:1454-1648 | for every way apps come and go during a configuration on which nothing fails: it holds everything whatever they write, if and only if no live container mounts the archive from the end of the copy to the restart of the mount |
| `ArchiveRuns.QuiesceSufficesExactly` | compute_space/src/compute_space/core/apps.py:649-700 | as long as no archive app comes up during the configuration, everything is sure to arrive if and only if every live container that mounts the archive belongs to a row that says running |
| `ArchiveRuns.LaunchDuringMigrationLoses` | compute_space/src/compute_space/core/archive_backend.py:634-648 | in every state a migration can start from, an archive app that comes up once after the copy, its row not saying running, loses an object: the guard of a launch only asks whether the mount is up |
| `ArchiveRuns.RetryElsewhereExactly` | compute_space/src/compute_space/core/archive_backend.py:1364-1648 | a configuration towards a third store, on which nothing fails, holds every object if and only if they were all in the row's store or already in that third one: what apps wrote to the destination of an unfinished migration is left behind |
| `ArchiveRuns.LegacyRename` | compute_space/src/compute_space/core/archive_backend.py:1443-1452 | migrating a volume still called `openhost` under another name: the configuration returns, the local store is emptied, and the destination holds every object exactly when the old name was kept or it held them before |
| `ArchiveRuns.DisabledZone` | compute_space/src/compute_space/core/archive_backend.py:1500-1512 | a zone without an archive: with nothing failing an empty volume in the bucket under the name asked for, nothing but its mark put there and nobody stopped; a configuration that raises leaves the zone disabled, and unmounted if that could be done |
| `ArchiveRuns.DiesOnlyWhereItDies` | compute_space/src/compute_space/core/archive_backend.py:1454-1648 | a configuration in none of whose commands the process dies returns or raises |
| `ArchiveHost.Host.ConfigureBackend` | compute_space/src/compute_space/core/archive_backend.py:1364-1648 | the whole operation on the instance's fields, `try` and `except` included, is `Configure`; and it does not go on over an app that could not be stopped: then it does not return, the row is as it was and no object is gone |
| `ArchiveHost.Host.StopArchiveApps` | compute_space/src/compute_space/core/apps.py:649-700 | exactly the running archive apps are stopped and recorded, in order, and it raises exactly when one of them is still alive |
| `ArchiveHost.Host.RemoveObjectPrefix` | compute_space/src/compute_space/core/archive_backend.py:1673-1720 | exactly the listed keys under `<volume>/` are deleted, each in one batch, in order, a thousand at a time; a blank name deletes nothing; a failed call leaves a prefix of the batches deleted |
| `ArchiveBringUp.Newest` | compute_space/src/compute_space/core/archive_backend.py:819-828 | the result is a key named as a backup that no other such key follows, and there is none exactly when no key is named as one |
| `ArchiveBringUp.NewestBackup` | compute_space/src/compute_space/core/archive_backend.py:819-828 | the scan over pages, in any order, finds it |
| `ArchiveBringUp.NamesSortByTime` | compute_space/src/compute_space/core/archive_backend.py:819-828 | of two backups of one volume the later stamp has the later key |
| `ArchiveOutcomes.BackupNameExactly` | compute_space/src/compute_space/core/archive_backend.py:824-827 | the keys taken for backups are `dump-`, anything without a slash and `.json.gz`, in whatever directory |
| `ArchiveBringUp.AttachKeeps` | compute_space/src/compute_space/core/archive_backend.py:698-811 | one boot, stopping anywhere: the metadata is absent or complete for the row's volume, and only an adopted volume without backup and metadata may have lost objects, and only its own |
| `ArchiveBringUp.BackedUpVolumesSurvive` | compute_space/src/compute_space/core/archive_backend.py:662-811 | over any run of boots, seedings, writes and power losses, a volume that has a backup keeps it and all its objects, and the metadata stays absent or complete for the row's volume |
| `ArchiveBringUp.FirstBoot` | compute_space/src/compute_space/core/archive_backend.py:767-811 | with nothing failing the volume comes up exactly when there is no backup or the newest names it; restored as the backup left it, reading from the store the backup names; otherwise empty: an adopted volume's own objects are deleted and no others, and a foreign volume is set aside, the new one under another name that is valid if the old one was, and the old one's objects left exactly as they were |
| `ArchiveBringUp.FreshName` | compute_space/src/compute_space/core/archive_backend.py:814-816 | the new name is as much of the old as there is room for, without dashes at its end, a dash and the token; it is valid if the old one was |
| `ArchiveBringUp.NamesDiffer` | compute_space/src/compute_space/core/archive_backend.py:814-816 | two tokens give two names |
| `ArchiveOutcomes.RestoreExactly` | compute_space/src/compute_space/core/archive_backend.py:845-894 | a restore succeeds exactly when each of its commands does and the backup is one of the row's own volume; the metadata is replaced, by all of the backup, exactly when everything before the last command worked and that one had its effect |
| `ArchiveOutcomes.RoomExactly` | compute_space/src/compute_space/core/archive_backend.py:786-803 | nothing there: nothing done; adopted: objects only go; otherwise the row is renamed if the commit went through, and nothing else changes |
| `ArchiveOutcomes.LocalBoot` | compute_space/src/compute_space/core/archive_backend.py:723-745 | a local volume that is there is mounted as it is; one that is not gets the zone's own name in place of the shared default, is formatted on the disk and mounted |
| `ArchiveOutcomes.SeedExactly` | compute_space/src/compute_space/core/archive_backend.py:662-695 | seeding sets row and adoption flag only while there is no metadata and for a valid name; a seeded row has the right flag, wherever the process stopped |
| `ArchiveOutcomes.VolumeNameExactly` | compute_space/src/compute_space/core/archive_backend.py:81-81 | the names accepted: a letter or digit, one to sixty-one of them or hyphens, a letter or digit |
| `ArchiveRotation.RestoredAfterRotation` | compute_space/src/compute_space/core/archive_backend.py:845-894 | after a volume was moved to another bucket, a new instance seeded with that bucket comes up reading from it if and only if a backup later than every copied one was made since; until then it comes up, without a message, on the old bucket, where none of the volume's objects is left |
| `ArchiveBoot.Host.DeletePrefix` | compute_space/src/compute_space/core/archive_backend.py:836-842 | exactly what the delete calls removed is gone, up to the first page that fails |
| `ArchiveBoot.Host.RestoreFrom` | compute_space/src/compute_space/core/archive_backend.py:845-894 | the metadata is as it was, or the whole of the backup under that key, which is one of the row's own volume, and this is what a success leaves; the scratch database is gone on every way out but death; complete metadata stays complete |
| `ArchiveBoot.Host.BringUpSeeded` | compute_space/src/compute_space/core/archive_backend.py:767-811 | on the instance's fields, with the scan and the paged clearing: complete metadata, there when it returns, and nothing lost but by an adopted volume that has neither metadata nor a backup |
| `ArchiveBoot.Host.AttachOnStartup` | compute_space/src/compute_space/core/archive_backend.py:698-764 | a boot never raises and, without a message, has the archive mounted; wherever it stops the metadata is absent or complete and only an adopted volume without metadata and backup may have lost objects, and only its own; with nothing failing a seeded volume comes up exactly when its newest backup, if any, names it, and a foreign volume is set aside untouched under its own name |
| `AppRecovery.AppTable.CheckAppStatus` | compute_space/src/compute_space/core/startup.py:23-113 | the rows afterwards, and the two queues, in order |
| `AppRecovery.AppTable.RecoverCacheCorrupt` | compute_space/src/compute_space/core/startup.py:116-153 | exactly the failed apps with a corrupt cache and a checkout are queued and put back to starting |
| `AppRecovery.AppTable.RunAppImage` | compute_space/src/compute_space/core/apps.py:495-595 | the row and the containers after each way a launch can turn out |
| `AppRecovery.AppTable.RestartAppsSequential` | compute_space/src/compute_space/core/startup.py:156-177 | the sweep, one app at a time, an error of one not stopping the next |
| `AppRecovery.AppTable.Boot` | compute_space/src/compute_space/core/startup.py:23-177 | check, then the promoted apps, then the others |
| `AppRecovery.QueueIs` | compute_space/src/compute_space/core/startup.py:41-100 | no app is queued twice, the corrupt builds are disjoint from the rest, and exactly the apps with something to recover are queued |
| `AppRecovery.EveryoneIsSorted` | compute_space/src/compute_space/core/startup.py:41-96 | after the check every app is up, failed, queued, left to its own thread or no concern of it, with the exact condition for being queued; a marked app is queued among the promoted, or failed when it cannot be recovered |
| `AppRecovery.UpExactly` | compute_space/src/compute_space/core/startup.py:41-96 | an app that says running or building with its container up is adopted as it is, with nothing queued; with the container gone it is queued, failed or left to its thread |
| `AppRecovery.RebuiltExactly` | compute_space/src/compute_space/core/startup.py:66-100 | a queued app is rebuilt exactly when it was building, has no image or was hit by the corrupt cache, and then its checkout is there |
| `AppRecovery.SweepSettles` | compute_space/src/compute_space/core/startup.py:156-177 | after a sweep each queued app runs in a live container launched with the primary domain or has failed, and no other row or container changed |
| `AppRecovery.SweepTold` | compute_space/src/compute_space/core/apps.py:495-595 | after a sweep each queued app is what its own launch made of it: its row and its container, for every way a launch can turn out |
| `AppRecovery.NobodyIsStranded` | compute_space/src/compute_space/core/startup.py:23-177 | after one boot and its sweeps an app that was up, coming up or hit by the corrupt cache is settled if and only if the check did not take it for a deployment of this process, which needs a row created no earlier than the process |
| `AppLifecycle.PromotionReachesEveryApp` | compute_space/src/compute_space/core/domains.py:228-268 | in every state of every disciplined run, across crashes, power losses, boots, guards and operators at any point, an app that says running has a container, launched with the current primary domain; what the discipline asks of promotions, stops, reloads, restarts and renames is exact, as the rows below say |
| `AppLifecycle.PromotionBringsBack` | compute_space/src/compute_space/core/domains.py:246-268 | an app that said running, or failed with a container, when a promotion was accepted, and that can be recovered: after the crash that follows, whatever containers survive, the boot queues it among the promoted and its launch settles it on the new domain, running exactly when it serves |
| `AppLifecycle.PromotionSafeExactly` | compute_space/src/compute_space/core/domains.py:228-268 | a promotion the rows accept is safe whatever follows if and only if no thread of an app in the table is between reading the domain and the answer of its container, nor in a rename of a running app |
| `AppLifecycle.StopSafeExactly` | compute_space/src/compute_space/core/storage.py:355-371 | a stop, by an operator or by the storage guard, is safe whatever follows if and only if no thread waits for the app's container, which would then say running for a row without one |
| `AppLifecycle.StopDuringLaunch` | compute_space/src/compute_space/web/routes/api/apps.py:640-660 | for any such app, whatever else runs: stopped between reading the domain and its launch, by an operator or by the storage guard, it no longer holds a promotion back, and then says running with the old domain |
| `AppConflicts.Clash` | compute_space/src/compute_space/core/apps.py:495-595 | any two jobs of one app that are not compatible, in any state and among any other jobs, lead by a disciplined run to an app that says running without an up-to-date container; two threads never are, and a rename goes with a thread only if it restarts nothing, puts back an up-to-date container, and no promotion can come before the thread ends |
| `AppConflicts.ReloadSafeExactly` | compute_space/src/compute_space/web/routes/api/apps.py:876-903 | a reload is safe, whatever follows, if and only if no thread and no rename is at work on the app |
| `AppConflicts.ResumeSafeExactly` | compute_space/src/compute_space/core/apps.py:703-710 | the restart of an app after an archive operation is safe, whatever follows, if and only if at work on it are at most renames of it while it was down that would put back an up-to-date container |
| `AppConflicts.RenameSafeExactly` | compute_space/src/compute_space/web/routes/api/apps.py:1138-1204 | a rename is safe, whatever follows, if and only if nothing is at work on the app, or it is down and at work are only renames of it while it was down, or threads that stay with this primary domain and do not wait for a container yet while its own container is up to date |
| `AppLifecycle.MarkedUntilAtRest` | compute_space/src/compute_space/core/apps.py:484-492 | over any run at all a marked app stays starting and marked, through crashes and boots, until it runs or has failed, unless an operator stops, renames or removes it |
| `Manifest.ParsePorts` | compute_space/src/compute_space/core/manifest.py:307-342 | accepted exactly when every entry is well formed and no label, container port or fixed host port comes twice; the mappings are the entries' |
| `Ports.PortTable.AllocatePort` | compute_space/src/compute_space/core/ports.py:11-22 | the first port of the range that nobody has and that can be bound, or none when there is none |
| `Ports.PortTable.CheckPortAvailable` | compute_space/src/compute_space/core/ports.py:25-78 | available exactly when nobody else has the port and the app itself has it or it can be bound; otherwise the obstacle is named rightly |
| `Ports.PortTable.FindFreeHostPort` | compute_space/src/compute_space/core/ports.py:133-157 | in whatever order it tries: a free, bindable, unclaimed port, and none only when every such port is claimed |
| `Ports.PortTable.ResolvePortMappings` | compute_space/src/compute_space/core/ports.py:92-130 | it succeeds exactly when nothing fixed is taken or asked for twice and enough ports are left, and names what was in the way |
| `Ports.ResolutionPermutes` | compute_space/src/compute_space/core/ports.py:92-130 | a resolution is a permutation of what was asked, labels and container ports kept, every port set, fixed ones unchanged |
| `Ports.PortTable.SyncPortMappings` | compute_space/src/compute_space/core/apps.py:598-646 | the mappings after a reload, and after one that raises: the deletions, and nothing else |
| `Ports.PortTable.InsertApp` | compute_space/src/compute_space/core/apps.py:328-381 | main port and mappings of a new app, or no change |
| `Ports.PortsStayApart` | compute_space/src/compute_space/core/apps.py:598-646 | over any sequence of installations, reloads, failing ones included, and removals: no port of one app is a port of another, and one app's mappings have different ports |
| `Ports.SyncIsExact` | compute_space/src/compute_space/core/apps.py:598-646 | after a reload the labels are the manifest's, kept ones keep the host port and take the new container port, and other apps' rows are unchanged |
| `Ports.SyncCannotFail` | compute_space/src/compute_space/core/ports.py:61-78 | a reload whose labels all exist succeeds, whatever sockets are in use |
| `Ports.OwnPortsApartExactly` | compute_space/src/compute_space/core/apps.py:328-338 | an installation gives no mapping the app's own main port, whatever order is tried, exactly when no mapping asks for that port or for any port |
| `PublicPath.IsPublicRequestPath` | compute_space/src/compute_space/core/apps.py:1154-1188 | the loop over decoded forms, against the specification `Accepted`, whose decoding, characters, prefixes and climbing segments are told from bytes below |
| `PublicPath.AcceptedExactly` | compute_space/src/compute_space/core/apps.py:1154-1188 | accepted exactly when the decodings settle within eight forms and every form up to then is unambiguous and under a public prefix |
| `PublicPath.AcceptedStaysPublic` | compute_space/src/compute_space/core/apps.py:1157-1158 | an accepted path stays public and unambiguous under every finite sequence of percent-decodings and of dot-segment removals as in section 5.2.4 of RFC 3986 |
| `PublicPath.DecodingShrinks` | compute_space/src/compute_space/core/apps.py:1174-1187 | a decoding that changes anything takes at least two bytes away |
| `PublicPath.OnlyDeepNestingIsRefused` | compute_space/src/compute_space/core/apps.py:1176-1188 | a path whose forms are all good is refused for their number only if it loses two bytes with each of them |
| `PublicPath.NothingToRemove` | compute_space/src/compute_space/core/apps.py:1143-1151 | the standard's removal algorithm leaves a path without dot segments as it is |
| `PathEscapes.SpellingReadsBack` | compute_space/src/compute_space/core/apps.py:1169-1187 | what spells a path, byte by byte plain or as a percent sign and two digits of either case, decodes to it, whatever follows |
| `PathEscapes.UnchangedExactly` | compute_space/src/compute_space/core/apps.py:1180-1187 | a path is its own decoding exactly when there is no escape in it |
| `PathEscapes.Utf8Exactly` | compute_space/src/compute_space/core/apps.py:1169-1185 | what may be decoded to a string is exactly the encodings of sequences of characters, surrogates excepted |
| `PathEscapes.ClimbIsRefused` | compute_space/src/compute_space/core/apps.py:1143-1188 | no way of writing a segment of one dot or two, with a slash, parameters or nothing after it, plain or escaped in either case, before or after any number of decodings, is accepted for an app that is not public as a whole |
| `PathEscapes.SpelledExactly` | compute_space/src/compute_space/core/apps.py:1133-1188 | a raw path that spells one without percent signs is accepted exactly when it is ASCII without `#` and `?`, and the path is text without control characters and backslashes, starts with one slash, has no segment that climbs, and is a public prefix or under one |
| `PathEscapes.UpCancels` | compute_space/src/compute_space/core/apps.py:1157-1158 | in the removal of dot segments a segment and the two dots after it cancel, as in section 5.2.4 of RFC 3986 |
| `Storage.Usage.DirSize` | compute_space/src/compute_space/core/storage.py:103-134 | the recursive scan with a shared set of inodes charges what charging its files one after another charges |
| `Storage.Usage.SubdirSizes` | compute_space/src/compute_space/core/storage.py:161-169 | each directory's entry is what it adds to those before it, and their sum is the whole scan |
| `Storage.AddSizes` | compute_space/src/compute_space/core/storage.py:189-191 | each name gets the sum of both, and the totals add up |
| `Storage.Usage.PerApp` | compute_space/src/compute_space/core/storage.py:194-200 | both tiers, each name charged its share of each, the sum being one scan of all of it |
| `Storage.ConservedExactly` | compute_space/src/compute_space/core/storage.py:103-200 | the sum over all apps is the bytes of the distinct inodes under both roots, in whatever order, if and only if every file only a top-level symlink leads to is empty or a hardlink of one under the roots |
| `Storage.TotalCounts` | compute_space/src/compute_space/core/storage.py:103-134 | the bytes of a set of inodes are 512 for each block of each |
| `AppId.EncodePadded` | compute_space/src/compute_space/core/app_id.py:22-27 | the loop gives the low twelve base-58 digits, the highest first |
| `AppId.IdsExactly` | compute_space/src/compute_space/core/app_id.py:22-38 | every draw gives a valid id that reads back as the draw modulo 58^12, every valid id has a draw, and draws collide exactly when congruent |
| `AppId.ThreeOrFourDraws` | compute_space/src/compute_space/core/app_id.py:30-33 | of the 2^72 draws every id gets three or four, so none is likelier than 1 in 2^70 |
| `AppId.ValidNameExactly` | compute_space/src/compute_space/core/app_id.py:9-43 | the name check accepts labels, and labels with a final newline; a valid name is a label exactly when it has no newline |
| `AppId.AlphabetIs` | compute_space/src/compute_space/core/app_id.py:11-13 | the digits are the 58 characters, in that order |
| `Domains.Match` | compute_space/src/compute_space/core/domains.py:69-79 | the loop keeps the first of the longest owners |
| `Domains.BestIsLongest` | compute_space/src/compute_space/core/domains.py:69-79 | the match owns the host, no owner has a longer name, and there is none exactly when nobody owns the host |
| `Domains.BestIsFirst` | compute_space/src/compute_space/core/domains.py:69-79 | of several longest owners the match is the first |
| `Domains.MatchIgnoresOrder` | compute_space/src/compute_space/core/domains.py:69-79 | whatever order the rows come in the match has the same host, and is the same row when no two rows share a host |
| `Domains.RoutesBackExactly` | compute_space/src/compute_space/core/domains.py:61-79 | `<app>.<domain>`, with any port and case, is routed back to the app if and only if no domain is configured under that very name |
| `Domains.AppOfExactly` | compute_space/src/compute_space/core/apps.py:1115-1138 | for every host: it names `app` exactly when it is `app`, a dot and the longest name among the domains it is or is under, and `app` is a valid app name |
| `Domains.DomainTable.SetPrimary` | compute_space/src/compute_space/core/domains.py:228-270 | the swap of the flag, and exactly the apps that said running, or failed with a container, now starting with the marker and otherwise as they were, all other rows untouched; or, for every refusal and a database error at any statement, no change at all |
| `Domains.DomainTable.Seed` | compute_space/src/compute_space/core/domains.py:274-293 | into an empty table only: one primary, one row for each host, extras as given |
| `Domains.AlwaysOnePrimary` | compute_space/src/compute_space/core/domains.py:157-293 | over any sequence of additions, updates, guarded removals and promotions, failed ones included, exactly one primary and no two rows with one host |
| `Domains.UpsertKeepsExactly` | compute_space/src/compute_space/core/domains.py:157-172 | an upsert keeps the primary unique exactly when it brings in no new row that says it is primary |

## Left out

- UpdateWalk.HopMakesProgress: assumes that no branch `origin/<tag>` resolves to a commit other than the tag's, and that refs do not change during a walk, there being one fetch; `HopsClimbExactly` and `PinnedHopsExactly` have the exact condition on branches.
- ShadowedTags.HopsClimbExactly: speaks of hops that climb; a walk that falls back once may still end, if another branch carries it past.
- AppLifecycle.PromotionReachesEveryApp: assumes what `PromotionSafeExactly`, `StopSafeExactly`, `ReloadSafeExactly`, `ResumeSafeExactly` and `RenameSafeExactly` show to be needed and nothing in the code provides; and that an installation is one step, under an id nothing is at work on.
- AppLifecycle.Failing: a thread that fails before its mark keeps the container the row has then; the code writes back the one it read when it began (`compute_space/src/compute_space/core/apps.py:584-585`), which is another only if something else changed the row meanwhile.
- UpdateWalk.Trail and ApplyWalk.Process: the code that picks the next step and runs the migrations is taken to be the same at every checkout; only the registry differs from commit to commit.
- ArchiveSafety.ConfigureIsSound: assumes that no live container mounts the archive from the copy to the restart of the mount, which `CalmExactly` shows it must and no guard of the code provides; that retries of an unfinished migration go to the same destination, as `RetryElsewhereExactly` shows; and that the volume keeps its name, as `LegacyRename` shows.
- ArchiveRuns.NoArchiveLoss: makes the same assumptions of every configuration in the run; writes, boots, crashes, power losses and apps coming and going are otherwise unrestricted.
- ArchiveSafety.FailsOpen: a commit of the row happens or raises, not both; one that raises with its update still pending, which a later commit of the state message would then carry out (`compute_space/src/compute_space/core/archive_backend.py:651-653`, `1577-1587`), is not modelled.
- ArchiveBringUp.AttachKeeps: assumes that the metadata file is read for what it is; any error of sqlite, that of a locked file included, counts as unformatted in the code (`compute_space/src/compute_space/core/archive_backend.py:935-938`).
- ArchiveBringUp.BackedUpVolumesSurvive: assumes that listings show what is in the bucket and that volume names have no slash in them, as the validation of names and the derivation of defaults see to.
- ArchiveRotation.RestoredAfterRotation: assumes that the destination has no backups of the volume of its own, and that the mount on the old bucket comes up; with other credentials it may fail instead.
- ArchiveHost.Host.ConfigureBackend: assumes, of an S3 source, that the volume's name has no white space or slash at its ends, which stripping would change.
- AppRecovery.NobodyIsStranded: assumes that containers never get an identifier given before, and of an app that is up that its container has the primary domain, which `PromotionReachesEveryApp` provides.
- Storage.ConservedExactly: assumes that a file with one link has one directory entry under the roots.
- Domains.Match: lower case is that of ASCII; letters outside it are not folded.
- Versions.KeyOrder: digits are the ASCII ones; Python's `isdigit` and `int` accept others as well.
- JSON is a pair of functions with what the log needs of them, that an entry renders as one line, reads back, and that no proper prefix of it does.
- The checkout's own working-tree cleaning, the package installation and the restart are steps that work or fail; progress records, the updater page and service control are not modelled.
- An object store is the set of its keys; a copy brings every key of its prefix or raises, objects being written once. Contents, checksums and credentials are not modelled.
- The quiesce callback is always given, as the route does for every migration; the restart of the quiesced apps is an event of the lifecycle model.
- Settings and row of a seeding are two commits; what provisioned the instance is not modelled.
- Containers die or live; health checks, time-outs and polling are outcomes of a launch.
- A reload's background work is its thread from the claim of the row on; pulling the repository and the update review come before it.
- A removal's background work ends with the row gone or failed; image and data deletion are not modelled.
- Ports a mapping asks for are integers; whether one can be bound is a set given for each operation, and races between the test and the use are not modelled.
- The reported text of every error is one of a few notes, as far as some code looks at it.
- TLS, DNS, mDNS, web routes and templates, the command line, URL and YAML parsing, the storage and memory guards, pinned binaries and the OAuth apps.

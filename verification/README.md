# Verified models of the boot-time daemons, the workspace daemon and the credential encoders

The project models five programs of the repository in Dafny and proves what their
users rely on.

* **var-disk-manager** unlocks, migrates or provisions the encrypted `/var` disk at
  boot. A disk is a value (extents, partition, LUKS volume, file system, subvolumes,
  data); every call of an external tool is one step on it. Any call may fail, and power
  may be lost between any two. The proofs cover one boot and then any history of boots,
  writes by the running system and enlarged volumes.
* **operator-secrets** collects secrets from an operator and stores them as env-files.
  The printer and the parser of those files, the check of submitted forms and the
  daemon itself are modelled; any number of clients feed one queue, and verdicts and
  write results are arbitrary streams.
* **hypr-workspaced** keeps several monitors on one virtual workspace. The compositor is
  a class whose methods are the requests the daemon sends; where the compositor is free
  to choose, the choice is an arbitrary input.
* **oidc-credential-validator** encodes the HTTP Basic credential (base64 after form
  encoding).
* **zitadel-configure** stores a client secret that the server never shows again. File
  and server are two objects; calls fail, replies get lost, power is cut.

Where the source works by changing things step by step the model does too: `Ui`,
`Daemon`, `Manager`, `FileSystem`, `Server`, `Registry` and `Hyprland` are classes, and
their methods are proved against functions or relations on their old and new states,
about which the properties are then proved.

## The main results

* `DiskHistory.Live`: whatever happens over a disk's life, from wherever it has a `var`,
  whether it was there at the start or made on the way, that holds what the running
  system wrote last, and every `var` is a whole copy of one.
  `DiskManager.Manager.Boot`: nothing is formatted without a client's yes to a
  confirmation prompt of this boot, or a new passphrase given twice in it, and no volume
  is released or changed inside before its passphrase was given.
  `DiskManager.Manager.Unlock`: a completed unlock leaves partition, mapping and file
  system grown, whatever an earlier, interrupted one left behind.
  `DiskHistory.MigratedDataBoots`: after a migration that reported to be complete, the
  next boot with the new disk alone unlocks it and has the old disk's data.
* `SecretSafety.BootSafe` and `SecretSafety.EditSafe`: files only ever change to values
  that a client sent to a prompt of this run, that were accepted, and that a validator
  was then given and called valid; and a boot is released exactly when every file holds
  values that were judged so. What a validator was given and what it said is noted
  where it is asked, and its verdicts are used in order, each once.
  `SecretPrivacy.BootsLookAlike`: clients see nothing of sensitive values, not even
  indirectly. `SecretForms.AcceptedReadsBackComplete` and `EnvFile.ParseEncoded`: what
  is written is what the next boot reads.
* `ClientSecret.Operate`: over any sequence of runs, interruptions and power cuts the
  stored client secret never disagrees with the server, up to the first write that
  reports success without the end of the secret.
* `MonitorSync.SyncMonitors` and `WindowMoves.SwapCutOffThenCollapse`: loops that act on
  stale lists reach the intended state, and no window is lost on the way.

## Where the code does not do what one would expect

Each is stated as an exact condition.

* `MonitorSync.SyncMonitors`: when the triggering workspace is on another slot's
  monitor, or belongs to the slot of a monitor that is unplugged, not all monitors end
  on it. They agree exactly if a connected monitor has its slot and it was on that
  monitor, or nowhere; or if no connected monitor has its slot, and the window under the
  cursor belongs on the target of the monitor that the workspace is on.
  `MonitorSync.OutOfStep` and `MonitorSync.StrayOutOfStep` build such states.
* `WindowMoves.CollapseSparesExactly`: `is_valid_workspace` compares slots with the
  number of monitors, but slots are permanent. With a gap in the slots, `collapse`
  also takes windows from workspaces of connected monitors
  (`WindowMoves.GapIsCollapsed`).
* `MonitorRegistry.RangesDisjointExactly`: a registry index is cast to a byte, so with
  more than 256 known monitors two of them share workspaces
  (`MonitorRegistry.TooManyMonitors`). Two connected monitors with the same description
  always do (`MonitorRegistry.ConnectedApartExactly`, `MonitorRegistry.TwinsShare`).
* `MonitorRegistry.RestartKeepsExactly` and `MonitorRegistry.EmptyDescriptionShifts`: a
  monitor without a description (or with a line break in it, or a carriage return at its
  end) makes the registry read back differently and shifts other slots.
* `EnvFile.RoundTripExactly`: values with a newline do not survive. The daemon never
  accepts one.
* `Redaction.UnmarkedRedactExactly`, `Redaction.RedactsExactly` and
  `Redaction.PartOfMarkSurvives`: a value that is part of the replacement, such as
  `redact`, can be left in the output. For values that do not reach over an edge of the
  replacement this is the exact condition. `Redaction.OneValueExactly` has it for any
  single value: it comes back in some text exactly if it fits over the replacement that
  was put in its place, as `ab«r` does (`Redaction.EdgeValueSurvives`), and four opening
  quotation marks do not (`Redaction.DoubledMarkIsClean`), though they
  can come back around the replacement of another value (`Redaction.CompanySurvives`).
* `ClientSecret.CarriesExactly` and `ClientSecret.ShortWriteExactly`: the file carries
  exactly the secrets without newlines and without white space at the edges. Its text is
  written by one call whose count is not checked; a write that stops inside the secret
  leaves a wrong secret behind, and one that stops before it leaves none.
  `ClientSecret.Converge`: a completed run ends in agreement exactly if no more than the
  last newline is missing, and what may come back of a power cut stays consistent
  exactly then, or if the secret was not begun and none was stored before.
* `AtomicFile.WriteCredentialFile` does not sync the directory after the rename,
  although it is meant to survive a crash: after a completed run only the new file can
  come back of a power cut exactly if the old one was the same. `AtomicFile.WriteSecret`
  syncs it, and there exactly if that worked or the old file was the same.
  `ClientSecret.Operate` covers both; the next completed run restores agreement.
* `ClientSecret.Converge`: a temporary file left by an interrupted run makes every later
  run with the same process id fail. `AtomicFile.WriteSecret` does not have this: it
  removes the leftover first.
* `SecretPrivacy.HiddenExactly`: a prompt says nothing about the values of a name exactly
  if every declaration of the name is sensitive. One that is declared twice, once
  sensitive and once not, is shown (`SecretPrivacy.MixedDeclarationShows`).

## Model

| member | source | states |
|---|---|---|
| DiskState.ProbeTells | packages/var-disk-manager/src/lib.rs:105-114 | a blkid that ran tells exactly whether the volume holds btrfs, nothing or something else; one that did not run tells nothing |
| DiskPlan.PlanBoot | packages/var-disk-manager/src/lib.rs:206-252 | the loop that fills three lists and the match on them compute `Planned` |
| DiskPlan.PlanExactly | packages/var-disk-manager/src/lib.rs:206-252 | each plan is made exactly for its table entry: what is to be formatted is the only blank disk, what is copied from the only legacy one |
| DiskPlan.OneOfExactly | packages/var-disk-manager/src/lib.rs:206-252 | being the one disk of a class means exactly: found once in it, and no other disk is |
| DiskPlan.PlanIgnoresOrder | packages/var-disk-manager/src/lib.rs:206-252 | the plan does not depend on the order in which disks were found |
| DiskState.VarKeptExactly | packages/var-disk-manager/src/bin/daemon.rs:294-332 | a tool keeps an existing `var` exactly if it is no formatting tool and, when it recreates the partition, the old one began where the new one does |
| DiskPrompts.AskConfirm | packages/var-disk-manager/src/bin/daemon.rs:163-171 | asks until the answer is a clear yes or no; the result is what an answer that a client sent to a confirmation prompt of this call says, with honest clients the first one to it |
| DiskPrompts.AskFor | packages/var-disk-manager/src/bin/daemon.rs:126-156 | posts the next prompt, of this kind, and returns an answer that a client sent to it, with honest clients the first |
| DiskPrompts.AskNewPassphrase | packages/var-disk-manager/src/bin/daemon.rs:373-397 | a returned passphrase is long enough and was given twice in a row, to a prompt for a new one and then to the prompt to repeat it, both of this call |
| DiskPlan.MissingIsForeign | packages/var-disk-manager/src/lib.rs:169-187 | a probe that failed and is read as nothing found makes no disk look like a data disk, and none with a partition blank |
| DiskManager.Manager.Probe | packages/var-disk-manager/src/bin/daemon.rs:334-353 | what is found of a disk is true or missing; with working tools it is all there |
| DiskManager.Manager.ClassifyAll | packages/var-disk-manager/src/bin/daemon.rs:1022-1040 | every attached disk in order, each as its probes made it look; with working tools as it is |
| DiskManager.Manager.MaybeGrowPartition | packages/var-disk-manager/src/bin/daemon.rs:294-332 | succeeds only with the partition within 16 MiB of the disk; the start and the content stay; a grown disk is left alone; no formatting tool runs |
| DiskManager.Manager.OpenGrown | packages/var-disk-manager/src/bin/daemon.rs:486-541 | once it goes on, its passphrase was the answer to a prompt of this unlock, partition and mapping are grown, and nothing but sizes has changed; before that only the partition has grown |
| DiskManager.Manager.OpenVolume | packages/var-disk-manager/src/bin/daemon.rs:493-515 | goes on only once the passphrase opens the volume; with honest clients it was the first answer to the prompt shown |
| DiskManager.Manager.MaybeResizeMapping | packages/var-disk-manager/src/bin/daemon.rs:516-541 | succeeds only with the mapping within 64 MiB of the partition; when nothing grew and all is grown no tool changes the disk |
| DiskManager.Manager.FinishBtrfs | packages/var-disk-manager/src/bin/daemon.rs:564-604 | the file system fills the mapper before the boot is released; an existing `var` stays, a missing one is made only after a client said yes to a confirmation prompt of this call, and without a yes only sizes change |
| DiskManager.Manager.FinishEmpty | packages/var-disk-manager/src/bin/daemon.rs:605-635 | only a mapper proven empty is formatted, and only after a client said yes to a confirmation prompt of this call; a park means that one said no |
| DiskManager.Manager.Finish | packages/var-disk-manager/src/bin/daemon.rs:542-654 | what happens for each thing the probe may say: the volume stays the same, `var` stays, formatting needs an empty mapper and a yes that a client sent to a confirmation prompt |
| DiskManager.Manager.Unlock | packages/var-disk-manager/src/bin/daemon.rs:486-654 | from any state: `var` is kept; nothing in the volume changes, and nothing is released, before its passphrase was the answer to a prompt of this unlock; without a yes that a client sent to a confirmation prompt of it only sizes change, and only a vacant volume is ever formatted; a released boot has the whole chain grown, and a grown disk sees no growing tool; while the tools work it does not fail, and is parked only on a no or over something foreign |
| DiskManager.Manager.FormatEncrypted | packages/var-disk-manager/src/bin/daemon.rs:403-481 | on success the disk holds a volume of this installation that opens by the given passphrase, with a new file system without `var`; only that disk is formatted |
| DiskManager.Manager.CopyWithProgress | packages/var-disk-manager/src/bin/daemon.rs:683-760 | success means the received snapshot is the whole source; at no time does the target have a `var` |
| DiskManager.Manager.Migrate | packages/var-disk-manager/src/bin/daemon.rs:764-852 | wherever it stops: a `var` on the new disk equals the source's, the source keeps its data, a disk without 1 GiB to spare is untouched, and nothing is formatted before a new passphrase was given twice; what is reported complete is complete, under that passphrase |
| DiskManager.Manager.SnapshotSource | packages/var-disk-manager/src/bin/daemon.rs:782-808 | the snapshot that is sent is the whole `var` of the source, which does not change |
| DiskManager.Manager.Provision | packages/var-disk-manager/src/bin/daemon.rs:854-861 | only the blank disk changes, and only after a new passphrase, long enough, was given twice; once released it is a volume of this installation that this passphrase opens, with an empty `var` |
| DiskManager.Manager.CreateVarSubvol | packages/var-disk-manager/src/bin/daemon.rs:866-881 | an empty `var` is added, or nothing changes |
| DiskManager.Manager.EnsureLabel | packages/var-disk-manager/src/bin/daemon.rs:656-669 | a legacy boot is released only with the label set, and nothing else has changed |
| DiskManager.Manager.Carry | packages/var-disk-manager/src/bin/daemon.rs:1022-1053 | the plan dispatch: whatever the plan, what a boot does stays within `BootEffects` and `PassphraseFirst`, judged by what clients answered in it |
| DiskManager.Manager.Boot | packages/var-disk-manager/src/bin/daemon.rs:937-1053 | a whole boot, cut off anywhere: no `var` is lost, disks not attached are untouched, formatting tools ran only on the unique disk that is seen as blank and has no partition, after a new passphrase was given twice, or on an empty mapper after a client said yes to a confirmation prompt of this boot; a volume is unlocked, or anything in it changed, only after its passphrase was the answer to a prompt of this boot; a new `var` is empty or the whole of the legacy one; disks count as what their probes found, a failed one having found nothing; while the tools work it fails only without a data disk, or without a `var` to copy |
| DiskHistory.BootSteps | packages/var-disk-manager/src/bin/daemon.rs:937-1053 | whatever a boot does, each `var` stays as it is, and a new one is empty or the whole of another disk's |
| DiskHistory.KeptSince | packages/var-disk-manager/src/bin/daemon.rs:937-1053 | from any moment at which a disk has a `var`, however it came there, it has it at all later ones, with what was written to it last since |
| DiskHistory.WholeAt | packages/var-disk-manager/src/bin/daemon.rs:764-852 | at any moment the data of any `var` was a whole `var` before: at the start, or as written |
| DiskHistory.Live | packages/var-disk-manager/src/bin/daemon.rs:937-1053 | over any history of boots, cuts, attached disks, answers, writes and enlargements: every `var`, from wherever there is one, holds what was written to it last, and none holds a part of another |
| DiskHistory.LoneDiskIsUnlocked | packages/var-disk-manager/src/lib.rs:169-252 | a volume of this installation that is the only data disk attached is unlocked |
| DiskHistory.MigratedDataBoots | packages/var-disk-manager/src/bin/daemon.rs:764-852 | a completed migration, then a released boot with the new disk alone: the system has the old disk's whole `var`, grown to the new disk |
| PromptHub.Ui.WaitForSubmission | packages/operator-secrets/src/bin/daemon.rs:157-172 | takes from the queue until the answer to the prompt shown; the result is `Awaited` of the queue |
| PromptHub.Ui.Ask | packages/var-disk-manager/src/bin/daemon.rs:126-156 | posts the next prompt id and waits for its answer |
| PromptHub.Ui.WaitForChoice | packages/operator-secrets/src/bin/daemon.rs:175-189 | takes the first choice of a secret, dropping form answers |
| PromptHub.AwaitedIsFirst | packages/operator-secrets/src/bin/daemon.rs:157-172 | an answer taken for a prompt is the first one on the queue with its id |
| PromptHub.AskedIsFirst | packages/var-disk-manager/src/bin/daemon.rs:126-156 | with clients that answer only what they saw, no stale or repeated answer is ever taken for a later prompt: it is the first one sent for it |
| PromptHub.GuessedAnswerIsDropped | packages/var-disk-manager/src/bin/daemon.rs:126-156 | that clients answer only what they saw is needed |
| EnvFile.EncodeEnvValue | packages/operator-secrets/src/lib.rs:389-403 | the quoting loop computes `EncodedValue` |
| EnvFile.EncodeEnvFile | packages/operator-secrets/src/lib.rs:406-415 | one line a field, in order: `Encoded` |
| EnvFile.DecodeEnvValue | packages/operator-secrets/src/lib.rs:440-464 | the unquoting loop computes `DecodedValue` |
| EnvFile.ParseEnvFile | packages/operator-secrets/src/lib.rs:421-438 | the parsing loop computes `Parsed`: bad lines are skipped, later lines win |
| EnvFile.UnescapeEscape | packages/operator-secrets/src/lib.rs:389-464 | unescaping undoes escaping |
| EnvFile.DecodeEncode | packages/operator-secrets/src/lib.rs:389-464 | every value decodes to itself, whatever quoting the encoder chose |
| EnvFile.LineRoundTrip | packages/operator-secrets/src/lib.rs:406-438 | a printed line reads back as its key and value |
| EnvFile.ParseEncoded | packages/operator-secrets/src/lib.rs:377-464 | the parser inverts the printer for all valid keys and newline-free values, and the file has one line a field |
| EnvFile.RoundTripExactly | packages/operator-secrets/src/lib.rs:389-464 | for distinct valid keys the round trip works exactly if no value has a newline |
| EnvFile.RewriteParsed | packages/operator-secrets/src/lib.rs:406-464 | for every text, parsing, printing in any order and parsing again gives the same map |
| SecretForms.AcceptSubmission | packages/operator-secrets/src/lib.rs:575-597 | the two loops compute `Accepted`, with the first error in source order |
| SecretForms.AcceptsExactlyGoodForms | packages/operator-secrets/src/lib.rs:575-597 | accepted are exactly the forms with each declared field once, representable, and nothing else; kept is every submitted value, in the declared order |
| SecretForms.RefusalIsTrue | packages/operator-secrets/src/lib.rs:575-597 | a refusal names a field that has the fault it is blamed for |
| SecretForms.ClassifyStored | packages/operator-secrets/src/lib.rs:524-552 | the loop computes `Classified` |
| SecretForms.CompleteExactly | packages/operator-secrets/src/lib.rs:524-552 | a file is complete with some values exactly if it holds a representable one for each field, and those are they |
| SecretForms.WrittenIsComplete | packages/operator-secrets/src/lib.rs:406-552 | complete values, written, are complete when read |
| SecretForms.AcceptedReadsBackComplete | packages/operator-secrets/src/lib.rs:377-597 | accept, print, parse and classify: the same values, for every parsed spec, distinct field names or not |
| SecretDaemon.Daemon.Ask | packages/operator-secrets/src/bin/daemon.rs:115-155 | prompts until a form is accepted; queue, screen and trace are those of `Form` |
| SecretDaemon.Daemon.Validate | packages/operator-secrets/src/bin/daemon.rs:204-223 | without a validator only presence is judged, in field order; else the validator is given the values, which is noted with its verdict |
| SecretDaemon.Daemon.ValidateUntilDecided | packages/operator-secrets/src/bin/daemon.rs:444-485 | the retry loop computes `Decided`: each time the same values are judged; blocked while undecided |
| SecretDaemon.PresenceExactly | packages/operator-secrets/src/bin/daemon.rs:204-223 | without a validator values are valid exactly if no declared field is missing or empty |
| SecretDaemon.JudgedTakesNext | packages/operator-secrets/src/bin/daemon.rs:204-223 | a judgement uses the next verdict of a validator, if it has one, and notes it |
| SecretDaemon.Daemon.PromptUntilAccepted | packages/operator-secrets/src/bin/daemon.rs:583-637 | the prompt loop computes `Prompted`; a rejected entry is shown again without its sensitive values |
| SecretDaemon.Daemon.Satisfy | packages/operator-secrets/src/bin/daemon.rs:487-581 | one secret's turn computes `SatisfiedSecret` |
| SecretDaemon.Daemon.Run | packages/operator-secrets/src/bin/daemon.rs:886-910 | a boot run computes `Booted` |
| SecretDaemon.Daemon.EditSession | packages/operator-secrets/src/bin/daemon.rs:639-709 | an edit session computes `Edited` |
| SecretStore.StoredIs | packages/operator-secrets/src/bin/daemon.rs:386-433 | the step that writes a secret leaves its file as its outcome says and no other changed, and goes on exactly when the values are written |
| SecretStore.WriteOnce | packages/operator-secrets/src/bin/daemon.rs:386-433 | every end of `WriteSecret` on the file system, with the power cut if it was cut off, is one of the four outcomes of that step |
| SecretSafety.FormTyped | packages/operator-secrets/src/bin/daemon.rs:115-172 | what a prompt loop takes is an accepted answer that a client sent to a prompt shown for this secret; if clients answer only what they saw, the first answer to it |
| SecretSafety.PromptedSafe | packages/operator-secrets/src/bin/daemon.rs:583-637 | a prompt loop changes its own secret's file only, and only to values that a client sent to one of its prompts, that were accepted and that a validator was then given and called valid (without one: with no field missing or empty) |
| SecretSafety.SatisfiedSafe | packages/operator-secrets/src/bin/daemon.rs:487-581 | a turn that ends satisfied leaves a file that reads as complete, with values that in this run a validator was given and called valid |
| SecretSafety.AllSafe | packages/operator-secrets/src/bin/daemon.rs:893-901 | so do all turns together: no later one undoes the last turn for a file |
| SecretSafety.BootSafe | packages/operator-secrets/src/bin/daemon.rs:886-910 | a whole boot run: each file is what it was, or values that a client sent to a prompt of this run, that were accepted and that a validator was then given and called valid (without one: with no field missing or empty); `done` is shown exactly on release, and then every file holds values so judged in this run for the last secret that has it, which is every secret if no two share a file; verdicts are used in order, each for the values noted with it |
| SecretSafety.UndecidedWritesNothing | packages/operator-secrets/src/bin/daemon.rs:444-637 | verdicts other than valid, however many, leave the file of every secret with a validator as it was, whatever the other secrets have |
| SecretSafety.EditSafe | packages/operator-secrets/src/bin/daemon.rs:639-709 | an edit session changes at most the chosen secret's file, only to values that a client sent to one of its prompts, that were accepted and that a validator was then given and called valid (without one: with no field missing or empty), and succeeds exactly when it wrote such values |
| SecretSafety.UndecidedEditsNothing | packages/operator-secrets/src/bin/daemon.rs:444-709 | verdicts other than valid, however many: an edit session for a secret with a validator changes no file and does not succeed |
| SecretPrivacy.FormAlike | packages/operator-secrets/src/bin/daemon.rs:115-155 | two prompts whose answers differ in hidden values look the same |
| SecretPrivacy.DecidedAlike | packages/operator-secrets/src/bin/daemon.rs:444-485 | so do two validations with the same verdicts |
| SecretPrivacy.PromptedAlike | packages/operator-secrets/src/bin/daemon.rs:583-637 | so do two prompt loops |
| SecretPrivacy.SatisfiedAlike | packages/operator-secrets/src/bin/daemon.rs:487-581 | so do two turns over files that differ in hidden values |
| SecretPrivacy.BootsLookAlike | packages/operator-secrets/src/bin/daemon.rs:487-637 | two boots that differ in hidden values only, equally acceptable and with the same verdicts, broadcast the same snapshots and end alike; a typed value is hidden if neither its secret nor a later one with the same file shows its name, a stored one if no secret with the file does |
| SecretPrivacy.EditsLookAlike | packages/operator-secrets/src/bin/daemon.rs:639-709 | the same for edit sessions |
| SecretPrivacy.HiddenExactly | packages/operator-secrets/src/lib.rs:557-571 | prompts say nothing of the values of a name exactly if every declaration of it is sensitive |
| SecretPrivacy.MixedDeclarationShows | packages/operator-secrets/src/lib.rs:557-571 | an instance: a name declared sensitive first and not sensitive later is shown |
| Redaction.RedactValues | packages/operator-secrets/src/bin/daemon.rs:331-339 | the replacing loop computes `Redacted` |
| Redaction.NothingAppears | packages/operator-secrets/src/bin/daemon.rs:331-339 | replacing one value lets no other value appear that cannot overlap the replacement |
| Redaction.RedactedIsClean | packages/operator-secrets/src/bin/daemon.rs:331-339 | no value of four or more characters that cannot overlap the replacement is left, however they overlap each other |
| Redaction.RedactsExactly | packages/operator-secrets/src/bin/daemon.rs:331-339 | for values that do not reach over an edge of the replacement: every text comes out clean exactly if no long value is part of it |
| Redaction.UnmarkedRedactExactly | packages/operator-secrets/src/bin/daemon.rs:331-339 | for values without the quotation marks: exactly if no long value is part of the word between them |
| Redaction.PartOfMarkSurvives | packages/operator-secrets/src/bin/daemon.rs:331-339 | every long value that is part of the replacement is left in some text, whatever the other values |
| Redaction.OneValueExactly | packages/operator-secrets/src/bin/daemon.rs:331-339 | a single long value, whatever it is, is gone from every text exactly if it does not fit over the replacement put in its place |
| Redaction.EdgeValueSurvives | packages/operator-secrets/src/bin/daemon.rs:331-339 | an instance that reaches over the edge and is left in some text: `ab«r` |
| Redaction.DoubledMarkIsClean | packages/operator-secrets/src/bin/daemon.rs:331-339 | and one that reaches over the edge and never is: four opening quotation marks |
| Redaction.CompanySurvives | packages/operator-secrets/src/bin/daemon.rs:331-339 | together with another value it is left in some text: what is clean for each value alone need not be for both |
| AtomicFile.PrepareTemp | packages/operator-secrets/src/bin/daemon.rs:397-418 | until the rename nothing changes but a private temporary file; on success it holds the text, synced |
| AtomicFile.HandOver | packages/operator-secrets/src/bin/daemon.rs:418-433 | owner, mode, rename, directory sync: at every step the destination is the old file or the whole new one |
| AtomicFile.WriteSecret | packages/operator-secrets/src/bin/daemon.rs:386-433 | at every state that may survive a cut the destination is the old file or the complete, synced new one with its owner, group and mode, and the temporary file is private or has the final mode; once done, only the new file may come back exactly if the directory was synced or the old file was the same; while calls work it succeeds and syncs, leftovers or not |
| AtomicFile.WriteCredentialFile | services/zitadel-configure.ts:1055-1081 | the same for the credential file, up to what its one write call got to; even once done the old file may come back, exactly if it was not the same; while calls work it fails exactly on a leftover with the same process id |
| AtomicFile.LastingExactly | packages/operator-secrets/src/bin/daemon.rs:429-432 | a file is what comes back of every power cut exactly if every state of the journal has it |
| AtomicFile.PowerCutKeepsOldOrNew | packages/operator-secrets/src/bin/daemon.rs:386-433 | after a power cut the destination reads as the old file or as the new one, never as a part |
| ClientSecret.ReadVariables | services/zitadel-configure.ts:1083-1118 | the loop over lines computes `Variables`: a line counts when an `=` follows at least one character, later lines win |
| ClientSecret.FormatReads | services/zitadel-configure.ts:1083-1201 | a written file gives its secret for its own client id, and none for another |
| ClientSecret.CarriesExactly | services/zitadel-configure.ts:1083-1201 | exactly the non-empty secrets without newlines and edge white space survive |
| ClientSecret.ShortWriteExactly | services/zitadel-configure.ts:1055-1118 | a file cut to its first n characters holds the secret exactly if no more than the last newline is missing, none exactly if the secret was not begun, and a wrong one in between |
| ClientSecret.ReadStoredClientSecret | services/zitadel-configure.ts:1083-1118 | a missing file and one for another client id hold no secret; any other read failure ends the run |
| ClientSecret.RegenerateConsistent | services/zitadel-configure.ts:1120-1201 | a new secret on the server cannot contradict the disk: what may come back after a cut holds none for this application |
| ClientSecret.CreateConsistent | services/zitadel-configure.ts:1120-1201 | nor can a new application: its client id was never stored |
| ClientSecret.DepositConsistent | services/zitadel-configure.ts:1055-1081 | storing the first n characters for the server's current secret keeps every state that may survive a cut consistent exactly if they hold it, or if they hold none and none was stored before |
| ClientSecret.Recall | services/zitadel-configure.ts:1083-1118 | a stored secret of the application is the server's current one, if disk and server are consistent |
| ClientSecret.Obtain | services/zitadel-configure.ts:1128-1166 | what the run goes on with is what the file or the server's reply says, and from a consistent state that is the current client id and secret |
| ClientSecret.Deposit | services/zitadel-configure.ts:1190-1201 | writes what the run has learnt, as much of it as the one call takes; disk and server stay consistent however it ends, except exactly after a completed write that stops inside the secret, or before it where one was stored |
| ClientSecret.Converge | services/zitadel-configure.ts:1120-1201 | the same for a whole run; with a secret stored the server's is left alone and that one stored again; a completed run ends in agreement exactly if the write left out no more than the last newline; while calls work it fails exactly on a leftover temporary file with the same process id, which stays |
| ClientSecret.Operate | services/zitadel-configure.ts:1120-1201 | over any sequence of runs, kills, lost replies, deletions and power cuts: if writes are whole disk and server stay consistent and a completed run ends in agreement, and if not, each event keeps them consistent but for a run whose write stopped short as said |
| BasicCredential.FormUrlencode | packages/oidc-credential-validator/src/main.rs:507-518 | the loop computes `FormEncoded` |
| BasicCredential.FormHasNoColon | packages/oidc-credential-validator/src/main.rs:507-518 | an encoded half has no colon |
| BasicCredential.FormDecodeEncode | packages/oidc-credential-validator/src/main.rs:507-518 | a form decoder (section 2.3.1 of RFC 6749) recovers every byte |
| BasicCredential.Encoded | packages/oidc-credential-validator/src/main.rs:521-545 | base64 text has length 4 * ceil(n / 3) |
| BasicCredential.Base64 | packages/oidc-credential-validator/src/main.rs:521-545 | the loop over chunks of three, with its shifts and masks, computes `Encoded` |
| BasicCredential.EncodeChunk | packages/oidc-credential-validator/src/main.rs:524-544 | the 24-bit word cut into four symbols is the sextets of the bytes |
| BasicCredential.TableIsStandard | packages/oidc-credential-validator/src/main.rs:522-522 | the table of symbols is the one of section 4 of RFC 4648 |
| BasicCredential.DecodeEncode | packages/oidc-credential-validator/src/main.rs:521-545 | a strict decoder of section 4 of RFC 4648 recovers every input |
| BasicCredential.EncodeDecode | packages/oidc-credential-validator/src/main.rs:521-545 | and every text it accepts is an encoding: no text decodes to what another does |
| BasicCredential.CredentialRoundTrip | packages/oidc-credential-validator/src/main.rs:343-354 | decode, split at the first colon, form-decode: exactly the client id and secret, for all byte strings |
| BasicCredential.BasicValue | packages/oidc-credential-validator/src/main.rs:343-354 | what the program sends reads so |
| LuaQuote.LuaString | packages/hypr-workspaced/src/request.rs:186-205 | the loop computes `Literal`, which reads back as the string |
| LuaQuote.ReadsBack | packages/hypr-workspaced/src/request.rs:186-205 | by section 3.1 of the Lua 5.4 Reference Manual the literal reads as exactly the string and ends where it was closed, whatever follows |
| LuaQuote.OnlyClosingQuote | packages/hypr-workspaced/src/request.rs:186-205 | after the opening quote the only unescaped one is the last character |
| WorkspaceIds.IdRoundTrip | packages/hypr-workspaced/src/workspace.rs:50-63 | a workspace id gives back its virtual workspace and slot |
| WorkspaceIds.RangesMeetExactly | packages/hypr-workspaced/src/workspace.rs:50-105 | the ids of two slots overlap exactly if the slots are the same |
| MonitorRegistry.Registry.Register | packages/hypr-workspaced/src/workspace.rs:162-185 | known monitors keep their entry, new ones are appended; tells truly whether anything changed |
| MonitorRegistry.Assign | packages/hypr-workspaced/src/workspace.rs:208-232 | the file afterwards and the slot of every monitor |
| MonitorRegistry.EveryMonitorHasItsSlot | packages/hypr-workspaced/src/workspace.rs:208-240 | every monitor's slot is the index of its description, cast to a byte |
| MonitorRegistry.RestartKeepsExactly | packages/hypr-workspaced/src/workspace.rs:130-153 | the registry survives a restart exactly if each description is a non-empty line without a carriage return at its end |
| MonitorRegistry.FileGrows | packages/hypr-workspaced/src/workspace.rs:130-186 | over any hotplugs and restarts the registry only grows at its end |
| MonitorRegistry.SlotsArePermanent | packages/hypr-workspaced/src/workspace.rs:130-232 | so a description that once had a slot always has it |
| MonitorRegistry.EmptyDescriptionShifts | packages/hypr-workspaced/src/workspace.rs:130-185 | a monitor without a description costs another its slot at the next start |
| MonitorRegistry.MonitorsKeepApart | packages/hypr-workspaced/src/workspace.rs:130-232 | over any hotplugs and restarts different descriptions have disjoint workspaces as long as the registry has at most 256 entries; if no two monitors were ever alike none is listed twice, and the bound is exact |
| MonitorRegistry.RangesDisjointExactly | packages/hypr-workspaced/src/workspace.rs:208-232 | different descriptions have disjoint workspaces exactly if no first entry comes a multiple of 256 lines after another, with no entry repeated exactly while there are at most 256 |
| MonitorRegistry.TooManyMonitors | packages/hypr-workspaced/src/workspace.rs:208-232 | an instance: of 257 monitors the last has the workspaces of the first |
| MonitorRegistry.ConnectedApartExactly | packages/hypr-workspaced/src/workspace.rs:162-232 | up to 256 entries, connected monitors have workspaces of their own exactly if no two have the same description |
| MonitorRegistry.TwinsShare | packages/hypr-workspaced/src/workspace.rs:162-232 | an instance: two monitors of one description have one slot |
| MonitorSync.BindWorkspaces | packages/hypr-workspaced/src/workspace.rs:375-400 | every workspace of every monitor's slot is bound to it |
| MonitorSync.Bring | packages/hypr-workspaced/src/workspace.rs:528-561 | a round of the loop, judging by the old list, shows its monitor the target and takes no other monitor's away |
| MonitorSync.BringAll | packages/hypr-workspaced/src/workspace.rs:526-561 | after the loop every monitor but the trigger's own shows its target, although the lists were read before it |
| MonitorSync.MovePinned | packages/hypr-workspaced/src/workspace.rs:328-373 | every pinned window that is not on a special workspace ends on its monitor's target, no other window moves, and no monitor shows anything else |
| MonitorSync.FocusUnderCursor | packages/hypr-workspaced/src/workspace.rs:584-618 | focusing the window under the cursor leaves the monitors in step |
| MonitorSync.SyncMonitors | packages/hypr-workspaced/src/workspace.rs:508-582 | if no request failed, all monitors end on the trigger's virtual workspace exactly if a connected monitor has the trigger's slot and the trigger was there, or nowhere; or if none has it, and the window under the cursor was on, or is pinned to, the target of the monitor where the trigger was or is bound to (where it appears, if it was nowhere and not bound); pinned windows have followed; with nothing to move and no request refused it succeeds |
| MonitorSync.OutOfStep | packages/hypr-workspaced/src/workspace.rs:508-582 | a state with two monitors from which they end out of step, although no request fails |
| MonitorSync.StrayOutOfStep | packages/hypr-workspaced/src/workspace.rs:466-582 | another, from which the trigger is the workspace of a monitor that is unplugged |
| WindowMoves.NeighbourBack | packages/hypr-workspaced/src/workspace.rs:648-697 | the neighbour is another monitor on the asked side, and its neighbour on the other side is the first |
| WindowMoves.SwapMonitorTwice | packages/hypr-workspaced/src/workspace.rs:648-731 | two swaps that are done put every window back |
| WindowMoves.MoveAll | packages/hypr-workspaced/src/workspace.rs:705-727 | moves one after another, the first failure ends it: listed windows moved or not, no other touched |
| WindowMoves.Exchange | packages/hypr-workspaced/src/workspace.rs:698-731 | done, exactly the windows of the two workspaces have changed places; cut off anywhere, each window is where it was, where it goes, or on the buffer |
| WindowMoves.SwapMonitor | packages/hypr-workspaced/src/workspace.rs:648-731 | exactly which two workspaces are swapped, if any, and that of them |
| WindowMoves.Collapse | packages/hypr-workspaced/src/workspace.rs:766-814 | every window that should move ends on the current workspace, no other moves; cut off, the windows of the first part of the list have moved |
| WindowMoves.BufferIsInvisibleExactly | packages/hypr-workspaced/src/workspace.rs:261-268 | the buffer counts as invisible exactly with fewer than 100 monitors |
| WindowMoves.SwapCutOffThenCollapse | packages/hypr-workspaced/src/workspace.rs:648-814 | a swap cut off at any request and then a collapse: no window is lost, those left on the buffer are on the current workspace, and all others where the swap left them unless their workspace is invisible |
| WindowMoves.CollapseSparesExactly | packages/hypr-workspaced/src/workspace.rs:261-268 | workspaces of connected monitors are spared exactly if their slots are below the number of monitors |
| WindowMoves.GapIsCollapsed | packages/hypr-workspaced/src/workspace.rs:162-268 | an instance: with the second of three monitors unplugged, a collapse on the first takes the windows of the third |

## Left out

- Terminal interfaces, socket servers, async scheduling, HTTP and JSON, D-Bus, Nix modules and shell scripts: input and output, or configuration.
- `validate`'s process handling, timeouts, the JSON text of the request and the parsing of the output; network retries: a verdict, a tool's outcome or a reply is an input.
- Texts of messages and log lines: notes are structured values, and plans are compared up to the reason.
- Progress figures, the broadcast of snapshots of the disk manager, `list_volumes` and the parsing of `btrfs filesystem usage`: the usage is the true one or unreadable.
- `split_prefix_glob`, `Spec::parse`, `parse_mode`, `lookup_id`, `parse_validator_output`: easy members; what `Spec::parse` guarantees is `SecretForms.WellFormed`.
- Automatic resumption: a disk cut off between partitioning and luksFormat is foreign at the next boot. Only safety is claimed there.
- The other converge functions of zitadel-configure, and the rest of the credential validator: mostly one read and one conditional write.
- `switch_virtual`, `move_to_virtual`, `navigate`, `next`, `prev`, the second half of `assign_workspaces` and the clean-up of orphan workspaces.
- DiskManager.Manager.Boot: a probe finds what is there, or, failing, nothing, as in the source; a failed tool has no effect, but `btrfs receive` may stop after any part; `settle` calls are not steps of their own; a disk has at most one partition, and one of class Luks begins at the first mebibyte; the configured partition GUID is not empty; sizes do not overflow; an answer is one a client sent, and with honest clients the first to its prompt.
- DiskHistory.Live: between boots only the running system writes, and only to the data of a `var`; disks are not swapped or edited by hand.
- DiskHistory.MigratedDataBoots: the second boot may have foreign disks attached, but no other data disk.
- PromptHub.AskedIsFirst: honesty is that no client sends an id before the prompt with it was broadcast; an answer is to the prompt, not to what a client believes it shows.
- SecretDaemon.Daemon.Run: one write is one step with one of four outcomes (`SecretStore.WriteOnce`); a completed write whose directory sync failed, undone by a later power cut, is not among them; where a stream of answers, verdicts or write results ends, power is lost.
- SecretSafety.BootSafe: of secrets that share a file it speaks of the last one; the source does not check that paths differ.
- SecretPrivacy.BootsLookAlike: times at which snapshots are sent are not modelled; the validators say the same in both runs, whatever they are given.
- AtomicFile.PowerCutKeepsOldOrNew: metadata operations survive in order, up to some point; a file not synced may come back with any content.
- ClientSecret.Operate: the application is changed only by this program and by deletion; a secret regenerated by hand and two applications of one name are excluded; after a run that spoilt the agreement nothing is promised but what `ClientSecret.Converge` says of a stored secret.
- Redaction.RedactsExactly: of lists of several values it does not cover those with one that reaches over an edge of the replacement, where the outcome depends on their order and on chains of replacements; `Redaction.OneValueExactly` covers lists of one, and `Redaction.CompanySurvives` shows that it does not carry over.
- The effect of a request on the compositor (module `Compositor`) is an assumption of the model: requests are text sent to a program that is not part of this model.
- LuaQuote.ReadsBack: strings are their UTF-8 bytes; the reader has every escape but the one for code points, which is never written.
- MonitorRegistry.SlotsArePermanent: saves succeed; a cut in the middle of writing the registry is not modelled.
- MonitorSync.SyncMonitors: a monitor's name and id are one thing; no monitor is disabled, no empty workspace is destroyed and no user acts during a run; a monitor that loses its workspace shows one of its own or a new one not bound elsewhere; which monitor a pinned window is on is an input.
- WindowMoves.SwapMonitor: windows do not open or close while it runs.

# The OpenWrt edge agent: a model of its crash-tolerant protocols

The agent (`cmd/netductor-agent`) runs unattended on routers that lose power, fill their flash and are out of
reach. It changes its own client certificates, its own binary and its own configuration, and executes commands
that the primary may deliver more than once. What keeps it reachable is the order of its file operations. This
project models those operations step by step and proves what they keep.

## The disk

`FileSystem.Disk` is a map from path to file, directory, symlink or special file. Every call that changes it
chooses freely between succeeding, failing and losing power; a recursive removal that stops early leaves any part
of the tree, a write that stops early any content. Losing power sets `crashed`, and from then on the disk is
frozen. The disk a method leaves behind is therefore also the disk that a crash at any point inside the method
leaves behind, so an `ensures` without further condition holds at every crash point. With `faulty` switched off,
calls fail only for a reason that is on the disk; clauses that start with `!fs.faulty` say what an undisturbed
call achieves, and exactly when.

## What is proved

**Client certificate rollover** (`StagedTree`, `Rollover`, `Recovery`). The idea that carries the proof is the
*fallback* of a directory: its backup if there is one, else itself. No step of installation, rollback, restore or
startup repair loses a fallback or makes an identity appear that was neither there nor being installed (`Kept`),
however calls fail and wherever power goes away. `Rollover.Install` adds exact rollback, and undisturbed success
exactly when every directory can be staged; `Recovery.Run` puts all operations into arbitrary runs and shows that
one undisturbed startup ends with all directories on one serial; on a router that is provisioned in one directory
only, the alternative is that each directory is as it was.

**The main loop** (`AgentLoop`). A run is recorded as the clients built, the heartbeats and how they ended, the
installations and restores with the disk before and after, and the cleanups. `Agent.Live` shows of every record
when a heartbeat or an acknowledgement is of another client than the disk stands for, that a rollover is taken
back only after three failed heartbeats without a handshake, and exactly when a plain client is built although
mTLS was in use.

**Commands** (`Commands`). Between two executions of a command at least 200 others complete, whatever is
delivered again, however marker writes fail, unless a look at its markers goes wrong in a way that is stated; as
long as its marker can be read, every redelivery is answered with the stored text.

**Self-update** (`SelfUpdate`). Nothing but the download that passed takes the binary's place, and the one that was
there is kept, unless the stat call before saving it fails.

**Smaller pieces**: the PIN limiter (`PinLimiter`), the archive scan (`TarScan`), the recording trimmer
(`Retention`), the UCI batch with its result line (`UciBatch`), the configuration file (`AgentConfig`), radio
detection and section naming (`Radios`), enrolment (`Enrollment`). `Text`, `Collections` and `ExchangeSort` hold
what several of them share.

## Where the code keeps less than one might expect

Each of these is stated with the exact condition under which the property holds, and shown for one input.

- A cleanup that is cut short parts the directories: a later restore makes them agree exactly if it had passed the
  last backup or not reached the first (`Recovery.CleanupThenRestore`, `Recovery.TwoDirectoryCrash`). A complete
  one keeps them able to go back to one identity exactly if they agree when it begins, which the code does not
  check (`Recovery.ConfirmKeepsIff`).
- An error in the last loop of an installation is reported although the new material is in use, and the main loop
  keeps the old client. It is possible only where some directory had a backup beside it before; then the next
  heartbeat is of another client than the disk stands for exactly if that client does not
  have the new material. After a rollback or restore that failed, or an error with a stale backup put back, it is
  exactly if the client is not made from what is then found, which is given from the disk before
  (`AgentLoop.Decided`, `AgentLoop.Agent.Live`, `AgentLoop.ErrorAfterSwap`).
- Stat calls that fail count as files that are not there, so a plain client can follow an mTLS one: exactly if the
  flag file is not seen, or the environment switches it off, and no complete directory is seen
  (`AgentLoop.PlainAfterFlag`, `AgentLoop.PlainAfterMtls`).
- A command that left a marker runs again exactly when a look at its markers hides the earlier attempt, and that
  breaks the spacing exactly when fewer than 200 others completed since (`Commands.MarkerStore.Deliver`,
  `Commands.RunsTwice`). Its stored reply is given exactly when its marker can be read (`Commands.OtherReplies`).
- The self-update saves the old binary exactly if the stat call before it works (`SelfUpdate.Update`,
  `SelfUpdate.OverlookedIsLost`).
- The PIN map can stay above its bound only with an entry for the empty address: it does not if enough entries
  started before that one, and does if too few started before it or with it (entries of the very same instant
  are left to the order of the map); without such an entry the bound holds outright (`PinLimiter.Limiter.Prune`).
  An empty remote address is the only one that gives an empty key (`PinLimiter.ClientIP`), and a TCP server sets
  none.
- A blank `band` line beside an `hwmode` line makes the detected band depend on the order of the lines
  (`Radios.OrderIndependentIff`, `Radios.OneRadioTwoReadings`).
- The two readers of the configuration differ once a line is longer than the scanner reads
  (`AgentConfig.ReadersAgree`, `AgentConfig.LongLine`).
- The marker of an acknowledged device token loses its meaning only in these cases, and exactly when is stated: a
  blank token is issued and a marker is there or written; a token is issued while the file of another one cannot
  be read and its marker is there; a removal takes the token and leaves the marker
  (`Enrollment.Agent.EnsureEnrolled`, `Enrollment.Agent.ClearToken`, with `Enrollment.BlankToken`,
  `Enrollment.UnreadableToken` and `Enrollment.InterruptedRemoval`). From then on no token issued is ever
  acknowledged, as long as the marker can be read (`Enrollment.Agent.Unacknowledged`).

## Model

| member | source | states |
|---|---|---|
| `StagedTree.CopyExtras` | cmd/netductor-agent/main.go:1140-1189 | The copy succeeds only on a real directory without links or special files (outside the three root files) and is then exactly the source without those three; undisturbed it succeeds on exactly these; a missing source is an empty copy. |
| `StagedTree.CopyableIff` | cmd/netductor-agent/main.go:1167-1186 | What can be copied: exactly the trees in which every path leads to a file, of any content and mode, or to a directory. |
| `StagedTree.CopyableEntriesIff` | cmd/netductor-agent/main.go:1155-1186 | At the root, whatever is at or below `ca.crt`, `client.crt` and `client.key` does not count. |
| `StagedTree.IdentityIff` | cmd/netductor-agent/main.go:1239-1271 | A directory stands for the identity of exactly the bytes of its three files, and for none without them. |
| `StagedTree.StagedIsOverlay` | cmd/netductor-agent/main.go:1039-1060 | Every path in the staged directory is what it was, except the three files at its root, which hold the new material with mode 0600; same-named files further down are kept. |
| `StagedTree.RemnantIdentity` | cmd/netductor-agent/main.go:1067-1069 | What an interrupted RemoveAll leaves of a directory stands for the same client identity or for none, never for another one. |
| `Rollover.Settle` | cmd/netductor-agent/main.go:990-1038 | A missing or non-directory current version is replaced by its backup, or made empty; the fallback survives any failure or crash in between; undisturbed it fails exactly when the backup is not a directory. |
| `Rollover.PrepareStage` | cmd/netductor-agent/main.go:989-1061 | One round of the staging loop: the settled directory, a staging directory with the overlaid tree, nothing else changed; undisturbed it succeeds exactly on a stageable directory. |
| `Rollover.StageableIff` | cmd/netductor-agent/main.go:989-1061 | Which those are: the backup, if any, and what is in use once it is put back are directories, and outside the three root names the latter has only files and directories, at any depth. |
| `Rollover.BuildStage` | cmd/netductor-agent/main.go:1039-1060 | The staging directory is new, holds the overlay of the current version, and is the only path touched. |
| `Rollover.StageAll` | cmd/netductor-agent/main.go:989-1061 | The whole staging loop: every directory settled and staged, or an error that leaves real directories and their backups alone, adds no backup and, where clean-up worked, no staging directory; undisturbed it succeeds exactly if every directory can be staged. |
| `Rollover.ClearStages` | cmd/netductor-agent/main.go:984-988 | Only staging directories of this attempt are removed, and if every removal worked none is left. |
| `Rollover.PutAside` | cmd/netductor-agent/main.go:1085-1109 | With a backup there, the directory goes to `.rollover-failed`; without one, it becomes the backup; either way the backup is then the fallback, at every crash point the fallback is still there. |
| `Rollover.SwapOne` | cmd/netductor-agent/main.go:1085-1120 | One directory: swapped in with the fallback in the backup, or refused with directory and backup as before when the compensating rename worked; no identity appears but the new one. |
| `Rollover.SwapRound` | cmd/netductor-agent/main.go:1085-1126 | One round of the swap loop keeps the directories swapped so far, leaves later ones alone and loses no fallback. |
| `Rollover.TakeBack` | cmd/netductor-agent/main.go:1065-1081 | Taking one directory back restores it from the failed version if it had a backup before the swap, else from the backup. |
| `Rollover.Rollback` | cmd/netductor-agent/main.go:1062-1084 | All swapped directories, and only these, are taken back, last first; a failure never loses a fallback. |
| `Rollover.BackOut` | cmd/netductor-agent/main.go:1110-1125 | Rollback gives back the state at the start of the swap where its calls worked, and removing the staging directories leaves none. |
| `Rollover.DropSuperseded` | cmd/netductor-agent/main.go:1127-1136 | The final loop touches nothing but `.rollover-failed`, and can fail only where a directory was moved there. |
| `Rollover.SwapAll` | cmd/netductor-agent/main.go:1085-1137 | Over all directories: activated everywhere, or rolled back everywhere where the compensating calls worked, or an error after activation, which takes a backup that was there when the swap began; a failed rollback leaves each directory as it was, gone, or part of the new one; no fallback lost in any case. |
| `Rollover.Install` | cmd/netductor-agent/main.go:982-1138 | The whole installation: exact rollback, untouched real directories on a staging error and how far settling came, the overlay in use and the fallback in the backup on success and on an error of the final loop, which takes a directory with a backup beside it before; what a failed rollback can leave; no fallback lost and no backup added before every directory has one, at any crash point; undisturbed success exactly when every backup and every settled current version is a directory, the latter with only files and directories outside the three root names. |
| `Rollover.StagingKeepsReal` | cmd/netductor-agent/main.go:989-1061 | When staging stops, a real directory and its backup are as before, whichever directory failed. |
| `Rollover.StagingSettles` | cmd/netductor-agent/main.go:989-1061 | When staging stops, a known number of directories is settled, and of the others only what was no directory may be gone. |
| `Rollover.StagesCleared` | cmd/netductor-agent/main.go:984-988 | When staging stops and clean-up worked, no staging directory was added anywhere. |
| `Recovery.RestoreOne` | cmd/netductor-agent/main.go:1297-1335 | One directory is restored to its fallback with nothing left beside it, or is untouched, or waits whole beside its backup; `undone` means untouched; undisturbed it succeeds exactly when there is a directory to go back to. |
| `Recovery.RestoreBackup` | cmd/netductor-agent/main.go:1311-1334 | The same for a directory that has a backup; undisturbed it always succeeds. |
| `Recovery.ClearTheWay` | cmd/netductor-agent/main.go:1311-1319 | The backup is untouched, and the current version is still there or whole in `.rollover-failed`. |
| `Recovery.PutBack` | cmd/netductor-agent/main.go:1320-1323 | The backup is in place, or the compensating rename was made, or nothing changed. |
| `Recovery.Restore` | cmd/netductor-agent/main.go:1296-1338 | Success restores every directory to its fallback; any stop leaves each directory in one of three harmless shapes; undisturbed it succeeds exactly when every fallback is a directory. |
| `Recovery.BackupsPresent` | cmd/netductor-agent/main.go:1286-1294 | Undisturbed, it answers exactly whether some directory has a real backup directory. |
| `Recovery.RecoverStartup` | cmd/netductor-agent/main.go:1234-1284 | Undisturbed, it succeeds exactly if no backup is there, or all directories agree, or every directory can be restored; the disk is unchanged in the first two cases and restored in the third; disturbed, no fallback is lost and no backup added. |
| `Recovery.Cleanup` | cmd/netductor-agent/main.go:1340-1353 | Wherever it stops, a prefix of the directories is clean, one may hold part of a backup, and the rest is untouched. |
| `Recovery.CleanupCutShort` | cmd/netductor-agent/main.go:1340-1353 | A restore after any partial cleanup makes the directories agree if and only if every backup was gone or every backup was still whole. |
| `Recovery.CleanOne` | cmd/netductor-agent/main.go:1341-1350 | One round: both versions go, or part of one is left; nothing else is touched. |
| `Recovery.CleanupThenRestore` | cmd/netductor-agent/main.go:1296-1353 | A cleanup that stops anywhere and a restore after it: the directories agree exactly if it had passed the last backup or not reached the first. |
| `Recovery.TwoDirectoryCrash` | cmd/netductor-agent/main.go:1340-1353 | A concrete crash between two directories: startup finds nothing to repair, and a restore leaves one of each. |
| `Recovery.KeptProtects` | cmd/netductor-agent/main.go:982-1338 | Every step that loses no fallback and adds backups last keeps each directory able to go back to the confirmed identity, or to none where it held none. |
| `Recovery.Provisioned` | internal/edge/provision.go:91-105 | A router as it is provisioned, with material in the first directory only, is a disk the convergence results start from. |
| `Recovery.StartupConverges` | cmd/netductor-agent/main.go:1234-1284 | From any disk of such a run, some directories possibly missing or empty, one undisturbed startup succeeds and leaves all directories with one known serial, or each with what it could go back to; with one known serial in any case if all could go back to the confirmed identity. |
| `Recovery.InstallCrashConverges` | cmd/netductor-agent/main.go:982-1284 | Directories that share a serial share the old or the new one after an installation cut anywhere and one startup. |
| `Recovery.FirstInstallCrashConverges` | cmd/netductor-agent/main.go:982-1284 | Where only some directories held the serial, an installation cut anywhere and one startup leave all with the old or the new one, or each as it was, a missing one possibly made. |
| `Recovery.ConfirmKeepsIff` | cmd/netductor-agent/main.go:660-668 | A complete confirmation leaves the directories able to go back to one identity if and only if they agree when it begins; and, where some may have none, not to different ones if and only if no two contradict each other. |
| `Recovery.CutKeepsIff` | cmd/netductor-agent/main.go:1340-1353 | One that is cut short, of directories that agree on a new identity, does so exactly if it had passed the last backup or not reached the first. |
| `Recovery.ConfirmProtects` | cmd/netductor-agent/main.go:1340-1353 | A confirmation in order leaves each directory able to go back to one identity or to none, and all to one if they agreed and could before. |
| `Recovery.Confirm` | cmd/netductor-agent/main.go:660-668 | A confirmation as the code makes it, without a look at the directories, cut anywhere. |
| `Recovery.Run` | cmd/netductor-agent/main.go:982-1353 | Over every run of installations, restores, startups and unguarded confirmations, each failing or crashing anywhere, from a disk on which directories may be missing or empty: as long as every confirmation was in order, one undisturbed startup succeeds and leaves all directories on one known serial or each with what it could go back to; with one known serial in any case if all held the confirmed identity at first and agreed at every confirmation. |
| `Recovery.RepeatedInstalls` | cmd/netductor-agent/main.go:1085-1338 | After any number of installations without confirmation, restoring gives back the directory of before the first, and restoring again changes nothing. |
| `Recovery.FallbackAlong` | cmd/netductor-agent/main.go:1085-1136 | The fallback never changes along a run without confirmation. |
| `Recovery.InstallThenRestore` | cmd/netductor-agent/main.go:982-1338 | The same for the operations themselves, whatever becomes of each installation; undisturbed, the restores succeed. |
| `AgentLoop.FindsFirst` | cmd/netductor-agent/tlsclient.go:44-58 | The material used is that of the first directory seen in which each of the three files is there and a directory or not empty. |
| `AgentLoop.PlainIff` | cmd/netductor-agent/tlsclient.go:33-78 | A plain client is built if and only if mTLS is not required by the environment or by a flag that is seen, and no directory with all three files is seen. |
| `AgentLoop.MtlsIff` | cmd/netductor-agent/tlsclient.go:44-109 | An mTLS client with certain material is built if and only if the first directory seen with all three files holds exactly its bytes, and they can be read and parsed. |
| `AgentLoop.CompleteIff` | cmd/netductor-agent/tlsclient.go:44-58 | The three stat calls see what the statements above spell out. |
| `AgentLoop.ValidationIff` | cmd/netductor-agent/main.go:946-980 | Material passes exactly if none of it is empty, it can be parsed, and the other checks give its serial. |
| `AgentLoop.InUseIsFound` | cmd/netductor-agent/main.go:1127-1138 | After an activation the next client has the new material, also when the final loop reported an error. |
| `AgentLoop.FoundSame` | cmd/netductor-agent/tlsclient.go:44-53 | The choice depends on the current directories alone, not on backups or staging directories. |
| `AgentLoop.InstallLeaves` | cmd/netductor-agent/main.go:918-944 | What each result of an installation leaves in use, from the disk before it. |
| `AgentLoop.SenderIsOnDisk` | cmd/netductor-agent/main.go:90-156 | Without an error past the swap, a failed rollback, a stale backup put back or a failed restore since it was built with all calls working, the client in use is the one the disk stands for. |
| `AgentLoop.ForeignIff` | cmd/netductor-agent/main.go:90-156 | When a heartbeat or an acknowledgement is of another client than the disk stands for, by what happened last; none is sent between an installation that power cut off and the next boot. |
| `AgentLoop.StreakOfThree` | cmd/netductor-agent/main.go:130-142 | A streak of three means three heartbeats that failed since the client was built, and no handshake. |
| `AgentLoop.PlainAfterFlag` | cmd/netductor-agent/tlsclient.go:33-78 | While the flag file is there, a plain client is built exactly if it is not seen or the environment switches it off, and no complete directory is seen. |
| `AgentLoop.ErrorAfterSwap` | cmd/netductor-agent/main.go:1085-1137 | A concrete record: two installations before a confirmation, the last loop of the second cannot remove the superseded version, and the next heartbeat is of the client before. |
| `AgentLoop.PlainAfterMtls` | cmd/netductor-agent/tlsclient.go:33-58 | A concrete run in which failing stat calls put a plain client after an mTLS one. |
| `AgentLoop.Agent.Build` | cmd/netductor-agent/tlsclient.go:28-109 | The client is what is seen of the disk, all of it when no call fails; building an mTLS client sets the sticky flag; counters start over. |
| `AgentLoop.Agent.Start` | cmd/netductor-agent/main.go:86-91 | Startup repairs without losing a fallback, then builds the client from the repaired disk; undisturbed, it comes up exactly if startup recovery can succeed, with the outcome of that, and a pending rollover is noticed. |
| `AgentLoop.Agent.Heartbeat` | cmd/netductor-agent/main.go:130-146 | Each heartbeat is recorded with the client that sent it; the disk changes only for a confirming answer or by taking a rollover back. |
| `AgentLoop.Agent.Send` | cmd/netductor-agent/main.go:648-668 | The request is recorded with the client, the disk and the outcome; a completed handshake is remembered. |
| `AgentLoop.Agent.DropBackups` | cmd/netductor-agent/main.go:660-668 | Backups go only here, for an answer to a heartbeat, and the client stays the one the disk stands for. |
| `AgentLoop.Agent.CountFailure` | cmd/netductor-agent/main.go:132-142 | The rollover is taken back exactly when one is pending, no handshake has completed and two failures were counted before. |
| `AgentLoop.Agent.TakeBackRollover` | cmd/netductor-agent/main.go:134-141 | The disk before and after the restore is recorded; a new client is built from it exactly if the restore worked. |
| `AgentLoop.Agent.Refresh` | cmd/netductor-agent/main.go:918-944 | Material that does not pass is rejected without effect; otherwise the installation is recorded with its result and the disk before and after, and a client is due exactly on success. |
| `AgentLoop.Agent.Attempt` | cmd/netductor-agent/main.go:982-1138 | The installation and what is recorded of it. |
| `AgentLoop.Agent.Poll` | cmd/netductor-agent/main.go:147-155 | After a successful refresh the client is rebuilt before the next heartbeat. |
| `AgentLoop.Agent.Live` | cmd/netductor-agent/main.go:86-157 | Over all boots and rounds: when a heartbeat, or an acknowledgement that drops backups, is of another client than the disk stands for, in both directions for each cause; an error past the swap takes a directory with a backup beside it before; backups go only for an acknowledgement to that client on that disk; a rollover is taken back only after three failed heartbeats and no handshake since the client was built; exactly when a plain client is built although the flag file is there. |
| `Commands.SafeNameIsFilter` | cmd/netductor-agent/cmd_done.go:18-30 | The safe name is the usable characters of the id, in order; sanitising twice changes nothing. |
| `Commands.SafeNameIs` | cmd/netductor-agent/cmd_done.go:18-30 | An id of ASCII letters, digits, hyphens and underscores is its own safe name; any other character is dropped wherever it stands. |
| `Commands.DifferentMarkers` | cmd/netductor-agent/cmd_done.go:14-30 | Two different such ids share no marker file. |
| `Commands.FileNames` | cmd/netductor-agent/cmd_done.go:14-30 | Marker files of different commands and kinds never collide, and the pruner tells completion markers by name. |
| `Commands.FileNameIs` | cmd/netductor-agent/cmd_done.go:14-30 | What the marker files are called. |
| `Commands.AlreadyOnce` | cmd/netductor-agent/main.go:696-701 | A replayed text has the prefix `already:` once and is otherwise the stored text. |
| `Commands.RunOnceIff` | cmd/netductor-agent/main.go:691-713 | Running a command keeps the spacing of 200 exactly when each earlier execution of it is that long ago. |
| `Commands.StableReplies` | cmd/netductor-agent/main.go:696-701 | While a completion marker is there and can be read when its command is delivered, every reply is its text with one prefix, and the text never changes; whatever happens to other commands. |
| `Commands.OtherReplies` | cmd/netductor-agent/main.go:696-719 | The stored reply is given exactly when the marker can be read; otherwise the command runs again, cannot be started, or is called ambiguous. |
| `Commands.InterruptedReplies` | cmd/netductor-agent/main.go:702-708 | A command cut off in the middle is only ever answered as ambiguous, until a marker of it is pruned or cannot be seen. |
| `Commands.FinishKeepsStore` | cmd/netductor-agent/cmd_done.go:73-92 | A completion marker, once renamed into place, takes over from the started marker as the reason not to run again. |
| `Commands.PublishKeepsStore` | cmd/netductor-agent/cmd_done.go:58-71 | Publishing a started marker keeps every executed command covered. |
| `Commands.DropStartedKeepsStore` | cmd/netductor-agent/cmd_done.go:90 | The started marker may go because the completion marker is newer than every execution. |
| `Commands.PruneKeepsStore` | cmd/netductor-agent/cmd_done.go:95-133 | A command whose marker is pruned has 200 other completions after it. |
| `Commands.RunKeepsStore` | cmd/netductor-agent/main.go:710-713 | A command about to run has a started marker that covers it. |
| `Commands.OldHasNewer` | cmd/netductor-agent/cmd_done.go:119-132 | In the sorted list everything that is removed has 200 markers at least as new. |
| `Commands.PrunedExactly` | cmd/netductor-agent/cmd_done.go:95-133 | Undisturbed, exactly 200 markers are left and none is older than one removed. |
| `Commands.MarkerStore.MarkStarted` | cmd/netductor-agent/cmd_done.go:58-71 | Success means the started marker is there; no completion marker changes. |
| `Commands.MarkerStore.SaveDone` | cmd/netductor-agent/cmd_done.go:73-92 | Success means the text is stored; no other command’s marker changes except by pruning; a failure keeps the started marker. |
| `Commands.MarkerStore.Commit` | cmd/netductor-agent/cmd_done.go:82-92 | The rename is the moment of completion; undisturbed the started marker is gone afterwards. |
| `Commands.MarkerStore.Tidy` | cmd/netductor-agent/cmd_done.go:90-91 | The marker just written survives the pruning that follows it. |
| `Commands.MarkerStore.Prune` | cmd/netductor-agent/cmd_done.go:95-133 | Only completion markers with 200 newer ones go; undisturbed the newest 200 are left. |
| `Commands.MarkerStore.RemoveOldest` | cmd/netductor-agent/cmd_done.go:130-132 | The removal loop removes the part of the sorted list before the last 200 and nothing else. |
| `Commands.MarkerStore.Collect` | cmd/netductor-agent/cmd_done.go:104-118 | The pruner lists each completion marker once, and all of them if it can read them. |
| `Commands.MarkerStore.Execute` | cmd/netductor-agent/main.go:709-719 | The command runs only once its started marker is on the disk; undisturbed its result is stored and answered. |
| `Commands.MarkerStore.Refuse` | cmd/netductor-agent/main.go:702-708 | A command that was cut off is answered as ambiguous, and that is stored where writing works. |
| `Commands.MarkerStore.Deliver` | cmd/netductor-agent/main.go:691-719 | Undisturbed, a command that left a marker runs exactly when a look was blind; a run breaks at-most-once exactly when an earlier one is too recent; replies are as the markers that can be seen say; an id without usable characters never runs. |
| `Commands.MarkerStore.FirstDelivery` | cmd/netductor-agent/main.go:709-719 | The first delivery of a non-empty id of these characters, undisturbed, runs the command, answers its result and stores it under the id. |
| `Commands.MarkerStore.Serve` | cmd/netductor-agent/main.go:691-731 | Over every sequence of deliveries, write failures and crashes: unless a look was blind, at least 200 others complete between two executions of one command; the run is one that the reply theorems speak about. |
| `Commands.RunsTwice` | cmd/netductor-agent/main.go:691-719 | A concrete second delivery that runs again at once because the completion marker cannot be read. |
| `ExchangeSort.Sort` | cmd/netductor-agent/cmd_done.go:122-129 | The in-place sort yields a sorted permutation. |
| `SelfUpdate.Update` | cmd/netductor-agent/agent_ops.go:58-178 | At every crash point the agent’s path holds nothing, the old binary or bytes with the wanted sum, but for the case of letters, that begin with the ELF magic, with mode 0755, and the old binary is there or at `.prev` if the stat call saw it, while `.prev` is untouched if not; `Updated` means the download that passed is in place and `.prev` is the old binary exactly if it was seen; a failure whose rollback worked restores the path; no temporary file is left where removals worked; undisturbed the download alone decides. |
| `SelfUpdate.PassesIff` | cmd/netductor-agent/agent_ops.go:94-102 | The two checks: the sum and the wanted one have the same length and agree at each index up to ASCII case, and the bytes begin 7f 45 4c 46. |
| `SelfUpdate.RequireShaIff` | cmd/netductor-agent/agent_ops.go:222-233 | A wanted checksum is accepted exactly if, trimmed, it is 64 hexadecimal digits of either case. |
| `SelfUpdate.OverlookedIsLost` | cmd/netductor-agent/agent_ops.go:107-117 | A concrete update in which only the second stat call fails, and the old bytes are nowhere. |
| `SelfUpdate.UpdateChecked` | cmd/netductor-agent/agent_ops.go:66-178 | The same once the arguments are accepted. |
| `SelfUpdate.Fetch` | cmd/netductor-agent/agent_ops.go:80-106 | A file that passed both checks and is executable, or none; undisturbed exactly when the download passes. |
| `SelfUpdate.TempName` | cmd/netductor-agent/agent_ops.go:79-89 | The temporary name is unused, in the agent’s directory or else in the temporary one. |
| `SelfUpdate.SaveOld` | cmd/netductor-agent/agent_ops.go:107-116 | The old binary is at `.prev`, or where it was. |
| `SelfUpdate.Replace` | cmd/netductor-agent/agent_ops.go:107-177 | From saving the old binary on, nothing unverified reaches the path, a seen binary is never lost, and an overlooked one is replaced without being saved. |
| `SelfUpdate.Activate` | cmd/netductor-agent/agent_ops.go:117-177 | Rename, or copy and rename; every failure exit puts the saved binary back. |
| `SelfUpdate.CopyFile` | cmd/netductor-agent/agent_ops.go:125-150 | The copy has the bytes of the original. |
| `SelfUpdate.StageCopy` | cmd/netductor-agent/agent_ops.go:118-151 | The copy beside the agent has the bytes of the download; on failure it is removed again. |
| `SelfUpdate.Recheck` | cmd/netductor-agent/agent_ops.go:152-164 | The copy is checked again before it is used. |
| `SelfUpdate.ActivateCopy` | cmd/netductor-agent/agent_ops.go:152-177 | A copy that does not pass never reaches the path; undisturbed a passing one does, with its bytes. |
| `SelfUpdate.FinalRename` | cmd/netductor-agent/agent_ops.go:165-176 | If the last rename and the rollback both fail, the copy stays for the operator. |
| `SelfUpdate.PutBack` | cmd/netductor-agent/agent_ops.go:70-78 | The rollback closure renames `.prev` back if there was a binary, and does nothing otherwise. |
| `PinLimiter.OneMore` | cmd/netductor-agent/guest_http.go:58-69 | One more wrong PIN keeps every half-open 15-minute window at five if fewer than five were live. |
| `PinLimiter.WindowIsLive` | cmd/netductor-agent/guest_http.go:20-35 | No window that ends now or later holds more than the entries the pruner keeps. |
| `PinLimiter.LiveIsWindow` | cmd/netductor-agent/guest_http.go:20-35 | What the pruner keeps is exactly what the half-open window holds. |
| `PinLimiter.FilteredIsLive` | cmd/netductor-agent/guest_http.go:20-35 | Pruning what was pruned earlier is pruning the whole history. |
| `PinLimiter.WrongKeeps` | cmd/netductor-agent/guest_http.go:58-87 | Remembering a wrong PIN keeps lists and history in step. |
| `PinLimiter.Limiter.Prune` | cmd/netductor-agent/guest_http.go:20-56 | Old times go; for lack of room whole entries go, oldest head first and no more than needed; without an entry for the empty address the room is kept, with one it is decided by how many entries started before it. |
| `PinLimiter.RoomIff` | cmd/netductor-agent/guest_http.go:37-55 | Making room stops short at the empty address: what started before it decides. |
| `PinLimiter.ClientIP` | cmd/netductor-agent/guest_http.go:91-97 | The key of a request is empty exactly if its remote address is. |
| `PinLimiter.ClientIPIs` | cmd/netductor-agent/guest_http.go:91-97 | The port goes and the address stays. |
| `PinLimiter.Limiter.DropOld` | cmd/netductor-agent/guest_http.go:21-34 | The first loop keeps the times after the cut and drops empty lists. |
| `PinLimiter.Limiter.Oldest` | cmd/netductor-agent/guest_http.go:37-50 | The address with the oldest head. |
| `PinLimiter.Limiter.Reserve` | cmd/netductor-agent/guest_http.go:58-69 | A slot is given exactly when fewer than five live ones are held, and lists stay at five in any interleaving. |
| `PinLimiter.Limiter.ClearLast` | cmd/netductor-agent/guest_http.go:71-77 | Releases the newest slot of that address and nothing else. |
| `PinLimiter.Limiter.DeskCheck` | cmd/netductor-agent/guest_http.go:79-89 | Without eviction: accepted exactly when right and fewer than five wrong ones are in the half-open window of 15 minutes; right PINs cost nothing; no window ever holds more than five wrong ones. |
| `PinLimiter.Limiter.Interleave` | cmd/netductor-agent/guest_http.go:58-77 | Under every interleaving of reservations and releases each list stays at most five long, and with remote addresses the map exceeds its bound by one at most. |
| `Retention.MaxBytes` | cmd/netductor-agent/nvr_cmds.go:41-50 | The limit in bytes: the configured number of mebibytes from 1 to 4096, 24 below that and 4096 above. |
| `Retention.SumOfPermutation` | cmd/netductor-agent/nvr_cmds.go:252-259 | Sorting does not change the total. |
| `Retention.Buffer.Walk` | cmd/netductor-agent/nvr_cmds.go:238-248 | Each recording is listed once with its size and time. |
| `Retention.Buffer.Trim` | cmd/netductor-agent/nvr_cmds.go:230-270 | Above the limit, the shortest run of oldest recordings that brings the total to 80% goes, and nothing else; below it nothing goes. |
| `Retention.Buffer.RemoveOldest` | cmd/netductor-agent/nvr_cmds.go:261-268 | The running total is the sum of what is left; it stops at the first moment the total fits. |
| `TarScan.Scan` | cmd/netductor-agent/archive_safe.go:47-124 | Accepts if and only if the archive is whole, has at most 10000 members, each of type `x` or `g`, or a directory or file with a fine name, files of at most 32 MiB each and 256 MiB together, and a file unless none is needed. |
| `TarScan.CheckName` | cmd/netductor-agent/archive_safe.go:83-101 | Accepts exactly the relative names without backslash and without `..` component whose components begin with those of the prefix. |
| `TarScan.AdmissibleIff` | cmd/netductor-agent/archive_safe.go:47-124 | The checks in the order of the code are the conditions spelled out. |
| `TarScan.UnderIff` | cmd/netductor-agent/archive_safe.go:96-101 | The comparison of the cleaned name with the prefix is one of components. |
| `TarScan.CleanStaysBelow` | cmd/netductor-agent/archive_safe.go:87-95 | The two checks on the cleaned name reject nothing that the check on components accepts. |
| `TarScan.AllowedLandsInside` | cmd/netductor-agent/archive_safe.go:83-101 | A member that is accepted resolves inside the destination, whole or with its first component stripped, and under the prefix where one is set; it is no link. |
| `TarScan.FineLandsInside` | cmd/netductor-agent/archive_safe.go:83-101 | The same from the conditions spelled out, for every member that is not meta data. |
| `TarScan.Extract` | cmd/netductor-agent/archive_safe.go:133-147 | Only an admitted archive is unpacked, as far as the tar program comes; every member that is lands inside the destination, and under the prefix where one is set and nothing is stripped. |
| `UciBatch.PrinterAndParserAgree` | cmd/netductor-agent/openwrt_net.go:298-318 | The parser reads off the printed result exactly whether the failure count is positive, whatever the logs contain. |
| `UciBatch.UciBatchFailed` | cmd/netductor-agent/openwrt_net.go:302-318 | The parser’s two loops compute the specification. |
| `UciBatch.IssuedAreHarmless` | cmd/netductor-agent/openwrt_net.go:181-290 | No single quote and no line feed reaches an external command. |
| `UciBatch.IssuedIff` | cmd/netductor-agent/openwrt_net.go:181-290 | A line is carried out as one command if and only if it asks for it: its operation, and its arguments with their lengths, characters and places in the line. |
| `UciBatch.PathIff` | cmd/netductor-agent/validate.go:98-118 | A path is valid exactly if, trimmed, it has 1 to 128 characters, each a letter, digit or one of `._-@[]`. |
| `UciBatch.NameIff` | cmd/netductor-agent/validate.go:178-190 | A config name is valid exactly if, trimmed, it has 1 to 64 ASCII letters, digits, hyphens or underscores. |
| `UciBatch.FailsIff` | cmd/netductor-agent/openwrt_net.go:171-298 | A line fails exactly if it counts and asks for nothing or for a command that fails. |
| `UciBatch.RenderIs` | cmd/netductor-agent/openwrt_net.go:299 | What the result looks like. |
| `UciBatch.EffectiveIsRequest` | cmd/netductor-agent/openwrt_net.go:171-204 | Exactly the blank lines and comments are skipped. |
| `UciBatch.SomeFailing` | cmd/netductor-agent/openwrt_net.go:168-299 | The failure count is positive exactly when some line fails. |
| `UciBatch.DoLine` | cmd/netductor-agent/openwrt_net.go:171-298 | One line: skipped, succeeded or failed as specified, with the command it asks for and no other. |
| `UciBatch.Interpret` | cmd/netductor-agent/openwrt_net.go:168-300 | Every line that counts is counted once, and the commands are issued in order. |
| `UciBatch.Batch` | cmd/netductor-agent/openwrt_net.go:168-300 | ok + fail is the number of lines that count, fail the number of failing ones, and the result parses as failed exactly when a line failed. |
| `UciBatch.Overlay.ApplyOnce` | cmd/netductor-agent/main.go:161-178 | The marker appears exactly when it can be written and no line of the overlay failed; once there, nothing is applied again. |
| `AgentConfig.ConfigRoundTrip` | cmd/netductor-agent/recovery_http.go:302-346 | After a submission every written key reads as submitted, or as before where nothing was submitted; every other key, ROLE among them, is gone. |
| `AgentConfig.Submitted` | cmd/netductor-agent/recovery_http.go:302-346 | The same for each key by its name: `SERVER`, `TOKEN`, `DEVICE_ID`, `CONTROL_ONLY`, `SERVER_PIN`, `INTERVAL`, `NVR_DIR`, `NVR_MAX_MB` and, gone, `ROLE`. |
| `AgentConfig.RunsWith` | cmd/netductor-agent/main.go:392-424 | And for each field the agent then runs with, where parseKV reads every line. |
| `AgentConfig.SettingIff` | cmd/netductor-agent/main.go:395-402 | What a line sets. |
| `AgentConfig.PositiveIntIff` | cmd/netductor-agent/main.go:412-421 | Which numbers are taken: digits, perhaps after a plus sign, positive and of at most 63 bits. |
| `AgentConfig.FlagRoundTrip` | cmd/netductor-agent/main.go:882-894 | readConfigFlag gives back what was written. |
| `AgentConfig.SettingsRoundTrip` | cmd/netductor-agent/recovery_http.go:307-317 | A reader with a line limit sees the entries up to the first one that is too long, and all without a limit. |
| `AgentConfig.ReadersAgree` | cmd/netductor-agent/main.go:392-424 | The two readers agree on every written key if and only if no written line is longer than 65535. |
| `AgentConfig.LongLine` | cmd/netductor-agent/main.go:392-424 | A concrete line that readConfigFlag reads and parseKV does not. |
| `AgentConfig.WritingTwice` | cmd/netductor-agent/recovery_http.go:302-346 | Submitting the same twice writes the same file. |
| `AgentConfig.ParsedRoundTrip` | cmd/netductor-agent/main.go:392-424 | The agent then runs with what was submitted and, for the rest, what was set before. |
| `AgentConfig.ApplyPairs` | cmd/netductor-agent/main.go:403-422 | Each field takes the value of its own key, if there is one; numbers only if positive. |
| `AgentConfig.ParseKV` | cmd/netductor-agent/main.go:392-424 | The loop of parseKV computes the specification, giving up at a line that is too long. |
| `AgentConfig.FirstFlag` | cmd/netductor-agent/main.go:887-892 | The loop of readConfigFlag takes the first matching line. |
| `AgentConfig.Collect` | cmd/netductor-agent/recovery_http.go:308-316 | The writer’s reading loop keeps the last setting of each key. |
| `AgentConfig.Build` | cmd/netductor-agent/recovery_http.go:335-345 | The building loop writes the header and the known keys that have a value, in order. |
| `AgentConfig.ConfigFile.Write` | cmd/netductor-agent/recovery_http.go:302-346 | The file is the written form of the updated values, or what a failed write leaves; the device token goes exactly for another server or a submitted token, before the write; an old file that cannot be read counts as none. |
| `AgentConfig.ConfigFile.ReadFlag` | cmd/netductor-agent/main.go:882-894 | readConfigFlag over the file, empty without one. |
| `Radios.Collect` | cmd/netductor-agent/wifi_radios.go:18-62 | The line-by-line map gives exactly the declared radios with the band the lines lead to. |
| `Radios.Detect` | cmd/netductor-agent/wifi_radios.go:18-77 | The list is these radios, sorted by name. |
| `Radios.NormalizeBandIs` | cmd/netductor-agent/wifi_radios.go:79-91 | The spellings of the three bands; any other text stays, trimmed and in lower case. |
| `Radios.BandFromHwmodeIs` | cmd/netductor-agent/wifi_radios.go:93-106 | `ac`, or an `a` without a `g`, is 5 GHz; else a `g` or a `b` is 2.4 GHz; case does not matter. |
| `Radios.LessIff` | cmd/netductor-agent/wifi_radios.go:76 | The order of names: the first difference decides. |
| `Radios.OptionLine` | cmd/netductor-agent/wifi_radios.go:30-61 | What a band line and an hwmode line of a section say. |
| `Radios.DeviceLine` | cmd/netductor-agent/wifi_radios.go:41-48 | What declares a radio. |
| `Radios.BandIsPossible` | cmd/netductor-agent/wifi_radios.go:50-61 | The band read is one of those some order of the lines can lead to. |
| `Radios.PossibleIsReached` | cmd/netductor-agent/wifi_radios.go:50-61 | Each of those bands is what some order of the lines leads to. |
| `Radios.OrderIndependentIff` | cmd/netductor-agent/wifi_radios.go:18-77 | The detected radios are the same for every order of the lines if and only if no radio has two such bands that show differently. |
| `Radios.PlainSectionsAreUnambiguous` | cmd/netductor-agent/wifi_radios.go:50-61 | Where all band lines of a radio say the same and are not blank, and all its hwmode lines say the same, the order does not matter. |
| `Radios.BlankBandMatters` | cmd/netductor-agent/wifi_radios.go:50-61 | Where a radio has a blank band line and an hwmode line that says something, it does. |
| `Radios.OneRadioTwoReadings` | cmd/netductor-agent/wifi_radios.go:50-61 | A concrete listing that reads as 5 GHz in one order and as unknown in another. |
| `Radios.ListIsUnique` | cmd/netductor-agent/wifi_radios.go:63-76 | There is exactly one sorted list of given radios. |
| `Radios.ListIgnoresOrder` | cmd/netductor-agent/wifi_radios.go:18-77 | Where no radio is ambiguous, the detected list is the same for every order of the lines. |
| `Radios.GuestTargets` | cmd/netductor-agent/wifi_radios.go:110-148 | At most one radio of each band, 2.4 GHz first, or radios without known band; never none; a band is served exactly when some radio has it. |
| `Radios.OnePerBand` | cmd/netductor-agent/wifi_radios.go:128-145 | The same for the choice among detected radios. |
| `Radios.NameSections` | cmd/netductor-agent/guest_apply.go:331-344 | The naming loop computes the specification. |
| `Radios.SectionsCollideIff` | cmd/netductor-agent/guest_apply.go:331-344 | Two radios share a section name in exactly four cases. |
| `Radios.SectionsAreDistinct` | cmd/netductor-agent/guest_apply.go:328-344 | None of them arises from a list that guestRadioTargets can return. |
| `Enrollment.Agent.SaveToken` | cmd/netductor-agent/main.go:199-204 | Success means the token is on the disk; the marker is not touched. |
| `Enrollment.Agent.MarkDone` | cmd/netductor-agent/main.go:225-258 | Success means a complete marker; whatever fails, the marker is the old one, complete or gone. |
| `Enrollment.MarkerValidIff` | cmd/netductor-agent/main.go:217-223 | A marker is valid exactly if it is `ok` and spaces around it. |
| `Enrollment.Agent.EnsureAcked` | cmd/netductor-agent/main.go:283-294 | An acknowledgement is sent exactly unless the marker is read as valid, and a marker is only written for an accepted token. |
| `Enrollment.Agent.EnsureEnrolled` | cmd/netductor-agent/main.go:297-351 | The marker keeps its meaning unless a token is issued that is blank or while a marker vouches for one that cannot be read; undisturbed, exactly when; a token issued beside a readable marker is never acknowledged. |
| `Enrollment.Agent.ClearToken` | cmd/netductor-agent/main.go:206-210 | The marker keeps its meaning exactly unless the token goes and a valid marker stays. |
| `Enrollment.Agent.OneRound` | cmd/netductor-agent/main.go:90-108 | One submission and round keep the meaning of the marker unless they are of the kind above. |
| `Enrollment.Agent.Live` | cmd/netductor-agent/main.go:90-120 | Over every run of rounds and submissions, with unreadable files and interrupted removals: a valid marker means that the token on the disk was acknowledged, unless some round or removal of the run was of the kind above on the disk it met. |
| `Enrollment.Agent.Unacknowledged` | cmd/netductor-agent/main.go:283-351 | Once a marker vouches for no token or another one, no token issued later is acknowledged while the marker can be read. |
| `Enrollment.BlankToken` | cmd/netductor-agent/main.go:328-340 | A concrete blank token. |
| `Enrollment.UnreadableToken` | cmd/netductor-agent/main.go:191-197 | A concrete read error after which the token on the disk was never acknowledged. |
| `Enrollment.InterruptedRemoval` | cmd/netductor-agent/main.go:206-210 | A concrete removal cut off after the token, with the same end. |

## Left out

- StagedTree.CopyExtras: the copy is returned as a value and written into the staging directory at the end, so the
  partly filled staging directory that a failure leaves is not followed (its content matters to nothing else);
  directory modes and the temporary files of durable writes are not kept.
- SelfUpdate.Update: what is at `.prev` from an earlier update is not protected, because the code removes it first.
- Commands.MarkerStore.Serve: modification times strictly increase; two markers written at the same instant are not
  modelled.
- AgentLoop.Agent.Live: the environment is the same at every boot.
- Enrollment.Agent.Live: a submission takes place between rounds, not during one.
- PinLimiter.Limiter.DeskCheck: calls that overlap are covered by `PinLimiter.Limiter.Interleave` only, as the code
  holds its lock for one reservation or release at a time.
- Radios.Detect: the library sort is modelled as picking the least name left.
- Renames and removals are durable once they return; an fsync is a call that may fail and has no other effect.
- Symlinks are never followed; lengths that the code counts in bytes are counted in characters; which characters are
  letters or digits outside ASCII is a parameter.
- HTTP, TLS handshakes, certificate parsing and verification, SHA-256 and the `uci`, `wifi` and `tar` programs are
  parameters: outcomes that may be anything.
- `readBodyLimited`, `nvrDir`, the other validators of `validate.go` and the timer of `luci.go` would add easy
  members only.
- Recording and its supervision, camera control, configuration backup and restore, sysupgrade, the
  `applied_template` marker, facts, metrics, guest pages and firewall rules.
- What `runCmd` does for each action, and everything outside `cmd/netductor-agent`: the primary, the operator tools,
  the Telegram bot.

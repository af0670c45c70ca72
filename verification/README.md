# GigaLoom: verified models

Dafny models of the parts of GigaLoom in which a small slip does real damage, and proofs of what they keep.
`dafny verify dfyconfig.toml` checks everything.

Values are datatypes and pure rules are functions. What the source changes step by step - installer state,
ownership chains, the release transaction, both caches, the native CLI behind the plugin driver, line and
dictionary edits - is modelled by classes and loops whose contracts tie them to specification functions, and the
laws are proved about those. Failure is part of the models: exceptions are results, and the installer, the
release transaction and the native CLI take a list that says, for each durable step, whether it works, fails
with or without its effect, or is cut off by a crash or an interrupt. The theorems hold for every such list.

| module | about |
|---|---|
| `CmdShim` | the Windows command line for batch shims, through two caret passes and one argument split |
| `OwnedBlock`, `OwnedBlockReader`, `OwnedBlockLaws` | the one owned region of a shared Codex configuration, rendered, found, read back, removed |
| `Installer` | the journaled file installer: install, update, rollback, recovery, with a fault at any durable write |
| `UninstallChain` | the lifecycle of a target and the bounded unwinding of its ownership chain |
| `ReleaseTransaction`, `ReleaseVersion` | the multi-file release replacement; the SemVer to PEP 440 mapping |
| `SecretCache`, `ProbeCache` | the owner-scoped secret cache and the two probe caches, over all runs |
| `PluginDriver`, `PluginTree` | the Codex plugin protocol against a CLI that may misbehave; the plugin tree checksum |
| `Permissions` | the permission requirement fold and the simulation built on it |
| `ExecutableConfig`, `ExecutableConfigLaws`, `Lines` | the line editor for configured executables, on exact text |
| `ImportRatchet` | the import-boundary check with its allowlist |
| `AssetTree`, `AssetParity` | two independent checkers of one asset tree, and when one implies the other |
| `JsonTarget` | the JSON configurations of the Claude and Gemini targets, and what their hashes bind |
| `ContextBudget` | the context budget against the request that is sent |
| `NativeRoute` | which native invocations may leave the native path |
| `Text`, `QuotedText`, `FileLists`, `Wrappers` | Python text primitives, readers of quoted strings, sorted file lists, options and results |

SHA-256 and canonical JSON are taken to be injective: an identity that hashes some content is modelled by that
content. Regular expressions are modelled by what they match.

## Where the code does not keep a promise

Each of these is proved, with the exact condition under which the promise holds.

- A Codex block does not read back if and only if the foreign text bears a BEGIN line of the package; stripping an
  indented marker makes one (`OwnedBlockLaws.RenderedReadsBack`, `IndentedMarkerBreaksReadBack`).
- A tab or an equals sign in a shim's program or argument is left in force, as a delimiter, through the caret passes
  (`CmdShim.SpecialIsEscaped`, `OnlyDelimitersInForce`).
- A DEL in a string of a Codex server is written as it is, which TOML forbids (`OwnedBlockLaws.ServerReadsBack`); a
  character above U+FFFF in an executable's path is written as two escapes, which TOML does not know
  (`ExecutableConfigLaws.StringReadsBack`, `SetConfigures`).
- A secret reference that is refused as expired keeps its cache entry (`SecretCache.FailureLeavesNoEntryUnlessUpFront`).
- An interrupt between a replacement and its bookkeeping hides it from the rollback, which then ends with that file
  new; for the version file that is the new version beside old files (`ReleaseTransaction.ReleaseTree.ApplyProjections`,
  `ReleaseTransaction.HiddenFacts`, `ReleaseTransaction.InterruptedVersion`).
- A preparation stopped between directory and journal makes every later recovery refuse and its plan unusable
  (`Installer.TransactionalInstaller.PrepareTransaction`, `OrphanedRun`); an identical plan is refused after its
  rollback (`RepeatedResult`, `UninstallChain.TargetDriver.UninstallThenRepeat`).
- Recovery of a transaction that a later installation has overtaken overwrites the newer owner's files before it
  fails, or takes the ownership record from it (`Installer.TransactionalInstaller.SupersededRun`, `OvertakenRun`).
- A failed plugin installation leaves a plugin of another version or source behind, and everything if the
  marketplace was there before (`PluginDriver.WorkingInstallOutcome`).
- Setting an executable joins an unended last line (`ExecutableConfigLaws.SetReadsBack`, `LaterSetWins`, `UnsetRestores`,
  `OthersKept`).
- With a history limit of one the budget counts the whole history and the run sends none (`ContextBudget.BudgetPredictsRequest`).
- The stream behind the aggregate asset digest identifies no list of two files or more among all lists, and every
  list among those without NUL or of the same lengths; the per-file records are what identifies a tree
  (`AssetParity.IdentifiedExactly`, `NulFreeStreamsIdentify`, `SameLengthStreamsIdentify`).
- A clean allowlist of temporary import violations need not be minimal (`ImportRatchet.RemovalExactly`,
  `RedundantEntryStays`).

## Model

| member | source | states |
|---|---|---|
| CmdShim.CaretUndone | src/gigaloom/native_cli_process.py:357-366 | Undoing carets once after escaping once gives any text back, whatever follows it, and of what cmd.exe acts on only the tabs and equals signs of the text are in force during that pass. |
| CmdShim.SpecialIsEscaped | src/gigaloom/native_cli_process.py:100-100 | A caret is put before every character that cmd.exe acts on except tab and equals sign, and before no other. |
| CmdShim.ReadsBodyBack | src/gigaloom/native_cli_process.py:357-362 | The C runtime's argument reader, inside quotes, reads the body made by the two backslash substitutions back to the original argument, for every argument, and stops at the closing quote. |
| CmdShim.SplitReadsQuoted | src/gigaloom/native_cli_process.py:349-362 | Quoted arguments joined by blanks split into exactly the original list. |
| CmdShim.ArgumentPasses | src/gigaloom/native_cli_process.py:343-366 | Each of two caret passes strips one layer from the encoded arguments; in either pass exactly the joining blanks and the arguments' own tabs and equals signs are in force. |
| CmdShim.OnlyDelimitersInForce | src/gigaloom/native_cli_process.py:343-366 | No operator, nothing to expand and no pattern is ever in force, and nothing but the joining blanks if and only if no argument holds a tab or an equals sign. |
| CmdShim.CommandRoundTrip | src/gigaloom/native_cli_process.py:320-366 | For a program and arguments free of NUL, CR and LF the command exists; two passes and the split give the caller's list back exactly, with nothing in force but the joining blanks and the tabs and equals signs of program and arguments. |
| CmdShim.RefusedExactly | src/gigaloom/native_cli_process.py:470-474 | A command is refused if and only if the program or some argument holds NUL, CR or LF. |
| CmdShim.CommandsDistinguishArguments | src/gigaloom/native_cli_process.py:343-366 | Different argument lists never share a command text. |
| OwnedBlockLaws.AppendedBlock | src/gigaloom/codex_mcp_target.py:868-936 | A rendered block appended at a line start is found there by the block pattern and extends to the end of the text, for every valid request. |
| OwnedBlockLaws.EndMarkFollowsBody | src/gigaloom/codex_mcp_target.py:868-916 | No line of a rendered body can be mistaken for the END marker: the first one behind the BEGIN line is the block's own. |
| OwnedBlockLaws.ReadsBack | src/gigaloom/codex_mcp_target.py:848-927 | Over foreign text without a stray BEGIN line the assembled file holds exactly the rendered block, and removing the block gives the foreign text back. |
| OwnedBlockLaws.StrayBlocksReadBack | src/gigaloom/codex_mcp_target.py:848-927 | With a stray BEGIN line in the foreign text the rendered block never reads back. |
| OwnedBlockLaws.RenderedReadsBack | src/gigaloom/codex_mcp_target.py:848-865 | After any successful edit the block reads back if and only if the foreign text bears no BEGIN line of the package; the source's strip-and-join gives foreign text, blank line, block. |
| OwnedBlockLaws.LastWriteWins | src/gigaloom/codex_mcp_target.py:848-865 | Rendering a second request over the first gives what the second alone would have given. |
| OwnedBlockLaws.DisableThenEnable | src/gigaloom/codex_mcp_target.py:513-540 | Disabling an installed server writes a block that reads as the same server switched off; enabling it again restores the configuration text exactly. |
| OwnedBlockLaws.FirstInstallIsClean | src/gigaloom/codex_mcp_target.py:848-865 | A first installation into a file without outer padding never meets a stray marker, because the check for other owners has refused it. |
| OwnedBlockLaws.EditRefusedExactly | src/gigaloom/codex_mcp_target.py:842-865 | An edit goes through if and only if both texts parse, at most one block is the package's own, nobody else has the server's name, and a first block meets no other package's; otherwise the first of these that fails is said. |
| OwnedBlockLaws.MetadataRefusedExactly | src/gigaloom/codex_mcp_target.py:946-996 | The metadata of a block are read if and only if it says exactly four things, the parser sees in it exactly the server that they name, and it names the package. |
| OwnedBlockLaws.ForeignLinesKept | src/gigaloom/codex_mcp_target.py:848-865 | Every non-blank foreign line survives an edit once and in order, and the block's lines come last. |
| OwnedBlockLaws.MetadataReadsBack | src/gigaloom/codex_mcp_target.py:946-974 | The metadata of a rendered block reads back the request's version, manifest hash, server name and specification hash, and the enablement that a line reader finds in the block. |
| OwnedBlockLaws.BlockIsMarked | src/gigaloom/codex_mcp_target.py:868-916 | A rendered block starts with the literal BEGIN line of the package and ends with its literal END mark. |
| OwnedBlockLaws.ServerReadsBack | src/gigaloom/codex_mcp_target.py:868-916 | An independent line reader finds in a rendered block every field of the server - name, transport, both switches, timeouts, approval mode, tools - if and only if no string of it holds a DEL. |
| OwnedBlockLaws.MetadataLinesParse | src/gigaloom/codex_mcp_target.py:946-962 | The four metadata comment lines parse back to the four values written. |
| OwnedBlockLaws.ParsedExactly | src/gigaloom/codex_mcp_target.py:948-954 | The metadata lines are read if and only if each starts with a hash and a blank and holds an equals sign; the last line about a key counts. |
| OwnedBlockLaws.BlockEndExactly | src/gigaloom/codex_mcp_target.py:931-937 | A block ends behind the first END mark of its package that starts a line, and takes one newline with it. |
| OwnedBlockLaws.OwnerExactly | src/gigaloom/codex_mcp_target.py:939-943 | A package owns a BEGIN mark that starts a line, if and only if a name without white space fills the rest of the line. |
| OwnedBlockLaws.OwnerNamedExactly | src/gigaloom/codex_mcp_target.py:939-943 | A text names a package as an owner if and only if a BEGIN mark with exactly its name fills a line and the name has no white space. |
| OwnedBlockLaws.IndentedMarkerBreaksReadBack | src/gigaloom/codex_mcp_target.py:848-865 | Concrete failure: a file holding only an indented BEGIN marker passes every check, and the block written into it does not read back. |
| Installer.TransactionalInstaller.SetStatus | src/gigaloom/integrations/packages/installer_storage.py:298-311 | A journal write leaves the journal as it was or with the new status, wherever a fault strikes. |
| Installer.TransactionalInstaller.PrepareTransaction | src/gigaloom/integrations/packages/installer_planning.py:251-318 | A journal appears only with its directory; the directory is left without a journal if and only if the faults stop the preparation in between; it completes if and only if its first writes go well. |
| Installer.TransactionalInstaller.ApplyStaged | src/gigaloom/integrations/packages/installer_storage.py:53-68 | Interrupted anywhere, every planned file is as it was or in its desired state and no other file has moved; completed, all are desired; it completes if and only if its writes go well. |
| Installer.TransactionalInstaller.RestoreFiles | src/gigaloom/integrations/packages/installer_storage.py:70-107 | Restoring moves planned files to their prior state and nothing else, whatever is there now; completed, all are in it. |
| Installer.TransactionalInstaller.RestoreOwner | src/gigaloom/integrations/packages/installer_storage.py:109-127 | Completed, the owner is the previous one; the record of any other transaction is never touched. |
| Installer.TransactionalInstaller.RollbackFromJournal | src/gigaloom/integrations/packages/installer_storage.py:70-107 | Completed, files and owner are exactly those before the transaction; interrupted, it can be run again; for a superseded transaction it overwrites the files all the same and only then fails on the ownership record. |
| Installer.TransactionalInstaller.ApplyAndPublish | src/gigaloom/integrations/packages/installer_actions.py:288-316 | Files, check, ownership record and journal are advanced in that order, so that a committed journal always stands beside the desired files and the new owner. |
| Installer.TransactionalInstaller.RecordAndRollback | src/gigaloom/integrations/packages/installer_actions.py:288-316 | After a failure the transaction is undone or still tracked for recovery; a superseded one is never undone. |
| Installer.TransactionalInstaller.Commit | src/gigaloom/integrations/packages/installer_actions.py:288-316 | Whatever fault strikes where, either no journal was written and nothing changed, or the transaction is pending, undone or complete against the exact files it started from. Without faults it completes or, rejected, is undone; after one raised write it is done, undone, or prepared only; a directory without a journal is left exactly for the faults that stop the preparation. |
| Installer.TransactionalInstaller.RepeatedResult | src/gigaloom/integrations/packages/installer_actions.py:272-286 | A plan with a journal is answered with success if and only if it is committed, its own record is there and its files are undrifted; a rolled-back plan is refused for good. |
| Installer.TransactionalInstaller.MatchesExactly | src/gigaloom/integrations/packages/installer_storage.py:221-235 | A record matches a plan if and only if package, release and manifest are the same and both have the same contents at the same paths. |
| Installer.TransactionalInstaller.Apply | src/gigaloom/integrations/packages/installer_actions.py:53-102 | An installation runs only for the approved plan against an unowned target in the previewed state; otherwise nothing changes, success is answered exactly for a plan that is committed or that the current record matches, with its files undrifted, and each refusal is named. |
| Installer.TransactionalInstaller.Update | src/gigaloom/integrations/packages/installer_actions.py:104-162 | An update runs only over the exact current owner, undrifted files and the same file set; otherwise nothing changes, and each refusal is named. |
| Installer.TransactionalInstaller.Rollback | src/gigaloom/integrations/packages/installer_actions.py:183-206 | Only the current owner's committed transaction is rolled back, over undrifted files; success restores every file and the previous owner; a repeated rollback succeeds without change, and each refusal is named. |
| Installer.TransactionalInstaller.RecoverOne | src/gigaloom/integrations/packages/installer_actions.py:208-261 | For any unfinished transaction: refused, with nothing changed, if and only if its rollback had not begun and somebody has edited or removed a planned file; success means that it is entirely done or undone, only its own files have moved, and it is driven forward only if its verifier accepts. A superseded one fails or takes the ownership record. |
| Installer.TransactionalInstaller.Recover | src/gigaloom/integrations/packages/installer_actions.py:208-261 | For any number of unfinished transactions: it refuses as a whole when a directory has no journal; however far it comes, final journals and unplanned files stay; success leaves none unfinished, and those that share no file each entirely done or undone. A single one is refused with nothing changed when its files were edited, and if tracked recovered without fail when no fault strikes. |
| Installer.TransactionalInstaller.InterruptedRun | src/gigaloom/integrations/packages/installer_actions.py:208-316 | Crash safety over whole runs: after one transaction interrupted anywhere, any number of interrupted recoveries and one undisturbed recovery, the transaction is entirely undone or entirely done, unless an older directory without a journal has stopped recovery. |
| Installer.TransactionalInstaller.OrphanedRun | src/gigaloom/integrations/packages/installer_planning.py:251-318 | Every preparation that is stopped before its journal changes nothing, but from then on recovery and the same plan are refused for good. |
| Installer.TransactionalInstaller.SupersededRun | src/gigaloom/integrations/packages/installer_actions.py:208-261 | Every run in which a rollback dies half way and another package is installed over it: recovery puts the older files back under the newer owner, fails and stays unfinished; the newer owner keeps its files if and only if the two plans never disagree on a shared file. |
| Installer.TransactionalInstaller.OvertakenRun | src/gigaloom/integrations/packages/installer_actions.py:208-261 | Every run in which an installation dies prepared and another package is installed over other files: recovery with a verifier drives the older one forward, which takes the ownership record, and the newer can no longer be rolled back. |
| Installer.TransactionalInstaller.EditedRun | src/gigaloom/integrations/packages/installer_storage.py:129-149 | Every run in which an installation dies prepared and somebody then changes or removes one of its files: recovery refuses, with a verifier or without, and the edit survives. |
| Installer.TransactionalInstaller.PendingIsRecoverable | src/gigaloom/integrations/packages/installer_storage.py:129-149 | Every state that a faulty run can leave passes the check that recovery makes before it starts. |
| Installer.TransactionalInstaller.RecoverableExactly | src/gigaloom/integrations/packages/installer_storage.py:129-149 | The check passes if and only if no planned file has gone, or bears a content or a mode that is neither the prior nor the desired one. |
| Installer.RestoredIsBase | src/gigaloom/integrations/packages/installer_storage.py:70-107 | Files that agree with the prior state on the planned paths and elsewhere are the prior files. |
| Installer.BaseOfIsBefore | src/gigaloom/integrations/packages/installer_storage.py:70-107 | Putting every planned file back gives the prior states and moves nothing else. |
| UninstallChain.TargetDriver.Uninstall | src/gigaloom/codex_mcp_target.py:573-607 | Refused with nothing changed for another plan, for a user home without its approval, and unless the plan names the current owner; only transactions of the planned package are rolled back, at most a hundred; success leaves no owner, every file at its origin and every transaction of the chain marked undone; undisturbed, result and number of rollbacks are those the chain determines. |
| UninstallChain.TargetDriver.Unwind | src/gigaloom/claude_mcp_target.py:518-548 | The bounded loop: a chain of one package within the limit unwinds in exactly its length; a foreign record or a longer chain is failure after exactly the owned prefix or the limit. |
| UninstallChain.TargetDriver.RollBackHead | src/gigaloom/gemini_mcp_target.py:581-615 | One rollback moves exactly the head's journal and leaves the record that the head replaced as the owner of a target still in its lifecycle. |
| UninstallChain.TargetDriver.Verify | src/gigaloom/integrations/packages/installer_actions.py:173-181 | Verification succeeds if and only if the transaction is committed and its record is the current owner. |
| UninstallChain.TargetDriver.WholeLife | src/gigaloom/codex_mcp_target.py:468-607 | After any sequence of installs and updates, each interrupted anywhere and recovered in any number of interrupted rounds, a successful uninstall, itself over faulty writes, leaves every file exactly as it was before the first of them; only a directory without a journal can keep the uninstall from being tried. |
| UninstallChain.TargetDriver.Take | src/gigaloom/integrations/packages/installer_actions.py:53-162 | One install or update with faults anywhere and its recovery leaves the target in its lifecycle, with the same origin, unless a directory without a journal is left. |
| UninstallChain.TargetDriver.UninstallThenRepeat | src/gigaloom/integrations/packages/installer_actions.py:272-286 | After a successful uninstall every plan of the unwound chain is refused as no longer applicable. |
| UninstallChain.EndKeepsLifecycle | src/gigaloom/integrations/packages/installer_actions.py:288-316 | Every commit that has come to its end, by itself or through recovery, keeps the chain linked and its origin the same. |
| UninstallChain.UndoHead | src/gigaloom/integrations/packages/installer_storage.py:70-107 | Undoing the head of a linked chain gives the files that the previous record left, and the same origin. |
| ReleaseTransaction.ReleaseTree.ReadChanged | scripts/release.py:429-443 | Reading reports a missing projection, or exactly the differing ones, and changes nothing. |
| ReleaseTransaction.ReleaseTree.Stage | scripts/release.py:446-474 | Staging records the original of every changed file and a temporary for each, and touches no file; it completes if and only if its steps go well, and leaks a temporary if and only if an interrupt falls between its creation and its record. |
| ReleaseTransaction.ReleaseTree.ReplaceAll | scripts/release.py:475-482 | The replacements that took effect are a prefix of the version-last order; one of them is unnoted if and only if an interrupt falls between a replacement and its bookkeeping. |
| ReleaseTransaction.ReleaseTree.Rollback | scripts/release.py:484-493 | Restoring in reverse leaves exactly the original files but for a replacement that an interrupt hid. |
| ReleaseTransaction.ReleaseTree.ReplaceAndCheck | scripts/release.py:475-493 | Success means that the drift check found every projection equal to its expected bytes; a hidden replacement is tied to its interrupt, both ways. |
| ReleaseTransaction.ReleaseTree.ApplyProjections | scripts/release.py:461-493 | The whole transaction: success leaves all files as expected, names what changed and leaves no temporary. A rolled-back failure leaves original bytes and modes if and only if no interrupt fell between a replacement and its bookkeeping, and no temporary if and only if none fell between a creation and its record; without an interrupt both hold. Every state passed through is version-safe unless the version file's own replacement was hidden, and one fault never makes the rollback fail. |
| ReleaseTransaction.NothingChangedIffMatches | scripts/release.py:429-443 | Nothing is reported as changed if and only if every projection already matches, so a second apply does nothing. |
| ReleaseTransaction.VersionComesLast | scripts/release.py:469-480 | The order puts the version file last, keeps the others in order, and loses or repeats nothing. |
| ReleaseTransaction.AllWrittenMatches | scripts/release.py:475-482 | All planned replacements together make every projection match. |
| ReleaseTransaction.RestoreLast | scripts/release.py:484-493 | Putting the last replaced file back undoes exactly that replacement. |
| ReleaseTransaction.VersionIsLastInEveryState | scripts/release.py:461-493 | In every state of a run, rollback included, the version file bears the new version only while every other changed file bears its new content, unless an interrupt hid the version file's own replacement. |
| ReleaseTransaction.HiddenVersionReplacementIsUnsafe | scripts/release.py:475-493 | A replaced version file that the rollback does not take back stands beside old files whenever another file was to change. |
| ReleaseTransaction.NoInterruptHidesNothing | scripts/release.py:446-493 | Faults without an interrupt hide no replacement and no temporary. |
| ReleaseTransaction.HiddenFacts | scripts/release.py:475-493 | A hidden replacement never leaves the old files; it is the version file's exactly if the interrupt fell there, and then the rest is safe if and only if no other file was to change. |
| ReleaseTransaction.LateInterruptHides | scripts/release.py:475-482 | Any replacement of any run can be hidden by one interrupt. |
| ReleaseTransaction.InterruptedVersion | scripts/release.py:461-493 | Concrete failure: a run on two files ends rolled back with the new version beside the old other file. |
| ReleaseVersion.MatchReadsBack | scripts/release.py:27-32 | The version pattern accepts every well-formed version and reads its groups back, whatever the table of digits. |
| ReleaseVersion.MatchIsVersion | scripts/release.py:27-32 | And it accepts nothing else. |
| ReleaseVersion.MappingsAgree | scripts/check_docs.py:252-254 | The replace chain and the pattern-based mapping give the same Python version for every supported version. |
| ReleaseVersion.PrecedenceKept | scripts/release.py:85-96 | For any two supported versions, precedence by section 11 of Semantic Versioning 2.0.0 equals the PEP 440 order of their Python spellings, numbers being read by the same digit table. |
| ReleaseVersion.PrecedenceIsNumeric | scripts/release.py:85-96 | A version precedes another if and only if its numbers do, from major to patch; then a pre-release before its release, by stage and number. |
| ReleaseVersion.PythonVersionIdentifies | scripts/release.py:85-96 | The version can be read back from its Python spelling, so distinct versions have distinct spellings. |
| SecretCache.SecretResolutionService.Resolve | src/gigaloom/secrets.py:487-529 | A resolution does what the specification step says, cache and outcome. |
| SecretCache.SecretResolutionService.Invalidate | src/gigaloom/secrets.py:531-549 | Invalidation does what the specification step says. |
| SecretCache.SecretResolutionService.Rotate | src/gigaloom/secrets.py:551-558 | Rotation does what invalidating that reference, for the given owner or for all, does. |
| SecretCache.EntriesHaveOrigins | src/gigaloom/secrets.py:487-529 | Every entry of every reachable cache was read from the backend for that very reference and owner, with no matching invalidation or later read since, and expires when that read's time to live says. |
| SecretCache.HandedOutSecretsAreFresh | src/gigaloom/secrets.py:487-558 | In every run a secret handed out was read for that very pair no longer ago than its time to live, at most 300 seconds, with no matching invalidation or rotation in between, and never for an expired reference. |
| SecretCache.InvalidationIsExact | src/gigaloom/secrets.py:531-549 | Invalidation by nothing, by reference, by owner or by both removes exactly the entries named and changes no other; with an unusable owner it is rejected. |
| SecretCache.RemovedIsCounted | src/gigaloom/secrets.py:531-549 | The count returned is the number of entries that are gone. |
| SecretCache.RotatedIsReadAgain | src/gigaloom/secrets.py:551-558 | In every run a secret handed out after a rotation of its reference was read from the backend after it. |
| SecretCache.ResolutionExactly | src/gigaloom/secrets.py:487-529 | When a resolution is rejected, served from the cache or fetched, and what it leaves in the cache, in terms of request and entry. |
| SecretCache.FailureLeavesNoEntryUnlessUpFront | src/gigaloom/secrets.py:487-529 | After a failed resolution the pair has no entry if and only if it had none or the failure came after the checks that precede the cache. |
| SecretCache.ExpiredEntryOutlivesItsFailure | src/gigaloom/secrets.py:487-511 | Concrete failure: a resolution refused as expired keeps its entry, which is served again if the wall clock is set back. |
| ProbeCache.ProbeCaches.Probe | src/gigaloom/cli_capabilities.py:145-272 | A probe does what the specification step says, caches and answer, the answers without a process included. |
| ProbeCache.UncachedExactly | src/gigaloom/cli_capabilities.py:145-187 | What a probe says without caches: misconfigured and missing executables and failed version runs are told as such. |
| ProbeCache.ProbeCaches.EnterScope | src/gigaloom/cli_capabilities.py:132-142 | Opening a scope starts an empty scoped cache only if none is open. |
| ProbeCache.ProbeCaches.InvalidateAll | src/gigaloom/cli_capabilities.py:275-281 | Invalidation empties both caches and keeps the scope open. |
| ProbeCache.ByVersionIsTrue | src/gigaloom/cli_capabilities.py:145-272 | In every run the process-wide cache agrees with what the CLI prints at that version. |
| ProbeCache.ScopedEntryHasOrigin | src/gigaloom/cli_capabilities.py:145-272 | Every scoped entry was put there by a probe of the same stretch that asked the CLI. |
| ProbeCache.ProbesAreTruthful | src/gigaloom/cli_capabilities.py:132-281 | Every probe of every run answers what an uncached probe would have: now if unscoped or answered without a process, else at the first probe of its stretch of scope. |
| ProbeCache.OneRoundPerStretch | src/gigaloom/cli_capabilities.py:132-281 | Within a scope and between invalidations a target is asked at most once; later probes run no process. |
| ProbeCache.HelpRunsOncePerVersion | src/gigaloom/cli_capabilities.py:145-272 | A repeated version line never runs the help probes again until an invalidation. |
| FileLists.SortedIsUnique | src/gigaloom/codex_plugin_target.py:1094-1102 | Sorting by path does not depend on the order in which the files are found. |
| PluginTree.SerialisedReadsBack | src/gigaloom/codex_plugin_target.py:1090-1114 | A decoder undoes the length-prefixed stream, for every list of files within the field widths. |
| PluginTree.NoViolationExactly | src/gigaloom/codex_plugin_target.py:1094-1114 | The bounds in plain numbers: 16 MiB a file, 64 MiB in all, paths below four gigabytes. |
| PluginTree.TreeChecksum | src/gigaloom/codex_plugin_target.py:1090-1114 | The checksum loop gives the stream of the sorted files, or the first violation of a bound in path order. |
| PluginTree.ChecksumIdentifiesTree | src/gigaloom/codex_plugin_target.py:1090-1114 | Two trees within the bounds hash the same stream if and only if they hold the same files. |
| PluginDriver.ApprovalNamesWhatHappens | src/gigaloom/codex_plugin_target.py:679-714 | An approval that lets a mutation through names the action, package, reviewed source, home and the version installed now, consents to it and to the network where that is needed, and the policy allows it; a Git update is never mutated here. |
| PluginDriver.MutationAdmittedExactly | src/gigaloom/codex_plugin_target.py:608-774 | A mutation is admitted if and only if plan and approval say word for word what is to happen now, the home is open, the source admitted, the package not blocked, the policy and the user consent, and the target is idle. |
| PluginDriver.RefusalsExactly | src/gigaloom/codex_plugin_target.py:679-748 | Why a source, a plan or an approval is refused, each by its first failing part. |
| PluginDriver.MatchingExactly | src/gigaloom/codex_plugin_target.py:1155-1190 | Healthy, removable and registered mean equal version, kind and location, and for Git a ref that is the requested one or unsaid. |
| PluginDriver.CodexPluginTargetDriver.Preview | src/gigaloom/codex_plugin_target.py:608-677 | A plan is made from one fresh listing and is exactly the plan that the native state calls for; only a listing is issued. |
| PluginDriver.CodexPluginTargetDriver.Authorize | src/gigaloom/codex_plugin_target.py:679-714 | Nothing is refused or admitted but by the fresh plan, the approval, policy, consent, network and home checks; admitted if and only if all hold, when the CLI works. |
| PluginDriver.CodexPluginTargetDriver.EnsureMarketplace | src/gigaloom/codex_plugin_target.py:776-805 | True if and only if this call registered the name; the registration means the requested source; existing marketplaces are untouched whatever the CLI does. |
| PluginDriver.CodexPluginTargetDriver.AddAndVerify | src/gigaloom/codex_plugin_target.py:440-450 | Success is exact native discovery; only the requested selector can have changed. |
| PluginDriver.CodexPluginTargetDriver.Cleanup | src/gigaloom/codex_plugin_target.py:863-892 | At most the requested plugin goes, only in the requested version from the requested source; at most the requested marketplace goes, only when no installed plugin refers to it. |
| PluginDriver.CodexPluginTargetDriver.InstallPlugin | src/gigaloom/codex_plugin_target.py:425-455 | Against a CLI that may misbehave in any way: no mutating command unless the approved plan is the present plan and the user consents; success means exact discovery of version, kind and location; other plugins, homes and the marketplaces that existed are untouched. |
| PluginDriver.CodexPluginTargetDriver.UpdatePlugin | src/gigaloom/codex_plugin_target.py:505-555 | The same for an update; a Git source is handed to the provider without any mutating command. |
| PluginDriver.CodexPluginTargetDriver.UninstallPlugin | src/gigaloom/codex_plugin_target.py:561-593 | The only mutating command removes the selector, and never without consent; success means absence; marketplaces and other plugins are untouched. |
| PluginDriver.WorkingInstallOutcome | src/gigaloom/codex_plugin_target.py:425-455 | When every command works, exactly when an installation succeeds, and exactly when a failed one leaves no trace. |
| PluginDriver.WrongVersionStays | src/gigaloom/codex_plugin_target.py:863-892 | Concrete failure: a marketplace that offers another version leaves the plugin and the marketplace behind. |
| Permissions.Requirements | src/gigaloom/permission_simulator.py:398-521 | The dictionary built by successive additions is the fold of the route's additions. |
| Permissions.AddedExactly | src/gigaloom/permission_simulator.py:437-521 | Everything that is added for a route, with reason and source, and when. |
| Permissions.FoldIsMerge | src/gigaloom/permission_simulator.py:406-435 | The fold is a merge: per action, domain, reason and occurrence of the first strongest addition, and the sources from there on. |
| Permissions.RequiredExactly | src/gigaloom/permission_simulator.py:406-435 | An action is in the table if and only if something added it, and required before the start if and only if some addition says so. |
| Permissions.UpgradeDropsEarlierSources | src/gigaloom/permission_simulator.py:406-435 | For every list of additions the sources of an action are those of all its additions, unless one requires it: then exactly those from the first requiring one on. |
| Permissions.DomainsAgree | src/gigaloom/permission_simulator.py:653-676 | Every requirement has the domain of its action, whichever addition it came from. |
| Permissions.DecisionsExactly | src/gigaloom/runtime/policy.py:250-300 | What the built-in profiles allow and deny. |
| Permissions.UnpredictableExactly | src/gigaloom/permission_simulator.py:282-395 | Which reason codes that belong to no action are reported. |
| Permissions.RefusedExactly | src/gigaloom/permission_simulator.py:282-395 | A simulation is refused if and only if two selected extensions share an identity. |
| Permissions.TableExactly | src/gigaloom/permission_simulator.py:437-521 | Which actions a route needs, and which of them before the start, said directly for every route. |
| Permissions.BlockedExactly | src/gigaloom/permission_simulator.py:357-379 | Blocked actions and approval points are exactly the needed actions that the profile denies, or asks for. |
| Permissions.EnforcedExactly | src/gigaloom/permission_simulator.py:626-650 | Which predictions the harness enforces itself, and which it leaves to the provider's sandbox, for every route and action. |
| Permissions.OrderIsImmaterial | src/gigaloom/permission_simulator.py:282-395 | The simulation does not depend on the order of extensions or required actions, nor on repeated required actions. |
| Permissions.MoreNeverUnblocks | src/gigaloom/permission_simulator.py:282-395 | Adding extensions or required actions never shrinks blocked actions or approval points. |
| Permissions.OnlyExplicitRequirementsBlock | src/gigaloom/runtime/policy.py:250-300 | With the built-in profiles a run is blocked if and only if an explicitly required action is denied; never under review-every-action, and interactively only by the unattended-edit schedule. |
| Permissions.DeniedExtensionDoesNotBlock | src/gigaloom/permission_simulator.py:490-512 | An unattended run with an extension starts although its server and tool calls are denied. |
| Lines.SplitOfJoin | src/gigaloom/executables.py:331-348 | Joining proper lines and splitting again gives the same lines. |
| ExecutableConfig.TableBounds | src/gigaloom/executables.py:363-377 | The scan finds the first table of that name and the next header after it. |
| ExecutableConfig.UpdateExecutableText | src/gigaloom/executables.py:330-347 | The index loop replaces the first assignment in the table, inserts at its end, or appends a padded table. |
| ExecutableConfig.RemoveExecutableText | src/gigaloom/executables.py:350-360 | The index loop deletes the first assignment in the table, or reports that there is none. |
| ExecutableConfigLaws.AssignmentIs | src/gigaloom/executables.py:333-333 | A new assignment is one line of its own, no header, and assigns exactly its value to its id, for every id and path. |
| ExecutableConfigLaws.AssignedExactly | src/gigaloom/executables.py:380-384 | A line assigns to a harness id if and only if the id, bare or in either quotes, stands in it between white space and an equals sign; the value is all that follows. |
| ExecutableConfigLaws.HeadersExactly | src/gigaloom/executables.py:363-377 | A line is a header, and the header of the table, if and only if it has the stated shape, character by character. |
| ExecutableConfigLaws.HarnessIdExactly | src/gigaloom/executables.py:310-314 | A harness id is any non-empty text of the listed letters, digits, underscores and hyphens. |
| ExecutableConfigLaws.StringReadsBack | src/gigaloom/executables.py:333-333 | A JSON reader undoes the written string for every path; a TOML reader does if and only if no character of the path is above U+FFFF. |
| ExecutableConfigLaws.OneIdPerLine | src/gigaloom/executables.py:380-384 | No line assigns to two harness ids. |
| ExecutableConfigLaws.SetSplits | src/gigaloom/executables.py:341-347 | In an existing table a set changes or inserts exactly one line of the text. |
| ExecutableConfigLaws.NewTableSplits | src/gigaloom/executables.py:334-340 | Without a table the old text stays as a prefix and a table with the one assignment follows. |
| ExecutableConfigLaws.SetReadsBack | src/gigaloom/executables.py:330-347 | For every text a set reads back if and only if the new line does not join an unended, non-blank last line. |
| ExecutableConfigLaws.SetConfigures | src/gigaloom/executables.py:330-347 | After a set that reads back, a TOML reader finds exactly the given path configured, if and only if it has no character above U+FFFF. |
| ExecutableConfigLaws.LaterSetWins | src/gigaloom/executables.py:330-347 | A later set gives what it alone would have given, and so setting is idempotent, if and only if the first did not join an unended line. |
| ExecutableConfigLaws.UnsetRestores | src/gigaloom/executables.py:350-360 | Unsetting a newly set id restores the text exactly, if and only if the set did not join an unended line. |
| ExecutableConfigLaws.UnsetForgets | src/gigaloom/executables.py:350-360 | Unsetting an id that a set replaced is unsetting it without the set. |
| ExecutableConfigLaws.OthersKept | src/gigaloom/executables.py:330-347 | For every text a set leaves what another id is set to, if and only if the new line does not join an unended last line that sets that id. |
| ExecutableConfigLaws.UnendedHeaderLosesTheSet | src/gigaloom/executables.py:330-347 | Concrete failure: in a file that is only a table header without a newline whatever is set is lost. |
| ImportRatchet.CheckImportBoundaries | scripts/check_architecture.py:235-295 | The nested loops report exactly the forbidden imports without a cover and the entries that are the first cover of none; they fail if and only if an entry lacks a field or its source is a pattern. |
| ImportRatchet.CheckRecord | scripts/check_architecture.py:252-288 | The rule loop for one import appends its uncovered violations and marks its first cover as used. |
| ImportRatchet.AllowlistMatch | scripts/check_architecture.py:222-232 | The scan returns the first covering entry. |
| ImportRatchet.ForbiddenExactly | scripts/check_architecture.py:207-275 | An import of the package is forbidden if and only if the rule, read on directory, context and module names, does not permit it. |
| ImportRatchet.ForeignIsPermitted | scripts/check_architecture.py:214-219 | What is not of the package is never forbidden. |
| ImportRatchet.CoversExactly | scripts/check_architecture.py:222-232 | An entry covers the imports of its file that are its target or go on behind it with a dot. |
| ImportRatchet.EmptyExactly | scripts/check_architecture.py:235-295 | The report is empty if and only if every forbidden import is covered and every entry is the first cover of some forbidden import. |
| ImportRatchet.ShadowedIsStale | scripts/check_architecture.py:222-295 | An entry behind one that covers all that it covers is always reported. |
| ImportRatchet.RemovalExactly | scripts/check_architecture.py:222-295 | From a clean allowlist an entry can be taken, leaving it clean, if and only if other entries cover every forbidden import that it covers. |
| ImportRatchet.RedundantEntryStays | scripts/check_architecture.py:222-295 | Concrete failure to force a minimal list: an entry for a module before one for its context, with imports of the module and of a sibling, is clean, and clean without the first entry. |
| ContextBudget.BudgetPredictsRequest | src/gigaloom/session_runner.py:1199-1211 | For every limit from zero the budget's history is exactly the history sent, if and only if the limit is not one or there is no history. |
| ContextBudget.NothingUncounted | src/gigaloom/preflight.py:231-247 | Included and omitted messages make up the history if and only if the limit is at least two or there is no history. |
| ContextBudget.HistoryExactly | src/gigaloom/preflight.py:226-230 | History keeps order and repetition and takes exactly the messages in which a user or an assistant said something. |
| ContextBudget.AttachmentsExactly | src/gigaloom/preflight.py:641-651 | Images and negative sizes do not count, and of a file at most its first 64 KiB. |
| ContextBudget.TotalBounded | src/gigaloom/preflight.py:224-275 | The token total is at least a quarter of all counted characters and exceeds it by at most three quarters of a token for each non-empty part. |
| ContextBudget.MoreHistoryCostsMore | src/gigaloom/preflight.py:231-262 | From the limit of two on a larger limit never lowers the estimate. |
| AssetTree.RegularFiles | scripts/asset_contract.py:65-91 | The worklist returns every regular file of the tree once, in path order, if and only if the tree has no symlink or special file and is within both bounds. |
| AssetParity.CheckAssets | scripts/asset_contract.py:204-223 | The record loop accepts if and only if every asset is there with its size and digest, and gathers exactly the expected names and files. |
| AssetParity.VerifyAssetTree | scripts/asset_contract.py:178-411 | On a directory, the checks accept exactly those whose files can all be read and whose contents meet the declarative contract. |
| AssetParity.VerifyContents | scripts/asset_contract.py:178-411 | The sequence of checks accepts exactly the trees of the declarative contract: safe names, records, formats, provenance, supply chain, content manifest and frontend. |
| AssetParity.ContractExactly | scripts/asset_contract.py:178-411 | The contract as what each document must be: the tree determines the manifests but for the entry, the initial graph and the source revision. |
| AssetParity.SafeExactly | scripts/asset_contract.py:56-62 | A name is safe if and only if it is a single dot, or has no backslash and no empty, dot or dot-dot part between slashes. |
| AssetParity.ParityTreeExactly | scripts/verify_web_artifact_parity.py:191-252 | The parity checker's conditions as what each document must be. |
| AssetParity.AcceptedPassesParity | scripts/verify_web_artifact_parity.py:191-252 | A tree that the asset contract accepts beside its frontend passes the parity checker for the same release manifest if and only if no runtime asset has the name of a control file. |
| AssetParity.AcceptedDirectoryPassesParity | scripts/verify_web_artifact_parity.py:191-252 | The same for directories, the bounds and file kinds that the parity checker asks for included. |
| AssetParity.AcceptedTreesExist | scripts/asset_contract.py:178-411 | The contract can be met, even with a hash that never collides. |
| AssetParity.ParityExactly | scripts/verify_web_artifact_parity.py:255-286 | The parity check accepts two trees if and only if they are equal maps and one of them passes. |
| AssetParity.AcceptedTreeHasParity | scripts/verify_web_artifact_parity.py:255-286 | An accepted tree published both ways has parity. |
| AssetParity.ContentManifestIdentifiesFiles | scripts/verify_web_artifact_parity.py:191-252 | Accepted trees with the same content manifest have the same described files, byte for byte. |
| AssetParity.StreamIsNotInjective | scripts/asset_contract.py:94-101 | Concrete failure: the NUL-separated stream of the aggregate digest is the same for two different lists of files. |
| AssetParity.NulFreeStreamsIdentify | scripts/asset_contract.py:94-101 | Among lists whose paths and contents hold no NUL the stream identifies the list. |
| AssetParity.SameLengthStreamsIdentify | scripts/asset_contract.py:94-101 | Among lists that agree position by position on path and content length the stream identifies the list. |
| AssetParity.IdentifiedExactly | scripts/asset_contract.py:94-101 | Among all lists the stream identifies one by itself if and only if it is empty or a single file with at most one NUL: never two files or more. |
| JsonTarget.OnlyTheEntryChanges | src/gigaloom/claude_mcp_target.py:754-770 | A rendering changes the entry of its own key and nothing else in the configuration, and the entry reads back. |
| JsonTarget.RefusedExactly | src/gigaloom/claude_mcp_target.py:754-804 | A rendering is refused exactly for text that stands for no configuration, for one with secrets, or for a name taken by somebody else, in this order. |
| JsonTarget.RenderedExactly | src/gigaloom/claude_mcp_target.py:754-770 | What is printed is the configuration with exactly the entry set or taken away in its server table. |
| JsonTarget.EnabledIsWritten | src/gigaloom/claude_mcp_target.py:754-770 | After a rendering the configuration has the package's server if and only if it is enabled, as its payload. |
| JsonTarget.LastRenderingWins | src/gigaloom/gemini_mcp_target.py:844-860 | The last rendering for a key wins as if the earlier had never been, if and only if the earlier wrote nothing that the secret check refuses. |
| JsonTarget.InstallThenDisable | src/gigaloom/claude_mcp_target.py:754-770 | Installing and disabling gives the configuration back, up to an empty server table. |
| JsonTarget.ClaudeFields | src/gigaloom/claude_mcp_target.py:820-835 | The payload's fields one by one, for both transports. |
| JsonTarget.ReferencesAre | src/gigaloom/claude_mcp_target.py:820-835 | Environment variables are written as references by name, never by value. |
| JsonTarget.GeminiFields | src/gigaloom/gemini_mcp_target.py:910-937 | The Gemini payload's fields one by one; it never declares trust. |
| JsonTarget.ClaudeHashIdentifies | src/gigaloom/claude_mcp_target.py:820-845 | Equal specification hashes mean equal Claude specifications, so that an accepted plan is bound to one. |
| JsonTarget.GeminiHashIdentifies | src/gigaloom/gemini_mcp_target.py:910-969 | Equal specification hashes mean equal Gemini specifications, but for an empty working directory, which is hashed like none. |
| NativeRoute.VersionOnlyChoosesTheLevel | src/gigaloom/native_cli_contracts.py:703-756 | Whether an invocation stays native does not depend on version or transport, which only choose between the managed levels; losing either terminal always keeps it native. |
| NativeRoute.StructuredExactly | src/gigaloom/native_cli_contracts.py:703-756 | The structured level is reached if and only if the invocation is managed, the transport is ready, the integration has one, and the version is of its one reviewed minor line. |
| NativeRoute.WindowIsMinorLine | src/gigaloom/native_cli_contracts.py:131-150 | Each half-open version window holds exactly the releases of one minor line; below, above, absent and unparsed are told exactly. |
| NativeRoute.ReleaseFoundExactly | src/gigaloom/native_cli_contracts.py:1034-1043 | A version text has a release if and only if a dot stands between two digits somewhere in it. |
| NativeRoute.ReleaseReadsBack | src/gigaloom/native_cli_contracts.py:1034-1043 | The version search reads a release of three parts back, whatever stands before it without digits and whatever follows it. |
| NativeRoute.ShortReleaseReads | src/gigaloom/native_cli_contracts.py:1034-1043 | A release of two parts reads as one whose third part is 0. |
| NativeRoute.PatternsOfOneKind | src/gigaloom/native_cli_contracts.py:928-974 | No two intent patterns of an integration match the same invocation. |
| NativeRoute.TableOrderIsImmaterial | src/gigaloom/native_cli_contracts.py:918-925 | Any order of an integration's pattern table gives the same decisions. |
| NativeRoute.CodexManagedExactly | src/gigaloom/native_cli_contracts.py:881-974 | For Codex exactly the empty invocation, a resume and a fork, on a terminal, leave the native path, each with its class. |
| NativeRoute.ClaudeManagedExactly | src/gigaloom/native_cli_contracts.py:881-974 | For Claude exactly these leave it: none, a prompt that is no command word, continue, resume, and the two control options, on a terminal. |
| NativeRoute.GeminiManagedExactly | src/gigaloom/native_cli_contracts.py:881-974 | For Gemini exactly these: none, a prompt that is no command word, a resume, and an interactive prompt not spelled as a native option. |
| NativeRoute.ClaudeManagedClass | src/gigaloom/native_cli_contracts.py:928-974 | The class of each managed Claude invocation. |
| NativeRoute.GeminiManagedClass | src/gigaloom/native_cli_contracts.py:928-974 | The class of each managed Gemini invocation. |
| NativeRoute.FirstWordDecides | src/gigaloom/native_cli_contracts.py:881-915 | Without a native option the first word alone decides, by lists that share no word. |
| NativeRoute.OptionDecides | src/gigaloom/native_cli_contracts.py:881-915 | An option alone, with a value or without, is what its list says. |
| NativeRoute.MetadataWins | src/gigaloom/native_cli_contracts.py:881-889 | A help or version flag anywhere wins. |

## Left out

- The outer `cmd /d /s /c "..."` wrapper, percent-variable expansion, the program-name parsing rule and the choice of the executable in `PATH` order: the codec covers the caret passes and the argument split.
- The TOML parser of the whole file and the specification hash of a Codex server are parameters of `OwnedBlock`; the line reader covers its own block; so are the JSON reader, printer and secret check of `JsonTarget` and the JSON readers of `AssetParity`.
- Approval freshness, scope and root validation, file locks and directory creation of the installer; it is modelled for the files of one owner.
- Changes that other programs make to files or native state in the middle of a run, and threads that race on a cache.
- The removal of a staged temporary file is taken to succeed; a failure of it is not modelled. Projection content (changelog, inventories) is given.
- The version window and the capability contents of a probe: the help probes are a function of target and version line.
- Secret backends, redaction and evidence records: a backend's answer is part of the request event.
- Duplicate names in native listings and unreadable list items count as a failed listing; the inspection of a local plugin source is a parameter.
- The order in which permission outcomes are printed, and the profile lookup by name.
- The validation that follows a text edit of the executables table: it rejects some of the joined lines that the model shows.
- The table of decimal digits, which the version patterns and `int` share, is a parameter; Python's limit on the length of a number is not modelled.
- How the JSON documents of the asset contract are parsed; reading archives and npm packages is not part of this model.
- The NUL check of the native route and its output families.
- The namespace and line-budget checks of the architecture script, and how imports are found in source code.
- Preflight findings other than the budget; session storage and invocation.
- Installer.TransactionalInstaller.InterruptedRun: starts without another unfinished transaction; with one the promise can fail, as `SupersededRun` and `OvertakenRun` show.

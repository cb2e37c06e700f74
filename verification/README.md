# Verification of the WPX broker's hard cores

WPX is a root broker that changes a live host. Its commands fail, its journal writes may report an error
after they took effect, and it may be killed, or the server rebooted, between any two effects; the same job
is then replayed. This project models the operations for which that matters, and the text machinery whose
output other programs have to read back, and proves what they promise over every run and every input.

`dafny verify dfyconfig.toml` checks the whole project.

## How the protocols are modelled

Each journalled operation comes in two modules. The protocol module (`DomainProtocol`, `UploadProtocol`,
`DeletionProtocol`, `PhpProtocol`, and the first half of `FileSwitch`) holds the durable and running state of
the host as a value, a relation `Next` of permitted changes, the invariant `Inv`, and theorems over every
`Run`. The operation module holds a class `Host` whose fields are that state, and methods that follow the
source step by step. The ghost field `trail` collects every state the host goes through, and `Valid()` says
that the trail is a `Run`: a method can only be proved if each single effect it has, wherever it is cut off,
is a permitted change. `Extends` says that a call only adds to the trail, so the theorems speak about any
sequence of calls.

A command ends as `Done`, `Failed` or `Killed` (module `Faults`). Failed and killed commands may have had
their effect, none of it, or part of it. Visitors, the site's own jobs and reboots act between the steps.
A rename or an unlink that reports an error has not happened. What may go wrong during a call is its weather:
`Calm` weather has no failure and no stop, `Mild` weather at most one failure, and no method assumes either. Under
`Calm` the contracts say what an undisturbed call answers, and that a replay converges; under `Mild`, that a single
failure is undone. Operations without a rollback only distinguish `calm`.

The texts are strings whose characters stand for bytes. Loops that update variables are methods proved equal
to a recursive specification, and the laws are proved about the specification.

## What was found on the way

- The hostname rewrite of a domain change is idempotent on every text exactly if the old name does not end in
  `http` and the new one in neither `http` nor `https` (`HostRewrite.SecondPassHarmless`). For other pairs a
  replay can rewrite text that the first pass produced; `UnsafeNewName` and `UnsafeOldName` construct such texts.
- A crontab line gives its argument list back exactly if each percent sign stands behind an even run of
  backslashes (`Cron.RoundTrip`). The validator also accepts `\%`, and cron then cuts the command inside a
  quote (`Cron.RoundTripFails`).
- After a debug update the file is understood again exactly if neither marker occurs a second time and no
  debug definition survives around the block (`DebugBlock.InspectAfterUpdate`).
- A deletion does not converge on every site. A Python site whose provisioning failed before its units were
  written is never deleted (`DeletionProtocol.MissingUnitsNeverStop`). A PHP site is not deleted while a branch
  serves it that was not recorded, for example after a failed rollback of a PHP switch, or while a branch to be
  reloaded is not running or one to be stopped is not installed. `SiteDeletion.Host.DeleteSite` gives the condition.
- If no branch is recorded at all, the deletion does not wait for the socket and can count the runtime as stopped
  while a branch serves (`DeletionProtocol.BranchOverlooked`).
- A PHP switch fails, undisturbed, if the previous branch holds other pools and its service is not running
  (`PhpSwitch.Host.ChangePHPVersion`).
- A marker directly behind an attribute without a value is not read, because the translator skips the first letter
  of its name; `Markup.MarkerReadExactly` gives the exact condition. Templates do render such tags, for example
  internal/web/templates/site_backups.html:295, so a selected option keeps its English text in every locale.
- PHP reads the log path of a written debug block back exactly if no backslash of the path stands in front of a
  backslash, a quote or the end (`DebugSettings.PathReadBack`). The broker's own paths hold none.
- Alert cycle numbers wrap at 2^64; each phase is still delivered at most once per channel, because a channel
  only compares with the last delivered name (`Alerts.Incident.DeliveredOnce`).

## Model

| member | source | states |
|---|---|---|
| DomainProtocol.NextKeepsInv | internal/provision/domain_change.go:66-319 | every permitted change, a visit, a reload, a file, an export, a pass of the rewrite, an import or a journal write, keeps the invariant that ties journal state, snapshot, database and virtual hosts together |
| DomainProtocol.RunKeepsInv | internal/provision/domain_change.go:57-66 | the invariant holds in every state of every run of attempts, crashes, reboots and visits |
| DomainProtocol.AcceptedWritesSurvive | internal/provision/domain_change.go:178-233 | whenever the old or the new name is open, each write accepted so far is in the database at its place, unchanged or rewritten, and nothing else is there |
| DomainProtocol.AcceptedOnlyGrows | internal/provision/domain_change.go:225-227 | an accepted write is never dropped from what was accepted |
| DomainProtocol.SnapshotBehindGate | internal/provision/domain_change.go:181-199 | a snapshot is only taken while no virtual host serves, of exactly what had been accepted |
| DomainProtocol.NoRestoreAfterReopening | internal/provision/domain_change.go:281-307 | once the site was open after the snapshot, the database changes only by visitors' writes: neither the snapshot nor a rewrite is applied again |
| DomainProtocol.CommitExcludesRollback | internal/provision/domain_change.go:113-118 | the durable journal moves forward only; from `activating` never to a rollback state and never back |
| DomainProtocol.EndsAreFinal | internal/provision/domain_change.go:107-112 | `complete` and `restored` are absorbing: files, loaded configuration and journal state stay |
| DomainProtocol.CompleteIsMoved | internal/provision/domain_change.go:204-233 | a completed change has one pass (or, for an unsafe pair, one or more passes) over every cell accepted before the boundary, later cells untouched, both options set and only the new host loaded |
| DomainProtocol.JournalFromStart | internal/provision/domain_change.go:155-177 | the journal carries the virtual hosts that were on disk before the job |
| DomainProtocol.RestoredIsOriginal | internal/provision/domain_change.go:308-318 | a restored change has the first virtual hosts on disk and loaded, and the database as its writers left it |
| DomainProtocol.GateIsShut | internal/provision/domain_change.go:181-189 | with the maintenance virtual hosts in place no visitor reaches the site |
| DomainProtocol.AcceptableExactly | internal/provision/domain_change.go:164-172 | a first attempt accepts exactly an enabled HTTP host that names the site, an enabled TLS host where TLS is active, and, of an enabled TLS host, that it names the site and opens one server block in exactly one place |
| DomainProtocol.AllowedUrlKept | internal/provision/domain_change.go:138-139 | a rewrite keeps the URL options within what the preflight of a replay accepts |
| DomainProtocol.PassesSettle | internal/provision/domain_change.go:204-206 | for a safe pair any positive number of passes equals one pass |
| DomainChange.Host.ChangeDomain | internal/provision/domain_change.go:66-233 | each effect is a permitted change; success means `complete`, PreviousRestored means `restored`, or nothing changed on a WordPress site; a settled job is left alone; an undisturbed replay ends every job; an undisturbed first attempt answers PreviousRestored when the preflight refuses, an error when the virtual hosts do not fit, both with nothing changed, and succeeds otherwise; a single failure changes nothing, is undone, or comes behind the move |
| DomainChange.Host.MoveAndActivate | internal/provision/domain_change.go:178-233 | a failed move is rolled back, a finished one crosses the commit boundary, and behind it only activation goes on; with a single failure an unfinished end is always behind the move |
| DomainChange.Host.Begin | internal/provision/domain_change.go:155-177 | a first attempt whose checks passed: virtual hosts that do not fit are refused with nothing changed, any others go into the journal before traffic changes |
| DomainChange.Host.CheckWordPress | internal/provision/domain_change.go:119-152 | the preflight refuses a first attempt exactly when the site is a network, has its URLs fixed, or has foreign URL options, barring failures |
| DomainChange.Host.CrossBoundary | internal/provision/domain_change.go:225-232 | success makes the boundary durable; a failed write leaves the job in front of it or behind it, with the move done |
| DomainChange.Host.Move | internal/provision/domain_change.go:181-224 | gate, reload, backup and rewrite in this order; the broker's journal may be ahead of the durable one when it hands over to the rollback |
| DomainChange.Host.Backup | internal/provision/domain_change.go:190-199 | a backup counts as ready only after the finished export, and is not taken twice |
| DomainChange.Host.SaveDatabase | internal/provision/domain_change.go:190-203 | the started flag is durable only after the backup flag |
| DomainChange.Host.RewriteDatabase | internal/provision/domain_change.go:204-224 | when all commands succeeded, every accepted cell has been through a pass and both options name the new host, which is what the boundary demands |
| DomainChange.Host.RunWordPress | internal/provision/domain_change.go:208-223 | a command that is cut off has rewritten an arbitrary part; one that succeeds all of it |
| DomainChange.Host.ExportDatabase | internal/provision/domain_change.go:594-622 | only the final rename makes the export the snapshot, and it equals the database |
| DomainChange.Host.FinishActivation | internal/provision/domain_change.go:235-256 | succeeds only with the new host on disk, loaded and recorded as complete |
| DomainChange.Host.Rollback | internal/provision/domain_change.go:268-319 | answers PreviousRestored only in state `restored`, and always gets there when nothing fails |
| DomainChange.Host.UndoDatabase | internal/provision/domain_change.go:272-307 | the intent is recorded before the import, and the end of the import before any traffic |
| DomainChange.Host.RestoreTraffic | internal/provision/domain_change.go:308-318 | reopens the previous hosts and records it |
| DomainChange.Host.WriteVhosts | internal/provision/domain_change.go:556-592 | both virtual hosts become the target, one file or link at a time |
| DomainChange.Host.WriteVhost | internal/provision/domain_change.go:556-592 | content before link, link before removal, each a step towards the target |
| DomainChange.Host.WriteJournal | internal/provision/domain_change.go:434-458 | a write that reports an error may have taken effect; either way the durable state is the old or the new journal |
| DomainChange.Host.ReloadNginx | internal/provision/domain_change.go:321-326 | after success exactly what is on disk is loaded |
| DomainChange.Host.Preflight | internal/provision/domain_change.go:135-151 | passes exactly on single sites whose URL options belong to this change, barring failures |
| HostRewrite.SecondPassHarmless | internal/provision/domain_change.go:204-211 | a second pass changes no text if and only if the pair of names is safe |
| HostRewrite.SafePassIsFinal | internal/provision/domain_change.go:204-211 | for a safe pair the rewritten text is a fixed point |
| HostRewrite.AuthorityRespected | internal/provision/domain_change.go:204-207 | whatever ends a host name, the host is replaced if and only if it is the old name and a port, path, query, fragment, the end or one final line feed follows; longer names never; the one exception is a name ending in `http` or `https` in front of another `://`, whose end may start a URL of its own |
| HostRewrite.LeadingTextKept | internal/provision/domain_change.go:204-207 | text in front of a URL is kept |
| HostRewrite.UnsafeNewName | internal/provision/domain_change.go:207-209 | for a new name that ends in a scheme name, a text that a second pass changes |
| HostRewrite.UnsafeOldName | internal/provision/domain_change.go:207-209 | for an old name that ends in http, a text that a second pass changes |
| MaintenanceGate.GateCloses | internal/provision/domain_change.go:183-183 | every server block of the gate refuses before it reaches a location |
| MaintenanceGate.GateClaimsBothNames | internal/provision/domain_change.go:181-183 | the gate carries one server_name line with the old name and the new one |
| MaintenanceGate.PauseCloses | internal/provision/domain_change.go:258-266 | pausing a host with exactly one block opening closes all of its blocks and keeps everything else of its text |
| UploadProtocol.NextKeepsInv | internal/provision/files_manager_linux.go:155-294 | every permitted change of record, staging file and target keeps the upload invariant |
| UploadProtocol.RunKeepsInv | internal/provision/files_manager_linux.go:155-294 | it holds after any sequence of calls, duplicates and crashes |
| UploadProtocol.PublishedFileIsExact | internal/provision/files_manager_linux.go:211-294 | bytes below the recorded offset are the concatenation of the chunks that advanced it, and the renamed file is exactly that |
| UploadProtocol.PublishedOnce | internal/provision/files_manager_linux.go:275-293 | the rename follows a durable `publishing`; afterwards no staging file, no chunk and no second rename |
| UploadProtocol.ProgressIsMonotone | internal/provision/files_manager_linux.go:319-328 | neither the offset nor the state nor the list of chunks ever goes back |
| Upload.Host.UploadFileChunk | internal/provision/files_manager_linux.go:155-294 | truthful replies, one chunk per call at most, repeats without effect, gaps refused; a completed upload stays as it is; and for every state and every call the reply of an undisturbed call: what is already there, a repeated last chunk, a contradiction or a gap, a continuation, a file over the limit, a target that may not be replaced, bytes left by a crash, a lost last reply |
| Upload.Host.Take | internal/provision/files_manager_linux.go:211-294 | an acknowledged chunk is in the file at its offset; a chunk beyond the offset changes nothing; and the reply of an undisturbed call in every case |
| Upload.Host.AdoptPending | internal/provision/files_manager_linux.go:211-222 | bytes the record does not know are adopted only from the same call with the same bytes |
| Upload.Host.WriteChunk | internal/provision/files_manager_linux.go:244-271 | the record moves on by exactly the chunk that was appended |
| Upload.Host.OpenStaging | internal/provision/files_manager_linux.go:184-210 | only an active upload creates the staging file |
| Upload.Host.RenameIntoPlace | internal/provision/files_manager_linux.go:279-288 | the staging file becomes the target; what stands there is replaced only on request and only if it is a regular file |
| Upload.Host.Publish | internal/provision/files_manager_linux.go:275-293 | intent, rename and completion in this order |
| Upload.Host.OpenRecord | internal/provision/files_manager_linux.go:296-317 | an existing record is kept, a new one starts at offset 0 |
| Upload.Host.SaveRecord | internal/provision/files_manager_linux.go:319-328 | the durable record is the old or the new one, whatever is reported |
| DeletionProtocol.NextKeepsInv | internal/provision/delete_site.go:56-284 | every permitted change keeps the deletion invariant |
| DeletionProtocol.RunKeepsInv | internal/provision/delete_site.go:56-284 | it holds after any sequence of attempts, crashes, reboots, connections and spawned processes |
| DeletionProtocol.AccountOutlivesFiles | internal/provision/delete_site.go:274-281 | once the recorded account is gone, tree, generated database, listed files, processes and traffic are gone |
| DeletionProtocol.TreeAfterTraffic | internal/provision/delete_site.go:177-263 | the tree is only touched with no traffic on disk or loaded, a durable stopped runtime and no database, and, unless a branch was overlooked, with no process and nothing that could start one |
| DeletionProtocol.UnitFilesOutliveStops | internal/provision/delete_site.go:188-196 | a listed file other than a pool goes only after the tree, so unit files outlive the stop commands that name them |
| DeletionProtocol.RecordIsKept | internal/provision/delete_site.go:140-152 | the record is only completed: identity, database flag and PHP branches stay as first found |
| DeletionProtocol.BranchesReconciled | internal/provision/delete_site.go:197-226 | when the runtime counts as stopped no branch serves the site, not even one whose pool file was gone before the deletion, because the wait for the socket would not have ended: for every start at which some branch was recordable, or none served |
| DeletionProtocol.SeenStays | internal/provision/delete_site.go:199-213 | that start condition is kept by every permitted change: no branch comes to be overlooked later |
| DeletionProtocol.BranchOverlooked | internal/provision/delete_site.go:209-213 | without the condition nothing is waited for: from every such quiet start a run records the stopped runtime while a branch serves |
| DeletionProtocol.MissingUnitsNeverStop | internal/provision/delete_site.go:188-196 | a Python site without its unit files never gets past the stop commands, in no run whatever |
| DeletionProtocol.OthersKeepRunning | internal/provision/php_version.go:145-168 | a running branch that holds other pools is never stopped by the deletion, only lost by a reboot |
| DeletionProtocol.UntouchedBeforeRecord | internal/provision/delete_site.go:99-175 | before the record exists no resource of the site has changed |
| DeletionProtocol.DoneIsFinal | internal/provision/delete_site.go:107-109 | behind `Done` nothing listed comes back and no branch comes to serve; everything listed stays absent |
| DeletionProtocol.NothingIsLeft | internal/provision/delete_site.go:227-284 | a deletion on record as done has left none of the links, units, jobs, files, secrets, databases, processes, trees and accounts of the site, kind by kind |
| SiteDeletion.ListComplete | internal/provision/delete_site.go:323-369 | the list that is walked names exactly the files the site may have generated |
| SiteDeletion.Host.DeleteSite | internal/provision/delete_site.go:56-284 | success means everything is gone; a refused attempt changed nothing; a replay after the end does nothing; an undisturbed attempt fails unless the unit files of a Python site exist, every branch to reconcile answers its command and no other branch serves, and finishes from every crash state if they do and no branch is overlooked; unmanaged paths, a tree that is not the account's own and a WordPress tree without a known database are refused before the record |
| SiteDeletion.Host.Admit | internal/provision/delete_site.go:99-175 | the record is written, or checked, before anything is touched; it names the branches found first |
| SiteDeletion.Host.Proceed | internal/provision/delete_site.go:177-283 | the fixed order of destruction, and convergence under the same condition |
| SiteDeletion.Host.CloseSite | internal/provision/delete_site.go:177-187 | links off disk, then out of Nginx |
| SiteDeletion.Host.StopRuntime | internal/provision/delete_site.go:188-226 | the stopped runtime is recorded only with nothing left that could start the site's code, an overlooked branch excepted; undisturbed, exactly if the services can be stopped |
| SiteDeletion.Host.StopPython | internal/provision/delete_site.go:188-196 | the socket first, then the service that a connection could start behind it; undisturbed, it succeeds exactly if both unit files exist |
| SiteDeletion.Host.ReleasePools | internal/provision/delete_site.go:197-214 | the recorded branches lose the site's pool and stop serving it, and the wait ends only when nothing serves the socket; undisturbed, it succeeds exactly if each branch answers and no other branch serves |
| SiteDeletion.Host.WaitSocketStopped | internal/provision/delete_site.go:562-600 | succeeds only when no branch serves the site, recorded or not |
| SiteDeletion.Host.ReloadOrStopUnused | internal/provision/php_version.go:145-168 | a branch that another pool needs is reloaded, which needs a running service; any other is stopped, which needs an installed one |
| SiteDeletion.Host.StopSite | internal/provision/delete_site_identity.go:42-67 | success means that no process of the account runs, unless an overlooked branch starts new ones; an absent account is success |
| SiteDeletion.Host.RemoveTree | internal/provision/delete_site.go:248-263 | success means that the whole tree is gone; cut off, it leaves a partial tree |
| SiteDeletion.Host.WriteRecord | internal/provision/delete_site.go:539-553 | the durable record is the old or the new one, whatever is reported |
| SiteDeletion.Host.Destroy | internal/provision/delete_site.go:227-281 | database, tree, files and account, in this order |
| SiteDeletion.Host.DestroyDatabase | internal/provision/delete_site.go:227-247 | the database goes before the secret that names it, and only the recorded one |
| SiteDeletion.Host.RemoveFiles | internal/provision/delete_site.go:264-268 | success means that no listed file is left |
| SiteDeletion.Host.RemoveAccount | internal/provision/delete_site_identity.go:69-89 | the account is released only when nothing else is left and no process runs as it |
| PhpProtocol.NextKeepsInv | internal/provision/php_version.go:18-143 | every permitted change keeps exclusivity and the surviving copy |
| PhpProtocol.RunKeepsInv | internal/provision/php_version.go:18-143 | they hold in every crash, reboot and replay state |
| PhpProtocol.SwitchIsSafe | internal/provision/php_version.go:39-142 | never both pools on disk, never both branches on the socket, the previous content in the pool or its copy, in every crash, reboot and replay state |
| PhpProtocol.OthersStayEnabled | internal/provision/php_version.go:145-168 | a branch that holds another non-default pool is never disabled |
| PhpSwitch.Host.ChangePHPVersion | internal/provision/php_version.go:18-143 | PreviousRestored means the previous pool is back and served and the target absent; success means the target serves alone; an undisturbed attempt switches from every crash state exactly if the previous branch answers its command, and otherwise restores exactly if the target branch does; with a single failure a site whose branches answer ends switched or restored, or nothing was taken away |
| PhpSwitch.Host.Rollback | internal/provision/php_version.go:92-121 | the target is withdrawn before the previous pool comes back and is confirmed; undisturbed, exactly if the target branch answers its command |
| PhpSwitch.Host.UnchangedFailure | internal/provision/php_version.go:70-78 | an early failure claims restoration only with the previous pool in place, its service running and the socket served, and then always, when nothing fails |
| PhpSwitch.Host.ReleasePrevious | internal/provision/php_version.go:84-91 | the pool is copied before it is removed |
| PhpSwitch.Host.BringUpTarget | internal/provision/php_version.go:122-141 | success means that the previous branch let go and the target serves; no other service stops |
| PhpSwitch.Host.ReloadOrStopUnused | internal/provision/php_version.go:145-168 | a branch is disabled only when no pool other than the default is left; a needed one is reloaded, which fails for a stopped service |
| PhpSwitch.Host.Ensure | internal/provision/php.go:49-88 | success means that the target's pool is installed, enabled and serving |
| FileSwitch.RunKeepsInv | internal/provision/wordpress_update.go:53-99 | in every state the live tree is whole, or absent while the saved copy is whole |
| FileSwitch.LiveTreeNeverPartial | internal/provision/wordpress_update.go:53-99 | a step gives the live tree one more update or none; no step brings an older tree back |
| FileSwitch.Host.RecoverInterruptedFileSwitch | internal/provision/staging.go:218-243 | recovery leaves a whole live tree, of the same update, and no saved copy |
| FileSwitch.Host.PrepareCopy | internal/provision/wordpress_update.go:70-87 | only a checked copy counts as whole |
| FileSwitch.Host.SwitchTrees | internal/provision/wordpress_update.go:84-93 | the two renames activate exactly the checked copy, and a failed second one takes the first back, so that a single failure leaves a whole live tree |
| FileSwitch.Host.UpdateWordPress | internal/provision/wordpress_update.go:17-99 | success means exactly one more update than before the attempt; a single failure never leaves the site without its tree |
| FileTrees.AllCovered | internal/provision/files_manager_linux.go:848-890 | an entry and the subtrees of its children are its subtree |
| FileTrees.TotalOfUnion | internal/provision/files_manager_linux.go:848-890 | sizes of disjoint parts add up |
| TreeDeletion.Budget.Add | internal/provision/files_manager_linux.go:54-62 | counts first, then refuses beyond the limits |
| TreeDeletion.Public.MeasureEntry | internal/provision/files_manager_linux.go:848-890 | success adds exactly the subtree to the budget and means that it is removable; in calm weather it succeeds exactly on removable subtrees that fit |
| TreeDeletion.Public.MeasureDirectory | internal/provision/files_manager_linux.go:861-886 | the same for a directory, child by child |
| TreeDeletion.Public.RemoveEntry | internal/provision/files_manager_linux.go:791-832 | success removes exactly the subtree, failure at most a part of it, and a removable subtree fails only by an I/O error |
| TreeDeletion.Public.RemoveDirectory | internal/provision/files_manager_linux.go:802-826 | children before their directory |
| TreeDeletion.Public.LaterKept | internal/broker/files_manager.go:148-170 | removing some of the selections leaves the others whole and as removable as before |
| TreeDeletion.Public.Preflight | internal/provision/files_manager_linux.go:352-369 | success means every selection is removable and all fit one budget, and calm weather adds the converse |
| TreeDeletion.Public.DeleteFiles | internal/provision/files_manager_linux.go:344-388 | success removes exactly the selections and returns their number; a preflight that fails for any reason changes nothing; a removal that fails comes behind a successful preflight, with the first `changed` selections gone and at most a part of the next |
| FilePaths.ValidMeansPlain | internal/broker/files_manager.go:134-146 | a path passes if and only if it is a slash-separated list of plain names |
| FilePaths.PrefixMeansAncestor | internal/broker/files_manager.go:148-170 | the textual test is the ancestor relation |
| FilePaths.SelectionsUnrelated | internal/broker/files_manager.go:148-170 | distinct texts without ancestors are an antichain of the tree, and conversely |
| FilePaths.ValidFilePaths | internal/broker/files_manager.go:148-170 | passes exactly for one to a hundred plain paths that form an antichain, the precondition of the deletion |
| Localize.TranslateHTML | internal/localize/localize.go:166-227 | the one-pass loop equals reading a list of texts and tags, swapping marked leaves and writing it back |
| Localize.TagEnd | internal/localize/localize.go:229-245 | the first closing bracket outside quotes |
| Localize.TagName | internal/localize/localize.go:247-262 | the loop equals the specification of tag names |
| Localize.AttributeValue | internal/localize/localize.go:264-307 | the loop equals the attribute-by-attribute reading |
| Localize.FlattenLex | internal/localize/localize.go:166-227 | reading a page and writing it back gives the page |
| Localize.LexFlatten | internal/localize/localize.go:166-227 | writing a proper list and reading it back gives the list |
| Localize.SwapByPosition | internal/localize/localize.go:166-227 | tags never change, and text i changes only behind a known marked leaf |
| Localize.StructureKept | internal/localize/localize.go:166-227 | a translated page has the tags of the original and its texts except inside known marked leaves outside protected elements |
| Localize.LastLocaleWins | internal/localize/localize.go:151-227 | translating a translated page into a second locale equals translating the original into it |
| Markup.TagIsRead | internal/localize/localize.go:247-307 | of any tag written as a name and attributes, with or without values, exactly the first attribute of that name is read, except that an attribute behind one without a value has lost its first letter |
| Markup.MarkedTagIsRead | internal/localize/localize.go:264-307 | a marker is read wherever it stands behind quoted attributes and whatever follows it; a tag of other quoted attributes has none |
| Markup.MarkerReadExactly | internal/localize/localize.go:264-307 | among any attributes a marker is read if and only if the attribute in front has a value, or has lost its only letter itself |
| Markup.LastDecides | internal/localize/localize.go:280-287 | among names of two letters and more, the attribute directly in front decides |
| Markup.BareHidesMarker | internal/localize/localize.go:280-287 | directly behind an attribute without a value no marker is read |
| Markup.LeafIsTranslated | internal/localize/localize.go:166-227 | a known marked leaf outside the protected elements gets the escaped text of the locale, or the English one where it has none; what follows is translated on its own |
| Markup.OtherTagStays | internal/localize/localize.go:166-227 | an opening tag without a known marker, or with markup inside, is copied, and the rest is translated on its own |
| Markup.ClosingTagStays | internal/localize/localize.go:166-227 | a closing tag is copied, and the rest is translated on its own |
| Markup.ProtectedStays | internal/localize/localize.go:184-196 | the contents of script, style, textarea, pre and code are copied, markers and all, up to the closing tag |
| Markup.TextStays | internal/localize/localize.go:171-177 | text without a tag is copied |
| Markup.EscapeRoundTrip | internal/localize/localize.go:214-214 | an escaped text holds no markup character, and reading its entities gives the text back |
| PhpScan.ScanPHPHeredocs | internal/provision/wordpress_debug.go:181-228 | the nested loops equal the recursive reading by lines, errors included |
| PhpScan.HeredocsApart | internal/provision/wordpress_debug.go:181-228 | recorded heredocs are whole lines from an opening line to the first line that ends it, disjoint and in order, and no body names a debug constant |
| PhpScan.ScanPHPDefineTokens | internal/provision/wordpress_debug.go:230-310 | the character loop finds exactly the tokens of the lexer |
| PhpScan.LexTiles | internal/provision/wordpress_debug.go:230-310 | the lexer's spans tile the file |
| PhpScan.TokensExact | internal/provision/wordpress_debug.go:230-314 | the tokens are exactly the word-bounded defines of code spans, strictly increasing and outside heredocs |
| PhpReading.OpensHeredoc | internal/provision/wordpress_debug.go:29-29 | a line that ends in three angle brackets and a label, quoted or not, with blanks and an optional semicolon, opens a heredoc with that label |
| PhpReading.OpeningMeans | internal/provision/wordpress_debug.go:29-29 | no other line does |
| PhpReading.TerminatorExact | internal/provision/wordpress_debug.go:205-222 | a heredoc ends with the first line that holds nothing but its label and an optional semicolon, and not at all if there is none |
| PhpReading.AllRecorded | internal/provision/wordpress_debug.go:181-228 | after a successful scan every line that opens a heredoc begins a recorded range or lies inside one |
| PhpReading.FailureIsBroken | internal/provision/wordpress_debug.go:211-226 | a scan fails only because of a heredoc that never ends or whose body names a debug constant |
| PhpReading.OpeningExact | internal/provision/wordpress_debug.go:274-303 | what begins a quoted text, a line comment and a block comment |
| PhpReading.LineCommentEnds | internal/provision/wordpress_debug.go:260-263 | a line comment ends behind the first line break outside heredocs |
| PhpReading.BlockCommentEnds | internal/provision/wordpress_debug.go:264-268 | a block comment ends behind the first closing mark outside heredocs |
| PhpReading.QuotedEnds | internal/provision/wordpress_debug.go:246-259 | a quoted text ends behind its first quote without a backslash in front of it |
| PhpReading.DefineWordExact | internal/provision/wordpress_debug.go:304-314 | a define is the six letters in either case between characters that are no part of a word |
| WordPressDebug.AdoptSimpleWordPressDebugDefines | internal/provision/wordpress_debug.go:110-177 | the loops equal the specification of adoption, values and refusals included |
| WordPressDebug.Classify | internal/provision/wordpress_debug.go:123-154 | the tests on one offset, in the code's order |
| WordPressDebug.SpliceLoop | internal/provision/wordpress_debug.go:165-176 | the buffer loop equals the recursive splice |
| WordPressDebug.SpliceIsLineWise | internal/provision/wordpress_debug.go:165-176 | splicing equals going through the lines and leaving a comment for each line taken |
| WordPressDebug.CollectExact | internal/provision/wordpress_debug.go:122-161 | every offset is unrelated or its line is taken with its value, and no other line is |
| WordPressDebug.AdoptionExact | internal/provision/wordpress_debug.go:110-177 | the lines taken are whole, pairwise disjoint, exactly those of the debug defines; each leaves the comment at its end, up to trailing blanks, and every other line stays in order |
| DefineGrammar.GrammarIsRead | internal/provision/wordpress_debug.go:28-28 | every define call of the grammar is read as its name, its value and its comment |
| DefineGrammar.ReadIsGrammar | internal/provision/wordpress_debug.go:28-28 | nothing else is read |
| DebugAdoption.AdoptableIsTaken | internal/provision/wordpress_debug.go:123-161 | a define near a debug constant that stands alone on its line as such a call, with a boolean value unless it is the log, is taken |
| DebugAdoption.TakenIsAdoptable | internal/provision/wordpress_debug.go:123-161 | nothing else is taken |
| DebugAdoption.IgnoredIsFar | internal/provision/wordpress_debug.go:27-27 | a define is passed over exactly if no quoted debug constant follows within 256 characters |
| DebugAdoption.AdoptionDecides | internal/provision/wordpress_debug.go:110-177 | adoption succeeds exactly if every define near a debug constant stands alone on its line and no constant is defined twice |
| DebugAdoption.AdoptionTakes | internal/provision/wordpress_debug.go:110-177 | every such line is taken, with its comment, and its value is reported |
| DebugAdoption.AdoptionTakesNoMore | internal/provision/wordpress_debug.go:110-177 | every line taken and every value reported comes from such a define |
| DebugBlock.UpdateAgreesWithInspect | internal/provision/wordpress_debug.go:44-103 | updating succeeds if and only if inspecting knows the file and the cleaned text holds the boundary |
| DebugBlock.FreshFound | internal/provision/wordpress_debug.go:32-52 | a block just written is found whole, and taking it out gives the text around it, unless a marker occurs twice |
| DebugBlock.SettingsDiffer | internal/provision/wordpress_debug.go:32-42 | the enabled and the disabled block differ after trimming, for every log path |
| DebugBlock.UpdateWrites | internal/provision/wordpress_debug.go:65-75 | an update writes the cleaned text with the block and an empty line in front of the boundary |
| DebugBlock.InspectAfterUpdate | internal/provision/wordpress_debug.go:44-103 | inspecting a fresh update gives exactly the setting, managed, or unknown, and says when |
| DebugBlock.SecondUpdateWins | internal/provision/wordpress_debug.go:44-76 | two successful updates equal the second applied to the original; the same setting again reports no change |
| DebugSettings.UpdateSets | internal/provision/wordpress_debug.go:32-76 | a successful update writes, between the markers and in front of the boundary, three lines that set WP_DEBUG to the setting, WP_DEBUG_LOG to false or the log path, and WP_DEBUG_DISPLAY to false |
| DebugSettings.PathReadBack | internal/provision/wordpress_debug.go:35-35 | PHP reads the quoted log path back if and only if no backslash stands in front of a backslash, a quote or the end |
| DebugSettings.InspectMeans | internal/provision/wordpress_debug.go:78-103 | what is reported as managed is such a block in the file with the reported setting; what is reported as not managed holds no marker, and is on exactly if an adopted define says true |
| DebugSettings.BlockExact | internal/provision/wordpress_debug.go:26-26 | a block is the start marker on a line, anything, the first end marker on a line of its own and one empty line if there is one, with line breaks of either kind |
| DebugSettings.BlockSeen | internal/provision/wordpress_debug.go:26-26 | wherever these pieces stand a block is seen |
| Alerts.PhasesJustified | internal/alerts/monitor.go:162-212 | each opening follows `trigger` consecutive bad samples and the cooldown since the last resolution, each resolution two consecutive good samples |
| Alerts.SummaryAfterBad | internal/alerts/monitor.go:169-189 | on a bad sample the decisions on the stored counters are the decisions told from the whole run |
| Alerts.SummaryAfterGood | internal/alerts/monitor.go:190-208 | the same on a good sample |
| Alerts.NextOpening | internal/alerts/monitor.go:214-231 | the name after the n-th resolution is the next `open:` cycle, modulo 2^64 |
| Alerts.NextResolution | internal/alerts/monitor.go:195-199 | a resolution has the cycle number of its opening |
| Alerts.NamesDistinct | internal/alerts/monitor.go:214-231 | phase names do not repeat before the cycle number wraps |
| Alerts.AttemptKeepsOrder | internal/alerts/monitor.go:279-311 | a due attempt keeps the log in order: phases ascend, nothing delivered is tried again, failures are left alone for the cooldown |
| Alerts.Incident.DeliveredOnce | internal/alerts/monitor.go:279-311 | after any run of samples whose saves worked, a phase delivered on a channel is followed there only by later phases, under different names as long as the cycle number has not wrapped |
| Alerts.Incident.FailureLeftAlone | internal/alerts/monitor.go:294-302 | after such a run, a failed attempt is followed by none within the cooldown |
| Alerts.DueFromRecord | internal/alerts/monitor.go:291-297 | the tests on the stored delivery record are the test on the log of attempts |
| Alerts.Incident.Condition | internal/alerts/monitor.go:162-212 | the new state is the summary of the run with the sample added, and each wanted channel gets one attempt exactly when one is due; when nothing fails, the sample is kept and the attempt works; a sample lost without a trace changes nothing |
| Alerts.Incident.Send | internal/alerts/monitor.go:252-316 | goes through the wanted channels; reports success only when each has the phase; when nothing fails, every attempt works and is recorded |
| Alerts.Incident.SendOn | internal/alerts/monitor.go:283-311 | one attempt exactly when it is due; when nothing fails, it works and is recorded |
| Alerts.Watch | internal/alerts/monitor.go:162-212 | after any run of samples in which nothing fails, exactly these samples are kept and each channel has exactly the attempts that the run calls for |
| Alerts.OpeningComes | internal/alerts/monitor.go:169-189 | an opening does come, and is announced, with the last of `trigger` bad samples in a row once the cooldown has passed |
| Alerts.ResolutionComes | internal/alerts/monitor.go:190-200 | a resolution comes, and is announced, with the second of two good samples in a row |
| Cron.RenderCronFile | internal/provision/cron.go:328-334 | the loop quotes each argument in place and the file holds one entry |
| Cron.QuoteByCharacter | internal/provision/cron.go:336-341 | the two replacements do not disturb each other |
| Cron.ReadableMeansEven | internal/provision/cron.go:337-339 | the left-to-right reading of the condition is the evenness of the run in front of each percent sign |
| Cron.CronKeepsArgument | internal/provision/cron.go:336-341 | a readable argument comes out of cron as the shell-quoted argument |
| Cron.CronCutsArgument | internal/provision/cron.go:336-341 | any other argument stops cron inside its quotes |
| Cron.ShellReadsBack | internal/provision/cron.go:336-341 | quote removal gives the argument back |
| Cron.ArgumentRoundTrip | internal/provision/cron.go:336-341 | both layers together, for one argument, with the exact condition |
| Cron.LineRoundTrip | internal/provision/cron.go:328-341 | the same for a whole line behind words already read |
| Cron.RoundTrip | internal/provision/cron.go:328-341 | cron and the shell read back the argument list if every percent sign is behind an even run of backslashes, and no command at all otherwise |
| Cron.RoundTripFails | internal/model/cron.go:98-102 | arguments that pass the validation of arguments and whose command cron cuts |
| Cron.LineAddsNothing | internal/provision/cron.go:328-341 | quoting and joining add only quotes, backslashes and blanks |
| Cron.ValidStaysOneLine | internal/model/cron.go:98-102 | a validated command is one line of the crontab |

## Left out

- Sockets, HTTP, DNS, SMTP, webhooks, installers, external clients: external commands are success or failure with their stated effect.
- Request validation, job keys, journal versions and locks at the head of each operation: they refuse before anything is changed, and a job is assumed to find its own journal.
- A power failure that takes back a journal write after its sync reported an error: a reported error is modelled as taken effect or not at the moment it is reported.
- Cache clearing, `db check` and the guid column of a domain change: the first two have no effect in the model, and cells are the columns the rewrite visits.
- External cron jobs and requests already in flight during a domain change, which the source excludes as well.
- The five-minute and twelve-second limits: they are one more way in which a command may fail.
- File descriptors, ownership, modes, symlink races and tampering by site users during an operation.
- Mount and ownership inspection before a deletion: two booleans of the site.
- DeletionProtocol.RunKeepsInv: runs start with what the kind of a site and its provisioning guarantee: Python units only on Python sites, pool files only on PHP sites and in branch directories, database secrets only on WordPress sites and written before the database.
- SiteDeletion.Host.DeleteSite: when no branch is recorded and one serves, nothing is promised about whether an undisturbed attempt finishes; it depends on when that branch starts processes.
- PhpProtocol.RunKeepsInv: runs start with only the previous pool installed and the target branch off the socket; a third branch left over by another job is not modelled, and the packages of both branches stay installed.
- The SQL side of a failed WordPress update: only the file trees are modelled.
- Regular expressions: their matchers are written by hand on characters; Unicode folding and Unicode white space are not modelled.
- HTML entities beyond the escaping of translated texts, and the contents of the catalogs: any catalog is allowed.
- Hashes: incident keys and delivery identities stand for themselves.
- One-off alert events, the evaluation of samples and the formatting of messages.
- Alerts.Incident.Condition: its delivery clauses hold while every save has worked, because a state that was not saved is forgotten and its phase announced again.
- Cron.RoundTrip: cron's reading of the first six fields and of the environment lines is not modelled, only the command part.
- Full staging deployment, restore, clone, archives, copies and moves.
- The store and the durable worker beyond loading and saving one record.

# Transactional host mutation, modelled

The daemon keeps a registry of sites and mirrors it onto one machine: a Caddy file per site and an import in the root
Caddyfile, a PHP-FPM pool and a systemd override per PHP version, and one systemd-resolved drop-in. Three adapters change
these files step by step, issue commands that may fail, and restore what they changed. Above them three sagas, activation,
update and runtime switch, chain the adapters and the registry with compensations. This project models the registries,
the adapters, the sagas and the text transformations beneath them, and proves what holds for every pattern of failures.

## How the model is built

- `HostModel` is the machine: a map of files, a log of commands with their outcomes, and an account of what went wrong.
  Every forward step, every compensating step and every command may succeed or fail, at the verifier's choice, so a
  contract covers all failure patterns.
- The account (`Trouble`) has four counters. `faults` counts failed forward steps. `lostUndos` counts compensations whose
  error is dropped. `lateChmods` counts Caddy writes that replaced the file and then failed to set its mode. `lostDeletes`
  counts failed registry deletes of a rollback. A claim says which of the last three it needs to be unchanged.
- `Caddy`, `Fpm` and `Resolved` are the adapters as classes; `SiteRegistry` and `PhpRegistry` the registries; `Activation`,
  `SiteManagement` and `PhpManager` the sagas; `Daemon` serves requests one at a time. `Worlds` states the invariant over
  the four stores and what a request may do to them; `Serving` and `Services` hold the steps that the sagas share.
- `Interleaving` is a second model, of concurrent requests at the granularity of the registry lock. `StateStore` models the
  state file and a process that may stop after any step.
- `Text`, `RootImport`, `Tokens`, `SiteNames`, `ResolverStub`, `PhpVersions` and `CaddyConfig` hold the text functions with
  real definitions of splitting, joining, trimming and searching.

## Assumptions

- A request's context is not cancelled while the request is served; its rollback uses the same context.
- Compensations are best effort. Exact restoration is claimed when they took effect, and the resolver and
  all-or-nothing claims about the registry need only the registry delete to take effect.
- A write replaces its file or leaves it alone; the exception, Caddy's mode change after the rename, is modelled. Claims
  cover the bytes of files, not their modes.
- Random record IDs are fresh: they name neither a record nor a site file. They are parameters of a request, as are the
  clock, where the file system says that a path leads, and the text that a version probe prints. The probe prints no second
  "php" prefix.
- Nobody else writes the managed paths while a request is served.
- A PHP-FPM service name is a single path element: it becomes part of the override's path, and a name with a slash in it could
  lead to another adapter's file.
- Text is ASCII. A socket or domain that is read back from a printed file has no line break; other text is unrestricted.
- JSON encoding is read back unchanged and is never empty.
- The optional collaborators of the sagas are all present, as in the daemon's own wiring.

## Where the code does less than its names promise

Where a promise fails of the code, the exact condition under which it holds is proved. A promise that an input breaks has a
lemma with such an input; the two that only a failing machine breaks, late writes and the closing inspection, need none.

- Token sanitising is not idempotent when white space other than the plain space is guarded by a dash, and removal then
  misses the activated file: `Tokens.SanitizeIdempotent`, `CaddyConfig.RemovalFindsActivatedFile`, `CaddyConfig.MissedSite`.
  Generated IDs are not affected: `Tokens.RecordIdToken`.
- A root file with a marker line of its own loses text in the round trip: `RootImport.RootImportRoundTrip`,
  `RootImport.StrayMarkerLosesText`.
- The search for the import line finds it inside a comment, and then adds nothing: `RootImport.ImportIsEffective`,
  `RootImport.CommentedImportIsKept`.
- A Caddy write that fails in its final mode change leaves the new bytes behind although the call reports an error. Two such
  writes can leave a site without its import, a site file and a filtered root file: `Caddy.LateSiteIsImported`,
  `Caddy.LateRemovalIsImported`, and over whole runs `Caddy.SitesAreImportedThroughout`; such
  states are `Caddy.LateSiteBreaks` and `Caddy.LateRemovalBreaks`; what a refused request leaves, and when the host still
  mirrors the registry, is in `Serving.LateActivationKeepsInv` and `Serving.LateChangeKeepsInv`.
- When only the closing inspection of `EnsureTestStub` fails, the call reports an error and the stub stays, and a refused
  first activation leaves it too: `Resolved.Manager.EnsureTestStub`, `Activation.Service.Activate`.
- A stub domain that keeps a leading dot or inner white space after normalisation is written but not recognised:
  `ResolverStub.StubClaimsItsDomain`, `ResolverStub.DottedStub`, `ResolverStub.SpacedStub`. One is by accident:
  `ResolverStub.PaddedDotStub`.
- Version normalisation strips one "php" prefix, so a doubled prefix survives and the result counts as supported without
  being in the matrix: `PhpVersions.NormalizeIdempotent`, `PhpRegistry.AcceptedInMatrix`, `PhpRegistry.DoubledPrefix`.
- Updates check and write under two locks, so two of them can claim one domain: `Interleaving.UpdateWriteIsSafe`,
  `Interleaving.UpdatesRace`.

One limit is not promised by the code at all: labels of more than 63 characters are accepted, unlike in section 2.1 of
RFC 1123. The model follows the code: `SiteNames.LongLabelsAreAccepted`.

## Model

| member | source | states |
|---|---|---|
| `Daemon.Daemon.Serve` | daemon/internal/app/orchestration.go:89-163 | For any sequence of activation, update, switch, add-runtime and choose-default requests from a world where it holds, and any pattern of failures, at every moment: the registry is canonical and free of duplicates, every site's version has a registered runtime, and every resolver file that is not the daemon's keeps its bytes; until a registry delete of a rollback is lost, a non-empty registry implies the rendered resolver stub; until a compensation is lost too, every registered site has a Caddy file that prints its current domain, root and PHP version over a proper pool file. Every request did what it asks for or was refused, and every request is contained as `Daemon.Daemon.Handle` says |
| `Daemon.Daemon.ServeNext` | daemon/internal/app/orchestration.go:89-163 | The next request does all of that, and the IDs of later requests stay fresh |
| `Daemon.Daemon.Handle` | daemon/internal/app/orchestration.go:89-163 | One request: not refused means carried out, field by field, for sites (root as resolved, name, domain, version asked for or default, times) and for runtimes (record, default, all other entries); refused and compensated means undone; refused with nothing lost but a late write leaves the registry and one of two named files. Whatever fails, every other site stays registered and, if the host mirrored it, mirrored, and the foreign resolver files, the well-formed registry, the runtime matrix and unissued IDs are kept |
| `Daemon.Daemon.HandleAddRuntime` | daemon/internal/app/php_registry.go:68-132 | Registering a runtime while sites are served records what its binary reports in the place of its version, or changes nothing; it touches no site and no file of the host |
| `Daemon.Daemon.HandleChooseDefault` | daemon/internal/app/php_registry.go:237-265 | Choosing a default sets it to a registered version, or changes nothing; it touches no site and no file of the host |
| `Daemon.MirroredUntilNamed` | daemon/internal/app/orchestration.go:89-163 | Over any sequence of requests, whatever fails and whatever is lost, a site the host mirrors stays registered and mirrored for as long as no request names it |
| `Daemon.SteadyNext` | daemon/internal/app/orchestration.go:89-163 | One request keeps every part of the whole-run claim for which nothing was lost that it needs |
| `Daemon.EmptyStart` | daemon/internal/app/site_registry.go:263-274 | An empty registry on a host without site files satisfies every invariant, whatever the other files hold and whatever was lost before |
| `Worlds.RunsKeepInv` | daemon/internal/app/orchestration.go:89-163 | Host mirrors registry along every sequence of requests that are each carried out or undone |
| `Worlds.UndoneKeepsInv` | daemon/internal/app/orchestration.go:108-121 | A request undone by its compensations keeps "host mirrors registry", including the import line of the root file |
| `Worlds.AddedKeepsInv` | daemon/internal/app/site_registry.go:103-134 | Appending a canonical record that clashes with no other, and serving it, keeps the invariant and the distinctness of IDs, names and domains |
| `Worlds.ChangedKeepsInv` | daemon/internal/app/site_management.go:108-171 | Replacing one record by a canonical one that clashes with no other, and serving it, keeps the same |
| `Worlds.UnclaimedIsDistinct` | daemon/internal/app/site_registry.go:103-134 | Among canonical records, which are lower-case, the case-insensitive duplicate check coincides with plain inequality |
| `Worlds.SiteOfCanonical` | daemon/internal/app/orchestration.go:242-257 | Activating a registered record names the file after its ID and writes the configuration that `Worlds.MirroredSiteReads` reads back |
| `Worlds.MirroredSiteReads` | daemon/internal/host/ubuntu/caddy/manager.go:260-277 | What a mirrored site's file says, read back line by line: under http:// and https:// the record's domain, the public directory under its root, and its version's socket; over https an internal certificate as well |
| `Worlds.MirroredSocketsAgree` | daemon/internal/host/ubuntu/caddy/manager.go:260-277 | For a mirrored record, the socket read back from its site file is the socket read back from its version's pool file |
| `Worlds.MovedSiteReads` | daemon/internal/app/orchestration.go:259-265 | A site that moved to another version talks to another socket than before, the one its version's pool listens on and no other version's |
| `Worlds.PoolsApart` | daemon/internal/app/orchestration.go:259-265 | The pool of another supported version never listens on this version's socket |
| `Serving.FirstSiteIsServed` | daemon/internal/app/orchestration.go:89-163 | From an empty registry, for any project root, ID and supported version, a completed activation reaches a world in which the invariant holds with that one site: the whole-run claim is about worlds that exist |
| `Worlds.SpecIsStable` | daemon/internal/app/orchestration.go:76-87 | The daemon's own stub specification is a fixed point of the adapter's normalisation |
| `Worlds.ReadyStubRoutes` | daemon/internal/app/orchestration.go:76-87 | What the daemon's stub says: it is a drop-in that the resolver reads, it claims "test" and points to 127.0.0.1, and the domain of every canonical record lies under ".test" |
| `Worlds.ForeignPartKept` | daemon/internal/host/ubuntu/resolved/manager.go:131-185 | What keeping the foreign part of the resolver's files means: its main configuration and every other drop-in keep their bytes, so does a stub that somebody else wrote, and no stub becomes foreign |
| `Activation.Service.Activate` | daemon/internal/app/orchestration.go:89-163 | All or nothing: a kept activation appends one canonical record that clashes with nobody, serves it, and issued exactly the scripted commands; a refused one leaves the registry as before (when its delete took effect) and, when every compensation did, site files and pools too; with no failed step the refusal has one of four named causes. After a single failed step over an empty registry the stub is as before, or gone, or, when only the closing inspection failed, the rendered one, and the commands tell which. A late write with nothing else lost leaves the ensured root file or the refused record's site file. Other sites' files and foreign resolver files keep their bytes in every case |
| `Activation.Service.Complete` | daemon/internal/app/orchestration.go:98-162 | The part after registration: kept exactly when no step failed and the resolver was not blocked; otherwise the fresh record is deleted again and the files restored, also when only the last registry update fails |
| `Activation.Service.Provision` | daemon/internal/app/orchestration.go:123-154 | Resolver, runtime, services and site in order; success is equivalent to no failed step and no foreign claim, and the flags tell which steps were committed |
| `Activation.Service.Prepare` | daemon/internal/app/orchestration.go:123-145 | The steps before the site: whatever fails, no site file changes, and pools stay as before or proper |
| `Activation.Service.EnsureResolver` | daemon/internal/app/orchestration.go:123-129 | The stub is in place afterwards unless the step failed before it existed; a failure never takes away a stub that was there; foreign drop-ins and a foreign stub keep their bytes; after a failure the commands tell whether the stub is as before or the rendered one |
| `Activation.Service.Rollback` | daemon/internal/app/orchestration.go:108-121 | The deferred rollback: the site is removed, the stub goes when no other site is registered and stays when one is, and the record is deleted unless the delete itself is lost |
| `Activation.Service.TakeDown` | daemon/internal/app/orchestration.go:112-114 | Its first step: the activated site's file is gone, with the import block when it was the last |
| `Activation.Service.ReleaseStub` | daemon/internal/app/orchestration.go:115-119 | Its second step: the stub is removed exactly when no other site is registered, provided nothing fails |
| `Activation.Service.HasOtherSites` | daemon/internal/app/orchestration.go:194-205 | Answers whether a record with another ID is registered |
| `Activation.NewRecordIsCanonical` | daemon/internal/app/site_registry.go:95-134 | What registration accepts is canonical (derived name, accepted domain, the resolved root) and clashes with no record |
| `Activation.RollbackRestores` | daemon/internal/app/orchestration.go:108-121 | Removing a served site and perhaps the stub gives back the site files, the pools up to proper ones, and the root file up to the import round trip |
| `Activation.ScriptIs` | daemon/internal/app/orchestration.go:123-154 | The commands of an activation, spelled out: restart and flush the resolver; reload, test and restart the version's service; start Caddy and that service; validate and reload Caddy |
| `Services.StartAll` | daemon/internal/app/orchestration.go:165-185 | Starts the wanted services in order, each once, and stops at the first failure; the command log says which were started, one entry standing for a start and the status probe behind it |
| `Services.StartsEachOnce` | daemon/internal/app/site_management.go:253-269 | The wanted services are distinct and are exactly the non-blank trimmed names |
| `Services.CaddyComesFirst` | daemon/internal/app/orchestration.go:140-145 | Caddy is started first, then the service of the site's version |
| `Serving.WebDone` | daemon/internal/app/orchestration.go:147-154 | A completed Caddy activation over a proper pool serves the record and changes no other site |
| `Serving.MaterializeFor` | daemon/internal/app/orchestration.go:233-240 | Materialising the runtime of a record yields the proper pool file of its version, or, undone, changes nothing; no site file is touched |
| `Serving.SwitchFor` | daemon/internal/app/site_management.go:240-251 | Switching likewise; on failure the last command restarts the previous service |
| `Serving.AppliedIs` | daemon/internal/host/ubuntu/php/manager.go:107-129 | The commands of a materialisation for a supported version, spelled out |
| `Serving.ActivateRecord` | daemon/internal/app/orchestration.go:242-250 | Activating a record: success is equivalent to no failed step, serves the record over a proper pool, and leaves all other sites, pools and the stub alone in every case |
| `Serving.ReactivationRestores` | daemon/internal/app/site_management.go:94-103 | Activating the old record over the new one restores the old bytes, because the old file was the printing of the old record |
| `Serving.OthersStayMirrored` | daemon/internal/host/ubuntu/php/manager.go:72-130 | Where other site files are as before and pools as before or proper, every other mirrored record is mirrored still |
| `Serving.LateIsLeft` | daemon/internal/host/ubuntu/caddy/manager.go:363-377 | What a late write of an activated record leaves: the root file ensured, or the record's own site file, with everything else in place |
| `Serving.LateActivationKeepsInv` | daemon/internal/app/orchestration.go:89-163 | After a refused activation with a late write the host mirrors the registry if and only if the sites on it are imported: with the site file left, if and only if the root file had the import before |
| `Serving.LateChangeKeepsInv` | daemon/internal/app/site_management.go:82-89 | After a refused update or switch with a late write, the site's file is that of the refused record, and the host mirrors the registry if and only if those bytes are the old ones |
| `SiteManagement.Service.Update` | daemon/internal/app/site_management.go:47-106 | All or nothing: a kept update replaces one record by the one the input asks for, field by field (root as resolved, domain, and the version asked for or else the old one, which is registered), stamps it, and serves it, on another socket when the version changed; it issues no command when nothing the host knows changed, and otherwise the scripted ones. A refused one leaves the registry unchanged always, and the site files when every compensation took effect, or, with nothing lost but a late write, one of two named files; with no failed step the refusal is justified by request and registries alone |
| `SiteManagement.Service.PrepareUpdatedSite` | daemon/internal/app/site_management.go:108-171 | The plan is canonical, follows the input field by field, names a registered runtime and clashes with no other record; a rejection without failure has its cause in the request or the registries |
| `SiteManagement.UnexcusedExactly` | daemon/internal/app/site_management.go:108-171 | An update without a failed step has no reason to be rejected if and only if its path is not blank, its domain is a .test domain, its version is registered, and no other site has its name or domain |
| `SiteManagement.ScriptIs` | daemon/internal/app/site_management.go:68-89 | The commands of an update, spelled out, with and without a version change |
| `SiteManagement.Service.Apply` | daemon/internal/app/site_management.go:68-89 | Switch, start and serve: success issues the scripted commands and serves the new record; failure, when compensated, leaves everything untouched, and after a single failed step of a version change the previous service was restarted last or the previous version materialised last |
| `SiteManagement.Service.StartAndServe` | daemon/internal/app/site_management.go:72-89 | When a later step fails after a version change, the last thing that happens is that the previous version is materialised again and its registered service restarted |
| `SiteManagement.Service.RollbackRuntime` | daemon/internal/app/site_management.go:204-238 | Switching back writes the previous version's proper pool and runs its commands with the service registered for it, or the usual one; other files are untouched |
| `SiteManagement.FormerService` | daemon/internal/app/site_management.go:210-216 | The service registered for a version, or, when it cannot be read, the usual name |
| `SiteManagement.ServiceForIs` | daemon/internal/app/site_management.go:210-216 | The service switched back to is that of the version's registered runtime, or, without one, its usual name |
| `SiteManagement.Service.Reconfigure` | daemon/internal/app/site_management.go:68-105 | Effects, then the registry write; when only the write fails, the old site is activated again and the runtime switched back |
| `SiteManagement.Service.BackOut` | daemon/internal/app/site_management.go:95-103 | That compensation: the exact commands, and the site files as before the update |
| `SiteManagement.Reactivate` | daemon/internal/app/site_management.go:96-98 | Re-activating the previous record restores every site file, or counts as a lost compensation |
| `SiteManagement.StaysServed` | daemon/internal/app/site_management.go:58-66 | An update that leaves root, domain and version alone needs no host step: the site is still served |
| `SiteManagement.StoredIsCarried` | daemon/internal/app/site_registry.go:189-221 | The stored record keeps ID and creation time and follows the input |
| `PhpManager.Manager.SwitchSiteRuntime` | daemon/internal/app/php_manager.go:41-110 | All or nothing: a kept switch changes the version and update time of one record and nothing else, and serves it; when the version is another one, the site talks to another socket than before, which no other version's pool listens on. A refused one leaves the registry unchanged, and the site files when every compensation took effect, or, with nothing lost but a late write, one of two named files; without failed steps only an unknown site or version is refused |
| `PhpManager.Manager.Apply` | daemon/internal/app/php_manager.go:56-91 | Runtime, then site; failure, when compensated, leaves everything untouched, and after a single failed step the last command restarts the previous version's usual service |
| `PhpManager.Manager.ServeOrSwitchBack` | daemon/internal/app/php_manager.go:79-90 | First rollback path: when the site is refused, the last thing that happens is that the previous version is materialised and its usual service restarted |
| `PhpManager.Manager.BackOut` | daemon/internal/app/php_manager.go:92-107 | Second rollback path: the old record is activated again, then the service registered for the old version restarted; the site files are as before |
| `PhpManager.Unswitched` | daemon/internal/app/php_manager.go:52-54 | Asking for the version a site already has changes nothing and keeps it served |
| `PhpManager.SwitchIsCanonical` | daemon/internal/app/php_manager.go:74-93 | Writing the switched copy back keeps the registry canonical and free of duplicates |
| `Caddy.Manager.ActivateSite` | daemon/internal/host/ubuntu/caddy/manager.go:71-148 | Completes exactly when domain, root and socket are given and no step fails. Otherwise, when no restore was lost: all files are as before if no write failed late, and if one did, exactly one of two named files is left replaced. Only the root and the site's own file are ever touched; a failed call leaves one of three command tails |
| `Caddy.Manager.ReplaceSite` | daemon/internal/host/ubuntu/caddy/manager.go:94-147 | The site half of an activation, from the ensured root file |
| `Caddy.Manager.ApplySite` | daemon/internal/host/ubuntu/caddy/manager.go:116-147 | Write, validate, reload, and restore both files when any of them fails |
| `Caddy.Manager.RemoveSite` | daemon/internal/host/ubuntu/caddy/manager.go:150-211 | Completes exactly when the file is absent or managed and no step fails; a file without the marker text is refused with no change. Then the file is gone, with the import block when it was the last. Otherwise, when no restore was lost: all files are as before if no write failed late, and if one did, the site was the last, its file is back and the root file is the filtered one |
| `Caddy.Manager.DropImport` | daemon/internal/host/ubuntu/caddy/manager.go:175-210 | Removes the import block only with the last site file, and restores both files on failure |
| `Caddy.Manager.ApplyRemoval` | daemon/internal/host/ubuntu/caddy/manager.go:192-210 | Validate and reload after a removal; on failure deleted file and root file are written back |
| `Caddy.Manager.ReplaceRoot` | daemon/internal/host/ubuntu/caddy/manager.go:379-387 | The restoring helper used forwards: replaces or deletes the root file, or leaves it |
| `Caddy.Manager.Serve` | daemon/internal/host/ubuntu/caddy/manager.go:71-211 | Any sequence of calls with any failures: only the root file and the named sites' files are touched; when no restore is lost, "some site file implies the import line" holds throughout if and only if no call ended in a breaking late write; without late writes it holds throughout |
| `Caddy.Manager.Handle` | daemon/internal/host/ubuntu/caddy/manager.go:71-211 | One call is carried out, undone, or left by a late write in one of the named states |
| `Caddy.ActivatedIsImported` | daemon/internal/host/ubuntu/caddy/manager.go:71-148 | After an activation the root file holds the import line |
| `Caddy.RemovedIsImported` | daemon/internal/host/ubuntu/caddy/manager.go:150-211 | A removal keeps "some site file implies the import line" |
| `Caddy.OutcomeKeepsImport` | daemon/internal/host/ubuntu/caddy/manager.go:71-211 | One call from a state with the rule keeps it if and only if it did not end in one of the two breaking late writes |
| `Caddy.SitesAreImportedThroughout` | daemon/internal/host/ubuntu/caddy/manager.go:71-211 | Along every sequence of activations and removals, carried out, undone or left by a late write, the rule holds at every moment if and only if no step is a breaking late write |
| `Caddy.LateSiteIsImported` | daemon/internal/host/ubuntu/caddy/manager.go:116-121 | A site file left by a write that failed late keeps the rule if and only if the root file had the import |
| `Caddy.LateRemovalIsImported` | daemon/internal/host/ubuntu/caddy/manager.go:182-191 | A filtered root file left by a write that failed late keeps the rule if and only if a line outside its managed blocks held the import |
| `Caddy.LateEnsureIsImported` | daemon/internal/host/ubuntu/caddy/manager.go:84-92 | An ensured root file left by a write that failed late keeps the rule |
| `Caddy.LateWriteShows` | daemon/internal/host/ubuntu/caddy/manager.go:363-377 | A late write of an activation changes the files, except that it may rewrite a site file with the bytes it had |
| `Caddy.LateRemovalShows` | daemon/internal/host/ubuntu/caddy/manager.go:363-377 | The late write of a removal changes the root file if and only if it had a marker line or was untidy |
| `Caddy.LateRemovalBreaks` | daemon/internal/host/ubuntu/caddy/manager.go:182-191 | Witness: one line of the user's own, a site activated, its removal failing late; the import was there and is gone, the site is still there |
| `Caddy.LateSiteBreaks` | daemon/internal/host/ubuntu/caddy/manager.go:116-121 | Witness: no root file before, and none beside a site file written late |
| `Caddy.ActivateThenRemove` | daemon/internal/host/ubuntu/caddy/manager.go:150-211 | Activating a new site and removing it gives back every file, up to the import round trip of the root file |
| `HostModel.Host.WriteThenChmod` | daemon/internal/host/ubuntu/caddy/manager.go:363-377 | A Caddy write replaces its file or leaves it alone, and reports an error either before the rename or after it |
| `HostModel.Host.Undo` | daemon/internal/host/ubuntu/caddy/manager.go:379-387 | A restore whose error is dropped brings back bytes or absence, or is counted as lost; no other file is touched |
| `HostModel.Host.Write` | daemon/internal/host/ubuntu/php/manager.go:244-250 | The other adapters' write: the file is replaced and the call succeeds, or neither |
| `RootImport.RootImportRoundTrip` | daemon/internal/host/ubuntu/caddy/manager.go:279-326 | Ensuring, then removing, yields the trimmed original and one line break, or no file when it is blank, if and only if the original held no marker line; a user-written import without start marker is never removed |
| `RootImport.StrayMarkerLosesText` | daemon/internal/host/ubuntu/caddy/manager.go:279-326 | Witness: behind a stray start marker the user's own text is lost in the round trip |
| `RootImport.AbsentRootRoundTrip` | daemon/internal/host/ubuntu/caddy/manager.go:279-326 | Where there was no root file, ensuring and removing leaves none |
| `RootImport.RemoveAfterEnsure` | daemon/internal/host/ubuntu/caddy/manager.go:279-326 | For any original without import line: what exactly removal leaves after ensuring |
| `RootImport.EnsureIdempotent` | daemon/internal/host/ubuntu/caddy/manager.go:279-290 | Ensuring adds the import line, and a second time asks for no write |
| `RootImport.BlockImportsSites` | daemon/internal/host/ubuntu/caddy/manager.go:279-290 | The block adds one directive, between two comments: importing every site file, by the file-name pattern with a star for the token |
| `RootImport.RemoveIdempotent` | daemon/internal/host/ubuntu/caddy/manager.go:292-326 | Removing twice leaves what removing once leaves, and that has no marker line |
| `RootImport.FilteredImport` | daemon/internal/host/ubuntu/caddy/manager.go:292-326 | What removal leaves still has the import line if and only if a line outside the managed blocks held it |
| `RootImport.EnsuredImportsOnlyInside` | daemon/internal/host/ubuntu/caddy/manager.go:279-326 | A block just added is the only thing that imports |
| `RootImport.ImportIsEffective` | daemon/internal/host/ubuntu/caddy/manager.go:279-290 | The ensured file has the import as a line of its own if and only if the substring was absent or such a line was there |
| `RootImport.CommentedImportIsKept` | daemon/internal/host/ubuntu/caddy/manager.go:279-290 | Concrete input on which it has not: a commented-out import |
| `RootImport.FilterLines` | daemon/internal/host/ubuntu/caddy/manager.go:302-319 | The filtering loop keeps exactly the lines that are no marker and lie in no managed block |
| `RootImport.RemoveManagedRootImport` | daemon/internal/host/ubuntu/caddy/manager.go:292-326 | The whole removal: untouched without the start marker, else the surviving lines trimmed |
| `RootImport.SurvivorsInk` | daemon/internal/host/ubuntu/caddy/manager.go:302-319 | A filter that meets a marker line loses characters that are not white space, so the loss cannot be undone by trimming |
| `Tokens.CollapseDashes` | daemon/internal/host/ubuntu/caddy/manager.go:346-348 | The halving loop terminates and leaves every run of dashes as one |
| `Tokens.HalvedShrinks` | daemon/internal/host/ubuntu/caddy/manager.go:346-348 | Each round of that loop strictly shortens a text that still has a double dash |
| `Tokens.Sanitize` | daemon/internal/host/ubuntu/caddy/manager.go:342-350 | The loop-based sanitising computes the squeezed, trimmed, folded token |
| `Tokens.TokenForm` | daemon/internal/host/ubuntu/caddy/manager.go:342-350 | The closed form of sanitising: the value's core, folded and squeezed |
| `Tokens.TokenShape` | daemon/internal/host/ubuntu/caddy/manager.go:342-350 | A token is lower-case, has no separator characters, no double dash and no dash at either end |
| `Tokens.SanitizeIdempotent` | daemon/internal/host/ubuntu/caddy/manager.go:342-350 | Sanitising is idempotent if and only if the folded core has no white space at either end; a dash next to a tab is the failing family |
| `Tokens.RemoveNamesActivatedFile` | daemon/internal/host/ubuntu/caddy/manager.go:328-350 | For every ID that is not blank, the token of removal is the token of activation if and only if the ID's core has no white space at its ends, or, when the token is blank, the domain activation falls back to has that same token |
| `CaddyConfig.RemovalFindsActivatedFile` | daemon/internal/host/ubuntu/caddy/manager.go:150-164 | The same of the file that activation writes: the token of the normalised site |
| `CaddyConfig.MissedSite` | daemon/internal/host/ubuntu/caddy/manager.go:150-164 | Witness: removal misses the site with the ID "-\tdemo", whatever its domain |
| `Tokens.RecordIdToken` | daemon/internal/app/site_registry.go:381-388 | On generated record IDs sanitising is the identity, so distinct sites get distinct files and removal names the activated one |
| `CaddyConfig.SiteServesSocket` | daemon/internal/host/ubuntu/caddy/manager.go:260-277 | The socket printed into a site file is the one read back from its fastcgi line |
| `CaddyConfig.SiteReads` | daemon/internal/host/ubuntu/caddy/manager.go:260-277 | A site file, read back: under both schemes the site's domain, its unquoted public directory, its socket, the file server and compression; under https an internal certificate as well |
| `CaddyConfig.SitesTellApart` | daemon/internal/host/ubuntu/caddy/manager.go:260-277 | Two sites have the same file if and only if they have the same domain, public directory and socket |
| `CaddyConfig.QuotedReads` | daemon/internal/host/ubuntu/caddy/manager.go:260-277 | Quoting a path is undone by unquoting, control characters included |
| `CaddyConfig.SiteDefaults` | daemon/internal/host/ubuntu/caddy/manager.go:229-258 | What normalising fills in: the public directory under the root, and the domain for a missing ID |
| `SiteNames.TokenOfSpelling` | daemon/internal/host/ubuntu/caddy/manager.go:342-350 | However a plain name is spelled, padded, capitalised or with other separators, its token is the name |
| `SiteNames.NamelessToken` | daemon/internal/host/ubuntu/caddy/manager.go:328-340 | Without an ID and a domain the file is named "site" |
| `CaddyConfig.SiteIsManaged` | daemon/internal/host/ubuntu/caddy/manager.go:260-267 | Every printed site file carries the managed marker that removal demands |
| `Fpm.Manager.MaterializeRuntime` | daemon/internal/host/ubuntu/php/manager.go:72-130 | Two-file transaction: success writes pool and override, as read back from both (socket, users, socket owners, runtime directory and its mode), and issues reload, test and restart; every failure gives both files their prior bytes or absence when the restores took effect, and also when they are lost the pool is the old or the printed one; no other file is touched; failed calls leave the stated command tails |
| `Fpm.Manager.WriteAndApply` | daemon/internal/host/ubuntu/php/manager.go:98-129 | The two writes and what follows them, with the pool restored when the override cannot be written |
| `Fpm.Manager.Apply` | daemon/internal/host/ubuntu/php/manager.go:106-129 | Daemon reload, validation and restart; each failure restores both files, then reloads and restarts again |
| `Fpm.Manager.SwitchRuntime` | daemon/internal/host/ubuntu/php/manager.go:132-142 | Switching is materialising the target, with one outcome for the files; on failure the commands are those of the failed materialisation and then a restart of the previous service, when there is one |
| `Fpm.OtherPoolsStay` | daemon/internal/host/ubuntu/php/manager.go:72-142 | One materialisation never changes another version's pool file, also when it fails and restores are lost |
| `Fpm.Manager.Serve` | daemon/internal/host/ubuntu/php/manager.go:72-142 | Any sequence of materialisations and switches with any failures: the pool file of a version that none of them is about keeps its bytes |
| `Fpm.DefaultsOfVersion` | daemon/internal/host/ubuntu/php/manager.go:164-199 | What the adapter fills in for a supported version: its own service, binary, and the very socket that the sagas print into site files |
| `Fpm.GivenIsKept` | daemon/internal/host/ubuntu/php/manager.go:164-199 | What the adapter is given it keeps, trimmed |
| `PhpVersions.PoolListens` | daemon/internal/host/ubuntu/php/manager.go:225-227 | The socket printed into a pool file is the one read back from its listen line |
| `PhpVersions.PoolReads` | daemon/internal/host/ubuntu/php/manager.go:225-227 | A pool file, read back: section, users, socket, socket owners, and the process settings |
| `PhpVersions.OverrideReads` | daemon/internal/host/ubuntu/php/manager.go:229-231 | The override, read back: marker, section, runtime directory and mode |
| `PhpVersions.VersionsApart` | daemon/internal/app/orchestration.go:259-265 | Different supported versions have different sockets and services |
| `PhpVersions.NamesOfVersion` | daemon/internal/app/orchestration.go:259-265 | The socket and the service of a supported version, spelled out |
| `PhpVersions.SupportedAre` | daemon/internal/app/php_registry.go:22-27 | The matrix: major version 8, minor versions 1 to 4 |
| `PhpVersions.VersionAsTyped` | daemon/internal/app/php_registry.go:289-293 | However a supported version is written, padded, prefixed in any case, or both, it is recognised |
| `PhpVersions.SupportedFixed` | daemon/internal/host/ubuntu/php/manager.go:164-199 | Supported versions are fixed points of both normalisations, the registry's and the adapter's |
| `Resolved.Manager.EnsureTestStub` | daemon/internal/host/ubuntu/resolved/manager.go:131-162 | Succeeds exactly when no step fails, the stub's place is not taken by a file without the marker text, and neither the main configuration nor another drop-in ending in ".conf" claims the domain; then the stub is the rendered one. A conflict makes it fail with no change and no command; a compensated failure gives the stub back, except when only the closing inspection fails; other files and a foreign stub are never touched |
| `Resolved.ConflictsAre` | daemon/internal/host/ubuntu/resolved/manager.go:187-219 | What a conflict is: the stub's place taken, or a claim in the main configuration or in another drop-in ending in ".conf", and nothing else |
| `Resolved.Manager.RemoveManagedStub` | daemon/internal/host/ubuntu/resolved/manager.go:164-185 | Removes the stub unless it is foreign; on failure it is written back; the command log of every outcome |
| `Resolved.Manager.Inspect` | daemon/internal/host/ubuntu/resolved/manager.go:75-129 | Computes owner, managed flag and conflicting files of the present drop-ins |
| `Resolved.StatusMeans` | daemon/internal/host/ubuntu/resolved/manager.go:75-129 | What a status says: a conflict and where; or a free place, or the daemon's, and then whether the stub says what it should |
| `Resolved.Manager.ExternalClaimants` | daemon/internal/host/ubuntu/resolved/manager.go:187-219 | The scan finds exactly the other configuration files that claim the domain |
| `Resolved.Manager.Reload` | daemon/internal/host/ubuntu/resolved/manager.go:221-233 | Restart, then flush; on failure it stops there |
| `Resolved.StatusAfterWrite` | daemon/internal/host/ubuntu/resolved/manager.go:75-162 | A stub just written re-inspects without conflict, and as managed if and only if the requested domain's leading dot is not followed by another dot or by white space |
| `ResolverStub.NormalTwice` | daemon/internal/host/ubuntu/resolved/manager.go:235-247 | Normalising a second time changes a specification if and only if its domain was dotted like that |
| `Resolved.SecondManagerRefuses` | daemon/internal/host/ubuntu/resolved/manager.go:187-219 | A second manager with another stub path over the same drop-ins refuses, for every address, when the domain has no inner white space and no leading dot; with a leading dot the first one's claim is found if and only if a further line of its address makes it |
| `Resolved.Manager.Serve` | daemon/internal/host/ubuntu/resolved/manager.go:131-185 | Over any sequence of ensuring and removing calls with any failures, at every moment every other file, and a stub foreign at the start, has its bytes, and a call that conflicts changes nothing |
| `Resolved.ForeignFilesAreSafe` | daemon/internal/host/ubuntu/resolved/manager.go:131-185 | Along every sequence of states in which each step respects foreign files, all of them do |
| `ResolverStub.StubClaimsItsDomain` | daemon/internal/host/ubuntu/resolved/manager.go:249-274 | Printer and recogniser agree, for every domain and address: one without white space is claimed by its rendered stub if and only if it has no leading dot or a further line of the address claims it; one with inner white space never is; one behind white space if and only if it is a single dot or a further line of the address claims it |
| `ResolverStub.DottedStub` | daemon/internal/host/ubuntu/resolved/manager.go:249-274 | Witness: the stub for "..test" is not recognised |
| `ResolverStub.SpacedStub` | daemon/internal/host/ubuntu/resolved/manager.go:249-274 | Witness: nor is the stub for "a b" |
| `ResolverStub.PaddedDotStub` | daemon/internal/host/ubuntu/resolved/manager.go:249-274 | Witness: the stub for ". ." is recognised although its domain has white space in front |
| `ResolverStub.SpreadDomainClaims` | daemon/internal/host/ubuntu/resolved/manager.go:253-274 | What the lines of a domain behind white space, line breaks included, claim |
| `ResolverStub.StubIsManaged` | daemon/internal/host/ubuntu/resolved/manager.go:249-278 | Every rendered stub is recognised as managed |
| `ResolverStub.FileClaims` | daemon/internal/host/ubuntu/resolved/manager.go:253-274 | Any file with the routing domain among the words of an entry, on any line, key and domain in any case, claims the domain |
| `ResolverStub.DomainsEntry` | daemon/internal/host/ubuntu/resolved/manager.go:253-274 | An entry claims what is among its words, and nothing else |
| `ResolverStub.OthersClaimNothing` | daemon/internal/host/ubuntu/resolved/manager.go:253-274 | A comment claims nothing, nor does an entry with another key |
| `ResolverStub.StubReads` | daemon/internal/host/ubuntu/resolved/manager.go:249-251 | The lines of a rendered stub, spelled out |
| `ResolverStub.NormalFill` | daemon/internal/host/ubuntu/resolved/manager.go:235-247 | What a specification becomes: its domain lower-cased without a leading dot, and "test" on 127.0.0.1 where it says nothing |
| `ResolverStub.TrimmedStub` | daemon/internal/host/ubuntu/resolved/manager.go:105-112 | The trimmed rendering ends in the domain, so two trimmed stubs of one address agree only for one domain |
| `SiteRegistry.Registry.Register` | daemon/internal/app/site_registry.go:79-140 | Appends exactly the new record, or refuses with the first reason in the code's order; a refusal leaves the registry unchanged |
| `SiteRegistry.AcceptedExactly` | daemon/internal/app/site_registry.go:79-140 | Registration has no reason to refuse if and only if the path is not blank, the domain, or the one made from the derived name, is a .test domain, and nobody else has the name or the domain, ignoring case |
| `SiteRegistry.Registry.FindClash` | daemon/internal/app/site_registry.go:109-119 | The loop returns the first clash in list order, name before domain |
| `SiteRegistry.NoClash` | daemon/internal/app/site_registry.go:109-119 | There is no clash if and only if no other record has the name or the domain, ignoring case |
| `SiteRegistry.ClashReason` | daemon/internal/app/site_registry.go:109-119 | A refusal for a duplicate names what is duplicated |
| `SiteRegistry.Registry.List` | daemon/internal/app/site_registry.go:142-163 | A copy sorted by domain; the registry itself keeps its order |
| `SiteRegistry.ListIsSorted` | daemon/internal/app/site_registry.go:142-163 | The listing has exactly the registered records, by ascending domain |
| `SiteRegistry.Registry.Get` | daemon/internal/app/site_registry.go:165-187 | The first record with the ID, or not found |
| `SiteRegistry.Registry.Update` | daemon/internal/app/site_registry.go:189-221 | The record replaces the first one with its ID, keeps that one's creation time, and is otherwise as given |
| `SiteRegistry.StoreSpares` | daemon/internal/app/site_registry.go:189-221 | Storing replaces one record, keeps when it was created, stamps it, and spares the rest |
| `SiteRegistry.Registry.Delete` | daemon/internal/app/site_registry.go:223-248 | Splices out the first record with the ID and nothing else |
| `SiteRegistry.DeleteSpares` | daemon/internal/app/site_registry.go:223-248 | Deleting takes out one record and spares the rest |
| `Order.SortMultiset` | daemon/internal/app/site_registry.go:158-160 | Sorting permutes |
| `Order.SortAscending` | daemon/internal/app/php_registry.go:123-125 | Sorting records with distinct keys gives a strictly ascending list |
| `Order.LessLaw` | daemon/internal/app/site_registry.go:158-160 | The order of the listing: by the first difference, a proper prefix first |
| `Text.FoldLaw` | daemon/internal/app/site_registry.go:109-119 | Equality ignoring case: letter by letter the same, or the same letter in the other case |
| `SiteNames.DerivedNameIsLabel` | daemon/internal/app/site_registry.go:352-379 | Every derived name is a valid label without a double dash |
| `SiteNames.DeriveIdempotent` | daemon/internal/app/site_registry.go:352-379 | Deriving a name from a derived name gives it back |
| `SiteNames.NamedAfterLast` | daemon/internal/app/site_registry.go:352-379 | A project is named after the last element of its path, trailing slashes aside, in whatever spelling: capitals become letters, underscores, spaces and dots become dashes |
| `SiteNames.RootIsNamedSite` | daemon/internal/app/site_registry.go:352-379 | A path without an element of its own is named "site" |
| `SiteNames.DerivedNameRegisters` | daemon/internal/app/site_registry.go:328-350 | A blank domain never fails: it becomes the derived name under .test |
| `SiteNames.BuildSlug` | daemon/internal/app/site_registry.go:360-373 | The builder loop with its last-dash flag computes the kept characters, squeezed and trimmed |
| `SiteNames.DeriveName` | daemon/internal/app/site_registry.go:352-379 | The imperative derivation computes the specified name |
| `SiteNames.DomainAccepted` | daemon/internal/app/site_registry.go:328-350 | A domain is accepted if and only if, trimmed and lower-cased, it is a non-empty dot-joined sequence of valid labels followed by .test (labels as in section 2.1 of RFC 1123, the suffix reserved in section 6.2 of RFC 6761) |
| `SiteNames.DomainIdempotent` | daemon/internal/app/site_registry.go:328-350 | Accepted domains are fixed points, whatever the fallback name |
| `SiteNames.DomainAsTyped` | daemon/internal/app/site_registry.go:328-350 | A .test domain is accepted in any case and padding, and kept lower-cased |
| `SiteNames.LabelsAre` | daemon/internal/app/site_registry.go:328-350 | Labels, character by character |
| `SiteNames.DomainCanonical` | daemon/internal/app/site_registry.go:328-350 | Accepted domains are lower-case, trimmed and made of label characters and dots |
| `SiteNames.LongLabelsAreAccepted` | daemon/internal/app/site_registry.go:328-350 | A label of any length makes an accepted domain |
| `SiteNames.FoldIsEquality` | daemon/internal/app/site_registry.go:109-119 | On lower-case strings the case-insensitive comparison is equality |
| `PhpRegistry.RunsAreConsistent` | daemon/internal/app/php_registry.go:68-149 | After any sequence of registrations and default changes: versions strictly ascending and supported, the default a member as soon as one runtime exists; all versions literally in the matrix if and only if every registered one was |
| `PhpRegistry.RecordedConsistent` | daemon/internal/app/php_registry.go:99-125 | Registering changes the entry of its version and no other |
| `PhpRegistry.DefaultIsKept` | daemon/internal/app/php_registry.go:119-121 | A registration keeps a default that is there, and becomes the default where there was none |
| `PhpRegistry.AcceptedInMatrix` | daemon/internal/app/php_registry.go:267-293 | An accepted version is in the matrix if and only if its text has no second "php" prefix behind the first |
| `PhpRegistry.DoubledPrefix` | daemon/internal/app/php_registry.go:267-293 | Witness: "phpphp8.2" is accepted as "php8.2", which is not in the matrix |
| `PhpRegistry.OpKeepsMatrix` | daemon/internal/app/php_registry.go:68-149 | Registering what a version probe prints, and choosing a default, keep the versions in the matrix |
| `PhpRegistry.OpKeepsVersions` | daemon/internal/app/php_registry.go:68-149 | Neither a registration nor a change of default takes a registered version away |
| `PhpVersions.NormalizeIdempotent` | daemon/internal/app/php_registry.go:289-293 | Version normalisation is idempotent on a text if and only if, trimmed and lower-cased, it has no second "php" prefix behind the first and white space |
| `PhpRegistry.Registry.Register` | daemon/internal/app/php_registry.go:68-149 | Registers exactly the executable, supported runtimes whose probed version is the requested one or none was requested; the state is then the old one with that record; a refusal changes nothing |
| `PhpRegistry.Registry.Amended` | daemon/internal/app/php_registry.go:107-125 | The replace-or-append loop, the default and the sort |
| `PhpRegistry.Registry.Get` | daemon/internal/app/php_registry.go:184-207 | The record of a version, or not found |
| `PhpRegistry.Registry.DefaultRuntime` | daemon/internal/app/php_registry.go:209-235 | With a consistent registry, not found means that no runtime is registered |
| `PhpRegistry.Registry.Resolve` | daemon/internal/app/orchestration.go:187-192 | The default runtime for a blank version, else the named one |
| `PhpRegistry.MissingIs` | daemon/internal/app/php_registry.go:184-235 | A runtime is missing when its version has no record, or, for a blank version, when there is none at all |
| `PhpRegistry.Registry.SetDefault` | daemon/internal/app/php_registry.go:237-265 | Sets the default exactly to a registered version, else changes nothing |
| `Interleaving.NeverDuplicates` | daemon/internal/app/site_registry.go:79-140 | In every interleaving of activations and switches at registry-lock granularity, no two sites share an ID, a name or a domain |
| `Interleaving.IdentityNeverChanges` | daemon/internal/app/php_manager.go:41-110 | In every such interleaving all records ever seen under one ID have one name, domain, root and creation time |
| `Interleaving.DeletedStaysDeleted` | daemon/internal/app/site_registry.go:189-248 | A record deleted by a rollback is never resurrected by a delayed write |
| `Interleaving.CompletedForGood` | daemon/internal/app/site_registry.go:223-248 | In every interleaving the record of a completed activation stays registered for good: no other request's rollback takes it away |
| `Interleaving.SettledStays` | daemon/internal/app/site_registry.go:79-248 | No single step of any request takes away a record that no running request activates or rolls back |
| `Interleaving.NextOwnedOnce` | daemon/internal/app/orchestration.go:98-121 | No two requests ever own one record |
| `Interleaving.NextSafe` | daemon/internal/app/site_registry.go:79-248 | Each single registry step keeps the invariant and the memory of issued IDs |
| `Interleaving.UpdateWriteIsSafe` | daemon/internal/app/site_management.go:108-171 | The separate write of an update keeps the registry free of duplicates if and only if name and domain are still unclaimed at that moment |
| `Interleaving.UpdatesRace` | daemon/internal/app/site_management.go:47-171 | Concrete interleaving: from the empty registry two activations complete, two updates check and then write, and two sites have one domain |
| `StateStore.StateFile.Save` | daemon/internal/app/state_store.go:32-52 | A save that is complete, fails, or is cut short after any step leaves the state file at the value of the last rename |
| `StateStore.StateFile.Load` | daemon/internal/app/state_store.go:11-30 | A load returns the value of the last completed rename, whatever the temporary file holds |
| `StateStore.InterpretMeans` | daemon/internal/app/state_store.go:11-30 | An empty file counts as absent; one that does not decode is reported, and never taken for a state |
| `StateStore.StateFile.SaveAll` | daemon/internal/app/state_store.go:11-52 | After any sequence of saves from any valid file, each perhaps cut short, a load returns the last renamed value, or, without a rename, what was there before |
| `StateStore.StateFile.WriteTemp` | daemon/internal/app/state_store.go:42-46 | A completed write of the temporary file holds the whole payload; a torn one never reaches the rename |

## Left out

- Modes, ownership and leftover temporary files: claims cover bytes, and `Write` hides the temporary file of the adapters.
- Path cleaning, absolute paths and symbolic links: where a path leads is a parameter of each request, any absolute path, and
  joining is plain concatenation, so a root that ends in a slash prints a doubled slash that the original would clean.
- Project and public-directory checks: each is one step that may fail.
- The order and the reasons in a resolver status: conflicting files form a set.
- Status values, messages and TLS flags of records: they do not reach the host, except that the update time is modelled.
- `sort.Slice`: modelled as an insertion sort; the order among equal keys, which Go leaves open, is fixed here.
- Daemon.Daemon.Serve: one clock value serves both time stamps of an activation, because no claim depends on their order.
- Worlds.UndoneKeepsInv: an undone request may leave a proper pool file of another version and the import in the root
  file behind, as the code does, so these two are restored up to that and not byte for byte.
- Activation.Service.Activate: what becomes of the stub is told for a single failed step; after several, the rollback itself
  may be among them, and the claim is that the stub is never missing while sites exist.
- Interleaving: the adapters take no lock, so concurrent host effects are outside the model; only registry operations
  interleave.
- `SetStatus`, the public `Validate` of Caddy and `RemoveRuntime` of the PHP adapter: no saga calls them.
- Optional collaborators that are absent, and the fallback that restarts a service when no PHP adapter is wired.
- Services.StartAll: the status probe that the service controller adds to each start or restart has no entry of its own in
  the command log; its failure is a failure of the logged command.
- Cancellation in the middle of a request.
- HTTP routing, the Unix socket, the desktop client, the package catalogue, health reports and runtime onboarding: plumbing,
  or single-branch mappings without a transaction.
- Uninstall scripts: they look only for the `#` marker while pool files carry `;`, so nothing is claimed about them.

# Verified model of the PrismPanel daemon's core

This Dafny project models the parts of PrismPanel whose correctness is hardest to see from the code, and proves
what they are for. `dafny verify dfyconfig.toml` checks everything.

- **Firewall** (`Ports`, `Prefixes`, `Rules`, `Conflicts`, `Renderer`, `Whitelist`, `FirewallService`): rules are normalised,
  checked for overlap and compiled to a first-match nftables chain; a service installs the chain through a backend
  that may fail at any call, detects edits made by others, and mirrors timed grants in a kernel set.
- **Files** (`FileTree`, `Recycle`, `Upload`, `Workspace`, `UploadClient`, `Extract`): a workspace is a tree of paths on
  a disk whose calls may fail at will. On it run the recycle bin, the publications that go through it, the resumable
  chunked upload with its browser client, and the merge of an extracted archive; runs of file requests and any number of
  upload sessions conserve files.
- **Deployment** (`Deployments`, `Reservation`, `DeployFiles`, `DeploySwap`, `Properties`): the task state machine and
  the reservation of instances as interleaved steps of many threads, and the building and exchange of an instance
  directory with every failure point.
- **Codecs** (`Words`, `Fips180`, `Sha256`, `StreamCipher`, `ZipCrypto`, `ZipReader`, `X19`): the browser's SHA-256
  against FIPS 180-4, the archive reader against section 6.1 of APPNOTE.TXT, and the X19 envelope, whose CBC mode is
  section 6.2 of NIST SP 800-38A.
- **Operators** (`Operators`): the registry that merges the operator lists of several panels.

Objects whose methods change fields in the source are classes here (`Service`, `Kernel`, `FileService`,
`UploadSession`, `Extraction`, `Deployer`, `ZipCryptoReader`, `Registry`); their contracts state the whole new state or
tie it to a specification about which the lemmas speak. Failures, the passing of time, edits by others, lost requests
and lost answers are nondeterministic choices in the bodies, so each theorem holds for all of them. Calls that fail at
will are counted (`Disk.faults`, `Kernel.faults`, and `Input.breaks` of an archive's bytes). What must hold whatever
fails is promised without the count; with it the contracts also say when an operation goes through, or with which error
it is refused, if no call fails, and what is still put back after one failing call.

## What the proofs found

Some properties one would expect do not hold of the code. Each is stated as an exact condition, with a concrete
failing input where one is short.

- The final drop rule merges the protected ports of all rules in rule order without sorting them. The chain equals the
  declared whitelist exactly when each protocol's concatenated ranges ascend (`Whitelist.ChainIsWhitelistIffAscending`);
  two validated rules for ports 20000 and 3000 leave 3000 open to everyone (`Whitelist.DescendingRulesLeavePortOpen`).
- A mutation goes on when the opening inspection failed. What gets installed is then what the policy asks for exactly
  when the remembered presence of the table is right, or the table it does not know of holds nothing that would stay
  (`FirewallService.InstallsDesiredIffPresenceKnown`, `FirewallService.StalePresenceKeepsForeignRule`).
- Lowering the grant TTL and granting again shortens the kernel timeout of an address that was promised longer. After
  a grant the kernel covers every recorded grant exactly when none of that address outlives the new element
  (`FirewallService.Service.GrantDirectAccess`, `FirewallService.LoweredTtlUncovers`).
- `publishWithRecycle` publishes when the move to the bin reports that something does not exist, even if the target
  does. `Save` then overwrites the file for good: its contract says that a save without a recycled target loses the old
  content whenever no other name holds it, and that this takes a failing call (`Recycle.FileService.Save`,
  `Recycle.OverwritingLosesFile`).
- A retried chunk that the stored bytes end in is accepted exactly when the missing part is zero bytes, so an
  acknowledged offset may exceed what is stored (`Upload.RetryAcceptedIff`, `Upload.AckBeyondStored`). Publication is
  still safe because of the final size check.
- The client loop is bounded by the setbacks it meets, and endless against a node that keeps forgetting the session
  (`UploadClient.LoopIsBounded`, `UploadClient.ForgetfulNodeNeverEnds`).
- The browser's SHA-256 padding is the standard's exactly for messages below 2^29 bytes (`Sha256.PaddingAgreesIff`).
- Removing a panel's operators leaves no tombstone: an older update is taken in afterwards
  (`Operators.StaleAfterRemoval`).
- A deployment restores excluded paths only if the excludes hold at least one file; empty excluded directories are
  dropped otherwise (`DeployFiles.ExcludesKeptIff`).
- A failure of the last rename of a deployment leaves the recycle bin in the temporary directory, whose removal then
  destroys it (`DeployFiles.Deployer.Deploy`); and a successful deployment keeps the bin exactly if the check of the backup
  saw it, because an error of that check counts as absence (`DeployFiles.BinKeptIff`). Without a failing call neither happens.

## Model

| member | source | states |
|---|---|---|
| Ports.MergePortRanges | daemon/internal/firewall/service.go:590-605 | computes the merge specification, for any order of the input |
| Ports.MergeAddsNothing | daemon/internal/firewall/service.go:590-605 | the merged ranges cover no port the input does not, whatever its order |
| Ports.MergeLosesNothing | daemon/internal/firewall/service.go:590-605 | an ascending input loses no port |
| Ports.MergeLeavesGaps | daemon/internal/firewall/service.go:590-605 | consecutive merged ranges leave at least one port between them |
| Ports.DescentLosesPort | daemon/internal/firewall/service.go:590-605 | of two disjoint ranges in descending order the merge loses a port |
| Ports.MergeFaithfulIffAscending | daemon/internal/firewall/service.go:590-605 | for pairwise disjoint ranges, merging keeps exactly the ports if and only if they ascend |
| Ports.NormalizeKeepsCoverage | daemon/internal/firewall/service.go:514-515 | sorting and merging keeps exactly the ports and gives gapped, non-empty ranges |
| Ports.NormalizeIsCanonical | daemon/internal/firewall/service.go:514-515 | two inputs get equal normal forms if and only if they cover the same ports |
| Ports.AdjacentConflict | daemon/internal/firewall/service.go:483-490 | after sorting, the check of neighbours reports a conflict if and only if two ranges share a port |
| Prefixes.NestedOrDisjoint | daemon/internal/firewall/renderer.go:143-144 | testing one base address decides whether a block is contained in a shorter-prefix one or shares nothing with it |
| Prefixes.CompactPrefixes | daemon/internal/firewall/renderer.go:133-158 | the loop computes the compaction specification |
| Prefixes.CompactKeepsAddresses | daemon/internal/firewall/renderer.go:133-158 | the result matches exactly the addresses of the input and its blocks are pairwise disjoint |
| Prefixes.CompactIsMaximal | daemon/internal/firewall/renderer.go:133-158 | a prefix is kept if and only if no other input prefix contains it |
| Prefixes.CompactDependsOnSet | daemon/internal/firewall/renderer.go:133-158 | inputs with the same prefixes, in any order and number, give the same result |
| Prefixes.SplitPrefixes | daemon/internal/firewall/renderer.go:116-131 | gives the compacted IPv4 and IPv6 sources |
| Prefixes.SplitMatches | daemon/internal/firewall/renderer.go:116-131 | an address of a family matches the family's list if and only if it matches the sources |
| Rules.NormalizeProtocols | daemon/internal/firewall/service.go:530-545 | exactly the protocols named, TCP before UDP, each once |
| Rules.NormalizeSources | daemon/internal/firewall/service.go:547-579 | succeeds if and only if every source is usable, with exactly the masked prefixes named, sorted and once each |
| Rules.NormalizeRule | daemon/internal/firewall/service.go:494-528 | succeeds if and only if the input is acceptable; the rule is normal, covers the same ports and names the same sources and protocols |
| Rules.NormalRuleIsFixed | daemon/internal/firewall/service.go:494-528 | a normal rule is its own normal form |
| Rules.NormalRuleIsAcceptable | daemon/internal/firewall/service.go:471-475 | a normal rule is accepted again when the state is validated |
| Rules.GlobalIsUnspecified | daemon/internal/firewall/service.go:565-570 | a prefix of zero bits is rejected as unspecified already, so the check for it never decides |
| Rules.CheckRules | daemon/internal/firewall/service.go:461-482 | succeeds if and only if ids are present and distinct and every rule is acceptable; collects the enabled ranges by protocol |
| Rules.ValidateState | daemon/internal/firewall/service.go:447-492 | accepts exactly the states with the right schema, acceptable system settings and rules, and no port shared by enabled rules of one protocol |
| Conflicts.DisjointIffNoneMeet | daemon/internal/firewall/service.go:476-491 | of rules in normal form the sorted ranges are free of conflicts if and only if no two enabled rules own the same port of a protocol |
| Conflicts.FitMore | daemon/internal/firewall/service.go:177-180 | a rule can join a valid policy if and only if its id is new and it shares no port with a rule that is there |
| Conflicts.FitReplaced | daemon/internal/firewall/service.go:197-205 | it can replace the rule of its id if and only if it shares no port with another one |
| Renderer.StateActive | daemon/internal/firewall/renderer.go:83-93 | true if and only if protection is on or some rule is enabled |
| Renderer.FormatDuration | daemon/internal/firewall/renderer.go:194-197 | the least whole number of seconds, at least one, not below the duration |
| Renderer.RemainingByAddress | daemon/internal/firewall/renderer.go:160-175 | per address, the longest remaining life of its unexpired grants |
| Renderer.ActiveGrantElements | daemon/internal/firewall/renderer.go:160-192 | elements exactly for the addresses of unexpired grants, split by family |
| Renderer.RenderRule | daemon/internal/firewall/renderer.go:56-69 | the accept rules and protected ranges of one rule |
| Renderer.RenderRules | daemon/internal/firewall/renderer.go:51-70 | the accept rules and protected ranges of all enabled rules, in order |
| Renderer.RenderScript | daemon/internal/firewall/renderer.go:14-81 | the script that the rendering specification describes |
| Whitelist.ChainVerdict | daemon/internal/firewall/renderer.go:39-77 | the first matching rule of the chain, for every packet, in terms of the policy |
| Whitelist.OwnerIsUnique | daemon/internal/firewall/service.go:483-490 | in a validated policy at most one enabled rule owns a protocol and port |
| Whitelist.WhitelistedIsAccepted | daemon/internal/firewall/renderer.go:14-81 | every whitelisted packet is accepted, for any order of the rules |
| Whitelist.AcceptedIsWhitelisted | daemon/internal/firewall/renderer.go:14-81 | when the protected ranges ascend, every accepted packet is whitelisted |
| Whitelist.ChainIsWhitelistIffAscending | daemon/internal/firewall/renderer.go:71-77 | the rendered chain equals the declared whitelist for every packet and grant set if and only if the protected ranges of each protocol ascend |
| Whitelist.DescendingRulesAreValid | daemon/internal/firewall/service.go:447-492 | the two rules of the counterexample pass validation |
| Whitelist.DescendingRulesLeavePortOpen | daemon/internal/firewall/renderer.go:71-77 | under them no rule drops a packet to TCP port 3000 |
| FirewallService.RenderingIsDesired | daemon/internal/firewall/renderer.go:14-81 | a rendered table is the desired one up to grant elements |
| FirewallService.InstallsDesiredIffPresenceKnown | daemon/internal/firewall/service.go:411-422 | a script that takes effect leaves what the policy asks for if and only if the remembered presence of the table is right, or the table it did not know of is without rules and controls that would stay |
| FirewallService.StalePresenceKeepsForeignRule | daemon/internal/firewall/service.go:411-422 | with a stale absence a foreign rule stays in the chain |
| FirewallService.Kernel.Apply | daemon/internal/firewall/backend_linux.go:53-64 | a script takes effect as a whole or not at all; unless the call fails, it is refused only if it deletes a missing table |
| FirewallService.Kernel.AddGrant | daemon/internal/firewall/backend_linux.go:66-106 | success gives the address a fresh timeout from an instant during the call; failure changes no element; unless a call fails, it succeeds if and only if the grant sets are there |
| FirewallService.Kernel.ResetElement | daemon/internal/firewall/backend_linux.go:90-106 | replaces an existing element in one step or tells that it is missing |
| FirewallService.Kernel.RemoveGrant | daemon/internal/firewall/backend_linux.go:108-127 | success leaves no element for the address and all others alone |
| FirewallService.RenewalCoversIff | daemon/internal/firewall/service.go:299-305 | when the grants of the other addresses are covered, renewing an address covers every grant if and only if none of its own was promised longer |
| FirewallService.LoweredTtlUncovers | daemon/internal/firewall/service.go:299-305 | a concrete renewal under a lowered TTL uncovers a grant |
| FirewallService.RenderedElementsCover | daemon/internal/firewall/renderer.go:160-197 | re-rendered elements live at least as long as every unexpired grant, rounding included |
| FirewallService.Service.RefreshObserved | daemon/internal/firewall/service.go:394-409 | after an inspection, drift is set if and only if the kernel table differs from the recorded one, and without drift the table is the desired one |
| FirewallService.Service.PrepareMutation | daemon/internal/firewall/service.go:359-371 | passing means the expected revision is current and, if the inspection succeeded, that the table is the desired one; if no call fails, it is refused exactly for drift, then for another revision |
| FirewallService.Service.InstallCandidate | daemon/internal/firewall/service.go:411-422 | failure leaves the kernel as it was; success installs the candidate's table if presence was known; a candidate is rejected as invalid if and only if validation does not accept it |
| FirewallService.Service.ApplyCandidate | daemon/internal/firewall/service.go:411-445 | records the candidate only when applied, inspected and saved; with known presence nothing but an invalid candidate or a failing call stops it |
| FirewallService.Service.CommitRules | daemon/internal/firewall/service.go:177-182 | commits at most once per revision, raises it by one, and installs the desired table; other normal rules are refused as invalid if and only if their ids or ports clash |
| FirewallService.Service.CreateRule | daemon/internal/firewall/service.go:161-184 | one rule more, answering the input; at most one mutation per expected revision; grants stay covered; if no call fails, it commits if and only if there is no drift, the revision is current, the input is acceptable, its id new and its ports free, and otherwise the error is the first of these |
| FirewallService.Service.UpdateRule | daemon/internal/firewall/service.go:186-209 | only the rule with the id changes, and answers the input; if no call fails, the answer is exactly that of the checks in their order, and the rule is reported missing only if it is |
| FirewallService.Service.DeleteRule | daemon/internal/firewall/service.go:211-228 | exactly that rule is gone; if no call fails, it commits if and only if there is no drift, the revision is current and the rule is there |
| FirewallService.Service.ConfigureSystem | daemon/internal/firewall/service.go:230-266 | the new settings with normalised controls; grants stay covered unless the TTL is lowered; if no call fails, it commits if and only if there is no drift, the revision is current and sources and TTL are acceptable, with a source left while protection is on |
| FirewallService.Service.Initialize | daemon/internal/firewall/service.go:125-140 | never touches an existing table; when it is done and could inspect, a table that was missing is the desired one, under the same revision; if no call fails, it is done and could |
| FirewallService.Service.GrantDirectAccess | daemon/internal/firewall/service.go:268-307 | the grant runs a full TTL and the kernel holds its address from then until the TTL has passed; no other grant changes; if all grants were covered before, they are afterwards if and only if none of that address outlives the element; if no call fails, the answer is that of the checks in their order, and a new grant is refused for their number only at 2048 unexpired ones |
| FirewallService.Service.AddGrant | daemon/internal/firewall/service.go:293-306 | the recording half of a grant, with failure leaving every other grant covered; refused for too many exactly if the grant is new and 2048 unexpired ones exist |
| FirewallService.Service.RevokeSessionGrants | daemon/internal/firewall/service.go:309-357 | exactly the session's grants go, and exactly the addresses no other grant uses leave the kernel set; if no call fails, only drift stops it |
| FirewallService.Service.View | daemon/internal/firewall/service.go:149-159 | shows exactly the unexpired grants; without error and drift the installed table is the desired one; if no call fails, drift is shown if and only if there is some |
| FirewallService.RevisionCountsCommits | daemon/internal/firewall/service.go:161-266 | over any run the revision has risen by the number of mutations that committed |
| FirewallService.CommitsDiffer | daemon/internal/firewall/service.go:359-371 | of two mutations that commit in a run the later carried the higher expected revision, so no two carried the same |
| FirewallService.Serve | daemon/internal/firewall/service.go:125-371 | any run with failures and outside edits is a trace in which each committed mutation carried the revision it met, raised it by one and did what it asked for to the policy, and nothing else touches either; where no call failed, a mutation committed if and only if the table was unedited, its revision current and its request possible; at most 2048 grants exist; while nobody edits, the TTL is not lowered and revocations succeed, every unexpired grant stays in the kernel set; while each mutation can inspect first, the recorded state stays one that was applied knowing what was there |
| FirewallService.Watch | daemon/internal/firewall/service.go:394-409 | after a run in which each mutation could inspect first, a status without error and drift means the installed table is the one the recorded policy asks for |
| FileTree.MoveBack | daemon/internal/files/recycle.go:213-238 | moving to a free place and back is the identity on a tree |
| FileTree.MovedKeepsFiles | daemon/internal/files/recycle.go:148-192 | a rename onto nothing loses no file |
| FileTree.Disk.Rename | daemon/internal/files/recycle.go:184-190 | all or nothing; replaces at most a file by a file; unless the call fails, it succeeds exactly if the source and the parent of the destination are there and only a file replaces a file |
| FileTree.Disk.RemoveAll | daemon/internal/files/recycle.go:102-141 | removes only below the path; unless the call fails, everything below it; on failure an arbitrary part may stay |
| Recycle.FileService.SecurePath | daemon/internal/files/service.go:990-1036 | a path that passes is outside the bin, no symbolic link, and has its directory; if no call fails, exactly these pass |
| Recycle.FileService.EnsureRecycleBin | daemon/internal/files/recycle.go:240-256 | adds the bin and nothing else |
| Recycle.FileService.MoveToRecycleBin | daemon/internal/files/recycle.go:148-192 | success is exactly the recycled tree; failure changes nothing outside the bin and loses nothing; if no call fails, it succeeds if and only if the target is there, no symbolic link and outside the bin, and the entry is free |
| Recycle.RecycledFacts | daemon/internal/files/recycle.go:148-192 | recycling keeps every file |
| Recycle.RestoreUndoesRecycle | daemon/internal/files/recycle.go:148-238 | delete then restore is the identity on the tree, but for the bin directory |
| Recycle.RestoreKeepsFiles | daemon/internal/files/recycle.go:213-238 | restoring to a free place loses no file |
| Recycle.RestoreKeepsVisible | daemon/internal/files/recycle.go:213-238 | restoring takes nothing away outside the bin |
| Recycle.FileService.LocateRecycleEntry | daemon/internal/files/recycle.go:258-292 | a located entry has a manifest and content of the recorded kind; if no call fails, every such entry is located |
| Recycle.FileService.RestoreEntry | daemon/internal/files/recycle.go:70-100 | success is exactly the restored tree; no outcome loses a file or takes anything visible away; if no call fails, it succeeds if and only if the entry is located and its place is free |
| Recycle.OverwritingLosesFile | daemon/internal/files/recycle.go:195-211 | publishing over a file that was not recycled loses it unless it has a second name |
| Recycle.UndoneIsUnchanged | daemon/internal/files/recycle.go:205-210 | a failed publication whose restore works leaves the original tree |
| Recycle.FileService.PublishWithRecycle | daemon/internal/files/recycle.go:195-211 | the target is in the bin before the publication, or untouched; no file is lost unless an existing target was not recycled; if no call fails, an existing target is recycled and the publication goes through if and only if it can; one failing call after the recycling, and the original tree is back unless something new has taken the place |
| Recycle.FileService.UndoRecycle | daemon/internal/files/recycle.go:205-210 | restoring succeeds with the original tree or loses no file; if no call fails and nothing is in the place, it succeeds |
| Recycle.FileService.Save | daemon/internal/files/service.go:250-295 | replaces exactly the expected version and nothing else visible; when no other name holds the old content, a successful save loses it if and only if it was not recycled; if no call fails, it succeeds if and only if the version is the expected one and can be recycled, and then it is recycled; at most one failing call, and a failed save of a recycled target leaves the original tree |
| Recycle.SavedFacts | daemon/internal/files/service.go:250-295 | what a save did to the tree, recycled or not |
| Recycle.FileService.EnsureUploadParent | daemon/internal/files/service.go:1038-1064 | only missing directories above the target are added; if no call fails, they are there afterwards unless something is in the way |
| Recycle.FileService.Upload | daemon/internal/files/service.go:341-427 | no file is lost; success means the target holds exactly the source, of the authorised size and digest, and could be replaced; if no call fails, these conditions suffice |
| Recycle.FileService.Delete | daemon/internal/files/service.go:863-892 | exactly a prefix of the paths went to the bin; all of them on success; no file is lost; if no call fails, it stops only at a path that may not be deleted |
| Recycle.FileService.RecycleDelete | daemon/internal/files/recycle.go:102-122 | only entries named are removed, exactly the first ones unless a removal fails half way; what is outside the bin stays; if no call fails, it stops only at a name without an entry |
| Recycle.FileService.RecycleClear | daemon/internal/files/recycle.go:124-141 | what is outside the bin stays, and on success nothing in it; if no call fails, it succeeds unless something else is in the bin's place |
| Recycle.FileService.Serve | daemon/internal/files/recycle.go:70-238 | one request of any kind: done, it has done what it asks for; if no call fails, it is refused only for a reason; at most the file a save wrote over unrecycled, which takes a failing call, or what lies in purged entries, is lost |
| Workspace.HandleEvent | daemon/internal/files/service.go:429-741 | a file request or a step of any upload session does its work and loses at most what it puts at risk: a save only when a call failed and the bin missed its target, an upload only its own temporary file |
| Workspace.Run | daemon/internal/files/recycle.go:70-238 | any run of file requests and upload steps, with any failures, is a history in which each event does its work and loses at most what it puts at risk |
| Workspace.LostAtRisk | daemon/internal/files/recycle.go:70-238 | a file that is nowhere at the end of a history left with a save over its path during which a call failed and which the bin missed, a purge of its entry, or the upload that had stored it under its temporary name |
| Workspace.SavesLoseNothing | daemon/internal/files/recycle.go:70-238 | in a history in which no call failed, only purges and the temporary files of uploads cost files |
| Upload.RetryAcceptedIff | daemon/internal/files/service.go:517-524 | a retried slice is accepted if and only if what is not stored of it is zero bytes |
| Upload.AckBeyondStored | daemon/internal/files/service.go:517-524 | an acknowledged offset can exceed the bytes stored |
| Upload.UploadSession.AdmitChunk | daemon/internal/files/service.go:429-459 | admits exactly slices within the size whose final flag is right |
| Upload.UploadSession.StoreChunk | daemon/internal/files/service.go:505-535 | the temporary file stays a prefix of the content through appends, short writes and removal; if no call fails and nobody removes the file, a slice that fits is stored and no other |
| Upload.UploadSession.FinishUpload | daemon/internal/files/service.go:536-591 | publishes only the whole content of the authorised digest, and only where the target may be replaced; no file is lost; if no call fails, these conditions suffice |
| Upload.UploadSession.UploadChunk | daemon/internal/files/service.go:429-597 | loses no file but its temporary one, whatever the client sends; for slices of one content an acknowledged final chunk means the content is published; unless the sweep finds it expired, a published session publishes nothing more and changes neither files nor session, whatever it is sent: it acknowledges the final chunk with the same entry, and no other chunk; if no call fails and no removal is pending, a chunk that is received is acknowledged if and only if it is admissible and fits, and is then stored |
| Upload.UploadSession.HandleChunk | daemon/internal/files/service.go:453-595 | the same for the part after the sweep: a session that is published only repeats its answer |
| Upload.UploadSession.Handle | daemon/internal/files/service.go:429-741 | no step of a session, of any client, takes a file away but its temporary one; if no call fails, each step does its work |
| Upload.UploadSession.Status | daemon/internal/files/service.go:599-641 | complete exactly for a published session; otherwise the number of bytes stored; if no call fails, a target that can be reached has a status |
| Upload.UploadSession.CancelUpload | daemon/internal/files/service.go:643-678 | a published session is left alone; otherwise at most the temporary file goes; if no call fails, the session and its file are gone |
| Upload.UploadSession.Interfere | daemon/internal/files/service.go:706-741 | expiry removes at most the temporary file |
| Upload.Run | daemon/internal/files/service.go:429-741 | every run is a trace of its steps; in it the temporary file is a prefix of the content throughout, every publication is the content, and a final acknowledgement implies one |
| UploadClient.TakeRound | frontend/src/fileApi.js:40-80 | one pass of the loop against the session; returning means the content was published |
| UploadClient.RoundCosts | frontend/src/fileApi.js:46-79 | each round without a setback decreases the measure |
| UploadClient.TransientIsRetried | frontend/src/fileApi.js:46-80 | a transient error is followed by another try up to four times in a row, from the offset the node reports, and the fifth is thrown, as is any other error at once |
| UploadClient.LoopIsBounded | frontend/src/fileApi.js:19-82 | the rounds are bounded by the size and the number of setbacks |
| UploadClient.LoopIsBoundedAnywhere | frontend/src/fileApi.js:19-82 | the same from any starting offset, in range or not, whatever chunk size each grant carries |
| UploadClient.ForgetfulNodeNeverEnds | frontend/src/fileApi.js:19-82 | with one setback every second round the loop never ends |
| UploadClient.UploadFile | frontend/src/fileApi.js:19-82 | a normal return means the node published exactly the file; each new grant may carry another chunk size; a new upload during which nothing is lost, disturbed or fails, to a target that may be written, returns normally within as many rounds as the file has bytes, and one |
| UploadClient.UploadEnds | frontend/src/fileApi.js:19-82 | the rounds taken number at most the size's bound for each setback met and one more, so watched for longer the client has ended |
| Extract.CandidateIsInjective | daemon/internal/files/extract.go:462-471 | different numbers give different names |
| Extract.CandidateKeepsExtension | daemon/internal/files/extract.go:462-471 | a numbered name has the extension of its name, begins with what that has before the extension, and differs from it |
| Extract.TriedCount | daemon/internal/files/extract.go:462-471 | the search has tried as many paths as its index says |
| Extract.AvailableExtractPath | daemon/internal/files/extract.go:462-471 | ends with the first numbered name that is free |
| Extract.DirectoryTaken | daemon/internal/files/extract.go:281-309 | taking a directory keeps the merge invariant |
| Extract.FileTaken | daemon/internal/files/extract.go:310-334 | placing a file keeps the merge invariant |
| Extract.Extraction.RecycleTarget | daemon/internal/files/extract.go:347-353 | what is in the way is in the bin and nothing else changed; if no call fails, it succeeds if and only if that can be recycled |
| Extract.Extraction.PublishExtracted | daemon/internal/files/extract.go:262-345 | always, nothing prior is lost; on success the tree is the merge of the archive under the policy, each file placed once, and nothing else is new or changed but what went to the bin; if no call fails, skip and rename go through, and overwrite with a usable bin unless a directory stands where a file is to go, or a symbolic link in the way |
| StreamCipher.DecryptUndoesEncrypt | daemon/internal/files/extract.go:425-445 | decryption inverts encryption for every key and plaintext |
| StreamCipher.DecryptSplits | daemon/internal/files/extract.go:425-433 | decrypting in two reads equals decrypting at once |
| StreamCipher.DecryptInPlace | daemon/internal/files/extract.go:425-433 | the buffer holds the decryption in place, and the keys have moved past it |
| ZipCrypto.TableIsCrc | daemon/internal/files/extract.go:447-449 | the table step is the bitwise CRC-32 of the standard |
| ZipCrypto.HighHalfIsIgnored | daemon/internal/files/extract.go:435-438 | the 32-bit stream byte equals the one of the standard's 16-bit variable |
| ZipCrypto.ReaderIsStandard | daemon/internal/files/extract.go:435-449 | stream byte and key update are the standard's for every key and byte |
| ZipReader.ZipCryptoReader.Read | daemon/internal/files/extract.go:425-433 | delivers the standard's decryption of what the input gave |
| ZipReader.ZipCryptoReader.ReadFull | daemon/internal/files/extract.go:416-418 | complete unless the input stops early, and nothing is skipped; an input that does not gives all that is asked for or left |
| ZipReader.ZipCryptoReader.CheckHeader | daemon/internal/files/extract.go:415-422 | opens only on the expected check byte, twelve bytes in; unless the input stops early, it tells the three cases apart exactly |
| ZipReader.NewZipCryptoReader | daemon/internal/files/extract.go:410-423 | opening decides by the twelfth byte of the standard's decryption under the password; unless the input stops early, exactly |
| ZipReader.ReadPieces | daemon/internal/files/extract.go:425-433 | reads of any sizes deliver the plaintext in order, all of it if they are enough and the input does not stop early |
| ZipReader.ExtractEntry | daemon/internal/files/extract.go:366-433 | the right password never fails, and what is read is the plaintext; unless the input stops early it opens, and reads that are enough give all of it |
| X19.CBCRoundTrip | panel/internal/netgames/client.go:553-601 | CBC decryption undoes CBC encryption for every block cipher that inverts |
| X19.EndIsUnique | panel/internal/netgames/client.go:583-600 | at most one place is preceded by exactly sixteen non-zero bytes of tail |
| X19.PaddedEndsAtBody | panel/internal/netgames/client.go:553-565 | that place is the end of the body, zero bytes at its end included |
| X19.EncryptX19HTTP | panel/internal/netgames/client.go:553-573 | gives the envelope of the body under the drawn key |
| X19.DecryptX19HTTP | panel/internal/netgames/client.go:575-601 | accepts exactly well-sized bodies with a marker and returns what is before it |
| X19.EnvelopeHoldsBody | panel/internal/netgames/client.go:553-601 | every envelope is accepted and ends at its body |
| X19.RoundTrip | panel/internal/netgames/client.go:553-601 | decrypting what was encrypted gives the body back, for every body and key index |
| Words.JsShiftRight | frontend/src/sha256.js:2 | the unsigned shift on the 32-bit pattern, by the amount modulo 32 |
| Words.PlusIsModulo | frontend/src/sha256.js:43-77 | the word addition used throughout is addition modulo 2^32 |
| Words.SumOfFour | frontend/src/sha256.js:43 | a sum of four terms, exact as a number, reduces to the standard's addition |
| Words.SumOfFive | frontend/src/sha256.js:57 | the same for five terms |
| Fips180.ZeroBytesAreLeast | frontend/src/sha256.js:18-24 | the padding uses the least number of zero bytes |
| Fips180.PadFillsBlocks | frontend/src/sha256.js:19-24 | the padded message is whole blocks |
| Fips180.KeysAreCubeRoots | frontend/src/sha256.js:5-14 | the constants are the first 32 fractional bits of the cube roots of the first 64 primes |
| Fips180.InitialIsSquareRoots | frontend/src/sha256.js:26-33 | the initial value is those of the square roots of the first eight |
| Sha256.RightRotate | frontend/src/sha256.js:1-3 | is the standard's ROTR, by the amount modulo 32, on the pattern of any 32-bit number, multiples of 32 included |
| Sha256.FillSchedule | frontend/src/sha256.js:36-44 | the typed array holds the message schedule |
| Sha256.TakeRound | frontend/src/sha256.js:54-69 | one round is the standard's, every sum exact before reduction |
| Sha256.CompressBlock | frontend/src/sha256.js:46-77 | one block is the standard's compression |
| Sha256.PaddedLengthIsLeast | frontend/src/sha256.js:19 | below 2^31 - 72 bytes the shifted length is the least multiple of 64 that fits |
| Sha256.PaddedLengthFails | frontend/src/sha256.js:19 | from the limit on there is no room for the message |
| Sha256.PaddingAgreesIff | frontend/src/sha256.js:17-24 | the padding equals the standard's if and only if the message is below 2^29 bytes |
| Sha256.PadMessage | frontend/src/sha256.js:17-24 | lays out the padded message in a fresh array |
| Sha256.PaddedHex | frontend/src/sha256.js:80 | padded hexadecimal text is the fixed-width digits of the word |
| Sha256.Sha256Bytes | frontend/src/sha256.js:16-81 | the digest is FIPS 180-4's for every message below 2^29 bytes |
| Operators.NormalizeOperatorSource | daemon/internal/supervisor/operators.go:332-359 | succeeds if and only if the update is acceptable, with exactly its cleaned entries in UUID order |
| Operators.LatestIsUnique | daemon/internal/supervisor/operators.go:85-126 | the set of updates delivered determines the registry |
| Operators.CatalogIsUnique | daemon/internal/supervisor/operators.go:361-377 | the sources determine the merged list |
| Operators.CatalogCovers | daemon/internal/supervisor/operators.go:361-377 | every operator of any source is in it |
| Operators.OperatorCatalog | daemon/internal/supervisor/operators.go:361-377 | each UUID of normalised sources once: an entry is in the list if and only if it has a name and no panel before its own names the UUID, or no panel names it at all |
| Operators.OperatorSourceIndex | daemon/internal/supervisor/operators.go:399-406 | finds the panel's source or proves there is none |
| Operators.Registry.Update | daemon/internal/supervisor/operators.go:97-125 | keeps the highest delivered revision of each panel; an update is refused only if it is stale, contradicts one delivered, or could not be saved |
| Operators.Registry.ReplaceOperatorSource | daemon/internal/supervisor/operators.go:85-126 | the same for an update as it comes in |
| Operators.Registry.RemoveOperatorSource | daemon/internal/supervisor/operators.go:128-155 | exactly the panel's source goes, or nothing if saving fails |
| Operators.DeliverAll | daemon/internal/supervisor/operators.go:85-126 | after any sequence of consistent updates the registry is the latest of them |
| Operators.DeliverTwice | daemon/internal/supervisor/operators.go:85-126 | the same updates in any order and number give the same sources and list |
| Operators.StaleAfterRemoval | daemon/internal/supervisor/operators.go:128-155 | after a removal an older update is accepted |
| Reservation.StepKeeps | daemon/internal/supervisor/deployment_lock.go:10-73 | every atomic step of every thread keeps the invariant on locks, flags and reservations |
| Reservation.RunKeeps | daemon/internal/supervisor/deployment_lock.go:10-73 | so does every interleaving |
| Reservation.FlaggedIsUntouched | daemon/internal/supervisor/lifecycle.go:17-357 | from the moment the flag of an instance is set, before its op lock is given back, no Start, Stop, Kill, Restart, Command or file mutation works on it |
| Reservation.ReservedIsUntouched | daemon/internal/supervisor/lifecycle.go:17-357 | while an instance is reserved, no Start, Stop, Kill, Restart, Command or file mutation works on it |
| Reservation.ReservationsAreDisjoint | daemon/internal/supervisor/deployment_lock.go:10-57 | no instance belongs to two reservations |
| Reservation.AllOrNothing | daemon/internal/supervisor/deployment_lock.go:10-57 | a reservation has all its instances, and an abandoned attempt leaves no flag |
| Reservation.ReleasedOnce | daemon/internal/supervisor/deployment_lock.go:45-56 | a reservation only moves towards release, by one thread |
| Reservation.ReleasedHoldsNothing | daemon/internal/supervisor/deployment_lock.go:45-56 | a released reservation holds no flag |
| Reservation.EntersUnlessFlagged | daemon/internal/supervisor/deployment.go:17-40 | with its locks free, an operation works on an instance if and only if that is not flagged, and DeployInstance in any case, so on what its own reservation has flagged |
| Reservation.CommandsUnlessFlagged | daemon/internal/supervisor/lifecycle.go:330-357 | with mu free, Command works on a running instance if and only if it is not flagged |
| Reservation.ReserveSucceeds | daemon/internal/supervisor/deployment_lock.go:10-57 | a reservation of different free instances can go through, and ends with all of them flagged for it and no lock held |
| Reservation.ReleaseSucceeds | daemon/internal/supervisor/deployment_lock.go:45-56 | a release can go through, and takes exactly the reservation's flags away |
| Deployments.NormalizeTargets | daemon/internal/deployment/manager.go:447-468 | all slots or exactly the requested ones, ascending, and an error if and only if one is out of range |
| Deployments.MoveKeeps | daemon/internal/deployment/manager.go:104-393 | every step of every request and task keeps the invariant on tasks, locks and reservations |
| Deployments.ActiveIsTheUnfinishedTask | daemon/internal/deployment/manager.go:104-393 | active names a task if and only if it is the server's unfinished one |
| Deployments.FinishedIsAbsorbing | daemon/internal/deployment/manager.go:238-270 | no step changes a finished task |
| Deployments.SyncBackIsAlone | daemon/internal/deployment/manager.go:104-206 | a sync-back overlaps no other task and no image mutation of its server |
| Deployments.TasksShareNoInstance | daemon/internal/deployment/manager.go:104-197 | two unfinished tasks share no instance |
| Deployments.NothingIsLeftHeld | daemon/internal/deployment/manager.go:104-393 | whoever is through holds neither image lock nor reservation |
| Deployments.UnlocksWhatItHolds | daemon/internal/deployment/manager.go:104-393 | every unlock finds held exactly what it gives up, so nothing is released twice |
| Deployments.TasksEnd | daemon/internal/deployment/manager.go:272-393 | a task's goroutine can always move until it is done, each move brings the end nearer, and none changes what the task is for |
| Deployments.StatusTellsOutcome | daemon/internal/deployment/manager.go:272-369 | over every run the counters of a task count exactly the slots that ended, in turn; completed means that every target succeeded, with errors that all were tried and one failed |
| Deployments.CountersTell | daemon/internal/deployment/manager.go:285-341 | from any state, completed rises by the slots that end, failed by those that fail before a cancellation |
| Deployments.CancelledOnRequest | daemon/internal/deployment/manager.go:238-270 | over every run a task ends cancelled or force stopped as the last request for it said, and never without one |
| Deployments.CancelledStartsNoSlot | daemon/internal/deployment/manager.go:285-289 | in any run from a cancellation at most the slot under way ends |
| Deployments.StartBecomesTask | daemon/internal/deployment/manager.go:104-206 | a request for a free server and free instances can become a queued task for exactly those, leaving all other tasks alone |
| Deployments.GetsImageIff | daemon/internal/deployment/manager.go:104-211 | in every run a request gets the image of a server if and only if nobody stands where it is held, or mirror deployments only and it is one |
| Properties.SplitUndoesJoin | daemon/internal/supervisor/properties.go:14-51 | joining and splitting are inverse on lines that survive the line end |
| Properties.WriteServerPort | daemon/internal/supervisor/properties.go:14-51 | gives the rewritten text |
| Properties.PortReadsBack | daemon/internal/supervisor/properties.go:14-71 | reading after writing gives the port, whatever the file held |
| Properties.OtherLinesStay | daemon/internal/supervisor/properties.go:14-51 | replacing the port leaves every other line where it was; without a port line one is put behind all lines, in place of a final empty one, and no line changes but a last one whose lone carriage return becomes part of its line end |
| DeployFiles.WalkedIff | daemon/internal/deployment/files.go:401-418 | the walk reaches exactly what is neither in the bin nor at or below an exclude, whatever the exclude's kind |
| DeployFiles.Deployer.CopyTree | daemon/internal/deployment/files.go:178-278 | success copies exactly the selected entries; nothing outside the destination changes; if no call fails, it succeeds if and only if each selected entry can be copied |
| DeployFiles.Deployer.MeasureExcluded | daemon/internal/deployment/files.go:323-357 | tells whether any exclude holds a file; if no call fails, unless one is of the wrong kind or holds a symbolic link |
| DeployFiles.ExcludeRestored | daemon/internal/deployment/files.go:359-399 | one restored exclude extends what has been built |
| DeployFiles.Deployer.BuildTree | daemon/internal/deployment/files.go:43-78 | the built tree: image outside the excludes, old instance below them, and directories above them; if no call fails, it is built where image and excludes can be copied and do not clash |
| DeployFiles.Deployer.WritePort | daemon/internal/deployment/files.go:79-82 | rewrites only server.properties of the built tree; if no call fails, it succeeds if and only if that is a file or missing and the scratch name is free |
| DeployFiles.Deployer.PreserveRecycleBin | daemon/internal/deployment/files.go:420-443 | moves the bin, or does nothing; if no call fails, it sees an existing backup, and succeeds if and only if that has no bin or the new directory has room for it |
| DeploySwap.RenameCarries | daemon/internal/deployment/files.go:86-101 | a rename takes the whole directory along |
| DeploySwap.SwapSucceeds | daemon/internal/deployment/files.go:84-104 | after the three renames the target is the built tree with the old bin |
| DeploySwap.RollBack | daemon/internal/deployment/files.go:90-103 | brought back or left in the backup, the old directory is whole |
| DeploySwap.NoBinLeft | daemon/internal/deployment/files.go:96-103 | once the bin has moved, neither target nor backup has it |
| DeployFiles.Deployer.SwapWithOld | daemon/internal/deployment/files.go:84-104 | success is the exchange, and if no call fails with the old bin; every failure leaves the old directory whole at the target or in the backup, its bin excepted only after the last rename; if no call fails, it succeeds if and only if the directories can be exchanged; one failing call, and the old directory is back at the target |
| DeployFiles.Deployer.Swap | daemon/internal/deployment/files.go:84-104 | the same, with or without an old directory |
| DeployFiles.Deployer.Deploy | daemon/internal/deployment/files.go:20-111 | live means deployed as specified; otherwise the old instance is whole, and after a failed last rename and the cleanup its bin is nowhere; a deployment during which no call failed keeps every path of the old bin, removes its temporary directory, and succeeds where image, excludes, port and names allow it; one failing call, and the old instance is back in place |
| DeployFiles.DeployedAnywhere | daemon/internal/deployment/files.go:20-111 | at each path: the old instance below an exclude, the image elsewhere, directories above restored excludes |
| DeployFiles.ExcludesKeptIff | daemon/internal/deployment/files.go:64-78 | everything excluded is kept if and only if the excludes hold a file or nothing |
| DeployFiles.BinKeptIff | daemon/internal/deployment/files.go:420-423 | a successful deployment keeps the bin if and only if the check of the backup saw it |
| DeployFiles.Deployer.SyncBack | daemon/internal/deployment/files.go:113-176 | live means synced as specified; otherwise the old image is whole, with the same exception for its bin; if no call fails, the image's bin is kept and a sync-back that can be done is |
| DeployFiles.SyncedAnywhere | daemon/internal/deployment/files.go:113-176 | outside the bin the image is the instance, and the bin is the image's own |

## Left out

- Text: the layout of the nftables script, parsing of addresses and protocol names, letter case, and Unicode. Protocol
  names arrive classified, addresses as numbers, UUIDs and panel ids as numbers in the order of their digits.
- IPv4-mapped addresses: sources are in one of the two families already; a list of sources is ordered by family, length
  and address where the source orders the strings.
- FirewallService.Kernel.Inspect: normalizeObservedTable works on text; tables are compared up to grant elements, and
  hashes are assumed injective.
- A state file of another daemon port, and logs, time stamps, progress counters, file modes and error texts.
- Symbolic link races and crashes that lose unsynced disk blocks: renames and `nft --file` take effect as a whole.
- Two threads inside one file operation: requests on a workspace run one after another, except for the expiry, the
  second half of a cancellation and other operations that run between any two steps of an upload.
- Reservation.StepKeeps: locks and flags are modelled as interleaved steps on a value rather than as class fields, since
  the steps of different threads are the point; the same holds of Deployments.MoveKeeps.
- Upload.UploadSession.UploadChunk: one session and one target; the answer to a session used with another path is not
  modelled, digests are compared as contents, and random ids are fresh.
- Extract.AvailableExtractPath: any error of Lstat other than absence counts as taken in the source, so a persistent
  error would make its search endless; here Lstat tells the truth.
- Extract.Extraction.PublishExtracted: the staging directory is kept apart from the workspace, and directory modes are
  not set.
- ZipReader.Input.Read: a read with room in the buffer that delivers nothing also tells its caller to stop; an io.Reader
  may deliver nothing without an error, and is then read again.
- X19.RoundTrip: AES is any block cipher that inverts; request tokens and login are not modelled.
- Recycle.FileService.RestoreEntry: RecycleRestore's creation of missing parents never runs, because the path check
  before it fails for them already.
- DeployFiles.Deployer.CopyTree: files are copied one after another instead of by concurrent workers, and cancellation is
  noticed between stages only.
- DeployFiles.Deployer.BuildTree: that a build goes through is promised for excludes of which none lies at or below
  another; nested excludes can fail for what the outer one has copied already.
- Extract.Extraction.PublishExtracted: that an obstacle makes an overwriting merge fail is not stated, only that nothing
  else does.
- DeployFiles.Deployer.Deploy: a cancellation is one that comes before the exchange. The temporary and backup names hold a random task id and are taken to differ from every
  configured directory, while image and instance may lie anywhere, even be the same directory; excluded kinds other than
  file and directory do not occur, as validation ensures.
- Properties.PortReadsBack: numbers beyond the range of int64 do not occur in strconv.Atoi.
- DeployInstance's stop, start and state changes around a deployment, ApplyServer, RecoverSessions, automatic restarts,
  the panel, its database, HTTP and WebSocket handlers and views.
- sha256File: streaming over a Blob, which feeds the same bytes to the digest of the platform.

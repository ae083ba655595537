# Zarf, modelled in Dafny

Zarf packages software for disconnected Kubernetes clusters. This project models the parts of it that
carry an algorithm or a protocol of several steps that can fail half-way, and proves what those parts
are for. `dafny verify dfyconfig.toml` checks everything; no file depends on anything outside this
directory.

| module | models | main results |
|---|---|---|
| `IndexWalk` | the recursive walk over an OCI image index with one mutable `seen` set | it terminates on every content-addressed graph, cycles and sharing included, and equals a sum over the set of reachable digests, with one index entry per reachable manifest |
| `Negotiation`, `Negotiator` | the shared HTTPS/HTTP negotiator: cache with two expiry rules, single flight, second lookup, invalidation | every run: answers are proven and fresh, negotiations of a host never overlap and are spaced; exactly when an invalidation forces a new probe; every call can be answered |
| `Rotation` | registry and git credential rotation with rollback, any call failing before or after its effect | commit comes last; what every reported rollback restored; exactly when a git rollback can succeed and which secrets it leaves new |
| `Push` | the push with its shrinking work set and two levels of retries | conservation, no rework, amortised bound on copies; it succeeds with one copy each if nothing goes wrong, and fails only for stated reasons |
| `Pull` | the concurrent metadata pass with three shared lists under a lock | every interleaving: no lost entry, no deadlock, an end, each requested image reported exactly once |
| `Split`, `Lex` | splitting a file into numbered parts and reassembling it | round trip for every number of parts; it returns every content exactly up to 999 parts |
| `Paths`, `Symlink`, `DocsLinks` | lexical path cleaning; symlink containment; relocation of documentation links | acceptance if and only if the route never leaves the root; link targets kept if and only if they do not re-enter |
| `Overrides` | parsing, sorting and applying registry overrides | the longest matching source wins; flag order is irrelevant |
| `Injector` | the single-pass search for a node and an image | it equals the two-pass specification |
| `Namespace` | the namespace override of a package definition | idempotent; exactly when the second of two overrides wins |
| `Prune` | mark and sweep of the registry | needed images keep resolving whatever fails; a sweep can be resumed; exactly when a multi-platform image stays whole |
| `Init` | the saved state over any sequence of init and re-init | consistent access fields over every run; credentials survive; ports follow the mode |

Imperative code of the source is imperative here: classes with fields for objects that are updated in
place, methods with loops for loops. Each such method is proved against a specification function or
predicate, and the lemmas speak about that specification. Remote calls, probes, clocks, hashing, JSON
and random strings are parameters (`Env`, `Plan`, `Codec`, probe results), so each statement holds for
every behaviour of them.

## Where code and documentation differ

The model follows the code. The differences found are stated as lemmas:

- `Invalidate` is documented to force the next call to probe again. It does so exactly when no
  negotiation of the host is under way and no open flight holds a result (`InvalidationForcesProbeIff`).
  Otherwise a result probed before can be stored after it and read from the cache
  (`StoreCanFollowInvalidation`), or a later call joins the flight that holds it
  (`InvalidationCanBeOutrun`).
- A git rotation can report that it was rolled back and leave a secret on the new credentials, because
  the loop skips secrets it cannot read (`UnreadableSecretStaysNew`, `GitSecretsRestoredIff`). A rollback
  authenticates with the new push password, so it cannot succeed before the push user was changed
  unless both passwords are equal (`GitRollbackSucceedsIff`, `DoubleFailure`). A pull user that is also the
  push user locks both passes out (`SharedUserIsLockedOut`). A failed switch from the internal to an external
  git server is rolled back by updating Gitea's users with the external credentials, which Gitea refuses
  (`RollbackFromExternalIff`, `ExternalSecretStays`); the registry rollback has a guard for this case, the git
  rollback has none. After a failed switch from an external server Gitea's users stay as they are
  (`GitRolledBack`).
- A registry rotation from an external to an internal registry is not undone in the deployment by a
  reported rollback (`RegistryRotation`, `InternalDeploymentStays`).
- Part names are padded to three digits; from 1000 parts on, sorting by name is no longer part order
  (`NameOrderIsPartOrder`), and as neither hash nor size is checked a reassembly returns wrong content
  without an error (`ComesBackWrong`, `ThousandPartsRoundTrip`). A path that already contains `.part000` makes reassembly look for
  the wrong files (`PartsAreFoundIff`, `MarkedRoundTrip`), and a chunk size that is not positive
  loses the content, as does a reassembly onto one of the parts (`RoundTrip`).
- A documentation link that leaves the documentation and comes back into the staged version is not
  fixed (`OuterLinksKeepTheirTarget`, `ReentryIsNotFixed`).
- Without charts and manifests the original namespace is taken to be empty, so a first override moves
  bare waits and a second one no longer finds them (`FirstOverrideSticks`, `TwoOverrides`).
- Prune marks the digest of an image index but not the manifests it consists of; a platform manifest
  that also carries a tag of its own is deleted (`NeededIndexCanLoseAPart`, `StaysWholeIff`).
- A cluster initialised without a registry loads as one with an external registry, so that a later init
  that deploys the registry keeps external mode and builds a local address with port 0
  (`LateRegistryIsTakenForExternal`, `OwnRegistryIff`). A re-init to external mode keeps the old address
  (`PortsFollowTheMode`, `ExternalKeepsOldAddress`).
- A first init that names nodeport or proxy mode together with an address and only the deprecated port
  builds the address from port 0 and then stores the deprecated port (`InitIsConsistentIff`,
  `StrayPortPartsFromAddress`). The command line refuses such options; the function does not.

## Model

| member | source | states |
|---|---|---|
| `IndexWalk.InspectIndex` | src/pkg/images/common.go:266-270 | on every content-addressed graph: success if and only if every reachable index and manifest can be fetched and decoded; the size is the sum over the set of reachable digests, each once; the platforms spell out, in order, those entries with an architecture in a list of index entries that names every reachable manifest exactly once, each entry taken from a reachable index: the architecture alone if there is no variant, otherwise architecture, slash, variant |
| `IndexWalk.NameGivesBoth` | src/pkg/images/common.go:241-250 | cut at its first slash the name of a platform gives back architecture and variant, for an architecture without a slash |
| `IndexWalk.Walker.WalkIndex` | src/pkg/images/common.go:272-319 | terminates on cyclic graphs; accounts exactly for the digests it adds to `seen` and for the manifest entries met first, leaves those digests closed under successors, and fails only if something within the closed set is unreadable |
| `IndexWalk.Walker.WalkChild` | src/pkg/images/common.go:284-316 | the same for one child of an index, whatever its media type; a child seen before contributes nothing |
| `IndexWalk.Walker.WalkChildren` | src/pkg/images/common.go:281-318 | the loop over the children composes their accounts, sizes added and platforms appended in order |
| `IndexWalk.Walker.CountManifest` | src/pkg/images/common.go:300-312 | one manifest entry with its blobs is accounted for, its platform is listed, as architecture or architecture, slash, variant, if it has an architecture, and it fails only if unreadable |
| `IndexWalk.Walker.UniqueManifestSize` | src/pkg/images/common.go:321-342 | the size returned is the sum over exactly the digests newly put into `seen`, the manifest included |
| `IndexWalk.Walker.CountBlobOnce` | src/pkg/images/common.go:330-340 | a config or layer is counted at its first occurrence only |
| `IndexWalk.Graph.ReachableIsClosed` | src/pkg/images/common.go:283-317 | reachability by paths is closed under successors |
| `IndexWalk.Graph.ReachableIsLeast` | src/pkg/images/common.go:283-317 | it is the least closed set with the root, hence what a complete walk has seen |
| `IndexWalk.OrderIsIrrelevant` | src/pkg/images/common.go:283-340 | permuting the children of indexes and the layers of manifests changes neither what is reachable, nor what is readable and hence whether an inspection succeeds, nor the size |
| `IndexWalk.PlatformsAreDetermined` | src/pkg/images/common.go:283-313 | where the reachable index entries of a manifest agree on its platform, the multiset of platforms is the same for any order as well |
| `Negotiation.DecideIff` | src/pkg/ocischeme/ocischeme.go:171-208 | one negotiation answers plain HTTP if and only if HTTPS failed, HTTP answered, and the chain holds a scheme mismatch or, for a host that does not read as name and port, its first operation error is a failed dial, or it has no operation error but a DNS error or a timeout; it fails if and only if HTTPS failed without such proof |
| `Negotiation.ExplicitPortIff` | src/pkg/ocischeme/ocischeme.go:210-216 | a host has an explicit port if and only if it reads as a name and a port, bare or in brackets |
| `Negotiator.ActionKeepsInv` | src/pkg/ocischeme/ocischeme.go:112-169 | every atomic step of callers, flights, clock and invalidation keeps the invariant tying cache, flights, callers and log |
| `Negotiator.RunKeepsInv` | src/pkg/ocischeme/ocischeme.go:112-169 | so does every run |
| `Negotiator.AnswersAreProven` | src/pkg/ocischeme/ocischeme.go:174-229 | in every run an answer comes from a logged negotiation of the same host, and is plain HTTP if and only if that negotiation saw HTTPS fail, HTTP answer, and a scheme mismatch or, for a host without a port, a chain whose first operation error is a failed dial or which has none but a DNS error or a timeout; it is an error if and only if HTTPS failed without that |
| `Negotiator.AnswersAreFresh` | src/pkg/ocischeme/ocischeme.go:141-156 | a cached answer had not outlived its limit (30 s for failures, otherwise the TTL if it is positive) when it was read, by the caller or by the second lookup in the flight |
| `Negotiator.AnsweredFromCacheIff` | src/pkg/ocischeme/ocischeme.go:112-156 | in every reachable state and after any time, a call that looks into the cache is answered on the spot if and only if the host's latest result was not invalidated and is within its limit, and with that result |
| `Negotiator.NegotiationsDoNotOverlap` | src/pkg/ocischeme/ocischeme.go:117-130 | between two starts of a negotiation of a host there is the end of the first |
| `Negotiator.NegotiationsAreSpaced` | src/pkg/ocischeme/ocischeme.go:45-50 | without an invalidation between, the next negotiation starts more than the limit after the last result |
| `Negotiator.DecidedOnceForAll` | src/pkg/ocischeme/ocischeme.go:67-74 | with a TTL of zero a decided host is negotiated again only after an invalidation |
| `Negotiator.CallCanReturn` | src/pkg/ocischeme/ocischeme.go:112-139 | from every reachable state every unanswered call can be brought to its answer in at most seven steps, all its own or its host's flight's, whatever the probes come to |
| `Negotiator.NobodyHindersInRun` | src/pkg/ocischeme/ocischeme.go:112-169 | in every run no step of anyone, invalidations included, takes a call further from its answer |
| `Negotiator.AfterInvalidation` | src/pkg/ocischeme/ocischeme.go:158-169 | a call begun after an invalidation gets a result stored before it if and only if it joined a flight whose result was already fixed; and no flight it joined was closed when it began |
| `Negotiator.NegotiatedBeforeIff` | src/pkg/ocischeme/ocischeme.go:112-169 | the negotiation behind an answer was started by the flight that stored it, and started before an earlier invalidation if and only if it was stored before it or was the one under way at that moment |
| `Negotiator.InvalidationForcesProbeIff` | src/pkg/ocischeme/ocischeme.go:158-169 | an invalidation forces every later call, in every continuation, to be answered by a negotiation started afterwards if and only if at that moment the host has no open flight or one that has not started to probe |
| `Negotiator.InvalidatedInTime` | src/pkg/ocischeme/ocischeme.go:158-169 | if nothing is under way at the invalidation, every call begun later is answered by a negotiation started later |
| `Negotiator.ProbeCanBeSkipped` | src/pkg/ocischeme/ocischeme.go:117-130 | from any state in which a negotiation is under way or a flight holds a result, a continuation in which a call begun after the invalidation is answered and no negotiation of the host starts |
| `Negotiator.StoreCanFollowInvalidation` | src/pkg/ocischeme/ocischeme.go:125-128 | a concrete run in which a result probed before the invalidation is stored after it and read from the cache by a later call |
| `Negotiator.InvalidationCanBeOutrun` | src/pkg/ocischeme/ocischeme.go:158-169 | a concrete run in which a call begun after the invalidation receives the result stored before it |
| `Rotation.Cluster.UpdateZarfManagedImageSecrets` | src/pkg/cluster/secrets.go:121-153 | the loop over namespaces leaves exactly the secrets of the specification, at every point of failure; a secret that changed was rotatable and now holds pull user, colon, pull password under exactly the registry address and its service addresses; on success every rotatable one does |
| `Rotation.Cluster.UpdateZarfManagedGitSecrets` | src/pkg/cluster/secrets.go:156-183 | likewise for git secrets, which then hold exactly the pull user as `username` and its password as `password`; unreadable ones are skipped |
| `Rotation.Cluster.UpdateInternalGitServerSecret` | src/pkg/cluster/zarf.go:257-292 | for any users: succeeds if and only if no call fails, the push user has the expected password, both users exist and the first update does not take that password away; sets exactly these two users, the pull user first; without the expected password nothing changes |
| `Rotation.Cluster.ApplyRegistryState` | src/cmd/zarf_tools.go:661-685 | at every point of failure only in-scope pull secrets were replaced, by secrets with the pull login, and the state was saved only after all of them and, where it is updated, the deployment are new; users and git secrets never change |
| `Rotation.Cluster.ApplyGitState` | src/cmd/zarf_tools.go:747-760 | at every point of failure: secrets change only after both users are set, and then hold pull user and password; the state is saved only after every in-scope secret that could be read is new, and nothing of the registry changes |
| `Rotation.Cluster.UpdateRegistryCreds` | src/cmd/zarf_tools.go:613-659 | what each reported outcome says: updated means saved state, in-scope secrets and deployment are new; rolled back means saved state and in-scope secrets are old and the deployment is as stated case by case; new or old, a secret has exactly the registry address and its service addresses as keys and the pull login under each; secrets out of scope stay; a rollback without failing calls is never inconsistent |
| `Rotation.Cluster.UpdateGitCreds` | src/cmd/zarf_tools.go:741-744 | between any two states, servers internal or external: updated means users of an internal server, readable secrets and saved state are new; rolled back means saved state and readable secrets are old and so are the users of an internal old server; new or old, a secret holds exactly the pull user and its password; exactly when a pass without failing calls succeeds, forward and back |
| `Rotation.PushCredentialsDoNotMatter` | src/pkg/cluster/secrets.go:52-64 | two registries that differ only in push credentials give equal pull secrets |
| `Rotation.ImageLoopMeant` | src/pkg/cluster/secrets.go:121-153 | what the image loop changed, wherever it stopped, was rotatable and holds the pull login under exactly the registry's addresses; a complete loop leaves every rotatable secret so |
| `Rotation.GitLoopMeant` | src/pkg/cluster/secrets.go:156-183 | likewise for the git loop and the readable secrets |
| `Rotation.ProgressKeepsScope` | src/pkg/cluster/secrets.go:129-141 | a pass never changes which secrets are in scope |
| `Rotation.ImageLoopProgress` | src/pkg/cluster/secrets.go:121-153 | any prefix of the loop replaced only in-scope secrets; a complete one replaced all |
| `Rotation.GitLoopProgress` | src/pkg/cluster/secrets.go:156-183 | likewise, with exactly the unreadable ones left as they were |
| `Rotation.RegistryCommitsLast` | src/cmd/zarf_tools.go:661-685 | the new state is saved only after all in-scope pull secrets and, where updated, the deployment are new; a pass without failing calls succeeds |
| `Rotation.RegistrySecretsMeant` | src/cmd/zarf_tools.go:661-685 | a pass of the specification, however it ends, changes only rotatable secrets, to the pull login under exactly the registry's addresses, and saves only when all of them hold it |
| `Rotation.RegistryRotation` | src/cmd/zarf_tools.go:653-658 | after a reported rollback from any point of failure saved state and in-scope secrets are old, and the deployment is as stated case by case; out-of-scope secrets, git secrets and users never change |
| `Rotation.RotatedSecretsMeant` | src/cmd/zarf_tools.go:653-658 | after a reported update every rotatable secret holds the new pull login, after a reported rollback the old one; all other secrets are as before |
| `Rotation.UserPassResult` | src/pkg/cluster/zarf.go:273-287 | the passwords of the new pull and push user after the forward pass, for any two states and every failure, and exactly when the pass over the users succeeds; nobody else is touched |
| `Rotation.UserPassUpdates` | src/pkg/cluster/zarf.go:273-287 | the same for any servers and users: exact success, order of the two updates, nobody else touched |
| `Rotation.GitCommitsLast` | src/cmd/zarf_tools.go:747-760 | a git pass between any two states saves last |
| `Rotation.GitForwardPass` | src/cmd/zarf_tools.go:747-760 | to an internal server nothing beyond the users changes before the push password does; without failing calls the pass succeeds if and only if its user updates are allowed, which they always are to an external server |
| `Rotation.GitRollbackSucceedsIff` | src/cmd/zarf_tools.go:741-744 | between any two states a rollback without failing calls succeeds if and only if the old server is external, or Gitea has the new push user on the new password by then, the old users exist and the rollback does not lock itself out; otherwise the double failure is reported and secrets and saved state are as the forward pass left them |
| `Rotation.GitPassSucceedsIff` | src/cmd/zarf_tools.go:747-760 | a pass between any two states without failing calls succeeds if and only if its user updates are allowed; if they are not, secrets and saved state do not change |
| `Rotation.RollbackOfSameUser` | src/cmd/zarf_tools.go:741-744 | for two internal servers, one push user and separate pull users: a rollback is possible if and only if the push user was changed or the two push passwords are equal |
| `Rotation.RollbackFromExternalIff` | src/cmd/zarf_tools.go:741-750 | after a failed switch from an internal to an external server a flawless rollback succeeds if and only if Gitea has the external push user on its password and the old users exist |
| `Rotation.ExternalSecretStays` | src/cmd/zarf_tools.go:741-750 | a concrete failed switch whose flawless rollback is refused and leaves a secret on the external credentials |
| `Rotation.GitRolledBack` | src/cmd/zarf_tools.go:741-760 | after a reported rollback between any two states the saved state and every in-scope secret that could be read are old, and so are the users of an internal old server; Gitea is as before if only those were touched |
| `Rotation.GitSecretsRestoredIff` | src/pkg/cluster/secrets.go:163-170 | all in-scope secrets are old again if and only if each was readable on the way back or the forward plan had left it with the old credentials, spelt out by the fates of the calls before it |
| `Rotation.GitLoopExact` | src/pkg/cluster/secrets.go:156-183 | which secrets the git loop replaces, namespace by namespace, for every pattern of failures |
| `Rotation.GitRotation` | src/cmd/zarf_tools.go:714-760 | the outcomes of a git rotation between any two states, as a fact about the specification |
| `Rotation.RotatedGitSecretsMeant` | src/cmd/zarf_tools.go:714-760 | likewise for the user and the password in git secrets that could be read |
| `Rotation.SharedUserIsLockedOut` | src/pkg/cluster/zarf.go:277-287 | if the pull user is the push user and gets another password, the second update and the rollback are refused, and the user is left with a password neither state has for it |
| `Rotation.DoubleFailure` | src/cmd/zarf_tools.go:741-744 | a concrete rotation whose flawless rollback is refused |
| `Rotation.InternalDeploymentStays` | src/cmd/zarf_tools.go:653-658 | a concrete rotation that reports a rollback and leaves the new deployment |
| `Rotation.UnreadableSecretStaysNew` | src/pkg/cluster/secrets.go:163-170 | a concrete rotation that reports a rollback and leaves a secret new |
| `Push.Push` | src/pkg/images/push.go:45-231 | unpushed and delivered images partition the list; success if and only if nothing is left; delivered means copied to the plain name and, unless excused, the checksum name; no delivered image is copied again; at most 4·(n + attempts − 1) copies (2 without checksums); every copy was made over a ready connection to a name that transforms, before any cancellation; if nothing goes wrong a non-empty push succeeds with exactly one copy per image and name; a failure means cancellation, or that all attempts were made and each was not ready, met a name that does not transform, or had a copy that failed twice |
| `Push.Attempt` | src/pkg/images/push.go:165-219 | one attempt keeps the partition and pays for at most one failed image; it copies only over a ready connection, and what it failed of is one of the stated reasons |
| `Push.PushImage` | src/pkg/images/push.go:172-217 | both copies of an image, the plain one last; plain copies grow by this image exactly on success; a failure has one of the stated reasons |
| `Push.CopyTo` | src/pkg/images/push.go:172-217 | one copy, made only if the name transforms, repeats nothing that worked |
| `Push.CopyWithRetry` | src/pkg/images/push.go:181-193 | at most two tries, all failed but perhaps the last; a failure without cancellation means two failed tries |
| `Push.TriedKeeps` | src/pkg/images/push.go:203-217 | the tries at one copy keep the no-rework law |
| `Pull.StepKeepsBalance` | src/pkg/images/pull.go:142-238 | every step, with appending split into reading and writing back, keeps the number of reports of an image equal to the number of workers that recorded it |
| `Pull.StepKeepsLock` | src/pkg/images/pull.go:142-238 | at most the holder of the lock is in the critical section and its copy of the lists is current |
| `Pull.RunKeepsInv` | src/pkg/images/pull.go:142-238 | so in every interleaving; each entry carries the original and the overridden reference of one requested image |
| `Pull.NoDeadlock` | src/pkg/images/pull.go:150-238 | until every worker has ended some worker can take a step |
| `Pull.EachImageOnce` | src/pkg/images/pull.go:142-238 | when no worker failed every requested image is on exactly one of the two lists, once |
| `Pull.Finish` | src/pkg/images/pull.go:236-265 | success if and only if workers, daemon and saves succeed; the result holds every requested image exactly once, under its original reference |
| `Pull.RunWorkers` | src/pkg/images/pull.go:150-238 | the workers, taking turns in any order, always come to an end; all succeed if and only if every look at the registry did; the lists then hold exactly the entries of the outcomes |
| `Pull.ApplyOverrides` | src/pkg/images/pull.go:106-123 | each image is paired with itself under the reference in which the first matching source gave way to its target, through a descending list the longest; without a match nothing changes, and never name or digest |
| `Pull.PullImages` | src/pkg/images/pull.go:81-266 | for any list of images, duplicates included, and any interleaving: success if and only if the list is not empty and every image was found and saved, under its overridden and its original reference, or left to a daemon that has it; the result then holds each image of the list exactly once, under its original reference |
| `Pull.Unique` | src/pkg/images/pull.go:89-89 | the work list has no duplicates and the same members |
| `Split.SplitFile` | src/internal/split/split.go:34-156 | the file is replaced by its chunks and a header with their number, the size and the hash of the content; nothing else that looks like a part is left; every file but the source and names that read as the path, `.part` and slash-free text keeps its content, also if the source is missing |
| `Split.SplitMeans` | src/internal/split/split.go:34-156 | what the specification of a split makes of every single file name, without reference to how the kept files are computed |
| `Split.WriteParts` | src/internal/split/split.go:64-127 | the copying loop writes exactly the chunks, counts them, and hashes their concatenation, under any usable naming of parts |
| `Split.WritePart` | src/internal/split/split.go:67-113 | one copy: as much as fits, hashed, and removed again if it came up empty |
| `Split.ChunksCover` | src/internal/split/split.go:85-94 | the concatenated chunks are the content |
| `Split.ChunkCount` | src/internal/split/split.go:123-142 | their number is the length divided by the chunk size, rounded up |
| `Split.ReassembleFile` | src/internal/split/split.go:159-223 | sorted matching files are joined and removed if and only if the header, read after the destination is emptied, counts them and no part is copied to its own end; otherwise no file but the destination changes; a destination that is itself a part is removed with the others |
| `Split.Join` | src/internal/split/split.go:170-213 | the parts are joined if and only if the header counts them and no part is copied to its own end; the destination then holds the parts in name order, whether or not it is one of them |
| `Split.AppendParts` | src/internal/split/split.go:178-213 | appending part by part gives the parts in order and touches no other file; it fails exactly at a part that is the destination and no longer empty |
| `Split.NameOrderIsPartOrder` | src/internal/split/split.go:67-67 | name order is part order if and only if there are at most 999 parts |
| `Split.ThousandSortsEarly` | src/internal/split/split.go:168-168 | part 1000 sorts before part 101 |
| `Split.PartsAreFoundIff` | src/internal/split/split.go:160-161 | the pattern is that of the parts if the path has no earlier mark; if it has one, no data part matches |
| `Split.RoundTrip` | src/internal/split/split.go:34-223 | for every number of parts reassembling the split succeeds, and puts the chunks in name order at the destination; that is the content for a positive chunk size and at most 999 parts; every file but source, destination and parts keeps its content, and nothing that looks like a part is left; onto one of the parts, success leaves nothing |
| `Split.HeaderSortsFirst` | src/internal/split/split.go:168-179 | the header comes first in name order however many parts there are |
| `Split.ArrangedInOrder` | src/internal/split/split.go:168-168 | with at most 999 parts the chunks in name order make up the content |
| `Split.ComesBackWrong` | src/internal/split/split.go:168-213 | for every number of parts from 1000 on and every chunk size the chunks of some content in name order are not that content |
| `Split.ThousandPartsRoundTrip` | src/internal/split/split.go:34-223 | a file of such a content is split and reassembled without an error, and the destination differs from it |
| `Split.MarkedRoundTrip` | src/internal/split/split.go:160-192 | every file with a chunk whose path carries the mark is split and then refused, unless other files match in place of its parts; its data parts are still there |
| `Split.MarkedPathIsNotReassembled` | src/internal/split/split.go:160-192 | the instance for a file named `.part000` |
| `Paths.EscapeIsRemembered` | src/pkg/archive/archive.go:497-504 | a cleaned relative path starts with `..` if and only if the walk left the root at some prefix |
| `Symlink.SymlinkAcceptedIff` | src/pkg/archive/archive.go:478-505 | a target is accepted if and only if it is relative and, below a relative link name, the route along the part of that name up to its last slash and then along the target stays inside the root at every step |
| `DocsLinks.InnerLinksFollowThePage` | site/src/plugins/remark-link-rewrite.ts:41-51 | a link that stays inside the documentation is unchanged and leads to the staged copy of its target |
| `DocsLinks.FixedWhen` | site/src/plugins/remark-link-rewrite.ts:46-51 | one `../` is added exactly to a link that starts with a dot and leads out of the staged version; every other link is unchanged |
| `DocsLinks.OuterLinksKeepTheirTarget` | site/src/plugins/remark-link-rewrite.ts:41-51 | a link that leaves keeps its absolute target if and only if its text does not re-enter the staged version |
| `DocsLinks.ReentryIsNotFixed` | site/src/plugins/remark-link-rewrite.ts:46-51 | a concrete link that leaves, re-enters, is not fixed and changes its target |
| `DocsLinks.OneMoreUp` | site/src/plugins/remark-link-rewrite.ts:46-51 | one more `../` makes up for the extra directory level |
| `Overrides.ParseRegistryOverrides` | src/cmd/package.go:191-223 | accepted if and only if every flag reads as source, equals sign, target, with no equals sign in the source and neither empty, and no source repeats; the result lists exactly what the flags read as, in descending order of source |
| `Overrides.ParsesIff` | src/cmd/package.go:193-206 | a flag is cut into source and target exactly as it reads |
| `Overrides.SortDescending` | src/cmd/package.go:218-222 | sorted, with the same members |
| `Lex.LessIff` | src/cmd/package.go:218-222 | the order is that of the first different character, a proper prefix first |
| `Overrides.ApplyOverrides` | src/pkg/images/pull.go:106-123 | each reference is paired with its rewriting, in which the first source that begins it, through a descending list the longest, has given way to its target and the remainder is kept; it is unchanged if none does |
| `Overrides.LongestSourceWins` | src/pkg/images/pull.go:110-116 | through a descending list the longest source that begins the reference is replaced and the remainder kept; without a match nothing changes |
| `Overrides.FlagOrderIsIrrelevant` | src/cmd/package.go:191-223 | permuted flags are accepted alike and give the same list |
| `Injector.GetInjectorImageAndNode` | src/pkg/cluster/injector.go:273-400 | the single pass with one remembered fallback returns what two passes over the nodes return |
| `Injector.SearchResult` | src/pkg/cluster/injector.go:288-400 | failure if and only if no eligible node runs a usable image, one that is not empty and has no line starting with the local address; otherwise the chosen image runs on the chosen eligible node, in a pod without pull secrets if any eligible node has one |
| `Injector.FirstOfferIsFirst` | src/pkg/cluster/injector.go:305-400 | a pass stops at the first node with an offer |
| `Injector.OfferIff` | src/pkg/cluster/injector.go:305-393 | a node offers something if and only if it is eligible and a live pod on it runs a usable image |
| `Injector.EligibleIff` | src/pkg/cluster/injector.go:305-385 | a node is eligible if and only if every taint is a mere preference, it states no architecture or the right one, and requests and need together fit in what is allocatable |
| `Injector.Inspect` | src/pkg/cluster/injector.go:305-385 | taints, architecture and resources decide whether a node's candidates count |
| `Injector.Survey` | src/pkg/cluster/injector.go:315-364 | what is left is the allocatable amount minus the sum of requests; the candidates are the first usable images with and without the restriction on pull secrets |
| `Injector.Collect` | src/pkg/cluster/injector.go:330-340 | a candidate that is found stays, otherwise the first usable image is taken |
| `Injector.PickIsFirst` | src/pkg/cluster/injector.go:330-362 | the image taken is the earliest one that is not empty and of which no line starts with `127.0.0.1:` or `[::1]:` |
| `Injector.UsableIff` | src/pkg/cluster/injector.go:41-41 | an image is usable if and only if it is not empty and no line of it starts with `127.0.0.1:` or `[::1]:` |
| `Injector.GroupByNode` | src/pkg/cluster/injector.go:288-297 | every node name is mapped to its live pods in listing order |
| `Injector.HasBlockingTaints` | src/pkg/cluster/injector.go:523-530 | true if and only if a taint has the effect NoSchedule or NoExecute |
| `Namespace.PackageDefinition.OverrideNamespace` | src/api/api.go:116-134 | refused if and only if forbidden, an init package or several namespaces, and then nothing changes; otherwise every field equal to the original namespace is renamed |
| `Namespace.PackageDefinition.UniqueNamespaces` | src/api/api.go:151-162 | exactly the namespaces that charts and manifests are installed in |
| `Namespace.PackageDefinition.OverrideComponentNamespaces` | src/api/api.go:164-181 | the nested in-place rewrite is a renaming of all components |
| `Namespace.RewriteActions` | src/api/api.go:190-196 | the cluster waits on the original namespace move to the target, everything else stays |
| `Namespace.RenamingsAgree` | src/api/api.go:164-196 | two renamings give the same package if and only if they agree on every namespace it names |
| `Namespace.RenamedTwice` | src/api/api.go:164-196 | renaming twice is renaming by the composition |
| `Namespace.InstalledInTarget` | src/api/api.go:117-134 | afterwards everything is installed in the target, so a further override is possible |
| `Namespace.OverrideIsIdempotent` | src/cmd/package.go:433-438 | overriding again to the same namespace changes nothing, for every target |
| `Namespace.TwoOverrides` | src/api/api.go:117-134 | overriding to a then b is overriding to b if and only if a is b or the original, or no wait names what the second override replaces |
| `Namespace.OnlyNamespacesChange` | src/api/api.go:164-196 | with namespaces blanked out the package is the same before and after |
| `Namespace.FirstOverrideSticks` | src/api/api.go:128-134 | a package without charts where the second override does not win |
| `Prune.Registry.PruneImages` | src/cmd/crane.go:398-511 | whatever fails, only doomed manifests are gone, with their tags; all of them after a confirmed run without error, none without confirmation; and exactly when the run succeeds |
| `Prune.Registry.MarkNeeded` | src/cmd/crane.go:404-436 | the marks are exactly the digests that images of deployed components resolve to; success if and only if each can be looked up or is missing and ignored |
| `Prune.Registry.ListTagged` | src/cmd/crane.go:438-465 | exactly the tags that resolve, over the whole catalog; exactly when listing succeeds |
| `Prune.Condemn` | src/cmd/crane.go:467-478 | exactly the tagged digests that are not marked |
| `Prune.Registry.Sweep` | src/cmd/crane.go:498-509 | deletes up to the first failure |
| `Prune.WantedStillResolve` | src/cmd/crane.go:404-509 | after any sweep, complete or not, every image of a deployed component resolves to the same digest as before |
| `Prune.NeededStaysNeeded` | src/cmd/crane.go:404-436 | so no sweep changes what is needed |
| `Prune.OnlyNeededTagsRemain` | src/cmd/crane.go:467-509 | after a complete sweep every tag that resolves points to a needed digest, and one that does not never did |
| `Prune.SweepIsIdempotent` | src/cmd/crane.go:467-509 | a second run finds nothing to prune |
| `Prune.SweepResumes` | src/cmd/crane.go:498-509 | a run after a broken-off one ends with what one complete run would have left |
| `Prune.StaysWholeIff` | src/cmd/crane.go:404-478 | a multi-platform image keeps all its manifests if and only if none of them has a tag of its own without being needed |
| `Prune.NeededIndexCanLoseAPart` | src/cmd/crane.go:404-478 | a needed index whose platform manifest is deleted |
| `Init.Cluster.InitState` | src/pkg/cluster/cluster.go:191-375 | the ordered updates of both branches come to the field-by-field specification of the new state; what is saved is consistent exactly without a stray port and keeps what was configured; a failure leaves the saved state, unless a save that reported failure took effect |
| `Init.Cluster.LoadState` | src/pkg/cluster/cluster.go:514-537 | the ports agree and are the stored ones; the mode is never unset, and for an old state is nodeport if and only if the address is local at the stored port; nothing else changes |
| `Init.SwitchMode` | src/pkg/cluster/cluster.go:307-336 | mode, ports, address and mTLS as the table `Access` gives them |
| `Init.InitIsConsistentIff` | src/pkg/cluster/cluster.go:305-344 | after a successful init nodeport mode has no mTLS, proxy mode has Zarf-managed mTLS, and both have the local address of the stored port, if and only if no stray deprecated port was given |
| `Init.StrayPortPartsFromAddress` | src/pkg/cluster/cluster.go:318-336 | a concrete first init whose stored port is not that of its address |
| `Init.FillOnlyFills` | src/pkg/state/state.go:487-558 | filling in defaults keeps every given value, never picks the proxy, and leaves a configured registry; what was not given becomes the documented user, port, mode and local address, or what was generated |
| `Init.FillInRegistry` | src/pkg/state/state.go:487-558 | the ordered filling keeps every given value, never picks the proxy, and leaves a configured registry, with the documented defaults where nothing was given |
| `Init.FillInGit` | src/pkg/state/state.go:224-262 | likewise for the git server, whose pull user copies the push user unless it is internal |
| `Init.FillInArtifact` | src/pkg/state/state.go:285-295 | the artifact server keeps a given user, token and address, and otherwise gets the git push user and Zarf's own address |
| `Init.FirstInitConfigures` | src/pkg/cluster/cluster.go:264-282 | after a first init a service is configured if and only if it is deployed or pointed to, with the credentials given for it and the documented defaults for the rest |
| `Init.LaterInitConfigures` | src/pkg/cluster/cluster.go:282-303 | a re-init fills in exactly what it deploys and was never configured, starting from what is stored; other services keep their credentials |
| `Init.InitSettings` | src/pkg/cluster/cluster.go:346-367 | after any init the storage class is the given one, or that of the distribution, and a given mutation policy replaces the stored one |
| `Init.RunsStayConsistent` | src/pkg/cluster/cluster.go:191-375 | so after any sequence of successful and failed inits, failed saves that took effect included |
| `Init.InitKeeps` | src/pkg/cluster/cluster.go:282-303 | a re-init keeps what configured services, agent and distro were set to |
| `Init.RunKeeps` | src/pkg/cluster/cluster.go:282-303 | so does any sequence of re-inits |
| `Init.PortsFollowTheMode` | src/pkg/cluster/cluster.go:307-336 | a mode change resets registry port (31999 or 5000) and injector port unless given, no change keeps them unless given; external mode keeps port and address |
| `Init.ExternalKeepsOldAddress` | src/pkg/cluster/cluster.go:307-336 | a concrete re-init to an external registry that keeps the local address |
| `Init.OwnRegistryIff` | src/pkg/cluster/cluster.go:264-311 | exactly when an init that deploys Zarf's registry ends with an internal registry |
| `Init.LateRegistryIsTakenForExternal` | src/pkg/cluster/cluster.go:528-535 | a registry deployed by a later init is taken for external, at local port 0 |

## Left out

- `Push.Push`: dropping the concurrency to one after a failure, tunnels and the annotation of image names are not modelled; the order in which a map is traversed is any order.
- `IndexWalk.InspectIndex`: of several index entries that name one manifest with different platforms it states that one is taken, not that it is the first in the order of the walk.
- `Pull.RunKeepsInv`: how a worker's answers from the registry lead to one of its three outcomes is an input; the limit of ten workers at a time is dropped, so more interleavings are covered.
- `Split.RoundTrip`: I/O errors other than a missing source and a full disk, and glob metacharacters in the path, are not modelled.
- `Symlink.SymlinkAcceptedIff`: Windows volume names, the reserved-name checks and the extraction handlers are not modelled.
- `DocsLinks.OuterLinksKeepTheirTarget`: page directories are clean lists of names; `rewriteUrl`, versioned asset imports and the tree visitors are not modelled.
- `Injector.GetInjectorImageAndNode`: resource quantities are integers and the aggregation of container requests within a pod is an input.
- `Namespace.PackageDefinition.OverrideNamespace`: components hold only the fields involved and a few bystanders; actions are values, so two actions sharing one wait object are not distinguished.
- `Prune.Registry.PruneImages`: references are structured values, transforming and parsing image names are inputs, and nobody else changes the registry during a run.
- `Init.Cluster.InitState`: addresses are an abstract type, registry modes other than the three known ones do not occur, and effects on the cluster other than the saved state (namespace labels, certificates) are not kept.
- `Rotation.Cluster.UpdateRegistryCreds`: merging options into the new state, resolving a changed registry URL and renewing mTLS certificates beforehand are not modelled; nobody else changes the cluster.
- Agent certificate rotation: the same rollback scheme with fewer steps.
- Byte counts and sizes are unbounded integers; overflow of machine integers is not modelled.
- Values merging, API version conversion, package creation and deployment, Helm, signing, linting, data injection and command wiring are not part of this model.

# Aegis Latent Core: a verified model of its protocols, stores and codecs

A Dafny model of the parts of Aegis whose correctness does not show in any one function: the
anti-entropy gossip between replicas, the SCIM provisioning store, the recorder that ties stream
delivery to evidence, the shared audit chain, and the codecs, fixpoints and flow rules around them.
`dafny verify dfyconfig.toml` checks all of it.

| module | what it models |
|---|---|
| `Gossip`, `GossipMeaning`, `GossipCounters`, `GossipMesh`, `GossipRefinement`, `GossipConvergence` | the gossip daemon as a class, what its contacts and rounds mean, its counters, a mesh of daemons as interleaved steps, how the two agree, and the convergence bound |
| `Scim`, `ScimStoreModel`, `ScimInvariants`, `ScimMeaning`, `ScimUserPatch` | the SCIM store as a transition function and as a class, what every operation keeps, what each stores and refuses, and what PATCH means |
| `Stream` | chunks, the stream recorder as a class, and the generator that withholds the last text until the evidence is committed |
| `Chain`, `ChainEvidence`, `ChainWorker` | many server processes appending to one audit chain, what their durable responses rest on, and the critical section as the code runs it |
| `Merkle` | the duplicate-last Merkle root of the execution manifest |
| `Envelope`, `Der`, `Licence` | the receipt envelope (JSON), the RFC 3161 request (DER), the licence key (base64url) |
| `Reachability`, `ReachabilityMeaning` | the import worklist, and what import statements execute |
| `Wal` | the torn-tail repair of the write-ahead log |
| `Release`, `ReleasePair`, `ReleaseMeaning` | the producer and the checker of the release envelope, and its files in plain terms |
| `Abac` | Bell-LaPadula mediation over runs |
| `Common`, `Hex`, `Text`, `Utf8` | shared vocabulary |

Hashes, signatures, HMAC, the JSON library (except where `Envelope` writes it out), clocks, and the
outcome of every network or disk operation are parameters, and the theorems hold for all of them. No
hash is taken to be injective. Gossip roots may collide, and `CollisionFree` speaks only of the leaf
sets at hand. Elsewhere a violation yields two explicit colliding inputs.

Where a documented reading turned out false of the code, the model follows the code and states when
the reading holds:

- `GossipStats` documents a rise of `rounds_converged` with no rise of `peer_failures` as agreement
  with every peer. A peer being skipped by backoff makes both true without agreement; the reading is
  right if and only if no peer was in backoff when the round began (`ReadingIsRightIffNoneBackedOff`).
- `patch_group` relinks users while it runs, so a failing PATCH can leave users linked to a group that
  does not list them. `SyncIffHarmless` gives the exact condition, computed from the request and the
  store beforehand; `FailedPatchBreaksSync` shows the failure.
- `can_write` compares classifications alone. Runs respect compartments too if and only if no subject
  may read one object and write another that lacks one of its compartments (`NoLeakIffConfined`).
  `WriteDropsCompartment` is a run of two moves that does not. Dominance leaves release markings out
  (`FlowKeepsReadersIff`, `FlowGainsReader`).
- The 2048-byte floor of the receipt envelope holds for printable ASCII identifiers but not for all
  that the validators admit, as a character can escape to twelve bytes (`FitsIff`,
  `ValidEnvelopeCanExceedFloor`).
- `repair` reads with newline translation, so the lines it keeps are rewritten on disk when they end
  in CR LF (`RetainedBytesIff`, `RepairRewritesCrLf`).
- The release producer accepts a payload name with a CR, and the checker then always refuses
  (`ProducedIsAcceptedIff`, `CrNameIsRefused`).
- The SQLite store ignores a second node with an id it already holds, without an error, and such a
  request exits as "durable". What backs it is the node stored first, which carries the same
  signature and the same request and response hashes unless two inputs collide
  (`DurableExitsAreBacked`, `IgnoredIff`). Two processes that commit the same request at the same
  instant share one node in this way (`SameRequestSharesNode`), so the gap between MMR leaves and
  stored nodes can exceed the failures (`EvidenceConservation`).
- At a "complete" commit the hashed body equals the text delivered and held, except when a redactor
  flushes text although no chunk was held to carry it (`WrapSyncStream`, `UnfedFlushIsHashedOnly`).

## Model

| member | source | states |
|---|---|---|
| Gossip.BackoffBounds | aegis/consensus/gossip.py:182-206 | a failure skips between 2 and 64 rounds, doubling up to the cap and never shrinking with more failures |
| Gossip.GossipDaemon.constructor | aegis/consensus/gossip.py:236-250 | a fresh daemon: the given leaves, zero counters, healthy peers |
| Gossip.GossipDaemon.MergeState | aegis/consensus/gossip.py:276-305 | refuses exactly a state above the ceiling or one that does not decode, changing nothing but the rejection counter; otherwise holds the union, and counts one merge and the leaves gained exactly when the root moves |
| Gossip.GossipDaemon.AbsorbInbound | aegis/consensus/gossip.py:276-305 | states served while a client awaits are merged in order |
| Gossip.GossipDaemon.Exchange | aegis/consensus/transport.py:125-151 | 413 exactly above the ceiling and without effect; 200 exactly when the join succeeds, answering with the state before the merge |
| Gossip.GossipDaemon.ContactOne | aegis/consensus/gossip.py:314-350 | one peer's turn refines its specification: replica, that peer's health, outcome; no other peer's health moves |
| Gossip.GossipDaemon.RunRound | aegis/consensus/gossip.py:307-354 | the loop over peers refines the round, with its converged flag |
| GossipMeaning.IsRootIff | aegis/consensus/gossip.py:402-414 | what passes for a root is exactly the lower-case hexadecimal text of a 32-byte digest |
| GossipMeaning.BackoffSchedule | aegis/consensus/gossip.py:182-206 | the n-th failure in a row after a success is followed by exactly min(2^n, 64) skipped rounds |
| GossipMeaning.ContactMeaning | aegis/consensus/gossip.py:314-350 | the outcome of a contact, the peer's health and the leaves held after it, from the health before, the replies and the bodies delivered alone |
| GossipMeaning.DigestMatches | aegis/consensus/gossip.py:320-323 | a healthy peer that answers with the digest text of what is held matches, and nothing is exchanged |
| GossipMeaning.RoundMeaning | aegis/consensus/gossip.py:307-354 | peers are contacted in order with the health they had at the start; the round counts as started, and as converged iff there are peers and each was skipped, failed to give its root or gave the digest of what was held |
| GossipMeaning.AgreeingRound | aegis/consensus/gossip.py:307-354 | in an agreeing mesh a round changes no leaf, marks every peer healthy and counts as converged |
| GossipMeaning.HistoryMeaning | aegis/consensus/gossip.py:276-354 | over every history the leaves are the initial ones and those of the acceptable bodies delivered; states_rejected counts the other bodies and rounds_started the rounds |
| GossipCounters.CountersConserveLeaves | aegis/consensus/gossip.py:289-305 | over every history of rounds and inbound merges, the leaf count is the initial count plus leaves_learned, and states_merged counts exactly the root-changing merges |
| GossipCounters.HistoryCounted | aegis/consensus/gossip.py:289-305 | every event keeps the counters equal to what the published accumulators show |
| GossipCounters.PassFailures | aegis/consensus/gossip.py:328-350 | peer_failures rises by exactly the number of failed contacts of a round |
| GossipCounters.ConvergedIff | aegis/consensus/gossip.py:314-354 | rounds_converged rises by one or not at all, and rises iff there are peers and none was exchanged with or failed in the exchange; GossipMeaning.RoundMeaning says the same of digests |
| GossipCounters.ReadingIsRightIffNoneBackedOff | aegis/consensus/gossip.py:161-179 | the documented reading of the counters means agreement iff no peer was backed off |
| GossipCounters.BackedOffPeerLooksConverged | aegis/consensus/gossip.py:161-179 | one unreachable peer in backoff satisfies that reading without agreement |
| GossipMesh.ApplyShaped | aegis/consensus/gossip.py:307-354 | every step keeps cursors, phases and health tables in range |
| GossipMesh.OnlyAcceptedBodiesMoveLeaves | aegis/consensus/gossip.py:276-305 | a step moves leaves only by an accepted body and only at its receiver; a refused one leaves every accumulator as it was |
| GossipMesh.StepSafe | aegis/consensus/gossip.py:317-350 | every step keeps replicas, bodies in flight and stragglers within the initial leaves and loses no leaf |
| GossipMesh.GossipSafety | aegis/consensus/gossip.py:276-350 | over every interleaving with loss, damage, refusal and stragglers: leaf sets only grow, keep their start, invent nothing, and the mesh as a whole is conserved |
| GossipMesh.ExecBackoff | aegis/consensus/gossip.py:182-206 | in every reachable state no peer is skipped for more than 64 rounds |
| GossipRefinement.ContactIsMeshSteps | aegis/consensus/gossip.py:314-350 | run without interference, the mesh steps of a contact leave the client, its health table and the server exactly as the daemon's contact does, and touch nothing else |
| GossipRefinement.BrokenContactIsMeshSteps | aegis/consensus/gossip.py:332-350 | the same for a contact whose root, request or answer is lost or damaged: the server has merged what arrived whole, and only a lost request can still take effect |
| GossipRefinement.OtherSteps | aegis/consensus/transport.py:125-151 | a malformed root leads to an exchange, a straggling request is merged by its server alone, a new round starts over |
| GossipConvergence.RoundInformsBothEnds | aegis/consensus/transport.py:125-151 | over every interleaving of one round with working links, each contact not skipped gives both ends what the other had at the start, although the server answers before it merges |
| GossipConvergence.BackoffDrains | aegis/consensus/gossip.py:182-206 | each working round lowers every remaining skip by one, and no new one arises |
| GossipConvergence.LeavesTravel | aegis/consensus/gossip.py:307-354 | after backoff, leaves travel one link a round along any path of the undirected peer graph |
| GossipConvergence.ConvergenceBound | aegis/consensus/gossip.py:307-354 | with skips of at most 64, every replica holds the union after 64 + d rounds, d bounding the diameter |
| GossipConvergence.EventualAgreement | aegis/consensus/gossip.py:307-354 | after any past that ends at the start of a round, 64 + d lockstep rounds of working links give all replicas the union of the initial leaves and one root, unless two of the leaf sets' roots collide |
| GossipConvergence.AgreementFromAnywhere | aegis/consensus/gossip.py:307-354 | the same after any past whatever, with one partial round before them that ends the contacts under way |
| GossipConvergence.RoundsCanRun | aegis/consensus/gossip.py:307-354 | from every state any number of such rounds exists, so the bound is not about nothing |
| ScimStoreModel.ScimStore.constructor | aegis/auth/scim.py:334-340 | an empty store with its invariants |
| ScimStoreModel.ScimStore.CreateUser | aegis/auth/scim.py:344-380 | the new state and error of the transition function, indexes still inverse |
| ScimStoreModel.ScimStore.GetUserByName | aegis/auth/scim.py:395-401 | finds a user iff one has that name up to case, and that one only |
| ScimStoreModel.ScimStore.ReplaceUser | aegis/auth/scim.py:405-447 | likewise, with renaming |
| ScimStoreModel.ScimStore.PatchUser | aegis/auth/scim.py:450-493 | likewise, the loop over operations included |
| ScimStoreModel.ScimStore.DeleteUser | aegis/auth/scim.py:497-523 | likewise, leaving every group the user names |
| ScimStoreModel.ScimStore.CreateGroup | aegis/auth/scim.py:548-580 | likewise |
| ScimStoreModel.ScimStore.ReplaceGroup | aegis/auth/scim.py:597-635 | likewise |
| ScimStoreModel.ScimStore.PatchMemberSet | aegis/auth/scim.py:846-883 | the new member set and the users relinked one by one, or a refusal without effect |
| ScimStoreModel.ScimStore.PatchGroup | aegis/auth/scim.py:637-719 | likewise, with users relinked before the outcome is known |
| ScimStoreModel.ScimStore.DeleteGroup | aegis/auth/scim.py:723-732 | likewise |
| ScimStoreModel.ScimStore.AddMember | aegis/auth/scim.py:757-768 | likewise |
| ScimStoreModel.ScimStore.RemoveMember | aegis/auth/scim.py:770-781 | likewise |
| ScimInvariants.ExecIndexed | aegis/auth/scim.py:344-781 | every operation, failed ones included, keeps both name indexes exact inverses of the lower-cased names |
| ScimInvariants.SyncIffHarmless | aegis/auth/scim.py:637-719 | an operation keeps the two sides of the membership relation equal iff it is not a group PATCH that fails after its edits changed some stored user's membership |
| ScimInvariants.StoreInvariant | aegis/auth/scim.py:344-781 | both invariants after every history of operations that succeed or fail harmlessly, with fresh ids |
| ScimInvariants.AllOrNothing | aegis/auth/scim.py:450-493 | a failing operation other than patch_group leaves the store as it was |
| ScimInvariants.PatchFailsIff | aegis/auth/scim.py:650-700 | patch_group fails iff the group is missing, the request holds an operation refused on its face, or the new name belongs to another group |
| ScimInvariants.PatchGroupMeaning | aegis/auth/scim.py:637-719 | failed or not, users end linked as the left fold of union, difference and replacement over the old members says; only a success stores that fold in the group |
| ScimInvariants.OpsMeaning | aegis/auth/scim.py:650-693 | the operations fail iff one is refused, and do exactly the edits before the refusal |
| ScimInvariants.FailedPatchGroup | aegis/auth/scim.py:637-719 | a failed patch_group keeps groups and indexes and touches users only in their link to that group, and only if a members edit ran |
| ScimInvariants.FailedPatchBreaksSync | aegis/auth/scim.py:637-719 | adding a non-member and then removing displayName leaves a user linked to a group that does not list it |
| ScimMeaning.CreateUserMeaning | aegis/auth/scim.py:344-380 | fails iff a stored user has the name up to case; otherwise stores the user as given, in no group, and touches nothing else |
| ScimMeaning.ReplaceUserMeaning | aegis/auth/scim.py:405-447 | the exact errors; otherwise the user as given with its groups kept, and nothing else changed |
| ScimMeaning.DeleteUserMeaning | aegis/auth/scim.py:497-523 | the user stays on record, inactive and in no group, its groups lose it, its name stays taken |
| ScimMeaning.CreateGroupMeaning | aegis/auth/scim.py:548-580 | likewise for groups, with no members |
| ScimMeaning.ReplaceGroupMeaning | aegis/auth/scim.py:597-635 | the exact errors; otherwise the group as given with its members kept |
| ScimMeaning.DeleteGroupMeaning | aegis/auth/scim.py:723-732 | the group is gone, nobody is linked to it, its name is free again |
| ScimMeaning.AddMemberMeaning | aegis/auth/scim.py:757-768 | both sides gain exactly the link; fails iff either is missing |
| ScimMeaning.RemoveMemberMeaning | aegis/auth/scim.py:770-781 | both sides lose exactly the link; fails iff either is missing |
| ScimMeaning.MembershipRoundTrip | aegis/auth/scim.py:757-781 | adding and then removing a non-member restores the store |
| ScimMeaning.NamedIdsMeaning | aegis/auth/scim.py:854-863 | which ids a members value names, and when it cannot |
| ScimMeaning.EmailsMeaning | aegis/auth/scim.py:925-955 | how e-mail values are read, with their defaults |
| ScimMeaning.PatchGroupStores | aegis/auth/scim.py:637-719 | the exact error of patch_group; on success the display name and external id asked for last, the folded members and the old roles |
| ScimUserPatch.PatchUserMeaning | aegis/auth/scim.py:450-493 | a successful patch_user gives each attribute its last assignment in the request, and changes nothing else |
| ScimUserPatch.PatchUserFailsIff | aegis/auth/scim.py:450-493 | the exact error of patch_user: missing user, that of the first bad operation, or a last user name indexed for another user; none otherwise |
| ScimUserPatch.OpsErrorIs | aegis/auth/scim.py:886-960 | an operation list raises the error of its first bad operation, whatever the attributes |
| ScimUserPatch.OpsAssign | aegis/auth/scim.py:886-960 | operations with nested path-less objects equal their flattened single-attribute assignments, attribute by attribute |
| Stream.SetThenRead | aegis/embedded.py:435-468 | text set on a chunk is read back, and setting the old text restores the chunk |
| Stream.ChunkMeaning | aegis/embedded.py:435-468 | the text is the OpenAI content, else the Anthropic text, else empty; setting it changes that field alone |
| Stream.StreamRecorder.Record | aegis/embedded.py:523-528 | size, parts and the 4096-byte preview follow the recorded text |
| Stream.StreamRecorder.Observe | aegis/embedded.py:501-521 | what is recorded is what the chunk now carries; a redactor or rewrite that fails records nothing |
| Stream.StreamRecorder.Finalize | aegis/embedded.py:530-551 | the summary holds the bytes, size and clipped preview of exactly the recorded text with the flushed tail |
| Stream.PreviewMeaning | aegis/embedded.py:491-528 | the preview is the first min(4096, size) bytes |
| Stream.TextsMeaning | aegis/embedded.py:501-521 | the redactor is fed the texts of the text-bearing chunks, in order |
| Stream.YieldAll | aegis/embedded.py:557-606 | delivery stops at the consumer's close and nowhere else |
| Stream.Drain | aegis/embedded.py:577-588 | the loop consumes the source's chunks in order, each with the text the redactor settled for it, keeps delivered plus buffered equal to them, never releases the last text, and stops early only at the consumer's close or at a chunk whose redaction fails |
| Stream.LastTextIsLast | aegis/embedded.py:577-588 | the index withheld is that of the last text-bearing chunk |
| Stream.ReleaseHeld | aegis/embedded.py:600-606 | the buffer is released after the commit, its first chunk carrying exactly the flushed tail besides its settled text |
| Stream.WrapSyncStream | aegis/embedded.py:557-606 | for every stream, redactor, close, error and ledger failure: the chunks consumed are the source's first ones with their settled texts; they are delivered in order, the last text withheld until the commit; the hashed body is their text and the flushed tail; delivered text is a prefix of it, and at "complete" delivered plus held text equals it exactly unless an unfed flush has text; an upstream error has its cause in the source or the redactor; one terminal commit attempt unless the flush raises |
| Stream.PromiseIsComplete | aegis/embedded.py:557-689 | that promise admits one run only for each environment |
| Stream.UnredactedRun | aegis/embedded.py:557-606 | without redaction the consumer and the hash get the source's own chunks and text |
| Stream.UnfedFlushIsHashedOnly | aegis/embedded.py:651-689 | an empty source and a redactor with text to flush: the only run hashes that text and delivers none |
| Chain.ChainNeverForks | aegis_server/main.py:546-658 | over every interleaving of processes and failures each node points at the one before it, ids are unique, the chain only grows, and no two nodes share a predecessor |
| Chain.RefusedIff | aegis_server/main.py:386-399 | an append is refused iff another process appended since the tip was read, or the read failed on a non-empty chain |
| Chain.NeverRefusedAlone | aegis_server/main.py:386-399 | one process whose reads succeed is never refused |
| Chain.EvidenceConservation | aegis_server/main.py:559-658 | a process's stored rooted leaves are a subsequence of its MMR leaves; the gap is its reported failures after add_leaf, its ignored writes and the leaf in progress, hence the failures alone iff no rooted node was ignored |
| ChainEvidence.DurableExitsAreBacked | aegis_server/main.py:949-981 | an exit marked durable has a signed node in the chain for exactly its request, response and instant, or the node under its id and its own show two colliding inputs; every other exit is 503 unavailable |
| ChainEvidence.IdFixesEvidence | aegis_server/main.py:559-608 | nodes with one id have one signature, root, leaf and pair of hashes, barring such a collision |
| ChainEvidence.IgnoredIff | aegis_server/storage/sqlite_provider.py:136-142 | barring collisions a current append is ignored iff the chain has a node with its root and signature |
| ChainEvidence.LeafFixesJob | aegis_server/main.py:562 | equal leaf texts mean the same request hash, response hash and timestamp |
| ChainEvidence.IgnoredIsSameInstant | aegis_server/main.py:562-608 | with or without the MMR, a node is ignored only against one for the same request, response and instant, barring a collision |
| ChainWorker.AuditStore.WriteNodeAtomic | aegis_server/storage/sqlite_provider.py:378-457 | compare-and-append: refused on a stale tip, ignored on a known id, appended otherwise |
| ChainWorker.SectionIsFiveSteps | aegis_server/main.py:546-658 | the critical section equals its five steps run without interruption |
| ChainWorker.SectionMeaning | aegis_server/main.py:546-658 | the leaf added, exactly when the commit succeeds, and the node stored, from the request and the faults |
| ChainWorker.ResponseMeaning | aegis_server/main.py:1030-1079 | a successful commit answers with the upstream status as durable, any other with 503 as unavailable |
| ChainWorker.SameRequestSharesNode | aegis_server/storage/sqlite_provider.py:136-142 | two processes committing one request at one instant both exit durable over one node, and the second leaf is stored nowhere |
| ChainWorker.Worker.RunForensicAnalytics | aegis_server/main.py:546-658 | the early returns of the code refine that section, and it reports success iff the node was written without error |
| Merkle.MerkleRoot | scripts/build_execution_manifest.py:80-95 | the in-place level loop computes the root of the recursive tree |
| Merkle.RootMeaning | scripts/build_execution_manifest.py:80-95 | the root on digests alone: prefix 0 and a zero separator for leaves, prefix 1 for levels, an odd digest paired with itself, a single zero for no records |
| Merkle.HashTreeInjective | scripts/build_execution_manifest.py:80-95 | barring collisions among the inputs hashed, equal hashes mean equal trees, by the domain prefixes |
| Merkle.BuildInjective | scripts/build_execution_manifest.py:88-94 | padding and pairing lose nothing on distinct leaves, for all lengths |
| Merkle.RootsAgreeIffTreesAgree | scripts/build_execution_manifest.py:80-95 | roots agree iff the padded trees agree, empty lists included |
| Merkle.MerkleBinding | scripts/build_execution_manifest.py:80-95 | equal roots of distinct records mean equal lists |
| Merkle.BindingOrCollision | scripts/build_execution_manifest.py:80-95 | two such lists with one root yield two explicit colliding inputs |
| Merkle.RepeatedLastSharesRoot | scripts/build_execution_manifest.py:89-90 | [a,b,c] and [a,b,c,c] share a root, and so for every odd length above one |
| Merkle.RepeatedLastExactly | scripts/build_execution_manifest.py:89-90 | for distinct records exactly then |
| Hex.HexRoundTrip | scripts/build_execution_manifest.py:86 | hexadecimal digests read back |
| Utf8.EncodeInjective | scripts/build_execution_manifest.py:85 | encoded paths determine the path |
| Utf8.FormOf | scripts/build_execution_manifest.py:85 | the four byte forms of section 3 of RFC 3629 and the bits they carry |
| Envelope.StringRoundTrip | aegis/core/a2a.py:188-199 | every string of Unicode scalar values survives escaping, surrogate pairs included |
| Envelope.ObjectRoundTrip | aegis/core/a2a.py:188-199 | rendered objects parse back member by member |
| Envelope.EnvelopeText | aegis/core/a2a.py:188-199 | the whole text: which field stands under which key, in which order and spelling |
| Envelope.EscapeMeaning | aegis/core/a2a.py:199 | the escape of every character |
| Envelope.Hex4Meaning | aegis/core/a2a.py:199 | the four digits of a \u escape |
| Envelope.ReadHexDigitMeaning | aegis/core/a2a.py:220-227 | hexadecimal digits of either case as JSON readers take them |
| Envelope.ValidIff | aegis/core/a2a.py:103-118 | which fields the validators admit |
| Envelope.EnvelopeInjective | aegis/core/a2a.py:173-199 | equal envelopes mean seven equal fields, the timestamp as rendered |
| Envelope.LeafUsesExecutionId | aegis/core/a2a.py:220-227 | parsing an envelope returns the execution_id it was made from |
| Envelope.EnvelopeLength | aegis/core/a2a.py:173-199 | its exact length from the escaped lengths of its fields |
| Envelope.FitsIff | aegis/core/a2a.py:93-118 | it fits 2048 bytes iff the escaped identifiers and the timestamp are short enough |
| Envelope.PrintableFits | aegis/core/a2a.py:93-118 | with printable ASCII identifiers it always does |
| Envelope.ValidEnvelopeCanExceedFloor | aegis/core/a2a.py:93-118 | with admitted identifiers beyond the basic plane it does not |
| Der.MinimalBytes | aegis/anchoring/rfc3161.py:423-449 | to_bytes of the computed width carries the value without a leading zero |
| Der.IntegerContentReads | aegis/anchoring/rfc3161.py:440-449 | integers are minimal and never read back negative |
| Der.LengthRoundTrip | aegis/anchoring/rfc3161.py:423-429 | a strict reader recovers every representable length |
| Der.RequestRoundTrip | aegis/anchoring/rfc3161.py:305-316 | a strict reader recovers imprint and nonce from every request |
| Der.RequestCanonical | aegis/anchoring/rfc3161.py:305-316 | whatever the strict reader accepts is what build_request writes for what was read |
| Der.RequestLayout | aegis/anchoring/rfc3161.py:305-316 | the request octet by octet |
| Der.RequestRefusedIff | aegis/anchoring/rfc3161.py:308-311 | refused iff the imprint is not 32 bytes or the nonce is not positive |
| Der.RequestFitsIff | aegis/anchoring/rfc3161.py:239-240 | a request fits the 4096-byte bound iff its nonce has at most 4031 content bytes |
| Der.SecureNonceFits | aegis/anchoring/rfc3161.py:318-320 | every nonce below 2^160 is representable and fits |
| Reachability.KnownPrefixIsLongest | scripts/verify_import_reachability.py:208-219 | an import resolves to its longest known prefix, or to nothing |
| Reachability.LongestKnownPrefix | scripts/verify_import_reachability.py:208-219 | the shrinking loop computes it |
| Reachability.ReachableSet | scripts/verify_import_reachability.py:166-221 | the worklist ends despite duplicates and returns the least set with the known entrypoints, closed under ancestors and import resolution, and the unknown entrypoints |
| Reachability.ReachableSetUnique | scripts/verify_import_reachability.py:166-221 | there is one such set |
| ReachabilityMeaning.ExecutesMeaning | scripts/verify_import_reachability.py:181-219 | importing a module executes exactly the known packages above it and the known modules that the names its import statements spell lead to |
| ReachabilityMeaning.FromImportReaches | scripts/verify_import_reachability.py:199-219 | `from B import x` in a reached module reaches B.x where that is a module |
| ReachabilityMeaning.PlainImportReaches | scripts/verify_import_reachability.py:208-219 | `import B` reaches the longest known prefix of B |
| ReachabilityMeaning.RelativeImportReaches | scripts/verify_import_reachability.py:128-139 | a relative import reaches the name beside the package its dots stand for |
| ReachabilityMeaning.ReachedMeaning | scripts/verify_import_reachability.py:166-221 | a module is reached iff a chain of such links leads to it from a known entrypoint |
| Reachability.ReachedIffImported | scripts/verify_import_reachability.py:166-221 | the set returned is what some chain of executed imports from a known entrypoint leads to |
| Reachability.CheckReachability | scripts/verify_import_reachability.py:248-313 | a module is reported as an orphan iff no chain of imports leads to it and it is not declared; the gate passes iff every entrypoint exists and the declared modules are the existing ones no chain leads to |
| Wal.Scan | tools/wal_repair.py:64-75 | the first non-blank line that does not parse |
| Wal.LastContentIndex | tools/wal_repair.py:78-82 | the last non-blank line |
| Wal.FirstLineMeaning | tools/wal_repair.py:64-75 | a line runs up to and with its first boundary, CR LF being one |
| Wal.BreaksAre | tools/wal_repair.py:64-75 | the line boundaries, by code point |
| Wal.SplitMeaning | tools/wal_repair.py:64-75 | splitting cuts the text into such lines and loses nothing |
| Text.TranslateMeaning | tools/wal_repair.py:64-75 | how reading translates CR and CR LF |
| Wal.WalFile.Repair | tools/wal_repair.py:85-142 | refuses iff content follows the first bad line, writes only when applied and after a backup, keeps exactly the lines before it, and never takes exit 3 |
| Wal.ResplitPrefix | tools/wal_repair.py:64-75 | re-splitting a joined prefix of split lines gives that prefix |
| Wal.RepairReadsBack | tools/wal_repair.py:130-142 | the repaired file reads as the kept lines, none of them bad |
| Wal.DropsOneTornLine | tools/wal_repair.py:85-142 | the dropped part holds one non-blank line, which does not parse |
| Wal.RepairTwice | tools/wal_repair.py:85-142 | a second run finds nothing to do |
| Wal.RetainedBytesIff | tools/wal_repair.py:64-75 | the kept lines stay as they were on disk iff none of them holds a CR |
| Wal.RepairRewritesCrLf | tools/wal_repair.py:85-142 | an applied repair of `{}` CR LF and a torn line exits 0 and leaves a file that is no prefix of the old one |
| Licence.Base64RoundTrip | scripts/generate_license_key.py:145-151 | unpadded base64url decodes to what was encoded, for every length, and holds no "." |
| Licence.EncodeShape | scripts/generate_license_key.py:145-151 | stripping removes the padding alone, and the decoder's own padding restores it |
| Licence.DigitMeaning | scripts/generate_license_key.py:145-146 | the alphabet |
| Licence.GroupBits | scripts/generate_license_key.py:145-146 | four sextets are the bits of three bytes, most significant first |
| Licence.ScanMeaning | scripts/generate_license_key.py:149-151 | the decoder character by character: digits, completing pads, and everything passed over |
| Licence.TakeMeaning | scripts/generate_license_key.py:149-151 | the bits each digit adds to the decoded bytes |
| Licence.DigitValueIff | scripts/generate_license_key.py:149-151 | which characters are digits, both spellings of 62 and 63 included |
| Licence.DecodeMeaning | scripts/generate_license_key.py:149-151 | the padding restored for each length; text that is not ASCII does not decode |
| Licence.SplitAtMark | scripts/generate_license_key.py:195-199 | a key splits into its two parts |
| Licence.GeneratedKeyVerdict | scripts/generate_license_key.py:154-219 | the verdict on a generated key under every master key at every time |
| Licence.GenerateKeyMeaning | scripts/generate_license_key.py:154-189 | the payload of a known tier, its expiry in days of 86400 seconds, and the key made of it; an unknown tier is refused |
| Licence.AcceptedIff | scripts/generate_license_key.py:192-219 | a key is accepted iff it is two decodable parts around one dot, the second the tag of the first, and not expired |
| Licence.ValidExactlyUntilExpiry | scripts/generate_license_key.py:192-219 | the issuing key accepts up to and including exp and reports expiry after it |
| Licence.KeyFixesPayload | scripts/generate_license_key.py:182-189 | equal key strings come from equal payloads, whatever the master keys |
| Release.SortCorrect | scripts/prepare_release_assets.py:41-50 | the stable sort is a sorted permutation |
| Release.ListingUnique | scripts/create_github_release.py:51-53 | a set of names has one sorted listing, so directory order does not matter |
| Release.SidecarReads | scripts/create_github_release.py:40-44 | a sidecar parses to its digest when its name has no CR |
| Release.CrNameHasNoSidecar | scripts/create_github_release.py:40-44 | no file is a sidecar of a name with a CR |
| ReleaseMeaning.LeqMeaning | scripts/prepare_release_assets.py:41-50 | the order of names: a prefix first, otherwise the first differing code point |
| ReleaseMeaning.PayloadIff | scripts/prepare_release_assets.py:18 | which names are payloads |
| ReleaseMeaning.EnvelopeFiles | scripts/prepare_release_assets.py:59-94 | which files the producer leaves |
| ReleaseMeaning.EnvelopeBytes | scripts/prepare_release_assets.py:59-88 | the bytes of payloads and sidecars |
| ReleaseMeaning.ManifestLists | scripts/prepare_release_assets.py:69-85 | size, name and digest of each payload in name order, under the schema name |
| ReleaseMeaning.SumsList | scripts/prepare_release_assets.py:90-95 | SHA256SUMS is one line for each payload and one for the manifest, sorted |
| ReleaseMeaning.DuplicatesIff | scripts/prepare_release_assets.py:53-56 | duplicates are refused iff two payload files of the tree share a name |
| ReleaseMeaning.SidecarIff | scripts/create_github_release.py:40-44 | a file is a sidecar of a name iff it is ASCII and reads as a digest, two spaces and that name, white space around them aside |
| ReleasePair.CopyPayloads | scripts/prepare_release_assets.py:59-72 | the loop writes each payload and its sidecar and nothing else, and stops iff a name is not ASCII |
| ReleasePair.PrepareReleaseAssets | scripts/prepare_release_assets.py:31-94 | succeeds iff there are payloads with distinct ASCII names, and then leaves exactly their envelope |
| ReleasePair.CheckPayloads | scripts/create_github_release.py:71-80 | the loop finds a sidecar that does not match iff there is one |
| ReleasePair.ReleaseAssets | scripts/create_github_release.py:47-102 | accepts iff sidecars, parsed manifest and SHA256SUMS match the payload bytes and the set of files is closed |
| ReleasePair.ProducedIsAcceptedIff | scripts/prepare_release_assets.py:31-94 | the checker accepts what the producer wrote iff no payload name holds a CR |
| ReleasePair.ProduceThenCheck | scripts/create_github_release.py:47-102 | the two scripts in a row, for every tree and every listing order |
| ReleasePair.CrNameIsRefused | scripts/create_github_release.py:40-44 | a tree with one file "a" CR ".whl" is written by the producer and refused by the checker |
| ReleasePair.SidecarBindsPayloads | scripts/create_github_release.py:92-95 | two accepted directories with one manifest sidecar and different payloads yield two files with one digest |
| Abac.ReadAllowedIff | aegis/auth/abac.py:191-224 | a read takes clearance, every compartment and releasability |
| Abac.RankOrders | aegis/auth/abac.py:52-65 | the ranks order the levels as the tiers are listed |
| Abac.ReadDecision | aegis/auth/abac.py:191-263 | the answer to every read, in order: read up, missing compartments, not releasable, allowed |
| Abac.WriteAllowedIff | aegis/auth/abac.py:268-289 | a write is permitted iff the sink is not below the clearance |
| Abac.FlowAllowedIff | aegis/auth/abac.py:293-313 | a flow is permitted iff the sink is not below the source and has its compartments |
| Abac.StepMeaning | aegis/auth/abac.py:268-313 | what each permitted move of a run carries |
| Abac.NoDownwardFlow | aegis/auth/abac.py:268-289 | in every run of mediated reads, writes and flows nothing moves below its classification |
| Abac.FlowsKeepDominance | aegis/auth/abac.py:293-313 | in every run of permitted flows each object dominates all it holds, compartments included |
| Abac.DominanceIsPartialOrder | aegis/auth/abac.py:132-136 | reflexive, transitive, and mutual exactly on equal classification and compartments |
| Abac.NoLeakIffConfined | aegis/auth/abac.py:268-289 | all runs respect compartments iff no subject can carry content to an object that lacks one |
| Abac.WriteIsSafeIff | aegis/auth/abac.py:268-289 | a permitted write carries only what its sink dominates iff the sink has the subject's compartments, or the subject can read nothing |
| Abac.WriteDropsCompartment | aegis/auth/abac.py:268-289 | a run of two moves that takes a compartmented object's content into an uncompartmented one |
| Abac.AffiliatedIff | aegis/auth/abac.py:226-263 | a subject can read some label iff it has the home affiliation or any other than NOFORN |
| Abac.FlowKeepsReadersIff | aegis/auth/abac.py:293-313 | a permitted flow adds no reader iff the sink's release markings open it to no one the source's do not |
| Abac.FlowGainsReader | aegis/auth/abac.py:293-313 | a permitted flow of NOFORN data to a sink a foreign subject may read |

## Left out

- Gossip transport, TLS contexts, HTTP clients and asyncio scheduling: contacts enter as scripts and steps; `_PeerHealth` objects are values in the daemon's table.
- The accumulator behind `CausalAccumulator`: a finite leaf set with union, an arbitrary codec and an arbitrary root.
- GossipConvergence.EventualAgreement: speaks of lockstep rounds with working links; it says nothing of rounds in which links fail again.
- GossipRefinement.ContactIsMeshSteps: leaves out a replica that lists itself as a peer.
- ChainEvidence.DurableExitsAreBacked: takes digests and MMR roots of 64 characters, timestamps shorter than that and signatures that are not empty, as the code makes them; the MMR is a function from leaves to a root.
- SCIM timestamps, ETags, filters, listing, role mapping and serialization: easy members beside the store's invariants.
- Scim ids compare as JSON values, so Python's `True == 1` coincidence among ids is not modelled; a repeated key of an object is looked up at its first place.
- ScimInvariants.StoreInvariant: assumes fresh ids, as `uuid4` gives them.
- Stream chunk objects are values, so aliasing between a chunk and its consumer is not modelled; the async twin and `BaseException` other than generator exit are left out.
- Chain.EvidenceConservation: takes a write that raises to have stored nothing (and so does every statement about the chain); the entropy and topology computations that precede the section are left out, as is the streaming exit.
- Other storage providers (PostgreSQL, DynamoDB): the model follows the SQLite one.
- Merkle.MerkleBinding: says nothing of `size_bytes`, which is not part of the leaves; records without distinctness are covered by the trees they pad to.
- Envelope.EnvelopeInjective: the timestamp is compared in its six-decimal rendering; receipts, proofs and signatures are left out.
- Der.RequestRoundTrip: lengths of more than 126 octets are outside, as DER cannot write them; the TSA response, CMS and certificates are left out.
- Reachability.ReachableSet: module discovery and the syntax tree walk enter as a map from modules to their imports, with names already split at dots.
- Wal.WalFile.Repair: models a POSIX host, where writing translates no newline; messages and the choice of backup path are left out.
- Licence.ValidExactlyUntilExpiry: the constant version field of the payload is part of the JSON codec, and the JSON codec and the HMAC are parameters with loads(dumps(p)) == p; loading the master key is left out.
- ReleasePair.PrepareReleaseAssets: a directory is its regular files, so links and subdirectories, which both scripts skip, do not appear; what is left behind by a refused preparation is not stated; the manifest's JSON is a parameter.
- Abac.NoDownwardFlow: labels and clearances do not change during a run, as they are frozen in the source; impact-level accreditation is left out.
- Configuration, dashboards, integrations, documentation linters, benchmarks: no property beyond single branches.

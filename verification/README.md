# Custos: verified models of its protocol and codec cores

A Dafny 4.11 model of the parts of Custos whose correctness spans many steps or many bytes, with proofs over every input,
every run or every reachable state. `dafny verify dfyconfig.toml` checks all of it.

- **Resumable ceremonies** (`CeremonyJournal`): a class with a durable cursor, and the event machine of crashes, failed work
  and failed saves that shows what resuming preserves.
- **Child mint and claim sweep** (`AgentTables`, `ChildMint`, `ChildJournal`, `MintOutcome`, `AgentServer`): the tables and
  transactions, a state machine of concurrent mints, sweeps and confirms with the journal each child sees, and a class that
  runs them statement by statement, is proved to be such a run, and answers and leaves what one request should.
- **Blob garbage collection and scrub** (`BlobPaths`, `BlobGc`, `BlobGcRuns`, `BlobReferences`, `BlobScrub`): ownership rows
  over shared files with failures at every statement, what becomes of a blob over whole runs of passes, the walk that
  finds links in records page by page, and the integrity pass that heals.
- **Key recovery shares** (`Octets`, `AsciiCase`, `Fields`, `GF256`, `Shamir`, `TextCoding`, `Mnemonic`,
  `ShareEnvelope`): interpolation and perfect secrecy over any field of characteristic two, the one of section 4.2 of
  FIPS 197 built from its bit loop up, and both text forms down to case and whitespace.
- **did:plc operations** (`Cbor`, `CanonicalOrder`, `PlcOps`, `Plc`): canonical DAG-CBOR with a decoder (sections 3 and 4.2 of
  RFC 8949), CIDs, and the three builder and verifier pairs.
- **Permissioned repos** (`LtHash`, `SpaceCommit`): the incremental multiset hash under batches of record writes, and the
  commit context.
- **Base58** (`Base58`): the notification extension's decoder and the encoder of its tests, as one printer and parser pair.
- **Padding, signed envelopes, nonce retention** (`Padding`, `SignedEnvelopes`, `NonceRetention`).

Classes and loops stand where the source updates state in place; each is proved against a function or predicate, and the
main results are about those. Every SQL statement or transaction is one step on maps. SHA-256, BLAKE3, ECDSA, multibase
and the signing callbacks are function parameters, so each result holds for all of them; random values, clocks, network
answers, crashes and failing statements are arguments or events.

## Where a promise needs a condition

The code is modelled as it is. In these places a documented promise does not hold for every input, and the condition under
which it does is proved to be exact.

- Resuming a mint compares parent and handle with the stored row, not the registration. Even when every claiming request
  names its own attempt's registration, a completed attempt's audit event can confirm another one; over a whole run every
  event matches if and only if no finalize committed for a row stored for a registration other than its request's
  (`ChildMint.ConfirmationsMatchIff`, with `ForeignAttemptRun`).
- The claim sweep lists and flips with two readings of the clock. The flipped and the audited set agree if and only if
  nothing is due or no pending attempt lapses between the readings (`ChildMint.SweepAuditsAllIff`, with
  `SilentExpiryExample`).
- The collector's comment calls an orphaned file the worst outcome of its ordering. A pass that deletes a blob's last owner
  and breaks off before the blob row leaves a row, and its file, that no later error-free pass removes, and that is the only
  way a fallen blob stays uncollected (`BlobGcRuns.UncollectedIffStranded`, `BlobGc.OwnerlessRowLeaks`);
  and an upload whose insert falls between the sweep's row delete and its unlink ends with a row without bytes
  (`BlobGc.InsertSoundIff`, with `UploadRaceExample`).
- A heal whose directory sync fails has already put the good file in place, yet the row is tallied as missing or corrupted
  (`BlobScrub.HealthAfterPass`).
- Replay safety needs the retention to exceed twice the window plus the time between a request's clock check and the
  recording of its nonce; the configured rule is exact when that time is zero (`NonceRetention.ReplaySafeIff`,
  `MarginIsTheDelay`).
- The journal keeps its steps in order whatever they do, but its final world equals the crash-free one if and only if redoing
  a step right after itself changes nothing (`CeremonyJournal.SavesAreExactIffIdempotent`).

## Model

| member | source | states |
|---|---|---|
| CeremonyJournal.Resume | crates/ceremony-journal/src/lib.rs:38-41 | Resuming starts a journal at the stored cursor, and fails exactly when the store cannot be read |
| CeremonyJournal.Journal.Advance | crates/ceremony-journal/src/lib.rs:54-58 | Store first, cursor second: a failed save leaves the cursor behind, and may or may not have reached the store |
| CeremonyJournal.Journal.Run | crates/ceremony-journal/src/lib.rs:61-71 | A reached step does nothing; otherwise its work precedes its record, and the cursor moves only when both succeeded |
| CeremonyJournal.Drive | crates/ceremony-journal/src/lib.rs:8-14 | One process driving every step never loses a recorded one and gets through when nothing fails; with idempotent work it keeps the store consistent wherever it stops and ends in the crash-free world if it gets through |
| CeremonyJournal.JournalRefinesCrashFreeRun | crates/ceremony-journal/src/lib.rs:38-71 | Over every schedule of crashes, failed work and failed saves, whatever the work does: the stored cursor says exactly which steps are recorded, each behind its completed work with no break between, no step starts before its predecessors are recorded or once it is, and one re-runs only after a break; with idempotent work the final world is that of the crash-free run |
| CeremonyJournal.SavesAreExactIffIdempotent | crates/ceremony-journal/src/lib.rs:61-71 | Idempotent work is exactly what that needs: if and only if it holds does every recorded step, in every run, leave the crash-free world |
| ChildMint.RunKeepsInvariant | crates/custos-agents/src/agent_child_core.rs:79-204 | Every run of concurrent mints, crashes, outages, sweeps and confirms keeps accounts, rows, registrations, attempts, frames and audit in agreement |
| ChildMint.ActiveChildIsComplete | crates/custos-agents/src/agent_child_core.rs:524-663 | A child account is active exactly when its row is finalized; then plc.directory knows it, its registration is claimed for it, and its two genesis frames are staged exactly once; otherwise none are |
| ChildMint.ActivationIsAtomic | crates/custos-agents/src/agent_child_core.rs:524-663 | The step that activates a child is a committing finalize, and finalized row, claimed registration and staged frames arrive in that very step |
| ChildMint.AttemptStep | crates/custos-agents/src/agent_child_core.rs:571-618 | One step leaves an attempt alone or gives a pending one its outcome, by the right writer: a sweep, a confirm, or the finalize that takes the mint's child from unfinalized and inactive to finalized and active |
| ChildMint.AttemptOutcomeIsFinal | crates/custos-agents/src/agent_claim_sweep.rs:45-83 | Over every run an attempt gets at most one outcome, keeps it for ever, and has exactly one audit event, of the matching kind, from then on |
| ChildMint.ConflictingMintChangesNothing | crates/custos-agents/src/agent_child_core.rs:301-369 | A mint for a child in flight under another parent or handle changes no table and publishes nothing, at any of its steps |
| ChildMint.FinalizedOnce | crates/custos-agents/src/agent_child_core.rs:618-663 | A child already finalized cannot be finalized again: the second attempt is refused |
| ChildMint.ConfirmationsMatchIff | crates/custos-agents/src/agent_child_core.rs:301-369 | Over every run whose claiming requests name their own attempt's registration: each completed attempt's one event confirms it for the registration it belongs to, if and only if no finalize committed for a row stored for another registration (nothing in the code compares them) |
| ChildMint.ForeignAttemptRun | crates/custos-agents/src/agent_child_core.rs:301-369 | A concrete run of such requests, from the empty tables through a crashed first mint, in which a resume for a second registration spends that one's attempt to confirm the first |
| ChildMint.SweepAuditsAllIff | crates/custos-agents/src/agent_claim_sweep.rs:45-83 | A sweep whose listing and flip read the clock separately audits every transition if and only if nothing is due or no pending attempt lapses between the readings |
| ChildMint.SilentExpiryExample | crates/custos-agents/src/agent_claim_sweep.rs:45-83 | A concrete state in which an attempt expires without its audit event |
| ChildMint.RetryActivates | crates/custos-agents/src/agent_child_core.rs:158-193 | An identical retry that nothing interrupts carries any unfinished child through to activation, provided the registration half of finalizing is still possible at its time |
| ChildMint.OwnerConfirmsIff | crates/custos-agents/src/routes/agent_claim.rs:430-487 | The owner's confirm goes through exactly for a live attempt and an active registration, unowned if it is to be bound, and then claims it |
| ChildJournal.ChildJournalInOrder | crates/custos-agents/src/agent_child_core.rs:207-282 | The mint's three steps as its journal: over every run of interleaved, failing and crashing mints no step of a child starts before its predecessors are recorded, a record follows work of its step, the stored cursor says exactly which steps are recorded, and prepare and finalize, which record themselves, do so at most once |
| AgentServer.Server.PrepareTx | crates/custos-agents/src/agent_child_core.rs:374-497 | Account, handle and row appear together or not at all, with the refusals in the source's order |
| AgentServer.Server.PublishGenesis | crates/custos-agents/src/agent_child_core.rs:499-522 | Nothing is posted when the lookup finds the operation there; a post that reports a failure may still have reached plc.directory; no table changes |
| AgentServer.Server.SavePublishedRow | crates/custos-agents/src/agent_child_core.rs:259-282 | Only the published mark changes |
| AgentServer.Server.FinalizeTx | crates/custos-agents/src/agent_child_core.rs:524-663 | Claim, registration, frames, activation and the finalized mark commit together, or nothing does |
| AgentServer.Server.ObtainPrepared | crates/custos-agents/src/agent_child_core.rs:158-186 | No stored row: prepare; otherwise reload for the same parent and handle; either way exactly a run of mint steps |
| AgentServer.Server.RunPublished | crates/custos-agents/src/agent_child_core.rs:188-192 | The published step is a run of mint steps and ends at least at the published cursor |
| AgentServer.Server.RunFinalized | crates/custos-agents/src/agent_child_core.rs:193-197 | The finalized step is a run of mint steps and ends at the finalized cursor |
| AgentServer.Server.MintChildAccount | crates/custos-agents/src/agent_child_core.rs:79-204 | Whatever the environment does, a mint is a run of mint steps that keeps the invariant of every run, and it answers and leaves exactly what the tables it found and the faults it met call for: the error of the first obstacle in the source's order, with the child not reserved, reserved or published; or the child as requested or stored, activated, its registration claimed, its attempt spent and audited, and its commit and sync frames appended |
| MintOutcome.InterruptedMintResumes | crates/custos-agents/src/agent_child_core.rs:74-78 | Once its child is reserved, whatever stopped a mint, the same request with nothing failing returns the same child and completes the mint, as long as the registration can still be had |
| AgentServer.Server.SweepClaims | crates/custos-agents/src/agent_claim_sweep.rs:45-83 | With both clock readings equal, exactly the pending attempts past their time expire, each with one audit event naming its registration, itself and the owner; none stays pending past its time |
| BlobGc.Collector.ReconcileAccount | crates/custos-blobs/src/blob_gc.rs:249-283 | Referenced stored CIDs end permanent with the true count (adopted if absent), permanent rows no longer referenced start their grace clock, everything else stays; the counts returned are of the rows inserted or changed and of the rows released; it fails exactly when one of its statements does, and then each row is at its target or untouched |
| BlobGc.Collector.SweepExpiredOwner | crates/custos-blobs/src/blob_gc.rs:405-433 | The row goes only if still expired, the blob row only with its last owner, the file only behind its row; each place it can fail leaves exactly the statements before it |
| BlobGc.Collector.RunBlobGc | crates/custos-blobs/src/blob_gc.rs:119-195 | For every pattern of failures: exactly the accounts one of whose statements fails are left out; every expired row of the others goes unless its own delete failed; of the rows of a CID that lost all its owners one was the last, and where its visit broke off decides whether blob row and file went with it; errors are the accounts that failed and the visits that broke off, and reconciled, released, expired and deleted count exactly the rows and files named |
| BlobGc.PassIsSafe | crates/custos-blobs/src/blob_gc.rs:119-195 | After a pass, whatever failed: a stored CID a reconciled account references keeps row and file and has a permanent owner row with the true count; a failed account keeps every row and the bytes of every CID it owns |
| BlobGc.PassKeepsConsistent | crates/custos-blobs/src/blob_gc.rs:10-28 | No owner row without blob row, no blob row without file, no deadline with references left: kept by every pass |
| BlobGc.UnreferencedRow | crates/custos-blobs/src/blob_gc.rs:253-283 | In an error-free pass an unreferenced row survives exactly when its deadline, fresh or old, is not past at the sweep |
| BlobGc.ReclaimedIff | crates/custos-blobs/src/blob_gc.rs:10-28 | An error-free pass reclaims a blob if and only if it had an owner, nobody references it, and every owner's grace is over; its file goes with it |
| BlobGcRuns.FallenBlobIsCollected | crates/custos-blobs/src/blob_gc.rs:10-28 | Over every run of error-free passes a blob that fell out of every record keeps row and file exactly while some owner's grace, running or started by the first pass, outlasts every pass so far, then both go for good; each owner's row stands with that deadline exactly while its own grace does |
| BlobGcRuns.FateOfFallenBlob | crates/custos-blobs/src/blob_gc.rs:119-195 | Over every run of passes, whatever fails in them, where the delete of such a blob's last owner broke off decides: never deleted, owners, row and file are kept; run to its end, row and file are gone; broken off at the unlink, only the file stays; broken off at the blob row, row and file stay without an owner, for good |
| BlobGcRuns.UncollectedIffStranded | crates/custos-blobs/src/blob_gc.rs:397-433 | Once every grace is over, an error-free pass leaves the row of such a blob uncollected if and only if an earlier pass deleted its last owner and broke off before the blob row |
| BlobGc.OwnerlessRowLeaks | crates/custos-blobs/src/blob_gc.rs:405-420 | A blob row left without owners, as a crash between the two deletes leaves it, is never reclaimed by any error-free pass |
| BlobGc.VisitIsItsStatements | crates/custos-blobs/src/blob_gc.rs:405-433 | A visit of the sweep is a prefix of its three statements, cut where one failed or the row was not expired, so the crash machine steps through what the pass runs |
| BlobGc.CrashesNeverDangle | crates/custos-blobs/src/blob_gc.rs:397-433 | With a crash allowed between any two statements, owner rows keep blob rows and blob rows keep files, as long as uploads stay out of the window between row delete and unlink |
| BlobGc.InsertSoundIff | crates/custos-db/src/blobs.rs:70-108 | For an upload's insert that exclusion is exact: it leaves the store sound if and only if the blob row exists or the file is there and not about to be unlinked |
| BlobGc.InsertedRows | crates/custos-db/src/blobs.rs:70-108 | An upload's insert adds the blob row once and gives the account a fresh deadline unless it already references the CID; nothing else moves |
| BlobGc.UploadRaceExample | crates/custos-blobs/src/blob_gc.rs:405-433 | A concrete interleaving of an upload with the sweep that leaves a row without bytes |
| BlobPaths.PathInjective | crates/custos-core/src/blob_store.rs:110-116 | Distinct CIDs are stored at distinct paths |
| BlobReferences.LinkedIff | crates/custos-blobs/src/blob_gc.rs:374-394 | A CID is tallied exactly when a single-key link object naming it stands somewhere in the value, at any depth |
| BlobReferences.CollectBlobLinks | crates/custos-blobs/src/blob_gc.rs:374-394 | The recursion into a mutable tally adds exactly the value's links, with multiplicity |
| BlobReferences.PageIsNextStretch | crates/custos-blobs/src/db/space_record_blocks.rs:22-60 | A key-set page after the last row read, by the three-column comparison, is exactly the next stretch of the table |
| BlobReferences.CollectSpaceRecords | crates/custos-blobs/src/blob_gc.rs:339-366 | Reading pages until one is short tallies every space record exactly once, and fails exactly when one does not decode |
| BlobReferences.CollectCollection | crates/custos-blobs/src/blob_gc.rs:314-334 | Following page cursors tallies every record of a collection exactly once |
| BlobReferences.CollectReferencedBlobCids | crates/custos-blobs/src/blob_gc.rs:289-369 | Both surfaces are tallied, every record once; it fails exactly when the public repo cannot be opened and listed or some record of either surface cannot be read |
| BlobReferences.LinkedBlobIsKept | crates/custos-blobs/src/blob_gc.rs:284-369 | From link to bytes: a stored blob linked at any depth of any record, public or space, keeps its bytes through the pass and a permanent row counting its links |
| BlobScrub.Scrubber.CheckRow | crates/custos-blobs/src/blob_scrub.rs:191-213 | Fine exactly when size and hash match the row; absent and unreadable files are told apart |
| BlobScrub.Scrubber.FetchVerified | crates/custos-blobs/src/blob_mirror/mod.rs:103-112 | A mirror copy comes back only if it verifies against the row |
| BlobScrub.Scrubber.StoreBlob | crates/custos-core/src/blob_store.rs:105-146 | Content lands at the path its own hash names; a failed directory sync leaves it there all the same |
| BlobScrub.Scrubber.Heal | crates/custos-blobs/src/blob_scrub.rs:238-257 | The file changes exactly when a verified copy of a row still present at the recheck was written |
| BlobScrub.Scrubber.ScrubRow | crates/custos-blobs/src/blob_scrub.rs:132-174 | One row's tallies and its file change as its verdict says |
| BlobScrub.Scrubber.RunBlobScrub | crates/custos-blobs/src/blob_scrub.rs:113-188 | Missing counts the rows with no file, corrupted those whose file differs in size or hash, neither if restored; healed those restored: a mirror copy of the right size and hash written to the end while the row was there; errors the unreadable files, the heals that failed and a failed walk; every row's file is that copy where it reached the disk and otherwise what it was; orphans are the starting visible files no row names |
| BlobScrub.HealthAfterPass | crates/custos-blobs/src/blob_scrub.rs:221-257 | After a pass a row's file matches in size and hash if and only if the row was verified or healed, or its copy landed and only the directory sync failed (then it is still tallied as bad) |
| BlobScrub.OnlyVerifiedWrites | crates/custos-blobs/src/blob_scrub.rs:221-257 | Anything a pass changed on disk verifies against a listed row still present at the recheck, and did not verify before |
| BlobScrub.TalliesPartition | crates/custos-blobs/src/blob_scrub.rs:113-160 | Scanned is verified plus healed plus missing plus corrupted plus unreadable |
| BlobScrub.HealsAddNoOrphans | crates/custos-blobs/src/blob_scrub.rs:162-186 | Healing writes only at names the snapshot knows, so it neither adds nor hides an orphan |
| BlobScrub.RescanVerdict | crates/custos-blobs/src/blob_scrub.rs:113-188 | A second pass without healing verifies what the first repaired and repeats every other verdict |
| GF256.MulIsCarrylessRemainder | crates/crypto/src/shamir.rs:379-407 | The bit-serial product is the carry-less product reduced modulo 0x11b |
| GF256.MulCommutative | crates/crypto/src/shamir.rs:392-407 | Multiplication commutes |
| GF256.MulAssociative | crates/crypto/src/shamir.rs:392-407 | Multiplication associates |
| GF256.Distributive | crates/crypto/src/shamir.rs:392-407 | Multiplication distributes over XOR |
| GF256.NonzeroPower | crates/crypto/src/shamir.rs:409-431 | The 255th power of every nonzero element is one |
| GF256.AesIsField | crates/crypto/src/shamir.rs:379-436 | The bit-serial product and XOR satisfy all the laws of a field of characteristic two in which 254th powers invert |
| Fields.InverseUnique | crates/crypto/src/shamir.rs:409-431 | In such a field a nonzero element has one inverse, that power |
| Fields.LagrangeAtZero | crates/crypto/src/shamir.rs:58-101 | In any such field two points of a line, at distinct nonzero indices, weigh to its value at zero |
| Fields.SlopeIff | crates/crypto/src/shamir.rs:20-49 | In any such field exactly one slope puts a given value at a given nonzero index over a given secret |
| Shamir.GfMul | crates/crypto/src/shamir.rs:392-407 | The masked double-and-add loop computes the field product |
| Shamir.GfInv | crates/crypto/src/shamir.rs:413-431 | Square-and-multiply yields a true inverse, and zero is refused |
| Shamir.GfDiv | crates/crypto/src/shamir.rs:434-436 | The quotient times the divisor is the dividend; division by zero is refused |
| Shamir.SplitSecret | crates/crypto/src/shamir.rs:26-56 | The three shares are the points 1, 2 and 3 of the line through the secret with the drawn slopes |
| Shamir.CombineShares | crates/crypto/src/shamir.rs:72-101 | Indices outside 1 to 3 and equal indices are refused; otherwise the Lagrange value at zero, octet by octet |
| Shamir.SplitThenCombine | crates/crypto/src/shamir.rs:58-101 | Over any such field, two distinct shares of a split, in either order, give the secret back |
| Shamir.CombineIsTheLine | crates/crypto/src/shamir.rs:58-101 | The combined secret is the only one for which some slopes produce both shares |
| Shamir.PerfectSecrecy | crates/crypto/src/shamir.rs:20-49 | For every index, share value and secret exactly one slope vector produces that share, so one share says nothing |
| TextCoding.EncodedNumber | crates/crypto/src/shamir.rs:258-290 | The symbols of an encoding, most significant first, are the number the octets are, shifted by the bits that fill the last symbol |
| TextCoding.SymbolTabled | crates/crypto/src/shamir.rs:258-290 | The symbol of a value is its character in the alphabet of RFC 4648 |
| TextCoding.DecodeIffEncode | crates/crypto/src/shamir.rs:258-290 | A text decodes to some octets exactly when it is their unpadded base32 (or base64url) encoding: no second spelling, no stray trailing bits |
| Mnemonic.TokensIff | crates/crypto/src/mnemonic.rs:81-92 | Splitting at whitespace finds the one reading of a string as words between gaps |
| Mnemonic.WordsToBytes | crates/crypto/src/mnemonic.rs:81-92 | Returns octets the phrase spells, and refuses exactly a phrase with an unknown word |
| Mnemonic.SpellsIff | crates/crypto/src/mnemonic.rs:76-92 | A phrase spells some octets exactly when it is their words in any ASCII case with any whitespace around and between |
| Mnemonic.SpellsOne | crates/crypto/src/mnemonic.rs:76-92 | No phrase spells two octet strings |
| Mnemonic.RenderedSpells | crates/crypto/src/mnemonic.rs:66-74 | The rendered phrase spells what it renders |
| ShareEnvelope.ToBytes | crates/crypto/src/shamir.rs:186-203 | The filled buffers are version, big-endian set id, index, payload and the checksum of those |
| ShareEnvelope.ImageLayout | crates/crypto/src/shamir.rs:178-203 | Where each part of the 42 bytes stands |
| ShareEnvelope.FromBytesIff | crates/crypto/src/shamir.rs:214-254 | Exactly the images of version-2 envelopes with an index of 1 to 3 are accepted, as what they are images of |
| ShareEnvelope.BeIff | crates/crypto/src/shamir.rs:186-194 | The four set-id octets and the number determine each other |
| ShareEnvelope.DecodeShareIff | crates/crypto/src/shamir.rs:263-290 | A text decodes to a share exactly when it is that share's base32 with letters in either case and whitespace put in anywhere |
| ShareEnvelope.DecodeShareWords | crates/crypto/src/shamir.rs:294-308 | A phrase decodes to a share exactly when it spells that share's 42 octets |
| ShareEnvelope.SplitSecretIntoEnvelopes | crates/crypto/src/shamir.rs:325-335 | Each envelope carries the set id and the share of its index |
| ShareEnvelope.CombineEnvelopes | crates/crypto/src/shamir.rs:343-372 | Other versions, other set ids and unusable indices are refused, each with its error; otherwise the shares are interpolated |
| ShareEnvelope.Recover | crates/crypto/src/shamir.rs:260-372 | End to end: copies of two distinct shares of one split, each as base32 or as a phrase, give the secret; copies from splits with different set ids are refused |
| ShareEnvelope.EncodersRender | crates/crypto/src/shamir.rs:263-296 | What both encoders produce is such a copy |
| Cbor.HeadLayout | crates/crypto/src/plc.rs:57-68 | A head is the major type, then a number below 24 or its length and its bytes, the most significant first and no more than needed |
| Cbor.TokenLayout | crates/crypto/src/plc.rs:57-68 | Text, arrays and maps have major types 3, 4 and 5 with their length or count, and null is 0xf6 |
| Cbor.HeadParses | crates/crypto/src/plc.rs:57-68 | A head, always the shortest, reads back as its major type and number |
| Cbor.TokensIff | crates/crypto/src/plc.rs:57-68 | Bytes read as a token sequence exactly when they are its encoding |
| CanonicalOrder.OrderIsUnique | crates/crypto/src/plc.rs:99-114 | A key set has one strictly ascending order, so bytes depend only on a map's contents |
| CanonicalOrder.Sort | crates/crypto/src/plc.rs:103-108 | The entries come out strictly ascending and none is lost, whatever order they came in |
| PlcOps.OrderIsEncodedOrder | crates/crypto/src/plc.rs:99-108 | Shorter first, then bytewise, is the bytewise order of the encoded keys |
| PlcOps.FieldsAscend | crates/crypto/src/plc.rs:57-68 | What is written for an unsigned or signed operation, a tombstone or a service is a map of exactly its fields, in the canonical order of their names |
| PlcOps.SerializeServices | crates/crypto/src/plc.rs:99-114 | Collecting, sorting and emitting gives the canonical bytes of the services |
| PlcOps.SerializeMethods | crates/crypto/src/plc.rs:99-114 | The same for the verification methods |
| PlcOps.EncodeOp | crates/crypto/src/plc.rs:123-134 | The unsigned operation's canonical bytes |
| PlcOps.EncodeSignedOp | crates/crypto/src/plc.rs:146-160 | The signed operation's canonical bytes |
| PlcOps.OpRoundTrip | crates/crypto/src/plc.rs:86-160 | The decoders return the unsigned and the signed operation that was encoded |
| PlcOps.BytesCoverFields | crates/crypto/src/plc.rs:86-160 | Equal bytes mean equal operations, unsigned and signed, so a signature covers every field |
| PlcOps.TombstoneBytesCoverFields | crates/crypto/src/plc.rs:162-186 | The same for tombstones, and no operation is signed over a tombstone's bytes |
| Plc.ValidCidIff | crates/crypto/src/plc.rs:210-230 | The check passes exactly the CIDs of 32-byte digests |
| Plc.ComputedCidsAreValid | crates/crypto/src/plc.rs:200-230 | Every computed CID passes the check a tombstone's prev must pass |
| Plc.CidBindsHash | crates/crypto/src/plc.rs:200-208 | Equal CIDs mean equal digests |
| Plc.CidReads | crates/crypto/src/plc.rs:200-208 | A CID reads back as version 1, dag-cbor, sha-256, 32 bytes and the digest |
| Plc.DidIsPrefix | crates/crypto/src/plc.rs:480-484 | A DID is the base32 text of the first 120 bits of the hash, and two are equal exactly when those are |
| Plc.ObtainSignature | crates/crypto/src/plc.rs:946-959 | A callback's signature is taken only if it is 64 bytes, parses and is low-S; its own error is passed on |
| Plc.VerifyPlcOperation | crates/crypto/src/plc.rs:749-836 | Accepts exactly well-formed operations some listed key verifies, wherever it stands: the did:key text of a P-256 or a secp256k1 public key, each under the calls of its own curve; with DID (genesis only) and CID of the signed bytes and the fields as signed |
| Plc.VerifyGenesisOp | crates/crypto/src/plc.rs:1226-1299 | Accepts exactly operations without prev that the given key, of either curve, verifies, with their DID, fields and PDS endpoint |
| Plc.VerifyPlcTombstoneOp | crates/crypto/src/plc.rs:870-935 | Accepts exactly tombstones with a valid prev that some listed key, of either curve, verifies, with their CID |
| Plc.VerifiesIff | crates/crypto/src/plc.rs:1012-1031 | The check of one key verifies exactly when the key's text is a P-256 or a secp256k1 public key's and that curve's calls accept the signature |
| Plc.OtherKeysVerifyNothing | crates/crypto/src/plc.rs:1012-1031 | Keys of any other type verify nothing |
| Plc.BuildGenesisOp | crates/crypto/src/plc.rs:342-492 | Refuses fewer than one or more than five rotation keys and unusable signatures; otherwise the genesis of the caller's keys, handle and endpoint with its DID |
| Plc.BuildRotationOp | crates/crypto/src/plc.rs:552-619 | Refuses unusable signatures; otherwise the rotation with its CID |
| Plc.BuildTombstoneOp | crates/crypto/src/plc.rs:641-700 | Refuses a malformed prev and unusable signatures; otherwise the tombstone with its CID |
| Plc.JsonRoundTrip | crates/crypto/src/plc.rs:146-160 | The JSON of a signed operation parses back to it, the absent prev included |
| Plc.OpJsonNames | crates/crypto/src/plc.rs:146-160 | Each member of the JSON holds the field of its name, and there are no others |
| Plc.GenesisThenVerify | crates/crypto/src/plc.rs:403-492 | A built genesis is accepted exactly when the given key verifies the signature, so always under the P-256 key that does, with the same DID and fields |
| Plc.RotateThenVerify | crates/crypto/src/plc.rs:552-836 | A built rotation is accepted exactly when some listed key verifies the signature, so always when the signer's P-256 key is listed, with the same CID, prev and fields |
| Plc.TombstoneThenVerify | crates/crypto/src/plc.rs:641-935 | A built tombstone is accepted exactly when some listed key verifies the signature, so always when the signer's P-256 key is listed, with the same CID and prev |
| Plc.NeverBoth | crates/crypto/src/plc.rs:844-893 | Nothing submitted passes both as an operation and as a tombstone, under any keys |
| Plc.CidPinsOp | crates/crypto/src/plc.rs:749-836 | Barring a digest collision, two signed operations share a verified CID only when they are the same |
| LtHash.FromState | crates/crypto/src/space.rs:52-65 | A state of the wrong length is refused; any other resumes to lanes whose state it is |
| LtHash.StateIff | crates/crypto/src/space.rs:52-89 | State bytes and lanes determine each other |
| LtHash.Hash.Add | crates/crypto/src/space.rs:67-72 | Every lane gains the little-endian number in two octets of the element's output, wrapping |
| LtHash.Hash.Remove | crates/crypto/src/space.rs:74-79 | Every lane loses the same, wrapping |
| LtHash.AddedAlone | crates/crypto/src/space.rs:67-108 | Adding an element to the empty hash leaves its output as the state |
| LtHash.RemoveUndoesAdd | crates/crypto/src/space.rs:67-79 | Removing an element right after adding it restores the lanes |
| LtHash.Hash.State | crates/crypto/src/space.rs:82-88 | The little-endian bytes of the lanes |
| LtHash.Hash.IsEmpty | crates/crypto/src/space.rs:96-98 | True exactly for the all-zero lanes |
| LtHash.StateIsNetMultiset | crates/crypto/src/space.rs:28-34 | Histories with the same net count of every element, in whatever order and with whatever detours, leave the same lanes |
| LtHash.ElementInjective | crates/crypto/src/space.rs:112-121 | With collection and CID free of slashes an element names one record version, even if the key holds slashes |
| LtHash.WriteKeepsRehash | crates/custos-spaces/src/space_record_write.rs:365-418 | One create, update or delete keeps the maintained lanes equal to a rehash of the current records, in whatever order |
| LtHash.RehashSums | crates/crypto/src/space.rs:28-34 | A rehashed state holds, for every lane, the sum over the records of their outputs for "collection/rkey/cid", modulo 65536 |
| LtHash.OutcomeIff | crates/custos-spaces/src/space_record_write.rs:264-510 | A batch goes through exactly when every create finds nothing and every update and delete finds something where it stands; then the last write to each path counts; otherwise the first such write gives the error |
| LtHash.SpaceRepo.ApplySpaceWrites | crates/custos-spaces/src/space_record_write.rs:264-510 | A batch from stored state to stored state: it goes through or is refused as its writes say, leaves the repo at the sum of its records' outputs, absent exactly when empty, and a refused batch changes nothing |
| LtHash.EmptyIsZero | crates/custos-spaces/src/space_record_write.rs:476-494 | The maintained lanes of an emptied repo are the empty set's |
| SpaceCommit.EncodeSpaceCommitCtx | crates/crypto/src/space.rs:153-176 | Domain, then each field behind its 16-bit length, refused exactly when one is longer; the bytes read back as space, author, revision and key |
| SpaceCommit.ReadIff | crates/crypto/src/space.rs:153-176 | Bytes read as a context exactly when they are its encoding |
| SpaceCommit.ContextBinds | crates/crypto/src/space.rs:153-176 | Two contexts are encoded to the same bytes only when they are the same |
| Base58.TimesPlus | ios/NotificationService/NotifyEnvelope.swift:222-232 | One symbol: the number times 58 plus its digit, with carries of at most 57 after each shift and no byte overflowing |
| Base58.Decode | ios/NotificationService/NotifyEnvelope.swift:218-244 | Succeeds exactly on alphabet texts, with the same number and as many leading zeros as the text has leading ones |
| Base58.TimesPlusLe | ios/NotificationServiceTests/NotifyFixtureTests.swift:248-258 | One byte: the number times 256 plus it, with carries of at most 255 after each division and no leading zero digit |
| Base58.Encode | ios/NotificationServiceTests/NotifyFixtureTests.swift:243-268 | A text over the alphabet with the same number and count of leading zeros as the bytes |
| Base58.MatchesIsOneToOne | ios/NotificationServiceTests/NotifyFixtureTests.swift:273-284 | Number and leading zeros pair byte strings and texts one to one |
| Base58.EncodeThenDecode | ios/NotificationServiceTests/NotifyFixtureTests.swift:273-284 | Decoding undoes encoding on every byte string |
| Base58.DecodeThenEncode | ios/NotificationService/NotifyEnvelope.swift:218-244 | Encoding undoes decoding on every alphabet text, and nothing else decodes |
| Base58.P256PublicKeyBytes | ios/NotificationService/NotifyEnvelope.swift:199-207 | Returns the point whose prefixed bytes the text stands for, and nothing exactly when there is none |
| Base58.DidKeyRoundTrip | ios/NotificationServiceTests/NotifyFixtureTests.swift:273-284 | The decoder reads back every key the encoder writes |
| Base58.CharTabled | ios/NotificationService/NotifyEnvelope.swift:216-216 | A digit's character is the one in its place in the alphabet |
| Padding.BucketFor | crates/crypto/src/hpke.rs:165-186 | The smallest bucket that holds the body, and none exactly when it exceeds all of them |
| Padding.LenOfEncoding | crates/crypto/src/hpke.rs:212-221 | The length formula is the length of the unpadded base64url encoding |
| Padding.PlaintextPadLen | crates/crypto/src/hpke.rs:196-210 | None exactly above the largest bucket; otherwise the largest pad of all whose growth stays within the budget |
| Padding.LargestPadLands | crates/crypto/src/hpke.rs:179-210 | That pad lands on the bucket or one under it, and is at least three quarters of the budget |
| Padding.PaddedBodyIsStable | crates/crypto/src/hpke.rs:179-210 | The padded body stays in its bucket and padding it again adds exactly nothing |
| SignedEnvelopes.EncodeOAuthConsentEnvelope | crates/crypto/src/oauth_consent.rs:42-80 | The loop writes name, decimal length, value and newline for the twelve fields in order; read back, each name says the input it binds |
| SignedEnvelopes.EncodeAccountDeleteEnvelope | crates/crypto/src/account_delete.rs:31-60 | The same for the eight fields of a deletion |
| SignedEnvelopes.EncodeSovereignSessionEnvelope | crates/crypto/src/sovereign_session.rs:15-44 | The same for the eight fields of a session |
| SignedEnvelopes.FieldsRead | crates/crypto/src/oauth_consent.rs:33-42 | Reading returns the fields that were written, whatever their values hold |
| SignedEnvelopes.IntTextReads | crates/crypto/src/oauth_consent.rs:42-80 | A timestamp's text is its decimal digits, behind a minus sign when negative |
| SignedEnvelopes.HexDigits | crates/crypto/src/oauth_consent.rs:42-80 | Two digits for every byte of the scope hash, the high half first |
| SignedEnvelopes.BytesInjective | crates/crypto/src/oauth_consent.rs:33-42 | No two field lists share an encoding, whatever their values hold |
| SignedEnvelopes.ConsentBinds | crates/crypto/src/oauth_consent.rs:42-80 | Equal consent bytes mean equal inputs, the scope up to its hash, and conversely |
| SignedEnvelopes.ProofBinds | crates/crypto/src/sovereign_session.rs:15-44 | Equal deletion or session bytes mean equal inputs, and conversely |
| SignedEnvelopes.SurfacesAreDisjoint | crates/crypto/src/account_delete.rs:12-18 | No bytes serve two of the three surfaces |
| NonceRetention.WindowIsSymmetric | crates/custos-core/src/auth/guards.rs:297-301 | Saturating arithmetic neither widens nor narrows the timestamp window |
| NonceRetention.NonceStore.InsertNonceIfAbsent | crates/custos-db/src/admin_devices.rs:286-302 | True exactly for an absent nonce, which is then stored with the time |
| NonceRetention.NonceStore.SweepAdminNonces | crates/custos-db/src/admin_devices.rs:307-322 | Exactly the rows at least as old as the age go; a negative age is refused |
| NonceRetention.NonceStore.SweepSovereignNonces | crates/pds/src/db/sovereign_session_nonces.rs:44-60 | Refuses exactly a retention that does not cover the span; otherwise exactly the rows at least as old go, and their number is returned |
| NonceRetention.ReplaySafeIff | crates/common/src/config.rs:473-488 | Over every run with a non-decreasing clock no request is accepted twice, if and only if the retention exceeds twice the window plus the delay between check and record |
| NonceRetention.CoverageIsExact | crates/common/src/config.rs:486-488 | Check and record in one instant: the coverage rule is exactly replay safety |
| NonceRetention.ConfigAdmitsExactlySafe | crates/common/src/config.rs:2402-2428 | Validation admits exactly the replay-safe retentions that fit an i64, with a sweep interval above zero |
| NonceRetention.MarginIsTheDelay | crates/common/src/config.rs:2408-2428 | An admitted retention absorbs exactly the delays shorter than its margin over the span |

## Left out

- Account deletion, revocation and the reaper: they would remove the rows the mint theorems speak of; no deletes of accounts, registrations or attempts are in the mint machine.
- The account-status routes: `activate_account` of `crates/custos-db/src/accounts.rs` also clears `deactivated_at`, and its counterpart sets it, so "active exactly when finalized" holds for the writers of the mint machine only.
- AgentServer.Server.PrepareTx: the DID document, signing key and repository block rows of the same transaction are not modelled.
- AgentServer.Server.MintChildAccount: no other writer interleaves with the steps of this one call; interleaving is what `ChildMint` treats.
- Everything a mint checks before its journal (handle rules, genesis validation, reserved keys, assertion minting): a request that passed them is the input.
- What follows a commit (firehose emits, crawler notices, metrics, logs) and the texts of errors; error kinds are kept.
- The confirm that claims a registration for its owner is one step on the tables; its routes and token issue are not modelled.
- AgentServer.Server.SweepClaims: reads the clock once, where two SQL statements each read it; `ChildMint.SweepAuditsAllIff` treats the two readings apart.
- BlobGc.Collector.RunBlobGc: takes the reference tallies as given for the pass; records do not change while it runs, and uploads are events of the crash machine only.
- BlobReferences.CollectReferencedBlobCids: a page that cannot be read is not told apart from a record of it that cannot.
- BlobScrub.Scrubber.StoreBlob: the temporary file, its sync and its rename are one outcome here.
- BlobReferences.CollectCollection: the scan of the Merkle search tree below a page is a sorted table here, so its prefix filter is not modelled.
- BlobScrub.Scrubber.RunBlobScrub: other writers show only through the recheck answer of each row; their own changes to files during a pass are not modelled.
- The blob mirror's upload and restore passes, and quota and MIME handling.
- Constant-time execution, zeroizing and the quality of random values.
- The 256 literal words: any table of distinct, non-empty, lower-case words without whitespace will do.
- JSON text: members of an object are a map, so repeated members and number formats do not arise; HTTP, XRPC and OAuth plumbing likewise.
- ECDSA, HPKE, HKDF, HMAC and AES-GCM beyond the calls taken as parameters; `verify_space_commit` and signing are not part of this model.
- `diff_audit_logs`, `parse_audit_log` and the message-signature helpers of `plc.rs`: easy members.
- LtHash.SpaceRepo.ApplySpaceWrites: the revision compare-and-swap, the oplog and the rate limit around the fold are not modelled.
- The rest of `config.rs`, the keychain, user interface and platform glue.

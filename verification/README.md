# BEMPIC v0.1 interrupted transfer: a verified model

BEMPIC moves one immutable representation from a sender to a receiver over short, lossy contacts. This project models
the v0.1 protocol in five layers and proves what holds over every run of each:

1. **Representation store** (`RepresentationSpec`, `RepresentationSafety`, `RepresentationRuns`, `RepresentationStores`,
   `RepresentationReplies`, `PrefixAssembly`, `Representation`). Two state slots replaced through a temporary file, a part file that grows by torn
   appends, and a complete file. Every call is specified by its *trace*: all images of the disk that a crash during the
   call may leave, in order. The store is a class over a disk object; each method is proved to go through exactly the
   specified trace, and each trace is proved sound at every cut.
2. **Reconciliation** (`EntryOrder`, `Checkpoints`, `Reconciliation`, `ProtocolSpec`, `ProtocolSafety`, `ProtocolStores`,
   `Paging`). Collection checkpoints, the authority's delta and full pages, and the receiver's store, whose two slots
   are overwritten in place and can be torn.
3. **Codecs** (`Operations`, `Texts`, `Validity`, `Wire`, `B1Fields`, `B1Codec`, `B1Record`, `B1Maxima`, `WireLayout`, `Readers`,
   `Writers`, `Varint`, `CompactCodec`, `CompactBijection`, `CompactStream`, `Refusals`, `Vectors`). Field images with their readers as functions, and
   the program's `Reader`, output buffer and varint loops as classes and methods proved against them. `WireLayout` is the image as a table of
   fields, `Validity` and `Texts` say what the checks let pass, and `Vectors` has the published vectors.
4. **Contacts** (`Carriers`, `Accounts`, `Submission`, `Endpoints`, `ContactPhases`, `Contacts`, `Transfers`). The deterministic carrier,
   the budget scope, the accounts, `run_contact` with all its branches, and `run_until_complete` with endpoint restarts.
5. **Decisions** (`Negotiation`, `Domains`, and the budget, payload and validation functions of `Accounts` and `ContactPhases`).

SHA-256 is a function parameter `sha` about which nothing is known. Where a property needs more, it assumes only that no
second octet string has the digest of one particular string (`NoCollision`). Texts are octet strings that pass the UTF-8 check, which
is proved exact over Unicode scalar values. A JSON slot is `Missing`, `Torn` or `Holds(state)`.
The run-level results are `RepresentationRuns.CrashSafety`, `ProtocolSafety.OneRetryPerFailure`,
`ProtocolSafety.OnlyFinishChangesCheckpoints`, `Paging.SeriesIsFollowed`, `Contacts.RunContact`, `Transfers.CutIsResumable` and
`Transfers.RunUntilComplete`.

Edges of the code that the statements follow:

- A representation store whose object failed with an exhausted sequence is out of step with its disk; runs end that object.
- Verifying a zero-length store that never accepted its descriptor succeeds; `RepresentationSafety.Allowed` says so.
- The very first protocol-store save has no older slot to fall back on: torn, it leaves slots that never open again
  (`ProtocolSafety.SaveIsAtomic`, `ProtocolSafety.TORN_FIRST`). Statements about images a crash may find except exactly that one.
- A refused offer page may leave its first entries in memory; only memory differs, and only in page
  entries beyond the cursor (`SameButPages`), so a page acknowledged later is durable all the same (`PageIsIdempotent`).
- An authority asked when nothing is lacking refuses instead of answering (`Paging.PageOnlyWhenLacking`).
- The compact decoder refuses some records its encoder emits: those that are generic only because of extensions the
  decoder does not know (`CompactBijection.LosesItsExtensions`).
- A contact with no budget left at its request fails instead of pausing (`ContactPhases.RequestData`).

Some methods start with `hide`, which only keeps the solver from unfolding definitions it does not need there.

## Model

| member | source | states |
|---|---|---|
| Representation.PreparedVerifies | crates/bempic-model/src/lib.rs:773-837 | preparing succeeds exactly within the bounds, and what it prepares verifies, whatever the digest function |
| Representation.VerifiedBytesAgree | crates/bempic-model/src/lib.rs:818-837 | two octet strings that verify against one descriptor have one digest and length, and are equal unless the digest collides |
| Representation.IdentityImageInjective | crates/bempic-model/src/lib.rs:854-880 | the hashed image determines schema, codec, revision, parameters, length and digest |
| Representation.IdentityFixesContent | crates/bempic-model/src/lib.rs:818-880 | one representation identity fixes the content and every identity field, barring a collision of the two images involved |
| RepresentationStores.Disk.ReplaceSlot | crates/bempic-store/src/durable.rs:34-49 | a replacement exposes the moment at which the slot is gone, then the new slot, and nothing else |
| RepresentationStores.Disk.AppendPart | crates/bempic-store/src/v01_representation.rs:253-272 | an append exposes the part file with every prefix of the appended octets, in order |
| RepresentationStores.RepresentationStore.Save | crates/bempic-store/src/v01_representation.rs:477-495 | a save writes the slot of the next sequence's parity and exposes exactly the specified images, or refuses at the last sequence |
| RepresentationStores.RepresentationStore.Reconcile | crates/bempic-store/src/v01_representation.rs:387-432 | the rebuilt status and prefix, the error and the exposed images are those specified |
| RepresentationStores.RepresentationStore.Open | crates/bempic-store/src/v01_representation.rs:109-162 | opening a recoverable disk yields a valid store with the view the disk showed; otherwise the specified error |
| RepresentationStores.RepresentationStore.AcceptDescriptor | crates/bempic-store/src/v01_representation.rs:190-208 | state, reply and exposed images of accepting a descriptor |
| RepresentationStores.RepresentationStore.AcceptData | crates/bempic-store/src/v01_representation.rs:211-288 | state, reply (accepted and duplicate octets, or the first error) and exposed images of accepting data; data of another identity changes nothing |
| RepresentationStores.RepresentationStore.VerifyStagedWith | crates/bempic-store/src/v01_representation.rs:294-327 | state, reply and exposed images of verification, quarantine included |
| RepresentationStores.RepresentationStore.CommitVerified | crates/bempic-store/src/v01_representation.rs:330-349 | state, reply and exposed images of a commit |
| RepresentationStores.RepresentationStore.CommitReceipt | crates/bempic-store/src/v01_representation.rs:352-364 | a receipt is recorded once, and reported new exactly when it was not there |
| RepresentationStores.RepresentationStore.ReadComplete | crates/bempic-store/src/v01_representation.rs:372-385 | a valid store gives octets exactly when committed, and they verify |
| RepresentationStores.RepresentationStore.DidSafe | crates/bempic-store/src/v01_representation.rs:190-505 | an object that went through a sound effect is valid, and every image it exposed is recoverable and shows an allowed view |
| RepresentationSafety.AcceptDataSound | crates/bempic-store/src/v01_representation.rs:211-288 | cut anywhere, accepting data leaves a recoverable prefix that only gained octets of the payload; a success means the payload lies durably at its offset and accepted plus duplicate is its length |
| RepresentationSafety.VerifySound | crates/bempic-store/src/v01_representation.rs:294-327 | cut anywhere, verification keeps the prefix or quarantines all of it; true means the durable octets verify, false exactly that octets are missing |
| RepresentationSafety.CommitSound | crates/bempic-store/src/v01_representation.rs:330-349 | cut anywhere, a commit keeps the octets; success means they can be read back complete |
| RepresentationSafety.CallSound | crates/bempic-store/src/v01_representation.rs:190-495 | every call, cut after any durable action, leaves a recoverable disk with an allowed view, and uncut leaves a live store |
| RepresentationSafety.OpenSound | crates/bempic-store/src/v01_representation.rs:117-162 | opening any recoverable disk succeeds short of 2^64 saves, keeps the view, and may itself be cut anywhere |
| RepresentationReplies.DescriptorReply | crates/bempic-store/src/v01_representation.rs:190-208 | only the store's own descriptor is accepted, newly exactly if the disk shows none accepted, and then durably; any other answer changes nothing |
| RepresentationReplies.DataReply | crates/bempic-store/src/v01_representation.rs:211-288 | by what is held, committed or not: data of another identity, empty, unaccepted, too long, beyond a gap or contradicting held octets is refused with that reason and changes nothing; what is held already is a duplicate; anything else adds exactly the octets beyond the held ones |
| RepresentationReplies.VerifyReply | crates/bempic-store/src/v01_representation.rs:294-327 | committed or complete and passing octets verify, incomplete ones wait, complete ones that do not pass leave the prefix for the quarantine |
| RepresentationReplies.CommitReply | crates/bempic-store/src/v01_representation.rs:330-349 | exactly verified octets are newly committed, whole; committed ones stay so; anything else is not committed |
| RepresentationReplies.ReceiptReply | crates/bempic-store/src/v01_representation.rs:352-364 | a receipt is new exactly if the disk does not show it, and recording it changes nothing else |
| RepresentationReplies.OpenRefuses | crates/bempic-store/src/v01_representation.rs:109-162 | whether any disk opens, and the error it is refused with otherwise: another descriptor, torn slots only, committed octets that are not the described ones, more octets than described, or octets without an accepted descriptor; a refused disk stays as it is |
| RepresentationReplies.ReopensAsItIs | crates/bempic-store/src/v01_representation.rs:387-432 | reopening the disk of a store in use finds it as it is and writes nothing, exactly unless an empty representation failed verification |
| RepresentationRuns.RunSafe | crates/bempic-store/src/v01_representation.rs:109-505 | over any run of calls, crashes and reopenings nothing durable is lost: octets leave the prefix only together and into the next quarantined file, the rest only grows |
| RepresentationRuns.CrashSafety | crates/bempic-store/src/v01_representation.rs:109-505 | from an empty disk, after any run: the disk opens, an open store's snapshot says exactly what the files hold, verified and committed octets verify, and every continuation keeps them, in the prefix or in the next quarantined file |
| PrefixAssembly.AcceptReplies | crates/bempic-store/src/v01_representation.rs:211-288 | a chunk of the representation is refused exactly beyond a gap; otherwise the reply counts what it adds and what it repeats |
| PrefixAssembly.ChunksAssemblePrefix | crates/bempic-store/src/v01_representation.rs:211-288 | chunks in any order, with any overlaps, repeats and gaps leave exactly the string's prefix up to the furthest reach |
| PrefixAssembly.ReachIsFurthestEnd | crates/bempic-store/src/v01_representation.rs:211-288 | chunks starting inside the prefix lose nothing: the reach is the largest end |
| Operations.ValidOfferMeans | crates/bempic-sync/src/v01.rs:651-706 | an offer passes exactly when it is a non-empty bounded ascending page of valid, distinct entries framed by its cursors |
| Texts.TextMeans | crates/bempic-sync/src/v01.rs:1980-1985 | octets are accepted as text exactly if they are the UTF-8 image of some sequence of Unicode scalar values |
| Texts.ValidTextMeans | crates/bempic-sync/src/v01.rs:1719-1735 | a text passes within a limit exactly if it is no longer and none of its scalar values is a control |
| Validity.ValidOperationMeans | crates/bempic-sync/src/v01.rs:966-1045 | an operation of any kind passes its check exactly within the bounds of the protocol, stated kind by kind |
| Validity.EncodableMeans | crates/bempic-sync/src/v01.rs:1047-1092 | a record is encoded exactly if its operation and extensions are within bounds and it takes at most 2^20 octets |
| Varint.GotVarint | crates/bempic-sync/src/v01_compact.rs:402-432 | every 64-bit integer is read back, consuming its own octets |
| Varint.SpellingNotShorter | crates/bempic-sync/src/v01_compact.rs:414-432 | every spelling of an integer is at least as long as its shortest form, and equal to it at that length |
| Varint.GetCanonical | crates/bempic-sync/src/v01_compact.rs:414-432 | only the shortest form is accepted, and the position advances by its size |
| Varint.LengthSizeAgrees | crates/bempic-sync/src/v01_compact.rs:379-400 | the closed size formula agrees with the loop on every length below 2^35, so on every length the codec admits |
| Varint.PutVarint | crates/bempic-sync/src/v01_compact.rs:402-412 | the loop appends exactly the shortest form |
| Varint.VarintSize | crates/bempic-sync/src/v01_compact.rs:393-400 | the loop counts the octets of the shortest form |
| Varint.TakeVarint | crates/bempic-sync/src/v01_compact.rs:414-432 | the loop reads what the specification reads, and fails with its error |
| B1Codec.GotOperation | crates/bempic-sync/src/v01.rs:1094-1341 | the payload of every valid operation is read back, whatever follows it |
| B1Record.EncodedSizeIsExact | crates/bempic-sync/src/v01.rs:1047-1092 | the size calculator predicts every emitted length and refuses exactly the records that are not emitted, with the same error |
| B1Record.DecodeUndoesEncode | crates/bempic-sync/src/v01.rs:1373-1446 | decoding an encoded record gives it back without the optional extensions the decoder does not know |
| B1Record.AcceptedIsEncoding | crates/bempic-sync/src/v01.rs:1398-1446 | every accepted octet string is the encoding of some record |
| B1Record.DecodeCharacterised | crates/bempic-sync/src/v01.rs:1373-1446 | the decoder returns a record if and only if the input encodes a record with tolerable extensions of which it is what the decoder keeps |
| B1Record.EncodeInjective | crates/bempic-sync/src/v01.rs:1373-1395 | two records never share an encoding |
| WireLayout.RecordIsLaidOut | crates/bempic-sync/src/v01.rs:1094-1187 | every emitted record is "B1", the kind, the length of the content and the fields of the kind in table order, numbers big-endian, options flagged, lists counted |
| Vectors.FailureVectors | test-vectors/v0.1-experimental/tranche3-evidence.json:1760-2310 | the 26 published failure records are the encodings of their failures |
| Refusals.EnvelopeRefused | crates/bempic-sync/src/v01.rs:1398-1412 | a record too short, too long, of another magic, with a false length or of an unknown kind is refused with that error |
| Refusals.CutIsRefused | crates/bempic-sync/src/v01.rs:1398-1412 | a record cut at any octet is refused as truncated inside its envelope and as of false length behind it |
| Refusals.CriticalIsRefused | crates/bempic-sync/src/v01.rs:1417-1437 | a record with critical extensions the decoder does not know is refused with the identifier of the first |
| Refusals.TrailingIsRefused | crates/bempic-sync/src/v01.rs:1437-1446 | octets left in the envelope behind the last field are refused |
| B1Maxima.SizeWithinMaximum | crates/bempic-sync/src/v01.rs:116-126 | no encodable record exceeds the declared maximum of its kind |
| B1Maxima.MaximumAttained | crates/bempic-sync/src/v01.rs:83-126 | some record of every kind is exactly as large as its kind declares |
| Readers.Reader.Take | crates/bempic-sync/src/v01.rs:1906-1911 | the position advances by the octets taken, or nothing is taken |
| Readers.Reader.DecodeDescriptors | crates/bempic-sync/src/v01.rs:1251-1255 | the loop reads exactly the entries the specification reads |
| Readers.Reader.DecodePayload | crates/bempic-sync/src/v01.rs:1190-1341 | reads the operation the specification reads off the remaining octets, or fails with its error |
| Readers.Reader.DecodeExtensions | crates/bempic-sync/src/v01.rs:1417-1437 | the loop keeps the supported extensions in order and fails with the specified error |
| Readers.DecodeRecord | crates/bempic-sync/src/v01.rs:1398-1446 | the reader-driven decoder computes the specified decoding, error for error |
| Writers.Writer.EncodePayload | crates/bempic-sync/src/v01.rs:1094-1187 | appends exactly the operation's image |
| Writers.EncodeRecord | crates/bempic-sync/src/v01.rs:1373-1395 | the appending encoder computes the specified encoding, error for error |
| CompactCodec.CompactIsShorter | crates/bempic-sync/src/v01_compact.rs:132-186 | every encodable record has a compact encoding of exactly the predicted size, at least two octets shorter than its B1 image |
| CompactCodec.CompactMaximumIsExact | crates/bempic-sync/src/v01_compact.rs:106-124 | the compact maximum of each kind bounds every record and is reached by one |
| CompactBijection.CompactDecodeUndoesEncode | crates/bempic-sync/src/v01_compact.rs:152-288 | decoding a compact encoding gives the record back, except exactly when it loses the extensions that made it generic, and then it is refused |
| CompactBijection.AcceptedIsCompactEncoding | crates/bempic-sync/src/v01_compact.rs:198-288 | with an absent or valid cached summary every accepted octet string is the compact encoding of some record |
| CompactBijection.CompactDecodeCharacterised | crates/bempic-sync/src/v01_compact.rs:152-288 | the decoder returns a record if and only if the input is a compact encoding of which it is what the decoder keeps |
| CompactBijection.OptionalExtensionRefused | crates/bempic-sync/src/v01_compact.rs:273-283 | a summary with one unknown optional extension is such an exception, although its B1 image decodes |
| CompactBijection.AcrossContexts | crates/bempic-sync/src/v01_compact.rs:152-341 | ends that remember different checkpoints never take one summary for another, barring a collision of the sender's bound image: a summary passes exactly if both remember the same or neither remembers the one sent, is refused with the reason otherwise, and any other record passes as within one context |
| Vectors.CapabilitiesVector | test-vectors/v0.1-compact-candidate/vectors.json:30 | the profile capabilities take the three published octets |
| Vectors.SummaryVectors | test-vectors/v0.1-compact-candidate/vectors.json:36-42 | a summary of 100 items at generation 100 takes the published full form, and where it is remembered the published cached form, whatever identifier and digests |
| Vectors.RefusedVectors | test-vectors/v0.1-compact-candidate/vectors.json:48-92 | the published malformed inputs are refused with their errors |
| Refusals.CompactEnvelopeRefused | crates/bempic-sync/src/v01_compact.rs:198-226 | a compact record too short, too long, of another header, of no kind, or with a false or malformed length is refused with that error |
| CompactStream.EncodeFor | crates/bempic-sync/src/v01_compact.rs:152-186 | the appending encoder computes the specified compact encoding, the cached form bound to the remembered checkpoint included |
| CompactStream.DecodeFor | crates/bempic-sync/src/v01_compact.rs:198-288 | the position-driven decoder computes the specified compact decoding, error for error, refusing the cached form of any other checkpoint |
| Negotiation.AgreedCommutes | crates/bempic-sync/src/v01.rs:441-538 | an outcome that fits one order of the two capability values fits the other, failure code included |
| Negotiation.AgreedUnique | crates/bempic-sync/src/v01.rs:441-538 | only one outcome fits: highest common generation, least preference sum with its tie-breaks, minimal limits, common extensions |
| Negotiation.Candidates | crates/bempic-sync/src/v01.rs:462-475 | the nested loops collect exactly the common preferences with their index sums |
| Negotiation.Negotiate | crates/bempic-sync/src/v01.rs:441-538 | the procedure reaches that outcome |
| Negotiation.NegotiateBothEnds | crates/bempic-sync/src/v01.rs:441-538 | both ends, negotiating independently, reach the same outcome |
| Negotiation.SelfAgreement | crates/bempic-sync/src/v01.rs:441-538 | ends that declare one and the same valid value always agree, on its first preference, within its own limits, and on all it declares |
| Negotiation.AgreedIsBest | crates/bempic-sync/src/v01.rs:446-490 | the agreed generation is the latest common one, the agreed preference stands earliest in both lists together, ties going to the least identifier, revision and schema, and the limits, receipt levels and extensions are the smaller, the shared bits and exactly those both declare |
| Negotiation.DisagreementMeans | crates/bempic-sync/src/v01.rs:439-516 | for each failure code, the capability values that lead to it: an unsupported schema only where nothing is shared, an unsupported codec where only a schema is, an unsupported extension where one end requires what the other does not declare |
| Negotiation.AndIsBitwise | crates/bempic-sync/src/v01.rs:534 | each receipt level is agreed exactly if both ends have it |
| EntryOrder.SortByMembers | crates/bempic-sync/src/v01.rs:1601-1622 | sorting entries of distinct rank depends on the members only and is strictly increasing |
| EntryOrder.SortIsStable | crates/bempic-sync/src/v01.rs:1601-1612 | sorting keeps the order of entries of one rank |
| Checkpoints.CheckpointByMembers | crates/bempic-sync/src/v01.rs:1527-1569 | reordering the entries changes neither the checkpoint nor the error |
| Checkpoints.CheckpointIgnoresLater | crates/bempic-sync/src/v01.rs:1527-1569 | appending entries with later sequences leaves every earlier checkpoint as it was |
| Checkpoints.CheckpointIsValid | crates/bempic-sync/src/v01.rs:969-977 | every computed checkpoint passes summary validation, because distinct positive sequences up to g are at most g |
| Checkpoints.CheckpointFixesKeys | crates/bempic-sync/src/v01.rs:1548-1569 | equal checkpoints cover the same keys in the same sequence order, barring a collision |
| Checkpoints.DigestFixesCheckpoint | crates/bempic-sync/src/v01.rs:1548-1569 | checkpoints with one digest are one checkpoint over the same keys in the same order, barring a collision |
| Checkpoints.CheckpointCounts | crates/bempic-sync/src/v01.rs:1527-1569 | a checkpoint has the identifier and generation asked for, and counts the members up to that generation |
| Checkpoints.CheckpointExists | crates/bempic-sync/src/v01.rs:1527-1569 | a checkpoint exists exactly for at most 10^6 entries of which those up to the generation are valid and repeat no sequence or key; otherwise the error says which failed |
| Checkpoints.KeyOrderIsImageOrder | crates/bempic-sync/src/v01.rs:554-585 | inventory keys are ordered exactly as the octets a checkpoint digests for them |
| Reconciliation.Reconcile | crates/bempic-sync/src/v01.rs:1581-1648 | the procedure with its page-building loop: equality is answered exactly at the current checkpoint, a delta on its generation exactly for another retained checkpoint, a full page for an unknown checkpoint or none, and the reply is the specified one |
| Reconciliation.ReplyMeans | crates/bempic-sync/src/v01.rs:1581-1648 | for every receiver and cursor: a page has mode and base as the checkpoint demands, holds only what is lacking beyond the cursor, the first of it in order, and announces more where something is left; nothing lacking, a zero or excessive limit are refused |
| Reconciliation.NothingFits | crates/bempic-sync/src/v01.rs:1623-1647 | where not even the first entry fits the octets, no page is made |
| Reconciliation.MissingIsStrict | crates/bempic-sync/src/v01.rs:1581-1622 | what a receiver lacks is offered in strictly increasing order, each entry once |
| Reconciliation.CursorResumes | crates/bempic-sync/src/v01.rs:1601-1622 | a cursor on the last of the first n lacking entries leaves exactly the others |
| Reconciliation.SegmentOffers | crates/bempic-sync/src/v01.rs:1650-1679 | every segment of the lacking entries makes a valid offer |
| Reconciliation.PageIsGreedy | crates/bempic-sync/src/v01.rs:1623-1647 | a page is the first part of the candidates, fits its octets and is as long as it may be: the entry limit, every candidate, or one more would not fit; more is announced exactly when candidates remain |
| ProtocolStores.ProtocolStore.Open | crates/bempic-store/src/v01.rs:99-125 | sound slots open exactly unless they are those of a torn first save, to a valid store whose memory is what was durable |
| ProtocolStores.ProtocolStore.Save | crates/bempic-store/src/v01.rs:439-459 | a save overwrites the other slot in place, exposing it torn |
| ProtocolStores.ProtocolStore.DidSafe | crates/bempic-store/src/v01.rs:186-459 | after any call that went as specified: the store is valid unless its sequence ran out, an acknowledged change is durable, a refused one left the slots alone, and every slot image exposed opens to the old durable state or the new one, once something was saved |
| ProtocolStores.ProtocolStore.BeginReconciliation | crates/bempic-store/src/v01.rs:186-210 | begins exactly from an installed checkpoint towards one of the same collection that is no older, durably and with nothing accepted; no installed checkpoint or retained entry changes |
| ProtocolStores.ProtocolStore.PushEntries | crates/bempic-store/src/v01.rs:256-263 | entries are pushed exactly up to the first that repeats a sequence or key of one before it |
| ProtocolStores.ProtocolStore.CommitOfferPage | crates/bempic-store/src/v01.rs:213-267 | acknowledged exactly if the page belongs to the session and is either held at the durable cursor, which changes nothing, or lies beyond it repeating nothing accepted, while a save is left; acknowledged, it is durable, whole and behind what was accepted before, and committing it again, reopened or not, is acknowledged without a slot image or a change; a page that starts at or before the cursor is a regression; nothing else is touched |
| ProtocolStores.ProtocolStore.FinishReconciliation | crates/bempic-store/src/v01.rs:270-296 | passes exactly over complete pages whose assembled entries have the target as their checkpoint, while a save is left, then durably installs the target over them; refused, it says why and changes nothing durable; no other collection is touched |
| ProtocolStores.ProtocolStore.CommitReceipt | crates/bempic-store/src/v01.rs:299-308 | an acknowledged receipt is durable, and reported as new exactly once |
| ProtocolStores.ProtocolStore.ObserveImmutableObject | crates/bempic-store/src/v01.rs:315-341 | an object is bound once and for all: refused exactly when bound to other semantics, reported as new exactly once, no other binding touched |
| ProtocolStores.ProtocolStore.RecordFailure | crates/bempic-store/src/v01.rs:353-381 | refused exactly when the failure cannot be encoded or the sequence is exhausted; recorded, its scope has one retry that may not yet be taken, and all other scopes keep theirs |
| ProtocolStores.ProtocolStore.MarkFailureConditionChanged | crates/bempic-store/src/v01.rs:384-393 | a changed condition makes the retry that is left available exactly if the failure was retryable, brings no further one, and touches no other scope |
| ProtocolStores.ProtocolStore.TakeFailureRetry | crates/bempic-store/src/v01.rs:396-409 | a retry is granted exactly where one is left and available; granting durably uses it up before the reply, refusing changes nothing, and no other scope is touched |
| ProtocolSafety.SaveIsAtomic | crates/bempic-store/src/v01.rs:439-459 | a torn save recovers the old state exactly when something was saved before, a completed save the new one, and the newest slot is never written |
| ProtocolSafety.ExposedIsSound | crates/bempic-store/src/v01.rs:439-459 | every slot image any call exposes is sound and opens to the old durable state or the one saved; only the first save may be torn beyond recovery |
| ProtocolSafety.StepGood | crates/bempic-store/src/v01.rs:99-459 | after any call, crash or reopening the durable state is the old or the planned one, memory differs at most in page entries, and accepted pages repeat no sequence or key |
| ProtocolSafety.CallTouches | crates/bempic-store/src/v01.rs:127-459 | no call, successful or not, touches anything but what it is about: one collection, receipt, object or failure scope, or the cached profile |
| ProtocolSafety.RetriesAreBounded | crates/bempic-store/src/v01.rs:353-409 | over any run retries granted never exceed failures that were accepted for recording plus the retry left at its start |
| ProtocolSafety.OneRetryPerFailure | crates/bempic-store/src/v01.rs:353-409 | from an empty disk: at most one retry for each failure of a scope that was accepted for recording; refused recordings do not count |
| ProtocolSafety.ReceiptsAndBindingsStay | crates/bempic-store/src/v01.rs:299-341 | over any run with torn saves and reopenings no durable receipt is lost and no object binding lost or changed |
| ProtocolSafety.RetryOnceAfterChange | crates/bempic-store/src/v01.rs:353-409 | after a recorded failure no retry is granted before the condition changes, then one exactly if the failure was retryable, and never a second |
| ProtocolSafety.FinishInstallsTarget | crates/bempic-store/src/v01.rs:270-296 | a finish that passes installs the target checkpoint over exactly the assembled entries |
| ProtocolSafety.PageAnswer | crates/bempic-store/src/v01.rs:213-267 | which pages are acknowledged, as held or as continuing the session, and the reason for every refusal |
| ProtocolSafety.PageIsIdempotent | crates/bempic-store/src/v01.rs:213-243 | an acknowledged page is durable, whatever pages were refused before it, and committing it again answers the same, exposes nothing and changes nothing, in the same life or after a reopening |
| ProtocolSafety.FinishAnswer | crates/bempic-store/src/v01.rs:270-296 | which finishes pass, and the reason for every refusal |
| ProtocolSafety.FinishedKeysAreTheTargets | crates/bempic-store/src/v01.rs:270-296 | whatever pages a peer sent, a finish that passes holds the target's keys in sequence order, barring a collision |
| ProtocolSafety.OnlyFinishChangesCheckpoints | crates/bempic-store/src/v01.rs:186-296 | for any offers, crashes and reopenings the durable checkpoint and retained entries change only in a finish that passes the digest gate |
| Paging.AuthorityAnswers | crates/bempic-sync/src/v01.rs:1581-1648 | asked with its checkpoint or with none, and with the cursor of n accepted entries, the authority answers with the next non-empty segment |
| Paging.PageOnlyWhenLacking | crates/bempic-sync/src/v01.rs:1620-1622 | the first answer is a page if and only if something is lacking; otherwise the authority refuses the cursor |
| Paging.ReceiverCommits | crates/bempic-store/src/v01.rs:213-267 | a receiver holding n entries commits the segment and holds exactly the entries up to its end |
| Paging.RoundAdvances | crates/bempic-store/src/v01.rs:213-267 | one reopening, request and commit takes the next segment durably |
| Paging.FinishInstallsCollection | crates/bempic-store/src/v01.rs:270-296 | with every lacking entry accepted the digest gate passes and installs the authority's checkpoint over its entries |
| Paging.PagingInstallsTarget | crates/bempic-store/src/v01.rs:186-296 | in both modes, asked with the checkpoint or with none, with a reopening before every page, the loop ends within as many pages as entries are lacking, offers each exactly once in order, takes at most one save for each, and the finish installs exactly the target |
| Paging.BeginStands | crates/bempic-store/src/v01.rs:186-210 | beginning from an installed checkpoint leaves the disk standing at no entry of what is lacking, where paging starts |
| Paging.GrownIsConsistent | crates/bempic-sync/src/v01.rs:1601-1622 | a receiver that holds the entries of an authority is a consistent base for what it grew into, in delta and in full mode, and lacks some of it |
| Paging.SyncFollows | crates/bempic-store/src/v01.rs:186-296 | after the collection grew, beginning, paging and finishing leave the receiver durably with exactly the grown collection |
| Paging.SeriesIsFollowed | crates/bempic-store/src/v01.rs:186-296 | however often the collection grows, in delta or full mode each time, asked with the checkpoint or with none, the receiver follows it to the end |
| Paging.NewReceiverFollows | crates/bempic-store/src/v01.rs:156-296 | a receiver with an empty disk that installs an empty checkpoint follows a growing collection from its first entry to the end |
| Carriers.SerializationMs | crates/bempic-sim/src/lib.rs:169-173 | serialization time is the quotient rounded up, saturating |
| Carriers.ArrivesInTime | crates/bempic-sim/src/lib.rs:169-215 | short of saturation a record arrives before the disconnect exactly if its octets and the carrier's own, eight bits each, fit the bandwidth over the time left after latency |
| Carriers.AtMostOneLost | crates/bempic-sim/src/lib.rs:188-243 | in an orderly log delivered plus lost is submitted, and only the last record can be lost |
| Carriers.DeterministicCarrier.Transmit | crates/bempic-sim/src/lib.rs:188-243 | the reply and log entry of each record; metrics stay the fold of the log, time never decreases nor passes the cutoff, the budget holds |
| Accounts.BudgetScope.Admit | crates/bempic-sync/src/v01.rs:1492-1523 | a record is admitted exactly when both budgets have room, and a refused one changes no counter |
| Accounts.DirectionsSum | crates/bempic-sim/src/lib.rs:188-243 | the two directions of a log add up to its totals |
| Accounts.BookedTotals | crates/bempic-sim/src/v01.rs:138-192 | booked per-direction, per-operation and predicted octets all equal the octets the carrier carried |
| Accounts.Merge | crates/bempic-sim/src/v01.rs:155-192 | merging adds the totals of both directions and of every operation |
| Submission.TruncationIsCaught | crates/bempic-sim/src/v01.rs:449-474 | a record without its last octet never decodes |
| Submission.CorruptionIsARecord | crates/bempic-sim/src/v01.rs:449-474 | inverting the octet at the payload offset yields the encoding of the record with its first payload octet inverted |
| Submission.Submit | crates/bempic-sim/src/v01.rs:404-474 | a record is sized, admitted, lost or decoded as the mutation leaves it; the books stay those of the log and the quote error stays zero |
| Endpoints.Transition | crates/bempic-sync/src/v01.rs:239-270 | the sender's phase moves exactly one step further at a time, or stays at sending |
| Endpoints.CutIsHonest | crates/bempic-store/src/v01_representation.rs:330-364 | a call cut anywhere leaves receipts only beside committed octets |
| Endpoints.CutIsSane | crates/bempic-store/src/v01_representation.rs:211-288 | a call cut anywhere leaves first octets of the whole representation if the data it takes is part of it |
| Endpoints.Receiver.Open | crates/bempic-sim/src/v01.rs:281-302 | a reopened receiver durably is what its disk showed, and opening keeps every exposed image recoverable |
| Endpoints.Receiver.AcceptData | crates/bempic-sim/src/v01.rs:829-843 | accepted plus duplicate is the payload, the prefix only grows, and expected data is never refused |
| Endpoints.Receiver.VerifyStaged | crates/bempic-store/src/v01_representation.rs:294-327 | a complete prefix verifies exactly when it is the described representation and decodes; otherwise the prefix is empty afterwards |
| ContactPhases.SummarySize | crates/bempic-sim/src/v01.rs:355-374 | the collection of one representation has a checkpoint, and its summary takes 88 octets |
| ContactPhases.OfferSize | crates/bempic-sim/src/v01.rs:355-374 | the offer of one representation is valid, and its octets depend only on the parameters and the two optional fields |
| ContactPhases.SoleOfferIsThePage | crates/bempic-sim/src/v01.rs:346-375 | the offer of a contact is the page the authority over its one entry would answer a receiver without a checkpoint |
| ContactPhases.RequestIsValid | crates/bempic-sync/src/v01.rs:737-787 | a request for what follows a prefix passes the check against an offered length exactly if the length reaches that far |
| ContactPhases.ValidRequestMeans | crates/bempic-sync/src/v01.rs:737-787 | a request passes exactly if it has 1 to 128 selections, none twice, each of something offered and within its length |
| ContactPhases.SelectionsAnswer | crates/bempic-sync/src/v01.rs:768-787 | the first selection that is not sound decides, and its fault is the answer |
| ContactPhases.Negotiate | crates/bempic-sim/src/v01.rs:495-557 | a cached profile is used without a record; otherwise the profile both ends negotiate is returned and cached for the peer |
| ContactPhases.Remember | crates/bempic-sim/src/v01.rs:540-557 | the negotiated profile is cached durably for a day; no crash meanwhile loses a save, and no slot image it exposes caches a profile under which the offer would not pass |
| ContactPhases.MakeOffer | crates/bempic-sim/src/v01.rs:559-607 | going on means the descriptor is accepted; the durable octets stay; an accepted descriptor is not offered again |
| ContactPhases.VerifyAndCommit | crates/bempic-sim/src/v01.rs:609-623 | a complete uncommitted prefix is committed exactly when it passes, and quarantined and counted otherwise |
| ContactPhases.Replay | crates/bempic-sim/src/v01.rs:747-763 | replays change nothing but the books; over a steady link as many are carried and delivered as the plan asks for and scope and carrier both have room for, and exactly their octets are spent |
| ContactPhases.SendData | crates/bempic-sim/src/v01.rs:718-766 | DATA starts at the durable prefix; at most its one payload is taken, whole, as sent or with its first octet inverted; a fitting record over a steady link is taken, and it and its replays are carried, delivered and charged exactly as often as there is room |
| ContactPhases.RequestData | crates/bempic-sim/src/v01.rs:625-768 | what the data phase takes, the error at zero budget, and that over a steady link exactly the payload limit is taken |
| ContactPhases.Acknowledge | crates/bempic-sim/src/v01.rs:787-815 | a receipt is retained only for committed octets; the octets stay; the sender's phase follows what was sent and retained |
| ContactPhases.ReceiptVouches | crates/bempic-sim/src/v01.rs:787-804 | the receipt for committed octets names the identity and digest recomputed from them |
| Contacts.Introduce | crates/bempic-sim/src/v01.rs:495-607 | negotiation and offer leave the durable octets alone; where the opportunity takes them they succeed within their octets and leave the sender in phase |
| Contacts.MoveOn | crates/bempic-sim/src/v01.rs:609-820 | behind negotiation and offer, an opportunity for one octet gets the receiver at least one of the sender's octets further, or commits and acknowledges all of them |
| ContactPhases.AmpleMeans | crates/bempic-sim/src/v01.rs:618-666 | with ample room the receiver either holds all octets or one payload of exactly the missing ones completes them |
| Contacts.DeliveredIsDurable | crates/bempic-sim/src/v01.rs:829-864 | without an integrity failure delivered payload equals newly durable octets plus duplicates |
| Contacts.ReplaysAreCounted | crates/bempic-sim/src/v01.rs:747-763 | a contact that carries all copies there is room for delivers every submitted payload, counts all but the first as repeated, and with room for them has as many as the plan asks for |
| Contacts.RunContact | crates/bempic-sim/src/v01.rs:478-820 | whatever is lost, truncated, corrupted or replayed: octets within the budget, booked exactly and each kind in its direction, a retained receipt implies committed and verified octets, delivered payload is conserved, every disk image exposed stays recoverable and every slot image but a torn first save opens; the cached profile is kept or stored for a day, both sequences grow by bounded amounts, the sender waits only for committed octets; an unauthorized source, another descriptor or an invalid carrier is refused and changes nothing; a clear contact takes exactly its payload limit, it and any good one carry as many replays as the plan asks for and there is room for; behind its introduction no contact leaves verified octets uncommitted; a generous one ends with all octets committed and acknowledged, and any good one gets further |
| Transfers.NextReceiver | crates/bempic-sim/src/v01.rs:895-905 | without discarding, the next receiver durably is the last one, its cached profile too, recreated exactly where the plan restarts it, and reopening succeeds short of 2^64 saves; discarded state is replaced by an empty receiver |
| Transfers.KeepOnTrack | crates/bempic-sim/src/v01.rs:906-916 | a contact by a good plan between ends that are on track succeeds, takes a bounded number of saves, and leaves the receipt retained or the receiver fewer octets short, both ends still on track |
| Transfers.BalancedWithOneMore | crates/bempic-sim/src/v01.rs:155-192 | merging one more report keeps every column of the aggregates the sum of the contacts' columns, the first body the first contact's that has one, and the books within the sum of the budgets |
| Transfers.PlansRotate | crates/bempic-sim/src/v01.rs:887-889 | the plans come in their order, and after the last the first again |
| Transfers.RestartsCount | crates/bempic-sim/src/v01.rs:880-905 | the restart counters count the later contacts whose plans recreate the sender, reopen the receiver or discard its state |
| Transfers.EmptyRootResumes | crates/bempic-sim/src/v01.rs:867-880 | from an empty root a run ends with its first contact, if that suffices |
| Transfers.EmptyRootCompletes | crates/bempic-sim/src/v01.rs:867-880 | an empty root and good plans meet the condition under which the run completes any representation |
| Transfers.CutIsResumable | crates/bempic-sim/src/v01.rs:281-302 | cut at any slot image and any disk image a run without mutations ever exposed, the root is resumable exactly when its slots open, and they open unless the first save was torn |
| Transfers.RunUntilComplete | crates/bempic-sim/src/v01.rs:867-930 | a finished transfer returns octets that verify, the sender's own barring a collision, within every budget; undiscarded and without integrity failure it delivered exactly them plus duplicates; the plans went in rotation and the restart counters are theirs; at every moment of any run a crash would leave receipts only beside committed octets, and slots that open but for a torn first save; a first contact that suffices for the rest ends the run; and from any resumable root, whatever the restarts and replays, good plans end the run within one contact more than octets are missing with exactly the sender's octets |
| Domains.ImagesAreSeparate | crates/bempic-model/src/lib.rs:854-880 | the octets digested for identities, checkpoints, remembered summaries and receipts never coincide |
| Domains.ReceiptNamesRepresentation | crates/bempic-sim/src/v01.rs:376-383 | receipts of different representations have different identifiers, barring a collision of the shortened digest |

## Left out

- Generation 0: `FileStore`, the generation-0 `run_contact` with its record ceilings, the `B0` operations and the `BMSG0` message codec. They repeat the store, contact and codec patterns proved here for v0.1 with fewer states and fields.
- Message manifests, `SemanticAccounting` and the in-memory object registry: counters and bounds without protocol state. The durable object bindings are part of the protocol store's specification.
- Real file operations: directory creation, fsync and path handling. A replacement is modelled as removal of the destination followed by the rename, and a failing file operation as a crash at that point. Named fault boundaries are cuts of a trace.
- JSON, hex, SHA-256, schema canonicalization and Unicode normalization: a torn slot never parses, and digests are uninterpreted.
- The transition tables of the compatibility, collection and representation states, which nothing in the modelled paths consults. The sender's table is used by every contact.
- The prototype, command line, benchmarks, evidence generators and the mock binding.
- `usize` is 64 bits wide. Aggregate octet counters are unbounded, where the program would overflow beyond 64 bits. Capacity hints are not modelled.
- Sorted vectors without duplicates (receipts, bindings, failures, collections) are sets and maps; the first of the sorted negotiation candidates is their minimum.
- The carrier's cost-precision labels and reliability flag do not influence any modelled value; they are not part of the merged metrics.
- Endpoint fault injection inside a contact is not a parameter: instead every disk image and every slot image exposed during a contact is proved recoverable, except the torn first save of a protocol store.
- ContactPhases.Send: the branches for a decoded operation of another kind are not modelled, because the decoded operation is proved to be the submitted one.
- ContactPhases.AskFor: the branches for a refused own request are not modelled, because the request is proved to pass its validation and its scope.
- Contacts.RunContact: requires the sender's octets to have the described length; with fewer the program would stop at an index out of range. That the receiver shall hold nothing but the sender's octets (`whole`) is a ghost choice of the caller, and only made for plans without mutation.
- ContactPhases.TradeCapabilities: both ends of the experiment declare the same value, so the capabilities that arrive are those both ends negotiate from.
- Transfers.NextReceiver: a contact that discards state opens a new and empty root; the program opens a directory named after the contact's number, which may still hold what an earlier run over the same root left there.
- Transfers.RunUntilComplete: promises an end only for good plans; contacts too small to negotiate, offer and request make no progress, and the program then stops at its contact limit or with their error.
- Paging.PagingInstallsTarget: assumes the receiver's retained entries are the authority's up to its checkpoint in delta mode, a well-formed collection and single entries that fit a page; `Paging.SeriesIsFollowed` derives the first of these for a collection that grows by later entries.

# Thicket: verified models

Thicket is a peer-to-peer network of agents ("fibers") and resources with a core in Rust and an independent SDK in
Python. This project models the parts of both that carry its guarantees and proves them with Dafny 4.11
(`dafny verify dfyconfig.toml`).

| part of the system | modules |
|---|---|
| durable execution: a step log that survives crashes | `DurableRuns` (one handle), `Reopenings` (all handles of a store), `WholeRuns` (runs from the first opening), `Checkpoints` (log, encoding, step runner), `DurableSteps` (the runner carries out the transition system), `StepKeys` |
| the wire codec, a subset of CBOR (section 3.1 of RFC 8949, heads as in section 4.1), and the bytes signatures cover | `Bytes`, `Cbor`, `CborBytes` (byte by byte), `UnicodeText`, `CborReference`, `CborTheory`, `CborReencoding`, `Signing`, `Fields` |
| identities and attenuable grants, in both implementations | `Identity`, `Grants`, `AcceptedGrants` (acceptance over the fields), `PyGrants` |
| signed records, the registry, the directory service and the federation | `Records`, `SignedRecords`, `Collections`, `Sorting`, `TopK`, `Registry`, `Directory`, `Federation`, `ScatterGather` |
| the encrypted channel, in both implementations | `Framing`, `SecureChannel`, `PySecureChannel` |
| the connections that route envelopes by correlation | `Envelopes`, `StreamDemux` (core), `PyConn` (SDK), `ConnRuns` (its runs, told by their events) |
| handlers, message bodies and streamed results | `Fibers` |
| trace context and call-tree assembly | `Tracing`, `Collector`, `CallTrees` |
| reputation | `Reputation` |

Objects that the sources update in place are classes here, their loops are loops, and each method is proved against a
specification function; the properties are then proved about those functions, over every input, every run or every
reachable state. Code between two awaits is one step of a transition system.

## Assumptions

- Signatures and the hash are parameters (`Identity.Crypto`). A lemma that needs signatures to be apart says for which
  messages: no two of them share a signature and none has the empty one (`Separates`). That can be met
  (`Grants.SeparatedChainExists`, `PyGrants.SplitGrantExists`, `Registry.RenewalCanHurt`). The hash is any function.
- The channel cipher is ideal: a message opens at a nonce exactly when it is what the sender sealed at that nonce.
- Embedding and similarity are parameters; scores and reputations are real numbers.
- Times, versions and lengths are 64-bit values. The sum of a time and a time to live wraps around, as in an optimized
  build; a debug build stops there instead. The counters of outcomes and of chunks are assumed to fit, except where a row
  says otherwise.
- Fresh random correlations and span ids are distinct.

## Where the code differs from what is said about it

- `Registry::renew` rewrites the lease inside the signed payload, so a renewed record stops verifying unless its lease
  stayed the same (`Registry.RenewalBreaksSignature`). And the new expiry need not lie after the old one, although the
  comment at crates/thicket-registry/src/registry.rs:169-170 says it must (`Registry.RenewalMovesForwardIff` says when it
  does). `Registry.RenewalCanHurt` is a live entry that a renewal harms in both ways.
- A missing attribute reads as the text "None" in sdk/py/thicket/grant.py:86, so the two constraint checks differ
  (`PyGrants.ConstraintChecksAgreeIff`).
- The SDK verifies a grant over its lists as they came, the core over sorted collections
  (`PyGrants.VerdictsOnTheSameBytes`, `PyGrants.UnsortedGrantSplits`).
- The SDK decrypts frames whose headers announce more than there is, and empty frames; the core refuses them
  (`PySecureChannel.LaxAcceptsIff` says which, `PySecureChannel.LaxAcceptsMore` shows two).
- A persisted step is promised not to be lost and not to run again. Each handle saves the steps it holds itself, so two
  handles on one run can overwrite each other: a gathered sibling that outlives its opening can
  (`WholeRuns.StaleSaveLosesStep`). The promise holds in every run in which the run is opened again only when no earlier
  handle is active, and an opening at another time makes it fail in some continuation
  (`WholeRuns.ReopeningKeepsPromiseIff`); `Reopenings.SaveIsSafeIff` says which saves are harmless.
- The core proposes the next step key by the number of recorded steps, the SDK by a counter that starts at 0 with every
  opening and ignores explicit keys. They agree exactly when everything recorded is a position taken since the opening
  (`StepKeys.NextKeysAgreeInRunIff`); a reopened run is where they differ (`StepKeys.ReopenedRunDisagrees`).
- `Fiber._stream` swallows the exceptions of the generator: the stream stops without its end marker. What a receiver may
  conclude from an end marker holds all the same (`Fibers.CoreReceiverHasAll`, `Fibers.SdkCallerHasAll`).
- A body of raw bytes that happens to be valid CBOR is read as what it decodes to (`Fibers.PayloadRoundTripIff`).

## Model

| member | source | states |
|---|---|---|
| DurableRuns.StepKeepsInv | sdk/py/thicket/checkpoint.py:54-65 | every event under one handle (a step beginning, finishing or raising, a batch completing) only adds to the steps it holds and keeps the invariant that every recorded or running step lies on the path the workflow takes over the recorded results |
| DurableRuns.CompletedLog | sdk/py/thicket/checkpoint.py:63-65 | at completion a handle holds exactly the results its workflow saw: the unordered set of positions recorded by concurrent steps has been filled up to a whole range |
| Reopenings.SafeIff | sdk/py/thicket/checkpoint.py:48-65 | with any number of handles open on one store, every continuation that reopens in order (only when no handle is active) loses no persisted result and calls no persisted step exactly when at most one handle is active and it holds all that is persisted; a handle is active when it is open and its workflow still lacks a result |
| Reopenings.ReopeningIsSafeIff | sdk/py/thicket/checkpoint.py:48-52 | in such a state, opening the run once more keeps that so exactly when no earlier handle is active |
| Reopenings.SaveIsSafeIff | sdk/py/thicket/checkpoint.py:63-65 | a save by any handle, also one left behind, loses nothing now or in any orderly continuation exactly when what it saves extends the persisted log and afterwards at most one handle is active and holds all that was saved, the finished step with its result too |
| Reopenings.SafeAnyhowIff | sdk/py/thicket/checkpoint.py:48-65 | with reopenings at any time, every continuation keeps the promise exactly when nothing is left to call |
| WholeRuns.ReopeningKeepsPromiseIff | sdk/py/thicket/checkpoint.py:48-52 | from every state that a run with orderly reopenings reaches the promise is safe, and after one more opening exactly when no earlier handle is active |
| WholeRuns.LogOnlyGrows | sdk/py/thicket/checkpoint.py:48-65 | over any interleaving of concurrent steps, exceptions, crashes and orderly reopenings, a persisted result is never lost or changed |
| WholeRuns.NoReinvocation | sdk/py/thicket/checkpoint.py:61-62 | in such a run, once a position is persisted, its function is not called again under any handle |
| WholeRuns.CompletedRunIsCrashFree | sdk/py/thicket/app.py:257-291 | in every run, with reopenings at any time, a completed workflow is matched by a run with one opening and without crash or exception that holds and persists what its handle holds, sees the same results and returns the same outcome; with orderly reopenings that is also what is persisted |
| WholeRuns.LogDeterminesOutcome | sdk/py/thicket/checkpoint.py:16-18 | two completed workflows, in whatever runs, one of whose handles holds all results of the other, hold the same and return the same |
| WholeRuns.StaleSaveLosesStep | sdk/py/thicket/app.py:288-291 | a concrete run that breaks the promise: one of two gathered steps raises, the run is reopened and finishes that step, then the surviving sibling saves; the persisted step is lost and its function called again |
| DurableSteps.BeginStep | sdk/py/thicket/checkpoint.py:57-62 | on the handles and their store: a beginning step takes the next position and replays exactly what its handle holds, as the transition system says |
| DurableSteps.FinishStep | sdk/py/thicket/checkpoint.py:63-65 | on the handles and their store: a finished step is recorded by its handle and all that handle holds is saved, as the transition system says; a result that cannot be stored counts as raised |
| DurableSteps.ReopenRun | sdk/py/thicket/checkpoint.py:48-52 | on the store: opening a run again, at whatever time, gives a further handle that starts over on exactly what is persisted |
| DurableSteps.StartRun | sdk/py/thicket/checkpoint.py:48-52 | opening a run that was never saved gives the first handle on the empty log |
| DurableSteps.OtherActsChangeNothing | sdk/py/thicket/checkpoint.py:54-65 | a completed batch, an exception and a crash change neither what a handle holds nor the store |
| Checkpoints.DecodeUndoesEncodeCheckpoint | sdk/py/thicket/checkpoint.py:25-36 | decoding an encoded checkpoint gives back the run id and all steps in order, for every run and every step log with distinct keys |
| Checkpoints.CheckpointLayout | sdk/py/thicket/checkpoint.py:28-30 | a checkpoint encodes the run id and the list of steps under the names run_id and steps |
| Checkpoints.StepLayout | crates/thicket-core/src/checkpoint.rs:15-20 | a step encodes its key and its value under the names key and value |
| Checkpoints.LastStepWins | sdk/py/thicket/checkpoint.py:33-36 | decoding needs every listed step to be readable, and of several with one key the last gives its result |
| Checkpoints.RecallUndoesStored | sdk/py/thicket/checkpoint.py:62-64 | a replayed step returns the value its first run returned, the missing value included |
| Checkpoints.FinishShows | sdk/py/thicket/checkpoint.py:60-65 | finishing a positional step adds its result to the log of positions that the recorded steps show and changes no other position |
| Checkpoints.Checkpoint.Open | sdk/py/thicket/checkpoint.py:48-52 | a run opens empty without a stored blob and else with exactly the steps of the stored blob; it fails exactly when that blob is not a checkpoint |
| Checkpoints.Checkpoint.Begin | sdk/py/thicket/checkpoint.py:58-62 | the key is the explicit one, or the decimal numeral of the next position behind a number sign, and the position then advances; the result is replayed exactly when the key is recorded |
| Checkpoints.Checkpoint.Finish | sdk/py/thicket/checkpoint.py:63-65 | the result is recorded under its key and the whole log saved; a result that cannot be encoded changes neither |
| Checkpoints.RunRecord.Record | crates/thicket-core/src/checkpoint.rs:46-56 | recording is idempotent on the key: the first write wins, other keys are untouched, a new key is appended, keys stay distinct |
| Checkpoints.PositionKeyInjective | crates/thicket-core/src/checkpoint.rs:58-62 | distinct positions have distinct keys |
| Checkpoints.PositionKeyReads | sdk/py/thicket/checkpoint.py:59-59 | the key of position n is a number sign and then a numeral that reads, from left to right, as n, without leading zeros |
| Checkpoints.SequentialKeysAreFresh | crates/thicket-core/src/checkpoint.rs:58-62 | as long as every step was recorded under its own position, the length-based next key is unused and the next record keeps it so |
| Checkpoints.OutOfOrderKeyIsTaken | crates/thicket-core/src/checkpoint.rs:58-62 | after one concurrent step finished out of order the length-based next key is already taken |
| StepKeys.NextKeysAgreeIff | crates/thicket-core/src/checkpoint.rs:58-62 | on the same steps the core and the SDK propose the same next key exactly when as many steps are recorded as positions were taken |
| StepKeys.NextKeysAgreeInRunIff | sdk/py/thicket/checkpoint.py:57-65 | after opening on whatever was recorded and any steps one after the other, with positional or explicit keys, they propose the same next key exactly when everything recorded is a position taken since the opening |
| StepKeys.ReopenedRunDisagrees | sdk/py/thicket/checkpoint.py:48-52 | they disagree when a purely sequential run is opened again |
| StepKeys.ExplicitKeyDisagrees | sdk/py/thicket/checkpoint.py:58-59 | they disagree after one step with an explicit key |
| Cbor.Encode | sdk/py/thicket/cbor.py:61-65 | encoding succeeds exactly on values without negative or over-long integers and lengths, and appends exactly the specified bytes |
| Cbor.Append | sdk/py/thicket/cbor.py:31-58 | the recursive encoder appends the encoding of the value to the shared output, or fails exactly when the value is not encodable |
| Cbor.AppendHead | sdk/py/thicket/cbor.py:13-28 | the shortest head for a length or integer is appended; beyond 64 bits it fails |
| CborBytes.SimpleBytes | sdk/py/thicket/cbor.py:13-39 | the bytes of false, true, null and of every integer, written out by division: one, two, three, five or nine of them, most significant first |
| CborBytes.CompoundBytes | sdk/py/thicket/cbor.py:40-56 | strings stand behind a shortest head with their length; arrays and maps behind one with their count, item by item, key before value |
| CborBytes.IntegersEncodedIff | sdk/py/thicket/cbor.py:13-39 | an integer is encoded exactly when it is not negative and fits 64 bits |
| CborBytes.WhatIsEncoded | sdk/py/thicket/cbor.py:13-58 | no integer outside that range and no longer string stands anywhere in a value that is encoded |
| Bytes.MostSignificantFirst | sdk/py/thicket/cbor.py:20-28 | the first byte of a fixed-width integer is its quotient by the place value, and the rest reads as the remainder |
| Cbor.Get | sdk/py/thicket/cbor.py:68-118 | the cursor decoder, with slices that over-run silently, computes the specified result at every offset, and terminates |
| Cbor.GetEntries | sdk/py/thicket/cbor.py:106-114 | the map loop assigns keys in input order, a repeated key overwriting in place |
| Cbor.DecodeAll | sdk/py/thicket/cbor.py:121-126 | a whole input is accepted exactly when the decoder ends at its end |
| CborTheory.DecodesAtAnyOffset | sdk/py/thicket/cbor.py:68-118 | decoding at the offset where an encoding stands, whatever surrounds it, returns the value and the offset behind it |
| CborTheory.DecodeUndoesEncode | sdk/py/thicket/cbor.py:61-126 | decode(encode(v)) == v for every nested value with 64-bit integers, valid text and distinct keys |
| CborTheory.EncPrefixFree | sdk/py/thicket/cbor.py:31-58 | the encoding is injective, and no encoding is a prefix of another |
| CborReference.DecIsParse | sdk/py/thicket/cbor.py:68-118 | the cursor decoder, restricted to results inside the data, equals a reader that checks every bound |
| CborReference.AcceptedIsReadInBounds | sdk/py/thicket/cbor.py:121-126 | an input is accepted exactly when the bounds-checking reader consumes it wholly with the same value: over-running slices never lead to acceptance |
| CborBytes.ReadsEveryHead | sdk/py/thicket/cbor.py:82-98 | every head is read with the argument its digits spell, also one wider than need be |
| CborBytes.ReadsContents | sdk/py/thicket/cbor.py:100-104 | an integer has nothing behind its head, a string exactly the bytes its head announces, and text must be UTF-8 |
| CborBytes.ReadsEntry | sdk/py/thicket/cbor.py:111-117 | a key is read before its value and assigned in order; a key that is an array or a map is refused |
| CborBytes.RefusedHeads | sdk/py/thicket/cbor.py:73-98 | empty input, negative integers, tags, open lengths and other simple values are refused |
| CborBytes.AssignReplaces | sdk/py/thicket/cbor.py:116-116 | an equal key keeps its place and its spelling and gets the new value |
| CborBytes.TrueIsOne | sdk/py/thicket/cbor.py:116-116 | two different keys are the same to the host dictionary exactly when they are True and 1 or False and 0 |
| UnicodeText.ValidIffText | sdk/py/thicket/cbor.py:104-104 | bytes are valid text exactly when they encode some sequence of Unicode scalar values, each in its one form (section 3 of RFC 3629) |
| CborReencoding.AcceptedReencodes | sdk/py/thicket/cbor.py:121-126 | an accepted input is at least as long as the encoding of its value, equal to it exactly when as long, and that encoding decodes to the same value |
| Signing.SigningInputInjective | sdk/py/thicket/crypto.py:24-26 | equal signing inputs under domains without NUL have the same domain and the same payload |
| Signing.NulInDomainCollides | sdk/py/thicket/crypto.py:24-26 | a domain with a NUL does collide |
| Identity.EndorsementLayout | crates/thicket-core/src/identity.rs:101-119 | an endorsement is signed over the domain thicket-endorsement-v1, a NUL, and the working key with its two dates under their names |
| Identity.EndorsementMessageInjective | crates/thicket-core/src/identity.rs:101-119 | the bytes an endorsement signs determine the key and the dates |
| Identity.WorkingKeyVerdict | crates/thicket-core/src/identity.rs:261-285 | which verdict a working key gets, by cause: a root key of the wrong length or of another identity, no endorsement, and for the first one the root's signature, the dates, the revocations |
| Identity.AcceptedKeyIsEndorsed | crates/thicket-core/src/identity.rs:261-285 | an accepted key has as its first entry one that the root signed over that key and its dates, and the time lies between them |
| Grants.Verify | crates/thicket-interconnect/src/grant.rs:172-245 | the loop over the links returns the first reason to reject in the order of its checks, or acceptance |
| Grants.VerifyIsExact | crates/thicket-interconnect/src/grant.rs:104-245 | a grant is accepted exactly when it is one issue followed by successful attenuations with keys of the right length, its head key is endorsed by the target, no key of the chain is revoked, the last link allows the capability and has not expired, and the caller is the last audience |
| AcceptedGrants.AcceptedIff | crates/thicket-interconnect/src/grant.rs:172-245 | acceptance said over the fields alone: target, first endorsement with the root signature over its message, dates, revocations, each signature over its message, each narrowing, and the last link's capability, expiry and audience |
| AcceptedGrants.UnsignedEndorsementIsRefused | crates/thicket-core/src/identity.rs:238-246 | a head whose first endorsement carries anything but the root's signature is answered BadEndorsement by the core and refused by the SDK |
| AcceptedGrants.RejectionNamesCause | crates/thicket-interconnect/src/grant.rs:172-245 | each rejection names its cause: the first link with a fault, and the fault it has |
| AcceptedGrants.AttenuateOutcomes | crates/thicket-interconnect/src/grant.rs:133-168 | attenuating fails exactly for an empty grant, another holder or caveats that do not narrow, and otherwise appends one link that the holder signs over the signature before it |
| AcceptedGrants.NarrowsIff | crates/thicket-interconnect/src/grant.rs:48-68 | narrowing, said over capabilities, wildcard, expiry and every constraint |
| AcceptedGrants.LinkLayout | crates/thicket-interconnect/src/grant.rs:82-95 | a link is signed over its domain, a NUL, and target, issuer, audience, caveats and previous signature under their names and in this order |
| Grants.MadeIffLinked | crates/thicket-interconnect/src/grant.rs:104-168 | a grant was made by issuing and attenuating exactly when every link is signed by the audience before it over the signature before it, and narrows the link before it |
| Grants.LinkMessageInjective | crates/thicket-interconnect/src/grant.rs:82-95 | the signed bytes of a link determine target, issuer, audience, caveats and the previous signature |
| Grants.LastSignatureDeterminesGrant | crates/thicket-interconnect/src/grant.rs:200-226 | when no two of the messages that two made grants sign share a signature, the last signature determines target and every link |
| Grants.AcceptedGrantsAgree | crates/thicket-interconnect/src/grant.rs:172-245 | under the same condition two accepted grants with the same last signature are the same grant |
| Grants.SeparatedChainExists | crates/thicket-interconnect/src/grant.rs:104-168 | there is a scheme and an accepted chain of two links that meet that condition |
| Grants.NarrowsIsTransitive | crates/thicket-interconnect/src/grant.rs:48-68 | narrowing is transitive |
| Grants.NarrowerAllowsLess | crates/thicket-interconnect/src/grant.rs:45-68 | a capability, a time or an attribute set that narrower caveats let through, wider ones let through |
| Grants.LaterLinkIsNarrower | crates/thicket-interconnect/src/grant.rs:212-239 | along any chain what a later link allows every earlier link allows: capability, expiry and constraints |
| Grants.LastLinkDecides | crates/thicket-interconnect/src/grant.rs:231-239 | so the capability and expiry checks at every link amount to checking the last link |
| PyGrants.Verify | sdk/py/thicket/grant.py:107-157 | the second verifier accepts exactly the grants all of whose links pass its checks |
| PyGrants.OneVerdict | sdk/py/thicket/grant.py:89-157 | on every grant, request and key, of right or wrong length, the second verifier accepts exactly when the first one does |
| PyGrants.VerdictsOnTheSameBytes | sdk/py/thicket/grant.py:133-146 | for the same wire bytes the verdicts agree on grants whose capability and constraint lists are sorted; no other grant is accepted by both, when what it signs before and after parsing is signed apart |
| PyGrants.UnsortedGrantSplits | sdk/py/thicket/grant.py:140-147 | a properly made and permitted grant is accepted by the SDK, and by the core exactly when its capability and constraint lists came sorted |
| PyGrants.SplitGrantExists | sdk/py/thicket/grant.py:140-147 | a concrete scheme and grant, for the capabilities "b" and "a" in this order, that the two verifiers judge differently |
| PyGrants.SortedIffFixed | crates/thicket-interconnect/src/grant.rs:24-33 | keeping capabilities in an ordered set leaves a list as it came exactly when it was strictly sorted |
| PyGrants.FirstDifferenceDecides | crates/thicket-interconnect/src/grant.rs:24-33 | the order of texts is decided by the first byte in which they differ, and a prefix comes first |
| PyGrants.ConstraintsAreSorted | crates/thicket-interconnect/src/grant.rs:24-33 | the constraints of a parsed grant, whose keys are distinct, come out in the order of their keys |
| PyGrants.ConstraintChecksAgreeIff | sdk/py/thicket/grant.py:76-86 | the two constraint checks agree on all attribute sets exactly when no constraint demands the text "None" |
| Records.SignedRecordVerifies | crates/thicket-core/src/record.rs:62-124 | what an identity signs with an endorsed, current and unrevoked key verifies |
| SignedRecords.RecordVerdict | crates/thicket-core/src/record.rs:108-124 | a record whose root key hashes to its id and that lists its signer gets its verdict by cause: the root's signature on the first such endorsement, its dates, the revocations, the signature over the record's message |
| SignedRecords.VerifiedRecordIsEndorsed | crates/thicket-core/src/record.rs:108-124 | the signer of a verified record has as its first endorsement one that the record's root signed, and the time lies within its dates |
| SignedRecords.PayloadFieldsAre | crates/thicket-core/src/record.rs:20-54 | a record signs all of its payload, field by field in declaration order; an absent lease is left out |
| SignedRecords.ListsInOrder | crates/thicket-core/src/record.rs:20-54 | the endorsements, locators and capabilities of a record are signed in the order they are in |
| SignedRecords.TextsInOrder | crates/thicket-core/src/record.rs:20-54 | labels and string maps are encoded text by text, keys before values, in the order they are in |
| SignedRecords.RecordMessageInjective | crates/thicket-core/src/record.rs:56-60 | the bytes a record signs determine its whole payload |
| SignedRecords.OnlySignedPayloadVerifies | crates/thicket-core/src/record.rs:108-124 | another payload verifies under the same signature exactly when it is the same payload, when the two messages do not share a signature |
| Records.LeaseIsSigned | crates/thicket-core/src/record.rs:20-60 | the signed bytes of a record determine its lease |
| Records.OnlySignedLeaseVerifies | crates/thicket-core/src/record.rs:108-124 | a verified record with another lease verifies exactly when the lease is the same, when the two payloads do not share a signature |
| Registry.Node.Register | crates/thicket-registry/src/registry.rs:83-107 | a record is stored with fresh embeddings exactly when it verifies against the revocations and has a higher version than the stored one; else nothing changes and the reason is returned |
| Registry.Node.Resolve | crates/thicket-registry/src/registry.rs:111-120 | unknown and expired ids are not found, private ones not authorized, others returned |
| Registry.Node.Search | crates/thicket-registry/src/registry.rs:124-143 | the result is a best selection of at most top-k out of the public, live, matching records, ranked by capability embeddings computed afresh, though the code ranks by cached ones |
| Registry.CandidatesAre | crates/thicket-registry/src/registry.rs:124-143 | the candidates are exactly the stored records that are public, whose lease has not run out, whose kind or some capability's kind is the one asked for, and that have each tag asked for on some capability |
| Registry.PublicRecordsAre | crates/thicket-registry/src/registry.rs:201-207 | the public records are exactly those stored with that visibility and no lease that ran out |
| Registry.ScoreIsBestSimilarity | crates/thicket-registry/src/registry.rs:253-259 | a record scores what its most similar capability does |
| Registry.Node.Revoke | crates/thicket-registry/src/registry.rs:148-167 | a root-signed revocation revokes its key and drops the entry it was applied to when that key signed it |
| Registry.Node.Renew | crates/thicket-registry/src/registry.rs:173-185 | renewal rewrites the lease of a leased entry and returns the new expiry, the 64-bit sum of the time and the time to live |
| Registry.Node.Deregister | crates/thicket-registry/src/registry.rs:188-190 | exactly the named entry goes |
| Registry.Node.SweepExpired | crates/thicket-registry/src/registry.rs:193-197 | exactly the expired entries go, and their number is returned |
| Registry.RegisterOutcome | crates/thicket-registry/src/registry.rs:83-107 | which outcome a registration has, and what is stored under each id afterwards |
| Registry.RevokeOutcome | crates/thicket-registry/src/registry.rs:148-167 | which outcome a revocation has: the root of the named entry must have signed its message; which key is revoked and which entry goes |
| Registry.RenewOutcome | crates/thicket-registry/src/registry.rs:173-185 | which outcome a renewal has, and that nothing but the lease of the named entry changes |
| Registry.RemovalOutcomes | crates/thicket-registry/src/registry.rs:188-197 | what stays after a deregistration and after a sweep |
| Registry.RevocationLayout | crates/thicket-core/src/identity.rs:123-140 | a revocation is signed over its domain, a NUL, and the working key with its time under their names |
| Registry.RegisteredIsResolved | crates/thicket-registry/src/registry.rs:83-120 | a registered record is what its id resolves to until its lease runs out, and other ids resolve as before |
| Registry.RenewedLivesUntil | crates/thicket-registry/src/registry.rs:173-185 | a renewed entry resolves, to its record but for the lease, exactly until the returned expiry |
| Registry.RenewalMovesForwardIff | crates/thicket-registry/src/registry.rs:169-185 | a renewal moves the expiry forward exactly when the sum, in 64 bits, exceeds the old expiry, and hides the id at no time at which it was found exactly when the new expiry is not below the old one |
| Registry.BestScore | crates/thicket-registry/src/registry.rs:253-259 | the score of a record is the maximum over its capabilities, the least float without any |
| Registry.ReachableIsConsistent | crates/thicket-registry/src/registry.rs:83-197 | in every state reachable by register, renew, revoke, deregister and sweep, each entry sits under its own id, its cached embeddings are those of its capabilities, and its record is one that verified, up to its lease |
| Registry.VersionsRise | crates/thicket-registry/src/registry.rs:88-92 | while an id stays stored its version never falls, and any other record in its place, but for the lease, has a higher one |
| Registry.RevokedKeyStaysOut | crates/thicket-registry/src/registry.rs:148-167 | after a key was revoked through an id, no run ever stores a record for that id signed by that key |
| Registry.OtherEntriesSurviveRevocation | crates/thicket-registry/src/registry.rs:161-165 | the entries of other ids stay, also those signed by the revoked key |
| Registry.RenewalBreaksSignature | crates/thicket-registry/src/registry.rs:173-185 | a stored record that verifies still verifies after a renewal exactly when the renewal left the lease as it was, when the two payloads do not share a signature |
| Registry.RenewalCanHurt | crates/thicket-registry/src/registry.rs:169-185 | a concrete registered live entry whose renewal shortens its life and leaves a record that does not verify |
| Registry.SweepIsInvisible | crates/thicket-registry/src/registry.rs:193-207 | a sweep changes no resolve, no search candidates and no public-record set at its time or later |
| Registry.SweepKeepsSearchScores | crates/thicket-registry/src/registry.rs:124-143 | a search before and one after a sweep rank the same scores |
| TopK.RankAndTakeIsBest | crates/thicket-registry/src/registry.rs:134-143 | sorting by score and cutting at k is a best selection: ranked, distinct, of full size, nothing left out scoring higher |
| TopK.NoBetterAtRank | crates/thicket-registry/src/registry.rs:136-143 | no best selection beats another at any rank |
| TopK.BestScoresUnique | crates/thicket-registry/src/registry.rs:136-143 | the score sequence of a best selection is unique, whatever the order of ties |
| TopK.BestOfPoolIsBestOfAll | crates/thicket-federation/src/federation.rs:84-111 | the best k of a pool that contains the best k of every part is a best k of everything |
| Federation.SelectsPeers | crates/thicket-federation/src/federation.rs:66-80 | the selected peers are distinct, as many as the limit allows, ranked by centroid, no other peer scores higher than a selected one, and without a lower limit they are all |
| Federation.Hub.Search | crates/thicket-federation/src/federation.rs:84-111 | each selected peer contributes a best selection, the merge keeps the highest verified version per id, and the result is a best selection of the merged records |
| Federation.Hub.MergeRecords | crates/thicket-federation/src/federation.rs:90-101 | the merge loop computes the merge of the records in order |
| Federation.MergeKeepsHighest | crates/thicket-federation/src/federation.rs:88-101 | the merge holds exactly the ids offered with a verifiable record, each with a verified record of the highest version offered |
| Federation.MergeKeepsFirst | crates/thicket-federation/src/federation.rs:90-101 | of several verified records of the highest version the first one offered is kept |
| Federation.Hub.Resolve | crates/thicket-federation/src/federation.rs:116-140 | a fresh cache entry answers; otherwise the first record a peer supplies that verifies is returned and cached for its time to live, and nothing changes when there is none |
| Federation.Hub.HitWasVerified | crates/thicket-federation/src/federation.rs:117-121 | a cache hit returns a record that was fetched under this id, verified at that time, and is within its time to live since |
| ScatterGather.FederatedScoresAreUnionScores | crates/thicket-federation/src/federation.rs:84-111 | with all peers selected, every candidate verifying and one record per id, the scores of a federated search equal those of one registry that holds the union of the peers' records |
| ScatterGather.SearchBoth | crates/thicket-federation/src/federation.rs:84-111 | the same for the two search methods run on the objects |
| ScatterGather.MergedOffers | crates/thicket-federation/src/federation.rs:88-101 | the merge keeps candidates of the union only, and every record any peer offers |
| Directory.Handle | crates/thicket-directory/src/server.rs:60-127 | each request has the stated reply and effect: changes need the id of the authenticated peer, a search is a best selection, malformed and unknown requests are refused |
| Directory.OwnRequestsTakeEffect | crates/thicket-directory/src/server.rs:68-124 | a request about the peer's own id has the registry's effect, and no other request changes anything |
| Directory.AnswersNameTheirCause | crates/thicket-directory/src/server.rs:60-127 | each error has its one cause: malformed, not the peer's own id, refused by the registry, not found |
| Directory.EntryChangesOnlyByItsOwner | crates/thicket-directory/src/server.rs:60-127 | over any history of requests, an entry changes only if somebody authenticated as that id made one |
| Directory.OneCallChangesOwnEntryOnly | crates/thicket-directory/src/server.rs:68-124 | one request leaves all entries of other ids and the revocations alone |
| Framing.Wire.WriteFrame | crates/thicket-net/src/framing.rs:25-33 | a frame is written, length first, exactly when it is within the limit |
| Framing.Wire.ReadFrame | crates/thicket-net/src/framing.rs:36-50 | one frame is taken off the stream, or end, oversize or truncation is reported |
| Framing.FrameBytesAre | crates/thicket-net/src/framing.rs:25-33 | the four length bytes of a frame, written out by division, and then the frame |
| Framing.ReadOutcomes | crates/thicket-net/src/framing.rs:36-50 | when reading ends cleanly, reports an oversized or cut-off frame, or returns one, by the bytes there are |
| Framing.FramesReadBack | crates/thicket-net/src/framing.rs:25-50 | any concatenation of accepted frames reads back as those frames and then a clean end |
| Framing.CutStreamReadsPrefix | crates/thicket-net/src/framing.rs:36-50 | a stream cut anywhere reads back as a prefix of the frames |
| SecureChannel.EncryptFrame | crates/thicket-net/src/secure.rs:157-172 | the output is the chunk count and the sealed chunks with consecutive nonces, and the sender's nonce moves by the number of chunks |
| SecureChannel.CountAndLengthBytes | crates/thicket-net/src/secure.rs:164-169 | the chunk count in four bytes and a chunk's length in two, written out by division |
| SecureChannel.ChunkIs | crates/thicket-net/src/secure.rs:158-162 | chunk i is the plaintext from 65519 * i on, 65519 bytes or what is left |
| SecureChannel.LayoutIs | crates/thicket-net/src/secure.rs:166-170 | behind the count come the items of the sealed chunks in the order of their nonces |
| SecureChannel.DecryptFrame | crates/thicket-net/src/secure.rs:175-199 | the loop over the chunks returns what the specification does, with the nonce it leaves, also on failure |
| SecureChannel.AcceptsIffNextChunks | crates/thicket-net/src/secure.rs:175-199 | a frame is accepted exactly when, behind the count, it begins with the layout of the next sealed chunks; it then yields their plaintext and moves the nonce past them |
| SecureChannel.RejectionCause | crates/thicket-net/src/secure.rs:175-199 | a rejected frame is too short for its count, or behind some of the next sealed chunks comes one cut off at its header, cut off in its body, or not the one sealed next; the nonce stays there |
| SecureChannel.DecryptUndoesEncrypt | crates/thicket-net/src/secure.rs:157-199 | the next encrypted frame decrypts to its plaintext and brings the nonces together |
| SecureChannel.InOrderDelivery | crates/thicket-net/src/conn.rs:153-171 | any sequence of frames delivered in order comes out as it went in, with both nonces in lock step |
| SecureChannel.HonestSession | crates/thicket-net/src/conn.rs:120-171 | a session without interference accepts every frame sent, one for one |
| SecureChannel.AcceptedIsPrefixOfSent | crates/thicket-net/src/secure.rs:175-199 | whatever is delivered (replayed, reordered, dropped, cut up or forged), the accepted bytes are a prefix of the bytes sent |
| SecureChannel.FramesCanBeMerged | crates/thicket-net/src/secure.rs:175-199 | frame boundaries are not protected: two frames can be delivered as one |
| SecureChannel.EncryptedSize | crates/thicket-net/src/secure.rs:26-26 | a plaintext of length L encrypts to 4 + L + 18 * ceil(L / 65519) bytes, and fits a frame exactly when L <= 16772604 |
| SecureChannel.EndToEnd | crates/thicket-net/src/conn.rs:120-171 | frames of at most 16772604 bytes, encrypted, framed, read back and decrypted, arrive unchanged |
| PySecureChannel.EncryptFrame | sdk/py/thicket/secure.py:96-107 | the second implementation produces the same bytes, or fails when the chunk count exceeds 32 bits |
| PySecureChannel.SlicesAreChunks | sdk/py/thicket/secure.py:100-103 | both implementations cut a plaintext into the same chunks |
| PySecureChannel.DecryptFrame | sdk/py/thicket/secure.py:110-119 | the loop with silently cut slices computes its specification |
| PySecureChannel.StrictIsLaxAndWellFramed | sdk/py/thicket/secure.py:110-119 | the core accepts exactly the well-framed inputs that the SDK accepts, with the same plaintext |
| PySecureChannel.LaxAcceptsIff | sdk/py/thicket/secure.py:110-119 | what the SDK accepts beyond the core is exactly: fewer than four bytes, all zero, and a frame whose last chunk announces more bytes than there are; either way it returns only sealed plaintext |
| PySecureChannel.LaxAcceptsMore | sdk/py/thicket/secure.py:110-119 | inputs that only the SDK accepts: an empty frame, and a chunk that announces more bytes than there are |
| StreamDemux.Conn.Route | crates/thicket-net/src/conn.rs:308-355 | one envelope goes to at most one queue and only when that has room; a reply resolves its one call; a stream is dropped when its queue cannot take a chunk or after its last chunk |
| StreamDemux.Conn.OpenStream | crates/thicket-net/src/conn.rs:239-254 | a stream is registered with an empty queue before its request is sent |
| StreamDemux.ReceiverGetsGapFreePrefix | crates/thicket-net/src/conn.rs:322-335 | in every run of many streams with fresh correlations, a receiver gets a gap-free prefix of its arrived chunks cut at the first end marker; chunks are missing exactly when one was refused, so seeing the end marker means none is |
| StreamDemux.RefusedIffFellBehind | crates/thicket-net/src/conn.rs:325-330 | in every run a stream is given up exactly when a chunk arrives, before any end marker, for a consumer that is gone or 64 chunks behind |
| StreamDemux.ChunksSinceOpening | crates/thicket-net/src/conn.rs:239-254 | a stream's chunks are those routed since it was opened, and its receiver listens until it is dropped |
| PyConn.CallEndsOnceWithItsReply | sdk/py/thicket/conn.py:126-139 | in every run a call ends at most once, and a reply it ends with arrived with its own correlation |
| PyConn.NoReplyForTwoCalls | sdk/py/thicket/conn.py:84-91 | no frame completes two calls |
| PyConn.ClosedMeansNobodyWaits | sdk/py/thicket/conn.py:93-103 | once the connection is closed no call is pending or waiting, ever |
| PyConn.AnswerReachesWaitingCall | sdk/py/thicket/conn.py:84-87 | an answer that arrives for a waiting call reaches it |
| PyConn.StreamGetsItsFrames | sdk/py/thicket/conn.py:141-163 | an open stream holds exactly the frames that arrived for it, in order, then the end marker once closed; and its consumer never gets anything else |
| ConnRuns.RequestsReachTheServer | sdk/py/thicket/conn.py:78-79 | in every run the frames that arrived are those before the first teardown, and the serving side gets exactly the requests among them, in order, and one end marker once closed |
| ConnRuns.CallsDoNotDisturbEachOther | sdk/py/thicket/conn.py:126-139 | in every run a call is decided by the first of its answer, the teardown, its timeout and its failed send, and ends accordingly, whatever happens beside it |
| ConnRuns.ClosedFailsAtOnce | sdk/py/thicket/conn.py:129-130 | on a closed connection a call fails and a stream does not start |
| ConnRuns.StreamGetsWhatArrivesSince | sdk/py/thicket/conn.py:141-163 | in every run a stream is given a prefix of the frames that arrived for it since its start, and these and what is queued are all of them, with the end marker once closed, as long as its consumer stays |
| ConnRuns.WhenConsumersLeave | sdk/py/thicket/conn.py:152-163 | a consumer leaves exactly when it gives up or takes the end marker, an error, a response or a chunk that says it is the last |
| ConnRuns.NothingBehindTheLastFrame | sdk/py/thicket/conn.py:152-163 | in every run nothing is given behind such a frame |
| ConnRuns.ConsumerTakesFront | sdk/py/thicket/conn.py:152-153 | only its consumer takes from a queue, one item at a time, from the front |
| PyConn.Conn.RouteFrame | sdk/py/thicket/conn.py:75-91 | the routing method takes the connection object from the state it shows to the state the transition system gives |
| PyConn.Conn.TearDown | sdk/py/thicket/conn.py:93-103 | teardown fails every waiting future, empties the pending table and puts one end marker into every queue, once |
| PyConn.Conn.StartCall | sdk/py/thicket/conn.py:126-134 | a call registers its future, or raises on a closed connection |
| PyConn.Conn.StartStream | sdk/py/thicket/conn.py:144-149 | a stream registers its queue, or raises on a closed connection |
| PyConn.Conn.EndCall | sdk/py/thicket/conn.py:135-139 | a call that resumes leaves the table with what its future holds |
| PyConn.Conn.NextItem | sdk/py/thicket/conn.py:152-163 | a consumer takes the next item, and leaves at the end marker or a terminal frame |
| Fibers.Admit | sdk/py/thicket/app.py:339-367 | a handler runs exactly when the capability exists, deadline and budget hold, and a needed grant verifies; every refusal has its one reason, and the handler only ever sees a verified grant |
| Fibers.AdmittedIffDelegated | sdk/py/thicket/app.py:358-367 | a grant opens the gate exactly when a key that this fiber's root endorsed issued it, its holders only narrowed it, none of its keys is revoked here, and its last link names the caller's key, allows the capability and has not run out |
| Fibers.PayloadRoundTripIff | sdk/py/thicket/app.py:44-58 | a value survives the way through a message body exactly when it is not an empty byte string (read as missing) and not one that decodes (read as what it decodes to) |
| Fibers.Pump | sdk/py/thicket/app.py:404-410 | a stream sends its values with consecutive numbers and the end marker exactly when the generator finished, every value was encodable and the connection stayed open |
| Fibers.Gather | sdk/py/thicket/app.py:152-168 | a caller gathers the values of the non-empty bodies, joined when they are all text |
| Fibers.JoinedInOrder | sdk/py/thicket/app.py:166-167 | joined texts are their bytes one after the other |
| Fibers.CoreReceiverHasAll | sdk/py/thicket/app.py:397-420 | from the generator through the bounded queue: a core receiver that took an end marker has all values the generator yielded; any receiver has a prefix of them |
| Fibers.SdkCallerHasAll | sdk/py/thicket/app.py:152-168 | the same for a caller of the SDK, for whom a closed connection ends the stream early |
| Tracing.DerivationsAgreeIff | crates/thicket-interconnect/src/envelope.rs:100-113 | the core and the SDK derive the same child context exactly when the SDK draws no id (or an empty one) and keeps the sink |
| Tracing.BothDerivationsTighten | sdk/py/thicket/tracing.py:35-57 | both derive deadline, budget and parent span as the reference says, also with a sink override or drawn ids |
| Tracing.ContextOnlyTightens | crates/thicket-interconnect/src/envelope.rs:100-113 | along every chain of nested calls a deadline never loosens or vanishes and a budget never grows |
| Tracing.EarliestDeadlineHolds | crates/thicket-interconnect/src/envelope.rs:100-113 | down any path of calls the deadline is the earliest one set on it, and there is none exactly when none was set |
| Tracing.PathKeepsTrace | crates/thicket-interconnect/src/envelope.rs:100-113 | down any path the trace and its sink stay, and each span names the one before it as its parent |
| Tracing.GateRefusesIff | sdk/py/thicket/app.py:345-356 | a handler runs exactly before the deadline with enough budget for the price, and each refusal has its one cause |
| Tracing.BudgetAlong | sdk/py/thicket/tracing.py:49-53 | along a chain the budget is exactly what the spending leaves |
| Tracing.BudgetBoundsDepth | sdk/py/thicket/app.py:345-356 | from a request with budget b no chain of accepted nested calls, each spending at least one, is deeper than b |
| Tracing.DeadlineBoundsChain | sdk/py/thicket/tracing.py:60-69 | no call is accepted later than any deadline set before it in its chain |
| Collector.BuildTree | fibers/py/collector/collector.py:9-21 | the node objects are placed under the roots and in the children lists as the specification of roots and children says, in start-time order |
| Collector.Attach | fibers/py/collector/collector.py:14-20 | one loop pass appends the node to the roots or to the children of its parent's node, and to nothing else |
| CallTrees.CallHangsBelowCaller | fibers/py/collector/collector.py:9-21 | for any call tree, reported in any order with any subset lost: a reported call is exactly once a child of its caller when that was reported, and exactly once a root otherwise |
| CallTrees.FirstCallIsRoot | fibers/py/collector/collector.py:17-18 | the first call is a root |
| CallTrees.EachReportedCallOnce | fibers/py/collector/collector.py:9-21 | each reported call stands in the assembled forest exactly once: at one level, one time |
| CallTrees.SpanOccursAtItsDepth | fibers/py/collector/collector.py:9-21 | under distinct ids a span stands at the level given by its chain of reported parents, once, and at no other level |
| CallTrees.CalleesNameCallers | sdk/py/thicket/tracing.py:93-113 | the spans of a traced call tree name their callers |
| CallTrees.SiblingsInOrder | fibers/py/collector/collector.py:14-14 | roots and siblings are ordered by start time |
| Collector.TiesKeepTheirOrder | fibers/py/collector/collector.py:14-14 | spans that started at the same time stay in the order of their reports |
| CallTrees.LevelsOfNodes | fibers/py/collector/collector.py:9-21 | the node objects below one level of the forest are those of the next level |
| CallTrees.SpanStore.Report | fibers/py/collector/collector.py:25-27 | a reported span is added to its own trace only |
| CallTrees.SpanStore.Trace | fibers/py/collector/collector.py:31-36 | a trace comes back sorted and assembled |
| Reputation.ReputationLedger.RecordOutcome | crates/thicket-trust/src/reputation.rs:30-37 | one outcome is counted for the id |
| Reputation.ReputationLedger.Reputation | crates/thicket-trust/src/reputation.rs:59-76 | the loop computes the blend of the success rate and the weighted average of the attestations |
| Reputation.OutcomeScore | crates/thicket-trust/src/reputation.rs:50-55 | the success rate lies in [0, 1] and is zero exactly without a success |
| Reputation.ReputationIsMeanOfSignals | crates/thicket-trust/src/reputation.rs:57-76 | a reputation is the mean of the signals there are, the success rate and the vouches, and the vouched one is the weighted mean of the scores |
| Reputation.ReputationFormula | crates/thicket-trust/src/reputation.rs:50-76 | after any run, over its events alone: the mean of the share of successes and of the scores given, each counted as much as its attester's share of successes; what is missing is left out |
| Reputation.ReputationInUnitInterval | crates/thicket-trust/src/reputation.rs:57-76 | with scores in [0, 1] every reputation lies in [0, 1] after any run |
| Reputation.ReputationIgnoresOrder | crates/thicket-trust/src/reputation.rs:59-76 | reputations depend on which outcomes and attestations happened and how often, not on their order |
| Reputation.SwarmChangesNothing | crates/thicket-trust/src/reputation.rs:3-8 | any number of attestations by attesters without a successful outcome changes no reputation |
| Reputation.AttestationChangesNothingIff | crates/thicket-trust/src/reputation.rs:59-76 | one more attestation leaves a reputation as it was exactly when it is about someone else, carries no weight, or gives the score the subject has |

## Left out

- DurableRuns.StepKeepsInv: a workflow that catches the exception of a step and goes on is not modelled, nor are two steps that share one explicit key at the same time.
- Checkpoints.DecodeUndoesEncodeCheckpoint: decoding is stricter than the code on blobs that are CBOR but no checkpoint (a key that is not text, a value that is not bytes); these read as failures.
- Checkpoints.Checkpoint.Finish: sizes beyond 64 bits fail as unencodable values do; the code would raise at the save instead.
- Cbor.Get: text is its UTF-8 encoding, so lone surrogates, which the encoder rejects, do not occur; the recursion limit of the host language is not modelled.
- Grants.Verify: real signatures have 64 bytes and public keys are curve points; here a signature is whatever the scheme gives for a 32-byte key.
- PyGrants.Verify: a link without a `constraints` key, or of another type than the wire objects, does not occur; the SDK's `attenuate` on an empty link list raises and is not modelled.
- Registry.Node.Renew: a debug build panics where the sum of the time and the time to live overflows; the wrapped sum of an optimized build is modelled.
- Federation.Hub.Resolve: the same. The catalog centroid of a peer is given when the peer is added; its arithmetic is not modelled.
- ScatterGather.FederatedScoresAreUnionScores: floating-point scores, with rounding and values that do not compare, are not modelled; a score is a real number.
- SecureChannel.AcceptedIsPrefixOfSent: it is about the bytes in order; frame boundaries are not protected by the code (`FramesCanBeMerged`).
- StreamDemux.Conn.Route: which consumers have dropped their receivers is a flag of the queue; the tasks that drop them, timeouts of `call` and `flush` are not modelled.
- PyConn.Conn.RouteFrame: the checks of sender and signature before routing are not modelled; a frame that arrives has passed them.
- Fibers.Pump: a connection that closes between two sends stops the stream there; a send that fails half-way is not modelled.
- Reputation.ReputationLedger.Reputation: over the reals; overflow of the outcome counters and rounding are not modelled, nor is the signature of an attestation, which is verified before it is added.
- The Noise handshake, Ed25519 and SHA-256 themselves.
- TCP, the async runtimes, task abort, command lines and example servers.
- `FiberCheckpointStore`, whose saves over the network can be reordered, and the file store, which does with a file what `DictStore` does with a dictionary.
- `sdk/py/thicket/federation.py`, which keeps the first record seen of an id instead of the highest version.
- Embedding and centroid arithmetic, router selection, the profiler, memory, state and filesystem fibers, record builders and JSON output: thin wrappers or easy members.

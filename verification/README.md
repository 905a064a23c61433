# A verified model of the SHADI identity, ownership and sandbox core

This project models the parts of SHADI that keep state or transform signed data, and proves what
they promise for every input, every run and every interleaving of their steps. It is checked with
Dafny 4.11: `dafny verify dfyconfig.toml`.

What is modelled, by file:

- **The signed formats.** `Text` (bytes, lines, separators, decimal numbers, UTF-8, white space),
  `Identity` (`did:key` identities over an abstract signature scheme), `Json`, `DidProof`, `Binding`,
  `Grant`, `ChannelRequest`, and `SignedStatements`, which puts everything an identity signs side by
  side. Bytes and Rust strings are both a Dafny string with one char per byte; Ed25519, base58,
  base64 and JSON are function values about which only their round trips, alphabets and sizes are
  required (`Suite.Lawful`, `AgentIdentity.Genuine`, `JsonCodec.Lawful`). `ConcreteEncodings` (base64
  as it is, a JSON writer, a record writer) and `Instances` show that all of it can be met at once.
- **The channel owner.** `OwnerSpec` says what each operation does to the state, `Owner` is the
  object whose methods do it field by field, `OwnerRuns` and `OwnerGrants` hold what is true of
  every run. A failing audit write and a failing signature are part of every call: an `Env` says
  whether there is a nonce and how many writes succeed. `OwnerIntake` and `OwnerService` admit a
  signed request through its three layers and act on it.
- **The update-rule language.** `UpdateRule` (tokenizer, grammar, parser with a moving cursor),
  `UpdateRulePrint` (a printer that parsing undoes), `UpdateRuleEval`, `RuleProbe` (the xorshift64*
  generator on 64-bit words, and the probing comparison). Numbers are an abstract type for parsing
  and evaluation and reals for probing.
- **The sandbox's access lists.** `JournalMac` (what a journal entry's tag covers), `AclJournal` (one
  revoke, one clean exit, one recovery pass, on the disk), `AclProtocol` (processes, sandboxes,
  crashes, recovery and outside edits interleaved).
- **Stores and caches.** `Credential`, `KeyRegistry` (the secret store's list of its keys),
  `CredentialVault` (the keychain and the SQL vault against one map), `SdJwt` (import, and the columns
  against the stored text), `TrustAnchor` (the published-keys cache under thread interleavings).
- **Normal forms and merging loops.** `NetPorts`, `Locator`, `FirstOccurrences`, `MemberSource`.

Code that changes things in place is a class or a loop, proved equal to a function of the old state;
what the code promises is then proved of that function.

## Where the code and its promise part

- A task header comes off a request whole exactly when the separator cannot be found too early
  (`OwnerIntake.SplitBodyExact`). A header that holds no separator but ends in `\nbody:` loses the
  body (`OwnerIntake.HeaderEndingInBodyIsNotClear`); behind any such header a request that is read at
  all names the channel the header says (`OwnerIntake.UnclearHeaderNamesChannel`).
- A task header that starts like a human's binding is taken for one when no binding stands in front,
  and the request is never admitted as it was sent (`OwnerIntake.AdmitSigned`;
  `OwnerIntake.BindingHeaderIsRefused` is such a header). Every fitting request arrives behind a header
  if and only if it fails in neither way (`OwnerIntake.HeaderExact`).
- A channel or invitee ending in a carriage return is not read back, since line reading drops it: the
  request then names another channel (`OwnerIntake.ReturnNamesAnotherChannel`). The exact condition
  is `FieldFits` (`OwnerIntake.ParseRender`).
- Issuing a grant has no size limit, verifying one has 4096 bytes. An issued grant verifies exactly when
  its fields, as JSON quotes them, stay within that (`Grant.VerifyIssue`, `OwnerGrants.GrantedVerifies`);
  with a channel name of more than 4096 characters it never does (`Grant.LongGrantNeverVerifies`).
- An ask is taken out before its answer is signed and logged. When that fails the answer is lost: the
  log accounts for the ask by no answer, and no later answer is accepted (`OwnerRuns.RunAccounted`,
  `OwnerRuns.ClosedForever`); `OwnerRuns.AnAnswerIsLost` is such a run. The pending and the answered ids
  make up the asked ones exactly when no answer was lost (`OwnerRuns.NothingLostExactly`), as when
  nothing fails (`OwnerRuns.SmoothRunsPartition`).
- Journal files are named by process id and nanosecond. If two grants of one process fall in the same
  nanosecond the second overwrites the first; `AclProtocol.OverwritingIff` says exactly when that
  leaves an entry that nothing would undo, and `AclProtocol.SameNanosecondLosesAnEntry` is a case. The
  protocol otherwise takes names as unused.
- A pass of recovery, whatever fails in it, restores every list if and only if each sandbox entry still
  there is named by a journal entry that the pass comes to, finds stale and can revoke
  (`AclProtocol.RecoveryRestoresExactly`). Two things stand in the way even when every revoke works:
  - A journal file that cannot be read, for one because another process has just recovered it, ends the
    whole pass there: a pass completes exactly when all it lists can be read
    (`AclJournal.PassCompletesExactly`). `AclProtocol.GoneFileHidesTheRest` is a run after which a pass
    that meets such a file first restores nothing.
  - A process id can be reused: an entry whose owner is gone is skipped while another process holds that
    id. A pass in which nothing fails restores every list exactly when the ids behind the entries still
    there are free (`AclProtocol.FullPassRestoresExactly`); `AclProtocol.ReusedIdKeepsEntry` is a run
    after which they are not.
- Threads that both miss the key cache both fetch (`TrustAnchor.TwoThreadsFetchTwice`). One window
  between fetches holds over every interleaving in which no look-up for a principal falls between
  another call's miss and its insertion (`TrustAnchor.UndisturbedFetchesAreSpaced`), and nothing less
  will do (`TrustAnchor.DisturbedFetchesCrowd`, `TrustAnchor.HeldReplyCrowds`).
- The macOS secret store lists its keys as lines, trimmed when they are read. A credential whose id holds
  a newline or ends in white space is stored and not listed: a put keeps the store equal to the map
  exactly for the other ids (`CredentialVault.PutHolds`, `CredentialVault.UnlistedPut`,
  `CredentialVault.StoreFollowsExactly`). Imported credentials are given UUIDs, which are among these.
- Rebuilding a locator from its own URL changes nothing exactly when the URL names a host
  (`Locator.NewTwice`), and a displayed unicast locator parses back exactly when it is plain text with
  a host that is not itself an HTTP URL (`Locator.DisplayParseExact`).

## Model

| member | source | states |
|---|---|---|
| Text.CheckedNameIsPlain | crates/shadi_identity/src/grant.rs:264-277 | a name that passes the check holds no NUL and no newline, so it can stand between NULs and on a line |
| Text.ParseDecimal | crates/shadi_identity/src/binding.rs:98-177 | the decimal form of a number below the integer width parses back to that number |
| Text.Utf8Append | crates/shadi_identity/src/did_proof.rs:133-172 | behind well-formed UTF-8 the whole is UTF-8 exactly when the rest is |
| Text.TrimTrimmed | crates/shadi_credential/src/sd_jwt.rs:62-66 | trimming Unicode white space leaves nothing to trim |
| Identity.ParsedDidIsPlain | crates/shadi_identity/src/did_proof.rs:133-172 | a DID that parses is short visible ASCII: one line, no NUL, not blank |
| DidProof.WrapSignedMessage | crates/shadi_identity/src/did_proof.rs:37-58 | the buffer built push by push is the envelope format, and only payloads within the cap are wrapped |
| DidProof.SplitEnvelopeLoop | crates/shadi_identity/src/did_proof.rs:133-172 | reading three header lines with a moving start, never out of bounds, is the header grammar and its checks |
| DidProof.ReadHeaders | crates/shadi_identity/src/did_proof.rs:137-150 | the loop over start and headers reads exactly the next lines, or reports truncation |
| DidProof.SplitEnvelopeExact | crates/shadi_identity/src/did_proof.rs:133-172 | splitting gives DID, signature and payload exactly when the bytes are those three in an envelope within the limits |
| DidProof.UnwrapWrap | crates/shadi_identity/src/did_proof.rs:37-95 | every payload up to the cap unwraps to itself under its signer's DID, and no bigger one is wrapped |
| DidProof.UnwrapIsAuthentic | crates/shadi_identity/src/did_proof.rs:65-95 | whatever unwraps is an envelope around exactly that payload, strictly signed under the DID it names |
| Binding.AppendLines | crates/shadi_identity/src/binding.rs:75-90 | appending lines to a buffer in a loop gives the lines behind their separators |
| Binding.IssueBinding | crates/shadi_identity/src/binding.rs:50-91 | the issuing loop produces the certificate format with the human's signature over the canonical bytes |
| Binding.VerifyBinding | crates/shadi_identity/src/binding.rs:98-177 | pulling fields from an advancing iterator is reading five fields and checking them in the source's order |
| Binding.IssueIff | crates/shadi_identity/src/binding.rs:50-75 | a binding is issued exactly for a parsable agent DID and a non-empty single-line name within the limit |
| Binding.VerifyIssue | crates/shadi_identity/src/binding.rs:50-177 | an issued certificate verifies to its own fields up to and including its expiry, and as lapsed after |
| Binding.VerifyIsAuthentic | crates/shadi_identity/src/binding.rs:98-177 | whatever verifies is unexpired and signed by the human it names over exactly its fields |
| Binding.FindCertificateEnd | crates/shadi_identity/src/binding.rs:188-200 | the loop moving end, never out of bounds, finds where that many lines end, or reports truncation or size |
| Binding.SplitBindingLoop | crates/shadi_identity/src/binding.rs:184-205 | the method splits as the specification of the format does |
| Binding.CertificateEndExact | crates/shadi_identity/src/binding.rs:184-205 | a position ends the certificate exactly when it is a newline within the cap behind that many newlines |
| Binding.SplitBindingExact | crates/shadi_identity/src/binding.rs:184-205 | splitting gives certificate and payload exactly when the bytes are them joined by a newline and the certificate has its five newlines within the cap |
| Binding.SplitIssued | crates/shadi_identity/src/binding.rs:50-205 | an issued certificate in front of any payload at all is split off again |
| Grant.IssueIff | crates/shadi_identity/src/grant.rs:116-146 | a grant is issued exactly for two well-formed names and an available nonce |
| Grant.VerifyIssue | crates/shadi_identity/src/grant.rs:116-221 | an issued grant verifies to its own fields until it lapses exactly when they fit the size cap, and is refused as too big otherwise |
| Grant.DocumentSize | crates/shadi_identity/src/grant.rs:116-146 | how many bytes an issued grant takes, from its fields alone, escapes included |
| Grant.LongGrantNeverVerifies | crates/shadi_identity/src/grant.rs:116-165 | a grant for a long channel name is issued and refused by every verifier at every time |
| Grant.VerifyIsAuthentic | crates/shadi_identity/src/grant.rs:153-221 | whatever verifies is unexpired, names well-formed channels and members, and is signed by the owner over exactly its fields |
| ChannelRequest.SignCreate | crates/shadi_identity/src/channel_request.rs:40-94 | the serialized document parses back to exactly the fields asked for, signed over what it says, and is refused exactly for a bad field or no nonce |
| ChannelRequest.DeletionReadsBack | crates/shadi_identity/src/channel_request.rs:97-117 | a serialized deletion parses back to its fields with a signature that verifies over them |
| SignedStatements.OtherPartsHaveNoNul | crates/shadi_identity/src/grant.rs:248-277 | of each statement's parts only one, always the same, can hold a NUL |
| SignedStatements.PartsInjective | crates/shadi_identity/src/grant.rs:204-254 | within one kind equal parts mean equal fields |
| SignedStatements.CreatePartsInjective | crates/shadi_identity/src/channel_request.rs:45-78 | also with the optional fields of a creation, present or absent |
| SignedStatements.SignedBytesInjective | crates/shadi_identity/src/channel_request.rs:97-134 | equal signed bytes mean the same statement, across proofs, bindings, grants, creations and deletions, a NUL in an agent name included |
| OwnerSpec.DecideIsFirstMatch | crates/agentbridge/src/owner.rs:193-199 | a rule decides exactly when it matches and none before it does; the default exactly when none matches |
| OwnerSpec.Ascending | crates/agentbridge/src/owner.rs:377-384 | lapsed asks are swept in increasing id order, each once |
| Owner.ChannelOwner.Hold | crates/agentbridge/src/owner.rs:273-275 | holding adds one channel and changes nothing else |
| Owner.ChannelOwner.Release | crates/agentbridge/src/owner.rs:277-279 | releasing removes one channel and changes nothing else |
| Owner.ChannelOwner.HoldOnly | crates/agentbridge/src/owner.rs:282-284 | the held channels are replaced and nothing else changes |
| Owner.ChannelOwner.SetPolicy | crates/agentbridge/src/owner.rs:290-292 | the policy is replaced and waiting asks keep their expiry |
| Owner.ChannelOwner.Request | crates/agentbridge/src/owner.rs:303-337 | the whole new state and answer of a request, whether or not signing and the audit write succeed |
| Owner.ChannelOwner.RequestUntil | crates/agentbridge/src/owner.rs:341-356 | an ask expires by the caller's deadline at the latest |
| Owner.ChannelOwner.Approve | crates/agentbridge/src/owner.rs:359-362 | the whole new state and answer of an approval, in time or late |
| Owner.ChannelOwner.Deny | crates/agentbridge/src/owner.rs:364-374 | the whole new state and answer of a denial, in time or late |
| Owner.ChannelOwner.Expire | crates/agentbridge/src/owner.rs:377-398 | the loop removes lapsed asks one by one in id order and stops at the first unrecorded denial |
| Owner.ChannelOwner.TakeLive | crates/agentbridge/src/owner.rs:400-410 | a live ask is removed before it is answered, a lapsed one sweeps all lapsed asks |
| Owner.ChannelOwner.GrantNow | crates/agentbridge/src/owner.rs:412-431 | nothing is recorded unless the grant was signed, and nothing handed out unless it was recorded |
| Owner.ChannelOwner.Record | crates/agentbridge/src/owner.rs:433-470 | an entry is appended exactly when the write succeeds |
| OwnerRuns.RunAccounted | crates/agentbridge/src/owner.rs:303-431 | over every run audited ask ids strictly increase, none is answered twice, and the asked ids are the disjoint union of pending, answered and lost ones |
| OwnerRuns.NothingLostExactly | crates/agentbridge/src/owner.rs:303-431 | over every run the asked ids are the pending and the answered ones exactly when no answer was lost |
| OwnerRuns.AnAnswerIsLost | crates/agentbridge/src/owner.rs:359-431 | a run after which an audited ask is neither waiting nor answered |
| OwnerRuns.SmoothRunsPartition | crates/agentbridge/src/owner.rs:303-431 | when no write and no signature fails, the asked ids are the disjoint union of the pending and the answered ones |
| OwnerRuns.AnswerCloses | crates/agentbridge/src/owner.rs:359-374 | an answer in time closes the ask even when signing or logging then fails |
| OwnerRuns.ClosedForever | crates/agentbridge/src/owner.rs:400-431 | a closed ask never waits again, is never logged again, and every later answer is refused without effect |
| OwnerRuns.ExpireEachIs | crates/agentbridge/src/owner.rs:377-398 | a sweep in closed form: which asks are removed, which denials are logged, what is returned, also when a write fails |
| OwnerRuns.ExpireLeavesNoLapsed | crates/agentbridge/src/owner.rs:377-398 | after a successful sweep no waiting ask has lapsed |
| OwnerGrants.EveryGrantIsJustified | crates/agentbridge/src/owner.rs:193-431 | over every run each recorded grant is an ask on a then-held channel approved strictly before its expiry, or a request on a held channel the rules allowed |
| OwnerGrants.GrantedVerifies | crates/agentbridge/src/owner.rs:412-431 | the grant handed out verifies under the owner's DID for exactly the request decided, if and only if it fits the verifier's cap and its lifetime has not passed |
| OwnerIntake.ParseRequestLines | crates/agentbridge/src/owner_intake.rs:73-91 | the advancing line iterator reads exactly the request grammar |
| OwnerIntake.ParseRender | crates/agentbridge/src/owner_intake.rs:31-91 | a rendered request parses back to its fields exactly when they fit their lines and the DID is a key |
| OwnerIntake.ReturnNamesAnotherChannel | crates/agentbridge/src/owner_intake.rs:31-91 | a channel ending in a carriage return is read back as the channel without it |
| OwnerIntake.SplitBodyExact | crates/agentbridge/src/owner_intake.rs:55-62 | the task header comes off whole, for every body, exactly when the separator cannot be found too early |
| OwnerIntake.HeaderEndingInBodyIsNotClear | crates/agentbridge/src/owner_intake.rs:55-62 | a header without the separator that still hides the body |
| OwnerIntake.AdmitSigned | crates/agentbridge/src/owner_intake.rs:31-91 | a request rendered, put behind a clear header or none and a binding or none, and signed, is admitted as exactly its fields if and only if they fit and the binding has not expired or, without one, the header does not look like one |
| OwnerIntake.HeaderExact | crates/agentbridge/src/owner_intake.rs:37-71 | every request that fits arrives as sent behind a header if and only if the separator cannot be found in it and it does not pass for a binding |
| OwnerIntake.UnclearHeaderNamesChannel | crates/agentbridge/src/owner_intake.rs:55-91 | behind a header the separator is found in, what is read names the header's channel whatever the sender asks for |
| OwnerIntake.BindingHeaderIsRefused | crates/agentbridge/src/owner_intake.rs:43-46 | a header that passes for a binding gets every request behind it refused |
| OwnerIntake.AdmittedIsAuthentic | crates/agentbridge/src/owner_intake.rs:37-71 | whatever is admitted was signed by its requester, and its human signed a live binding for that requester |
| Instances.AssumptionsCanBeMet | crates/shadi_identity/src/did_proof.rs:37-95 | one suite with real base64, one identity, one JSON and one record codec keep every law assumed of any of them |
| Instances.VisibleRequestIsAdmitted | crates/agentbridge/src/owner_intake.rs:31-91 | with these, any two visible names signed as a request are admitted as written |
| ConcreteEncodings.Base64UrlIsLawful | crates/shadi_identity/src/did_proof.rs:37-58 | unpadded base64url decodes what it encoded, in its alphabet, and takes 86 characters for a signature |
| ConcreteEncodings.Decode64Of | crates/shadi_identity/src/grant.rs:116-146 | padded base64 decodes what it encoded |
| ConcreteEncodings.JsonIsLawful | crates/shadi_identity/src/grant.rs:116-146 | a writer of escaped JSON objects is read back uniquely and grows by each entry's size |
| ConcreteEncodings.RecordsAreLawful | crates/shadi_credential/src/vault.rs:99-123 | a writer of credential records is read back uniquely |
| OwnerService.OwnerExecutor.HandleSigned | crates/agentbridge/src/owner_intake.rs:112-150 | one signed request decided on the shared owner: new state, task state, reply and invite |
| OwnerService.InviteIffAllowed | crates/agentbridge/src/owner_intake.rs:112-150 | an invite goes out exactly when an authenticated request on a held channel is allowed and its grant is signed and logged |
| UpdateRule.Tokenize | crates/shadi_mas/src/update_rule.rs:235-276 | the index loop with its inner scans produces exactly the lexemes of the source, or the first error |
| UpdateRule.SkipNumber | crates/shadi_mas/src/update_rule.rs:244-262 | the cursor stops exactly where the number ends, exponent and sign included |
| UpdateRule.Parser.Expr | crates/shadi_mas/src/update_rule.rs:300-312 | the cursor parser reads what the grammar reads, from the cursor to its new place, and never passes the end |
| UpdateRule.Parser.Term | crates/shadi_mas/src/update_rule.rs:314-326 | the same for products |
| UpdateRule.Parser.Factor | crates/shadi_mas/src/update_rule.rs:328-365 | the same for factors, with signs, parentheses, numbers, names and calls |
| UpdateRule.Parser.CallOf | crates/shadi_mas/src/update_rule.rs:367-383 | the same for calls and their argument lists |
| UpdateRulePrint.ParsedIsInScope | crates/shadi_mas/src/update_rule.rs:343-382 | a rule that parses reads only names of its class and calls only known functions, each with an argument |
| UpdateRulePrint.ParsePrinted | crates/shadi_mas/src/update_rule.rs:286-382 | printing with only the parentheses precedence asks for and parsing gives back the same tree, left association included |
| UpdateRulePrint.ReprintIsStable | crates/shadi_mas/src/update_rule.rs:65-79 | printing what parsed and parsing it again changes nothing |
| UpdateRulePrint.ScanText | crates/shadi_mas/src/update_rule.rs:235-276 | tokens written out with blanks are read back as themselves |
| UpdateRulePrint.ParseRulePrinted | crates/shadi_mas/src/update_rule.rs:65-79 | the round trip from tree to source text and back |
| UpdateRuleEval.EvalExact | crates/shadi_mas/src/update_rule.rs:195-225 | on quantities covering its names a tree evaluates exactly when its abs and clamp calls have the right number of arguments, and fails in no other way |
| UpdateRuleEval.ParsedRuleEvaluates | crates/shadi_mas/src/update_rule.rs:65-93 | a parsed rule can fail only on that count or on a value that is not finite |
| RuleProbe.NeverZero | crates/shadi_mas/src/update_rule.rs:159-172 | the 64-bit state is never zero over any number of draws |
| RuleProbe.Probe.Uniform | crates/shadi_mas/src/update_rule.rs:173-178 | a uniform draw lies in the half-open interval and is the scaled top 53 bits |
| RuleProbe.Probe.Whole | crates/shadi_mas/src/update_rule.rs:179-183 | a whole draw lies in the closed interval |
| RuleProbe.Verify | crates/shadi_mas/src/update_rule.rs:135-156 | the answer is a match exactly when no probe offends, and otherwise the largest offending gap, which some probe attains |
| JournalMac.Feed | crates/shadi_sandbox/src/lib.rs:1121-1135 | the running MAC is fed each field behind its length |
| JournalMac.StreamInjective | crates/shadi_sandbox/src/lib.rs:1115-1135 | equal streams come from equal lists of fields, of any number |
| JournalMac.GrantTagCoversEntry | crates/shadi_sandbox/src/lib.rs:1137-1150 | a grant entry's tag covers all its fields and never a legacy entry's |
| AclJournal.WithoutKeepsOrder | crates/shadi_sandbox/src/platform/windows.rs:711-797 | of every entry: it goes exactly when its SID is revoked, and otherwise stands between what stays of the entries before and after it |
| AclJournal.Machine.RevokeSidAccess | crates/shadi_sandbox/src/platform/windows.rs:711-720 | a revoke changes one path's list, or nothing when it fails |
| AclJournal.Machine.Persist | crates/shadi_sandbox/src/lib.rs:1203-1231 | the entry is stored with a tag over its fields, once per rollback; a write that fails leaves nothing or a file that holds no entry, and the grant is refused |
| AclJournal.Machine.GrantPathAccess | crates/shadi_sandbox/src/platform/windows.rs:694-707 | the list changes only once the entry to undo it is written, and a failed edit leaves that entry |
| AclJournal.Machine.RecoverRollbacks | crates/shadi_sandbox/src/lib.rs:1309-1372 | nothing is done without a directory, its key or its listing |
| AclJournal.Machine.RecoverListed | crates/shadi_sandbox/src/lib.rs:1321-1372 | the loop over the listing revokes and deletes for stale trusted entries only, passes over files that hold no entry, and ends at one it cannot read |
| AclJournal.PassCompletesExactly | crates/shadi_sandbox/src/lib.rs:1329 | a pass completes exactly when every listed file is there and can be read |
| AclJournal.EndedPassIsPrefix | crates/shadi_sandbox/src/lib.rs:1329 | a pass that ended early did what a pass over the files before that one does |
| AclJournal.WindowsChild.Cleanup | crates/shadi_sandbox/src/lib.rs:969-995 | the rollbacks are drained once, in order; later calls do nothing |
| AclJournal.WindowsChild.RestoreOneOn | crates/shadi_sandbox/src/lib.rs:1374-1389 | a journal file is removed only after its revoke worked |
| AclJournal.RecoverIs | crates/shadi_sandbox/src/lib.rs:1309-1372 | a pass, whatever fails in it, in closed form: where it ends, which SIDs each path loses with all else in place, and exactly which files go |
| AclJournal.RestoreIs | crates/shadi_sandbox/src/lib.rs:1374-1389 | a clean exit, whatever fails in it, takes the sandbox's entries off exactly the paths for which a revoke worked and leaves all else in place |
| AclJournal.RestoreRemovesOwn | crates/shadi_sandbox/src/lib.rs:1374-1389 | whatever fails, a clean exit removes only the journal files of what it rolled back and changes no other |
| AclProtocol.StepKeeps | crates/shadi_sandbox/src/lib.rs:834-847 | every step of spawn, journaling, torn write, exit, crash, recovery, outside edit or a path coming or going keeps the lists undoable and the books in order |
| AclProtocol.EveryReachableListIsUndoable | crates/shadi_sandbox/src/lib.rs:1203-1389 | in every reachable state a path's list is its original entries in order plus sandbox entries that still have a journal file |
| AclProtocol.RecoverySparesTheLiving | crates/shadi_sandbox/src/lib.rs:1309-1372 | recovery never revokes for a sandbox whose process lives, even when its process id was reused |
| AclProtocol.LiveJournalIsKept | crates/shadi_sandbox/src/lib.rs:1309-1372 | no step removes the journal file of a sandbox still granting whose process lives |
| AclProtocol.RecoveryRestoresExactly | crates/shadi_sandbox/src/lib.rs:1309-1389 | after any run one pass, whatever fails in it, gives every path its original list back if and only if every sandbox entry still there is named by an entry the pass comes to and revokes |
| AclProtocol.FullPassRestoresExactly | crates/shadi_sandbox/src/lib.rs:1309-1389 | when nothing fails, if and only if the owner ids of the entries still there are free |
| AclProtocol.GoneFileHidesTheRest | crates/shadi_sandbox/src/lib.rs:1329 | a run after which the ids are free and a pass that first meets a file that is gone restores nothing |
| AclProtocol.ReusedIdKeepsEntry | crates/shadi_sandbox/src/lib.rs:1332-1336 | a run in which a process id is reused and no pass takes the dead sandbox's entry away |
| AclProtocol.TaggedRecoveryRestoresExactly | crates/shadi_sandbox/src/lib.rs:1137-1372 | the same with the tagged journal as it is |
| AclProtocol.RecoverIsARun | crates/shadi_sandbox/src/lib.rs:1309-1372 | the recovery loop, whatever fails in it, is a sequence of the protocol's steps |
| AclProtocol.RestoreIsARun | crates/shadi_sandbox/src/lib.rs:1374-1389 | so is draining every rollback at a clean exit, whatever fails |
| AclProtocol.GrantIsARun | crates/shadi_sandbox/src/platform/windows.rs:694-707 | so is granting a path, the journal first, whatever fails |
| AclProtocol.OverwritingIff | crates/shadi_sandbox/src/lib.rs:1010-1016 | writing under a journal name in use keeps every entry undoable exactly when what it overwrites is not missed |
| AclProtocol.SameNanosecondLosesAnEntry | crates/shadi_sandbox/src/lib.rs:1010-1016 | two grants under one journal name, after which no pass takes the first one's entry away, all processes gone |
| Credential.SortedIsListing | crates/shadi_credential/src/vault.rs:124-140 | sorting every record once gives a newest-first listing of the contents |
| Credential.EnumerationsAgree | crates/shadi_credential/src/store.rs:155-165 | any two enumerations of the same contents hold the same records |
| CredentialVault.KeychainVault.Put | crates/shadi_credential/src/vault.rs:99-106 | one secret per credential, listed once |
| CredentialVault.KeychainVault.Get | crates/shadi_credential/src/vault.rs:107-123 | a missing item is no record, an unreadable one an error |
| CredentialVault.KeychainVault.List | crates/shadi_credential/src/vault.rs:124-140 | the loop gathers what the listed keys still lead to and sorts it |
| CredentialVault.KeychainVault.Delete | crates/shadi_credential/src/vault.rs:142-149 | whether there was something to delete, and the store without it |
| CredentialVault.SqlVault.Select | crates/shadi_credential/src/store.rs:155-200 | collecting selected rows in any scan order and ordering them lists exactly those rows, newest first |
| CredentialVault.SqlVault.FindValid | crates/shadi_credential/src/store.rs:174-200 | the query lists exactly the applicable rows |
| KeyRegistry.SavedExact | crates/agent_secrets/src/platform/macos.rs:114-147 | keys are read back as they were written exactly when each is one untrimmed line and none repeats |
| CredentialVault.IdSurvives | crates/agent_secrets/src/platform/macos.rs:114-147 | an id can be listed exactly when it holds no newline and ends in no white space |
| CredentialVault.PutHolds | crates/shadi_credential/src/vault.rs:99-106 | a put keeps the store equal to the map, unrelated keys and stale listings included, exactly when the record's id can be listed |
| CredentialVault.UnlistedPut | crates/shadi_credential/src/vault.rs:99-140 | otherwise the record is there for get and missing from list |
| CredentialVault.StoreFollowsExactly | crates/shadi_credential/src/vault.rs:99-149 | all along a sequence of puts and deletes the store equals the map exactly when every id put can be listed |
| CredentialVault.DeleteHolds | crates/shadi_credential/src/vault.rs:142-149 | so does a delete, which reports whether the id was there |
| CredentialVault.ListHolds | crates/shadi_credential/src/vault.rs:124-140 | listing the store lists the map |
| CredentialVault.VaultsAnswerAlike | crates/shadi_credential/src/vault.rs:98-169 | from equal contents and after any puts of ids that can be listed, and any deletes, both vaults answer get, list and find_valid alike |
| SdJwt.TakeApartRendered | crates/shadi_credential/src/sd_jwt.rs:62-103 | every credential in compact form is taken apart into its own segments |
| SdJwt.TakenApartIsWhole | crates/shadi_credential/src/sd_jwt.rs:62-103 | what was taken apart is, trimmed, exactly its pieces put together again |
| SdJwt.PresentedOrCutOff | crates/shadi_credential/src/sd_jwt.rs:81-95 | with text behind the last tilde it is refused, as a presentation when that has three segments and as cut off otherwise |
| SdJwt.Import | crates/shadi_credential/src/sd_jwt.rs:222-242 | a text that parses is stored trimmed under its id with the columns lifted from it, another changes nothing |
| SdJwt.EveryRowMatches | crates/shadi_credential/src/sd_jwt.rs:222-242 | after any imports and deletes every row's columns are what reading its stored text again gives |
| SdJwt.SecondsAfter | crates/shadi_credential/src/sd_jwt.rs:119-131 | the floored and saturated expiry lies after a second exactly when the exact one is at least a second later |
| SdJwt.ColumnsFindWhatTextSays | crates/shadi_credential/src/store.rs:174-200 | the columns select exactly the credentials whose own text, read again in full, says they apply |
| SdJwt.FoundHasNotExpired | crates/shadi_credential/src/sd_jwt.rs:119-131 | no credential is found at or after its exact, possibly fractional expiry |
| TrustAnchor.PublishedKeysAnchor.KeysFor | crates/shadi_identity/src/trust_anchor.rs:74-92 | a fresh entry answers without a fetch, anything else is fetched and cached |
| TrustAnchor.PublishedKeysAnchor.VouchesFor | crates/shadi_identity/src/trust_anchor.rs:100-105 | an unlisted principal costs no request; the verdict, the fetch and the new cache otherwise |
| TrustAnchor.StepKeeps | crates/shadi_identity/src/trust_anchor.rs:74-92 | each step of any thread keeps the cache invariant |
| TrustAnchor.EveryRunKeeps | crates/shadi_identity/src/trust_anchor.rs:56-105 | however calls interleave only allowed principals are fetched and cached, an entry is a completed fetch's result, a cached answer is younger than its window |
| TrustAnchor.NoAnswerWithoutListing | crates/shadi_identity/src/trust_anchor.rs:18-24 | a yes or no about an allowed principal rests on a listing fetched for it, and an outage is its error and never a no |
| TrustAnchor.CallIsARun | crates/shadi_identity/src/trust_anchor.rs:74-105 | an undisturbed call is a run of the protocol with the same verdict and cache |
| TrustAnchor.FetchesAreSpaced | crates/shadi_identity/src/trust_anchor.rs:47-50 | one call at a time, two fetches for a principal are at least the earlier one's window apart |
| TrustAnchor.UndisturbedFetchesAreSpaced | crates/shadi_identity/src/trust_anchor.rs:47-92 | so they are over every interleaving in which no look-up for a principal falls between another call's miss and insertion |
| TrustAnchor.DisturbedFetchesCrowd | crates/shadi_identity/src/trust_anchor.rs:74-92 | a look-up that misses while another call for the principal waits for its reply can be followed at once by two fetches less than a window apart |
| TrustAnchor.HeldReplyCrowds | crates/shadi_identity/src/trust_anchor.rs:74-92 | and so can one that misses while the window of an earlier fetch is not over |
| TrustAnchor.TwoThreadsFetchTwice | crates/shadi_identity/src/trust_anchor.rs:74-92 | two threads that both miss fetch twice within one window |
| NetPorts.SplitExact | crates/shadi_sandbox/src/policy.rs:286-305 | an entry gives a host and a port exactly when it is one of the two shapes with a non-empty host and a number from 1 to 65535, a plus and zeros included |
| NetPorts.PortSpellings | crates/shadi_sandbox/src/policy.rs:286-305 | a port may stand behind any zeros and a plus |
| NetPorts.SplitHost | crates/shadi_sandbox/src/policy.rs:286-305 | a host with a port splits into them |
| NetPorts.SplitBracketed | crates/shadi_sandbox/src/policy.rs:286-305 | so does a bracketed address with any colons |
| NetPorts.NamesNoPort | crates/shadi_sandbox/src/policy.rs:286-305 | without brackets an entry names no port exactly when it does not hold exactly one colon |
| NetPorts.OpenPorts | crates/shadi_sandbox/src/policy.rs:253-282 | the loop updating rows in place computes the merged table or the first error |
| NetPorts.SandboxPolicy.KernelNetPorts | crates/shadi_sandbox/src/policy.rs:253-282 | the policy's own allow-list, with or without a proxy |
| NetPorts.SandboxPolicy.WithNetworkDestinations | crates/shadi_sandbox/src/policy.rs:177-186 | the allow-list becomes the first occurrences of the destinations |
| NetPorts.SandboxPolicy.AllowNetworkDestination | crates/shadi_sandbox/src/policy.rs:169-175 | a destination is added once |
| NetPorts.TableIsMeaning | crates/shadi_sandbox/src/policy.rs:245-282 | the table exists exactly when every entry is well formed and, without a proxy, names a port; its rows are distinct ports in first-use order saying exactly what the entries say |
| NetPorts.OrderDoesNotMatter | crates/shadi_sandbox/src/policy.rs:245-282 | the same entries in any order give the same rows |
| Locator.NodeSpellings | crates/shadi_a2a/src/locator.rs:259-273 | a SLIM node is the same under any connection scheme and with any path |
| Locator.EverySpellingIsTheNode | crates/shadi_a2a/src/locator.rs:259-273 | a host word under any scheme, with or without any path, is that node |
| Locator.EverySpellingIsTheUrl | crates/shadi_a2a/src/locator.rs:287-293 | a URL under a scheme or none and with any number of slashes behind it is one of two, the plain or the secure one |
| Locator.NewTwice | crates/shadi_a2a/src/locator.rs:143-151 | a locator built from its own URL is itself exactly when it is a SLIM node or its URL names a host |
| Locator.DisplayParseExact | crates/shadi_a2a/src/locator.rs:165-222 | parsing the displayed form gives the locator back for every SLIM node, and otherwise exactly for a plain host |
| Locator.HttpsDisplayIsNoUri | crates/shadi_a2a/src/locator.rs:204-221 | the displayed form of an HTTPS locator is no locator URI |
| FirstOccurrences.FirstsAreAtPositions | crates/agentbridge/src/member_source.rs:196-206 | merging keeps, in order, exactly the items whose key nothing before them has |
| FirstOccurrences.FirstsHoldEachKey | crates/agentbridge/src/member_source.rs:196-206 | each key is kept once, so there are as many items as different keys |
| MemberSource.Merge | crates/agentbridge/src/member_source.rs:200-209 | the loop with its seen set and truncation gives the first occurrences, limited |
| MemberSource.RunningAgentSource.Resolve | crates/agentbridge/src/member_source.rs:196-210 | running agents merged by identity before the limit is applied |
| MemberSource.ResolvedAgents | crates/agentbridge/src/member_source.rs:196-210 | resolving gives the smaller of the limit and the number of different agents, all different, each its first announcement |
| MemberSource.FindRunningPeerAt | crates/agentbridge/src/member_source.rs:431-475 | the peer a query names among the resolved agents |
| MemberSource.PickExact | crates/agentbridge/src/member_source.rs:444-475 | a peer is found exactly when one matches or one of several is at the locator, none exactly when none matches, and the error counts the matches |
| MemberSource.RespelledExactly | crates/agentbridge/src/member_source.rs:82-97 | announcements that write a node under any scheme with any path, and a URL under any scheme with any slashes, are one agent exactly when node and URL are the same and the URLs both plain or both secure, and then are found at the same locators |

## Left out

- Cryptography and encodings (Ed25519, base58, base64, JSON, HMAC, SQLCipher) are function values
  with stated laws; key formats of SSH and OpenPGP are not part of this model.
- Message texts of errors and replies; the model keeps which error it is.
- Lock poisoning, transport, subprocess and runtime calls: what they return is a parameter.
- `now + seconds` overflowing 64 bits in the owner: times are unbounded naturals.
- An audit write that leaves part of a line in the file: a write succeeds or does not happen.
- Parsing and validating policy files (`OwnerPolicy::from_json`): policies are given.
- Extracting a rule line from a reply (`update_line`, `strip_assignment`), and rounding of floats:
  evaluation is over any number type, probing over reals.
- RuleProbe.NeverZero: says nothing about the period or distribution of the generator.
- AclJournal.Machine.RecoverListed: entries of the legacy format, whose restore overwrites the whole list;
  that format appears only in what the tags cover.
- AclProtocol.RecoveryRestoresExactly: a pass that no other step interrupts; interleaved passes are steps
  of the protocol, and what they keep is its invariant.
- Access-list edits by two processes at once: Windows reads and writes a list in two calls, and the
  model takes each edit as one step.
- Drop order, handles and app-container profiles of a sandboxed child.
- A secret store that fails (a locked keychain), the order in which its registry is kept, and stores
  other than the macOS one.
- SdJwt.Import: into the SQL vault, whose writes succeed here; a fresh id is a parameter.
- A JSON number is the integer or float the parser holds; reading its decimal text is not modelled.
- Building the key-listing URL from a template, and anchors with declared keys.
- TrustAnchor.EveryRunKeeps: an entry's age counts from its insertion; how long a thread waits between
  its fetch and its insertion is not bounded.
- Whether a text is a loopback IP address is a parameter of NetPorts.
- Reading workloads printed by the runtime into candidates, and Agent Directory lookups.
- Locator.DisplayParseExact: for URLs without white space and without a binding hint.

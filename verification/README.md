# A verified model of the receipt engine

This project models the proof layer of the receipt engine and proves what it is for: that canonical text identifies
a value, that a hash-chained ledger commits to its history, that what the engine signs and appends is what its
verifiers accept, that a nonce is spent once, and that a coherence assessment closes exactly when its evidence does.

Strings are sequences of UTF-16 code units; JSON values keep `undefined` as an extra atom, because the verifiers build
bodies from fields that may be missing. SHA-256, Ed25519, `JSON.parse` and `Date.parse` are fields of one `Platform`
value, any functions of their types. Three hypotheses about them are used where needed and named in the contracts:
`ParsesValues`, `ReadsBack` (what `JSON.stringify` writes is read back) and `SignsSoundly` (a signature verifies under
its own key). `Platform.PlatformExists` shows that they can hold together. No hash is assumed injective: every theorem
that rests on one ends with "or these two payloads of the ledgers at hand collide".
Theorems about whole files rest on `ParsesValues`, theorems about what the engine writes on `ReadsBack`, and theorems
about what it signs on `SignsSoundly`.

| file | models |
|---|---|
| `Unicode.dfy` | the surrogate scan, UTF-8, and the key orders |
| `Values.dfy`, `JsonText.dfy`, `ShortestText.dfy` | JSON values, `JSON.stringify` with its escapes, a decoder for its text, and why that text and no other is written |
| `Canonical.dfy`, `StrictCanonical.dfy` | both canonicalizers, as one function over a key order, and the strict one with its errors |
| `Platform.dfy` | what is foreign |
| `Receipts.dfy`, `Gate.dfy` | bodies, signing, storage, the gate and receipt construction |
| `Ledger.dfy`, `Chain.dfy`, `Reports.dfy` | the JSONL ledger file, the chain verifier's loop, and what its error list says of the file |
| `HashChain.dfy`, `Tamper.dfy`, `LedgerFiles.dfy` | hash chains in the abstract, and what they say of ledgers and of ledger files |
| `Runs.dfy`, `Construction.dfy`, `Nonces.dfy`, `SingleReceipt.dfy`, `Protocol.dfy` | runs of appends, the gate's receipts end to end, nonce stores, the single-receipt verifier, the whole protocol step |
| `Seal.dfy` | the self-excluding record hash |
| `Coherence.dfy`, `Readings.dfy`, `Weakening.dfy`, `ReasonLists.dfy`, `Records.dfy`, `RecordJson.dfy`, `Derivation.dfy`, `Recording.dfy`, `AssessmentLaws.dfy`, `ReceiptLaws.dfy` | evidence and rules, where they are read in the receipts, what withdrawing evidence does to the verdict, the two reason lists, the record and its JSON form, its derivation, and what holds of every derived record |

`dafny verify dfyconfig.toml` checks all of it.

## Where the code does less than its documentation says

- **Storage.** A receipt is hashed before `JSON.stringify` drops `undefined` members. Its stored form recomputes
  exactly when the body has no `undefined` below its top level and the unit id, if written at all, is truthy
  (`Receipts.StoredPayloadRecomputes`). For the gate this means a complete approval and a given link
  (`Gate.ConstructedSurvives`); for the draft receipts also a truthy unit id, else the receipt just appended fails
  chain verification (`Protocol.UntruthyUnitFails`).
- **Single-receipt verification** leaves the unit id out of the body, so a receipt with a signed unit id is never
  confirmed, short of a collision (`SingleReceipt.HashConfirmedExactly`). It asks that the four checks are there, not
  what they say: the receipt of a blocked execution passes like any other (`SingleReceipt.ConstructedPassesExactly`).
- **Replay.** A nonce that is an object or array is compared by identity and never recognised again
  (`Nonces.ReplayRefusedExactly`, `SingleReceipt.StructuredNonceNeverSpent`). An `undefined` nonce would not be either,
  and would be stored as null, but neither caller passes one.
- **Framing.** An entry is appended as a row of its own exactly if nothing but white space follows the file's last line
  feed; otherwise it is glued to the last row (`Ledger.RowsOfAppend`, `Ledger.ReadAfterAppend`).
- **Links** are compared on the wrappers, hashes on the inner receipts. Order and deletion are bound only where wrapper
  and receipt agree, which appending establishes (`Runs.StoredEntryBound`) and the verifier does not check
  (`Tamper.LinksBindWrappersOnly`). Deleting entries from the end leaves a prefix, which verifies
  (`Tamper.OnlyPrefixesSurvive`).
- **Prefixes.** The text of a number can be a proper prefix of another number's (`JsonText.NumbersRunOn`); no other
  canonical texts can (`Canonical.CanonicalPrefixFree`).
- **Key order.** The two canonicalizers differ exactly on values in which two keys of one object first differ where a
  surrogate meets a unit from U+E000 up (`StrictCanonical.StrictAgreesWithLegacyExactly`).
- **Undefined elements.** An array that is exactly `[undefined]` has the legacy text of an empty one; nothing else is
  lost (`Canonical.CanonicalTextIdentifiesValue`, `Canonical.OnlyLoneUndefinedVanishes`). The gate therefore allows
  an execution that differs from the approved intent in such an array (`Gate.GateMissesLoneUndefined`). Parsed JSON
  holds no such array, so ledgers are not affected.
- **Line numbers** in a chain report count from the file's first non-blank line (`Reports.ErrorsExactly`).
- **Weaker evidence** can raise a verdict, by taking away a contradiction or silencing a rule. A change raises it
  exactly if it ends every contradiction or closes what was open (`Weakening.RaisesExactly`). Withdrawing a whole
  receipt takes what is read from it along: for the admission receipt that raises the verdict exactly if there is a
  contradiction and none in the cryptographic evidence (`Weakening.AdmissionReceiptWithdrawn`), for the consequence
  receipt under further conditions (`Weakening.ConsequenceReceiptWithdrawn`). For every other input and every field of
  the evidence `Weakening` says exactly when withdrawing it raises the verdict: never for the evaluator, an open nonce
  state, the consequence hash, the declared and previous hashes, the execution status, the authorized action, the
  profile and the residue; and under the stated conditions for the cryptographic evidence, the admission hash, the
  nonces, the two times, the permitted nodes and contexts, the executor's own, the actual action, the observed
  consequence and its evaluation. The evaluator is shown the receipts, so its answer may change with the status, the
  residue, the actions, the times, the permitted and the actual executor: for these it holds as long as the answer
  leaves the consequence open or not as before (`Weakening.AnswerMayDiffer`).
- **Assessment records.** INVALID records keep both conformance fields INDETERMINATE, which the schema allows only to
  UNRESOLVED ones (`AssessmentLaws.SchemaClauses`); CONTRACT mode can leave nulls the schema forbids
  (`AssessmentLaws.ContractClauseExactly`); and after the last safe chain position no assessment is derived at all
  (`Recording.LastPositionNeverDerived`).

## Model

| member | source | states |
|---|---|---|
| Unicode.AssertValidUnicodeScalarString | verifier/coherence-assessment.js:68-87 | the scan accepts exactly the UTF-16 encodings of scalar value sequences, and otherwise names the first surrogate that has no partner |
| Unicode.WellFormedIffEncoding | verifier/coherence-assessment.js:68-87 | a text is well formed if and only if some sequence of scalar values encodes to it (section 2.1 of RFC 2781) |
| Unicode.Utf8BeforeIsCodePointOrder | verifier/coherence-assessment.js:89-91 | comparing the UTF-8 bytes of well-formed keys is code point order, and it is a strict total order: asymmetric, total and transitive (section 3 of RFC 3629) |
| Unicode.UnitOrderExactly | verify-chain.js:55 | the legacy code unit order agrees with code point order on two keys exactly unless, where they first differ, a surrogate meets a unit from U+E000 up |
| JsonText.RoundTrip | verifier/coherence-assessment.js:99-146 | a decoder reads any value back from its text, an array of one undefined element as empty, and stops where the text stops, whatever follows, and for a number whatever does not continue its digits |
| JsonText.PrintUniquelyDecodable | verifier/coherence-assessment.js:99-146 | two continued texts are equal if and only if values (arrays of one undefined element emptied) and continuations are, where no continuation runs on a number's digits |
| JsonText.PrefixFree | verifier/coherence-assessment.js:99-146 | no value's text is a proper prefix of another's, but for two numbers |
| JsonText.NumbersRunOn | verifier/coherence-assessment.js:113-121 | the exception: one more digit makes the text of one number that of another |
| JsonText.PrintPrintable | ledger.js:102 | serialized text is well-formed UTF-16 and holds no raw control character, hence no raw newline |
| ShortestText.EscapeShortest | verifier/coherence-assessment.js:104-107 | of all well-formed ways to write one unit of a string the one chosen is the shortest, and no other is as short |
| ShortestText.StringBest | verifier/coherence-assessment.js:104-107 | the same of whole strings, whatever follows them |
| ShortestText.PrintShortest | verifier/coherence-assessment.js:99-146 | and of whole values: a well-formed text that reads as a value is longer than the printed one, or it is the printed one |
| Canonical.SortedUnique | verifier/coherence-assessment.js:134 | a strictly sorted member list is determined by its set of members |
| Canonical.CanonIsPrintOfNorm | verify-chain.js:46-66 | recursive canonicalization with sorted keys writes the plain text of the value with all members sorted |
| Canonical.SameNorm | verifier/coherence-assessment.js:134-145 | permuting the members of any object at any depth changes nothing, for both key orders |
| Canonical.CanonicalTextIdentifiesValue | verifier/coherence-assessment.js:99-146 | for both canonicalizers and all values, texts agree if and only if the values are equal up to member order at every depth once every array that is exactly [undefined] is emptied |
| Canonical.OnlyLoneUndefinedVanishes | verify-chain.js:51-53 | emptying the arrays that are exactly [undefined] never changes the text, and changes the value if and only if there is one |
| Canonical.CanonicalTextDecodes | verifier/coherence-assessment.js:99-146 | the decoder recovers the value with sorted members (and arrays of one undefined element emptied) from canonical text, whatever follows a text that is not a number's |
| Canonical.CanonicalTextShortest | verify-chain.js:46-66 | canonical text is the one shortest well-formed text of the value with sorted members, so the bytes that are hashed and signed are fixed |
| Canonical.CanonicalPrefixFree | verifier/coherence-assessment.js:99-146 | no canonical text of an object, array, string or other value but a number is a proper prefix of another's |
| StrictCanonical.StrictExact | verifier/coherence-assessment.js:99-146 | strict canonicalization succeeds exactly on trees of well-formed strings and safe integers, and elsewhere names a fault that is there |
| StrictCanonical.StrictErrorIsFirst | verifier/coherence-assessment.js:99-146 | the error is the first fault met in writing order: members by their sorted keys, a key before its value |
| StrictCanonical.StrictTextIdentifiesValue | verifier/coherence-assessment.js:99-146 | two accepted values have one text if and only if they are the same JSON value |
| StrictCanonical.StrictAgreesWithLegacyExactly | verify-chain.js:46-66 | on strict-domain values both canonicalizers write the same text if and only if no object at any depth has crossed keys: two that first differ where a surrogate meets a unit from U+E000 up |
| StrictCanonical.CrossedKeysDiffer | verify-chain.js:55 | an object with crossed keys, on which the texts differ |
| Receipts.SignedSpec | demo_sourceboard_to_real_receipt.js:170-185 | signing keeps every body field and adds hash, signature, algorithm and key |
| Ledger.LinesSplit | ledger.js:39 | the lines hold no line feed and make up the text again with line feeds between them |
| Ledger.TrimExactly | ledger.js:36 | trimming takes white space from both ends and leaves none there |
| Receipts.StoredPayloadRecomputes | verify-chain.js:145-163 | the payload rebuilt from a stored receipt is the signed one if and only if the body survives storage |
| Ledger.RowsOfTrim | ledger.js:36-44 | trimming the file changes line numbers but no row |
| Ledger.RowsOfAppend | ledger.js:101-103 | appending one ended line adds exactly that row if the last line was blank, and no row at all if it was not |
| Ledger.ReadIsParseOfRows | ledger.js:31-53 | reading depends on the non-blank rows alone and fails exactly when one does not parse |
| Ledger.ReadStopsAt | ledger.js:41-49 | a malformed ledger is reported at its first line that is not blank and does not parse |
| Ledger.ReadAfterAppend | ledger.js:101-103 | after appending an entry the ledger reads as before plus that entry if and only if the last line was blank, and a malformed ledger stays malformed |
| Ledger.LedgerFile.ReadLedger | ledger.js:31-53 | the loop returns the parsed rows in order, or the first malformed one |
| Ledger.LedgerFile.GetLastHash | ledger.js:59-63 | the hash of the last entry read, null for an empty ledger |
| Ledger.TailAfterAppend | ledger.js:59-103 | after an append the last hash is the appended receipt's |
| Ledger.AppendedExactly | ledger.js:75-92 | a receipt is appended if and only if it carries a hash and a signature and its declared link, null without a chain reference, is identical to the hash of the last entry; otherwise which refusal is given |
| Ledger.AppendWrites | ledger.js:94-103 | the line written holds the receipt under its hash, its link and the time |
| Ledger.LedgerFile.AppendReceipt | ledger.js:75-106 | a receipt that links to the tail becomes the last entry; any other leaves the file as it was |
| Chain.WalkExact | verify-chain.js:103-211 | from any line on, no error is found exactly when all rows parse and link up as an accepted chain |
| Chain.ReportExact | verify-chain.js:79-220 | valid if and only if the file is there, every non-blank line parses and the entries form an accepted chain; the count is exact |
| Chain.VerifyChain | verify-chain.js:79-220 | the loop with its running hash and error list computes that report |
| Chain.ErrorsInOrder | verify-chain.js:105-211 | error indices are real line numbers in non-decreasing order, and nothing follows the first malformed line |
| Reports.ErrorsExactly | verify-chain.js:91-211 | a report lists a fault under line n if and only if it is true of the file's own line n plus the number of blank lines the file starts with, and every line before parses: the trim shifts all numbers |
| Reports.ThrowsExactly | verify-chain.js:105-204 | verification throws if and only if some line, every line before it parsing, is null or complete with a hash or key a message cannot cut short |
| Reports.ReportShape | verify-chain.js:79-220 | every report on a present file counts its non-blank lines, errors or not, and says valid exactly if it lists no error; a missing file is one error under line 0 |
| Reports.TrimShifts | verify-chain.js:91 | the lines of the trimmed file are those of the file from its first non-blank line on, and all around them are blank |
| Chain.EditIsLocal | verify-chain.js:135-207 | editing the receipt held on one line changes the errors of that line and of no other, where both verifications end |
| Chain.EditThrowsAlike | verify-chain.js:165-204 | and both end or both throw, unless the message about one of the two receipts throws |
| HashChain.ChainsAgree | verify-chain.js:105-211 | two hash chains with one head agree throughout or exhibit a collision at equal distance from their heads |
| HashChain.DrawnInPlace | verify-chain.js:138 | in a chain drawn from a chain, every link stands where it stood |
| Tamper.PayloadPinsBody | verify-chain.js:145-163 | equal payloads mean equal bodies up to member order and arrays of one undefined element, and with them the declared predecessor |
| Tamper.HeadCommits | verify-chain.js:105-211 | two accepted ledgers with one last hash, whichever keys their verifiers trust, have the same length and the same bodies at every position, or two of their payloads collide |
| Tamper.HashesDistinct | verify-chain.js:103-210 | receipt hashes along an accepted ledger are pairwise distinct and never null, or two of its payloads collide |
| Tamper.OneSuccessorPerTail | ledger.js:83-92 | at most one receipt built against a given tail is in the ledger |
| Runs.StaleLinkRefused | ledger.js:83-92 | a receipt that links to any position of a grown ledger but its end is not appended, or two payloads of the ledger collide |
| Tamper.PrefixAccepted | verify-chain.js:105-211 | every prefix of an accepted ledger is accepted |
| Tamper.OnlyPrefixesSurvive | verify-chain.js:103-143 | of all sequences drawn from an accepted ledger by deletion, repetition and reordering, exactly the prefixes are accepted |
| LedgerFiles.TailCommitsToFile | verify-chain.js:79-220 | two files their verifiers call valid, whichever keys they trust, whose wrappers agree and whose last hashes are equal, hold the same bodies throughout, or two of their payloads collide |
| LedgerFiles.FileHashesDistinct | verify-chain.js:79-220 | in such a file no hash and no link occurs twice, or two of its payloads collide |
| LedgerFiles.OnlyBeginningsSurvive | verify-chain.js:79-220 | a file made of lines of such a file by deletion, repetition and reordering is valid if and only if it reads as its beginning, or two of its payloads collide |
| Tamper.LinksBindWrappersOnly | verify-chain.js:138-210 | receipts sound one by one are accepted in any order under fitting wrappers, so the agreement of wrappers is needed |
| Runs.StoredReceiptSound | verify-chain.js:145-207 | a stored receipt passes hash, signature and trust exactly when its body survives storage, short of a collision |
| Runs.StoredEntryBound | ledger.js:94-99 | appending writes the wrapper in agreement with its receipt |
| Runs.AppendKeepsGrown | ledger.js:75-106 | a genuine receipt that is appended leaves the ledger accepted and one entry longer |
| Runs.RunReads | ledger.js:31-106 | after any number of append attempts the ledger reads as what it held before and exactly the appended entries, in order |
| Runs.LandedCarry | ledger.js:75-81 | everything a run of attempts gets into the ledger carries a hash and a signature |
| Runs.RunTail | ledger.js:59-106 | and its last hash is the one appended last, the old one if nothing was appended |
| Runs.RunVerifies | verify-chain.js:79-220 | after any run of accepted and rejected appends from the empty ledger the verifier says valid with the exact count |
| Runs.AppendVerifiesExactly | ledger.js:75-106 | the ledger verifies after an append if its body survives storage, and only then, short of a collision |
| Gate.GateExact | generate_receipt.js:150-182 | ALLOW if and only if execution and intent are the same JSON value, arrays that are exactly [undefined] counting as empty (or their texts collide), the approval binds the intent, and the action is in scope and allowed |
| Gate.ChecksExactly | generate_receipt.js:150-170 | each of the four checks on its own condition, and when the gate throws |
| Gate.GateExactOnDense | generate_receipt.js:150-182 | where neither holds such an array, an allowed execution is the same JSON value as the intent, short of a collision |
| Gate.GateMissesLoneUndefined | generate_receipt.js:150-182 | and where one does it need not be: on every platform the approved request with parameters [] allows parameters [undefined], without a collision |
| Gate.BuildBodySurvives | generate_receipt.js:190-211 | with the unit id written between the hashes and the validation, the body survives storage exactly if its fields hold no undefined and the unit id is truthy |
| Gate.ConstructedSurvives | generate_receipt.js:186-224 | a constructed receipt survives storage exactly when the approval is complete and the link given |
| Construction.ConstructedSays | generate_receipt.js:186-224 | the signed receipt says, member by member, the decision and checks of the validation, the hashes of intent and execution, the approval's own members, the link, the unit id, and its seal |
| Construction.ReceiptTellsTheGate | generate_receipt.js:150-224 | with the gate's own validation the receipt says ALLOW exactly where intent, approval, scope and action fit, and BLOCK everywhere else, and each check says what it checked |
| Gate.DraftSurvives | demo_sourceboard_to_real_receipt.js:155-167 | a draft receipt survives storage exactly when the unit id is truthy and the link given |
| Construction.ConstructedVerifiesExactly | generate_receipt.js:186-224 | a receipt constructed on the tail is appended, and the chain then verifies with one record more if the approval is complete, and only then, short of a collision |
| Nonces.NonceStore.CheckAndRecordNonce | generate_receipt.js:104-112 | a nonce is admitted exactly if the store does not include it, and is then recorded as persisted |
| Nonces.StoreAfterRun | generate_receipt.js:104-112 | after any run the store includes exactly what it included before and what was tried |
| Nonces.AdmittedExactly | demo_sourceboard_to_real_receipt.js:64-70 | an attempt in a run is admitted exactly when neither the store nor an earlier attempt holds an identical nonce |
| Nonces.ReplayRefusedExactly | demo_sourceboard_to_real_receipt.js:64-70 | the second use of a nonce is refused exactly when the nonce is a scalar other than undefined |
| Nonces.StoreGrowsDuplicateFree | generate_receipt.js:104-112 | the store only grows, and stays free of duplicates exactly if no nonce is tried undefined once a null is in it |
| Nonces.DefinedNoncesDuplicateFree | generate_receipt.js:104-112 | so it stays free of duplicates where, as at both callers, nonces are defined |
| SingleReceipt.VerifyReceipt | verify_receipt.js:72-163 | PASS exactly if the receipt is intact and its nonce fresh; the nonce is noted whatever the other findings |
| SingleReceipt.PassExactly | verify_receipt.js:84-160 | PASS if and only if, in terms of the receipt's own members, hash, signature and key fit its eight fields, decision, checks and policy are there, all four checks are booleans, and the nonce is truthy and new |
| SingleReceipt.ValidationExactly | verify_receipt.js:136-149 | the findings on presence and completeness of the validation, each on its own |
| SingleReceipt.ConstructedComplete | generate_receipt.js:176-201 | the validation of every receipt the gate constructs is present and complete, whether it allowed or blocked |
| SingleReceipt.ConstructedPassesExactly | verify_receipt.js:72-163 | a gate receipt, written out and read back, passes if no unit id was signed, the approval is complete, the link given and the nonce truthy and new, and only then, short of a collision |
| SingleReceipt.NotedAllIsAfter | verify_receipt.js:121-133 | verifying receipts drives the store as trying their truthy nonces does |
| SingleReceipt.NoncePassesOnce | verify_receipt.js:121-160 | once a recognisable nonce was seen, even on a failing receipt, no later receipt with it passes |
| SingleReceipt.StructuredNonceNeverSpent | verify_receipt.js:123-128 | a receipt whose nonce is an object or array passes whatever was verified before, if it is intact |
| SingleReceipt.HashConfirmedExactly | verify_receipt.js:84-97 | the hash of a stored receipt is confirmed exactly when no unit id was signed and the body survives storage, short of a collision |
| Protocol.ReceiptForTail | demo_sourceboard_to_real_receipt.js:187-220 | a receipt built against the tail just read is genuine and never rejected |
| Protocol.DraftSays | demo_sourceboard_to_real_receipt.js:152-185 | a draft receipt says what it was given, under the unit's id and sealed with the unit's key |
| Protocol.StepKeepsWorld | demo_sourceboard_to_real_receipt.js:210-228 | every step keeps the ledger accepted and the nonces distinct and spent, and adds an entry exactly for a new nonce |
| Protocol.ProtocolRunsVerify | demo_sourceboard_to_real_receipt.js:210-228 | from empty files, after any run of steps, the chain verifies with the exact count and no two receipts share a nonce |
| Protocol.UntruthyUnitFails | demo_sourceboard_to_real_receipt.js:160 | with a unit id that is not truthy the receipt just appended fails chain verification, short of a collision |
| Protocol.RunRealReceiptDemo | demo_sourceboard_to_real_receipt.js:210-228 | the step on ledger file and nonce store: when it throws at the ledger, the nonce, the append or the verification, which receipt it drafts and which entry it records, what it leaves behind, and a valid chain report on every recorded receipt |
| Seal.DeepCloneJson | verifier/coherence-assessment.js:154-166 | the clone is the value, so cloning preserves canonical text |
| Seal.ComputeAssessmentRecordHash | verifier/coherence-assessment.js:168-175 | the hash of the canonical text of the record without its own hash, or the error of the first obstacle |
| Seal.UnsealedExactly | verifier/coherence-assessment.js:168-175 | what is hashed has every member of the record, and of its chain every member but the record hash |
| Seal.UnsealedOfSealed | verifier/coherence-assessment.js:168-175 | whatever is written in the hash field, what is hashed stays the same |
| Seal.SealRecomputes | verifier/coherence-assessment.js:618 | a sealed record recomputes to the hash it carries, and would with any other value there |
| Seal.SealBindsRecord | verifier/coherence-assessment.js:168-175 | two records with one hash agree on every other field up to member order, or their canonical texts collide |
| Coherence.PooledReasonsMeet | verifier/coherence-assessment.js:512-516 | pooling the reasons of any number of rules takes the meet of their verdicts |
| Coherence.VerdictIsMeet | verifier/coherence-assessment.js:484-516 | the verdict is the meet of all ten rules judged independently, though two are skipped after an invalidity |
| Coherence.ValidExactly | verifier/coherence-assessment.js:389-516 | VALID if and only if bindings, crypto statuses, nonces, terminal nonce state, time, executor, profile, action and outcome all close |
| Coherence.InvalidExactly | verifier/coherence-assessment.js:403-469 | INVALID if and only if a crypto status is INVALID, a binding or the nonces mismatch, the authorization had expired, or the executor is not permitted |
| Readings.ExtractReads | verifier/coherence-assessment.js:177-222 | each of the twenty facts is the first truthy one of the members listed for it, in the receipt it belongs to |
| Readings.ActionExactly | verifier/coherence-assessment.js:245-253 | the conformance of the action, status by status, in terms of the receipts' members |
| Readings.OutcomeExactly | verifier/coherence-assessment.js:255-318 | the conformance of the consequence, status by status, and the reason where it is left open |
| Readings.ClosesExactly | verifier/coherence-assessment.js:375-516 | the evidence closes if and only if the receipts' own members do |
| Readings.ReasonsExactly | verifier/coherence-assessment.js:390-506 | each reason code is gathered if and only if its own condition holds of the receipts' members |
| Weakening.ReplacedFindingRaises | verifier/coherence-assessment.js:375-516 | replacing one rule's findings raises the meet if and only if they get better and the meet of the other rules lies above them |
| Weakening.RaisesExactly | verifier/coherence-assessment.js:375-516 | any change of inputs and evidence raises the verdict if and only if it ends every contradiction or closes what was open |
| Weakening.AnswerMayDiffer | verifier/coherence-assessment.js:286-318 | if the evaluator, shown changed receipts, answers differently, whether the verdict rises is unaffected as long as the consequence stays as open or closed as before |
| Weakening.AdmissionReceiptWithdrawn | verifier/coherence-assessment.js:375-516 | withdrawing the admission receipt, and with it all evidence read from it, raises the verdict if and only if there is a contradiction and none lies in the cryptographic evidence |
| Weakening.ConsequenceReceiptWithdrawn | verifier/coherence-assessment.js:375-516 | withdrawing the consequence receipt, if and only if, besides, the admission receipt carries no hash and each of its lists of permitted executors permits undefined |
| Weakening.ReceiptWithdrawalCanRaise | verifier/coherence-assessment.js:460-469 | it does so for an admission receipt that permits no executor: INVALID with it, UNRESOLVED without |
| Weakening.CryptoReplaced | verifier/coherence-assessment.js:403-418 | replacing the cryptographic evidence raises the verdict if and only if it takes away the only contradiction or gives the only thing missing |
| Weakening.CryptoWithdrawn | verifier/coherence-assessment.js:403-405 | withdrawing it raises the verdict if and only if it was the only contradiction |
| Weakening.WeakerCryptoNeverRaises | verifier/coherence-assessment.js:406-418 | statuses that are no better, with INVALID the worst, never raise it |
| Weakening.NonceStateReplaced | verifier/coherence-assessment.js:439-446 | replacing the nonce state raises the verdict if and only if the old one was open, the new one is settled and everything else closes |
| Weakening.WeakerNonceStateNeverRaises | verifier/coherence-assessment.js:439-446 | so a missing state, one in recovery and one that is not terminal never raise it |
| Weakening.EvaluatorWithdrawn | verifier/coherence-assessment.js:287-297 | withdrawing the evaluator never raises the verdict |
| Weakening.ConsequenceHashWithdrawn | verifier/coherence-assessment.js:399-401 | nor does withdrawing the consequence hash |
| Weakening.DeclaredHashWithdrawn | verifier/coherence-assessment.js:421-426 | nor the admission hash the consequence declares |
| Weakening.PreviousHashWithdrawn | verifier/coherence-assessment.js:422-429 | nor its link |
| Weakening.StatusWithdrawn | verifier/coherence-assessment.js:245-253 | nor the execution status |
| Weakening.AuthorizedActionWithdrawn | verifier/coherence-assessment.js:245-253 | nor the authorized action |
| Weakening.ProfileWithdrawn | verifier/coherence-assessment.js:471-476 | nor the canonicalization profile |
| Weakening.ProfileVersionWithdrawn | verifier/coherence-assessment.js:471-476 | nor its version |
| Weakening.ResidueWithdrawn | verifier/coherence-assessment.js:526-530 | nor its residue, which routes the record but judges nothing |
| Weakening.AdmissionHashWithdrawn | verifier/coherence-assessment.js:396-430 | withdrawing the admission hash raises the verdict if and only if its mismatch was the only contradiction |
| Weakening.AdmissionNonceWithdrawn | verifier/coherence-assessment.js:433-437 | withdrawing the admission's nonce, if and only if the mismatch of the nonces was |
| Weakening.ConsequenceNonceWithdrawn | verifier/coherence-assessment.js:433-437 | the same of the consequence's nonce |
| Weakening.ExpiryWithdrawn | verifier/coherence-assessment.js:449-457 | withdrawing the expiry raises the verdict if and only if it had passed and that was the only contradiction, or the consequence carries no time and everything else closes |
| Weakening.ConsequenceTimeWithdrawn | verifier/coherence-assessment.js:449-457 | withdrawing the consequence's time, if and only if its lateness was the only contradiction, or there is no expiry and everything else closes |
| Weakening.AllowedNodesWithdrawn | verifier/coherence-assessment.js:460-466 | withdrawing the permitted nodes raises the verdict if and only if the node's absence from them was the only contradiction |
| Weakening.AllowedContextsWithdrawn | verifier/coherence-assessment.js:461-469 | the same of the permitted contexts |
| Weakening.NodeWithdrawn | verifier/coherence-assessment.js:462-466 | withdrawing the executor's node raises the verdict if and only if undefined is on the list and the node's absence was the only contradiction |
| Weakening.ContextWithdrawn | verifier/coherence-assessment.js:463-469 | the same of the execution context |
| Weakening.ActualActionWithdrawn | verifier/coherence-assessment.js:245-253 | withdrawing the actual action raises the verdict if and only if its conformance was open, the status says not executed, and everything else closes |
| Weakening.ConsequenceWithdrawn | verifier/coherence-assessment.js:264-273 | withdrawing an observed consequence raises the verdict if and only if it was open and everything else closes |
| Weakening.EvaluationWithdrawn | verifier/coherence-assessment.js:216-222 | the same of the evaluation asked for |
| ReasonLists.PushUnique | verifier/coherence-assessment.js:353-357 | the list keeps its order and stays free of duplicates, and gains the one code |
| ReasonLists.SortCodesSpec | verifier/coherence-assessment.js:508-510 | sorting gives the same codes in strictly increasing order |
| ReasonLists.ListingUnique | verifier/coherence-assessment.js:508-510 | a set of codes has only one such list, so the record does not depend on the order of the rules |
| ReasonLists.GatherCrypto | verifier/coherence-assessment.js:403-418 | the loop over the three statuses adds exactly the findings of the crypto rule |
| ReasonLists.GatherBase | verifier/coherence-assessment.js:389-476 | the two lists hold exactly the pooled reasons of the eight rules that are always applied |
| Records.SealOfRecord | verifier/coherence-assessment.js:560-618 | writing the hash into the JSON form is setting the record's hash field, and all other fields are hashed |
| RecordJson.JsonOfRecord | verifier/coherence-assessment.js:560-614 | the JSON form holds each field of the record under its own name |
| RecordJson.ConformanceRead | verifier/coherence-assessment.js:541-558 | and so does its conformance part |
| RecordJson.BindingRead | verifier/coherence-assessment.js:590-608 | and its execution binding, with the optional fields left out |
| RecordJson.ChainRead | verifier/coherence-assessment.js:584-590 | and its chain |
| Records.SealableExactly | verifier/coherence-assessment.js:541-618 | a record can be canonicalized exactly when its fields that come from outside can |
| Derivation.GatherLast | verifier/coherence-assessment.js:478-506 | action and outcome rules add their findings only where nothing is invalid, and conformance stays INDETERMINATE otherwise |
| Derivation.Judge | verifier/coherence-assessment.js:512-524 | verdict and evidence status read off the lists are those of the sets of reasons |
| Derivation.Settle | verifier/coherence-assessment.js:375-545 | the accumulation yields the meet of the ten verdicts and the sorted reasons of the rules |
| Derivation.DeriveOrRefuse | verifier/coherence-assessment.js:365-627 | the imperative derivation, sealing included, computes the assessment that the rules define from the evidence read out of the two receipts; `ReceiptLaws` says what that is in terms of their members |
| Recording.ReturnsExactly | verifier/coherence-assessment.js:365-627 | a record is returned exactly when the metadata is complete and what comes from outside can be recorded |
| Recording.ErrorNamesFault | verifier/coherence-assessment.js:365-627 | otherwise the error names what is wrong with the metadata, or a fault that stands in the record |
| Recording.DerivedExactly | verifier/coherence-assessment.js:512-626 | DERIVED if and only if, besides, the evidence closes |
| Recording.RefusedInvalidExactly | verifier/coherence-assessment.js:512-626 | REFUSED_INVALID if and only if, instead, some evidence contradicts the rest |
| Recording.LastPositionNeverDerived | verifier/coherence-assessment.js:586-588 | after the last safe chain position nothing is derived, however good the evidence |
| AssessmentLaws.SealHolds | verifier/coherence-assessment.js:618 | every returned record recomputes to its own record hash, whatever stood in that field |
| AssessmentLaws.SchemaClauses | spec/schemas/mus/coherence-assessment-record.schema.json:348-555 | every record meets the clauses on verdict, evidence status, sorted non-empty reason lists and unresolved routing; VALID leaves no conformance open; the two clauses on open conformance hold exactly of records that are not INVALID |
| AssessmentLaws.RoutingExactly | verifier/coherence-assessment.js:320-351 | each of the six routings exactly when: recovery, security review, human determination, repair after failure or residue, review where something is unresolved or was stopped, and none for the rest, whose action matched |
| AssessmentLaws.DerivedBinds | verifier/coherence-assessment.js:541-610 | a derived record names both receipts and follows the second; a matched action is the same on both sides, on record as one hash or, if it is not a hash, on neither; a matched exact consequence is one hash; the nonce is the admission's, in a terminal state |
| AssessmentLaws.ContractClauseExactly | spec/schemas/mus/coherence-assessment-record.schema.json:460-503 | the contract clause holds exactly when, in contract mode, nothing is invalid and contract hash, evaluator and version are named |
| ReceiptLaws.MetadataExactly | verifier/coherence-assessment.js:224-243 | the metadata is complete, or the error names the first thing that is not |
| ReceiptLaws.DisposedExactly | verifier/coherence-assessment.js:512-626 | of the assessments returned, DERIVED if and only if the two receipts' own members close, REFUSED_INVALID if and only if some contradiction is there, REFUSED_UNRESOLVED otherwise |
| ReceiptLaws.OtherAdmissionRefused | verifier/coherence-assessment.js:421-426 | a consequence that names another admission receipt is refused as invalid, with that reason |
| ReceiptLaws.ReasonsGivenExactly | verifier/coherence-assessment.js:508-614 | the record gives exactly the reasons that hold of the two receipts |
| ReceiptLaws.StatusExactly | verifier/coherence-assessment.js:508-524 | evidence status exactly by verdict and unavailable reasons, and the rules on record exactly those applied |
| ReceiptLaws.RecordExactly | verifier/coherence-assessment.js:541-614 | hashes, position, binding, statuses, contract and evaluator on record are those of the receipts and the metadata |
| Platform.PlatformExists | verify-chain.js:42-44 | the hypotheses about the platform can be met together |

## Left out

- SHA-256, Ed25519, key import and export, UUIDs, clocks, `JSON.parse` and `Date.parse`: foreign; they are parameters of the model, with the hypotheses named above.
- Files, process exit, console output, command lines and key loading: input and output. A file is its content, and one append is atomic.
- Numbers are integers. Fractions, exponents, NaN and negative zero are not modelled; legacy canonicalization of integers outside the safe range is printed in full where JavaScript would round.
- Objects with array-index keys, which JavaScript moves to the front: receipts that are stored are required to have none (`Writable`); canonical text sorts keys and is not affected.
- Keys named `__proto__`: JavaScript treats them as the prototype in assignments, and cloning a record loses one; the model takes them for keys like any other.
- Objects and arrays are compared by identity as if never shared, as after separate parses; receipts that share one object in memory are not modelled.
- A list holding one string that looks like a hash or version passes the source's regular expressions by coercion; here only strings do.
- The consequence evaluator is its answer; an evaluator that throws, and a reason that is not a string, are not modelled.
- Weakening.StatusWithdrawn: for an evaluator whose answer leaves the consequence open or not as before; `Weakening.AnswerMayDiffer` shows that no more is needed.
- Weakening.ResidueWithdrawn: for an evaluator whose answer leaves the consequence open or not as before; `Weakening.AnswerMayDiffer` shows that no more is needed.
- Weakening.AuthorizedActionWithdrawn: for an evaluator whose answer leaves the consequence open or not as before; `Weakening.AnswerMayDiffer` shows that no more is needed.
- Weakening.ActualActionWithdrawn: for an evaluator whose answer leaves the consequence open or not as before; `Weakening.AnswerMayDiffer` shows that no more is needed.
- Weakening.ExpiryWithdrawn: for an evaluator whose answer leaves the consequence open or not as before; `Weakening.AnswerMayDiffer` shows that no more is needed.
- Weakening.ConsequenceTimeWithdrawn: for an evaluator whose answer leaves the consequence open or not as before; `Weakening.AnswerMayDiffer` shows that no more is needed.
- Weakening.AllowedNodesWithdrawn: for an evaluator whose answer leaves the consequence open or not as before; `Weakening.AnswerMayDiffer` shows that no more is needed.
- Weakening.AllowedContextsWithdrawn: for an evaluator whose answer leaves the consequence open or not as before; `Weakening.AnswerMayDiffer` shows that no more is needed.
- Weakening.NodeWithdrawn: for an evaluator whose answer leaves the consequence open or not as before; `Weakening.AnswerMayDiffer` shows that no more is needed.
- Weakening.ContextWithdrawn: for an evaluator whose answer leaves the consequence open or not as before; `Weakening.AnswerMayDiffer` shows that no more is needed.
- The sourceboard and adapter mapping behind the draft receipt: validation, decision, hashes and approval enter the protocol step as inputs.
- A failed read or parse of the nonce stores and trusted keys.
- The hash of the ruleset constant enters the derivation as a parameter.
- The optional `verifier_attestation` of the schema, which the code never writes, and the schema's field formats.
- The copies of these checks in demo.js, verifier/verify.js and verifier/index.html, and spgm/, constitutional-sourceboard/ and sim-mus-adapter/: looser or easy variants.
- Chain.EditIsLocal: speaks of verifications that end; `Chain.EditThrowsAlike` says when editing leaves that alone. A hash or key field that is neither string nor absent makes the source throw on `substring`, which the model keeps as `Crashed`.

# Evidence ingestion core, modelled in Dafny

This project models the core of a browser application that ingests legal evidence. An
investigator drops files into the evidence panel. Each file is hashed and checked against the
documents already listed for the case and against the files accepted earlier in the same batch.
An AI-backed identity check can also flag it as a duplicate. A file that passes both gates
becomes a document whose extracted timeline events link back to it. The drafts are edited until
none needs clarification and are then committed to the active case. Documents receive a Bates
label (`DEF-001`, `DEF-002`, ...), a reliability score and the case id before they are stored.
Storage is an IndexedDB database with four object stores. Document metadata and document content
are kept in separate stores under the same id.

The AI client sends each request to a primary provider (Gemini or OpenAI) and falls back to the
other provider when the primary call fails. `generateJSON` reads the reply with `safeParseJSON`,
a lenient parser that strips markdown fences, tries closing brackets and salvages a truncated
prefix. When even that fails, it asks a fast model once to repair the JSON. `generateWithRetry`
retries transient model errors with growing waits.

Modules, one per source file, plus two shared ones:

- `Text`: the JavaScript string built-ins the core uses: `trim`, `includes`, `startsWith`,
  `lastIndexOf`, `padStart` and `String(n)`.
- `Records`: the entities of `types.ts` that the core reads and writes: case, timeline event,
  document, and the document's metadata and content parts.
- `Persistence` (`db.ts`): the `PersistenceLayer` class. Its four stores are maps, and the
  per-call transaction failure is a `fault` input.
- `Utils` (`utils.ts`): `safeParseJSON`, given `JSON.parse` as a function parameter, and
  `generateWithRetry`, given the model as a function from call number to reply.
- `AiClient` (`ai-client.ts`): the `UnifiedAIClient` class. The two provider services are one
  function from (wire request, call number) to reply.
- `EvidenceInput` (`components/EvidenceInput.tsx`): `simpleHash` with its 32-bit wrap-around,
  the hex step of `computeHash`, the upload loop over the files of a batch, draft editing and
  commit.
- `CaseApp` (`components/App.tsx`): Bates and case stamping, adding events, loading the demo
  seed and toggling the event selection.

Every stateful operation is a method that is proved against a function of its inputs and old
state. The properties the source promises are lemmas about those functions.

In a few places the code behaves in ways its authors may not have meant, and the model keeps
what the code does:

- A document listed from the metadata store has no content. `simpleHash` of that missing
  content throws inside the per-file `try`, so once a case lists any document, every upload
  fails (`MetadataListingRejectsAll`, `ListedDocumentsBlockUploads`).
- `generateJSON` can make up to four provider calls: two `generate` calls of up to two attempts
  each. `FourCallsReachable` shows a run with four.
- The identity check runs for every file that passes the hash gate, even when the case has no
  documents yet.

## Model

| member | source | states |
|---|---|---|
| Records.Listed | db.ts:78-81 | A document read from the metadata store keeps its id, title and case, and has no content and no media data. |
| Persistence.Split | db.ts:93-113 | `saveDocument` splits a document into a metadata record and a content record under the same id, and joining the two gives the document back. |
| Persistence.SplitJoin | db.ts:93-113 | Splitting the join of a metadata record and a content record with the same id gives the two records back. |
| Persistence.CollectByIndex | db.ts:152-162 | The index query returns exactly the stored records the selection holds for, each under its own key, with no key twice. |
| Persistence.PersistenceLayer.constructor | db.ts:10-50 | A new layer is not open and all four stores are empty. |
| Persistence.PersistenceLayer.Init | db.ts:10-50 | Opening succeeds or fails with the open error, and the layer is open from then on exactly when some open succeeded. |
| Persistence.PersistenceLayer.GetAllCases | db.ts:54-56 | Refused before `init`, fails on a transaction error, and otherwise returns exactly the stored cases, each once. |
| Persistence.PersistenceLayer.SaveCase | db.ts:58-60 | Refused before `init`; a failed transaction changes nothing; a successful one puts the case under its id. |
| Persistence.PersistenceLayer.GetEventsByCase | db.ts:64-66 | Returns exactly the stored events of the given case, each id once, or the error that stopped the query. |
| Persistence.PersistenceLayer.SaveEvent | db.ts:68-70 | Puts the event under its id exactly when the layer is open and the transaction succeeds; otherwise nothing changes. |
| Persistence.PersistenceLayer.DeleteEvent | db.ts:72-74 | Removes the id from the event store exactly when the layer is open and the transaction succeeds. |
| Persistence.PersistenceLayer.GetDocumentsByCase | db.ts:78-81 | Returns exactly the metadata records of the given case, each id once, and never any content. |
| Persistence.PersistenceLayer.GetDocumentContent | db.ts:83-91 | Yields the content record exactly when the layer is open, the read succeeds and the id is stored; every failure is swallowed into "none". |
| Persistence.PersistenceLayer.SaveDocument | db.ts:93-113 | Writes both records in one transaction: either both stores gain the document's parts or neither changes. |
| Persistence.PersistenceLayer.DeleteDocument | db.ts:115-125 | Removes the id from both stores together, or from neither. |
| Persistence.SaveLoadDelete | db.ts:83-125 | A saved document's content reads back unchanged, its metadata is listed under its case, and after deletion its content is gone from both stores. |
| Persistence.FailedSaveLeavesNoTrace | db.ts:83-113 | A save whose transaction fails leaves no content to read and no listed record with the document's id. |
| Utils.RemoveFence | utils.ts:4 | Removing fence tags never lengthens the text. |
| Utils.RemoveFenceKeepsPlain | utils.ts:4 | Text before the tag's first character is kept as it is; the replacement works only on what follows. |
| Utils.StripFences | utils.ts:4 | The cleaned text has no white space at either end and no "```" left in it. |
| Utils.StripFencesPlain | utils.ts:4 | A text without a backtick is only trimmed: nothing else is removed. |
| Utils.StripFencesBlock | utils.ts:4 | A reply wrapped as "```json", white space, a body without backticks and "```" is cleaned to exactly the trimmed body. |
| Utils.FirstTick | utils.ts:4 | A backtick at the head of the text after fence removal was already at the head of the text. |
| Utils.TwoTicks | utils.ts:4 | Two backticks at the head after fence removal were already there. |
| Utils.HeadFence | utils.ts:4 | A fence at the head after one character is kept means the text started with a fence. |
| Utils.NoFenceAfterRemoval | utils.ts:4 | Removing "```" and the white space after it leaves no "```" anywhere. |
| Utils.CutPoint | utils.ts:19-22 | The cut point is the last position holding `,`, `}` or `]`, or -1 when there is none. |
| Utils.Candidates | utils.ts:7-32 | The cleaned text comes first, then its eight closings, then eight closings of the salvage, the last only when the cut point is positive. |
| Utils.FirstAccepted | utils.ts:14-16 | The first candidate the parser accepts, every earlier one having been rejected. |
| Utils.Outcome | utils.ts:6-37 | A value is returned exactly when some candidate parses; otherwise the error rethrown is the first parse's error. |
| Utils.Tried | utils.ts:6-32 | The parse attempts are never more than the candidates. |
| Utils.Attempts | utils.ts:1-37 | `safeParseJSON` calls `JSON.parse` at most seventeen times. |
| Utils.TriedIsPrefix | utils.ts:6-32 | The attempts are a prefix of the candidates; all but the last are rejected; the last is accepted exactly when a value is returned, and the value is its parse. |
| Utils.AttemptsAreCandidatePrefix | utils.ts:1-37 | Empty text makes no attempt; otherwise the attempts are a prefix of the candidates of the cleaned text, ending at the accepted one when a value is returned. |
| Utils.OutcomeIsFirstAccepted | utils.ts:6-37 | The returned value is the parse of the first accepted candidate; a throw means every candidate was rejected and carries the first error. |
| Utils.SafeParseIsFirstAccepted | utils.ts:1-37 | Empty text gives `null`; otherwise the result is the first accepted candidate's value, or the first parse's error when none is accepted. |
| Utils.CleanTextWins | utils.ts:4-7 | When the cleaned text parses, its value is returned after exactly one attempt. |
| Utils.NothingParses | utils.ts:34-36 | When nothing parses, the error of the first parse is rethrown. |
| Utils.SalvageNeedsCutPoint | utils.ts:24-32 | Without a cut point beyond position 0, any value comes from the cleaned text or one of its closings. |
| Utils.FirstAcceptedAfter | utils.ts:13-32 | When every candidate of the first list from a position on is rejected, the search goes on into the second list. |
| Utils.FirstAcceptedShift | utils.ts:13-32 | Searching the second list from a position is the same search shifted by the first list's length. |
| Utils.FirstAcceptedWithin | utils.ts:13-32 | A hit in the first list is the hit in the joined list. |
| Utils.SearchInHalves | utils.ts:13-32 | The first hit in a joined list is in the first half when there is one there, and otherwise is offset into the second half. |
| Utils.ThreeStages | utils.ts:6-37 | After a rejected first parse, the outcome and attempts are those of the first stage that hits, or the first error after every candidate. |
| Utils.TryClosers | utils.ts:13-16 | The closer loop stops at the first closer that parses, having tried exactly the closers up to it. |
| Utils.FindCutPoint | utils.ts:19-22 | The maximum of the three `lastIndexOf` results is the cut point. |
| Utils.Salvage | utils.ts:25-28 | At a `}` or `]` cut the salvage is the prefix through the cut, as it is. At a `,` cut it is the trimmed prefix without that comma, which for text that starts with no white space is the prefix before the comma. |
| Utils.SalvageText | utils.ts:25-28 | The loop's salvage text is the `Salvage` of the cleaned text at the cut point. |
| Utils.SafeParseJSON | utils.ts:1-38 | The method returns what the specification of `safeParseJSON` returns, and its attempts are the specified ones. |
| Utils.ParseCleaned | utils.ts:6-37 | Parsing the cleaned text in stages gives the outcome and attempts of the candidate search. |
| Utils.CleanHit | utils.ts:7 | A cleaned text that parses ends the search at once. |
| Utils.CloserHit | utils.ts:13-16 | The first closer that parses ends the search, after the cleaned text and the closers up to it. |
| Utils.SalvageHit | utils.ts:24-36 | After all closers fail, the salvage closers are tried in order; when none parses, the first error is rethrown. |
| Utils.NoCutPoint | utils.ts:24-36 | Without a positive cut point and with every closer rejected, the first error is rethrown after nine attempts. |
| Utils.GenerateWithRetry | utils.ts:40-52 | At most `retries` retries, each made only after a retryable error; the wait before the retry made with `r` remaining is 2000·(4−r) ms; the final reply is a success, a non-retryable error or the error that exhausted the retries. |
| Utils.RetryPrepended | utils.ts:46-48 | One retry followed by a run keeps every call retryable and every wait on the schedule. |
| Utils.DefaultRetrySchedule | utils.ts:40-48 | With the default three retries and only retryable errors, the waits are 2, 4 and 6 seconds and the fourth call's reply is final. |
| Utils.NonRetryableRethrown | utils.ts:44-50 | A non-retryable first error is rethrown at once, with no wait. |
| AiClient.WithCredentials | ai-client.ts:29-32 | An empty key and a missing provider leave their fields as they were; the Gemini key never changes. |
| AiClient.CredentialsIdempotent | ai-client.ts:29-32 | Setting the same credentials twice is setting them once, and setting nothing changes nothing. |
| AiClient.ModelChoices | ai-client.ts:104-131 | Gemini runs the flash model exactly when the requested name contains "flash"; OpenAI runs the mini model exactly when the request names the Gemini flash model. |
| AiClient.WireModes | ai-client.ts:106-146 | Both providers send the system and user prompts; JSON mode asks Gemini for the JSON MIME type with the schema and OpenAI for a JSON object, and only in JSON mode. |
| AiClient.RepairPromptEmbeds | ai-client.ts:73-82 | The repair prompt contains the parse error and the raw text. |
| AiClient.ContainsAt | ai-client.ts:104 | A string that holds a pattern at some position contains it. |
| AiClient.InterpretReply | ai-client.ts:119-163 | A provider call resolves exactly when the service answers, with its text; an OpenAI error response throws with the "OpenAI API Error: " prefix. |
| AiClient.PrimaryTarget | ai-client.ts:40-44 | The primary call goes to OpenAI exactly when it is the provider and has a key. |
| AiClient.FallbackTarget | ai-client.ts:49-56 | The fallback is OpenAI when Gemini is the provider and a key is set, Gemini when OpenAI is the provider, and none otherwise. |
| AiClient.AttemptMakesOneCall | ai-client.ts:100-164 | A provider helper whose key is set makes exactly one call and resolves or throws with that call's reply. |
| AiClient.GenerateCalls | ai-client.ts:38-58 | `generate` makes the primary call, then a fallback call exactly when the primary failed and a fallback exists, and ends with its last call's result. |
| AiClient.PrimaryChoice | ai-client.ts:40-44 | The first call goes to OpenAI exactly when OpenAI is the provider and has a key. |
| AiClient.OpenAIWithoutKeyTriesGeminiTwice | ai-client.ts:40-56 | With provider OpenAI and no key, a failed Gemini call is followed by the same Gemini call again. |
| AiClient.OpenAICallsHaveKey | ai-client.ts:38-58 | Every OpenAI call carries the configured key, which is non-empty. |
| AiClient.JsonModeGenerate | ai-client.ts:112-146 | A JSON-mode `generate` makes one or two calls, all in JSON mode. |
| AiClient.JsonRunBounds | ai-client.ts:64-98 | `generateJSON` makes one or two `generate` calls and at most two provider calls per `generate`, all in JSON mode. |
| AiClient.GenerateJSONBounds | ai-client.ts:64-98 | `generateJSON` makes at most four provider calls, all in JSON mode. |
| AiClient.FirstFailurePropagates | ai-client.ts:65 | A failure of the first `generate` is thrown unchanged and no repair is made. |
| AiClient.EmptyTextWithoutRepair | ai-client.ts:65-68 | Empty generated text gives `null` without a repair round. |
| AiClient.RepairOutcomes | ai-client.ts:85-96 | A repair round ends in a parsed value or in the fixed recovery failure message, never in another error. |
| AiClient.ReadableWithoutRepair | ai-client.ts:67-68 | Text that reads at once is the result, after one `generate`. |
| AiClient.RepairFollowsUnreadable | ai-client.ts:69-96 | Unreadable text is followed by exactly one repair round, whose result is the result. |
| AiClient.RepairCarriesError | ai-client.ts:73-91 | The repair call is `generate` on the repair request built from the parse error and the raw text. |
| AiClient.RepairModelUnderOpenAI | ai-client.ts:89-131 | Under provider OpenAI the requested "gpt-4o-mini" runs as gpt-4o, and its Gemini fallback runs on the pro model. |
| AiClient.RepairModelUnderGemini | ai-client.ts:89-131 | Under provider Gemini the repair runs on the flash model, and its OpenAI fallback on gpt-4o-mini. |
| AiClient.FlashInGeminiFlash | ai-client.ts:89-104 | "gemini-3-flash-preview" contains "flash". |
| AiClient.NoFlashInGptMini | ai-client.ts:89-104 | "gpt-4o-mini" does not contain "flash". |
| AiClient.FlakyGenerate | ai-client.ts:38-58 | With an OpenAI key under provider OpenAI, a failed OpenAI call is followed by a Gemini call whose answer is the result. |
| AiClient.FourCallsReachable | ai-client.ts:64-98 | Four provider calls do happen: both attempts of both `generate` calls, ending in the recovery failure. |
| AiClient.RejectingParserReading | utils.ts:6-36 | With a parser that rejects everything, reading any non-empty text throws. |
| AiClient.UnifiedAIClient.Current | ai-client.ts:16-18 | The client's settings are its three fields. |
| AiClient.UnifiedAIClient.constructor | ai-client.ts:16-18 | A new client holds the environment key for Gemini, no OpenAI key and provider Gemini. |
| AiClient.UnifiedAIClient.SetCredentials | ai-client.ts:29-32 | The fields become the settings with the credentials applied. |
| AiClient.UnifiedAIClient.GetProvider | ai-client.ts:34-36 | Returns the configured provider. |
| AiClient.UnifiedAIClient.GenerateGemini | ai-client.ts:100-126 | One Gemini call with the client's key; its answer's text, or its error. |
| AiClient.UnifiedAIClient.GenerateOpenAI | ai-client.ts:128-164 | Without a key the helper throws before any call; otherwise one OpenAI call with the key. |
| AiClient.UnifiedAIClient.Generate | ai-client.ts:38-58 | The method's result and calls are those of the specification of `generate` on the client's settings. |
| AiClient.UnifiedAIClient.GenerateJSON | ai-client.ts:64-98 | The method's result, calls and number of `generate` calls are those of the specification of `generateJSON`. |
| AiClient.UnifiedAIClient.ReadGenerated | ai-client.ts:67-97 | Given the first `generate`'s outcome, reading it and any repair finish the specified `generateJSON` run. |
| AiClient.UnifiedAIClient.RepairJSON | ai-client.ts:84-96 | The repair round's result and calls are those of its specification. |
| EvidenceInput.ToInt32 | components/EvidenceInput.tsx:49-50 | The 32-bit result lies in [−2³¹, 2³¹) and differs from the input by a whole number of 2³² turns. |
| EvidenceInput.ToInt32Periodic | components/EvidenceInput.tsx:49-50 | Adding any multiple of 2³² does not change the 32-bit result. |
| EvidenceInput.ModUnique | components/EvidenceInput.tsx:49-50 | The remainder by 2³² is the unique remainder of any decomposition of the value. |
| EvidenceInput.Hash32 | components/EvidenceInput.tsx:45-53 | `simpleHash` is always a signed 32-bit value, and 0 for the empty string. |
| EvidenceInput.PowerSumSnoc | components/EvidenceInput.tsx:47-49 | A character appended to a string multiplies its polynomial by 31 and adds its code. |
| EvidenceInput.HashStepIsAffine | components/EvidenceInput.tsx:49-50 | One round of the loop is 31·h + code taken to 32 bits. |
| EvidenceInput.HashIsPowerSum | components/EvidenceInput.tsx:45-53 | `simpleHash(s)` is the sum of each code times 31 to the power of the characters after it, read as a signed 32-bit value. |
| EvidenceInput.HashCollision | components/EvidenceInput.tsx:45-53 | "Aa" and "BB" both hash to 2112. |
| EvidenceInput.SimpleHash | components/EvidenceInput.tsx:45-53 | The loop computes the specified hash. |
| EvidenceInput.HexDigit | components/EvidenceInput.tsx:41 | Every value below 16 has a lowercase hex digit. |
| EvidenceInput.HexValue | components/EvidenceInput.tsx:41 | Reading a lowercase hex digit gives back the value it is the digit of. |
| EvidenceInput.HexPair | components/EvidenceInput.tsx:41 | The two-digit hex form of a byte has exactly two characters. |
| EvidenceInput.HexBytePair | components/EvidenceInput.tsx:41 | `toString(16).padStart(2, '0')` is every byte's two hex digits, high one first. |
| EvidenceInput.HexOfDigest | components/EvidenceInput.tsx:40-41 | The hex form of a digest is twice as long as the digest. |
| EvidenceInput.HexOfDigestJoins | components/EvidenceInput.tsx:40-41 | The hex form is the first byte's form followed by the rest's. |
| EvidenceInput.Nibble | components/EvidenceInput.tsx:41 | Every hex position of a digest holds a value below 16. |
| EvidenceInput.HexOfDigestSpells | components/EvidenceInput.tsx:40-41 | Character k of the hex form is the digit of the high or low half of byte k/2, so the bytes appear in order. |
| EvidenceInput.HexDigitAt | components/EvidenceInput.tsx:40-41 | Character k of the hex form is the digit of half-byte k. |
| EvidenceInput.NibbleShift | components/EvidenceInput.tsx:40-41 | Dropping the first byte moves every half-byte two places down. |
| EvidenceInput.HexOfDigestDigits | components/EvidenceInput.tsx:40-41 | Every character of the hex form is a lowercase hex digit. |
| EvidenceInput.UnHex | components/EvidenceInput.tsx:40-41 | A string of hex digit pairs spells half as many bytes as it has characters. |
| EvidenceInput.UnHexOfDigest | components/EvidenceInput.tsx:40-41 | Reading the hex form back gives the digest: the hex step loses nothing. |
| EvidenceInput.HexDigitInjective | components/EvidenceInput.tsx:41 | Different values have different hex digits. |
| EvidenceInput.FindExact | components/EvidenceInput.tsx:90 | The exact-match search finds a listed document whose content hashes to the hash, is missing exactly when every listed document has content with a different hash, and throws only when some document has no content. |
| EvidenceInput.FirstStop | components/EvidenceInput.tsx:90 | `find` stops at the first listed document that has no content or whose content hashes to the hash: every earlier document has content with a different hash. |
| EvidenceInput.FindExactFirst | components/EvidenceInput.tsx:90 | The search keeps the list order: it finds the first document with the hash, is missing when no document stops it, and throws only when a document without content comes before every match. |
| EvidenceInput.DocIdSuffix | components/EvidenceInput.tsx:114 | The part of a document id after its last '-' is the file's index. |
| EvidenceInput.DocIdsDistinct | components/EvidenceInput.tsx:114 | Documents from different files of a batch have different ids, whatever the clock reads. |
| EvidenceInput.NewDocumentStamps | components/EvidenceInput.tsx:122-130 | The new document has the file's id, the identity's title or else the file name, the summary as content, "pdf" exactly for a MIME type containing "pdf", and a digest of 64 lowercase hex digits. |
| EvidenceInput.GrowsTransitive | components/EvidenceInput.tsx:80-140 | A batch that extends one that extends a third extends the third. |
| EvidenceInput.StepGrows | components/EvidenceInput.tsx:80-140 | A file only adds to the batch: drafts, duplicates, documents and errors keep their prefix, and hashes and titles their members. |
| EvidenceInput.StepFate | components/EvidenceInput.tsx:84-139 | Each file becomes exactly one of: an added document (exactly when it passes both gates), a duplicate entry (exactly when a gate rejects it) or a logged error. |
| EvidenceInput.StepHashes | components/EvidenceInput.tsx:89-134 | A hash and title enter the batch sets only for an accepted file, whose hash was not there before. |
| EvidenceInput.StepCounts | components/EvidenceInput.tsx:84-139 | A file adds one to the three counts together and keeps one batch hash per added document. |
| EvidenceInput.IngestAccounts | components/EvidenceInput.tsx:80-140 | After n files, added, duplicate and failed files number n, and the batch holds one hash per added document. |
| EvidenceInput.IngestGrows | components/EvidenceInput.tsx:80-140 | The batch after m files is kept in the batch after any later count of files. |
| EvidenceInput.PrefixTransitive | components/EvidenceInput.tsx:80-140 | A prefix of a prefix is a prefix. |
| EvidenceInput.DuplicateMatch | components/EvidenceInput.tsx:89-111 | A duplicate adds one entry under the file's name and changes nothing else. The entry names the listed document's title (the batch text when it has none), the batch text for a repeat, or what the identity check named (else "Existing Record"). |
| EvidenceInput.RepeatIsBatchDuplicate | components/EvidenceInput.tsx:91-133 | A later file with the hash of an accepted earlier one is recorded as "Duplicate in current batch", and nothing else changes. |
| EvidenceInput.CollisionIsBatchDuplicate | components/EvidenceInput.tsx:89-99 | Two files with different contents "Aa" and "BB" collide: the second is rejected as a batch duplicate. |
| EvidenceInput.MetadataListingRejectsAll | components/EvidenceInput.tsx:84-139 | When the first listed document has no content, every file fails and nothing is added or marked duplicate. |
| EvidenceInput.FileIds | components/EvidenceInput.tsx:114 | The ids of the first n files include each file's id. |
| EvidenceInput.FileIdsFresh | components/EvidenceInput.tsx:114 | File k's id is not among the ids of the first n files when n ≤ k. |
| EvidenceInput.StepContributes | components/EvidenceInput.tsx:113-130 | An accepted file adds one document with its id and its events linked to that id; any other file adds neither. |
| EvidenceInput.LinksExtended | components/EvidenceInput.tsx:113-130 | Adding a new file's document and its linked events keeps ids distinct and every draft linked to an added document. |
| EvidenceInput.StepLinks | components/EvidenceInput.tsx:113-139 | Each file keeps ids distinct and every draft linked to an added document. |
| EvidenceInput.IngestLinks | components/EvidenceInput.tsx:80-140 | After any number of files, added documents have distinct ids and every draft links to one of them. |
| EvidenceInput.FindExactMatch | components/EvidenceInput.tsx:90 | The search loop returns the specified lookup. |
| EvidenceInput.ProcessFile | components/EvidenceInput.tsx:80-139 | One iteration of the loop gives the specified next batch. |
| EvidenceInput.ProcessFiles | components/EvidenceInput.tsx:74-140 | The loop over the files gives the batch after all of them. |
| EvidenceInput.MatchesIsoDateSomewhere | components/EvidenceInput.tsx:301 | The date test holds exactly when some position starts four digits, '-', two digits, '-', two digits. |
| EvidenceInput.EditedFields | components/EvidenceInput.tsx:296-304 | An edit sets exactly its field; the clarification is cleared exactly for a date edit containing a full date; nothing else changes. |
| EvidenceInput.EditedIdempotent | components/EvidenceInput.tsx:296-304 | Making the same edit twice is making it once. |
| EvidenceInput.ValidEvents | components/EvidenceInput.tsx:310 | The filter keeps at most as many drafts as it is given. |
| EvidenceInput.AllReadyCons | components/EvidenceInput.tsx:310 | All drafts are ready exactly when the first one is and all the others are. |
| EvidenceInput.ValidEventsAll | components/EvidenceInput.tsx:310-311 | The filter keeps every draft exactly when all are ready, and then it returns them unchanged. |
| EvidenceInput.IntakePanel.constructor | components/EvidenceInput.tsx:22-29 | The panel starts in input mode with no drafts, no duplicates and no text. |
| EvidenceInput.IntakePanel.HandleFileUpload | components/EvidenceInput.tsx:68-153 | No files change nothing; otherwise the drafts grow by the batch's drafts, the summary becomes the batch's duplicates, the added documents are emitted and the mode is review. |
| EvidenceInput.IntakePanel.HandleUpdateDraft | components/EvidenceInput.tsx:296-307 | Only the indexed draft changes, to its edited form. |
| EvidenceInput.IntakePanel.HandleCommit | components/EvidenceInput.tsx:309-320 | All drafts ready: they are committed and the panel is cleared. Otherwise nothing is committed and nothing changes. |
| CaseApp.BatesLabelReadsBack | components/App.tsx:187 | The label starts with "DEF-", and its digits read back to the count plus one, padded to at least three. |
| CaseApp.BatesLabelsDistinct | components/App.tsx:187 | Different counts give different labels. |
| CaseApp.BatesLabelExamples | components/App.tsx:187 | Counts 0, 998 and 999 give "DEF-001", "DEF-999" and "DEF-1000": padding never truncates. |
| CaseApp.Stamped | components/App.tsx:185-190 | Stamping changes only the Bates number, the reliability score and the case. |
| CaseApp.StampedFields | components/App.tsx:185-190 | A stamped document keeps every other field, and gets the label of the count plus one, score 100 and the active case. |
| CaseApp.SeedLabelsDistinct | components/App.tsx:144-149 | Seed documents all belong to the demo case and carry pairwise distinct labels DEF-(i+1). |
| CaseApp.FlattenMembers | components/App.tsx:152 | An event is in the flattened list exactly when it is in some month. |
| CaseApp.FirstFault | components/App.tsx:173-175 | The first failing save of a loop, every earlier one having succeeded. |
| CaseApp.FirstFaultSplit | components/App.tsx:150-153 | A run of saves followed by a second run stops where the first run stops, or, when the first run completes, after the saves of the second run that take effect. |
| CaseApp.FirstFaultNone | components/App.tsx:150-153 | When no save fails, every save takes effect. |
| CaseApp.PutEventsContents | components/App.tsx:173-175 | After saving events in order, the store holds every saved id, each with the last event saved under it, and keeps every other record. |
| CaseApp.PutEventsInCase | components/App.tsx:173-175 | Every event saved with the case id is stored under its id with that case. |
| CaseApp.PutDocumentsContents | components/App.tsx:150 | Each document saved last under its id is stored whole, its split records joining back to it. |
| CaseApp.SaveEvents | components/App.tsx:173-175 | The loop stops at the first failed save; the store holds exactly the saves before it; the reply says which error stopped it. |
| CaseApp.SaveDocuments | components/App.tsx:150 | The loop stops at the first failed save; both stores hold exactly the documents saved before it. |
| CaseApp.DemoCase | components/App.tsx:135-141 | The demo case has the demo id, and its creation and modification times are the two timestamps taken. |
| CaseApp.SeedDemo | components/App.tsx:142-153 | Refused before `init` with nothing written. Otherwise the stores hold exactly the saves before the first failure, in order: case, documents, events. The seed succeeds exactly when no save fails, and a failure rejects with the transaction error. |
| CaseApp.SeedRecords | components/App.tsx:150-153 | The documents, then the events: the stores hold exactly the saves before the first failure, and the run succeeds exactly when no save fails. |
| CaseApp.ToggledFlips | components/App.tsx:200-205 | Toggling flips the id's membership and leaves every other id as it was. |
| CaseApp.ToggledTwice | components/App.tsx:200-205 | Toggling twice restores the selection. |
| CaseApp.OthersMembers | components/App.tsx:155 | The kept cases are exactly those without the demo id. |
| CaseApp.WithDemoCaseAppends | components/App.tsx:155 | The new case list is the cases without the demo id, followed by the demo case. |
| CaseApp.WithDemoCaseOnce | components/App.tsx:155 | The demo case appears once, last, and every other case is kept. |
| CaseApp.CaseWorkspace.constructor | components/App.tsx:28-40 | The workspace starts with no cases, the remembered case, no documents and no selection. |
| CaseApp.CaseWorkspace.HandleAddDocument | components/App.tsx:180-194 | With no active case nothing is saved; otherwise the stamped document is saved, and on success the listing is the case's metadata, including the new document. |
| CaseApp.CaseWorkspace.HandleAddEvents | components/App.tsx:168-178 | With no active case nothing is saved; otherwise each event is saved with the active case until the first failure. |
| CaseApp.CaseWorkspace.HandleLoadDemo | components/App.tsx:132-133 | A declined `confirm` changes neither the workspace nor the database; a confirmed one is `LoadDemo`. |
| CaseApp.CaseWorkspace.LoadDemo | components/App.tsx:135-156 | Before `init` it is rejected and nothing changes. Otherwise the stores hold the saves before the first failure, and it is done exactly when no save fails. Done, the demo records are stored, the case list holds the demo case once, last, and the demo case is active with no documents and no selection. Rejected, the workspace is as it was. |
| CaseApp.CaseWorkspace.SwitchToDemo | components/App.tsx:155-156 | The case list gains the demo case once, last; the demo case becomes active with no documents and no selection. |
| CaseApp.CaseWorkspace.ToggleEventSelection | components/App.tsx:200-205 | The selection becomes its toggled form. |
| CaseApp.ListAllMembers | components/App.tsx:192-193 | A listed document comes from a metadata record and has no content. |
| CaseApp.ListedDocumentsBlockUploads | components/App.tsx:192-193 | Once the case lists any document, every upload fails: nothing is added or marked duplicate, and every file is logged. |

## Left out

- Opening the IndexedDB database and the schema upgrade (db.ts:10-50) become one `openSucceeds` input. A per-call transaction failure becomes a `fault` input. The database itself is not modelled.
- Records persisted by earlier sessions are not modelled: a new layer starts with empty stores and `Init` only opens it. Every operation is specified for any valid layer, so no contract depends on the stores starting empty.
- The order in which `getAll` and the index queries return records is not modelled. The queries are specified by their members, with each id once.
- The `getInstance` singleton (ai-client.ts:22-27) is not modelled. The model works on one client object.
- The Gemini SDK, `fetch` and the OpenAI HTTP API become one service function from the wire request and the call number to a reply. `temperature` is not passed on, since it does not change any control path.
- `JSON.parse` is a parser parameter that accepts or rejects. The JSON values it builds are not modelled.
- SHA-256, `TextEncoder` and `crypto.subtle` are a digest parameter. Only the hex step after the digest is modelled.
- `FileReader` and base64 reading (components/EvidenceInput.tsx:55-66) become each file's data or its read failure.
- `analyzeDocumentIdentity` and `processEvidenceWithAI` become parameters: `identify` returns the identity or fails, and `extract` returns the events or `[]`. The prompts they build and the network call are not modelled.
- Each extracted event is linked to its document. The random `extracted-…` id and the `confidence` field are not modelled; the events keep the ids they have.
- `Date.now()` and `new Date().toISOString()` are clock and timestamp inputs.
- The `setTimeout` waits of `generateWithRetry` are returned as a list of delays rather than waited out.
- `handleTextAnalyze` (components/EvidenceInput.tsx:279-294) is not modelled. It only calls the extraction on typed text and appends the events, without the duplicate gates.
- `loadCaseData` and its month grouping (components/App.tsx:81-112) are not modelled, because of `Date` parsing and `toLocaleString`. `HandleAddEvents` therefore leaves out both parts of the reload that follows its saves: the rebuilt timeline view, and the replacement of `documents` with the case's metadata listing (components/App.tsx:107-108, 176). `HandleLoadDemo` resets the documents to the empty list that `handleSwitchCase` sets before the reload.
- `alert`, `confirm` and `prompt` are not modelled. `confirm`'s answer is the `confirmed` input.
- `console` logging is not modelled. The upload loop keeps the names of failed files as `errors`, in place of the logged messages.
- The rest of the React state and rendering is left out. `handleAddDocument` reads its count from the `documents` list as rendered, and `onAddDocument` is not awaited, so the count can be stale. The Bates label is a function of the count supplied.
- Strings are sequences of Unicode scalar values. `charCodeAt` on characters outside the Basic Multilingual Plane, which JavaScript counts as two UTF-16 code units, is not modelled.
- EvidenceInput.IntakePanel.HandleUpdateDraft: requires an index within the drafts. The source writes a fresh record at an out-of-range index, which the UI never passes.
- The salvage text is recomputed for each closer (utils.ts:26-29). The result is the same each time, so it is computed once.

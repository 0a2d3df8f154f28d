# Models and proofs of the gateway's protocols, transformations and parsers

This project models, in Dafny 4.11, the parts of the gateway whose correctness is hardest to see from the
code, and proves what those parts promise: over every input, every chunking of a stream, every run of a
protocol, every failure pattern. `dafny verify dfyconfig.toml` checks all of it.

## What is modelled

| module | part of the gateway |
|---|---|
| `JsonGrammar`, `Utf8`, `JsonCompactor` | the request-body white-space compactor, against the grammar of section 2 of RFC 8259 and the UTF-8 syntax of section 4 of RFC 3629 |
| `StopSequences` | server-side stop sequences: the streaming filter over content-block events and the batch truncation of a finished reply |
| `EventStreamHeaders`, `EventStreamFrames` | the Amazon event-stream wire format and the traffic decoder that reads captured bodies |
| `StreamingDecoder`, `EventStreamDecoder` | the buffered event-stream decoder of the upstream client, with its error recovery |
| `ReloadCoalescer` | the credential reload coalescer as a concurrent step system |
| `InventoryPush`, `InventoryImport` | inventory push, crash and reconcile; import with de-duplication |
| `RouteRules`, `RouteScenarios`, `RouteScenarioApply` | route-rule normalisation; planning, capturing and applying route scenarios with partial failures and retries |
| `RemoteSources` | counting, budgeting and materialising remote image and document sources |
| `Packets` | the Ethernet, VLAN, IPv4, IPv6, TCP and UDP parser of the capture tools |
| `Jpeg` | the JPEG dimension scan |
| `PublicPool` | the public pool snapshot, its tabs and pages, and its cache |

Code that changes state is modelled by classes and loops (`StopSequenceFilter`, `EventStreamDecoder`,
`CredentialsReloadCoalescer`, `InventoryStore`, `RouteService`, `RemoteMaterializationBudget`,
`PublicPoolState`, the in-place compaction of an array, the scanning loops). Each such method is proved to
compute a specification function, and the promises are proved of that function. Two techniques recur:

* A generative description (syntax trees, frames, packet layouts, marker segments) is printed to bytes by a
  function that knows nothing of the reader; soundness and completeness lemmas then tie the reader to it in
  both directions.
* Protocols are step systems: a state, the steps with their guards, and theorems over every valid run.

## What the proofs found

* **Stop sequences: streaming and batch disagree for some sequences.** With `["abc", "b"]` the text `abc`
  sent as `ab`, `c` stops at `b` and shows `a`; the finished reply is cut at `abc` and shows nothing. The
  filter always shows what the batch form keeps of the text received so far (`StreamIsBatchOfReceived`), and
  the two agree on every reply and every chunking exactly when no beginning of a stop sequence contains a
  stop sequence (`StreamedRepliesAgree`).
* **Route-rule normalisation is not idempotent.** `"/a /"` becomes `"/a "`, which becomes `"/a"`: slashes are
  trimmed after white space. It is idempotent exactly when no resulting rule ends in white space, and the
  scenario theorems (target reached, in sync after capture, differing set never grows) hold exactly under that
  condition on the policies involved. Changing one pool writes both, so an untouched pool policy can leave its
  target too (`WrittenBackExample`).
* **A full run marks its scenario active without reading the settings back.** After a failure-free full run the
  settings are in sync exactly when nothing that is written, both pools counting when either differs, has a
  rule that ends in white space (`FullRunInSyncIff`). A retry run, in contrast, becomes active only when
  everything is in sync.
* **A push whose pool add rotates the token is not repaired after a crash.** Adding an account refreshes its
  token before storing it (src/kiro/token_manager/manager.rs:15169-15189), so the pool may store a hash the
  inventory row never had. A crash before the row is marked leads, through the next reconcile, to an account
  usable in the inventory and present in the pool (`RotatingAddThenCrash`). `Careful` says which steps are
  harmless: exactly those after which no careful run doubles an account (`CarefulIff`).
* **Events behind a damaged frame wait for another chunk.** Iteration ends at the error and resumes only when
  data is fed (src/kiro/parser/decoder.rs:318-335), so every damaged frame holds up what is behind it until the
  next chunk. With no five damaged frames in a row, everything comes out exactly when for each frame there are
  more chunks, from the one that completes it on, than damaged frames from it on, the last frame not counted;
  otherwise what is behind stays in the buffer unreported (`DamageIsContained`, `OneChunkStopsAtDamage`).
* **Remote sources nested two tool results deep are counted but never fetched.** They use up the limit of
  twenty and stay in the request as URLs (`DeepSourceSurvives`, `PassReplacesShallowSources`).
* **The JPEG scan misses a shortest frame header at the very end of the data.** It wants ten bytes where the
  shortest header has nine. Every header that describes a component is long enough (`StandardFrameIsFound`).
* **Identity keys of different logins can collide when the kind of account contains a bar.** Kind, field and value
  are joined by bars without escaping (`KindWithBarCollides`); otherwise two accounts share a key exactly when
  they are the same login (`SameIdentityIff`).
* **Recovery of the event-stream decoder.** The comment above the recovery (src/kiro/parser/decoder.rs:240-246)
  speaks of skipping the whole frame for errors in the data stage; the code does so for a bad message
  checksum and a failed header parse, and skips one byte for an invalid header type or an incomplete header.
  The model follows the code.

## Assumptions

* Checksums are any function of the bytes. Digests are any function whose results are hexadecimal.
* The inventory model takes from the store's SQL what each statement does to a row. `Enabled` says that the
  pool refuses a hash it already holds, that a new hash is one nobody has had, and that time passes only
  while every live push is younger than the stale limit of 300 seconds (no push outlasts it). That the pool
  add is all or nothing and that the pool does not rotate the hash of an abandoned push before reconcile are
  not assumed of the world: they are `Careful`, and runs that violate them are modelled too.
* Two ways into the system of `InventoryPush` are not steps of it: an operator adding an account straight to the
  pool, which is checked against the pool's hashes only (src/kiro/token_manager/manager.rs:15124-15167), and an
  import adding an inventory row (src/admin/inventory.rs:505-693, modelled on its own in `InventoryImport`).
  Either can put an account in both places, so the theorems are about runs in which neither adds an account
  that the other place already has.
* The reload of the coalescer returns, successfully or not. The claim is per coalescer object.
* A route setter fails and changes nothing, or stores the policy after some number of normalisations
  (`Trips`, any number of at least one per item).
* The network of `RemoteSources` (address checks, replies, redirects, chunks, media types) is a parameter.
* Tier names, account masking, the sum of credits and the order of timestamps in `PublicPool` are parameters.

## Model

| member | source | states |
|---|---|---|
| JsonGrammar.ParseComplete | src/http_client.rs:196-203 | Every text the RFC 8259 grammar generates is accepted by the validity gate, with the grammar's value; hence that value is unique. |
| JsonGrammar.ParseSound | src/http_client.rs:196-203 | Every accepted text is generated by the grammar with the value returned. |
| JsonCompactor.HasRemovableWhitespace | src/http_client.rs:166-194 | The early scan reports removable white space exactly when dropping white space outside strings would change the text. |
| JsonCompactor.CompactInPlace | src/http_client.rs:204-234 | The two-index rewrite leaves in the buffer's first `n` bytes exactly the original without white space outside strings. |
| JsonCompactor.MaybeCompressJsonWhitespace | src/http_client.rs:161-238 | The whole function. Disabled or not valid JSON: the body itself. Enabled and valid: a text of the same value that no text of that value is shorter than. Valid UTF-8 stays valid, so the final conversion cannot fail. |
| JsonCompactor.FilterPreservesMeaning | src/http_client.rs:161-238 | The compacted form of any valid text is valid and denotes the same value: spellings, order and duplicate names kept, no tokens merged. |
| JsonCompactor.CompressedPreservesParse | src/http_client.rs:161-238 | For every input, valid or not, the result parses exactly as the input does. |
| JsonCompactor.CompressedIdempotent | src/http_client.rs:161-238 | Compacting twice is compacting once, for every input. |
| JsonCompactor.CompactionIsCanonical | src/http_client.rs:204-234 | All texts of one value compact to the same text, and none of them is shorter. |
| JsonCompactor.GateIsNeeded | src/http_client.rs:196-203 | Without the validity gate the invalid `1 2` would become the valid `12`. |
| JsonCompactor.FilterKeepsUtf8 | src/http_client.rs:208-237 | Removing the filtered bytes from valid UTF-8 leaves valid UTF-8. |
| StopSequences.NormalizedSequences | src/anthropic/stop_sequence.rs:17-26 | Exactly the non-empty requested sequences are kept, each once. |
| StopSequences.EarliestOccurs | src/anthropic/stop_sequence.rs:29-39 | The match found is an occurrence of a stop sequence. |
| StopSequences.EarliestIsPreferred | src/anthropic/stop_sequence.rs:29-39 | It is earlier than every other occurrence of every sequence, or as early and at least as long. |
| StopSequences.HeldIsLongest | src/anthropic/stop_sequence.rs:42-53 | No longer ending of the text begins a stop sequence than the one held back. |
| StopSequences.HeldIsNeeded | src/anthropic/stop_sequence.rs:42-53 | What is held back does begin a stop sequence. |
| StopSequences.StopSequenceFilter.TextDelta | src/anthropic/stop_sequence.rs:88-184 | Handling a text delta changes the filter and emits events as specified. |
| StopSequences.StopSequenceFilter.Handle | src/anthropic/stop_sequence.rs:88-184 | Every kind of event changes the filter and emits events as specified; an event that is neither about a content block nor a message delta is passed on and changes nothing, and a message delta comes out with the match, if there is one. |
| StopSequences.StopSequenceFilter.HandleAll | src/anthropic/stop_sequence.rs:80-86 | The same for a list of events. Of the events that are not about a numbered block, exactly those of the list come out, in order. |
| StopSequences.OthersPass | src/anthropic/stop_sequence.rs:80-184 | From any state and for any interleaving of events: those that are neither about a content block nor a message delta come out exactly and in order, block ends without an index too, and as many message deltas come out, at their places, as went in. |
| StopSequences.TextIsKept | src/anthropic/stop_sequence.rs:80-184 | Per block and for any interleaving: the text shown is a beginning of the text that came, nothing is shown after a match, and without one all of it is shown except what is still held. |
| StopSequences.UntouchedPass | src/anthropic/stop_sequence.rs:88-184 | Block starts, deltas other than text and deltas without an index pass until a sequence matches and not after it. |
| StopSequences.StopFollowsStart | src/anthropic/stop_sequence.rs:88-184 | The end of a block passes exactly when the client saw its start, after the text held for it. |
| StopSequences.KeepAlivePasses | src/anthropic/stop_sequence.rs:107-128 | An empty delta passes when nothing is held for its block. |
| StopSequences.StreamIsBatchOfReceived | src/anthropic/stop_sequence.rs:80-213 | For any sequences and chunking the filter shows and reports what batch truncation would on the text received when it stopped: nothing is taken back or held for good. |
| StopSequences.StreamedTextAgrees | src/anthropic/stop_sequence.rs:80-213 | Shown text equals the batch form's for every chunking, if and only if every beginning of a sequence has its match, if any, at its start. |
| StopSequences.StreamedMatchAgrees | src/anthropic/stop_sequence.rs:80-213 | Shown text and reported sequence both agree for every chunking, if and only if no beginning of a sequence contains a sequence. |
| StopSequences.FilteredMessage | src/anthropic/stop_sequence.rs:80-184 | What a client assembles from the filtered events of a whole reply, message start, pings, message delta and message stop included: the blocks up to the first match, each closed, none after it, the stop sequence, every other event, and no event out of place. |
| StopSequences.StreamedIsTruncated | src/anthropic/stop_sequence.rs:186-213 | Under that condition a streamed reply equals the truncated finished reply, up to the block cut to nothing that the batch form removes. |
| StopSequences.StreamedRepliesAgree | src/anthropic/stop_sequence.rs:80-213 | That agreement holds for all replies and all chunkings if and only if the condition holds. |
| StopSequences.UnsafeExample | src/anthropic/stop_sequence.rs:80-213 | With `abc` and `b`, the text `abc` streamed as `ab`, `c` shows `a` and stops at `b`; in batch it shows nothing and stops at `abc`. |
| EventStreamHeaders.HeadersRoundTrip | scripts/diagnostics/decrypt_tls_http2.py:117-168 | Any list of headers over the ten value types, encoded, is read back in full and in order. |
| EventStreamHeaders.ReadIsEncoded | src/kiro/parser/header.rs:152-280 | What is read from any bytes re-encodes to the bytes consumed, and reading stops only where no header begins. |
| EventStreamHeaders.ReadIsLongest | scripts/diagnostics/decrypt_tls_http2.py:117-168 | No list of headers the bytes begin with is longer than what is read. |
| EventStreamHeaders.LastHeaderWins | scripts/diagnostics/decrypt_tls_http2.py:117-168 | Of headers with one name the last gives the value. |
| EventStreamHeaders.ReadValue | scripts/diagnostics/decrypt_tls_http2.py:142-166 | One value at an offset is read as the format says, within bounds. |
| EventStreamHeaders.ReadHeader | scripts/diagnostics/decrypt_tls_http2.py:133-166 | One header at an offset is read as the format says, within bounds, always advancing. |
| EventStreamHeaders.HeaderValues | scripts/diagnostics/decrypt_tls_http2.py:117-168 | The loop returns the dictionary of the longest well-formed prefix. |
| EventStreamFrames.FramesRoundTrip | scripts/diagnostics/decrypt_tls_http2.py:171-214 | Any frames, encoded and joined, decode to exactly those frames without an error. |
| EventStreamFrames.DecodedAreEncoded | scripts/diagnostics/decrypt_tls_http2.py:171-214 | Frames decoded from any bytes re-encode to the bytes consumed; an error is reported exactly when something is left, and is the error of what is left. |
| EventStreamFrames.TruncationYieldsPrefix | scripts/diagnostics/decrypt_tls_http2.py:171-214 | Decoding a truncation yields a prefix of the frames. |
| EventStreamFrames.DecodeAt | scripts/diagnostics/decrypt_tls_http2.py:174-213 | One turn of the loop reads in range and gives the specified frame or error and the next offset. |
| EventStreamFrames.DecodeAwsEventstream | scripts/diagnostics/decrypt_tls_http2.py:171-214 | The loop terminates with one record per decoded frame, numbered from one, with the length of its message and its headers and payload, and the error of what is left, if anything is. |
| EventStreamFrames.DecodeErrorIs | scripts/diagnostics/decrypt_tls_http2.py:174-213 | Exactly which bytes give which of the five errors. |
| StreamingDecoder.ChunkingDoesNotMatter | src/kiro/parser/decoder.rs:134-223 | For any lawful frame parser, feeding chunks and iterating after each reports a beginning of what decoding the joined input reports, damage and recovery included, and leaves the decoder where that leads to the rest. |
| StreamingDecoder.SmallInputFits | src/kiro/parser/decoder.rs:134-153 | Input that fits the buffer as a whole never overflows it in chunks. |
| StreamingDecoder.SessionReportsAll | src/kiro/parser/decoder.rs:134-223 | If the whole input yields only frames, any chunking of it yields them all and the same end state. |
| StreamingDecoder.SessionReadsMessages | src/kiro/parser/decoder.rs:134-238 | However messages are cut into chunks, exactly their frames come out and the end is clean. |
| StreamingDecoder.SessionReports | src/kiro/parser/decoder.rs:134-335 | From any decoder not stopped, chunks that still yield only frames yield them all, whatever the chunking, and leave recovery. |
| StreamingDecoder.SessionStopsIff | src/kiro/parser/decoder.rs:160-223 | Whatever is fed, in whatever chunks: the decoder has stopped if and only if five failed attempts followed each other with no frame between them; the error count is the number of failures at the end, and the stop is reported as the last outcome and nowhere else. |
| StreamingDecoder.SessionReaches | src/kiro/parser/decoder.rs:134-335 | For any lawful parser, any frames and damaged frames with no five damaged in a row, and any chunking: exactly the outcomes of the first so many messages are reported, and the buffer, state and counters are given exactly. |
| StreamingDecoder.ReachedIff | src/kiro/parser/decoder.rs:318-335 | How many messages that is, without simulating the session: at least `n` if and only if for each of them there are more chunks, from the one that completes it on, than damaged messages from it on before the `n`-th. |
| StreamingDecoder.AllReportedIff | src/kiro/parser/decoder.rs:134-335 | Everything is reported if and only if that holds for all messages, and then nothing is left in the buffer. |
| StreamingDecoder.DrainedAreMessages | src/kiro/parser/decoder.rs:160-223 | If only frames are reported, the bytes consumed are exactly the messages of those frames. |
| StreamingDecoder.EnoughChunksReportAll | src/kiro/parser/decoder.rs:134-335 | For any lawful parser and any input, damaged at will: once more chunks have come since the input was complete than attempts on it fail, exactly everything decoding it at once reports has come out, and the buffer and counters are as then. |
| StreamingDecoder.Resynchronises | src/kiro/parser/decoder.rs:240-335 | Fewer than five stray bytes before messages, each making the parser fail with an error that is not about a whole frame: one error for each of them, then exactly the frames, and exactly the stray bytes counted as skipped. |
| EventStreamDecoder.FrameParserIsLawful | src/kiro/parser/frame.rs:100-175 | More data never changes a verdict, and a data error is about a frame wholly present: what the streaming theorems need. |
| EventStreamDecoder.ParseEncodedFrame | src/kiro/parser/frame.rs:100-175 | An encoded event, whatever follows it, is parsed back with its length. |
| EventStreamDecoder.ParsedIsEncoded | src/kiro/parser/frame.rs:100-175 | A parsed event re-encodes to the bytes consumed. |
| EventStreamDecoder.EventStreamDecoder.FeedData | src/kiro/parser/decoder.rs:134-153 | Appends and leaves recovery, unless that would exceed the buffer limit: then it fails and changes nothing. |
| EventStreamDecoder.EventStreamDecoder.TryRecover | src/kiro/parser/decoder.rs:240-305 | After a bad message checksum or a failed header parse with a length that fits, the buffer loses exactly that whole frame; after any other error exactly its first byte; what is lost is counted, an empty buffer stays as it is. |
| EventStreamDecoder.EventStreamDecoder.Settle | src/kiro/parser/decoder.rs:160-215 | Takes over a verdict: frame counted, error counted, stopped after too many. |
| EventStreamDecoder.EventStreamDecoder.DecodeNext | src/kiro/parser/decoder.rs:160-215 | One decode attempt as specified. |
| EventStreamDecoder.EventStreamDecoder.DecodeIter | src/kiro/parser/decoder.rs:219-335 | The iterator yields frames until data runs out or an error has been reported. |
| EventStreamDecoder.FailureIs | src/kiro/parser/frame.rs:100-130 | Exactly which bytes are too small, too large or not yet enough. |
| EventStreamDecoder.MessageFailureIs | src/kiro/parser/frame.rs:130-175 | Exactly which whole messages fail, and with which of the other errors. |
| EventStreamDecoder.ValidStreamDecodes | src/kiro/parser/decoder.rs:134-238 | A valid stream of events, in any chunks the buffer takes, gives exactly those events and a clean end. |
| EventStreamDecoder.DamageIsContained | src/kiro/parser/decoder.rs:134-335 | Any number of damaged frames among valid events, no five in a row, in any chunks the buffer takes: each costs one error and its own bytes. The reports, the bytes kept, the state and the counters are given exactly, and all events come out with an empty buffer if and only if enough chunks follow each frame. |
| EventStreamDecoder.OneChunkStopsAtDamage | src/kiro/parser/decoder.rs:318-335 | When such a stream arrives in one chunk, nothing behind the first damaged frame is reported and all of it stays in the buffer. |
| EventStreamDecoder.StrayBytesAreSkipped | src/kiro/parser/decoder.rs:240-335 | Fewer than five stray bytes before valid events, with enough chunks after them: one error and one skipped byte for each, then exactly the events, and a clean end. |
| EventStreamDecoder.HighBytesAreStray | src/kiro/parser/frame.rs:100-130 | Bytes 0xff before any frame are stray in that sense. |
| EventStreamDecoder.DecodersAgree | scripts/diagnostics/decrypt_tls_http2.py:171-214 | When the client's decoder reports only frames and ends clean, the traffic decoder finds the same frames and no error. |
| ReloadCoalescer.CredentialsReloadCoalescer.Request | src/main.rs:1556-1565 | A request starts a worker with its reason when none runs; else its reason becomes the pending one, replacing any before it. |
| ReloadCoalescer.CredentialsReloadCoalescer.TakeNext | src/main.rs:1575-1582 | The worker takes the pending reason, leaving none, or stops running when there is none. |
| ReloadCoalescer.AlwaysAtMostOneWorker | src/main.rs:1544-1586 | Over every interleaving at most one worker exists and `pending` is set only while `running`. |
| ReloadCoalescer.ReloadsNeverOutnumberRequests | src/main.rs:1544-1586 | Reloads begun plus reloads owed never exceed requests plus those owed at the start. |
| ReloadCoalescer.EveryRequestIsFollowedByAReload | src/main.rs:1544-1586 | When nothing is owed any more, a reload has begun after every request. |
| ReloadCoalescer.NeverStuck | src/main.rs:1565-1584 | While running, some worker step is possible. |
| ReloadCoalescer.GoesIdle | src/main.rs:1565-1584 | Without new requests every step brings the worker closer to idle: at most six steps, two of them reloads, then the initial state. |
| InventoryPush.CarefulStepKeepsInv | src/admin/inventory.rs:919-1051 | Every careful step of pushes, pool, reconcile, renewal and operators, crashes included, keeps the invariant. |
| InventoryPush.CarefulRunsAreSafe | src/admin/inventory.rs:919-1051 | Over every careful run no account is usable in the inventory and present in the pool. |
| InventoryPush.CarelessStepCanDouble | src/admin/inventory.rs:978-1051 | After any careless step, careful steps alone can lead to a doubled account. |
| InventoryPush.CarefulIff | src/admin/inventory.rs:919-1051 | Care is exactly what is needed: from an invariant state a step is careful if and only if no careful run after it doubles an account. |
| InventoryPush.RotatingAddThenCrash | src/kiro/token_manager/manager.rs:15169-15189 | After an add that stores a rotated hash and a crash, careful steps alone can lead to a doubled account. |
| InventoryPush.StepKeepsAccounts | src/admin/inventory.rs:919-1051 | Except for an operator's deletions, no step, careful or not, loses an account's secrets from both places. |
| InventoryPush.CarefulRunsLoseNothing | src/admin/inventory.rs:919-1051 | Over every careful run without deletions an account once held is held. |
| InventoryPush.ReconcileSettles | src/admin/inventory.rs:1029-1051 | Reconciling stale rows in any order settles each by the pool's hashes and touches nothing else. |
| InventoryPush.ReconcileRepairs | src/admin/inventory.rs:1029-1051 | After reconcile no row is stale, each reconciled row is pushed exactly when the pool holds its hash, else stored, and no account is doubled. |
| InventoryPush.InventoryStore.Begin | src/storage/credential_inventory.rs:328-338 | Claims a live stored or invalid row, and only that. |
| InventoryPush.InventoryStore.Finish | src/storage/credential_inventory.rs:341-352 | A live row becomes pushed, loses its secrets and points to the pool account. |
| InventoryPush.InventoryStore.Abort | src/storage/credential_inventory.rs:354-364 | A live pushing row becomes stored again. |
| InventoryPush.InventoryStore.PushInventory | src/admin/inventory.rs:919-1025 | Without a crash, whatever store queries fail, the batch pushes each distinct claimable row the pool accepts, returns the refused ones, leaves a row whose outcome cannot be recorded pushing and all other rows alone, and reports each once in order. |
| InventoryPush.InventoryStore.PushId | src/admin/inventory.rs:947-1016 | One id of the batch: when its row may be claimed, what the pool and the store answer, what the row becomes and what is reported, also when a claim or a record fails. |
| InventoryPush.InventoryStore.ReconcilePushes | src/admin/inventory.rs:1029-1051 | The loop settles the stale rows by the pool snapshot and counts them; it ends with an error exactly when some stale row cannot be updated, having settled only rows it reached before. |
| InventoryPush.FirstMatch | src/admin/inventory.rs:1034-1043 | The lookup finds the first pool account with the row's hash, exactly when there is one. |
| InventoryPush.Dedup | src/admin/inventory.rs:1236-1239 | The same ids, each once. |
| InventoryPush.DedupAppend | src/admin/inventory.rs:1236-1239 | First occurrences keep their order: a further id goes to the end exactly when it is new. |
| InventoryImport.KeysCannotCollide | src/admin/inventory.rs:41-88 | A secret hash never equals an identity key, so one set holds both kinds. |
| InventoryImport.SameIdentityIff | src/admin/inventory.rs:63-88 | Two accounts share an identity key exactly when they have the same kind and, e-mail first, the same e-mail in any case, or else the same profile; no bar in the kinds. |
| InventoryImport.KindWithBarCollides | src/admin/inventory.rs:63-88 | With a bar in the kind two different logins share a key. |
| InventoryImport.SecretKeyIs | src/admin/inventory.rs:41-61 | The secret key is the digest of the API key of an API-key account, of the refresh token of any other, and none when that is missing or empty. |
| InventoryImport.InPoolIff | src/admin/inventory.rs:1177-1181 | An account counts as in the pool exactly when the pool has its digest or its identity. |
| InventoryImport.AnyMatchesIff | src/storage/credential_inventory.rs:120-140 | Stored rows match an account exactly when one has its API-key digest, its refresh-token digest or its identity in that very column. |
| InventoryImport.DuplicateReason | src/admin/inventory.rs:1171-1188 | In the pool, in the batch or new, exactly when so; and exactly which keys are recorded: none, the secret alone, or both. |
| InventoryImport.ImportInventory | src/admin/inventory.rs:505-693 | Each of the six answers is given to an item if and only if it is due, by the pool, the keys recorded by the items before it, the rows stored by then and the store's failures; the import gives up exactly at an account that would be stored but cannot be encoded; the rows are those before and one for each imported account; counts add up to the total. |
| InventoryImport.ImportIsSound | src/admin/inventory.rs:542-693 | From those answers: imported accounts have pairwise different keys and are neither in the pool nor among the rows stored before, and each adds one row. |
| InventoryImport.RecordedIff | src/admin/inventory.rs:1182-1186 | A key is on record if and only if some earlier item recorded it. |
| InventoryImport.BatchSkipHasReason | src/admin/inventory.rs:1182-1186 | An item skipped as a duplicate in the batch shares a key with an earlier account that was not skipped for the pool. |
| InventoryImport.CountsCoverItems | src/admin/inventory.rs:542-693 | Imported, skipped and failed partition the items, so the failed count cannot underflow. |
| RouteRules.NormalizedAreShaped | src/model/config.rs:6952-6959 | Normalised rules have the normal shape and no repetition. |
| RouteRules.NormalizeRuleIs | src/model/config.rs:6931-6950 | What a rule becomes, said of the rule: without its outer white space nothing, a star, or the lower-case text with a leading slash whose trailing slashes are cut down to none, or to the one that is all of it. |
| RouteRules.NormalizeAppend | src/model/config.rs:6952-6959 | A further rule adds its normal form at the end exactly when it has one that is new. |
| RouteRules.RenormalizeRule | src/model/config.rs:6931-6950 | A rule of normal shape is a fixed point exactly when it does not end in white space. |
| RouteRules.NormalizeRulesIdempotentIff | src/model/config.rs:6952-6959 | Normalising a list again changes nothing exactly when no normalised rule ends in white space. |
| RouteRules.NotIdempotentExample | src/model/config.rs:6931-6950 | `/a /` needs two passes. |
| RouteRules.NormalizedSettlesIff | src/admin/route_scenarios.rs:36-47 | A second normalisation of a policy changes nothing exactly when no rule of the first ends in white space. |
| RouteRules.SettledIff | src/admin/route_scenarios.rs:36-47 | A policy of normal form is a fixed point exactly when no rule ends in white space. |
| RouteRules.PassesReturnIff | src/admin/route_scenarios.rs:36-47 | However many passes it takes, a policy of normal form comes back as sent exactly when no rule ends in white space. |
| RouteScenarios.ByIdToAccounts | src/admin/route_scenarios.rs:84-103 | Listing a map of accounts and reading the list back gives the map. |
| RouteScenarios.TargetOfNormalized | src/admin/route_scenarios.rs:84-103 | Normalising content normalises every target, last entry per account winning, and lists the same accounts. |
| RouteScenarios.ListedIs | src/admin/route_scenarios.rs:349-377 | An account is planned to the last policy listed for it, and to no restriction when none is. |
| RouteScenarios.ContentNormalizationIdempotentIff | src/admin/route_scenarios.rs:84-103 | A second normalisation of content changes nothing exactly when no normalised rule of a winning policy ends in white space. |
| RouteScenarios.PlanKeysAre | src/admin/route_scenarios.rs:330-388 | The plan covers both pools and every account exactly once. |
| RouteScenarios.PlanIsInOrder | src/admin/route_scenarios.rs:330-388 | The plan lists the pools first, then local and external accounts by number. |
| RouteScenarios.PlanUnchangedIff | src/admin/route_scenarios.rs:330-388 | Every planned item has equal value and target, which is what the code checks, exactly when every setting is at its target. |
| RouteScenarios.CaptureIsInSync | src/admin/route_scenarios.rs:539-559 | Captured settings planned against the same state change nothing and miss no account. |
| RouteScenarios.CaptureLists | src/admin/route_scenarios.rs:539-559 | A capture lists exactly the accounts that are restricted. |
| RouteScenarios.SavedCaptureInSyncIff | src/admin/route_scenarios.rs:539-559 | After a save and load that still holds exactly when no current rule ends in white space; no account is ever missing. |
| RouteScenarioApply.RouteService.SetAccount | src/admin/service.rs:2666-2684 | Fails and changes nothing, or stores the policy for that account only. |
| RouteScenarioApply.RouteService.SetPools | src/admin/service.rs:11103-11122 | Fails and changes nothing, or stores both pool policies in one write. |
| RouteScenarioApply.RouteService.ApplyRouteScenario | src/admin/route_scenarios.rs:633-734 | The resulting settings under any failures; the total is the number of items chosen, and success, failed and skipped add up to it; exactly the attempted items are reported, each once, with their outcome. The scenario becomes active exactly after a failure-free run that either was a full one or, the settings read back, left every setting at its target; otherwise the active one stays. |
| RouteScenarioApply.RouteService.ApplyThenRetry | src/admin/route_scenarios.rs:633-734 | A full run that fails on some items and a retry of those without a failure make the scenario active exactly when no value that had to be written has a rule ending in white space; else the active one stays. |
| RouteScenarioApply.RouteService.ApplySelected | src/admin/route_scenarios.rs:640-705 | The accounts are written first, then the pools; the settings, reports and skips that leaves. |
| RouteScenarioApply.RouteService.ApplyItem | src/admin/route_scenarios.rs:655-694 | One selected item is skipped, collected, or written and reported. |
| RouteScenarioApply.RouteService.ApplyAccounts | src/admin/route_scenarios.rs:652-695 | The account loop writes, reports, skips or collects each selected item. |
| RouteScenarioApply.RouteService.ApplyPools | src/admin/route_scenarios.rs:696-704 | One pool write for the collected pool items, with the unselected pool policy written back. |
| RouteScenarioApply.PoolResults | src/admin/route_scenarios.rs:696-704 | Pool results follow the account results, all with the outcome of the one write. |
| RouteScenarioApply.LoadingNormalises | src/admin/route_scenarios.rs:310-324 | Loaded content has targets of normal form. |
| RouteScenarioApply.AppliedIsValid | src/admin/route_scenarios.rs:391-425 | What a run leaves behind can be read and planned against again. |
| RouteScenarioApply.SuccessReachesTargetIff | src/admin/route_scenarios.rs:633-734 | A successful item is at its target exactly when no rule of the target ends in white space. |
| RouteScenarioApply.OthersUnchangedIff | src/admin/route_scenarios.rs:633-734 | A failed or unselected item is unchanged, except exactly a pool policy written back with a rule that ends in white space. |
| RouteScenarioApply.DifferingSetNeverGrowsIff | src/admin/route_scenarios.rs:633-734 | An item in sync leaves sync only in that same case, so retries never enlarge the differing set otherwise. |
| RouteScenarioApply.FullRunInSyncIff | src/admin/route_scenarios.rs:633-734 | A full run without failures ends in sync, so that a further run writes nothing, exactly when no differing target has a rule that ends in white space and, if a pool differs, neither pool target has one. |
| RouteScenarioApply.WrittenBackExample | src/admin/route_scenarios.rs:633-734 | A failure-free full run whose only differing item reaches its target, and which still ends out of sync because the other pool was written back. |
| RouteScenarioApply.RetryConvergesIff | src/admin/route_scenarios.rs:633-734 | A full run that failed on any items, followed by a retry of those that succeeds, ends in sync exactly when a full run without failures would have. |
| RemoteSources.CountSplits | src/anthropic/body_processing.rs:466-488 | The recursive count is the sources the pass reaches plus those deeper than one tool result. |
| RemoteSources.RemoteIff | src/anthropic/body_processing.rs:473-488 | An item is a remote source exactly when it is an image or document whose source is a URL one; a tool result exactly when it is one with a list of items. |
| RemoteSources.EncodedLenIsExact | src/anthropic/body_processing.rs:802-808 | The length charged is the length of the base64 encoding of section 4 of RFC 4648. |
| RemoteSources.LetterIs | src/anthropic/body_processing.rs:771 | The letters are those of the alphabet of section 4 of RFC 4648, written out. |
| RemoteSources.DecodedAgain | src/anthropic/body_processing.rs:771 | A decoder written over that alphabet, by bits and padding and without the encoder, gives back the bytes of every encoding. |
| RemoteSources.WalkIff | src/anthropic/body_processing.rs:672-712 | A download gets a reply exactly when its redirects lead to one within five and all their attempts still fit the shared limit; which errors are possible. |
| RemoteSources.ReadBodyIff | src/anthropic/body_processing.rs:774-800 | A body is read exactly when it arrives whole and fits its own and the shared limit, and its bytes are charged. |
| RemoteSources.FetchAccounts | src/anthropic/body_processing.rs:662-772 | A download yields a text that decodes to the bytes its own address led to, and charges exactly the attempts, bytes and characters of it, all within limits. |
| RemoteSources.FetchIff | src/anthropic/body_processing.rs:662-772 | A download succeeds exactly when its redirects lead to a reply within the attempts left, the body fits, its media type is known and its encoding fits. |
| RemoteSources.FetchErrorIs | src/anthropic/body_processing.rs:662-772 | Each error a download fails with has its cause: in the walk, in the reply, in the body or in what is left of the limits. |
| RemoteSources.PassFailsAsFetch | src/anthropic/body_processing.rs:602-660 | A pass fails only with the error of some download within the limits. |
| RemoteSources.EncodedLimitNeverFails | src/anthropic/body_processing.rs:21-25 | A request that passes the source count never fails for its encoded size or by overflow, and its encoded total stays below the limit, whatever the network does. |
| RemoteSources.PassReplacesShallowSources | src/anthropic/body_processing.rs:602-660 | A successful pass changes only the source of remote blocks at most one tool result deep; count before = replaced + count after; what remains is exactly what lies deeper. |
| RemoteSources.DeepSourceSurvives | src/anthropic/body_processing.rs:473-488 | A source two tool results deep is counted but not among those replaced. |
| RemoteSources.RemoteMaterializationBudget.constructor | src/anthropic/body_processing.rs:90-99 | Starts at zero within its limits. |
| RemoteSources.RemoteMaterializationBudget.ReserveHttpAttempt | src/anthropic/body_processing.rs:110-119 | Counts one attempt or refuses and changes nothing; stays within limits. |
| RemoteSources.RemoteMaterializationBudget.ReserveDownloadedBytes | src/anthropic/body_processing.rs:121-134 | The same for downloaded bytes, overflow included. |
| RemoteSources.RemoteMaterializationBudget.ReserveMaterializedBytes | src/anthropic/body_processing.rs:136-151 | The same for encoded bytes. |
| RemoteSources.ReadLimitedResponseBody | src/anthropic/body_processing.rs:774-800 | The chunk loop reads and charges as specified, or fails with the specified error. |
| RemoteSources.FollowRedirects | src/anthropic/body_processing.rs:669-716 | The redirect loop ends with a reply or an error of its own; the fallback for a missing response is dead. |
| RemoteSources.DownloadSource | src/anthropic/body_processing.rs:662-772 | One download as specified, budget included. |
| RemoteSources.MaterializeItem | src/anthropic/body_processing.rs:625-642 | One item is replaced if it is remote, and counted exactly then. |
| RemoteSources.MaterializeNested | src/anthropic/body_processing.rs:613-618 | The items directly in a tool result, in place and in order. |
| RemoteSources.MaterializeContentItem | src/anthropic/body_processing.rs:612-620 | An item of the content, or the items of the tool result it is. |
| RemoteSources.MaterializeContentSources | src/anthropic/body_processing.rs:602-623 | One message's content, with the number of sources replaced. |
| RemoteSources.MaterializeMessages | src/anthropic/body_processing.rs:408-418 | All messages against one budget. |
| RemoteSources.MaterializeRemoteMultimodalSources | src/anthropic/body_processing.rs:390-428 | The whole workflow: nothing to do, too many sources, success or failure, each exactly when; sources are replaced by texts that decode to the bytes fetched; a failure is that of some download, never the encoded-size limit, overflow or a missing response; reported sources plus those left equal the count. |
| Packets.PrintedIsRead | scripts/diagnostics/packet_protocols.py:26-156 | Every well-formed stack of headers, followed by any captured bytes, is accepted with the addresses, ports, flags and sizes it denotes. |
| Packets.ReadIsPrinted | scripts/diagnostics/packet_protocols.py:26-156 | Every accepted capture begins with such a stack, which denotes what is reported. |
| Packets.AcceptedIffLayout | scripts/diagnostics/packet_protocols.py:26-156 | Both together: acceptance and result are exactly those of the layout. |
| Packets.LongerCaptureAgrees | scripts/diagnostics/packet_protocols.py:26-88 | Every longer capture of an accepted one is accepted with the same fields; the captured size only grows and never exceeds the declared payload. |
| Packets.TruncatedIsReadIff | scripts/diagnostics/packet_protocols.py:26-88 | A truncated capture is accepted exactly when all headers survive, and then differs only in the captured size, given exactly. |
| Packets.ParseV4 | scripts/diagnostics/packet_protocols.py:91-114 | The IPv4 reader at an offset, in range, as specified. |
| Packets.ExtensionLength | scripts/diagnostics/packet_protocols.py:130-151 | An extension header is stepped over exactly when it fits packet and payload and is no later fragment. |
| Packets.WalkExtensions | scripts/diagnostics/packet_protocols.py:126-155 | The extension loop of section 4 of RFC 8200 terminates in range with the specified header, offset and remaining payload. |
| Packets.ParseV6 | scripts/diagnostics/packet_protocols.py:117-156 | The IPv6 reader at an offset, in range, as specified. |
| Packets.ParseSegment | scripts/diagnostics/packet_protocols.py:47-88 | The TCP or UDP part as specified. |
| Packets.EthernetTransport | scripts/diagnostics/packet_protocols.py:26-88 | The whole parser, VLAN loop included, computes the specified result for every input. |
| Jpeg.FrameHeaderIsFound | src/token.rs:505-545 | Any run of marker segments before a frame header yields that header's width and height, unless the header is the shortest possible and ends the data. |
| Jpeg.StandardFrameIsFound | src/token.rs:505-545 | A frame header of section B.2.2 of ITU-T T.81 with at least one component is always found. |
| Jpeg.MarkersAre | src/token.rs:505-545 | The reader takes for frame headers and for markers without a length exactly those of the grammar. |
| Jpeg.DimensionsIff | src/token.rs:505-552 | Dimensions are reported exactly for data that is such a run up to a reached frame header, and are that header's. |
| Jpeg.PastStray | src/token.rs:512-514 | The first inner loop passes exactly the bytes before the next marker prefix. |
| Jpeg.PastFill | src/token.rs:518-520 | The second inner loop passes exactly the fill bytes. |
| Jpeg.NextMarker | src/token.rs:512-525 | The next marker and the index after it, always further on. |
| Jpeg.JpegDimensions | src/token.rs:505-545 | The nested loops read in range, terminate and compute the specified result for every input. |
| PublicPool.HiddenAccountsLeaveNoTrace | src/admin/public_pool.rs:393-493 | In Hide mode two pools that differ only in Free accounts and their cooldowns give the same snapshot. |
| PublicPool.HiddenAreFree | src/admin/public_pool.rs:210-273 | In Hide mode exactly the accounts with a Free title are left out; without such accounts nothing changes. |
| PublicPool.DisguisedAs | src/admin/public_pool.rs:200-273 | A Free account is shown with the title and limit of the paid tier chosen, used and remaining credits adding up to the limit, the used ones its own when they fit, and is otherwise the same account. |
| PublicPool.WrappedIs | src/admin/public_pool.rs:226-230 | Used credits are wrapped by whole limits. |
| PublicPool.DisguisedHasQuota | src/admin/public_pool.rs:221-256 | A disguised Free account keeps its id and state and is never listed as out of quota. |
| PublicPool.PagesPartition | src/admin/public_pool.rs:495-526 | Pages 1 to the announced number concatenate to the tab's accounts in order; a page is empty exactly when it lies beyond them, saturating offsets included. |
| PublicPool.PageIs | src/admin/public_pool.rs:495-526 | Page number, limit and page count follow the query: the first page and twenty when missing or zero, a thousand at most, just enough pages for the total; a missing tab gives all accounts. |
| PublicPool.TabIsStatus | src/admin/service.rs:11265-11275 | An account is under the tab of its status, the disabled tab being all disabled ones. |
| PublicPool.OverviewCountsTabs | src/admin/public_pool.rs:402-462 | The normal, cooling, quota and error counts equal the filtered totals of their tabs and the number of shown accounts the rules put there. |
| PublicPool.OverviewCountsOnce | src/admin/public_pool.rs:459-462 | Those four counts never count an account twice; they miss exactly the accounts otherwise disabled or only rate limited. |
| PublicPool.OverviewCountsAre | src/admin/public_pool.rs:402-475 | Every other number of the overview, counted over the shown accounts: enabled and disabled adding up to the total, schedulable, cooling down, in use, failing, requests in flight, credits and the last check. |
| PublicPool.TotalsAre | src/admin/public_pool.rs:402-475 | Requests in flight add up and the last check is the latest, account by account. |
| PublicPool.PublicPoolState.ShowSnapshot | src/admin/public_pool.rs:544-574 | Serves the cached snapshot when it is fresh and of the current setting, else a new build, else, when that fails, an older one of that setting, else the failure; what is cached afterwards. |
| PublicPool.RepliesFollowTheSetting | src/admin/public_pool.rs:529-574 | Over any run of views every snapshot served was built for the setting at that view. |
| PublicPool.CacheLeaksNothing | src/admin/public_pool.rs:529-574 | Over any run of views, setting changes and failed builds, pools that differ only in Free accounts serve the same whenever those are hidden. |
| PublicPool.BuildsAreAlike | src/admin/public_pool.rs:376-392 | Builds from such pools meet the condition of that theorem. |

## Left out

- The JSON library's own validator: the gate is the model's RFC 8259 parser, proved equivalent to the grammar. The library's nesting limit is not modelled.
- Rendering of header values as text (lossy UTF-8, decimal, hexadecimal) in the traffic decoder; a header keeps its typed value.
- StopSequences.FilteredMessage: content blocks arrive one after another, as the stream context produces them; the filter itself (`Handle`) is modelled for any interleaving.
- StopSequences.StreamedRepliesAgree: likewise for sequential blocks; block indexes are unbounded integers rather than 32-bit.
- EventStreamDecoder.ValidStreamDecodes: speaks of sessions whose chunks the buffer accepts; SmallInputFits gives a sufficient condition. Frames larger than 16 MiB are refused as in the code.
- EventStreamDecoder.DamageIsContained: damage the parser finds in the content of a whole frame. After a damaged prelude the decoder goes on byte by byte; StrayBytesAreSkipped says what fewer than five such bytes cost, and of more of them EnoughChunksReportAll, ChunkingDoesNotMatter and SessionStopsIff speak.
- InventoryPush.InventoryStore.PushInventory: labels, proxies, audit entries and messages; a push interrupted by a crash is covered by the step system instead. A query that fails is taken to have changed nothing.
- InventoryPush.InventoryStore.ReconcilePushes: the query that lists the stale rows succeeds; when it fails nothing happens.
- InventoryImport.ImportInventory: parsing of the request, and what another import stores at the same time beyond the refusal of a single insert, which the store's own uniqueness check answers with a skip; the optional quota check of a row just stored, which can renew its token.
- Renewal of inventory tokens beyond its effect on a row's hash and status.
- RouteScenarioApply.RouteService.SetAccount: whether a policy is rejected by validation is part of "fails", not computed.
- Scenario storage, names, size limits and previews.
- RemoteSources.MaterializeRemoteMultimodalSources: deadline, concurrency permit, user agent and the address and media-type rules themselves; a failed pass is reported without the partly changed request, which the caller drops.
- Packets: addresses are kept as bytes; their textual form is not modelled.
- Jpeg: the PNG, GIF and WebP readers and the token estimate; they would add only straight-line members.
- PublicPool.Summary: the in-flight sum is unbounded rather than 32-bit; quota numbers are reals, so not-a-number values of a quota snapshot are not modelled (those of the metered usage are).
- Masking of e-mail addresses and the fields passed on per account, which are a parameter.
- Token management, scheduling, HTTP, TLS, databases, Redis and the user interface.

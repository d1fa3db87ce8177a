# Verified model of the Epsilon enclave

The enclave receives encrypted bundles from an untrusted host, opens them with a session key that never leaves it, runs the
script inside, collects the files it wrote, and answers with an attestation that binds output and files. This project models
that path in Dafny and proves what the rest of the system relies on: which bytes are bound, which key opened what, what is
ever attested, and that messages survive the wire whatever way they are cut.

The modules follow the program:

| module | models |
|---|---|
| `Basics`, `Ordering`, `Hex`, `BigEndian`, `Base64`, `Utf8` | byte and text values, Python's string order and sorting, the encodings |
| `Json`, `JsonRoundTrip`, `JsonPrefix`, `ExactJson` | `json.dumps` and `json.loads` (RFC 8259) with all escapes and surrogates |
| `Framing` | the receive loops of `server/server.py` |
| `Paths`, `Regexes`, `Names`, `FileTree`, `OutputFiles`, `Manifest` | `implementations/output_files.py` |
| `Cbor`, `Cose` | the local COSE_Sign1 document (RFC 8949, RFC 8152) |
| `Proof`, `Binding` | the execution proof and its verifier |
| `Requests`, `Responses` | requests and responses as JSON on the wire |
| `SessionStore`, `Decrypt` | the key pair manager (a class) and hybrid decryption |
| `Protocol`, `ProtocolInvariant`, `ProtocolSteps` | the system of request threads, purge thread and clock, its invariant, one lemma a step |
| `ManagerRefines` | the manager object, played step by step, is the protocol's store |
| `Runs`, `AttestedRuns`, `ReusedIds` | theorems over all runs |
| `Services`, `Scenarios` | what each request is answered, step by step and from arrival to end |
| `Tdx` | the TDX commitment and the Go quote helper |
| `ZipBundle` | the checks before a bundle is extracted |

## How the system is modelled

- A hash is a parameter `h: Bytes -> Digest` with no assumed property. Binding results end in "equal, or here is a pair of
  inputs that collide".
- RSA-OAEP and AES-GCM are parameters `unwrap` and `unseal` with no assumed property.
- Text is a sequence of code points with surrogates allowed, as in Python. This matters: `json.dumps` prints an adjacent
  surrogate pair and the character it spells alike, so a string comes back from its JSON exactly when it holds no such pair.
  `JsonRoundTrip.RoundTripExactly` and `Proof.ProofRoundTrip` state this both ways; rule-abiding file names, hex digests,
  session ids and strings read from a request (`JsonRoundTrip.ReceivedIsClean`) never hold one.
- The protocol is a transition system. Each access to the session dictionary under its lock is one step; a thread keeps a
  program counter and locals; the purge reads the clock in one step and removes in another; the clock moves forward by any
  amount at any time; a log records what happened. A run is any sequence of enabled steps from the start. Session ids are
  drawn as four bytes with no check, as in the source, and freshness (`FreshIds`) is a hypothesis of the theorems that need it,
  never a restriction on steps.
- A socket is a peer: what it sends, how the network cuts it (any size at any position), and whether it then closes or keeps the
  connection open and waits. A read past what was sent ends the stream in the first case and times out in the second.
- The directory tree may change between the walk and each read: `at(k)` is the tree at the k-th opening.

## Main results

1. **Key agreement.** On every run with fresh ids, each execution opened both payloads with the one private key stored when its
   session was created, fetched while live and before any removal, and every public key shown for that id is that session's
   (`Runs.KeyAgreement`). Without fresh ids the two payloads were opened under one creation exactly when the id was not drawn again
   between the two fetches (`Runs.AgreementExactly`), and there is a run where it was (`ReusedIds.ReusedIdSplitsKeys`).
2. **Sessions removed after use, at most one execution for non-overlapping requests, purge transparency, attestation scope** over
   every run (`Runs.OneShot`, `Runs.DisjointExecutionsDiffer`, `Runs.PurgeTransparency`, `AttestedRuns.AttestationScope`, `AttestedRuns.ProofDescribesRun`).
3. **End-to-end binding.** Every attested response is accepted by a verifier that rebuilds the manifest from the response files in
   any order, and anything else accepted against the same user data is the same or a collision (`AttestedRuns.ResponseBinds`);
   framed, sent, received and decoded it arrives whole (`Responses.ResponseReachesVerifier`). None of this is vacuous: every
   successful run with encodable output and a readable nonce is attested (`Services.SuccessIsAttested`), and from every
   reachable state an undisturbed request for a live session gets there (`Scenarios.ExecutionServed`).
4. **Exact bytes.** Manifest, proof, CBOR document, length-prefixed pre-image and frames all have proved inverses, and the bytes
   that are hashed or signed are written out without the printer (`ExactJson.CanonicalBytes`, `ExactJson.ProofText`,
   `Cose.SigStructureBytes`, `Cose.PayloadText`).
5. **Exact collection.** The stack walk, the opener and the budgeted read succeed exactly when they should and return every file
   once and whole, whatever the listing order.
6. **Fragmentation.** Framed requests are read the same whatever the cutting. A raw object text gives the same JSON value whatever the
   cutting, with only whitespace ever left unread (`Framing.RawReceive`); it is returned byte for byte under every cutting exactly
   when it ends in its brace or its object lies within the first four bytes (`Framing.SameForEveryCutting`), and a peer that keeps
   the connection open is answered under every cutting exactly when the text ends in its brace and has more than four bytes, or
   fills the limit (`Framing.NeverWaits`).

## Where the code does not do what one might expect

- A session id drawn twice replaces a live session (`ReusedIds.ReusedIdSplitsKeys`), and cleanup by id can delete the live session of
  another request (`ReusedIds.LateCleanupRemovesNewSession`). A cleanup removes the session whose key its own run used exactly when
  the id was not drawn again between that run's ZIP fetch and the cleanup (`Runs.CleanupRemoves`).
- Sessions are one-shot only between requests that do not overlap: with fresh ids, two overlapping requests for one session can both
  be executed (`ReusedIds.OverlappingExecutions`). Two executions of one id each fetched their keys before the other's deletion
  (`Runs.ExecutionsOfOneId`), so executions whose spans from ZIP fetch to deletion are disjoint are of different sessions
  (`Runs.DisjointExecutionsDiffer`).
- Whitespace after a raw request shows how it was cut: for `{"a":1}` and a newline, byte by byte the newline is not read; with brace
  and newline in one piece it is, if the peer closes, and otherwise the request times out (`Framing.NewlineShows`,
  `Framing.TrailingWhitespaceShows`). A raw request of exactly four bytes is never answered on an open connection.
- With a limit raised above 0x7B000000, frames of 0x7B000000 to 0x7BFFFFFF bytes are taken for raw JSON; the default limit
  excludes them (`Framing.FrameRoundTrip`, `Framing.DefaultLimitIsUnambiguous`).
- The TDX commitment does not say which of its slots was left out (`Tdx.AbsentSlotMoves`), although its comment speaks of avoiding
  ambiguity; it is unambiguous about the list of present chunks (`Tdx.PreimageUnambiguous`).
- The ZIP containment test refuses everything when the destination is `/` (`ZipBundle.ContainmentTest`).

## Model

| member | source | states |
|---|---|---|
| `Runs.RunInv` | implementations/request_handler_impl.py:40-233 | every state of every run, under any interleaving, meets the invariant: dictionary equal to what the log tells, every event justified by earlier ones, every thread holding only data decrypted with its own fetched keys |
| `ProtocolSteps.InvStep` | implementations/request_handler_impl.py:105-233 | each of the five kinds of step (tick, purge read, purge, arrival, a thread's step at any program counter) keeps the invariant |
| `Runs.RunExtends` | server/server.py:39-57 | any step enabled at the end of a run extends it to a run |
| `Runs.RunContinues` | server/server.py:39-57 | no run is stuck: at its end time can pass and every request that has not ended can take its next step |
| `Runs.ThreadsEnd` | implementations/request_handler_impl.py:105-233 | on every run, the steps a request thread has taken and the most it can still take make at most seven, and nobody else moves it |
| `Runs.KeyAgreement` | implementations/request_handler_impl.py:127-157 | with fresh ids: one creation of the session, both payloads opened with its private key, each fetch live and before any removal, every public key ever fetched for the id is that session's |
| `Runs.AgreementExactly` | implementations/keypair_manager_impl.py:78-108 | without fresh ids: each payload was opened with the latest creation's key, and both creations are the same if and only if the id was not drawn again between the fetches |
| `ReusedIds.ReusedIdSplitsKeys` | implementations/keypair_manager_impl.py:78-108 | for any two keys under one id and any payloads they open, a reachable state whose execution used the first key for the ZIP and the second for the CSV |
| `Runs.FetchSeesLatest` | implementations/keypair_manager_impl.py:191-215 | every fetched key, public or private, is that of the latest creation of the id, not removed since and live at the time |
| `Runs.PurgeTransparency` | implementations/keypair_manager_impl.py:45-56 | lookups now or later answer as a store that knows only creations and explicit deletions would, wherever purges (with a stale clock reading too) and lazy removals fell |
| `Runs.RemovalIsFinal` | implementations/keypair_manager_impl.py:169-207 | after a removal of an id a key is fetched for it only if the id was created again in between, and never if ids are fresh |
| `Runs.OneShot` | implementations/request_handler_impl.py:159-233 | an executing thread that ended deleted its session in between, whether the script, the nonce or the attestation failed; afterwards a key is fetched for the id only if it was drawn again, and never if ids are fresh |
| `Runs.FetchAfterRemoval` | implementations/keypair_manager_impl.py:169-207 | without fresh ids: a key fetched after a removal is that of a session created strictly between the two |
| `ReusedIds.LateCleanupRemovesNewSession` | implementations/request_handler_impl.py:153-161 | a reachable state in which one request's cleanup deleted the live, unused session another had just created under the same id |
| `Runs.CleanupRemoves` | implementations/request_handler_impl.py:159-161 | without fresh ids: a cleanup takes exactly the latest creation of the id, and that is the session its own run used if and only if the id was not drawn again between the run's ZIP fetch and the cleanup |
| `Runs.ExecutionsOfOneId` | implementations/request_handler_impl.py:127-161 | of two executions of one id each fetched its keys before the other's deletion, or the id was drawn again in between |
| `Runs.DisjointExecutionsDiffer` | implementations/request_handler_impl.py:127-161 | on every run with fresh ids, executions whose spans from ZIP fetch to deletion do not overlap are of different sessions |
| `ReusedIds.OverlappingExecutions` | implementations/request_handler_impl.py:127-161 | a reachable state with fresh ids in which two overlapping requests executed one session |
| `ManagerRefines.Serve` | implementations/keypair_manager_impl.py:45-215 | at every step from a state that meets the invariant, running the manager's methods keeps its dictionary equal to the protocol's store, and the key they return is the key the protocol logs |
| `ManagerRefines.StepCalls` | implementations/request_handler_impl.py:76-161 | which manager call each step of a thread makes, that the step's whole effect on the store is that call's, and that its reply is what is logged |
| `Runs.ExecutedThenDeleted` | implementations/request_handler_impl.py:153-161 | between an execution and the end of its request stands the deletion of that very session |
| `Runs.FetchedBeforeRemoval` | implementations/request_handler_impl.py:127-157 | in overlapping runs too, every execution fetched its keys before the first removal of its session |
| `Runs.SequentialRunsExecuteOnce` | implementations/request_handler_impl.py:153-161 | when requests do not overlap, two executions of one session id are the same execution |
| `Services.OtherSteps` | implementations/keypair_manager_impl.py:45-56 | the clock moves forward; a purge reads the clock and later removes exactly the sessions as old as their lifetime at that reading; a request arrives |
| `Services.RefusedEnds` | implementations/request_handler_impl.py:235-258 | a request without its job id, session id or payload, a session attestation that brings user data, and a key size other than 2048, 3072 or 4096 end in one step without success and without touching anything |
| `Services.MissingSessionEnds` | implementations/keypair_manager_impl.py:195-207 | a lookup that finds no session, or one as old as its lifetime, ends the request and drops the old one |
| `Services.UnopenedEnds` | implementations/request_handler_impl.py:127-151 | a payload that does not open ends the request before anything runs |
| `Services.SuccessIsAttested` | implementations/request_handler_impl.py:163-225 | a successful run with encodable output and a readable nonce appends exactly its attestation, whose proof states the run, and success; with output that cannot be encoded success alone; with an unreadable nonce failure alone |
| `Services.KeyIsAttested` | implementations/request_handler_impl.py:340-419 | a shown key ends a generation with success, is attested by its hash for a proxy, and by the written-out record of key and id for a session attestation, which brought no user data |
| `Scenarios.ExecutionServed` | implementations/request_handler_impl.py:105-233 | from every reachable state, an undisturbed execution request for a live session logs exactly its fetches, run, deletion and end, with the attestation where one is due |
| `Scenarios.ProxyAttested` | implementations/request_handler_impl.py:338-371 | from every reachable state, a proxy request stores what was drawn for it and ends with the hash of that key attested |
| `Scenarios.SessionAttested` | implementations/request_handler_impl.py:405-424 | from every reachable state, a request to attest a live session ends with the record of its key and id attested |
| `AttestedRuns.AttestationScope` | implementations/request_handler_impl.py:344-419 | all attested user data is the hash of a key fetched for an id the same request drew, the record of a session live at lookup by a request that brought no user data, or the proof of a run that succeeded |
| `AttestedRuns.ProxyAttestsItsOwnKey` | implementations/request_handler_impl.py:340-371 | with fresh ids the attested hash is that of the key this very request generated |
| `AttestedRuns.SessionRecordReads` | implementations/request_handler_impl.py:405-410 | the attested session record reads back as its key and id if and only if neither holds a surrogate pair |
| `AttestedRuns.ProofDescribesRun` | implementations/request_handler_impl.py:163-189 | the attested proof, parsed, states the run: session id, hashes of the opened ZIP and CSV, of the output and of the manifest, time, context, nonce and its source |
| `AttestedRuns.WireContextIsAttested` | implementations/request_handler_impl.py:172-188 | for a request that came over the wire the context in the attested proof is the caller's, character for character |
| `AttestedRuns.ResponseBinds` | implementations/request_handler_impl.py:176-225 | on every run, an attested response is accepted with its files in any order, and any other accepted output or files are equal or give a collision |
| `Responses.ResponseReachesVerifier` | implementations/request_handler_impl.py:197-225 | on every run, a client that reads the framed response of an attested execution gets that run's output and files whole, and they are accepted |
| `Responses.WireRoundTrip` | server/server.py:183-188 | printing, framing, receiving, parsing and base64-decoding a response gives back its output and files |
| `Responses.ResponseFields` | implementations/request_handler_impl.py:197-222 | every field of the response dictionary: success, output, files, manifest digest, session id, enclave proof, timing, attestation |
| `Responses.FileFields` | implementations/request_handler_impl.py:200-208 | every field of a file in it |
| `Responses.ResponseReads` | implementations/request_handler_impl.py:197-217 | a reader of the response dictionary finds the output and every file's name and encoded content |
| `Requests.ExecuteReads` | implementations/request_handler_impl.py:114-118 | reading an execution request out of its JSON gives that request, with every optional field present or absent |
| `Requests.KeyRequestsRead` | implementations/request_handler_impl.py:56-66 | which texts ask for a key and for a key attested to a proxy, with the key size given or 2048 |
| `Requests.AttestationReads` | implementations/request_handler_impl.py:252-256 | which text asks for a session attestation, and that any user data in it is noticed |
| `Requests.HarmlessReads` | implementations/request_handler_impl.py:61-70 | the two harmless operations; any other operation, none, and what is no dictionary are errors |
| `Requests.NullIsAbsent` | implementations/request_handler_impl.py:118-174 | an optional field that is null counts as absent |
| `Requests.LastWins` | implementations/request_handler_impl.py:451-454 | of repeated keys the last one counts |
| `Requests.ExecuteArrives` | implementations/request_handler_impl.py:40-60 | a printed execution request is delivered whole by the raw path under every cutting, open connections included, and by the framed path with anything after it, and the handler reads the same request from it |
| `Requests.WireContextIsClean` | implementations/request_handler_impl.py:451-457 | the context of a request read from the wire holds no surrogate pair |
| `Binding.GenuineAccepted` | implementations/request_handler_impl.py:176-211 | a verifier that rebuilds the manifest from the base64 response files accepts every genuine proof, for all strings |
| `Binding.AcceptanceBinds` | implementations/output_files.py:131-157 | two outputs or name-to-content maps with rule-abiding names accepted against one proof are equal, or the outputs, the canonical bytes or two contents collide |
| `Binding.RebuildIgnoresOrder` | implementations/output_files.py:141-147 | files received in any order rebuild the same manifest |
| `Binding.CollectionQualifies` | implementations/output_files.py:119-138 | whatever collection returns has distinct rule-abiding names and describes its own contents, as the binding results need |
| `Binding.GenuineDocumentAccepted` | implementations/local_attestation_service.py:204-253 | a verifier starting from the bytes of a local document reaches the same user data and accepts |
| `Proof.CreateExecutionAttestation` | implementations/attestation_service_impl.py:312-347 | the branch by branch construction gives the bytes and nonce of `ProofOf`, or fails exactly when the output is not encodable |
| `Proof.ProofReadsAs` | implementations/attestation_service_impl.py:313-341 | parsing the sorted-key JSON of any proof recovers every field and which optional ones are present, surrogate pairs read as characters |
| `Proof.ProofRoundTrip` | implementations/attestation_service_impl.py:313-341 | the very proof comes back if and only if no string in it holds a surrogate pair |
| `Proof.ProofBytesInjective` | implementations/attestation_service_impl.py:313-341 | equal bytes mean equal proofs, up to surrogate pairs |
| `Manifest.ManifestRoundTrip` | implementations/output_files.py:150-152 | a parser recovers every manifest of any length and sizes from its canonical bytes |
| `Manifest.CanonicalBytesInjective` | implementations/output_files.py:150-152 | different manifests have different canonical bytes |
| `ExactJson.CanonicalBytes` | implementations/output_files.py:150-152 | the bytes that are hashed, without the printer: `[`, each entry as `{"name":"...","sha256":"...","size":n,"type":"..."}`, single commas between, `]` |
| `ExactJson.ProofText` | implementations/attestation_service_impl.py:313-341 | the bytes of the proof, without the printer: its lines in key order, comma and space between, in braces |
| `ExactJson.EscapesRead` | implementations/request_handler_impl.py:451-457 | how each short escape is read |
| `ExactJson.StringRefused` | implementations/request_handler_impl.py:451-457 | a string with a bare control character, another escape or no end is refused |
| `ExactJson.NumberRefused` | implementations/request_handler_impl.py:451-457 | a leading zero stands alone, and a sign needs a digit |
| `ExactJson.ListRefused` | implementations/request_handler_impl.py:451-457 | a list with something other than comma or bracket after an item, or a trailing comma, is refused |
| `ExactJson.MembersRefused` | implementations/request_handler_impl.py:451-457 | a dictionary with a key that is no string, no colon, something other than comma or brace, or a trailing comma is refused |
| `ExactJson.DocumentRefused` | implementations/request_handler_impl.py:451-457 | a document with anything but whitespace after its value is refused |
| `ExactJson.Escapes` | implementations/attestation_service_impl.py:341 | every escape of a character, in numbers |
| `Manifest.ManifestOfFiles` | implementations/output_files.py:141-147 | the entries are exactly those of the files, field by field, in strict name order |
| `Manifest.EntryKeyOrder` | implementations/output_files.py:143-152 | the sorted keys of an entry are name, sha256, size, type |
| `Manifest.EntryBytes` | tests/test_output_files.py:34-39 | the exact bytes of an entry: these four fields, compact separators, decimal size |
| `Manifest.EmptyManifest` | implementations/output_files.py:155-157 | no files give the two bytes `[]` |
| `OutputFiles.Walk` | implementations/output_files.py:57-79 | succeeds if and only if every non-directory is a regular file with a valid name and the count is within the limit; returns every file with its size exactly once; a failure names a real culprit |
| `FileTree.FilesAreTheReachableFiles` | implementations/output_files.py:57-79 | the files found are exactly the regular files that path lookup reaches, with their contents |
| `FileTree.FilesDistinct` | implementations/output_files.py:57-79 | no name is found twice |
| `FileTree.AdmissibleIsGood` | implementations/output_files.py:64-75 | in an accepted tree every non-directory at any path is a regular file with a valid name |
| `FileTree.Culprit` | implementations/output_files.py:67-75 | a refused tree has a path at which that fails |
| `FileTree.ReorderedSame` | implementations/output_files.py:63-64 | permuting the listings of a tree in any way at every depth leaves a well-formed tree in which every lookup finds the same |
| `OutputFiles.AnyListingOrder` | implementations/output_files.py:57-138 | so the walk accepts alike, and collection succeeds alike and returns the same files, for any two listing orders |
| `FileTree.ReorderedListing` | implementations/output_files.py:63-64 | listing a directory in another order gives the same tree |
| `FileTree.ListingOrderIndependent` | implementations/output_files.py:57-79 | the same tree listed in any order is accepted alike and gives the same sorted files |
| `OutputFiles.OpenNofollow` | implementations/output_files.py:82-97 | the descent by descriptors opens exactly what resolving the split name gives, refusing links at every segment |
| `OutputFiles.WalkedNamesOpen` | implementations/output_files.py:65-97 | in an unchanged tree each found name opens the file the walk saw |
| `OutputFiles.ReadFiles` | implementations/output_files.py:119-138 | succeeds if and only if all names open and the contents as read fit the budget; each file is complete; every read asks for at least one byte |
| `OutputFiles.CollectOutputFiles` | implementations/output_files.py:100-138 | the whole collection, whatever happens to the tree between walk and reads: missing directory, not a directory, exact success condition, complete contents in name order |
| `OutputFiles.CollectedNames` | implementations/output_files.py:74-121 | collected names obey the rule and differ from each other |
| `OutputFiles.StillTree` | implementations/output_files.py:100-138 | with no interference collection succeeds exactly when the walk accepts and the sizes fit, and returns all files |
| `OutputFiles.CollectionIgnoresListingOrder` | implementations/output_files.py:100-138 | two listing orders make collection succeed alike and return the same files |
| `Names.RuleIsRegex` | implementations/output_files.py:30-47 | the compiled pattern matches exactly the names that split into 1 to 5 segments obeying the segment rule |
| `Names.ValidNameAscii` | implementations/output_files.py:32-47 | valid names are ASCII |
| `Names.TypeTable` | implementations/output_files.py:19-54 | the type of each of the seven extensions in any case, and of every other |
| `Names.RuleInNumbers` | implementations/output_files.py:30-47 | the rule in numbers: 255 characters, 1 to 5 segments of 1 to 100 characters, and which characters |
| `Names.TypeFromLastSegment` | implementations/output_files.py:50-54 | the type depends on the text after the last dot of the last segment alone |
| `Paths.SplitJoin` | implementations/output_files.py:65-84 | splitting undoes joining for slash-free segments |
| `Paths.JoinSplit` | implementations/output_files.py:82-91 | joining undoes splitting for every text |
| `Ordering.StrictSortedUnique` | implementations/output_files.py:121-147 | a strictly sorted list is determined by its members |
| `Ordering.LessIs` | implementations/output_files.py:121-147 | the order of names: smaller code point at the first difference, a proper front part first |
| `Ordering.SortStrict` | implementations/output_files.py:121-147 | sorting distinct names gives a strictly increasing list |
| `Ordering.SortPermutes` | implementations/output_files.py:121-147 | sorting keeps the items, with multiplicity |
| `JsonRoundTrip.RoundTripExactly` | implementations/output_files.py:150-152 | reading undoes printing, in compact and spaced style, for nested values of any size, if and only if no string holds a surrogate pair |
| `JsonRoundTrip.FixedNotation` | implementations/request_handler_impl.py:127-216 | a whole part, a point and digits, as timings are written, is the text of a float as `RoundTripExactly` needs it |
| `JsonRoundTrip.LoadsDumps` | implementations/attestation_service_impl.py:341 | any printed value reads back as itself with surrogate pairs merged into the characters they spell |
| `JsonRoundTrip.SurrogatePairPrintsAsOneCharacter` | implementations/attestation_service_impl.py:341 | a surrogate pair and the one character it spells print alike: the strings that cannot be told apart |
| `JsonRoundTrip.ReceivedIsClean` | implementations/request_handler_impl.py:451-457 | a request decoded from UTF-8 and read as JSON holds no surrogate pair in any key or string, at any depth |
| `JsonRoundTrip.DumpsPrintable` | server/server.py:186 | printed JSON is printable ASCII |
| `JsonPrefix.ObjectIsPrefixFree` | server/server.py:160-167 | a document that extends an object document adds only white space and reads the same |
| `JsonPrefix.ObjectThenWhitespace` | server/server.py:160-167 | an object document is an object up to its brace followed by whitespace, and the object alone reads the same |
| `Framing.NoEarlyEnd` | server/server.py:160-167 | no proper front part of an object text that ends in its brace is a complete document |
| `Framing.StopIsObjectEnd` | server/server.py:160-167 | the end of the object is the only position at which the raw loop can stop early |
| `Framing.RecvExact` | server/server.py:173-181 | for every fragmentation: exactly the next `n` bytes, or nothing at the end of the stream, by close or by timeout |
| `Framing.RecvRawJson` | server/server.py:148-171 | the loop over pieces computes `RawResult`: where it ends, when it waits for more, timeout and decoding error |
| `Framing.RawReceive` | server/server.py:148-171 | for every cutting of an object text of 4 bytes up to the limit: the whole text or the object alone is read, the JSON value is the same, only whitespace stays unread, and exactly when the loop asks for more |
| `Framing.SameForEveryCutting` | server/server.py:148-171 | every cutting returns exactly the text sent if and only if it ends in its brace or its object lies within the first four bytes |
| `Framing.NeverWaits` | server/server.py:153-165 | no cutting makes the loop ask for more than was sent if and only if the text ends in its brace and has more than four bytes, or fills the limit |
| `Framing.TrailingWhitespaceShows` | server/server.py:160-167 | for every object of more than four bytes and whitespace after it, three peers that get three different results |
| `Framing.NewlineShows` | server/server.py:160-167 | the concrete case of an object and a newline |
| `Framing.RecvRequest` | server/server.py:110-146 | for every cutting: framed input is read as the frame says with every error case; a raw object text gives its value if the peer closes, and comes back byte for byte, also on an open connection, if it ends in its brace and has more than four bytes |
| `Framing.FrameRoundTrip` | server/server.py:183-188 | receiving undoes sending, consumes 4+n bytes and leaves what follows; the header looks like raw JSON if and only if its top byte is 0x7B |
| `Framing.FrameErrors` | server/server.py:113-146 | each refusal of the framed path: short header, zero and oversize length, body that stops early by close or timeout, body that is not UTF-8 |
| `Framing.DefaultLimitIsUnambiguous` | config.py:11 | under the default limit no accepted frame looks like raw JSON |
| `Framing.ResponseSurvives` | server/server.py:183-188 | a framed response reaches a reader of frames as the same JSON value |
| `Cbor.RoundTrip` | implementations/local_attestation_service.py:224-253 | every item that fits decodes from its encoding with what follows untouched |
| `Cbor.ShortestHead` | implementations/local_attestation_service.py:224-253 | every head is the shortest, in numbers |
| `Cose.PayloadText` | implementations/local_attestation_service.py:204-224 | the payload byte for byte: six entries and the optional ones in the order they are filled in |
| `Cose.SigStructureBytes` | implementations/local_attestation_service.py:226-235 | the signed bytes written out: 84, "Signature1", the header A1 01 38 22, an empty string, the payload |
| `Cose.GenerateLocalAttestation` | implementations/local_attestation_service.py:204-253 | the written-out document over the written-out payload, signed over the written-out structure, r before s, or an error when r or s does not fit |
| `Cose.DocumentBinds` | implementations/local_attestation_service.py:204-253 | decoding the written-out document gives back user data, nonce and public key with absence preserved, both integers, and the parts from which the signed bytes are rebuilt |
| `Cose.SignatureRoundTrip` | implementations/local_attestation_service.py:240-242 | 48+48 big-endian bytes recover r and s below 2^384 |
| `Hex.RoundTrip` | implementations/output_files.py:155-157 | decoding undoes hex encoding |
| `Hex.DigitsOf` | implementations/output_files.py:155-157 | each byte gives its high and low digit, lower case |
| `Hex.FromHexReads` | implementations/request_handler_impl.py:172-173 | the nonce's reader: plain hex like any other, whitespace between bytes skipped, a lone digit or anything else refused |
| `Hex.DecodesExactly` | tdx/tdquote/main.go:35 | decoding succeeds exactly on an even number of hex digits |
| `Base64.RoundTrip` | implementations/request_handler_impl.py:204 | decoding undoes base64 for all lengths |
| `Base64.Alphabet` | implementations/request_handler_impl.py:204 | the alphabet |
| `Base64.Groups` | implementations/request_handler_impl.py:204 | six bits at a time from the top, with padding |
| `Utf8.CharacterBytes` | implementations/attestation_service_impl.py:320 | the four encoded lengths in numbers |
| `Utf8.DecodesOnlyEncodings` | server/server.py:137 | whatever decodes is the encoding of what it decodes to: nothing overlong, no surrogate |
| `Utf8.RoundTrip` | implementations/attestation_service_impl.py:320 | encoding fails exactly on surrogates and is undone by decoding |
| `BigEndian.RoundTrip` | server/server.py:187 | a number below 256^k comes back from its k bytes |
| `SessionStore.KeyPairManager.constructor` | implementations/keypair_manager_impl.py:25-28 | an empty dictionary with the given lifetime |
| `SessionStore.KeyPairManager.GenerateKeypair` | implementations/keypair_manager_impl.py:58-116 | an allowed key size stores the session under its id, replacing any other; otherwise nothing changes |
| `SessionStore.KeyPairManager.GetValidSession` | implementations/keypair_manager_impl.py:191-215 | the session if present and live; an expired one is removed; nothing else changes |
| `SessionStore.KeyPairManager.GetPublicKey` | implementations/keypair_manager_impl.py:118-134 | the public key of the live session, with the lookup's effect on the dictionary |
| `SessionStore.KeyPairManager.GetPrivateKey` | implementations/keypair_manager_impl.py:152-167 | the private key of the live session, with the lookup's effect on the dictionary |
| `SessionStore.KeyPairManager.DeleteKeypair` | implementations/keypair_manager_impl.py:169-189 | removes the id and tells whether it was there |
| `SessionStore.KeyPairManager.PurgeExpiredSessions` | implementations/keypair_manager_impl.py:45-56 | the loop removes exactly the sessions expired at the given reading |
| `Decrypt.PackedPiecesReturn` | implementations/decrypt_service_impl.py:98-130 | key, nonce and sealed data packed by the coordinator are taken apart at the same places, so decryption is unwrapping then opening |
| `Decrypt.OtherPayloads` | implementations/decrypt_service_impl.py:85-130 | nothing opens without a key or from text that is not base64; a short payload is cut where it ends |
| `Tdx.ReportDataFrom` | implementations/tdx_attestation_service_impl.py:64-73 | the loop hashes the pre-image of the present chunks, and fails exactly when a present chunk has 2^32 bytes or more |
| `Tdx.PreimageRoundTrip` | implementations/tdx_attestation_service_impl.py:67-72 | a parser recovers the present chunks from the pre-image |
| `Tdx.ParsesOnlyPreimages` | implementations/tdx_attestation_service_impl.py:67-72 | whatever the parser accepts is the pre-image of what it returns |
| `Tdx.PreimageUnambiguous` | implementations/tdx_attestation_service_impl.py:64-73 | two calls have the same pre-image if and only if their present chunks are equal |
| `Tdx.SlotsInOrder` | implementations/tdx_attestation_service_impl.py:64-73 | the present slots are fed in their order, an empty one included, an absent one not |
| `Tdx.ChunkBytes` | implementations/tdx_attestation_service_impl.py:71-72 | each chunk after its length in four bytes, most significant first |
| `Tdx.AbsentSlotMoves` | implementations/tdx_attestation_service_impl.py:68-70 | an absent slot may stand anywhere without changing the commitment |
| `Tdx.ReadReportData` | tdx/tdquote/main.go:26-43 | the switch fills the array with the raw or hex-decoded bytes, or fails and leaves it |
| `Tdx.ReceivedExactly` | tdx/tdquote/main.go:32-43 | the exact condition under which the helper accepts its input |
| `Tdx.ReportDataArrives` | implementations/tdx_attestation_service_impl.py:48-56 | any 64 bytes sent as hex, blanks around them or not, arrive as the same 64 bytes |
| `Tdx.GetTdQuote` | implementations/tdx_attestation_service_impl.py:48-62 | exactly the report data of 64 bytes reaches the device, anything else is refused |
| `Tdx.QuotedReportData` | implementations/tdx_attestation_service_impl.py:77-85 | the quote carries the hash of the present slots' pre-image, or there is none because a slot is too long |
| `Tdx.QuoteBinds` | implementations/tdx_attestation_service_impl.py:64-85 | equal report data means equal present slots or a collision |
| `ZipBundle.SafeExtractZip` | implementations/execute_service_impl.py:440-467 | archive entries are handed to extraction if and only if count and size sum are within bounds and every target lies in the destination by components; each error has its exact condition and traversal names the first offender |
| `ZipBundle.ContainmentTest` | implementations/execute_service_impl.py:458-460 | the string test holds if and only if the root's components are a prefix of the target's, except that `/` admits only itself |
| `ZipBundle.EntryTest` | implementations/execute_service_impl.py:458-460 | the test of an entry in terms of components, through joining and resolving |
| `ZipBundle.Segments` | implementations/execute_service_impl.py:459-460 | what each segment does: a plain name goes down, `..` up and stays at the top, `.` and the empty one stay; a real path resolves to itself |
| `ZipBundle.ClimbingEntry` | implementations/execute_service_impl.py:458-461 | a name that climbs out of the destination and comes down elsewhere lands there and is refused, unless it comes back through the same segments |
| `ZipBundle.AbsoluteEntry` | implementations/execute_service_impl.py:458-461 | an absolute name is judged by where it leads |
| `ZipBundle.JoinResolves` | implementations/execute_service_impl.py:459 | resolving the joined path is resolving the name from the resolved directory |
| `ZipBundle.HonestNamesPass` | implementations/execute_service_impl.py:458-461 | a relative name that never goes up passes for any destination but `/` |

## Left out

- RSA, OAEP, AES-GCM, SHA-256, SHA-512, ECDSA and X.509 internals: parameters without assumed laws.
- `/dev/nsm` requests, subprocess execution, ownership and privilege changes, socket creation and logging: operating system calls.
- Framing.RecvRequest: a receive times out exactly where all that was sent has been read and the peer keeps the connection open; a
  peer so slow that a piece comes too late is not modelled.
- `execute_bundle` beyond its contract: a run either fails or returns an output and files of the kind `Binding.CollectionQualifies`
  establishes for collection.
- `validate_script`, monitoring, health and info responses, the factory, configuration parsing, KMS and the legacy decryption methods:
  they would only add easy members.
- TDX `create_execution_attestation` as a protocol step: its parameter names differ from the handler's call.
- Requests.ExecuteReads: a request in which a field the handler uses has another JSON type than it expects has no reading here.
- `base64` and `DER` formats of `get_public_key`: the handler asks for PEM only.
- Decrypt.PackedPiecesReturn: Python's base64 decoder skips characters outside the alphabet; the model's refuses them. The protocol
  results do not depend on which.
- Json.Loads: Python's limits on digits of an integer and on nesting depth are not modelled; a float is its text, not a number.
- Cbor.RoundTrip: big integers and floats are not modelled; no document here holds any.
- Responses.ResponseReachesVerifier: timing and attestation result stand for any values; that Python writes a float as such a text
  (`JsonRoundTrip.FixedNotation` covers fixed notation) is taken for granted.
- OutputFiles.Walk: the walk itself sees one tree; changes during the walk are not modelled, changes between walk and reads are.
- OutputFiles.OpenNofollow: opening a named pipe that replaced a file would block in the source; the model reports it as not regular.
- Names.TypeFromLastSegment: lower-casing is modelled for ASCII, which is all a rule-abiding name can hold.
- Manifest.ManifestRoundTrip: stated for texts without surrogate pairs, which covers every rule-abiding name, digest and table type.
- Runs.KeyAgreement: assumes that no session id is drawn twice; `Runs.AgreementExactly` and `Runs.FetchAfterRemoval` state what
  holds without it. A clock that steps back is outside every run.
- ZipBundle.ContainmentTest: the destination tree is taken to hold no links, so `realpath` is component normalisation.

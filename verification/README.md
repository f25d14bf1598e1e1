# Verification of the CoTE3-Mon monitoring pipeline

A Dafny model of the logic in this repository that has something to prove, with
its proofs. `dafny verify dfyconfig.toml` checks the whole project.

The pipeline has a key-value gateway that clients talk to over a binary socket
protocol, telemetry that is grouped into windows of features, detectors that
score the windows, and an audit log in which every alert gets a receipt that is
chained to the one before by a MAC. The model follows those pieces:

| modules | what they model |
|---|---|
| Bytes, Hex, Json, Orders, Sorting, Wrappers, Entries | octets and byte orders, hexadecimal text and JSON values as Python reads them, sorting, optional results, lists as finite maps |
| Audit, AuditStore, AuditStoreExactness, AuditSessions | the receipt message, the Python store, its verifier, and processes whose saves fail |
| AuditTa, AuditTaRuns | the trusted application as a class over one stored object, and its runs |
| OpteeBackend, OpteeExactness, Monitor | the verifier that asks the trusted application, and batch monitoring |
| Backend | the C linked list on an explicit heap with refusable allocations |
| Protocol, Sockets, Gateway, GatewayServer, Exchange | the codec, the socket code, the C and Python servers, and a client's call |
| Fingerprint | the keyed 64-bit fingerprints |
| Layouts | octets on the wire, under the MAC and in replies, and the names in telemetry, in numbers |
| Forest, ForestLaws | exporting tree depths and scoring with the exported arrays; what the score is |
| Telemetry, Features, FeatureLaws, FeatureExactness, FeatureCounts | the features of a window: bounds, and exact laws by other means than their computation |
| Aggregation, AggregationLaws, AggregationExact | windows and their rows, said of the events alone |
| OnlineMonitor, StreamingLaws, StreamingTheorem, StreamingReadiness | the streaming monitor, its relation to batch aggregation, and when windows are scored |
| Percentile, PercentileLaws, Threshold, AveragePrecision, Split, SplitSizes | calibration, ranking metric, and run-level splitting |

Code that changes state step by step is modelled by methods and classes whose
contracts tie them to functions; what the pipeline promises is then proved about
those functions.

Conventions. Floating-point numbers are mathematical reals. HMAC-SHA256
(section 2 of RFC 2104) and SHA-256 are arbitrary functions with 32-octet
results; since no such function is injective on all messages, the results that
need it assume only that the finitely many messages being compared do not
collide. An alert is identified with its canonical JSON text. A shuffle is any
function that permutes its argument. Failing system calls, refused allocations,
chunk sizes and clocks are parameters or are left to the contract of a method,
so that the theorems hold for every choice of them.

## Findings

Where the code does something other than its purpose suggests, the code is
modelled as it is and the exact condition is proved.

- `AuditStore.verify_chain` compares a record's previous head as text, but
  verify_receipt reads the head itself with `bytes.fromhex`, which skips white
  space and accepts capitals. A changed spelling of a head, repeated where the
  next record names it, is therefore accepted (AlteredCopyAccepted). So are a
  sequence number written 1.0 or true, which Python finds equal to 1, and keys
  that the verifier never reads (RetypedCopyAccepted). On plainly typed and
  spelled records only the issued log is accepted (PlainAcceptsOnlyTheLog).
- The verifier for the trusted application checks the spelling of digests, but
  passes the sequence number through `int()` and the digests through `str()`:
  the text "1", 1.9 and true are accepted for 1, a digest of decimal digits may be
  a JSON integer, and further keys are not seen (OpteeRetypedCopyAccepted). On
  plainly typed records only the issued log is accepted (OpteeAcceptsExactly).
- `AuditStore.append` moves the state in memory before it saves. A failed save
  does harm exactly when its process goes on to save again or to verify; a
  process that ends at once leaves the store consistent with what its callers
  received (ReceivedVerifyIffFailuresForgotten).
- At sequence number 2^64 - 1 the Python store raises and the trusted
  application wraps to zero; everywhere else they agree (AppendAgreesExactly).
- The stratified split keeps runs whole under every shuffle only if no run is
  recorded under two scenarios (NoLeakIffOneScenarioPerRun); the code does not
  check this.
- The streaming monitor silently leaves out a request that arrives for a window
  it has processed. For one run whose requests are read in order of time, that is
  the only way its rows can differ from the batch in their request features
  (StreamingMatchesBatch).

## Model

| member | source | states |
|---|---|---|
| Audit.MessageInjective | optee/audit_ta/ta/entry.c:67-89 | The 113 octets under the MAC determine the sequence number, the previous head, the alert hash and the model hash. |
| Audit.ChainDetermined | cote3mon/audit_store.py:101-118 | Two chains of equal length and equal last head are equal link by link, by induction backwards from the head; only the finitely many messages in play are assumed not to collide. |
| Layouts.MessageLayout | optee/audit_ta/ta/entry.c:67-89 | The message in octets: the nine letters C3MAUDIT1, the number most significant octet first, and the three digests at 17, 49 and 81. |
| Layouts.ChainStartsWithZeros | cote3mon/audit_store.py:16-39 | Every chain starts with number 1 over 32 zero octets. |
| AuditStore.Store.RegisterModel | cote3mon/audit_store.py:50-63 | Once a receipt exists a different model is refused and nothing changes; otherwise the digest is stored. A failed save raises with the file untouched and the memory state already moved on. |
| AuditStore.Store.Append | cote3mon/audit_store.py:65-84 | Issues exactly the next receipt of the state and extends the signed log by it; without a model, or at sequence number 2^64, it raises and changes nothing; a failed save raises but advances the memory state. |
| AuditStore.Store.Persist | cote3mon/audit_store.py:44-48 | The new state goes to a temporary file that then takes the place of the state file: a failure of either step leaves the state file as it was, torn writes included, and a restart reads that file alone. |
| AuditStore.Store.VerifyChain | cote3mon/audit_store.py:101-118 | For records with fields missing, of any JSON type, and with further keys: true exactly for the lists that `Accepts` describes; the only way to raise is to reach a sequence number that does not fit eight octets, at record 2^64. |
| AuditStoreExactness.AcceptsExactly | cote3mon/audit_store.py:101-118 | With the current head required, a record list is accepted if and only if it is the complete issued log in order, up to the spelling of heads, a sequence number written as a float or boolean of its value, an absent empty alert, and keys that are not read. |
| AuditStoreExactness.PlainAcceptsOnlyTheLog | cote3mon/audit_store.py:101-118 | On records with every field in its issued type, heads of 64 lower-case hexadecimal digits and no further key, acceptance means equality with the issued log: any edit, drop, insertion or reordering is rejected. |
| AuditStoreExactness.AlteredCopyAccepted | cote3mon/audit_store.py:101-118 | A limit of that: every log of two or more receipts has a changed copy, a blank put before a head, that is accepted. |
| AuditStoreExactness.RetypedCopyAccepted | cote3mon/audit_store.py:108-113 | Further limits: the first sequence number written 1.0 or true, and any further keys in a record or receipt, are accepted; the text '1' is not. |
| AuditStoreExactness.AcceptsPrefixes | cote3mon/audit_store.py:101-118 | Without the current head, and provided every receipt that verifies was issued, exactly the prefixes of the log are accepted, up to the same spellings. |
| AuditSessions.ReceivedVerifyIffFailuresForgotten | cote3mon/audit_store.py:65-84 | From a store with any log on, through any number of processes and failed saves: the old records and those the callers received verify against the store if and only if no failed save was followed, in its own process, by a successful save or by the verification. |
| AuditSessions.WithinOneProcess | cote3mon/audit_store.py:65-84 | Within one process, whatever log it started from: if and only if no save failed. |
| AuditTa.EncodeU64Be | optee/audit_ta/ta/entry.c:21-26 | The shift loop writes the eight big-endian octets of the value. |
| AuditTa.AuditTa.FillMessage | optee/audit_ta/ta/entry.c:67-89 | The message built by offsets in the buffer is octet for octet the packed message of the Python store. |
| AuditTa.AuditTa.LoadState | optee/audit_ta/ta/entry.c:41-65 | Reads the object, or creates the initial one when there is none; a failing call, the creating save included, leaves the stored object as it was. |
| AuditTa.AuditTa.SaveState | optee/audit_ta/ta/entry.c:28-39 | Replaces the stored object; when the platform's one creating call fails, the object is taken to be as it was. |
| AuditTa.AuditTa.RegisterModel | optee/audit_ta/ta/entry.c:116-132 | The command's reply and stored object are those of `Perform` for every combination of failures, the save that creates the object and the command's own save each on their own. |
| AuditTa.AuditTa.AppendAlert | optee/audit_ta/ta/entry.c:134-169 | The same for appending: the receipt is handed out only when load, MAC and save all succeeded, and the stored head is then its head. |
| AuditTa.AuditTa.GetHead | optee/audit_ta/ta/entry.c:171-193 | The same for reading the head: it reports the stored sequence number and head and changes nothing stored. |
| AuditTa.AuditTa.VerifyReceipt | optee/audit_ta/ta/entry.c:195-215 | The same for verification: success exactly when the MAC is that of the receipt's own fields. |
| AuditTa.StepMatches | optee/audit_ta/ta/entry.c:241-257 | Any command, under any failures, keeps the invariant that ties the stored object to the receipts handed out. |
| Layouts.ShortBufferExactly | optee/audit_ta/ta/entry.c:134-193 | A buffer is refused as short exactly when the octets of the receipt, or of the head, do not fit in it. |
| AuditTaRuns.EveryRunIsOneChain | optee/audit_ta/ta/entry.c:134-169 | Over every run with load, save and MAC allowed to fail, and below 2^64 receipts, those handed out are numbered 1 to n without gaps, each naming the head before it and the first the zero hash, all genuine and all of one model. |
| AuditTaRuns.ModelNeverChanges | optee/audit_ta/ta/entry.c:116-132 | Once a receipt has been handed out, no later command changes the model or the key. |
| AuditTaRuns.LogOnlyGrows | optee/audit_ta/ta/entry.c:134-169 | The receipts of a run's beginning are a prefix of the receipts of the run. |
| AuditTaRuns.RefusedChangesNothing | optee/audit_ta/ta/entry.c:241-257 | A command that reports an error hands out nothing, and the stored object is the old one or, where there was none, the initial one. |
| AuditTaRuns.RegisterAgrees | cote3mon/audit_store.py:50-63 | From equal states, with saves succeeding, the Python store and the trusted application register, or refuse, the same model, with equal states after. |
| AuditTaRuns.AppendAgreesExactly | cote3mon/audit_store.py:65-84 | From equal states, with saves succeeding, they issue the same receipt and move to equal states, or both refuse, if and only if no model is registered or the sequence number is below 2^64 - 1; at 2^64 - 1 Python raises and the C counter wraps to zero. |
| OpteeBackend.OpteeAuditBackend.VerifyReceipt | cote3mon/monitor.py:62-74 | For receipts with fields missing or of any JSON type: true only if the stored key's MAC is that of the fields as int() and str() read them; when no call fails, a receipt the client can read is confirmed exactly in that case; only an infinite sequence number raises. |
| Json.TruncatedIs | cote3mon/monitor.py:62-74 | int() of a finite float cuts off towards zero, by less than one. |
| Json.DecimalSpells | cote3mon/monitor.py:62-74 | str() of an integer is decimal digits that stand for it, after a minus sign when it is negative. |
| Hex.KnownHex | cote3mon/audit_store.py:74-95 | One text written and one read back, with capitals and a blank, in octets. |
| OpteeBackend.OpteeAuditBackend.VerifyChain | cote3mon/monitor.py:76-123 | For such records: whatever calls fail, an accepted list is acceptable; when none fails, acceptance and `OpteeAccepts` coincide. Only an infinite sequence number raises, and the stored object is at most created. |
| OpteeExactness.OpteeAcceptsExactly | cote3mon/monitor.py:76-123 | With the current head required, a list is accepted if and only if it is the complete issued log, up to sequence numbers that int() reads alike, digests of decimal digits written as integers, and keys that are not read; on records of the issued types, if and only if it equals the log. |
| OpteeExactness.OpteeRetypedCopyAccepted | cote3mon/monitor.py:95-109 | The limits of that: the log with its first sequence number as the text '1', as 1.9 or as true, or with any further keys, is accepted. |
| OpteeExactness.EveryRunVerifiesExactly | cote3mon/monitor.py:76-123 | The same after every run of commands of the trusted application, failures included. |
| OpteeExactness.OpteeAcceptsPrefixes | cote3mon/monitor.py:76-123 | Without the head, and provided every receipt that verifies was handed out by the application, exactly the prefixes of the issued log are accepted, up to the same respellings; on records of the issued types, exactly its prefixes. |
| Monitor.MonitorBatch | cote3mon/monitor.py:136-172 | The alerts file holds one record for each row that scores above the threshold, in row order; the store moves as registration and those appends move it; any failure ends the batch. |
| Monitor.FlaggedAreAbove | cote3mon/monitor.py:154-157 | There are as many records as rows that score above the threshold. |
| Monitor.FlaggedInOrder | cote3mon/monitor.py:154-170 | A row above the threshold gives the record at the place that is the number of such rows before it. |
| Monitor.BatchesMatch | cote3mon/monitor.py:136-172 | Over any number of successful batches from a fresh store, each file has one record per alert in order, and the files put end to end are the store's issued log. |
| Monitor.ConcatenatedFilesVerify | cote3mon/audit_store.py:101-118 | Those files put end to end pass verify_chain with the current head. |
| Backend.MockBackend.FindObject | src/gateway/backend_mock.c:14-20 | Returns the node of the key, or null exactly when the map lacks the key. |
| Backend.MockBackend.Put | src/gateway/backend_mock.c:22-53 | For any refused allocation the map is unchanged, the reply is a failure and no block is leaked; otherwise the key maps to the value and every other key is as before. |
| Backend.MockBackend.Get | src/gateway/backend_mock.c:55-66 | Reports not-found, too-small or the stored value with its length; the buffer beyond the value and the map are untouched. |
| Backend.MockBackend.Delete | src/gateway/backend_mock.c:68-83 | Removes exactly the one key through the cursor and frees its three blocks; an absent key changes nothing. |
| Backend.MockBackend.Unlink | src/gateway/backend_mock.c:71-76 | Writing through the pointer to a pointer takes out exactly the element it points at and leaves the list acyclic. |
| Backend.MockBackend.Destroy | src/gateway/backend_mock.c:85-97 | Every live block is freed exactly once, and none remains; freeing a block that is not live is ruled out by a precondition. |
| Backend.ThreeBlocksPerKey | src/gateway/backend_mock.c:14-97 | In every valid state the number of live blocks is two for the store itself and three for each key of the map. |
| Protocol.RequestRoundTrip | cote3mon/protocol.py:43-53 | A valid request followed by anything parses to that request and that remainder. |
| Protocol.ResponseRoundTrip | cote3mon/protocol.py:108-119 | The same for a valid response. |
| Protocol.OnlyEncodingsParse | src/common/protocol.c:96-125 | Whatever the server accepts is the encoding of a valid request, followed by the remainder it leaves. |
| Protocol.AcceptedExactly | src/common/protocol.c:96-125 | The server accepts exactly the streams that begin with a valid request, and reads that request. |
| Protocol.PrefixFree | cote3mon/protocol.py:43-53 | No valid encoding is a proper prefix of another, and a stream can begin with one only. |
| Protocol.ResponsesPrefixFree | cote3mon/protocol.py:62-67 | The same for the encodings of responses. |
| Protocol.ParsersAgree | cote3mon/protocol.py:91-105 | The C and Python parsers accept the same streams with the same result, although C refuses a GET or DELETE value before reading the payload and Python after. |
| Layouts.RequestLayout | cote3mon/protocol.py:43-53 | Magic, version, operation, number and the two lengths, each spelled most significant octet first at its place, then key and value. |
| Layouts.ResponseLayout | cote3mon/protocol.py:62-67 | The same for responses: status at 6, number at 8, length at 16, value from 20. |
| Layouts.RequestLimits | include/cote3_protocol.h:7-17 | In numbers: requests with a key of 1 to 64 octets, a value of at most 4096, and a value only to put, are read back from their octets, and no others are ever read. |
| Sockets.ReadFull | src/common/protocol.c:23-39 | However the stream is chunked, the buffer ends up with exactly the next octets, or the read fails because the peer closed early. |
| Sockets.WriteFull | src/common/protocol.c:41-55 | However writes are cut, exactly the octets offered are written, in order. |
| Sockets.MemoryOfU64 | src/common/protocol.c:8-16 | On a little-endian machine the swapped halves are in memory the big-endian octets of the number. |
| Sockets.SendRequest | src/common/protocol.c:127-143 | Within the length limits the struct is written as the encoding of its request; beyond them it is refused with nothing written. |
| Sockets.RecvRequest | src/common/protocol.c:96-125 | The struct is filled, and the stream consumed, as `ParseRequestC` of the incoming octets says, for every chunking; it fails exactly where the parser does. |
| Sockets.SendResponse | src/common/protocol.c:162-175 | Within the length limit the struct is written as the encoding of its response; beyond it, it is refused with nothing written. |
| Sockets.RecvResponse | src/common/protocol.c:145-160 | A response is received as `ParseResponse` of the incoming octets says, for every chunking. |
| Sockets.RecvExact | cote3mon/protocol.py:79-88 | However the stream is chunked, exactly the next octets are returned, or none when the peer closed early. |
| Sockets.RecvRequestPython | cote3mon/protocol.py:91-105 | The Python server's receive equals `ParseRequestPython` of the incoming octets. |
| Gateway.StepsAgree | cote3mon/mock_gateway.py:94-150 | On one connection with arbitrary octets the C and Python servers give the same store, reply and event. |
| Gateway.GatewaysAgree | cote3mon/mock_gateway.py:94-150 | Over every sequence of connections, allocations granted, both servers' stores, replies and event lists equal the fold of the parsed requests over a map. |
| Gateway.FailedPutChangesNothing | src/gateway/gateway.c:176-203 | A put whose allocation fails is answered BACKEND_ERROR and leaves the map unchanged. |
| Gateway.StoreIsLastAcknowledgedWrite | src/gateway/gateway.c:176-203 | Over every run with any allocations refused, the store holds for each key the last put that was answered OK, unless a delete answered OK came after it. |
| Gateway.StoreIsLastWrite | src/gateway/gateway.c:266-292 | After every run the store holds for each key the value of its last put, unless a delete came after; rejected connections have no effect. |
| Gateway.GetReturnsLastWrite | src/gateway/gateway.c:176-203 | After any traffic, a client that sends a get parses a reply with the last undeleted put, or NOT_FOUND, and never an error. |
| Gateway.AnswerParses | src/gateway/gateway.c:266-292 | Every valid request is answered with a parsable response under its own identifier, OK or NOT_FOUND. |
| Layouts.EventTells | src/gateway/gateway.c:204-242 | The event of a request that was read carries its number and size, PUT, GET or DELETE for the operations 1, 2 and 3, and the name of the status octet of the reply, for any allocations refused. |
| Layouts.RejectionTells | src/gateway/gateway.c:204-288 | Anything that does not parse gets no reply, changes nothing and is logged as REJECT, number 0, PROTOCOL_ERROR, by both servers. |
| GatewayServer.RequestMetrics.Record | src/gateway/gateway.c:108-127 | Appends the latency to those recorded, growing the array by doubling; a refused growth loses this one latency and raises the flag; errors count the statuses that are not OK. |
| GatewayServer.Dispatch | src/gateway/gateway.c:176-203 | On the heap list the status, value and new map are those of `DispatchC`, for every allocation outcome. |
| GatewayServer.ServeOne | src/gateway/gateway.c:278-291 | One connection changes the list's map, the socket and the event exactly as `StepC` says. |
| GatewayServer.Serve | src/gateway/gateway.c:266-292 | The accept loop over any connections equals `RunC`; events and, when growth is granted, latencies each number the accepted connections. |
| GatewayServer.MockGateway.Handle | cote3mon/mock_gateway.py:94-150 | The Python handler changes the dictionary, the socket and the event exactly as `StepPython` says. |
| GatewayServer.MockGateway.ServeAll | cote3mon/mock_gateway.py:77-92 | The Python accept loop equals `RunPython`. |
| Exchange.DeliverRequest | src/common/protocol.c:96-143 | A valid request written on one socket and read on another arrives unchanged, however writes and reads are cut and whatever follows it. |
| Exchange.DeliverResponse | src/common/protocol.c:145-175 | A valid response likewise. |
| Exchange.Call | src/gateway/gateway.c:278-291 | Seen by the client, sending a valid request, the gateway's turn and reading the response are together one operation on the map. |
| Fingerprint.FingerprintUpdate | src/gateway/gateway.c:49-58 | The loop is the fold of the xor-and-multiply step over the octets, modulo 2^64. |
| Fingerprint.KeyedFingerprint | src/gateway/gateway.c:60-73 | The fingerprint is the fold over the request's octet stream, finished with the secret. |
| Fingerprint.StreamDecodes | src/gateway/gateway.c:60-73 | The stream fed to the hash determines the key, or the key, operation and value. |
| Fingerprint.MixInjective | src/gateway/gateway.c:49-58 | For every octet a step is injective on 64-bit states, and different octets lead to different states. |
| Fingerprint.OneOctetAlwaysShows | src/gateway/gateway.c:49-73 | Streams of equal length that differ in exactly one octet never share a fingerprint. |
| Fingerprint.OneValueOctetShows | src/gateway/gateway.c:60-73 | Changing one octet of a request's value always changes the request fingerprint and never the key fingerprint. |
| Fingerprint.XorIsBitwise | src/gateway/gateway.c:49-58 | A bit of the exclusive or, computed by halving, is set exactly when the two words differ in that bit. |
| Fingerprint.KnownFingerprints | src/gateway/gateway.c:49-73 | Three values in numbers that settle the start, the multiplier and the shift of the secret. |
| Fingerprint.KnownStream | src/gateway/gateway.c:60-73 | The octets hashed for one request, written out, with and without its value. |
| Forest.ExportDepths | cote3mon/training.py:151-160 | For arrays that form a binary tree rooted at 0, the stack loop terminates with every node's depth in that tree. |
| Forest.DepthIsDistance | cote3mon/training.py:151-160 | The depth so stored is the length of every downward path from the root to the node, and there is such a path. |
| Forest.Descend | cote3mon/iforest_runtime.py:37-52 | The indexed traversal terminates at the leaf that recursive evaluation of the tree chooses. |
| Forest.RouteIsUnique | cote3mon/iforest_runtime.py:37-52 | A row has one way down: of any two routes the shorter is the beginning of the longer. |
| Forest.RouteToLeafIsUnique | cote3mon/iforest_runtime.py:37-52 | Two routes of a row that end at leaves are the same path. |
| Forest.RouteEndsAtLeafOf | cote3mon/iforest_runtime.py:37-52 | A route that ends at a leaf ends at the recursively chosen leaf, and the exported depth there is the number of steps taken. |
| Forest.PathLengthIsDepthPlusEstimate | cote3mon/iforest_runtime.py:37-52 | The recursive isolation path length splits into the exported depth of that leaf and the estimate for its samples. |
| Forest.Score | cote3mon/iforest_runtime.py:37-52 | The loop over trees computes the score of the recursively defined total path length. |
| Forest.IsolatedSoonerScoresHigher | cote3mon/iforest_runtime.py:37-52 | With a strictly increasing power, one row scores higher than another if and only if its total path is shorter. |
| ForestLaws.RouteFollowsThresholds | cote3mon/iforest_runtime.py:41-48 | At every fork of a row's way the next node is the left child exactly when the row's value, found through the feature map, is at most the threshold. |
| ForestLaws.PathLengthOfRoute | cote3mon/iforest_runtime.py:37-49 | For any route of a row to a leaf, the path length is the number of edges on it plus the expected path of the leaf's samples. |
| ForestLaws.AveragePathLengthIs | cote3mon/iforest_runtime.py:11-18 | The expected path is 0 up to one sample, 1 for two, and for n more 2 (ln(n - 1) + 0.5772156649015329) - 2 (n - 1) / n. |
| ForestLaws.ScoreOfMeanPath | cote3mon/iforest_runtime.py:51-52 | The score is two to minus the mean path over the trees, measured in expected paths of the sample size; 1 when that expected path is zero. |
| ForestLaws.ExpectedPathScoresHalf | cote3mon/iforest_runtime.py:51-52 | A row whose paths average the expected path scores two to the power of -1. |
| ForestLaws.DoubledForestScoresTheSame | cote3mon/iforest_runtime.py:37-52 | A forest put after itself gives every row the score the forest gives. |
| ForestLaws.ScoreIsOneExactly | cote3mon/iforest_runtime.py:51-52 | The score is 1 exactly when the row's total path or the expected path is zero. |
| Orders.Sorted | cote3mon/features.py:108-108 | The items of a set in strictly increasing order, each once, for any total order. |
| Telemetry.BeforeIsTotal | cote3mon/features.py:108-108 | The order of pairs of run and start is a strict total order. |
| Orders.TextLessIsLexicographic | cote3mon/features.py:108-108 | One text is before another exactly when at some place up to which they agree it ends or has the smaller character. |
| Telemetry.SortedByTimeIsSorted | cote3mon/features.py:113-113 | Sorting by time orders the events and keeps each as often as given. |
| Sorting.StableSortedIsSort | cote3mon/features.py:113-113 | For any order given by a key, sorting orders the items, keeps each as often as given, and keeps items of equal key in their order. |
| Features.IdleWithinWindow | cote3mon/features.py:137-145 | For non-negative latencies the idle values of a window add up to at most the time from its first request to its last. |
| Features.CvBound | cote3mon/features.py:177-181 | The squared coefficient of variation of m non-negative values is at most m - 1. |
| Features.IdleCvBound | cote3mon/features.py:177-181 | So a window of n requests has squared idle_cv at most n - 2. |
| FeatureExactness.IdleValueIsGap | cote3mon/features.py:137-144 | An idle value is the time from the end of one request to the start of the next, and zero when that is negative; to half a nanosecond when the latency is not whole, exactly otherwise. |
| FeatureExactness.IdleAndLatencyFillTheSpan | cote3mon/features.py:137-145 | When no request starts before its predecessor has ended and latencies are whole nanoseconds, the mean idle time, times the number of gaps, and the latencies after the first make up the time from the first request to the last. |
| FeatureExactness.RoundIsNearest | cote3mon/features.py:141-143 | The latency in nanoseconds is rounded to the nearest integer, a tie to the even one. |
| FeatureExactness.MeansAreTotals | cote3mon/features.py:157-159 | Mean latency and mean input size, times the number of requests, are the totals. |
| FeatureExactness.IdleMeanIsTotal | cote3mon/features.py:145-145 | Mean idle time, times the number of gaps, is the sum of the idle values. |
| FeatureExactness.InputMaxIsLargest | cote3mon/features.py:160-160 | The largest input size is that of some request, and no request's is larger. |
| FeatureExactness.P95IsLinear | cote3mon/features.py:158-180 | The 95th percentiles of latency and idle time lie on the line between the ordered values at the ranks around 0.95 (n - 1). |
| FeatureExactness.P95OfOne | cote3mon/features.py:158-180 | Of one latency or one idle value it is that value, and of no idle value zero. |
| FeatureExactness.IdleCvIs | cote3mon/features.py:177-181 | With sum S of n idle values, squared idle_cv times S squared is n times the sum of their squares less S squared; it is zero for fewer than two values or a sum of zero. |
| FeatureCounts.RatiosAreCounts | cote3mon/features.py:152-155 | Each operation ratio, times the number of requests, is the number of requests with that operation. |
| FeatureCounts.ErrorsAndRateAreCounts | cote3mon/features.py:151-156 | Error ratio times the number of requests is the number of those whose result is not OK; rate times the window's seconds is the number of requests. |
| FeatureCounts.ReuseRatiosAreCounts | cote3mon/features.py:166-175 | Each reuse ratio, times the number of requests that carry the fingerprint, is that number less the number of different fingerprints. |
| FeatureCounts.TransitionRatioCounts | cote3mon/features.py:131-136 | The transition ratio, times the number of neighbours, is the number of places where the operation changes; zero for a single request. |
| FeatureCounts.RowOfBucketIs | cote3mon/features.py:119-149 | A row takes its scenario and its label from the first given of the bucket's earliest requests. |
| FeatureLaws.OperationRatios | cote3mon/features.py:152-155 | Each operation ratio is 0 exactly when no request has its operation and 1 exactly when all have; together they add up to at most 1, and to 1 exactly when every request has one of the four operations. |
| FeatureLaws.ErrorRatioMeans | cote3mon/features.py:156-156 | The error ratio is 0 exactly when every request succeeded and 1 exactly when none did. |
| FeatureLaws.ReuseRatios | cote3mon/features.py:166-175 | The two reuse ratios lie in [0, 1); the first is 0 exactly when no key fingerprint present in the window occurs twice, the second likewise for request fingerprints. |
| FeatureLaws.TransitionRatioMeans | cote3mon/features.py:131-136 | The transition ratio is 0 exactly when the operation never changes and 1 exactly when it changes every time. |
| FeatureLaws.InputsWithin | cote3mon/features.py:159-160 | The mean input size lies between the smallest and the largest, and the largest is that of some request. |
| FeatureLaws.LatenciesWithin | cote3mon/features.py:157-158 | Mean and 95th percentile latency lie between any bounds on the latencies. |
| FeatureLaws.ResourcesWithin | cote3mon/features.py:161-165 | The two resource means of a row lie between any bounds on its window's resource samples. |
| FeatureLaws.IdleMeanWithinSpan | cote3mon/features.py:145-145 | The mean idle time is at least zero and at most the span of the window divided among its gaps. |
| Aggregation.AggregateEvents | cote3mon/features.py:81-184 | The three loops return the rows of `Aggregate`; a window that is not positive, or a negative warm-up, raises. |
| AggregationLaws.FirstRequestIsEarliest | cote3mon/features.py:89-95 | A run's first request is the earliest of its requests, and there is one exactly when the run has a request. |
| AggregationLaws.ExactlyOneWindow | cote3mon/features.py:98-105 | A retained event is in the bucket of exactly one window, as often as given, and start <= ts < start + window there; other events are in none. |
| AggregationLaws.RowsExact | cote3mon/features.py:107-184 | There is a row exactly for the windows in which a retained request falls, made from that window's bucket, in strictly increasing order of run and start. |
| AggregationLaws.RequestsAreConserved | cote3mon/features.py:98-151 | Request rate times window, summed over a run's rows, is the number of its requests at or after its first request plus the warm-up. |
| AggregationLaws.OrderDoesNotMatter | cote3mon/features.py:81-184 | When no two requests of a run share a timestamp, any permutation of the input gives the same rows. |
| AggregationExact.RowsAreExact | cote3mon/features.py:98-184 | Every row is computed from all requests, in order of time, and all resource samples of its run that lie in [start, start + seconds * 10^9), a multiple of that length, and are past the warm-up after some request of the run, each as often as given, and from nothing else; its resource means are the totals shared out among those samples, or zero. |
| AggregationExact.RowHasRequest | cote3mon/features.py:107-112 | To every row's window at least one of those requests belongs. |
| AggregationExact.RequestHasRow | cote3mon/features.py:98-184 | Every window to which one of those requests belongs has a row. |
| AggregationExact.RowsInOrder | cote3mon/features.py:108-108 | Rows are in order of the run's text, character by character, and within a run of the start; no window has two. |
| OnlineMonitor.Monitor.Ingest | scripts/guest-online-monitor.py:71-93 | The lines move the monitor as `Read` says, and the count is that of the lines kept. |
| OnlineMonitor.Monitor.ScoreReadyWindows | scripts/guest-online-monitor.py:95-128 | Exactly the unprocessed windows whose end and grace have passed (or all, when forced) are scored, in order of start; the recorded alerts stay the scored rows above the threshold. |
| OnlineMonitor.Monitor.Watch | scripts/guest-online-monitor.py:130-142 | The loop stops at the first turn with three quiet turns since the done file appeared, and the state is then that of all turns followed by a forced scoring. |
| StreamingReadiness.ScoringProcessesTheDue | scripts/guest-online-monitor.py:95-103 | One scoring processes, besides those already processed, exactly the windows with a line whose start plus length plus 250 ms has come, or all when forced. |
| StreamingReadiness.ProcessedWasDue | scripts/guest-online-monitor.py:95-142 | Over every sequence of turns, each processed window had its end plus 250 ms at or before the time of some turn. |
| StreamingReadiness.DueIsProcessed | scripts/guest-online-monitor.py:95-142 | After each turn every window with a line whose end plus 250 ms is at or before that turn's time is processed. |
| StreamingReadiness.InTimeIsNeverLate | scripts/guest-online-monitor.py:71-142 | If every request is read before any turn whose time is at or past the end of its window plus 250 ms, no request is late. |
| StreamingReadiness.InTimeMatchesBatch | scripts/guest-online-monitor.py:71-142 | So then, for one run with requests read in order of time, the stopped monitor has scored the batch windows with the same request features. |
| StreamingReadiness.QuietTurns | scripts/guest-online-monitor.py:130-142 | Once the done file is there, m turns are counted as quiet exactly when the last m turns kept no line. |
| StreamingReadiness.AlertsAreAboveThreshold | scripts/guest-online-monitor.py:108-114 | The recorded alerts are the scored rows whose score exceeds the threshold, each as often as scored. |
| StreamingTheorem.BucketScored | scripts/guest-online-monitor.py:102-107 | A bucket of one window, aggregated on its own without warm-up, gives one row, made of all its requests, or none when it has none. |
| StreamingTheorem.PollsFollow | scripts/guest-online-monitor.py:71-142 | Over every sequence of polls each processed window was scored on the requests read by then, scored starts strictly increase, and all requests were heard exactly when none came late. |
| StreamingTheorem.BatchParts | cote3mon/features.py:81-184 | For one run read in order, batch aggregation gives at each start the row of the requests retained there. |
| StreamingTheorem.StreamingMatchesBatch | scripts/guest-online-monitor.py:71-142 | For one run with requests read in order of time, the stopped monitor has scored the batch windows, in order and with the same request features, if and only if no retained request was read for a window already processed. |
| Percentile.ImplementationsAgree | src/gateway/gateway.c:95-106 | On sorted input the C percentile equals the Python one. |
| PercentileLaws.LinearBetweenRanks | cote3mon/features.py:52-64 | For any ascending arrangement s of the values and m <= (n - 1) p <= m + 1 < n, both percentiles less s[m] are ((n - 1) p - m) (s[m + 1] - s[m]). |
| PercentileLaws.ExactAtRank | cote3mon/features.py:52-64 | At (n - 1) p = k both are s[k]; of no values the Python one is zero. |
| PercentileLaws.HalfIsMedian | cote3mon/threshold.py:36-36 | At p = 0.5 it is the median: the mean of the two middle values, or the middle one. |
| PercentileLaws.AllowedIsCeiling | cote3mon/threshold.py:42-43 | The number of alarms allowed is rate (n - 1) rounded up. |
| Percentile.WithinRange | cote3mon/features.py:52-64 | A percentile lies between the smallest and the largest value. |
| Percentile.Monotone | cote3mon/features.py:52-64 | A percentile does not fall when the probability rises. |
| Percentile.ExceedancesOfPercentile | cote3mon/threshold.py:42-43 | At most a = ceil(rate (n - 1)) of n values exceed their own (1 - rate) percentile, and exactly a if and only if a is zero or, in order, the value at place n - 1 - a is below the next. |
| Percentile.DistinctExceedances | cote3mon/training.py:142-147 | Exactly that many do when the values are distinct. |
| Threshold.Fit | cote3mon/threshold.py:20-44 | Fitting raises exactly for missing rows, a rate outside (0, 1) or no features; otherwise centres and scales are those of the training columns and the threshold is the validation percentile. |
| Threshold.FittedMeans | cote3mon/threshold.py:34-40 | A fitted centre is the column's median, and its scale the largest of 10^-9 and the distances from there to the 1st and 99th percentiles. |
| Threshold.ScoreWithin | cote3mon/threshold.py:46-50 | For any t, a row scores at most t exactly when every feature lies within t scales of its centre. |
| Threshold.BandScoresAtMostOne | cote3mon/threshold.py:32-50 | A row whose every feature lies inside the training 1%-99% band scores at most 1. |
| Threshold.CalibratedAlarms | cote3mon/threshold.py:41-53 | A fitted model raises at most ceil(rate (n - 1)) alarms on its own n validation rows, and exactly that many when their scores are distinct. |
| AveragePrecision.RankedIsStableSort | cote3mon/evaluation.py:39-39 | The ranking descends by score and keeps, for each score, the items in the order given. |
| AveragePrecision.AveragePrecision | cote3mon/evaluation.py:35-50 | Zero without a positive; otherwise the accumulated area is (1/P) times the sum of k over the rank of the k-th positive. |
| AveragePrecision.PerfectIffPositivesFirst | cote3mon/evaluation.py:35-50 | Average precision lies in (0, 1] and is 1 exactly when the first P ranked items are all positive. |
| AveragePrecision.PromotionRaises | cote3mon/evaluation.py:35-50 | Swapping a negative with the positive ranked just below it strictly raises average precision. |
| AveragePrecision.RescalingChangesNothing | cote3mon/evaluation.py:35-50 | A rescaling that strictly rises on the scores leaves the ranked labels unchanged. |
| Split.CutPoints | cote3mon/training.py:21-22 | For five or more runs the cuts are floor(3n/5) and floor(4n/5), and leave no part empty. |
| Split.CutIsPartition | cote3mon/training.py:20-25 | However shuffled, the three parts share no run, hold every run, and none is empty. |
| Split.SplitKeepsRunsWhole | cote3mon/training.py:13-30 | The split succeeds exactly from five benign runs on; every benign row is then in exactly one part, no run is in two, and no part is empty. |
| SplitSizes.SplitInProportion | cote3mon/training.py:20-30 | Of n benign runs, floor(3n/5) are in training, floor(4n/5) - floor(3n/5) in validation and n - floor(4n/5) in test. |
| SplitSizes.PartsFollowTheShuffle | cote3mon/training.py:18-30 | Run k of the shuffled order is in training exactly for k < floor(3n/5), in test exactly for k >= floor(4n/5), and in validation exactly in between. |
| Split.SplitBenignRunsStratified | cote3mon/training.py:33-81 | The loop over sorted scenarios returns the parts, or the first failure, of `Stratified`. |
| Split.StratifiedKeepsRunsWhole | cote3mon/training.py:33-81 | For every shuffle it succeeds exactly when the scenarios are those expected and each has five benign runs, and never fails for want of a test run; every scenario is in every part, and with one scenario per run every benign row is in exactly one part and no run in two. |
| SplitSizes.StratifiedInProportion | cote3mon/training.py:53-81 | With one scenario per run, the runs of every scenario are in the parts in those numbers. |
| Split.NoLeakIffOneScenarioPerRun | cote3mon/training.py:53-81 | No shuffle puts a run into two parts if and only if each benign run is recorded under one scenario. |

## Left out

- Features.RequestFeaturesOf: gives the square of idle_cv instead of its root, so no square root is modelled.
- StreamingTheorem.StreamingMatchesBatch: does not cover the two resource means, because a bucket aggregated alone drops resource samples older than its first request and the batch keeps them.
- StreamingTheorem.StreamingMatchesBatch: is about one run whose requests are read in order of time; the monitor keys its buckets by start only, so telemetry of several runs at once is outside its purpose.
- OnlineMonitor.Monitor.Watch: takes the lines found at each turn as given; reading partial lines, the ENODATA end of file and the audit receipt of each alert are not modelled (Monitor.MonitorBatch models receipts).
- AuditTa.AuditTa.SaveState: a failing save leaves the stored object unchanged, as the platform's atomic object creation promises; a torn write is not modelled.
- AuditStore.Store.Reopen: reads back what was saved; a damaged state file is not modelled.
- AuditStore.Store.VerifyChain: a record and its receipt are JSON objects, or the receipt is missing; Python's int() of a text is a parameter, a finite float is the real number it stands for, and an alert has a canonical text.
- OpteeBackend.OpteeAuditBackend.VerifyReceipt: the client program can be started; that it cannot is a failure of another kind, which the source does not catch.
- Sockets.ReadFull: a read either delivers octets or finds the peer closed; other read errors and EINTR, which is retried, are not modelled, and on the writing side every write makes progress.
- Sockets.MemoryOfU64: a little-endian host is assumed, as the byte swapping in the source does when it swaps.
- Gateway.GatewaysAgree: leaves out error_origin, which the two servers label differently by design, and the request identifier and time fields of events.
- Forest.Score: math.log and the power of two are parameters, the latter strictly increasing where it matters.
- Split.CutPoints: computes n * 0.6 and n * 0.8 over the reals, not in binary floating point.
- AveragePrecision.AveragePrecision: takes labels and scores already paired, of equal number, as classification_metrics demands before calling it.
- Telemetry.Event: an event carries its defaults filled in and its operation and result already in upper case; JSON text and case folding are not modelled.
- classification_metrics, attack_detection_delays and the bootstrap intervals: counts, a first match in a sorted list, and random sampling; they would only add easy members.
- Hex printing of fingerprints, safe_identifier and the gateway's summary file: formatting.
- scikit-learn fitting and the parity of its scores with the exported forest: a foreign library; the model starts from given tree arrays.
- src/gateway/backend_optee.c, the storage application, client programs, command line, resource sampler, runners and shell scripts: plumbing around foreign calls.
- Cryptographic strength: nothing is claimed about HMAC or SHA-256 beyond what a theorem assumes of them.

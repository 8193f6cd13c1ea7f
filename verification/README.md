# Katrix: verified models

A Dafny model of the parts of the Katrix Matrix homeserver where one property spans several
functions or a whole run, with proofs of what those parts promise. The files follow the repository's
components; code that updates state in place is a class or a method with loops, proved equal to a
specification function, and what the component promises is proved about that function.

| file | component | what is proved |
|---|---|---|
| `StateRes.dfy`, `StateResOrder.dfy` | `internal/stateres`, `internal/eventstate/eventstate.go` | state resolution v2 depends on the set of candidates only, orders power events topologically, returns candidates under their own keys, is the identity on one state; which event comes before which, and who wins a key |
| `StateDag.dfy`, `StateDagInvariant.dfy`, `StateDagHistory.dfy`, `StateDagChecks.dfy` | `internal/eventstate/statedag.go`, `internal/storage/statedag.go`, `internal/federation/statedag.go` | state-DAG rooms (MSC4242) over mutable tables; an invariant of every reachable store; exactly when an event is accepted; ancestry, auth chains, single-parent chains, parents of new local events |
| `StateDagConvergence.dfy`, `StateDagRetry.dfy`, `StateDagDivergence.dfy` | the same | two servers that receive the same events in any two orders, with retries, end with equal stores; outside the condition this has on creates, servers diverge |
| `Decimal.dfy`, `Utf8.dfy`, `Json.dfy`, `JsonDocuments.dfy`, `JsonGrammar.dfy`, `Canonical.dfy`, `CanonicalTheorems.dfy`, `CanonicalForms.dfy` | `internal/canonicaljson` | decimal and UTF-8 notation, a JSON decoder and exactly what it takes, the canonical printer and exactly what it writes; round trip, injectivity, idempotence, order and spelling independence |
| `Redaction.dfy`, `Signing.dfy`, `SigningLaws.dfy`, `Events.dfy` | `internal/events`, `internal/crypto` | redaction, content and reference hashes, event ids, signing; ids and signatures survive redaction and further signing; exactly what each of them covers |
| `SlidingSync.dfy`, `SlidingSyncResponse.dfy`, `SlidingSyncClient.dfy`, `SlidingSyncGaps.dfy`, `SlidingSyncHistory.dfy`, `EventStore.dfy` | `internal/csapi/sliding_sync.go`, `internal/csapi/ssconns.go`, `internal/storage/rooms.go` | MSC4186 connection state, what a response holds of each room, exactly when a client that follows it has a gap, and where its timelines meet /messages |
| `DelayedEvents.dfy`, `DelayedAnswers.dfy`, `DelayedSupersession.dfy`, `DelayedTiming.dfy`, `DelayedWorker.dfy`, `DelayedSchedule.dfy` | `internal/csapi/delayed.go`, `internal/storage/delayed.go` | MSC4140 delayed events over all interleavings; when a 409 is right; superseded events; no event before its delay; the worker's sleep, alone and over the table |
| `LongPoll.dfy`, `PresenceCounter.dfy` | `internal/homeserver/notifier.go`, `internal/csapi/sync.go`, `internal/csapi/fedbroadcast.go` | no lost wake-up; the lock-free counter |
| `Messages.dfy`, `Relations.dfy`, `RedactionMarks.dfy` | `internal/csapi/rooms.go`, `internal/csapi/relations.go`, `internal/eventstate/redact.go` | pagination and its tokens; the MSC2836 walk; which events redactions mark, and when the order of arrival matters |
| `Sorting.dfy`, `Wrappers.dfy` | Go's `sort` and string comparison | sorting under a strict total order has one outcome |

## How the program is represented

* A Go string is a `string` whose characters are bytes. JSON values are a datatype; objects are maps,
  numbers keep their literal. A store of Postgres tables is a class with one field per table, and a
  store call is one atomic step.
* Concurrent code is a state machine: a `Step` datatype, `Enabled`, `Next`, and runs as sequences of
  steps and states. Theorems about runs hold at every moment of every interleaving.
* SHA-256, base64 and ed25519 are functions; `Signing.Sound` states what is assumed of them: no two
  texts share a hash or an encoding, decoding undoes encoding, a signature verifies under its key.
  `SigningLaws.Binding` adds that it verifies for no other key and no other text. The theorems that
  need these say so.
* `rooms.Authorize` and the sender's power level are functions of what the callers hand them
  (`StateDag.Env`). One rule of `rooms.Authorize` is used: an `m.room.create` is refused when the state
  already holds one (internal/rooms/auth.go:70-73), stated as `StateDagInvariant.AuthRules`.

## Where the code and its documentation differ

The model follows the code.

* `Equal` is documented to keep 1 and 1.0 apart (internal/canonicaljson/canonicaljson.go:55-58), but both
  print as `1`: `CanonicalTheorems.OneIsOnePointZero`.
* `Canonical` rejects trailing data, unless it starts with `]` or `}`: a stray closing bracket behind the
  value ends the input for it, and what follows is ignored
  (internal/canonicaljson/canonicaljson.go:45-47): `CanonicalTheorems.TrailingDataExactly` says so in both
  directions.
* A byte that is no UTF-8 is written as the three bytes of U+FFFD, not as an escape
  (internal/canonicaljson/canonicaljson.go:187-190).
* `join_authorised_via_users_server` survives redaction in every room version, not only from version 9
  (internal/events/redact.go:46-48): `Redaction.AuthorisingServerAlwaysKept`.
* A new room's timeline is documented as the most recent `limit` events
  (internal/csapi/sliding_sync.go:547-553). It holds those among the last `limit + 1` positions of the
  shared stream, fewer when other rooms were active: `SlidingSyncClient.InitialIsRecent` says exactly
  when it is the documented window, `SlidingSyncClient.ThinWindow` shows it can be less.
* `limited` is documented to detect a truncated window precisely (internal/csapi/sliding_sync.go:552-553).
  It is set exactly when the room owns each of the last `limit + 1` positions of the shared stream:
  `SlidingSyncHistory.LimitedExactly`. `SlidingSyncHistory.FlagTruthfulExactly` says exactly when that
  agrees with truncation; `SlidingSyncHistory.TruncatedUnflagged` is a world where it does not.
* A backward page of /messages does not look at the client's `to` when it has a `from`
  (internal/csapi/rooms.go:1437-1440): `Messages.PageBack` holds for any `to`.
* A negative token is documented as a valid position to page on from
  (internal/csapi/rooms.go:1432-1433). Backwards the token 0, which `end` is behind an event at position 1,
  stops the client before the backfilled events below: `Messages.ReachedExactly` says exactly when.
  Forwards any token that is not positive starts from the oldest event, and a page without a positive
  position ends with the token 0, so the client is served that page for ever:
  `Messages.ForwardEndsExactly`, `Messages.RepeatsForever`.
* Scheduling a delayed state event is documented to leave only the latest one of a state key to be sent
  (internal/storage/delayed.go:84-86). A send that fails after a newer event was scheduled, and a restart,
  bring a superseded one back: `DelayedSupersession.OneScheduledExactly`,
  `DelayedSupersession.SupersededComesBack`.
* A 409 on a delayed event is documented as a conflict with its outcome
  (internal/csapi/delayed.go:306-308). The request's UPDATE and the SELECT behind it are two statements,
  so it can be given while the event is scheduled: exactly when, between the two, a send of it by hand
  failed or the event was created, and nothing took it away again. `DelayedAnswers.ConflictExactly` proves
  this, `DelayedAnswers.ConflictOnDrawn` and `DelayedAnswers.ConflictOnGuessed` split it by whether the id
  had been drawn; `DelayedEvents.ConflictThoughScheduled` is such a run.
* The pending-redaction query takes one event that names the arriving one, whether or not that event may
  redact it, and only for events that neither are redactions nor name an event themselves
  (internal/csapi/rooms.go:3764-3774). So the order of arrival can decide whether an event ends up redacted:
  `RedactionMarks.OrderMattersExactly`.
* A JSON `null` under `signatures`, or for a whole event, makes signing write to a nil map:
  `Events.SignsExactly`.

## Model

| member | source | states |
|---|---|---|
| StateRes.ResolveV2 | internal/stateres/stateres.go:72-116 | The resolved order is a function of the set of candidates: in whatever order they are read, the result is the ids of `ResolvedOrder` |
| StateRes.OrderPowerEvents | internal/stateres/stateres.go:131-215 | The loop over leaves and processed events computes the Kahn order, cycle fallback included |
| StateRes.KahnElements | internal/stateres/stateres.go:131-215 | The Kahn order lists exactly the power events, each once |
| StateRes.KahnTopological | internal/stateres/stateres.go:118-215 | On an acyclic reference graph every power event follows all power events it references |
| StateRes.BuildMainline | internal/stateres/stateres.go:222-260 | The walk with its seen set ends and yields the chain of power_levels events from the last one placed |
| StateRes.ClosestOnMainline | internal/stateres/stateres.go:272-292 | The index map and the loop over the auth references yield the depth the ordering uses, 0 off the mainline |
| StateRes.ByMainlineTotal | internal/stateres/stateres.go:91-106 | The comparator of the other events never ties on candidates with different ids, so the sort has one outcome |
| StateRes.ByLeafTotal | internal/stateres/stateres.go:190-207 | The comparator of the leaves never ties on candidates with different ids |
| StateRes.ResolveEntries | internal/eventstate/eventstate.go:216-258 | The resolved state has exactly the candidates' (type, state_key) pairs, each mapped to a candidate of that pair |
| StateRes.ResolveOneState | internal/eventstate/eventstate.go:216-258 | Resolving the entries of a single state returns that state |
| StateRes.LastWins | internal/eventstate/eventstate.go:245-257 | Of several events with one key the one placed last in the resolved order wins |
| StateRes.CitedLoses | internal/stateres/stateres.go:48-71 | A power event never keeps its key against another candidate power event of that key which references it |
| StateResOrder.MainlineExactly | internal/stateres/stateres.go:222-260 | The mainline starts at the last power_levels event placed; each next one is the first power_levels event among the power events that the one before cites, until there is none or it repeats |
| StateResOrder.OthersOrdered | internal/stateres/stateres.go:91-106 | Power events come first. Of two others the one that cites nothing on the mainline comes before one that does; of two that do, the one whose oldest cited mainline event stands nearer the head comes later; ties go by depth, then time, then the bytes of the id |
| StateResOrder.PowerPlaced | internal/stateres/stateres.go:131-215 | Each power event placed cites none still to be placed, if there is such a one, and of those it has the highest level, then the earliest time, then the least id |
| StateResOrder.WinnerExactly | internal/eventstate/eventstate.go:245-257 | An event has its key in the resolved state exactly when no candidate of that key comes after it |
| StateResOrder.LaterGetsKey | internal/stateres/stateres.go:48-106 | Of two such candidates alone on a key, the one later in this order gets it; a power event loses to one that is none |
| Lexical.LessExactly | internal/stateres/stateres.go:104 | Go's string comparison: at the first difference the smaller byte, else the proper prefix |
| StateDag.Tables.LoadMetas | internal/eventstate/eventstate.go:220-238 | The candidates are deduplicated and unknown ids dropped; the metadata set depends on the set of ids only |
| StateDag.Tables.ResolveOverCandidates | internal/eventstate/eventstate.go:216-258 | Resolution in the store equals `Resolve` of the candidates' metadata |
| StateDag.Tables.ResolveSnapshots | internal/eventstate/statedag.go:136-155 | The state after a list of events: the one snapshot, or the resolution of all of them, or an error when one has none |
| StateDag.Tables.CheckEvent | internal/eventstate/statedag.go:52-121 | Every check in its order computes `Check`, whose verdicts CheckExactly and CreateCheckExactly tell |
| StateDagChecks.CheckExactly | internal/eventstate/statedag.go:69-121 | An event that is no create is accepted exactly when it has 1 to 20 parents, all known, unrejected state events of its room, whose state is loadable, and the auth rules admit it against that, told whether its only parent is an m.room.create; it is put off exactly when the first parent that fails is unknown |
| StateDagChecks.CreateCheckExactly | internal/eventstate/statedag.go:52-68 | A create is accepted exactly when it cites nothing and the auth rules admit it, and never put off |
| StateDagChecks.ViewExactly | internal/eventstate/statedag.go:107-121 | The auth rules see exactly the create, join rules, power levels, guest access, the sender's and the target's membership and the invite behind a third-party token, and nothing when one of them is not stored |
| StateDagChecks.StateAfterExactly | internal/eventstate/eventstate.go:216-258 | With several parents the state is the resolution of every stored event in any of their snapshots, each with its key, depth, time, power, parents, recorded auth events and the level these and the create give its sender |
| StateDagChecks.FirstJoinAccepted | internal/eventstate/statedag.go:117-120 | A run: under rules that admit a join only with that flag, a create and then its sender's join that cites it alone are both accepted and in room_state |
| StateDag.Tables.CalculatedAuthEvents | internal/eventstate/statedag.go:222-270 | The ids selected from the state before, first occurrences only, in selection order |
| StateDagHistory.AuthRulesRecorded | internal/eventstate/statedag.go:159-270 | An event of the state before is recorded as calculated auth exactly when the selection names its tuple; of what the auth rules read, exactly guest access, join rules of other than joins, invites and knocks, and a create that is the room id are not recorded |
| StateDag.Tables.MaintainEvent | internal/eventstate/statedag.go:277-308 | All rows written for an accepted event, or none when the state before it cannot be resolved |
| StateDag.Tables.RecomputeCurrentState | internal/eventstate/statedag.go:312-325 | Room state becomes the state after the sorted heads; a room without heads keeps its state |
| StateDag.Tables.Receive | internal/federation/statedag.go:69-127 | One delivery: known events are left alone, missing parents leave no trace, a rejection is recorded, an acceptance maintained |
| StateDagInvariant.Reachable | internal/eventstate/statedag.go:40-121 | Every run of deliveries ends in a store where each accepted non-create event has 1 to 20 known, accepted, same-room state events as parents, snapshots and auth lists are in order, edges and heads are exactly those of the accepted events, and every room state holds accepted events under their own keys |
| StateDagInvariant.InvDeliver | internal/federation/statedag.go:97-127 | Each delivery keeps that invariant and only adds: known rows keep content, acceptance, snapshot and auth |
| StateDagInvariant.StateAfterOk | internal/eventstate/statedag.go:136-155 | Resolving good snapshots succeeds, keeps the create, and yields only accepted events of the room under their own key that are one of the given events or an ancestor of one |
| StateDagInvariant.AdvanceHeads | internal/storage/statedag.go:27-58 | After advancing, the heads are again exactly the accepted state events no accepted state event references |
| StateDagInvariant.LatestIsHead | internal/storage/statedag.go:27-58 | A room with an accepted state event has a head |
| StateDagInvariant.SelectedOk | internal/eventstate/statedag.go:222-234 | The calculated auth events are duplicate-free and exactly the state's events under the selected tuples |
| StateDagConvergence.Stable | internal/eventstate/statedag.go:92-121 | A decision reached on what is known stays the decision, with the same state before, whatever arrives later |
| StateDagConvergence.RunMatches | internal/federation/statedag.go:69-127 | Whatever one server has decided at any point, a server that has settled the same events has decided alike |
| StateDagConvergence.Convergence | internal/eventstate/statedag.go:277-325 | Two servers that received the same events and have nothing left to decide hold equal acceptances, snapshots, auth lists, edges, heads and room states |
| StateDagRetry.RetrySettles | internal/eventstate/statedag.go:25-28 | Delivering a list as often as it has distinct events leaves only events whose parents nobody delivered |
| StateDagRetry.ConvergenceWithRetries | internal/eventstate/statedag.go:25-28 | Two servers that hand themselves the same events in any two orders, with that many retries, end with equal stores |
| StateDagDivergence.TwoCreatesDiverge | internal/eventstate/eventstate.go:134-141 | For any two well-shaped creates of one room there are levels, two more events, and two orders of all four after which nothing is left to decide and the room states differ: levels are read from the create in room_state |
| StateDagDivergence.ForeignCreateDiverges | internal/eventstate/eventstate.go:134-141 | The same, with three more events, for any well-shaped create whose room_id names another room that has a create |
| StateDagDivergence.OutsideUniverseDiverges | internal/eventstate/eventstate.go:134-141 | What Convergence asks of creates is the boundary: a set of events that fails it holds two creates from which two servers can diverge |
| StateDagHistory.AncestorsAccepted | internal/eventstate/statedag.go:92-106 | All an accepted event descends from is accepted, a state event, in its room, stored earlier, and never itself |
| StateDagHistory.RejectedHasNoAcceptedDescendant | internal/eventstate/statedag.go:103-105 | In every run rejection cascades: a rejected event has no accepted descendant |
| StateDagHistory.ChainEndsAtCreate | internal/eventstate/statedag.go:43-47 | Every chain of parents is no longer than the store, and one that cannot be extended ends at an m.room.create |
| StateDagHistory.ReachesCreate | internal/eventstate/statedag.go:43-47 | From every accepted event some chain of parents reaches an m.room.create |
| StateDagHistory.AuthChainsAcyclic | internal/eventstate/statedag.go:219-270 | Following calculated auth edges never revisits an event |
| StateDagHistory.WalkAuthChain | internal/federation/transactions.go:2798-2838 | The stack walk ends on any table, cyclic or not, and visits exactly what the seeds reach |
| StateDagHistory.ResolutionAcyclic | internal/eventstate/eventstate.go:179-189 | The events resolution orders cite each other without a cycle, so power events come out in topological order |
| StateDagHistory.LastWriterOnRuns | internal/eventstate/statedag.go:277-308 | In every run, the snapshot after a single-parent chain maps each key to the last event of the chain that wrote it and has no other key |
| StateDagHistory.PrevStateEventsForNew | internal/eventstate/statedag.go:333-364 | The early returns, the membership lookup and the cut at 20 compute `Chosen` |
| StateDagHistory.ServerExactly | internal/eventstate/statedag.go:366-373 | The server of a user id is what follows its first colon |
| StateDagHistory.NewParentsGood | internal/eventstate/statedag.go:327-364 | The parents of a new local event are duplicate-free accepted state events of the room, at least one, with the absent target's membership among them |
| StateDagHistory.NewParentsLength | internal/eventstate/statedag.go:355-363 | They are at most 20 exactly when the room has at most 20 heads or the absent target's membership displaces the surplus |
| StateDagHistory.NewEventPasses | internal/eventstate/statedag.go:74-121 | A non-create event with these parents passes every structural check exactly when they are at most 20; then only the auth rules decide, against a state that resolves |
| StateDagHistory.MergesHeads | internal/storage/statedag.go:24-58 | An accepted state event that cites every head becomes the only head |
| Sorting.Sort | internal/canonicaljson/canonicaljson.go:104 | Sorting under a strict total order returns the one ascending listing of the elements |
| Sorting.AscendingIsSortSet | internal/stateres/stateres.go:91-106 | An ascending sequence is the listing of its own elements |
| Decimal.ParseFormat | internal/canonicaljson/canonicaljson.go:123-132 | For every int64, parsing the printed decimal returns it |
| Decimal.PlusSign | internal/canonicaljson/canonicaljson.go:125 | Parsing takes a leading plus sign, which changes nothing |
| Utf8.EncodeDecode | internal/canonicaljson/canonicaljson.go:184-193 | Decoding an encoded code point returns it with its length, whatever follows |
| Utf8.DecodeEncode | internal/canonicaljson/canonicaljson.go:184-193 | Encoding a decoded rune returns its bytes |
| Utf8.ByteOrderIsCodePointOrder | internal/canonicaljson/canonicaljson.go:6 | For all valid UTF-8 strings Go's byte comparison is the order by code points, as section 1 of RFC 3629 states |
| Json.DecodeRendered | internal/canonicaljson/canonicaljson.go:38-47 | The decoder reads every well-formed document, with any whitespace, member order and escapes, as its value |
| Json.ParseCharsOver | internal/canonicaljson/canonicaljson.go:38-47 | Decoding a string does not depend on what follows its closing quote |
| Json.DecodedWellFormed | internal/canonicaljson/canonicaljson.go:38-47 | Everything decoded has valid UTF-8 strings and keys and well-formed numbers |
| Canonical.Buffer.EncodeString | internal/canonicaljson/canonicaljson.go:151-196 | The index loop appends the quoted form: only mandatory escapes, U+FFFD for bytes that are no UTF-8 |
| Canonical.Buffer.EncodeNumber | internal/canonicaljson/canonicaljson.go:123-147 | Appends a plain integer within the safe range, or reports that the literal has none |
| Canonical.Buffer.Encode | internal/canonicaljson/canonicaljson.go:70-121 | Appends the canonical text of the value to the buffer, or fails exactly when a number in it cannot be printed |
| Canonical.KeysAscend | internal/canonicaljson/canonicaljson.go:99-104 | The keys of an object are printed in strictly ascending byte order |
| Canonical.CanonicalText | internal/canonicaljson/canonicaljson.go:38-53 | Decoding and printing compute `CanonicalOf` for every input |
| CanonicalTheorems.QuotedReads | internal/canonicaljson/canonicaljson.go:151-196 | The decoder reads a printed string back exactly |
| CanonicalTheorems.RoundTrip | internal/canonicaljson/canonicaljson.go:38-196 | Decoding the canonical text of a value returns it, its numbers in plain decimal |
| CanonicalTheorems.ExactRoundTrip | internal/canonicaljson/canonicaljson.go:38-196 | With integers within the safe range and valid UTF-8, printing succeeds and decoding returns the very value |
| CanonicalTheorems.Injective | internal/canonicaljson/canonicaljson.go:55-68 | Two values print alike exactly when they differ in the spelling of numbers only |
| CanonicalTheorems.Idempotent | internal/canonicaljson/canonicaljson.go:38-53 | Canonical form of a canonical form is itself, for every input that has one |
| CanonicalTheorems.SpellingIndependent | internal/canonicaljson/canonicaljson.go:38-53 | Whitespace, escapes and layout of the input do not matter |
| CanonicalTheorems.OrderIndependent | internal/canonicaljson/canonicaljson.go:99-118 | The order of an input object's members does not matter |
| CanonicalTheorems.PrintedShape | internal/canonicaljson/canonicaljson.go:1-12 | What is printed has no whitespace and, at every level, keys strictly increasing by code point |
| CanonicalForms.IntegerPrints | internal/canonicaljson/canonicaljson.go:123-132 | A 64-bit integer literal prints exactly when its value lies between -(2^53-1) and 2^53-1; beyond 64 bits the nearest float decides |
| CanonicalForms.FractionPrints | internal/canonicaljson/canonicaljson.go:133-147 | A literal with a fraction or exponent prints exactly when its nearest float is an integer in that range |
| CanonicalForms.FormatExactly | internal/canonicaljson/canonicaljson.go:130 | A printed integer has a sign only when it is negative, and no leading zero |
| CanonicalForms.StringPrints | internal/canonicaljson/canonicaljson.go:151-196 | A string prints character by character: quote, backslash and five control characters with their short escape, the other control characters as \u00 and two lower-case digits, everything else as it stands, a byte that is no UTF-8 as U+FFFD |
| CanonicalTheorems.EqualExactly | internal/canonicaljson/canonicaljson.go:55-68 | `Equal` holds exactly when both inputs have a canonical form and their values agree up to the spelling of numbers |
| CanonicalTheorems.OneIsOnePointZero | internal/canonicaljson/canonicaljson.go:55-68 | 1 and 1.0 are equal |
| JsonDocuments.DecodesExactly | internal/canonicaljson/canonicaljson.go:38-47 | A document followed by any text that does not prolong its last number is accepted exactly when that is whitespace or, behind whitespace, starts with a closing bracket; then its value is the document's alone |
| JsonDocuments.DecodedExactly | internal/canonicaljson/canonicaljson.go:38-47 | On every text: it is decoded as v exactly when it is a well-formed document with the value v, followed by nothing but what is tolerated |
| JsonGrammar.NumberExactly | internal/canonicaljson/canonicaljson.go:38-47 | A text is read as one number exactly when it is one by section 6 of RFC 8259 |
| JsonGrammar.ScanExactly | internal/canonicaljson/canonicaljson.go:38-47 | A string is read piece by piece up to its quote: characters as they stand, the eight short escapes, code units in hexadecimal of either case, surrogate pairs as one character, lone surrogates and bytes that are no UTF-8 as U+FFFD; anything else is refused |
| JsonGrammar.ToleratedExactly | internal/canonicaljson/canonicaljson.go:45-47 | Behind a value are tolerated blanks, then the end of the input or a closing bracket; blanks are space, tab, line feed and carriage return |
| JsonGrammar.LastMemberCounts | internal/canonicaljson/canonicaljson.go:38-47 | Of members with one key the last counts |
| CanonicalTheorems.TrailingDataExactly | internal/canonicaljson/canonicaljson.go:38-53 | The canonical form of such a text is that of the document, or a refusal, in the same cases |
| CanonicalTheorems.TrailingBracketIgnored | internal/canonicaljson/canonicaljson.go:45-47 | A closing bracket behind a document, and anything behind that, changes nothing |
| Redaction.Redact | internal/events/redact.go:95-155 | The deletions on the decoded maps compute `Redacted`, or fail on a value that is no object |
| Redaction.RedactRelation | internal/events/redact.go:159-175 | A relation keeps its type and event id only, and vanishes without one |
| Redaction.RedactTwice | internal/events/redact.go:95-190 | Redacting twice is redacting once, for every combination of the room-version rules |
| Redaction.TopLevelExactly | internal/events/redact.go:12-39 | Which top-level keys survive under each combination of the rules, with their values |
| Redaction.ContentExactly | internal/events/redact.go:43-150 | Which content keys survive for each event type under each combination of the rules, with their values; of a third-party invite the signed part, of a relation its type and event id |
| Redaction.OtherContentEmptied | internal/events/redact.go:117-153 | A content that is missing or no object becomes the empty object, but for a create that keeps all |
| Signing.SignJSON | internal/crypto/crypto.go:80-118 | The signed object, or failure, or the nil-map write on a JSON null |
| Signing.SignedBytes | internal/crypto/crypto.go:122-135 | The signature covers the canonical text without signatures and unsigned |
| Signing.VerifyJSON | internal/crypto/crypto.go:139-165 | Verification succeeds exactly when the entry is there, decodes and verifies the signed form |
| Signing.VerifyJSONWith | internal/crypto/crypto.go:171-181 | The same for a signature given separately |
| SigningLaws.SignatureCovers | internal/crypto/crypto.go:80-196 | A signature made over one object verifies on another exactly when the public key is the signer's and outside signatures and unsigned they have the same keys and, up to the spelling of numbers, the same values |
| SigningLaws.VerifiesExactly | internal/crypto/crypto.go:139-196 | An object verifies exactly when its signatures have the shape that is read, hold the entry, and the entry decoded verifies over the canonical text of everything but signatures and unsigned |
| SigningLaws.SignJsonExactly | internal/crypto/crypto.go:80-118 | Signing succeeds exactly on an object whose signatures, if any, have that shape and whose other fields, unsigned apart, have a canonical text |
| SigningLaws.SignJsonAdds | internal/crypto/crypto.go:80-118 | The result differs in its signatures alone: the new entry is there, every other one reads as before, and null entries of other entities stay null |
| Signing.ContentHash | internal/events/event.go:174-188 | The three deletions and the printer compute `ContentHashOf`; what that covers is ContentHashCovers |
| SigningLaws.ContentHashExists | internal/events/event.go:174-188 | An event has a content hash exactly when everything but its unsigned, signatures and hashes has a canonical text |
| SigningLaws.ContentHashCovers | internal/events/event.go:174-188 | Under a collision-free hash two events have the same content hash exactly when outside unsigned, signatures and hashes they have the same keys and, up to the spelling of numbers, the same values |
| Signing.ReferenceHash | internal/events/event.go:192-207 | The hash covers the redacted event without signatures and unsigned |
| Signing.EventIDFromRaw | internal/events/event.go:259-281 | From room version 3 on the id is `$` and the reference hash in the version's alphabet |
| Signing.Event.EventID | internal/events/event.go:229-248 | The id is computed once and cached; an id that was set is returned as it is |
| Signing.Event.RedactedCopy | internal/events/event.go:285-291 | The redacted copy is the event's redacted form |
| Events.SignRedacted | internal/events/builder.go:206-240 | The redacted form is signed and the signature merged into the full event's |
| Events.IdInvariant | internal/events/event.go:192-281 | In every room version the event id is unchanged by redacting and by replacing signatures or unsigned |
| Events.IdExactly | internal/events/event.go:192-281 | Under a collision-free hash two events of version 3 and later share an id exactly when their redacted, signature-free forms are equal |
| Events.SignsExactly | internal/events/builder.go:206-240 | Signing succeeds exactly on printable objects whose signatures are not null; exactly when it writes to a nil map |
| Events.SignRedactedAdds | internal/events/builder.go:206-240 | The new signature is there, every other one still is, no other field changes, and what is signed, hashed and identified stays |
| Events.AllSigned | internal/events/builder.go:206-240 | After any sequence of signers each last use of a (server, key) is on the event, earlier signatures are kept, content hash and id unchanged |
| Events.SignaturesSurvive | internal/events/builder.go:206-240 | Each such signature verifies on the event and on its redacted copy |
| Events.SignAllSucceeds | internal/events/builder.go:206-240 | If one signing is possible, any number in sequence is |
| Events.SignJsonVerifies | internal/crypto/crypto.go:80-196 | After signing an object the new signature verifies and so does every other one that did |
| Events.Build | internal/events/builder.go:42-107 | A built event holds exactly the fields of its room version, hashed and signed; legacy versions are refused |
| Events.BuildLegacy | internal/events/builder.go:113-177 | The same for versions 1 and 2, with the event id made from the local part and the server |
| Events.BuiltFields | internal/events/builder.go:55-70 | The values of the fields every built event has |
| Events.OptionalFields | internal/events/builder.go:57-84 | Exactly when a built event has each of the other fields, and its value |
| Events.BuiltRefs | internal/events/builder.go:68-76 | Its references: every id in its order, alone or in the legacy form with an empty object; auth events, or parents in the state DAG |
| Events.NoOtherField | internal/events/builder.go:55-84 | It has no other field before it is hashed and signed |
| Events.BuiltEventHolds | internal/events/builder.go:86-107 | A built event carries its own content hash and a signature that verifies, and redacting it keeps its id |
| EventStore.PieceOf | internal/storage/rooms.go:522-565 | The exclusive lower and inclusive upper bound cut one contiguous piece of the timeline |
| EventStore.ReadsExactly | internal/storage/rooms.go:522-565 | A read returns, of the events behind `from`, -2^62 where it is not positive, and up to `to`, 2^62 - 1 where it is 0, the oldest ones in order, or the newest ones in reverse, at most the limit, 100 where it is not positive |
| SlidingSync.ConnStore.SetListWindow | internal/csapi/ssconns.go:115-120 | Replaces the window of one connection and nothing else |
| SlidingSync.ConnStore.MarkDelivered | internal/csapi/ssconns.go:71-76 | Records one room's delivered configuration and nothing else |
| SlidingSync.ConnStore.SetSubscribed | internal/csapi/ssconns.go:80-89 | Adds or removes one subscription and nothing else |
| SlidingSync.FilterRooms | internal/csapi/sliding_sync.go:486-498 | Keeps the rooms the filter lets through, in order |
| SlidingSyncResponse.FilteredExactly | internal/csapi/sliding_sync.go:486-498 | The kept rooms stand at increasing positions of the list, which are exactly those of its invites, of its other rooms, or of all |
| SlidingSync.Api.BuildSlidingSync | internal/csapi/sliding_sync.go:302-420 | One response and the connection after it, as a function of the request, the world and the connection before; other connections are untouched |
| SlidingSync.Api.SlidingSync | internal/csapi/sliding_sync.go:212-235 | Whatever the long poll computes and discards, the written response and the connection state are those of one computation from the state before the request |
| SlidingSync.DiscardedKeepsState | internal/csapi/sliding_sync.go:216-233 | A response without data leaves the connection state as it was |
| SlidingSyncResponse.ResponseExactly | internal/csapi/sliding_sync.go:306-411 | Which rooms a response holds, exactly; each computed by its subscription, else by the first list that shows it, with the limit of that and forced new in exactly the named cases; and what the connection remembers of it |
| SlidingSyncResponse.InitialExactly | internal/csapi/sliding_sync.go:318-411 | A joined room in a response is new exactly on the first request, after a newer membership, when its subscription asks for more than was delivered, or, without one, when the first list that shows it does or the room was not in the window |
| SlidingSyncResponse.VisibleIsDelivered | internal/csapi/sliding_sync.go:347-411 | A room in a list's window is in the response, as new when it is joined, has no subscription and was not in the previous window |
| SlidingSyncResponse.WindowExactly | internal/csapi/sliding_sync.go:347-411 | The remembered window is exactly the rooms at a position i of their list with start <= i < length and i <= end or i = start, for one of its ranges; a request without lists leaves it as it was |
| SlidingSyncResponse.RoomExactly | internal/csapi/sliding_sync.go:507-608 | The result of one room, field by field, from its events, its membership, the last position, the limit and whether it is forced new |
| SlidingSyncGaps.TailExactly | internal/csapi/sliding_sync.go:302-420 | In every run, with any lists, scrolling and subscriptions: a client that replaces on initial and appends otherwise holds a contiguous tail of the room, up to the last response, exactly when no turn left out new events of the room while the client held older ones, unless the room was sent as new then or later |
| SlidingSyncGaps.ReturnExactly | internal/csapi/sliding_sync.go:302-420 | When a joined room comes back after responses without it, a hold that was whole is whole exactly when the result is new, or nothing was held, or nothing happened in the room in between |
| SlidingSyncGaps.ReturnByRequest | internal/csapi/sliding_sync.go:318-411 | The same told from the requests: new is the first request, a newer membership, a subscription that asks for more than was delivered, or, without one, a list that does, or that shows the room while it was not in the window or a request with lists came in between |
| SlidingSyncGaps.ServedGapFree | internal/csapi/sliding_sync.go:302-420 | A client that sees a joined room only where responses bring it, as new unless it saw the room before, holds a contiguous tail of it; with limits of at least 1 the tail ends at the newest event |
| SlidingSyncGaps.MentionedGapFree | internal/csapi/sliding_sync.go:302-420 | So when every response mentions the room while it is joined, however it was requested |
| SlidingSyncGaps.GapFree | internal/csapi/sliding_sync.go:547-608 | So with lists in every request and no subscription to the room, under any scrolling, limits and required state, wherever the room is in the window |
| SlidingSyncGaps.SubscribedGapFree | internal/csapi/sliding_sync.go:318-345 | So for a room the client subscribes to in every request, with or without lists |
| SlidingSyncResponse.SubscribedIsSent | internal/csapi/sliding_sync.go:318-345 | A subscribed room the user has to do with is in the response, whatever the lists ask for |
| SlidingSyncClient.InitialSplit | internal/csapi/sliding_sync.go:547-586 | The initial query returns a contiguous end of the timeline, at most limit + 1 events |
| SlidingSyncClient.InitialIsRecent | internal/csapi/sliding_sync.go:547-586 | The timeline of a newly delivered room, on a first, an incremental or a forced sync, is the most recent `limit` events exactly when they lie within the last limit + 1 stream positions |
| SlidingSyncClient.ThinWindow | internal/csapi/sliding_sync.go:547-586 | Two events ten positions apart: a limit of 2 shows one |
| SlidingSyncGaps.ResubscriptionGap | internal/csapi/sliding_sync.go:318-345 | An instance of a gap: a subscription dropped and taken up again, with an event in between |
| SlidingSyncGaps.OmittedListsGap | internal/csapi/sliding_sync.go:347-411 | Another: a request without lists between two with, and an event in between |
| SlidingSyncHistory.NewRoomMeetsHistory | internal/csapi/sliding_sync.go:547-601 | The timeline of a newly delivered room is the end of the room's events and prev_batch stands right before it, so paging back from it yields exactly the rest |
| SlidingSyncHistory.DeltaMeetsHistory | internal/csapi/sliding_sync.go:565-601 | The same for an incremental timeline: it starts behind the last position, and prev_batch is that position |
| SlidingSyncHistory.LimitedExactly | internal/csapi/sliding_sync.go:555-586 | `limited` is set exactly when each of the last limit + 1 stream positions is an event of the room |
| SlidingSyncHistory.FlagTruthfulExactly | internal/csapi/sliding_sync.go:551-586 | `limited` agrees with truncation exactly when the room has no events, all of them lie in the window, or the last limit + 1 stream positions are all the room's |
| SlidingSyncHistory.TruncatedUnflagged | internal/csapi/sliding_sync.go:551-586 | A timeline that leaves out an older event and is not flagged |
| DelayedSupersession.ScheduleSupersedes | internal/storage/delayed.go:84-126 | Scheduling keeps it that no state key of a user has two scheduled events |
| DelayedSupersession.OneScheduledExactly | internal/storage/delayed.go:84-315 | A step leaves two scheduled events on one key exactly when it returns a failed or interrupted send to a key with a newer scheduled event |
| DelayedSupersession.OneScheduledOnRuns | internal/csapi/delayed.go:309-505 | In a run without such a return no key ever has two scheduled events |
| DelayedSupersession.SupersededComesBack | internal/storage/delayed.go:236-249 | A run in which a superseded event is scheduled again |
| DelayedEvents.DelayedStore.ScheduleEvent | internal/storage/delayed.go:77-126 | A transaction of the same user, device, room, type and id that is known changes nothing; else the row is scheduled one delay after its start, and the user's scheduled state events of the same room, type and state key are cancelled, no other row touched |
| DelayedEvents.DelayedStore.Update | internal/storage/delayed.go:189-301 | A send, cancel or restart matches exactly a row of that id which is the user's own and scheduled; then that row alone changes: sending; cancelled at the time given; or a new fire time one delay ahead. Else nothing changes |
| DelayedEvents.DelayedStore.ClaimDue | internal/storage/delayed.go:207-220 | Takes only rows that are scheduled and whose fire time has come, at most the limit, none of them twice, and leaves one of these only when it took that many that fire no later; these are sending afterwards and no other row changes |
| DelayedEvents.DelayedStore.SendDue | internal/csapi/delayed.go:485-505 | Batch after batch, every row that is scheduled and whose fire time has come ends sent with the event id of its dispatch, or cancelled when that failed, and no other row changes |
| DelayedTiming.WaitsWholeDelay | internal/storage/delayed.go:105-301 | In every run, when the timer starts to send an event, the delay it was scheduled with has passed in whole since the step that scheduled or last restarted it |
| DelayedTiming.TakesExactly | internal/csapi/delayed.go:485-505 | In every run the timer may take a set of events at a moment exactly when they are at most 50, scheduled, and each one's delay has passed since its start |
| DelayedEvents.StepKeeps | internal/csapi/delayed.go:309-505 | Every step of a request, the worker, pruning or a restart keeps the invariant of claims, dispatches and statuses |
| DelayedEvents.AtMostOnce | internal/csapi/delayed.go:385-505 | In every run of a process a delayed event is successfully dispatched at most once, never while scheduled or when cancelled; nothing is sending that nobody sends, also after a restart |
| DelayedEvents.FinalStays | internal/storage/delayed.go:252-315 | No step changes a final status or its event id; pruning removes the row |
| DelayedEvents.NeverBoth | internal/storage/delayed.go:252-315 | Over whole runs an event that was sent is never cancelled, nor the reverse, and a pruned id does not return |
| DelayedEvents.AnswersAgree | internal/csapi/delayed.go:309-361 | A 200 agrees with the status at the time it is given; a 409 means the user had no scheduled event of that id when the request tried, and the event does not have the requested outcome |
| DelayedAnswers.ConflictExactly | internal/csapi/delayed.go:309-361 | In every run, the 409 of a request whose UPDATE matched nothing meets a scheduled event exactly when in between the event was created or its send by hand failed, and no claim, cancellation or newer event took it away since |
| DelayedAnswers.ConflictOnDrawn | internal/storage/delayed.go:189-301 | For an id drawn before the request: exactly when the UPDATE met the user's event being sent, that send was by hand and failed before the answer, and nothing took the event away since; a final, foreign or pruned event never is met scheduled |
| DelayedAnswers.ConflictOnGuessed | internal/csapi/delayed.go:309-361 | For an id not drawn yet, the event was created between the two statements |
| DelayedEvents.ConflictThoughScheduled | internal/csapi/delayed.go:306-361 | A run in which a 409 meets an event that is scheduled |
| DelayedSchedule.NobodySleepsPast | internal/csapi/delayed.go:309-505 | In every run of requests, worker and restarts over the table itself: a parked worker wakes within five seconds, and for each scheduled row it sleeps no longer than the row had left when the sleep was computed, or a wake is queued or still to come, or the row was un-claimed |
| DelayedSchedule.StepKeeps | internal/csapi/delayed.go:309-505 | Every statement on the table, every step of the worker and a restart keep it that the worker sleeps on exactly the scheduled rows, each known to it or covered |
| DelayedWorker.NobodySleepsPast | internal/csapi/delayed.go:431-479 | The same over any schedulers: five seconds at most, and for each scheduled event no longer than it had left when the sleep was computed, or it is covered |
| DelayedWorker.SleepsExactly | internal/csapi/delayed.go:447-479 | A parked worker sleeps exactly five seconds when its last read found nothing scheduled, else until the earliest fire time that found, not at all when that was over, and never longer than five seconds |
| DelayedWorker.StepKeeps | internal/csapi/delayed.go:431-479 | Every step of worker, clock, schedulers and failed sends keeps: what the worker sleeps on is known to it or covered |
| DelayedWorker.DueBeforeDeadline | internal/csapi/delayed.go:456-468 | The special case of NobodySleepsPast in which the clock stands still between computing the sleep and parking: an event due before the deadline is covered |
| DelayedWorker.UnclaimedWaits | internal/csapi/delayed.go:322-330 | The exception is real: un-claiming sends no wake |
| LongPoll.Notifier.Wait | internal/homeserver/notifier.go:23-44 | A fresh channel joins the user's waiters |
| LongPoll.Notifier.Cancel | internal/homeserver/notifier.go:29-43 | The channel leaves the list, an empty list leaves the map, nothing is closed |
| LongPoll.Notifier.NotifyUser | internal/homeserver/notifier.go:47-55 | Exactly the user's waiters are closed and forgotten |
| LongPoll.StepKeeps | internal/csapi/sync.go:153-183 | Every step of publishers and requests keeps: a request past its recheck has seen the data, is signalled, or will be |
| LongPoll.NoLostWakeup | internal/csapi/sync.go:153-183 | While a request is parked on data it has not seen, its channel is closed or about to be, or a publisher of that user has its notify still to come |
| LongPoll.QuietMeansClosed | internal/csapi/sliding_sync.go:216-233 | Once the publishers have returned, the channel of such a request is closed |
| LongPoll.ParkingUncheckedLoses | internal/csapi/events.go:97-116 | Without the recheck, as in the legacy poll, a wake-up can be lost |
| PresenceCounter.DistinctAndRising | internal/csapi/fedbroadcast.go:238-249 | Under every interleaving the values are distinct, rise in the order of the swaps, and are never below the caller's clock |
| PresenceCounter.AnswersExactly | internal/csapi/fedbroadcast.go:238-249 | Each value is its caller's clock, or one past the value before it in the order of the swaps when the clock is not beyond that |
| PresenceCounter.PresenceStream.NextPresenceStreamID | internal/csapi/fedbroadcast.go:238-249 | Alone, a caller gets its clock or one past the counter, and the counter becomes that |
| Messages.ParseIntToken | internal/csapi/rooms.go:3814-3839 | The prefix, cursor and digit loops in wrapping int64 arithmetic compute `TokenValue` |
| Messages.FormatIntToken | internal/csapi/rooms.go:3841-3864 | The digit loop stays within its 20 bytes and writes `TokenText` |
| Messages.TokenRoundTrip | internal/csapi/rooms.go:3814-3864 | A written token reads back exactly for every int64 but the least |
| Messages.CursorIgnored | internal/csapi/rooms.go:3814-3839 | Appending `t` and any cursor to any token, with or without prefix and sign, good or bad, does not change its value |
| Messages.RoomMessages | internal/csapi/rooms.go:1378-1560 | One page of any timeline, backfilled positions included: its events, `start`, and `end` only when it is not empty |
| Messages.PageExactly | internal/csapi/rooms.go:1378-1560 | That page told from the events: which of them are asked for, how many of these at which end it holds, in which order, and its tokens |
| Messages.PageBack | internal/csapi/rooms.go:1420-1560 | On any timeline and for any `to`, following `end` tokens backwards stops and yields every event within reach of the first request exactly once, newest first, down to `Reached` |
| Messages.ReachedExactly | internal/csapi/rooms.go:1428-1448 | That leaves nothing out exactly when no event at position 1, with older ones before it, is the last of a page; else it stops there. Pages hold the limit, 30 where it is not 1 to 999 |
| Messages.PageForward | internal/csapi/rooms.go:1428-1560 | Unless the first page is a page without a positive position, following `end` tokens forwards stops and yields every event behind the start up to `to` exactly once, oldest first; behind a start that is not positive that is from the oldest event on |
| Messages.ForwardEndsExactly | internal/csapi/rooms.go:1515-1560 | Following `end` tokens forwards comes to an end exactly when the first page is empty or has an event at a positive position |
| Messages.RepeatsForever | internal/csapi/rooms.go:1515-1560 | Otherwise every page is the first one again, with the token 0 |
| Messages.StandsSomewhere | internal/csapi/rooms.go:1428-1448 | Every int64 position divides the timeline, so paging back applies to any start |
| Relations.Walker.Walk | internal/csapi/relations.go:246-302 | The closure ends on every graph and extends the collected list by `Visit` |
| Relations.ChildrenExactly | internal/csapi/relations.go:266-288 | The children followed: those that reference the event, the limit + 1 first in the stream when there are more, by their time, newest first when asked for, ties by id |
| Relations.WalkSound | internal/csapi/relations.go:246-303 | On any graph no event twice, the anchor first, nothing beyond max_depth |
| Relations.WalkDownExact | internal/csapi/relations.go:259-293 | With at most limit + 1 children per event, the walk down is the depth-first listing of exactly the events within max_depth below the anchor |
| Relations.WalkUpExact | internal/csapi/relations.go:294-301 | The walk up is the chain of parents until max_depth, an unrelated event or a repetition |
| Relations.Relationships | internal/csapi/relations.go:303-335 | Parent insertion, terminating event and limit keep the ids distinct and the anchor first; nothing follows the terminating event |
| RedactionMarks.EventTable.ApplyRedaction | internal/eventstate/redact.go:26-72 | The target is marked when it is known, unmarked, in the room, and the power or domain rule holds; else nothing changes |
| RedactionMarks.EventTable.PersistEvent | internal/csapi/rooms.go:3731-3774 | A persisted redaction is applied, a persisted plain event is redacted by a waiting redaction |
| RedactionMarks.PersistKeeps | internal/eventstate/redact.go:26-72 | A mark is put only by a stored same-room redaction that meets the power or domain rule, and is never removed or changed |
| RedactionMarks.ArrivalExactly | internal/csapi/rooms.go:3731-3774 | One arrival, told from the events: which event it stores, which it marks, and that no mark goes |
| RedactionMarks.RedactsExactly | internal/eventstate/redact.go:26-82 | A redaction may be applied exactly to an event it names, in its room, when its sender's power reaches the redact level there or both senders have the same non-empty server behind their first colon |
| RedactionMarks.MarkedExactly | internal/csapi/rooms.go:3760-3774 | In every run of any events an event ends up marked exactly when some arrival marks it: a redaction that may redact it arrives with or after it, or it is plain and on its arrival the query picks one |
| RedactionMarks.RunMarks | internal/csapi/rooms.go:3760-3774 | When of the events that name a plain one all may redact it or none may, the marked plain events are exactly those some arrived redaction may redact |
| RedactionMarks.OrderIndependent | internal/csapi/rooms.go:3760-3774 | Then which plain events are redacted does not depend on the order of arrival or on replays, nor does the recorded redaction of an event with one |
| RedactionMarks.NonPlainExactly | internal/csapi/rooms.go:3764-3774 | A redaction, or an event with a redacts field, ends up marked exactly when an allowed redaction of it arrives with or after it |
| RedactionMarks.OrderMattersExactly | internal/csapi/rooms.go:3760-3774 | Over any events, two runs of the same events leave an event marked and unmarked exactly when something may redact it, it does not redact itself, and it is not plain or some event names it in vain |
| RedactionMarks.RedactedRedactionDependsOnOrder | internal/csapi/rooms.go:3764-3774 | An instance: a redaction that is itself redacted |

## Left out

State-DAG rooms

- StateDagConvergence.Convergence: assumes unique event ids and, of the creates whose shape the checks accept, one per room and none that names another room which has one; `OutsideUniverseDiverges` shows that both are needed. The batch order of `topoSortStateDAG` is covered as one of all orders; fetching missing parts of the DAG is the repeated delivery of the list.
- StateDag.Tables.Receive: signature checks of a PDU, soft failure of non-state events, membership rows, the relation index, failing database calls and partially joined rooms are not modelled; database transactions are atomic steps.
- StateDag.Tables.CheckEvent: `rooms.Authorize` and the restricted-join and guest inputs are one fixed function of the event and the auth-relevant state; the same holds for the sender's power level.
- The joined type and state_key string (`type\0state_key`) is a pair; prev_events and forward extremities of ordinary rooms, `Maintain` for other room versions, and state resolution v1 are not modelled.

Canonical JSON, events, signing

- Canonical.Buffer.EncodeNumber: reading a literal with a fraction or exponent as a float is an arbitrary partial map to integers, because rounding is not the subject; results beyond the safe range are refused as the code does.
- Signing.EventIDFromRaw: from room version 3 on; the struct decode of legacy ids is modelled on the parsed event only (`IdOf`).
- Events.IdExactly: needs the assumed collision-freeness, and that both forms have a canonical text.
- The nesting limit of `encoding/json`, its error texts and its HTML escaping inside re-encoded values are not modelled; re-encoding is the identity on values.
- Key generation and encoding, cryptographic strength and timing.

Sliding sync and long polls

- SlidingSyncGaps.TailExactly: assumes each request echoes the last position, that live stream positions are positive and only grow, that no response is lost, and that at most 2^30 events arrive between two requests. `ReturnByRequest` and `InitialExactly` take the subscriptions of a request as the map they are, one per room.
- SlidingSync.Api.BuildSlidingSync: range starts are not negative (the code would index out of bounds); Go's map iteration orders are given as sequences; the order of rooms by recency is input; counts, required state contents, bump stamps and the contents of extensions are left out; one response is computed from one consistent view.
- The text of `pos`, time-outs as durations, and a client that disconnects while parked.
- LongPoll.NoLostWakeup: time-out and disconnection are the step that leaves without an answer; the amount of a user's data is a number that grows.
- PresenceCounter.DistinctAndRising: int64 overflow is not modelled.

Delayed events

- DelayedEvents.AtMostOnce: per process, as a crash between sending and recording repeats the send; a finalising database call does not fail.
- DelayedEvents.DelayedStore.SendDue: the clock stands still and the dispatch is a function while the worker empties the queue; the interleaved version is the state machine.
- Quotas per user, which hold only if handlers do not overlap; the fields a row carries for the room request.

Messages, relations, redactions

- Messages.PageBack: for a reader who sees every event and a timeline that does not change meanwhile. Filters, history visibility, erased users, the cap at a leave and fetching more history from other servers are left out: an all-hidden page has no `end`.
- Messages.PageForward: `ForwardEndsExactly` says what a client meets where it does not apply.
- Relations.Walker.Walk: fetching missing events from other servers and rendering the events are not modelled; rows with equal stream positions are ordered by id.
- RedactionMarks.OrderIndependent: power levels do not change during the run. Which of several allowed redactions is recorded may depend on the order; whether one is does not, and where it does depend `OrderMattersExactly` says so.
- HTTP handling, rate limits, the command line, configuration, media, push rules, key backup and profile handlers: plumbing, or easy members only.

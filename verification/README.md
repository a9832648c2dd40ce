# Verified model of the real-time engine

Dafny 4.11 models of the parts of the real-time engine in which state, order and
arithmetic matter, with proofs about them. `dafny verify dfyconfig.toml` checks
everything.

**The collaborative editor** (`examples/collaborative-editor/server.ts`).
`TextEdits` defines what `OTEngine.apply`, `transform` and `compact` compute on
lists of retain / insert / delete; `OTEngineLoops` has the engine's own loops,
proved to compute just that. `CutLaws`, `CompactLaws`, `TransformLaws`,
`MergeLaws`, `Ladder` and `Unaligned` hold the laws: compaction is a normal form,
the convergence diamond, a reference merge that fixes what transformation means,
the ladder by which the server brings a late edit up to date, and what becomes of
edits whose operations meet with different lengths. `EditorModel` and
`EditorLaws` are the server as a state machine over its events, with an
invariant over every run, and `EventLaws` says what every event does to documents
and to what clients are sent; `EditorServer` has the handlers as they run, on
documents, connections and maps updated in place, each proved to be a step of
the state machine.

**The rate limiter** (`src/rate-limiter.ts`). `SlidingWindow` relates the pruned,
expiring sorted set to the full log of attempts, `TokenBucket` treats the burst
bucket over real numbers, `BucketLaws` says without a bucket which requests it
grants, and `RateLimiter` has the class over its Redis keys.

**Rooms and sessions** (`src/room-manager.ts`, `src/server.ts`). `RoomModel` and
`RoomLaws` are one node with atomic handlers, above one space of Redis keys in
which commands of the wrong type fail as the code lets them, and `RoomEffects` says
what every event changes;
`RoomManagerObjects` and `RoomServerObjects` are the room manager and the
connection handlers with their mutable objects. `RoomCapacity` takes `joinRoom`
apart at its awaits and lets joins interleave; `SessionRaces` does the same to
the joins, leaves, closes and cleanups of one room. `ChatMessages` puts membership, rate
limit and publication of a chat message together.

**Publication, delivery, history** (`src/message-broker.ts`, `src/server.ts`).
`Delivery` lets publishers step from `xadd` to `publish` on many nodes with FIFO
queues and connections that come and go, and `DeliveryRuns` tells what is received
by the steps of the run; `Channels` is the name of a room's
channel and how a subscriber reads the room back from it. `StreamCodec` is the
flat-field encoding of a message, `History` the pager with its inclusive cursor.

Redis is an abstract store whose single commands are atomic; the four commands of
a window check are taken together. Clocks, ids, random
suffixes and the result of a password check are parameters.

## Where the code does something else than one may expect

Each of these is stated and proved on the model of the code as it is.

- `transform` does not shorten the longer of two operations that meet
  (lines 164-165): it transforms as if the part that was met stood in front of the
  whole (`Unaligned.TransformStretched`, `Unaligned.StretchedMerge`). So the diamond
  needs aligned edits, or edits cut into single characters. A deletion that meets a
  shorter retain or delete comes to more than was meant
  (`Unaligned.DeleteOverInsert`, `Unaligned.TwoDeletes`). `Ladder.TwoCursors` says, for any text and two different cursors in
  it, exactly when two authors who type there converge, and
  `Ladder.InsertBeforeDelete` when one who types does with one who deletes later in
  the text; `Ladder.TwoCursorsDiverge` and `Ladder.InsertBeforeDeleteDiverges` give
  texts on which they do not.
- Line 134 puts the first edit's insert first in either direction, so the diamond
  holds exactly when tied texts commute (`TransformLaws.Diamond`; for two authors
  at one cursor `Ladder.TieExact`, `Ladder.TieDiverges`). An operation of length zero in front of an insert gives
  the tie away: intention is kept against every aligned edit if and only if there
  is none (`MergeLaws.IntentionAlways`).
- `slice` clamps: of two aligned edits without a tie the first may walk past the
  end, and then they need not converge (`Ladder.UnfitExact`,
  `Ladder.UnfitDiverges`).
- Compaction keeps a run of deletes of total length zero, which does nothing, and
  so does not always undo cutting (`CompactLaws.ZeroDeleteKept`).
- The fold of an edit indexes the kept history with a revision (line 387). It
  visits what the client has not seen if and only if nothing has been trimmed or
  there is nothing to visit (`EditorLaws.FoldVisitsUnseen`); documents where it
  does not are reached (`EditorLaws.TrimmedFoldReached`).
- `retryAfter` of the sliding window is always 0, and an immediate retry is
  denied, because denied attempts count (`SlidingWindow.RetryAtOnceDenied`).
- Expiry of the bucket's key refills it at once: harmless if and only if the
  burst allowance is at most the requests per window
  (`TokenBucket.ExpiryInvisible`, `TokenBucket.TokenBoundExact`). Otherwise a
  denied request, which keeps the key alive, can turn a later grant into a denial
  (`TokenBucket.DenialInvisibleExact`), and `retryAfter` can be too long
  (`TokenBucket.RetryAfterExact`).
- The participants of a room `r` are stored under the key of the room
  `"participants:" + r`. Creating that room overwrites them, deleting it deletes
  them. Sessions and membership agree in every run over a set of ids if and only if
  the set has no two such ids (`RoomLaws.AgreementExact`,
  `RoomLaws.CollisionDisagrees`).
- A subscriber cuts the first ":messages" out of the channel's name, so some ids are
  read back as others: "a:messagesb" as "ab:messages". Members receive the messages
  of their own rooms in all runs over a set of ids if and only if each id is read
  back (`Channels.ReadBackExact`, `Delivery.OwnRoomsExact`).
- A join still under way when its connection closes leaves a participant without a
  connection, and a join between the two halves of a leave or a cleanup is lost on
  one side. Interleaved handlers agree at rest if and only if joins overlap neither
  leaves nor closes nor the cleanup (`SessionRaces.RaceExact`).
- The capacity of a room is exact if and only if at most one join at a time is
  between reading the count and `sadd` (`RoomCapacity.LimitExact`).
- A stream shows messages in the order of `xadd`, connections in the order of
  `publish`. `Delivery.HistoryOrderExact` says for which states these are bound to
  agree from then on, given that no further publication of a room starts while one
  is in flight; `Delivery.OvertakingReached` reaches a state in which they still
  agree and cannot go on agreeing.
- The history cursor is inclusive: limit 1 repeats the first entry for ever and
  limit 0 returns an empty page that promises more (`History.EndsExact`).

## Model

| member | source | states |
|---|---|---|
| OTEngineLoops.OTEngine.ApplyOps | examples/collaborative-editor/server.ts:93-120 | The apply loop, index and slices as written, computes the recursive reading of the edit, clamping at the end of the text. |
| OTEngineLoops.OTEngine.TransformOps | examples/collaborative-editor/server.ts:126-175 | The two-pointer loop and the rest loop compute the walk of the first edit against the second, compacted. |
| OTEngineLoops.OTEngine.CompactOps | examples/collaborative-editor/server.ts:180-197 | The loop that overwrites the last slot computes the compaction function. |
| CompactLaws.CompactIsNormal | examples/collaborative-editor/server.ts:180-197 | No zero retain and no adjacent retains or adjacent deletes remain, whatever the input. |
| CompactLaws.CompactIdempotent | examples/collaborative-editor/server.ts:180-197 | Compacting twice is compacting once. |
| CompactLaws.CompactPreserves | examples/collaborative-editor/server.ts:180-197 | Compaction changes neither the effect on any text, fitting or not, nor what is walked over, deleted and inserted. |
| CompactLaws.CompactDecidesCutting | examples/collaborative-editor/server.ts:180-197 | Two edits compact to the same list if and only if they are the same in single characters, with a mark for every run of deletes of total length zero. No hypothesis. |
| CompactLaws.ZeroDeleteKept | examples/collaborative-editor/server.ts:184-193 | Cutting an edit into single characters makes no difference to compaction if and only if, zero retains aside, no maximal run of its deletes has total length zero. |
| CompactLaws.IdleDeletesKept | examples/collaborative-editor/server.ts:180-197 | A zero delete remains after compaction if and only if the input has such a run. |
| CutLaws.UnitsApply | examples/collaborative-editor/server.ts:93-120 | Cutting retains and deletes into single characters does not change the effect on any text. |
| CutLaws.UnitsAlign | examples/collaborative-editor/server.ts:149-165 | Edits of single-character operations are always aligned. |
| TransformLaws.LengthLaw | examples/collaborative-editor/server.ts:93-120 | A fitting edit changes the length by what it inserts minus what it deletes. |
| TransformLaws.Closure | examples/collaborative-editor/server.ts:126-175 | For an aligned fitting pair the transformed edit fits the text the other one left, and deletes no more than before. |
| TransformLaws.FoldKeepsInserts | examples/collaborative-editor/server.ts:126-175 | However many edits an edit is transformed against, aligned or not, it inserts the same strings in the same order. |
| TransformLaws.NoTextLost | examples/collaborative-editor/server.ts:386-393 | After the fold, the author's strings all occur in the new text, in order and without overlap. |
| TransformLaws.TransformBlends | examples/collaborative-editor/server.ts:126-175 | After the second edit, the transformed first one leads to the text in which both are carried out along the walk. |
| TransformLaws.Diamond | examples/collaborative-editor/server.ts:126-175 | Two aligned fitting edits converge, whichever comes first, if and only if the texts they insert at ties commute. |
| MergeLaws.ApplyMeans | examples/collaborative-editor/server.ts:93-120 | A fitting edit does, gap by gap and character by character, what its operations say about positions. |
| MergeLaws.IntentionExact | examples/collaborative-editor/server.ts:126-175 | For every aligned fitting pair the result is the reference merge (a character survives iff neither deletes it, the first edit's text first in every gap) if and only if the walk meets the insertions of every gap in that order. |
| MergeLaws.Intention | examples/collaborative-editor/server.ts:126-175 | It is, ties included, when no operation of length zero stands before an insertion of the first edit in the same gap. |
| MergeLaws.IntentionAlways | examples/collaborative-editor/server.ts:126-175 | An edit reaches the reference merge against every aligned edit of every text it fits, if and only if it has no such operation of length zero. |
| MergeLaws.ZeroRetainLosesTie | examples/collaborative-editor/server.ts:134-146 | With a zero retain before its insert, the first edit's text comes second: the merge is met exactly when the two texts commute. |
| MergeLaws.CutIntention | examples/collaborative-editor/server.ts:126-175 | Cut into single characters, every fitting pair, aligned or not, leads to the reference merge of the uncut edits. |
| MergeLaws.CutDiamond | examples/collaborative-editor/server.ts:126-175 | Cut into single characters, every fitting pair converges if and only if the insertions commute in every gap of the text. |
| MergeLaws.AlignedNeedsNoSplitting | examples/collaborative-editor/server.ts:149-174 | On aligned edits, the first without operations of length zero, the engine computes the very list it would compute on single characters. |
| Ladder.LadderConverges | examples/collaborative-editor/server.ts:385-392 | For a fitting edit, if at every rung the stored edit fits, is aligned with the edit as transformed so far and ties with it only where the texts commute, then the server's fold of the edit and the author's copy folding the stored ones over it end with the same text, and the folded edit fits. |
| Ladder.OneRung | examples/collaborative-editor/server.ts:385-392 | On one rung, for two aligned fitting edits, they do if and only if the ties commute. |
| Ladder.TwoCursors | examples/collaborative-editor/server.ts:163-165 | Two inserts at cursors n < m within any text, not aligned, converge if and only if the text inserted at m commutes with the at most n characters behind m, which it is carried across. |
| Ladder.TypingAtTheEnd | examples/collaborative-editor/server.ts:163-165 | An insert at the end of the text converges with an insert at any earlier cursor. |
| Ladder.TwoCursorsDiverge | examples/collaborative-editor/server.ts:163-165 | On the text abc, inserts at 2 and 1 diverge. |
| Ladder.TieExact | examples/collaborative-editor/server.ts:134-146 | Two inserts at one cursor, anywhere in any text, converge if and only if the inserted texts commute. |
| Ladder.InsertBeforeDelete | examples/collaborative-editor/server.ts:163-165 | An insert at n and a deletion of k characters behind m > n, in any text: they converge if and only if what follows m stays the same when k characters are deleted n places further on instead of at its front. |
| Ladder.InsertBeforeDeleteDiverges | examples/collaborative-editor/server.ts:163-165 | On the text abcd, typing at 1 and deleting the c diverge. |
| Ladder.UnfitExact | examples/collaborative-editor/server.ts:93-120 | For inserts at m and m + k in any text, aligned and without a tie: if the text ends before m, they converge if and only if the first text commutes with the part of the second it is carried across; otherwise they converge. |
| Ladder.UnfitDiverges | examples/collaborative-editor/server.ts:93-120 | On the empty text an aligned, tie-free pair that does not fit diverges. |
| Unaligned.TransformStretched | examples/collaborative-editor/server.ts:126-175 | For every pair of edits the engine computes what it computes on two aligned ones: those in which the part of an operation that is met stands in front of the operation. |
| Unaligned.StretchedExact | examples/collaborative-editor/server.ts:163-165 | Stretching puts shorter operations of the same kind in front of operations, keeps them all, and changes nothing if and only if the edits are aligned. |
| Unaligned.StretchedMerge | examples/collaborative-editor/server.ts:126-175 | For every pair: after the second edit stretched, the transformed first one leads to the reference merge of the two stretched edits if and only if the walk meets their insertions in order. |
| Unaligned.CoveredMerge | examples/collaborative-editor/server.ts:144-165 | If no operation of the second edit is longer than one it meets, the text on the server becomes the merge of the second edit with the stretched first one, if and only if insertions are met in order. |
| Unaligned.DeleteOverInsert | examples/collaborative-editor/server.ts:157-165 | A deletion of k characters against typing behind n of them, 0 < n < k, behind any text: both results, and they converge if and only if the deletion reaches the end of the text. |
| Unaligned.DeleteBeforeInsert | examples/collaborative-editor/server.ts:154-165 | Typing behind k characters against a deletion of the first n < k of them: both results, and they converge if and only if the typed text commutes with what it is carried across. |
| Unaligned.TwoDeletes | examples/collaborative-editor/server.ts:160-165 | Deletions of k and n < k characters at one place: both results, and they converge if and only if the longer one reaches the end of the text. |
| MergeLaws.ApplyAlwaysMeans | examples/collaborative-editor/server.ts:93-120 | On any text, too short ones included, an edit does what its positions say once its operations are cut down to the characters there are. |
| EditorLaws.NextKeeps | examples/collaborative-editor/server.ts:283-470 | Every event the server handles, messages that are not JSON and cleanup included, keeps the invariant of documents, participants and connections. |
| EditorLaws.ReplicasConverge | examples/collaborative-editor/server.ts:283-423 | In every reachable state, at any point of delivery, playing the pending messages of an open connection on its client's copy gives the server's content and revision. |
| EditorLaws.OneEventPerEdit | examples/collaborative-editor/server.ts:412-423 | An open connection got a snapshot and then one acknowledgement or broadcast for every edit accepted since, in order, revisions consecutive. |
| EditorLaws.HistoryWindow | examples/collaborative-editor/server.ts:391-410 | In every reachable state the content is the replay of all accepted edits, and the kept edits are the last 'revision' or 500 + (revision - 1001) mod 501 of them, with consecutive revisions up to the current one. |
| EditorLaws.FoldVisitsUnseen | examples/collaborative-editor/server.ts:385-389 | The fold visits exactly the edits after the client's revision, in order, if and only if the revision is at most 1000 or the client is up to date. |
| EditorLaws.TrimmedFoldReached | examples/collaborative-editor/server.ts:385-410 | For every revision above 1000 some run reaches it, and there the fold of a client at revision 0 does not visit all edits. |
| EventLaws.SubmittedDocument | examples/collaborative-editor/server.ts:374-405 | In every state with the invariant, a client's edit at revision r is folded over the history from entry r on, counted from the first entry still kept (none forgotten up to revision 1000, then revision - 500 - (revision - 1001) mod 501); the text becomes its effect, the history grows by this entry, and nothing else of the documents changes but the time. |
| EventLaws.SubmittedUnseen | examples/collaborative-editor/server.ts:385-392 | Up to revision 1000 the text becomes the effect of the edit folded over exactly the edits its client has not seen. |
| EventLaws.SubmittedEvents | examples/collaborative-editor/server.ts:412-423 | Its client, if open, is sent the acknowledgement, every other open connection of the document the broadcast, nobody else anything. |
| EventLaws.SubmissionRefused | examples/collaborative-editor/server.ts:379-389 | Documents stay as they are if and only if the submission is no list, is empty or has a negative revision; then only its client is told, with the code of the case. |
| EventLaws.LateEditConverges | examples/collaborative-editor/server.ts:374-405 | In every reachable state with revision at most 1000: the event of submitting an edit made at an older revision gives the text of the author's own copy, if the edit fits its text and every rung of stored edits is fitting, aligned and ties only where texts commute. |
| EventLaws.AcceptedTextAppears | examples/collaborative-editor/server.ts:385-393 | In any state with the invariant, trimmed or not, what a submitted edit types appears in the new document. |
| EventLaws.CursorMoved | examples/collaborative-editor/server.ts:433-448 | The cursor is recorded and exactly the other open connections of the document are told. |
| EventLaws.Renamed | examples/collaborative-editor/server.ts:450-465 | The name, cut to twenty characters, is recorded and exactly the open connections of the document are told; an empty name does nothing. |
| EventLaws.Arrived | examples/collaborative-editor/server.ts:283-326 | A newcomer is sent text and revision and then the participants, itself included; exactly the other open connections of the document are told. |
| EventLaws.Departed | examples/collaborative-editor/server.ts:340-354 | A closed connection is gone, from the participants too, and exactly the other open connections of the document are told. |
| EventLaws.OtherEvents | examples/collaborative-editor/server.ts:329-336 | Unreadable and unknown messages are answered to their sender alone and change no document. |
| EventLaws.Forgot | examples/collaborative-editor/server.ts:522-531 | A cleanup forgets a document if and only if no connection is bound to it and it has not changed for more than a day, and does nothing else. |
| EditorServer.Document.TransformAgainstUnseen | examples/collaborative-editor/server.ts:385-389 | The loop from the client's revision computes the fold over the kept edits it indexes. |
| EditorServer.Document.Record | examples/collaborative-editor/server.ts:391-410 | Applying, stamping, storing and trimming in place make the document the model's accepting step makes. |
| EditorServer.Server.GetDocument | examples/collaborative-editor/server.ts:258-270 | Returns the document object, creating an empty one only if there is none. |
| EditorServer.Server.BroadcastToDoc | examples/collaborative-editor/server.ts:486-501 | Sends the event to exactly the open connections of the document's participants but the excluded one; a missing document is created empty. |
| EditorServer.Server.HandleConnection | examples/collaborative-editor/server.ts:283-326 | Registration, snapshot, presence and announcement are one step of the model. |
| EditorServer.Server.HandleClose | examples/collaborative-editor/server.ts:340-354 | Leaving removes connection and participant and tells the rest, and nothing else. |
| EditorServer.Server.HandleOp | examples/collaborative-editor/server.ts:374-425 | Validation, fold, application, storage, acknowledgement and broadcast are one step of the model, error answers included. |
| EditorServer.Server.HandleCursor | examples/collaborative-editor/server.ts:433-448 | Moves the participant's cursor and tells the others, or does nothing for a stranger. |
| EditorServer.Server.HandleName | examples/collaborative-editor/server.ts:450-465 | Renames, to at most 20 characters, and tells everyone, unless the name is empty. |
| EditorServer.Server.CleanupDocuments | examples/collaborative-editor/server.ts:522-531 | Drops exactly the documents without participants that are stale. |
| EditorServer.Server.HandleEvent | examples/collaborative-editor/server.ts:283-470 | Every event, messages that are not JSON and cleanup included, is one step of the model and keeps its invariant. |
| SlidingWindow.StoredIsRecent | src/rate-limiter.ts:115-128 | Pruning and expiry leave exactly the attempts of the log that are still in the window. |
| SlidingWindow.LimiterRefinesLog | src/rate-limiter.ts:104-151 | An attempt is allowed if and only if the window that ends with it holds at most 'maxRequests' attempts of the full log, denied ones included; remaining and retryAfter follow from that count, and resetAfterMs is always 0. |
| SlidingWindow.WindowBound | src/rate-limiter.ts:104-151 | Over every run, every window of that length contains at most 'maxRequests' allowed attempts. |
| SlidingWindow.RetryAtOnceDenied | src/rate-limiter.ts:134-147 | After a denial the advice is to wait 0 ms, and whoever does is denied. |
| TokenBucket.ExpiryInvisible | src/rate-limiter.ts:176-209 | An expired key cannot be told from a refilled bucket if and only if the capacity is at most the requests per window. |
| TokenBucket.TokenBound | src/rate-limiter.ts:169-237 | When the capacity is at most the requests per window, the tokens granted in any interval of any run are at most capacity plus refill. |
| TokenBucket.TokenBoundExact | src/rate-limiter.ts:169-237 | The bound holds for all runs if and only if the capacity is at most the requests per window. |
| TokenBucket.RetryAfterExact | src/rate-limiter.ts:196-232 | For any configuration, 'a retry succeeds iff the wait is at least the advice' holds exactly for denied requests within the capacity that lack at most the requests per window; beyond the capacity no retry succeeds. |
| TokenBucket.DenialInvisible | src/rate-limiter.ts:217-222 | When the capacity is at most the requests per window, or the window is one millisecond, inserting a denied check anywhere in a run changes no other decision. |
| TokenBucket.DenialInvisibleExact | src/rate-limiter.ts:169-237 | Denied checks are invisible in all runs if and only if the capacity is at most the requests per window or the window is one millisecond. |
| BucketLaws.BucketExact | src/rate-limiter.ts:169-237 | For any configuration and every run in time order: the limiter's decisions are the only ones that grant exactly the requests that, with what was granted before, stay within capacity plus refill from every moment since the key came to life. |
| BucketLaws.ConverseExact | src/rate-limiter.ts:196-237 | The bound on granted tokens, counted from any time at all, is exact (nothing within it refused, nothing beyond it granted) if and only if the capacity is at most the requests per window. |
| BucketLaws.AnswerExact | src/rate-limiter.ts:205-233 | For any configuration: 'remaining' is what the next request at the same moment can have, and after 'resetAfterMs' without a request everything up to 'limit' can be had. |
| RateLimiter.RateLimiter.KeysApart | src/rate-limiter.ts:79-105 | Connections, rooms and buckets share no key, and different ids have different keys. |
| RateLimiter.RateLimiter.CheckLimit | src/rate-limiter.ts:104-157 | The check on the stored key answers by the full log of that key, extends that log by one and leaves the other keys alone. |
| RateLimiter.RateLimiter.CheckConnectionLimit | src/rate-limiter.ts:79-84 | Allowed iff the connection's window holds at most its maximum plus the burst allowance. |
| RateLimiter.RateLimiter.CheckRoomLimit | src/rate-limiter.ts:91-96 | Likewise for a room. |
| RateLimiter.RateLimiter.CheckBurstTokens | src/rate-limiter.ts:169-237 | The check on the stored bucket answers by all requests made on its key, extends them by one, and leaves the other keys alone; in time order it grants exactly when there is room after what was granted before. |
| RoomLaws.SameKey | src/room-manager.ts:24-25 | A room is stored under the key of another one's participants if and only if its id is that one's behind "participants:". |
| RoomLaws.JoinKeeps | src/room-manager.ts:205-259 | Over ids of which none is another one behind "participants:" (separate ids): a join is granted for exactly the stated reasons, then adds the user, in Redis and in the cache, and changes no other room. |
| RoomLaws.LeaveKeeps | src/room-manager.ts:266-293 | Over separate ids: leaving removes the user and, with the last one, the room unless it is persistent, and changes no other room. |
| RoomLaws.DeleteKeeps | src/room-manager.ts:175-192 | Over separate ids: deleting a room removes it and its participants, and changes no other room. |
| RoomLaws.NextKeeps | src/server.ts:375-439 | Over separate ids every handler keeps sessions, membership, cache and rooms in agreement. |
| RoomLaws.CollisionDisagrees | src/room-manager.ts:140-169 | For every id r: a connection that joins r and then "participants:" + r ends with r in its set, while its user is no participant of r; whoever then asks to join or to leave r is answered SERVER_ERROR, and nothing changes. |
| RoomLaws.AgreementExact | src/server.ts:375-630 | On a node that admits at least one connection, sessions and membership agree in all runs over a set of ids if and only if the ids are separate. |
| RoomLaws.SessionsAndMembershipAgree | src/server.ts:375-630 | In every state that a run over separate ids reaches, a connection has a room iff its user is in the room's participants, nobody participates without a connection, cached participants are the actual ones, and a room is empty only if persistent or not joined since its creation. |
| RoomEffects.JoinEffect | src/server.ts:375-421 | Over separate ids: a connection that asks to join gets the room, and its user becomes a participant, if and only if there was no such room (which then is created with the default limit) or the user is no participant, the room not full and the password right or not needed; nothing else changes. |
| RoomEffects.LeaveEffect | src/server.ts:423-439 | Over separate ids: leaving an existing room takes it from the connection and the user from the participants, the room goes with the last one unless persistent, and nothing else changes. |
| RoomEffects.DisconnectEffect | src/server.ts:597-620 | Over separate ids: a closed connection is gone, its user participates nowhere, its rooms are gone where nobody is left and they are not persistent, and nothing else changes. |
| RoomEffects.CreateEffect | src/room-manager.ts:89-133 | Over separate ids: a room is created, without participants, if and only if there is none. |
| RoomEffects.CleanupEffect | src/room-manager.ts:395-413 | Over separate ids: exactly the cached rooms that are empty and not persistent go, from Redis and cache. |
| RoomEffects.Answers | src/room-manager.ts:205-293 | Over separate ids: which error a join, a leave or a creation is answered with, and when it succeeds. |
| RoomEffects.LookUpCaches | src/room-manager.ts:140-169 | Over separate ids: a look-up caches an existing room if and only if there is space, and drops none. |
| RoomEffects.ConnectionLimit | src/server.ts:160-178 | In every state a run reaches a node has at most its maximum of connections. |
| RoomEffects.OpenEffect | src/server.ts:160-178 | A connection is turned away if and only if the node shuts down or has all it may have. |
| RoomManagerObjects.RoomManager.GetRoom | src/room-manager.ts:140-169 | Answers from cache or Redis, synchronises the count, caches while there is space; keys of the wrong type are no room, or throw for a cached one. |
| RoomManagerObjects.RoomManager.CreateRoom | src/room-manager.ts:89-133 | Refuses a room that is found, else stores and caches an empty one, whatever its key held. |
| RoomManagerObjects.RoomManager.JoinRoom | src/room-manager.ts:205-259 | The checks in order with their errors, and the addition in Redis and in the room object. |
| RoomManagerObjects.RoomManager.LeaveRoom | src/room-manager.ts:266-293 | The removal in both, and the deletion of an empty room. |
| RoomManagerObjects.RoomManager.DeleteRoom | src/room-manager.ts:175-192 | Exactly the two keys of the room and its cached object are gone. |
| RoomManagerObjects.RoomManager.CleanupRooms | src/room-manager.ts:395-413 | The loop deletes exactly the cached rooms that are empty and not persistent, up to the first one whose participants cannot be counted. |
| RoomServerObjects.Server.HandleConnection | src/server.ts:160-225 | A connection during shutdown or over the limit is refused; another one starts without rooms. |
| RoomServerObjects.Server.HandleJoinRoom | src/server.ts:375-421 | Creation on demand, the join, and the connection's room set changed only on success. |
| RoomServerObjects.Server.HandleLeaveRoom | src/server.ts:423-439 | The connection's room set changes only when the manager let the user leave. |
| RoomServerObjects.Server.HandleDisconnection | src/server.ts:597-620 | All rooms of the connection are left one after the other, each once, and then the connection is gone. |
| RoomServerObjects.Server.RouteMessage | src/server.ts:281-299 | Join and leave messages of a live connection are steps of the model, and keep its invariant over separate ids. |
| RoomServerObjects.Server.OnClose | src/server.ts:597-630 | The same as a step of the model, which keeps its invariant over separate ids. |
| RoomServerObjects.Server.HandleEvent | src/server.ts:160-630 | Every event of a node (connections, room requests, messages, closes, cleanup, shutdown, arrivals from the broker) is its step of the model, or none and then changes nothing of it; the invariant over separate ids is kept. |
| RoomServerObjects.Server.DeliverMessage | src/server.ts:541-550 | Every connection's received messages grow by the message if and only if it is open and has the room; rooms and open connections stay as they are. |
| RoomServerObjects.Server.OnMessage | src/message-broker.ts:373-382 | A message is delivered to the room read back from the channel it came on. |
| ChatMessages.HandleChatMessage | src/server.ts:441-487 | A message is turned away for membership iff the user is no participant, at no cost to the room; a participant's message is published iff the room's window of attempts is within the limit; the membership test fails iff the participants' key holds no set. In reachable states over separate ids it does not fail, and the participants are those whose connection joined. |
| RoomCapacity.CapacityBound | src/room-manager.ts:205-241 | Members plus approved joins not yet added never exceed maximum + overlap - 1, under any interleaving. |
| RoomCapacity.BoundReached | src/room-manager.ts:205-241 | For every maximum and overlap some interleaving reaches that many members. |
| RoomCapacity.LimitExact | src/room-manager.ts:205-241 | The maximum is never exceeded if and only if at most one join is between count and addition. |
| RoomCapacity.JoinAlone | src/room-manager.ts:205-241 | A join during which nothing else happens adds its user if and only if the user is no member and the room has no maximum or fewer members. |
| RoomCapacity.LeaveMakesSpace | src/room-manager.ts:266-293 | In a full room a leave makes space for one join. |
| SessionRaces.ApartAgrees | src/server.ts:375-439 | In every interleaving of joins, leaves, closes and cleanups of a room in which joins overlap none of the others, whenever nothing is in progress the participants are the users whose connection is open and has the room. |
| SessionRaces.JoinOutlivesConnection | src/server.ts:597-620 | If joins may overlap closes, a run ends with a participant whose connection is gone. |
| SessionRaces.JoinWithinLeave | src/server.ts:423-439 | If joins may overlap leaves, a run ends with a participant whose connection does not have the room. |
| SessionRaces.JoinWithinCleanup | src/room-manager.ts:395-413 | If joins may overlap the cleanup, a run ends with a connection that has the room while its user is no participant. |
| SessionRaces.RaceExact | src/server.ts:375-439 | Sessions and membership agree at rest in every interleaving if and only if joins overlap neither leaves nor closes nor the cleanup. |
| Channels.ReadBackExact | src/message-broker.ts:375 | A room is read back from its channel if and only if behind the first ":messages" in its id there are only repetitions of it. |
| Channels.MisreadExample | src/message-broker.ts:375 | The channel of "a:messagesb" is read as the room "ab:messages". |
| Delivery.DeliveryIsFaithful | src/server.ts:541-550 | In every reachable state a connection has received, of what its node took from its queue since it connected, exactly the messages routed, by their channel, to the rooms it was in, and open, at that moment, each once. |
| DeliveryRuns.ReceivedByRun | src/server.ts:541-550 | At every delivery of every run, a connection that was there and has not gone since has received the message if and only if, by the steps before, it was open and had entered and not left the room the message is routed to. |
| Delivery.OwnRoomsExact | src/message-broker.ts:363-382 | In all runs over a set of ids connections receive exactly the messages of their own rooms, if and only if every id is read back from its channel. |
| Delivery.PersistedFirst | src/message-broker.ts:90-134 | Whatever waits in a queue or was received is in its room's stream; a queue is the unconsumed end of what was published. |
| Delivery.OneOrder | src/message-broker.ts:363-382 | Any two connections on any nodes received the messages they share in the same order. |
| Delivery.HistoryOrderExact | src/message-broker.ts:97-103 | In any state that keeps the invariant: history agrees with publication order now and in every continuation that starts a publication only when none of its room is in flight, if and only if it agrees now, no room has two in flight, and none in flight was stored before a published one of its room. |
| Delivery.OvertakingReached | src/message-broker.ts:97-103 | A three-step run reaches a state in which history agrees, one message is in flight, and agreement cannot last. |
| Delivery.ReceivedInHistoryOrder | src/message-broker.ts:97-103 | In a run with one publication of a room at a time, what a connection receives comes in the order of the room's history. |
| StreamCodec.PersistedFields | src/message-broker.ts:310-328 | The pushes build the encoding, optional fields only when not empty. |
| StreamCodec.ArrayToObject | src/message-broker.ts:385-391 | The loop over pairs builds the object, an odd last name included; `__proto__` makes no entry. |
| StreamCodec.ObjectMeaning | src/message-broker.ts:385-391 | The object has the names at even positions except `__proto__`, each with the value after its last occurrence. |
| StreamCodec.DecimalRoundTrip | src/message-broker.ts:202-203 | Printing a timestamp and parsing it gives it back. |
| StreamCodec.RoundTrip | src/message-broker.ts:195-207 | Decoding what was stored gives the message up to 'edited', 'metadata' and empty optional fields, whatever the fallbacks. |
| StreamCodec.LosslessExact | src/message-broker.ts:310-326 | Nothing is lost if and only if there was nothing of that kind. |
| History.FullPage | src/message-broker.ts:176-211 | A full page: its messages, and a cursor that leads to its own last entry. |
| History.PageExact | src/message-broker.ts:168-211 | From any cursor, of an entry or not, a page has the entries not older than it up to the limit, says whether there are more, and then gives its last entry as the cursor. |
| History.PagesCoverHistory | src/message-broker.ts:168-211 | With limit at least 2 the pages, without the entry each later one repeats, are the whole stream, and the last says there is no more. |
| History.EndsExact | src/message-broker.ts:168-211 | Following cursors ends if and only if the limit is at least 2, or negative, or the stream fits on one page. |
| History.HistoryIsWhatWasPublished | src/message-broker.ts:168-211 | Paging gives every stored message in order, up to what the encoding drops. |
| History.RecentIsTheEnd | src/message-broker.ts:223-247 | The recent messages are the last ones stored, oldest first. |

## Left out

- `OTEngine.compose`: nothing calls it.
- Operation counts and client revisions that are not whole numbers, negative counts, and operations of unknown type. A negative revision, which makes the fold throw, is modelled.
- MergeLaws.AlignedNeedsNoSplitting: one direction only; a first edit with operations of length zero may or may not come out the same.
- Ladder.LadderConverges: one direction; on a longer ladder differences can cancel out, on one rung the condition is exact.
- Timestamps of stored edits, `lastSeen` and selections of participants, and `ws.on('error')`, which change no other state.
- The fail-open branches of the limiter (a Redis error or an empty pipeline result), and Redis failures in the room manager other than keys of the wrong type.
- Unaligned.CoveredMerge: when an operation of the second edit is longer than one it meets, `StretchedMerge` says what the transformed edit does after the second edit stretched, not on the text the server has.
- TokenBucket.TokenBound: the read and the write of one bucket check are one atomic step, tokens are reals instead of floating-point numbers printed and parsed, and a check needs a positive window and positive requests per window.
- SlidingWindow.WindowBound: the four commands of one check, a pipeline that is not a transaction, are one atomic step, so the commands of two checks do not interleave; times do not decrease and no two attempts of one millisecond draw the same random suffix.
- `resetLimit` and `getStatus`: they use another key prefix for connections than the checks do.
- RoomLaws.SessionsAndMembershipAgree: one node, atomic handlers, distinct user ids (the code takes eight characters of a fresh id), no expiry of room keys. Interleaving at awaits is in `RoomCapacity` and `SessionRaces`.
- RoomLaws.AgreementExact: a node whose connection limit is zero has no sessions and agrees over any ids.
- SessionRaces.RaceExact: one room, one connection a user, participants and room sets only; the stored room and the cached one, and the steps by which a join creates them, are not part of the interleaving.
- Names, descriptions, creators and creation times of rooms, and the participant lists sent to clients.
- Notices, presence, typing, acknowledgements, the dead letter queue, `listPublicRooms`, password hashing, metrics, heartbeat, and shutdown beyond the refusal of connections.
- Delivery.PersistedFirst: streams are not trimmed and nodes do not miss what is published after they subscribed.
- StreamCodec.DecimalRoundTrip: timestamps are below the point where a number prints with an exponent; of the characters `parseInt` skips only blanks, tabs and line ends are modelled.

/** What every run of the collaborative editor keeps. */
module EditorLaws {
  import opened Wrappers
  import opened TextEdits
  import opened EditorModel

  // ---- Histories ---------------------------------------------------------------

  lemma {:induction false} ReplayConcat(d: string, a: seq<Edit>, b: seq<Edit>)
    ensures Replay(d, a + b) == Replay(Replay(d, a), b)
    decreases |a|
  {
    if a == [] {
      assert a + b == b;
    } else {
      assert (a + b)[1..] == a[1..] + b;
      ReplayConcat(Apply(d, a[0]), a[1..], b);
    }
  }

  lemma ReplayOneMore(d: string, log: seq<ClientOperation>, entry: ClientOperation)
    ensures Replay(d, Edits(log + [entry])) == Apply(Replay(d, Edits(log)), entry.operations)
  {
    var one := [entry.operations];
    assert Edits(log + [entry]) == Edits(log) + one;
    ReplayConcat(d, Edits(log), one);
    assert one[1..] == [];
    assert Replay(Replay(d, Edits(log)), one) == Replay(Apply(Replay(d, Edits(log)), one[0]), one[1..]);
  }

  lemma ModStep(m: nat)
    ensures (m + 1) % 501 == if m % 501 == 500 then 0 else m % 501 + 1
  {
    assert m + 1 == 501 * (m / 501) + (m % 501 + 1);
  }

  lemma {:induction false} WindowClosed(n: nat)
    ensures WindowLength(n) == if n <= MAX_HISTORY then n else 500 + (n - 1001) % 501
  {
    if n > 0 { WindowClosed(n - 1); }
    if n > MAX_HISTORY + 1 { ModStep(n - MAX_HISTORY - 2); }
  }

  lemma TrimStep(operations: seq<ClientOperation>, log: seq<ClientOperation>, entry: ClientOperation)
    requires operations == log[|log| - WindowLength(|log|)..]
    ensures Trim(operations + [entry]) == (log + [entry])[|log + [entry]| - WindowLength(|log + [entry]|)..]
  {
    var longer := log + [entry];
    assert |longer| == |log| + 1;
    assert operations + [entry] == longer[|log| - WindowLength(|log|)..];
  }

  lemma AcceptKeepsDoc(d: DocId, doc: Doc, entry: ClientOperation, now: nat)
    requires DocInv(d, doc)
    requires entry.documentId == d && entry.revision == doc.revision + 1
    ensures DocInv(d, Accept(doc, entry, now))
  {
    TrimStep(doc.operations, doc.log, entry);
    ReplayOneMore("", doc.log, entry);
  }

  // ---- Events ------------------------------------------------------------------

  lemma EditEventsOneMore(sent: seq<Event>, e: Event)
    ensures EditEvents(sent + [e]) == EditEvents(sent) + if IsEdit(e) then [e] else []
  {
    assert (sent + [e])[..|sent|] == sent;
  }

  /** An event other than an edit or a snapshot changes nothing for a socket. */
  lemma QuietEvent(c: ClientId, socket: Socket, log: seq<ClientOperation>, e: Event)
    requires SocketInv(c, socket, log) && !IsEdit(e) && !e.Snapshot?
    ensures SocketInv(c, socket.(sent := socket.sent + [e]), log)
  {
    EditEventsOneMore(socket.sent, e);
  }

  lemma EditEvent(c: ClientId, socket: Socket, log: seq<ClientOperation>, entry: ClientOperation)
    requires SocketInv(c, socket, log)
    ensures SocketInv(c, socket.(sent := socket.sent + [EventFor(c, entry)]), log + [entry])
  {
    var e, joined := EventFor(c, entry), socket.sent[0].revision;
    EditEventsOneMore(socket.sent, e);
    assert (log + [entry])[..joined] == log[..joined];
    assert (log + [entry])[joined..] == log[joined..] + [entry];
    assert EventsFor(c, log[joined..] + [entry]) == EventsFor(c, log[joined..]) + [e];
  }

  // ---- Sending -------------------------------------------------------------------

  lemma SendKeepsMembers(documents: map<DocId, Doc>, sockets: map<ClientId, Socket>, to: set<ClientId>, e: Event)
    requires MembersInv(documents, sockets)
    ensures MembersInv(documents, SendAll(sockets, to, e))
  {
    var after := SendAll(sockets, to, e);
    forall c, d ensures ConnectedTo(after, c, d) <==> Participates(documents, c, d) {
      assert ConnectedTo(after, c, d) <==> ConnectedTo(sockets, c, d);
    }
  }

  lemma QuietSend(sockets: map<ClientId, Socket>, documents: map<DocId, Doc>, to: set<ClientId>, e: Event)
    requires SocketsInv(sockets, documents) && !IsEdit(e) && !e.Snapshot?
    ensures SocketsInv(SendAll(sockets, to, e), documents)
  {
    var after := SendAll(sockets, to, e);
    forall c | c in after && after[c].open
      ensures after[c].documentId in documents && SocketInv(c, after[c], documents[after[c].documentId].log)
    {
      if c in to { QuietEvent(c, sockets[c], documents[sockets[c].documentId].log, e); }
    }
  }

  /** Telling the author and the other participants of an accepted edit. */
  function Tell(sockets: map<ClientId, Socket>, participants: set<ClientId>, entry: ClientOperation)
    : map<ClientId, Socket>
  {
    SendAll(SendAll(sockets, {entry.clientId}, Ack(entry.revision, entry.operations)),
            participants - {entry.clientId}, Broadcast(entry.clientId, entry.operations, entry.revision))
  }

  lemma TellEach(sockets: map<ClientId, Socket>, participants: set<ClientId>, entry: ClientOperation, x: ClientId)
    requires x in sockets
    requires entry.clientId in participants
    ensures x in Tell(sockets, participants, entry)
    ensures Tell(sockets, participants, entry)[x] ==
      if x in participants && sockets[x].open
      then sockets[x].(sent := sockets[x].sent + [EventFor(x, entry)]) else sockets[x]
  {}

  lemma TellKeepsSockets(sockets: map<ClientId, Socket>, documents: map<DocId, Doc>, d: DocId, doc: Doc,
                         participants: set<ClientId>, entry: ClientOperation)
    requires SocketsInv(sockets, documents) && d in documents && entry.clientId in participants
    requires doc.log == documents[d].log + [entry]
    requires forall x :: x in participants <==> ConnectedTo(sockets, x, d)
    ensures SocketsInv(Tell(sockets, participants, entry), documents[d := doc])
  {
    var after, documents' := Tell(sockets, participants, entry), documents[d := doc];
    forall x | x in after && after[x].open
      ensures after[x].documentId in documents' && SocketInv(x, after[x], documents'[after[x].documentId].log)
    {
      TellEach(sockets, participants, entry, x);
      assert x in participants <==> ConnectedTo(sockets, x, d);
      if x in participants { EditEvent(x, sockets[x], documents[d].log, entry); }
    }
  }

  // ---- Every step keeps the invariant ----------------------------------------------

  lemma CreateKeepsMembers(documents: map<DocId, Doc>, sockets: map<ClientId, Socket>, d: DocId, now: nat)
    requires MembersInv(documents, sockets) && d !in documents
    ensures MembersInv(documents[d := NewDoc(now)], sockets)
  {
    forall c, x ensures ConnectedTo(sockets, c, x) <==> Participates(documents[d := NewDoc(now)], c, x) {
      assert ConnectedTo(sockets, c, x) <==> Participates(documents, c, x);
    }
  }

  lemma NothingReplayed(d: string, edits: seq<Edit>)
    requires |edits| == 0
    ensures Replay(d, edits) == d
  {}

  lemma NewDocInv(d: DocId, now: nat)
    ensures DocInv(d, NewDoc(now))
  {
    var doc := NewDoc(now);
    NothingReplayed(doc.content, Edits(doc.log));
  }

  lemma CreateKeepsDocs(documents: map<DocId, Doc>, d: DocId, now: nat)
    requires DocsInv(documents) && d !in documents
    ensures DocsInv(documents[d := NewDoc(now)])
  {
    NewDocInv(d, now);
  }

  /** Adding a document, or changing one but for its history. */
  lemma SocketsKept(sockets: map<ClientId, Socket>, documents: map<DocId, Doc>, d: DocId, doc: Doc)
    requires SocketsInv(sockets, documents)
    requires d in documents ==> doc.log == documents[d].log
    ensures SocketsInv(sockets, documents[d := doc])
  {
    var documents' := documents[d := doc];
    forall c | c in sockets && sockets[c].open
      ensures sockets[c].documentId in documents' && SocketInv(c, sockets[c], documents'[sockets[c].documentId].log)
    {
      assert sockets[c].documentId in documents && SocketInv(c, sockets[c], documents[sockets[c].documentId].log);
    }
  }

  lemma CreateKeeps(s: State, d: DocId, now: nat)
    requires Inv(s)
    ensures Inv(WithDocument(s, d, now))
  {
    if d !in s.documents {
      CreateKeepsMembers(s.documents, s.sockets, d, now);
      CreateKeepsDocs(s.documents, d, now);
      SocketsKept(s.sockets, s.documents, d, NewDoc(now));
    }
  }

  lemma SameMembers(documents: map<DocId, Doc>, sockets: map<ClientId, Socket>, d: DocId, doc: Doc)
    requires MembersInv(documents, sockets) && d in documents
    requires doc.participants.Keys == documents[d].participants.Keys
    ensures MembersInv(documents[d := doc], sockets)
  {
    forall c, x ensures ConnectedTo(sockets, c, x) <==> Participates(documents[d := doc], c, x) {
      assert ConnectedTo(sockets, c, x) <==> Participates(documents, c, x);
    }
  }

  lemma DocsKept(documents: map<DocId, Doc>, d: DocId, doc: Doc)
    requires DocsInv(documents) && d in documents
    requires doc == documents[d].(participants := doc.participants)
    ensures DocsInv(documents[d := doc])
  {
    assert DocInv(d, documents[d]);
  }

  /** Changing a participant's data, and sending an event that is neither an
      edit nor a snapshot. */
  lemma QuietKeeps(s: State, d: DocId, doc: Doc, to: set<ClientId>, e: Event)
    requires Inv(s) && d in s.documents
    requires doc == s.documents[d].(participants := doc.participants)
    requires doc.participants.Keys == s.documents[d].participants.Keys
    requires !IsEdit(e) && !e.Snapshot?
    ensures Inv(s.(documents := s.documents[d := doc], sockets := SendAll(s.sockets, to, e)))
  {
    SameMembers(s.documents, s.sockets, d, doc);
    SendKeepsMembers(s.documents[d := doc], s.sockets, to, e);
    DocsKept(s.documents, d, doc);
    SocketsKept(s.sockets, s.documents, d, doc);
    QuietSend(s.sockets, s.documents[d := doc], to, e);
  }

  /** Sending an event that is neither an edit nor a snapshot. */
  lemma QuietSendKeeps(s: State, to: set<ClientId>, e: Event)
    requires Inv(s) && !IsEdit(e) && !e.Snapshot?
    ensures Inv(s.(sockets := SendAll(s.sockets, to, e)))
  {
    SendKeepsMembers(s.documents, s.sockets, to, e);
    QuietSend(s.sockets, s.documents, to, e);
  }

  lemma FirstEvents(c: ClientId, d: DocId, doc: Doc, presence: Event)
    requires DocInv(d, doc) && presence.PresenceUpdate?
    ensures SocketInv(c, Socket(d, true, [Snapshot(doc.content, doc.revision), presence]), doc.log)
  {
    var log := doc.log;
    var first := Snapshot(doc.content, doc.revision);
    assert [] + [first] == [first] && [first] + [presence] == [first, presence];
    EditEventsOneMore([], first);
    EditEventsOneMore([first], presence);
    assert log[..|log|] == log && log[|log|..] == [];
    assert EventsFor(c, []) == [];
  }

  lemma JoinKeepsMembers(documents: map<DocId, Doc>, sockets: map<ClientId, Socket>, c: ClientId, d: DocId,
                         p: Participant, socket: Socket)
    requires MembersInv(documents, sockets) && c !in sockets && d in documents && socket.documentId == d
    ensures MembersInv(documents[d := documents[d].(participants := documents[d].participants[c := p])],
                       sockets[c := socket])
  {
    var documents', sockets' :=
      documents[d := documents[d].(participants := documents[d].participants[c := p])], sockets[c := socket];
    forall y, x ensures ConnectedTo(sockets', y, x) <==> Participates(documents', y, x) {
      assert ConnectedTo(sockets, y, x) <==> Participates(documents, y, x);
      assert ConnectedTo(sockets, c, x) <==> Participates(documents, c, x);
    }
  }

  lemma JoinKeeps(s: State, c: ClientId, d: DocId, p: Participant)
    requires Inv(s) && c !in s.sockets && d in s.documents
    ensures Inv(JoinStep(s, c, d, p))
  {
    var doc := s.documents[d];
    var joined := doc.(participants := doc.participants[c := p]);
    var presence := PresenceUpdate(Profiles(joined.participants));
    var socket := Socket(d, true, [Snapshot(doc.content, doc.revision), presence]);
    var sent := SendAll(s.sockets, joined.participants.Keys, presence);
    FirstEvents(c, d, doc, presence);
    SendKeepsMembers(s.documents, s.sockets, joined.participants.Keys, presence);
    JoinKeepsMembers(s.documents, sent, c, d, p, socket);
    DocsKept(s.documents, d, joined);
    SocketsKept(s.sockets, s.documents, d, joined);
    QuietSend(s.sockets, s.documents[d := joined], joined.participants.Keys, presence);
    JoinKeepsSockets(sent, s.documents[d := joined], c, socket);
  }

  lemma JoinKeepsSockets(sockets: map<ClientId, Socket>, documents: map<DocId, Doc>, c: ClientId, socket: Socket)
    requires SocketsInv(sockets, documents) && socket.documentId in documents
    requires SocketInv(c, socket, documents[socket.documentId].log)
    ensures SocketsInv(sockets[c := socket], documents)
  {}

  lemma AcceptKeepsDocs(documents: map<DocId, Doc>, d: DocId, entry: ClientOperation, now: nat)
    requires DocsInv(documents) && d in documents
    requires entry.documentId == d && entry.revision == documents[d].revision + 1
    ensures DocsInv(documents[d := Accept(documents[d], entry, now)])
  {
    AcceptKeepsDoc(d, documents[d], entry, now);
  }

  lemma AcceptKeeps(s: State, c: ClientId, d: DocId, ops: Edit, revision: nat, now: nat)
    requires Inv(s) && c in s.sockets && s.sockets[c].documentId == d && d in s.documents
    ensures Inv(AcceptStep(s, c, d, ops, revision, now))
  {
    var doc := s.documents[d];
    var entry := EntryFor(doc, d, c, ops, revision);
    var accepted := Accept(doc, entry, now);
    assert ConnectedTo(s.sockets, c, d);
    AcceptKeepsDocs(s.documents, d, entry, now);
    forall x ensures x in doc.participants.Keys <==> ConnectedTo(s.sockets, x, d) {
      assert ConnectedTo(s.sockets, x, d) <==> Participates(s.documents, x, d);
    }
    TellKeepsSockets(s.sockets, s.documents, d, accepted, doc.participants.Keys, entry);
    SameMembers(s.documents, s.sockets, d, accepted);
    var acked := SendAll(s.sockets, {c}, Ack(entry.revision, entry.operations));
    SendKeepsMembers(s.documents[d := accepted], s.sockets, {c}, Ack(entry.revision, entry.operations));
    SendKeepsMembers(s.documents[d := accepted], acked, doc.participants.Keys - {c},
                     Broadcast(c, entry.operations, entry.revision));
  }

  lemma LeaveKeepsMembers(documents: map<DocId, Doc>, sockets: map<ClientId, Socket>, c: ClientId, d: DocId)
    requires MembersInv(documents, sockets) && ConnectedTo(sockets, c, d) && d in documents
    ensures MembersInv(documents[d := documents[d].(participants := documents[d].participants - {c})], sockets - {c})
  {
    var documents' := documents[d := documents[d].(participants := documents[d].participants - {c})];
    forall y, x ensures ConnectedTo(sockets - {c}, y, x) <==> Participates(documents', y, x) {
      assert ConnectedTo(sockets, y, x) <==> Participates(documents, y, x);
    }
  }

  lemma CloseKeeps(s: State, c: ClientId, now: nat)
    requires Inv(s) && c in s.sockets
    ensures Inv(CloseStep(s, c, now))
  {
    var d := s.sockets[c].documentId;
    assert ConnectedTo(s.sockets, c, d);
    assert Participates(s.documents, c, d);
    var doc := s.documents[d];
    var left := doc.participants - {c};
    LeaveKeepsMembers(s.documents, s.sockets, c, d);
    DocsKept(s.documents, d, doc.(participants := left));
    SocketsKept(s.sockets, s.documents, d, doc.(participants := left));
    assert SocketsInv(s.sockets - {c}, s.documents[d := doc.(participants := left)]);
    var t := s.(documents := s.documents[d := doc.(participants := left)], sockets := s.sockets - {c});
    QuietSendKeeps(t, left.Keys, PresenceUpdate(Profiles(left)));
  }

  lemma CleanupKeepsMembers(documents: map<DocId, Doc>, sockets: map<ClientId, Socket>, now: nat)
    requires MembersInv(documents, sockets)
    ensures MembersInv(KeptDocs(documents, now), sockets)
  {
    var kept := KeptDocs(documents, now);
    forall c, d ensures ConnectedTo(sockets, c, d) <==> Participates(kept, c, d) {
      assert ConnectedTo(sockets, c, d) <==> Participates(documents, c, d);
    }
  }

  lemma CleanupKeeps(s: State, now: nat)
    requires Inv(s)
    ensures Inv(CleanupStep(s, now))
  {
    CleanupKeepsMembers(s.documents, s.sockets, now);
    var t := CleanupStep(s, now);
    forall c | c in s.sockets && s.sockets[c].open
      ensures s.sockets[c].documentId in t.documents
    {
      var d := s.sockets[c].documentId;
      assert ConnectedTo(s.sockets, c, d);
      assert Participates(s.documents, c, d);
      assert !Stale(s.documents[d], now);
    }
  }

  lemma ClosingKeeps(s: State, c: ClientId)
    requires Inv(s) && c in s.sockets
    ensures Inv(s.(sockets := s.sockets[c := s.sockets[c].(open := false)]))
  {
    var sockets' := s.sockets[c := s.sockets[c].(open := false)];
    forall y, x ensures ConnectedTo(sockets', y, x) <==> Participates(s.documents, y, x) {
      assert ConnectedTo(s.sockets, y, x) <==> Participates(s.documents, y, x);
    }
  }

  /** A connected client's document exists and lists it. */
  lemma HasDocument(s: State, c: ClientId)
    requires Inv(s) && c in s.sockets
    ensures Participates(s.documents, c, s.sockets[c].documentId)
    ensures forall now :: WithDocument(s, s.sockets[c].documentId, now) == s
  {
    assert ConnectedTo(s.sockets, c, s.sockets[c].documentId);
  }

  lemma SubmitKeeps(s: State, c: ClientId, ops: Option<Edit>, revision: int, now: nat)
    requires Inv(s) && c in s.sockets
    ensures Inv(SubmitStep(s, c, ops, revision, now))
  {
    HasDocument(s, c);
    if ops.None? || ops.value == [] {
      QuietSendKeeps(s, {c}, ErrorEvent("INVALID_OP"));
    } else if revision < 0 {
      QuietSendKeeps(s, {c}, ErrorEvent("INVALID_MESSAGE"));
    } else {
      AcceptKeeps(s, c, s.sockets[c].documentId, ops.value, revision, now);
    }
  }

  lemma CursorKeeps(s: State, c: ClientId, position: int, now: nat)
    requires Inv(s) && c in s.sockets
    ensures Inv(CursorStep(s, c, position, now))
  {
    HasDocument(s, c);
    var d := s.sockets[c].documentId;
    var doc := s.documents[d];
    var p := doc.participants[c].(cursorPosition := position);
    QuietKeeps(s, d, doc.(participants := doc.participants[c := p]), doc.participants.Keys - {c},
               CursorUpdate(c, position, p.color));
  }

  lemma RenameKeeps(s: State, c: ClientId, name: string, now: nat)
    requires Inv(s) && c in s.sockets
    ensures Inv(RenameStep(s, c, name, now))
  {
    HasDocument(s, c);
    var d := s.sockets[c].documentId;
    var doc := s.documents[d];
    var renamed := doc.participants[c := doc.participants[c].(displayName := Take(name, MAX_NAME))];
    QuietKeeps(s, d, doc.(participants := renamed), renamed.Keys, PresenceUpdate(Profiles(renamed)));
  }

  lemma NextKeeps(s: State, step: Step)
    requires Inv(s) && Enabled(s, step)
    ensures Inv(Next(s, step))
  {
    match step
    case Connect(c, d, name, color, now) =>
      CreateKeeps(s, d, now);
      JoinKeeps(WithDocument(s, d, now), c, d, Participant(name, 0, color));
    case Submit(c, ops, revision, now) => SubmitKeeps(s, c, ops, revision, now);
    case MoveCursor(c, position, now) => CursorKeeps(s, c, position, now);
    case Rename(c, name, now) => RenameKeeps(s, c, name, now);
    case Unknown(c, now) =>
      HasDocument(s, c);
      QuietSendKeeps(s, {c}, ErrorEvent("UNKNOWN_TYPE"));
    case Malformed(c) => QuietSendKeeps(s, {c}, ErrorEvent("INVALID_MESSAGE"));
    case StartClosing(c) => ClosingKeeps(s, c);
    case Close(c, now) => CloseKeeps(s, c, now);
    case Cleanup(now) => CleanupKeeps(s, now);
  }

  lemma {:induction false} RunKeeps(s: State, steps: seq<Step>)
    requires Inv(s) && Runs(s, steps)
    ensures Inv(After(s, steps))
    decreases |steps|
  {
    if steps != [] {
      NextKeeps(s, steps[0]);
      RunKeeps(Next(s, steps[0]), steps[1..]);
    }
  }

  /** In every reachable state. */
  lemma Reachable(steps: seq<Step>)
    requires Runs(INITIAL, steps)
    ensures Inv(After(INITIAL, steps))
  {
    RunKeeps(INITIAL, steps);
  }

  /** The text at revision `r`. */
  function TextAt(doc: Doc, r: nat): string
    requires r <= |doc.log|
  {
    Replay("", Edits(doc.log[..r]))
  }

  lemma TextNow(d: DocId, doc: Doc, r: nat)
    requires DocInv(d, doc) && r <= |doc.log|
    ensures doc.content == Replay(TextAt(doc, r), Edits(doc.log[r..]))
  {
    assert Edits(doc.log) == Edits(doc.log[..r]) + Edits(doc.log[r..]);
    ReplayConcat("", Edits(doc.log[..r]), Edits(doc.log[r..]));
  }

  // ---- Replicas ------------------------------------------------------------------

  lemma {:induction false} ReceiveConcat(copy: Option<Copy>, a: seq<Event>, b: seq<Event>)
    ensures ReceiveAll(copy, a + b) == ReceiveAll(ReceiveAll(copy, a), b)
    decreases |b|
  {
    if b == [] {
      assert a + b == a;
    } else {
      var n := |b| - 1;
      assert (a + b)[..|a + b| - 1] == a + b[..n];
      ReceiveConcat(copy, a, b[..n]);
    }
  }

  lemma {:induction false} QuietReceive(copy: Option<Copy>, events: seq<Event>)
    requires forall k :: 0 <= k < |events| ==> !events[k].Snapshot?
    ensures ReceiveAll(copy, events) == ReceiveAll(copy, EditEvents(events))
    decreases |events|
  {
    if events != [] {
      var front, last := events[..|events| - 1], events[|events| - 1];
      QuietReceive(copy, front);
      if IsEdit(last) {
        assert (EditEvents(front) + [last])[..|EditEvents(front)|] == EditEvents(front);
      } else {
        assert EditEvents(events) == EditEvents(front);
      }
    }
  }

  /** Receiving the events for a stretch of the history replays it. */
  lemma {:induction false} ReceiveHistory(c: ClientId, content: string, log: seq<ClientOperation>, from: nat)
    requires forall k :: 0 <= k < |log| ==> log[k].revision == from + k + 1
    ensures ReceiveAll(Some(Copy(content, from)), EventsFor(c, log)) ==
      Some(Copy(Replay(content, Edits(log)), from + |log|))
    decreases |log|
  {
    if log == [] {
      assert EventsFor(c, log) == [];
    } else {
      var front, last := log[..|log| - 1], log[|log| - 1];
      ReceiveHistory(c, content, front, from);
      assert log == front + [last];
      assert EventsFor(c, log) == EventsFor(c, front) + [EventFor(c, last)];
      assert (EventsFor(c, front) + [EventFor(c, last)])[..|front|] == EventsFor(c, front);
      ReplayOneMore(content, front, last);
    }
  }

  lemma ReceiveFirst(first: Event, rest: seq<Event>)
    requires first.Snapshot?
    requires forall k :: 0 <= k < |rest| ==> !rest[k].Snapshot?
    ensures ReceiveAll(None, [first] + rest) ==
      ReceiveAll(Some(Copy(first.content, first.revision)), EditEvents([first] + rest))
  {
    ReceiveConcat(None, [first], rest);
    assert [first][..0] == [];
    assert ReceiveAll(None, [first]) == Receive(ReceiveAll(None, []), first);
    QuietReceive(Some(Copy(first.content, first.revision)), rest);
    SkipFirst(first, rest);
  }

  /** A socket that satisfies the invariant has been sent what it takes. */
  lemma SocketReplays(c: ClientId, d: DocId, doc: Doc, socket: Socket)
    requires DocInv(d, doc) && SocketInv(c, socket, doc.log)
    ensures ReceiveAll(None, socket.sent) == Some(Copy(doc.content, doc.revision))
  {
    var first, rest, joined := socket.sent[0], socket.sent[1..], socket.sent[0].revision;
    assert socket.sent == [first] + rest;
    ReceiveFirst(first, rest);
    ReceiveHistory(c, first.content, doc.log[joined..], joined);
    TextNow(d, doc, joined);
  }

  lemma {:induction false} SkipFirst(first: Event, rest: seq<Event>)
    requires !IsEdit(first)
    ensures EditEvents([first] + rest) == EditEvents(rest)
    decreases |rest|
  {
    var all := [first] + rest;
    if rest == [] {
      assert all[..0] == [];
    } else {
      assert all[..|all| - 1] == [first] + rest[..|rest| - 1];
      SkipFirst(first, rest[..|rest| - 1]);
    }
  }

  lemma PendingReplays(c: ClientId, d: DocId, doc: Doc, socket: Socket, received: nat)
    requires DocInv(d, doc) && SocketInv(c, socket, doc.log) && received <= |socket.sent|
    ensures ReceiveAll(ReceiveAll(None, socket.sent[..received]), socket.sent[received..])
         == Some(Copy(doc.content, doc.revision))
  {
    SocketReplays(c, d, doc, socket);
    ReceiveConcat(None, socket.sent[..received], socket.sent[received..]);
    assert socket.sent == socket.sent[..received] + socket.sent[received..];
  }

  /** Replica convergence. In every reachable state, take an open connection and
      any point up to which its client has received what was sent: playing the
      pending events on the client's copy yields the server's content and
      revision, without a gap. */
  lemma ReplicasConverge(steps: seq<Step>, c: ClientId, received: nat)
    requires Runs(INITIAL, steps)
    requires c in After(INITIAL, steps).sockets && After(INITIAL, steps).sockets[c].open
    requires received <= |After(INITIAL, steps).sockets[c].sent|
    ensures
      var s := After(INITIAL, steps);
      var socket := s.sockets[c];
      var copy := ReceiveAll(None, socket.sent[..received]);
      && socket.documentId in s.documents
      && var doc := s.documents[socket.documentId];
         ReceiveAll(copy, socket.sent[received..]) == Some(Copy(doc.content, doc.revision))
  {
    Reachable(steps);
    var s := After(INITIAL, steps);
    HasDocument(s, c);
    var d := s.sockets[c].documentId;
    PendingReplays(c, d, s.documents[d], s.sockets[c], received);
  }

  /** After its snapshot the socket was sent one event for each later edit, in order. */
  ghost predicate SentEachEdit(c: ClientId, doc: Doc, socket: Socket) {
    && socket.sent != [] && socket.sent[0].Snapshot?
    && var joined, edits := socket.sent[0].revision, EditEvents(socket.sent);
       && joined + |edits| == |doc.log| == doc.revision
       && forall k :: 0 <= k < |edits| ==>
            doc.log[joined + k].revision == joined + k + 1 && edits[k] == EventFor(c, doc.log[joined + k])
  }

  lemma SocketSentEach(c: ClientId, d: DocId, doc: Doc, socket: Socket)
    requires DocInv(d, doc) && SocketInv(c, socket, doc.log)
    ensures SentEachEdit(c, doc, socket)
  {
    var joined := socket.sent[0].revision;
    var later := doc.log[joined..];
    assert EditEvents(socket.sent) == EventsFor(c, later);
    forall k | 0 <= k < |later|
      ensures doc.log[joined + k].revision == joined + k + 1
      ensures EventsFor(c, later)[k] == EventFor(c, doc.log[joined + k])
    {
      assert later[k] == doc.log[joined + k];
    }
  }

  /** One message per edit: an open connection has been sent, after its
      snapshot, one acknowledgement for each own edit and one broadcast for each
      other edit accepted since, in order and with consecutive revisions. */
  lemma OneEventPerEdit(steps: seq<Step>, c: ClientId)
    requires Runs(INITIAL, steps)
    requires c in After(INITIAL, steps).sockets && After(INITIAL, steps).sockets[c].open
    ensures
      var s := After(INITIAL, steps);
      var socket := s.sockets[c];
      socket.documentId in s.documents && SentEachEdit(c, s.documents[socket.documentId], socket)
  {
    Reachable(steps);
    var s := After(INITIAL, steps);
    HasDocument(s, c);
    var d := s.sockets[c].documentId;
    SocketSentEach(c, d, s.documents[d], s.sockets[c]);
  }

  /** The content is the replay of the whole history; the kept edits are the
      last ones, so and so many, with consecutive revisions up to the current. */
  predicate KeepsWindow(doc: Doc) {
    var kept := |doc.operations|;
    && doc.revision == |doc.log|
    && doc.content == Replay("", Edits(doc.log))
    && kept == (if doc.revision <= 1000 then doc.revision else 500 + (doc.revision - 1001) % 501)
    && kept <= |doc.log| && doc.operations == doc.log[|doc.log| - kept..]
    && forall k :: 0 <= k < kept ==> doc.operations[k].revision == doc.revision - kept + k + 1
  }

  lemma DocWindow(d: DocId, doc: Doc)
    requires DocInv(d, doc)
    ensures KeepsWindow(doc)
  {
    WindowClosed(doc.revision);
  }

  lemma ReachableDoc(steps: seq<Step>, d: DocId)
    requires Runs(INITIAL, steps) && d in After(INITIAL, steps).documents
    ensures DocInv(d, After(INITIAL, steps).documents[d])
  {
    Reachable(steps);
  }

  /** The window of kept edits and the content, in every reachable state. */
  lemma HistoryWindow(steps: seq<Step>, d: DocId)
    requires Runs(INITIAL, steps) && d in After(INITIAL, steps).documents
    ensures KeepsWindow(After(INITIAL, steps).documents[d])
  {
    ReachableDoc(steps, d);
    DocWindow(d, After(INITIAL, steps).documents[d]);
  }

  // ---- The fold ------------------------------------------------------------------

  /** The fold of a client at a revision the server has reached visits exactly
      the edits accepted since, in order, if and only if the history has never
      been trimmed or there is nothing to visit. */
  lemma FoldVisitsUnseen(d: DocId, doc: Doc, revision: nat)
    requires DocInv(d, doc) && revision <= doc.revision
    ensures Unseen(doc.operations, revision) == Edits(doc.log[revision..])
      <==> (doc.revision <= MAX_HISTORY || revision == doc.revision)
  {
    var log := doc.log;
    WindowClosed(|log|);
    if |log| > MAX_HISTORY {
      if revision < |log| {
        assert |Unseen(doc.operations, revision)| < |Edits(log[revision..])|;
      } else {
        assert Edits(log[revision..]) == [];
      }
    } else {
      assert doc.operations == log;
    }
  }

  lemma {:induction false} RunOneMore(s: State, steps: seq<Step>, step: Step)
    requires Runs(s, steps) && Enabled(After(s, steps), step)
    ensures Runs(s, steps + [step]) && After(s, steps + [step]) == Next(After(s, steps), step)
    decreases |steps|
  {
    if steps == [] {
      assert [step][1..] == [] && steps + [step] == [step];
      assert Runs(Next(s, step), []) && After(Next(s, step), []) == Next(s, step);
    } else {
      assert (steps + [step])[1..] == steps[1..] + [step];
      RunOneMore(Next(s, steps[0]), steps[1..], step);
    }
  }

  /** A run after which client `c` edits document `d`, which is at revision `n`. */
  lemma {:induction false} RevisionReached(c: ClientId, d: DocId, n: nat) returns (steps: seq<Step>)
    ensures Runs(INITIAL, steps) && ConnectedTo(After(INITIAL, steps).sockets, c, d)
    ensures d in After(INITIAL, steps).documents && After(INITIAL, steps).documents[d].revision == n
  {
    if n == 0 {
      var step := Connect(c, d, "User", "red", 0);
      assert Runs(INITIAL, []) && After(INITIAL, []) == INITIAL;
      RunOneMore(INITIAL, [], step);
      steps := [] + [step];
    } else {
      var before := RevisionReached(c, d, n - 1);
      var step := Submit(c, Some([Insert("x")]), 0, 0);
      RunOneMore(INITIAL, before, step);
      steps := before + [step];
    }
  }

  /** Every later revision is reached by some run, and there the fold of a client
      that has seen nothing does not visit what it has not seen. */
  lemma TrimmedFoldReached(c: ClientId, d: DocId, n: nat) returns (steps: seq<Step>)
    requires n > MAX_HISTORY
    ensures Runs(INITIAL, steps) && d in After(INITIAL, steps).documents
    ensures
      var doc := After(INITIAL, steps).documents[d];
      doc.revision == n && Unseen(doc.operations, 0) != Edits(doc.log)
  {
    steps := RevisionReached(c, d, n);
    ReachableDoc(steps, d);
    var doc := After(INITIAL, steps).documents[d];
    FoldVisitsUnseen(d, doc, 0);
    assert doc.log[0..] == doc.log;
  }
}

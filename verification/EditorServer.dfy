/** The collaborative editor server as it runs: documents and connections that
    the event handlers update in place. Every handler is proved to take exactly
    the step of `EditorModel` that bears its name. */
module EditorServer {
  import opened Wrappers
  import opened TextEdits
  import opened EditorModel
  import opened EditorLaws
  import OTEngineLoops

  class Document {
    const id: DocId
    var content: string
    var revision: nat
    var operations: seq<ClientOperation>
    var participants: map<ClientId, Participant>
    var lastModified: nat
    ghost var log: seq<ClientOperation>  // every edit ever accepted

    constructor (id: DocId, now: nat)
      ensures this.id == id && Value() == NewDoc(now)
    {
      this.id := id;
      log := [];
      content, revision, operations, participants, lastModified := "", 0, [], map[], now;
    }

    ghost function Value(): Doc
      reads this
    {
      Doc(content, revision, operations, participants, lastModified, log)
    }

    /** Applies an accepted edit, stamps it, stores it and trims the history. */
    method Record(entry: ClientOperation, now: nat)
      modifies this
      ensures Value() == Accept(old(Value()), entry, now)
    {
      log := log + [entry];
      var newContent := OTEngineLoops.OTEngine.ApplyOps(content, entry.operations);
      content := newContent;
      revision := revision + 1;
      lastModified := now;
      operations := operations + [entry];
      if |operations| > 1000 {
        operations := operations[|operations| - 500..];
      }
    }

    /** The fold over the kept edits, from the client's revision as an index on. */
    method TransformAgainstUnseen(ops: Edit, clientRevision: nat) returns (transformed: Edit)
      ensures transformed == Fold(ops, Unseen(operations, clientRevision))
    {
      transformed := ops;
      var i := clientRevision;
      while i < |operations|
        invariant Fold(transformed, Unseen(operations, i)) == Fold(ops, Unseen(operations, clientRevision))
      {
        UnseenStep(operations, i);
        transformed := OTEngineLoops.OTEngine.TransformOps(transformed, operations[i].operations);
        i := i + 1;
      }
    }
  }

  /** A web socket with what its handlers have bound: the client id, the
      document id, and the document object found when it connected. */
  class Connection {
    const clientId: ClientId
    const documentId: DocId
    const doc: Document
    var open: bool
    var sent: seq<Event>

    constructor (clientId: ClientId, documentId: DocId, doc: Document)
      ensures this.clientId == clientId && this.documentId == documentId && this.doc == doc
      ensures open && sent == []
    {
      this.clientId, this.documentId, this.doc := clientId, documentId, doc;
      open, sent := true, [];
    }

    ghost function Value(): Socket
      reads this
    {
      Socket(documentId, open, sent)
    }

    /** `send`: dropped unless the socket is open. */
    method Send(e: Event)
      modifies this`sent
      ensures sent == if open then old(sent) + [e] else old(sent)
    {
      if open { sent := sent + [e]; }
    }
  }

  class Server {
    var documents: map<DocId, Document>
    var clients: map<ClientId, Connection>

    ghost function Docs(): map<DocId, Doc>
      reads this`documents, documents.Values
    {
      map d | d in documents :: documents[d].Value()
    }

    ghost function Sockets(): map<ClientId, Socket>
      reads this`clients, clients.Values
    {
      map c | c in clients :: clients[c].Value()
    }

    ghost function Abs(): State
      reads this, documents.Values, clients.Values
    {
      State(Docs(), Sockets())
    }

    /** Objects are filed under their own ids, so no two names share one; and
        every connection is bound to the current object of its document. */
    ghost predicate Bound()
      reads this
    {
      && (forall d :: d in documents ==> documents[d].id == d)
      && (forall c :: c in clients ==> clients[c].clientId == c)
      && (forall c :: c in clients ==>
            clients[c].documentId in documents && clients[c].doc == documents[clients[c].documentId])
    }

    /** Bound, and the invariant of all reachable states holds. */
    ghost predicate Valid()
      reads this, documents.Values, clients.Values
    {
      Bound() && Inv(Abs())
    }

    constructor ()
      ensures Valid() && Abs() == INITIAL
    {
      documents, clients := map[], map[];
      new;
      assert Docs() == map[] && Sockets() == map[];
      Reachable([]);
    }

    // ---- What stays the same when only other objects change ------------------------

    twostate lemma SocketsKept()
      requires clients == old(clients) && forall c :: c in clients ==> clients[c].Value() == old(clients[c].Value())
      ensures Sockets() == old(Sockets())
    {}

    twostate lemma DocsKept()
      requires documents == old(documents)
      requires forall d :: d in documents ==> documents[d].Value() == old(documents[d].Value())
      ensures Docs() == old(Docs())
    {}

    twostate lemma OneDocChanged(d: DocId)
      requires documents == old(documents) && d in documents
      requires forall x :: x in documents && x != d ==> documents[x].Value() == old(documents[x].Value())
      ensures Docs() == old(Docs())[d := documents[d].Value()]
    {}

    twostate lemma OneSocketChanged(c: ClientId)
      requires clients == old(clients) && c in clients
      requires forall x :: x in clients && x != c ==> clients[x].Value() == old(clients[x].Value())
      ensures Sockets() == old(Sockets())[c := clients[c].Value()]
    {}

    // ---- Small updates, each with its effect on the whole state -------------------

    method AddDocument(doc: Document)
      requires Bound()
      modifies this`documents
      ensures documents == old(documents)[doc.id := doc]
      ensures Abs() == old(Abs()).(documents := old(Docs())[doc.id := doc.Value()])
    {
      documents := documents[doc.id := doc];
      assert Docs() == old(Docs())[doc.id := doc.Value()];
    }

    method GetDocument(docId: DocId, now: nat) returns (doc: Document)
      requires Bound()
      modifies this`documents
      ensures Bound() && docId in documents && doc == documents[docId]
      ensures documents == old(documents)[docId := doc]
      ensures if docId in old(documents) then doc == old(documents)[docId] else fresh(doc)
      ensures Abs() == WithDocument(old(Abs()), docId, now)
    {
      if docId !in documents {
        var created := new Document(docId, now);
        AddDocument(created);
      }
      doc := documents[docId];
    }

    /** `doc.participants` is changed in place. */
    method SetParticipants(d: DocId, participants: map<ClientId, Participant>)
      requires Bound() && d in documents
      modifies documents[d]
      ensures Abs() == old(Abs()).(documents := old(Docs())[d := old(Docs())[d].(participants := participants)])
    {
      documents[d].participants := participants;
      OneDocChanged(d);
      SocketsKept();
    }

    method SendOn(ws: Connection, e: Event)
      requires Bound() && ws.clientId in clients && clients[ws.clientId] == ws
      modifies ws`sent
      ensures Sockets() == old(Sockets())[ws.clientId := WithEvent(old(Sockets())[ws.clientId], e)]
    {
      ws.Send(e);
      OneSocketChanged(ws.clientId);
    }

    method SendOne(clientId: ClientId, e: Event)
      requires Bound()
      modifies clients.Values`sent
      ensures Sockets() == SendAll(old(Sockets()), {clientId}, e)
    {
      SendAllToOne(Sockets(), clientId, e);
      if clientId in clients { SendOn(clients[clientId], e); }
    }

    /** `send` to the socket of a client, if it has one. */
    method SendTo(clientId: ClientId, e: Event)
      requires Bound()
      modifies clients.Values`sent
      ensures Abs() == old(Abs()).(sockets := SendAll(old(Sockets()), {clientId}, e))
    {
      SendOne(clientId, e);
    }

    method SendToEach(participants: set<ClientId>, e: Event, exclude: Option<ClientId>)
      requires Bound()
      modifies clients.Values`sent
      ensures Abs() == old(Abs()).(sockets := SendAll(old(Sockets()), Audience(participants, exclude), e))
    {
      var left := participants;
      ghost var done: set<ClientId> := {};
      SendToNone(Sockets(), e);
      while left != {}
        invariant left <= participants
        invariant forall c :: c in done <==> c in participants && c !in left && exclude != Some(c)
        invariant Abs() == old(Abs()).(sockets := SendAll(old(Sockets()), done, e))
        decreases |left|
      {
        var clientId :| clientId in left;
        left := left - {clientId};
        if exclude == Some(clientId) { continue; }
        SendTo(clientId, e);
        SendOneMore(old(Sockets()), done, clientId, e);
        done := done + {clientId};
      }
      assert done == Audience(participants, exclude);
    }

    /** To the participants of the document, except the excluded one. The document
        is created if there is none, and then has nobody to send to. */
    method BroadcastToDoc(documentId: DocId, e: Event, exclude: Option<ClientId>, now: nat)
      requires Bound()
      modifies this`documents, clients.Values`sent
      ensures Bound() && (documentId in old(documents) ==> documents == old(documents))
      ensures Abs() == BroadcastStep(old(Abs()), documentId, e, exclude, now)
    {
      var doc := GetDocument(documentId, now);
      SendToEach(doc.participants.Keys, e, exclude);
    }

    method Register(clientId: ClientId, documentId: DocId, doc: Document) returns (ws: Connection)
      requires Bound() && clientId !in clients && documentId in documents && doc == documents[documentId]
      modifies this`clients
      ensures Bound() && fresh(ws) && clients == old(clients)[clientId := ws]
      ensures Abs() == old(Abs()).(sockets := old(Sockets())[clientId := Socket(documentId, true, [])])
    {
      ws := new Connection(clientId, documentId, doc);
      clients := clients[clientId := ws];
      assert Sockets() == old(Sockets())[clientId := Socket(documentId, true, [])];
      DocsKept();
    }

    // ---- Event handlers ----------------------------------------------------------

    /** The snapshot and the participants for the newcomer, the participants for
        everybody else. */
    method Greet(clientId: ClientId, documentId: DocId, now: nat)
      requires Bound() && documentId in documents
      modifies this`documents, clients.Values`sent
      ensures Bound() && documents == old(documents) && clients == old(clients)
      ensures Abs() == Greeted(old(Abs()), clientId, documentId)
    {
      var doc := documents[documentId];
      var presence := PresenceUpdate(Profiles(doc.participants));
      SendTo(clientId, Snapshot(doc.content, doc.revision));
      SendTo(clientId, presence);
      BroadcastToDoc(documentId, presence, Some(clientId), now);
    }

    /** The connection in the table of clients, the participant in the document. */
    method Admit(clientId: ClientId, documentId: DocId, doc: Document, participant: Participant)
      returns (ws: Connection)
      requires Bound() && clientId !in clients && documentId in documents && doc == documents[documentId]
      modifies this`clients, doc
      ensures Bound() && fresh(ws) && clients == old(clients)[clientId := ws]
      ensures forall conn :: conn in clients.Values ==> conn == ws || conn in old(clients.Values)
      ensures Abs() == Admitted(old(Abs()), clientId, documentId, participant)
    {
      ws := Register(clientId, documentId, doc);
      SetParticipants(documentId, doc.participants[clientId := participant]);
    }

    method Join(clientId: ClientId, documentId: DocId, doc: Document, participant: Participant, now: nat)
      returns (ws: Connection)
      requires Bound() && clientId !in clients && documentId in documents && doc == documents[documentId]
      modifies this, doc, clients.Values
      ensures Bound() && documents == old(documents) && fresh(ws) && clients == old(clients)[clientId := ws]
      ensures Abs() == JoinStep(old(Abs()), clientId, documentId, participant)
    {
      ghost var before := Abs();
      ws := Admit(clientId, documentId, doc, participant);
      Greet(clientId, documentId, now);
      JoinSends(before, clientId, documentId, participant);
    }

    /** A new connection: registered, sent the document, announced to the others. */
    method HandleConnection(clientId: ClientId, documentId: DocId, displayName: string, color: string, now: nat)
      requires Bound() && clientId !in clients
      modifies this, documents.Values, clients.Values
      ensures Bound() && documentId in documents && clientId in clients && fresh(clients[clientId])
      ensures clients == old(clients)[clientId := clients[clientId]]
      ensures documents == old(documents)[documentId := documents[documentId]]
      ensures documentId !in old(documents) ==> fresh(documents[documentId])
      ensures Abs() == ConnectStep(old(Abs()), clientId, documentId, Participant(displayName, 0, color), now)
    {
      var doc := GetDocument(documentId, now);
      var ws := Join(clientId, documentId, doc, Participant(displayName, 0, color), now);
    }

    method RemoveClient(clientId: ClientId)
      requires Bound()
      modifies this`clients
      ensures Bound() && clients == old(clients) - {clientId}
      ensures Abs() == old(Abs()).(sockets := old(Sockets()) - {clientId})
    {
      clients := clients - {clientId};
      assert Sockets() == old(Sockets()) - {clientId};
      DocsKept();
    }

    method HandleClose(clientId: ClientId, now: nat)
      requires Bound() && clientId in clients
      modifies this, documents.Values, clients.Values
      ensures Bound() && documents == old(documents) && clients == old(clients) - {clientId}
      ensures Abs() == CloseStep(old(Abs()), clientId, now)
    {
      var ws := clients[clientId];
      var documentId, doc := ws.documentId, ws.doc;
      RemoveClient(clientId);
      var remaining := doc.participants - {clientId};
      Announce(documentId, remaining, PresenceUpdate(Profiles(remaining)), None, now);
    }

    method Record(entry: ClientOperation, now: nat)
      requires Bound() && entry.documentId in documents
      modifies documents[entry.documentId]
      ensures Abs() == old(Abs()).(documents :=
        old(Docs())[entry.documentId := Accept(old(Docs())[entry.documentId], entry, now)])
    {
      documents[entry.documentId].Record(entry, now);
      OneDocChanged(entry.documentId);
      SocketsKept();
    }

    method Publish(clientId: ClientId, documentId: DocId, entry: ClientOperation, now: nat)
      requires Bound() && documentId in documents
      modifies this`documents, clients.Values`sent
      ensures Bound() && documents == old(documents)
      ensures Abs() == old(Abs()).(sockets :=
        SendAll(SendAll(old(Sockets()), {clientId}, Ack(entry.revision, entry.operations)),
                old(Docs())[documentId].participants.Keys - {clientId},
                Broadcast(clientId, entry.operations, entry.revision)))
    {
      SendTo(clientId, Ack(entry.revision, entry.operations));
      BroadcastToDoc(documentId, Broadcast(clientId, entry.operations, entry.revision), Some(clientId), now);
    }

    method StoreAndPublish(entry: ClientOperation, now: nat)
      requires Bound() && entry.documentId in documents
      modifies this`documents, documents[entry.documentId], clients.Values`sent
      ensures Bound() && documents == old(documents)
      ensures Abs() == AcceptEntry(old(Abs()), entry, now)
    {
      Record(entry, now);
      Publish(entry.clientId, entry.documentId, entry, now);
    }

    method MakeEntry(clientId: ClientId, documentId: DocId, ops: Edit, clientRevision: nat)
      returns (entry: ClientOperation)
      requires documentId in documents
      ensures entry == EntryFor(Docs()[documentId], documentId, clientId, ops, clientRevision)
      ensures entry.documentId == documentId
    {
      var doc := documents[documentId];
      var transformed := doc.TransformAgainstUnseen(ops, clientRevision);
      entry := ClientOperation(clientId, documentId, doc.revision + 1, transformed);
    }

    method AcceptOp(clientId: ClientId, documentId: DocId, ops: Edit, clientRevision: nat, now: nat)
      requires Bound() && documentId in documents
      modifies this`documents, documents[documentId], clients.Values`sent
      ensures Bound() && documents == old(documents)
      ensures Abs() == AcceptStep(old(Abs()), clientId, documentId, ops, clientRevision, now)
    {
      var entry := MakeEntry(clientId, documentId, ops, clientRevision);
      assert AcceptStep(Abs(), clientId, documentId, ops, clientRevision, now) == AcceptEntry(Abs(), entry, now);
      StoreAndPublish(entry, now);
    }

    /** An edit from a client: refused when it is not a list or empty. A negative
        revision makes the access to the history throw before anything has been
        changed, which the message handler reports to the client. */
    method HandleOp(clientId: ClientId, ops: Option<Edit>, clientRevision: int, now: nat)
      requires Bound() && clientId in clients
      modifies this`documents, documents.Values, clients.Values`sent
      ensures Bound() && documents == old(documents)
      ensures Abs() == SubmitStep(old(Abs()), clientId, ops, clientRevision, now)
    {
      var documentId := clients[clientId].documentId;
      if ops.None? || ops.value == [] {
        SendTo(clientId, ErrorEvent("INVALID_OP"));
        return;
      }
      if clientRevision < 0 {
        SendTo(clientId, ErrorEvent("INVALID_MESSAGE"));
        return;
      }
      AcceptOp(clientId, documentId, ops.value, clientRevision, now);
    }

    /** A participant's data has changed, and this is announced. */
    method Announce(documentId: DocId, participants: map<ClientId, Participant>, e: Event, exclude: Option<ClientId>,
                    now: nat)
      requires Bound() && documentId in documents
      modifies this`documents, documents[documentId], clients.Values`sent
      ensures Bound() && documents == old(documents)
      ensures Abs() == old(Abs()).(
        documents := old(Docs())[documentId := old(Docs())[documentId].(participants := participants)],
        sockets := SendAll(old(Sockets()), Audience(participants.Keys, exclude), e))
    {
      SetParticipants(documentId, participants);
      BroadcastToDoc(documentId, e, exclude, now);
    }

    method HandleCursor(clientId: ClientId, position: int, now: nat)
      requires Bound() && clientId in clients
      modifies this`documents, documents.Values, clients.Values`sent
      ensures Bound() && documents == old(documents)
      ensures Abs() == CursorStep(old(Abs()), clientId, position, now)
    {
      var documentId := clients[clientId].documentId;
      var doc := documents[documentId];
      if clientId in doc.participants {
        var participant := doc.participants[clientId].(cursorPosition := position);
        var moved := doc.participants[clientId := participant];
        assert moved.Keys == doc.participants.Keys;
        Announce(documentId, moved, CursorUpdate(clientId, position, participant.color), Some(clientId), now);
      }
    }

    method HandleName(clientId: ClientId, name: string, now: nat)
      requires Bound() && clientId in clients
      modifies this`documents, documents.Values, clients.Values`sent
      ensures Bound() && documents == old(documents)
      ensures Abs() == RenameStep(old(Abs()), clientId, name, now)
    {
      var documentId := clients[clientId].documentId;
      var doc := documents[documentId];
      if clientId in doc.participants && name != "" {
        var participant := doc.participants[clientId].(displayName := Take(name, 20));
        var renamed := doc.participants[clientId := participant];
        Announce(documentId, renamed, PresenceUpdate(Profiles(renamed)), None, now);
      }
    }

    method HandleStartClosing(clientId: ClientId)
      requires Bound() && clientId in clients
      modifies clients[clientId]
      ensures Abs() == Next(old(Abs()), StartClosing(clientId))
    {
      clients[clientId].open := false;
      DocsKept();
      OneSocketChanged(clientId);
    }

    /** Forgets a document that nobody edits and that has not changed for a day. */
    method DropIfStale(docId: DocId, now: nat)
      requires docId in documents
      modifies this`documents
      ensures documents == old(documents) || documents == old(documents) - {docId}
      ensures Docs() == if Stale(old(Docs())[docId], now) then old(Docs()) - {docId} else old(Docs())
    {
      var doc := documents[docId];
      if |doc.participants| == 0 && now - doc.lastModified > 86400000 {
        documents := documents - {docId};
        assert Docs() == old(Docs()) - {docId};
      }
    }

    method DropStaleDocs(now: nat)
      modifies this`documents
      ensures Docs() == KeptDocs(old(Docs()), now)
      ensures forall d :: d in documents ==> d in old(documents) && documents[d] == old(documents)[d]
    {
      var left := documents.Keys;
      ghost var docs := Docs();
      while left != {}
        invariant left <= documents.Keys && Docs() == KeptBut(docs, now, left)
        invariant forall d :: d in documents ==> d in old(documents) && documents[d] == old(documents)[d]
      {
        var docId :| docId in left;
        KeptOneMore(docs, now, left, docId);
        DropIfStale(docId, now);
        left := left - {docId};
      }
    }

    method CleanupDocuments(now: nat)
      requires Bound()
      requires forall c :: c in clients ==> |documents[clients[c].documentId].participants| > 0
      modifies this`documents
      ensures Bound()
      ensures Abs() == CleanupStep(old(Abs()), now)
    {
      ghost var docs := Docs();
      DropStaleDocs(now);
      SocketsKept();
      assert forall c :: c in clients ==> clients[c].documentId in KeptDocs(docs, now);
    }

    // ---- The event loop ------------------------------------------------------------

    /** One event. From a valid server on, every event takes the step of the
        state machine and leaves the server valid. */
    method HandleEvent(step: Step)
      requires Valid() && Enabled(Abs(), step)
      modifies this, documents.Values, clients.Values
      ensures Valid() && Abs() == Next(old(Abs()), step)
    {
      NextKeeps(Abs(), step);
      forall c | c in clients ensures |documents[clients[c].documentId].participants| > 0 {
        HasDocument(Abs(), c);
        assert c in documents[clients[c].documentId].participants.Keys;
      }
      Dispatch(step);
    }

    method Dispatch(step: Step)
      requires Bound() && Enabled(Abs(), step)
      requires step.Cleanup? ==> forall c :: c in clients ==> |documents[clients[c].documentId].participants| > 0
      modifies this, documents.Values, clients.Values
      ensures Bound() && Abs() == Next(old(Abs()), step)
    {
      match step
      case Connect(c, d, name, color, now) => HandleConnection(c, d, name, color, now);
      case Submit(c, ops, revision, now) => HandleOp(c, ops, revision, now);
      case MoveCursor(c, position, now) => HandleCursor(c, position, now);
      case Rename(c, name, now) => HandleName(c, name, now);
      case Unknown(c, now) => SendTo(c, ErrorEvent("UNKNOWN_TYPE"));
      case Malformed(c) => SendTo(c, ErrorEvent("INVALID_MESSAGE"));
      case StartClosing(c) => HandleStartClosing(c);
      case Close(c, now) => HandleClose(c, now);
      case Cleanup(now) => CleanupDocuments(now);
    }
  }

  function BroadcastStep(s: State, d: DocId, e: Event, exclude: Option<ClientId>, now: nat): State {
    var t := WithDocument(s, d, now);
    t.(sockets := SendAll(t.sockets, Audience(t.documents[d].participants.Keys, exclude), e))
  }

  function Audience(participants: set<ClientId>, exclude: Option<ClientId>): set<ClientId> {
    if exclude.Some? then participants - {exclude.value} else participants
  }

  /** The newcomer as a client and participant who has been sent nothing. */
  function Admitted(s: State, c: ClientId, d: DocId, p: Participant): State
    requires d in s.documents
  {
    var doc := s.documents[d];
    State(s.documents[d := doc.(participants := doc.participants[c := p])], s.sockets[c := Socket(d, true, [])])
  }

  /** The newcomer's own events, sent one by one, and the announcement. */
  function Greeted(s: State, c: ClientId, d: DocId): State
    requires d in s.documents
  {
    var doc := s.documents[d];
    var presence := PresenceUpdate(Profiles(doc.participants));
    var own := SendAll(SendAll(s.sockets, {c}, Snapshot(doc.content, doc.revision)), {c}, presence);
    s.(sockets := SendAll(own, doc.participants.Keys - {c}, presence))
  }

  lemma JoinSends(s: State, c: ClientId, d: DocId, p: Participant)
    requires d in s.documents && c !in s.sockets
    ensures Greeted(Admitted(s, c, d, p), c, d) == JoinStep(s, c, d, p)
  {
    var doc := s.documents[d];
    var joined := doc.participants[c := p];
    var snapshot, presence := Snapshot(doc.content, doc.revision), PresenceUpdate(Profiles(joined));
    assert ([] + [snapshot]) + [presence] == [snapshot, presence];
    var registered := s.sockets[c := Socket(d, true, [])];
    var own := SendAll(SendAll(registered, {c}, snapshot), {c}, presence);
    assert own[c] == Socket(d, true, [snapshot, presence]);
    var after := SendAll(own, joined.Keys - {c}, presence);
    forall x | x in after ensures x in JoinStep(s, c, d, p).sockets && JoinStep(s, c, d, p).sockets[x] == after[x] {
    }
  }

  lemma UnseenStep(operations: seq<ClientOperation>, i: nat)
    requires i < |operations|
    ensures Unseen(operations, i) == [operations[i].operations] + Unseen(operations, i + 1)
  {
    assert operations[i..] == [operations[i]] + operations[i + 1..];
  }

  /** The documents of `left` have still to be looked at. */
  function KeptBut(docs: map<DocId, Doc>, now: nat, left: set<DocId>): map<DocId, Doc> {
    map d | d in docs && (d in left || !Stale(docs[d], now)) :: docs[d]
  }

  lemma KeptOneMore(docs: map<DocId, Doc>, now: nat, left: set<DocId>, d: DocId)
    requires d in left && d in KeptBut(docs, now, left)
    ensures KeptBut(docs, now, left)[d] == docs[d]
    ensures KeptBut(docs, now, left - {d}) ==
      if Stale(docs[d], now) then KeptBut(docs, now, left) - {d} else KeptBut(docs, now, left)
  {}

  function WithEvent(socket: Socket, e: Event): Socket {
    if socket.open then socket.(sent := socket.sent + [e]) else socket
  }

  lemma SendAllToOne(sockets: map<ClientId, Socket>, c: ClientId, e: Event)
    ensures SendAll(sockets, {c}, e) == if c in sockets then sockets[c := WithEvent(sockets[c], e)] else sockets
  {}

  lemma SendToNone(sockets: map<ClientId, Socket>, e: Event)
    ensures SendAll(sockets, {}, e) == sockets
  {}

  lemma SendOneMore(sockets: map<ClientId, Socket>, done: set<ClientId>, c: ClientId, e: Event)
    requires c !in done
    ensures SendAll(SendAll(sockets, done, e), {c}, e) == SendAll(sockets, done + {c}, e)
  {}
}

/** The collaborative editor as a state machine on values: documents, sockets
    with everything sent to them, and one step per event the server handles. */
module EditorModel {
  import opened Wrappers
  import opened TextEdits

  type ClientId = string
  type DocId = string

  /** An accepted edit as the server keeps it. */
  datatype ClientOperation = ClientOperation(clientId: ClientId, documentId: DocId, revision: nat, operations: Edit)

  datatype Participant = Participant(displayName: string, cursorPosition: int, color: string)

  datatype Profile = Profile(displayName: string, color: string)

  /** A document. `log` is the history of all edits ever accepted; it is here for
      specification: the server itself keeps only the window `operations`. */
  datatype Doc = Doc(content: string, revision: nat, operations: seq<ClientOperation>,
                     participants: map<ClientId, Participant>, lastModified: nat,
                     log: seq<ClientOperation>)

  datatype Event =
    | Snapshot(content: string, revision: nat)
    | Ack(revision: nat, operations: Edit)
    | Broadcast(clientId: ClientId, operations: Edit, revision: nat)
    | PresenceUpdate(participants: map<ClientId, Profile>)
    | CursorUpdate(clientId: ClientId, position: int, color: string)
    | ErrorEvent(code: string)

  /** A connection: the document it edits, whether the socket is open, and what
      has been sent over it, oldest first. */
  datatype Socket = Socket(documentId: DocId, open: bool, sent: seq<Event>)

  datatype State = State(documents: map<DocId, Doc>, sockets: map<ClientId, Socket>)

  const INITIAL := State(map[], map[])

  const MAX_HISTORY := 1000
  const KEPT_HISTORY := 500
  const STALE_MS := 86400000
  const MAX_NAME := 20

  // ---- Sending ---------------------------------------------------------------

  /** `send` to each of `to`: a socket that is not open drops the event. */
  function SendAll(sockets: map<ClientId, Socket>, to: set<ClientId>, e: Event): map<ClientId, Socket> {
    map c | c in sockets ::
      if c in to && sockets[c].open then sockets[c].(sent := sockets[c].sent + [e]) else sockets[c]
  }

  function Profiles(participants: map<ClientId, Participant>): map<ClientId, Profile> {
    map c | c in participants :: Profile(participants[c].displayName, participants[c].color)
  }

  // ---- Documents -------------------------------------------------------------

  function NewDoc(now: nat): Doc {
    Doc("", 0, [], map[], now, [])
  }

  /** `getDocument`: the document is created when it does not exist. */
  function WithDocument(s: State, d: DocId, now: nat): State {
    if d in s.documents then s else s.(documents := s.documents[d := NewDoc(now)])
  }

  function Edits(ops: seq<ClientOperation>): seq<Edit> {
    seq(|ops|, i requires 0 <= i < |ops| => ops[i].operations)
  }

  /** The kept edits that the fold of a client at `revision` visits: the
      revision is used as an index into the kept edits. */
  function Unseen(operations: seq<ClientOperation>, revision: nat): seq<Edit> {
    if revision <= |operations| then Edits(operations[revision..]) else []
  }

  function Trim(operations: seq<ClientOperation>): seq<ClientOperation> {
    if |operations| > MAX_HISTORY then operations[|operations| - KEPT_HISTORY..] else operations
  }

  /** The document after an edit of client `c` has been accepted. */
  function Accept(doc: Doc, entry: ClientOperation, now: nat): Doc {
    doc.(content := Apply(doc.content, entry.operations), revision := doc.revision + 1,
         operations := Trim(doc.operations + [entry]), lastModified := now, log := doc.log + [entry])
  }

  function EntryFor(doc: Doc, d: DocId, c: ClientId, ops: Edit, revision: nat): ClientOperation {
    ClientOperation(c, d, doc.revision + 1, Fold(ops, Unseen(doc.operations, revision)))
  }

  // ---- Steps -----------------------------------------------------------------

  datatype Step =
    | Connect(client: ClientId, documentId: DocId, displayName: string, color: string, now: nat)
    | Submit(client: ClientId, ops: Option<Edit>, clientRevision: int, now: nat)
    | MoveCursor(client: ClientId, position: int, now: nat)
    | Rename(client: ClientId, name: string, now: nat)
    | Unknown(client: ClientId, now: nat)
    | Malformed(client: ClientId)
    | StartClosing(client: ClientId)
    | Close(client: ClientId, now: nat)
    | Cleanup(now: nat)

  /** Client ids are fresh, and only connected clients send events. */
  predicate Enabled(s: State, step: Step) {
    match step
    case Connect(c, _, _, _, _) => c !in s.sockets
    case Cleanup(_) => true
    case _ => step.client in s.sockets
  }

  function ConnectStep(s: State, c: ClientId, d: DocId, p: Participant, now: nat): State {
    JoinStep(WithDocument(s, d, now), c, d, p)
  }

  function JoinStep(s: State, c: ClientId, d: DocId, p: Participant): State
    requires d in s.documents
  {
    var doc := s.documents[d];
    var joined := doc.(participants := doc.participants[c := p]);
    var presence := PresenceUpdate(Profiles(joined.participants));
    var socket := Socket(d, true, [Snapshot(doc.content, doc.revision), presence]);
    s.(documents := s.documents[d := joined],
       sockets := SendAll(s.sockets, joined.participants.Keys, presence)[c := socket])
  }

  function SubmitStep(s: State, c: ClientId, ops: Option<Edit>, revision: int, now: nat): State
    requires c in s.sockets
  {
    var d := s.sockets[c].documentId;
    var t := WithDocument(s, d, now);
    if ops.None? || ops.value == [] then
      t.(sockets := SendAll(t.sockets, {c}, ErrorEvent("INVALID_OP")))
    else if revision < 0 then
      // Indexing the history with a negative number throws; nothing has been changed yet.
      t.(sockets := SendAll(t.sockets, {c}, ErrorEvent("INVALID_MESSAGE")))
    else
      AcceptStep(t, c, d, ops.value, revision, now)
  }

  function AcceptStep(s: State, c: ClientId, d: DocId, ops: Edit, revision: nat, now: nat): State
    requires d in s.documents
  {
    AcceptEntry(s, EntryFor(s.documents[d], d, c, ops, revision), now)
  }

  function AcceptEntry(s: State, entry: ClientOperation, now: nat): State
    requires entry.documentId in s.documents
  {
    var c, d := entry.clientId, entry.documentId;
    State(s.documents[d := Accept(s.documents[d], entry, now)],
          SendAll(SendAll(s.sockets, {c}, Ack(entry.revision, entry.operations)),
                  s.documents[d].participants.Keys - {c}, Broadcast(c, entry.operations, entry.revision)))
  }

  function CursorStep(s: State, c: ClientId, position: int, now: nat): State
    requires c in s.sockets
  {
    var d := s.sockets[c].documentId;
    var t := WithDocument(s, d, now);
    var doc := t.documents[d];
    if c !in doc.participants then t
    else
      var p := doc.participants[c].(cursorPosition := position);
      t.(documents := t.documents[d := doc.(participants := doc.participants[c := p])],
         sockets := SendAll(t.sockets, doc.participants.Keys - {c}, CursorUpdate(c, position, p.color)))
  }

  function RenameStep(s: State, c: ClientId, name: string, now: nat): State
    requires c in s.sockets
  {
    var d := s.sockets[c].documentId;
    var t := WithDocument(s, d, now);
    var doc := t.documents[d];
    if c !in doc.participants || name == "" then t
    else
      var p := doc.participants[c].(displayName := Take(name, MAX_NAME));
      var renamed := doc.participants[c := p];
      t.(documents := t.documents[d := doc.(participants := renamed)],
         sockets := SendAll(t.sockets, renamed.Keys, PresenceUpdate(Profiles(renamed))))
  }

  function CloseStep(s: State, c: ClientId, now: nat): State
    requires c in s.sockets
  {
    var d := s.sockets[c].documentId;
    var t := WithDocument(s.(sockets := s.sockets - {c}), d, now);
    var doc := t.documents[d];
    var left := doc.participants - {c};
    t.(documents := t.documents[d := doc.(participants := left)],
       sockets := SendAll(t.sockets, left.Keys, PresenceUpdate(Profiles(left))))
  }

  predicate Stale(doc: Doc, now: nat) {
    |doc.participants| == 0 && now - doc.lastModified > STALE_MS
  }

  function KeptDocs(documents: map<DocId, Doc>, now: nat): map<DocId, Doc> {
    map d | d in documents && !Stale(documents[d], now) :: documents[d]
  }

  function CleanupStep(s: State, now: nat): State {
    s.(documents := KeptDocs(s.documents, now))
  }

  function Next(s: State, step: Step): State
    requires Enabled(s, step)
  {
    match step
    case Connect(c, d, name, color, now) => ConnectStep(s, c, d, Participant(name, 0, color), now)
    case Submit(c, ops, revision, now) => SubmitStep(s, c, ops, revision, now)
    case MoveCursor(c, position, now) => CursorStep(s, c, position, now)
    case Rename(c, name, now) => RenameStep(s, c, name, now)
    case Unknown(c, now) =>
      var t := WithDocument(s, s.sockets[c].documentId, now);
      t.(sockets := SendAll(t.sockets, {c}, ErrorEvent("UNKNOWN_TYPE")))
    case Malformed(c) => s.(sockets := SendAll(s.sockets, {c}, ErrorEvent("INVALID_MESSAGE")))
    case StartClosing(c) => s.(sockets := s.sockets[c := s.sockets[c].(open := false)])
    case Close(c, now) => CloseStep(s, c, now)
    case Cleanup(now) => CleanupStep(s, now)
  }

  /** The steps can be taken one after the other. */
  predicate Runs(s: State, steps: seq<Step>)
    decreases |steps|
  {
    steps == [] || (Enabled(s, steps[0]) && Runs(Next(s, steps[0]), steps[1..]))
  }

  function After(s: State, steps: seq<Step>): State
    requires Runs(s, steps)
    decreases |steps|
  {
    if steps == [] then s else After(Next(s, steps[0]), steps[1..])
  }

  // ---- A client's copy -----------------------------------------------------------

  /** A client's copy of its document. */
  datatype Copy = Copy(content: string, revision: nat)

  /** What an event does to a copy; a copy is lost when a revision is skipped,
      repeated or comes before the first snapshot. */
  function Receive(copy: Option<Copy>, e: Event): Option<Copy> {
    match e
    case Snapshot(content, revision) => Some(Copy(content, revision))
    case Ack(revision, ops) => ReceiveEdit(copy, revision, ops)
    case Broadcast(_, ops, revision) => ReceiveEdit(copy, revision, ops)
    case _ => copy
  }

  function ReceiveEdit(copy: Option<Copy>, revision: nat, ops: Edit): Option<Copy> {
    if copy.Some? && revision == copy.value.revision + 1
    then Some(Copy(Apply(copy.value.content, ops), revision))
    else None
  }

  function ReceiveAll(copy: Option<Copy>, events: seq<Event>): Option<Copy>
    decreases |events|
  {
    if events == [] then copy
    else Receive(ReceiveAll(copy, events[..|events| - 1]), events[|events| - 1])
  }

  predicate IsEdit(e: Event) {
    e.Ack? || e.Broadcast?
  }

  /** The edits among the events. */
  function EditEvents(events: seq<Event>): seq<Event>
    decreases |events|
  {
    if events == [] then []
    else
      var last := events[|events| - 1];
      EditEvents(events[..|events| - 1]) + if IsEdit(last) then [last] else []
  }

  /** The event that tells client `c` of an accepted edit. */
  function EventFor(c: ClientId, entry: ClientOperation): Event {
    if entry.clientId == c then Ack(entry.revision, entry.operations)
    else Broadcast(entry.clientId, entry.operations, entry.revision)
  }

  function EventsFor(c: ClientId, log: seq<ClientOperation>): seq<Event> {
    seq(|log|, i requires 0 <= i < |log| => EventFor(c, log[i]))
  }

  // ---- The invariant -------------------------------------------------------------

  /** How many edits the server keeps of a history of `n`: one more with every edit,
      until there are too many. */
  function WindowLength(n: nat): (r: nat)
    ensures r <= n && r <= MAX_HISTORY
  {
    if n == 0 then 0
    else if WindowLength(n - 1) == MAX_HISTORY then KEPT_HISTORY
    else WindowLength(n - 1) + 1
  }

  /** Revisions are consecutive, the content is the replay of all accepted
      edits, and the kept edits are the last ones. */
  ghost predicate DocInv(d: DocId, doc: Doc) {
    var log := doc.log;
    && doc.revision == |log|
    && (forall k :: 0 <= k < |log| ==> log[k].revision == k + 1 && log[k].documentId == d)
    && doc.content == Replay("", Edits(log))
    && doc.operations == log[|log| - WindowLength(|log|)..]
  }

  /** The socket got a snapshot and then, in order, exactly one event for every
      edit accepted since. */
  ghost predicate SocketInv(c: ClientId, socket: Socket, log: seq<ClientOperation>) {
    && socket.sent != []
    && socket.sent[0].Snapshot?
    && (forall k :: 0 < k < |socket.sent| ==> !socket.sent[k].Snapshot?)
    && var joined := socket.sent[0].revision;
    && joined <= |log|
    && socket.sent[0].content == Replay("", Edits(log[..joined]))
    && EditEvents(socket.sent) == EventsFor(c, log[joined..])
  }

  predicate ConnectedTo(sockets: map<ClientId, Socket>, c: ClientId, d: DocId) {
    c in sockets && sockets[c].documentId == d
  }

  predicate Participates(documents: map<DocId, Doc>, c: ClientId, d: DocId) {
    d in documents && c in documents[d].participants
  }

  /** The participants of a document are its connected clients. */
  ghost predicate MembersInv(documents: map<DocId, Doc>, sockets: map<ClientId, Socket>) {
    forall c, d :: ConnectedTo(sockets, c, d) <==> Participates(documents, c, d)
  }

  ghost predicate DocsInv(documents: map<DocId, Doc>) {
    forall d :: d in documents ==> DocInv(d, documents[d])
  }

  ghost predicate SocketsInv(sockets: map<ClientId, Socket>, documents: map<DocId, Doc>) {
    forall c :: c in sockets && sockets[c].open ==>
      sockets[c].documentId in documents && SocketInv(c, sockets[c], documents[sockets[c].documentId].log)
  }

  ghost predicate Inv(s: State) {
    && MembersInv(s.documents, s.sockets)
    && DocsInv(s.documents)
    && SocketsInv(s.sockets, s.documents)
  }
}

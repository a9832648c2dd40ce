/** What every event does to documents and connections, in terms of who is connected
    to what: the steps of the editor server against the messages clients see. */
module EventLaws {
  import opened Wrappers
  import opened TextEdits
  import opened TransformLaws
  import opened Ladder
  import opened EditorModel
  import opened EditorLaws

  // ---- Who is told --------------------------------------------------------------------

  /** The open connections of the document, except one, have been sent the event. */
  ghost predicate Told(before: map<ClientId, Socket>, after: map<ClientId, Socket>, d: DocId,
                       except: Option<ClientId>, e: Event) {
    && after.Keys == before.Keys
    && forall x :: x in before ==>
         after[x] ==
           if before[x].open && before[x].documentId == d && except != Some(x)
           then before[x].(sent := before[x].sent + [e]) else before[x]
  }

  /** Only this connection has, if it is open. */
  ghost predicate ToldOne(before: map<ClientId, Socket>, after: map<ClientId, Socket>, c: ClientId, e: Event) {
    && after.Keys == before.Keys
    && forall x :: x in before ==>
         after[x] == if before[x].open && x == c then before[x].(sent := before[x].sent + [e]) else before[x]
  }

  lemma OneTold(sockets: map<ClientId, Socket>, c: ClientId, e: Event)
    ensures ToldOne(sockets, SendAll(sockets, {c}, e), c, e)
  {}

  /** The participants of a document are the clients connected to it. */
  lemma ParticipantsConnected(s: State, d: DocId, x: ClientId)
    requires Inv(s) && d in s.documents && x in s.sockets
    ensures x in s.documents[d].participants <==> s.sockets[x].documentId == d
  {
    assert ConnectedTo(s.sockets, x, d) <==> Participates(s.documents, x, d);
  }

  lemma TellParticipants(s: State, d: DocId, except: Option<ClientId>, to: set<ClientId>, e: Event)
    requires Inv(s) && d in s.documents
    requires forall x :: x in s.sockets ==> (x in to <==> x in s.documents[d].participants && except != Some(x))
    ensures Told(s.sockets, SendAll(s.sockets, to, e), d, except, e)
  {
    forall x | x in s.sockets ensures x in to <==> s.sockets[x].documentId == d && except != Some(x) {
      ParticipantsConnected(s, d, x);
    }
  }

  // ---- Edits --------------------------------------------------------------------------

  /** How many of the first edits of a history of `n` the server has forgotten. */
  function Forgotten(n: nat): nat {
    if n <= 1000 then 0 else n - 500 - (n - 1001) % 501
  }

  /** The accepted edits a submission at revision `r` is transformed against: those
      from revision `r` on, but counted from the first one the server still has. */
  function Against(log: seq<ClientOperation>, r: nat): seq<Edit> {
    Edits(log[Min(Forgotten(|log|) + r, |log|)..])
  }

  lemma UnseenIsAgainst(d: DocId, doc: Doc, r: nat)
    requires DocInv(d, doc)
    ensures Unseen(doc.operations, r) == Against(doc.log, r)
  {
    var n := |doc.log|;
    WindowClosed(n);
    assert |doc.operations| == n - Forgotten(n);
    if r <= |doc.operations| {
      assert doc.operations[r..] == doc.log[Forgotten(n) + r..];
    } else {
      assert Edits(doc.log[n..]) == [];
    }
  }

  /** The edit as accepted. */
  function Accepted(c: ClientId, d: DocId, doc: Doc, A: Edit, r: nat): ClientOperation {
    ClientOperation(c, d, doc.revision + 1, Fold(A, Against(doc.log, r)))
  }

  lemma SubmitAccepts(s: State, c: ClientId, A: Edit, r: nat, now: nat)
    requires Inv(s) && c in s.sockets && A != []
    ensures s.sockets[c].documentId in s.documents
    ensures
      var d := s.sockets[c].documentId;
      Next(s, Submit(c, Some(A), r, now)) == AcceptEntry(s, Accepted(c, d, s.documents[d], A, r), now)
  {
    var d := s.sockets[c].documentId;
    HasDocument(s, c);
    UnseenIsAgainst(d, s.documents[d], r);
  }

  /** A client's edit, transformed against what its revision says it has not seen, is
      carried out and becomes the next entry of the history. Other documents and the
      participants stay as they are. */
  lemma SubmittedDocument(s: State, c: ClientId, A: Edit, r: nat, now: nat)
    requires Inv(s) && c in s.sockets && A != []
    ensures s.sockets[c].documentId in s.documents
    ensures
      var d, t := s.sockets[c].documentId, Next(s, Submit(c, Some(A), r, now));
      var doc := s.documents[d];
      var edit := Fold(A, Against(doc.log, r));
      && d in t.documents && t.documents == s.documents[d := t.documents[d]]
      && t.documents[d].content == Apply(doc.content, edit)
      && t.documents[d].log == doc.log + [ClientOperation(c, d, doc.revision + 1, edit)]
      && t.documents[d].revision == doc.revision + 1
      && t.documents[d].participants == doc.participants && t.documents[d].lastModified == now
  {
    SubmitAccepts(s, c, A, r, now);
  }

  /** Up to revision 1000 that is every accepted edit its client has not seen. */
  lemma SubmittedUnseen(s: State, c: ClientId, A: Edit, r: nat, now: nat)
    requires Inv(s) && c in s.sockets && A != [] && s.sockets[c].documentId in s.documents
    requires r <= s.documents[s.sockets[c].documentId].revision <= 1000
    ensures
      var d, t := s.sockets[c].documentId, Next(s, Submit(c, Some(A), r, now));
      var doc := s.documents[d];
      && r <= |doc.log| && d in t.documents
      && t.documents[d].content == Apply(doc.content, Fold(A, Edits(doc.log[r..])))
  {
    var d := s.sockets[c].documentId;
    HasDocument(s, c);
    assert DocInv(d, s.documents[d]);
    SubmittedDocument(s, c, A, r, now);
  }

  lemma SentBoth(sockets: map<ClientId, Socket>, participants: set<ClientId>, c: ClientId, e: Event, f: Event,
                 x: ClientId)
    requires x in sockets && c in participants
    ensures
      var after := SendAll(SendAll(sockets, {c}, e), participants - {c}, f);
      && after.Keys == sockets.Keys
      && after[x] == if !sockets[x].open || x !in participants then sockets[x]
                     else sockets[x].(sent := sockets[x].sent + [if x == c then e else f])
  {}

  /** Its client is sent the acknowledgement, the other open connections of the
      document the broadcast, and nobody else anything. */
  lemma SubmittedEvents(s: State, c: ClientId, A: Edit, r: nat, now: nat)
    requires Inv(s) && c in s.sockets && A != []
    ensures s.sockets[c].documentId in s.documents
    ensures
      var d, t := s.sockets[c].documentId, Next(s, Submit(c, Some(A), r, now));
      var edit, revision := Fold(A, Against(s.documents[d].log, r)), s.documents[d].revision + 1;
      && t.sockets.Keys == s.sockets.Keys
      && forall x :: x in s.sockets ==>
           t.sockets[x] ==
             if !s.sockets[x].open || s.sockets[x].documentId != d then s.sockets[x]
             else s.sockets[x].(sent := s.sockets[x].sent +
                    [if x == c then Ack(revision, edit) else Broadcast(c, edit, revision)])
  {
    var d := s.sockets[c].documentId;
    SubmitAccepts(s, c, A, r, now);
    var entry := Accepted(c, d, s.documents[d], A, r);
    var e, f := Ack(entry.revision, entry.operations), Broadcast(c, entry.operations, entry.revision);
    var participants := s.documents[d].participants.Keys;
    ParticipantsConnected(s, d, c);
    var after := SendAll(SendAll(s.sockets, {c}, e), participants - {c}, f);
    assert Next(s, Submit(c, Some(A), r, now)).sockets == after;
    forall x | x in s.sockets
      ensures after[x] == if !s.sockets[x].open || s.sockets[x].documentId != d then s.sockets[x]
                          else s.sockets[x].(sent := s.sockets[x].sent + [if x == c then e else f])
    {
      ParticipantsConnected(s, d, x);
      SentBoth(s.sockets, participants, c, e, f, x);
    }
    SentBoth(s.sockets, participants, c, e, f, c);
  }

  /** A submission leaves the documents alone if and only if it is no list, is empty,
      or comes with a negative revision. Then its client is told so. */
  lemma SubmissionRefused(s: State, c: ClientId, ops: Option<Edit>, r: int, now: nat)
    requires Inv(s) && c in s.sockets
    ensures
      var t := Next(s, Submit(c, ops, r, now));
      && (t.documents == s.documents <==> ops.None? || ops.value == [] || r < 0)
      && (t.documents == s.documents ==>
            ToldOne(s.sockets, t.sockets, c,
                    ErrorEvent(if ops.None? || ops.value == [] then "INVALID_OP" else "INVALID_MESSAGE")))
  {
    HasDocument(s, c);
    if ops.Some? && ops.value != [] && r >= 0 { SubmittedDocument(s, c, ops.value, r, now); }
  }

  /** A late edit. In any reachable state before the first trim, the author at
      revision `r` has carried out `A` on its copy. If every rung is aligned,
      fits and has only commuting ties, then the document the server makes of it
      is the author's copy after folding in what it had missed. */
  lemma LateEditConverges(steps: seq<Step>, c: ClientId, A: Edit, r: nat, now: nat)
    requires Runs(INITIAL, steps) && c in After(INITIAL, steps).sockets && A != []
    requires
      var s := After(INITIAL, steps);
      var d := s.sockets[c].documentId;
      && d in s.documents && r <= s.documents[d].revision <= 1000 && r <= |s.documents[d].log|
      && Fits(A, TextAt(s.documents[d], r))
      && Rungs(TextAt(s.documents[d], r), A, Edits(s.documents[d].log[r..]))
    ensures
      var s := After(INITIAL, steps);
      var d, t := s.sockets[c].documentId, Next(s, Submit(c, Some(A), r, now));
      && d in t.documents
      && t.documents[d].content ==
           AuthorReplay(Apply(TextAt(s.documents[d], r), A), A, Edits(s.documents[d].log[r..]))
  {
    var s := After(INITIAL, steps);
    var d := s.sockets[c].documentId;
    Reachable(steps);
    SubmittedUnseen(s, c, A, r, now);
    LadderConverges(TextAt(s.documents[d], r), A, Edits(s.documents[d].log[r..]));
    TextNow(d, s.documents[d], r);
  }

  /** Whatever the history, trimmed or not, aligned or not, the strings an edit
      inserts all appear in the document once the server has handled it, in order. */
  lemma AcceptedTextAppears(s: State, c: ClientId, A: Edit, r: nat, now: nat)
    requires Inv(s) && c in s.sockets && A != []
    ensures s.sockets[c].documentId in Next(s, Submit(c, Some(A), r, now)).documents
    ensures
      var d := s.sockets[c].documentId;
      Occur(Inserts(A), Next(s, Submit(c, Some(A), r, now)).documents[d].content)
  {
    SubmittedDocument(s, c, A, r, now);
    var doc := s.documents[s.sockets[c].documentId];
    NoTextLost(doc.content, A, Against(doc.log, r));
  }

  // ---- Participants ---------------------------------------------------------------------

  /** Document `d` is as before but for its participants. */
  ghost predicate OnlyParticipants(s: State, t: State, d: DocId, participants: map<ClientId, Participant>) {
    d in s.documents && t.documents == s.documents[d := s.documents[d].(participants := participants)]
  }

  /** Clients are shown everybody's name and color. */
  ghost predicate Shows(participants: map<ClientId, Participant>, profiles: map<ClientId, Profile>) {
    && profiles.Keys == participants.Keys
    && forall x :: x in participants ==> profiles[x] == Profile(participants[x].displayName, participants[x].color)
  }

  /** A cursor moves: this is recorded, and the other open connections of the document
      are told. */
  lemma CursorMoved(s: State, c: ClientId, position: int, now: nat)
    requires Inv(s) && c in s.sockets
    ensures s.sockets[c].documentId in s.documents && c in s.documents[s.sockets[c].documentId].participants
    ensures
      var d, t := s.sockets[c].documentId, Next(s, MoveCursor(c, position, now));
      var p := s.documents[d].participants[c];
      && OnlyParticipants(s, t, d, s.documents[d].participants[c := p.(cursorPosition := position)])
      && Told(s.sockets, t.sockets, d, Some(c), CursorUpdate(c, position, p.color))
  {
    var d := s.sockets[c].documentId;
    HasDocument(s, c);
    var p := s.documents[d].participants[c];
    TellParticipants(s, d, Some(c), s.documents[d].participants.Keys - {c}, CursorUpdate(c, position, p.color));
  }

  lemma RenameIs(s: State, c: ClientId, name: string, now: nat)
    requires Inv(s) && c in s.sockets && name != ""
    ensures s.sockets[c].documentId in s.documents && c in s.documents[s.sockets[c].documentId].participants
    ensures
      var d := s.sockets[c].documentId;
      var doc := s.documents[d];
      var renamed := doc.participants[c := doc.participants[c].(displayName := Take(name, 20))];
      Next(s, Rename(c, name, now)) ==
        State(s.documents[d := doc.(participants := renamed)],
              SendAll(s.sockets, renamed.Keys, PresenceUpdate(Profiles(renamed))))
  {
    HasDocument(s, c);
  }

  lemma TakeShort(name: string)
    ensures Take(name, 20) == if |name| <= 20 then name else name[..20]
  {}

  /** A name changes, to at most twenty characters of what was asked for: this is
      recorded, and all open connections of the document are told. An empty name does
      nothing. */
  lemma Renamed(s: State, c: ClientId, name: string, now: nat)
    requires Inv(s) && c in s.sockets
    ensures s.sockets[c].documentId in s.documents && c in s.documents[s.sockets[c].documentId].participants
    ensures
      var d, t := s.sockets[c].documentId, Next(s, Rename(c, name, now));
      var p := s.documents[d].participants[c];
      var short := if |name| <= 20 then name else name[..20];
      var renamed := s.documents[d].participants[c := p.(displayName := short)];
      if name == "" then t == s
      else
        && OnlyParticipants(s, t, d, renamed) && Shows(renamed, Profiles(renamed))
        && Told(s.sockets, t.sockets, d, None, PresenceUpdate(Profiles(renamed)))
  {
    HasDocument(s, c);
    if name != "" {
      var d := s.sockets[c].documentId;
      RenameIs(s, c, name, now);
      TakeShort(name);
      var renamed := s.documents[d].participants[c := s.documents[d].participants[c].(displayName := Take(name, 20))];
      TellParticipants(s, d, None, renamed.Keys, PresenceUpdate(Profiles(renamed)));
    }
  }

  lemma JoinIs(s: State, c: ClientId, d: DocId, p: Participant)
    requires d in s.documents && c !in s.sockets
    ensures
      var joined := s.documents[d].participants[c := p];
      var presence := PresenceUpdate(Profiles(joined));
      var t := JoinStep(s, c, d, p);
      && t.documents == s.documents[d := s.documents[d].(participants := joined)]
      && c in t.sockets
      && t.sockets[c] == Socket(d, true, [Snapshot(s.documents[d].content, s.documents[d].revision), presence])
      && t.sockets - {c} == SendAll(s.sockets, joined.Keys, presence)
  {}

  /** Who has arrived, to a document that is there. */
  ghost predicate Welcomed(documents: map<DocId, Doc>, sockets: map<ClientId, Socket>, t: State, c: ClientId, d: DocId,
                           doc: Doc, p: Participant) {
    var joined := doc.participants[c := p];
    var presence := PresenceUpdate(Profiles(joined));
    && t.documents == documents[d := doc.(participants := joined)]
    && c in t.sockets && t.sockets[c] == Socket(d, true, [Snapshot(doc.content, doc.revision), presence])
    && Told(sockets, t.sockets - {c}, d, None, presence) && Shows(joined, Profiles(joined))
  }

  lemma JoinWelcomes(s: State, c: ClientId, d: DocId, p: Participant)
    requires Inv(s) && d in s.documents && c !in s.sockets
    ensures Welcomed(s.documents, s.sockets, JoinStep(s, c, d, p), c, d, s.documents[d], p)
  {
    var joined := s.documents[d].participants[c := p];
    JoinIs(s, c, d, p);
    TellParticipants(s, d, None, joined.Keys, PresenceUpdate(Profiles(joined)));
  }

  lemma UpdateTwice(documents: map<DocId, Doc>, d: DocId, x: Doc, y: Doc)
    ensures documents[d := x][d := y] == documents[d := y]
  {}

  /** A newcomer is sent the text and its revision and then who is there, itself
      included; the other open connections of the document are told who is there. A
      document nobody has asked for before is empty. */
  lemma Arrived(s: State, c: ClientId, d: DocId, name: string, color: string, now: nat)
    requires Inv(s) && c !in s.sockets
    ensures
      var doc := if d in s.documents then s.documents[d] else Doc("", 0, [], map[], now, []);
      Welcomed(s.documents, s.sockets, Next(s, Connect(c, d, name, color, now)), c, d, doc, Participant(name, 0, color))
  {
    var p, s1 := Participant(name, 0, color), WithDocument(s, d, now);
    CreateKeeps(s, d, now);
    JoinWelcomes(s1, c, d, p);
    var doc := s1.documents[d];
    if d !in s.documents { UpdateTwice(s.documents, d, doc, doc.(participants := doc.participants[c := p])); }
  }

  /** A connection that has closed is gone, from the participants too, and the other
      open connections of the document are told who is left. */
  lemma Departed(s: State, c: ClientId, now: nat)
    requires Inv(s) && c in s.sockets
    ensures s.sockets[c].documentId in s.documents
    ensures
      var d, t := s.sockets[c].documentId, Next(s, Close(c, now));
      var left := s.documents[d].participants - {c};
      && OnlyParticipants(s, t, d, left) && Shows(left, Profiles(left))
      && Told(s.sockets - {c}, t.sockets, d, None, PresenceUpdate(Profiles(left)))
  {
    var d := s.sockets[c].documentId;
    HasDocument(s, c);
    var left := s.documents[d].participants - {c};
    forall x | x in s.sockets - {c} ensures x in left <==> s.sockets[x].documentId == d {
      ParticipantsConnected(s, d, x);
    }
  }

  /** Messages the server cannot read or does not know are answered to their sender and
      change nothing else; a socket that starts to close is sent nothing from then on. */
  lemma OtherEvents(s: State, c: ClientId, now: nat)
    requires Inv(s) && c in s.sockets
    ensures
      var unknown, malformed := Next(s, Unknown(c, now)), Next(s, Malformed(c));
      && unknown.documents == malformed.documents == s.documents
      && ToldOne(s.sockets, unknown.sockets, c, ErrorEvent("UNKNOWN_TYPE"))
      && ToldOne(s.sockets, malformed.sockets, c, ErrorEvent("INVALID_MESSAGE"))
    ensures
      var closing := Next(s, StartClosing(c));
      && closing.documents == s.documents
      && closing.sockets == s.sockets[c := Socket(s.sockets[c].documentId, false, s.sockets[c].sent)]
  {
    HasDocument(s, c);
    assert Next(s, Unknown(c, now)) == s.(sockets := SendAll(s.sockets, {c}, ErrorEvent("UNKNOWN_TYPE")));
    OneTold(s.sockets, c, ErrorEvent("UNKNOWN_TYPE"));
    OneTold(s.sockets, c, ErrorEvent("INVALID_MESSAGE"));
  }

  // ---- Cleanup ----------------------------------------------------------------------------

  /** Somebody is connected to the document. */
  ghost predicate Edited(s: State, d: DocId) {
    exists c :: ConnectedTo(s.sockets, c, d)
  }

  /** A document is forgotten if and only if nobody is connected to it and it has not
      changed for more than a day; nothing else happens. */
  lemma Forgot(s: State, d: DocId, now: nat)
    requires Inv(s)
    ensures
      var t := Next(s, Cleanup(now));
      && t.sockets == s.sockets
      && (d in t.documents <==> d in s.documents && (Edited(s, d) || now <= s.documents[d].lastModified + 86400000))
      && (d in t.documents ==> t.documents[d] == s.documents[d])
  {
    if d in s.documents {
      if c :| ConnectedTo(s.sockets, c, d) {
        assert Participates(s.documents, c, d);
        assert c in s.documents[d].participants.Keys;
      } else {
        forall c ensures c !in s.documents[d].participants {
          assert ConnectedTo(s.sockets, c, d) <==> Participates(s.documents, c, d);
        }
        assert s.documents[d].participants == map[];
      }
    }
  }
}

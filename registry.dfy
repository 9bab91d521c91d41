/** The in-memory session registry POKER_SESSIONS and the poker request
    handlers of app.py that act on it. The identity claim of the cookie
    session (`session["user"]`) is passed in as `claim`; the parsed vote
    value as an option (`None` when `int(value)` fails); the outcome of
    writing the workbook back as `saved`. */
module Poker {
  import opened Wrappers
  import opened Deck
  import opened Text
  import opened Ledger
  import opened PokerSession
  import opened FeatureStore

  /** The error replies of the handlers. */
  datatype Error =
    | NotJoined        // 401 "Not joined"
    | SessionNotFound  // 404 "Session not found"
    | InvalidField     // 400 "Invalid field"
    | InvalidValue     // 400 "Invalid value"
    | NameRequired     // lobby re-rendered with "Name is required."
    | HostOnly         // 403 "Host only"
    | StoreConflict    // 409 "Excel file open; close it and try again."

  datatype Result<T> = Success(value: T) | Failure(error: Error)

  /** What api_state reports about one field. */
  datatype FieldView = FieldView(votedUsers: seq<string>, yourValue: Option<int>, values: Option<Ballots>)

  /** The JSON body of a successful api_state. */
  datatype Snapshot = Snapshot(
    sessionId: string,
    featureId: string,
    users: seq<string>,
    hostName: Option<string>,
    revealed: bool,
    consensus: map<string, Option<int>>,
    fields: map<string, FieldView>)

  /** Blind voting for one field: who voted, in sorted order, is always
      shown; the viewer's own vote is always shown; the whole ledger only
      once revealed. */
  ghost predicate ShowsField(view: FieldView, ballots: Ballots, viewer: string, revealed: bool) {
    && Sorted(view.votedUsers)
    && (forall u :: u in view.votedUsers <==> u in ballots)
    && view.yourValue == (if viewer in ballots then Some(ballots[viewer]) else None)
    && view.values == (if revealed then Some(ballots) else None)
  }

  /** The snapshot api_state gives `viewer` of session `s` stored under `id`. */
  ghost predicate Shows(snap: Snapshot, s: Session, id: string, viewer: string) {
    && snap.sessionId == id && snap.featureId == s.featureId
    && Sorted(snap.users) && (forall u :: u in snap.users <==> u in s.users)
    && snap.hostName == s.hostName && snap.revealed == s.revealed
    && snap.consensus == s.consensus
    && (forall f :: f in snap.fields <==> f in ESTIMATION_FIELDS)
    && (forall f :: f in snap.fields ==> f in s.votes && ShowsField(snap.fields[f], s.votes[f], viewer, s.revealed))
  }

  /** Before the reveal, what a participant is shown of a field depends on
      nothing but who voted and the participant's own vote. */
  lemma BlindVoting(v1: FieldView, v2: FieldView, b1: Ballots, b2: Ballots, viewer: string)
    requires ShowsField(v1, b1, viewer, false) && ShowsField(v2, b2, viewer, false)
    requires b1.Keys == b2.Keys
    requires viewer in b1 ==> b1[viewer] == b2[viewer]
    ensures v1 == v2
  {
    SortedUnique(v1.votedUsers, v2.votedUsers);
  }

  /** The loop of api_state that builds the per-field part of the reply. */
  method ViewFields(votes: map<string, Ballots>, viewer: string, revealed: bool) returns (fields: map<string, FieldView>)
    requires forall f :: f in ESTIMATION_FIELDS ==> f in votes
    ensures forall f :: f in fields <==> f in ESTIMATION_FIELDS
    ensures forall f :: f in fields ==> f in votes && ShowsField(fields[f], votes[f], viewer, revealed)
  {
    fields := map[];
    for i := 0 to |ESTIMATION_FIELDS|
      invariant forall f :: f in fields <==> f in ESTIMATION_FIELDS[..i]
      invariant forall f :: f in fields ==> f in votes && ShowsField(fields[f], votes[f], viewer, revealed)
    {
      var field := ESTIMATION_FIELDS[i];
      var ballots := votes[field];
      var votedUsers := SortedList(ballots.Keys);
      var yourValue := if viewer in ballots then Some(ballots[viewer]) else None;
      fields := fields[field := FieldView(votedUsers, yourValue, if revealed then Some(ballots) else None)];
    }
    assert ESTIMATION_FIELDS[..|ESTIMATION_FIELDS|] == ESTIMATION_FIELDS;
  }

  /** Every stored session is valid and stored under its feature's id. */
  ghost predicate ValidSessions(sessions: map<string, Session>) {
    forall id :: id in sessions ==> sessions[id].Valid() && id == SessionId(sessions[id].featureId)
  }

  lemma ValidSessionsUpdate(sessions: map<string, Session>, id: string, s: Session)
    requires ValidSessions(sessions) && s.Valid() && id == SessionId(s.featureId)
    ensures ValidSessions(sessions[id := s])
  {
  }

  class Registry {
    /** POKER_SESSIONS: session id -> session. */
    var sessions: map<string, Session>

    ghost predicate Valid()
      reads this
    {
      ValidSessions(sessions)
    }

    constructor ()
      ensures Valid() && sessions == map[]
    {
      sessions := map[];
    }

    /** start_poker: the session for a feature is created once and then
        always found again, never replaced. */
    method StartPoker(featureId: string) returns (id: string)
      requires Valid()
      modifies this
      ensures Valid()
      ensures id == SessionId(featureId) && id in sessions
      ensures sessions[id].featureId == featureId
      ensures id in old(sessions) ==> sessions == old(sessions)
      ensures id !in old(sessions) ==> sessions == old(sessions)[id := NewSession(featureId)]
    {
      id := SessionId(featureId);
      if id !in sessions {
        ValidSessionsUpdate(sessions, id, NewSession(featureId));
        sessions := sessions[id := NewSession(featureId)];
      } else {
        SessionIdInjective(sessions[id].featureId, featureId);
      }
    }

    /** _require_host: the claim exists, the session exists and the claimed
        name is its host; every failure looks the same. The host is always
        one of the session's participants. */
    predicate IsHost(claim: Option<string>, id: string)
      reads this
      ensures IsHost(claim, id) <==> claim.Some? && id in sessions && sessions[id].hostName == Some(claim.value)
      ensures Valid() && IsHost(claim, id) ==> claim.value in sessions[id].users
    {
      if claim.None? then false
      else if id !in sessions then false
      else Some(claim.value) == sessions[id].hostName
    }

    /** poker_lobby POST: the stripped name joins the session; the reply
        establishes it as the caller's claim. */
    method Join(id: string, rawName: string) returns (r: Result<string>)
      requires Valid()
      modifies this
      ensures Valid()
      ensures id !in old(sessions) ==> r == Failure(SessionNotFound) && sessions == old(sessions)
      ensures id in old(sessions) && Strip(rawName) == [] ==> r == Failure(NameRequired) && sessions == old(sessions)
      ensures id in old(sessions) && Strip(rawName) != [] ==>
        && r == Success(Strip(rawName))
        && sessions == old(sessions)[id := Joined(old(sessions)[id], Strip(rawName))]
    {
      if id !in sessions {
        return Failure(SessionNotFound);
      }
      var s := sessions[id];
      var name := Strip(rawName);
      if name == [] {
        return Failure(NameRequired);
      }
      StripIdempotent(rawName);
      JoinPreservesValid(s, name);
      s := Joined(s, name);
      ValidSessionsUpdate(sessions, id, s);
      sessions := sessions[id := s];
      return Success(name);
    }

    /** api_vote: the checks in the order the handler makes them, and only
        then the reveal is withdrawn and the caller's vote overwritten. The
        caller need not have joined this session. */
    method Vote(claim: Option<string>, id: string, field: string, value: Option<int>) returns (r: Result<()>)
      requires Valid()
      modifies this
      ensures Valid()
      ensures claim.None? ==> r == Failure(NotJoined)
      ensures claim.Some? && id !in old(sessions) ==> r == Failure(SessionNotFound)
      ensures claim.Some? && id in old(sessions) && field !in ESTIMATION_FIELDS ==> r == Failure(InvalidField)
      ensures claim.Some? && id in old(sessions) && field in ESTIMATION_FIELDS && value.None? ==>
        r == Failure(InvalidValue)
      ensures r.Failure? ==> sessions == old(sessions)
      ensures r.Success? <==> claim.Some? && id in old(sessions) && field in ESTIMATION_FIELDS && value.Some?
      ensures r.Success? ==>
        sessions == old(sessions)[id := Voted(old(sessions)[id], field, claim.value, value.value)]
    {
      if claim.None? {
        return Failure(NotJoined);
      }
      if id !in sessions {
        return Failure(SessionNotFound);
      }
      if field !in ESTIMATION_FIELDS {
        return Failure(InvalidField);
      }
      if value.None? {
        return Failure(InvalidValue);
      }
      var s := sessions[id];
      VotePreservesValid(s, field, claim.value, value.value);
      s := Voted(s, field, claim.value, value.value);
      ValidSessionsUpdate(sessions, id, s);
      sessions := sessions[id := s];
      return Success(());
    }

    /** api_reveal: host only; reveals the session with a consensus entry
        for every field and replies with that consensus. */
    method Reveal(claim: Option<string>, id: string) returns (r: Result<map<string, Option<int>>>)
      requires Valid()
      modifies this
      ensures Valid()
      ensures !old(IsHost(claim, id)) ==> r == Failure(HostOnly) && sessions == old(sessions)
      ensures old(IsHost(claim, id)) ==>
        && sessions == old(sessions)[id := Revealed(old(sessions)[id])]
        && r == Success(sessions[id].consensus)
    {
      if !IsHost(claim, id) {
        return Failure(HostOnly);
      }
      var s := sessions[id];
      s := s.(revealed := true);
      var consensus := ComputeConsensus(s.votes);
      RevealPreservesValid(sessions[id]);
      s := s.(consensus := consensus);
      ValidSessionsUpdate(sessions, id, s);
      sessions := sessions[id := s];
      return Success(consensus);
    }

    /** api_commit: host only; writes each non-null consensus value into
        the rows of the session's feature and saves the workbook. A failed
        save keeps the stored rows; the session is never changed. */
    method Commit(claim: Option<string>, id: string, table: FeatureTable, saved: bool) returns (r: Result<()>)
      requires Valid() && table.Valid()
      modifies table
      ensures sessions == old(sessions)
      ensures table.Valid() && table.columns == old(table.columns)
      ensures !IsHost(claim, id) ==> r == Failure(HostOnly) && table.rows == old(table.rows)
      ensures IsHost(claim, id) && !saved ==> r == Failure(StoreConflict) && table.rows == old(table.rows)
      ensures IsHost(claim, id) && saved ==>
        && r == Success(())
        && |table.rows| == |old(table.rows)|
        && forall j :: 0 <= j < |table.rows| ==>
             table.rows[j] == CommittedRow(old(table.rows)[j], sessions[id].consensus, sessions[id].featureId)
    {
      if !IsHost(claim, id) {
        return Failure(HostOnly);
      }
      var s := sessions[id];
      assert FEATURE_ID !in ESTIMATION_FIELDS;
      var ok := table.Commit(s.featureId, s.consensus, saved);
      if !ok {
        return Failure(StoreConflict);
      }
      return Success(());
    }

    /** api_state: unlike api_vote, the session is looked up before the
        claim is checked. */
    method State(claim: Option<string>, id: string) returns (r: Result<Snapshot>)
      requires Valid()
      ensures id !in sessions ==> r == Failure(SessionNotFound)
      ensures id in sessions && claim.None? ==> r == Failure(NotJoined)
      ensures id in sessions && claim.Some? ==> r.Success? && Shows(r.value, sessions[id], id, claim.value)
      ensures r.Success? && !r.value.revealed ==> r.value.consensus == map[]
    {
      if id !in sessions {
        return Failure(SessionNotFound);
      }
      if claim.None? {
        return Failure(NotJoined);
      }
      var s := sessions[id];
      var fields := ViewFields(s.votes, claim.value, s.revealed);
      var users := SortedList(s.users);
      return Success(Snapshot(id, s.featureId, users, s.hostName, s.revealed, s.consensus, fields));
    }
  }
}

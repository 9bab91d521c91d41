/** The state of one planning-poker session (the dictionary that
    start_poker stores in POKER_SESSIONS) and the changes that the join,
    vote and reveal handlers make to it once their checks have passed. */
module PokerSession {
  import opened Wrappers
  import opened Deck
  import opened Text
  import opened Ledger

  datatype Session = Session(
    featureId: string,
    users: set<string>,
    hostName: Option<string>,
    revealed: bool,
    votes: map<string, Ballots>,
    consensus: map<string, Option<int>>)
  {
    /** What every session reachable through handlers that run to completion
        satisfies (a reveal that raises midway is not modelled): one
        ledger per estimation field; a hidden session carries no consensus
        and a revealed one carries the consensus of its current ledger; a
        host exactly when somebody joined, and the host is a participant;
        participants are non-blank stripped names. */
    ghost predicate Valid() {
      && (forall f :: f in votes <==> f in ESTIMATION_FIELDS)
      && (!revealed ==> consensus == map[])
      && (revealed ==> consensus == ConsensusOf(votes))
      && (hostName.Some? <==> users != {})
      && (hostName.Some? ==> hostName.value in users)
      && (forall u :: u in users ==> IsName(u))
    }
  }

  /** A name the lobby accepts as it is stored: non-empty and already stripped. */
  predicate IsName(name: string) {
    name != [] && Strip(name) == name
  }

  /** The registry key of the session for a feature. */
  function SessionId(featureId: string): string {
    "POKER-" + featureId
  }

  /** Different features never share a session. */
  lemma SessionIdInjective(f: string, g: string)
    requires SessionId(f) == SessionId(g)
    ensures f == g
  {
    assert f == SessionId(f)[6..] && g == SessionId(g)[6..];
  }

  /** The session start_poker creates: nobody joined, no host, hidden, an
      empty ledger for each of the five fields and no consensus. */
  function NewSession(featureId: string): (s: Session)
    ensures s.Valid()
    ensures s.featureId == featureId && s.users == {} && s.hostName == None
    ensures !s.revealed && s.consensus == map[]
    ensures forall f :: f in ESTIMATION_FIELDS <==> f in s.votes
    ensures forall f :: f in s.votes ==> s.votes[f] == map[]
  {
    Session(featureId, {}, None, false, map f | f in ESTIMATION_FIELDS :: map[], map[])
  }

  /** Python's `not s.get("host_name")`: no host, or an empty one. */
  predicate HostUnset(h: Option<string>) {
    h.None? || h.value == ""
  }

  /** A successful join: the name joins the participants and becomes host
      when no host is set yet. */
  function Joined(s: Session, name: string): Session {
    var s' := s.(users := s.users + {name});
    if HostUnset(s'.hostName) then s'.(hostName := Some(name)) else s'
  }

  /** A successful vote: the reveal is withdrawn, the consensus dropped and
      the voter's entry for the field overwritten. */
  function Voted(s: Session, field: string, voter: string, value: int): Session
    requires field in s.votes
  {
    var s' := s.(revealed := false, consensus := map[]);
    s'.(votes := Record(s'.votes, field, voter, value))
  }

  /** A successful reveal: the session is revealed with the consensus of
      its current ledger. */
  ghost function Revealed(s: Session): Session {
    s.(revealed := true, consensus := ConsensusOf(s.votes))
  }

  /** The revealed flag is set exactly when a consensus is held. */
  lemma RevealedIffConsensus(s: Session)
    requires s.Valid()
    ensures s.revealed <==> s.consensus != map[]
  {
    if s.revealed {
      assert "Business Value" in ESTIMATION_FIELDS;
      assert "Business Value" in s.consensus;
    }
  }

  lemma JoinPreservesValid(s: Session, name: string)
    requires s.Valid() && IsName(name)
    ensures Joined(s, name).Valid()
  {
    var t := Joined(s, name);
    assert t.votes == s.votes && t.consensus == s.consensus && t.revealed == s.revealed;
    assert t.users == s.users + {name};
    assert t.hostName.Some? && t.hostName.value in t.users;
  }

  /** The first joiner becomes host; once a host is set, joining never
      changes it. Nothing but the participants and the host changes. */
  lemma JoinSetsHostOnce(s: Session, name: string)
    requires s.Valid() && IsName(name)
    ensures Joined(s, name).users == s.users + {name}
    ensures Joined(s, name).hostName == if s.users == {} then Some(name) else s.hostName
    ensures Joined(s, name).votes == s.votes && Joined(s, name).consensus == s.consensus
    ensures Joined(s, name).revealed == s.revealed
  {
    if s.users != {} {
      assert s.hostName.value in s.users && IsName(s.hostName.value);
      assert !HostUnset(s.hostName);
    }
  }

  /** Joining again under the same name changes nothing. */
  lemma JoinIdempotent(s: Session, name: string)
    requires IsName(name)
    ensures Joined(Joined(s, name), name) == Joined(s, name)
  {
  }

  lemma VotePreservesValid(s: Session, field: string, voter: string, value: int)
    requires s.Valid() && field in s.votes
    ensures Voted(s, field, voter, value).Valid()
  {
  }

  /** A vote hides the session, records the value for that voter and field
      and leaves every other ledger entry, the participants and the host
      as they were. */
  lemma VoteOverwritesOneEntry(s: Session, field: string, voter: string, value: int)
    requires field in s.votes
    ensures var t := Voted(s, field, voter, value);
      && !t.revealed && t.consensus == map[]
      && t.votes.Keys == s.votes.Keys
      && t.votes[field].Keys == s.votes[field].Keys + {voter}
      && t.votes[field][voter] == value
      && (forall u :: u in s.votes[field] && u != voter ==> t.votes[field][u] == s.votes[field][u])
      && (forall f :: f in s.votes && f != field ==> t.votes[f] == s.votes[f])
      && t.users == s.users && t.hostName == s.hostName && t.featureId == s.featureId
  {
  }

  /** A vote after a reveal leaves the session exactly as if the reveal had
      not happened: no stale consensus survives a vote. */
  lemma VoteErasesReveal(s: Session, field: string, voter: string, value: int)
    requires field in s.votes
    ensures Voted(Revealed(s), field, voter, value) == Voted(s, field, voter, value)
  {
  }

  /** One ledger write: `votes[field][voter] = value`. */
  function Record(votes: map<string, Ballots>, field: string, voter: string, value: int): map<string, Ballots>
    requires field in votes
  {
    votes[field := votes[field][voter := value]]
  }

  lemma RecordCommute(votes: map<string, Ballots>, f: string, u: string, x: int, g: string, w: string, y: int)
    requires f in votes && g in votes && (f != g || u != w)
    ensures Record(Record(votes, f, u, x), g, w, y) == Record(Record(votes, g, w, y), f, u, x)
  {
    var left := Record(Record(votes, f, u, x), g, w, y);
    var right := Record(Record(votes, g, w, y), f, u, x);
    if f == g {
      assert left[f] == votes[f][u := x][w := y];
      assert right[f] == votes[f][w := y][u := x];
      assert left[f] == right[f];
    }
    assert forall h :: h in left ==> h in right && left[h] == right[h];
  }

  /** Two votes that do not share both field and voter can land in either
      order: both are kept and the session ends up the same. */
  lemma VotesCommute(s: Session, f: string, u: string, x: int, g: string, w: string, y: int)
    requires f in s.votes && g in s.votes && (f != g || u != w)
    ensures Voted(Voted(s, f, u, x), g, w, y) == Voted(Voted(s, g, w, y), f, u, x)
    ensures Voted(Voted(s, f, u, x), g, w, y).votes[f][u] == x
    ensures Voted(Voted(s, f, u, x), g, w, y).votes[g][w] == y
  {
    assert Voted(s, f, u, x).votes == Record(s.votes, f, u, x);
    assert Voted(s, g, w, y).votes == Record(s.votes, g, w, y);
    RecordCommute(s.votes, f, u, x, g, w, y);
  }

  lemma RevealPreservesValid(s: Session)
    requires s.Valid()
    ensures Revealed(s).Valid()
  {
  }

  /** A reveal gives every field a consensus entry: none for a field
      without votes, otherwise a card of the deck nearest the mean. */
  lemma RevealConsensus(s: Session)
    requires s.Valid()
    ensures Revealed(s).revealed
    ensures forall f :: f in ESTIMATION_FIELDS <==> f in Revealed(s).consensus
    ensures forall f :: f in ESTIMATION_FIELDS ==>
      (Revealed(s).consensus[f] == None <==> s.votes[f] == map[])
    ensures forall f :: f in ESTIMATION_FIELDS && s.votes[f] != map[] ==>
      Revealed(s).consensus[f] == Some(NearestFibo(SumOf(s.votes[f]), |s.votes[f]|))
    ensures Revealed(s).votes == s.votes && Revealed(s).users == s.users
    ensures Revealed(s).hostName == s.hostName
  {
    var c := Revealed(s).consensus;
    assert c == ConsensusOf(s.votes);
    forall f | f in ESTIMATION_FIELDS
      ensures c[f] == ConsensusValue(s.votes[f])
      ensures c[f] == None <==> s.votes[f] == map[]
    {
      assert f in s.votes;
      assert |s.votes[f]| == 0 <==> s.votes[f] == map[];
    }
  }

  /** Revealing twice is revealing once. */
  lemma RevealIdempotent(s: Session)
    ensures Revealed(Revealed(s)) == Revealed(s)
  {
  }

  /** A request that the registry accepts, as it acts on the session. */
  datatype Step =
    | JoinStep(name: string)
    | VoteStep(field: string, voter: string, value: int)
    | RevealStep

  /** A step that passed the handler's checks: a stripped non-blank name, a
      known field. */
  predicate Admissible(step: Step) {
    match step
    case JoinStep(name) => IsName(name)
    case VoteStep(field, _, _) => field in ESTIMATION_FIELDS
    case RevealStep => true
  }

  /** The effect of one accepted request, which keeps the session valid. */
  ghost function Apply(s: Session, step: Step): (t: Session)
    requires s.Valid() && Admissible(step)
    ensures t.Valid()
  {
    match step
    case JoinStep(name) =>
      JoinPreservesValid(s, name);
      Joined(s, name)
    case VoteStep(field, voter, value) =>
      VotePreservesValid(s, field, voter, value);
      Voted(s, field, voter, value)
    case RevealStep =>
      RevealPreservesValid(s);
      Revealed(s)
  }

  predicate AllAdmissible(steps: seq<Step>) {
    forall i :: 0 <= i < |steps| ==> Admissible(steps[i])
  }

  lemma AllAdmissibleTail(steps: seq<Step>)
    requires steps != [] && AllAdmissible(steps)
    ensures Admissible(steps[0]) && AllAdmissible(steps[1..])
  {
    forall i | 0 <= i < |steps[1..]| ensures Admissible(steps[1..][i]) {
      assert steps[1..][i] == steps[i + 1];
    }
  }

  /** The session after a sequence of accepted requests. */
  ghost function Replay(s: Session, steps: seq<Step>): (t: Session)
    requires s.Valid() && AllAdmissible(steps)
    ensures t.Valid()
    decreases |steps|
  {
    if steps == [] then s
    else
      AllAdmissibleTail(steps);
      Replay(Apply(s, steps[0]), steps[1..])
  }

  /** The name of the first join among the steps, if any. */
  function FirstJoiner(steps: seq<Step>): Option<string> {
    if steps == [] then None
    else if steps[0].JoinStep? then Some(steps[0].name)
    else FirstJoiner(steps[1..])
  }

  /** One accepted request never moves an existing host; only a join
      changes the participants. */
  lemma ApplyHost(s: Session, step: Step)
    requires s.Valid() && Admissible(step)
    ensures s.hostName.Some? ==> Apply(s, step).hostName == s.hostName
    ensures !step.JoinStep? ==> Apply(s, step).users == s.users && Apply(s, step).hostName == s.hostName
    ensures step.JoinStep? && s.users == {} ==> Apply(s, step).hostName == Some(step.name)
  {
    match step {
      case JoinStep(name) => JoinSetsHostOnce(s, name);
      case VoteStep(field, voter, value) =>
      case RevealStep =>
    }
  }

  /** Once a session has a host, no sequence of joins, votes and reveals
      changes it. */
  lemma {:induction false} HostNeverReassigned(s: Session, steps: seq<Step>)
    requires s.Valid() && AllAdmissible(steps)
    requires s.hostName.Some?
    ensures Replay(s, steps).hostName == s.hostName
    decreases |steps|
  {
    if steps != [] {
      AllAdmissibleTail(steps);
      ApplyHost(s, steps[0]);
      HostNeverReassigned(Apply(s, steps[0]), steps[1..]);
    }
  }

  /** Whatever happens in a session, its host is the first name that joined it. */
  lemma {:induction false} HostIsFirstJoiner(s: Session, steps: seq<Step>)
    requires s.Valid() && AllAdmissible(steps)
    requires s.users == {}
    ensures Replay(s, steps).hostName == FirstJoiner(steps)
    decreases |steps|
  {
    if steps != [] {
      AllAdmissibleTail(steps);
      ApplyHost(s, steps[0]);
      if steps[0].JoinStep? {
        HostNeverReassigned(Apply(s, steps[0]), steps[1..]);
      } else {
        HostIsFirstJoiner(Apply(s, steps[0]), steps[1..]);
      }
    }
  }
}

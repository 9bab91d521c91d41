/** The vote ledger of one field (participant -> value) and the consensus
    derived from it when the host reveals. */
module Ledger {
  import opened Wrappers
  import opened Deck

  /** The votes cast on one field, keyed by participant name. */
  type Ballots = map<string, int>

  /** `sum(ballots.values())`; integer addition, so the order in which the
      values are visited does not matter (lemma SumOfRemove). */
  ghost function SumOf(ballots: Ballots): int
    decreases |ballots|
  {
    if ballots == map[] then 0
    else
      var k :| k in ballots;
      ballots[k] + SumOf(ballots - {k})
  }

  /** Any vote may be taken out first. */
  lemma {:induction false} SumOfRemove(ballots: Ballots, k: string)
    requires k in ballots
    ensures SumOf(ballots) == ballots[k] + SumOf(ballots - {k})
    decreases |ballots|
  {
    var j :| j in ballots && SumOf(ballots) == ballots[j] + SumOf(ballots - {j});
    if j != k {
      SumOfRemove(ballots - {j}, k);
      SumOfRemove(ballots - {k}, j);
      assert ballots - {j} - {k} == ballots - {k} - {j};
    }
  }

  /** Overwriting or adding one participant's vote changes the sum by
      exactly the difference. */
  lemma SumOfUpdate(ballots: Ballots, k: string, v: int)
    ensures SumOf(ballots[k := v]) == SumOf(ballots - {k}) + v
  {
    SumOfRemove(ballots[k := v], k);
    assert ballots[k := v] - {k} == ballots - {k};
  }

  /** When everybody voted `v`, the sum is `v` times the number of votes. */
  lemma {:induction false} SumOfUnanimous(ballots: Ballots, v: int)
    requires forall k :: k in ballots ==> ballots[k] == v
    ensures SumOf(ballots) == v * |ballots|
    decreases |ballots|
  {
    if ballots != map[] {
      var k :| k in ballots;
      SumOfRemove(ballots, k);
      SumOfUnanimous(ballots - {k}, v);
      assert |ballots - {k}| == |ballots| - 1;
    }
  }

  /** The loop behind `sum(votes.values())`. */
  method SumVotes(ballots: Ballots) returns (total: int)
    ensures total == SumOf(ballots)
  {
    total := 0;
    var rest := ballots;
    while rest != map[]
      invariant total + SumOf(rest) == SumOf(ballots)
      decreases |rest|
    {
      var k :| k in rest;
      SumOfRemove(rest, k);
      total := total + rest[k];
      rest := rest - {k};
    }
  }

  /** A field's consensus: no value when nobody voted on it, otherwise the
      card nearest to the mean of the votes. Only the recorded votes count. */
  ghost function ConsensusValue(ballots: Ballots): Option<int> {
    if |ballots| == 0 then None
    else Some(NearestFibo(SumOf(ballots), |ballots|))
  }

  /** The consensus of every field of a session's ledger. */
  ghost function ConsensusOf(votes: map<string, Ballots>): map<string, Option<int>> {
    map f | f in votes :: ConsensusValue(votes[f])
  }

  /** When every participant voted the same card, that card is the consensus. */
  lemma UnanimousConsensus(ballots: Ballots, v: int)
    requires ballots != map[] && v in FIBO_DECK
    requires forall k :: k in ballots ==> ballots[k] == v
    ensures ConsensusValue(ballots) == Some(v)
  {
    SumOfUnanimous(ballots, v);
    NearestFiboOfCard(v, |ballots|);
  }

  /** The loop of api_reveal: for each field of the ledger, no value when
      nobody voted, otherwise the card nearest to the mean. */
  method ComputeConsensus(votes: map<string, Ballots>) returns (consensus: map<string, Option<int>>)
    requires forall f :: f in votes <==> f in ESTIMATION_FIELDS
    ensures consensus == ConsensusOf(votes)
  {
    consensus := map[];
    for i := 0 to |ESTIMATION_FIELDS|
      invariant forall f :: f in consensus <==> f in ESTIMATION_FIELDS[..i]
      invariant forall f :: f in consensus ==> consensus[f] == ConsensusValue(votes[f])
    {
      var field := ESTIMATION_FIELDS[i];
      var ballots := votes[field];
      if |ballots| == 0 {
        consensus := consensus[field := None];
      } else {
        var total := SumVotes(ballots);
        consensus := consensus[field := Some(NearestFibo(total, |ballots|))];
      }
    }
    assert ESTIMATION_FIELDS[..|ESTIMATION_FIELDS|] == ESTIMATION_FIELDS;
  }
}

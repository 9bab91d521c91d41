/** The end-to-end round of a poker session for feature "FTR-1": A joins
    and becomes host, B joins, A votes 8 and B votes 13 on Business Value,
    A reveals (the mean 10.5 snaps to 8), and A's later vote of 5 hides the
    reveal again. */
module PokerScenario {
  import opened Wrappers
  import opened Deck
  import opened Ledger
  import opened PokerSession

  lemma TwoVoteSum()
    ensures SumOf(map["A" := 8, "B" := 13]) == 21
  {
    SumOfUpdate(map["A" := 8], "B", 13);
    assert map["A" := 8]["B" := 13] == map["A" := 8, "B" := 13];
    assert map["A" := 8] - {"B"} == map["A" := 8];
    var none: Ballots := map[];
    SumOfUpdate(none, "A", 8);
    assert none["A" := 8] == map["A" := 8];
    assert none - {"A"} == none;
  }

  /** A joins first and is host; B joins second. */
  lemma JoinRound()
    ensures var s := Joined(Joined(NewSession("FTR-1"), "A"), "B");
      s.hostName == Some("A") && s.users == {"A", "B"} && s.votes["Business Value"] == map[]
  {
    assert "Business Value" in ESTIMATION_FIELDS;
  }

  /** A votes 8 and B votes 13 on Business Value. */
  lemma VoteRound(s: Session)
    requires "Business Value" in s.votes && s.votes["Business Value"] == map[]
    ensures var t := Voted(Voted(s, "Business Value", "A", 8), "Business Value", "B", 13);
      t.votes["Business Value"] == map["A" := 8, "B" := 13] && t.hostName == s.hostName
  {
  }

  /** The reveal snaps the mean 10.5 of 8 and 13 to 8. */
  lemma RevealRound(s: Session)
    requires "Business Value" in s.votes && s.votes["Business Value"] == map["A" := 8, "B" := 13]
    ensures Revealed(s).revealed && Revealed(s).consensus["Business Value"] == Some(8)
  {
    TwoVoteSum();
    assert |map["A" := 8, "B" := 13]| == 2;
    NearestFiboTieExample();
  }

  /** The whole round: after the late vote, the reveal is gone. */
  lemma EndToEnd()
    ensures
      var s2 := Joined(Joined(NewSession("FTR-1"), "A"), "B");
      var s4 := Voted(Voted(s2, "Business Value", "A", 8), "Business Value", "B", 13);
      var s6 := Voted(Revealed(s4), "Business Value", "A", 5);
      && s2.hostName == Some("A")
      && Revealed(s4).consensus["Business Value"] == Some(8)
      && !s6.revealed && s6.consensus == map[] && s6.hostName == Some("A")
  {
    JoinRound();
    var s2 := Joined(Joined(NewSession("FTR-1"), "A"), "B");
    VoteRound(s2);
    var s4 := Voted(Voted(s2, "Business Value", "A", 8), "Business Value", "B", 13);
    RevealRound(s4);
  }
}

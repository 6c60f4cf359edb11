/** The vote on the deposit chain: what is adopted over one voting period. */
module Eth1Votes {
  import opened BeaconTypes
  import opened BlockProcessing

  /** The state after the votes of some block bodies. */
  function AfterVotes(c: Config, s: BeaconState, bodies: seq<BlockBody>): BeaconState {
    if bodies == [] then s
    else ProcessEth1Data(c, AfterVotes(c, s, bodies[..|bodies| - 1]), bodies[|bodies| - 1])
  }

  function Ballots(bodies: seq<BlockBody>): (votes: seq<Eth1Data>)
    ensures |votes| == |bodies|
  {
    seq(|bodies|, i requires 0 <= i < |bodies| => bodies[i].eth1Data)
  }

  /** More than half of the slots of a period voted for `data`. */
  predicate Won(c: Config, votes: seq<Eth1Data>, data: Eth1Data) {
    multiset(votes)[data] * 2 > c.slotsPerEth1VotingPeriod
  }

  lemma {:induction false} CountIsMultiplicity(votes: seq<Eth1Data>, data: Eth1Data)
    ensures CountVotes(votes, data) == multiset(votes)[data]
  {
    if votes != [] {
      var n := |votes| - 1;
      assert votes == votes[..n] + [votes[n]];
      CountIsMultiplicity(votes[..n], data);
    }
  }

  /** No two data can win in one period. */
  lemma {:induction false} OneWinner(c: Config, votes: seq<Eth1Data>, data: Eth1Data, data': Eth1Data)
    requires |votes| <= c.slotsPerEth1VotingPeriod && Won(c, votes, data) && Won(c, votes, data')
    ensures data == data'
  {
    if data != data' {
      TwoCounts(votes, data, data');
    }
  }

  lemma {:induction false} TwoCounts(votes: seq<Eth1Data>, data: Eth1Data, data': Eth1Data)
    requires data != data'
    ensures multiset(votes)[data] + multiset(votes)[data'] <= |votes|
  {
    if votes != [] {
      var n := |votes| - 1;
      assert votes == votes[..n] + [votes[n]];
      TwoCounts(votes[..n], data, data');
    }
  }

  lemma WonStays(c: Config, votes: seq<Eth1Data>, vote: Eth1Data, data: Eth1Data)
    ensures Won(c, votes, data) ==> Won(c, votes + [vote], data)
    ensures Won(c, votes + [vote], data) ==> Won(c, votes, data) || vote == data
  {
  }

  /** Over a voting period that starts with no votes, the data that more than half of its slots voted for is
      adopted; as long as there is none, what was adopted before stays. */
  lemma {:induction false} PeriodAdopts(c: Config, s: BeaconState, bodies: seq<BlockBody>)
    requires s.eth1DataVotes == [] && |bodies| <= c.slotsPerEth1VotingPeriod
    ensures AfterVotes(c, s, bodies).eth1DataVotes == Ballots(bodies)
    ensures forall data :: Won(c, Ballots(bodies), data) ==> AfterVotes(c, s, bodies).eth1Data == data
    ensures (forall data :: !Won(c, Ballots(bodies), data)) ==> AfterVotes(c, s, bodies).eth1Data == s.eth1Data
  {
    hide Won, CountVotes;
    if bodies == [] {
      NobodyWon(c);
    } else {
      var n := |bodies| - 1;
      var before, last := bodies[..n], bodies[n].eth1Data;
      PeriodAdopts(c, s, before);
      var votes := Ballots(bodies);
      assert votes == Ballots(before) + [last];
      LastDecides(c, votes, last);
      forall data
        ensures Won(c, Ballots(before), data) ==> Won(c, votes, data)
        ensures Won(c, votes, data) ==> Won(c, Ballots(before), data) || data == last
        ensures Won(c, votes, data) && Won(c, votes, last) ==> data == last
      {
        WonStays(c, Ballots(before), last, data);
        if Won(c, votes, data) && Won(c, votes, last) {
          OneWinner(c, votes, data, last);
        }
      }
    }
  }

  lemma NobodyWon(c: Config)
    ensures forall data :: !Won(c, [], data)
  {
  }

  lemma LastDecides(c: Config, votes: seq<Eth1Data>, data: Eth1Data)
    ensures CountVotes(votes, data) * 2 > c.slotsPerEth1VotingPeriod <==> Won(c, votes, data)
  {
    CountIsMultiplicity(votes, data);
  }
}

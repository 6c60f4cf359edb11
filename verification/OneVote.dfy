/** A genesis state on which an attester slashing slashes two validators who signed one attestation each. */
module OneVote {
  import opened Bytes
  import opened BeaconTypes
  import opened Accessors
  import opened BlockProcessing
  import opened Transition
  import opened Accused
  import opened SmallChain

  /** One attestation of `slot` in epoch zero, signed by `v` alone. */
  function SoleVote(slot: Slot, v: ValidatorIndex): IndexedAttestation {
    var origin := Checkpoint(0, ZERO_HASH);
    IndexedAttestation([v], [], AttestationData(slot, 0, ZERO_HASH, origin, origin), [])
  }

  lemma OneVoteChecks(s: BeaconState)
    requires Shape(Small(), s) && |s.validators| == 2
    ensures CheckAttesterSlashing(Small(), s, AttesterSlashing(SoleVote(0, 0), SoleVote(1, 1))) == Ok(())
  {
    hide Domain, SmallHash;
  }

  /** Two depositors, each of whom voted once, are both slashed for the two votes together. */
  lemma OneVoteEach(first: Pubkey, second: Pubkey) returns (s: BeaconState)
    requires first != second
    ensures Shape(Small(), s) && IsGenesis(Small(), s) && |s.validators| == 2
    ensures var a := AttesterSlashing(SoleVote(0, 0), SoleVote(1, 1));
      var r := ProcessAttesterSlashing(Small(), s, a);
      r.Ok? && BecomesSlashed(s, r.value, 0) && BecomesSlashed(s, r.value, 1) && !NamedTwice(a, 0) && !NamedTwice(a, 1)
  {
    hide ProposerIndex, ProcessAttesterSlashing, CheckAttesterSlashing, GenesisState, SmallHash;
    s := SmallGenesis([first, second], 2);
    SomeProposer(s);
    OneVoteChecks(s);
    BothAreSlashed(Small(), s, AttesterSlashing(SoleVote(0, 0), SoleVote(1, 1)), 0, 1);
  }
}

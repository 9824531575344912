/** The verifier's side of the protocol (ProveeAgent.cc): it records the
    claimed outputs, answers a batch of commitments with one challenge bit per
    round, and checks the prover's reveal round by round, counting the rounds
    that passed as its confidence. */
module Provee {
  import opened Outcomes
  import opened Messages
  import opened Netlist
  import opened Rounds
  import opened Garbling
  import Prover

  /** Every challenged round has a commitment and a reveal, and the reveal of
      round i passes the check of the half its challenge bit asks for. */
  ghost predicate RoundsPass(m: Module, gatesdef: seq<Table>, hash: Entry -> Digest, request: seq<bool>,
                             commitment: seq<Commitment>, rev: seq<ProverSecret>)
    requires |gatesdef| == |m.cells|
  {
    && |commitment| >= |request| && |rev| >= |request|
    && forall i :: 0 <= i < |request| ==>
         && |commitment[i].gateHashes| == |m.cells|
         && (request[i] ==> ScrSound(m, gatesdef, hash, commitment[i], ScramblingOf(rev[i])))
         && (!request[i] ==> ExecValid(m, hash, commitment[i], ExecutionOf(rev[i])))
  }

  class ProveeAgent {
    const circuit: ScrambledCircuit
    var securityParam: int
    var confidence: int
    /** The claimed output bits. */
    var output: seq<bool>
    /** The commitments of the batch being checked, one per round. */
    var commitment: seq<Commitment>
    /** One challenge bit per committed round: set asks for the scrambling. */
    var request: seq<bool>

    ghost predicate Valid()
      reads this, circuit, circuit.execution, circuit.keys
    {
      circuit.Valid()
    }

    constructor (m: Module, gatesdef: seq<Table>, ghost gateFns: seq<seq<bool> -> seq<bool>>, hash: Entry -> Digest)
      requires WellFormed(m, gatesdef, gateFns)
      ensures Valid() && fresh(circuit) && fresh(circuit.execution) && fresh(circuit.keys)
      ensures circuit.m == m && circuit.gatesdef == gatesdef && circuit.gateFns == gateFns && circuit.hash == hash
      ensures securityParam == 128 && confidence == 0
      ensures output == [] && commitment == [] && request == []
    {
      circuit := new ScrambledCircuit(m, gatesdef, gateFns, hash);
      securityParam := 128;
      confidence := 0;
      output := [];
      commitment := [];
      request := [];
    }

    /** set_outputs: one claimed bit per state, set exactly for S1. */
    method SetOutputs(outputs: seq<State>)
      modifies this
      ensures |output| == |outputs| && forall i :: 0 <= i < |outputs| ==> (output[i] <==> outputs[i] == S1)
      ensures securityParam == old(securityParam) && confidence == old(confidence)
      ensures commitment == old(commitment) && request == old(request)
    {
      output := [];
      var i := 0;
      while i < |outputs|
        invariant 0 <= i <= |outputs| && |output| == i
        invariant forall j :: 0 <= j < i ==> (output[j] <==> outputs[j] == S1)
        invariant securityParam == old(securityParam) && confidence == old(confidence)
        invariant commitment == old(commitment) && request == old(request)
      {
        output := output + [outputs[i] == S1];
        i := i + 1;
      }
    }

    method SetSecurityParam(p: int)
      modifies this
      ensures securityParam == p && confidence == old(confidence) && output == old(output)
      ensures commitment == old(commitment) && request == old(request)
    {
      securityParam := p;
    }

    /** read_commitment: refuse while a request is outstanding; otherwise keep
        the batch and draw one challenge bit per round (`bits` are the random
        bits drawn), which is also the response. */
    method ReadCommitment(commitments: seq<Commitment>, bits: seq<bool>) returns (r: Result<seq<bool>>)
      requires |bits| >= |commitments|
      modifies this
      ensures securityParam == old(securityParam) && confidence == old(confidence) && output == old(output)
      ensures r.Fatal? <==> old(request) != []
      ensures r.Fatal? ==> commitment == old(commitment) && request == old(request)
      ensures r.Ok? ==> commitment == commitments && |request| == |commitments|
      ensures r.Ok? ==> (forall i :: 0 <= i < |commitments| ==> request[i] == bits[i]) && r.value == request
    {
      if request != [] {
        return Fatal("Attempted to read commitment without completing existing commitments");
      }
      commitment := [];
      request := [];
      commitment := commitments;
      var i := 0;
      while i < |commitments|
        invariant 0 <= i <= |commitments| && request == bits[..i]
        invariant commitment == commitments
        invariant securityParam == old(securityParam) && confidence == old(confidence) && output == old(output)
      {
        request := request + [bits[i]];
        i := i + 1;
      }
      return Ok(request);
    }

    /** read_reveal as written: every challenged round, whatever its bit, is
        checked with the scrambling validator, against the scrambling half of
        the revealed round. A failed round aborts with the confidence
        unchanged; otherwise every requested round is added to it. */
    method ReadReveal(rev: seq<ProverSecret>) returns (r: Result<()>)
      requires Valid()
      modifies this, circuit.keys
      ensures Valid()
      ensures securityParam == old(securityParam) && output == old(output)
      ensures commitment == old(commitment) && request == old(request)
      ensures r.Fatal? ==> confidence == old(confidence)
      ensures r.Ok? ==> confidence == old(confidence) + |request|
      ensures r.Ok? ==> |commitment| >= |request| && |rev| >= |request|
      ensures r.Ok? ==> forall i :: 0 <= i < |request| ==>
                ScrSound(circuit.m, circuit.gatesdef, circuit.hash, commitment[i], ScramblingOf(rev[i]))
      ensures (&& |commitment| >= |request| && |rev| >= |request|
               && forall i :: 0 <= i < |request| ==>
                    ScrSound(circuit.m, circuit.gatesdef, circuit.hash, commitment[i], ScramblingOf(rev[i])))
              ==> r.Ok?
    {
      var i := 0;
      while i < |request|
        invariant 0 <= i <= |request| && circuit.Valid()
        invariant confidence == old(confidence) && request == old(request) && commitment == old(commitment)
        invariant securityParam == old(securityParam) && output == old(output)
        invariant i <= |commitment| && i <= |rev|
        invariant forall j :: 0 <= j < i ==>
                    ScrSound(circuit.m, circuit.gatesdef, circuit.hash, commitment[j], ScramblingOf(rev[j]))
      {
        if i >= |commitment| || i >= |rev| {
          return Fatal("round out of range");
        }
        var validated;
        if request[i] {
          validated := circuit.ValidateScrambling(commitment[i], ScramblingOf(rev[i]));
        } else {
          validated := circuit.ValidateScrambling(commitment[i], ScramblingOf(rev[i]));
        }
        if validated.Fatal? {
          return Fatal(validated.reason);
        }
        i := i + 1;
      }
      confidence := confidence + |request|;
      return Ok(());
    }

    /** read_reveal with each round checked against the half its challenge bit
        asked for, by the validators that also demand one committed table per
        cell. */
    method ReadRevealDispatched(rev: seq<ProverSecret>) returns (r: Result<()>)
      requires Valid()
      modifies this, circuit.keys
      ensures Valid()
      ensures securityParam == old(securityParam) && output == old(output)
      ensures commitment == old(commitment) && request == old(request)
      ensures r.Fatal? ==> confidence == old(confidence)
      ensures r.Ok? ==> confidence == old(confidence) + |request|
      ensures r.Ok? <==> RoundsPass(circuit.m, circuit.gatesdef, circuit.hash, request, commitment, rev)
    {
      var i := 0;
      while i < |request|
        invariant 0 <= i <= |request| && circuit.Valid()
        invariant confidence == old(confidence) && request == old(request) && commitment == old(commitment)
        invariant securityParam == old(securityParam) && output == old(output)
        invariant i <= |commitment| && i <= |rev|
        invariant RoundsPass(circuit.m, circuit.gatesdef, circuit.hash, request[..i], commitment, rev)
      {
        if i >= |commitment| || i >= |rev| {
          return Fatal("round out of range");
        }
        var validated;
        if request[i] {
          validated := circuit.ValidateScramblingStrict(commitment[i], ScramblingOf(rev[i]));
        } else {
          validated := circuit.ValidateExecutionStrict(commitment[i], ExecutionOf(rev[i]));
        }
        if validated.Fatal? {
          return Fatal(validated.reason);
        }
        assert request[..i + 1][i] == request[i];
        i := i + 1;
      }
      assert request[..i] == request;
      confidence := confidence + |request|;
      return Ok(());
    }

    /** proven: the confidence exceeds the security parameter. */
    function Proven(): bool
      reads this
    {
      confidence > securityParam
    }
  }

  /** What an honest prover sends for a round challenged on its execution
      holds no scrambling half, and the scrambling check rejects that for any
      module with a wire: so the as-written read_reveal aborts on every honest
      reveal that opens an execution. */
  lemma ExecutionOpeningFailsScramblingCheck(m: Module, gatesdef: seq<Table>, hash: Entry -> Digest,
                                             com: Commitment, secret: ProverSecret)
    requires |gatesdef| == |m.cells| && |m.wires| > 0
    ensures Prover.Opened(secret, false).scrambling.None?
    ensures !ScrSound(m, gatesdef, hash, com, ScramblingOf(Prover.Opened(secret, false)))
  {
    assert ScramblingOf(Prover.Opened(secret, false)).keys == [];
  }
}

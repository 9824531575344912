/** The prover's side of the protocol (ProverAgent.cc): it fixes a witness,
    commits to a batch of scrambled rounds keeping both reveals of each as its
    secret, and answers a challenge by opening one half per round. */
module Prover {
  import opened Outcomes
  import opened Messages
  import opened WireMaps
  import opened Netlist
  import opened Rounds
  import opened Garbling
  import opened GarblingProofs

  /** How many times a loop `for (int i = 0; i < p; i++)` runs. */
  function RoundCount(p: int): nat
  {
    if p < 0 then 0 else p
  }

  ghost predicate AllCoinsFit(gatesdef: seq<Table>, coins: seq<RoundCoins>, traced: nat)
  {
    forall i :: 0 <= i < |coins| ==> CoinsFit(gatesdef, coins[i], traced)
  }

  /** The trace and the keys are both keyed by the module's wires, in wire
      order, and no cell reads a constant: the setting in which an honest
      round passes both validators. */
  ghost predicate HonestSetting(m: Module, exec: WireMap, keys: WireMap)
  {
    && exec.Valid() && exec.order == m.wires
    && keys.Valid() && keys.order == m.wires
    && forall c :: 0 <= c < |m.cells| ==> NoConsts(m.cells[c])
  }

  /** Commitment com and secret open round rd of a run on trace exec: the
      round's commitment, both halves, the scrambling half the round's keys
      and tables, and the execution half the trace masked with the round's
      keys together with, for every cell, the one row of its scrambled table
      at the cell's masked ports. */
  ghost predicate OpensRound(m: Module, exec: WireMap, rd: Round, com: Commitment, secret: ProverSecret)
  {
    && com == rd.commitment
    && secret.scrambling == Some(ScramblingReveal(Serialized(rd.keys), rd.gates))
    && secret.execution.Some?
    && secret.execution.value.exec == MaskedTrace(exec, rd.keys)
    && |rd.gates| == |m.cells| && |secret.execution.value.entries| == |m.cells|
    && forall c :: 0 <= c < |m.cells| ==>
         RowRevealed(rd.gates[c], MaskedIn(exec, rd.keys, m.cells[c]), MaskedOut(exec, rd.keys, m.cells[c]),
                     secret.execution.value.entries[c])
  }

  /** The commitments and secrets are those of the rounds rs, one each. */
  ghost predicate CommittedAs(m: Module, coms: seq<Commitment>, secrets: seq<ProverSecret>, rs: seq<Round>, exec: WireMap)
  {
    && |coms| == |rs| && |secrets| == |rs|
    && forall i :: 0 <= i < |rs| ==> OpensRound(m, exec, rs[i], coms[i], secrets[i])
  }

  /** Every round's execution half passes the execution validator and its
      scrambling half the scrambling validator. */
  ghost predicate AllValidate(m: Module, gatesdef: seq<Table>, hash: Entry -> Digest,
                              coms: seq<Commitment>, secrets: seq<ProverSecret>)
    requires |gatesdef| == |m.cells|
  {
    && |coms| <= |secrets|
    && forall i :: 0 <= i < |coms| ==>
         && ExecValid(m, hash, coms[i], ExecutionOf(secrets[i]))
         && ScrHonest(m, gatesdef, hash, coms[i], ScramblingOf(secrets[i]))
  }

  /** The keys left behind after one pinned round per coin set, in turn. */
  function KeysAfter(m: Module, gatesdef: seq<Table>, hash: Entry -> Digest, exec: WireMap, keys: WireMap,
                     coins: seq<RoundCoins>): WireMap
    requires |gatesdef| == |m.cells| && AllCoinsFit(gatesdef, coins, |exec.order|)
  {
    if coins == [] then keys
    else
      var init := coins[..|coins| - 1];
      RoundPinned(m, gatesdef, hash, exec, KeysAfter(m, gatesdef, hash, exec, keys, init), coins[|coins| - 1]).keys
  }

  /** The rounds run one after another, each starting from the keys the
      previous one left. */
  function RoundSequence(m: Module, gatesdef: seq<Table>, hash: Entry -> Digest, exec: WireMap, keys: WireMap,
                         coins: seq<RoundCoins>): (rs: seq<Round>)
    requires |gatesdef| == |m.cells| && AllCoinsFit(gatesdef, coins, |exec.order|)
    ensures |rs| == |coins|
  {
    if coins == [] then []
    else
      var init := coins[..|coins| - 1];
      RoundSequence(m, gatesdef, hash, exec, keys, init)
        + [RoundPinned(m, gatesdef, hash, exec, KeysAfter(m, gatesdef, hash, exec, keys, init), coins[|coins| - 1])]
  }

  /** Every round keeps the keys valid, keyed by the wires in wire order, with
      every output wire's key 0. */
  lemma {:induction false} KeysAfterKeyed(m: Module, gatesdef: seq<Table>, gateFns: seq<seq<bool> -> seq<bool>>,
                                          hash: Entry -> Digest, exec: WireMap, keys: WireMap, coins: seq<RoundCoins>)
    requires WellFormed(m, gatesdef, gateFns) && AllCoinsFit(gatesdef, coins, |exec.order|)
    requires exec.order == m.wires && keys.Valid() && keys.order == m.wires
    ensures var k := KeysAfter(m, gatesdef, hash, exec, keys, coins);
            k.Valid() && k.order == m.wires
    ensures coins != [] ==> forall o :: o in m.outputs ==> !KeysAfter(m, gatesdef, hash, exec, keys, coins).Get(o)
  {
    if coins != [] {
      var init := coins[..|coins| - 1];
      KeysAfterKeyed(m, gatesdef, gateFns, hash, exec, keys, init);
      PinnedKeys(m, exec, KeysAfter(m, gatesdef, hash, exec, keys, init), coins[|coins| - 1].keyBits);
    }
  }

  /** One more coin set adds one pinned round, run from the keys the earlier
      rounds left, and leaves that round's keys. */
  lemma SequenceStep(m: Module, gatesdef: seq<Table>, hash: Entry -> Digest, exec: WireMap, keys: WireMap,
                     coins: seq<RoundCoins>, i: nat)
    requires |gatesdef| == |m.cells| && AllCoinsFit(gatesdef, coins, |exec.order|) && i < |coins|
    ensures AllCoinsFit(gatesdef, coins[..i], |exec.order|) && AllCoinsFit(gatesdef, coins[..i + 1], |exec.order|)
    ensures var rd := RoundPinned(m, gatesdef, hash, exec, KeysAfter(m, gatesdef, hash, exec, keys, coins[..i]), coins[i]);
            && RoundSequence(m, gatesdef, hash, exec, keys, coins[..i + 1])
               == RoundSequence(m, gatesdef, hash, exec, keys, coins[..i]) + [rd]
            && KeysAfter(m, gatesdef, hash, exec, keys, coins[..i + 1]) == rd.keys
  {
    assert coins[..i + 1][..i] == coins[..i];
    assert coins[..i + 1][i] == coins[i];
  }

  /** Appending one round's commitment and secret keeps them those of the
      rounds with that round appended. */
  lemma CommittedAsStep(m: Module, coms: seq<Commitment>, secrets: seq<ProverSecret>, rs: seq<Round>, exec: WireMap,
                        rd: Round, com: Commitment, secret: ProverSecret)
    requires CommittedAs(m, coms, secrets, rs, exec)
    requires CommittedAs(m, [com], [secret], [rd], exec)
    ensures CommittedAs(m, coms + [com], secrets + [secret], rs + [rd], exec)
  {
  }

  /** Appending a round whose halves both validate keeps every round
      validating. */
  lemma AllValidateStep(m: Module, gatesdef: seq<Table>, hash: Entry -> Digest, coms: seq<Commitment>,
                        secrets: seq<ProverSecret>, com: Commitment, secret: ProverSecret)
    requires |gatesdef| == |m.cells| && |coms| == |secrets|
    requires AllValidate(m, gatesdef, hash, coms, secrets) && AllValidate(m, gatesdef, hash, [com], [secret])
    ensures AllValidate(m, gatesdef, hash, coms + [com], secrets + [secret])
  {
    forall i | 0 <= i < |coms| + 1
      ensures && ExecValid(m, hash, (coms + [com])[i], ExecutionOf((secrets + [secret])[i]))
              && ScrHonest(m, gatesdef, hash, (coms + [com])[i], ScramblingOf((secrets + [secret])[i]))
    {
      if i == |coms| {
        assert [com][0] == com && [secret][0] == secret;
      } else {
        assert (coms + [com])[i] == coms[i] && (secrets + [secret])[i] == secrets[i];
      }
    }
  }

  /** One round of write_commitment_packet: commit with a pinned round, then
      keep both of its reveals as the round's secret. reveal_execution aborts
      only when the trace does not satisfy the circuit. */
  method CommitRound(circuit: ScrambledCircuit, coins: RoundCoins) returns (r: Result<(Commitment, ProverSecret)>)
    requires circuit.Valid() && CoinsFit(circuit.gatesdef, coins, |circuit.execution.dict.order|)
    modifies circuit, circuit.keys
    ensures circuit.Valid() && circuit.execution.dict == old(circuit.execution.dict)
    ensures var rd := RoundPinned(circuit.m, circuit.gatesdef, circuit.hash, old(circuit.execution.dict), old(circuit.keys.dict), coins);
            && circuit.keys.dict == rd.keys
            && (r.Ok? ==> CommittedAs(circuit.m, [r.value.0], [r.value.1], [rd], old(circuit.execution.dict)))
    ensures Satisfies(circuit.m, circuit.gateFns, old(circuit.execution.dict)) ==> r.Ok?
    ensures r.Ok? && HonestSetting(circuit.m, old(circuit.execution.dict), old(circuit.keys.dict)) ==>
              AllValidate(circuit.m, circuit.gatesdef, circuit.hash, [r.value.0], [r.value.1])
  {
    ghost var exec := circuit.execution.dict;
    ghost var keys := circuit.keys.dict;
    if Satisfies(circuit.m, circuit.gateFns, exec) {
      PinnedRevealSucceeds(circuit.m, circuit.gatesdef, circuit.gateFns, circuit.hash, exec, keys, coins);
    }
    var com := circuit.CreateProofRoundPinned(coins);
    var ex := circuit.RevealExecution();
    if ex.Fatal? {
      return Fatal(ex.reason);
    }
    var scr := circuit.RevealScrambling();
    if HonestSetting(circuit.m, exec, keys) {
      PinnedExecutionValidates(circuit.m, circuit.gatesdef, circuit.gateFns, circuit.hash, exec, keys, coins, ex.value);
      PinnedScramblingValidates(circuit.m, circuit.gatesdef, circuit.gateFns, circuit.hash, exec, keys, coins);
    }
    r := Ok((com, ProverSecret(Some(ex.value), Some(scr))));
    assert CommittedAs(circuit.m, [r.value.0], [r.value.1], [RoundPinned(circuit.m, circuit.gatesdef, circuit.hash, exec, keys, coins)], exec);
  }

  /** The loop shared by write_commitment_packet and the prover_create action:
      n rounds in a row, each committed and both of its reveals kept. */
  method CommitRounds(circuit: ScrambledCircuit, coins: seq<RoundCoins>, n: nat)
    returns (r: Result<(seq<Commitment>, seq<ProverSecret>)>)
    requires circuit.Valid() && |coins| >= n
    requires AllCoinsFit(circuit.gatesdef, coins, |circuit.execution.dict.order|)
    modifies circuit, circuit.keys
    ensures circuit.Valid() && circuit.execution.dict == old(circuit.execution.dict)
    ensures r.Ok? ==> CommittedAs(circuit.m, r.value.0, r.value.1,
                                  RoundSequence(circuit.m, circuit.gatesdef, circuit.hash, old(circuit.execution.dict),
                                                old(circuit.keys.dict), coins[..n]),
                                  old(circuit.execution.dict))
    ensures Satisfies(circuit.m, circuit.gateFns, old(circuit.execution.dict)) ==> r.Ok?
    ensures r.Ok? && HonestSetting(circuit.m, old(circuit.execution.dict), old(circuit.keys.dict)) ==>
              AllValidate(circuit.m, circuit.gatesdef, circuit.hash, r.value.0, r.value.1)
  {
    ghost var exec := circuit.execution.dict;
    ghost var keys := circuit.keys.dict;
    ghost var honest := HonestSetting(circuit.m, exec, keys);
    var coms: seq<Commitment> := [];
    var secrets: seq<ProverSecret> := [];
    var i := 0;
    while i < n
      invariant 0 <= i <= n && |coms| == i && |secrets| == i
      invariant circuit.Valid() && circuit.execution.dict == exec
      invariant circuit.keys.dict == KeysAfter(circuit.m, circuit.gatesdef, circuit.hash, exec, keys, coins[..i])
      invariant CommittedAs(circuit.m, coms, secrets, RoundSequence(circuit.m, circuit.gatesdef, circuit.hash, exec, keys, coins[..i]), exec)
      invariant honest ==> AllValidate(circuit.m, circuit.gatesdef, circuit.hash, coms, secrets)
    {
      SequenceStep(circuit.m, circuit.gatesdef, circuit.hash, exec, keys, coins, i);
      if honest {
        KeysAfterKeyed(circuit.m, circuit.gatesdef, circuit.gateFns, circuit.hash, exec, keys, coins[..i]);
      }
      ghost var from := circuit.keys.dict;
      var step := CommitRound(circuit, coins[i]);
      if step.Fatal? {
        return Fatal(step.reason);
      }
      CommittedAsStep(circuit.m, coms, secrets, RoundSequence(circuit.m, circuit.gatesdef, circuit.hash, exec, keys, coins[..i]), exec,
                      RoundPinned(circuit.m, circuit.gatesdef, circuit.hash, exec, from, coins[i]),
                      step.value.0, step.value.1);
      if honest {
        AllValidateStep(circuit.m, circuit.gatesdef, circuit.hash, coms, secrets, step.value.0, step.value.1);
      }
      coms := coms + [step.value.0];
      secrets := secrets + [step.value.1];
      i := i + 1;
    }
    assert coins[..n] == coins[..i];
    return Ok((coms, secrets));
  }

  /** The evaluator gives every wire a state and the outputs exactly `out`. */
  ghost predicate Produces(m: Module, value: string -> Option<State>, out: seq<State>)
  {
    && (forall i :: 0 <= i < |m.wires| ==> value(m.wires[i]).Some?)
    && |out| == |m.outputs|
    && forall i :: 0 <= i < |out| ==> value(m.outputs[i]) == Some(out[i])
  }

  /** Evaluate the circuit under the witness and abort unless the outputs are
      exactly `out`: the check shared by set_data and the prover_create action. */
  method RunWitness(circuit: ScrambledCircuit, value: string -> Option<State>, out: seq<State>) returns (r: Result<()>)
    requires circuit.Valid()
    modifies circuit.execution, circuit.keys
    ensures circuit.Valid()
    ensures r.Ok? <==> Produces(circuit.m, value, out)
    ensures r.Ok? ==> circuit.execution.dict == Zip(circuit.m.wires, TraceBits(circuit.m.wires, value))
    ensures r.Ok? ==> circuit.keys.dict == Zip(circuit.m.wires, Zeros(|circuit.m.wires|))
  {
    var o := circuit.Execute(value);
    if o.Fatal? {
      return Fatal(o.reason);
    }
    if o.value != out {
      if |o.value| == |out| {
        var i :| 0 <= i < |out| && o.value[i] != out[i];
        assert value(circuit.m.outputs[i]) != Some(out[i]);
      }
      return Fatal("Input does not produce required output");
    }
    return Ok(());
  }

  /** The one half of a round's secret a challenge bit opens: the scrambling
      half when the bit is set, the execution half otherwise. */
  function Opened(secret: ProverSecret, scrambling: bool): ProverSecret
  {
    if scrambling then ProverSecret(None, Some(ScramblingOf(secret)))
    else ProverSecret(Some(ExecutionOf(secret)), None)
  }

  class ProverAgent {
    const circuit: ScrambledCircuit
    var securityParam: int
    /** One secret per committed round not yet revealed. */
    var state: seq<ProverSecret>

    ghost predicate Valid()
      reads this, circuit, circuit.execution, circuit.keys
    {
      circuit.Valid()
    }

    constructor (m: Module, gatesdef: seq<Table>, ghost gateFns: seq<seq<bool> -> seq<bool>>, hash: Entry -> Digest)
      requires WellFormed(m, gatesdef, gateFns)
      ensures Valid() && fresh(circuit) && fresh(circuit.execution) && fresh(circuit.keys)
      ensures circuit.m == m && circuit.gatesdef == gatesdef && circuit.gateFns == gateFns && circuit.hash == hash
      ensures securityParam == 128 && state == []
    {
      circuit := new ScrambledCircuit(m, gatesdef, gateFns, hash);
      securityParam := 128;
      state := [];
    }

    /** set_data: evaluate the circuit under the witness and abort unless the
        outputs are exactly `out`. */
    method SetData(value: string -> Option<State>, out: seq<State>) returns (r: Result<()>)
      requires Valid()
      modifies circuit.execution, circuit.keys
      ensures Valid()
      ensures r.Ok? <==> Produces(circuit.m, value, out)
      ensures r.Ok? ==> circuit.execution.dict == Zip(circuit.m.wires, TraceBits(circuit.m.wires, value))
      ensures r.Ok? ==> circuit.keys.dict == Zip(circuit.m.wires, Zeros(|circuit.m.wires|))
    {
      r := RunWitness(circuit, value, out);
    }

    method SetSecurityParam(p: int)
      modifies this
      ensures securityParam == p && state == old(state)
    {
      securityParam := p;
    }

    /** write_commitment_packet: securityParam rounds, whose commitments are
        returned and whose secrets, both halves each, are appended to the
        secrets already held. */
    method WriteCommitmentPacket(coins: seq<RoundCoins>) returns (r: Result<seq<Commitment>>)
      requires Valid() && |coins| >= RoundCount(securityParam)
      requires AllCoinsFit(circuit.gatesdef, coins, |circuit.execution.dict.order|)
      modifies this, circuit, circuit.keys
      ensures Valid() && circuit.execution.dict == old(circuit.execution.dict) && securityParam == old(securityParam)
      ensures r.Ok? ==> |state| == |old(state)| + RoundCount(securityParam) && state[..|old(state)|] == old(state)
      ensures r.Ok? ==> CommittedAs(circuit.m, r.value, state[|old(state)|..],
                                    RoundSequence(circuit.m, circuit.gatesdef, circuit.hash, old(circuit.execution.dict),
                                                  old(circuit.keys.dict), coins[..RoundCount(securityParam)]),
                                    old(circuit.execution.dict))
      ensures Satisfies(circuit.m, circuit.gateFns, old(circuit.execution.dict)) ==> r.Ok?
      ensures r.Ok? && HonestSetting(circuit.m, old(circuit.execution.dict), old(circuit.keys.dict)) ==>
                AllValidate(circuit.m, circuit.gatesdef, circuit.hash, r.value, state[|old(state)|..])
    {
      var rounds := CommitRounds(circuit, coins, RoundCount(securityParam));
      if rounds.Fatal? {
        return Fatal(rounds.reason);
      }
      ghost var before := state;
      state := state + rounds.value.1;
      assert state[|before|..] == rounds.value.1;
      return Ok(rounds.value.0);
    }

    /** write_reveal: abort unless there is one challenge bit per stored round;
        otherwise open the scrambling half of each round whose bit is set and
        the execution half of every other, then forget every round. */
    method WriteReveal(request: seq<bool>) returns (r: Result<seq<ProverSecret>>)
      modifies this
      ensures securityParam == old(securityParam)
      ensures r.Fatal? <==> |request| != |old(state)|
      ensures r.Fatal? ==> state == old(state)
      ensures r.Ok? ==> state == [] && |r.value| == |request|
      ensures r.Ok? ==> forall i :: 0 <= i < |request| ==>
                && r.value[i].scrambling.Some? == request[i]
                && r.value[i].execution.Some? == !request[i]
                && (request[i] ==> ScramblingOf(r.value[i]) == ScramblingOf(old(state)[i]))
                && (!request[i] ==> ExecutionOf(r.value[i]) == ExecutionOf(old(state)[i]))
    {
      if |request| != |state| {
        return Fatal("Provee request does not match security parameter of commitment");
      }
      var revealed: seq<ProverSecret> := [];
      var i := 0;
      while i < |request|
        invariant 0 <= i <= |request| && |revealed| == i && state == old(state)
        invariant forall j :: 0 <= j < i ==> revealed[j] == Opened(state[j], request[j])
      {
        revealed := revealed + [Opened(state[i], request[i])];
        i := i + 1;
      }
      state := [];
      return Ok(revealed);
    }
  }
}

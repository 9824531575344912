/** The four actions of the command-line driver (yosysZKP.cc), with every file
    abstracted as the sequence of records it holds: the prover commits, the
    verifier answers with challenge bits, the prover opens one half per round,
    and the verifier checks every round against the claimed outputs. */
module Cli {
  import opened Outcomes
  import opened Messages
  import opened WireMaps
  import opened Netlist
  import opened Rounds
  import opened Garbling
  import opened Prover
  import opened Provee

  // ---------------------------------------------------------------------------
  // const_from_file

  /** The bits a text spells: each '1' is S1, each '0' is S0, in order; every
      other character, line breaks included, is skipped. */
  function Digits(text: string): seq<State>
  {
    if text == [] then []
    else
      var c := text[|text| - 1];
      Digits(text[..|text| - 1]) + (if c == '1' then [S1] else if c == '0' then [S0] else [])
  }

  /** const_from_file: the character filter over the file's text. */
  method ConstFromFile(text: string) returns (result: seq<State>)
    ensures result == Digits(text)
  {
    result := [];
    var i := 0;
    while i < |text|
      invariant 0 <= i <= |text| && result == Digits(text[..i])
    {
      assert text[..i + 1][..i] == text[..i];
      if text[i] == '1' {
        result := result + [S1];
      }
      if text[i] == '0' {
        result := result + [S0];
      }
      i := i + 1;
    }
    assert text[..i] == text;
  }

  /** The filter reads two texts one after the other as their bits in turn. */
  lemma {:induction false} DigitsAppend(a: string, b: string)
    ensures Digits(a + b) == Digits(a) + Digits(b)
  {
    if b != [] {
      var init := b[..|b| - 1];
      assert (a + b)[..|a + b| - 1] == a + init;
      assert (a + b)[|a + b| - 1] == b[|b| - 1];
      DigitsAppend(a, init);
      var c := b[|b| - 1];
      var last := if c == '1' then [S1] else if c == '0' then [S0] else [];
      assert Digits(a + b) == Digits(a + init) + last;
      assert Digits(b) == Digits(init) + last;
    } else {
      assert a + b == a;
    }
  }

  /** A file of 0/1 bits, one character per bit. */
  function Render(bits: seq<State>): string
  {
    if bits == [] then [] else Render(bits[..|bits| - 1]) + [if bits[|bits| - 1] == S1 then '1' else '0']
  }

  /** Reading a rendered file gives back its bits, when every bit is 0 or 1. */
  lemma {:induction false} DigitsRender(bits: seq<State>)
    requires forall i :: 0 <= i < |bits| ==> bits[i] == S0 || bits[i] == S1
    ensures Digits(Render(bits)) == bits
  {
    if bits != [] {
      var init := bits[..|bits| - 1];
      DigitsRender(init);
      var r := Render(bits);
      assert r[..|r| - 1] == Render(init);
    }
  }

  // ---------------------------------------------------------------------------
  // prover_create

  /** The trace the evaluator gives: every wire, in wire order, set exactly
      when it evaluates to 1. */
  function TraceOf(wires: seq<string>, value: string -> Option<State>): (t: WireMap)
    requires Distinct(wires)
    ensures t.Valid() && t.order == wires
    ensures forall w :: w in wires ==> t.Get(w) == (value(w) == Some(S1))
  {
    ZipContents(wires, TraceBits(wires, value));
    Zip(wires, TraceBits(wires, value))
  }

  /** The all-zero keys of the wires, in wire order. */
  function ZeroKeys(wires: seq<string>): (k: WireMap)
    requires Distinct(wires)
    ensures k.Valid() && k.order == wires
    ensures forall w :: w in wires ==> !k.Get(w)
  {
    ZipContents(wires, Zeros(|wires|));
    Zip(wires, Zeros(|wires|))
  }

  /** The commitment claims the given outputs: one bit per state, set exactly
      for S1. */
  ghost predicate ClaimsOutputs(com: Commitment, claimed: seq<State>)
  {
    |com.output| == |claimed| && forall j :: 0 <= j < |claimed| ==> (com.output[j] <==> claimed[j] == S1)
  }

  /** The commitment holds one table hash list per cell and the trace's value
      of every output wire. */
  ghost predicate CommitsTrace(m: Module, exec: WireMap, com: Commitment)
  {
    && |com.gateHashes| == |m.cells| && |com.output| == |m.outputs|
    && forall j :: 0 <= j < |m.outputs| ==> com.output[j] == exec.Get(m.outputs[j])
  }

  /** Every commitment claims the outputs and holds one table hash list per
      cell. */
  ghost predicate AllClaim(m: Module, coms: seq<Commitment>, claimed: seq<State>)
  {
    forall i :: 0 <= i < |coms| ==> ClaimsOutputs(coms[i], claimed) && |coms[i].gateHashes| == |m.cells|
  }

  /** Every round of a sequence commits one table per cell and the trace's
      value of every output wire. */
  lemma {:induction false} RoundSequenceCommits(m: Module, gatesdef: seq<Table>, hash: Entry -> Digest, exec: WireMap,
                                                keys: WireMap, coins: seq<RoundCoins>)
    requires |gatesdef| == |m.cells| && AllCoinsFit(gatesdef, coins, |exec.order|)
    ensures forall i :: 0 <= i < |coins| ==>
              CommitsTrace(m, exec, RoundSequence(m, gatesdef, hash, exec, keys, coins)[i].commitment)
  {
    if coins != [] {
      var init := coins[..|coins| - 1];
      assert AllCoinsFit(gatesdef, init, |exec.order|);
      RoundSequenceCommits(m, gatesdef, hash, exec, keys, init);
      var before := RoundSequence(m, gatesdef, hash, exec, keys, init);
      var last := RoundPinned(m, gatesdef, hash, exec, KeysAfter(m, gatesdef, hash, exec, keys, init), coins[|coins| - 1]);
      var rs := RoundSequence(m, gatesdef, hash, exec, keys, coins);
      assert rs == before + [last];
      assert CommitsTrace(m, exec, last.commitment);
      forall i | 0 <= i < |coins|
        ensures CommitsTrace(m, exec, rs[i].commitment)
      {
        if i < |init| {
          assert rs[i] == before[i];
        }
      }
    }
  }

  /** When the evaluator gives every output its claimed state, the
      commitments of rounds run on its trace claim those outputs and commit
      one table per cell. */
  lemma CommittedRoundsClaimOutputs(m: Module, gatesdef: seq<Table>, hash: Entry -> Digest, value: string -> Option<State>,
                                    keys: WireMap, coins: seq<RoundCoins>, claimed: seq<State>,
                                    coms: seq<Commitment>, secrets: seq<ProverSecret>)
    requires Distinct(m.wires) && (forall o :: o in m.outputs ==> o in m.wires) && |gatesdef| == |m.cells|
    requires AllCoinsFit(gatesdef, coins, |m.wires|) && Produces(m, value, claimed)
    requires CommittedAs(m, coms, secrets, RoundSequence(m, gatesdef, hash, TraceOf(m.wires, value), keys, coins),
                         TraceOf(m.wires, value))
    ensures AllClaim(m, coms, claimed)
  {
    var trace := TraceOf(m.wires, value);
    var rs := RoundSequence(m, gatesdef, hash, trace, keys, coins);
    RoundSequenceCommits(m, gatesdef, hash, trace, keys, coins);
    forall j | 0 <= j < |m.outputs|
      ensures trace.Get(m.outputs[j]) == (claimed[j] == S1)
    {
      assert m.outputs[j] in m.outputs;
    }
    forall i | 0 <= i < |coms|
      ensures ClaimsOutputs(coms[i], claimed) && |coms[i].gateHashes| == |m.cells|
    {
      assert coms[i] == rs[i].commitment;
      assert CommitsTrace(m, trace, rs[i].commitment);
    }
  }

  /** The round loop of prover_create, run once the witness is checked: the
      commitments and secrets of securityParam rounds run on its trace from
      the zero keys. */
  method CommitWitness(circuit: ScrambledCircuit, ghost value: string -> Option<State>, ghost claimed: seq<State>,
                       coins: seq<RoundCoins>, n: nat)
    returns (r: Result<(seq<Commitment>, seq<ProverSecret>)>)
    requires circuit.Valid() && |coins| >= n && AllCoinsFit(circuit.gatesdef, coins, |circuit.m.wires|)
    requires Produces(circuit.m, value, claimed)
    requires circuit.execution.dict == TraceOf(circuit.m.wires, value) && circuit.keys.dict == ZeroKeys(circuit.m.wires)
    modifies circuit, circuit.keys
    ensures circuit.Valid()
    ensures r.Ok? ==> CommittedAs(circuit.m, r.value.0, r.value.1,
                                  RoundSequence(circuit.m, circuit.gatesdef, circuit.hash, TraceOf(circuit.m.wires, value),
                                                ZeroKeys(circuit.m.wires), coins[..n]),
                                  TraceOf(circuit.m.wires, value))
    ensures r.Ok? ==> AllClaim(circuit.m, r.value.0, claimed)
    ensures Satisfies(circuit.m, circuit.gateFns, TraceOf(circuit.m.wires, value)) ==> r.Ok?
    ensures r.Ok? && (forall c :: 0 <= c < |circuit.m.cells| ==> NoConsts(circuit.m.cells[c])) ==>
              AllValidate(circuit.m, circuit.gatesdef, circuit.hash, r.value.0, r.value.1)
  {
    r := CommitRounds(circuit, coins, n);
    if r.Ok? {
      CommittedRoundsClaimOutputs(circuit.m, circuit.gatesdef, circuit.hash, value, ZeroKeys(circuit.m.wires), coins[..n],
                                  claimed, r.value.0, r.value.1);
    }
  }

  /** prover_create: read the claimed outputs, evaluate the circuit under the
      witness and abort unless it produces exactly them, then commit
      `securityParam` rounds, keeping both halves of each as its secret.
      The files written are the returned commitments and secrets, in order. */
  method ProverCreate(circuit: ScrambledCircuit, value: string -> Option<State>, outputsText: string,
                      securityParam: int, coins: seq<RoundCoins>)
    returns (r: Result<(seq<Commitment>, seq<ProverSecret>)>)
    requires circuit.Valid() && |coins| >= RoundCount(securityParam)
    requires AllCoinsFit(circuit.gatesdef, coins, |circuit.m.wires|)
    modifies circuit, circuit.execution, circuit.keys
    ensures circuit.Valid()
    ensures r.Ok? ==> Produces(circuit.m, value, Digits(outputsText))
    ensures r.Ok? ==> CommittedAs(circuit.m, r.value.0, r.value.1,
                                  RoundSequence(circuit.m, circuit.gatesdef, circuit.hash, TraceOf(circuit.m.wires, value),
                                                ZeroKeys(circuit.m.wires), coins[..RoundCount(securityParam)]),
                                  TraceOf(circuit.m.wires, value))
    ensures r.Ok? ==> AllClaim(circuit.m, r.value.0, Digits(outputsText))
    ensures Produces(circuit.m, value, Digits(outputsText)) && Satisfies(circuit.m, circuit.gateFns, TraceOf(circuit.m.wires, value))
            ==> r.Ok?
    ensures r.Ok? && (forall c :: 0 <= c < |circuit.m.cells| ==> NoConsts(circuit.m.cells[c])) ==>
              AllValidate(circuit.m, circuit.gatesdef, circuit.hash, r.value.0, r.value.1)
  {
    var claimed := ConstFromFile(outputsText);
    var run := RunWitness(circuit, value, claimed);
    if run.Fatal? {
      return Fatal(run.reason);
    }
    r := CommitWitness(circuit, value, claimed, coins, RoundCount(securityParam));
  }

  // ---------------------------------------------------------------------------
  // provee_respond

  /** provee_respond: one verifier-state record per commitment, pairing it
      with the challenge bit drawn for it (`bits` are the random bits drawn),
      and the request of all those bits. */
  method ProveeRespond(comms: seq<Commitment>, bits: seq<bool>) returns (states: seq<ProveeRound>, request: seq<bool>)
    requires |bits| >= |comms|
    ensures |states| == |comms| && |request| == |comms|
    ensures forall i :: 0 <= i < |comms| ==>
              && states[i] == ProveeRound(comms[i], bits[i])
              && request[i] == states[i].scrambling
  {
    states := [];
    request := [];
    var i := 0;
    while i < |comms|
      invariant 0 <= i <= |comms| && |states| == i && |request| == i
      invariant forall j :: 0 <= j < i ==> states[j] == ProveeRound(comms[j], bits[j]) && request[j] == bits[j]
    {
      var scrambled := bits[i];
      states := states + [ProveeRound(comms[i], scrambled)];
      request := request + [scrambled];
      i := i + 1;
    }
  }

  // ---------------------------------------------------------------------------
  // prover_reveal

  /** A secret with the half a challenge bit does not ask for cleared. */
  function Cleared(secret: ProverSecret, scrambling: bool): ProverSecret
  {
    if scrambling then ProverSecret(None, secret.scrambling) else ProverSecret(secret.execution, None)
  }

  /** prover_reveal: the request is the first record of the request file (no
      bits when there is none); for each bit, the next secret with the other
      half cleared. A secret file that runs out reads as empty secrets. */
  method ProverReveal(secrets: seq<ProverSecret>, requests: seq<seq<bool>>) returns (revealed: seq<ProverSecret>)
    ensures var request := if requests == [] then [] else requests[0];
            && |revealed| == |request|
            && forall i :: 0 <= i < |request| ==>
                 && (request[i] ==> revealed[i].execution.None?)
                 && (!request[i] ==> revealed[i].scrambling.None?)
                 && (i < |secrets| && request[i] ==> ScramblingOf(revealed[i]) == ScramblingOf(secrets[i]))
                 && (i < |secrets| && !request[i] ==> ExecutionOf(revealed[i]) == ExecutionOf(secrets[i]))
  {
    var request := if requests == [] then [] else requests[0];
    revealed := [];
    var i := 0;
    while i < |request|
      invariant 0 <= i <= |request| && |revealed| == i
      invariant forall j :: 0 <= j < i ==>
                  revealed[j] == Cleared(if j < |secrets| then secrets[j] else ProverSecret(None, None), request[j])
    {
      var secret := if i < |secrets| then secrets[i] else ProverSecret(None, None);
      revealed := revealed + [Cleared(secret, request[i])];
      i := i + 1;
    }
  }

  // ---------------------------------------------------------------------------
  // provee_validate

  /** The challenge bit of every verifier-state record. */
  function Challenges(states: seq<ProveeRound>): seq<bool>
  {
    seq(|states|, i requires 0 <= i < |states| => states[i].scrambling)
  }

  /** The commitment of every verifier-state record. */
  function Commitments(states: seq<ProveeRound>): seq<Commitment>
  {
    seq(|states|, i requires 0 <= i < |states| => states[i].commitment)
  }

  /** The output check of provee_validate: the committed outputs are as many
      as the claimed ones and each is set exactly when its claim is S1. */
  method CheckClaims(com: Commitment, claimed: seq<State>) returns (claims: bool)
    ensures claims <==> ClaimsOutputs(com, claimed)
  {
    if |com.output| != |claimed| {
      return false;
    }
    var j := 0;
    while j < |claimed|
      invariant 0 <= j <= |claimed|
      invariant forall k :: 0 <= k < j ==> (com.output[k] <==> claimed[k] == S1)
    {
      if (claimed[j] == S1) != com.output[j] {
        return false;
      }
      j := j + 1;
    }
    return true;
  }

  /** provee_validate: for every verifier-state record, abort unless its
      commitment claims exactly the outputs read from the file, unless a
      reveal remains for it, and unless that reveal passes the check of the
      half the record's bit asked for; then succeed with the number of rounds
      checked if it reaches the security parameter. */
  method ProveeValidate(circuit: ScrambledCircuit, outputsText: string, securityParam: int,
                        states: seq<ProveeRound>, revealed: seq<ProverSecret>) returns (r: Result<nat>)
    requires circuit.Valid()
    modifies circuit.keys
    ensures circuit.Valid()
    ensures r.Ok? ==> r.value == |states| && r.value >= securityParam
    ensures r.Ok? ==> forall i :: 0 <= i < |states| ==> ClaimsOutputs(states[i].commitment, Digits(outputsText))
    ensures r.Ok? ==> RoundsPass(circuit.m, circuit.gatesdef, circuit.hash, Challenges(states), Commitments(states), revealed)
    ensures && |states| >= securityParam
            && (forall i :: 0 <= i < |states| ==> ClaimsOutputs(states[i].commitment, Digits(outputsText)))
            && RoundsPass(circuit.m, circuit.gatesdef, circuit.hash, Challenges(states), Commitments(states), revealed)
            ==> r.Ok?
  {
    var claimed := ConstFromFile(outputsText);
    ghost var bits := Challenges(states);
    ghost var coms := Commitments(states);
    var count := 0;
    while count < |states|
      invariant 0 <= count <= |states| && count <= |revealed| && circuit.Valid()
      invariant forall k :: 0 <= k < count ==> ClaimsOutputs(states[k].commitment, claimed)
      invariant RoundsPass(circuit.m, circuit.gatesdef, circuit.hash, bits[..count], coms, revealed)
    {
      var state := states[count];
      var claims := CheckClaims(state.commitment, claimed);
      if !claims {
        return Fatal("Outputs do not match requirements");
      }
      if count >= |revealed| {
        return Fatal("Mismatch between commitment and reveal");
      }
      var validated;
      if state.scrambling {
        validated := circuit.ValidateScramblingStrict(state.commitment, ScramblingOf(revealed[count]));
      } else {
        validated := circuit.ValidateExecutionStrict(state.commitment, ExecutionOf(revealed[count]));
      }
      if validated.Fatal? {
        return Fatal("Proof round did not validate");
      }
      assert bits[..count + 1][count] == bits[count];
      count := count + 1;
    }
    assert bits[..count] == bits;
    if count >= securityParam {
      return Ok(count);
    }
    return Fatal("Not enough proof rounds to satisfy security requirement");
  }

  // ---------------------------------------------------------------------------
  // A whole session

  /** An honest reveal passes: when every round's halves validate and the
      reveal opens, for each challenge bit, the half of the stored secret it
      asks for, every challenged round passes its check. */
  lemma HonestRevealPasses(m: Module, gatesdef: seq<Table>, hash: Entry -> Digest, claimed: seq<State>,
                           coms: seq<Commitment>, secrets: seq<ProverSecret>, request: seq<bool>, answer: seq<ProverSecret>)
    requires |gatesdef| == |m.cells| && |secrets| == |coms|
    requires AllValidate(m, gatesdef, hash, coms, secrets) && AllClaim(m, coms, claimed)
    requires |request| == |coms| && |answer| == |request|
    requires forall i :: 0 <= i < |request| ==>
               && (request[i] ==> ScramblingOf(answer[i]) == ScramblingOf(secrets[i]))
               && (!request[i] ==> ExecutionOf(answer[i]) == ExecutionOf(secrets[i]))
    ensures RoundsPass(m, gatesdef, hash, request, coms, answer)
  {
  }

  /** The four actions run in turn by an honest prover and a verifier that
      loads the same module: when the witness evaluates every wire, produces
      the claimed outputs and satisfies the circuit, and no cell reads a
      constant, provee_validate succeeds with one round per unit of the
      security parameter, whatever bits the verifier draws. */
  method HonestSession(prover: ScrambledCircuit, value: string -> Option<State>, outputsText: string,
                       securityParam: int, coins: seq<RoundCoins>, bits: seq<bool>) returns (r: Result<nat>)
    requires prover.Valid() && |coins| >= RoundCount(securityParam) && |bits| >= RoundCount(securityParam)
    requires AllCoinsFit(prover.gatesdef, coins, |prover.m.wires|)
    requires Produces(prover.m, value, Digits(outputsText))
    requires Satisfies(prover.m, prover.gateFns, TraceOf(prover.m.wires, value))
    requires forall c :: 0 <= c < |prover.m.cells| ==> NoConsts(prover.m.cells[c])
    modifies prover, prover.execution, prover.keys
    ensures r == Ok(RoundCount(securityParam))
  {
    var created := ProverCreate(prover, value, outputsText, securityParam, coins);
    var coms := created.value.0;
    var secrets := created.value.1;
    var states, request := ProveeRespond(coms, bits);
    var answer := ProverReveal(secrets, [request]);
    HonestRevealPasses(prover.m, prover.gatesdef, prover.hash, Digits(outputsText), coms, secrets, request, answer);
    var verifier := new ScrambledCircuit(prover.m, prover.gatesdef, prover.gateFns, prover.hash);
    assert Challenges(states) == request && Commitments(states) == coms;
    r := ProveeValidate(verifier, outputsText, securityParam, states, answer);
  }
}

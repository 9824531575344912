/** The garbling engine (ScrambledCircuit.cc): per-round state of one prover
    or verifier, holding the execution trace, the wire keys and the scrambled
    table of every cell. */
module Garbling {
  import opened Outcomes
  import opened Bits
  import opened Messages
  import opened TruthTables
  import opened WireMaps
  import opened Netlist
  import opened Rounds

  /** The value of every wire under the evaluated inputs, as read from a
      `vector<bool>` (only S1 is 1). */
  function TraceBits(wires: seq<string>, value: string -> Option<State>): (r: seq<bool>)
    ensures |r| == |wires|
  {
    seq(|wires|, i requires 0 <= i < |wires| => value(wires[i]) == Some(S1))
  }

  function Zeros(n: nat): (r: seq<bool>)
    ensures |r| == n && forall i :: 0 <= i < n ==> !r[i]
  {
    seq(n, _ => false)
  }

  /** initialize_cell_tables: the canonical table of every cell, in cell order. */
  method InitializeCellTables(m: Module, gateFns: seq<seq<bool> -> seq<bool>>) returns (r: Result<seq<Table>>)
    requires |gateFns| == |m.cells|
    ensures r.Fatal? <==> exists c :: 0 <= c < |m.cells| && Width(m.cells[c].conns, true) > MAX_GATE_INPUTS
    ensures r.Ok? ==> |r.value| == |m.cells|
    ensures r.Ok? ==> forall c :: 0 <= c < |m.cells| ==> CanonicalFor(r.value[c], Width(m.cells[c].conns, true), gateFns[c])
  {
    var tables: seq<Table> := [];
    var c := 0;
    while c < |m.cells|
      invariant 0 <= c <= |m.cells| && |tables| == c
      invariant forall d :: 0 <= d < c ==> Width(m.cells[d].conns, true) <= MAX_GATE_INPUTS
      invariant forall d :: 0 <= d < c ==> CanonicalFor(tables[d], Width(m.cells[d].conns, true), gateFns[d])
    {
      var t := FromGate(Width(m.cells[c].conns, true), gateFns[c]);
      if t.Fatal? {
        return Fatal(t.reason);
      }
      tables := tables + [t.value];
      c := c + 1;
    }
    return Ok(tables);
  }

  /** Cell c is revealable, by the row e. */
  ghost predicate CellRevealedBy(m: Module, gates: seq<Table>, exec: WireMap, keys: WireMap, c: nat, e: Entry)
    requires |gates| == |m.cells| && c < |m.cells|
  {
    && CellRevealable(gates[c], MaskedIn(exec, keys, m.cells[c]), MaskedOut(exec, keys, m.cells[c]))
    && RowRevealed(gates[c], MaskedIn(exec, keys, m.cells[c]), MaskedOut(exec, keys, m.cells[c]), e)
  }

  /** The cells before |entries| are revealable, each by its entry. */
  ghost predicate RevealedUpTo(m: Module, gates: seq<Table>, exec: WireMap, keys: WireMap, entries: seq<Entry>)
    requires |gates| == |m.cells|
  {
    && |entries| <= |m.cells|
    && forall d :: 0 <= d < |entries| ==> CellRevealedBy(m, gates, exec, keys, d, entries[d])
  }

  /** The next cell revealed by its entry extends the revealed prefix. */
  lemma RevealedUpToStep(m: Module, gates: seq<Table>, exec: WireMap, keys: WireMap, entries: seq<Entry>, e: Entry)
    requires |gates| == |m.cells| && RevealedUpTo(m, gates, exec, keys, entries) && |entries| < |m.cells|
    requires CellRevealedBy(m, gates, exec, keys, |entries|, e)
    ensures RevealedUpTo(m, gates, exec, keys, entries + [e])
  {
    var next := entries + [e];
    forall d | 0 <= d < |next|
      ensures CellRevealedBy(m, gates, exec, keys, d, next[d])
    {
      if d < |entries| {
        assert next[d] == entries[d];
      }
    }
  }

  /** Every cell revealed: the circuit is revealable, each cell by its entry. */
  lemma RevealedAll(m: Module, gates: seq<Table>, exec: WireMap, keys: WireMap, entries: seq<Entry>)
    requires |gates| == |m.cells| && RevealedUpTo(m, gates, exec, keys, entries) && |entries| == |m.cells|
    ensures AllRevealable(m, gates, exec, keys)
    ensures forall c :: 0 <= c < |m.cells| ==>
              RowRevealed(gates[c], MaskedIn(exec, keys, m.cells[c]), MaskedOut(exec, keys, m.cells[c]), entries[c])
  {
    forall c | 0 <= c < |m.cells|
      ensures CellRevealable(gates[c], MaskedIn(exec, keys, m.cells[c]), MaskedOut(exec, keys, m.cells[c]))
      ensures RowRevealed(gates[c], MaskedIn(exec, keys, m.cells[c]), MaskedOut(exec, keys, m.cells[c]), entries[c])
    {
      assert CellRevealedBy(m, gates, exec, keys, c, entries[c]);
    }
  }

  class ScrambledCircuit {
    const m: Module
    /** The canonical table of each cell, in cell order. */
    const gatesdef: seq<Table>
    /** The gate function each canonical table was built from. */
    ghost const gateFns: seq<seq<bool> -> seq<bool>>
    /** The hash of one table row. */
    const hash: Entry -> Digest
    const execution: WireValues
    const keys: WireValues
    /** The scrambled table of each cell, in cell order; a cell not yet
        scrambled holds the empty table. */
    var gates: seq<Table>

    ghost predicate Valid()
      reads this, execution, keys
    {
      && execution != keys
      && execution.wires == m.wires && keys.wires == m.wires
      && execution.Valid() && keys.Valid()
      && WellFormed(m, gatesdef, gateFns)
      && |gates| == |m.cells|
    }

    constructor (m: Module, gatesdef: seq<Table>, ghost gateFns: seq<seq<bool> -> seq<bool>>, hash: Entry -> Digest)
      requires WellFormed(m, gatesdef, gateFns)
      ensures Valid() && fresh(execution) && fresh(keys)
      ensures this.m == m && this.gatesdef == gatesdef && this.gateFns == gateFns && this.hash == hash
      ensures execution.dict == Empty && keys.dict == Empty
      ensures gates == seq(|m.cells|, _ => [])
    {
      this.m := m;
      this.gatesdef := gatesdef;
      this.gateFns := gateFns;
      this.hash := hash;
      execution := new WireValues(m.wires);
      keys := new WireValues(m.wires);
      gates := seq(|m.cells|, _ => []);
    }

    /** The map-reset part of execute. `value` is the circuit evaluator under
        the chosen inputs: the state of each wire, or None when the evaluator
        is missing a value, which aborts. On success both maps hold exactly
        the module's wires, the trace bit of each and a zero key, and the
        result is the state of every output. */
    method Execute(value: string -> Option<State>) returns (r: Result<seq<State>>)
      requires Valid()
      modifies execution, keys
      ensures Valid()
      ensures r.Fatal? <==> exists i :: 0 <= i < |m.wires| && value(m.wires[i]).None?
      ensures r.Fatal? ==> execution.dict == old(execution.dict) && keys.dict == old(keys.dict)
      ensures r.Ok? ==> execution.dict == Zip(m.wires, TraceBits(m.wires, value))
      ensures r.Ok? ==> keys.dict == Zip(m.wires, Zeros(|m.wires|))
      ensures r.Ok? ==> |r.value| == |m.outputs| && forall i :: 0 <= i < |m.outputs| ==> value(m.outputs[i]) == Some(r.value[i])
    {
      var evaluated := Evaluated(value);
      if !evaluated {
        return Fatal("Eval failed for execute: missing value");
      }
      ResetMaps(value);
      var outs := OutputStates(value);
      return Ok(outs);
    }

    /** Whether the evaluator gives every wire a state. */
    method Evaluated(value: string -> Option<State>) returns (evaluated: bool)
      ensures evaluated <==> forall i :: 0 <= i < |m.wires| ==> value(m.wires[i]).Some?
    {
      var i := 0;
      while i < |m.wires|
        invariant 0 <= i <= |m.wires|
        invariant forall j :: 0 <= j < i ==> value(m.wires[j]).Some?
      {
        if value(m.wires[i]).None? {
          return false;
        }
        i := i + 1;
      }
      return true;
    }

    /** Rebuild both maps wire by wire: the trace bit and a zero key each. */
    method ResetMaps(value: string -> Option<State>)
      requires Valid()
      modifies execution, keys
      ensures Valid()
      ensures execution.dict == Zip(m.wires, TraceBits(m.wires, value))
      ensures keys.dict == Zip(m.wires, Zeros(|m.wires|))
    {
      var trace := TraceBits(m.wires, value);
      var zeros := Zeros(|m.wires|);
      execution.dict := Empty;
      keys.dict := Empty;
      var i := 0;
      while i < |m.wires|
        invariant 0 <= i <= |m.wires|
        invariant execution.dict == Zip(m.wires[..i], trace)
        invariant keys.dict == Zip(m.wires[..i], zeros)
      {
        assert m.wires[..i + 1][..i] == m.wires[..i];
        execution.dict := execution.dict.Set(m.wires[i], value(m.wires[i]) == Some(S1));
        keys.dict := keys.dict.Set(m.wires[i], false);
        i := i + 1;
      }
      assert m.wires[..i] == m.wires;
      ZipContents(m.wires, trace);
      ZipContents(m.wires, zeros);
    }

    /** The state of every output wire, from an evaluator that gives every
        wire one. */
    method OutputStates(value: string -> Option<State>) returns (outs: seq<State>)
      requires Valid() && forall i :: 0 <= i < |m.wires| ==> value(m.wires[i]).Some?
      ensures |outs| == |m.outputs| && forall i :: 0 <= i < |m.outputs| ==> value(m.outputs[i]) == Some(outs[i])
    {
      outs := [];
      var i := 0;
      while i < |m.outputs|
        invariant 0 <= i <= |m.outputs| && |outs| == i
        invariant forall j :: 0 <= j < i ==> value(m.outputs[j]) == Some(outs[j])
      {
        assert m.outputs[i] in m.wires;
        outs := outs + [value(m.outputs[i]).value];
        i := i + 1;
      }
    }

    /** The bit of every connection bit of one port, in order: a wire's
        current value, a constant's own value unless `zeroconst` reads it 0. */
    static method ConnectionBits(values: WireValues, conn: Connection, zeroconst: bool) returns (bits: seq<bool>)
      ensures bits == BitsValue(values.dict, conn.bits, zeroconst)
    {
      bits := [];
      var j := 0;
      while j < |conn.bits|
        invariant 0 <= j <= |conn.bits|
        invariant bits == BitsValue(values.dict, conn.bits[..j], zeroconst)
      {
        var b := conn.bits[j];
        var bit := if zeroconst then false else (b.ConstBit? && StateBit(b.data));
        if b.WireBit? {
          bit := values.dict.Get(b.name);
        }
        bits := bits + [bit];
        j := j + 1;
      }
      assert conn.bits[..j] == conn.bits;
    }

    /** get_gate_ports: the bit of every connection bit, in connection order,
        input ports to `inputs` and the others to `outputs`. */
    method GetGatePorts(values: WireValues, cell: Cell, zeroconst: bool) returns (inputs: seq<bool>, outputs: seq<bool>)
      ensures inputs == PortBits(values.dict, cell.conns, true, zeroconst)
      ensures outputs == PortBits(values.dict, cell.conns, false, zeroconst)
    {
      inputs, outputs := [], [];
      var i := 0;
      while i < |cell.conns|
        invariant 0 <= i <= |cell.conns|
        invariant inputs == PortBits(values.dict, cell.conns[..i], true, zeroconst)
        invariant outputs == PortBits(values.dict, cell.conns[..i], false, zeroconst)
      {
        var conn := cell.conns[i];
        assert cell.conns[..i + 1][..i] == cell.conns[..i];
        var bits := ConnectionBits(values, conn, zeroconst);
        if conn.isInput {
          inputs := inputs + bits;
        } else {
          outputs := outputs + bits;
        }
        i := i + 1;
      }
      assert cell.conns[..i] == cell.conns;
    }

    /** The first loop of create_proof_round: a fresh key bit for every name in
        the execution map, in its order. */
    method DrawRoundKeys(keyBits: seq<bool>)
      requires Valid() && |keyBits| >= |execution.dict.order|
      modifies keys
      ensures Valid()
      ensures keys.dict == DrawKeys(old(keys.dict), execution.dict.order, keyBits)
    {
      var order := execution.dict.order;
      ghost var k0 := keys.dict;
      var i := 0;
      while i < |order|
        invariant 0 <= i <= |order| && execution.dict.order == order
        invariant keys.dict == DrawKeys(k0, order[..i], keyBits)
      {
        assert order[..i + 1][..i] == order[..i];
        keys.dict := keys.dict.Set(order[i], keyBits[i]);
        i := i + 1;
      }
      assert order[..i] == order;
      DrawKeysContents(k0, order, keyBits);
    }

    /** The cell loop of create_proof_round: every cell's canonical table is
        copied, scrambled under the cell's port keys, and its row hashes
        collected, in cell order. */
    method ScrambleAllGates(tables: seq<TableCoins>) returns (hashes: seq<seq<Digest>>)
      requires Valid()
      requires |tables| >= |m.cells| && forall c :: 0 <= c < |m.cells| ==> TableCoinsFit(gatesdef[c], tables[c])
      modifies this
      ensures Valid()
      ensures gates == ScrambleGates(m.cells, gatesdef, keys.dict, tables)
      ensures hashes == CommitmentOf(gates, hash, execution.dict, m.outputs).gateHashes
    {
      WellFormedTablesFit(m, gatesdef, gateFns);
      ghost var want := ScrambleGates(m.cells, gatesdef, keys.dict, tables);
      hashes := [];
      var c := 0;
      while c < |m.cells|
        invariant 0 <= c <= |m.cells| && |gates| == |m.cells| && |hashes| == c
        invariant forall d :: 0 <= d < c ==> gates[d] == want[d]
        invariant forall d :: 0 <= d < c ==> hashes[d] == Hashes(gates[d], hash)
      {
        var t := ScrambleGate(c, tables[c]);
        gates := gates[c := t];
        var hs := TableCommitment(t, hash);
        hashes := hashes + [hs];
        c := c + 1;
      }
    }

    /** One iteration of the cell loop: a copy of cell c's canonical table,
        scrambled in place under the cell's port keys. */
    method ScrambleGate(c: nat, coins: TableCoins) returns (table: Table)
      requires Valid() && c < |m.cells| && TableCoinsFit(gatesdef[c], coins)
      ensures table == ScrambledTable(gatesdef[c], InPorts(keys.dict, m.cells[c]), OutPorts(keys.dict, m.cells[c]), coins)
    {
      WellFormedTablesFit(m, gatesdef, gateFns);
      var cell := m.cells[c];
      var ik, ok := GetGatePorts(keys, cell, false);
      PortBitsWidth(keys.dict, cell.conns, true, false);
      PortBitsWidth(keys.dict, cell.conns, false, false);
      var t := gatesdef[c];
      var a := new Entry[|t|](n requires 0 <= n < |t| => t[n]);
      assert a[..] == t;
      ScrambleTable(a, ik, ok, coins);
      table := a[..];
    }

    /** The output loop of create_proof_round: each output wire's key is set to
        0 and its execution bit becomes a committed output bit. */
    method PinOutputKeys() returns (output: seq<bool>)
      requires Valid()
      modifies keys
      ensures Valid()
      ensures keys.dict == PinOutputs(old(keys.dict), m.outputs)
      ensures output == CommitmentOf(gates, hash, execution.dict, m.outputs).output
    {
      ghost var k0 := keys.dict;
      output := [];
      var i := 0;
      while i < |m.outputs|
        invariant 0 <= i <= |m.outputs| && |output| == i
        invariant keys.dict == PinOutputs(k0, m.outputs[..i])
        invariant forall j :: 0 <= j < i ==> output[j] == execution.dict.Get(m.outputs[j])
      {
        assert m.outputs[..i + 1][..i] == m.outputs[..i];
        keys.dict := keys.dict.Set(m.outputs[i], false);
        output := output + [execution.dict.Get(m.outputs[i])];
        i := i + 1;
      }
      assert m.outputs[..i] == m.outputs;
      PinOutputsContents(k0, m.outputs);
    }

    /** create_proof_round as written: keys are drawn, tables scrambled, and
        only then are the output keys set to 0. */
    method CreateProofRound(coins: RoundCoins) returns (com: Commitment)
      requires Valid() && CoinsFit(gatesdef, coins, |execution.dict.order|)
      modifies this, keys
      ensures Valid() && execution.dict == old(execution.dict)
      ensures var r := RoundAsWritten(m, gatesdef, hash, old(execution.dict), old(keys.dict), coins);
              keys.dict == r.keys && gates == r.gates && com == r.commitment
    {
      DrawRoundKeys(coins.keyBits);
      var hashes := ScrambleAllGates(coins.tables);
      var output := PinOutputKeys();
      com := Commitment(hashes, output);
    }

    /** create_proof_round with the output keys set to 0 before any table is
        scrambled. */
    method CreateProofRoundPinned(coins: RoundCoins) returns (com: Commitment)
      requires Valid() && CoinsFit(gatesdef, coins, |execution.dict.order|)
      modifies this, keys
      ensures Valid() && execution.dict == old(execution.dict)
      ensures var r := RoundPinned(m, gatesdef, hash, old(execution.dict), old(keys.dict), coins);
              keys.dict == r.keys && gates == r.gates && com == r.commitment
    {
      DrawRoundKeys(coins.keyBits);
      var output := PinOutputKeys();
      var hashes := ScrambleAllGates(coins.tables);
      com := Commitment(hashes, output);
    }

    /** reveal_scrambling: every key, by position, and every scrambled table,
        in cell order. */
    method RevealScrambling() returns (scr: ScramblingReveal)
      requires Valid()
      ensures scr == ScramblingReveal(Serialized(keys.dict), gates)
    {
      var ks := keys.Serialize();
      var gs: seq<Table> := [];
      var c := 0;
      while c < |m.cells|
        invariant 0 <= c <= |m.cells| && gs == gates[..c]
      {
        gs := gs + [gates[c]];
        c := c + 1;
      }
      assert gs == gates;
      scr := ScramblingReveal(ks, gs);
    }

    /** The input-matching loop of reveal_execution for one row: true when the
        row's first |x| input bits are x; reading past the row's end aborts. */
    static method MatchRow(e: Entry, x: seq<bool>) returns (r: Result<bool>)
      ensures r.Fatal? <==> ShortPrefix(e, x)
      ensures r.Ok? ==> (r.value <==> Matches(e, x))
    {
      var i := 0;
      while i < |x|
        invariant 0 <= i <= |x| && i <= |e.inputs| + 0
        invariant e.inputs[..i] == x[..i]
      {
        if i >= |e.inputs| {
          assert e.inputs == e.inputs[..i];
          return Fatal("row index out of range");
        }
        if e.inputs[i] != x[i] {
          assert e.inputs[..i + 1] != x[..i + 1] by {
            assert e.inputs[..i + 1][i] != x[..i + 1][i];
          }
          if |e.inputs| < |x| {
            assert x[..|e.inputs|][..i + 1] == x[..i + 1];
            assert e.inputs[..i + 1] == e.inputs[..|e.inputs|][..i + 1];
          } else {
            assert e.inputs[..|x|][..i + 1] == e.inputs[..i + 1];
          }
          return Ok(false);
        }
        assert e.inputs[..i + 1] == e.inputs[..i] + [e.inputs[i]];
        assert x[..i + 1] == x[..i] + [x[i]];
        i := i + 1;
      }
      assert x[..i] == x;
      return Ok(true);
    }

    /** The output check of reveal_execution for a matching row: every one of
        the |y| output bits must agree, or the run aborts. */
    static method CheckOutputs(e: Entry, y: seq<bool>) returns (r: Result<()>)
      ensures r.Ok? <==> OutputsAgree(e, y)
    {
      var i := 0;
      while i < |y|
        invariant 0 <= i <= |y| && i <= |e.outputs|
        invariant e.outputs[..i] == y[..i]
      {
        if i >= |e.outputs| || e.outputs[i] != y[i] {
          if i < |e.outputs| && |e.outputs| >= |y| {
            assert e.outputs[..|y|][i] != y[i];
          }
          return Fatal("truth table does not match computed execution");
        }
        assert e.outputs[..i + 1] == e.outputs[..i] + [e.outputs[i]];
        assert y[..i + 1] == y[..i] + [y[i]];
        i := i + 1;
      }
      assert y[..i] == y;
      return Ok(());
    }

    /** The row loop of reveal_execution for one cell: the one row matching the
        masked inputs x, which must carry the masked outputs y. */
    static method RevealCell(g: Table, x: seq<bool>, y: seq<bool>) returns (r: Result<Entry>)
      ensures r.Ok? <==> CellRevealable(g, x, y)
      ensures r.Ok? ==> r.value in g && Matches(r.value, x) && OutputsAgree(r.value, y)
    {
      var count := 0;
      var found: Entry := Entry([], [], []);
      var n := 0;
      while n < |g|
        invariant 0 <= n <= |g|
        invariant count == MatchCount(g[..n], x)
        invariant forall k :: 0 <= k < n ==> !ShortPrefix(g[k], x)
        invariant forall k :: 0 <= k < n && Matches(g[k], x) ==> OutputsAgree(g[k], y)
        invariant count >= 1 ==> found in g && Matches(found, x) && OutputsAgree(found, y)
      {
        assert g[..n + 1][..n] == g[..n];
        var mr := MatchRow(g[n], x);
        if mr.Fatal? {
          return Fatal(mr.reason);
        }
        if mr.value {
          var oc := CheckOutputs(g[n], y);
          if oc.Fatal? {
            return Fatal(oc.reason);
          }
          found := g[n];
          count := count + 1;
        }
        n := n + 1;
      }
      assert g[..n] == g;
      if count != 1 {
        return Fatal("Truth table contains multiple entries for the same inputs");
      }
      return Ok(found);
    }

    /** The first loop of reveal_execution: each traced bit XOR its key. */
    method MaskTrace() returns (exec: seq<bool>)
      requires Valid()
      ensures exec == MaskedTrace(execution.dict, keys.dict)
    {
      var order := execution.dict.order;
      exec := [];
      var i := 0;
      while i < |order|
        invariant 0 <= i <= |order| && |exec| == i
        invariant forall j :: 0 <= j < i ==> exec[j] == (execution.dict.Get(order[j]) != keys.dict.Get(order[j]))
      {
        exec := exec + [execution.dict.Get(order[i]) != keys.dict.Get(order[i])];
        i := i + 1;
      }
    }

    /** One iteration of the cell loop of reveal_execution. */
    method RevealGate(c: nat) returns (r: Result<Entry>)
      requires Valid() && c < |m.cells|
      ensures r.Ok? <==> CellRevealable(gates[c], MaskedIn(execution.dict, keys.dict, m.cells[c]),
                                        MaskedOut(execution.dict, keys.dict, m.cells[c]))
      ensures r.Ok? ==> RowRevealed(gates[c], MaskedIn(execution.dict, keys.dict, m.cells[c]),
                                    MaskedOut(execution.dict, keys.dict, m.cells[c]), r.value)
    {
      var cell := m.cells[c];
      var iv, ov := GetGatePorts(execution, cell, false);
      var ik, ok := GetGatePorts(keys, cell, false);
      PortBitsWidth(execution.dict, cell.conns, true, false);
      PortBitsWidth(keys.dict, cell.conns, true, false);
      PortBitsWidth(execution.dict, cell.conns, false, false);
      PortBitsWidth(keys.dict, cell.conns, false, false);
      var x := MaskInPlace(iv, ik);
      var y := MaskInPlace(ov, ok);
      r := RevealCell(gates[c], x, y);
    }

    /** reveal_execution: the masked trace, by position, and for each cell the
        one scrambled row its masked ports select. */
    method RevealExecution() returns (r: Result<ExecutionReveal>)
      requires Valid()
      ensures r.Ok? <==> AllRevealable(m, gates, execution.dict, keys.dict)
      ensures r.Ok? ==> r.value.exec == MaskedTrace(execution.dict, keys.dict)
      ensures r.Ok? ==> |r.value.entries| == |m.cells|
      ensures r.Ok? ==> forall c :: 0 <= c < |m.cells| ==>
                RowRevealed(gates[c], MaskedIn(execution.dict, keys.dict, m.cells[c]),
                            MaskedOut(execution.dict, keys.dict, m.cells[c]), r.value.entries[c])
    {
      var exec := MaskTrace();
      ghost var trace, masks := execution.dict, keys.dict;
      var entries: seq<Entry> := [];
      var c := 0;
      while c < |m.cells|
        invariant 0 <= c <= |m.cells| && |entries| == c
        invariant RevealedUpTo(m, gates, trace, masks, entries)
      {
        var e := RevealGate(c);
        if e.Fatal? {
          assert !CellRevealable(gates[c], MaskedIn(trace, masks, m.cells[c]), MaskedOut(trace, masks, m.cells[c]));
          return Fatal(e.reason);
        }
        RevealedUpToStep(m, gates, trace, masks, entries, e.value);
        entries := entries + [e.value];
        c := c + 1;
      }
      RevealedAll(m, gates, trace, masks, entries);
      return Ok(ExecutionReveal(exec, entries));
    }

    // -------------------------------------------------------------------------
    // validate_precommitment(Commitment, ExecutionReveal)

    /** The first loop of the execution validator: revealed row i must hash to
        one of the hashes committed for table i. */
    method CheckEntryHashes(com: Commitment, entries: seq<Entry>) returns (r: Result<()>)
      ensures r.Ok? <==> EntriesCommitted(hash, com, entries)
    {
      var i := 0;
      while i < |com.gateHashes|
        invariant 0 <= i <= |com.gateHashes|
        invariant i <= |entries| || i == 0
        invariant forall k :: 0 <= k < i ==> k < |entries| && hash(entries[k]) in com.gateHashes[k]
      {
        if i >= |entries| {
          return Fatal("revealed entry index out of range");
        }
        var entryhash := hash(entries[i]);
        var found := false;
        var j := 0;
        while j < |com.gateHashes[i]|
          invariant 0 <= j <= |com.gateHashes[i]|
          invariant found <==> entryhash in com.gateHashes[i][..j]
        {
          assert com.gateHashes[i][..j + 1] == com.gateHashes[i][..j] + [com.gateHashes[i][j]];
          if com.gateHashes[i][j] == entryhash {
            found := true;
          }
          j := j + 1;
        }
        assert com.gateHashes[i][..j] == com.gateHashes[i];
        if !found {
          assert hash(entries[i]) !in com.gateHashes[i];
          return Fatal("Found unmatched table entry hash");
        }
        i := i + 1;
      }
      return Ok(());
    }

    /** The output loop of the execution validator: output i of the revealed
        trace must be committed output bit i. */
    method CheckCommittedOutputs(trace: WireValues, com: Commitment) returns (r: Result<()>)
      ensures r.Ok? <==> OutputsCommitted(m, trace.dict, com)
    {
      var i := 0;
      while i < |m.outputs|
        invariant 0 <= i <= |m.outputs|
        invariant i <= |com.output| || i == 0
        invariant forall k :: 0 <= k < i ==> k < |com.output| && trace.dict.Get(m.outputs[k]) == com.output[k]
      {
        if i >= |com.output| || trace.dict.Get(m.outputs[i]) != com.output[i] {
          return Fatal("Output does not match commitment");
        }
        i := i + 1;
      }
      return Ok(());
    }

    /** The cell loop of the execution validator: revealed row c must be cell
        c's ports read from the revealed trace. */
    method CheckGateEntries(trace: WireValues, entries: seq<Entry>) returns (r: Result<()>)
      ensures r.Ok? <==> EntriesArePorts(m, trace.dict, entries)
    {
      var c := 0;
      while c < |m.cells|
        invariant 0 <= c <= |m.cells|
        invariant c <= |entries| || c == 0
        invariant forall d :: 0 <= d < c ==> d < |entries| && EntryIsPorts(trace.dict, m.cells[d], entries[d])
      {
        if c >= |entries| {
          return Fatal("revealed entry index out of range");
        }
        var ins, outs := GetGatePorts(trace, m.cells[c], false);
        var v := VerifyComputation(entries[c], ins, outs);
        if v.Fatal? {
          assert !EntryIsPorts(trace.dict, m.cells[c], entries[c]);
          return Fatal("Size mismatch in truth table entry");
        }
        if !v.value {
          assert !EntryIsPorts(trace.dict, m.cells[c], entries[c]);
          return Fatal("Failed to find corresponding truth table entry");
        }
        c := c + 1;
      }
      return Ok(());
    }

    /** validate_precommitment against an execution reveal: succeeds exactly
        when every check passes, and never answers false. */
    method ValidateExecution(com: Commitment, rev: ExecutionReveal) returns (r: Result<bool>)
      requires Valid()
      ensures r.Ok? <==> ExecValid(m, hash, com, rev)
      ensures r.Ok? ==> r.value
    {
      var hr := CheckEntryHashes(com, rev.entries);
      if hr.Fatal? {
        return Fatal(hr.reason);
      }
      var scrambledexec := new WireValues(m.wires);
      var ok := scrambledexec.Deserialize(rev.exec);
      if !ok {
        return Fatal("execution trace index out of range");
      }
      assert scrambledexec.dict == RevealedTrace(m, rev);
      var orr := CheckCommittedOutputs(scrambledexec, com);
      if orr.Fatal? {
        return Fatal(orr.reason);
      }
      var gr := CheckGateEntries(scrambledexec, rev.entries);
      if gr.Fatal? {
        return Fatal(gr.reason);
      }
      return Ok(true);
    }

    // -------------------------------------------------------------------------
    // validate_precommitment(Commitment, ScramblingReveal)

    /** The first loop of the scrambling validator: each revealed table's row
        hashes must equal the committed ones, position by position, for every
        committed position. */
    method CheckTableHashes(com: Commitment, rev: ScramblingReveal) returns (r: Result<()>)
      ensures r.Ok? <==> HashesAgree(hash, com, rev)
    {
      var i := 0;
      while i < |com.gateHashes|
        invariant 0 <= i <= |com.gateHashes|
        invariant forall k :: 0 <= k < i ==>
                    && k < |rev.gates|
                    && |rev.gates[k]| >= |com.gateHashes[k]|
                    && forall j :: 0 <= j < |com.gateHashes[k]| ==> com.gateHashes[k][j] == hash(rev.gates[k][j])
      {
        if i >= |rev.gates| {
          return Fatal("revealed table index out of range");
        }
        var hs := TableCommitment(rev.gates[i], hash);
        var j := 0;
        while j < |com.gateHashes[i]|
          invariant 0 <= j <= |com.gateHashes[i]| && j <= |hs|
          invariant forall k :: 0 <= k < j ==> com.gateHashes[i][k] == hash(rev.gates[i][k])
        {
          if j >= |hs| {
            return Fatal("table hash index out of range");
          }
          if com.gateHashes[i][j] != hs[j] {
            return Fatal("Hash check failed for truth table");
          }
          j := j + 1;
        }
        i := i + 1;
      }
      return Ok(());
    }

    /** The output loop of the scrambling validator: no output wire may carry a
        key. */
    method CheckOutputKeys() returns (r: Result<()>)
      ensures r.Ok? <==> forall o :: o in m.outputs ==> !keys.dict.Get(o)
    {
      var i := 0;
      while i < |m.outputs|
        invariant 0 <= i <= |m.outputs|
        invariant forall k :: 0 <= k < i ==> !keys.dict.Get(m.outputs[k])
      {
        if keys.dict.Get(m.outputs[i]) {
          return Fatal("Output key was not empty");
        }
        i := i + 1;
      }
      return Ok(());
    }

    /** One iteration of the scrambling validator's cell loop: every row of the
        revealed table must unmask, under cell c's port keys, to a row of the
        cell's canonical table. */
    method CheckGateTable(c: nat, table: Table) returns (r: Result<()>)
      requires Valid() && c < |m.cells|
      ensures r.Ok? ==> forall n :: 0 <= n < |table| ==>
                HasRow(gatesdef[c], Mask(table[n].inputs, InPorts(keys.dict, m.cells[c])),
                       Mask(table[n].outputs, OutPorts(keys.dict, m.cells[c])))
      ensures (forall n :: 0 <= n < |table| ==>
                && |table[n].inputs| == Width(m.cells[c].conns, true)
                && |table[n].outputs| == Width(m.cells[c].conns, false)
                && HasRow(gatesdef[c], Mask(table[n].inputs, InPorts(keys.dict, m.cells[c])),
                          Mask(table[n].outputs, OutPorts(keys.dict, m.cells[c]))))
              ==> r.Ok?
    {
      var cell := m.cells[c];
      var ik, ok := GetGatePorts(keys, cell, false);
      PortBitsWidth(keys.dict, cell.conns, true, false);
      PortBitsWidth(keys.dict, cell.conns, false, false);
      CanonicalAscending(gatesdef[c], Width(cell.conns, true), gateFns[c]);
      var n := 0;
      while n < |table|
        invariant 0 <= n <= |table|
        invariant forall k :: 0 <= k < n ==> HasRow(gatesdef[c], Mask(table[k].inputs, ik), Mask(table[k].outputs, ok))
      {
        var found := ContainsEntry(gatesdef[c], table[n], ik, ok);
        if found.Fatal? || !found.value {
          return Fatal("Failed to find match truth tables");
        }
        n := n + 1;
      }
      return Ok(());
    }

    /** The cell loop of the scrambling validator. */
    method CheckGateTables(gs: seq<Table>) returns (r: Result<()>)
      requires Valid()
      ensures r.Ok? ==> |gs| >= |m.cells|
      ensures r.Ok? ==> forall c, n :: 0 <= c < |m.cells| && 0 <= n < |gs[c]| ==>
                HasRow(gatesdef[c], Mask(gs[c][n].inputs, InPorts(keys.dict, m.cells[c])),
                       Mask(gs[c][n].outputs, OutPorts(keys.dict, m.cells[c])))
      ensures (&& |gs| >= |m.cells|
               && forall c, n :: 0 <= c < |m.cells| && 0 <= n < |gs[c]| ==>
                    && |gs[c][n].inputs| == Width(m.cells[c].conns, true)
                    && |gs[c][n].outputs| == Width(m.cells[c].conns, false)
                    && HasRow(gatesdef[c], Mask(gs[c][n].inputs, InPorts(keys.dict, m.cells[c])),
                              Mask(gs[c][n].outputs, OutPorts(keys.dict, m.cells[c]))))
              ==> r.Ok?
    {
      var c := 0;
      while c < |m.cells|
        invariant 0 <= c <= |m.cells|
        invariant c > 0 ==> |gs| >= c
        invariant forall d, n :: 0 <= d < c && 0 <= n < |gs[d]| ==>
                    HasRow(gatesdef[d], Mask(gs[d][n].inputs, InPorts(keys.dict, m.cells[d])),
                           Mask(gs[d][n].outputs, OutPorts(keys.dict, m.cells[d])))
      {
        if c >= |gs| {
          return Fatal("revealed table index out of range");
        }
        var t := CheckGateTable(c, gs[c]);
        if t.Fatal? {
          return Fatal(t.reason);
        }
        c := c + 1;
      }
      return Ok(());
    }

    /** validate_precommitment against a scrambling reveal. It overwrites the
        key map with the revealed keys once the hashes have been checked. */
    method ValidateScrambling(com: Commitment, rev: ScramblingReveal) returns (r: Result<bool>)
      requires Valid()
      modifies keys
      ensures Valid()
      ensures r.Ok? <==> ScrSound(m, gatesdef, hash, com, rev)
      ensures r.Ok? ==> r.value
      ensures HashesAgree(hash, com, rev) && |rev.keys| >= |m.wires| ==> keys.dict == Zip(m.wires, rev.keys)
      ensures !(HashesAgree(hash, com, rev) && |rev.keys| >= |m.wires|) ==> keys.dict == old(keys.dict)
    {
      if ScrSound(m, gatesdef, hash, com, rev) {
        SoundIsHonest(m, gatesdef, gateFns, hash, com, rev);
      }
      var hr := CheckTableHashes(com, rev);
      if hr.Fatal? {
        return Fatal(hr.reason);
      }
      var ok := keys.Deserialize(rev.keys);
      if !ok {
        return Fatal("key index out of range");
      }
      var kr := CheckOutputKeys();
      if kr.Fatal? {
        return Fatal(kr.reason);
      }
      var gr := CheckGateTables(rev.gates);
      if gr.Fatal? {
        return Fatal(gr.reason);
      }
      return Ok(true);
    }

    /** The execution validator with the missing check that the commitment has
        one table per cell. */
    method ValidateExecutionStrict(com: Commitment, rev: ExecutionReveal) returns (r: Result<bool>)
      requires Valid()
      ensures r.Ok? <==> |com.gateHashes| == |m.cells| && ExecValid(m, hash, com, rev)
      ensures r.Ok? ==> r.value
    {
      if |com.gateHashes| != |m.cells| {
        return Fatal("commitment does not have one table per cell");
      }
      r := ValidateExecution(com, rev);
    }

    /** The scrambling validator with the same table-count check. */
    method ValidateScramblingStrict(com: Commitment, rev: ScramblingReveal) returns (r: Result<bool>)
      requires Valid()
      modifies keys
      ensures Valid()
      ensures r.Ok? <==> |com.gateHashes| == |m.cells| && ScrSound(m, gatesdef, hash, com, rev)
      ensures r.Ok? ==> r.value
    {
      if |com.gateHashes| != |m.cells| {
        return Fatal("commitment does not have one table per cell");
      }
      r := ValidateScrambling(com, rev);
    }
  }
}

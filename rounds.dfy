/** The values one proof round of the garbling engine (ScrambledCircuit.cc)
    computes, as functions of the module, the canonical tables, the two wire
    maps and the round's randomness; and the conditions under which each
    reveal and each validation succeeds. */
module Rounds {
  import opened Outcomes
  import opened Bits
  import opened Messages
  import opened TruthTables
  import opened WireMaps
  import opened Netlist

  /** All randomness one round consumes: one key bit per traced wire (in the
      execution map's order) and each cell's table coins, in cell order. */
  datatype RoundCoins = RoundCoins(keyBits: seq<bool>, tables: seq<TableCoins>)

  /** The state a round leaves behind: the key map, the scrambled table of each
      cell (in cell order) and the commitment sent to the verifier. */
  datatype Round = Round(keys: WireMap, gates: seq<Table>, commitment: Commitment)

  // ---------------------------------------------------------------------------
  // The module and its canonical tables

  function InPorts(values: WireMap, c: Cell): seq<bool>
  {
    PortBits(values, c.conns, true, false)
  }

  function OutPorts(values: WireMap, c: Cell): seq<bool>
  {
    PortBits(values, c.conns, false, false)
  }

  /** The gate maps every input vector of width wi to an output vector of width wo. */
  ghost predicate GateWidth(gate: seq<bool> -> seq<bool>, wi: nat, wo: nat)
  {
    forall x :: |x| == wi ==> |gate(x)| == wo
  }

  /** The module's wires are distinct, its outputs are wires, and each cell has
      a gate function of its port widths whose canonical table is gatesdef[c]. */
  ghost predicate WellFormed(m: Module, gatesdef: seq<Table>, gateFns: seq<seq<bool> -> seq<bool>>)
  {
    && Distinct(m.wires)
    && (forall o :: o in m.outputs ==> o in m.wires)
    && |gatesdef| == |m.cells| && |gateFns| == |m.cells|
    && (forall c :: 0 <= c < |m.cells| ==>
          && CanonicalFor(gatesdef[c], Width(m.cells[c].conns, true), gateFns[c])
          && GateWidth(gateFns[c], Width(m.cells[c].conns, true), Width(m.cells[c].conns, false)))
  }

  /** Every row of every canonical table has the widths of its cell's ports. */
  ghost predicate TablesFit(m: Module, gatesdef: seq<Table>)
  {
    |gatesdef| == |m.cells| &&
    forall c, n :: 0 <= c < |m.cells| && 0 <= n < |gatesdef[c]| ==>
      |gatesdef[c][n].inputs| == Width(m.cells[c].conns, true) &&
      |gatesdef[c][n].outputs| == Width(m.cells[c].conns, false)
  }

  /** A trace satisfies the circuit when every cell's outputs are its gate
      applied to its inputs. */
  ghost predicate Satisfies(m: Module, gateFns: seq<seq<bool> -> seq<bool>>, trace: WireMap)
    requires |gateFns| == |m.cells|
  {
    forall c :: 0 <= c < |m.cells| ==> OutPorts(trace, m.cells[c]) == gateFns[c](InPorts(trace, m.cells[c]))
  }

  // ---------------------------------------------------------------------------
  // create_proof_round

  /** The coins cover one table scramble: a nonce of NONCE_SIZE bytes per row
      and a valid Fisher-Yates pick per position. */
  ghost predicate TableCoinsFit(t: Table, tc: TableCoins)
  {
    && |tc.nonces| >= |t|
    && (forall n :: 0 <= n < |t| ==> |tc.nonces[n]| == NONCE_SIZE)
    && ValidPicks(tc.picks, |t|)
  }

  ghost predicate CoinsFit(gatesdef: seq<Table>, coins: RoundCoins, traced: nat)
  {
    && |coins.keyBits| >= traced
    && |coins.tables| >= |gatesdef|
    && forall c :: 0 <= c < |gatesdef| ==> TableCoinsFit(gatesdef[c], coins.tables[c])
  }

  /** Key bit i drawn for the i-th name of `order`. */
  function DrawKeys(keys: WireMap, order: seq<string>, bits: seq<bool>): WireMap
    requires |bits| >= |order|
  {
    if order == [] then keys
    else DrawKeys(keys, order[..|order| - 1], bits).Set(order[|order| - 1], bits[|order| - 1])
  }

  /** The key of every output wire set to 0. */
  function PinOutputs(keys: WireMap, outputs: seq<string>): WireMap
  {
    if outputs == [] then keys
    else PinOutputs(keys, outputs[..|outputs| - 1]).Set(outputs[|outputs| - 1], false)
  }

  /** Each cell's canonical table scrambled under the cell's port keys. */
  function ScrambleGates(cells: seq<Cell>, gatesdef: seq<Table>, keys: WireMap, tables: seq<TableCoins>): (r: seq<Table>)
    requires |gatesdef| == |cells| && |tables| >= |cells|
    requires forall c :: 0 <= c < |cells| ==> TableCoinsFit(gatesdef[c], tables[c])
    ensures |r| == |cells|
  {
    seq(|cells|, c requires 0 <= c < |cells| =>
      assert TableCoinsFit(gatesdef[c], tables[c]);
      ScrambledTable(gatesdef[c], InPorts(keys, cells[c]), OutPorts(keys, cells[c]), tables[c]))
  }

  /** The commitment: each table's row hashes, and each output wire's bit. */
  function CommitmentOf(gates: seq<Table>, hash: Entry -> Digest, exec: WireMap, outputs: seq<string>): (r: Commitment)
    ensures |r.gateHashes| == |gates| && |r.output| == |outputs|
  {
    Commitment(seq(|gates|, c requires 0 <= c < |gates| => Hashes(gates[c], hash)),
               seq(|outputs|, i requires 0 <= i < |outputs| => exec.Get(outputs[i])))
  }

  /** create_proof_round as written: keys are drawn, the tables are scrambled
      under them, and only then are the output keys set to 0. */
  function RoundAsWritten(m: Module, gatesdef: seq<Table>, hash: Entry -> Digest, exec: WireMap, keys: WireMap,
                          coins: RoundCoins): Round
    requires |gatesdef| == |m.cells| && CoinsFit(gatesdef, coins, |exec.order|)
  {
    var drawn := DrawKeys(keys, exec.order, coins.keyBits);
    var gates := ScrambleGates(m.cells, gatesdef, drawn, coins.tables);
    Round(PinOutputs(drawn, m.outputs), gates, CommitmentOf(gates, hash, exec, m.outputs))
  }

  /** The round with the output keys set to 0 before the tables are scrambled. */
  function RoundPinned(m: Module, gatesdef: seq<Table>, hash: Entry -> Digest, exec: WireMap, keys: WireMap,
                       coins: RoundCoins): Round
    requires |gatesdef| == |m.cells| && CoinsFit(gatesdef, coins, |exec.order|)
  {
    var pinned := PinOutputs(DrawKeys(keys, exec.order, coins.keyBits), m.outputs);
    var gates := ScrambleGates(m.cells, gatesdef, pinned, coins.tables);
    Round(pinned, gates, CommitmentOf(gates, hash, exec, m.outputs))
  }

  // ---------------------------------------------------------------------------
  // reveal_execution

  /** A row shorter than x whose bits all agree with x: the matching loop reads
      past its end. */
  ghost predicate ShortPrefix(e: Entry, x: seq<bool>)
  {
    |e.inputs| < |x| && e.inputs == x[..|e.inputs|]
  }

  /** The row's first |y| output bits are y. */
  ghost predicate OutputsAgree(e: Entry, y: seq<bool>)
  {
    |e.outputs| >= |y| && e.outputs[..|y|] == y
  }

  /** A cell whose scrambled table reveal_execution can open at masked inputs x
      and masked outputs y: no row is read past its end, exactly one row
      matches x, and a matching row carries y. */
  ghost predicate CellRevealable(g: Table, x: seq<bool>, y: seq<bool>)
  {
    && (forall n :: 0 <= n < |g| ==> !ShortPrefix(g[n], x))
    && MatchCount(g, x) == 1
    && (forall n :: 0 <= n < |g| && Matches(g[n], x) ==> OutputsAgree(g[n], y))
  }

  /** Each traced wire's bit XOR its key, in the execution map's order. */
  function MaskedTrace(exec: WireMap, keys: WireMap): (r: seq<bool>)
    ensures |r| == |exec.order|
  {
    seq(|exec.order|, i requires 0 <= i < |exec.order| => exec.Get(exec.order[i]) != keys.Get(exec.order[i]))
  }

  /** The row is one of the table's, matches the masked inputs and carries
      the masked outputs: what reveal_gate returns. */
  ghost predicate RowRevealed(g: Table, x: seq<bool>, y: seq<bool>, e: Entry)
  {
    e in g && Matches(e, x) && OutputsAgree(e, y)
  }

  /** The masked input and output ports of cell c. */
  function MaskedIn(exec: WireMap, keys: WireMap, c: Cell): seq<bool>
  {
    Mask(InPorts(exec, c), InPorts(keys, c))
  }

  function MaskedOut(exec: WireMap, keys: WireMap, c: Cell): seq<bool>
  {
    Mask(OutPorts(exec, c), OutPorts(keys, c))
  }

  ghost predicate AllRevealable(m: Module, gates: seq<Table>, exec: WireMap, keys: WireMap)
    requires |gates| == |m.cells|
  {
    forall c :: 0 <= c < |m.cells| ==>
      CellRevealable(gates[c], MaskedIn(exec, keys, m.cells[c]), MaskedOut(exec, keys, m.cells[c]))
  }

  // ---------------------------------------------------------------------------
  // validate_precommitment

  /** The validator's view of the revealed trace. */
  function RevealedTrace(m: Module, rev: ExecutionReveal): WireMap
    requires |rev.exec| >= |m.wires|
  {
    Zip(m.wires, rev.exec)
  }

  /** Each revealed row i hashes to one of the hashes committed for table i. */
  ghost predicate EntriesCommitted(hash: Entry -> Digest, com: Commitment, entries: seq<Entry>)
  {
    |entries| >= |com.gateHashes| && forall i :: 0 <= i < |com.gateHashes| ==> hash(entries[i]) in com.gateHashes[i]
  }

  /** Each output wire of the trace carries the committed output bit. */
  ghost predicate OutputsCommitted(m: Module, trace: WireMap, com: Commitment)
  {
    |com.output| >= |m.outputs| && forall i :: 0 <= i < |m.outputs| ==> trace.Get(m.outputs[i]) == com.output[i]
  }

  /** The row is the cell's ports read from the trace. */
  ghost predicate EntryIsPorts(trace: WireMap, cell: Cell, e: Entry)
  {
    e.inputs == InPorts(trace, cell) && e.outputs == OutPorts(trace, cell)
  }

  /** There is a row per cell, and row c is cell c's ports read from the trace. */
  ghost predicate EntriesArePorts(m: Module, trace: WireMap, entries: seq<Entry>)
  {
    |entries| >= |m.cells| && forall c :: 0 <= c < |m.cells| ==> EntryIsPorts(trace, m.cells[c], entries[c])
  }

  /** Every check of the execution validator passes: each revealed row hashes
      into its committed table, each output of the revealed trace is the
      committed output bit, and each revealed row is the cell's ports read
      from the revealed trace. */
  ghost predicate ExecValid(m: Module, hash: Entry -> Digest, com: Commitment, rev: ExecutionReveal)
  {
    && EntriesCommitted(hash, com, rev.entries)
    && |rev.exec| >= |m.wires|
    && OutputsCommitted(m, RevealedTrace(m, rev), com)
    && EntriesArePorts(m, RevealedTrace(m, rev), rev.entries)
  }

  /** For every committed table i, the revealed table i exists and the first
      |com.gateHashes[i]| of its row hashes are the committed ones. */
  ghost predicate HashesAgree(hash: Entry -> Digest, com: Commitment, rev: ScramblingReveal)
  {
    forall i :: 0 <= i < |com.gateHashes| ==>
      && i < |rev.gates|
      && |rev.gates[i]| >= |com.gateHashes[i]|
      && forall j :: 0 <= j < |com.gateHashes[i]| ==> com.gateHashes[i][j] == hash(rev.gates[i][j])
  }

  /** The revealed keys cover the wires and every output wire's key is 0. */
  ghost predicate KeysAcceptable(m: Module, rev: ScramblingReveal)
  {
    |rev.keys| >= |m.wires| && forall o :: o in m.outputs ==> !Zip(m.wires, rev.keys).Get(o)
  }

  /** What a successful scrambling validation establishes: the hashes agree,
      the keys are acceptable, and every revealed row unmasks to a row of its
      cell's canonical table. */
  ghost predicate ScrSound(m: Module, gatesdef: seq<Table>, hash: Entry -> Digest, com: Commitment, rev: ScramblingReveal)
    requires |gatesdef| == |m.cells|
  {
    && HashesAgree(hash, com, rev)
    && KeysAcceptable(m, rev)
    && |rev.gates| >= |m.cells|
    && forall c, n :: 0 <= c < |m.cells| && 0 <= n < |rev.gates[c]| ==>
         var k := Zip(m.wires, rev.keys);
         HasRow(gatesdef[c], Mask(rev.gates[c][n].inputs, InPorts(k, m.cells[c])),
                Mask(rev.gates[c][n].outputs, OutPorts(k, m.cells[c])))
  }

  /** A scrambling reveal the validator accepts: ScrSound, with every revealed
      row exactly as wide as its cell's ports. */
  ghost predicate ScrHonest(m: Module, gatesdef: seq<Table>, hash: Entry -> Digest, com: Commitment, rev: ScramblingReveal)
    requires |gatesdef| == |m.cells|
  {
    && ScrSound(m, gatesdef, hash, com, rev)
    && forall c, n :: 0 <= c < |m.cells| && 0 <= n < |rev.gates[c]| ==>
         |rev.gates[c][n].inputs| == Width(m.cells[c].conns, true) &&
         |rev.gates[c][n].outputs| == Width(m.cells[c].conns, false)
  }

  // ---------------------------------------------------------------------------
  // Properties of the key updates

  /** Drawing keys keeps a map valid, gives the i-th name of a distinct order
      the i-th bit, leaves other names alone, and keeps the key order when every
      name is already a key. */
  lemma DrawKeysContents(keys: WireMap, order: seq<string>, bits: seq<bool>)
    requires keys.Valid() && |bits| >= |order|
    ensures DrawKeys(keys, order, bits).Valid()
    ensures Distinct(order) ==> forall i :: 0 <= i < |order| ==> DrawKeys(keys, order, bits).Get(order[i]) == bits[i]
    ensures forall w :: w !in order ==> DrawKeys(keys, order, bits).Get(w) == keys.Get(w)
    ensures (forall w :: w in order ==> w in keys.order) ==> DrawKeys(keys, order, bits).order == keys.order
  {
    DrawKeysFrame(keys, order, bits);
    if Distinct(order) {
      forall i | 0 <= i < |order|
        ensures DrawKeys(keys, order, bits).Get(order[i]) == bits[i]
      {
        DrawKeysGet(keys, order, bits, i);
      }
    }
  }

  /** Drawing keeps the map valid, leaves every other wire's key alone and
      adds no wire the map already had in its order. */
  lemma {:induction false} DrawKeysFrame(keys: WireMap, order: seq<string>, bits: seq<bool>)
    requires keys.Valid() && |bits| >= |order|
    ensures DrawKeys(keys, order, bits).Valid()
    ensures forall w :: w !in order ==> DrawKeys(keys, order, bits).Get(w) == keys.Get(w)
    ensures (forall w :: w in order ==> w in keys.order) ==> DrawKeys(keys, order, bits).order == keys.order
  {
    if order != [] {
      var n := |order|;
      var init := order[..n - 1];
      DrawKeysFrame(keys, init, bits);
      SetStores(DrawKeys(keys, init, bits), order[n - 1], bits[n - 1]);
      assert order == init + [order[n - 1]];
    }
  }

  /** With distinct wires, wire i is keyed by bit i. */
  lemma {:induction false} DrawKeysGet(keys: WireMap, order: seq<string>, bits: seq<bool>, i: nat)
    requires keys.Valid() && |bits| >= |order| && Distinct(order) && i < |order|
    ensures DrawKeys(keys, order, bits).Get(order[i]) == bits[i]
  {
    var n := |order|;
    var init := order[..n - 1];
    var w := order[n - 1];
    DrawKeysFrame(keys, init, bits);
    SetStores(DrawKeys(keys, init, bits), w, bits[n - 1]);
    if i < n - 1 {
      assert Distinct(init);
      assert order[i] == init[i] && order[i] != w;
      DrawKeysGet(keys, init, bits, i);
    }
  }

  /** Pinning keeps a map valid, sets every output's key to 0, leaves every
      other key alone, and keeps the key order when the outputs are keys. */
  lemma {:induction false} PinOutputsContents(keys: WireMap, outputs: seq<string>)
    requires keys.Valid()
    ensures PinOutputs(keys, outputs).Valid()
    ensures forall o :: o in outputs ==> !PinOutputs(keys, outputs).Get(o)
    ensures forall w :: w !in outputs ==> PinOutputs(keys, outputs).Get(w) == keys.Get(w)
    ensures (forall o :: o in outputs ==> o in keys.order) ==> PinOutputs(keys, outputs).order == keys.order
  {
    if outputs != [] {
      var n := |outputs|;
      var init := outputs[..n - 1];
      var o := outputs[n - 1];
      PinOutputsContents(keys, init);
      var pinned := PinOutputs(keys, init);
      SetStores(pinned, o, false);
      assert outputs == init + [o];
      assert forall v :: v in outputs <==> v in init || v == o;
      if forall v :: v in outputs ==> v in keys.order {
        assert pinned.order == keys.order;
        assert o in pinned.order;
      }
    }
  }

  /** Canonical tables fit their cells. */
  lemma WellFormedTablesFit(m: Module, gatesdef: seq<Table>, gateFns: seq<seq<bool> -> seq<bool>>)
    requires WellFormed(m, gatesdef, gateFns)
    ensures TablesFit(m, gatesdef)
  {
    forall c, n | 0 <= c < |m.cells| && 0 <= n < |gatesdef[c]|
      ensures |gatesdef[c][n].inputs| == Width(m.cells[c].conns, true)
      ensures |gatesdef[c][n].outputs| == Width(m.cells[c].conns, false)
    {
      var k := Width(m.cells[c].conns, true);
      assert gatesdef[c][n] == Entry(NatToBits(n, k), gateFns[c](NatToBits(n, k)), []);
    }
  }

  /** The validator's widths come for free: masking keeps a vector's length,
      so a revealed row that unmasks to a canonical row is exactly as wide as
      its cell's ports, and a sound scrambling reveal is an honest one. */
  lemma SoundIsHonest(m: Module, gatesdef: seq<Table>, gateFns: seq<seq<bool> -> seq<bool>>,
                      hash: Entry -> Digest, com: Commitment, rev: ScramblingReveal)
    requires WellFormed(m, gatesdef, gateFns)
    requires ScrSound(m, gatesdef, hash, com, rev)
    ensures ScrHonest(m, gatesdef, hash, com, rev)
  {
    WellFormedTablesFit(m, gatesdef, gateFns);
    var k := Zip(m.wires, rev.keys);
    forall c, n | 0 <= c < |m.cells| && 0 <= n < |rev.gates[c]|
      ensures |rev.gates[c][n].inputs| == Width(m.cells[c].conns, true)
      ensures |rev.gates[c][n].outputs| == Width(m.cells[c].conns, false)
    {
      var e := rev.gates[c][n];
      var x := Mask(e.inputs, InPorts(k, m.cells[c]));
      var y := Mask(e.outputs, OutPorts(k, m.cells[c]));
      assert HasRow(gatesdef[c], x, y);
      var p :| 0 <= p < |gatesdef[c]| && gatesdef[c][p].inputs == x && gatesdef[c][p].outputs == y;
    }
  }
}

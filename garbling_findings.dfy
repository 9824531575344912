/** Concrete circuits on which the garbling engine as written falls short:
    an honest round that cannot be revealed, and a commitment without tables
    that both validators accept for an output no trace produces. */
module GarblingFindings {
  import opened Bits
  import opened Messages
  import opened TruthTables
  import opened WireMaps
  import opened Netlist
  import opened Rounds

  /** A module with input wire a, output wire y and one cell from a to y. */
  function OneCell(name: string): Module
  {
    Module(["a", "y"], ["y"], [Cell(name, [Connection("A", true, [WireBit("a")]), Connection("Y", false, [WireBit("y")])])])
  }

  /** The one cell reads wire a and drives wire y. */
  lemma OneCellPorts(name: string, values: WireMap)
    ensures InPorts(values, OneCell(name).cells[0]) == [values.Get("a")]
    ensures OutPorts(values, OneCell(name).cells[0]) == [values.Get("y")]
    ensures Width(OneCell(name).cells[0].conns, true) == 1 && Width(OneCell(name).cells[0].conns, false) == 1
  {
    var conns := OneCell(name).cells[0].conns;
    var first := conns[..1];
    assert first == [conns[0]] && first[..0] == [];
    assert BitsValue(values, conns[0].bits, false) == [values.Get("a")];
    assert BitsValue(values, conns[1].bits, false) == [values.Get("y")];
    assert PortBits(values, first, true, false) == [values.Get("a")];
    assert PortBits(values, first, false, false) == [];
    assert PortBits(values, conns, true, false) == PortBits(values, first, true, false);
    assert PortBits(values, conns, false, false) == PortBits(values, first, false, false) + [values.Get("y")];
  }

  function Identity(x: seq<bool>): seq<bool>
  {
    x
  }

  function ConstZero(x: seq<bool>): seq<bool>
  {
    [false]
  }

  const Nonce: seq<bv8> := seq(NONCE_SIZE, _ => 0)

  /** The trace with both wires 0, keyed in wire order; also the zero keys. */
  const ZeroTrace: WireMap := WireMap(["a", "y"], map["a" := false, "y" := false])

  const BufferTable: Table := [Entry([false], [false], []), Entry([true], [true], [])]

  /** Key 0 for a, key 1 for y, and the identity shuffle. */
  const BufferCoins: RoundCoins := RoundCoins([false, true], [TableCoins([Nonce, Nonce], [0, 1])])

  /** The buffer is well formed, the zero trace satisfies it, and the coins fit. */
  lemma BufferSetup()
    ensures WellFormed(OneCell("buf"), [BufferTable], [Identity])
    ensures Satisfies(OneCell("buf"), [Identity], ZeroTrace)
    ensures CoinsFit([BufferTable], BufferCoins, |ZeroTrace.order|)
  {
    BufferCanonical();
    OneCellPorts("buf", ZeroTrace);
    assert |Nonce| == NONCE_SIZE;
    assert TableCoinsFit(BufferTable, BufferCoins.tables[0]);
  }

  /** The buffer's table is the canonical one-input table of the identity. */
  lemma BufferCanonical()
    ensures CanonicalFor(BufferTable, 1, Identity) && GateWidth(Identity, 1, 1)
  {
    assert NatToBits(0, 1) == [false] && NatToBits(1, 1) == [true];
  }

  /** Scrambling the buffer's table under input key 0 and output key 1 with
      the identity shuffle flips its output column. */
  lemma BufferScrambled()
    ensures ScrambledTable(BufferTable, [false], [true], BufferCoins.tables[0])
         == [Entry([false], [true], Nonce), Entry([true], [false], Nonce)]
  {
    var masked := MaskRows(BufferTable, [false], [true], [Nonce, Nonce]);
    assert Mask([false], [false]) == [false] && Mask([false], [true]) == [true];
    assert Mask([true], [false]) == [true] && Mask([true], [true]) == [false];
    assert masked == [Entry([false], [true], Nonce), Entry([true], [false], Nonce)];
    assert Swap(masked, 0, 0) == masked && Swap(masked, 1, 1) == masked;
    assert ShuffleFrom(masked, [0, 1], 2) == masked;
    assert ShuffleFrom(masked, [0, 1], 1) == masked;
  }

  /** The round as written on the buffer: keys a = 0 and y = 1 while the table
      is scrambled, then y's key pinned to 0. */
  lemma BufferRoundAsWritten(hash: Entry -> Digest)
    requires CoinsFit([BufferTable], BufferCoins, |ZeroTrace.order|)
    ensures var r := RoundAsWritten(OneCell("buf"), [BufferTable], hash, ZeroTrace, ZeroTrace, BufferCoins);
            && r.gates == [[Entry([false], [true], Nonce), Entry([true], [false], Nonce)]]
            && r.keys == ZeroTrace
  {
    var m := OneCell("buf");
    var r := RoundAsWritten(m, [BufferTable], hash, ZeroTrace, ZeroTrace, BufferCoins);
    assert ["a", "y"][..1] == ["a"] && ["a"][..0] == [];
    var drawn := DrawKeys(ZeroTrace, ZeroTrace.order, BufferCoins.keyBits);
    assert drawn == WireMap(["a", "y"], map["a" := false, "y" := true]);
    OneCellPorts("buf", drawn);
    BufferScrambled();
    assert ["y"][..0] == [];
    assert PinOutputs(drawn, ["y"]) == drawn.Set("y", false);
  }

  /** The buffer y = a run on a = 0 with the coins above: the round as written
      scrambles y's output column under key 1 and then reveals y under key 0,
      so the one row at the masked inputs carries the wrong masked output and
      reveal_execution aborts on an honest prover. */
  lemma BufferRoundAsWrittenCannotReveal(hash: Entry -> Digest)
    ensures WellFormed(OneCell("buf"), [BufferTable], [Identity])
    ensures Satisfies(OneCell("buf"), [Identity], ZeroTrace)
    ensures CoinsFit([BufferTable], BufferCoins, |ZeroTrace.order|)
    ensures var r := RoundAsWritten(OneCell("buf"), [BufferTable], hash, ZeroTrace, ZeroTrace, BufferCoins);
            !AllRevealable(OneCell("buf"), r.gates, ZeroTrace, r.keys)
  {
    BufferSetup();
    BufferRoundAsWritten(hash);
    var m := OneCell("buf");
    var r := RoundAsWritten(m, [BufferTable], hash, ZeroTrace, ZeroTrace, BufferCoins);
    OneCellPorts("buf", ZeroTrace);
    var g := r.gates[0];
    assert Mask([false], [false]) == [false];
    assert MaskedIn(ZeroTrace, r.keys, m.cells[0]) == [false];
    assert MaskedOut(ZeroTrace, r.keys, m.cells[0]) == [false];
    assert Matches(g[0], [false]) && !OutputsAgree(g[0], [false]);
  }

  // ---------------------------------------------------------------------------
  // A commitment without tables

  /** The constant-0 gate's canonical table: both rows output 0. */
  const ZeroTable: Table := [Entry([false], [false], []), Entry([true], [false], [])]

  /** A commitment with no gate hashes that claims output y = 1. */
  const EmptyCommitment: Commitment := Commitment([], [true])

  /** The trace a = 0, y = 1 and a row carrying the claimed output. */
  const ForgedExecution: ExecutionReveal := ExecutionReveal([false, true], [Entry([false], [true], [])])

  /** Zero keys and the canonical tables. */
  const ForgedScrambling: ScramblingReveal := ScramblingReveal([false, false], [ZeroTable])

  /** The constant-0 table is the canonical one-input table of ConstZero. */
  lemma ZeroCanonical()
    ensures CanonicalFor(ZeroTable, 1, ConstZero) && GateWidth(ConstZero, 1, 1)
  {
    assert NatToBits(0, 1) == [false] && NatToBits(1, 1) == [true];
  }

  /** The constant-0 cell with its canonical table is well formed, and no trace
      that satisfies it has y = 1. */
  lemma ZeroCellNeverOutputsOne()
    ensures WellFormed(OneCell("zero"), [ZeroTable], [ConstZero])
    ensures forall t :: Satisfies(OneCell("zero"), [ConstZero], t) ==> !t.Get("y")
  {
    ZeroCanonical();
    OneCellPorts("zero", ZeroTrace);
    forall t | Satisfies(OneCell("zero"), [ConstZero], t)
      ensures !t.Get("y")
    {
      OneCellPorts("zero", t);
      assert OutPorts(t, OneCell("zero").cells[0]) == [false];
    }
  }

  /** The forged execution reveal passes every execution check. */
  lemma ForgedExecutionValid(hash: Entry -> Digest)
    ensures ExecValid(OneCell("zero"), hash, EmptyCommitment, ForgedExecution)
  {
    var m := OneCell("zero");
    var trace := RevealedTrace(m, ForgedExecution);
    assert ["a", "y"][..1] == ["a"] && ["a"][..0] == [];
    assert trace == WireMap(["a", "y"], map["a" := false, "y" := true]);
    OneCellPorts("zero", trace);
    assert EntriesArePorts(m, trace, ForgedExecution.entries);
    assert OutputsCommitted(m, trace, EmptyCommitment);
  }

  /** Unmasked by zero keys, each row of the constant-0 table is itself. */
  lemma ZeroTableUnmasked(n: nat)
    requires n < |ZeroTable|
    ensures HasRow(ZeroTable, Mask(ZeroTable[n].inputs, [false]), Mask(ZeroTable[n].outputs, [false]))
    ensures |ZeroTable[n].inputs| == 1 && |ZeroTable[n].outputs| == 1
  {
    var e := ZeroTable[n];
    assert Mask(e.inputs, [false]) == e.inputs && Mask(e.outputs, [false]) == e.outputs;
  }

  /** The forged keys are the zero keys: every key, output y's included, is 0. */
  lemma ForgedKeysZero()
    ensures Zip(OneCell("zero").wires, ForgedScrambling.keys) == ZeroTrace
    ensures KeysAcceptable(OneCell("zero"), ForgedScrambling)
  {
    var ks := ForgedScrambling.keys;
    assert ["a", "y"][..1] == ["a"] && ["a"][..0] == [];
    var first := Zip(["a"], ks);
    assert first == Empty.Set("a", false) == WireMap(["a"], map["a" := false]);
    assert Zip(["a", "y"], ks) == first.Set("y", false);
  }

  /** Under zero keys every forged row unmasks to a row of the constant-0
      table, and has the cell's widths. */
  lemma ForgedRowsUnmask()
    ensures var m := OneCell("zero");
            forall c, n :: 0 <= c < |m.cells| && 0 <= n < |ForgedScrambling.gates[c]| ==>
              && HasRow([ZeroTable][c], Mask(ForgedScrambling.gates[c][n].inputs, InPorts(ZeroTrace, m.cells[c])),
                        Mask(ForgedScrambling.gates[c][n].outputs, OutPorts(ZeroTrace, m.cells[c])))
              && |ForgedScrambling.gates[c][n].inputs| == Width(m.cells[c].conns, true)
              && |ForgedScrambling.gates[c][n].outputs| == Width(m.cells[c].conns, false)
  {
    var m := OneCell("zero");
    OneCellPorts("zero", ZeroTrace);
    forall c, n | 0 <= c < |m.cells| && 0 <= n < |ForgedScrambling.gates[c]|
      ensures HasRow([ZeroTable][c], Mask(ForgedScrambling.gates[c][n].inputs, InPorts(ZeroTrace, m.cells[c])),
                     Mask(ForgedScrambling.gates[c][n].outputs, OutPorts(ZeroTrace, m.cells[c])))
      ensures |ForgedScrambling.gates[c][n].inputs| == Width(m.cells[c].conns, true)
      ensures |ForgedScrambling.gates[c][n].outputs| == Width(m.cells[c].conns, false)
    {
      assert c == 0 && ForgedScrambling.gates[c] == ZeroTable;
      ZeroTableUnmasked(n);
    }
  }

  /** The forged scrambling reveal passes every scrambling check. */
  lemma ForgedScramblingHonest(hash: Entry -> Digest)
    ensures ScrHonest(OneCell("zero"), [ZeroTable], hash, EmptyCommitment, ForgedScrambling)
  {
    ForgedKeysZero();
    ForgedRowsUnmask();
    assert HashesAgree(hash, EmptyCommitment, ForgedScrambling);
  }

  /** Because neither validator compares the number of committed tables with
      the number of cells, a commitment with no tables passes both challenges
      for the output y = 1, which the constant-0 circuit never produces. */
  lemma EmptyCommitmentPassesBothValidators(hash: Entry -> Digest)
    ensures WellFormed(OneCell("zero"), [ZeroTable], [ConstZero])
    ensures forall t :: Satisfies(OneCell("zero"), [ConstZero], t) ==> !t.Get("y")
    ensures EmptyCommitment.output == [true] && |EmptyCommitment.gateHashes| != |OneCell("zero").cells|
    ensures ExecValid(OneCell("zero"), hash, EmptyCommitment, ForgedExecution)
    ensures ScrHonest(OneCell("zero"), [ZeroTable], hash, EmptyCommitment, ForgedScrambling)
  {
    ZeroCellNeverOutputsOne();
    ForgedExecutionValid(hash);
    ForgedScramblingHonest(hash);
  }
}

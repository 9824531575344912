/** What the garbling engine achieves across calls: a corrected (pinned) round
    always reveals and validates for a satisfying trace, two reveals of one
    commitment that both validate yield a satisfying trace, and concrete
    inputs on which the code as written falls short of both. */
module GarblingProofs {
  import opened Outcomes
  import opened Bits
  import opened Messages
  import opened TruthTables
  import opened WireMaps
  import opened Netlist
  import opened Rounds

  // ---------------------------------------------------------------------------
  // Helpers

  /** A name that is not a wire reads as 0 from a map built by Zip. */
  lemma ZipOutside(wires: seq<string>, ex: seq<bool>, w: string)
    requires Distinct(wires) && |ex| >= |wires| && w !in wires
    ensures !Zip(wires, ex).Get(w)
  {
    ZipContents(wires, ex);
  }

  /** Every row of a scrambled table is some canonical row masked with the
      table's keys. */
  lemma ScrambledRowOrigin(t: Table, inputKey: seq<bool>, outputKey: seq<bool>, coins: TableCoins, e: Entry)
    requires |coins.nonces| >= |t| && ValidPicks(coins.picks, |t|)
    requires e in ScrambledTable(t, inputKey, outputKey, coins)
    ensures exists n :: 0 <= n < |t| && e == ScrambledEntry(t[n], inputKey, outputKey, coins.nonces[n])
  {
    ScrambledTableIsPermutation(t, inputKey, outputKey, coins);
    var masked := MaskRows(t, inputKey, outputKey, coins.nonces);
    assert e in multiset(masked);
    var n :| 0 <= n < |masked| && masked[n] == e;
  }

  /** The keys of a pinned round are valid, keyed by the wires in wire order,
      and 0 on every output wire. */
  lemma PinnedKeys(m: Module, exec: WireMap, keys: WireMap, bits: seq<bool>)
    requires Distinct(m.wires) && (forall o :: o in m.outputs ==> o in m.wires)
    requires keys.Valid() && keys.order == m.wires && exec.order == m.wires && |bits| >= |exec.order|
    ensures var k := PinOutputs(DrawKeys(keys, exec.order, bits), m.outputs);
            k.Valid() && k.order == m.wires && forall o :: o in m.outputs ==> !k.Get(o)
  {
    DrawKeysContents(keys, exec.order, bits);
    PinOutputsContents(DrawKeys(keys, exec.order, bits), m.outputs);
  }

  /** Two maps keyed by the wires: the map of the masked trace holds, wire by
      wire, the XOR of the other two. */
  lemma MaskedTraceXor(wires: seq<string>, exec: WireMap, keys: WireMap)
    requires exec.Valid() && keys.Valid() && exec.order == wires && keys.order == wires
    ensures forall w :: Zip(wires, MaskedTrace(exec, keys)).Get(w) == (exec.Get(w) != keys.Get(w))
  {
    var z := Zip(wires, MaskedTrace(exec, keys));
    ZipContents(wires, MaskedTrace(exec, keys));
    forall w
      ensures z.Get(w) == (exec.Get(w) != keys.Get(w))
    {
      if w in wires {
        var i :| 0 <= i < |wires| && wires[i] == w;
      } else {
        ZipOutside(wires, MaskedTrace(exec, keys), w);
      }
    }
  }

  // ---------------------------------------------------------------------------
  // Completeness of the pinned round

  /** reveal_execution succeeds after a pinned round on a satisfying trace:
      every cell has exactly one row at its masked inputs, and it carries the
      masked outputs. */
  lemma {:induction false} PinnedRevealSucceeds(m: Module, gatesdef: seq<Table>, gateFns: seq<seq<bool> -> seq<bool>>,
                                                hash: Entry -> Digest, exec: WireMap, keys: WireMap, coins: RoundCoins)
    requires WellFormed(m, gatesdef, gateFns) && CoinsFit(gatesdef, coins, |exec.order|)
    requires Satisfies(m, gateFns, exec)
    ensures var r := RoundPinned(m, gatesdef, hash, exec, keys, coins);
            AllRevealable(m, r.gates, exec, r.keys)
  {
    var r := RoundPinned(m, gatesdef, hash, exec, keys, coins);
    forall c | 0 <= c < |m.cells|
      ensures CellRevealable(r.gates[c], MaskedIn(exec, r.keys, m.cells[c]), MaskedOut(exec, r.keys, m.cells[c]))
    {
      var cell := m.cells[c];
      var k := Width(cell.conns, true);
      var x := InPorts(exec, cell);
      var ik, ok := InPorts(r.keys, cell), OutPorts(r.keys, cell);
      PortBitsWidth(exec, cell.conns, true, false);
      PortBitsWidth(r.keys, cell.conns, true, false);
      assert TableCoinsFit(gatesdef[c], coins.tables[c]);
      var s := r.gates[c];
      assert s == ScrambledTable(gatesdef[c], ik, ok, coins.tables[c]);
      HonestRowUnique(gatesdef[c], k, gateFns[c], ik, ok, coins.tables[c], x);
      var y := MaskedOut(exec, r.keys, cell);
      assert y == Mask(gateFns[c](x), ok);
      forall n | 0 <= n < |s|
        ensures !ShortPrefix(s[n], Mask(x, ik))
        ensures Matches(s[n], Mask(x, ik)) ==> OutputsAgree(s[n], y)
      {
        ScrambledRowOrigin(gatesdef[c], ik, ok, coins.tables[c], s[n]);
        var j :| 0 <= j < |gatesdef[c]| && s[n] == ScrambledEntry(gatesdef[c][j], ik, ok, coins.tables[c].nonces[j]);
        assert gatesdef[c][j].inputs == NatToBits(j, k);
        if Matches(s[n], Mask(x, ik)) {
          assert s[n] in s;
          assert s[n].outputs[..|y|] == s[n].outputs;
        }
      }
    }
  }

  /** The execution validator accepts what reveal_execution returns after a
      pinned round on a satisfying trace, when no cell reads a constant. */
  lemma PinnedExecutionValidates(m: Module, gatesdef: seq<Table>, gateFns: seq<seq<bool> -> seq<bool>>,
                                 hash: Entry -> Digest, exec: WireMap, keys: WireMap, coins: RoundCoins,
                                 rev: ExecutionReveal)
    requires WellFormed(m, gatesdef, gateFns) && CoinsFit(gatesdef, coins, |exec.order|)
    requires forall c :: 0 <= c < |m.cells| ==> NoConsts(m.cells[c])
    requires exec.Valid() && exec.order == m.wires && keys.Valid() && keys.order == m.wires
    requires var r := RoundPinned(m, gatesdef, hash, exec, keys, coins);
             && rev.exec == MaskedTrace(exec, r.keys)
             && |rev.entries| == |m.cells|
             && forall c :: 0 <= c < |m.cells| ==>
                  RowRevealed(r.gates[c], MaskedIn(exec, r.keys, m.cells[c]), MaskedOut(exec, r.keys, m.cells[c]),
                              rev.entries[c])
    ensures ExecValid(m, hash, RoundPinned(m, gatesdef, hash, exec, keys, coins).commitment, rev)
  {
    var r := RoundPinned(m, gatesdef, hash, exec, keys, coins);
    var com := r.commitment;
    PinnedKeys(m, exec, keys, coins.keyBits);
    MaskedTraceXor(m.wires, exec, r.keys);
    var z := RevealedTrace(m, rev);
    forall i | 0 <= i < |com.gateHashes|
      ensures hash(rev.entries[i]) in com.gateHashes[i]
    {
      var n :| 0 <= n < |r.gates[i]| && r.gates[i][n] == rev.entries[i];
      assert com.gateHashes[i][n] == hash(r.gates[i][n]);
    }
    forall i | 0 <= i < |m.outputs|
      ensures z.Get(m.outputs[i]) == com.output[i]
    {
      assert m.outputs[i] in m.outputs;
    }
    forall c | 0 <= c < |m.cells|
      ensures EntryIsPorts(z, m.cells[c], rev.entries[c])
    {
      var cell := m.cells[c];
      var e := rev.entries[c];
      PortBitsMask(z, exec, r.keys, cell.conns, true);
      PortBitsMask(z, exec, r.keys, cell.conns, false);
      PortBitsWidth(exec, cell.conns, true, false);
      PortBitsWidth(exec, cell.conns, false, false);
      assert TableCoinsFit(gatesdef[c], coins.tables[c]);
      ScrambledRowOrigin(gatesdef[c], InPorts(r.keys, cell), OutPorts(r.keys, cell), coins.tables[c], e);
      var j :| 0 <= j < |gatesdef[c]| && e == ScrambledEntry(gatesdef[c][j], InPorts(r.keys, cell), OutPorts(r.keys, cell), coins.tables[c].nonces[j]);
      var k := Width(cell.conns, true);
      assert gatesdef[c][j] == Entry(NatToBits(j, k), gateFns[c](NatToBits(j, k)), []);
      assert e.inputs[..k] == e.inputs;
      assert e.outputs[..|e.outputs|] == e.outputs;
    }
  }

  /** The scrambling validator accepts reveal_scrambling's answer after a
      pinned round. */
  lemma PinnedScramblingValidates(m: Module, gatesdef: seq<Table>, gateFns: seq<seq<bool> -> seq<bool>>,
                                  hash: Entry -> Digest, exec: WireMap, keys: WireMap, coins: RoundCoins)
    requires WellFormed(m, gatesdef, gateFns) && CoinsFit(gatesdef, coins, |exec.order|)
    requires exec.order == m.wires && keys.Valid() && keys.order == m.wires
    ensures var r := RoundPinned(m, gatesdef, hash, exec, keys, coins);
            ScrHonest(m, gatesdef, hash, r.commitment, ScramblingReveal(Serialized(r.keys), r.gates))
  {
    var r := RoundPinned(m, gatesdef, hash, exec, keys, coins);
    var rev := ScramblingReveal(Serialized(r.keys), r.gates);
    PinnedKeys(m, exec, keys, coins.keyBits);
    SerializeRoundTrip(m.wires, r.keys);
    assert Zip(m.wires, rev.keys) == r.keys;
    forall c, n | 0 <= c < |m.cells| && 0 <= n < |rev.gates[c]|
      ensures HasRow(gatesdef[c], Mask(rev.gates[c][n].inputs, InPorts(r.keys, m.cells[c])),
                     Mask(rev.gates[c][n].outputs, OutPorts(r.keys, m.cells[c])))
      ensures |rev.gates[c][n].inputs| == Width(m.cells[c].conns, true)
      ensures |rev.gates[c][n].outputs| == Width(m.cells[c].conns, false)
    {
      var cell := m.cells[c];
      var ik, ok := InPorts(r.keys, cell), OutPorts(r.keys, cell);
      var e := rev.gates[c][n];
      assert TableCoinsFit(gatesdef[c], coins.tables[c]);
      assert e in ScrambledTable(gatesdef[c], ik, ok, coins.tables[c]);
      ScrambledRowOrigin(gatesdef[c], ik, ok, coins.tables[c], e);
      var j :| 0 <= j < |gatesdef[c]| && e == ScrambledEntry(gatesdef[c][j], ik, ok, coins.tables[c].nonces[j]);
      MaskInvolution(gatesdef[c][j].inputs, ik);
      MaskInvolution(gatesdef[c][j].outputs, ok);
      WellFormedTablesFit(m, gatesdef, gateFns);
    }
  }

  // ---------------------------------------------------------------------------
  // Special soundness

  /** The trace a verifier could rebuild from both reveals of one round: the
      revealed masked trace XOR the revealed keys, wire by wire. */
  function Unmasked(m: Module, er: ExecutionReveal, sr: ScramblingReveal): WireMap
    requires |er.exec| >= |m.wires|
  {
    Zip(m.wires, Mask(er.exec, sr.keys))
  }

  /** The revealed masked trace is, wire by wire, the unmasked trace XOR the
      revealed keys. */
  lemma UnmaskedXor(m: Module, er: ExecutionReveal, sr: ScramblingReveal)
    requires Distinct(m.wires) && |er.exec| >= |m.wires| && |sr.keys| >= |m.wires|
    ensures forall w :: RevealedTrace(m, er).Get(w) == (Unmasked(m, er, sr).Get(w) != Zip(m.wires, sr.keys).Get(w))
  {
    var z := RevealedTrace(m, er);
    var k := Zip(m.wires, sr.keys);
    var t := Unmasked(m, er, sr);
    ZipContents(m.wires, er.exec);
    ZipContents(m.wires, sr.keys);
    ZipContents(m.wires, Mask(er.exec, sr.keys));
    forall w
      ensures z.Get(w) == (t.Get(w) != k.Get(w))
    {
      if w in m.wires {
        var i :| 0 <= i < |m.wires| && m.wires[i] == w;
      } else {
        ZipOutside(m.wires, er.exec, w);
        ZipOutside(m.wires, sr.keys, w);
        ZipOutside(m.wires, Mask(er.exec, sr.keys), w);
      }
    }
  }

  /** One cell of special soundness: a row that is the cell's ports read from
      the masked trace z and that unmasks under keys k to a canonical row
      makes the unmasked trace t satisfy the cell. */
  lemma CellSound(cell: Cell, t: Table, gate: seq<bool> -> seq<bool>, z: WireMap, tr: WireMap, k: WireMap, e: Entry)
    requires CanonicalFor(t, Width(cell.conns, true), gate)
    requires forall i, j :: 0 <= i < |cell.conns| && 0 <= j < |cell.conns[i].bits| ==> cell.conns[i].bits[j].WireBit?
    requires forall w :: z.Get(w) == (tr.Get(w) != k.Get(w))
    requires EntryIsPorts(z, cell, e)
    requires HasRow(t, Mask(e.inputs, InPorts(k, cell)), Mask(e.outputs, OutPorts(k, cell)))
    ensures OutPorts(tr, cell) == gate(InPorts(tr, cell))
  {
    PortBitsMask(z, tr, k, cell.conns, true);
    PortBitsMask(z, tr, k, cell.conns, false);
    MaskInvolution(InPorts(tr, cell), InPorts(k, cell));
    MaskInvolution(OutPorts(tr, cell), OutPorts(k, cell));
    var x := InPorts(tr, cell);
    assert HasRow(t, x, OutPorts(tr, cell));
    PortBitsWidth(tr, cell.conns, true, false);
    CanonicalRowAt(t, Width(cell.conns, true), gate, x);
  }

  /** If both validators accept their reveal of one commitment that has one
      table per cell, the hash is injective and no cell reads a constant, then
      the unmasked trace satisfies every cell and carries the committed
      outputs. */
  lemma SpecialSoundness(m: Module, gatesdef: seq<Table>, gateFns: seq<seq<bool> -> seq<bool>>,
                         hash: Entry -> Digest, com: Commitment, er: ExecutionReveal, sr: ScramblingReveal)
    requires WellFormed(m, gatesdef, gateFns)
    requires forall a, b :: hash(a) == hash(b) ==> a == b
    requires forall c :: 0 <= c < |m.cells| ==> NoConsts(m.cells[c])
    requires |com.gateHashes| == |m.cells|
    requires ExecValid(m, hash, com, er) && ScrSound(m, gatesdef, hash, com, sr)
    ensures Satisfies(m, gateFns, Unmasked(m, er, sr))
    ensures forall i :: 0 <= i < |m.outputs| ==> Unmasked(m, er, sr).Get(m.outputs[i]) == com.output[i]
  {
    var z := RevealedTrace(m, er);
    var k := Zip(m.wires, sr.keys);
    var t := Unmasked(m, er, sr);
    UnmaskedXor(m, er, sr);
    forall c | 0 <= c < |m.cells|
      ensures OutPorts(t, m.cells[c]) == gateFns[c](InPorts(t, m.cells[c]))
    {
      var e := er.entries[c];
      var j :| 0 <= j < |com.gateHashes[c]| && com.gateHashes[c][j] == hash(e);
      assert e == sr.gates[c][j];
      CellSound(m.cells[c], gatesdef[c], gateFns[c], z, t, k, e);
    }
    forall i | 0 <= i < |m.outputs|
      ensures t.Get(m.outputs[i]) == com.output[i]
    {
      assert m.outputs[i] in m.outputs;
    }
  }
}

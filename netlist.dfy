/** The part of a Yosys module the garbling engine reads: its wire names, its
    output ports and its cells, each cell with its connections in port order.
    Every wire is one bit wide. */
module Netlist {
  import opened Bits
  import opened WireMaps

  /** A Yosys bit state. */
  datatype State = S0 | S1 | Sx | Sz

  /** One bit of a connection: a wire, or a constant. */
  datatype SigBit = WireBit(name: string) | ConstBit(data: State)

  /** A cell port: its name, its direction and the bits connected to it. */
  datatype Connection = Connection(port: string, isInput: bool, bits: seq<SigBit>)

  datatype Cell = Cell(name: string, conns: seq<Connection>)

  /** The module: wires in the dictionary order both wire-value maps use, the
      names of its output ports and its cells in `cells()` order. */
  datatype Module = Module(wires: seq<string>, outputs: seq<string>, cells: seq<Cell>)

  /** A bit read as a `char` stored in a `vector<bool>`: only S0 is 0. */
  function StateBit(s: State): bool
  {
    s != S0
  }

  /** The bit get_gate_ports pushes for one connection bit. */
  function BitValue(values: WireMap, b: SigBit, zeroconst: bool): bool
  {
    match b
    case WireBit(n) => values.Get(n)
    case ConstBit(d) => if zeroconst then false else StateBit(d)
  }

  function BitsValue(values: WireMap, bits: seq<SigBit>, zeroconst: bool): (r: seq<bool>)
    ensures |r| == |bits|
    ensures forall n :: 0 <= n < |bits| ==> r[n] == BitValue(values, bits[n], zeroconst)
  {
    seq(|bits|, n requires 0 <= n < |bits| => BitValue(values, bits[n], zeroconst))
  }

  /** The bits of every input (or every output) connection, in connection order. */
  function PortBits(values: WireMap, conns: seq<Connection>, input: bool, zeroconst: bool): seq<bool>
  {
    if conns == [] then []
    else
      var last := conns[|conns| - 1];
      PortBits(values, conns[..|conns| - 1], input, zeroconst)
        + (if last.isInput == input then BitsValue(values, last.bits, zeroconst) else [])
  }

  /** The number of bits on the input (or output) ports. */
  function Width(conns: seq<Connection>, input: bool): nat
  {
    if conns == [] then 0
    else
      var last := conns[|conns| - 1];
      Width(conns[..|conns| - 1], input) + (if last.isInput == input then |last.bits| else 0)
  }

  /** No connection bit is a constant. */
  ghost predicate NoConsts(c: Cell)
  {
    forall i, j :: 0 <= i < |c.conns| && 0 <= j < |c.conns[i].bits| ==> c.conns[i].bits[j].WireBit?
  }

  /** The widths of a cell's port vectors do not depend on the values read. */
  lemma {:induction false} PortBitsWidth(values: WireMap, conns: seq<Connection>, input: bool, zeroconst: bool)
    ensures |PortBits(values, conns, input, zeroconst)| == Width(conns, input)
  {
    if conns != [] {
      PortBitsWidth(values, conns[..|conns| - 1], input, zeroconst);
    }
  }

  /** Reading the ports through a map that holds t XOR k wire by wire gives
      the XOR of the ports read through t and through k, when no bit is a
      constant. */
  lemma {:induction false} PortBitsMask(z: WireMap, t: WireMap, k: WireMap, conns: seq<Connection>, input: bool)
    requires forall w :: z.Get(w) == (t.Get(w) != k.Get(w))
    requires forall i, j :: 0 <= i < |conns| && 0 <= j < |conns[i].bits| ==> conns[i].bits[j].WireBit?
    ensures PortBits(z, conns, input, false) == Mask(PortBits(t, conns, input, false), PortBits(k, conns, input, false))
    ensures |PortBits(k, conns, input, false)| == |PortBits(t, conns, input, false)|
  {
    PortBitsWidth(t, conns, input, false);
    PortBitsWidth(k, conns, input, false);
    if conns != [] {
      var n := |conns|;
      var init := conns[..n - 1];
      var last := conns[n - 1];
      assert forall j :: 0 <= j < |init| ==> init[j] == conns[j];
      PortBitsMask(z, t, k, init, input);
      PortBitsWidth(t, init, input, false);
      PortBitsWidth(k, init, input, false);
      var lz, lt, lk := [], [], [];
      if last.isInput == input {
        lz, lt, lk := BitsValue(z, last.bits, false), BitsValue(t, last.bits, false), BitsValue(k, last.bits, false);
        BitsMask(z, t, k, last.bits);
      }
      MaskAppend(PortBits(t, init, input, false), lt, PortBits(k, init, input, false), lk);
    }
  }

  /** Reading wires through the masked map is masking what the trace and the
      keys read. */
  lemma BitsMask(z: WireMap, t: WireMap, k: WireMap, bits: seq<SigBit>)
    requires forall w :: z.Get(w) == (t.Get(w) != k.Get(w))
    requires forall j :: 0 <= j < |bits| ==> bits[j].WireBit?
    ensures BitsValue(z, bits, false) == Mask(BitsValue(t, bits, false), BitsValue(k, bits, false))
  {
  }

  /** Masking two vectors side by side, each with its own key. */
  lemma MaskAppend(a: seq<bool>, b: seq<bool>, ka: seq<bool>, kb: seq<bool>)
    requires |ka| == |a| && |kb| == |b|
    ensures Mask(a + b, ka + kb) == Mask(a, ka) + Mask(b, kb)
  {
  }

  /** Two maps that agree on every wire a cell touches give it the same ports. */
  lemma {:induction false} PortBitsAgree(a: WireMap, b: WireMap, conns: seq<Connection>, input: bool, zeroconst: bool)
    requires forall i, j :: 0 <= i < |conns| && 0 <= j < |conns[i].bits| && conns[i].bits[j].WireBit?
               ==> a.Get(conns[i].bits[j].name) == b.Get(conns[i].bits[j].name)
    ensures PortBits(a, conns, input, zeroconst) == PortBits(b, conns, input, zeroconst)
  {
    if conns != [] {
      PortBitsAgree(a, b, conns[..|conns| - 1], input, zeroconst);
    }
  }
}

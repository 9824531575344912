/** The protocol's messages, as plain values (the protobuf schema they come
    from is not part of this model; only the fields the core reads or writes
    are kept). */
module Messages {
  import opened Outcomes

  /** A SHA-256 digest (or any byte string a hash returns). */
  type Digest = seq<bv8>

  /** One truth-table row: input bits, output bits and a nonce. */
  datatype Entry = Entry(inputs: seq<bool>, outputs: seq<bool>, nonce: seq<bv8>)

  /** A truth table: its rows in their current order. */
  type Table = seq<Entry>

  /** One round's commitment: per gate (in cell order) the hashes of its
      scrambled table's rows in table order, and the cleartext output bits. */
  datatype Commitment = Commitment(gateHashes: seq<seq<Digest>>, output: seq<bool>)

  /** The masked trace (one bit per wire, by position) and one row per gate. */
  datatype ExecutionReveal = ExecutionReveal(exec: seq<bool>, entries: seq<Entry>)

  /** All wire keys (by position) and every gate's full scrambled table. */
  datatype ScramblingReveal = ScramblingReveal(keys: seq<bool>, gates: seq<Table>)

  /** The prover's per-round secret; an unset half reads as the empty message. */
  datatype ProverSecret = ProverSecret(execution: Option<ExecutionReveal>, scrambling: Option<ScramblingReveal>)

  /** One record of the verifier's state file: a round's commitment and its challenge bit. */
  datatype ProveeRound = ProveeRound(commitment: Commitment, scrambling: bool)

  function ExecutionOf(s: ProverSecret): ExecutionReveal
  {
    if s.execution.Some? then s.execution.value else ExecutionReveal([], [])
  }

  function ScramblingOf(s: ProverSecret): ScramblingReveal
  {
    if s.scrambling.Some? then s.scrambling.value else ScramblingReveal([], [])
  }
}

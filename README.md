# yosys-zkp, modelled in Dafny

yosys-zkp proves in zero knowledge that the prover knows inputs that drive a
gate-level circuit to a claimed output. The circuit is a module loaded through
Yosys.

The proof is cut and choose. In each round the prover:

1. evaluates the circuit on its secret inputs, giving the execution trace;
2. draws a random key bit for every wire, then sets the key of every output
   wire to 0 so that the outputs stay visible;
3. XORs each gate's canonical truth table with the keys of the gate's ports,
   puts a random nonce in every row, and shuffles the rows;
4. commits to the SHA-256 hash of every row, plus the output bits.

The verifier (the "provee") answers every round with one random bit, asking
for one of two halves:

- **The scrambling half**: every key and every scrambled table. The verifier
  checks that the tables hash to the commitment, that the output keys are 0,
  and that every row unmasks to a row of the gate's canonical table.
- **The execution half**: the masked trace and one row per gate. The verifier
  checks that every row was committed, that the masked trace carries the
  committed outputs, and that each row holds exactly the masked values on its
  gate's ports.

The proof passes when enough rounds pass.

The project models this core:

- truth tables;
- the scrambled circuit with its round, reveal and validate operations;
- the wire-value dictionary;
- both agents;
- the length-prefixed record files;
- the four command-line actions.

The main results:

- **Completeness.** An honest prover's rounds pass whichever half is asked for:
  `GarblingProofs.PinnedExecutionValidates`,
  `GarblingProofs.PinnedScramblingValidates`, and `Cli.HonestSession` for a
  whole session. These are about the corrected round of the first finding; the
  round the source's `prover_create` calls aborts for most honest witnesses.
- **Special soundness.** Two accepted openings of one commitment yield a trace
  that satisfies every gate and carries the committed outputs:
  `GarblingProofs.SpecialSoundness`.
- **Three defects in the source.** They are listed under Findings.

Modules, in dependency order:

| module | file | models |
|---|---|---|
| `Outcomes` | outcomes.dfy | `Result` (an abort by `log_error` or a throw is `Fatal`) and `Option` |
| `Bits` | bits.dfy | bit vectors as numbers (lowest index least significant), XOR masking, comparison |
| `WireMaps` | wire_values.dfy | the name→bit dictionary and the `WireValues` class |
| `Messages` | messages.dfy | rows, tables, commitments, the reveals, the prover's secret, the verifier's round state |
| `Netlist` | netlist.dfy | the module (wires, output bits, cells with their port connections) and port reading |
| `TruthTables` | truth_table.dfy | TruthTable.cc |
| `Rounds` | rounds.dfy | the round as a function of the coins, and the predicates each validator decides |
| `Garbling` | scrambled_circuit.dfy | the `ScrambledCircuit` class |
| `GarblingProofs` | garbling_proofs.dfy | completeness and special soundness |
| `GarblingFindings` | garbling_findings.dfy | concrete counterexamples for the findings |
| `Prover` | prover_agent.dfy | `ProverAgent` and the multi-round prover |
| `Provee` | provee_agent.dfy | `ProveeAgent` |
| `Framing` | protocol.dfy | `CodedFileWriter`/`CodedFileReader` and the magic numbers |
| `Cli` | cli.dfy | `const_from_file` and the actions of the command-line tool |

Conventions of the model:

- **Hashing.** SHA-256 is a parameter `hash: Entry -> Digest`.
- **Randomness.** The generator's output arrives as parameters: `RoundCoins`
  holds the key bits, and for each table its nonces and shuffle picks; the
  verifier's challenges are a sequence of bits.
- **Evaluation.** Yosys's evaluator is a function `value: string -> Option<State>`,
  where `None` means the wire could not be evaluated. Each gate's behaviour is
  a function on bit vectors.
- **Dictionaries.** A Yosys `dict` is a `WireMap`: an order of keys plus a
  map. `Get` of a missing name reads 0, like `operator[]` on a fresh entry.
- **Sortedness.** `execute` sorts its two dicts by name
  (ScrambledCircuit.cc:64-65). The wire list is taken to be already sorted that
  way, so that order and the module's wire order coincide.

## Model

| member | source | states |
|---|---|---|
| `Bits.Mask` | TruthTable.cc:126-132 | a bit covered by the key is flipped exactly where the key bit is set; bits past the key's end are unchanged |
| `Bits.MaskInvolution` | TruthTable.cc:156-163 | unmasking with the same key restores the scrambled bits |
| `Bits.MaskInjective` | TruthTable.cc:156-163 | two vectors that mask to the same result under one key are equal |
| `Bits.ValueOfNatToBits` | TruthTable.cc:56-97 | the k-bit counter value of n reads back as n when n < 2^k |
| `Bits.NatToBitsInjective` | TruthTable.cc:56-97 | distinct counter values below 2^k give distinct input vectors |
| `Bits.NatToBitsOfValue` | TruthTable.cc:56-97 | every k-bit vector is the counter value of its own number, so the enumeration covers every input |
| `Bits.CompareIsNumeric` | TruthTable.cc:166-187 | scanning from the highest index down orders vectors exactly by their numeric value: 0 iff equal, -1 iff smaller, 1 iff larger |
| `Bits.NatToBitsAscending` | TruthTable.cc:56-97 | a smaller counter value gives an input vector that compares smaller |
| `TruthTables.FromGate` | TruthTable.cc:25-99 | aborts exactly when the gate has more than 16 input bits; otherwise row n holds the n-th input vector and the gate's output on it, for all 2^k rows |
| `TruthTables.CheckTable` | TruthTable.cc:9-22 | passes exactly when, for every ordered pair of distinct rows, the second is at least as wide as the first and does not start with the first's inputs; a shorter second row is an out-of-range read and aborts |
| `TruthTables.PrefixFreeIff` | TruthTable.cc:9-22 | that pairwise test holds exactly when all rows are equally wide and no two share an input vector |
| `TruthTables.VerifyComputation` | TruthTable.cc:111-124 | aborts exactly on a width mismatch; otherwise true iff the row's inputs and outputs equal the given vectors |
| `TruthTables.MaskInPlace` | TruthTable.cc:127-132 | the loop's result is the masked vector |
| `TruthTables.ScrambleEntry` | TruthTable.cc:126-137 | the row with inputs and outputs masked by the keys and the new nonce; widths kept, nonce of NONCE_SIZE bytes |
| `TruthTables.TableCommitment` | TruthTable.cc:140-146 | one hash per row, in row order, each the hash of that row |
| `TruthTables.Shuffle` | TruthTable.cc:153-153 | the array afterwards holds the Fisher–Yates shuffle of its old contents under the picks |
| `TruthTables.ScrambleTable` | TruthTable.cc:148-154 | the array afterwards holds the scrambled table: every row masked with its nonce, then shuffled |
| `TruthTables.CompareBits` | TruthTable.cc:170-182 | the scan's result is the numeric comparison of the row's inputs with the unmasked vector |
| `TruthTables.UnmaskCopy` | TruthTable.cc:158-163 | the pushed-back vector is the masked entry |
| `TruthTables.ContainsEntry` | TruthTable.cc:156-193 | true only if the table has a row equal to the unmasked entry; on an ascending table of uniform width, true whenever it has one; an empty table gives false |
| `TruthTables.ScrambleEntryTwice` | TruthTable.cc:126-137 | scrambling twice with the same keys restores inputs and outputs |
| `TruthTables.SwapPermutes` | TruthTable.cc:153-153 | one swap keeps the multiset of rows |
| `TruthTables.ShufflePermutes` | TruthTable.cc:153-153 | the shuffle keeps the multiset of rows |
| `TruthTables.ShuffleMap` | TruthTable.cc:148-154 | masking per row and shuffling commute |
| `TruthTables.ScrambleRestoresRows` | TruthTable.cc:148-154 | unmasking a scrambled table gives back exactly the canonical rows, as a multiset |
| `TruthTables.ScrambledTableIsPermutation` | TruthTable.cc:148-154 | the scrambled table is a permutation of the masked rows |
| `TruthTables.CanonicalDistinct` | TruthTable.cc:9-22 | a table built by from_gate has distinct input vectors and passes the integrity check |
| `TruthTables.CanonicalAscending` | TruthTable.cc:56-97 | a table built by from_gate is strictly ascending with uniform width, which the binary search needs |
| `TruthTables.CanonicalRowAt` | TruthTable.cc:56-97 | input vector x sits at row Value(x) and only there, with the gate's output on x |
| `TruthTables.MatchCountPermutation` | ScrambledCircuit.cc:98-115 | the number of rows matching a masked input does not depend on the row order |
| `TruthTables.HonestRowUnique` | ScrambledCircuit.cc:98-115 | in a scrambled canonical table, exactly one row matches the masked inputs, and it carries the gate's masked output |
| `WireMaps.SetStores` | ScrambledCircuit.cc:21-21 | assigning one name changes that name only, and an existing key keeps the order |
| `WireMaps.ZipContents` | WireValues.cc:17-24 | the dictionary filled from a bit list maps the i-th wire to the i-th bit, with the wires as its keys |
| `WireMaps.SerializeRoundTrip` | WireValues.cc:9-24 | deserializing what serialize produced gives back the same dictionary |
| `WireMaps.DeserializeRoundTrip` | WireValues.cc:9-24 | serializing a deserialized list gives back its first bit per wire |
| `WireMaps.WireValues.constructor` | WireValues.cc:6-8 | a new dictionary for the module's wires is empty |
| `WireMaps.WireValues.Serialize` | WireValues.cc:9-16 | one bit per key, in key order, each the value stored for that key |
| `WireMaps.WireValues.Deserialize` | WireValues.cc:17-24 | succeeds iff the list has a bit for every wire, and then holds wire i ↦ bit i; otherwise aborts with the dictionary unchanged |
| `Netlist.BitsValue` | ScrambledCircuit.cc:260-264 | one bit per connection bit: a wire bit reads the dictionary, a constant reads its own value or 0 |
| `Netlist.PortBitsWidth` | ScrambledCircuit.cc:254-272 | the bits read for a port side number exactly that side's connection width |
| `Netlist.PortBitsMask` | ScrambledCircuit.cc:95-96 | on wire bits, the ports read from the masked trace are the ports of the trace masked with the ports of the keys |
| `Netlist.PortBitsAgree` | ScrambledCircuit.cc:254-272 | two dictionaries that agree on a cell's wires read the same port bits |
| `Rounds.ScrambleGates` | ScrambledCircuit.cc:24-32 | one scrambled table per cell |
| `Rounds.CommitmentOf` | ScrambledCircuit.cc:17-46 | one hash list per table and one bit per output |
| `Rounds.MaskedTrace` | ScrambledCircuit.cc:84-87 | one masked bit per traced wire |
| `Rounds.DrawKeysContents` | ScrambledCircuit.cc:20-22 | afterwards every traced wire holds its drawn bit, other names keep their keys, and the key order is kept |
| `Rounds.PinOutputsContents` | ScrambledCircuit.cc:34-38 | afterwards every output wire's key is 0 and every other key is unchanged |
| `Rounds.WellFormedTablesFit` | ScrambledCircuit.cc:247-251 | every canonical row is exactly as wide as its cell's ports |
| `Garbling.InitializeCellTables` | ScrambledCircuit.cc:247-251 | aborts exactly when some cell has more than 16 input bits; otherwise one canonical table per cell |
| `Garbling.ScrambledCircuit.constructor` | ScrambledCircuit.cc:11-15 | both dictionaries empty, no scrambled tables, the canonical tables given |
| `Garbling.ScrambledCircuit.Execute` | ScrambledCircuit.cc:48-79 | aborts exactly when some wire cannot be evaluated, with both dictionaries unchanged; otherwise the trace holds every wire's value, every key is 0, and the result is the output values |
| `Garbling.ScrambledCircuit.Evaluated` | ScrambledCircuit.cc:53-56 | true iff every wire evaluates |
| `Garbling.ScrambledCircuit.ResetMaps` | ScrambledCircuit.cc:57-65 | the trace becomes the wires' values and every key becomes 0 |
| `Garbling.ScrambledCircuit.OutputStates` | ScrambledCircuit.cc:67-75 | the i-th result is the value of the i-th output |
| `Garbling.ScrambledCircuit.ConnectionBits` | ScrambledCircuit.cc:260-270 | the bits of one connection, in order, as BitsValue reads them |
| `Garbling.ScrambledCircuit.GetGatePorts` | ScrambledCircuit.cc:254-272 | the input and the output bits of the cell's ports, in connection order |
| `Garbling.ScrambledCircuit.DrawRoundKeys` | ScrambledCircuit.cc:20-22 | the keys become the drawn bits for the traced wires |
| `Garbling.ScrambledCircuit.ScrambleAllGates` | ScrambledCircuit.cc:24-32 | every cell's table is its canonical table scrambled under its port keys, and the hashes are the tables' row hashes |
| `Garbling.ScrambledCircuit.ScrambleGate` | ScrambledCircuit.cc:27-30 | one cell's table: a copy of the canonical table scrambled under that cell's port keys |
| `Garbling.ScrambledCircuit.PinOutputKeys` | ScrambledCircuit.cc:34-43 | the output keys become 0, and the committed outputs are the trace's output values |
| `Garbling.ScrambledCircuit.CreateProofRound` | ScrambledCircuit.cc:17-46 | the new keys, tables and commitment are those of the round as written (keys drawn, tables scrambled, then output keys zeroed) |
| `Garbling.ScrambledCircuit.CreateProofRoundPinned` | ScrambledCircuit.cc:17-46 | the same round with the output keys zeroed before scrambling |
| `Garbling.ScrambledCircuit.RevealScrambling` | ScrambledCircuit.cc:120-128 | the serialized keys and the scrambled tables in cell order |
| `Garbling.ScrambledCircuit.MatchRow` | ScrambledCircuit.cc:101-103 | aborts exactly when the row is shorter than the masked inputs; otherwise true iff the row's prefix equals them |
| `Garbling.ScrambledCircuit.CheckOutputs` | ScrambledCircuit.cc:105-107 | passes exactly when the row carries the masked outputs |
| `Garbling.ScrambledCircuit.RevealCell` | ScrambledCircuit.cc:98-115 | passes exactly when one row matches the masked inputs and every match carries the masked outputs; returns that row |
| `Garbling.ScrambledCircuit.MaskTrace` | ScrambledCircuit.cc:84-87 | the trace XOR the keys, wire by wire |
| `Garbling.ScrambledCircuit.RevealGate` | ScrambledCircuit.cc:89-116 | passes exactly when the cell's table reveals, and returns the one matching row |
| `Garbling.ScrambledCircuit.RevealExecution` | ScrambledCircuit.cc:81-118 | passes exactly when every cell reveals; then the masked trace and one matching row per cell |
| `Garbling.ScrambledCircuit.CheckEntryHashes` | ScrambledCircuit.cc:135-149 | passes exactly when every committed table has the hash of its revealed row |
| `Garbling.ScrambledCircuit.CheckCommittedOutputs` | ScrambledCircuit.cc:155-167 | passes exactly when the revealed trace carries every committed output bit |
| `Garbling.ScrambledCircuit.CheckGateEntries` | ScrambledCircuit.cc:170-185 | passes exactly when every revealed row equals its cell's ports in the revealed trace |
| `Garbling.ScrambledCircuit.ValidateExecution` | ScrambledCircuit.cc:132-188 | passes (and returns true) exactly when the three execution checks hold |
| `Garbling.ScrambledCircuit.CheckTableHashes` | ScrambledCircuit.cc:190-199 | passes exactly when every committed hash equals the revealed table's row hash at that position |
| `Garbling.ScrambledCircuit.CheckOutputKeys` | ScrambledCircuit.cc:203-208 | passes exactly when every output wire's key is 0 |
| `Garbling.ScrambledCircuit.CheckGateTable` | ScrambledCircuit.cc:212-222 | passing means every revealed row unmasks to a canonical row; rows of the ports' width that all unmask always pass |
| `Garbling.ScrambledCircuit.CheckGateTables` | ScrambledCircuit.cc:210-224 | the same for every cell |
| `Garbling.ScrambledCircuit.ValidateScrambling` | ScrambledCircuit.cc:189-226 | passes exactly when the hashes agree, output keys are 0 and every row unmasks to a canonical row, and then returns true; once the hashes pass and every wire has a key, the key dictionary holds the revealed keys; otherwise it is unchanged |
| `Garbling.ScrambledCircuit.ValidateExecutionStrict` | ScrambledCircuit.cc:132-188 | the execution validator that also demands one committed table per cell |
| `Garbling.ScrambledCircuit.ValidateScramblingStrict` | ScrambledCircuit.cc:189-226 | the scrambling validator that also demands one committed table per cell: passes exactly when there is one and the reveal is sound |
| `Rounds.SoundIsHonest` | ScrambledCircuit.cc:210-224 | in a well-formed circuit every row the validator accepts has exactly its ports' widths |
| `GarblingProofs.ZipOutside` | WireValues.cc:17-24 | a name that is not a wire reads 0 after deserialize |
| `GarblingProofs.ScrambledRowOrigin` | TruthTable.cc:148-154 | every row of a scrambled table is some canonical row masked with its nonce |
| `GarblingProofs.PinnedKeys` | ScrambledCircuit.cc:20-38 | after drawing and pinning, the outputs' keys are 0 and every other wire keeps its drawn bit |
| `GarblingProofs.MaskedTraceXor` | ScrambledCircuit.cc:84-87 | deserializing the masked trace gives trace XOR keys for every name |
| `GarblingProofs.PinnedRevealSucceeds` | ScrambledCircuit.cc:89-116 | for a satisfying trace, every cell of a pinned round reveals |
| `GarblingProofs.PinnedExecutionValidates` | ScrambledCircuit.cc:132-188 | an honest execution opening of a pinned round passes the execution validator |
| `GarblingProofs.PinnedScramblingValidates` | ScrambledCircuit.cc:189-226 | an honest scrambling opening of a pinned round passes the scrambling validator |
| `GarblingProofs.UnmaskedXor` | ScrambledCircuit.cc:152-153 | the revealed trace is the unmasked trace XOR the revealed keys |
| `GarblingProofs.CellSound` | ScrambledCircuit.cc:170-224 | a row that passes both validators' checks for a cell forces that cell's gate relation on the unmasked trace |
| `GarblingProofs.SpecialSoundness` | ScrambledCircuit.cc:132-226 | two accepted openings of one commitment with one table per cell and an injective hash yield a trace that satisfies every gate and carries the committed outputs |
| `GarblingFindings.BufferRoundAsWritten` | ScrambledCircuit.cc:17-46 | the concrete round as written for a buffer: tables scrambled with output key 1, then that key set to 0 |
| `GarblingFindings.BufferRoundAsWrittenCannotReveal` | ScrambledCircuit.cc:17-116 | for a well-formed buffer run on a satisfying trace, the round as written cannot be revealed |
| `GarblingFindings.ZeroCellNeverOutputsOne` | TruthTable.cc:56-97 | no trace satisfying a constant-0 gate has output 1 |
| `GarblingFindings.ForgedExecutionValid` | ScrambledCircuit.cc:132-188 | a forged execution opening of an empty commitment claiming 1 passes the execution checks |
| `GarblingFindings.ForgedScramblingHonest` | ScrambledCircuit.cc:189-226 | the canonical tables with zero keys pass the scrambling checks against the empty commitment |
| `GarblingFindings.EmptyCommitmentPassesBothValidators` | ScrambledCircuit.cc:132-226 | both halves of a commitment with no tables are accepted though no satisfying trace gives the claimed output |
| `Prover.RoundSequence` | ProverAgent.cc:31-37 | one round per coin draw |
| `Prover.KeysAfterKeyed` | ScrambledCircuit.cc:20-38 | after any number of rounds the keys are still keyed by the wires, and after at least one round every output key is 0 |
| `Prover.SequenceStep` | ProverAgent.cc:31-37 | round i starts from the keys left by round i-1 |
| `Prover.CommitRound` | ProverAgent.cc:32-36 | one pinned round, with both halves of its opening stored: the keys and tables, the masked trace, and for each cell the revealed row that its masked ports select; an evaluated satisfying trace never aborts; an honest setting validates both halves |
| `Prover.CommitRounds` | ProverAgent.cc:31-37 | n rounds in sequence, the same guarantees for each, including the stored row per cell |
| `Prover.RunWitness` | ProverAgent.cc:9-15 | passes iff every wire evaluates and the outputs equal the required ones; then the trace and zero keys are loaded |
| `Prover.ProverAgent.constructor` | ProverAgent.cc:7-7 | security parameter 128, no stored rounds |
| `Prover.ProverAgent.SetData` | ProverAgent.cc:9-15 | throws exactly when the inputs do not produce the required outputs |
| `Prover.ProverAgent.SetSecurityParam` | ProverAgent.cc:17-19 | sets the parameter, keeps the stored rounds |
| `Prover.ProverAgent.WriteCommitmentPacket` | ProverAgent.cc:28-39 | appends one round per unit of the security parameter; every commitment and stored opening, down to the row stored per cell, is that of the pinned round sequence |
| `Prover.ProverAgent.WriteReveal` | ProverAgent.cc:40-64 | throws exactly when the request length differs from the number of stored rounds; otherwise opens exactly the asked half of every round and forgets the rounds |
| `Provee.ProveeAgent.constructor` | ProveeAgent.cc:5-8 | security parameter 128, confidence 0, nothing outstanding |
| `Provee.ProveeAgent.SetOutputs` | ProveeAgent.cc:10-15 | one claimed bit per state, set exactly for S1 |
| `Provee.ProveeAgent.SetSecurityParam` | ProveeAgent.cc:17-19 | sets the parameter and nothing else |
| `Provee.ProveeAgent.ReadCommitment` | ProveeAgent.cc:27-42 | throws exactly when a request is outstanding; otherwise stores the batch and draws one challenge per round, which it returns |
| `Provee.ProveeAgent.ReadReveal` | ProveeAgent.cc:44-60 | as written: passes exactly when every requested round has a commitment and a reveal whose scrambling half is sound; the confidence grows by the number of rounds only on success |
| `Provee.ProveeAgent.ReadRevealDispatched` | ProveeAgent.cc:44-60 | each round checked by the half its bit asks for: passes exactly when every round passes its check |
| `Provee.ExecutionOpeningFailsScramblingCheck` | ProveeAgent.cc:50-54 | an honest opening of an execution round has no scrambling half, so the as-written check rejects it |
| `Framing.LE64` | Protocol.h:49-51 | a 64-bit little-endian field is eight bytes |
| `Framing.LittleEndianRoundTrip` | Protocol.h:24-57 | reading back a written little-endian number gives the number |
| `Framing.MagicsDistinct` | Protocol.h:9-13 | the five magic numbers fit in 64 bits and are pairwise distinct |
| `Framing.CodedFileWriter.constructor` | Protocol.h:49-51 | a new file starts with its magic number |
| `Framing.CodedFileWriter.WriteToStream` | Protocol.h:53-57 | appends the record's length, then the record |
| `Framing.WriteAll` | Protocol.h:49-57 | writing records in turn gives the file image: magic, then each record framed |
| `Framing.CodedFileReader.constructor` | Protocol.h:24-30 | a reader positioned in a byte image |
| `Framing.CodedFileReader.ReadFromStream` | Protocol.h:31-38 | returns a record exactly when a whole length field and record remain, and then advances past it; otherwise stays put |
| `Framing.OpenReader` | Protocol.h:24-30 | opens exactly when the first eight bytes hold the expected magic number, positioned after them |
| `Framing.WrongMagicRefused` | Protocol.h:24-30 | a file written with one magic number is refused by a reader expecting another |
| `Framing.FramesRoundTrip` | Protocol.h:31-57 | parsing framed records gives back the records |
| `Framing.ReadAll` | Protocol.h:31-38 | reading until the stream ends gives the parse of the rest of the image |
| `Framing.ReadFile` | Protocol.h:24-38 | opens on the right magic and returns every record |
| `Framing.FileRoundTrip` | Protocol.h:24-57 | a written file opens with its own magic number and reads back the records written |
| `Cli.ConstFromFile` | yosysZKP.cc:12-28 | the states of the 0 and 1 characters of the text, in order |
| `Cli.DigitsAppend` | yosysZKP.cc:17-26 | reading two texts in turn appends their bits |
| `Cli.DigitsRender` | yosysZKP.cc:12-28 | a bit vector written as 0s and 1s reads back as itself |
| `Cli.TraceOf` | ScrambledCircuit.cc:57-63 | the trace holds exactly the wires, and a wire is set iff it evaluates to S1 |
| `Cli.ZeroKeys` | ScrambledCircuit.cc:57-63 | every wire's key is 0 |
| `Cli.RoundSequenceCommits` | ScrambledCircuit.cc:34-43 | every round of the sequence commits the trace's output bits and one table per cell |
| `Cli.CommittedRoundsClaimOutputs` | yosysZKP.cc:76-95 | rounds built from a witness that produces the claimed outputs commit exactly those outputs |
| `Cli.CommitWitness` | yosysZKP.cc:86-95 | n pinned rounds written, each secret holding the row stored per cell; a satisfying witness never aborts, every commitment claims the outputs, and (with no constant ports) every opening validates |
| `Cli.ProverCreate` | yosysZKP.cc:65-95 | aborts unless the inputs produce the outputs read; otherwise the commitment and secret files of the pinned round sequence |
| `Cli.ProveeRespond` | yosysZKP.cc:97-124 | one verifier state per commitment, holding that commitment and its drawn bit, and the request of those bits |
| `Cli.ProverReveal` | yosysZKP.cc:125-152 | one opening per request bit, holding exactly the asked half of the matching secret |
| `Cli.CheckClaims` | yosysZKP.cc:174-181 | passes exactly when the commitment claims the bits read |
| `Cli.ProveeValidate` | yosysZKP.cc:153-203 | passing means every round claims the outputs and passes its half, and there are at least as many rounds as the security parameter; rounds in sufficient number that claim the outputs and pass their halves are accepted |
| `Cli.HonestRevealPasses` | yosysZKP.cc:140-195 | an honest prover's reveals pass the verifier's per-round checks |
| `Cli.HonestSession` | yosysZKP.cc:65-203 | with the corrected round, a witness that produces the claimed outputs and satisfies the circuit, run through all four actions, is accepted with one round per unit of the security parameter |

## Left out

- Loading the design (`load_module`, `enumerate_wires`, `m->sort()`, `splitnets`): the module arrives as a value. It holds its wires in sorted order, its output bits and its cells. Every wire is one bit wide.
- Yosys's `ConstEval` is replaced by the `value` function for whole-circuit evaluation and by per-cell gate functions for `TruthTable_from_gate`. That function is total, so the "Can't evaluate" aborts of TruthTable.cc:73-75 and 84-86 are not modelled.
- SHA-256 (TruthTable.cc:103-109) is a parameter. Soundness assumes it is injective; collision resistance is not modelled.
- Protocol Buffers encoding is not modelled. File records are opaque byte strings; messages are Dafny values.
- Randomness (`rand.GenerateBit`, nonces, `Shuffle`) comes in as parameters. The zero-knowledge property, which depends on the distribution of those bits, is not stated.
- Persisting agent state (`save_secret`, `read_secret`, `save_state`, `read_state`) is not modelled: it only serializes a message.
- The command line's argument-count checks and usage text are not modelled. Neither is deleting the secret file after `prover_reveal` (yosysZKP.cc:152), which is file-system I/O.
- Constant connection bits: `get_gate_ports` reads a constant's own value even from the key dictionary, because `zeroconst` is never set. A constant port is then masked with itself. Completeness and soundness are proved for cells without constant ports (`NoConsts`).
- `Provee.ProveeAgent.Proven` (ProveeAgent.cc:62-64) is modelled as written: confidence strictly above the security parameter. The command line accepts at `>=` (yosysZKP.cc:199). The one comparison carries no separate contract.
- `Framing.CodedFileReader.ReadFromStream`: the source returns `void`, yet the command line uses it as a loop condition. It is modelled as returning a record while a whole record remains, and nothing at the end of the stream; a truncated record counts as the end.
- `Cli.ProverReveal`: when the secret file has fewer records than the request has bits, the missing secrets are taken to be empty. The source leaves that case to the parser.
- `Prover.ProverAgent.WriteCommitmentPacket` calls `circuit.createProofRound()`, which `ScrambledCircuit` does not declare. It is modelled with the corrected `create_proof_round` of the first finding.
- `Cli.ProveeValidate` dispatches on the state's half as the source does, with the validators that demand one table per cell (second finding).
- `Cli.ProverCreate` calls the pinned round of the first finding, as do `Cli.CommitWitness` and `Cli.HonestSession`. yosysZKP.cc:87 calls `create_proof_round` as written, and on an honest witness that round can abort in `reveal_execution` (ScrambledCircuit.cc:105-107) when an output wire's key draws 1; `GarblingFindings.BufferRoundAsWrittenCannotReveal` exhibits such a witness. `Cli.HonestSession` is therefore completeness of the corrected session, not of the action as written.
- `WireMaps.WireValues.Deserialize` keeps the module's wire order. The iteration order left by `map.sort()` (WireValues.cc:23), which is the order of Yosys's interned name indices, is not modelled. No core path serializes a deserialized dict; the validators only look wires up by name.
- `WireMaps.DeserializeRoundTrip` holds for the model's wire order. For the source it holds only when the interned index order agrees with the wire order.
- `TruthTables.ContainsEntry`: success is guaranteed only for strictly ascending tables of uniform width, which is the shape of every table `FromGate` builds.
- `security_param` comes from `atoi`: a negative value gives zero rounds. Integer overflow of the round counters and of the confidence is not modelled.

## Findings

| source | as written | input that shows it | evidently intended | confidence | as-written member | corrected member |
|---|---|---|---|---|---|---|
| ScrambledCircuit.cc:20-43 | the output keys are drawn at random, the tables are scrambled with them, and only then are they set to 0 | a buffer y = a on a = 0, key bits a = 0 and y = 1: the only row matching the masked input carries output 1 while the key now says 0, so reveal_execution aborts on an honest prover | set the output keys to 0 before scrambling the tables | high, not executed | GarblingFindings.BufferRoundAsWrittenCannotReveal | GarblingProofs.PinnedRevealSucceeds |
| ScrambledCircuit.cc:132-226 | neither validator checks that the commitment has one table per cell; both loop over the committed tables only | a constant-0 gate, a commitment with no tables claiming output 1, execution opening a = 0, y = 1 with row (0, 1), scrambling opening with zero keys and the canonical table: both halves are accepted | reject a commitment whose table count differs from the cell count | high, not executed | GarblingFindings.EmptyCommitmentPassesBothValidators | GarblingProofs.SpecialSoundness |
| ProveeAgent.cc:51-54 | both branches validate the scrambling half of the revealed round | any round whose challenge bit asks for the execution: the honest opening has no scrambling half and is rejected | validate the execution half when the bit is clear | high, not executed | Provee.ExecutionOpeningFailsScramblingCheck | Provee.ProveeAgent.ReadRevealDispatched |

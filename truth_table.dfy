/** The truth-table engine: canonical tables built by enumeration, row masking,
    shuffling, row commitments and the masked-row lookup. */
module TruthTables {
  import opened Outcomes
  import opened Bits
  import opened Messages

  /** Bytes of fresh randomness given to every scrambled row. */
  const NONCE_SIZE: nat := 16

  /** Largest fan-in for which a truth table is built. */
  const MAX_GATE_INPUTS: nat := 16

  /** The randomness one table scramble consumes: a nonce per row, and for
      position i of the Fisher-Yates shuffle the index picks[i] it swaps with. */
  datatype TableCoins = TableCoins(nonces: seq<seq<bv8>>, picks: seq<nat>)

  // ---------------------------------------------------------------------------
  // Specification functions

  /** Table t is the canonical table of `gate` on k inputs: row n holds the
      binary expansion of n and the gate's output on it, with an empty nonce. */
  ghost predicate CanonicalFor(t: Table, k: nat, gate: seq<bool> -> seq<bool>)
  {
    |t| == Pow2(k) &&
    forall n :: 0 <= n < |t| ==> t[n] == Entry(NatToBits(n, k), gate(NatToBits(n, k)), [])
  }

  /** Every row has an input vector of width w. */
  ghost predicate UniformWidth(t: Table, w: nat)
  {
    forall n :: 0 <= n < |t| ==> |t[n].inputs| == w
  }

  /** No two rows share an input vector. */
  ghost predicate DistinctInputs(t: Table)
  {
    forall p, q :: 0 <= p < q < |t| ==> t[p].inputs != t[q].inputs
  }

  /** Rows are strictly ascending by input vector, the highest index being the
      most significant bit. */
  ghost predicate StrictlyAscending(t: Table)
  {
    forall p, q :: 0 <= p < q < |t| ==>
      |t[p].inputs| == |t[q].inputs| && Compare(t[p].inputs, t[q].inputs) == -1
  }

  /** Some row of t has exactly these input and output vectors. */
  ghost predicate HasRow(t: Table, inputs: seq<bool>, outputs: seq<bool>)
  {
    exists n :: 0 <= n < |t| && t[n].inputs == inputs && t[n].outputs == outputs
  }

  /** A row with its input and output bits XORed with the keys and a new nonce. */
  function ScrambledEntry(e: Entry, inputKey: seq<bool>, outputKey: seq<bool>, nonce: seq<bv8>): Entry
  {
    Entry(Mask(e.inputs, inputKey), Mask(e.outputs, outputKey), nonce)
  }

  /** Every row masked with the same key vectors, row n getting nonces[n]. */
  function MaskRows(t: Table, inputKey: seq<bool>, outputKey: seq<bool>, nonces: seq<seq<bv8>>): (r: Table)
    requires |nonces| >= |t|
    ensures |r| == |t|
  {
    seq(|t|, n requires 0 <= n < |t| => ScrambledEntry(t[n], inputKey, outputKey, nonces[n]))
  }

  /** The (inputs, outputs) pairs of a table after XORing with the keys. */
  function Unmasked(t: Table, inputKey: seq<bool>, outputKey: seq<bool>): seq<(seq<bool>, seq<bool>)>
  {
    MapSeq((e: Entry) => (Mask(e.inputs, inputKey), Mask(e.outputs, outputKey)), t)
  }

  /** The (inputs, outputs) pairs of a table, nonces dropped. */
  function Rows(t: Table): seq<(seq<bool>, seq<bool>)>
  {
    MapSeq((e: Entry) => (e.inputs, e.outputs), t)
  }

  function MapSeq<T, U>(f: T -> U, s: seq<T>): (r: seq<U>)
    ensures |r| == |s| && forall n :: 0 <= n < |s| ==> r[n] == f(s[n])
  {
    seq(|s|, n requires 0 <= n < |s| => f(s[n]))
  }

  function Swap<T>(s: seq<T>, i: nat, j: nat): (r: seq<T>)
    requires i < |s| && j < |s|
    ensures |r| == |s|
  {
    s[i := s[j]][j := s[i]]
  }

  /** Fisher-Yates picks for n elements: position i swaps with some j, i <= j < n. */
  ghost predicate ValidPicks(picks: seq<nat>, n: nat)
  {
    |picks| >= n && forall i :: 0 <= i < n ==> i <= picks[i] < n
  }

  /** The shuffle from position i on: swap s[i] with s[picks[i]], then go on. */
  function ShuffleFrom<T>(s: seq<T>, picks: seq<nat>, i: nat): (r: seq<T>)
    requires ValidPicks(picks, |s|)
    ensures |r| == |s|
    decreases |s| - i
  {
    if i >= |s| then s else ShuffleFrom(Swap(s, i, picks[i]), picks, i + 1)
  }

  function Shuffled<T>(s: seq<T>, picks: seq<nat>): (r: seq<T>)
    requires ValidPicks(picks, |s|)
  {
    ShuffleFrom(s, picks, 0)
  }

  /** What the table scramble yields: every row masked, then shuffled. */
  function ScrambledTable(t: Table, inputKey: seq<bool>, outputKey: seq<bool>, coins: TableCoins): (r: Table)
    requires |coins.nonces| >= |t| && ValidPicks(coins.picks, |t|)
    ensures |r| == |t|
  {
    Shuffled(MaskRows(t, inputKey, outputKey, coins.nonces), coins.picks)
  }

  /** The hashes of a table's rows, in table order. */
  function Hashes(t: Table, hash: Entry -> Digest): (r: seq<Digest>)
    ensures |r| == |t|
  {
    MapSeq(hash, t)
  }

  /** A row matches an input vector x when its first |x| input bits are x. */
  predicate Matches(e: Entry, x: seq<bool>)
  {
    |e.inputs| >= |x| && e.inputs[..|x|] == x
  }

  /** The number of rows matching x. */
  function MatchCount(t: Table, x: seq<bool>): nat
  {
    if t == [] then 0
    else MatchCount(t[..|t| - 1], x) + (if Matches(t[|t| - 1], x) then 1 else 0)
  }

  // ---------------------------------------------------------------------------
  // Operations

  /** The enumeration loop of TruthTable_from_gate: a gate with more than 16
      input bits is rejected; otherwise the k-bit counter starts at 0, each
      step appends the row for the counter and increments it modulo 2^k, and
      the loop stops when the counter wraps to 0. */
  method FromGate(k: nat, gate: seq<bool> -> seq<bool>) returns (r: Result<Table>)
    ensures r.Fatal? <==> k > MAX_GATE_INPUTS
    ensures r.Ok? ==> CanonicalFor(r.value, k, gate)
  {
    if k > MAX_GATE_INPUTS {
      return Fatal("gate has too many inputs");
    }
    var table: Table := [];
    var invalue: nat := 0;
    var first := true;
    while first || invalue != 0
      invariant first ==> table == [] && invalue == 0
      invariant !first ==> 1 <= |table| <= Pow2(k)
      invariant !first ==> (invalue == 0 <==> |table| == Pow2(k))
      invariant invalue != 0 ==> invalue == |table|
      invariant forall n :: 0 <= n < |table| ==> table[n] == Entry(NatToBits(n, k), gate(NatToBits(n, k)), [])
      decreases Pow2(k) - |table|, if first then 1 else 0
    {
      var bits := NatToBits(invalue, k);
      table := table + [Entry(bits, gate(bits), [])];
      // const_add truncated to k bits: the counter wraps from 2^k - 1 to 0
      invalue := if invalue + 1 == Pow2(k) then 0 else invalue + 1;
      first := false;
    }
    return Ok(table);
  }

  /** The test TruthTable_check makes of the ordered pair of rows p, q: row q is
      read at every index of row p's inputs, so it must be at least as wide, and
      it fails when row p's inputs are a prefix of row q's. */
  ghost predicate PairPasses(t: Table, p: nat, q: nat)
    requires p < |t| && q < |t|
  {
    |t[p].inputs| <= |t[q].inputs| && t[p].inputs != t[q].inputs[..|t[p].inputs|]
  }

  /** Every ordered pair of distinct rows passes PairPasses. */
  ghost predicate PrefixFree(t: Table)
  {
    forall p, q :: 0 <= p < |t| && 0 <= q < |t| && p != q ==> PairPasses(t, p, q)
  }

  /** TruthTable_check: for every ordered pair of distinct rows it compares the
      first row's inputs with the same number of leading inputs of the second.
      A second row that is shorter is read out of range, and a match aborts. */
  method CheckTable(t: Table) returns (r: Result<()>)
    ensures r.Ok? <==> PrefixFree(t)
  {
    var i := 0;
    while i < |t|
      invariant 0 <= i <= |t|
      invariant forall p, q :: 0 <= p < i && 0 <= q < |t| && p != q ==> PairPasses(t, p, q)
    {
      var j := 0;
      while j < |t|
        invariant 0 <= j <= |t|
        invariant forall q :: 0 <= q < j && q != i ==> PairPasses(t, i, q)
      {
        if j != i {
          var matches := true;
          var k := 0;
          while k < |t[i].inputs|
            invariant 0 <= k <= |t[i].inputs| && k <= |t[j].inputs|
            invariant matches <==> t[i].inputs[..k] == t[j].inputs[..k]
          {
            if k >= |t[j].inputs| {
              assert !PairPasses(t, i, j);
              return Fatal("truth table row read out of range");
            }
            if t[i].inputs[k] != t[j].inputs[k] {
              matches := false;
            }
            assert t[i].inputs[..k + 1] == t[i].inputs[..k] + [t[i].inputs[k]];
            assert t[j].inputs[..k + 1] == t[j].inputs[..k] + [t[j].inputs[k]];
            k := k + 1;
          }
          assert t[i].inputs[..k] == t[i].inputs;
          if matches {
            assert !PairPasses(t, i, j);
            return Fatal("Truth Table integrity check failed");
          }
        }
        j := j + 1;
      }
      i := i + 1;
    }
    return Ok(());
  }

  /** The pairwise prefix test passes exactly when all rows are equally wide and
      no two share an input vector. */
  lemma PrefixFreeIff(t: Table)
    ensures PrefixFree(t) <==>
              (forall p, q :: 0 <= p < |t| && 0 <= q < |t| ==> |t[p].inputs| == |t[q].inputs|) && DistinctInputs(t)
  {
    if PrefixFree(t) {
      forall p, q | 0 <= p < |t| && 0 <= q < |t|
        ensures |t[p].inputs| == |t[q].inputs|
      {
        if p != q {
          assert PairPasses(t, p, q) && PairPasses(t, q, p);
        }
      }
      forall p, q | 0 <= p < q < |t|
        ensures t[p].inputs != t[q].inputs
      {
        assert PairPasses(t, p, q) && PairPasses(t, q, p);
        assert t[q].inputs[..|t[p].inputs|] == t[q].inputs;
      }
    }
    if (forall p, q :: 0 <= p < |t| && 0 <= q < |t| ==> |t[p].inputs| == |t[q].inputs|) && DistinctInputs(t) {
      forall p, q | 0 <= p < |t| && 0 <= q < |t| && p != q
        ensures PairPasses(t, p, q)
      {
        assert |t[p].inputs| == |t[q].inputs|;
        assert t[q].inputs[..|t[p].inputs|] == t[q].inputs;
        if p < q {
          assert t[p].inputs != t[q].inputs;
        } else {
          assert t[q].inputs != t[p].inputs;
        }
      }
    }
  }

  /** TruthTableEntry_verify_computation: a length mismatch is fatal; otherwise
      the answer is whether the row's vectors equal the given ones. */
  method VerifyComputation(e: Entry, i: seq<bool>, o: seq<bool>) returns (r: Result<bool>)
    ensures r.Fatal? <==> |i| != |e.inputs| || |o| != |e.outputs|
    ensures r.Ok? ==> (r.value <==> e.inputs == i && e.outputs == o)
  {
    if |i| != |e.inputs| || |o| != |e.outputs| {
      return Fatal("Tried to verify computation with wrong sized vector");
    }
    var n := 0;
    while n < |i|
      invariant 0 <= n <= |i|
      invariant e.inputs[..n] == i[..n]
    {
      if e.inputs[n] != i[n] {
        return Ok(false);
      }
      assert e.inputs[..n + 1] == e.inputs[..n] + [e.inputs[n]];
      assert i[..n + 1] == i[..n] + [i[n]];
      n := n + 1;
    }
    assert e.inputs == e.inputs[..n] && i == i[..n];
    n := 0;
    while n < |o|
      invariant 0 <= n <= |o|
      invariant e.outputs[..n] == o[..n]
    {
      if e.outputs[n] != o[n] {
        return Ok(false);
      }
      assert e.outputs[..n + 1] == e.outputs[..n] + [e.outputs[n]];
      assert o[..n + 1] == o[..n] + [o[n]];
      n := n + 1;
    }
    assert e.outputs == e.outputs[..n] && o == o[..n];
    return Ok(true);
  }

  /** XOR the first |key| bits of a vector with the key, one position at a time. */
  method MaskInPlace(bits: seq<bool>, key: seq<bool>) returns (r: seq<bool>)
    requires |key| <= |bits|
    ensures r == Mask(bits, key)
  {
    r := bits;
    var n := 0;
    while n < |key|
      invariant 0 <= n <= |key| && |r| == |bits|
      invariant forall m :: 0 <= m < n ==> r[m] == (bits[m] != key[m])
      invariant forall m :: n <= m < |bits| ==> r[m] == bits[m]
    {
      r := r[n := r[n] != key[n]];
      n := n + 1;
    }
  }

  /** TruthTableEntry_scramble: XOR input bit n with inputKey[n] and output bit n
      with outputKey[n], then store a fresh NONCE_SIZE-byte nonce. */
  method ScrambleEntry(e: Entry, inputKey: seq<bool>, outputKey: seq<bool>, nonce: seq<bv8>) returns (r: Entry)
    requires |inputKey| <= |e.inputs| && |outputKey| <= |e.outputs|
    requires |nonce| == NONCE_SIZE
    ensures r == ScrambledEntry(e, inputKey, outputKey, nonce)
    ensures |r.inputs| == |e.inputs| && |r.outputs| == |e.outputs| && |r.nonce| == NONCE_SIZE
  {
    var ins := MaskInPlace(e.inputs, inputKey);
    var outs := MaskInPlace(e.outputs, outputKey);
    r := Entry(ins, outs, nonce);
  }

  /** TruthTable_get_commitment: one hash per row, in table order. */
  method TableCommitment(t: Table, hash: Entry -> Digest) returns (hs: seq<Digest>)
    ensures |hs| == |t|
    ensures forall i :: 0 <= i < |t| ==> hs[i] == hash(t[i])
  {
    hs := [];
    var i := 0;
    while i < |t|
      invariant 0 <= i <= |t| && |hs| == i
      invariant forall m :: 0 <= m < i ==> hs[m] == hash(t[m])
    {
      hs := hs + [hash(t[i])];
      i := i + 1;
    }
  }

  /** The random shuffle of a sequence in place: for each position i in turn,
      swap it with position picks[i] at or after it. */
  method Shuffle<T>(a: array<T>, picks: seq<nat>)
    requires ValidPicks(picks, a.Length)
    modifies a
    ensures a[..] == Shuffled(old(a[..]), picks)
  {
    var i := 0;
    while i < a.Length
      invariant 0 <= i <= a.Length
      invariant ShuffleFrom(a[..], picks, i) == Shuffled(old(a[..]), picks)
    {
      var j := picks[i];
      assert Swap(a[..], i, j) == a[..][i := a[j]][j := a[i]];
      a[i], a[j] := a[j], a[i];
      i := i + 1;
    }
  }

  /** TruthTable_scramble: scramble every row with the same keys, then shuffle. */
  method ScrambleTable(t: array<Entry>, inputKey: seq<bool>, outputKey: seq<bool>, coins: TableCoins)
    requires forall n :: 0 <= n < t.Length ==> |inputKey| <= |t[n].inputs| && |outputKey| <= |t[n].outputs|
    requires |coins.nonces| >= t.Length && forall n :: 0 <= n < t.Length ==> |coins.nonces[n]| == NONCE_SIZE
    requires ValidPicks(coins.picks, t.Length)
    modifies t
    ensures t[..] == ScrambledTable(old(t[..]), inputKey, outputKey, coins)
  {
    var n := 0;
    while n < t.Length
      invariant 0 <= n <= t.Length
      invariant forall m :: 0 <= m < n ==> t[m] == ScrambledEntry(old(t[m]), inputKey, outputKey, coins.nonces[m])
      invariant forall m :: n <= m < t.Length ==> t[m] == old(t[m])
    {
      t[n] := ScrambleEntry(t[n], inputKey, outputKey, coins.nonces[n]);
      n := n + 1;
    }
    assert t[..] == MaskRows(old(t[..]), inputKey, outputKey, coins.nonces);
    Shuffle(t, coins.picks);
  }

  /** Compare two input vectors the way the lookup's inner loop does: from the
      highest index of `a` down, the first differing bit decides. */
  method CompareBits(a: seq<bool>, b: seq<bool>) returns (c: int)
    requires |a| <= |b|
    ensures c == Compare(a, b[..|a|])
  {
    var i := |a|;
    assert a[..i] == a;
    while i > 0
      invariant 0 <= i <= |a|
      invariant Compare(a, b[..|a|]) == Compare(a[..i], b[..i])
    {
      i := i - 1;
      assert a[..i + 1][..i] == a[..i] && b[..i + 1][..i] == b[..i];
      if a[i] && !b[i] {
        return 1;
      }
      if !a[i] && b[i] {
        return -1;
      }
    }
    return 0;
  }

  /** XOR a vector with a key at least as long, building a new vector. */
  method UnmaskCopy(bits: seq<bool>, key: seq<bool>) returns (r: seq<bool>)
    requires |key| >= |bits|
    ensures r == Mask(bits, key)
  {
    r := [];
    var i := 0;
    while i < |bits|
      invariant 0 <= i <= |bits| && |r| == i
      invariant forall m :: 0 <= m < i ==> r[m] == (bits[m] != key[m])
    {
      r := r + [bits[i] != key[i]];
      i := i + 1;
    }
  }

  /** In a strictly ascending table of uniform width holding row k0 with
      input vector u, comparing row p with u tells on which side of p row k0
      lies. */
  lemma SearchStep(tt: Table, u: seq<bool>, k0: nat, p: nat)
    requires UniformWidth(tt, |u|) && StrictlyAscending(tt)
    requires k0 < |tt| && p < |tt| && tt[k0].inputs == u
    ensures Compare(tt[p].inputs, u) == 1 ==> k0 < p
    ensures Compare(tt[p].inputs, u) == -1 ==> p < k0
    ensures Compare(tt[p].inputs, u) != 1 && Compare(tt[p].inputs, u) != -1 ==> p == k0
  {
    CompareIsNumeric(tt[p].inputs, u);
    if p < k0 {
      assert Compare(tt[p].inputs, tt[k0].inputs) == -1;
    } else if k0 < p {
      assert Compare(tt[k0].inputs, tt[p].inputs) == -1;
      CompareIsNumeric(tt[k0].inputs, tt[p].inputs);
    }
  }

  /** TruthTable_contains_entry: unmask the row with the keys, binary-search the
      canonical table for its input vector and check the row found. Reading a
      key or the unmasked vector beyond its end is an abort. */
  method ContainsEntry(tt: Table, entry: Entry, inputKey: seq<bool>, outputKey: seq<bool>) returns (r: Result<bool>)
    ensures r.Ok? && r.value ==> HasRow(tt, Mask(entry.inputs, inputKey), Mask(entry.outputs, outputKey))
    ensures |tt| == 0 && |inputKey| >= |entry.inputs| && |outputKey| >= |entry.outputs| ==> r == Ok(false)
    ensures (&& |inputKey| >= |entry.inputs| && |outputKey| >= |entry.outputs|
             && UniformWidth(tt, |entry.inputs|) && StrictlyAscending(tt)
             && HasRow(tt, Mask(entry.inputs, inputKey), Mask(entry.outputs, outputKey)))
            ==> r == Ok(true)
  {
    if |inputKey| < |entry.inputs| || |outputKey| < |entry.outputs| {
      return Fatal("key index out of range");
    }
    var u := UnmaskCopy(entry.inputs, inputKey);
    var uo := UnmaskCopy(entry.outputs, outputKey);
    ghost var want := UniformWidth(tt, |u|) && StrictlyAscending(tt) && HasRow(tt, u, uo);
    ghost var k0 := 0;
    if want {
      k0 :| 0 <= k0 < |tt| && tt[k0].inputs == u && tt[k0].outputs == uo;
    }
    var min, max := 0, |tt| - 1;
    while max > min
      invariant 0 <= min && max < |tt| && min <= max + 1
      invariant want ==> min <= k0 <= max
      decreases max - min
    {
      var ave := min + (max - min) / 2;
      var comp := tt[ave];
      if |comp.inputs| > |u| {
        return Fatal("input index out of range");
      }
      var c := CompareBits(comp.inputs, u);
      if want {
        assert |comp.inputs| == |u| && u[..|comp.inputs|] == u;
        SearchStep(tt, u, k0, ave);
      }
      if c == 1 {
        max := ave - 1;
      } else if c == -1 {
        min := ave + 1;
      } else {
        min, max := ave, ave;
      }
    }
    if max != min {
      return Ok(false);
    }
    r := VerifyComputation(tt[min], u, uo);
  }

  // ---------------------------------------------------------------------------
  // Properties

  /** Scrambling a row twice with the same keys restores its bits. */
  lemma ScrambleEntryTwice(e: Entry, inputKey: seq<bool>, outputKey: seq<bool>, n1: seq<bv8>, n2: seq<bv8>)
    ensures var twice := ScrambledEntry(ScrambledEntry(e, inputKey, outputKey, n1), inputKey, outputKey, n2);
            twice.inputs == e.inputs && twice.outputs == e.outputs && twice.nonce == n2
  {
    MaskInvolution(e.inputs, inputKey);
    MaskInvolution(e.outputs, outputKey);
  }

  lemma SwapPermutes<T>(s: seq<T>, i: nat, j: nat)
    requires i < |s| && j < |s|
    ensures multiset(Swap(s, i, j)) == multiset(s)
  {
    var t := s[i := s[j]];
    assert multiset(t) == multiset(s) - multiset{s[i]} + multiset{s[j]};
    assert t[j] == (if i == j then s[j] else s[j]);
  }

  /** The shuffle is a permutation. */
  lemma {:induction false} ShufflePermutes<T>(s: seq<T>, picks: seq<nat>, i: nat)
    requires ValidPicks(picks, |s|)
    ensures multiset(ShuffleFrom(s, picks, i)) == multiset(s)
    decreases |s| - i
  {
    if i < |s| {
      SwapPermutes(s, i, picks[i]);
      ShufflePermutes(Swap(s, i, picks[i]), picks, i + 1);
    }
  }

  /** Mapping a function over the elements commutes with the shuffle. */
  lemma {:induction false} ShuffleMap<T, U>(f: T -> U, s: seq<T>, picks: seq<nat>, i: nat)
    requires ValidPicks(picks, |s|)
    ensures MapSeq(f, ShuffleFrom(s, picks, i)) == ShuffleFrom(MapSeq(f, s), picks, i)
    decreases |s| - i
  {
    if i < |s| {
      assert MapSeq(f, Swap(s, i, picks[i])) == Swap(MapSeq(f, s), i, picks[i]);
      ShuffleMap(f, Swap(s, i, picks[i]), picks, i + 1);
    }
  }

  /** Unmasking a scrambled table with the keys it was scrambled with gives back
      the original rows, as a multiset: the scramble only relabels and reorders. */
  lemma ScrambleRestoresRows(t: Table, inputKey: seq<bool>, outputKey: seq<bool>, coins: TableCoins)
    requires |coins.nonces| >= |t| && ValidPicks(coins.picks, |t|)
    ensures multiset(Unmasked(ScrambledTable(t, inputKey, outputKey, coins), inputKey, outputKey)) == multiset(Rows(t))
  {
    var f := (e: Entry) => (Mask(e.inputs, inputKey), Mask(e.outputs, outputKey));
    var masked := MaskRows(t, inputKey, outputKey, coins.nonces);
    ShuffleMap(f, masked, coins.picks, 0);
    forall n | 0 <= n < |t|
      ensures MapSeq(f, masked)[n] == Rows(t)[n]
    {
      MaskInvolution(t[n].inputs, inputKey);
      MaskInvolution(t[n].outputs, outputKey);
    }
    assert MapSeq(f, masked) == Rows(t);
    ShufflePermutes(Rows(t), coins.picks, 0);
  }

  /** The scrambled table is a permutation of the per-row scrambled entries. */
  lemma ScrambledTableIsPermutation(t: Table, inputKey: seq<bool>, outputKey: seq<bool>, coins: TableCoins)
    requires |coins.nonces| >= |t| && ValidPicks(coins.picks, |t|)
    ensures multiset(ScrambledTable(t, inputKey, outputKey, coins)) == multiset(MaskRows(t, inputKey, outputKey, coins.nonces))
  {
    ShufflePermutes(MaskRows(t, inputKey, outputKey, coins.nonces), coins.picks, 0);
  }

  /** A canonical table has equally wide, pairwise distinct input vectors, so it passes CheckTable. */
  lemma CanonicalDistinct(t: Table, k: nat, gate: seq<bool> -> seq<bool>)
    requires CanonicalFor(t, k, gate)
    ensures DistinctInputs(t) && PrefixFree(t)
  {
    forall p, q | 0 <= p < q < |t|
      ensures t[p].inputs != t[q].inputs
    {
      if t[p].inputs == t[q].inputs {
        NatToBitsInjective(p, q, k);
      }
    }
    PrefixFreeIff(t);
  }

  /** A canonical table is strictly ascending, so the lookup's binary search applies. */
  lemma CanonicalAscending(t: Table, k: nat, gate: seq<bool> -> seq<bool>)
    requires CanonicalFor(t, k, gate)
    ensures StrictlyAscending(t) && UniformWidth(t, k)
  {
    forall p, q | 0 <= p < q < |t|
      ensures |t[p].inputs| == |t[q].inputs| && Compare(t[p].inputs, t[q].inputs) == -1
    {
      NatToBitsAscending(p, q, k);
    }
  }

  /** The row of a canonical table for input x is at index Value(x). */
  lemma CanonicalRowAt(t: Table, k: nat, gate: seq<bool> -> seq<bool>, x: seq<bool>)
    requires CanonicalFor(t, k, gate) && |x| == k
    ensures Value(x) < |t| && t[Value(x)].inputs == x && t[Value(x)].outputs == gate(x)
    ensures forall n :: 0 <= n < |t| && t[n].inputs == x ==> n == Value(x)
  {
    ValueBound(x);
    NatToBitsOfValue(x);
    forall n | 0 <= n < |t| && t[n].inputs == x
      ensures n == Value(x)
    {
      NatToBitsInjective(n, Value(x), k);
    }
  }

  lemma {:induction false} MatchCountAppend(a: Table, b: Table, x: seq<bool>)
    ensures MatchCount(a + b, x) == MatchCount(a, x) + MatchCount(b, x)
    decreases |b|
  {
    if b != [] {
      assert (a + b)[..|a + b| - 1] == a + b[..|b| - 1];
      assert (a + b)[|a + b| - 1] == b[|b| - 1];
      MatchCountAppend(a, b[..|b| - 1], x);
    } else {
      assert a + b == a;
    }
  }

  /** Two tables with the same rows, in any order, match x equally often. */
  lemma {:induction false} MatchCountPermutation(a: Table, b: Table, x: seq<bool>)
    requires multiset(a) == multiset(b)
    ensures MatchCount(a, x) == MatchCount(b, x)
    decreases |a|
  {
    if a == [] {
      assert |b| == |multiset(b)| == 0;
    } else {
      var e := a[|a| - 1];
      assert e in multiset(b);
      var j :| 0 <= j < |b| && b[j] == e;
      var rest := b[..j] + b[j + 1..];
      assert b == b[..j] + [e] + b[j + 1..];
      assert a == a[..|a| - 1] + [e];
      assert multiset(rest) == multiset(b) - multiset{e};
      MatchCountPermutation(a[..|a| - 1], rest, x);
      MatchCountAppend(b[..j], [e], x);
      MatchCountAppend(b[..j] + [e], b[j + 1..], x);
      MatchCountAppend(b[..j], b[j + 1..], x);
      assert MatchCount([e], x) == (if Matches(e, x) then 1 else 0) by {
        assert [e][..0] == [];
      }
    }
  }

  /** A table in which exactly row m matches x has one match. */
  lemma {:induction false} MatchCountSingle(t: Table, x: seq<bool>, m: nat)
    requires m < |t| && Matches(t[m], x)
    requires forall n :: 0 <= n < |t| && Matches(t[n], x) ==> n == m
    ensures MatchCount(t, x) == 1
  {
    var i := |t|;
    assert t[..i] == t;
    while i > m + 1
      invariant m + 1 <= i <= |t|
      invariant MatchCount(t, x) == MatchCount(t[..i], x)
    {
      assert t[..i - 1] == t[..i][..i - 1];
      i := i - 1;
    }
    assert t[..m + 1][..m] == t[..m];
    MatchCountNone(t[..m], x);
  }

  lemma {:induction false} MatchCountNone(t: Table, x: seq<bool>)
    requires forall n :: 0 <= n < |t| ==> !Matches(t[n], x)
    ensures MatchCount(t, x) == 0
  {
    if t != [] {
      MatchCountNone(t[..|t| - 1], x);
    }
  }

  /** Honest lookup: in the scramble of a canonical table, exactly one row's
      inputs equal x masked with the input key, and that row's outputs are the
      gate's output on x masked with the output key. */
  lemma HonestRowUnique(t: Table, k: nat, gate: seq<bool> -> seq<bool>, inputKey: seq<bool>,
                        outputKey: seq<bool>, coins: TableCoins, x: seq<bool>)
    requires CanonicalFor(t, k, gate) && |x| == k && |inputKey| == k
    requires |coins.nonces| >= |t| && ValidPicks(coins.picks, |t|)
    ensures var s := ScrambledTable(t, inputKey, outputKey, coins);
            MatchCount(s, Mask(x, inputKey)) == 1 &&
            forall e :: e in s && Matches(e, Mask(x, inputKey)) ==> e.outputs == Mask(gate(x), outputKey)
  {
    var masked := MaskRows(t, inputKey, outputKey, coins.nonces);
    var s := ScrambledTable(t, inputKey, outputKey, coins);
    var y := Mask(x, inputKey);
    CanonicalRowAt(t, k, gate, x);
    var m := Value(x);
    forall n | 0 <= n < |masked|
      ensures Matches(masked[n], y) <==> n == m
    {
      assert masked[n].inputs[..|y|] == masked[n].inputs;
      if masked[n].inputs == y {
        MaskInjective(t[n].inputs, x, inputKey);
      }
    }
    MatchCountSingle(masked, y, m);
    ScrambledTableIsPermutation(t, inputKey, outputKey, coins);
    MatchCountPermutation(s, masked, y);
    forall e | e in s && Matches(e, y)
      ensures e.outputs == Mask(gate(x), outputKey)
    {
      assert e in multiset(masked);
      var n :| 0 <= n < |masked| && masked[n] == e;
    }
  }
}

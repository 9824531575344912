/** Name-keyed wire-value maps (WireValues.cc): a Yosys dictionary from wire
    name to one bit, serialized by position in the module's wire order. */
module WireMaps {

  ghost predicate Distinct(s: seq<string>)
  {
    forall i, j :: 0 <= i < j < |s| ==> s[i] != s[j]
  }

  /** A dictionary from wire name to bit: its keys in iteration order, and the
      value of each key. */
  datatype WireMap = WireMap(order: seq<string>, values: map<string, bool>)
  {
    ghost predicate Valid()
    {
      Distinct(order) && forall w :: w in values <==> w in order
    }

    /** The bit stored for a name; a name not present reads as 0. */
    function Get(w: string): bool
    {
      if w in values then values[w] else false
    }

    /** Store a bit: an existing key keeps its place, a new key goes last. */
    function Set(w: string, b: bool): WireMap
    {
      if w in values then WireMap(order, values[w := b]) else WireMap(order + [w], values[w := b])
    }
  }

  const Empty: WireMap := WireMap([], map[])

  /** The bits of a map in its iteration order. */
  function Serialized(m: WireMap): (ex: seq<bool>)
    ensures |ex| == |m.order|
  {
    seq(|m.order|, i requires 0 <= i < |m.order| => m.Get(m.order[i]))
  }

  /** The map built from the i-th wire to the i-th bit, in wire order. */
  function Zip(wires: seq<string>, ex: seq<bool>): WireMap
    requires |ex| >= |wires|
  {
    if wires == [] then Empty
    else Zip(wires[..|wires| - 1], ex).Set(wires[|wires| - 1], ex[|wires| - 1])
  }

  /** Set stores the bit, keeps the map valid and changes no other key. */
  lemma SetStores(m: WireMap, w: string, b: bool)
    requires m.Valid()
    ensures m.Set(w, b).Valid() && m.Set(w, b).Get(w) == b
    ensures forall v :: v != w ==> m.Set(w, b).Get(v) == m.Get(v)
    ensures w in m.order ==> m.Set(w, b).order == m.order
  {
  }

  /** Zip keys the map by exactly the wires, in wire order. */
  lemma {:induction false} ZipKeyed(wires: seq<string>, ex: seq<bool>)
    requires Distinct(wires) && |ex| >= |wires|
    ensures Zip(wires, ex).Valid() && Zip(wires, ex).order == wires
  {
    if wires != [] {
      var n := |wires|;
      var init := wires[..n - 1];
      assert Distinct(init);
      ZipKeyed(init, ex);
      assert wires[n - 1] !in init;
      SetStores(Zip(init, ex), wires[n - 1], ex[n - 1]);
      assert wires == init + [wires[n - 1]];
    }
  }

  /** In the zipped map, wire i holds bit i. */
  lemma {:induction false} ZipGet(wires: seq<string>, ex: seq<bool>, i: nat)
    requires Distinct(wires) && |ex| >= |wires| && i < |wires|
    ensures Zip(wires, ex).Get(wires[i]) == ex[i]
  {
    var n := |wires|;
    var init := wires[..n - 1];
    var w := wires[n - 1];
    assert Distinct(init);
    ZipKeyed(init, ex);
    var z := Zip(init, ex);
    assert Zip(wires, ex) == z.Set(w, ex[n - 1]);
    SetStores(z, w, ex[n - 1]);
    if i < n - 1 {
      assert wires[i] == init[i] && wires[i] != w;
      ZipGet(init, ex, i);
    }
  }

  /** Zip keys the map by exactly the wires, in wire order, wire i holding bit i. */
  lemma ZipContents(wires: seq<string>, ex: seq<bool>)
    requires Distinct(wires) && |ex| >= |wires|
    ensures Zip(wires, ex).Valid() && Zip(wires, ex).order == wires
    ensures forall i :: 0 <= i < |wires| ==> Zip(wires, ex).Get(wires[i]) == ex[i]
  {
    ZipKeyed(wires, ex);
    forall i | 0 <= i < |wires|
      ensures Zip(wires, ex).Get(wires[i]) == ex[i]
    {
      ZipGet(wires, ex, i);
    }
  }

  /** Two valid maps with the same keys in the same order, agreeing on every
      key, are the same map. */
  lemma SameMap(a: WireMap, b: WireMap)
    requires a.Valid() && b.Valid() && a.order == b.order
    requires forall i :: 0 <= i < |a.order| ==> a.Get(a.order[i]) == b.Get(a.order[i])
    ensures a == b
  {
    assert a.values.Keys == b.values.Keys;
    forall w | w in a.values
      ensures a.values[w] == b.values[w]
    {
      var i :| 0 <= i < |a.order| && a.order[i] == w;
      assert a.Get(w) == b.Get(w);
    }
    assert a.values == b.values;
  }

  /** deserialize(serialize(m)) == m for a map keyed by the wires in wire order. */
  lemma SerializeRoundTrip(wires: seq<string>, m: WireMap)
    requires m.Valid() && m.order == wires
    ensures Zip(wires, Serialized(m)) == m
  {
    var ex := Serialized(m);
    ZipKeyed(wires, ex);
    forall i | 0 <= i < |wires|
      ensures Zip(wires, ex).Get(wires[i]) == m.Get(wires[i])
    {
      ZipGet(wires, ex, i);
    }
    SameMap(Zip(wires, ex), m);
  }

  /** serialize(deserialize(ex)) gives back the bits deserialize used. */
  lemma DeserializeRoundTrip(wires: seq<string>, ex: seq<bool>)
    requires Distinct(wires) && |ex| >= |wires|
    ensures Serialized(Zip(wires, ex)) == ex[..|wires|]
  {
    ZipContents(wires, ex);
  }

  class WireValues {
    /** The module's wires, in its (sorted) wire order. */
    const wires: seq<string>
    var dict: WireMap

    ghost predicate Valid()
      reads this
    {
      Distinct(wires) && dict.Valid()
    }

    constructor (wires: seq<string>)
      requires Distinct(wires)
      ensures Valid() && this.wires == wires && dict == Empty
    {
      this.wires := wires;
      dict := Empty;
    }

    /** WireValues::serialize: one bit per map entry, in iteration order. */
    method Serialize() returns (ex: seq<bool>)
      ensures |ex| == |dict.order|
      ensures forall i :: 0 <= i < |ex| ==> ex[i] == dict.Get(dict.order[i])
    {
      ex := [];
      var i := 0;
      while i < |dict.order|
        invariant 0 <= i <= |dict.order| && |ex| == i
        invariant forall j :: 0 <= j < i ==> ex[j] == dict.Get(dict.order[j])
      {
        ex := ex + [dict.Get(dict.order[i])];
        i := i + 1;
      }
    }

    /** WireValues::deserialize: drop the old contents and give the i-th wire
        the i-th bit. A message with fewer bits than wires is an out-of-range
        read, an abort, reported as false. The final `sort()` leaves the
        keys in the module's wire order. */
    method Deserialize(ex: seq<bool>) returns (ok: bool)
      requires Valid()
      modifies this
      ensures Valid()
      ensures ok <==> |ex| >= |wires|
      ensures ok ==> dict == Zip(wires, ex)
      ensures !ok ==> dict == old(dict)
    {
      if |ex| < |wires| {
        return false;
      }
      dict := Empty;
      var i := 0;
      while i < |wires|
        invariant 0 <= i <= |wires|
        invariant dict == Zip(wires[..i], ex)
      {
        assert wires[..i + 1][..i] == wires[..i];
        dict := dict.Set(wires[i], ex[i]);
        i := i + 1;
      }
      assert wires[..i] == wires;
      ZipContents(wires, ex);
      return true;
    }
  }
}

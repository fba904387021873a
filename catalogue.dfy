/** Specification of the DS18B20 device catalogue: which 1-Wire bus names are
    kept, in which order, and what one reading pass produces from them. */
module Catalogue {

  /** Linux 1-Wire sysfs names a DS18B20 "28-" followed by its serial number. */
  const FamilyCode: string := "28-"

  /** `sub` occurs in `s` starting at offset `i`. */
  predicate OccursAt(s: string, sub: string, i: int)
  {
    0 <= i && i + |sub| <= |s| && s[i..i + |sub|] == sub
  }

  /** `sub` occurs somewhere in `s`, at any offset (Java's String.contains). */
  predicate Contains(s: string, sub: string)
  {
    exists i | 0 <= i <= |s| :: OccursAt(s, sub, i)
  }

  /** The test a bus name passes to be catalogued. */
  predicate IsFamilyName(name: string)
  {
    Contains(name, FamilyCode)
  }

  /** The record produced for one catalogued device. The reading type is left
      open: the model only passes the bus master's value through. */
  datatype SensorData<T> = SensorData(devName: string, devTemp: T)

  /** The catalogue rebuilt from a bus enumeration: the family names, in
      enumeration order, repeats kept. */
  function Filter(bus: seq<string>): (r: seq<string>)
    ensures |r| <= |bus|
    ensures forall k :: 0 <= k < |r| ==> IsFamilyName(r[k]) && r[k] in bus
  {
    if bus == [] then []
    else
      var kept, last := Filter(bus[..|bus| - 1]), bus[|bus| - 1];
      if IsFamilyName(last) then kept + [last] else kept
  }

  /** The records one reading pass produces over a catalogue. `read(k, name)`
      is the value the k-th read of the pass returns for the device `name`:
      every catalogue entry is read on its own, so two entries with the same
      name may get different values. */
  function Readings<T>(devices: seq<string>, read: (nat, string) -> T): (r: seq<SensorData<T>>)
    ensures |r| == |devices|
    ensures forall k :: 0 <= k < |r| ==> r[k].devName == devices[k] && r[k].devTemp == read(k, devices[k])
  {
    if devices == [] then []
    else
      var n := |devices| - 1;
      Readings(devices[..n], read) + [SensorData(devices[n], read(n, devices[n]))]
  }

  /** The device names carried by a list of records. */
  function Names<T>(records: seq<SensorData<T>>): (r: seq<string>)
    ensures |r| == |records|
    ensures forall k :: 0 <= k < |r| ==> r[k] == records[k].devName
  {
    if records == [] then [] else [records[0].devName] + Names(records[1..])
  }

  /** A name is catalogued exactly when it was enumerated and carries the
      family code. */
  lemma {:induction false} FilterMembership(bus: seq<string>, x: string)
    ensures x in Filter(bus) <==> x in bus && IsFamilyName(x)
  {
    if bus != [] {
      var init, last := bus[..|bus| - 1], bus[|bus| - 1];
      assert bus == init + [last];
      FilterMembership(init, x);
    }
  }

  /** No deduplication: each name is kept as often as it was enumerated. */
  lemma {:induction false} FilterMultiplicity(bus: seq<string>, x: string)
    ensures multiset(Filter(bus))[x] == if IsFamilyName(x) then multiset(bus)[x] else 0
  {
    if bus != [] {
      var init, last := bus[..|bus| - 1], bus[|bus| - 1];
      assert bus == init + [last];
      FilterMultiplicity(init, x);
    }
  }

  /** Order preservation: the catalogue is the enumeration read at strictly
      increasing positions, and those positions are all the matching ones. */
  lemma {:induction false} FilterPositions(bus: seq<string>) returns (idx: seq<nat>)
    ensures |idx| == |Filter(bus)|
    ensures forall k :: 0 <= k < |idx| ==> idx[k] < |bus| && bus[idx[k]] == Filter(bus)[k]
    ensures forall k, l :: 0 <= k < l < |idx| ==> idx[k] < idx[l]
    ensures forall j :: 0 <= j < |bus| && IsFamilyName(bus[j]) ==> j in idx
  {
    if bus == [] {
      idx := [];
    } else {
      var n := |bus| - 1;
      var init := bus[..n];
      idx := FilterPositions(init);
      if IsFamilyName(bus[n]) {
        idx := idx + [n];
      }
    }
  }

  /** Enumerating two stretches of the bus one after the other catalogues the
      two stretches' family names one after the other. */
  lemma {:induction false} FilterAppend(a: seq<string>, b: seq<string>)
    ensures Filter(a + b) == Filter(a) + Filter(b)
  {
    if b != [] {
      var init, last := b[..|b| - 1], b[|b| - 1];
      assert a + b == (a + init) + [last];
      assert (a + b)[..|a + b| - 1] == a + init;
      FilterAppend(a, init);
    } else {
      assert a + b == a;
    }
  }

  /** The names carried by a reading pass are exactly the catalogue, in order. */
  lemma ReadingsNames<T>(devices: seq<string>, read: (nat, string) -> T)
    ensures Names(Readings(devices, read)) == devices
  {
  }

  /** A rebuild followed by a reading pass: one record per enumerated family
      name, in enumeration order; the pass gives no records exactly when no
      enumerated name carries the family code. */
  lemma RefreshThenRead<T>(bus: seq<string>, read: (nat, string) -> T)
    ensures Names(Readings(Filter(bus), read)) == Filter(bus)
    ensures forall k :: 0 <= k < |Readings(Filter(bus), read)| ==>
              IsFamilyName(Readings(Filter(bus), read)[k].devName)
    ensures Readings(Filter(bus), read) == [] <==> forall x :: x in bus ==> !IsFamilyName(x)
  {
  }

  /** A name passes the test exactly when the characters '2', '8', '-' stand
      next to each other somewhere in it. */
  lemma FamilyNameChars(name: string)
    ensures IsFamilyName(name) <==>
      exists i | 0 <= i && i + 3 <= |name| :: name[i] == '2' && name[i + 1] == '8' && name[i + 2] == '-'
  {
    if IsFamilyName(name) {
      var i :| 0 <= i <= |name| && OccursAt(name, FamilyCode, i);
      assert name[i..i + 3][0] == name[i] && name[i..i + 3][1] == name[i + 1] && name[i..i + 3][2] == name[i + 2];
    }
    if exists i | 0 <= i && i + 3 <= |name| :: name[i] == '2' && name[i + 1] == '8' && name[i + 2] == '-' {
      var i :| 0 <= i && i + 3 <= |name| && name[i] == '2' && name[i + 1] == '8' && name[i + 2] == '-';
      assert name[i..i + 3] == FamilyCode;
      assert OccursAt(name, FamilyCode, i);
    }
  }

  /** The family code need not lead the name: "28-" anywhere is accepted. */
  lemma FamilyCodeAnywhere(p: string, q: string)
    ensures IsFamilyName(p + FamilyCode + q)
  {
    var name := p + FamilyCode + q;
    assert name[|p|..|p| + 3] == FamilyCode;
    assert OccursAt(name, FamilyCode, |p|);
  }

  /** Conversely, every family name is some text, the family code, then some
      more text. */
  lemma FamilyNameSplits(name: string) returns (p: string, q: string)
    requires IsFamilyName(name)
    ensures name == p + FamilyCode + q
  {
    var i :| 0 <= i <= |name| && OccursAt(name, FamilyCode, i);
    p, q := name[..i], name[i + 3..];
    assert name == name[..i] + name[i..i + 3] + name[i + 3..];
  }
}

/** The residency table as the program keeps it: a dictionary per device, edited in place. */
module ResidencyTable {
  import opened GpuResidency

  // --- Device lists ---

  lemma ConsIncreasing(d: Device, rest: seq<Device>)
    requires Increasing(rest) && forall e :: e in rest ==> d < e
    ensures Increasing([d] + rest)
  {
    var s := [d] + rest;
    assert forall i :: 0 < i < |s| ==> s[i] == rest[i - 1] && rest[i - 1] in rest;
  }

  lemma HeadIsLeast(sorted: seq<Device>)
    requires Increasing(sorted) && sorted != []
    ensures Increasing(sorted[1..])
    ensures forall e :: e in sorted <==> e == sorted[0] || e in sorted[1..]
    ensures forall e :: e in sorted[1..] ==> sorted[0] < e
  {
    assert sorted == [sorted[0]] + sorted[1..];
  }

  function Insert(d: Device, sorted: seq<Device>): (r: seq<Device>)
    requires Increasing(sorted)
    ensures Increasing(r)
    ensures forall e :: e in r <==> e == d || e in sorted
  {
    if sorted == [] then [d]
    else
      HeadIsLeast(sorted);
      if d < sorted[0] then
        ConsIncreasing(d, sorted);
        [d] + sorted
      else if d == sorted[0] then sorted
      else
        ConsIncreasing(sorted[0], Insert(d, sorted[1..]));
        [sorted[0]] + Insert(d, sorted[1..])
  }

  /** The distinct ids that name an existing device, in increasing order. */
  function NormalizeDeviceIds(ids: seq<int>, count: int): (r: seq<Device>)
    ensures Increasing(r)
    ensures forall d: Device :: d in r <==> d in ids && d < count
  {
    if ids == [] then []
    else
      var rest := NormalizeDeviceIds(ids[1..], count);
      assert ids == [ids[0]] + ids[1..];
      if 0 <= ids[0] < count then Insert(ids[0], rest) else rest
  }

  /** There is only one such list, so leases that ask for the same devices lock them in the same order. */
  lemma {:induction false} IncreasingIsUnique(a: seq<Device>, b: seq<Device>)
    requires Increasing(a) && Increasing(b)
    requires forall d: Device :: d in a <==> d in b
    ensures a == b
    decreases |a|
  {
    if a != [] {
      assert a[0] in b;
    }
    if b != [] {
      assert b[0] in a;
    }
    if a != [] {
      assert a[0] in b && b[0] in a;
      assert a[0] == b[0];
      HeadIsLeast(a);
      HeadIsLeast(b);
      IncreasingIsUnique(a[1..], b[1..]);
      assert a == [a[0]] + a[1..] && b == [b[0]] + b[1..];
    }
  }

  // --- The table ---

  function Cells(byDevice: map<Device, map<Role, Record>>): set<(Device, Role)> {
    set d, p | d in byDevice && p in byDevice[d] :: (d, p)
  }

  function Flat(byDevice: map<Device, map<Role, Record>>): Residency {
    map k | k in Cells(byDevice) :: byDevice[k.0][k.1]
  }

  lemma FlatHas(byDevice: map<Device, map<Role, Record>>)
    ensures forall k :: k in Flat(byDevice) <==> k.0 in byDevice && k.1 in byDevice[k.0]
    ensures forall k :: k in Flat(byDevice) ==> Flat(byDevice)[k] == byDevice[k.0][k.1]
  {
    assert forall k :: k in Cells(byDevice) <==> k.0 in byDevice && k.1 in byDevice[k.0];
  }

  lemma SameFlat(byDevice: map<Device, map<Role, Record>>, loaded: Residency)
    requires forall k :: k in loaded <==> k.0 in byDevice && k.1 in byDevice[k.0]
    requires forall k :: k in loaded ==> loaded[k] == byDevice[k.0][k.1]
    ensures Flat(byDevice) == loaded
  {
    FlatHas(byDevice);
  }

  lemma PoppedStep(loaded: Residency, r: Record, devices: seq<Device>, d: Device)
    ensures PoppedFrom(PoppedFrom(loaded, r, devices), r, [d]) == PoppedFrom(loaded, r, devices + [d])
    ensures PoppedFrom(loaded, r, []) == loaded
  {
  }

  lemma PutStep(loaded: Residency, r: Record, devices: seq<Device>, d: Device)
    ensures PutOn(PutOn(loaded, r, devices), r, [d]) == PutOn(loaded, r, devices + [d])
    ensures PutOn(loaded, r, []) == loaded
  {
  }

  /** No device keeps an empty dictionary. */
  predicate NoneEmpty(byDevice: map<Device, map<Role, Record>>) {
    forall d :: d in byDevice ==> byDevice[d] != map[]
  }

  function PutCell(byDevice: map<Device, map<Role, Record>>, r: Record, d: Device): map<Device, map<Role, Record>> {
    byDevice[d := (if d in byDevice then byDevice[d] else map[])[r.role := r]]
  }

  function PopCell(byDevice: map<Device, map<Role, Record>>, r: Record, d: Device): map<Device, map<Role, Record>> {
    if d in byDevice && r.role in byDevice[d] && byDevice[d][r.role] == r then
      (if byDevice[d] - {r.role} == map[] then byDevice - {d} else byDevice[d := byDevice[d] - {r.role}])
    else byDevice
  }

  lemma PutFlat(byDevice: map<Device, map<Role, Record>>, r: Record, d: Device)
    requires NoneEmpty(byDevice)
    ensures NoneEmpty(PutCell(byDevice, r, d)) && Flat(PutCell(byDevice, r, d)) == PutOn(Flat(byDevice), r, [d])
  {
    var row := (if d in byDevice then byDevice[d] else map[])[r.role := r];
    assert r.role in row;
    var after := PutCell(byDevice, r, d);
    FlatHas(byDevice);
    hide Flat;
    var loaded := Flat(byDevice);
    forall k: (Device, Role) ensures k in PutOn(loaded, r, [d]) <==> k.0 in after && k.1 in after[k.0] {
      assert k in PutOn(loaded, r, [d]) <==> k in loaded || k == (d, r.role);
    }
    SameFlat(after, PutOn(loaded, r, [d]));
  }

  lemma PopFlat(byDevice: map<Device, map<Role, Record>>, r: Record, d: Device)
    requires NoneEmpty(byDevice)
    ensures NoneEmpty(PopCell(byDevice, r, d)) && Flat(PopCell(byDevice, r, d)) == PoppedFrom(Flat(byDevice), r, [d])
  {
    var after := PopCell(byDevice, r, d);
    FlatHas(byDevice);
    hide Flat;
    var loaded := Flat(byDevice);
    forall k: (Device, Role) ensures k in PoppedFrom(loaded, r, [d]) <==> k.0 in after && k.1 in after[k.0] {
      if k.0 == d && k in loaded && k.1 != r.role {
        assert k.1 in byDevice[d] - {r.role};
      }
    }
    SameFlat(after, PoppedFrom(loaded, r, [d]));
  }

  class LoadedModels {
    var byDevice: map<Device, map<Role, Record>>

    predicate Valid()
      reads this
    {
      NoneEmpty(byDevice)
    }

    function Contents(): Residency
      reads this
    {
      Flat(byDevice)
    }

    constructor ()
      ensures Valid() && Contents() == map[]
    {
      byDevice := map[];
    }

    /** Removes a record from one of its devices, if it is still there. */
    method PopFrom(r: Record, d: Device)
      requires Valid()
      modifies this
      ensures Valid() && Contents() == PoppedFrom(old(Contents()), r, [d])
    {
      PopFlat(byDevice, r, d);
      hide Flat, PoppedFrom, NoneEmpty;
      if d in byDevice && r.role in byDevice[d] && byDevice[d][r.role] == r {
        var rest := byDevice[d] - {r.role};
        if rest == map[] {
          byDevice := byDevice - {d};
        } else {
          byDevice := byDevice[d := rest];
        }
      }
    }

    method Remove(r: Record)
      requires Valid()
      modifies this
      ensures Valid() && Contents() == Popped(old(Contents()), r)
    {
      ghost var before := Contents();
      PoppedStep(before, r, [], 0);
      for i := 0 to |r.devices|
        invariant Valid()
        invariant Contents() == PoppedFrom(before, r, r.devices[..i])
      {
        PoppedStep(before, r, r.devices[..i], r.devices[i]);
        assert r.devices[..i + 1] == r.devices[..i] + [r.devices[i]];
        PopFrom(r, r.devices[i]);
      }
      assert r.devices[..|r.devices|] == r.devices;
    }

    method RegisterModel(r: Record)
      requires Valid()
      modifies this
      ensures Valid() && Contents() == Put(old(Contents()), r)
    {
      ghost var before := Contents();
      PutStep(before, r, [], 0);
      for i := 0 to |r.devices|
        invariant Valid()
        invariant Contents() == PutOn(before, r, r.devices[..i])
      {
        PutStep(before, r, r.devices[..i], r.devices[i]);
        assert r.devices[..i + 1] == r.devices[..i] + [r.devices[i]];
        PutAt(r, r.devices[i]);
      }
      assert r.devices[..|r.devices|] == r.devices;
    }

    method PutAt(r: Record, d: Device)
      requires Valid()
      modifies this
      ensures Valid() && Contents() == PutOn(old(Contents()), r, [d])
    {
      PutFlat(byDevice, r, d);
      hide Flat, PutOn, NoneEmpty;
      byDevice := byDevice[d := (if d in byDevice then byDevice[d] else map[])[r.role := r]];
    }

    /** The conflicting records with the device each was found on first, none twice. */
    method FindConflicting(l: Lease) returns (found: seq<(Device, Record)>)
      ensures Listed(found) == set r | r in ResidentOn(Contents(), l.devices) && Conflicts(r, l)
      ensures forall i, j :: 0 <= i < j < |found| ==> found[i].1 != found[j].1
      ensures FoundOn(Contents(), l.devices, found)
    {
      found := [];
      var seen: set<Record> := {};
      for i := 0 to |l.devices|
        invariant Lists(found, seen) && FoundOn(Contents(), l.devices, found)
        invariant seen == set r | r in ResidentOn(Contents(), l.devices[..i]) && Conflicts(r, l)
      {
        var d := l.devices[i];
        assert l.devices[..i + 1] == l.devices[..i] + [d];
        found, seen := ScanDevice(l, i, found, seen);
        ResidentOnMore(Contents(), l.devices[..i], d);
      }
      assert l.devices[..|l.devices|] == l.devices;
    }

    method ScanDevice(l: Lease, k: nat, found0: seq<(Device, Record)>, seen0: set<Record>)
      returns (found: seq<(Device, Record)>, seen: set<Record>)
      requires k < |l.devices| && Lists(found0, seen0) && FoundOn(Contents(), l.devices, found0)
      requires seen0 == set r | r in ResidentOn(Contents(), l.devices[..k]) && Conflicts(r, l)
      ensures Lists(found, seen) && FoundOn(Contents(), l.devices, found)
      ensures seen == seen0 + set r | r in ResidentOn(Contents(), [l.devices[k]]) && Conflicts(r, l)
    {
      var d := l.devices[k];
      found, seen := found0, seen0;
      ResidentOnOne(byDevice, d);
      hide Flat, ResidentOn, FoundOn, Lists, Conflicts;
      var todo := if d in byDevice then byDevice[d].Keys else {};
      while todo != {}
        invariant todo <= if d in byDevice then byDevice[d].Keys else {}
        invariant Lists(found, seen) && FoundOn(Contents(), l.devices, found) && seen0 <= seen
        invariant seen == seen0 + set p | d in byDevice && p in byDevice[d] && p !in todo
          && Conflicts(byDevice[d][p], l) :: byDevice[d][p]
        decreases |todo|
      {
        var p: Role :| p in todo;
        var current := byDevice[d][p];
        if Conflicts(current, l) && current !in seen {
          ListsMore(found, seen, d, current);
          FoundMore(Contents(), l.devices, found, k, current);
          found := found + [(d, current)];
          seen := seen + {current};
        }
        todo := todo - {p};
      }
    }
  }

  function Listed(found: seq<(Device, Record)>): set<Record> {
    set i | 0 <= i < |found| :: found[i].1
  }

  ghost predicate Lists(found: seq<(Device, Record)>, seen: set<Record>) {
    Listed(found) == seen && forall i, j :: 0 <= i < j < |found| ==> found[i].1 != found[j].1
  }

  lemma ListsMore(found: seq<(Device, Record)>, seen: set<Record>, d: Device, r: Record)
    requires Lists(found, seen) && r !in seen
    ensures Lists(found + [(d, r)], seen + {r})
  {
    var more := found + [(d, r)];
    assert forall i :: 0 <= i < |found| ==> more[i].1 == found[i].1 && found[i].1 in Listed(found);
    assert more[|found|].1 == r;
    forall c | c in seen ensures c in Listed(more) {
      var i :| 0 <= i < |found| && found[i].1 == c;
      assert more[i].1 == c;
    }
  }

  /** `d` is the first of the devices that holds `r`. */
  ghost predicate FirstHolds(loaded: Residency, devices: seq<Device>, d: Device, r: Record) {
    exists k :: 0 <= k < |devices| && devices[k] == d && FirstAt(loaded, devices, k, r)
  }

  ghost predicate FirstAt(loaded: Residency, devices: seq<Device>, k: nat, r: Record)
    requires k < |devices|
  {
    r in ResidentOn(loaded, [devices[k]]) && forall j :: 0 <= j < k ==> r !in ResidentOn(loaded, [devices[j]])
  }

  ghost predicate FoundOn(loaded: Residency, devices: seq<Device>, found: seq<(Device, Record)>) {
    forall i :: 0 <= i < |found| ==> FirstHolds(loaded, devices, found[i].0, found[i].1)
  }

  lemma FoundMore(loaded: Residency, devices: seq<Device>, found: seq<(Device, Record)>, k: nat, r: Record)
    requires FoundOn(loaded, devices, found) && k < |devices| && r in ResidentOn(loaded, [devices[k]])
    requires r !in ResidentOn(loaded, devices[..k])
    ensures FoundOn(loaded, devices, found + [(devices[k], r)])
  {
    forall j | 0 <= j < k ensures r !in ResidentOn(loaded, [devices[j]]) {
      assert devices[..k][j] == devices[j];
    }
    hide ResidentOn;
    assert FirstAt(loaded, devices, k, r);
    assert FirstHolds(loaded, devices, devices[k], r);
    hide FirstHolds;
  }

  lemma ResidentOnMore(loaded: Residency, devices: seq<Device>, d: Device)
    ensures ResidentOn(loaded, devices + [d]) == ResidentOn(loaded, devices) + ResidentOn(loaded, [d])
  {
  }

  lemma ResidentOnOne(byDevice: map<Device, map<Role, Record>>, d: Device)
    ensures ResidentOn(Flat(byDevice), [d]) == if d in byDevice then set p | p in byDevice[d] :: byDevice[d][p] else {}
  {
    if d in byDevice {
      forall p | p in byDevice[d] ensures byDevice[d][p] in ResidentOn(Flat(byDevice), [d]) {
        assert (d, p) in Flat(byDevice);
      }
    }
  }
}

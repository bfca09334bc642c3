/** Minor numbers of myproject/driver/src/mysensordrv.c: a table of slots (DEVCOUNT
    of them, 4 in the source; any capacity here), the running device
    count, and the probe and remove paths that use them. Probes and removes are serialised by
    the driver core. `live` is what the driver core keeps: each bound device with the minor
    stored in its driver data.
 */
module MinorTable {

  datatype Outcome = Bound(minor: nat) | NoMinor | NoMemory

  /** Where a probe may fail after it has a minor. */
  datatype Fault = NoFault | AllocFails | CdevAddFails | DeviceCreateFails

  function Marked(slots: seq<int>): set<nat> { set i | 0 <= i < |slots| && slots[i] == 1 }

  predicate Injective(m: map<nat, nat>) {
    forall a, b :: a in m && b in m && m[a] == m[b] ==> a == b
  }

  lemma {:induction false} InjectiveSize(m: map<nat, nat>)
    requires Injective(m)
    ensures |m.Values| == |m|
  {
    if m != map[] {
      var k :| k in m;
      var m' := m - {k};
      InjectiveSize(m');
      assert m == m'[k := m[k]];
      forall v | v in m.Values && v != m[k] ensures v in m'.Values {
        var j :| j in m && m[j] == v;
        assert m'[j] == v;
      }
      assert m.Values == m'.Values + {m[k]};
      assert m[k] !in m'.Values;
    }
  }

  lemma BindKeepsTable(was: seq<int>, live: map<nat, nat>, dev: nat, minor: nat)
    requires Injective(live) && live.Values == Marked(was)
    requires dev !in live && minor < |was| && was[minor] == 0
    ensures var live' := live[dev := minor];
            Injective(live') && live'.Values == Marked(was[minor := 1]) && |live'| == |live| + 1
  {
    var live' := live[dev := minor];
    assert minor !in live.Values;
    assert Marked(was[minor := 1]) == Marked(was) + {minor};
    assert forall v :: v in live'.Values ==> v in live.Values || v == minor;
    assert live'[dev] == minor;
    forall v | v in live.Values ensures v in live'.Values {
      var k :| k in live && live[k] == v;
      assert live'[k] == v;
    }
  }

  lemma UnbindKeepsTable(was: seq<int>, live: map<nat, nat>, dev: nat)
    requires Injective(live) && live.Values == Marked(was) && dev in live
    ensures var live', m := live - {dev}, live[dev];
            && m < |was| && Injective(live') && |live'| == |live| - 1
            && Marked(was[m := 0]) == Marked(was) - {m} == live'.Values
  {
    var live', m := live - {dev}, live[dev];
    assert m in live.Values;
    assert Marked(was[m := 0]) == Marked(was) - {m};
    forall v | v in live.Values && v != m ensures v in live'.Values {
      var k :| k in live && live[k] == v;
      assert live'[k] == v;
    }
    assert live == live'[dev := m];
  }

  class Table {
    const slots: array<int>
    var devcount: int
    var live: map<nat, nat>

    /** Live devices own distinct slots, exactly those are marked, and the count agrees. */
    ghost predicate Valid()
      reads this, slots
    {
      && (forall i :: 0 <= i < slots.Length ==> slots[i] == 0 || slots[i] == 1)
      && Injective(live) && live.Values == Marked(slots[..])
      && devcount == |live|
    }

    constructor (capacity: nat)
      ensures Valid() && fresh(slots) && slots.Length == capacity && live == map[]
    {
      slots := new int[capacity](_ => 0);
      devcount := 0;
      live := map[];
    }

    /** `get_minor`: the lowest free slot, or -1. */
    method GetMinor() returns (m: int)
      modifies slots, this`devcount
      ensures m == -1 ==> slots[..] == old(slots[..]) && devcount == old(devcount) && 0 !in slots[..]
      ensures m != -1 ==>
                && 0 <= m < slots.Length && old(slots[m]) == 0
                && (forall j :: 0 <= j < m ==> old(slots[j]) != 0)
                && slots[..] == old(slots[..])[m := 1] && devcount == old(devcount) + 1
    {
      for i := 0 to slots.Length
        invariant slots[..] == old(slots[..]) && devcount == old(devcount)
        invariant forall j :: 0 <= j < i ==> slots[j] != 0
      {
        if slots[i] == 0 {
          slots[i] := 1;
          devcount := devcount + 1;
          return i;
        }
      }
      m := -1;
    }

    /** `return_minor`. */
    method ReturnMinor(i: nat)
      modifies slots, this`devcount
      ensures i >= slots.Length ==> slots[..] == old(slots[..]) && devcount == old(devcount)
      ensures i < slots.Length ==> slots[..] == old(slots[..])[i := 0] && devcount == old(devcount) - 1
    {
      if i >= slots.Length { return; }
      slots[i] := 0;
      devcount := devcount - 1;
    }

    /** A probe binds the device to the lowest free minor; it fails for want of a minor exactly
        when every slot belongs to a live device; and a probe that fails later restores the
        table. */
    method Probe(dev: nat, fault: Fault) returns (r: Outcome)
      requires Valid() && dev !in live
      modifies this, slots
      ensures Valid()
      ensures r == NoMinor <==> forall i :: 0 <= i < slots.Length ==> i in old(live).Values
      ensures r == NoMemory ==> fault != NoFault
      ensures !r.Bound? ==> slots[..] == old(slots[..]) && devcount == old(devcount) && live == old(live)
      ensures r.Bound? ==>
                && fault == NoFault && live == old(live)[dev := r.minor]
                && r.minor < slots.Length && r.minor !in old(live).Values
                && forall j :: 0 <= j < r.minor ==> j in old(live).Values
    {
      ghost var was := slots[..];
      var minor := GetMinor();
      if minor == -1 {
        assert forall i :: 0 <= i < |was| ==> i in Marked(was);
        return NoMinor;
      }
      assert minor !in Marked(was);
      if fault != NoFault {
        ReturnMinor(minor);
        assert slots[..] == was;
        return NoMemory;
      }
      live := live[dev := minor];
      BindKeepsTable(was, old(live), dev, minor);
      r := Bound(minor);
    }

    /** Removing a device frees exactly its minor. */
    method Remove(dev: nat)
      requires Valid() && dev in live
      modifies this, slots
      ensures Valid()
      ensures live == old(live) - {dev}
      ensures Marked(slots[..]) == Marked(old(slots[..])) - {old(live)[dev]}
    {
      ghost var was := slots[..];
      assert live[dev] in Marked(was);
      var minor := live[dev];
      ReturnMinor(minor);
      live := live - {dev};
      UnbindKeepsTable(was, old(live), dev);
    }
  }

  /** The count equals the number of marked slots, not only the number of live devices. */
  lemma CountIsMarked(slots: seq<int>, live: map<nat, nat>, devcount: int)
    requires Injective(live) && live.Values == Marked(slots) && devcount == |live|
    ensures devcount == |Marked(slots)|
  {
    InjectiveSize(live);
  }
}

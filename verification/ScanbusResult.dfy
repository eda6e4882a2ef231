/** What the client does with the result of a bus scan
    (src/client/mesycontrol/hardware_controller.py). */
module ScanbusResult {
  import opened Messages
  import opened AppTree
  import D = Director

  const DEVICES_PER_BUS: nat := 16

  // A device of the hardware tree.
  datatype HwDevice = HwDevice(id: nat, idc: int, rc: bool, addressConflict: bool)

  type HwDevices = map<Address, HwDevice>

  // What the director sees of them.
  function Seen(devices: HwDevices): map<Address, Dev> {
    map a | a in devices :: Dev(devices[a].id, devices[a].idc)
  }

  predicate SameDevice(d: HwDevice, e: ScanEntry) {
    d.idc == e.idc && d.rc == e.rc && d.addressConflict == e.conflict
  }

  // The first n addresses of a bus are as reported, devices that stay are the
  // same objects, and everything else is as before.
  ghost predicate Reconciled(before: HwDevices, after: HwDevices, bus: nat, entries: seq<ScanEntry>, n: nat)
    requires n <= |entries|
  {
    && (forall a: Address | a.bus == bus && a.dev < n ::
          if entries[a.dev].idc > 0 then
            a in after && SameDevice(after[a], entries[a.dev]) && (a in before ==> after[a].id == before[a].id)
          else a !in after)
    && (forall a: Address | a.bus != bus || a.dev >= n :: Get(after, a) == Get(before, a))
  }

  // A device that stays keeps its code.
  ghost predicate KeepsCode(devices: HwDevices, a: Address, entry: ScanEntry) {
    a in devices && entry.idc > 0 ==> devices[a].idc == entry.idc
  }

  ghost predicate KeepsCodes(devices: HwDevices, bus: nat, entries: seq<ScanEntry>, n: nat)
    requires n <= |entries|
  {
    forall i | 0 <= i < n :: KeepsCode(devices, Address(bus, i), entries[i])
  }

  // Which devices are left with modules that do not fit: a device that fitted
  // before is, if it got another code that the director was not told. Outside
  // the scanned addresses nothing changes.
  ghost predicate UnfitAfter(was: set<Place>, now: set<Place>, told: bool, url: Url,
                             devices: HwDevices, bus: nat, entries: seq<ScanEntry>, n: nat)
    requires n <= |entries|
  {
    && (forall i | 0 <= i < n ::
          var p := Place(url, Address(bus, i));
          p !in was ==> (p in now <==> !told && !KeepsCode(devices, p.address, entries[i])))
    && (forall p: Place | p.url != url || p.address.bus != bus || p.address.dev >= n :: p in now <==> p in was)
  }

  lemma NothingUnfitYet(was: set<Place>, told: bool, url: Url, devices: HwDevices, bus: nat, entries: seq<ScanEntry>)
    ensures UnfitAfter(was, was, told, url, devices, bus, entries, 0)
  {
  }

  lemma UnfitAfterOneMore(was: set<Place>, before: set<Place>, after: set<Place>, told: bool, url: Url,
                          devices: HwDevices, now: HwDevices, bus: nat, entries: seq<ScanEntry>, i: nat)
    requires i < |entries| && UnfitAfter(was, before, told, url, devices, bus, entries, i)
    requires Get(now, Address(bus, i)) == Get(devices, Address(bus, i))
    requires var p := Place(url, Address(bus, i));
             && after - {p} == before - {p}
             && (p !in before ==> (p in after <==> !told && !KeepsCode(now, p.address, entries[i])))
    ensures UnfitAfter(was, after, told, url, devices, bus, entries, i + 1)
  {
    var q := Place(url, Address(bus, i));
    assert KeepsCode(now, q.address, entries[i]) == KeepsCode(devices, q.address, entries[i]);
    assert forall p: Place | p != q :: p in after <==> p in after - {q};
    assert forall p: Place | p != q :: p in before <==> p in before - {q};
    hide KeepsCode;
  }

  // If all fitted, all fit afterwards exactly if no code changed or the director
  // was told.
  lemma AllFitExactly(now: set<Place>, told: bool, url: Url,
                      devices: HwDevices, bus: nat, entries: seq<ScanEntry>, n: nat)
    requires n <= |entries| && UnfitAfter({}, now, told, url, devices, bus, entries, n)
    ensures now == {} <==> told || KeepsCodes(devices, bus, entries, n)
  {
    hide KeepsCode;
    if told || KeepsCodes(devices, bus, entries, n) {
      forall p: Place ensures p !in now {
        if p.url == url && p.address.bus == bus && p.address.dev < n {
          assert p == Place(url, Address(bus, p.address.dev));
        }
      }
    } else {
      var i :| 0 <= i < n && !KeepsCode(devices, Address(bus, i), entries[i]);
      assert Place(url, Address(bus, i)) in now;
    }
  }

  ghost predicate EntryDone(before: HwDevices, after: HwDevices, a: Address, entry: ScanEntry) {
    if entry.idc <= 0 then after == before - {a}
    else
      && a in after && SameDevice(after[a], entry) && (a in before ==> after[a].id == before[a].id)
      && after == before[a := after[a]]
  }

  lemma NothingYet(devices: HwDevices, bus: nat, entries: seq<ScanEntry>)
    ensures Reconciled(devices, devices, bus, entries, 0)
  {
  }

  lemma NotYet(before: HwDevices, now: HwDevices, bus: nat, entries: seq<ScanEntry>, i: nat)
    requires i <= |entries| && Reconciled(before, now, bus, entries, i)
    ensures Get(now, Address(bus, i)) == Get(before, Address(bus, i))
  {
  }

  lemma OneMoreEntry(before: HwDevices, now: HwDevices, after: HwDevices, bus: nat, entries: seq<ScanEntry>, i: nat)
    requires i < |entries| && Reconciled(before, now, bus, entries, i)
    requires EntryDone(now, after, Address(bus, i), entries[i])
    ensures Reconciled(before, after, bus, entries, i + 1)
  {
    assert Get(now, Address(bus, i)) == Get(before, Address(bus, i));
    hide SameDevice;
  }

  class HardwareMrc {
    const url: Url
    const id: nat
    var devices: HwDevices
    var addressConflict: bool
    var nextId: nat

    constructor (url: Url, id: nat)
      ensures this.url == url && this.id == id && devices == map[]
    {
      this.url, this.id := url, id;
      devices, addressConflict, nextId := map[], false, 0;
    }

    // The two trees, with this MRC as it is now.
    ghost function In(t: Trees): Trees
      reads this
    {
      Put(t, Hardware, url, Mrc(id, Seen(devices)))
    }
  }

  class Controller {
    const mrc: HardwareMrc
    const director: D.Director

    constructor (mrc: HardwareMrc, director: D.Director)
      ensures this.mrc == mrc && this.director == director
    {
      this.mrc := mrc;
      this.director := director;
    }

    // The application tree is the join of the trees as they are now, but for the
    // modules of some devices; only this MRC differs from 't'.
    ghost predicate InStep(t: Trees)
      reads mrc, director.registry, director.registry.Repr
    {
      director.Follows(mrc.In(t)) && mrc !in director.registry.Repr
    }

    ghost function Unfit(t: Trees): set<Place>
      requires InStep(t)
      reads mrc, director.registry, director.registry.Repr
    {
      director.Unfit(mrc.In(t))
    }

    lemma InTree(t: Trees, next: Mrc)
      ensures mrc.url in mrc.In(t).hw && mrc.In(t).hw[mrc.url] == Mrc(mrc.id, Seen(mrc.devices))
      ensures Put(mrc.In(t), Hardware, mrc.url, next) == Put(t, Hardware, mrc.url, next)
    {
      PutPut(t, Hardware, mrc.url, Mrc(mrc.id, Seen(mrc.devices)), next);
    }

    method RemoveDevice(a: Address, ghost t: Trees)
      requires InStep(t) && a in mrc.devices
      modifies mrc, director.registry.Repr
      ensures mrc.devices == old(mrc.devices) - {a}
      ensures InStep(t) && fresh(director.registry.Repr - old(director.registry.Repr))
      ensures Unfit(t) == old(Unfit(t)) - {Place(mrc.url, a)}
    {
      hide D.Director.Follows, D.Director.Unfit, Put;
      InTree(t, Mrc(mrc.id, Seen(mrc.devices - {a})));
      assert Seen(mrc.devices - {a}) == Seen(mrc.devices) - {a};
      var raised := director.DeviceAboutToBeRemoved(Hardware, mrc.id, a, mrc.In(t), mrc.url);
      mrc.devices := mrc.devices - {a};
    }

    // A new device object, which has the code from the start.
    method AddDevice(a: Address, idc: int, ghost t: Trees)
      requires InStep(t) && a !in mrc.devices
      modifies mrc, director.registry.Repr
      ensures mrc.devices == old(mrc.devices)[a := HwDevice(old(mrc.nextId), idc, false, false)]
      ensures InStep(t) && fresh(director.registry.Repr - old(director.registry.Repr))
      ensures Unfit(t) == old(Unfit(t)) - {Place(mrc.url, a)}
    {
      hide D.Director.Follows, D.Director.Unfit, Put;
      var device := HwDevice(mrc.nextId, idc, false, false);
      var dev := Dev(device.id, device.idc);
      ghost var u := mrc.In(t);
      InTree(t, Mrc(mrc.id, Seen(mrc.devices[a := device])));
      assert Seen(mrc.devices[a := device]) == Seen(mrc.devices)[a := dev];
      mrc.devices, mrc.nextId := mrc.devices[a := device], mrc.nextId + 1;
      var raised := director.DeviceAdded(Hardware, mrc.id, a, dev, u, mrc.url);
    }

    method SetIdc(a: Address, idc: int, ghost t: Trees)
      requires InStep(t) && a in mrc.devices
      modifies mrc, director.registry.Repr
      ensures mrc.devices == old(mrc.devices)[a := old(mrc.devices)[a].(idc := idc)]
      ensures InStep(t) && fresh(director.registry.Repr - old(director.registry.Repr))
      ensures var p := Place(mrc.url, a);
              && Unfit(t) - {p} == old(Unfit(t)) - {p}
              && (p !in old(Unfit(t)) ==>
                    (p in Unfit(t) <==> !director.idcSignalAccepted && idc != old(mrc.devices)[a].idc))
    {
      hide D.Director.Follows, D.Director.Unfit, Put, Join;
      var devices := mrc.devices[a := mrc.devices[a].(idc := idc)];
      ghost var u := mrc.In(t);
      InTree(t, Mrc(mrc.id, Seen(devices)));
      if mrc.devices[a].idc != idc {
        assert Seen(devices) == Seen(mrc.devices)[a := Seen(mrc.devices)[a].(idc := idc)];
        mrc.devices := devices;
        var raised := director.DeviceIdcChanged(Hardware, mrc.id, a, idc, u, mrc.url);
      } else {
        assert mrc.devices == devices;
      }
    }

    // The flags are not seen by the director.
    method SetFlags(a: Address, rc: bool, conflict: bool, ghost t: Trees)
      requires InStep(t) && a in mrc.devices
      modifies mrc
      ensures mrc.devices == old(mrc.devices)[a := old(mrc.devices)[a].(rc := rc, addressConflict := conflict)]
      ensures InStep(t) && director.registry.Repr == old(director.registry.Repr) && Unfit(t) == old(Unfit(t))
    {
      hide D.Director.Follows, D.Director.Unfit, Put;
      assert Seen(mrc.devices[a := mrc.devices[a].(rc := rc, addressConflict := conflict)]) == Seen(mrc.devices);
      mrc.devices := mrc.devices[a := mrc.devices[a].(rc := rc, addressConflict := conflict)];
    }

    method SetAddressConflict(conflict: bool, ghost t: Trees)
      requires InStep(t)
      modifies mrc`addressConflict
      ensures mrc.addressConflict == conflict && InStep(t) && Unfit(t) == old(Unfit(t))
    {
      hide D.Director.Follows, D.Director.Unfit, Put;
      mrc.addressConflict := conflict;
    }

    // One address: a device that is reported is there afterwards, with what was
    // reported; one that is not, is not.
    method HandleEntry(a: Address, entry: ScanEntry, ghost t: Trees)
      requires InStep(t)
      modifies mrc, director.registry.Repr
      ensures InStep(t) && fresh(director.registry.Repr - old(director.registry.Repr))
      ensures EntryDone(old(mrc.devices), mrc.devices, a, entry)
      ensures var p := Place(mrc.url, a);
              && Unfit(t) - {p} == old(Unfit(t)) - {p}
              && (p !in old(Unfit(t)) ==>
                    (p in Unfit(t) <==> !director.idcSignalAccepted && !KeepsCode(old(mrc.devices), a, entry)))
    {
      hide InStep, Unfit;
      if entry.idc <= 0 {
        if a in mrc.devices {
          RemoveDevice(a, t);
        } else {
          assert mrc.devices == mrc.devices - {a};
        }
      } else {
        ghost var before := mrc.devices;
        if a !in mrc.devices {
          AddDevice(a, entry.idc, t);
        }
        SetIdc(a, entry.idc, t);
        SetFlags(a, entry.rc, entry.conflict, t);
        assert mrc.devices == before[a := mrc.devices[a]];
      }
    }

    // The result of a scan; None stands for an error response. A result with
    // fewer than 16 entries raises an exception once they run out.
    method HandleScanbusResult(bus: nat, result: Option<seq<ScanEntry>>, ghost t: Trees) returns (raised: bool)
      requires InStep(t)
      modifies mrc, director.registry.Repr
      ensures InStep(t) && fresh(director.registry.Repr - old(director.registry.Repr))
      ensures result.None? ==>
                && !raised && mrc.devices == old(mrc.devices) && mrc.addressConflict == old(mrc.addressConflict)
                && Unfit(t) == old(Unfit(t))
      ensures result.Some? ==>
                var n := if raised then |result.value| else DEVICES_PER_BUS;
                && (raised <==> |result.value| < DEVICES_PER_BUS)
                && Reconciled(old(mrc.devices), mrc.devices, bus, result.value, n)
                && (!raised ==> (mrc.addressConflict <==> exists a <- mrc.devices :: mrc.devices[a].addressConflict))
                && UnfitAfter(old(Unfit(t)), Unfit(t), director.idcSignalAccepted, mrc.url,
                              old(mrc.devices), bus, result.value, n)
                // So the join is kept exactly if the director hears of every new code.
                && (old(director.Joined(mrc.In(t))) ==>
                      (director.Joined(mrc.In(t)) <==>
                         director.idcSignalAccepted || KeepsCodes(old(mrc.devices), bus, result.value, n)))
    {
      hide D.Director.Joined, InStep, Unfit, Reconciled, EntryDone, KeepsCode, KeepsCodes, UnfitAfter;
      if result.None? {
        return false;
      }
      var entries := result.value;
      ghost var unfit, told := Unfit(t), director.idcSignalAccepted;
      ghost var devices := mrc.devices;
      JoinedExactly(t);
      NothingYet(devices, bus, entries);
      NothingUnfitYet(unfit, told, mrc.url, devices, bus, entries);
      for i := 0 to DEVICES_PER_BUS
        invariant i <= |entries|
        invariant fresh(director.registry.Repr - old(director.registry.Repr))
        invariant InStep(t)
        invariant Reconciled(devices, mrc.devices, bus, entries, i)
        invariant UnfitAfter(unfit, Unfit(t), told, mrc.url, devices, bus, entries, i)
      {
        if i >= |entries| {
          JoinedAfterExactly(t, unfit, devices, bus, entries, i);
          return true;
        }
        ghost var now, before := mrc.devices, Unfit(t);
        HandleEntry(Address(bus, i), entries[i], t);
        NotYet(devices, now, bus, entries, i);
        UnfitAfterOneMore(unfit, before, Unfit(t), told, mrc.url, devices, now, bus, entries, i);
        OneMoreEntry(devices, now, mrc.devices, bus, entries, i);
      }
      SetAddressConflict(exists a <- mrc.devices :: mrc.devices[a].addressConflict, t);
      JoinedAfterExactly(t, unfit, devices, bus, entries, DEVICES_PER_BUS);
      return false;
    }

    lemma JoinedExactly(t: Trees)
      requires InStep(t)
      ensures director.Joined(mrc.In(t)) <==> Unfit(t) == {}
    {
      hide D.Director.Follows, D.Director.Unfit, D.Director.Joined;
      director.JoinedExactly(mrc.In(t));
    }

    lemma JoinedAfterExactly(t: Trees, unfit: set<Place>, devices: HwDevices, bus: nat, entries: seq<ScanEntry>, n: nat)
      requires InStep(t) && n <= |entries|
      requires UnfitAfter(unfit, Unfit(t), director.idcSignalAccepted, mrc.url, devices, bus, entries, n)
      ensures unfit == {} ==>
                (director.Joined(mrc.In(t)) <==>
                   director.idcSignalAccepted || KeepsCodes(devices, bus, entries, n))
    {
      hide InStep, Unfit, D.Director.Joined, KeepsCodes, UnfitAfter;
      JoinedExactly(t);
      if unfit == {} {
        AllFitExactly(Unfit(t), director.idcSignalAccepted, mrc.url, devices, bus, entries, n);
      }
    }
  }
}

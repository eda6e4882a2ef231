/** The configuration tree with its modified flags
    (src/client/mesycontrol/config_model.py, basic_model.py). Signals are direct
    calls: an object holds the one that listens to it. */
module ConfigModel {
  import opened Messages
  import opened ConfigXml
  import opened ConfigFiles
  import opened PythonText

  // The decorated setters of a device.
  datatype DeviceOp =
    | SetBus(bus: int)
    | SetAddress(address: int)
    | SetIdc(idc: int)
    | SetDeviceName(name: string)
    | SetParameter(parameter: int, value: int)
    | ClearParameter(parameter: int)
    | ClearMemory
    | SetExtensionTo(extension: string, content: Value)
    | RemoveExtension(extension: string)

  // What each does to the device; None stands for the exception.
  function After(op: DeviceOp, cfg: DeviceConfig): Option<DeviceConfig> {
    match op
    case SetBus(bus) => if 0 <= bus < BUS_RANGE || cfg.bus == Some(bus) then Some(cfg.(bus := Some(bus))) else None
    case SetAddress(a) => if 0 <= a < DEV_RANGE || cfg.address == Some(a) then Some(cfg.(address := Some(a))) else None
    case SetIdc(idc) => Some(cfg.(idc := Some(idc)))
    case SetDeviceName(name) => Some(cfg.(name := name))
    case SetParameter(p, v) => if 0 <= p < PARAM_RANGE then Some(cfg.(memory := cfg.memory[p := v])) else None
    case ClearParameter(p) => Some(cfg.(memory := cfg.memory - {p}))
    case ClearMemory => Some(cfg.(memory := map[]))
    case SetExtensionTo(name, v) => Some(cfg.(extensions := SetExtension(cfg.extensions, name, v)))
    case RemoveExtension(name) =>
      var i := IndexOf(cfg.extensions, name);
      if i < |cfg.extensions| then Some(cfg.(extensions := cfg.extensions[..i] + cfg.extensions[i + 1..])) else None
  }

  // Dictionaries before and after: all entries but one are the same.
  predicate OthersStay(before: map<int, int>, after: map<int, int>, key: int) {
    forall k | k in before.Keys + after.Keys && k != key :: k in before && k in after && after[k] == before[k]
  }

  // The first extension with the name.
  predicate FirstNamed(extensions: seq<(string, Value)>, name: string, i: nat) {
    i < |extensions| && extensions[i].0 == name && forall j | 0 <= j < i :: extensions[j].0 != name
  }

  predicate Names(extensions: seq<(string, Value)>, name: string) {
    exists i | 0 <= i < |extensions| :: extensions[i].0 == name
  }

  // What became of the extensions when one was set: where there is one of the name
  // it has the new value in its place, otherwise it comes last, unless it is None;
  // the others stay where they are.
  ghost predicate ExtensionSet(before: seq<(string, Value)>, after: seq<(string, Value)>, name: string, v: Value) {
    && |after| == |before| + (if Names(before, name) || v == Nothing then 0 else 1)
    && (|after| > |before| ==> after[|before|] == (name, v))
    && forall i | 0 <= i < |before| :: after[i] == if FirstNamed(before, name, i) then (name, v) else before[i]
  }

  ghost predicate ExtensionRemoved(before: seq<(string, Value)>, after: seq<(string, Value)>, name: string) {
    && |after| == |before| - 1
    && exists i: nat :: FirstNamed(before, name, i) && after[..i] == before[..i] && after[i..] == before[i + 1..]
  }

  // Every setter changes its own field to what it was given, and no other: a
  // parameter reads its new value and the other parameters theirs.
  lemma WhatSettersDo(op: DeviceOp, before: DeviceConfig)
    ensures var r := After(op, before);
            match op
            case SetBus(b) =>
              && (r.None? <==> !(0 <= b < 2) && before.bus != Some(b))
              && (r.Some? ==> r.value.bus == Some(b) && r.value == before.(bus := r.value.bus))
            case SetAddress(a) =>
              && (r.None? <==> !(0 <= a < 16) && before.address != Some(a))
              && (r.Some? ==> r.value.address == Some(a) && r.value == before.(address := r.value.address))
            case SetIdc(idc) => r.Some? && r.value.idc == Some(idc) && r.value == before.(idc := r.value.idc)
            case SetDeviceName(name) => r.Some? && r.value.name == name && r.value == before.(name := r.value.name)
            case SetParameter(p, v) =>
              && (r.None? <==> !(0 <= p < 256))
              && (r.Some? ==>
                    && p in r.value.memory && r.value.memory[p] == v
                    && OthersStay(before.memory, r.value.memory, p) && r.value == before.(memory := r.value.memory))
            case ClearParameter(p) =>
              && r.Some? && p !in r.value.memory
              && OthersStay(before.memory, r.value.memory, p) && r.value == before.(memory := r.value.memory)
            case ClearMemory =>
              r.Some? && (forall p :: p !in r.value.memory) && r.value == before.(memory := r.value.memory)
            case SetExtensionTo(name, v) =>
              && r.Some? && ExtensionSet(before.extensions, r.value.extensions, name, v)
              && r.value == before.(extensions := r.value.extensions)
            case RemoveExtension(name) =>
              && (r.None? <==> !Names(before.extensions, name))
              && (r.Some? ==>
                    && ExtensionRemoved(before.extensions, r.value.extensions, name)
                    && r.value == before.(extensions := r.value.extensions))
  {
    match op {
      case SetExtensionTo(name, v) => ExtensionIsSet(before.extensions, name, v);
      case RemoveExtension(name) => ExtensionIsRemoved(before.extensions, name);
      case _ =>
    }
  }

  lemma ExtensionIsSet(extensions: seq<(string, Value)>, name: string, v: Value)
    ensures ExtensionSet(extensions, SetExtension(extensions, name, v), name, v)
  {
    var i := IndexOf(extensions, name);
    if i < |extensions| {
      assert FirstNamed(extensions, name, i);
    }
  }

  lemma ExtensionIsRemoved(extensions: seq<(string, Value)>, name: string)
    ensures var i := IndexOf(extensions, name);
            if i < |extensions| then
              && Names(extensions, name)
              && ExtensionRemoved(extensions, extensions[..i] + extensions[i + 1..], name)
            else
              !Names(extensions, name)
  {
    var i := IndexOf(extensions, name);
    if i < |extensions| {
      var after := extensions[..i] + extensions[i + 1..];
      assert FirstNamed(extensions, name, i) && after[..i] == extensions[..i] && after[i..] == extensions[i + 1..];
    }
  }

  class Device {
    var modified: bool
    var idc: Option<int>
    var bus: Option<int>
    var address: Option<int>
    var name: string
    var description: Option<string>
    var memory: map<int, int>
    var extensions: seq<(string, Value)>
    // The MRC connected to modified_changed.
    var mrc: ConfigMrc?

    constructor (idc: Option<int>, bus: Option<int>, address: Option<int>)
      ensures !modified && mrc == null && Content() == DeviceConfig(idc, bus, address, "", None, map[], [])
    {
      this.idc, this.bus, this.address := idc, bus, address;
      modified, name, description, memory, extensions, mrc := false, "", None, map[], [], null;
    }

    function Content(): DeviceConfig
      reads this
    {
      DeviceConfig(idc, bus, address, name, description, memory, extensions)
    }

    ghost function Mrcs(): set<ConfigMrc>
      reads this
    {
      if mrc == null then {} else {mrc}
    }

    ghost function Setups(): set<Setup>
      reads this, Mrcs()
    {
      if mrc == null then {} else mrc.Setups()
    }

    // _set_modified; a change of the flag to true reaches the MRC.
    method SetModified(b: bool)
      modifies `modified, Mrcs()`modified, Setups()`modified
      ensures modified == b && Content() == old(Content())
      ensures !b || old(modified) || mrc == null ==> unchanged(Mrcs()`modified) && unchanged(Setups()`modified)
      ensures b && mrc != null ==> mrc.modified == (old(mrc.modified) || !old(modified))
      ensures b && mrc != null && mrc.setup != null ==>
                mrc.setup.modified == (old(mrc.setup.modified) || (!old(modified) && !old(mrc.modified)))
    {
      if modified != b {
        modified := b;
        if b && mrc != null {
          mrc.DeviceModified();
        }
      }
    }

    // The flags above are up as far as they must be.
    ghost predicate FlagsUp()
      reads this, Mrcs(), Setups()
    {
      && (modified && mrc != null ==> mrc.modified)
      && (mrc != null && mrc.modified && mrc.setup != null ==> mrc.setup.modified)
    }

    // A decorated setter: what it reports makes the device modified.
    method Apply(op: DeviceOp) returns (r: Option<bool>)
      modifies this, Mrcs()`modified, Setups()`modified
      ensures mrc == old(mrc)
      ensures r.None? <==> After(op, old(Content())).None?
      ensures r.Some? ==> Content() == After(op, old(Content())).value
      // It reports exactly the changes.
      ensures r.Some? && r.value <==> Content() != old(Content())
      ensures Content() == old(Content()) ==>
                unchanged(this) && unchanged(Mrcs()`modified) && unchanged(Setups()`modified)
      ensures Content() != old(Content()) && old(FlagsUp()) ==>
                modified && (mrc != null ==> mrc.modified && (mrc.setup != null ==> mrc.setup.modified))
    {
      r := Set(op);
      if r.Some? && r.value {
        SetModified(true);
      }
    }

    // The setters themselves; the value says whether they returned True.
    method Set(op: DeviceOp) returns (r: Option<bool>)
      modifies `bus, `address, `idc, `name, `memory, `extensions
      ensures r.None? <==> After(op, old(Content())).None?
      ensures r.Some? ==> Content() == After(op, old(Content())).value
      ensures r.None? ==> Content() == old(Content())
      ensures r.Some? && r.value <==> Content() != old(Content())
    {
      match op
      case SetBus(b) =>
        r := Some(bus != Some(b));
        if r.value {
          if !(0 <= b < BUS_RANGE) {
            return None;
          }
          bus := Some(b);
        }
      case SetAddress(a) =>
        r := Some(address != Some(a));
        if r.value {
          if !(0 <= a < DEV_RANGE) {
            return None;
          }
          address := Some(a);
        }
      case SetIdc(i) =>
        r := Some(idc != Some(i));
        idc := Some(i);
      case SetDeviceName(n) =>
        r := Some(name != n);
        name := n;
      case SetParameter(p, v) =>
        if !(0 <= p < PARAM_RANGE) {
          return None;
        }
        r := Some(p !in memory || memory[p] != v);
        memory := memory[p := v];
      case ClearParameter(p) =>
        r := Some(p in memory);
        if p in memory {
          memory := memory - {p};
        } else {
          assert memory - {p} == memory;
        }
      case ClearMemory =>
        r := Some(memory != map[]);
        memory := map[];
      case SetExtensionTo(n, v) =>
        var i := IndexOf(extensions, n);
        r := Some(if i < |extensions| then extensions[i].1 != v else v != Nothing);
        assert r.value ==> SetExtension(extensions, n, v) != extensions by {
          assert i < |extensions| ==> SetExtension(extensions, n, v)[i] == (n, v);
        }
        extensions := SetExtension(extensions, n, v);
      case RemoveExtension(n) =>
        var i := IndexOf(extensions, n);
        if i == |extensions| {
          return None;
        }
        extensions := extensions[..i] + extensions[i + 1..];
        r := Some(true);
    }
  }

  function Contents(devices: seq<Device>): (r: seq<DeviceConfig>)
    reads set i | 0 <= i < |devices| :: devices[i]
    ensures |r| == |devices| && forall i | 0 <= i < |devices| :: r[i] == devices[i].Content()
  {
    seq(|devices|, i reads set i | 0 <= i < |devices| :: devices[i] requires 0 <= i < |devices| => devices[i].Content())
  }

  class ConfigMrc {
    var modified: bool
    var url: string
    var name: string
    var autoconnect: bool
    var devices: seq<Device>
    // The setup connected to modified_changed.
    var setup: Setup?

    constructor (url: string)
      ensures !modified && setup == null && Content() == MrcConfig(url, "", true, []) && devices == []
    {
      this.url := url;
      modified, name, autoconnect, devices, setup := false, "", true, [], null;
    }

    ghost function Devices(): set<Device>
      reads this
    {
      set i | 0 <= i < |devices| :: devices[i]
    }

    function Content(): MrcConfig
      reads this, set i | 0 <= i < |devices| :: devices[i]
    {
      MrcConfig(url, name, autoconnect, Contents(devices))
    }

    ghost function Setups(): set<Setup>
      reads this
    {
      if setup == null then {} else {setup}
    }

    ghost predicate Valid()
      reads this, Devices()
    {
      && (forall i, j | 0 <= i < j < |devices| :: devices[i] != devices[j])
      && (forall i | 0 <= i < |devices| :: devices[i].mrc == this && (devices[i].modified ==> modified))
    }

    // add_device: false stands for the ValueError of a taken place, and for the
    // failing comparison with a device without one.
    method AddDevice(device: Device) returns (ok: bool, ghost at: nat)
      requires Valid() && device.mrc == null
      modifies this, device`mrc, Setups()`modified
      ensures Valid() && setup == old(setup)
      ensures ok <==> ConfigFiles.AddDevice(old(Contents(devices)), old(device.Content())).Some?
      ensures !ok ==> unchanged(this) && unchanged(device) && unchanged(Setups()`modified)
      ensures ok ==> Content() == old(Content()).(
                devices := ConfigFiles.AddDevice(old(Contents(devices)), old(device.Content())).value)
      ensures ok ==> modified && device.mrc == this
      ensures ok ==> at <= |old(devices)| && devices == old(devices)[..at] + [device] + old(devices)[at..]
      ensures ok && setup != null ==> setup.modified == (old(setup.modified) || !old(modified))
    {
      hide Contents, ConfigFiles.AddDevice;
      var k := FreePlaceFor(device.Content());
      if k.None? {
        return false, 0;
      }
      Insert(device, k.value);
      SetFlag();
      ok, at := true, k.value;
    }

    // The check of add_device, and where sorting puts the device.
    method FreePlaceFor(d: DeviceConfig) returns (k: Option<nat>)
      ensures k.Some? <==> ConfigFiles.AddDevice(Contents(devices), d).Some?
      ensures k.Some? ==>
                k.value <= |devices|
                && ConfigFiles.AddDevice(Contents(devices), d).value
                     == Contents(devices)[..k.value] + [d] + Contents(devices)[k.value..]
    {
      hide Inserted, Before;
      if d.bus.None? || d.address.None? || exists e <- Contents(devices) :: SamePlace(d, e) {
        return None;
      }
      var i := PlaceFor(d);
      k := Some(i);
    }

    // remove_device, for one of the devices.
    method RemoveDevice(k: nat)
      requires Valid() && k < |devices|
      modifies `devices, `modified, {devices[k]}`mrc, Setups()`modified
      ensures Valid() && modified && devices == old(devices[..k] + devices[k + 1..]) && old(devices[k]).mrc == null
      ensures Contents(devices) == old(Contents(devices)[..k] + Contents(devices)[k + 1..])
      ensures setup != null ==> setup.modified == (old(setup.modified) || !old(modified))
    {
      hide Contents;
      var device := devices[k];
      device.mrc := null;
      assert forall i | 0 <= i < |devices| :: devices[i].Content() == old(devices[i].Content());
      assert Contents(devices) == old(Contents(devices));
      ContentsRemoved(devices, k);
      devices := devices[..k] + devices[k + 1..];
      SetFlag();
    }

    // device.modified = False on one of the devices.
    method ClearDevice(j: nat)
      requires Valid() && j < |devices|
      modifies {devices[j]}`modified, `modified, Setups()`modified
      ensures Valid() && !devices[j].modified && modified == old(modified) && unchanged(Setups()`modified)
      ensures Content() == old(Content())
    {
      devices[j].SetModified(false);
      assert Contents(devices) == old(Contents(devices));
    }

    // The setters of the MRC itself.
    method Set(op: MrcOp)
      modifies `url, `name, `autoconnect, `modified, Setups()`modified
      ensures Content() == AfterMrc(op, old(Content()))
      ensures Content() == old(Content()) ==> modified == old(modified) && unchanged(Setups()`modified)
      ensures Content() != old(Content()) ==> modified
      ensures Content() != old(Content()) && setup != null ==> setup.modified == (old(setup.modified) || !old(modified))
    {
      hide Contents;
      match op
      case SetUrl(u) =>
        if url != u {
          url := u;
          SetFlag();
        }
      case SetMrcName(n) =>
        if name != n {
          name := n;
          SetFlag();
        }
      case SetMrcAutoconnect(b) =>
        if autoconnect != b {
          autoconnect := b;
          SetFlag();
        }
    }

    method PlaceFor(d: DeviceConfig) returns (k: nat)
      ensures k <= |devices| && Inserted(Contents(devices), d) == Contents(devices)[..k] + [d] + Contents(devices)[k..]
    {
      k := 0;
      while k < |devices| && !Before(d, devices[k].Content())
        invariant k <= |devices| && forall j | 0 <= j < k :: !Before(d, devices[j].Content())
      {
        k := k + 1;
      }
      InsertedAt(Contents(devices), d, k);
    }

    method Insert(device: Device, k: nat)
      requires Valid() && device.mrc == null && k <= |devices|
      modifies `devices, device`mrc
      ensures devices == old(devices)[..k] + [device] + old(devices)[k..]
      ensures Contents(devices) == old(Contents(devices)[..k] + [device.Content()] + Contents(devices)[k..])
      ensures device.mrc == this
      ensures forall i, j | 0 <= i < j < |devices| :: devices[i] != devices[j]
      ensures forall i | 0 <= i < |devices| ::
                devices[i].mrc == this && (devices[i] != device && devices[i].modified ==> modified)
    {
      hide Contents;
      ghost var d := device.Content();
      assert forall i | 0 <= i < |devices| :: devices[i] != device;
      device.mrc := this;
      assert Contents(devices) == old(Contents(devices)) && device.Content() == d;
      ContentsInserted(devices, device, k);
      devices := devices[..k] + [device] + devices[k..];
    }

    // _on_device_modified_changed(True)
    method DeviceModified()
      modifies `modified, Setups()`modified
      ensures modified
      ensures setup != null ==> setup.modified == (old(setup.modified) || !old(modified))
    {
      SetFlag();
    }

    // set_modified(True)
    method SetFlag()
      modifies `modified, Setups()`modified
      ensures modified
      ensures setup != null ==> setup.modified == (old(setup.modified) || !old(modified))
    {
      if !modified {
        modified := true;
        if setup != null {
          setup.MrcModified();
        }
      }
    }

    // set_modified(False): the hook clears the devices first.
    method ClearFlag()
      requires Valid()
      modifies `modified, Devices()`modified, Setups()`modified
      ensures Valid() && !modified && unchanged(Setups()`modified) && Content() == old(Content())
      ensures forall i | 0 <= i < |devices| :: !devices[i].modified
    {
      for i := 0 to |devices|
        invariant Valid() && unchanged(Setups()`modified)
        invariant forall j | 0 <= j < |devices| :: devices[j].Content() == old(devices[j].Content())
        invariant forall j | 0 <= j < i :: !devices[j].modified
      {
        devices[i].SetModified(false);
      }
      modified := false;
      assert Contents(devices) == old(Contents(devices));
    }
  }

  datatype MrcOp = SetUrl(url: string) | SetMrcName(name: string) | SetMrcAutoconnect(autoconnect: bool)

  function AfterMrc(op: MrcOp, cfg: MrcConfig): MrcConfig {
    match op
    case SetUrl(u) => cfg.(url := u)
    case SetMrcName(n) => cfg.(name := n)
    case SetMrcAutoconnect(b) => cfg.(autoconnect := b)
  }

  // Likewise for an MRC.
  lemma WhatMrcSettersDo(op: MrcOp, before: MrcConfig)
    ensures var after := AfterMrc(op, before);
            match op
            case SetUrl(url) => after.url == url && after == before.(url := after.url)
            case SetMrcName(name) => after.name == name && after == before.(name := after.name)
            case SetMrcAutoconnect(b) => after.autoconnect == b && after == before.(autoconnect := after.autoconnect)
  {
  }

  lemma ContentsRemoved(devices: seq<Device>, k: nat)
    requires k < |devices|
    ensures Contents(devices[..k] + devices[k + 1..]) == Contents(devices)[..k] + Contents(devices)[k + 1..]
  {
  }

  lemma ContentsInserted(devices: seq<Device>, device: Device, k: nat)
    requires k <= |devices|
    ensures Contents(devices[..k] + [device] + devices[k..])
         == Contents(devices)[..k] + [device.Content()] + Contents(devices)[k..]
  {
  }

  // Where Inserted puts a device, and an MRC.
  lemma {:induction false} InsertedAt(devices: seq<DeviceConfig>, d: DeviceConfig, k: nat)
    requires k <= |devices| && (forall j | 0 <= j < k :: !Before(d, devices[j])) &&
             (k < |devices| ==> Before(d, devices[k]))
    ensures Inserted(devices, d) == devices[..k] + [d] + devices[k..]
    decreases k
  {
    hide Before;
    if k > 0 {
      InsertedAt(devices[1..], d, k - 1);
      assert devices[..k] == [devices[0]] + devices[1..][..k - 1];
      assert devices[k..] == devices[1..][k - 1..];
    } else {
      assert devices[..0] == [] && devices[0..] == devices;
    }
  }

  lemma {:induction false} InsertedMrcAt(mrcs: seq<MrcConfig>, m: MrcConfig, k: nat)
    requires k <= |mrcs| && (forall j | 0 <= j < k :: !Less(m.url, mrcs[j].url)) &&
             (k < |mrcs| ==> Less(m.url, mrcs[k].url))
    ensures InsertedMrc(mrcs, m) == mrcs[..k] + [m] + mrcs[k..]
    decreases k
  {
    hide Less;
    if k > 0 {
      InsertedMrcAt(mrcs[1..], m, k - 1);
      assert mrcs[..k] == [mrcs[0]] + mrcs[1..][..k - 1];
      assert mrcs[k..] == mrcs[1..][k - 1..];
    } else {
      assert mrcs[..0] == [] && mrcs[0..] == mrcs;
    }
  }

  function MrcContents(mrcs: seq<ConfigMrc>): (r: seq<MrcConfig>)
    reads set i | 0 <= i < |mrcs| :: mrcs[i]
    reads set i, j | 0 <= i < |mrcs| && 0 <= j < |mrcs[i].devices| :: mrcs[i].devices[j]
    ensures |r| == |mrcs| && forall i | 0 <= i < |mrcs| :: r[i] == mrcs[i].Content()
  {
    seq(|mrcs|, i reads set i | 0 <= i < |mrcs| :: mrcs[i]
                  reads set i, j | 0 <= i < |mrcs| && 0 <= j < |mrcs[i].devices| :: mrcs[i].devices[j]
                  requires 0 <= i < |mrcs| => mrcs[i].Content())
  }

  function InsertAt(mrcs: seq<ConfigMrc>, mrc: ConfigMrc, k: nat): seq<ConfigMrc>
    requires k <= |mrcs|
  {
    mrcs[..k] + [mrc] + mrcs[k..]
  }

  lemma InsertedApart(mrcs: seq<ConfigMrc>, mrc: ConfigMrc, k: nat, r: seq<ConfigMrc>)
    requires k <= |mrcs| && r == InsertAt(mrcs, mrc, k)
    requires forall i, j | 0 <= i < j < |mrcs| :: mrcs[i] != mrcs[j]
    requires forall i | 0 <= i < |mrcs| :: mrcs[i] != mrc
    ensures |r| == |mrcs| + 1 && forall i, j | 0 <= i < j < |r| :: r[i] != r[j]
    ensures r[k] == mrc && forall i | 0 <= i < k :: r[i] == mrcs[i]
    ensures forall i | k <= i < |mrcs| :: r[i + 1] == mrcs[i]
  {
  }

  lemma MrcContentsInserted(mrcs: seq<ConfigMrc>, mrc: ConfigMrc, k: nat)
    requires k <= |mrcs|
    ensures MrcContents(InsertAt(mrcs, mrc, k)) == MrcContents(mrcs)[..k] + [mrc.Content()] + MrcContents(mrcs)[k..]
  {
    hide Contents;
  }

  class Setup {
    var modified: bool
    var autoconnect: bool
    var filename: string
    var mrcs: seq<ConfigMrc>
    // The content when the flag was last cleared.
    ghost var saved: SetupConfig

    constructor ()
      ensures Valid() && !modified && mrcs == [] && Content() == SetupConfig(true, [])
    {
      modified, autoconnect, filename, mrcs := false, true, "", [];
      saved := SetupConfig(true, []);
    }

    function Content(): SetupConfig
      reads `autoconnect, `mrcs, set i | 0 <= i < |mrcs| :: mrcs[i]
      reads set i, j | 0 <= i < |mrcs| && 0 <= j < |mrcs[i].devices| :: mrcs[i].devices[j]
    {
      SetupConfig(autoconnect, MrcContents(mrcs))
    }

    ghost function Mrcs(): set<ConfigMrc>
      reads `mrcs
    {
      set i | 0 <= i < |mrcs| :: mrcs[i]
    }

    ghost function Devices(): set<Device>
      reads `mrcs, Mrcs()
    {
      set i, j | 0 <= i < |mrcs| && 0 <= j < |mrcs[i].devices| :: mrcs[i].devices[j]
    }

    // What is below listens upwards, and a flag that is up has all those above
    // it up.
    ghost predicate Connected()
      reads this, Mrcs(), Devices()
    {
      && (forall i, j | 0 <= i < j < |mrcs| :: mrcs[i] != mrcs[j])
      && (forall i | 0 <= i < |mrcs| :: mrcs[i].setup == this && mrcs[i].Valid() && (mrcs[i].modified ==> modified))
    }

    // The flag is sound: without it the content is what it was.
    ghost predicate Valid()
      reads this, Mrcs(), Devices()
    {
      Connected() && (!modified ==> Content() == saved)
    }

    // _on_mrc_modified_changed(True)
    method MrcModified()
      modifies `modified
      ensures modified
    {
      modified := true;
    }

    // A setter of a device somewhere in the setup.
    method SetOnDevice(i: nat, j: nat, op: DeviceOp) returns (r: Option<bool>)
      requires Valid() && i < |mrcs| && j < |mrcs[i].devices|
      modifies this, Mrcs(), Devices()
      ensures Valid() && mrcs == old(mrcs) && mrcs[i].devices == old(mrcs[i].devices) && saved == old(saved)
      ensures r.None? <==> After(op, old(mrcs[i].devices[j].Content())).None?
      ensures r.Some? ==> mrcs[i].devices[j].Content() == After(op, old(mrcs[i].devices[j].Content())).value
      ensures r.Some? && r.value <==> mrcs[i].devices[j].Content() != old(mrcs[i].devices[j].Content())
      ensures mrcs[i].devices[j].Content() != old(mrcs[i].devices[j].Content()) ==>
                modified && mrcs[i].modified && mrcs[i].devices[j].modified
      ensures mrcs[i].devices[j].Content() == old(mrcs[i].devices[j].Content()) ==>
                unchanged(this) && unchanged(Mrcs()) && unchanged(Devices())
      // Nothing else changes.
      ensures forall k | 0 <= k < |mrcs| && k != i :: unchanged(mrcs[k])
      ensures forall d <- Devices() :: d == mrcs[i].devices[j] || unchanged(d)
    {
      hide After, Contents, MrcContents;
      var device := mrcs[i].devices[j];
      assert device.FlagsUp();
      r := device.Apply(op);
    }

    // Adding a device to one of the MRCs, or removing one.
    method AddDeviceTo(i: nat, device: Device) returns (ok: bool)
      requires Valid() && i < |mrcs| && device.mrc == null
      modifies this, Mrcs(), device
      ensures Valid() && mrcs == old(mrcs) && saved == old(saved)
      ensures ok <==> ConfigFiles.AddDevice(old(Contents(mrcs[i].devices)), old(device.Content())).Some?
      ensures ok ==> modified && mrcs[i].modified
      ensures ok ==>
                Contents(mrcs[i].devices) ==
                ConfigFiles.AddDevice(old(Contents(mrcs[i].devices)), old(device.Content())).value
      ensures mrcs[i].url == old(mrcs[i].url) && mrcs[i].name == old(mrcs[i].name)
      ensures mrcs[i].autoconnect == old(mrcs[i].autoconnect)
      ensures forall k | 0 <= k < |mrcs| && k != i :: unchanged(mrcs[k])
      ensures !ok ==> Content() == old(Content()) && modified == old(modified)
    {
      hide Contents, MrcContents;
      var mrc := mrcs[i];
      ghost var at;
      ok, at := mrc.AddDevice(device);
    }

    method RemoveDeviceFrom(i: nat, k: nat)
      requires Valid() && i < |mrcs| && k < |mrcs[i].devices|
      modifies this, Mrcs(), Devices()
      ensures Valid() && mrcs == old(mrcs) && saved == old(saved) && modified && mrcs[i].modified
      ensures Contents(mrcs[i].devices) == old(Contents(mrcs[i].devices)[..k] + Contents(mrcs[i].devices)[k + 1..])
      ensures mrcs[i].url == old(mrcs[i].url) && mrcs[i].name == old(mrcs[i].name)
      ensures mrcs[i].autoconnect == old(mrcs[i].autoconnect)
      ensures forall l | 0 <= l < |mrcs| && l != i :: unchanged(mrcs[l])
      ensures forall d <- old(Devices()) :: d == old(mrcs[i].devices[k]) || unchanged(d)
    {
      hide Contents, MrcContents;
      mrcs[i].RemoveDevice(k);
    }

    // A setter of one of the MRCs.
    method SetOnMrc(i: nat, op: MrcOp)
      requires Valid() && i < |mrcs|
      modifies this, Mrcs()
      ensures Valid() && mrcs == old(mrcs) && saved == old(saved)
      ensures mrcs[i].Content() == AfterMrc(op, old(mrcs[i].Content()))
      ensures mrcs[i].Content() != old(mrcs[i].Content()) ==> modified && mrcs[i].modified
      ensures mrcs[i].Content() == old(mrcs[i].Content()) ==> unchanged(`modified) && unchanged(mrcs[i])
      ensures forall k | 0 <= k < |mrcs| && k != i :: unchanged(mrcs[k])
    {
      hide Contents;
      mrcs[i].Set(op);
    }

    method SetAutoconnect(b: bool)
      requires Valid()
      modifies `autoconnect, `modified
      ensures Valid() && Content() == old(Content()).(autoconnect := b)
      ensures Content() != old(Content()) ==> modified
    {
      hide MrcContents;
      if autoconnect != b {
        autoconnect := b;
        modified := true;
      }
    }

    method SetFilename(f: string)
      requires Valid()
      modifies `filename, `modified
      ensures Valid() && Content() == old(Content()) && filename == f
      ensures modified == (old(modified) || f != old(filename))
    {
      hide MrcContents;
      if filename != f {
        filename := f;
        modified := true;
      }
    }

    // add_mrc: false stands for the ValueError of a URL that exists.
    method AddMrc(mrc: ConfigMrc) returns (ok: bool)
      requires Valid() && mrc.Valid() && mrc.setup == null
      modifies `mrcs, `modified, {mrc}`setup
      ensures Valid() && saved == old(saved)
      ensures ok <==> ConfigFiles.AddMrc(old(MrcContents(mrcs)), old(mrc.Content())).Some?
      ensures ok ==>
                modified && MrcContents(mrcs) == ConfigFiles.AddMrc(old(MrcContents(mrcs)), old(mrc.Content())).value
      ensures !ok ==> mrcs == old(mrcs) && modified == old(modified) && mrc.setup == null
    {
      hide MrcContents, InsertedMrc, Less;
      var content := mrc.Content();
      if ConfigFiles.AddMrc(MrcContents(mrcs), content).None? {
        return false;
      }
      InsertMrc(mrc);
      modified := true;
      ok := true;
    }

    method PlaceFor(m: MrcConfig) returns (k: nat)
      ensures k <= |mrcs| && InsertedMrc(MrcContents(mrcs), m) == MrcContents(mrcs)[..k] + [m] + MrcContents(mrcs)[k..]
    {
      k := 0;
      while k < |mrcs| && !Less(m.url, mrcs[k].url)
        invariant k <= |mrcs| && forall j | 0 <= j < k :: !Less(m.url, mrcs[j].url)
      {
        k := k + 1;
      }
      InsertedMrcAt(MrcContents(mrcs), m, k);
    }

    method InsertMrc(mrc: ConfigMrc)
      requires Connected() && mrc.Valid() && mrc.setup == null
      modifies `mrcs, {mrc}`setup
      ensures MrcContents(mrcs) == InsertedMrc(old(MrcContents(mrcs)), old(mrc.Content()))
      ensures MrcsConnected(mrc)
    {
      hide MrcContents, Contents, InsertedMrc, MrcsConnected;
      var k := PlaceFor(mrc.Content());
      Adopt(mrc);
      InsertMrcAt(mrc, k);
    }

    ghost predicate MrcsConnected(added: ConfigMrc)
      reads this, Mrcs(), Devices()
    {
      && (forall i, j | 0 <= i < j < |mrcs| :: mrcs[i] != mrcs[j])
      && (forall i | 0 <= i < |mrcs| ::
            mrcs[i].setup == this && mrcs[i].Valid() && (mrcs[i] != added && mrcs[i].modified ==> modified))
    }

    method Adopt(mrc: ConfigMrc)
      requires Connected() && mrc.Valid() && mrc.setup == null
      modifies {mrc}`setup
      ensures Connected() && mrc.Valid() && mrc.setup == this && forall i | 0 <= i < |mrcs| :: mrcs[i] != mrc
      ensures mrc.Content() == old(mrc.Content()) && MrcContents(mrcs) == old(MrcContents(mrcs))
    {
      hide MrcContents, Contents;
      assert forall i | 0 <= i < |mrcs| :: mrcs[i] != mrc;
      mrc.setup := this;
    }

    method InsertMrcAt(mrc: ConfigMrc, k: nat)
      requires Connected() && mrc.Valid() && mrc.setup == this && k <= |mrcs|
      requires forall i | 0 <= i < |mrcs| :: mrcs[i] != mrc
      modifies `mrcs
      ensures MrcContents(mrcs) == old(MrcContents(mrcs)[..k] + [mrc.Content()] + MrcContents(mrcs)[k..])
      ensures MrcsConnected(mrc)
    {
      hide MrcContents, Contents, InsertAt;
      MrcContentsInserted(mrcs, mrc, k);
      ghost var before := mrcs;
      mrcs := InsertAt(mrcs, mrc, k);
      InsertedApart(before, mrc, k, mrcs);
      forall i | 0 <= i < |mrcs|
        ensures mrcs[i].setup == this && mrcs[i].Valid() && (mrcs[i] != mrc && mrcs[i].modified ==> modified)
      {
        if i < k {
          assert mrcs[i] == before[i];
        } else if i > k {
          assert mrcs[i] == before[i - 1];
        } else {
          assert mrcs[i] == mrc;
        }
      }
      assert forall i, j | 0 <= i < j < |mrcs| :: mrcs[i] != mrcs[j];
    }

    // remove_mrc, for one of the MRCs.
    method RemoveMrc(k: nat)
      requires Valid() && k < |mrcs|
      modifies `mrcs, `modified, {mrcs[k]}`setup
      ensures Valid() && saved == old(saved) && modified && mrcs == old(mrcs[..k] + mrcs[k + 1..])
      ensures old(mrcs[k]).setup == null
    {
      hide MrcContents, Contents;
      mrcs[k].setup := null;
      mrcs := mrcs[..k] + mrcs[k + 1..];
      modified := true;
    }

    // The flag of one device is cleared.
    method ClearDevice(i: nat, j: nat)
      requires Valid() && i < |mrcs| && j < |mrcs[i].devices|
      modifies `modified, Mrcs()`modified, Devices()`modified
      ensures Valid() && mrcs == old(mrcs) && saved == old(saved) && Content() == old(Content())
      ensures !mrcs[i].devices[j].modified && modified == old(modified)
      ensures unchanged(Mrcs()) && forall d <- Devices() :: d == mrcs[i].devices[j] || unchanged(d)
    {
      hide MrcContents, Contents;
      mrcs[i].ClearDevice(j);
      SameMrcContents(i);
    }

    // When only flags of one MRC and its devices have changed.
    twostate lemma SameMrcContents(i: nat)
      requires old(Connected()) && mrcs == old(mrcs) && i < |mrcs| && mrcs[i].Content() == old(mrcs[i].Content())
      requires forall k | 0 <= k < |mrcs| && k != i :: unchanged(mrcs[k]) && mrcs[k].Content() == old(mrcs[k].Content())
      ensures MrcContents(mrcs) == old(MrcContents(mrcs))
    {
      hide Contents;
    }

    // A flag anywhere means a flag on all that is above it; so below a cleared
    // setup every flag is down.
    lemma FlagsReachUp(i: nat, j: nat)
      requires Connected() && i < |mrcs| && j < |mrcs[i].devices|
      ensures mrcs[i].devices[j].modified ==> mrcs[i].modified && modified
      ensures !modified ==> !mrcs[i].modified && !mrcs[i].devices[j].modified
    {
    }

    // set_modified(False): the hook clears the MRCs first.
    method ClearFlag()
      requires Valid()
      modifies `modified, `saved, Mrcs()`modified, Devices()`modified
      ensures Valid() && !modified && Content() == old(Content()) && saved == Content() && mrcs == old(mrcs)
    {
      hide MrcContents, Contents, Connected;
      ClearMrcs();
      LowerFlag();
    }

    method LowerFlag()
      requires Connected() && forall i | 0 <= i < |mrcs| :: !mrcs[i].modified
      modifies `modified, `saved
      ensures Valid() && !modified && Content() == old(Content()) && saved == Content()
    {
      hide MrcContents, Contents;
      modified, saved := false, Content();
    }

    method ClearMrcs()
      requires Connected()
      modifies Mrcs()`modified, Devices()`modified, `modified
      ensures Connected() && modified == old(modified) && MrcContents(mrcs) == old(MrcContents(mrcs))
      ensures forall i | 0 <= i < |mrcs| :: !mrcs[i].modified
    {
      hide MrcContents, Contents;
      for i := 0 to |mrcs|
        invariant Connected() && modified == old(modified)
        invariant MrcContents(mrcs) == old(MrcContents(mrcs))
        invariant forall k | 0 <= k < i :: !mrcs[k].modified
      {
        ClearMrc(i);
      }
    }

    // set_modified(False) on one MRC.
    method ClearMrc(i: nat)
      requires Connected() && i < |mrcs|
      modifies {mrcs[i]}`modified, mrcs[i].Devices()`modified, mrcs[i].Setups()`modified
      ensures Connected() && !mrcs[i].modified && modified == old(modified) &&
              MrcContents(mrcs) == old(MrcContents(mrcs))
      ensures forall j | 0 <= j < |mrcs[i].devices| :: !mrcs[i].devices[j].modified
    {
      var mrc := mrcs[i];
      mrc.ClearFlag();
      forall k | 0 <= k < |mrcs|
        ensures mrcs[k].Content() == old(mrcs[k].Content()) && mrcs[k].Valid()
      {
        if k != i {
          assert forall j | 0 <= j < |mrcs[k].devices| :: mrcs[k].devices[j].mrc != mrc;
        }
      }
    }
  }
}

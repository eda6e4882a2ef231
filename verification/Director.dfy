/** The objects of the application tree, and the director that keeps them in step
    with the hardware tree and the config tree. */
module Director {
  import opened Messages
  import opened AppTree

  class AppDevice {
    const address: Address
    var hw: Option<Dev>
    var cfg: Option<Dev>
    var hwModule: int
    var cfgModule: int
    var idcConflict: bool
    var mrc: AppMrc?

    ghost function View(): DevNode
      reads this
    {
      DevNode(hw, cfg, hwModule, cfgModule, idcConflict)
    }

    // The conflict flag says what it should.
    ghost predicate FlagCorrect()
      reads this
    {
      idcConflict <==> hw.Some? && cfg.Some? && hw.value.idc != cfg.value.idc
    }

    // A device that is known to one side only; both modules are that side's.
    constructor (address: Address, side: Side, dev: Dev)
      ensures this.address == address && mrc == null
      ensures View() == CombineOf(side, Some(dev), None)
    {
      this.address := address;
      hw := if side == Hardware then Some(dev) else None;
      cfg := if side == Config then Some(dev) else None;
      hwModule, cfgModule := dev.idc, dev.idc;
      idcConflict := false;
      mrc := null;
    }

    method UpdateIdcConflict()
      modifies this`idcConflict
      ensures FlagCorrect()
    {
      idcConflict := hw.Some? && cfg.Some? && hw.value.idc != cfg.value.idc;
    }

    method Set(side: Side, dev: Option<Dev>)
      modifies this`hw, this`cfg, this`idcConflict
      ensures hw == (if side == Hardware then dev else old(hw))
      ensures cfg == (if side == Config then dev else old(cfg))
      ensures FlagCorrect()
    {
      if side == Hardware {
        hw := dev;
      } else {
        cfg := dev;
      }
      UpdateIdcConflict();
    }

    // The setters raise IDCConflict for a module that does not fit.

    method SetHwModule(module': int) returns (raised: bool)
      modifies this`hwModule
      ensures raised <==> hw.Some? && hw.value.idc != module'
      ensures hwModule == if raised then old(hwModule) else module'
    {
      if hw.Some? && hw.value.idc != module' {
        return true;
      }
      hwModule := module';
      return false;
    }

    method SetCfgModule(module': int) returns (raised: bool)
      modifies this`cfgModule
      ensures raised <==> cfg.Some? && cfg.value.idc != module'
      ensures cfgModule == if raised then old(cfgModule) else module'
    {
      if cfg.Some? && cfg.value.idc != module' {
        return true;
      }
      cfgModule := module';
      return false;
    }

    method SetModule(module': int) returns (raised: bool)
      requires hw.Some? || cfg.Some?
      modifies this`hwModule, this`cfgModule
      ensures FlagCorrect() ==>
                (raised <==> idcConflict || module' != (if hw.Some? then hw.value.idc else cfg.value.idc))
      ensures !raised ==> hwModule == module' && cfgModule == module'
    {
      if idcConflict {
        return true;
      }
      if module' != (if hw.Some? then hw.value.idc else cfg.value.idc) {
        return true;
      }
      raised := SetHwModule(module');
      if raised {
        return true;
      }
      raised := SetCfgModule(module');
    }
  }

  class AppMrc {
    const url: Url
    var hw: Option<nat>
    var cfg: Option<nat>
    var devices: seq<AppDevice>

    ghost predicate Valid()
      reads this, devices
    {
      Sorted(devices) && forall d <- devices :: d.mrc == this
    }

    ghost function View(): MrcNode
      requires Valid()
      reads this, devices
    {
      MrcNode(hw, cfg, Nodes(devices))
    }

    function Of(side: Side): Option<nat>
      reads this
    {
      if side == Hardware then hw else cfg
    }

    static ghost predicate Sorted(devices: seq<AppDevice>) {
      forall i, j | 0 <= i < j < |devices| :: devices[i].address.Before(devices[j].address)
    }

    static ghost function Nodes(devices: seq<AppDevice>): map<Address, DevNode>
      requires Sorted(devices)
      reads devices
    {
      map d | d in devices :: d.address := d.View()
    }

    twostate lemma Same()
      requires old(Valid()) && unchanged(this) && forall d <- devices :: unchanged(d)
      ensures Valid() && View() == old(View())
    {
    }

    static lemma OnePerAddress(devices: seq<AppDevice>)
      requires Sorted(devices)
      ensures forall d, e | d in devices && e in devices && d.address == e.address :: d == e
    {
    }

    static lemma InsertSorted(devices: seq<AppDevice>, i: nat, d: AppDevice)
      requires Sorted(devices) && i <= |devices|
      requires forall j | 0 <= j < i :: devices[j].address.Before(d.address)
      requires i < |devices| ==> d.address.Before(devices[i].address)
      ensures Sorted(devices[..i] + [d] + devices[i..])
      ensures forall e :: e in devices[..i] + [d] + devices[i..] <==> e in devices || e == d
    {
      var after := devices[..i] + [d] + devices[i..];
      forall j, k | 0 <= j < k < |after| ensures after[j].address.Before(after[k].address) {
        assert j < i ==> after[j] == devices[j];
        assert j > i ==> after[j] == devices[j - 1];
        assert k > i ==> after[k] == devices[k - 1];
      }
      assert devices == devices[..i] + devices[i..];
    }

    static lemma RemoveSorted(devices: seq<AppDevice>, i: nat)
      requires Sorted(devices) && i < |devices|
      ensures Sorted(devices[..i] + devices[i + 1..])
      ensures forall e :: e in devices[..i] + devices[i + 1..] <==> e in devices && e != devices[i]
    {
      var after := devices[..i] + devices[i + 1..];
      forall j, k | 0 <= j < k < |after| ensures after[j].address.Before(after[k].address) {
        assert j >= i ==> after[j] == devices[j + 1];
        assert k >= i ==> after[k] == devices[k + 1];
      }
      assert forall j | 0 <= j < |after| :: after[j] == devices[if j < i then j else j + 1];
      assert devices == devices[..i] + [devices[i]] + devices[i + 1..];
    }

    static lemma NodesAdd(before: seq<AppDevice>, after: seq<AppDevice>, d: AppDevice)
      requires Sorted(before) && Sorted(after)
      requires forall e :: e in after <==> e in before || e == d
      ensures Nodes(after) == Nodes(before)[d.address := d.View()]
    {
      OnePerAddress(after);
      hide Sorted;
      var m, n := Nodes(before)[d.address := d.View()], Nodes(after);
      assert d in after;
      forall a | a in n ensures a in m && m[a] == n[a] {
        var e :| e in after && e.address == a;
        assert e != d ==> e in before;
      }
      forall a | a in m ensures a in n {
        if a != d.address {
          var e :| e in before && e.address == a;
          assert e in after;
        }
      }
    }

    static lemma NodesRemove(before: seq<AppDevice>, after: seq<AppDevice>, d: AppDevice)
      requires Sorted(before) && Sorted(after) && d in before
      requires forall e :: e in after <==> e in before && e != d
      ensures Nodes(after) == Nodes(before) - {d.address}
    {
      OnePerAddress(before);
      hide Sorted;
      var m, n := Nodes(before) - {d.address}, Nodes(after);
      forall a | a in n ensures a in m && m[a] == n[a] {
        var e :| e in after && e.address == a;
        assert e in before;
      }
      forall a | a in m ensures a in n {
        var e :| e in before && e.address == a;
        assert e in after;
      }
    }

    constructor (url: Url, side: Side, id: nat)
      ensures this.url == url && devices == [] && Valid()
      ensures View() == MrcNode(None, None, map[]).With(side, Some(id))
    {
      this.url := url;
      hw := if side == Hardware then Some(id) else None;
      cfg := if side == Config then Some(id) else None;
      devices := [];
    }

    method Set(side: Side, id: Option<nat>)
      requires Valid()
      modifies this`hw, this`cfg
      ensures Valid() && View() == old(View()).With(side, id)
    {
      if side == Hardware {
        hw := id;
      } else {
        cfg := id;
      }
    }

    function GetDevice(a: Address): (d: AppDevice?)
      requires Valid()
      reads this, devices
      ensures d == null <==> a !in View().devices
      ensures d != null ==> d in devices && d.address == a
    {
      First(devices, a)
    }

    static function First(devices: seq<AppDevice>, a: Address): (d: AppDevice?)
      ensures d == null <==> forall e <- devices :: e.address != a
      ensures d != null ==> d in devices && d.address == a
    {
      if devices == [] then null
      else if devices[0].address == a then devices[0]
      else First(devices[1..], a)
    }

    // Where sorting puts an appended device.
    static function PlaceFor(devices: seq<AppDevice>, a: Address): (i: nat)
      requires Sorted(devices) && forall d <- devices :: d.address != a
      ensures i <= |devices|
      ensures forall j | 0 <= j < i :: devices[j].address.Before(a)
      ensures i < |devices| ==> a.Before(devices[i].address)
    {
      if devices == [] then 0
      else
        var n := |devices| - 1;
        assert devices[n] in devices;
        if devices[n].address.Before(a) then n + 1 else PlaceFor(devices[..n], a)
    }

    lemma AddressesAreKeys()
      requires Valid()
      ensures View().devices.Keys == set d | d in devices :: d.address
      ensures forall d <- devices :: View().devices[d.address] == d.View()
    {
    }

    // 'before' are the nodes before d changed.
    static lemma OneChanged(devices: seq<AppDevice>, d: AppDevice, before: map<Address, DevNode>)
      requires Sorted(devices) && d in devices
      requires before.Keys == set e | e in devices :: e.address
      requires forall e <- devices :: e == d || before[e.address] == e.View()
      ensures Nodes(devices) == before[d.address := d.View()]
    {
      OnePerAddress(devices);
      hide Sorted;
      var x, y := before[d.address := d.View()], Nodes(devices);
      forall a | a in y ensures a in x && x[a] == y[a] {
        var e :| e in devices && e.address == a;
      }
      forall a | a in x ensures a in y {
        var e :| e in devices && e.address == a;
      }
    }

    method AddDevice(d: AppDevice)
      requires Valid() && d !in devices && d.address !in View().devices
      modifies this`devices, d`mrc
      ensures Valid() && forall e :: e in devices <==> e in old(devices) || e == d
      ensures View() == old(View()).(devices := old(View()).devices[d.address := d.View()])
    {
      hide Sorted, Nodes;
      AddressesAreKeys();
      var i := PlaceFor(devices, d.address);
      ghost var before := devices;
      InsertSorted(devices, i, d);
      devices := devices[..i] + [d] + devices[i..];
      d.mrc := this;
      NodesAdd(before, devices, d);
    }

    method RemoveDevice(d: AppDevice)
      requires Valid() && d in devices
      modifies this`devices, d`mrc
      ensures Valid() && forall e :: e in devices <==> e in old(devices) && e != d
      ensures View() == old(View()).(devices := old(View()).devices - {d.address})
    {
      hide Sorted, Nodes;
      var i := IndexOf(devices, d);
      RemoveSorted(devices, i);
      NodesRemove(devices, devices[..i] + devices[i + 1..], d);
      devices := devices[..i] + devices[i + 1..];
      d.mrc := null;
    }
  }

  function IndexOf<T(==)>(s: seq<T>, x: T): (i: nat)
    requires x in s
    ensures i < |s| && s[i] == x
  {
    if s[0] == x then 0 else IndexOf(s[1..], x) + 1
  }

  // The registry of the application tree.
  class MRCRegistry {
    var mrcs: seq<AppMrc>
    ghost var Repr: set<object>

    static ghost predicate Sorted(mrcs: seq<AppMrc>) {
      forall i, j | 0 <= i < j < |mrcs| :: mrcs[i].url < mrcs[j].url
    }

    static ghost function DevicesIn(mrcs: seq<AppMrc>): (devices: set<object>)
      reads mrcs
      ensures forall m, d | m in mrcs && d in m.devices :: d in devices
      ensures forall o <- devices :: o is AppDevice
    {
      set m: AppMrc, d: AppDevice | m in mrcs && d in m.devices :: d as object
    }

    static ghost predicate AllValid(mrcs: seq<AppMrc>)
      reads mrcs, DevicesIn(mrcs)
    {
      forall m <- mrcs :: m.Valid()
    }

    ghost predicate Valid()
      reads this, Repr
      ensures Valid() ==> this in Repr
    {
      && this in Repr
      && (forall m <- mrcs :: m in Repr && forall d <- m.devices :: d in Repr)
      && Sorted(mrcs) && AllValid(mrcs)
    }

    ghost function View(): map<Url, MrcNode>
      requires Valid()
      reads this, Repr
    {
      Nodes(mrcs)
    }

    static ghost function Nodes(mrcs: seq<AppMrc>): map<Url, MrcNode>
      requires Sorted(mrcs) && AllValid(mrcs)
      reads mrcs, DevicesIn(mrcs)
    {
      map m | m in mrcs :: m.url := m.View()
    }

    constructor ()
      ensures Valid() && View() == map[] && fresh(Repr)
    {
      mrcs := [];
      Repr := {this};
    }

    static lemma OnePerUrl(mrcs: seq<AppMrc>)
      requires Sorted(mrcs)
      ensures forall m, n | m in mrcs && n in mrcs && m.url == n.url :: m == n
    {
    }

    function GetMrc(url: Url): (m: AppMrc?)
      requires Valid()
      reads this, Repr
      ensures m == null <==> url !in View()
      ensures m != null ==> m in mrcs && m.url == url
    {
      FirstWithUrl(mrcs, url)
    }

    static function FirstWithUrl(mrcs: seq<AppMrc>, url: Url): (m: AppMrc?)
      ensures m == null <==> forall n <- mrcs :: n.url != url
      ensures m != null ==> m in mrcs && m.url == url
    {
      if mrcs == [] then null
      else if mrcs[0].url == url then mrcs[0]
      else FirstWithUrl(mrcs[1..], url)
    }

    // The MRC that points to the given object of one of the trees.
    function FindMrc(side: Side, id: nat): (m: AppMrc?)
      reads this, mrcs
      ensures m == null <==> forall n <- mrcs :: n.Of(side) != Some(id)
      ensures m != null ==> m in mrcs && m.Of(side) == Some(id)
    {
      FirstWithObject(mrcs, side, id)
    }

    static function FirstWithObject(mrcs: seq<AppMrc>, side: Side, id: nat): (m: AppMrc?)
      reads mrcs
      ensures m == null <==> forall n <- mrcs :: n.Of(side) != Some(id)
      ensures m != null ==> m in mrcs && m.Of(side) == Some(id)
    {
      if mrcs == [] then null
      else if mrcs[0].Of(side) == Some(id) then mrcs[0]
      else FirstWithObject(mrcs[1..], side, id)
    }

    static lemma NodesAre(mrcs: seq<AppMrc>)
      requires Sorted(mrcs) && AllValid(mrcs)
      ensures forall u :: u in Nodes(mrcs) <==> exists n :: n in mrcs && n.url == u
      ensures forall n <- mrcs :: n.url in Nodes(mrcs) && Nodes(mrcs)[n.url] == n.View()
    {
      OnePerUrl(mrcs);
      hide Sorted, AppMrc.Valid, AppMrc.View;
    }

    static lemma NodesAdd(before: seq<AppMrc>, after: seq<AppMrc>, m: AppMrc)
      requires Sorted(before) && Sorted(after) && AllValid(after) && AllValid(before)
      requires forall n :: n in after <==> n in before || n == m
      ensures Nodes(after) == Nodes(before)[m.url := m.View()]
    {
      OnePerUrl(after);
      NodesAre(before);
      NodesAre(after);
      hide Sorted, AppMrc.Valid, AppMrc.View, Nodes;
      var x, y := Nodes(before)[m.url := m.View()], Nodes(after);
      assert m in after;
      forall u | u in y ensures u in x && x[u] == y[u] {
        var n :| n in after && n.url == u;
        assert n != m ==> n in before;
      }
      forall u | u in x ensures u in y {
        if u != m.url {
          var n :| n in before && n.url == u;
          assert n in after;
        }
      }
    }

    static lemma NodesRemove(before: seq<AppMrc>, after: seq<AppMrc>, m: AppMrc)
      requires Sorted(before) && Sorted(after) && m in before && AllValid(before) && AllValid(after)
      requires forall n :: n in after <==> n in before && n != m
      ensures Nodes(after) == Nodes(before) - {m.url}
    {
      OnePerUrl(before);
      NodesAdd(after, before, m);
      assert m.url !in Nodes(after);
      hide Sorted, AppMrc.Valid, AppMrc.View, Nodes;
    }

    static lemma InsertSorted(mrcs: seq<AppMrc>, i: nat, m: AppMrc)
      requires Sorted(mrcs) && i <= |mrcs|
      requires forall j | 0 <= j < i :: mrcs[j].url < m.url
      requires i < |mrcs| ==> m.url < mrcs[i].url
      ensures Sorted(mrcs[..i] + [m] + mrcs[i..])
      ensures forall e :: e in mrcs[..i] + [m] + mrcs[i..] <==> e in mrcs || e == m
    {
      var after := mrcs[..i] + [m] + mrcs[i..];
      forall j, k | 0 <= j < k < |after| ensures after[j].url < after[k].url {
        assert j < i ==> after[j] == mrcs[j];
        assert j > i ==> after[j] == mrcs[j - 1];
        assert k > i ==> after[k] == mrcs[k - 1];
      }
      assert mrcs == mrcs[..i] + mrcs[i..];
    }

    static lemma RemoveSorted(mrcs: seq<AppMrc>, i: nat)
      requires Sorted(mrcs) && i < |mrcs|
      ensures Sorted(mrcs[..i] + mrcs[i + 1..])
      ensures forall e :: e in mrcs[..i] + mrcs[i + 1..] <==> e in mrcs && e != mrcs[i]
    {
      var after := mrcs[..i] + mrcs[i + 1..];
      forall j, k | 0 <= j < k < |after| ensures after[j].url < after[k].url {
        assert j >= i ==> after[j] == mrcs[j + 1];
        assert k >= i ==> after[k] == mrcs[k + 1];
      }
      assert forall j | 0 <= j < |after| :: after[j] == mrcs[if j < i then j else j + 1];
      assert mrcs == mrcs[..i] + [mrcs[i]] + mrcs[i + 1..];
    }

    static function PlaceFor(mrcs: seq<AppMrc>, url: Url): (i: nat)
      requires Sorted(mrcs) && forall m <- mrcs :: m.url != url
      ensures i <= |mrcs|
      ensures forall j | 0 <= j < i :: mrcs[j].url < url
      ensures i < |mrcs| ==> url < mrcs[i].url
    {
      if mrcs == [] then 0
      else
        var n := |mrcs| - 1;
        assert mrcs[n] in mrcs;
        if mrcs[n].url < url then n + 1 else PlaceFor(mrcs[..n], url)
    }

    // Changes outside the listed objects do not matter.
    static twostate lemma Unaffected(mrcs: seq<AppMrc>)
      requires old(AllValid(mrcs)) && Sorted(mrcs)
      requires forall n <- mrcs :: unchanged(n) && forall d <- n.devices :: unchanged(d)
      ensures AllValid(mrcs) && Nodes(mrcs) == old(Nodes(mrcs))
    {
      assert forall n <- mrcs :: n.Valid() && n.View() == old(n.View());
      hide AppMrc.Valid, AppMrc.View, Sorted;
    }

    lemma UrlsAreKeys()
      requires Valid()
      ensures View().Keys == set n | n in mrcs :: n.url
      ensures forall n <- mrcs :: View()[n.url] == n.View()
    {
    }

    // 'before' are the nodes before m changed.
    static lemma OneChanged(mrcs: seq<AppMrc>, m: AppMrc, before: map<Url, MrcNode>)
      requires Sorted(mrcs) && AllValid(mrcs) && m in mrcs
      requires before.Keys == set n | n in mrcs :: n.url
      requires forall n <- mrcs :: n == m || before[n.url] == n.View()
      ensures Nodes(mrcs) == before[m.url := m.View()]
    {
      OnePerUrl(mrcs);
      hide Sorted, AppMrc.Valid, AppMrc.View;
      var x, y := before[m.url := m.View()], Nodes(mrcs);
      forall u | u in y ensures u in x && x[u] == y[u] {
        var n :| n in mrcs && n.url == u;
      }
      forall u | u in x ensures u in y {
        var n :| n in mrcs && n.url == u;
      }
    }

    // No device belongs to two MRCs.
    lemma OwnDevices(m: AppMrc)
      requires Valid() && m in mrcs
      ensures forall n, d | n in mrcs && n != m && d in n.devices :: d !in m.devices
    {
    }

    lemma Inserted(i: nat, m: AppMrc)
      requires Valid() && m.Valid() && i <= |mrcs|
      requires forall j | 0 <= j < i :: mrcs[j].url < m.url
      requires i < |mrcs| ==> m.url < mrcs[i].url
      ensures var after := mrcs[..i] + [m] + mrcs[i..];
              && Sorted(after) && AllValid(after) && (forall n :: n in after <==> n in mrcs || n == m)
              && Nodes(after) == View()[m.url := m.View()]
    {
      var after := mrcs[..i] + [m] + mrcs[i..];
      InsertSorted(mrcs, i, m);
      hide Sorted, AppMrc.Valid, AppMrc.View;
      NodesAdd(mrcs, after, m);
    }

    lemma Removed(i: nat)
      requires Valid() && i < |mrcs|
      ensures var after := mrcs[..i] + mrcs[i + 1..];
              && Sorted(after) && AllValid(after) && (forall n :: n in after <==> n in mrcs && n != mrcs[i])
              && Nodes(after) == View() - {mrcs[i].url}
    {
      var after := mrcs[..i] + mrcs[i + 1..];
      RemoveSorted(mrcs, i);
      hide Sorted, AppMrc.Valid, AppMrc.View;
      NodesRemove(mrcs, after, mrcs[i]);
    }

    method AddMrc(m: AppMrc)
      requires Valid() && m !in mrcs && m.url !in View() && m.Valid() && m.devices == []
      modifies this
      ensures Valid() && mrcs != [] && Repr == old(Repr) + {m}
      ensures View() == old(View())[m.url := m.View()]
    {
      hide Sorted, AllValid, Nodes, AppMrc.Valid, AppMrc.View, DevicesIn;
      UrlsAreKeys();
      var i := PlaceFor(mrcs, m.url);
      Inserted(i, m);
      mrcs := mrcs[..i] + [m] + mrcs[i..];
      Repr := Repr + {m};
      Unaffected(mrcs);
    }

    method RemoveMrc(m: AppMrc)
      requires Valid() && m in mrcs
      modifies this
      ensures Valid() && Repr == old(Repr)
      ensures View() == old(View()) - {m.url}
    {
      var i := IndexOf(mrcs, m);
      Removed(i);
      hide Sorted, AllValid, Nodes, AppMrc.Valid, AppMrc.View, DevicesIn;
      mrcs := mrcs[..i] + mrcs[i + 1..];
      Unaffected(mrcs);
    }
  }

  class Director {
    const registry: MRCRegistry
    // Whether the function connected to idc_changed, which is bound to the device
    // by a keyword, is called without the signal's own argument. Called with it,
    // Python refuses the call.
    const idcSignalAccepted: bool

    // An empty registry takes in both trees.
    constructor (registry: MRCRegistry, hw: Tree, cfg: Tree, idcSignalAccepted: bool)
      requires registry.Valid() && registry.View() == map[]
      requires DistinctIds(hw) && DistinctIds(cfg)
      modifies registry.Repr
      ensures this.registry == registry && this.idcSignalAccepted == idcSignalAccepted && Joined(Trees(hw, cfg))
    {
      this.registry, this.idcSignalAccepted := registry, idcSignalAccepted;
      new;
      JoinedExactly(Trees(map[], map[]));
      var raised := RegistrySet(Hardware, map[], hw, Trees(map[], map[]));
      raised := RegistrySet(Config, map[], cfg, Trees(hw, map[]));
      JoinedExactly(Trees(hw, cfg));
    }

    // The application tree is the outer join of the two trees.
    ghost predicate Joined(t: Trees)
      reads registry, registry.Repr
    {
      registry.Valid() && registry.View() == Join(t) && AllDistinct(t)
    }

    // It is, but for the modules of some devices. This is what every handler keeps.
    ghost predicate Follows(t: Trees)
      reads registry, registry.Repr
    {
      registry.Valid() && SameTree(registry.View(), Join(t)) && AllDistinct(t)
    }

    // The devices whose modules are not those of the join.
    ghost function Unfit(t: Trees): set<Place>
      requires Follows(t)
      reads registry, registry.Repr
    {
      Stale(registry.View(), Join(t))
    }

    lemma JoinedExactly(t: Trees)
      ensures Joined(t) <==> Follows(t) && Unfit(t) == {}
    {
      hide Join, MRCRegistry.Valid, MRCRegistry.View, AllDistinct, SameTree, Stale;
      if registry.Valid() {
        NothingStale(registry.View(), Join(t));
      }
    }

    // The modules fit; the setters never raise.
    method MaybeUpdateDeviceModule(d: AppDevice) returns (raised: bool)
      requires d.FlagCorrect() && (d.hw.Some? || d.cfg.Some?)
      modifies d`hwModule, d`cfgModule
      ensures !raised
      ensures d.View() == Combine(d.hw, d.cfg)
    {
      if d.idcConflict {
        raised := d.SetHwModule(d.hw.value.idc);
        if raised {
          return;
        }
        raised := d.SetCfgModule(d.cfg.value.idc);
      } else {
        raised := d.SetModule(if d.hw.Some? then d.hw.value.idc else d.cfg.value.idc);
      }
    }

    // The other side of a device that stays in the tree.
    method UpdateDevice(m: AppMrc, d: AppDevice, side: Side, dev: Option<Dev>) returns (raised: bool)
      requires m.Valid() && d in m.devices
      requires dev.Some? || d.View().Of(Other(side)).Some?
      modifies d
      ensures !raised && m.Valid()
      ensures m.View() == WithDevice(old(m.View()), side, d.address, dev)
    {
      hide AppMrc.Sorted, AppMrc.Nodes, Combine;
      ghost var before := m.View().devices;
      m.AddressesAreKeys();
      d.Set(side, dev);
      raised := MaybeUpdateDeviceModule(d);
      AppMrc.OneChanged(m.devices, d, before);
    }

    // The device notices a change of its own; nobody looks at its modules.
    method ChangeDevice(m: AppMrc, d: AppDevice, side: Side, dev: Dev)
      requires m.Valid() && d in m.devices
      modifies d
      ensures m.Valid() && d.address in old(m.View()).devices
      ensures m.View() == WithStaleDevice(old(m.View()), side, d.address, dev)
    {
      hide AppMrc.Sorted, AppMrc.Nodes;
      ghost var before := m.View().devices;
      m.AddressesAreKeys();
      d.Set(side, Some(dev));
      AppMrc.OneChanged(m.devices, d, before);
    }

    // The device handlers, for the MRC the device belongs to: the node of the
    // device is made, updated or dropped.
    method DeviceAddedTo(m: AppMrc, side: Side, a: Address, dev: Dev) returns (raised: bool)
      requires m.Valid()
      modifies m`devices, m.devices
      ensures !raised && m.Valid()
      ensures forall d | d in m.devices && d !in old(m.devices) :: fresh(d)
      ensures m.View() == WithDevice(old(m.View()), side, a, Some(dev))
    {
      hide AppMrc.Sorted, AppMrc.Nodes, Combine;
      var d := m.GetDevice(a);
      if d == null {
        d := new AppDevice(a, side, dev);
        m.AddDevice(d);
        raised := false;
      } else {
        raised := UpdateDevice(m, d, side, Some(dev));
      }
    }

    method DeviceRemovedFrom(m: AppMrc, side: Side, a: Address) returns (raised: bool)
      requires m.Valid() && a in m.View().devices
      modifies m`devices, m.devices
      ensures !raised && m.Valid()
      ensures forall d <- m.devices :: d in old(m.devices)
      ensures m.View() == WithDevice(old(m.View()), side, a, None)
    {
      hide AppMrc.Sorted, AppMrc.Nodes, Combine;
      var d := m.GetDevice(a);
      m.AddressesAreKeys();
      if (if side == Hardware then d.cfg else d.hw).None? {
        ghost var before := m.View().devices;
        d.Set(side, None);
        AppMrc.OneChanged(m.devices, d, before);
        m.RemoveDevice(d);
        raised := false;
      } else {
        raised := UpdateDevice(m, d, side, None);
      }
    }

    // The MRC the director looks up by an object is the one with its URL.
    lemma FoundByUrl(t: Trees, side: Side, url: Url, id: nat)
      requires Follows(t) && url in t.Of(side) && t.Of(side)[url].id == id
      ensures registry.FindMrc(side, id) != null && url in registry.View() && url in Join(t)
      ensures var m := registry.FindMrc(side, id);
              && m in registry.mrcs && m in registry.Repr && m.url == url && m.Valid()
              && m.View() == registry.View()[url] && SameMrc(m.View(), Join(t)[url])
    {
      hide JoinDevices, MRCRegistry.Sorted, MRCRegistry.Nodes, AppMrc.Sorted, AppMrc.Nodes, JoinMrc, SameButModules;
      registry.UrlsAreKeys();
      forall n | n in registry.mrcs ensures n.Of(side) == Some(id) <==> n.url == url {
        assert n.url in registry.View();
        JoinSide(t, side, n.url);
        assert n.Of(side) == n.View().Of(side);
      }
      JoinSide(t, side, url);
    }

    static lemma SameId(t: Trees, side: Side, url: Url)
      requires AllDistinct(t) && url in t.Of(side)
      ensures forall mrc: Mrc | mrc.id == t.Of(side)[url].id :: AllDistinct(Put(t, side, url, mrc))
    {
      forall mrc: Mrc | mrc.id == t.Of(side)[url].id ensures AllDistinct(Put(t, side, url, mrc)) {
        PutDistinct(t, side, url, mrc);
      }
    }

    static lemma JoinSide(t: Trees, side: Side, url: Url)
      requires url in t.hw || url in t.cfg
      ensures url in Join(t) && Join(t)[url].Of(side) == IdOf(t.Of(side), url)
    {
    }

    // After a change within m, which leaves every other MRC alone.
    lemma Rejoin(m: AppMrc, before: map<Url, MrcNode>)
      requires registry.Valid() && m in registry.mrcs
      requires before.Keys == set n | n in registry.mrcs :: n.url
      requires forall n <- registry.mrcs :: n == m || before[n.url] == n.View()
      ensures registry.View() == before[m.url := m.View()]
    {
      hide MRCRegistry.Sorted, MRCRegistry.AllValid, AppMrc.View;
      MRCRegistry.OneChanged(registry.mrcs, m, before);
    }

    // The same as part of the whole tree.
    method AddWithin(m: AppMrc, side: Side, a: Address, dev: Dev) returns (raised: bool)
      requires registry.Valid() && m in registry.mrcs
      modifies registry.Repr
      ensures !raised && registry.Valid() && fresh(registry.Repr - old(registry.Repr))
      ensures registry.View() == old(registry.View())[m.url := WithDevice(old(m.View()), side, a, Some(dev))]
    {
      hide MRCRegistry.Sorted, MRCRegistry.Nodes, AppMrc.Sorted, AppMrc.Nodes, WithDevice;
      ghost var before := registry.View();
      registry.UrlsAreKeys();
      registry.OwnDevices(m);
      raised := DeviceAddedTo(m, side, a, dev);
      registry.Repr := registry.Repr + set d | d in m.devices :: d;
      forall n | n in registry.mrcs && n != m ensures n.Valid() && n.View() == old(n.View()) {
        n.Same();
      }
      Rejoin(m, before);
    }

    method RemoveWithin(m: AppMrc, side: Side, a: Address) returns (raised: bool)
      requires registry.Valid() && m in registry.mrcs && a in m.View().devices
      modifies registry.Repr
      ensures !raised && registry.Valid() && fresh(registry.Repr - old(registry.Repr))
      ensures registry.View() == old(registry.View())[m.url := WithDevice(old(m.View()), side, a, None)]
    {
      hide MRCRegistry.Sorted, MRCRegistry.Nodes, AppMrc.Sorted, AppMrc.Nodes, WithDevice;
      ghost var before := registry.View();
      registry.UrlsAreKeys();
      registry.OwnDevices(m);
      raised := DeviceRemovedFrom(m, side, a);
      forall n | n in registry.mrcs && n != m ensures n.Valid() && n.View() == old(n.View()) {
        n.Same();
      }
      Rejoin(m, before);
    }

    // ----- The handlers. 't' are the two trees before the event, the event of a
    // removal coming before the removal itself. -----

    method DeviceAdded(side: Side, id: nat, a: Address, dev: Dev, ghost t: Trees, ghost url: Url)
      returns (raised: bool)
      requires Follows(t) && url in t.Of(side) && t.Of(side)[url].id == id
      modifies registry.Repr
      ensures !raised && fresh(registry.Repr - old(registry.Repr))
      ensures var mrc := t.Of(side)[url];
              var u := Put(t, side, url, mrc.(devices := mrc.devices[a := dev]));
              Follows(u) && Unfit(u) == old(Unfit(t)) - {Place(url, a)}
    {
      hide Join, MRCRegistry.Valid, MRCRegistry.View, AppMrc.Valid, AppMrc.View, WithDevice, AllDistinct, Put;
      hide SameTree, SameMrc, Stale;
      FoundByUrl(t, side, url, id);
      SameId(t, side, url);
      var m: AppMrc := registry.FindMrc(side, id);
      StaleWithDevice(registry.View(), Join(t), url, side, a, Some(dev));
      raised := AddWithin(m, side, a, dev);
      JoinAddDevice(t, side, url, a, dev);
    }

    method DeviceAboutToBeRemoved(side: Side, id: nat, a: Address, ghost t: Trees, ghost url: Url)
      returns (raised: bool)
      requires Follows(t) && url in t.Of(side) && t.Of(side)[url].id == id && a in t.Of(side)[url].devices
      modifies registry.Repr
      ensures !raised && fresh(registry.Repr - old(registry.Repr))
      ensures var mrc := t.Of(side)[url];
              var u := Put(t, side, url, mrc.(devices := mrc.devices - {a}));
              Follows(u) && Unfit(u) == old(Unfit(t)) - {Place(url, a)}
    {
      hide Join, MRCRegistry.Valid, MRCRegistry.View, AppMrc.Valid, AppMrc.View, WithDevice, AllDistinct, Put;
      hide SameTree, Stale, SameButModules;
      FoundByUrl(t, side, url, id);
      SameId(t, side, url);
      var m: AppMrc := registry.FindMrc(side, id);
      StaleWithDevice(registry.View(), Join(t), url, side, a, None);
      JoinRemoveDevice(t, side, url, a);
      raised := RemoveWithin(m, side, a);
    }

    // Two nodes for a device have different modules.
    static predicate OtherModules(d: DevNode, e: DevNode) {
      d.hwModule != e.hwModule || d.cfgModule != e.cfgModule
    }

    // A device object that stays gets another identifier code. If the signal is
    // accepted, its modules fit afterwards; if it is not, they are what they were,
    // which is wrong for every new code if they fitted before.
    method DeviceIdcChanged(side: Side, id: nat, a: Address, idc: int, ghost t: Trees, ghost url: Url)
      returns (raised: bool)
      requires Follows(t) && url in t.Of(side) && t.Of(side)[url].id == id && a in t.Of(side)[url].devices
      modifies registry.Repr
      ensures !raised && fresh(registry.Repr - old(registry.Repr))
      ensures url in old(registry.View()) && a in old(registry.View())[url].devices
      ensures var mrc, p := t.Of(side)[url], Place(url, a);
              var u := Put(t, side, url, mrc.(devices := mrc.devices[a := mrc.devices[a].(idc := idc)]));
              && Follows(u) && Unfit(u) - {p} == old(Unfit(t)) - {p}
              && url in Join(u) && a in Join(u)[url].devices
              && (p in Unfit(u) <==>
                    !idcSignalAccepted && OtherModules(old(registry.View())[url].devices[a], Join(u)[url].devices[a]))
              && (p !in old(Unfit(t)) ==> (p in Unfit(u) <==> !idcSignalAccepted && idc != mrc.devices[a].idc))
    {
      hide Join, MRCRegistry.Valid, MRCRegistry.View, AppMrc.Valid, AppMrc.View, WithDevice, WithStaleDevice;
      hide AllDistinct;
      hide Put, SameTree, Stale, SameButModules;
      FoundByUrl(t, side, url, id);
      SameId(t, side, url);
      var m: AppMrc := registry.FindMrc(side, id);
      ghost var v, dev := registry.View(), t.Of(side)[url].devices[a];
      JoinHasDevice(t, side, url, a);
      SameDevice(m.View(), Join(t)[url], side, a);
      ghost var next := dev.(idc := idc);
      StaleWithDevice(v, Join(t), url, side, a, Some(next));
      StaleWithStaleDevice(v, Join(t), url, side, a, next);
      if Place(url, a) !in Unfit(t) {
        StaleIsWrong(v, Join(t), url, side, a, dev, idc);
      }
      raised := ChangeIdcWithin(m, side, a, idc, dev);
      JoinAddDevice(t, side, url, a, next);
      HasDevice(Join(t)[url], side, a, next);
    }

    static lemma SameDevice(n: MrcNode, k: MrcNode, side: Side, a: Address)
      requires SameMrc(n, k) && a in k.devices
      ensures a in n.devices && n.devices[a].Of(side) == k.devices[a].Of(side)
    {
      assert SameButModules(n.devices[a], k.devices[a]);
    }

    static lemma HasDevice(n: MrcNode, side: Side, a: Address, dev: Dev)
      ensures a in WithDevice(n, side, a, Some(dev)).devices
    {
    }

    // The device of the app tree sees the new code through its reference, corrects
    // its conflict flag and then gets its modules, if the signal is accepted.
    method ChangeIdcWithin(m: AppMrc, side: Side, a: Address, idc: int, ghost dev: Dev) returns (raised: bool)
      requires registry.Valid() && m in registry.mrcs
      requires a in m.View().devices && m.View().devices[a].Of(side) == Some(dev)
      modifies registry.Repr
      ensures !raised && registry.Valid() && fresh(registry.Repr - old(registry.Repr))
      ensures registry.View()
           == old(registry.View())[m.url :=
                if idcSignalAccepted then WithDevice(old(m.View()), side, a, Some(dev.(idc := idc)))
                else WithStaleDevice(old(m.View()), side, a, dev.(idc := idc))]
    {
      hide MRCRegistry.Sorted, MRCRegistry.Nodes, AppMrc.Sorted, AppMrc.Nodes, WithDevice, WithStaleDevice, Combine;
      ghost var before := registry.View();
      registry.UrlsAreKeys();
      registry.OwnDevices(m);
      var d: AppDevice := m.GetDevice(a);
      m.AddressesAreKeys();
      var changed := (if side == Hardware then d.hw else d.cfg).value.(idc := idc);
      if idcSignalAccepted {
        raised := UpdateDevice(m, d, side, Some(changed));
      } else {
        ChangeDevice(m, d, side, changed);
        raised := false;
      }
      forall n | n in registry.mrcs && n != m ensures n.Valid() && n.View() == old(n.View()) {
        n.Same();
      }
      Rejoin(m, before);
    }

    method MrcAdded(side: Side, url: Url, id: nat, devices: map<Address, Dev>, ghost t: Trees) returns (raised: bool)
      requires Follows(t) && url !in t.Of(side)
      requires forall u <- t.Of(side) :: t.Of(side)[u].id != id
      modifies registry.Repr
      ensures !raised && fresh(registry.Repr - old(registry.Repr))
      ensures var u := Put(t, side, url, Mrc(id, devices));
              Follows(u) && Unfit(u) == old(Unfit(t)) - At(url, devices.Keys)
    {
      hide *;
      AddNode(side, url, id, t);
      raised := AddDevices(side, url, id, map[], devices, t);
      assert map[] + devices == devices;
    }

    method AddDevices(side: Side, url: Url, id: nat, ghost known: map<Address, Dev>, devices: map<Address, Dev>,
                      ghost t: Trees)
      returns (raised: bool)
      requires Follows(Put(t, side, url, Mrc(id, known)))
      modifies registry.Repr
      ensures !raised && fresh(registry.Repr - old(registry.Repr))
      ensures var u := Put(t, side, url, Mrc(id, known + devices));
              Follows(u) && Unfit(u) == old(Unfit(Put(t, side, url, Mrc(id, known)))) - At(url, devices.Keys)
    {
      hide *;
      raised := false;
      var todo := devices.Keys;
      ghost var unfit := Unfit(Put(t, side, url, Mrc(id, known)));
      MoreKnown(known, devices, todo);
      NoneAt(unfit, url, devices.Keys);
      while todo != {}
        invariant todo <= devices.Keys && !raised
        invariant fresh(registry.Repr - old(registry.Repr))
        invariant Follows(Put(t, side, url, Mrc(id, known + (devices - todo))))
        invariant Unfit(Put(t, side, url, Mrc(id, known + (devices - todo)))) == unfit - At(url, devices.Keys - todo)
        decreases |todo|
      {
        var a :| a in todo;
        ghost var mrc := Mrc(id, known + (devices - todo));
        PutPut(t, side, url, mrc, mrc.(devices := mrc.devices[a := devices[a]]));
        raised := DeviceAdded(side, id, a, devices[a], Put(t, side, url, mrc), url);
        MoreKnown(known, devices, todo);
        OneMoreAt(unfit, url, devices.Keys, todo, a);
        todo := todo - {a};
      }
      MoreKnown(known, devices, {});
      assert devices.Keys - {} == devices.Keys;
    }

    static lemma NoneAt(unfit: set<Place>, url: Url, addresses: set<Address>)
      ensures unfit - At(url, addresses - addresses) == unfit
    {
    }

    static lemma OneMoreAt(unfit: set<Place>, url: Url, addresses: set<Address>, todo: set<Address>, a: Address)
      requires a in todo && todo <= addresses
      ensures unfit - At(url, addresses - todo) - {Place(url, a)} == unfit - At(url, addresses - (todo - {a}))
    {
    }

    static lemma MoreKnown(known: map<Address, Dev>, devices: map<Address, Dev>, todo: set<Address>)
      ensures forall a <- devices :: (known + (devices - todo))[a := devices[a]] == known + (devices - (todo - {a}))
      ensures devices - {} == devices
      ensures known + (devices - devices.Keys) == known
    {
    }

    // The node of the MRC itself: made, or pointed to the new object.
    method AddNode(side: Side, url: Url, id: nat, ghost t: Trees)
      requires Follows(t) && url !in t.Of(side)
      requires forall u <- t.Of(side) :: t.Of(side)[u].id != id
      modifies registry.Repr
      ensures var u := Put(t, side, url, Mrc(id, map[])); Follows(u) && Unfit(u) == old(Unfit(t))
      ensures fresh(registry.Repr - old(registry.Repr))
    {
      hide Join, MRCRegistry.Sorted, MRCRegistry.Nodes, AppMrc.Sorted, AppMrc.Nodes, SameMrc, Stale;
      JoinAddMrc(t, side, url, id);
      PutDistinct(t, side, url, Mrc(id, map[]));
      StaleSetSide(registry.View(), Join(t), url, side, Some(id));
      hide AllDistinct, Put, SameTree;
      var m := registry.GetMrc(url);
      if m == null {
        m := new AppMrc(url, side, id);
        registry.AddMrc(m);
      } else {
        ghost var before := registry.View();
        registry.UrlsAreKeys();
        registry.OwnDevices(m);
        m.Set(side, Some(id));
        forall n | n in registry.mrcs && n != m ensures n.Valid() && n.View() == old(n.View()) {
          n.Same();
        }
        Rejoin(m, before);
      }
    }

    method MrcAboutToBeRemoved(side: Side, url: Url, id: nat, devices: map<Address, Dev>, ghost t: Trees)
      returns (raised: bool)
      requires Follows(t) && url in t.Of(side) && t.Of(side)[url] == Mrc(id, devices)
      modifies registry.Repr
      ensures !raised && fresh(registry.Repr - old(registry.Repr))
      ensures Follows(Take(t, side, url)) && Unfit(Take(t, side, url)) == old(Unfit(t)) - At(url, devices.Keys)
    {
      hide *;
      raised := RemoveDevices(side, url, id, devices, t);
      PutPut(t, side, url, Mrc(id, map[]), Mrc(id, map[]));
      DropNode(side, url, id, Put(t, side, url, Mrc(id, map[])));
    }

    method RemoveDevices(side: Side, url: Url, id: nat, devices: map<Address, Dev>, ghost t: Trees)
      returns (raised: bool)
      requires Follows(t) && url in t.Of(side) && t.Of(side)[url] == Mrc(id, devices)
      modifies registry.Repr
      ensures !raised && fresh(registry.Repr - old(registry.Repr))
      ensures var u := Put(t, side, url, Mrc(id, map[]));
              Follows(u) && Unfit(u) == old(Unfit(t)) - At(url, devices.Keys)
    {
      hide *;
      raised := false;
      var todo := devices.Keys;
      ghost var unfit := Unfit(t);
      PutPut(t, side, url, Mrc(id, devices), Mrc(id, devices));
      FewerDevices(devices, todo);
      NoneAt(unfit, url, devices.Keys);
      while todo != {}
        invariant todo <= devices.Keys && !raised
        invariant fresh(registry.Repr - old(registry.Repr))
        invariant Follows(Put(t, side, url, Mrc(id, devices - (devices.Keys - todo))))
        invariant Unfit(Put(t, side, url, Mrc(id, devices - (devices.Keys - todo))))
                       == unfit - At(url, devices.Keys - todo)
        decreases |todo|
      {
        var a :| a in todo;
        ghost var mrc := Mrc(id, devices - (devices.Keys - todo));
        PutPut(t, side, url, mrc, mrc.(devices := mrc.devices - {a}));
        raised := DeviceAboutToBeRemoved(side, id, a, Put(t, side, url, mrc), url);
        FewerDevices(devices, todo);
        OneMoreAt(unfit, url, devices.Keys, todo, a);
        todo := todo - {a};
      }
      FewerDevices(devices, {});
      assert devices.Keys - {} == devices.Keys;
    }

    static lemma FewerDevices(devices: map<Address, Dev>, todo: set<Address>)
      requires todo <= devices.Keys
      ensures forall a <- todo :: (devices - (devices.Keys - todo)) - {a} == devices - (devices.Keys - (todo - {a}))
      ensures devices - (devices.Keys - devices.Keys) == devices
      ensures devices - (devices.Keys - {}) == map[]
    {
    }

    // The node of an MRC without devices loses one side, and goes with the last one.
    method DropNode(side: Side, url: Url, id: nat, ghost t: Trees)
      requires Follows(t) && url in t.Of(side) && t.Of(side)[url] == Mrc(id, map[])
      modifies registry.Repr
      ensures Follows(Take(t, side, url)) && Unfit(Take(t, side, url)) == old(Unfit(t))
      ensures fresh(registry.Repr - old(registry.Repr))
    {
      hide Join, MRCRegistry.Valid, MRCRegistry.View, AppMrc.Valid, AppMrc.View, AllDistinct, Take;
      hide SameTree, Stale, SameButModules;
      FoundByUrl(t, side, url, id);
      JoinRemoveMrc(t, side, url);
      TakeDistinct(t, side, url);
      JoinSide(t, Other(side), url);
      ghost var v := registry.View();
      StaleSetSide(v, Join(t), url, side, None);
      if url !in t.Of(Other(side)) {
        NoDevices(t, side, url);
        StaleDrop(v, Join(t), url);
      }
      var m: AppMrc := registry.FindMrc(side, id);
      ClearSide(m, side);
      if m.Of(Other(side)).None? {
        registry.RemoveMrc(m);
        assert v[url := m.View()] - {url} == v - {url};
      }
    }

    static lemma NoDevices(t: Trees, side: Side, url: Url)
      requires url in t.Of(side) && t.Of(side)[url].devices == map[] && url !in t.Of(Other(side))
      ensures Join(t)[url].devices == map[]
    {
    }

    method ClearSide(m: AppMrc, side: Side)
      requires registry.Valid() && m in registry.mrcs
      modifies m`hw, m`cfg
      ensures registry.Valid() && m.Valid() && registry.Repr == old(registry.Repr) && m in registry.mrcs
      ensures m.View() == old(m.View()).With(side, None) && m.Of(Other(side)) == m.View().Of(Other(side))
      ensures registry.View() == old(registry.View())[m.url := m.View()]
    {
      hide MRCRegistry.Sorted, MRCRegistry.Nodes, AppMrc.Sorted, AppMrc.Nodes;
      ghost var before := registry.View();
      registry.UrlsAreKeys();
      registry.OwnDevices(m);
      m.Set(side, None);
      forall n | n in registry.mrcs && n != m ensures n.Valid() && n.View() == old(n.View()) {
        n.Same();
      }
      Rejoin(m, before);
    }

    // One of the two registries is replaced: everything of the old one goes,
    // everything of the new one comes.
    method RegistrySet(side: Side, oldTree: Tree, newTree: Tree, ghost t: Trees) returns (raised: bool)
      requires Follows(t) && t.Of(side) == oldTree && DistinctIds(newTree)
      modifies registry.Repr
      ensures !raised && fresh(registry.Repr - old(registry.Repr))
      ensures var u := t.With(side, newTree);
              && Follows(u)
              && Unfit(u) == old(Unfit(t)) - PlacesIn(oldTree, oldTree.Keys) - PlacesIn(newTree, newTree.Keys)
    {
      hide *;
      WithOf(t, side, oldTree);
      raised := RemoveAll(side, oldTree, t);
      WithOf(t, side, map[]);
      raised := AddAll(side, newTree, t.With(side, map[]));
      WithOf(t.With(side, map[]), side, newTree);
      WithWith(t, side, map[], newTree);
    }

    method RemoveAll(side: Side, tree: Tree, ghost t: Trees) returns (raised: bool)
      requires Follows(t) && t.Of(side) == tree
      modifies registry.Repr
      ensures !raised && fresh(registry.Repr - old(registry.Repr))
      ensures var u := t.With(side, map[]);
              Follows(u) && Unfit(u) == old(Unfit(t)) - PlacesIn(tree, tree.Keys)
    {
      hide *;
      raised := false;
      var todo := tree.Keys;
      ghost var unfit := Unfit(t);
      WithOf(t, side, tree);
      FewerMrcs(tree, todo);
      NoPlaces(unfit, tree);
      while todo != {}
        invariant todo <= tree.Keys && !raised
        invariant fresh(registry.Repr - old(registry.Repr))
        invariant Follows(t.With(side, tree - (tree.Keys - todo)))
        invariant Unfit(t.With(side, tree - (tree.Keys - todo))) == unfit - PlacesIn(tree, tree.Keys - todo)
        decreases |todo|
      {
        var url :| url in todo;
        ghost var u := t.With(side, tree - (tree.Keys - todo));
        WithOf(t, side, tree - (tree.Keys - todo));
        raised := MrcAboutToBeRemoved(side, url, tree[url].id, tree[url].devices, u);
        TakeWith(t, side, tree - (tree.Keys - todo), url);
        FewerMrcs(tree, todo);
        MorePlaces(unfit, tree, todo, url);
        todo := todo - {url};
      }
      FewerMrcs(tree, {});
      assert tree.Keys - {} == tree.Keys;
    }

    static lemma NoPlaces(unfit: set<Place>, tree: Tree)
      ensures unfit - PlacesIn(tree, tree.Keys - tree.Keys) == unfit
    {
    }

    static lemma MorePlaces(unfit: set<Place>, tree: Tree, todo: set<Url>, url: Url)
      requires url in todo && todo <= tree.Keys
      ensures unfit - PlacesIn(tree, tree.Keys - todo) - At(url, tree[url].devices.Keys)
           == unfit - PlacesIn(tree, tree.Keys - (todo - {url}))
    {
    }

    method AddAll(side: Side, tree: Tree, ghost t: Trees) returns (raised: bool)
      requires Follows(t) && t.Of(side) == map[] && DistinctIds(tree)
      modifies registry.Repr
      ensures !raised && fresh(registry.Repr - old(registry.Repr))
      ensures var u := t.With(side, tree);
              Follows(u) && Unfit(u) == old(Unfit(t)) - PlacesIn(tree, tree.Keys)
    {
      hide *;
      raised := false;
      var todo := tree.Keys;
      ghost var unfit := Unfit(t);
      NoPlaces(unfit, tree);
      WithOf(t, side, map[]);
      FewerMrcs(tree, tree.Keys - todo);
      while todo != {}
        invariant todo <= tree.Keys && !raised
        invariant fresh(registry.Repr - old(registry.Repr))
        invariant Follows(t.With(side, tree - todo))
        invariant Unfit(t.With(side, tree - todo)) == unfit - PlacesIn(tree, tree.Keys - todo)
        decreases |todo|
      {
        var url :| url in todo;
        ghost var u := t.With(side, tree - todo);
        WithOf(t, side, tree - todo);
        FreshId(tree, todo, url);
        raised := MrcAdded(side, url, tree[url].id, tree[url].devices, u);
        PutWith(t, side, tree - todo, url, tree[url]);
        MorePlaces(unfit, tree, todo, url);
        todo := todo - {url};
      }
      FewerMrcs(tree, {});
      assert tree.Keys - {} == tree.Keys;
    }

    static lemma WithOf(t: Trees, side: Side, tree: Tree)
      ensures t.With(side, tree).Of(side) == tree
      ensures t.Of(side) == tree ==> t.With(side, tree) == t
    {
    }

    static lemma WithWith(t: Trees, side: Side, tree: Tree, next: Tree)
      ensures t.With(side, tree).With(side, next) == t.With(side, next)
    {
    }

    static lemma TakeWith(t: Trees, side: Side, tree: Tree, url: Url)
      ensures Take(t.With(side, tree), side, url) == t.With(side, tree - {url})
    {
    }

    static lemma PutWith(t: Trees, side: Side, tree: Tree, url: Url, mrc: Mrc)
      ensures Put(t.With(side, tree), side, url, mrc) == t.With(side, tree[url := mrc])
    {
    }

    static lemma FewerMrcs(tree: Tree, todo: set<Url>)
      requires todo <= tree.Keys
      ensures forall u <- todo :: (tree - (tree.Keys - todo)) - {u} == tree - (tree.Keys - (todo - {u}))
      ensures tree - (tree.Keys - tree.Keys) == tree && tree - {} == tree
      ensures tree - (tree.Keys - {}) == map[] && tree - tree.Keys == map[]
    {
    }

    static lemma FreshId(tree: Tree, todo: set<Url>, url: Url)
      requires DistinctIds(tree) && url in todo && todo <= tree.Keys
      ensures url !in tree - todo
      ensures forall u <- tree - todo :: (tree - todo)[u].id != tree[url].id
      ensures Mrc(tree[url].id, tree[url].devices) == tree[url]
      ensures (tree - todo)[url := tree[url]] == tree - (todo - {url})
    {
    }
  }
}

/** What the application tree has to be: the outer join of the hardware tree and
    the config tree, on the URLs of the MRCs and the addresses of the devices. */
module AppTree {
  import opened Messages

  // URLs are only compared; a number stands for a URL's place in their order.
  type Url = nat

  datatype Address = Address(bus: nat, dev: nat) {
    // Python's order of pairs.
    predicate Before(other: Address) {
      bus < other.bus || (bus == other.bus && dev < other.dev)
    }
  }

  // A device object of the hardware or the config tree, and its identifier code.
  datatype Dev = Dev(id: nat, idc: int)

  // An MRC object of one of the trees, with its devices.
  datatype Mrc = Mrc(id: nat, devices: map<Address, Dev>)

  type Tree = map<Url, Mrc>

  datatype Side = Hardware | Config

  datatype Trees = Trees(hw: Tree, cfg: Tree) {
    function Of(side: Side): Tree {
      if side == Hardware then hw else cfg
    }

    function With(side: Side, tree: Tree): Trees {
      if side == Hardware then Trees(tree, cfg) else Trees(hw, tree)
    }
  }

  // A device of the application tree: its two sides, the modules chosen for
  // them (known by their identifier codes) and whether the codes clash.
  datatype DevNode = DevNode(hw: Option<Dev>, cfg: Option<Dev>, hwModule: int, cfgModule: int, idcConflict: bool) {
    function Of(side: Side): Option<Dev> {
      if side == Hardware then hw else cfg
    }
  }

  // An MRC of the application tree: the objects it points to, and its devices.
  datatype MrcNode = MrcNode(hw: Option<nat>, cfg: Option<nat>, devices: map<Address, DevNode>) {
    function Of(side: Side): Option<nat> {
      if side == Hardware then hw else cfg
    }

    function With(side: Side, id: Option<nat>): MrcNode {
      if side == Hardware then this.(hw := id) else this.(cfg := id)
    }
  }

  function Other(side: Side): Side {
    if side == Hardware then Config else Hardware
  }

  function Get<K, V>(m: map<K, V>, k: K): Option<V> {
    if k in m then Some(m[k]) else None
  }

  // The node for a device that is present on at least one side. A side that is
  // missing has the module of the other.
  function Combine(hw: Option<Dev>, cfg: Option<Dev>): DevNode
    requires hw.Some? || cfg.Some?
  {
    DevNode(hw, cfg,
            if hw.Some? then hw.value.idc else cfg.value.idc,
            if cfg.Some? then cfg.value.idc else hw.value.idc,
            hw.Some? && cfg.Some? && hw.value.idc != cfg.value.idc)
  }

  // The same with the side given.
  function CombineOf(side: Side, mine: Option<Dev>, theirs: Option<Dev>): DevNode
    requires mine.Some? || theirs.Some?
  {
    if side == Hardware then Combine(mine, theirs) else Combine(theirs, mine)
  }

  function JoinDevices(hw: map<Address, Dev>, cfg: map<Address, Dev>): map<Address, DevNode> {
    map a | a in hw.Keys + cfg.Keys :: Combine(Get(hw, a), Get(cfg, a))
  }

  function DevicesOf(tree: Tree, url: Url): map<Address, Dev> {
    if url in tree then tree[url].devices else map[]
  }

  function IdOf(tree: Tree, url: Url): Option<nat> {
    if url in tree then Some(tree[url].id) else None
  }

  function JoinMrc(t: Trees, url: Url): MrcNode {
    MrcNode(IdOf(t.hw, url), IdOf(t.cfg, url), JoinDevices(DevicesOf(t.hw, url), DevicesOf(t.cfg, url)))
  }

  // The outer join.
  function Join(t: Trees): map<Url, MrcNode> {
    map url | url in t.hw.Keys + t.cfg.Keys :: JoinMrc(t, url)
  }

  // One side's tree with an MRC put in or taken out.
  function Put(t: Trees, side: Side, url: Url, mrc: Mrc): Trees {
    t.With(side, t.Of(side)[url := mrc])
  }

  function Take(t: Trees, side: Side, url: Url): Trees {
    t.With(side, t.Of(side) - {url})
  }

  lemma PutPut(t: Trees, side: Side, url: Url, mrc: Mrc, next: Mrc)
    ensures url in Put(t, side, url, mrc).Of(side) && Put(t, side, url, mrc).Of(side)[url] == mrc
    ensures Put(Put(t, side, url, mrc), side, url, next) == Put(t, side, url, next)
    ensures Take(Put(t, side, url, mrc), side, url) == Take(t, side, url)
    ensures url in t.Of(side) ==> Put(t, side, url, t.Of(side)[url]) == t
  {
    assert t.Of(side)[url := mrc][url := next] == t.Of(side)[url := next];
    assert t.Of(side)[url := mrc] - {url} == t.Of(side) - {url};
    assert url in t.Of(side) ==> t.Of(side)[url := t.Of(side)[url]] == t.Of(side);
  }

  // Every MRC object is in a tree once.
  ghost predicate DistinctIds(tree: Tree) {
    forall u, v | u in tree && v in tree && tree[u].id == tree[v].id :: u == v
  }

  ghost predicate AllDistinct(t: Trees) {
    DistinctIds(t.hw) && DistinctIds(t.cfg)
  }

  lemma PutDistinct(t: Trees, side: Side, url: Url, mrc: Mrc)
    requires AllDistinct(t)
    requires forall u <- t.Of(side) :: t.Of(side)[u].id == mrc.id ==> u == url
    ensures AllDistinct(Put(t, side, url, mrc))
  {
  }

  lemma TakeDistinct(t: Trees, side: Side, url: Url)
    requires AllDistinct(t)
    ensures AllDistinct(Take(t, side, url))
  {
  }

  // ----- How the join follows a change of one tree -----

  lemma JoinElsewhere(t: Trees, side: Side, url: Url, mrc: Mrc, v: Url)
    requires v != url
    ensures JoinMrc(Put(t, side, url, mrc), v) == JoinMrc(t, v)
  {
    hide JoinDevices;
  }

  lemma JoinSetMrc(t: Trees, side: Side, url: Url, mrc: Mrc)
    ensures var u := Put(t, side, url, mrc);
            Join(u) == Join(t)[url := JoinMrc(u, url)]
  {
    hide JoinMrc;
    var u := Put(t, side, url, mrc);
    assert Join(u).Keys == Join(t).Keys + {url};
    forall v | v in Join(u) && v != url ensures Join(u)[v] == Join(t)[v] {
      JoinElsewhere(t, side, url, mrc, v);
    }
  }

  // A new MRC, before any of its devices.
  lemma JoinAddMrc(t: Trees, side: Side, url: Url, id: nat)
    requires url !in t.Of(side)
    ensures var u := Put(t, side, url, Mrc(id, map[]));
            Join(u) == Join(t)[url :=
              (if url in Join(t) then Join(t)[url] else MrcNode(None, None, map[])).With(side, Some(id))]
  {
    JoinSetMrc(t, side, url, Mrc(id, map[]));
    var u := Put(t, side, url, Mrc(id, map[]));
    assert JoinMrc(u, url).devices == JoinMrc(t, url).devices;
    assert url !in Join(t) ==> JoinMrc(t, url).devices == map[];
  }

  // An MRC that goes, after all of its devices.
  lemma JoinRemoveMrc(t: Trees, side: Side, url: Url)
    requires url in t.Of(side) && t.Of(side)[url].devices == map[]
    ensures var u := Take(t, side, url);
            var node := Join(t)[url].With(side, None);
            Join(u) == if url in t.Of(Other(side)) then Join(t)[url := node] else Join(t) - {url}
  {
    hide JoinDevices;
    var u := Take(t, side, url);
    var rest := if url in t.Of(Other(side)) then Join(t) else Join(t) - {url};
    assert DevicesOf(u.hw, url) == DevicesOf(t.hw, url) && DevicesOf(u.cfg, url) == DevicesOf(t.cfg, url);
    assert Join(u).Keys == rest.Keys;
    forall v | v in Join(u) && v != url ensures Join(u)[v] == rest[v] {
    }
  }

  lemma JoinDevicesSet(side: Side, mine: map<Address, Dev>, theirs: map<Address, Dev>, a: Address, dev: Dev)
    ensures JoinOf(side, mine[a := dev], theirs)
                 == JoinOf(side, mine, theirs)[a := CombineOf(side, Some(dev), Get(theirs, a))]
  {
    hide Combine;
    var before, after := JoinOf(side, mine, theirs), JoinOf(side, mine[a := dev], theirs);
    assert after.Keys == before.Keys + {a};
    forall b | b in after && b != a ensures after[b] == before[b] {
      assert Get(mine[a := dev], b) == Get(mine, b);
    }
  }

  lemma JoinDevicesDrop(side: Side, mine: map<Address, Dev>, theirs: map<Address, Dev>, a: Address)
    requires a in mine
    ensures JoinOf(side, mine - {a}, theirs) ==
            if a in theirs then JoinOf(side, mine, theirs)[a := CombineOf(side, None, Get(theirs, a))]
            else JoinOf(side, mine, theirs) - {a}
  {
    hide Combine;
    var before, after := JoinOf(side, mine, theirs), JoinOf(side, mine - {a}, theirs);
    assert after.Keys == if a in theirs then before.Keys else before.Keys - {a};
    forall b | b in after && b != a ensures after[b] == before[b] {
      assert Get(mine - {a}, b) == Get(mine, b);
    }
  }

  function JoinOf(side: Side, mine: map<Address, Dev>, theirs: map<Address, Dev>): map<Address, DevNode> {
    if side == Hardware then JoinDevices(mine, theirs) else JoinDevices(theirs, mine)
  }

  // The node with the device of one side at one address replaced.
  function WithDevice(node: MrcNode, side: Side, a: Address, dev: Option<Dev>): MrcNode {
    var theirs := if a in node.devices then node.devices[a].Of(Other(side)) else None;
    node.(devices :=
      if dev.Some? || theirs.Some? then node.devices[a := CombineOf(side, dev, theirs)] else node.devices - {a})
  }

  // The same for a device whose modules are not looked at again.
  function WithStaleDevice(node: MrcNode, side: Side, a: Address, dev: Dev): MrcNode
    requires a in node.devices
  {
    var d := node.devices[a];
    node.(devices :=
      node.devices[a :=
        CombineOf(side, Some(dev), d.Of(Other(side))).(hwModule := d.hwModule, cfgModule := d.cfgModule)])
  }

  lemma JoinMrcOf(t: Trees, side: Side, url: Url)
    requires url in t.Of(side)
    ensures JoinMrc(t, url).devices == JoinOf(side, t.Of(side)[url].devices, DevicesOf(t.Of(Other(side)), url))
  {
  }

  lemma OtherSide(side: Side, mine: map<Address, Dev>, theirs: map<Address, Dev>, a: Address)
    ensures var devices := JoinOf(side, mine, theirs);
            (if a in devices then devices[a].Of(Other(side)) else None) == Get(theirs, a)
  {
  }

  lemma JoinAddDevice(t: Trees, side: Side, url: Url, a: Address, dev: Dev)
    requires url in t.Of(side)
    ensures var mrc := t.Of(side)[url];
            var u := Put(t, side, url, mrc.(devices := mrc.devices[a := dev]));
            Join(u) == Join(t)[url := WithDevice(Join(t)[url], side, a, Some(dev))]
  {
    var mrc := t.Of(side)[url];
    var next := mrc.(devices := mrc.devices[a := dev]);
    var u := Put(t, side, url, next);
    var theirs := DevicesOf(t.Of(Other(side)), url);
    JoinSetMrc(t, side, url, next);
    JoinMrcOf(t, side, url);
    JoinMrcOf(u, side, url);
    JoinDevicesSet(side, mrc.devices, theirs, a, dev);
    OtherSide(side, mrc.devices, theirs, a);
    hide JoinOf, JoinDevices, Combine;
  }

  lemma JoinRemoveDevice(t: Trees, side: Side, url: Url, a: Address)
    requires url in t.Of(side) && a in t.Of(side)[url].devices
    ensures a in Join(t)[url].devices
    ensures var mrc := t.Of(side)[url];
            var u := Put(t, side, url, mrc.(devices := mrc.devices - {a}));
            Join(u) == Join(t)[url := WithDevice(Join(t)[url], side, a, None)]
  {
    var mrc := t.Of(side)[url];
    var next := mrc.(devices := mrc.devices - {a});
    var u := Put(t, side, url, next);
    var theirs := DevicesOf(t.Of(Other(side)), url);
    JoinSetMrc(t, side, url, next);
    JoinMrcOf(t, side, url);
    JoinMrcOf(u, side, url);
    JoinDevicesDrop(side, mrc.devices, theirs, a);
    OtherSide(side, mrc.devices, theirs, a);
    hide JoinOf, JoinDevices, Combine;
  }

  lemma JoinHasDevice(t: Trees, side: Side, url: Url, a: Address)
    requires url in t.Of(side) && a in t.Of(side)[url].devices
    ensures a in Join(t)[url].devices && Join(t)[url].devices[a].Of(side) == Some(t.Of(side)[url].devices[a])
    ensures var d := Join(t)[url].devices[a];
            d == CombineOf(side, d.Of(side), d.Of(Other(side)))
  {
  }

  // What the join is, in elementary terms: it has the MRCs and devices of either
  // tree and no others, points to the objects of both, gives each side that is
  // present the module of its own code, and flags exactly the codes that clash.
  lemma JoinMeaning(t: Trees, url: Url, a: Address)
    ensures url in Join(t) <==> url in t.hw || url in t.cfg
    ensures url in Join(t) ==>
              && (url in t.hw ==> Join(t)[url].hw == Some(t.hw[url].id))
              && (url !in t.hw ==> Join(t)[url].hw == None)
              && (url in t.cfg ==> Join(t)[url].cfg == Some(t.cfg[url].id))
              && (url !in t.cfg ==> Join(t)[url].cfg == None)
              && (a in Join(t)[url].devices <==>
                    (url in t.hw && a in t.hw[url].devices) || (url in t.cfg && a in t.cfg[url].devices))
    ensures url in Join(t) && a in Join(t)[url].devices ==>
              var d := Join(t)[url].devices[a];
              && (d.hw.Some? <==> url in t.hw && a in t.hw[url].devices)
              && (d.cfg.Some? <==> url in t.cfg && a in t.cfg[url].devices)
              && (d.hw.Some? ==> d.hw.value == t.hw[url].devices[a] && d.hwModule == d.hw.value.idc)
              && (d.cfg.Some? ==> d.cfg.value == t.cfg[url].devices[a] && d.cfgModule == d.cfg.value.idc)
              && (d.idcConflict <==> d.hw.Some? && d.cfg.Some? && d.hw.value.idc != d.cfg.value.idc)
              && (!d.idcConflict ==> d.hwModule == d.cfgModule)
  {
  }

  // ----- The join but for some modules -----

  predicate SameButModules(d: DevNode, e: DevNode) {
    d == e.(hwModule := d.hwModule, cfgModule := d.cfgModule)
  }

  predicate SameMrc(n: MrcNode, j: MrcNode) {
    && n.hw == j.hw && n.cfg == j.cfg && n.devices.Keys == j.devices.Keys
    && forall a <- n.devices :: SameButModules(n.devices[a], j.devices[a])
  }

  predicate SameTree(v: map<Url, MrcNode>, j: map<Url, MrcNode>) {
    v.Keys == j.Keys && forall url <- v :: SameMrc(v[url], j[url])
  }

  datatype Place = Place(url: Url, address: Address)

  // The devices whose modules are not those of the join.
  function Stale(v: map<Url, MrcNode>, j: map<Url, MrcNode>): set<Place>
    requires SameTree(v, j)
  {
    set url, a | url in v && a in v[url].devices && v[url].devices[a] != j[url].devices[a] :: Place(url, a)
  }

  lemma StaleAt(v: map<Url, MrcNode>, j: map<Url, MrcNode>, p: Place)
    requires SameTree(v, j)
    ensures p in Stale(v, j) <==>
            && p.url in v && p.address in v[p.url].devices
            && v[p.url].devices[p.address] != j[p.url].devices[p.address]
  {
  }

  // Nothing is stale exactly in the join itself.
  lemma NothingStale(v: map<Url, MrcNode>, j: map<Url, MrcNode>)
    ensures v == j <==> SameTree(v, j) && Stale(v, j) == {}
  {
    if SameTree(v, j) && Stale(v, j) == {} {
      forall url | url in v ensures v[url] == j[url] {
        forall a | a in v[url].devices ensures v[url].devices[a] == j[url].devices[a] {
          StaleAt(v, j, Place(url, a));
        }
        assert v[url].devices == j[url].devices;
      }
    }
  }

  function At(url: Url, addresses: set<Address>): set<Place> {
    set a | a in addresses :: Place(url, a)
  }

  function PlacesIn(tree: Tree, urls: set<Url>): set<Place> {
    set url, a | url in urls && url in tree && a in tree[url].devices :: Place(url, a)
  }

  // One node is replaced on both sides; 'fit' are the devices that agree now,
  // the others agree as before.
  lemma StaleSet(v: map<Url, MrcNode>, j: map<Url, MrcNode>, url: Url, n: MrcNode, k: MrcNode, fit: set<Address>)
    requires SameTree(v, j) && SameMrc(n, k)
    requires forall a <- fit | a in n.devices :: n.devices[a] == k.devices[a]
    requires forall a <- n.devices | a !in fit ::
               url in v && a in v[url].devices && v[url].devices[a] == n.devices[a] && j[url].devices[a] == k.devices[a]
    requires url in v ==> forall a <- v[url].devices :: a in n.devices || a in fit
    ensures SameTree(v[url := n], j[url := k])
    ensures Stale(v[url := n], j[url := k]) == Stale(v, j) - At(url, fit)
  {
    var v', j' := v[url := n], j[url := k];
    hide SameButModules;
    assert SameTree(v', j');
    forall p: Place ensures p in Stale(v', j') <==> p in Stale(v, j) - At(url, fit) {
      StaleAt(v, j, p);
      StaleAt(v', j', p);
      assert p in At(url, fit) <==> p.url == url && p.address in fit;
    }
  }

  // A device that is put in, changed or dropped gets the modules of the join.
  lemma DeviceFits(n: MrcNode, k: MrcNode, side: Side, a: Address, dev: Option<Dev>)
    requires SameMrc(n, k)
    ensures var m, l := WithDevice(n, side, a, dev), WithDevice(k, side, a, dev);
            && SameMrc(m, l) && (a in m.devices ==> m.devices[a] == l.devices[a])
  {
    assert a in n.devices ==> SameButModules(n.devices[a], k.devices[a]);
    hide CombineOf;
  }

  lemma StaleWithDevice(v: map<Url, MrcNode>, j: map<Url, MrcNode>, url: Url, side: Side, a: Address, dev: Option<Dev>)
    requires SameTree(v, j) && url in v
    ensures var w, k := v[url := WithDevice(v[url], side, a, dev)], j[url := WithDevice(j[url], side, a, dev)];
            SameTree(w, k) && Stale(w, k) == Stale(v, j) - {Place(url, a)}
  {
    DeviceFits(v[url], j[url], side, a, dev);
    hide CombineOf, SameButModules, Stale;
    StaleSet(v, j, url, WithDevice(v[url], side, a, dev), WithDevice(j[url], side, a, dev), {a});
    assert At(url, {a}) == {Place(url, a)};
  }

  // A device whose modules are not looked at again is stale afterwards exactly if
  // they are not those of the join.
  lemma StaleWithStaleDevice(v: map<Url, MrcNode>, j: map<Url, MrcNode>, url: Url, side: Side, a: Address, dev: Dev)
    requires SameTree(v, j) && url in v && a in v[url].devices
    ensures var w := v[url := WithStaleDevice(v[url], side, a, dev)];
            var k := j[url := WithDevice(j[url], side, a, Some(dev))];
            && SameTree(w, k) && Stale(w, k) - {Place(url, a)} == Stale(v, j) - {Place(url, a)}
            && (Place(url, a) in Stale(w, k) <==>
                  || v[url].devices[a].hwModule != k[url].devices[a].hwModule
                  || v[url].devices[a].cfgModule != k[url].devices[a].cfgModule)
  {
    var n, m := WithStaleDevice(v[url], side, a, dev), WithDevice(j[url], side, a, Some(dev));
    var w, k := v[url := n], j[url := m];
    assert SameButModules(v[url].devices[a], j[url].devices[a]);
    assert n.devices[a].hwModule == v[url].devices[a].hwModule && n.devices[a].cfgModule == v[url].devices[a].cfgModule;
    assert SameButModules(n.devices[a], m.devices[a]);
    hide CombineOf, SameButModules;
    assert SameMrc(n, m);
    assert SameTree(w, k);
    StaleAt(w, k, Place(url, a));
    forall p: Place | p != Place(url, a) ensures p in Stale(w, k) <==> p in Stale(v, j) {
      StaleAt(v, j, p);
      StaleAt(w, k, p);
    }
  }

  // So if its modules fitted before, it is stale exactly if the code is another one.
  lemma StaleIsWrong(v: map<Url, MrcNode>, j: map<Url, MrcNode>, url: Url, side: Side, a: Address, dev: Dev, idc: int)
    requires SameTree(v, j) && url in v && a in v[url].devices && Place(url, a) !in Stale(v, j)
    requires j[url].devices[a].Of(side) == Some(dev)
    requires var d := j[url].devices[a]; d == CombineOf(side, d.Of(side), d.Of(Other(side)))
    ensures var next := dev.(idc := idc);
            var w := v[url := WithStaleDevice(v[url], side, a, next)];
            var k := j[url := WithDevice(j[url], side, a, Some(next))];
            SameTree(w, k) && (Place(url, a) in Stale(w, k) <==> idc != dev.idc)
  {
    StaleAt(v, j, Place(url, a));
    StaleWithStaleDevice(v, j, url, side, a, dev.(idc := idc));
    hide Stale, SameTree;
  }

  // The node of an MRC is made, or loses a side.
  lemma StaleSetSide(v: map<Url, MrcNode>, j: map<Url, MrcNode>, url: Url, side: Side, id: Option<nat>)
    requires SameTree(v, j)
    ensures var none := MrcNode(None, None, map[]);
            var w := v[url := (if url in v then v[url] else none).With(side, id)];
            var k := j[url := (if url in j then j[url] else none).With(side, id)];
            SameTree(w, k) && Stale(w, k) == Stale(v, j)
  {
    var none := MrcNode(None, None, map[]);
    hide Stale, SameButModules;
    StaleSet(v, j, url, (if url in v then v[url] else none).With(side, id),
             (if url in j then j[url] else none).With(side, id), {});
  }

  lemma StaleDrop(v: map<Url, MrcNode>, j: map<Url, MrcNode>, url: Url)
    requires SameTree(v, j) && url in v && v[url].devices == map[]
    ensures SameTree(v - {url}, j - {url}) && Stale(v - {url}, j - {url}) == Stale(v, j)
  {
    hide SameButModules;
  }
}

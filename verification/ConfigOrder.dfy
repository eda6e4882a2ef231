/** The order in which devices and MRCs are kept, and what any file is read as
    (src/client/mesycontrol/basic_model.py, config_xml.py). */
module ConfigOrder {
  import opened Messages
  import opened PythonText
  import opened XmlTree
  import opened ConfigXml
  import opened ConfigFiles

  // ----- Adding -----

  ghost predicate Placed(d: DeviceConfig) {
    d.bus.Some? && d.address.Some?
  }

  ghost predicate Clash(d: DeviceConfig, e: DeviceConfig) {
    d.bus == e.bus && d.address == e.address
  }

  // By bus, then by address.
  ghost predicate Precedes(d: DeviceConfig, e: DeviceConfig) {
    && Placed(d) && Placed(e)
    && (d.bus.value < e.bus.value || (d.bus.value == e.bus.value && d.address.value < e.address.value))
  }

  ghost predicate InOrder(devices: seq<DeviceConfig>) {
    && (forall i | 0 <= i < |devices| :: Placed(devices[i]))
    && forall i, j | 0 <= i < j < |devices| :: Precedes(devices[i], devices[j])
  }

  lemma FirstInOrder(d: DeviceConfig, rest: seq<DeviceConfig>)
    ensures InOrder([d] + rest) <==>
            Placed(d) && InOrder(rest) && forall i | 0 <= i < |rest| :: Precedes(d, rest[i])
  {
    hide Placed, Precedes;
    var all := [d] + rest;
    if InOrder(all) {
      assert all[0] == d;
      assert forall i | 0 <= i < |rest| :: rest[i] == all[i + 1];
    }
    if Placed(d) && InOrder(rest) && forall i | 0 <= i < |rest| :: Precedes(d, rest[i]) {
      forall i | 0 <= i < |all| ensures Placed(all[i]) {
        assert i > 0 ==> all[i] == rest[i - 1];
      }
      forall i, j | 0 <= i < j < |all| ensures Precedes(all[i], all[j]) {
        assert all[j] == rest[j - 1] && (i > 0 ==> all[i] == rest[i - 1]);
      }
    }
  }

  lemma PrecedesTotal(d: DeviceConfig, e: DeviceConfig, f: DeviceConfig)
    requires Placed(d) && Placed(e) && !Clash(d, e)
    ensures Precedes(d, e) <==> !Precedes(e, d)
    ensures Precedes(d, e) <==> Before(d, e)
    ensures Precedes(d, e) && Precedes(e, f) ==> Precedes(d, f)
  {
  }

  lemma {:induction false} InsertedInOrder(devices: seq<DeviceConfig>, d: DeviceConfig) returns (k: nat)
    requires InOrder(devices) && Placed(d) && forall i | 0 <= i < |devices| :: !Clash(d, devices[i])
    ensures k <= |devices| && Inserted(devices, d) == devices[..k] + [d] + devices[k..]
    ensures InOrder(Inserted(devices, d))
  {
    hide InOrder, Precedes, Placed, Clash, Before;
    if devices == [] {
      k := 0;
      FirstInOrder(d, []);
    } else {
      var e, rest := devices[0], devices[1..];
      assert devices == [e] + rest;
      FirstInOrder(e, rest);
      PrecedesTotal(d, e, e);
      if Before(d, e) {
        k := 0;
        forall i | 0 <= i < |devices| ensures Precedes(d, devices[i]) {
          PrecedesTotal(d, e, devices[i]);
        }
        FirstInOrder(d, devices);
      } else {
        var l := InsertedInOrder(rest, d);
        k := l + 1;
        assert devices[..k] == [e] + rest[..l] && devices[k..] == rest[l..];
        FirstInOrder(e, Inserted(rest, d));
      }
    }
  }

  // A device gets its place among the others, which stay as they are; it is
  // refused exactly if it has no place, or the place is taken.
  lemma AddedInOrder(devices: seq<DeviceConfig>, d: DeviceConfig)
    requires InOrder(devices)
    ensures AddDevice(devices, d).None? <==> !Placed(d) || exists e <- devices :: Clash(d, e)
    ensures AddDevice(devices, d).Some? ==>
              && InOrder(AddDevice(devices, d).value)
              && exists k: nat | k <= |devices| :: AddDevice(devices, d).value == devices[..k] + [d] + devices[k..]
  {
    if AddDevice(devices, d).Some? {
      forall i | 0 <= i < |devices| ensures !Clash(d, devices[i]) {
        assert devices[i] in devices;
      }
      var k := InsertedInOrder(devices, d);
    }
  }

  ghost predicate UrlsInOrder(mrcs: seq<MrcConfig>) {
    forall i, j | 0 <= i < j < |mrcs| :: Less(mrcs[i].url, mrcs[j].url)
  }

  lemma {:induction false} InsertedByUrl(mrcs: seq<MrcConfig>, m: MrcConfig) returns (k: nat)
    requires UrlsInOrder(mrcs) && forall i | 0 <= i < |mrcs| :: mrcs[i].url != m.url
    ensures k <= |mrcs| && InsertedMrc(mrcs, m) == mrcs[..k] + [m] + mrcs[k..]
    ensures UrlsInOrder(InsertedMrc(mrcs, m))
  {
    hide Less;
    if mrcs == [] {
      k := 0;
    } else if Less(m.url, mrcs[0].url) {
      k := 0;
      assert mrcs[..0] == [];
      forall i | 0 < i < |mrcs| ensures Less(m.url, mrcs[i].url) {
        LessTransitive(m.url, mrcs[0].url, mrcs[i].url);
      }
    } else {
      var l := InsertedByUrl(mrcs[1..], m);
      k := l + 1;
      LessTotal(m.url, mrcs[0].url);
      assert mrcs[..k] == [mrcs[0]] + mrcs[1..][..l] && mrcs[k..] == mrcs[1..][l..];
    }
  }

  lemma AddedByUrl(mrcs: seq<MrcConfig>, m: MrcConfig)
    requires UrlsInOrder(mrcs)
    ensures AddMrc(mrcs, m).None? <==> exists n <- mrcs :: n.url == m.url
    ensures AddMrc(mrcs, m).Some? ==>
              && UrlsInOrder(AddMrc(mrcs, m).value)
              && exists k: nat | k <= |mrcs| :: AddMrc(mrcs, m).value == mrcs[..k] + [m] + mrcs[k..]
  {
    if AddMrc(mrcs, m).Some? {
      forall i | 0 <= i < |mrcs| ensures mrcs[i].url != m.url {
        assert mrcs[i] in mrcs;
      }
      var k := InsertedByUrl(mrcs, m);
    }
  }

  // ----- Reading any file -----

  // These elements can be read into one MRC that has some devices already.
  ghost predicate Fit(devices: seq<DeviceConfig>, nodes: seq<Node>) {
    && (forall i | 0 <= i < |nodes| :: DeviceFrom(nodes[i]).Some? && Placed(DeviceFrom(nodes[i]).value))
    && (forall i, j | 0 <= i < j < |nodes| :: !Clash(DeviceFrom(nodes[i]).value, DeviceFrom(nodes[j]).value))
    && forall i, e | 0 <= i < |nodes| && e in devices :: !Clash(DeviceFrom(nodes[i]).value, e)
  }

  // The devices so far, and those read.
  ghost predicate Gathered(devices: seq<DeviceConfig>, nodes: seq<Node>, all: seq<DeviceConfig>) {
    && InOrder(all) && |all| == |devices| + |nodes|
    && forall e :: e in all <==> e in devices || exists i :: 0 <= i < |nodes| && DeviceFrom(nodes[i]) == Some(e)
  }

  lemma FitSplit(devices: seq<DeviceConfig>, nodes: seq<Node>, more: seq<DeviceConfig>)
    requires nodes != [] && DeviceFrom(nodes[0]).Some?
    requires forall e :: e in more <==> e in devices || e == DeviceFrom(nodes[0]).value
    ensures Fit(devices, nodes) <==>
            && Placed(DeviceFrom(nodes[0]).value) && (forall e <- devices :: !Clash(DeviceFrom(nodes[0]).value, e))
            && Fit(more, nodes[1..])
  {
    hide DeviceFrom, Placed;
    var rest := nodes[1..];
    if Fit(devices, nodes) {
      assert forall i | 0 <= i < |rest| :: rest[i] == nodes[i + 1];
    }
    if && Placed(DeviceFrom(nodes[0]).value) && (forall e <- devices :: !Clash(DeviceFrom(nodes[0]).value, e))
       && Fit(more, rest) {
      assert forall i | 0 < i < |nodes| :: nodes[i] == rest[i - 1];
      assert DeviceFrom(nodes[0]).value in more;
    }
  }

  lemma GatheredMore(devices: seq<DeviceConfig>, nodes: seq<Node>, more: seq<DeviceConfig>, all: seq<DeviceConfig>)
    requires nodes != [] && DeviceFrom(nodes[0]).Some? && |more| == |devices| + 1
    requires forall e :: e in more <==> e in devices || e == DeviceFrom(nodes[0]).value
    requires Gathered(more, nodes[1..], all)
    ensures Gathered(devices, nodes, all)
  {
    hide DeviceFrom, InOrder;
    var rest := nodes[1..];
    forall e | e in all ensures e in devices || exists i :: 0 <= i < |nodes| && DeviceFrom(nodes[i]) == Some(e) {
      if i :| 0 <= i < |rest| && DeviceFrom(rest[i]) == Some(e) {
        assert nodes[i + 1] == rest[i];
      }
    }
    forall i | 0 <= i < |nodes| && DeviceFrom(nodes[i]).Some? ensures DeviceFrom(nodes[i]).value in all {
      if i > 0 {
        assert nodes[i] == rest[i - 1];
      }
    }
  }

  lemma {:induction false} DevicesGathered(devices: seq<DeviceConfig>, nodes: seq<Node>)
    requires InOrder(devices)
    ensures DevicesInto(devices, nodes).Some? <==> Fit(devices, nodes)
    ensures DevicesInto(devices, nodes).Some? ==> Gathered(devices, nodes, DevicesInto(devices, nodes).value)
    decreases nodes
  {
    hide DeviceFrom, Fit, Gathered, InOrder, AddDevice, Placed, Clash;
    if nodes == [] {
      NothingGathered(devices);
    } else if DeviceFrom(nodes[0]).None? {
      Unreadable(devices, nodes);
    } else {
      var d := DeviceFrom(nodes[0]).value;
      AddedInOrder(devices, d);
      if AddDevice(devices, d).Some? {
        var more := AddDevice(devices, d).value;
        FitSplit(devices, nodes, more);
        DevicesGathered(more, nodes[1..]);
        if DevicesInto(more, nodes[1..]).Some? {
          GatheredMore(devices, nodes, more, DevicesInto(more, nodes[1..]).value);
        }
      } else {
        FitSplit(devices, nodes, devices + [d]);
      }
    }
  }

  lemma NothingGathered(devices: seq<DeviceConfig>)
    requires InOrder(devices)
    ensures Fit(devices, []) && Gathered(devices, [], devices)
  {
  }

  lemma Unreadable(devices: seq<DeviceConfig>, nodes: seq<Node>)
    requires nodes != [] && DeviceFrom(nodes[0]).None?
    ensures !Fit(devices, nodes)
  {
    hide DeviceFrom;
  }

  // These can be read into an MRC of their own.
  ghost predicate FitTogether(nodes: seq<Node>) {
    && (forall i | 0 <= i < |nodes| :: DeviceFrom(nodes[i]).Some? && Placed(DeviceFrom(nodes[i]).value))
    && forall i, j | 0 <= i < j < |nodes| :: !Clash(DeviceFrom(nodes[i]).value, DeviceFrom(nodes[j]).value)
  }

  lemma NobodyThere(nodes: seq<Node>)
    ensures Fit([], nodes) <==> FitTogether(nodes)
  {
    hide DeviceFrom, Placed, Clash;
  }

  // Whatever a file holds: reading an MRC raises an exception exactly if one of
  // its devices cannot be read, has no place, or has the place of another one;
  // otherwise it has the devices of all its elements, ordered by bus and address.
  lemma AnyMrc(node: Node)
    ensures var nodes := FindAll(node.children, "device_config");
            && (MrcFrom(node).Some? <==> FitTogether(nodes))
            && (MrcFrom(node).Some? ==>
                  var devices := MrcFrom(node).value.devices;
                  && InOrder(devices) && |devices| == |nodes|
                  && forall d :: d in devices <==> exists i :: 0 <= i < |nodes| && DeviceFrom(nodes[i]) == Some(d))
  {
    hide DeviceFrom, FindAll, Find, DevicesInto, Fit, FitTogether;
    DevicesGathered([], FindAll(node.children, "device_config"));
    NobodyThere(FindAll(node.children, "device_config"));
  }
}

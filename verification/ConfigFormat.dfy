/** What the elements of any configuration file are read as, whoever wrote it
    (src/client/mesycontrol/config_xml.py). */
module ConfigFormat {
  import opened Messages
  import opened PythonText
  import opened XmlTree
  import opened ConfigXml
  import opened ConfigFiles
  import opened ConfigOrder

  lemma FindAllLast(nodes: seq<Node>, tag: string)
    requires nodes != []
    ensures var n := |nodes| - 1;
            FindAll(nodes, tag) == FindAll(nodes[..n], tag) + if nodes[n].tag == Named(tag) then [nodes[n]] else []
  {
    hide FindAll;
    var n := |nodes| - 1;
    assert nodes == nodes[..n] + [nodes[n]];
    FindAllJoins(nodes[..n], [nodes[n]], tag);
    FindAllOne(nodes[n], tag);
  }

  lemma FindAllOne(node: Node, tag: string)
    ensures FindAll([node], tag) == if node.tag == Named(tag) then [node] else []
  {
    assert [node][1..] == [];
  }

  // ----- Values -----

  // A list has the values of its value elements, in their order.
  ghost predicate ListsValues(found: seq<Node>, r: Option<seq<Value>>) {
    && (r.Some? <==> forall i | 0 <= i < |found| :: FromNode(found[i]).Some?)
    && (r.Some? ==> |r.value| == |found| && forall i | 0 <= i < |found| :: FromNode(found[i]) == Some(r.value[i]))
  }

  lemma OneMoreValue(found: seq<Node>, last: Node, r: Option<seq<Value>>)
    requires ListsValues(found, r)
    ensures var v := FromNode(last);
            ListsValues(found + [last], if r.None? || v.None? then None else Some(r.value + [v.value]))
  {
    hide FromNode;
    var more, n := found + [last], |found|;
    assert forall i | 0 <= i < n :: more[i] == found[i];
    assert more[n] == last;
  }

  lemma {:induction false} AnyList(nodes: seq<Node>)
    ensures ListsValues(FindAll(nodes, "value"), ListFrom(nodes))
  {
    hide FromNode, ListsValues;
    if nodes == [] {
      NoValues();
    } else {
      var n := |nodes| - 1;
      AnyList(nodes[..n]);
      FindAllLast(nodes, "value");
      OneMoreValue(FindAll(nodes[..n], "value"), nodes[n], ListFrom(nodes[..n]));
      assert FindAll(nodes[..n], "value") + [] == FindAll(nodes[..n], "value");
    }
  }

  lemma NoValues()
    ensures ListsValues([], Some([]))
  {
  }

  // The i-th element is the last that says anything of this key.
  ghost predicate LastFor(keys: seq<Option<string>>, i: nat, key: string) {
    i < |keys| && keys[i] == Some(key) && forall j | i < j < |keys| :: keys[j] != Some(key)
  }

  // A dictionary has, for every key, the value of the last of its key elements.
  function KeyOf(node: Node): Option<string> {
    if "name" in node.attrs then Some(node.attrs["name"]) else None
  }

  function KeysOf(nodes: seq<Node>): (keys: seq<Option<string>>)
    ensures |keys| == |nodes| && forall i | 0 <= i < |nodes| :: keys[i] == KeyOf(nodes[i])
  {
    seq(|nodes|, i requires 0 <= i < |nodes| => KeyOf(nodes[i]))
  }

  // An entry needs a name, and a value element that can be read.
  ghost predicate IsEntry(node: Node, v: Value) {
    && KeyOf(node).Some? && Find(node.children, "value").Some?
    && FromNode(Find(node.children, "value").value) == Some(v)
  }

  ghost predicate HasEntry(node: Node) {
    exists v :: IsEntry(node, v)
  }

  ghost predicate ReadsEntries(found: seq<Node>, r: Option<map<string, Value>>) {
    && (r.Some? <==> forall i | 0 <= i < |found| :: HasEntry(found[i]))
    && (r.Some? ==>
          && (forall k :: k in r.value <==> Some(k) in KeysOf(found))
          && forall i, k | 0 <= i < |found| && LastFor(KeysOf(found), i, k) :: IsEntry(found[i], r.value[k]))
  }

  lemma EntryIs(node: Node)
    ensures EntryFrom(node).Some? <==> HasEntry(node)
    ensures EntryFrom(node).Some? ==>
              KeyOf(node) == Some(EntryFrom(node).value.0) && IsEntry(node, EntryFrom(node).value.1)
  {
    hide FromNode, Find;
    if EntryFrom(node).Some? {
      assert IsEntry(node, EntryFrom(node).value.1);
    }
  }

  lemma OneMoreEntry(found: seq<Node>, last: Node, r: Option<map<string, Value>>)
    requires ReadsEntries(found, r)
    ensures var e := EntryFrom(last);
            ReadsEntries(found + [last], if r.None? || e.None? then None else Some(r.value[e.value.0 := e.value.1]))
  {
    hide EntryFrom, IsEntry, KeyOf, HasEntry;
    EntryIs(last);
    var more, n := found + [last], |found|;
    assert forall i | 0 <= i < n :: more[i] == found[i];
    assert more[n] == last;
    assert KeysOf(more) == KeysOf(found) + [KeyOf(last)];
    if r.Some? && EntryFrom(last).Some? {
      var e := EntryFrom(last).value;
      forall i, k | 0 <= i < |more| && LastFor(KeysOf(more), i, k) ensures IsEntry(more[i], r.value[e.0 := e.1][k]) {
        if i < n {
          assert KeysOf(more)[n] != Some(k);
          assert LastFor(KeysOf(found), i, k);
        }
      }
      forall k ensures k in r.value[e.0 := e.1] <==> Some(k) in KeysOf(more) {
        assert Some(k) in KeysOf(more) <==> Some(k) in KeysOf(found) || k == e.0;
      }
    }
  }

  lemma {:induction false} AnyDict(nodes: seq<Node>)
    ensures ReadsEntries(FindAll(nodes, "key"), DictFrom(nodes))
  {
    hide EntryFrom, ReadsEntries;
    if nodes == [] {
      NoEntries();
    } else {
      var n := |nodes| - 1;
      AnyDict(nodes[..n]);
      FindAllLast(nodes, "key");
      OneMoreEntry(FindAll(nodes[..n], "key"), nodes[n], DictFrom(nodes[..n]));
      assert FindAll(nodes[..n], "key") + [] == FindAll(nodes[..n], "key");
    }
  }

  lemma NoEntries()
    ensures ReadsEntries([], Some(map[]))
  {
  }

  // The types of values; an element without a type, or with another one, raises an
  // exception.
  lemma AnyValue(node: Node)
    requires "type" in node.attrs ==> node.attrs["type"] != "float"
    ensures FromNode(node) ==
            match (if "type" in node.attrs then node.attrs["type"] else "")
            case "str" => Some(if node.text.Some? then Text(node.text.value) else Nothing)
            case "int" =>
              (match (if node.text.Some? then Int(node.text.value) else None)
               case Some(n) => Some(Number(n))
               case None => None)
            case "list" =>
              (match ListFrom(node.children) case Some(items) => Some(List(items)) case None => None)
            case "dict" =>
              (match DictFrom(node.children) case Some(entries) => Some(Dict(entries)) case None => None)
            case _ => None
  {
    hide ListFrom, DictFrom, Int;
  }

  // ----- Devices -----

  // The number an element holds, if it is there and has a text.
  ghost predicate Reads(node: Option<Node>, n: Option<int>) {
    if node.None? || node.value.text.None? then n == None else n.Some? && Int(node.value.text.value) == n
  }

  function AddressOf(node: Node): Option<int> {
    if "address" in node.attrs then Int(node.attrs["address"]) else None
  }

  function ValueOf(node: Node): Option<int> {
    if "value" in node.attrs then Int(node.attrs["value"]) else None
  }

  ghost predicate LastAt(nodes: seq<Node>, i: nat, a: int) {
    i < |nodes| && AddressOf(nodes[i]) == Some(a) && forall j | i < j < |nodes| :: AddressOf(nodes[j]) != Some(a)
  }

  ghost predicate IsParameter(node: Node) {
    AddressOf(node).Some? && 0 <= AddressOf(node).value < 256 && ValueOf(node).Some?
  }

  ghost predicate Mentions(nodes: seq<Node>, a: int) {
    exists i :: 0 <= i < |nodes| && AddressOf(nodes[i]) == Some(a)
  }

  ghost predicate LastCounts(nodes: seq<Node>, m: map<int, int>) {
    forall i, a | 0 <= i < |nodes| && LastAt(nodes, i, a) :: a in m && ValueOf(nodes[i]) == Some(m[a])
  }

  // Every parameter element has an address in range and a value, and the last for
  // an address counts.
  ghost predicate ReadsParameters(before: map<int, int>, nodes: seq<Node>, r: Option<map<int, int>>) {
    && (r.Some? <==> forall i | 0 <= i < |nodes| :: IsParameter(nodes[i]))
    && (r.Some? ==>
          && (forall a :: a in r.value <==> a in before || Mentions(nodes, a))
          && LastCounts(nodes, r.value)
          && forall a <- before | !Mentions(nodes, a) :: a in r.value && r.value[a] == before[a])
  }

  lemma ParameterIs(node: Node)
    ensures ParamOf(node).Some? <==> IsParameter(node)
    ensures ParamOf(node).Some? ==> AddressOf(node) == Some(ParamOf(node).value.0)
    ensures ParamOf(node).Some? ==> ValueOf(node) == Some(ParamOf(node).value.1)
  {
    hide Int;
  }

  lemma MentionsFirst(nodes: seq<Node>, a: int)
    requires nodes != []
    ensures Mentions(nodes, a) <==> AddressOf(nodes[0]) == Some(a) || Mentions(nodes[1..], a)
  {
    hide AddressOf;
    var rest := nodes[1..];
    if i :| 0 <= i < |rest| && AddressOf(rest[i]) == Some(a) {
      assert nodes[i + 1] == rest[i];
    }
    if i :| 0 < i < |nodes| && AddressOf(nodes[i]) == Some(a) {
      assert nodes[i] == rest[i - 1];
    }
  }

  // If the first element of an address is its last, the value it set stays.
  lemma FirstCounts(nodes: seq<Node>, a: int, v: int, m: map<int, int>)
    requires nodes != [] && AddressOf(nodes[0]) == Some(a) && ValueOf(nodes[0]) == Some(v)
    requires LastCounts(nodes[1..], m) && (Mentions(nodes[1..], a) || (a in m && m[a] == v))
    ensures LastCounts(nodes, m)
  {
    hide AddressOf, ValueOf;
    var rest := nodes[1..];
    forall i, b | 0 <= i < |nodes| && LastAt(nodes, i, b) ensures b in m && ValueOf(nodes[i]) == Some(m[b]) {
      if i > 0 {
        assert nodes[i] == rest[i - 1] && forall j | i < j < |nodes| :: nodes[j] == rest[j - 1];
        assert forall j | i - 1 < j < |rest| :: rest[j] == nodes[j + 1];
        assert LastAt(rest, i - 1, b);
      } else {
        assert forall j | 0 <= j < |rest| :: rest[j] == nodes[j + 1];
      }
    }
  }

  lemma ParameterFirst(before: map<int, int>, nodes: seq<Node>, r: Option<map<int, int>>)
    requires nodes != [] && ParamOf(nodes[0]).Some?
    requires ReadsParameters(before[ParamOf(nodes[0]).value.0 := ParamOf(nodes[0]).value.1], nodes[1..], r)
    ensures ReadsParameters(before, nodes, r)
  {
    hide AddressOf, ValueOf, ParamOf, IsParameter, Mentions, LastCounts;
    var rest, p := nodes[1..], ParamOf(nodes[0]).value;
    ParameterIs(nodes[0]);
    assert forall i | 0 <= i < |rest| :: rest[i] == nodes[i + 1];
    assert forall i | 0 < i < |nodes| :: nodes[i] == rest[i - 1];
    forall a: int ensures Mentions(nodes, a) <==> a == p.0 || Mentions(rest, a) {
      MentionsFirst(nodes, a);
    }
    if r.Some? {
      FirstCounts(nodes, p.0, p.1, r.value);
    }
  }

  lemma {:induction false} AnyParameters(before: map<int, int>, nodes: seq<Node>)
    ensures ReadsParameters(before, nodes, ParamsInto(before, nodes))
    decreases nodes
  {
    hide ReadsParameters, ParamOf;
    if nodes == [] {
      NoParameters(before);
    } else if ParamOf(nodes[0]).None? {
      BadParameter(before, nodes);
    } else {
      var p := ParamOf(nodes[0]).value;
      AnyParameters(before[p.0 := p.1], nodes[1..]);
      ParameterFirst(before, nodes, ParamsInto(before, nodes));
    }
  }

  lemma NoParameters(before: map<int, int>)
    ensures ReadsParameters(before, [], Some(before))
  {
  }

  lemma BadParameter(before: map<int, int>, nodes: seq<Node>)
    requires nodes != [] && ParamOf(nodes[0]).None?
    ensures ReadsParameters(before, nodes, None)
  {
    hide ParamOf, IsParameter;
    ParameterIs(nodes[0]);
  }

  // What is read from a device's element: its numbers and texts from the elements
  // of their names, the parameters and extensions from everything inside.
  lemma AnyDevice(node: Node)
    ensures DeviceFrom(node).Some? ==>
              var cfg, parts := DeviceFrom(node).value, node.children;
              && Reads(Find(parts, "idc"), cfg.idc)
              && Reads(Find(parts, "bus"), cfg.bus) && (cfg.bus.Some? ==> 0 <= cfg.bus.value < 2)
              && Reads(Find(parts, "address"), cfg.address) && (cfg.address.Some? ==> 0 <= cfg.address.value < 16)
              && cfg.name == (if Find(parts, "name").Some? && Find(parts, "name").value.text.Some?
                              then Find(parts, "name").value.text.value else "")
              && cfg.description == (if Find(parts, "description").Some?
                                     then Find(parts, "description").value.text else None)
              && ReadsParameters(map[], Iter(node, "parameter"), Some(cfg.memory))
              && ExtensionsInto([], Iter(node, "extension")) == Some(cfg.extensions)
  {
    hide Find, Iter, Int, ExtensionsInto, ParamsInto;
    AnyParameters(map[], Iter(node, "parameter"));
    hide ReadsParameters;
  }

  // ----- Setups -----

  // An MRC's texts. A flag is false only where its element has no text.
  lemma AnyMrcTexts(node: Node)
    ensures MrcFrom(node).Some? ==>
              var mrc, parts := MrcFrom(node).value, node.children;
              && mrc.url == (if Find(parts, "url").Some? && Find(parts, "url").value.text.Some?
                             then Find(parts, "url").value.text.value else "None")
              && mrc.name == (if Find(parts, "name").Some? && Find(parts, "name").value.text.Some?
                              then Find(parts, "name").value.text.value else "")
              && (!mrc.autoconnect <==> Find(parts, "autoconnect").Some? &&
                                        Find(parts, "autoconnect").value.text in {None, Some("")})
  {
    hide Find, DevicesInto;
  }

  // A setup needs its root element and the element inside, and MRCs that can be
  // read and have different URLs; they are ordered by URL.
  lemma {:induction false} MrcsGathered(mrcs: seq<MrcConfig>, nodes: seq<Node>)
    requires UrlsInOrder(mrcs)
    ensures MrcsInto(mrcs, nodes).Some? ==>
              var all := MrcsInto(mrcs, nodes).value;
              && UrlsInOrder(all) && |all| == |mrcs| + |nodes|
              && (forall m :: m in all <==> m in mrcs || exists i :: 0 <= i < |nodes| && MrcFrom(nodes[i]) == Some(m))
    decreases nodes
  {
    hide MrcFrom, AddMrc, UrlsInOrder;
    if nodes == [] {
    } else if MrcFrom(nodes[0]).Some? {
      var m, rest := MrcFrom(nodes[0]).value, nodes[1..];
      AddedByUrl(mrcs, m);
      if AddMrc(mrcs, m).Some? {
        MrcsGathered(AddMrc(mrcs, m).value, rest);
        assert forall i | 0 <= i < |rest| :: rest[i] == nodes[i + 1];
        assert forall i | 0 < i < |nodes| :: nodes[i] == rest[i - 1];
      }
    }
  }

  lemma AnySetup(root: Node)
    ensures SetupFrom(root).Some? ==>
              && root.tag == Named("mesycontrol") && Find(root.children, "setup").Some?
              && var parts, mrcs := Find(root.children, "setup").value.children, SetupFrom(root).value.mrcs;
                 var nodes := FindAll(parts, "mrc_config");
                 && UrlsInOrder(mrcs) && |mrcs| == |nodes|
                 && (forall m :: m in mrcs <==> exists i :: 0 <= i < |nodes| && MrcFrom(nodes[i]) == Some(m))
                 && (!SetupFrom(root).value.autoconnect <==>
                       Find(parts, "autoconnect").Some? && Find(parts, "autoconnect").value.text in {None, Some("")})
  {
    hide Find, FindAll, MrcFrom, MrcsInto;
    if root.tag == Named("mesycontrol") && Find(root.children, "setup").Some? {
      MrcsGathered([], FindAll(Find(root.children, "setup").value.children, "mrc_config"));
    }
  }

  // ----- What is written -----

  // The parameter elements are those of the memory, by address from 'start' on.
  ghost predicate WritesParameters(memory: map<int, int>, start: int, found: seq<Node>) {
    && (forall i | 0 <= i < |found| ::
          var a := AddressOf(found[i]);
          a.Some? && start <= a.value < 256 && a.value in memory && ValueOf(found[i]) == Some(memory[a.value]))
    && (forall i, j | 0 <= i < j < |found| :: AddressOf(found[i]).value < AddressOf(found[j]).value)
    && (forall a <- memory | start <= a < 256 :: Mentions(found, a))
  }

  lemma OneParameter(memory: map<int, int>, names: map<int, string>, a: int)
    ensures FindAll(CommentedParam(memory, names, a), "parameter")
              == if a in memory then [ParamNode(a, memory[a])] else []
    ensures a in memory ==>
              AddressOf(ParamNode(a, memory[a])) == Some(a) && ValueOf(ParamNode(a, memory[a])) == Some(memory[a])
  {
    if a in memory {
      IntInvertsStr(a);
      IntInvertsStr(memory[a]);
      hide Int, Str;
      var node := ParamNode(a, memory[a]);
      var comment := if a in names then [Node(Comment, map[], Some(names[a]), [])] else [];
      assert CommentedParam(memory, names, a) == comment + [node];
      FindAllJoins(comment, [node], "parameter");
      FindAllNone(comment, "parameter");
      FindAllSelf([node], "parameter");
    }
  }

  lemma ParameterBefore(memory: map<int, int>, a: int, node: Node, rest: seq<Node>)
    requires WritesParameters(memory, a + 1, rest) && a < 256
    ensures a !in memory ==> WritesParameters(memory, a, rest)
    ensures a in memory && 0 <= a && AddressOf(node) == Some(a) && ValueOf(node) == Some(memory[a]) ==>
              WritesParameters(memory, a, [node] + rest)
  {
    hide AddressOf, ValueOf;
    var all := [node] + rest;
    assert all[0] == node && forall i | 0 < i < |all| :: all[i] == rest[i - 1];
    if AddressOf(node) == Some(a) {
      forall b | b in memory && a <= b < 256 ensures b == a || Mentions(rest, b) ==> Mentions(all, b) {
        if b == a {
          assert AddressOf(all[0]) == Some(b);
        } else if Mentions(rest, b) {
          var i :| 0 <= i < |rest| && AddressOf(rest[i]) == Some(b);
          assert all[i + 1] == rest[i];
        }
      }
    }
  }

  lemma {:induction false} ParametersWritten(memory: map<int, int>, names: map<int, string>, a: int)
    requires 0 <= a
    ensures WritesParameters(memory, a, FindAll(ParamNodes(memory, names, a), "parameter"))
    decreases PARAM_RANGE - a
  {
    hide WritesParameters, CommentedParam, FindAll;
    if a >= PARAM_RANGE {
      NothingWritten(memory, a);
    } else {
      ParametersWritten(memory, names, a + 1);
      OneParameter(memory, names, a);
      FindAllJoins(CommentedParam(memory, names, a), ParamNodes(memory, names, a + 1), "parameter");
      var rest := FindAll(ParamNodes(memory, names, a + 1), "parameter");
      ParameterBefore(memory, a, if a in memory then ParamNode(a, memory[a]) else Node(Comment, map[], None, []), rest);
      assert [] + rest == rest;
    }
  }

  lemma NothingWritten(memory: map<int, int>, a: int)
    requires a >= PARAM_RANGE
    ensures WritesParameters(memory, a, FindAll([], "parameter"))
  {
  }

  // A comment has the name of the parameter right after it.
  ghost predicate NamesNext(nodes: seq<Node>, names: map<int, string>) {
    forall i | 0 <= i < |nodes| && nodes[i].tag == Comment ::
      && i + 1 < |nodes| && AddressOf(nodes[i + 1]).Some?
      && var a := AddressOf(nodes[i + 1]).value;
         a in names && nodes[i].text == Some(names[a])
  }

  lemma CommentNames(memory: map<int, int>, names: map<int, string>, a: int)
    ensures var nodes := CommentedParam(memory, names, a);
            && NamesNext(nodes, names) && (nodes == [] || nodes[|nodes| - 1].tag != Comment)
            && (a in memory && a in names ==> nodes != [] && nodes[0].tag == Comment)
  {
    if a in memory {
      OneParameter(memory, names, a);
      hide AddressOf, Str;
    }
  }

  lemma NamesMore(first: seq<Node>, rest: seq<Node>, names: map<int, string>)
    requires NamesNext(first, names) && NamesNext(rest, names)
    requires first == [] || first[|first| - 1].tag != Comment
    ensures NamesNext(first + rest, names)
  {
    hide AddressOf;
    var all, n := first + rest, |first|;
    forall i | 0 <= i < |all| && all[i].tag == Comment
      ensures && i + 1 < |all| && AddressOf(all[i + 1]).Some?
              && var a := AddressOf(all[i + 1]).value;
                 a in names && all[i].text == Some(names[a])
    {
      if i < n {
        assert all[i] == first[i] && all[i + 1] == first[i + 1];
      } else {
        assert all[i] == rest[i - n] && all[i + 1] == rest[i - n + 1];
      }
    }
  }

  // Every parameter that has a name is preceded by it, and no other.
  lemma {:induction false} CommentsNameParameters(memory: map<int, int>, names: map<int, string>, a: int)
    ensures NamesNext(ParamNodes(memory, names, a), names)
    ensures a < PARAM_RANGE && a in memory && a in names ==>
              ParamNodes(memory, names, a) != [] && ParamNodes(memory, names, a)[0].tag == Comment
    decreases PARAM_RANGE - a
  {
    hide NamesNext, CommentedParam;
    if a >= PARAM_RANGE {
      NamesNone(names);
    } else {
      CommentsNameParameters(memory, names, a + 1);
      CommentNames(memory, names, a);
      NamesMore(CommentedParam(memory, names, a), ParamNodes(memory, names, a + 1), names);
    }
  }

  lemma NamesNone(names: map<int, string>)
    ensures NamesNext([], names)
  {
  }

  // The parameters of a device's element, in ascending order, each once.
  lemma WrittenDevice(cfg: DeviceConfig, names: map<int, string>)
    requires AllEncodable(cfg.extensions)
    ensures DeviceNode(cfg, names).tag == Named("device_config")
    ensures WritesParameters(cfg.memory, 0, FindAll(DeviceNode(cfg, names).children, "parameter"))
  {
    hide ParamNodes, ExtNodes, WritesParameters, Encodable, FindAll, Str;
    var attrs, params, exts := AttrNodes(cfg), ParamNodes(cfg.memory, names, 0), ExtNodes(cfg.extensions);
    ParametersWritten(cfg.memory, names, 0);
    FindAllJoins(attrs, params + exts, "parameter");
    FindAllJoins(params, exts, "parameter");
    AttrsAreNoParameters(cfg);
    ExtensionsAreNoParameters(cfg.extensions);
    assert [] + (FindAll(params, "parameter") + []) == FindAll(params, "parameter");
  }

  lemma AttrsAreNoParameters(cfg: DeviceConfig)
    ensures FindAll(AttrNodes(cfg), "parameter") == []
  {
    hide Str;
    FindAllNone(AttrNodes(cfg), "parameter");
  }

  lemma ExtensionsAreNoParameters(extensions: seq<(string, Value)>)
    requires AllEncodable(extensions)
    ensures FindAll(ExtNodes(extensions), "parameter") == []
  {
    hide ToNode, Encodable;
    FindAllNone(ExtNodes(extensions), "parameter");
  }

  // A flag is written as Python's str() of it, and the devices follow, each with
  // the names of the parameters of its kind.
  lemma WrittenMrc(mrc: MrcConfig, names: ParamNames, i: nat)
    requires MrcEncodable(mrc) && i < |mrc.devices|
    ensures var node, d := MrcNode(mrc, names), mrc.devices[i];
            && node.tag == Named("mrc_config") && |node.children| == 3 + |mrc.devices|
            && node.children[0] == Node(Named("url"), map[], Some(mrc.url), [])
            && node.children[1] == Node(Named("name"), map[], Some(mrc.name), [])
            && node.children[2]
                 == Node(Named("autoconnect"), map[], Some(if mrc.autoconnect then "True" else "False"), [])
            && AllEncodable(d.extensions)
            && node.children[3 + i]
                 == DeviceNode(d, if d.idc.Some? && d.idc.value in names then names[d.idc.value] else map[])
  {
    hide DeviceNode, AllEncodable;
    assert mrc.devices[i] in mrc.devices;
    assert MrcAttrNodes(mrc) == [
        Node(Named("url"), map[], Some(mrc.url), []), Node(Named("name"), map[], Some(mrc.name), []),
        Node(Named("autoconnect"), map[], Some(Flag(mrc.autoconnect)), [])];
  }

  lemma WrittenSetup(setup: SetupConfig, names: ParamNames, i: nat)
    requires (forall m <- setup.mrcs :: MrcEncodable(m)) && i < |setup.mrcs|
    ensures var root := RootNode(setup, names);
            && root.tag == Named("mesycontrol") && root.attrs == map["version" := "1"] && |root.children| == 1
            && var node := root.children[0];
               && node.tag == Named("setup") && |node.children| == 1 + |setup.mrcs|
               && node.children[0]
                    == Node(Named("autoconnect"), map[], Some(if setup.autoconnect then "True" else "False"), [])
               && MrcEncodable(setup.mrcs[i]) && node.children[1 + i] == MrcNode(setup.mrcs[i], names)
  {
    hide MrcNode, MrcEncodable;
    assert setup.mrcs[i] in setup.mrcs;
  }
}

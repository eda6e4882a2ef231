/** Device configurations and setups as XML and back
    (src/client/mesycontrol/config_xml.py). */
module ConfigFiles {
  import opened Messages
  import opened PythonText
  import opened XmlTree
  import opened ConfigXml

  // Dictionaries whose order shows are kept as sequences of their items.
  datatype DeviceConfig = DeviceConfig(
    idc: Option<int>, bus: Option<int>, address: Option<int>, name: string, description: Option<string>,
    memory: map<int, int>, extensions: seq<(string, Value)>)

  const PARAM_RANGE := 256
  const BUS_RANGE := 2
  const DEV_RANGE := 16

  ghost predicate InRange(i: Option<int>, n: int) {
    i.Some? ==> 0 <= i.value < n
  }

  // What the setters of a device configuration see to.
  ghost predicate Valid(cfg: DeviceConfig) {
    && InRange(cfg.bus, BUS_RANGE) && InRange(cfg.address, DEV_RANGE)
    && (forall a <- cfg.memory :: 0 <= a < PARAM_RANGE)
    && NoRepeatedNames(cfg.extensions)
  }

  ghost predicate NoRepeatedNames(extensions: seq<(string, Value)>) {
    forall i, j | 0 <= i < j < |extensions| :: extensions[i].0 != extensions[j].0
  }

  ghost predicate AllEncodable(extensions: seq<(string, Value)>) {
    forall i | 0 <= i < |extensions| :: Encodable(extensions[i].1)
  }

  function AttrNode(tag: string, text: Option<string>): seq<Node> {
    if text.None? then [] else [Node(Named(tag), map[], text, [])]
  }

  function StrOf(i: Option<int>): Option<string> {
    if i.None? then None else Some(Str(i.value))
  }

  function AttrNodes(cfg: DeviceConfig): seq<Node> {
    AttrNode("idc", StrOf(cfg.idc)) + (AttrNode("bus", StrOf(cfg.bus)) + (AttrNode("address", StrOf(cfg.address))
    + (AttrNode("name", Some(cfg.name)) + AttrNode("description", cfg.description))))
  }

  function ParamNode(a: int, v: int): Node {
    Node(Named("parameter"), map["address" := Str(a), "value" := Str(v)], None, [])
  }

  // One parameter, preceded by its name as a comment if there is one.
  function CommentedParam(memory: map<int, int>, names: map<int, string>, a: int): seq<Node> {
    if a !in memory then []
    else (if a in names then [Node(Comment, map[], Some(names[a]), [])] else []) + [ParamNode(a, memory[a])]
  }

  // The parameters from address a on.
  function ParamNodes(memory: map<int, int>, names: map<int, string>, a: int): seq<Node>
    decreases PARAM_RANGE - a
  {
    if a >= PARAM_RANGE then [] else CommentedParam(memory, names, a) + ParamNodes(memory, names, a + 1)
  }

  ghost function ExtNode(name: string, v: Value): Node
    requires Encodable(v)
  {
    Node(Named("extension"), map["name" := name], None, [ToNode(v)])
  }

  ghost function ExtNodes(extensions: seq<(string, Value)>): (r: seq<Node>)
    requires AllEncodable(extensions)
    ensures |r| == |extensions|
  {
    seq(|extensions|, i requires 0 <= i < |extensions| => ExtNode(extensions[i].0, extensions[i].1))
  }

  ghost function DeviceNode(cfg: DeviceConfig, names: map<int, string>): Node
    requires AllEncodable(cfg.extensions)
  {
    Node(Named("device_config"), map[], None,
         AttrNodes(cfg) + (ParamNodes(cfg.memory, names, 0) + ExtNodes(cfg.extensions)))
  }

  lemma AddChildrenMore(stack: seq<Node>, children: seq<Node>, more: seq<Node>)
    requires stack != []
    ensures AddChildren(AddChildren(stack, children), more) == AddChildren(stack, children + more)
    ensures |more| == 1 ==> AddChild(AddChildren(stack, children), more[0]) == AddChildren(stack, children + more)
  {
    var top := stack[|stack| - 1];
    assert (top.children + children) + more == top.children + (children + more);
    assert |more| == 1 ==> more == [more[0]];
  }

  method AddAttribute(tb: CommentTreeBuilder, tag: string, text: Option<string>)
    requires tb.open != []
    modifies tb
    ensures tb.open == old(AddChildren(tb.open, AttrNode(tag, text))) && tb.root == old(tb.root)
  {
    hide AddChild, AddChildren;
    AddChildrenNone(tb.open);
    AddChildrenMore(tb.open, [], [Node(Named(tag), map[], text, [])]);
    assert [] + [Node(Named(tag), map[], text, [])] == [Node(Named(tag), map[], text, [])];
    if text.Some? {
      tb.AddTag(tag, text, map[]);
    }
  }

  // _add_attribute_tags for a device.
  method AddAttributeTags(tb: CommentTreeBuilder, cfg: DeviceConfig)
    requires tb.open != []
    modifies tb
    ensures tb.open == old(AddChildren(tb.open, AttrNodes(cfg))) && tb.root == old(tb.root)
  {
    hide AddChildren, AttrNode;
    ghost var s := tb.open;
    var idc, bus, address := StrOf(cfg.idc), StrOf(cfg.bus), StrOf(cfg.address);
    ghost var a, b, c, d, e := AttrNode("idc", idc), AttrNode("bus", bus), AttrNode("address", address),
      AttrNode("name", Some(cfg.name)), AttrNode("description", cfg.description);
    AddChildrenMore(s, a, b + (c + (d + e)));
    AddChildrenMore(AddChildren(s, a), b, c + (d + e));
    AddChildrenMore(AddChildren(AddChildren(s, a), b), c, d + e);
    AddChildrenMore(AddChildren(AddChildren(AddChildren(s, a), b), c), d, e);
    AddAttribute(tb, "idc", idc);
    AddAttribute(tb, "bus", bus);
    AddAttribute(tb, "address", address);
    AddAttribute(tb, "name", Some(cfg.name));
    AddAttribute(tb, "description", cfg.description);
  }

  // _build_device_tree; false stands for the TypeError of an extension.
  method BuildDeviceTree(tb: CommentTreeBuilder, cfg: DeviceConfig, names: map<int, string>) returns (ok: bool)
    requires tb.open != [] && forall a <- cfg.memory :: 0 <= a < PARAM_RANGE
    modifies tb
    ensures ok <==> AllEncodable(cfg.extensions)
    ensures ok ==> tb.open == AddChild(old(tb.open), DeviceNode(cfg, names)) && tb.root == old(tb.root)
  {
    hide AddChild, AddChildren, AttrNodes, ParamNodes, ExtNodes, Encodable;
    ghost var below := tb.open;
    tb.Start(Named("device_config"), map[]);
    ghost var stack := tb.open;
    AddAttributeTags(tb, cfg);
    AddParameters(tb, cfg, names);
    AddChildrenMore(stack, AttrNodes(cfg), ParamNodes(cfg.memory, names, 0));
    ok := AddExtensions(tb, cfg);
    if ok {
      AddChildrenMore(stack, AttrNodes(cfg) + ParamNodes(cfg.memory, names, 0), ExtNodes(cfg.extensions));
      ghost var children := AttrNodes(cfg) + (ParamNodes(cfg.memory, names, 0) + ExtNodes(cfg.extensions));
      assert children == (AttrNodes(cfg) + ParamNodes(cfg.memory, names, 0)) + ExtNodes(cfg.extensions);
      AddChildrenInside(below, Node(Named("device_config"), map[], None, []), children);
      tb.End(Named("device_config"));
    }
  }

  // The addresses are within PARAM_RANGE, so counting through it sorts them.
  method AddParameters(tb: CommentTreeBuilder, cfg: DeviceConfig, names: map<int, string>)
    requires tb.open != [] && forall a <- cfg.memory :: 0 <= a < PARAM_RANGE
    modifies tb
    ensures tb.open == AddChildren(old(tb.open), ParamNodes(cfg.memory, names, 0)) && tb.root == old(tb.root)
  {
    hide AddChildren, CommentedParam, ParamNodes;
    ghost var stack, nodes := tb.open, [];
    AddChildrenNone(stack);
    assert [] + ParamNodes(cfg.memory, names, 0) == ParamNodes(cfg.memory, names, 0);
    for a := 0 to PARAM_RANGE
      invariant nodes + ParamNodes(cfg.memory, names, a) == ParamNodes(cfg.memory, names, 0)
      invariant tb.open == AddChildren(stack, nodes) && tb.root == old(tb.root)
    {
      AddParameter(tb, cfg, names, a);
      AddChildrenMore(stack, nodes, CommentedParam(cfg.memory, names, a));
      ParamNodesStep(nodes, cfg.memory, names, a);
      nodes := nodes + CommentedParam(cfg.memory, names, a);
    }
    ParamNodesEnd(nodes, cfg.memory, names);
  }

  lemma ParamNodesStep(nodes: seq<Node>, memory: map<int, int>, names: map<int, string>, a: int)
    requires a < PARAM_RANGE
    ensures (nodes + CommentedParam(memory, names, a)) + ParamNodes(memory, names, a + 1)
         == nodes + ParamNodes(memory, names, a)
  {
  }

  lemma ParamNodesEnd(nodes: seq<Node>, memory: map<int, int>, names: map<int, string>)
    ensures nodes + ParamNodes(memory, names, PARAM_RANGE) == nodes
  {
  }

  method AddParameter(tb: CommentTreeBuilder, cfg: DeviceConfig, names: map<int, string>, a: int)
    requires tb.open != []
    modifies tb
    ensures tb.open == AddChildren(old(tb.open), CommentedParam(cfg.memory, names, a)) && tb.root == old(tb.root)
  {
    hide AddChild, AddChildren;
    ghost var stack := tb.open;
    AddChildrenNone(stack);
    if a in cfg.memory {
      var param := ParamNode(a, cfg.memory[a]);
      ghost var comment := if a in names then [Node(Comment, map[], Some(names[a]), [])] else [];
      AddChildrenMore(stack, [], comment);
      AddChildrenMore(stack, comment, [param]);
      assert [] + comment == comment;
      if a in names {
        tb.AddComment(names[a]);
      }
      tb.AddTag("parameter", None, param.attrs);
    }
  }

  method AddExtensions(tb: CommentTreeBuilder, cfg: DeviceConfig) returns (ok: bool)
    requires tb.open != []
    modifies tb
    ensures ok <==> AllEncodable(cfg.extensions)
    ensures ok ==> tb.open == AddChildren(old(tb.open), ExtNodes(cfg.extensions)) && tb.root == old(tb.root)
  {
    hide AddChild, AddChildren, Encodable, ToNode;
    ghost var stack, nodes := tb.open, [];
    AddChildrenNone(stack);
    for i := 0 to |cfg.extensions|
      invariant AllEncodable(cfg.extensions[..i]) && nodes == ExtNodes(cfg.extensions[..i])
      invariant tb.open == AddChildren(stack, nodes) && tb.root == old(tb.root)
    {
      var (name, value) := cfg.extensions[i];
      ok := AddExtension(tb, name, value);
      if !ok {
        return;
      }
      assert cfg.extensions[..i + 1] == cfg.extensions[..i] + [(name, value)];
      AddChildrenMore(stack, nodes, [ExtNode(name, value)]);
      nodes := nodes + [ExtNode(name, value)];
    }
    assert cfg.extensions[..|cfg.extensions|] == cfg.extensions;
    ok := true;
  }

  method AddExtension(tb: CommentTreeBuilder, name: string, value: Value) returns (ok: bool)
    requires tb.open != []
    modifies tb
    ensures ok <==> Encodable(value)
    ensures ok ==> tb.open == AddChild(old(tb.open), ExtNode(name, value)) && tb.root == old(tb.root)
  {
    hide AddChild, AddChildren, Encodable, ToNode;
    ghost var below := tb.open;
    tb.Start(Named("extension"), map["name" := name]);
    ok := Value2Xml(tb, value);
    if ok {
      AddChildrenInside(below, Node(Named("extension"), map["name" := name], None, []), [ToNode(value)]);
      tb.End(Named("extension"));
    }
  }

  // A number set from an element's text: nothing without one, and None for the
  // ValueError of a text that is no number or out of range.
  function IntAttr(children: seq<Node>, tag: string, limit: Option<int>): Option<Option<int>> {
    var node := Find(children, tag);
    if node.None? || node.value.text.None? then
      Some(None)
    else
      var i := Int(node.value.text.value);
      if i.None? || (limit.Some? && !(0 <= i.value < limit.value)) then None else Some(i)
  }

  function TextAttr(children: seq<Node>, tag: string): Option<string> {
    var node := Find(children, tag);
    if node.None? then None else node.value.text
  }

  // set_cached_parameter for one element; None is the KeyError or ValueError.
  function ParamOf(node: Node): Option<(int, int)> {
    if "address" !in node.attrs || "value" !in node.attrs then
      None
    else
      var a, v := Int(node.attrs["address"]), Int(node.attrs["value"]);
      if a.None? || v.None? || !(0 <= a.value < PARAM_RANGE) then None else Some((a.value, v.value))
  }

  function ParamsInto(memory: map<int, int>, nodes: seq<Node>): Option<map<int, int>>
    decreases nodes
  {
    if nodes == [] then
      Some(memory)
    else
      var p := ParamOf(nodes[0]);
      if p.None? then None else ParamsInto(memory[p.value.0 := p.value.1], nodes[1..])
  }

  function IndexOf(extensions: seq<(string, Value)>, name: string): (i: nat)
    ensures i <= |extensions|
    ensures i < |extensions| ==> extensions[i].0 == name
    ensures forall j | 0 <= j < i :: extensions[j].0 != name
  {
    if extensions == [] || extensions[0].0 == name then 0 else 1 + IndexOf(extensions[1..], name)
  }

  // set_extension compares with None where there is no such extension, so
  // setting a new one to None does nothing.
  function SetExtension(extensions: seq<(string, Value)>, name: string, value: Value): seq<(string, Value)> {
    var i := IndexOf(extensions, name);
    if i < |extensions| then extensions[i := (name, value)]
    else if value == Nothing then extensions
    else extensions + [(name, value)]
  }

  ghost function ExtensionsInto(extensions: seq<(string, Value)>, nodes: seq<Node>): Option<seq<(string, Value)>>
    decreases nodes
  {
    if nodes == [] then
      Some(extensions)
    else
      var e := EntryFrom(nodes[0]);
      if e.None? then None else ExtensionsInto(SetExtension(extensions, e.value.0, e.value.1), nodes[1..])
  }

  ghost function DeviceFrom(node: Node): Option<DeviceConfig> {
    var idc, bus, address := IntAttr(node.children, "idc", None), IntAttr(node.children, "bus", Some(BUS_RANGE)),
      IntAttr(node.children, "address", Some(DEV_RANGE));
    var name := TextAttr(node.children, "name");
    var memory := ParamsInto(map[], Iter(node, "parameter"));
    var extensions := ExtensionsInto([], Iter(node, "extension"));
    if idc.None? || bus.None? || address.None? || memory.None? || extensions.None? then None
    else Some(DeviceConfig(
      idc.value, bus.value, address.value,
      if name.Some? then name.value else "", TextAttr(node.children, "description"),
      memory.value, extensions.value))
  }

  // _device_config_from_node
  method DeviceConfigFromNode(node: Node) returns (r: Option<DeviceConfig>)
    ensures r == DeviceFrom(node)
  {
    hide Iter, IterAll, Find, Int, EntryFrom;
    var idc := IntAttr(node.children, "idc", None);
    var bus := IntAttr(node.children, "bus", Some(BUS_RANGE));
    var address := IntAttr(node.children, "address", Some(DEV_RANGE));
    if idc.None? || bus.None? || address.None? {
      return None;
    }
    var name, description := TextAttr(node.children, "name"), TextAttr(node.children, "description");
    var memory, params := map[], Iter(node, "parameter");
    for i := 0 to |params|
      invariant ParamsInto(memory, params[i..]) == ParamsInto(map[], params)
    {
      var p := ParamOf(params[i]);
      if p.None? {
        return None;
      }
      assert params[i..][1..] == params[i + 1..];
      memory := memory[p.value.0 := p.value.1];
    }
    var extensions := ReadExtensions(Iter(node, "extension"));
    if extensions.None? {
      return None;
    }
    r := Some(DeviceConfig(idc.value, bus.value, address.value, if name.Some? then name.value else "", description,
                           memory, extensions.value));
  }

  method ReadExtensions(nodes: seq<Node>) returns (r: Option<seq<(string, Value)>>)
    ensures r == ExtensionsInto([], nodes)
  {
    var extensions := [];
    for i := 0 to |nodes|
      invariant ExtensionsInto(extensions, nodes[i..]) == ExtensionsInto([], nodes)
    {
      assert nodes[i..][1..] == nodes[i + 1..];
      var value := Find(nodes[i].children, "value");
      if "name" !in nodes[i].attrs || value.None? {
        return None;
      }
      var v := Xml2Value(value.value);
      if v.None? {
        return None;
      }
      extensions := SetExtension(extensions, nodes[i].attrs["name"], v.value);
    }
    r := Some(extensions);
  }

  // The extensions are set one after the other, under the names that are read:
  // one that comes back as nothing is gone, and of two with the same name the
  // later wins.
  ghost function ExtensionsReturned(extensions: seq<(string, Value)>, file: bool): seq<(string, Value)> {
    if extensions == [] then []
    else
      var last := extensions[|extensions| - 1];
      SetExtension(ExtensionsReturned(extensions[..|extensions| - 1], file), Name(last.0, file), Returned(last.1, file))
  }

  function LinesRead(s: string, file: bool): string {
    if file then Lines(s) else s
  }

  // What a configuration comes back as.
  ghost function DeviceReturned(cfg: DeviceConfig, file: bool): DeviceConfig {
    cfg.(name := LinesRead(cfg.name, file),
         description := if file then TextRead(cfg.description) else cfg.description,
         extensions := ExtensionsReturned(cfg.extensions, file))
  }

  lemma AllAsReadJoins(a: seq<Node>, b: seq<Node>, file: bool)
    ensures AllAsRead(a + b, file) == AllAsRead(a, file) + AllAsRead(b, file)
  {
    RereadAllJoins(a, b);
  }

  // A search finds the same element as before the file.
  lemma FindRead(nodes: seq<Node>, tag: string, file: bool)
    ensures Find(AllAsRead(nodes, file), tag) ==
            match Find(nodes, tag) case None => None case Some(n) => Some(AsRead(n, file))
  {
    if !file || nodes == [] {
    } else {
      FindRead(nodes[1..], tag, file);
      var rest := RereadAll(nodes[1..]);
      if nodes[0].tag != Comment {
        assert ([Reread(nodes[0])] + rest)[1..] == rest;
      } else {
        assert [] + rest == rest;
      }
    }
  }

  lemma FindAttrNode(tag: string, text: Option<string>, t: string)
    ensures Find(AttrNode(tag, text), t) ==
            if t == tag && text.Some? then Some(Node(Named(tag), map[], text, [])) else None
  {
  }

  ghost function DeviceAttrs(cfg: DeviceConfig): set<(string, Option<string>)> {
    {("idc", StrOf(cfg.idc)), ("bus", StrOf(cfg.bus)), ("address", StrOf(cfg.address)),
     ("name", Some(cfg.name)), ("description", cfg.description)}
  }

  lemma FindAttrNodes(cfg: DeviceConfig, t: string, text: Option<string>)
    requires (t, text) in DeviceAttrs(cfg)
    ensures Find(AttrNodes(cfg), t) == if text.Some? then Some(Node(Named(t), map[], text, [])) else None
  {
    hide Find, AttrNode;
    var a, b, c, d, e := AttrNode("idc", StrOf(cfg.idc)), AttrNode("bus", StrOf(cfg.bus)),
      AttrNode("address", StrOf(cfg.address)), AttrNode("name", Some(cfg.name)),
      AttrNode("description", cfg.description);
    FindAttrNode("idc", StrOf(cfg.idc), t);
    FindAttrNode("bus", StrOf(cfg.bus), t);
    FindAttrNode("address", StrOf(cfg.address), t);
    FindAttrNode("name", Some(cfg.name), t);
    FindAttrNode("description", cfg.description, t);
    FindJoins(a, b + (c + (d + e)), t);
    FindJoins(b, c + (d + e), t);
    FindJoins(c, d + e, t);
    FindJoins(d, e, t);
  }

  lemma CommentedTags(memory: map<int, int>, names: map<int, string>, a: int)
    ensures forall n <- CommentedParam(memory, names, a) :: n.children == [] && n.tag in {Comment, Named("parameter")}
  {
    hide Str;
  }

  lemma ParamNodesTags(memory: map<int, int>, names: map<int, string>, a: int, t: string)
    requires t != "parameter"
    ensures Find(ParamNodes(memory, names, a), t) == None
    ensures forall n <- ParamNodes(memory, names, a) :: n.children == [] && n.tag != Named(t)
    decreases PARAM_RANGE - a
  {
    hide CommentedParam, Find;
    if a >= PARAM_RANGE {
    } else {
      CommentedTags(memory, names, a);
      ParamNodesTags(memory, names, a + 1, t);
    }
    FindNone(ParamNodes(memory, names, a), t);
  }

  lemma FindDeviceAttr(cfg: DeviceConfig, names: map<int, string>, t: string, text: Option<string>, file: bool)
    requires AllEncodable(cfg.extensions)
    requires (t, text) in DeviceAttrs(cfg)
    ensures Find(AsRead(DeviceNode(cfg, names), file).children, t) ==
            if text.Some? then Some(AsRead(Node(Named(t), map[], text, []), file)) else None
  {
    hide Find, AttrNodes, ParamNodes, Encodable, ToNode;
    var params, exts := ParamNodes(cfg.memory, names, 0), ExtNodes(cfg.extensions);
    FindRead(DeviceNode(cfg, names).children, t, file);
    FindJoins(AttrNodes(cfg), params + exts, t);
    FindJoins(params, exts, t);
    ParamNodesTags(cfg.memory, names, 0, t);
    FindNone(exts, t);
    FindAttrNodes(cfg, t, text);
  }

  lemma AttributesRead(cfg: DeviceConfig, names: map<int, string>, file: bool)
    requires AllEncodable(cfg.extensions) && Valid(cfg)
    ensures var children := AsRead(DeviceNode(cfg, names), file).children;
            && IntAttr(children, "idc", None) == Some(cfg.idc)
            && IntAttr(children, "bus", Some(BUS_RANGE)) == Some(cfg.bus)
            && IntAttr(children, "address", Some(DEV_RANGE)) == Some(cfg.address)
            && TextAttr(children, "name") == (if file then TextRead(Some(cfg.name)) else Some(cfg.name))
            && TextAttr(children, "description") == DeviceReturned(cfg, file).description
  {
    hide Find, AttrNodes, ParamNodes, Encodable, ToNode, Int, Str, DeviceNode, ExtensionsReturned, RereadAll;
    hide Lines, Attr;
    FindDeviceAttr(cfg, names, "idc", StrOf(cfg.idc), file);
    FindDeviceAttr(cfg, names, "bus", StrOf(cfg.bus), file);
    FindDeviceAttr(cfg, names, "address", StrOf(cfg.address), file);
    FindDeviceAttr(cfg, names, "name", Some(cfg.name), file);
    FindDeviceAttr(cfg, names, "description", cfg.description, file);
    forall i: int ensures Int(Str(i)) == Some(i) && Plain(Str(i)) {
      IntInvertsStr(i);
      StrIsPlain(i);
    }
  }

  // Below a value there are only values and keys.
  lemma {:induction false} IterValue(v: Value, tag: string)
    requires Encodable(v) && tag !in {"value", "key"}
    ensures Iter(ToNode(v), tag) == []
    decreases v
  {
    hide Sorted, Less, Increasing;
    match v
    case Text(_) =>
    case Number(_) =>
    case List(items) =>
      forall i | 0 <= i < |items| ensures Iter(ToNode(v).children[i], tag) == [] {
        IterValue(items[i], tag);
      }
      IterAllNone(ToNode(v).children, tag);
    case Tuple(items) =>
      forall i | 0 <= i < |items| ensures Iter(ToNode(v).children[i], tag) == [] {
        IterValue(items[i], tag);
      }
      IterAllNone(ToNode(v).children, tag);
    case Dict(entries) =>
      var keys := Sorted(entries.Keys);
      forall i | 0 <= i < |keys| ensures Iter(ToNode(v).children[i], tag) == [] {
        assert keys[i] in entries;
        IterValue(entries[keys[i]], tag);
        IterOne(ToNode(entries[keys[i]]), tag);
      }
      IterAllNone(ToNode(v).children, tag);
  }

  lemma AttrNodeIsLeaf(tag: string, text: Option<string>)
    ensures forall n <- AttrNode(tag, text) :: n.children == [] && n.tag == Named(tag)
  {
  }

  lemma AttrNodesAreLeaves(cfg: DeviceConfig)
    ensures forall n <- AttrNodes(cfg) ::
              n.children == [] && n.tag in {Named("idc"), Named("bus"), Named("address"), Named("name"),
                  Named("description")}
  {
    hide AttrNode, StrOf;
    AttrNodeIsLeaf("idc", StrOf(cfg.idc));
    AttrNodeIsLeaf("bus", StrOf(cfg.bus));
    AttrNodeIsLeaf("address", StrOf(cfg.address));
    AttrNodeIsLeaf("name", Some(cfg.name));
    AttrNodeIsLeaf("description", cfg.description);
  }

  // The parameter elements without the comments.
  function PlainParams(memory: map<int, int>, a: int): seq<Node>
    decreases PARAM_RANGE - a
  {
    if a >= PARAM_RANGE then []
    else (if a in memory then [ParamNode(a, memory[a])] else []) + PlainParams(memory, a + 1)
  }

  lemma IterParams(memory: map<int, int>, names: map<int, string>, a: int, file: bool)
    ensures IterAll(AllAsRead(ParamNodes(memory, names, a), file), "parameter") == PlainParams(memory, a)
    decreases PARAM_RANGE - a
  {
    hide Str;
    if a >= PARAM_RANGE {
    } else {
      IterParams(memory, names, a + 1, file);
      var first, rest := CommentedParam(memory, names, a), ParamNodes(memory, names, a + 1);
      AllAsReadJoins(first, rest, file);
      IterAllJoins(AllAsRead(first, file), AllAsRead(rest, file), "parameter");
      IterCommented(memory, names, a, file);
    }
  }

  lemma ParamStays(a: int, v: int)
    ensures Reread(ParamNode(a, v)) == ParamNode(a, v)
  {
    hide Str, Lines, Attr;
    StrIsPlain(a);
    StrIsPlain(v);
    assert Reread(ParamNode(a, v)).attrs == ParamNode(a, v).attrs;
  }

  lemma IterCommented(memory: map<int, int>, names: map<int, string>, a: int, file: bool)
    ensures IterAll(AllAsRead(CommentedParam(memory, names, a), file), "parameter") ==
            if a in memory then [ParamNode(a, memory[a])] else []
  {
    hide Str;
    hide Lines, Attr;
    if a in memory {
      var comment := if a in names then [Node(Comment, map[], Some(names[a]), [])] else [];
      var param := ParamNode(a, memory[a]);
      AllAsReadJoins(comment, [param], file);
      RereadOne(param);
      ParamStays(a, memory[a]);
      IterOne(param, "parameter");
      IterAllJoins(AllAsRead(comment, file), [param], "parameter");
      IterLeaves(comment, "parameter");
      assert a in names ==> comment[1..] == [];
    }
  }

  lemma ParamOfNode(a: int, v: int)
    requires 0 <= a < PARAM_RANGE
    ensures ParamOf(ParamNode(a, v)) == Some((a, v))
  {
    hide Str, Int;
    IntInvertsStr(a);
    IntInvertsStr(v);
  }

  lemma ParamsRead(memory: map<int, int>, a: int)
    requires 0 <= a <= PARAM_RANGE && forall k <- memory :: 0 <= k < PARAM_RANGE
    ensures ParamsInto(map k | k in memory && k < a :: memory[k], PlainParams(memory, a)) == Some(memory)
    decreases PARAM_RANGE - a
  {
    hide ParamNode, ParamOf;
    var below := map k | k in memory && k < a :: memory[k];
    if a == PARAM_RANGE {
      assert below == memory;
    } else {
      ParamsRead(memory, a + 1);
      var next := map k | k in memory && k < a + 1 :: memory[k];
      if a in memory {
        ParamOfNode(a, memory[a]);
        assert next == below[a := memory[a]];
        assert PlainParams(memory, a)[1..] == PlainParams(memory, a + 1);
      } else {
        assert next == below;
        assert [] + PlainParams(memory, a + 1) == PlainParams(memory, a + 1);
      }
    }
  }

  lemma ExtNodesRead(extensions: seq<(string, Value)>, file: bool)
    requires AllEncodable(extensions)
    ensures |AllAsRead(ExtNodes(extensions), file)| == |extensions|
    ensures forall i | 0 <= i < |extensions| ::
              var n := AllAsRead(ExtNodes(extensions), file)[i];
              && n.tag == Named("extension") && n.children == [AsRead(ToNode(extensions[i].1), file)]
              && EntryFrom(n) == Some((Name(extensions[i].0, file), Returned(extensions[i].1, file)))
  {
    hide Encodable, ToNode, EntryFrom, Returned, RereadAll;
    if file {
      RereadEach(ExtNodes(extensions));
    }
    forall i | 0 <= i < |extensions|
      ensures var n := AllAsRead(ExtNodes(extensions), file)[i];
              && n.tag == Named("extension") && n.children == [AsRead(ToNode(extensions[i].1), file)]
              && EntryFrom(n) == Some((Name(extensions[i].0, file), Returned(extensions[i].1, file)))
    {
      ExtNodeRead(extensions[i].0, extensions[i].1, file);
    }
  }

  lemma ExtNodeRead(name: string, v: Value, file: bool)
    requires Encodable(v)
    ensures var n := AsRead(ExtNode(name, v), file);
            && n.tag == Named("extension") && n.children == [AsRead(ToNode(v), file)]
            && EntryFrom(n) == Some((Name(name, file), Returned(v, file)))
  {
    hide FromNode, Returned, Lines, Attr;
    RoundTrip(v, file);
    RereadOne(ToNode(v));
    assert AsRead(ToNode(v), file).tag == Named("value");
  }

  lemma IterExtensions(extensions: seq<(string, Value)>, file: bool)
    requires AllEncodable(extensions)
    ensures IterAll(AllAsRead(ExtNodes(extensions), file), "parameter") == []
    ensures IterAll(AllAsRead(ExtNodes(extensions), file), "extension") == AllAsRead(ExtNodes(extensions), file)
  {
    hide Encodable, ToNode, EntryFrom, Returned, RereadAll, ExtNodes, IterAll;
    ExtNodesRead(extensions, file);
    var nodes := AllAsRead(ExtNodes(extensions), file);
    forall i | 0 <= i < |nodes|
      ensures Iter(nodes[i], "parameter") == [] && Iter(nodes[i], "extension") == [nodes[i]]
    {
      InsideExtension(extensions[i].1, "parameter", file);
      InsideExtension(extensions[i].1, "extension", file);
    }
    IterAllNone(nodes, "parameter");
    IterAllSelf(nodes, "extension");
  }

  lemma InsideExtension(v: Value, tag: string, file: bool)
    requires Encodable(v) && tag !in {"value", "key"}
    ensures IterAll([AsRead(ToNode(v), file)], tag) == []
  {
    IterValue(v, tag);
    IterReread(ToNode(v), tag);
    IterOne(AsRead(ToNode(v), file), tag);
  }

  lemma IterAllSelf(nodes: seq<Node>, tag: string)
    requires forall i | 0 <= i < |nodes| :: Iter(nodes[i], tag) == [nodes[i]]
    ensures IterAll(nodes, tag) == nodes
  {
    if nodes == [] {
    } else {
      IterAllSelf(nodes[1..], tag);
    }
  }

  lemma ExtensionsRead(extensions: seq<(string, Value)>, i: nat, file: bool)
    requires AllEncodable(extensions) && i <= |extensions|
    ensures |AllAsRead(ExtNodes(extensions), file)| == |extensions|
    ensures ExtensionsInto(ExtensionsReturned(extensions[..i], file), AllAsRead(ExtNodes(extensions), file)[i..])
         == Some(ExtensionsReturned(extensions, file))
    decreases |extensions| - i
  {
    hide Encodable, EntryFrom, Returned, ExtNodes, AllAsRead, SetExtension, ExtensionsInto, ExtensionsReturned, Name;
    ExtNodesRead(extensions, file);
    var nodes := AllAsRead(ExtNodes(extensions), file);
    if i == |extensions| {
      assert extensions[..i] == extensions && nodes[i..] == [];
      NoneInto(ExtensionsReturned(extensions, file));
    } else {
      ExtensionsRead(extensions, i + 1, file);
      IntoStep(ExtensionsReturned(extensions[..i], file), nodes, i);
      SetReturned(extensions, i, file);
    }
  }

  lemma NoneInto(extensions: seq<(string, Value)>)
    ensures ExtensionsInto(extensions, []) == Some(extensions)
  {
  }

  lemma IntoStep(extensions: seq<(string, Value)>, nodes: seq<Node>, i: nat)
    requires i < |nodes| && EntryFrom(nodes[i]).Some?
    ensures var e := EntryFrom(nodes[i]).value;
            ExtensionsInto(extensions, nodes[i..]) == ExtensionsInto(SetExtension(extensions, e.0, e.1), nodes[i + 1..])
  {
    assert nodes[i..][1..] == nodes[i + 1..];
  }

  lemma SetReturned(extensions: seq<(string, Value)>, i: nat, file: bool)
    requires i < |extensions|
    ensures SetExtension(ExtensionsReturned(extensions[..i], file), Name(extensions[i].0, file),
                         Returned(extensions[i].1, file))
         == ExtensionsReturned(extensions[..i + 1], file)
  {
    hide Returned, SetExtension, Name;
    assert extensions[..i + 1][..i] == extensions[..i];
  }

  lemma IterDevice(cfg: DeviceConfig, names: map<int, string>, file: bool)
    requires AllEncodable(cfg.extensions)
    ensures Iter(AsRead(DeviceNode(cfg, names), file), "parameter") == PlainParams(cfg.memory, 0)
    ensures Iter(AsRead(DeviceNode(cfg, names), file), "extension") == AllAsRead(ExtNodes(cfg.extensions), file)
  {
    hide Encodable, AttrNodes, ParamNodes, ExtNodes, PlainParams, IterAll, RereadAll;
    var attrs, params, exts := AttrNodes(cfg), ParamNodes(cfg.memory, names, 0), ExtNodes(cfg.extensions);
    AllAsReadJoins(attrs, params + exts, file);
    AllAsReadJoins(params, exts, file);
    forall tag | tag in {"parameter", "extension"}
      ensures IterAll(AllAsRead(attrs, file), tag) == []
      ensures IterAll(AsRead(DeviceNode(cfg, names), file).children, tag)
           == IterAll(AllAsRead(params, file), tag) + IterAll(AllAsRead(exts, file), tag)
    {
      AttrNodesAreLeaves(cfg);
      IterLeaves(attrs, tag);
      IterAllReread(attrs, tag);
      IterAllJoins(AllAsRead(attrs, file), AllAsRead(params, file) + AllAsRead(exts, file), tag);
      IterAllJoins(AllAsRead(params, file), AllAsRead(exts, file), tag);
    }
    IterParams(cfg.memory, names, 0, file);
    ParamNodesTags(cfg.memory, names, 0, "extension");
    IterLeaves(params, "extension");
    IterAllReread(params, "extension");
    IterExtensions(cfg.extensions, file);
  }

  lemma DeviceRoundTrip(cfg: DeviceConfig, names: map<int, string>, file: bool)
    requires AllEncodable(cfg.extensions) && Valid(cfg)
    ensures DeviceFrom(AsRead(DeviceNode(cfg, names), file)) == Some(DeviceReturned(cfg, file))
  {
    hide Encodable, IntAttr, TextAttr, Iter, DeviceNode, AsRead, AllAsRead, ExtNodes, ParamsInto, ExtensionsInto;
    hide PlainParams, ExtensionsReturned, NoRepeatedNames, Lines;
    LinesExactly(cfg.name);
    AttributesRead(cfg, names, file);
    IterDevice(cfg, names, file);
    ParamsRead(cfg.memory, 0);
    assert (map k | k in cfg.memory && k < 0 :: cfg.memory[k]) == map[];
    ExtensionsRead(cfg.extensions, 0, file);
    NoneReturned(cfg.extensions, file);
  }

  lemma NoneReturned(extensions: seq<(string, Value)>, file: bool)
    ensures extensions[..0] == [] && ExtensionsReturned([], file) == []
    ensures forall nodes: seq<Node> :: nodes[0..] == nodes
  {
  }

  // ----- When it is the same -----

  ghost predicate StableExtension(e: (string, Value), file: bool) {
    Stable(e.1, file) && (file ==> NoWhite(e.0))
  }

  // No tuples, and nothing that a file changes.
  ghost predicate StableDevice(cfg: DeviceConfig, file: bool) {
    && (forall i | 0 <= i < |cfg.extensions| :: StableExtension(cfg.extensions[i], file))
    && (file ==> '\r' !in cfg.name)
    && (file && cfg.description.Some? ==> cfg.description.value != "" && '\r' !in cfg.description.value)
  }

  ghost function OneReturned(e: (string, Value), file: bool): (string, Value) {
    (Name(e.0, file), Returned(e.1, file))
  }

  // If as many come back as there were, each was added as it was read.
  lemma {:induction false} AsManyReturned(extensions: seq<(string, Value)>, file: bool)
    ensures |ExtensionsReturned(extensions, file)| <= |extensions|
    ensures |ExtensionsReturned(extensions, file)| == |extensions| ==>
              forall i | 0 <= i < |extensions| ::
                  ExtensionsReturned(extensions, file)[i] == OneReturned(extensions[i], file)
  {
    hide Returned, Name;
    if extensions == [] {
    } else {
      AsManyReturned(extensions[..|extensions| - 1], file);
    }
  }

  // If each is read as itself, so are all.
  lemma {:induction false} EachReturned(extensions: seq<(string, Value)>, file: bool)
    requires NoRepeatedNames(extensions)
    requires forall i | 0 <= i < |extensions| ::
               extensions[i].1 != Nothing && OneReturned(extensions[i], file) == extensions[i]
    ensures ExtensionsReturned(extensions, file) == extensions
  {
    hide Returned, Name;
    if extensions == [] {
    } else {
      var last := |extensions| - 1;
      EachReturned(extensions[..last], file);
      assert extensions == extensions[..last] + [extensions[last]];
      assert OneReturned(extensions[last], file) == extensions[last];
    }
  }

  lemma OneIsSame(e: (string, Value), file: bool)
    ensures OneReturned(e, file) == e <==> StableExtension(e, file)
  {
    hide Returned, Stable;
    ReturnedIsSame(e.1, file);
    NameExactly(e.0, file);
  }

  lemma ExtensionsComeBack(extensions: seq<(string, Value)>, file: bool)
    requires AllEncodable(extensions) && NoRepeatedNames(extensions)
    ensures ExtensionsReturned(extensions, file) == extensions <==>
            forall i | 0 <= i < |extensions| :: StableExtension(extensions[i], file)
  {
    hide Encodable, OneReturned, StableExtension, ExtensionsReturned, NoRepeatedNames;
    forall i | 0 <= i < |extensions|
      ensures extensions[i].1 != Nothing
      ensures OneReturned(extensions[i], file) == extensions[i] <==> StableExtension(extensions[i], file)
    {
      SomethingEncodable(extensions[i].1);
      OneIsSame(extensions[i], file);
    }
    AsManyReturned(extensions, file);
    if forall i | 0 <= i < |extensions| :: StableExtension(extensions[i], file) {
      EachReturned(extensions, file);
    }
  }

  lemma SomethingEncodable(v: Value)
    requires Encodable(v)
    ensures v != Nothing
  {
  }

  lemma TextIsSame(text: Option<string>)
    ensures TextRead(text) == text <==> (text.Some? ==> text.value != "" && '\r' !in text.value)
  {
    if text.Some? {
      LinesExactly(text.value);
    }
  }

  lemma DeviceIsSame(cfg: DeviceConfig, file: bool)
    requires AllEncodable(cfg.extensions) && NoRepeatedNames(cfg.extensions)
    ensures DeviceReturned(cfg, file) == cfg <==> StableDevice(cfg, file)
  {
    hide ExtensionsReturned, TextRead, Lines, NoRepeatedNames, Encodable, StableExtension;
    ExtensionsComeBack(cfg.extensions, file);
    LinesExactly(cfg.name);
    TextIsSame(cfg.description);
  }

  // ----- When it can be written -----

  ghost predicate LegalOption(text: Option<string>) {
    text.Some? ==> LegalText(text.value)
  }

  // Names of parameters are written as comments.
  ghost predicate LegalDevice(cfg: DeviceConfig, names: map<int, string>) {
    && LegalText(cfg.name) && LegalOption(cfg.description)
    && (forall a <- cfg.memory | a in names :: LegalComment(names[a]))
    && (forall i | 0 <= i < |cfg.extensions| :: LegalText(cfg.extensions[i].0) && LegalValue(cfg.extensions[i].1))
  }

  lemma AttrWritable(tag: string, text: Option<string>)
    ensures AllWritable(AttrNode(tag, text)) <==> LegalOption(text)
  {
    hide LegalText;
    if text.Some? {
      var node := Node(Named(tag), map[], text, []);
      assert AttrNode(tag, text) == [node] && node in [node];
      assert AllWritable(node.children);
      assert Writable(node) <==> LegalText(text.value);
    }
  }

  lemma StrWritable(tag: string, i: Option<int>)
    ensures AllWritable(AttrNode(tag, StrOf(i)))
  {
    hide Str, Lines, Attr, AttrNode;
    AttrWritable(tag, StrOf(i));
    if i.Some? {
      StrIsPlain(i.value);
    }
  }

  lemma AttrsWritable(cfg: DeviceConfig)
    ensures AllWritable(AttrNodes(cfg)) <==> LegalText(cfg.name) && LegalOption(cfg.description)
  {
    hide AllWritable, AttrNode, StrOf, LegalText;
    var a, b, c, d, e := AttrNode("idc", StrOf(cfg.idc)), AttrNode("bus", StrOf(cfg.bus)),
      AttrNode("address", StrOf(cfg.address)), AttrNode("name", Some(cfg.name)),
      AttrNode("description", cfg.description);
    StrWritable("idc", cfg.idc);
    StrWritable("bus", cfg.bus);
    StrWritable("address", cfg.address);
    AttrWritable("name", Some(cfg.name));
    AttrWritable("description", cfg.description);
    AllWritableJoins(a, b + (c + (d + e)));
    AllWritableJoins(b, c + (d + e));
    AllWritableJoins(c, d + e);
    AllWritableJoins(d, e);
  }

  lemma CommentedWritable(memory: map<int, int>, names: map<int, string>, a: int)
    ensures AllWritable(CommentedParam(memory, names, a)) <==> (a in memory && a in names ==> LegalComment(names[a]))
  {
    hide Str, Lines, Attr, LegalText, LegalComment;
    if a in memory {
      StrIsPlain(a);
      StrIsPlain(memory[a]);
      var param := ParamNode(a, memory[a]);
      assert Writable(param);
      if a in names {
        var comment := Node(Comment, map[], Some(names[a]), []);
        assert CommentedParam(memory, names, a) == [comment] + [param];
        AllWritableJoins([comment], [param]);
        assert comment in [comment];
      }
    }
  }

  lemma {:induction false} ParamsWritable(memory: map<int, int>, names: map<int, string>, a: int)
    requires forall k <- memory :: k < PARAM_RANGE
    ensures AllWritable(ParamNodes(memory, names, a)) <==>
            forall k <- memory | a <= k && k in names :: LegalComment(names[k])
    decreases PARAM_RANGE - a
  {
    hide AllWritable, CommentedParam, LegalComment;
    if a >= PARAM_RANGE {
      NoneWritable();
    } else {
      ParamsWritable(memory, names, a + 1);
      CommentedWritable(memory, names, a);
      AllWritableJoins(CommentedParam(memory, names, a), ParamNodes(memory, names, a + 1));
    }
  }

  lemma NoneWritable()
    ensures AllWritable([])
  {
  }

  lemma ExtensionWritable(name: string, v: Value)
    requires Encodable(v)
    ensures Writable(ExtNode(name, v)) <==> LegalText(name) && LegalValue(v)
  {
    hide ToNode, LegalText, LegalValue;
    WritableExactly(v);
    var node := ExtNode(name, v);
    assert node.attrs["name"] == name && node.children == [ToNode(v)];
  }

  lemma ExtensionsWritable(extensions: seq<(string, Value)>)
    requires AllEncodable(extensions)
    ensures AllWritable(ExtNodes(extensions)) <==>
            forall i | 0 <= i < |extensions| :: LegalText(extensions[i].0) && LegalValue(extensions[i].1)
  {
    hide Writable, ToNode, LegalText, LegalValue, Encodable;
    var nodes := ExtNodes(extensions);
    forall i | 0 <= i < |extensions|
      ensures Writable(nodes[i]) <==> LegalText(extensions[i].0) && LegalValue(extensions[i].1)
    {
      ExtensionWritable(extensions[i].0, extensions[i].1);
    }
    assert forall i | 0 <= i < |nodes| :: nodes[i] in nodes;
  }

  lemma DeviceWritable(cfg: DeviceConfig, names: map<int, string>)
    requires AllEncodable(cfg.extensions) && Valid(cfg)
    ensures Writable(DeviceNode(cfg, names)) <==> LegalDevice(cfg, names)
  {
    hide AllWritable, Encodable, LegalText, LegalOption, LegalValue, LegalComment, AttrNodes, ParamNodes, ExtNodes;
    var attrs, params, exts := AttrNodes(cfg), ParamNodes(cfg.memory, names, 0), ExtNodes(cfg.extensions);
    AttrsWritable(cfg);
    ParamsWritable(cfg.memory, names, 0);
    ExtensionsWritable(cfg.extensions);
    AllWritableJoins(attrs, params + exts);
    AllWritableJoins(params, exts);
  }

  // Exactly when a device comes back unchanged.
  lemma DeviceComesBack(cfg: DeviceConfig, names: map<int, string>, file: bool)
    requires AllEncodable(cfg.extensions) && Valid(cfg)
    ensures (match Passed(DeviceNode(cfg, names), file) case None => None case Some(node) => DeviceFrom(node))
              == Some(cfg) <==>
            StableDevice(cfg, file) && (file ==> LegalDevice(cfg, names))
  {
    hide DeviceNode, DeviceFrom, DeviceReturned, StableDevice, LegalDevice, Writable, AsRead, Encodable;
    DeviceRoundTrip(cfg, names, file);
    DeviceIsSame(cfg, file);
    DeviceWritable(cfg, names);
  }

  datatype MrcConfig = MrcConfig(url: string, name: string, autoconnect: bool, devices: seq<DeviceConfig>)

  datatype SetupConfig = SetupConfig(autoconnect: bool, mrcs: seq<MrcConfig>)

  // The (bus, address) order devices are kept in.
  predicate Before(d: DeviceConfig, e: DeviceConfig) {
    && d.bus.Some? && d.address.Some? && e.bus.Some? && e.address.Some?
    && (d.bus.value < e.bus.value || (d.bus == e.bus && d.address.value < e.address.value))
  }

  ghost predicate ValidMrc(mrc: MrcConfig) {
    && (forall d <- mrc.devices :: Valid(d) && d.bus.Some? && d.address.Some?)
    && forall i, j | 0 <= i < j < |mrc.devices| :: Before(mrc.devices[i], mrc.devices[j])
  }

  ghost predicate ValidSetup(setup: SetupConfig) {
    && (forall m <- setup.mrcs :: ValidMrc(m))
    && forall i, j | 0 <= i < j < |setup.mrcs| :: Less(setup.mrcs[i].url, setup.mrcs[j].url)
  }

  ghost predicate MrcEncodable(mrc: MrcConfig) {
    forall d <- mrc.devices :: AllEncodable(d.extensions)
  }

  // str() of a bool.
  function Flag(b: bool): string {
    if b then "True" else "False"
  }

  // bool() of an element's text: any text counts as true.
  function FlagFrom(text: Option<string>): bool {
    text.Some? && text.value != ""
  }

  function MrcAttrNodes(mrc: MrcConfig): seq<Node> {
    AttrNode("url", Some(mrc.url))
    + (AttrNode("name", Some(mrc.name)) + AttrNode("autoconnect", Some(Flag(mrc.autoconnect))))
  }

  // The names of the parameters of each kind of device.
  type ParamNames = map<int, map<int, string>>

  function NamesFor(names: ParamNames, idc: Option<int>): map<int, string> {
    if idc.Some? && idc.value in names then names[idc.value] else map[]
  }

  ghost function DeviceNodes(devices: seq<DeviceConfig>, names: ParamNames): (r: seq<Node>)
    requires forall d <- devices :: AllEncodable(d.extensions)
    ensures |r| == |devices|
  {
    seq(|devices|, i requires 0 <= i < |devices| => DeviceNode(devices[i], NamesFor(names, devices[i].idc)))
  }

  ghost function MrcNode(mrc: MrcConfig, names: ParamNames): Node
    requires MrcEncodable(mrc)
  {
    Node(Named("mrc_config"), map[], None, MrcAttrNodes(mrc) + DeviceNodes(mrc.devices, names))
  }

  ghost function MrcNodes(mrcs: seq<MrcConfig>, names: ParamNames): (r: seq<Node>)
    requires forall m <- mrcs :: MrcEncodable(m)
    ensures |r| == |mrcs|
  {
    seq(|mrcs|, i requires 0 <= i < |mrcs| => MrcNode(mrcs[i], names))
  }

  ghost function SetupNode(setup: SetupConfig, names: ParamNames): Node
    requires forall m <- setup.mrcs :: MrcEncodable(m)
  {
    Node(Named("setup"), map[], None,
         AttrNode("autoconnect", Some(Flag(setup.autoconnect))) + MrcNodes(setup.mrcs, names))
  }

  const VERSION := "1"

  ghost function RootNode(setup: SetupConfig, names: ParamNames): Node
    requires forall m <- setup.mrcs :: MrcEncodable(m)
  {
    Node(Named("mesycontrol"), map["version" := VERSION], None, [SetupNode(setup, names)])
  }

  // _build_mrc_tree
  method BuildMrcTree(tb: CommentTreeBuilder, mrc: MrcConfig, names: ParamNames) returns (ok: bool)
    requires tb.open != [] && ValidMrc(mrc)
    modifies tb
    ensures ok <==> MrcEncodable(mrc)
    ensures ok ==> tb.open == AddChild(old(tb.open), MrcNode(mrc, names)) && tb.root == old(tb.root)
  {
    hide AddChild, AddChildren, AttrNode, AllEncodable, DeviceNode, NoRepeatedNames;
    ghost var below := tb.open;
    tb.Start(Named("mrc_config"), map[]);
    ghost var stack, nodes := tb.open, MrcAttrNodes(mrc);
    AddMrcAttributeTags(tb, mrc);
    for i := 0 to |mrc.devices|
      invariant forall j | 0 <= j < i :: AllEncodable(mrc.devices[j].extensions)
      invariant nodes == MrcAttrNodes(mrc) + DeviceNodes(mrc.devices[..i], names)
      invariant tb.open == AddChildren(stack, nodes) && tb.root == old(tb.root)
    {
      var device := mrc.devices[i];
      assert device in mrc.devices;
      ok := BuildDeviceTree(tb, device, NamesFor(names, device.idc));
      if !ok {
        return;
      }
      ghost var node := DeviceNode(device, NamesFor(names, device.idc));
      AddChildrenMore(stack, nodes, [node]);
      assert DeviceNodes(mrc.devices[..i + 1], names) == DeviceNodes(mrc.devices[..i], names) + [node];
      nodes := nodes + [node];
    }
    assert mrc.devices[..|mrc.devices|] == mrc.devices;
    AddChildrenInside(below, Node(Named("mrc_config"), map[], None, []), nodes);
    tb.End(Named("mrc_config"));
    ok := true;
  }

  method AddMrcAttributeTags(tb: CommentTreeBuilder, mrc: MrcConfig)
    requires tb.open != []
    modifies tb
    ensures tb.open == old(AddChildren(tb.open, MrcAttrNodes(mrc))) && tb.root == old(tb.root)
  {
    hide AddChildren, AttrNode;
    ghost var s := tb.open;
    ghost var a, b, c := AttrNode("url", Some(mrc.url)), AttrNode("name", Some(mrc.name)),
      AttrNode("autoconnect", Some(Flag(mrc.autoconnect)));
    AddChildrenMore(s, a, b + c);
    AddChildrenMore(AddChildren(s, a), b, c);
    AddAttribute(tb, "url", Some(mrc.url));
    AddAttribute(tb, "name", Some(mrc.name));
    AddAttribute(tb, "autoconnect", Some(Flag(mrc.autoconnect)));
  }

  // _build_setup_tree
  method BuildSetupTree(tb: CommentTreeBuilder, setup: SetupConfig, names: ParamNames) returns (ok: bool)
    requires tb.open != [] && ValidSetup(setup)
    modifies tb
    ensures ok <==> forall m <- setup.mrcs :: MrcEncodable(m)
    ensures ok ==> tb.open == AddChild(old(tb.open), SetupNode(setup, names)) && tb.root == old(tb.root)
  {
    hide AddChild, AddChildren, AttrNode, MrcEncodable, MrcNode, ValidMrc;
    ghost var below := tb.open;
    tb.Start(Named("setup"), map[]);
    ghost var stack, nodes := tb.open, AttrNode("autoconnect", Some(Flag(setup.autoconnect)));
    AddAttribute(tb, "autoconnect", Some(Flag(setup.autoconnect)));
    for i := 0 to |setup.mrcs|
      invariant forall j | 0 <= j < i :: MrcEncodable(setup.mrcs[j])
      invariant nodes == AttrNode("autoconnect", Some(Flag(setup.autoconnect))) + MrcNodes(setup.mrcs[..i], names)
      invariant tb.open == AddChildren(stack, nodes) && tb.root == old(tb.root)
    {
      assert setup.mrcs[i] in setup.mrcs;
      ok := BuildMrcTree(tb, setup.mrcs[i], names);
      if !ok {
        return;
      }
      ghost var node := MrcNode(setup.mrcs[i], names);
      AddChildrenMore(stack, nodes, [node]);
      assert MrcNodes(setup.mrcs[..i + 1], names) == MrcNodes(setup.mrcs[..i], names) + [node];
      nodes := nodes + [node];
    }
    assert setup.mrcs[..|setup.mrcs|] == setup.mrcs;
    AddChildrenInside(below, Node(Named("setup"), map[], None, []), nodes);
    tb.End(Named("setup"));
    ok := true;
  }

  // write_setup, up to the element tree.
  method WriteSetup(setup: SetupConfig, names: ParamNames) returns (root: Option<Node>)
    requires ValidSetup(setup)
    ensures root.Some? <==> forall m <- setup.mrcs :: MrcEncodable(m)
    ensures root.Some? ==> root == Some(RootNode(setup, names))
  {
    hide MrcEncodable, SetupNode, ValidSetup, AddChildren;
    var tb := new CommentTreeBuilder();
    tb.Start(Named("mesycontrol"), map["version" := VERSION]);
    var ok := BuildSetupTree(tb, setup, names);
    if !ok {
      return None;
    }
    AddChildrenInside([], Node(Named("mesycontrol"), map["version" := VERSION], None, []), [SetupNode(setup, names)]);
    tb.End(Named("mesycontrol"));
    root := tb.root;
  }

  predicate SamePlace(d: DeviceConfig, e: DeviceConfig) {
    d.bus == e.bus && d.address == e.address
  }

  // Appending and sorting again puts a device after those before it.
  function Inserted(devices: seq<DeviceConfig>, d: DeviceConfig): seq<DeviceConfig> {
    if devices == [] || Before(d, devices[0]) then [d] + devices else [devices[0]] + Inserted(devices[1..], d)
  }

  // add_device; None is the ValueError of a taken place, and stands for the
  // failing comparison with a device without one.
  function AddDevice(devices: seq<DeviceConfig>, d: DeviceConfig): Option<seq<DeviceConfig>> {
    if d.bus.None? || d.address.None? || exists e <- devices :: SamePlace(d, e) then None
    else Some(Inserted(devices, d))
  }

  function InsertedMrc(mrcs: seq<MrcConfig>, m: MrcConfig): seq<MrcConfig> {
    if mrcs == [] || Less(m.url, mrcs[0].url) then [m] + mrcs else [mrcs[0]] + InsertedMrc(mrcs[1..], m)
  }

  function AddMrc(mrcs: seq<MrcConfig>, m: MrcConfig): Option<seq<MrcConfig>> {
    if exists n <- mrcs :: n.url == m.url then None else Some(InsertedMrc(mrcs, m))
  }

  ghost function DevicesInto(devices: seq<DeviceConfig>, nodes: seq<Node>): Option<seq<DeviceConfig>>
    decreases nodes
  {
    if nodes == [] then
      Some(devices)
    else
      var d := DeviceFrom(nodes[0]);
      if d.None? || AddDevice(devices, d.value).None? then None
      else DevicesInto(AddDevice(devices, d.value).value, nodes[1..])
  }

  // A new MRC's URL is str(None), and so is one without text.
  function UrlFrom(children: seq<Node>): string {
    var url := TextAttr(children, "url");
    if url.Some? then url.value else "None"
  }

  function AutoconnectFrom(children: seq<Node>): bool {
    var node := Find(children, "autoconnect");
    node.Some? ==> FlagFrom(node.value.text)
  }

  ghost function MrcFrom(node: Node): Option<MrcConfig> {
    var name := TextAttr(node.children, "name");
    var devices := DevicesInto([], FindAll(node.children, "device_config"));
    if devices.None? then None
    else Some(MrcConfig(UrlFrom(node.children), if name.Some? then name.value else "", AutoconnectFrom(node.children),
                        devices.value))
  }

  ghost function MrcsInto(mrcs: seq<MrcConfig>, nodes: seq<Node>): Option<seq<MrcConfig>>
    decreases nodes
  {
    if nodes == [] then
      Some(mrcs)
    else
      var m := MrcFrom(nodes[0]);
      if m.None? || AddMrc(mrcs, m.value).None? then None else MrcsInto(AddMrc(mrcs, m.value).value, nodes[1..])
  }

  ghost function SetupFrom(root: Node): Option<SetupConfig> {
    var node := Find(root.children, "setup");
    if root.tag != Named("mesycontrol") || node.None? then
      None
    else
      var mrcs := MrcsInto([], FindAll(node.value.children, "mrc_config"));
      if mrcs.None? then None else Some(SetupConfig(AutoconnectFrom(node.value.children), mrcs.value))
  }

  // _mrc_config_from_node
  method MrcConfigFromNode(node: Node) returns (r: Option<MrcConfig>)
    ensures r == MrcFrom(node)
  {
    hide Find, FindAll, DeviceFrom, AddDevice;
    var name := TextAttr(node.children, "name");
    var mrc := MrcConfig(UrlFrom(node.children), if name.Some? then name.value else "",
                         AutoconnectFrom(node.children), []);
    var nodes := FindAll(node.children, "device_config");
    var devices := [];
    for i := 0 to |nodes|
      invariant DevicesInto(devices, nodes[i..]) == DevicesInto([], nodes)
    {
      assert nodes[i..][1..] == nodes[i + 1..];
      var device := DeviceConfigFromNode(nodes[i]);
      if device.None? {
        return None;
      }
      var more := AddDevice(devices, device.value);
      if more.None? {
        return None;
      }
      devices := more.value;
    }
    r := Some(mrc.(devices := devices));
  }

  // read_setup, from the element tree on.
  method ReadSetup(root: Node) returns (r: Option<SetupConfig>)
    ensures r == SetupFrom(root)
  {
    hide Find, FindAll, MrcFrom, AddMrc;
    var node := Find(root.children, "setup");
    if root.tag != Named("mesycontrol") || node.None? {
      return None;
    }
    var nodes := FindAll(node.value.children, "mrc_config");
    var mrcs := [];
    for i := 0 to |nodes|
      invariant MrcsInto(mrcs, nodes[i..]) == MrcsInto([], nodes)
    {
      assert nodes[i..][1..] == nodes[i + 1..];
      var mrc := MrcConfigFromNode(nodes[i]);
      if mrc.None? {
        return None;
      }
      var more := AddMrc(mrcs, mrc.value);
      if more.None? {
        return None;
      }
      mrcs := more.value;
    }
    r := Some(SetupConfig(AutoconnectFrom(node.value.children), mrcs));
  }

  ghost function DevicesReturned(devices: seq<DeviceConfig>, file: bool): (r: seq<DeviceConfig>)
    ensures |r| == |devices|
  {
    seq(|devices|, i requires 0 <= i < |devices| => DeviceReturned(devices[i], file))
  }

  // A URL without text becomes the text "None".
  function UrlReturned(url: string, file: bool): string {
    if file && url == "" then "None" else LinesRead(url, file)
  }

  // An MRC's flag is read as true whatever it was.
  ghost function MrcReturned(mrc: MrcConfig, file: bool): MrcConfig {
    MrcConfig(UrlReturned(mrc.url, file), LinesRead(mrc.name, file), true, DevicesReturned(mrc.devices, file))
  }

  ghost function MrcsReturned(mrcs: seq<MrcConfig>, file: bool): (r: seq<MrcConfig>)
    ensures |r| == |mrcs| && forall i | 0 <= i < |mrcs| :: r[i] == MrcReturned(mrcs[i], file)
  {
    seq(|mrcs|, i requires 0 <= i < |mrcs| => MrcReturned(mrcs[i], file))
  }

  // The MRCs are added one after the other; None is the exception for a URL
  // that is there already.
  function AddAll(mrcs: seq<MrcConfig>, more: seq<MrcConfig>): Option<seq<MrcConfig>>
    decreases more
  {
    if more == [] then Some(mrcs)
    else if AddMrc(mrcs, more[0]).None? then None
    else AddAll(AddMrc(mrcs, more[0]).value, more[1..])
  }

  ghost function SetupReturned(setup: SetupConfig, file: bool): Option<SetupConfig> {
    match AddAll([], MrcsReturned(setup.mrcs, file))
    case None => None
    case Some(mrcs) => Some(SetupConfig(true, mrcs))
  }

  lemma InsertedLast(devices: seq<DeviceConfig>, d: DeviceConfig)
    requires forall e <- devices :: Before(e, d)
    ensures Inserted(devices, d) == devices + [d]
  {
    if devices == [] {
    } else {
      assert devices[0] in devices;
      InsertedLast(devices[1..], d);
    }
  }

  lemma InsertedMrcLast(mrcs: seq<MrcConfig>, m: MrcConfig)
    requires forall n <- mrcs :: Less(n.url, m.url)
    ensures InsertedMrc(mrcs, m) == mrcs + [m]
  {
    if mrcs == [] {
    } else {
      assert mrcs[0] in mrcs;
      LessTotal(mrcs[0].url, m.url);
      InsertedMrcLast(mrcs[1..], m);
    }
  }

  lemma AddDeviceLast(devices: seq<DeviceConfig>, i: nat, file: bool)
    requires i < |devices| && devices[i].bus.Some? && devices[i].address.Some?
    requires forall j | 0 <= j < i :: Before(devices[j], devices[i])
    ensures AddDevice(DevicesReturned(devices[..i], file), DeviceReturned(devices[i], file))
         == Some(DevicesReturned(devices[..i + 1], file))
  {
    hide ExtensionsReturned;
    var front := DevicesReturned(devices[..i], file);
    InsertedLast(front, DeviceReturned(devices[i], file));
    assert DevicesReturned(devices[..i + 1], file) == front + [DeviceReturned(devices[i], file)];
  }

  lemma DevicesRead(mrc: MrcConfig, names: ParamNames, i: nat, file: bool)
    requires ValidMrc(mrc) && MrcEncodable(mrc) && i <= |mrc.devices|
    ensures |AllAsRead(DeviceNodes(mrc.devices, names), file)| == |mrc.devices|
    ensures DevicesInto(DevicesReturned(mrc.devices[..i], file), AllAsRead(DeviceNodes(mrc.devices, names), file)[i..])
         == Some(DevicesReturned(mrc.devices, file))
    decreases |mrc.devices| - i
  {
    hide DeviceFrom, DeviceNode, DeviceReturned, AddDevice, Valid, AllEncodable, RereadAll;
    var devices, raw := mrc.devices, DeviceNodes(mrc.devices, names);
    DeviceNodeTags(mrc, names);
    if file {
      RereadEach(raw);
    }
    var nodes := AllAsRead(raw, file);
    if i == |devices| {
      assert devices[..i] == devices && nodes[i..] == [];
    } else {
      DevicesRead(mrc, names, i + 1, file);
      assert nodes[i..][1..] == nodes[i + 1..];
      assert devices[i] in devices;
      assert nodes[i] == AsRead(raw[i], file);
      DeviceRoundTrip(devices[i], NamesFor(names, devices[i].idc), file);
      AddDeviceLast(devices, i, file);
    }
  }

  lemma DeviceNodeTags(mrc: MrcConfig, names: ParamNames)
    requires MrcEncodable(mrc)
    ensures forall n <- DeviceNodes(mrc.devices, names) :: n.tag == Named("device_config")
  {
  }

  ghost function MrcAttrs(mrc: MrcConfig): set<(string, string)> {
    {("url", mrc.url), ("name", mrc.name), ("autoconnect", Flag(mrc.autoconnect))}
  }

  lemma FindMrcAttr(mrc: MrcConfig, t: string, text: string)
    requires (t, text) in MrcAttrs(mrc)
    ensures Find(MrcAttrNodes(mrc), t) == Some(Node(Named(t), map[], Some(text), []))
  {
    hide Find, AttrNode;
    var a, b, c := AttrNode("url", Some(mrc.url)), AttrNode("name", Some(mrc.name)),
      AttrNode("autoconnect", Some(Flag(mrc.autoconnect)));
    FindAttrNode("url", Some(mrc.url), t);
    FindAttrNode("name", Some(mrc.name), t);
    FindAttrNode("autoconnect", Some(Flag(mrc.autoconnect)), t);
    FindJoins(a, b + c, t);
    FindJoins(b, c, t);
  }

  lemma MrcAttrTags(mrc: MrcConfig)
    ensures forall i | 0 <= i < |MrcAttrNodes(mrc)| ::
              MrcAttrNodes(mrc)[i].tag in {Named("url"), Named("name"), Named("autoconnect")}
  {
  }

  // What the attributes of an MRC are read as.
  lemma MrcAttrsRead(mrc: MrcConfig, names: ParamNames, file: bool)
    requires MrcEncodable(mrc)
    ensures var children := AsRead(MrcNode(mrc, names), file).children;
            && UrlFrom(children) == UrlReturned(mrc.url, file)
            && TextAttr(children, "name") == (if file then TextRead(Some(mrc.name)) else Some(mrc.name))
            && AutoconnectFrom(children)
  {
    hide Find, DeviceNodes, MrcAttrNodes, AllEncodable, RereadAll, Lines, Attr;
    var attrs, devices := MrcAttrNodes(mrc), DeviceNodes(mrc.devices, names);
    forall t, text | (t, text) in MrcAttrs(mrc)
      ensures Find(AsRead(MrcNode(mrc, names), file).children, t)
           == Some(AsRead(Node(Named(t), map[], Some(text), []), file))
    {
      FindMrcAttr(mrc, t, text);
      FindJoins(attrs, devices, t);
      FindRead(attrs + devices, t, file);
    }
    assert ("url", mrc.url) in MrcAttrs(mrc);
    assert ("name", mrc.name) in MrcAttrs(mrc);
    assert ("autoconnect", Flag(mrc.autoconnect)) in MrcAttrs(mrc);
    LinesExactly(Flag(mrc.autoconnect));
  }

  lemma MrcRoundTrip(mrc: MrcConfig, names: ParamNames, file: bool)
    requires ValidMrc(mrc) && MrcEncodable(mrc)
    ensures MrcFrom(AsRead(MrcNode(mrc, names), file)) == Some(MrcReturned(mrc, file))
  {
    hide FindAll, DeviceNodes, MrcAttrNodes, AllEncodable, ValidMrc, DevicesInto, DevicesReturned, RereadAll, Lines;
    hide Attr;
    hide UrlFrom, TextAttr, AutoconnectFrom, UrlReturned, MrcNode;
    MrcAttrsRead(mrc, names, file);
    LinesExactly(mrc.name);
    MrcDevicesRead(mrc, names, file);
  }

  lemma MrcDevicesRead(mrc: MrcConfig, names: ParamNames, file: bool)
    requires ValidMrc(mrc) && MrcEncodable(mrc)
    ensures DevicesInto([], FindAll(AsRead(MrcNode(mrc, names), file).children, "device_config"))
         == Some(DevicesReturned(mrc.devices, file))
  {
    hide Find, FindAll, DeviceNodes, MrcAttrNodes, AllEncodable, ValidMrc, DevicesInto, DevicesReturned, RereadAll;
    hide Attr;
    var attrs, devices := MrcAttrNodes(mrc), DeviceNodes(mrc.devices, names);
    MrcAttrTags(mrc);
    DeviceNodeTags(mrc, names);
    FindAllAfter(attrs, devices, "device_config", file);
    DevicesRead(mrc, names, 0, file);
    NoDevicesReturned(mrc, names, file);
  }

  lemma NoDevicesReturned(mrc: MrcConfig, names: ParamNames, file: bool)
    ensures DevicesReturned(mrc.devices[..0], file) == []
    ensures forall nodes: seq<Node> :: nodes[0..] == nodes
  {
  }

  lemma MrcNodeTags(setup: SetupConfig, names: ParamNames)
    requires forall m <- setup.mrcs :: MrcEncodable(m)
    ensures forall n <- MrcNodes(setup.mrcs, names) :: n.tag == Named("mrc_config")
  {
  }

  lemma {:induction false} MrcsRead(setup: SetupConfig, names: ParamNames, read: seq<MrcConfig>, i: nat, file: bool)
    requires ValidSetup(setup) && (forall m <- setup.mrcs :: MrcEncodable(m)) && i <= |setup.mrcs|
    ensures |AllAsRead(MrcNodes(setup.mrcs, names), file)| == |setup.mrcs|
    ensures MrcsInto(read, AllAsRead(MrcNodes(setup.mrcs, names), file)[i..])
         == AddAll(read, MrcsReturned(setup.mrcs, file)[i..])
    decreases |setup.mrcs| - i
  {
    hide MrcFrom, MrcNode, MrcReturned, AddMrc, ValidMrc, MrcEncodable, RereadAll, Less, AsRead;
    var mrcs, raw := setup.mrcs, MrcNodes(setup.mrcs, names);
    MrcNodesRead(setup, names, file);
    var nodes, back := AllAsRead(raw, file), MrcsReturned(mrcs, file);
    if i == |mrcs| {
    } else {
      assert nodes[i..][0] == nodes[i] && nodes[i..][1..] == nodes[i + 1..];
      assert back[i..][0] == back[i] && back[i..][1..] == back[i + 1..];
      assert mrcs[i] in mrcs;
      MrcRoundTrip(mrcs[i], names, file);
      if AddMrc(read, back[i]).Some? {
        MrcsRead(setup, names, AddMrc(read, back[i]).value, i + 1, file);
      }
    }
  }

  lemma MrcNodesRead(setup: SetupConfig, names: ParamNames, file: bool)
    requires forall m <- setup.mrcs :: MrcEncodable(m)
    ensures |AllAsRead(MrcNodes(setup.mrcs, names), file)| == |setup.mrcs|
    ensures forall i | 0 <= i < |setup.mrcs| ::
              AllAsRead(MrcNodes(setup.mrcs, names), file)[i] == AsRead(MrcNode(setup.mrcs[i], names), file)
  {
    hide MrcNode, MrcEncodable, RereadAll, Reread;
    MrcNodeTags(setup, names);
    if file {
      RereadEach(MrcNodes(setup.mrcs, names));
    }
  }

  // read_setup gives back what write_setup wrote, but for the flags, for the
  // tuples, and for what a file changes.
  lemma SetupRoundTrip(setup: SetupConfig, names: ParamNames, file: bool)
    requires ValidSetup(setup) && forall m <- setup.mrcs :: MrcEncodable(m)
    ensures SetupFrom(AsRead(RootNode(setup, names), file)) == SetupReturned(setup, file)
  {
    hide FindAll, MrcEncodable, ValidSetup, MrcNodes, MrcsInto, MrcsReturned, Lines, Attr, AddAll;
    var node := SetupNode(setup, names);
    var flag, mrcs := AttrNode("autoconnect", Some(Flag(setup.autoconnect))), MrcNodes(setup.mrcs, names);
    RereadOne(node);
    assert Find(AsRead(RootNode(setup, names), file).children, "setup") == Some(AsRead(node, file));
    FindAttrNode("autoconnect", Some(Flag(setup.autoconnect)), "autoconnect");
    FindJoins(flag, mrcs, "autoconnect");
    FindRead(flag + mrcs, "autoconnect", file);
    LinesExactly(Flag(setup.autoconnect));
    MrcNodeTags(setup, names);
    FindAllAfter(flag, mrcs, "mrc_config", file);
    MrcsRead(setup, names, [], 0, file);
    FromTheFirst(AllAsRead(mrcs, file), MrcsReturned(setup.mrcs, file));
  }

  lemma FromTheFirst(nodes: seq<Node>, mrcs: seq<MrcConfig>)
    ensures nodes[0..] == nodes && mrcs[0..] == mrcs
  {
  }

  // ----- When a setup is the same -----

  ghost predicate StableMrc(mrc: MrcConfig, file: bool) {
    && mrc.autoconnect
    && (file ==> mrc.url != "" && '\r' !in mrc.url && '\r' !in mrc.name)
    && forall i | 0 <= i < |mrc.devices| :: StableDevice(mrc.devices[i], file)
  }

  lemma UrlIsSame(url: string, file: bool)
    ensures UrlReturned(url, file) == url <==> (file ==> url != "" && '\r' !in url)
    ensures UrlReturned(UrlReturned(url, file), file) == UrlReturned(url, file)
  {
    hide Lines;
    LinesExactly(url);
    LinesExactly(UrlReturned(url, file));
    LinesExactly("None");
  }

  lemma MrcIsSame(mrc: MrcConfig, file: bool)
    requires MrcEncodable(mrc) && ValidMrc(mrc)
    ensures MrcReturned(mrc, file) == mrc <==> StableMrc(mrc, file)
  {
    hide DeviceReturned, StableDevice, AllEncodable, NoRepeatedNames, UrlReturned, Lines, Before;
    var back := DevicesReturned(mrc.devices, file);
    forall i | 0 <= i < |mrc.devices| ensures back[i] == mrc.devices[i] <==> StableDevice(mrc.devices[i], file) {
      assert mrc.devices[i] in mrc.devices;
      DeviceIsSame(mrc.devices[i], file);
    }
    UrlIsSame(mrc.url, file);
    LinesExactly(mrc.name);
    if forall i | 0 <= i < |mrc.devices| :: StableDevice(mrc.devices[i], file) {
      assert back == mrc.devices;
    }
  }

  ghost predicate Ordered(mrcs: seq<MrcConfig>) {
    forall i, j | 0 <= i < j < |mrcs| :: Less(mrcs[i].url, mrcs[j].url)
  }

  lemma {:induction false} OrderedStay(mrcs: seq<MrcConfig>, more: seq<MrcConfig>)
    requires Ordered(mrcs + more)
    ensures AddAll(mrcs, more) == Some(mrcs + more)
    decreases more
  {
    hide Less;
    if more == [] {
      assert mrcs + more == mrcs;
    } else {
      var m, n := more[0], |mrcs|;
      assert (mrcs + more)[n] == m;
      forall l | l in mrcs ensures Less(l.url, m.url) && l.url != m.url {
        var i :| 0 <= i < n && mrcs[i] == l;
        assert (mrcs + more)[i] == l;
        LessTotal(l.url, m.url);
      }
      InsertedMrcLast(mrcs, m);
      assert (mrcs + [m]) + more[1..] == mrcs + more;
      OrderedStay(mrcs + [m], more[1..]);
    }
  }

  lemma {:induction false} InsertedMrcElements(mrcs: seq<MrcConfig>, m: MrcConfig)
    ensures forall l <- InsertedMrc(mrcs, m) :: l in mrcs || l == m
  {
    hide Less;
    if mrcs == [] || Less(m.url, mrcs[0].url) {
    } else {
      InsertedMrcElements(mrcs[1..], m);
    }
  }

  lemma {:induction false} AddedElements(mrcs: seq<MrcConfig>, more: seq<MrcConfig>)
    ensures AddAll(mrcs, more).Some? ==> forall l <- AddAll(mrcs, more).value :: l in mrcs || l in more
    decreases more
  {
    hide InsertedMrc;
    if more == [] {
    } else {
      InsertedMrcElements(mrcs, more[0]);
      if AddMrc(mrcs, more[0]).Some? {
        AddedElements(AddMrc(mrcs, more[0]).value, more[1..]);
      }
    }
  }

  // If the MRCs come back as they were, in whatever order they were added, each
  // of their URLs is read as itself, so that the order is the same, too.
  lemma SameUrls(mrcs: seq<MrcConfig>, file: bool)
    requires AddAll([], MrcsReturned(mrcs, file)) == Some(mrcs)
    ensures forall i | 0 <= i < |mrcs| :: MrcsReturned(mrcs, file)[i].url == mrcs[i].url
  {
    hide UrlReturned, DevicesReturned, AddAll;
    var back := MrcsReturned(mrcs, file);
    AddedElements([], back);
    forall i | 0 <= i < |mrcs| ensures back[i].url == mrcs[i].url {
      assert mrcs[i] in mrcs;
      var j :| 0 <= j < |back| && back[j] == mrcs[i];
      UrlIsSame(mrcs[j].url, file);
    }
  }

  lemma MrcsAreSame(mrcs: seq<MrcConfig>, file: bool)
    requires Ordered(mrcs)
    ensures AddAll([], MrcsReturned(mrcs, file)) == Some(mrcs) <==>
            forall i | 0 <= i < |mrcs| :: MrcReturned(mrcs[i], file) == mrcs[i]
  {
    hide Less, AddAll, MrcReturned;
    var back := MrcsReturned(mrcs, file);
    assert [] + back == back;
    if AddAll([], back) == Some(mrcs) {
      SameUrls(mrcs, file);
      OrderedStay([], back);
    } else if forall i | 0 <= i < |mrcs| :: MrcReturned(mrcs[i], file) == mrcs[i] {
      assert back == mrcs;
      OrderedStay([], mrcs);
    }
  }

  lemma SetupIsSame(setup: SetupConfig, file: bool)
    requires ValidSetup(setup) && forall m <- setup.mrcs :: MrcEncodable(m)
    ensures SetupReturned(setup, file) == Some(setup) <==>
            setup.autoconnect && forall i | 0 <= i < |setup.mrcs| :: StableMrc(setup.mrcs[i], file)
  {
    hide MrcReturned, StableMrc, MrcEncodable, ValidMrc, AddAll, MrcsReturned, Less;
    MrcsAreSame(setup.mrcs, file);
    forall i | 0 <= i < |setup.mrcs|
      ensures MrcReturned(setup.mrcs[i], file) == setup.mrcs[i] <==> StableMrc(setup.mrcs[i], file)
    {
      assert setup.mrcs[i] in setup.mrcs;
      MrcIsSame(setup.mrcs[i], file);
    }
  }

  // ----- When it can be written -----

  ghost predicate LegalMrc(mrc: MrcConfig, names: ParamNames) {
    && LegalText(mrc.url) && LegalText(mrc.name)
    && forall i | 0 <= i < |mrc.devices| :: LegalDevice(mrc.devices[i], NamesFor(names, mrc.devices[i].idc))
  }

  ghost predicate LegalSetup(setup: SetupConfig, names: ParamNames) {
    forall i | 0 <= i < |setup.mrcs| :: LegalMrc(setup.mrcs[i], names)
  }

  lemma FlagWritable(b: bool)
    ensures AllWritable(AttrNode("autoconnect", Some(Flag(b))))
  {
    AttrWritable("autoconnect", Some(Flag(b)));
  }

  lemma MrcWritable(mrc: MrcConfig, names: ParamNames)
    requires MrcEncodable(mrc) && ValidMrc(mrc)
    ensures Writable(MrcNode(mrc, names)) <==> LegalMrc(mrc, names)
  {
    hide DeviceNode, LegalDevice, LegalText, AllEncodable, Valid, Before, AttrNode, NamesFor;
    var a, b, c := AttrNode("url", Some(mrc.url)), AttrNode("name", Some(mrc.name)),
      AttrNode("autoconnect", Some(Flag(mrc.autoconnect)));
    var nodes := DeviceNodes(mrc.devices, names);
    AttrWritable("url", Some(mrc.url));
    AttrWritable("name", Some(mrc.name));
    FlagWritable(mrc.autoconnect);
    AllWritableJoins(a + (b + c), nodes);
    AllWritableJoins(a, b + c);
    AllWritableJoins(b, c);
    forall i | 0 <= i < |mrc.devices|
      ensures nodes[i] in nodes
      ensures Writable(nodes[i]) <==> LegalDevice(mrc.devices[i], NamesFor(names, mrc.devices[i].idc))
    {
      assert mrc.devices[i] in mrc.devices;
      DeviceWritable(mrc.devices[i], NamesFor(names, mrc.devices[i].idc));
    }
  }

  lemma SetupWritable(setup: SetupConfig, names: ParamNames)
    requires ValidSetup(setup) && forall m <- setup.mrcs :: MrcEncodable(m)
    ensures Writable(RootNode(setup, names)) <==> LegalSetup(setup, names)
  {
    hide MrcNode, LegalMrc, LegalText, MrcEncodable, ValidMrc, Less, AttrNode;
    var flag, nodes := AttrNode("autoconnect", Some(Flag(setup.autoconnect))), MrcNodes(setup.mrcs, names);
    FlagWritable(setup.autoconnect);
    AllWritableJoins(flag, nodes);
    forall i | 0 <= i < |setup.mrcs|
      ensures nodes[i] in nodes && (Writable(nodes[i]) <==> LegalMrc(setup.mrcs[i], names))
    {
      assert setup.mrcs[i] in setup.mrcs;
      MrcWritable(setup.mrcs[i], names);
    }
    RootWritable(setup, names);
  }

  lemma RootWritable(setup: SetupConfig, names: ParamNames)
    requires forall m <- setup.mrcs :: MrcEncodable(m)
    ensures Writable(RootNode(setup, names)) <==> Writable(SetupNode(setup, names))
  {
    hide SetupNode, MrcEncodable;
    var root := RootNode(setup, names);
    assert root.children == [SetupNode(setup, names)];
  }

  // Exactly when a setup comes back unchanged.
  lemma SetupComesBack(setup: SetupConfig, names: ParamNames, file: bool)
    requires ValidSetup(setup) && forall m <- setup.mrcs :: MrcEncodable(m)
    ensures (match Passed(RootNode(setup, names), file) case None => None case Some(root) => SetupFrom(root))
              == Some(setup) <==>
            && setup.autoconnect && (forall i | 0 <= i < |setup.mrcs| :: StableMrc(setup.mrcs[i], file))
            && (file ==> LegalSetup(setup, names))
  {
    hide RootNode, SetupFrom, SetupReturned, StableMrc, LegalSetup, Writable, AsRead, MrcEncodable, ValidSetup;
    SetupRoundTrip(setup, names, file);
    SetupIsSame(setup, file);
    SetupWritable(setup, names);
  }
}

/** Extension values as XML and back (src/client/mesycontrol/config_xml.py). */
module ConfigXml {
  import opened Messages
  import opened PythonText
  import opened XmlTree

  // The values an extension may hold. Nothing is Python's None, which can be
  // read but not written.
  datatype Value =
    | Nothing
    | Text(text: string)
    | Number(number: int)
    | List(items: seq<Value>)
    | Tuple(items: seq<Value>)
    | Dict(entries: map<string, Value>)

  // value2xml knows the type of every part.
  predicate Encodable(v: Value) {
    match v
    case Nothing => false
    case Text(_) => true
    case Number(_) => true
    case List(items) => forall x <- items :: Encodable(x)
    case Tuple(items) => forall x <- items :: Encodable(x)
    case Dict(entries) => forall k <- entries :: Encodable(entries[k])
  }

  function ValueTag(kind: string, text: Option<string>, children: seq<Node>): Node {
    Node(Named("value"), map["type" := kind], text, children)
  }

  function KeyTag(key: string, value: Node): Node {
    Node(Named("key"), map["name" := key], None, [value])
  }

  // The element a value becomes.
  ghost function ToNode(v: Value): Node
    requires Encodable(v)
  {
    match v
    case Text(s) => ValueTag("str", Some(s), [])
    case Number(n) => ValueTag("int", Some(Str(n)), [])
    case List(items) => ValueTag("list", None, seq(|items|, i requires 0 <= i < |items| => ToNode(items[i])))
    case Tuple(items) => ValueTag("list", None, seq(|items|, i requires 0 <= i < |items| => ToNode(items[i])))
    case Dict(entries) =>
      var keys := Sorted(entries.Keys);
      ValueTag("dict", None, seq(|keys|, i requires 0 <= i < |keys| =>
        assert keys[i] in entries;
        KeyTag(keys[i], ToNode(entries[keys[i]]))))
  }

  // value2xml; false stands for the TypeError.
  method Value2Xml(tb: CommentTreeBuilder, value: Value) returns (ok: bool)
    requires tb.open != []
    modifies tb
    ensures ok <==> Encodable(value)
    ensures ok ==> tb.open == AddChild(old(tb.open), ToNode(value)) && tb.root == old(tb.root)
    decreases value
  {
    match value
    case Nothing =>
      ok := false;
    case Text(s) =>
      tb.AddTag("value", Some(s), map["type" := "str"]);
      ok := true;
    case Number(n) =>
      tb.AddTag("value", Some(Str(n)), map["type" := "int"]);
      ok := true;
    case List(items) =>
      ok := List2Xml(tb, items);
    case Tuple(items) =>
      ok := List2Xml(tb, items);
    case Dict(_) =>
      ok := Dict2Xml(tb, value);
  }

  method List2Xml(tb: CommentTreeBuilder, items: seq<Value>) returns (ok: bool)
    requires tb.open != []
    modifies tb
    ensures ok <==> forall x <- items :: Encodable(x)
    ensures ok ==> tb.open == AddChild(old(tb.open), ToNode(List(items))) && tb.root == old(tb.root)
    decreases items
  {
    hide AddChild, AddChildren;
    ghost var below := tb.open;
    tb.Start(Named("value"), map["type" := "list"]);
    ghost var stack, nodes := tb.open, [];
    AddChildrenNone(stack);
    for i := 0 to |items|
      invariant forall j | 0 <= j < i :: Encodable(items[j])
      invariant |nodes| == i && forall j | 0 <= j < i :: nodes[j] == ToNode(items[j])
      invariant tb.open == AddChildren(stack, nodes) && tb.root == old(tb.root)
    {
      ok := Value2Xml(tb, items[i]);
      if !ok {
        return;
      }
      AddChildrenOne(stack, nodes, ToNode(items[i]));
      nodes := nodes + [ToNode(items[i])];
    }
    AddChildrenInside(below, ValueTag("list", None, []), nodes);
    tb.End(Named("value"));
    assert nodes == ToNode(List(items)).children;
    ok := true;
  }

  method Dict2Xml(tb: CommentTreeBuilder, value: Value) returns (ok: bool)
    requires tb.open != [] && value.Dict?
    modifies tb
    ensures ok <==> Encodable(value)
    ensures ok ==> tb.open == AddChild(old(tb.open), ToNode(value)) && tb.root == old(tb.root)
    decreases value, 1
  {
    hide AddChild, AddChildren, KeysDone, Increasing, ToNode, Encodable, Less, Sorted;
    var entries := value.entries;
    ghost var below := tb.open;
    tb.Start(Named("value"), map["type" := "dict"]);
    ghost var stack, nodes, done := tb.open, [], [];
    AddChildrenNone(stack);
    NoKeysDone(entries);
    var keys := entries.Keys;
    while keys != {}
      invariant keys <= entries.Keys && done + Sorted(keys) == Sorted(entries.Keys)
      invariant KeysDone(entries, done, nodes)
      invariant tb.open == AddChildren(stack, nodes) && tb.root == old(tb.root)
      decreases |keys|
    {
      LeastExists(keys);
      var k :| IsLeast(k, keys);
      SortedStep(done, keys, k);
      ok := Key2Xml(tb, k, value);
      if !ok {
        OneKeyFails(value, k);
        return;
      }
      AddChildrenOne(stack, nodes, KeyTag(k, ToNode(entries[k])));
      KeysDoneMore(entries, done, nodes, k);
      nodes := nodes + [KeyTag(k, ToNode(entries[k]))];
      done := done + [k];
      keys := keys - {k};
    }
    NoneSorted(done);
    AllKeysDone(value, nodes);
    AddChildrenInside(below, ValueTag("dict", None, []), nodes);
    tb.End(Named("value"));
    ok := true;
  }

  // One pass of the loop in dict2xml.
  method Key2Xml(tb: CommentTreeBuilder, key: string, value: Value) returns (ok: bool)
    requires tb.open != [] && value.Dict? && key in value.entries
    modifies tb
    ensures ok <==> Encodable(value.entries[key])
    ensures ok ==> tb.open == AddChild(old(tb.open), KeyTag(key, ToNode(value.entries[key]))) && tb.root == old(tb.root)
    decreases value, 0
  {
    hide AddChild;
    ghost var below := tb.open;
    tb.Start(Named("key"), map["name" := key]);
    ok := Value2Xml(tb, value.entries[key]);
    if ok {
      AddChildrenInside(below, Node(Named("key"), map["name" := key], None, []), [ToNode(value.entries[key])]);
      tb.End(Named("key"));
    }
  }

  ghost predicate KeysDone(entries: map<string, Value>, done: seq<string>, nodes: seq<Node>) {
    && |nodes| == |done|
    && forall j | 0 <= j < |done| ::
         done[j] in entries && Encodable(entries[done[j]]) && nodes[j] == KeyTag(done[j], ToNode(entries[done[j]]))
  }

  lemma OneKeyFails(value: Value, k: string)
    requires value.Dict? && k in value.entries && !Encodable(value.entries[k])
    ensures !Encodable(value)
  {
  }

  lemma SortedStep(done: seq<string>, keys: set<string>, k: string)
    requires IsLeast(k, keys)
    ensures (done + [k]) + Sorted(keys - {k}) == done + Sorted(keys)
  {
    hide Sorted;
    LeastIsFirst(keys, k);
  }

  lemma NoneSorted(done: seq<string>)
    ensures done + Sorted({}) == done
  {
  }

  lemma NoKeysDone(entries: map<string, Value>)
    ensures KeysDone(entries, [], [])
  {
  }

  lemma KeysDoneMore(entries: map<string, Value>, done: seq<string>, nodes: seq<Node>, k: string)
    requires KeysDone(entries, done, nodes) && k in entries && Encodable(entries[k])
    ensures KeysDone(entries, done + [k], nodes + [KeyTag(k, ToNode(entries[k]))])
  {
  }

  lemma AllKeysDone(value: Value, nodes: seq<Node>)
    requires value.Dict? && KeysDone(value.entries, Sorted(value.entries.Keys), nodes)
    ensures Encodable(value) && ToNode(value) == ValueTag("dict", None, nodes)
  {
    forall k | k in value.entries ensures Encodable(value.entries[k]) {
      var j :| 0 <= j < |Sorted(value.entries.Keys)| && Sorted(value.entries.Keys)[j] == k;
    }
    assert ToNode(value).children == nodes;
  }

  // What an element says; None stands for the exceptions of xml2value.
  ghost function FromNode(node: Node): Option<Value> {
    if "type" !in node.attrs then
      None
    else
      var t := node.attrs["type"];
      if t == "str" then
        Some(if node.text.Some? then Text(node.text.value) else Nothing)
      else if t == "int" then
        if node.text.Some? && Int(node.text.value).Some? then Some(Number(Int(node.text.value).value)) else None
      else if t == "list" then
        var items := ListFrom(node.children);
        if items.Some? then Some(List(items.value)) else None
      else if t == "dict" then
        var entries := DictFrom(node.children);
        if entries.Some? then Some(Dict(entries.value)) else None
      else
        None
  }

  ghost function ListFrom(nodes: seq<Node>): Option<seq<Value>> {
    if nodes == [] then
      Some([])
    else
      var front, last := ListFrom(nodes[..|nodes| - 1]), nodes[|nodes| - 1];
      if last.tag != Named("value") || front.None? then front
      else
        var v := FromNode(last);
        if v.Some? then Some(front.value + [v.value]) else None
  }

  // The key's name and value.
  ghost function EntryFrom(node: Node): Option<(string, Value)> {
    var value := Find(node.children, "value");
    if "name" !in node.attrs || value.None? then None
    else
      FindInside(node.children, "value");
      var v := FromNode(value.value);
      if v.Some? then Some((node.attrs["name"], v.value)) else None
  }

  ghost function DictFrom(nodes: seq<Node>): Option<map<string, Value>> {
    if nodes == [] then
      Some(map[])
    else
      var front, last := DictFrom(nodes[..|nodes| - 1]), nodes[|nodes| - 1];
      if last.tag != Named("key") || front.None? then front
      else
        var e := EntryFrom(last);
        if e.Some? then Some(front.value[e.value.0 := e.value.1]) else None
  }

  method Xml2Value(node: Node) returns (r: Option<Value>)
    ensures r == FromNode(node)
    decreases node
  {
    if "type" !in node.attrs {
      return None;
    }
    var t := node.attrs["type"];
    if t == "str" {
      r := Some(if node.text.Some? then Text(node.text.value) else Nothing);
    } else if t == "int" {
      var n := if node.text.Some? then Int(node.text.value) else None;
      r := if n.Some? then Some(Number(n.value)) else None;
    } else if t == "list" {
      r := Xml2List(node);
    } else if t == "dict" {
      r := Xml2Dict(node);
    } else {
      r := None;
    }
  }

  method Xml2List(node: Node) returns (r: Option<Value>)
    ensures r == if ListFrom(node.children).Some? then Some(List(ListFrom(node.children).value)) else None
    decreases node, 0
  {
    var items := [];
    for i := 0 to |node.children|
      invariant ListFrom(node.children[..i]) == Some(items)
    {
      PrefixOfChildren(node.children, i);
      if node.children[i].tag == Named("value") {
        var v := Xml2Value(node.children[i]);
        if v.None? {
          ListStaysNone(node.children, i + 1);
          return None;
        }
        items := items + [v.value];
      }
    }
    assert node.children[..|node.children|] == node.children;
    r := Some(List(items));
  }

  method Xml2Dict(node: Node) returns (r: Option<Value>)
    ensures r == if DictFrom(node.children).Some? then Some(Dict(DictFrom(node.children).value)) else None
    decreases node, 0
  {
    var entries := map[];
    for i := 0 to |node.children|
      invariant DictFrom(node.children[..i]) == Some(entries)
    {
      PrefixOfChildren(node.children, i);
      var child := node.children[i];
      if child.tag == Named("key") {
        var value := Find(child.children, "value");
        var v := None;
        if "name" in child.attrs && value.Some? {
          FindInside(child.children, "value");
          v := Xml2Value(value.value);
        }
        if v.None? {
          DictStaysNone(node.children, i + 1);
          return None;
        }
        entries := entries[child.attrs["name"] := v.value];
      }
    }
    assert node.children[..|node.children|] == node.children;
    r := Some(Dict(entries));
  }

  lemma PrefixOfChildren(nodes: seq<Node>, i: nat)
    requires i < |nodes|
    ensures nodes[..i + 1][..i] == nodes[..i] && nodes[..i + 1][i] == nodes[i]
  {
  }

  lemma ListStaysNone(nodes: seq<Node>, n: nat)
    requires n <= |nodes| && ListFrom(nodes[..n]).None?
    ensures ListFrom(nodes).None?
    decreases |nodes| - n
  {
    hide FromNode;
    if n < |nodes| {
      PrefixOfChildren(nodes, n);
      ListStaysNone(nodes, n + 1);
    } else {
      assert nodes[..n] == nodes;
    }
  }

  lemma DictStaysNone(nodes: seq<Node>, n: nat)
    requires n <= |nodes| && DictFrom(nodes[..n]).None?
    ensures DictFrom(nodes).None?
    decreases |nodes| - n
  {
    if n < |nodes| {
      PrefixOfChildren(nodes, n);
      DictStaysNone(nodes, n + 1);
    } else {
      assert nodes[..n] == nodes;
    }
  }

  lemma FindInside(nodes: seq<Node>, tag: string)
    ensures Find(nodes, tag).Some? ==> Find(nodes, tag).value in nodes
  {
  }

  // ----- What comes back -----

  // An attribute's value, through a file or not.
  function Name(key: string, file: bool): string {
    if file then Attr(key) else key
  }

  // The entries in the order of the keys; of two keys that are read as the same
  // one, the later wins.
  function ByKey(keys: seq<string>, values: map<string, Value>, file: bool): map<string, Value>
    requires forall k <- keys :: k in values
  {
    if keys == [] then map[]
    else
      var last := |keys| - 1;
      ByKey(keys[..last], values, file)[Name(keys[last], file) := values[keys[last]]]
  }

  // A tuple comes back as a list. Through a file an empty string comes back as
  // nothing at all, every line end as a line feed, and white space in keys as
  // spaces.
  ghost function Returned(v: Value, file: bool): Value
    decreases v, 1
  {
    match v
    case Nothing => Nothing
    case Text(s) => if !file then v else if s == "" then Nothing else Text(Lines(s))
    case Number(_) => v
    case List(items) => List(AllReturned(items, file))
    case Tuple(items) => List(AllReturned(items, file))
    case Dict(entries) => Dict(ByKey(Sorted(entries.Keys), ValuesReturned(v, file), file))
  }

  ghost function ValuesReturned(v: Value, file: bool): (r: map<string, Value>)
    requires v.Dict?
    ensures r.Keys == v.entries.Keys
    decreases v, 0
  {
    map k | k in v.entries :: Returned(v.entries[k], file)
  }

  ghost function AllReturned(items: seq<Value>, file: bool): (r: seq<Value>)
    ensures |r| == |items| && forall i | 0 <= i < |items| :: r[i] == Returned(items[i], file)
    decreases items
  {
    seq(|items|, i requires 0 <= i < |items| => Returned(items[i], file))
  }

  // No tuple, and nothing that a file changes.
  predicate Stable(v: Value, file: bool) {
    match v
    case Nothing => true
    case Text(s) => file ==> s != "" && '\r' !in s
    case Number(_) => true
    case List(items) => forall x <- items :: Stable(x, file)
    case Tuple(_) => false
    case Dict(entries) => forall k <- entries :: Stable(entries[k], file) && (file ==> NoWhite(k))
  }

  // No character that XML has no place for.
  predicate LegalValue(v: Value) {
    match v
    case Nothing => true
    case Text(s) => LegalText(s)
    case Number(_) => true
    case List(items) => forall x <- items :: LegalValue(x)
    case Tuple(items) => forall x <- items :: LegalValue(x)
    case Dict(entries) => forall k <- entries :: LegalText(k) && LegalValue(entries[k])
  }

  // ----- Numbers and fixed names -----

  lemma {:induction false} DigitsArePlain(n: nat)
    ensures forall c <- Digits(n) :: '0' <= c <= '9'
  {
    if n < 10 {
    } else {
      DigitsArePlain(n / 10);
    }
  }

  // A file leaves these alone.
  ghost predicate Plain(s: string) {
    s != "" && Lines(s) == s && Attr(s) == s && LegalText(s)
  }

  lemma IsPlain(s: string)
    requires s != "" && NoWhite(s) && LegalText(s)
    ensures Plain(s)
  {
    LinesExactly(s);
    AttrExactly(s);
  }

  lemma StrIsPlain(n: int)
    ensures Plain(Str(n))
  {
    hide Digits, Plain;
    DigitsArePlain(if n < 0 then -n else n);
    IsPlain(Str(n));
  }

  lemma TypesArePlain()
    ensures Plain("str") && Plain("int") && Plain("list") && Plain("dict")
  {
    hide Plain;
    IsPlain("str");
    IsPlain("int");
    IsPlain("list");
    IsPlain("dict");
  }

  lemma ListRead(items: seq<Value>, nodes: seq<Node>, file: bool)
    requires |items| == |nodes|
    requires forall i | 0 <= i < |nodes| ::
               nodes[i].tag == Named("value") && FromNode(nodes[i]) == Some(Returned(items[i], file))
    ensures ListFrom(nodes) == Some(AllReturned(items, file))
  {
    hide FromNode, Returned;
    if nodes == [] {
    } else {
      var last := |nodes| - 1;
      ListRead(items[..last], nodes[..last], file);
      assert AllReturned(items, file) == AllReturned(items[..last], file) + [Returned(items[last], file)];
    }
  }

  lemma DictRead(keys: seq<string>, values: map<string, Value>, nodes: seq<Node>, file: bool)
    requires |keys| == |nodes| && forall k <- keys :: k in values
    requires forall i | 0 <= i < |nodes| ::
               nodes[i].tag == Named("key") && EntryFrom(nodes[i]) == Some((Name(keys[i], file), values[keys[i]]))
    ensures DictFrom(nodes) == Some(ByKey(keys, values, file))
  {
    hide EntryFrom, Name;
    if nodes == [] {
    } else {
      var last := |nodes| - 1;
      DictRead(keys[..last], values, nodes[..last], file);
    }
  }

  lemma ItemsRead(items: seq<Value>, nodes: seq<Node>, file: bool)
    requires |items| == |nodes| && forall i | 0 <= i < |items| :: Encodable(items[i]) && nodes[i] == ToNode(items[i])
    ensures |AllAsRead(nodes, file)| == |items|
    ensures forall i | 0 <= i < |items| :: AllAsRead(nodes, file)[i] == AsRead(nodes[i], file)
    ensures forall i | 0 <= i < |items| :: AllAsRead(nodes, file)[i].tag == Named("value")
  {
    hide Lines, Attr, Reread, RereadAll;
    TagsStay();
    if file {
      RereadEach(nodes);
    }
  }

  lemma TagsStay()
    ensures forall n: Node :: Reread(n).tag == n.tag
  {
  }

  // The element of a value, read back.
  lemma TagRead(kind: string, text: Option<string>, children: seq<Node>, file: bool)
    requires Plain(kind)
    ensures AsRead(ValueTag(kind, text, children), file) ==
            ValueTag(kind, if file then TextRead(text) else text, AllAsRead(children, file))
  {
    hide Lines, Attr, RereadAll;
    var attrs := map["type" := kind];
    assert (map k | k in attrs :: Attr(attrs[k])) == attrs;
  }

  lemma {:induction false} RoundTrip(v: Value, file: bool)
    requires Encodable(v)
    ensures FromNode(AsRead(ToNode(v), file)) == Some(Returned(v, file))
    decreases v
  {
    hide ListFrom, DictFrom, RereadAll, EntryFrom, Less, Sorted, Digits, Int, Str, AllReturned, Lines, Attr, AsRead;
    hide Plain, ByKey;
    TypesArePlain();
    match v
    case Text(s) =>
      TagRead("str", Some(s), [], file);
    case Number(n) =>
      NumberRoundTrip(n, file);
    case List(items) =>
      TagRead("list", None, ToNode(v).children, file);
      ItemsRoundTrip(items, ToNode(v).children, file);
    case Tuple(items) =>
      TagRead("list", None, ToNode(v).children, file);
      ItemsRoundTrip(items, ToNode(v).children, file);
    case Dict(entries) =>
      TagRead("dict", None, ToNode(v).children, file);
      EntriesRoundTrip(v, ToNode(v).children, file);
  }

  lemma NumberRoundTrip(n: int, file: bool)
    ensures FromNode(AsRead(ToNode(Number(n)), file)) == Some(Number(n))
  {
    hide Lines, Attr, Int, Str, AsRead, ListFrom, DictFrom;
    TypesArePlain();
    TagRead("int", Some(Str(n)), [], file);
    StrIsPlain(n);
    IntInvertsStr(n);
  }

  lemma ItemsRoundTrip(items: seq<Value>, nodes: seq<Node>, file: bool)
    requires |items| == |nodes| && forall i | 0 <= i < |items| :: Encodable(items[i]) && nodes[i] == ToNode(items[i])
    ensures ListFrom(AllAsRead(nodes, file)) == Some(AllReturned(items, file))
    decreases items
  {
    hide ToNode, Returned, FromNode, ListFrom, AsRead;
    ItemsRead(items, nodes, file);
    forall i | 0 <= i < |items|
      ensures FromNode(AllAsRead(nodes, file)[i]) == Some(Returned(items[i], file))
    {
      RoundTrip(items[i], file);
    }
    ListRead(items, AllAsRead(nodes, file), file);
  }

  lemma EntriesRoundTrip(v: Value, nodes: seq<Node>, file: bool)
    requires v.Dict? && Encodable(v) && nodes == ToNode(v).children
    ensures Returned(v, file).Dict? && DictFrom(AllAsRead(nodes, file)) == Some(Returned(v, file).entries)
    decreases v, 0
  {
    hide Returned, FromNode, DictFrom, Less, Increasing, EntryFrom, RereadAll, AsRead, Sorted, Name, ByKey;
    var entries, keys := v.entries, Sorted(v.entries.Keys);
    var values := ValuesReturned(v, file);
    KeysRead(v, nodes, file);
    var read := AllAsRead(nodes, file);
    forall i | 0 <= i < |keys|
      ensures read[i].tag == Named("key") && EntryFrom(read[i]) == Some((Name(keys[i], file), values[keys[i]]))
    {
      RoundTrip(entries[keys[i]], file);
      KeyRead(keys[i], entries[keys[i]], file);
    }
    DictRead(keys, values, read, file);
    ReturnedEntries(v, file);
  }

  lemma KeysRead(v: Value, nodes: seq<Node>, file: bool)
    requires v.Dict? && Encodable(v) && nodes == ToNode(v).children
    ensures |AllAsRead(nodes, file)| == |Sorted(v.entries.Keys)|
    ensures forall i | 0 <= i < |Sorted(v.entries.Keys)| ::
              var k := Sorted(v.entries.Keys)[i];
              k in v.entries && AllAsRead(nodes, file)[i] == AsRead(KeyTag(k, ToNode(v.entries[k])), file)
  {
    hide RereadAll, Less, Increasing, Sorted, Encodable, Reread;
    assert forall i | 0 <= i < |Sorted(v.entries.Keys)| :: Sorted(v.entries.Keys)[i] in v.entries;
    if file {
      RereadEach(nodes);
    }
  }

  lemma ReturnedEntries(v: Value, file: bool)
    requires v.Dict?
    ensures Returned(v, file) == Dict(ByKey(Sorted(v.entries.Keys), ValuesReturned(v, file), file))
    ensures forall k <- v.entries :: ValuesReturned(v, file)[k] == Returned(v.entries[k], file)
  {
    hide ByKey, Sorted;
  }

  lemma KeyRead(key: string, v: Value, file: bool)
    requires Encodable(v) && FromNode(AsRead(ToNode(v), file)) == Some(Returned(v, file))
    ensures AsRead(KeyTag(key, ToNode(v)), file).tag == Named("key")
    ensures EntryFrom(AsRead(KeyTag(key, ToNode(v)), file)) == Some((Name(key, file), Returned(v, file)))
  {
    hide FromNode, Returned, Lines, Attr;
    RereadOne(ToNode(v));
    assert AsRead(KeyTag(key, ToNode(v)), file).children == [AsRead(ToNode(v), file)];
    assert AsRead(ToNode(v), file).tag == Named("value");
  }

  // ----- When it is the same -----

  lemma {:induction false} ByKeyNames(keys: seq<string>, values: map<string, Value>, file: bool)
    requires forall k <- keys :: k in values
    ensures forall l <- ByKey(keys, values, file) :: Name(l, file) == l
  {
    if keys == [] {
    } else {
      var last := |keys| - 1;
      ByKeyNames(keys[..last], values, file);
      AttrExactly(keys[last]);
      AttrExactly(Name(keys[last], file));
    }
  }

  lemma {:induction false} ByKeyFixed(keys: seq<string>, values: map<string, Value>, file: bool)
    requires forall k <- keys :: k in values && Name(k, file) == k
    ensures forall k :: k in ByKey(keys, values, file) <==> k in keys
    ensures forall k <- keys :: ByKey(keys, values, file)[k] == values[k]
  {
    hide Name;
    if keys == [] {
    } else {
      var last := |keys| - 1;
      ByKeyFixed(keys[..last], values, file);
      assert keys == keys[..last] + [keys[last]];
    }
  }

  lemma NameExactly(key: string, file: bool)
    ensures Name(key, file) == key <==> (file ==> NoWhite(key))
  {
    AttrExactly(key);
  }

  // A dictionary is the same exactly if its keys and its values are.
  lemma DictIsSame(v: Value, file: bool)
    requires v.Dict?
    ensures Returned(v, file) == v <==>
            forall k <- v.entries :: Returned(v.entries[k], file) == v.entries[k] && (file ==> NoWhite(k))
  {
    hide Returned, ByKey, NoWhite, Sorted, Less, Increasing, Name;
    var entries, keys := v.entries, Sorted(v.entries.Keys);
    var values := ValuesReturned(v, file);
    var back := ByKey(keys, values, file);
    ReturnedEntries(v, file);
    forall k: string ensures Name(k, file) == k <==> (file ==> NoWhite(k)) {
      NameExactly(k, file);
    }
    ByKeyNames(keys, values, file);
    if forall k <- entries :: Name(k, file) == k {
      ByKeyFixed(keys, values, file);
      assert back == values;
    }
  }

  // So a value comes back as itself exactly if it is stable.
  lemma {:induction false} ReturnedIsSame(v: Value, file: bool)
    ensures Returned(v, file) == v <==> Stable(v, file)
  {
    match v
    case Nothing =>
    case Text(s) =>
      LinesExactly(s);
    case Number(_) =>
    case Tuple(_) =>
    case List(items) =>
      var back := Returned(v, file).items;
      forall i | 0 <= i < |items| ensures back[i] == items[i] <==> Stable(items[i], file) {
        ReturnedIsSame(items[i], file);
      }
      if Stable(v, file) {
        assert back == items;
      } else {
        var i :| 0 <= i < |items| && !Stable(items[i], file);
        assert back[i] != items[i];
      }
    case Dict(entries) =>
      hide Returned, NoWhite;
      DictIsSame(v, file);
      forall k | k in entries ensures Returned(entries[k], file) == entries[k] <==> Stable(entries[k], file) {
        ReturnedIsSame(entries[k], file);
      }
  }

  // ----- When it can be written -----

  lemma {:induction false} WritableExactly(v: Value)
    requires Encodable(v)
    ensures Writable(ToNode(v)) <==> LegalValue(v)
    decreases v
  {
    hide Sorted, Less, Increasing, LegalText, Lines, Attr;
    TypesArePlain();
    match v
    case Text(_) =>
    case Number(n) =>
      StrIsPlain(n);
    case List(items) =>
      ItemsWritable(items, ToNode(v).children);
    case Tuple(items) =>
      ItemsWritable(items, ToNode(v).children);
    case Dict(entries) =>
      EntriesWritable(v, ToNode(v).children);
  }

  lemma ItemsWritable(items: seq<Value>, nodes: seq<Node>)
    requires |items| == |nodes| && forall i | 0 <= i < |items| :: Encodable(items[i]) && nodes[i] == ToNode(items[i])
    ensures AllWritable(nodes) <==> forall x <- items :: LegalValue(x)
    decreases items
  {
    hide Writable, LegalValue, ToNode, Encodable;
    forall i | 0 <= i < |items| ensures Writable(nodes[i]) <==> LegalValue(items[i]) {
      WritableExactly(items[i]);
    }
    assert forall i | 0 <= i < |items| :: nodes[i] in nodes && items[i] in items;
  }

  lemma EntriesWritable(v: Value, nodes: seq<Node>)
    requires v.Dict? && Encodable(v) && nodes == ToNode(v).children
    ensures AllWritable(nodes) <==> forall k <- v.entries :: LegalText(k) && LegalValue(v.entries[k])
    decreases v, 0
  {
    hide Writable, LegalValue, LegalText, Less, Increasing, Sorted;
    var entries, keys := v.entries, Sorted(v.entries.Keys);
    forall i | 0 <= i < |keys|
      ensures keys[i] in entries && (Writable(nodes[i]) <==> LegalText(keys[i]) && LegalValue(entries[keys[i]]))
    {
      assert keys[i] in entries;
      WritableExactly(entries[keys[i]]);
      KeyWritable(keys[i], entries[keys[i]]);
    }
    forall k | k in entries ensures exists i :: 0 <= i < |keys| && keys[i] == k {
      assert k in keys;
    }
  }

  lemma KeyWritable(key: string, v: Value)
    requires Encodable(v)
    ensures Writable(KeyTag(key, ToNode(v))) <==> LegalText(key) && Writable(ToNode(v))
  {
    hide ToNode, LegalText;
    var node := KeyTag(key, ToNode(v));
    assert node.attrs["name"] == key;
  }

  // The exact condition: a value comes back as itself, through a file or not,
  // if and only if it is stable, and for a file legal.
  lemma ComesBack(v: Value, file: bool)
    requires Encodable(v)
    ensures (match Passed(ToNode(v), file) case None => None case Some(node) => FromNode(node)) == Some(v) <==>
            Stable(v, file) && (file ==> LegalValue(v))
  {
    hide ToNode, FromNode, Returned, Stable, LegalValue, Writable, AsRead;
    RoundTrip(v, file);
    ReturnedIsSame(v, file);
    WritableExactly(v);
  }
}

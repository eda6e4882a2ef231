/** The element tree that configuration files are built from and read back
    (CommentTreeBuilder in src/client/mesycontrol/config_xml.py). */
module XmlTree {
  import opened Messages

  // A comment's tag is not a string, so no search by name finds it.
  datatype Tag = Named(name: string) | Comment

  datatype Node = Node(tag: Tag, attrs: map<string, string>, text: Option<string>, children: seq<Node>)

  function Adopt(parent: Node, child: Node): Node {
    parent.(children := parent.children + [child])
  }

  // The open elements after a new child of the innermost one is complete.
  function AddChild(stack: seq<Node>, child: Node): (r: seq<Node>)
    requires stack != []
    ensures |r| == |stack| && r[..|r| - 1] == stack[..|stack| - 1]
  {
    stack[..|stack| - 1] + [Adopt(stack[|stack| - 1], child)]
  }

  function AddChildren(stack: seq<Node>, children: seq<Node>): (r: seq<Node>)
    requires stack != []
    ensures |r| == |stack|
  {
    var top := stack[|stack| - 1];
    stack[..|stack| - 1] + [top.(children := top.children + children)]
  }

  lemma AddChildrenOne(stack: seq<Node>, children: seq<Node>, child: Node)
    requires stack != []
    ensures AddChild(AddChildren(stack, children), child) == AddChildren(stack, children + [child])
  {
    var top := stack[|stack| - 1];
    assert (top.children + children) + [child] == top.children + (children + [child]);
  }

  // What an element that was opened above 'stack' looks like before its end tag.
  lemma AddChildrenInside(stack: seq<Node>, node: Node, children: seq<Node>)
    requires node.children == []
    ensures var r := AddChildren(stack + [node], children);
            r[..|r| - 1] == stack && r[|r| - 1] == node.(children := children)
    ensures |children| == 1 ==> AddChild(stack + [node], children[0]) == AddChildren(stack + [node], children)
  {
    assert (stack + [node])[..|stack + [node]| - 1] == stack;
    assert |children| == 1 ==> children == [children[0]];
  }

  lemma AddChildrenNone(stack: seq<Node>)
    requires stack != []
    ensures AddChildren(stack, []) == stack
  {
    var top := stack[|stack| - 1];
    assert top.children + [] == top.children;
    assert stack == stack[..|stack| - 1] + [top];
  }

  // Elements are opened and closed from the outside in; 'open' holds those not
  // yet closed, with the children they have so far.
  class CommentTreeBuilder {
    var open: seq<Node>
    var root: Option<Node>

    constructor ()
      ensures open == [] && root == None
    {
      open := [];
      root := None;
    }

    method Start(tag: Tag, attrs: map<string, string>)
      modifies this
      ensures open == old(open) + [Node(tag, attrs, None, [])] && root == old(root)
    {
      open := open + [Node(tag, attrs, None, [])];
    }

    // Text is only ever added right after its element is opened.
    method Data(text: string)
      requires open != [] && open[|open| - 1].children == [] && open[|open| - 1].text == None
      modifies this
      ensures open == old(open[..|open| - 1] + [open[|open| - 1].(text := Some(text))]) && root == old(root)
    {
      open := open[..|open| - 1] + [open[|open| - 1].(text := Some(text))];
    }

    method End(tag: Tag)
      requires open != [] && open[|open| - 1].tag == tag
      modifies this
      ensures |old(open)| == 1 ==> open == [] && root == Some(old(open[0]))
      ensures |old(open)| > 1 ==>
                root == old(root) && open == old(AddChild(open[..|open| - 1], open[|open| - 1]))
    {
      hide AddChild;
      var last := open[|open| - 1];
      open := open[..|open| - 1];
      if open == [] {
        root := Some(last);
      } else {
        open := AddChild(open, last);
      }
    }

    // _add_tag
    method AddTag(tag: string, value: Option<string>, attrs: map<string, string>)
      requires open != []
      modifies this
      ensures open == old(AddChild(open, Node(Named(tag), attrs, value, []))) && root == old(root)
    {
      Start(Named(tag), attrs);
      if value.Some? {
        Data(value.value);
      }
      End(Named(tag));
    }

    method AddComment(text: string)
      requires open != []
      modifies this
      ensures open == old(AddChild(open, Node(Comment, map[], Some(text), []))) && root == old(root)
    {
      Start(Comment, map[]);
      Data(text);
      End(Comment);
    }
  }

  // node.find(tag): the first child with the tag.
  function Find(children: seq<Node>, tag: string): Option<Node> {
    if children == [] then None
    else if children[0].tag == Named(tag) then Some(children[0])
    else Find(children[1..], tag)
  }

  // node.findall(tag)
  function FindAll(children: seq<Node>, tag: string): seq<Node> {
    if children == [] then []
    else (if children[0].tag == Named(tag) then [children[0]] else []) + FindAll(children[1..], tag)
  }

  // node.iter(tag): the node and everything below it that has the tag, in
  // document order.
  function Iter(node: Node, tag: string): seq<Node> {
    (if node.tag == Named(tag) then [node] else []) + IterAll(node.children, tag)
  }

  function IterAll(nodes: seq<Node>, tag: string): seq<Node> {
    if nodes == [] then [] else Iter(nodes[0], tag) + IterAll(nodes[1..], tag)
  }

  // ----- What a file does to characters -----

  // Section 2.2 of XML 1.0.
  predicate Legal(c: char) {
    || c in {'\t', '\n', '\r'}
    || 0x20 <= c as int <= 0xD7FF || 0xE000 <= c as int <= 0xFFFD || 0x10000 <= c as int
  }

  predicate LegalText(s: string) {
    forall c <- s :: Legal(c)
  }

  // A comment is written as it is, except that what is not ASCII is spelled out,
  // and must not look like the end of one.
  predicate LegalComment(s: string) {
    && (forall c <- s :: c in {'\t', '\n', '\r'} || 0x20 <= c as int)
    && (forall i | 0 <= i < |s| - 1 :: !(s[i] == '-' && s[i + 1] == '-'))
    && (s != "" ==> s[|s| - 1] != '-')
  }

  // Section 2.11 of XML 1.0: all line ends are read as line feeds.
  function Lines(s: string): string {
    if s == "" then ""
    else if s[0] != '\r' then [s[0]] + Lines(s[1..])
    else if |s| > 1 && s[1] == '\n' then "\n" + Lines(s[2..])
    else "\n" + Lines(s[1..])
  }

  predicate IsWhite(c: char) {
    c in {'\t', '\n', '\r'}
  }

  function Spaces(s: string): string {
    if s == "" then "" else [if IsWhite(s[0]) then ' ' else s[0]] + Spaces(s[1..])
  }

  // Section 3.3.3 of XML 1.0: white space in an attribute's value is read as
  // spaces. The program's library writes it as it is.
  function Attr(s: string): string {
    Spaces(Lines(s))
  }

  // An empty text is no text.
  function TextRead(text: Option<string>): Option<string> {
    if text.None? || text.value == "" then None else Some(Lines(text.value))
  }

  // The tree after it was written to a file and read again; comments are dropped.
  // The indentation put around child elements is left out: no reader looks at
  // the text of an element that has any.
  function Reread(node: Node): Node {
    Node(node.tag, map k | k in node.attrs :: Attr(node.attrs[k]), TextRead(node.text), RereadAll(node.children))
  }

  function RereadAll(nodes: seq<Node>): seq<Node> {
    if nodes == [] then []
    else (if nodes[0].tag.Comment? then [] else [Reread(nodes[0])]) + RereadAll(nodes[1..])
  }

  // The tree as a reader gets it: through a file, or handed over as it is.
  function AsRead(node: Node, file: bool): Node {
    if file then Reread(node) else node
  }

  function AllAsRead(nodes: seq<Node>, file: bool): seq<Node> {
    if file then RereadAll(nodes) else nodes
  }

  // Writing a tree raises an exception exactly if it has a character or a comment
  // that XML has no place for.
  predicate Writable(node: Node) {
    && (node.text.Some? ==>
          if node.tag.Comment? then LegalComment(node.text.value) else LegalText(node.text.value))
    && (forall k <- node.attrs :: LegalText(node.attrs[k]))
    && AllWritable(node.children)
  }

  predicate AllWritable(nodes: seq<Node>) {
    forall n <- nodes :: Writable(n)
  }

  lemma AllWritableJoins(a: seq<Node>, b: seq<Node>)
    ensures AllWritable(a + b) <==> AllWritable(a) && AllWritable(b)
  {
    if AllWritable(a + b) {
      assert forall n <- a :: n in a + b;
      assert forall n <- b :: n in a + b;
    }
  }

  // The tree as a reader gets it, if it can be written.
  function Passed(node: Node, file: bool): Option<Node> {
    if file && !Writable(node) then None else Some(AsRead(node, file))
  }

  // Exactly which texts and names a file leaves alone.

  lemma {:induction false} LinesExactly(s: string)
    ensures |Lines(s)| <= |s| && (Lines(s) == "" <==> s == "")
    ensures '\r' !in Lines(s)
    ensures Lines(s) == s <==> '\r' !in s
  {
    if s == "" {
    } else if s[0] != '\r' {
      LinesExactly(s[1..]);
      assert s == [s[0]] + s[1..];
    } else if |s| > 1 && s[1] == '\n' {
      LinesExactly(s[2..]);
    } else {
      LinesExactly(s[1..]);
    }
  }

  // Each kind of line end becomes one line feed; the first in a text is not
  // part of an earlier one.
  lemma {:induction false} LineEnds(a: string, b: string)
    requires '\r' !in a
    ensures Lines(a + "\r\n" + b) == a + "\n" + Lines(b)
    ensures Lines(a + "\n" + b) == a + "\n" + Lines(b)
    ensures (b == "" || b[0] != '\n') ==> Lines(a + "\r" + b) == a + "\n" + Lines(b)
    decreases |a|
  {
    if a == "" {
      assert "" + "\r\n" + b == "\r\n" + b && ("\r\n" + b)[2..] == b;
      assert "" + "\n" + b == "\n" + b && ("\n" + b)[1..] == b;
      assert "" + "\r" + b == "\r" + b && ("\r" + b)[1..] == b;
    } else {
      LineEnds(a[1..], b);
      assert (a + "\r\n" + b)[1..] == a[1..] + "\r\n" + b;
      assert (a + "\n" + b)[1..] == a[1..] + "\n" + b;
      assert (a + "\r" + b)[1..] == a[1..] + "\r" + b;
    }
  }

  lemma {:induction false} SpacesExactly(s: string)
    ensures |Spaces(s)| == |s| && forall i | 0 <= i < |s| :: Spaces(s)[i] == if IsWhite(s[i]) then ' ' else s[i]
  {
    if s == "" {
    } else {
      SpacesExactly(s[1..]);
    }
  }

  predicate NoWhite(s: string) {
    '\t' !in s && '\n' !in s && '\r' !in s
  }

  lemma AttrExactly(s: string)
    ensures NoWhite(Attr(s))
    ensures Attr(s) == s <==> NoWhite(s)
  {
    LinesExactly(s);
    SpacesExactly(Lines(s));
    if NoWhite(s) {
      assert '\r' !in s;
      assert Spaces(s) == s;
    }
  }

  lemma {:induction false} FindIsFirst(children: seq<Node>, tag: string)
    ensures Find(children, tag).None? <==> forall i | 0 <= i < |children| :: children[i].tag != Named(tag)
    ensures Find(children, tag).Some? ==>
              exists i :: && 0 <= i < |children| && children[i] == Find(children, tag).value
                          && children[i].tag == Named(tag) && forall j | 0 <= j < i :: children[j].tag != Named(tag)
  {
    if children == [] {
    } else if children[0].tag == Named(tag) {
    } else {
      FindIsFirst(children[1..], tag);
      assert forall i | 0 < i < |children| :: children[i] == children[1..][i - 1];
      if Find(children, tag).Some? {
        var i :| && 0 <= i < |children[1..]| && children[1..][i] == Find(children[1..], tag).value
                 && children[1..][i].tag == Named(tag)
                 && forall j | 0 <= j < i :: children[1..][j].tag != Named(tag);
        assert children[i + 1] == children[1..][i];
        assert forall j | 0 < j < i + 1 :: children[j] == children[1..][j - 1];
      }
    }
  }

  lemma FindAllJoins(a: seq<Node>, b: seq<Node>, tag: string)
    ensures FindAll(a + b, tag) == FindAll(a, tag) + FindAll(b, tag)
  {
    if a == [] {
      assert a + b == b;
    } else {
      assert (a + b)[1..] == a[1..] + b;
    }
  }

  lemma FindJoins(a: seq<Node>, b: seq<Node>, tag: string)
    ensures Find(a + b, tag) == if Find(a, tag).Some? then Find(a, tag) else Find(b, tag)
  {
    if a == [] {
      assert a + b == b;
    } else {
      assert (a + b)[1..] == a[1..] + b;
    }
  }

  lemma IterAllJoins(a: seq<Node>, b: seq<Node>, tag: string)
    ensures IterAll(a + b, tag) == IterAll(a, tag) + IterAll(b, tag)
  {
    if a == [] {
      assert a + b == b;
    } else {
      assert (a + b)[1..] == a[1..] + b;
    }
  }

  lemma {:induction false} RereadAllJoins(a: seq<Node>, b: seq<Node>)
    ensures RereadAll(a + b) == RereadAll(a) + RereadAll(b)
  {
    hide Reread;
    if a == [] {
      assert a + b == b;
    } else {
      assert (a + b)[1..] == a[1..] + b;
      RereadAllJoins(a[1..], b);
    }
  }

  lemma RereadEach(nodes: seq<Node>)
    requires forall n <- nodes :: n.tag != Comment
    ensures |RereadAll(nodes)| == |nodes|
    ensures forall i | 0 <= i < |nodes| :: RereadAll(nodes)[i] == Reread(nodes[i])
  {
    if nodes == [] {
    } else {
      RereadEach(nodes[1..]);
      assert nodes[0] in nodes;
    }
  }

  lemma RereadOne(node: Node)
    requires node.tag != Comment
    ensures RereadAll([node]) == [Reread(node)]
  {
    assert [node][1..] == [];
  }

  lemma IterOne(node: Node, tag: string)
    ensures IterAll([node], tag) == Iter(node, tag)
  {
    assert [node][1..] == [];
  }

  // Nothing below has the tag.
  lemma IterLeaves(nodes: seq<Node>, tag: string)
    requires forall n <- nodes :: n.tag != Named(tag) && n.children == []
    ensures IterAll(nodes, tag) == []
  {
    if nodes == [] {
    } else {
      assert nodes[0] in nodes;
      IterLeaves(nodes[1..], tag);
    }
  }

  lemma IterAllNone(nodes: seq<Node>, tag: string)
    requires forall n <- nodes :: Iter(n, tag) == []
    ensures IterAll(nodes, tag) == []
  {
    if nodes == [] {
    } else {
      assert nodes[0] in nodes;
      IterAllNone(nodes[1..], tag);
    }
  }

  lemma IterReread(node: Node, tag: string)
    requires Iter(node, tag) == []
    ensures Iter(Reread(node), tag) == []
    decreases node
  {
    IterAllReread(node.children, tag);
  }

  lemma IterAllReread(nodes: seq<Node>, tag: string)
    requires IterAll(nodes, tag) == []
    ensures IterAll(RereadAll(nodes), tag) == []
    decreases nodes
  {
    if nodes == [] {
    } else {
      IterAllReread(nodes[1..], tag);
      if nodes[0].tag != Comment {
        IterReread(nodes[0], tag);
        IterOne(Reread(nodes[0]), tag);
        IterAllJoins([Reread(nodes[0])], RereadAll(nodes[1..]), tag);
      } else {
        assert RereadAll(nodes) == RereadAll(nodes[1..]);
      }
    }
  }

  lemma FindAllSelf(nodes: seq<Node>, tag: string)
    requires forall i | 0 <= i < |nodes| :: nodes[i].tag == Named(tag)
    ensures FindAll(nodes, tag) == nodes
  {
    if nodes == [] {
    } else {
      FindAllSelf(nodes[1..], tag);
    }
  }

  lemma FindAllNone(nodes: seq<Node>, tag: string)
    requires forall i | 0 <= i < |nodes| :: nodes[i].tag != Named(tag)
    ensures FindAll(nodes, tag) == []
  {
    if nodes == [] {
    } else {
      FindAllNone(nodes[1..], tag);
    }
  }

  lemma FindNone(nodes: seq<Node>, tag: string)
    requires forall n <- nodes :: n.tag != Named(tag)
    ensures Find(nodes, tag) == None
  {
  }

  // Leading elements with other tags are skipped, before a file and after.
  lemma FindAllAfter(first: seq<Node>, rest: seq<Node>, tag: string, file: bool)
    requires forall i | 0 <= i < |first| :: first[i].tag != Named(tag) && first[i].tag != Comment
    requires forall i | 0 <= i < |rest| :: rest[i].tag == Named(tag)
    ensures FindAll(AllAsRead(first + rest, file), tag) == AllAsRead(rest, file)
    ensures |AllAsRead(rest, file)| == |rest|
    ensures forall i | 0 <= i < |rest| :: AllAsRead(rest, file)[i] == AsRead(rest[i], file)
  {
    RereadAllJoins(first, rest);
    RereadEach(first);
    RereadEach(rest);
    FindAllJoins(AllAsRead(first, file), AllAsRead(rest, file), tag);
    FindAllNone(AllAsRead(first, file), tag);
    FindAllSelf(AllAsRead(rest, file), tag);
  }
}

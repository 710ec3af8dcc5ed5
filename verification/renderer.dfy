/** `DynamicContentPresenter.recursivelyCreateElement`: a content item to a DOM
    node, registering every listener it attaches with the presenter. */
module Renderer {
  import opened JsValues
  import opened Views
  import opened Elements

  /** What one call produces: the node (`None` when the call threw) and the
      managed-listener records it appended, in order, including those appended
      before a throw. */
  datatype Rendered = Rendered(node: Option<View>, attached: seq<Managed>)

  /** Rendering a list of items appended one after another: the nodes appended
      before a throw (all of them when `complete`), and the records appended. */
  datatype RenderedList = RenderedList(nodes: seq<View>, complete: bool, attached: seq<Managed>)

  /** `attachManagedListener(el, type, handler)` for each binding of the element at `at`. */
  function Track(at: NodeRef, bs: seq<Binding>): (ms: seq<Managed>)
    ensures |ms| == |bs|
    ensures forall i :: 0 <= i < |bs| ==> ms[i] == Managed(at, bs[i].event, bs[i].handler)
  {
    seq(|bs|, i requires 0 <= i < |bs| => Managed(at, bs[i].event, bs[i].handler))
  }

  /** `item.content || null`. */
  function ContentOf(item: JsValue): JsValue
  {
    Or(Get(item, "content"), Null)
  }

  /** Renders `item` as the element addressed by `at`. */
  function Render(item: JsValue, at: NodeRef, compiles: string -> bool): (r: Rendered)
    ensures !IsNonNullObject(item) ==> r == Rendered(Some(Text(if item.Null? then "" else ToJsString(item))), [])
    ensures IsNonNullObject(item) && r.node.Some? ==> r.node.value.Elem? && r.node.value.tag == TagOf(item)
    decreases item
  {
    if !IsNonNullObject(item) then
      Rendered(Some(Text(if item.Null? then "" else ToJsString(item))), [])
    else
      var attrs := AttributesOf(item);
      if attrs.None? then Rendered(None, [])
      else
        var bound := EventsOf(item, compiles);
        var own := Track(at, bound.bindings);
        if !bound.complete then Rendered(None, own)
        else
          var base := Elem(TagOf(item), attrs.value, StyleOf(item), bound.bindings, []);
          var content := ContentOf(item);
          if content.Arr? then
            var kids := RenderItems(content.elems, at, 0, compiles);
            Rendered(if kids.complete then Some(base.(children := kids.nodes)) else None, own + kids.attached)
          else if content.Obj? then
            var kid := Render(content, Child(at, 0), compiles);
            Rendered(if kid.node.Some? then Some(base.(children := [kid.node.value])) else None, own + kid.attached)
          else if content.Str? || content.Num? then
            Rendered(Some(base.(children := TextContent(ToJsString(content)))), own)
          else
            Rendered(Some(base), own)
  }

  /** `items.forEach(i => parent.appendChild(Render(i)))`, the first item
      becoming child `from` of `parent`. */
  function RenderItems(items: seq<JsValue>, parent: NodeRef, from: nat, compiles: string -> bool): (r: RenderedList)
    ensures r.complete ==> |r.nodes| == |items|
    ensures |r.nodes| <= |items|
    decreases items
  {
    Assemble(seq(|items|, k requires 0 <= k < |items| => Render(items[k], Child(parent, from + k), compiles)))
  }

  /** Appending renderings one after another: the first one that threw ends the
      loop, its records kept and its node dropped. */
  function Assemble(hs: seq<Rendered>): (r: RenderedList)
    ensures r.complete ==> |r.nodes| == |hs|
    ensures |r.nodes| <= |hs|
  {
    if hs == [] then RenderedList([], true, [])
    else if hs[0].node.None? then RenderedList([], false, hs[0].attached)
    else
      var rest := Assemble(hs[1..]);
      RenderedList([hs[0].node.value] + rest.nodes, rest.complete, hs[0].attached + rest.attached)
  }

  /** The loop runs to the end exactly when no rendering threw. */
  lemma {:induction false} AssembleComplete(hs: seq<Rendered>)
    ensures Assemble(hs).complete <==> forall k :: 0 <= k < |hs| ==> hs[k].node.Some?
  {
    if hs != [] {
      AssembleComplete(hs[1..]);
      if hs[0].node.Some? {
        assert forall k :: 1 <= k < |hs| ==> hs[k] == hs[1..][k - 1];
      }
    }
  }

  /** A complete loop appends each rendering's node at its own position. */
  lemma {:induction false} AssembleAt(hs: seq<Rendered>, i: nat)
    requires Assemble(hs).complete && i < |hs|
    ensures hs[i].node == Some(Assemble(hs).nodes[i])
    decreases i
  {
    if i > 0 {
      AssembleAt(hs[1..], i - 1);
    }
  }

  /** The records of a loop come from its renderings, each attributed to the
      position its node takes. */
  lemma {:induction false} AssembleRecords(hs: seq<Rendered>, m: Managed)
    requires m in Assemble(hs).attached
    ensures exists k :: 0 <= k < |hs| && m in hs[k].attached
                        && (Assemble(hs).complete ==> k < |Assemble(hs).nodes| && hs[k].node == Some(Assemble(hs).nodes[k]))
  {
    if hs[0].node.Some? {
      var rest := Assemble(hs[1..]);
      if m in hs[0].attached {
        assert 0 < |Assemble(hs).nodes|;
      } else {
        assert m in rest.attached;
        AssembleRecords(hs[1..], m);
        var k :| 0 <= k < |hs[1..]| && m in hs[1..][k].attached
                 && (rest.complete ==> k < |rest.nodes| && hs[1..][k].node == Some(rest.nodes[k]));
        assert hs[k + 1] == hs[1..][k];
        assert rest.complete ==> Assemble(hs).nodes[k + 1] == rest.nodes[k];
      }
    }
  }

  /** Each item is rendered at its own position below `parent`. */
  lemma RenderItemsAtOwnPlace(items: seq<JsValue>, parent: NodeRef, from: nat, compiles: string -> bool, k: nat)
    requires k < |items|
    ensures var hs := seq(|items|, k requires 0 <= k < |items| => Render(items[k], Child(parent, from + k), compiles));
            hs[k] == Render(items[k], Child(parent, from + k), compiles)
  {
  }

  /** One step of the loop: the first item, then the rest one position further on. */
  lemma RenderItemsCons(items: seq<JsValue>, parent: NodeRef, from: nat, compiles: string -> bool)
    requires items != []
    ensures var head := Render(items[0], Child(parent, from), compiles);
            var rest := RenderItems(items[1..], parent, from + 1, compiles);
            RenderItems(items, parent, from, compiles)
              == if head.node.None? then RenderedList([], false, head.attached)
                 else RenderedList([head.node.value] + rest.nodes, rest.complete, head.attached + rest.attached)
  {
    var hs := seq(|items|, k requires 0 <= k < |items| => Render(items[k], Child(parent, from + k), compiles));
    var ts := seq(|items[1..]|, k requires 0 <= k < |items[1..]| => Render(items[1..][k], Child(parent, from + 1 + k), compiles));
    assert hs[1..] == ts by {
      forall k | 0 <= k < |ts| ensures hs[1..][k] == ts[k] {
        assert items[1..][k] == items[k + 1] && from + 1 + k == from + (k + 1);
      }
    }
    assert hs[0] == Render(items[0], Child(parent, from), compiles);
    AssembleCons(hs);
  }

  lemma AssembleCons(hs: seq<Rendered>)
    requires hs != []
    ensures Assemble(hs)
              == if hs[0].node.None? then RenderedList([], false, hs[0].attached)
                 else RenderedList([hs[0].node.value] + Assemble(hs[1..]).nodes, Assemble(hs[1..]).complete,
                                   hs[0].attached + Assemble(hs[1..]).attached)
  {
  }

  lemma WithinChildren(ms: seq<Managed>, root: NodeRef, i: nat)
    requires forall m :: m in ms ==> Within(m.target, Child(root, i))
    ensures forall m :: m in ms ==> Within(m.target, root)
  {
    forall m | m in ms ensures Within(m.target, root) {
      WithinChild(m.target, root, i);
    }
  }

  /** `v` is what `item` renders to at `at`. */
  predicate RendersTo(item: JsValue, at: NodeRef, compiles: string -> bool, v: View) {
    Render(item, at, compiles).node == Some(v)
  }

  /** Every record a render appends, including those appended before a throw,
      names a node at or below the element being rendered. */
  lemma {:induction false} RenderWithin(item: JsValue, at: NodeRef, compiles: string -> bool)
    ensures forall m :: m in Render(item, at, compiles).attached ==> Within(m.target, at)
    decreases item
  {
    if IsNonNullObject(item) && AttributesOf(item).Some? {
      var bound := EventsOf(item, compiles);
      var own := Track(at, bound.bindings);
      WithinSelf(at);
      assert forall m :: m in own ==> m.target == at;
      if bound.complete {
        var content := ContentOf(item);
        if content.Arr? {
          RenderItemsWithin(content.elems, at, 0, compiles);
        } else if content.Obj? {
          RenderWithin(content, Child(at, 0), compiles);
          WithinChildren(Render(content, Child(at, 0), compiles).attached, at, 0);
        }
      }
    }
  }

  lemma RenderItemsWithin(items: seq<JsValue>, parent: NodeRef, from: nat, compiles: string -> bool)
    ensures forall m :: m in RenderItems(items, parent, from, compiles).attached ==> Within(m.target, parent)
    decreases items
  {
    var hs := seq(|items|, k requires 0 <= k < |items| => Render(items[k], Child(parent, from + k), compiles));
    forall m | m in Assemble(hs).attached ensures Within(m.target, parent) {
      AssembleRecords(hs, m);
      var k :| 0 <= k < |hs| && m in hs[k].attached;
      RenderItemsAtOwnPlace(items, parent, from, compiles, k);
      RenderWithin(items[k], Child(parent, from + k), compiles);
      WithinChild(m.target, parent, from + k);
    }
  }

  /** A fully rendered list holds one node per item, in order, each the
      rendering of its item at its own position. */
  lemma RenderItemsInOrder(items: seq<JsValue>, parent: NodeRef, from: nat, compiles: string -> bool)
    requires RenderItems(items, parent, from, compiles).complete
    ensures var r := RenderItems(items, parent, from, compiles);
            && |r.nodes| == |items|
            && forall i :: 0 <= i < |items| ==> RendersTo(items[i], Child(parent, from + i), compiles, r.nodes[i])
  {
    forall i | 0 <= i < |items|
      ensures RendersTo(items[i], Child(parent, from + i), compiles, RenderItems(items, parent, from, compiles).nodes[i])
    {
      RenderItemsAt(items, parent, from, compiles, i);
    }
  }

  lemma RenderItemsAt(items: seq<JsValue>, parent: NodeRef, from: nat, compiles: string -> bool, i: nat)
    requires RenderItems(items, parent, from, compiles).complete
    requires i < |items|
    ensures RendersTo(items[i], Child(parent, from + i), compiles, RenderItems(items, parent, from, compiles).nodes[i])
  {
    var hs := seq(|items|, k requires 0 <= k < |items| => Render(items[k], Child(parent, from + k), compiles));
    AssembleAt(hs, i);
    RenderItemsAtOwnPlace(items, parent, from, compiles, i);
  }

  /** The element of a structured item carries the item's attributes (props
      applied in order), style and listeners, and the first records appended
      are those listeners, attached to the element itself. */
  lemma RenderElementShell(item: JsValue, at: NodeRef, compiles: string -> bool)
    requires IsNonNullObject(item)
    requires AttributesOf(item).Some? && EventsOf(item, compiles).complete
    ensures var r := Render(item, at, compiles);
            && (r.node.Some? ==>
                  && r.node.value.attrs == AttributesOf(item).value
                  && r.node.value.style == StyleOf(item)
                  && r.node.value.listeners == EventsOf(item, compiles).bindings)
            && r.attached[..|EventsOf(item, compiles).bindings|] == Track(at, EventsOf(item, compiles).bindings)
  {
  }

  /** Scalar content: a falsy one (`0`, `""`, absent) yields no children, a
      truthy string or number one text child, a boolean or function none. */
  lemma RenderScalarContent(item: JsValue, at: NodeRef, compiles: string -> bool)
    requires IsNonNullObject(item)
    requires AttributesOf(item).Some? && EventsOf(item, compiles).complete
    ensures var r := Render(item, at, compiles);
            var c := Get(item, "content");
            && (!Truthy(c) ==> r.node.Some? && r.node.value.children == [])
            && ((c.Str? || c.Num?) && Truthy(c) ==> r.node.Some? && r.node.value.children == [Text(ToJsString(c))])
            && ((c.Bool? || c.Func?) ==> r.node.Some? && r.node.value.children == [])
  {
    var c := Get(item, "content");
    if (c.Str? || c.Num?) && Truthy(c) {
      assert ToJsString(c) != "" by {
        if c.Num? {
          assert |IntToString(c.n)| >= 1;
        }
      }
    }
  }

  /** Object content is rendered as the single child `0`; the element exists
      iff that child rendered. */
  lemma RenderObjectContent(item: JsValue, at: NodeRef, compiles: string -> bool)
    requires IsNonNullObject(item)
    requires AttributesOf(item).Some? && EventsOf(item, compiles).complete
    requires Get(item, "content").Obj?
    ensures var r := Render(item, at, compiles);
            var c := Get(item, "content");
            && (r.node.Some? <==> Render(c, Child(at, 0), compiles).node.Some?)
            && (r.node.Some? ==> r.node.value.children == [Render(c, Child(at, 0), compiles).node.value])
  {
  }

  /** Array content yields one child per entry, entry `i` rendered as child
      `i`; the element exists iff no entry threw. */
  lemma RenderArrayContent(item: JsValue, at: NodeRef, compiles: string -> bool)
    requires IsNonNullObject(item)
    requires AttributesOf(item).Some? && EventsOf(item, compiles).complete
    requires Get(item, "content").Arr?
    ensures var r := Render(item, at, compiles);
            var c := Get(item, "content");
            && (r.node.Some? <==> RenderItems(c.elems, at, 0, compiles).complete)
            && (r.node.Some? ==>
                  && r.node.value.children == RenderItems(c.elems, at, 0, compiles).nodes
                  && |r.node.value.children| == |c.elems|
                  && forall i :: 0 <= i < |c.elems| ==>
                       RendersTo(c.elems[i], Child(at, i), compiles, r.node.value.children[i]))
  {
    var c := Get(item, "content");
    if RenderItems(c.elems, at, 0, compiles).complete {
      RenderItemsInOrder(c.elems, at, 0, compiles);
    }
  }

  /** `r` is an element carrying the listener `m` at `m`'s position below `root`. */
  predicate LocatedIn(v: View, root: NodeRef, m: Managed) {
    Within(m.target, root) && Carries(ViewAt(v, Below(m.target, root)), BindingOf(m))
  }

  /** `m` lies inside one of `nodes`, the first being child `from` of `parent`. */
  predicate LocatedAmong(nodes: seq<View>, parent: NodeRef, from: nat, m: Managed) {
    && Within(m.target, parent)
    && var p := Below(m.target, parent);
    && |p| >= 1 && from <= p[0] < from + |nodes|
    && Carries(ViewAt(nodes[p[0] - from], p[1..]), BindingOf(m))
  }

  lemma LocatedShift(v: View, nodes: seq<View>, parent: NodeRef, from: nat, m: Managed)
    requires LocatedAmong(nodes, parent, from + 1, m)
    ensures LocatedAmong([v] + nodes, parent, from, m)
  {
    var p := Below(m.target, parent);
    assert ([v] + nodes)[p[0] - from] == nodes[p[0] - (from + 1)];
  }

  lemma LocatedHead(v: View, nodes: seq<View>, parent: NodeRef, from: nat, m: Managed)
    requires LocatedAmong([v], parent, from, m)
    ensures LocatedAmong([v] + nodes, parent, from, m)
  {
    var p := Below(m.target, parent);
    assert ([v] + nodes)[p[0] - from] == v;
  }

  /** Every record a successful render appends names an element of the rendered
      tree that really carries that listener: the managed list never refers to
      a node outside what was drawn. */
  lemma {:induction false} RenderLocated(item: JsValue, at: NodeRef, compiles: string -> bool)
    requires Render(item, at, compiles).node.Some?
    ensures var r := Render(item, at, compiles);
            forall m :: m in r.attached ==> LocatedIn(r.node.value, at, m)
    decreases item
  {
    var r := Render(item, at, compiles);
    if IsNonNullObject(item) {
      var bound := EventsOf(item, compiles);
      var own := Track(at, bound.bindings);
      var v := r.node.value;
      var content := ContentOf(item);
      forall m | m in own ensures LocatedIn(v, at, m) {
        WithinSelf(at);
        var i :| 0 <= i < |own| && own[i] == m;
        assert BindingOf(m) == bound.bindings[i];
      }
      if content.Arr? {
        var kids := RenderItems(content.elems, at, 0, compiles);
        RenderItemsLocated(content.elems, at, 0, compiles);
        assert r.attached == own + kids.attached;
        forall m | m in kids.attached ensures LocatedIn(v, at, m) {
          var p := Below(m.target, at);
          assert p == [p[0]] + p[1..];
          ViewAtChild(v, p[0], p[1..]);
        }
      } else if content.Obj? {
        var kid := Render(content, Child(at, 0), compiles);
        RenderLocated(content, Child(at, 0), compiles);
        assert r.attached == own + kid.attached;
        forall m | m in kid.attached ensures LocatedIn(v, at, m) {
          WithinChild(m.target, at, 0);
          ViewAtChild(v, 0, Below(m.target, Child(at, 0)));
        }
      }
    }
  }

  /** Every record of a rendering that produced a node is located in that node. */
  predicate RecordsLocated(h: Rendered, at: NodeRef) {
    h.node.Some? ==> forall m :: m in h.attached ==> LocatedIn(h.node.value, at, m)
  }

  lemma {:induction false} AssembleLocated(hs: seq<Rendered>, parent: NodeRef, from: nat)
    requires Assemble(hs).complete
    requires forall k :: 0 <= k < |hs| ==> RecordsLocated(hs[k], Child(parent, from + k))
    ensures forall m :: m in Assemble(hs).attached ==> LocatedAmong(Assemble(hs).nodes, parent, from, m)
    decreases |hs|
  {
    if hs != [] {
      var h := hs[0];
      var rest := Assemble(hs[1..]);
      forall k | 0 <= k < |hs[1..]| ensures RecordsLocated(hs[1..][k], Child(parent, from + 1 + k)) {
        assert hs[1..][k] == hs[k + 1] && from + 1 + k == from + (k + 1);
      }
      AssembleLocated(hs[1..], parent, from + 1);
      assert Assemble(hs).nodes == [h.node.value] + rest.nodes;
      assert Assemble(hs).attached == h.attached + rest.attached;
      forall m | m in Assemble(hs).attached ensures LocatedAmong(Assemble(hs).nodes, parent, from, m) {
        if m in h.attached {
          var c := Child(parent, from);
          assert RecordsLocated(hs[0], Child(parent, from + 0));
          assert LocatedIn(h.node.value, c, m);
          WithinChild(m.target, parent, from);
          var p := Below(m.target, parent);
          assert p[0] == from && p[1..] == Below(m.target, c);
          assert LocatedAmong([h.node.value], parent, from, m);
          LocatedHead(h.node.value, rest.nodes, parent, from, m);
        } else {
          assert m in rest.attached;
          LocatedShift(h.node.value, rest.nodes, parent, from, m);
        }
      }
    }
  }

  lemma RenderItemsLocated(items: seq<JsValue>, parent: NodeRef, from: nat, compiles: string -> bool)
    requires RenderItems(items, parent, from, compiles).complete
    ensures var r := RenderItems(items, parent, from, compiles);
            forall m :: m in r.attached ==> LocatedAmong(r.nodes, parent, from, m)
    decreases items
  {
    var hs := seq(|items|, k requires 0 <= k < |items| => Render(items[k], Child(parent, from + k), compiles));
    forall k | 0 <= k < |hs| ensures RecordsLocated(hs[k], Child(parent, from + k)) {
      RenderItemsAtOwnPlace(items, parent, from, compiles, k);
      if hs[k].node.Some? {
        RenderLocated(items[k], Child(parent, from + k), compiles);
      }
    }
    AssembleLocated(hs, parent, from);
  }

  /** String list entries are drawn as their own text, in order. */
  lemma RenderStringItems(item: JsValue, at: NodeRef, compiles: string -> bool)
    requires item.Obj? && AttributesOf(item).Some? && EventsOf(item, compiles).complete
    requires Get(item, "content").Arr?
    requires var c := Get(item, "content"); forall i :: 0 <= i < |c.elems| ==> c.elems[i].Str?
    ensures var c := Get(item, "content");
            var r := Render(item, at, compiles);
            && r.node.Some?
            && r.node.value.children == seq(|c.elems|, i requires 0 <= i < |c.elems| => Text(c.elems[i].s))
  {
    var c := Get(item, "content");
    StringItemsNodes(c.elems, at, 0, compiles);
    RenderArrayContent(item, at, compiles);
  }

  /** A run of strings renders completely, entry `i` as the text node of its string. */
  lemma StringItemsNodes(items: seq<JsValue>, parent: NodeRef, from: nat, compiles: string -> bool)
    requires forall i :: 0 <= i < |items| ==> items[i].Str?
    ensures RenderItems(items, parent, from, compiles).complete
    ensures RenderItems(items, parent, from, compiles).nodes
            == seq(|items|, i requires 0 <= i < |items| => Text(items[i].s))
  {
    var kids := RenderItems(items, parent, from, compiles);
    StringItemsComplete(items, parent, from, compiles);
    forall i | 0 <= i < |items| ensures kids.nodes[i] == Text(items[i].s) {
      RenderItemsAt(items, parent, from, compiles, i);
    }
  }

  lemma StringItemsComplete(items: seq<JsValue>, parent: NodeRef, from: nat, compiles: string -> bool)
    requires forall i :: 0 <= i < |items| ==> items[i].Str?
    ensures RenderItems(items, parent, from, compiles).complete
  {
    var hs := seq(|items|, k requires 0 <= k < |items| => Render(items[k], Child(parent, from + k), compiles));
    forall k | 0 <= k < |hs| ensures hs[k].node.Some? {
      RenderItemsAtOwnPlace(items, parent, from, compiles, k);
    }
    AssembleComplete(hs);
  }

  /** The `ul` item of the game-development post: a list of five strings. */
  const GameDevList: JsValue :=
    Obj([Field("el", Str("ul")),
         Field("content", Arr([Str("C++ programming"),
                               Str("Window creation (SDL)"),
                               Str("OpenGL / Vulkan (to load 3D objects into the window)"),
                               Str("Algebra, matrices, and math for graphics (for physics, collision detection, etc.)"),
                               Str("Deep graphics programming for realistic graphics")]))])

  /** The game-development post's list, as the presenter draws it: a `ul` with
      each string as a text child, in order. */
  lemma RenderFixtureList(at: NodeRef)
    ensures Render(GameDevList, at, _ => true).node
              == Some(Elem("ul", map[], NoStyle, [],
                           [Text("C++ programming"),
                            Text("Window creation (SDL)"),
                            Text("OpenGL / Vulkan (to load 3D objects into the window)"),
                            Text("Algebra, matrices, and math for graphics (for physics, collision detection, etc.)"),
                            Text("Deep graphics programming for realistic graphics")]))
  {
    var ul := GameDevList;
    assert Get(ul, "el") == Str("ul");
    AsciiLowerFolds("ul");
    assert TagOf(ul) == "ul";
    assert Get(ul, "props") == Undef && Get(ul, "style") == Undef && Get(ul, "events") == Undef;
    RenderStringItems(ul, at, _ => true);
    RenderElementShell(ul, at, _ => true);
    var c := Get(ul, "content");
    assert seq(|c.elems|, i requires 0 <= i < |c.elems| => Text(c.elems[i].s))
        == [Text("C++ programming"),
            Text("Window creation (SDL)"),
            Text("OpenGL / Vulkan (to load 3D objects into the window)"),
            Text("Algebra, matrices, and math for graphics (for physics, collision detection, etc.)"),
            Text("Deep graphics programming for realistic graphics")];
  }
}

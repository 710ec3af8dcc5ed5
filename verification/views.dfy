/** The rendered side: an abstract DOM of text leaves and elements, the two
    containers the presenters draw into, and the records of listeners the
    presenter tracks. */
module Views {
  import opened JsValues

  /** An element's inline style: untouched, `style.cssText = s`, or an object
      assigned property by property (kept opaque). */
  datatype Style = NoStyle | CssText(text: string) | StyleObject(value: JsValue)

  /** What a presenter button does when clicked. */
  datatype Action = GoPrev | GoNext | OpenStory(path: JsValue) | BackToList

  /** A listener: a function value from the content, a handler string compiled
      with `new Function("event", body)`, or one of the presenter's own actions. */
  datatype Handler = Callback(source: string) | Compiled(body: string) | Act(action: Action)

  datatype Binding = Binding(event: string, handler: Handler)

  /** A DOM node. `textContent = s` on an element leaves exactly the children
      `TextContent(s)`. */
  datatype View =
    | Text(text: string)
    | Elem(tag: string, attrs: map<string, string>, style: Style, listeners: seq<Binding>, children: seq<View>)

  /** The content area (`#loader`) and the pagination area. */
  datatype Area = ContentArea | PaginationArea

  /** An element addressed by its child-index path from its container. */
  datatype NodeRef = NodeRef(area: Area, path: seq<nat>)

  /** One entry of the presenter's managed-listener list. */
  datatype Managed = Managed(target: NodeRef, event: string, handler: Handler)

  /** The container's `style.display`: never set, "flex", "block" or "none". */
  datatype Display = Unset | Flex | Block | Hidden

  datatype Container = Container(children: seq<View>, display: Display)

  /** The children an element has after `textContent = s`. */
  function TextContent(s: string): (kids: seq<View>)
    ensures s == "" <==> kids == []
    ensures s != "" ==> kids == [Text(s)]
  {
    if s == "" then [] else [Text(s)]
  }

  /** `document.createElement(tag)` with `className = cls` and the given children. */
  function Classed(tag: string, cls: string, children: seq<View>): View
  {
    Elem(tag, map["class" := cls], NoStyle, [], children)
  }

  /** The node at `path` below `v` (the empty path is `v` itself). */
  function ViewAt(v: View, path: seq<nat>): Option<View>
    decreases |path|
  {
    if path == [] then Some(v)
    else if v.Elem? && path[0] < |v.children| then ViewAt(v.children[path[0]], path[1..])
    else None
  }

  /** The node at `path` inside a container holding `roots`. */
  function NodeAt(roots: seq<View>, path: seq<nat>): Option<View>
  {
    if path != [] && path[0] < |roots| then ViewAt(roots[path[0]], path[1..]) else None
  }

  /** `v` is an element that has the listener `b` attached. */
  predicate Carries(v: Option<View>, b: Binding) {
    v.Some? && v.value.Elem? && b in v.value.listeners
  }

  function BindingOf(m: Managed): Binding {
    Binding(m.event, m.handler)
  }

  function Child(at: NodeRef, i: nat): (r: NodeRef)
    ensures r.area == at.area && r.path == at.path + [i]
  {
    NodeRef(at.area, at.path + [i])
  }

  /** `at` lies at or below `root`; `Below(at, root)` is the relative path. */
  predicate Within(at: NodeRef, root: NodeRef) {
    at.area == root.area && |root.path| <= |at.path| && at.path[..|root.path|] == root.path
  }

  function Below(at: NodeRef, root: NodeRef): seq<nat>
    requires Within(at, root)
  {
    at.path[|root.path|..]
  }

  lemma ViewAtChild(v: View, i: nat, p: seq<nat>)
    requires v.Elem? && i < |v.children|
    ensures ViewAt(v, [i] + p) == ViewAt(v.children[i], p)
  {
    assert ([i] + p)[1..] == p;
  }

  lemma NodeAtChild(roots: seq<View>, i: nat, p: seq<nat>)
    requires i < |roots|
    ensures NodeAt(roots, [i] + p) == ViewAt(roots[i], p)
  {
    assert ([i] + p)[1..] == p;
  }

  lemma WithinChild(at: NodeRef, root: NodeRef, i: nat)
    requires Within(at, Child(root, i))
    ensures Within(at, root)
    ensures Below(at, root) == [i] + Below(at, Child(root, i))
  {
    var c := Child(root, i);
    assert at.path[..|root.path|] == at.path[..|c.path|][..|root.path|];
    assert c.path[..|root.path|] == root.path;
    assert Below(at, root) == at.path[|root.path|..];
    assert at.path[|root.path|] == c.path[|root.path|] == i;
    assert at.path[|root.path|..] == [i] + at.path[|c.path|..];
  }

  lemma WithinSelf(at: NodeRef)
    ensures Within(at, at) && Below(at, at) == []
  {
  }
}

/** `StoryManager.createElement`, the older content renderer: listeners are
    attached but not tracked, literals render as empty text, content falls back
    to the misspelt `conten` field, and only string content becomes text. */
module LegacyRenderer {
  import opened JsValues
  import opened Views
  import opened Elements
  import Renderer

  /** `item.content || item.conten || null`. */
  function LegacyContentOf(item: JsValue): JsValue
  {
    Or(Or(Get(item, "content"), Get(item, "conten")), Null)
  }

  /** The node for `item`; `None` when the call throws. */
  function CreateElement(item: JsValue, compiles: string -> bool): (r: Option<View>)
    ensures !Truthy(item) || !IsObjectType(item) ==> r == Some(Text(""))
    ensures IsNonNullObject(item) && r.Some? ==> r.value.Elem? && r.value.tag == TagOf(item)
    decreases item
  {
    if !Truthy(item) || !IsObjectType(item) then Some(Text(""))
    else
      var attrs := AttributesOf(item);
      var bound := EventsOf(item, compiles);
      if attrs.None? || !bound.complete then None
      else
        var base := Elem(TagOf(item), attrs.value, StyleOf(item), bound.bindings, []);
        var content := LegacyContentOf(item);
        if content.Arr? then
          var kids := CreateAll(content.elems, compiles);
          if kids.Some? then Some(base.(children := kids.value)) else None
        else if content.Obj? then
          var kid := CreateElement(content, compiles);
          if kid.Some? then Some(base.(children := [kid.value])) else None
        else if content.Str? then
          Some(base.(children := TextContent(content.s)))
        else
          Some(base)
  }

  /** `items.forEach(i => el.appendChild(createElement(i)))`; `None` if one throws. */
  function CreateAll(items: seq<JsValue>, compiles: string -> bool): (r: Option<seq<View>>)
    ensures r.Some? ==> |r.value| == |items|
    decreases items
  {
    if items == [] then Some([])
    else
      var head := CreateElement(items[0], compiles);
      if head.None? then None
      else
        var rest := CreateAll(items[1..], compiles);
        if rest.None? then None else Some([head.value] + rest.value)
  }

  /** When no item throws, the nodes are the items' nodes, in order. */
  lemma {:induction false} CreateAllInOrder(items: seq<JsValue>, compiles: string -> bool)
    requires CreateAll(items, compiles).Some?
    ensures forall i :: 0 <= i < |items| ==>
              CreateElement(items[i], compiles).Some?
              && CreateAll(items, compiles).value[i] == CreateElement(items[i], compiles).value
    decreases items
  {
    if items != [] {
      CreateAllInOrder(items[1..], compiles);
      forall i | 0 <= i < |items|
        ensures CreateElement(items[i], compiles).Some?
                && CreateAll(items, compiles).value[i] == CreateElement(items[i], compiles).value
      {
        if i > 0 {
          assert items[i] == items[1..][i - 1];
        }
      }
    }
  }

  /** On a literal the two renderers agree exactly when the presenter's text is
      empty: the legacy one blanks every literal, the presenter writes `String(item)`. */
  lemma LiteralsAgreeIff(item: JsValue, at: NodeRef, compiles: string -> bool)
    requires !IsNonNullObject(item)
    ensures CreateElement(item, compiles) == Some(Text(""))
    ensures Renderer.Render(item, at, compiles).node == CreateElement(item, compiles)
            <==> item.Null? || ToJsString(item) == ""
  {
  }

  /** Items on which the two renderers do the same thing: objects whose content
      is absent (with no `conten` either), a string, a boolean, a function, or
      again such an object or an array of such objects. */
  predicate Plain(item: JsValue)
    decreases item
  {
    && IsNonNullObject(item)
    && var c := Get(item, "content");
    && (!Truthy(c) ==> !Truthy(Get(item, "conten")))
    && (Truthy(c) ==>
          || c.Str? || c.Bool? || c.Func?
          || (c.Obj? && Plain(c))
          || (c.Arr? && AllPlain(c.elems)))
  }

  predicate AllPlain(items: seq<JsValue>)
    decreases items
  {
    items != [] ==> Plain(items[0]) && AllPlain(items[1..])
  }

  /** On plain trees the legacy renderer draws exactly what the presenter draws
      (the presenter additionally records the listeners). */
  lemma {:induction false} VariantsAgree(item: JsValue, at: NodeRef, compiles: string -> bool)
    requires Plain(item)
    ensures CreateElement(item, compiles) == Renderer.Render(item, at, compiles).node
    decreases item
  {
    var c := Get(item, "content");
    if Truthy(c) && c.Obj? {
      VariantsAgree(c, Child(at, 0), compiles);
    } else if Truthy(c) && c.Arr? {
      VariantsAgreeAll(c.elems, at, 0, compiles);
    }
  }

  lemma {:induction false} VariantsAgreeAll(items: seq<JsValue>, parent: NodeRef, from: nat, compiles: string -> bool)
    requires AllPlain(items)
    ensures var r := Renderer.RenderItems(items, parent, from, compiles);
            && (CreateAll(items, compiles).Some? <==> r.complete)
            && (r.complete ==> CreateAll(items, compiles).value == r.nodes)
    decreases items
  {
    if items != [] {
      Renderer.RenderItemsCons(items, parent, from, compiles);
      VariantsAgree(items[0], Child(parent, from), compiles);
      VariantsAgreeAll(items[1..], parent, from + 1, compiles);
    }
  }

  /** Every string inside a content array is drawn as an empty text node. */
  lemma {:induction false} LegacyBlanksStringItems(items: seq<JsValue>, compiles: string -> bool)
    requires forall i :: 0 <= i < |items| ==> items[i].Str?
    ensures CreateAll(items, compiles).Some?
    ensures forall i :: 0 <= i < |items| ==> CreateAll(items, compiles).value[i] == Text("")
    decreases items
  {
    if items != [] {
      LegacyBlanksStringItems(items[1..], compiles);
      assert CreateElement(items[0], compiles) == Some(Text(""));
      var rest := CreateAll(items[1..], compiles).value;
      assert CreateAll(items, compiles).value == [Text("")] + rest;
      forall i | 0 <= i < |items| ensures CreateAll(items, compiles).value[i] == Text("") {
        if i > 0 {
          assert ([Text("")] + rest)[i] == rest[i - 1];
        }
      }
    }
  }

  /** An element whose content is an array of strings gets one empty text
      child per string. */
  lemma LegacyStringList(item: JsValue, compiles: string -> bool)
    requires item.Obj? && AttributesOf(item).Some? && EventsOf(item, compiles).complete
    requires LegacyContentOf(item).Arr?
    requires var c := LegacyContentOf(item); forall i :: 0 <= i < |c.elems| ==> c.elems[i].Str?
    ensures CreateAll(LegacyContentOf(item).elems, compiles).Some?
    ensures CreateElement(item, compiles)
              == Some(Elem(TagOf(item), AttributesOf(item).value, StyleOf(item), EventsOf(item, compiles).bindings,
                           CreateAll(LegacyContentOf(item).elems, compiles).value))
  {
    LegacyBlanksStringItems(LegacyContentOf(item).elems, compiles);
  }

  /** The game-development post's list, as the legacy renderer draws it: the
      `ul` has its five children, all empty. */
  lemma LegacyBlanksFixtureList()
    ensures CreateElement(Renderer.GameDevList, _ => true)
              == Some(Elem("ul", map[], NoStyle, [], [Text(""), Text(""), Text(""), Text(""), Text("")]))
  {
    var ul := Renderer.GameDevList;
    var compiles: string -> bool := _ => true;
    assert Get(ul, "el") == Str("ul") && Get(ul, "conten") == Undef;
    AsciiLowerFolds("ul");
    assert TagOf(ul) == "ul";
    assert Get(ul, "props") == Undef && Get(ul, "style") == Undef && Get(ul, "events") == Undef;
    var items := Get(ul, "content").elems;
    assert LegacyContentOf(ul) == Arr(items);
    LegacyStringList(ul, compiles);
    LegacyBlanksStringItems(items, compiles);
    var kids := CreateAll(items, compiles).value;
    assert kids == [Text(""), Text(""), Text(""), Text(""), Text("")] by {
      assert |kids| == 5 && kids[0] == kids[1] == kids[2] == kids[3] == kids[4] == Text("");
    }
  }

  /** Numeric content produces no text in the legacy renderer (the presenter
      writes its decimal form). */
  lemma LegacyIgnoresNumberContent(item: JsValue, at: NodeRef, n: int, compiles: string -> bool)
    requires item.Obj? && Get(item, "content") == Num(n) && n != 0
    requires AttributesOf(item).Some? && EventsOf(item, compiles).complete
    ensures CreateElement(item, compiles).Some? && CreateElement(item, compiles).value.children == []
    ensures Renderer.Render(item, at, compiles).node.value.children == [Text(IntToString(n))]
  {
    Renderer.RenderScalarContent(item, at, compiles);
  }

  /** When `content` is falsy the legacy renderer reads `conten`; the presenter does not. */
  lemma LegacyReadsConten(item: JsValue, at: NodeRef, s: string, compiles: string -> bool)
    requires item.Obj? && !Truthy(Get(item, "content")) && Get(item, "conten") == Str(s) && s != ""
    requires AttributesOf(item).Some? && EventsOf(item, compiles).complete
    ensures CreateElement(item, compiles).Some? && CreateElement(item, compiles).value.children == [Text(s)]
    ensures Renderer.Render(item, at, compiles).node.value.children == []
  {
    Renderer.RenderScalarContent(item, at, compiles);
  }
}

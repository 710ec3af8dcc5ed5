/** The per-element steps both content renderers share: the tag, the `props`
    list applied with `setAttribute`, the `style` and the `events` list. */
module Elements {
  import opened JsValues
  import opened Views

  /** One character in ASCII lowercase; every other character is kept. */
  function LowerChar(c: char): char {
    if 'A' <= c <= 'Z' then (c as int + 32) as char else c
  }

  /** A name with no ASCII capital letter. */
  predicate NoUpper(s: string) {
    forall i :: 0 <= i < |s| ==> !('A' <= s[i] <= 'Z')
  }

  /** ASCII lowercase: what an HTML document does to the names handed to
      `createElement` and `setAttribute`. */
  function AsciiLower(s: string): (r: string)
    ensures |r| == |s|
  {
    if s == [] then [] else [LowerChar(s[0])] + AsciiLower(s[1..])
  }

  /** Folding works character by character. */
  lemma {:induction false} AsciiLowerAt(s: string)
    ensures forall i :: 0 <= i < |s| ==> AsciiLower(s)[i] == LowerChar(s[i])
    decreases |s|
  {
    if s != [] {
      AsciiLowerAt(s[1..]);
    }
  }

  /** Folding leaves no capital letter, and a name without one is kept as is,
      so folding twice is folding once. */
  lemma AsciiLowerFolds(s: string)
    ensures NoUpper(AsciiLower(s))
    ensures NoUpper(s) ==> AsciiLower(s) == s
    ensures AsciiLower(AsciiLower(s)) == AsciiLower(s)
  {
    AsciiLowerAt(s);
    AsciiLowerAt(AsciiLower(s));
  }

  /** `document.createElement(item.el || "div")`. */
  function TagOf(item: JsValue): string
  {
    var el := Get(item, "el");
    AsciiLower(if Truthy(el) then ToJsString(el) else "div")
  }

  /** The tag is `el` (or "div" when `el` is falsy) up to case, and carries no
      capital letter. */
  lemma TagOfFolded(item: JsValue)
    ensures NoUpper(TagOf(item))
    ensures !Truthy(Get(item, "el")) ==> TagOf(item) == "div"
    ensures Truthy(Get(item, "el")) ==> AsciiLower(TagOf(item)) == AsciiLower(ToJsString(Get(item, "el")))
  {
    var el := Get(item, "el");
    AsciiLowerFolds(if Truthy(el) then ToJsString(el) else "div");
  }

  /** `if (item.style)`: a string becomes `cssText`, an object is assigned,
      anything else is ignored. */
  function StyleOf(item: JsValue): (st: Style)
    ensures st.CssText? <==> Get(item, "style").Str? && Get(item, "style").s != ""
    ensures st.CssText? ==> st.text == Get(item, "style").s
    ensures st.StyleObject? <==> Get(item, "style").Arr? || Get(item, "style").Obj?
    ensures st.StyleObject? ==> st.value == Get(item, "style")
  {
    var st := Get(item, "style");
    if !Truthy(st) then NoStyle
    else if st.Str? then CssText(st.s)
    else if IsObjectType(st) then StyleObject(st)
    else NoStyle
  }

  /** The fields with their keys folded as `setAttribute` folds them. */
  function LowerKeys(fields: seq<Field>): (r: seq<Field>)
    ensures |r| == |fields|
    ensures forall i :: 0 <= i < |fields| ==> r[i] == Field(AsciiLower(fields[i].key), fields[i].value)
  {
    seq(|fields|, i requires 0 <= i < |fields| => Field(AsciiLower(fields[i].key), fields[i].value))
  }

  /** `setAttribute(key, val)` for each field in order: the name is folded to
      lowercase and the value goes through `String(val)`. */
  function SetAttributes(attrs: map<string, string>, fields: seq<Field>): map<string, string>
  {
    if fields == [] then attrs
    else
      var last := fields[|fields| - 1];
      SetAttributes(attrs, fields[..|fields| - 1])[AsciiLower(last.key) := ToJsString(last.value)]
  }

  /** Setting attributes field by field leaves, under every name, the value of
      the last field whose key folds to that name (and the old value when no
      field does); every name added is in lowercase. */
  lemma {:induction false} SetAttributesLastWins(attrs: map<string, string>, fields: seq<Field>, key: string)
    ensures var i := FindField(LowerKeys(fields), key);
            var r := SetAttributes(attrs, fields);
            && (i >= 0 ==> key in r && r[key] == ToJsString(fields[i].value))
            && (i < 0 ==> (key in r <==> key in attrs) && (key in attrs ==> r[key] == attrs[key]))
            && (key in r && key !in attrs ==> NoUpper(key))
    decreases |fields|
  {
    if fields != [] {
      var init := fields[..|fields| - 1];
      SetAttributesLastWins(attrs, init, key);
      assert LowerKeys(fields)[..|fields| - 1] == LowerKeys(init);
      if AsciiLower(fields[|fields| - 1].key) != key {
        assert FindField(LowerKeys(fields), key) == FindField(LowerKeys(init), key);
      } else {
        AsciiLowerFolds(fields[|fields| - 1].key);
      }
    }
  }

  /** Names differing only in case are one attribute: folding the keys first
      changes nothing. */
  lemma {:induction false} SetAttributesCaseInsensitive(attrs: map<string, string>, fields: seq<Field>)
    ensures SetAttributes(attrs, LowerKeys(fields)) == SetAttributes(attrs, fields)
    decreases |fields|
  {
    if fields != [] {
      var init := fields[..|fields| - 1];
      SetAttributesCaseInsensitive(attrs, init);
      assert LowerKeys(fields)[..|fields| - 1] == LowerKeys(init);
      AsciiLowerFolds(fields[|fields| - 1].key);
    }
  }

  lemma {:induction false} SetAttributesAppend(attrs: map<string, string>, a: seq<Field>, b: seq<Field>)
    ensures SetAttributes(attrs, a + b) == SetAttributes(SetAttributes(attrs, a), b)
    decreases |b|
  {
    if b != [] {
      var init := b[..|b| - 1];
      assert (a + b)[..|a + b| - 1] == a + init;
      assert (a + b)[|a + b| - 1] == b[|b| - 1];
      SetAttributesAppend(attrs, a, init);
    } else {
      assert a + b == a;
    }
  }

  /** `item.props.forEach(prop => Object.entries(prop).forEach(setAttribute))`.
      `None` is the TypeError `Object.entries` throws on a null or undefined prop. */
  function ApplyProps(attrs: map<string, string>, props: seq<JsValue>): Option<map<string, string>>
  {
    if props == [] then Some(attrs)
    else
      match ApplyProps(attrs, props[..|props| - 1])
      case None => None
      case Some(before) =>
        match Entries(props[|props| - 1])
        case None => None
        case Some(fields) => Some(SetAttributes(before, fields))
  }

  /** The fields of all props, in application order; `None` if one of them throws. */
  function AllEntries(props: seq<JsValue>): Option<seq<Field>>
  {
    if props == [] then Some([])
    else
      match AllEntries(props[..|props| - 1])
      case None => None
      case Some(before) =>
        match Entries(props[|props| - 1])
        case None => None
        case Some(fields) => Some(before + fields)
  }

  /** Applying the props one by one is setting all their fields in one pass;
      it throws exactly when some prop is null or undefined. */
  lemma {:induction false} ApplyPropsFlattens(attrs: map<string, string>, props: seq<JsValue>)
    ensures AllEntries(props).None? <==> exists i :: 0 <= i < |props| && (props[i].Null? || props[i].Undef?)
    ensures AllEntries(props).None? ==> ApplyProps(attrs, props).None?
    ensures AllEntries(props).Some? ==> ApplyProps(attrs, props) == Some(SetAttributes(attrs, AllEntries(props).value))
    decreases |props|
  {
    if props != [] {
      var init := props[..|props| - 1];
      ApplyPropsFlattens(attrs, init);
      assert forall i :: 0 <= i < |init| ==> init[i] == props[i];
      match AllEntries(init)
      case None =>
      case Some(before) =>
        match Entries(props[|props| - 1])
        case None =>
        case Some(fields) =>
          SetAttributesAppend(attrs, before, fields);
    }
  }

  /** Props are applied in order and, name by name after folding to
      lowercase, the last write wins; names never written are absent. */
  lemma PropsLastWriteWins(props: seq<JsValue>, key: string)
    requires AllEntries(props).Some?
    ensures var fields := AllEntries(props).value;
            var i := FindField(LowerKeys(fields), key);
            && ApplyProps(map[], props).Some?
            && (i >= 0 ==>
                  && key in ApplyProps(map[], props).value
                  && ApplyProps(map[], props).value[key] == ToJsString(fields[i].value))
            && (i < 0 ==> key !in ApplyProps(map[], props).value)
            && (key in ApplyProps(map[], props).value ==> NoUpper(key))
  {
    ApplyPropsFlattens(map[], props);
    SetAttributesLastWins(map[], AllEntries(props).value, key);
  }

  /** `[{Title: "a"}, {title: "b"}]` sets one attribute, `title="b"`. */
  lemma CaseFoldedProps()
    ensures ApplyProps(map[], [Obj([Field("Title", Str("a"))]), Obj([Field("title", Str("b"))])])
            == Some(map["title" := "b"])
  {
    var props := [Obj([Field("Title", Str("a"))]), Obj([Field("title", Str("b"))])];
    assert AsciiLower("Title") == "title";
    assert AsciiLower("title") == "title";
    var first := [Field("Title", Str("a"))];
    assert first[..0] == [];
    assert SetAttributes(map[], first) == map["title" := "a"];
    assert props[..1] == [Obj(first)];
    assert props[..1][..0] == [];
    assert ApplyProps(map[], props[..1]) == Some(map["title" := "a"]);
    var second := [Field("title", Str("b"))];
    assert second[..0] == [];
    assert SetAttributes(map["title" := "a"], second) == map["title" := "b"];
  }

  /** A function handler binds as is, a string is compiled (and dropped when
      compilation fails), any other value is skipped. */
  predicate Bindable(f: Field, compiles: string -> bool) {
    f.value.Func? || (f.value.Str? && compiles(f.value.s))
  }

  function BindField(f: Field, compiles: string -> bool): (b: Option<Binding>)
    ensures b.Some? <==> Bindable(f, compiles)
    ensures b.Some? ==> b.value.event == f.key
  {
    match f.value
    case Func(source) => Some(Binding(f.key, Callback(source)))
    case Str(body) => if compiles(body) then Some(Binding(f.key, Compiled(body))) else None
    case _ => None
  }

  /** Number of fields that yield a listener. */
  function CountBindable(fields: seq<Field>, compiles: string -> bool): nat
  {
    if fields == [] then 0
    else (if Bindable(fields[0], compiles) then 1 else 0) + CountBindable(fields[1..], compiles)
  }

  /** The listeners one event object yields, in field order. */
  function BindFields(fields: seq<Field>, compiles: string -> bool): (bs: seq<Binding>)
    ensures |bs| == CountBindable(fields, compiles)
    ensures forall b :: b in bs ==> exists f :: f in fields && Bindable(f, compiles) && BindField(f, compiles) == Some(b)
  {
    if fields == [] then []
    else
      var rest := BindFields(fields[1..], compiles);
      match BindField(fields[0], compiles)
      case None => rest
      case Some(b) => [b] + rest
  }

  /** Outcome of the `events` loop: the listeners attached, and whether the loop
      finished (`false` when `Object.entries` threw on a null or undefined entry). */
  datatype Bound = Bound(bindings: seq<Binding>, complete: bool)

  function BindEvents(events: seq<JsValue>, compiles: string -> bool): (r: Bound)
    ensures r.complete <==> forall i :: 0 <= i < |events| ==> !(events[i].Null? || events[i].Undef?)
  {
    if events == [] then Bound([], true)
    else
      match Entries(events[0])
      case None => Bound([], false)
      case Some(fields) =>
        var rest := BindEvents(events[1..], compiles);
        Bound(BindFields(fields, compiles) + rest.bindings, rest.complete)
  }

  /** The `events` of an item: only an array is read. */
  function EventsOf(item: JsValue, compiles: string -> bool): Bound
  {
    var ev := Get(item, "events");
    if ev.Arr? then BindEvents(ev.elems, compiles) else Bound([], true)
  }

  /** The attributes of an item: only an array of props is read. */
  function AttributesOf(item: JsValue): Option<map<string, string>>
  {
    var props := Get(item, "props");
    if props.Arr? then ApplyProps(map[], props.elems) else Some(map[])
  }
}

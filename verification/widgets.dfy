/** The pieces of markup both presenters build the same way: buttons, the
    title/description head of a summary card, and the Prev / info / Next row. */
module Widgets {
  import opened JsValues
  import opened Views
  import opened Posts
  import opened Pagination

  /** A button with `textContent = caption`, `disabled`, one click listener and
      an optional `className` set afterwards. */
  function Button(caption: string, disabled: bool, action: Action, cls: Option<string>): (b: View)
    ensures b.Elem? && b.tag == "button" && b.children == TextContent(caption)
    ensures "disabled" in b.attrs <==> disabled
    ensures cls.Some? ==> "class" in b.attrs && b.attrs["class"] == cls.value
    ensures cls.None? ==> "class" !in b.attrs
    ensures b.listeners == [Binding("click", Act(action))]
  {
    var flags := if disabled then map["disabled" := ""] else map[];
    var attrs := if cls.Some? then flags["class" := cls.value] else flags;
    Elem("button", attrs, NoStyle, [Binding("click", Act(action))], TextContent(caption))
  }

  /** An element with no attributes whose `textContent` is `s`. */
  function TextElem(tag: string, s: string): View {
    Elem(tag, map[], NoStyle, [], TextContent(s))
  }

  /** A card of class `cls` whose `innerHTML` is a `text-content` block with an
      `h2` title and a `p` message. */
  function MessageCard(cls: string, title: string, message: string): View {
    Classed("div", cls, [Classed("div", "text-content", [TextElem("h2", title), TextElem("p", message)])])
  }

  /** The `h2` title and the `p` description of a summary card, each only when truthy. */
  function SummaryParts(post: Post): (parts: seq<View>)
    ensures |parts| == (if Truthy(post.title) then 1 else 0) + (if Truthy(post.description) then 1 else 0)
    ensures Truthy(post.title) ==> parts[0] == TextElem("h2", ToJsString(post.title))
    ensures Truthy(post.description) ==> parts[|parts| - 1] == TextElem("p", ToJsString(post.description))
  {
    (if Truthy(post.title) then [TextElem("h2", ToJsString(post.title))] else [])
    + (if Truthy(post.description) then [TextElem("p", ToJsString(post.description))] else [])
  }

  /** The cover tag: a video iff `cover.type === "video"`. */
  function CoverTag(post: Post): (tag: string)
    ensures tag == "video" <==> IsVideoCover(post)
    ensures tag != "video" ==> tag == "img"
  {
    if IsVideoCover(post) then "video" else "img"
  }

  /** `${page} / ${totalPages}`. */
  function PageInfo<T>(p: Paginator<T>): string {
    IntToString(p.page) + " / " + IntToString(p.totalPages)
  }

  /** The `button-container` row: Prev, the `pagination-info` text, Next. */
  function Controls<T>(p: Paginator<T>): (w: View)
    ensures w.Elem? && |w.children| == 3 && w.children[0].Elem? && w.children[2].Elem?
    ensures "disabled" in w.children[0].attrs <==> IsFirstPage(p)
    ensures "disabled" in w.children[2].attrs <==> IsLastPage(p)
    ensures w.children[0].listeners == [Binding("click", Act(GoPrev))]
    ensures w.children[2].listeners == [Binding("click", Act(GoNext))]
  {
    Classed("div", "button-container",
      [Button("Prev", IsFirstPage(p), GoPrev, None),
       Classed("div", "pagination-info", TextContent(PageInfo(p))),
       Button("Next", IsLastPage(p), GoNext, None)])
  }

  /** The info element holds exactly one text node, `page / totalPages`. */
  lemma ControlsInfo<T>(p: Paginator<T>)
    ensures Controls(p).children[1] == Classed("div", "pagination-info",
              [Text(IntToString(p.page) + " / " + IntToString(p.totalPages))])
  {
  }

  /** On a single-page paginator both buttons are disabled; on any other, at
      most one is. */
  lemma ControlsBothDisabledIff<T>(p: Paginator<T>)
    requires Valid(p)
    ensures ("disabled" in Controls(p).children[0].attrs && "disabled" in Controls(p).children[2].attrs)
            <==> p.totalPages == 1
  {
    FirstAndLast(p);
  }
}

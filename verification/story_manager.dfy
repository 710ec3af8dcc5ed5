/** `StoryManager`, the older sibling of the presenter: the same list / story
    state machine, with no listener bookkeeping, the legacy content renderer,
    and a `setData` that reverses the caller's array in place. */
module StoryManager {
  import opened JsValues
  import opened Views
  import opened Posts
  import opened Pagination
  import opened Widgets
  import opened LegacyRenderer

  /** The manager's state: `loader` is the content area, `pager` the pagination area. */
  datatype Manager = Manager(
    paginator: Paginator<Post>,
    topic: string,
    loader: Container,
    pager: Container,
    settings: map<string, TopicSettings>)

  /** The constructor: the two areas as handed in, an empty paginator of
      `perPage` items and the default topic. */
  function New(loader: Container, pager: Container, perPage: int,
               settings: map<string, TopicSettings>, defaultTopic: string): (m: Manager)
    ensures Valid(m.paginator) && m.paginator.data == [] && m.paginator.page == 1
    ensures m.paginator.perPage == if perPage >= 1 then perPage else 1
    ensures m.topic == defaultTopic
    ensures m.loader == loader && m.pager == pager && m.settings == settings
  {
    Manager(Pagination.New(Some([]), perPage), defaultTopic, loader, pager, settings)
  }

  /** A `setData` call returns the new state and the caller's array as the call leaves it. */
  datatype Updated = Updated(manager: Manager, callerList: seq<Post>)

  /** `setData(posts, topic)`: `posts.reverse()` reverses the caller's array and
      the paginator keeps that very array. */
  function SetData(m: Manager, posts: seq<Post>, topic: string): (u: Updated)
    ensures |u.callerList| == |posts|
    ensures forall i :: 0 <= i < |posts| ==> u.callerList[i] == posts[|posts| - 1 - i]
    ensures u.manager.paginator.data == u.callerList && u.manager.paginator.page == 1
    ensures Valid(u.manager.paginator) && u.manager.topic == topic
  {
    var reversed := Reverse(posts);
    Updated(RenderList(m.(paginator := Reset(m.paginator, Some(reversed)), topic := topic)), reversed)
  }

  /** Handing the same array to `setData` a second time shows it in its
      original order: the first call reversed it in place, the second call
      reverses it back. With at least two distinct ends the two pages differ. */
  lemma RepeatedSetDataFlips(m: Manager, posts: seq<Post>, topic: string)
    ensures var first := SetData(m, posts, topic);
            var second := SetData(first.manager, first.callerList, topic);
            && second.manager.paginator.data == posts
            && second.callerList == posts
            && (|posts| >= 2 && posts[0] != posts[|posts| - 1] ==>
                  first.manager.paginator.data != second.manager.paginator.data)
  {
    ReverseReverse(posts);
    var first := SetData(m, posts, topic);
    if |posts| >= 2 && posts[0] != posts[|posts| - 1] {
      assert first.manager.paginator.data[0] == posts[|posts| - 1];
    }
  }

  /** `clear()`: both areas lose their children; their display is untouched. */
  function Clear(m: Manager): (c: Manager)
    ensures c.loader.children == [] && c.pager.children == []
    ensures c.loader.display == m.loader.display && c.pager.display == m.pager.display
    ensures c.paginator == m.paginator && c.topic == m.topic && c.settings == m.settings
  {
    m.(loader := m.loader.(children := []), pager := m.pager.(children := []))
  }

  /** The legacy cover: class `post-cover` and `src`, no lazy loading. */
  function LegacyCover(post: Post): seq<View> {
    if Truthy(CoverSrc(post)) then
      [Elem(CoverTag(post), map["class" := "post-cover", "src" := ToJsString(CoverSrc(post))], NoStyle, [], [])]
    else []
  }

  /** `createPostCard(post, settings)`: head, cover, and a Read More button
      unless the topic shows full posts; a full post keeps its cover and waits
      for its content. */
  function CreatePostCard(post: Post, st: TopicSettings): View
  {
    if st.fullPosts then Classed("div", "post-card", LegacyCover(post))
    else Classed("div", "post-card",
           SummaryParts(post) + LegacyCover(post) + [Button("Read More", false, OpenStory(post.path), Some("read"))])
  }

  /** A summary card ends with Read More for the post's path; a full-post card
      holds only its cover (if any), with no title, description or button. */
  lemma PostCardShape(post: Post, st: TopicSettings)
    ensures var c := CreatePostCard(post, st);
            && c.Elem? && c.attrs == map["class" := "post-card"]
            && (st.fullPosts ==> c.children == LegacyCover(post))
            && (!st.fullPosts ==>
                  && |c.children| == |SummaryParts(post)| + |LegacyCover(post)| + 1
                  && c.children[|c.children| - 1] == Button("Read More", false, OpenStory(post.path), Some("read")))
  {
  }

  function CreateCards(posts: seq<Post>, st: TopicSettings): (cards: seq<View>)
    ensures |cards| == |posts|
    ensures forall i :: 0 <= i < |posts| ==> cards[i] == CreatePostCard(posts[i], st)
  {
    seq(|posts|, i requires 0 <= i < |posts| => CreatePostCard(posts[i], st))
  }

  /** `renderPagination()`: the button row is appended to the pagination area. */
  function RenderPagination(m: Manager): Manager
  {
    m.(pager := m.pager.(children := m.pager.children + [Controls(m.paginator)]))
  }

  /** `renderList()`. */
  function RenderList(m: Manager): Manager
  {
    var c := Clear(m);
    var st := SettingsFor(m.settings, m.topic);
    var listed := c.(loader := c.loader.(children := CreateCards(Slice(m.paginator), st)));
    if st.pagination then RenderPagination(listed.(pager := listed.pager.(display := Block)))
    else listed.(pager := listed.pager.(display := Hidden))
  }

  /** `renderList` draws one card per slice item, in order, and shows the
      pagination area ("block") with exactly the button row iff the topic asks
      for pagination, hiding it ("none") otherwise. */
  lemma ListShape(m: Manager)
    ensures var t := RenderList(m);
            var st := SettingsFor(m.settings, m.topic);
            var posts := Slice(m.paginator);
            && |t.loader.children| == |posts|
            && (forall i :: 0 <= i < |posts| ==> t.loader.children[i] == CreatePostCard(posts[i], st))
            && (t.pager.display == Block <==> st.pagination)
            && (t.pager.display == Hidden <==> !st.pagination)
            && t.pager.children == (if st.pagination then [Controls(m.paginator)] else [])
            && t.paginator == m.paginator && t.topic == m.topic
  {
  }

  const LegacyBack: View := Button("Back", false, BackToList, Some("back"))
  const NotFoundCard: View :=
    MessageCard("post-card", "Story Not Found",
                "Sorry, this story could not be loaded. It might have been removed or unavailable.")

  /** `appendBackButton()`. */
  function AppendBackButton(m: Manager): Manager {
    m.(loader := m.loader.(children := m.loader.children + [LegacyBack]))
  }

  /** `renderNotFound()`. */
  function RenderNotFound(m: Manager): Manager {
    AppendBackButton(m.(loader := m.loader.(children := m.loader.children + [NotFoundCard])))
  }

  /** `renderStory(path)` up to the `await`: only `clear()`; the pagination
      area keeps its display. */
  function StartStory(m: Manager): Manager {
    Clear(m)
  }

  /** `renderStory(path)` after the `await`. When an item throws, the call
      rejects before anything is appended. */
  function CompleteStory(m: Manager, result: FetchResult, compiles: string -> bool): Manager
  {
    match result
    case NotFound => RenderNotFound(m)
    case Found(items) =>
      match CreateAll(items, compiles)
      case None => m
      case Some(kids) =>
        AppendBackButton(m.(loader := m.loader.(children := m.loader.children + [Classed("div", "story-content", kids)])))
  }

  /** A story that is not found leaves exactly the not-found card and Back. */
  lemma StoryNotFoundView(m: Manager, compiles: string -> bool)
    ensures CompleteStory(StartStory(m), NotFound, compiles).loader.children == [NotFoundCard, LegacyBack]
    ensures CompleteStory(StartStory(m), NotFound, compiles).pager == Clear(m).pager
  {
  }

  /** A story whose items all render leaves the `story-content` wrapper with
      one child per item, in order, and Back; one whose items throw leaves the
      area empty. */
  lemma StoryFoundView(m: Manager, items: seq<JsValue>, compiles: string -> bool)
    ensures var t := CompleteStory(StartStory(m), Found(items), compiles);
            var kids := CreateAll(items, compiles);
            && (kids.Some? ==>
                  && |t.loader.children| == 2 && t.loader.children[1] == LegacyBack
                  && t.loader.children[0] == Classed("div", "story-content", kids.value)
                  && |kids.value| == |items|
                  && forall i :: 0 <= i < |items| ==> Some(kids.value[i]) == CreateElement(items[i], compiles))
            && (kids.None? ==> t.loader.children == [])
  {
    if CreateAll(items, compiles).Some? {
      CreateAllInOrder(items, compiles);
    }
  }

  /** `renderFullPost(card, post)` after the `await`, for the card at `index`:
      the content wrapper or the failure paragraph is appended after what the
      card already holds. */
  function ResolveFullPost(m: Manager, index: nat, result: FetchResult, compiles: string -> bool): Manager
  {
    var extra :=
      match result
      case NotFound => Some(TextElem("p", "Failed to load post."))
      case Found(items) =>
        match CreateAll(items, compiles)
        case None => None
        case Some(kids) => Some(Classed("div", "full-post-content", kids));
    if extra.Some? && index < |m.loader.children| && m.loader.children[index].Elem? then
      var card := m.loader.children[index];
      m.(loader := m.loader.(children := m.loader.children[index := card.(children := card.children + [extra.value])]))
    else m
  }

  /** A full-post card keeps its cover and gains exactly one child; no other card changes. */
  lemma FullPostAppends(m: Manager, index: nat, result: FetchResult, compiles: string -> bool)
    requires index < |m.loader.children| && m.loader.children[index].Elem?
    requires result.NotFound? || CreateAll(result.items, compiles).Some?
    ensures var t := ResolveFullPost(m, index, result, compiles);
            var before := m.loader.children[index].children;
            && |t.loader.children| == |m.loader.children|
            && t.loader.children[index].children[..|before|] == before
            && |t.loader.children[index].children| == |before| + 1
            && (result.NotFound? ==> t.loader.children[index].children[|before|] == TextElem("p", "Failed to load post."))
            && (forall j :: 0 <= j < |m.loader.children| && j != index ==> t.loader.children[j] == m.loader.children[j])
  {
  }

  /** Fetched items one of which throws reject the call before the wrapper is
      appended: the card, and everything else, is left as it was. */
  lemma FullPostThrowLeavesCard(m: Manager, index: nat, items: seq<JsValue>, compiles: string -> bool)
    requires CreateAll(items, compiles).None?
    ensures ResolveFullPost(m, index, Found(items), compiles) == m
  {
  }

  /** What a click on one of the manager's buttons does. */
  function Dispatch(m: Manager, action: Action): Manager
  {
    match action
    case GoPrev => RenderList(m.(paginator := Prev(m.paginator)))
    case GoNext => RenderList(m.(paginator := Next(m.paginator)))
    case OpenStory(_) => StartStory(m)
    case BackToList => RenderList(m)
  }

  /** Prev and Next move the paginator one page when they can and redraw the
      list with the cards of the page they land on. */
  lemma PagingRedraws(m: Manager)
    ensures var st := SettingsFor(m.settings, m.topic);
            && Dispatch(m, GoPrev).paginator == Prev(m.paginator)
            && Dispatch(m, GoNext).paginator == Next(m.paginator)
            && (m.paginator.page > 1 ==> Dispatch(m, GoPrev).paginator.page == m.paginator.page - 1)
            && (m.paginator.page < m.paginator.totalPages ==> Dispatch(m, GoNext).paginator.page == m.paginator.page + 1)
            && Dispatch(m, GoPrev).loader.children == CreateCards(Slice(Prev(m.paginator)), st)
            && Dispatch(m, GoNext).loader.children == CreateCards(Slice(Next(m.paginator)), st)
  {
    ListShape(m.(paginator := Prev(m.paginator)));
    ListShape(m.(paginator := Next(m.paginator)));
  }

  /** Back from a story redraws the list at the page it was on. */
  lemma BackRestoresList(m: Manager, result: FetchResult, compiles: string -> bool)
    ensures Dispatch(CompleteStory(StartStory(m), result, compiles), BackToList) == RenderList(m)
  {
  }
}

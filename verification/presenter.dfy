/** `DynamicContentPresenter`: owns the paginator, the active topic, the
    managed-listener list and the two containers, and moves between the list
    view and the single-story view. Every transition is a pure function; the
    asynchronous story load is split into a start and a completion phase. */
module ContentPresenter {
  import opened JsValues
  import opened Views
  import opened Posts
  import opened Pagination
  import opened Renderer
  import opened Widgets

  /** Which screen the containers show. The source keeps this implicit in the
      containers' contents; it is recorded here to state the view transitions. */
  datatype Screen = Blank | ListScreen | LoadingStory(path: JsValue) | StoryScreen | ErrorScreen | StoryAborted

  datatype Presenter = Presenter(
    paginator: Paginator<Post>,
    activeTopic: string,
    managed: seq<Managed>,
    content: Container,
    pagination: Container,
    settings: map<string, TopicSettings>,
    screen: Screen)

  /** The constructor: the two containers as handed in, an empty paginator of
      `perPage` items, the default topic, no managed listener. */
  function New(content: Container, pagination: Container, perPage: int,
               settings: map<string, TopicSettings>, defaultTopic: string): (s: Presenter)
    ensures Valid(s.paginator) && s.paginator.data == [] && s.paginator.page == 1
    ensures s.paginator.perPage == if perPage >= 1 then perPage else 1
    ensures s.managed == [] && s.activeTopic == defaultTopic
    ensures s.content == content && s.pagination == pagination && s.settings == settings
  {
    Presenter(Pagination.New(Some([]), perPage), defaultTopic, [], content, pagination, settings, Blank)
  }

  /** `cleanupManagedEvents()`: detach and forget every managed listener and
      empty both containers; nothing else changes. */
  function Cleanup(s: Presenter): (t: Presenter)
    ensures t.managed == []
    ensures t.content.children == [] && t.pagination.children == []
    ensures t.content.display == s.content.display && t.pagination.display == s.pagination.display
    ensures t.paginator == s.paginator && t.activeTopic == s.activeTopic
    ensures t.settings == s.settings && t.screen == s.screen
  {
    s.(managed := [], content := s.content.(children := []), pagination := s.pagination.(children := []))
  }

  /** `attachManagedListener(element, type, handler)`: one record more, at the end. */
  function Attach(s: Presenter, m: Managed): (t: Presenter)
    ensures |t.managed| == |s.managed| + 1
    ensures t.managed[..|s.managed|] == s.managed && t.managed[|s.managed|] == m
    ensures t.(managed := s.managed) == s
  {
    s.(managed := s.managed + [m])
  }

  function LoaderMessage(text: string): View {
    Classed("div", "loader-message", TextContent(text))
  }

  const LoadingPost: View := TextElem("h2", "Loading Post...")
  const InlineError: View := Classed("p", "error-text", TextContent("Failed to load content for this section."))
  const BackButton: View := Button("Back to List", false, BackToList, Some("back"))
  const NotFoundTitle := "Story Not Found"
  const NotFoundMessage := "Sorry, this story could not be loaded or accessed."

  /** The error card of `renderErrorState(title, message)`. */
  function ErrorCard(title: string, message: string): View {
    MessageCard("post-card error-card", title, message)
  }

  /** The cover element, when `post.cover?.src` is truthy: a video iff the type is "video". */
  function CoverPart(post: Post): seq<View> {
    if Truthy(CoverSrc(post)) then
      [Elem(CoverTag(post),
            map["class" := "post-cover", "src" := ToJsString(CoverSrc(post)), "loading" := "lazy"],
            NoStyle, [], [])]
    else []
  }

  datatype Card = Card(view: View, attached: seq<Managed>)

  /** `buildPostCard(post, settings)` for the card at position `index` of the content area.
      In full-post mode `renderInlinePostContent` immediately replaces the card's
      children with a loading heading; the fetched content arrives later. */
  function BuildPostCard(post: Post, st: TopicSettings, index: nat): Card
  {
    var head := (if st.fullPosts then [] else SummaryParts(post)) + CoverPart(post);
    if st.fullPosts then Card(Classed("div", "post-card", [LoadingPost]), [])
    else
      Card(Classed("div", "post-card", head + [Button("Read More", false, OpenStory(post.path), Some("read"))]),
           [Managed(NodeRef(ContentArea, [index, |head|]), "click", Act(OpenStory(post.path)))])
  }

  /** A summary card shows the title and the description only when truthy, the
      cover as video iff its type is "video", and ends with Read More for the
      post's path; a full-post card shows only the loading heading. */
  lemma PostCardShape(post: Post, st: TopicSettings, index: nat)
    ensures var c := BuildPostCard(post, st, index).view;
            && c.Elem? && c.tag == "div" && c.attrs["class"] == "post-card"
            && (st.fullPosts ==> c.children == [LoadingPost] && BuildPostCard(post, st, index).attached == [])
            && (!st.fullPosts ==>
                  var n := |c.children|;
                  && n == (if Truthy(post.title) then 1 else 0) + (if Truthy(post.description) then 1 else 0)
                          + (if Truthy(CoverSrc(post)) then 1 else 0) + 1
                  && c.children[n - 1] == Button("Read More", false, OpenStory(post.path), Some("read"))
                  && (Truthy(post.title) ==> c.children[0] == TextElem("h2", ToJsString(post.title)))
                  && (Truthy(CoverSrc(post)) ==> c.children[n - 2].tag == CoverTag(post))
                  && BuildPostCard(post, st, index).attached
                       == [Managed(NodeRef(ContentArea, [index, n - 1]), "click", Act(OpenStory(post.path)))])
  {
  }

  datatype Cards = Cards(views: seq<View>, records: seq<Managed>)

  /** The cards of `posts`, the first one at position `from`, with their records in order. */
  function BuildCards(posts: seq<Post>, st: TopicSettings, from: nat): (r: Cards)
    ensures |r.views| == |posts|
  {
    JoinCards(seq(|posts|, i requires 0 <= i < |posts| => BuildPostCard(posts[i], st, from + i)))
  }

  /** Card `i` of a run is the card built for post `i` at its own position. */
  lemma BuildCardsAt(posts: seq<Post>, st: TopicSettings, from: nat, i: nat)
    requires i < |posts|
    ensures BuildCards(posts, st, from).views[i] == BuildPostCard(posts[i], st, from + i).view
  {
    var cs := seq(|posts|, i requires 0 <= i < |posts| => BuildPostCard(posts[i], st, from + i));
    assert cs[i] == BuildPostCard(posts[i], st, from + i);
  }

  /** Appending cards one after another: their views in order, and their
      records in order. */
  function JoinCards(cs: seq<Card>): (r: Cards)
    ensures |r.views| == |cs|
    ensures forall i :: 0 <= i < |cs| ==> r.views[i] == cs[i].view
  {
    if cs == [] then Cards([], [])
    else
      var rest := JoinCards(cs[1..]);
      Cards([cs[0].view] + rest.views, cs[0].attached + rest.records)
  }

  const PrevRecord := Managed(NodeRef(PaginationArea, [0, 0]), "click", Act(GoPrev))
  const NextRecord := Managed(NodeRef(PaginationArea, [0, 2]), "click", Act(GoNext))

  /** `renderPaginationControls()`: replaces the pagination children by the button row. */
  function RenderPaginationControls(s: Presenter): Presenter
  {
    Attach(Attach(s.(pagination := s.pagination.(children := [Controls(s.paginator)])), PrevRecord), NextRecord)
  }

  /** The Prev and Next handlers move the paginator one page (when it can
      move) and redraw the list. */
  lemma ControlHandlers(s: Presenter)
    ensures Dispatch(s, GoPrev) == RenderPostList(s.(paginator := Prev(s.paginator)))
    ensures Dispatch(s, GoNext) == RenderPostList(s.(paginator := Next(s.paginator)))
    ensures s.paginator.page > 1 ==> Dispatch(s, GoPrev).paginator.page == s.paginator.page - 1
    ensures s.paginator.page < s.paginator.totalPages ==> Dispatch(s, GoNext).paginator.page == s.paginator.page + 1
  {
    PostListShape(s.(paginator := Prev(s.paginator)));
    PostListShape(s.(paginator := Next(s.paginator)));
  }

  /** `renderPostList()`: clean up, draw one card per item of the current page,
      then show the controls (display "flex") or hide the pagination area. */
  function RenderPostList(s: Presenter): Presenter
  {
    var c := Cleanup(s);
    var st := SettingsFor(s.settings, s.activeTopic);
    var cards := BuildCards(Slice(s.paginator), st, 0);
    var listed := c.(content := c.content.(children := cards.views), managed := cards.records, screen := ListScreen);
    if st.pagination then RenderPaginationControls(listed.(pagination := listed.pagination.(display := Flex)))
    else listed.(pagination := listed.pagination.(display := Hidden))
  }

  /** What `renderPostList` leaves behind: one card per slice item, in order;
      the pagination area shown with its controls iff the topic asks for
      pagination; the listener list holding exactly the new cards' Read More
      records followed by Prev and Next. An unknown topic gets summary cards
      and no pagination. */
  lemma PostListShape(s: Presenter)
    ensures var t := RenderPostList(s);
            var st := SettingsFor(s.settings, s.activeTopic);
            var posts := Slice(s.paginator);
            && |t.content.children| == |posts|
            && (forall i :: 0 <= i < |posts| ==> t.content.children[i] == BuildPostCard(posts[i], st, i).view)
            && (t.pagination.display == Flex <==> st.pagination)
            && (t.pagination.display == Hidden <==> !st.pagination)
            && t.pagination.children == (if st.pagination then [Controls(s.paginator)] else [])
            && t.managed == BuildCards(posts, st, 0).records + (if st.pagination then [PrevRecord, NextRecord] else [])
            && t.paginator == s.paginator && t.activeTopic == s.activeTopic && t.screen == ListScreen
    ensures s.activeTopic !in s.settings ==>
              RenderPostList(s).pagination.display == Hidden && !SettingsFor(s.settings, s.activeTopic).fullPosts
  {
    var st := SettingsFor(s.settings, s.activeTopic);
    var posts := Slice(s.paginator);
    forall i | 0 <= i < |posts| ensures BuildCards(posts, st, 0).views[i] == BuildPostCard(posts[i], st, i).view {
      BuildCardsAt(posts, st, 0, i);
    }
  }

  /** Whatever was drawn or tracked before has no influence on a list render:
      the cleanup happens before anything new is attached. */
  lemma PostListForgetsPast(s1: Presenter, s2: Presenter)
    requires s1.paginator == s2.paginator && s1.activeTopic == s2.activeTopic && s1.settings == s2.settings
    requires s1.content.display == s2.content.display
    ensures RenderPostList(s1) == RenderPostList(s2)
  {
  }

  /** `setData(list, topic)`: the caller's list is read, not changed; the
      paginator shows it newest-first from page 1 under the new topic. */
  function SetData(s: Presenter, list: seq<Post>, topic: string): (t: Presenter)
    ensures t.paginator.data == Reverse(list) && t.paginator.page == 1
    ensures t.paginator.perPage == s.paginator.perPage && Valid(t.paginator)
    ensures t.activeTopic == topic && t.screen == ListScreen
  {
    var c := Cleanup(s);
    RenderPostList(c.(paginator := Reset(s.paginator, Some(Reverse(list))), activeTopic := topic))
  }

  /** Giving the same list twice shows the same thing: the list is not reversed in place. */
  lemma SetDataRepeatable(s: Presenter, list: seq<Post>, topic: string)
    ensures SetData(SetData(s, list, topic), list, topic) == SetData(s, list, topic)
  {
  }

  /** With three posts A, B, C and two per page, page 1 shows C, B and page 2
      shows A; only page 2 is the last page. */
  lemma NewestFirstExample(s: Presenter, a: Post, b: Post, c: Post, topic: string)
    requires s.paginator.perPage == 2
    ensures var p := SetData(s, [a, b, c], topic).paginator;
            && Slice(p) == [c, b] && !IsLastPage(p)
            && Slice(Next(p)) == [a] && IsLastPage(Next(p))
  {
    var p := SetData(s, [a, b, c], topic).paginator;
    ReverseThree(a, b, c);
    TwoPagesOfThree(p);
    assert [c, b, a][..2] == [c, b] && [c, b, a][2..] == [a];
  }

  lemma ReverseThree<T>(a: T, b: T, c: T)
    ensures Reverse([a, b, c]) == [c, b, a]
  {
    var r := Reverse([a, b, c]);
    assert r[0] == c && r[1] == b && r[2] == a;
  }

  lemma TwoPagesOfThree<T>(p: Paginator<T>)
    requires Valid(p) && |p.data| == 3 && p.perPage == 2 && p.page == 1
    ensures Slice(p) == p.data[..2] && !IsLastPage(p)
    ensures Slice(Next(p)) == p.data[2..] && IsLastPage(Next(p))
  {
    assert p.totalPages == 2;
  }

  /** `renderSingleStoryView(path)` up to the `await`: clean up, hide the
      pagination area, show the loading message. */
  function StartSingleStory(s: Presenter, path: JsValue): (t: Presenter)
    ensures t.managed == [] && t.pagination.children == [] && t.pagination.display == Hidden
    ensures t.content.children == [LoaderMessage("Loading story content...")]
    ensures t.paginator == s.paginator && t.activeTopic == s.activeTopic
    ensures t.screen == LoadingStory(path)
  {
    var c := Cleanup(s);
    c.(pagination := c.pagination.(display := Hidden),
       content := c.content.(children := [LoaderMessage("Loading story content...")]),
       screen := LoadingStory(path))
  }

  /** `appendBackButton()`. */
  function AppendBackButton(s: Presenter): Presenter
  {
    var at := NodeRef(ContentArea, [|s.content.children|]);
    Attach(s.(content := s.content.(children := s.content.children + [BackButton])), Managed(at, "click", Act(BackToList)))
  }

  /** `renderErrorState(title, message)`. */
  function RenderErrorState(s: Presenter, title: string, message: string): Presenter
  {
    AppendBackButton(s.(content := s.content.(children := s.content.children + [ErrorCard(title, message)])))
  }

  /** `renderSingleStoryView(path)` after the `await`: clear the loader, then
      either the error card or the `story-content` wrapper, then Back. A root
      item whose rendering throws rejects the call: nothing is appended, but
      the listeners attached so far stay recorded. */
  function CompleteSingleStory(s: Presenter, result: FetchResult, compiles: string -> bool): Presenter
  {
    var cleared := s.(content := s.content.(children := []));
    match result
    case NotFound => RenderErrorState(cleared, NotFoundTitle, NotFoundMessage).(screen := ErrorScreen)
    case Found(items) =>
      var r := RenderItems(items, NodeRef(ContentArea, [0]), 0, compiles);
      var recorded := cleared.(managed := cleared.managed + r.attached);
      if r.complete then
        AppendBackButton(recorded.(content := recorded.content.(children := [Classed("div", "story-content", r.nodes)])))
          .(screen := StoryScreen)
      else recorded.(screen := StoryAborted)
  }

  /** A load that comes back not-found ends on the error screen holding exactly
      the error card and Back, with Back the only listener. */
  lemma NotFoundEndsInErrorView(s: Presenter, path: JsValue, compiles: string -> bool)
    ensures var t := CompleteSingleStory(StartSingleStory(s, path), NotFound, compiles);
            && t.screen == ErrorScreen
            && t.content.children == [ErrorCard(NotFoundTitle, NotFoundMessage), BackButton]
            && t.managed == [Managed(NodeRef(ContentArea, [1]), "click", Act(BackToList))]
            && t.pagination.display == Hidden
  {
  }

  /** A load that comes back with items ends on the story screen holding the
      wrapper and Back, whenever no item throws: the wrapper holds one node per
      item (each the rendering of its item, by `Renderer.RenderItemsInOrder`),
      and the listener list the items' records followed by Back's. */
  lemma FoundEndsInStoryView(s: Presenter, path: JsValue, items: seq<JsValue>, compiles: string -> bool)
    requires RenderItems(items, NodeRef(ContentArea, [0]), 0, compiles).complete
    ensures var t := CompleteSingleStory(StartSingleStory(s, path), Found(items), compiles);
            var r := RenderItems(items, NodeRef(ContentArea, [0]), 0, compiles);
            && t.screen == StoryScreen
            && t.content.children == [Classed("div", "story-content", r.nodes), BackButton]
            && |r.nodes| == |items|
            && t.managed == r.attached + [Managed(NodeRef(ContentArea, [1]), "click", Act(BackToList))]
  {
    var r := RenderItems(items, NodeRef(ContentArea, [0]), 0, compiles);
    var t0 := StartSingleStory(s, path);
    var cleared := t0.(content := t0.content.(children := []));
    var recorded := cleared.(managed := cleared.managed + r.attached);
    var wrapped := recorded.(content := recorded.content.(children := [Classed("div", "story-content", r.nodes)]));
    assert CompleteSingleStory(t0, Found(items), compiles) == AppendBackButton(wrapped).(screen := StoryScreen);
    assert t0.managed == [];
  }

  /** `renderInlinePostContent(card, post)` after the `await`, for the card at
      `index`: its children become the error paragraph or the rendered items
      (those appended before a throw). A card no longer on screen only gains
      the listener records. */
  function ResolveInlinePost(s: Presenter, index: nat, result: FetchResult, compiles: string -> bool): Presenter
  {
    var r := if result.Found? then RenderItems(result.items, NodeRef(ContentArea, [index]), 0, compiles)
             else RenderedList([], true, []);
    var recorded := s.(managed := s.managed + r.attached);
    if index < |s.content.children| && s.content.children[index].Elem? then
      var card := s.content.children[index];
      var filled := card.(children := if result.Found? then r.nodes else [InlineError]);
      recorded.(content := recorded.content.(children := s.content.children[index := filled]))
    else recorded
  }

  /** Resolving a full post touches only its own card: the card keeps its tag
      and attributes and its children become the error paragraph or the
      rendered items; the items' records are appended to the managed list;
      every other card and the pagination area are unchanged. */
  lemma InlinePostShape(s: Presenter, index: nat, result: FetchResult, compiles: string -> bool)
    requires index < |s.content.children| && s.content.children[index].Elem?
    ensures var t := ResolveInlinePost(s, index, result, compiles);
            var card := t.content.children[index];
            && |t.content.children| == |s.content.children|
            && (forall j :: 0 <= j < |s.content.children| && j != index ==> t.content.children[j] == s.content.children[j])
            && card.Elem? && card.tag == s.content.children[index].tag && card.attrs == s.content.children[index].attrs
            && (result.NotFound? ==> card.children == [InlineError] && t.managed == s.managed)
            && (result.Found? ==>
                  var r := RenderItems(result.items, NodeRef(ContentArea, [index]), 0, compiles);
                  card.children == r.nodes && t.managed == s.managed + r.attached)
            && t.pagination == s.pagination && t.paginator == s.paginator
  {
  }

  /** What a click on one of the presenter's own buttons does. */
  function Dispatch(s: Presenter, action: Action): Presenter
  {
    match action
    case GoPrev => RenderPostList(s.(paginator := Prev(s.paginator)))
    case GoNext => RenderPostList(s.(paginator := Next(s.paginator)))
    case OpenStory(path) => StartSingleStory(s, path)
    case BackToList => RenderPostList(s)
  }

  /** Back from a story redraws the page the list was on, without refetching. */
  lemma BackRestoresList(s: Presenter, path: JsValue, result: FetchResult, compiles: string -> bool)
    ensures var story := CompleteSingleStory(StartSingleStory(s, path), result, compiles);
            Dispatch(story, BackToList) == RenderPostList(s)
  {
    var story := CompleteSingleStory(StartSingleStory(s, path), result, compiles);
    PostListForgetsPast(story, s.(content := s.content.(display := story.content.display)));
    PostListForgetsPast(s, s.(content := s.content.(display := story.content.display)));
  }

  /** Loading or resolving content never moves the paginator. */
  lemma ContentKeepsPaginator(s: Presenter, path: JsValue, index: nat, result: FetchResult, compiles: string -> bool)
    ensures CompleteSingleStory(StartSingleStory(s, path), result, compiles).paginator == s.paginator
    ensures ResolveInlinePost(s, index, result, compiles).paginator == s.paginator
    ensures CompleteSingleStory(StartSingleStory(s, path), result, compiles).activeTopic == s.activeTopic
  {
    var t0 := StartSingleStory(s, path);
    match result
    case NotFound =>
    case Found(items) =>
      var r := RenderItems(items, NodeRef(ContentArea, [0]), 0, compiles);
      var cleared := t0.(content := t0.content.(children := []));
      var recorded := cleared.(managed := cleared.managed + r.attached);
      if r.complete {
        var wrapped := recorded.(content := recorded.content.(children := [Classed("div", "story-content", r.nodes)]));
        assert CompleteSingleStory(t0, result, compiles) == AppendBackButton(wrapped).(screen := StoryScreen);
      } else {
        assert CompleteSingleStory(t0, result, compiles) == recorded.(screen := StoryAborted);
      }
  }

  /** Every transition keeps the paginator invariant. */
  lemma TransitionsKeepPaginatorValid(s: Presenter, a: Action, path: JsValue, list: seq<Post>, topic: string,
                                      index: nat, result: FetchResult, compiles: string -> bool)
    requires Valid(s.paginator)
    ensures Valid(Dispatch(s, a).paginator)
    ensures Valid(SetData(s, list, topic).paginator)
    ensures Valid(CompleteSingleStory(StartSingleStory(s, path), result, compiles).paginator)
    ensures Valid(ResolveInlinePost(s, index, result, compiles).paginator)
  {
    NavigationPreservesValid(s.paginator, 0);
    ContentKeepsPaginator(s, path, index, result, compiles);
    match a
    case GoPrev => PostListShape(s.(paginator := Prev(s.paginator)));
    case GoNext => PostListShape(s.(paginator := Next(s.paginator)));
    case OpenStory(_) =>
    case BackToList => PostListShape(s);
  }

  /** Every record in `managed` names an element, in the content area
      `content` or the pagination area `pagination`, that carries exactly that
      listener. */
  predicate TrackedIn(content: seq<View>, pagination: seq<View>, managed: seq<Managed>) {
    forall m :: m in managed ==>
      LocatedAmong(if m.target.area == ContentArea then content else pagination, NodeRef(m.target.area, []), 0, m)
  }

  /** The presenter's managed list describes listeners that exist on screen,
      so `cleanupManagedEvents` removes listeners that are really attached. */
  predicate Tracked(s: Presenter) {
    TrackedIn(s.content.children, s.pagination.children, s.managed)
  }

  lemma TrackedInAppend(content: seq<View>, pagination: seq<View>, a: seq<Managed>, b: seq<Managed>)
    requires TrackedIn(content, pagination, a) && TrackedIn(content, pagination, b)
    ensures TrackedIn(content, pagination, a + b)
  {
  }

  /** A card's only record, its Read More button, is the card's last child. */
  lemma CardLocated(post: Post, st: TopicSettings, index: nat)
    ensures var card := BuildPostCard(post, st, index);
            forall m :: m in card.attached ==> LocatedAmong([card.view], NodeRef(ContentArea, []), index, m)
  {
    var card := BuildPostCard(post, st, index);
    PostCardShape(post, st, index);
    forall m | m in card.attached ensures LocatedAmong([card.view], NodeRef(ContentArea, []), index, m) {
      var n := |card.view.children|;
      assert m.target.path == [index, n - 1];
      assert Below(m.target, NodeRef(ContentArea, [])) == [index, n - 1];
      assert [index, n - 1][1..] == [n - 1];
      ViewAtChild(card.view, n - 1, []);
    }
  }

  /** Each card's records lie in that card, placed at its own position. */
  predicate CardLocatedAt(c: Card, from: nat) {
    forall m :: m in c.attached ==> LocatedAmong([c.view], NodeRef(ContentArea, []), from, m)
  }

  /** The records of a run of cards sit in the cards that own them. */
  lemma {:induction false} JoinLocated(cs: seq<Card>, from: nat)
    requires forall k :: 0 <= k < |cs| ==> CardLocatedAt(cs[k], from + k)
    ensures forall m :: m in JoinCards(cs).records ==> LocatedAmong(JoinCards(cs).views, NodeRef(ContentArea, []), from, m)
    decreases |cs|
  {
    if cs != [] {
      var r := JoinCards(cs);
      var rest := JoinCards(cs[1..]);
      forall k | 0 <= k < |cs[1..]| ensures CardLocatedAt(cs[1..][k], from + 1 + k) {
        assert cs[1..][k] == cs[k + 1] && from + 1 + k == from + (k + 1);
      }
      JoinLocated(cs[1..], from + 1);
      assert CardLocatedAt(cs[0], from);
      assert r.views == [cs[0].view] + rest.views && r.records == cs[0].attached + rest.records;
      forall m | m in r.records ensures LocatedAmong(r.views, NodeRef(ContentArea, []), from, m) {
        if m in cs[0].attached {
          assert LocatedAmong([cs[0].view], NodeRef(ContentArea, []), from, m);
          LocatedHead(cs[0].view, rest.views, NodeRef(ContentArea, []), from, m);
        } else {
          assert m in rest.records;
          LocatedShift(cs[0].view, rest.views, NodeRef(ContentArea, []), from, m);
        }
      }
    }
  }

  /** The Read More records of a run of cards sit on the cards' last children. */
  lemma CardsLocated(posts: seq<Post>, st: TopicSettings, from: nat)
    ensures var r := BuildCards(posts, st, from);
            forall m :: m in r.records ==> LocatedAmong(r.views, NodeRef(ContentArea, []), from, m)
  {
    var cs := seq(|posts|, i requires 0 <= i < |posts| => BuildPostCard(posts[i], st, from + i));
    forall k | 0 <= k < |cs| ensures CardLocatedAt(cs[k], from + k) {
      CardLocated(posts[k], st, from + k);
    }
    JoinLocated(cs, from);
  }

  lemma CardsTracked(posts: seq<Post>, st: TopicSettings, pagination: seq<View>)
    ensures TrackedIn(BuildCards(posts, st, 0).views, pagination, BuildCards(posts, st, 0).records)
  {
    CardsLocated(posts, st, 0);
  }

  lemma ControlsTracked<T>(content: seq<View>, p: Paginator<T>)
    ensures TrackedIn(content, [Controls(p)], [PrevRecord, NextRecord])
  {
    var w := Controls(p);
    var root := NodeRef(PaginationArea, []);
    assert LocatedAmong([w], root, 0, PrevRecord) by {
      assert Below(PrevRecord.target, root) == [0, 0] && [0, 0][1..] == [0];
      ViewAtChild(w, 0, []);
    }
    assert LocatedAmong([w], root, 0, NextRecord) by {
      assert Below(NextRecord.target, root) == [0, 2] && [0, 2][1..] == [2];
      ViewAtChild(w, 2, []);
    }
  }

  /** A list render leaves every record on its element. */
  lemma ListTracked(s: Presenter)
    ensures Tracked(RenderPostList(s))
  {
    var t := RenderPostList(s);
    var st := SettingsFor(s.settings, s.activeTopic);
    var posts := Slice(s.paginator);
    var cards := BuildCards(posts, st, 0);
    PostListShape(s);
    assert t.content.children == cards.views;
    CardsTracked(posts, st, t.pagination.children);
    if st.pagination {
      ControlsTracked(cards.views, s.paginator);
      TrackedInAppend(cards.views, t.pagination.children, cards.records, [PrevRecord, NextRecord]);
    }
  }

  /** The records of a story's items sit inside the `story-content` wrapper,
      the first child of the content area. */
  lemma StoryItemsTracked(r: RenderedList, pagination: seq<View>, rest: seq<View>)
    requires forall m :: m in r.attached ==> LocatedAmong(r.nodes, NodeRef(ContentArea, [0]), 0, m)
    ensures TrackedIn([Classed("div", "story-content", r.nodes)] + rest, pagination, r.attached)
  {
    var at := NodeRef(ContentArea, [0]);
    var wrapper := Classed("div", "story-content", r.nodes);
    forall m | m in r.attached
      ensures LocatedAmong([wrapper] + rest, NodeRef(ContentArea, []), 0, m)
    {
      var p := Below(m.target, at);
      var q := m.target.path;
      assert q == [0] + p;
      assert Below(m.target, NodeRef(ContentArea, [])) == q;
      assert q[1..] == p;
      assert p == [p[0]] + p[1..];
      ViewAtChild(wrapper, p[0], p[1..]);
    }
  }

  lemma BackTracked(content: seq<View>, pagination: seq<View>)
    requires |content| >= 2 && content[1] == BackButton
    ensures TrackedIn(content, pagination, [Managed(NodeRef(ContentArea, [1]), "click", Act(BackToList))])
  {
    var back := Managed(NodeRef(ContentArea, [1]), "click", Act(BackToList));
    assert Below(back.target, NodeRef(ContentArea, [])) == [1];
  }

  /** A story that loads without a throw, or an error screen, leaves every
      record on its element. */
  lemma StoryTracked(s: Presenter, path: JsValue, result: FetchResult, compiles: string -> bool)
    requires result.Found? ==> RenderItems(result.items, NodeRef(ContentArea, [0]), 0, compiles).complete
    ensures Tracked(CompleteSingleStory(StartSingleStory(s, path), result, compiles))
  {
    var t := CompleteSingleStory(StartSingleStory(s, path), result, compiles);
    if result.NotFound? {
      NotFoundEndsInErrorView(s, path, compiles);
      BackTracked(t.content.children, t.pagination.children);
    } else {
      var at := NodeRef(ContentArea, [0]);
      var r := RenderItems(result.items, at, 0, compiles);
      FoundEndsInStoryView(s, path, result.items, compiles);
      RenderItemsLocated(result.items, at, 0, compiles);
      StoryItemsTracked(r, t.pagination.children, [BackButton]);
      BackTracked(t.content.children, t.pagination.children);
      TrackedInAppend(t.content.children, t.pagination.children, r.attached,
                      [Managed(NodeRef(ContentArea, [1]), "click", Act(BackToList))]);
    }
  }

  /** When a story item throws, the listeners attached before the throw stay in
      the managed list although their elements never reach the page. */
  lemma AbortedStoryUntracked(s: Presenter, path: JsValue, items: seq<JsValue>, compiles: string -> bool)
    requires !RenderItems(items, NodeRef(ContentArea, [0]), 0, compiles).complete
    requires RenderItems(items, NodeRef(ContentArea, [0]), 0, compiles).attached != []
    ensures var t := CompleteSingleStory(StartSingleStory(s, path), Found(items), compiles);
            t.screen == StoryAborted && t.content.children == [] && !Tracked(t)
  {
    var t := CompleteSingleStory(StartSingleStory(s, path), Found(items), compiles);
    var r := RenderItems(items, NodeRef(ContentArea, [0]), 0, compiles);
    var m := r.attached[0];
    RenderItemsWithin(items, NodeRef(ContentArea, [0]), 0, compiles);
    assert m.target.area == ContentArea;
    assert t.managed == r.attached;
    assert m in t.managed && t.content.children == [];
  }

  /** Every button click leaves the presenter tracked. */
  lemma DispatchTracked(s: Presenter, a: Action)
    ensures Tracked(Dispatch(s, a))
  {
    match a
    case GoPrev => ListTracked(s.(paginator := Prev(s.paginator)));
    case GoNext => ListTracked(s.(paginator := Next(s.paginator)));
    case OpenStory(path) =>
    case BackToList => ListTracked(s);
  }
}

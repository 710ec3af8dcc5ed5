/** `ApplicationKernel`: loads the newest monthly index of the selected topic
    into the presenter, guards topic and language changes, toggles the
    navigation menu and loads single stories. Fetches and code evaluation are
    oracles passed in by the caller. */
module Kernel {
  import opened JsValues
  import opened Views
  import opened Posts
  import opened ContentPresenter
  import opened AppStates
  import opened Probing
  import opened JsStrings
  import opened Pagination

  /** The menu button: its classes and its `aria-expanded` attribute. */
  datatype MenuButton = MenuButton(classes: set<string>, ariaExpanded: Option<string>)

  /** The `nav` element's classes and the menu button; either may be absent from the page. */
  datatype NavControls = NavControls(nav: Option<set<string>>, menu: Option<MenuButton>)

  datatype Kernel = Kernel(state: AppState, presenter: Presenter, controls: NavControls)

  /** `showLoaderMessage(message)`: the content area holds only the message. */
  function ShowLoaderMessage(p: Presenter, message: string): (q: Presenter)
    ensures q.content.children == [LoaderMessage(message)]
    ensures q.(content := p.content) == p
  {
    p.(content := p.content.(children := [LoaderMessage(message)]))
  }

  function FetchingMessage(topic: string): string {
    "Fetching metadata for topic: \"" + topic + "\"..."
  }

  function NoIndexMessage(topic: string): string {
    "No index structure found for topic: \"" + topic + "\"."
  }

  function NoPostsMessage(topic: string): string {
    "No posts available for topic: \"" + topic + "\"."
  }

  /** The index at `probe` answers with at least one post. */
  predicate Hit(indexAt: string -> Option<seq<Post>>, lang: string, topic: string, probe: Probe) {
    var r := indexAt(IndexUrl(lang, topic, probe.year, probe.month));
    r.Some? && |r.value| > 0
  }

  /** `probes[i]` is the first probe whose index has posts. */
  predicate FirstHit(indexAt: string -> Option<seq<Post>>, lang: string, topic: string, probes: seq<Probe>, i: int) {
    && 0 <= i < |probes| && Hit(indexAt, lang, topic, probes[i])
    && forall j :: 0 <= j < i ==> !Hit(indexAt, lang, topic, probes[j])
  }

  /** The posts of the index at `probe`, as fetched. */
  function PostsAt(indexAt: string -> Option<seq<Post>>, lang: string, topic: string, probe: Probe): Option<seq<Post>> {
    indexAt(IndexUrl(lang, topic, probe.year, probe.month))
  }

  /** The probing loop: the index files are fetched in the given order up to
      and including the first one with posts, which is returned; `None` when
      none has posts. */
  method FirstPosts(probes: seq<Probe>, lang: string, topic: string, indexAt: string -> Option<seq<Post>>)
    returns (found: Option<seq<Post>>)
    ensures found.None? <==> forall i :: 0 <= i < |probes| ==> !Hit(indexAt, lang, topic, probes[i])
    ensures found.Some? ==>
              exists i :: FirstHit(indexAt, lang, topic, probes, i) && PostsAt(indexAt, lang, topic, probes[i]) == found
  {
    var i := 0;
    while i < |probes|
      invariant 0 <= i <= |probes|
      invariant forall j :: 0 <= j < i ==> !Hit(indexAt, lang, topic, probes[j])
    {
      var posts := PostsAt(indexAt, lang, topic, probes[i]);
      if posts.Some? && |posts.value| > 0 {
        assert FirstHit(indexAt, lang, topic, probes, i);
        return posts;
      }
      i := i + 1;
    }
    return None;
  }

  /** `locateAndDisplayRecentPosts(topicMeta, language, topic)`: probe the index
      files newest year first, months in reverse stored order; the first one
      with posts is handed to `setData` and returned. When none has posts the
      result is null and the presenter is untouched. */
  method LocateRecentPosts(p: Presenter, meta: TopicMeta, lang: string, topic: string,
                           indexAt: string -> Option<seq<Post>>)
    returns (q: Presenter, found: Option<seq<Post>>)
    ensures var probes := ProbeOrder(meta);
            && (found.None? <==> forall i :: 0 <= i < |probes| ==> !Hit(indexAt, lang, topic, probes[i]))
            && (found.Some? ==>
                  exists i :: FirstHit(indexAt, lang, topic, probes, i) && PostsAt(indexAt, lang, topic, probes[i]) == found)
    ensures found.Some? ==> |found.value| > 0 && q == SetData(p, found.value, topic)
    ensures found.None? ==> q == p
  {
    var probes := ProbeOrder(meta);
    found := FirstPosts(probes, lang, topic, indexAt);
    if found.Some? {
      var i :| FirstHit(indexAt, lang, topic, probes, i) && PostsAt(indexAt, lang, topic, probes[i]) == found;
      q := SetData(p, found.value, topic);
    } else {
      q := p;
    }
  }

  /** `setData` draws the same thing whatever the content area held before. */
  lemma SetDataIgnoresContent(p: Presenter, children: seq<View>, list: seq<Post>, topic: string)
    ensures SetData(p.(content := p.content.(children := children)), list, topic) == SetData(p, list, topic)
  {
    var a := p.(content := p.content.(children := children));
    var ra := Reset(a.paginator, Some(Reverse(list)));
    PostListForgetsPast(Cleanup(a).(paginator := ra, activeTopic := topic), Cleanup(p).(paginator := ra, activeTopic := topic));
  }

  /** At most one probe is the first hit. */
  lemma FirstHitUnique(indexAt: string -> Option<seq<Post>>, lang: string, topic: string, probes: seq<Probe>, i: int, j: int)
    requires FirstHit(indexAt, lang, topic, probes, i) && FirstHit(indexAt, lang, topic, probes, j)
    ensures i == j
  {
  }

  /** What `fetchAndRenderLatestContent()` leaves behind when started from
      `k`. The topic and language are read once, at the start. Without
      metadata the list is emptied and the "no index" message shown; without
      any index that has posts the list is emptied and the "no posts" message
      shown; otherwise the first hit's posts are drawn. The state and the
      navigation controls are untouched. */
  ghost predicate Refreshed(k: Kernel, r: Kernel, metaAt: string -> Option<TopicMeta>, indexAt: string -> Option<seq<Post>>)
  {
    && r.state == k.state && r.controls == k.controls
    && r.presenter.activeTopic == k.state.topic && r.presenter.paginator.page == 1
    && var lang, topic := k.state.language, k.state.topic;
       var meta := metaAt(TopicMetaUrl(lang, topic));
       var probes := if meta.Some? then ProbeOrder(meta.value) else [];
       && (meta.None? || meta.value == [] ==>
             && r.presenter.paginator.data == []
             && r.presenter.content.children == [LoaderMessage(NoIndexMessage(topic))])
       && (meta.Some? && meta.value != [] && (forall i :: 0 <= i < |probes| ==> !Hit(indexAt, lang, topic, probes[i])) ==>
             && r.presenter.paginator.data == []
             && r.presenter.content.children == [LoaderMessage(NoPostsMessage(topic))])
       && (forall i :: meta.Some? && meta.value != [] && FirstHit(indexAt, lang, topic, probes, i) ==>
             r.presenter == SetData(k.presenter, PostsAt(indexAt, lang, topic, probes[i]).value, topic))
  }

  /** `fetchAndRenderLatestContent()`. */
  method Refresh(k: Kernel, metaAt: string -> Option<TopicMeta>, indexAt: string -> Option<seq<Post>>)
    returns (r: Kernel)
    ensures Refreshed(k, r, metaAt, indexAt)
  {
    var topic := k.state.topic;
    var lang := k.state.language;
    var shown := ShowLoaderMessage(k.presenter, FetchingMessage(topic));
    var meta := metaAt(TopicMetaUrl(lang, topic));
    if meta.None? || meta.value == [] {
      var p := ShowLoaderMessage(SetData(shown, [], topic), NoIndexMessage(topic));
      r := k.(presenter := p);
      assert r.presenter.paginator.data == [];
      return;
    }
    var probes := ProbeOrder(meta.value);
    var p, found := LocateRecentPosts(shown, meta.value, lang, topic, indexAt);
    if found.None? {
      p := ShowLoaderMessage(SetData(p, [], topic), NoPostsMessage(topic));
      r := k.(presenter := p);
      assert r.presenter.paginator.data == [];
      assert forall i :: !FirstHit(indexAt, lang, topic, probes, i);
    } else {
      SetDataIgnoresContent(k.presenter, [LoaderMessage(FetchingMessage(topic))], found.value, topic);
      r := k.(presenter := p);
      var w :| FirstHit(indexAt, lang, topic, probes, w) && PostsAt(indexAt, lang, topic, probes[w]) == found;
      HitRefreshed(k, r, metaAt, indexAt, w);
    }
  }

  /** The outcome of a refresh whose probes hit at `w`. */
  lemma HitRefreshed(k: Kernel, r: Kernel, metaAt: string -> Option<TopicMeta>, indexAt: string -> Option<seq<Post>>, w: int)
    requires var lang, topic := k.state.language, k.state.topic;
             var meta := metaAt(TopicMetaUrl(lang, topic));
             && meta.Some? && meta.value != []
             && FirstHit(indexAt, lang, topic, ProbeOrder(meta.value), w)
             && r == k.(presenter := SetData(k.presenter, PostsAt(indexAt, lang, topic, ProbeOrder(meta.value)[w]).value, topic))
    ensures Refreshed(k, r, metaAt, indexAt)
  {
    var lang, topic := k.state.language, k.state.topic;
    var probes := ProbeOrder(metaAt(TopicMetaUrl(lang, topic)).value);
    forall i | FirstHit(indexAt, lang, topic, probes, i)
      ensures i == w
    {
      FirstHitUnique(indexAt, lang, topic, probes, i, w);
    }
    assert Hit(indexAt, lang, topic, probes[w]);
  }

  /** `updateTopicAndRefreshContent(t)`: only a configured topic is applied and reloaded. */
  method UpdateTopic(k: Kernel, t: string, metaAt: string -> Option<TopicMeta>, indexAt: string -> Option<seq<Post>>)
    returns (r: Kernel)
    ensures t !in k.state.config.topics ==> r == k
    ensures t in k.state.config.topics ==> r.state == k.state.(topic := t) && r.presenter.activeTopic == t
    ensures t in k.state.config.topics ==> Refreshed(k.(state := SetTopic(k.state, t)), r, metaAt, indexAt)
  {
    if t in k.state.config.topics {
      r := Refresh(k.(state := SetTopic(k.state, t)), metaAt, indexAt);
    } else {
      r := k;
    }
  }

  /** `updateLanguageAndRefreshContent(l)`: only a configured language is applied and reloaded. */
  method UpdateLanguage(k: Kernel, l: string, metaAt: string -> Option<TopicMeta>, indexAt: string -> Option<seq<Post>>)
    returns (r: Kernel)
    ensures l !in k.state.config.languages ==> r == k
    ensures l in k.state.config.languages ==> r.state == k.state.(language := l) && r.presenter.activeTopic == k.state.topic
    ensures l in k.state.config.languages ==> Refreshed(k.(state := SetLanguage(k.state, l)), r, metaAt, indexAt)
  {
    if l in k.state.config.languages {
      r := Refresh(k.(state := SetLanguage(k.state, l)), metaAt, indexAt);
    } else {
      r := k;
    }
  }

  /** `classList.toggle(cls, force)`. */
  function ToggleClass(classes: set<string>, cls: string, force: bool): (r: set<string>)
    ensures cls in r <==> force
    ensures forall c :: c != cls ==> (c in r <==> c in classes)
  {
    if force then classes + {cls} else classes - {cls}
  }

  /** `handleNavigationToggle()`. */
  function ToggleNav(k: Kernel): Kernel
  {
    var open := !GetNavState(k.state);
    var nav := if k.controls.nav.Some? then
                 Some(ToggleClass(ToggleClass(k.controls.nav.value, "open", open), "close", !open))
               else None;
    var menu := if k.controls.menu.Some? then
                  Some(MenuButton(ToggleClass(k.controls.menu.value.classes, "active", open),
                                  Some(if open then "true" else "false")))
                else None;
    k.(state := SetNavState(k.state, open), controls := NavControls(nav, menu))
  }

  /** The controls show the state's nav flag. */
  predicate InSync(k: Kernel) {
    && (k.controls.nav.Some? ==>
          && ("open" in k.controls.nav.value <==> k.state.navOpen)
          && ("close" in k.controls.nav.value <==> !k.state.navOpen))
    && (k.controls.menu.Some? ==>
          && ("active" in k.controls.menu.value.classes <==> k.state.navOpen)
          && k.controls.menu.value.ariaExpanded == Some(if k.state.navOpen then "true" else "false"))
  }

  /** A toggle flips the flag and nothing else in the state, leaves the
      controls in sync with it (`aria-expanded` is "true" iff open), and two
      toggles restore the flag and, from synced controls, the controls too. */
  lemma ToggleNavFlips(k: Kernel)
    ensures ToggleNav(k).state == k.state.(navOpen := !k.state.navOpen)
    ensures InSync(ToggleNav(k))
    ensures ToggleNav(k).controls.menu.Some? ==>
              (ToggleNav(k).controls.menu.value.ariaExpanded == Some("true") <==> ToggleNav(k).state.navOpen)
    ensures ToggleNav(ToggleNav(k)).state == k.state
    ensures InSync(k) ==> ToggleNav(ToggleNav(k)) == k
    ensures ToggleNav(k).presenter == k.presenter
  {
    var t := ToggleNav(ToggleNav(k));
    if InSync(k) {
      if k.controls.nav.Some? {
        var a := k.controls.nav.value;
        var b := t.controls.nav.value;
        assert forall c :: c in a <==> c in b;
        assert a == b;
      }
      if k.controls.menu.Some? {
        var a := k.controls.menu.value.classes;
        var b := t.controls.menu.value.classes;
        assert forall c :: c in a <==> c in b;
        assert a == b;
      }
    }
  }

  /** The outcome of `fetch(contentUrl)`: a thrown network error, or a response
      whose body text may fail to read. */
  datatype HttpResponse = NetworkError | Response(ok: bool, body: Option<string>)

  /** Evaluating the wrapped program either throws or yields a value. */
  datatype EvalResult = Threw | Value(value: JsValue)

  /** The program handed to `Function(...)`: the file with its first
      `const data` turned into an assignment, inside a function returning `data`. */
  function WrapProgram(text: string): string {
    WrapPrefix + ReplaceFirst(text, "const data", "data") + WrapSuffix
  }

  const WrapPrefix := "\"use strict\"; return (function(){ let data; "
  const WrapSuffix := " return data; })()"

  /** `retrieveDetailedStoryContent(storyPath)`: only an array result counts as content. */
  function RetrieveStory(lang: string, path: JsValue, fetch: string -> HttpResponse, eval: string -> EvalResult): (r: FetchResult)
    ensures var resp := fetch(StoryUrl(lang, path));
            r.Found? <==>
              && resp.Response? && resp.ok && resp.body.Some? && Includes(resp.body.value, "const data")
              && eval(WrapProgram(resp.body.value)).Value? && eval(WrapProgram(resp.body.value)).value.Arr?
    ensures r.Found? ==> Arr(r.items) == eval(WrapProgram(fetch(StoryUrl(lang, path)).body.value)).value
  {
    match fetch(StoryUrl(lang, path))
    case NetworkError => NotFound
    case Response(ok, body) =>
      if !ok || body.None? then NotFound
      else if !Includes(body.value, "const data") then NotFound
      else
        match eval(WrapProgram(body.value))
        case Threw => NotFound
        case Value(v) => if v.Arr? then Found(v.elems) else NotFound
  }

  /** Each failure path yields `{notfound: true}`: a network error, a non-ok
      status, an unreadable body, a file without `const data`, an evaluation
      that throws, and a result that is not an array. */
  lemma EveryFailureIsNotFound(lang: string, path: JsValue, fetch: string -> HttpResponse, eval: string -> EvalResult)
    ensures var resp := fetch(StoryUrl(lang, path));
            && (resp.NetworkError? ==> RetrieveStory(lang, path, fetch, eval) == NotFound)
            && (resp.Response? && !resp.ok ==> RetrieveStory(lang, path, fetch, eval) == NotFound)
            && (resp.Response? && resp.body.None? ==> RetrieveStory(lang, path, fetch, eval) == NotFound)
            && ((resp.Response? && resp.body.Some? && !(exists i :: OccursAt(resp.body.value, "const data", i)))
                  ==> RetrieveStory(lang, path, fetch, eval) == NotFound)
            && ((resp.Response? && resp.body.Some? && eval(WrapProgram(resp.body.value)).Threw?)
                  ==> RetrieveStory(lang, path, fetch, eval) == NotFound)
            && ((resp.Response? && resp.body.Some? && eval(WrapProgram(resp.body.value)).Value?
                 && !eval(WrapProgram(resp.body.value)).value.Arr?)
                  ==> RetrieveStory(lang, path, fetch, eval) == NotFound)
  {
    var resp := fetch(StoryUrl(lang, path));
    if resp.Response? && resp.body.Some? {
      IncludesIff(resp.body.value, "const data");
    }
  }

  /** A Read More click followed by the story load. */
  function ReadMore(k: Kernel, path: JsValue, fetch: string -> HttpResponse, eval: string -> EvalResult,
                    compiles: string -> bool): Kernel
  {
    var started := StartSingleStory(k.presenter, path);
    k.(presenter := CompleteSingleStory(started, RetrieveStory(k.state.language, path, fetch, eval), compiles))
  }

  /** A story that cannot be fetched ends on the error card with Back, and
      Back returns to the list as it was. */
  lemma ReadMoreFailureShowsError(k: Kernel, path: JsValue, fetch: string -> HttpResponse, eval: string -> EvalResult,
                                  compiles: string -> bool)
    requires !fetch(StoryUrl(k.state.language, path)).Response? || !fetch(StoryUrl(k.state.language, path)).ok
    ensures var t := ReadMore(k, path, fetch, eval, compiles).presenter;
            && t.screen == ErrorScreen
            && t.content.children == [ErrorCard(NotFoundTitle, NotFoundMessage), BackButton]
            && Dispatch(t, BackToList) == RenderPostList(k.presenter)
  {
    NotFoundEndsInErrorView(k.presenter, path, compiles);
    BackRestoresList(k.presenter, path, NotFound, compiles);
  }
}

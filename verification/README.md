# Blog front end: presenter, paginator and content renderers

This project models the browser core of a static blog. Posts are stored as
JavaScript content files under `/cloud/<language>/<topic>/...`, next to one
metadata file per topic and one `index.json` per month. The application:

- loads the newest monthly index of the selected topic;
- hands its posts to the `DynamicContentPresenter`, which pages them newest
  first through a `Paginator`;
- draws the post cards and the Prev / page info / Next row, and keeps a list
  of the listeners it attached so that it can remove them before the next
  render;
- turns structured content items (`{el, props, style, events, content}`)
  into DOM nodes with `recursivelyCreateElement`.

The older `StoryManager` does the same job with its own renderer
(`createElement`) and keeps no listener records. `AppState` holds the
selected language and topic, guarded by the configured lists, and the
navigation-menu flag.

Everything is modelled as immutable values and pure functions:

- JavaScript values are a `JsValue` tree (module `JsValues`).
- The DOM is a `View` tree inside two containers (`Views`).
- A managed listener is a record naming its element by its child-index path.
- Tag and attribute names are folded to ASCII lowercase, as `createElement`
  and `setAttribute` do in an HTML document.
- Each asynchronous render is split into a start phase and a completion
  phase.
- The outside world is passed in as functions:
  - `fetch` of an index, metadata or story file;
  - evaluation of a story file;
  - `new Function` compilation of a handler string.

Modules:

- `JsValues`: JavaScript values.
- `JsStrings`: `includes` and `replace`.
- `Views`: the DOM.
- `Posts`: post summaries and topic settings.
- `Elements`: the steps both renderers share.
- `Renderer`: `recursivelyCreateElement`.
- `LegacyRenderer`: `createElement`.
- `Widgets`: buttons and the pagination row.
- `Pagination`: the `Paginator`.
- `ContentPresenter`: `DynamicContentPresenter`.
- `StoryManager`.
- `AppStates`.
- `Probing`: URL builders and the index probe order.
- `Kernel`: the `ApplicationKernel` operations.

## Model

| member | source | states |
|---|---|---|
| Pagination.New | src/js/paginator.js:2-5 | perPage is clamped to at least 1 (kept when already positive), the data is the array or empty, page 1, and the class invariant holds |
| Pagination.Reset | src/js/paginator.js:11-15 | a non-array becomes empty; page is 1; totalPages is at least 1, its pages hold all items and one page fewer would not |
| Pagination.PageCountBounds | src/js/paginator.js:14 | max(1, ceil(len / perPage)) is the least positive page count whose pages hold every item |
| Pagination.Slice | src/js/paginator.js:20-23 | the current page never holds more than perPage items |
| Pagination.SliceWindow | src/js/paginator.js:20-23 | on a valid paginator the slice is exactly the window [start, start + perPage) clipped to the data, and it is empty only for empty data |
| Pagination.SliceClosed | src/js/paginator.js:20-23 | from page 1 on, the page starts at a non-negative index and the slice is the window clipped to the data, non-empty when it starts inside the data |
| Pagination.Next | src/js/paginator.js:28-32 | moves one page forward when not on the last page, otherwise changes nothing |
| Pagination.Prev | src/js/paginator.js:37-41 | moves one page back when not on page 1, otherwise changes nothing |
| Pagination.GoTo | src/js/paginator.js:46-49 | the target page is clamped into [1, totalPages]: in range it is kept, below it goes to 1, above it goes to the last page |
| Pagination.NavigationPreservesValid | src/js/paginator.js:28-49 | next, prev and goTo keep page within [1, totalPages] and change nothing but the page |
| Pagination.FirstAndLast | src/js/paginator.js:54-60 | first and last hold together exactly on a single page; the last page is where next does nothing, the first where prev does nothing |
| Pagination.PagesCoverData | src/js/paginator.js:20-23 | reading pages 1 to totalPages in order gives back the data exactly, with no item dropped, repeated or reordered |
| Pagination.PageSliceAt | src/js/paginator.js:20-23 | page k in closed form: it starts at (k-1)*perPage, and only the last page reaches the end of the data |
| Pagination.PagesFromSuffix | src/js/paginator.js:20-23 | pages k to totalPages joined are the suffix of the data from page k's start |
| AppStates.Init | src/js/state.js:2-7 | the state starts from the configured default language, default topic and nav flag, and keeps the configuration |
| AppStates.SetLanguage | src/js/state.js:21-27 | a listed language is applied; any other leaves the state unchanged |
| AppStates.SetTopic | src/js/state.js:29-35 | a listed topic is applied; any other leaves the state unchanged |
| AppStates.SetNavState | src/js/state.js:37-39 | the nav flag takes the given value and nothing else changes |
| AppStates.GettersAfterSetters | src/js/state.js:9-39 | each getter reads back its setter's value exactly when the guard admits it, and each setter leaves the other two fields alone |
| AppStates.RunKeepsSelectable | src/js/state.js:2-39 | from configured defaults, no sequence of setter calls selects an unlisted language or topic, and the configuration never changes |
| JsValues.FindFieldLast | src/js/DynamicContentPresenter.js:298-302 | the field found for a key names that key, and no later field does, so a duplicated key reads as its last binding |
| JsValues.Entries | src/js/DynamicContentPresenter.js:300 | Object.entries throws exactly on null and undefined; a plain object yields its own fields in order |
| JsValues.Or | src/js/DynamicContentPresenter.js:294 | a or b yields a when a is truthy and b otherwise |
| JsValues.JsSlice | src/js/paginator.js:22 | with non-negative bounds, slice is the subsequence between the two bounds clipped to the length |
| JsValues.Reverse | src/js/DynamicContentPresenter.js:82 | item i of the reversal is item n-1-i of the input |
| JsValues.ReverseReverse | src/js/storyManager.js:24 | reversing twice gives back the original sequence |
| JsValues.IntToStringValue | src/js/DynamicContentPresenter.js:195 | String(n) is a minus sign exactly for a negative n, followed by the decimal digits that spell the magnitude of n |
| JsValues.NatToStringValue | src/js/app.js:174 | the decimal text of a year spells that year when read back digit by digit, and starts with 0 only for 0 itself |
| JsValues.NatToStringInjective | src/js/app.js:174 | two years with the same decimal text are the same year |
| JsStrings.IndexOf | src/js/app.js:78 | with the start clamped to the length, the result is the first position at or after it where the pattern occurs, or -1 when it occurs nowhere after it |
| JsStrings.IncludesIff | src/js/app.js:78 | includes holds exactly when the pattern occurs somewhere in the text |
| JsStrings.ReplaceFirst | src/js/app.js:80 | replace with a string pattern swaps the first occurrence only and keeps everything around it; without an occurrence the text is unchanged |
| Views.TextContent | src/js/DynamicContentPresenter.js:341 | setting textContent leaves no child for the empty string and exactly one text child otherwise |
| Posts.SettingsFor | src/js/DynamicContentPresenter.js:102 | a configured topic reads its own settings; an unknown topic reads pagination and fullPosts as falsy |
| Elements.AsciiLowerFolds | src/js/DynamicContentPresenter.js:295-300 | folding a name to lowercase leaves no capital letter, keeps a lowercase name as is, and folding twice is folding once |
| Elements.TagOfFolded | src/js/DynamicContentPresenter.js:294-295 | the tag is el, or div when el is falsy, up to case, and has no capital letter, as createElement folds it in an HTML document |
| Elements.StyleOf | src/js/DynamicContentPresenter.js:305-311 | a non-empty string style becomes cssText, an array or object style is assigned, and any other value (falsy, number, boolean, function) sets no style |
| Elements.SetAttributesLastWins | src/js/DynamicContentPresenter.js:298-302 | after setAttribute over a field list, each name holds the string of the last field whose key folds to it, a name no field folds to keeps its old value or stays absent, and every name added is lowercase |
| Elements.SetAttributesCaseInsensitive | src/js/DynamicContentPresenter.js:300 | keys differing only in case set one attribute: folding the keys first changes nothing |
| Elements.SetAttributesAppend | src/js/DynamicContentPresenter.js:299-301 | setting two field lists one after the other is setting their concatenation |
| Elements.ApplyPropsFlattens | src/js/DynamicContentPresenter.js:298-302 | applying the props one by one throws exactly when some prop is null or undefined; otherwise it equals setting all their fields in one pass |
| Elements.PropsLastWriteWins | src/js/DynamicContentPresenter.js:298-302 | starting from no attributes, each lowercase name ends with the value of the last write whose key folds to it across all props, names never written are absent, and no attribute name has a capital letter |
| Elements.CaseFoldedProps | src/js/DynamicContentPresenter.js:298-302 | the props [{Title: "a"}, {title: "b"}] set the single attribute title="b" |
| Elements.BindField | src/js/DynamicContentPresenter.js:317-325 | a handler yields a listener exactly when it is a function or a string that compiles, and the listener is for the field's event name |
| Elements.BindFields | src/js/DynamicContentPresenter.js:316-329 | an event object yields one listener per bindable field, each coming from such a field |
| Elements.BindEvents | src/js/DynamicContentPresenter.js:314-331 | the events loop runs to the end exactly when no entry is null or undefined |
| Renderer.Track | src/js/DynamicContentPresenter.js:68-71 | one managed record per listener bound, in order, each naming the element and the listener |
| Renderer.Render | src/js/DynamicContentPresenter.js:289-345 | a falsy or non-object item becomes a text node with String(item) (empty for null) and records nothing; an object that renders becomes an element whose tag is el, or div, folded to lowercase |
| Renderer.RenderItems | src/js/DynamicContentPresenter.js:337 | a list rendered without a throw yields one node per item, and never more nodes than items |
| Renderer.AssembleComplete | src/js/DynamicContentPresenter.js:337 | the forEach over the content array runs to the end exactly when no item's rendering throws |
| Renderer.AssembleAt | src/js/DynamicContentPresenter.js:337 | in a complete loop, node i is item i's rendering |
| Renderer.AssembleRecords | src/js/DynamicContentPresenter.js:337 | every record the loop appends comes from one item, and in a complete loop that item's node sits at the same position |
| Renderer.RenderItemsCons | src/js/DynamicContentPresenter.js:337 | one step of the loop: a throwing first item ends it keeping its records; otherwise its node precedes the rest's, rendered one position further on |
| Renderer.RenderWithin | src/js/DynamicContentPresenter.js:289-345 | every record a render appends, including those appended before a throw, names a node at or below the rendered element |
| Renderer.RenderItemsWithin | src/js/DynamicContentPresenter.js:337 | every record a list render appends names a node below the parent |
| Renderer.RenderItemsInOrder | src/js/DynamicContentPresenter.js:337 | a complete list holds one node per item, in order, each the rendering of its item at its own position |
| Renderer.RenderItemsAt | src/js/DynamicContentPresenter.js:337 | in a complete list, node i is item i rendered as child from+i |
| Renderer.RenderElementShell | src/js/DynamicContentPresenter.js:294-331 | the element carries the attributes from the props, the style and the bound listeners, and its first records are exactly those listeners on the element itself |
| Renderer.RenderScalarContent | src/js/DynamicContentPresenter.js:334-342 | falsy content gives no children; truthy string or number content gives exactly one text child with its String form; boolean or function content gives none |
| Renderer.RenderObjectContent | src/js/DynamicContentPresenter.js:338-339 | object content becomes the single child 0, and the element exists iff that child rendered |
| Renderer.RenderArrayContent | src/js/DynamicContentPresenter.js:336-337 | array content yields one child per entry, entry i rendered as child i, and the element exists iff no entry threw |
| Renderer.RenderLocated | src/js/DynamicContentPresenter.js:289-345 | every record of a successful render names an element of the drawn tree that really carries that listener |
| Renderer.AssembleLocated | src/js/DynamicContentPresenter.js:337 | when every item's records lie in its own node, every record of the list lies in the node at the item's position |
| Renderer.RenderItemsLocated | src/js/DynamicContentPresenter.js:337 | every record of a complete list render lies on an element among the drawn nodes that carries that listener |
| Renderer.RenderStringItems | src/js/DynamicContentPresenter.js:336-337 | an element whose content is an array of strings has those strings as its text children, in order |
| Renderer.StringItemsNodes | src/js/DynamicContentPresenter.js:337 | a run of strings renders completely, entry i as the text node of its string |
| Renderer.RenderFixtureList | cloud/en/blog/2025/september/data/my_journey_to_game_development.js:64-73 | the game-development post's list of five strings is drawn as a ul whose text children are those strings, in order |
| LegacyRenderer.CreateElement | src/js/storyManager.js:194-251 | a falsy or non-object item becomes an empty text node; an object that renders becomes an element whose tag is el, or div, folded to lowercase |
| LegacyRenderer.CreateAll | src/js/storyManager.js:239-243 | without a throw, one node per content entry |
| LegacyRenderer.CreateAllInOrder | src/js/storyManager.js:239-243 | without a throw, node i is entry i's node |
| LegacyRenderer.LiteralsAgreeIff | src/js/storyManager.js:195 | on a literal the two renderers agree exactly when String(item) is empty or the item is null |
| LegacyRenderer.VariantsAgree | src/js/storyManager.js:194-251 | on trees whose content is absent, a string, a boolean, a function, or again such trees, the legacy renderer draws exactly what the presenter draws |
| LegacyRenderer.VariantsAgreeAll | src/js/storyManager.js:239-243 | on such lists both loops throw together, and otherwise draw the same nodes |
| LegacyRenderer.LegacyBlanksStringItems | src/js/storyManager.js:195 | every string entry of a content array is drawn as an empty text node |
| LegacyRenderer.LegacyBlanksFixtureList | cloud/en/blog/2025/september/data/my_journey_to_game_development.js:64-73 | the game-development post's list of five strings is drawn as a ul of five empty text nodes |
| LegacyRenderer.LegacyStringList | src/js/storyManager.js:237-243 | an element whose content is an array of strings renders, with one child per string, each from the blanking createElement |
| LegacyRenderer.LegacyIgnoresNumberContent | src/js/storyManager.js:237-248 | non-zero number content gives the legacy element no children, while the presenter writes its decimal text |
| LegacyRenderer.LegacyReadsConten | src/js/storyManager.js:237 | with falsy content the legacy renderer falls back to the conten field, which the presenter ignores |
| Widgets.Button | src/js/DynamicContentPresenter.js:210-219 | a button with the caption as its text, disabled exactly when asked, the class when one is given, and a single click listener |
| Widgets.SummaryParts | src/js/DynamicContentPresenter.js:132-143 | the h2 title and the p description each appear only when truthy, title first |
| Widgets.CoverTag | src/js/DynamicContentPresenter.js:145-147 | the cover is a video exactly when cover.type is "video", an img otherwise |
| Widgets.Controls | src/js/DynamicContentPresenter.js:180-205 | the row holds Prev, info and Next; Prev is disabled exactly on the first page and Next exactly on the last; each button carries its own click |
| Widgets.ControlsInfo | src/js/DynamicContentPresenter.js:192-195 | the info element holds exactly the text "page / totalPages" |
| Widgets.ControlsBothDisabledIff | src/js/DynamicContentPresenter.js:187-201 | both buttons are disabled exactly when there is a single page |
| ContentPresenter.New | src/js/DynamicContentPresenter.js:24-34 | the two containers are kept as handed in; the paginator is empty, valid, on page 1, with perPage clamped to at least 1; the topic is the default and no listener is managed |
| ContentPresenter.Cleanup | src/js/DynamicContentPresenter.js:46-60 | the managed list and both containers are emptied; paginator, topic, settings and display are untouched |
| ContentPresenter.Attach | src/js/DynamicContentPresenter.js:68-71 | exactly one record is appended at the end, and nothing else changes |
| ContentPresenter.PostCardShape | src/js/DynamicContentPresenter.js:127-175 | a summary card holds a title and description only when truthy, a cover only when it has a src, and ends with Read More for the post's path, which is its only record; a full-post card holds only the loading heading |
| ContentPresenter.BuildCardsAt | src/js/DynamicContentPresenter.js:106-109 | card i of a run is the card built for post i at its own position |
| ContentPresenter.JoinCards | src/js/DynamicContentPresenter.js:106-109 | appending cards keeps one view per card, in order |
| ContentPresenter.PostListShape | src/js/DynamicContentPresenter.js:98-122 | the content area holds one card per slice item, in order; the pagination area is flex with the controls iff the topic paginates, and hidden otherwise; the managed list is the cards' records then Prev and Next; an unknown topic gets summary cards and no pagination |
| ContentPresenter.PostListForgetsPast | src/js/DynamicContentPresenter.js:98-99 | whatever was drawn or tracked before has no influence on a list render |
| ContentPresenter.ControlHandlers | src/js/DynamicContentPresenter.js:187-201 | Prev and Next move the paginator one page when they can and redraw the list |
| ContentPresenter.SetData | src/js/DynamicContentPresenter.js:78-87 | the paginator holds the list newest first from page 1 under the new topic, with the same page size, and is valid |
| ContentPresenter.SetDataRepeatable | src/js/DynamicContentPresenter.js:81-84 | handing the same list twice shows the same thing, because the caller's list is not reversed in place |
| ContentPresenter.NewestFirstExample | src/js/DynamicContentPresenter.js:82-84 | with posts A, B, C and two per page, page 1 shows C, B and page 2 shows A; only page 2 is the last |
| ContentPresenter.StartSingleStory | src/js/DynamicContentPresenter.js:232-237 | the listeners are dropped, the pagination area is hidden and emptied, and the content area holds only the loading message |
| ContentPresenter.NotFoundEndsInErrorView | src/js/DynamicContentPresenter.js:243-246 | a not-found story ends on the error card then Back, with Back's click the only record |
| ContentPresenter.FoundEndsInStoryView | src/js/DynamicContentPresenter.js:248-256 | a story whose items do not throw ends on the story-content wrapper holding one node per item, then Back; the records are the items' then Back's |
| ContentPresenter.InlinePostShape | src/js/DynamicContentPresenter.js:261-275 | resolving a full post changes only its own card: it becomes the error paragraph or the rendered items, their records are appended, and every other card and the pagination area are unchanged |
| ContentPresenter.BackRestoresList | src/js/DynamicContentPresenter.js:372-376 | Back from any story outcome redraws the page the list was on, without refetching |
| ContentPresenter.ContentKeepsPaginator | src/js/DynamicContentPresenter.js:232-275 | loading a story or resolving an inline post never moves the paginator or changes the topic |
| ContentPresenter.TransitionsKeepPaginatorValid | src/js/DynamicContentPresenter.js:78-275 | every transition keeps the paginator invariant |
| ContentPresenter.CardLocated | src/js/DynamicContentPresenter.js:167-171 | a card's Read More record names the card's last child, which carries that click |
| ContentPresenter.JoinLocated | src/js/DynamicContentPresenter.js:106-111 | when each card's records lie in that card, every record of the run lies in the card that owns it |
| ContentPresenter.CardsLocated | src/js/DynamicContentPresenter.js:106-111 | every Read More record of a run of cards lies on the card that owns it |
| ContentPresenter.ControlsTracked | src/js/DynamicContentPresenter.js:187-204 | the Prev and Next records name the row's first and third children, which carry those clicks |
| ContentPresenter.ListTracked | src/js/DynamicContentPresenter.js:98-122 | after a list render, every managed record names an element on screen that carries that listener |
| ContentPresenter.StoryItemsTracked | src/js/DynamicContentPresenter.js:248-253 | records of items drawn inside the story-content wrapper name elements on screen |
| ContentPresenter.StoryTracked | src/js/DynamicContentPresenter.js:232-256 | an error screen, or a story whose items do not throw, leaves every record on its element |
| ContentPresenter.AbortedStoryUntracked | src/js/DynamicContentPresenter.js:251 | when an item throws, the listeners attached before the throw stay in the managed list although nothing reached the page |
| ContentPresenter.DispatchTracked | src/js/DynamicContentPresenter.js:187-201 | every button click leaves the managed list describing listeners that exist on screen |
| StoryManager.New | src/js/storyManager.js:12-18 | the two areas are kept as handed in; the paginator is empty, valid, on page 1, with perPage clamped to at least 1; the topic is the default |
| StoryManager.SetData | src/js/storyManager.js:23-28 | the caller's array is reversed in place and the paginator keeps that very array, from page 1, under the new topic |
| StoryManager.RepeatedSetDataFlips | src/js/storyManager.js:24 | the same array handed twice comes back in its original order, so with two distinct ends the two calls show different pages |
| StoryManager.Clear | src/js/storyManager.js:33-36 | both areas lose their children; display, paginator, topic and settings are untouched |
| StoryManager.PostCardShape | src/js/storyManager.js:62-107 | a summary card ends with Read More for the post's path; a full-post card holds only its cover, if any |
| StoryManager.CreateCards | src/js/storyManager.js:46-49 | one card per post, in order |
| StoryManager.ListShape | src/js/storyManager.js:41-57 | one card per slice item in order, and the pagination area is block with exactly the button row iff the topic paginates, none otherwise |
| StoryManager.StoryNotFoundView | src/js/storyManager.js:151-154 | a missing story leaves exactly the not-found card and Back |
| StoryManager.StoryFoundView | src/js/storyManager.js:156-162 | a story whose items all render leaves the story-content wrapper with one node per item, in order, then Back; a throwing item leaves the area empty |
| StoryManager.FullPostAppends | src/js/storyManager.js:168-184 | resolving a full post whose items all render, or that is not found, appends exactly one child to its card, the failure paragraph on not-found; no other card changes |
| StoryManager.FullPostThrowLeavesCard | src/js/storyManager.js:178-183 | when one of the fetched items throws, the call rejects before the wrapper is appended, so the card and the rest of the manager are unchanged |
| StoryManager.PagingRedraws | src/js/storyManager.js:116-130 | Prev and Next move the paginator one page when they can, and the content area then holds the cards of the page they land on |
| StoryManager.BackRestoresList | src/js/storyManager.js:266-270 | Back from a story redraws the list at the page it was on |
| Probing.SplitAtSlash | src/js/app.js:65 | a path segment followed by a slash is read back unambiguously: equal URLs have equal leading segments and equal remainders |
| Probing.StoryUrlInjective | src/js/app.js:65 | for languages without a slash, the story URL determines the language and the story path's text |
| Probing.TopicMetaUrlInjective | src/js/app.js:138 | for languages without a slash, the metadata URL determines the language and the topic |
| Probing.IndexUrlInjective | src/js/app.js:174 | for languages and topics without a slash, the index URL determines language, topic, year and month, so distinct probes fetch distinct index files |
| Probing.Insert | src/js/app.js:168 | inserting an entry yields a permutation of the entries plus it |
| Probing.InsertKeepsSorted | src/js/app.js:168 | inserting into a newest-first run keeps it newest first |
| Probing.SortDesc | src/js/app.js:168 | the years are a permutation of the keys, newest first |
| Probing.YearProbes | src/js/app.js:171-173 | a year's months are probed in reverse of their stored order |
| Probing.ExpandListed | src/js/app.js:170-183 | a probe is made exactly for each month listed under its year |
| Probing.ProbeOrderComplete | src/js/app.js:168-183 | exactly the listed year and month pairs are probed: nothing is skipped and nothing else is fetched |
| Probing.ProbeOrderDescending | src/js/app.js:168-170 | years are probed newest first |
| Probing.ExpandBlocks | src/js/app.js:170-173 | each year's months are probed consecutively, latest stored month first |
| Kernel.ShowLoaderMessage | src/js/app.js:128-130 | the content area holds only the message, and nothing else changes |
| Kernel.FirstPosts | src/js/app.js:170-184 | the loop returns nothing iff no probed index has posts; otherwise it returns the posts of the first probe that has any |
| Kernel.LocateRecentPosts | src/js/app.js:167-185 | in probe order, the first index with posts is handed to setData and returned; when none has posts the result is null and the presenter is untouched |
| Kernel.FirstHitUnique | src/js/app.js:177-181 | at most one probe is the first hit |
| Kernel.SetDataIgnoresContent | src/js/DynamicContentPresenter.js:78-79 | setData draws the same thing whatever the content area held before, which the loader messages rely on |
| Kernel.Refresh | src/js/app.js:136-161 | ends in Refreshed: missing or empty metadata empties the list and shows the no-index message; no index with posts empties it and shows the no-posts message; otherwise the first hit's posts are drawn; the state and the nav controls are unchanged |
| Kernel.HitRefreshed | src/js/app.js:167-185 | when the probes hit, drawing the first hit's posts is the whole refresh outcome, whichever probe is named as the hit |
| Kernel.UpdateTopic | src/js/app.js:197-204 | a configured topic is applied and the content is then reloaded for it, with Refresh's outcome from the updated state; any other topic changes nothing |
| Kernel.UpdateLanguage | src/js/app.js:209-216 | a configured language is applied and the content is then reloaded in it, with Refresh's outcome from the updated state; any other language changes nothing |
| Kernel.ToggleClass | src/js/app.js:246-248 | classList.toggle with a force flag puts the class in iff the flag is set and leaves other classes alone |
| Kernel.ToggleNavFlips | src/js/app.js:239-252 | a toggle flips only the nav flag; the nav and menu classes and aria-expanded then match it; two toggles restore the flag, and from synced controls the controls too |
| Kernel.RetrieveStory | src/js/app.js:63-101 | content is found iff the response is ok, its text includes "const data", and evaluating the wrapped file yields an array, which is returned |
| Kernel.EveryFailureIsNotFound | src/js/app.js:68-100 | a network error, a non-ok status, an unreadable body, a file without "const data", a throwing evaluation and a non-array result each yield notfound |
| Kernel.ReadMoreFailureShowsError | src/js/app.js:68-73 | a story that cannot be fetched ends on the error card with Back, and Back returns to the list as it was |

## Left out

- `src/js/style.js`, `src/js/main.js` and `src/js/config.js` are not part of this model. The configuration is a `Config` value passed in.
- The `ApplicationKernel` constructor and `registerGlobalInteractionHandlers` are left out: they only look up DOM nodes and attach the selectors' change listeners.
- `initializeApplicationBootSequence` is `Kernel.Refresh` on the initial state.
- The `catch` branch of `fetchAndRenderLatestContent` (src/js/app.js:156-159: the list is emptied and "A critical error occurred while loading content." is shown) is left out. The program does reach it, for example through an index entry that is null or undefined (next line). The model's inputs cannot express such an entry, and every oracle here is total, so no modelled path throws.
- `fetchJsonData` is an oracle returning `None` for null. Metadata whose keys are not numeric years, and month lists that are not arrays, are outside the model: `TopicMeta` holds natural years and string months.
- Kernel.LocateRecentPosts: an index entry that is null or undefined makes `buildPostCard` throw on `post.title` (src/js/DynamicContentPresenter.js:133), or on `post.cover?.src` (:145) in full-post mode. The throw leaves `setData` (src/js/app.js:179) and ends in the critical-error catch above. `Post` holds objects only, so this path is not modelled.
- Kernel.LocateRecentPosts: an index body is a sequence of posts. A non-array JSON value with a numeric `length`, which `posts?.length > 0` would also accept, is not modelled.
- Asynchronous interleaving is left out. A story or inline post that resolves after the user has moved on is modelled only as the completion applied to whatever state it is given.
- `window.scrollTo` is left out, and so are the video cover's autoplay, loop, muted and playsinline properties.
- The whitespace inside `innerHTML` templates is left out: the error card is the element tree it parses to.
- Elements.SetAttributes: `setAttribute` throws `InvalidCharacterError` on an invalid attribute name; the model accepts every name and only folds it to lowercase, as an HTML document does.
- Elements.TagOf: `createElement` throws `InvalidCharacterError` on an invalid tag name (`el: 5` gives "5", an object `el` gives "[object Object]"), which aborts the render; the model draws the element under the folded name. Which names a browser accepts has changed between versions of the DOM standard, so no validity rule is fixed here.
- Renderer.Render and LegacyRenderer.CreateElement inherit both gaps: an invalid tag or attribute name still yields an element.
- Elements.StyleOf: a string `style` set through `style.cssText` replaces any `style` attribute set through `props`, and `Object.assign` on `style` merges into it. The model keeps the props' attributes and the style side by side, as separate fields of the element.
- The style object is kept as an opaque value; the effect of `Object.assign` on `style` is not modelled.
- `new Function` and the evaluation of story files are oracles (`compiles`, `eval`); their semantics are out of scope.
- Numbers are integers: NaN, infinities and fractions are left out, and `String(n)` is the decimal form of an integer.
- `console` logging is left out.
- Renderer.RenderItems: the model renders every item before assembling and discards the renderings after the first throw. The source stops at the throw. Rendering is pure here, so both give the same nodes and records.
- Operations whose properties are stated by lemmas in the table above rather than by an ensures of their own:
  - JsValues.Get: JsValues.FindFieldLast.
  - JsValues.NatToString and JsValues.IntToString state only their shape (digits, leading minus). JsValues.NatToStringValue and JsValues.IntToStringValue state the value.
  - Elements.TagOf: Elements.TagOfFolded.
  - Elements.SetAttributes: Elements.SetAttributesLastWins, Elements.SetAttributesCaseInsensitive, Elements.SetAttributesAppend.
  - Elements.ApplyProps: Elements.ApplyPropsFlattens, Elements.PropsLastWriteWins.
  - Probing.StoryUrl, Probing.TopicMetaUrl, Probing.IndexUrl: Probing.StoryUrlInjective, Probing.TopicMetaUrlInjective, Probing.IndexUrlInjective.
  - ContentPresenter.BuildPostCard: ContentPresenter.PostCardShape.
  - ContentPresenter.RenderPostList and ContentPresenter.RenderPaginationControls: ContentPresenter.PostListShape, ContentPresenter.ControlsTracked, ContentPresenter.ListTracked.
  - ContentPresenter.CompleteSingleStory, ContentPresenter.AppendBackButton and ContentPresenter.RenderErrorState: ContentPresenter.NotFoundEndsInErrorView, ContentPresenter.FoundEndsInStoryView, ContentPresenter.StoryTracked.
  - ContentPresenter.ResolveInlinePost: ContentPresenter.InlinePostShape.
  - ContentPresenter.Dispatch: ContentPresenter.ControlHandlers, ContentPresenter.BackRestoresList, ContentPresenter.DispatchTracked.
  - StoryManager.CreatePostCard: StoryManager.PostCardShape.
  - StoryManager.RenderList and StoryManager.RenderPagination: StoryManager.ListShape.
  - StoryManager.StartStory, StoryManager.CompleteStory, StoryManager.RenderNotFound and StoryManager.AppendBackButton: StoryManager.StoryNotFoundView, StoryManager.StoryFoundView.
  - StoryManager.ResolveFullPost: StoryManager.FullPostAppends, StoryManager.FullPostThrowLeavesCard.
  - StoryManager.Dispatch: StoryManager.PagingRedraws, StoryManager.BackRestoresList.
  - Kernel.ToggleNav: Kernel.ToggleNavFlips.
  - Kernel.ReadMore: Kernel.ReadMoreFailureShowsError.

## Findings

| source | as written | input that shows it | evidently intended | confidence | as-written member | corrected member |
|---|---|---|---|---|---|---|
| src/js/storyManager.js:195 | `createElement` returns an empty text node for every string or number item, so string entries of a content array are drawn blank | the five-string `ul` item of cloud/en/blog/2025/september/data/my_journey_to_game_development.js:64-73 is drawn as a `ul` of five empty text nodes | the item's `String` form, as `recursivelyCreateElement` writes at src/js/DynamicContentPresenter.js:290-291 | not executed | LegacyRenderer.LegacyBlanksFixtureList | Renderer.RenderFixtureList |
| src/js/storyManager.js:24 | `posts.reverse()` reverses the caller's array in place, so a second `setData` with the same array shows it oldest first | `setData([A, B])` twice: the first shows B, A and the second shows A, B | reverse a copy, as src/js/DynamicContentPresenter.js:81-82 does and says | not executed | StoryManager.RepeatedSetDataFlips | ContentPresenter.SetDataRepeatable |

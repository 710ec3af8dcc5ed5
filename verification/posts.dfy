/** What the presenters consume from outside: post summaries from a topic
    index, per-topic settings, and the normalised result of a content fetch. */
module Posts {
  import opened JsValues

  /** A post summary `{title?, description?, cover?, path}` as read from an index;
      absent fields are `Undef`. */
  datatype Post = Post(title: JsValue, description: JsValue, cover: JsValue, path: JsValue)

  /** The `pagination` and `fullPosts` flags of one topic. */
  datatype TopicSettings = TopicSettings(pagination: bool, fullPosts: bool)

  /** What the content source hands back: `{notfound: true}` or an array of content items. */
  datatype FetchResult = NotFound | Found(items: seq<JsValue>)

  /** `CONFIG.topicSettings?.[topic] || {}`: an unknown topic reads both flags as falsy. */
  function SettingsFor(settings: map<string, TopicSettings>, topic: string): (r: TopicSettings)
    ensures topic in settings ==> r == settings[topic]
    ensures topic !in settings ==> !r.pagination && !r.fullPosts
  {
    if topic in settings then settings[topic] else TopicSettings(false, false)
  }

  /** `post.cover?.src`. */
  function CoverSrc(p: Post): JsValue {
    Get(p.cover, "src")
  }

  /** `post.cover.type === "video"`. */
  predicate IsVideoCover(p: Post) {
    Get(p.cover, "type") == Str("video")
  }
}

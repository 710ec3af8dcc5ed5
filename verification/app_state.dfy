/** `AppState`: the selected language and topic, guarded by the configured
    lists, and the navigation-menu flag. */
module AppStates {
  import opened Posts

  /** The configuration object the application is built with. */
  datatype Config = Config(
    defaultLanguage: string,
    defaultTopic: string,
    topics: seq<string>,
    languages: seq<string>,
    perPage: int,
    navOpen: bool,
    topicSettings: map<string, TopicSettings>)

  datatype AppState = AppState(language: string, topic: string, navOpen: bool, config: Config)

  /** The constructor copies the three defaults and keeps the configuration. */
  function Init(config: Config): (s: AppState)
    ensures s.language == config.defaultLanguage && s.topic == config.defaultTopic
    ensures s.navOpen == config.navOpen && s.config == config
  {
    AppState(config.defaultLanguage, config.defaultTopic, config.navOpen, config)
  }

  function GetLanguage(s: AppState): string { s.language }
  function GetTopic(s: AppState): string { s.topic }
  function GetNavState(s: AppState): bool { s.navOpen }

  /** `setLanguage(lang)`: applied only when `lang` is one of the configured languages. */
  function SetLanguage(s: AppState, lang: string): (t: AppState)
    ensures lang in s.config.languages ==> t == s.(language := lang)
    ensures lang !in s.config.languages ==> t == s
  {
    if lang in s.config.languages then s.(language := lang) else s
  }

  /** `setTopic(topic)`: applied only when `topic` is one of the configured topics. */
  function SetTopic(s: AppState, topic: string): (t: AppState)
    ensures topic in s.config.topics ==> t == s.(topic := topic)
    ensures topic !in s.config.topics ==> t == s
  {
    if topic in s.config.topics then s.(topic := topic) else s
  }

  /** `setNavState(isOpen)`: unconditional. */
  function SetNavState(s: AppState, isOpen: bool): (t: AppState)
    ensures t.navOpen == isOpen && t.(navOpen := s.navOpen) == s
  {
    s.(navOpen := isOpen)
  }

  /** What each getter reads back after each setter: a setter changes at most
      its own field, and the guarded ones change it exactly when the value is
      listed. */
  lemma GettersAfterSetters(s: AppState, lang: string, topic: string, b: bool)
    ensures GetLanguage(SetLanguage(s, lang)) == lang <==> lang in s.config.languages || s.language == lang
    ensures GetTopic(SetLanguage(s, lang)) == GetTopic(s) && GetNavState(SetLanguage(s, lang)) == GetNavState(s)
    ensures GetTopic(SetTopic(s, topic)) == topic <==> topic in s.config.topics || s.topic == topic
    ensures GetLanguage(SetTopic(s, topic)) == GetLanguage(s) && GetNavState(SetTopic(s, topic)) == GetNavState(s)
    ensures GetNavState(SetNavState(s, b)) == b
    ensures GetLanguage(SetNavState(s, b)) == GetLanguage(s) && GetTopic(SetNavState(s, b)) == GetTopic(s)
  {
  }

  /** One call on the state. */
  datatype Op = SetLanguageOp(lang: string) | SetTopicOp(topic: string) | SetNavOp(isOpen: bool)

  function Apply(s: AppState, op: Op): AppState {
    match op
    case SetLanguageOp(l) => SetLanguage(s, l)
    case SetTopicOp(t) => SetTopic(s, t)
    case SetNavOp(b) => SetNavState(s, b)
  }

  function Run(s: AppState, ops: seq<Op>): AppState
    decreases |ops|
  {
    if ops == [] then s else Run(Apply(s, ops[0]), ops[1..])
  }

  /** The selected language and topic are configured ones. */
  predicate Selectable(s: AppState) {
    s.language in s.config.languages && s.topic in s.config.topics
  }

  /** Starting from configured defaults, no sequence of calls can select an
      unlisted language or topic, and the configuration never changes. */
  lemma {:induction false} RunKeepsSelectable(config: Config, ops: seq<Op>)
    requires config.defaultLanguage in config.languages && config.defaultTopic in config.topics
    ensures Selectable(Run(Init(config), ops)) && Run(Init(config), ops).config == config
  {
    RunPreserves(Init(config), ops);
  }

  lemma {:induction false} RunPreserves(s: AppState, ops: seq<Op>)
    requires Selectable(s)
    ensures Selectable(Run(s, ops)) && Run(s, ops).config == s.config
    decreases |ops|
  {
    if ops != [] {
      RunPreserves(Apply(s, ops[0]), ops[1..]);
    }
  }
}

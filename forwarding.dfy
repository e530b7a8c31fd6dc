/**
 * `Message_Forwarding` for one route of the older handler: filter, names,
 * the KOOK card or the text message, quote resolution and the recording of
 * the delivered copy in the unified-message-id tables.
 */
module Forwarding {
  import opened Wrappers
  import opened Text
  import opened Domain
  import opened Images
  import opened Card
  import opened Legacy
  import opened Correlation
  import opened Correlators

  /**
   * What the adapter reports about names: the event's member nick and channel
   * name, and the lookups' answers. The flags say where reading a name
   * throws: the event carries no `member` (`eventMemberMissing`) or no
   * `channel` (`eventChannelMissing`), or the member or channel lookup
   * rejects or resolves to nothing (`memberLookupThrows`, `channelLookupThrows`).
   */
  datatype Lookups = Lookups(
    eventMemberNick: Option<string>,
    memberNick: Option<string>,
    eventChannelName: Option<string>,
    channelName: Option<string>,
    eventMemberMissing: bool,
    memberLookupThrows: bool,
    eventChannelMissing: bool,
    channelLookupThrows: bool)

  /**
   * Resolving the names throws, and the handler's `catch` abandons the relay:
   * the user name is read from the event (outside nickname mode) and then,
   * when that is empty, from the member lookup; the channel name from the
   * event and then, when that is empty, from the channel lookup.
   */
  predicate NamesThrow(cfg: LegacyConfig, names: Lookups)
  {
    || (cfg.userNameSetting && !cfg.nicknameSetting &&
        (names.eventMemberMissing || (!Truthy(names.eventMemberNick) && names.memberLookupThrows)))
    || (cfg.channelNameSetting &&
        (names.eventChannelMissing || (!Truthy(names.eventChannelName) && names.channelLookupThrows)))
  }

  /** What one relay attempt does towards the target. */
  datatype Outcome =
    | Skipped
      /** the relay threw before sending; nothing is sent or recorded */
    | Failed
      /** `sendMessage(channelId, text)` called on `bot`, quoting `quote` when present */
    | SentText(bot: string, channelId: string, text: string, quote: Option<string>)
      /** a KOOK card message created on `bot` in `channelId` */
    | SentCard(bot: string, channelId: string, modules: seq<CardModule>)

  /** How the quote of a message is handled. */
  datatype QuotePlan = Unquoted | Quoted(id: string) | Unresolved

  /** The `platform:botId` key of an endpoint's bot. */
  function BotKey(e: Endpoint): string
  {
    e.platform + ":" + e.botId
  }

  /** The record of the copy delivered to the route's target under `sendId`. */
  function CopyRef(route: Route, sendId: string): MessageRef
  {
    MessageRef(sendId, route.target.channelId, route.target.platform, route.target.botId)
  }

  /**
   * The text relayed, which may be `undefined`: the decoded KOOK payload for a
   * KOOK source when decoding succeeded, else the session's content.
   */
  function ContentOf(s: Session, kookContent: Option<string>): (r: Option<string>)
    ensures s.platform != "kook" ==> r == s.content
    ensures r.None? ==> s.content.None?
  {
    if s.platform == "kook" && kookContent.Some? then kookContent else s.content
  }

  /** The card branch is taken for a KOOK target when card messages are enabled. */
  predicate CardPath(cfg: LegacyConfig, route: Route)
  {
    cfg.kookUseCardMessage && route.target.platform == "kook"
  }

  /**
   * The text message: the markdown quote for the configured platforms, whose
   * `content.replace` throws on `undefined` content (`None`); the plain text
   * otherwise, which interpolates `undefined` as the word.
   */
  function TextBody(cfg: LegacyConfig, route: Route, channel: Option<string>, user: Option<string>, content: Option<string>)
    : (r: Option<string>)
    ensures r.None? <==> cfg.markdown && route.target.platform in cfg.useMarkdownPlatform && content.None?
  {
    if cfg.markdown && route.target.platform in cfg.useMarkdownPlatform then
      if content.Some? then Some(MarkdownText(cfg, channel, user, content.value)) else None
    else Some(PlainText(cfg, channel, user, Interpolated(content)))
  }

  /**
   * The quote: looked up only when the message quotes one, the cache is
   * available and unified ids are enabled; the lookup's `None` abandons the relay.
   */
  function PlanQuote(t: Tables, cfg: LegacyConfig, cacheOn: bool, s: Session, route: Route, now: int): QuotePlan
  {
    if !(s.quote.Some? && cacheOn && cfg.useUnityMessageId) then Unquoted
    else
      match QuoteId(t, Key(MessageRef(s.quote.value, s.channelId, s.platform, s.selfId)), route.target, now)
      case None => Unresolved
      case Some(id) => Quoted(id)
  }

  /** The text path's outcome for a message body (`None` when building it threw) and a quote plan. */
  function TextOutcome(plan: QuotePlan, route: Route, body: Option<string>): Outcome
  {
    if body.None? then Failed
    else
      match plan
      case Unresolved => Failed
      case Unquoted => SentText(BotKey(route.target), route.target.channelId, body.value, None)
      case Quoted(id) => SentText(BotKey(route.target), route.target.channelId, body.value, Some(id))
  }

  /** The card header for the resolved names. */
  function HeaderFor(cfg: LegacyConfig, s: Session, names: Lookups): seq<CardModule>
  {
    HeaderModules(cfg.kookCardMessageUseMine, cfg.messageWrappingSetting,
      NameParts(cfg, ChannelName(cfg, names.eventChannelName, names.channelName),
        UserName(cfg, s, names.eventMemberNick, names.memberNick)))
  }

  /** The flat text the compatibility mode sends instead of a card. */
  function FlatText(cfg: LegacyConfig, s: Session, names: Lookups, kookContent: Option<string>): string
  {
    PlainText(cfg, ChannelName(cfg, names.eventChannelName, names.channelName),
      UserName(cfg, s, names.eventMemberNick, names.memberNick), Interpolated(ContentOf(s, kookContent)))
  }

  /**
   * One relay of session `s` along `route`. `pass` is the exclusion list,
   * `cacheOn` whether the cache service is present, `kookContent` the
   * decoded KOOK payload, and `sent` what the awaited `sendMessage` resolves
   * to: the id of the delivered copy, or `None` when it rejects (the handler
   * catches that, so nothing is recorded). A `SentText` outcome is the call
   * made; a `SentCard` outcome is the `createMessage` call, which is not
   * awaited and never recorded.
   */
  method MessageForwarding(c: Correlator, cfg: LegacyConfig, cacheOn: bool, pass: seq<string>, s: Session, route: Route,
                           names: Lookups, kookContent: Option<string>, sent: Option<string>, now: int)
    returns (outcome: Outcome)
    modifies c
    // the filter
    ensures s.content.None? && cfg.filterVocabulary != [] ==> outcome == Failed
    ensures !Admits(cfg, pass, s, route) && !(s.content.None? && cfg.filterVocabulary != []) ==> outcome == Skipped
    // the names
    ensures Admits(cfg, pass, s, route) && NamesThrow(cfg, names) ==> outcome == Failed
    // the tables
    ensures !(outcome.SentText? && cacheOn && sent.Some?) ==> c.State() == old(c.State())
    ensures outcome.SentText? && cacheOn && sent.Some? ==>
      c.State() == Record(old(c.State()), Key(SessionRef(s)), CopyRef(route, sent.value), now, c.ttl)
    // the text path
    ensures Admits(cfg, pass, s, route) && !NamesThrow(cfg, names) && !CardPath(cfg, route) ==>
      outcome == TextOutcome(PlanQuote(old(c.State()), cfg, cacheOn, s, route, now), route,
        TextBody(cfg, route, ChannelName(cfg, names.eventChannelName, names.channelName),
          UserName(cfg, s, names.eventMemberNick, names.memberNick), ContentOf(s, kookContent)))
    // the card path
    ensures (Admits(cfg, pass, s, route) && !NamesThrow(cfg, names) && CardPath(cfg, route) && s.content.None?) ==> outcome == Failed
    ensures (Admits(cfg, pass, s, route) && !NamesThrow(cfg, names) && CardPath(cfg, route) && s.content.Some? &&
             cfg.kookCardMessageCompatibilityMode && IsImgTag(s.content.value)) ==>
      outcome == SentText(BotKey(route.target), route.target.channelId, FlatText(cfg, s, names, kookContent), None)
    ensures (Admits(cfg, pass, s, route) && !NamesThrow(cfg, names) && CardPath(cfg, route) && s.content.Some? &&
             !cfg.kookCardMessageCompatibilityMode && HasBrokenImage(Segments(s.content.value))) ==>
      outcome == Failed
    ensures (Admits(cfg, pass, s, route) && !NamesThrow(cfg, names) && CardPath(cfg, route) && s.content.Some? &&
             !(cfg.kookCardMessageCompatibilityMode && IsImgTag(s.content.value)) &&
             !(!cfg.kookCardMessageCompatibilityMode && HasBrokenImage(Segments(s.content.value)))) ==>
      && outcome.SentCard?
      && outcome.bot == "kook:" + route.target.botId && outcome.channelId == route.target.channelId
      && ModulesFollow(HeaderFor(cfg, s, names), Segments(s.content.value), outcome.modules)
    ensures outcome.SentCard? ==> Admits(cfg, pass, s, route) && !NamesThrow(cfg, names) && CardPath(cfg, route)
  {
    if s.content.None? && cfg.filterVocabulary != [] {
      return Failed;
    }
    if (s.content.Some? && MentionsAny(s.content.value, cfg.filterVocabulary)) || s.channelId in pass {
      return Skipped;
    }
    if !(s.channelId == route.source.channelId && s.platform == route.source.platform &&
         s.userId != route.source.botId && s.userId != route.target.botId) {
      return Skipped;
    }
    if NamesThrow(cfg, names) {
      return Failed;
    }
    if cfg.kookUseCardMessage && route.target.platform == "kook" {
      outcome := CardRelay(c, cfg, cacheOn, s, route, names, kookContent, sent, now);
    } else {
      var body := TextBody(cfg, route, ChannelName(cfg, names.eventChannelName, names.channelName),
        UserName(cfg, s, names.eventMemberNick, names.memberNick), ContentOf(s, kookContent));
      outcome := TextRelay(c, cfg, cacheOn, s, route, body, sent, now);
    }
  }

  /**
   * The card branch of `Message_Forwarding`: the header, then the segments of
   * the session's content turned into modules, or in compatibility mode the
   * flat text as soon as an image shows up.
   */
  method CardRelay(c: Correlator, cfg: LegacyConfig, cacheOn: bool, s: Session, route: Route,
                   names: Lookups, kookContent: Option<string>, sent: Option<string>, now: int)
    returns (outcome: Outcome)
    modifies c
    ensures !(outcome.SentText? && cacheOn && sent.Some?) ==> c.State() == old(c.State())
    ensures outcome.SentText? && cacheOn && sent.Some? ==>
      c.State() == Record(old(c.State()), Key(SessionRef(s)), CopyRef(route, sent.value), now, c.ttl)
    ensures s.content.None? ==> outcome == Failed
    ensures (s.content.Some? && cfg.kookCardMessageCompatibilityMode && IsImgTag(s.content.value)) ==>
      outcome == SentText(BotKey(route.target), route.target.channelId, FlatText(cfg, s, names, kookContent), None)
    ensures (s.content.Some? && !cfg.kookCardMessageCompatibilityMode && HasBrokenImage(Segments(s.content.value))) ==>
      outcome == Failed
    ensures (s.content.Some? &&
             !(cfg.kookCardMessageCompatibilityMode && IsImgTag(s.content.value)) &&
             !(!cfg.kookCardMessageCompatibilityMode && HasBrokenImage(Segments(s.content.value)))) ==>
      && outcome.SentCard?
      && outcome.bot == "kook:" + route.target.botId && outcome.channelId == route.target.channelId
      && ModulesFollow(HeaderFor(cfg, s, names), Segments(s.content.value), outcome.modules)
  {
    var header := HeaderFor(cfg, s, names);
    if s.content.None? {
      // `input.match(regex)` on `undefined` throws
      return Failed;
    }
    var segments := ParseTextWithImages(s.content.value);
    ImageInSegments(s.content.value);
    var card := BuildCard(header, segments, cfg.kookCardMessageCompatibilityMode, FlatText(cfg, s, names, kookContent));
    match card
    case CompatText(text) =>
      outcome := SentText(BotKey(route.target), route.target.channelId, text, None);
      if cacheOn && sent.Some? {
        c.RecordDelivery(Key(SessionRef(s)), CopyRef(route, sent.value), now);
      }
    case Broken =>
      outcome := Failed;
    case CardMessage(modules) =>
      outcome := SentCard("kook:" + route.target.botId, route.target.channelId, modules);
  }

  /**
   * The text branch of `Message_Forwarding`: the plain or markdown `body`
   * (`None` when building it threw), sent with the resolved quote.
   */
  method TextRelay(c: Correlator, cfg: LegacyConfig, cacheOn: bool, s: Session, route: Route,
                   body: Option<string>, sent: Option<string>, now: int)
    returns (outcome: Outcome)
    modifies c
    ensures !(outcome.SentText? && cacheOn && sent.Some?) ==> c.State() == old(c.State())
    ensures outcome.SentText? && cacheOn && sent.Some? ==>
      c.State() == Record(old(c.State()), Key(SessionRef(s)), CopyRef(route, sent.value), now, c.ttl)
    ensures outcome == TextOutcome(PlanQuote(old(c.State()), cfg, cacheOn, s, route, now), route, body)
  {
    if body.None? {
      return Failed;
    }
    var plan := Unquoted;
    if s.quote.Some? && cacheOn && cfg.useUnityMessageId {
      var quote := c.ResolveQuote(Key(MessageRef(s.quote.value, s.channelId, s.platform, s.selfId)), route.target, now);
      if quote.None? {
        return Failed;
      }
      plan := Quoted(quote.value);
    }
    outcome := TextOutcome(plan, route, body);
    if cacheOn && sent.Some? {
      c.RecordDelivery(Key(SessionRef(s)), CopyRef(route, sent.value), now);
    }
  }

  /**
   * A relayed text copy can later be quoted: after the text path records
   * the copy, quoting the source message towards the same target resolves
   * to the copy's id, unless an earlier copy already went there.
   */
  lemma DeliveredCopyIsQuotable(t: Tables, key: string, route: Route, sendId: string, now: int, ttl: int)
    requires HasUnityId(t, key, now) && CopiesOf(t, UnityIdOf(t, key, now).value, now).Some?
    requires 0 < ttl
    requires ColonFree(CopyRef(route, sendId))
    requires forall j :: 0 <= j < |CopiesOf(t, UnityIdOf(t, key, now).value, now).value| ==>
      !RecordTargets(CopiesOf(t, UnityIdOf(t, key, now).value, now).value[j], route.target)
    ensures QuoteId(Record(t, key, CopyRef(route, sendId), now, ttl), key, route.target, now) == Some(sendId)
  {
    RecordThenQuote(t, key, route.target, sendId, now, ttl);
  }

  /**
   * Absent content on the text path: the plain text interpolates the word
   * `undefined` after the names, and the markdown text throws.
   */
  lemma AbsentContentText(cfg: LegacyConfig, route: Route, channel: Option<string>, user: Option<string>,
                          s: Session, kookContent: Option<string>)
    requires s.content.None? && s.platform != "kook"
    ensures !(cfg.markdown && route.target.platform in cfg.useMarkdownPlatform) ==>
      && TextBody(cfg, route, channel, user, ContentOf(s, kookContent)) == Some(PlainText(cfg, channel, user, "undefined"))
      && EndsWith(TextBody(cfg, route, channel, user, ContentOf(s, kookContent)).value, "undefined")
    ensures cfg.markdown && route.target.platform in cfg.useMarkdownPlatform ==>
      forall plan :: TextOutcome(plan, route, TextBody(cfg, route, channel, user, ContentOf(s, kookContent))) == Failed
  {
  }

  /** With unified ids disabled, or no cache, or no quote, the text path never fails for a quote. */
  lemma UnquotedNeverFails(t: Tables, cfg: LegacyConfig, cacheOn: bool, s: Session, route: Route, now: int, text: string)
    requires !(s.quote.Some? && cacheOn && cfg.useUnityMessageId)
    ensures TextOutcome(PlanQuote(t, cfg, cacheOn, s, route, now), route, Some(text)) == SentText(BotKey(route.target), route.target.channelId, text, None)
  {
  }

  /** A quote of a message whose copies went elsewhere is sent with the empty id rather than dropped. */
  lemma QuoteWithoutMatchIsEmpty(t: Tables, cfg: LegacyConfig, s: Session, route: Route, now: int)
    requires s.quote.Some? && cfg.useUnityMessageId
    requires UnityIdOf(t, Key(MessageRef(s.quote.value, s.channelId, s.platform, s.selfId)), now).Some?
    requires var id := UnityIdOf(t, Key(MessageRef(s.quote.value, s.channelId, s.platform, s.selfId)), now).value;
      CopiesOf(t, id, now).Some? && forall j :: 0 <= j < |CopiesOf(t, id, now).value| ==> !RecordTargets(CopiesOf(t, id, now).value[j], route.target)
    ensures PlanQuote(t, cfg, true, s, route, now) == Quoted("")
  {
  }
}

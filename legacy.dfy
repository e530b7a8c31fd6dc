/**
 * The per-route steps of the older handler `Message_Forwarding`: its own
 * filter (a deny-only vocabulary, the exclusion list, the source match and
 * the bot checks), name resolution, and the plain and markdown-quote text.
 */
module Legacy {
  import opened Wrappers
  import opened Text
  import opened Domain

  /** The settings of the older handler that the relay engine reads; the id lifetime lives with the correlator. */
  datatype LegacyConfig = LegacyConfig(
    useUnityMessageId: bool,
    userNamePackageFormat: Wrap,
    channelNamePackageFormat: Wrap,
    userNameSetting: bool,
    channelNameSetting: bool,
    nicknameSetting: bool,
    messageWrappingSetting: bool,
    markdown: bool,
    useMarkdownPlatform: seq<string>,
    filterVocabulary: seq<string>,
    kookUseCardMessage: bool,
    kookCardMessageUseMine: bool,
    kookCardMessageCompatibilityMode: bool)

  /** JavaScript truthiness of an optional string: present and not empty. */
  predicate Truthy(o: Option<string>)
  {
    o.Some? && o.value != ""
  }

  /**
   * The filter in front of `Message_Forwarding`'s work: nothing is relayed
   * when the content mentions a filtered word, when the channel is in the
   * exclusion list, when the message is not from the route's source channel
   * and platform, or when its author is the source or the target bot. `some`
   * reads the content only for a non-empty vocabulary: there absent content
   * makes `includes` throw before anything is sent, while an empty vocabulary
   * lets absent content through.
   */
  predicate Admits(cfg: LegacyConfig, pass: seq<string>, s: Session, route: Route)
  {
    && (if s.content.Some? then !MentionsAny(s.content.value, cfg.filterVocabulary) else cfg.filterVocabulary == [])
    && s.channelId !in pass
    && s.channelId == route.source.channelId
    && s.platform == route.source.platform
    && s.userId != route.source.botId
    && s.userId != route.target.botId
  }

  /**
   * Each rejection condition alone stops the relay, and so does absent content
   * against a non-empty vocabulary; the vocabulary is deny-only, so an empty
   * one rejects nothing by itself, not even absent content.
   */
  lemma AdmitsRejections(cfg: LegacyConfig, pass: seq<string>, s: Session, route: Route)
    ensures s.content.Some? && MentionsAny(s.content.value, cfg.filterVocabulary) ==> !Admits(cfg, pass, s, route)
    ensures s.channelId in pass ==> !Admits(cfg, pass, s, route)
    ensures s.channelId != route.source.channelId || s.platform != route.source.platform ==> !Admits(cfg, pass, s, route)
    ensures s.userId == route.source.botId || s.userId == route.target.botId ==> !Admits(cfg, pass, s, route)
    ensures s.content.None? && cfg.filterVocabulary != [] ==> !Admits(cfg, pass, s, route)
    ensures (cfg.filterVocabulary == [] && s.channelId !in pass && s.channelId == route.source.channelId &&
             s.platform == route.source.platform && s.userId != route.source.botId && s.userId != route.target.botId) ==>
            Admits(cfg, pass, s, route)
  {
  }

  /**
   * The user name: none unless the user-name setting is on; the session's
   * display name in nickname mode; otherwise the event's member nick, or when
   * that is empty what the member lookup returns (absent when the adapter has
   * no lookup).
   */
  function UserName(cfg: LegacyConfig, s: Session, eventNick: Option<string>, lookupNick: Option<string>): (r: Option<string>)
    ensures r.Some? ==> cfg.userNameSetting
    ensures cfg.userNameSetting && cfg.nicknameSetting ==> r == s.username
    ensures cfg.userNameSetting && !cfg.nicknameSetting && Truthy(eventNick) ==> r == eventNick
    ensures cfg.userNameSetting && !cfg.nicknameSetting && !Truthy(eventNick) ==> r == lookupNick
  {
    if !cfg.userNameSetting then None
    else if !cfg.nicknameSetting then (if Truthy(eventNick) then eventNick else lookupNick)
    else s.username
  }

  /**
   * The channel name: none unless the channel-name setting is on; the event's
   * channel name, or when that is empty what the channel lookup returns.
   */
  function ChannelName(cfg: LegacyConfig, eventName: Option<string>, lookupName: Option<string>): (r: Option<string>)
    ensures r.Some? ==> cfg.channelNameSetting
    ensures cfg.channelNameSetting && Truthy(eventName) ==> r == eventName
    ensures cfg.channelNameSetting && !Truthy(eventName) ==> r == lookupName
  {
    if !cfg.channelNameSetting then None
    else if Truthy(eventName) then eventName
    else lookupName
  }

  /** `${v}` of a value that may be `undefined`: the string itself, or the text `undefined`. */
  function Interpolated(v: Option<string>): string
  {
    if v.Some? then v.value else "undefined"
  }

  /** The wrapped channel name if present, then the wrapped user name if present. */
  function NameParts(cfg: LegacyConfig, channel: Option<string>, user: Option<string>): seq<string>
  {
    (if Truthy(channel) then [Wrapped(cfg.channelNamePackageFormat, channel.value)] else []) +
    (if Truthy(user) then [Wrapped(cfg.userNamePackageFormat, user.value)] else [])
  }

  /** The tail after the names: bare content when both name settings are off, else `": "` or `": &#10;"` before it. */
  function PlainTail(cfg: LegacyConfig, content: string): (r: string)
    ensures EndsWith(r, content)
  {
    assert content[|content| - |content|..] == content;
    EndsWithAppend(if cfg.messageWrappingSetting then ": &#10;" else ": ", content, content);
    if !cfg.userNameSetting && !cfg.channelNameSetting then content
    else if !cfg.messageWrappingSetting then ": " + content
    else ": &#10;" + content
  }

  /** The plain relayed text: the names followed by the tail, joined with nothing between. */
  function PlainText(cfg: LegacyConfig, channel: Option<string>, user: Option<string>, content: string): (r: string)
    ensures r == Concat(NameParts(cfg, channel, user)) + PlainTail(cfg, content)
    ensures EndsWith(r, content)
  {
    var names, tail := NameParts(cfg, channel, user), PlainTail(cfg, content);
    ConcatSnoc(names, tail);
    EndsWithAppend(Concat(names), tail, content);
    Concat(names + [tail])
  }

  /** With both name settings off the relayed text is the content itself, whatever the lookups return. */
  lemma PlainTextBare(cfg: LegacyConfig, s: Session, eventName: Option<string>, lookupName: Option<string>,
                      eventNick: Option<string>, lookupNick: Option<string>, content: string)
    requires !cfg.userNameSetting && !cfg.channelNameSetting
    ensures PlainText(cfg, ChannelName(cfg, eventName, lookupName), UserName(cfg, s, eventNick, lookupNick), content) == content
  {
    assert NameParts(cfg, None, None) == [];
  }

  /** With a setting on, a colon separates names and content, followed by `&#10;` when wrapping. */
  lemma PlainTextSeparator(cfg: LegacyConfig, channel: Option<string>, user: Option<string>, content: string)
    requires cfg.userNameSetting || cfg.channelNameSetting
    ensures !cfg.messageWrappingSetting ==> EndsWith(PlainText(cfg, channel, user, content), ": " + content)
    ensures cfg.messageWrappingSetting ==> EndsWith(PlainText(cfg, channel, user, content), ": &#10;" + content)
  {
    var names := Concat(NameParts(cfg, channel, user));
    var tail := PlainTail(cfg, content);
    assert (names + tail)[|names + tail| - |tail|..] == tail;
  }

  // ---------------------------------------------------------------- markdown

  /** `content.replace(/\n/g, '\n> ')`: every line after the first gets the quote marker. */
  function QuoteLines(content: string): string
  {
    ReplaceAll(content, "\n", "\n> ")
  }

  /** The inverse of `QuoteLines`. */
  function UnquoteLines(quoted: string): string
  {
    ReplaceAll(quoted, "\n> ", "\n")
  }

  /** The names part of the markdown text, as the source's four-way branch writes it: one string, or nothing. */
  function MarkdownNames(cfg: LegacyConfig, channel: Option<string>, user: Option<string>): (r: string)
    ensures r == Concat(NameParts(cfg, channel, user))
  {
    var ch := Wrapped(cfg.channelNamePackageFormat, channel.GetOr(""));
    var us := Wrapped(cfg.userNamePackageFormat, user.GetOr(""));
    if Truthy(channel) && Truthy(user) then
      Concat2(ch, us);
      ch + us
    else if Truthy(channel) then
      assert Concat([ch]) == ch + "";
      ch
    else if Truthy(user) then
      assert Concat([us]) == us + "";
      us
    else ""
  }

  /**
   * The markdown-quote text: the wrapped names, the rule `&#10;---&#10;` iff
   * at least one name is present, then `"> "` and the quoted content.
   */
  function MarkdownText(cfg: LegacyConfig, channel: Option<string>, user: Option<string>, content: string): (r: string)
    ensures r == Concat(NameParts(cfg, channel, user)) +
      (if Truthy(channel) || Truthy(user) then "&#10;---&#10;" else "") + "> " + QuoteLines(content)
  {
    MarkdownNames(cfg, channel, user) + (if Truthy(channel) || Truthy(user) then "&#10;---&#10;" else "") +
      "> " + QuoteLines(content)
  }

  /** Removing the quote markers gives back the content. */
  lemma {:induction false} UnquoteQuoteLines(content: string)
    ensures UnquoteLines(QuoteLines(content)) == content
    decreases |content|
  {
    if |content| > 0 {
      UnquoteQuoteLines(content[1..]);
      var q := QuoteLines(content[1..]);
      if content[0] == '\n' {
        assert content[..1] == "\n";
        assert QuoteLines(content) == "\n> " + q;
        assert ("\n> " + q)[..3] == "\n> " && ("\n> " + q)[3..] == q;
        assert UnquoteLines("\n> " + q) == "\n" + UnquoteLines(q);
      } else {
        assert content[..1] != "\n";
        assert QuoteLines(content) == [content[0]] + q;
        var w := [content[0]] + q;
        assert w[1..] == q;
        assert !(3 <= |w| && w[..3] == "\n> ") by {
          if 3 <= |w| { assert w[..3][0] == content[0]; }
        }
        assert UnquoteLines(w) == [content[0]] + UnquoteLines(q);
      }
      assert [content[0]] + content[1..] == content;
    }
  }

  /** In quoted content every line break is followed by the quote marker `> `. */
  lemma {:induction false} QuoteLinesMarked(content: string)
    ensures forall i :: 0 <= i < |QuoteLines(content)| && QuoteLines(content)[i] == '\n' ==>
      i + 2 < |QuoteLines(content)| && QuoteLines(content)[i + 1] == '>' && QuoteLines(content)[i + 2] == ' '
    decreases |content|
  {
    if |content| > 0 {
      QuoteLinesMarked(content[1..]);
      var q := QuoteLines(content[1..]);
      if content[0] == '\n' {
        assert content[..1] == "\n";
        assert QuoteLines(content) == "\n> " + q;
      } else {
        assert content[..1] != "\n";
        assert QuoteLines(content) == [content[0]] + q;
      }
    }
  }
}

/**
 * The newer per-route relay: a `Processor` bound to one route filters an
 * inbound session, builds the name header and sends header plus content to
 * the target channel.
 */
module Processing {
  import opened Wrappers
  import opened Text
  import opened Domain
  import Legacy

  /** The settings a `Processor` reads. */
  datatype ProcessorConfig = ProcessorConfig(
    userNamePackageFormat: Wrap,
    channelNamePackageFormat: Wrap,
    enableUserName: bool,
    enableChannelName: bool,
    enableNickName: bool,
    enableMessageWrapping: bool,
    /** `true`: the vocabulary is an allow list; `false`: a deny list. */
    filterVocabularyWhiteOrBlackList: bool,
    filterVocabularyList: seq<string>)

  /** One `sendMessage(channelId, text)` on the bot keyed `platform:botId`. */
  datatype Delivery = Delivery(bot: string, channelId: string, text: string)

  /** `Array.prototype.join` renders a missing name as the empty string. */
  function Rendered(name: Option<string>): string
  {
    name.GetOr("")
  }

  /**
   * The header: the wrapped channel name when channel names are enabled, the
   * wrapped user name when user names are enabled, and `": "` when either is.
   * The wrap symbols are emitted even when the name is missing.
   */
  function HeaderText(cfg: ProcessorConfig, channelName: Option<string>, userName: Option<string>): (h: string)
    ensures h == "" <==> !cfg.enableChannelName && !cfg.enableUserName
    ensures EndsWith(h, ": ") <==> cfg.enableChannelName || cfg.enableUserName
    ensures cfg.enableChannelName ==> StartsWith(h, Wrapped(cfg.channelNamePackageFormat, Rendered(channelName)))
    ensures !cfg.enableChannelName && cfg.enableUserName ==> StartsWith(h, Wrapped(cfg.userNamePackageFormat, Rendered(userName)))
    ensures cfg.enableChannelName && cfg.enableUserName ==>
      h == Wrapped(cfg.channelNamePackageFormat, Rendered(channelName)) + Wrapped(cfg.userNamePackageFormat, Rendered(userName)) + ": "
  {
    var ch := if cfg.enableChannelName then Wrapped(cfg.channelNamePackageFormat, Rendered(channelName)) else "";
    var us := if cfg.enableUserName then Wrapped(cfg.userNamePackageFormat, Rendered(userName)) else "";
    var sep := if cfg.enableChannelName || cfg.enableUserName then ": " else "";
    var h := ch + us + sep;
    assert |sep| > 0 ==> h[|h| - 2..] == sep;
    assert ch + us + sep == ch + (us + sep);
    assert h[..|ch|] == ch;
    assert !cfg.enableChannelName ==> h == us + sep;
    assert !cfg.enableChannelName ==> h[..|us|] == us;
    assert |h| < 2 ==> !EndsWith(h, ": ");
    h
  }

  /** The text sent: the header, a line break when wrapping is enabled, then the content. */
  function Outgoing(cfg: ProcessorConfig, header: string, content: string): (r: string)
    ensures StartsWith(r, header) && EndsWith(r, content)
    ensures |r| == |header| + |content| + (if cfg.enableMessageWrapping then 1 else 0)
    ensures cfg.enableMessageWrapping ==> r[|header|] == '\n'
  {
    var r := if cfg.enableMessageWrapping then header + "\n" + content else header + content;
    assert r[..|header|] == header;
    assert r[|r| - |content|..] == content;
    r
  }

  /** A relay bound to one route. */
  class Processor {
    const cfg: ProcessorConfig
    const processInfo: Route

    constructor(cfg: ProcessorConfig, processInfo: Route)
      ensures this.cfg == cfg && this.processInfo == processInfo
    {
      this.cfg := cfg;
      this.processInfo := processInfo;
    }

    /** The `platform:botId` key of the target bot. */
    function TargetBot(): string
    {
      processInfo.target.platform + ":" + processInfo.target.botId
    }

    /**
     * Whether the session is handled: it comes from the source channel and
     * platform, is not written by either bot, has content, and its content
     * mentions a listed word (allow list) or mentions none (deny list).
     */
    predicate Filter(s: Session)
    {
      !(|| s.channelId != processInfo.source.channelId
        || s.platform != processInfo.source.platform
        || s.userId == processInfo.source.botId
        || s.userId == processInfo.target.botId
        || s.content.None?
        || (cfg.filterVocabularyWhiteOrBlackList && !MentionsAny(s.content.value, cfg.filterVocabularyList))
        || (!cfg.filterVocabularyWhiteOrBlackList && MentionsAny(s.content.value, cfg.filterVocabularyList)))
    }

    /**
     * Builds the header by pushing wrap symbols and names and joining with
     * nothing: the channel name comes from the channel lookup, the user name
     * from the session in nickname mode and from the member lookup otherwise.
     */
    method ProduceHeaders(s: Session, channelName: Option<string>, memberName: Option<string>) returns (h: string)
      ensures h == HeaderText(cfg, channelName, if cfg.enableNickName then s.username else memberName)
    {
      ghost var userName := if cfg.enableNickName then s.username else memberName;
      ghost var u := if cfg.enableUserName then [cfg.userNamePackageFormat.left, Rendered(userName), cfg.userNamePackageFormat.right] else [];
      var headers: seq<string> := [];
      if cfg.enableChannelName {
        headers := headers + [cfg.channelNamePackageFormat.left, Rendered(channelName), cfg.channelNamePackageFormat.right];
      }
      if cfg.enableUserName {
        if cfg.enableNickName {
          headers := headers + [cfg.userNamePackageFormat.left, Rendered(s.username), cfg.userNamePackageFormat.right];
        } else {
          headers := headers + [cfg.userNamePackageFormat.left, Rendered(memberName), cfg.userNamePackageFormat.right];
        }
      }
      assert headers == (if cfg.enableChannelName then [cfg.channelNamePackageFormat.left, Rendered(channelName), cfg.channelNamePackageFormat.right] else []) + u;
      if cfg.enableChannelName || cfg.enableUserName {
        headers := headers + [": "];
      }
      h := Concat(headers);
      HeaderPartsJoin(cfg, channelName, if cfg.enableNickName then s.username else memberName);
    }

    /**
     * The message handler: nothing when the filter refuses the session,
     * otherwise one delivery of header and content to the target channel.
     */
    method OnMessage(s: Session, channelName: Option<string>, memberName: Option<string>) returns (out: Option<Delivery>)
      ensures out.Some? <==> Filter(s)
      ensures out.Some? ==> out.value == Delivery(TargetBot(), processInfo.target.channelId,
        Outgoing(cfg, HeaderText(cfg, channelName, if cfg.enableNickName then s.username else memberName), s.content.value))
    {
      if !Filter(s) {
        return None;
      }
      var headers := ProduceHeaders(s, channelName, memberName);
      var text := Outgoing(cfg, headers, s.content.value);
      out := Some(Delivery(TargetBot(), processInfo.target.channelId, text));
    }
  }

  /** The pushed pieces joined with nothing are the header. */
  lemma HeaderPartsJoin(cfg: ProcessorConfig, channelName: Option<string>, userName: Option<string>)
    ensures Concat(
      (if cfg.enableChannelName then [cfg.channelNamePackageFormat.left, Rendered(channelName), cfg.channelNamePackageFormat.right] else []) +
      (if cfg.enableUserName then [cfg.userNamePackageFormat.left, Rendered(userName), cfg.userNamePackageFormat.right] else []) +
      (if cfg.enableChannelName || cfg.enableUserName then [": "] else []))
      == HeaderText(cfg, channelName, userName)
  {
    var c := if cfg.enableChannelName then [cfg.channelNamePackageFormat.left, Rendered(channelName), cfg.channelNamePackageFormat.right] else [];
    var u := if cfg.enableUserName then [cfg.userNamePackageFormat.left, Rendered(userName), cfg.userNamePackageFormat.right] else [];
    var e := if cfg.enableChannelName || cfg.enableUserName then [": "] else [];
    ConcatAppend(c + u, e);
    ConcatAppend(c, u);
    TripleConcat(cfg.channelNamePackageFormat.left, Rendered(channelName), cfg.channelNamePackageFormat.right);
    TripleConcat(cfg.userNamePackageFormat.left, Rendered(userName), cfg.userNamePackageFormat.right);
    assert Concat([": "]) == ": " + "";
  }

  lemma TripleConcat(a: string, b: string, c: string)
    ensures Concat([a, b, c]) == a + b + c
  {
    assert [a, b, c][1..] == [b, c];
    Concat2(b, c);
  }

  /** The session has content, comes from the route's source channel and platform, and is written by neither bot. */
  predicate FromSource(route: Route, s: Session)
  {
    && s.content.Some?
    && s.channelId == route.source.channelId
    && s.platform == route.source.platform
    && s.userId != route.source.botId
    && s.userId != route.target.botId
  }

  /** The filter only admits content from the source channel and platform, written by neither bot. */
  lemma FilterAdmitsOnlySource(p: Processor, s: Session)
    ensures p.Filter(s) ==> FromSource(p.processInfo, s)
    ensures p.Filter(s) && p.cfg.filterVocabularyWhiteOrBlackList ==> MentionsAny(s.content.value, p.cfg.filterVocabularyList)
    ensures p.Filter(s) && !p.cfg.filterVocabularyWhiteOrBlackList ==> !MentionsAny(s.content.value, p.cfg.filterVocabularyList)
  {
  }

  /** An empty allow list admits nothing; an empty deny list leaves only the structural checks. */
  lemma EmptyVocabulary(p: Processor, s: Session)
    requires p.cfg.filterVocabularyList == []
    ensures p.cfg.filterVocabularyWhiteOrBlackList ==> !p.Filter(s)
    ensures !p.cfg.filterVocabularyWhiteOrBlackList ==>
      (p.Filter(s) <==> FromSource(p.processInfo, s))
  {
  }

  /** The empty word occurs in every content: listed in an allow list it admits everything structural, in a deny list nothing. */
  lemma EmptyWordInVocabulary(p: Processor, s: Session)
    requires "" in p.cfg.filterVocabularyList
    requires s.content.Some?
    ensures !p.cfg.filterVocabularyWhiteOrBlackList ==> !p.Filter(s)
    ensures p.cfg.filterVocabularyWhiteOrBlackList ==>
      (p.Filter(s) <==> FromSource(p.processInfo, s))
  {
    var i :| 0 <= i < |p.cfg.filterVocabularyList| && p.cfg.filterVocabularyList[i] == "";
    ContainsEmpty(s.content.value);
    assert MentionsAny(s.content.value, p.cfg.filterVocabularyList);
  }

  /**
   * In deny-list mode the processor filter and the older handler's filter
   * select the same sessions with content, given the same vocabulary and an
   * empty exclusion list. They part on absent content: the processor always
   * drops it, the older handler lets it through when the vocabulary is empty.
   */
  lemma FilterAgreesWithLegacy(p: Processor, lcfg: Legacy.LegacyConfig, s: Session)
    requires !p.cfg.filterVocabularyWhiteOrBlackList
    requires p.cfg.filterVocabularyList == lcfg.filterVocabulary
    ensures s.content.Some? ==> (p.Filter(s) <==> Legacy.Admits(lcfg, [], s, p.processInfo))
    ensures s.content.None? ==> !p.Filter(s)
    ensures s.content.None? ==>
      (Legacy.Admits(lcfg, [], s, p.processInfo) <==>
        lcfg.filterVocabulary == [] && FromSource(p.processInfo, s.(content := Some(""))))
  {
  }

  /**
   * Without wrapping, with both names enabled and present and the same wrap
   * symbols, the older handler's plain text is the processor's header
   * followed by the content.
   */
  lemma PlainTextAgreesWithHeader(cfg: ProcessorConfig, lcfg: Legacy.LegacyConfig, channel: string, user: string, content: string)
    requires cfg.enableChannelName && cfg.enableUserName && !cfg.enableMessageWrapping
    requires lcfg.channelNameSetting && lcfg.userNameSetting && !lcfg.messageWrappingSetting
    requires cfg.channelNamePackageFormat == lcfg.channelNamePackageFormat
    requires cfg.userNamePackageFormat == lcfg.userNamePackageFormat
    requires channel != "" && user != ""
    ensures Legacy.PlainText(lcfg, Some(channel), Some(user), content) ==
      Outgoing(cfg, HeaderText(cfg, Some(channel), Some(user)), content)
  {
    var ch := Wrapped(cfg.channelNamePackageFormat, channel);
    var us := Wrapped(cfg.userNamePackageFormat, user);
    assert Legacy.NameParts(lcfg, Some(channel), Some(user)) == [ch, us];
    Concat2(ch, us);
  }

  /** An example: with `[` `]` around both names the header of channel General and user Alice reads `[General][Alice]: `. */
  lemma HeaderExample(cfg: ProcessorConfig)
    requires cfg.enableChannelName && cfg.enableUserName
    requires cfg.channelNamePackageFormat == Wrap("[", "]") && cfg.userNamePackageFormat == Wrap("[", "]")
    ensures HeaderText(cfg, Some("General"), Some("Alice")) == "[General][Alice]: "
  {
  }
}

/**
 * KOOK card messages: the three module builders of `KOOKCardMessage`
 * (`plainText`, `kmarkdown`, `image`) plus the `divider` module, the card
 * header, and the loop that maps image segments of the relayed text to modules.
 */
module Card {
  import opened Wrappers
  import opened Text
  import opened Images

  /** The `text.type` of a section: `plain-text` or `kmarkdown`. */
  datatype TextKind = PlainTextKind | KMarkdownKind

  /**
   * One card module: a `section` with text (`plainText`, `kmarkdown`), a
   * `container` with one `image` element (`image`), or a `divider`.
   */
  datatype CardModule =
    | Section(kind: TextKind, content: string)
    | ImageContainer(src: string)
    | Divider

  /**
   * What the card path ends in: a card with its modules; the compatibility
   * fallback that sends the flat text instead; or a thrown `TypeError` (an
   * image segment without a `src`), which the handler catches, so nothing is sent.
   */
  datatype CardResult = CardMessage(modules: seq<CardModule>) | CompatText(text: string) | Broken

  /** The full-width colon that closes the header when the body is not wrapped. */
  const FullWidthColon: string := "\U{FF1A}"

  /**
   * The header modules: nothing when a custom card is configured (that branch
   * is commented out), else one `kmarkdown` section holding the wrapped names
   * joined by a space, followed by `[pink]：` when not wrapping, or by a
   * `divider` module when wrapping.
   */
  function HeaderModules(useMine: bool, wrapping: bool, names: seq<string>): (r: seq<CardModule>)
    ensures useMine <==> r == []
    ensures !useMine ==> |r| >= 1 && r[0].Section? && r[0].kind == KMarkdownKind
    ensures !useMine ==> r[0].content == "(font)" + Join(names, " ") + "(font)[pink]" + (if wrapping then "" else FullWidthColon)
    ensures !useMine && !wrapping ==> |r| == 1
    ensures !useMine && wrapping ==> |r| == 2 && r[1] == Divider
  {
    if useMine then []
    else
      var start := "(font)" + Join(names, " ") + "(font)[pink]";
      if !wrapping then [Section(KMarkdownKind, start + FullWidthColon)]
      else [Section(KMarkdownKind, start), Divider]
  }

  /** Some segment is an image tag. */
  predicate HasImage(segments: seq<string>)
  {
    exists k :: 0 <= k < |segments| && IsImgTag(segments[k])
  }

  /** Some image segment has no `src` to extract. */
  predicate HasBrokenImage(segments: seq<string>)
  {
    exists k :: 0 <= k < |segments| && IsImgTag(segments[k]) && ExtractImgSrc(segments[k]).None?
  }

  /**
   * The modules are the header followed by exactly one module per segment:
   * an image segment becomes a `container` whose `src` is the extracted
   * source with `&amp;` decoded, any other segment a `plain-text` section.
   */
  predicate ModulesFollow(header: seq<CardModule>, segments: seq<string>, modules: seq<CardModule>)
  {
    && |modules| == |header| + |segments|
    && modules[..|header|] == header
    && forall k :: 0 <= k < |segments| ==>
      if IsImgTag(segments[k])
      then ExtractImgSrc(segments[k]).Some? && modules[|header| + k] == ImageContainer(DecodeAmp(ExtractImgSrc(segments[k]).value))
      else modules[|header| + k] == Section(PlainTextKind, segments[k])
  }

  /**
   * The module loop over the segments of the relayed text. In compatibility
   * mode the first image segment abandons the card and sends `flat` (the
   * ordinary header-plus-content text) once; otherwise each segment becomes
   * exactly one module after the header: an image segment a `container`
   * whose `src` is the extracted source with `&amp;` decoded, any other
   * segment a `plain-text` section.
   */
  method BuildCard(header: seq<CardModule>, segments: seq<string>, compatibilityMode: bool, flat: string)
    returns (r: CardResult)
    ensures compatibilityMode && HasImage(segments) ==> r == CompatText(flat)
    ensures !compatibilityMode && HasBrokenImage(segments) ==> r == Broken
    ensures !(compatibilityMode && HasImage(segments)) && !(!compatibilityMode && HasBrokenImage(segments)) ==> r.CardMessage?
    ensures r.CardMessage? ==> ModulesFollow(header, segments, r.modules)
  {
    var modules := header;
    for i := 0 to |segments|
      invariant |modules| == |header| + i && modules[..|header|] == header
      invariant forall k :: 0 <= k < i ==> !(compatibilityMode && IsImgTag(segments[k]))
      invariant forall k :: 0 <= k < i ==>
        if IsImgTag(segments[k])
        then ExtractImgSrc(segments[k]).Some? && modules[|header| + k] == ImageContainer(DecodeAmp(ExtractImgSrc(segments[k]).value))
        else modules[|header| + k] == Section(PlainTextKind, segments[k])
    {
      if IsImgTag(segments[i]) {
        if compatibilityMode {
          return CompatText(flat);
        }
        match ExtractImgSrc(segments[i])
        case None =>
          return Broken;
        case Some(src) =>
          modules := modules + [ImageContainer(DecodeAmp(src))];
      } else {
        modules := modules + [Section(PlainTextKind, segments[i])];
      }
    }
    r := CardMessage(modules);
  }

  /** The parsed segments of a text hold an image tag iff `isImgTag` holds of the whole text. */
  lemma ImageInSegments(input: string)
    ensures HasImage(Segments(input)) <==> IsImgTag(input)
  {
    SegmentsSegment(input);
    var r := Segments(input);
    if IsImgTag(input) {
      var p :| 0 <= p < |input| && TagEnd(input, p).Some?;
      ScanFindsTag(input, 0, 0, p);
      TagIsImgTag(r[1]);
    } else {
      ScanWithoutTag(input, 0, 0);
      assert input[0..] == input;
      assert r == [input];
    }
  }

  /**
   * On parsed text (segments alternating text and tag), the module after the
   * header at an even position is a `plain-text` section, at an odd position
   * an image container.
   */
  lemma CardOfParsedText(header: seq<CardModule>, segments: seq<string>, modules: seq<CardModule>)
    requires forall k :: 0 <= k < |segments| && k % 2 == 1 ==> IsTag(segments[k])
    requires forall k :: 0 <= k < |segments| && k % 2 == 0 ==> !IsImgTag(segments[k])
    requires ModulesFollow(header, segments, modules)
    ensures forall k :: 0 <= k < |segments| ==> (modules[|header| + k].ImageContainer? <==> k % 2 == 1)
    ensures forall k :: 0 <= k < |segments| && k % 2 == 0 ==> modules[|header| + k] == Section(PlainTextKind, segments[k])
  {
    SegmentKinds(segments);
    forall k | 0 <= k < |segments| ensures modules[|header| + k].ImageContainer? <==> k % 2 == 1 {
      if k % 2 == 1 {
        assert IsImgTag(segments[k]);
      } else {
        assert !IsImgTag(segments[k]);
      }
    }
  }
}

/**
 * Image segmentation of relayed text: the `<img…>` tag pattern `/<img.*?\/?>/`,
 * `parseTextWithImages`, `isImgTag`, `extractImgSrc` and the `&amp;` decoding
 * applied to an extracted source.
 *
 * The lazy regular expressions are written out with their JavaScript meaning:
 * `.` matches any character except a line terminator, and a lazy quantifier
 * takes the shortest extension that lets the rest of the pattern match.
 */
module Images {
  import opened Wrappers
  import opened Text

  /** The characters JavaScript's `.` does not match. */
  predicate IsLineTerminator(c: char)
  {
    c == '\n' || c == '\r' || c == '\U{2028}' || c == '\U{2029}'
  }

  /** Index of the first `>` at or after `i` with no line terminator before it (`.*?\/?>`). */
  function CloseAt(s: string, i: nat): (r: Option<nat>)
    decreases |s| - i
    ensures r.Some? ==> i <= r.value < |s| && s[r.value] == '>'
    ensures r.Some? ==> forall k :: i <= k < r.value ==> s[k] != '>' && !IsLineTerminator(s[k])
  {
    if i >= |s| then None
    else if s[i] == '>' then Some(i)
    else if IsLineTerminator(s[i]) then None
    else CloseAt(s, i + 1)
  }

  /** The literal `<img` starts at `p`. */
  predicate ImgAt(s: string, p: nat)
  {
    p + 4 <= |s| && s[p] == '<' && s[p + 1] == 'i' && s[p + 2] == 'm' && s[p + 3] == 'g'
  }

  /** End (exclusive) of the `<img…>` match that starts at `p`, if one does. */
  function TagEnd(s: string, p: nat): (r: Option<nat>)
    ensures r.Some? ==> p + 5 <= r.value <= |s|
  {
    if ImgAt(s, p) then
      match CloseAt(s, p + 4)
      case Some(j) => Some(j + 1)
      case None => None
    else None
  }

  /** `t` is exactly one match of the tag pattern. */
  predicate IsTag(t: string)
  {
    TagEnd(t, 0) == Some(|t|)
  }

  /** `isImgTag`: `regex.test(element)`, some match of the tag pattern occurs in `element`. */
  predicate IsImgTag(element: string)
  {
    exists p :: 0 <= p < |element| && TagEnd(element, p).Some?
  }

  /** A tag match inside a slice `s[a..b]` is a match of the same extent in `s`, and conversely when it ends inside the slice. */
  lemma {:induction false} CloseAtSlice(s: string, a: nat, b: nat, q: nat)
    requires a <= q <= b <= |s|
    ensures CloseAt(s[a..b], q - a).Some? ==> CloseAt(s, q) == Some(CloseAt(s[a..b], q - a).value + a)
    ensures CloseAt(s, q).Some? && CloseAt(s, q).value < b ==> CloseAt(s[a..b], q - a) == Some(CloseAt(s, q).value - a)
    decreases b - q
  {
    var t := s[a..b];
    if q < b {
      assert t[q - a] == s[q];
      CloseAtSlice(s, a, b, q + 1);
    }
  }

  lemma TagEndSlice(s: string, a: nat, b: nat, p: nat)
    requires a <= p <= b <= |s|
    ensures TagEnd(s[a..b], p - a).Some? ==> TagEnd(s, p) == Some(TagEnd(s[a..b], p - a).value + a)
    ensures TagEnd(s, p).Some? && TagEnd(s, p).value <= b ==> TagEnd(s[a..b], p - a) == Some(TagEnd(s, p).value - a)
  {
    var t := s[a..b];
    if p + 4 <= b {
      assert t[p - a] == s[p] && t[p - a + 1] == s[p + 1] && t[p - a + 2] == s[p + 2] && t[p - a + 3] == s[p + 3];
      CloseAtSlice(s, a, b, p + 4);
    } else if TagEnd(s, p).Some? {
      assert TagEnd(s, p).value > p + 4;
    }
  }

  /**
   * `segments` cut `input` into text and tags: joined they give the input,
   * there is one more text segment than tags, the odd positions hold tags and
   * no even position holds an image tag.
   */
  predicate Segmented(input: string, segments: seq<string>)
  {
    && |segments| % 2 == 1
    && Concat(segments) == input
    && (forall k :: 0 <= k < |segments| && k % 2 == 1 ==> IsTag(segments[k]))
    && (forall k :: 0 <= k < |segments| && k % 2 == 0 ==> !IsImgTag(segments[k]))
  }

  /**
   * The leftmost scan behind `input.split(regex)` and `input.match(regex)`:
   * the text from `start` runs until the first position at or after `i`
   * where a match starts; no match starts in `start .. i - 1`.
   */
  function Scan(input: string, start: nat, i: nat): (r: seq<string>)
    requires start <= i <= |input|
    decreases |input| - i
    ensures |r| % 2 == 1
  {
    if i == |input| then [input[start..]]
    else
      match TagEnd(input, i)
      case Some(e) => [input[start..i], input[i..e]] + Scan(input, e, e)
      case None => Scan(input, start, i + 1)
  }

  /** The segments `parseTextWithImages` returns: split pieces interleaved with the matches. */
  function Segments(input: string): seq<string>
  {
    Scan(input, 0, 0)
  }

  /** Where segment `k` starts in the text the segments join to. */
  function Offset(segments: seq<string>, k: nat): nat
    requires k <= |segments|
  {
    |Concat(segments[..k])|
  }

  /**
   * No match of the pattern starts inside a text segment (its span taken
   * from `base`), so each tag is the leftmost match after the previous one.
   */
  predicate TextsMatchFree(input: string, base: nat, segments: seq<string>)
  {
    forall k, p :: 0 <= k < |segments| && k % 2 == 0 && base + Offset(segments, k) <= p < base + Offset(segments, k) + |segments[k]|
      ==> TagEnd(input, p).None?
  }

  /**
   * `parseTextWithImages`: the pieces of `input.split(regex)` interleaved with
   * `input.match(regex)`. The segments alternate text and tag, starting and
   * ending with a (possibly empty) text segment; every odd segment is one
   * whole tag, no even segment contains a tag, joining the segments gives
   * back the input, and no match starts inside a text segment.
   */
  method ParseTextWithImages(input: string) returns (resultArray: seq<string>)
    ensures resultArray == Segments(input)
    ensures Segmented(input, resultArray)
    ensures TextsMatchFree(input, 0, resultArray)
  {
    resultArray := [];
    var start, i := 0, 0;
    while i < |input|
      invariant 0 <= start <= i <= |input|
      invariant resultArray + Scan(input, start, i) == Segments(input)
      decreases |input| - i
    {
      match TagEnd(input, i)
      case Some(e) =>
        var pair := [input[start..i], input[i..e]];
        assert Scan(input, start, i) == pair + Scan(input, e, e);
        assert resultArray + (pair + Scan(input, e, e)) == (resultArray + pair) + Scan(input, e, e);
        resultArray := resultArray + pair;
        start, i := e, e;
      case None =>
        i := i + 1;
    }
    resultArray := resultArray + [input[start..]];
    SegmentsSegment(input);
  }

  /** The scan's segments cut the input into text and tags, with no match inside a text. */
  lemma SegmentsSegment(input: string)
    ensures Segmented(input, Segments(input))
    ensures TextsMatchFree(input, 0, Segments(input))
  {
    ScanSegments(input, 0, 0);
    assert input[0..] == input;
  }

  lemma {:induction false} ScanSegments(input: string, start: nat, i: nat)
    requires start <= i <= |input|
    requires forall p :: start <= p < i ==> TagEnd(input, p).None?
    ensures Segmented(input[start..], Scan(input, start, i))
    ensures TextsMatchFree(input, start, Scan(input, start, i))
    decreases |input| - i
  {
    var r := Scan(input, start, i);
    if i == |input| {
      var text := input[start..];
      assert r == [text];
      assert text == input[start..|input|];
      TextIsTagFree(input, start, |input|);
      ConcatSnoc([], text);
      assert [] + [text] == [text];
      assert r[..0] == [];
    } else {
      match TagEnd(input, i)
      case None =>
        ScanSegments(input, start, i + 1);
      case Some(e) =>
        ScanSegments(input, e, e);
        ScanTagStep(input, start, i, e);
    }
  }

  /** A text and a tag put in front of the scan from the tag's end keep the segmentation. */
  lemma ScanTagStep(input: string, start: nat, i: nat, e: nat)
    requires start <= i < |input| && TagEnd(input, i) == Some(e)
    requires forall p :: start <= p < i ==> TagEnd(input, p).None?
    requires Segmented(input[e..], Scan(input, e, e)) && TextsMatchFree(input, e, Scan(input, e, e))
    ensures Segmented(input[start..], Scan(input, start, i))
    ensures TextsMatchFree(input, start, Scan(input, start, i))
  {
    var text, tag, rest := input[start..i], input[i..e], Scan(input, e, e);
    assert Scan(input, start, i) == [text, tag] + rest;
    TagSlices(input, start, i, e);
    SegmentedCons(text, tag, input[e..], rest);
    ShiftedMatchFree(input, start, text, tag, rest);
  }

  /** The text before a leftmost match is tag-free, the match is one whole tag, and the three pieces join back. */
  lemma TagSlices(input: string, start: nat, i: nat, e: nat)
    requires start <= i < |input| && TagEnd(input, i) == Some(e)
    requires forall p :: start <= p < i ==> TagEnd(input, p).None?
    ensures i < e <= |input| && |input[start..i]| == i - start && |input[i..e]| == e - i
    ensures !IsImgTag(input[start..i]) && IsTag(input[i..e])
    ensures input[start..] == input[start..i] + input[i..e] + input[e..]
  {
    TextIsTagFree(input, start, i);
    TagEndSlice(input, i, e, i);
  }

  lemma SegmentedCons(text: string, tag: string, more: string, rest: seq<string>)
    requires !IsImgTag(text) && IsTag(tag) && Segmented(more, rest)
    ensures Segmented(text + tag + more, [text, tag] + rest)
  {
    ConcatAppend([text, tag], rest);
    Concat2(text, tag);
    KindsAppend([text, tag], rest);
  }

  lemma ShiftedMatchFree(input: string, start: nat, text: string, tag: string, rest: seq<string>)
    requires forall p :: start <= p < start + |text| ==> TagEnd(input, p).None?
    requires TextsMatchFree(input, start + |text| + |tag|, rest)
    ensures TextsMatchFree(input, start, [text, tag] + rest)
  {
    var r := [text, tag] + rest;
    forall k, p | 0 <= k < |r| && k % 2 == 0 && start + Offset(r, k) <= p < start + Offset(r, k) + |r[k]|
      ensures TagEnd(input, p).None?
    {
      if k == 0 {
        assert r[..0] == [];
      } else {
        OffsetCons(text, tag, rest, k - 2);
        assert r[k] == rest[k - 2];
      }
    }
  }

  lemma OffsetCons(a: string, b: string, rest: seq<string>, j: nat)
    requires j <= |rest|
    ensures Offset([a, b] + rest, j + 2) == |a| + |b| + Offset(rest, j)
  {
    assert ([a, b] + rest)[..j + 2] == [a, b] + rest[..j];
    ConcatAppend([a, b], rest[..j]);
    Concat2(a, b);
  }

  /** Without a match from `i` on, the rest of the input is one text segment. */
  lemma {:induction false} ScanWithoutTag(input: string, start: nat, i: nat)
    requires start <= i <= |input|
    requires forall p :: i <= p < |input| ==> TagEnd(input, p).None?
    ensures Scan(input, start, i) == [input[start..]]
    decreases |input| - i
  {
    if i < |input| {
      ScanWithoutTag(input, start, i + 1);
    }
  }

  /** A match at or after `i` makes the scan cut out at least one tag. */
  lemma {:induction false} ScanFindsTag(input: string, start: nat, i: nat, p: nat)
    requires start <= i <= p < |input| && TagEnd(input, p).Some?
    ensures |Scan(input, start, i)| >= 3
    decreases p - i
  {
    if TagEnd(input, i).None? {
      ScanFindsTag(input, start, i + 1, p);
    } else {
      var e := TagEnd(input, i).value;
      assert Scan(input, start, i) == [input[start..i], input[i..e]] + Scan(input, e, e);
    }
  }

  /** Appending alternating segments after an even number of them keeps odd positions tags and even ones tag-free. */
  lemma KindsAppend(segments: seq<string>, more: seq<string>)
    requires |segments| % 2 == 0
    requires forall k :: 0 <= k < |segments| && k % 2 == 1 ==> IsTag(segments[k])
    requires forall k :: 0 <= k < |segments| && k % 2 == 0 ==> !IsImgTag(segments[k])
    requires forall k :: 0 <= k < |more| && k % 2 == 1 ==> IsTag(more[k])
    requires forall k :: 0 <= k < |more| && k % 2 == 0 ==> !IsImgTag(more[k])
    ensures forall k :: 0 <= k < |segments + more| && k % 2 == 1 ==> IsTag((segments + more)[k])
    ensures forall k :: 0 <= k < |segments + more| && k % 2 == 0 ==> !IsImgTag((segments + more)[k])
  {
    var r := segments + more;
    forall k | |segments| <= k < |r| ensures r[k] == more[k - |segments|] && (k % 2 == (k - |segments|) % 2) {
    }
  }

  /** A slice in which no match of the whole string starts contains no match of its own. */
  lemma TextIsTagFree(s: string, a: nat, b: nat)
    requires a <= b <= |s|
    requires forall p :: a <= p < b ==> TagEnd(s, p).None?
    ensures !IsImgTag(s[a..b])
  {
    forall q | 0 <= q < b - a ensures TagEnd(s[a..b], q).None? {
      TagEndSlice(s, a, b, q + a);
    }
  }

  /** A whole tag passes `isImgTag`, so in parsed output `isImgTag` holds exactly of the odd segments. */
  lemma TagIsImgTag(t: string)
    requires IsTag(t)
    ensures IsImgTag(t)
  {
    assert TagEnd(t, 0).Some?;
  }

  lemma SegmentKinds(segments: seq<string>)
    requires forall k :: 0 <= k < |segments| && k % 2 == 1 ==> IsTag(segments[k])
    requires forall k :: 0 <= k < |segments| && k % 2 == 0 ==> !IsImgTag(segments[k])
    ensures forall k :: 0 <= k < |segments| ==> (IsImgTag(segments[k]) <==> k % 2 == 1)
  {
    forall k | 0 <= k < |segments| && k % 2 == 1 ensures IsImgTag(segments[k]) {
      TagIsImgTag(segments[k]);
    }
  }

  // ---------------------------------------------------------------- extractImgSrc

  predicate IsQuote(c: char)
  {
    c == '"' || c == '\''
  }

  /** Index of the first quote at or after `i` with no line terminator before it (`(.*?)["']`). */
  function CloseQuote(s: string, i: nat): (r: Option<nat>)
    decreases |s| - i
    ensures r.Some? ==> i <= r.value < |s| && IsQuote(s[r.value])
    ensures r.Some? ==> forall k :: i <= k < r.value ==> !IsQuote(s[k]) && !IsLineTerminator(s[k])
  {
    if i >= |s| then None
    else if IsQuote(s[i]) then Some(i)
    else if IsLineTerminator(s[i]) then None
    else CloseQuote(s, i + 1)
  }

  /** The capture of `.*?src=["'](.*?)["']` tried from position `k` on. */
  function SrcFrom(s: string, k: nat): (r: Option<string>)
    decreases |s| - k
    ensures r.Some? ==> forall i :: 0 <= i < |r.value| ==> !IsQuote(r.value[i]) && !IsLineTerminator(r.value[i])
  {
    if k + 5 <= |s| && s[k..k + 4] == "src=" && IsQuote(s[k + 4]) && CloseQuote(s, k + 5).Some? then
      var m := CloseQuote(s, k + 5).value;
      Some(s[k + 5..m])
    else if k < |s| && !IsLineTerminator(s[k]) then SrcFrom(s, k + 1)
    else None
  }

  /** Leftmost match of `/<img.*?src=["'](.*?)["']/` from position `p` on. */
  function ExtractFrom(s: string, p: nat): (r: Option<string>)
    decreases |s| - p
    ensures r.Some? ==> forall i :: 0 <= i < |r.value| ==> !IsQuote(r.value[i]) && !IsLineTerminator(r.value[i])
  {
    if p + 4 > |s| then None
    else if ImgAt(s, p) && SrcFrom(s, p + 4).Some? then SrcFrom(s, p + 4)
    else ExtractFrom(s, p + 1)
  }

  /** `extractImgSrc`: the first capture group, or `null` (`None`) when the pattern does not match. */
  function ExtractImgSrc(imgTag: string): (r: Option<string>)
    ensures r.Some? ==> forall i :: 0 <= i < |r.value| ==> !IsQuote(r.value[i]) && !IsLineTerminator(r.value[i])
  {
    ExtractFrom(imgTag, 0)
  }

  /** The source of a rendered `<img src="…"…>` element comes back out unchanged. */
  lemma ExtractRoundTrip(url: string, rest: string)
    requires forall i :: 0 <= i < |url| ==> !IsQuote(url[i]) && !IsLineTerminator(url[i])
    ensures ExtractImgSrc("<img src=\"" + url + "\"" + rest) == Some(url)
  {
    var pre := "<img src=\"";
    var s := pre + url + "\"" + rest;
    assert |pre| == 10;
    assert s == (pre + url) + ("\"" + rest);
    assert (pre + url)[10..] == url;
    assert ImgAt(s, 0);
    assert s[4] == ' ' && !IsLineTerminator(s[4]);
    assert s[5..9] == "src=" && s[9] == '"';
    assert s[10..10 + |url|] == url;
    assert s[10 + |url|] == '"';
    CloseQuoteSkips(s, 10, 10 + |url|);
    assert SrcFrom(s, 5) == Some(url);
    assert !(s[4..8] == "src=");
    assert SrcFrom(s, 4) == SrcFrom(s, 5);
  }

  lemma {:induction false} CloseQuoteSkips(s: string, i: nat, m: nat)
    requires i <= m < |s| && IsQuote(s[m])
    requires forall k :: i <= k < m ==> !IsQuote(s[k]) && !IsLineTerminator(s[k])
    ensures CloseQuote(s, i) == Some(m)
    decreases m - i
  {
    if i < m {
      CloseQuoteSkips(s, i + 1, m);
    }
  }

  // ---------------------------------------------------------------- &amp;

  /** `src.replace(/&amp;/g, '&')`, applied to an extracted source before it becomes a card image. */
  function DecodeAmp(src: string): string
  {
    ReplaceAll(src, "&amp;", "&")
  }

  /** The HTML escaping of `&` whose inverse `DecodeAmp` is. */
  function EscapeAmp(s: string): string
  {
    ReplaceAll(s, "&", "&amp;")
  }

  /** Decoding undoes the escaping of every `&`. */
  lemma {:induction false} DecodeEscapeAmp(s: string)
    ensures DecodeAmp(EscapeAmp(s)) == s
    decreases |s|
  {
    if |s| > 0 {
      DecodeEscapeAmp(s[1..]);
      var e := EscapeAmp(s[1..]);
      if s[0] == '&' {
        assert s[..1] == "&";
        assert EscapeAmp(s) == "&amp;" + e;
        assert ("&amp;" + e)[..5] == "&amp;";
        assert ("&amp;" + e)[5..] == e;
        assert DecodeAmp("&amp;" + e) == "&" + DecodeAmp(e);
      } else {
        var w := [s[0]] + e;
        assert EscapeAmp(s) == w;
        assert w[0] == s[0];
        assert !(5 <= |w| && w[..5] == "&amp;") by {
          if 5 <= |w| {
            assert w[..5][0] == s[0];
          }
        }
        assert w[1..] == e;
        assert DecodeAmp([s[0]] + e) == [s[0]] + DecodeAmp(e);
      }
      assert [s[0]] + s[1..] == s;
    }
  }
}

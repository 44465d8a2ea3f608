/**
 * The pure part of `extractContent`: from an already-parsed page (the visible
 * body text left after script/style/nav/header/footer/noscript elements are
 * removed, the anchors and the heading elements, all in document order) to the
 * snapshot `{text, links, headings}` that the change detector compares.
 */
module Extractor {
  import opened Wrappers
  import opened Text
  import opened Seqs

  /** An extracted link: `{href, text}`. */
  datatype Link = Link(href: string, text: string)

  /** The structural fingerprint of a page. */
  datatype Snapshot = Snapshot(text: string, links: seq<Link>, headings: seq<string>)

  /** An `<a>` element: its `href` attribute (absent when not set) and its text content. */
  datatype Anchor = Anchor(href: Option<string>, text: string)

  /** An `<hN>` element: its level N and its text content. */
  datatype HeadingElement = HeadingElement(level: nat, text: string)

  /** The parse of a page, after the non-content elements are removed. */
  datatype ParsedPage = ParsedPage(bodyText: string, anchors: seq<Anchor>, headings: seq<HeadingElement>)

  /** Text with no whitespace at the ends, only plain spaces inside and never two whitespace characters in a row. */
  predicate IsNormalized(t: string) {
    IsTrimmed(t) &&
    (forall i | 0 <= i < |t| :: IsWhitespace(t[i]) ==> t[i] == ' ') &&
    (forall i | 0 <= i < |t| - 1 :: !(IsWhitespace(t[i]) && IsWhitespace(t[i + 1])))
  }

  /** Trimming text whose whitespace is single spaces yields normalised text. */
  lemma {:induction false} TrimOfCollapsedIsNormalized(c: string)
    requires forall i | 0 <= i < |c| :: IsWhitespace(c[i]) ==> c[i] == ' '
    requires forall i | 0 <= i < |c| - 1 :: IsWhitespace(c[i]) ==> !IsWhitespace(c[i + 1])
    ensures IsNormalized(Trim(c))
  {
    TrimIsTrimmedSlice(c);
    CollapsedSlice(c, TrimOffset(c), |Trim(c)|);
  }

  /** A slice of text whose whitespace is single spaces has its whitespace as single spaces too. */
  lemma CollapsedSlice(c: string, k: nat, n: nat)
    requires k + n <= |c|
    requires forall i | 0 <= i < |c| :: IsWhitespace(c[i]) ==> c[i] == ' '
    requires forall i | 0 <= i < |c| - 1 :: IsWhitespace(c[i]) ==> !IsWhitespace(c[i + 1])
    ensures var r := c[k..k + n];
            (forall i | 0 <= i < |r| :: IsWhitespace(r[i]) ==> r[i] == ' ') &&
            (forall i | 0 <= i < |r| - 1 :: !(IsWhitespace(r[i]) && IsWhitespace(r[i + 1])))
  {
    var r := c[k..k + n];
    forall i | 0 <= i < |r|
      ensures IsWhitespace(r[i]) ==> r[i] == ' '
    {
      assert r[i] == c[k + i];
    }
    forall i | 0 <= i < |r| - 1
      ensures !(IsWhitespace(r[i]) && IsWhitespace(r[i + 1]))
    {
      assert r[i] == c[k + i] && r[i + 1] == c[k + i + 1];
    }
  }

  /** `text.replace(/\s+/g, ' ').trim()`. */
  function NormalizeText(s: string): (r: string)
    ensures r == Join(Words(s), " ")
    ensures IsNormalized(r)
    ensures NonWhitespace(r) == NonWhitespace(s)
  {
    var collapsed := ReplaceWhitespaceRuns(s, ' ');
    CollapseTrimIsJoinedWords(s);
    TrimOfCollapsedIsNormalized(collapsed);
    TrimKeepsText(collapsed);
    ReplaceWhitespaceRunsKeepsText(s, ' ');
    Trim(collapsed)
  }

  /** Normalising normalised text changes nothing, so normalising twice is normalising once. */
  lemma {:induction false} NormalizeTextIdempotent(s: string)
    ensures NormalizeText(NormalizeText(s)) == NormalizeText(s)
  {
    var t := NormalizeText(s);
    ReplaceWhitespaceRunsFixpoint(t, ' ');
    assert TrimStart(t) == t;
    assert TrimEnd(t) == t;
  }

  /** The anchors `extractContent` keeps: a non-empty `href` and non-empty trimmed text. */
  predicate IsLinkAnchor(a: Anchor) {
    a.href.Some? && a.href.value != "" && Trim(a.text) != ""
  }

  /** What a kept anchor becomes. */
  function LinkOf(a: Anchor): Link
    requires IsLinkAnchor(a)
  {
    Link(a.href.value, Trim(a.text))
  }

  /** `LinkOf` on every anchor, with a placeholder for those that yield no link. */
  function LinkOfAnchor(a: Anchor): Link {
    if IsLinkAnchor(a) then LinkOf(a) else Link("", "")
  }

  /** A link as extraction produces it. */
  predicate IsExtractedLink(l: Link) {
    l.href != "" && l.text != "" && IsTrimmed(l.text)
  }

  /** The links of one anchor: none, or the one it yields. */
  function AnchorLinks(a: Anchor): (r: seq<Link>)
    ensures |r| <= 1
    ensures forall i | 0 <= i < |r| :: IsExtractedLink(r[i])
  {
    TrimIsTrimmedSlice(a.text);
    if IsLinkAnchor(a) then [LinkOf(a)] else []
  }

  /** The `$('a').each(...)` loop: one link per anchor with a non-empty href and non-empty trimmed text. */
  function ExtractLinks(anchors: seq<Anchor>): (links: seq<Link>)
    ensures |links| <= |anchors|
    ensures forall i | 0 <= i < |links| :: IsExtractedLink(links[i])
  {
    if anchors == [] then [] else AnchorLinks(anchors[0]) + ExtractLinks(anchors[1..])
  }

  /** Link extraction is exactly: keep the qualifying anchors in document order, then take each one's href and trimmed text. */
  lemma {:induction false} ExtractLinksIsFilterThenMap(anchors: seq<Anchor>)
    ensures ExtractLinks(anchors) == Map(LinkOfAnchor, Filter(IsLinkAnchor, anchors))
  {
    if anchors != [] {
      var a, rest := anchors[0], Filter(IsLinkAnchor, anchors[1..]);
      ExtractLinksIsFilterThenMap(anchors[1..]);
      if IsLinkAnchor(a) {
        assert AnchorLinks(a) == [LinkOfAnchor(a)];
        assert Filter(IsLinkAnchor, anchors) == [a] + rest;
        MapCons(LinkOfAnchor, a, rest);
      } else {
        assert AnchorLinks(a) == [];
        assert Filter(IsLinkAnchor, anchors) == rest;
      }
    }
  }

  /** The elements `$('h1, h2, h3')` selects. */
  predicate IsSectionHeading(h: HeadingElement) {
    1 <= h.level <= 3
  }

  /** The text an `<hN>` element contributes. */
  function HeadingText(h: HeadingElement): string {
    Trim(h.text)
  }

  /** The headings of one element: its trimmed text when it is an h1, h2 or h3, none otherwise. */
  function ElementHeadings(h: HeadingElement): (r: seq<string>)
    ensures |r| <= 1
    ensures forall i | 0 <= i < |r| :: IsTrimmed(r[i])
  {
    TrimIsTrimmedSlice(h.text);
    if IsSectionHeading(h) then [HeadingText(h)] else []
  }

  /** The `$('h1, h2, h3').each(...)` loop: the trimmed text of every level 1 to 3 heading, empty ones included. */
  function ExtractHeadings(elements: seq<HeadingElement>): (headings: seq<string>)
    ensures |headings| <= |elements|
    ensures forall i | 0 <= i < |headings| :: IsTrimmed(headings[i])
  {
    if elements == [] then [] else ElementHeadings(elements[0]) + ExtractHeadings(elements[1..])
  }

  /** Heading extraction is exactly: keep the level 1 to 3 headings in document order, then trim each one's text. */
  lemma {:induction false} ExtractHeadingsIsFilterThenMap(elements: seq<HeadingElement>)
    ensures ExtractHeadings(elements) == Map(HeadingText, Filter(IsSectionHeading, elements))
  {
    if elements != [] {
      var h, rest := elements[0], Filter(IsSectionHeading, elements[1..]);
      ExtractHeadingsIsFilterThenMap(elements[1..]);
      if IsSectionHeading(h) {
        assert ElementHeadings(h) == [HeadingText(h)];
        assert Filter(IsSectionHeading, elements) == [h] + rest;
        MapCons(HeadingText, h, rest);
      } else {
        assert ElementHeadings(h) == [];
        assert Filter(IsSectionHeading, elements) == rest;
      }
    }
  }

  /** A snapshot as extraction produces it. */
  predicate IsExtractedSnapshot(s: Snapshot) {
    IsNormalized(s.text) &&
    (forall i | 0 <= i < |s.links| :: IsExtractedLink(s.links[i])) &&
    (forall i | 0 <= i < |s.headings| :: IsTrimmed(s.headings[i]))
  }

  /** `extractContent` over a parsed page. */
  function ExtractContent(page: ParsedPage): (s: Snapshot)
    ensures IsExtractedSnapshot(s)
    ensures s.text == Join(Words(page.bodyText), " ")
    ensures NonWhitespace(s.text) == NonWhitespace(page.bodyText)
    ensures s.links == Map(LinkOfAnchor, Filter(IsLinkAnchor, page.anchors))
    ensures s.headings == Map(HeadingText, Filter(IsSectionHeading, page.headings))
    ensures |s.links| <= |page.anchors| && |s.headings| <= |page.headings|
  {
    ExtractLinksIsFilterThenMap(page.anchors);
    ExtractHeadingsIsFilterThenMap(page.headings);
    Snapshot(NormalizeText(page.bodyText), ExtractLinks(page.anchors), ExtractHeadings(page.headings))
  }
}

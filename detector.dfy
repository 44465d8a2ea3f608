/**
 * `detectChanges`: compares the previous snapshot of a page (absent on the
 * first visit) with the current one and returns the typed change events, in
 * the fixed order of its four rules: new sections, removed sections, content
 * change, new links.
 */
module Detector {
  import opened Wrappers
  import opened Text
  import opened Seqs
  import opened Extractor

  datatype ChangeType = NewSnapshot | NewSections | RemovedSections | ContentChange | NewLinks

  datatype Significance = Low | Medium | High

  /** A change event: `{type, description, significance?, oldContent?, newContent?}`. */
  datatype Change = Change(kind: ChangeType, description: string, significance: Option<Significance>,
                           oldContent: Option<string>, newContent: Option<string>)

  /** One part of a line diff: its text, and whether it was added or removed (neither: unchanged). */
  datatype DiffPart = DiffPart(value: string, added: bool, removed: bool)

  /** `diffLines(oldText, newText)` of the `diff` library, which this model takes as given. */
  type LineDiff = (string, string) -> seq<DiffPart>

  /** More changed characters than this make a content change. */
  const SignificantChars := 100
  /** More added characters than this make a content change High. */
  const MajorChars := 500
  /** Length of the excerpts a content change carries. */
  const ExcerptChars := 300

  /** The single event for a page seen for the first time. */
  const InitialSnapshot := Change(NewSnapshot, "Initial snapshot created", None, None, None)

  /** Position of each event type in the output. */
  function Rank(k: ChangeType): nat {
    match k
    case NewSnapshot => 0
    case NewSections => 1
    case RemovedSections => 2
    case ContentChange => 3
    case NewLinks => 4
  }

  /** Some event of the list has type `k`. */
  predicate HasKind(changes: seq<Change>, k: ChangeType) {
    exists c :: c in changes && c.kind == k
  }

  /** Event types strictly increase along the list: each type at most once, in rule order. */
  predicate InRuleOrder(changes: seq<Change>) {
    forall i, j | 0 <= i < j < |changes| :: Rank(changes[i].kind) < Rank(changes[j].kind)
  }

  // ----- Rule 1 and 2: headings -----

  /** `h => !headings.includes(h)`. */
  function NotAmong(headings: seq<string>): string -> bool {
    h => h !in headings
  }

  /** Current headings missing from the old ones, in current order. */
  function NewHeadings(prev: Snapshot, cur: Snapshot): seq<string> {
    Filter(NotAmong(prev.headings), cur.headings)
  }

  /** Old headings missing from the current ones, in old order. */
  function RemovedHeadings(prev: Snapshot, cur: Snapshot): seq<string> {
    Filter(NotAmong(cur.headings), prev.headings)
  }

  function NewSectionsRule(prev: Snapshot, cur: Snapshot): (r: seq<Change>)
    ensures |r| <= 1 && forall c | c in r :: c.kind == NewSections && c.significance.Some?
  {
    var headings := NewHeadings(prev, cur);
    if |headings| > 0 then [Change(NewSections, "New sections: " + Join(headings, ", "), Some(High), None, None)]
    else []
  }

  function RemovedSectionsRule(prev: Snapshot, cur: Snapshot): (r: seq<Change>)
    ensures |r| <= 1 && forall c | c in r :: c.kind == RemovedSections && c.significance.Some?
  {
    var headings := RemovedHeadings(prev, cur);
    if |headings| > 0 then [Change(RemovedSections, "Removed sections: " + Join(headings, ", "), Some(Medium), None, None)]
    else []
  }

  // ----- Rule 3: content -----

  function Values(parts: seq<DiffPart>): seq<string> {
    seq(|parts|, i requires 0 <= i < |parts| => parts[i].value)
  }

  predicate IsAdded(d: DiffPart) { d.added }

  predicate IsRemoved(d: DiffPart) { d.removed }

  /** `diff.filter(d => d.added).map(d => d.value).join('')`. */
  function AddedText(parts: seq<DiffPart>): string {
    Join(Values(Filter(IsAdded, parts)), "")
  }

  /** `diff.filter(d => d.removed).map(d => d.value).join('')`. */
  function RemovedText(parts: seq<DiffPart>): string {
    Join(Values(Filter(IsRemoved, parts)), "")
  }

  function ContentChangeRule(added: string, removed: string): (r: seq<Change>)
    ensures |r| <= 1 && forall c | c in r :: c.kind == ContentChange && c.significance.Some?
  {
    if |added| > SignificantChars || |removed| > SignificantChars then
      [Change(ContentChange,
              "Significant content update (" + NatToString(|added|) + " chars added, " + NatToString(|removed|) + " chars removed)",
              Some(if |added| > MajorChars then High else Medium),
              Some(Prefix(removed, ExcerptChars)),
              Some(Prefix(added, ExcerptChars)))]
    else []
  }

  // ----- Rule 4: links -----

  /** Link text that, lowercased, mentions a feature, something new, pricing or a product. */
  predicate IsFeatureText(text: string) {
    var t := ToLowerAscii(text);
    Contains(t, "feature") || Contains(t, "new") || Contains(t, "pricing") || Contains(t, "product")
  }

  /** `new Set(oldSnapshot.links.map(l => l.href))`. */
  function OldHrefs(prev: Snapshot): set<string> {
    set l | l in prev.links :: l.href
  }

  predicate IsFeatureLink(l: Link) { IsFeatureText(l.text) }

  /** `l => !oldLinks.has(l.href)`. */
  function HrefNotIn(hrefs: set<string>): Link -> bool {
    (l: Link) => l.href !in hrefs
  }

  /** Current links whose href the old snapshot did not have and whose text is about features, in current order. */
  function SignificantNewLinks(prev: Snapshot, cur: Snapshot): seq<Link> {
    Filter(IsFeatureLink, Filter(HrefNotIn(OldHrefs(prev)), cur.links))
  }

  function LinkTexts(links: seq<Link>): seq<string> {
    seq(|links|, i requires 0 <= i < |links| => links[i].text)
  }

  function NewLinksRule(prev: Snapshot, cur: Snapshot): (r: seq<Change>)
    ensures |r| <= 1 && forall c | c in r :: c.kind == NewLinks && c.significance.Some?
  {
    var links := SignificantNewLinks(prev, cur);
    if |links| > 0 then [Change(NewLinks, "New links: " + Join(LinkTexts(links), ", "), Some(Medium), None, None)]
    else []
  }

  // ----- The detector -----

  lemma {:induction false} InRuleOrderAppend(a: seq<Change>, b: seq<Change>)
    requires InRuleOrder(a) && InRuleOrder(b)
    requires forall x, y | x in a && y in b :: Rank(x.kind) < Rank(y.kind)
    ensures InRuleOrder(a + b)
  {
    forall i, j | 0 <= i < j < |a + b|
      ensures Rank((a + b)[i].kind) < Rank((a + b)[j].kind)
    {
      if j < |a| {
      } else if i >= |a| {
        assert (a + b)[i] == b[i - |a|] && (a + b)[j] == b[j - |a|];
      } else {
        assert (a + b)[i] in a && (a + b)[j] in b;
      }
    }
  }

  lemma RulesInOrder(a: seq<Change>, b: seq<Change>, c: seq<Change>, d: seq<Change>)
    requires |a| <= 1 && forall x | x in a :: x.kind == NewSections && x.significance.Some?
    requires |b| <= 1 && forall x | x in b :: x.kind == RemovedSections && x.significance.Some?
    requires |c| <= 1 && forall x | x in c :: x.kind == ContentChange && x.significance.Some?
    requires |d| <= 1 && forall x | x in d :: x.kind == NewLinks && x.significance.Some?
    ensures |a + b + c + d| <= 4 && InRuleOrder(a + b + c + d)
    ensures forall x | x in a + b + c + d :: x.kind != NewSnapshot && x.significance.Some?
  {
    InRuleOrderAppend(a, b);
    InRuleOrderAppend(a + b, c);
    InRuleOrderAppend(a + b + c, d);
  }

  /** `detectChanges(oldSnapshot, newContent)`. */
  function DetectChanges(prev: Option<Snapshot>, cur: Snapshot, diff: LineDiff): (r: seq<Change>)
    ensures prev.None? ==> r == [InitialSnapshot]
    ensures prev.Some? ==> |r| <= 4 && forall c | c in r :: c.kind != NewSnapshot && c.significance.Some?
    ensures InRuleOrder(r)
  {
    match prev
    case None => [InitialSnapshot]
    case Some(prev) =>
      var parts := diff(prev.text, cur.text);
      var a := NewSectionsRule(prev, cur);
      var b := RemovedSectionsRule(prev, cur);
      var c := ContentChangeRule(AddedText(parts), RemovedText(parts));
      var d := NewLinksRule(prev, cur);
      RulesInOrder(a, b, c, d);
      a + b + c + d
  }

  // ----- What each rule promises -----

  /** In a list built from the four rules, an event of a given type comes from that type's rule. */
  lemma RuleOfKind(a: seq<Change>, b: seq<Change>, c: seq<Change>, d: seq<Change>)
    requires forall x | x in a :: x.kind == NewSections
    requires forall x | x in b :: x.kind == RemovedSections
    requires forall x | x in c :: x.kind == ContentChange
    requires forall x | x in d :: x.kind == NewLinks
    ensures var r := a + b + c + d;
            (HasKind(r, NewSections) <==> a != []) && (HasKind(r, RemovedSections) <==> b != []) &&
            (HasKind(r, ContentChange) <==> c != []) && (HasKind(r, NewLinks) <==> d != []) &&
            (forall x | x in r && x.kind == NewSections :: x in a) &&
            (forall x | x in r && x.kind == RemovedSections :: x in b) &&
            (forall x | x in r && x.kind == ContentChange :: x in c) &&
            (forall x | x in r && x.kind == NewLinks :: x in d)
  {
    var r := a + b + c + d;
    if a != [] { assert a[0] in r; }
    if b != [] { assert b[0] in r; }
    if c != [] { assert c[0] in r; }
    if d != [] { assert d[0] in r; }
  }

  /** Given a previous snapshot, the detector's output is its four rules' outputs in code order. */
  lemma DetectChangesIsRules(prev: Snapshot, cur: Snapshot, diff: LineDiff)
    ensures DetectChanges(Some(prev), cur, diff) ==
            NewSectionsRule(prev, cur) + RemovedSectionsRule(prev, cur) +
            ContentChangeRule(AddedText(diff(prev.text, cur.text)), RemovedText(diff(prev.text, cur.text))) +
            NewLinksRule(prev, cur)
  {
  }

  /** The detector's output, split into its four rules; an event of a given type comes from that type's rule. */
  lemma DetectChangesByRule(prev: Snapshot, cur: Snapshot, diff: LineDiff)
    ensures var parts := diff(prev.text, cur.text);
            var a, b := NewSectionsRule(prev, cur), RemovedSectionsRule(prev, cur);
            var c, d := ContentChangeRule(AddedText(parts), RemovedText(parts)), NewLinksRule(prev, cur);
            var r := DetectChanges(Some(prev), cur, diff);
            r == a + b + c + d &&
            (HasKind(r, NewSections) <==> a != []) && (HasKind(r, RemovedSections) <==> b != []) &&
            (HasKind(r, ContentChange) <==> c != []) && (HasKind(r, NewLinks) <==> d != []) &&
            (forall x | x in r && x.kind == NewSections :: x in a) &&
            (forall x | x in r && x.kind == RemovedSections :: x in b) &&
            (forall x | x in r && x.kind == ContentChange :: x in c) &&
            (forall x | x in r && x.kind == NewLinks :: x in d)
  {
    var parts := diff(prev.text, cur.text);
    DetectChangesIsRules(prev, cur, diff);
    RuleOfKind(NewSectionsRule(prev, cur), RemovedSectionsRule(prev, cur),
               ContentChangeRule(AddedText(parts), RemovedText(parts)), NewLinksRule(prev, cur));
  }

  /** The new headings are exactly the current headings that are not old ones. */
  lemma NewHeadingsMembers(prev: Snapshot, cur: Snapshot)
    ensures forall h :: h in NewHeadings(prev, cur) <==> h in cur.headings && h !in prev.headings
  {
    forall h
      ensures h in NewHeadings(prev, cur) <==> h in cur.headings && h !in prev.headings
    {
      FilterMembership(NotAmong(prev.headings), cur.headings, h);
    }
  }

  /** The removed headings are exactly the old headings that are not current ones. */
  lemma RemovedHeadingsMembers(prev: Snapshot, cur: Snapshot)
    ensures forall h :: h in RemovedHeadings(prev, cur) <==> h in prev.headings && h !in cur.headings
  {
    forall h
      ensures h in RemovedHeadings(prev, cur) <==> h in prev.headings && h !in cur.headings
    {
      FilterMembership(NotAmong(cur.headings), prev.headings, h);
    }
  }

  /** `new_sections` appears exactly when some current heading is not an old one; it names the new headings, High. */
  lemma DetectNewSections(prev: Snapshot, cur: Snapshot, diff: LineDiff)
    ensures var r := DetectChanges(Some(prev), cur, diff);
            (HasKind(r, NewSections) <==> exists h :: h in cur.headings && h !in prev.headings) &&
            (forall c | c in r && c.kind == NewSections ::
               c == Change(NewSections, "New sections: " + Join(NewHeadings(prev, cur), ", "), Some(High), None, None))
  {
    DetectChangesByRule(prev, cur, diff);
    NewHeadingsMembers(prev, cur);
    var hs := NewHeadings(prev, cur);
    if hs != [] {
      assert hs[0] in hs;
    }
  }

  /** `removed_sections` appears exactly when some old heading is not a current one; it names the removed headings, Medium. */
  lemma DetectRemovedSections(prev: Snapshot, cur: Snapshot, diff: LineDiff)
    ensures var r := DetectChanges(Some(prev), cur, diff);
            (HasKind(r, RemovedSections) <==> exists h :: h in prev.headings && h !in cur.headings) &&
            (forall c | c in r && c.kind == RemovedSections ::
               c == Change(RemovedSections, "Removed sections: " + Join(RemovedHeadings(prev, cur), ", "), Some(Medium), None, None))
  {
    DetectChangesByRule(prev, cur, diff);
    RemovedHeadingsMembers(prev, cur);
    var hs := RemovedHeadings(prev, cur);
    if hs != [] {
      assert hs[0] in hs;
    }
  }

  /**
   * `content_change` appears exactly when more than 100 characters were added or removed; its
   * description gives both counts in decimal, its excerpts are the first (at most) 300 removed and
   * added characters, and it is High exactly when more than 500 characters were added, Medium otherwise.
   */
  lemma DetectContentChange(prev: Snapshot, cur: Snapshot, diff: LineDiff)
    ensures var added, removed := AddedText(diff(prev.text, cur.text)), RemovedText(diff(prev.text, cur.text));
            var r := DetectChanges(Some(prev), cur, diff);
            (HasKind(r, ContentChange) <==> |added| > SignificantChars || |removed| > SignificantChars) &&
            (forall c | c in r && c.kind == ContentChange ::
               c.description == "Significant content update (" + NatToString(|added|) + " chars added, " +
                                NatToString(|removed|) + " chars removed)" &&
               c.oldContent.Some? && c.oldContent.value <= removed &&
               |c.oldContent.value| == (if |removed| < ExcerptChars then |removed| else ExcerptChars) &&
               c.newContent.Some? && c.newContent.value <= added &&
               |c.newContent.value| == (if |added| < ExcerptChars then |added| else ExcerptChars) &&
               (c.significance == Some(High) <==> |added| > MajorChars) &&
               (c.significance == Some(Medium) <==> |added| <= MajorChars))
  {
    DetectChangesByRule(prev, cur, diff);
  }

  /** The significant new links are exactly the current links with an unseen href and feature text. */
  lemma SignificantNewLinksMembers(prev: Snapshot, cur: Snapshot)
    ensures forall l :: l in SignificantNewLinks(prev, cur) <==> l in cur.links && l.href !in OldHrefs(prev) && IsFeatureText(l.text)
  {
    var unseen := HrefNotIn(OldHrefs(prev));
    forall l
      ensures l in SignificantNewLinks(prev, cur) <==> l in cur.links && l.href !in OldHrefs(prev) && IsFeatureText(l.text)
    {
      FilterMembership(unseen, cur.links, l);
      FilterMembership(IsFeatureLink, Filter(unseen, cur.links), l);
    }
  }

  /**
   * `new_links` appears exactly when some current link has an href the old snapshot lacks and
   * text mentioning "feature", "new", "pricing" or "product" in any ASCII case; it lists the
   * texts of those links, Medium.
   */
  lemma DetectNewLinks(prev: Snapshot, cur: Snapshot, diff: LineDiff)
    ensures var r := DetectChanges(Some(prev), cur, diff);
            (HasKind(r, NewLinks) <==> exists l :: l in cur.links && l.href !in OldHrefs(prev) && IsFeatureText(l.text)) &&
            (forall c | c in r && c.kind == NewLinks ::
               c == Change(NewLinks, "New links: " + Join(LinkTexts(SignificantNewLinks(prev, cur)), ", "), Some(Medium), None, None))
  {
    DetectChangesByRule(prev, cur, diff);
    SignificantNewLinksMembers(prev, cur);
    var ls := SignificantNewLinks(prev, cur);
    if ls != [] {
      assert ls[0] in ls;
    }
  }

  /** A diff that reports nothing as added or removed yields empty added and removed text. */
  lemma UnchangedDiffTexts(parts: seq<DiffPart>)
    requires forall p | p in parts :: !p.added && !p.removed
    ensures AddedText(parts) == "" && RemovedText(parts) == ""
  {
    var a := Filter(IsAdded, parts);
    var b := Filter(IsRemoved, parts);
  }

  /** Comparing a snapshot with itself reports nothing, given that diffing a text with itself adds and removes nothing. */
  lemma DetectSelfIsEmpty(s: Snapshot, diff: LineDiff)
    requires forall p | p in diff(s.text, s.text) :: !p.added && !p.removed
    ensures DetectChanges(Some(s), s, diff) == []
  {
    UnchangedDiffTexts(diff(s.text, s.text));
    DetectChangesByRule(s, s, diff);
    NewHeadingsMembers(s, s);
    SignificantNewLinksMembers(s, s);
  }

  /** Appending one unseen heading makes the heading rules give one `new_sections` event naming just it, and nothing removed. */
  lemma AppendedHeadingRules(prev: Snapshot, cur: Snapshot, h: string)
    requires cur.headings == prev.headings + [h] && h !in prev.headings
    ensures NewHeadings(prev, cur) == [h] && RemovedHeadings(prev, cur) == []
    ensures NewSectionsRule(prev, cur) == [Change(NewSections, "New sections: " + h, Some(High), None, None)]
    ensures RemovedSectionsRule(prev, cur) == []
  {
    var keep := NotAmong(prev.headings);
    FilterAppend(keep, prev.headings, [h]);
    FilterKeepsNone(keep, prev.headings);
    assert Filter(keep, [h]) == [h] by {
      assert keep(h) && [h][1..] == [];
    }
    assert NewHeadings(prev, cur) == [] + [h];
    assert forall i | 0 <= i < |prev.headings| :: prev.headings[i] == cur.headings[i];
    FilterKeepsNone(NotAmong(cur.headings), prev.headings);
    assert Join([h], ", ") == h;
  }

  /** Appending one unseen heading yields one `new_sections` event naming just that heading, and no `removed_sections`. */
  lemma DetectAppendedHeading(prev: Snapshot, cur: Snapshot, h: string, diff: LineDiff)
    requires cur.headings == prev.headings + [h] && h !in prev.headings
    ensures NewHeadings(prev, cur) == [h] && RemovedHeadings(prev, cur) == []
    ensures var r := DetectChanges(Some(prev), cur, diff);
            |r| > 0 && r[0] == Change(NewSections, "New sections: " + h, Some(High), None, None) &&
            !HasKind(r, RemovedSections)
  {
    AppendedHeadingRules(prev, cur, h);
    DetectChangesByRule(prev, cur, diff);
  }

  /** A new link reading "Check our Pricing page" passes the keyword filter. */
  lemma PricingLinkIsFeature()
    ensures IsFeatureText("Check our Pricing page")
  {
    var t := ToLowerAscii("Check our Pricing page");
    assert OccursAt(t, "pricing", 10);
    ContainsIff(t, "pricing");
  }

  /** A new link reading "Contact us" does not pass the keyword filter. */
  lemma ContactLinkIsNotFeature()
    ensures !IsFeatureText("Contact us")
  {
    var s := "Contact us";
    var t := ToLowerAscii(s);
    forall k | 0 <= k < |t| - 1
      ensures t[k] != 'f' && t[k] != 'p' && (t[k] != 'n' || t[k + 1] != 'e')
    {
      assert s[k] != 'f' && s[k] != 'F' && s[k] != 'p' && s[k] != 'P';
      assert (s[k] == 'n' || s[k] == 'N') ==> s[k + 1] == 't';
    }
    NotContainsWithoutOpeningPair(t, "feature");
    NotContainsWithoutOpeningPair(t, "new");
    NotContainsWithoutOpeningPair(t, "pricing");
    NotContainsWithoutOpeningPair(t, "product");
  }

  /**
   * A page that gains the heading "New Feature", more than 500 added characters of text and its
   * first link, "/new-feature" reading "New Feature", reports in this order: new sections (High),
   * content change (High), new links (Medium).
   */
  lemma DetectNewFeatureScenario(prev: Snapshot, cur: Snapshot, diff: LineDiff)
    requires prev.headings == ["Home", "About"] && prev.links == []
    requires cur.headings == ["Home", "About", "New Feature"] && cur.links == [Link("/new-feature", "New Feature")]
    requires |AddedText(diff(prev.text, cur.text))| > 500
    ensures var r := DetectChanges(Some(prev), cur, diff);
            |r| == 3 &&
            r[0] == Change(NewSections, "New sections: " + "New Feature", Some(High), None, None) &&
            r[1].kind == ContentChange && r[1].significance == Some(High) &&
            r[2] == Change(NewLinks, "New links: " + "New Feature", Some(Medium), None, None)
  {
    var parts := diff(prev.text, cur.text);
    ScenarioHeadings(prev, cur);
    ScenarioContent(AddedText(parts), RemovedText(parts));
    ScenarioLinks(prev, cur);
    DetectChangesIsRules(prev, cur, diff);
  }

  /** The content step of the scenario above: more than 500 added characters make one High `content_change`. */
  lemma ScenarioContent(added: string, removed: string)
    requires |added| > 500
    ensures var c := ContentChangeRule(added, removed);
            |c| == 1 && c[0].kind == ContentChange && c[0].significance == Some(High)
  {
  }

  /** The heading step of the scenario above: one new section, none removed. */
  lemma ScenarioHeadings(prev: Snapshot, cur: Snapshot)
    requires prev.headings == ["Home", "About"] && cur.headings == ["Home", "About", "New Feature"]
    ensures NewSectionsRule(prev, cur) == [Change(NewSections, "New sections: " + "New Feature", Some(High), None, None)]
    ensures RemovedSectionsRule(prev, cur) == []
  {
    assert "New Feature" != "Home" && "New Feature" != "About";
    assert cur.headings == prev.headings + ["New Feature"];
    AppendedHeadingRules(prev, cur, "New Feature");
  }

  /** The link step of the scenario above: the one new link is significant. */
  lemma ScenarioLinks(prev: Snapshot, cur: Snapshot)
    requires prev.links == [] && cur.links == [Link("/new-feature", "New Feature")]
    ensures SignificantNewLinks(prev, cur) == cur.links
    ensures NewLinksRule(prev, cur) == [Change(NewLinks, "New links: " + "New Feature", Some(Medium), None, None)]
  {
    var link := Link("/new-feature", "New Feature");
    assert IsFeatureText("New Feature") by {
      var t := ToLowerAscii("New Feature");
      assert OccursAt(t, "new", 0);
      ContainsIff(t, "new");
    }
    assert OldHrefs(prev) == {};
    assert Filter(HrefNotIn(OldHrefs(prev)), cur.links) == [link];
    assert LinkTexts(cur.links) == ["New Feature"];
    assert Join(["New Feature"], ", ") == "New Feature";
  }
}

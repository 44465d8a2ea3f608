/**
 * `scrapeCompetitors` and its small rules: the snapshot file name of a page,
 * the gate that logs a page's changes only when the first one is not
 * `new_snapshot`, the webhook payload built per change, and the summary count.
 * The snapshot directory is a map from file name to snapshot; the network, the
 * HTML parser, the line diff and the date are given by the environment.
 */
module Orchestrator {
  import opened Wrappers
  import opened Text
  import opened Seqs
  import opened Extractor
  import opened Detector
  import opened Fetcher

  /** A configured page: `{name, url}`. */
  datatype PageTarget = PageTarget(name: string, url: string)

  /** A configured competitor: `{id, name, pages}`. */
  datatype Competitor = Competitor(id: string, name: string, pages: seq<PageTarget>)

  /** The `type` of a results entry: a detected change's type, or `'error'`. */
  datatype EntryType = Detected(kind: ChangeType) | Error

  /** One entry of `results`: `{competitor, page, ...change}` or an error record. */
  datatype ResultEntry = ResultEntry(competitor: string, page: string, entryType: EntryType, description: string,
                                     significance: Option<Significance>,
                                     oldContent: Option<string>, newContent: Option<string>)

  /** The body of a webhook call; `eventType` is its `type` field, always `website_change` here. */
  datatype WebhookPayload = WebhookPayload(eventType: string, date: string, competitor: string, page: string, changeType: ChangeType,
                                           oldContent: string, newContent: string, significance: Significance)

  /** What a run depends on outside the core: responses, the HTML parser, `diffLines` and today's date. */
  datatype Environment = Environment(network: Network, parse: string -> ParsedPage, diff: LineDiff, date: string)

  /** The snapshot directory: file name to the snapshot saved in it. */
  type SnapshotStore = map<string, Snapshot>

  /** Everything a run has produced so far: the results list, the webhook calls made, the snapshot directory. */
  datatype RunState = RunState(results: seq<ResultEntry>, payloads: seq<WebhookPayload>, store: SnapshotStore)

  /** `${competitorId}_${pageName.replace(/\s+/g, '_')}.json`: the id, an underscore, the page name with every whitespace run made one underscore, `.json`. */
  function SnapshotFileName(competitorId: string, pageName: string): (name: string)
    ensures name == competitorId + "_" + Padded(pageName, '_') + ".json"
    ensures competitorId + "_" <= name && |name| >= |competitorId| + 6 && name[|name| - 5..] == ".json"
    ensures forall i | |competitorId| < i < |name| :: !IsWhitespace(name[i])
  {
    var middle := ReplaceWhitespaceRuns(pageName, '_');
    ReplaceWhitespaceRunsWords(pageName, '_');
    assert forall i | 0 <= i < |middle| :: !IsWhitespace(middle[i]) by {
      assert !IsWhitespace('_');
    }
    FileNameHasNoWhitespace(competitorId, middle);
    competitorId + "_" + middle + ".json"
  }

  /** After the id, a file name built from text without whitespace has none. */
  lemma FileNameHasNoWhitespace(competitorId: string, middle: string)
    requires forall i | 0 <= i < |middle| :: !IsWhitespace(middle[i])
    ensures var name := competitorId + "_" + middle + ".json";
            forall i | |competitorId| < i < |name| :: !IsWhitespace(name[i])
  {
    var name := competitorId + "_" + middle + ".json";
    var m := |competitorId| + 1;
    forall i | |competitorId| < i < |name|
      ensures !IsWhitespace(name[i])
    {
      if i < m + |middle| {
        assert name[i] == middle[i - m];
      } else {
        assert name[i] == ".json"[i - m - |middle|];
      }
    }
  }

  /** `changes.length > 0 && changes[0].type !== 'new_snapshot'`. */
  predicate ShouldLog(changes: seq<Change>) {
    |changes| > 0 && changes[0].kind != NewSnapshot
  }

  /** The changes of a page are logged exactly when it had a previous snapshot and something changed; then none is a `new_snapshot`. */
  lemma ShouldLogDetected(prev: Option<Snapshot>, cur: Snapshot, diff: LineDiff)
    ensures var changes := DetectChanges(prev, cur, diff);
            (ShouldLog(changes) <==> prev.Some? && changes != []) &&
            (ShouldLog(changes) ==> forall c | c in changes :: c.kind != NewSnapshot)
  {
    var changes := DetectChanges(prev, cur, diff);
    if prev.Some? && changes != [] {
      assert changes[0] in changes;
    }
  }

  /** The results entry of a change: competitor and page, then the change's own fields. */
  function ChangeEntry(competitor: string, page: string, c: Change): ResultEntry {
    ResultEntry(competitor, page, Detected(c.kind), c.description, c.significance, c.oldContent, c.newContent)
  }

  /** The results entry of a page whose processing threw. */
  function ErrorEntry(competitor: string, page: string, message: string): ResultEntry {
    ResultEntry(competitor, page, Error, message, Some(Low), None, None)
  }

  /** The webhook body of a change: empty old content, the description in place of empty new content, Low when no significance. */
  function Payload(date: string, competitor: string, page: string, c: Change): (p: WebhookPayload)
    ensures p.eventType == "website_change"
    ensures p.date == date && p.competitor == competitor && p.page == page && p.changeType == c.kind
    ensures p.oldContent == (if c.oldContent.Some? then c.oldContent.value else "")
    ensures p.newContent == (if c.newContent.Some? && c.newContent.value != "" then c.newContent.value else c.description)
    ensures c.significance.Some? ==> p.significance == c.significance.value
    ensures c.significance.None? ==> p.significance == Low
  {
    WebhookPayload("website_change", date, competitor, page, c.kind,
                   c.oldContent.GetOr(""),
                   if c.newContent.Some? && c.newContent.value != "" then c.newContent.value else c.description,
                   c.significance.GetOr(Low))
  }

  /** The results entries of a page's changes, one per change, in order. */
  function ChangeEntries(competitor: string, page: string, changes: seq<Change>): (r: seq<ResultEntry>)
    ensures |r| == |changes|
    ensures forall i | 0 <= i < |r| :: r[i] == ChangeEntry(competitor, page, changes[i])
  {
    seq(|changes|, i requires 0 <= i < |changes| => ChangeEntry(competitor, page, changes[i]))
  }

  /** The webhook bodies of a page's changes, one per change, in order. */
  function Payloads(date: string, competitor: string, page: string, changes: seq<Change>): (r: seq<WebhookPayload>)
    ensures |r| == |changes|
    ensures forall i | 0 <= i < |r| :: r[i] == Payload(date, competitor, page, changes[i])
  {
    seq(|changes|, i requires 0 <= i < |changes| => Payload(date, competitor, page, changes[i]))
  }

  /** `loadSnapshot`: the snapshot saved under `key`, or none when there is no such file. */
  function LoadSnapshot(store: SnapshotStore, key: string): (r: Option<Snapshot>)
    ensures r.Some? <==> key in store
    ensures r.Some? ==> r.value == store[key]
  {
    if key in store then Some(store[key]) else None
  }

  /** A fetched page: its changes are logged when the gate lets them through, and its snapshot is saved under `key`. */
  function Visit(st: RunState, competitor: string, page: string, date: string,
                 key: string, content: Snapshot, changes: seq<Change>): (next: RunState)
    ensures next.store == st.store[key := content]
    ensures ShouldLog(changes) ==> next.results == st.results + ChangeEntries(competitor, page, changes) &&
                                   next.payloads == st.payloads + Payloads(date, competitor, page, changes)
    ensures !ShouldLog(changes) ==> next.results == st.results && next.payloads == st.payloads
  {
    var logged := if ShouldLog(changes) then changes else [];
    RunState(st.results + ChangeEntries(competitor, page, logged),
             st.payloads + Payloads(date, competitor, page, logged),
             st.store[key := content])
  }

  /** The body of the page loop once `fetchPage` has settled: log and save on success, record the error on failure. */
  function AfterFetch(st: RunState, comp: Competitor, page: PageTarget, fetched: FetchResult, env: Environment): RunState
    requires !fetched.NoAttempt?
  {
    match fetched
    case Failed(message) =>
      st.(results := st.results + [ErrorEntry(comp.name, page.name, message)])
    case Fetched(html) =>
      var content := ExtractContent(env.parse(html));
      var key := SnapshotFileName(comp.id, page.name);
      Visit(st, comp.name, page.name, env.date, key, content, DetectChanges(LoadSnapshot(st.store, key), content, env.diff))
  }

  /** One page of the run. */
  function PageStep(st: RunState, comp: Competitor, page: PageTarget, env: Environment): RunState {
    AfterFetch(st, comp, page, FetchOutcome(page.url, DefaultRetries, env.network), env)
  }

  /** The pages of one competitor, in order. */
  function RunPages(st: RunState, comp: Competitor, pages: seq<PageTarget>, env: Environment): RunState
    decreases |pages|
  {
    if pages == [] then st
    else PageStep(RunPages(st, comp, pages[..|pages| - 1], env), comp, pages[|pages| - 1], env)
  }

  /** The competitors, in order, each with all its pages. */
  function RunCompetitors(st: RunState, competitors: seq<Competitor>, env: Environment): RunState
    decreases |competitors|
  {
    if competitors == [] then st
    else
      var last := competitors[|competitors| - 1];
      RunPages(RunCompetitors(st, competitors[..|competitors| - 1], env), last, last.pages, env)
  }

  /** The entries `results.filter(r => r.type !== 'error' && r.type !== 'new_snapshot')` keeps. */
  predicate IsCountedEntry(e: ResultEntry) {
    e.entryType != Error && e.entryType != Detected(NewSnapshot)
  }

  /** `Total changes detected`. */
  function SummaryCount(results: seq<ResultEntry>): nat {
    |Filter(IsCountedEntry, results)|
  }

  /** Running one more page is running the pages so far, then that page. */
  lemma RunPagesSnoc(st: RunState, comp: Competitor, pages: seq<PageTarget>, n: nat, env: Environment)
    requires n < |pages|
    ensures RunPages(st, comp, pages[..n + 1], env) == PageStep(RunPages(st, comp, pages[..n], env), comp, pages[n], env)
  {
    assert pages[..n + 1][..n] == pages[..n];
  }

  /** The inner loop of `scrapeCompetitors()`: the pages of one competitor, in order. */
  method ScrapeCompetitor(st0: RunState, comp: Competitor, env: Environment) returns (st: RunState)
    ensures st == RunPages(st0, comp, comp.pages, env)
  {
    st := st0;
    var pi := 0;
    while pi < |comp.pages|
      invariant 0 <= pi <= |comp.pages|
      invariant st == RunPages(st0, comp, comp.pages[..pi], env)
    {
      var page := comp.pages[pi];
      var fetched, _, _ := FetchPage(page.url, DefaultRetries, env.network);
      RunPagesSnoc(st0, comp, comp.pages, pi, env);
      st := AfterFetch(st, comp, page, fetched, env);
      pi := pi + 1;
    }
    assert comp.pages[..pi] == comp.pages;
  }

  /**
   * `scrapeCompetitors()`: every page of every competitor in order; returns the results, the
   * webhook calls made, the snapshot directory afterwards and the summary count.
   */
  method ScrapeCompetitors(competitors: seq<Competitor>, env: Environment, store: SnapshotStore)
    returns (results: seq<ResultEntry>, payloads: seq<WebhookPayload>, saved: SnapshotStore, total: nat)
    ensures RunState(results, payloads, saved) == RunCompetitors(RunState([], [], store), competitors, env)
    ensures total == SummaryCount(results)
  {
    var st := RunState([], [], store);
    var ci := 0;
    while ci < |competitors|
      invariant 0 <= ci <= |competitors|
      invariant st == RunCompetitors(RunState([], [], store), competitors[..ci], env)
    {
      assert competitors[..ci + 1][..ci] == competitors[..ci];
      st := ScrapeCompetitor(st, competitors[ci], env);
      ci := ci + 1;
    }
    assert competitors[..ci] == competitors;
    results, payloads, saved := st.results, st.payloads, st.store;
    total := SummaryCount(results);
  }

  // ----- What a run promises -----

  /** No `new_snapshot` entry, and one webhook call per counted entry. */
  predicate RunInvariant(st: RunState) {
    (forall e | e in st.results :: e.entryType != Detected(NewSnapshot)) &&
    SummaryCount(st.results) == |st.payloads|
  }

  /**
   * Visiting a page whose changes hold no `new_snapshot` adds one counted entry and one webhook
   * call per logged change, so it keeps the invariant, whatever is saved.
   */
  lemma VisitKeepsInvariant(st: RunState, competitor: string, page: string, date: string,
                            key: string, content: Snapshot, changes: seq<Change>)
    requires RunInvariant(st)
    requires ShouldLog(changes) ==> forall c | c in changes :: c.kind != NewSnapshot
    ensures var next := Visit(st, competitor, page, date, key, content, changes);
            var logged := if ShouldLog(changes) then |changes| else 0;
            SummaryCount(next.results) == SummaryCount(st.results) + logged &&
            |next.payloads| == |st.payloads| + logged
    ensures RunInvariant(Visit(st, competitor, page, date, key, content, changes))
  {
    if ShouldLog(changes) {
      var entries := ChangeEntries(competitor, page, changes);
      forall i | 0 <= i < |entries|
        ensures IsCountedEntry(entries[i])
      {
        assert changes[i] in changes;
      }
      FilterAppend(IsCountedEntry, st.results, entries);
      FilterKeepsAll(IsCountedEntry, entries);
    }
  }

  lemma PageStepKeepsInvariant(st: RunState, comp: Competitor, page: PageTarget, env: Environment)
    requires RunInvariant(st)
    ensures RunInvariant(PageStep(st, comp, page, env))
  {
    match FetchOutcome(page.url, DefaultRetries, env.network)
    case Failed(message) =>
      FilterAppend(IsCountedEntry, st.results, [ErrorEntry(comp.name, page.name, message)]);
    case Fetched(html) =>
      var content := ExtractContent(env.parse(html));
      var key := SnapshotFileName(comp.id, page.name);
      var prev := LoadSnapshot(st.store, key);
      ShouldLogDetected(prev, content, env.diff);
      VisitKeepsInvariant(st, comp.name, page.name, env.date, key, content, DetectChanges(prev, content, env.diff));
  }

  lemma {:induction false} RunPagesKeepsInvariant(st: RunState, comp: Competitor, pages: seq<PageTarget>, env: Environment)
    requires RunInvariant(st)
    ensures RunInvariant(RunPages(st, comp, pages, env))
    decreases |pages|
  {
    if pages != [] {
      RunPagesKeepsInvariant(st, comp, pages[..|pages| - 1], env);
      PageStepKeepsInvariant(RunPages(st, comp, pages[..|pages| - 1], env), comp, pages[|pages| - 1], env);
    }
  }

  /**
   * A run never records a `new_snapshot` entry (first visits are silent), and the summary count
   * equals the number of webhook calls: one per change logged.
   */
  lemma {:induction false} RunCompetitorsInvariant(competitors: seq<Competitor>, env: Environment, store: SnapshotStore)
    ensures var st := RunCompetitors(RunState([], [], store), competitors, env);
            (forall e | e in st.results :: e.entryType != Detected(NewSnapshot)) &&
            SummaryCount(st.results) == |st.payloads|
    decreases |competitors|
  {
    if competitors != [] {
      var last := competitors[|competitors| - 1];
      RunCompetitorsInvariant(competitors[..|competitors| - 1], env, store);
      RunPagesKeepsInvariant(RunCompetitors(RunState([], [], store), competitors[..|competitors| - 1], env), last, last.pages, env);
    }
  }

  /** A page whose fetch fails adds one Low error entry and leaves the webhook calls and the snapshot directory as they were. */
  lemma PageStepOnFailure(st: RunState, comp: Competitor, page: PageTarget, env: Environment)
    requires forall k | 0 <= k < DefaultRetries :: env.network(page.url, k).Failure?
    ensures var next := PageStep(st, comp, page, env);
            next.results == st.results + [ErrorEntry(comp.name, page.name, env.network(page.url, DefaultRetries - 1).message)] &&
            next.payloads == st.payloads && next.store == st.store
  {
    FetchOutcomeFailed(page.url, DefaultRetries, env.network);
  }

  /** A page that is fetched always has its new snapshot saved under its file name, whatever was detected; no other file changes. */
  lemma PageStepSavesSnapshot(st: RunState, comp: Competitor, page: PageTarget, env: Environment, html: string)
    requires FetchOutcome(page.url, DefaultRetries, env.network) == Fetched(html)
    ensures PageStep(st, comp, page, env).store == st.store[SnapshotFileName(comp.id, page.name) := ExtractContent(env.parse(html))]
  {
    var key := SnapshotFileName(comp.id, page.name);
    var content := ExtractContent(env.parse(html));
    var changes := DetectChanges(LoadSnapshot(st.store, key), content, env.diff);
    assert PageStep(st, comp, page, env) == Visit(st, comp.name, page.name, env.date, key, content, changes);
  }

  /** A page seen for the first time is saved but logs nothing. */
  lemma PageStepFirstVisit(st: RunState, comp: Competitor, page: PageTarget, env: Environment, html: string)
    requires FetchOutcome(page.url, DefaultRetries, env.network) == Fetched(html)
    requires SnapshotFileName(comp.id, page.name) !in st.store
    ensures var next := PageStep(st, comp, page, env);
            next.results == st.results && next.payloads == st.payloads &&
            SnapshotFileName(comp.id, page.name) in next.store
  {
    var content := ExtractContent(env.parse(html));
    assert !ShouldLog(DetectChanges(None, content, env.diff));
  }
}

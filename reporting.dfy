/** Phase 5: the three report tables built from the audited pages, the
    opportunities and the existing links. */
module Reporting {
  import opened Strings
  import opened Records
  import opened Sorting
  import opened Seqs
  import opened Audit
  import opened Opportunities

  function PagesOf(audited: seq<AuditedPage>): (pages: seq<Page>)
    ensures |pages| == |audited|
    ensures forall i :: 0 <= i < |audited| ==> pages[i] == audited[i].page
  {
    seq(|audited|, i requires 0 <= i < |audited| => audited[i].page)
  }

  // ---------------------------------------------------------------------
  // Tab 1: build_page_summary_report
  // ---------------------------------------------------------------------

  datatype SummaryRow = SummaryRow(
    url: string,
    priorityTier: Tier,
    priorityScore: int,
    gapStatus: GapStatus,
    receivingLinks: nat,
    linkEquityScore: int)

  /** The six selected columns of one audited row. */
  function SummaryRowOf(a: AuditedPage): SummaryRow {
    SummaryRow(a.page.url, a.page.tier, a.page.score, a.gapStatus, a.receivingLinks, a.linkEquityScore)
  }

  function SummaryRows(audited: seq<AuditedPage>): (rows: seq<SummaryRow>)
    ensures |rows| == |audited|
    ensures forall i :: 0 <= i < |audited| ==> rows[i] == SummaryRowOf(audited[i])
  {
    seq(|audited|, i requires 0 <= i < |audited| => SummaryRowOf(audited[i]))
  }

  /** `priority_tier` ascending, then `priority_score` descending. */
  function SummaryKey(r: SummaryRow): SortKey {
    SortKey(TierOrder(r.priorityTier), -r.priorityScore)
  }

  /** `build_page_summary_report`: the selected columns of every audited
      row, rearranged by tier and then by descending score. */
  function BuildPageSummaryReport(audited: seq<AuditedPage>): (report: seq<SummaryRow>)
    ensures multiset(report) == multiset(SummaryRows(audited))
    ensures forall i, j :: 0 <= i < j < |report| ==>
      TierOrder(report[i].priorityTier) < TierOrder(report[j].priorityTier) ||
      (report[i].priorityTier == report[j].priorityTier && report[i].priorityScore >= report[j].priorityScore)
  {
    var report := SortByKey(SummaryRows(audited), SummaryKey);
    assert forall i, j :: 0 <= i < j < |report| ==> KeyLe(SummaryKey(report[i]), SummaryKey(report[j]));
    report
  }

  // ---------------------------------------------------------------------
  // Tab 2: build_actionable_opportunities
  // ---------------------------------------------------------------------

  datatype ActionRow = ActionRow(
    targetUrl: string,
    targetPriority: Option<Tier>,
    sourceUrl: string,
    suggestedAnchor: string,
    sourceNonBrandedTraffic: int)

  /** `priority_map`: URL to `priority_tier` of the audited pages. */
  function PriorityMap(audited: seq<AuditedPage>): map<string, Tier> {
    UrlIndex(PagesOf(audited), TierOf)
  }

  /** `Series.map(priority_map)`: the tier, or a missing value. */
  function TierLookup(priorities: map<string, Tier>, url: string): Option<Tier> {
    if url in priorities then Some(priorities[url]) else None
  }

  function ActionRowOf(o: Opportunity, priorities: map<string, Tier>): ActionRow {
    ActionRow(o.targetUrl, TierLookup(priorities, o.targetUrl), o.sourceUrl, o.suggestedAnchor, o.sourceTraffic)
  }

  function ActionRows(opportunities: seq<Opportunity>, priorities: map<string, Tier>): (rows: seq<ActionRow>)
    ensures |rows| == |opportunities|
    ensures forall i :: 0 <= i < |rows| ==> rows[i] == ActionRowOf(opportunities[i], priorities)
  {
    seq(|opportunities|, i requires 0 <= i < |opportunities| => ActionRowOf(opportunities[i], priorities))
  }

  /** Sort position of `target_priority`: the tiers in letter order, and a
      missing value after all of them. */
  function PriorityOrder(p: Option<Tier>): int {
    match p
    case Some(t) => TierOrder(t)
    case None => 3
  }

  /** `target_priority` ascending, then traffic descending. */
  function ActionKey(r: ActionRow): SortKey {
    SortKey(PriorityOrder(r.targetPriority), -r.sourceNonBrandedTraffic)
  }

  /** `build_actionable_opportunities`. `None` stands for a missing frame. */
  function BuildActionableOpportunities(opportunities: Option<seq<Opportunity>>, audited: seq<AuditedPage>): (table: seq<ActionRow>)
    ensures opportunities.None? || opportunities.value == [] ==> table == []
    ensures opportunities.Some? ==>
      multiset(table) == multiset(ActionRows(opportunities.value, PriorityMap(audited)))
    ensures forall i, j :: 0 <= i < j < |table| ==>
      PriorityOrder(table[i].targetPriority) < PriorityOrder(table[j].targetPriority) ||
      (table[i].targetPriority == table[j].targetPriority &&
       table[i].sourceNonBrandedTraffic >= table[j].sourceNonBrandedTraffic)
  {
    if opportunities.None? || opportunities.value == [] then []
    else
      var table := SortByKey(ActionRows(opportunities.value, PriorityMap(audited)), ActionKey);
      assert forall i, j :: 0 <= i < j < |table| ==> KeyLe(ActionKey(table[i]), ActionKey(table[j]));
      table
  }

  /** With unique URLs, the looked-up priority of a URL is the tier of the
      audited page with that URL, and missing when no page has it. */
  lemma TierLookupIsPageTier(audited: seq<AuditedPage>, url: string)
    requires UniqueUrls(PagesOf(audited))
    ensures forall a <- audited :: a.page.url == url ==> TierLookup(PriorityMap(audited), url) == Some(a.page.tier)
    ensures (forall a <- audited :: a.page.url != url) ==> TierLookup(PriorityMap(audited), url) == None
  {
    var pages := PagesOf(audited);
    forall a <- audited | a.page.url == url
      ensures TierLookup(PriorityMap(audited), url) == Some(a.page.tier)
    {
      var i :| 0 <= i < |audited| && audited[i] == a;
      UrlIndexAt(pages, TierOf, i);
    }
    if url in PriorityMap(audited) {
      var i :| 0 <= i < |pages| && pages[i].url == url;
      assert audited[i] in audited;
    }
  }

  /** What a row of the actionable table says about the opportunity it
      comes from, read against the audited pages. */
  predicate DescribesOpportunity(row: ActionRow, o: Opportunity, audited: seq<AuditedPage>) {
    row.targetUrl == o.targetUrl && row.sourceUrl == o.sourceUrl &&
    row.suggestedAnchor == o.suggestedAnchor && row.sourceNonBrandedTraffic == o.sourceTraffic &&
    (forall a <- audited :: a.page.url == o.targetUrl ==> row.targetPriority == Some(a.page.tier)) &&
    ((forall a <- audited :: a.page.url != o.targetUrl) ==> row.targetPriority.None?)
  }

  /** Every row of the table is one of the given opportunities, with
      `target_priority` the tier of its target page (missing if the target
      URL is not an audited page); every opportunity gives a row. */
  lemma ActionableRowsCarryTargetTier(opportunities: seq<Opportunity>, audited: seq<AuditedPage>)
    requires UniqueUrls(PagesOf(audited))
    ensures var table := BuildActionableOpportunities(Some(opportunities), audited);
      (forall row <- table :: exists o <- opportunities :: DescribesOpportunity(row, o, audited)) &&
      (forall o <- opportunities :: ActionRowOf(o, PriorityMap(audited)) in table)
  {
    var table := BuildActionableOpportunities(Some(opportunities), audited);
    var rows := ActionRows(opportunities, PriorityMap(audited));
    assert multiset(table) == multiset(rows);
    forall row <- table
      ensures exists o <- opportunities :: DescribesOpportunity(row, o, audited)
    {
      assert row in multiset(rows);
      var i :| 0 <= i < |rows| && rows[i] == row;
      var o := opportunities[i];
      assert o in opportunities;
      TierLookupIsPageTier(audited, o.targetUrl);
      assert DescribesOpportunity(row, o, audited);
    }
    forall o <- opportunities
      ensures ActionRowOf(o, PriorityMap(audited)) in table
    {
      var i :| 0 <= i < |opportunities| && opportunities[i] == o;
      assert rows[i] in multiset(rows);
    }
  }

  // ---------------------------------------------------------------------
  // Tab 3: build_anchor_optimization_report
  // ---------------------------------------------------------------------

  datatype AnchorRow = AnchorRow(
    pageToEdit: string,
    destinationPage: string,
    currentJunkAnchor: string,
    suggestedAnchor: string)

  /** `suggest_anchor`: the last "/"-separated part of the URL without its
      trailing slashes, dashes turned into spaces. */
  function SuggestAnchor(url: string): (anchor: string)
    ensures '/' !in anchor && '-' !in anchor
    ensures |anchor| <= |url|
  {
    ReplaceChar(LastSegment(TrimTrailing(url, '/'), '/'), '-', ' ')
  }

  /** Trailing slashes do not change the suggestion. */
  lemma SuggestAnchorIgnoresTrailingSlash(url: string)
    ensures SuggestAnchor(url + "/") == SuggestAnchor(url)
  {
    TrimTrailingExtra(url, '/');
  }

  /** The suggestion for `.../slug` is the slug with dashes as spaces. */
  lemma SuggestAnchorOfSlug(prefix: string, slug: string)
    requires slug != [] && '/' !in slug
    ensures SuggestAnchor(prefix + "/" + slug) == ReplaceChar(slug, '-', ' ')
  {
    var url := prefix + "/" + slug;
    assert url[|url| - 1] == slug[|slug| - 1];
    TrimTrailingNone(url, '/');
    LastSegmentAfter(prefix, '/', slug);
  }

  /** A URL without any slash is its own segment: the suggestion is the
      URL with dashes as spaces. */
  lemma SuggestAnchorOfBareSlug(url: string)
    requires '/' !in url
    ensures SuggestAnchor(url) == ReplaceChar(url, '-', ' ')
  {
    if url != [] {
      assert url[|url| - 1] in url;
    }
    TrimTrailingNone(url, '/');
    LastSegmentWhole(url, '/');
  }

  /** `.str.lower().str.strip()`: a non-string cell stays missing. */
  function CleanAnchor(anchor: Option<string>): Option<string> {
    match anchor
    case Some(s) => Some(Strip(Lower(s)))
    case None => None
  }

  /** The URLs of the audited pages of tier A or B. */
  function ImportantUrls(audited: seq<AuditedPage>): (urls: set<string>)
    ensures forall u :: u in urls <==> exists a <- audited :: a.page.url == u && (a.page.tier == A || a.page.tier == B)
  {
    set a | a in audited && (a.page.tier == A || a.page.tier == B) :: a.page.url
  }

  /** With unique URLs, the report's important URLs (`isin(["A", "B"])` on
      `priority_tier`) are exactly the URLs that `priority_map` sends to A
      or B: both tabs read the same tier. */
  lemma ImportantUrlsByPriorityMap(audited: seq<AuditedPage>, u: string)
    requires UniqueUrls(PagesOf(audited))
    ensures u in ImportantUrls(audited) <==>
      TierLookup(PriorityMap(audited), u) == Some(A) || TierLookup(PriorityMap(audited), u) == Some(B)
  {
    TierLookupIsPageTier(audited, u);
    if exists a <- audited :: a.page.url == u {
      var a :| a in audited && a.page.url == u;
      assert TierLookup(PriorityMap(audited), u) == Some(a.page.tier);
      forall b <- audited | b.page.url == u
        ensures b.page.tier == a.page.tier
      {
        assert TierLookup(PriorityMap(audited), u) == Some(b.page.tier);
      }
    }
  }

  /** A link kept by the report: its cleaned anchor is generic and its
      destination is an important URL. */
  predicate NeedsBetterAnchor(l: Link, important: set<string>) {
    CleanAnchor(l.anchor).Some? && CleanAnchor(l.anchor).value in GENERIC_ANCHORS && l.dest in important
  }

  function AnchorRowOf(l: Link): AnchorRow
    requires l.anchor.Some?
  {
    AnchorRow(l.source, l.dest, l.anchor.value, SuggestAnchor(l.dest))
  }

  /** The row kept for one link, if any. */
  function AnchorRowsOfLink(l: Link, important: set<string>): seq<AnchorRow> {
    if NeedsBetterAnchor(l, important) then [AnchorRowOf(l)] else []
  }

  /** The two filters and the projection, in link order. */
  function AnchorRows(links: seq<Link>, important: set<string>): seq<AnchorRow> {
    FlatMap(links, (l: Link) => AnchorRowsOfLink(l, important))
  }

  /** The kept rows are exactly those of the links both filters keep. */
  lemma AnchorRowsMembership(links: seq<Link>, important: set<string>, row: AnchorRow)
    ensures row in AnchorRows(links, important) <==>
      exists k :: 0 <= k < |links| && NeedsBetterAnchor(links[k], important) && row == AnchorRowOf(links[k])
  {
    FlatMapMembership(links, (l: Link) => AnchorRowsOfLink(l, important), row);
  }

  /** Why a reported row is there: which link it comes from and what held of it. */
  predicate ReportedFrom(row: AnchorRow, l: Link, audited: seq<AuditedPage>) {
    l.source == row.pageToEdit && l.dest == row.destinationPage &&
    l.anchor == Some(row.currentJunkAnchor) &&
    Strip(Lower(row.currentJunkAnchor)) in GENERIC_ANCHORS &&
    row.suggestedAnchor == SuggestAnchor(row.destinationPage) &&
    exists a <- audited :: a.page.url == row.destinationPage && (a.page.tier == A || a.page.tier == B)
  }

  lemma KeptLinkIsReportedFrom(l: Link, audited: seq<AuditedPage>)
    requires NeedsBetterAnchor(l, ImportantUrls(audited))
    ensures ReportedFrom(AnchorRowOf(l), l, audited)
  {
    assert l.dest in ImportantUrls(audited);
  }

  /** `build_anchor_optimization_report`. */
  function BuildAnchorOptimizationReport(links: seq<Link>, audited: seq<AuditedPage>): (report: seq<AnchorRow>)
    ensures links == [] ==> report == []
    ensures forall row <- report :: exists k :: 0 <= k < |links| && ReportedFrom(row, links[k], audited)
  {
    if links == [] then []
    else
      var important := ImportantUrls(audited);
      var report := AnchorRows(links, important);
      assert forall row <- report :: exists k :: 0 <= k < |links| && ReportedFrom(row, links[k], audited) by {
        forall row <- report
          ensures exists k :: 0 <= k < |links| && ReportedFrom(row, links[k], audited)
        {
          AnchorRowsMembership(links, important, row);
          var k :| 0 <= k < |links| && NeedsBetterAnchor(links[k], important) && row == AnchorRowOf(links[k]);
          KeptLinkIsReportedFrom(links[k], audited);
        }
      }
      report
  }

  /** Every link whose cleaned anchor is generic and whose destination is
      a tier A or B page has its row in the report. */
  lemma AnchorReportComplete(links: seq<Link>, audited: seq<AuditedPage>, k: int)
    requires 0 <= k < |links|
    requires NeedsBetterAnchor(links[k], ImportantUrls(audited))
    ensures AnchorRowOf(links[k]) in BuildAnchorOptimizationReport(links, audited)
  {
    AnchorRowsMembership(links, ImportantUrls(audited), AnchorRowOf(links[k]));
  }

  lemma AnchorRowsConcat(l1: seq<Link>, l2: seq<Link>, important: set<string>)
    ensures AnchorRows(l1 + l2, important) == AnchorRows(l1, important) + AnchorRows(l2, important)
  {
    FlatMapAppend(l1, l2, (l: Link) => AnchorRowsOfLink(l, important));
  }

  /** The report keeps input order: the report of two link lists in
      sequence is the two reports in sequence. */
  lemma AnchorReportConcat(l1: seq<Link>, l2: seq<Link>, audited: seq<AuditedPage>)
    ensures BuildAnchorOptimizationReport(l1 + l2, audited) ==
      BuildAnchorOptimizationReport(l1, audited) + BuildAnchorOptimizationReport(l2, audited)
  {
    AnchorRowsConcat(l1, l2, ImportantUrls(audited));
    if l1 == [] {
      assert l1 + l2 == l2;
    }
    if l2 == [] {
      assert l1 + l2 == l1;
    }
  }

  /** A single link is reported, as its raw anchor with the slug
      suggestion, exactly when its cleaned anchor is generic and it points
      to a tier A or B page. */
  lemma AnchorReportSingle(l: Link, audited: seq<AuditedPage>)
    ensures BuildAnchorOptimizationReport([l], audited) ==
      if l.anchor.Some? && Strip(Lower(l.anchor.value)) in GENERIC_ANCHORS &&
         (exists a <- audited :: a.page.url == l.dest && (a.page.tier == A || a.page.tier == B))
      then [AnchorRow(l.source, l.dest, l.anchor.value, SuggestAnchor(l.dest))]
      else []
  {
    var important := ImportantUrls(audited);
    assert [l][1..] == [];
    assert AnchorRows([l], important) == AnchorRowsOfLink(l, important) + AnchorRows([], important);
    assert (l.dest in important) <==>
      exists a <- audited :: a.page.url == l.dest && (a.page.tier == A || a.page.tier == B);
  }

  /** Across phases: with the audit's rows as input, an A/B page is flagged
      for generic anchors exactly when the anchor report lists a link to it. */
  lemma AnchorReportMatchesAuditFlag(
    schema: set<string>, priorityColumn: string, scoreColumn: string,
    pages: seq<Page>, crawled: set<string>, links: seq<Link>, i: int)
    requires AuditInternalLinks(schema, priorityColumn, scoreColumn, pages, crawled, links).Ok?
    requires 0 <= i < |pages| && (pages[i].tier == A || pages[i].tier == B)
    ensures var rows := AuditInternalLinks(schema, priorityColumn, scoreColumn, pages, crawled, links).value;
      rows[i].hasGenericAnchors <==>
      exists row <- BuildAnchorOptimizationReport(links, rows) :: row.destinationPage == pages[i].url
  {
    var rows := AuditInternalLinks(schema, priorityColumn, scoreColumn, pages, crawled, links).value;
    var url := pages[i].url;
    var report := BuildAnchorOptimizationReport(links, rows);
    if links == [] {
      assert !rows[i].hasGenericAnchors;
      assert report == [];
    } else {
      var important := ImportantUrls(rows);
      assert rows[i].page == pages[i];
      assert rows[i] in rows;
      assert url in important;
      assert report == AnchorRows(links, important);
      assert rows[i].hasGenericAnchors <==>
        exists k :: 0 <= k < |links| && links[k].dest == url && IsGenericAnchor(links[k].anchor);
      FlaggedIffReported(links, important, url);
    }
  }

  /** For an important URL: some link to it has a generic anchor exactly
      when the filtered rows contain a row for it. */
  lemma FlaggedIffReported(links: seq<Link>, important: set<string>, url: string)
    requires url in important
    ensures (exists k :: 0 <= k < |links| && links[k].dest == url && IsGenericAnchor(links[k].anchor)) <==>
      exists row <- AnchorRows(links, important) :: row.destinationPage == url
  {
    var rows := AnchorRows(links, important);
    if exists k :: 0 <= k < |links| && links[k].dest == url && IsGenericAnchor(links[k].anchor) {
      var k :| 0 <= k < |links| && links[k].dest == url && IsGenericAnchor(links[k].anchor);
      GenericAnchorEitherOrder(links[k].anchor.value);
      assert NeedsBetterAnchor(links[k], important);
      AnchorRowsMembership(links, important, AnchorRowOf(links[k]));
    }
    if exists row <- rows :: row.destinationPage == url {
      var row :| row in rows && row.destinationPage == url;
      AnchorRowsMembership(links, important, row);
      var k :| 0 <= k < |links| && NeedsBetterAnchor(links[k], important) && row == AnchorRowOf(links[k]);
      GenericAnchorEitherOrder(links[k].anchor.value);
      assert IsGenericAnchor(links[k].anchor);
    }
  }
}

/** Phase 3: the internal-link audit. Every page row is enriched with an
    orphan flag, its number of receiving links, a link-equity score, a
    generic-anchor flag and a gap status. */
module Audit {
  import opened Strings
  import opened Records

  const GENERIC_ANCHORS: set<string> := {"click here", "read more", "learn more", "more", "here"}

  /** `is_generic_anchor`: a non-string anchor is never generic; a string
      is generic when, stripped and lower-cased, it is one of GENERIC_ANCHORS. */
  function IsGenericAnchor(anchor: Option<string>): bool {
    anchor.Some? && Lower(Strip(anchor.value)) in GENERIC_ANCHORS
  }

  /** Surrounding whitespace and letter case do not matter: an anchor is
      generic exactly when its trimmed core, lower-cased, is a generic phrase. */
  lemma GenericAnchorPadded(lead: string, core: string, trail: string)
    requires AllSpace(lead) && AllSpace(trail) && Trimmed(core)
    ensures IsGenericAnchor(Some(lead + core + trail)) <==> Lower(core) in GENERIC_ANCHORS
    ensures !IsGenericAnchor(None)
  {
    StripUnique(lead, core, trail);
  }

  /** Cleaning in the other order (lower-case first, then strip), as the
      anchor report does, selects the same anchors. */
  lemma GenericAnchorEitherOrder(s: string)
    ensures IsGenericAnchor(Some(s)) <==> Strip(Lower(s)) in GENERIC_ANCHORS
  {
    LowerStripCommute(s);
  }

  // ---------------------------------------------------------------------
  // Gap status
  // ---------------------------------------------------------------------

  datatype GapStatus =
    | OrphanPage
    | UnderLinked
    | PoorAnchors
    | Healthy
    | NoInternalLinksFound

  /** The text written into the `gap_status` column. */
  function GapLabel(g: GapStatus): string {
    match g
    case OrphanPage => "CRITICAL: Orphan Page"
    case UnderLinked => "High: Under-Linked"
    case PoorAnchors => "Medium: Poor Anchors"
    case Healthy => "Healthy"
    case NoInternalLinksFound => "No internal links found"
  }

  /** Distinct statuses are written as distinct labels, so the column
      text determines the status. */
  lemma GapLabelInjective(g1: GapStatus, g2: GapStatus)
    ensures GapLabel(g1) == GapLabel(g2) <==> g1 == g2
  {
  }

  /** `gap_status`: the first matching rule of Orphan, then an A/B page
      without receiving links, then an A/B page with a generic anchor,
      else Healthy. */
  function GapStatusOf(isOrphan: bool, tier: Tier, receivingLinks: nat, hasGenericAnchors: bool): (g: GapStatus)
    ensures g != NoInternalLinksFound
    ensures isOrphan ==> g == OrphanPage
    ensures !isOrphan && tier == C ==> g == Healthy
    ensures g == UnderLinked <==> !isOrphan && (tier == A || tier == B) && receivingLinks == 0
    ensures g == PoorAnchors <==> !isOrphan && (tier == A || tier == B) && receivingLinks > 0 && hasGenericAnchors
    ensures g == Healthy <==> !isOrphan && (tier == C || (receivingLinks > 0 && !hasGenericAnchors))
  {
    assert tier == A || tier == B || tier == C;
    if isOrphan then OrphanPage
    else if (tier == A || tier == B) && receivingLinks == 0 then UnderLinked
    else if (tier == A || tier == B) && hasGenericAnchors then PoorAnchors
    else Healthy
  }

  // ---------------------------------------------------------------------
  // Reference definitions over the link sequence
  // ---------------------------------------------------------------------

  /** The links whose destination is `url`, in input order. */
  function Incoming(url: string, links: seq<Link>): (r: seq<Link>)
    ensures |r| <= |links|
    ensures forall k :: 0 <= k < |r| ==> r[k].dest == url && r[k] in links
    ensures forall k :: 0 <= k < |links| && links[k].dest == url ==> links[k] in r
  {
    if links == [] then []
    else
      var n := |links| - 1;
      var prefix := links[..n];
      assert forall k :: 0 <= k < n ==> prefix[k] == links[k];
      Incoming(url, prefix) + (if links[n].dest == url then [links[n]] else [])
  }

  /** One more link at the end is kept exactly when it points to the URL. */
  lemma IncomingSnoc(url: string, ls: seq<Link>, l: Link)
    ensures Incoming(url, ls + [l]) == Incoming(url, ls) + (if l.dest == url then [l] else [])
  {
    assert (ls + [l])[..|ls|] == ls;
  }

  /** The filter of two link lists in a row is the two filters in a row,
      so `Incoming` keeps input order and every duplicate. */
  lemma {:induction false} IncomingConcat(url: string, l1: seq<Link>, l2: seq<Link>)
    ensures Incoming(url, l1 + l2) == Incoming(url, l1) + Incoming(url, l2)
  {
    if l2 == [] {
      assert l1 + l2 == l1;
    } else {
      var n := |l2| - 1;
      var x := l2[n];
      assert l2 == l2[..n] + [x];
      assert l1 + l2 == (l1 + l2[..n]) + [x];
      IncomingSnoc(url, l1 + l2[..n], x);
      IncomingSnoc(url, l2[..n], x);
      IncomingConcat(url, l1, l2[..n]);
    }
  }

  /** One link is kept exactly when it points to the URL. */
  lemma IncomingSingle(url: string, l: Link)
    ensures Incoming(url, [l]) == if l.dest == url then [l] else []
  {
    assert [l][..0] == [];
  }

  /** Each link occurs in the filter as often as in the list when it points
      to the URL, and not at all otherwise. */
  lemma {:induction false} IncomingMultiplicity(url: string, links: seq<Link>, l: Link)
    ensures multiset(Incoming(url, links))[l] == if l.dest == url then multiset(links)[l] else 0
  {
    if links != [] {
      var n := |links| - 1;
      assert links == links[..n] + [links[n]];
      IncomingMultiplicity(url, links[..n], l);
    }
  }

  /** Score of the page with URL `u`, and 0 when no page has it. */
  ghost function PageScore(pages: seq<Page>, u: string): int
    requires UniqueUrls(pages)
  {
    if exists i :: 0 <= i < |pages| && pages[i].url == u then
      var i :| 0 <= i < |pages| && pages[i].url == u; pages[i].score
    else 0
  }

  /** Sum of the scores of the pages the links come from. */
  ghost function SourceScoreSum(ls: seq<Link>, pages: seq<Page>): int
    requires UniqueUrls(pages)
  {
    if ls == [] then 0
    else SourceScoreSum(ls[..|ls| - 1], pages) + PageScore(pages, ls[|ls| - 1].source)
  }

  /** The link-equity score a page should get: the scores of the source
      pages summed over its incoming links. */
  ghost function EquitySpec(url: string, links: seq<Link>, pages: seq<Page>): int
    requires UniqueUrls(pages)
  {
    SourceScoreSum(Incoming(url, links), pages)
  }

  // ---------------------------------------------------------------------
  // The columns as the audit computes them
  // ---------------------------------------------------------------------

  /** `links_df.groupby("dest").size()`: for each destination that occurs,
      the number of links pointing to it. */
  function CountsByDest(links: seq<Link>): (m: map<string, nat>)
    ensures forall d :: d in m ==> m[d] > 0
  {
    if links == [] then map[]
    else
      var n := |links| - 1;
      var m := CountsByDest(links[..n]);
      m[links[n].dest := CountOr0(m, links[n].dest) + 1]
  }

  /** Left merge of the counts followed by `fillna(0)`. */
  function CountOr0(counts: map<string, nat>, url: string): nat {
    if url in counts then counts[url] else 0
  }

  /** `source_scores.get(src, 0)`. */
  function ScoreOr0(scores: map<string, int>, src: string): int {
    if src in scores then scores[src] else 0
  }

  /** `source_scores`: URL to `priority_score`. */
  function ScoreMap(pages: seq<Page>): map<string, int> {
    UrlIndex(pages, ScoreOf)
  }

  /** `equity_for_url`: the looked-up source scores summed over the links
      whose destination is `url`. */
  function EquityForUrl(url: string, links: seq<Link>, scores: map<string, int>): int {
    if links == [] then 0
    else
      var n := |links| - 1;
      EquityForUrl(url, links[..n], scores) + (if links[n].dest == url then ScoreOr0(scores, links[n].source) else 0)
  }

  /** The destinations of the links with a generic anchor: the group keys
      of `links_df[links_df["anchor"].apply(is_generic_anchor)].groupby("dest")`. */
  function GenericAnchorTargets(links: seq<Link>): (ts: set<string>)
    ensures forall d :: d in ts <==> exists k :: 0 <= k < |links| && links[k].dest == d && IsGenericAnchor(links[k].anchor)
  {
    var ts := set l | l in links && IsGenericAnchor(l.anchor) :: l.dest;
    assert forall d :: d in ts <==> exists k :: 0 <= k < |links| && links[k].dest == d && IsGenericAnchor(links[k].anchor) by {
      forall d
        ensures d in ts <==> exists k :: 0 <= k < |links| && links[k].dest == d && IsGenericAnchor(links[k].anchor)
      {
        if d in ts {
          var l :| l in links && IsGenericAnchor(l.anchor) && l.dest == d;
          var k :| 0 <= k < |links| && links[k] == l;
        }
        if exists k :: 0 <= k < |links| && links[k].dest == d && IsGenericAnchor(links[k].anchor) {
          var k :| 0 <= k < |links| && links[k].dest == d && IsGenericAnchor(links[k].anchor);
          assert links[k] in links;
        }
      }
    }
    ts
  }

  lemma IncomingMember(url: string, links: seq<Link>, l: Link)
    requires l in Incoming(url, links)
    ensures l.dest == url && l in links
  {
    var incoming := Incoming(url, links);
    var j :| 0 <= j < |incoming| && incoming[j] == l;
  }

  /** A URL is a generic-anchor destination exactly when one of its
      incoming links has a generic anchor; such a URL has a positive
      grouped count, so the flag never goes with zero receiving links. */
  lemma GenericAnchorTargetsIncoming(links: seq<Link>, d: string)
    ensures d in GenericAnchorTargets(links) <==> exists l <- Incoming(d, links) :: IsGenericAnchor(l.anchor)
    ensures d in GenericAnchorTargets(links) ==> CountOr0(CountsByDest(links), d) > 0
  {
    var targets := GenericAnchorTargets(links);
    var incoming := Incoming(d, links);
    CountsByDestIsIncoming(links, d);
    if d in targets {
      var k :| 0 <= k < |links| && links[k].dest == d && IsGenericAnchor(links[k].anchor);
      assert links[k] in incoming;
    }
    if exists l <- incoming :: IsGenericAnchor(l.anchor) {
      var l :| l in incoming && IsGenericAnchor(l.anchor);
      IncomingMember(d, links, l);
      var k :| 0 <= k < |links| && links[k] == l;
      assert links[k].dest == d && IsGenericAnchor(links[k].anchor);
    }
  }

  /** The grouped count agrees with counting the incoming links. */
  lemma {:induction false} CountsByDestIsIncoming(links: seq<Link>, url: string)
    ensures CountOr0(CountsByDest(links), url) == |Incoming(url, links)|
  {
    if links != [] {
      CountsByDestIsIncoming(links[..|links| - 1], url);
    }
  }

  lemma ScoreMapIsPageScore(pages: seq<Page>, u: string)
    requires UniqueUrls(pages)
    ensures ScoreOr0(ScoreMap(pages), u) == PageScore(pages, u)
  {
    if exists i :: 0 <= i < |pages| && pages[i].url == u {
      var i :| 0 <= i < |pages| && pages[i].url == u;
      UrlIndexAt(pages, ScoreOf, i);
    }
  }

  lemma {:induction false} SourceScoreSumSnoc(ls: seq<Link>, l: Link, pages: seq<Page>)
    requires UniqueUrls(pages)
    ensures SourceScoreSum(ls + [l], pages) == SourceScoreSum(ls, pages) + PageScore(pages, l.source)
  {
    assert (ls + [l])[..|ls|] == ls;
  }

  /** `equity_for_url` with the score dictionary computes the specified
      link-equity score. */
  lemma {:induction false} EquityForUrlIsSpec(url: string, links: seq<Link>, pages: seq<Page>)
    ensures UniqueUrls(pages) ==> EquityForUrl(url, links, ScoreMap(pages)) == EquitySpec(url, links, pages)
  {
    if UniqueUrls(pages) && links != [] {
      var n := |links| - 1;
      EquityForUrlIsSpec(url, links[..n], pages);
      if links[n].dest == url {
        SourceScoreSumSnoc(Incoming(url, links[..n]), links[n], pages);
        ScoreMapIsPageScore(pages, links[n].source);
      } else {
        assert Incoming(url, links) == Incoming(url, links[..n]) + [];
        assert Incoming(url, links[..n]) + [] == Incoming(url, links[..n]);
      }
    }
  }

  lemma ScoreOr0Bounds(pages: seq<Page>, src: string, bound: int)
    requires 0 <= bound && forall p <- pages :: 0 <= p.score <= bound
    ensures 0 <= ScoreOr0(ScoreMap(pages), src) <= bound
  {
    var scores := ScoreMap(pages);
    if src in scores {
      var i :| 0 <= i < |pages| && pages[i].url == src && scores[src] == ScoreOf(pages[i]);
      assert pages[i] in pages;
      assert ScoreOf(pages[i]) == pages[i].score;
      assert ScoreOr0(scores, src) == scores[src];
    }
  }

  /** Scores between 0 and `bound` give an equity between 0 and `bound`
      times the number of incoming links. */
  lemma {:induction false} EquityForUrlBounds(url: string, links: seq<Link>, pages: seq<Page>, bound: int)
    requires 0 <= bound && forall p <- pages :: 0 <= p.score <= bound
    ensures 0 <= EquityForUrl(url, links, ScoreMap(pages)) <= bound * |Incoming(url, links)|
  {
    if links != [] {
      var n := |links| - 1;
      var k := |Incoming(url, links[..n])|;
      var e := EquityForUrl(url, links[..n], ScoreMap(pages));
      EquityForUrlBounds(url, links[..n], pages, bound);
      if links[n].dest == url {
        var sc := ScoreOr0(ScoreMap(pages), links[n].source);
        ScoreOr0Bounds(pages, links[n].source, bound);
        assert |Incoming(url, links)| == k + 1;
        BoundStep(e, sc, bound, k);
      } else {
        assert |Incoming(url, links)| == k;
      }
    }
  }

  lemma BoundStep(e: int, sc: int, bound: int, k: int)
    requires 0 <= e <= bound * k && 0 <= sc <= bound
    ensures 0 <= e + sc <= bound * (k + 1)
  {
    assert bound * (k + 1) == bound * k + bound;
  }

  // ---------------------------------------------------------------------
  // audit_internal_links
  // ---------------------------------------------------------------------

  /** A page row with the five derived columns. */
  datatype AuditedPage = AuditedPage(
    page: Page,
    isOrphan: bool,
    receivingLinks: nat,
    linkEquityScore: int,
    hasGenericAnchors: bool,
    gapStatus: GapStatus)

  datatype AuditError = MissingColumn(column: string)

  /** A row when the link list is empty. */
  function NoLinksRow(p: Page, crawled: set<string>): (a: AuditedPage)
    ensures a.page == p && a.isOrphan == (p.url !in crawled)
    ensures a.receivingLinks == 0 && a.linkEquityScore == 0 && !a.hasGenericAnchors
    ensures a.gapStatus == NoInternalLinksFound
  {
    AuditedPage(p, p.url !in crawled, 0, 0, false, NoInternalLinksFound)
  }

  /** A row when there are links, from the precomputed counts, score
      dictionary and generic-anchor destinations. */
  function AuditRow(
    p: Page, crawled: set<string>, links: seq<Link>, pages: seq<Page>,
    counts: map<string, nat>, scores: map<string, int>, genericTargets: set<string>): (a: AuditedPage)
    requires counts == CountsByDest(links) && scores == ScoreMap(pages)
    requires genericTargets == GenericAnchorTargets(links)
    ensures a.page == p && a.isOrphan == (p.url !in crawled)
    ensures a.receivingLinks == |Incoming(p.url, links)|
    ensures a.hasGenericAnchors <==>
      exists k :: 0 <= k < |links| && links[k].dest == p.url && IsGenericAnchor(links[k].anchor)
    ensures UniqueUrls(pages) ==> a.linkEquityScore == EquitySpec(p.url, links, pages)
    ensures a.gapStatus == GapStatusOf(a.isOrphan, p.tier, a.receivingLinks, a.hasGenericAnchors)
  {
    CountsByDestIsIncoming(links, p.url);
    EquityForUrlIsSpec(p.url, links, pages);
    var isOrphan := p.url !in crawled;
    var receiving := CountOr0(counts, p.url);
    var hasGeneric := p.url in genericTargets;
    AuditedPage(p, isOrphan, receiving, EquityForUrl(p.url, links, scores), hasGeneric,
                GapStatusOf(isOrphan, p.tier, receiving, hasGeneric))
  }

  /** `audit_internal_links`. `schema` is the set of column names of the
      page frame; the two checked columns must be in it. */
  function AuditInternalLinks(
    schema: set<string>, priorityColumn: string, scoreColumn: string,
    pages: seq<Page>, crawled: set<string>, links: seq<Link>): (r: Result<seq<AuditedPage>, AuditError>)
    ensures priorityColumn !in schema ==> r == Err(MissingColumn(priorityColumn))
    ensures priorityColumn in schema && scoreColumn !in schema ==> r == Err(MissingColumn(scoreColumn))
    ensures priorityColumn in schema && scoreColumn in schema ==> r.Ok?
    ensures r.Ok? ==> |r.value| == |pages|
    ensures r.Ok? ==>
      forall i :: 0 <= i < |pages| ==>
        r.value[i].page == pages[i] && r.value[i].isOrphan == (pages[i].url !in crawled)
    ensures r.Ok? && links == [] ==>
      forall i :: 0 <= i < |pages| ==>
        r.value[i].receivingLinks == 0 && r.value[i].linkEquityScore == 0 &&
        !r.value[i].hasGenericAnchors && r.value[i].gapStatus == NoInternalLinksFound
    ensures r.Ok? && links != [] ==>
      forall i :: 0 <= i < |pages| ==>
        r.value[i].receivingLinks == |Incoming(pages[i].url, links)| &&
        (r.value[i].hasGenericAnchors <==>
          exists k :: 0 <= k < |links| && links[k].dest == pages[i].url && IsGenericAnchor(links[k].anchor)) &&
        r.value[i].gapStatus == GapStatusOf(r.value[i].isOrphan, pages[i].tier, r.value[i].receivingLinks, r.value[i].hasGenericAnchors)
    ensures r.Ok? && links != [] && UniqueUrls(pages) ==>
      forall i :: 0 <= i < |pages| ==> r.value[i].linkEquityScore == EquitySpec(pages[i].url, links, pages)
  {
    if priorityColumn !in schema then Err(MissingColumn(priorityColumn))
    else if scoreColumn !in schema then Err(MissingColumn(scoreColumn))
    else if links == [] then
      Ok(seq(|pages|, i requires 0 <= i < |pages| => NoLinksRow(pages[i], crawled)))
    else
      var counts := CountsByDest(links);
      var scores := ScoreMap(pages);
      var genericTargets := GenericAnchorTargets(links);
      Ok(seq(|pages|, i requires 0 <= i < |pages| =>
        AuditRow(pages[i], crawled, links, pages, counts, scores, genericTargets)))
  }

  // ---------------------------------------------------------------------
  // Properties of the audit
  // ---------------------------------------------------------------------

  /** A page flagged for generic anchors receives at least one link. */
  lemma GenericFlagImpliesReceiving(
    schema: set<string>, priorityColumn: string, scoreColumn: string,
    pages: seq<Page>, crawled: set<string>, links: seq<Link>, i: int)
    requires AuditInternalLinks(schema, priorityColumn, scoreColumn, pages, crawled, links).Ok?
    requires 0 <= i < |pages|
    ensures var rows := AuditInternalLinks(schema, priorityColumn, scoreColumn, pages, crawled, links).value;
      rows[i].hasGenericAnchors ==> rows[i].receivingLinks >= 1
  {
    var rows := AuditInternalLinks(schema, priorityColumn, scoreColumn, pages, crawled, links).value;
    if rows[i].hasGenericAnchors {
      var k :| 0 <= k < |links| && links[k].dest == pages[i].url && IsGenericAnchor(links[k].anchor);
      assert links[k] in Incoming(pages[i].url, links);
    }
  }

  /** Consequences of the cascade for every audited row: an orphan is
      always critical, a tier-C page that is not an orphan is Healthy
      whenever there are links, and "Poor Anchors" needs a receiving link. */
  lemma GapStatusConsequences(
    schema: set<string>, priorityColumn: string, scoreColumn: string,
    pages: seq<Page>, crawled: set<string>, links: seq<Link>, i: int)
    requires AuditInternalLinks(schema, priorityColumn, scoreColumn, pages, crawled, links).Ok?
    requires links != [] && 0 <= i < |pages|
    ensures var a := AuditInternalLinks(schema, priorityColumn, scoreColumn, pages, crawled, links).value[i];
      (pages[i].url !in crawled <==> a.gapStatus == OrphanPage) &&
      (pages[i].url in crawled && pages[i].tier == C ==> a.gapStatus == Healthy) &&
      (a.gapStatus == PoorAnchors ==> a.receivingLinks >= 1 && a.hasGenericAnchors && pages[i].tier != C) &&
      (a.gapStatus == UnderLinked ==> |Incoming(pages[i].url, links)| == 0)
  {
  }

  /** Scores between 0 and `bound` give every page an equity between 0 and
      `bound` times its receiving links; with all scores 0 (as the pipeline
      sets them) every equity is 0. */
  lemma EquityBounds(
    schema: set<string>, priorityColumn: string, scoreColumn: string,
    pages: seq<Page>, crawled: set<string>, links: seq<Link>, bound: int, i: int)
    requires AuditInternalLinks(schema, priorityColumn, scoreColumn, pages, crawled, links).Ok?
    requires 0 <= bound && forall p <- pages :: 0 <= p.score <= bound
    requires 0 <= i < |pages|
    ensures var a := AuditInternalLinks(schema, priorityColumn, scoreColumn, pages, crawled, links).value[i];
      0 <= a.linkEquityScore <= bound * a.receivingLinks
  {
    if links != [] {
      EquityForUrlBounds(pages[i].url, links, pages, bound);
    }
  }

  /** An A/B page that is not an orphan and receives no link is reported
      "High: Under-Linked" only when the link list holds some other link;
      with no links at all it gets "No internal links found". */
  lemma UnderLinkedNeedsSomeLinks(
    schema: set<string>, priorityColumn: string, scoreColumn: string,
    pages: seq<Page>, crawled: set<string>, links: seq<Link>, i: int)
    requires AuditInternalLinks(schema, priorityColumn, scoreColumn, pages, crawled, links).Ok?
    requires 0 <= i < |pages| && pages[i].url in crawled && (pages[i].tier == A || pages[i].tier == B)
    requires forall k :: 0 <= k < |links| ==> links[k].dest != pages[i].url
    ensures var a := AuditInternalLinks(schema, priorityColumn, scoreColumn, pages, crawled, links).value[i];
      (links != [] ==> a.gapStatus == UnderLinked) &&
      (links == [] ==> a.gapStatus == NoInternalLinksFound)
  {
    NoIncoming(pages[i].url, links);
  }

  lemma {:induction false} NoIncoming(url: string, links: seq<Link>)
    requires forall k :: 0 <= k < |links| ==> links[k].dest != url
    ensures Incoming(url, links) == []
  {
    if links != [] {
      var n := |links| - 1;
      assert forall k :: 0 <= k < n ==> links[..n][k] == links[k];
      NoIncoming(url, links[..n]);
    }
  }

  /** The default `priority_column` and `score_column` of
      `audit_internal_links`, the columns the pipeline adds to the metadata. */
  const PRIORITY_COLUMN: string := "priority_tier"
  const SCORE_COLUMN: string := "priority_score"

  /** The audit as the pipeline runs it: the two default columns are added
      to the metadata's columns, every metadata URL counts as crawled and
      every priority score is 0, so no page is an orphan and every equity
      is 0. */
  lemma PipelineAudit(metaColumns: set<string>, pages: seq<Page>, links: seq<Link>, i: int)
    requires forall p <- pages :: p.score == 0
    requires 0 <= i < |pages|
    ensures var schema := metaColumns + {PRIORITY_COLUMN, SCORE_COLUMN};
      var crawled := set p <- pages :: p.url;
      var r := AuditInternalLinks(schema, PRIORITY_COLUMN, SCORE_COLUMN, pages, crawled, links);
      r.Ok? && !r.value[i].isOrphan && r.value[i].gapStatus != OrphanPage && r.value[i].linkEquityScore == 0
  {
    var schema := metaColumns + {PRIORITY_COLUMN, SCORE_COLUMN};
    var crawled := set p <- pages :: p.url;
    assert pages[i] in pages;
    EquityBounds(schema, PRIORITY_COLUMN, SCORE_COLUMN, pages, crawled, links, 0, i);
  }
}

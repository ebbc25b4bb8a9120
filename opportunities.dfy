/** Phase 4: keyword-based linking opportunities. For every blog post and
    every important target page, an opportunity is proposed when the
    target's primary keyword occurs in the post and the post does not
    already link to the target. */
module Opportunities {
  import opened Strings
  import opened Records
  import opened Sorting
  import opened Seqs

  const GENERIC_WORDS: set<string> :=
    {"software", "solution", "platform", "tool", "system", "for", "and", "with", "the", "a", "an"}

  // ---------------------------------------------------------------------
  // extract_primary_keyword
  // ---------------------------------------------------------------------

  predicate IsKeywordChar(c: char) {
    ('a' <= c <= 'z') || ('0' <= c <= '9')
  }

  /** `re.sub(r"[^a-z0-9\s]", " ", text)`: every character that is neither
      a lower-case letter, a digit nor whitespace becomes a space. */
  function BlankOutPunctuation(s: string): (r: string)
    ensures |r| == |s|
    ensures forall i :: 0 <= i < |r| ==> IsKeywordChar(r[i]) || IsSpace(r[i])
    ensures forall i :: 0 <= i < |s| && (IsKeywordChar(s[i]) || IsSpace(s[i])) ==> r[i] == s[i]
    ensures forall i :: 0 <= i < |s| && !(IsKeywordChar(s[i]) || IsSpace(s[i])) ==> r[i] == ' '
  {
    seq(|s|, i requires 0 <= i < |s| => if IsKeywordChar(s[i]) || IsSpace(s[i]) then s[i] else ' ')
  }

  /** A word worth keeping: longer than two characters and not generic. */
  predicate IsQualifyingWord(w: string) {
    w !in GENERIC_WORDS && |w| > 2
  }

  /** The qualifying words of `ws`, in order, duplicates kept. */
  function QualifyingWords(ws: seq<string>): (r: seq<string>)
    ensures |r| <= |ws|
    ensures forall i :: 0 <= i < |r| ==> IsQualifyingWord(r[i]) && r[i] in ws
    ensures forall w <- ws :: IsQualifyingWord(w) ==> w in r
  {
    if ws == [] then []
    else (if IsQualifyingWord(ws[0]) then [ws[0]] else []) + QualifyingWords(ws[1..])
  }

  /** Filtering two word lists in a row is filtering each in turn, so the
      kept words stay in input order with every duplicate. */
  lemma {:induction false} QualifyingWordsConcat(a: seq<string>, b: seq<string>)
    ensures QualifyingWords(a + b) == QualifyingWords(a) + QualifyingWords(b)
  {
    if a == [] {
      assert a + b == b;
    } else {
      assert (a + b)[0] == a[0];
      assert (a + b)[1..] == a[1..] + b;
      QualifyingWordsConcat(a[1..], b);
    }
  }

  /** A single word is kept exactly when it qualifies. */
  lemma QualifyingWordsSingle(w: string)
    ensures QualifyingWords([w]) == if IsQualifyingWord(w) then [w] else []
  {
    assert [w][1..] == [];
  }

  /** The words of `title + " " + h1`, lower-cased with punctuation blanked
      out, that qualify as keyword words. */
  function CandidateWords(title: string, h1: string): seq<string> {
    QualifyingWords(Words(BlankOutPunctuation(Lower(title + " " + h1))))
  }

  function Min(a: int, b: int): int { if a <= b then a else b }

  /** Every candidate word is a run of lower-case letters and digits. */
  lemma CandidateWordsShape(title: string, h1: string)
    ensures forall i :: 0 <= i < |CandidateWords(title, h1)| ==>
      CandidateWords(title, h1)[i] != [] && IsQualifyingWord(CandidateWords(title, h1)[i]) &&
      forall k :: 0 <= k < |CandidateWords(title, h1)[i]| ==> IsKeywordChar(CandidateWords(title, h1)[i][k])
  {
    var text := BlankOutPunctuation(Lower(title + " " + h1));
    var ws := Words(text);
    var cs := CandidateWords(title, h1);
    forall i, k | 0 <= i < |cs| && 0 <= k < |cs[i]|
      ensures IsKeywordChar(cs[i][k])
    {
      var j :| 0 <= j < |ws| && ws[j] == cs[i];
      assert cs[i][k] in text;
      assert !IsSpace(cs[i][k]);
    }
    forall i | 0 <= i < |cs|
      ensures cs[i] != []
    {
      var j :| 0 <= j < |ws| && ws[j] == cs[i];
    }
  }

  /** `extract_primary_keyword`: the first three qualifying words of the
      title and H1, joined by single spaces; "" when no word qualifies. */
  function ExtractPrimaryKeyword(title: string, h1: string): (keyword: string)
    ensures Words(keyword) == CandidateWords(title, h1)[..Min(3, |CandidateWords(title, h1)|)]
    ensures keyword == "" <==> CandidateWords(title, h1) == []
    ensures keyword == JoinWords(Words(keyword))
    ensures |Words(keyword)| <= 3
    ensures forall i :: 0 <= i < |Words(keyword)| ==>
      IsQualifyingWord(Words(keyword)[i]) &&
      forall k :: 0 <= k < |Words(keyword)[i]| ==> IsKeywordChar(Words(keyword)[i][k])
  {
    var words := CandidateWords(title, h1);
    CandidateWordsShape(title, h1);
    if words == [] then ""
    else
      var first := words[..Min(3, |words|)];
      WordsOfJoin(first);
      JoinWords(first)
  }

  // ---------------------------------------------------------------------
  // already_linked
  // ---------------------------------------------------------------------

  /** `already_linked`: some existing link goes from `sourceUrl` to
      `targetUrl`, the URLs compared exactly. */
  function AlreadyLinked(sourceUrl: string, targetUrl: string, links: seq<Link>): (linked: bool)
    ensures linked <==> exists k :: 0 <= k < |links| && links[k].source == sourceUrl && links[k].dest == targetUrl
  {
    if links == [] then false
    else if links[0].source == sourceUrl && links[0].dest == targetUrl then true
    else
      var rest := AlreadyLinked(sourceUrl, targetUrl, links[1..]);
      assert rest <==> exists k :: 1 <= k < |links| && links[k].source == sourceUrl && links[k].dest == targetUrl by {
        if rest {
          var k :| 0 <= k < |links[1..]| && links[1..][k].source == sourceUrl && links[1..][k].dest == targetUrl;
          assert links[k + 1] == links[1..][k];
        }
        if exists k :: 1 <= k < |links| && links[k].source == sourceUrl && links[k].dest == targetUrl {
          var k :| 1 <= k < |links| && links[k].source == sourceUrl && links[k].dest == targetUrl;
          assert links[1..][k - 1] == links[k];
        }
      }
      rest
  }

  // ---------------------------------------------------------------------
  // run_phase_4_opportunities
  // ---------------------------------------------------------------------

  /** A target row: a page with its primary keyword. */
  datatype Target = Target(page: Page, keyword: string)

  /** One emitted row. */
  datatype Opportunity = Opportunity(
    sourceUrl: string,
    targetUrl: string,
    suggestedAnchor: string,
    targetImportance: Tier,
    sourceTraffic: int)

  /** The target row of one metadata row: present when its importance is
      in `minPriority` and its primary keyword is not empty. */
  function TargetOf(p: Page, minPriority: set<Tier>): seq<Target> {
    var keyword := ExtractPrimaryKeyword(p.title, p.h1);
    if p.tier in minPriority && keyword != "" then [Target(p, keyword)] else []
  }

  /** The importance filter, the keyword column and the non-empty filter,
      in metadata order. */
  function PrepareTargets(meta: seq<Page>, minPriority: set<Tier>): seq<Target> {
    FlatMap(meta, (p: Page) => TargetOf(p, minPriority))
  }

  /** The targets are exactly the metadata pages of a wanted importance
      with a non-empty primary keyword, each paired with that keyword. */
  lemma PrepareTargetsMembership(meta: seq<Page>, minPriority: set<Tier>, t: Target)
    ensures t in PrepareTargets(meta, minPriority) <==>
      t.page in meta && t.page.tier in minPriority &&
      t.keyword == ExtractPrimaryKeyword(t.page.title, t.page.h1) && t.keyword != ""
  {
    FlatMapMembership(meta, (p: Page) => TargetOf(p, minPriority), t);
  }

  /** `source.get("non_branded_traffic", 0)`. */
  function SourceTraffic(b: Blog): int {
    match b.traffic
    case Some(t) => t
    case None => 0
  }

  /** The inner loop body for one (source, target) pair: nothing when the
      link exists, otherwise one opportunity when the keyword occurs in
      the lower-cased content. */
  function PairOpportunities(b: Blog, t: Target, links: seq<Link>): seq<Opportunity> {
    if AlreadyLinked(b.url, t.page.url, links) then []
    else if Occurs(t.keyword, Lower(b.content)) then
      [Opportunity(b.url, t.page.url, t.keyword, t.page.tier, SourceTraffic(b))]
    else []
  }

  /** What the inner loop appends for one blog post. */
  function BlogOpportunities(b: Blog, targets: seq<Target>, links: seq<Link>): seq<Opportunity> {
    FlatMap(targets, (t: Target) => PairOpportunities(b, t, links))
  }

  /** What the nested loop appends for all blog posts, before sorting. */
  function CollectedOpportunities(blogs: seq<Blog>, targets: seq<Target>, links: seq<Link>): seq<Opportunity> {
    FlatMap(blogs, (b: Blog) => BlogOpportunities(b, targets, links))
  }

  /** Some target makes the pair loop for `b` emit `o`. */
  predicate EmitsFor(b: Blog, targets: seq<Target>, links: seq<Link>, o: Opportunity) {
    exists j :: 0 <= j < |targets| && o in PairOpportunities(b, targets[j], links)
  }

  lemma BlogOpportunitiesMembership(b: Blog, targets: seq<Target>, links: seq<Link>, o: Opportunity)
    ensures o in BlogOpportunities(b, targets, links) <==> EmitsFor(b, targets, links, o)
  {
    FlatMapMembership(targets, (t: Target) => PairOpportunities(b, t, links), o);
  }

  lemma CollectedMembership(blogs: seq<Blog>, targets: seq<Target>, links: seq<Link>, o: Opportunity)
    ensures o in CollectedOpportunities(blogs, targets, links) <==>
      exists i :: 0 <= i < |blogs| && EmitsFor(blogs[i], targets, links, o)
  {
    FlatMapMembership(blogs, (b: Blog) => BlogOpportunities(b, targets, links), o);
    forall i | 0 <= i < |blogs|
      ensures o in BlogOpportunities(blogs[i], targets, links) <==> EmitsFor(blogs[i], targets, links, o)
    {
      BlogOpportunitiesMembership(blogs[i], targets, links, o);
    }
  }

  /** The pair (b, p) yields an opportunity: p is of a wanted importance,
      has a keyword, is not yet linked from b, and its keyword occurs in
      b's lower-cased content. */
  predicate Eligible(b: Blog, p: Page, links: seq<Link>, minPriority: set<Tier>) {
    p.tier in minPriority
    && ExtractPrimaryKeyword(p.title, p.h1) != ""
    && !AlreadyLinked(b.url, p.url, links)
    && Occurs(ExtractPrimaryKeyword(p.title, p.h1), Lower(b.content))
  }

  function OpportunityFor(b: Blog, p: Page): Opportunity {
    Opportunity(b.url, p.url, ExtractPrimaryKeyword(p.title, p.h1), p.tier, SourceTraffic(b))
  }

  /** A collected opportunity is that of an eligible pair. */
  lemma CollectedSound(blogs: seq<Blog>, meta: seq<Page>, links: seq<Link>, minPriority: set<Tier>, o: Opportunity)
    requires o in CollectedOpportunities(blogs, PrepareTargets(meta, minPriority), links)
    ensures exists b <- blogs, p <- meta :: Eligible(b, p, links, minPriority) && o == OpportunityFor(b, p)
  {
    var targets := PrepareTargets(meta, minPriority);
    CollectedMembership(blogs, targets, links, o);
    var i :| 0 <= i < |blogs| && EmitsFor(blogs[i], targets, links, o);
    var j :| 0 <= j < |targets| && o in PairOpportunities(blogs[i], targets[j], links);
    PrepareTargetsMembership(meta, minPriority, targets[j]);
    assert blogs[i] in blogs;
    assert Eligible(blogs[i], targets[j].page, links, minPriority);
  }

  /** An eligible pair has its opportunity collected. */
  lemma CollectedComplete(blogs: seq<Blog>, meta: seq<Page>, links: seq<Link>, minPriority: set<Tier>, b: Blog, p: Page)
    requires b in blogs && p in meta && Eligible(b, p, links, minPriority)
    ensures OpportunityFor(b, p) in CollectedOpportunities(blogs, PrepareTargets(meta, minPriority), links)
  {
    var targets := PrepareTargets(meta, minPriority);
    var t := Target(p, ExtractPrimaryKeyword(p.title, p.h1));
    PrepareTargetsMembership(meta, minPriority, t);
    var i :| 0 <= i < |blogs| && blogs[i] == b;
    var j :| 0 <= j < |targets| && targets[j] == t;
    assert OpportunityFor(b, p) in PairOpportunities(blogs[i], targets[j], links);
    assert EmitsFor(blogs[i], targets, links, OpportunityFor(b, p));
    CollectedMembership(blogs, targets, links, OpportunityFor(b, p));
  }

  /** The collected opportunities are exactly those of the eligible pairs. */
  lemma CollectedSoundAndComplete(blogs: seq<Blog>, meta: seq<Page>, links: seq<Link>, minPriority: set<Tier>)
    ensures var all := CollectedOpportunities(blogs, PrepareTargets(meta, minPriority), links);
      (forall o <- all :: exists b <- blogs, p <- meta :: Eligible(b, p, links, minPriority) && o == OpportunityFor(b, p)) &&
      (forall b <- blogs, p <- meta :: Eligible(b, p, links, minPriority) ==> OpportunityFor(b, p) in all)
  {
    var all := CollectedOpportunities(blogs, PrepareTargets(meta, minPriority), links);
    forall o <- all
      ensures exists b <- blogs, p <- meta :: Eligible(b, p, links, minPriority) && o == OpportunityFor(b, p)
    {
      CollectedSound(blogs, meta, links, minPriority, o);
    }
    forall b <- blogs, p <- meta | Eligible(b, p, links, minPriority)
      ensures OpportunityFor(b, p) in all
    {
      CollectedComplete(blogs, meta, links, minPriority, b, p);
    }
  }

  /** The default `min_priority` of `run_phase_4_opportunities`, the one
      the pipeline runs it with. */
  const DEFAULT_MIN_PRIORITY: set<Tier> := {A, B}

  /** With the default importance filter every collected opportunity
      targets a tier A or B page. */
  lemma DefaultTargetsImportant(blogs: seq<Blog>, meta: seq<Page>, links: seq<Link>, o: Opportunity)
    requires o in CollectedOpportunities(blogs, PrepareTargets(meta, DEFAULT_MIN_PRIORITY), links)
    ensures o.targetImportance == A || o.targetImportance == B
  {
    CollectedSound(blogs, meta, links, DEFAULT_MIN_PRIORITY, o);
  }

  /** `{"A": 1, "B": 2, "C": 3}` */
  function ImportanceRank(t: Tier): int {
    match t
    case A => 1
    case B => 2
    case C => 3
  }

  /** Target importance rank ascending, then source traffic descending. */
  function OpportunityKey(o: Opportunity): SortKey {
    SortKey(ImportanceRank(o.targetImportance), -o.sourceTraffic)
  }

  lemma BlogOpportunitiesStep(b: Blog, targets: seq<Target>, j: int, links: seq<Link>)
    requires 0 <= j < |targets|
    ensures BlogOpportunities(b, targets[..j + 1], links) ==
      BlogOpportunities(b, targets[..j], links) + PairOpportunities(b, targets[j], links)
  {
    FlatMapSnoc(targets, j, (t: Target) => PairOpportunities(b, t, links));
  }

  lemma CollectedStep(blogs: seq<Blog>, i: int, targets: seq<Target>, links: seq<Link>)
    requires 0 <= i < |blogs|
    ensures CollectedOpportunities(blogs[..i + 1], targets, links) ==
      CollectedOpportunities(blogs[..i], targets, links) + BlogOpportunities(blogs[i], targets, links)
  {
    FlatMapSnoc(blogs, i, (b: Blog) => BlogOpportunities(b, targets, links));
  }

  /** Sorting by OpportunityKey orders by importance rank, then by
      descending traffic, and keeps every collected row. */
  lemma SortedOpportunities(collected: seq<Opportunity>)
    ensures var r := SortByKey(collected, OpportunityKey);
      multiset(r) == multiset(collected) &&
      (forall o :: o in r <==> o in collected) &&
      forall i, j :: 0 <= i < j < |r| ==>
        ImportanceRank(r[i].targetImportance) < ImportanceRank(r[j].targetImportance) ||
        (r[i].targetImportance == r[j].targetImportance && r[i].sourceTraffic >= r[j].sourceTraffic)
  {
    var r := SortByKey(collected, OpportunityKey);
    forall o
      ensures o in r <==> o in collected
    {
      SortedMembership(collected, OpportunityKey, o);
    }
    forall i, j | 0 <= i < j < |r|
      ensures ImportanceRank(r[i].targetImportance) < ImportanceRank(r[j].targetImportance) ||
        (r[i].targetImportance == r[j].targetImportance && r[i].sourceTraffic >= r[j].sourceTraffic)
    {
      assert KeyLe(OpportunityKey(r[i]), OpportunityKey(r[j]));
    }
  }

  /** What the output step makes of the collected rows: nothing when none
      was collected, else the rows sorted by OpportunityKey; either way the
      collected rows, exactly those of the eligible pairs, in rank and
      traffic order. */
  lemma Phase4Output(blogs: seq<Blog>, meta: seq<Page>, links: seq<Link>, minPriority: set<Tier>, collected: seq<Opportunity>)
    requires collected == CollectedOpportunities(blogs, PrepareTargets(meta, minPriority), links)
    ensures var result := if collected == [] then [] else SortByKey(collected, OpportunityKey);
      multiset(result) == multiset(collected) &&
      (forall o <- result :: exists b <- blogs, p <- meta ::
        Eligible(b, p, links, minPriority) && o == OpportunityFor(b, p)) &&
      (forall b <- blogs, p <- meta ::
        Eligible(b, p, links, minPriority) ==> OpportunityFor(b, p) in result) &&
      forall i, j :: 0 <= i < j < |result| ==>
        ImportanceRank(result[i].targetImportance) < ImportanceRank(result[j].targetImportance) ||
        (result[i].targetImportance == result[j].targetImportance && result[i].sourceTraffic >= result[j].sourceTraffic)
  {
    CollectedSoundAndComplete(blogs, meta, links, minPriority);
    SortedOpportunities(collected);
  }

  /** The nested loop of `run_phase_4_opportunities`: every blog post
      against every target, skipping linked pairs and keeping the pairs
      whose keyword occurs in the lower-cased content. */
  method CollectOpportunities(blogs: seq<Blog>, targets: seq<Target>, links: seq<Link>)
    returns (opportunities: seq<Opportunity>)
    ensures opportunities == CollectedOpportunities(blogs, targets, links)
  {
    opportunities := [];
    for i := 0 to |blogs|
      invariant opportunities == CollectedOpportunities(blogs[..i], targets, links)
    {
      var source := blogs[i];
      var content := Lower(source.content);
      ghost var before := opportunities;
      for j := 0 to |targets|
        invariant opportunities == before + BlogOpportunities(source, targets[..j], links)
      {
        var target := targets[j];
        ghost var emitted := BlogOpportunities(source, targets[..j], links);
        BlogOpportunitiesStep(source, targets, j, links);
        if AlreadyLinked(source.url, target.page.url, links) {
          continue;
        }
        if Occurs(target.keyword, content) {
          var o := Opportunity(source.url, target.page.url, target.keyword, target.page.tier, SourceTraffic(source));
          assert PairOpportunities(source, target, links) == [o];
          opportunities := opportunities + [o];
          assert opportunities == before + (emitted + [o]);
        }
      }
      assert targets[..|targets|] == targets;
      CollectedStep(blogs, i, targets, links);
    }
    assert blogs[..|blogs|] == blogs;
  }

  /** `run_phase_4_opportunities`. */
  method RunPhase4Opportunities(blogs: seq<Blog>, meta: seq<Page>, links: seq<Link>, minPriority: set<Tier>)
    returns (result: seq<Opportunity>)
    ensures multiset(result) == multiset(CollectedOpportunities(blogs, PrepareTargets(meta, minPriority), links))
    ensures forall o <- result :: exists b <- blogs, p <- meta ::
      Eligible(b, p, links, minPriority) && o == OpportunityFor(b, p)
    ensures forall b <- blogs, p <- meta ::
      Eligible(b, p, links, minPriority) ==> OpportunityFor(b, p) in result
    ensures forall i, j :: 0 <= i < j < |result| ==>
      ImportanceRank(result[i].targetImportance) < ImportanceRank(result[j].targetImportance) ||
      (result[i].targetImportance == result[j].targetImportance && result[i].sourceTraffic >= result[j].sourceTraffic)
  {
    var targets := PrepareTargets(meta, minPriority);
    var opportunities := CollectOpportunities(blogs, targets, links);
    Phase4Output(blogs, meta, links, minPriority, opportunities);
    if opportunities == [] {
      return [];
    }
    result := SortByKey(opportunities, OpportunityKey);
  }
}

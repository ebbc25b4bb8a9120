# Internal-link analysis: audit, opportunities and reports

This project models the core of an SEO internal-linking tool. The tool reads
three inputs:

- page metadata: URL, title, H1 and an importance tier A, B or C;
- the site's existing internal links: source, destination and anchor text;
- blog posts: URL, content and optionally non-branded traffic.

It then runs three phases:

- **Audit** (`Audit.AuditInternalLinks`). Each page is annotated with:
  - whether it is an orphan, i.e. not among the crawled URLs;
  - how many links it receives;
  - its link-equity score, the sum of the priority scores of the pages linking to it;
  - whether some link to it uses a generic anchor such as "click here";
  - a gap status, one of:
    - "CRITICAL: Orphan Page";
    - "High: Under-Linked";
    - "Medium: Poor Anchors";
    - "Healthy";
    - "No internal links found" when the link list is empty.
- **Opportunities** (`Opportunities.RunPhase4Opportunities`). This phase:
  - takes as a primary keyword the first three qualifying words of each important page's title and H1;
  - pairs every blog post with every target page whose keyword occurs in the post's lower-cased content and that the post does not already link to;
  - orders the pairs by target importance, then by source traffic, highest first.
- **Reporting** (`Reporting`). Three tables are built:
  - the page summary, sorted by tier and then by priority score;
  - the actionable opportunities, annotated with the target's tier;
  - the anchor-optimisation list: existing links to A/B pages whose cleaned anchor is generic, each with an anchor suggested from the destination URL's last path segment.

Every data frame is a sequence of records (`Records`). The string primitives
of Python that the code relies on are in `Strings`:

- `lower`, `strip` and `split()`;
- `" ".join`;
- `in` on strings;
- `rstrip("/")`, `split("/")[-1]` and `replace`.

`Sorting` holds the two-column `sort_values` used by all sorted tables. That
sort is specified by key order plus permutation. `Seqs` holds `FlatMap`: the
rows a per-element step yields over a sequence, in order. It is the reference
for the phase-4 loops and for the row-by-row filters.

The audit, the keyword extraction and the reports are expressions over
frames, so they are functions. Phase 4 builds its list in a nested loop, so
it is a method with loop invariants. Those invariants tie the loop to the
reference function `Opportunities.CollectedOpportunities`. The sort's
results are then proved sound, complete and ordered.

A tier-A page with zero incoming links is reported "High: Under-Linked"
only when the link list holds at least one other link. With an
empty link list, every page gets "No internal links found", orphans
included (`phases/phase_3_audit.py:57-64`). The model follows the code, and
`Audit.UnderLinkedNeedsSomeLinks` states both cases.

## Model

| member | source | states |
|---|---|---|
| Audit.IsGenericAnchor | phases/phase_3_audit.py:20-23 | definition of `is_generic_anchor` (a non-string anchor is not generic; otherwise the stripped, lower-cased text is one of `GENERIC_ANCHORS`); its properties are stated by `GenericAnchorEitherOrder` and `GenericAnchorPadded` |
| Audit.GenericAnchorEitherOrder | phases/phase_3_audit.py:20-23 | an anchor is generic exactly when its lower-cased, whitespace-stripped text is one of the five generic phrases, whichever order lowering and stripping run in |
| Audit.GenericAnchorPadded | phases/phase_3_audit.py:11-23 | any of the five phrases is generic in any mix of case with any surrounding whitespace; a missing (non-string) anchor is not generic |
| Audit.GapStatusOf | phases/phase_3_audit.py:115-122 | the gap cascade: an orphan is "CRITICAL: Orphan Page"; a non-orphan A/B page with no receiving link is "High: Under-Linked"; one whose links have a generic anchor is "Medium: Poor Anchors"; every other page is "Healthy" (each stated as an if-and-only-if); a tier-C non-orphan is always Healthy; the cascade never yields "No internal links found" |
| Audit.GapLabelInjective | phases/phase_3_audit.py:115-122 | the five `gap_status` texts, including "No internal links found" of line 63, are pairwise distinct, so the column text determines the status |
| Audit.Incoming | phases/phase_3_audit.py:66-80 | the links whose destination is the URL: each of them is in the list and points to the URL, and every such link of the list is among them |
| Audit.IncomingConcat | phases/phase_3_audit.py:92 | the filter of two link lists in a row is the two filters in a row: input order is kept |
| Audit.IncomingSingle | phases/phase_3_audit.py:92 | a single link is kept exactly when its destination is the URL |
| Audit.IncomingMultiplicity | phases/phase_3_audit.py:92 | a link pointing to the URL occurs in the filter exactly as often as in the list, and any other link not at all, so duplicates are counted |
| Audit.CountsByDest | phases/phase_3_audit.py:67-71 | `groupby("dest").size()`: every destination present has a positive count; its value is stated by `CountsByDestIsIncoming` |
| Audit.CountsByDestIsIncoming | phases/phase_3_audit.py:66-80 | the `groupby("dest").size()` count the merge gives a URL equals the number of links pointing to it; a URL with no links gets 0 (the `fillna(0)`) |
| Audit.ScoreMap | phases/phase_3_audit.py:85-89 | definition of `source_scores`, the URL-to-score dictionary (`Records.UrlIndex` of the score column); its value per page is stated by `ScoreMapIsPageScore` |
| Audit.ScoreMapIsPageScore | phases/phase_3_audit.py:85-96 | with unique URLs, the score looked up for a URL (0 when absent, the `.get(src, 0)`) is the score of the page with that URL |
| Audit.EquityForUrl | phases/phase_3_audit.py:91-96 | definition of `equity_for_url`: the sum of the looked-up source scores over the incoming links; its contract is in `EquityForUrlIsSpec` and `EquityForUrlBounds` |
| Audit.EquityForUrlIsSpec | phases/phase_3_audit.py:85-98 | with unique page URLs, the equity merged into a page is the sum over its incoming links of the source page's priority score, 0 for a source missing from the metadata |
| Audit.EquityForUrlBounds | phases/phase_3_audit.py:85-98 | with scores between 0 and a bound, a URL's equity lies between 0 and the bound times its incoming-link count |
| Audit.GenericAnchorTargetsIncoming | phases/phase_3_audit.py:66-110 | a URL is among the destinations carrying a generic-anchor link exactly when one of its incoming links has a generic anchor, and such a URL has a non-zero receiving-link count |
| Audit.AuditInternalLinks | phases/phase_3_audit.py:30-126 | a missing priority or score column is an error (priority first); otherwise one row per page, in order, with the orphan flag; with no links every count and equity is 0 and every status "No internal links found"; otherwise the receiving count is the number of incoming links, the generic flag holds exactly when an incoming link has a generic anchor, the status is the cascade's and (unique URLs) the equity is the reference sum |
| Audit.GenericFlagImpliesReceiving | phases/phase_3_audit.py:66-110 | a page flagged for generic anchors receives at least one link |
| Audit.GapStatusConsequences | phases/phase_3_audit.py:115-124 | with links present: a page is "CRITICAL: Orphan Page" exactly when it is not crawled; a crawled tier-C page is Healthy; "Medium: Poor Anchors" needs a receiving link with a generic anchor on an A/B page; "High: Under-Linked" means no link points to the page |
| Audit.EquityBounds | phases/phase_3_audit.py:85-98 | every audited page's equity lies between 0 and the score bound times its receiving links |
| Audit.UnderLinkedNeedsSomeLinks | phases/phase_3_audit.py:57-122 | a crawled A/B page that no link reaches is "High: Under-Linked" when other links exist and "No internal links found" when there are none |
| Audit.NoIncoming | phases/phase_3_audit.py:66-80 | a URL that is no link's destination has no incoming links |
| Audit.PipelineAudit | main.py:38-54 | with the default `priority_tier`/`priority_score` columns added to the metadata (so the audit succeeds), every metadata URL crawled and every score 0, as the pipeline prepares them, no audited page is an orphan and every equity is 0 |
| Opportunities.BlankOutPunctuation | phases/phase_4_opportunities.py:34 | every character other than a lower-case letter, digit or whitespace becomes a space, the others are kept, the length is unchanged |
| Opportunities.QualifyingWords | phases/phase_4_opportunities.py:36-39 | the kept words are exactly the words longer than two characters that are not generic words, each taken from the input |
| Opportunities.QualifyingWordsConcat | phases/phase_4_opportunities.py:36-39 | filtering two word lists in a row is filtering each in turn: order and duplicates are kept |
| Opportunities.QualifyingWordsSingle | phases/phase_4_opportunities.py:36-39 | one word is kept exactly when it is longer than two characters and not a generic word |
| Opportunities.CandidateWords | phases/phase_4_opportunities.py:33-39 | definition of the candidate words of `title + " " + h1`; their shape is stated by `CandidateWordsShape` and their use by `ExtractPrimaryKeyword` |
| Opportunities.CandidateWordsShape | phases/phase_4_opportunities.py:33-39 | every candidate word is non-empty and made only of lower-case letters and digits |
| Opportunities.ExtractPrimaryKeyword | phases/phase_4_opportunities.py:27-45 | the keyword's words are the first (at most) three candidate words of title and H1, joined by single spaces; it is empty exactly when there is no candidate word |
| Opportunities.AlreadyLinked | phases/phase_4_opportunities.py:48-56 | true exactly when some existing link has that source and that destination |
| Opportunities.PrepareTargets | phases/phase_4_opportunities.py:78-85 | definition of the target list (importance filter, keyword, non-empty keywords only); its contents are stated by `PrepareTargetsMembership` |
| Opportunities.PrepareTargetsMembership | phases/phase_4_opportunities.py:78-85 | a target row is present exactly when its page is in the metadata with a wanted importance and a non-empty primary keyword, and it carries that keyword |
| Opportunities.SourceTraffic | phases/phase_4_opportunities.py:109 | definition of `source.get("non_branded_traffic", 0)`: the post's traffic, 0 when absent; used in the rows stated by `CollectedSound` |
| Opportunities.BlogOpportunitiesMembership | phases/phase_4_opportunities.py:94-110 | a row is in one post's inner-loop output exactly when the pair step of some target emits it; the pair step emits a row only when the post does not already link to the target and the keyword occurs in the lower-cased content |
| Opportunities.CollectedMembership | phases/phase_4_opportunities.py:90-110 | the nested loop emits a row exactly for such (post, target) pairs |
| Opportunities.CollectedSound | phases/phase_4_opportunities.py:90-110 | every collected row is the row of an eligible (post, page) pair |
| Opportunities.CollectedComplete | phases/phase_4_opportunities.py:90-110 | every eligible (post, page) pair has its row collected |
| Opportunities.CollectedSoundAndComplete | phases/phase_4_opportunities.py:78-110 | every collected row is the row of an eligible (post, page) pair, and every eligible pair has its row collected |
| Opportunities.CollectOpportunities | phases/phase_4_opportunities.py:90-110 | the nested loop, skipping already-linked pairs with `continue`, appends exactly the reference rows of every post against every target, in post-then-target order |
| Opportunities.Phase4Output | phases/phase_4_opportunities.py:115-127 | the output step (empty when nothing matched, else sorted) keeps exactly the collected rows, which are those of the eligible pairs, in rank-then-traffic order |
| Opportunities.ImportanceRank | phases/phase_4_opportunities.py:121 | definition of the rank map `{"A": 1, "B": 2, "C": 3}`; the order it induces is stated by `SortedOpportunities` |
| Opportunities.SortedOpportunities | phases/phase_4_opportunities.py:121-125 | the sorted list has the same rows; importance rank ascends and within a rank source traffic descends |
| Opportunities.DefaultTargetsImportant | phases/phase_4_opportunities.py:63-85 | with the default `min_priority` of A and B, every collected opportunity targets a tier A or B page |
| Opportunities.RunPhase4Opportunities | phases/phase_4_opportunities.py:63-127 | the result is a permutation of what the nested loop collects, empty when nothing matched; each row comes from an eligible pair, every eligible pair has its row, and rows are ordered A-B-C then by traffic, highest first |
| Records.UrlIndexAt | phases/phase_5_reporting.py:53-57 | with unique URLs, `set_index("url")[column].to_dict()` maps each page's URL to that page's value |
| Records.UrlIndex | phases/phase_3_audit.py:85-89 | the dictionary's keys are exactly the frame's URLs, each mapped to the value of one of its rows |
| Records.UrlIndexLastWins | phases/phase_3_audit.py:85-89 | when a URL occurs in several rows, the dictionary maps it to the value of its last row |
| Sorting.SortByKey | phases/phase_5_reporting.py:27-30 | the two-column sort returns a permutation of its input ordered by the first key ascending and the second descending |
| Sorting.SortedMembership | phases/phase_4_opportunities.py:122-125 | sorting keeps exactly the rows it was given |
| Reporting.BuildPageSummaryReport | phases/phase_5_reporting.py:12-32 | the summary is a permutation of the six selected columns of all audited rows, ordered by tier A-B-C and within a tier by score, highest first |
| Reporting.BuildActionableOpportunities | phases/phase_5_reporting.py:39-86 | a missing or empty opportunity frame gives an empty table; otherwise a permutation of the projected rows, ordered by target priority (unknown last) then by traffic, highest first |
| Reporting.PriorityMap | phases/phase_5_reporting.py:53-57 | definition of `priority_map` (`Records.UrlIndex` of the tier column); its lookups are stated by `TierLookupIsPageTier` |
| Reporting.TierLookup | phases/phase_5_reporting.py:59 | definition of `.map(priority_map)`: the tier, or missing for an unknown URL; stated by `TierLookupIsPageTier` |
| Reporting.TierLookupIsPageTier | phases/phase_5_reporting.py:53-59 | with unique URLs, the looked-up target priority is the page's tier, and missing for a URL not audited |
| Reporting.ActionableRowsCarryTargetTier | phases/phase_5_reporting.py:53-84 | every table row describes one of the opportunities with its target's audited tier, and every opportunity has its row |
| Reporting.SuggestAnchor | phases/phase_5_reporting.py:133-134 | the suggested anchor contains no slash and no dash and is no longer than the URL |
| Reporting.SuggestAnchorIgnoresTrailingSlash | phases/phase_5_reporting.py:134 | a trailing slash does not change the suggestion |
| Reporting.SuggestAnchorOfSlug | phases/phase_5_reporting.py:134 | for `prefix/slug` the suggestion is the slug with dashes turned into spaces |
| Reporting.SuggestAnchorOfBareSlug | phases/phase_5_reporting.py:134 | for a URL without any slash the suggestion is the whole URL with dashes turned into spaces |
| Reporting.CleanAnchor | phases/phase_5_reporting.py:114 | definition of `anchor.str.lower().str.strip()` (missing for a non-string anchor); its agreement with the audit's test is stated by `Strings.LowerStripCommute` and `AnchorReportMatchesAuditFlag` |
| Reporting.ImportantUrlsByPriorityMap | phases/phase_5_reporting.py:122-126 | with unique URLs, a URL is among the report's important URLs exactly when the priority map built for the opportunity table gives it tier A or B, so the two uses of the audited tier agree |
| Reporting.AnchorRows | phases/phase_5_reporting.py:114-136 | definition of the two filters and the suggestion column, row by row; its contents are stated by `AnchorRowsMembership` and its order by `AnchorRowsConcat` |
| Reporting.AnchorRowsConcat | phases/phase_5_reporting.py:114-136 | the kept rows of two link lists in a row are the two kept-row lists in a row |
| Reporting.AnchorRowsMembership | phases/phase_5_reporting.py:114-136 | the kept rows are exactly those of the links whose cleaned anchor is generic and whose destination is important |
| Reporting.BuildAnchorOptimizationReport | phases/phase_5_reporting.py:93-151 | no links give an empty report; every row is a link with a generic anchor to an A/B page, its raw anchor and the slug suggestion |
| Reporting.AnchorReportComplete | phases/phase_5_reporting.py:114-136 | every link whose cleaned anchor is generic and whose destination is an A/B page appears in the report as its raw anchor with the slug suggestion |
| Reporting.AnchorReportConcat | phases/phase_5_reporting.py:114-151 | the report of two link lists in sequence is the two reports in sequence (input order kept) |
| Reporting.AnchorReportSingle | phases/phase_5_reporting.py:114-151 | a single link is reported, with its raw anchor and the slug suggestion, exactly when its anchor is generic and its destination important |
| Reporting.AnchorReportMatchesAuditFlag | phases/phase_5_reporting.py:114-130 | on the audit's own output, an A/B page is flagged for generic anchors by the audit exactly when the anchor report has a row pointing to it |
| Strings.StripUnique | phases/phase_3_audit.py:23 | stripping whitespace around a trimmed core returns that core |
| Strings.LowerStripCommute | phases/phase_5_reporting.py:114 | lowering and stripping commute, so the audit's `strip().lower()` and the report's `lower().strip()` agree |
| Strings.WordsOfJoin | phases/phase_4_opportunities.py:37-45 | splitting a space-joined list of non-empty words without whitespace gives the list back |
| Strings.OccursIffAt | phases/phase_4_opportunities.py:103 | a keyword occurs in a text exactly when the text has it as a prefix at some position |
| Strings.LastSegmentAfter | phases/phase_5_reporting.py:134 | the last segment after a separator is the text after the separator's last occurrence |

The model uses a single `GENERIC_ANCHORS` set. The anchor report
(`phases/phase_5_reporting.py:101-107`) declares its own copy with the same
five phrases, so the report reuses the audit's constant.

## Left out

- Loading: reading the CSV or Excel (`.xlsx`/`.xls`) inputs, the rejection of any other file format, their column checks and the importance validation (`phases/phase_2_*_loader.py`) are not modelled. Their guarantees are built into the record types instead: an importance is always A, B or C, content is a string, and an anchor that is not a string is `None`.
- The Excel export (`phases/phase_5_reporting.py:158-195`) is file I/O and is left out.
- `main.py`: its audit call is modelled by `Audit.PipelineAudit` and its phase-4 call, which keeps the default `min_priority`, by `Opportunities.DEFAULT_MIN_PRIORITY` and `Opportunities.DefaultTargetsImportant`. The fixed file paths under `BASE_DIR`, the timing and the final `print` (main.py:16-29, 75-76) are I/O and are left out.
- Text is ASCII-only: `lower()` maps only A-Z, and whitespace is Python's ASCII `isspace` set. Unicode case mapping and Unicode whitespace are not modelled.
- Sorting.SortByKey: does not state the relative order of rows with equal keys in the sorted tables. Only the key order and the permutation are proved.
- Reporting.BuildPageSummaryReport: the `priority_score` column is assumed to be an integer. Floating-point scores and NaN are not modelled.
- Reporting.BuildActionableOpportunities: a missing target priority (NaN after `map`) is sorted after every tier, which is pandas' default `na_position="last"`. Missing traffic values are not modelled: traffic is an integer, or 0 when the column is absent.
- Audit.AuditInternalLinks: the equity is tied to the reference sum only for metadata with unique URLs. With duplicate URLs, the code's `set_index(...).to_dict()` takes the last row's score (`Records.UrlIndexLastWins`); the audit's equity for that case is not stated.
- Audit.AuditInternalLinks: column names are handled as follows.
  - Only the presence of the priority and score columns is modelled, as the schema set.
  - The values always come from the record's `tier` and `score`.
  - The `url_column` parameter is fixed to `url`. A `source`, `dest` or `anchor` key that no link has makes the column absent, and the code raises `KeyError`; this is not modelled. A link lacking `anchor` among links that have it gets NaN, which is the model's `None` case (not generic). A link lacking `dest` among others behaves like a link to no page; the model gives every link a destination string, so that case is not modelled separately.
- `pd.DataFrame(raw_links_list)` is empty exactly when the list is empty, so records with no keys at all are not modelled.
- Opportunities.RunPhase4Opportunities: `minPriority` is a set of tiers. A tuple holding values other than A/B/C simply selects nothing, because every importance is a tier.
- The embedding-based matcher, the commercial-intent rules, the anchor length floor and the language buckets are described for the tool but have no code in the modelled files. They are not part of this model.

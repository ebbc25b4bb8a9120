/** The in-memory records the link-analysis phases exchange: page metadata,
    existing internal links and blog posts, each data frame being a sequence
    of rows. */
module Records {

  datatype Option<T> = None | Some(value: T)

  datatype Result<T, E> = Ok(value: T) | Err(error: E)

  /** Page importance. The metadata loader rejects every other value. */
  datatype Tier = A | B | C

  /** Position of a tier's letter in alphabetical order, which is how a
      column holding "A", "B" and "C" sorts ascending. */
  function TierOrder(t: Tier): (n: int)
    ensures 0 <= n <= 2
    ensures t == A <==> n == 0
    ensures t == B <==> n == 1
  {
    match t
    case A => 0
    case B => 1
    case C => 2
  }

  /** One metadata row. `tier` is both the `importance` column and the
      `priority_tier` column copied from it; `score` is `priority_score`. */
  datatype Page = Page(url: string, title: string, h1: string, tier: Tier, score: int)

  /** One existing link. `anchor` is `None` for a cell that is not a string. */
  datatype Link = Link(source: string, dest: string, anchor: Option<string>)

  /** One blog post; `traffic` is `None` when the frame has no
      `non_branded_traffic` column. */
  datatype Blog = Blog(url: string, content: string, traffic: Option<int>)

  predicate UniqueUrls(pages: seq<Page>) {
    forall i, j :: 0 <= i < j < |pages| ==> pages[i].url != pages[j].url
  }

  function ScoreOf(p: Page): int { p.score }

  function TierOf(p: Page): Tier { p.tier }

  /** The last row of `pages` with URL `u`. */
  predicate LastWith(pages: seq<Page>, u: string, i: int) {
    0 <= i < |pages| && pages[i].url == u && forall j :: i < j < |pages| ==> pages[j].url != u
  }

  /** `frame.set_index("url")[column].to_dict()`: each URL of the frame is
      mapped to the column value of one of its rows (the last one, by
      UrlIndexLastWins). */
  function UrlIndex<V>(pages: seq<Page>, column: Page -> V): (m: map<string, V>)
    ensures forall u :: u in m <==> exists i :: 0 <= i < |pages| && pages[i].url == u
    ensures forall u :: u in m ==> exists i :: 0 <= i < |pages| && pages[i].url == u && m[u] == column(pages[i])
  {
    if pages == [] then map[]
    else
      var n := |pages| - 1;
      var m := UrlIndex(pages[..n], column);
      assert forall i :: 0 <= i < n ==> pages[..n][i] == pages[i];
      m[pages[n].url := column(pages[n])]
  }

  /** When a URL occurs more than once, the dictionary keeps the value of
      its last row. */
  lemma {:induction false} UrlIndexLastWins<V>(pages: seq<Page>, column: Page -> V, i: int)
    requires 0 <= i < |pages| && LastWith(pages, pages[i].url, i)
    ensures UrlIndex(pages, column)[pages[i].url] == column(pages[i])
  {
    var n := |pages| - 1;
    var prefix := pages[..n];
    if i < n {
      assert prefix[i] == pages[i];
      assert pages[n].url != pages[i].url;
      forall j | i < j < n
        ensures prefix[j].url != pages[i].url
      {
        assert prefix[j] == pages[j];
      }
      UrlIndexLastWins(prefix, column, i);
    }
  }

  /** With unique URLs, the index gives every page its own value. */
  lemma UrlIndexAt<V>(pages: seq<Page>, column: Page -> V, i: int)
    requires UniqueUrls(pages) && 0 <= i < |pages|
    ensures pages[i].url in UrlIndex(pages, column)
    ensures UrlIndex(pages, column)[pages[i].url] == column(pages[i])
  {
    UrlIndexLastWins(pages, column, i);
  }
}

/**
 * The CSV merge of `append_to_csv`, shared by `machine_learning/app/main.py`
 * (threshold 55) and `news_backend/app/main.py` (threshold 80): new
 * headlines that are fuzzily similar to an old title or an old description
 * are dropped, the survivors are appended after the prior rows, and rows with
 * a title seen before are removed, keeping the first.
 */
module CsvMerge {
  import opened Wrappers
  import opened Similarity

  /** One headline dictionary, and one row of the CSV file: `title, description, impact, source`. */
  datatype Headline = Headline(title: string, description: string, impact: int, source: string)

  /** The `title` column. */
  function Titles(rows: seq<Headline>): (ts: seq<string>)
    ensures |ts| == |rows|
    ensures forall i :: 0 <= i < |rows| ==> ts[i] == rows[i].title
  {
    seq(|rows|, i requires 0 <= i < |rows| => rows[i].title)
  }

  /** The `description` column. */
  function Descriptions(rows: seq<Headline>): (ds: seq<string>)
    ensures |ds| == |rows|
    ensures forall i :: 0 <= i < |rows| ==> ds[i] == rows[i].description
  {
    seq(|rows|, i requires 0 <= i < |rows| => rows[i].description)
  }

  /** A new row passes the fuzzy filter: its title is similar to no prior title and its description to no prior description. */
  predicate Novel(score: (string, string) -> Score, threshold: int, prior: seq<Headline>, h: Headline) {
    !AnyAbove(score, h.title, Titles(prior), threshold)
    && !AnyAbove(score, h.description, Descriptions(prior), threshold)
  }

  /** `filtered_new_data`: the new rows that pass the filter, in their order. */
  function Survivors(score: (string, string) -> Score, threshold: int, prior: seq<Headline>, news: seq<Headline>): seq<Headline>
    decreases |news|
  {
    if news == [] then []
    else
      var h := news[|news| - 1];
      Survivors(score, threshold, prior, news[..|news| - 1]) + (if Novel(score, threshold, prior, h) then [h] else [])
  }

  /** `drop_duplicates(subset='title', keep='first')`: a row is dropped when a kept row before it has its title. */
  function DedupByTitle(rows: seq<Headline>): seq<Headline>
    decreases |rows|
  {
    if rows == [] then []
    else
      var kept := DedupByTitle(rows[..|rows| - 1]);
      var h := rows[|rows| - 1];
      if h.title in Titles(kept) then kept else kept + [h]
  }

  /**
   * The position of the first row titled `t`, or `|rows|` when there is
   * none: the row `keep='first'` refers to.
   */
  function FirstWith(rows: seq<Headline>, t: string): (i: nat)
    ensures i <= |rows|
    ensures i < |rows| ==> rows[i].title == t
    ensures forall j :: 0 <= j < i ==> rows[j].title != t
    decreases |rows|
  {
    if rows == [] then 0
    else
      var f := FirstWith(rows[..|rows| - 1], t);
      if f < |rows| - 1 then f
      else if rows[|rows| - 1].title == t then |rows| - 1
      else |rows|
  }

  /**
   * The file content `append_to_csv` writes, given the rows of the file if
   * it exists (`None` when it does not): prior rows followed by the
   * survivors, deduplicated by title; without a file, the new rows
   * deduplicated by title.
   */
  function Merge(score: (string, string) -> Score, threshold: int, existing: Option<seq<Headline>>, news: seq<Headline>): seq<Headline> {
    match existing
    case None => DedupByTitle(news)
    case Some(prior) => DedupByTitle(prior + Survivors(score, threshold, prior, news))
  }

  /**
   * What `append_to_csv` leaves in the file: `None` for an empty headline
   * list, where `new_data['impact']` raises `KeyError` before anything is
   * written.
   */
  function AppendResult(score: (string, string) -> Score, threshold: int, existing: Option<seq<Headline>>, news: seq<Headline>): Option<seq<Headline>> {
    if news == [] then None else Some(Merge(score, threshold, existing, news))
  }

  // ---------------------------------------------------------------------
  // The fuzzy filter
  // ---------------------------------------------------------------------

  /** The filter keeps exactly the new rows that are novel against the prior rows. */
  lemma {:induction false} SurvivorsAreNovel(score: (string, string) -> Score, threshold: int, prior: seq<Headline>, news: seq<Headline>)
    ensures forall h :: h in Survivors(score, threshold, prior, news) <==> h in news && Novel(score, threshold, prior, h)
    decreases |news|
  {
    if news != [] {
      var init := news[..|news| - 1];
      SurvivorsAreNovel(score, threshold, prior, init);
      assert news == init + [news[|news| - 1]];
    }
  }

  /**
   * The new rows are never compared with each other: filtering a
   * concatenation filters each part on its own against the prior rows.
   */
  lemma {:induction false} SurvivorsConcat(score: (string, string) -> Score, threshold: int, prior: seq<Headline>, a: seq<Headline>, b: seq<Headline>)
    ensures Survivors(score, threshold, prior, a + b) == Survivors(score, threshold, prior, a) + Survivors(score, threshold, prior, b)
    decreases |b|
  {
    if b == [] {
      assert a + b == a;
    } else {
      var init := b[..|b| - 1];
      assert (a + b)[..|a + b| - 1] == a + init;
      SurvivorsConcat(score, threshold, prior, a, init);
    }
  }

  // ---------------------------------------------------------------------
  // Deduplication by title
  // ---------------------------------------------------------------------

  /** A title is kept exactly when some row has it. */
  lemma {:induction false} DedupSameTitles(rows: seq<Headline>)
    ensures forall t :: t in Titles(DedupByTitle(rows)) <==> t in Titles(rows)
    decreases |rows|
  {
    if rows != [] {
      var init := rows[..|rows| - 1];
      DedupSameTitles(init);
      assert Titles(rows) == Titles(init) + [rows[|rows| - 1].title];
      var kept := DedupByTitle(init);
      assert Titles(kept + [rows[|rows| - 1]]) == Titles(kept) + [rows[|rows| - 1].title];
    }
  }

  /** No two kept rows share a title. */
  lemma {:induction false} DedupDistinct(rows: seq<Headline>)
    ensures forall i, j :: 0 <= i < j < |DedupByTitle(rows)| ==> DedupByTitle(rows)[i].title != DedupByTitle(rows)[j].title
    decreases |rows|
  {
    if rows != [] {
      DedupDistinct(rows[..|rows| - 1]);
    }
  }

  /** Appending a row does not move the first row of a title that already occurs. */
  lemma FirstWithAppend(rows: seq<Headline>, h: Headline, t: string)
    requires t in Titles(rows)
    ensures FirstWith(rows + [h], t) == FirstWith(rows, t) < |rows|
  {
    assert (rows + [h])[..|rows|] == rows;
  }

  /** `keep='first'`: every kept row is the first row of the input with its title. */
  lemma {:induction false} DedupKeepsFirst(rows: seq<Headline>)
    ensures forall k :: 0 <= k < |DedupByTitle(rows)| ==>
      FirstWith(rows, DedupByTitle(rows)[k].title) < |rows|
      && DedupByTitle(rows)[k] == rows[FirstWith(rows, DedupByTitle(rows)[k].title)]
    decreases |rows|
  {
    if rows != [] {
      var init := rows[..|rows| - 1];
      var h := rows[|rows| - 1];
      var kept := DedupByTitle(init);
      assert rows == init + [h];
      DedupKeepsFirst(init);
      DedupSameTitles(init);
      forall k | 0 <= k < |kept|
        ensures FirstWith(rows, kept[k].title) == FirstWith(init, kept[k].title)
      {
        assert Titles(kept)[k] == kept[k].title;
        FirstWithAppend(init, h, kept[k].title);
      }
      if h.title !in Titles(kept) {
        assert FirstWith(init, h.title) == |init|;
      }
    }
  }

  /** The kept rows appear in the order of their first occurrences. */
  lemma {:induction false} DedupInOrder(rows: seq<Headline>)
    ensures forall k, l :: 0 <= k < l < |DedupByTitle(rows)| ==>
      FirstWith(rows, DedupByTitle(rows)[k].title) < FirstWith(rows, DedupByTitle(rows)[l].title)
    decreases |rows|
  {
    if rows != [] {
      var init := rows[..|rows| - 1];
      var h := rows[|rows| - 1];
      var kept := DedupByTitle(init);
      assert rows == init + [h];
      DedupInOrder(init);
      DedupSameTitles(init);
      forall k | 0 <= k < |kept|
        ensures FirstWith(rows, kept[k].title) == FirstWith(init, kept[k].title) < |init|
      {
        assert Titles(kept)[k] == kept[k].title;
        FirstWithAppend(init, h, kept[k].title);
      }
      if h.title !in Titles(kept) {
        assert FirstWith(init, h.title) == |init|;
      }
    }
  }

  /**
   * Deduplicating more rows only appends: the rows kept from `a` come
   * first, unchanged, and every row after them comes from `b` and has a
   * title no row of `a` has.
   */
  lemma {:induction false} DedupPrefix(a: seq<Headline>, b: seq<Headline>)
    ensures DedupByTitle(a) <= DedupByTitle(a + b)
    ensures forall k :: |DedupByTitle(a)| <= k < |DedupByTitle(a + b)| ==>
      DedupByTitle(a + b)[k] in b && DedupByTitle(a + b)[k].title !in Titles(a)
    decreases |b|
  {
    if b == [] {
      assert a + b == a;
    } else {
      var init := b[..|b| - 1];
      var h := b[|b| - 1];
      assert (a + b)[..|a + b| - 1] == a + init;
      DedupPrefix(a, init);
      var kept := DedupByTitle(a + init);
      if h.title !in Titles(kept) {
        DedupSameTitles(a + init);
        assert Titles(a + init) == Titles(a) + Titles(init);
      }
    }
  }

  // ---------------------------------------------------------------------
  // The merged file
  // ---------------------------------------------------------------------

  /** The written file never holds two rows with the same title. */
  lemma MergeDistinct(score: (string, string) -> Score, threshold: int, existing: Option<seq<Headline>>, news: seq<Headline>)
    ensures var out := Merge(score, threshold, existing, news);
      forall i, j :: 0 <= i < j < |out| ==> out[i].title != out[j].title
  {
    match existing
    case None => DedupDistinct(news);
    case Some(prior) => DedupDistinct(prior + Survivors(score, threshold, prior, news));
  }

  /**
   * With an existing file, the prior rows (deduplicated) come first in their
   * order, and every row after them is a new row that passed the filter and
   * whose title is not among the prior titles.
   */
  lemma MergeOldFirst(score: (string, string) -> Score, threshold: int, prior: seq<Headline>, news: seq<Headline>)
    ensures DedupByTitle(prior) <= Merge(score, threshold, Some(prior), news)
    ensures var out := Merge(score, threshold, Some(prior), news);
      forall k :: |DedupByTitle(prior)| <= k < |out| ==>
        out[k] in news && Novel(score, threshold, prior, out[k]) && out[k].title !in Titles(prior)
  {
    DedupPrefix(prior, Survivors(score, threshold, prior, news));
    SurvivorsAreNovel(score, threshold, prior, news);
  }

  /**
   * Every prior row that is the first row of the file with its title, in
   * particular every prior row whose title is unique in the file, is written
   * back unchanged.
   */
  lemma MergeKeepsOldRows(score: (string, string) -> Score, threshold: int, prior: seq<Headline>, news: seq<Headline>, i: nat)
    requires i < |prior|
    requires forall j :: 0 <= j < i ==> prior[j].title != prior[i].title
    ensures prior[i] in Merge(score, threshold, Some(prior), news)
  {
    DedupSameTitles(prior);
    assert prior[i].title in Titles(prior);
    var kept := DedupByTitle(prior);
    var k :| 0 <= k < |kept| && Titles(kept)[k] == prior[i].title;
    DedupKeepsFirst(prior);
    assert FirstWith(prior, prior[i].title) == i;
    MergeOldFirst(score, threshold, prior, news);
    assert Merge(score, threshold, Some(prior), news)[k] == kept[k];
  }

  /**
   * `append_to_csv`'s filtering loop: for each new row, in order, the title
   * is checked against the prior titles and, only when that finds nothing,
   * the description against the prior descriptions; rows that pass are
   * collected.
   */
  method FilterNew(score: (string, string) -> Score, threshold: int, prior: seq<Headline>, news: seq<Headline>)
    returns (filtered: seq<Headline>)
    ensures filtered == Survivors(score, threshold, prior, news)
  {
    var allTitles := Titles(prior);
    var allDescriptions := Descriptions(prior);
    filtered := [];
    for i := 0 to |news|
      invariant filtered == Survivors(score, threshold, prior, news[..i])
    {
      var row := news[i];
      assert news[..i + 1][..i] == news[..i];
      var titleSimilar, _ := IsSimilar(score, row.title, allTitles, threshold);
      if !titleSimilar {
        var descriptionSimilar, _ := IsSimilar(score, row.description, allDescriptions, threshold);
        if !descriptionSimilar {
          filtered := filtered + [row];
        }
      }
    }
    assert news[..|news|] == news;
  }

  /**
   * `append_to_csv(headlines, filepath)`: `existing` holds the rows of the
   * file when it exists. The result is the content written, `None` when the
   * call fails on an empty headline list.
   */
  method AppendToCsv(score: (string, string) -> Score, threshold: int, existing: Option<seq<Headline>>, headlines: seq<Headline>)
    returns (written: Option<seq<Headline>>)
    ensures written.Some? <==> headlines != []
    ensures written == AppendResult(score, threshold, existing, headlines)
  {
    if headlines == [] {
      return None;
    }
    match existing
    case Some(prior) =>
      var filtered := FilterNew(score, threshold, prior, headlines);
      written := Some(DedupByTitle(prior + filtered));
    case None =>
      written := Some(DedupByTitle(headlines));
  }
}

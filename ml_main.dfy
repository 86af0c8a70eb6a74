/**
 * The collection script `machine_learning/app/main.py`: every RSS item that
 * has a summary or a link becomes a headline with a sanitised title, the
 * page's meta description (or else the sanitised summary) as description,
 * and the classifier's impact for the title; impact-3 titles are announced
 * once each; the headlines are merged into the CSV file at fuzzy threshold
 * 55.
 */
module MlMain {
  import opened Wrappers
  import opened Text
  import opened Similarity
  import opened CsvMerge

  /** `is_similar`'s default threshold in this script. */
  const Threshold := 55

  /** The impact level that is announced. */
  const HighImpact := 3

  /** An RSS item as feedparser gives it; a missing key is `None`. */
  datatype Item = Item(title: Option<string>, summary: Option<string>, link: Option<string>)

  /** One entry of `rss_urls` with the items its feed returned. */
  datatype Feed = Feed(name: string, items: seq<Item>)

  /**
   * The foreign code the script calls: `html.unescape`; the `content` of
   * the page's `<meta name="description">` (`None` when the request fails,
   * the status is not 200 or the tag or attribute is missing); the
   * classifier on one title; fuzzywuzzy's `token_sort_ratio`.
   */
  datatype Services = Services(
    unescape: string -> string,
    fetchMeta: string -> Option<string>,
    classify: string -> int,
    score: (string, string) -> Score)

  /** `sanitize_text`: HTML entities decoded, then surrounding whitespace stripped. */
  function Sanitize(unescape: string -> string, text: string): (r: string)
    ensures r == [] || (!IsSpace(r[0]) && !IsSpace(r[|r| - 1]))
  {
    StripEnds(unescape(text));
    Strip(unescape(text))
  }

  /** `extract_meta_description` of the page at `link`, `None` when there is none. */
  function MetaDescription(svc: Services, link: string): Option<string> {
    match svc.fetchMeta(link)
    case None => None
    case Some(content) => Some(Sanitize(svc.unescape, content))
  }

  /** The description of an item: a non-empty meta description, else the sanitised summary, else `""`. */
  function Description(svc: Services, item: Item): string {
    var fromSummary := if item.summary.Some? then Sanitize(svc.unescape, item.summary.value) else "";
    var meta := if item.link.Some? then MetaDescription(svc, item.link.value) else None;
    if meta.Some? && meta.value != "" then meta.value else fromSummary
  }

  /** What one item contributes: nothing, a headline, or the `AttributeError` of a missing title that ends the run. */
  datatype Outcome = Skipped | Crashed | Emitted(headline: Headline)

  function ItemOutcome(svc: Services, name: string, item: Item): Outcome {
    if item.summary.None? && item.link.None? then Skipped
    else if item.title.None? then Crashed
    else
      var title := Sanitize(svc.unescape, item.title.value);
      Emitted(Headline(title, Description(svc, item), svc.classify(title), name))
  }

  /** The headlines of one feed's items in order, `None` if one of them crashes the run. */
  function FeedHeadlines(svc: Services, name: string, items: seq<Item>): Option<seq<Headline>>
    decreases |items|
  {
    if items == [] then Some([])
    else
      match FeedHeadlines(svc, name, items[..|items| - 1])
      case None => None
      case Some(hs) =>
        match ItemOutcome(svc, name, items[|items| - 1])
        case Skipped => Some(hs)
        case Crashed => None
        case Emitted(h) => Some(hs + [h])
  }

  /** `all_headlines` after the feeds in order, `None` if the run crashes. */
  function Collect(svc: Services, feeds: seq<Feed>): Option<seq<Headline>>
    decreases |feeds|
  {
    if feeds == [] then Some([])
    else
      match Collect(svc, feeds[..|feeds| - 1])
      case None => None
      case Some(hs) =>
        match FeedHeadlines(svc, feeds[|feeds| - 1].name, feeds[|feeds| - 1].items)
        case None => None
        case Some(more) => Some(hs + more)
  }

  /** The titles announced as high impact, in order: an impact-3 title the first time it is seen. */
  function Announced(hs: seq<Headline>): seq<string>
    decreases |hs|
  {
    if hs == [] then []
    else
      var earlier := Announced(hs[..|hs| - 1]);
      var h := hs[|hs| - 1];
      if h.impact == HighImpact && h.title !in earlier then earlier + [h.title] else earlier
  }

  /** The file the run leaves: `None` when it crashes or has no headline to append. */
  function RunResult(svc: Services, feeds: seq<Feed>, existing: Option<seq<Headline>>): Option<seq<Headline>> {
    match Collect(svc, feeds)
    case None => None
    case Some(hs) => AppendResult(svc.score, Threshold, existing, hs)
  }

  // ---------------------------------------------------------------------
  // Properties
  // ---------------------------------------------------------------------

  /**
   * An item yields a headline exactly when it has a summary or a link and
   * a title; the headline carries the feed's name, the classifier's impact
   * for its title, and a non-empty meta description when there is one,
   * else the sanitised summary, else `""`.
   */
  lemma ItemOutcomeFields(svc: Services, name: string, item: Item)
    ensures ItemOutcome(svc, name, item) == Skipped <==> item.summary.None? && item.link.None?
    ensures ItemOutcome(svc, name, item) == Crashed <==> (item.summary.Some? || item.link.Some?) && item.title.None?
    ensures ItemOutcome(svc, name, item).Emitted? ==>
      var h := ItemOutcome(svc, name, item).headline;
      var meta := if item.link.Some? then MetaDescription(svc, item.link.value) else None;
      h.source == name
      && item.title.Some? && h.title == Sanitize(svc.unescape, item.title.value)
      && h.impact == svc.classify(h.title)
      && (meta.Some? && meta.value != "" ==> h.description == meta.value)
      && (!(meta.Some? && meta.value != "") && item.summary.Some? ==> h.description == Sanitize(svc.unescape, item.summary.value))
      && (!(meta.Some? && meta.value != "") && item.summary.None? ==> h.description == "")
  {
  }

  /** Every headline and every description is free of surrounding whitespace. */
  lemma HeadlineStripped(svc: Services, name: string, item: Item)
    requires ItemOutcome(svc, name, item).Emitted?
    ensures var h := ItemOutcome(svc, name, item).headline;
      (h.title == [] || (!IsSpace(h.title[0]) && !IsSpace(h.title[|h.title| - 1])))
      && (h.description == [] || (!IsSpace(h.description[0]) && !IsSpace(h.description[|h.description| - 1])))
  {
    if item.summary.Some? {
      var _ := Sanitize(svc.unescape, item.summary.value);
    }
    if item.link.Some? && svc.fetchMeta(item.link.value).Some? {
      var _ := Sanitize(svc.unescape, svc.fetchMeta(item.link.value).value);
    }
  }

  /**
   * A feed's headlines are the outcomes of its emitting items, each with
   * the feed's name as source; the feed crashes the run exactly when one
   * of its items does.
   */
  lemma {:induction false} FeedHeadlinesFromItems(svc: Services, name: string, items: seq<Item>)
    ensures FeedHeadlines(svc, name, items).None? <==> exists i :: 0 <= i < |items| && ItemOutcome(svc, name, items[i]) == Crashed
    ensures FeedHeadlines(svc, name, items).Some? ==>
      forall h :: h in FeedHeadlines(svc, name, items).value ==>
        h.source == name && exists i :: 0 <= i < |items| && ItemOutcome(svc, name, items[i]) == Emitted(h)
    ensures FeedHeadlines(svc, name, items).Some? ==> |FeedHeadlines(svc, name, items).value| <= |items|
    decreases |items|
  {
    if items != [] {
      var init := items[..|items| - 1];
      FeedHeadlinesFromItems(svc, name, init);
      assert forall i :: 0 <= i < |init| ==> init[i] == items[i];
    }
  }

  /**
   * The announcements name each title at most once, and name exactly the
   * titles of the impact-3 headlines.
   */
  lemma {:induction false} AnnouncedOnce(hs: seq<Headline>)
    ensures forall i, j :: 0 <= i < j < |Announced(hs)| ==> Announced(hs)[i] != Announced(hs)[j]
    ensures forall t :: t in Announced(hs) <==> exists k :: 0 <= k < |hs| && hs[k].impact == HighImpact && hs[k].title == t
    decreases |hs|
  {
    if hs != [] {
      var init := hs[..|hs| - 1];
      AnnouncedOnce(init);
      assert forall k :: 0 <= k < |init| ==> init[k] == hs[k];
    }
  }

  // ---------------------------------------------------------------------
  // The script
  // ---------------------------------------------------------------------

  /**
   * The loop of `main` over the feeds and their items: appends to
   * `all_headlines`, and announces an impact-3 title the first time
   * (`logged_titles`). `ok` is false when an item without a title stops
   * the run.
   */
  method CollectHeadlines(svc: Services, feeds: seq<Feed>)
    returns (ok: bool, headlines: seq<Headline>, announced: seq<string>)
    ensures ok <==> Collect(svc, feeds).Some?
    ensures ok ==> headlines == Collect(svc, feeds).value && announced == Announced(headlines)
  {
    headlines := [];
    announced := [];
    var logged: set<string> := {};
    for f := 0 to |feeds|
      invariant Collect(svc, feeds[..f]) == Some(headlines)
      invariant announced == Announced(headlines)
      invariant logged == set t | t in announced
    {
      var name := feeds[f].name;
      var items := feeds[f].items;
      ghost var before := headlines;
      for i := 0 to |items|
        invariant FeedHeadlines(svc, name, items[..i]).Some?
        invariant headlines == before + FeedHeadlines(svc, name, items[..i]).value
        invariant announced == Announced(headlines)
        invariant logged == set t | t in announced
      {
        var item := items[i];
        assert items[..i + 1][..i] == items[..i];
        var outcome := ProcessItem(svc, name, item);
        match outcome
        case Skipped =>
        case Crashed =>
          ok := false;
          CrashPropagates(svc, feeds, f, i);
          return;
        case Emitted(h) =>
          if h.impact == HighImpact && h.title !in logged {
            announced := announced + [h.title];
            logged := logged + {h.title};
          }
          assert (headlines + [h])[..|headlines|] == headlines;
          headlines := headlines + [h];
      }
      assert items[..|items|] == items;
      assert feeds[..f + 1][..f] == feeds[..f];
    }
    assert feeds[..|feeds|] == feeds;
    ok := true;
  }

  /**
   * The body of `main`'s item loop up to the append: the title is
   * sanitised first, then the summary, then the meta description of the
   * linked page is preferred when it is non-empty, and the classifier
   * rates the title.
   */
  method ProcessItem(svc: Services, name: string, item: Item) returns (outcome: Outcome)
    ensures outcome == ItemOutcome(svc, name, item)
  {
    if !(item.summary.Some? || item.link.Some?) {
      return Skipped;
    }
    if item.title.None? {
      return Crashed;
    }
    var title := Sanitize(svc.unescape, item.title.value);
    var description := if item.summary.Some? then Sanitize(svc.unescape, item.summary.value) else "";
    var metaDescription: Option<string> := None;
    if item.link.Some? {
      metaDescription := MetaDescription(svc, item.link.value);
    }
    if metaDescription.Some? && metaDescription.value != "" {
      description := metaDescription.value;
    }
    var impact := svc.classify(title);
    outcome := Emitted(Headline(title, description, impact, name));
  }

  /** An item that crashes makes its feed, and so the whole run, crash. */
  lemma CrashPropagates(svc: Services, feeds: seq<Feed>, f: nat, i: nat)
    requires f < |feeds| && i < |feeds[f].items|
    requires Collect(svc, feeds[..f]).Some?
    requires FeedHeadlines(svc, feeds[f].name, feeds[f].items[..i]).Some?
    requires ItemOutcome(svc, feeds[f].name, feeds[f].items[i]) == Crashed
    ensures Collect(svc, feeds) == None
  {
    var items := feeds[f].items;
    FeedHeadlinesFromItems(svc, feeds[f].name, items);
    assert items[i] == items[i];
    CollectCrashes(svc, feeds, f);
  }

  /** Once a feed crashes, so does every longer run. */
  lemma {:induction false} CollectCrashes(svc: Services, feeds: seq<Feed>, f: nat)
    requires f < |feeds|
    requires FeedHeadlines(svc, feeds[f].name, feeds[f].items) == None
    ensures Collect(svc, feeds) == None
    decreases |feeds|
  {
    if f < |feeds| - 1 {
      var init := feeds[..|feeds| - 1];
      assert init[f] == feeds[f];
      CollectCrashes(svc, init, f);
    }
  }

  /**
   * `main`: collects the headlines and appends them to the CSV file, whose
   * rows are `existing` when it exists. The result is the file written,
   * `None` when the run crashes, and the titles announced as high impact.
   */
  method Run(svc: Services, feeds: seq<Feed>, existing: Option<seq<Headline>>)
    returns (written: Option<seq<Headline>>, announced: seq<string>)
    ensures written == RunResult(svc, feeds, existing)
    ensures Collect(svc, feeds).Some? ==> announced == Announced(Collect(svc, feeds).value)
  {
    var ok, headlines;
    ok, headlines, announced := CollectHeadlines(svc, feeds);
    if !ok {
      return None, announced;
    }
    written := AppendToCsv(svc.score, Threshold, existing, headlines);
  }
}

/**
 * The collection script `news_backend/app/main.py`: every RSS entry that
 * has a summary has its title and summary HTML-unescaped in place and
 * becomes a headline whose impact the classifier computes from the
 * unescaped summary; the headlines are merged into the CSV file at fuzzy
 * threshold 80.
 */
module BackendMain {
  import opened Wrappers
  import opened Similarity
  import opened CsvMerge

  /** `is_similar`'s default threshold in this script. */
  const Threshold := 80

  /** An RSS entry as feedparser gives it; a missing key is `None`. */
  datatype Entry = Entry(title: Option<string>, summary: Option<string>)

  /** One entry of `rss_urls` with the entries its feed returned. */
  datatype Feed = Feed(name: string, entries: seq<Entry>)

  /** The foreign code the script calls: `html.unescape`, the classifier on one text, fuzzywuzzy's `token_sort_ratio`. */
  datatype Services = Services(
    unescape: string -> string,
    classify: string -> int,
    score: (string, string) -> Score)

  /** Reading `item.title` on an entry with a summary but no title raises `AttributeError` and ends the run. */
  predicate Crashes(e: Entry) {
    e.summary.Some? && e.title.None?
  }

  /** The entry after the loop has visited it: title and summary unescaped when it has a summary. */
  function Refreshed(unescape: string -> string, e: Entry): Entry {
    if e.summary.Some? && e.title.Some? then Entry(Some(unescape(e.title.value)), Some(unescape(e.summary.value)))
    else e
  }

  /** The entries that have a summary, in order. */
  function WithSummary(entries: seq<Entry>): (r: seq<Entry>)
    ensures |r| <= |entries|
    ensures forall e :: e in r <==> e in entries && e.summary.Some?
    decreases |entries|
  {
    if entries == [] then []
    else
      var e := entries[|entries| - 1];
      WithSummary(entries[..|entries| - 1]) + (if e.summary.Some? then [e] else [])
  }

  /** The headlines of one feed's entries in order, `None` if one of them crashes the run. */
  function FeedHeadlines(svc: Services, name: string, entries: seq<Entry>): Option<seq<Headline>>
    decreases |entries|
  {
    if entries == [] then Some([])
    else
      var e := entries[|entries| - 1];
      match FeedHeadlines(svc, name, entries[..|entries| - 1])
      case None => None
      case Some(hs) =>
        if e.summary.None? then Some(hs)
        else if e.title.None? then None
        else
          var summary := svc.unescape(e.summary.value);
          Some(hs + [Headline(svc.unescape(e.title.value), summary, svc.classify(summary), name)])
  }

  /** `all_headlines` after the feeds in order, `None` if the run crashes. */
  function Collect(svc: Services, feeds: seq<Feed>): Option<seq<Headline>>
    decreases |feeds|
  {
    if feeds == [] then Some([])
    else
      match Collect(svc, feeds[..|feeds| - 1])
      case None => None
      case Some(hs) =>
        match FeedHeadlines(svc, feeds[|feeds| - 1].name, feeds[|feeds| - 1].entries)
        case None => None
        case Some(more) => Some(hs + more)
  }

  /** The file the run leaves: `None` when it crashes or has no headline to append. */
  function RunResult(svc: Services, feeds: seq<Feed>, existing: Option<seq<Headline>>): Option<seq<Headline>> {
    match Collect(svc, feeds)
    case None => None
    case Some(hs) => AppendResult(svc.score, Threshold, existing, hs)
  }

  // ---------------------------------------------------------------------
  // Properties
  // ---------------------------------------------------------------------

  /**
   * A feed crashes exactly when one of its entries has a summary and no
   * title. Otherwise it yields exactly one headline per entry with a
   * summary, in order: title and description are that entry's fields after
   * unescaping, the impact is the classifier's on the unescaped summary
   * (not the title), and the source is the feed's name.
   */
  lemma {:induction false} FeedHeadlinesSpec(svc: Services, name: string, entries: seq<Entry>)
    ensures FeedHeadlines(svc, name, entries).None? <==> exists i :: 0 <= i < |entries| && Crashes(entries[i])
    ensures FeedHeadlines(svc, name, entries).Some? ==>
      var hs := FeedHeadlines(svc, name, entries).value;
      var kept := WithSummary(entries);
      |hs| == |kept|
      && forall k :: 0 <= k < |hs| ==>
        var e := Refreshed(svc.unescape, kept[k]);
        e.title.Some? && e.summary.Some?
        && hs[k].title == e.title.value && hs[k].description == e.summary.value
        && hs[k].impact == svc.classify(hs[k].description) && hs[k].source == name
    decreases |entries|
  {
    if entries != [] {
      var init := entries[..|entries| - 1];
      FeedHeadlinesSpec(svc, name, init);
      assert forall i :: 0 <= i < |init| ==> init[i] == entries[i];
    }
  }

  /** Once a feed crashes, so does the whole run. */
  lemma {:induction false} CollectCrashes(svc: Services, feeds: seq<Feed>, f: nat)
    requires f < |feeds|
    requires FeedHeadlines(svc, feeds[f].name, feeds[f].entries) == None
    ensures Collect(svc, feeds) == None
    decreases |feeds|
  {
    if f < |feeds| - 1 {
      var init := feeds[..|feeds| - 1];
      assert init[f] == feeds[f];
      CollectCrashes(svc, init, f);
    }
  }

  // ---------------------------------------------------------------------
  // The script
  // ---------------------------------------------------------------------

  /**
   * `main`'s loop over one feed's entries: an entry with a summary has
   * `item.title` and then `item.summary` replaced by their unescaped text,
   * is classified on its new summary and appended as a headline. `ok` is
   * false when an entry without a title stops the run; the entries before
   * it are then already rewritten.
   */
  method ProcessFeed(svc: Services, name: string, entries: array<Entry>) returns (ok: bool, headlines: seq<Headline>)
    modifies entries
    ensures ok <==> FeedHeadlines(svc, name, old(entries[..])).Some?
    ensures ok ==> headlines == FeedHeadlines(svc, name, old(entries[..])).value
    ensures ok ==> forall i :: 0 <= i < entries.Length ==> entries[i] == Refreshed(svc.unescape, old(entries[i]))
    ensures !ok ==> exists c :: (0 <= c < entries.Length && Crashes(old(entries[c]))
      && (forall i :: 0 <= i < c ==> !Crashes(old(entries[i])))
      && (forall i :: 0 <= i < c ==> entries[i] == Refreshed(svc.unescape, old(entries[i])))
      && (forall i :: c <= i < entries.Length ==> entries[i] == old(entries[i])))
  {
    ghost var original := entries[..];
    headlines := [];
    for i := 0 to entries.Length
      invariant FeedHeadlines(svc, name, original[..i]) == Some(headlines)
      invariant forall k :: 0 <= k < i ==> !Crashes(original[k])
      invariant forall k :: 0 <= k < i ==> entries[k] == Refreshed(svc.unescape, original[k])
      invariant forall k :: i <= k < entries.Length ==> entries[k] == original[k]
    {
      assert original[..i + 1][..i] == original[..i];
      if entries[i].summary.Some? {
        if entries[i].title.None? {
          FeedHeadlinesSpec(svc, name, original);
          assert Crashes(original[i]);
          return false, headlines;
        }
        entries[i] := entries[i].(title := Some(svc.unescape(entries[i].title.value)));
        entries[i] := entries[i].(summary := Some(svc.unescape(entries[i].summary.value)));
        var impact := svc.classify(entries[i].summary.value);
        headlines := headlines + [Headline(entries[i].title.value, entries[i].summary.value, impact, name)];
      }
    }
    assert original[..entries.Length] == original;
    ok := true;
  }

  /**
   * `main`: fetches each feed (a fresh list of entries), processes it and
   * appends all headlines to the CSV file, whose rows are `existing` when
   * it exists. The result is the file written, `None` when the run
   * crashes.
   */
  method Run(svc: Services, feeds: seq<Feed>, existing: Option<seq<Headline>>) returns (written: Option<seq<Headline>>)
    ensures written == RunResult(svc, feeds, existing)
  {
    var all: seq<Headline> := [];
    for f := 0 to |feeds|
      invariant Collect(svc, feeds[..f]) == Some(all)
    {
      assert feeds[..f + 1][..f] == feeds[..f];
      var source := feeds[f].entries;
      var entries := new Entry[|source|](i requires 0 <= i < |source| => source[i]);
      assert entries[..] == source;
      var ok, headlines := ProcessFeed(svc, feeds[f].name, entries);
      if !ok {
        CollectCrashes(svc, feeds, f);
        return None;
      }
      all := all + headlines;
    }
    assert feeds[..|feeds|] == feeds;
    written := AppendToCsv(svc.score, Threshold, existing, all);
  }
}

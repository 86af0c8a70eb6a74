/**
 * The dataset builder `machine_learning/app/fetch_dataset.py`: feeds are
 * fetched with their titles and summaries HTML-unescaped in place; each
 * title is repaired by a fixed table of mojibake replacements and kept only
 * if it is neither already seen nor, case-insensitively, fuzzily similar to
 * a seen title; every kept article has impact 0.
 */
module FetchDataset {
  import opened Wrappers
  import opened Text
  import opened Similarity
  import opened CsvMerge

  /** `is_similar`'s fixed threshold. */
  const Threshold := 80

  /** The description of an entry without a summary. */
  const NoDescription := "no description"

  /** An RSS entry as feedparser gives it; a missing key is `None`. */
  datatype Entry = Entry(title: Option<string>, summary: Option<string>)

  /** One entry of `rss_urls` with the entries its feed returned. */
  datatype Feed = Feed(source: string, entries: seq<Entry>)

  /** The foreign code the script calls: `html.unescape`, `str.lower` and fuzzywuzzy's `ratio`. */
  datatype Services = Services(
    unescape: string -> string,
    lower: string -> string,
    ratio: (string, string) -> Score)

  // ---------------------------------------------------------------------
  // sanitize_text
  // ---------------------------------------------------------------------

  /**
   * `replacements`, in its order: UTF-8 punctuation that was decoded as
   * Windows-1252 (`â€™`, `â€œ`, `â€”`, `â€¦`, `â€˜`, `â€¢`), each with the
   * character the script puts back.
   */
  const Replacements: seq<(string, string)> := [
    ("\U{00E2}\U{20AC}\U{2122}", "'"),
    ("\U{00E2}\U{20AC}\U{0153}", "\""),
    ("\U{00E2}\U{20AC}\U{201D}", "\U{2014}"),
    ("\U{00E2}\U{20AC}\U{00A6}", "\U{2026}"),
    ("\U{00E2}\U{20AC}\U{02DC}", "`"),
    ("\U{00E2}\U{20AC}\U{00A2}", "\U{2022}")
  ]

  /** Every key and every value is non-empty, and no value shares a character with any key. */
  predicate Sound(table: seq<(string, string)>) {
    forall i :: 0 <= i < |table| ==>
      |table[i].0| > 0 && |table[i].1| > 0 && forall j :: 0 <= j < |table| ==> Avoids(table[i].1, table[j].0)
  }

  /** The replacements of `table` applied one after the other to `text`, each to all occurrences. */
  function ApplyAll(table: seq<(string, string)>, text: string): string
    requires forall i :: 0 <= i < |table| ==> |table[i].0| > 0
    decreases |table|
  {
    if table == [] then text
    else ApplyAll(table[1..], ReplaceAll(text, table[0].0, table[0].1))
  }

  lemma ReplacementsSound()
    ensures Sound(Replacements)
  {
    forall i, j | 0 <= i < |Replacements| && 0 <= j < |Replacements|
      ensures Avoids(Replacements[i].1, Replacements[j].0)
    {
      assert |Replacements[i].1| == 1;
      assert Replacements[i].1[0] !in Replacements[j].0;
    }
  }

  /** `sanitize_text(text)`. */
  function Sanitize(text: string): string {
    ReplacementsSound();
    ApplyAll(Replacements, text)
  }

  /** A text that contains no key of the table is left as it is. */
  lemma {:induction false} ApplyAllUnchanged(table: seq<(string, string)>, text: string)
    requires forall i :: 0 <= i < |table| ==> |table[i].0| > 0
    requires forall i :: 0 <= i < |table| ==> !Occurs(text, table[i].0)
    ensures ApplyAll(table, text) == text
    decreases |table|
  {
    if table != [] {
      assert ReplaceAll(text, table[0].0, table[0].1) == text;
      ApplyAllUnchanged(table[1..], text);
    }
  }

  /** Replacements whose values avoid `w` never create an occurrence of `w`. */
  lemma {:induction false} ApplyAllKeepsAbsent(table: seq<(string, string)>, text: string, w: string)
    requires forall i :: 0 <= i < |table| ==> |table[i].0| > 0 && |table[i].1| > 0 && Avoids(table[i].1, w)
    requires |w| > 0 && !Occurs(text, w)
    ensures !Occurs(ApplyAll(table, text), w)
    decreases |table|
  {
    if table != [] {
      ReplaceCreatesNothing(text, table[0].0, table[0].1, w);
      ApplyAllKeepsAbsent(table[1..], ReplaceAll(text, table[0].0, table[0].1), w);
    }
  }

  /** After a sound table has been applied, none of its keys is left. */
  lemma {:induction false} ApplyAllRemovesKeys(table: seq<(string, string)>, text: string)
    requires Sound(table)
    ensures forall k :: 0 <= k < |table| ==> !Occurs(ApplyAll(table, text), table[k].0)
    decreases |table|
  {
    if table != [] {
      var t := ReplaceAll(text, table[0].0, table[0].1);
      ApplyAllRemovesKeys(table[1..], t);
      ReplaceRemovesKey(text, table[0].0, table[0].1);
      ApplyAllKeepsAbsent(table[1..], t, table[0].0);
      forall k | 1 <= k < |table|
        ensures !Occurs(ApplyAll(table, text), table[k].0)
      {
        assert table[k] == table[1..][k - 1];
      }
    }
  }

  /** `sanitize_text` returns a text without any of the six keys unchanged. */
  lemma SanitizeUnchanged(text: string)
    requires forall k :: 0 <= k < |Replacements| ==> !Occurs(text, Replacements[k].0)
    ensures Sanitize(text) == text
  {
    ApplyAllUnchanged(Replacements, text);
  }

  /** No key is left after `sanitize_text`. */
  lemma SanitizeRemovesKeys(text: string)
    ensures forall k :: 0 <= k < |Replacements| ==> !Occurs(Sanitize(text), Replacements[k].0)
  {
    ReplacementsSound();
    ApplyAllRemovesKeys(Replacements, text);
  }

  /** `sanitize_text` is idempotent. */
  lemma SanitizeIdempotent(text: string)
    ensures Sanitize(Sanitize(text)) == Sanitize(text)
  {
    SanitizeRemovesKeys(text);
    SanitizeUnchanged(Sanitize(text));
  }

  /** `sanitize_text`'s loop over the table: `text = text.replace(wrong, correct)` for each pair in order. */
  method SanitizeText(text: string) returns (r: string)
    ensures r == Sanitize(text)
  {
    ReplacementsSound();
    r := text;
    for i := 0 to |Replacements|
      invariant ApplyAll(Replacements[i..], r) == Sanitize(text)
    {
      var (wrong, correct) := Replacements[i];
      assert Replacements[i..][1..] == Replacements[i + 1..];
      r := ReplaceAll(r, wrong, correct);
    }
  }

  // ---------------------------------------------------------------------
  // fetch_rss and is_similar
  // ---------------------------------------------------------------------

  /** An entry after `fetch_rss`: its summary, then its title, unescaped where present. */
  function Unescaped(unescape: string -> string, e: Entry): Entry {
    Entry(
      if e.title.Some? then Some(unescape(e.title.value)) else None,
      if e.summary.Some? then Some(unescape(e.summary.value)) else None)
  }

  /** The entries of a feed as `fetch_rss` returns them. */
  function Fetched(unescape: string -> string, entries: seq<Entry>): (r: seq<Entry>)
    ensures |r| == |entries|
    ensures forall i :: 0 <= i < |entries| ==> r[i] == Unescaped(unescape, entries[i])
  {
    seq(|entries|, i requires 0 <= i < |entries| => Unescaped(unescape, entries[i]))
  }

  /** `fetch_rss`' loop over the parsed entries, rewriting each in place. */
  method FetchRss(unescape: string -> string, entries: array<Entry>)
    modifies entries
    ensures forall i :: 0 <= i < entries.Length ==> entries[i] == Unescaped(unescape, old(entries[i]))
  {
    for i := 0 to entries.Length
      invariant forall k :: 0 <= k < i ==> entries[k] == Unescaped(unescape, old(entries[k]))
      invariant forall k :: i <= k < entries.Length ==> entries[k] == old(entries[k])
    {
      if entries[i].summary.Some? {
        entries[i] := entries[i].(summary := Some(unescape(entries[i].summary.value)));
      }
      if entries[i].title.Some? {
        entries[i] := entries[i].(title := Some(unescape(entries[i].title.value)));
      }
    }
  }

  /** `fuzz.ratio` on the lower-cased forms of both strings. */
  function LoweredRatio(svc: Services): (string, string) -> Score {
    (a: string, b: string) => svc.ratio(svc.lower(a), svc.lower(b))
  }

  /** `is_similar(title, existing_titles)`: the first hit in order ends the scan. */
  method IsSimilar(svc: Services, title: string, existing: seq<string>) returns (similar: bool)
    ensures similar <==> exists i :: 0 <= i < |existing| && svc.ratio(svc.lower(title), svc.lower(existing[i])) > Threshold
  {
    var scanned;
    similar, scanned := Similarity.IsSimilar(LoweredRatio(svc), title, existing, Threshold);
  }

  /** The verdict depends only on the lower-cased forms: titles that lower-case alike get the same answer. */
  lemma SimilarityIgnoresCase(svc: Services, t1: string, t2: string, e1: seq<string>, e2: seq<string>)
    requires svc.lower(t1) == svc.lower(t2)
    requires |e1| == |e2| && forall i :: 0 <= i < |e1| ==> svc.lower(e1[i]) == svc.lower(e2[i])
    ensures AnyAbove(LoweredRatio(svc), t1, e1, Threshold) <==> AnyAbove(LoweredRatio(svc), t2, e2, Threshold)
  {
    if AnyAbove(LoweredRatio(svc), t1, e1, Threshold) {
      var i :| 0 <= i < |e1| && LoweredRatio(svc)(t1, e1[i]) > Threshold;
      assert LoweredRatio(svc)(t2, e2[i]) > Threshold;
    }
    if AnyAbove(LoweredRatio(svc), t2, e2, Threshold) {
      var i :| 0 <= i < |e2| && LoweredRatio(svc)(t2, e2[i]) > Threshold;
      assert LoweredRatio(svc)(t1, e1[i]) > Threshold;
    }
  }

  // ---------------------------------------------------------------------
  // main
  // ---------------------------------------------------------------------

  /**
   * One fetched entry of feed `source` against the articles so far: a
   * missing title ends the run (`None`); a repaired title that is already
   * seen or similar to a seen title is skipped; otherwise an article with
   * impact 0 is added, described by its repaired summary or
   * `'no description'`.
   */
  function Admit(svc: Services, articles: seq<Headline>, source: string, e: Entry): Option<seq<Headline>> {
    if e.title.None? then None
    else
      var title := Sanitize(e.title.value);
      if title in Titles(articles) || AnyAbove(LoweredRatio(svc), title, Titles(articles), Threshold) then Some(articles)
      else
        var description := if e.summary.Some? then Sanitize(e.summary.value) else NoDescription;
        Some(articles + [Headline(title, description, 0, source)])
  }

  /** The articles after the fetched entries of one feed, `None` if the run crashes. */
  function Gather(svc: Services, articles: seq<Headline>, source: string, entries: seq<Entry>): Option<seq<Headline>>
    decreases |entries|
  {
    if entries == [] then Some(articles)
    else
      match Gather(svc, articles, source, entries[..|entries| - 1])
      case None => None
      case Some(sofar) => Admit(svc, sofar, source, entries[|entries| - 1])
  }

  /** `articles` after the feeds in order, `None` if the run crashes. */
  function Collect(svc: Services, feeds: seq<Feed>): Option<seq<Headline>>
    decreases |feeds|
  {
    if feeds == [] then Some([])
    else
      match Collect(svc, feeds[..|feeds| - 1])
      case None => None
      case Some(sofar) =>
        var feed := feeds[|feeds| - 1];
        Gather(svc, sofar, feed.source, Fetched(svc.unescape, feed.entries))
  }

  /**
   * The invariant of `articles`: no title twice, no title similar to an
   * earlier one, and impact 0 throughout.
   */
  predicate Curated(svc: Services, articles: seq<Headline>) {
    (forall i, j :: 0 <= i < j < |articles| ==> articles[i].title != articles[j].title)
    && (forall i, j :: 0 <= i < j < |articles| ==> svc.ratio(svc.lower(articles[j].title), svc.lower(articles[i].title)) <= Threshold)
    && (forall i :: 0 <= i < |articles| ==> articles[i].impact == 0)
  }

  /**
   * An entry with a title adds an article exactly when its repaired title
   * is neither seen nor similar to a seen title; the article has that
   * title, impact 0, the feed's name as source, and the repaired summary
   * or `'no description'` as description.
   */
  lemma AdmitSpec(svc: Services, articles: seq<Headline>, source: string, e: Entry)
    ensures Admit(svc, articles, source, e).None? <==> e.title.None?
    ensures e.title.Some? ==>
      var title := Sanitize(e.title.value);
      var novel := title !in Titles(articles)
        && forall i :: 0 <= i < |articles| ==> svc.ratio(svc.lower(title), svc.lower(articles[i].title)) <= Threshold;
      (novel ==> Admit(svc, articles, source, e) == Some(articles + [Headline(title,
        if e.summary.Some? then Sanitize(e.summary.value) else NoDescription, 0, source)]))
      && (!novel ==> Admit(svc, articles, source, e) == Some(articles))
  {
    if e.title.Some? {
      var title := Sanitize(e.title.value);
      if AnyAbove(LoweredRatio(svc), title, Titles(articles), Threshold) {
        var i :| 0 <= i < |Titles(articles)| && LoweredRatio(svc)(title, Titles(articles)[i]) > Threshold;
        assert svc.ratio(svc.lower(title), svc.lower(articles[i].title)) > Threshold;
      }
    }
  }

  /** Admitting an entry keeps the invariant and only appends. */
  lemma AdmitCurated(svc: Services, articles: seq<Headline>, source: string, e: Entry)
    requires Curated(svc, articles)
    requires Admit(svc, articles, source, e).Some?
    ensures Curated(svc, Admit(svc, articles, source, e).value)
    ensures articles <= Admit(svc, articles, source, e).value
  {
    AdmitSpec(svc, articles, source, e);
    var r := Admit(svc, articles, source, e).value;
    if r != articles {
      var h := r[|articles|];
      assert r == articles + [h];
      assert h.title !in Titles(articles) && h.impact == 0;
      assert forall i :: 0 <= i < |articles| ==> svc.ratio(svc.lower(h.title), svc.lower(articles[i].title)) <= Threshold;
      assert forall i :: 0 <= i < |articles| ==> articles[i].title != h.title by {
        forall i | 0 <= i < |articles| ensures articles[i].title != h.title {
          assert Titles(articles)[i] == articles[i].title;
        }
      }
    }
  }

  /** A feed's entries keep the invariant and only append. */
  lemma {:induction false} GatherCurated(svc: Services, articles: seq<Headline>, source: string, entries: seq<Entry>)
    requires Curated(svc, articles)
    requires Gather(svc, articles, source, entries).Some?
    ensures Curated(svc, Gather(svc, articles, source, entries).value)
    ensures articles <= Gather(svc, articles, source, entries).value
    decreases |entries|
  {
    if entries != [] {
      var init := entries[..|entries| - 1];
      GatherCurated(svc, articles, source, init);
      AdmitCurated(svc, Gather(svc, articles, source, init).value, source, entries[|entries| - 1]);
    }
  }

  /** The articles of a run never repeat a title, no title is similar to an earlier one, and all have impact 0. */
  lemma {:induction false} CollectCurated(svc: Services, feeds: seq<Feed>)
    requires Collect(svc, feeds).Some?
    ensures Curated(svc, Collect(svc, feeds).value)
    decreases |feeds|
  {
    if feeds != [] {
      var init := feeds[..|feeds| - 1];
      CollectCurated(svc, init);
      var feed := feeds[|feeds| - 1];
      GatherCurated(svc, Collect(svc, init).value, feed.source, Fetched(svc.unescape, feed.entries));
    }
  }

  /** One more entry of a feed that has not crashed is one more admission. */
  lemma GatherNext(svc: Services, articles: seq<Headline>, source: string, entries: seq<Entry>, i: nat)
    requires i < |entries| && Gather(svc, articles, source, entries[..i]).Some?
    ensures Gather(svc, articles, source, entries[..i + 1])
      == Admit(svc, Gather(svc, articles, source, entries[..i]).value, source, entries[i])
  {
    assert entries[..i + 1][..i] == entries[..i];
  }

  /** A crash inside a feed's entries ends the feed. */
  lemma {:induction false} GatherCrashes(svc: Services, articles: seq<Headline>, source: string, entries: seq<Entry>, n: nat)
    requires n <= |entries|
    requires Gather(svc, articles, source, entries[..n]).None?
    ensures Gather(svc, articles, source, entries).None?
    decreases |entries|
  {
    if n < |entries| {
      var init := entries[..|entries| - 1];
      assert init[..n] == entries[..n];
      GatherCrashes(svc, articles, source, init, n);
    } else {
      assert entries[..n] == entries;
    }
  }

  /** A crash in one feed ends the run. */
  lemma {:induction false} CollectCrashes(svc: Services, feeds: seq<Feed>, n: nat)
    requires n <= |feeds|
    requires Collect(svc, feeds[..n]).None?
    ensures Collect(svc, feeds).None?
    decreases |feeds|
  {
    if n < |feeds| {
      var init := feeds[..|feeds| - 1];
      assert init[..n] == feeds[..n];
      CollectCrashes(svc, init, n);
    } else {
      assert feeds[..n] == feeds;
    }
  }

  /**
   * The body of `main`'s entry loop: the title is repaired, checked first
   * against `titles_seen` and only then fuzzily; a kept entry is appended to
   * `articles` and its title to `titles_seen`. `ok` is false when the entry
   * has no title.
   */
  method AdmitEntry(svc: Services, articles: seq<Headline>, titlesSeen: seq<string>, source: string, entry: Entry)
    returns (ok: bool, articles': seq<Headline>, titlesSeen': seq<string>)
    requires titlesSeen == Titles(articles)
    ensures ok <==> Admit(svc, articles, source, entry).Some?
    ensures ok ==> articles' == Admit(svc, articles, source, entry).value
    ensures titlesSeen' == Titles(articles')
  {
    articles', titlesSeen' := articles, titlesSeen;
    if entry.title.None? {
      return false, articles', titlesSeen';
    }
    ok := true;
    var title := SanitizeText(entry.title.value);
    if title !in titlesSeen {
      var similar := IsSimilar(svc, title, titlesSeen);
      if !similar {
        var description := NoDescription;
        if entry.summary.Some? {
          description := SanitizeText(entry.summary.value);
        }
        articles' := articles + [Headline(title, description, 0, source)];
        titlesSeen' := titlesSeen + [title];
      }
    }
  }

  /** One iteration of `main`'s feed loop: `fetch_rss`, then every entry in order. */
  method GatherFeed(svc: Services, feed: Feed, articles: seq<Headline>, titlesSeen: seq<string>)
    returns (ok: bool, articles': seq<Headline>, titlesSeen': seq<string>)
    requires titlesSeen == Titles(articles)
    ensures ok <==> Gather(svc, articles, feed.source, Fetched(svc.unescape, feed.entries)).Some?
    ensures ok ==> articles' == Gather(svc, articles, feed.source, Fetched(svc.unescape, feed.entries)).value
    ensures titlesSeen' == Titles(articles')
  {
    var entries := new Entry[|feed.entries|](i requires 0 <= i < |feed.entries| => feed.entries[i]);
    FetchRss(svc.unescape, entries);
    var fetched := entries[..];
    assert fetched == Fetched(svc.unescape, feed.entries);
    articles', titlesSeen' := articles, titlesSeen;
    for i := 0 to |fetched|
      invariant Gather(svc, articles, feed.source, fetched[..i]) == Some(articles')
      invariant titlesSeen' == Titles(articles')
    {
      GatherNext(svc, articles, feed.source, fetched, i);
      ok, articles', titlesSeen' := AdmitEntry(svc, articles', titlesSeen', feed.source, fetched[i]);
      if !ok {
        GatherCrashes(svc, articles, feed.source, fetched, i + 1);
        return;
      }
    }
    assert fetched[..|fetched|] == fetched;
    ok := true;
  }

  /**
   * `main`'s loop over the feeds, building `articles` and `titles_seen`
   * in lockstep. `ok` is false when an entry without a title stops the
   * run.
   */
  method Run(svc: Services, feeds: seq<Feed>) returns (ok: bool, articles: seq<Headline>, titlesSeen: seq<string>)
    ensures ok <==> Collect(svc, feeds).Some?
    ensures ok ==> articles == Collect(svc, feeds).value
    ensures titlesSeen == Titles(articles)
  {
    articles := [];
    titlesSeen := [];
    for f := 0 to |feeds|
      invariant Collect(svc, feeds[..f]) == Some(articles)
      invariant titlesSeen == Titles(articles)
    {
      assert feeds[..f + 1][..f] == feeds[..f];
      ok, articles, titlesSeen := GatherFeed(svc, feeds[f], articles, titlesSeen);
      if !ok {
        CollectCrashes(svc, feeds, f + 1);
        return;
      }
    }
    assert feeds[..|feeds|] == feeds;
    ok := true;
  }
}

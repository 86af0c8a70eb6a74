/**
 * The ingestion run of `lambda/lambda_function.py` (`lambda_handler`):
 * make sure the current week's table exists, drop expired tables, then
 * walk every feed entry and insert the ones that are dated, not videos,
 * classified at impact 2 or above and not a near-duplicate of a title already
 * in their week's table.
 *
 * `Step`, `IngestItems`, `IngestFeeds` and `Run` specify a run on values;
 * `LambdaHandler` is the imperative handler over a `Database`, proved to
 * leave exactly the tables and the high-impact titles that `Run` computes.
 * The specification also keeps a journal of every insert, which the
 * lemmas below use to state what a run can and cannot have inserted.
 */
module LambdaIngest {
  import opened Wrappers
  import opened Calendar
  import opened WeekTables
  import opened LambdaStore
  import Text
  import Similarity

  /** A feed entry as feedparser gives it: each attribute may be missing. */
  datatype Item = Item(title: Option<string>, link: Option<string>, published: Option<string>)

  /** One entry of `rss_urls` with the entries its feed returned. */
  datatype Feed = Feed(source: string, items: seq<Item>)

  /**
   * The foreign code a run calls: the trained classifier
   * (`int(model.predict([title])[0])`), `fuzz.token_sort_ratio`, and
   * `datetime.strptime(s, "%a, %d %b %Y %H:%M:%S %z")`, `None` where it
   * raises `ValueError`.
   */
  datatype Services = Services(
    classify: string -> int,
    score: (string, string) -> Similarity.Score,
    parseDate: string -> Option<Stamp>)

  /** `is_similar`'s default threshold. */
  const Threshold := 55
  /** Entries classified below this impact level are not stored. */
  const ImpactFloor := 2
  /** Titles of this impact level are collected for the run's log. */
  const HighImpact := 3
  const VideoPath := "/videos/"

  /** One `insert_news` call: the table and the row. */
  datatype Insert = Insert(table: string, row: Row)

  /** The state a run has built: the tables, `high_impact_titles`, and the journal of inserts. */
  datatype RunState = RunState(tables: Tables, high: seq<string>, inserted: seq<Insert>)

  /** The titles of a table's rows, in row order. */
  function RowTitles(rows: seq<Row>): (titles: seq<string>)
    ensures |titles| == |rows|
    ensures forall i :: 0 <= i < |rows| ==> titles[i] == rows[i].title
  {
    seq(|rows|, i requires 0 <= i < |rows| => rows[i].title)
  }

  /**
   * The publish date of an entry: `published` with `GMT` replaced by
   * `+0000`, parsed, and shown in Singapore time for the `bbc` feed.
   */
  function PublishStamp(svc: Services, source: string, published: string): Option<Stamp> {
    match svc.parseDate(Text.ReplaceAll(published, "GMT", "+0000"))
    case None => None
    case Some(t) => Some(if source == "bbc" then ToSingapore(t) else t)
  }

  /**
   * Where the item loop files an entry: the name of its week's table and
   * its publish date. `None` when the entry is skipped before any table is
   * touched: a missing link (`AttributeError`), a video link, no
   * `published`, a date that does not parse (`ValueError`), or a week past
   * year 9999 (`OverflowError`).
   */
  function Locate(svc: Services, source: string, item: Item): Option<(string, Stamp)> {
    if item.link.None? || Text.Occurs(item.link.value, VideoPath) || item.published.None? then None
    else match PublishStamp(svc, source, item.published.value)
      case None => None
      case Some(t) =>
        var day := LocalDate(t);
        if !(1 <= day <= MaxOrdinal) || TableName(day).None? then None
        else Some((TableName(day).value, t))
  }

  /**
   * One pass of the item loop. Every exception the body raises is caught
   * and skips the entry; a missing title is only noticed after the
   * entry's table has been created.
   */
  function Step(svc: Services, st: RunState, source: string, item: Item): RunState {
    match Locate(svc, source, item)
    case None => st
    case Some((name, t)) => File(svc, st, source, item, name, t)
  }

  /**
   * The second half of a pass, once the entry's table `name` and publish
   * date `t` are known: the table is created if missing, then the entry is
   * dropped if it has no title, is classified below 2, or is similar to a
   * title already in the table, and inserted otherwise.
   */
  function File(svc: Services, st: RunState, source: string, item: Item, name: string, t: Stamp): RunState
    requires item.link.Some?
  {
    var rows := if name in st.tables then st.tables[name] else [];
    var ensured := st.(tables := st.tables[name := rows]);
    if item.title.None? then ensured
    else
      var title := item.title.value;
      var impact := svc.classify(title);
      if impact < ImpactFloor || Similarity.AnyAbove(svc.score, title, RowTitles(rows), Threshold) then ensured
      else Inserted(st, name, rows, Row(title, impact, item.link.value, source, t))
  }

  /**
   * The state after `insert_news` appends `row` to table `name`, whose rows
   * were `rows`; an impact-3 title is also collected.
   */
  function Inserted(st: RunState, name: string, rows: seq<Row>, row: Row): RunState {
    RunState(st.tables[name := rows + [row]],
             st.high + (if row.impact == HighImpact then [row.title] else []),
             st.inserted + [Insert(name, row)])
  }

  /** The item loop over the entries of one feed. */
  function IngestItems(svc: Services, st: RunState, source: string, items: seq<Item>): RunState
    decreases |items|
  {
    if items == [] then st
    else Step(svc, IngestItems(svc, st, source, items[..|items| - 1]), source, items[|items| - 1])
  }

  /** The feed loop, over the feeds in `rss_urls` order. */
  function IngestFeeds(svc: Services, st: RunState, feeds: seq<Feed>): RunState
    decreases |feeds|
  {
    if feeds == [] then st
    else
      var last := feeds[|feeds| - 1];
      IngestItems(svc, IngestFeeds(svc, st, feeds[..|feeds| - 1]), last.source, last.items)
  }

  /**
   * The tables before the feed loop: the table `current` (the current
   * Singapore week's) created if missing, then `delete_old_tables` at the
   * local clock reading `nowLocal`.
   */
  function Prepare(tables: Tables, current: string, nowLocal: int): Tables {
    RetainFresh(if current in tables then tables else tables[current := []], nowLocal)
  }

  /**
   * A whole run on the tables `tables` at the clock reading `now` (UTC),
   * with the local clock `localOffset` seconds ahead of UTC.
   */
  function Run(svc: Services, tables: Tables, now: int, localOffset: int, feeds: seq<Feed>): RunState
    requires 1 <= SingaporeToday(now) <= MaxOrdinal && CurrentWeekTableName(now).Some?
  {
    IngestFeeds(svc, RunState(Prepare(tables, CurrentWeekTableName(now).value, now + localOffset * 1_000_000), [], []), feeds)
  }

  // ---------------------------------------------------------------------
  // What a run guarantees
  // ---------------------------------------------------------------------

  /** The rows the journal `log` inserted into table `name`, in order. */
  function Journal(log: seq<Insert>, name: string): seq<Row>
    decreases |log|
  {
    if log == [] then []
    else Journal(log[..|log| - 1], name) + (if log[|log| - 1].table == name then [log[|log| - 1].row] else [])
  }

  /** The titles of the journal's impact-3 rows, in order. */
  function HighTitles(log: seq<Insert>): seq<string>
    decreases |log|
  {
    if log == [] then []
    else HighTitles(log[..|log| - 1]) + (if log[|log| - 1].row.impact == HighImpact then [log[|log| - 1].row.title] else [])
  }

  /** The rows table `name` had at the start, none if it did not exist. */
  function Initial(base: Tables, name: string): seq<Row> {
    if name in base then base[name] else []
  }

  /**
   * A row the item loop may insert into table `name`: impact at least 2, a
   * link that is no video, a publish date whose week is `name`, and a BBC
   * date shown in Singapore time.
   */
  predicate Admitted(name: string, row: Row) {
    row.impact >= ImpactFloor && !Text.Occurs(row.url, VideoPath)
    && 1 <= LocalDate(row.published) <= MaxOrdinal && TableName(LocalDate(row.published)) == Some(name)
    && (row.source == "bbc" ==> row.published.offset == SingaporeOffset)
  }

  /** Every row from position `from` on scores at most 55 against every row before it. */
  predicate NovelFrom(score: (string, string) -> Similarity.Score, rows: seq<Row>, from: int) {
    forall j, i :: from <= j < |rows| && 0 <= i < j ==> score(rows[j].title, rows[i].title) <= Threshold
  }

  /**
   * The bookkeeping part of the loop invariant, relative to the tables
   * `base` the loop started from: no table has gone, every journaled
   * insert names a table that exists, each table is its initial rows
   * followed by the rows the journal inserted into it, and the
   * high-impact titles are those of the inserted impact-3 rows.
   */
  predicate Logged(base: Tables, st: RunState) {
    (forall name :: name in base ==> name in st.tables)
    && (forall k :: 0 <= k < |st.inserted| ==> st.inserted[k].table in st.tables)
    && (forall name :: name in st.tables ==> st.tables[name] == Initial(base, name) + Journal(st.inserted, name))
    && st.high == HighTitles(st.inserted)
  }

  /** Every row the loop added to a table is novel against every row before it. */
  predicate Novel(svc: Services, base: Tables, st: RunState) {
    forall name :: name in st.tables ==> NovelFrom(svc.score, st.tables[name], |Initial(base, name)|)
  }

  /** Every journaled insert was admissible for its table. */
  predicate AllAdmitted(log: seq<Insert>) {
    forall k :: 0 <= k < |log| ==> Admitted(log[k].table, log[k].row)
  }

  /** The invariant of the item loop. */
  predicate Accounted(svc: Services, base: Tables, st: RunState) {
    Logged(base, st) && Novel(svc, base, st) && AllAdmitted(st.inserted)
  }

  /** A table the journal never names has no journaled rows. */
  lemma {:induction false} JournalOfOtherTable(log: seq<Insert>, name: string)
    requires forall k :: 0 <= k < |log| ==> log[k].table != name
    ensures Journal(log, name) == []
    decreases |log|
  {
    if log != [] {
      JournalOfOtherTable(log[..|log| - 1], name);
    }
  }

  /** Appending one insert adds its row to its own table's journal only. */
  lemma JournalAppend(log: seq<Insert>, x: Insert, name: string)
    ensures Journal(log + [x], name) == Journal(log, name) + (if x.table == name then [x.row] else [])
    ensures HighTitles(log + [x]) == HighTitles(log) + (if x.row.impact == HighImpact then [x.row.title] else [])
  {
    assert (log + [x])[..|log|] == log;
  }

  /** An entry that `Locate` files is dated, has a link that is no video, and goes to the table of its date's week. */
  lemma LocateFiles(svc: Services, source: string, item: Item)
    requires Locate(svc, source, item).Some?
    ensures var (name, t) := Locate(svc, source, item).value;
      item.link.Some? && !Text.Occurs(item.link.value, VideoPath) && item.published.Some?
      && PublishStamp(svc, source, item.published.value) == Some(t)
      && 1 <= LocalDate(t) <= MaxOrdinal && TableName(LocalDate(t)) == Some(name)
      && (source == "bbc" ==> t.offset == SingaporeOffset)
  {
  }

  /** Filing that inserts nothing at most creates the missing, empty table `name`. */
  lemma FileSkipShape(svc: Services, st: RunState, source: string, item: Item, name: string, t: Stamp) returns (created: bool)
    requires item.link.Some?
    requires |File(svc, st, source, item, name, t).inserted| == |st.inserted|
    ensures var r := File(svc, st, source, item, name, t);
      r.inserted == st.inserted && r.high == st.high
      && r.tables == (if created then st.tables[name := []] else st.tables)
      && (created ==> name !in st.tables)
  {
    created := name !in st.tables;
  }

  /** A pass that inserts nothing at most creates one missing, empty table. */
  lemma StepSkipShape(svc: Services, st: RunState, source: string, item: Item) returns (name: string, created: bool)
    requires |Step(svc, st, source, item).inserted| == |st.inserted|
    ensures var r := Step(svc, st, source, item);
      r.inserted == st.inserted && r.high == st.high
      && r.tables == (if created then st.tables[name := []] else st.tables)
      && (created ==> name !in st.tables)
  {
    match Locate(svc, source, item)
    case None =>
      name, created := "", false;
    case Some((n, t)) =>
      LocateFiles(svc, source, item);
      name := n;
      created := FileSkipShape(svc, st, source, item, n, t);
  }

  /**
   * Filing that inserts appends one row to table `name` (created empty if
   * missing): the entry's title, its classified impact (at least 2), its
   * link, the feed's name and the date `t`; the title scores at most 55
   * against every title already there, and an impact-3 title is also
   * collected.
   */
  lemma FileInsertShape(svc: Services, st: RunState, source: string, item: Item, name: string, t: Stamp)
    returns (rows: seq<Row>, row: Row)
    requires item.link.Some?
    requires |File(svc, st, source, item, name, t).inserted| != |st.inserted|
    ensures File(svc, st, source, item, name, t) == Inserted(st, name, rows, row)
    ensures rows == (if name in st.tables then st.tables[name] else [])
    ensures !Similarity.AnyAbove(svc.score, row.title, RowTitles(rows), Threshold)
    ensures item.title == Some(row.title) && item.link == Some(row.url) && row.source == source && row.published == t
    ensures row.impact == svc.classify(row.title) && row.impact >= ImpactFloor
  {
    rows := if name in st.tables then st.tables[name] else [];
    row := Row(item.title.value, svc.classify(item.title.value), item.link.value, source, t);
  }

  /** A pass that inserts appends one filed row to the table `Locate` chose. */
  lemma StepInsertShape(svc: Services, st: RunState, source: string, item: Item) returns (name: string, rows: seq<Row>, row: Row)
    requires |Step(svc, st, source, item).inserted| != |st.inserted|
    ensures Step(svc, st, source, item) == Inserted(st, name, rows, row)
    ensures rows == (if name in st.tables then st.tables[name] else [])
    ensures Locate(svc, source, item) == Some((name, row.published))
    ensures !Similarity.AnyAbove(svc.score, row.title, RowTitles(rows), Threshold)
    ensures item.title == Some(row.title) && item.link == Some(row.url) && row.source == source
    ensures row.impact == svc.classify(row.title) && row.impact >= ImpactFloor
  {
    LocateFiles(svc, source, item);
    name := Locate(svc, source, item).value.0;
    var t := Locate(svc, source, item).value.1;
    rows, row := FileInsertShape(svc, st, source, item, name, t);
  }

  /** The row a pass inserts is admissible for its table. */
  lemma InsertedAdmitted(svc: Services, source: string, item: Item, name: string, row: Row)
    requires Locate(svc, source, item) == Some((name, row.published))
    requires item.link == Some(row.url) && row.source == source && row.impact >= ImpactFloor
    ensures Admitted(name, row)
  {
    LocateFiles(svc, source, item);
  }

  /** Journaling an admissible insert keeps every insert admissible. */
  lemma AdmittedAppend(log: seq<Insert>, x: Insert)
    requires AllAdmitted(log) && Admitted(x.table, x.row)
    ensures AllAdmitted(log + [x])
  {
  }

  /** Creating a missing, empty table keeps the bookkeeping. */
  lemma SkipLogged(base: Tables, st: RunState, name: string)
    requires Logged(base, st) && name !in st.tables
    ensures Logged(base, st.(tables := st.tables[name := []]))
  {
    JournalOfOtherTable(st.inserted, name);
  }

  /** Appending a row to a table, created empty if missing, and journaling it keeps the bookkeeping. */
  lemma InsertLogged(base: Tables, st: RunState, name: string, rows: seq<Row>, row: Row)
    requires Logged(base, st)
    requires rows == (if name in st.tables then st.tables[name] else [])
    ensures Logged(base, Inserted(st, name, rows, row))
  {
    InsertKeepsTables(base, st, name, rows, row);
    InsertJournals(base, st, name, rows, row);
    JournalAppend(st.inserted, Insert(name, row), name);
  }

  /** Inserting keeps every table and every journaled insert's table. */
  lemma InsertKeepsTables(base: Tables, st: RunState, name: string, rows: seq<Row>, row: Row)
    requires forall n :: n in base ==> n in st.tables
    requires forall k :: 0 <= k < |st.inserted| ==> st.inserted[k].table in st.tables
    ensures var r := Inserted(st, name, rows, row);
      (forall n :: n in base ==> n in r.tables)
      && (forall k :: 0 <= k < |r.inserted| ==> r.inserted[k].table in r.tables)
  {
    var r := Inserted(st, name, rows, row);
    forall k | 0 <= k < |r.inserted|
      ensures r.inserted[k].table in r.tables
    {
      if k < |st.inserted| {
        assert r.inserted[k] == st.inserted[k];
      }
    }
  }

  /** Inserting keeps every table equal to its initial rows followed by its journaled rows. */
  lemma InsertJournals(base: Tables, st: RunState, name: string, rows: seq<Row>, row: Row)
    requires Logged(base, st)
    requires rows == (if name in st.tables then st.tables[name] else [])
    ensures var r := Inserted(st, name, rows, row);
      forall n :: n in r.tables ==> r.tables[n] == Initial(base, n) + Journal(r.inserted, n)
  {
    var x := Insert(name, row);
    var r := Inserted(st, name, rows, row);
    if name !in st.tables {
      JournalOfOtherTable(st.inserted, name);
    }
    forall n | n in r.tables
      ensures r.tables[n] == Initial(base, n) + Journal(r.inserted, n)
    {
      JournalAppend(st.inserted, x, n);
    }
  }

  /** Appending a row whose title scores at most 55 against every title of its table keeps every table novel. */
  lemma InsertNovel(svc: Services, base: Tables, st: RunState, name: string, rows: seq<Row>, row: Row)
    requires Logged(base, st) && Novel(svc, base, st)
    requires rows == (if name in st.tables then st.tables[name] else [])
    requires !Similarity.AnyAbove(svc.score, row.title, RowTitles(rows), Threshold)
    ensures Novel(svc, base, Inserted(st, name, rows, row))
  {
    var tables: Tables := st.tables[name := rows + [row]];
    assert |Initial(base, name)| <= |rows|;
    forall j, i | |Initial(base, name)| <= j < |tables[name]| && 0 <= i < j
      ensures svc.score(tables[name][j].title, tables[name][i].title) <= Threshold
    {
      if j == |rows| {
        assert RowTitles(rows)[i] == rows[i].title;
      } else {
        assert tables[name][j] == rows[j] && tables[name][i] == rows[i];
      }
    }
  }

  /** One pass of the item loop keeps the invariant. */
  lemma StepAccounted(svc: Services, base: Tables, st: RunState, source: string, item: Item)
    requires Accounted(svc, base, st)
    ensures Accounted(svc, base, Step(svc, st, source, item))
  {
    if |Step(svc, st, source, item).inserted| == |st.inserted| {
      var name, created := StepSkipShape(svc, st, source, item);
      if created {
        SkipLogged(base, st, name);
      }
    } else {
      var name, rows, row := StepInsertShape(svc, st, source, item);
      InsertLogged(base, st, name, rows, row);
      InsertNovel(svc, base, st, name, rows, row);
      InsertedAdmitted(svc, source, item, name, row);
      AdmittedAppend(st.inserted, Insert(name, row));
    }
  }

  /** The item loop over one feed keeps the invariant. */
  lemma {:induction false} IngestItemsAccounted(svc: Services, base: Tables, st: RunState, source: string, items: seq<Item>)
    requires Accounted(svc, base, st)
    ensures Accounted(svc, base, IngestItems(svc, st, source, items))
    decreases |items|
  {
    if items != [] {
      IngestItemsAccounted(svc, base, st, source, items[..|items| - 1]);
      StepAccounted(svc, base, IngestItems(svc, st, source, items[..|items| - 1]), source, items[|items| - 1]);
    }
  }

  /** The feed loop keeps the invariant. */
  lemma {:induction false} IngestFeedsAccounted(svc: Services, base: Tables, st: RunState, feeds: seq<Feed>)
    requires Accounted(svc, base, st)
    ensures Accounted(svc, base, IngestFeeds(svc, st, feeds))
    decreases |feeds|
  {
    if feeds != [] {
      var last := feeds[|feeds| - 1];
      IngestFeedsAccounted(svc, base, st, feeds[..|feeds| - 1]);
      IngestItemsAccounted(svc, base, IngestFeeds(svc, st, feeds[..|feeds| - 1]), last.source, last.items);
    }
  }

  /**
   * What the feed loop guarantees about the tables it leaves, starting
   * from the prepared tables `base`: every table is still there and only
   * grew at its end; every row the loop inserted sits in the table of its
   * publish week, has impact at least 2, no video link, a Singapore-time date
   * if it came from the BBC feed, and a title scoring at most 55 against
   * every title before it in its table; and the collected high-impact
   * titles are exactly the titles of the inserted impact-3 rows, in
   * insertion order.
   */
  lemma IngestGuarantees(svc: Services, base: Tables, feeds: seq<Feed>)
    ensures var r := IngestFeeds(svc, RunState(base, [], []), feeds);
      (forall name :: name in base ==> name in r.tables && base[name] <= r.tables[name])
      && (forall name :: name in r.tables ==>
            r.tables[name] == Initial(base, name) + Journal(r.inserted, name)
            && NovelFrom(svc.score, r.tables[name], |Initial(base, name)|))
      && (forall k :: 0 <= k < |r.inserted| ==>
            r.inserted[k].table in r.tables && Admitted(r.inserted[k].table, r.inserted[k].row))
      && r.high == HighTitles(r.inserted)
  {
    var start := RunState(base, [], []);
    assert Accounted(svc, base, start);
    IngestFeedsAccounted(svc, base, start, feeds);
  }

  /**
   * The tables before the feed loop are the old tables plus `current`,
   * minus every expired one, each with its old rows.
   */
  lemma PrepareKeepsFresh(tables: Tables, current: string, nowLocal: int)
    ensures var p := Prepare(tables, current, nowLocal);
      (forall name :: name in p <==> (name in tables || name == current) && !Expired(name, nowLocal))
      && (forall name :: name in p ==> p[name] == Initial(tables, name))
  {
  }

  /**
   * When the current Singapore week lies within 1969 to 2068 and the local
   * clock is within a day of UTC, the current week's table is among the
   * tables the feed loop starts from.
   */
  lemma PrepareKeepsCurrent(tables: Tables, now: int, localOffset: int)
    requires 1 <= SingaporeToday(now) <= MaxOrdinal
    requires TwoDigitYear(WeekStart(SingaporeToday(now))) && TwoDigitYear(WeekStart(SingaporeToday(now)) + 6)
    requires -86_400 < localOffset < 86_400
    ensures CurrentWeekTableName(now).Some?
    ensures CurrentWeekTableName(now).value in Prepare(tables, CurrentWeekTableName(now).value, now + localOffset * 1_000_000)
  {
    CurrentTableNotExpired(now, localOffset);
    PrepareKeepsFresh(tables, CurrentWeekTableName(now).value, now + localOffset * 1_000_000);
  }

  // ---------------------------------------------------------------------
  // The handler
  // ---------------------------------------------------------------------

  /**
   * `is_similar(new_title, existing_entries)` at its default threshold:
   * some existing title, whatever its source, scores above 55.
   */
  method IsSimilar(score: (string, string) -> Similarity.Score, newTitle: string, entries: seq<(string, string)>)
    returns (similar: bool)
    ensures similar <==> exists i :: 0 <= i < |entries| && score(newTitle, entries[i].0) > Threshold
  {
    var titles := seq(|entries|, i requires 0 <= i < |entries| => entries[i].0);
    var scanned;
    similar, scanned := Similarity.IsSimilar(score, newTitle, titles, Threshold);
    if similar {
      var i :| 0 <= i < |titles| && score(newTitle, titles[i]) > Threshold;
      assert titles[i] == entries[i].0;
    } else {
      forall i | 0 <= i < |entries|
        ensures score(newTitle, entries[i].0) <= Threshold
      {
        assert titles[i] == entries[i].0;
      }
    }
  }

  /**
   * The first half of the item loop's body: the checks and the date
   * computation that decide the entry's table, with an early `continue`
   * (here `None`) wherever the source skips the entry or raises.
   */
  method LocateItem(svc: Services, source: string, item: Item) returns (loc: Option<(string, Stamp)>)
    ensures loc == Locate(svc, source, item)
  {
    if item.link.None? { return None; }
    if Text.Occurs(item.link.value, VideoPath) { return None; }
    if item.published.None? { return None; }
    var parsed := svc.parseDate(Text.ReplaceAll(item.published.value, "GMT", "+0000"));
    if parsed.None? { return None; }
    var publishDate := parsed.value;
    if source == "bbc" {
      publishDate := ToSingapore(publishDate);
    }
    var day := LocalDate(publishDate);
    if !(1 <= day <= MaxOrdinal) { return None; }
    var tableName := TableName(day);
    if tableName.None? { return None; }
    return Some((tableName.value, publishDate));
  }

  /** Scoring against the `(title, source)` pairs of a table is scoring against its titles. */
  lemma SimilarToEntries(score: (string, string) -> Similarity.Score, title: string, rows: seq<Row>)
    ensures (exists i :: 0 <= i < |TitlesAndSources(rows)| && score(title, TitlesAndSources(rows)[i].0) > Threshold)
        <==> Similarity.AnyAbove(score, title, RowTitles(rows), Threshold)
  {
    var entries := TitlesAndSources(rows);
    if exists i :: 0 <= i < |entries| && score(title, entries[i].0) > Threshold {
      var i :| 0 <= i < |entries| && score(title, entries[i].0) > Threshold;
      assert RowTitles(rows)[i] == entries[i].0;
    }
    if Similarity.AnyAbove(score, title, RowTitles(rows), Threshold) {
      var i :| 0 <= i < |RowTitles(rows)| && score(title, RowTitles(rows)[i]) > Threshold;
      assert RowTitles(rows)[i] == entries[i].0;
    }
  }

  /** The body of the item loop, on the database, for the entry `item` of feed `source`. */
  method ProcessItem(db: Database, svc: Services, source: string, item: Item, high: seq<string>, ghost st: RunState)
    returns (newHigh: seq<string>)
    requires db.tables == st.tables && high == st.high
    modifies db
    ensures db.tables == Step(svc, st, source, item).tables
    ensures newHigh == Step(svc, st, source, item).high
  {
    var loc := LocateItem(svc, source, item);
    if loc.None? {
      return high;
    }
    LocateFiles(svc, source, item);
    newHigh := FileItem(db, svc, source, item, loc.value.0, loc.value.1, high, st);
  }

  /** The second half of the item loop's body, once the entry's table and publish date are known. */
  method FileItem(db: Database, svc: Services, source: string, item: Item, name: string, t: Stamp,
                  high: seq<string>, ghost st: RunState)
    returns (newHigh: seq<string>)
    requires item.link.Some?
    requires db.tables == st.tables && high == st.high
    modifies db
    ensures db.tables == File(svc, st, source, item, name, t).tables
    ensures newHigh == File(svc, st, source, item, name, t).high
  {
    newHigh := high;
    var found := db.TableExists(name);
    if !found {
      db.CreateTable(name);
    }
    var existing := db.ExistingTitlesAndSources(name);
    ghost var rows := if name in st.tables then st.tables[name] else [];
    assert db.tables == st.tables[name := rows];
    if item.title.None? { return; }
    var title := item.title.value;
    var impact := svc.classify(title);
    if impact < ImpactFloor { return; }
    var similar := IsSimilar(svc.score, title, existing);
    SimilarToEntries(svc.score, title, rows);
    if similar { return; }
    if impact == HighImpact {
      newHigh := newHigh + [title];
    }
    db.InsertNews(name, Row(title, impact, item.link.value, source, t));
  }

  /**
   * The steps of `lambda_handler` before the feed loop: create the current
   * Singapore week's table if it is missing, then `delete_old_tables`.
   */
  method PrepareTables(db: Database, current: string, nowLocal: int)
    modifies db
    ensures db.tables == Prepare(old(db.tables), current, nowLocal)
  {
    var found := db.TableExists(current);
    if !found {
      db.CreateTable(current);
    }
    db.DeleteOldTables(nowLocal);
  }

  /** The feed loop, over the prepared tables. */
  method IngestAll(db: Database, svc: Services, feeds: seq<Feed>) returns (high: seq<string>)
    modifies db
    ensures db.tables == IngestFeeds(svc, RunState(old(db.tables), [], []), feeds).tables
    ensures high == IngestFeeds(svc, RunState(old(db.tables), [], []), feeds).high
  {
    ghost var start := RunState(db.tables, [], []);
    ghost var st := start;
    high := [];
    for f := 0 to |feeds|
      invariant st == IngestFeeds(svc, start, feeds[..f])
      invariant db.tables == st.tables && high == st.high
    {
      ghost var before := st;
      high := IngestFeed(db, svc, feeds[f], high, st);
      st := IngestItems(svc, before, feeds[f].source, feeds[f].items);
      assert feeds[..f + 1][..f] == feeds[..f];
    }
    assert feeds[..|feeds|] == feeds;
  }

  /** The item loop over the entries of one feed. */
  method IngestFeed(db: Database, svc: Services, feed: Feed, high: seq<string>, ghost st: RunState)
    returns (newHigh: seq<string>)
    requires db.tables == st.tables && high == st.high
    modifies db
    ensures db.tables == IngestItems(svc, st, feed.source, feed.items).tables
    ensures newHigh == IngestItems(svc, st, feed.source, feed.items).high
  {
    ghost var cur := st;
    newHigh := high;
    for i := 0 to |feed.items|
      invariant cur == IngestItems(svc, st, feed.source, feed.items[..i])
      invariant db.tables == cur.tables && newHigh == cur.high
    {
      newHigh := ProcessItem(db, svc, feed.source, feed.items[i], newHigh, cur);
      cur := Step(svc, cur, feed.source, feed.items[i]);
      assert feed.items[..i + 1][..i] == feed.items[..i];
    }
    assert feed.items[..|feed.items|] == feed.items;
  }

  /**
   * `lambda_handler`: prepares the tables, runs the item loop over every
   * feed, and returns `high_impact_titles`. The database ends as `Run`
   * says and the returned titles are `Run`'s.
   */
  method LambdaHandler(db: Database, svc: Services, now: int, localOffset: int, feeds: seq<Feed>)
    returns (high: seq<string>)
    requires 1 <= SingaporeToday(now) <= MaxOrdinal && CurrentWeekTableName(now).Some?
    modifies db
    ensures db.tables == Run(svc, old(db.tables), now, localOffset, feeds).tables
    ensures high == Run(svc, old(db.tables), now, localOffset, feeds).high
  {
    ghost var old0 := db.tables;
    PrepareTables(db, CurrentWeekTableName(now).value, now + localOffset * 1_000_000);
    ghost var prepared := db.tables;
    high := IngestAll(db, svc, feeds);
    assert db.tables == IngestFeeds(svc, RunState(prepared, [], []), feeds).tables;
    assert prepared == Prepare(old0, CurrentWeekTableName(now).value, now + localOffset * 1_000_000);
  }
}

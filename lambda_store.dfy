/**
 * The MySQL database of `lambda/lambda_function.py`, as the tables the
 * script sees: a map from table name to the rows of that table in insertion
 * order. The helper functions `table_exists`, `create_table`,
 * `get_existing_titles_and_sources`, `insert_news` and `delete_old_tables`
 * are methods that read or update this map.
 */
module LambdaStore {
  import opened Wrappers
  import opened Calendar
  import opened WeekTables
  import Text

  /** One row of a weekly table: `(title, impact_level, url, source, datetime)`. */
  datatype Row = Row(title: string, impact: int, url: string, source: string, published: Stamp)

  type Tables = map<string, seq<Row>>

  /** The `(title, source)` pairs that `SELECT title, source` returns for `rows`. */
  function TitlesAndSources(rows: seq<Row>): (entries: seq<(string, string)>)
    ensures |entries| == |rows|
    ensures forall i :: 0 <= i < |rows| ==> entries[i] == (rows[i].title, rows[i].source)
  {
    seq(|rows|, i requires 0 <= i < |rows| => (rows[i].title, rows[i].source))
  }

  /** The tables that survive `delete_old_tables` at the naive local clock reading `nowLocal`. */
  function RetainFresh(tables: Tables, nowLocal: int): Tables {
    map name | name in tables && !Expired(name, nowLocal) :: tables[name]
  }

  class Database {
    var tables: Tables

    constructor (tables: Tables)
      ensures this.tables == tables
    {
      this.tables := tables;
    }

    /** `table_exists`: `SHOW TABLES LIKE name` returns a row (the names used hold no LIKE wildcard). */
    method TableExists(name: string) returns (found: bool)
      ensures found <==> name in tables
    {
      found := name in tables;
    }

    /** `create_table`: `CREATE TABLE name (...)`, an error if the table is already there. */
    method CreateTable(name: string)
      requires name !in tables
      modifies this
      ensures tables == old(tables)[name := []]
    {
      tables := tables[name := []];
    }

    /** `get_existing_titles_and_sources`: `SELECT title, source FROM name`. */
    method ExistingTitlesAndSources(name: string) returns (entries: seq<(string, string)>)
      requires name in tables
      ensures entries == TitlesAndSources(tables[name])
    {
      entries := TitlesAndSources(tables[name]);
    }

    /** `insert_news`: appends one row to the table. */
    method InsertNews(name: string, row: Row)
      requires name in tables
      modifies this
      ensures tables == old(tables)[name := old(tables)[name] + [row]]
    {
      tables := tables[name := tables[name] + [row]];
    }

    /** `DROP TABLE name`. */
    method DropTable(name: string)
      requires name in tables
      modifies this
      ensures tables == old(tables) - {name}
    {
      tables := tables - {name};
    }

    /**
     * `delete_old_tables`: lists every table and drops each one whose name
     * has a `-` and whose component after it parses with `%d%m%y` to a
     * date (at midnight) strictly before `now - 90 days`. Names without a
     * `-` and components `strptime` rejects are skipped; nothing else
     * changes.
     */
    method DeleteOldTables(nowLocal: int)
      modifies this
      ensures tables == RetainFresh(old(tables), nowLocal)
      ensures forall name :: name in tables <==> name in old(tables) && !Expired(name, nowLocal)
      ensures forall name :: name in tables ==> tables[name] == old(tables)[name]
    {
      var threeMonthsAgo := nowLocal - 90 * DayMicros;
      var pending := tables.Keys;
      while pending != {}
        invariant pending <= old(tables).Keys
        invariant forall name :: name in tables <==> name in old(tables) && (name in pending || !Expired(name, nowLocal))
        invariant forall name :: name in tables ==> tables[name] == old(tables)[name]
        decreases pending
      {
        var name :| name in pending;
        if '-' in name {
          var parts := Text.Split(name, '-');
          var endDate := ParseDdmmyy(parts[1]);
          if endDate.Some? && (endDate.value - 1) * DayMicros < threeMonthsAgo {
            DropTable(name);
          }
        }
        pending := pending - {name};
      }
      assert tables == RetainFresh(old(tables), nowLocal);
    }
  }
}

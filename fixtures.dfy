/**
 * `write_csv` and `main` of `main.py`: the three fixture files, each a header
 * record followed by one record per generated row, in order.
 *
 * A file is modelled as the sequence of records written to it; the directory
 * creation, the text encoding and the CSV quoting of `csv.writer` are not modelled.
 */
module Fixtures {
  import opened Clock
  import opened Generators

  /** The output directory, `OUT`. */
  const OutDir: string := "sample_data"

  /** The site and metric every fixture uses. */
  const SiteId: string := "FR001"
  const Metric: string := "power_mw"

  /** The generators' default interval, `freq_min=15`. */
  const DefaultFreqMin: int := 15

  const RegularDate: string := "2024-12-01"
  const SpringDate: string := "2024-03-31"
  const FallDate: string := "2024-10-27"

  /** The three fixture dates are well-formed `YYYY-MM-DD` dates. */
  lemma FixtureDatesValid()
    ensures IsIsoDate(RegularDate) && IsIsoDate(SpringDate) && IsIsoDate(FallDate)
  {
    forall i | 0 <= i < 10 && i != 4 && i != 7
      ensures IsDigit(RegularDate[i]) && IsDigit(SpringDate[i]) && IsDigit(FallDate[i])
    {
    }
  }

  const Header: seq<string> := ["ts", "tz", "site_id", "metric", "value"]
  const FoldHeader: seq<string> := Header + ["fold"]

  /** An open CSV file: its path and the records written to it so far. */
  class CsvFile {
    const path: string
    var records: seq<seq<string>>

    /** `path.open("w")`: the file starts empty. */
    constructor Open(path: string)
      ensures this.path == path && records == []
    {
      this.path := path;
      records := [];
    }

    /** `writerow`: appends one record. */
    method WriteRow(fields: seq<string>)
      modifies this
      ensures records == old(records) + [fields]
    {
      records := records + [fields];
    }
  }

  /** The records of `rows`, in order, each rendered by `Fields`. */
  function Records(rows: seq<Row>, fmt: Reading -> string): (rs: seq<seq<string>>)
    ensures |rs| == |rows|
    ensures forall i :: 0 <= i < |rows| ==> rs[i] == Fields(rows[i], fmt)
  {
    if rows == [] then [] else Records(rows[..|rows| - 1], fmt) + [Fields(rows[|rows| - 1], fmt)]
  }

  /** What `write_csv` leaves in a file: the header record, then one record per row. */
  function CsvRecords(header: seq<string>, rows: seq<Row>, fmt: Reading -> string): seq<seq<string>> {
    [header] + Records(rows, fmt)
  }

  /** `write_csv`: the header, then every row in order. */
  method WriteCsv(path: string, header: seq<string>, rows: seq<Row>, fmt: Reading -> string)
    returns (f: CsvFile)
    ensures fresh(f) && f.path == path
    ensures f.records == CsvRecords(header, rows, fmt)
  {
    f := new CsvFile.Open(path);
    f.WriteRow(header);
    for i := 0 to |rows|
      invariant f.records == [header] + Records(rows[..i], fmt)
    {
      f.WriteRow(Fields(rows[i], fmt));
      assert rows[..i + 1][..i] == rows[..i];
    }
    assert rows[..|rows|] == rows;
  }

  /**
   * A file written by `write_csv` holds one record more than there are rows, and
   * every record is as wide as the header when every row renders to that width.
   */
  lemma CsvRecordsShape(header: seq<string>, rows: seq<Row>, fmt: Reading -> string, folded: bool)
    requires |header| == if folded then 6 else 5
    requires forall i :: 0 <= i < |rows| ==> rows[i].Folded? == folded
    ensures |CsvRecords(header, rows, fmt)| == |rows| + 1 && CsvRecords(header, rows, fmt)[0] == header
    ensures forall r :: r in CsvRecords(header, rows, fmt) ==> |r| == |header|
  {
    var rs := CsvRecords(header, rows, fmt);
    forall r | r in rs
      ensures |r| == |header|
    {
      var i :| 0 <= i < |rs| && rs[i] == r;
      if i > 0 {
        assert r == Fields(rows[i - 1], fmt);
      }
    }
  }

  /** The name of one fixture without its extension: `f"{site_id}_{kind}_{date}"`. */
  function FixtureStem(siteId: string, kind: string, date: string): (stem: string)
    ensures |stem| == |siteId| + |kind| + |date| + 2
    ensures stem[..|siteId|] == siteId && stem[|siteId|] == '_'
    ensures stem[|stem| - |date|..] == date
  {
    siteId + "_" + kind + "_" + date
  }

  /** The file name of one fixture: `f"{site_id}_{kind}_{date}.csv"`. */
  function FixtureName(siteId: string, kind: string, date: string): (name: string)
    ensures |name| == |siteId| + |kind| + |date| + 6
    ensures name[..|siteId|] == siteId && name[|name| - 4..] == ".csv"
  {
    FixtureStem(siteId, kind, date) + ".csv"
  }

  /** `OUT / name`. */
  function FixturePath(name: string): string {
    OutDir + "/" + name
  }

  /** The generator arguments of the three fixtures. */
  const RegularDay: Day := Day(RegularDate, SiteId, Metric, DefaultFreqMin)
  const SpringDay: Day := Day(SpringDate, SiteId, Metric, DefaultFreqMin)
  const FallDay: Day := Day(FallDate, SiteId, Metric, DefaultFreqMin)

  /** The regular fixture of `main`: the rows of 2024-12-01, then written out. */
  method RegularFixture(offset: int -> string, draw: nat -> Unit, pos: nat, fmt: Reading -> string)
    returns (f: CsvFile, next: nat)
    ensures fresh(f) && f.path == FixturePath(FixtureName(SiteId, "regular", RegularDate))
    ensures f.records == CsvRecords(Header, RegularRows(RegularDay, offset, draw, pos), fmt)
    ensures next == pos + 96
  {
    var ok, rows;
    ok, rows, next := GenRegularDay(RegularDate, SiteId, Metric, DefaultFreqMin, offset, draw, pos);
    f := WriteCsv(FixturePath(FixtureName(SiteId, "regular", RegularDate)), Header, rows, fmt);
  }

  /** The spring-forward fixture of `main`: the rows of 2024-03-31, then written out. */
  method SpringFixture(draw: nat -> Unit, pos: nat, fmt: Reading -> string)
    returns (f: CsvFile, next: nat)
    ensures fresh(f) && f.path == FixturePath(FixtureName(SiteId, "dst_spring", SpringDate))
    ensures f.records == CsvRecords(Header, SpringRows(SpringDay, draw, pos), fmt)
    ensures next == pos + 96
  {
    var ok, rows;
    ok, rows, next := GenSpringForwardDay(SpringDate, SiteId, Metric, DefaultFreqMin, draw, pos);
    f := WriteCsv(FixturePath(FixtureName(SiteId, "dst_spring", SpringDate)), Header, rows, fmt);
  }

  /** The fall-back fixture of `main`: the rows of 2024-10-27, then written out. */
  method FallFixture(draw: nat -> Unit, pos: nat, fmt: Reading -> string)
    returns (f: CsvFile, next: nat)
    ensures fresh(f) && f.path == FixturePath(FixtureName(SiteId, "dst_fall", FallDate))
    ensures f.records == CsvRecords(FoldHeader, FallBackRows(FallDay, draw, pos, StepCount(DefaultFreqMin)), fmt)
    ensures next == pos + 100
  {
    var ok, rows;
    ok, rows, next := GenFallBackDay(FallDate, SiteId, Metric, DefaultFreqMin, draw, pos);
    FallBackCountQuarterHour(FallDay, draw, pos);
    f := WriteCsv(FixturePath(FixtureName(SiteId, "dst_fall", FallDate)), FoldHeader, rows, fmt);
  }

  /**
   * `main`: the regular, spring-forward and fall-back days of site FR001, written
   * in that order, each generator continuing the one random stream where the
   * previous one stopped. `offset` gives the UTC offset of the regular date at a
   * wall-clock minute; `fmt` renders a reading.
   */
  method GenerateFixtures(offset: int -> string, draw: nat -> Unit, pos: nat, fmt: Reading -> string)
    returns (regular: CsvFile, spring: CsvFile, fall: CsvFile, next: nat)
    ensures fresh(regular) && fresh(spring) && fresh(fall)
    ensures regular.path == FixturePath(FixtureName(SiteId, "regular", RegularDate))
    ensures spring.path == FixturePath(FixtureName(SiteId, "dst_spring", SpringDate))
    ensures fall.path == FixturePath(FixtureName(SiteId, "dst_fall", FallDate))
    ensures regular.records == CsvRecords(Header, RegularRows(RegularDay, offset, draw, pos), fmt)
    ensures spring.records == CsvRecords(Header, SpringRows(SpringDay, draw, pos + 96), fmt)
    ensures fall.records == CsvRecords(FoldHeader, FallBackRows(FallDay, draw, pos + 192, StepCount(DefaultFreqMin)), fmt)
    ensures next == pos + 292
  {
    regular, next := RegularFixture(offset, draw, pos, fmt);
    assert next == pos + 96;
    spring, next := SpringFixture(draw, pos + 96, fmt);
    assert next == pos + 192;
    fall, next := FallFixture(draw, pos + 192, fmt);
  }

  /** The regular file: the header and 96 rows, every record five fields wide. */
  lemma RegularFixtureShape(offset: int -> string, draw: nat -> Unit, pos: nat, fmt: Reading -> string)
    ensures var records := CsvRecords(Header, RegularRows(RegularDay, offset, draw, pos), fmt);
      |records| == 97 && forall r :: r in records ==> |r| == |Header|
  {
    assert StepCount(DefaultFreqMin) == 96;
    CsvRecordsShape(Header, RegularRows(RegularDay, offset, draw, pos), fmt, false);
  }

  /** The spring-forward file: the header and 96 rows, every record five fields wide. */
  lemma SpringFixtureShape(draw: nat -> Unit, pos: nat, fmt: Reading -> string)
    ensures var records := CsvRecords(Header, SpringRows(SpringDay, draw, pos), fmt);
      |records| == 97 && forall r :: r in records ==> |r| == |Header|
  {
    assert StepCount(DefaultFreqMin) == 96;
    CsvRecordsShape(Header, SpringRows(SpringDay, draw, pos), fmt, false);
  }

  /** The fall-back file: the header and 100 rows, every record six fields wide. */
  lemma FallFixtureShape(draw: nat -> Unit, pos: nat, fmt: Reading -> string)
    ensures var records := CsvRecords(FoldHeader, FallBackRows(FallDay, draw, pos, StepCount(DefaultFreqMin)), fmt);
      |records| == 101 && forall r :: r in records ==> |r| == |FoldHeader|
  {
    FallBackCountQuarterHour(FallDay, draw, pos);
    FallBackRowsWellFormed(FallDay, draw, pos, StepCount(DefaultFreqMin));
    CsvRecordsShape(FoldHeader, FallBackRows(FallDay, draw, pos, StepCount(DefaultFreqMin)), fmt, true);
  }
}

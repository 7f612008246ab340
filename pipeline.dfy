/**
 * The fixtures of `main.py` as the ingestion handler of `app/handler.py` sees them
 * once uploaded under `raw/`: the text of a written file, and what the handler
 * reports for it.
 *
 * A record is laid out as its fields separated by commas and ended by "\r\n", the
 * `csv` module's default line terminator; quoting is not modelled, which leaves
 * the line structure alone as long as no field holds a line break.
 */
module Pipeline {
  import opened Clock
  import opened Generators
  import opened Fixtures
  import opened Summary

  /** One record as `csv.writer` lays it out: the fields separated by commas. */
  function CsvLine(fields: seq<string>): string
    decreases |fields|
  {
    if fields == [] then ""
    else if |fields| == 1 then fields[0]
    else fields[0] + "," + CsvLine(fields[1..])
  }

  /** The lines of a file of records, one per record. */
  function CsvLines(records: seq<seq<string>>): (lines: seq<string>)
    ensures |lines| == |records|
  {
    seq(|records|, i requires 0 <= i < |records| => CsvLine(records[i]))
  }

  /** The text of a file of records: every line ended by "\r\n". */
  function CsvText(records: seq<seq<string>>): string {
    Terminated(CsvLines(records), "\r\n")
  }

  /** Joining break-free strings keeps them break-free. */
  lemma BreakFreeAppend(a: string, b: string)
    requires BreakFree(a) && BreakFree(b)
    ensures BreakFree(a + b)
  {
    forall i | |a| <= i < |a + b|
      ensures !IsLineBreak((a + b)[i])
    {
      assert (a + b)[i] == b[i - |a|];
    }
  }

  /** The line of break-free fields has no line break. */
  lemma {:induction false} CsvLineBreakFree(fields: seq<string>)
    requires forall j :: 0 <= j < |fields| ==> BreakFree(fields[j])
    ensures BreakFree(CsvLine(fields))
    decreases |fields|
  {
    if |fields| > 1 {
      CsvLineBreakFree(fields[1..]);
      BreakFreeAppend(fields[0], ",");
      BreakFreeAppend(fields[0] + ",", CsvLine(fields[1..]));
    }
  }

  /** The line of two fields or more holds a comma, so it is not blank. */
  lemma CsvLineNotBlank(fields: seq<string>)
    requires |fields| >= 2
    ensures !Blank(CsvLine(fields))
  {
    assert CsvLine(fields)[|fields[0]|] == ',';
  }

  /** Every field of every record is free of line breaks. */
  predicate RecordsBreakFree(records: seq<seq<string>>) {
    forall i, j :: 0 <= i < |records| && 0 <= j < |records[i]| ==> BreakFree(records[i][j])
  }

  /**
   * A file written as a header record and data records, each of two fields or more
   * and none holding a line break, is counted by the handler as its data records.
   */
  lemma WrittenFileRowCount(records: seq<seq<string>>)
    requires records != [] && RecordsBreakFree(records)
    requires forall i :: 0 <= i < |records| ==> |records[i]| >= 2
    ensures RowCount(CsvText(records)) == |records| - 1
  {
    var lines := CsvLines(records);
    forall i | 0 <= i < |lines|
      ensures BreakFree(lines[i]) && !Blank(lines[i])
    {
      CsvLineBreakFree(records[i]);
      CsvLineNotBlank(records[i]);
    }
    assert [lines[0]] + lines[1..] == lines;
    CountsDataRows(lines[0], lines[1..], "\r\n");
  }

  /** A date in `YYYY-MM-DD` form holds digits and dashes only. */
  lemma IsoDateBreakFree(date: string)
    requires IsIsoDate(date)
    ensures BreakFree(date) && PlainStem(date)
  {
  }

  /** A rendered timestamp has no line break when its date and offset have none. */
  lemma IsoBreakFree(s: Stamp)
    requires BreakFree(s.date) && (s.Aware? ==> BreakFree(s.offset))
    ensures BreakFree(Iso(s))
  {
    var clock := WallClock(s.minute);
    assert BreakFree(clock) by {
      forall i | 0 <= i < 8
        ensures !IsLineBreak(clock[i])
      {
        assert clock[i] == ':' || IsDigit(clock[i]);
      }
    }
    BreakFreeAppend(s.date, if s.Naive? then " " else "T");
    BreakFreeAppend(s.date + (if s.Naive? then " " else "T"), clock);
    if s.Aware? {
      BreakFreeAppend(s.date + "T" + clock, s.offset);
    }
  }

  /** Every text part of a row, and its rendered reading, is free of line breaks. */
  predicate RowBreakFree(r: Row, fmt: Reading -> string) {
    && BreakFree(r.ts.date) && (r.ts.Aware? ==> BreakFree(r.ts.offset))
    && BreakFree(r.tz) && BreakFree(r.siteId) && BreakFree(r.metric)
    && BreakFree(fmt(r.value)) && (r.Folded? ==> BreakFree(r.fold))
  }

  /** Such a row renders to fields without line breaks. */
  lemma FieldsBreakFree(r: Row, fmt: Reading -> string)
    requires RowBreakFree(r, fmt)
    ensures forall j :: 0 <= j < |Fields(r, fmt)| ==> BreakFree(Fields(r, fmt)[j])
  {
    IsoBreakFree(r.ts);
  }

  /** The site, metric, zone and header names of the fixtures have no line break. */
  lemma FixtureTextBreakFree()
    ensures BreakFree(SiteId) && BreakFree(Metric) && BreakFree(TZ)
    ensures forall j :: 0 <= j < |Header| ==> BreakFree(Header[j])
    ensures forall j :: 0 <= j < |FoldHeader| ==> BreakFree(FoldHeader[j])
    ensures PlainStem(SiteId) && PlainStem("_")
    ensures PlainStem("regular") && PlainStem("dst_spring") && PlainStem("dst_fall")
  {
  }

  /** The text of a file written by `write_csv` counts one row per generated row. */
  lemma WrittenRowsCount(header: seq<string>, rows: seq<Row>, fmt: Reading -> string)
    requires |header| >= 2 && forall j :: 0 <= j < |header| ==> BreakFree(header[j])
    requires forall i :: 0 <= i < |rows| ==> RowBreakFree(rows[i], fmt)
    ensures RowCount(CsvText(CsvRecords(header, rows, fmt))) == |rows|
  {
    var records := CsvRecords(header, rows, fmt);
    forall i | 0 < i < |records|
      ensures |records[i]| >= 2
      ensures forall j :: 0 <= j < |records[i]| ==> BreakFree(records[i][j])
    {
      assert records[i] == Fields(rows[i - 1], fmt);
      FieldsBreakFree(rows[i - 1], fmt);
    }
    WrittenFileRowCount(records);
  }

  /** A fixture's stem has no slash and no dot. */
  lemma FixtureStemPlain(kind: string, date: string)
    requires PlainStem(kind) && IsIsoDate(date)
    ensures PlainStem(FixtureStem(SiteId, kind, date))
  {
    FixtureTextBreakFree();
    IsoDateBreakFree(date);
    PlainStemAppend(SiteId, "_");
    PlainStemAppend(SiteId + "_", kind);
    PlainStemAppend(SiteId + "_" + kind, "_");
    PlainStemAppend(SiteId + "_" + kind + "_", date);
  }

  /**
   * A fixture of `kind` written with `header` and `rows`, uploaded as
   * `raw/<its file name>`: the handler reports its rows under
   * `<prefix><its stem>_summary.json`, in the source bucket.
   */
  lemma UploadSummary(env: map<string, string>, bucket: string, kind: string, date: string,
                      header: seq<string>, rows: seq<Row>, fmt: Reading -> string)
    requires PlainStem(kind) && IsIsoDate(date)
    requires |header| >= 2 && forall j :: 0 <= j < |header| ==> BreakFree(header[j])
    requires forall i :: 0 <= i < |rows| ==> RowBreakFree(rows[i], fmt)
    ensures var o := Handle(env, bucket, "raw/" + FixtureName(SiteId, kind, date),
                            CsvText(CsvRecords(header, rows, fmt)));
      && o.body.rows == |rows| && o.outBucket == bucket
      && o.outKey == AggPrefix(env) + FixtureStem(SiteId, kind, date) + "_summary.json"
  {
    WrittenRowsCount(header, rows, fmt);
    FixtureStemPlain(kind, date);
    var stem := FixtureStem(SiteId, kind, date);
    assert "raw/" + FixtureName(SiteId, kind, date) == "raw/" + stem + ".csv";
    OutKeyOfUpload(AggPrefix(env), FixtureStem(SiteId, kind, date));
  }

  /**
   * The regular fixture of `main`, uploaded under `raw/`: the handler reports its
   * 96 rows under `<prefix>FR001_regular_2024-12-01_summary.json`, provided the
   * rendered readings and UTC offsets hold no line break.
   */
  lemma RegularUploadSummary(env: map<string, string>, bucket: string, offset: int -> string,
                             draw: nat -> Unit, pos: nat, fmt: Reading -> string)
    requires forall m :: BreakFree(offset(m))
    requires forall v :: BreakFree(fmt(v))
    ensures var o := Handle(env, bucket, "raw/" + FixtureName(SiteId, "regular", RegularDate),
                            CsvText(CsvRecords(Header, RegularRows(RegularDay, offset, draw, pos), fmt)));
      && o.body.rows == 96
      && o.outKey == AggPrefix(env) + FixtureStem(SiteId, "regular", RegularDate) + "_summary.json"
  {
    var rows := RegularRows(RegularDay, offset, draw, pos);
    FixtureDatesValid();
    IsoDateBreakFree(RegularDate);
    FixtureTextBreakFree();
    assert forall i :: 0 <= i < |rows| ==> RowBreakFree(rows[i], fmt);
    UploadSummary(env, bucket, "regular", RegularDate, Header, rows, fmt);
  }

  /**
   * The spring-forward fixture of `main`, uploaded under `raw/`: the handler reports
   * its 96 rows, provided the rendered readings hold no line break.
   */
  lemma SpringUploadSummary(env: map<string, string>, bucket: string,
                            draw: nat -> Unit, pos: nat, fmt: Reading -> string)
    requires forall v :: BreakFree(fmt(v))
    ensures var o := Handle(env, bucket, "raw/" + FixtureName(SiteId, "dst_spring", SpringDate),
                            CsvText(CsvRecords(Header, SpringRows(SpringDay, draw, pos), fmt)));
      && o.body.rows == 96
      && o.outKey == AggPrefix(env) + FixtureStem(SiteId, "dst_spring", SpringDate) + "_summary.json"
  {
    var rows := SpringRows(SpringDay, draw, pos);
    FixtureDatesValid();
    IsoDateBreakFree(SpringDate);
    FixtureTextBreakFree();
    assert forall i :: 0 <= i < |rows| ==> RowBreakFree(rows[i], fmt);
    UploadSummary(env, bucket, "dst_spring", SpringDate, Header, rows, fmt);
  }

  /**
   * The fall-back fixture of `main`, uploaded under `raw/`: the handler reports its
   * 100 rows, the repeated hour counted twice, provided the rendered readings hold
   * no line break.
   */
  lemma FallUploadSummary(env: map<string, string>, bucket: string,
                          draw: nat -> Unit, pos: nat, fmt: Reading -> string)
    requires forall v :: BreakFree(fmt(v))
    ensures var o := Handle(env, bucket, "raw/" + FixtureName(SiteId, "dst_fall", FallDate),
                            CsvText(CsvRecords(FoldHeader, FallBackRows(FallDay, draw, pos, StepCount(DefaultFreqMin)), fmt)));
      && o.body.rows == 100
      && o.outKey == AggPrefix(env) + FixtureStem(SiteId, "dst_fall", FallDate) + "_summary.json"
  {
    var rows := FallBackRows(FallDay, draw, pos, StepCount(DefaultFreqMin));
    FixtureDatesValid();
    FixtureTextBreakFree();
    FallBackCountQuarterHour(FallDay, draw, pos);
    FallRowsBreakFree(draw, pos, fmt);
    UploadSummary(env, bucket, "dst_fall", FallDate, FoldHeader, rows, fmt);
  }

  /** The fall-back rows hold no line break when the rendered readings hold none. */
  lemma FallRowsBreakFree(draw: nat -> Unit, pos: nat, fmt: Reading -> string)
    requires forall v :: BreakFree(fmt(v))
    ensures var rows := FallBackRows(FallDay, draw, pos, StepCount(DefaultFreqMin));
      forall i :: 0 <= i < |rows| ==> RowBreakFree(rows[i], fmt)
  {
    FixtureDatesValid();
    IsoDateBreakFree(FallDate);
    FixtureTextBreakFree();
    FallBackRowsWellFormed(FallDay, draw, pos, StepCount(DefaultFreqMin));
    assert "0" == ['0'] && "1" == ['1'];
  }
}

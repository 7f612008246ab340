/**
 * The two computations of the ingestion handler in `app/handler.py`: how many data
 * rows an uploaded CSV body has, and under which key its summary is written.
 *
 * The body is the already decoded text. Fetching the object, decoding it, writing
 * the summary and logging are not modelled; `Handle` returns what the handler
 * writes and answers as a value.
 */
module Summary {

  // ---------------------------------------------------------------------------
  // Lines of a body, as `str.splitlines` cuts them

  /** The characters `str.splitlines` breaks at; "\r\n" is one break. */
  predicate IsLineBreak(c: char) {
    || c == '\n' || c == '\r' || c == '\U{B}' || c == '\U{C}'
    || c == '\U{1C}' || c == '\U{1D}' || c == '\U{1E}' || c == '\U{85}'
    || c == '\U{2028}' || c == '\U{2029}'
  }

  /** The characters `str.isspace` accepts, which `str.strip` removes. */
  predicate IsSpace(c: char) {
    || c == '\t' || c == '\n' || c == '\U{B}' || c == '\U{C}' || c == '\r'
    || ('\U{1C}' <= c <= '\U{1F}') || c == ' ' || c == '\U{85}' || c == '\U{A0}'
    || c == '\U{1680}' || ('\U{2000}' <= c <= '\U{200A}') || c == '\U{2028}' || c == '\U{2029}'
    || c == '\U{202F}' || c == '\U{205F}' || c == '\U{3000}'
  }

  /** Every line break is also whitespace. */
  lemma BreaksAreSpace(c: char)
    requires IsLineBreak(c)
    ensures IsSpace(c)
  {
  }

  predicate BreakFree(s: string) {
    forall i :: 0 <= i < |s| ==> !IsLineBreak(s[i])
  }

  /** The index of the first line break in s, if any. */
  function FirstBreak(s: string): (i: int)
    ensures -1 <= i < |s|
    ensures i == -1 ==> BreakFree(s)
    ensures 0 <= i ==> IsLineBreak(s[i]) && BreakFree(s[..i])
  {
    if s == [] then -1
    else if IsLineBreak(s[0]) then 0
    else
      var j := FirstBreak(s[1..]);
      assert forall k :: 0 < k < |s| ==> s[k] == s[1..][k - 1];
      if j == -1 then -1 else j + 1
  }

  /** How many characters the break at index i takes: two for "\r\n", one otherwise. */
  function BreakWidth(s: string, i: nat): nat
    requires i < |s|
  {
    if s[i] == '\r' && i + 1 < |s| && s[i + 1] == '\n' then 2 else 1
  }

  /**
   * `body.splitlines()`: the text between line breaks, with no empty line after a
   * final break and none at all for the empty string.
   */
  function SplitLines(s: string): seq<string>
    decreases |s|
  {
    var i := FirstBreak(s);
    if s == [] then []
    else if i == -1 then [s]
    else [s[..i]] + SplitLines(s[i + BreakWidth(s, i)..])
  }

  /** No line `splitlines` returns contains a line break. */
  lemma {:induction false} SplitLinesBreakFree(s: string)
    ensures forall line :: line in SplitLines(s) ==> BreakFree(line)
    decreases |s|
  {
    var i := FirstBreak(s);
    if s != [] && i != -1 {
      SplitLinesBreakFree(s[i + BreakWidth(s, i)..]);
    }
  }

  /** Every line `splitlines` returns consists of characters of the text. */
  lemma {:induction false} SplitLinesWithin(s: string)
    ensures forall line, c :: line in SplitLines(s) && c in line ==> c in s
    decreases |s|
  {
    var i := FirstBreak(s);
    if s != [] && i != -1 {
      var rest := s[i + BreakWidth(s, i)..];
      SplitLinesWithin(rest);
      forall line, c | line in SplitLines(s) && c in line
        ensures c in s
      {
        if line != s[..i] {
          assert line in SplitLines(rest);
          assert c in rest;
        }
      }
    }
  }

  /** The lines, each followed by `terminator`: what a writer puts in a file. */
  function Terminated(lines: seq<string>, terminator: string): string {
    if lines == [] then [] else lines[0] + terminator + Terminated(lines[1..], terminator)
  }

  /** The line endings a writer may use and `splitlines` reads as one break. */
  predicate IsTerminator(t: string) {
    t == "\n" || t == "\r\n" || t == "\r"
  }

  /**
   * Splitting text written line by line gives the lines back, whichever of "\n",
   * "\r\n" (the `csv` module's) or "\r" ended them.
   */
  lemma {:induction false} SplitTerminated(lines: seq<string>, terminator: string)
    requires IsTerminator(terminator)
    requires forall line :: line in lines ==> BreakFree(line)
    ensures SplitLines(Terminated(lines, terminator)) == lines
  {
    if lines != [] {
      assert lines[0] in lines;
      if |lines| > 1 {
        TerminatedStart(lines[1..], terminator);
        assert lines[1] in lines;
        if lines[1] != [] {
          assert !IsLineBreak(lines[1][0]);
        }
      }
      var rest := Terminated(lines[1..], terminator);
      SplitLinesStep(lines[0], terminator, rest);
      SplitTerminated(lines[1..], terminator);
      calc {
        SplitLines(Terminated(lines, terminator));
        SplitLines(lines[0] + terminator + rest);
        [lines[0]] + SplitLines(rest);
        [lines[0]] + lines[1..];
        lines;
      }
    }
  }

  /** A line, its terminator and the rest split into that line and the lines of the rest. */
  lemma SplitLinesStep(line: string, terminator: string, rest: string)
    requires IsTerminator(terminator) && BreakFree(line)
    requires terminator == "\r" && rest != [] ==> rest[0] != '\n'
    ensures SplitLines(line + terminator + rest) == [line] + SplitLines(rest)
  {
    var s := line + terminator + rest;
    assert s[..|line|] == line;
    assert s[|line|] == terminator[0];
    FirstBreakAt(s, |line|);
    assert BreakWidth(s, |line|) == |terminator|;
    assert s[|line| + |terminator|..] == rest;
  }

  /** The first break of s is at i when s has none before i and one at i. */
  lemma {:induction false} FirstBreakAt(s: string, i: nat)
    requires i < |s| && IsLineBreak(s[i]) && BreakFree(s[..i])
    ensures FirstBreak(s) == i
  {
    if i > 0 {
      assert s[..i][0] == s[0];
      assert s[1..][..i - 1] == s[1..i];
      forall k | 0 <= k < i - 1
        ensures !IsLineBreak(s[1..i][k])
      {
        assert s[1..i][k] == s[..i][k + 1];
      }
      FirstBreakAt(s[1..], i - 1);
    }
  }

  /** Written text starts with its first line, or with a break when that line is empty. */
  lemma TerminatedStart(lines: seq<string>, terminator: string)
    requires IsTerminator(terminator) && lines != []
    requires forall line :: line in lines ==> BreakFree(line)
    ensures Terminated(lines, terminator) != []
    ensures lines[0] != [] ==> Terminated(lines, terminator)[0] == lines[0][0]
    ensures lines[0] == [] ==> Terminated(lines, terminator)[0] == terminator[0]
  {
    if lines[0] != [] {
      assert lines[0] in lines;
    }
  }

  // ---------------------------------------------------------------------------
  // The data-row count

  /** `line.strip()` is empty: the line holds whitespace only. */
  predicate Blank(line: string) {
    forall i :: 0 <= i < |line| ==> IsSpace(line[i])
  }

  /** `[line for line in lines if line.strip()]`. */
  function NonBlank(lines: seq<string>): (kept: seq<string>)
    ensures |kept| <= |lines|
    ensures forall line :: line in kept ==> line in lines && !Blank(line)
  {
    if lines == [] then []
    else if Blank(lines[0]) then NonBlank(lines[1..])
    else [lines[0]] + NonBlank(lines[1..])
  }

  /** `max(0, len(lines) - 1)`: the non-blank lines less the header. */
  function RowCount(body: string): nat {
    var n := |NonBlank(SplitLines(body))|;
    if n > 0 then n - 1 else 0
  }

  /** Filtering distributes over concatenation. */
  lemma {:induction false} NonBlankAppend(a: seq<string>, b: seq<string>)
    ensures NonBlank(a + b) == NonBlank(a) + NonBlank(b)
  {
    if a == [] {
      assert a + b == b;
    } else {
      assert (a + b)[0] == a[0] && (a + b)[1..] == a[1..] + b;
      NonBlankAppend(a[1..], b);
    }
  }

  /** Lines that are all non-blank are all kept, in order. */
  lemma {:induction false} NonBlankKeepsAll(lines: seq<string>)
    requires forall line :: line in lines ==> !Blank(line)
    ensures NonBlank(lines) == lines
  {
    if lines != [] {
      NonBlankKeepsAll(lines[1..]);
    }
  }

  /** Lines that are all blank are all dropped. */
  lemma {:induction false} NonBlankDropsAll(lines: seq<string>)
    requires forall line :: line in lines ==> Blank(line)
    ensures NonBlank(lines) == []
  {
    if lines != [] {
      NonBlankDropsAll(lines[1..]);
    }
  }

  /** A body of whitespace only, the empty body included, has no data row. */
  lemma BlankBodyHasNoRows(body: string)
    requires Blank(body)
    ensures RowCount(body) == 0
  {
    var lines := SplitLines(body);
    SplitLinesWithin(body);
    forall line | line in lines
      ensures Blank(line)
    {
      forall i | 0 <= i < |line|
        ensures IsSpace(line[i])
      {
        assert line[i] in line;
      }
    }
    NonBlankDropsAll(lines);
  }

  /**
   * A file written as a header line and one line per data row, none of them blank,
   * counts exactly its data rows.
   */
  lemma CountsDataRows(header: string, rows: seq<string>, terminator: string)
    requires IsTerminator(terminator)
    requires forall line :: line in [header] + rows ==> BreakFree(line) && !Blank(line)
    ensures RowCount(Terminated([header] + rows, terminator)) == |rows|
  {
    SplitTerminated([header] + rows, terminator);
    NonBlankKeepsAll([header] + rows);
  }

  /** A blank line anywhere in a file does not change the count. */
  lemma BlankLineIgnored(before: seq<string>, blank: string, after: seq<string>, terminator: string)
    requires IsTerminator(terminator) && Blank(blank)
    requires forall line :: line in before + [blank] + after ==> BreakFree(line)
    ensures RowCount(Terminated(before + [blank] + after, terminator))
         == RowCount(Terminated(before + after, terminator))
  {
    SplitTerminated(before + [blank] + after, terminator);
    SplitTerminated(before + after, terminator);
    NonBlankAppend(before + [blank], after);
    NonBlankAppend(before, [blank]);
    NonBlankAppend(before, after);
    assert NonBlank([blank]) == [];
  }

  // ---------------------------------------------------------------------------
  // The summary key

  /** The default of the `AGG_PREFIX` environment variable. */
  const DefaultAggPrefix: string := "agg/"

  /** `os.environ.get("AGG_PREFIX", "agg/")`. */
  function AggPrefix(env: map<string, string>): string {
    if "AGG_PREFIX" in env then env["AGG_PREFIX"] else DefaultAggPrefix
  }

  /** `pat` occurs in s at index i. */
  predicate OccursAt(s: string, pat: string, i: int) {
    0 <= i && i + |pat| <= |s| && s[i..i + |pat|] == pat
  }

  /**
   * `s.replace(pat, '')`: one left-to-right pass that deletes each occurrence of
   * `pat` it meets and resumes after it, so occurrences never overlap.
   */
  function RemoveAll(s: string, pat: string): (r: string)
    requires pat != []
    ensures |r| <= |s|
    decreases |s|
  {
    if |s| < |pat| then s
    else if s[..|pat|] == pat then RemoveAll(s[|pat|..], pat)
    else [s[0]] + RemoveAll(s[1..], pat)
  }

  /** The pass changes nothing exactly when `pat` does not occur. */
  lemma {:induction false} RemoveAllUnchanged(s: string, pat: string)
    requires pat != []
    ensures RemoveAll(s, pat) == s <==> forall i :: !OccursAt(s, pat, i)
    decreases |s|
  {
    if |s| < |pat| {
    } else if s[..|pat|] == pat {
      assert OccursAt(s, pat, 0);
      assert |RemoveAll(s[|pat|..], pat)| < |s|;
    } else {
      RemoveAllUnchanged(s[1..], pat);
      assert !OccursAt(s, pat, 0);
      forall i
        ensures OccursAt(s[1..], pat, i) <==> OccursAt(s, pat, i + 1)
      {
        if 0 <= i && i + |pat| <= |s[1..]| {
          var a, b := s[1..][i..i + |pat|], s[i + 1..i + 1 + |pat|];
          forall j | 0 <= j < |pat|
            ensures a[j] == b[j]
          {
            assert a[j] == s[i + 1 + j];
          }
          assert a == b;
        }
      }
      assert (forall i :: !OccursAt(s, pat, i)) <==> (forall i :: !OccursAt(s[1..], pat, i)) by {
        forall i | OccursAt(s, pat, i)
          ensures OccursAt(s[1..], pat, i - 1)
        {
        }
      }
      assert RemoveAll(s, pat)[1..] == RemoveAll(s[1..], pat);
    }
  }

  /** `f"{AGG_PREFIX}{key.replace('raw/', '').replace('.csv', '')}_summary.json"`. */
  function OutKey(aggPrefix: string, key: string): (out: string)
    ensures |out| == |aggPrefix| + |RemoveAll(RemoveAll(key, "raw/"), ".csv")| + 13
    ensures out[..|aggPrefix|] == aggPrefix
    ensures out[|out| - 13..] == "_summary.json"
  {
    aggPrefix + RemoveAll(RemoveAll(key, "raw/"), ".csv") + "_summary.json"
  }

  /** A key with neither "raw/" nor ".csv" in it is kept whole between prefix and suffix. */
  lemma OutKeyPlain(aggPrefix: string, key: string)
    requires forall i :: !OccursAt(key, "raw/", i) && !OccursAt(key, ".csv", i)
    ensures OutKey(aggPrefix, key) == aggPrefix + key + "_summary.json"
  {
    RemoveAllUnchanged(key, "raw/");
    RemoveAllUnchanged(key, ".csv");
  }

  /** Removing `pat` from `s + pat` leaves s when no occurrence starts inside s. */
  lemma {:induction false} RemoveAllSuffix(s: string, pat: string)
    requires pat != []
    requires forall i :: 0 <= i < |s| ==> !OccursAt(s + pat, pat, i)
    ensures RemoveAll(s + pat, pat) == s
    decreases |s|
  {
    if s == [] {
      assert (s + pat)[..|pat|] == pat;
      assert (s + pat)[|pat|..] == [];
    } else {
      assert !OccursAt(s + pat, pat, 0);
      assert (s + pat)[1..] == s[1..] + pat;
      forall i | 0 <= i < |s[1..]|
        ensures !OccursAt(s[1..] + pat, pat, i)
      {
        assert !OccursAt(s + pat, pat, i + 1);
        assert (s + pat)[i + 1..i + 1 + |pat|] == (s[1..] + pat)[i..i + |pat|];
      }
      RemoveAllSuffix(s[1..], pat);
      assert [s[0]] + s[1..] == s;
    }
  }

  /** A file name stem with neither a slash nor a dot in it. */
  predicate PlainStem(stem: string) {
    forall i :: 0 <= i < |stem| ==> stem[i] != '/' && stem[i] != '.'
  }

  /** Plain stems joined are plain. */
  lemma PlainStemAppend(a: string, b: string)
    requires PlainStem(a) && PlainStem(b)
    ensures PlainStem(a + b)
  {
    forall i | 0 <= i < |a + b|
      ensures (a + b)[i] != '/' && (a + b)[i] != '.'
    {
      if i >= |a| {
        assert (a + b)[i] == b[i - |a|];
      }
    }
  }

  /**
   * An upload `raw/<stem>.csv`, whose stem has no slash and no dot, gets its
   * summary at `<prefix><stem>_summary.json`: folder and extension are dropped.
   */
  lemma OutKeyOfUpload(aggPrefix: string, stem: string)
    requires PlainStem(stem)
    ensures OutKey(aggPrefix, "raw/" + stem + ".csv") == aggPrefix + stem + "_summary.json"
  {
    var mid := stem + ".csv";
    var key := "raw/" + mid;
    assert "raw/" + stem + ".csv" == key;
    assert key[..4] == "raw/" && key[4..] == mid;
    forall i
      ensures !OccursAt(mid, "raw/", i)
    {
      if 0 <= i && i + 4 <= |mid| {
        assert mid[i..i + 4][3] == mid[i + 3];
      }
    }
    RemoveAllUnchanged(mid, "raw/");
    forall i | 0 <= i < |stem|
      ensures !OccursAt(stem + ".csv", ".csv", i)
    {
      if i + 4 <= |mid| {
        assert mid[i..i + 4][0] == mid[i];
      }
    }
    RemoveAllSuffix(stem, ".csv");
  }

  /**
   * The pass is single: an occurrence that only forms once another is deleted
   * stays, so "raraw/w/" keeps a "raw/".
   */
  lemma RemoveAllSinglePass()
    ensures RemoveAll("raraw/w/", "raw/") == "raw/"
  {
    var s := "raraw/w/";
    assert s[..4][3] == 'a' && "raw/"[3] == '/';
    assert s[1..][..4][0] == 'a' && "raw/"[0] == 'r';
    assert s[..4] != "raw/" && s[1..][..4] != "raw/" && s[2..][..4] == "raw/";
    assert s[1..][1..] == s[2..] && s[2..][4..] == "w/";
  }

  // ---------------------------------------------------------------------------
  // The handler

  /** The summary document: source bucket and key, and the data-row count. */
  datatype Report = Report(sourceBucket: string, sourceKey: string, rows: nat)

  /** What one invocation does: the object it writes and the response it returns. */
  datatype Outcome = Outcome(outBucket: string, outKey: string, written: Report, statusCode: int, body: Report)

  /**
   * `handler` for an upload of `body` at `bucket`/`key`: it writes the summary next
   * to the source, under the derived key, and returns it with status 200.
   */
  function Handle(env: map<string, string>, bucket: string, key: string, body: string): Outcome {
    var report := Report(bucket, key, RowCount(body));
    Outcome(bucket, OutKey(AggPrefix(env), key), report, 200, report)
  }

  /**
   * The handler answers 200 with the summary it wrote, which names the source and
   * lives in the source bucket under the aggregate prefix.
   */
  lemma HandleEchoesSource(env: map<string, string>, bucket: string, key: string, body: string)
    ensures var o := Handle(env, bucket, key, body);
      && o.statusCode == 200 && o.body == o.written && o.outBucket == bucket
      && o.body.sourceBucket == bucket && o.body.sourceKey == key
      && o.outKey[..|AggPrefix(env)|] == AggPrefix(env)
      && o.outKey[|o.outKey| - 13..] == "_summary.json"
  {
  }

  /** An upload written as a header and data lines, none blank, reports its data rows. */
  lemma HandleCountsUpload(env: map<string, string>, bucket: string, key: string,
                           header: string, rows: seq<string>, terminator: string)
    requires IsTerminator(terminator)
    requires forall line :: line in [header] + rows ==> BreakFree(line) && !Blank(line)
    ensures Handle(env, bucket, key, Terminated([header] + rows, terminator)).body.rows == |rows|
  {
    CountsDataRows(header, rows, terminator);
  }
}

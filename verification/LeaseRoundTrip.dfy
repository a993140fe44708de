/** Parsing inverts printing: a padded lease table reads back as the rows it was printed from. */
module LeaseRoundTrip {
  import opened Text
  import opened LeaseTable

  // ── printing ───────────────────────────────────────────────────────────────

  function Spaces(n: nat): (s: string)
    ensures |s| == n && forall i | 0 <= i < n :: s[i] == ' '
  {
    seq(n, i => ' ')
  }

  predicate Fit(cells: seq<string>, pitches: seq<nat>) {
    |cells| == |pitches| && forall i | 0 <= i < |cells| :: |cells[i]| <= pitches[i]
  }

  function Pad(cell: string, pitch: nat): (s: string)
    requires |cell| <= pitch
    ensures |s| == pitch
  {
    cell + Spaces(pitch - |cell|)
  }

  function Body(cells: seq<string>, pitches: seq<nat>): string
    requires Fit(cells, pitches)
    decreases cells
  {
    if cells == [] then ""
    else
      assert forall i | 0 <= i < |cells[1..]| :: cells[1..][i] == cells[i + 1] && pitches[1..][i] == pitches[i + 1];
      Pad(cells[0], pitches[0]) + Body(cells[1..], pitches[1..])
  }

  /** A line is the padded cells after `lead` spaces, with none, some or all of its trailing blanks dropped. */
  ghost predicate Printed(line: string, lead: nat, cells: seq<string>, pitches: seq<nat>) {
    Fit(cells, pitches) && exists n: nat :: line + Spaces(n) == Spaces(lead) + Body(cells, pitches)
  }

  function Offsets(at: nat, pitches: seq<nat>): (offsets: seq<nat>)
    ensures |offsets| == |pitches|
    decreases pitches
  {
    if pitches == [] then [] else [at] + Offsets(at + pitches[0], pitches[1..])
  }

  predicate Positive(pitches: seq<nat>) {
    forall i | 0 <= i < |pitches| :: pitches[i] > 0
  }

  lemma {:induction false} OffsetsAscend(at: nat, pitches: seq<nat>)
    requires Positive(pitches)
    ensures Ascending(Offsets(at, pitches)) && forall i | 0 <= i < |pitches| :: Offsets(at, pitches)[i] >= at
    decreases pitches
  {
    if pitches != [] {
      OffsetsAscend(at + pitches[0], pitches[1..]);
    }
  }

  // ── fields ─────────────────────────────────────────────────────────────────

  lemma {:induction false} BodyCut(prefix: string, cells: seq<string>, pitches: seq<nat>, c: nat)
    requires Fit(cells, pitches) && Positive(pitches) && c < |cells|
    ensures Ascending(Offsets(|prefix|, pitches))
    ensures Cut(prefix + Body(cells, pitches), Offsets(|prefix|, pitches), c) == Pad(cells[c], pitches[c])
    decreases c
  {
    OffsetsAscend(|prefix|, pitches);
    var first, rest := Pad(cells[0], pitches[0]), Body(cells[1..], pitches[1..]);
    var line, starts := prefix + Body(cells, pitches), Offsets(|prefix|, pitches);
    assert line == prefix + first + rest;
    assert starts[1..] == Offsets(|prefix + first|, pitches[1..]);
    if c == 0 {
      if |cells| > 1 {
        assert starts[1] == |prefix| + pitches[0];
        assert line[|prefix|..|prefix + first|] == first;
      } else {
        assert rest == "" && line[|prefix|..] == first;
      }
    } else {
      BodyCut(prefix + first, cells[1..], pitches[1..], c - 1);
      assert Cut(line, starts, c) == Cut(line, starts[1..], c - 1);
    }
  }

  lemma TrimSpace(s: string)
    ensures Trim(s + " ") == Trim(s)
    decreases |s|
  {
    var t := s + " ";
    if s == "" {
      assert Trim(t) == Trim(t[1..]);
    } else if IsSpace(s[0]) {
      TrimSpace(s[1..]);
      assert t[1..] == s[1..] + " ";
    } else {
      assert t[..|t| - 1] == s;
    }
  }

  lemma {:induction false} TrimSpaces(s: string, n: nat)
    ensures Trim(s + Spaces(n)) == Trim(s)
    decreases n
  {
    if n == 0 {
      assert s + Spaces(0) == s;
    } else {
      TrimSpaces(s, n - 1);
      TrimSpace(s + Spaces(n - 1));
      assert s + Spaces(n) == s + Spaces(n - 1) + " ";
    }
  }

  /** Trailing blanks do not matter to a field, even when the line ends before its column. */
  lemma BlanksDropped(line: string, n: nat, starts: seq<nat>, c: nat)
    requires Ascending(starts) && c < |starts|
    ensures Field(line + Spaces(n), starts, c) == Field(line, starts, c)
  {
    var short, long := Cut(line, starts, c), Cut(line + Spaces(n), starts, c);
    assert long == short + Spaces(|long| - |short|);
    TrimSpaces(short, |long| - |short|);
  }

  ghost predicate AllTrimmed(cells: seq<string>) {
    forall i | 0 <= i < |cells| :: Trimmed(cells[i])
  }

  /** The fields of a printed line are its cells. */
  lemma PrintedFields(line: string, lead: nat, cells: seq<string>, pitches: seq<nat>)
    requires Printed(line, lead, cells, pitches) && Positive(pitches) && AllTrimmed(cells)
    ensures Ascending(Offsets(lead, pitches)) && FieldsOf(line, Offsets(lead, pitches)) == cells
  {
    hide Cut, Body, Trim;
    var starts := Offsets(lead, pitches);
    OffsetsAscend(lead, pitches);
    var n: nat :| line + Spaces(n) == Spaces(lead) + Body(cells, pitches);
    forall c | 0 <= c < |cells|
      ensures Field(line, starts, c) == cells[c]
    {
      BlanksDropped(line, n, starts, c);
      BodyCut(Spaces(lead), cells, pitches, c);
      TrimSpaces(cells[c], pitches[c] - |cells[c]|);
      assert Trimmed(cells[c]);
    }
  }

  // ── the separator ──────────────────────────────────────────────────────────

  function Dashes(n: nat): (s: string)
    ensures |s| == n && forall i | 0 <= i < n :: s[i] == '-'
  {
    seq(n, i => '-')
  }

  function DashCells(runs: seq<nat>): (cells: seq<string>)
    ensures |cells| == |runs| && forall i | 0 <= i < |runs| :: cells[i] == Dashes(runs[i])
  {
    seq(|runs|, i requires 0 <= i < |runs| => Dashes(runs[i]))
  }

  /** Each column is underlined by at least one dash and followed by at least one space. */
  predicate Underlines(runs: seq<nat>, pitches: seq<nat>) {
    |runs| == |pitches| && forall i | 0 <= i < |runs| :: 1 <= runs[i] < pitches[i]
  }

  /** One underlined column adds its own start. */
  lemma OneRun(line: string, at: nat, run: nat, pitch: nat)
    requires 1 <= run < pitch && at + pitch <= |line|
    requires forall k | at <= k < at + pitch :: line[k] == if k < at + run then '-' else ' '
    requires at > 0 ==> line[at - 1] != '-'
    ensures StartsFrom(line, at) == [at] + StartsFrom(line, at + pitch)
  {
    NoStarts(line, at + 1, at + pitch);
  }

  lemma {:induction false} BodyStarts(prefix: string, runs: seq<nat>, pitches: seq<nat>)
    requires Underlines(runs, pitches)
    requires prefix == "" || prefix[|prefix| - 1] != '-'
    ensures StartsFrom(prefix + Body(DashCells(runs), pitches), |prefix|) == Offsets(|prefix|, pitches)
    decreases runs
  {
    hide StartsFrom;
    var cells := DashCells(runs);
    if runs == [] {
      NoColumnsLeft(prefix + Body(cells, pitches));
    } else {
      var first, rest := Pad(cells[0], pitches[0]), Body(cells[1..], pitches[1..]);
      var line, at := prefix + Body(cells, pitches), |prefix|;
      assert cells[1..] == DashCells(runs[1..]);
      assert line == prefix + first + rest;
      BodyStarts(prefix + first, runs[1..], pitches[1..]);
      OneRun(line, at, runs[0], pitches[0]);
    }
  }

  lemma NoColumnsLeft(line: string)
    ensures StartsFrom(line, |line|) == []
  {
  }

  lemma {:induction false} StartsBlanks(line: string, n: nat, i: nat)
    requires i <= |line|
    ensures StartsFrom(line + Spaces(n), i) == StartsFrom(line, i)
    decreases |line| - i
  {
    var long := line + Spaces(n);
    if i == |line| {
      NoStarts(long, i, |long|);
    } else {
      StartsBlanks(line, n, i + 1);
      assert RunStart(long, i) <==> RunStart(line, i);
    }
  }

  /** The columns found under a printed separator are the printed ones. */
  lemma SeparatorStarts(sep: string, lead: nat, runs: seq<nat>, pitches: seq<nat>)
    requires Printed(sep, lead, DashCells(runs), pitches) && Underlines(runs, pitches)
    ensures StartsFrom(sep, 0) == Offsets(lead, pitches)
  {
    hide Body;
    var n: nat :| sep + Spaces(n) == Spaces(lead) + Body(DashCells(runs), pitches);
    var line := Spaces(lead) + Body(DashCells(runs), pitches);
    StartsBlanks(sep, n, 0);
    assert forall k | 0 <= k < lead :: line[k] == ' ';
    NoStarts(line, 0, lead);
    BodyStarts(Spaces(lead), runs, pitches);
  }

  lemma {:induction false} BodyDashed(runs: seq<nat>, pitches: seq<nat>)
    requires Underlines(runs, pitches)
    ensures forall c | c in Body(DashCells(runs), pitches) :: c == '-' || c == ' '
    ensures runs != [] ==> Body(DashCells(runs), pitches) != "" && Body(DashCells(runs), pitches)[0] == '-'
    decreases runs
  {
    if runs != [] {
      assert DashCells(runs)[1..] == DashCells(runs[1..]);
      BodyDashed(runs[1..], pitches[1..]);
    }
  }

  lemma PrintedSeparator(sep: string, lead: nat, runs: seq<nat>, pitches: seq<nat>)
    requires Printed(sep, lead, DashCells(runs), pitches) && Underlines(runs, pitches) && runs != []
    ensures Separator(sep)
  {
    hide Body, Trim;
    var body := Body(DashCells(runs), pitches);
    var n: nat :| sep + Spaces(n) == Spaces(lead) + body;
    var line := sep + Spaces(n);
    BodyDashed(runs, pitches);
    TrimSpaces(sep, n);
    TrimParts(line);
    assert line[lead] == body[0];
    assert '-' in Trim(line);
    forall i | 0 <= i < |Trim(line)|
      ensures Trim(line)[i] == '-' || Trim(line)[i] == ' '
    {
      var c := Trim(line)[i];
      assert c in line;
      var k :| 0 <= k < |line| && line[k] == c;
      assert k >= lead ==> c == body[k - lead] && c in body;
    }
  }

  // ── the table ──────────────────────────────────────────────────────────────

  /** A printed table: any preamble, the header, the separator and the rows, padded to the same columns. */
  ghost predicate PrintedTable(lines: seq<string>, before: nat, lead: nat, pitches: seq<nat>, runs: seq<nat>,
                               header: seq<string>, rows: seq<seq<string>>) {
    && |lines| == before + 2 + |rows|
    && runs != [] && Underlines(runs, pitches)
    && (forall k | 0 <= k <= before :: !Separator(lines[k]))
    && Printed(lines[before], lead, header, pitches) && AllTrimmed(header)
    && Printed(lines[before + 1], lead, DashCells(runs), pitches)
    && forall k | 0 <= k < |rows| :: Printed(lines[before + 2 + k], lead, rows[k], pitches) && AllTrimmed(rows[k])
  }

  /** The records of the rows that have an address. */
  function Listed(rows: seq<seq<string>>, cols: Columns): seq<Lease>
    requires forall k | 0 <= k < |rows| :: Within(cols, |rows[k]|)
  {
    if rows == [] then []
    else
      var record := RecordOf(rows[0], cols);
      (if record.Some? then [record.value] else []) + Listed(rows[1..], cols)
  }

  lemma {:induction false} RowsRead(lines: seq<string>, lead: nat, pitches: seq<nat>, rows: seq<seq<string>>, cols: Columns)
    requires Positive(pitches) && |lines| == |rows| && Within(cols, |pitches|)
    requires forall k | 0 <= k < |rows| :: Printed(lines[k], lead, rows[k], pitches) && AllTrimmed(rows[k])
    ensures forall k | 0 <= k < |rows| :: Within(cols, |rows[k]|)
    ensures Ascending(Offsets(lead, pitches))
    ensures Records(lines, Offsets(lead, pitches), cols) == Listed(rows, cols)
    decreases lines
  {
    hide Printed, AllTrimmed, RecordOf, Offsets, Ascending;
    OffsetsAscend(lead, pitches);
    forall k | 0 <= k < |rows|
      ensures Within(cols, |rows[k]|)
    {
      PrintedFields(lines[k], lead, rows[k], pitches);
    }
    if rows != [] {
      PrintedFields(lines[0], lead, rows[0], pitches);
      assert forall k | 0 <= k < |rows[1..]| :: rows[1..][k] == rows[k + 1] && lines[1..][k] == lines[k + 1];
      RowsRead(lines[1..], lead, pitches, rows[1..], cols);
    }
  }

  /** Parsing a printed table yields the record of every row with an address, in order. */
  lemma TableReads(lines: seq<string>, before: nat, lead: nat, pitches: seq<nat>, runs: seq<nat>,
                   header: seq<string>, rows: seq<seq<string>>)
    requires PrintedTable(lines, before, lead, pitches, runs, header, rows)
    ensures forall k | 0 <= k < |rows| :: Within(Locate(LabelsOf(header)), |rows[k]|)
    ensures Leases(lines) == Listed(rows, Locate(LabelsOf(header)))
  {
    hide Printed, AllTrimmed, Separator, Locate, Within, Records, Offsets, StartsFrom, Ascending, FieldsOf, LabelsOf;
    var sep := before + 1;
    PrintedSeparator(lines[sep], lead, runs, pitches);
    assert FindSeparator(lines) == sep;
    SeparatorStarts(lines[sep], lead, runs, pitches);
    PrintedFields(lines[before], lead, header, pitches);
    RowsRead(lines[sep + 1..], lead, pitches, rows, Locate(LabelsOf(header)));
  }

  // ── lines ──────────────────────────────────────────────────────────────────

  /** Every line ends with a newline or a carriage return and newline; the last one may do without if it is not empty. */
  predicate Endings(lines: seq<string>, ends: seq<string>) {
    && |ends| == |lines|
    && forall k | 0 <= k < |ends| ::
         ends[k] == "\n" || ends[k] == "\r\n" || (ends[k] == "" && k == |lines| - 1 && lines[k] != "")
  }

  function Joined(lines: seq<string>, ends: seq<string>): string
    requires |ends| == |lines|
    decreases lines
  {
    if lines == [] then "" else lines[0] + ends[0] + Joined(lines[1..], ends[1..])
  }

  predicate Plain(line: string) {
    '\n' !in line && (line != "" ==> line[|line| - 1] != '\r')
  }

  /** The lines of a text are the ones it was joined from. */
  lemma {:induction false} LinesOfJoined(lines: seq<string>, ends: seq<string>)
    requires Endings(lines, ends) && forall k | 0 <= k < |lines| :: Plain(lines[k])
    ensures Lines(Joined(lines, ends)) == lines
    decreases lines
  {
    hide FirstNewline, Joined, Lines, Plain;
    JoinedAre(lines, ends);
    if lines != [] {
      assert forall k | 0 <= k < |lines[1..]| :: lines[1..][k] == lines[k + 1] && ends[1..][k] == ends[k + 1];
      if ends[0] == "" {
        assert lines[1..] == [] && ends[1..] == [];
        JoinedAre(lines[1..], ends[1..]);
        assert lines[0] + "" + "" == lines[0];
        OnlyLine(lines[0]);
      } else {
        LinesOfJoined(lines[1..], ends[1..]);
        FirstLine(lines[0], ends[0], Joined(lines[1..], ends[1..]));
      }
    } else {
      assert Lines("") == [] by { NoLines(); }
    }
  }

  lemma NoLines()
    ensures Lines("") == []
  {
  }

  lemma JoinedAre(lines: seq<string>, ends: seq<string>)
    requires |ends| == |lines|
    ensures Joined(lines, ends) == if lines == [] then "" else lines[0] + ends[0] + Joined(lines[1..], ends[1..])
  {
  }

  /** A last line without an end is kept as it is. */
  lemma OnlyLine(line: string)
    requires Plain(line) && line != ""
    ensures Lines(line) == [line]
  {
    hide FirstNewline;
    assert FirstNewline(line) < |line| ==> '\n' in line;
  }

  lemma FirstLine(line: string, end: string, rest: string)
    requires Plain(line) && (end == "\n" || end == "\r\n")
    ensures Lines(line + end + rest) == [line] + Lines(rest)
  {
    hide FirstNewline;
    var text := line + end + rest;
    var n := |line| + |end| - 1;
    assert text[n] == end[|end| - 1] == '\n' && text[n + 1..] == rest;
    assert text[..n] == line + end[..|end| - 1];
    assert forall k | 0 <= k < |line| :: text[k] == line[k];
    NewlineAt(text, n);
    assert StripCr(text[..n]) == line;
  }

  lemma {:induction false} NewlineAt(text: string, n: nat)
    requires n < |text| && text[n] == '\n' && forall k | 0 <= k < n :: text[k] != '\n'
    ensures FirstNewline(text) == n
    decreases n
  {
    if n > 0 {
      NewlineAt(text[1..], n - 1);
    }
  }

  /**
   The round trip: a table printed with its columns padded at least as wide as their cells parses back into the records
   of its rows, whatever comes before the header, however the lines end and however many trailing blanks they lost.
   */
  lemma ParseInvertsPrint(lines: seq<string>, before: nat, lead: nat, pitches: seq<nat>, runs: seq<nat>,
                          header: seq<string>, rows: seq<seq<string>>, ends: seq<string>)
    requires PrintedTable(lines, before, lead, pitches, runs, header, rows) && Endings(lines, ends)
    requires forall k | 0 <= k < |lines| :: Plain(lines[k])
    ensures forall k | 0 <= k < |rows| :: Within(Locate(LabelsOf(header)), |rows[k]|)
    ensures Leases(Lines(Joined(lines, ends))) == Listed(rows, Locate(LabelsOf(header)))
  {
    hide PrintedTable, Leases, Within, Locate, LabelsOf;
    TableReads(lines, before, lead, pitches, runs, header, rows);
    LinesOfJoined(lines, ends);
  }
}

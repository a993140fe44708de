/** The fixed-width lease table: where its columns start, and the records read from its rows. */
module LeaseTable {
  import opened Options
  import opened Text

  datatype Lease = Lease(
    ip: string, mac: Option<string>, state: Option<string>, start: Option<string>, expiration: Option<string>,
    remaining: Option<string>, pool: Option<string>, hostname: Option<string>)

  /** The column of each field, found by its header label. */
  datatype Columns = Columns(
    ip: Option<nat>, mac: Option<nat>, state: Option<nat>, start: Option<nat>, expiration: Option<nat>,
    remaining: Option<nat>, pool: Option<nat>, hostname: Option<nat>)

  // ── lines ──────────────────────────────────────────────────────────────────

  function FirstNewline(text: string): (i: nat)
    ensures i <= |text| && '\n' !in text[..i] && (i < |text| ==> text[i] == '\n')
  {
    if text == "" || text[0] == '\n' then 0
    else
      var i := 1 + FirstNewline(text[1..]);
      assert text[..i] == [text[0]] + text[1..][..i - 1];
      i
  }

  function StripCr(line: string): string {
    if line != "" && line[|line| - 1] == '\r' then line[..|line| - 1] else line
  }

  /** Lines end at a newline or a carriage return and newline; the last one may do without. */
  function Lines(text: string): seq<string> {
    if text == "" then []
    else
      var i := FirstNewline(text);
      if i == |text| then [text] else [StripCr(text[..i])] + Lines(text[i + 1..])
  }

  // ── the separator ──────────────────────────────────────────────────────────

  predicate Dashed(s: string) {
    (forall i | 0 <= i < |s| :: s[i] == '-' || s[i] == ' ') && '-' in s
  }

  predicate Separator(line: string) {
    Dashed(Trim(line))
  }

  /** A separator has a dash, and only dashes and blanks; with no other white space these are exactly the separators. */
  lemma SeparatorIs(line: string)
    ensures Separator(line) ==> '-' in line && forall c | c in line :: c == '-' || IsSpace(c)
    ensures '-' in line && (forall c | c in line :: c == '-' || c == ' ') ==> Separator(line)
  {
    TrimParts(line);
    if Separator(line) {
      forall c | c in line
        ensures c == '-' || IsSpace(c)
      {
        if !IsSpace(c) {
          assert c in Trim(line);
          var i :| 0 <= i < |Trim(line)| && Trim(line)[i] == c;
        }
      }
    }
    if '-' in line && forall c | c in line :: c == '-' || c == ' ' {
      forall i | 0 <= i < |Trim(line)|
        ensures Trim(line)[i] == '-' || Trim(line)[i] == ' '
      {
        assert Trim(line)[i] in line;
      }
    }
  }

  /** The first separator, or the number of lines. */
  function FindSeparator(lines: seq<string>): (i: nat)
    ensures i <= |lines| && (i < |lines| ==> Separator(lines[i])) && forall k | 0 <= k < i :: !Separator(lines[k])
  {
    if lines == [] || Separator(lines[0]) then 0
    else
      var i := 1 + FindSeparator(lines[1..]);
      assert forall k | 0 < k <= |lines[1..]| :: lines[k] == lines[1..][k - 1];
      i
  }

  /** A run of dashes starts here. */
  predicate RunStart(sep: string, i: int) {
    0 <= i < |sep| && sep[i] == '-' && (i == 0 || sep[i - 1] != '-')
  }

  ghost predicate Ascending(starts: seq<nat>) {
    forall i, j | 0 <= i < j < |starts| :: starts[i] < starts[j]
  }

  /** The run starts from position `i` on, in order. */
  function StartsFrom(sep: string, i: nat): (starts: seq<nat>)
    requires i <= |sep|
    ensures Ascending(starts) && forall p :: p in starts <==> p >= i && RunStart(sep, p)
    decreases |sep| - i
  {
    if i == |sep| then []
    else if RunStart(sep, i) then
      var rest := StartsFrom(sep, i + 1);
      assert forall k | 0 <= k < |rest| :: rest[k] in rest;
      [i] + rest
    else StartsFrom(sep, i + 1)
  }

  lemma {:induction false} NoStarts(sep: string, i: nat, j: nat)
    requires i <= j <= |sep| && forall k | i <= k < j :: !RunStart(sep, k)
    ensures StartsFrom(sep, i) == StartsFrom(sep, j)
    decreases j - i
  {
    if i < j {
      NoStarts(sep, i + 1, j);
    }
  }

  lemma OneStart(sep: string, i: nat)
    requires RunStart(sep, i)
    ensures StartsFrom(sep, i) == [i] + StartsFrom(sep, i + 1)
  {
  }

  lemma NothingLeft(sep: string)
    ensures StartsFrom(sep, |sep|) == []
  {
  }

  /** The first position after a run of dashes. */
  method SkipRun(sep: string, run: nat) returns (i: nat)
    requires RunStart(sep, run)
    ensures run < i <= |sep| && (i < |sep| ==> sep[i] != '-')
    ensures StartsFrom(sep, run) == [run] + StartsFrom(sep, i)
  {
    i := run;
    while i < |sep| && sep[i] == '-'
      invariant run <= i <= |sep| && forall k | run <= k < i :: sep[k] == '-'
    {
      i := i + 1;
    }
    OneStart(sep, run);
    NoStarts(sep, run + 1, i);
  }

  lemma Regroup(before: seq<nat>, i: nat, after: seq<nat>)
    ensures before + [i] + after == before + ([i] + after)
  {
  }

  method ColumnStarts(sep: string) returns (starts: seq<nat>)
    ensures starts == StartsFrom(sep, 0)
  {
    hide StartsFrom, Ascending;
    starts := [];
    var i := 0;
    while i < |sep|
      invariant i <= |sep| && (i < |sep| && sep[i] == '-' ==> RunStart(sep, i))
      invariant starts + StartsFrom(sep, i) == StartsFrom(sep, 0)
    {
      if sep[i] == '-' {
        var next := SkipRun(sep, i);
        Regroup(starts, i, StartsFrom(sep, next));
        starts, i := starts + [i], next;
      } else {
        NoStarts(sep, i, i + 1);
        i := i + 1;
      }
    }
    NothingLeft(sep);
  }

  // ── fields ─────────────────────────────────────────────────────────────────

  function AtMost(n: nat, limit: nat): nat {
    if n < limit then n else limit
  }

  /** The part of a line that belongs to a column: from its start to the next one's, as far as the line goes. */
  function Cut(line: string, starts: seq<nat>, c: nat): string
    requires c < |starts| && Ascending(starts)
  {
    var start := AtMost(starts[c], |line|);
    var end := if c + 1 < |starts| then AtMost(starts[c + 1], |line|) else |line|;
    assert c + 1 < |starts| ==> starts[c] < starts[c + 1];
    line[start..end]
  }

  function Field(line: string, starts: seq<nat>, c: nat): string
    requires c < |starts| && Ascending(starts)
  {
    Trim(Cut(line, starts, c))
  }

  function Cuts(line: string, starts: seq<nat>, c: nat): string
    requires c <= |starts| && Ascending(starts)
    decreases |starts| - c
  {
    if c == |starts| then "" else Cut(line, starts, c) + Cuts(line, starts, c + 1)
  }

  /** For any line, the columns' parts put together are the line from the first column's start on. */
  lemma {:induction false} CutsTile(line: string, starts: seq<nat>, c: nat)
    requires c < |starts| && Ascending(starts)
    ensures Cuts(line, starts, c) == line[AtMost(starts[c], |line|)..]
    decreases |starts| - c
  {
    assert Cuts(line, starts, |starts|) == "";
    if c + 1 < |starts| {
      CutsTile(line, starts, c + 1);
      assert starts[c] < starts[c + 1];
    }
  }

  // ── labels ─────────────────────────────────────────────────────────────────

  function Lower(s: string): (r: string)
    ensures |r| == |s|
  {
    seq(|s|, i requires 0 <= i < |s| => if 'A' <= s[i] <= 'Z' then (s[i] as int + 32) as char else s[i])
  }

  /** Lower-casing turns the `k`-th letter of the alphabet into its small form, and changes nothing else. */
  lemma LowerLetters(s: string, i: nat, k: nat)
    requires i < |s| && k < 26
    ensures s[i] == "ABCDEFGHIJKLMNOPQRSTUVWXYZ"[k] ==> Lower(s)[i] == "abcdefghijklmnopqrstuvwxyz"[k]
    ensures s[i] < 'A' || s[i] > 'Z' ==> Lower(s)[i] == s[i]
  {
  }

  predicate Contains(s: string, needle: string) {
    exists i | 0 <= i <= |s| - |needle| :: s[i..][..|needle|] == needle
  }

  predicate ContainsAll(s: string, needles: seq<string>) {
    forall n | n in needles :: Contains(s, n)
  }

  /** The first label that contains all the needles. */
  function FirstWith(labels: seq<string>, needles: seq<string>): (r: Option<nat>)
    ensures r.Some? ==> r.value < |labels| && ContainsAll(labels[r.value], needles)
    ensures forall j | 0 <= j < |labels| && ContainsAll(labels[j], needles) :: r.Some? && r.value <= j
  {
    if labels == [] then None
    else if ContainsAll(labels[0], needles) then Some(0)
    else
      var later := FirstWith(labels[1..], needles);
      assert forall j | 0 < j < |labels| :: labels[j] == labels[1..][j - 1];
      if later.Some? then Some(later.value + 1) else None
  }

  function Locate(labels: seq<string>): (cols: Columns)
    ensures Within(cols, |labels|)
  {
    Columns(FirstWith(labels, ["ip", "address"]), FirstWith(labels, ["mac"]), FirstWith(labels, ["state"]),
            FirstWith(labels, ["start"]), FirstWith(labels, ["expir"]), FirstWith(labels, ["remain"]),
            FirstWith(labels, ["pool"]), FirstWith(labels, ["hostname"]))
  }

  predicate Inside(col: Option<nat>, n: nat) {
    col.Some? ==> col.value < n
  }

  predicate Within(cols: Columns, n: nat) {
    && Inside(cols.ip, n) && Inside(cols.mac, n) && Inside(cols.state, n) && Inside(cols.start, n)
    && Inside(cols.expiration, n) && Inside(cols.remaining, n) && Inside(cols.pool, n) && Inside(cols.hostname, n)
  }

  function FieldsOf(line: string, starts: seq<nat>): (fields: seq<string>)
    requires Ascending(starts)
    ensures |fields| == |starts| && forall c | 0 <= c < |starts| :: fields[c] == Field(line, starts, c)
  {
    seq(|starts|, c requires 0 <= c < |starts| => Field(line, starts, c))
  }

  function LabelsOf(header: seq<string>): (labels: seq<string>)
    ensures |labels| == |header| && forall c | 0 <= c < |header| :: labels[c] == Lower(header[c])
  {
    seq(|header|, c requires 0 <= c < |header| => Lower(header[c]))
  }

  // ── records ────────────────────────────────────────────────────────────────

  function Opt(fields: seq<string>, col: Option<nat>): Option<string>
    requires Inside(col, |fields|)
  {
    if col.Some? && fields[col.value] != "" then Some(fields[col.value]) else None
  }

  /** A row's record; a row without an address has none. */
  function RecordOf(fields: seq<string>, cols: Columns): Option<Lease>
    requires Within(cols, |fields|)
  {
    var ip := Opt(fields, cols.ip);
    if ip.None? then None
    else Some(Lease(ip.value, Opt(fields, cols.mac), Opt(fields, cols.state), Opt(fields, cols.start),
                    Opt(fields, cols.expiration), Opt(fields, cols.remaining), Opt(fields, cols.pool),
                    Opt(fields, cols.hostname)))
  }

  function Records(rows: seq<string>, starts: seq<nat>, cols: Columns): seq<Lease>
    requires Ascending(starts) && Within(cols, |starts|)
  {
    if rows == [] then []
    else
      var record := RecordOf(FieldsOf(rows[0], starts), cols);
      (if record.Some? then [record.value] else []) + Records(rows[1..], starts, cols)
  }

  /** The records of a table: nothing without a separator, or without a header line above it. */
  function Leases(lines: seq<string>): seq<Lease> {
    var sep := FindSeparator(lines);
    if sep == |lines| || sep == 0 then []
    else
      var starts := StartsFrom(lines[sep], 0);
      Records(lines[sep + 1..], starts, Locate(LabelsOf(FieldsOf(lines[sep - 1], starts))))
  }

  /** Trimming takes white space only. */
  lemma {:induction false} TrimParts(s: string)
    ensures forall c :: c in Trim(s) ==> c in s
    ensures forall c :: c in s && !IsSpace(c) ==> c in Trim(s)
    decreases |s|
  {
    if s == "" {
    } else if IsSpace(s[0]) {
      TrimParts(s[1..]);
      assert s == [s[0]] + s[1..];
    } else if IsSpace(s[|s| - 1]) {
      TrimParts(s[..|s| - 1]);
      assert s == s[..|s| - 1] + [s[|s| - 1]];
    }
  }

  /** A blank line has no address, so skipping it first changes nothing. */
  lemma BlankRow(line: string, starts: seq<nat>, cols: Columns)
    requires Ascending(starts) && Within(cols, |starts|) && Trim(line) == ""
    ensures RecordOf(FieldsOf(line, starts), cols).None?
  {
    BlankIff(line);
    if cols.ip.Some? {
      var cut := Cut(line, starts, cols.ip.value);
      BlankIff(cut);
    }
  }

  method ReadRow(line: string, starts: seq<nat>, cols: Columns) returns (record: Option<Lease>)
    requires Ascending(starts) && Within(cols, |starts|)
    ensures record == RecordOf(FieldsOf(line, starts), cols)
  {
    if Trim(line) == "" {
      BlankRow(line, starts, cols);
      return None;
    }
    var fields := FieldsOf(line, starts);
    var ip := Opt(fields, cols.ip);
    if ip.None? {
      return None;
    }
    return Some(Lease(ip.value, Opt(fields, cols.mac), Opt(fields, cols.state), Opt(fields, cols.start),
                      Opt(fields, cols.expiration), Opt(fields, cols.remaining), Opt(fields, cols.pool),
                      Opt(fields, cols.hostname)));
  }

  method ParseLeases(text: string) returns (out: seq<Lease>)
    ensures out == Leases(Lines(text))
  {
    hide RecordOf, FieldsOf, Lines, Locate, StartsFrom, Within, Separator, LabelsOf, Records, Ascending;
    var lines := Lines(text);
    var sep := 0;
    while sep < |lines| && !Separator(lines[sep])
      invariant sep <= |lines| && forall k | 0 <= k < sep :: !Separator(lines[k])
    {
      sep := sep + 1;
    }
    if sep == |lines| || sep == 0 {
      return [];
    }
    var starts := ColumnStarts(lines[sep]);
    var cols := Locate(LabelsOf(FieldsOf(lines[sep - 1], starts)));
    ghost var rows := lines[sep + 1..];
    if starts == [] {
      NoColumns(rows, starts, cols);
      return [];
    }
    out := [];
    assert lines[sep + 1..] == rows && lines[|lines|..] == [];
    for k := sep + 1 to |lines|
      invariant out + Records(lines[k..], starts, cols) == Records(rows, starts, cols)
    {
      RecordsStep(lines, k, starts, cols);
      var record := ReadRow(lines[k], starts, cols);
      if record.Some? {
        out := out + [record.value];
      }
    }
    NoRecords(starts, cols);
  }

  lemma RecordsStep(lines: seq<string>, k: nat, starts: seq<nat>, cols: Columns)
    requires k < |lines| && Ascending(starts) && Within(cols, |starts|)
    ensures
      var record := RecordOf(FieldsOf(lines[k], starts), cols);
      Records(lines[k..], starts, cols) ==
      (if record.Some? then [record.value] else []) + Records(lines[k + 1..], starts, cols)
  {
    assert lines[k..][0] == lines[k] && lines[k..][1..] == lines[k + 1..];
  }

  lemma NoRecords(starts: seq<nat>, cols: Columns)
    requires Ascending(starts) && Within(cols, |starts|)
    ensures Records([], starts, cols) == []
  {
  }

  lemma {:induction false} NoColumns(rows: seq<string>, starts: seq<nat>, cols: Columns)
    requires starts == [] && Within(cols, 0)
    ensures Records(rows, starts, cols) == []
    decreases rows
  {
    if rows != [] {
      NoColumns(rows[1..], starts, cols);
    }
  }
}

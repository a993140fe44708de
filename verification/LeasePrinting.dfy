/** Leases printed under their own header parse back into the same leases. */
module LeasePrinting {
  import opened Options
  import opened Text
  import opened LeaseTable
  import opened LeaseRoundTrip

  const HEADER := [
    "IP address", "MAC address", "State", "Lease start", "Lease expiration", "Remaining", "Pool", "Hostname"]

  const LABELS := [
    "ip address", "mac address", "state", "lease start", "lease expiration", "remaining", "pool", "hostname"]

  const COLUMNS := Columns(Some(0), Some(1), Some(2), Some(3), Some(4), Some(5), Some(6), Some(7))

  function TextOf(field: Option<string>): string {
    if field.Some? then field.value else ""
  }

  function CellsOf(l: Lease): (cells: seq<string>)
    ensures |cells| == 8
  {
    [l.ip, TextOf(l.mac), TextOf(l.state), TextOf(l.start), TextOf(l.expiration), TextOf(l.remaining), TextOf(l.pool),
     TextOf(l.hostname)]
  }

  predicate PlainField(field: Option<string>) {
    field.Some? ==> field.value != "" && Trimmed(field.value)
  }

  /** An address, and fields that are absent or trimmed and not blank. */
  predicate PlainLease(l: Lease) {
    && PlainField(Some(l.ip)) && PlainField(l.mac) && PlainField(l.state) && PlainField(l.start)
    && PlainField(l.expiration) && PlainField(l.remaining) && PlainField(l.pool) && PlainField(l.hostname)
  }

  function RowsOf(leases: seq<Lease>): (rows: seq<seq<string>>)
    ensures |rows| == |leases| && forall i | 0 <= i < |leases| :: rows[i] == CellsOf(leases[i])
  {
    seq(|leases|, i requires 0 <= i < |leases| => CellsOf(leases[i]))
  }

  // ── the header ─────────────────────────────────────────────────────────────

  lemma LabelAt(i: nat)
    requires i < 8
    ensures Lower(HEADER[i]) == LABELS[i]
  {
    match i {
      case 0 => assert Lower(HEADER[0]) == "ip address";
      case 1 => assert Lower(HEADER[1]) == "mac address";
      case 2 => assert Lower(HEADER[2]) == "state";
      case 3 => assert Lower(HEADER[3]) == "lease start";
      case 4 => assert Lower(HEADER[4]) == "lease expiration";
      case 5 => assert Lower(HEADER[5]) == "remaining";
      case 6 => assert Lower(HEADER[6]) == "pool";
      case _ => assert Lower(HEADER[7]) == "hostname";
    }
  }

  lemma Has(s: string, needle: string, i: nat)
    requires i + |needle| <= |s| && s[i..i + |needle|] == needle
    ensures Contains(s, needle)
  {
    assert s[i..][..|needle|] == needle;
  }

  /** Two characters of a needle, `k` and `l`, that never stand in a text at that distance. */
  predicate Lacks(s: string, needle: string, k: nat, l: nat)
    requires k < |needle| && l < |needle|
  {
    forall i | 0 <= i <= |s| - |needle| :: DiffersAt(s, needle, i, k, l)
  }

  predicate DiffersAt(s: string, needle: string, i: nat, k: nat, l: nat)
    requires i + |needle| <= |s| && k < |needle| && l < |needle|
  {
    s[i + k] != needle[k] || s[i + l] != needle[l]
  }

  lemma NotIn(s: string, needle: string, k: nat, l: nat)
    requires k < |needle| && l < |needle| && Lacks(s, needle, k, l)
    ensures !Contains(s, needle)
  {
    forall i | 0 <= i <= |s| - |needle|
      ensures s[i..][..|needle|] != needle
    {
      assert DiffersAt(s, needle, i, k, l);
      assert s[i..][..|needle|][k] == s[i + k] && s[i..][..|needle|][l] == s[i + l];
    }
  }

  /** The first label with a word is the `at`-th, since the word is there and in none before. */
  lemma WordAt(word: string, at: nat, where: nat, k: nat, l: nat)
    requires at < 8 && where + |word| <= |LABELS[at]| && LABELS[at][where..where + |word|] == word
    requires k < |word| && l < |word| && forall j | 0 <= j < at :: Lacks(LABELS[j], word, k, l)
    ensures FirstWith(LABELS, [word]) == Some(at)
  {
    Has(LABELS[at], word, where);
    assert ContainsAll(LABELS[at], [word]);
    forall j | 0 <= j < at
      ensures !ContainsAll(LABELS[j], [word])
    {
      NotIn(LABELS[j], word, k, l);
      assert word in [word];
    }
  }

  lemma AddressAt()
    ensures FirstWith(LABELS, ["ip", "address"]) == Some(0)
  {
    Has(LABELS[0], "ip", 0);
    Has(LABELS[0], "address", 3);
    assert ContainsAll(LABELS[0], ["ip", "address"]);
  }

  /** The address column of DHCPv6 leases is found too. */
  lemma AddressV6At(labels: seq<string>)
    requires labels != [] && labels[0] == "ipv6 address"
    ensures Locate(labels).ip == Some(0)
  {
    Has(labels[0], "ip", 0);
    Has(labels[0], "address", 5);
    assert ContainsAll(labels[0], ["ip", "address"]);
  }

  lemma HeaderLocates()
    ensures Locate(LabelsOf(HEADER)) == COLUMNS
  {
    hide FirstWith, Lower;
    forall i | 0 <= i < 8 { LabelAt(i); }
    assert LabelsOf(HEADER) == LABELS;
    AddressAt();
    MacAt();
    StateAt();
    StartAt();
    ExpirationAt();
    RemainingAt();
    PoolAt();
    HostnameAt();
  }

  lemma MacAt()
    ensures FirstWith(LABELS, ["mac"]) == Some(1)
  {
    WordAt("mac", 1, 0, 0, 1);
  }

  lemma StateAt()
    ensures FirstWith(LABELS, ["state"]) == Some(2)
  {
    WordAt("state", 2, 0, 0, 1);
  }

  lemma StartAt()
    ensures FirstWith(LABELS, ["start"]) == Some(3)
  {
    WordAt("start", 3, 6, 0, 3);
  }

  lemma ExpirationAt()
    ensures FirstWith(LABELS, ["expir"]) == Some(4)
  {
    WordAt("expir", 4, 6, 0, 1);
  }

  lemma RemainingAt()
    ensures FirstWith(LABELS, ["remain"]) == Some(5)
  {
    WordAt("remain", 5, 0, 0, 2);
  }

  lemma PoolAt()
    ensures FirstWith(LABELS, ["pool"]) == Some(6)
  {
    WordAt("pool", 6, 0, 0, 1);
  }

  lemma HostnameAt()
    ensures FirstWith(LABELS, ["hostname"]) == Some(7)
  {
    WordAt("hostname", 7, 0, 0, 1);
  }

  // ── the round trip ─────────────────────────────────────────────────────────

  lemma LeaseReads(l: Lease)
    requires PlainLease(l)
    ensures RecordOf(CellsOf(l), COLUMNS) == Some(l)
  {
  }

  lemma {:induction false} AllListed(leases: seq<Lease>)
    requires forall i | 0 <= i < |leases| :: PlainLease(leases[i])
    ensures forall i | 0 <= i < |leases| :: Within(COLUMNS, |RowsOf(leases)[i]|)
    ensures Listed(RowsOf(leases), COLUMNS) == leases
    decreases leases
  {
    hide PlainLease, RecordOf;
    if leases != [] {
      LeaseReads(leases[0]);
      assert RowsOf(leases)[1..] == RowsOf(leases[1..]);
      AllListed(leases[1..]);
    }
  }

  /**
   Parsing inverts printing: leases printed as a padded table under the lease header, after any preamble and with any
   trailing blanks dropped, parse back into the same leases.
   */
  lemma ParseReturnsLeases(lines: seq<string>, before: nat, lead: nat, pitches: seq<nat>, runs: seq<nat>,
                           leases: seq<Lease>, ends: seq<string>)
    requires PrintedTable(lines, before, lead, pitches, runs, HEADER, RowsOf(leases)) && Endings(lines, ends)
    requires forall k | 0 <= k < |lines| :: Plain(lines[k])
    requires forall i | 0 <= i < |leases| :: PlainLease(leases[i])
    ensures LeaseTable.Leases(Lines(Joined(lines, ends))) == leases
  {
    hide PrintedTable, LeaseTable.Leases, PlainLease, Locate, Within;
    HeaderLocates();
    AllListed(leases);
    ParseInvertsPrint(lines, before, lead, pitches, runs, HEADER, RowsOf(leases), ends);
  }
}

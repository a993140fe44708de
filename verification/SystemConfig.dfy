/** The system page: host name, domain, time zone and NTP servers. */
module SystemConfig {
  import opened Options
  import opened Text
  import opened ConfigTree
  import opened Fields
  import opened Edits
  import opened DeviceSchema
  import opened Sorting

  datatype LiveSystem = LiveSystem(
    hostname: Option<string>, domainName: Option<string>, timeZone: Option<string>,
    ntpEnabled: bool, ntpServers: seq<string>, ntpBase: Path)

  /** Every field may be left out to stage a part only. */
  datatype SystemUpdate = SystemUpdate(
    hostname: Option<string>, domainName: Option<string>, timeZone: Option<string>,
    ntpEnabled: Option<bool>, ntpServers: Option<seq<string>>)

  /** NTP lives under `system ntp` on 1.3 and `service ntp` later. */
  function NtpBase(v13: bool): Path {
    if v13 then ["system", "ntp"] else ["service", "ntp"]
  }

  function ServersOf(ntp: Slot): set<string> {
    Kids(Get(ntp, ["server"])).Keys
  }

  function ReadSystem(cfg: Slot, v13: bool): LiveSystem {
    var ntp := Get(cfg, NtpBase(v13));
    LiveSystem(
      ReadText(Get(cfg, ["system", "host-name"])), ReadText(Get(cfg, ["system", "domain-name"])),
      ReadText(Get(cfg, ["system", "time-zone"])), ntp.Some?, SortedKeys(ServersOf(ntp)), NtpBase(v13))
  }

  /** A host name or time zone is only ever set, never removed. */
  function KeptCmds(live: Option<string>, desired: Option<string>): seq<Cmd> {
    if Wanted(desired).Some? then TextCmds(live, Wanted(desired)) else []
  }

  /** A domain name is removed by a blank field, and left alone by a missing one. */
  function DomainCmds(live: Option<string>, desired: Option<string>): seq<Cmd> {
    if desired.None? then [] else TextCmds(live, Wanted(desired))
  }

  /** Disabling drops the whole NTP node; otherwise an explicit list is diffed as a set. */
  function NtpCmds(live: LiveSystem, u: SystemUpdate): seq<Cmd> {
    if u.ntpEnabled == Some(false) then (if live.ntpEnabled then [Cmd(Delete, [])] else [])
    else if u.ntpServers.None? then []
    else Below(["server"], SetCmds(live.ntpServers, WantedAll(u.ntpServers.value)))
  }

  function SystemEdits(live: LiveSystem, u: SystemUpdate): seq<Edit> {
    [ Edit(["system", "host-name"], KeptCmds(live.hostname, u.hostname)),
      Edit(["system", "domain-name"], DomainCmds(live.domainName, u.domainName)),
      Edit(["system", "time-zone"], KeptCmds(live.timeZone, u.timeZone)),
      Edit(live.ntpBase, NtpCmds(live, u)) ]
  }

  /** `diff_system` */
  function DiffSystem(live: LiveSystem, u: SystemUpdate): seq<Cmd> {
    Flat(SystemEdits(live, u))
  }

  ghost predicate SystemShape(cfg: Slot, v13: bool) {
    && (cfg.Some? ==> cfg.value.Obj?)
    && (Kid(cfg, "system").Some? ==> Kid(cfg, "system").value.Obj?)
    && Walkable(cfg, NtpBase(v13))
    && (Get(cfg, NtpBase(v13)).Some? ==> Get(cfg, NtpBase(v13)).value.Obj?)
    && (Get(Get(cfg, NtpBase(v13)), ["server"]).Some? ==> Get(Get(cfg, NtpBase(v13)), ["server"]).value.Obj?)
  }

  const SYSTEM: Schema :=
    Branch(map["host-name" := Leaf, "domain-name" := Leaf, "time-zone" := Leaf, "ntp" := NTP])

  function SystemPaths(v13: bool): seq<Path> {
    [["system", "host-name"], ["system", "domain-name"], ["system", "time-zone"], NtpBase(v13)]
  }

  function PlaceSchema(i: nat): Schema {
    if i < 3 then Leaf else NTP
  }

  lemma TwoKeys(schema: Schema, cfg: Slot, a: string, b: string)
    requires SchemaOf(schema, a).Some?
    ensures SchemaAt(schema, [a, b]) == SchemaOf(SchemaOf(schema, a).value, b)
    ensures Walkable(cfg, [a, b]) <==>
              cfg.None? || (cfg.value.Obj? && (Kid(cfg, a).None? || Kid(cfg, a).value.Obj?))
  {
    assert [a, b][1..] == [b] && [b][1..] == [];
    assert SchemaAt(SchemaOf(schema, a).value, [b]) == SchemaOf(SchemaOf(schema, a).value, b);
    assert Walkable(Kid(cfg, a), [b]) <==> Kid(cfg, a).None? || Kid(cfg, a).value.Obj?;
  }

  lemma SystemPlaces(cfg: Slot, v13: bool, i: nat)
    requires SystemShape(cfg, v13) && i < 4
    ensures SchemaAt(DEVICE, SystemPaths(v13)[i]) == Some(PlaceSchema(i))
    ensures Walkable(cfg, SystemPaths(v13)[i])
  {
    hide Get, Walkable, SchemaAt;
    assert SchemaOf(DEVICE, "system") == Some(SYSTEM);
    assert SchemaOf(DEVICE, "service") == Some(Branch(map["ntp" := NTP]));
    TwoKeys(DEVICE, cfg, SystemPaths(v13)[i][0], SystemPaths(v13)[i][1]);
  }

  lemma SystemPathsApart(v13: bool)
    ensures forall i, j | 0 <= i < j < 4 :: Apart(SystemPaths(v13)[i], SystemPaths(v13)[j])
  {
    assert SystemPaths(true)[3] == ["system", "ntp"] && SystemPaths(false)[3] == ["service", "ntp"];
  }

  lemma ServerList(ntp: Slot)
    ensures AsSet(SortedKeys(ServersOf(ntp))) == ServersOf(ntp) && NoDuplicates(SortedKeys(ServersOf(ntp)))
  {
    hide SortedKeys, ServersOf;
    var ks := SortedKeys(ServersOf(ntp));
    SortedKeysAre(ServersOf(ntp));
    forall i, j | 0 <= i < j < |ks|
      ensures ks[i] != ks[j]
    {
      assert ks == ks[..i] + [ks[i]] + ks[i + 1..j] + [ks[j]] + ks[j + 1..];
      assert multiset(ks)[ks[i]] <= 1;
    }
  }

  lemma NtpRuns(ntp: Slot, live: LiveSystem, u: SystemUpdate)
    requires ntp.Some? ==> ntp.value.Obj?
    requires Get(ntp, ["server"]).Some? ==> Get(ntp, ["server"]).value.Obj?
    requires live.ntpEnabled == ntp.Some? && live.ntpServers == SortedKeys(ServersOf(ntp))
    ensures
      var r := Run(NTP, ntp, NtpCmds(live, u));
      && r.Applied?
      && (u.ntpEnabled == Some(false) ==> r.slot.None?)
      && (u.ntpEnabled != Some(false) && u.ntpServers.Some? ==>
            ServersOf(r.slot) == TrimmedEntries(u.ntpServers.value))
      && (u.ntpEnabled != Some(false) && u.ntpServers.None? ==> r.slot == ntp)
      && (PlainServers(u) ==>
            Effective(NTP, ntp, NtpCmds(live, u)))
  {
    hide SortedKeys, SetCmds, WantedAll, NoDuplicates, TrimmedEntries, DistinctEntries;
    ServerList(ntp);
    if u.ntpEnabled == Some(false) {
      RunOne(NTP, ntp, Cmd(Delete, []));
    } else if u.ntpServers.Some? {
      WantedEntries(u.ntpServers.value);
      WantedDistinct(u.ntpServers.value);
      assert ["server"][1..] == [];
      assert SchemaAt(NTP, ["server"]) == Some(Tag(FLAG));
      SetRuns(Tag(FLAG), Get(ntp, ["server"]), live.ntpServers, WantedAll(u.ntpServers.value));
      RunBelow(NTP, ntp, ["server"], SetCmds(live.ntpServers, WantedAll(u.ntpServers.value)));
    }
  }

  /** How the system page reads after a commit of `u`, field by field. */
  ghost predicate SystemReads(before: Slot, after: Slot, v13: bool, u: SystemUpdate) {
    var was, now := ReadSystem(before, v13), ReadSystem(after, v13);
    && now.hostname == Or(Wanted(u.hostname), was.hostname)
    && now.timeZone == Or(Wanted(u.timeZone), was.timeZone)
    && now.domainName == (if u.domainName.Some? then Wanted(u.domainName) else was.domainName)
    && (if u.ntpEnabled == Some(false) then !now.ntpEnabled
        else if u.ntpServers.Some? then AsSet(now.ntpServers) == TrimmedEntries(u.ntpServers.value)
        else Get(after, NtpBase(v13)) == Get(before, NtpBase(v13)))
  }

  ghost predicate ApartFromSystem(q: Path, v13: bool) {
    && Apart(["system", "host-name"], q) && Apart(["system", "domain-name"], q) && Apart(["system", "time-zone"], q)
    && Apart(NtpBase(v13), q)
  }

  lemma TextPlacesRun(here: Slot, desired: Option<string>)
    ensures
      var r := Run(Leaf, here, KeptCmds(ReadText(here), desired));
      && r.Applied? && ReadText(r.slot) == Or(Wanted(desired), ReadText(here))
      && Effective(Leaf, here, KeptCmds(ReadText(here), desired))
    ensures
      var r := Run(Leaf, here, DomainCmds(ReadText(here), desired));
      && r.Applied? && ReadText(r.slot) == (if desired.Some? then Wanted(desired) else ReadText(here))
      && Effective(Leaf, here, DomainCmds(ReadText(here), desired))
  {
    TextRuns(here, ReadText(here), Wanted(desired));
  }

  /** The commands for the `i`-th place. */
  function PlaceCmds(live: LiveSystem, u: SystemUpdate, i: nat): seq<Cmd>
    requires i < 4
  {
    match i
    case 0 => KeptCmds(live.hostname, u.hostname)
    case 1 => DomainCmds(live.domainName, u.domainName)
    case 2 => KeptCmds(live.timeZone, u.timeZone)
    case _ => NtpCmds(live, u)
  }

  /** The node at the `i`-th place is what `live` was read from. */
  ghost predicate PlaceHolds(live: LiveSystem, i: nat, here: Slot) {
    match i
    case 0 => live.hostname == ReadText(here)
    case 1 => live.domainName == ReadText(here)
    case 2 => live.timeZone == ReadText(here)
    case _ =>
      && (here.Some? ==> here.value.Obj?)
      && (Get(here, ["server"]).Some? ==> Get(here, ["server"]).value.Obj?)
      && live.ntpEnabled == here.Some? && live.ntpServers == SortedKeys(ServersOf(here))
  }

  /** How the `i`-th place ends. */
  ghost predicate PlaceEnds(live: LiveSystem, u: SystemUpdate, i: nat, here: Slot, x: Slot) {
    match i
    case 0 => ReadText(x) == Or(Wanted(u.hostname), live.hostname)
    case 1 => ReadText(x) == if u.domainName.Some? then Wanted(u.domainName) else live.domainName
    case 2 => ReadText(x) == Or(Wanted(u.timeZone), live.timeZone)
    case _ =>
      && (u.ntpEnabled == Some(false) ==> x.None?)
      && (u.ntpEnabled != Some(false) && u.ntpServers.Some? ==>
            ServersOf(x) == TrimmedEntries(u.ntpServers.value))
      && (u.ntpEnabled != Some(false) && u.ntpServers.None? ==> x == here)
  }

  ghost predicate PlainServers(u: SystemUpdate) {
    u.ntpServers.Some? ==> DistinctEntries(u.ntpServers.value)
  }

  lemma PlaceRuns(here: Slot, live: LiveSystem, u: SystemUpdate, i: nat)
    requires i < 4 && PlaceHolds(live, i, here)
    ensures
      var r := Run(PlaceSchema(i), here, PlaceCmds(live, u, i));
      && r.Applied? && PlaceEnds(live, u, i, here, r.slot)
      && (PlainServers(u) ==> Effective(PlaceSchema(i), here, PlaceCmds(live, u, i)))
  {
    match i
    case 0 => TextPlacesRun(here, u.hostname);
    case 1 => TextPlacesRun(here, u.domainName);
    case 2 => TextPlacesRun(here, u.timeZone);
    case _ => NtpRuns(here, live, u);
  }

  /** The four edits, whatever the schema around their places. */
  lemma RunSystem(schema: Schema, cfg: Slot, edits: seq<Edit>, live: LiveSystem, u: SystemUpdate)
    requires Fits(schema, cfg, edits) && |edits| == 4
    requires forall i | 0 <= i < 4 ::
               && SchemaAt(schema, edits[i].at) == Some(PlaceSchema(i))
               && edits[i].cmds == PlaceCmds(live, u, i) && PlaceHolds(live, i, Get(cfg, edits[i].at))
    ensures
      var r := Run(schema, cfg, Flat(edits));
      && r.Applied?
      && (forall i | 0 <= i < 4 :: PlaceEnds(live, u, i, Get(cfg, edits[i].at), Get(r.slot, edits[i].at)))
      && (forall q | ApartFromAll(q, edits) ::
            Get(r.slot, q) == Get(cfg, q) && (Walkable(cfg, q) ==> Walkable(r.slot, q)))
      && (PlainServers(u) ==> Effective(schema, cfg, Flat(edits)))
  {
    hide PlaceHolds, PlaceEnds, PlaceCmds, PlaceSchema, PlainServers;
    forall i | 0 <= i < 4
      ensures After(schema, cfg, edits[i]).Applied?
      ensures PlaceEnds(live, u, i, Get(cfg, edits[i].at), After(schema, cfg, edits[i]).slot)
      ensures PlainServers(u) ==>
                Effective(SchemaAt(schema, edits[i].at).value, Get(cfg, edits[i].at), edits[i].cmds)
    {
      PlaceRuns(Get(cfg, edits[i].at), live, u, i);
    }
    RunEdits(schema, cfg, edits);
    var r := Run(schema, cfg, Flat(edits)).slot;
    forall i | 0 <= i < 4
      ensures PlaceEnds(live, u, i, Get(cfg, edits[i].at), Get(r, edits[i].at))
    {
      assert Get(r, edits[i].at) == After(schema, cfg, edits[i]).slot;
    }
  }

  lemma SystemEditAt(cfg: Slot, v13: bool, u: SystemUpdate, i: nat)
    requires SystemShape(cfg, v13) && i < 4
    ensures
      var live := ReadSystem(cfg, v13);
      && SystemEdits(live, u)[i] == Edit(SystemPaths(v13)[i], PlaceCmds(live, u, i))
      && PlaceHolds(live, i, Get(cfg, SystemPaths(v13)[i]))
  {
    hide Get, KeptCmds, DomainCmds, NtpCmds, SystemShape, ServersOf, NtpBase;
    NtpOf(cfg, v13);
    match i {
      case 0 => case 1 => case 2 => case _ =>
    }
  }

  lemma EndsRead(before: Slot, after: Slot, v13: bool, u: SystemUpdate)
    requires forall i | 0 <= i < 4 ::
               var p := SystemPaths(v13)[i];
               PlaceEnds(ReadSystem(before, v13), u, i, Get(before, p), Get(after, p))
    ensures SystemReads(before, after, v13, u)
  {
    hide Get, NtpBase, PlaceEnds, ReadSystem, SystemReads;
    var live := ReadSystem(before, v13);
    assert PlaceEnds(live, u, 0, Get(before, SystemPaths(v13)[0]), Get(after, SystemPaths(v13)[0]));
    assert PlaceEnds(live, u, 1, Get(before, SystemPaths(v13)[1]), Get(after, SystemPaths(v13)[1]));
    assert PlaceEnds(live, u, 2, Get(before, SystemPaths(v13)[2]), Get(after, SystemPaths(v13)[2]));
    assert PlaceEnds(live, u, 3, Get(before, SystemPaths(v13)[3]), Get(after, SystemPaths(v13)[3]));
    PagesRead(before, after, v13, u);
  }

  lemma PagesRead(before: Slot, after: Slot, v13: bool, u: SystemUpdate)
    requires
      var live := ReadSystem(before, v13);
      && PlaceEnds(live, u, 0, Get(before, ["system", "host-name"]), Get(after, ["system", "host-name"]))
      && PlaceEnds(live, u, 1, Get(before, ["system", "domain-name"]), Get(after, ["system", "domain-name"]))
      && PlaceEnds(live, u, 2, Get(before, ["system", "time-zone"]), Get(after, ["system", "time-zone"]))
      && PlaceEnds(live, u, 3, Get(before, NtpBase(v13)), Get(after, NtpBase(v13)))
    ensures SystemReads(before, after, v13, u)
  {
    hide Get, NtpBase, ServersOf, TrimmedEntries, Wanted, SortedKeys, ReadText, NoDuplicates, Or;
    ServerList(Get(after, NtpBase(v13)));
  }

  /** Committing the diff makes the page read as asked and leaves the rest of the tree alone. */
  lemma DiffSystemCorrect(cfg: Slot, v13: bool, u: SystemUpdate)
    requires SystemShape(cfg, v13)
    ensures
      var cs := DiffSystem(ReadSystem(cfg, v13), u);
      var r := Run(DEVICE, cfg, cs);
      && r.Applied?
      && SystemReads(cfg, r.slot, v13, u)
      && (forall q | ApartFromSystem(q, v13) ::
            Get(r.slot, q) == Get(cfg, q) && (Walkable(cfg, q) ==> Walkable(r.slot, q)))
      && (PlainServers(u) ==> Effective(DEVICE, cfg, cs))
  {
    hide SystemReads, SystemShape, PlaceHolds, PlaceEnds, PlaceCmds, PlaceSchema, PlainServers, ReadSystem, Get, Run,
         NtpBase, SystemEdits;
    var live := ReadSystem(cfg, v13);
    var edits := SystemEdits(live, u);
    FourEdits(live, u);
    SystemPathsApart(v13);
    forall i | 0 <= i < 4
      ensures edits[i] == Edit(SystemPaths(v13)[i], PlaceCmds(live, u, i))
      ensures Walkable(cfg, edits[i].at) && PlaceHolds(live, i, Get(cfg, edits[i].at))
      ensures SchemaAt(DEVICE, edits[i].at) == Some(PlaceSchema(i))
    {
      SystemEditAt(cfg, v13, u, i);
      SystemPlaces(cfg, v13, i);
    }
    RunSystem(DEVICE, cfg, edits, live, u);
    EndsRead(cfg, Run(DEVICE, cfg, Flat(edits)).slot, v13, u);
    forall q | ApartFromSystem(q, v13)
      ensures ApartFromAll(q, edits)
    {
    }
  }

  lemma FourEdits(live: LiveSystem, u: SystemUpdate)
    ensures |SystemEdits(live, u)| == 4
  {
  }

  lemma NtpOf(cfg: Slot, v13: bool)
    requires SystemShape(cfg, v13)
    ensures
      var ntp := Get(cfg, NtpBase(v13));
      && (ntp.Some? ==> ntp.value.Obj?)
      && (Get(ntp, ["server"]).Some? ==> Get(ntp, ["server"]).value.Obj?)
  {
  }

  /** Diffing the committed tree again asks for nothing. */
  lemma DiffSystemFixpoint(before: Slot, after: Slot, v13: bool, u: SystemUpdate)
    requires SystemReads(before, after, v13, u)
    ensures DiffSystem(ReadSystem(after, v13), u) == []
  {
    hide Get, SortedKeys, WantedAll, TrimmedEntries;
    var now := ReadSystem(after, v13);
    if u.ntpEnabled != Some(false) && u.ntpServers.Some? {
      WantedEntries(u.ntpServers.value);
      NothingToDo(now.ntpServers, WantedAll(u.ntpServers.value));
    }
    FlatEmpty(SystemEdits(now, u));
  }
}

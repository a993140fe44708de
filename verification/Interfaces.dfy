/** Ethernet interfaces and their VLANs: reading one, diffing one, and what committing the diff yields. */
module Interfaces {
  import opened Options
  import opened Text
  import opened ConfigTree
  import opened Fields
  import opened Edits
  import opened DeviceSchema

  datatype VlanUpdate = VlanUpdate(
    parent: string, vlanId: i32, description: Option<string>, addresses: seq<string>, mtu: Option<i32>,
    enabled: bool, originalParent: Option<string>, originalVlanId: Option<i32>)

  datatype EthernetUpdate = EthernetUpdate(
    name: string, description: Option<string>, addresses: seq<string>, mtu: Option<i32>,
    speed: Option<string>, duplex: Option<string>, enabled: bool)

  /** The fields of either form, as they read from a node; a VLAN has no speed and no duplex. */
  datatype LinkRecord = LinkRecord(
    description: Option<string>, addresses: seq<string>, mtu: Option<i32>,
    speed: Option<string>, duplex: Option<string>, enabled: bool)

  datatype Place = Description | Address | Mtu | Speed | Duplex | Disable

  const VIF_PLACES := [Description, Address, Mtu, Disable]
  const NIC_PLACES := [Description, Address, Mtu, Speed, Duplex, Disable]

  function Key(p: Place): string {
    match p
    case Description => "description"
    case Address => "address"
    case Mtu => "mtu"
    case Speed => "speed"
    case Duplex => "duplex"
    case Disable => "disable"
  }

  function KindOf(p: Place): Schema {
    match p
    case Address => Multi
    case Disable => FLAG
    case _ => Leaf
  }

  function EthBase(name: string): Path {
    ["interfaces", "ethernet", name]
  }

  function VifBase(parent: string, vid: i32): Path {
    ["interfaces", "ethernet", parent, "vif", PrintInt(vid)]
  }

  // ── reading ────────────────────────────────────────────────────────────────

  function ReadLink(cur: Slot): LinkRecord {
    LinkRecord(
      ReadText(Get(cur, ["description"])), Values(Get(cur, ["address"])), ReadInt(Get(cur, ["mtu"])),
      ReadText(Get(cur, ["speed"])), ReadText(Get(cur, ["duplex"])), Get(cur, ["disable"]).None?)
  }

  function WantedVlan(body: VlanUpdate): LinkRecord {
    LinkRecord(Wanted(body.description), WantedAll(body.addresses), body.mtu, None, None, body.enabled)
  }

  function WantedNic(body: EthernetUpdate): LinkRecord {
    LinkRecord(Wanted(body.description), WantedAll(body.addresses), body.mtu,
               Wanted(body.speed), Wanted(body.duplex), body.enabled)
  }

  ghost predicate CleanLink(w: LinkRecord) {
    CleanText(w.description) && CleanText(w.speed) && CleanText(w.duplex)
  }

  /** The node at a place reads as `w` says; addresses are compared as sets. */
  ghost predicate PlaceReads(w: LinkRecord, p: Place, x: Slot) {
    match p
    case Description => ReadText(x) == w.description
    case Address => AsSet(Values(x)) == AsSet(w.addresses)
    case Mtu => ReadInt(x) == w.mtu
    case Speed => ReadText(x) == w.speed
    case Duplex => ReadText(x) == w.duplex
    case Disable => x.None? == w.enabled
  }

  ghost predicate LinkReads(places: seq<Place>, cur: Slot, w: LinkRecord) {
    forall p | p in places :: PlaceReads(w, p, Get(cur, [Key(p)]))
  }

  // ── the diff ───────────────────────────────────────────────────────────────

  function PlaceCmds(s: LinkRecord, w: LinkRecord, p: Place): seq<Cmd> {
    match p
    case Description => TextCmds(s.description, w.description)
    case Address => SetCmds(s.addresses, w.addresses)
    case Mtu => IntCmds(s.mtu, w.mtu)
    case Speed => TextCmds(s.speed, w.speed)
    case Duplex => TextCmds(s.duplex, w.duplex)
    case Disable => FlagCmds(!s.enabled, !w.enabled)
  }

  function LinkEdits(places: seq<Place>, s: LinkRecord, w: LinkRecord): seq<Edit> {
    seq(|places|, i requires 0 <= i < |places| => Edit([Key(places[i])], PlaceCmds(s, w, places[i])))
  }

  function LinkCmds(places: seq<Place>, live: Slot, w: LinkRecord): seq<Cmd> {
    RecordCmds(live.None?, LinkEdits(places, ReadLink(live), w))
  }

  /** A node whose schema carries the places, in the form the diff walks. */
  ghost predicate LinkNode(schema: Schema, places: seq<Place>, cur: Slot) {
    && schema.Branch? && (cur.Some? ==> cur.value.Obj?)
    && (forall p | p in places :: SchemaOf(schema, Key(p)) == Some(KindOf(p)))
    && (forall i, j | 0 <= i < j < |places| :: places[i] != places[j])
  }

  lemma KeysDiffer(p: Place, q: Place)
    requires p != q
    ensures Key(p) != Key(q)
  {
  }

  lemma LinkFits(schema: Schema, places: seq<Place>, cur: Slot, s: LinkRecord, w: LinkRecord)
    requires LinkNode(schema, places, cur)
    ensures Fits(schema, cur, LinkEdits(places, s, w))
    ensures forall p | p in places :: SchemaAt(schema, [Key(p)]) == Some(KindOf(p))
  {
    forall i | 0 <= i < |places|
      ensures SchemaAt(schema, [Key(places[i])]) == Some(KindOf(places[i])) && Walkable(cur, [Key(places[i])])
    {
      assert [Key(places[i])][1..] == [];
      assert places[i] in places;
    }
    forall i, j | 0 <= i < j < |places|
      ensures Apart([Key(places[i])], [Key(places[j])])
    {
      KeysDiffer(places[i], places[j]);
    }
  }

  lemma PlaceRuns(here: Slot, s: LinkRecord, w: LinkRecord, p: Place)
    requires PlaceReads(s, p, here) && CleanLink(w)
    ensures
      var cs := PlaceCmds(s, w, p);
      var r := Run(KindOf(p), here, cs);
      && r.Applied? && PlaceReads(w, p, r.slot)
      && (here.None? && cs != [] ==> r.slot.Some?)
      && (NoDuplicates(s.addresses) && NoDuplicates(w.addresses) ==> Effective(KindOf(p), here, cs))
  {
    match p
    case Description => TextRuns(here, s.description, w.description);
    case Speed => TextRuns(here, s.speed, w.speed);
    case Duplex => TextRuns(here, s.duplex, w.duplex);
    case Mtu => IntRuns(here, s.mtu, w.mtu);
    case Disable => FlagRuns(here, !s.enabled, !w.enabled);
    case Address =>
      SetRuns(Multi, here, s.addresses, w.addresses);
      AsSetEmpty(s.addresses);
      AsSetEmpty(w.addresses);
  }

  /** Running a link's diff makes the node exist and read as wanted, and touches nothing else in it. */
  lemma LinkRuns(schema: Schema, places: seq<Place>, cur: Slot, s: LinkRecord, w: LinkRecord)
    requires LinkNode(schema, places, cur) && CleanLink(w)
    requires LinkReads(places, cur, s) && (cur.None? ==> s.addresses == [])
    ensures
      var cs := RecordCmds(cur.None?, LinkEdits(places, s, w));
      var r := Run(schema, cur, cs);
      && r.Applied? && r.slot.Some?
      && LinkReads(places, r.slot, w)
      && (forall q | q != [] && ApartFromPlaces(q, places) ::
            Get(r.slot, q) == Get(cur, q) && (Walkable(cur, q) ==> Walkable(r.slot, q)))
      && (NoDuplicates(s.addresses) && NoDuplicates(w.addresses) ==> Effective(schema, cur, cs))
  {
    var edits := LinkEdits(places, s, w);
    LinkFits(schema, places, cur, s, w);
    forall i | 0 <= i < |edits|
      ensures After(schema, cur, edits[i]).Applied?
      ensures PlaceReads(w, places[i], After(schema, cur, edits[i]).slot)
      ensures cur.None? && edits[i].cmds != [] ==> After(schema, cur, edits[i]).slot.Some?
      ensures NoDuplicates(s.addresses) && NoDuplicates(w.addresses) ==>
                Effective(SchemaAt(schema, edits[i].at).value, Get(cur, edits[i].at), edits[i].cmds)
    {
      GetNone(edits[i].at);
      assert places[i] in places;
      PlaceRuns(Get(cur, edits[i].at), s, w, places[i]);
    }
    RecordRuns(schema, cur, cur.None?, edits);
    var r := Run(schema, cur, RecordCmds(cur.None?, edits)).slot;
    forall p | p in places
      ensures PlaceReads(w, p, Get(r, [Key(p)]))
    {
      var i :| 0 <= i < |places| && places[i] == p;
      assert Get(r, edits[i].at) == After(schema, cur, edits[i]).slot;
    }
    forall q | q != [] && ApartFromPlaces(q, places)
      ensures ApartFromAll(q, edits)
    {
      forall i | 0 <= i < |edits| ensures Apart(edits[i].at, q) {
        assert places[i] in places;
      }
    }
  }

  ghost predicate ApartFromPlaces(q: Path, places: seq<Place>) {
    forall p | p in places :: Apart([Key(p)], q)
  }

  /** A node that already reads as wanted needs no commands. */
  lemma LinkFixpoint(places: seq<Place>, live: Slot, w: LinkRecord)
    requires live.Some? && LinkReads(places, live, w)
    ensures LinkCmds(places, live, w) == []
  {
    var s := ReadLink(live);
    forall i | 0 <= i < |places|
      ensures PlaceCmds(s, w, places[i]) == []
    {
      assert PlaceReads(w, places[i], Get(live, [Key(places[i])]));
      if places[i].Address? {
        NothingToDo(s.addresses, w.addresses);
      }
    }
    FlatEmpty(LinkEdits(places, s, w));
  }

  // ── VLANs in the tree ──────────────────────────────────────────────────────

  predicate Moved(body: VlanUpdate) {
    && body.originalParent.Some? && body.originalVlanId.Some?
    && (body.originalParent.value != body.parent || body.originalVlanId.value != body.vlanId)
  }

  function FormerBase(body: VlanUpdate): Path
    requires Moved(body)
  {
    VifBase(body.originalParent.value, body.originalVlanId.value)
  }

  /** `diff_vlan` against the live `interfaces ethernet` subtree. */
  function DiffVlan(eth: Slot, body: VlanUpdate): seq<Cmd> {
    var base := VifBase(body.parent, body.vlanId);
    var live := if Moved(body) then None else Get(eth, [body.parent, "vif", PrintInt(body.vlanId)]);
    var cs := LinkCmds(VIF_PLACES, live, WantedVlan(body));
    if Moved(body) then MoveCmds(FormerBase(body), base, cs) else Below(base, cs)
  }

  /** `diff_ethernet` against the live `interfaces ethernet` subtree. */
  function DiffEthernet(eth: Slot, body: EthernetUpdate): seq<Cmd> {
    Below(EthBase(body.name), LinkCmds(NIC_PLACES, Get(eth, [body.name]), WantedNic(body)))
  }

  function EthernetTree(cfg: Slot): Slot {
    Get(cfg, ["interfaces", "ethernet"])
  }

  lemma LiveNic(cfg: Slot, name: string)
    ensures Get(EthernetTree(cfg), [name]) == Get(cfg, EthBase(name))
  {
    assert ["interfaces", "ethernet"] + [name] == EthBase(name);
    GetSplit(cfg, ["interfaces", "ethernet"], [name]);
  }

  lemma LiveVif(cfg: Slot, parent: string, vid: i32)
    ensures Get(EthernetTree(cfg), [parent, "vif", PrintInt(vid)]) == Get(cfg, VifBase(parent, vid))
  {
    assert ["interfaces", "ethernet"] + [parent, "vif", PrintInt(vid)] == VifBase(parent, vid);
    GetSplit(cfg, ["interfaces", "ethernet"], [parent, "vif", PrintInt(vid)]);
  }

  lemma LinkSchemas(name: string, vid: i32)
    ensures SchemaAt(DEVICE, EthBase(name)) == Some(ETHERNET)
    ensures SchemaAt(DEVICE, VifBase(name, vid)) == Some(VIF)
  {
    var id := PrintInt(vid);
    assert EthBase(name)[1..] == ["ethernet", name] && ["ethernet", name][1..] == [name] && [name][1..] == [];
    assert VifBase(name, vid)[1..] == ["ethernet", name, "vif", id];
    assert ["ethernet", name, "vif", id][1..] == [name, "vif", id] && [name, "vif", id][1..] == ["vif", id];
    assert ["vif", id][1..] == [id] && [id][1..] == [];
    assert SchemaAt(Tag(VIF), [id]) == Some(VIF);
    assert SchemaAt(ETHERNET, ["vif", id]) == Some(VIF);
    assert SchemaAt(Tag(ETHERNET), [name, "vif", id]) == Some(VIF);
    assert SchemaAt(Tag(ETHERNET), [name]) == Some(ETHERNET);
    var interfaces := Branch(map["ethernet" := Tag(ETHERNET)]);
    assert SchemaAt(interfaces, ["ethernet", name]) == Some(ETHERNET);
    assert SchemaAt(interfaces, ["ethernet", name, "vif", id]) == Some(VIF);
    assert SchemaOf(DEVICE, "interfaces") == Some(interfaces);
  }

  /** Distinct VLANs live at separate places. */
  lemma VifsApart(a: string, i: i32, b: string, j: i32)
    requires a != b || i != j
    ensures Apart(VifBase(a, i), VifBase(b, j))
  {
    if PrintInt(i) == PrintInt(j) {
      PrintIntInjective(i, j);
    }
    var p, q := VifBase(a, i), VifBase(b, j);
    assert p[1..][1..] == [a, "vif", PrintInt(i)] && q[1..][1..] == [b, "vif", PrintInt(j)];
    if a == b {
      assert p[1..][1..][1..][1..] == [PrintInt(i)] && q[1..][1..][1..][1..] == [PrintInt(j)];
      assert Apart(p[1..][1..][1..][1..], q[1..][1..][1..][1..]);
      assert Apart(p[1..][1..][1..], q[1..][1..][1..]);
    }
    assert Apart(p[1..][1..], q[1..][1..]);
    assert Apart(p[1..], q[1..]);
  }

  ghost predicate ObjectAt(cfg: Slot, base: Path) {
    Walkable(cfg, base) && (Get(cfg, base).Some? ==> Get(cfg, base).value.Obj?)
  }

  lemma ReadsItself(places: seq<Place>, cur: Slot)
    ensures LinkReads(places, cur, ReadLink(cur))
    ensures cur.None? ==> ReadLink(cur).addresses == []
  {
    GetNone(["address"]);
  }

  /** What a brand-new link reads as. */
  const BLANK := LinkRecord(None, [], None, None, None, true)

  lemma NewReadsBlank()
    ensures ReadLink(None) == BLANK
  {
    forall k | k in {"description", "address", "mtu", "speed", "duplex", "disable"} {
      GetNone([k]);
    }
  }

  /** Nothing but a blank record is read from an absent NIC. */
  lemma AbsentReadsBlank(w: LinkRecord)
    requires LinkReads(NIC_PLACES, None, w)
    ensures w == BLANK
  {
    hide Get;
    forall p | p in NIC_PLACES
      ensures PlaceReads(w, p, None)
    {
      GetNone([Key(p)]);
    }
    assert PlaceReads(w, Description, None) && PlaceReads(w, Address, None) && PlaceReads(w, Mtu, None);
    assert PlaceReads(w, Speed, None) && PlaceReads(w, Duplex, None) && PlaceReads(w, Disable, None);
    AsSetEmpty(w.addresses);
  }

  /** A blank form for an absent NIC stages the bare `set` of its node and nothing else. */
  lemma BlankNicDiff(eth: Slot, body: EthernetUpdate)
    requires Get(eth, [body.name]).None? && WantedNic(body) == BLANK
    ensures DiffEthernet(eth, body) == [Cmd(Set, EthBase(body.name))]
  {
    hide WantedNic, Get;
    var edits := LinkEdits(NIC_PLACES, ReadLink(None), BLANK);
    forall i | 0 <= i < |edits|
      ensures edits[i].cmds == []
    {
      NewReadsBlank();
    }
    FlatEmpty(edits);
    assert EthBase(body.name) + [] == EthBase(body.name);
  }

  lemma VifNode(cur: Slot)
    requires cur.Some? ==> cur.value.Obj?
    ensures LinkNode(VIF, VIF_PLACES, cur)
  {
  }

  lemma NicNode(cur: Slot)
    requires cur.Some? ==> cur.value.Obj?
    ensures LinkNode(ETHERNET, NIC_PLACES, cur)
  {
  }

  /** Committing a VLAN's diff: the vif exists and reads as wanted, a former vif is gone, the rest is untouched. */
  lemma DiffVlanCorrect(cfg: Slot, body: VlanUpdate)
    requires ObjectAt(cfg, VifBase(body.parent, body.vlanId))
    requires Moved(body) ==> Get(cfg, VifBase(body.parent, body.vlanId)).None? && Walkable(cfg, FormerBase(body))
    ensures
      var base := VifBase(body.parent, body.vlanId);
      var cs := DiffVlan(EthernetTree(cfg), body);
      var r := Run(DEVICE, cfg, cs);
      && r.Applied?
      && Get(r.slot, base).Some?
      && LinkReads(VIF_PLACES, Get(r.slot, base), WantedVlan(body))
      && AsSet(Values(Get(Get(r.slot, base), ["address"]))) == TrimmedEntries(body.addresses)
      && (Moved(body) ==> Get(r.slot, FormerBase(body)).None?)
      && (forall q | Apart(base, q) && (Moved(body) ==> Apart(FormerBase(body), q)) ::
            Get(r.slot, q) == Get(cfg, q) && (Walkable(cfg, q) ==> Walkable(r.slot, q)))
      && (forall q | q != [] && ApartFromPlaces(q, VIF_PLACES) :: Get(Get(r.slot, base), q) == Get(Get(cfg, base), q))
      && ((&& NoDuplicates(ReadLink(Get(cfg, base)).addresses) && DistinctEntries(body.addresses)
           && (Moved(body) ==> Get(cfg, FormerBase(body)).Some?)) ==>
            Effective(DEVICE, cfg, cs))
  {
    hide LinkReads, ReadLink, WantedVlan, LinkEdits, RecordCmds, ApartFromPlaces, TrimmedEntries, DistinctEntries,
         NoDuplicates, Values, WantedAll;
    var base, w := VifBase(body.parent, body.vlanId), WantedVlan(body);
    var live := Get(cfg, base);
    LiveVif(cfg, body.parent, body.vlanId);
    LinkSchemas(body.parent, body.vlanId);
    VifNode(live);
    ReadsItself(VIF_PLACES, live);
    WantedVlanClean(body);
    WantedDistinct(body.addresses);
    LinkRuns(VIF, VIF_PLACES, live, ReadLink(live), w);
    if Moved(body) {
      VifsApart(body.originalParent.value, body.originalVlanId.value, body.parent, body.vlanId);
      LinkSchemas(body.originalParent.value, body.originalVlanId.value);
      RunMove(DEVICE, cfg, FormerBase(body), base, LinkCmds(VIF_PLACES, None, w));
    } else {
      RunBelow(DEVICE, cfg, base, LinkCmds(VIF_PLACES, live, w));
    }
    AddressesRead(VIF_PLACES, Get(Run(DEVICE, cfg, DiffVlan(EthernetTree(cfg), body)).slot, base), w, body.addresses);
  }

  lemma AddressesRead(places: seq<Place>, cur: Slot, w: LinkRecord, fields: seq<string>)
    requires LinkReads(places, cur, w) && Address in places && w.addresses == WantedAll(fields)
    ensures AsSet(Values(Get(cur, ["address"]))) == TrimmedEntries(fields)
  {
    WantedEntries(fields);
    assert PlaceReads(w, Address, Get(cur, [Key(Address)]));
  }

  lemma WantedVlanClean(body: VlanUpdate)
    ensures CleanLink(WantedVlan(body)) && WantedVlan(body).addresses == WantedAll(body.addresses)
  {
  }

  lemma WantedNicClean(body: EthernetUpdate)
    ensures CleanLink(WantedNic(body)) && WantedNic(body).addresses == WantedAll(body.addresses)
  {
  }

  /** Committing a NIC's diff: the NIC exists and reads as wanted; its VLANs and everything else are untouched. */
  lemma DiffEthernetCorrect(cfg: Slot, body: EthernetUpdate)
    requires ObjectAt(cfg, EthBase(body.name))
    ensures
      var base := EthBase(body.name);
      var cs := DiffEthernet(EthernetTree(cfg), body);
      var r := Run(DEVICE, cfg, cs);
      && r.Applied?
      && Get(r.slot, base).Some?
      && LinkReads(NIC_PLACES, Get(r.slot, base), WantedNic(body))
      && AsSet(Values(Get(Get(r.slot, base), ["address"]))) == TrimmedEntries(body.addresses)
      && (forall q | Apart(base, q) ::
            Get(r.slot, q) == Get(cfg, q) && (Walkable(cfg, q) ==> Walkable(r.slot, q)))
      && (forall q | q != [] && ApartFromPlaces(q, NIC_PLACES) :: Get(Get(r.slot, base), q) == Get(Get(cfg, base), q))
      && (forall vid: i32 :: Get(r.slot, VifBase(body.name, vid)) == Get(cfg, VifBase(body.name, vid)))
      && (NoDuplicates(ReadLink(Get(cfg, base)).addresses) && DistinctEntries(body.addresses) ==>
            Effective(DEVICE, cfg, cs))
  {
    hide LinkReads, ReadLink, WantedNic, LinkEdits, RecordCmds, ApartFromPlaces, TrimmedEntries, DistinctEntries,
         NoDuplicates, Values, WantedAll;
    var base, w := EthBase(body.name), WantedNic(body);
    var live := Get(cfg, base);
    LiveNic(cfg, body.name);
    LinkSchemas(body.name, 0);
    NicNode(live);
    ReadsItself(NIC_PLACES, live);
    WantedNicClean(body);
    WantedDistinct(body.addresses);
    LinkRuns(ETHERNET, NIC_PLACES, live, ReadLink(live), w);
    RunBelow(DEVICE, cfg, base, LinkCmds(NIC_PLACES, live, w));
    var after := Run(DEVICE, cfg, DiffEthernet(EthernetTree(cfg), body)).slot;
    AddressesRead(NIC_PLACES, Get(after, base), w, body.addresses);
    VifsKept(cfg, after, body.name);
  }

  lemma VifsKept(before: Slot, after: Slot, name: string)
    requires forall q | q != [] && ApartFromPlaces(q, NIC_PLACES) ::
               Get(Get(after, EthBase(name)), q) == Get(Get(before, EthBase(name)), q)
    ensures forall vid: i32 :: Get(after, VifBase(name, vid)) == Get(before, VifBase(name, vid))
  {
    hide ApartFromPlaces, Get;
    forall vid: i32
      ensures Get(after, VifBase(name, vid)) == Get(before, VifBase(name, vid))
    {
      VifBelowNic(name, vid);
      GetSplit(after, EthBase(name), ["vif", PrintInt(vid)]);
      GetSplit(before, EthBase(name), ["vif", PrintInt(vid)]);
    }
  }

  lemma VifBelowNic(name: string, vid: i32)
    ensures VifBase(name, vid) == EthBase(name) + ["vif", PrintInt(vid)]
    ensures ApartFromPlaces(["vif", PrintInt(vid)], NIC_PLACES)
  {
  }

  /** Diffing a committed VLAN again asks for nothing. */
  lemma DiffVlanFixpoint(cfg: Slot, body: VlanUpdate)
    requires Get(cfg, VifBase(body.parent, body.vlanId)).Some?
    requires LinkReads(VIF_PLACES, Get(cfg, VifBase(body.parent, body.vlanId)), WantedVlan(body))
    ensures DiffVlan(EthernetTree(cfg), body.(originalParent := None)) == []
  {
    LiveVif(cfg, body.parent, body.vlanId);
    LinkFixpoint(VIF_PLACES, Get(cfg, VifBase(body.parent, body.vlanId)), WantedVlan(body));
  }

  /** Diffing a committed NIC again asks for nothing. */
  lemma DiffEthernetFixpoint(cfg: Slot, body: EthernetUpdate)
    requires Get(cfg, EthBase(body.name)).Some?
    requires LinkReads(NIC_PLACES, Get(cfg, EthBase(body.name)), WantedNic(body))
    ensures DiffEthernet(EthernetTree(cfg), body) == []
  {
    LiveNic(cfg, body.name);
    LinkFixpoint(NIC_PLACES, Get(cfg, EthBase(body.name)), WantedNic(body));
  }
}

/** Moving a VLAN onto an id that is already in use: exactly when the result is still what the form asks for. */
module InterfaceMoves {
  import opened Options
  import opened ConfigTree
  import opened Fields
  import opened Edits
  import opened DeviceSchema
  import opened Interfaces

  /** What stands at a place does not survive beside what the form asks for. */
  ghost predicate Yields(w: LinkRecord, p: Place, here: Slot) {
    match p
    case Description => w.description.Some? || ReadText(here).None?
    case Address => AsSet(Values(here)) <= AsSet(w.addresses)
    case Mtu => w.mtu.Some? || ReadInt(here).None?
    case Speed => w.speed.Some? || ReadText(here).None?
    case Duplex => w.duplex.Some? || ReadText(here).None?
    case Disable => !w.enabled || here.None?
  }

  ghost predicate TargetYields(places: seq<Place>, target: Slot, w: LinkRecord) {
    forall p | p in places :: Yields(w, p, Get(target, [Key(p)]))
  }

  lemma PlaceOver(here: Slot, w: LinkRecord, p: Place)
    requires CleanLink(w)
    ensures
      var r := Run(KindOf(p), here, PlaceCmds(BLANK, w, p));
      && r.Applied? && (PlaceReads(w, p, r.slot) <==> Yields(w, p, here))
      && (PlaceCmds(BLANK, w, p) != [] ==> r.slot.Some?)
  {
    match p
    case Description => TextRuns(here, None, w.description);
    case Speed => TextRuns(here, None, w.speed);
    case Duplex => TextRuns(here, None, w.duplex);
    case Mtu => IntRuns(here, None, w.mtu);
    case Disable => FlagRuns(here, false, !w.enabled);
    case Address =>
      SetRuns(Multi, here, [], w.addresses);
      var r := Run(Multi, here, SetCmds([], w.addresses)).slot;
      AsSetEmpty(w.addresses);
      AsSetEmpty(Values(r));
      assert AsSet(Values(here)) + AsSet(w.addresses) == AsSet(w.addresses) <==>
             AsSet(Values(here)) <= AsSet(w.addresses);
  }

  lemma LinkOver(schema: Schema, places: seq<Place>, target: Slot, w: LinkRecord)
    requires LinkNode(schema, places, target) && CleanLink(w)
    ensures
      var r := Run(schema, target, RecordCmds(true, LinkEdits(places, BLANK, w)));
      r.Applied? && (LinkReads(places, r.slot, w) <==> TargetYields(places, target, w))
  {
    var edits := LinkEdits(places, BLANK, w);
    LinkFits(schema, places, target, BLANK, w);
    forall i | 0 <= i < |edits|
      ensures
        var here := After(schema, target, edits[i]);
        && here.Applied? && (edits[i].cmds != [] ==> here.slot.Some?)
        && (PlaceReads(w, places[i], here.slot) <==> Yields(w, places[i], Get(target, [Key(places[i])])))
    {
      assert places[i] in places;
      PlaceOver(Get(target, edits[i].at), w, places[i]);
    }
    RecordRuns(schema, target, true, edits);
    var r := Run(schema, target, RecordCmds(true, edits)).slot;
    forall p | p in places
      ensures PlaceReads(w, p, Get(r, [Key(p)])) <==> Yields(w, p, Get(target, [Key(p)]))
    {
      var i :| 0 <= i < |places| && places[i] == p;
      assert Get(r, edits[i].at) == After(schema, target, edits[i]).slot;
    }
  }

  /** A VLAN move reads back as the form asked if and only if the live target yields at every place. */
  lemma VlanMoveCorrectIff(cfg: Slot, body: VlanUpdate)
    requires ObjectAt(cfg, VifBase(body.parent, body.vlanId))
    requires Moved(body) && Walkable(cfg, FormerBase(body))
    ensures
      var base := VifBase(body.parent, body.vlanId);
      var r := Run(DEVICE, cfg, DiffVlan(EthernetTree(cfg), body));
      && r.Applied?
      && (LinkReads(VIF_PLACES, Get(r.slot, base), WantedVlan(body)) <==>
          TargetYields(VIF_PLACES, Get(cfg, base), WantedVlan(body)))
  {
    hide LinkReads, WantedVlan, LinkEdits, RecordCmds, TargetYields;
    var base, w := VifBase(body.parent, body.vlanId), WantedVlan(body);
    LinkSchemas(body.parent, body.vlanId);
    LinkSchemas(body.originalParent.value, body.originalVlanId.value);
    VifsApart(body.originalParent.value, body.originalVlanId.value, body.parent, body.vlanId);
    RunMove(DEVICE, cfg, FormerBase(body), base, LinkCmds(VIF_PLACES, None, w));
    VifNode(Get(cfg, base));
    WantedVlanClean(body);
    NewReadsBlank();
    LinkOver(VIF, VIF_PLACES, Get(cfg, base), w);
  }

  const ADDRESSED: Slot := Some(Obj(map["address" := Str("10.0.0.1/24")]))

  /** VLAN 10 moved onto a live VLAN 20 by a form without addresses keeps the address of VLAN 20. */
  lemma StaleAddressSurvives(name: string)
    ensures
      var cfg := Put(Put(None, VifBase(name, 20), ADDRESSED), VifBase(name, 10), Some(Obj(map[])));
      var body := VlanUpdate(name, 20, None, [], None, true, Some(name), Some(10));
      var r := Run(DEVICE, cfg, DiffVlan(EthernetTree(cfg), body));
      r.Applied? && !LinkReads(VIF_PLACES, Get(r.slot, VifBase(name, 20)), WantedVlan(body))
  {
    var once := Put(None, VifBase(name, 20), ADDRESSED);
    var cfg := Put(once, VifBase(name, 10), Some(Obj(map[])));
    var body := VlanUpdate(name, 20, None, [], None, true, Some(name), Some(10));
    VifsApart(name, 10, name, 20);
    GetPut(None, VifBase(name, 20), ADDRESSED);
    GetPutApart(once, VifBase(name, 10), Some(Obj(map[])), VifBase(name, 20));
    GetPut(once, VifBase(name, 10), Some(Obj(map[])));
    VlanMoveCorrectIff(cfg, body);
    AddressedDoesNotYield(WantedVlan(body));
  }

  lemma AddressedDoesNotYield(w: LinkRecord)
    requires w.addresses == []
    ensures !TargetYields(VIF_PLACES, ADDRESSED, w)
  {
    assert ["address"][1..] == [] && Get(ADDRESSED, ["address"]) == Some(Str("10.0.0.1/24"));
    assert "10.0.0.1/24" in AsSet(Values(Get(ADDRESSED, [Key(Address)])));
    assert Address in VIF_PLACES && !Yields(w, Address, Get(ADDRESSED, [Key(Address)]));
  }
}

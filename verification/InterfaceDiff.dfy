/** `diff_vlan` and `diff_ethernet` as they run. */
module InterfaceDiff {
  import opened Options
  import opened Text
  import opened ConfigTree
  import opened Fields
  import opened Edits
  import opened DiffBuilder
  import opened Interfaces

  method PushAddresses(base: Path, live: seq<string>, desired: seq<string>, out: seq<Cmd>, created: bool,
                       ghost head: seq<Cmd>, ghost done: seq<Edit>)
    returns (out': seq<Cmd>, created': bool)
    requires Progress(base, head, done, out, created)
    ensures Progress(base, head, done + [Edit(["address"], SetCmds(live, desired))], out', created')
  {
    var cs, added := PushSet(base + ["address"], live, desired);
    Grow(base, head, done, out, created, Edit(["address"], SetCmds(live, desired)));
    out', created' := out + cs, created || added;
  }

  ghost function PlaceEdit(p: Place, live: Slot, w: LinkRecord): Edit {
    Edit([Key(p)], PlaceCmds(ReadLink(live), w, p))
  }

  method ComputeDiffVlan(eth: Slot, body: VlanUpdate) returns (out: seq<Cmd>)
    ensures out == DiffVlan(eth, body)
  {
    hide Progress, LinkEdits, RecordCmds, Below, TextCmds, SetCmds, IntCmds, FlagCmds, Wanted, WantedAll, Get;
    out := [];
    var moved := && body.originalParent.Some? && body.originalVlanId.Some?
                 && (body.originalParent.value != body.parent || body.originalVlanId.value != body.vlanId);
    if moved {
      out := [Cmd(Delete, VifBase(body.originalParent.value, body.originalVlanId.value))];
    }
    var live := if moved then None else Get(eth, [body.parent, "vif", PrintInt(body.vlanId)]);
    var base := VifBase(body.parent, body.vlanId);
    ghost var head, w := out, WantedVlan(body);
    ghost var done: seq<Edit> := [];
    var created := false;
    Started(base, head);
    out, created := PushLeaf(base, ["description"], ReadText(Get(live, ["description"])), body.description,
                             out, created, head, done);
    done := done + [PlaceEdit(Description, live, w)];
    var addresses := CollectEntries(body.addresses);
    out, created := PushAddresses(base, Values(Get(live, ["address"])), addresses, out, created, head, done);
    done := done + [PlaceEdit(Address, live, w)];
    out, created := PushInt(base, "mtu", ReadInt(Get(live, ["mtu"])), body.mtu, out, created, head, done);
    done := done + [PlaceEdit(Mtu, live, w)];
    out, created := PushFlag(base, "disable", Get(live, ["disable"]).Some?, !body.enabled, out, created, head, done);
    done := done + [PlaceEdit(Disable, live, w)];
    VifEdits(live, w);
    Finished(base, head, LinkEdits(VIF_PLACES, ReadLink(live), w), out, created, live.None?);
    ghost var before := out;
    if live.None? && !created {
      out := out + [Cmd(Set, base)];
    }
    assert out == before + if live.None? && !created then [Cmd(Set, base)] else [];
  }

  lemma VifEdits(live: Slot, w: LinkRecord)
    ensures LinkEdits(VIF_PLACES, ReadLink(live), w) ==
            [] + [PlaceEdit(Description, live, w)] + [PlaceEdit(Address, live, w)] + [PlaceEdit(Mtu, live, w)] +
            [PlaceEdit(Disable, live, w)]
  {
  }

  method ComputeDiffEthernet(eth: Slot, body: EthernetUpdate) returns (out: seq<Cmd>)
    ensures out == DiffEthernet(eth, body)
  {
    hide Progress, LinkEdits, RecordCmds, Below, TextCmds, SetCmds, IntCmds, FlagCmds, Wanted, WantedAll, Get;
    var live := Get(eth, [body.name]);
    var base := EthBase(body.name);
    ghost var w := WantedNic(body);
    ghost var done: seq<Edit> := [];
    var created := false;
    out := [];
    Started(base, []);
    out, created := PushLeaf(base, ["description"], ReadText(Get(live, ["description"])), body.description, out, created, [], done);
    done := done + [PlaceEdit(Description, live, w)];
    var addresses := CollectEntries(body.addresses);
    out, created := PushAddresses(base, Values(Get(live, ["address"])), addresses, out, created, [], done);
    done := done + [PlaceEdit(Address, live, w)];
    out, created := PushInt(base, "mtu", ReadInt(Get(live, ["mtu"])), body.mtu, out, created, [], done);
    done := done + [PlaceEdit(Mtu, live, w)];
    out, created := PushLeaf(base, ["speed"], ReadText(Get(live, ["speed"])), body.speed, out, created, [], done);
    done := done + [PlaceEdit(Speed, live, w)];
    out, created := PushLeaf(base, ["duplex"], ReadText(Get(live, ["duplex"])), body.duplex, out, created, [], done);
    done := done + [PlaceEdit(Duplex, live, w)];
    out, created := PushFlag(base, "disable", Get(live, ["disable"]).Some?, !body.enabled, out, created, [], done);
    done := done + [PlaceEdit(Disable, live, w)];
    NicEdits(live, w);
    Finished(base, [], LinkEdits(NIC_PLACES, ReadLink(live), w), out, created, live.None?);
    ghost var before := out;
    if live.None? && !created {
      out := out + [Cmd(Set, base)];
    }
    assert out == before + if live.None? && !created then [Cmd(Set, base)] else [];
  }

  lemma NicEdits(live: Slot, w: LinkRecord)
    ensures LinkEdits(NIC_PLACES, ReadLink(live), w) ==
            [] + [PlaceEdit(Description, live, w)] + [PlaceEdit(Address, live, w)] + [PlaceEdit(Mtu, live, w)] +
            [PlaceEdit(Speed, live, w)] + [PlaceEdit(Duplex, live, w)] + [PlaceEdit(Disable, live, w)]
  {
  }
}

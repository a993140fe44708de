/** `diff_nat44` as it runs: commands pushed onto one list, with a flag for whether a `set` was pushed. */
module NatDiff {
  import opened Options
  import opened Text
  import opened ConfigTree
  import opened Fields
  import opened Edits
  import opened DiffBuilder
  import opened NatRules

  /** The interface: a change drops the live form, then sets the new one. */
  method PushInterface(base: Path, key: string, live: (Option<string>, bool), desired: Option<string>, group: bool,
                       out: seq<Cmd>, created: bool, ghost head: seq<Cmd>, ghost done: seq<Edit>)
    returns (out': seq<Cmd>, created': bool)
    requires Progress(base, head, done, out, created)
    requires live.0.None? ==> !live.1
    ensures Progress(base, head,
                     done + [Edit([key], InterfaceCmds(live, Wanted(desired), group && Wanted(desired).Some?))],
                     out', created')
  {
    out', created' := out, created;
    var want := Wanted(desired);
    ghost var cs := InterfaceCmds(live, want, group && want.Some?);
    Grow(base, head, done, out, created, Edit([key], cs));
    assert base + [key] + [] == base + [key];
    if (want, group) != live {
      if live.0.Some? {
        out' := out' + [Cmd(Delete, base + [key])];
      }
      if want.Some? {
        var kind := if group then "group" else "name";
        out' := out' + [Cmd(Set, base + [key, kind, want.value])];
        created' := true;
        assert cs[|cs| - 1].op == Set;
        assert base + [key] + [kind, want.value] == base + [key, kind, want.value];
      }
      assert out' == out + Below(base + [key], cs);
    } else {
      assert out == out + Below(base + [key], cs);
    }
  }

  /** The text leaves, in the order the source visits them. */
  method PushLeaves(base: Path, live: Slot, body: RuleUpdate, head: seq<Cmd>, ghost key: string)
    returns (out: seq<Cmd>, created: bool)
    ensures Progress(base, head, RuleEdits(key, ReadRule(key, live), WantedRule(body))[..8], out, created)
  {
    hide Progress;
    out, created := head, false;
    ghost var done: seq<Edit> := [];
    Started(base, head);
    out, created := PushLeaf(base, ["description"], ReadText(Get(live, ["description"])), body.description,
                             out, created, head, done);
    done := done + [LeafEdit(["description"], live, body.description)];
    out, created := PushLeaf(base, ["source", "address"], ReadText(Get(live, ["source", "address"])), body.sourceAddress,
                             out, created, head, done);
    done := done + [LeafEdit(["source", "address"], live, body.sourceAddress)];
    out, created := PushLeaf(base, ["source", "port"], ReadText(Get(live, ["source", "port"])), body.sourcePort,
                             out, created, head, done);
    done := done + [LeafEdit(["source", "port"], live, body.sourcePort)];
    out, created := PushLeaf(base, ["destination", "address"], ReadText(Get(live, ["destination", "address"])), body.destinationAddress,
                             out, created, head, done);
    done := done + [LeafEdit(["destination", "address"], live, body.destinationAddress)];
    out, created := PushLeaf(base, ["destination", "port"], ReadText(Get(live, ["destination", "port"])), body.destinationPort,
                             out, created, head, done);
    done := done + [LeafEdit(["destination", "port"], live, body.destinationPort)];
    out, created := PushLeaf(base, ["protocol"], ReadText(Get(live, ["protocol"])), body.protocol,
                             out, created, head, done);
    done := done + [LeafEdit(["protocol"], live, body.protocol)];
    out, created := PushLeaf(base, ["translation", "address"], ReadText(Get(live, ["translation", "address"])), body.translationAddress,
                             out, created, head, done);
    done := done + [LeafEdit(["translation", "address"], live, body.translationAddress)];
    out, created := PushLeaf(base, ["translation", "port"], ReadText(Get(live, ["translation", "port"])), body.translationPort,
                             out, created, head, done);
    done := done + [LeafEdit(["translation", "port"], live, body.translationPort)];
    LeafEdits(key, live, body);
  }

  ghost function LeafEdit(at: Path, live: Slot, desired: Option<string>): Edit {
    Edit(at, TextCmds(ReadText(Get(live, at)), Wanted(desired)))
  }

  lemma LeafEdits(key: string, live: Slot, body: RuleUpdate)
    ensures RuleEdits(key, ReadRule(key, live), WantedRule(body))[..8] ==
            [] +
            [LeafEdit(["description"], live, body.description)] +
            [LeafEdit(["source", "address"], live, body.sourceAddress)] +
            [LeafEdit(["source", "port"], live, body.sourcePort)] +
            [LeafEdit(["destination", "address"], live, body.destinationAddress)] +
            [LeafEdit(["destination", "port"], live, body.destinationPort)] +
            [LeafEdit(["protocol"], live, body.protocol)] +
            [LeafEdit(["translation", "address"], live, body.translationAddress)] +
            [LeafEdit(["translation", "port"], live, body.translationPort)]
  {
    hide TextCmds, FlagCmds, InterfaceCmds, ReadText, ReadInterface, Wanted, Get;
  }

  ghost function InterfaceEdit(key: string, live: Slot, body: RuleUpdate): Edit {
    var want := Wanted(body.interface);
    Edit([key], InterfaceCmds(ReadInterface(Get(live, [key])), want, body.interfaceGroup && want.Some?))
  }

  ghost function FlagEdit(name: string, live: Slot, desired: bool): Edit {
    Edit([name], FlagCmds(Get(live, [name]).Some?, desired))
  }

  lemma LastEdits(key: string, live: Slot, body: RuleUpdate)
    ensures
      var edits := RuleEdits(key, ReadRule(key, live), WantedRule(body));
      edits == edits[..8] + [InterfaceEdit(key, live, body)] + [FlagEdit("exclude", live, body.exclude)] +
               [FlagEdit("log", live, body.log)] + [FlagEdit("disable", live, !body.enabled)]
  {
    hide TextCmds, FlagCmds, InterfaceCmds, ReadText, ReadInterface, Wanted, Get;
  }

  method ComputeDiffNat44(natTree: Slot, body: RuleUpdate) returns (out: seq<Cmd>)
    ensures out == DiffNat44(natTree, body)
  {
    hide Progress, RecordCmds, RuleEdits, ReadRule, WantedRule, Below, Get, InterfaceCmds, FlagCmds, Wanted, PrintInt;
    var section, key := body.section, InterfaceKey(body.section);
    out := [];
    var moved := body.originalRule.Some? && body.originalRule.value != body.rule;
    if moved {
      out := [Cmd(Delete, RuleBase(section, body.originalRule.value))];
    }
    var live := if moved then None else Get(natTree, [section, "rule", PrintInt(body.rule)]);
    var base := RuleBase(section, body.rule);
    ghost var head := out;
    ghost var edits := RuleEdits(key, ReadRule(key, live), WantedRule(body));
    var created;
    out, created := PushLeaves(base, live, body, out, key);
    ghost var done := edits[..8];
    out, created := PushInterface(base, key, ReadInterface(Get(live, [key])), body.interface, body.interfaceGroup,
                                  out, created, head, done);
    done := done + [InterfaceEdit(key, live, body)];
    out, created := PushFlag(base, "exclude", Get(live, ["exclude"]).Some?, body.exclude, out, created, head, done);
    done := done + [FlagEdit("exclude", live, body.exclude)];
    out, created := PushFlag(base, "log", Get(live, ["log"]).Some?, body.log, out, created, head, done);
    done := done + [FlagEdit("log", live, body.log)];
    out, created := PushFlag(base, "disable", Get(live, ["disable"]).Some?, !body.enabled, out, created, head, done);
    done := done + [FlagEdit("disable", live, !body.enabled)];
    LastEdits(key, live, body);
    Finished(base, head, edits, out, created, live.None?);
    ghost var before := out;
    if live.None? && !created {
      out := out + [Cmd(Set, base)];
    }
    assert out == before + if live.None? && !created then [Cmd(Set, base)] else [];
    assert out == head + Below(base, RuleCmds(key, live, WantedRule(body)));
  }
}

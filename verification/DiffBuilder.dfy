/** The steps by which the diffs push commands onto a list, with the flag that a `set` was among them. */
module DiffBuilder {
  import opened Options
  import opened Text
  import opened ConfigTree
  import opened Fields
  import opened Edits

  /** One text leaf: `set` a wanted value that differs, `delete` an unwanted live one. */
  method LeafCommands(place: Path, live: Option<string>, desired: Option<string>) returns (cs: seq<Cmd>)
    ensures cs == Below(place, TextCmds(live, Wanted(desired)))
  {
    var want := Wanted(desired);
    if want == live {
      return [];
    }
    match want {
      case Some(v) => return [Cmd(Set, place + [v])];
      case None =>
        assert place + [] == place;
        return [Cmd(Delete, place)];
    }
  }

  /** One valueless leaf. */
  method FlagCommands(place: Path, liveOn: bool, desired: bool) returns (cs: seq<Cmd>)
    ensures cs == Below(place, FlagCmds(liveOn, desired))
  {
    assert place + [] == place;
    if desired == liveOn {
      return [];
    }
    return [Cmd(if desired then Set else Delete, place)];
  }

  /** `nat_leaf`: a text leaf pushed onto the list, noting a `set`. */
  method PushLeaf(base: Path, sub: Path, live: Option<string>, desired: Option<string>, out: seq<Cmd>, created: bool,
                  ghost head: seq<Cmd>, ghost done: seq<Edit>)
    returns (out': seq<Cmd>, created': bool)
    requires Progress(base, head, done, out, created)
    ensures Progress(base, head, done + [Edit(sub, TextCmds(live, Wanted(desired)))], out', created')
  {
    hide Progress, Below;
    ghost var e := Edit(sub, TextCmds(live, Wanted(desired)));
    Grow(base, head, done, out, created, e);
    var cs := LeafCommands(base + sub, live, desired);
    out', created' := out + cs, created || (Wanted(desired) != live && Wanted(desired).Some?);
    assert Wanted(desired) != live && Wanted(desired).Some? ==> e.cmds[0].op == Set;
  }

  method PushFlag(base: Path, key: string, liveOn: bool, desired: bool, out: seq<Cmd>, created: bool,
                  ghost head: seq<Cmd>, ghost done: seq<Edit>)
    returns (out': seq<Cmd>, created': bool)
    requires Progress(base, head, done, out, created)
    ensures Progress(base, head, done + [Edit([key], FlagCmds(liveOn, desired))], out', created')
  {
    hide Progress, Below;
    ghost var e := Edit([key], FlagCmds(liveOn, desired));
    Grow(base, head, done, out, created, e);
    var cs := FlagCommands(base + [key], liveOn, desired);
    out', created' := out + cs, created || (desired && !liveOn);
    assert desired && !liveOn ==> e.cmds[0].op == Set;
  }

  /** The MTU leaf, printed in decimal. */
  method PushInt(base: Path, key: string, live: Option<i32>, desired: Option<i32>, out: seq<Cmd>, created: bool,
                 ghost head: seq<Cmd>, ghost done: seq<Edit>)
    returns (out': seq<Cmd>, created': bool)
    requires Progress(base, head, done, out, created)
    ensures Progress(base, head, done + [Edit([key], IntCmds(live, desired))], out', created')
  {
    out', created' := out, created;
    Grow(base, head, done, out, created, Edit([key], IntCmds(live, desired)));
    assert base + [key] + [] == base + [key];
    if desired == live {
      assert out == out + Below(base + [key], []);
    } else if desired.Some? {
      var v := PrintInt(desired.value);
      out', created' := out + [Cmd(Set, base + [key] + [v])], true;
      assert [Cmd(Set, [v])][0].op == Set;
      assert [Cmd(Set, base + [key] + [v])] == Below(base + [key], [Cmd(Set, [v])]);
    } else {
      out' := out + [Cmd(Delete, base + [key])];
      assert [Cmd(Delete, base + [key])] == Below(base + [key], [Cmd(Delete, [])]);
    }
  }

  /** One loop over a list of values: a command for each entry the other list lacks. */
  method PushMissing(place: Path, op: Op, vs: seq<string>, except: seq<string>) returns (cs: seq<Cmd>, any: bool)
    ensures cs == Below(place, Each(op, Missing(vs, except)))
    ensures any == (Missing(vs, except) != [])
  {
    hide Below, Each;
    cs, any := [], false;
    ghost var words: seq<string> := [];
    EachNone(place, op);
    for i := 0 to |vs|
      invariant words + Missing(vs[i..], except) == Missing(vs, except)
      invariant cs == Below(place, Each(op, words))
      invariant any == (words != [])
    {
      var a := vs[i];
      assert vs[i..][1..] == vs[i + 1..];
      assert Missing(vs[i..], except) == (if a in except then [] else [a]) + Missing(vs[i + 1..], except);
      if a !in except {
        cs, any := cs + [Cmd(op, place + [a])], true;
        EachAppend(place, op, words, a);
        words := words + [a];
      }
    }
    assert vs[|vs|..] == [] && words == Missing(vs, except);
  }

  /** Add what is new, then remove what is no longer wanted. */
  method PushSet(place: Path, live: seq<string>, desired: seq<string>) returns (cs: seq<Cmd>, added: bool)
    ensures cs == Below(place, SetCmds(live, desired))
    ensures added == AnySet(SetCmds(live, desired))
  {
    var adds;
    adds, added := PushMissing(place, Set, desired, live);
    var removes, _ := PushMissing(place, Delete, live, desired);
    cs := adds + removes;
    var sets, deletes := Each(Set, Missing(desired, live)), Each(Delete, Missing(live, desired));
    BelowAppend(place, sets, deletes);
    AnySetAppend(sets, deletes);
    assert added ==> sets[0].op == Set;
  }

  lemma EachNone(place: Path, op: Op)
    ensures Below(place, Each(op, [])) == []
  {
  }

  lemma BelowAppend(place: Path, a: seq<Cmd>, b: seq<Cmd>)
    ensures Below(place, a + b) == Below(place, a) + Below(place, b)
  {
  }

  lemma EachAppend(place: Path, op: Op, words: seq<string>, w: string)
    ensures Below(place, Each(op, words + [w])) == Below(place, Each(op, words)) + [Cmd(op, place + [w])]
  {
  }

  /** The trimmed, non-blank entries of the form's list. */
  method CollectEntries(fields: seq<string>) returns (r: seq<string>)
    ensures r == WantedAll(fields)
  {
    r := [];
    for i := 0 to |fields|
      invariant r + WantedAll(fields[i..]) == WantedAll(fields)
    {
      assert fields[i..][1..] == fields[i + 1..];
      var v := Trim(fields[i]);
      if v != "" {
        r := r + [v];
      }
    }
    assert fields[|fields|..] == [];
  }
}

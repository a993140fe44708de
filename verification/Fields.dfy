/** The kinds of field a typed form edits, each with its reader and the commands its diff emits. */
module Fields {
  import opened Options
  import opened Text
  import opened ConfigTree

  // ── single-valued leaves ───────────────────────────────────────────────────

  /** `child_str`: the trimmed text of a string node, absent when blank. */
  function ReadText(cur: Slot): (r: Option<string>)
    ensures r.Some? ==> cur.Some?
    ensures r.Some? ==> r.value != "" && Trimmed(r.value)
  {
    match cur
    case Some(Str(v)) => NonBlank(v)
    case _ => None
  }

  ghost predicate CleanText(t: Option<string>) {
    t.Some? ==> t.value != "" && Trimmed(t.value)
  }

  function TextCmds(seen: Option<string>, want: Option<string>): seq<Cmd> {
    if want == seen then []
    else if want.Some? then [Cmd(Set, [want.value])]
    else [Cmd(Delete, [])]
  }

  /** Diffing against the live value makes the leaf read as wanted; diffing against nothing only adds. */
  lemma TextRuns(cur: Slot, seen: Option<string>, want: Option<string>)
    requires CleanText(want)
    requires seen == ReadText(cur) || seen.None?
    ensures
      var r := Run(Leaf, cur, TextCmds(seen, want));
      && r.Applied?
      && ReadText(r.slot) == (if want.Some? || seen.Some? then want else ReadText(cur))
      && (want.Some? ==> r.slot.Some?)
    ensures seen == ReadText(cur) ==> Effective(Leaf, cur, TextCmds(seen, want))
  {
    var cs := TextCmds(seen, want);
    if |cs| == 1 {
      assert cs[1..] == [];
    }
  }

  // ── valueless leaves ───────────────────────────────────────────────────────

  const FLAG: Schema := Branch(map[])

  function FlagCmds(seen: bool, want: bool): seq<Cmd> {
    if want == seen then [] else if want then [Cmd(Set, [])] else [Cmd(Delete, [])]
  }

  lemma FlagRuns(cur: Slot, seen: bool, want: bool)
    requires seen == cur.Some? || !seen
    ensures
      var r := Run(FLAG, cur, FlagCmds(seen, want));
      && r.Applied?
      && (r.slot.Some? <==> (if want || seen then want else cur.Some?))
    ensures seen == cur.Some? ==> Effective(FLAG, cur, FlagCmds(seen, want))
  {
    var cs := FlagCmds(seen, want);
    if |cs| == 1 {
      assert cs[1..] == [];
    }
  }

  // ── integer leaves ─────────────────────────────────────────────────────────

  /** A 64-bit JSON integer narrowed the way `as i32` does. */
  function Narrow(n: int): i32 {
    var m := n % 0x1_0000_0000;
    if m < 0x8000_0000 then m else m - 0x1_0000_0000
  }

  /** `as_mtu` */
  function ReadInt(cur: Slot): Option<i32> {
    match cur
    case Some(Str(v)) => ParseI32(Trim(v))
    case Some(Num(n)) =>
      if -0x8000_0000_0000_0000 <= n < 0x8000_0000_0000_0000 then Some(Narrow(n)) else None
    case _ => None
  }

  function IntCmds(seen: Option<i32>, want: Option<i32>): seq<Cmd> {
    if want == seen then []
    else if want.Some? then [Cmd(Set, [PrintInt(want.value)])]
    else [Cmd(Delete, [])]
  }

  lemma IntRuns(cur: Slot, seen: Option<i32>, want: Option<i32>)
    requires seen == ReadInt(cur) || seen.None?
    ensures
      var r := Run(Leaf, cur, IntCmds(seen, want));
      && r.Applied?
      && ReadInt(r.slot) == (if want.Some? || seen.Some? then want else ReadInt(cur))
      && (want.Some? ==> r.slot.Some?)
    ensures seen == ReadInt(cur) ==> Effective(Leaf, cur, IntCmds(seen, want))
  {
    var cs := IntCmds(seen, want);
    if |cs| == 1 {
      assert cs[1..] == [];
    }
    if want.Some? {
      ParsePrint(want.value, -0x8000_0000, 0x8000_0000);
    }
  }

  // ── sets of values ─────────────────────────────────────────────────────────

  function AsSet(vs: seq<string>): set<string> {
    set v | v in vs
  }

  lemma AsSetEmpty(vs: seq<string>)
    ensures AsSet(vs) == {} <==> vs == []
  {
    if vs != [] {
      assert vs[0] in AsSet(vs);
    }
  }

  ghost predicate NoDuplicates(vs: seq<string>) {
    forall i, j | 0 <= i < j < |vs| :: vs[i] != vs[j]
  }

  /** The words of `vs` that are not in `except`, in order. */
  function Missing(vs: seq<string>, except: seq<string>): (ws: seq<string>)
    ensures forall w :: w in ws <==> w in vs && w !in except
    ensures NoDuplicates(vs) ==> NoDuplicates(ws)
  {
    if vs == [] then []
    else if vs[0] in except then Missing(vs[1..], except)
    else [vs[0]] + Missing(vs[1..], except)
  }

  function Each(op: Op, words: seq<string>): (cs: seq<Cmd>) {
    seq(|words|, i requires 0 <= i < |words| => Cmd(op, [words[i]]))
  }

  /** Adds what is wanted and not there, then removes what is there and not wanted. */
  function SetCmds(seen: seq<string>, want: seq<string>): seq<Cmd> {
    Each(Set, Missing(want, seen)) + Each(Delete, Missing(seen, want))
  }

  /** Nodes that hold a set of words: a multi-valued leaf, or a tag node whose keys are the words. */
  predicate HoldsSet(s: Schema, cur: Slot) {
    || s.Multi?
    || (s.Tag? && (s.each.Branch? || s.each.Tag?) && (cur.None? || cur.value.Obj?))
  }

  function Members(s: Schema, cur: Slot): set<string> {
    if s.Multi? then AsSet(Values(cur)) else Kids(cur).Keys
  }

  lemma StepAdds(s: Schema, cur: Slot, v: string)
    requires HoldsSet(s, cur)
    ensures
      var r := Step(s, cur, Cmd(Set, [v]));
      && r.Applied? && HoldsSet(s, r.slot)
      && Members(s, r.slot) == Members(s, cur) + {v}
  {
    if s.Multi? {
      var vs := Values(cur);
      assert AsSet(vs + [v]) == AsSet(vs) + {v};
    } else {
      assert [v][1..] == [];
      assert SetAt(s.each, Kid(cur, v), []).Some?;
    }
  }

  lemma StepRemoves(s: Schema, cur: Slot, v: string)
    requires HoldsSet(s, cur)
    ensures
      var r := Step(s, cur, Cmd(Delete, [v]));
      && r.Applied? && HoldsSet(s, r.slot)
      && Members(s, r.slot) == Members(s, cur) - {v}
  {
    if s.Multi? {
      var vs := Without(Values(cur), v);
      assert AsSet(vs) == AsSet(Values(cur)) - {v};
    } else {
      assert [v][1..] == [] && DeleteAt(s.each, Kid(cur, v), []) == None;
      assert (Kids(cur) - {v}).Keys == Kids(cur).Keys - {v};
    }
  }

  function Changed(op: Op, members: set<string>, words: set<string>): set<string> {
    match op
    case Set => members + words
    case Delete => members - words
  }

  lemma StepChanges(s: Schema, cur: Slot, op: Op, v: string)
    requires HoldsSet(s, cur)
    ensures
      var r := Step(s, cur, Cmd(op, [v]));
      r.Applied? && HoldsSet(s, r.slot) && Members(s, r.slot) == Changed(op, Members(s, cur), {v})
  {
    match op
    case Set => StepAdds(s, cur, v);
    case Delete => StepRemoves(s, cur, v);
  }

  lemma {:induction false} RunEach(s: Schema, cur: Slot, op: Op, words: seq<string>)
    requires HoldsSet(s, cur)
    ensures
      var r := Run(s, cur, Each(op, words));
      && r.Applied? && HoldsSet(s, r.slot)
      && Members(s, r.slot) == Changed(op, Members(s, cur), AsSet(words))
    ensures NoDuplicates(words) && (forall w | w in words :: w in Members(s, cur) <==> op == Delete) ==>
              Effective(s, cur, Each(op, words))
    decreases words
  {
    if words != [] {
      var w, rest := words[0], words[1..];
      assert Each(op, words)[1..] == Each(op, rest);
      assert AsSet(words) == AsSet(rest) + {w};
      StepChanges(s, cur, op, w);
      RunEach(s, Step(s, cur, Cmd(op, [w])).slot, op, rest);
    }
  }

  /** After the diff of a set against what is there, exactly the wanted words are there. */
  lemma SetRuns(s: Schema, cur: Slot, seen: seq<string>, want: seq<string>)
    requires HoldsSet(s, cur)
    requires AsSet(seen) == Members(s, cur) || seen == []
    ensures
      var r := Run(s, cur, SetCmds(seen, want));
      && r.Applied? && HoldsSet(s, r.slot)
      && Members(s, r.slot) == (if seen == [] then Members(s, cur) + AsSet(want) else AsSet(want))
    ensures AsSet(seen) == Members(s, cur) && NoDuplicates(seen) && NoDuplicates(want) ==>
              Effective(s, cur, SetCmds(seen, want))
  {
    var adds, removes := Missing(want, seen), Missing(seen, want);
    RunEach(s, cur, Set, adds);
    var mid := Run(s, cur, Each(Set, adds)).slot;
    RunEach(s, mid, Delete, removes);
    RunAppend(s, cur, Each(Set, adds), Each(Delete, removes));
    assert AsSet(adds) == AsSet(want) - AsSet(seen);
    assert AsSet(removes) == AsSet(seen) - AsSet(want);
  }

  /** A set that already reads as wanted needs no commands. */
  lemma NothingToDo(seen: seq<string>, want: seq<string>)
    requires AsSet(seen) == AsSet(want)
    ensures SetCmds(seen, want) == []
  {
    forall v | v in seen || v in want
      ensures v in seen && v in want
    {
      assert v in AsSet(seen) <==> v in AsSet(want);
    }
    MissingNothing(want, seen);
    MissingNothing(seen, want);
  }

  lemma {:induction false} MissingNothing(vs: seq<string>, except: seq<string>)
    requires forall v | v in vs :: v in except
    ensures Missing(vs, except) == []
  {
    if vs != [] {
      MissingNothing(vs[1..], except);
    }
  }

  /** The entries of a form's list: trimmed, blanks dropped. */
  function WantedAll(fields: seq<string>): seq<string> {
    if fields == [] then []
    else
      var first := NonBlank(fields[0]);
      (if first.Some? then [first.value] else []) + WantedAll(fields[1..])
  }

  /** The text a form asks for in a list: its entries, trimmed, without the blank ones. */
  ghost function TrimmedEntries(fields: seq<string>): set<string> {
    set i | 0 <= i < |fields| && Trim(fields[i]) != "" :: Trim(fields[i])
  }

  /** The positions, from `i` on, of the entries that are not blank. */
  ghost function KeptFrom(fields: seq<string>, i: nat): (ks: seq<nat>)
    requires i <= |fields|
    ensures forall k: nat :: k in ks <==> i <= k < |fields| && Trim(fields[k]) != ""
    ensures forall a, b | 0 <= a < b < |ks| :: ks[a] < ks[b]
    decreases |fields| - i
  {
    if i == |fields| then []
    else if Trim(fields[i]) == "" then KeptFrom(fields, i + 1)
    else
      var rest := KeptFrom(fields, i + 1);
      assert forall a | 0 <= a < |rest| :: rest[a] in rest;
      [i] + rest
  }

  lemma {:induction false} KeptAre(fields: seq<string>, i: nat)
    requires i <= |fields|
    ensures |WantedAll(fields[i..])| == |KeptFrom(fields, i)|
    ensures forall k: nat | k in KeptFrom(fields, i) :: k < |fields|
    ensures forall a | 0 <= a < |KeptFrom(fields, i)| ::
              KeptFrom(fields, i)[a] in KeptFrom(fields, i) &&
              WantedAll(fields[i..])[a] == Trim(fields[KeptFrom(fields, i)[a]])
    decreases |fields| - i
  {
    hide Trim;
    if i < |fields| {
      assert fields[i..][0] == fields[i] && fields[i..][1..] == fields[i + 1..];
      KeptAre(fields, i + 1);
    }
  }

  /** Which entries of a form's list are wanted: those that are not blank, in their order, each trimmed. */
  lemma EntriesKept(fields: seq<string>) returns (ks: seq<nat>)
    ensures |ks| == |WantedAll(fields)|
    ensures forall a | 0 <= a < |ks| :: ks[a] < |fields| && WantedAll(fields)[a] == Trim(fields[ks[a]])
    ensures forall a, b | 0 <= a < b < |ks| :: ks[a] < ks[b]
    ensures forall k: nat :: k in ks <==> k < |fields| && Trim(fields[k]) != ""
  {
    hide Trim, KeptFrom, WantedAll;
    ks := KeptFrom(fields, 0);
    assert fields[0..] == fields;
    KeptAre(fields, 0);
  }

  lemma WantedEntries(fields: seq<string>)
    ensures AsSet(WantedAll(fields)) == TrimmedEntries(fields)
  {
    var ks := EntriesKept(fields);
    forall v | v in AsSet(WantedAll(fields))
      ensures v in TrimmedEntries(fields)
    {
      var j :| 0 <= j < |ks| && WantedAll(fields)[j] == v;
      assert ks[j] in ks;
    }
    forall v | v in TrimmedEntries(fields)
      ensures v in AsSet(WantedAll(fields))
    {
      var i :| 0 <= i < |fields| && Trim(fields[i]) != "" && Trim(fields[i]) == v;
      var j :| 0 <= j < |ks| && ks[j] == i;
      assert WantedAll(fields)[j] == v;
    }
  }

  /** No entry of the form's list is there twice, up to white space. */
  ghost predicate DistinctEntries(fields: seq<string>) {
    forall i, j | 0 <= i < j < |fields| && Trim(fields[i]) != "" :: Trim(fields[i]) != Trim(fields[j])
  }

  lemma WantedDistinct(fields: seq<string>)
    ensures NoDuplicates(WantedAll(fields)) <==> DistinctEntries(fields)
  {
    var ks := EntriesKept(fields);
    var vs := WantedAll(fields);
    if DistinctEntries(fields) {
      forall i, j | 0 <= i < j < |vs|
        ensures vs[i] != vs[j]
      {
        assert ks[i] < ks[j] && ks[i] in ks;
      }
    }
    if NoDuplicates(vs) {
      forall i, j | 0 <= i < j < |fields| && Trim(fields[i]) != ""
        ensures Trim(fields[i]) != Trim(fields[j])
      {
        if Trim(fields[j]) != "" {
          var a :| 0 <= a < |ks| && ks[a] == i;
          var b :| 0 <= b < |ks| && ks[b] == j;
          if b < a {
            assert false;
          }
        }
      }
    }
  }

  // ── what the readers read ──────────────────────────────────────────────────

  /** A text field reads as a form's field asks exactly when the leaf holds that text, up to white space, or no text. */
  lemma ReadsTextIff(x: Slot, field: Option<string>)
    ensures
      ReadText(x) == Wanted(field) <==>
      (if field.Some? && Trim(field.value) != ""
       then x.Some? && x.value.Str? && Trim(x.value.text) == Trim(field.value)
       else x.Some? && x.value.Str? ==> Trim(x.value.text) == "")
  {
  }

  /** An integer leaf is read from its numeral, with blanks around it, or from a JSON number. */
  lemma ReadsInt(n: i32, a: string, b: string)
    requires Blank(a) && Blank(b)
    ensures ReadInt(Some(Num(n))) == Some(n)
    ensures ReadInt(None).None?
    ensures ReadInt(Some(Str(a + PrintInt(n) + b))) == Some(n)
  {
    hide PrintInt, ParseInt, Trim;
    ParsePrint(n, -0x8000_0000, 0x8000_0000);
    TrimFinds(a, PrintInt(n), b);
  }

  /** A JSON number that is no 32-bit integer is read modulo 2^32; beyond 64 bits it is not read. */
  lemma ReadsWideInt(n: int)
    ensures ReadInt(Some(Num(n))).Some? <==> -0x8000_0000_0000_0000 <= n < 0x8000_0000_0000_0000
    ensures ReadInt(Some(Num(n))).Some? ==> (ReadInt(Some(Num(n))).value - n) % 0x1_0000_0000 == 0
  {
  }

  /** A multi-valued leaf holds a value: as its only text, or among several. */
  predicate Carries(x: Slot, v: string) {
    x == Some(Str(v)) || (x.Some? && x.value.Arr? && v in x.value.items)
  }

  lemma CarriesValues(x: Slot)
    ensures forall v :: Carries(x, v) <==> v in AsSet(Values(x))
  {
  }
}

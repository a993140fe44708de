/** `diff_system` as it runs, with its early return when NTP is switched off. */
module SystemDiff {
  import opened Options
  import opened Text
  import opened ConfigTree
  import opened Fields
  import opened Edits
  import opened DiffBuilder
  import opened SystemConfig

  method ComputeDiffSystem(live: LiveSystem, u: SystemUpdate) returns (out: seq<Cmd>)
    ensures out == DiffSystem(live, u)
  {
    ghost var parts := Parts(live, u);
    PartsAre(live, u);
    out := [];
    if u.hostname.Some? {
      var hostname := Trim(u.hostname.value);
      if hostname != "" && Some(hostname) != live.hostname {
        out := out + [Cmd(Set, ["system", "host-name", hostname])];
      }
    }
    assert out == parts[0];
    if u.domainName.Some? {
      var domain := Trim(u.domainName.value);
      if domain == "" {
        if live.domainName.Some? {
          out := out + [Cmd(Delete, ["system", "domain-name"])];
        }
      } else if Some(domain) != live.domainName {
        out := out + [Cmd(Set, ["system", "domain-name", domain])];
      }
    }
    assert out == parts[0] + parts[1];
    if u.timeZone.Some? {
      var tz := Trim(u.timeZone.value);
      if tz != "" && Some(tz) != live.timeZone {
        out := out + [Cmd(Set, ["system", "time-zone", tz])];
      }
    }
    assert out == parts[0] + parts[1] + parts[2];

    var base := live.ntpBase;
    if u.ntpEnabled == Some(false) {
      if live.ntpEnabled {
        out := out + [Cmd(Delete, base)];
      }
      return;
    }
    if u.ntpServers.Some? {
      var desired := CollectEntries(u.ntpServers.value);
      var servers, _ := PushSet(base + ["server"], live.ntpServers, desired);
      out := out + servers;
    }
  }

  /** The commands of the four fields, by absolute path. */
  ghost function Parts(live: LiveSystem, u: SystemUpdate): (r: seq<seq<Cmd>>)
    ensures |r| == 4
  {
    [ if Wanted(u.hostname).Some? && Wanted(u.hostname) != live.hostname
      then [Cmd(Set, ["system", "host-name", Wanted(u.hostname).value])] else [],
      if u.domainName.None? || Wanted(u.domainName) == live.domainName then []
      else if Wanted(u.domainName).Some? then [Cmd(Set, ["system", "domain-name", Wanted(u.domainName).value])]
      else [Cmd(Delete, ["system", "domain-name"])],
      if Wanted(u.timeZone).Some? && Wanted(u.timeZone) != live.timeZone
      then [Cmd(Set, ["system", "time-zone", Wanted(u.timeZone).value])] else [],
      if u.ntpEnabled == Some(false) then (if live.ntpEnabled then [Cmd(Delete, live.ntpBase)] else [])
      else if u.ntpServers.None? then []
      else Below(live.ntpBase + ["server"], SetCmds(live.ntpServers, WantedAll(u.ntpServers.value))) ]
  }

  lemma PartsAre(live: LiveSystem, u: SystemUpdate)
    ensures DiffSystem(live, u) == Parts(live, u)[0] + Parts(live, u)[1] + Parts(live, u)[2] + Parts(live, u)[3]
  {
    hide Below, Flat, SetCmds, Wanted, WantedAll;
    var es := SystemEdits(live, u);
    PartIs(live, u, 0);
    PartIs(live, u, 1);
    PartIs(live, u, 2);
    PartIs(live, u, 3);
    assert es == [es[0]] + ([es[1]] + ([es[2]] + ([es[3]] + [])));
    FlatCons(es[3], []);
    FlatCons(es[2], [es[3]] + []);
    FlatCons(es[1], [es[2]] + ([es[3]] + []));
    FlatCons(es[0], [es[1]] + ([es[2]] + ([es[3]] + [])));
  }

  lemma FlatCons(e: Edit, rest: seq<Edit>)
    ensures Flat([e] + rest) == Below(e.at, e.cmds) + Flat(rest) && Flat([]) == []
  {
    assert ([e] + rest)[1..] == rest;
  }

  lemma PartIs(live: LiveSystem, u: SystemUpdate, i: nat)
    requires i < 4
    ensures Below(SystemEdits(live, u)[i].at, SystemEdits(live, u)[i].cmds) == Parts(live, u)[i]
  {
    hide SetCmds, WantedAll;
    var base := live.ntpBase;
    assert base + [] == base;
    match i {
      case 0 => Joined("host-name", Wanted(u.hostname));
      case 1 => Joined("domain-name", Wanted(u.domainName));
      case 2 => Joined("time-zone", Wanted(u.timeZone));
      case _ =>
        if u.ntpEnabled != Some(false) && u.ntpServers.Some? {
          BelowBelow(base, ["server"], SetCmds(live.ntpServers, WantedAll(u.ntpServers.value)));
        }
    }
  }

  lemma Joined(key: string, v: Option<string>)
    ensures ["system", key] + [] == ["system", key]
    ensures v.Some? ==> ["system", key] + [v.value] == ["system", key, v.value]
  {
  }
}

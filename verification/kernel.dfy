/** A reference model of the kernel side: the sets that exist and their members, and a tool
    whose every reply follows from replaying the commands issued before it. It gives the
    package's command sequences a meaning to prove them against. */
module Kernel {
  import opened Text
  import opened Exec
  import opened Ipset

  /** Every existing set, by name, with its members. */
  type Table = map<string, set<string>>

  const MissingSetMessage := "The set with the given name does not exist"

  datatype Applied = Applied(table: Table, reply: Reply)

  /** One command's effect. `create … -exist` keeps an existing set as it is; `add … -exist`
      and `del … -exist` add or remove one member of an existing set; `flush` empties one;
      `swap` exchanges two sets' members; `destroy` removes one set.
      Naming a missing set fails with the tool's message. Other commands leave the table alone. */
  function Apply(t: Table, a: Argv): Applied {
    if |a| >= 2 && a[0] == "create" then
      Applied(if a[1] in t then t else t[a[1] := {}], Reply(true, ""))
    else if |a| >= 3 && a[0] == "add" then
      if a[1] in t then Applied(t[a[1] := t[a[1]] + {a[2]}], Reply(true, ""))
      else Applied(t, Reply(false, MissingSetMessage))
    else if |a| >= 3 && a[0] == "del" then
      if a[1] in t then Applied(t[a[1] := t[a[1]] - {a[2]}], Reply(true, ""))
      else Applied(t, Reply(false, MissingSetMessage))
    else if |a| == 2 && a[0] == "flush" then
      if a[1] in t then Applied(t[a[1] := {}], Reply(true, ""))
      else Applied(t, Reply(false, MissingSetMessage))
    else if |a| == 3 && a[0] == "swap" then
      if a[1] in t && a[2] in t then Applied(t[a[1] := t[a[2]]][a[2] := t[a[1]]], Reply(true, ""))
      else Applied(t, Reply(false, MissingSetMessage))
    else if |a| == 2 && a[0] == "destroy" then
      if a[1] in t then Applied(t - {a[1]}, Reply(true, ""))
      else Applied(t, Reply(false, MissingSetMessage))
    else Applied(t, Reply(true, ""))
  }

  /** The table after a sequence of commands. */
  function Replay(t: Table, cmds: seq<Argv>): Table
    decreases |cmds|
  {
    if |cmds| == 0 then t else Replay(Apply(t, cmds[0]).table, cmds[1..])
  }

  /** The tool that answers every command from the table its history leaves behind. */
  function KernelTool(t0: Table): Tool {
    (h: seq<Argv>, a: Argv) => Apply(Replay(t0, h), a).reply
  }

  lemma {:induction false} ReplayAppend(t: Table, a: seq<Argv>, b: seq<Argv>)
    ensures Replay(t, a + b) == Replay(Replay(t, a), b)
    decreases |a|
  {
    if |a| == 0 {
      assert a + b == b;
    } else {
      assert (a + b)[1..] == a[1..] + b;
      ReplayAppend(Apply(t, a[0]).table, a[1..], b);
    }
  }

  lemma {:induction false} ReplayOne(t: Table, a: Argv)
    ensures Replay(t, [a]) == Apply(t, a).table
  {
    assert [a][1..] == [];
  }

  /** Adding every entry to an existing set leaves it holding its old members and the entries. */
  lemma {:induction false} AddsFill(t: Table, temp: string, entries: seq<string>)
    requires temp in t
    ensures Replay(t, AddCommands(temp, entries)) == t[temp := t[temp] + (set e | e in entries)]
    decreases |entries|
  {
    var cmds := AddCommands(temp, entries);
    if |entries| == 0 {
      assert (set e | e in entries) == {};
      var u := t[temp := t[temp] + {}];
      assert u.Keys == t.Keys;
      assert forall k | k in u :: u[k] == t[k];
    } else {
      var t1 := Apply(t, cmds[0]).table;
      assert t1 == t[temp := t[temp] + {entries[0]}];
      assert cmds[1..] == AddCommands(temp, entries[1..]);
      AddsFill(t1, temp, entries[1..]);
      assert (set e | e in entries) == {entries[0]} + (set e | e in entries[1..]);
      assert Replay(t, cmds) == Replay(t1, cmds[1..]);
      assert t1[temp] + (set e | e in entries[1..]) == t[temp] + (set e | e in entries);
      var lhs := t1[temp := t1[temp] + (set e | e in entries[1..])];
      var rhs := t[temp := t[temp] + (set e | e in entries)];
      assert lhs.Keys == rhs.Keys;
      assert forall k | k in lhs :: lhs[k] == rhs[k];
    }
  }

  /** The missing-set message carries the marker the destroy leniency looks for. */
  lemma {:induction false} MissingSetMessageIsTolerated()
    ensures Contains(MissingSetMessage, MissingMarker)
  {
    assert OccursAt(MissingSetMessage, MissingMarker, 28);
  }

  /** One command after the history `h`: what the kernel tool answers and the table it leaves. */
  lemma {:induction false} StepAgainstKernel(t0: Table, h: seq<Argv>, a: Argv)
    ensures KernelTool(t0)(h, a) == Apply(Replay(t0, h), a).reply
    ensures Replay(t0, h + [a]) == Apply(Replay(t0, h), a).table
  {
    ReplayAppend(t0, h, [a]);
    ReplayOne(Replay(t0, h), a);
  }

  /** The stages of a `Refresh` against the kernel, each after the one before. The create
      keeps a temporary set left over from an earlier run as it is. */
  lemma {:induction false} RefreshCreates(t0: Table, s: IPSet, h: seq<Argv>)
    ensures CreateHashSet(s, s.Name + TempSuffix, KernelTool(t0), h).value == Pass
    ensures var t := Replay(t0, h);
      Replay(t0, h + [CreateArgv(s, s.Name + TempSuffix)])
      == if s.Name + TempSuffix in t then t else t[s.Name + TempSuffix := {}]
  {
    StepAgainstKernel(t0, h, CreateArgv(s, s.Name + TempSuffix));
  }

  lemma {:induction false} RefreshAdds(t0: Table, temp: string, entries: seq<string>, h: seq<Argv>)
    requires temp in Replay(t0, h)
    ensures Replay(t0, AddEach(temp, entries, KernelTool(t0), h))
            == Replay(t0, h)[temp := Replay(t0, h)[temp] + set e | e in entries]
  {
    ReplayAppend(t0, h, AddCommands(temp, entries));
    AddsFill(Replay(t0, h), temp, entries);
  }

  lemma {:induction false} RefreshSwaps(t0: Table, temp: string, name: string, h: seq<Argv>)
    requires temp in Replay(t0, h) && name in Replay(t0, h)
    ensures Swap(temp, name, KernelTool(t0), h).value == Pass
    ensures Replay(t0, h + [SwapArgv(temp, name)])
            == Replay(t0, h)[temp := Replay(t0, h)[name]][name := Replay(t0, h)[temp]]
  {
    StepAgainstKernel(t0, h, SwapArgv(temp, name));
  }

  lemma {:induction false} RefreshDestroys(t0: Table, temp: string, h: seq<Argv>)
    requires temp in Replay(t0, h)
    ensures DestroyIPSet(temp, KernelTool(t0), h).value == Pass
    ensures Replay(t0, h + [DestroyArgv(temp)]) == Replay(t0, h) - {temp}
  {
    StepAgainstKernel(t0, h, DestroyArgv(temp));
  }

  /** The members a `Refresh` of `name` starts from: those of a leftover temporary set, if any. */
  function Leftover(t: Table, name: string): set<string> {
    if name + TempSuffix in t then t[name + TempSuffix] else {}
  }

  /** Against the kernel, `Refresh` of an existing set succeeds; the set ends up holding the
      entries together with whatever a leftover temporary set held (the create does not flush
      it), every other set is unchanged and no temporary set remains. */
  lemma {:induction false} RefreshMergesLeftover(t0: Table, s: IPSet, entries: seq<string>, h: seq<Argv>)
    requires s.Name in Replay(t0, h)
    ensures Refresh(s, entries, KernelTool(t0), h).value == Pass
    ensures var t := Replay(t0, h);
      Replay(t0, Refresh(s, entries, KernelTool(t0), h).issued)
      == t[s.Name := Leftover(t, s.Name) + set e | e in entries] - {s.Name + TempSuffix}
  {
    var tool := KernelTool(t0);
    var t := Replay(t0, h);
    var temp := s.Name + TempSuffix;
    var entered := set e | e in entries;
    assert temp != s.Name by { assert |temp| == |s.Name| + 5; }
    var h1 := h + [CreateArgv(s, temp)];
    RefreshCreates(t0, s, h);
    var t1 := if temp in t then t else t[temp := {}];
    assert t1[temp] == Leftover(t, s.Name);
    var h2 := AddEach(temp, entries, tool, h1);
    RefreshAdds(t0, temp, entries, h1);
    var t2 := t1[temp := Leftover(t, s.Name) + entered];
    assert Replay(t0, h2) == t2;
    var h3 := h2 + [SwapArgv(temp, s.Name)];
    RefreshSwaps(t0, temp, s.Name, h2);
    RefreshDestroys(t0, temp, h3);
    assert Refresh(s, entries, tool, h) == Step(h3 + [DestroyArgv(temp)], Pass);
    SwapOutTemp(t, s.Name, temp, Leftover(t, s.Name) + entered);
  }

  /** The table algebra of the swap and destroy: the temporary set's members move to `name`
      and the temporary set disappears. */
  lemma {:induction false} SwapOutTemp(t: Table, name: string, temp: string, members: set<string>)
    requires name in t && temp != name
    ensures var t2 := (if temp in t then t else t[temp := {}])[temp := members];
      t2[temp := t2[name]][name := t2[temp]] - {temp} == t[name := members] - {temp}
  {
    var t2 := (if temp in t then t else t[temp := {}])[temp := members];
    var final := t2[temp := t2[name]][name := t2[temp]] - {temp};
    var expected := t[name := members] - {temp};
    assert final.Keys == expected.Keys;
    assert forall k | k in final :: final[k] == expected[k];
  }

  /** Against the kernel, with the set present and no temporary set, `Refresh` succeeds and
      replaces the set's members with exactly the given entries, leaving every other set as it
      was and no temporary set behind. */
  lemma {:induction false} RefreshReplacesMembers(t0: Table, s: IPSet, entries: seq<string>, h: seq<Argv>)
    requires s.Name in Replay(t0, h)
    requires s.Name + TempSuffix !in Replay(t0, h)
    ensures Refresh(s, entries, KernelTool(t0), h).value == Pass
    ensures Replay(t0, Refresh(s, entries, KernelTool(t0), h).issued)
            == Replay(t0, h)[s.Name := set e | e in entries]
  {
    var t := Replay(t0, h);
    var temp := s.Name + TempSuffix;
    var entered := set e | e in entries;
    RefreshMergesLeftover(t0, s, entries, h);
    assert temp != s.Name by { assert |temp| == |s.Name| + 5; }
    assert {} + entered == entered;
    var lhs := t[s.Name := entered] - {temp};
    assert lhs.Keys == t[s.Name := entered].Keys;
    assert forall k | k in lhs :: lhs[k] == t[s.Name := entered][k];
  }

  /** A temporary set left behind, for instance by a `Refresh` whose swap failed, leaks into
      the next `Refresh`: with the set holding `x` and its temporary set holding `stale`,
      refreshing it with `y` leaves it holding `stale` and `y`. */
  lemma {:induction false} StaleTempLeaks(t0: Table, s: IPSet, x: string, stale: string, y: string)
    requires t0 == map[s.Name := {x}, s.Name + TempSuffix := {stale}]
    ensures Refresh(s, [y], KernelTool(t0), []).value == Pass
    ensures Replay(t0, Refresh(s, [y], KernelTool(t0), []).issued) == map[s.Name := {stale, y}]
  {
    var temp := s.Name + TempSuffix;
    assert temp != s.Name by { assert |temp| == |s.Name| + 5; }
    assert Replay(t0, []) == t0;
    RefreshMergesLeftover(t0, s, [y], []);
    assert (set e | e in [y]) == {y};
    LeakedTable(t0, s.Name, x, stale, y);
  }

  lemma {:induction false} LeakedTable(t0: Table, name: string, x: string, stale: string, y: string)
    requires name + TempSuffix != name
    requires t0 == map[name := {x}, name + TempSuffix := {stale}]
    ensures Leftover(t0, name) == {stale}
    ensures t0[name := {stale} + {y}] - {name + TempSuffix} == map[name := {stale, y}]
  {
    var temp := name + TempSuffix;
    var r := t0[name := {stale} + {y}] - {temp};
    var m: Table := map[name := {stale, y}];
    assert r.Keys == {name} == m.Keys;
    assert r[name] == {stale, y} == m[name];
  }

  /** `destroyIPSet` is idempotent against the kernel: the second call finds nothing and still
      succeeds, where the strict `Destroy` fails. */
  lemma {:induction false} DestroyIPSetIdempotent(t0: Table, name: string, h: seq<Argv>)
    ensures var first := DestroyIPSet(name, KernelTool(t0), h);
      && first.value == Pass
      && name !in Replay(t0, first.issued)
      && DestroyIPSet(name, KernelTool(t0), first.issued).value == Pass
      && Destroy(IPSet(name, "", "", 0, 0, 0), KernelTool(t0), first.issued).value.Fail?
  {
    var tool := KernelTool(t0);
    var first := DestroyIPSet(name, tool, h);
    ReplayAppend(t0, h, [DestroyArgv(name)]);
    ReplayOne(Replay(t0, h), DestroyArgv(name));
    MissingSetMessageIsTolerated();
    assert tool(first.issued, DestroyArgv(name)) == Reply(false, MissingSetMessage);
  }

  /** Against the kernel, adding a new member and deleting it again leaves every set as it was. */
  lemma {:induction false} AddThenDelRestores(t0: Table, s: IPSet, entry: string, timeout: int, h: seq<Argv>)
    requires s.Name in Replay(t0, h) && entry !in Replay(t0, h)[s.Name]
    ensures var added := Add(s, entry, timeout, KernelTool(t0), h);
      && added.value == Pass
      && Replay(t0, added.issued) == Replay(t0, h)[s.Name := Replay(t0, h)[s.Name] + {entry}]
      && Del(s, entry, KernelTool(t0), added.issued).value == Pass
      && Replay(t0, Del(s, entry, KernelTool(t0), added.issued).issued) == Replay(t0, h)
  {
    var t := Replay(t0, h);
    StepAgainstKernel(t0, h, AddArgv(s.Name, entry, timeout));
    var h1 := h + [AddArgv(s.Name, entry, timeout)];
    StepAgainstKernel(t0, h1, DelArgv(s.Name, entry));
    var t2 := t[s.Name := t[s.Name] + {entry}][s.Name := t[s.Name] + {entry} - {entry}];
    assert t[s.Name] + {entry} - {entry} == t[s.Name];
    assert t2.Keys == t.Keys;
    assert forall k | k in t2 :: t2[k] == t[k];
  }

  /** Against the kernel, the option form of add adds the entry just as `Add` does. */
  lemma {:induction false} AddOptionAdds(t0: Table, s: IPSet, entry: string, option: string, timeout: int, h: seq<Argv>)
    requires s.Name in Replay(t0, h)
    ensures AddOption(s, entry, option, timeout, KernelTool(t0), h).value == Pass
    ensures Replay(t0, AddOption(s, entry, option, timeout, KernelTool(t0), h).issued)
            == Replay(t0, h + [AddArgv(s.Name, entry, timeout)])
  {
    StepAgainstKernel(t0, h, AddOptionArgv(s.Name, entry, option, timeout));
    StepAgainstKernel(t0, h, AddArgv(s.Name, entry, timeout));
  }

  /** Against the kernel, `Flush` empties the set and touches no other. */
  lemma {:induction false} FlushEmpties(t0: Table, s: IPSet, h: seq<Argv>)
    requires s.Name in Replay(t0, h)
    ensures Flush(s, KernelTool(t0), h).value == Pass
    ensures Replay(t0, Flush(s, KernelTool(t0), h).issued) == Replay(t0, h)[s.Name := {}]
  {
    StepAgainstKernel(t0, h, FlushArgv(s.Name));
  }

  /** Against the kernel, swapping two existing sets twice restores every set. */
  lemma {:induction false} SwapTwiceRestores(t0: Table, a: string, b: string, h: seq<Argv>)
    requires a in Replay(t0, h) && b in Replay(t0, h)
    ensures var first := Swap(a, b, KernelTool(t0), h);
      && first.value == Pass
      && Replay(t0, first.issued) == Replay(t0, h)[a := Replay(t0, h)[b]][b := Replay(t0, h)[a]]
      && Swap(a, b, KernelTool(t0), first.issued).value == Pass
      && Replay(t0, Swap(a, b, KernelTool(t0), first.issued).issued) == Replay(t0, h)
  {
    var t := Replay(t0, h);
    StepAgainstKernel(t0, h, SwapArgv(a, b));
    var t1 := t[a := t[b]][b := t[a]];
    var h1 := h + [SwapArgv(a, b)];
    StepAgainstKernel(t0, h1, SwapArgv(a, b));
    var t2 := t1[a := t1[b]][b := t1[a]];
    assert t2.Keys == t.Keys;
    assert forall k | k in t2 :: t2[k] == t[k];
  }

  /** Against the kernel, `Destroy` removes exactly the named set. */
  lemma {:induction false} DestroyRemoves(t0: Table, s: IPSet, h: seq<Argv>)
    requires s.Name in Replay(t0, h)
    ensures Destroy(s, KernelTool(t0), h).value == Pass
    ensures Replay(t0, Destroy(s, KernelTool(t0), h).issued) == Replay(t0, h) - {s.Name}
  {
    StepAgainstKernel(t0, h, DestroyArgv(s.Name));
  }

  /** One tolerant destroy against the kernel: it always succeeds and the set is gone afterwards. */
  lemma {:induction false} DestroyIPSetRemoves(t0: Table, name: string, h: seq<Argv>)
    ensures DestroyIPSet(name, KernelTool(t0), h).value == Pass
    ensures Replay(t0, h + [DestroyArgv(name)]) == Replay(t0, h) - {name}
  {
    StepAgainstKernel(t0, h, DestroyArgv(name));
    MissingSetMessageIsTolerated();
    if name !in Replay(t0, h) {
      assert Replay(t0, h) - {name} == Replay(t0, h);
    }
  }

  lemma {:induction false} NamesOfCons(names: seq<string>)
    requires |names| > 0
    ensures (set n | n in names) == {names[0]} + (set n | n in names[1..])
  {
    forall x | x in names
      ensures x == names[0] || x in names[1..]
    {
      var i :| 0 <= i < |names| && names[i] == x;
      if i > 0 {
        assert names[1..][i - 1] == x;
      }
    }
  }

  lemma {:induction false} RemoveTwice(t: Table, a: set<string>, b: set<string>)
    ensures (t - a) - b == t - (a + b)
  {
    var l := (t - a) - b;
    var r := t - (a + b);
    assert l.Keys == r.Keys;
    assert forall k | k in l :: l[k] == r[k];
  }

  /** Against the kernel, the destroy loop collects no failure and removes exactly the named
      sets, whether or not each one existed. */
  lemma {:induction false} FailuresAgainstKernel(t0: Table, names: seq<string>, h: seq<Argv>)
    ensures Failures(names, KernelTool(t0), h) == []
    ensures Replay(t0, h + DestroyCommands(names)) == Replay(t0, h) - (set n | n in names)
    decreases |names|
  {
    if |names| == 0 {
      assert (set n | n in names) == {};
      assert h + DestroyCommands(names) == h;
      assert Replay(t0, h) - {} == Replay(t0, h);
    } else {
      var h1 := h + [DestroyArgv(names[0])];
      DestroyIPSetRemoves(t0, names[0], h);
      assert DestroyFailure(names[0], KernelTool(t0), h) == [];
      FailuresAgainstKernel(t0, names[1..], h1);
      DestroyCommandsCons(h, names);
      NamesOfCons(names);
      RemoveTwice(Replay(t0, h), {names[0]}, set n | n in names[1..]);
    }
  }

  /** Against the kernel, the destroy loop of `DestroyAll` reports no failure and removes
      exactly the named sets, whether or not each one existed. */
  lemma {:induction false} DestroyEachRemovesNamed(t0: Table, names: seq<string>, h: seq<Argv>)
    ensures DestroyEach(names, KernelTool(t0), h).1 == []
    ensures Replay(t0, DestroyEach(names, KernelTool(t0), h).0) == Replay(t0, h) - (set n | n in names)
  {
    FailuresAgainstKernel(t0, names, h);
  }
}

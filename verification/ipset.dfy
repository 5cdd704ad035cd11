/** The package's operations on sets: each one builds an argument vector, runs the
    tool once (or a fixed sequence of times) and classifies the reply. */
module Ipset {
  import opened Wrappers
  import opened Text
  import opened Numbers
  import opened Exec
  import opened Listing
  import opened StatsParser
  import opened Gate
  import Version

  /** `Params`: optional parameters for creating a set. */
  datatype Params = Params(HashFamily: string, HashSize: int, MaxElem: int, Timeout: int)

  /** `IPSet`: a handle on one named set and the shape it was created with. */
  datatype IPSet = IPSet(Name: string, HashType: string, HashFamily: string, HashSize: int, MaxElem: int, Timeout: int)

  const TempSuffix := "-temp"
  const HashPrefix := "hash:"
  const NotMarker := "NOT"
  const MissingMarker := "does not exist"

  // ---------------------------------------------------------------------------
  // Argument vectors

  /** `ipset create <name> <type> family F hashsize H maxelem M timeout T -exist`. */
  function CreateArgv(s: IPSet, name: string): Argv {
    ["create", name, s.HashType, "family", s.HashFamily, "hashsize", Itoa(s.HashSize),
     "maxelem", Itoa(s.MaxElem), "timeout", Itoa(s.Timeout), "-exist"]
  }

  function AddArgv(name: string, entry: string, timeout: int): Argv {
    ["add", name, entry, "timeout", Itoa(timeout), "-exist"]
  }

  function AddOptionArgv(name: string, entry: string, option: string, timeout: int): Argv {
    ["add", name, entry, option, "timeout", Itoa(timeout), "-exist"]
  }

  /** The add issued by `Refresh`: no timeout clause. */
  function RefreshAddArgv(name: string, entry: string): Argv {
    ["add", name, entry, "-exist"]
  }

  function DelArgv(name: string, entry: string): Argv {
    ["del", name, entry, "-exist"]
  }

  function TestArgv(name: string, entry: string): Argv {
    ["test", name, entry]
  }

  function FlushArgv(name: string): Argv {
    ["flush", name]
  }

  function DestroyArgv(name: string): Argv {
    ["destroy", name]
  }

  function SwapArgv(from: string, to: string): Argv {
    ["swap", from, to]
  }

  const DestroyEveryArgv: Argv := ["destroy"]

  /** How the tool reads a create vector back into a set handle. */
  function ReadCreateArgv(argv: Argv): (r: Option<IPSet>)
    ensures r.Some? ==> |argv| == 12 && argv[0] == "create" && argv[1] == r.value.Name && argv[2] == r.value.HashType
  {
    if |argv| == 12 && argv[0] == "create" && argv[3] == "family" && argv[5] == "hashsize"
       && argv[7] == "maxelem" && argv[9] == "timeout" && argv[11] == "-exist"
       && Atoi(argv[6]).Some? && Atoi(argv[8]).Some? && Atoi(argv[10]).Some?
    then Some(IPSet(argv[1], argv[2], argv[4], Atoi(argv[6]).value, Atoi(argv[8]).value, Atoi(argv[10]).value))
    else None
  }

  /** The create vector carries the whole shape: reading it back gives the handle,
      named after the set being created. */
  lemma {:induction false} CreateArgvCarriesShape(s: IPSet, name: string)
    ensures ReadCreateArgv(CreateArgv(s, name)) == Some(s.(Name := name))
  {
    AtoiOfItoa(s.HashSize);
    AtoiOfItoa(s.MaxElem);
    AtoiOfItoa(s.Timeout);
  }

  /** The option variant is the plain add with one extra word right after the entry. */
  lemma {:induction false} AddOptionInsertsOneWord(name: string, entry: string, option: string, timeout: int)
    ensures |AddOptionArgv(name, entry, option, timeout)| == |AddArgv(name, entry, timeout)| + 1
    ensures AddOptionArgv(name, entry, option, timeout)[3] == option
    ensures AddOptionArgv(name, entry, option, timeout)[..3] + AddOptionArgv(name, entry, option, timeout)[4..]
            == AddArgv(name, entry, timeout)
    ensures Atoi(AddArgv(name, entry, timeout)[4]) == Some(timeout)
  {
    AtoiOfItoa(timeout);
  }

  // ---------------------------------------------------------------------------
  // New

  /** The ipset defaults New writes into the caller's `Params`: only zero (or empty) fields change. */
  function Defaulted(p: Params): (r: Params)
    ensures r.HashSize != 0 && r.MaxElem != 0 && r.HashFamily != ""
    ensures p.HashSize != 0 ==> r.HashSize == p.HashSize
    ensures p.MaxElem != 0 ==> r.MaxElem == p.MaxElem
    ensures p.HashFamily != "" ==> r.HashFamily == p.HashFamily
    ensures p.HashSize == 0 ==> r.HashSize == 1024
    ensures p.MaxElem == 0 ==> r.MaxElem == 65536
    ensures p.HashFamily == "" ==> r.HashFamily == "inet"
    ensures r.Timeout == p.Timeout
  {
    Params(if p.HashFamily == "" then "inet" else p.HashFamily,
           if p.HashSize == 0 then 1024 else p.HashSize,
           if p.MaxElem == 0 then 65536 else p.MaxElem,
           p.Timeout)
  }

  /** What New leaves behind: the gate, the caller's `Params` after defaulting, the commands
      issued, and the handle or the error. */
  datatype NewStep = NewStep(gate: Gate, params: Params, issued: seq<Argv>, result: Result<IPSet>)

  /** `createHashSet(name)` for the shape of `s`. */
  function CreateHashSet(s: IPSet, name: string, tool: Tool, h: seq<Argv>): (r: Step<Outcome>)
    ensures r.issued == h + [CreateArgv(s, name)]
    ensures r.value.Pass? <==> tool(h, CreateArgv(s, name)).ok
    ensures r.value.Fail? ==> r.value.error == Failed(CreateArgv(s, name), tool(h, CreateArgv(s, name)).output)
  {
    Checked(tool, h, CreateArgv(s, name))
  }

  /** `New(name, hashtype, p)`. */
  function New(name: string, hashtype: string, p: Params, g: Gate, lookPath: LookPath, tool: Tool, h: seq<Argv>): (r: NewStep)
    ensures r.params == Defaulted(p)
    ensures !HasPrefix(hashtype, HashPrefix) ==> r == NewStep(g, Defaulted(p), h, Err(NotHashType(hashtype)))
    ensures HasPrefix(hashtype, HashPrefix) && InitCheck(g, [], lookPath, tool, h).status.Fail?
            ==> r.result == Err(InitCheck(g, [], lookPath, tool, h).status.error) && r.issued == InitCheck(g, [], lookPath, tool, h).issued
    ensures r.result.Ok? ==>
      && HasPrefix(hashtype, HashPrefix)
      && r.result.value == IPSet(name, hashtype, Defaulted(p).HashFamily, Defaulted(p).HashSize, Defaulted(p).MaxElem, p.Timeout)
      && |r.issued| > 0 && r.issued[|r.issued| - 1] == CreateArgv(r.result.value, name)
    ensures HasPrefix(hashtype, HashPrefix) ==> r.gate == InitCheck(g, [], lookPath, tool, h).gate
    ensures HasPrefix(hashtype, HashPrefix) && InitCheck(g, [], lookPath, tool, h).status.Pass? ==>
      var init := InitCheck(g, [], lookPath, tool, h);
      var argv := CreateArgv(IPSet(name, hashtype, Defaulted(p).HashFamily, Defaulted(p).HashSize, Defaulted(p).MaxElem, p.Timeout), name);
      && r.issued == init.issued + [argv]
      && (r.result.Ok? <==> tool(init.issued, argv).ok)
      && (r.result.Err? ==> r.result.error == Failed(argv, tool(init.issued, argv).output))
  {
    var d := Defaulted(p);
    if !HasPrefix(hashtype, HashPrefix) then NewStep(g, d, h, Err(NotHashType(hashtype)))
    else
      var init := InitCheck(g, [], lookPath, tool, h);
      if init.status.Fail? then NewStep(init.gate, d, init.issued, Err(init.status.error))
      else
        var s := IPSet(name, hashtype, d.HashFamily, d.HashSize, d.MaxElem, d.Timeout);
        var c := CreateHashSet(s, name, tool, init.issued);
        NewStep(init.gate, d, c.issued, if c.value.Pass? then Ok(s) else Err(c.value.error))
  }

  /** `Init(name)`: `initCheck(name)`. */
  function Init(name: string, g: Gate, lookPath: LookPath, tool: Tool, h: seq<Argv>): (r: GateStep)
    ensures g.path != "" ==> r == GateStep(g, h, Pass)
    ensures g.path == "" && lookPath(if name == "" then "ipset" else name).None? ==> r == GateStep(g, h, Fail(NotFound))
    ensures g.path == "" && lookPath(if name == "" then "ipset" else name).Some? ==>
      && r.gate == Gate(lookPath(if name == "" then "ipset" else name).value)
      && r.issued == h + [Version.VersionArgv]
      && (r.status.Pass? || r.status == Fail(NotSupported))
      && (r.status == Fail(NotSupported) <==> Version.SupportedVersion(tool(h, Version.VersionArgv)) == Version.Checked(false))
  {
    InitCheck(g, [name], lookPath, tool, h)
  }

  /** A type that is not a hash type is refused before the gate or the tool is consulted. */
  lemma {:induction false} NewRefusesNonHashTypes(name: string, hashtype: string, p: Params, g: Gate, lookPath: LookPath, tool: Tool, h: seq<Argv>)
    requires !HasPrefix(hashtype, HashPrefix)
    ensures New(name, hashtype, p, g, lookPath, tool, h).issued == h
    ensures New(name, hashtype, p, g, lookPath, tool, h).gate == g
    ensures New(name, hashtype, p, g, lookPath, tool, h).result.Err?
  {
  }

  lemma {:induction false} ItoaDefaultHashSize()
    ensures Itoa(1024) == "1024"
  {
    assert Digits(1) == "1";
    assert Digits(10) == "1" + "0";
    assert Digits(102) == "10" + "2";
    assert Digits(1024) == "102" + "4";
  }

  lemma {:induction false} ItoaDefaultMaxElem()
    ensures Itoa(65536) == "65536"
  {
    assert Digits(6) == "6";
    assert Digits(65) == "6" + "5";
    assert Digits(655) == "65" + "5";
    assert Digits(6553) == "655" + "3";
    assert Digits(65536) == "6553" + "6";
  }

  /** With a resolved gate and zero parameters, New issues exactly the create vector with
      the defaults and succeeds exactly when the tool does. */
  lemma {:induction false} NewWithDefaults(name: string, hashtype: string, timeout: int, g: Gate, lookPath: LookPath, tool: Tool, h: seq<Argv>)
    requires HasPrefix(hashtype, HashPrefix) && g.path != ""
    ensures var argv := ["create", name, hashtype, "family", "inet", "hashsize", "1024", "maxelem", "65536", "timeout", Itoa(timeout), "-exist"];
      && New(name, hashtype, Params("", 0, 0, timeout), g, lookPath, tool, h).issued == h + [argv]
      && (New(name, hashtype, Params("", 0, 0, timeout), g, lookPath, tool, h).result.Ok? <==> tool(h, argv).ok)
  {
    ItoaDefaultHashSize();
    ItoaDefaultMaxElem();
    var s := IPSet(name, hashtype, "inet", 1024, 65536, timeout);
    assert CreateArgv(s, name) == ["create", name, hashtype, "family", "inet", "hashsize", "1024", "maxelem", "65536", "timeout", Itoa(timeout), "-exist"];
    assert InitCheck(g, [], lookPath, tool, h) == GateStep(g, h, Pass);
  }

  // ---------------------------------------------------------------------------
  // Single-command operations

  /** `Add(entry, timeout)`. */
  function Add(s: IPSet, entry: string, timeout: int, tool: Tool, h: seq<Argv>): (r: Step<Outcome>)
    ensures r.issued == h + [AddArgv(s.Name, entry, timeout)]
    ensures r.value.Pass? <==> tool(h, AddArgv(s.Name, entry, timeout)).ok
    ensures r.value.Fail? ==> r.value.error.Failed? && r.value.error.output == tool(h, AddArgv(s.Name, entry, timeout)).output
  {
    Checked(tool, h, AddArgv(s.Name, entry, timeout))
  }

  /** `AddOption(entry, option, timeout)`. */
  function AddOption(s: IPSet, entry: string, option: string, timeout: int, tool: Tool, h: seq<Argv>): (r: Step<Outcome>)
    ensures r.issued == h + [AddOptionArgv(s.Name, entry, option, timeout)]
    ensures r.value.Pass? <==> tool(h, AddOptionArgv(s.Name, entry, option, timeout)).ok
    ensures r.value.Fail? ==> r.value.error.Failed? && r.value.error.output == tool(h, AddOptionArgv(s.Name, entry, option, timeout)).output
  {
    Checked(tool, h, AddOptionArgv(s.Name, entry, option, timeout))
  }

  /** `Del(entry)`: a failure is an error even when the entry is missing. */
  function Del(s: IPSet, entry: string, tool: Tool, h: seq<Argv>): (r: Step<Outcome>)
    ensures r.issued == h + [DelArgv(s.Name, entry)]
    ensures r.value.Pass? <==> tool(h, DelArgv(s.Name, entry)).ok
    ensures r.value.Fail? ==> r.value.error.Failed? && r.value.error.output == tool(h, DelArgv(s.Name, entry)).output
  {
    Checked(tool, h, DelArgv(s.Name, entry))
  }

  /** `Flush()`. */
  function Flush(s: IPSet, tool: Tool, h: seq<Argv>): (r: Step<Outcome>)
    ensures r.issued == h + [FlushArgv(s.Name)]
    ensures r.value.Pass? <==> tool(h, FlushArgv(s.Name)).ok
    ensures r.value.Fail? ==> r.value.error.Failed? && r.value.error.output == tool(h, FlushArgv(s.Name)).output
  {
    Checked(tool, h, FlushArgv(s.Name))
  }

  /** `Destroy()`: unlike `destroyIPSet`, a missing set is an error. */
  function Destroy(s: IPSet, tool: Tool, h: seq<Argv>): (r: Step<Outcome>)
    ensures r.issued == h + [DestroyArgv(s.Name)]
    ensures r.value.Pass? <==> tool(h, DestroyArgv(s.Name)).ok
    ensures r.value.Fail? ==> r.value.error.Failed? && r.value.error.output == tool(h, DestroyArgv(s.Name)).output
  {
    Checked(tool, h, DestroyArgv(s.Name))
  }

  /** `Swap(from, to)`. */
  function Swap(from: string, to: string, tool: Tool, h: seq<Argv>): (r: Step<Outcome>)
    ensures r.issued == h + [SwapArgv(from, to)]
    ensures r.value.Pass? <==> tool(h, SwapArgv(from, to)).ok
    ensures r.value.Fail? ==> r.value.error.Failed? && r.value.error.output == tool(h, SwapArgv(from, to)).output
  {
    Checked(tool, h, SwapArgv(from, to))
  }

  /** The destroy leniency: a failure whose output says "does not exist" counts as success. */
  predicate DestroyTolerated(reply: Reply) {
    reply.ok || Contains(reply.output, MissingMarker)
  }

  /** `destroyIPSet(name)`. */
  function DestroyIPSet(name: string, tool: Tool, h: seq<Argv>): (r: Step<Outcome>)
    ensures r.issued == h + [DestroyArgv(name)]
    ensures r.value.Pass? <==> tool(h, DestroyArgv(name)).ok || Contains(tool(h, DestroyArgv(name)).output, MissingMarker)
    ensures r.value.Fail? ==> r.value.error == Failed(DestroyArgv(name), tool(h, DestroyArgv(name)).output)
  {
    var argv := DestroyArgv(name);
    var reply := tool(h, argv);
    Step(h + [argv], if DestroyTolerated(reply) then Pass else Fail(Failed(argv, reply.output)))
  }

  /** The membership answer of `Test` and its error. */
  datatype Membership = Membership(present: bool, status: Outcome)

  /** `Test(entry)`: presence and error never come together; a successful run is
      "absent" exactly when its output contains "NOT". */
  function Test(s: IPSet, entry: string, tool: Tool, h: seq<Argv>): (r: Step<Membership>)
    ensures r.issued == h + [TestArgv(s.Name, entry)]
    ensures !(r.value.present && r.value.status.Fail?)
    ensures r.value.status.Fail? <==> !tool(h, TestArgv(s.Name, entry)).ok
    ensures r.value.status.Fail? ==> r.value.status.error.Failed?
    ensures tool(h, TestArgv(s.Name, entry)).ok ==>
      (r.value.present <==> !Contains(tool(h, TestArgv(s.Name, entry)).output, NotMarker))
  {
    var argv := TestArgv(s.Name, entry);
    var reply := tool(h, argv);
    Step(h + [argv],
      if !reply.ok then Membership(false, Fail(Failed(argv, reply.output)))
      else if Contains(reply.output, NotMarker) then Membership(false, Pass)
      else Membership(true, Pass))
  }

  // ---------------------------------------------------------------------------
  // Listings and statistics

  /** `List()`. */
  function SetList(s: IPSet, tool: Tool, h: seq<Argv>): (r: Step<Result<seq<string>>>)
    ensures r.issued == h + [["list", s.Name]]
    ensures r.value.Ok? <==> tool(h, ["list", s.Name]).ok
    ensures r.value.Ok? ==> r.value.value == ListTokens(tool(h, ["list", s.Name]).output)
    ensures r.value.Ok? ==> forall i :: 0 <= i < |r.value.value| ==> IsToken(r.value.value[i], IsListSeparator)
    ensures r.value.Err? ==> r.value.error == Failed(["list", s.Name], tool(h, ["list", s.Name]).output)
  {
    List(s.Name, tool, h)
  }

  /** `ListTerse()`: `listWithOpts(name, "-t")`, whose option is dropped. */
  function ListTerse(s: IPSet, tool: Tool, h: seq<Argv>): (r: Step<Result<seq<string>>>)
    ensures r.issued == h + [["list", s.Name]]
    ensures r == SetList(s, tool, h)
  {
    ListWithOpts(s.Name, ["-t"], tool, h)
  }

  /** `Statistics()`: `ListTerse`, then the parser on its tokens. A listing error is returned
      with empty statistics; size and entry counts are never set. */
  function SetStatistics(s: IPSet, tool: Tool, h: seq<Argv>): (r: Step<StatsOutcome>)
    ensures r.issued == h + [["list", s.Name]]
    ensures !tool(h, ["list", s.Name]).ok ==>
      r.value == Returned(NoStats, Fail(Failed(["list", s.Name], tool(h, ["list", s.Name]).output)))
    ensures r.value.Returned? ==> r.value.stats.Size == 0 && r.value.stats.Entries == 0
    ensures tool(h, ["list", s.Name]).ok && |ListTokens(tool(h, ["list", s.Name]).output)| == 0 ==>
      r.value == Returned(NoStats, Pass)
    ensures tool(h, ["list", s.Name]).ok ==> r.value == StatsOfTerse(ListTokens(tool(h, ["list", s.Name]).output))
  {
    var l := ListTerse(s, tool, h);
    match l.value
    case Err(e) => Step(l.issued, Returned(NoStats, Fail(e)))
    case Ok(info) => Step(l.issued, StatsOfTerse(info))
  }

  /** An empty set lists its header and "Members:" only, so `Statistics` reports
      nothing at all, not even its type. */
  lemma {:induction false} StatisticsOfEmptySet(s: IPSet, header: string, tool: Tool, h: seq<Argv>)
    requires InHeaderPattern(header)
    requires tool(h, ["list", s.Name]) == Reply(true, header)
    ensures SetStatistics(s, tool, h).value == Returned(NoStats, Pass)
  {
    ListTokensOfMembers(header, []);
    assert header + Lines([]) == header;
  }

  // ---------------------------------------------------------------------------
  // Refresh

  /** The adds `Refresh` issues, one per entry in order. */
  function AddCommands(temp: string, entries: seq<string>): (r: seq<Argv>)
    ensures |r| == |entries|
  {
    seq(|entries|, i requires 0 <= i < |entries| => RefreshAddArgv(temp, entries[i]))
  }

  /** The loop over the entries: one add each, whatever the tool replies. */
  function AddEach(temp: string, entries: seq<string>, tool: Tool, h: seq<Argv>): (r: seq<Argv>)
    ensures r == h + AddCommands(temp, entries)
    decreases |entries|
  {
    if |entries| == 0 then h
    else AddEach(temp, entries[1..], tool, h + [RefreshAddArgv(temp, entries[0])])
  }

  /** The full command sequence of a successful `Refresh`. */
  function RefreshPlan(s: IPSet, entries: seq<string>): (r: seq<Argv>)
    ensures |r| == |entries| + 3
  {
    var temp := s.Name + TempSuffix;
    [CreateArgv(s, temp)] + AddCommands(temp, entries) + [SwapArgv(temp, s.Name), DestroyArgv(temp)]
  }

  /** Where each stage of the plan sits: the create first, the adds after it, then the swap
      and the destroy. */
  lemma {:induction false} RefreshPlanShape(s: IPSet, entries: seq<string>)
    ensures var plan, n, temp := RefreshPlan(s, entries), |entries|, s.Name + TempSuffix;
      && plan[..0] == []
      && plan[..1] == [CreateArgv(s, temp)]
      && plan[..n + 1] == [CreateArgv(s, temp)] + AddCommands(temp, entries)
      && plan[n + 1] == SwapArgv(temp, s.Name) && plan[..n + 2] == plan[..n + 1] + [SwapArgv(temp, s.Name)]
      && plan[n + 2] == DestroyArgv(temp) && plan[..n + 3] == plan[..n + 2] + [DestroyArgv(temp)]
      && plan[..n + 3] == plan
  {
    var plan, n, temp := RefreshPlan(s, entries), |entries|, s.Name + TempSuffix;
    assert plan[..n + 1] == [CreateArgv(s, temp)] + AddCommands(temp, entries);
    assert plan[..n + 2] == plan[..n + 1] + [plan[n + 1]];
  }

  /** The tool's reply to command `k` of the plan, run after the plan's earlier commands. */
  function PlanReply(s: IPSet, entries: seq<string>, tool: Tool, h: seq<Argv>, k: nat): Reply
    requires k < |RefreshPlan(s, entries)|
  {
    tool(h + RefreshPlan(s, entries)[..k], RefreshPlan(s, entries)[k])
  }

  /** The last two steps of `Refresh`: swap the filled temporary set in, then destroy it.
      A failed swap stops before the destroy. */
  function SwapThenDestroy(temp: string, name: string, tool: Tool, h: seq<Argv>): (r: Step<Outcome>)
    ensures tool(h, SwapArgv(temp, name)).ok ==> r.issued == h + [SwapArgv(temp, name), DestroyArgv(temp)]
    ensures !tool(h, SwapArgv(temp, name)).ok ==> r.issued == h + [SwapArgv(temp, name)]
    ensures r.value.Pass? <==> tool(h, SwapArgv(temp, name)).ok && DestroyTolerated(tool(h + [SwapArgv(temp, name)], DestroyArgv(temp)))
    ensures r.value.Fail? ==> r.value.error == Failed(r.issued[|r.issued| - 1], tool(r.issued[..|r.issued| - 1], r.issued[|r.issued| - 1]).output)
  {
    var sw := Swap(temp, name, tool, h);
    if sw.value.Fail? then
      assert sw.issued[..|sw.issued| - 1] == h;
      sw
    else
      var d := DestroyIPSet(temp, tool, sw.issued);
      assert d.issued == h + [SwapArgv(temp, name), DestroyArgv(temp)];
      assert d.issued[..|d.issued| - 1] == sw.issued;
      d
  }

  /** `Refresh(entries)`: create the temporary set, add every entry, swap it with the set,
      destroy it. A failure at the create, the swap or the destroy stops there and is returned;
      a failed add is only logged. */
  function Refresh(s: IPSet, entries: seq<string>, tool: Tool, h: seq<Argv>): (r: Step<Outcome>)
    ensures |h| < |r.issued| <= |h| + |RefreshPlan(s, entries)|
    ensures r.issued == h + RefreshPlan(s, entries)[..|r.issued| - |h|]
    ensures r.value.Pass? ==> r.issued == h + RefreshPlan(s, entries)
    ensures r.value.Fail? ==> r.value.error == Failed(r.issued[|r.issued| - 1], tool(r.issued[..|r.issued| - 1], r.issued[|r.issued| - 1]).output)
    ensures |r.issued| == |h| + 1 <==> !tool(h, CreateArgv(s, s.Name + TempSuffix)).ok
    ensures var n := |entries|;
      var created := PlanReply(s, entries, tool, h, 0).ok;
      var swapped := PlanReply(s, entries, tool, h, n + 1).ok;
      && (r.value.Pass? <==> created && swapped && DestroyTolerated(PlanReply(s, entries, tool, h, n + 2)))
      && (|r.issued| == |h| + n + 2 <==> created && !swapped)
      && (created && swapped ==> r.issued == h + RefreshPlan(s, entries))
  {
    var temp := s.Name + TempSuffix;
    var plan := RefreshPlan(s, entries);
    var n := |entries|;
    RefreshPlanShape(s, entries);
    var c := CreateHashSet(s, temp, tool, h);
    assert h + plan[..0] == h;
    assert c.issued == h + plan[..1];
    assert PlanReply(s, entries, tool, h, 0) == tool(h, CreateArgv(s, temp));
    if c.value.Fail? then c
    else
      var h2 := AddEach(temp, entries, tool, c.issued);
      assert h2 == h + plan[..n + 1];
      assert h2 + [SwapArgv(temp, s.Name)] == h + plan[..n + 2];
      assert h2 + [SwapArgv(temp, s.Name), DestroyArgv(temp)] == h + plan[..n + 3];
      assert PlanReply(s, entries, tool, h, n + 1) == tool(h2, SwapArgv(temp, s.Name));
      assert PlanReply(s, entries, tool, h, n + 2) == tool(h2 + [SwapArgv(temp, s.Name)], DestroyArgv(temp));
      SwapThenDestroy(temp, s.Name, tool, h2)
  }

  /** Add failures are swallowed: tools that differ only in their replies to adds
      lead `Refresh` to the same commands and the same result. */
  lemma {:induction false} RefreshIgnoresAddReplies(s: IPSet, entries: seq<string>, tool1: Tool, tool2: Tool, h: seq<Argv>)
    requires forall h', a :: |a| > 0 && a[0] != "add" ==> tool1(h', a) == tool2(h', a)
    ensures Refresh(s, entries, tool1, h) == Refresh(s, entries, tool2, h)
  {
    var temp := s.Name + TempSuffix;
    assert CreateArgv(s, temp)[0] != "add";
    assert SwapArgv(temp, s.Name)[0] != "add";
    assert DestroyArgv(temp)[0] != "add";
  }

  // ---------------------------------------------------------------------------
  // DestroyAll

  /** The names that start with `prefix`, in their listed order. */
  function WithPrefix(names: seq<string>, prefix: string): (r: seq<string>)
    ensures |r| <= |names|
    ensures forall x :: x in r <==> x in names && HasPrefix(x, prefix)
    decreases |names|
  {
    if |names| == 0 then []
    else (if HasPrefix(names[0], prefix) then [names[0]] else []) + WithPrefix(names[1..], prefix)
  }

  /** Filtering a concatenation filters each part in turn. */
  lemma {:induction false} WithPrefixAppend(a: seq<string>, b: seq<string>, prefix: string)
    ensures WithPrefix(a + b, prefix) == WithPrefix(a, prefix) + WithPrefix(b, prefix)
    decreases |a|
  {
    if |a| == 0 {
      assert a + b == b;
    } else {
      var kept := if HasPrefix(a[0], prefix) then [a[0]] else [];
      var left, right := WithPrefix(a[1..], prefix), WithPrefix(b, prefix);
      assert WithPrefix(a + b, prefix) == kept + (left + right) by {
        assert (a + b)[0] == a[0];
        assert (a + b)[1..] == a[1..] + b;
        WithPrefixAppend(a[1..], b, prefix);
      }
      assert kept + (left + right) == (kept + left) + right;
    }
  }

  /** The filter keeps the listed order and multiplicity: a single name is kept exactly when
      it has the prefix, and a concatenation is filtered part by part. */
  lemma {:induction false} WithPrefixKeepsOrder(a: seq<string>, b: seq<string>, prefix: string)
    ensures |a| == 1 ==> WithPrefix(a, prefix) == if HasPrefix(a[0], prefix) then a else []
    ensures WithPrefix(a + b, prefix) == WithPrefix(a, prefix) + WithPrefix(b, prefix)
  {
    WithPrefixAppend(a, b, prefix);
    if |a| == 1 {
      assert a[1..] == [];
    }
  }

  function DestroyCommands(names: seq<string>): seq<Argv> {
    seq(|names|, i requires 0 <= i < |names| => DestroyArgv(names[i]))
  }

  /** Every destroy in `trace` from position `from` on was tolerated by the tool. */
  predicate AllTolerated(tool: Tool, trace: seq<Argv>, from: nat) {
    forall k :: from <= k < |trace| ==> DestroyTolerated(tool(trace[..k], trace[k]))
  }

  lemma {:induction false} AllToleratedSplit(tool: Tool, trace: seq<Argv>, from: nat)
    requires from < |trace|
    ensures AllTolerated(tool, trace, from) <==>
      DestroyTolerated(tool(trace[..from], trace[from])) && AllTolerated(tool, trace, from + 1)
  {
  }

  /** What one `destroyIPSet` adds to `DestroyAll`'s failures: nothing when it succeeds,
      otherwise the name with the error, which carries the command and the tool's output. */
  function DestroyFailure(name: string, tool: Tool, h: seq<Argv>): (r: seq<(string, Error)>)
    ensures r == [] <==> DestroyTolerated(tool(h, DestroyArgv(name)))
    ensures r != [] ==> r == [(name, Failed(DestroyArgv(name), tool(h, DestroyArgv(name)).output))]
  {
    var d := DestroyIPSet(name, tool, h);
    if d.value.Pass? then [] else [(name, d.value.error)]
  }

  /** The failures the loop over `names` collects, one destroy after the other. */
  function Failures(names: seq<string>, tool: Tool, h: seq<Argv>): seq<(string, Error)>
    decreases |names|
  {
    if |names| == 0 then []
    else DestroyFailure(names[0], tool, h) + Failures(names[1..], tool, h + [DestroyArgv(names[0])])
  }

  lemma {:induction false} DestroyCommandsCons(h: seq<Argv>, names: seq<string>)
    requires |names| > 0
    ensures h + DestroyCommands(names) == (h + [DestroyArgv(names[0])]) + DestroyCommands(names[1..])
  {
    assert DestroyCommands(names) == [DestroyArgv(names[0])] + DestroyCommands(names[1..]);
  }

  /** No failure is collected exactly when every destroy of the loop was tolerated. */
  lemma {:induction false} FailuresEmptyIff(names: seq<string>, tool: Tool, h: seq<Argv>)
    ensures Failures(names, tool, h) == [] <==> AllTolerated(tool, h + DestroyCommands(names), |h|)
    decreases |names|
  {
    var trace := h + DestroyCommands(names);
    if |names| > 0 {
      var h1 := h + [DestroyArgv(names[0])];
      DestroyCommandsCons(h, names);
      FailuresEmptyIff(names[1..], tool, h1);
      assert trace[..|h|] == h && trace[|h|] == DestroyArgv(names[0]);
      AllToleratedSplit(tool, trace, |h|);
    }
  }

  /** Every collected failure names a set of the loop. */
  lemma {:induction false} FailuresNameListed(names: seq<string>, tool: Tool, h: seq<Argv>)
    ensures forall f :: f in Failures(names, tool, h) ==> f.0 in names
    decreases |names|
  {
    if |names| > 0 {
      var h1 := h + [DestroyArgv(names[0])];
      FailuresNameListed(names[1..], tool, h1);
      forall f | f in Failures(names, tool, h) ensures f.0 in names {
        if f !in DestroyFailure(names[0], tool, h) {
          assert f.0 in names[1..];
        }
      }
    }
  }

  /** The failures over `a + b` are those over `a`, then those over `b` after `a`'s destroys. */
  lemma {:induction false} FailuresAppend(a: seq<string>, b: seq<string>, tool: Tool, h: seq<Argv>)
    ensures Failures(a + b, tool, h) == Failures(a, tool, h) + Failures(b, tool, h + DestroyCommands(a))
    decreases |a|
  {
    if |a| == 0 {
      assert a + b == b;
      assert h + DestroyCommands(a) == h;
    } else {
      var h1 := h + [DestroyArgv(a[0])];
      assert (a + b)[0] == a[0];
      assert (a + b)[1..] == a[1..] + b;
      FailuresAppend(a[1..], b, tool, h1);
      DestroyCommandsCons(h, a);
      var mine := DestroyFailure(a[0], tool, h);
      assert mine + (Failures(a[1..], tool, h1) + Failures(b, tool, h + DestroyCommands(a)))
          == (mine + Failures(a[1..], tool, h1)) + Failures(b, tool, h + DestroyCommands(a));
    }
  }

  /** The loop over the listed names: destroy each one, collecting the failures that are not
      "does not exist" and going on after every one of them. */
  function DestroyEach(names: seq<string>, tool: Tool, h: seq<Argv>): (r: (seq<Argv>, seq<(string, Error)>))
    ensures r.0 == h + DestroyCommands(names)
    ensures |r.1| == 0 <==> AllTolerated(tool, r.0, |h|)
    ensures forall f :: f in r.1 ==> f.0 in names
    ensures |names| == 1 ==> r.1 == DestroyFailure(names[0], tool, h)
  {
    FailuresEmptyIff(names, tool, h);
    FailuresNameListed(names, tool, h);
    assert |names| == 1 ==> Failures(names[1..], tool, h + [DestroyArgv(names[0])]) == [];
    (h + DestroyCommands(names), Failures(names, tool, h))
  }

  /** The loop over `a + b` is the loop over `a`, then the loop over `b` after it: the
      failures are those of `a` followed by those of `b`, each in the order destroyed. */
  lemma {:induction false} DestroyEachAppend(a: seq<string>, b: seq<string>, tool: Tool, h: seq<Argv>)
    ensures var first := DestroyEach(a, tool, h);
      DestroyEach(a + b, tool, h) == (DestroyEach(b, tool, first.0).0, first.1 + DestroyEach(b, tool, first.0).1)
  {
    FailuresAppend(a, b, tool, h);
    var cmds := DestroyCommands(a + b);
    assert cmds == DestroyCommands(a) + DestroyCommands(b);
    assert h + cmds == (h + DestroyCommands(a)) + DestroyCommands(b);
  }

  /** `DestroyAll(prefix)`: the gate is consulted but its verdict is ignored; an empty
      prefix destroys every set in one bare `destroy`; otherwise every listed name with
      the prefix gets its own destroy, and the failures are returned together. */
  function DestroyAll(prefix: string, g: Gate, lookPath: LookPath, tool: Tool, h: seq<Argv>): (r: GateStep)
    ensures var init := InitCheck(g, [], lookPath, tool, h);
      && r.gate == init.gate
      && (prefix == "" ==> r.issued == init.issued + [DestroyEveryArgv]
                           && (r.status.Pass? <==> tool(init.issued, DestroyEveryArgv).ok)
                           && (r.status.Fail? ==> r.status.error == RunFailed(DestroyEveryArgv)))
      && (prefix != "" && !tool(init.issued, ["list", "-n"]).ok ==>
            && r.issued == init.issued + [["list", "-n"]]
            && r.status == Fail(Failed(["list", "-n"], tool(init.issued, ["list", "-n"]).output)))
      && (prefix != "" && tool(init.issued, ["list", "-n"]).ok ==>
            var listed := init.issued + [["list", "-n"]];
            var names := Fields(tool(init.issued, ["list", "-n"]).output, IsListSeparator);
            && r.issued == listed + DestroyCommands(WithPrefix(names, prefix))
            && (r.status.Pass? <==> AllTolerated(tool, r.issued, |listed|))
            && (r.status.Fail? ==> r.status.error == Aggregate(DestroyEach(WithPrefix(names, prefix), tool, listed).1)))
    ensures r.status.Fail? && r.status.error.Aggregate? ==>
      forall f :: f in r.status.error.failures ==> HasPrefix(f.0, prefix)
  {
    var init := InitCheck(g, [], lookPath, tool, h);
    if prefix == "" then
      var reply := tool(init.issued, DestroyEveryArgv);
      GateStep(init.gate, init.issued + [DestroyEveryArgv], if reply.ok then Pass else Fail(RunFailed(DestroyEveryArgv)))
    else
      var listed := ListAllSetNames(tool, init.issued);
      match listed.value
      case Err(e) => GateStep(init.gate, listed.issued, Fail(e))
      case Ok(names) =>
        var matching := WithPrefix(names, prefix);
        var (issued, failures) := DestroyEach(matching, tool, listed.issued);
        GateStep(init.gate, issued, if |failures| == 0 then Pass else Fail(Aggregate(failures)))
  }

  /** The gate's verdict does not stop DestroyAll: even with no binary found, the commands are issued. */
  lemma {:induction false} DestroyAllIgnoresGate(prefix: string, lookPath: LookPath, tool: Tool, h: seq<Argv>)
    requires lookPath("ipset").None?
    ensures InitCheck(Unresolved, [], lookPath, tool, h).status == Fail(NotFound)
    ensures |DestroyAll(prefix, Unresolved, lookPath, tool, h).issued| > |h|
  {
  }
}

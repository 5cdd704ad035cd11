/** `initCheck`: the once-only lookup of the `ipset` binary and check of its version,
    kept in the package variable `ipsetPath`. Modelled as a sequential state machine
    over that one variable; the lookup `exec.LookPath` is a parameter. */
module Gate {
  import opened Wrappers
  import opened Exec
  import opened Version

  /** `ipsetPath`: the empty string until a lookup succeeds. */
  datatype Gate = Gate(path: string)

  const Unresolved := Gate("")

  /** `exec.LookPath`: the resolved path of a program name, or None when it is not found. */
  type LookPath = string -> Option<string>

  /** The state after `initCheck`, the commands issued, and the error it returns. */
  datatype GateStep = GateStep(gate: Gate, issued: seq<Argv>, status: Outcome)

  /** The name looked up: "ipset" when no name or only the empty name is given, else the first name. */
  function CheckName(names: seq<string>): string {
    if |names| == 0 || (|names| == 1 && names[0] == "") then "ipset" else names[0]
  }

  /** A failed version query, a reply without a version or an unparsable one counts as supported. */
  function Lenient(check: VersionCheck): bool {
    match check
    case CheckFailed => true
    case Checked(supported) => supported
  }

  /** `initCheck(names...)`. */
  function InitCheck(g: Gate, names: seq<string>, lookPath: LookPath, tool: Tool, h: seq<Argv>): (r: GateStep)
    ensures g.path != "" ==> r == GateStep(g, h, Pass)
    ensures g.path == "" && lookPath(CheckName(names)).None? ==> r == GateStep(g, h, Fail(NotFound))
    ensures g.path == "" && lookPath(CheckName(names)).Some? ==>
      && r.gate == Gate(lookPath(CheckName(names)).value)
      && r.issued == h + [VersionArgv]
      && (r.status.Pass? || r.status == Fail(NotSupported))
      && (r.status == Fail(NotSupported) <==> SupportedVersion(tool(h, VersionArgv)) == Checked(false))
  {
    if g.path != "" then GateStep(g, h, Pass)
    else match lookPath(CheckName(names))
      case None => GateStep(g, h, Fail(NotFound))
      case Some(path) =>
        var supported := Lenient(SupportedVersion(tool(h, VersionArgv)));
        GateStep(Gate(path), h + [VersionArgv], if supported then Pass else Fail(NotSupported))
  }

  /** Which name is looked up: the default for no name or a lone empty name, otherwise the
      first name, so an empty first name followed by others is looked up as "". */
  lemma {:induction false} CheckNameCases(x: string, rest: seq<string>)
    ensures CheckName([]) == "ipset" && CheckName([""]) == "ipset"
    ensures x != "" ==> CheckName([x] + rest) == x
    ensures |rest| > 0 ==> CheckName([x] + rest) == x
  {
  }

  /** The path is stored before the version is checked: once a lookup has produced a
      non-empty path, every later call succeeds without issuing anything, even when the
      first call reported an unsupported version. */
  lemma {:induction false} GateIsSticky(names: seq<string>, lookPath: LookPath, tool: Tool, h: seq<Argv>,
                     names2: seq<string>, lookPath2: LookPath, tool2: Tool)
    requires lookPath(CheckName(names)).Some? && lookPath(CheckName(names)).value != ""
    ensures var first := InitCheck(Unresolved, names, lookPath, tool, h);
      InitCheck(first.gate, names2, lookPath2, tool2, first.issued) == GateStep(first.gate, first.issued, Pass)
  {
  }

  /** A binary that reports v5.9 is refused on the first call and accepted on the second. */
  lemma {:induction false} UnsupportedThenAccepted(lookPath: LookPath, tool: Tool)
    requires lookPath("ipset") == Some("/usr/sbin/ipset")
    requires tool([], VersionArgv) == Reply(true, "v5.9")
    ensures InitCheck(Unresolved, [], lookPath, tool, []).status == Fail(NotSupported)
    ensures var first := InitCheck(Unresolved, [], lookPath, tool, []);
      InitCheck(first.gate, [], lookPath, tool, first.issued).status == Pass
  {
    KnownVersions();
  }

  /** A failed lookup leaves the gate unresolved, so the next call looks again. */
  lemma {:induction false} NotFoundRetries(names: seq<string>, lookPath: LookPath, tool: Tool, h: seq<Argv>)
    requires lookPath(CheckName(names)).None?
    ensures InitCheck(Unresolved, names, lookPath, tool, h) == GateStep(Unresolved, h, Fail(NotFound))
  {
  }
}

/** The external `ipset` binary as this model sees it. Every invocation is an
    argument vector (the arguments after the binary path); the tool answers with
    whether it exited successfully and its combined standard output and error.
    What the tool does in the kernel is not visible here, so it is an oracle whose
    answer may depend on every command issued before. */
module Exec {

  type Argv = seq<string>

  /** The exit status (`err == nil`) and the text of `CombinedOutput`. */
  datatype Reply = Reply(ok: bool, output: string)

  /** Given the commands issued so far and the next one, the tool's reply to it. */
  type Tool = (seq<Argv>, Argv) -> Reply

  /** The wrapper's errors. The message text is not modelled, only which
      kind of error it is and the output or names it embeds. */
  datatype Error =
    | NotFound                                  // errIpsetNotFound
    | NotSupported                              // errIpsetNotSupported
    | NotHashType(hashType: string)             // New: "not a hash type"
    | Failed(argv: Argv, output: string)        // a command exited with an error; its output is embedded
    | RunFailed(argv: Argv)                     // a command run with Run(): no output is captured
    | ParseError(text: string)                  // strconv.ParseUint on a Statistics field
    | Aggregate(failures: seq<(string, Error)>) // DestroyAll: every set whose destroy failed

  /** An `error` return: nil or an error. */
  datatype Outcome = Pass | Fail(error: Error)

  /** A value-and-error return where the value matters only when the error is nil. */
  datatype Result<T> = Ok(value: T) | Err(error: Error)

  /** The commands issued so far, together with what the operation returns. */
  datatype Step<T> = Step(issued: seq<Argv>, value: T)

  /** The shape shared by the single-command operations: success exactly when the tool
      exits successfully, otherwise an error embedding the command and its output. */
  function Checked(tool: Tool, h: seq<Argv>, argv: Argv): (r: Step<Outcome>)
    ensures r.issued == h + [argv]
    ensures r.value.Pass? <==> tool(h, argv).ok
    ensures r.value.Fail? ==> r.value.error == Failed(argv, tool(h, argv).output)
  {
    var reply := tool(h, argv);
    Step(h + [argv], if reply.ok then Pass else Fail(Failed(argv, reply.output)))
  }
}

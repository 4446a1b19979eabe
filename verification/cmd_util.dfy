/** The command helpers of the patcher plugin: the result record of a finished
    process, the exit-code gate, the argument vectors for `git` and `bash`, and
    `${key}` template substitution. Running a process is not modelled: results
    are values handed in. */
module CmdUtil {
  import opened Wrappers
  import opened Text

  /** A finished process: its exit code and its joined output lines, if any. */
  datatype CmdResult = CmdResult(exitCode: int, output: Option<string>)

  /** What `cmd` hands the process builder: the command line, the working directory,
      whether output is echoed, and the extra environment. */
  datatype Invocation = Invocation(args: seq<string>, dir: string, printOut: bool, environment: map<string, string>)

  /** The exception `error(..)` raises. */
  datatype CommandError = IllegalState(message: string)

  /** The outcome of `ensureSuccess`: the results the error handler was called with,
      then the returned output or the raised error. */
  datatype Ensured = Ensured(handlerCalls: seq<CmdResult>, result: Result<Option<string>, CommandError>)

  const FailurePrefix := "Failed to run command, exit code is "

  /** `ensureSuccess`: a zero exit code returns the output; any other runs the error
      handler once on the result and then fails, naming the exit code. */
  function EnsureSuccess(cmd: CmdResult): (e: Ensured)
    ensures e.result.Success? <==> cmd.exitCode == 0
    ensures cmd.exitCode == 0 ==> e.result.value == cmd.output && e.handlerCalls == []
    ensures cmd.exitCode != 0 ==> e.handlerCalls == [cmd] && StartsWith(e.result.error.message, FailurePrefix)
  {
    if cmd.exitCode != 0 then
      Ensured([cmd], Failure(IllegalState(FailurePrefix + IntToString(cmd.exitCode))))
    else
      Ensured([], Success(cmd.output))
  }

  /** The exit code of a failed command can be read back from the error message. */
  lemma EnsureSuccessNamesExitCode(cmd: CmdResult)
    requires cmd.exitCode != 0 && IntMin <= cmd.exitCode <= IntMax
    ensures var m := EnsureSuccess(cmd).result.error.message;
      |FailurePrefix| <= |m| && ParseInt(m[|FailurePrefix|..]) == Some(cmd.exitCode)
  {
    var m := EnsureSuccess(cmd).result.error.message;
    assert m[|FailurePrefix|..] == IntToString(cmd.exitCode);
    IntToStringParses(cmd.exitCode);
  }

  function Cmd(args: seq<string>, dir: string, printOut: bool, environment: map<string, string>): Invocation {
    Invocation(args, dir, printOut, environment)
  }

  /** `gitCmd`: `git` before the caller's arguments; the environment argument is not passed on. */
  function GitCmd(args: seq<string>, dir: string, printOut: bool, environment: map<string, string>): (inv: Invocation)
    ensures |inv.args| == |args| + 1 && inv.args[0] == "git" && inv.args[1..] == args
    ensures inv.dir == dir && inv.printOut == printOut && inv.environment == map[]
  {
    Cmd(["git"] + args, dir, printOut, map[])
  }

  /** `bashCmd`: `bash -c` before the caller's arguments; the environment argument is not passed on. */
  function BashCmd(args: seq<string>, dir: string, printOut: bool, environment: map<string, string>): (inv: Invocation)
    ensures |inv.args| == |args| + 2 && inv.args[..2] == ["bash", "-c"] && inv.args[2..] == args
    ensures inv.dir == dir && inv.printOut == printOut && inv.environment == map[]
  {
    Cmd(["bash", "-c"] + args, dir, printOut, map[])
  }

  /** Two calls differing only in the environment build the same invocation, and the
      caller's arguments can be read back from it. */
  lemma CommandsIgnoreEnvironment(args: seq<string>, dir: string, printOut: bool, e1: map<string, string>, e2: map<string, string>)
    ensures GitCmd(args, dir, printOut, e1) == GitCmd(args, dir, printOut, e2)
    ensures BashCmd(args, dir, printOut, e1) == BashCmd(args, dir, printOut, e2)
    ensures GitCmd(args, dir, printOut, e1) != BashCmd(args, dir, printOut, e2)
  {
    assert GitCmd(args, dir, printOut, e1).args[0] == "git";
    assert BashCmd(args, dir, printOut, e2).args[0] == "bash";
  }

  function Placeholder(key: string): string {
    "${" + key + "}"
  }

  /** The pairs applied in order, each replacing every placeholder of its key. */
  function ApplyAll(s: string, replacements: seq<(string, string)>): string
    decreases |replacements|
  {
    if replacements == [] then s
    else
      var (key, value) := replacements[|replacements| - 1];
      ReplaceAll(ApplyAll(s, replacements[..|replacements| - 1]), Placeholder(key), value)
  }

  /** `applyReplacements`. */
  method ApplyReplacements(s: string, replacements: seq<(string, string)>) returns (result: string)
    ensures result == ApplyAll(s, replacements)
  {
    result := s;
    for i := 0 to |replacements|
      invariant result == ApplyAll(s, replacements[..i])
    {
      var (key, value) := replacements[i];
      assert replacements[..i + 1][..i] == replacements[..i];
      result := ReplaceAll(result, "${" + key + "}", value);
    }
    assert replacements[..|replacements|] == replacements;
  }

  /** Applying a list of pairs is applying its first part and then the rest: later
      pairs see what earlier ones substituted. */
  lemma {:induction false} ApplyAllConcat(s: string, first: seq<(string, string)>, rest: seq<(string, string)>)
    ensures ApplyAll(s, first + rest) == ApplyAll(ApplyAll(s, first), rest)
    decreases |rest|
  {
    if rest == [] {
      assert first + rest == first;
    } else {
      assert (first + rest)[..|first + rest| - 1] == first + rest[..|rest| - 1];
      ApplyAllConcat(s, first, rest[..|rest| - 1]);
    }
  }

  /** A string without `${` holds no placeholder, so no pair changes it. */
  lemma {:induction false} ApplyAllNoMarker(s: string, replacements: seq<(string, string)>)
    requires !Contains(s, "${")
    ensures ApplyAll(s, replacements) == s
    decreases |replacements|
  {
    if replacements != [] {
      var (key, value) := replacements[|replacements| - 1];
      ApplyAllNoMarker(s, replacements[..|replacements| - 1]);
      if Contains(s, Placeholder(key)) {
        assert Placeholder(key) == "${" + (key + "}");
        ContainsPrefixOf(s, "${", key + "}");
      }
      ReplaceAllAbsent(s, Placeholder(key), value);
    }
  }

  /** Pairs that map each key to its own placeholder change nothing. */
  lemma {:induction false} ApplyAllIdentity(s: string, replacements: seq<(string, string)>)
    requires forall i :: 0 <= i < |replacements| ==> replacements[i].1 == Placeholder(replacements[i].0)
    ensures ApplyAll(s, replacements) == s
    decreases |replacements|
  {
    if replacements != [] {
      var (key, value) := replacements[|replacements| - 1];
      ApplyAllIdentity(s, replacements[..|replacements| - 1]);
      ReplaceAllSelf(s, Placeholder(key));
    }
  }
}

/**
  `MetasploitKernel` as an object: the fields `do_execute` and
  `do_execute_command` change (which console is live, its child's pid, what was
  sent to it, what was streamed to the front end), and the two methods, each
  proved to leave exactly the state the functions of `KernelSpec` describe.
 */
module MsfKernel {
  import opened PyStrings
  import opened Options
  import opened KernelSpec
  import ReplWrapper

  class MetasploitKernel {
    /** The console oracle, the pid of each new child, and the `shlex` head token. */
    const env: Env

    /** Which `MsfconsoleREPLWrapper` `self.msf_wrapper` is: 0 for the first, one more per restart. */
    var generation: nat
    /** `self.child.pid`. */
    var pid: nat
    /** Every command forwarded to the consoles and every interrupt, in order. */
    var sent: seq<Event>
    /** The text of every stdout stream message sent to the front end, in order. */
    var streams: seq<string>

    function Snapshot(): State
      reads this
    {
      State(Session(generation, pid), sent, streams)
    }

    /** The recorded pid is that of the live console's child. */
    ghost predicate Valid()
      reads this
    {
      CurrentChild(env, Snapshot())
    }

    /** `__init__`: starts the first console. */
    constructor (env: Env)
      ensures Valid() && this.env == env
      ensures Snapshot() == Initial(env)
    {
      this.env := env;
      generation := 0;
      pid := env.spawn(0);
      sent := [];
      streams := [];
    }

    /** `_start_msfconsole`: replaces the console with a new one. */
    method StartMsfconsole()
      modifies this
      ensures generation == old(generation) + 1 && pid == env.spawn(generation)
      ensures sent == old(sent) && streams == old(streams)
    {
      generation := generation + 1;
      pid := env.spawn(generation);
    }

    /** `_cmd_getpid(args, silent)`: reports the pid of the live console's child. */
    function CmdGetPid(args: seq<string>, silent: bool): (text: string)
      reads this
      ensures ParsePidText(text) == Some(pid)
    {
      ParsePidTextRoundTrip(pid);
      PidText(pid)
    }

    /** `do_execute_command(cmd, silent)`. */
    method DoExecuteCommand(line: string, silent: bool) returns (output: string, interrupted: bool)
      requires Valid()
      modifies this
      ensures Valid()
      ensures Outcome(Snapshot(), output, interrupted) == Step(env, old(Snapshot()), line)
    {
      interrupted := false;
      var command := line;
      if StartsWith(line, DirectivePrefix) {
        command := DropFirst(env.head(line));
        if HasHandler(command) {
          output := CmdGetPid([], silent);
          return;
        }
      }
      var g := generation;
      var reply := env.respond(sent, g, command);
      sent := sent + [Command(g, command, CommandTimeout)];
      match reply
      case Done(text) =>
        output := text;
      case Interrupted(before) =>
        sent := sent + [Interrupt(g, ReplWrapper.ExpectTimeout(ReplWrapper.DefaultPromptWait))];
        interrupted := true;
        output := before;
      case Eof(before) =>
        output := before + RestartNotice;
        StartMsfconsole();
    }

    /** `do_execute(code, silent)`. */
    method DoExecute(code: string, silent: bool) returns (status: Status)
      requires Valid()
      modifies this
      ensures Valid()
      ensures Response(Snapshot(), status) == Execute(env, old(Snapshot()), code, silent)
    {
      if IsBlank(code) {
        return Ok;
      }
      ghost var start := Snapshot();
      var lines := Split(code);
      var output := "";
      var interrupted := false;
      var i := 0;
      while i < |lines|
        invariant 0 <= i <= |lines|
        invariant Valid()
        invariant !interrupted
        invariant Fold(env, start, lines[..i]) == Outcome(Snapshot(), output, false)
      {
        var commandOutput, commandInterrupted := DoExecuteCommand(lines[i], silent);
        FoldNextLine(env, start, lines, i);
        output := output + commandOutput;
        interrupted := commandInterrupted;
        if interrupted {
          RunLinesStopsAt(env, start, lines, i);
          break;
        }
        i := i + 1;
      }
      if !interrupted {
        assert lines[..i] == lines;
        RunLinesWithoutInterrupt(env, start, lines);
      }
      assert RunLines(env, start, lines) == Outcome(Snapshot(), output, interrupted);
      if !silent {
        streams := streams + [output];
      }
      status := if interrupted then Abort else Ok;
    }
  }
}

# Metasploit kernel: the execution coordinator

A model of how the Metasploit Jupyter kernel (`msf_kernel.py`) runs a cell.
`MetasploitKernel.do_execute` splits the cell into lines. It passes each line
to `do_execute_command`, which does one of three things:

- it answers a `%getpid` directive itself;
- it forwards the bare name of any other `%name` directive to the
  `msfconsole` child;
- it forwards any other line as it is.

Each forwarded line can end in three ways:

- a normal reply;
- a `KeyboardInterrupt`: the kernel sends SIGINT, waits up to ten seconds
  for the prompt, marks the line interrupted and stops the cell;
- an end of file: the kernel appends `Restarting Metasploit`, starts a new
  console and goes on with the next line.

Unless the cell is blank or silent, the kernel emits the concatenated output
as one stdout stream message. The cell ends with status `abort` exactly when a line
was interrupted.

Files:

- `option.dfy` holds the `Option` type.
- `strings.dfy` (`PyStrings`) writes out the Python string operations the
  kernel relies on: `split('\n')` with its inverse `'\n'.join`, `strip()`,
  `startswith`, `[1:]`, and decimal formatting with its parser. The kernel
  is Python 2 code: under Python 3, `pexpect.spawn` without an `encoding`
  makes `child.before` a byte string, and adding `'Restarting Metasploit'`
  to it would raise `TypeError`. Whitespace is therefore that of Python 2.7's
  `unicode.isspace()`, which includes U+180E.
- `repl_wrapper.dfy` (`ReplWrapper`) covers the pure parts of
  `MsfconsoleREPLWrapper`:
  - the `max(timeout, 10)` floor of `_expect_prompt`;
  - the 16-character prompt token drawn from `ascii_letters + digits`;
  - the `set Prompt <token>` command.
- `kernel_spec.dfy` (`KernelSpec`) defines one line (`Step`), the loop that
  stops at the first interrupted line (`RunLines`) and the whole cell
  (`Execute`), as functions over an abstract kernel state. It also defines a
  reference run that never stops (`Fold`), and proves the loop equal to the
  reference run over the lines the loop handles.
- `kernel.dfy` (`MsfKernel`) holds the class `MetasploitKernel`. Its fields
  are:
  - the session generation (which console is live);
  - the child's pid;
  - the log of the commands forwarded to the consoles and the interrupts sent
    to them;
  - the stream messages sent.

  `DoExecute` and `DoExecuteCommand` update these fields in place, with a
  `while` loop and `break`. They are proved to leave exactly the state that
  `Execute` and `Step` describe.

The console is an oracle, `Env`:

- `respond(history, generation, command)` returns one of three replies:
  - `Done(text)`;
  - `Interrupted(before)`, carrying `child.before` once the prompt is back;
  - `Eof(before)`.
- `spawn(generation)` is the pid of each new child.
- `head(line)` is `shlex.split(line)[0]`.

The random draws of `random.choice` are a function `pick` whose values are
taken modulo the alphabet size.

Three behaviours of the code are worth stating plainly:

- An unknown `%name` directive is not ignored or rejected: it is forwarded to
  the console as the bare `name`, without its arguments.
- An end of file does not end the cell: after the restart, the remaining
  lines of the cell run against the new console.
- Every forwarded command is given `self.timeout`, 5 seconds, but the
  wrapper's `_expect_prompt` raises every prompt wait to at least 10 seconds,
  so a command waits up to 10 seconds and the 5 never takes effect.

## Model

| member | source | states |
|---|---|---|
| MsfKernel.MetasploitKernel.constructor | msf_kernel.py:84-88 | the kernel starts on console generation 0 with that child's pid, nothing sent and nothing emitted |
| MsfKernel.MetasploitKernel.StartMsfconsole | msf_kernel.py:115-120 | a restart moves to the next console generation and records its new child's pid; logs are untouched |
| MsfKernel.MetasploitKernel.CmdGetPid | msf_kernel.py:122-123 | the reply text reads back as exactly the pid of the live child |
| MsfKernel.MetasploitKernel.DoExecuteCommand | msf_kernel.py:145-164 | handling one line leaves exactly the state, output and interrupted flag of `KernelSpec.Step`, and keeps the pid that of the live console's child |
| MsfKernel.MetasploitKernel.DoExecute | msf_kernel.py:125-143 | running a cell leaves exactly the state and status of `KernelSpec.Execute`, and keeps the pid that of the live console's child |
| KernelSpec.Initial | msf_kernel.py:84-88 | the first state is on generation 0 and records that generation's child, with empty logs |
| KernelSpec.Step | msf_kernel.py:145-164 | one line never emits a stream message and only appends to what was sent; the console changes exactly when the forwarded line hits end of file, and then to the next generation's child; the line is interrupted exactly when it was forwarded and the reply was an interrupt |
| KernelSpec.LocalDirectiveAnswered | msf_kernel.py:147-151 | a `%getpid` line returns the pid text, is not interrupted, and sends nothing to the console |
| KernelSpec.UnknownDirectiveForwarded | msf_kernel.py:147-155 | a `%name` line without a handler sends the console the head token without its `%`, with timeout 5 |
| KernelSpec.PlainLineForwarded | msf_kernel.py:147-155 | a line not starting with `%` is sent verbatim with timeout 5; a normal reply is the output and nothing else changes |
| KernelSpec.InterruptedLine | msf_kernel.py:156-160 | an interrupted line sends SIGINT after the command, waits up to 10 seconds for the prompt, returns the text read before the prompt, is flagged, and keeps the session |
| KernelSpec.EofLine | msf_kernel.py:161-164 | a line that hits end of file returns the text read before it plus `Restarting Metasploit`, is not flagged, and moves to the next generation's child |
| KernelSpec.ForwardedCommandWait | msf_kernel.py:155 | a forwarded command is given timeout 5, which the `_expect_prompt` floor turns into a 10-second prompt wait |
| KernelSpec.IsDirective | msf_kernel.py:147 | `cmd.startswith('%')`; no contract of its own, its effect is stated by PlainLineForwarded and UnknownDirectiveForwarded |
| KernelSpec.DirectiveName | msf_kernel.py:148-149 | `args.pop(0)[1:]`: the shlex head token without its `%`; no contract of its own, UnknownDirectiveForwarded states that this bare name is what the console receives |
| KernelSpec.HasHandler | msf_kernel.py:150 | `hasattr(self, '_cmd_' + cmd)`: `getpid` is the only handler; no contract of its own, its effect is stated by LocalDirectiveAnswered and UnknownDirectiveForwarded |
| KernelSpec.IsLocal | msf_kernel.py:147-151 | a line the kernel answers itself: a `%` line whose name has a handler; no contract of its own, its effect is stated by LocalDirectiveAnswered and StepSends |
| KernelSpec.Forwarded | msf_kernel.py:147-155 | what `run_command` receives: the bare directive name for a `%` line, the line itself otherwise; no contract of its own, stated by UnknownDirectiveForwarded, PlainLineForwarded and StepSends |
| KernelSpec.ParsePidTextRoundTrip | msf_kernel.py:123 | the `PID = n` reply parses back to n |
| KernelSpec.PidTextInjective | msf_kernel.py:123 | two pid replies are equal exactly when the pids are equal |
| KernelSpec.PidText | msf_kernel.py:123 | the `PID = n` reply; no contract of its own, ParsePidTextRoundTrip and PidTextInjective state that it determines the pid |
| KernelSpec.Fold | msf_kernel.py:129-134 | the reference run over all lines emits nothing, only appends to what was sent, and keeps the pid that of the live child |
| KernelSpec.FoldSnoc | msf_kernel.py:130-132 | running one more line extends the reference run by that line's outcome against the state left by the lines before it |
| KernelSpec.FoldNextLine | msf_kernel.py:130-132 | the reference run over the first i+1 lines is that over the first i extended by line i |
| KernelSpec.LineOutcomeOfPrefix | msf_kernel.py:130-131 | a line's outcome depends only on the lines before it |
| KernelSpec.FoldOutputIsConcatenation | msf_kernel.py:132 | the accumulated output is the in-order concatenation of the per-line outputs |
| KernelSpec.FoldInterruptedIff | msf_kernel.py:131-133 | the reference run is flagged exactly when some line is interrupted |
| KernelSpec.FirstInterruptFrom | msf_kernel.py:133-134 | finds the first interrupted line at or after j: none before it is interrupted, and it is interrupted when it exists |
| KernelSpec.SomeLineInterrupted | msf_kernel.py:133-134 | some line is interrupted exactly when the search for the first interrupted line finds one |
| KernelSpec.Processed | msf_kernel.py:130-134 | the number of lines handled never exceeds the number of lines |
| KernelSpec.RunLinesWithoutInterrupt | msf_kernel.py:130-134 | without an interruption, the loop handles every line as the reference run does |
| KernelSpec.RunLinesStopsAt | msf_kernel.py:133-134 | with the first interruption on line k, the loop's result is the reference run over lines 0..k, and later lines are not run |
| KernelSpec.RunLinesIsFoldOfProcessed | msf_kernel.py:129-134 | the loop is the reference run over exactly the lines up to and including the first interrupted one, and is flagged exactly when such a line exists |
| KernelSpec.RunLines | msf_kernel.py:129-134 | the `for ... break` loop emits no stream message itself, only appends to what was sent, and keeps the pid that of the live child; which lines it runs is stated by RunLinesWithoutInterrupt, RunLinesStopsAt and RunLinesIsFoldOfProcessed |
| KernelSpec.CommandsAppend | msf_kernel.py:155-157 | the commands in a concatenated log are the commands of each part, in order |
| KernelSpec.StepSends | msf_kernel.py:147-157 | one line sends the console its forwarded form, or nothing when answered locally; the interrupt adds no command |
| KernelSpec.FoldSends | msf_kernel.py:130-134 | the commands forwarded are the forwarded forms of the non-local lines, in order, and no others |
| KernelSpec.FoldSession | msf_kernel.py:161-163 | after some lines, the live console's generation is the start plus one per end-of-file restart, with that generation's child |
| KernelSpec.FoldPid | msf_kernel.py:161-163 | after some lines, the recorded pid is that of the child of the start generation plus the number of restarts |
| KernelSpec.LocalLineAnswered | msf_kernel.py:150-151 | a `%getpid` line reports the pid of the state the earlier lines leave |
| KernelSpec.GetPidReportsCurrentChild | msf_kernel.py:122-123 | a `%getpid` line reports the child of the start generation plus the restarts before it |
| KernelSpec.GetPidStable | msf_kernel.py:122-123 | two `%getpid` lines with no restart between them report the same text |
| KernelSpec.Execute | msf_kernel.py:125-143 | a cell only appends to what was sent, keeps the pid that of the live child, and emits at most one stream message, none when silent; its status and what it sends and emits are stated by ExecuteWhitespace, ExecuteStatus, ExecuteSends and ExecuteEmits |
| KernelSpec.ExecuteWhitespace | msf_kernel.py:126-127 | a cell of whitespace only is `ok` and changes nothing: nothing sent, nothing emitted |
| KernelSpec.ExecuteStatus | msf_kernel.py:140-143 | a non-blank cell ends `abort` exactly when one of its lines, run in order, is interrupted |
| KernelSpec.ExecuteSends | msf_kernel.py:129-134 | a cell sends the forwarded form of each line it handles, in order, and nothing for lines after the first interruption |
| KernelSpec.ExecuteEmits | msf_kernel.py:136-138 | a non-blank cell that is not silent emits exactly one stream message, on the abort path too: the concatenated outputs of the handled lines; a silent non-blank cell emits none |
| KernelSpec.ExecuteOneCommand | msf_kernel.py:125-143 | a one-line, non-blank cell not starting with `%`, with a normal reply, sends the line as it is, emits its reply unless silent, and is `ok` |
| KernelSpec.RunSingleLine | msf_kernel.py:130-134 | the loop over a single line is that line's outcome |
| KernelSpec.SplitSingleLine | msf_kernel.py:130 | a line without a newline splits into itself |
| ReplWrapper.ExpectTimeout | msf_kernel.py:70-71 | the prompt wait is never below 10 seconds or below the requested timeout, and is one of the two |
| ReplWrapper.AlphabetIsAsciiAlnum | msf_kernel.py:59 | the alphabet `ascii_letters + digits` (the constant `Alphabet`) holds exactly the ASCII letters and digits |
| ReplWrapper.Token | msf_kernel.py:59 | the prompt token has 16 characters, each an ASCII letter or digit |
| ReplWrapper.TokenCoversAllCandidates | msf_kernel.py:59 | every 16-character string of ASCII letters and digits is a possible token |
| ReplWrapper.PromptChange | msf_kernel.py:60 | the prompt command is `set Prompt ` followed by the token |
| ReplWrapper.PromptOf | msf_kernel.py:60 | any token recovered from a command rebuilds that command |
| ReplWrapper.PromptChangeRoundTrip | msf_kernel.py:60 | the token is recovered from its prompt command, so distinct tokens give distinct commands |
| ReplWrapper.StartupPromptChange | msf_kernel.py:59-60 | the start-up prompt command has 27 characters and carries the drawn token |
| PyStrings.TrimLeft | msf_kernel.py:126 | `lstrip` removes only a leading run of whitespace, all of it |
| PyStrings.TrimRight | msf_kernel.py:126 | `rstrip` removes only a trailing run of whitespace, all of it |
| PyStrings.IsSpace | msf_kernel.py:126 | the characters `unicode.strip()` removes under Python 2.7; no contract of its own, TrimLeft, TrimRight and BlankIffAllSpace state its effect |
| PyStrings.Strip | msf_kernel.py:126 | what `strip()` leaves is no longer than the string and neither starts nor ends with whitespace |
| PyStrings.StripIsSlice | msf_kernel.py:126 | what `strip()` leaves is a slice of the string with only whitespace before and after it; with Strip's own contract, it is the string with both whitespace ends removed |
| PyStrings.IsBlank | msf_kernel.py:126 | `not code.strip()`; no contract of its own, BlankIffAllSpace states it holds exactly for all-whitespace cells |
| PyStrings.BlankIffAllSpace | msf_kernel.py:126 | `code.strip()` is empty exactly when every character is whitespace |
| PyStrings.DropFirst | msf_kernel.py:149 | `[1:]` drops the first character, and is empty on an empty string |
| PyStrings.StartsWith | msf_kernel.py:147 | `s.startswith(p)`; no contract of its own, its effect is stated by PlainLineForwarded and UnknownDirectiveForwarded |
| PyStrings.Split | msf_kernel.py:130 | `split('\n')` gives at least one piece and no piece holds a newline |
| PyStrings.JoinSplit | msf_kernel.py:130 | joining the pieces with newlines gives back the cell |
| PyStrings.SplitJoin | msf_kernel.py:130 | splitting a join of newline-free pieces gives back the pieces |
| PyStrings.DecimalString | msf_kernel.py:123 | `"{0}".format(pid)`; no contract of its own, DecimalStringDigits and ParseDecimalString state it is a digit string that reads back as the number |
| PyStrings.DecimalStringDigits | msf_kernel.py:123 | the formatted pid is a non-empty digit string with no leading zero |
| PyStrings.ParseDecimalString | msf_kernel.py:123 | the formatted pid reads back as the pid |

## Left out

- Spawning `msfconsole` (lines 51-57) and reading from it are not modelled. Every reply comes from the oracle `Env.respond`, and `Env.spawn` gives each new child's pid.
- The prompt regular expressions and the meterpreter prompt (lines 58, 61-62, 72) are not modelled. Matching them is up to the oracle.
- Swapping the SIGINT handler around the restart (lines 116, 119-120) is left out. It is process-wide signal state.
- `_setup_env` (lines 108-113) is left out. It only writes environment variables.
- The ipykernel plumbing is left out: `Kernel.__init__`, the class attributes, `execution_count`, `payload`, `user_expressions`, the I/O socket and the launcher (lines 75-83, 127, 138, 141, 143, 166-167). A stream message is modelled as its text appended to `streams`.
- `language_version`, `banner` and the `child` property (lines 90-106) are left out. They only query the console.
- `shlex.split` is the abstract `Env.head`. Its `ValueError` on unbalanced quotes is not modelled. `pop(0)` cannot fail, because a line starting with `%` always yields a token.
- Errors the console can raise are not modelled: pexpect's timeout, errors inside `_expect_prompt` or a restart, and `run_command`'s `ValueError` on an empty command (see the KernelSpec.Step line below).
- MsfKernel.MetasploitKernel.CmdGetPid: the `args` and `silent` parameters are accepted and ignored, as the handler ignores them. The dispatcher's `args` (the rest of the shlex tokens) is not computed.
- KernelSpec.Step: an empty forwarded command is handed to the oracle like any other. This covers an empty line, including the last piece of a cell that ends in a newline, and a `%` line with an empty name, such as `%` or `% x`. In the source, `run_command("")` raises `ValueError`, and `do_execute` ends with that exception. For such cells, ExecuteStatus, ExecuteSends and ExecuteEmits describe a run that the source does not complete.
- The `set Prompt <token>` command that each new console receives at start-up (lines 60, 63-68) is not in the `sent` log. The command itself is ReplWrapper.PromptChange. The token drawn for each restart is not tied to its generation.
- `timeout=None` passed to `_expect_prompt` is not modelled: ReplWrapper.ExpectTimeout takes an integer, and the kernel never passes `None`.

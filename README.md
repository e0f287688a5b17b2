# kroppzeug, modelled in Dafny

kroppzeug is a terminal menu for SSH hosts. At start-up it reads
`~/.ssh/config`. Every `Host` block that carries a `#kf_managed true`
annotation becomes an entry in the global `hosts` list. That entry holds:

- the shortcut (the `Host` alias);
- a description (`#kf_description`);
- an optional update command (`#kf_update`);
- an optional command run on connect (`#kf_autocmd`).

The program then loops forever. Each pass draws the host list two to a row
and places the prompt, showing a pending error once. It then reads one line
and dispatches it:

- `!e`/`!exit` quits;
- `!h`/`!hostname` toggles the banner;
- `!ua`/`!update-all` updates every host;
- `!u <name>`/`!update <name>` updates one host;
- any other `!` line is an unknown command;
- anything else is taken as a shortcut to connect to.

Connecting and updating both run `ssh -v <shortcut>`. They add
` -t "<command>"` when the host has an autocmd (connect) or an update
command (update).

The project models:

- `parse_hosts`, as a fold over the lines of the file (`Config`) and as the
  loop that appends to `hosts` in place (`Session.Kroppzeug.ParseHosts`).
  Python's `strip`, `split(None, 1)` and `lower` are written out in `Text`,
  together with the full `str.isspace` set.
- `shortcut_to_id` (`Lookup`, and a loop in the class).
- The shell commands built by `connect_host` and `update_host` (`Commands`).
- One pass of the main loop, as a step function. It returns the new
  `error_message`/`hostname` state and the actions taken, in order
  (`Dispatch`), and the class method `Execute` performs the same step on
  the globals.
- The layout of `print_hosts` and the row and error handling of
  `print_prompt` (`Screen`).

The globals `hosts`, `error_message` and `hostname` are the fields of the
class `Session.Kroppzeug`.

Two crashes of the source are modelled as explicit outcomes:

- `#kf_managed true` before any `Host` line reads the unbound `shortcut`.
  The parse stops there with a fault at that line's index. The records
  appended before it stay.
- A non-empty input line made only of whitespace reaches `cmds[0]` on an
  empty list. The step returns `IndexError` and changes nothing.

Notes on the code:

- A `Host` line resets the description to the empty string. So
  `host[1] is not False` in `print_hosts` always holds, and the description
  cell is always `' ' + description[:dwidth]`.
- Only `!e` and `!exit` quit, and end of input reads as `!exit`.
- A block with two `#kf_managed true` lines is listed twice.
- The file is parsed once, before the loop.

## Model

| member | source | states |
|---|---|---|
| Text.IsSpace | kroppzeug.py:64-66 | The character set of Python's `str.isspace`, which `strip()` and `split()` treat as whitespace: the ASCII controls tab to carriage return and 0x1C-0x1F, space, U+0085, U+00A0, U+1680, U+2000-U+200A, U+2028, U+2029, U+202F, U+205F and U+3000. |
| Text.Strip | kroppzeug.py:64 | `line.strip()`: the result is the input between its first and last non-whitespace characters. It is empty exactly when the line is all whitespace, and otherwise starts and ends with non-whitespace. |
| Text.SplitOnce | kroppzeug.py:66-69 | `split(None, 1)`: no parts exactly when the string is all whitespace. The first part is the first maximal run of non-whitespace. A second part exists exactly when non-whitespace follows, and it is the rest of the string after the separating run, trailing whitespace included. Parts are never empty. |
| Text.SplitOnceOfPair | kroppzeug.py:64-71 | Splitting `option + " " + value` gives back `[option, value]` whenever the option is one word and the value is stripped. Stripping that line leaves it unchanged. |
| Text.LowerEqualsKeyword | kroppzeug.py:72-84 | `option.lower() == keyword` holds exactly when the two have the same length and each character is the keyword's character or a character that lowercases to it. The comparison is case-insensitive in both directions. |
| Text.PyPrefix | kroppzeug.py:125-127 | The slice `s[:n]` is a prefix of `s`. Its length is `min(n, len(s))` for `n >= 0` and `max(0, len(s) + n)` for a negative `n`. |
| Text.RJust | kroppzeug.py:131 | `rjust(w)` has length `max(len(s), w)`, ends with `s` and is spaces before it. |
| Text.LJust | kroppzeug.py:132 | `ljust(w)` has length `max(len(s), w)`, starts with `s` and is spaces after it. |
| Text.Lower | kroppzeug.py:72-84 | `str.lower()` as the keyword comparisons use it: each ASCII capital and KELVIN SIGN is lowered, and every other character is kept. Its meaning for the comparisons is stated by `LowerEqualsKeyword`. |
| Config.Classify | kroppzeug.py:64-84 | What one line does: `line.strip().split(None, 1)`, then the `if`/`elif` chain on the lowercased option. A line with fewer than two parts, or an unknown option, is `Ignored`. Its properties are `ClassifiedValueIsTrimmed` and `OptionSelects`. |
| Config.Apply | kroppzeug.py:72-85 | One turn of the parse loop on the state (block in force, records appended, fault). `Host` resets the block, an annotation sets one field, and `#kf_managed true` appends the block or faults when no `Host` came before. |
| Config.Fold | kroppzeug.py:62-85 | The parse loop run over the classified lines in file order. Its properties are the `Config` lemmas below. |
| Config.Parse | kroppzeug.py:59-86 | `parse_hosts` over the lines of the file: each line classified, then folded. |
| Config.ClassifiedValueIsTrimmed | kroppzeug.py:64-71 | A line with fewer than two parts is ignored. Every value a directive carries is non-empty, with no whitespace at either end. |
| Config.ValueIsTrimmed | kroppzeug.py:80 | The value split off a stripped line is never empty, so the `len(value) > 0` test on `#kf_update` always holds. |
| Config.OptionSelects | kroppzeug.py:72-85 | On a line `option value`, the lowercased option alone picks the directive: `host`, `#kf_description`, `#kf_update` or `#kf_autocmd` carry the value. `#kf_managed` appends exactly when the value lowercases to `true`. Any other option leaves the state unchanged. |
| Config.HostLineStartsBlock | kroppzeug.py:72-77 | After a `Host` line, the block in force is that alias with an empty description and no update or autocmd command. |
| Config.AnnotationUpdatesBlock | kroppzeug.py:78-83 | A non-`Host` line changes only the field it annotates in the block in force, and leaves no block when there is none. |
| Config.BlockIsCurrent | kroppzeug.py:72-83 | Until a fault, the locals of the parse loop equal an independent description of the block: the last `Host` alias with the last annotations after it. |
| Config.ManagedLineAppendsBlock | kroppzeug.py:84-85 | A `#kf_managed true` line appends a copy of the block in force at that line, and every other line appends nothing. |
| Config.RecordCount | kroppzeug.py:84-85 | A parse without a fault yields one record per `#kf_managed true` line, so a block managed twice is listed twice. |
| Config.RecordsOnlyGrow | kroppzeug.py:85 | Later lines never remove or change a record already appended. The records so far are a prefix of the records at the end. |
| Config.UnmanagedLinesAddNothing | kroppzeug.py:84-85 | Lines with no `#kf_managed true` among them add no record and raise no fault. A host without the annotation never appears. |
| Config.FaultIsFinal | kroppzeug.py:85 | Once the parse has faulted, further lines change nothing. |
| Config.FaultIff | kroppzeug.py:72-85 | The parse faults exactly when a `#kf_managed true` line comes before every `Host` line. It faults at the first such line. |
| Session.Kroppzeug.constructor | kroppzeug.py:30-32 | The globals start as an empty host list, no error and the banner (not the hostname) shown. |
| Session.Kroppzeug.ParseHosts | kroppzeug.py:59-86 | `hosts` becomes its old value followed by the records of the parse, and the fault, if any, is the parse's fault. |
| Session.Kroppzeug.ApplyDirectives | kroppzeug.py:62-85 | The loop over the classified lines leaves `hosts` and the fault as the fold over those lines gives them. Its invariant ties the four locals to the fold's block. |
| Lookup.FindShortcut | kroppzeug.py:184-190 | The result is the smallest index whose shortcut equals `s` exactly. There is no result (`False`) exactly when no shortcut equals `s`. |
| Session.Kroppzeug.ShortcutToId | kroppzeug.py:184-190 | The loop returns the first index whose shortcut is `s`, or none when no shortcut matches. This is `FindShortcut` on the current `hosts`. |
| Commands.ShellCommand | kroppzeug.py:164-166 | The command always starts with `ssh -v <shortcut>`. It is exactly that when there is no remote command. |
| Commands.ConnectCommand | kroppzeug.py:160-166 | The command `connect_host` always runs: `ssh -v <shortcut>`, with ` -t "<autocmd>"` when the host has an autocmd. `ConnectCommandRunsAutocmd` reads the autocmd back from it. |
| Commands.UpdateCommand | kroppzeug.py:172-181 | `update_host` runs a command exactly when the host has an update command. |
| Commands.ShellCommandRoundTrip | kroppzeug.py:164-166 | The remote command, or its absence, can be read back from the built command. Building is injective in the remote command. |
| Commands.ConnectCommandRunsAutocmd | kroppzeug.py:160-169 | `connect_host` runs `ssh -v` on the shortcut with exactly the host's autocmd as remote command, or with none. |
| Commands.UpdateCommandRunsUpdate | kroppzeug.py:172-181 | When the host has an update command, `update_host` runs exactly that command on the shortcut. |
| Dispatch.Command | kroppzeug.py:201-204 | The line the loop acts on: the line read, or `!exit` at end of input. |
| Dispatch.ParseRequest | kroppzeug.py:207-243 | The branch chosen for a line, in priority order. Empty input, the exit, hostname and update-all words, and a blank line are each recognised exactly. An update request has `!u`/`!update` as first word and the rest of the line as name. Any other line that is not blank and does not start with `!` is a shortcut as a whole, leading whitespace included. |
| Dispatch.Step | kroppzeug.py:201-243 | One pass of the loop. It crashes exactly on a blank non-empty line. Actions name only existing hosts. Any action leaves the state unchanged. `hostname` flips exactly on `!h`/`!hostname`. The loop quits exactly on `!e`/`!exit`. A changed error is one of the three messages, and then nothing runs. |
| Dispatch.EmptyInput | kroppzeug.py:208-209 | The empty line leaves the state unchanged and takes no action. |
| Dispatch.ExitQuits | kroppzeug.py:201-213 | `!e`, `!exit` and the end of input quit, change nothing else and take no other action. |
| Dispatch.Invocations | kroppzeug.py:160-181 | The shell commands that a sequence of actions runs, in order. A connect runs the host's connect command, an update runs the host's update command when it has one, and the other actions run nothing. |
| Dispatch.UpdateAll | kroppzeug.py:218-221 | `!update-all` updates host `i` and then prints a rule, for every `i` in list order, and does nothing else. |
| Dispatch.UpdateAllRunsEachUpdate | kroppzeug.py:218-221 | `!ua`/`!update-all` leaves the state unchanged. It runs the update command of each host that has one, once and in list order, and nothing for the others. |
| Dispatch.UpdateCommandsCount | kroppzeug.py:218-221 | Update-all issues as many commands as there are hosts with an update command. |
| Dispatch.UpdateWithoutName | kroppzeug.py:223-225 | `!u`/`!update` with no name sets "Oh no, missing server name!" and runs nothing. |
| Dispatch.UpdateByName | kroppzeug.py:223-232 | `!u <name>` updates the first host with that shortcut and pauses 3 seconds. An unknown name sets "Sorry, don't know that server name!" and runs nothing. |
| Dispatch.UpdateOneInvocations | kroppzeug.py:231-232 | Updating one host runs its update command once, or nothing when it has none. |
| Dispatch.NotAMetaCommand | kroppzeug.py:211-223 | A line that splits into two parts, or into `!u`/`!update` alone, is none of the exit, hostname or update-all words, so it reaches the `!update` branch. |
| Dispatch.ConnectByName | kroppzeug.py:238-244 | A line that is not blank, not a `!` command and not an update request, and that names a known host as a whole, connects to the first host of that name and pauses 1 second. It runs exactly one command, the host's connect command. |
| Dispatch.UnknownName | kroppzeug.py:234-241 | A line that is not blank, does not start with `!` and is not an update request, and that names no host, sets "Sorry, don't know that server name!" and runs nothing. This includes ` !x`, which does not start with `!` and so gets no usage hint. |
| Dispatch.UnknownBangCommand | kroppzeug.py:234-236 | Any other `!` line sets the usage hint and runs nothing. |
| Dispatch.HostnameToggles | kroppzeug.py:215-216 | `!h`/`!hostname` flips `hostname`, keeps any pending error and takes no action. |
| Dispatch.HostnameToggleTwice | kroppzeug.py:215-216 | `!h` twice restores the state it started from. |
| Session.Kroppzeug.UpdateEvery | kroppzeug.py:219-221 | The `for i in range(len(hosts))` loop issues exactly the actions of `UpdateAll`. |
| Session.Kroppzeug.Execute | kroppzeug.py:201-243 | The main loop's `if`/`elif` chain on the globals. Its actions and new `error_message`/`hostname` are those of `Step`. On a blank line it crashes and changes nothing. |
| Screen.DescriptionWidth | kroppzeug.py:116-119 | `dwidth = (termx - 38) // 2`, rounded down as Python's `//` does. |
| Screen.ShortcutCell | kroppzeug.py:116-131 | The shortcut cell is exactly 16 characters. It is the shortcut right-justified with spaces, or the shortcut's first 16 characters when it is longer. |
| Screen.DescriptionCell | kroppzeug.py:119-132 | The description cell starts with a space. For `dwidth >= 0` it has length exactly `max(1 + min(dwidth, len), dwidth)`: `dwidth` when the description is shorter than `dwidth`, `dwidth + 1` otherwise. It holds the first `min(dwidth, len)` characters of the description, then spaces. For a negative `dwidth` it is a space and the description with its last `-dwidth` characters dropped. |
| Screen.HostCell | kroppzeug.py:125-132 | One host's entry: bold blue shortcut cell, colour reset, description cell. |
| Screen.Rows | kroppzeug.py:133-136 | Cells printed in order, with a line break after each cell at an odd index only. |
| Screen.Listing | kroppzeug.py:112-136 | Everything `print_hosts` prints: the rows of the host cells, in list order. |
| Screen.ListingRows | kroppzeug.py:122-136 | With no line break inside a shortcut or description, the listing holds `len(hosts) // 2` line breaks. For a non-empty list it ends a line exactly when the number of hosts is even. |
| Session.Kroppzeug.PrintHosts | kroppzeug.py:112-136 | The loop prints exactly `Listing(hosts, termx)`. |
| Screen.ShowPrompt | kroppzeug.py:139-154 | The prompt goes to row `termy - 3` when an error is pending and `termy - 2` otherwise. The pending error is shown and cleared, and `hostname` is untouched. |
| Screen.ErrorShownOnce | kroppzeug.py:144-154 | An error is shown once: the next prompt shows none and sits at `termy - 2`. |
| Session.Kroppzeug.PrintPrompt | kroppzeug.py:139-157 | The method places the prompt and clears `error_message` as `ShowPrompt` says. |
| Session.Kroppzeug.Frame | kroppzeug.py:196-243 | One pass of the `while True` loop. The listing, then the prompt (which consumes the pending error), then `Step` on the cleared state. On a crash it takes no action, and the state is the one the prompt left. |
| Examples.BlockFolds | kroppzeug.py:72-85 | A block of `Host`, description, autocmd and `#kf_managed true` lines yields exactly one record with those values and no update command. |
| Examples.HostInAnyCase | kroppzeug.py:64-72 | `hOsT web1` is a `Host` line for `web1`. |
| Examples.SampleConnects | kroppzeug.py:160-166 | Typing `web1` with only `web1` listed, with autocmd `uptime`, connects to host 0. It runs exactly `ssh -v web1 -t "uptime"`. |

## Left out

- The SIGINT handler and `sys.exit` (kroppzeug.py:47-50) are signals and process control.
- `get_termsize` runs `stty size` in a subprocess. The terminal size is a parameter (`termx`, `termy`).
- `os.system('clear')`, `subprocess.call` and `time.sleep` are external processes and timing. They appear only as the action tokens `Connect`, `Update`, `HLine`, `Pause` and `Quit`, and `Invocations` gives the shell commands the calls would run.
- Opening and reading the config file, and `input()`, are I/O. The file is a sequence of lines and the input is an optional line, where `None` is end of input.
- `print_header` with `gethostname()` and `str.center` is a foreign call and cosmetic centring. The model keeps only the `hostname` flag it reads.
- The ANSI colour sequences appear only as the constants inside a listing cell. The red and yellow used by the header, the prompt and the printed commands are not modelled. `print_hline`'s rule is only the `HLine` action.
- Session.Kroppzeug.PrintPrompt: the cursor escape, the rule and the `(kroppzeug)$ ` text it prints are not modelled. Only the row, the error shown and the clearing are.
- Session.Kroppzeug.ParseHosts: every line is classified before the loop runs, instead of as the loop reaches it. Classifying has no side effects, so the result is the same.
- Text.LowerEqualsKeyword: `lower()` is modelled only on ASCII letters and KELVIN SIGN, the one non-ASCII character whose lowercase is ASCII. Every comparison the program makes is with an ASCII keyword, so the outcome of each comparison is exact. The lowercased string itself is not.
- The counter `i` in `parse_hosts` is never read, so it is not modelled.
- `print_hosts`'s `host[1] is False` branch is unreachable, because the description is always a string.
- Shell quoting: the built command is a string. How the shell splits it is not modelled.
- Session.Kroppzeug.Execute: on the crash the source ends the program. The model returns `crashed` with the globals unchanged.
- Dispatch.Step: `Quit` stands for clearing the screen and `quit()`. Nothing after it is modelled.

/**
  One turn of the main loop after the screen is drawn: the line read from the
  terminal is matched against the command grammar and turned into a new UI
  state and the actions the loop performs, in order.
 */
module Dispatch {
  import opened Wrappers
  import opened Text
  import opened Records
  import opened Lookup
  import opened Commands

  /** What the loop does besides changing its state. */
  datatype Action =
    | Connect(index: nat)   // connect_host(i)
    | Update(index: nat)    // update_host(i)
    | HLine                 // print_hline()
    | Pause(seconds: nat)   // time.sleep(seconds)
    | Quit                  // clear the screen and leave the program

  datatype Outcome =
    | Continue(state: UiState, actions: seq<Action>)
    | IndexError  // `cmds[0]` on a line that is only whitespace: the program dies

  const MissingServerName := "Oh no, missing server name!"
  const UnknownServerName := "Sorry, don't know that server name!"
  const Usage := "Try '!hostname', '!update', '!update-all' or '!exit'..."

  /** The line read; end of input reads as `!exit`. */
  function Command(input: Option<string>): string {
    input.GetOr("!exit")
  }

  /** `!update-all`: each host is updated in list order, with a rule after each. */
  function UpdateAll(n: nat): (acts: seq<Action>)
    ensures |acts| == 2 * n
    ensures forall i :: 0 <= i < n ==> acts[2 * i] == Update(i) && acts[2 * i + 1] == HLine
    ensures forall k :: 0 <= k < |acts| ==> (acts[k].Update? && acts[k].index < n) || acts[k] == HLine
  {
    if n == 0 then [] else UpdateAll(n - 1) + [Update(n - 1), HLine]
  }

  predicate ActionsFit(actions: seq<Action>, n: nat) {
    forall k :: 0 <= k < |actions| ==>
      (actions[k].Connect? ==> actions[k].index < n) && (actions[k].Update? ==> actions[k].index < n)
  }

  predicate IsError(m: string) {
    m == MissingServerName || m == UnknownServerName || m == Usage
  }

  /** What a line asks for, decided in the order of the main loop's `if`/`elif` chain. */
  datatype Request =
    | NoInput                 // the empty line
    | Exit                    // `!e`, `!exit`
    | ToggleHostname          // `!h`, `!hostname`
    | UpdateEveryHost         // `!ua`, `!update-all`
    | UpdateMissingName       // `!u` or `!update` alone
    | UpdateHost(name: string)   // `!u <name>`, `!update <name>`
    | UnknownCommand          // any other line starting with `!`
    | ConnectHost(name: string)  // anything else: the whole line is a shortcut
    | Blank                   // whitespace only: `cmds` is empty and `cmds[0]` fails

  function ParseRequest(cmd: string): (q: Request)
    ensures q == NoInput <==> cmd == []
    ensures q == Exit <==> cmd == "!e" || cmd == "!exit"
    ensures q == ToggleHostname <==> cmd == "!h" || cmd == "!hostname"
    ensures q == UpdateEveryHost <==> cmd == "!ua" || cmd == "!update-all"
    ensures q == Blank <==> cmd != [] && AllSpace(cmd)
    ensures q.UpdateHost? ==> |SplitOnce(cmd)| == 2 && q.name == SplitOnce(cmd)[1]
    ensures q.UpdateHost? || q == UpdateMissingName ==> SplitOnce(cmd)[0] == "!u" || SplitOnce(cmd)[0] == "!update"
    ensures q.ConnectHost? ==> q.name == cmd && cmd[0] != '!'
    ensures cmd != [] && cmd[0] != '!' && !IsSpace(cmd[0]) ==> q == ConnectHost(cmd)
    ensures (cmd != [] && !AllSpace(cmd) && cmd[0] != '!' &&
             SplitOnce(cmd)[0] != "!u" && SplitOnce(cmd)[0] != "!update") ==> q == ConnectHost(cmd)
  {
    var cmds := SplitOnce(cmd);
    if |cmd| < 1 then NoInput
    else if cmd == "!e" || cmd == "!exit" then Exit
    else if cmd == "!h" || cmd == "!hostname" then ToggleHostname
    else if cmd == "!ua" || cmd == "!update-all" then UpdateEveryHost
    else if |cmds| == 0 then Blank
    else if cmds[0] == "!update" || cmds[0] == "!u" then
      if |cmds| <= 1 then UpdateMissingName else UpdateHost(cmds[1])
    else if cmd[0] == '!' then UnknownCommand
    else ConnectHost(cmd)
  }

  /**
    One turn of the main loop: the state it leaves and the actions it takes.
    Only the hostname toggle changes `hostname`, only a failed command sets an
    error (and then nothing runs), and only the exit command quits.
   */
  function Step(hosts: seq<HostRecord>, st: UiState, input: Option<string>): (r: Outcome)
    ensures r.IndexError? <==> Command(input) != [] && AllSpace(Command(input))
    ensures r.Continue? ==> ActionsFit(r.actions, |hosts|)
    ensures r.Continue? && r.actions != [] ==> r.state == st
    ensures r.Continue? ==>
      (r.state.hostname != st.hostname <==> Command(input) == "!h" || Command(input) == "!hostname")
    ensures r.Continue? ==>
      (Quit in r.actions <==> Command(input) == "!e" || Command(input) == "!exit")
    ensures r.Continue? && r.state.errorMessage != st.errorMessage ==>
      r.state.errorMessage.Some? && IsError(r.state.errorMessage.value) && r.actions == []
  {
    match ParseRequest(Command(input))
    case NoInput => Continue(st, [])
    case Exit => Continue(st, [Quit])
    case ToggleHostname => Continue(st.(hostname := !st.hostname), [])
    case UpdateEveryHost => Continue(st, UpdateAll(|hosts|))
    case UpdateMissingName => Continue(st.(errorMessage := Some(MissingServerName)), [])
    case UpdateHost(name) =>
      (match FindShortcut(hosts, name)
       case None => Continue(st.(errorMessage := Some(UnknownServerName)), [])
       case Some(i) => Continue(st, [Update(i), Pause(3)]))
    case UnknownCommand => Continue(st.(errorMessage := Some(Usage)), [])
    case ConnectHost(name) =>
      (match FindShortcut(hosts, name)
       case None => Continue(st.(errorMessage := Some(UnknownServerName)), [])
       case Some(i) => Continue(st, [Connect(i), Pause(1)]))
    case Blank => IndexError
  }

  /** The shell commands the actions run through `subprocess.call`, in order. */
  function Invocations(hosts: seq<HostRecord>, actions: seq<Action>): seq<string>
    requires ActionsFit(actions, |hosts|)
  {
    if actions == [] then []
    else
      var n := |actions| - 1;
      Invocations(hosts, actions[..n]) +
        match actions[n]
        case Connect(i) => [ConnectCommand(hosts[i])]
        case Update(i) => (match UpdateCommand(hosts[i]) case None => [] case Some(c) => [c])
        case _ => []
  }

  /** The update commands of the hosts that have one, in list order. */
  function UpdateCommands(hosts: seq<HostRecord>): (cs: seq<string>)
    ensures |cs| <= |hosts|
  {
    if hosts == [] then []
    else
      var n := |hosts| - 1;
      UpdateCommands(hosts[..n]) + (match UpdateCommand(hosts[n]) case None => [] case Some(c) => [c])
  }

  function WithUpdate(hosts: seq<HostRecord>): nat {
    if hosts == [] then 0
    else WithUpdate(hosts[..|hosts| - 1]) + (if hosts[|hosts| - 1].update.Some? then 1 else 0)
  }

  lemma {:induction false} UpdateCommandsCount(hosts: seq<HostRecord>)
    ensures |UpdateCommands(hosts)| == WithUpdate(hosts)
    decreases |hosts|
  {
    if hosts != [] {
      UpdateCommandsCount(hosts[..|hosts| - 1]);
    }
  }

  lemma {:induction false} UpdateAllPrefix(hosts: seq<HostRecord>, k: nat)
    requires k <= |hosts|
    ensures ActionsFit(UpdateAll(k), |hosts|)
    ensures Invocations(hosts, UpdateAll(k)) == UpdateCommands(hosts[..k])
    decreases k
  {
    if k > 0 {
      UpdateAllPrefix(hosts, k - 1);
      UpdateAndRule(hosts, UpdateAll(k - 1), k - 1);
      assert hosts[..k][..k - 1] == hosts[..k - 1];
    }
  }

  /** An update followed by a rule runs that host's update command, if any. */
  lemma UpdateAndRule(hosts: seq<HostRecord>, a: seq<Action>, i: nat)
    requires ActionsFit(a, |hosts|) && i < |hosts|
    ensures ActionsFit(a + [Update(i), HLine], |hosts|)
    ensures Invocations(hosts, a + [Update(i), HLine])
         == Invocations(hosts, a) + (match UpdateCommand(hosts[i]) case None => [] case Some(c) => [c])
  {
    var b := a + [Update(i)];
    assert a + [Update(i), HLine] == b + [HLine];
    assert b[..|a|] == a;
    assert (b + [HLine])[..|b|] == b;
  }

  /**
    `!ua` / `!update-all` runs the update command of every host that has one,
    once each and in list order, and nothing for the others; the state is
    unchanged.
   */
  lemma UpdateAllRunsEachUpdate(hosts: seq<HostRecord>, st: UiState, cmd: string)
    requires cmd == "!ua" || cmd == "!update-all"
    ensures Step(hosts, st, Some(cmd)) == Continue(st, UpdateAll(|hosts|))
    ensures Invocations(hosts, UpdateAll(|hosts|)) == UpdateCommands(hosts)
    ensures |Invocations(hosts, UpdateAll(|hosts|))| == WithUpdate(hosts)
  {
    UpdateAllPrefix(hosts, |hosts|);
    assert hosts[..|hosts|] == hosts;
    UpdateCommandsCount(hosts);
  }

  /** `!u` or `!update` without a server name sets the error and runs nothing. */
  lemma UpdateWithoutName(hosts: seq<HostRecord>, st: UiState, cmd: string)
    requires SplitOnce(cmd) == ["!u"] || SplitOnce(cmd) == ["!update"]
    ensures Step(hosts, st, Some(cmd)) == Continue(st.(errorMessage := Some(MissingServerName)), [])
  {
    NotAMetaCommand(cmd);
  }

  /**
    `!u <name>` updates the first host called `<name>` and then pauses for
    three seconds; an unknown name only sets the error.
   */
  lemma UpdateByName(hosts: seq<HostRecord>, st: UiState, cmd: string)
    requires |SplitOnce(cmd)| == 2 && (SplitOnce(cmd)[0] == "!u" || SplitOnce(cmd)[0] == "!update")
    ensures FindShortcut(hosts, SplitOnce(cmd)[1]).None? ==>
      Step(hosts, st, Some(cmd)) == Continue(st.(errorMessage := Some(UnknownServerName)), [])
    ensures FindShortcut(hosts, SplitOnce(cmd)[1]).Some? ==>
      Step(hosts, st, Some(cmd)) == Continue(st, [Update(FindShortcut(hosts, SplitOnce(cmd)[1]).value), Pause(3)])
  {
    NotAMetaCommand(cmd);
    assert ParseRequest(cmd) == UpdateHost(SplitOnce(cmd)[1]);
  }

  /** Updating one host runs its update command once, or nothing when it has none. */
  lemma UpdateOneInvocations(hosts: seq<HostRecord>, i: nat)
    requires i < |hosts|
    ensures ActionsFit([Update(i), Pause(3)], |hosts|)
    ensures Invocations(hosts, [Update(i), Pause(3)])
         == if hosts[i].update.Some? then [UpdateCommand(hosts[i]).value] else []
  {
    var one := [Update(i)];
    assert ActionsFit(one, |hosts|) && one[..0] == [];
    assert Invocations(hosts, one) == if hosts[i].update.Some? then [UpdateCommand(hosts[i]).value] else [];
    assert [Update(i), Pause(3)][..1] == one;
  }

  /** The fixed commands are single words, so none of them splits into a longer line or into `!u`. */
  lemma NotAMetaCommand(cmd: string)
    requires |SplitOnce(cmd)| == 2 || SplitOnce(cmd) == ["!u"] || SplitOnce(cmd) == ["!update"]
    ensures cmd != "!e" && cmd != "!exit" && cmd != "!h" && cmd != "!hostname"
    ensures cmd != "!ua" && cmd != "!update-all"
  {
    OtherThanWord(cmd, "!e");
    OtherThanWord(cmd, "!exit");
    OtherThanWord(cmd, "!h");
    OtherThanWord(cmd, "!hostname");
    OtherThanWord(cmd, "!ua");
    OtherThanWord(cmd, "!update-all");
  }

  lemma OtherThanWord(cmd: string, w: string)
    requires w != [] && forall k :: 0 <= k < |w| ==> !IsSpace(w[k])
    requires SplitOnce(cmd) != [w]
    ensures cmd != w
  {
    SplitOnceOfWord(w);
  }

  /**
    A line that names a known host, and is neither a `!` command, an update
    request nor blank, connects to the first host of that name and runs exactly one command,
    built from that host's autocmd.
   */
  lemma ConnectByName(hosts: seq<HostRecord>, st: UiState, cmd: string, i: nat)
    requires cmd != [] && !AllSpace(cmd) && cmd[0] != '!'
    requires SplitOnce(cmd)[0] != "!u" && SplitOnce(cmd)[0] != "!update"
    requires FindShortcut(hosts, cmd) == Some(i)
    ensures Step(hosts, st, Some(cmd)) == Continue(st, [Connect(i), Pause(1)])
    ensures Invocations(hosts, [Connect(i), Pause(1)]) == [ConnectCommand(hosts[i])]
  {
    assert ParseRequest(cmd) == ConnectHost(cmd);
    var one := [Connect(i)];
    assert ActionsFit(one, |hosts|) && one[..0] == [];
    assert Invocations(hosts, one) == [ConnectCommand(hosts[i])];
    assert [Connect(i), Pause(1)][..1] == one;
  }

  /**
    A line that is not blank, does not start with `!` and is not an update
    request names a host as a whole; naming none sets the "don't know" error.
    This covers a line with leading whitespace, `" !x"` included.
   */
  lemma UnknownName(hosts: seq<HostRecord>, st: UiState, cmd: string)
    requires cmd != [] && !AllSpace(cmd) && cmd[0] != '!'
    requires SplitOnce(cmd)[0] != "!u" && SplitOnce(cmd)[0] != "!update"
    requires FindShortcut(hosts, cmd).None?
    ensures Step(hosts, st, Some(cmd)) == Continue(st.(errorMessage := Some(UnknownServerName)), [])
  {
  }

  /** Any other line starting with `!` sets the usage hint. */
  lemma UnknownBangCommand(hosts: seq<HostRecord>, st: UiState, cmd: string)
    requires cmd != [] && cmd[0] == '!'
    requires cmd !in ["!e", "!exit", "!h", "!hostname", "!ua", "!update-all"]
    requires SplitOnce(cmd)[0] != "!u" && SplitOnce(cmd)[0] != "!update"
    ensures Step(hosts, st, Some(cmd)) == Continue(st.(errorMessage := Some(Usage)), [])
  {
  }

  /** The empty line changes nothing and does nothing. */
  lemma EmptyInput(hosts: seq<HostRecord>, st: UiState)
    ensures Step(hosts, st, Some("")) == Continue(st, [])
  {
  }

  /** `!e`, `!exit` and the end of input quit, and do nothing else. */
  lemma ExitQuits(hosts: seq<HostRecord>, st: UiState, input: Option<string>)
    requires input == Some("!e") || input == Some("!exit") || input.None?
    ensures Step(hosts, st, input) == Continue(st, [Quit])
  {
  }

  /** `!h` flips `hostname`, keeps a pending error and does nothing else. */
  lemma HostnameToggles(hosts: seq<HostRecord>, st: UiState, cmd: string)
    requires cmd == "!h" || cmd == "!hostname"
    ensures Step(hosts, st, Some(cmd)) == Continue(st.(hostname := !st.hostname), [])
  {
  }

  /** `!h` twice gives back the state it started from. */
  lemma HostnameToggleTwice(hosts: seq<HostRecord>, st: UiState, cmd: string)
    requires cmd == "!h" || cmd == "!hostname"
    ensures Step(hosts, st, Some(cmd)).Continue?
    ensures Step(hosts, Step(hosts, st, Some(cmd)).state, Some(cmd)) == Continue(st, [])
  {
  }
}

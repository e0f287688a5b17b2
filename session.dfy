/**
  The program itself: its global variables and the functions that read and
  change them, in the imperative form the source has.
 */
module Session {
  import opened Wrappers
  import opened Text
  import opened Records
  import opened Config
  import opened Lookup
  import opened Screen
  import opened Dispatch

  /** The globals `hosts`, `error_message` and `hostname`. */
  class Kroppzeug {
    var hosts: seq<HostRecord>
    var errorMessage: Option<string>
    var hostname: bool

    /** The globals as the program starts. */
    constructor ()
      ensures hosts == [] && errorMessage == None && !hostname
    {
      hosts := [];
      errorMessage := None;
      hostname := false;
    }

    function State(): UiState
      reads this
    {
      UiState(errorMessage, hostname)
    }

    /**
      `parse_hosts`: reads the lines of the config file, appending a record to
      `hosts` for every `#kf_managed true` line. It stops at the line whose
      `#kf_managed true` comes before any `Host` line, where the source fails
      reading the unbound `shortcut`; what it appended before stays.
     */
    method ParseHosts(lines: seq<string>) returns (fault: Option<nat>)
      modifies this`hosts
      ensures hosts == old(hosts) + Parse(lines).records
      ensures fault == Parse(lines).fault
    {
      var ds := Directives(lines);  // each line stripped, split and classified
      fault := ApplyDirectives(ds);
    }

    /** The loop of `parse_hosts`, over the classified lines. */
    method ApplyDirectives(ds: seq<Directive>) returns (fault: Option<nat>)
      modifies this`hosts
      ensures hosts == old(hosts) + Fold(ds).records
      ensures fault == Fold(ds).fault
    {
      ghost var parsed := Start;  // the parse state the locals stand for
      var shortcut: Option<string> := None;  // None while unbound
      var description := "";
      var update: Option<string> := None;
      var autocmd: Option<string> := None;
      var i := 0;
      while i < |ds|
        invariant 0 <= i <= |ds|
        invariant parsed == Fold(ds[..i])
        invariant parsed.fault.None?
        invariant hosts == old(hosts) + parsed.records
        invariant parsed.block
               == if shortcut.None? then None else Some(HostRecord(shortcut.value, description, update, autocmd))
      {
        var directive := ds[i];
        FoldPrefix(ds, i);
        parsed := Apply(parsed, directive, i);
        match directive {
          case HostDecl(alias) =>
            shortcut, description, update, autocmd := Some(alias), "", None, None;
          case Description(text) =>
            description := text;
          case UpdateCmd(command) =>
            update := Some(command);
          case AutoCmd(command) =>
            autocmd := Some(command);
          case ManagedTrue =>
            if shortcut.None? {
              FaultIsFinal(ds[..i + 1], ds[i + 1..]);
              assert ds[..i + 1] + ds[i + 1..] == ds;
              fault := Some(i);
              return;
            }
            hosts := hosts + [HostRecord(shortcut.value, description, update, autocmd)];
          case Ignored =>
        }
        i := i + 1;
      }
      assert ds[..i] == ds;
      fault := None;
    }

    /** `shortcut_to_id`: the first index whose shortcut is `s`, or `None` (the source's `False`). */
    method ShortcutToId(s: string) returns (r: Option<nat>)
      ensures r == FindShortcut(hosts, s)
      ensures r.Some? ==> r.value < |hosts| && hosts[r.value].shortcut == s
      ensures r.Some? ==> forall j :: 0 <= j < r.value ==> hosts[j].shortcut != s
      ensures r.None? ==> forall j :: 0 <= j < |hosts| ==> hosts[j].shortcut != s
    {
      var i := 0;
      while i < |hosts|
        invariant 0 <= i <= |hosts|
        invariant forall j :: 0 <= j < i ==> hosts[j].shortcut != s
      {
        if hosts[i].shortcut == s {
          return Some(i);
        }
        i := i + 1;
      }
      return None;
    }

    /** `print_hosts`: the text it prints for a terminal `termx` columns wide. */
    method PrintHosts(termx: int) returns (out: string)
      ensures out == Listing(hosts, termx)
    {
      ghost var cells := Cells(hosts, termx);
      out := "";
      var i := 0;
      while i < |hosts|
        invariant 0 <= i <= |hosts|
        invariant out == Rows(cells[..i])
      {
        RowsPrefix(cells, i);
        var cell := HostCell(hosts[i], termx);
        if i % 2 == 0 {
          out := out + cell;
        } else {
          out := out + cell + "\n";
        }
        i := i + 1;
      }
      assert cells[..i] == cells;
    }

    /** `print_prompt`: places the prompt, shows a pending error once and clears it. */
    method PrintPrompt(termy: int) returns (p: Prompt)
      modifies this`errorMessage
      ensures (p, State()) == ShowPrompt(old(State()), termy)
    {
      var row := if errorMessage.Some? then termy - 3 else termy - 2;
      p := Prompt(row, errorMessage);
      if errorMessage.Some? {
        errorMessage := None;
      }
    }

    /** The `!update-all` loop: an update and a rule for each host, in order. */
    method UpdateEvery() returns (actions: seq<Action>)
      ensures actions == UpdateAll(|hosts|)
    {
      actions := [];
      var i := 0;
      while i < |hosts|
        invariant 0 <= i <= |hosts|
        invariant actions == UpdateAll(i)
      {
        actions := actions + [Update(i), HLine];
        i := i + 1;
      }
    }

    /**
      The body of the main loop after `input()`: the actions taken and the
      new globals are those `Step` gives; on a whitespace-only line the source
      fails at `cmds[0]` and nothing changes.
     */
    method Execute(input: Option<string>) returns (actions: seq<Action>, crashed: bool)
      modifies this`errorMessage, this`hostname
      ensures crashed <==> Step(hosts, old(State()), input).IndexError?
      ensures !crashed ==> actions == Step(hosts, old(State()), input).actions
      ensures !crashed ==> State() == Step(hosts, old(State()), input).state
      ensures crashed ==> actions == [] && State() == old(State())
    {
      var cmd := Command(input);
      var cmds := SplitOnce(cmd);
      actions, crashed := [], false;
      ghost var st := State();
      ghost var request := ParseRequest(cmd);
      ghost var out := Step(hosts, st, input);
      if |cmd| < 1 {
        assert request == NoInput;
        assert out == Continue(st, []);
      } else if cmd == "!e" || cmd == "!exit" {
        assert request == Exit;
        assert out == Continue(st, [Quit]);
        actions := [Quit];
      } else if cmd == "!h" || cmd == "!hostname" {
        assert request == ToggleHostname;
        assert out == Continue(st.(hostname := !st.hostname), []);
        hostname := !hostname;
      } else if cmd == "!ua" || cmd == "!update-all" {
        assert request == UpdateEveryHost;
        assert out == Continue(st, UpdateAll(|hosts|));
        actions := UpdateEvery();
      } else if |cmds| == 0 {
        assert request == Blank;
        assert out == IndexError;
        crashed := true;
      } else if cmds[0] == "!update" || cmds[0] == "!u" {
        if |cmds| <= 1 {
          assert request == UpdateMissingName;
          assert out == Continue(st.(errorMessage := Some(MissingServerName)), []);
          errorMessage := Some(MissingServerName);
        } else {
          assert request == UpdateHost(cmds[1]);
          var i := ShortcutToId(cmds[1]);
          if i.None? {
            assert out == Continue(st.(errorMessage := Some(UnknownServerName)), []);
            errorMessage := Some(UnknownServerName);
          } else {
            assert out == Continue(st, [Update(i.value), Pause(3)]);
            actions := [Update(i.value), Pause(3)];
          }
        }
      } else if cmd[0] == '!' {
        assert request == UnknownCommand;
        assert out == Continue(st.(errorMessage := Some(Usage)), []);
        errorMessage := Some(Usage);
      } else {
        assert request == ConnectHost(cmd);
        var i := ShortcutToId(cmd);
        if i.None? {
          assert out == Continue(st.(errorMessage := Some(UnknownServerName)), []);
          errorMessage := Some(UnknownServerName);
        } else {
          assert out == Continue(st, [Connect(i.value), Pause(1)]);
          actions := [Connect(i.value), Pause(1)];
        }
      }
    }

    /**
      One pass of the main loop: the host listing, then the prompt (which
      consumes a pending error), then the line read and its execution.
     */
    method Frame(termx: int, termy: int, input: Option<string>)
      returns (listing: string, prompt: Prompt, actions: seq<Action>, crashed: bool)
      modifies this`errorMessage, this`hostname
      ensures listing == Listing(hosts, termx)
      ensures prompt == ShowPrompt(old(State()), termy).0
      ensures crashed <==> Step(hosts, ShowPrompt(old(State()), termy).1, input).IndexError?
      ensures !crashed ==> actions == Step(hosts, ShowPrompt(old(State()), termy).1, input).actions
      ensures !crashed ==> State() == Step(hosts, ShowPrompt(old(State()), termy).1, input).state
      ensures crashed ==> actions == [] && State() == ShowPrompt(old(State()), termy).1
    {
      listing := PrintHosts(termx);
      prompt := PrintPrompt(termy);
      actions, crashed := Execute(input);
    }
  }
}

/**
  The shell commands `connect_host` and `update_host` hand to the shell:
  `ssh -v <shortcut>`, followed by ` -t "<command>"` when the host has an
  autocmd (connect) or an update command (update).
 */
module Commands {
  import opened Wrappers
  import opened Records

  const SshPrefix := "ssh -v "
  const ForcedCommandOpen := " -t \""

  function ShellCommand(shortcut: string, remote: Option<string>): (c: string)
    ensures |SshPrefix + shortcut| <= |c| && c[..|SshPrefix + shortcut|] == SshPrefix + shortcut
    ensures remote.None? <==> c == SshPrefix + shortcut
  {
    SshPrefix + shortcut + (match remote case None => "" case Some(r) => ForcedCommandOpen + r + "\"")
  }

  /** The command `connect_host` always runs. */
  function ConnectCommand(h: HostRecord): string {
    ShellCommand(h.shortcut, h.autocmd)
  }

  /** The command `update_host` runs; `None` when the host has no update command and nothing runs. */
  function UpdateCommand(h: HostRecord): (c: Option<string>)
    ensures c.Some? <==> h.update.Some?
  {
    if h.update.None? then None else Some(ShellCommand(h.shortcut, h.update))
  }

  /**
    Reads a command built for `shortcut` back: `Some(None)` for a bare
    `ssh -v` call, `Some(Some(r))` when it forces the remote command `r`,
    `None` when the text has neither shape.
   */
  function RemoteCommandOf(c: string, shortcut: string): Option<Option<string>> {
    var base := SshPrefix + shortcut;
    var head := base + ForcedCommandOpen;
    if c == base then Some(None)
    else if |c| > |head| && c[..|head|] == head && c[|c| - 1] == '"' then Some(Some(c[|head|..|c| - 1]))
    else None
  }

  /** The remote command can be read back from the shell command: the two agree on it. */
  lemma ShellCommandRoundTrip(shortcut: string, remote: Option<string>)
    ensures RemoteCommandOf(ShellCommand(shortcut, remote), shortcut) == Some(remote)
  {
    var c := ShellCommand(shortcut, remote);
    var head := SshPrefix + shortcut + ForcedCommandOpen;
    if remote.Some? {
      assert c == head + remote.value + "\"";
      assert c[..|head|] == head;
      assert c[|head|..|c| - 1] == remote.value;
    }
  }

  /** So a connect command runs the host's autocmd, and no other remote command. */
  lemma ConnectCommandRunsAutocmd(h: HostRecord)
    ensures RemoteCommandOf(ConnectCommand(h), h.shortcut) == Some(h.autocmd)
  {
    ShellCommandRoundTrip(h.shortcut, h.autocmd);
  }

  /** And an update command, when there is one, runs exactly the host's update command. */
  lemma UpdateCommandRunsUpdate(h: HostRecord)
    requires h.update.Some?
    ensures RemoteCommandOf(UpdateCommand(h).value, h.shortcut) == Some(h.update)
  {
    ShellCommandRoundTrip(h.shortcut, h.update);
  }
}

/**
  A worked case: a managed block in the config file becomes one host record,
  and typing its shortcut at the prompt connects to it and runs its autocmd.
 */
module Examples {
  import opened Wrappers
  import opened Text
  import opened Records
  import opened Config
  import opened Lookup
  import opened Commands
  import opened Dispatch

  /** The loop over a managed block: reset, two annotations, one append. */
  lemma BlockFolds(alias: string, description: string, autocmd: string)
    ensures Fold([HostDecl(alias), Description(description), AutoCmd(autocmd), ManagedTrue])
         == var r := HostRecord(alias, description, None, Some(autocmd)); Parsed(Some(r), [r], None)
  {
    var d0, d1, d2, d3 := HostDecl(alias), Description(description), AutoCmd(autocmd), ManagedTrue;
    FoldSnoc([], d0);
    assert [] + [d0] == [d0];
    FoldSnoc([d0], d1);
    assert [d0] + [d1] == [d0, d1];
    FoldSnoc([d0, d1], d2);
    assert [d0, d1] + [d2] == [d0, d1, d2];
    FoldSnoc([d0, d1, d2], d3);
    assert [d0, d1, d2] + [d3] == [d0, d1, d2, d3];
  }

  /** `hOsT web1` is a `Host` line: the option is matched in any case. */
  lemma HostInAnyCase()
    ensures Classify("hOsT" + " " + "web1") == HostDecl("web1")
  {
    assert Lower("hOsT") == "host";
    assert forall i :: 0 <= i < 4 ==> !IsSpace("hOsT"[i]);
    OptionSelects("hOsT", "web1");
  }

  const Web1 := HostRecord("web1", "Web Server", None, Some("uptime"))

  /**
    Typing `web1` connects to host 0 and nothing else, and the one command it
    runs is `ssh -v web1 -t "uptime"`.
   */
  lemma SampleConnects(st: UiState)
    ensures Step([Web1], st, Some("web1")) == Continue(st, [Connect(0), Pause(1)])
    ensures Invocations([Web1], [Connect(0), Pause(1)]) == ["ssh -v web1 -t \"uptime\""]
  {
    assert FindShortcut([Web1], "web1") == Some(0);
    assert forall k :: 0 <= k < 4 ==> !IsSpace("web1"[k]);
    SplitOnceOfWord("web1");
    ConnectByName([Web1], st, "web1", 0);
    Web1Command();
  }

  lemma Web1Command()
    ensures ConnectCommand(Web1) == "ssh -v web1 -t \"uptime\""
  {
  }
}

/** `shortcut_to_id`: finding a host by its shortcut. */
module Lookup {
  import opened Wrappers
  import opened Records

  /**
    The smallest index whose shortcut equals `s` exactly (case-sensitive), or
    `None` where the source returns `False`.
   */
  function FindShortcut(hosts: seq<HostRecord>, s: string): (r: Option<nat>)
    ensures r.Some? ==> r.value < |hosts| && hosts[r.value].shortcut == s
    ensures r.Some? ==> forall j :: 0 <= j < r.value ==> hosts[j].shortcut != s
    ensures r.None? <==> forall j :: 0 <= j < |hosts| ==> hosts[j].shortcut != s
  {
    if hosts == [] then None
    else if hosts[0].shortcut == s then Some(0)
    else match FindShortcut(hosts[1..], s)
      case None => None
      case Some(k) => Some(k + 1)
  }
}

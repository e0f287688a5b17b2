/**
  What `print_hosts` and `print_prompt` put on the terminal, as functions of
  the host list, the UI state and the terminal size (which the source reads
  from `stty size`).
 */
module Screen {
  import opened Wrappers
  import opened Text
  import opened Records

  const TermBlue := "\U{1B}[94m"
  const TermBold := "\U{1B}[1m"
  const TermReset := "\U{1B}[0m"

  /** Width of the shortcut column (`swidth`). */
  const ShortcutWidth := 16

  /**
    Width of the description column (`dwidth`): what is left of the terminal
    once two shortcut columns and their margins are taken, halved and rounded
    down (Python's `//`). It is negative on a terminal narrower than 38.
   */
  function DescriptionWidth(termx: int): (w: int)
    ensures 2 * w <= termx - (ShortcutWidth + 3) * 2 < 2 * w + 2
  {
    (termx - (ShortcutWidth + 3) * 2) / 2
  }

  /** The shortcut, cut to 16 characters and right-justified to exactly 16. */
  function ShortcutCell(shortcut: string): (c: string)
    ensures |c| == ShortcutWidth
    ensures |shortcut| <= ShortcutWidth ==> c[ShortcutWidth - |shortcut|..] == shortcut
    ensures |shortcut| <= ShortcutWidth ==> forall i :: 0 <= i < ShortcutWidth - |shortcut| ==> c[i] == ' '
    ensures |shortcut| > ShortcutWidth ==> c == shortcut[..ShortcutWidth]
  {
    RJust(PyPrefix(shortcut, ShortcutWidth), ShortcutWidth)
  }

  /**
    A space and the description cut to `dwidth` characters, left-justified to
    `dwidth`. When `dwidth >= 0` it is `dwidth` characters long, or `dwidth + 1`
    when the description fills the column.
    On a terminal narrower than 38 columns `dwidth` is negative, and the slice
    drops that many characters from the end of the description.
   */
  function DescriptionCell(description: string, dwidth: int): (c: string)
    ensures |c| >= 1 && c[0] == ' '
    ensures dwidth >= 0 ==> |c| == dwidth || |c| == dwidth + 1
    ensures dwidth >= 0 ==> 1 + Min(dwidth, |description|) <= |c|
    ensures dwidth >= 0 ==> |c| == Max(1 + Min(dwidth, |description|), dwidth)
    ensures dwidth >= 0 ==> c[1..1 + Min(dwidth, |description|)] == description[..Min(dwidth, |description|)]
    ensures dwidth >= 0 ==> forall i :: 1 + Min(dwidth, |description|) <= i < |c| ==> c[i] == ' '
    ensures dwidth < 0 ==> c == " " + description[..Max(0, |description| + dwidth)]
  {
    LJust(" " + PyPrefix(description, dwidth), dwidth)
  }

  /** One host's entry in the listing, colour codes included. */
  function HostCell(h: HostRecord, termx: int): string {
    TermBold + TermBlue + ShortcutCell(h.shortcut) + TermReset
    + DescriptionCell(h.description, DescriptionWidth(termx))
  }

  /** The cells of all hosts, in list order. */
  function Cells(hosts: seq<HostRecord>, termx: int): seq<string> {
    seq(|hosts|, k requires 0 <= k < |hosts| => HostCell(hosts[k], termx))
  }

  /** Cells printed two to a row: a line break follows each cell at an odd index. */
  function Rows(cells: seq<string>): string {
    if cells == [] then ""
    else
      var n := |cells| - 1;
      Rows(cells[..n]) + cells[n] + (if n % 2 == 1 then "\n" else "")
  }

  /** `print_hosts`: everything it prints, in order. */
  function Listing(hosts: seq<HostRecord>, termx: int): string {
    Rows(Cells(hosts, termx))
  }

  /** One more cell: it follows the earlier rows, with a line break after an odd index. */
  lemma RowsPrefix(cells: seq<string>, i: nat)
    requires i < |cells|
    ensures Rows(cells[..i + 1]) == Rows(cells[..i]) + cells[i] + (if i % 2 == 1 then "\n" else "")
  {
    assert cells[..i + 1][..i] == cells[..i];
  }

  function Count(s: string, c: char): nat {
    if s == [] then 0 else (if s[0] == c then 1 else 0) + Count(s[1..], c)
  }

  lemma {:induction false} CountAppend(a: string, b: string, c: char)
    ensures Count(a + b, c) == Count(a, c) + Count(b, c)
    decreases |a|
  {
    if a == [] {
      assert a + b == b;
    } else {
      assert (a + b)[1..] == a[1..] + b;
      CountAppend(a[1..], b, c);
    }
  }

  lemma {:induction false} CountAbsent(s: string, c: char)
    requires c !in s
    ensures Count(s, c) == 0
    decreases |s|
  {
    if s != [] {
      assert s[0] != c;
      CountAbsent(s[1..], c);
    }
  }

  /** With no line break inside a cell, `Rows` holds one line break per full row of two. */
  lemma {:induction false} RowsCount(cells: seq<string>)
    requires forall k :: 0 <= k < |cells| ==> '\n' !in cells[k]
    ensures Count(Rows(cells), '\n') == |cells| / 2
    decreases |cells|
  {
    if cells != [] {
      var n := |cells| - 1;
      var tail := if n % 2 == 1 then "\n" else "";
      RowsCount(cells[..n]);
      CountAbsent(cells[n], '\n');
      CountAppend(Rows(cells[..n]), cells[n], '\n');
      CountAppend(Rows(cells[..n]) + cells[n], tail, '\n');
    }
  }

  /** And `Rows` ends a line exactly when the number of cells is even. */
  lemma RowsEndLine(cells: seq<string>)
    requires cells != [] && forall k :: 0 <= k < |cells| ==> cells[k] != [] && '\n' !in cells[k]
    ensures Rows(cells) != [] && (Rows(cells)[|Rows(cells)| - 1] == '\n' <==> |cells| % 2 == 0)
  {
    var n := |cells| - 1;
    var last := cells[n];
    assert last != [] && '\n' !in last;
    var front := Rows(cells[..n]) + last;
    assert Rows(cells) == front + (if n % 2 == 1 then "\n" else "");
    assert front[|front| - 1] == last[|last| - 1];
  }

  predicate NoLineBreaks(hosts: seq<HostRecord>) {
    forall k :: 0 <= k < |hosts| ==> '\n' !in hosts[k].shortcut && '\n' !in hosts[k].description
  }

  lemma CellHasNoLineBreak(h: HostRecord, termx: int)
    requires '\n' !in h.shortcut && '\n' !in h.description
    ensures HostCell(h, termx) != [] && '\n' !in HostCell(h, termx)
  {
    var dwidth := DescriptionWidth(termx);
    var sp, dp := PyPrefix(h.shortcut, ShortcutWidth), PyPrefix(h.description, dwidth);
    PrefixKeepsNoBreak(h.shortcut, ShortcutWidth);
    PrefixKeepsNoBreak(h.description, dwidth);
    PaddingKeepsNoBreak(sp, ShortcutWidth);
    assert '\n' !in " " + dp;
    PaddingKeepsNoBreak(" " + dp, dwidth);
    var parts := [TermBold, TermBlue, ShortcutCell(h.shortcut), TermReset, DescriptionCell(h.description, dwidth)];
    assert HostCell(h, termx) == parts[0] + parts[1] + parts[2] + parts[3] + parts[4];
  }

  lemma PrefixKeepsNoBreak(s: string, n: int)
    requires '\n' !in s
    ensures '\n' !in PyPrefix(s, n)
  {
    var p := PyPrefix(s, n);
    forall i | 0 <= i < |p| ensures p[i] != '\n' {
      assert p[i] == s[i];
    }
  }

  lemma PaddingKeepsNoBreak(s: string, w: int)
    requires '\n' !in s
    ensures '\n' !in RJust(s, w) && '\n' !in LJust(s, w)
  {
    var r, l := RJust(s, w), LJust(s, w);
    forall i | 0 <= i < |r| ensures r[i] != '\n' {
      if i >= |r| - |s| {
        assert r[i] == r[|r| - |s|..][i - (|r| - |s|)] == s[i - (|r| - |s|)];
      }
    }
    forall i | 0 <= i < |l| ensures l[i] != '\n' {
      if i < |s| {
        assert l[i] == l[..|s|][i] == s[i];
      }
    }
  }

  lemma CellsHaveNoLineBreak(hosts: seq<HostRecord>, termx: int)
    requires NoLineBreaks(hosts)
    ensures forall k :: 0 <= k < |hosts| ==> Cells(hosts, termx)[k] != [] && '\n' !in Cells(hosts, termx)[k]
  {
    forall k | 0 <= k < |hosts|
      ensures Cells(hosts, termx)[k] != [] && '\n' !in Cells(hosts, termx)[k]
    {
      CellHasNoLineBreak(hosts[k], termx);
    }
  }

  /**
    Two hosts share a row: the listing holds `|hosts| / 2` line breaks and
    ends a line exactly when the number of hosts is even, so an odd count
    leaves the last row with one column.
   */
  lemma ListingRows(hosts: seq<HostRecord>, termx: int)
    requires NoLineBreaks(hosts)
    ensures Count(Listing(hosts, termx), '\n') == |hosts| / 2
    ensures hosts != [] ==> Listing(hosts, termx) != []
    ensures hosts != [] ==> (Listing(hosts, termx)[|Listing(hosts, termx)| - 1] == '\n' <==> |hosts| % 2 == 0)
  {
    CellsHaveNoLineBreak(hosts, termx);
    RowsCount(Cells(hosts, termx));
    if hosts != [] {
      RowsEndLine(Cells(hosts, termx));
    }
  }

  /** What `print_prompt` shows: the row it moves the cursor to and the error it prints, if any. */
  datatype Prompt = Prompt(row: int, shownError: Option<string>)

  /**
    `print_prompt`: the cursor goes to row `termy - 3` when an error is pending
    (one extra line for it) and `termy - 2` otherwise; a pending error is shown
    and then cleared, and nothing else in the state changes.
   */
  function ShowPrompt(st: UiState, termy: int): (r: (Prompt, UiState))
    ensures r.0.row == (if st.errorMessage.Some? then termy - 3 else termy - 2)
    ensures r.0.shownError == st.errorMessage
    ensures r.1.errorMessage.None? && r.1.hostname == st.hostname
  {
    var row := if st.errorMessage != None then termy - 3 else termy - 2;
    (Prompt(row, st.errorMessage), st.(errorMessage := None))
  }

  /** An error is shown once: the next prompt shows none and sits at `termy - 2`. */
  lemma ErrorShownOnce(st: UiState, termy: int, termy': int)
    ensures ShowPrompt(ShowPrompt(st, termy).1, termy').0 == Prompt(termy' - 2, None)
  {
  }
}

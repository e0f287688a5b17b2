/**
  The reader of `~/.ssh/config` (`parse_hosts`). Every line is stripped and
  split once on whitespace into an option and a value; the option, compared
  case-insensitively, picks what the line does. `Host` starts a new block,
  the `#kf_...` annotations fill it in, and `#kf_managed true` appends a copy
  of the block to the host list.
 */
module Config {
  import opened Wrappers
  import opened Text
  import opened Records

  /** What one line of the file means to the parser. */
  datatype Directive =
    | Ignored
    | HostDecl(alias: string)
    | Description(text: string)
    | UpdateCmd(command: string)
    | AutoCmd(command: string)
    | ManagedTrue

  /** A value as it comes out of a stripped line: non-empty, no whitespace at either end. */
  predicate Trimmed(v: string) {
    v != [] && !IsSpace(v[0]) && !IsSpace(v[|v| - 1])
  }

  predicate Carries(d: Directive, v: string) {
    match d
    case HostDecl(a) => v == a
    case Description(t) => v == t
    case UpdateCmd(c) => v == c
    case AutoCmd(c) => v == c
    case _ => false
  }

  /**
    The option and value of a line: `line.strip().split(None, 1)`. A line with
    fewer than two parts, or with an option the parser does not know, is ignored.
   */
  function Classify(line: string): Directive
  {
    var parts := SplitOnce(Strip(line));
    if |parts| < 2 then Ignored
    else
      var option := Lower(parts[0]);
      var value := parts[1];
      if option == "host" then HostDecl(value)
      else if option == "#kf_description" then Description(value)
      else if option == "#kf_update" && |value| > 0 then UpdateCmd(value)
      else if option == "#kf_autocmd" then AutoCmd(value)
      else if option == "#kf_managed" && Lower(value) == "true" then ManagedTrue
      else Ignored
  }

  /**
    A line with fewer than two parts is ignored, and the value a directive
    carries is non-empty with no whitespace at either end.
   */
  lemma ClassifiedValueIsTrimmed(line: string)
    ensures |SplitOnce(Strip(line))| < 2 ==> Classify(line) == Ignored
    ensures forall v :: Carries(Classify(line), v) ==> Trimmed(v)
  {
    var parts := SplitOnce(Strip(line));
    if |parts| == 2 {
      ValueIsTrimmed(Strip(line), parts);
    }
  }

  /**
    On a line `option value`, the option alone decides the directive, compared
    case-insensitively; an option the parser does not know is ignored, as is
    `#kf_managed` with any value but `true` in some case.
   */
  lemma OptionSelects(option: string, value: string)
    requires option != [] && forall i :: 0 <= i < |option| ==> !IsSpace(option[i])
    requires Trimmed(value)
    ensures Lower(option) == "host" ==> Classify(option + " " + value) == HostDecl(value)
    ensures Lower(option) == "#kf_description" ==> Classify(option + " " + value) == Description(value)
    ensures Lower(option) == "#kf_update" ==> Classify(option + " " + value) == UpdateCmd(value)
    ensures Lower(option) == "#kf_autocmd" ==> Classify(option + " " + value) == AutoCmd(value)
    ensures Lower(option) == "#kf_managed" ==>
      (Classify(option + " " + value) == ManagedTrue <==> Lower(value) == "true")
    ensures Lower(option) !in {"host", "#kf_description", "#kf_update", "#kf_autocmd", "#kf_managed"} ==>
      Classify(option + " " + value) == Ignored
  {
    SplitOnceOfPair(option, value);
  }

  /**
    The value split off a stripped line is itself stripped and never empty, so
    the `len(value) > 0` test on `#kf_update` always holds.
   */
  lemma ValueIsTrimmed(s: string, parts: seq<string>)
    requires s == [] || (!IsSpace(s[0]) && !IsSpace(s[|s| - 1]))
    requires parts == SplitOnce(s) && |parts| == 2
    ensures Trimmed(parts[1])
  {
    assert parts[1][|parts[1]| - 1] == s[|s| - 1];
  }

  /** The state of `parse_hosts` after some lines, and where it crashed if it did. */
  datatype Parsed = Parsed(
    block: Option<HostRecord>,  // None until the first Host line binds `shortcut`
    records: seq<HostRecord>,   // what the loop has appended to `hosts`
    fault: Option<nat>)         // the line whose `#kf_managed true` read an unbound `shortcut`

  const Start := Parsed(None, [], None)

  /** One turn of the loop in `parse_hosts`, for the line numbered `n` (from 0). */
  function Apply(p: Parsed, d: Directive, n: nat): Parsed {
    if p.fault.Some? then p
    else match d
      case Ignored => p
      case HostDecl(a) => p.(block := Some(HostRecord(a, "", None, None)))
      case Description(t) =>
        p.(block := if p.block.Some? then Some(p.block.value.(description := t)) else None)
      case UpdateCmd(c) =>
        p.(block := if p.block.Some? then Some(p.block.value.(update := Some(c))) else None)
      case AutoCmd(c) =>
        p.(block := if p.block.Some? then Some(p.block.value.(autocmd := Some(c))) else None)
      case ManagedTrue =>
        if p.block.None? then p.(fault := Some(n))
        else p.(records := p.records + [p.block.value])
  }

  /** The loop run over a sequence of directives, one per line. */
  function Fold(ds: seq<Directive>): Parsed
  {
    if ds == [] then Start else Apply(Fold(ds[..|ds| - 1]), ds[|ds| - 1], |ds| - 1)
  }

  /** The directive of every line, in order. */
  function Directives(lines: seq<string>): seq<Directive> {
    seq(|lines|, i requires 0 <= i < |lines| => Classify(lines[i]))
  }


  /** `parse_hosts` over the lines of the file. */
  function Parse(lines: seq<string>): Parsed {
    Fold(Directives(lines))
  }

  lemma FoldSnoc(ds: seq<Directive>, d: Directive)
    ensures Fold(ds + [d]) == Apply(Fold(ds), d, |ds|)
  {
    assert (ds + [d])[..|ds|] == ds;
  }

  /** One more line folded in, stated on prefixes of the whole file. */
  lemma FoldPrefix(ds: seq<Directive>, i: nat)
    requires i < |ds|
    ensures Fold(ds[..i + 1]) == Apply(Fold(ds[..i]), ds[i], i)
  {
    assert ds[..i + 1][..i] == ds[..i];
  }

  // ----- An independent description of the block being built -----

  /** The index of the last `Host` line among `ds`. */
  function LastHost(ds: seq<Directive>): (h: Option<nat>)
    ensures h.Some? ==> h.value < |ds| && ds[h.value].HostDecl?
    ensures h.Some? ==> forall k :: h.value < k < |ds| ==> !ds[k].HostDecl?
    ensures h.None? ==> forall k :: 0 <= k < |ds| ==> !ds[k].HostDecl?
  {
    if ds == [] then None
    else if ds[|ds| - 1].HostDecl? then Some(|ds| - 1)
    else LastHost(ds[..|ds| - 1])
  }

  datatype Annotation = DescriptionKey | UpdateKey | AutoCmdKey

  function Payload(d: Directive, key: Annotation): Option<string> {
    match (d, key)
    case (Description(t), DescriptionKey) => Some(t)
    case (UpdateCmd(c), UpdateKey) => Some(c)
    case (AutoCmd(c), AutoCmdKey) => Some(c)
    case _ => None
  }

  /** The value of the last `key` annotation among `ds`. */
  function Latest(ds: seq<Directive>, key: Annotation): Option<string> {
    if ds == [] then None
    else if Payload(ds[|ds| - 1], key).Some? then Payload(ds[|ds| - 1], key)
    else Latest(ds[..|ds| - 1], key)
  }

  /**
    The block in force after `ds`: the last `Host` line's alias, with the last
    description, update and autocmd annotations that follow that line
    (an empty description and no commands when none follow).
   */
  function CurrentBlock(ds: seq<Directive>): Option<HostRecord> {
    match LastHost(ds)
    case None => None
    case Some(h) => Some(Collected(ds[h].alias, ds[h + 1..]))
  }

  /** The block for `alias` with the annotations `after` its `Host` line. */
  function Collected(alias: string, after: seq<Directive>): HostRecord {
    HostRecord(alias, Latest(after, DescriptionKey).GetOr(""),
               Latest(after, UpdateKey), Latest(after, AutoCmdKey))
  }

  /** What an annotation line does to the block it follows. */
  function Annotate(b: HostRecord, d: Directive): HostRecord {
    match d
    case Description(t) => b.(description := t)
    case UpdateCmd(c) => b.(update := Some(c))
    case AutoCmd(c) => b.(autocmd := Some(c))
    case _ => b
  }

  lemma LatestSnoc(ds: seq<Directive>, d: Directive, key: Annotation)
    ensures Latest(ds + [d], key) == if Payload(d, key).Some? then Payload(d, key) else Latest(ds, key)
  {
    assert (ds + [d])[..|ds|] == ds;
  }

  /** A fault, once raised, ends the parse: the lines after it change nothing. */
  lemma {:induction false} FaultIsFinal(a: seq<Directive>, b: seq<Directive>)
    requires Fold(a).fault.Some?
    ensures Fold(a + b) == Fold(a)
    decreases |b|
  {
    if b != [] {
      var b' := b[..|b| - 1];
      assert a + b == (a + b') + [b[|b| - 1]];
      FoldSnoc(a + b', b[|b| - 1]);
      FaultIsFinal(a, b');
    } else {
      assert a + b == a;
    }
  }

  /**
    Reset and copy: as long as the parse has not crashed, the block it holds is
    exactly `CurrentBlock`, so a `Host` line starts from an empty description
    and no commands, and an annotation changes only the block it follows.
   */
  lemma {:induction false} BlockIsCurrent(ds: seq<Directive>)
    requires Fold(ds).fault.None?
    ensures Fold(ds).block == CurrentBlock(ds)
    decreases |ds|
  {
    if ds != [] {
      var ds', d := ds[..|ds| - 1], ds[|ds| - 1];
      assert ds == ds' + [d];
      FoldSnoc(ds', d);
      BlockIsCurrent(ds');
      if d.HostDecl? {
        HostLineStartsBlock(ds', d);
      } else {
        AnnotationUpdatesBlock(ds', d);
      }
    }
  }

  lemma HostLineStartsBlock(ds: seq<Directive>, d: Directive)
    requires d.HostDecl?
    ensures CurrentBlock(ds + [d]) == Some(HostRecord(d.alias, "", None, None))
  {
    assert (ds + [d])[|ds| + 1..] == [];
  }

  lemma AnnotationUpdatesBlock(ds: seq<Directive>, d: Directive)
    requires !d.HostDecl?
    ensures CurrentBlock(ds + [d])
         == if CurrentBlock(ds).None? then None else Some(Annotate(CurrentBlock(ds).value, d))
  {
    LastHostSnoc(ds, d);
    if LastHost(ds).Some? {
      var h := LastHost(ds).value;
      SuffixSnoc(ds, d, h);
      AnnotationCollected(ds[h].alias, ds[h + 1..], d);
    }
  }

  lemma AnnotationCollected(alias: string, after: seq<Directive>, d: Directive)
    ensures Collected(alias, after + [d]) == Annotate(Collected(alias, after), d)
  {
    LatestSnoc(after, d, DescriptionKey);
    LatestSnoc(after, d, UpdateKey);
    LatestSnoc(after, d, AutoCmdKey);
  }

  lemma SuffixSnoc(ds: seq<Directive>, d: Directive, h: nat)
    requires h < |ds|
    ensures (ds + [d])[h] == ds[h] && (ds + [d])[h + 1..] == ds[h + 1..] + [d]
  {
  }

  lemma LastHostSnoc(ds: seq<Directive>, d: Directive)
    requires !d.HostDecl?
    ensures LastHost(ds + [d]) == LastHost(ds)
  {
    assert (ds + [d])[..|ds|] == ds;
  }

  /**
    A `#kf_managed true` line appends a copy of the block in force at that
    line; every other line appends nothing.
   */
  lemma ManagedLineAppendsBlock(ds: seq<Directive>, d: Directive)
    requires Fold(ds + [d]).fault.None?
    ensures d == ManagedTrue ==> CurrentBlock(ds).Some?
    ensures Fold(ds + [d]).records
         == Fold(ds).records + (if d == ManagedTrue then [CurrentBlock(ds).value] else [])
  {
    FoldSnoc(ds, d);
    BlockIsCurrent(ds);
  }

  function ManagedCount(ds: seq<Directive>): nat {
    if ds == [] then 0
    else ManagedCount(ds[..|ds| - 1]) + (if ds[|ds| - 1] == ManagedTrue then 1 else 0)
  }

  /** One record per `#kf_managed true` line: a block managed twice is listed twice. */
  lemma {:induction false} RecordCount(ds: seq<Directive>)
    requires Fold(ds).fault.None?
    ensures |Fold(ds).records| == ManagedCount(ds)
    decreases |ds|
  {
    if ds != [] {
      var ds', d := ds[..|ds| - 1], ds[|ds| - 1];
      assert ds == ds' + [d];
      ManagedLineAppendsBlock(ds', d);
      RecordCount(ds');
    }
  }

  /**
    Records already appended are never removed or changed by the lines that
    follow, so later annotations do not reach them.
   */
  lemma {:induction false} RecordsOnlyGrow(a: seq<Directive>, b: seq<Directive>)
    ensures |Fold(a).records| <= |Fold(a + b).records|
    ensures Fold(a + b).records[..|Fold(a).records|] == Fold(a).records
    decreases |b|
  {
    if b != [] {
      var b' := b[..|b| - 1];
      assert a + b == (a + b') + [b[|b| - 1]];
      FoldSnoc(a + b', b[|b| - 1]);
      RecordsOnlyGrow(a, b');
    } else {
      assert a + b == a;
    }
  }

  /** Lines without `#kf_managed true` (a host block that is not managed) add no record. */
  lemma {:induction false} UnmanagedLinesAddNothing(a: seq<Directive>, b: seq<Directive>)
    requires forall k :: 0 <= k < |b| ==> b[k] != ManagedTrue
    ensures Fold(a + b).records == Fold(a).records
    ensures Fold(a + b).fault == Fold(a).fault
    decreases |b|
  {
    if b != [] {
      var b' := b[..|b| - 1];
      assert a + b == (a + b') + [b[|b| - 1]];
      FoldSnoc(a + b', b[|b| - 1]);
      UnmanagedLinesAddNothing(a, b');
    } else {
      assert a + b == a;
    }
  }

  /** The index of the first `Host` line among `ds`, or `|ds|` if there is none. */
  function FirstHost(ds: seq<Directive>): (f: nat)
    ensures f <= |ds| && forall k :: 0 <= k < f ==> !ds[k].HostDecl?
    ensures f < |ds| ==> ds[f].HostDecl?
  {
    if ds == [] then 0
    else if FirstHost(ds[..|ds| - 1]) < |ds| - 1 then FirstHost(ds[..|ds| - 1])
    else if ds[|ds| - 1].HostDecl? then |ds| - 1
    else |ds|
  }

  /** The index of the first `#kf_managed true` line among `ds`, or `|ds|`. */
  function FirstManaged(ds: seq<Directive>): (f: nat)
    ensures f <= |ds| && forall k :: 0 <= k < f ==> ds[k] != ManagedTrue
    ensures f < |ds| ==> ds[f] == ManagedTrue
  {
    if ds == [] then 0
    else if FirstManaged(ds[..|ds| - 1]) < |ds| - 1 then FirstManaged(ds[..|ds| - 1])
    else if ds[|ds| - 1] == ManagedTrue then |ds| - 1
    else |ds|
  }

  /**
    The parse crashes exactly when a `#kf_managed true` line comes before
    every `Host` line, and it crashes at the first such line.
   */
  lemma {:induction false} FaultIff(ds: seq<Directive>)
    ensures Fold(ds).fault.Some? <==> FirstManaged(ds) < FirstHost(ds)
    ensures Fold(ds).fault.Some? ==> Fold(ds).fault == Some(FirstManaged(ds))
    decreases |ds|
  {
    if ds != [] {
      var ds', d := ds[..|ds| - 1], ds[|ds| - 1];
      assert ds == ds' + [d];
      FoldSnoc(ds', d);
      FaultIff(ds');
      if Fold(ds').fault.None? {
        BlockIsCurrent(ds');
      }
    }
  }
}

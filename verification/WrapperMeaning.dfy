/** What the rewritten start wrapper does, under a small shell: lines of the script itself are
    opaque commands that neither leave the script nor touch PZ_EXIT_CODE. */
module WrapperMeaning {
  import opened Basics
  import opened Text
  import opened StartWrapper

  // ---------------------------------------------------------------- a small shell

  datatype Command =
    | Probe(text: string)
    | Play(text: string)
    | Save
    | Refuse
    | Leave
    | Say
    | Quit
    | ElseWord
    | FiWord
    | Idle
    | Other(text: string)

  datatype Event = Ran(text: string) | Said(toStderr: bool)

  /** What the outside decides: whether the 64-bit probe succeeds, how the game ends, and what
      status the n-th other command has. */
  datatype World = World(probe: bool, game: int, others: nat -> int)

  datatype Mode = Running | ToElse | ToFi

  datatype Shell = Shell(trace: seq<Event>, mode: Mode, status: int, saved: Option<int>, exited: Option<int>)

  const STARTED := Shell([], Running, 0, None, None)

  function Step(c: Command, sh: Shell, w: World): Shell {
    if sh.exited.Some? then sh
    else if sh.mode.ToElse? then
      if c.ElseWord? || c.FiWord? then sh.(mode := Running) else sh
    else if sh.mode.ToFi? then
      if c.FiWord? then sh.(mode := Running) else sh
    else match c
      case Probe(text) => sh.(trace := sh.trace + [Ran(text)], mode := if w.probe then Running else ToElse)
      case Play(text) => sh.(trace := sh.trace + [Ran(text)], status := w.game)
      case Save => sh.(saved := Some(sh.status), status := 0)
      case Refuse => sh.(trace := sh.trace + [Said(true)], exited := Some(1))
      case Leave => sh.(exited := Some(if sh.saved.Some? then sh.saved.value else 2))
      case Say => sh.(trace := sh.trace + [Said(false)], status := 0)
      case Quit => sh.(exited := Some(0))
      case ElseWord => sh.(mode := ToFi)
      case FiWord => sh
      case Idle => sh
      case Other(text) => sh.(trace := sh.trace + [Ran(text)], status := w.others(|sh.trace|))
  }

  function Run(script: seq<Command>, sh: Shell, w: World): Shell {
    if script == [] then sh else Run(script[1..], Step(script[0], sh, w), w)
  }

  predicate Ordinary(script: seq<Command>) {
    forall i :: 0 <= i < |script| ==> script[i].Idle? || script[i].Other?
  }

  function Events(script: seq<Command>): seq<Event> {
    if script == [] then []
    else if script[0].Other? then [Ran(script[0].text)] + Events(script[1..])
    else Events(script[1..])
  }

  lemma {:induction false} RunAdds(a: seq<Command>, b: seq<Command>, sh: Shell, w: World)
    ensures Run(a + b, sh, w) == Run(b, Run(a, sh, w), w)
  {
    if a == [] {
      assert a + b == b;
    } else {
      assert (a + b)[1..] == a[1..] + b;
      RunAdds(a[1..], b, Step(a[0], sh, w), w);
    }
  }

  lemma {:induction false} OrdinaryRuns(script: seq<Command>, sh: Shell, w: World)
    requires Ordinary(script) && sh.mode.Running? && sh.exited.None?
    ensures var after := Run(script, sh, w);
      && after.trace == sh.trace + Events(script) && after.mode.Running? && after.exited.None?
      && after.saved == sh.saved
  {
    if script == [] {
      assert sh.trace + [] == sh.trace;
    } else {
      OrdinaryRuns(script[1..], Step(script[0], sh, w), w);
      if script[0].Other? {
        var rest := Events(script[1..]);
        assert sh.trace + ([Ran(script[0].text)] + rest) == sh.trace + [Ran(script[0].text)] + rest;
      }
    }
  }

  lemma {:induction false} SkippedRuns(script: seq<Command>, sh: Shell, w: World)
    requires sh.exited.Some?
          || (!sh.mode.Running? && forall i :: 0 <= i < |script| ==> !script[i].ElseWord? && !script[i].FiWord?)
    ensures Run(script, sh, w) == sh
  {
    if script != [] {
      SkippedRuns(script[1..], sh, w);
    }
  }

  lemma {:induction false} NoEvents(script: seq<Command>)
    ensures Events(script) == [] <==> forall i :: 0 <= i < |script| ==> !script[i].Other?
  {
    if script != [] {
      NoEvents(script[1..]);
      assert script == [script[0]] + script[1..];
    }
  }

  // ---------------------------------------------------------------- the two programs

  /** The parts of an accepted script between its lifecycle lines. */
  datatype Parts = Parts(
    before: seq<Command>, probe: string, inside: seq<Command>, game: string, after: seq<Command>,
    absent: seq<Command>, beyond: seq<Command>, rest: seq<Command>, tail: seq<Command>)
  {
    predicate Valid() {
      && Ordinary(before) && Ordinary(inside) && Ordinary(after)
      && Ordinary(absent) && Ordinary(beyond) && Ordinary(rest)
    }

    /** The branch that plays and the branch that does not. */
    function Head(): seq<Command> {
      before + [Probe(probe)]
    }

    function PlayBranch(wrapped: bool): seq<Command> {
      inside + [Play(game)] + (if wrapped then [Save] else []) + after
    }

    function RefuseBranch(wrapped: bool): seq<Command> {
      [ElseWord] + absent + [if wrapped then Refuse else Say] + beyond
    }

    function Ending(wrapped: bool): seq<Command> {
      [FiWord] + rest + [if wrapped then Leave else Quit] + tail
    }

    function Script(wrapped: bool): seq<Command> {
      Head() + PlayBranch(wrapped) + RefuseBranch(wrapped) + Ending(wrapped)
    }
  }

  lemma RunOne(c: Command, sh: Shell, w: World)
    ensures Run([c], sh, w) == Step(c, sh, w)
  {
  }

  lemma HeadRuns(p: Parts, w: World)
    requires p.Valid()
    ensures var sh := Run(p.Head(), STARTED, w);
      && sh.trace == Events(p.before) + [Ran(p.probe)] && sh.exited.None? && sh.saved.None?
      && sh.mode == if w.probe then Running else ToElse
  {
    RunAdds(p.before, [Probe(p.probe)], STARTED, w);
    OrdinaryRuns(p.before, STARTED, w);
    RunOne(Probe(p.probe), Run(p.before, STARTED, w), w);
    assert STARTED.trace + Events(p.before) == Events(p.before);
  }

  /** The commands before the game, and the game. */
  lemma GameRuns(p: Parts, sh: Shell, w: World)
    requires p.Valid() && sh.mode.Running? && sh.exited.None?
    ensures var end := Run(p.inside + [Play(p.game)], sh, w);
      end.trace == sh.trace + Events(p.inside) + [Ran(p.game)] && end == sh.(trace := end.trace, status := w.game)
  {
    RunAdds(p.inside, [Play(p.game)], sh, w);
    OrdinaryRuns(p.inside, sh, w);
    RunOne(Play(p.game), Run(p.inside, sh, w), w);
  }

  /** The playing branch, with or without saving the status. */
  lemma PlayRuns(p: Parts, wrapped: bool, sh: Shell, w: World)
    requires p.Valid() && sh.mode.Running? && sh.exited.None? && sh.saved.None?
    ensures var end := Run(p.PlayBranch(wrapped), sh, w);
      && end.trace == sh.trace + (Events(p.inside) + [Ran(p.game)] + Events(p.after))
      && end.mode.Running? && end.exited.None? && end.saved == if wrapped then Some(w.game) else None
  {
    var save := if wrapped then [Save] else [];
    RunAdds(p.inside + [Play(p.game)] + save, p.after, sh, w);
    RunAdds(p.inside + [Play(p.game)], save, sh, w);
    GameRuns(p, sh, w);
    var played := Run(p.inside + [Play(p.game)], sh, w);
    if wrapped {
      RunOne(Save, played, w);
    }
    OrdinaryRuns(p.after, Run(save, played, w), w);
    assert sh.trace + Events(p.inside) + [Ran(p.game)] + Events(p.after)
           == sh.trace + (Events(p.inside) + [Ran(p.game)] + Events(p.after));
  }

  /** The refusing branch, as written and as rewritten. */
  lemma RefusalRuns(p: Parts, wrapped: bool, sh: Shell, w: World)
    requires p.Valid() && sh.mode.ToElse? && sh.exited.None?
    ensures var end := Run(p.RefuseBranch(wrapped), sh, w);
      && end.trace == sh.trace + (Events(p.absent) + [Said(wrapped)] + if wrapped then [] else Events(p.beyond))
      && end.mode.Running? && end.exited == (if wrapped then Some(1) else None)
  {
    var last := if wrapped then Refuse else Say;
    RunAdds([ElseWord] + p.absent + [last], p.beyond, sh, w);
    RunAdds([ElseWord] + p.absent, [last], sh, w);
    RunAdds([ElseWord], p.absent, sh, w);
    RunOne(ElseWord, sh, w);
    var s1 := Step(ElseWord, sh, w);
    OrdinaryRuns(p.absent, s1, w);
    var s2 := Run(p.absent, s1, w);
    RunOne(last, s2, w);
    var s3 := Step(last, s2, w);
    if wrapped {
      SkippedRuns(p.beyond, s3, w);
    } else {
      OrdinaryRuns(p.beyond, s3, w);
    }
    assert sh.trace + Events(p.absent) + [Said(wrapped)] + (if wrapped then [] else Events(p.beyond))
           == sh.trace + (Events(p.absent) + [Said(wrapped)] + if wrapped then [] else Events(p.beyond));
  }

  /** The refusing branch after the playing one has run. */
  lemma RefusalIsSkipped(p: Parts, wrapped: bool, sh: Shell, w: World)
    requires p.Valid() && sh.mode.Running? && sh.exited.None?
    ensures Run(p.RefuseBranch(wrapped), sh, w) == sh.(mode := ToFi)
  {
    var branch := p.absent + [if wrapped then Refuse else Say] + p.beyond;
    assert p.RefuseBranch(wrapped) == [ElseWord] + branch;
    RunAdds([ElseWord], branch, sh, w);
    RunOne(ElseWord, sh, w);
    SkippedRuns(branch, Step(ElseWord, sh, w), w);
  }

  /** From `fi` to the end, when nothing has left the script before. */
  lemma EndRuns(p: Parts, wrapped: bool, sh: Shell, w: World)
    requires p.Valid() && !sh.mode.ToElse? && sh.exited.None?
    ensures var end := Run(p.Ending(wrapped), sh, w);
      && end.trace == sh.trace + Events(p.rest)
      && end.exited == Some(if !wrapped then 0 else if sh.saved.Some? then sh.saved.value else 2)
  {
    var last := if wrapped then Leave else Quit;
    RunAdds([FiWord] + p.rest + [last], p.tail, sh, w);
    RunAdds([FiWord] + p.rest, [last], sh, w);
    RunAdds([FiWord], p.rest, sh, w);
    RunOne(FiWord, sh, w);
    var s1 := Step(FiWord, sh, w);
    OrdinaryRuns(p.rest, s1, w);
    RunOne(last, Run(p.rest, s1, w), w);
    SkippedRuns(p.tail, Step(last, Run(p.rest, s1, w), w), w);
  }

  lemma Sections(p: Parts, wrapped: bool, w: World)
    ensures Run(p.Script(wrapped), STARTED, w)
            == Run(p.Ending(wrapped), Run(p.RefuseBranch(wrapped),
                   Run(p.PlayBranch(wrapped), Run(p.Head(), STARTED, w), w), w), w)
  {
    RunAdds(p.Head() + p.PlayBranch(wrapped) + p.RefuseBranch(wrapped), p.Ending(wrapped), STARTED, w);
    RunAdds(p.Head() + p.PlayBranch(wrapped), p.RefuseBranch(wrapped), STARTED, w);
    RunAdds(p.Head(), p.PlayBranch(wrapped), STARTED, w);
  }

  /** When the probe succeeds both scripts run the same commands; the original then reports
      success whatever happened, the rewritten one the status of the game. */
  lemma GameStatusIsReported(p: Parts, w: World)
    requires p.Valid() && w.probe
    ensures var original, wrapped := Run(p.Script(false), STARTED, w), Run(p.Script(true), STARTED, w);
      && wrapped.trace == original.trace && original.exited == Some(0) && wrapped.exited == Some(w.game)
  {
    PlayedRuns(p, false, w);
    PlayedRuns(p, true, w);
  }

  lemma PlayedRuns(p: Parts, wrapped: bool, w: World)
    requires p.Valid() && w.probe
    ensures var end := Run(p.Script(wrapped), STARTED, w);
      && end.trace == Events(p.before) + [Ran(p.probe)] + (Events(p.inside) + [Ran(p.game)] + Events(p.after))
                      + Events(p.rest)
      && end.exited == Some(if wrapped then w.game else 0)
  {
    Sections(p, wrapped, w);
    HeadRuns(p, w);
    var s1 := Run(p.Head(), STARTED, w);
    PlayRuns(p, wrapped, s1, w);
    var s2 := Run(p.PlayBranch(wrapped), s1, w);
    RefusalIsSkipped(p, wrapped, s2, w);
    EndRuns(p, wrapped, s2.(mode := ToFi), w);
  }

  predicate AllIdle(commands: seq<Command>) {
    forall i :: 0 <= i < |commands| ==> commands[i].Idle?
  }

  /** When the probe fails the rewritten script refuses with status 1 where the original goes on
      and reports success. Up to the message, which moves to standard error, both run the same
      commands; what the original still runs behind it is lost, and that is nothing exactly when
      no command stands between the message and the last line. */
  lemma FailedProbeIsRefused(p: Parts, w: World)
    requires p.Valid() && !w.probe
    ensures var original, wrapped := Run(p.Script(false), STARTED, w), Run(p.Script(true), STARTED, w);
      var shared := Events(p.before) + [Ran(p.probe)] + Events(p.absent);
      && original.exited == Some(0) && wrapped.exited == Some(1)
      && wrapped.trace == shared + [Said(true)]
      && original.trace == shared + [Said(false)] + (Events(p.beyond) + Events(p.rest))
      && (|wrapped.trace| == |original.trace| <==> AllIdle(p.beyond) && AllIdle(p.rest))
  {
    RefusedRuns(p, false, w);
    RefusedRuns(p, true, w);
    NoEvents(p.beyond);
    NoEvents(p.rest);
    var shared := Events(p.before) + [Ran(p.probe)] + Events(p.absent);
    assert shared + [Said(true)] + [] == shared + [Said(true)];
  }

  lemma RefusedRuns(p: Parts, wrapped: bool, w: World)
    requires p.Valid() && !w.probe
    ensures var end := Run(p.Script(wrapped), STARTED, w);
      && end.trace == Events(p.before) + [Ran(p.probe)] + Events(p.absent) + [Said(wrapped)]
                      + (if wrapped then [] else Events(p.beyond) + Events(p.rest))
      && end.exited == Some(if wrapped then 1 else 0)
  {
    Sections(p, wrapped, w);
    HeadRuns(p, w);
    var s1 := Run(p.Head(), STARTED, w);
    SkippedRuns(p.PlayBranch(wrapped), s1, w);
    RefusalRuns(p, wrapped, s1, w);
    var s2 := Run(p.RefuseBranch(wrapped), s1, w);
    if wrapped {
      SkippedRuns(p.Ending(wrapped), s2, w);
    } else {
      EndRuns(p, wrapped, s2, w);
    }
    Regrouped(Events(p.before) + [Ran(p.probe)], Events(p.absent), [Said(wrapped)],
              if wrapped then [] else Events(p.beyond), if wrapped then [] else Events(p.rest));
  }

  lemma Regrouped<T>(a: seq<T>, b: seq<T>, c: seq<T>, d: seq<T>, e: seq<T>)
    ensures a + (b + c + d) + e == a + b + c + (d + e)
  {
  }

  // ---------------------------------------------------------------- from lines to commands

  /** What the patterns make of a line. */
  function ByKinds(row: Row, text: string): Command {
    if Condition in row.kinds then Probe(text)
    else if Invocation in row.kinds then Play(text)
    else if Else in row.kinds then ElseWord
    else if Unsupported in row.kinds then Say
    else if Fi in row.kinds then FiWord
    else if TerminalExit in row.kinds then Quit
    else if row.idle then Idle
    else Other(text)
  }

  /** What a line means to the shell: the texts the rewriting writes, the lifecycle lines, blank
      and comment lines, and anything else as one ordinary command. */
  function Meaning(line: string): Command {
    var text := Trim(line);
    if text == SAVE then Save
    else if text == REFUSE then Refuse
    else if text == LEAVE then Leave
    else ByKinds(RowOf(line), text)
  }

  function Map<A, B>(f: A -> B, s: seq<A>): (t: seq<B>)
    ensures |t| == |s| && forall i :: 0 <= i < |s| ==> t[i] == f(s[i])
  {
    seq(|s|, i requires 0 <= i < |s| => f(s[i]))
  }

  function Program(lines: seq<string>): seq<Command> {
    Map(Meaning, lines)
  }

  /** The script has no line of its own that reads like one that will be written. */
  predicate Untouched(script: seq<string>) {
    forall i :: 0 <= i < |script| ==>
      !Meaning(script[i]).Save? && !Meaning(script[i]).Refuse? && !Meaning(script[i]).Leave?
  }

  lemma LikeReads(line: string, text: string)
    requires text != "" && !IsSpace(text[0]) && !IsSpace(text[|text| - 1])
    ensures Trim(Like(line, text)) == text
  {
    var tail := text + LineEnd(line);
    IndentIsDropped(line, tail);
    assert Indent(line) + text + LineEnd(line) == Indent(line) + tail;
    assert DropSpaces(Like(line, text)) == tail;
    EndIsDropped(text, LineEnd(line));
  }

  lemma {:induction false} IndentIsDropped(line: string, tail: string)
    requires tail != "" && !IsSpace(tail[0])
    ensures DropSpaces(Indent(line) + tail) == tail
  {
    if Indent(line) == "" {
      assert Indent(line) + tail == tail;
    } else {
      assert (Indent(line) + tail)[1..] == Indent(line[1..]) + tail;
      IndentIsDropped(line[1..], tail);
    }
  }

  lemma {:induction false} EndIsDropped(text: string, end: string)
    requires text != "" && !IsSpace(text[|text| - 1]) && AllSpaces(end)
    ensures DropSpacesAtEnd(text + end) == text
  {
    if end == "" {
      assert text + end == text;
    } else {
      assert (text + end)[..|text + end| - 1] == text + end[..|end| - 1];
      EndIsDropped(text, end[..|end| - 1]);
    }
  }

  lemma SpecialTextsRead(line: string)
    ensures Meaning(Like(line, SAVE)) == Save
    ensures Meaning(Like(line, REFUSE)) == Refuse
    ensures Meaning(Like(line, LEAVE)) == Leave
  {
    LikeReads(line, SAVE);
    LikeReads(line, REFUSE);
    LikeReads(line, LEAVE);
    assert SAVE[0] != REFUSE[0] && SAVE[0] != LEAVE[0] && REFUSE[1] != LEAVE[1];
  }

  /** Each lifecycle line means what its kind says, and every other line is ordinary. */
  lemma KindsTell(rows: seq<Row>, l: Layout, i: nat, text: string)
    requires Fits(rows, l) && i < |rows|
    ensures ByKinds(rows[i], text)
            == if i == l.condition then Probe(text)
               else if i == l.invocation then Play(text)
               else if i == l.elseLine then ElseWord
               else if i == l.unsupported then Say
               else if i == l.fi then FiWord
               else if i == l.exit then Quit
               else if rows[i].idle then Idle
               else Other(text)
  {
  }

  predicate IsLaidOut(p: seq<Command>, l: Layout, probe: string, game: string)
    requires l.Ordered() && l.exit < |p|
  {
    && p[l.condition] == Probe(probe) && p[l.invocation] == Play(game) && p[l.elseLine] == ElseWord
    && p[l.unsupported] == Say && p[l.fi] == FiWord && p[l.exit] == Quit
    && forall i :: 0 <= i < |p| && !l.Holds(i) ==> p[i].Idle? || p[i].Other?
  }

  lemma KindsLayOut(rows: seq<Row>, texts: seq<string>, p: seq<Command>, l: Layout)
    requires Fits(rows, l) && |texts| == |rows| == |p|
    requires forall i :: 0 <= i < |p| ==> p[i] == ByKinds(rows[i], texts[i])
    ensures IsLaidOut(p, l, texts[l.condition], texts[l.invocation])
  {
    KindsTell(rows, l, l.condition, texts[l.condition]);
    KindsTell(rows, l, l.invocation, texts[l.invocation]);
    KindsTell(rows, l, l.elseLine, texts[l.elseLine]);
    KindsTell(rows, l, l.unsupported, texts[l.unsupported]);
    KindsTell(rows, l, l.fi, texts[l.fi]);
    KindsTell(rows, l, l.exit, texts[l.exit]);
    forall i | 0 <= i < |p| && !l.Holds(i) ensures p[i].Idle? || p[i].Other? {
      KindsTell(rows, l, i, texts[i]);
    }
  }

  lemma OwnLinesReadByKind(line: string)
    requires !Meaning(line).Save? && !Meaning(line).Refuse? && !Meaning(line).Leave?
    ensures Meaning(line) == ByKinds(RowOf(line), Trim(line))
  {
  }

  lemma ScriptIsLaidOut(script: seq<string>, l: Layout)
    requires Fits(Rows(script), l) && Untouched(script)
    ensures IsLaidOut(Program(script), l, Trim(script[l.condition]), Trim(script[l.invocation]))
  {
    var p, texts := Program(script), Map(Trim, script);
    forall i | 0 <= i < |p| ensures p[i] == ByKinds(Rows(script)[i], texts[i]) {
      OwnLinesReadByKind(script[i]);
    }
    KindsLayOut(Rows(script), texts, p, l);
  }

  lemma MapAdds<A, B>(f: A -> B, a: seq<A>, b: seq<A>)
    ensures Map(f, a + b) == Map(f, a) + Map(f, b)
  {
  }

  lemma MapPieces<A, B>(f: A -> B, a: seq<A>, x: A, b: seq<A>, y: A, c: seq<A>, z: A, d: seq<A>)
    ensures Map(f, a + [x] + b + [y] + c + [z] + d)
            == Map(f, a) + [f(x)] + Map(f, b) + [f(y)] + Map(f, c) + [f(z)] + Map(f, d)
  {
    MapAdds(f, a + [x] + b + [y] + c + [z], d);
    MapAdds(f, a + [x] + b + [y] + c, [z]);
    MapAdds(f, a + [x] + b + [y], c);
    MapAdds(f, a + [x] + b, [y]);
    MapAdds(f, a + [x], b);
    MapAdds(f, a, [x]);
    assert Map(f, [x]) == [f(x)] && Map(f, [y]) == [f(y)] && Map(f, [z]) == [f(z)];
  }

  lemma MapRewritten<A, B>(f: A -> B, s: seq<A>, l: Layout, x: A, y: A, z: A)
    requires l.Ordered() && l.exit < |s|
    ensures Map(f, Pieces(s, l, x, y, z)) == Pieces(Map(f, s), l, f(x), f(y), f(z))
  {
    var a, b := s[..l.invocation + 1], s[l.invocation + 1..l.unsupported];
    var c, d := s[l.unsupported + 1..l.exit], s[l.exit + 1..];
    MapPieces(f, a, x, b, y, c, z, d);
    assert Map(f, a) == Map(f, s)[..l.invocation + 1];
    assert Map(f, b) == Map(f, s)[l.invocation + 1..l.unsupported];
    assert Map(f, c) == Map(f, s)[l.unsupported + 1..l.exit];
    assert Map(f, d) == Map(f, s)[l.exit + 1..];
  }

  /** Rewriting lines is rewriting commands. */
  lemma RewritingCommands(script: seq<string>, l: Layout)
    requires l.Ordered() && l.exit < |script|
    ensures Program(Rewritten(script, l)) == Pieces(Program(script), l, Save, Refuse, Leave)
  {
    SpecialTextsRead(script[l.invocation]);
    SpecialTextsRead(script[l.unsupported]);
    SpecialTextsRead(script[l.exit]);
    MapRewritten(Meaning, script, l, Like(script[l.invocation], SAVE), Like(script[l.unsupported], REFUSE),
                 Like(script[l.exit], LEAVE));
  }

  /** The parts of a program that is laid out. */
  function Cut(p: seq<Command>, l: Layout, probe: string, game: string): Parts
    requires l.Ordered() && l.exit < |p|
  {
    Parts(p[..l.condition], probe, p[l.condition + 1..l.invocation], game, p[l.invocation + 1..l.elseLine],
          p[l.elseLine + 1..l.unsupported], p[l.unsupported + 1..l.fi], p[l.fi + 1..l.exit], p[l.exit + 1..])
  }

  lemma Joint<T>(p: seq<T>, i: nat, j: nat, k: nat)
    requires i <= j < k <= |p|
    ensures p[i..j] + [p[j]] + p[j + 1..k] == p[i..k]
  {
  }

  lemma HeadJoint<T>(p: seq<T>, i: nat, j: nat, y: T, k: nat)
    requires i < j < k <= |p|
    ensures [p[i]] + p[i + 1..j] + [y] + p[j + 1..k] == p[i..j] + [y] + p[j + 1..k]
  {
    assert [p[i]] + p[i + 1..j] == p[i..j];
  }

  lemma CutIsValid(p: seq<Command>, l: Layout, probe: string, game: string)
    requires l.Ordered() && l.exit < |p| && IsLaidOut(p, l, probe, game)
    ensures Cut(p, l, probe, game).Valid()
  {
  }

  lemma CutMakesHead(p: seq<Command>, l: Layout, probe: string, game: string)
    requires l.Ordered() && l.exit < |p| && IsLaidOut(p, l, probe, game)
    ensures var parts := Cut(p, l, probe, game);
      && parts.Head() == p[..l.condition + 1]
      && parts.PlayBranch(false) == p[l.condition + 1..l.elseLine]
      && parts.PlayBranch(true) == p[l.condition + 1..l.invocation + 1] + [Save] + p[l.invocation + 1..l.elseLine]
  {
    var inside, after := p[l.condition + 1..l.invocation], p[l.invocation + 1..l.elseLine];
    Joint(p, l.condition + 1, l.invocation, l.elseLine);
    assert inside + [Play(game)] + [] == inside + [Play(game)] == p[l.condition + 1..l.invocation + 1];
  }

  lemma CutMakesRefusal(p: seq<Command>, l: Layout, probe: string, game: string)
    requires l.Ordered() && l.exit < |p| && IsLaidOut(p, l, probe, game)
    ensures var parts := Cut(p, l, probe, game);
      && parts.RefuseBranch(false) == p[l.elseLine..l.fi]
      && parts.RefuseBranch(true) == p[l.elseLine..l.unsupported] + [Refuse] + p[l.unsupported + 1..l.fi]
  {
    HeadJoint(p, l.elseLine, l.unsupported, Say, l.fi);
    Joint(p, l.elseLine, l.unsupported, l.fi);
    HeadJoint(p, l.elseLine, l.unsupported, Refuse, l.fi);
  }

  lemma CutMakesEnding(p: seq<Command>, l: Layout, probe: string, game: string)
    requires l.Ordered() && l.exit < |p| && IsLaidOut(p, l, probe, game)
    ensures var parts := Cut(p, l, probe, game);
      && parts.Ending(false) == p[l.fi..]
      && parts.Ending(true) == p[l.fi..l.exit] + [Leave] + p[l.exit + 1..]
  {
    TailJoint(p, l.fi, l.exit, Quit);
    TailJoint(p, l.fi, l.exit, Leave);
  }

  lemma TailJoint<T>(p: seq<T>, i: nat, j: nat, y: T)
    requires i < j < |p|
    ensures [p[i]] + p[i + 1..j] + [y] + p[j + 1..] == p[i..j] + [y] + p[j + 1..]
    ensures p[i..j] + [p[j]] + p[j + 1..] == p[i..]
  {
    assert [p[i]] + p[i + 1..j] == p[i..j];
    assert p[i..j] + [p[j]] == p[i..j + 1];
  }

  /** The parts put together again. */
  lemma CutMakesTheScript(p: seq<Command>, l: Layout, probe: string, game: string)
    requires l.Ordered() && l.exit < |p| && IsLaidOut(p, l, probe, game)
    ensures Cut(p, l, probe, game).Script(false) == p
    ensures Cut(p, l, probe, game).Script(true) == Pieces(p, l, Save, Refuse, Leave)
  {
    CutMakesHead(p, l, probe, game);
    CutMakesRefusal(p, l, probe, game);
    CutMakesEnding(p, l, probe, game);
    var parts := Cut(p, l, probe, game);
    Assembled(p, l.condition + 1, l.elseLine, l.fi, parts.Head(), parts.PlayBranch(false), parts.RefuseBranch(false),
              parts.Ending(false));
    AssembledAnew(p, l, parts.Head(), parts.PlayBranch(true), parts.RefuseBranch(true), parts.Ending(true));
  }

  lemma Assembled<T>(p: seq<T>, a: nat, c: nat, e: nat, head: seq<T>, play: seq<T>, refusal: seq<T>, end: seq<T>)
    requires a <= c <= e <= |p| && head == p[..a] && play == p[a..c] && refusal == p[c..e] && end == p[e..]
    ensures head + play + refusal + end == p
  {
    assert p[..a] + p[a..c] == p[..c] && p[..c] + p[c..e] == p[..e];
  }

  lemma AssembledAnew(p: seq<Command>, l: Layout, head: seq<Command>, play: seq<Command>, refusal: seq<Command>,
                      end: seq<Command>)
    requires l.Ordered() && l.exit < |p| && head == p[..l.condition + 1]
    requires play == p[l.condition + 1..l.invocation + 1] + [Save] + p[l.invocation + 1..l.elseLine]
    requires refusal == p[l.elseLine..l.unsupported] + [Refuse] + p[l.unsupported + 1..l.fi]
    requires end == p[l.fi..l.exit] + [Leave] + p[l.exit + 1..]
    ensures head + play + refusal + end == Pieces(p, l, Save, Refuse, Leave)
  {
    var b, c, e := l.invocation + 1, l.elseLine, l.fi;
    assert p[..l.condition + 1] + (p[l.condition + 1..b] + [Save] + p[b..c]) == p[..b] + [Save] + p[b..c];
    Spliced(p[..b] + [Save], p, b, c, l.unsupported, Refuse, e);
    Spliced(p[..b] + [Save] + p[b..l.unsupported] + [Refuse], p, l.unsupported + 1, e, l.exit, Leave, |p|);
    assert p[l.exit + 1..] == p[l.exit + 1..|p|];
  }

  lemma Spliced<T>(s: seq<T>, p: seq<T>, b: nat, c: nat, d: nat, y: T, e: nat)
    requires b <= c <= d < e <= |p|
    ensures s + p[b..c] + (p[c..d] + [y] + p[d + 1..e]) == s + p[b..d] + [y] + p[d + 1..e]
  {
    assert p[b..c] + p[c..d] == p[b..d];
  }

  function PartsOf(script: seq<string>, l: Layout): Parts
    requires l.Ordered() && l.exit < |script|
  {
    Cut(Program(script), l, Trim(script[l.condition]), Trim(script[l.invocation]))
  }

  /** An accepted script is the program of its parts, and the rewritten script is the wrapped
      program of the same parts. */
  lemma RewritingIsWrapping(script: seq<string>, l: Layout)
    requires Fits(Rows(script), l) && Untouched(script)
    ensures var p := PartsOf(script, l);
      p.Valid() && Program(script) == p.Script(false) && Program(Rewritten(script, l)) == p.Script(true)
  {
    ScriptIsLaidOut(script, l);
    RewritingCommands(script, l);
    CutIsValid(Program(script), l, Trim(script[l.condition]), Trim(script[l.invocation]));
    CutMakesTheScript(Program(script), l, Trim(script[l.condition]), Trim(script[l.invocation]));
  }

  /** What the wrapper is for, on the text of any accepted script: with a working probe the same
      commands run and the status of the game comes out; without one it is 1. */
  lemma WrapperKeepsTheStatus(script: seq<string>, l: Layout, w: World)
    requires Fits(Rows(script), l) && Untouched(script)
    ensures var original, wrapped := Run(Program(script), STARTED, w), Run(Program(Rewritten(script, l)), STARTED, w);
      && original.exited == Some(0) && wrapped.exited == Some(if w.probe then w.game else 1)
      && (w.probe ==> wrapped.trace == original.trace)
      && (!w.probe ==> (|wrapped.trace| == |original.trace| <==>
            AllIdle(PartsOf(script, l).beyond) && AllIdle(PartsOf(script, l).rest)))
  {
    RewritingIsWrapping(script, l);
    if w.probe {
      GameStatusIsReported(PartsOf(script, l), w);
    } else {
      FailedProbeIsRefused(PartsOf(script, l), w);
    }
  }
}

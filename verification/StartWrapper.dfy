/** The start wrapper: how LauncherValidator rewrites start-server.sh, line by line. */
module StartWrapper {
  import opened Basics
  import opened Text

  // ---------------------------------------------------------------- patterns

  predicate AllSpaces(s: string) {
    forall i :: 0 <= i < |s| ==> IsSpace(s[i])
  }

  predicate Occurs(w: string, s: string, at: nat) {
    at + |w| <= |s| && s[at..at + |w|] == w
  }

  /** `if\s+.*jre64/bin/java.*-version.*;\s*then` */
  predicate IsCondition(s: string) {
    && Occurs("if", s, 0) && |s| > 2 && IsSpace(s[2])
    && exists i, j, k :: 3 <= i <= j <= k < |s| && Occurs("jre64/bin/java", s, i) && i + 14 <= j
                         && Occurs("-version", s, j) && j + 8 <= k
                         && s[k] == ';' && EndsInThen(s[k + 1..])
  }

  predicate EndsInThen(s: string) {
    |s| >= 4 && Occurs("then", s, |s| - 4) && AllSpaces(s[..|s| - 4])
  }

  predicate StartsName(c: char) {
    'A' <= c <= 'Z' || 'a' <= c <= 'z' || c == '_'
  }

  predicate IsName(s: string) {
    s != "" && StartsName(s[0]) && forall i :: 0 <= i < |s| ==> StartsName(s[i]) || IsDigit(s[i])
  }

  predicate IsQuoted(s: string, quote: char) {
    |s| >= 2 && s[0] == quote && s[|s| - 1] == quote && forall i :: 0 < i < |s| - 1 ==> s[i] != quote
  }

  /** `NAME=` with a quoted or bare value, and then at least one space. */
  predicate IsAssignment(s: string) {
    exists i, j :: 0 < i < j < |s| && IsName(s[..i]) && s[i] == '=' && AllSpaces(s[j..])
                   && (IsQuoted(s[i + 1..j], '"') || IsQuoted(s[i + 1..j], '\'')
                       || (i + 1 < j && forall k :: i < k < j ==> !IsSpace(s[k])))
  }

  const GAME := "./ProjectZomboid64"
  const ARGUMENTS := "\"$@\""

  /** Assignments, the game, its arguments. */
  predicate IsInvocation(s: string)
    decreases |s|
  {
    || (&& Occurs(GAME, s, 0) && |s| > |GAME| + |ARGUMENTS| && Occurs(ARGUMENTS, s, |s| - |ARGUMENTS|)
        && AllSpaces(s[|GAME|..|s| - |ARGUMENTS|]))
    || exists n :: 0 < n < |s| && IsAssignment(s[..n]) && IsInvocation(s[n..])
  }

  const MESSAGE := "Only 64bit is supported"

  predicate IsUnsupported(s: string) {
    && Occurs("echo", s, 0)
    && (Trails(s[4..], "\"" + MESSAGE + "\"") || Trails(s[4..], "'" + MESSAGE + "'"))
  }

  /** At least one space, and then `w`. */
  predicate Trails(s: string, w: string) {
    |s| > |w| && Occurs(w, s, |s| - |w|) && AllSpaces(s[..|s| - |w|])
  }

  datatype Kind = Condition | Invocation | Else | Unsupported | Fi | TerminalExit

  predicate Matches(kind: Kind, text: string) {
    match kind
    case Condition => IsCondition(text)
    case Invocation => IsInvocation(text)
    case Else => text == "else"
    case Unsupported => IsUnsupported(text)
    case Fi => text == "fi"
    case TerminalExit => Occurs("exit", text, 0) && Trails(text[4..], "0")
  }

  predicate IsIdle(text: string) {
    text == "" || text[0] == '#'
  }

  /** What the patterns say about one line. */
  datatype Row = Row(kinds: set<Kind>, idle: bool)

  function RowOf(line: string): Row {
    Row((set kind | Matches(kind, Trim(line))), IsIdle(Trim(line)))
  }

  function Rows(script: seq<string>): (rows: seq<Row>)
    ensures |rows| == |script| && forall i :: 0 <= i < |script| ==> rows[i] == RowOf(script[i])
  {
    seq(|script|, i requires 0 <= i < |script| => RowOf(script[i]))
  }

  function Indexes(rows: seq<Row>, kind: Kind): (r: seq<nat>)
    ensures forall i :: i in r <==> 0 <= i < |rows| && kind in rows[i].kinds
    ensures forall i :: 0 <= i < |r| ==> r[i] < |rows|
    ensures forall i, j :: 0 <= i < j < |r| ==> r[i] < r[j]
  {
    if rows == [] then []
    else
      var n := |rows| - 1;
      Indexes(rows[..n], kind) + if kind in rows[n].kinds then [n] else []
  }

  // ---------------------------------------------------------------- what is accepted

  /** The line of each kind, when there is exactly one of it. */
  datatype Layout = Layout(condition: nat, invocation: nat, elseLine: nat, unsupported: nat, fi: nat, exit: nat) {
    predicate Holds(i: int) {
      i == condition || i == invocation || i == elseLine || i == unsupported || i == fi || i == exit
    }

    predicate Ordered() {
      condition < invocation < elseLine < unsupported < fi < exit
    }
  }

  predicate OnlyAt(rows: seq<Row>, kind: Kind, at: nat) {
    && at < |rows| && kind in rows[at].kinds
    && forall i :: 0 <= i < |rows| && kind in rows[i].kinds ==> i == at
  }

  predicate OneOfEach(rows: seq<Row>, l: Layout) {
    && OnlyAt(rows, Condition, l.condition) && OnlyAt(rows, Invocation, l.invocation)
    && OnlyAt(rows, Else, l.elseLine) && OnlyAt(rows, Unsupported, l.unsupported)
    && OnlyAt(rows, Fi, l.fi) && OnlyAt(rows, TerminalExit, l.exit)
  }

  /** The lifecycle structure that is accepted: one line of each kind, in this order, and no
      command after the exit. */
  predicate Fits(rows: seq<Row>, l: Layout) {
    && OneOfEach(rows, l) && l.Ordered() && l.exit < |rows| && forall i :: l.exit < i < |rows| ==> rows[i].idle
  }

  lemma OneOfKindIsCounted(rows: seq<Row>, kind: Kind, at: nat)
    ensures Indexes(rows, kind) == [at] <==> OnlyAt(rows, kind, at)
    ensures OnlyAt(rows, kind, at) ==> |Indexes(rows, kind)| == 1
  {
    var r := Indexes(rows, kind);
    if OnlyAt(rows, kind, at) {
      assert at in r && forall i :: 0 <= i < |r| ==> r[i] in r;
      assert r[0] == r[|r| - 1];
    }
    if r == [at] {
      assert at in r;
      forall i | 0 <= i < |rows| && kind in rows[i].kinds ensures i == at {
        assert i in r;
      }
    }
  }

  /** The one line of a kind, if there is exactly one. */
  function Sole(rows: seq<Row>, kind: Kind): (r: Option<nat>)
    ensures forall at: nat :: r == Some(at) <==> OnlyAt(rows, kind, at)
  {
    var r := Indexes(rows, kind);
    assert forall at: nat :: OnlyAt(rows, kind, at) <==> r == [at] by {
      forall at: nat ensures OnlyAt(rows, kind, at) <==> r == [at] {
        OneOfKindIsCounted(rows, kind, at);
      }
    }
    if |r| == 1 then Some(r[0]) else None
  }

  lemma LayoutIsUnique(rows: seq<Row>, l: Layout, other: Layout)
    requires OneOfEach(rows, l) && OneOfEach(rows, other)
    ensures l == other
  {
  }

  // ---------------------------------------------------------------- the rewriting

  const SAVE := "PZ_EXIT_CODE=$?"
  const REFUSE := "echo \"Only 64bit is supported\" >&2; exit 1"
  const LEAVE := "exit \"${PZ_EXIT_CODE}\""

  function Indent(line: string): (r: string)
    ensures r <= line
  {
    if line != "" && IsSpace(line[0]) then [line[0]] + Indent(line[1..]) else ""
  }

  function LineEnd(line: string): string {
    if |line| >= 2 && line[|line| - 2..] == "\r\n" then "\r\n" else "\n"
  }

  /** `text` in the place of `line`. */
  function Like(line: string, text: string): string {
    Indent(line) + text + LineEnd(line)
  }

  /** Three lines are written anew, two of them in place and one after the game. */
  function Rewritten(lines: seq<string>, l: Layout): seq<string>
    requires l.Ordered() && l.exit < |lines|
  {
    Pieces(lines, l, Like(lines[l.invocation], SAVE), Like(lines[l.unsupported], REFUSE), Like(lines[l.exit], LEAVE))
  }

  function Pieces<T>(lines: seq<T>, l: Layout, save: T, refuse: T, leave: T): seq<T>
    requires l.Ordered() && l.exit < |lines|
  {
    lines[..l.invocation + 1] + [save] + lines[l.invocation + 1..l.unsupported] + [refuse]
    + lines[l.unsupported + 1..l.exit] + [leave] + lines[l.exit + 1..]
  }

  /** Inserting first and replacing first come to the same. */
  lemma EditsMakePieces<T>(lines: seq<T>, l: Layout, save: T, refuse: T, leave: T)
    requires l.Ordered() && l.exit < |lines|
    ensures var edited := lines[l.unsupported := refuse][l.exit := leave];
      edited[..l.invocation + 1] + [save] + edited[l.invocation + 1..] == Pieces(lines, l, save, refuse, leave)
  {
    var edited := lines[l.unsupported := refuse][l.exit := leave];
    assert edited[..l.invocation + 1] == lines[..l.invocation + 1];
    TwoReplaced(lines, l.invocation + 1, l.unsupported, l.exit, refuse, leave);
  }

  lemma TwoReplaced<T>(s: seq<T>, i: nat, j: nat, k: nat, x: T, y: T)
    requires i <= j < k < |s|
    ensures s[j := x][k := y][i..] == s[i..j] + [x] + s[j + 1..k] + [y] + s[k + 1..]
  {
  }

  lemma CountedLayoutIsTheOnly(rows: seq<Row>, l: Layout)
    requires OneOfEach(rows, l)
    ensures forall other :: Fits(rows, other) ==> other == l
  {
    forall other | Fits(rows, other) ensures other == l {
      LayoutIsUnique(rows, l, other);
    }
  }

  /** The six counts, and the order of the lines. */
  method FindLayout(rows: seq<Row>) returns (l: Option<Layout>)
    ensures if l.Some? then Fits(rows, l.value) else forall other :: !Fits(rows, other)
  {
    var condition, invocation := Sole(rows, Condition), Sole(rows, Invocation);
    var unsupported, exit := Sole(rows, Unsupported), Sole(rows, TerminalExit);
    var elseLine, fi := Sole(rows, Else), Sole(rows, Fi);
    if condition.None? || invocation.None? || unsupported.None? || exit.None? || elseLine.None? || fi.None? {
      return None;
    }
    var found := Layout(condition.value, invocation.value, elseLine.value, unsupported.value, fi.value, exit.value);
    CountedLayoutIsTheOnly(rows, found);
    if !found.Ordered() {
      return None;
    }
    if i :| found.exit < i < |rows| && !rows[i].idle {
      return None;
    }
    return Some(found);
  }

  /** LauncherValidator._status_preserving_wrapper. */
  method Wrap(script: seq<string>) returns (r: Result<seq<string>>)
    ensures r.Ok? <==> exists l :: Fits(Rows(script), l)
    ensures forall l :: Fits(Rows(script), l) ==> r == Ok(Rewritten(script, l))
  {
    var found := FindLayout(Rows(script));
    if found.None? {
      return Err;
    }
    var l := found.value;
    CountedLayoutIsTheOnly(Rows(script), l);
    var lines := script;
    lines := lines[l.unsupported := Like(lines[l.unsupported], REFUSE)];
    lines := lines[l.exit := Like(lines[l.exit], LEAVE)];
    lines := lines[..l.invocation + 1] + [Like(lines[l.invocation], SAVE)] + lines[l.invocation + 1..];
    EditsMakePieces(script, l, Like(script[l.invocation], SAVE), Like(script[l.unsupported], REFUSE),
                    Like(script[l.exit], LEAVE));
    return Ok(lines);
  }
}

/** The managed INI merge of the container entrypoint: an awk program over two files, proved
    against a function over their lines, and what repeated merges do. */
module IniMerge {
  import opened Basics

  // ---------------------------------------------------------------- lines

  /** `[[:space:]]`. */
  predicate IsBlank(c: char) {
    c == ' ' || '\t' <= c <= '\r'
  }

  function DropBlanks(s: string): (t: string)
    ensures t == "" || !IsBlank(t[0])
    ensures forall i :: 0 <= i < |t| ==> t[i] in s
  {
    if s != "" && IsBlank(s[0]) then DropBlanks(s[1..]) else s
  }

  function DropBlanksAtEnd(s: string): (t: string)
    ensures t <= s && (s != "" && !IsBlank(s[0]) ==> t != "")
  {
    if s != "" && IsBlank(s[|s| - 1]) then DropBlanksAtEnd(s[..|s| - 1]) else s
  }

  /** The first field under `-F=`. */
  function FirstField(text: string): (f: string)
    ensures f <= text && '=' !in f
  {
    if text == "" || text[0] == '=' then "" else [text[0]] + FirstField(text[1..])
  }

  predicate LooksLikeComment(text: string) {
    var rest := DropBlanks(text);
    rest != "" && (rest[0] == '#' || rest[0] == ';')
  }

  /** A record as awk sees it: the line, its trimmed first field, and what the patterns say. */
  datatype Line = Line(text: string, key: string, hasEquals: bool, comment: bool) {
    predicate IsSetting() {
      !comment && hasEquals
    }
  }

  function Read(text: string): Line {
    Line(text, DropBlanksAtEnd(DropBlanks(FirstField(text))), '=' in text, LooksLikeComment(text))
  }

  predicate AllRead(lines: seq<Line>) {
    forall i :: 0 <= i < |lines| ==> lines[i] == Read(lines[i].text)
  }

  // ---------------------------------------------------------------- the merge as a function

  type Managed = map<string, Line>

  /** The rendered line of each key; the last one counts. */
  function ManagedOf(lines: seq<Line>): Managed {
    if lines == [] then map[]
    else
      var m, last := ManagedOf(lines[..|lines| - 1]), lines[|lines| - 1];
      if last.IsSetting() then m[last.key := last] else m
  }

  /** The rendered keys in order, repetitions included. */
  function OrderOf(lines: seq<Line>): seq<string> {
    if lines == [] then []
    else OrderOf(lines[..|lines| - 1]) + if lines[|lines| - 1].IsSetting() then [lines[|lines| - 1].key] else []
  }

  predicate Replaced(m: Managed, line: Line) {
    line.hasEquals && line.key in m
  }

  function Body(m: Managed, lines: seq<Line>, emitted: set<string>): (body: seq<Line>)
    ensures |body| <= |lines|
  {
    if lines == [] then []
    else if !Replaced(m, lines[0]) then [lines[0]] + Body(m, lines[1..], emitted)
    else if lines[0].key in emitted then Body(m, lines[1..], emitted)
    else [m[lines[0].key]] + Body(m, lines[1..], emitted + {lines[0].key})
  }

  /** The managed keys among some lines. */
  function KeysIn(m: Managed, lines: seq<Line>): set<string> {
    set i | 0 <= i < |lines| && Replaced(m, lines[i]) :: lines[i].key
  }

  function Missing(m: Managed, order: seq<string>, emitted: set<string>): seq<Line>
    requires forall i :: 0 <= i < |order| ==> order[i] in m
  {
    if order == [] then []
    else if order[0] in emitted then Missing(m, order[1..], emitted)
    else [m[order[0]]] + Missing(m, order[1..], emitted)
  }

  /** Rendered lines first; what the second file then becomes. */
  function Combine(first: seq<Line>, second: seq<Line>): seq<Line> {
    var m := ManagedOf(first);
    OrderIsManaged(first);
    Body(m, second, {}) + Missing(m, OrderOf(first), KeysIn(m, second))
  }

  /** merge_managed_ini. A missing destination is installed. An empty rendering leaves awk at
      NR == FNR all through the destination, which is then read as if it were the rendering. */
  function Merge(rendered: seq<Line>, destination: Option<seq<Line>>): seq<Line> {
    match destination
    case None => rendered
    case Some(lines) => if rendered == [] then Combine(lines, []) else Combine(rendered, lines)
  }

  // ---------------------------------------------------------------- the awk program

  /** The awk arrays and the output. */
  datatype Awk = Awk(managed: Managed, order: seq<string>, emitted: set<string>, printed: seq<Line>)

  /** After `n` records of the file that NR == FNR runs over. */
  predicate Collected(first: seq<Line>, n: nat, a: Awk) {
    n <= |first| && a == Awk(ManagedOf(first[..n]), OrderOf(first[..n]), {}, [])
  }

  /** After `n` records of the other file. */
  predicate Rewritten(first: seq<Line>, second: seq<Line>, n: nat, a: Awk) {
    && n <= |second| && a.managed == ManagedOf(first) && a.order == OrderOf(first)
    && a.emitted == KeysIn(a.managed, second[..n])
    && a.printed + Body(a.managed, second[n..], a.emitted) == Body(a.managed, second, {})
  }

  method CollectRecord(line: Line, a: Awk, ghost first: seq<Line>, ghost n: nat) returns (b: Awk)
    requires n < |first| && first[n] == line && Collected(first, n, a)
    ensures Collected(first, n + 1, b)
  {
    assert first[..n + 1][..n] == first[..n];
    b := a;
    if !line.comment && line.hasEquals {
      var key := line.key;
      b := a.(managed := a.managed[key := line], order := a.order + [key]);
    }
  }

  lemma BodyAdvances(m: Managed, lines: seq<Line>, emitted: set<string>, printed: seq<Line>)
    requires lines != []
    ensures var key := lines[0].key;
      printed + Body(m, lines, emitted)
      == if !Replaced(m, lines[0]) then printed + [lines[0]] + Body(m, lines[1..], emitted)
         else if key in emitted then printed + Body(m, lines[1..], emitted)
         else printed + [m[key]] + Body(m, lines[1..], emitted + {key})
  {
    var key := lines[0].key;
    if !Replaced(m, lines[0]) {
      var rest := Body(m, lines[1..], emitted);
      assert Body(m, lines, emitted) == [lines[0]] + rest;
      Regroup(printed, lines[0], rest);
    } else if key in emitted {
      assert Body(m, lines, emitted) == Body(m, lines[1..], emitted);
    } else {
      var rest := Body(m, lines[1..], emitted + {key});
      assert Body(m, lines, emitted) == [m[key]] + rest;
      Regroup(printed, m[key], rest);
    }
  }

  lemma Regroup<T>(a: seq<T>, x: T, b: seq<T>)
    ensures a + ([x] + b) == a + [x] + b
  {
  }

  method RewriteRecord(line: Line, a: Awk, ghost first: seq<Line>, ghost second: seq<Line>, ghost n: nat)
      returns (b: Awk)
    requires n < |second| && second[n] == line && Rewritten(first, second, n, a)
    ensures Rewritten(first, second, n + 1, b)
  {
    OneMoreKey(a.managed, second, n);
    assert second[n..][1..] == second[n + 1..];
    BodyAdvances(a.managed, second[n..], a.emitted, a.printed);
    var key := line.key;
    b := a;
    if line.hasEquals && key in a.managed {
      if key !in a.emitted {
        b := a.(printed := a.printed + [a.managed[key]], emitted := a.emitted + {key});
      } else {
        assert a.emitted + {key} == a.emitted;
      }
    } else {
      b := a.(printed := a.printed + [line]);
    }
  }

  /** After `n` records of both files. */
  predicate HasRead(first: seq<Line>, second: seq<Line>, n: nat, a: Awk) {
    if n < |first| then Collected(first, n, a) else Rewritten(first, second, n - |first|, a)
  }

  lemma CollectionStarts(first: seq<Line>, second: seq<Line>)
    ensures HasRead(first, second, 0, Awk(map[], [], {}, []))
  {
    assert first[..0] == [] && second[..0] == [] && second[0..] == second;
    assert first == [] ==> [] + Body(ManagedOf(first), second, {}) == Body(ManagedOf(first), second, {});
  }

  /** The pattern-action part, for one record. */
  method ProcessRecord(line: Line, nr: nat, fnr: nat, a: Awk, ghost first: seq<Line>, ghost second: seq<Line>)
      returns (b: Awk)
    requires 0 < nr <= |first| + |second| && HasRead(first, second, nr - 1, a)
    requires nr == fnr <==> nr <= |first|
    requires line == if nr <= |first| then first[nr - 1] else second[nr - 1 - |first|]
    ensures HasRead(first, second, nr, b)
  {
    if nr == fnr {
      b := CollectRecord(line, a, first, nr - 1);
      CollectionEnds(first, second, b);
    } else {
      b := RewriteRecord(line, a, first, second, nr - 1 - |first|);
    }
  }

  /** Both files, record by record: NR counts on, FNR begins anew with each file. */
  method ReadRecords(rendered: seq<Line>, lines: seq<Line>, ghost first: seq<Line>, ghost second: seq<Line>)
      returns (awk: Awk)
    requires if rendered == [] then first == lines && second == [] else first == rendered && second == lines
    ensures Rewritten(first, second, |second|, awk)
  {
    awk := Awk(map[], [], {}, []);
    CollectionStarts(first, second);
    var nr := 0;
    while nr < |rendered| + |lines|
      invariant 0 <= nr <= |rendered| + |lines|
      invariant HasRead(first, second, nr, awk)
    {
      var line := if nr < |rendered| then rendered[nr] else lines[nr - |rendered|];
      var fnr := if nr < |rendered| then nr + 1 else nr - |rendered| + 1;
      nr := nr + 1;
      awk := ProcessRecord(line, nr, fnr, awk, first, second);
    }
  }

  /** The END action. */
  method PrintMissing(awk: Awk) returns (printed: seq<Line>)
    requires forall i :: 0 <= i < |awk.order| ==> awk.order[i] in awk.managed
    ensures printed == awk.printed + Missing(awk.managed, awk.order, awk.emitted)
  {
    printed := awk.printed;
    var i := 0;
    while i < |awk.order|
      invariant 0 <= i <= |awk.order|
      invariant printed + Missing(awk.managed, awk.order[i..], awk.emitted)
                == awk.printed + Missing(awk.managed, awk.order, awk.emitted)
    {
      assert awk.order[i..][1..] == awk.order[i + 1..];
      if awk.order[i] !in awk.emitted {
        Regroup(printed, awk.managed[awk.order[i]], Missing(awk.managed, awk.order[i + 1..], awk.emitted));
        printed := printed + [awk.managed[awk.order[i]]];
      }
      i := i + 1;
    }
  }

  method MergeRecords(rendered: seq<Line>, lines: seq<Line>) returns (merged: seq<Line>)
    ensures merged == Merge(rendered, Some(lines))
  {
    ghost var first, second := if rendered == [] then lines else rendered, if rendered == [] then [] else lines;
    var awk := ReadRecords(rendered, lines, first, second);
    OrderIsManaged(first);
    assert second[..|second|] == second;
    merged := PrintMissing(awk);
  }

  lemma CollectionEnds(first: seq<Line>, second: seq<Line>, a: Awk)
    ensures Collected(first, |first|, a) ==> Rewritten(first, second, 0, a)
  {
    assert first[..|first|] == first && second[0..] == second;
  }

  lemma OneMoreKey(m: Managed, lines: seq<Line>, k: nat)
    requires k < |lines|
    ensures KeysIn(m, lines[..k + 1]) == KeysIn(m, lines[..k]) + if Replaced(m, lines[k]) then {lines[k].key} else {}
  {
    forall key | key in KeysIn(m, lines[..k]) ensures key in KeysIn(m, lines[..k + 1]) {
      var i :| 0 <= i < k && Replaced(m, lines[i]) && lines[i].key == key;
      assert lines[..k + 1][i] == lines[i];
    }
    assert lines[..k + 1][k] == lines[k];
  }

  lemma {:induction false} OrderIsManaged(lines: seq<Line>)
    ensures forall key :: key in OrderOf(lines) <==> key in ManagedOf(lines)
  {
    if lines != [] {
      OrderIsManaged(lines[..|lines| - 1]);
    }
  }

  // ---------------------------------------------------------------- files

  function Records(file: seq<string>): (lines: seq<Line>)
    ensures |lines| == |file| && AllRead(lines) && forall i :: 0 <= i < |file| ==> lines[i].text == file[i]
  {
    seq(|file|, i requires 0 <= i < |file| => Read(file[i]))
  }

  function Texts(lines: seq<Line>): (file: seq<string>)
    ensures |file| == |lines| && forall i :: 0 <= i < |file| ==> file[i] == lines[i].text
  {
    seq(|lines|, i requires 0 <= i < |lines| => lines[i].text)
  }

  /** merge_managed_ini: what the file then holds, record by record. */
  method MergeManaged(rendered: seq<string>, destination: Option<seq<string>>) returns (file: seq<string>)
    ensures Records(file)
            == Merge(Records(rendered), if destination.Some? then Some(Records(destination.value)) else None)
  {
    if destination.None? {
      return rendered;
    }
    var lines := MergeRecords(Records(rendered), Records(destination.value));
    MergeInventsNothing(Records(rendered), Records(destination.value));
    file := Texts(lines);
    assert Records(file) == lines by {
      forall i | 0 <= i < |lines| ensures Records(file)[i] == lines[i] {
        assert lines[i] in lines;
      }
    }
  }

  /** Every line of the result is a line of one of the two files. */
  lemma MergeInventsNothing(rendered: seq<Line>, lines: seq<Line>)
    ensures forall l :: l in Merge(rendered, Some(lines)) ==> l in rendered || l in lines
  {
    var first, second := if rendered == [] then lines else rendered, if rendered == [] then [] else lines;
    var m := ManagedOf(first);
    OrderIsManaged(first);
    ManagedIsFromFile(first);
    BodyInventsNothing(m, second, {});
    MissingInventsNothing(m, OrderOf(first), KeysIn(m, second));
  }

  lemma {:induction false} ManagedIsFromFile(lines: seq<Line>)
    ensures forall key :: key in ManagedOf(lines) ==> ManagedOf(lines)[key] in lines
  {
    if lines != [] {
      ManagedIsFromFile(lines[..|lines| - 1]);
    }
  }

  lemma {:induction false} BodyInventsNothing(m: Managed, lines: seq<Line>, emitted: set<string>)
    ensures forall l :: l in Body(m, lines, emitted) ==> l in lines || l in m.Values
  {
    if lines != [] {
      var more := if Replaced(m, lines[0]) && lines[0].key !in emitted then emitted + {lines[0].key} else emitted;
      BodyInventsNothing(m, lines[1..], more);
    }
  }

  lemma {:induction false} MissingInventsNothing(m: Managed, order: seq<string>, emitted: set<string>)
    requires forall i :: 0 <= i < |order| ==> order[i] in m
    ensures forall l :: l in Missing(m, order, emitted) ==> l in m.Values
  {
    if order != [] {
      MissingInventsNothing(m, order[1..], emitted);
    }
  }
}

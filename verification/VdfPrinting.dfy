/** Writing Valve's metadata and reading it back, from characters to objects. */
module VdfPrinting {
  import opened Basics
  import opened Text
  import opened Vdf

  // ---------------------------------------------------------------- escapes

  /** What may stand between the quotes: no bare quote, and no backslash without a partner. */
  predicate IsBody(raw: string) {
    raw == ""
    || (if raw[0] == '\\' then |raw| > 1 && raw[1] != '\n' && IsBody(raw[2..])
        else raw[0] != '"' && IsBody(raw[1..]))
  }

  function Escape(s: string): string {
    if s == "" then ""
    else (if s[0] == '"' || s[0] == '\\' then ['\\', s[0]] else [s[0]]) + Escape(s[1..])
  }

  function Quote(s: string): string {
    "\"" + Escape(s) + "\""
  }

  /** The string ends at its first bare quote. */
  lemma {:induction false} BodyIsRead(raw: string, rest: string)
    requires IsBody(raw)
    ensures BodyLength(raw + "\"" + rest) == Some(|raw|)
  {
    var s := raw + "\"" + rest;
    if raw == "" {
      assert s[0] == '"';
    } else if raw[0] == '\\' {
      assert s[2..] == raw[2..] + "\"" + rest;
      BodyIsRead(raw[2..], rest);
    } else {
      assert s[1..] == raw[1..] + "\"" + rest;
      BodyIsRead(raw[1..], rest);
    }
  }

  lemma {:induction false} ReadBodyIsBody(s: string)
    requires BodyLength(s).Some?
    ensures IsBody(s[..BodyLength(s).value])
  {
    var n := BodyLength(s).value;
    if s[0] == '\\' {
      ReadBodyIsBody(s[2..]);
      assert s[..n][2..] == s[2..][..n - 2];
    } else if s[0] != '"' {
      ReadBodyIsBody(s[1..]);
      assert s[..n][1..] == s[1..][..n - 1];
    }
  }

  /** A character that does not begin the pair stays. */
  lemma CharacterIsKept(x: char, rest: string, a: char, b: char, c: char)
    requires x != a || rest == "" || rest[0] != b
    ensures ReplacePair([x] + rest, a, b, c) == [x] + ReplacePair(rest, a, b, c)
  {
    assert ([x] + rest)[1..] == rest;
    if rest != "" {
      assert ([x] + rest)[1] == rest[0];
    }
  }

  lemma PlainIsKept(c: char, rest: string)
    requires c != '\\'
    ensures Unescape([c] + rest) == [c] + Unescape(rest)
  {
    CharacterIsKept(c, rest, '\\', '"', '"');
    CharacterIsKept(c, ReplacePair(rest, '\\', '"', '"'), '\\', '\\', '\\');
  }

  lemma QuoteIsUnescaped(rest: string)
    ensures Unescape(['\\', '"'] + rest) == ['"'] + Unescape(rest)
  {
    var first := ReplacePair(rest, '\\', '"', '"');
    assert (['\\', '"'] + rest)[2..] == rest;
    assert ReplacePair(['\\', '"'] + rest, '\\', '"', '"') == ['"'] + first;
    CharacterIsKept('"', first, '\\', '\\', '\\');
  }

  lemma OtherPairIsUnescaped(c: char, rest: string)
    requires c != '"' && IsBody(rest)
    ensures Unescape(['\\', c] + rest) == (if c == '\\' then ['\\'] else ['\\', c]) + Unescape(rest)
  {
    var first := ReplacePair(rest, '\\', '"', '"');
    CharacterIsKept(c, rest, '\\', '"', '"');
    CharacterIsKept('\\', [c] + rest, '\\', '"', '"');
    assert ['\\'] + ([c] + rest) == ['\\', c] + rest && ['\\'] + ([c] + first) == ['\\', c] + first;
    PairSurvives(c, first);
  }

  lemma PairSurvives(c: char, inner: string)
    requires c != '"'
    ensures ReplacePair(['\\', c] + inner, '\\', '\\', '\\')
            == (if c == '\\' then ['\\'] else ['\\', c]) + ReplacePair(inner, '\\', '\\', '\\')
  {
    var s := ['\\', c] + inner;
    assert s[2..] == inner && s[1..] == [c] + inner;
    if c != '\\' && inner != "" {
      assert s[1..][1..] == inner;
    }
  }

  /** The two replacements, quotes first, do on every string body what one pass over its escape
      pairs does. */
  lemma {:induction false} TwoPassesAreOne(raw: string)
    requires IsBody(raw)
    ensures Unescape(raw) == UnescapeOnce(raw)
    decreases |raw|
  {
    if raw == "" {
    } else if raw[0] != '\\' {
      TwoPassesAreOne(raw[1..]);
      PlainIsKept(raw[0], raw[1..]);
      assert [raw[0]] + raw[1..] == raw;
    } else {
      TwoPassesAreOne(raw[2..]);
      assert ['\\', raw[1]] + raw[2..] == raw;
      if raw[1] == '"' {
        QuoteIsUnescaped(raw[2..]);
      } else {
        OtherPairIsUnescaped(raw[1], raw[2..]);
      }
    }
  }

  /** Every quoted token of any text is the one-pass unescaping of its body. */
  lemma QuotedTokenIsItsBody(s: string)
    requires s != "" && Step(s) > 1
    ensures s[0] == '"' && Yield(s) == [UnescapeOnce(s[1..Step(s) - 1])]
  {
    var n := BodyLength(s[1..]).value;
    ReadBodyIsBody(s[1..]);
    assert s[1..][..n] == s[1..n + 1];
    TwoPassesAreOne(s[1..n + 1]);
  }

  lemma {:induction false} EscapeIsBody(s: string)
    ensures IsBody(Escape(s)) && UnescapeOnce(Escape(s)) == s
  {
    if s != "" {
      EscapeIsBody(s[1..]);
      var e := Escape(s);
      if s[0] == '"' || s[0] == '\\' {
        assert e[2..] == Escape(s[1..]);
      } else {
        assert e[1..] == Escape(s[1..]);
      }
    }
  }

  lemma QuotedSlices(raw: string, rest: string)
    ensures var text := "\"" + (raw + "\"" + rest);
      text[1..] == raw + "\"" + rest && text[1..|raw| + 1] == raw && text[|raw| + 2..] == rest
  {
  }

  lemma BodyIsOneToken(raw: string, rest: string)
    requires IsBody(raw)
    ensures Tokens("\"" + (raw + "\"" + rest)) == [Unescape(raw)] + Tokens(rest)
  {
    var text := "\"" + (raw + "\"" + rest);
    QuotedSlices(raw, rest);
    assert Step(text) == |raw| + 2 by {
      BodyIsRead(raw, rest);
    }
    assert Yield(text) == [Unescape(raw)];
  }

  /** A quoted string is one token, and the token is the string. */
  lemma QuoteIsOneToken(s: string, rest: string)
    ensures Tokens(Quote(s) + rest) == [s] + Tokens(rest)
  {
    EscapeIsBody(s);
    TwoPassesAreOne(Escape(s));
    BodyIsOneToken(Escape(s), rest);
    assert Quote(s) + rest == "\"" + (Escape(s) + "\"" + rest);
  }

  // ---------------------------------------------------------------- layout

  /** What may separate tokens: anything without quotes, braces and escape characters. */
  predicate IsGap(gap: string) {
    forall i :: 0 <= i < |gap| ==> gap[i] != '"' && gap[i] != '{' && gap[i] != '}' && gap[i] != ESC
  }

  function Print(v: Tree, gap: string): string {
    match v
    case Leaf(text) => Quote(text) + gap
    case Object(es) => "{" + gap + PrintMembers(es, gap) + "}" + gap
  }

  function PrintMembers(es: seq<Entry>, gap: string): string {
    if es == [] then ""
    else Quote(es[0].key) + gap + Print(es[0].value, gap) + PrintMembers(es[1..], gap)
  }

  function PrintRoot(root: string, es: seq<Entry>, gap: string): string {
    Quote(root) + gap + Print(Object(es), gap)
  }

  lemma {:induction false} GapHasNoTokens(gap: string, rest: string)
    requires IsGap(gap)
    ensures Tokens(gap + rest) == Tokens(rest)
  {
    if gap == "" {
      assert gap + rest == rest;
    } else {
      assert (gap + rest)[1..] == gap[1..] + rest;
      GapHasNoTokens(gap[1..], rest);
    }
  }

  lemma BraceIsOneToken(brace: char, gap: string, rest: string)
    requires (brace == '{' || brace == '}') && IsGap(gap)
    ensures Tokens([brace] + gap + rest) == [[brace]] + Tokens(rest)
  {
    assert ([brace] + gap + rest)[1..] == gap + rest;
    GapHasNoTokens(gap, rest);
  }

  lemma QuoteAndGap(s: string, gap: string, rest: string)
    requires IsGap(gap)
    ensures Tokens(Quote(s) + gap + rest) == [s] + Tokens(rest)
  {
    assert Quote(s) + gap + rest == Quote(s) + (gap + rest);
    QuoteIsOneToken(s, gap + rest);
    GapHasNoTokens(gap, rest);
  }

  lemma {:induction false} PrintSpells(v: Tree, gap: string, rest: string)
    requires IsGap(gap)
    ensures Tokens(Print(v, gap) + rest) == Flatten(v) + Tokens(rest)
    decreases v, 0
  {
    match v
    case Leaf(text) => QuoteAndGap(text, gap, rest);
    case Object(es) =>
      MembersSpell(es, gap, "}" + gap + rest);
      BracesEnclose(gap, PrintMembers(es, gap), FlattenMembers(es), rest);
  }

  lemma BracesEnclose(gap: string, inner: string, spelled: seq<string>, rest: string)
    requires IsGap(gap) && Tokens(inner + ("}" + gap + rest)) == spelled + Tokens("}" + gap + rest)
    ensures Tokens("{" + gap + inner + "}" + gap + rest) == ["{"] + spelled + ["}"] + Tokens(rest)
  {
    var tail := "}" + gap + rest;
    Bracketed("{" + gap, inner, "}", gap, rest);
    BraceIsOneToken('{', gap, inner + tail);
    BraceIsOneToken('}', gap, rest);
    Bracketed(["{"], spelled, ["}"], [], Tokens(rest));
    assert ["}"] + [] == ["}"] && ["{"] + spelled + ["}"] + [] == ["{"] + spelled + ["}"];
  }

  lemma Bracketed<T>(a: seq<T>, b: seq<T>, c: seq<T>, d: seq<T>, e: seq<T>)
    ensures a + b + c + d + e == a + (b + (c + d + e))
  {
  }

  lemma {:induction false} MembersSpell(es: seq<Entry>, gap: string, rest: string)
    requires IsGap(gap)
    ensures Tokens(PrintMembers(es, gap) + rest) == FlattenMembers(es) + Tokens(rest)
    decreases es, 1
  {
    if es == [] {
      assert PrintMembers(es, gap) + rest == rest;
    } else {
      var key, first, more := es[0].key, Print(es[0].value, gap), PrintMembers(es[1..], gap);
      PrintSpells(es[0].value, gap, more + rest);
      MembersSpell(es[1..], gap, rest);
      OneMoreMemberSpells(key, gap, first, more, rest, Flatten(es[0].value), FlattenMembers(es[1..]));
    }
  }

  lemma OneMoreMemberSpells(key: string, gap: string, first: string, more: string, rest: string,
                            value: seq<string>, members: seq<string>)
    requires IsGap(gap) && Tokens(first + (more + rest)) == value + Tokens(more + rest)
    requires Tokens(more + rest) == members + Tokens(rest)
    ensures Tokens(Quote(key) + gap + first + more + rest) == [key] + value + members + Tokens(rest)
  {
    Chained(Quote(key) + gap, first, more, rest);
    QuoteAndGap(key, gap, first + (more + rest));
    Chained([key], value, members, Tokens(rest));
  }

  lemma Chained<T>(a: seq<T>, b: seq<T>, c: seq<T>, d: seq<T>)
    ensures a + b + c + d == a + (b + (c + d))
  {
  }

  lemma RootSpells(root: string, es: seq<Entry>, gap: string)
    requires IsGap(gap)
    ensures Tokens(PrintRoot(root, es, gap)) == [root] + Flatten(Object(es))
  {
    var body := Print(Object(es), gap);
    QuoteAndGap(root, gap, body);
    PrintSpells(Object(es), gap, "");
    assert body + "" == body;
  }

  // ---------------------------------------------------------------- escape characters are conserved

  function Escs(s: string): nat {
    if s == "" then 0 else (if s[0] == ESC then 1 else 0) + Escs(s[1..])
  }

  function EscsIn(tokens: seq<string>): nat {
    if tokens == [] then 0 else Escs(tokens[0]) + EscsIn(tokens[1..])
  }

  lemma {:induction false} EscsAdd(a: string, b: string)
    ensures Escs(a + b) == Escs(a) + Escs(b)
  {
    if a == "" {
      assert a + b == b;
    } else {
      assert (a + b)[1..] == a[1..] + b;
      EscsAdd(a[1..], b);
    }
  }

  lemma EscsSplit(s: string, n: nat)
    requires n <= |s|
    ensures Escs(s) == Escs(s[..n]) + Escs(s[n..])
  {
    assert s == s[..n] + s[n..];
    EscsAdd(s[..n], s[n..]);
  }

  lemma {:induction false} EscsInAdd(a: seq<string>, b: seq<string>)
    ensures EscsIn(a + b) == EscsIn(a) + EscsIn(b)
  {
    if a == [] {
      assert a + b == b;
    } else {
      assert (a + b)[1..] == a[1..] + b;
      EscsInAdd(a[1..], b);
    }
  }

  lemma {:induction false} StripLosesEscs(s: string)
    ensures StripAnsi(s) == s || Escs(StripAnsi(s)) < Escs(s)
    ensures Escs(StripAnsi(s)) <= Escs(s)
    decreases |s|
  {
    if s != "" {
      var n := AnsiLength(s);
      if n > 0 {
        StripLosesEscs(s[n..]);
        EscsSplit(s, n);
      } else {
        StripLosesEscs(s[1..]);
        assert StripAnsi(s)[1..] == StripAnsi(s[1..]);
        assert s == [s[0]] + s[1..];
      }
    }
  }

  lemma {:induction false} ReplacingKeepsEscs(s: string, a: char, b: char, c: char)
    requires a != ESC && b != ESC && c != ESC
    ensures Escs(ReplacePair(s, a, b, c)) == Escs(s)
    decreases |s|
  {
    if |s| > 1 {
      if s[0] == a && s[1] == b {
        assert s == [a, b] + s[2..] && ReplacePair(s, a, b, c)[1..] == ReplacePair(s[2..], a, b, c);
        EscsAdd([a, b], s[2..]);
        assert [a, b][1..] == [b];
        ReplacingKeepsEscs(s[2..], a, b, c);
      } else {
        assert ReplacePair(s, a, b, c)[1..] == ReplacePair(s[1..], a, b, c);
        ReplacingKeepsEscs(s[1..], a, b, c);
      }
    }
  }

  lemma EscsInOne(token: string)
    ensures EscsIn([token]) == Escs(token)
  {
    assert [token][1..] == [];
  }

  lemma UnescapingKeepsEscs(raw: string)
    ensures Escs(Unescape(raw)) == Escs(raw)
  {
    ReplacingKeepsEscs(raw, '\\', '"', '"');
    ReplacingKeepsEscs(ReplacePair(raw, '\\', '"', '"'), '\\', '\\', '\\');
  }

  lemma YieldGainsNoEscs(s: string)
    requires s != ""
    ensures EscsIn(Yield(s)) <= Escs(s[..Step(s)])
  {
    var n := Step(s);
    if s[0] == '{' || s[0] == '}' {
      EscsInOne([s[0]]);
      assert s[..n] == [s[0]];
    } else if n > 1 {
      var raw := s[1..n - 1];
      assert s[..n] == [s[0]] + raw + [s[n - 1]];
      EscsAdd([s[0]] + raw, [s[n - 1]]);
      EscsAdd([s[0]], raw);
      UnescapingKeepsEscs(raw);
      EscsInOne(Unescape(raw));
    }
  }

  lemma {:induction false} TokensGainNoEscs(s: string)
    ensures EscsIn(Tokens(s)) <= Escs(s)
    decreases |s|
  {
    if s != "" {
      var n := Step(s);
      YieldGainsNoEscs(s);
      TokensGainNoEscs(s[n..]);
      EscsInAdd(Yield(s), Tokens(s[n..]));
      EscsSplit(s, n);
    }
  }

  lemma {:induction false} QuotingKeepsEscs(s: string)
    ensures Escs(Escape(s)) == Escs(s) && Escs(Quote(s)) == Escs(s)
  {
    if s != "" {
      QuotingKeepsEscs(s[1..]);
      var head := if s[0] == '"' || s[0] == '\\' then ['\\', s[0]] else [s[0]];
      EscsAdd(head, Escape(s[1..]));
      assert |head| == 2 ==> head[1..] == [s[0]];
    }
    EscsAdd("\"" + Escape(s), "\"");
    EscsAdd("\"", Escape(s));
  }

  lemma {:induction false} GapHasNoEscs(gap: string)
    requires IsGap(gap)
    ensures Escs(gap) == 0
  {
    if gap != "" {
      GapHasNoEscs(gap[1..]);
    }
  }

  lemma {:induction false} PrintKeepsEscs(v: Tree, gap: string)
    requires IsGap(gap)
    ensures Escs(Print(v, gap)) == EscsIn(Flatten(v))
    decreases v, 0
  {
    GapHasNoEscs(gap);
    match v
    case Leaf(text) =>
      QuotingKeepsEscs(text);
      EscsAdd(Quote(text), gap);
    case Object(es) =>
      MembersKeepEscs(es, gap);
      EscsAdd("{" + gap + PrintMembers(es, gap) + "}", gap);
      EscsAdd("{" + gap + PrintMembers(es, gap), "}");
      EscsAdd("{" + gap, PrintMembers(es, gap));
      EscsAdd("{", gap);
      EscsInAdd(["{"] + FlattenMembers(es), ["}"]);
      EscsInAdd(["{"], FlattenMembers(es));
  }

  lemma {:induction false} MembersKeepEscs(es: seq<Entry>, gap: string)
    requires IsGap(gap)
    ensures Escs(PrintMembers(es, gap)) == EscsIn(FlattenMembers(es))
    decreases es, 1
  {
    if es != [] {
      var key, first, more := es[0].key, Print(es[0].value, gap), PrintMembers(es[1..], gap);
      GapHasNoEscs(gap);
      QuotingKeepsEscs(key);
      PrintKeepsEscs(es[0].value, gap);
      MembersKeepEscs(es[1..], gap);
      EscsAdd(Quote(key) + gap + first, more);
      EscsAdd(Quote(key) + gap, first);
      EscsAdd(Quote(key), gap);
      EscsInAdd([key] + Flatten(es[0].value), FlattenMembers(es[1..]));
      EscsInAdd([key], Flatten(es[0].value));
    }
  }

  // ---------------------------------------------------------------- the round trip

  /** Printing and parsing gives back an object that its spelling identifies, in any layout,
      exactly when the printed text holds no control sequence. */
  lemma RoundTrip(root: string, es: seq<Entry>, gap: string)
    requires IsGap(gap) && Unambiguous(Object(es))
    ensures var text := PrintRoot(root, es, gap);
      Root(text, root) == Ok(es) <==> StripAnsi(text) == text
  {
    var text := PrintRoot(root, es, gap);
    if StripAnsi(text) == text {
      CleanTextIsRead(root, es, gap);
    } else {
      PrintedRootHasItsEscs(root, es, gap);
      StrippedTextIsNotRead(text, root, es);
    }
  }

  lemma CleanTextIsRead(root: string, es: seq<Entry>, gap: string)
    requires IsGap(gap) && Unambiguous(Object(es))
    requires StripAnsi(PrintRoot(root, es, gap)) == PrintRoot(root, es, gap)
    ensures Root(PrintRoot(root, es, gap), root) == Ok(es)
  {
    RootSpells(root, es, gap);
    FirstRootDecides(Tokens(PrintRoot(root, es, gap)), root, 0, 0, es);
  }

  /** A text that loses a control sequence has not enough escape characters left for the object. */
  lemma StrippedTextIsNotRead(text: string, root: string, es: seq<Entry>)
    requires StripAnsi(text) != text && Escs(text) == Escs(root) + EscsIn(Flatten(Object(es)))
    ensures Root(text, root) != Ok(es)
  {
    StripLosesEscs(text);
    TokensGainNoEscs(StripAnsi(text));
    if Root(text, root) == Ok(es) {
      ReadRootHasItsEscs(Tokens(StripAnsi(text)), root, 0, es);
    }
  }

  lemma PrintedRootHasItsEscs(root: string, es: seq<Entry>, gap: string)
    requires IsGap(gap)
    ensures Escs(PrintRoot(root, es, gap)) == Escs(root) + EscsIn(Flatten(Object(es)))
  {
    QuotingKeepsEscs(root);
    GapHasNoEscs(gap);
    PrintKeepsEscs(Object(es), gap);
    EscsAdd(Quote(root) + gap, Print(Object(es), gap));
    EscsAdd(Quote(root), gap);
  }

  /** A parsed object takes its escape characters from the tokens. */
  lemma {:induction false} ReadRootHasItsEscs(tokens: seq<string>, root: string, k: nat, es: seq<Entry>)
    requires k <= |tokens| && RootFrom(tokens, root, k) == Ok(es)
    ensures EscsIn(tokens[k..]) >= Escs(root) + EscsIn(Flatten(Object(es)))
    decreases |tokens| - k
  {
    assert tokens[k..] == [tokens[k]] + tokens[k + 1..];
    if !IsRoot(tokens, root, k) {
      ReadRootHasItsEscs(tokens, root, k + 1, es);
    } else {
      ObjectIsSpelled(tokens, k + 1);
      var next := ObjectAt(tokens, k + 1).value.next;
      assert tokens[k + 1..] == tokens[k + 1..next] + tokens[next..];
      EscsInAdd(tokens[k + 1..next], tokens[next..]);
    }
  }

  /** Strings without the two characters that open a control sequence print without one. */
  predicate Plain(v: Tree) {
    match v
    case Leaf(text) => NoIntroducer(text)
    case Object(es) => PlainMembers(es)
  }

  predicate PlainMembers(es: seq<Entry>) {
    es == [] || (NoIntroducer(es[0].key) && Plain(es[0].value) && PlainMembers(es[1..]))
  }

  lemma PlainStringsRoundTrip(root: string, es: seq<Entry>, gap: string)
    requires IsGap(gap) && Unambiguous(Object(es)) && NoIntroducer(root) && PlainMembers(es)
    ensures Root(PrintRoot(root, es, gap), root) == Ok(es)
  {
    var text := PrintRoot(root, es, gap);
    PrintsPlainly(Object(es), gap);
    QuotesPlainly(root);
    Juxtapose(Quote(root), gap);
    Juxtapose(Quote(root) + gap, Print(Object(es), gap));
    StripAnsiKeepsPlainText(text);
    RoundTrip(root, es, gap);
  }

  lemma Juxtapose(a: string, b: string)
    requires NoIntroducer(a) && NoIntroducer(b) && (a == "" || a[|a| - 1] != ESC)
    ensures NoIntroducer(a + b)
  {
  }

  lemma {:induction false} QuotesPlainly(s: string)
    requires NoIntroducer(s)
    ensures NoIntroducer(Quote(s)) && NoIntroducer(Escape(s))
    ensures s != "" && s[0] != '[' ==> Escape(s)[0] != '['
  {
    if s != "" {
      QuotesPlainly(s[1..]);
      var head := if s[0] == '"' || s[0] == '\\' then ['\\', s[0]] else [s[0]];
      var tail := Escape(s[1..]);
      assert s[0] == ESC && |s| > 1 ==> s[1] != '[';
      assert s[0] == ESC && tail != "" ==> tail[0] != '[';
    }
  }

  lemma {:induction false} PrintsPlainly(v: Tree, gap: string)
    requires IsGap(gap) && Plain(v)
    ensures var text := Print(v, gap); NoIntroducer(text) && text[|text| - 1] != ESC
    decreases v, 0
  {
    match v
    case Leaf(text) =>
      QuotesPlainly(text);
      Juxtapose(Quote(text), gap);
    case Object(es) =>
      MembersPrintPlainly(es, gap);
      Juxtapose("{" + gap, PrintMembers(es, gap));
      Juxtapose("{" + gap + PrintMembers(es, gap), "}" + gap);
      assert "{" + gap + PrintMembers(es, gap) + ("}" + gap) == Print(v, gap);
  }

  lemma {:induction false} MembersPrintPlainly(es: seq<Entry>, gap: string)
    requires IsGap(gap) && PlainMembers(es)
    ensures var text := PrintMembers(es, gap); NoIntroducer(text) && (text == "" || text[|text| - 1] != ESC)
    decreases es, 1
  {
    if es != [] {
      var first, more := Print(es[0].value, gap), PrintMembers(es[1..], gap);
      QuotesPlainly(es[0].key);
      PrintsPlainly(es[0].value, gap);
      MembersPrintPlainly(es[1..], gap);
      Juxtapose(Quote(es[0].key), gap);
      Juxtapose(Quote(es[0].key) + gap, first);
      Juxtapose(Quote(es[0].key) + gap + first, more);
    }
  }

  lemma {:induction false} StripShortens(s: string, i: nat)
    requires i < |s| && AnsiLength(s[i..]) > 0
    ensures |StripAnsi(s)| < |s|
    decreases |s|
  {
    if AnsiLength(s) > 0 {
      StripNeverLengthens(s[AnsiLength(s)..]);
    } else {
      assert i > 0 && s[1..][i - 1..] == s[i..];
      StripShortens(s[1..], i - 1);
    }
  }

  lemma {:induction false} StripNeverLengthens(s: string)
    ensures |StripAnsi(s)| <= |s|
    decreases |s|
  {
    if s != "" {
      StripNeverLengthens(s[if AnsiLength(s) > 0 then AnsiLength(s) else 1..]);
    }
  }

  const OPENED := [ESC, '[']
  const BLANK := " "

  /** An opened sequence that holds no complete one, two quotes and a letter make one. */
  lemma OpenedSequenceCrossesQuotes(before: string, after: string)
    ensures var text := before + (OPENED + "\" \"b" + after); StripAnsi(text) != text
    ensures StripAnsi(OPENED) == OPENED
  {
    var tail := OPENED + "\" \"b" + after;
    var text := before + tail;
    assert text[|before|..] == tail;
    var t := tail[2..];
    assert t[0] == '"' && t[1..][0] == ' ' && t[1..][1..][0] == '"' && t[1..][1..][1..][0] == 'b';
    assert Span(t, '0', '?') == 0;
    assert Span(t[1..][1..][1..], ' ', '/') == 0;
    assert Span(t[1..][1..], ' ', '/') == 1;
    assert Span(t[1..], ' ', '/') == 2;
    assert Span(t, ' ', '/') == 3 && tail[2 + 3] == 'b';
    StripShortens(text, |before|);
    assert StripAnsi(OPENED[1..]) == OPENED[1..];
  }

  lemma EscapesOfCrossing()
    ensures Escape(OPENED) == OPENED && Escape("b") == "b"
  {
    assert Escape("b"[1..]) == "" && Escape(OPENED[1..]) == OPENED[1..];
  }

  lemma TwoMembersPrint(a: Entry, b: Entry, more: seq<Entry>)
    requires a.value.Leaf?
    ensures PrintMembers([a, b] + more, BLANK)
            == Quote(a.key) + BLANK + (Quote(a.value.text) + BLANK) + (Quote(b.key) + BLANK + Print(b.value, BLANK)
               + PrintMembers(more, BLANK))
  {
    var es := [a, b] + more;
    assert es[1..] == [b] + more && es[1..][1..] == more;
  }

  /** Strings that hold no complete control sequence are not enough: an opened sequence can run
      over the closing quote and be completed by the next string. */
  lemma OpenedSequenceSwallowsQuotes(more: seq<Entry>)
    requires MembersUnambiguous([Entry("a", Leaf(OPENED)), Entry("b", Leaf("c"))] + more, {})
    ensures var es := [Entry("a", Leaf(OPENED)), Entry("b", Leaf("c"))] + more;
      StripAnsi(OPENED) == OPENED && Root(PrintRoot("r", es, BLANK), "r") != Ok(es)
  {
    var es := [Entry("a", Leaf(OPENED)), Entry("b", Leaf("c"))] + more;
    OpenedMembersPrint(more);
    EscapesOfCrossing();
    var last, rest := Print(Leaf("c"), BLANK), PrintMembers(more, BLANK);
    OpenedSequenceCrossesQuotes(Quote("r") + " { " + Quote("a") + " \"", "\" " + last + rest + "} ");
    RoundTrip("r", es, BLANK);
  }

  lemma OpenedMembersPrint(more: seq<Entry>)
    ensures PrintRoot("r", [Entry("a", Leaf(OPENED)), Entry("b", Leaf("c"))] + more, BLANK)
            == Quote("r") + " { " + Quote("a") + " \""
               + (OPENED + "\" \"b" + ("\" " + Print(Leaf("c"), BLANK) + PrintMembers(more, BLANK) + "} "))
  {
    var a, b := Entry("a", Leaf(OPENED)), Entry("b", Leaf("c"));
    var es := [a, b] + more;
    var root, key, last, rest := Quote("r"), Quote("a"), Print(b.value, BLANK), PrintMembers(more, BLANK);
    TwoMembersPrint(a, b, more);
    EscapesOfCrossing();
    assert PrintMembers(es, BLANK) == key + BLANK + ("\"" + OPENED + "\"" + BLANK) + ("\"b\"" + BLANK + last + rest);
    assert PrintRoot("r", es, BLANK) == root + BLANK + ("{" + BLANK + PrintMembers(es, BLANK) + "}" + BLANK);
    CrossingText(root, key, last, rest);
  }

  lemma CrossingText(root: string, key: string, last: string, rest: string)
    ensures root + BLANK
            + ("{" + BLANK + (key + BLANK + ("\"" + OPENED + "\"" + BLANK) + ("\"b\"" + BLANK + last + rest))
               + "}" + BLANK)
            == root + " { " + key + " \"" + (OPENED + "\" \"b" + ("\" " + last + rest + "} "))
  {
    var head := root + " { " + key + " ";
    assert root + BLANK + ("{" + BLANK) + (key + BLANK) == head;
    var tail := "\" " + last + rest + "} ";
    assert "\"b\"" + BLANK + last + rest + "}" + BLANK == "\"b" + tail;
    assert "\"" + OPENED + "\"" + BLANK + ("\"b" + tail) == "\"" + (OPENED + "\" \"b" + tail);
    assert key + BLANK + ("\"" + OPENED + "\"" + BLANK) + ("\"b\"" + BLANK + last + rest) + "}" + BLANK
           == key + BLANK + ("\"" + (OPENED + "\" \"b" + tail));
  }

  /** A build id that was printed is the build id that is read. */
  lemma BuildIsReadBack(app: nat, es: seq<Entry>, branch: string, build: nat, gap: string)
    requires IsGap(gap) && Unambiguous(Object(es)) && PlainMembers(es) && build > 0
    requires Nested(Object(es), ["depots", "branches", branch, "buildid"]) == Ok(Decimal(build))
    ensures BuildIn(PrintRoot(Decimal(app), es, gap), app, branch) == Ok(build)
  {
    PlainStringsRoundTrip(Decimal(app), es, gap);
    LeadingDigitsFinds(Decimal(build), "");
    assert Decimal(build) + "" == Decimal(build);
  }
}

/** Valve's text metadata: the tokenizer, the recursive object parser and the lookup of a root,
    each a loop proved against a function, and what these functions mean. */
module Vdf {
  import opened Basics
  import opened Text

  // ---------------------------------------------------------------- tokens

  /** How long a quoted string's body is, given what follows the opening quote. A backslash takes
      the next character with it, except a line feed; without a closing quote there is no string. */
  function BodyLength(s: string): (r: Option<nat>)
    ensures r.Some? ==> r.value < |s| && s[r.value] == '"'
  {
    if s == "" then None
    else if s[0] == '"' then Some(0)
    else if s[0] == '\\' then
      if |s| < 2 || s[1] == '\n' then None
      else match BodyLength(s[2..]) case Some(n) => Some(n + 2) case None => None
    else match BodyLength(s[1..]) case Some(n) => Some(n + 1) case None => None
  }

  /** str.replace of the two characters `a b` by `c`. */
  function ReplacePair(s: string, a: char, b: char, c: char): string {
    if |s| < 2 then s
    else if s[0] == a && s[1] == b then [c] + ReplacePair(s[2..], a, b, c)
    else [s[0]] + ReplacePair(s[1..], a, b, c)
  }

  /** The two replacements, one after the other. */
  function Unescape(raw: string): string {
    ReplacePair(ReplacePair(raw, '\\', '"', '"'), '\\', '\\', '\\')
  }

  /** One pass over the escape pairs. */
  function UnescapeOnce(raw: string): string {
    if |raw| < 2 then raw
    else if raw[0] != '\\' then [raw[0]] + UnescapeOnce(raw[1..])
    else if raw[1] == '"' || raw[1] == '\\' then [raw[1]] + UnescapeOnce(raw[2..])
    else raw[..2] + UnescapeOnce(raw[2..])
  }

  /** How far the search for the next token moves on, and what it yields there. */
  function Step(s: string): (n: nat)
    requires s != ""
    ensures 0 < n <= |s|
  {
    if s[0] != '"' then 1
    else match BodyLength(s[1..]) case Some(n) => n + 2 case None => 1
  }

  function Yield(s: string): seq<string>
    requires s != ""
  {
    if s[0] == '{' || s[0] == '}' then [[s[0]]]
    else if Step(s) > 1 then [Unescape(s[1..Step(s) - 1])]
    else []
  }

  function Tokens(s: string): seq<string>
    decreases |s|
  {
    if s == "" then [] else Yield(s) + Tokens(s[Step(s)..])
  }

  lemma TokensAdvance(done: seq<string>, clean: string, i: nat)
    requires i < |clean|
    ensures done + Yield(clean[i..]) + Tokens(clean[i + Step(clean[i..])..]) == done + Tokens(clean[i..])
  {
    var rest := clean[i..];
    assert rest[Step(rest)..] == clean[i + Step(rest)..];
    assert done + Yield(rest) + Tokens(rest[Step(rest)..]) == done + (Yield(rest) + Tokens(rest[Step(rest)..]));
  }

  /** _vdf_tokens: every match of the token pattern, left to right. */
  method ReadTokens(text: string) returns (tokens: seq<string>)
    ensures tokens == Tokens(StripAnsi(text))
  {
    var clean := StripAnsi(text);
    var i := 0;
    tokens := [];
    while i < |clean|
      invariant 0 <= i <= |clean|
      invariant tokens + Tokens(clean[i..]) == Tokens(clean)
    {
      var rest := clean[i..];
      TokensAdvance(tokens, clean, i);
      tokens := tokens + Yield(rest);
      i := i + Step(rest);
    }
  }

  // ---------------------------------------------------------------- objects

  datatype Tree = Leaf(text: string) | Object(entries: seq<Entry>)

  datatype Entry = Entry(key: string, value: Tree)

  datatype Parsed = Parsed(entries: seq<Entry>, next: nat)

  function Keys(es: seq<Entry>): set<string> {
    set i | 0 <= i < |es| :: es[i].key
  }

  function ObjectAt(tokens: seq<string>, i: nat): (r: Result<Parsed>)
    ensures r.Ok? ==> i + 1 < r.value.next <= |tokens|
    decreases |tokens| - i, 0
  {
    if i >= |tokens| || tokens[i] != "{" then Err else MembersAt(tokens, i + 1, {})
  }

  /** The members from token `i` up to the closing brace, where `seen` are the keys before. */
  function MembersAt(tokens: seq<string>, i: nat, seen: set<string>): (r: Result<Parsed>)
    requires i <= |tokens|
    ensures r.Ok? ==> i < r.value.next <= |tokens|
    decreases |tokens| - i, 1
  {
    if i == |tokens| then Err
    else if tokens[i] == "}" then Ok(Parsed([], i + 1))
    else if tokens[i] == "{" || i + 1 == |tokens| || tokens[i] in seen then Err
    else
      var key := tokens[i];
      if tokens[i + 1] == "{" then
        match ObjectAt(tokens, i + 1)
        case Err => Err
        case Ok(inner) => Before(Entry(key, Object(inner.entries)), MembersAt(tokens, inner.next, seen + {key}))
      else Before(Entry(key, Leaf(tokens[i + 1])), MembersAt(tokens, i + 2, seen + {key}))
  }

  function Before(e: Entry, r: Result<Parsed>): Result<Parsed> {
    match r case Ok(p) => Ok(Parsed([e] + p.entries, p.next)) case Err => Err
  }

  /** What the whole loop returns, when `done` was collected so far. */
  function After(done: seq<Entry>, r: Result<Parsed>): Result<Parsed> {
    match r case Ok(p) => Ok(Parsed(done + p.entries, p.next)) case Err => Err
  }

  lemma AfterNothing(r: Result<Parsed>)
    ensures After([], r) == r && Keys([]) == {}
  {
    if r.Ok? {
      assert [] + r.value.entries == r.value.entries;
    }
  }

  lemma AfterOneMore(done: seq<Entry>, e: Entry, r: Result<Parsed>)
    ensures After(done, Before(e, r)) == After(done + [e], r)
    ensures Keys(done + [e]) == Keys(done) + {e.key}
  {
    if r.Ok? {
      assert done + ([e] + r.value.entries) == done + [e] + r.value.entries;
    }
    forall k | k in Keys(done) + {e.key} ensures k in Keys(done + [e]) {
      if k == e.key {
        assert (done + [e])[|done|].key == k;
      } else {
        var i :| 0 <= i < |done| && done[i].key == k;
        assert (done + [e])[i].key == k;
      }
    }
  }

  /** _parse_vdf_object. */
  method ParseObject(tokens: seq<string>, start: nat) returns (r: Result<Parsed>)
    ensures r == ObjectAt(tokens, start)
    decreases |tokens| - start
  {
    if start >= |tokens| || tokens[start] != "{" {
      return Err;
    }
    var result: seq<Entry> := [];
    var index := start + 1;
    AfterNothing(ObjectAt(tokens, start));
    while index < |tokens| && tokens[index] != "}"
      invariant start < index <= |tokens|
      invariant ObjectAt(tokens, start) == After(result, MembersAt(tokens, index, Keys(result)))
    {
      var key := tokens[index];
      ghost var at := index;
      index := index + 1;
      if key == "{" || key == "}" || index >= |tokens| {
        return Err;
      }
      var value;
      if tokens[index] == "{" {
        var inner := ParseObject(tokens, index);
        if inner.Err? {
          return Err;
        }
        value, index := Object(inner.value.entries), inner.value.next;
      } else {
        value, index := Leaf(tokens[index]), index + 1;
      }
      if key in Keys(result) {
        return Err;
      }
      AfterOneMore(result, Entry(key, value), MembersAt(tokens, index, Keys(result) + {key}));
      result := result + [Entry(key, value)];
    }
    if index >= |tokens| || tokens[index] != "}" {
      return Err;
    }
    assert result + [] == result;
    return Ok(Parsed(result, index + 1));
  }

  // ---------------------------------------------------------------- what the parser accepts

  function Flatten(v: Tree): seq<string> {
    match v
    case Leaf(text) => [text]
    case Object(es) => ["{"] + FlattenMembers(es) + ["}"]
  }

  function FlattenMembers(es: seq<Entry>): seq<string> {
    if es == [] then [] else [es[0].key] + Flatten(es[0].value) + FlattenMembers(es[1..])
  }

  /** Keys are unique within an object and no braces, and no value is an opening brace. A closing
      brace may be a value. */
  predicate Unambiguous(v: Tree) {
    match v
    case Leaf(text) => text != "{"
    case Object(es) => MembersUnambiguous(es, {})
  }

  predicate MembersUnambiguous(es: seq<Entry>, seen: set<string>) {
    es == [] || (&& es[0].key != "{" && es[0].key != "}" && es[0].key !in seen
                 && Unambiguous(es[0].value) && MembersUnambiguous(es[1..], seen + {es[0].key}))
  }

  /** A parse succeeds with an object exactly when the tokens read are that object spelled out,
      and the object is one that its spelling identifies. */
  lemma ParsesExactlySpellings(tokens: seq<string>, i: nat, es: seq<Entry>, next: nat)
    requires i <= next <= |tokens|
    ensures ObjectAt(tokens, i) == Ok(Parsed(es, next)) <==>
              tokens[i..next] == Flatten(Object(es)) && Unambiguous(Object(es))
  {
    if ObjectAt(tokens, i).Ok? {
      ObjectIsSpelled(tokens, i);
    }
    if tokens[i..next] == Flatten(Object(es)) && Unambiguous(Object(es)) {
      SpellingIsParsed(tokens, i, Object(es), next);
    }
  }

  lemma {:induction false} ObjectIsSpelled(tokens: seq<string>, i: nat)
    requires ObjectAt(tokens, i).Ok?
    ensures var p := ObjectAt(tokens, i).value;
      tokens[i..p.next] == Flatten(Object(p.entries)) && Unambiguous(Object(p.entries))
    decreases |tokens| - i, 0
  {
    MembersAreSpelled(tokens, i + 1, {});
    var next := ObjectAt(tokens, i).value.next;
    assert tokens[i..next] == [tokens[i]] + tokens[i + 1..next];
  }

  lemma Joined<T>(s: seq<T>, i: nat, mid: nat, next: nat, tail: seq<T>, end: seq<T>)
    requires i < mid <= next <= |s| && s[mid..next] == tail + end
    ensures s[i..next] == [s[i]] + s[i + 1..mid] + tail + end
  {
    assert s[i..next] == [s[i]] + s[i + 1..mid] + s[mid..next];
  }

  lemma Parted<T>(s: seq<T>, i: nat, mid: nat, next: nat, head: T, body: seq<T>, tail: seq<T>)
    requires i <= next <= |s| && s[i..next] == [head] + body + tail && mid == i + 1 + |body|
    ensures mid <= next && i < |s| && s[i] == head && s[i + 1..mid] == body && s[mid..next] == tail
  {
    var read := s[i..next];
    assert |read| == next - i && read[0] == s[i];
    assert s[i + 1..mid] == body by {
      forall k | 0 <= k < |body| ensures s[i + 1..mid][k] == body[k] {
        assert s[i + 1 + k] == read[1 + k];
      }
    }
    assert s[mid..next] == tail by {
      forall k | 0 <= k < |tail| ensures s[mid..next][k] == tail[k] {
        assert s[mid + k] == read[1 + |body| + k];
      }
    }
  }

  lemma {:induction false} MembersAreSpelled(tokens: seq<string>, i: nat, seen: set<string>)
    requires i <= |tokens| && MembersAt(tokens, i, seen).Ok?
    ensures var p := MembersAt(tokens, i, seen).value;
      tokens[i..p.next] == FlattenMembers(p.entries) + ["}"] && MembersUnambiguous(p.entries, seen)
    decreases |tokens| - i, 1
  {
    if tokens[i] != "}" {
      var mid := i + 2;
      if tokens[i + 1] == "{" {
        ObjectIsSpelled(tokens, i + 1);
        mid := ObjectAt(tokens, i + 1).value.next;
      }
      MembersAreSpelled(tokens, mid, seen + {tokens[i]});
      var p, rest := MembersAt(tokens, i, seen).value, MembersAt(tokens, mid, seen + {tokens[i]}).value;
      assert p.entries[1..] == rest.entries && p.next == rest.next;
      assert tokens[i + 1..mid] == Flatten(p.entries[0].value);
      Joined(tokens, i, mid, p.next, FlattenMembers(rest.entries), ["}"]);
    }
  }

  lemma {:induction false} SpellingIsParsed(tokens: seq<string>, i: nat, v: Tree, next: nat)
    requires i <= next <= |tokens| && tokens[i..next] == Flatten(v) && v.Object? && Unambiguous(v)
    ensures ObjectAt(tokens, i) == Ok(Parsed(v.entries, next))
    decreases v, 0
  {
    assert tokens[i] == tokens[i..next][0] == "{";
    assert tokens[i + 1..next] == tokens[i..next][1..] == FlattenMembers(v.entries) + ["}"];
    MembersParse(tokens, i + 1, {}, v.entries, next);
  }

  lemma {:induction false} MembersParse(tokens: seq<string>, i: nat, seen: set<string>, es: seq<Entry>, next: nat)
    requires i <= next <= |tokens| && tokens[i..next] == FlattenMembers(es) + ["}"] && MembersUnambiguous(es, seen)
    ensures MembersAt(tokens, i, seen) == Ok(Parsed(es, next))
    decreases es, 1
  {
    var read := tokens[i..next];
    if es == [] {
      assert read[0] == "}";
    } else {
      var key, value := es[0].key, es[0].value;
      var mid := i + 1 + |Flatten(value)|;
      assert read == [key] + Flatten(value) + (FlattenMembers(es[1..]) + ["}"]);
      Parted(tokens, i, mid, next, key, Flatten(value), FlattenMembers(es[1..]) + ["}"]);
      assert tokens[i + 1] == tokens[i + 1..mid][0];
      if value.Object? {
        SpellingIsParsed(tokens, i + 1, value, mid);
      }
      MembersParse(tokens, mid, seen + {key}, es[1..], next);
      assert [es[0]] + es[1..] == es;
    }
  }

  /** A closing brace is read as a value, so the braces of an object need not balance. */
  lemma ClosingBraceIsAValue(key: string)
    requires key != "{" && key != "}"
    ensures ObjectAt(["{", key, "}", "}"], 0) == Ok(Parsed([Entry(key, Leaf("}"))], 4))
  {
    var tokens, e := ["{", key, "}", "}"], Entry(key, Leaf("}"));
    assert tokens[0] == "{" && tokens[1] == key && tokens[2] == "}" && tokens[3] == "}";
    assert MembersAt(tokens, 3, {} + {key}) == Ok(Parsed([], 4));
    assert MembersAt(tokens, 1, {}) == Before(e, MembersAt(tokens, 3, {} + {key}));
    assert [e] + [] == [e];
  }

  // ---------------------------------------------------------------- roots and fields

  predicate IsRoot(tokens: seq<string>, root: string, k: nat) {
    k + 1 < |tokens| && tokens[k] == root && tokens[k + 1] == "{"
  }

  function RootFrom(tokens: seq<string>, root: string, k: nat): (r: Result<seq<Entry>>)
    decreases |tokens| - k
  {
    if k + 1 >= |tokens| then Err
    else if !IsRoot(tokens, root, k) then RootFrom(tokens, root, k + 1)
    else match ObjectAt(tokens, k + 1) case Ok(p) => Ok(p.entries) case Err => Err
  }

  function Root(text: string, root: string): Result<seq<Entry>> {
    RootFrom(Tokens(StripAnsi(text)), root, 0)
  }

  /** parse_vdf_root: the first `root` that stands before an opening brace decides. */
  method ParseRoot(text: string, root: string) returns (r: Result<seq<Entry>>)
    ensures r == Root(text, root)
  {
    var tokens := ReadTokens(text);
    var k := 0;
    while k + 1 < |tokens|
      invariant RootFrom(tokens, root, k) == RootFrom(tokens, root, 0)
    {
      if tokens[k] == root && tokens[k + 1] == "{" {
        var parsed := ParseObject(tokens, k + 1);
        return match parsed case Ok(p) => Ok(p.entries) case Err => Err;
      }
      k := k + 1;
    }
    return Err;
  }

  /** The tokens from `i` on begin with the spelling of an object that its spelling identifies. */
  predicate SpelledAt(tokens: seq<string>, i: nat, es: seq<Entry>) {
    && Unambiguous(Object(es)) && i + |Flatten(Object(es))| <= |tokens|
    && tokens[i..i + |Flatten(Object(es))|] == Flatten(Object(es))
  }

  /** The first place where the root is opened decides, and only by what is spelled there. */
  lemma {:induction false} FirstRootDecides(tokens: seq<string>, root: string, k: nat, i: nat, es: seq<Entry>)
    requires k <= i && IsRoot(tokens, root, i) && forall j: nat :: k <= j < i ==> !IsRoot(tokens, root, j)
    ensures RootFrom(tokens, root, k) == Ok(es) <==> SpelledAt(tokens, i + 1, es)
    decreases i - k
  {
    if k < i {
      FirstRootDecides(tokens, root, k + 1, i, es);
    } else {
      if RootFrom(tokens, root, k) == Ok(es) {
        ObjectIsSpelled(tokens, i + 1);
      }
      if SpelledAt(tokens, i + 1, es) {
        SpellingIsParsed(tokens, i + 1, Object(es), i + 1 + |Flatten(Object(es))|);
      }
    }
  }

  lemma {:induction false} NoRootNoResult(tokens: seq<string>, root: string, k: nat)
    requires forall j: nat :: k <= j ==> !IsRoot(tokens, root, j)
    ensures RootFrom(tokens, root, k).Err?
    decreases |tokens| - k
  {
    if k + 1 < |tokens| {
      NoRootNoResult(tokens, root, k + 1);
    }
  }

  function Find(es: seq<Entry>, key: string): Option<Tree> {
    if es == [] then None else if es[0].key == key then Some(es[0].value) else Find(es[1..], key)
  }

  function Nested(v: Tree, path: seq<string>): Result<string>
    decreases |path|
  {
    if path == [] then
      if v.Leaf? && v.text != "" then Ok(v.text) else Err
    else if v.Leaf? || Find(v.entries, path[0]).None? then Err
    else Nested(Find(v.entries, path[0]).value, path[1..])
  }

  /** _nested_string. */
  method NestedString(value: Tree, path: seq<string>) returns (r: Result<string>)
    ensures r == Nested(value, path)
  {
    var current, i := value, 0;
    while i < |path|
      invariant 0 <= i <= |path| && Nested(current, path[i..]) == Nested(value, path)
    {
      if current.Leaf? || Find(current.entries, path[i]).None? {
        return Err;
      }
      current := Find(current.entries, path[i]).value;
      i := i + 1;
    }
    if current.Object? || current.text == "" {
      return Err;
    }
    return Ok(current.text);
  }

  /** parse_app_info_build. */
  method ParseAppInfoBuild(text: string, app: nat, branch: string) returns (build: Result<nat>)
    ensures build == BuildIn(text, app, branch)
  {
    var root := ParseRoot(text, Decimal(app));
    if root.Err? {
      return Err;
    }
    var raw := NestedString(Object(root.value), ["depots", "branches", branch, "buildid"]);
    if raw.Err? || LeadingDigits(raw.value) < |raw.value| {
      return Err;
    }
    AllLeadingDigits(raw.value);
    if Value(raw.value) <= 0 {
      return Err;
    }
    return Ok(Value(raw.value));
  }

  function BuildIn(text: string, app: nat, branch: string): Result<nat> {
    match Root(text, Decimal(app))
    case Err => Err
    case Ok(es) =>
      match Nested(Object(es), ["depots", "branches", branch, "buildid"])
      case Err => Err
      case Ok(raw) =>
        if LeadingDigits(raw) < |raw| then Err
        else
          AllLeadingDigits(raw);
          if Value(raw) <= 0 then Err else Ok(Value(raw))
  }

  lemma {:induction false} AllLeadingDigits(s: string)
    requires LeadingDigits(s) == |s|
    ensures forall i :: 0 <= i < |s| ==> IsDigit(s[i])
  {
    if s != "" {
      AllLeadingDigits(s[1..]);
      assert s == [s[0]] + s[1..];
    }
  }
}

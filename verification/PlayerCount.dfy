/** The two strict readers of an RCON `players` response: the updater's and the watchdog's. */
module PlayerCount {
  import opened Basics
  import opened Text

  /** What follows `Players connected` and any spaces, if the line starts so. */
  function AfterConnected(line: string): Option<string> {
    match DropWord(line, "players")
    case None => None
    case Some(gap) =>
      if gap == "" || !IsSpace(gap[0]) then None
      else
        match DropWord(DropSpaces(gap), "connected")
        case None => None
        case Some(rest) => Some(DropSpaces(rest))
  }

  /** `Players connected (N)`, optionally with a colon. */
  function ParenthesizedHeader(line: string): Option<nat> {
    var rest := AfterConnected(line);
    if rest.None? || rest.value == "" || rest.value[0] != '(' then None
    else
      var x := DropSpaces(rest.value[1..]);
      var d := LeadingDigits(x);
      var y := DropSpaces(x[d..]);
      if d == 0 || y == "" || y[0] != ')' then None
      else
        var z := DropSpaces(y[1..]);
        var tail := if z != "" && z[0] == ':' then DropSpaces(z[1..]) else z;
        if tail == "" then Some(Value(Digits(x, d))) else None
  }

  /** `Players connected: N`. */
  function ColonHeader(line: string): Option<nat> {
    var rest := AfterConnected(line);
    if rest.None? || rest.value == "" || rest.value[0] != ':' then None
    else
      var x := DropSpaces(rest.value[1..]);
      var d := LeadingDigits(x);
      if d == 0 || d != |x| then None else Some(Value(Digits(x, d)))
  }

  function Digits(s: string, n: nat): (d: string)
    requires n <= LeadingDigits(s)
    ensures forall i :: 0 <= i < |d| ==> IsDigit(d[i])
    ensures d == s[..n]
  {
    if n == 0 then s[..0]
    else
      assert s[..n] == [s[0]] + s[1..][..n - 1];
      [s[0]] + Digits(s[1..], n - 1)
  }

  /** Exactly `n` list lines follow the header. */
  predicate Lists(lines: seq<string>, n: nat)
    requires lines != []
  {
    |lines| - 1 == n && forall i :: 0 < i < |lines| ==> lines[i] != "" && lines[i][0] == '-'
  }

  function ResponseLines(response: string): seq<string> {
    NonBlank(SplitLines(StripAnsi(response)))
  }

  /** src/pz_watchdog/rcon.py: the first header that matches decides. */
  function WatchdogCount(response: string): Result<nat> {
    var lines := ResponseLines(response);
    if lines == [] then Err
    else
      match ParenthesizedHeader(lines[0])
      case Some(n) => if Lists(lines, n) then Ok(n) else Err
      case None =>
        match ColonHeader(lines[0])
        case Some(n) => if Lists(lines, n) then Ok(n) else Err
        case None => Err
  }

  /** src/pz_updater/core.py: a header whose list does not fit lets the next one try. */
  function UpdaterCount(response: string): Result<nat> {
    var lines := ResponseLines(response);
    if lines == [] then Err
    else
      var first, second := ParenthesizedHeader(lines[0]), ColonHeader(lines[0]);
      if first.Some? && Lists(lines, first.value) then Ok(first.value)
      else if second.Some? && Lists(lines, second.value) then Ok(second.value)
      else Err
  }

  /** One count is read from a response exactly when its first line announces it and exactly
      that many list lines follow. */
  lemma CountIsExact(response: string, n: nat)
    ensures WatchdogCount(response) == Ok(n) <==>
      var lines := ResponseLines(response);
      && lines != [] && Lists(lines, n)
      && (ParenthesizedHeader(lines[0]) == Some(n) || ColonHeader(lines[0]) == Some(n))
  {
  }

  /** Both readers give the same answer to every response. */
  lemma ReadersAgree(response: string)
    ensures WatchdogCount(response) == UpdaterCount(response)
  {
  }

  // ---------------------------------------------------------------- reading back a listing

  function Header(n: nat): string {
    "Players connected (" + Decimal(n) + "):"
  }

  function Listing(names: seq<string>): string {
    if names == [] then "" else "-" + names[0] + "\n" + Listing(names[1..])
  }

  predicate PlainName(name: string) {
    forall i :: 0 <= i < |name| ==> !IsLineBreak(name[i]) && name[i] != ESC
  }

  lemma ConnectedIsRead(x: string)
    ensures AfterConnected("Players connected (" + x) == Some("(" + x)
  {
    DropSameWord("Players", "players", " connected (" + x);
    assert "Players connected (" + x == "Players" + (" connected (" + x);
    assert (" connected (" + x)[1..] == "connected" + (" (" + x);
    DropSpacesStops("connected" + (" (" + x));
    DropWordFinds("connected", " (" + x);
    assert (" (" + x)[1..] == "(" + x;
    DropSpacesStops("(" + x);
  }

  lemma CountInParentheses(line: string, n: nat)
    requires AfterConnected(line) == Some("(" + (Decimal(n) + "):"))
    ensures ParenthesizedHeader(line) == Some(n)
  {
    var d := Decimal(n);
    var x := d + "):";
    assert ("(" + x)[1..] == x;
    DropSpacesStops(x);
    LeadingDigitsFinds(d, "):");
    assert x[|d|..] == "):" && x[..|d|] == d;
    DropSpacesStops("):");
    assert "):"[1..] == ":" && ":"[1..] == "";
    DropSpacesStops(":");
  }

  lemma HeaderIsRead(n: nat)
    ensures ParenthesizedHeader(Header(n)) == Some(n)
    ensures Trim(Header(n)) == Header(n) && PlainName(Header(n)) && Header(n) != ""
  {
    var x := Decimal(n) + "):";
    assert Header(n) == "Players connected (" + x;
    ConnectedIsRead(x);
    CountInParentheses(Header(n), n);
    HeaderIsPlain(n);
  }

  lemma HeaderIsPlain(n: nat)
    ensures Trim(Header(n)) == Header(n) && PlainName(Header(n)) && Header(n) != ""
  {
    var header, digits := Header(n), Decimal(n);
    assert forall i :: 0 <= i < |digits| ==> !IsLineBreak(digits[i]) && digits[i] != ESC;
    assert header[0] == 'P' && header[|header| - 1] == ':';
    TrimKeepsHead(header);
  }

  lemma {:induction false} DropSameWord(w: string, v: string, rest: string)
    requires |w| == |v| && forall i :: 0 <= i < |w| ==> Lower(w[i]) == Lower(v[i])
    ensures DropWord(w + rest, v) == Some(rest)
  {
    if w == "" {
      assert w + rest == rest;
    } else {
      assert (w + rest)[1..] == w[1..] + rest;
      DropSameWord(w[1..], v[1..], rest);
    }
  }

  lemma FirstLineIsKept(line: string, rest: seq<string>)
    requires Trim(line) != ""
    ensures NonBlank([line] + rest) == [Trim(line)] + NonBlank(rest)
  {
    assert ([line] + rest)[1..] == rest;
  }

  lemma FirstNameIsRead(names: seq<string>)
    requires names != [] && PlainName(names[0])
    ensures var line := "-" + names[0];
      && Listing(names) == line + "\n" + Listing(names[1..])
      && NonBlank(SplitLines(Listing(names))) == [Trim(line)] + NonBlank(SplitLines(Listing(names[1..])))
      && Trim(line) != "" && Trim(line)[0] == '-'
  {
    var line, rest := "-" + names[0], Listing(names[1..]);
    assert SplitLines(line + "\n" + rest) == [line] + SplitLines(rest) by {
      SplitLinesAt(line, rest);
    }
    TrimKeepsHead(line);
    FirstLineIsKept(line, SplitLines(rest));
  }

  lemma {:induction false} ListingIsRead(names: seq<string>)
    requires forall i :: 0 <= i < |names| ==> PlainName(names[i])
    ensures var lines := NonBlank(SplitLines(Listing(names)));
      |lines| == |names| && forall i :: 0 <= i < |lines| ==> lines[i] != "" && lines[i][0] == '-'
  {
    if names != [] {
      ListingIsRead(names[1..]);
      FirstNameIsRead(names);
    }
  }

  lemma {:induction false} ListingHasNoEscape(names: seq<string>)
    requires forall i :: 0 <= i < |names| ==> PlainName(names[i])
    ensures forall i :: 0 <= i < |Listing(names)| ==> Listing(names)[i] != ESC
  {
    if names != [] {
      ListingHasNoEscape(names[1..]);
    }
  }

  lemma ResponseHasNoEscape(header: string, listing: string)
    requires PlainName(header) && forall i :: 0 <= i < |listing| ==> listing[i] != ESC
    ensures forall i :: 0 <= i < |header + "\n" + listing| ==> (header + "\n" + listing)[i] != ESC
  {
  }

  lemma ResponseIsSplit(header: string, names: seq<string>)
    requires PlainName(header) && Trim(header) == header && header != ""
    requires forall i :: 0 <= i < |names| ==> PlainName(names[i])
    ensures ResponseLines(header + "\n" + Listing(names)) == [header] + NonBlank(SplitLines(Listing(names)))
  {
    var listing := Listing(names);
    ListingHasNoEscape(names);
    assert StripAnsi(header + "\n" + listing) == header + "\n" + listing by {
      ResponseHasNoEscape(header, listing);
      TextWithoutEscapeIsPlain(header + "\n" + listing);
    }
    assert SplitLines(header + "\n" + listing) == [header] + SplitLines(listing) by {
      SplitLinesAt(header, listing);
    }
    NonBlankFirst(header, SplitLines(listing));
  }

  /** A listing of plain names is read back as its count if and only if the header tells the
      truth; a header that lies yields no count at all. */
  lemma ListingReadsBack(n: nat, names: seq<string>)
    requires forall i :: 0 <= i < |names| ==> PlainName(names[i])
    ensures WatchdogCount(Header(n) + "\n" + Listing(names)) == if n == |names| then Ok(n) else Err
  {
    var header := Header(n);
    HeaderIsRead(n);
    ListingIsRead(names);
    ResponseIsSplit(header, names);
    CountOf(header + "\n" + Listing(names), header, n);
  }

  lemma CountOf(response: string, header: string, n: nat)
    requires ResponseLines(response) != [] && ResponseLines(response)[0] == header
    requires ParenthesizedHeader(header) == Some(n)
    ensures WatchdogCount(response) == if Lists(ResponseLines(response), n) then Ok(n) else Err
  {
  }
}

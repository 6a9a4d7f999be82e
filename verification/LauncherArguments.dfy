/** The memory arguments of ProjectZomboid64.json. */
module LauncherArguments {
  import opened Basics
  import opened Text

  // ---------------------------------------------------------------- patterns

  /** `\d+[gGmM]`, the sizes the configuration admits among them. */
  predicate IsSize(s: string) {
    && |s| >= 2 && (forall i :: 0 <= i < |s| - 1 ==> IsDigit(s[i]))
    && (s[|s| - 1] == 'g' || s[|s| - 1] == 'G' || s[|s| - 1] == 'm' || s[|s| - 1] == 'M')
  }

  const XMS := "-Xms"
  const XMX := "-Xmx"

  datatype Flag = Initial | Maximum | Other

  function FlagOf(item: string): Flag {
    if |item| < 4 || !IsSize(item[4..]) then Other
    else if item[..4] == XMS then Initial
    else if item[..4] == XMX then Maximum
    else Other
  }

  function Write(flag: Flag, size: string): string {
    (if flag.Initial? then XMS else XMX) + size
  }

  lemma WrittenIsRead(flag: Flag, size: string)
    requires IsSize(size) && !flag.Other?
    ensures FlagOf(Write(flag, size)) == flag
  {
    var item := Write(flag, size);
    assert item[4..] == size && item[..4] == if flag.Initial? then XMS else XMX;
    assert XMS[3] != XMX[3];
  }

  function Indexes(items: seq<string>, flag: Flag): seq<nat> {
    if items == [] then []
    else
      var n := |items| - 1;
      Indexes(items[..n], flag) + if FlagOf(items[n]) == flag then [n] else []
  }

  lemma {:induction false} IndexesTell(items: seq<string>, flag: Flag)
    ensures |Indexes(items, flag)| == Count(items, flag)
    ensures forall i :: 0 <= i < |Indexes(items, flag)| ==>
              Indexes(items, flag)[i] < |items| && FlagOf(items[Indexes(items, flag)[i]]) == flag
    ensures forall i :: 0 <= i < |items| && FlagOf(items[i]) == flag ==> i in Indexes(items, flag)
  {
    if items != [] {
      IndexesTell(items[..|items| - 1], flag);
    }
  }

  /** Where the first argument of a kind stands. */
  lemma FirstIndex(items: seq<string>, flag: Flag)
    ensures |Indexes(items, flag)| == Count(items, flag)
    ensures Indexes(items, flag) != [] ==>
              Indexes(items, flag)[0] < |items| && FlagOf(items[Indexes(items, flag)[0]]) == flag
  {
    IndexesTell(items, flag);
  }

  function Count(items: seq<string>, flag: Flag): nat {
    if items == [] then 0
    else Count(items[..|items| - 1], flag) + if FlagOf(items[|items| - 1]) == flag then 1 else 0
  }

  /** All arguments that are not memory arguments, in order. */
  function Others(items: seq<string>): seq<string> {
    if items == [] then []
    else
      var rest := Others(items[..|items| - 1]);
      if FlagOf(items[|items| - 1]).Other? then rest + [items[|items| - 1]] else rest
  }

  // ---------------------------------------------------------------- the rewriting

  /** What the document says where it is read; None stands for a missing or mistyped field. */
  datatype Launcher = Launcher(mainClass: Option<string>, vmArgs: Option<seq<string>>)

  const GAME_SERVER := "zombie/network/GameServer"

  /** One initial and one maximum size, as configured, and nothing else touched: the maximum in
      its place, the initial in its place or right before the maximum. */
  predicate Configures(before: seq<string>, after: seq<string>, xms: string, xmx: string) {
    exists i, k :: 0 <= i < |after| && 0 <= k < |after| && ConfiguresAt(before, after, xms, xmx, i, k)
  }

  predicate ConfiguresAt(before: seq<string>, after: seq<string>, xms: string, xmx: string, i: nat, k: nat)
    requires i < |after| && k < |after|
  {
    && after[i] == Write(Initial, xms) && after[k] == Write(Maximum, xmx)
    && if Count(before, Initial) == 1
       then && |before| == |after| && FlagOf(before[i]).Initial? && FlagOf(before[k]).Maximum?
            && after == before[i := after[i]][k := after[k]]
       else && |after| == |before| + 1 && k == i + 1 && FlagOf(before[i]).Maximum?
            && after == before[..i] + [after[i], after[k]] + before[k..]
  }

  predicate HasPlace(items: seq<string>) {
    Count(items, Maximum) == 1 && Count(items, Initial) <= 1
  }

  lemma ReplacedIsConfigured(before: seq<string>, i: nat, k: nat, xms: string, xmx: string)
    requires i < |before| && k < |before| && FlagOf(before[i]).Initial? && FlagOf(before[k]).Maximum?
    requires Count(before, Initial) == 1
    ensures Configures(before, before[k := Write(Maximum, xmx)][i := Write(Initial, xms)], xms, xmx)
  {
    var after := before[k := Write(Maximum, xmx)][i := Write(Initial, xms)];
    assert i != k;
    assert after == before[i := after[i]][k := after[k]];
    assert ConfiguresAt(before, after, xms, xmx, i, k);
  }

  lemma Inserted<T>(before: seq<T>, k: nat, first: T, second: T)
    requires k < |before|
    ensures var half := before[k := second];
      var after := half[..k] + [first] + half[k..];
      |after| == |before| + 1 && after[k] == first && after[k + 1] == second
      && after == before[..k] + [first, second] + before[k + 1..]
  {
  }

  lemma InsertedIsConfigured(before: seq<string>, k: nat, xms: string, xmx: string)
    requires k < |before| && FlagOf(before[k]).Maximum? && Count(before, Initial) != 1
    ensures var half := before[k := Write(Maximum, xmx)];
      Configures(before, half[..k] + [Write(Initial, xms)] + half[k..], xms, xmx)
  {
    var half := before[k := Write(Maximum, xmx)];
    var after := half[..k] + [Write(Initial, xms)] + half[k..];
    Inserted(before, k, Write(Initial, xms), Write(Maximum, xmx));
    assert ConfiguresAt(before, after, xms, xmx, k, k + 1);
  }

  /** The list edits of LauncherValidator._configured_launcher_json. */
  method ConfigureArguments(items: seq<string>, xms: string, xmx: string) returns (r: Result<seq<string>>)
    ensures r.Ok? <==> HasPlace(items)
    ensures r.Ok? ==> Configures(items, r.value, xms, xmx)
  {
    var arguments := items;
    var xmsIndexes, xmxIndexes := Indexes(arguments, Initial), Indexes(arguments, Maximum);
    FirstIndex(items, Initial);
    FirstIndex(items, Maximum);
    if |xmsIndexes| > 1 || |xmxIndexes| != 1 {
      return Err;
    }
    var xmxIndex := xmxIndexes[0];
    arguments := arguments[xmxIndex := Write(Maximum, xmx)];
    if |xmsIndexes| > 0 {
      ReplacedIsConfigured(items, xmsIndexes[0], xmxIndex, xms, xmx);
      arguments := arguments[xmsIndexes[0] := Write(Initial, xms)];
    } else {
      InsertedIsConfigured(items, xmxIndex, xms, xmx);
      arguments := arguments[..xmxIndex] + [Write(Initial, xms)] + arguments[xmxIndex..];
    }
    return Ok(arguments);
  }

  /** LauncherValidator._configured_launcher_json. */
  method Configure(document: Launcher, xms: string, xmx: string) returns (r: Result<Launcher>)
    ensures r.Ok? <==>
              document.mainClass == Some(GAME_SERVER) && document.vmArgs.Some? && HasPlace(document.vmArgs.value)
    ensures r.Ok? ==> r.value.mainClass == document.mainClass && r.value.vmArgs.Some?
                      && Configures(document.vmArgs.value, r.value.vmArgs.value, xms, xmx)
  {
    if document.mainClass != Some(GAME_SERVER) || document.vmArgs.None? {
      return Err;
    }
    var arguments := ConfigureArguments(document.vmArgs.value, xms, xmx);
    if arguments.Err? {
      return Err;
    }
    return Ok(document.(vmArgs := Some(arguments.value)));
  }

  // ---------------------------------------------------------------- what it keeps

  lemma {:induction false} CountAdds(a: seq<string>, b: seq<string>, flag: Flag)
    ensures Count(a + b, flag) == Count(a, flag) + Count(b, flag)
    ensures Others(a + b) == Others(a) + Others(b)
  {
    if b == [] {
      assert a + b == a;
    } else {
      assert (a + b)[..|a + b| - 1] == a + b[..|b| - 1];
      CountAdds(a, b[..|b| - 1], flag);
    }
  }

  lemma OneReplaced(items: seq<string>, i: nat, item: string, flag: Flag)
    requires i < |items|
    ensures Count(items[i := item], flag)
            == Count(items, flag) + (if FlagOf(item) == flag then 1 else 0)
               - (if FlagOf(items[i]) == flag then 1 else 0)
    ensures !FlagOf(items[i]).Other? && !FlagOf(item).Other? ==> Others(items[i := item]) == Others(items)
  {
    var a, b := items[..i], items[i + 1..];
    assert items == a + [items[i]] + b && items[i := item] == a + [item] + b;
    CountAdds(a + [items[i]], b, flag);
    CountAdds(a, [items[i]], flag);
    CountAdds(a + [item], b, flag);
    CountAdds(a, [item], flag);
    assert [items[i]][..0] == [] && [item][..0] == [];
  }

  lemma OneInserted(items: seq<string>, i: nat, item: string, flag: Flag)
    requires i <= |items| && !FlagOf(item).Other?
    ensures Count(items[..i] + [item] + items[i..], flag) == Count(items, flag) + if FlagOf(item) == flag then 1 else 0
    ensures Others(items[..i] + [item] + items[i..]) == Others(items)
  {
    var a, b := items[..i], items[i..];
    assert items == a + b;
    CountAdds(a, b, flag);
    CountAdds(a + [item], b, flag);
    CountAdds(a, [item], flag);
    assert [item][..0] == [];
  }

  /** Exactly one size of each kind is left, and every other argument is kept, in order. */
  lemma ConfiguringKeepsOthers(before: seq<string>, after: seq<string>, xms: string, xmx: string)
    requires IsSize(xms) && IsSize(xmx) && Configures(before, after, xms, xmx)
    requires HasPlace(before)
    ensures HasPlace(after) && Count(after, Initial) == 1 && Others(after) == Others(before)
    ensures Write(Initial, xms) in after && Write(Maximum, xmx) in after
  {
    var i, k :| 0 <= i < |after| && 0 <= k < |after| && ConfiguresAt(before, after, xms, xmx, i, k);
    WrittenIsRead(Initial, xms);
    WrittenIsRead(Maximum, xmx);
    var first, second := Write(Initial, xms), Write(Maximum, xmx);
    if Count(before, Initial) == 1 {
      var half := before[i := first];
      OneReplaced(before, i, first, Initial);
      OneReplaced(before, i, first, Maximum);
      OneReplaced(half, k, second, Initial);
      OneReplaced(half, k, second, Maximum);
    } else {
      var half := before[i := second];
      assert after == half[..i] + [first] + half[i..];
      OneReplaced(before, i, second, Initial);
      OneReplaced(before, i, second, Maximum);
      OneInserted(half, i, first, Initial);
      OneInserted(half, i, first, Maximum);
    }
  }

  /** Configuring again with the same sizes changes nothing. */
  lemma ConfiguringAgainChangesNothing(before: seq<string>, once: seq<string>, twice: seq<string>,
                                       xms: string, xmx: string)
    requires IsSize(xms) && IsSize(xmx)
    requires HasPlace(before)
    requires Configures(before, once, xms, xmx) && Configures(once, twice, xms, xmx)
    ensures twice == once
  {
    ConfiguringKeepsOthers(before, once, xms, xmx);
    WrittenIsRead(Initial, xms);
    WrittenIsRead(Maximum, xmx);
    var i, k :| 0 <= i < |once| && 0 <= k < |once| && ConfiguresAt(before, once, xms, xmx, i, k);
    var j, m :| 0 <= j < |twice| && 0 <= m < |twice| && ConfiguresAt(once, twice, xms, xmx, j, m);
    SoleIndex(once, Initial, i, j);
    SoleIndex(once, Maximum, k, m);
    assert once[i] == twice[i] && once[k] == twice[k];
    SameAgain(once, twice, i, k);
  }

  lemma SameAgain<T>(once: seq<T>, twice: seq<T>, i: nat, k: nat)
    requires i < |once| && k < |once| && i < |twice| && k < |twice| && once[i] == twice[i] && once[k] == twice[k]
    requires twice == once[i := twice[i]][k := twice[k]]
    ensures twice == once
  {
  }

  lemma SoleIndex(items: seq<string>, flag: Flag, i: nat, j: nat)
    requires Count(items, flag) == 1 && i < |items| && j < |items| && FlagOf(items[i]) == flag
    requires FlagOf(items[j]) == flag
    ensures i == j
  {
    IndexesTell(items, flag);
    var r := Indexes(items, flag);
    assert i in r && j in r && r == [r[0]];
  }
}

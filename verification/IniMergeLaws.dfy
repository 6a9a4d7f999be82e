/** What merges of managed lines keep, change and repeat. */
module IniMergeLaws {
  import opened Basics
  import opened IniMerge

  // ---------------------------------------------------------------- managed keys and lines

  /** A managed key is the key of a rendered setting, and its line is the last such setting. */
  predicate IsLastSetting(lines: seq<Line>, i: nat, key: string) {
    && i < |lines| && lines[i].IsSetting() && lines[i].key == key
    && forall j :: i < j < |lines| ==> !(lines[j].IsSetting() && lines[j].key == key)
  }

  lemma {:induction false} ManagedIsLastSetting(lines: seq<Line>, i: nat, key: string)
    requires IsLastSetting(lines, i, key)
    ensures key in ManagedOf(lines) && ManagedOf(lines)[key] == lines[i]
  {
    var n := |lines| - 1;
    if i < n {
      assert IsLastSetting(lines[..n], i, key);
      ManagedIsLastSetting(lines[..n], i, key);
    }
  }

  lemma {:induction false} ManagedIsRendered(lines: seq<Line>, key: string) returns (i: nat)
    requires key in ManagedOf(lines)
    ensures IsLastSetting(lines, i, key) && ManagedOf(lines)[key] == lines[i]
  {
    var n := |lines| - 1;
    if lines[n].IsSetting() && lines[n].key == key {
      i := n;
    } else {
      i := ManagedIsRendered(lines[..n], key);
    }
  }

  /** Each managed line carries its own key. */
  predicate SelfKeyed(m: Managed) {
    forall key :: key in m ==> m[key].IsSetting() && m[key].key == key
  }

  lemma ManagedIsSelfKeyed(lines: seq<Line>)
    ensures SelfKeyed(ManagedOf(lines))
  {
    forall key | key in ManagedOf(lines) 
      ensures ManagedOf(lines)[key].IsSetting() && ManagedOf(lines)[key].key == key
    {
      var i := ManagedIsRendered(lines, key);
    }
  }

  // ---------------------------------------------------------------- comments

  lemma {:induction false} FirstFieldKeepsHead(text: string)
    ensures var field, rest := DropBlanks(FirstField(text)), DropBlanks(text);
      if rest == "" || rest[0] == '=' then field == "" else field != "" && field[0] == rest[0]
  {
    if text != "" && IsBlank(text[0]) {
      assert FirstField(text)[1..] == FirstField(text[1..]);
      FirstFieldKeepsHead(text[1..]);
    }
  }

  /** No comment is ever replaced, even one that looks like `#key=value`. */
  lemma CommentsAreNotReplaced(rendered: seq<Line>, text: string)
    requires AllRead(rendered) && LooksLikeComment(text)
    ensures !Replaced(ManagedOf(rendered), Read(text))
  {
    if Read(text).key in ManagedOf(rendered) {
      var i := ManagedIsRendered(rendered, Read(text).key);
      FirstFieldKeepsHead(text);
      FirstFieldKeepsHead(rendered[i].text);
      assert false;
    }
  }

  // ---------------------------------------------------------------- what one merge keeps

  function Unmanaged(m: Managed, lines: seq<Line>): seq<Line> {
    if lines == [] then []
    else if Replaced(m, lines[0]) then Unmanaged(m, lines[1..])
    else [lines[0]] + Unmanaged(m, lines[1..])
  }

  function Count(m: Managed, key: string, lines: seq<Line>): nat {
    if lines == [] then 0
    else (if Replaced(m, lines[0]) && lines[0].key == key then 1 else 0) + Count(m, key, lines[1..])
  }

  function Times(key: string, order: seq<string>): nat {
    if order == [] then 0 else (if order[0] == key then 1 else 0) + Times(key, order[1..])
  }

  /** Every managed line reads as rendered. */
  predicate AsRendered(m: Managed, lines: seq<Line>) {
    forall i :: 0 <= i < |lines| && Replaced(m, lines[i]) ==> lines[i] == m[lines[i].key]
  }

  lemma {:induction false} UnmanagedAdds(m: Managed, a: seq<Line>, b: seq<Line>)
    ensures Unmanaged(m, a + b) == Unmanaged(m, a) + Unmanaged(m, b)
  {
    if a == [] {
      assert a + b == b;
    } else {
      assert (a + b)[1..] == a[1..] + b;
      UnmanagedAdds(m, a[1..], b);
    }
  }

  lemma {:induction false} CountAdds(m: Managed, key: string, a: seq<Line>, b: seq<Line>)
    ensures Count(m, key, a + b) == Count(m, key, a) + Count(m, key, b)
  {
    if a == [] {
      assert a + b == b;
    } else {
      assert (a + b)[1..] == a[1..] + b;
      CountAdds(m, key, a[1..], b);
    }
  }

  lemma {:induction false} BodyKeepsUnmanaged(m: Managed, lines: seq<Line>, emitted: set<string>)
    requires SelfKeyed(m)
    ensures Unmanaged(m, Body(m, lines, emitted)) == Unmanaged(m, lines)
    ensures AsRendered(m, Body(m, lines, emitted))
  {
    if lines != [] {
      var line, key := lines[0], lines[0].key;
      var more := if Replaced(m, line) && key !in emitted then emitted + {key} else emitted;
      var rest := Body(m, lines[1..], more);
      BodyKeepsUnmanaged(m, lines[1..], more);
      if !Replaced(m, line) {
        assert ([line] + rest)[1..] == rest;
      } else if key !in emitted {
        assert ([m[key]] + rest)[1..] == rest;
      }
    }
  }

  lemma {:induction false} MissingIsManaged(m: Managed, order: seq<string>, emitted: set<string>, key: string)
    requires SelfKeyed(m) && forall i :: 0 <= i < |order| ==> order[i] in m
    ensures Unmanaged(m, Missing(m, order, emitted)) == [] && AsRendered(m, Missing(m, order, emitted))
    ensures Count(m, key, Missing(m, order, emitted)) == if key in emitted then 0 else Times(key, order)
  {
    if order != [] {
      MissingIsManaged(m, order[1..], emitted, key);
      var rest := Missing(m, order[1..], emitted);
      assert ([m[order[0]]] + rest)[1..] == rest;
    }
  }

  lemma {:induction false} BodyCountsOnce(m: Managed, lines: seq<Line>, emitted: set<string>, key: string)
    requires SelfKeyed(m) && key in m
    ensures Count(m, key, Body(m, lines, emitted)) == if key !in emitted && key in KeysIn(m, lines) then 1 else 0
  {
    if lines != [] {
      var line, head := lines[0], lines[0].key;
      var more := if Replaced(m, line) && head !in emitted then emitted + {head} else emitted;
      var rest := Body(m, lines[1..], more);
      BodyCountsOnce(m, lines[1..], more, key);
      KeysInSplit(m, lines);
      if !Replaced(m, line) {
        assert ([line] + rest)[1..] == rest;
      } else if head !in emitted {
        assert ([m[head]] + rest)[1..] == rest;
      }
    }
  }

  lemma KeysInSplit(m: Managed, lines: seq<Line>)
    requires lines != []
    ensures KeysIn(m, lines) == (if Replaced(m, lines[0]) then {lines[0].key} else {}) + KeysIn(m, lines[1..])
  {
    forall key | key in KeysIn(m, lines[1..]) ensures key in KeysIn(m, lines) {
      var i :| 0 <= i < |lines| - 1 && Replaced(m, lines[1..][i]) && lines[1..][i].key == key;
      assert lines[i + 1] == lines[1..][i];
    }
    forall key | key in KeysIn(m, lines) 
      ensures (Replaced(m, lines[0]) && key == lines[0].key) || key in KeysIn(m, lines[1..])
    {
      var i :| 0 <= i < |lines| && Replaced(m, lines[i]) && lines[i].key == key;
      assert i > 0 ==> lines[1..][i - 1] == lines[i];
    }
  }

  /** Unmanaged lines, comments among them, survive a merge in order and number. Every managed
      line of the result is the rendered one, and a managed key occurs once if the file had it,
      and otherwise as often as it was rendered. */
  lemma MergeKeeps(rendered: seq<Line>, lines: seq<Line>, key: string)
    requires rendered != []
    ensures var m, merged := ManagedOf(rendered), Merge(rendered, Some(lines));
      && Unmanaged(m, merged) == Unmanaged(m, lines)
      && AsRendered(m, merged)
      && (key in m ==>
            Count(m, key, merged) == if key in KeysIn(m, lines) then 1 else Times(key, OrderOf(rendered)))
  {
    var m, order := ManagedOf(rendered), OrderOf(rendered);
    ManagedIsSelfKeyed(rendered);
    OrderIsManaged(rendered);
    var body, missing := Body(m, lines, {}), Missing(m, order, KeysIn(m, lines));
    BodyKeepsUnmanaged(m, lines, {});
    MissingIsManaged(m, order, KeysIn(m, lines), key);
    UnmanagedAdds(m, body, missing);
    if key in m {
      BodyCountsOnce(m, lines, {}, key);
      CountAdds(m, key, body, missing);
    }
  }

  // ---------------------------------------------------------------- merging again

  /** Nothing is left to do: each managed key once, as rendered. */
  predicate Settled(m: Managed, lines: seq<Line>, emitted: set<string>) {
    lines == []
    || (if !Replaced(m, lines[0]) then Settled(m, lines[1..], emitted)
        else
          var key := lines[0].key;
          lines[0] == m[key] && key !in emitted && Settled(m, lines[1..], emitted + {key}))
  }

  lemma {:induction false} SettledIsFixed(m: Managed, lines: seq<Line>, emitted: set<string>)
    ensures Body(m, lines, emitted) == lines <==> Settled(m, lines, emitted)
  {
    if lines != [] {
      var key := lines[0].key;
      var more := if Replaced(m, lines[0]) && key !in emitted then emitted + {key} else emitted;
      SettledIsFixed(m, lines[1..], more);
      var rest := Body(m, lines[1..], more);
      assert lines == [lines[0]] + lines[1..];
      if !Replaced(m, lines[0]) {
        assert ([lines[0]] + rest)[1..] == rest;
      } else if key !in emitted {
        assert ([m[key]] + rest)[1..] == rest && ([m[key]] + rest)[0] == m[key];
      }
    }
  }

  lemma SettledFirst(m: Managed, line: Line, rest: seq<Line>, tail: seq<Line>, emitted: set<string>)
    ensures Settled(m, [line] + rest + tail, emitted) <==>
              if !Replaced(m, line) then Settled(m, rest + tail, emitted)
              else line == m[line.key] && line.key !in emitted && Settled(m, rest + tail, emitted + {line.key})
  {
    assert ([line] + rest + tail)[0] == line && ([line] + rest + tail)[1..] == rest + tail;
  }

  /** What was merged is settled up to the lines added at its end. */
  lemma {:induction false} BodyIsSettled(m: Managed, lines: seq<Line>, emitted: set<string>, tail: seq<Line>)
    requires SelfKeyed(m)
    ensures Settled(m, Body(m, lines, emitted) + tail, emitted) <==> Settled(m, tail, emitted + KeysIn(m, lines))
  {
    if lines == [] {
      assert Body(m, lines, emitted) + tail == tail && emitted + KeysIn(m, lines) == emitted;
    } else {
      var line, key := lines[0], lines[0].key;
      var more := if Replaced(m, line) && key !in emitted then emitted + {key} else emitted;
      BodyIsSettled(m, lines[1..], more, tail);
      KeysInSplit(m, lines);
      assert more + KeysIn(m, lines[1..]) == emitted + KeysIn(m, lines);
      if !Replaced(m, line) {
        SettledFirst(m, line, Body(m, lines[1..], more), tail, emitted);
      } else if key !in emitted {
        SettledFirst(m, m[key], Body(m, lines[1..], more), tail, emitted);
      }
    }
  }

  predicate NoRepeats(order: seq<string>, emitted: set<string>) {
    forall i, j :: 0 <= i < j < |order| && order[i] == order[j] ==> order[i] in emitted
  }

  lemma {:induction false} MissingIsSettled(m: Managed, order: seq<string>, emitted: set<string>, seen: set<string>)
    requires SelfKeyed(m) && emitted <= seen && forall i :: 0 <= i < |order| ==> order[i] in m
    ensures Settled(m, Missing(m, order, emitted), seen) <==>
              NoRepeats(order, emitted) && forall i :: 0 <= i < |order| && order[i] in seen ==> order[i] in emitted
  {
    if order != [] {
      var key, rest := order[0], Missing(m, order[1..], emitted);
      assert ([m[key]] + rest)[1..] == rest && ([m[key]] + rest)[0] == m[key];
      var more := if key in emitted then seen else seen + {key};
      MissingIsSettled(m, order[1..], emitted, more);
      RepeatsSplit(order, emitted);
      if key !in emitted {
        assert forall i :: 0 < i < |order| ==> order[1..][i - 1] == order[i];
      }
    }
  }

  lemma RepeatsSplit(order: seq<string>, emitted: set<string>)
    requires order != []
    ensures NoRepeats(order, emitted) <==>
              NoRepeats(order[1..], emitted)
              && (order[0] in emitted || forall j :: 0 < j < |order| ==> order[j] != order[0])
  {
    forall i, j | NoRepeats(order, emitted) && 0 <= i < j < |order| - 1 && order[1..][i] == order[1..][j]
      ensures order[1..][i] in emitted
    {
      assert order[i + 1] == order[j + 1];
    }
    forall i, j | NoRepeats(order[1..], emitted) && 0 < i < j < |order| && order[i] == order[j]
      ensures order[i] in emitted
    {
      assert order[1..][i - 1] == order[1..][j - 1];
    }
  }

  /** A key that occurs needs no addition at the end. */
  lemma {:induction false} NothingMissing(m: Managed, order: seq<string>, emitted: set<string>)
    requires forall i :: 0 <= i < |order| ==> order[i] in m
    requires forall i :: 0 <= i < |order| ==> order[i] in emitted
    ensures Missing(m, order, emitted) == []
  {
    if order != [] {
      NothingMissing(m, order[1..], emitted);
    }
  }

  lemma {:induction false} CountedKeyOccurs(m: Managed, key: string, lines: seq<Line>)
    ensures Count(m, key, lines) > 0 <==> key in KeysIn(m, lines)
  {
    if lines != [] {
      CountedKeyOccurs(m, key, lines[1..]);
      KeysInSplit(m, lines);
    }
  }

  lemma {:induction false} OrderedKeyCounts(key: string, order: seq<string>)
    ensures Times(key, order) > 0 <==> key in order
  {
    if order != [] {
      OrderedKeyCounts(key, order[1..]);
      assert order == [order[0]] + order[1..];
    }
  }

  /** A file that has every rendered key is left alone exactly when it is settled. */
  lemma MergeFixes(rendered: seq<Line>, lines: seq<Line>)
    requires rendered != [] && forall key :: key in OrderOf(rendered) ==> key in KeysIn(ManagedOf(rendered), lines)
    ensures Merge(rendered, Some(lines)) == lines <==> Settled(ManagedOf(rendered), lines, {})
  {
    var m := ManagedOf(rendered);
    OrderIsManaged(rendered);
    NothingMissing(m, OrderOf(rendered), KeysIn(m, lines));
    SettledIsFixed(m, lines, {});
    assert Body(m, lines, {}) + [] == Body(m, lines, {});
  }

  lemma MergedHasEveryKey(rendered: seq<Line>, lines: seq<Line>)
    requires rendered != []
    ensures forall key :: key in OrderOf(rendered) ==>
              key in KeysIn(ManagedOf(rendered), Merge(rendered, Some(lines)))
  {
    var m := ManagedOf(rendered);
    forall key | key in OrderOf(rendered) ensures key in KeysIn(m, Merge(rendered, Some(lines))) {
      OrderIsManaged(rendered);
      MergeKeeps(rendered, lines, key);
      OrderedKeyCounts(key, OrderOf(rendered));
      CountedKeyOccurs(m, key, Merge(rendered, Some(lines)));
    }
  }

  /** Merging a second time changes nothing exactly when every key that was rendered more than
      once stood in the file before. */
  lemma SecondMergeChangesNothing(rendered: seq<Line>, lines: seq<Line>)
    requires rendered != []
    ensures var once := Merge(rendered, Some(lines));
      Merge(rendered, Some(once)) == once
      <==> NoRepeats(OrderOf(rendered), KeysIn(ManagedOf(rendered), lines))
  {
    var m, order := ManagedOf(rendered), OrderOf(rendered);
    ManagedIsSelfKeyed(rendered);
    OrderIsManaged(rendered);
    MergedHasEveryKey(rendered, lines);
    MergeFixes(rendered, Merge(rendered, Some(lines)));
    BodyIsSettled(m, lines, {}, Missing(m, order, KeysIn(m, lines)));
    assert {} + KeysIn(m, lines) == KeysIn(m, lines);
    MissingIsSettled(m, order, KeysIn(m, lines), KeysIn(m, lines));
  }

  // ---------------------------------------------------------------- the two other starts

  /** An installed file is left alone by the next merge exactly when no key was rendered twice. */
  lemma InstalledFileIsKept(rendered: seq<Line>)
    requires AllRead(rendered) && rendered != []
    ensures Merge(rendered, Some(Merge(rendered, None))) == rendered <==> NoRepeats(OrderOf(rendered), {})
  {
    var m := ManagedOf(rendered);
    forall key | key in OrderOf(rendered) ensures key in KeysIn(m, rendered) {
      OrderIsManaged(rendered);
      var i := ManagedIsRendered(rendered, key);
      assert Replaced(m, rendered[i]);
    }
    MergeFixes(rendered, rendered);
    RenderingSettles(rendered, 0);
    assert rendered[0..] == rendered && KeysIn(m, rendered[..0]) == {};
    RepeatsAreRepeatedSettings(rendered);
  }

  predicate SameSetting(a: Line, b: Line) {
    a.IsSetting() && b.IsSetting() && a.key == b.key
  }

  /** No earlier setting has the key of line `j`. */
  predicate IsNew(lines: seq<Line>, j: nat)
    requires j < |lines|
  {
    forall i :: 0 <= i < j ==> !SameSetting(lines[i], lines[j])
  }

  predicate UniqueFrom(lines: seq<Line>, k: nat) {
    forall j :: k <= j < |lines| ==> IsNew(lines, j)
  }

  /** Where nothing repeats, each setting is the last of its key. */
  lemma NewSettingIsManaged(rendered: seq<Line>, k: nat)
    requires k < |rendered| && UniqueFrom(rendered, k) && rendered[k].IsSetting()
    ensures rendered[k].key in ManagedOf(rendered) && ManagedOf(rendered)[rendered[k].key] == rendered[k]
  {
    var last := LastWithKey(rendered, k);
    ManagedIsLastSetting(rendered, last, rendered[k].key);
    assert IsNew(rendered, last) ==> last == k;
  }

  lemma {:induction false} RenderingSettles(rendered: seq<Line>, k: nat)
    requires AllRead(rendered) && k <= |rendered|
    ensures Settled(ManagedOf(rendered), rendered[k..], KeysIn(ManagedOf(rendered), rendered[..k]))
            <==> UniqueFrom(rendered, k)
    decreases |rendered| - k
  {
    if k < |rendered| {
      var m, line := ManagedOf(rendered), rendered[k];
      var seen := KeysIn(m, rendered[..k]);
      RenderingSettles(rendered, k + 1);
      OneMoreKey(m, rendered, k);
      assert rendered[k..][1..] == rendered[k + 1..] && seen + {} == seen;
      ReplacedIsSetting(rendered, k);
      assert UniqueFrom(rendered, k) <==> IsNew(rendered, k) && UniqueFrom(rendered, k + 1);
      if line.IsSetting() {
        EarlierKeys(rendered, k);
        if UniqueFrom(rendered, k) {
          NewSettingIsManaged(rendered, k);
        }
      }
    }
  }

  lemma ReplacedIsSetting(rendered: seq<Line>, k: nat)
    requires AllRead(rendered) && k < |rendered|
    ensures Replaced(ManagedOf(rendered), rendered[k]) <==> rendered[k].IsSetting()
  {
    if rendered[k].comment {
      CommentsAreNotReplaced(rendered, rendered[k].text);
    }
    if rendered[k].IsSetting() {
      var last := LastWithKey(rendered, k);
      ManagedIsLastSetting(rendered, last, rendered[k].key);
    }
  }

  lemma LastWithKey(lines: seq<Line>, k: nat) returns (last: nat)
    requires k < |lines| && lines[k].IsSetting()
    ensures IsLastSetting(lines, last, lines[k].key) && last >= k
    decreases |lines| - k
  {
    if j :| k < j < |lines| && lines[j].IsSetting() && lines[j].key == lines[k].key {
      last := LastWithKey(lines, j);
    } else {
      last := k;
    }
  }

  lemma EarlierKeys(rendered: seq<Line>, k: nat)
    requires AllRead(rendered) && k < |rendered| && rendered[k].IsSetting()
    ensures rendered[k].key in KeysIn(ManagedOf(rendered), rendered[..k]) <==> !IsNew(rendered, k)
  {
    var m, key := ManagedOf(rendered), rendered[k].key;
    if key in KeysIn(m, rendered[..k]) {
      var i :| 0 <= i < k && Replaced(m, rendered[..k][i]) && rendered[..k][i].key == key;
      ReplacedIsSetting(rendered, i);
      assert SameSetting(rendered[i], rendered[k]);
    }
    if i :| 0 <= i < k && SameSetting(rendered[i], rendered[k]) {
      ReplacedIsSetting(rendered, i);
      assert Replaced(m, rendered[..k][i]);
    }
  }

  predicate KeyOccurs(lines: seq<Line>, key: string) {
    exists i :: 0 <= i < |lines| && lines[i].IsSetting() && lines[i].key == key
  }

  lemma {:induction false} OrderHoldsKeys(lines: seq<Line>, key: string)
    ensures key in OrderOf(lines) <==> KeyOccurs(lines, key)
  {
    if lines != [] {
      var n := |lines| - 1;
      OrderHoldsKeys(lines[..n], key);
      if i :| 0 <= i < n && lines[i].IsSetting() && lines[i].key == key {
        assert lines[..n][i].IsSetting();
      }
    }
  }

  lemma {:induction false} RepeatsAreRepeatedSettings(lines: seq<Line>)
    ensures NoRepeats(OrderOf(lines), {}) <==> UniqueFrom(lines, 0)
  {
    if lines != [] {
      var n := |lines| - 1;
      var init, last := lines[..n], lines[n];
      RepeatsAreRepeatedSettings(init);
      assert UniqueFrom(lines, 0) <==> UniqueFrom(init, 0) && IsNew(lines, n) by {
        forall j | 0 <= j < n ensures IsNew(lines, j) <==> IsNew(init, j) {
          assert forall i :: 0 <= i <= j ==> init[i] == lines[i];
        }
      }
      if last.IsSetting() {
        OrderHoldsKeys(init, last.key);
        LastRepeat(OrderOf(init), last.key);
        assert KeyOccurs(init, last.key) <==> !IsNew(lines, n) by {
          assert forall i :: 0 <= i < n ==> init[i] == lines[i];
        }
      } else {
        assert OrderOf(lines) == OrderOf(init);
      }
    }
  }

  lemma LastRepeat(order: seq<string>, key: string)
    ensures NoRepeats(order + [key], {}) <==> NoRepeats(order, {}) && key !in order
  {
    var longer := order + [key];
    assert longer[|order|] == key && forall i :: 0 <= i < |order| ==> longer[i] == order[i];
    assert key in order ==> exists i :: 0 <= i < |order| && longer[i] == longer[|order|];
  }

  predicate AllSettings(lines: seq<Line>) {
    forall i :: 0 <= i < |lines| ==> lines[i].IsSetting()
  }

  predicate EqualKeysEqualLines(lines: seq<Line>) {
    forall i, j :: 0 <= i < j < |lines| && lines[i].key == lines[j].key ==> lines[i] == lines[j]
  }

  /** Merging an empty rendering is not the identity: awk then takes the file for the rendering
      and prints only its settings, each as last given. It changes nothing exactly when the file
      has settings alone and equal keys have equal lines. */
  lemma EmptyRenderingKeepsSettingsOnly(lines: seq<Line>)
    ensures Merge([], Some(lines)) == lines <==> AllSettings(lines) && EqualKeysEqualLines(lines)
  {
    var m, order := ManagedOf(lines), OrderOf(lines);
    OrderIsManaged(lines);
    assert KeysIn(m, []) == {};
    var merged := Missing(m, order, {});
    assert Merge([], Some(lines)) == merged;
    AllMissing(m, order);
    OrderIsShort(lines);
    if AllSettings(lines) {
      SettingsAreGivenLast(lines, merged);
    }
  }

  lemma SettingsAreGivenLast(lines: seq<Line>, merged: seq<Line>)
    requires AllSettings(lines) && |merged| == |lines|
    requires forall i :: 0 <= i < |lines| ==> lines[i].key in ManagedOf(lines)
    requires forall i :: 0 <= i < |lines| ==> merged[i] == ManagedOf(lines)[lines[i].key]
    ensures merged == lines <==> EqualKeysEqualLines(lines)
  {
    if EqualKeysEqualLines(lines) {
      forall i | 0 <= i < |lines| ensures merged[i] == lines[i] {
        var last := LastWithKey(lines, i);
        ManagedIsLastSetting(lines, last, lines[i].key);
      }
    }
  }

  lemma {:induction false} AllMissing(m: Managed, order: seq<string>)
    requires forall i :: 0 <= i < |order| ==> order[i] in m
    ensures |Missing(m, order, {})| == |order|
    ensures forall i :: 0 <= i < |order| ==> Missing(m, order, {})[i] == m[order[i]]
  {
    if order != [] {
      AllMissing(m, order[1..]);
    }
  }

  lemma {:induction false} OrderIsShort(lines: seq<Line>)
    ensures |OrderOf(lines)| <= |lines|
    ensures |OrderOf(lines)| == |lines| <==> forall i :: 0 <= i < |lines| ==> lines[i].IsSetting()
    ensures |OrderOf(lines)| == |lines| ==> forall i :: 0 <= i < |lines| ==> OrderOf(lines)[i] == lines[i].key
  {
    if lines != [] {
      OrderIsShort(lines[..|lines| - 1]);
    }
  }
}

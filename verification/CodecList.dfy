/** The codec list of the settings page: enabled codecs first, in the user's order, then the others. */
module CodecList {
  import opened Prelude

  type Codec = nat

  datatype Row = Row(codec: Codec, enabled: bool)

  /** What the rows mean: the codecs switched on, in order of preference, and those switched off. */
  datatype Choice = Choice(on: seq<Codec>, off: seq<Codec>)

  datatype Click = Toggle(idx: nat) | Up(idx: nat) | Down(idx: nat)

  function RowsOf(c: Choice): (rows: seq<Row>)
    ensures |rows| == |c.on| + |c.off|
    ensures forall k | 0 <= k < |rows| ::
              rows[k] == if k < |c.on| then Row(c.on[k], true) else Row(c.off[k - |c.on|], false)
  {
    seq(|c.on| + |c.off|,
        k requires 0 <= k < |c.on| + |c.off| =>
          if k < |c.on| then Row(c.on[k], true) else Row(c.off[k - |c.on|], false))
  }

  // ----- one click -----

  function Without<T>(s: seq<T>, i: nat): seq<T>
    requires i < |s|
  {
    s[..i] + s[i + 1..]
  }

  function Swapped<T>(s: seq<T>, i: nat): seq<T>
    requires i + 1 < |s|
  {
    s[i := s[i + 1]][i + 1 := s[i]]
  }

  predicate CanClick(c: Choice, click: Click) {
    match click
    case Toggle(i) => i < |c.on| + |c.off|
    case Up(i) => 0 < i < |c.on|
    case Down(i) => i + 1 < |c.on|
  }

  /** Enabling puts a codec last among the enabled; disabling puts it first among the others; arrows swap neighbours. */
  function Clicked(c: Choice, click: Click): Choice
    requires CanClick(c, click)
  {
    match click
    case Toggle(i) =>
      if i < |c.on| then Choice(Without(c.on, i), [c.on[i]] + c.off)
      else Choice(c.on + [c.off[i - |c.on|]], Without(c.off, i - |c.on|))
    case Up(i) => c.(on := Swapped(c.on, i - 1))
    case Down(i) => c.(on := Swapped(c.on, i))
  }

  /** The codecs a choice is about, each with its number of rows. */
  function Codecs(c: Choice): multiset<Codec> {
    multiset(c.on) + multiset(c.off)
  }

  lemma WithoutIsOneLess<T>(s: seq<T>, i: nat)
    requires i < |s|
    ensures multiset(Without(s, i)) + multiset{s[i]} == multiset(s)
  {
    assert s == s[..i] + [s[i]] + s[i + 1..];
  }

  lemma SwappedIsPermutation<T>(s: seq<T>, i: nat)
    requires i + 1 < |s|
    ensures multiset(Swapped(s, i)) == multiset(s)
  {
    assert s == s[..i] + [s[i]] + [s[i + 1]] + s[i + 2..];
    assert Swapped(s, i) == s[..i] + [s[i + 1]] + [s[i]] + s[i + 2..];
  }

  lemma ToggleKeepsCodecs(c: Choice, i: nat)
    requires CanClick(c, Toggle(i))
    ensures Codecs(Clicked(c, Toggle(i))) == Codecs(c)
  {
    if i < |c.on| {
      WithoutIsOneLess(c.on, i);
      assert multiset([c.on[i]] + c.off) == multiset{c.on[i]} + multiset(c.off);
    } else {
      WithoutIsOneLess(c.off, i - |c.on|);
      assert multiset(c.on + [c.off[i - |c.on|]]) == multiset(c.on) + multiset{c.off[i - |c.on|]};
    }
  }

  lemma ClickKeepsCodecs(c: Choice, click: Click)
    requires CanClick(c, click)
    ensures Codecs(Clicked(c, click)) == Codecs(c)
  {
    match click {
      case Toggle(i) => ToggleKeepsCodecs(c, i);
      case Up(i) => SwappedIsPermutation(c.on, i - 1);
      case Down(i) => SwappedIsPermutation(c.on, i);
    }
  }

  /** An arrow exchanges two neighbours of the preference order and moves nothing else; the other arrow undoes it. */
  lemma ArrowsExchange(c: Choice, i: nat)
    requires CanClick(c, Up(i))
    ensures var d := Clicked(c, Up(i));
            && |d.on| == |c.on| && d.off == c.off && d.on[i - 1] == c.on[i] && d.on[i] == c.on[i - 1]
            && (forall k | 0 <= k < |c.on| && k != i && k != i - 1 :: d.on[k] == c.on[k])
            && Clicked(c, Down(i - 1)) == d && Clicked(d, Down(i - 1)) == c
  {
    var d := Clicked(c, Up(i));
    assert Clicked(d, Down(i - 1)).on == c.on;
  }

  lemma WithoutAround<T>(s: seq<T>, i: nat)
    requires i < |s|
    ensures s == Without(s, i)[..i] + [s[i]] + Without(s, i)[i..]
  {
    assert Without(s, i)[..i] == s[..i] && Without(s, i)[i..] == s[i + 1..];
  }

  /** A click on a checked box takes the codec out of its place, the others keeping theirs, and puts it first below. */
  lemma DisablingMovesToBorder(c: Choice, i: nat)
    requires i < |c.on|
    ensures var d := Clicked(c, Toggle(i));
            d.off == [c.on[i]] + c.off && c.on == d.on[..i] + [c.on[i]] + d.on[i..]
  {
    WithoutAround(c.on, i);
  }

  /** A click on an unchecked one does the same the other way: the codec goes last above. */
  lemma EnablingMovesToBorder(c: Choice, i: nat)
    requires i < |c.off|
    ensures var d := Clicked(c, Toggle(|c.on| + i));
            d.on == c.on + [c.off[i]] && c.off == d.off[..i] + [c.off[i]] + d.off[i..]
  {
    WithoutAround(c.off, i);
  }

  // ----- the first list -----

  function Kept(s: seq<Codec>, other: seq<Codec>, inside: bool): seq<Codec> {
    if s == [] then []
    else
      var rest := Kept(s[..|s| - 1], other, inside);
      if (s[|s| - 1] in other) == inside then rest + [s[|s| - 1]] else rest
  }

  function Start(enabled: seq<Codec>, all: seq<Codec>): Choice {
    Choice(Kept(enabled, all, true), Kept(all, enabled, false))
  }

  /** Multiplicity of one codec in the list kept. */
  lemma {:induction false} KeptCount(s: seq<Codec>, other: seq<Codec>, inside: bool, c: Codec)
    ensures multiset(Kept(s, other, inside))[c] == if (c in other) == inside then multiset(s)[c] else 0
  {
    if s != [] {
      assert s == s[..|s| - 1] + [s[|s| - 1]];
      KeptCount(s[..|s| - 1], other, inside, c);
    }
  }

  lemma {:induction false} DistinctCount(s: seq<Codec>, c: Codec)
    requires Distinct(s)
    ensures multiset(s)[c] == if c in s then 1 else 0
  {
    if s != [] {
      var init := s[..|s| - 1];
      assert s == init + [s[|s| - 1]];
      assert s[|s| - 1] !in init;
      DistinctCount(init, c);
    }
  }

  /** From duplicate-free inputs the first rows list every supported codec exactly once. */
  lemma StartListsAll(enabled: seq<Codec>, all: seq<Codec>)
    requires Distinct(enabled) && Distinct(all)
    ensures Codecs(Start(enabled, all)) == multiset(all)
  {
    forall c: Codec ensures Codecs(Start(enabled, all))[c] == multiset(all)[c] {
      KeptCount(enabled, all, true, c);
      KeptCount(all, enabled, false, c);
      DistinctCount(enabled, c);
      DistinctCount(all, c);
    }
  }

  lemma {:induction false} KeptAll(s: seq<Codec>, other: seq<Codec>, inside: bool)
    requires forall c | c in s :: (c in other) == inside
    ensures Kept(s, other, inside) == s
  {
    if s != [] {
      KeptAll(s[..|s| - 1], other, inside);
      assert s == s[..|s| - 1] + [s[|s| - 1]];
    }
  }

  lemma {:induction false} KeptNone(s: seq<Codec>, other: seq<Codec>, inside: bool)
    requires forall c | c in s :: (c in other) != inside
    ensures Kept(s, other, inside) == []
  {
    if s != [] {
      KeptNone(s[..|s| - 1], other, inside);
    }
  }

  /** Every element of one list occurs in the other, in the same order. */
  predicate InOrder(s: seq<Codec>, t: seq<Codec>) {
    if s == [] then true
    else if t == [] then false
    else if s[|s| - 1] == t[|t| - 1] then InOrder(s[..|s| - 1], t[..|t| - 1])
    else InOrder(s, t[..|t| - 1])
  }

  lemma {:induction false} KeptInOrder(s: seq<Codec>, other: seq<Codec>, inside: bool)
    requires Distinct(s)
    ensures InOrder(Kept(s, other, inside), s)
  {
    if s != [] {
      var init, last := s[..|s| - 1], s[|s| - 1];
      KeptInOrder(init, other, inside);
      var kept := Kept(init, other, inside);
      KeptCount(init, other, inside, last);
      assert last !in init;
      assert (kept + [last])[..|kept|] == kept;
    }
  }

  /** Both lists keep their order, and when only supported codecs are enabled the user's is kept whole. */
  lemma StartKeepsOrder(enabled: seq<Codec>, all: seq<Codec>)
    requires Distinct(enabled) && Distinct(all)
    ensures var c := Start(enabled, all);
            && InOrder(c.on, enabled) && InOrder(c.off, all)
            && ((forall x | x in enabled :: x in all) ==> c.on == enabled)
            && (enabled == [] ==> c.off == all) && (enabled == all ==> c.off == [])
  {
    KeptInOrder(enabled, all, true);
    KeptInOrder(all, enabled, false);
    if forall x | x in enabled :: x in all {
      KeptAll(enabled, all, true);
    }
    if enabled == [] {
      KeptAll(all, enabled, false);
    }
    if enabled == all {
      KeptNone(all, enabled, false);
    }
  }

  // ----- runs of clicks -----

  function After(c: Choice, clicks: seq<Click>): Option<Choice>
    decreases |clicks|
  {
    if clicks == [] then Some(c)
    else if !CanClick(c, clicks[0]) then None
    else After(Clicked(c, clicks[0]), clicks[1..])
  }

  lemma AfterFirst(c: Choice, click: Click, rest: seq<Click>)
    requires CanClick(c, click)
    ensures After(c, [click] + rest) == After(Clicked(c, click), rest)
  {
    assert ([click] + rest)[1..] == rest;
  }

  lemma {:induction false} AfterBoth(c: Choice, first: seq<Click>, second: seq<Click>)
    requires After(c, first).Some?
    ensures After(c, first + second) == After(After(c, first).value, second)
    decreases |first|
  {
    if first == [] {
      assert first + second == second;
    } else {
      assert (first + second)[1..] == first[1..] + second;
      AfterBoth(Clicked(c, first[0]), first[1..], second);
    }
  }

  /** No run of clicks adds, loses or doubles a codec. */
  lemma {:induction false} RunKeepsCodecs(c: Choice, clicks: seq<Click>)
    requires After(c, clicks).Some?
    ensures Codecs(After(c, clicks).value) == Codecs(c)
    decreases |clicks|
  {
    if clicks != [] {
      ClickKeepsCodecs(c, clicks[0]);
      RunKeepsCodecs(Clicked(c, clicks[0]), clicks[1..]);
    }
  }

  lemma {:induction false} SingleCountsAreDistinct(s: seq<Codec>)
    requires forall c | c in s :: multiset(s)[c] <= 1
    ensures Distinct(s)
  {
    if s != [] {
      var init, last := s[..|s| - 1], s[|s| - 1];
      assert s == init + [last];
      assert multiset(s)[last] == multiset(init)[last] + 1;
      forall c | c in init ensures multiset(init)[c] <= 1 {
        assert c in s;
      }
      SingleCountsAreDistinct(init);
    }
  }

  /** Whatever is clicked, the enabled codecs are supported ones without duplicates. */
  lemma RunKeepsSelectionDistinct(enabled: seq<Codec>, all: seq<Codec>, clicks: seq<Click>)
    requires Distinct(enabled) && Distinct(all) && After(Start(enabled, all), clicks).Some?
    ensures var on := After(Start(enabled, all), clicks).value.on;
            Distinct(on) && forall c | c in on :: c in all
  {
    var end := After(Start(enabled, all), clicks).value;
    StartListsAll(enabled, all);
    RunKeepsCodecs(Start(enabled, all), clicks);
    forall c | c in end.on ensures multiset(end.on)[c] <= 1 && c in all {
      DistinctCount(all, c);
      assert Codecs(end)[c] == multiset(all)[c];
    }
    SingleCountsAreDistinct(end.on);
  }

  // ----- every order can be reached -----

  function ClearAll(c: Choice): seq<Click>
    decreases |c.on|
  {
    if c.on == [] then []
    else
      var click := Toggle(|c.on| - 1);
      [click] + ClearAll(Clicked(c, click))
  }

  lemma {:induction false} ClearAllClears(c: Choice)
    ensures After(c, ClearAll(c)).Some? && After(c, ClearAll(c)).value.on == []
    decreases |c.on|
  {
    if c.on != [] {
      var click := Toggle(|c.on| - 1);
      ClearAllClears(Clicked(c, click));
      AfterFirst(c, click, ClearAll(Clicked(c, click)));
    }
  }

  function IndexIn(s: seq<Codec>, c: Codec): (i: nat)
    requires c in s
    ensures i < |s| && s[i] == c
  {
    if s[0] == c then 0 else 1 + IndexIn(s[1..], c)
  }

  /** A target not reached yet: its first codecs are on, in order, and all of it is listed. */
  predicate Filling(c: Choice, target: seq<Codec>) {
    c.on <= target && Distinct(target) && forall x | x in target :: x in Codecs(c)
  }

  lemma NextIsOff(c: Choice, target: seq<Codec>)
    requires Filling(c, target) && |c.on| < |target|
    ensures target[|c.on|] in c.off
  {
    var next := target[|c.on|];
    assert next in target && next !in c.on;
    assert next in Codecs(c);
  }

  /** The click that puts the next codec of the target on. */
  function NextClick(c: Choice, target: seq<Codec>): (click: Click)
    requires Filling(c, target) && |c.on| < |target|
    ensures CanClick(c, click) && Clicked(c, click).on == c.on + [target[|c.on|]]
  {
    NextIsOff(c, target);
    Toggle(|c.on| + IndexIn(c.off, target[|c.on|]))
  }

  lemma StillFilling(c: Choice, target: seq<Codec>)
    requires Filling(c, target) && |c.on| < |target|
    ensures Filling(Clicked(c, NextClick(c, target)), target)
  {
    ClickKeepsCodecs(c, NextClick(c, target));
    assert c.on + [target[|c.on|]] == target[..|c.on| + 1];
  }

  function Fill(c: Choice, target: seq<Codec>): seq<Click>
    requires Filling(c, target)
    decreases |target| - |c.on|
  {
    if |c.on| == |target| then []
    else
      StillFilling(c, target);
      [NextClick(c, target)] + Fill(Clicked(c, NextClick(c, target)), target)
  }

  lemma {:induction false} FillFills(c: Choice, target: seq<Codec>)
    requires Filling(c, target)
    ensures After(c, Fill(c, target)).Some? && After(c, Fill(c, target)).value.on == target
    decreases |target| - |c.on|
  {
    if |c.on| < |target| {
      var click := NextClick(c, target);
      var next := Clicked(c, click);
      StillFilling(c, target);
      FillFills(next, target);
      AfterFirst(c, click, Fill(next, target));
    }
  }

  lemma EveryOrderIsReachable(c: Choice, target: seq<Codec>) returns (clicks: seq<Click>)
    requires Distinct(target) && forall x | x in target :: x in Codecs(c)
    ensures After(c, clicks).Some? && After(c, clicks).value.on == target
  {
    ClearAllClears(c);
    var cleared := After(c, ClearAll(c)).value;
    RunKeepsCodecs(c, ClearAll(c));
    FillFills(cleared, target);
    AfterBoth(c, ClearAll(c), Fill(cleared, target));
    clicks := ClearAll(c) + Fill(cleared, target);
  }

  ghost predicate Reachable(c: Choice, target: seq<Codec>) {
    exists clicks :: After(c, clicks).Some? && After(c, clicks).value.on == target
  }

  /** The orders a user can choose are exactly the duplicate-free lists of supported codecs. */
  lemma ReachableIff(enabled: seq<Codec>, all: seq<Codec>, target: seq<Codec>)
    requires Distinct(enabled) && Distinct(all)
    ensures Reachable(Start(enabled, all), target) <==> Distinct(target) && forall x | x in target :: x in all
  {
    var c := Start(enabled, all);
    StartListsAll(enabled, all);
    if Distinct(target) && forall x | x in target :: x in all {
      var clicks := EveryOrderIsReachable(c, target);
    }
    if Reachable(c, target) {
      var clicks :| After(c, clicks).Some? && After(c, clicks).value.on == target;
      RunKeepsSelectionDistinct(enabled, all, clicks);
    }
  }

  // ----- the widget -----

  function Dropped(c: Choice, idx: nat): Choice
    requires idx < |c.on| + |c.off|
  {
    if idx < |c.on| then c.(on := Without(c.on, idx)) else c.(off := Without(c.off, idx - |c.on|))
  }

  /** With a row put in between the enabled ones and the others. */
  function Inserted(c: Choice, row: Row): Choice {
    if row.enabled then c.(on := c.on + [row.codec]) else c.(off := [row.codec] + c.off)
  }

  lemma DroppedRows(c: Choice, idx: nat)
    requires idx < |c.on| + |c.off|
    ensures RowsOf(c)[..idx] + RowsOf(c)[idx + 1..] == RowsOf(Dropped(c, idx))
  {
  }

  lemma InsertedRows(c: Choice, row: Row)
    ensures RowsOf(c)[..|c.on|] + [row] + RowsOf(c)[|c.on|..] == RowsOf(Inserted(c, row))
  {
  }

  class Widget {
    var rows: seq<Row>
    /** Every list handed to the change callback, oldest first. */
    var emitted: seq<seq<Codec>>
    ghost var choice: Choice

    ghost predicate Valid()
      reads this
    {
      rows == RowsOf(choice)
    }

    constructor (enabled: seq<Codec>, all: seq<Codec>)
      ensures Valid() && choice == Start(enabled, all) && emitted == []
    {
      rows, emitted := [], [];
      choice := Choice([], []);
      new;
      for i := 0 to |enabled|
        invariant Valid() && emitted == [] && choice == Choice(Kept(enabled[..i], all, true), [])
      {
        assert enabled[..i + 1][..i] == enabled[..i];
        if enabled[i] in all {
          rows := rows + [Row(enabled[i], true)];
          choice := choice.(on := choice.on + [enabled[i]]);
        }
      }
      assert enabled[..|enabled|] == enabled;
      for i := 0 to |all|
        invariant Valid() && emitted == []
        invariant choice == Choice(Kept(enabled, all, true), Kept(all[..i], enabled, false))
      {
        assert all[..i + 1][..i] == all[..i];
        if all[i] !in enabled {
          rows := rows + [Row(all[i], false)];
          choice := choice.(off := choice.off + [all[i]]);
        }
      }
      assert all[..|all|] == all;
    }

    method LastEnabled() returns (last: int)
      requires Valid()
      ensures last == |choice.on| - 1
    {
      last := -1;
      for i := 0 to |rows|
        invariant last == Min(i, |choice.on|) - 1
      {
        if rows[i].enabled {
          last := i;
        }
      }
    }

    /** The callback gets exactly the enabled codecs, in their order. */
    method Emit()
      requires Valid()
      modifies this`emitted
      ensures emitted == old(emitted) + [choice.on]
    {
      var codecs := [];
      for i := 0 to |rows|
        invariant codecs == choice.on[..Min(i, |choice.on|)]
      {
        if rows[i].enabled {
          codecs := codecs + [rows[i].codec];
        }
      }
      assert choice.on[..|choice.on|] == choice.on;
      emitted := emitted + [codecs];
    }

    /** The checkbox of row idx: out of its place, flipped, and in again after the last enabled row. */
    method ToggleRow(idx: nat)
      requires Valid() && idx < |rows|
      modifies this
      ensures Valid() && choice == Clicked(old(choice), Toggle(idx))
      ensures emitted == old(emitted) + [choice.on]
    {
      var lastEnabled := LastEnabled();
      var row := rows[idx].(enabled := !rows[idx].enabled);
      DroppedRows(choice, idx);
      choice := Dropped(choice, idx);
      rows := rows[..idx] + rows[idx + 1..];
      if !row.enabled {
        lastEnabled := LastEnabled();
      }
      InsertedRows(choice, row);
      choice := Inserted(choice, row);
      rows := rows[..lastEnabled + 1] + [row] + rows[lastEnabled + 1..];
      Emit();
    }

    predicate UpDisabled(idx: nat)
      requires idx < |rows|
      reads this
    {
      !rows[idx].enabled || idx == 0 || !rows[idx - 1].enabled
    }

    method MoveUp(idx: nat)
      requires Valid() && idx < |rows| && !UpDisabled(idx)
      modifies this
      ensures old(CanClick(choice, Up(idx)))
      ensures Valid() && choice == Clicked(old(choice), Up(idx))
      ensures emitted == old(emitted) + [choice.on]
    {
      choice := Clicked(choice, Up(idx));
      rows := rows[idx - 1 := rows[idx]][idx := rows[idx - 1]];
      assert rows == RowsOf(choice);
      Emit();
    }

    predicate DownDisabled(idx: nat, lastEnabled: int)
      requires idx < |rows|
      reads this
    {
      !rows[idx].enabled || idx >= lastEnabled
    }

    method MoveDown(idx: nat, lastEnabled: int)
      requires Valid() && idx < |rows| && lastEnabled == |choice.on| - 1 && !DownDisabled(idx, lastEnabled)
      modifies this
      ensures old(CanClick(choice, Down(idx)))
      ensures Valid() && choice == Clicked(old(choice), Down(idx))
      ensures emitted == old(emitted) + [choice.on]
    {
      choice := Clicked(choice, Down(idx));
      rows := rows[idx := rows[idx + 1]][idx + 1 := rows[idx]];
      assert rows == RowsOf(choice);
      Emit();
    }

    /** A button is usable exactly when its click means something for the choice. */
    lemma ButtonsMatchClicks(idx: nat, lastEnabled: int)
      requires Valid() && idx < |rows| && lastEnabled == |choice.on| - 1
      ensures !UpDisabled(idx) <==> CanClick(choice, Up(idx))
      ensures !DownDisabled(idx, lastEnabled) <==> CanClick(choice, Down(idx))
    {
    }
  }
}

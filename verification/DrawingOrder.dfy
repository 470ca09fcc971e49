/**
 * The drawing order of screens and of a screen's root widgets. However a view came to its configuration, by a whole
 * build or by patches, the order is the one that the configuration's list and z-indices give.
 */
module DrawingOrder {
  import Common
  import opened Sorting

  /** `record` is what else the screen's own record says, `widgets` what its widgets come to. */
  datatype Screen = Screen(id: nat, group: nat, z: int, isOverlay: bool, record: nat, widgets: nat)

  type Key = Screen -> int

  // Stable sorting.

  ghost predicate IsOrdered(s: seq<Screen>, key: Key) { forall i, j :: 0 <= i < j < |s| ==> key(s[i]) <= key(s[j]) }

  /** The elements with one key, in order. */
  function Having(s: seq<Screen>, key: Key, k: int): seq<Screen> {
    if |s| == 0 then [] else Only(s[0], key, k) + Having(s[1..], key, k)
  }

  function Only(x: Screen, key: Key, k: int): seq<Screen> { if key(x) == k then [x] else [] }

  /** `t` is `s` in the order of the keys, and equal ones stay in their order. */
  ghost predicate IsStableSort(t: seq<Screen>, s: seq<Screen>, key: Key) {
    IsOrdered(t, key) && forall k :: Having(t, key, k) == Having(s, key, k)
  }

  lemma HavingCons(x: Screen, s: seq<Screen>, key: Key, k: int)
    ensures Having([], key, k) == []
    ensures Having([x] + s, key, k) == Only(x, key, k) + Having(s, key, k)
  {
    assert ([x] + s)[1..] == s;
  }

  lemma {:induction false} HavingAppend(a: seq<Screen>, b: seq<Screen>, key: Key, k: int)
    ensures Having(a + b, key, k) == Having(a, key, k) + Having(b, key, k)
    decreases |a|
  {
    hide Having, Only;
    if |a| == 0 {
      assert a + b == b;
      assert Having(a, key, k) == [] by {
        HavingNone(a, key, k);
      }
      assert [] + Having(b, key, k) == Having(b, key, k);
    } else {
      var x, rest := a[0], a[1..];
      HavingAppend(rest, b, key, k);
      HavingCons(x, rest, key, k);
      HavingCons(x, rest + b, key, k);
      assert a == [x] + rest && a + b == [x] + (rest + b);
      Regrouped(Only(x, key, k), Having(rest, key, k), Having(b, key, k));
    }
  }

  lemma Regrouped<T>(a: seq<T>, b: seq<T>, c: seq<T>)
    ensures a + (b + c) == a + b + c
  {
  }

  lemma {:induction false} HavingFinds(s: seq<Screen>, key: Key, i: nat)
    requires i < |s|
    ensures s[i] in Having(s, key, key(s[i]))
    ensures Having(s, key, key(s[i]))[0] == s[0] || key(s[0]) != key(s[i])
    decreases i
  {
    if i == 0 {
    } else {
      HavingFinds(s[1..], key, i - 1);
    }
  }

  lemma {:induction false} HavingIsThere(s: seq<Screen>, key: Key, k: int)
    ensures forall x :: x in Having(s, key, k) <==> x in s && key(x) == k
  {
    if |s| == 0 {
    } else {
      HavingIsThere(s[1..], key, k);
      assert s == [s[0]] + s[1..];
    }
  }

  lemma {:induction false} HavingNone(s: seq<Screen>, key: Key, k: int)
    requires forall i :: 0 <= i < |s| ==> key(s[i]) != k
    ensures Having(s, key, k) == []
  {
    if |s| == 0 {
    } else {
      HavingNone(s[1..], key, k);
    }
  }

  lemma TailIsOrdered(s: seq<Screen>, key: Key)
    requires |s| > 0 && IsOrdered(s, key)
    ensures IsOrdered(s[1..], key) && s == [s[0]] + s[1..]
  {
  }

  /** There is only one stable sort. */
  lemma {:induction false} StableSortIsUnique(t: seq<Screen>, u: seq<Screen>, key: Key)
    requires IsOrdered(t, key) && IsOrdered(u, key)
    requires forall k :: Having(t, key, k) == Having(u, key, k)
    ensures t == u
    decreases |t|
  {
    hide Having, Only, IsOrdered;
    if |t| == 0 {
      if |u| > 0 {
        SameHead(u, t, key);
      }
    } else {
      SameHead(t, u, key);
      TailIsOrdered(t, key);
      TailIsOrdered(u, key);
      forall k ensures Having(t[1..], key, k) == Having(u[1..], key, k) {
        SameTail(t, u, key, k);
      }
      StableSortIsUnique(t[1..], u[1..], key);
    }
  }

  lemma SameTail(t: seq<Screen>, u: seq<Screen>, key: Key, k: int)
    requires |t| > 0 && |u| > 0 && t[0] == u[0] && Having(t, key, k) == Having(u, key, k)
    ensures Having(t[1..], key, k) == Having(u[1..], key, k)
  {
    hide Only;
    var head := Only(t[0], key, k);
    assert Having(t, key, k) == head + Having(t[1..], key, k) == head + Having(u[1..], key, k);
    SamePrefix(head, Having(t[1..], key, k), Having(u[1..], key, k));
  }

  lemma SamePrefix<T>(a: seq<T>, b: seq<T>, c: seq<T>)
    requires a + b == a + c
    ensures b == c
  {
    assert (a + b)[|a|..] == b && (a + c)[|a|..] == c;
  }

  lemma SameHead(t: seq<Screen>, u: seq<Screen>, key: Key)
    requires IsOrdered(t, key) && IsOrdered(u, key) && |t| > 0
    requires forall k :: Having(t, key, k) == Having(u, key, k)
    ensures |u| > 0 && t[0] == u[0]
  {
    hide Having;
    HavingFinds(t, key, 0);
    HavingIsThere(u, key, key(t[0]));
    assert t[0] in u;
    HavingFinds(u, key, 0);
    HavingIsThere(t, key, key(u[0]));
    assert u[0] in t;
    assert key(t[0]) == key(u[0]);
    HavingFinds(t, key, 0);
    HavingFinds(u, key, 0);
  }

  /** Puts `x` before the first with a greater key, as `std::ranges::upper_bound` finds it. */
  function Placed(s: seq<Screen>, x: Screen, key: Key): seq<Screen> {
    if |s| == 0 || key(s[0]) > key(x) then [x] + s else [s[0]] + Placed(s[1..], x, key)
  }

  lemma PlacedInFront(s: seq<Screen>, x: Screen, key: Key)
    requires |s| == 0 || key(s[0]) > key(x)
    ensures Placed(s, x, key) == [x] + s
  {
  }

  lemma PlacedBehind(s: seq<Screen>, x: Screen, key: Key)
    requires |s| > 0 && key(s[0]) <= key(x)
    ensures Placed(s, x, key) == [s[0]] + Placed(s[1..], x, key)
  {
  }

  lemma {:induction false} PlacedElements(s: seq<Screen>, x: Screen, key: Key)
    ensures multiset(Placed(s, x, key)) == multiset(s) + multiset{x}
    ensures forall y :: y in Placed(s, x, key) <==> y in s || y == x
  {
    hide Placed;
    if |s| == 0 || key(s[0]) > key(x) {
      PlacedInFront(s, x, key);
    } else {
      PlacedBehind(s, x, key);
      PlacedElements(s[1..], x, key);
      assert s == [s[0]] + s[1..];
    }
  }

  lemma {:induction false} PlacedIsOrdered(s: seq<Screen>, x: Screen, key: Key)
    requires IsOrdered(s, key)
    ensures IsOrdered(Placed(s, x, key), key)
  {
    if |s| == 0 || key(s[0]) > key(x) {
    } else {
      PlacedIsOrdered(s[1..], x, key);
      PlacedElements(s[1..], x, key);
      var t := Placed(s[1..], x, key);
      forall i | 0 <= i < |t| ensures key(s[0]) <= key(t[i]) {
        assert t[i] in t;
      }
    }
  }

  /** Behind those with its key, and among them only. */
  lemma {:induction false} PlacedIsLast(s: seq<Screen>, x: Screen, key: Key, k: int)
    requires IsOrdered(s, key)
    ensures Having(Placed(s, x, key), key, k) == Having(s, key, k) + Only(x, key, k)
  {
    hide Having, Placed;
    if |s| == 0 || key(s[0]) > key(x) {
      PlacedInFront(s, x, key);
      HavingCons(x, s, key, k);
      if key(x) == k {
        HavingNone(s, key, k);
      }
    } else {
      PlacedBehind(s, x, key);
      TailIsOrdered(s, key);
      PlacedIsLast(s[1..], x, key, k);
      HavingCons(s[0], Placed(s[1..], x, key), key, k);
      HavingCons(s[0], s[1..], key, k);
      Regrouped(Only(s[0], key, k), Having(s[1..], key, k), Only(x, key, k));
    }
  }

  /** One after the other inserted. */
  function StableSorted(s: seq<Screen>, key: Key): (t: seq<Screen>)
    decreases |s|
  {
    if |s| == 0 then [] else Placed(StableSorted(s[..|s| - 1], key), s[|s| - 1], key)
  }

  /** Inserting one after the other is the stable sort. */
  lemma {:induction false} InsertingSorts(s: seq<Screen>, key: Key)
    ensures IsStableSort(StableSorted(s, key), s, key)
    ensures multiset(StableSorted(s, key)) == multiset(s)
    decreases |s|
  {
    hide Having, Placed, IsOrdered;
    if |s| == 0 {
      NothingIsOrdered(key);
    } else {
      var before, x := s[..|s| - 1], s[|s| - 1];
      var t := StableSorted(before, key);
      InsertingSorts(before, key);
      assert s == before + [x];
      PlacedElements(t, x, key);
      PlacedIsOrdered(t, x, key);
      forall k ensures Having(Placed(t, x, key), key, k) == Having(s, key, k) {
        PlacedIsLast(t, x, key, k);
        HavingAppend(before, [x], key, k);
        HavingOne(x, key, k);
        assert Having(t, key, k) == Having(before, key, k);
      }
    }
  }

  lemma NothingIsOrdered(key: Key)
    ensures IsOrdered([], key)
  {
  }

  lemma HavingOne(x: Screen, key: Key, k: int)
    ensures Having([x], key, k) == Only(x, key, k)
  {
    assert [x] == [x] + [];
    HavingCons(x, [], key, k);
  }

  // Screens in their groups.

  function ByZ(): Key { (s: Screen) => s.z }

  predicate IsMember(x: Screen, group: nat) { !x.isOverlay && x.group == group }

  /** The screens of a group, in the order of the configuration's list. An overlay belongs to none. */
  function Members(config: seq<Screen>, group: nat): seq<Screen> {
    if |config| == 0 then []
    else
      var last := config[|config| - 1];
      Members(config[..|config| - 1], group) + if IsMember(last, group) then [last] else []
  }

  /** One more screen in the list joins its group, and no other. */
  lemma MembersNext(config: seq<Screen>, i: nat, group: nat)
    requires i < |config|
    ensures var before, after := Members(config[..i], group), Members(config[..i + 1], group);
            after == if IsMember(config[i], group) then before + [config[i]] else before
  {
    assert config[..i + 1][..i] == config[..i];
  }

  lemma {:induction false} MembersAre(config: seq<Screen>, group: nat)
    ensures forall x :: x in Members(config, group) <==> x in config && IsMember(x, group)
    decreases |config|
  {
    if |config| == 0 {
    } else {
      var n := |config| - 1;
      MembersAre(config[..n], group);
      assert config == config[..n] + [config[n]];
    }
  }

  class ScreenGroup {
    var screens: seq<Screen>

    constructor ()
      ensures screens == []
    {
      screens := [];
    }

    method AddScreen(screen: Screen)
      requires IsOrdered(screens, ByZ())
      modifies this
      ensures screens == Placed(old(screens), screen, ByZ())
      ensures IsOrdered(screens, ByZ())
    {
      PlacedIsOrdered(screens, screen, ByZ());
      var i := UpperBound(screens, screen, ByZ());
      PlacedAt(screens, screen, ByZ(), i);
      screens := screens[..i] + [screen] + screens[i..];
    }

    /** Takes the screen with its ID out, if there is one, and adds it. */
    method PutScreen(screen: Screen)
      requires IsOrdered(screens, ByZ())
      modifies this
      ensures IsOrdered(screens, ByZ())
      ensures screens == Placed(Without(old(screens), screen.id), screen, ByZ())
    {
      RemoveScreenIn(screen.id);
      AddScreen(screen);
    }

    method RemoveScreenIn(id: nat)
      requires IsOrdered(screens, ByZ())
      modifies this
      ensures IsOrdered(screens, ByZ())
      ensures screens == Without(old(screens), id)
    {
      var i := 0;
      while i < |screens| && screens[i].id != id
        invariant i <= |screens| && forall j :: 0 <= j < i ==> screens[j].id != id
      {
        i := i + 1;
      }
      WithoutAt(screens, id, i);
      WithoutIsOrdered(screens, id);
      if i < |screens| {
        screens := screens[..i] + screens[i + 1..];
      }
    }

    /** By their place in the list, and equal ones as they were; a screen that the list lacks comes after. */
    method OrderScreens(ids: seq<nat>)
      modifies this
      ensures IsStableSort(screens, old(screens), ByRank(ids)) && multiset(screens) == multiset(old(screens))
      ensures screens == StableSorted(old(screens), ByRank(ids))
    {
      InsertingSorts(screens, ByRank(ids));
      screens := StableSorted(screens, ByRank(ids));
    }
  }

  /** `std::ranges::upper_bound`. */
  method UpperBound(s: seq<Screen>, x: Screen, key: Key) returns (i: nat)
    requires IsOrdered(s, key)
    ensures i <= |s|
    ensures forall j :: 0 <= j < i ==> key(s[j]) <= key(x)
    ensures forall j :: i <= j < |s| ==> key(s[j]) > key(x)
  {
    i := 0;
    var end := |s|;
    while i < end
      invariant i <= end <= |s|
      invariant forall j :: 0 <= j < i ==> key(s[j]) <= key(x)
      invariant forall j :: end <= j < |s| ==> key(s[j]) > key(x)
    {
      var middle := (i + end) / 2;
      if key(s[middle]) <= key(x) {
        i := middle + 1;
      } else {
        end := middle;
      }
    }
  }

  lemma {:induction false} PlacedAt(s: seq<Screen>, x: Screen, key: Key, i: nat)
    requires i <= |s| && (forall j :: 0 <= j < i ==> key(s[j]) <= key(x)) && (i < |s| ==> key(s[i]) > key(x))
    ensures Placed(s, x, key) == s[..i] + [x] + s[i..]
    decreases i
  {
    hide Placed;
    if i == 0 {
      PlacedInFront(s, x, key);
      assert s[..0] == [] && s[0..] == s && [] + [x] == [x];
    } else {
      PlacedBehind(s, x, key);
      PlacedAt(s[1..], x, key, i - 1);
      assert s[1..][i - 1..] == s[i..];
      assert [s[0]] + s[1..][..i - 1] == s[..i];
      Regrouped([s[0]], s[1..][..i - 1] + [x], s[i..]);
      Regrouped([s[0]], s[1..][..i - 1], [x]);
    }
  }

  function Without(s: seq<Screen>, id: nat): seq<Screen> {
    if |s| == 0 then [] else if s[0].id == id then s[1..] else [s[0]] + Without(s[1..], id)
  }

  lemma {:induction false} WithoutAt(s: seq<Screen>, id: nat, i: nat)
    requires i <= |s| && (forall j :: 0 <= j < i ==> s[j].id != id) && (i < |s| ==> s[i].id == id)
    ensures Without(s, id) == if i < |s| then s[..i] + s[i + 1..] else s
    decreases i
  {
    if i == 0 {
      if |s| > 0 {
        assert s[..0] == [] && [] + s[1..] == s[1..];
      }
    } else {
      WithoutAt(s[1..], id, i - 1);
      if i < |s| {
        assert s[1..][i..] == s[i + 1..] && [s[0]] + s[1..][..i - 1] == s[..i];
        Regrouped([s[0]], s[1..][..i - 1], s[i + 1..]);
      } else {
        assert s == [s[0]] + s[1..];
      }
    }
  }

  lemma {:induction false} WithoutIsOrdered(s: seq<Screen>, id: nat)
    requires IsOrdered(s, ByZ())
    ensures IsOrdered(Without(s, id), ByZ()) && forall x :: x in Without(s, id) ==> x in s
  {
    if |s| == 0 || s[0].id == id {
    } else {
      WithoutIsOrdered(s[1..], id);
      var rest := Without(s[1..], id);
      forall j | 0 <= j < |rest| ensures s[0].z <= rest[j].z {
        assert rest[j] in s[1..];
      }
    }
  }

  type Groups = map<nat, seq<Screen>>

  /** Every screen of the configuration is in its group, in drawing order, and no group is empty. */
  ghost predicate IsBuilt(groups: Groups, config: seq<Screen>) {
    && (forall g :: g in groups <==> Members(config, g) != [])
    && forall g :: g in groups ==> groups[g] == StableSorted(Members(config, g), ByZ())
  }

  /** A whole build: every screen of the configuration is added to its group. */
  method Configure(config: seq<Screen>) returns (groups: Groups)
    ensures IsBuilt(groups, config)
  {
    hide *;
    groups := map[];
    NothingIsBuilt();
    assert config[..0] == [];
    var i := 0;
    while i < |config|
      invariant i <= |config| && IsBuilt(groups, config[..i])
    {
      var screen := config[i];
      BuiltNext(groups, config, i);
      if !screen.isOverlay {
        var g := screen.group;
        groups := groups[g := Placed(if g in groups then groups[g] else [], screen, ByZ())];
      }
      i := i + 1;
    }
    assert config[..i] == config;
  }

  lemma NothingIsBuilt()
    ensures IsBuilt(map[], [])
  {
  }

  lemma BuiltNext(groups: Groups, config: seq<Screen>, i: nat)
    requires i < |config| && IsBuilt(groups, config[..i])
    ensures var x := config[i];
            IsBuilt(if x.isOverlay then groups
                    else groups[x.group := Placed(if x.group in groups then groups[x.group] else [], x, ByZ())],
                    config[..i + 1])
  {
    var x := config[i];
    forall g ensures Members(config[..i + 1], g) ==
                     if IsMember(x, g) then Members(config[..i], g) + [x] else Members(config[..i], g)
    {
      MembersNext(config, i, g);
    }
    hide Members, Placed, StableSorted, ByZ;
    if !x.isOverlay {
      var before := Members(config[..i], x.group);
      SortedNext(before, x, ByZ());
      NothingSorted(ByZ());
    }
  }

  lemma SortedNext(s: seq<Screen>, x: Screen, key: Key)
    ensures StableSorted(s + [x], key) == Placed(StableSorted(s, key), x, key)
  {
    assert (s + [x])[..|s|] == s;
  }

  lemma NothingSorted(key: Key)
    ensures StableSorted([], key) == []
  {
  }

  function Ids(s: seq<Screen>): (ids: seq<nat>)
    ensures |ids| == |s| && forall i :: 0 <= i < |s| ==> ids[i] == s[i].id
  {
    seq(|s|, i requires 0 <= i < |s| => s[i].id)
  }

  function Rank(ids: seq<nat>, id: nat): (rank: nat)
    ensures rank <= |ids|
    ensures rank < |ids| ==> ids[rank] == id
    ensures forall i :: 0 <= i < rank ==> ids[i] != id
  {
    if |ids| == 0 || ids[0] == id then 0 else 1 + Rank(ids[1..], id)
  }

  function ByRank(ids: seq<nat>): Key { (s: Screen) => Rank(ids, s.id) }

  function Ordered(config: seq<Screen>, group: nat, screens: seq<Screen>): seq<Screen> {
    StableSorted(screens, ByRank(Ids(StableSorted(Members(config, group), ByZ()))))
  }

  /** The groups of the configuration's screens, each once. */
  method GroupIds(config: seq<Screen>) returns (ids: seq<nat>)
    ensures AreDistinct(ids) && forall g :: g in ids <==> Members(config, g) != []
  {
    hide Members;
    ids := [];
    NoMembers();
    assert config[..0] == [];
    var i := 0;
    while i < |config|
      invariant i <= |config| && AreDistinct(ids)
      invariant forall g :: g in ids <==> Members(config[..i], g) != []
    {
      forall g ensures Members(config[..i + 1], g) ==
                       if IsMember(config[i], g) then Members(config[..i], g) + [config[i]] else Members(config[..i], g)
      {
        MembersNext(config, i, g);
      }
      if !config[i].isOverlay && config[i].group !in ids {
        ids := ids + [config[i].group];
      }
      i := i + 1;
    }
    assert config[..i] == config;
  }

  lemma NoMembers()
    ensures forall g :: Members([], g) == []
  {
  }

  /** Puts every group of the configuration in the order that its list and z-indices give. */
  method OrderPatchedGroups(config: seq<Screen>, before: Groups) returns (groups: Groups)
    ensures groups.Keys == before.Keys
    ensures forall g :: g in before ==>
              groups[g] == if Members(config, g) == [] then before[g] else Ordered(config, g, before[g])
  {
    hide Members, Ordered;
    var ids := GroupIds(config);
    groups := before;
    var k := 0;
    while k < |ids|
      invariant k <= |ids| && groups.Keys == before.Keys
      invariant forall g :: g in before ==>
                  groups[g] == if g in ids[..k] then Ordered(config, g, before[g]) else before[g]
    {
      var g := ids[k];
      NotYet(ids, k);
      if g in groups {
        groups := groups[g := Ordered(config, g, groups[g])];
      }
      k := k + 1;
    }
    assert ids[..k] == ids;
  }

  lemma NotYet(ids: seq<nat>, k: nat)
    requires k < |ids| && AreDistinct(ids)
    ensures ids[k] !in ids[..k] && forall g :: g in ids[..k + 1] <==> g in ids[..k] || g == ids[k]
  {
    assert ids[..k + 1] == ids[..k] + [ids[k]];
  }

  predicate HasDistinctIds(s: seq<Screen>) { AreDistinct(Ids(s)) }

  /** A list that is in the order of its own IDs is what any arrangement of it is put into. */
  lemma OrderingRestores(screens: seq<Screen>, target: seq<Screen>)
    requires multiset(screens) == multiset(target) && HasDistinctIds(target)
    ensures StableSorted(screens, ByRank(Ids(target))) == target
  {
    var key := ByRank(Ids(target));
    var t := StableSorted(screens, key);
    InsertingSorts(screens, key);
    forall i | 0 <= i < |target| ensures key(target[i]) == i {
      RankOf(target, i);
    }
    forall k ensures Having(t, key, k) == Having(target, key, k) {
      assert Having(t, key, k) == Having(screens, key, k);
      SameSingle(screens, target, key, k);
    }
    StableSortIsUnique(t, target, key);
  }

  lemma RankOf(target: seq<Screen>, i: nat)
    requires HasDistinctIds(target) && i < |target|
    ensures Rank(Ids(target), target[i].id) == i
  {
    var r := Rank(Ids(target), target[i].id);
    assert Ids(target)[i] == target[i].id;
  }

  /** At most one screen has a rank, so both lists have it where either does. */
  lemma SameSingle(screens: seq<Screen>, target: seq<Screen>, key: Key, k: int)
    requires multiset(screens) == multiset(target)
    requires forall i :: 0 <= i < |target| ==> key(target[i]) == i
    ensures Having(screens, key, k) == Having(target, key, k)
  {
    if 0 <= k < |target| {
      var x := target[k];
      assert multiset(target)[x] == 1 by {
        assert target == target[..k] + [x] + target[k + 1..];
      }
      OnlyOne(screens, x, key, k);
      OnlyOne(target, x, key, k);
    } else {
      forall y | y in screens ensures key(y) != k {
        assert y in multiset(target);
      }
      HavingNone(screens, key, k);
      HavingNone(target, key, k);
    }
  }

  lemma {:induction false} OnlyOne(s: seq<Screen>, x: Screen, key: Key, k: int)
    requires multiset(s)[x] == 1 && forall y :: y in multiset(s) && key(y) == k ==> y == x
    requires key(x) == k
    ensures Having(s, key, k) == [x]
  {
    assert x in multiset(s);
    assert s == [s[0]] + s[1..];
    assert s[0] in multiset(s);
    if s[0] == x {
      assert x !in multiset(s[1..]);
      assert forall y :: y in s[1..] ==> y in multiset(s[1..]);
      HavingNone(s[1..], key, k);
    } else {
      assert forall y :: y in multiset(s[1..]) ==> y in multiset(s);
      OnlyOne(s[1..], x, key, k);
    }
  }

  /**
   * After patches that leave a group the screens of the configuration, ordering it gives what a whole build of that
   * configuration gives.
   */
  lemma PatchedOrderIsBuildOrder(config: seq<Screen>, group: nat, screens: seq<Screen>)
    requires HasDistinctIds(config) && multiset(screens) == multiset(Members(config, group))
    ensures Ordered(config, group, screens) == StableSorted(Members(config, group), ByZ())
  {
    var members := Members(config, group);
    var target := StableSorted(members, ByZ());
    InsertingSorts(members, ByZ());
    MembersAreDistinct(config, group);
    SameDistinctIds(members, target);
    OrderingRestores(screens, target);
  }

  lemma {:induction false} MembersAreDistinct(config: seq<Screen>, group: nat)
    requires HasDistinctIds(config)
    ensures HasDistinctIds(Members(config, group))
    ensures forall x :: x in Members(config, group) ==> x in config
    decreases |config|
  {
    if |config| == 0 {
    } else {
      var n := |config| - 1;
      assert Ids(config[..n]) == Ids(config)[..n];
      MembersAreDistinct(config[..n], group);
      var before := Members(config[..n], group);
      assert config == config[..n] + [config[n]];
      forall x | x in before ensures x.id != config[n].id {
        var i :| 0 <= i < n && config[..n][i] == x;
        assert Ids(config)[i] != Ids(config)[n];
      }
    }
  }

  lemma {:induction false} ThereOnce(s: seq<Screen>, x: Screen)
    requires HasDistinctIds(s)
    ensures multiset(s)[x] <= 1
    decreases |s|
  {
    if |s| == 0 {
    } else {
      assert s == [s[0]] + s[1..];
      assert Ids(s[1..]) == Ids(s)[1..];
      ThereOnce(s[1..], x);
      assert forall k :: 0 <= k < |s| - 1 ==> s[1..][k].id == Ids(s)[k + 1] != Ids(s)[0];
    }
  }

  lemma SameDistinctIds(s: seq<Screen>, t: seq<Screen>)
    requires multiset(s) == multiset(t) && HasDistinctIds(s)
    ensures HasDistinctIds(t)
  {
    forall i, j | 0 <= i < j < |t| ensures t[i].id != t[j].id {
      assert t[i] in multiset(s) && t[j] in multiset(s);
      if t[i] == t[j] {
        Common.TwiceIn(t, i, j);
        ThereOnce(s, t[j]);
      } else {
        var a :| 0 <= a < |s| && s[a] == t[i];
        var b :| 0 <= b < |s| && s[b] == t[j];
        assert Ids(s)[a] != Ids(s)[b];
      }
    }
  }
}

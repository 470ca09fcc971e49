/**
 * Patching the root widgets of a screen. The patches that the plan makes of two configurations, applied to a screen
 * that shows the first, leave it showing the second, in the order in which a fresh build draws it.
 */
module WidgetPatches {
  import opened Common
  import opened Sorting

  /**
   * What a root shows: its own record, and the widgets that it owns, as the list that is compared of them. An owner has
   * one child at most, so the list also says in which order they are drawn.
   */
  datatype Content = Content(record: nat, owned: nat)

  datatype Definition = Definition(id: nat, z: int, content: Content)

  /** The definitions of a screen's widgets, and which of them no other one owns, in their order. */
  datatype ScreenConfig = ScreenConfig(definitions: seq<Definition>, roots: seq<nat>)

  /** A root widget of a screen. */
  datatype Root = Root(id: nat, shown: Content)

  datatype Action = Update | Replace | Add | Remove

  datatype Patch = Patch(id: nat, action: Action, content: Content)

  ghost predicate IsValid(c: ScreenConfig) {
    && (forall i, j :: 0 <= i < j < |c.definitions| ==> c.definitions[i].id != c.definitions[j].id)
    && (forall k :: 0 <= k < |c.roots| ==> c.roots[k] < |c.definitions|)
    && AreDistinct(c.roots)
  }

  function Zs(c: ScreenConfig): (z: seq<int>)
    ensures |z| == |c.definitions| && forall i :: 0 <= i < |z| ==> z[i] == c.definitions[i].z
  {
    seq(|c.definitions|, i requires 0 <= i < |c.definitions| => c.definitions[i].z)
  }

  /** The indices of the roots as a fresh assembly creates them. */
  function Order(c: ScreenConfig): (order: seq<nat>)
    requires forall k :: 0 <= k < |c.roots| ==> c.roots[k] < |c.definitions|
    ensures forall k :: 0 <= k < |order| ==> order[k] < |c.definitions|
  {
    Sorted(Zs(c), c.roots)
  }

  function RootAt(c: ScreenConfig, i: nat): Root
    requires i < |c.definitions|
  {
    Root(c.definitions[i].id, c.definitions[i].content)
  }

  /** What a fresh build draws. */
  ghost function Fresh(c: ScreenConfig): seq<Root>
    requires IsValid(c)
  {
    seq(|Order(c)|, k requires 0 <= k < |Order(c)| => RootAt(c, Order(c)[k]))
  }

  /** The root with this ID, if the configuration has one. */
  function Find(c: ScreenConfig, roots: seq<nat>, id: nat): (found: Option<nat>)
    requires forall k :: 0 <= k < |roots| ==> roots[k] < |c.definitions|
    ensures found.Some? ==> found.value in roots && c.definitions[found.value].id == id
    ensures found.None? <==> forall k :: 0 <= k < |roots| ==> c.definitions[roots[k]].id != id
  {
    if |roots| == 0 then None
    else if c.definitions[roots[0]].id == id then Some(roots[0])
    else Find(c, roots[1..], id)
  }

  function FindRoot(c: ScreenConfig, id: nat): (found: Option<nat>)
    requires forall k :: 0 <= k < |c.roots| ==> c.roots[k] < |c.definitions|
    ensures found.Some? ==> found.value in c.roots && found.value < |c.definitions|
    ensures found.Some? ==> c.definitions[found.value].id == id
  {
    Find(c, c.roots, id)
  }

  /** What the root with this ID shows by the configuration. */
  ghost function ContentOf(c: ScreenConfig, id: nat): Option<Content>
    requires IsValid(c)
  {
    if FindRoot(c, id).None? then None else Some(c.definitions[FindRoot(c, id).value].content)
  }

  // Roots as what they show.

  ghost predicate HaveDistinctIds(roots: seq<Root>) {
    forall i, j :: 0 <= i < j < |roots| ==> roots[i].id != roots[j].id
  }

  function IndexOf(roots: seq<Root>, id: nat): (k: nat)
    ensures k <= |roots|
    ensures k < |roots| ==> roots[k].id == id
    ensures forall i :: 0 <= i < k ==> roots[i].id != id
  {
    if |roots| == 0 || roots[0].id == id then 0 else 1 + IndexOf(roots[1..], id)
  }

  function Shown(roots: seq<Root>, id: nat): Option<Content> {
    var k := IndexOf(roots, id);
    if k == |roots| then None else Some(roots[k].shown)
  }

  ghost predicate Shows(roots: seq<Root>, c: ScreenConfig)
    requires IsValid(c)
  {
    HaveDistinctIds(roots) && forall id :: Shown(roots, id) == ContentOf(c, id)
  }

  lemma ShownAt(roots: seq<Root>, k: nat)
    requires HaveDistinctIds(roots) && k < |roots|
    ensures IndexOf(roots, roots[k].id) == k && Shown(roots, roots[k].id) == Some(roots[k].shown)
  {
  }

  lemma RemovedShows(roots: seq<Root>, k: nat)
    requires HaveDistinctIds(roots) && k < |roots|
    ensures var rest := roots[..k] + roots[k + 1..];
            HaveDistinctIds(rest) &&
            forall id :: Shown(rest, id) == if id == roots[k].id then None else Shown(roots, id)
  {
    var rest := roots[..k] + roots[k + 1..];
    assert forall i :: 0 <= i < |rest| ==> rest[i] == roots[if i < k then i else i + 1];
    forall id ensures Shown(rest, id) == if id == roots[k].id then None else Shown(roots, id) {
      var i := IndexOf(roots, id);
      if i < |roots| && i != k {
        ShownAt(rest, if i < k then i else i - 1);
      }
    }
  }

  lemma ReplacedShows(roots: seq<Root>, k: nat, shown: Content)
    requires HaveDistinctIds(roots) && k < |roots|
    ensures var next := roots[k := Root(roots[k].id, shown)];
            HaveDistinctIds(next) &&
            forall id :: Shown(next, id) == if id == roots[k].id then Some(shown) else Shown(roots, id)
  {
    var next := roots[k := Root(roots[k].id, shown)];
    forall id ensures Shown(next, id) == if id == roots[k].id then Some(shown) else Shown(roots, id) {
      var i := IndexOf(roots, id);
      if i < |roots| {
        ShownAt(next, i);
      }
    }
  }

  lemma AddedShows(roots: seq<Root>, x: Root)
    requires HaveDistinctIds(roots) && Shown(roots, x.id).None?
    ensures HaveDistinctIds(roots + [x])
    ensures forall id :: Shown(roots + [x], id) == if id == x.id then Some(x.shown) else Shown(roots, id)
  {
    var next := roots + [x];
    assert HaveDistinctIds(next);
    forall id ensures Shown(next, id) == if id == x.id then Some(x.shown) else Shown(roots, id) {
      var i := IndexOf(roots, id);
      if i < |roots| {
        ShownAt(next, i);
        assert next[i] == roots[i];
      } else if id == x.id {
        ShownAt(next, |roots|);
      }
    }
  }

  // The plan.

  predicate IsPatched(patches: seq<Patch>, id: nat) { exists k :: 0 <= k < |patches| && patches[k].id == id }

  /**
   * The patches are the difference: every root that is in one configuration only, or differs, has exactly one, which
   * does what the difference takes.
   */
  ghost predicate IsDifference(base: ScreenConfig, patched: ScreenConfig, patches: seq<Patch>)
    requires IsValid(base) && IsValid(patched)
  {
    && (forall i, j :: 0 <= i < j < |patches| ==> patches[i].id != patches[j].id)
    && (forall k :: 0 <= k < |patches| ==> IsRight(base, patched, patches[k]))
    && (forall id :: ContentOf(base, id) != ContentOf(patched, id) ==> IsPatched(patches, id))
  }

  ghost predicate IsRight(base: ScreenConfig, patched: ScreenConfig, p: Patch)
    requires IsValid(base) && IsValid(patched)
  {
    match p.action
    case Remove => ContentOf(patched, p.id).None?
    case Add => ContentOf(base, p.id).None? && ContentOf(patched, p.id) == Some(p.content)
    case Replace => ContentOf(base, p.id).Some? && ContentOf(patched, p.id) == Some(p.content)
    case Update =>
      && ContentOf(base, p.id).Some? && ContentOf(patched, p.id) == Some(p.content)
      && ContentOf(base, p.id).value.owned == p.content.owned
  }

  /** The patch that a root takes, if it takes one. */
  function Compare(base: ScreenConfig, root: Definition, isInPlace: (nat, nat) -> bool): Option<Patch>
    requires forall k :: 0 <= k < |base.roots| ==> base.roots[k] < |base.definitions|
  {
    var before := FindRoot(base, root.id);
    if before.None? then Some(Patch(root.id, Add, root.content))
    else
      var content := base.definitions[before.value].content;
      if content.owned != root.content.owned then Some(Patch(root.id, Replace, root.content))
      else if content.record == root.content.record then None
      else if isInPlace(content.record, root.content.record) then Some(Patch(root.id, Update, root.content))
      else Some(Patch(root.id, Replace, root.content))
  }

  ghost predicate IsJustified(base: ScreenConfig, p: Patch, isInPlace: (nat, nat) -> bool)
    requires IsValid(base)
  {
    p.action == Update ==>
      ContentOf(base, p.id).Some? && isInPlace(ContentOf(base, p.id).value.record, p.content.record)
  }

  /** The removals, and what the first `k` roots take. */
  ghost predicate IsPlanned(base: ScreenConfig, patched: ScreenConfig, patches: seq<Patch>, k: nat)
    requires IsValid(base) && IsValid(patched) && k <= |patched.roots|
  {
    && (forall i, j :: 0 <= i < j < |patches| ==> patches[i].id != patches[j].id)
    && (forall i :: 0 <= i < |patches| ==> IsRight(base, patched, patches[i]))
    && (forall i :: 0 <= i < |patches| ==>
                      ContentOf(patched, patches[i].id).None? || IsAmong(patched, k, patches[i].id))
    && (forall id :: ContentOf(base, id) != ContentOf(patched, id) ==>
          IsPatched(patches, id) || (ContentOf(patched, id).Some? && !IsAmong(patched, k, id)))
  }

  ghost predicate IsAmong(c: ScreenConfig, k: nat, id: nat)
    requires IsValid(c) && k <= |c.roots|
  {
    exists j :: 0 <= j < k && c.definitions[c.roots[j]].id == id
  }

  lemma AmongNext(c: ScreenConfig, k: nat)
    requires IsValid(c) && k < |c.roots|
    ensures var id := c.definitions[c.roots[k]].id;
            !IsAmong(c, k, id) && forall x :: IsAmong(c, k + 1, x) <==> IsAmong(c, k, x) || x == id
  {
  }

  lemma PlannedNext(base: ScreenConfig, patched: ScreenConfig, patches: seq<Patch>, k: nat, next: seq<Patch>)
    requires IsValid(base) && IsValid(patched) && k < |patched.roots| && IsPlanned(base, patched, patches, k)
    requires var id := patched.definitions[patched.roots[k]].id;
             if next == patches then ContentOf(base, id) == ContentOf(patched, id)
             else |next| == |patches| + 1 && next[..|patches|] == patches && next[|patches|].id == id &&
                  IsRight(base, patched, next[|patches|])
    ensures IsPlanned(base, patched, next, k + 1)
  {
    hide ContentOf, IsValid, IsAmong, IsRight;
    CompareIsThere(patched, k);
    AmongNext(patched, k);
    StaysPatched(patches, next);
    assert forall i :: 0 <= i < |patches| ==> next[i] == patches[i];
  }

  lemma CompareIsThere(c: ScreenConfig, k: nat)
    requires IsValid(c) && k < |c.roots|
    ensures c.roots[k] < |c.definitions| && ContentOf(c, c.definitions[c.roots[k]].id).Some?
  {
  }

  /** Compares the roots of the same ID, by what they own and by their records. */
  method PlanWidgets(base: ScreenConfig, patched: ScreenConfig, isInPlace: (nat, nat) -> bool)
    returns (patches: seq<Patch>)
    requires IsValid(base) && IsValid(patched)
    ensures IsDifference(base, patched, patches)
    ensures forall k :: 0 <= k < |patches| ==> IsJustified(base, patches[k], isInPlace)
  {
    ValidRoots(base);
    ValidRoots(patched);
    patches := PlanRemovals(base, patched);
    assert IsPlanned(base, patched, patches, 0);
    hide IsPlanned, IsValid, ContentOf, Compare, IsJustified, IsRight;
    var k := 0;
    while k < |patched.roots|
      invariant k <= |patched.roots| && IsPlanned(base, patched, patches, k)
      invariant forall i :: 0 <= i < |patches| ==> IsJustified(base, patches[i], isInPlace)
    {
      ghost var before := patches;
      var p := Compare(base, patched.definitions[patched.roots[k]], isInPlace);
      if p.Some? {
        patches := patches + [p.value];
      }
      PlannedNext(base, patched, before, k, patches);
      k := k + 1;
    }
  }

  lemma StaysPatched(a: seq<Patch>, b: seq<Patch>)
    requires a <= b
    ensures forall id :: IsPatched(a, id) ==> IsPatched(b, id)
    ensures |a| < |b| ==> IsPatched(b, b[|a|].id)
  {
  }

  /** Whatever is a root before and none after. */
  method PlanRemovals(base: ScreenConfig, patched: ScreenConfig) returns (patches: seq<Patch>)
    requires IsValid(base) && IsValid(patched)
    ensures forall i, j :: 0 <= i < j < |patches| ==> patches[i].id != patches[j].id
    ensures forall i :: 0 <= i < |patches| ==> patches[i].action == Remove && ContentOf(patched, patches[i].id).None?
    ensures forall id :: ContentOf(base, id).Some? && ContentOf(patched, id).None? ==> IsPatched(patches, id)
  {
    hide IsValid, IsAmong, IsPatched, FindRoot, ContentOf;
    ValidRoots(base);
    ValidRoots(patched);
    RootsAreAmong(base);
    patches := [];
    var k := 0;
    while k < |base.roots|
      invariant k <= |base.roots|
      invariant forall i, j :: 0 <= i < j < |patches| ==> patches[i].id != patches[j].id
      invariant forall i :: 0 <= i < |patches| ==>
                  patches[i].action == Remove && ContentOf(patched, patches[i].id).None?
      invariant forall i :: 0 <= i < |patches| ==> IsAmong(base, k, patches[i].id)
      invariant forall id :: IsAmong(base, k, id) ==> ContentOf(patched, id).Some? || IsPatched(patches, id)
    {
      var root := base.definitions[base.roots[k]];
      ghost var before := patches;
      AmongNext(base, k);
      FoundIsContent(patched, root.id);
      if FindRoot(patched, root.id).None? {
        patches := patches + [Patch(root.id, Remove, root.content)];
      }
      StaysPatched(before, patches);
      k := k + 1;
    }
  }

  lemma FoundIsContent(c: ScreenConfig, id: nat)
    requires IsValid(c)
    ensures FindRoot(c, id).None? <==> ContentOf(c, id).None?
  {
  }

  /** Before the first none is gone through, at the end all are. */
  lemma RootsAreAmong(c: ScreenConfig)
    requires IsValid(c)
    ensures forall id :: !IsAmong(c, 0, id)
    ensures forall id :: ContentOf(c, id).Some? ==> IsAmong(c, |c.roots|, id)
  {
    forall id | ContentOf(c, id).Some? ensures IsAmong(c, |c.roots|, id) {
      var j :| 0 <= j < |c.roots| && c.roots[j] == FindRoot(c, id).value;
    }
  }

  // Applying it.

  /** What the roots show once the removals are done. */
  ghost predicate AreRemoved(before: seq<Root>, patches: seq<Patch>, roots: seq<Root>) {
    && HaveDistinctIds(roots)
    && forall id :: Shown(roots, id) == if IsRemoved(patches, id) then None else Shown(before, id)
  }

  predicate IsRemoved(patches: seq<Patch>, id: nat) {
    exists k :: 0 <= k < |patches| && patches[k].id == id && patches[k].action == Remove
  }

  /** And once the other patches are, which have distinct IDs; a successor is built from the configuration. */
  ghost predicate AreChanged(before: seq<Root>, c: ScreenConfig, patches: seq<Patch>, roots: seq<Root>)
    requires IsValid(c)
  {
    && HaveDistinctIds(roots)
    && (forall k :: 0 <= k < |patches| && patches[k].action != Remove ==>
          Shown(roots, patches[k].id) == Result(c, patches[k], Shown(before, patches[k].id)))
    && forall id :: !IsChanging(patches, id) ==> Shown(roots, id) == Shown(before, id)
  }

  predicate IsChanging(patches: seq<Patch>, id: nat) {
    exists k :: 0 <= k < |patches| && patches[k].id == id && patches[k].action != Remove
  }

  ghost function Result(c: ScreenConfig, p: Patch, before: Option<Content>): Option<Content>
    requires IsValid(c)
  {
    if p.action == Update then if before.Some? then Some(p.content) else None else ContentOf(c, p.id)
  }

  /** The true difference makes one configuration of the other. */
  lemma DifferenceIsApplied(base: ScreenConfig, patched: ScreenConfig, patches: seq<Patch>,
                            before: seq<Root>, removed: seq<Root>, after: seq<Root>)
    requires IsValid(base) && IsValid(patched) && IsDifference(base, patched, patches) && Shows(before, base)
    requires AreRemoved(before, patches, removed) && AreChanged(removed, patched, patches, after)
    ensures Shows(after, patched)
  {
    hide ContentOf, Shown;
    forall id ensures Shown(after, id) == ContentOf(patched, id) {
      if IsPatched(patches, id) {
        var k :| 0 <= k < |patches| && patches[k].id == id;
        assert IsRight(base, patched, patches[k]);
        assert forall j :: 0 <= j < |patches| && patches[j].id == id ==> j == k;
        assert IsRemoved(patches, id) <==> patches[k].action == Remove;
        assert IsChanging(patches, id) <==> patches[k].action != Remove;
      } else {
        assert !IsRemoved(patches, id) && !IsChanging(patches, id);
      }
    }
  }

  lemma ShownIs(roots: seq<Root>, id: nat)
    ensures var k := IndexOf(roots, id); Shown(roots, id) == if k < |roots| then Some(roots[k].shown) else None
  {
  }

  lemma ContentOfFound(c: ScreenConfig, id: nat)
    requires IsValid(c) && FindRoot(c, id).Some?
    ensures ContentOf(c, id) == Some(c.definitions[FindRoot(c, id).value].content)
  {
  }

  // The order of drawing.

  predicate IsNamed(c: ScreenConfig, order: seq<nat>, id: nat) {
    exists j :: 0 <= j < |order| && order[j] < |c.definitions| && c.definitions[order[j]].id == id
  }

  lemma NamedNext(c: ScreenConfig, order: seq<nat>, k: nat)
    requires k < |order| && order[k] < |c.definitions|
    ensures forall id :: IsNamed(c, order[..k + 1], id) <==>
                         IsNamed(c, order[..k], id) || id == c.definitions[order[k]].id
  {
    forall id ensures IsNamed(c, order[..k + 1], id) <==>
                      IsNamed(c, order[..k], id) || id == c.definitions[order[k]].id {
      if IsNamed(c, order[..k], id) {
        var j :| 0 <= j < k && order[..k][j] < |c.definitions| && c.definitions[order[..k][j]].id == id;
        assert order[..k + 1][j] == order[j];
      }
      assert order[..k + 1][k] == order[k];
    }
  }

  /** The roots are either in their place or still to be placed. */
  ghost predicate IsSplit(roots: seq<Root>, ordered: seq<Root>, left: seq<Root>) {
    && HaveDistinctIds(ordered + left)
    && forall x :: x in ordered + left <==> x in roots
  }

  lemma SplitNext(roots: seq<Root>, ordered: seq<Root>, left: seq<Root>, i: nat)
    requires IsSplit(roots, ordered, left) && i < |left|
    ensures IsSplit(roots, ordered + [left[i]], left[..i] + left[i + 1..])
    ensures var rest := left[..i] + left[i + 1..]; forall j :: 0 <= j < |rest| ==> rest[j].id != left[i].id
  {
    var all, rest := ordered + left, left[..i] + left[i + 1..];
    var next := ordered + [left[i]] + rest;
    MoveKeeps(all, next, |ordered|, i);
    forall j | 0 <= j < |rest| ensures rest[j].id != left[i].id {
      assert next[|ordered| + 1 + j] == rest[j] && next[|ordered|] == left[i];
    }
  }

  /** One of them moves down, those between move up. */
  lemma MoveKeeps(all: seq<Root>, next: seq<Root>, n: nat, i: nat)
    requires n + i < |all| && HaveDistinctIds(all)
    requires next == all[..n] + [all[n + i]] + (all[n..n + i] + all[n + i + 1..])
    ensures HaveDistinctIds(next) && forall x :: x in next <==> x in all
  {
    forall k | 0 <= k < |next| ensures next[k] == all[Moved(n, i, k)] {
      MovedFrom(all, next, n, i, k);
    }
    forall j, k | 0 <= j < k < |next| ensures next[j].id != next[k].id {
      assert Moved(n, i, j) != Moved(n, i, k);
    }
    forall x ensures x in next <==> x in all {
      if x in next {
        var k :| 0 <= k < |next| && next[k] == x;
        assert all[Moved(n, i, k)] == x;
      }
      if j :| 0 <= j < |all| && all[j] == x {
        var k := if j < n || n + i < j then j else if j == n + i then n else j + 1;
        assert Moved(n, i, k) == j && next[k] == x;
      }
    }
  }

  function Moved(n: nat, i: nat, k: nat): nat {
    if k < n then k else if k == n then n + i else if k <= n + i then k - 1 else k
  }

  lemma MovedFrom(all: seq<Root>, next: seq<Root>, n: nat, i: nat, k: nat)
    requires n + i < |all| && k < |next|
    requires next == all[..n] + [all[n + i]] + (all[n..n + i] + all[n + i + 1..])
    ensures Moved(n, i, k) < |all| == |next| && next[k] == all[Moved(n, i, k)]
  {
    var tail := all[n..n + i] + all[n + i + 1..];
    if k > n {
      assert next[k] == tail[k - n - 1];
    } else if k < n {
      assert next[k] == all[..n][k];
    }
  }

  /** The root with this ID, if there is one. */
  function At(roots: seq<Root>, id: nat): seq<Root> {
    var i := IndexOf(roots, id);
    if i < |roots| then [roots[i]] else []
  }

  /** The roots that the order names, as it names them. */
  function Listed(roots: seq<Root>, c: ScreenConfig, order: seq<nat>): seq<Root>
    requires forall k :: 0 <= k < |order| ==> order[k] < |c.definitions|
  {
    if |order| == 0 then []
    else
      var n := |order| - 1;
      Listed(roots, c, order[..n]) + At(roots, c.definitions[order[n]].id)
  }

  /** The roots that it does not name, as they were. */
  function Unlisted(roots: seq<Root>, c: ScreenConfig, order: seq<nat>): seq<Root> {
    if |roots| == 0 then []
    else (if IsNamed(c, order, roots[0].id) then [] else [roots[0]]) + Unlisted(roots[1..], c, order)
  }

  lemma {:induction false} UnlistedAre(roots: seq<Root>, c: ScreenConfig, order: seq<nat>)
    ensures forall x :: x in Unlisted(roots, c, order) <==> x in roots && !IsNamed(c, order, x.id)
  {
    hide IsNamed;
    if |roots| == 0 {
    } else {
      UnlistedAre(roots[1..], c, order);
      assert roots == [roots[0]] + roots[1..];
    }
  }

  lemma {:induction false} UnlistedOfNone(roots: seq<Root>, c: ScreenConfig)
    ensures Unlisted(roots, c, []) == roots
  {
    NothingNamed(c);
    if |roots| == 0 {
    } else {
      UnlistedOfNone(roots[1..], c);
      assert roots == [roots[0]] + roots[1..];
    }
  }

  function Less(roots: seq<Root>, id: nat): seq<Root> {
    var i := IndexOf(roots, id);
    if i < |roots| then roots[..i] + roots[i + 1..] else roots
  }

  lemma LessBehind(x: Root, roots: seq<Root>, id: nat)
    ensures Less([x] + roots, id) == if x.id == id then roots else [x] + Less(roots, id)
  {
    var all, i := [x] + roots, IndexOf(roots, id);
    IndexBehind(x, roots, id);
    hide IndexOf;
    if x.id == id {
      assert all[..0] == [] && all[1..] == roots && [] + roots == roots;
    } else if i < |roots| {
      CutBehind(x, roots, i);
    }
  }

  lemma CutBehind(x: Root, roots: seq<Root>, i: nat)
    requires i < |roots|
    ensures var all := [x] + roots; all[..i + 1] + all[i + 2..] == [x] + (roots[..i] + roots[i + 1..])
  {
    var all, head, tail := [x] + roots, roots[..i], roots[i + 1..];
    assert all[..i + 1] == [x] + head;
    assert all[i + 2..] == tail;
    assert [x] + head + tail == [x] + (head + tail);
  }

  lemma IndexBehind(x: Root, roots: seq<Root>, id: nat)
    ensures IndexOf([x] + roots, id) == if x.id == id then 0 else 1 + IndexOf(roots, id)
  {
    assert ([x] + roots)[1..] == roots;
  }

  lemma NotAmong(roots: seq<Root>, id: nat)
    requires forall x :: x in roots ==> x.id != id
    ensures Less(roots, id) == roots && At(roots, id) == []
  {
  }

  /** One more name takes its root away. */
  lemma {:induction false} UnlistedNext(roots: seq<Root>, c: ScreenConfig, order: seq<nat>, k: nat)
    requires HaveDistinctIds(roots) && k < |order| && order[k] < |c.definitions|
    requires !IsNamed(c, order[..k], c.definitions[order[k]].id)
    ensures Unlisted(roots, c, order[..k + 1]) == Less(Unlisted(roots, c, order[..k]), c.definitions[order[k]].id)
  {
    hide IsNamed, Less;
    var id := c.definitions[order[k]].id;
    NamedNext(c, order, k);
    if |roots| == 0 {
      NotAmong([], id);
    } else {
      var x, rest := roots[0], roots[1..];
      var before := Unlisted(rest, c, order[..k]);
      UnlistedNext(rest, c, order, k);
      LessBehind(x, before, id);
      assert [] + before == before && [] + Less(before, id) == Less(before, id);
      if x.id == id {
        UnlistedAre(rest, c, order[..k]);
        forall y | y in rest ensures y.id != id {
        }
        NotAmong(before, id);
      }
    }
  }

  lemma ListedNext(roots: seq<Root>, c: ScreenConfig, order: seq<nat>, k: nat)
    requires k < |order| && forall j :: 0 <= j < |order| ==> order[j] < |c.definitions|
    ensures Listed(roots, c, order[..k + 1]) == Listed(roots, c, order[..k]) + At(roots, c.definitions[order[k]].id)
  {
    assert order[..k + 1][..k] == order[..k];
  }

  lemma ListedOfNone(roots: seq<Root>, c: ScreenConfig)
    ensures Listed(roots, c, []) == []
  {
  }

  /** What is not placed yet has the next root exactly if the roots have. */
  lemma NextIsAt(roots: seq<Root>, c: ScreenConfig, order: seq<nat>, id: nat)
    requires HaveDistinctIds(roots) && !IsNamed(c, order, id)
    ensures At(Unlisted(roots, c, order), id) == At(roots, id)
  {
    hide IsNamed;
    var left := Unlisted(roots, c, order);
    UnlistedAre(roots, c, order);
    var i, j := IndexOf(left, id), IndexOf(roots, id);
    if j < |roots| {
      assert roots[j] in left;
    }
    if i < |left| {
      assert left[i] in roots;
    }
  }

  lemma SameElementsShow(a: seq<Root>, b: seq<Root>)
    requires HaveDistinctIds(a) && HaveDistinctIds(b) && forall x :: x in a <==> x in b
    ensures forall id :: Shown(a, id) == Shown(b, id)
  {
    forall id ensures Shown(a, id) == Shown(b, id) {
      var i, j := IndexOf(a, id), IndexOf(b, id);
      if i < |a| {
        assert a[i] in b;
        var k :| 0 <= k < |b| && b[k] == a[i];
        ShownAt(b, k);
      }
      assert j < |b| ==> b[j] in b;
    }
  }

  lemma OrderedRoot(c: ScreenConfig, k: nat)
    requires IsValid(c) && k < |Order(c)|
    ensures var i := Order(c)[k]; ContentOf(c, c.definitions[i].id) == Some(c.definitions[i].content)
    ensures forall j :: 0 <= j < |Order(c)| && j != k ==> Order(c)[j] != Order(c)[k]
  {
    SortedElements(Zs(c), c.roots);
    var i := Order(c)[k];
    assert i in c.roots;
    var r :| 0 <= r < |c.roots| && c.roots[r] == i;
  }

  /** The next root in order is there, and not placed yet. */
  lemma NextIsLeft(c: ScreenConfig, k: nat, roots: seq<Root>, ordered: seq<Root>, left: seq<Root>)
    requires IsValid(c) && k < |Order(c)| && Shows(roots, c) && IsSplit(roots, ordered, left)
    requires forall i :: 0 <= i < |ordered| ==> IsNamed(c, Order(c)[..k], ordered[i].id)
    ensures var x := RootAt(c, Order(c)[k]); var i := IndexOf(left, x.id); i < |left| && left[i] == x
  {
    hide Order, ContentOf, IsNamed, IsValid, Shown;
    ValidRoots(c);
    var x := RootAt(c, Order(c)[k]);
    NotNamedYet(c, k);
    OrderedRoot(c, k);
    assert Shown(roots, x.id) == Some(x.shown);
    ShownIs(roots, x.id);
    assert x in roots;
    InSecond(x, ordered, left);
  }

  lemma NotNamedYet(c: ScreenConfig, k: nat)
    requires IsValid(c) && k < |Order(c)|
    ensures !IsNamed(c, Order(c)[..k], c.definitions[Order(c)[k]].id)
  {
    OrderedRoot(c, k);
  }

  lemma InSecond(x: Root, a: seq<Root>, b: seq<Root>)
    requires HaveDistinctIds(a + b) && x in a + b && forall i :: 0 <= i < |a| ==> a[i].id != x.id
    ensures var i := IndexOf(b, x.id); i < |b| && b[i] == x
  {
    hide IndexOf;
    var i := IndexOf(b, x.id);
    var j :| 0 <= j < |a + b| && (a + b)[j] == x;
    assert forall m :: 0 <= m < |a| ==> (a + b)[m] == a[m];
    assert forall m :: 0 <= m < |b| ==> (a + b)[|a| + m] == b[m];
    assert b[j - |a|] == x && i <= j - |a|;
    assert i == j - |a|;
  }

  lemma NothingSplit(roots: seq<Root>)
    requires HaveDistinctIds(roots)
    ensures IsSplit(roots, [], roots)
  {
    assert [] + roots == roots;
  }

  lemma NothingNamed(c: ScreenConfig)
    ensures forall id :: !IsNamed(c, [], id)
  {
  }

  lemma ValidRoots(c: ScreenConfig)
    requires IsValid(c)
    ensures forall k :: 0 <= k < |c.roots| ==> c.roots[k] < |c.definitions|
  {
  }

  lemma SplitEnds(roots: seq<Root>, ordered: seq<Root>, left: seq<Root>)
    requires IsSplit(roots, ordered, left) && HaveDistinctIds(roots)
    ensures HaveDistinctIds(ordered + left) && forall id :: Shown(ordered + left, id) == Shown(roots, id)
  {
    SameElementsShow(ordered + left, roots);
  }

  lemma NoneLeft(c: ScreenConfig, roots: seq<Root>, ordered: seq<Root>, left: seq<Root>)
    requires IsValid(c) && Shows(roots, c) && IsSplit(roots, ordered, left)
    requires forall i :: 0 <= i < |left| ==> !IsNamed(c, Order(c), left[i].id)
    ensures left == []
  {
    if |left| > 0 {
      var x := left[0];
      assert (ordered + left)[|ordered|] == x;
      assert x in roots;
      var r :| 0 <= r < |roots| && roots[r] == x;
      ShownAt(roots, r);
      var i := FindRoot(c, x.id).value;
      SortedElements(Zs(c), c.roots);
    }
  }

  class Screen {
    var roots: seq<Root>
    var configuration: ScreenConfig

    constructor (c: ScreenConfig)
      requires IsValid(c)
      ensures configuration == c && roots == Fresh(c)
    {
      configuration := c;
      roots := [];
      new;
      var order := Order(c);
      var k := 0;
      while k < |order|
        invariant k <= |order| && |roots| == k && configuration == c
        invariant forall i :: 0 <= i < k ==> roots[i] == RootAt(c, order[i])
      {
        roots := roots + [RootAt(c, order[k])];
        k := k + 1;
      }
      assert roots == Fresh(c);
    }

    method RemovePatched(patches: seq<Patch>)
      requires HaveDistinctIds(roots)
      modifies `roots
      ensures AreRemoved(old(roots), patches, roots)
    {
      hide Shown;
      var k := 0;
      assert patches[..0] == [];
      while k < |patches|
        invariant k <= |patches| && AreRemoved(old(roots), patches[..k], roots)
      {
        ghost var before := roots;
        var p := patches[k];
        if p.action == Remove {
          var i := IndexOf(roots, p.id);
          if i < |roots| {
            RemovedShows(roots, i);
            roots := roots[..i] + roots[i + 1..];
          }
          ShownIs(before, p.id);
        }
        k := k + 1;
      }
      assert patches[..k] == patches;
    }

    /** Updates and replaces one after the other. A build may fail, which leaves what is there. */
    method ChangePatched(c: ScreenConfig, patches: seq<Patch>) returns (ok: bool, ghost done: nat)
      requires HaveDistinctIds(roots) && IsValid(c)
      requires forall i, j :: 0 <= i < j < |patches| ==> patches[i].id != patches[j].id
      modifies `roots
      ensures done <= |patches| && AreChanged(old(roots), c, patches[..done], roots)
      ensures ok ==> done == |patches|
      ensures forall id :: Shown(old(roots), id).Some? ==> Shown(roots, id).Some?
    {
      hide Shown, ContentOf;
      var k := 0;
      assert patches[..0] == [];
      while k < |patches|
        invariant k <= |patches| && AreChanged(old(roots), c, patches[..k], roots)
        invariant forall id :: Shown(old(roots), id).Some? ==> Shown(roots, id).Some?
      {
        var p := patches[k];
        var i := IndexOf(roots, p.id);
        ShownIs(roots, p.id);
        if p.action == Update {
          if i < |roots| {
            ReplacedShows(roots, i, p.content);
            roots := roots[i := Root(p.id, p.content)];
          }
        } else if p.action != Remove {
          var found := FindRoot(c, p.id);
          var fails: bool := *;
          if found.None? || fails {
            return false, k;
          }
          var successor := RootAt(c, found.value);
          if i < |roots| {
            ReplacedShows(roots, i, successor.shown);
            roots := roots[i := successor];
          } else {
            AddedShows(roots, successor);
            roots := roots + [successor];
          }
          assert ContentOf(c, p.id) == Some(successor.shown) by {
            ContentOfFound(c, p.id);
          }
        }
        k := k + 1;
      }
      assert patches[..k] == patches;
      return true, k;
    }

    /** Applies the patches, and draws the roots in the order of the configuration. */
    method ApplyWidgetPatches(c: ScreenConfig, patches: seq<Patch>) returns (ok: bool)
      requires HaveDistinctIds(roots) && IsValid(c)
      requires forall i, j :: 0 <= i < j < |patches| ==> patches[i].id != patches[j].id
      modifies this
      ensures HaveDistinctIds(roots)
      ensures ok ==> configuration == c
      ensures !ok ==> configuration == old(configuration)
      // Even where a build fails, a root that is not removed is still there.
      ensures forall id :: Shown(old(roots), id).Some? && !IsRemoved(patches, id) ==> Shown(roots, id).Some?
      ensures ok && IsValid(old(configuration)) ==>
                Shows(old(roots), old(configuration)) && IsDifference(old(configuration), c, patches) ==>
                roots == Fresh(c)
    {
      ghost var before := roots;
      RemovePatched(patches);
      ghost var removed := roots;
      ghost var done;
      ok, done := ChangePatched(c, patches);
      if !ok {
        return;
      }
      assert patches[..done] == patches;
      configuration := c;
      ghost var changed := roots;
      if IsValid(old(configuration)) && Shows(before, old(configuration)) &&
         IsDifference(old(configuration), c, patches) {
        DifferenceIsApplied(old(configuration), c, patches, before, removed, changed);
      }
      ApplyRootOrder();
    }

    /** Puts the roots in the order in which a fresh assembly creates them; others come after, as they were. */
    method ApplyRootOrder()
      requires HaveDistinctIds(roots) && IsValid(configuration)
      modifies `roots
      ensures roots == Listed(old(roots), configuration, Order(configuration))
                       + Unlisted(old(roots), configuration, Order(configuration))
      ensures HaveDistinctIds(roots) && forall id :: Shown(roots, id) == Shown(old(roots), id)
      ensures Shows(old(roots), configuration) ==> roots == Fresh(configuration)
    {
      hide Shown, Order, IsSplit, IsNamed, ContentOf, IsValid, HaveDistinctIds, Shows, Listed, Unlisted;
      var c := configuration;
      NothingSplit(roots);
      NothingNamed(c);
      UnlistedOfNone(roots, c);
      ValidRoots(c);
      var order := Order(c);
      var left, ordered: seq<Root> := roots, [];
      assert order[..0] == [];
      ListedOfNone(roots, c);
      var k := 0;
      while k < |order|
        invariant k <= |order| && IsSplit(old(roots), ordered, left)
        invariant ordered == Listed(old(roots), c, order[..k]) && left == Unlisted(old(roots), c, order[..k])
        invariant forall i :: 0 <= i < |ordered| ==> IsNamed(c, order[..k], ordered[i].id)
        invariant forall i :: 0 <= i < |left| ==> !IsNamed(c, order[..k], left[i].id)
        invariant Shows(old(roots), c) ==>
                    |ordered| == k && forall i :: 0 <= i < k ==> ordered[i] == RootAt(c, order[i])
      {
        var id := c.definitions[order[k]].id;
        var i := IndexOf(left, id);
        NamedNext(c, order, k);
        NotNamedYet(c, k);
        UnlistedNext(old(roots), c, order, k);
        NextIsAt(old(roots), c, order[..k], id);
        ListedNext(old(roots), c, order, k);
        if Shows(old(roots), c) {
          NextIsLeft(c, k, old(roots), ordered, left);
        }
        if i < |left| {
          SplitNext(old(roots), ordered, left, i);
          ordered, left := ordered + [left[i]], left[..i] + left[i + 1..];
        }
        k := k + 1;
      }
      assert order[..k] == order;
      SplitEnds(old(roots), ordered, left);
      if Shows(old(roots), c) {
        NoneLeft(c, old(roots), ordered, left);
        assert ordered + left == ordered;
      }
      roots := ordered + left;
    }
  }
}

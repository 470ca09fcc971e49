/**
 * Patching the screens of a view: what is planned from two configurations, and what becomes of the groups. Where a
 * patch is done the view is what a whole build would give; where it needs one is said exactly.
 */
module ScreenPatches {
  import opened Common
  import opened Sorting
  import opened DrawingOrder

  // The plan.

  datatype Action = Widgets | Rebuild | Add | Remove

  datatype ScreenPatch = ScreenPatch(id: nat, action: Action, before: Option<Screen>, after: Option<Screen>)

  function Find(config: seq<Screen>, id: nat): (found: Option<Screen>)
    ensures found.Some? ==> found.value in config && found.value.id == id
    ensures found.None? ==> forall x :: x in config ==> x.id != id
  {
    if |config| == 0 then None else if config[0].id == id then Some(config[0]) else Find(config[1..], id)
  }

  lemma FindIs(config: seq<Screen>, x: Screen)
    requires HasDistinctIds(config)
    ensures x in config <==> Find(config, x.id) == Some(x)
  {
    if x in config {
      var y := Find(config, x.id).value;
      var i :| 0 <= i < |config| && config[i] == x;
      var j :| 0 <= j < |config| && config[j] == y;
      assert Ids(config)[i] == Ids(config)[j];
    }
  }

  /** The record without the widgets. */
  predicate IsSameRecord(a: Screen, b: Screen) { a.(widgets := b.widgets) == b }

  function ActionOf(before: Option<Screen>, after: Option<Screen>): Action {
    if after.None? then Remove
    else if before.None? then Add
    else if IsSameRecord(before.value, after.value) then Widgets
    else Rebuild
  }

  predicate IsPatchOf(base: seq<Screen>, patched: seq<Screen>, p: ScreenPatch) {
    && p.before == Find(base, p.id) && p.after == Find(patched, p.id)
    && p.before != p.after && p.action == ActionOf(p.before, p.after)
  }

  predicate IsPlanned(plan: seq<ScreenPatch>, id: nat) { exists i :: 0 <= i < |plan| && plan[i].id == id }

  /** Every screen that changed has one patch, and removals come first. */
  ghost predicate IsPlan(base: seq<Screen>, patched: seq<Screen>, plan: seq<ScreenPatch>) {
    && (forall i :: 0 <= i < |plan| ==> IsPatchOf(base, patched, plan[i]))
    && (forall i, j :: 0 <= i < j < |plan| ==> plan[i].id != plan[j].id)
    && (forall i, j :: 0 <= i < j < |plan| && plan[j].action == Remove ==> plan[i].action == Remove)
    && forall id :: Find(base, id) != Find(patched, id) ==> IsPlanned(plan, id)
  }

  /** Before the screen `n` of the list: the plan has what the screens before it need, and nothing else. */
  ghost predicate PlansSome(base: seq<Screen>, patched: seq<Screen>, plan: seq<ScreenPatch>, done: set<nat>) {
    && (forall i :: 0 <= i < |plan| ==> IsPatchOf(base, patched, plan[i]) && plan[i].id in done)
    && (forall i, j :: 0 <= i < j < |plan| ==> plan[i].id != plan[j].id)
    && forall id :: id in done && Find(base, id) != Find(patched, id) ==> IsPlanned(plan, id)
  }

  lemma PlansOneMore(
    base: seq<Screen>, patched: seq<Screen>, plan: seq<ScreenPatch>, done: set<nat>, id: nat, next: seq<ScreenPatch>
  )
    requires PlansSome(base, patched, plan, done) && id !in done
    requires var before, after := Find(base, id), Find(patched, id);
             next == plan + if before == after then []
                            else [ScreenPatch(id, ActionOf(before, after), before, after)]
    ensures PlansSome(base, patched, next, done + {id})
  {
    forall other | other in done + {id} && Find(base, other) != Find(patched, other) ensures IsPlanned(next, other) {
      if other == id {
        assert next[|plan|].id == id;
      } else {
        var i :| 0 <= i < |plan| && plan[i].id == other;
        assert next[i].id == other;
      }
    }
  }

  /** What has to be done to the screens that show `base`, for them to show `patched`. */
  method PlanScreens(base: seq<Screen>, patched: seq<Screen>) returns (plan: seq<ScreenPatch>)
    requires HasDistinctIds(base) && HasDistinctIds(patched)
    ensures IsPlan(base, patched, plan)
  {
    hide HasDistinctIds, IsSameRecord, Find, IsPatchOf, IsPlanned, IsAmong;
    plan := [];
    NoneAmong(base);
    NoneAmong(patched);
    ghost var done: set<nat> := {};
    var k := 0;
    while k < |base|
      invariant k <= |base| && PlansSome(base, patched, plan, done)
      invariant forall i :: 0 <= i < |plan| ==> plan[i].action == Remove
      invariant forall id :: id in done <==> IsAmong(base, k, id) && Find(patched, id).None?
    {
      var gone := base[k];
      AmongNext(base, k);
      if Find(patched, gone.id).None? {
        FindIs(base, gone);
        PlansOneMore(base, patched, plan, done, gone.id, plan + [ScreenPatch(gone.id, Remove, Some(gone), None)]);
        plan := plan + [ScreenPatch(gone.id, Remove, Some(gone), None)];
        done := done + {gone.id};
      }
      k := k + 1;
    }
    ghost var removed := plan;
    k := 0;
    while k < |patched|
      invariant k <= |patched| && PlansSome(base, patched, plan, done)
      invariant |removed| <= |plan|
      invariant forall i :: 0 <= i < |plan| ==> (plan[i].action == Remove <==> i < |removed|)
      invariant forall id :: id in done <==>
                             (IsAmong(base, |base|, id) && Find(patched, id).None?) || IsAmong(patched, k, id)
    {
      var screen := patched[k];
      var before := Find(base, screen.id);
      AmongNext(patched, k);
      FindIs(patched, screen);
      var patch := ScreenPatch(screen.id, ActionOf(before, Some(screen)), before, Some(screen));
      PlansOneMore(base, patched, plan, done, screen.id, if before == Some(screen) then plan else plan + [patch]);
      if before != Some(screen) {
        plan := plan + [patch];
      }
      done := done + {screen.id};
      k := k + 1;
    }
    forall id | Find(base, id) != Find(patched, id) ensures id in done {
      AllAmong(base, id);
      AllAmong(patched, id);
    }
  }

  /** One of the first `n` screens has that ID. */
  predicate IsAmong(config: seq<Screen>, n: nat, id: nat)
    requires n <= |config|
  {
    exists i :: 0 <= i < n && config[i].id == id
  }

  lemma AmongNext(config: seq<Screen>, k: nat)
    requires k < |config| && HasDistinctIds(config)
    ensures !IsAmong(config, k, config[k].id)
    ensures forall id :: IsAmong(config, k + 1, id) <==> IsAmong(config, k, id) || id == config[k].id
  {
    forall i | 0 <= i < k ensures config[i].id != config[k].id {
      assert Ids(config)[i] != Ids(config)[k];
    }
  }

  lemma NoneAmong(config: seq<Screen>)
    ensures forall id :: !IsAmong(config, 0, id)
  {
  }

  lemma AllAmong(config: seq<Screen>, id: nat)
    ensures IsAmong(config, |config|, id) <==> Find(config, id).Some?
  {
    if Find(config, id).Some? {
      var i :| 0 <= i < |config| && config[i] == Find(config, id).value;
    }
  }

  // When a patch can be done in place.

  predicate IsOverlayIn(config: seq<Screen>, id: nat) { Find(config, id).Some? && Find(config, id).value.isOverlay }

  /** The group keeps one of its screens. */
  ghost predicate IsKept(base: seq<Screen>, patched: seq<Screen>, group: nat) {
    exists x :: x in base && IsMember(x, group) && Find(patched, x.id).Some?
  }

  ghost predicate HasMember(config: seq<Screen>, group: nat) { exists x :: x in config && IsMember(x, group) }

  /**
   * The overlays are the same ones; no screen moves between groups; no group is new; and every group keeps one of its
   * screens.
   */
  ghost predicate CanPatch(base: seq<Screen>, patched: seq<Screen>) {
    && (forall id :: IsOverlayIn(base, id) <==> IsOverlayIn(patched, id))
    && (forall x, y :: x in base && y in patched && x.id == y.id && !x.isOverlay ==> x.group == y.group)
    && (forall y :: y in patched && !y.isOverlay ==> HasMember(base, y.group))
    && forall x :: x in base && !x.isOverlay ==> IsKept(base, patched, x.group)
  }

  /** The same for one patch, after those for the screens in `done`. */
  ghost predicate Fits(base: seq<Screen>, done: set<nat>, p: ScreenPatch) {
    if (p.before.Some? && p.before.value.isOverlay) || (p.after.Some? && p.after.value.isOverlay) then
      p.before.Some? && p.after.Some? && p.before.value.isOverlay == p.after.value.isOverlay
    else
      match p.action
      case Widgets => true
      case Remove =>
        p.before.Some? &&
        exists x :: x in base && IsMember(x, p.before.value.group) && x.id != p.id && x.id !in done
      case _ =>
        && p.after.Some? && (p.before.Some? ==> p.before.value.group == p.after.value.group)
        && HasMember(base, p.after.value.group)
  }

  function IdsOf(plan: seq<ScreenPatch>): (ids: set<nat>)
    ensures forall id :: id in ids <==> IsPlanned(plan, id)
  {
    set i | 0 <= i < |plan| :: plan[i].id
  }

  ghost predicate AllFit(base: seq<Screen>, plan: seq<ScreenPatch>, n: nat)
    requires n <= |plan|
  {
    forall k :: 0 <= k < n ==> Fits(base, IdsOf(plan[..k]), plan[k])
  }

  lemma FitsIfCan(base: seq<Screen>, patched: seq<Screen>, plan: seq<ScreenPatch>, k: nat)
    requires HasDistinctIds(base) && HasDistinctIds(patched) && IsPlan(base, patched, plan) && k < |plan|
    requires CanPatch(base, patched)
    ensures Fits(base, IdsOf(plan[..k]), plan[k])
  {
    hide HasDistinctIds;
    var p := plan[k];
    assert IsOverlayIn(base, p.id) <==> IsOverlayIn(patched, p.id);
    if !IsOverlayIn(base, p.id) && p.action == Remove {
      var x :| x in base && IsMember(x, p.before.value.group) && Find(patched, x.id).Some?;
      FindIs(base, x);
      forall i | 0 <= i < k ensures plan[i].id != x.id {
        assert plan[i].action == Remove && IsPatchOf(base, patched, plan[i]);
      }
      assert x.id !in IdsOf(plan[..k]);
    }
  }

  lemma CanIfAllFit(base: seq<Screen>, patched: seq<Screen>, plan: seq<ScreenPatch>)
    requires HasDistinctIds(base) && HasDistinctIds(patched) && IsPlan(base, patched, plan)
    requires AllFit(base, plan, |plan|)
    ensures CanPatch(base, patched)
  {
    hide HasDistinctIds;
    forall id ensures IsOverlayIn(base, id) <==> IsOverlayIn(patched, id) {
      FitsFor(base, patched, plan, id);
    }
    forall x, y | x in base && y in patched && x.id == y.id && !x.isOverlay ensures x.group == y.group {
      FindIs(base, x);
      FindIs(patched, y);
      FitsFor(base, patched, plan, x.id);
    }
    forall y | y in patched && !y.isOverlay ensures HasMember(base, y.group) {
      FindIs(patched, y);
      FitsFor(base, patched, plan, y.id);
      if Find(base, y.id) == Some(y) {
        assert IsMember(y, y.group);
      }
    }
    forall x | x in base && !x.isOverlay ensures IsKept(base, patched, x.group) {
      SomeIsKept(base, patched, plan, x);
    }
  }

  /** What fitting says of one screen: unchanged, or of the same kind and place. */
  lemma FitsFor(base: seq<Screen>, patched: seq<Screen>, plan: seq<ScreenPatch>, id: nat)
    requires IsPlan(base, patched, plan) && AllFit(base, plan, |plan|)
    ensures IsOverlayIn(base, id) <==> IsOverlayIn(patched, id)
    ensures Find(base, id) == Find(patched, id)
            || IsOverlayIn(base, id)
            || Find(patched, id).None?
            || (&& HasMember(base, Find(patched, id).value.group)
                && (Find(base, id).Some? ==> Find(base, id).value.group == Find(patched, id).value.group))
  {
    if Find(base, id) != Find(patched, id) {
      var k :| 0 <= k < |plan| && plan[k].id == id;
      assert IsPatchOf(base, patched, plan[k]) && Fits(base, IdsOf(plan[..k]), plan[k]);
      if plan[k].action == Widgets && !IsOverlayIn(base, id) {
        assert IsMember(plan[k].before.value, plan[k].after.value.group);
      }
    }
  }

  ghost predicate IsSurvivor(base: seq<Screen>, plan: seq<ScreenPatch>, n: nat, group: nat, x: Screen)
    requires n <= |plan|
  {
    x in base && IsMember(x, group) && forall i :: 0 <= i < n && plan[i].action == Remove ==> plan[i].id != x.id
  }

  /** A removal that fits leaves the group a screen, so the last one does. */
  lemma {:induction false} Survivor(base: seq<Screen>, patched: seq<Screen>, plan: seq<ScreenPatch>, n: nat, x: Screen)
    returns (y: Screen)
    requires HasDistinctIds(base) && IsPlan(base, patched, plan) && n <= |plan| && AllFit(base, plan, n)
    requires x in base && !x.isOverlay
    ensures IsSurvivor(base, plan, n, x.group, y)
  {
    hide HasDistinctIds;
    if n == 0 {
      y := x;
    } else {
      y := Survivor(base, patched, plan, n - 1, x);
      var p := plan[n - 1];
      if p.action == Remove && p.id == y.id {
        FindIs(base, y);
        assert Fits(base, IdsOf(plan[..n - 1]), p);
        y :| y in base && IsMember(y, x.group) && y.id != p.id && y.id !in IdsOf(plan[..n - 1]);
        forall i | 0 <= i < n - 1 ensures plan[i].id != y.id {
          assert plan[..n - 1][i] == plan[i];
        }
      }
    }
  }

  lemma SomeIsKept(base: seq<Screen>, patched: seq<Screen>, plan: seq<ScreenPatch>, x: Screen)
    requires HasDistinctIds(base) && IsPlan(base, patched, plan) && AllFit(base, plan, |plan|)
    requires x in base && !x.isOverlay
    ensures IsKept(base, patched, x.group)
  {
    hide HasDistinctIds;
    var y := Survivor(base, patched, plan, |plan|, x);
    FindIs(base, y);
    assert Find(patched, y.id).None? ==> IsPlanned(plan, y.id);
  }

  // Doing it.

  /** On the way from one configuration to the other: the screens in `done` are as in the second. */
  predicate IsWanted(base: seq<Screen>, patched: seq<Screen>, done: set<nat>, x: Screen) {
    !x.isOverlay && if x.id in done then x in patched else x in base
  }

  ghost predicate IsGroup(s: seq<Screen>, base: seq<Screen>, patched: seq<Screen>, done: set<nat>, group: nat) {
    && IsOrdered(s, ByZ()) && HasDistinctIds(s)
    && forall x :: x in s <==> IsMember(x, group) && IsWanted(base, patched, done, x)
  }

  ghost predicate IsPatched(groups: Groups, base: seq<Screen>, patched: seq<Screen>, done: set<nat>) {
    && (forall g :: g in groups <==> HasMember(base, g))
    && forall g :: g in groups ==> IsGroup(groups[g], base, patched, done, g)
  }

  predicate HasId(s: seq<Screen>, id: nat) { exists i :: 0 <= i < |s| && s[i].id == id }

  datatype Outcome = Done | NeedsRebuild | Failed

  /** The group loses the screen of that ID, unless it is the only one there. */
  method RemoveScreen(groups: Groups, id: nat) returns (isDone: bool, next: Groups)
    ensures if exists g :: g in groups && HasId(groups[g], id) then
              exists g :: && g in groups && HasId(groups[g], id) && (isDone <==> |groups[g]| > 1)
                          && next == if isDone then groups[g := Without(groups[g], id)] else groups
            else !isDone && next == groups
  {
    if g :| g in groups && HasId(groups[g], id) {
      isDone := |groups[g]| > 1;
      next := if isDone then groups[g := Without(groups[g], id)] else groups;
    } else {
      isDone, next := false, groups;
    }
  }

  /** The screen takes the place that its z-index gives it, if no other group has one of its ID. */
  method PutScreen(groups: Groups, x: Screen) returns (isDone: bool, next: Groups)
    ensures isDone <==> x.group in groups && forall h :: h in groups && HasId(groups[h], x.id) ==> h == x.group
    ensures next == if isDone then groups[x.group := Placed(Without(groups[x.group], x.id), x, ByZ())] else groups
  {
    if x.group !in groups {
      return false, groups;
    }
    if h :| h in groups && HasId(groups[h], x.id) && h != x.group {
      return false, groups;
    }
    return true, groups[x.group := Placed(Without(groups[x.group], x.id), x, ByZ())];
  }

  /** The screen of that ID is patched where it is. */
  method PatchWidgets(groups: Groups, x: Screen) returns (isDone: bool, next: Groups)
    ensures isDone <==> exists g :: g in groups && HasId(groups[g], x.id)
    ensures isDone ==> exists g, i :: && g in groups && 0 <= i < |groups[g]| && groups[g][i].id == x.id
                                      && next == groups[g := groups[g][i := x]]
  {
    if g :| g in groups && HasId(groups[g], x.id) {
      var i :| 0 <= i < |groups[g]| && groups[g][i].id == x.id;
      return true, groups[g := groups[g][i := x]];
    }
    return false, groups;
  }

  /** `t` is the group `s` with the screen of that ID replaced, removed or added. */
  ghost predicate IsChanged(s: seq<Screen>, t: seq<Screen>, id: nat, after: Option<Screen>, group: nat) {
    && IsOrdered(t, ByZ()) && HasDistinctIds(t)
    && forall x :: x in t <==> (x in s && x.id != id) || (after == Some(x) && IsMember(x, group))
  }

  lemma ChangedGroup(
    base: seq<Screen>, patched: seq<Screen>, done: set<nat>, id: nat, group: nat, s: seq<Screen>, t: seq<Screen>
  )
    requires HasDistinctIds(patched) && IsGroup(s, base, patched, done, group)
    requires IsChanged(s, t, id, Find(patched, id), group)
    ensures IsGroup(t, base, patched, done + {id}, group)
  {
    hide HasDistinctIds, IsOrdered;
    forall x ensures x in t <==> IsMember(x, group) && IsWanted(base, patched, done + {id}, x) {
      FindIs(patched, x);
    }
  }

  /** A group that neither has nor gets the screen stays. */
  lemma OtherGroup(s: seq<Screen>, id: nat, after: Option<Screen>, group: nat)
    requires IsOrdered(s, ByZ()) && HasDistinctIds(s) && !HasId(s, id)
    requires after.Some? ==> !IsMember(after.value, group)
    ensures IsChanged(s, s, id, after, group)
  {
    forall x | x in s ensures x.id != id {
      var i :| 0 <= i < |s| && s[i] == x;
    }
  }

  lemma {:induction false} WithoutIs(s: seq<Screen>, id: nat)
    requires HasDistinctIds(s)
    ensures HasDistinctIds(Without(s, id)) && forall x :: x in Without(s, id) <==> x in s && x.id != id
  {
    if |s| == 0 {
    } else {
      var rest := s[1..];
      assert s == [s[0]] + rest && Ids(rest) == Ids(s)[1..];
      forall x | x in rest ensures x.id != s[0].id {
        var i :| 0 <= i < |rest| && rest[i] == x;
        assert Ids(s)[i + 1] != Ids(s)[0];
      }
      if s[0].id != id {
        WithoutIs(rest, id);
        DistinctBehind(s[0], Without(rest, id));
      }
    }
  }

  lemma DistinctBehind(x: Screen, s: seq<Screen>)
    requires HasDistinctIds(s) && forall y :: y in s ==> y.id != x.id
    ensures HasDistinctIds([x] + s)
  {
    assert Ids([x] + s) == [x.id] + Ids(s);
    assert forall i :: 0 <= i < |s| ==> s[i] in s;
  }

  lemma RemovedFromGroup(s: seq<Screen>, id: nat, group: nat)
    requires IsOrdered(s, ByZ()) && HasDistinctIds(s)
    ensures IsChanged(s, Without(s, id), id, None, group)
  {
    WithoutIs(s, id);
    WithoutIsOrdered(s, id);
  }

  lemma PutInGroup(s: seq<Screen>, x: Screen)
    requires IsOrdered(s, ByZ()) && HasDistinctIds(s) && !x.isOverlay
    ensures IsChanged(s, Placed(Without(s, x.id), x, ByZ()), x.id, Some(x), x.group)
  {
    hide IsOrdered, HasDistinctIds, Placed, Without, ByZ;
    var rest := Without(s, x.id);
    WithoutIs(s, x.id);
    WithoutIsOrdered(s, x.id);
    PlacedIsOrdered(rest, x, ByZ());
    PlacedElements(rest, x, ByZ());
    DistinctBehind(x, rest);
    assert multiset([x] + rest) == multiset(Placed(rest, x, ByZ()));
    SameDistinctIds([x] + rest, Placed(rest, x, ByZ()));
  }

  lemma PatchedInGroup(s: seq<Screen>, i: nat, x: Screen)
    requires IsOrdered(s, ByZ()) && HasDistinctIds(s) && i < |s|
    requires IsSameRecord(s[i], x) && !x.isOverlay
    ensures IsChanged(s, s[i := x], x.id, Some(x), x.group)
  {
    var t := s[i := x];
    assert Ids(t) == Ids(s);
    forall y ensures y in t <==> (y in s && y.id != x.id) || y == x {
      if y in t {
        var j :| 0 <= j < |t| && t[j] == y;
        assert j != i ==> Ids(s)[j] != Ids(s)[i] && s[j] == y;
      }
      if y in s && y.id != x.id {
        var j :| 0 <= j < |s| && s[j] == y;
        assert t[j] == y;
      }
      assert t[i] == x;
    }
  }

  /** An ID is that of one screen at most, so one group has it, the one it is wanted in. */
  lemma GroupOf(groups: Groups, base: seq<Screen>, patched: seq<Screen>, done: set<nat>, id: nat)
    requires HasDistinctIds(base) && HasDistinctIds(patched)
    requires IsPatched(groups, base, patched, done) && id !in done
    ensures var x := Find(base, id);
            && (forall g :: g in groups && HasId(groups[g], id) ==> x.Some? && IsMember(x.value, g))
            && (x.Some? && !x.value.isOverlay ==>
                  x.value.group in groups && x.value in groups[x.value.group] && HasId(groups[x.value.group], id))
    ensures forall g, y :: g in groups && y in groups[g] && y.id == id ==> Find(base, id) == Some(y)
  {
    hide HasDistinctIds, IsOrdered;
    forall g, y | g in groups && y in groups[g] && y.id == id ensures Find(base, id) == Some(y) && IsMember(y, g) {
      FindIs(base, y);
    }
    var x := Find(base, id);
    if x.Some? && !x.value.isOverlay {
      var g := x.value.group;
      assert IsMember(x.value, g) && HasMember(base, g);
      assert IsWanted(base, patched, done, x.value);
      var i :| 0 <= i < |groups[g]| && groups[g][i] == x.value;
    }
  }

  /** One group changed, and no other has the screen, or gets it. */
  lemma PatchedStep(
    groups: Groups, base: seq<Screen>, patched: seq<Screen>, done: set<nat>, id: nat, g: nat, t: seq<Screen>
  )
    requires HasDistinctIds(base) && HasDistinctIds(patched)
    requires IsPatched(groups, base, patched, done) && id !in done && g in groups
    requires IsChanged(groups[g], t, id, Find(patched, id), g)
    requires Find(base, id).Some? ==> Find(base, id).value.group == g || Find(base, id).value.isOverlay
    requires Find(patched, id).Some? ==> Find(patched, id).value.group == g || Find(patched, id).value.isOverlay
    ensures IsPatched(groups[g := t], base, patched, done + {id})
  {
    hide HasDistinctIds, IsOrdered, IsChanged;
    GroupOf(groups, base, patched, done, id);
    forall h | h in groups ensures IsGroup(groups[g := t][h], base, patched, done + {id}, h) {
      if h == g {
        ChangedGroup(base, patched, done, id, g, groups[g], t);
      } else {
        OtherGroup(groups[h], id, Find(patched, id), h);
        ChangedGroup(base, patched, done, id, h, groups[h], groups[h]);
      }
    }
  }

  /** No group has an overlay, nor gets one. */
  lemma OverlayStep(groups: Groups, base: seq<Screen>, patched: seq<Screen>, done: set<nat>, id: nat)
    requires HasDistinctIds(base) && HasDistinctIds(patched)
    requires IsPatched(groups, base, patched, done) && id !in done
    requires IsOverlayIn(base, id) && IsOverlayIn(patched, id)
    ensures IsPatched(groups, base, patched, done + {id})
  {
    hide HasDistinctIds, IsOrdered, IsChanged;
    GroupOf(groups, base, patched, done, id);
    forall h | h in groups ensures IsGroup(groups[h], base, patched, done + {id}, h) {
      OtherGroup(groups[h], id, Find(patched, id), h);
      ChangedGroup(base, patched, done, id, h, groups[h], groups[h]);
    }
  }

  /** A removal leaves the group another screen exactly if it fits: what went before was removed too. */
  lemma RemovalFits(groups: Groups, base: seq<Screen>, patched: seq<Screen>, done: set<nat>, p: ScreenPatch)
    requires HasDistinctIds(base) && HasDistinctIds(patched)
    requires IsPatched(groups, base, patched, done) && p.id !in done && IsPatchOf(base, patched, p)
    requires p.action == Remove && !p.before.value.isOverlay
    requires forall id :: id in done ==> Find(patched, id).None?
    ensures p.before.value.group in groups
    ensures |groups[p.before.value.group]| > 1 <==> Fits(base, done, p)
  {
    hide HasDistinctIds, IsOrdered;
    var b := p.before.value;
    var g := b.group;
    GroupOf(groups, base, patched, done, p.id);
    assert IsGroup(groups[g], base, patched, done, g);
    OthersInGroup(groups[g], base, patched, done, g, b);
  }

  /** What else is in the group is of the first configuration, and not done. */
  lemma OthersInGroup(s: seq<Screen>, base: seq<Screen>, patched: seq<Screen>, done: set<nat>, g: nat, b: Screen)
    requires IsGroup(s, base, patched, done, g) && b in s
    requires forall id :: id in done ==> Find(patched, id).None?
    ensures |s| > 1 <==> exists x :: x in base && IsMember(x, g) && x.id != b.id && x.id !in done
  {
    hide HasDistinctIds, IsOrdered;
    var i :| 0 <= i < |s| && s[i] == b;
    if |s| > 1 {
      var y := s[if i == 0 then 1 else 0];
      DistinctPair(s, i, if i == 0 then 1 else 0);
      assert y in s;
      assert y in base && IsMember(y, g) && y.id != b.id && y.id !in done;
    }
    if x :| x in base && IsMember(x, g) && x.id != b.id && x.id !in done {
      assert IsWanted(base, patched, done, x);
      assert x in s;
    }
  }

  lemma DistinctPair(s: seq<Screen>, i: nat, j: nat)
    requires HasDistinctIds(s) && i < |s| && j < |s| && i != j
    ensures s[i].id != s[j].id
  {
    assert Ids(s)[i] != Ids(s)[j];
  }

  /** One patch: done where it fits, unless a screen cannot be built, or patched. */
  method PatchScreen(
    groups: Groups, p: ScreenPatch, ghost base: seq<Screen>, ghost patched: seq<Screen>, ghost done: set<nat>
  ) returns (outcome: Outcome, next: Groups)
    requires HasDistinctIds(base) && HasDistinctIds(patched)
    requires IsPatched(groups, base, patched, done) && p.id !in done && IsPatchOf(base, patched, p)
    requires p.action == Remove ==> forall id :: id in done ==> Find(patched, id).None?
    ensures outcome == Done ==> Fits(base, done, p) && IsPatched(next, base, patched, done + {p.id})
    ensures outcome == NeedsRebuild ==> !Fits(base, done, p)
  {
    hide HasDistinctIds, IsOrdered, IsChanged, Placed, Without, ByZ, IsGroup;
    GroupOf(groups, base, patched, done, p.id);
    if (p.before.Some? && p.before.value.isOverlay) || (p.after.Some? && p.after.value.isOverlay) {
      var isKept := p.action == Widgets || p.action == Rebuild;
      if !isKept || p.before.value.isOverlay != p.after.value.isOverlay {
        return NeedsRebuild, groups;
      }
      OverlayStep(groups, base, patched, done, p.id);
      return Done, groups;
    }
    var isDone, isFailing: bool := false, *;
    if p.action == Remove {
      RemovalFits(groups, base, patched, done, p);
      isDone, next := RemoveScreen(groups, p.id);
      ghost var g := p.before.value.group;
      OrderedGroup(groups, base, patched, done, g);
      RemovedFromGroup(groups[g], p.id, g);
      PatchedStep(groups, base, patched, done, p.id, g, Without(groups[g], p.id));
    } else {
      var x := p.after.value;
      if p.action != Widgets
         && ((p.before.Some? && p.before.value.group != x.group) || x.group !in groups)
      {
        return NeedsRebuild, groups;
      }
      if isFailing {
        return Failed, groups;
      }
      OrderedGroup(groups, base, patched, done, x.group);
      if p.action == Widgets {
        isDone, next := PatchWidgets(groups, x);
        ghost var g, i :| && g in groups && 0 <= i < |groups[g]| && groups[g][i].id == x.id
                          && next == groups[g := groups[g][i := x]];
        PatchedInGroup(groups[g], i, x);
        PatchedStep(groups, base, patched, done, p.id, g, groups[g][i := x]);
      } else {
        isDone, next := PutScreen(groups, x);
        PutInGroup(groups[x.group], x);
        PatchedStep(groups, base, patched, done, p.id, x.group, Placed(Without(groups[x.group], x.id), x, ByZ()));
      }
    }
    outcome := if isDone then Done else NeedsRebuild;
  }

  lemma OrderedGroup(groups: Groups, base: seq<Screen>, patched: seq<Screen>, done: set<nat>, g: nat)
    requires IsPatched(groups, base, patched, done) && g in groups
    ensures IsOrdered(groups[g], ByZ()) && HasDistinctIds(groups[g])
  {
  }

  lemma BuiltIsPatched(groups: Groups, base: seq<Screen>, patched: seq<Screen>)
    requires IsBuilt(groups, base) && HasDistinctIds(base)
    ensures IsPatched(groups, base, patched, {})
  {
    hide HasDistinctIds, Members, StableSorted;
    forall g ensures g in groups <==> HasMember(base, g) {
      HasMembers(base, g);
    }
    forall g | g in groups ensures IsGroup(groups[g], base, patched, {}, g) {
      var members := Members(base, g);
      InsertingSorts(members, ByZ());
      MembersAreDistinct(base, g);
      MembersAre(base, g);
      SameDistinctIds(members, groups[g]);
      assert forall x :: x in groups[g] <==> x in multiset(groups[g]);
      assert forall x :: x in members <==> x in multiset(members);
    }
  }

  lemma HasMembers(config: seq<Screen>, group: nat)
    ensures HasMember(config, group) <==> Members(config, group) != []
  {
    MembersAre(config, group);
    if Members(config, group) != [] {
      assert Members(config, group)[0] in Members(config, group);
    }
  }

  /** Distinct screens are arranged anew where they are the same ones. */
  lemma {:induction false} SameScreens(s: seq<Screen>, t: seq<Screen>)
    requires HasDistinctIds(s) && HasDistinctIds(t) && forall x :: x in s <==> x in t
    ensures multiset(s) == multiset(t)
  {
    forall x ensures multiset(s)[x] == multiset(t)[x] {
      ThereOnce(s, x);
      ThereOnce(t, x);
      assert (x in s <==> x in multiset(s)) && (x in t <==> x in multiset(t));
    }
  }

  /** All patches done and the groups ordered, the view is what a whole build gives. */
  lemma AllPatched(groups: Groups, base: seq<Screen>, patched: seq<Screen>, plan: seq<ScreenPatch>, ordered: Groups)
    requires HasDistinctIds(base) && HasDistinctIds(patched) && IsPlan(base, patched, plan)
    requires IsPatched(groups, base, patched, IdsOf(plan)) && CanPatch(base, patched)
    requires ordered.Keys == groups.Keys
    requires forall g :: g in groups ==>
               ordered[g] == if Members(patched, g) == [] then groups[g] else Ordered(patched, g, groups[g])
    ensures IsBuilt(ordered, patched)
  {
    hide HasDistinctIds, Members, StableSorted, IsOrdered, Ordered, Find;
    forall g ensures g in ordered <==> Members(patched, g) != [] {
      SameGroups(base, patched, g);
      HasMembers(patched, g);
    }
    forall g | g in ordered ensures ordered[g] == StableSorted(Members(patched, g), ByZ()) {
      assert IsGroup(groups[g], base, patched, IdsOf(plan), g);
      forall x ensures x in groups[g] <==> x in Members(patched, g) {
        FindIs(base, x);
        FindIs(patched, x);
        MembersAre(patched, g);
      }
      MembersAreDistinct(patched, g);
      SameScreens(groups[g], Members(patched, g));
      PatchedOrderIsBuildOrder(patched, g, groups[g]);
    }
  }

  lemma SameGroups(base: seq<Screen>, patched: seq<Screen>, g: nat)
    requires HasDistinctIds(base) && HasDistinctIds(patched) && CanPatch(base, patched)
    ensures HasMember(base, g) <==> HasMember(patched, g)
  {
    hide HasDistinctIds;
    if HasMember(base, g) {
      var x :| x in base && IsMember(x, g);
      assert IsKept(base, patched, g);
      var y :| y in base && IsMember(y, g) && Find(patched, y.id).Some?;
      var z := Find(patched, y.id).value;
      FindIs(base, y);
      assert IsOverlayIn(base, y.id) <==> IsOverlayIn(patched, y.id);
      assert IsMember(z, g);
    }
  }

  /**
   * The patches of a plan, and then the order. Where nothing fails to be built the view is what a whole build of the
   * patched configuration gives, and that exactly if the change can be done in place; else a whole build is asked for.
   */
  method ApplyPatch(groups: Groups, base: seq<Screen>, patched: seq<Screen>, plan: seq<ScreenPatch>)
    returns (outcome: Outcome, next: Groups)
    requires HasDistinctIds(base) && HasDistinctIds(patched)
    requires IsBuilt(groups, base) && IsPlan(base, patched, plan)
    ensures outcome == Done ==> IsBuilt(next, patched) && CanPatch(base, patched)
    ensures outcome == NeedsRebuild ==> !CanPatch(base, patched)
  {
    hide HasDistinctIds, IsPatched, CanPatch, IsBuilt, Find, Fits;
    next := groups;
    BuiltIsPatched(groups, base, patched);
    var k := 0;
    assert IdsOf(plan[..0]) == {};
    while k < |plan|
      invariant k <= |plan| && AllFit(base, plan, k)
      invariant IsPatched(next, base, patched, IdsOf(plan[..k]))
    {
      ghost var done := IdsOf(plan[..k]);
      DoneNext(base, patched, plan, k);
      outcome, next := PatchScreen(next, plan[k], base, patched, done);
      if outcome != Done {
        if outcome == NeedsRebuild && CanPatch(base, patched) {
          FitsIfCan(base, patched, plan, k);
        }
        return;
      }
      k := k + 1;
    }
    assert plan[..k] == plan;
    CanIfAllFit(base, patched, plan);
    ghost var unordered := next;
    next := OrderPatchedGroups(patched, next);
    AllPatched(unordered, base, patched, plan, next);
    outcome := Done;
  }

  lemma DoneNext(base: seq<Screen>, patched: seq<Screen>, plan: seq<ScreenPatch>, k: nat)
    requires IsPlan(base, patched, plan) && k < |plan|
    ensures plan[k].id !in IdsOf(plan[..k]) && IdsOf(plan[..k + 1]) == IdsOf(plan[..k]) + {plan[k].id}
    ensures plan[k].action == Remove ==> forall id :: id in IdsOf(plan[..k]) ==> Find(patched, id).None?
  {
    assert plan[..k + 1] == plan[..k] + [plan[k]];
    forall id | id in IdsOf(plan[..k]) ensures plan[k].action == Remove ==> Find(patched, id).None? {
      var i :| 0 <= i < k && plan[i].id == id;
      assert IsPatchOf(base, patched, plan[i]);
    }
  }
}

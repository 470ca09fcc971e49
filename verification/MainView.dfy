/**
 * The group on screen. However switches, renders that come later or fail, rollbacks and clearing follow one another,
 * the group named active is the one that is asked to be active, and it is as soon as it is rendered.
 */
module MainView {
  import opened Common

  /** A stack of screens, built when it is first shown. */
  class ScreenGroup {
    const id: nat
    var isRendered: bool
    var isRequested: bool
    var isActivated: bool
    /** The hidden flag of the group's container. */
    var isHidden: bool

    constructor (id: nat)
      ensures this.id == id && !isRendered && !isRequested && IsConsistent()
    {
      this.id := id;
      isRendered, isRequested, isActivated, isHidden := false, false, false, true;
    }

    /** Active exactly when that was asked for and the group is rendered; shown exactly when active. */
    ghost predicate IsConsistent()
      reads this
    {
      isActivated == (isRequested && isRendered) && isHidden == !isActivated
    }

    /** Builds the screens, which may fail; then a recorded request takes effect. */
    method EnsureRendered() returns (ok: bool)
      requires IsConsistent()
      modifies `isRendered, `isActivated, `isHidden
      ensures IsConsistent() && isRendered == (old(isRendered) || ok)
      ensures old(isRendered) ==> ok
      ensures !ok ==> unchanged(this)
    {
      if isRendered {
        return true;
      }
      ok := *;
      if !ok {
        return;
      }
      isRendered := true;
      ApplyActivation();
    }

    /** Recorded, and applied once the group is rendered. */
    method Activate()
      requires IsConsistent()
      modifies `isRequested, `isActivated, `isHidden
      ensures IsConsistent() && isRequested
    {
      isRequested := true;
      ApplyActivation();
    }

    method ApplyActivation()
      requires isActivated ==> isRequested && isRendered
      requires isHidden == !isActivated
      modifies `isActivated, `isHidden
      ensures IsConsistent()
    {
      if isActivated || !isRequested || !isRendered {
        return;
      }
      isHidden := false;
      isActivated := true;
    }

    method Deactivate()
      requires IsConsistent()
      modifies `isRequested, `isActivated, `isHidden
      ensures IsConsistent() && !isRequested
    {
      isRequested := false;
      if !isActivated {
        return;
      }
      isHidden := true;
      isActivated := false;
    }
  }

  /** A render on the work queue. It holds its groups weakly: they are there while the view has them. */
  datatype Deferred = Deferred(group: ScreenGroup, previous: Option<ScreenGroup>)

  ghost predicate IsQueued(queue: seq<Deferred>, group: ScreenGroup) {
    exists j :: 0 <= j < |queue| && queue[j].group == group
  }

  ghost predicate IsQueuedBeside(queue: seq<Deferred>, k: nat, group: ScreenGroup) {
    exists j :: 0 <= j < |queue| && j != k && queue[j].group == group
  }

  /** Without the render `k` the others are queued as they were. */
  lemma OthersStay(before: seq<Deferred>, k: nat, after: seq<Deferred>)
    requires k < |before| && after == before[..k] + before[k + 1..]
    ensures forall j :: 0 <= j < |after| ==> after[j] == before[if j < k then j else j + 1]
    ensures forall group :: IsQueued(after, group) <==> IsQueuedBeside(before, k, group)
  {
    forall group ensures IsQueued(after, group) <==> IsQueuedBeside(before, k, group) {
      if j :| 0 <= j < |before| && j != k && before[j].group == group {
        assert after[if j < k then j else j - 1] == before[j];
      }
    }
  }

  class MainView {
    var groups: map<nat, ScreenGroup>
    var active: Option<nat>
    var isReady: bool
    var hasDispatcher: bool
    var queue: seq<Deferred>

    constructor ()
      ensures Valid() && groups == map[] && !isReady
    {
      groups := map[];
      active := None;
      isReady := false;
      hasDispatcher := false;
      queue := [];
    }

    /**
     * In a ready view activation is asked of exactly the group named active; before, of none. A group that is active
     * is rendered and shown.
     */
    ghost predicate Valid()
      reads this, groups.Values
    {
      && (forall id :: id in groups ==> groups[id].id == id && groups[id].IsConsistent())
      && (forall id :: id in groups ==> groups[id].isRequested == (isReady && active == Some(id)))
      && (active.Some? ==> active.value in groups)
      && (|queue| > 0 ==> isReady)
      && (forall k :: 0 <= k < |queue| && queue[k].previous.Some? ==> queue[k].previous.value.id != queue[k].group.id)
    }

    /** The group is rendered, or will be: a render of it is queued. */
    ghost predicate IsComing(group: ScreenGroup)
      reads this, group
    {
      group.isRendered || IsQueued(queue, group)
    }

    /** What the user asked to see in a ready view is there or coming. */
    ghost predicate IsPromised()
      reads this, groups.Values
    {
      isReady && active.Some? && active.value in groups ==> IsComing(groups[active.value])
    }

    /** The group that a queued render would go back to, if it failed, is one that the view has. */
    ghost predicate HasPrevious(k: nat)
      requires k < |queue|
      reads this
    {
      queue[k].previous.Some? && queue[k].previous.value in groups.Values
    }

    /** That group is rendered, or will be by another render than this one. */
    ghost predicate CanGoBack(k: nat)
      requires k < |queue|
      reads this, groups.Values
    {
      HasPrevious(k) ==>
        var group := queue[k].previous.value;
        group.isRendered || IsQueuedBeside(queue, k, group)
    }

    /** At most one group is active, and it is the one named. */
    lemma OneActive(a: nat, b: nat)
      requires Valid() && a in groups && b in groups && groups[a].isActivated && groups[b].isActivated
      ensures a == b && active == Some(a) && groups[a].isRendered && !groups[a].isHidden
    {
    }

    /** The group named active in a ready view is shown, once it is rendered. */
    lemma ActiveIsShown()
      requires Valid() && isReady && active.Some?
      ensures groups[active.value].isRequested && (groups[active.value].isRendered ==> groups[active.value].isActivated)
    {
    }

    method GetOrCreateGroup(id: nat) returns (group: ScreenGroup)
      requires Valid()
      modifies this`groups
      ensures Valid() && id in groups && groups[id] == group
      ensures groups == if id in old(groups) then old(groups) else old(groups)[id := group]
      ensures id !in old(groups) ==> fresh(group)
    {
      if id in groups {
        return groups[id];
      }
      group := new ScreenGroup(id);
      groups := groups[id := group];
    }

    /** Drops the groups without screens; while a view is configured no group is active yet. */
    method PruneEmptyGroups(empty: set<nat>)
      requires Valid() && active == None
      modifies this`groups
      ensures Valid() && groups == old(groups) - empty
    {
      groups := groups - empty;
    }

    /** The groups are told that they stop, and go. */
    method Clear()
      requires Valid()
      modifies this`groups, this`active, groups.Values
      ensures Valid() && groups == map[] && active == None
      ensures forall g :: g in old(groups.Values) ==> !g.isRequested && !g.isActivated && g.isHidden
    {
      var rest := groups.Keys;
      while rest != {}
        invariant rest <= groups.Keys && groups == old(groups)
        invariant forall id :: id in groups ==> groups[id].id == id && groups[id].IsConsistent()
        invariant forall id :: id in groups && id !in rest ==> !groups[id].isRequested
        decreases |rest|
      {
        var id :| id in rest;
        groups[id].Deactivate();
        rest := rest - {id};
      }
      forall g | g in groups.Values ensures !g.isRequested && !g.isActivated && g.isHidden {
        assert groups[g.id] == g;
      }
      groups := map[];
      active := None;
    }

    /** The switch is to a group that has to be rendered first, and later. */
    predicate IsDeferring(id: nat, renderInline: bool)
      reads this, groups.Values
    {
      isReady && id in groups && active != Some(id) && !groups[id].isRendered && hasDispatcher && !renderInline
    }

    ghost function Switch(id: nat): Deferred
      requires Valid() && id in groups
      reads this, groups.Values
    {
      Deferred(groups[id], if active.Some? then Some(groups[active.value]) else None)
    }

    /** The group is asked to be active, and the one that was is not any more. */
    method MakeActive(id: nat) returns (previous: Option<ScreenGroup>)
      requires Valid() && isReady && id in groups && active != Some(id)
      modifies this`active, groups.Values
      ensures Valid() && active == Some(id)
      ensures previous == if old(active).Some? then Some(groups[old(active).value]) else None
      ensures forall g :: g in groups.Values ==> g.isRendered == old(g.isRendered)
    {
      previous := None;
      if active.Some? {
        previous := Some(groups[active.value]);
        previous.value.Deactivate();
      }
      groups[id].Activate();
      active := Some(id);
    }

    /** Switches to a group. One that is not rendered is, here or later; if that fails the switch is taken back. */
    method SetActiveGroup(id: nat, renderInline: bool) returns (ok: bool)
      requires Valid()
      modifies this`active, this`queue, groups.Values
      ensures Valid()
      ensures id !in groups ==> !ok && active == old(active) && queue == old(queue)
      ensures ok ==> active == Some(id)
      ensures !isReady && id in groups ==> ok
      ensures old(IsPromised()) || (ok && old(active) != Some(id)) ==> IsPromised()
      ensures queue == old(queue) + if old(IsDeferring(id, renderInline)) then [old(Switch(id))] else []
      ensures old(IsDeferring(id, renderInline)) ==>
                ok && forall g :: g in groups.Values ==> g.isRendered == old(g.isRendered)
      // Where the render failed the previous group is active again.
      ensures !ok && id in groups ==> active == old(active) && isReady && !groups[id].isRendered
    {
      if id !in groups {
        return false;
      }
      if !isReady {
        active := Some(id);
        return true;
      }
      if active == Some(id) {
        return true;
      }
      var group := groups[id];
      var previous := MakeActive(id);
      if group.isRendered {
        return true;
      }
      if hasDispatcher && !renderInline {
        queue := queue + [Deferred(group, previous)];
        assert queue[|queue| - 1].group == group;
        return true;
      }
      ok := RenderGroupOrRollBack(group, previous);
    }

    /** Renders the group. If that fails while it is the active one, the previous group is again, or none. */
    method RenderGroupOrRollBack(group: ScreenGroup, previous: Option<ScreenGroup>) returns (ok: bool)
      requires Valid() && isReady && group in groups.Values
      requires previous.Some? ==> previous.value in groups.Values && previous.value.id != group.id
      modifies this`active, groups.Values
      ensures Valid() && group.isRendered == (old(group.isRendered) || ok) && (old(group.isRendered) ==> ok)
      ensures ok || old(active) != Some(group.id) ==> active == old(active)
      ensures !ok && old(active) == Some(group.id) ==>
                active == if previous.Some? then Some(previous.value.id) else None
      ensures forall g :: g in groups.Values && g != group && Some(g) != previous ==> unchanged(g)
      ensures forall g :: g in groups.Values && g != group ==> g.isRendered == old(g.isRendered)
    {
      ok := group.EnsureRendered();
      if ok {
        return;
      }
      if active != Some(group.id) {
        return;
      }
      group.Deactivate();
      active := if previous.Some? then Some(previous.value.id) else None;
      if previous.Some? {
        previous.value.Activate();
      }
    }

    /**
     * A queued render. One whose group the view dropped meanwhile changes nothing. Where it fails, and the group is the
     * one named, the switch is taken back; the group named then is there or coming exactly if it was before.
     */
    method RunQueued(k: nat) returns (isTakenBack: bool)
      requires Valid() && k < |queue|
      modifies this`active, this`queue, groups.Values
      ensures Valid() && queue == old(queue)[..k] + old(queue)[k + 1..]
      ensures var work := old(queue)[k];
              && (isTakenBack ==>
                    work.group in groups.Values && old(active) == Some(work.group.id) && !work.group.isRendered)
              && (!isTakenBack ==> active == old(active))
              && (isTakenBack ==> active == if old(HasPrevious(k)) then Some(work.previous.value.id) else None)
      ensures old(queue)[k].group !in groups.Values ==>
                !isTakenBack && forall g :: g in groups.Values ==> unchanged(g)
      ensures var work := old(queue)[k];
              forall g :: g in groups.Values && g != work.group && Some(g) != work.previous ==> unchanged(g)
      ensures old(IsPromised()) ==> (IsPromised() <==> !isTakenBack || old(CanGoBack(k)))
    {
      var work := queue[k];
      ghost var before := queue;
      queue := queue[..k] + queue[k + 1..];
      OthersStay(before, k, queue);
      if work.group !in groups.Values {
        return false;
      }
      if work.group.id !in groups || groups[work.group.id] != work.group {
        return false;
      }
      // A previous group that is gone is none.
      var previous := if work.previous.Some? && work.previous.value in groups.Values then work.previous else None;
      var wasNamed := active == Some(work.group.id);
      var ok := RenderGroupOrRollBack(work.group, previous);
      isTakenBack := !ok && wasNamed;
    }

    /**
     * Two switches, both deferred, of which both renders fail: the group named is the first one, and it is neither
     * rendered nor coming.
     */
    method SwitchTwice(b: nat, c: nat) returns (isFirstRendered: bool, isTakenBack: bool)
      requires Valid() && isReady && hasDispatcher && queue == [] && b != c && active != Some(b) && active != Some(c)
      requires b in groups && c in groups && !groups[b].isRendered && !groups[c].isRendered
      modifies this`active, this`queue, groups.Values
      ensures Valid() && groups == old(groups)
      ensures isTakenBack && !isFirstRendered ==> active == Some(b) && !IsPromised()
    {
      var first, second := groups[b], groups[c];
      var ok := SetActiveGroup(b, false);
      ok := SetActiveGroup(c, false);
      isTakenBack := RunQueued(0);
      isFirstRendered := first.isRendered;
      isTakenBack := RunQueued(0);
    }

    /** Renders the view, with the group that was chosen for it. */
    method Render() returns (ok: bool)
      requires Valid()
      modifies this`isReady, groups.Values
      ensures Valid() && active == old(active)
      ensures ok ==> isReady && active.Some? && groups[active.value].isActivated && IsPromised()
      ensures !ok ==> isReady == old(isReady) && forall g :: g in groups.Values ==> unchanged(g)
    {
      if active.None? || active.value !in groups {
        return false;
      }
      var group := groups[active.value];
      ok := group.EnsureRendered();
      if !ok {
        return;
      }
      group.Activate();
      isReady := true;
    }

    /**
     * Any switches, queued renders, builds, renders and clearings, in any order. What is named stays there or coming as
     * long as no switch is taken back to a group that is neither.
     */
    method Run(steps: nat) returns (ghost isLost: bool)
      requires Valid()
      modifies this, groups.Values
      ensures Valid()
      ensures old(IsPromised()) && !isLost ==> IsPromised()
    {
      isLost := false;
      var n := 0;
      while n < steps
        invariant Valid() && fresh(groups.Values - old(groups.Values))
        invariant old(IsPromised()) && !isLost ==> IsPromised()
      {
        var id: nat, k: nat, inline: bool := *, *, *;
        if * {
          var ok := SetActiveGroup(id, inline);
        } else if * {
          var group := GetOrCreateGroup(id);
        } else if * {
          Clear();
        } else if * {
          var ok := Render();
        } else if * {
          hasDispatcher := !hasDispatcher;
        } else if k < |queue| {
          ghost var canGoBack := CanGoBack(k);
          var isTakenBack := RunQueued(k);
          isLost := isLost || (isTakenBack && !canGoBack);
        }
        n := n + 1;
      }
    }
  }
}

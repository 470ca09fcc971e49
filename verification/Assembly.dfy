/**
 * Building a screen's widget forest. What is owned by the chosen roots is created once, owners first and siblings in
 * drawing order, configured once, children first, and moved to its owner; a failure leaves nothing behind.
 */
module Assembly {
  import opened Common
  import opened Sorting

  /** The relations between the widgets of a screen, as indices of their definitions. */
  datatype Composition = Composition(children: seq<seq<nat>>, roots: seq<nat>, postorder: seq<nat>)

  /** A widget that was created; it owns the widgets it was configured with. */
  datatype Widget = Widget(index: nat, isConfigured: bool, children: seq<Widget>)

  datatype Creation = Creation(index: nat, mount: Option<nat>)

  ghost predicate IsChild(c: Composition, owner: nat, child: nat) {
    owner < |c.children| && child in c.children[owner]
  }

  ghost predicate HasOwner(c: Composition, i: nat) { exists p :: IsChild(c, p, i) }

  /** The composition of a validated screen: a forest, with its descendants before their owners in the postorder. */
  ghost predicate IsForest(c: Composition) {
    var n := |c.children|;
    && |c.postorder| == n && AreDistinct(c.postorder)
    && (forall p :: 0 <= p < n ==> c.postorder[p] < n)
    && (forall i :: 0 <= i < n ==> i in c.postorder)
    && (forall p :: 0 <= p < n ==> AreDistinct(c.children[p]))
    && (forall p: nat, i: nat :: IsChild(c, p, i) ==> i < n)
    && (forall p: nat, q: nat, i: nat :: IsChild(c, p, i) && IsChild(c, q, i) ==> p == q)
    && (forall a, b :: 0 <= a < n && 0 <= b < n && IsChild(c, c.postorder[a], c.postorder[b]) ==> b < a)
    && AreDistinct(c.roots)
    && (forall i: nat :: i in c.roots <==> i < n && !HasOwner(c, i))
  }

  /** Where a widget is in the postorder. */
  ghost function Place(c: Composition, i: nat): (p: nat)
    requires IsForest(c) && i < |c.children|
    ensures p < |c.children| && c.postorder[p] == i
  {
    assert i in c.postorder;
    var p: nat :| p < |c.postorder| && c.postorder[p] == i;
    p
  }

  lemma PlaceOf(c: Composition, p: nat)
    requires IsForest(c) && p < |c.children|
    ensures Place(c, c.postorder[p]) == p
  {
  }

  ghost function Owner(c: Composition, i: nat): (owner: Option<nat>)
    requires IsForest(c) && i < |c.children|
    ensures owner.Some? ==> IsChild(c, owner.value, i) && Place(c, i) < Place(c, owner.value)
    ensures owner.None? <==> i in c.roots
  {
    if HasOwner(c, i) then
      var p :| IsChild(c, p, i);
      assert IsChild(c, c.postorder[Place(c, p)], c.postorder[Place(c, i)]);
      Some(p)
    else None
  }

  lemma OwnerIs(c: Composition, p: nat, i: nat)
    requires IsForest(c) && IsChild(c, p, i)
    ensures i < |c.children| && Owner(c, i) == Some(p) && Place(c, i) < Place(c, p)
  {
    assert HasOwner(c, i);
  }

  /** The root that a widget belongs to, by way of its owners. */
  ghost function RootOf(c: Composition, i: nat): (root: nat)
    requires IsForest(c) && i < |c.children|
    ensures root in c.roots
    decreases |c.children| - Place(c, i)
  {
    if Owner(c, i).None? then i else RootOf(c, Owner(c, i).value)
  }

  /** The widget that a definition comes to, with everything it owns. */
  ghost function Built(c: Composition, i: nat): Widget
    requires IsForest(c) && i < |c.children|
    decreases Place(c, i)
  {
    Widget(i, true, BuiltAll(c, i, |c.children[i]|))
  }

  /** The first `n` of a widget's children. */
  ghost function BuiltAll(c: Composition, i: nat, n: nat): (all: seq<Widget>)
    requires IsForest(c) && i < |c.children| && n <= |c.children[i]|
    ensures |all| == n
    decreases Place(c, i), 0, n
  {
    if n == 0 then []
    else
      assert IsChild(c, i, c.children[i][n - 1]);
      OwnerIs(c, i, c.children[i][n - 1]);
      BuiltAll(c, i, n - 1) + [Built(c, c.children[i][n - 1])]
  }

  /** The chosen roots, in definition order. */
  function ChosenRoots(roots: seq<nat>, ids: seq<nat>, only: Option<nat>): (chosen: seq<nat>)
    requires forall k :: 0 <= k < |roots| ==> roots[k] < |ids|
  {
    if |roots| == 0 then []
    else
      var rest := ChosenRoots(roots[..|roots| - 1], ids, only);
      var root := roots[|roots| - 1];
      if only.None? || ids[root] == only.value then rest + [root] else rest
  }

  lemma {:induction false} ChosenRootsAre(roots: seq<nat>, ids: seq<nat>, only: Option<nat>)
    requires AreDistinct(roots) && forall k :: 0 <= k < |roots| ==> roots[k] < |ids|
    ensures var chosen := ChosenRoots(roots, ids, only);
            && AreDistinct(chosen)
            && (forall i :: i in chosen <==> i in roots && (only.None? || ids[i] == only.value))
    decreases |roots|
  {
    if |roots| == 0 {
    } else {
      var before := roots[..|roots| - 1];
      var root := roots[|roots| - 1];
      ChosenRootsAre(before, ids, only);
      assert roots == before + [root];
      assert root !in before;
    }
  }

  ghost predicate AreRoots(c: Composition, chosen: seq<nat>) {
    IsForest(c) && AreDistinct(chosen) && forall i :: i in chosen ==> i in c.roots
  }

  /** The widget is owned by a chosen root, and its owner is at `p` or later in the postorder. */
  ghost predicate IsReached(c: Composition, chosen: seq<nat>, i: nat, p: nat)
    requires IsForest(c) && i < |c.children|
  {
    RootOf(c, i) in chosen && (Owner(c, i).None? || Place(c, Owner(c, i).value) >= p)
  }

  /** Going one place down the postorder reaches the children of the widget there, if that was reached. */
  lemma ReachedNext(c: Composition, chosen: seq<nat>, i: nat, p: nat)
    requires AreRoots(c, chosen) && i < |c.children| && p < |c.children|
    ensures IsReached(c, chosen, i, p) <==>
            IsReached(c, chosen, i, p + 1) ||
            (IsReached(c, chosen, c.postorder[p], p + 1) && i in c.children[c.postorder[p]])
  {
    var owner := c.postorder[p];
    PlaceOf(c, p);
    if i in c.children[owner] {
      assert IsChild(c, owner, i);
      OwnerIs(c, owner, i);
      assert Owner(c, owner).Some? ==> Place(c, Owner(c, owner).value) > p;
    }
  }

  /** What the chosen roots own: marked from the owners down. */
  method Include(c: Composition, chosen: seq<nat>) returns (included: seq<bool>)
    requires AreRoots(c, chosen)
    ensures |included| == |c.children|
    ensures forall i :: 0 <= i < |included| ==> (included[i] <==> RootOf(c, i) in chosen)
  {
    var n := |c.children|;
    included := seq(n, _ => false);
    var k := 0;
    while k < |chosen|
      invariant k <= |chosen| && |included| == n
      invariant forall i :: 0 <= i < n ==> (included[i] <==> i in chosen[..k])
    {
      assert chosen[k] in chosen;
      included := included[chosen[k] := true];
      assert chosen[..k + 1] == chosen[..k] + [chosen[k]];
      k := k + 1;
    }
    assert chosen[..k] == chosen;
    forall i | 0 <= i < n ensures i in chosen <==> IsReached(c, chosen, i, n) {
    }
    var p := n;
    while p > 0
      invariant p <= n && |included| == n
      invariant forall i :: 0 <= i < n ==> (included[i] <==> IsReached(c, chosen, i, p))
    {
      p := p - 1;
      var owner := c.postorder[p];
      assert forall k :: 0 <= k < |c.children[owner]| ==> IsChild(c, owner, c.children[owner][k]);
      if included[owner] {
        included := IncludeChildren(c.children[owner], included);
      }
      forall i | 0 <= i < n ensures included[i] <==> IsReached(c, chosen, i, p) {
        ReachedNext(c, chosen, i, p);
      }
    }
  }

  method IncludeChildren(children: seq<nat>, before: seq<bool>) returns (included: seq<bool>)
    requires forall k :: 0 <= k < |children| ==> children[k] < |before|
    ensures |included| == |before|
    ensures forall i :: 0 <= i < |before| ==> (included[i] <==> before[i] || i in children)
  {
    included := before;
    var k := 0;
    while k < |children|
      invariant k <= |children| && |included| == |before|
      invariant forall i :: 0 <= i < |before| ==> (included[i] <==> before[i] || i in children[..k])
    {
      included := included[children[k] := true];
      assert children[..k + 1] == children[..k] + [children[k]];
      k := k + 1;
    }
    assert children[..k] == children;
  }

  // Every widget that was created is in a slot, owned, or destroyed.

  type Slots = seq<Option<Widget>>

  function Indices(w: Widget): multiset<nat> { multiset{w.index} + IndicesOfAll(w.children) }

  function IndicesOfAll(all: seq<Widget>): multiset<nat> {
    if |all| == 0 then multiset{} else IndicesOfAll(all[..|all| - 1]) + Indices(all[|all| - 1])
  }

  function IndicesOf(slot: Option<Widget>): multiset<nat> { if slot.None? then multiset{} else Indices(slot.value) }

  function Held(instances: Slots): multiset<nat> {
    if |instances| == 0 then multiset{}
    else Held(instances[..|instances| - 1]) + IndicesOf(instances[|instances| - 1])
  }

  lemma Carried(a: multiset<nat>, x: multiset<nat>, b: multiset<nat>, y: multiset<nat>, z: multiset<nat>)
    requires a + x == b + y
    ensures a + z + x == b + z + y
  {
    assert a + z + x == (a + x) + z;
  }

  lemma {:induction false} HeldUpdate(instances: Slots, i: nat, slot: Option<Widget>)
    requires i < |instances|
    ensures Held(instances[i := slot]) + IndicesOf(instances[i]) == Held(instances) + IndicesOf(slot)
    decreases |instances|
  {
    var n := |instances| - 1;
    hide IndicesOf;
    if i == n {
      assert instances[i := slot][..n] == instances[..n];
    } else {
      assert instances[i := slot][..n] == instances[..n][i := slot];
      HeldUpdate(instances[..n], i, slot);
      Carried(Held(instances[..n][i := slot]), IndicesOf(instances[i]), Held(instances[..n]), IndicesOf(slot),
              IndicesOf(instances[n]));
    }
  }

  lemma {:induction false} NothingHeld(instances: Slots)
    requires forall i :: 0 <= i < |instances| ==> instances[i].None?
    ensures Held(instances) == multiset{}
  {
    if |instances| == 0 {
    } else {
      NothingHeld(instances[..|instances| - 1]);
    }
  }

  function CreatedIndices(created: seq<Creation>): multiset<nat> {
    if |created| == 0 then multiset{}
    else CreatedIndices(created[..|created| - 1]) + multiset{created[|created| - 1].index}
  }

  // Creating.

  function Bare(i: nat): Widget { Widget(i, false, []) }

  ghost predicate IsCreated(created: seq<Creation>, i: nat) {
    exists k :: 0 <= k < |created| && created[k].index == i
  }

  /** Each was created once, in its owner, after its owner, and after the siblings that are drawn before it. */
  ghost predicate IsWellCreated(c: Composition, z: seq<int>, created: seq<Creation>)
    requires IsForest(c) && |z| == |c.children|
  {
    && (forall k :: 0 <= k < |created| ==> created[k].index < |z| && created[k].mount == Owner(c, created[k].index))
    && (forall j, k :: 0 <= j < k < |created| ==> created[j].index != created[k].index)
    && (forall k :: 0 <= k < |created| && created[k].mount.Some? ==> IsCreated(created[..k], created[k].mount.value))
    && (forall j, k :: 0 <= j < k < |created| && created[j].mount == created[k].mount ==>
          IsBefore(z, created[j].index, created[k].index))
  }

  /** The slots hold what was created, not configured yet. */
  ghost predicate AreBare(instances: Slots, created: seq<Creation>) {
    && (forall i :: 0 <= i < |instances| ==> (instances[i].Some? <==> IsCreated(created, i)))
    && (forall i :: 0 <= i < |instances| && instances[i].Some? ==> instances[i].value == Bare(i))
    && Held(instances) == CreatedIndices(created)
  }

  lemma IsCreatedNext(created: seq<Creation>, i: nat, mount: Option<nat>)
    ensures forall x :: IsCreated(created + [Creation(i, mount)], x) <==> IsCreated(created, x) || x == i
  {
    var next := created + [Creation(i, mount)];
    forall x ensures IsCreated(next, x) <==> IsCreated(created, x) || x == i {
      if IsCreated(created, x) {
        var k :| 0 <= k < |created| && created[k].index == x;
        assert next[k].index == x;
      }
      assert next[|created|].index == i;
    }
  }

  lemma HeldNext(instances: Slots, created: seq<Creation>, i: nat, mount: Option<nat>)
    requires i < |instances| && instances[i].None? && Held(instances) == CreatedIndices(created)
    ensures Held(instances[i := Some(Bare(i))]) == CreatedIndices(created + [Creation(i, mount)])
  {
    HeldUpdate(instances, i, Some(Bare(i)));
    hide Held;
    assert IndicesOf(instances[i]) == multiset{};
    assert IndicesOf(Some(Bare(i))) == multiset{i} + IndicesOfAll([]) == multiset{i};
    assert (created + [Creation(i, mount)])[..|created|] == created;
  }

  lemma CreatedOne(instances: Slots, created: seq<Creation>, i: nat, mount: Option<nat>)
    requires AreBare(instances, created) && i < |instances| && !IsCreated(created, i)
    ensures AreBare(instances[i := Some(Bare(i))], created + [Creation(i, mount)])
    ensures forall x :: IsCreated(created + [Creation(i, mount)], x) <==> IsCreated(created, x) || x == i
  {
    hide IsCreated, Held, CreatedIndices;
    IsCreatedNext(created, i, mount);
    HeldNext(instances, created, i, mount);
  }

  lemma WellCreatedOne(c: Composition, z: seq<int>, created: seq<Creation>, i: nat, mount: Option<nat>)
    requires IsForest(c) && |z| == |c.children| && IsWellCreated(c, z, created)
    requires i < |z| && mount == Owner(c, i) && !IsCreated(created, i)
    requires mount.Some? ==> IsCreated(created, mount.value)
    requires forall k :: 0 <= k < |created| && created[k].mount == mount ==> IsBefore(z, created[k].index, i)
    ensures IsWellCreated(c, z, created + [Creation(i, mount)])
  {
    hide IsForest, IsBefore;
    var next := created + [Creation(i, mount)];
    assert forall k :: 0 <= k < |created| ==> created[k].index != i;
    hide IsCreated;
    forall k | 0 <= k < |next| && next[k].mount.Some? ensures IsCreated(next[..k], next[k].mount.value) {
      assert next[..k] == created[..k];
      assert created[..|created|] == created;
    }
  }

  /**
   * Creates the children of one owner, or the roots, in drawing order. The factory may fail at any of them. None of
   * them is there before, nor anything else with the same owner.
   */
  method Construct(c: Composition, z: seq<int>, indices: seq<nat>, mount: Option<nat>,
                   before: Slots, createdBefore: seq<Creation>)
    returns (ok: bool, instances: Slots, created: seq<Creation>)
    requires IsForest(c) && |z| == |c.children| == |before| && AreIndices(z, indices) && AreDistinct(indices)
    requires AreBare(before, createdBefore) && IsWellCreated(c, z, createdBefore)
    requires forall i :: i in indices ==> Owner(c, i) == mount && !IsCreated(createdBefore, i)
    requires mount.Some? ==> IsCreated(createdBefore, mount.value)
    requires forall k :: 0 <= k < |createdBefore| ==> createdBefore[k].mount != mount
    ensures |instances| == |before| && AreBare(instances, created) && IsWellCreated(c, z, created)
    ensures forall x :: IsCreated(createdBefore, x) ==> IsCreated(created, x)
    ensures forall k :: 0 <= k < |created| ==>
              (k < |createdBefore| && created[k] == createdBefore[k]) || created[k].mount == mount
    ensures ok ==> forall x :: IsCreated(created, x) <==> IsCreated(createdBefore, x) || x in indices
  {
    hide Owner, IsForest, AreBare, IsWellCreated, Sorted, IsCreated;
    SortedElements(z, indices);
    var siblings := Sorted(z, indices);
    instances, created := before, createdBefore;
    var k := 0;
    while k < |siblings|
      invariant k <= |siblings| && |instances| == |before|
      invariant AreBare(instances, created) && IsWellCreated(c, z, created)
      invariant forall x :: IsCreated(created, x) <==> IsCreated(createdBefore, x) || x in siblings[..k]
      invariant forall j :: 0 <= j < |created| ==>
                  (j < |createdBefore| && created[j] == createdBefore[j]) ||
                  (created[j].mount == mount && created[j].index in siblings[..k])
    {
      var i := siblings[k];
      var fails: bool := *;
      if fails {
        return false, instances, created;
      }
      assert i in siblings && i !in siblings[..k];
      CreatedOne(instances, created, i, mount);
      WellCreatedOne(c, z, created, i, mount);
      instances := instances[i := Some(Bare(i))];
      created := created + [Creation(i, mount)];
      assert siblings[..k + 1] == siblings[..k] + [i];
      k := k + 1;
    }
    assert siblings[..k] == siblings;
    ok := true;
  }

  /** Creates the chosen roots, then the children of every owner, each before its own. */
  method CreateForest(c: Composition, z: seq<int>, chosen: seq<nat>, included: seq<bool>)
    returns (ok: bool, instances: Slots, created: seq<Creation>)
    requires AreRoots(c, chosen) && |z| == |c.children| == |included|
    requires forall i :: 0 <= i < |included| ==> (included[i] <==> RootOf(c, i) in chosen)
    ensures |instances| == |z| && AreBare(instances, created) && IsWellCreated(c, z, created)
    ensures ok ==> forall i :: 0 <= i < |z| ==> (IsCreated(created, i) <==> included[i])
  {
    var n := |c.children|;
    instances, created := seq(n, _ => None), [];
    NothingHeld(instances);
    assert IsWellCreated(c, z, created) && AreBare(instances, created);
    ChosenAreReached(c, chosen);
    hide RootOf, Owner, IsForest, AreBare, IsWellCreated, IsCreated, IsReached;
    assert forall i :: !IsCreated([], i) by {
      NothingCreated();
    }
    ok, instances, created := Construct(c, z, chosen, None, instances, created);
    if !ok {
      return;
    }
    var gridFails: bool := *;
    if gridFails {
      return false, instances, created;
    }
    var p := n;
    while p > 0
      invariant p <= n && |instances| == n && AreBare(instances, created) && IsWellCreated(c, z, created)
      invariant forall i :: 0 <= i < n ==> (IsCreated(created, i) <==> IsReached(c, chosen, i, p))
    {
      p := p - 1;
      var owner := PlaceIsWidget(c, p);
      var children := c.children[owner];
      ReachedChildren(c, chosen, z, created, p);
      if included[owner] && |children| > 0 {
        ok, instances, created := Construct(c, z, children, Some(owner), instances, created);
        if !ok {
          return;
        }
      }
    }
    ok := true;
  }

  lemma NothingCreated()
    ensures forall i :: !IsCreated([], i)
  {
  }

  method PlaceIsWidget(c: Composition, p: nat) returns (i: nat)
    requires IsForest(c) && p < |c.children|
    ensures i == c.postorder[p] < |c.children|
  {
    i := c.postorder[p];
  }

  /** The roots are what is reached from beyond the last place. */
  lemma ChosenAreReached(c: Composition, chosen: seq<nat>)
    requires AreRoots(c, chosen)
    ensures forall i :: 0 <= i < |c.children| ==> (i in chosen <==> IsReached(c, chosen, i, |c.children|))
    ensures forall i :: i in chosen ==> i < |c.children| && Owner(c, i) == None
    ensures AreIndices(seq(|c.children|, _ => 0), chosen)
  {
    assert forall k :: 0 <= k < |chosen| ==> chosen[k] in chosen;
  }

  /** What going down to place `p` needs: its children are new, and so is everything that they own. */
  lemma ReachedChildren(c: Composition, chosen: seq<nat>, z: seq<int>, created: seq<Creation>, p: nat)
    requires AreRoots(c, chosen) && |z| == |c.children| && p < |z| && IsWellCreated(c, z, created)
    requires forall i :: 0 <= i < |z| ==> (IsCreated(created, i) <==> IsReached(c, chosen, i, p + 1))
    ensures var owner := c.postorder[p]; var children := c.children[owner];
            && owner < |z| && AreIndices(z, children) && AreDistinct(children)
            && (RootOf(c, owner) in chosen <==> IsCreated(created, owner))
            && (forall i :: i in children ==> Owner(c, i) == Some(owner) && !IsCreated(created, i))
            && (forall k :: 0 <= k < |created| ==> created[k].mount != Some(owner))
            && (forall i :: 0 <= i < |z| ==>
                 (IsReached(c, chosen, i, p) <==>
                  IsCreated(created, i) || (RootOf(c, owner) in chosen && i in children)))
  {
    var owner := c.postorder[p];
    var children := c.children[owner];
    PlaceOf(c, p);
    forall k | 0 <= k < |children| ensures children[k] < |z| {
      assert IsChild(c, owner, children[k]);
    }
    forall i | i in children ensures Owner(c, i) == Some(owner) && !IsCreated(created, i) {
      assert IsChild(c, owner, i);
      OwnerIs(c, owner, i);
    }
    forall k | 0 <= k < |created| ensures created[k].mount != Some(owner) {
      assert IsCreated(created, created[k].index);
    }
    assert RootOf(c, owner) in chosen <==> IsReached(c, chosen, owner, p + 1);
    forall i | 0 <= i < |z|
      ensures IsReached(c, chosen, i, p) <==>
              IsCreated(created, i) || (RootOf(c, owner) in chosen && i in children)
    {
      ReachedNext(c, chosen, i, p);
    }
  }

  // Configuring.

  /** Up to place `p` the widgets are built: they are with their owners, if those are configured too. */
  ghost predicate IsConfiguredTo(c: Composition, chosen: seq<nat>, instances: Slots, p: nat)
    requires IsForest(c)
  {
    && |instances| == |c.children|
    && forall i :: 0 <= i < |instances| ==> instances[i] == SlotAt(c, chosen, i, p)
  }

  ghost function SlotAt(c: Composition, chosen: seq<nat>, i: nat, p: nat): Option<Widget>
    requires IsForest(c) && i < |c.children|
  {
    if RootOf(c, i) !in chosen then None
    else if Place(c, i) >= p then Some(Bare(i))
    else if Owner(c, i).Some? && Place(c, Owner(c, i).value) < p then None
    else Some(Built(c, i))
  }

  /** The widgets at the first `p` places that a chosen root owns. */
  ghost function OwnedTo(c: Composition, chosen: seq<nat>, p: nat): seq<nat>
    requires IsForest(c) && p <= |c.children|
  {
    if p == 0 then []
    else
      var i := c.postorder[p - 1];
      OwnedTo(c, chosen, p - 1) + if RootOf(c, i) in chosen then [i] else []
  }

  lemma PlaceBelow(c: Composition, p: nat)
    requires IsForest(c) && p < |c.children|
    ensures c.postorder[p] < |c.children| && Place(c, c.postorder[p]) == p
    ensures forall i :: 0 <= i < |c.children| && Place(c, i) == p ==> i == c.postorder[p]
  {
    PlaceOf(c, p);
  }

  /** Each was configured once, and its children before it. */
  lemma {:induction false} OwnedChildrenFirst(c: Composition, chosen: seq<nat>, p: nat)
    requires IsForest(c) && p <= |c.children|
    ensures var all := OwnedTo(c, chosen, p);
            && (forall k :: 0 <= k < |all| ==>
                              all[k] < |c.children| && RootOf(c, all[k]) in chosen && Place(c, all[k]) < p)
            && (forall i :: 0 <= i < |c.children| && RootOf(c, i) in chosen && Place(c, i) < p ==> i in all)
            && (forall j, k :: 0 <= j < k < |all| ==> Place(c, all[j]) < Place(c, all[k]))
            && (forall j, k :: 0 <= j < |all| && 0 <= k < |all| && IsChild(c, all[j], all[k]) ==> k < j)
    decreases p
  {
    hide IsForest, Owner, RootOf;
    if p > 0 {
      OwnedChildrenFirst(c, chosen, p - 1);
      PlaceBelow(c, p - 1);
    }
    var all := OwnedTo(c, chosen, p);
    forall j, k | 0 <= j < |all| && 0 <= k < |all| && IsChild(c, all[j], all[k]) ensures k < j {
      OwnerIs(c, all[j], all[k]);
    }
  }

  /** The widget at place `p` has the slots of its children full, and the others stay as they are. */
  lemma ConfiguredNext(c: Composition, chosen: seq<nat>, p: nat, i: nat)
    requires IsForest(c) && p < |c.children| && i < |c.children|
    ensures ConfiguredStep(c, chosen, p, i)
  {
    hide Built;
    var owner := c.postorder[p];
    PlaceOf(c, p);
    if i in c.children[owner] {
      assert IsChild(c, owner, i);
      OwnerIs(c, owner, i);
    }
    assert Place(c, i) == p ==> i == owner;
    assert Owner(c, i) == Some(owner) ==> i in c.children[owner];
    assert Owner(c, i).Some? && Place(c, Owner(c, i).value) == p ==> Owner(c, i) == Some(owner);
  }

  /** Moves the children of the widget at place `p` out of their slots. */
  method TakeChildren(c: Composition, chosen: seq<nat>, p: nat, before: Slots)
    returns (children: seq<Widget>, instances: Slots)
    requires IsForest(c) && p < |c.children| && IsConfiguredTo(c, chosen, before, p)
    requires RootOf(c, c.postorder[p]) in chosen
    ensures var owner := c.postorder[p];
            && children == BuiltAll(c, owner, |c.children[owner]|)
            && |instances| == |before|
            && (forall i :: 0 <= i < |before| ==> instances[i] == if i in c.children[owner] then None else before[i])
    ensures Held(instances) + IndicesOfAll(children) == Held(before)
  {
    hide *;
    var owner := PlaceIsWidget(c, p);
    var indices := c.children[owner];
    ChildrenAreBuilt(c, chosen, p, before);
    children, instances := [], before;
    NoneTaken();
    assert BuiltAll(c, owner, 0) == [];
    var k := 0;
    while k < |indices|
      invariant k <= |indices| && |instances| == |before| && children == BuiltAll(c, owner, k)
      invariant forall i :: 0 <= i < |before| ==> instances[i] == if i in indices[..k] then None else before[i]
      invariant Held(instances) + IndicesOfAll(children) == Held(before)
    {
      var child := indices[k];
      NotYetTaken(c, owner, k);
      TakenOne(instances, child, children, before);
      BuiltAllNext(c, owner, k);
      children := children + [instances[child].value];
      instances := instances[child := None];
      assert indices[..k + 1] == indices[..k] + [child];
      k := k + 1;
    }
    assert indices[..k] == indices;
  }

  lemma ChildrenAreBuilt(c: Composition, chosen: seq<nat>, p: nat, before: Slots)
    requires IsForest(c) && p < |c.children| && IsConfiguredTo(c, chosen, before, p)
    requires RootOf(c, c.postorder[p]) in chosen
    ensures |before| == |c.children|
    ensures var indices := c.children[c.postorder[p]];
            forall k :: 0 <= k < |indices| ==>
              indices[k] < |before| && before[indices[k]] == Some(Built(c, indices[k]))
  {
    hide Built;
    var indices := c.children[c.postorder[p]];
    forall k | 0 <= k < |indices| ensures indices[k] < |before| && before[indices[k]] == Some(Built(c, indices[k])) {
      assert IsChild(c, c.postorder[p], indices[k]);
      ConfiguredNext(c, chosen, p, indices[k]);
    }
  }

  lemma NotYetTaken(c: Composition, owner: nat, k: nat)
    requires IsForest(c) && owner < |c.children| && k < |c.children[owner]|
    ensures c.children[owner][k] !in c.children[owner][..k]
  {
  }

  lemma BuiltAllNext(c: Composition, owner: nat, k: nat)
    requires IsForest(c) && owner < |c.children| && k < |c.children[owner]|
    ensures c.children[owner][k] < |c.children|
    ensures BuiltAll(c, owner, k + 1) == BuiltAll(c, owner, k) + [Built(c, c.children[owner][k])]
  {
    assert IsChild(c, owner, c.children[owner][k]);
  }

  lemma NoneTaken()
    ensures IndicesOfAll([]) == multiset{}
  {
  }

  lemma TakenOne(instances: Slots, i: nat, taken: seq<Widget>, before: Slots)
    requires i < |instances| && instances[i].Some?
    requires Held(instances) + IndicesOfAll(taken) == Held(before)
    ensures Held(instances[i := None]) + IndicesOfAll(taken + [instances[i].value]) == Held(before)
  {
    HeldUpdate(instances, i, None);
    hide Held, Indices;
    var w := instances[i].value;
    assert (taken + [w])[..|taken|] == taken;
    assert Held(instances) == Held(instances[i := None]) + Indices(w);
  }

  /** Configures every widget after all it owns, which it is given. A configuration may fail. */
  method ConfigureForest(c: Composition, chosen: seq<nat>, included: seq<bool>, before: Slots)
    returns (ok: bool, instances: Slots, configured: seq<nat>, ghost destroyed: multiset<nat>)
    requires IsForest(c) && |included| == |c.children| == |before|
    requires forall i :: 0 <= i < |included| ==> (included[i] <==> RootOf(c, i) in chosen)
    requires IsConfiguredTo(c, chosen, before, 0)
    ensures |instances| == |before| && Held(instances) + destroyed == Held(before)
    ensures ok ==> IsConfiguredTo(c, chosen, instances, |c.children|) && destroyed == multiset{}
    ensures ok ==> configured == OwnedTo(c, chosen, |c.children|)
  {
    hide *;
    instances, configured, destroyed := before, [], multiset{};
    NoneOwned(c, chosen);
    var p := 0;
    while p < |c.children|
      invariant p <= |c.children| && |instances| == |before| && IsConfiguredTo(c, chosen, instances, p)
      invariant configured == OwnedTo(c, chosen, p) && Held(instances) == Held(before)
    {
      var owner := PlaceIsWidget(c, p);
      OwnedNext(c, chosen, p);
      if included[owner] {
        var children, left := TakeChildren(c, chosen, p, instances);
        var fails: bool := *;
        if fails {
          return false, left, configured, IndicesOfAll(children);
        }
        OwnerIsConfigured(c, chosen, p, instances, left, children);
        BuiltOne(left, owner, children, instances);
        instances := left[owner := Some(Widget(owner, true, children))];
        configured := configured + [owner];
      } else {
        OthersStay(c, chosen, p, instances);
        assert configured + [] == configured;
      }
      p := p + 1;
    }
    ok := true;
  }

  lemma NoneOwned(c: Composition, chosen: seq<nat>)
    requires IsForest(c)
    ensures OwnedTo(c, chosen, 0) == []
  {
  }

  lemma OwnedNext(c: Composition, chosen: seq<nat>, p: nat)
    requires IsForest(c) && p < |c.children|
    ensures OwnedTo(c, chosen, p + 1) ==
            OwnedTo(c, chosen, p) + if RootOf(c, c.postorder[p]) in chosen then [c.postorder[p]] else []
  {
  }

  lemma OwnerIsConfigured(c: Composition, chosen: seq<nat>, p: nat, before: Slots, left: Slots, children: seq<Widget>)
    requires IsForest(c) && p < |c.children| && IsConfiguredTo(c, chosen, before, p) && |left| == |before|
    requires var owner := c.postorder[p];
             && RootOf(c, owner) in chosen && children == BuiltAll(c, owner, |c.children[owner]|)
             && forall i :: 0 <= i < |before| ==> left[i] == if i in c.children[owner] then None else before[i]
    ensures var owner := c.postorder[p];
            && owner < |left| && left[owner] == Some(Bare(owner))
            && IsConfiguredTo(c, chosen, left[owner := Some(Widget(owner, true, children))], p + 1)
  {
    var owner := c.postorder[p];
    hide SlotAt, RootOf, Built, IsForest;
    ConfiguredNext(c, chosen, p, owner);
    var after := left[owner := Some(Widget(owner, true, children))];
    forall i | 0 <= i < |after| ensures after[i] == SlotAt(c, chosen, i, p + 1) {
      ConfiguredNext(c, chosen, p, i);
    }
  }

  lemma OthersStay(c: Composition, chosen: seq<nat>, p: nat, before: Slots)
    requires IsForest(c) && p < |c.children| && IsConfiguredTo(c, chosen, before, p)
    requires RootOf(c, c.postorder[p]) !in chosen
    ensures IsConfiguredTo(c, chosen, before, p + 1)
  {
    hide SlotAt, RootOf, Built;
    forall i | 0 <= i < |before| ensures before[i] == SlotAt(c, chosen, i, p + 1) {
      ConfiguredNext(c, chosen, p, i);
    }
  }

  /** How the slots must change at place `p`: the children leave theirs, and the owner there is built. */
  ghost predicate ConfiguredStep(c: Composition, chosen: seq<nat>, p: nat, i: nat)
    requires IsForest(c) && p < |c.children| && i < |c.children|
  {
    var owner := c.postorder[p];
    var isOwned := RootOf(c, owner) in chosen;
    var before, after := SlotAt(c, chosen, i, p), SlotAt(c, chosen, i, p + 1);
    if i in c.children[owner] then
      i != owner && before == (if isOwned then Some(Built(c, i)) else None) && after == None
    else if i == owner && isOwned then before == Some(Bare(owner)) && after == Some(Built(c, owner))
    else after == before
  }

  lemma BuiltOne(left: Slots, owner: nat, children: seq<Widget>, before: Slots)
    requires owner < |left| && left[owner] == Some(Bare(owner))
    requires Held(left) + IndicesOfAll(children) == Held(before)
    ensures Held(left[owner := Some(Widget(owner, true, children))]) == Held(before)
  {
    var w := Widget(owner, true, children);
    HeldUpdate(left, owner, Some(w));
    assert IndicesOfAll([]) == multiset{};
    assert Indices(Bare(owner)) == multiset{owner} + IndicesOfAll([]);
    assert Indices(w) == multiset{owner} + IndicesOfAll(children);
    hide Held, Indices, IndicesOfAll;
    assert Held(left) + (multiset{owner} + IndicesOfAll(children)) ==
           Held(left) + IndicesOfAll(children) + multiset{owner};
    Without(Held(left[owner := Some(w)]), multiset{owner}, Held(left) + IndicesOfAll(children));
  }

  lemma Without(a: multiset<nat>, x: multiset<nat>, b: multiset<nat>)
    requires a + x == b + x
    ensures a == b
  {
    forall n: nat ensures a[n] == b[n] {
      assert (a + x)[n] == (b + x)[n];
    }
  }

  // Unwinding.

  /** The places grow: what is owned goes before its owner. */
  ghost predicate ArePlaced(c: Composition, resets: seq<nat>)
    requires IsForest(c)
  {
    && (forall k :: 0 <= k < |resets| ==> resets[k] < |c.children|)
    && forall j, k :: 0 <= j < k < |resets| ==> Place(c, resets[j]) < Place(c, resets[k])
  }

  /** Destroys what the slots still hold; no owner goes while something it should own is in a slot. */
  method Unwind(c: Composition, before: Slots) returns (ghost destroyed: multiset<nat>, ghost resets: seq<nat>)
    requires IsForest(c) && |before| == |c.children|
    ensures destroyed == Held(before) && ArePlaced(c, resets)
    ensures forall i: nat :: i in resets <==> i < |before| && before[i].Some?
  {
    hide Place, Held, IsForest, Indices;
    PostorderIsFull(c);
    var instances := before;
    destroyed, resets := multiset{}, [];
    var p := 0;
    while p < |c.postorder|
      invariant p <= |c.postorder| == |c.children| == |instances|
      invariant Held(instances) + destroyed == Held(before)
      invariant ArePlaced(c, resets) && forall k :: 0 <= k < |resets| ==> Place(c, resets[k]) < p
      invariant forall i :: 0 <= i < |before| ==> instances[i] == if Place(c, i) < p then None else before[i]
      invariant forall i: nat :: i in resets <==> i < |before| && before[i].Some? && Place(c, i) < p
    {
      var i := PlaceIsWidget(c, p);
      PlaceBelow(c, p);
      if instances[i].Some? {
        DestroyedOne(instances, i, destroyed, before);
        destroyed := destroyed + Indices(instances[i].value);
        resets := resets + [i];
      } else {
        assert instances[i := None] == instances;
      }
      instances := instances[i := None];
      p := p + 1;
    }
    NothingHeld(instances);
  }

  lemma PostorderIsFull(c: Composition)
    requires IsForest(c)
    ensures |c.postorder| == |c.children|
  {
  }

  lemma DestroyedOne(instances: Slots, i: nat, destroyed: multiset<nat>, before: Slots)
    requires i < |instances| && instances[i].Some? && Held(instances) + destroyed == Held(before)
    ensures Held(instances[i := None]) + (destroyed + Indices(instances[i].value)) == Held(before)
  {
    HeldUpdate(instances, i, None);
    hide Held, Indices;
    assert Held(instances[i := None]) + Indices(instances[i].value) == Held(instances);
    assert Held(instances[i := None]) + (destroyed + Indices(instances[i].value)) ==
           Held(instances[i := None]) + Indices(instances[i].value) + destroyed;
  }

  predicate AreWithin(s: seq<nat>, n: nat) { forall k :: 0 <= k < |s| ==> s[k] < n }

  /** The chosen roots, built. */
  ghost function BuiltRoots(c: Composition, chosen: seq<nat>): (built: seq<Widget>)
    requires IsForest(c) && AreWithin(chosen, |c.children|)
    ensures |built| == |chosen|
    ensures forall k :: 0 <= k < |chosen| ==> built[k] == Built(c, chosen[k])
  {
    if |chosen| == 0 then []
    else
      BuiltRoots(c, chosen[..|chosen| - 1]) + [Built(c, chosen[|chosen| - 1])]
  }

  /** At the end the slots of the roots are full, and no others. */
  lemma OnlyRootsAreLeft(c: Composition, chosen: seq<nat>, instances: Slots)
    requires AreRoots(c, chosen) && IsConfiguredTo(c, chosen, instances, |c.children|)
    ensures forall i :: i in chosen ==> i < |instances| && instances[i] == Some(Built(c, i))
    ensures forall i :: 0 <= i < |instances| && i !in chosen ==> instances[i] == None
  {
    hide Built;
    forall i | 0 <= i < |instances| ensures i in chosen <==> RootOf(c, i) in chosen && Owner(c, i).None? {
    }
  }

  method TakeRoots(c: Composition, chosen: seq<nat>, before: Slots) returns (built: seq<Widget>)
    requires IsForest(c) && AreRoots(c, chosen) && IsConfiguredTo(c, chosen, before, |c.children|)
    requires |before| == |c.children| && AreWithin(chosen, |c.children|)
    ensures built == BuiltRoots(c, chosen) && IndicesOfAll(built) == Held(before)
  {
    hide *;
    OnlyRootsAreLeft(c, chosen, before);
    NoneTaken();
    var instances := before;
    built := [];
    BuiltNoRoots(c);
    assert chosen[..0] == [];
    var k := 0;
    while k < |chosen|
      invariant k <= |chosen| && |instances| == |before|
      invariant AreWithin(chosen[..k], |c.children|) && built == BuiltRoots(c, chosen[..k])
      invariant forall i :: 0 <= i < |before| ==> instances[i] == if i in chosen[..k] then None else before[i]
      invariant Held(instances) + IndicesOfAll(built) == Held(before)
    {
      var root := chosen[k];
      assert root in chosen;
      NotYetChosen(c, chosen, k);
      TakenOne(instances, root, built, before);
      BuiltRootsNext(c, chosen, k);
      built := built + [instances[root].value];
      instances := instances[root := None];
      assert chosen[..k + 1] == chosen[..k] + [root];
      k := k + 1;
    }
    assert chosen[..k] == chosen;
    NothingHeld(instances);
  }

  lemma BuiltNoRoots(c: Composition)
    requires IsForest(c)
    ensures AreWithin([], |c.children|) && BuiltRoots(c, []) == []
  {
  }

  lemma NotYetChosen(c: Composition, chosen: seq<nat>, k: nat)
    requires AreRoots(c, chosen) && k < |chosen|
    ensures chosen[k] !in chosen[..k]
  {
  }

  lemma BuiltRootsNext(c: Composition, chosen: seq<nat>, k: nat)
    requires IsForest(c) && k < |chosen| && AreWithin(chosen, |c.children|)
    ensures chosen[k] < |c.children|
    ensures AreWithin(chosen[..k], |c.children|) && AreWithin(chosen[..k + 1], |c.children|)
    ensures BuiltRoots(c, chosen[..k + 1]) == BuiltRoots(c, chosen[..k]) + [Built(c, chosen[k])]
  {
    hide Built, IsForest;
    assert chosen[..k + 1][..k] == chosen[..k];
  }

  /**
   * Builds the forest, or one tree of it. It comes to what `Built` says, everything in it created and configured
   * once; or it fails, and everything that was created was destroyed, once.
   */
  method AssembleRoots(c: Composition, z: seq<int>, ids: seq<nat>, only: Option<nat>)
    returns (roots: Option<seq<Widget>>, created: seq<Creation>, configured: seq<nat>,
             ghost destroyed: multiset<nat>, ghost resets: seq<nat>)
    requires IsForest(c) && |z| == |ids| == |c.children|
    requires forall k :: 0 <= k < |c.roots| ==> c.roots[k] < |ids|
    ensures IsWellCreated(c, z, created)
    ensures roots.Some? ==>
              var chosen := ChosenRoots(c.roots, ids, only);
              && (forall i :: i in chosen ==> i in c.roots) && AreWithin(chosen, |c.children|)
              && roots.value == BuiltRoots(c, chosen) && IndicesOfAll(roots.value) == CreatedIndices(created)
              && (forall i :: 0 <= i < |z| ==> (IsCreated(created, i) <==> RootOf(c, i) in chosen))
              && configured == OwnedTo(c, chosen, |c.children|)
              && destroyed == multiset{}
    ensures roots.None? ==> destroyed == CreatedIndices(created) && ArePlaced(c, resets)
  {
    var chosen := Choose(c, ids, only);
    hide *;
    var included := Include(c, chosen);
    var ok, instances: Slots;
    ok, instances, created := CreateForest(c, z, chosen, included);
    configured, destroyed, resets := [], multiset{}, [];
    if ok {
      ok, instances, configured, destroyed := ConfigureForest(c, chosen, included, instances);
    }
    if ok {
      // Placing a root on the grid may fail too.
      ok := *;
    }
    if ok {
      var built := TakeRoots(c, chosen, instances);
      assert Held(instances) + multiset{} == Held(instances);
      return Some(built), created, configured, destroyed, resets;
    }
    ghost var unwound;
    unwound, resets := Unwind(c, instances);
    destroyed := destroyed + unwound;
    roots := None;
  }

  method Choose(c: Composition, ids: seq<nat>, only: Option<nat>) returns (chosen: seq<nat>)
    requires IsForest(c) && |ids| == |c.children|
    requires forall k :: 0 <= k < |c.roots| ==> c.roots[k] < |ids|
    ensures chosen == ChosenRoots(c.roots, ids, only) && AreRoots(c, chosen)
    ensures (forall i :: i in chosen ==> i in c.roots) && AreWithin(chosen, |c.children|)
  {
    ChosenRootsAre(c.roots, ids, only);
    chosen := [];
    var k := 0;
    while k < |c.roots|
      invariant k <= |c.roots| && chosen == ChosenRoots(c.roots[..k], ids, only)
    {
      assert c.roots[..k + 1][..k] == c.roots[..k];
      if only.None? || ids[c.roots[k]] == only.value {
        chosen := chosen + [c.roots[k]];
      }
      k := k + 1;
    }
    assert c.roots[..k] == c.roots;
    assert forall j :: 0 <= j < |chosen| ==> chosen[j] in c.roots;
  }
}

/**
 Weak references: those to one object are linked in a list that hangs on its sync block.
 */
module WeakReferences {
  import opened Options
  import opened SyncBlocks
  import Monitors

  predicate Stays(w: WeakRef, removeLongRefs: bool) {
    w.trackRes && !removeLongRefs
  }

  // Those of the first n that stay when their target goes: none, or those that track its resurrection, in their order.
  function KeptOf(list: seq<WeakRef>, n: nat, removeLongRefs: bool): seq<WeakRef>
    requires n <= |list|
  {
    if n == 0 then []
    else KeptOf(list, n - 1, removeLongRefs) + if Stays(list[n - 1], removeLongRefs) then [list[n - 1]] else []
  }

  function Kept(list: seq<WeakRef>, removeLongRefs: bool): seq<WeakRef> {
    KeptOf(list, |list|, removeLongRefs)
  }

  ghost predicate Distinct(list: seq<WeakRef>) {
    forall i, j :: 0 <= i < j < |list| ==> list[i] != list[j]
  }

  // Of the first n, exactly those that stay; none of the others.
  lemma {:induction false} KeptExactly(list: seq<WeakRef>, n: nat, removeLongRefs: bool)
    requires n <= |list| && Distinct(list)
    ensures forall i :: 0 <= i < |list| ==> (list[i] in KeptOf(list, n, removeLongRefs) <==> i < n && Stays(list[i], removeLongRefs))
    ensures forall w <- KeptOf(list, n, removeLongRefs) :: w in list
    ensures Distinct(KeptOf(list, n, removeLongRefs))
    decreases n
  {
    if n > 0 {
      KeptExactly(list, n - 1, removeLongRefs);
    }
  }

  lemma {:induction false} KeptGrows(list: seq<WeakRef>, n: nat, m: nat, removeLongRefs: bool)
    requires n <= m <= |list|
    ensures KeptOf(list, n, removeLongRefs) <= KeptOf(list, m, removeLongRefs)
    decreases m
  {
    if n < m {
      KeptGrows(list, n, m - 1, removeLongRefs);
    }
  }

  // In their order: each comes behind those that were before it and stay.
  lemma KeptInOrder(list: seq<WeakRef>, i: nat, removeLongRefs: bool)
    requires i < |list| && Stays(list[i], removeLongRefs)
    ensures |KeptOf(list, i, removeLongRefs)| < |Kept(list, removeLongRefs)|
    ensures Kept(list, removeLongRefs)[|KeptOf(list, i, removeLongRefs)|] == list[i]
  {
    KeptGrows(list, i + 1, |list|, removeLongRefs);
    assert KeptOf(list, i + 1, removeLongRefs)[|KeptOf(list, i, removeLongRefs)|] == list[i];
  }

  // ---------------------------------------------------------------- lists

  ghost function Head(e: Entry): WeakRef?
    reads e, e.pSync
  {
    if e.pSync == null then null else e.pSync.weakRef
  }

  // What is in the list at an index, and null behind its end.
  function ItemAt(list: seq<WeakRef>, i: nat): WeakRef? {
    if i < |list| then list[i] else null
  }

  function Behind(list: seq<WeakRef>, i: nat): WeakRef? {
    ItemAt(list, i + 1)
  }

  // The list runs through these references and ends behind them.
  ghost predicate Linked(first: WeakRef?, list: seq<WeakRef>)
    reads list
  {
    && first == ItemAt(list, 0)
    && forall i :: 0 <= i < |list| ==> list[i].next == Behind(list, i)
  }

  // The list of an object: it hangs on the object's own sync block, and all in it have the object as their target.
  ghost predicate ListOf(e: Entry, list: seq<WeakRef>)
    reads e, e.pSync, list
  {
    && (e.pSync != null ==> e.pSync.owner == e)
    && Distinct(list) && Linked(Head(e), list) && forall w <- list :: w.target == e
  }

  // The references kept so far are linked, except that the last one does not end the list yet.
  ghost predicate Relinked(sync: Sync, last: WeakRef?, kept: seq<WeakRef>)
    reads sync, kept
  {
    && (if kept == [] then last == null else last == kept[|kept| - 1] && sync.weakRef == kept[0])
    && forall k :: 0 <= k < |kept| - 1 ==> kept[k].next == Behind(kept, k)
  }

  // The reference is linked behind the last one that is kept.
  method Keep(sync: Sync, last: WeakRef?, w: WeakRef, ghost list: seq<WeakRef>, ghost kept: seq<WeakRef>)
    requires Relinked(sync, last, kept) && w !in kept && Distinct(kept) && (last != null ==> last in list)
    modifies sync, list
    ensures Relinked(sync, w, kept + [w])
    ensures forall r <- list :: r.target == old(r.target) && (r != last ==> r.next == old(r.next))
    ensures sync.thread == old(sync.thread) && sync.count == old(sync.count)
  {
    if last == null {
      sync.weakRef := w;
    } else {
      last.next := w;
    }
  }

  // The first i references have been passed; the others are linked as they were.
  ghost predicate Passed(sync: Sync, last: WeakRef?, list: seq<WeakRef>, i: nat, removeLongRefs: bool)
    requires i <= |list|
    reads sync, list, KeptOf(list, i, removeLongRefs)
  {
    && Relinked(sync, last, KeptOf(list, i, removeLongRefs))
    && forall k :: i <= k < |list| ==> list[k].next == Behind(list, k)
  }

  // A reference that does not stay loses its target.
  method Pass(sync: Sync, last: WeakRef?, w: WeakRef, removeLongRefs: bool, ghost list: seq<WeakRef>, ghost i: nat)
    returns (now: WeakRef?)
    requires Distinct(list) && i < |list| && w == list[i] && Passed(sync, last, list, i, removeLongRefs)
    modifies sync, list
    ensures Passed(sync, now, list, i + 1, removeLongRefs) && w.next == Behind(list, i)
    ensures forall r <- list :: r.target == if r == w && !Stays(w, removeLongRefs) then null else old(r.target)
    ensures sync.thread == old(sync.thread) && sync.count == old(sync.count)
  {
    ghost var kept := KeptOf(list, i, removeLongRefs);
    KeptExactly(list, i, removeLongRefs);
    assert last != null ==> last in kept;
    if removeLongRefs || !w.trackRes {
      w.target := null;
      now := last;
    } else {
      Keep(sync, last, w, list, kept);
      now := w;
    }
  }

  // SystemWeakReference_TargetGone on the list of the object.
  method TargetGone(sync: Sync, removeLongRefs: bool, ghost list: seq<WeakRef>)
    requires Distinct(list) && Linked(sync.weakRef, list)
    modifies sync, list
    ensures Linked(sync.weakRef, Kept(list, removeLongRefs))
    ensures forall w <- list :: w.target == if Stays(w, removeLongRefs) then old(w.target) else null
    ensures sync.thread == old(sync.thread) && sync.count == old(sync.count)
  {
    var last: WeakRef? := null; // behind which the next one to be kept is linked
    var w := sync.weakRef;
    ghost var i := 0;
    while w != null
      invariant 0 <= i <= |list| && w == ItemAt(list, i) && Passed(sync, last, list, i, removeLongRefs)
      invariant forall k :: 0 <= k < |list| ==>
        list[k].target == if k >= i || Stays(list[k], removeLongRefs) then old(list[k].target) else null
      invariant sync.thread == old(sync.thread) && sync.count == old(sync.count)
      decreases |list| - i
    {
      last := Pass(sync, last, w, removeLongRefs, list, i);
      w := w.next;
      i := i + 1;
    }
    KeptExactly(list, |list|, removeLongRefs);
    assert last != null ==> last in Kept(list, removeLongRefs);
    EndList(sync, last, list, Kept(list, removeLongRefs));
  }

  // The list ends behind the last one that is kept.
  method EndList(sync: Sync, last: WeakRef?, ghost list: seq<WeakRef>, ghost kept: seq<WeakRef>)
    requires Relinked(sync, last, kept) && Distinct(kept) && (last != null ==> last in list)
    modifies sync, list
    ensures Linked(sync.weakRef, kept) && forall r <- list :: r.target == old(r.target)
    ensures sync.thread == old(sync.thread) && sync.count == old(sync.count)
  {
    if last == null {
      sync.weakRef := null;
    } else {
      last.next := null;
    }
  }

  // RemoveWeakRefTarget, of an object that has a sync block.
  method RemoveWeakRefTarget(e: Entry, removeLongRefs: bool, ghost list: seq<WeakRef>)
    requires e.pSync != null && ListOf(e, list)
    modifies e.pSync, list
    ensures ListOf(e, Kept(list, removeLongRefs))
    ensures forall w <- list :: w.target == if Stays(w, removeLongRefs) then e else null
    ensures e.State() == Monitors.Step(old(e.State()), Monitors.TargetGone(Kept(list, removeLongRefs) != []))
  {
    TargetGone(e.pSync, removeLongRefs, list);
    KeptExactly(list, |list|, removeLongRefs);
    AllKeptStay(list, removeLongRefs);
  }

  lemma AllKeptStay(list: seq<WeakRef>, removeLongRefs: bool)
    requires Distinct(list)
    ensures forall w <- Kept(list, removeLongRefs) :: w in list && Stays(w, removeLongRefs)
  {
    KeptExactly(list, |list|, removeLongRefs);
    forall w | w in Kept(list, removeLongRefs) ensures w in list && Stays(w, removeLongRefs) {
      var i :| 0 <= i < |list| && list[i] == w;
    }
  }

  // ---------------------------------------------------------------- setting a target

  function Without(list: seq<WeakRef>, i: nat): seq<WeakRef>
    requires i < |list|
  {
    list[..i] + list[i + 1..]
  }

  // The link to the i-th reference is set to the one behind it.
  method Splice(e: Entry, before: WeakRef?, at: WeakRef, ghost list: seq<WeakRef>, ghost i: nat)
    requires e.pSync != null && ListOf(e, list) && i < |list| && list[i] == at
    requires if i == 0 then before == null else before == list[i - 1]
    modifies e.pSync`weakRef, list
    ensures ListOf(e, Without(list, i)) && forall w <- list :: w.target == old(w.target)
    ensures e.State() == Block(old(e.pSync.thread), old(e.pSync.count), |list| > 1)
  {
    if before == null {
      e.pSync.weakRef := at.next;
    } else {
      before.next := at.next;
    }
    ghost var rest := Without(list, i);
    WithoutAt(list, i);
    forall k | 0 <= k < |rest| ensures rest[k].next == Behind(rest, k) {
      var j := if k < i then k else k + 1;
      assert rest[k] == list[j];
    }
  }

  // The reference is looked for in the list.
  method Find(e: Entry, w: WeakRef, ghost list: seq<WeakRef>) returns (before: WeakRef?, ghost i: nat)
    requires e.pSync != null && ListOf(e, list) && w in list
    ensures i < |list| && list[i] == w && if i == 0 then before == null else before == list[i - 1]
  {
    i, before := 0, null;
    var at := e.pSync.weakRef;
    while at != w
      invariant 0 <= i < |list| && at == list[i] && w in list[i..]
      invariant if i == 0 then before == null else before == list[i - 1]
      decreases |list| - i
    {
      before := at;
      at := at.next;
      i := i + 1;
    }
  }

  // Heap_RemovedWeakRefTarget.
  method RemovedWeakRefTarget(e: Entry, ghost list: seq<WeakRef>)
    requires ListOf(e, list)
    modifies e
    ensures ListOf(e, list) && e.State() == Dropped(old(e.State())) && (e.pSync == null || e.pSync == old(e.pSync))
  {
    e.DeleteSync();
  }

  // It is found and unlinked. The sync block is dropped if it is no longer needed.
  method Unlink(e: Entry, w: WeakRef, ghost list: seq<WeakRef>) returns (ghost i: nat)
    requires e.pSync != null && ListOf(e, list) && w in list
    modifies e, e.pSync`weakRef, list
    ensures i < |list| && list[i] == w && ListOf(e, Without(list, i)) && forall r <- list :: r.target == old(r.target)
    ensures e.pSync == null || e.pSync == old(e.pSync)
    ensures e.State() == Dropped(Block(old(e.pSync.thread), old(e.pSync.count), |list| > 1))
  {
    var before;
    before, i := Find(e, w, list);
    Splice(e, before, w, list, i);
    RemovedWeakRefTarget(e, Without(list, i));
  }

  lemma WithoutAt(list: seq<WeakRef>, i: nat)
    requires i < |list|
    ensures |Without(list, i)| == |list| - 1
    ensures forall k :: 0 <= k < |list| - 1 ==> Without(list, i)[k] == if k < i then list[k] else list[k + 1]
    ensures Distinct(list) ==> Distinct(Without(list, i)) && forall w :: w in Without(list, i) <==> w in list && w != list[i]
  {
  }

  // The reference is put first in the list.
  method SetWeakRefTarget(e: Entry, w: WeakRef, ghost list: seq<WeakRef>)
    requires ListOf(e, list) && w !in list && w.target == e
    modifies e, e.pSync, w
    ensures ListOf(e, [w] + list)
    ensures old(e.pSync) == null ==> fresh(e.pSync)
    ensures old(e.pSync) != null ==> e.pSync == old(e.pSync)
    ensures w.target == e
    ensures var s := Ensured(old(e.State())); e.State() == Block(s.thread, s.count, true)
  {
    var sync := e.EnsureSync();
    var previous := sync.weakRef;
    sync.weakRef := w;
    w.next := previous;
    ghost var more := [w] + list;
    forall k | 0 <= k < |more| ensures more[k].next == Behind(more, k) {
      if k > 0 {
        var j := k - 1;
        assert more[k] == list[j] && list[j] in list;
      }
    }
  }

  // The reference leaves the list of its target; another list stays as it is.
  method Leave(w: WeakRef, e: Entry, ghost list: seq<WeakRef>, ghost other: Entry?, ghost otherList: seq<WeakRef>)
    returns (ghost i: nat)
    requires w.target == e && ListOf(e, list) && w in list
    requires other != null && other != e ==> ListOf(other, otherList)
    modifies e, e.pSync, list
    ensures i < |list| && list[i] == w && ListOf(e, Without(list, i)) && w !in Without(list, i) && w.target == e
    ensures other != null && other != e ==> ListOf(other, otherList) && w !in otherList && other.pSync == old(other.pSync)
    ensures other != null && other != e ==> other.State() == old(other.State())
    ensures e.pSync == null || e.pSync == old(e.pSync)
    ensures e.State() == Monitors.Step(old(e.State()), Monitors.WeakRemoved(|list| > 1))
  {
    assert other != null && other != e ==> forall r <- otherList :: r !in list;
    i := Unlink(e, w, list);
    WithoutAt(list, i);
    if other != null && other != e {
      assert Head(other) == old(Head(other));
      forall k | 0 <= k < |otherList| ensures otherList[k].next == Behind(otherList, k) && otherList[k].target == other {
        assert otherList[k] in otherList && old(otherList[k].next) == Behind(otherList, k);
      }
    }
  }

  // The reference gets its new target and becomes the first in its list; another list stays as it is.
  method Join(w: WeakRef, target: Entry?, ghost list: seq<WeakRef>, ghost other: Entry?, ghost otherList: seq<WeakRef>)
    requires target != null ==> ListOf(target, list) && w !in list
    requires other != null && other != target ==> ListOf(other, otherList) && w !in otherList
    modifies w, target, if target != null then {target.pSync} else {}
    ensures w.target == target
    ensures target != null ==>
      ListOf(target, [w] + list) && target.State() == Monitors.Step(old(target.State()), Monitors.WeakAdded)
    ensures other != null && other != target ==> ListOf(other, otherList) && other.State() == old(other.State())
  {
    w.target := target;
    if target != null {
      SetWeakRefTarget(target, w, list);
    }
  }

  // System_WeakReference_set_Target. The lists are that of the old target and that of the new one, when they differ.
  method SetTarget(w: WeakRef, target: Entry?, ghost list: seq<WeakRef>, ghost newList: seq<WeakRef>) returns (ghost i: nat)
    requires w.target != null ==> ListOf(w.target, list) && w in list
    requires target != null && target != w.target ==> ListOf(target, newList)
    modifies w, w.target, if w.target != null then {w.target.pSync} else {}, if w.target != null then list else []
    modifies target, if target != null then {target.pSync} else {}
    ensures w.target == target
    ensures old(w.target) != null ==> i < |list| && list[i] == w
    ensures old(w.target) != null && old(w.target) != target ==> ListOf(old(w.target), Without(list, i))
    ensures target != null ==> ListOf(target, [w] + if target == old(w.target) then Without(list, i) else newList)
    ensures old(w.target) != null && old(w.target) != target ==>
      old(w.target).State() == Monitors.Step(old(w.target.State()), Monitors.WeakRemoved(|list| > 1))
    ensures target != null && target != old(w.target) ==>
      target.State() == Monitors.Step(old(target.State()), Monitors.WeakAdded)
    ensures target != null && target == old(w.target) ==>
      target.State() == Monitors.Step(Monitors.Step(old(target.State()), Monitors.WeakRemoved(|list| > 1)), Monitors.WeakAdded)
  {
    ghost var e := w.target;
    i := 0;
    if w.target != null {
      i := Leave(w, w.target, list, target, newList);
    } else if target != null {
      assert w !in newList;
    }
    Join(w, target, if target == e && e != null then Without(list, i) else newList, e, if e != null then Without(list, i) else []);
  }

  // ---------------------------------------------------------------- all lists together

  // Which reference has which target, and the list of each object.
  datatype World = World(target: map<WeakRef, Entry>, lists: map<Entry, seq<WeakRef>>)

  datatype Change = SetsTarget(w: WeakRef, target: Entry?) | LosesTarget(e: Entry, removeLongRefs: bool)

  function IndexOf(list: seq<WeakRef>, w: WeakRef, n: nat): (r: Option<nat>)
    requires n <= |list|
    ensures r.Some? ==> r.value < n && list[r.value] == w
    ensures r.None? ==> w !in list[..n]
  {
    if n == 0 then None else if list[n - 1] == w then Some(n - 1) else IndexOf(list, w, n - 1)
  }

  function ListIn(world: World, e: Entry): seq<WeakRef> {
    if e in world.lists then world.lists[e] else []
  }

  function Loosened(world: World, w: WeakRef): World {
    if w !in world.target then world
    else
      var e := world.target[w];
      var list := ListIn(world, e);
      match IndexOf(list, w, |list|)
      case None => world
      case Some(i) => World(world.target - {w}, world.lists[e := Without(list, i)])
  }

  // What set_Target and TargetGone do to targets and lists.
  function Changed(world: World, change: Change): World {
    match change
    case SetsTarget(w, target) =>
      var loose := Loosened(world, w);
      if target == null then loose
      else World(loose.target[w := target], loose.lists[target := [w] + ListIn(loose, target)])
    case LosesTarget(e, removeLongRefs) =>
      var kept := Kept(ListIn(world, e), removeLongRefs);
      World(map w | w in world.target && (world.target[w] != e || w in kept) :: world.target[w], world.lists[e := kept])
  }

  // Every reference with a target is in the list of its target exactly once, and in no other list.
  ghost predicate Consistent(world: World) {
    && (forall w <- world.target :: w in ListIn(world, world.target[w]))
    && (forall e <- world.lists :: Distinct(world.lists[e]))
    && (forall e <- world.lists :: forall w <- world.lists[e] :: w in world.target && world.target[w] == e)
  }

  lemma LoosenedStaysConsistent(world: World, w: WeakRef)
    requires Consistent(world)
    ensures Consistent(Loosened(world, w)) && w !in Loosened(world, w).target
  {
    if w in world.target {
      var list := ListIn(world, world.target[w]);
      var at := IndexOf(list, w, |list|);
      assert list[..|list|] == list;
      WithoutAt(list, at.value);
    }
  }

  lemma SettingStaysConsistent(world: World, w: WeakRef, target: Entry)
    requires Consistent(world) && w !in world.target
    ensures Consistent(World(world.target[w := target], world.lists[target := [w] + ListIn(world, target)]))
  {
  }

  lemma LosingStaysConsistent(world: World, e: Entry, removeLongRefs: bool)
    requires Consistent(world)
    ensures Consistent(Changed(world, LosesTarget(e, removeLongRefs)))
  {
    var list := ListIn(world, e);
    KeptExactly(list, |list|, removeLongRefs);
    assert forall w <- Kept(list, removeLongRefs) :: w in list && w in world.target && world.target[w] == e;
  }

  lemma ChangeStaysConsistent(world: World, change: Change)
    requires Consistent(world)
    ensures Consistent(Changed(world, change))
  {
    match change
    case SetsTarget(w, target) =>
      LoosenedStaysConsistent(world, w);
      if target != null {
        SettingStaysConsistent(Loosened(world, w), w, target);
      }
    case LosesTarget(e, removeLongRefs) => LosingStaysConsistent(world, e, removeLongRefs);
  }

  function WorldAfter(changes: seq<Change>): World {
    if changes == [] then World(map[], map[]) else Changed(WorldAfter(changes[..|changes| - 1]), changes[|changes| - 1])
  }

  // However targets are set and lost, the lists fit the targets.
  lemma {:induction false} RunsAreConsistent(changes: seq<Change>)
    ensures Consistent(WorldAfter(changes))
  {
    if changes != [] {
      RunsAreConsistent(changes[..|changes| - 1]);
      ChangeStaysConsistent(WorldAfter(changes[..|changes| - 1]), changes[|changes| - 1]);
    }
  }

  // ---------------------------------------------------------------- the lists in the heap

  // What a reference refers to in the world.
  function TargetIn(world: World, w: WeakRef): Entry? {
    if w in world.target then world.target[w] else null
  }

  // The references and objects stand as the world says.
  ghost predicate Represents(world: World, refs: set<WeakRef>, entries: set<Entry>)
    reads refs, entries, set e <- entries :: e.pSync
  {
    && Consistent(world) && world.target.Keys <= refs && world.lists.Keys <= entries
    && (forall w <- refs :: w.target == TargetIn(world, w))
    && (forall e <- entries :: (forall w <- ListIn(world, e) :: w in refs) && ListOf(e, ListIn(world, e)))
  }

  // No sync block and no reference belongs to two objects.
  lemma ListsAreApart(world: World, refs: set<WeakRef>, entries: set<Entry>, e: Entry, f: Entry)
    requires Represents(world, refs, entries) && e in entries && f in entries && e != f
    ensures e.pSync == null || e.pSync != f.pSync
    ensures forall w <- ListIn(world, e) :: w !in ListIn(world, f) && w.target == e
  {
  }

  // The list of an object when the reference, the i-th in its own list, has left.
  function ListWithout(world: World, w: WeakRef, i: nat, f: Entry): seq<WeakRef>
    requires w in world.target ==> i < |ListIn(world, world.target[w])|
  {
    if w in world.target && f == world.target[w] then Without(ListIn(world, f), i) else ListIn(world, f)
  }

  lemma WhereSettingLeads(world: World, w: WeakRef, target: Entry?, i: nat)
    requires Consistent(world)
    requires w in world.target ==> i < |ListIn(world, world.target[w])| && ListIn(world, world.target[w])[i] == w
    ensures Consistent(Changed(world, SetsTarget(w, target)))
    ensures Changed(world, SetsTarget(w, target)).target.Keys <= world.target.Keys + {w}
    ensures forall f <- Changed(world, SetsTarget(w, target)).lists.Keys :: f in world.lists || f == target
  {
    ChangeStaysConsistent(world, SetsTarget(w, target));
  }

  // Where it leads for one reference and for one object.
  lemma TargetAfterSetting(world: World, w: WeakRef, target: Entry?, r: WeakRef)
    requires Consistent(world)
    ensures TargetIn(Changed(world, SetsTarget(w, target)), r) == if r == w then target else TargetIn(world, r)
  {
    LoosenedStaysConsistent(world, w);
  }

  lemma ListAfterSetting(world: World, w: WeakRef, target: Entry?, i: nat, f: Entry)
    requires Consistent(world)
    requires w in world.target ==> i < |ListIn(world, world.target[w])| && ListIn(world, world.target[w])[i] == w
    ensures ListIn(Changed(world, SetsTarget(w, target)), f) ==
            if f == target then [w] + ListWithout(world, w, i, f) else ListWithout(world, w, i, f)
  {
    if w in world.target {
      var list := ListIn(world, world.target[w]);
      assert list[..|list|] == list;
      var at := IndexOf(list, w, |list|);
      assert at == Some(i);
    }
  }

  // The object shares no sync block with these two.
  ghost predicate OwnSync(f: Entry, e: Entry?, target: Entry?)
    reads e, target, f
  {
    f.pSync == null || ((e != null ==> f.pSync != e.pSync) && (target != null ==> f.pSync != target.pSync))
  }

  // Of what else there is, nothing changes.
  method SetTargetAmong(w: WeakRef, target: Entry?, ghost list: seq<WeakRef>, ghost newList: seq<WeakRef>, ghost refs: set<WeakRef>,
                        ghost others: set<Entry>)
    returns (ghost i: nat)
    requires w.target != null ==> ListOf(w.target, list) && w in list
    requires target != null && target != w.target ==> ListOf(target, newList)
    requires forall f <- others :: f != w.target && f != target && OwnSync(f, w.target, target)
    modifies w, w.target, if w.target != null then {w.target.pSync} else {}, if w.target != null then list else []
    modifies target, if target != null then {target.pSync} else {}
    ensures w.target == target
    ensures old(w.target) != null ==> i < |list| && list[i] == w
    ensures old(w.target) != null && old(w.target) != target ==> ListOf(old(w.target), Without(list, i))
    ensures target != null ==> ListOf(target, [w] + if target == old(w.target) then Without(list, i) else newList)
    ensures forall r <- refs ::
      r == w || (old(w.target) != null && r in list) || (r.next == old(r.next) && r.target == old(r.target))
    ensures forall f <- others :: f.pSync == old(f.pSync) && Head(f) == old(Head(f)) && f.State() == old(f.State())
  {
    i := SetTarget(w, target, list, newList);
  }

  lemma OthersAreApart(world: World, refs: set<WeakRef>, entries: set<Entry>, w: WeakRef, target: Entry?, f: Entry)
    requires Represents(world, refs, entries) && w in refs && (target != null ==> target in entries)
    requires f in entries && f != w.target && f != target
    ensures OwnSync(f, w.target, target)
    ensures forall r <- ListIn(world, f) :: r != w && (w.target != null ==> r !in ListIn(world, w.target))
  {
    if w.target != null {
      ListsAreApart(world, refs, entries, f, w.target);
    }
    if target != null {
      ListsAreApart(world, refs, entries, f, target);
    }
  }

  // The list of an object after the reference, the i-th in its own list, has got its new target.
  function Rearranged(world: World, w: WeakRef, target: Entry?, i: nat, f: Entry): seq<WeakRef>
    requires w in world.target ==> i < |ListIn(world, world.target[w])|
  {
    if f == target then [w] + ListWithout(world, w, i, f) else ListWithout(world, w, i, f)
  }

  method Rearrange(w: WeakRef, target: Entry?, ghost world: World, ghost refs: set<WeakRef>, ghost entries: set<Entry>)
    returns (ghost i: nat)
    requires Represents(world, refs, entries) && w in refs && (target != null ==> target in entries)
    modifies refs, entries, set e <- entries :: e.pSync
    ensures w in world.target ==> i < |ListIn(world, world.target[w])| && ListIn(world, world.target[w])[i] == w
    ensures forall r <- refs :: r.target == if r == w then target else old(r.target)
    ensures forall f <- entries :: ListOf(f, Rearranged(world, w, target, i, f))
    ensures forall f <- entries :: f != old(w.target) && f != target ==> f.State() == old(f.State())
  {
    ghost var e := w.target;
    ghost var list := if e == null then [] else ListIn(world, e);
    ghost var newList := if target == null then [] else ListIn(world, target);
    ghost var others := set f | f in entries && f != e && f != target;
    forall f | f in others
      ensures OwnSync(f, e, target) && forall r <- ListIn(world, f) :: r != w && (e != null ==> r !in list)
    {
      OthersAreApart(world, refs, entries, w, target, f);
    }
    i := SetTargetAmong(w, target, list, newList, refs, others);
    if e != null {
      WithoutAt(list, i);
    }
    forall r | r in refs ensures r.target == if r == w then target else old(r.target) {
      if r != w && e != null && r in list {
        assert r in Without(list, i);
      }
    }
    forall f | f in others ensures ListOf(f, ListIn(world, f)) {
      var l := ListIn(world, f);
      assert old(ListOf(f, l));
      forall k | 0 <= k < |l| ensures l[k].next == Behind(l, k) && l[k].target == f {
        assert l[k] in l && old(l[k].next) == Behind(l, k);
      }
    }
    forall f | f in entries ensures ListOf(f, Rearranged(world, w, target, i, f)) {
      assert f != e && f != target ==> f in others;
    }
  }

  lemma NextStands(w: WeakRef, target: Entry?, i: nat, world: World, refs: set<WeakRef>, entries: set<Entry>)
    requires Consistent(world) && world.target.Keys <= refs && world.lists.Keys <= entries && w in refs
    requires target != null ==> target in entries
    requires w in world.target ==> i < |ListIn(world, world.target[w])| && ListIn(world, world.target[w])[i] == w
    requires forall r <- refs :: r.target == if r == w then target else TargetIn(world, r)
    requires forall f <- entries :: ListOf(f, Rearranged(world, w, target, i, f))
    ensures Represents(Changed(world, SetsTarget(w, target)), refs, entries)
  {
    WhereSettingLeads(world, w, target, i);
    var next := Changed(world, SetsTarget(w, target));
    forall r | r in refs ensures r.target == TargetIn(next, r) {
      TargetAfterSetting(world, w, target, r);
    }
    forall f | f in entries ensures ListOf(f, ListIn(next, f)) && forall r <- ListIn(next, f) :: r in refs {
      ListAfterSetting(world, w, target, i, f);
    }
  }

  // System_WeakReference_set_Target takes the heap from one world to the next. The lock of every other object stays.
  method SetTargetIn(w: WeakRef, target: Entry?, ghost world: World, ghost refs: set<WeakRef>, ghost entries: set<Entry>)
    requires Represents(world, refs, entries) && w in refs && (target != null ==> target in entries)
    modifies refs, entries, set e <- entries :: e.pSync
    ensures Represents(Changed(world, SetsTarget(w, target)), refs, entries)
    ensures forall f <- entries :: f != old(w.target) && f != target ==> f.State() == old(f.State())
  {
    assert forall r <- refs :: r.target == TargetIn(world, r);
    ghost var i := Rearrange(w, target, world, refs, entries);
    NextStands(w, target, i, world, refs, entries);
  }

  // The target of a reference after an object has gone.
  function TargetAfterLoss(world: World, e: Entry, removeLongRefs: bool, r: WeakRef): Entry? {
    if r in ListIn(world, e) && !Stays(r, removeLongRefs) then null else TargetIn(world, r)
  }

  // Of what else there is, nothing changes.
  method RemoveTargetAmong(e: Entry, removeLongRefs: bool, ghost list: seq<WeakRef>, ghost refs: set<WeakRef>,
                           ghost others: set<Entry>)
    requires ListOf(e, list) && forall f <- others :: f != e && (f.pSync == null || f.pSync != e.pSync)
    modifies e.pSync, list
    ensures ListOf(e, Kept(list, removeLongRefs))
    ensures forall r <- refs :: if r in list then r.target == if Stays(r, removeLongRefs) then e else null
                                else r.next == old(r.next) && r.target == old(r.target)
    ensures forall f <- others :: Head(f) == old(Head(f)) && f.State() == old(f.State())
  {
    if e.pSync != null {
      RemoveWeakRefTarget(e, removeLongRefs, list);
    } else {
      assert list == [] && Kept(list, removeLongRefs) == [];
    }
  }

  method RemoveAmong(e: Entry, removeLongRefs: bool, ghost world: World, ghost refs: set<WeakRef>, ghost entries: set<Entry>)
    requires Represents(world, refs, entries) && e in entries
    modifies refs, entries, set f <- entries :: f.pSync
    ensures forall r <- refs :: r.target == TargetAfterLoss(world, e, removeLongRefs, r)
    ensures forall f <- entries :: ListOf(f, if f == e then Kept(ListIn(world, e), removeLongRefs) else ListIn(world, f))
    ensures forall f <- entries :: f != e ==> f.State() == old(f.State())
  {
    ghost var list := ListIn(world, e);
    forall f | f in entries && f != e
      ensures (f.pSync == null || f.pSync != e.pSync) && forall r <- ListIn(world, f) :: r !in list
    {
      ListsAreApart(world, refs, entries, f, e);
    }
    RemoveTargetAmong(e, removeLongRefs, list, refs, set f | f in entries && f != e);
    forall r | r in refs ensures r.target == TargetAfterLoss(world, e, removeLongRefs, r) {
      assert old(r.target) == TargetIn(world, r);
    }
    forall f | f in entries && f != e ensures ListOf(f, ListIn(world, f)) {
      var l := ListIn(world, f);
      assert old(ListOf(f, l));
      forall k | 0 <= k < |l| ensures l[k].next == Behind(l, k) && l[k].target == f {
        assert l[k] in l && old(l[k].next) == Behind(l, k);
      }
    }
  }

  lemma TargetOfLoss(world: World, e: Entry, removeLongRefs: bool, r: WeakRef)
    requires Consistent(world)
    ensures TargetIn(Changed(world, LosesTarget(e, removeLongRefs)), r) == TargetAfterLoss(world, e, removeLongRefs, r)
  {
    var list := ListIn(world, e);
    AllKeptStay(list, removeLongRefs);
    if r in list {
      var i :| 0 <= i < |list| && list[i] == r;
      KeptExactly(list, |list|, removeLongRefs);
    }
  }

  lemma LossStands(e: Entry, removeLongRefs: bool, world: World, refs: set<WeakRef>, entries: set<Entry>)
    requires Consistent(world) && world.target.Keys <= refs && world.lists.Keys <= entries && e in entries
    requires forall r <- refs :: r.target == TargetAfterLoss(world, e, removeLongRefs, r)
    requires forall f <- entries :: ListOf(f, if f == e then Kept(ListIn(world, e), removeLongRefs) else ListIn(world, f))
    ensures Represents(Changed(world, LosesTarget(e, removeLongRefs)), refs, entries)
  {
    var list, next := ListIn(world, e), Changed(world, LosesTarget(e, removeLongRefs));
    LosingStaysConsistent(world, e, removeLongRefs);
    forall r | r in refs ensures r.target == TargetIn(next, r) {
      TargetOfLoss(world, e, removeLongRefs, r);
    }
    forall f | f in entries ensures ListOf(f, ListIn(next, f)) && forall r <- ListIn(next, f) :: r in refs {
      assert ListIn(next, f) == if f == e then Kept(list, removeLongRefs) else ListIn(world, f);
    }
  }

  // SystemWeakReference_TargetGone, when the object has a sync block, takes the heap from one world to the next.
  method TargetGoneIn(e: Entry, removeLongRefs: bool, ghost world: World, ghost refs: set<WeakRef>, ghost entries: set<Entry>)
    requires Represents(world, refs, entries) && e in entries
    modifies refs, entries, set f <- entries :: f.pSync
    ensures Represents(Changed(world, LosesTarget(e, removeLongRefs)), refs, entries)
    ensures forall f <- entries :: f != e ==> f.State() == old(f.State())
  {
    RemoveAmong(e, removeLongRefs, world, refs, entries);
    LossStands(e, removeLongRefs, world, refs, entries);
  }
}

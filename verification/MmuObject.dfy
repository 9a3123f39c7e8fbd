/** The lock sections and loops of compat/i915_gem_mmu_notifier.c as methods on the shared
    object; each is proved against the functions the transition system is made of. */
module MmuObject {
  import opened MmuNotifier

  const ULONG_MAX: nat := 0xFFFF_FFFF_FFFF_FFFF

  /** The deferred list refers to known subscriptions, each at most once. */
  ghost predicate Listed(sh: Shared) {
    && sh.tree <= sh.subs.Keys
    && (forall x :: x in sh.deferred ==> x in sh.subs)
    && NoDup(sh.deferred)
  }

  /** The whole loop over the deferred list. */
  function DrainAll(sh: Shared): Shared
    requires forall x :: x in sh.deferred ==> x in sh.subs
    decreases |sh.deferred|
  {
    if sh.deferred == [] then sh else DrainAll(DrainOne(sh))
  }

  /** Draining links exactly the subscriptions waiting to be added, unlinks exactly those
      waiting to be removed, and empties the list. */
  lemma {:induction false} DrainAllFacts(sh: Shared)
    requires Listed(sh)
    ensures var d := DrainAll(sh);
      && d.deferred == [] && d.invSeq == sh.invSeq && d.active == sh.active && d.subs.Keys == sh.subs.Keys
      && (forall x :: x in sh.subs ==> (x in d.tree <==> if x in sh.deferred then !sh.subs[x].linked else x in sh.tree))
      && (forall x :: x in sh.subs ==>
            d.subs[x] == if x in sh.deferred then sh.subs[x].(linked := true) else sh.subs[x])
    decreases |sh.deferred|
  {
    if sh.deferred != [] {
      var x, n := sh.deferred[0], DrainOne(sh);
      assert sh.deferred == [x] + n.deferred;
      forall k | 0 <= k < |n.deferred| ensures n.deferred[k] != x { assert sh.deferred[k + 1] != sh.deferred[0]; }
      assert Listed(n) by {
        forall i, j | 0 <= i < j < |n.deferred| ensures n.deferred[i] != n.deferred[j] {
          assert sh.deferred[i + 1] != sh.deferred[j + 1];
        }
      }
      DrainAllFacts(n);
    }
  }

  /** struct mmu_notifier_subscriptions with the subscriptions it knows. */
  class Subscriptions {
    var invSeq: nat
    var active: nat
    var tree: set<SubId>
    var deferred: seq<SubId>
    var subs: map<SubId, Sub>

    function View(): Shared
      reads this
    {
      Shared(invSeq, active, tree, deferred, subs)
    }

    /** mmu_notifier_subscriptions_init. */
    constructor ()
      ensures View() == Shared(2, 0, {}, [], map[])
    {
      invSeq, active, tree, deferred, subs := 2, 0, {}, [], map[];
    }

    /** interval_tree_iter_first and interval_tree_iter_next. */
    method IterNext(range: Range, after: Option<SubId>) returns (res: Option<SubId>)
      requires tree <= subs.Keys && (after.Some? ==> after.value in subs)
      ensures IsNext(View(), range, after, res)
    {
      res := None;
      var rest := tree;
      while rest != {}
        invariant rest <= tree
        invariant res.Some? ==> Ahead(View(), range, after, res.value)
        invariant forall x :: x in tree - rest && Ahead(View(), range, after, x) ==>
          res.Some? && (x == res.value || Before(subs, res.value, x))
        decreases rest
      {
        var x :| x in rest;
        rest := rest - {x};
        if Ahead(View(), range, after, x) && (res.None? || Before(subs, x, res.value)) {
          res := Some(x);
        }
      }
      assert forall x :: Ahead(View(), range, after, x) ==> x in tree - rest;
    }

    /** mn_itree_inv_start_range. */
    method InvStartRange(range: Range) returns (first: Option<SubId>, curSeq: nat)
      requires tree <= subs.Keys
      modifies this
      ensures IsNext(old(View()), range, None, first)
      ensures View() == StartRange(old(View()), first) && curSeq == invSeq
    {
      first := IterNext(range, None);
      active := active + 1;
      if first.Some? { invSeq := MakeOdd(invSeq); }
      curSeq := invSeq;
    }

    /** mn_itree_inv_end. */
    method InvEnd()
      requires active > 0 && Listed(View())
      modifies this
      ensures var (sh, drain) := EndRange(old(View()));
        View() == if drain then DrainAll(sh) else sh
      ensures Listed(View()) && active == old(active) - 1
    {
      active := active - 1;
      if active > 0 || !Odd(invSeq) { return; }
      invSeq := invSeq + 1;
      ghost var sh := View();
      while deferred != []
        invariant forall x :: x in deferred ==> x in subs
        invariant tree <= subs.Keys
        invariant DrainAll(View()) == DrainAll(sh) && active == 0
        decreases |deferred|
      {
        ghost var before := View();
        var x := deferred[0];
        if !subs[x].linked {
          tree, subs := tree + {x}, subs[x := subs[x].(linked := true)];
        } else {
          tree := tree - {x};
        }
        deferred := deferred[1..];
        assert View() == DrainOne(before);
      }
    }

    /** __mmu_interval_notifier_insert; the result is false for -EOVERFLOW. */
    method Insert(id: SubId, start: nat, length: nat) returns (ok: bool)
      requires id !in subs && start <= ULONG_MAX
      modifies this
      ensures ok <==> length > 0 && start + length - 1 <= ULONG_MAX
      ensures !ok ==> View() == old(View())
      ensures ok ==> View() == InsertSection(old(View()), id, Range(start, start + length - 1))
    {
      if length == 0 || start + length - 1 > ULONG_MAX { return false; }
      ok := true;
      var range := Range(start, start + length - 1);
      if active > 0 {
        if Odd(invSeq) {
          deferred := [id] + deferred;
          subs := subs[id := Sub(range, invSeq, false, Live, 0)];
        } else {
          invSeq := MakeOdd(invSeq);
          tree := tree + {id};
          subs := subs[id := Sub(range, invSeq, true, Live, 0)];
        }
      } else {
        subs := subs[id := Sub(range, if invSeq > 0 then invSeq - 1 else 0, true, Live, 0)];
        tree := tree + {id};
      }
    }

    /** The lock section of mmu_interval_notifier_remove; `since` is the sequence the caller
        then waits to see changed, 0 for none. */
    method Remove(id: SubId) returns (since: nat)
      requires id in subs
      modifies this
      ensures View() == RemoveSection(old(View()), id)
      ensures since > 0 ==> subs[id].phase == Removing(since)
      ensures since == 0 && old(invSeq) > 0 ==> subs[id].phase == Removed
    {
      since := 0;
      if Odd(invSeq) {
        if !subs[id].linked {
          deferred := Without(deferred, id);
          subs := subs[id := subs[id].(phase := Removed)];
        } else {
          deferred := [id] + deferred;
          since := invSeq;
          subs := subs[id := subs[id].(phase := Removing(invSeq))];
        }
      } else {
        tree := tree - {id};
        subs := subs[id := subs[id].(phase := Removed)];
      }
    }

    /** mn_itree_invalidate run without interference: `accepts` says which callbacks return
        true. Unless aborted it calls back the overlapping subscriptions in order, each once;
        if aborted it has ended its range again. */
    method Invalidate(range: Range, blockable: bool, accepts: set<SubId>) returns (aborted: bool, calls: seq<SubId>)
      requires Listed(View())
      modifies this
      ensures NoDup(calls)
      ensures aborted ==> !blockable && active == old(active) && exists x :: x in calls && x !in accepts
      ensures !aborted ==>
        && active == old(active) + 1 && tree == old(tree) && deferred == old(deferred) && subs.Keys == old(subs.Keys)
        && (forall x :: x in calls <==> x in old(tree) && Overlaps(old(subs[x].range), range))
        && (forall x :: x in calls && x in accepts ==> x in subs && subs[x].invSeq == invSeq)
    {
      ghost var s0 := View();
      var cur, curSeq := InvStartRange(range);
      calls, aborted := [], false;
      ghost var called: set<SubId> := {};
      WalkStarts(s0, range, cur);
      while cur.Some?
        invariant active == old(active) + 1 && invSeq == curSeq
        invariant Walk(s0, View(), range, calls, cur)
        invariant forall x :: x in calls && x in accepts ==> subs[x].invSeq == invSeq
        invariant forall x :: x in called <==> x in calls
        decreases s0.tree - called
      {
        var c := cur.value;
        if c in accepts {
          subs := subs[c := subs[c].(invSeq := curSeq, hits := subs[c].hits + 1)];
        } else if !blockable {
          calls := calls + [c];
          assert c in calls;
          WalkNoDup(s0, View(), range, calls[..|calls| - 1], c);
          assert Listed(View());
          InvEnd();
          return true, calls;
        }
        var next := IterNext(range, Some(c));
        WalkMoves(s0, View(), range, calls, c, next);
        cur, calls, called := next, calls + [c], called + {c};
      }
      WalkDone(s0, View(), range, calls);
    }
  }

  /** The state of an uninterrupted traversal that began in s0: only recorded sequences have
      changed; what lies before `cur` has been called back, what lies after has not. */
  ghost predicate Walk(s0: Shared, sh: Shared, range: Range, calls: seq<SubId>, cur: Option<SubId>) {
    && Listed(s0) && sh.tree == s0.tree && sh.deferred == s0.deferred && sh.subs.Keys == s0.subs.Keys
    && (forall x :: x in s0.subs ==> sh.subs[x].range == s0.subs[x].range)
    && (forall x :: x in calls ==> x in s0.tree && Overlaps(s0.subs[x].range, range))
    && Ordered(s0.subs, calls)
    && (cur.Some? ==>
          && cur.value in s0.tree && Overlaps(s0.subs[cur.value].range, range)
          && forall x :: x in calls ==> Before(s0.subs, x, cur.value))
    && forall x :: x in s0.tree && Overlaps(s0.subs[x].range, range) ==>
         x in calls || (cur.Some? && (x == cur.value || Before(s0.subs, cur.value, x)))
  }

  lemma WalkStarts(s0: Shared, range: Range, first: Option<SubId>)
    requires Listed(s0) && IsNext(s0, range, None, first)
    ensures Walk(s0, StartRange(s0, first), range, [], first)
  {
    forall x | x in s0.tree && Overlaps(s0.subs[x].range, range)
      ensures first.Some? && (x == first.value || Before(s0.subs, first.value, x))
    {
      assert Ahead(s0, range, None, x);
    }
  }

  lemma WalkMoves(s0: Shared, sh: Shared, range: Range, calls: seq<SubId>, c: SubId, next: Option<SubId>)
    requires Walk(s0, sh, range, calls, Some(c)) && sh.tree <= sh.subs.Keys
    requires IsNext(sh, range, Some(c), next)
    ensures Walk(s0, sh, range, calls + [c], next)
    ensures c in s0.tree && c !in calls
  {
    var d := calls + [c];
    forall i, j | 0 <= i < j < |d| ensures Before(s0.subs, d[i], d[j]) {
      if j < |calls| { assert Before(s0.subs, calls[i], calls[j]); } else { assert calls[i] in calls; }
    }
    forall x | x in s0.tree && Overlaps(s0.subs[x].range, range) && Before(s0.subs, c, x)
      ensures next.Some? && (x == next.value || Before(s0.subs, next.value, x))
    {
      assert Ahead(sh, range, Some(c), x);
    }
    if next.Some? { assert Ahead(sh, range, Some(c), next.value); }
  }

  lemma WalkNoDup(s0: Shared, sh: Shared, range: Range, calls: seq<SubId>, c: SubId)
    requires Walk(s0, sh, range, calls, Some(c))
    ensures NoDup(calls + [c])
  {
    var d := calls + [c];
    forall i, j | 0 <= i < j < |d| ensures d[i] != d[j] {
      if j < |calls| { assert Before(s0.subs, calls[i], calls[j]); } else { assert calls[i] in calls; }
    }
  }

  lemma WalkDone(s0: Shared, sh: Shared, range: Range, calls: seq<SubId>)
    requires Walk(s0, sh, range, calls, None)
    ensures NoDup(calls)
    ensures forall x :: x in calls <==> x in s0.tree && Overlaps(s0.subs[x].range, range)
  {
    forall i, j | 0 <= i < j < |calls| ensures calls[i] != calls[j] { assert Before(s0.subs, calls[i], calls[j]); }
  }
}

/** The interval-notifier protocol of compat/i915_gem_mmu_notifier.c as a transition system:
    any number of invalidators, readers, inserters and removers, sequentially consistent, a
    spinlock section being one step except where another thread can see its inside. */
module MmuNotifier {

  datatype Option<+T> = None | Some(value: T)

  type SubId = nat
  type Tid = nat

  /** An inclusive range of addresses, as the interval tree is queried with. */
  datatype Range = Range(start: nat, last: nat)

  /** How far the removal of a subscription has come: not begun, waiting for the sequence to
      leave `invSeq`, returned to the caller. */
  datatype Phase = Live | Removing(invSeq: nat) | Removed

  /** struct mmu_interval_notifier. `linked` is !RB_EMPTY_NODE; `hits` counts the callbacks
      that recorded their sequence. */
  datatype Sub = Sub(range: Range, invSeq: nat, linked: bool, phase: Phase, hits: nat)

  /** An invalidation between its start and its end: at the node `cur`, which it has or has
      not yet called back, or through with the traversal. `atStart` is the tree it found,
      `calls` the callbacks made, `hit` those that recorded the sequence. */
  datatype Inval =
    | Walking(range: Range, curSeq: nat, blockable: bool, atStart: set<SubId>, calls: seq<SubId>, hit: set<SubId>,
              cur: SubId, called: bool)
    | Through(range: Range, curSeq: nat, blockable: bool, atStart: set<SubId>, calls: seq<SubId>, hit: set<SubId>,
              found: bool, aborted: bool)

  /** A reader inside mmu_interval_read_begin, or after it with the result `seq`; `hits` is
      the subscription's count when it returned. */
  datatype Reader = Sleeping(sub: SubId, invSeq: nat) | Reading(sub: SubId, invSeq: nat, hits: nat)

  /** struct mmu_notifier_subscriptions. */
  datatype Shared = Shared(invSeq: nat, active: nat, tree: set<SubId>, deferred: seq<SubId>, subs: map<SubId, Sub>)

  /** `drainer` is the thread holding the lock in the middle of mn_itree_inv_end. */
  datatype State = State(sh: Shared, drainer: Option<Tid>, invals: map<Tid, Inval>, readers: map<Tid, Reader>)

  predicate Odd(n: nat) { n % 2 == 1 }

  function MakeOdd(n: nat): (m: nat)
    ensures Odd(m) && n <= m <= n + 1
  {
    if Odd(n) then n else n + 1
  }

  // ---------- the interval tree ----------

  predicate Overlaps(a: Range, b: Range) { a.start <= b.last && b.start <= a.last }

  /** Ranges overlap if they have an address in common. */
  lemma OverlapsExactly(a: Range, b: Range)
    requires a.start <= a.last && b.start <= b.last
    ensures Overlaps(a, b) <==> exists x :: InRange(a, x) && InRange(b, x)
  {
    if Overlaps(a, b) {
      var x := if a.start <= b.start then b.start else a.start;
      assert InRange(a, x) && InRange(b, x);
    }
  }

  predicate InRange(a: Range, x: nat) { a.start <= x <= a.last }

  /** Iteration order: by start address, ties in some fixed order. */
  predicate Before(subs: map<SubId, Sub>, a: SubId, b: SubId)
    requires a in subs && b in subs
  {
    subs[a].range.start < subs[b].range.start || (subs[a].range.start == subs[b].range.start && a < b)
  }

  /** A tree node the iterator would still return: it overlaps and lies after `after`. */
  predicate Ahead(sh: Shared, range: Range, after: Option<SubId>, x: SubId)
    requires sh.tree <= sh.subs.Keys && (after.Some? ==> after.value in sh.subs)
  {
    x in sh.tree && Overlaps(sh.subs[x].range, range) && (after.Some? ==> Before(sh.subs, after.value, x))
  }

  /** interval_tree_iter_first (after nothing) and interval_tree_iter_next. */
  ghost predicate IsNext(sh: Shared, range: Range, after: Option<SubId>, res: Option<SubId>)
    requires sh.tree <= sh.subs.Keys && (after.Some? ==> after.value in sh.subs)
  {
    match res
    case None => forall x :: !Ahead(sh, range, after, x)
    case Some(n) =>
      && Ahead(sh, range, after, n)
      && forall x :: Ahead(sh, range, after, x) ==> x == n || Before(sh.subs, n, x)
  }

  // ---------- the lock sections ----------

  /** mn_itree_inv_start_range, when the iterator's first node is `first`. */
  function StartRange(sh: Shared, first: Option<SubId>): Shared {
    sh.(active := sh.active + 1, invSeq := if first.Some? then MakeOdd(sh.invSeq) else sh.invSeq)
  }

  /** mn_itree_inv_end up to the increment of the sequence; the list is drained after it only
      if this was the last active range of an invalidating tree. */
  function EndRange(sh: Shared): (r: (Shared, bool))
    requires sh.active > 0
  {
    var s := sh.(active := sh.active - 1);
    if s.active > 0 || !Odd(s.invSeq) then (s, false) else (s.(invSeq := s.invSeq + 1), true)
  }

  /** One iteration of the loop that processes the deferred list. */
  function DrainOne(sh: Shared): Shared
    requires sh.deferred != [] && sh.deferred[0] in sh.subs
  {
    var x := sh.deferred[0];
    var s := sh.(deferred := sh.deferred[1..]);
    if !sh.subs[x].linked then s.(tree := sh.tree + {x}, subs := sh.subs[x := sh.subs[x].(linked := true)])
    else s.(tree := sh.tree - {x})
  }

  /** The lock section of __mmu_interval_notifier_insert. */
  function InsertSection(sh: Shared, id: SubId, range: Range): Shared {
    if sh.active > 0 then
      if Odd(sh.invSeq) then
        sh.(deferred := [id] + sh.deferred, subs := sh.subs[id := Sub(range, sh.invSeq, false, Live, 0)])
      else
        sh.(invSeq := MakeOdd(sh.invSeq), tree := sh.tree + {id},
            subs := sh.subs[id := Sub(range, MakeOdd(sh.invSeq), true, Live, 0)])
    else
      sh.(tree := sh.tree + {id},
          subs := sh.subs[id := Sub(range, if sh.invSeq > 0 then sh.invSeq - 1 else 0, true, Live, 0)])
  }

  function Without(s: seq<SubId>, x: SubId): seq<SubId> {
    if s == [] then [] else if s[0] == x then s[1..] else [s[0]] + Without(s[1..], x)
  }

  /** The lock section of mmu_interval_notifier_remove, and the sequence to wait on: 0 for
      none. */
  function RemoveSection(sh: Shared, id: SubId): Shared
    requires id in sh.subs
  {
    if Odd(sh.invSeq) then
      if !sh.subs[id].linked then
        sh.(deferred := Without(sh.deferred, id), subs := sh.subs[id := sh.subs[id].(phase := Removed)])
      else
        sh.(deferred := [id] + sh.deferred, subs := sh.subs[id := sh.subs[id].(phase := Removing(sh.invSeq))])
    else
      sh.(tree := sh.tree - {id}, subs := sh.subs[id := sh.subs[id].(phase := Removed)])
  }

  /** mmu_interval_set_seq from inside a callback. */
  function SetSeq(sh: Shared, id: SubId, curSeq: nat): Shared
    requires id in sh.subs
  {
    sh.(subs := sh.subs[id := sh.subs[id].(invSeq := curSeq, hits := sh.subs[id].hits + 1)])
  }

  /** mmu_interval_read_retry. */
  predicate ReadRetry(sh: Shared, id: SubId, invSeq: nat)
    requires id in sh.subs
  {
    sh.subs[id].invSeq != invSeq
  }

  // ---------- steps ----------

  datatype Step =
    | Start(t: Tid, range: Range, blockable: bool, first: Option<SubId>)
    | Callback(t: Tid, sets: bool, ret: bool)
    | Advance(t: Tid, next: Option<SubId>)
    | End(t: Tid)
    | Drain
    | Unlock
    | Insert(id: SubId, range: Range)
    | Remove(id: SubId)
    | RemoveWake(id: SubId)
    | ReadBegin(r: Tid, id: SubId)
    | ReadWake(r: Tid)
    | ReadEnd(r: Tid)

  predicate Init(s: State) {
    s == State(Shared(2, 0, {}, [], map[]), None, map[], map[])
  }

  /** When a step can be taken. Steps with a lock section need the lock free; a callback that
      returns true has recorded the sequence; callers insert a fresh subscription and remove
      it once. */
  ghost predicate Enabled(s: State, step: Step) {
    match step
    case Start(t, range, _, first) =>
      s.drainer.None? && t !in s.invals && s.sh.tree <= s.sh.subs.Keys && IsNext(s.sh, range, None, first)
    case Callback(t, sets, ret) =>
      && t in s.invals && s.invals[t].Walking? && !s.invals[t].called && s.invals[t].cur in s.sh.subs
      && (ret ==> sets)
    case Advance(t, next) =>
      && t in s.invals && s.invals[t].Walking? && s.invals[t].called && s.invals[t].cur in s.sh.subs
      && s.sh.tree <= s.sh.subs.Keys && IsNext(s.sh, s.invals[t].range, Some(s.invals[t].cur), next)
    case End(t) => s.drainer.None? && t in s.invals && s.invals[t].Through? && s.sh.active > 0
    case Drain => s.drainer.Some? && s.sh.deferred != [] && s.sh.deferred[0] in s.sh.subs
    case Unlock => s.drainer.Some? && s.sh.deferred == []
    case Insert(id, range) => s.drainer.None? && id !in s.sh.subs
    case Remove(id) => s.drainer.None? && id in s.sh.subs && s.sh.subs[id].phase.Live?
    case RemoveWake(id) => id in s.sh.subs && s.sh.subs[id].phase.Removing? && s.sh.invSeq != s.sh.subs[id].phase.invSeq
    case ReadBegin(r, id) => s.drainer.None? && r !in s.readers && id in s.sh.subs && s.sh.subs[id].phase.Live?
    case ReadWake(r) =>
      r in s.readers && s.readers[r].Sleeping? && s.sh.invSeq != s.readers[r].invSeq && s.readers[r].sub in s.sh.subs
    case ReadEnd(r) => r in s.readers && s.readers[r].Reading?
  }

  function Started(s: State, t: Tid, range: Range, blockable: bool, first: Option<SubId>): State {
    var sh := StartRange(s.sh, first);
    var v := if first.Some?
      then Walking(range, sh.invSeq, blockable, s.sh.tree, [], {}, first.value, false)
      else Through(range, sh.invSeq, blockable, s.sh.tree, [], {}, false, false);
    s.(sh := sh, invals := s.invals[t := v])
  }

  function CalledBack(s: State, t: Tid, sets: bool, ret: bool): State
    requires t in s.invals && s.invals[t].Walking? && s.invals[t].cur in s.sh.subs
  {
    var v := s.invals[t];
    var calls := v.calls + [v.cur];
    var hit := if sets then v.hit + {v.cur} else v.hit;
    var v' := if ret || v.blockable
      then v.(calls := calls, hit := hit, called := true)
      else Through(v.range, v.curSeq, v.blockable, v.atStart, calls, hit, true, true);
    s.(sh := if sets then SetSeq(s.sh, v.cur, v.curSeq) else s.sh, invals := s.invals[t := v'])
  }

  function Advanced(s: State, t: Tid, next: Option<SubId>): State
    requires t in s.invals && s.invals[t].Walking?
  {
    var v := s.invals[t];
    var v' := if next.Some? then v.(cur := next.value, called := false)
      else Through(v.range, v.curSeq, v.blockable, v.atStart, v.calls, v.hit, true, false);
    s.(invals := s.invals[t := v'])
  }

  function Ended(s: State, t: Tid): State
    requires s.sh.active > 0
  {
    var (sh, drain) := EndRange(s.sh);
    s.(sh := sh, drainer := if drain then Some(t) else None, invals := s.invals - {t})
  }

  function ReadBegun(s: State, r: Tid, id: SubId): State
    requires id in s.sh.subs
  {
    var q := s.sh.subs[id].invSeq;
    s.(readers := s.readers[r := if q == s.sh.invSeq then Sleeping(id, q) else Reading(id, q, s.sh.subs[id].hits)])
  }

  function ReaderWoken(s: State, r: Tid): State
    requires r in s.readers && s.readers[r].sub in s.sh.subs
  {
    var d := s.readers[r];
    s.(readers := s.readers[r := Reading(d.sub, d.invSeq, s.sh.subs[d.sub].hits)])
  }

  function RemoverWoken(s: State, id: SubId): State
    requires id in s.sh.subs
  {
    s.(sh := s.sh.(subs := s.sh.subs[id := s.sh.subs[id].(phase := Removed)]))
  }

  ghost function Apply(s: State, step: Step): State
    requires Enabled(s, step)
  {
    match step
    case Start(t, range, blockable, first) => Started(s, t, range, blockable, first)
    case Callback(t, sets, ret) => CalledBack(s, t, sets, ret)
    case Advance(t, next) => Advanced(s, t, next)
    case End(t) => Ended(s, t)
    case Drain => s.(sh := DrainOne(s.sh))
    case Unlock => s.(drainer := None)
    case Insert(id, range) => s.(sh := InsertSection(s.sh, id, range))
    case Remove(id) => s.(sh := RemoveSection(s.sh, id))
    case RemoveWake(id) => RemoverWoken(s, id)
    case ReadBegin(r, id) => ReadBegun(s, r, id)
    case ReadWake(r) => ReaderWoken(s, r)
    case ReadEnd(r) => s.(readers := s.readers - {r})
  }

  ghost predicate Next(s: State, s': State) {
    exists step :: Enabled(s, step) && s' == Apply(s, step)
  }

  /** A finite run of the protocol. */
  ghost predicate IsRun(run: seq<State>) {
    && run != [] && Init(run[0])
    && forall i :: 0 <= i < |run| - 1 ==> Next(run[i], run[i + 1])
  }

  // ---------- the invariant ----------

  /** The counters and the lock: the active count is the number of begun but not ended
      invalidations, none active means an even sequence, an even sequence with the lock free
      means nothing deferred. */
  predicate Counters(s: State) {
    && s.sh.invSeq >= 2
    && s.sh.active == |s.invals|
    && (s.sh.active == 0 ==> !Odd(s.sh.invSeq))
    && (s.drainer.Some? ==> s.sh.active == 0)
    && (!Odd(s.sh.invSeq) && s.drainer.None? ==> s.sh.deferred == [])
  }

  ghost predicate NoDup(q: seq<SubId>) { forall i, j :: 0 <= i < j < |q| ==> q[i] != q[j] }

  /** Where a subscription is: a live one is in the tree, or waits on the list to be added;
      one being removed is in the tree exactly as long as it is on the list, that is while the
      sequence it was deferred at lasts and until the drain that follows has come to it. */
  predicate SubOk(s: State, id: SubId)
    requires id in s.sh.subs
  {
    var b := s.sh.subs[id];
    && Odd(b.invSeq) && b.invSeq <= s.sh.invSeq
    && (id in s.sh.tree ==> b.linked)
    && match b.phase {
      case Live => if b.linked then id in s.sh.tree && id !in s.sh.deferred
                   else id !in s.sh.tree && id in s.sh.deferred
      case Removing(w) =>
        && b.linked && Odd(w) && w <= s.sh.invSeq
        && (id in s.sh.tree <==> id in s.sh.deferred)
        && (w == s.sh.invSeq ==> id in s.sh.deferred)
        && (id in s.sh.deferred ==> w == s.sh.invSeq || s.drainer.Some?)
      case Removed =>
        && (id in s.sh.tree <==> id in s.sh.deferred)
        && (id in s.sh.deferred ==> b.linked && s.drainer.Some?)
    }
  }

  ghost predicate Places(s: State) {
    && s.sh.tree <= s.sh.subs.Keys
    && (forall x :: x in s.sh.deferred ==> x in s.sh.subs)
    && NoDup(s.sh.deferred)
    && forall id :: id in s.sh.subs ==> SubOk(s, id)
  }

  ghost predicate Ordered(subs: map<SubId, Sub>, calls: seq<SubId>)
    requires forall x :: x in calls ==> x in subs
  {
    forall i, j :: 0 <= i < j < |calls| ==> Before(subs, calls[i], calls[j])
  }

  /** An invalidation that found a node keeps the sequence odd and the tree as it was; it has
      called back exactly the overlapping nodes up to where it is, in order, each once. */
  ghost predicate InvalOk(s: State, t: Tid)
    requires t in s.invals && s.sh.tree <= s.sh.subs.Keys
  {
    var v := s.invals[t];
    && (forall x :: x in v.calls ==> x in s.sh.subs)
    && v.atStart <= s.sh.subs.Keys
    && Ordered(s.sh.subs, v.calls)
    && (forall x :: x in v.hit ==> x in s.sh.subs && s.sh.subs[x].invSeq == s.sh.invSeq)
    && (v.Walking? || v.found ==> Odd(s.sh.invSeq) && v.curSeq == s.sh.invSeq && v.atStart == s.sh.tree)
    && match v {
      case Walking(_, _, _, _, _, _, cur, called) =>
        && cur in s.sh.tree && Overlaps(s.sh.subs[cur].range, v.range)
        && (forall x :: x in s.sh.subs ==>
              (x in v.calls <==> x in v.atStart && Overlaps(s.sh.subs[x].range, v.range)
                                 && (Before(s.sh.subs, x, cur) || (called && x == cur))))
      case Through(_, _, _, _, _, _, found, aborted) =>
        && (!found ==> v.calls == [] && v.hit == {})
        && (!aborted ==> forall x :: x in s.sh.subs ==>
              (x in v.calls <==> x in v.atStart && Overlaps(s.sh.subs[x].range, v.range)))
    }
  }

  ghost predicate Invals(s: State)
    requires s.sh.tree <= s.sh.subs.Keys
  {
    forall t :: t in s.invals ==> InvalOk(s, t)
  }

  /** A reader carries an odd sequence. One that has returned did so after the sequence moved past its
      own; a later callback moves the subscription's past it too. */
  predicate ReaderOk(s: State, r: Tid)
    requires r in s.readers
  {
    var d := s.readers[r];
    && d.sub in s.sh.subs && Odd(d.invSeq) && d.invSeq <= s.sh.subs[d.sub].invSeq
    && (d.Reading? ==>
          && d.invSeq < s.sh.invSeq
          && d.hits <= s.sh.subs[d.sub].hits
          && (d.hits < s.sh.subs[d.sub].hits ==> d.invSeq < s.sh.subs[d.sub].invSeq))
  }

  ghost predicate Readers(s: State) {
    forall r :: r in s.readers ==> ReaderOk(s, r)
  }

  ghost predicate Inv(s: State) {
    Counters(s) && Places(s) && Invals(s) && Readers(s)
  }
}

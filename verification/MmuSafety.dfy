/** What every interleaving of the interval-notifier protocol keeps. */
module MmuSafety {
  import opened MmuNotifier

  lemma InitInv(s: State)
    requires Init(s)
    ensures Inv(s)
  {
  }

  // ---------- what a step leaves alone ----------

  /** Subscriptions are only added, and keep their ranges. */
  ghost predicate Extends(sh: Shared, sh': Shared) {
    && sh.subs.Keys <= sh'.subs.Keys
    && forall x :: x in sh.subs ==> sh'.subs[x].range == sh.subs[x].range
  }

  /** A step does not disturb an invalidation if it leaves the sequence and the tree alone
      where the invalidation relies on them. */
  lemma InvalFrame(s: State, s': State, t: Tid)
    requires s.sh.tree <= s.sh.subs.Keys && s'.sh.tree <= s'.sh.subs.Keys
    requires t in s.invals && t in s'.invals && s'.invals[t] == s.invals[t] && InvalOk(s, t)
    requires Extends(s.sh, s'.sh)
    requires var v := s.invals[t];
      v.Walking? || v.found ==>
        && s'.sh.invSeq == s.sh.invSeq && s'.sh.tree == s.sh.tree
        && forall x :: x in v.hit ==> s'.sh.subs[x].invSeq == s.sh.invSeq
    ensures InvalOk(s', t)
  {
    var v := s.invals[t];
    assert Ordered(s'.sh.subs, v.calls) by {
      forall i, j | 0 <= i < j < |v.calls| ensures Before(s'.sh.subs, v.calls[i], v.calls[j]) {
        assert Before(s.sh.subs, v.calls[i], v.calls[j]);
      }
    }
    forall x | x in s'.sh.subs && x !in s.sh.subs
      ensures x !in v.calls && x !in v.atStart
    {
    }
  }

  /** So all remaining invalidations are undisturbed by a step that, while the sequence is odd
      and any of them remain, leaves sequence, tree and recorded sequences alone. */
  lemma InvalsFrame(s: State, s': State)
    requires s.sh.tree <= s.sh.subs.Keys && s'.sh.tree <= s'.sh.subs.Keys && Invals(s)
    requires forall t :: t in s'.invals ==> t in s.invals && s'.invals[t] == s.invals[t]
    requires Extends(s.sh, s'.sh)
    requires Odd(s.sh.invSeq) && s'.invals != map[] ==>
      && s'.sh.invSeq == s.sh.invSeq && s'.sh.tree == s.sh.tree
      && forall x :: x in s.sh.subs ==> s'.sh.subs[x].invSeq == s.sh.subs[x].invSeq
    ensures Invals(s')
  {
    forall u | u in s'.invals ensures InvalOk(s', u) { assert InvalOk(s, u); InvalFrame(s, s', u); }
  }

  /** Nor a reader, if it leaves the subscription's sequence alone. */
  lemma ReadersFrame(s: State, s': State)
    requires Readers(s) && s'.readers == s.readers && s.sh.invSeq <= s'.sh.invSeq
    requires forall x :: x in s.sh.subs ==>
      x in s'.sh.subs && s'.sh.subs[x].invSeq == s.sh.subs[x].invSeq && s'.sh.subs[x].hits == s.sh.subs[x].hits
    ensures Readers(s')
  {
    forall r | r in s'.readers ensures ReaderOk(s', r) { assert ReaderOk(s, r); }
  }

  // ---------- starting an invalidation ----------

  lemma StartPlaces(s: State, t: Tid, range: Range, blockable: bool, first: Option<SubId>)
    requires Counters(s) && Places(s) && s.drainer.None?
    ensures Places(Started(s, t, range, blockable, first))
  {
    var s' := Started(s, t, range, blockable, first);
    forall id | id in s'.sh.subs ensures SubOk(s', id) { assert SubOk(s, id); }
  }

  /** A new invalidation has called back nothing yet, and found either the first overlapping
      node or that there is none. */
  lemma StartOwn(s: State, t: Tid, range: Range, blockable: bool, first: Option<SubId>)
    requires Places(s) && IsNext(s.sh, range, None, first)
    ensures var s' := Started(s, t, range, blockable, first); InvalOk(s', t)
  {
    forall x | x in s.sh.tree && Overlaps(s.sh.subs[x].range, range)
      ensures first.Some? && (x == first.value || Before(s.sh.subs, first.value, x))
    {
      assert Ahead(s.sh, range, None, x);
    }
    if first.Some? { assert Ahead(s.sh, range, None, first.value); }
  }

  lemma StartKeeps(s: State, t: Tid, range: Range, blockable: bool, first: Option<SubId>)
    requires Inv(s) && s.drainer.None? && t !in s.invals && IsNext(s.sh, range, None, first)
    ensures Inv(Started(s, t, range, blockable, first))
  {
    var s' := Started(s, t, range, blockable, first);
    assert |s'.invals| == |s.invals| + 1 by { assert s'.invals.Keys == s.invals.Keys + {t}; }
    StartPlaces(s, t, range, blockable, first);
    forall u | u in s'.invals ensures InvalOk(s', u) {
      if u == t { StartOwn(s, t, range, blockable, first); } else { assert InvalOk(s, u); InvalFrame(s, s', u); }
    }
    ReadersFrame(s, s');
  }

  // ---------- traversal ----------

  ghost predicate AtNode(s: State, t: Tid, called: bool) {
    && t in s.invals && s.invals[t].Walking? && s.invals[t].called == called && s.invals[t].cur in s.sh.subs
  }

  lemma CallbackPlaces(s: State, t: Tid, sets: bool, ret: bool)
    requires Inv(s) && AtNode(s, t, false)
    ensures Places(CalledBack(s, t, sets, ret))
  {
    var s' := CalledBack(s, t, sets, ret);
    assert InvalOk(s, t);
    forall id | id in s'.sh.subs ensures SubOk(s', id) { assert SubOk(s, id); }
  }

  lemma CallsGrow(subs: map<SubId, Sub>, subs': map<SubId, Sub>, calls: seq<SubId>, cur: SubId)
    requires (forall x :: x in calls ==> x in subs) && cur in subs && Ordered(subs, calls)
    requires forall x :: x in calls ==> Before(subs, x, cur)
    requires forall x :: x in subs ==> x in subs' && subs'[x].range == subs[x].range
    ensures Ordered(subs', calls + [cur])
  {
    var c := calls + [cur];
    forall i, j | 0 <= i < j < |c| ensures Before(subs', c[i], c[j]) {
      if j < |calls| { assert Before(subs, calls[i], calls[j]); } else { assert calls[i] in calls; }
    }
  }

  /** A node is called back when everything before it has been, and nothing else. */
  lemma CallsStep(sh: Shared, sh': Shared, v: Inval, calls: seq<SubId>)
    requires v.Walking? && !v.called && v.cur in sh.subs && v.cur in v.atStart && calls == v.calls + [v.cur]
    requires sh'.subs.Keys == sh.subs.Keys && forall x :: x in sh.subs ==> sh'.subs[x].range == sh.subs[x].range
    requires Overlaps(sh.subs[v.cur].range, v.range)
    requires forall x :: x in sh.subs ==>
      (x in v.calls <==> x in v.atStart && Overlaps(sh.subs[x].range, v.range) && Before(sh.subs, x, v.cur))
    ensures forall x :: x in sh'.subs ==>
      (x in calls <==> x in v.atStart && Overlaps(sh'.subs[x].range, v.range)
                       && (Before(sh'.subs, x, v.cur) || x == v.cur))
  {
    forall x | x in sh'.subs ensures x in calls <==> x in v.calls || x == v.cur {}
  }

  /** Those called back so far are known, in order, and carry the current sequence if they
      recorded it. */
  lemma CallbackRecord(s: State, t: Tid, sets: bool, ret: bool)
    requires Inv(s) && AtNode(s, t, false)
    ensures var s' := CalledBack(s, t, sets, ret);
      && (forall x :: x in s'.invals[t].calls ==> x in s'.sh.subs)
      && Ordered(s'.sh.subs, s'.invals[t].calls)
      && forall x :: x in s'.invals[t].hit ==> x in s'.sh.subs && s'.sh.subs[x].invSeq == s'.sh.invSeq
  {
    var v := s.invals[t];
    assert InvalOk(s, t);
    CallsGrow(s.sh.subs, CalledBack(s, t, sets, ret).sh.subs, v.calls, v.cur);
  }

  /** The invalidation that calls back its current node. */
  lemma CallbackOwn(s: State, t: Tid, sets: bool, ret: bool)
    requires Inv(s) && AtNode(s, t, false)
    ensures var s' := CalledBack(s, t, sets, ret); InvalOk(s', t)
  {
    var s' := CalledBack(s, t, sets, ret);
    var v, v' := s.invals[t], s'.invals[t];
    CallbackRecord(s, t, sets, ret);
    assert InvalOk(s, t);
    if ret || v.blockable { CallsStep(s.sh, s'.sh, v, v'.calls); }
  }

  lemma CallbackOther(s: State, t: Tid, sets: bool, ret: bool, u: Tid)
    requires Inv(s) && AtNode(s, t, false) && u in s.invals && u != t
    ensures var s' := CalledBack(s, t, sets, ret); InvalOk(s', u)
  {
    assert InvalOk(s, u) && InvalOk(s, t);
    InvalFrame(s, CalledBack(s, t, sets, ret), u);
  }

  /** A callback moves the subscription's sequence past that of every reader that returned. */
  lemma CallbackReader(s: State, t: Tid, sets: bool, ret: bool, r: Tid)
    requires Inv(s) && AtNode(s, t, false) && r in s.readers
    ensures ReaderOk(CalledBack(s, t, sets, ret), r)
  {
    assert InvalOk(s, t) && ReaderOk(s, r) && SubOk(s, s.readers[r].sub);
  }

  lemma CallbackKeeps(s: State, t: Tid, sets: bool, ret: bool)
    requires Inv(s) && AtNode(s, t, false)
    ensures Inv(CalledBack(s, t, sets, ret))
  {
    var s' := CalledBack(s, t, sets, ret);
    assert s'.invals.Keys == s.invals.Keys;
    CallbackPlaces(s, t, sets, ret);
    forall u | u in s'.invals ensures InvalOk(s', u) {
      if u == t { CallbackOwn(s, t, sets, ret); } else { CallbackOther(s, t, sets, ret, u); }
    }
    forall r | r in s'.readers ensures ReaderOk(s', r) { CallbackReader(s, t, sets, ret, r); }
  }

  /** The invalidation that moves on, or finds no further node. */
  lemma AdvanceOwn(s: State, t: Tid, next: Option<SubId>)
    requires Inv(s) && AtNode(s, t, true) && IsNext(s.sh, s.invals[t].range, Some(s.invals[t].cur), next)
    ensures var s' := Advanced(s, t, next); InvalOk(s', t)
  {
    var v := s.invals[t];
    assert InvalOk(s, t);
    forall x | x in s.sh.tree && Overlaps(s.sh.subs[x].range, v.range) && Before(s.sh.subs, v.cur, x)
      ensures next.Some? && (x == next.value || Before(s.sh.subs, next.value, x))
    {
      assert Ahead(s.sh, v.range, Some(v.cur), x);
    }
    if next.Some? { assert Ahead(s.sh, v.range, Some(v.cur), next.value); }
  }

  lemma AdvanceKeeps(s: State, t: Tid, next: Option<SubId>)
    requires Inv(s) && AtNode(s, t, true) && IsNext(s.sh, s.invals[t].range, Some(s.invals[t].cur), next)
    ensures Inv(Advanced(s, t, next))
  {
    var s' := Advanced(s, t, next);
    assert s'.invals.Keys == s.invals.Keys;
    forall id | id in s'.sh.subs ensures SubOk(s', id) { assert SubOk(s, id); }
    forall u | u in s'.invals ensures InvalOk(s', u) {
      if u == t { AdvanceOwn(s, t, next); } else { InvalFrame(s, s', u); }
    }
    ReadersFrame(s, s');
  }

  // ---------- ending an invalidation ----------

  lemma EndPlaces(s: State, t: Tid)
    requires Counters(s) && Places(s) && s.drainer.None? && s.sh.active > 0
    ensures Places(Ended(s, t))
  {
    var s' := Ended(s, t);
    forall id | id in s'.sh.subs ensures SubOk(s', id) { assert SubOk(s, id); }
  }

  lemma EndCounters(s: State, t: Tid)
    requires Counters(s) && s.drainer.None? && t in s.invals && s.sh.active > 0
    ensures Counters(Ended(s, t))
    ensures Odd(s.sh.invSeq) && Ended(s, t).sh.invSeq != s.sh.invSeq ==> Ended(s, t).invals == map[]
  {
    var s' := Ended(s, t);
    assert s'.invals.Keys == s.invals.Keys - {t};
    assert |s'.invals| == |s.invals| - 1;
  }

  lemma EndKeeps(s: State, t: Tid)
    requires Inv(s) && s.drainer.None? && t in s.invals && s.sh.active > 0
    ensures Inv(Ended(s, t))
  {
    EndCounters(s, t);
    EndPlaces(s, t);
    InvalsFrame(s, Ended(s, t));
    ReadersFrame(s, Ended(s, t));
  }

  lemma DrainKeeps(s: State)
    requires Inv(s) && s.drainer.Some? && s.sh.deferred != [] && s.sh.deferred[0] in s.sh.subs
    ensures Inv(s.(sh := DrainOne(s.sh)))
  {
    var s' := s.(sh := DrainOne(s.sh));
    forall id | id in s'.sh.subs ensures SubOk(s', id) { assert SubOk(s, id); }
    ReadersFrame(s, s');
  }

  lemma UnlockKeeps(s: State)
    requires Inv(s) && s.drainer.Some? && s.sh.deferred == []
    ensures Inv(s.(drainer := None))
  {
    var s' := s.(drainer := None);
    forall id | id in s'.sh.subs ensures SubOk(s', id) { assert SubOk(s, id); }
    ReadersFrame(s, s');
  }

  // ---------- inserting and removing ----------

  lemma InsertPlaces(s: State, id: SubId, range: Range)
    requires Counters(s) && Places(s) && s.drainer.None? && id !in s.sh.subs
    ensures Places(s.(sh := InsertSection(s.sh, id, range)))
  {
    var s' := s.(sh := InsertSection(s.sh, id, range));
    assert id !in s.sh.deferred;
    forall x | x in s'.sh.subs ensures SubOk(s', x) { if x != id { assert SubOk(s, x); } }
  }

  lemma InsertInvals(s: State, id: SubId, range: Range)
    requires Inv(s) && s.drainer.None? && id !in s.sh.subs
    requires Places(s.(sh := InsertSection(s.sh, id, range)))
    ensures Invals(s.(sh := InsertSection(s.sh, id, range)))
  {
    InvalsFrame(s, s.(sh := InsertSection(s.sh, id, range)));
  }

  lemma InsertKeeps(s: State, id: SubId, range: Range)
    requires Inv(s) && s.drainer.None? && id !in s.sh.subs
    ensures Inv(s.(sh := InsertSection(s.sh, id, range)))
  {
    InsertPlaces(s, id, range);
    InsertInvals(s, id, range);
    ReadersFrame(s, s.(sh := InsertSection(s.sh, id, range)));
  }

  lemma {:induction false} WithoutFacts(q: seq<SubId>, x: SubId)
    requires NoDup(q)
    ensures NoDup(Without(q, x))
    ensures forall y :: y in Without(q, x) <==> y in q && y != x
  {
    if q != [] && q[0] != x {
      assert q == [q[0]] + q[1..];
      WithoutFacts(q[1..], x);
      assert q[0] !in Without(q[1..], x);
    }
  }

  lemma RemovePlaces(s: State, id: SubId)
    requires Counters(s) && Places(s) && s.drainer.None? && id in s.sh.subs && s.sh.subs[id].phase.Live?
    ensures Places(s.(sh := RemoveSection(s.sh, id)))
  {
    var s' := s.(sh := RemoveSection(s.sh, id));
    WithoutFacts(s.sh.deferred, id);
    assert SubOk(s, id);
    forall x | x in s'.sh.subs ensures SubOk(s', x) { assert SubOk(s, x); }
  }

  /** A removal leaves ranges, sequences and callbacks of all subscriptions alone. */
  lemma RemoveFrame(sh: Shared, id: SubId)
    requires id in sh.subs && sh.subs[id].phase.Live?
    ensures var sh' := RemoveSection(sh, id);
      && sh'.subs.Keys == sh.subs.Keys && sh.invSeq <= sh'.invSeq && Extends(sh, sh')
      && forall x :: x in sh.subs ==>
        x in sh'.subs && sh'.subs[x].invSeq == sh.subs[x].invSeq && sh'.subs[x].hits == sh.subs[x].hits
  {
  }

  lemma RemoveInvals(s: State, id: SubId)
    requires Inv(s) && s.drainer.None? && id in s.sh.subs && s.sh.subs[id].phase.Live?
    requires Places(s.(sh := RemoveSection(s.sh, id)))
    ensures Invals(s.(sh := RemoveSection(s.sh, id)))
  {
    RemoveFrame(s.sh, id);
    InvalsFrame(s, s.(sh := RemoveSection(s.sh, id)));
  }

  lemma RemoveReaders(s: State, id: SubId)
    requires Readers(s) && id in s.sh.subs && s.sh.subs[id].phase.Live?
    ensures Readers(s.(sh := RemoveSection(s.sh, id)))
  {
    RemoveFrame(s.sh, id);
    ReadersFrame(s, s.(sh := RemoveSection(s.sh, id)));
  }

  lemma RemoveKeeps(s: State, id: SubId)
    requires Inv(s) && s.drainer.None? && id in s.sh.subs && s.sh.subs[id].phase.Live?
    ensures Inv(s.(sh := RemoveSection(s.sh, id)))
  {
    RemovePlaces(s, id);
    RemoveInvals(s, id);
    RemoveReaders(s, id);
  }

  lemma RemoveWakeKeeps(s: State, id: SubId)
    requires Inv(s) && id in s.sh.subs && s.sh.subs[id].phase.Removing? && s.sh.invSeq != s.sh.subs[id].phase.invSeq
    ensures Inv(RemoverWoken(s, id))
  {
    var s' := RemoverWoken(s, id);
    forall x | x in s'.sh.subs ensures SubOk(s', x) { assert SubOk(s, x); }
    InvalsFrame(s, s');
    ReadersFrame(s, s');
  }

  // ---------- reading ----------

  /** Steps of readers change nothing but readers. */
  lemma ReadersOnly(s: State, s': State)
    requires Inv(s) && s' == s.(readers := s'.readers) && Readers(s')
    ensures Inv(s')
  {
    forall x | x in s'.sh.subs ensures SubOk(s', x) { assert SubOk(s, x); }
    InvalsFrame(s, s');
  }

  lemma ReadBeginKeeps(s: State, r: Tid, id: SubId)
    requires Inv(s) && id in s.sh.subs
    ensures Inv(ReadBegun(s, r, id))
  {
    var s' := ReadBegun(s, r, id);
    assert SubOk(s, id);
    forall x | x in s'.readers ensures ReaderOk(s', x) { if x != r { assert ReaderOk(s, x); } }
    ReadersOnly(s, s');
  }

  lemma ReadWakeKeeps(s: State, r: Tid)
    requires Inv(s) && r in s.readers && s.readers[r].Sleeping? && s.sh.invSeq != s.readers[r].invSeq
    requires s.readers[r].sub in s.sh.subs
    ensures Inv(ReaderWoken(s, r))
  {
    var s' := ReaderWoken(s, r);
    assert SubOk(s, s.readers[r].sub);
    forall x | x in s'.readers ensures ReaderOk(s', x) { assert ReaderOk(s, x); }
    ReadersOnly(s, s');
  }

  lemma ReadEndKeeps(s: State, r: Tid)
    requires Inv(s)
    ensures Inv(s.(readers := s.readers - {r}))
  {
    var s' := s.(readers := s.readers - {r});
    forall x | x in s'.readers ensures ReaderOk(s', x) { assert ReaderOk(s, x); }
    ReadersOnly(s, s');
  }

  // ---------- every step, every run ----------

  lemma StepKeepsInv(s: State, step: Step)
    requires Inv(s) && Enabled(s, step)
    ensures Inv(Apply(s, step))
  {
    match step
    case Start(t, range, blockable, first) => StartKeeps(s, t, range, blockable, first);
    case Callback(t, sets, ret) => CallbackKeeps(s, t, sets, ret);
    case Advance(t, next) => AdvanceKeeps(s, t, next);
    case End(t) => EndKeeps(s, t);
    case Drain => DrainKeeps(s);
    case Unlock => UnlockKeeps(s);
    case Insert(id, range) => InsertKeeps(s, id, range);
    case Remove(id) => RemoveKeeps(s, id);
    case RemoveWake(id) => RemoveWakeKeeps(s, id);
    case ReadBegin(r, id) => ReadBeginKeeps(s, r, id);
    case ReadWake(r) => ReadWakeKeeps(s, r);
    case ReadEnd(r) => ReadEndKeeps(s, r);
  }

  lemma {:induction false} RunKeepsInv(run: seq<State>, i: nat)
    requires IsRun(run) && i < |run|
    ensures Inv(run[i])
  {
    if i == 0 {
      InitInv(run[0]);
    } else {
      RunKeepsInv(run, i - 1);
      assert Next(run[i - 1], run[i - 1 + 1]);
      var step :| Enabled(run[i - 1], step) && run[i] == Apply(run[i - 1], step);
      StepKeepsInv(run[i - 1], step);
    }
  }

  // ---------- theorems ----------

  /** Reader safety: if read_begin returned `seq` and read_retry now says no retry is needed,
      then no callback has recorded itself on the subscription since read_begin returned, and
      no invalidation that did so before is still between its start and its end. */
  lemma ReaderSafety(run: seq<State>, i: nat, r: Tid)
    requires IsRun(run) && i < |run| && r in run[i].readers && run[i].readers[r].Reading?
    ensures var s := run[i]; var d := s.readers[r];
      && d.sub in s.sh.subs
      && (!ReadRetry(s.sh, d.sub, d.invSeq) ==>
            && s.sh.subs[d.sub].hits == d.hits
            && forall t :: t in s.invals ==> d.sub !in s.invals[t].hit)
  {
    RunKeepsInv(run, i);
    var s := run[i];
    var d := s.readers[r];
    assert ReaderOk(s, r);
    forall t | t in s.invals && d.sub in s.invals[t].hit
      ensures s.sh.subs[d.sub].invSeq == s.sh.invSeq
    {
      assert InvalOk(s, t);
    }
  }

  // ---------- subscriptions that an invalidation does not know ----------

  /** A live subscription that an invalidation under way did not find carries the current sequence,
      and so does one that waits to be added while the lock is free. */
  predicate UnknownWaits(s: State, id: SubId)
    requires id in s.sh.subs
  {
    var b := s.sh.subs[id];
    b.phase.Live? ==>
      && (forall t :: t in s.invals && id !in s.invals[t].atStart ==> b.invSeq == s.sh.invSeq)
      && (s.drainer.None? && !b.linked ==> b.invSeq == s.sh.invSeq)
  }

  predicate AllWait(s: State) { forall id :: id in s.sh.subs ==> UnknownWaits(s, id) }

  lemma StartWaits(s: State, t: Tid, range: Range, blockable: bool, first: Option<SubId>)
    requires Inv(s) && AllWait(s) && s.drainer.None? && t !in s.invals
    ensures AllWait(Started(s, t, range, blockable, first))
  {
    var s' := Started(s, t, range, blockable, first);
    forall id | id in s'.sh.subs ensures UnknownWaits(s', id) { assert SubOk(s, id) && UnknownWaits(s, id); }
  }

  lemma CallbackWaits(s: State, t: Tid, sets: bool, ret: bool)
    requires Inv(s) && AllWait(s) && AtNode(s, t, false)
    ensures AllWait(CalledBack(s, t, sets, ret))
  {
    var s' := CalledBack(s, t, sets, ret);
    assert InvalOk(s, t);
    forall id | id in s'.sh.subs ensures UnknownWaits(s', id) { assert UnknownWaits(s, id); }
  }

  lemma EndWaits(s: State, t: Tid)
    requires Inv(s) && AllWait(s) && s.drainer.None? && t in s.invals && s.sh.active > 0
    ensures AllWait(Ended(s, t))
  {
    var s' := Ended(s, t);
    EndCounters(s, t);
    forall id | id in s'.sh.subs ensures UnknownWaits(s', id) { assert SubOk(s, id) && UnknownWaits(s, id); }
  }

  /** While the list is drained no invalidation is under way. */
  lemma DrainWaits(s: State, s': State)
    requires Inv(s) && s.drainer.Some? && s'.invals == s.invals
    requires s'.drainer.Some? || (s'.sh == s.sh && s.sh.deferred == [])
    ensures AllWait(s')
  {
    assert s.invals.Keys == {};
    forall id | id in s'.sh.subs ensures UnknownWaits(s', id) { if s'.sh == s.sh { assert SubOk(s, id); } }
  }

  lemma InsertWaits(s: State, id: SubId, range: Range)
    requires Inv(s) && AllWait(s) && s.drainer.None? && id !in s.sh.subs
    ensures AllWait(s.(sh := InsertSection(s.sh, id, range)))
  {
    var s' := s.(sh := InsertSection(s.sh, id, range));
    if s.sh.active == 0 { assert s.invals.Keys == {}; }
    forall x | x in s'.sh.subs ensures UnknownWaits(s', x) {
      if x != id { assert SubOk(s, x) && UnknownWaits(s, x); }
    }
  }

  /** A step that leaves sequence, live subscriptions and the trees found alone. */
  lemma QuietWaits(s: State, s': State)
    requires AllWait(s) && s'.sh.invSeq == s.sh.invSeq && s'.drainer == s.drainer && s'.sh.subs.Keys == s.sh.subs.Keys
    requires forall x :: x in s.sh.subs && s'.sh.subs[x].phase.Live? ==> s'.sh.subs[x] == s.sh.subs[x]
    requires forall t :: t in s'.invals ==> t in s.invals && s'.invals[t].atStart == s.invals[t].atStart
    ensures AllWait(s')
  {
    forall x | x in s'.sh.subs ensures UnknownWaits(s', x) { assert UnknownWaits(s, x); }
  }

  lemma RemoveWaits(s: State, id: SubId)
    requires AllWait(s) && id in s.sh.subs && s.sh.subs[id].phase.Live?
    ensures AllWait(s.(sh := RemoveSection(s.sh, id)))
  {
    QuietWaits(s, s.(sh := RemoveSection(s.sh, id)));
  }

  lemma StepWaits(s: State, step: Step)
    requires Inv(s) && AllWait(s) && Enabled(s, step)
    ensures AllWait(Apply(s, step))
  {
    var s' := Apply(s, step);
    match step
    case Start(t, range, blockable, first) => StartWaits(s, t, range, blockable, first);
    case Callback(t, sets, ret) => CallbackWaits(s, t, sets, ret);
    case End(t) => EndWaits(s, t);
    case Drain => DrainWaits(s, s');
    case Unlock => DrainWaits(s, s');
    case Insert(id, range) => InsertWaits(s, id, range);
    case Remove(id) => RemoveWaits(s, id);
    case _ => QuietWaits(s, s');
  }

  lemma {:induction false} RunWaits(run: seq<State>, i: nat)
    requires IsRun(run) && i < |run|
    ensures AllWait(run[i])
  {
    if i > 0 {
      RunWaits(run, i - 1);
      RunKeepsInv(run, i - 1);
      assert Next(run[i - 1], run[i - 1 + 1]);
      var step :| Enabled(run[i - 1], step) && run[i] == Apply(run[i - 1], step);
      StepWaits(run[i - 1], step);
    } else {
      assert run[0].sh.subs == map[];
    }
  }

  /** When read_begin has returned and read_retry says no, every invalidation under way found the
      live subscription in the tree; one that is through with the traversal and overlaps it has
      called it back, before read_begin returned or without recording the sequence. No invalidation
      goes by unnoticed because the subscription was inserted while it was under way. */
  lemma ReaderIsKnown(run: seq<State>, i: nat, r: Tid, t: Tid)
    requires IsRun(run) && i < |run| && r in run[i].readers && run[i].readers[r].Reading? && t in run[i].invals
    ensures var s := run[i]; var d, v := s.readers[r], s.invals[t];
      && d.sub in s.sh.subs
      && (s.sh.subs[d.sub].phase.Live? && !ReadRetry(s.sh, d.sub, d.invSeq) ==>
            && d.sub in v.atStart && d.sub !in v.hit
            && (v.Through? && !v.aborted && Overlaps(s.sh.subs[d.sub].range, v.range) ==> d.sub in v.calls))
  {
    ReaderSafety(run, i, r);
    RunKeepsInv(run, i);
    RunWaits(run, i);
    var s := run[i];
    assert ReaderOk(s, r) && UnknownWaits(s, s.readers[r].sub) && InvalOk(s, t);
  }

  /** A subscription inserted while an invalidation is under way makes its readers wait until the
      sequence has moved on: it is handed the sequence of the invalidation. */
  lemma InsertedWaits(run: seq<State>, i: nat, id: SubId, range: Range)
    requires IsRun(run) && i < |run| && Enabled(run[i], Insert(id, range))
    ensures var sh := InsertSection(run[i].sh, id, range);
      id in sh.subs && Odd(sh.subs[id].invSeq) && (sh.subs[id].invSeq == sh.invSeq <==> run[i].sh.active > 0)
  {
    RunKeepsInv(run, i);
    var s' := Apply(run[i], Insert(id, range));
    StepKeepsInv(run[i], Insert(id, range));
    assert SubOk(s', id);
    assert s'.sh == InsertSection(run[i].sh, id, range);
  }

  // ---------- over a run ----------

  /** The subscription has been called back no less often, and no callback means the same sequence. */
  predicate Grown(sh: Shared, sh': Shared, id: SubId) {
    id in sh.subs ==>
      && id in sh'.subs && sh.subs[id].hits <= sh'.subs[id].hits
      && (sh'.subs[id].hits == sh.subs[id].hits ==> sh'.subs[id].invSeq == sh.subs[id].invSeq)
  }

  lemma StepGrows(s: State, step: Step, id: SubId)
    requires Enabled(s, step)
    ensures Grown(s.sh, Apply(s, step).sh, id)
  {
  }

  lemma NextGrows(s: State, s': State, id: SubId)
    requires Next(s, s')
    ensures Grown(s.sh, s'.sh, id)
  {
    var step :| Enabled(s, step) && s' == Apply(s, step);
    StepGrows(s, step, id);
  }

  lemma {:induction false} RunGrows(run: seq<State>, j: nat, i: nat, id: SubId)
    requires IsRun(run) && j <= i < |run|
    ensures Grown(run[j].sh, run[i].sh, id)
    decreases i
  {
    if j < i {
      RunGrows(run, j, i - 1, id);
      assert Next(run[i - 1], run[i - 1 + 1]);
      NextGrows(run[i - 1], run[i], id);
    }
  }

  /** Over a run: from any moment after read_begin returned up to a read_retry that says no,
      not one callback recorded itself on the subscription. */
  lemma ReaderUndisturbed(run: seq<State>, j: nat, i: nat, r: Tid)
    requires IsRun(run) && j <= i < |run|
    requires r in run[j].readers && r in run[i].readers && run[j].readers[r] == run[i].readers[r]
    requires run[i].readers[r].Reading?
    ensures var d := run[i].readers[r];
      && d.sub in run[j].sh.subs && d.sub in run[i].sh.subs
      && (!ReadRetry(run[i].sh, d.sub, d.invSeq) ==> run[j].sh.subs[d.sub].hits == run[i].sh.subs[d.sub].hits)
  {
    RunKeepsInv(run, j);
    assert ReaderOk(run[j], r);
    ReaderSafety(run, i, r);
    RunGrows(run, j, i, run[i].readers[r].sub);
  }

  /** And read_retry says yes only for a reason: a callback has recorded itself since read_begin took
      the sequence, at step j. */
  lemma RetryHasReason(run: seq<State>, j: nat, i: nat, r: Tid, id: SubId)
    requires IsRun(run) && j < i < |run| && Enabled(run[j], ReadBegin(r, id))
    requires run[j + 1] == Apply(run[j], ReadBegin(r, id))
    requires r in run[i].readers && run[i].readers[r].sub == id
    requires run[i].readers[r].invSeq == run[j + 1].readers[r].invSeq
    ensures id in run[i].sh.subs
    ensures ReadRetry(run[i].sh, id, run[i].readers[r].invSeq) ==> run[j].sh.subs[id].hits < run[i].sh.subs[id].hits
  {
    RunGrows(run, j, i, id);
  }

  /** Lockless traversal: from a start that found a node to the matching end the sequence is
      the odd one taken at the start and the tree is the one found; a traversal that was not
      aborted has called back each overlapping subscription of that tree exactly once. */
  lemma TraversalIsExact(run: seq<State>, i: nat, t: Tid)
    requires IsRun(run) && i < |run| && t in run[i].invals
    ensures var s := run[i]; var v := s.invals[t];
      && (v.Walking? || v.found ==> Odd(s.sh.invSeq) && v.curSeq == s.sh.invSeq && v.atStart == s.sh.tree)
      && NoDup(v.calls)
      && v.atStart <= s.sh.subs.Keys
      && (v.Through? && !v.aborted ==> forall x :: x in s.sh.subs ==>
            (x in v.calls <==> x in v.atStart && Overlaps(s.sh.subs[x].range, v.range)))
  {
    RunKeepsInv(run, i);
    var s := run[i];
    var v := s.invals[t];
    assert InvalOk(s, t);
    forall j, k | 0 <= j < k < |v.calls| ensures v.calls[j] != v.calls[k] {
      assert Before(s.sh.subs, v.calls[j], v.calls[k]);
    }
  }

  /** A subscription about to be called back is in the tree and its removal has not returned. */
  lemma CalledIsAlive(run: seq<State>, i: nat, t: Tid)
    requires IsRun(run) && i < |run| && t in run[i].invals && run[i].invals[t].Walking?
    ensures var s := run[i]; var c := s.invals[t].cur;
      c in s.sh.tree && c in s.sh.subs && !s.sh.subs[c].phase.Removed?
  {
    RunKeepsInv(run, i);
    assert InvalOk(run[i], t);
    assert SubOk(run[i], run[i].invals[t].cur);
    assert run[i].invals.Keys != {};
  }

  /** Deferral is exact whenever the lock is free. */
  lemma DeferralExact(run: seq<State>, i: nat)
    requires IsRun(run) && i < |run| && run[i].drainer.None?
    ensures var s := run[i];
      && s.sh.active == |s.invals|
      && (s.sh.active == 0 ==> !Odd(s.sh.invSeq))
      && (!Odd(s.sh.invSeq) ==> s.sh.deferred == [])
      && (forall id :: id in s.sh.subs ==>
            && Odd(s.sh.subs[id].invSeq) && s.sh.subs[id].invSeq <= s.sh.invSeq
            && (s.sh.subs[id].phase.Removed? ==> id !in s.sh.tree && id !in s.sh.deferred))
  {
    RunKeepsInv(run, i);
    forall id | id in run[i].sh.subs ensures SubOk(run[i], id) {}
  }

  /** Nobody waits in vain: a reader or remover that cannot go on waits for an invalidation that is
      under way. */
  lemma NoStuckWaiters(run: seq<State>, i: nat)
    requires IsRun(run) && i < |run| && run[i].invals == map[]
    ensures forall r :: r in run[i].readers && run[i].readers[r].Sleeping? ==> Enabled(run[i], ReadWake(r))
    ensures forall id :: id in run[i].sh.subs && run[i].sh.subs[id].phase.Removing? ==> Enabled(run[i], RemoveWake(id))
  {
    RunKeepsInv(run, i);
    var s := run[i];
    forall r | r in s.readers && s.readers[r].Sleeping? ensures Enabled(s, ReadWake(r)) {
      assert ReaderOk(s, r);
    }
    forall id | id in s.sh.subs && s.sh.subs[id].phase.Removing? ensures Enabled(s, RemoveWake(id)) {
      assert SubOk(s, id);
    }
  }

  /** And while no invalidation is under way, read_begin returns at once. */
  lemma IdleReadReturns(run: seq<State>, i: nat, r: Tid, id: SubId)
    requires IsRun(run) && i < |run| && run[i].invals == map[] && Enabled(run[i], ReadBegin(r, id))
    ensures Apply(run[i], ReadBegin(r, id)).readers[r].Reading?
  {
    RunKeepsInv(run, i);
    assert SubOk(run[i], id);
  }

  /** An invalidation that finds nothing, with none other active, leaves no trace. */
  lemma UnseenLeavesNoTrace(run: seq<State>, i: nat, t: Tid, range: Range, blockable: bool)
    requires IsRun(run) && i < |run| && run[i].sh.active == 0 && Enabled(run[i], Start(t, range, blockable, None))
    ensures var s := Apply(run[i], Start(t, range, blockable, None));
      Enabled(s, End(t)) && Apply(s, End(t)) == run[i]
  {
    RunKeepsInv(run, i);
    var s := Started(run[i], t, range, blockable, None);
    assert s.invals - {t} == run[i].invals;
  }

  /** One that finds something moves the sequence on, so that it can be told from before: odd during
      the invalidation, the next even number afterwards. */
  lemma SeenMovesOn(run: seq<State>, i: nat, t: Tid, range: Range, blockable: bool, first: SubId)
    requires IsRun(run) && i < |run| && run[i].sh.active == 0 && run[i].drainer.None?
    requires Enabled(run[i], Start(t, range, blockable, Some(first)))
    ensures var s := Apply(run[i], Start(t, range, blockable, Some(first)));
      && s.sh.invSeq == run[i].sh.invSeq + 1 && Odd(s.sh.invSeq) && s.invals[t].curSeq == s.sh.invSeq
      && EndRange(s.sh).0.invSeq == run[i].sh.invSeq + 2 && EndRange(s.sh).1
  {
    RunKeepsInv(run, i);
  }

  /** At any moment, a subscription whose removal has returned is still in the tree if and only
      if the drain under way has not yet come to it. */
  lemma RemovedStaysOnlyForDrain(run: seq<State>, i: nat, id: SubId)
    requires IsRun(run) && i < |run| && id in run[i].sh.subs && run[i].sh.subs[id].phase.Removed?
    ensures var s := run[i]; id in s.sh.tree <==> s.drainer.Some? && id in s.sh.deferred
  {
    RunKeepsInv(run, i);
    assert SubOk(run[i], id);
  }

  lemma TakeStep(s: State, step: Step, s': State)
    requires Enabled(s, step) && s' == Apply(s, step)
    ensures Next(s, s')
  {
  }

  /** A run with one subscription and one invalidation, during which it is removed. */
  function EarlyRun(i: nat): State
    requires i < 8
  {
    var all := Range(0, 9);
    var walking := map[0 := Walking(all, 3, true, {0}, [], {}, 0, false)];
    match i
    case 0 => State(Shared(2, 0, {}, [], map[]), None, map[], map[])
    case 1 => State(Shared(2, 0, {0}, [], map[0 := Sub(all, 1, true, Live, 0)]), None, map[], map[])
    case 2 => State(Shared(3, 1, {0}, [], map[0 := Sub(all, 1, true, Live, 0)]), None, walking, map[])
    case 3 => State(Shared(3, 1, {0}, [0], map[0 := Sub(all, 1, true, Removing(3), 0)]), None, walking, map[])
    case 4 => State(Shared(3, 1, {0}, [0], map[0 := Sub(all, 3, true, Removing(3), 1)]), None,
                    map[0 := Walking(all, 3, true, {0}, [0], {0}, 0, true)], map[])
    case 5 => State(Shared(3, 1, {0}, [0], map[0 := Sub(all, 3, true, Removing(3), 1)]), None,
                    map[0 := Through(all, 3, true, {0}, [0], {0}, true, false)], map[])
    case 6 => State(Shared(4, 0, {0}, [0], map[0 := Sub(all, 3, true, Removing(3), 1)]), Some(0), map[], map[])
    case _ => State(Shared(4, 0, {0}, [0], map[0 := Sub(all, 3, true, Removed, 1)]), Some(0), map[], map[])
  }

  lemma EarlyStep(i: nat)
    requires i < 7
    ensures Next(EarlyRun(i), EarlyRun(i + 1))
  {
    var s, all := EarlyRun(i), Range(0, 9);
    if i == 1 { assert Ahead(s.sh, all, None, 0); }
    var step := match i
      case 0 => Insert(0, all)
      case 1 => Start(0, all, true, Some(0))
      case 2 => Remove(0)
      case 3 => Callback(0, true, true)
      case 4 => Advance(0, None)
      case 5 => End(0)
      case _ => RemoveWake(0);
    var s', e := Apply(s, step), EarlyRun(i + 1);
    if i == 3 {
      assert s'.invals[0].calls == [0] && s'.invals[0].hit == {0};
    }
    assert s'.sh.subs == e.sh.subs && s'.sh.tree == e.sh.tree && s'.sh.deferred == e.sh.deferred;
    assert s'.invals == e.invals;
    TakeStep(s, step, e);
  }

  /** And that does happen: the waiter can see the new sequence before the list is drained. */
  lemma RemovalCanReturnEarly() returns (run: seq<State>)
    ensures IsRun(run)
    ensures var s := run[|run| - 1];
      0 in s.sh.subs && s.sh.subs[0].phase.Removed? && 0 in s.sh.tree && s.drainer.Some?
  {
    run := seq(8, i requires 0 <= i < 8 => EarlyRun(i));
    forall i | 0 <= i < 7 ensures Next(run[i], run[i + 1]) { EarlyStep(i); }
  }

  /** Neither of the source's two warnings can fire: an insert that finds no active range finds
      an even sequence, and a removal that finds an even sequence finds the node in the tree. */
  lemma WarningsNeverFire(run: seq<State>, i: nat, id: SubId)
    requires IsRun(run) && i < |run| && run[i].drainer.None?
    ensures run[i].sh.active == 0 ==> !Odd(run[i].sh.invSeq)
    ensures id in run[i].sh.subs && run[i].sh.subs[id].phase.Live? && !Odd(run[i].sh.invSeq)
            ==> run[i].sh.subs[id].linked && id in run[i].sh.tree
  {
    RunKeepsInv(run, i);
    if id in run[i].sh.subs { assert SubOk(run[i], id); }
  }
}

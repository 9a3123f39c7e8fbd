/** The batched counters of a hierarchy of memory control groups (compat/memcontrol.c), for one
    statistics item. */
module MemcgCounters {

  // ---------- the hierarchy ----------

  /** parent[g] is the number of g's parent, or -1; groups are numbered after their parents. */
  type Tree = seq<int>

  predicate IsTree(t: Tree) { forall g :: 0 <= g < |t| ==> -1 <= t[g] < g }

  /** h is g or in the subtree below g. */
  predicate Below(t: Tree, g: int, h: int)
    requires IsTree(t) && h < |t|
    decreases h
  {
    h >= 0 && (h == g || Below(t, g, t[h]))
  }

  lemma {:induction false} BelowIsOlder(t: Tree, g: int, h: int)
    requires IsTree(t) && h < |t| && Below(t, g, h)
    ensures g <= h
    decreases h
  {
    if h != g { BelowIsOlder(t, g, t[h]); }
  }

  // ---------- sums ----------

  /** The sum of a row of values over the first n groups, as far as they are below g. */
  function SumBelow(t: Tree, g: int, row: seq<int>, n: nat): int
    requires IsTree(t) && n <= |t| == |row|
  {
    if n == 0 then 0 else SumBelow(t, g, row, n - 1) + (if Below(t, g, n - 1) then row[n - 1] else 0)
  }

  /** The sum over all CPUs and the whole subtree of g. */
  function Total(t: Tree, g: int, rows: seq<seq<int>>): int
    requires IsTree(t) && Shaped(t, rows)
  {
    if rows == [] then 0 else Total(t, g, rows[..|rows| - 1]) + SumBelow(t, g, rows[|rows| - 1], |t|)
  }

  predicate Shaped(t: Tree, rows: seq<seq<int>>) { forall c :: 0 <= c < |rows| ==> |rows[c]| == |t| }

  /** The size of the subtree of g. */
  function Size(t: Tree, g: int, n: nat): nat
    requires IsTree(t) && n <= |t|
  {
    if n == 0 then 0 else Size(t, g, n - 1) + (if Below(t, g, n - 1) then 1 else 0)
  }

  function Add(rows: seq<seq<int>>, c: nat, h: nat, x: int): seq<seq<int>>
    requires c < |rows| && h < |rows[c]|
  {
    rows[c := rows[c][h := rows[c][h] + x]]
  }

  lemma {:induction false} SumBelowAdd(t: Tree, g: int, row: seq<int>, n: nat, h: nat, x: int)
    requires IsTree(t) && n <= |t| == |row| && h < |t|
    ensures SumBelow(t, g, row[h := row[h] + x], n)
      == SumBelow(t, g, row, n) + (if h < n && Below(t, g, h) then x else 0)
  {
    if n > 0 { SumBelowAdd(t, g, row, n - 1, h, x); }
  }

  /** One value more in one place moves the totals of the groups above it, and no others. */
  lemma {:induction false} TotalAdd(t: Tree, g: int, rows: seq<seq<int>>, c: nat, h: nat, x: int)
    requires IsTree(t) && Shaped(t, rows) && c < |rows| && h < |t|
    ensures Shaped(t, Add(rows, c, h, x))
    ensures Total(t, g, Add(rows, c, h, x)) == Total(t, g, rows) + (if Below(t, g, h) then x else 0)
    decreases |rows|
  {
    var rows', last := Add(rows, c, h, x), |rows| - 1;
    if c == last {
      SumBelowAdd(t, g, rows[c], |t|, h, x);
      assert rows'[..last] == rows[..last];
    } else {
      TotalAdd(t, g, rows[..last], c, h, x);
      assert rows'[..last] == Add(rows[..last], c, h, x);
    }
  }

  /** The entries of two tables added. */
  predicate IsSum(t: Tree, a: seq<seq<int>>, b: seq<seq<int>>, s: seq<seq<int>>)
    requires Shaped(t, a) && Shaped(t, b) && Shaped(t, s)
  {
    |a| == |b| == |s| && forall c, h :: 0 <= c < |s| && 0 <= h < |t| ==> s[c][h] == a[c][h] + b[c][h]
  }

  lemma {:induction false} SumBelowSum(t: Tree, g: int, a: seq<int>, b: seq<int>, s: seq<int>, n: nat)
    requires IsTree(t) && n <= |t| == |a| == |b| == |s| && forall h :: 0 <= h < n ==> s[h] == a[h] + b[h]
    ensures SumBelow(t, g, s, n) == SumBelow(t, g, a, n) + SumBelow(t, g, b, n)
  {
    if n > 0 { SumBelowSum(t, g, a, b, s, n - 1); }
  }

  lemma {:induction false} TotalSum(t: Tree, g: int, a: seq<seq<int>>, b: seq<seq<int>>, s: seq<seq<int>>)
    requires IsTree(t) && Shaped(t, a) && Shaped(t, b) && Shaped(t, s) && IsSum(t, a, b, s)
    ensures Total(t, g, s) == Total(t, g, a) + Total(t, g, b)
    decreases |s|
  {
    if s != [] {
      var last := |s| - 1;
      SumBelowSum(t, g, a[last], b[last], s[last], |t|);
      TotalSum(t, g, a[..last], b[..last], s[..last]);
    }
  }

  predicate Within(rows: seq<seq<int>>, bound: nat) {
    forall c, h :: 0 <= c < |rows| && 0 <= h < |rows[c]| ==> 0 - bound <= rows[c][h] <= bound
  }

  lemma {:induction false} SumBelowBound(t: Tree, g: int, row: seq<int>, n: nat, bound: nat)
    requires IsTree(t) && n <= |t| == |row| && forall h :: 0 <= h < n ==> 0 - bound <= row[h] <= bound
    ensures -(bound * Size(t, g, n)) <= SumBelow(t, g, row, n) <= bound * Size(t, g, n)
  {
    if n > 0 {
      SumBelowBound(t, g, row, n - 1, bound);
      Distribute(bound, Size(t, g, n - 1), if Below(t, g, n - 1) then 1 else 0);
    }
  }

  lemma Distribute(a: int, b: int, c: int)
    ensures a * (b + c) == a * b + a * c
  {
  }

  lemma {:induction false} TotalBound(t: Tree, g: int, rows: seq<seq<int>>, bound: nat)
    requires IsTree(t) && Shaped(t, rows) && Within(rows, bound)
    ensures -(bound * Size(t, g, |t|) * |rows|) <= Total(t, g, rows) <= bound * Size(t, g, |t|) * |rows|
    decreases |rows|
  {
    if rows != [] {
      var last := |rows| - 1;
      assert Within(rows[..last], bound);
      TotalBound(t, g, rows[..last], bound);
      SumBelowBound(t, g, rows[last], |t|, bound);
      Distribute(bound * Size(t, g, |t|), last, 1);
    }
  }

  // ---------- the counters ----------

  /** Adds x to g's total and to those of all groups above it. */
  method AddUpwards(t: Tree, totals: seq<int>, g: int, x: int) returns (r: seq<int>)
    requires IsTree(t) && |totals| == |t| && 0 <= g < |t|
    ensures |r| == |t| && forall a :: 0 <= a < |t| ==> r[a] == totals[a] + (if Below(t, a, g) then x else 0)
  {
    r := totals;
    var mi := g;
    while mi >= 0
      invariant -1 <= mi < |t| && |r| == |t|
      invariant forall a :: 0 <= a < |t| ==> r[a] == totals[a] + (if Below(t, a, g) && !Below(t, a, mi) then x else 0)
      invariant forall a :: 0 <= a < |t| && Below(t, a, mi) ==> Below(t, a, g)
      decreases mi
    {
      if Below(t, mi, t[mi]) { BelowIsOlder(t, mi, t[mi]); }
      r := r[mi := r[mi] + x];
      mi := t[mi];
    }
  }

  /** The totals hold exactly the given values of each whole subtree. */
  predicate Collected(t: Tree, totals: seq<int>, rows: seq<seq<int>>)
    requires IsTree(t) && Shaped(t, rows)
  {
    |totals| == |t| && forall g :: 0 <= g < |t| ==> totals[g] == Total(t, g, rows)
  }

  /** What was flushed or not adds up to what was added. */
  predicate Balanced(t: Tree, totals: seq<int>, pending: seq<seq<int>>, added: seq<seq<int>>)
    requires IsTree(t) && Shaped(t, pending) && Shaped(t, added)
  {
    |totals| == |t| && forall g :: 0 <= g < |t| ==> totals[g] + Total(t, g, pending) == Total(t, g, added)
  }

  lemma CollectedAdd(t: Tree, totals: seq<int>, totals': seq<int>, rows: seq<seq<int>>, c: nat, h: nat, x: int)
    requires IsTree(t) && Shaped(t, rows) && c < |rows| && h < |t| && Collected(t, totals, rows)
    requires |totals'| == |t|
    requires forall a :: 0 <= a < |t| ==> totals'[a] == totals[a] + (if Below(t, a, h) then x else 0)
    ensures Shaped(t, Add(rows, c, h, x)) && Collected(t, totals', Add(rows, c, h, x))
  {
    forall g | 0 <= g < |t| ensures totals'[g] == Total(t, g, Add(rows, c, h, x)) { TotalAdd(t, g, rows, c, h, x); }
  }

  lemma BalancedAdd(t: Tree, totals: seq<int>, totals': seq<int>, pending: seq<seq<int>>, added: seq<seq<int>>,
                    c: nat, h: nat, val: int, x: int)
    requires IsTree(t) && Shaped(t, pending) && Shaped(t, added) && c < |pending| == |added| && h < |t|
    requires Balanced(t, totals, pending, added)
    requires |totals'| == |t|
    requires forall a :: 0 <= a < |t| ==> totals'[a] == totals[a] + (if Below(t, a, h) then x else 0)
    ensures Shaped(t, Add(pending, c, h, val - x)) && Shaped(t, Add(added, c, h, val))
    ensures Balanced(t, totals', Add(pending, c, h, val - x), Add(added, c, h, val))
  {
    TotalAdd(t, 0, pending, c, h, val - x);
    TotalAdd(t, 0, added, c, h, val);
    forall g | 0 <= g < |t|
      ensures totals'[g] + Total(t, g, Add(pending, c, h, val - x)) == Total(t, g, Add(added, c, h, val))
    {
      TotalAdd(t, g, pending, c, h, val - x);
      TotalAdd(t, g, added, c, h, val);
    }
  }

  /** x was added to the totals of g and of all groups above it, and to no others. */
  predicate Flushed(t: Tree, totals: seq<int>, totals': seq<int>, g: nat, x: int)
    requires IsTree(t) && |totals| == |totals'| == |t| && g < |t|
  {
    forall a :: 0 <= a < |t| ==> totals'[a] == totals[a] + (if Below(t, a, g) then x else 0)
  }

  class Memcg {
    const tree: Tree
    const cpus: nat
    const disabled: bool
    /** MEMCG_CHARGE_BATCH, in pages or in bytes as the item is counted. */
    const threshold: nat
    const lruThreshold: nat
    /** vmstats_percpu, vmstats_local and vmstats. */
    var pending: seq<seq<int>>
    var local: seq<seq<int>>
    var total: seq<int>
    /** lruvec_stat_cpu, lruvec_stat_local and lruvec_stat of one NUMA node. */
    var lruPending: seq<seq<int>>
    var lruLocal: seq<seq<int>>
    var lruTotal: seq<int>
    /** What was added, on each CPU and for each group. */
    ghost var added: seq<seq<int>>
    ghost var lruAdded: seq<seq<int>>

    ghost predicate Shape()
      reads this
    {
      && IsTree(tree) && |pending| == |local| == |added| == |lruPending| == |lruLocal| == |lruAdded| == cpus
      && Shaped(tree, pending) && Shaped(tree, local) && Shaped(tree, added)
      && Shaped(tree, lruPending) && Shaped(tree, lruLocal) && Shaped(tree, lruAdded)
    }

    /** Every group's total is exactly what was flushed in its subtree, no pending value exceeds
        the threshold, and flushed and pending values together are what was added. */
    ghost predicate MemcgInv()
      requires Shape()
      reads this
    {
      IsSum(tree, local, pending, added) && Within(pending, threshold) && Collected(tree, total, local)
    }

    ghost predicate LruInv()
      requires Shape()
      reads this
    {
      lruLocal == lruAdded && Within(lruPending, lruThreshold) && Balanced(tree, lruTotal, lruPending, lruAdded)
    }

    ghost predicate Valid()
      reads this
    {
      Shape() && MemcgInv() && LruInv()
    }

    /** __mod_memcg_state on the given CPU. */
    method ModState(cpu: nat, g: nat, val: int)
      requires Valid() && cpu < cpus && g < |tree|
      modifies this`pending, this`local, this`total, this`added
      ensures Valid()
      ensures added == if disabled then old(added) else Add(old(added), cpu, g, val)
      ensures forall c, h :: 0 <= c < cpus && 0 <= h < |tree| && (c != cpu || h != g) ==>
        pending[c][h] == old(pending)[c][h]
      ensures disabled ==> pending == old(pending) && local == old(local) && total == old(total)
      ensures var x := val + old(pending)[cpu][g]; !disabled ==>
        if 0 - threshold <= x <= threshold then pending[cpu][g] == x && local == old(local) && total == old(total)
        else pending[cpu][g] == 0 && Flushed(tree, old(total), total, g, x) && local == Add(old(local), cpu, g, x)
    {
      if disabled { return; }
      var x := val + pending[cpu][g];
      if x > threshold || -x > threshold {
        var totals := AddUpwards(tree, total, g, x);
        CollectedAdd(tree, total, totals, local, cpu, g, x);
        local, total := Add(local, cpu, g, x), totals;
        x := 0;
      }
      pending := pending[cpu := pending[cpu][g := x]];
      added := Add(added, cpu, g, val);
    }

    /** __mod_memcg_lruvec_state on the given CPU. */
    method ModLruvecState(cpu: nat, g: nat, val: int)
      requires Valid() && cpu < cpus && g < |tree|
      modifies this`pending, this`local, this`total, this`added, this`lruPending, this`lruLocal, this`lruTotal
      modifies this`lruAdded
      ensures Valid()
      ensures added == if disabled then old(added) else Add(old(added), cpu, g, val)
      ensures lruAdded == Add(old(lruAdded), cpu, g, val)
    {
      ModState(cpu, g, val);
      ModLru(cpu, g, val);
    }

    /** The part of __mod_memcg_lruvec_state that updates the lruvec. */
    method ModLru(cpu: nat, g: nat, val: int)
      requires Valid() && cpu < cpus && g < |tree|
      modifies this`lruPending, this`lruLocal, this`lruTotal, this`lruAdded
      ensures Valid() && lruAdded == Add(old(lruAdded), cpu, g, val) && lruLocal == Add(old(lruLocal), cpu, g, val)
      ensures var x := val + old(lruPending)[cpu][g];
        if 0 - lruThreshold <= x <= lruThreshold then lruPending[cpu][g] == x && lruTotal == old(lruTotal)
        else lruPending[cpu][g] == 0 && Flushed(tree, old(lruTotal), lruTotal, g, x)
    {
      lruLocal := Add(lruLocal, cpu, g, val);
      var x := val + lruPending[cpu][g];
      ghost var flushed := 0;
      var totals := lruTotal;
      if x > lruThreshold || -x > lruThreshold {
        totals := AddUpwards(tree, lruTotal, g, x);
        flushed, x := x, 0;
      }
      BalancedAdd(tree, lruTotal, totals, lruPending, lruAdded, cpu, g, val, flushed);
      assert lruPending[cpu := lruPending[cpu][g := x]] == Add(lruPending, cpu, g, val - flushed);
      lruPending, lruTotal := lruPending[cpu := lruPending[cpu][g := x]], totals;
      lruAdded := Add(lruAdded, cpu, g, val);
    }

    /** Counters that were never updated. */
    constructor (tree: Tree, cpus: nat, disabled: bool, threshold: nat, lruThreshold: nat)
      requires IsTree(tree)
      ensures Valid() && this.tree == tree && this.cpus == cpus && this.disabled == disabled
      ensures added == lruAdded == Zeros(cpus, |tree|)
    {
      var zeros := Zeros(cpus, |tree|);
      this.tree, this.cpus, this.disabled := tree, cpus, disabled;
      this.threshold, this.lruThreshold := threshold, lruThreshold;
      pending, local, lruPending, lruLocal := zeros, zeros, zeros, zeros;
      added, lruAdded := zeros, zeros;
      total, lruTotal := seq(|tree|, _ => 0), seq(|tree|, _ => 0);
      forall g | 0 <= g < |tree| ensures Total(tree, g, zeros) == 0 { TotalZeros(tree, g, cpus); }
    }

    method Apply(op: Op)
      requires Valid() && op.cpu < cpus && op.g < |tree|
      modifies this
      ensures Valid() && added == if disabled then old(added) else Add(old(added), op.cpu, op.g, op.val)
      ensures lruAdded == if op.lru then Add(old(lruAdded), op.cpu, op.g, op.val) else old(lruAdded)
    {
      if op.lru {
        ModLruvecState(op.cpu, op.g, op.val);
      } else {
        ModState(op.cpu, op.g, op.val);
      }
    }

    method ApplyNext(ops: seq<Op>, i: nat, ghost added0: seq<seq<int>>, ghost lru0: seq<seq<int>>)
      requires Valid() && i < |ops| && ops[i].cpu < cpus && ops[i].g < |tree| && Fits(added0, ops) && Fits(lru0, ops)
      requires IsAfter(added0, added, ops[..i], false, disabled) && IsAfter(lru0, lruAdded, ops[..i], true, false)
      modifies this
      ensures Valid()
      ensures IsAfter(added0, added, ops[..i + 1], false, disabled)
      ensures IsAfter(lru0, lruAdded, ops[..i + 1], true, false)
    {
      ghost var was, lruWas := added, lruAdded;
      Apply(ops[i]);
      AfterStep(added0, was, added, ops, i, false, disabled);
      AfterStep(lru0, lruWas, lruAdded, ops, i, true, false);
    }

    /** Any sequence of updates keeps all this, and adds up to the sum of the updates: in the group
        counters unless memory control is disabled, and of those of a lruvec in its counters. */
    method Run(ops: seq<Op>)
      requires Valid() && forall i :: 0 <= i < |ops| ==> ops[i].cpu < cpus && ops[i].g < |tree|
      modifies this
      ensures Valid() && Shaped(tree, old(added)) && |old(added)| == cpus
      ensures Shaped(tree, old(lruAdded)) && |old(lruAdded)| == cpus
      ensures added == if disabled then old(added) else AddedBy(old(added), ops, false)
      ensures lruAdded == AddedBy(old(lruAdded), ops, true)
    {
      var i := 0;
      assert ops[..0] == [];
      while i < |ops|
        invariant 0 <= i <= |ops| && Valid()
        invariant IsAfter(old(added), added, ops[..i], false, disabled)
        invariant IsAfter(old(lruAdded), lruAdded, ops[..i], true, false)
      {
        ApplyNext(ops, i, old(added), old(lruAdded));
        i := i + 1;
      }
      assert ops[..i] == ops;
    }
  }

  datatype Op = Op(cpu: nat, g: nat, val: int, lru: bool)

  function Zeros(cpus: nat, n: nat): seq<seq<int>> { seq(cpus, _ => seq(n, _ => 0)) }

  /** Every update is for a CPU and a group of the counters. */
  predicate Fits(rows: seq<seq<int>>, ops: seq<Op>) {
    forall i :: 0 <= i < |ops| ==> ops[i].cpu < |rows| && ops[i].g < |rows[ops[i].cpu]|
  }

  /** What a sequence of updates, or those of a lruvec in it, adds up to. */
  function AddedBy(rows: seq<seq<int>>, ops: seq<Op>, lru: bool): (r: seq<seq<int>>)
    requires Fits(rows, ops)
    ensures |r| == |rows| && forall c :: 0 <= c < |r| ==> |r[c]| == |rows[c]|
  {
    if ops == [] then rows
    else
      var op := ops[|ops| - 1];
      var before := AddedBy(rows, ops[..|ops| - 1], lru);
      if lru && !op.lru then before else Add(before, op.cpu, op.g, op.val)
  }

  /** The updates, of a lruvec or all, were added to rows0, unless disabled. */
  predicate IsAfter(rows0: seq<seq<int>>, rows: seq<seq<int>>, ops: seq<Op>, lru: bool, disabled: bool) {
    Fits(rows0, ops) && rows == if disabled then rows0 else AddedBy(rows0, ops, lru)
  }

  lemma AfterStep(rows0: seq<seq<int>>, rows: seq<seq<int>>, rows': seq<seq<int>>, ops: seq<Op>, i: nat,
                  lru: bool, disabled: bool)
    requires i < |ops| && Fits(rows0, ops) && IsAfter(rows0, rows, ops[..i], lru, disabled)
    requires ops[i].cpu < |rows| && ops[i].g < |rows[ops[i].cpu]|
    requires rows' == if disabled || (lru && !ops[i].lru) then rows else Add(rows, ops[i].cpu, ops[i].g, ops[i].val)
    ensures IsAfter(rows0, rows', ops[..i + 1], lru, disabled)
  {
    assert ops[..i + 1][..i] == ops[..i];
  }

  lemma {:induction false} SumBelowZeros(t: Tree, g: int, row: seq<int>, n: nat)
    requires IsTree(t) && n <= |t| == |row| && forall h :: 0 <= h < |row| ==> row[h] == 0
    ensures SumBelow(t, g, row, n) == 0
  {
    if n > 0 { SumBelowZeros(t, g, row, n - 1); }
  }

  lemma {:induction false} TotalZeros(t: Tree, g: int, cpus: nat)
    requires IsTree(t)
    ensures Total(t, g, Zeros(cpus, |t|)) == 0
  {
    if cpus > 0 {
      assert Zeros(cpus, |t|)[..cpus - 1] == Zeros(cpus - 1, |t|);
      TotalZeros(t, g, cpus - 1);
      SumBelowZeros(t, g, Zeros(cpus, |t|)[cpus - 1], |t|);
    }
  }

  /** A group's total is off by at most the threshold for each CPU and each group of its subtree. */
  lemma Drift(t: Tree, g: nat, totals: seq<int>, local: seq<seq<int>>, pending: seq<seq<int>>, added: seq<seq<int>>,
              threshold: nat)
    requires IsTree(t) && Shaped(t, local) && Shaped(t, pending) && Shaped(t, added) && g < |t|
    requires IsSum(t, local, pending, added) && Within(pending, threshold) && Collected(t, totals, local)
    ensures 0 - threshold * Size(t, g, |t|) * |added| <= Total(t, g, added) - totals[g]
      <= threshold * Size(t, g, |t|) * |added|
  {
    TotalSum(t, g, local, pending, added);
    TotalBound(t, g, pending, threshold);
  }

  lemma LruDrift(t: Tree, g: nat, totals: seq<int>, pending: seq<seq<int>>, added: seq<seq<int>>, threshold: nat)
    requires IsTree(t) && Shaped(t, pending) && Shaped(t, added) && g < |t|
    requires Within(pending, threshold) && Balanced(t, totals, pending, added)
    ensures 0 - threshold * Size(t, g, |t|) * |pending| <= Total(t, g, added) - totals[g]
      <= threshold * Size(t, g, |t|) * |pending|
  {
    TotalBound(t, g, pending, threshold);
  }
}

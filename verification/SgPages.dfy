/** Scatter-gather lists and their page iterator (compat/compat-3.9.c). */
module SgPages {

  const PAGE := 4096

  /** struct scatterlist: length bytes from offset in the first of consecutive pages. */
  datatype Entry = Entry(page: nat, offset: nat, length: nat)

  /** Offsets are within the first page. */
  predicate Valid(sgl: seq<Entry>) { forall i :: 0 <= i < |sgl| ==> sgl[i].offset < PAGE }

  // ---------- the flat view ----------

  /** n consecutive addresses. */
  function Range(a: nat, n: nat): (q: seq<nat>)
    ensures |q| == n && forall j :: 0 <= j < n ==> q[j] == a + j
  {
    seq(n, j requires 0 <= j => a + j)
  }

  /** The addresses of a list's bytes, in order; nents limits the entries. */
  function Addrs(sgl: seq<Entry>, nents: nat): seq<nat> {
    if nents == 0 || sgl == [] then []
    else Range(sgl[0].page * PAGE + sgl[0].offset, sgl[0].length) + Addrs(sgl[1..], nents - 1)
  }

  // ---------- pages ----------

  /** sg_page_count. */
  function PageCount(e: Entry): nat { (e.offset + e.length + PAGE - 1) / PAGE }

  /** Where the entry's bytes start on its page k, and how many are there. */
  function StartOn(e: Entry, k: nat): nat { if k == 0 then e.offset else 0 }

  function BytesOn(e: Entry, k: nat): nat {
    var rest := e.offset + e.length - k * PAGE - StartOn(e, k);
    if rest <= 0 || StartOn(e, k) >= PAGE then 0
    else if rest < PAGE - StartOn(e, k) then rest
    else PAGE - StartOn(e, k)
  }

  function PageAddrs(e: Entry, k: nat): seq<nat> { Range((e.page + k) * PAGE + StartOn(e, k), BytesOn(e, k)) }

  /** The pages from the pg-th on, counted from the head of a list, as pairs of an entry and a page
      of it. */
  datatype Slot = Slot(e: Entry, k: nat)

  function EntryPages(e: Entry, k: nat): seq<Slot>
    decreases PageCount(e) - k
  {
    if k >= PageCount(e) then [] else [Slot(e, k)] + EntryPages(e, k + 1)
  }

  function Pages(sgl: seq<Entry>, nents: nat, pg: nat): seq<Slot>
    decreases |sgl|
  {
    if nents == 0 || sgl == [] then []
    else if pg >= PageCount(sgl[0]) then Pages(sgl[1..], nents - 1, pg - PageCount(sgl[0]))
    else EntryPages(sgl[0], pg) + Pages(sgl[1..], nents - 1, 0)
  }

  /** The addresses on a sequence of pages. */
  function Bytes(ps: seq<Slot>): seq<nat> {
    if ps == [] then [] else PageAddrs(ps[0].e, ps[0].k) + Bytes(ps[1..])
  }

  lemma {:induction false} BytesConcat(a: seq<Slot>, b: seq<Slot>)
    ensures Bytes(a + b) == Bytes(a) + Bytes(b)
  {
    if a == [] {
      assert a + b == b;
    } else {
      assert (a + b)[1..] == a[1..] + b;
      BytesConcat(a[1..], b);
      var first := PageAddrs(a[0].e, a[0].k);
      assert first + (Bytes(a[1..]) + Bytes(b)) == (first + Bytes(a[1..])) + Bytes(b);
    }
  }

  lemma RangeSplit(a: nat, n: nat, m: nat)
    ensures Range(a, n + m) == Range(a, n) + Range(a + n, m)
  {
  }

  /** How many bytes of an entry are on its page k and after it. */
  function Remaining(e: Entry, k: nat): nat
    requires e.offset < PAGE && k < PageCount(e)
  {
    e.offset + e.length - k * PAGE - StartOn(e, k)
  }

  /** The addresses of an entry's bytes from its page k on. */
  function Tail(e: Entry, k: nat): seq<nat>
    requires e.offset < PAGE && k < PageCount(e)
  {
    Range((e.page + k) * PAGE + StartOn(e, k), Remaining(e, k))
  }

  lemma TailStep(e: Entry, k: nat)
    requires e.offset < PAGE && k + 1 < PageCount(e)
    ensures Tail(e, k) == PageAddrs(e, k) + Tail(e, k + 1)
  {
    StepArith(e, k);
    RangeSplit((e.page + k) * PAGE + StartOn(e, k), BytesOn(e, k), Remaining(e, k + 1));
  }

  lemma StepArith(e: Entry, k: nat)
    requires e.offset < PAGE && k + 1 < PageCount(e)
    ensures (e.page + k) * PAGE + StartOn(e, k) + BytesOn(e, k) == (e.page + (k + 1)) * PAGE + StartOn(e, k + 1)
    ensures BytesOn(e, k) + Remaining(e, k + 1) == Remaining(e, k)
  {
    PageArith(e, k);
  }

  lemma TailEnd(e: Entry, k: nat)
    requires e.offset < PAGE && k + 1 == PageCount(e)
    ensures Tail(e, k) == PageAddrs(e, k)
  {
    PageArith(e, k);
  }

  /** An entry's pages from k on hold its bytes from there on. */
  lemma {:induction false} EntryBytes(e: Entry, k: nat)
    requires e.offset < PAGE && k < PageCount(e)
    ensures Bytes(EntryPages(e, k)) == Tail(e, k)
    decreases PageCount(e) - k
  {
    BytesFirst(Slot(e, k), EntryPages(e, k + 1));
    if k + 1 < PageCount(e) {
      EntryBytes(e, k + 1);
      TailStep(e, k);
    } else {
      assert EntryPages(e, k + 1) == [];
      TailEnd(e, k);
    }
  }

  /** Every page of an entry with any bytes holds some of them. */
  lemma EveryPageUsed(e: Entry, k: nat)
    requires e.offset < PAGE && e.length > 0
    ensures k < PageCount(e) <==> BytesOn(e, k) > 0
  {
    if k < PageCount(e) { PageArith(e, k); }
  }

  lemma BytesFirst(s: Slot, later: seq<Slot>)
    ensures Bytes([s] + later) == PageAddrs(s.e, s.k) + Bytes(later)
  {
    assert ([s] + later)[1..] == later;
  }

  /** All pages of an entry but the last are filled to the end. */
  lemma PageArith(e: Entry, k: nat)
    requires e.offset < PAGE && k < PageCount(e)
    ensures e.offset + e.length >= k * PAGE + StartOn(e, k)
    ensures k + 1 < PageCount(e) ==>
      StartOn(e, k) + BytesOn(e, k) == PAGE && (e.page + (k + 1)) * PAGE == (e.page + k) * PAGE + PAGE
    ensures k + 1 < PageCount(e) ==> e.offset + e.length >= (k + 1) * PAGE == k * PAGE + PAGE
    ensures k + 1 >= PageCount(e) ==> BytesOn(e, k) == e.offset + e.length - k * PAGE - StartOn(e, k)
  {
  }

  /** Page by page is byte by byte: the pages of a list hold exactly its flat view. */
  lemma {:induction false} PagesAreFlat(sgl: seq<Entry>, nents: nat)
    requires Valid(sgl)
    ensures Bytes(Pages(sgl, nents, 0)) == Addrs(sgl, nents)
    decreases |sgl|
  {
    if nents != 0 && sgl != [] {
      PagesAreFlat(sgl[1..], nents - 1);
      if PageCount(sgl[0]) > 0 {
        EntryBytes(sgl[0], 0);
        BytesConcat(EntryPages(sgl[0], 0), Pages(sgl[1..], nents - 1, 0));
      }
    }
  }

  // ---------- the page iterator ----------

  /** struct sg_page_iter; sg is the rest of the list, and empty for NULL. */
  class PageIter {
    var sg: seq<Entry>
    var nents: nat
    var pgOffset: nat
    var pgAdvance: nat

    /** __sg_page_iter_start. */
    constructor (sgl: seq<Entry>, nents: nat, pgOffset: nat)
      ensures sg == sgl && this.nents == nents && this.pgOffset + pgAdvance == pgOffset
    {
      this.pgAdvance, this.nents, this.sg, this.pgOffset := 0, nents, sgl, pgOffset;
    }

    ghost predicate Ok()
      reads this
    {
      Valid(sg)
    }

    /** The pages not yet returned. */
    ghost function Rest(): seq<Slot>
      reads this
    {
      Pages(sg, nents, pgOffset + pgAdvance)
    }

    /** __sg_page_iter_next: the pages of the list come out one after the other. */
    method Next() returns (more: bool)
      requires Ok()
      modifies this
      ensures Ok() && more == (old(Rest()) != [])
      ensures more ==> sg != [] && pgOffset < PageCount(sg[0])
      ensures more ==> old(Rest()) == [Slot(sg[0], pgOffset)] + Rest()
      ensures !more ==> Rest() == []
    {
      if nents == 0 || sg == [] { return false; }
      pgOffset := pgOffset + pgAdvance;
      pgAdvance := 1;
      while pgOffset >= PageCount(sg[0])
        invariant Ok() && nents != 0 && sg != [] && pgAdvance == 1
        invariant Pages(sg, nents, pgOffset) == old(Rest())
        decreases |sg|
      {
        pgOffset := pgOffset - PageCount(sg[0]);
        sg := sg[1..];
        nents := nents - 1;
        if nents == 0 || sg == [] { return false; }
      }
      more := true;
      NextPage(sg, nents, pgOffset);
    }
  }

  lemma NextPage(sgl: seq<Entry>, nents: nat, pg: nat)
    requires nents != 0 && sgl != [] && pg < PageCount(sgl[0])
    ensures Pages(sgl, nents, pg) == [Slot(sgl[0], pg)] + Pages(sgl, nents, pg + 1)
  {
    var e, later := sgl[0], Pages(sgl[1..], nents - 1, 0);
    if pg + 1 == PageCount(e) {
      assert EntryPages(e, pg + 1) == [];
    } else {
      assert [Slot(e, pg)] + EntryPages(e, pg + 1) + later == [Slot(e, pg)] + (EntryPages(e, pg + 1) + later);
    }
  }
}

/** The mapping iterator and sg_copy_buffer (compat/compat-3.9.c, compat/backport-3.11.c) against
    the flat view of a scatter-gather list. */
module SgCopy {
  import opened SgPages

  type Byte = x: int | 0 <= x < 256

  type Memory = map<nat, Byte>

  /** struct sg_mapping_iter: `mapped` says whether addr is set. */
  class MapIter {
    const piter: PageIter
    var mapped: bool
    var addr: nat
    var length: nat
    var consumed: nat
    var offset: nat
    var remaining: nat
    /** The flat view of the list, how far the iterator is in it, and the pages still to fetch. */
    ghost const all: seq<nat>
    ghost var pos: nat
    ghost var todo: seq<Slot>

    /** sg_miter_start. */
    constructor (sgl: seq<Entry>, nents: nat)
      requires Valid(sgl)
      ensures fresh(piter) && Ok() && !mapped && all == Addrs(sgl, nents) && pos == 0
    {
      piter := new PageIter(sgl, nents, 0);
      mapped, addr, length, consumed, offset, remaining := false, 0, 0, 0, 0, 0;
      all, pos := Addrs(sgl, nents), 0;
      new;
      todo := Pages(sgl, nents, 0);
      StartToCome(sgl, nents);
    }

    ghost predicate Ok()
      reads this, piter
    {
      && Window(all, pos, Base(), remaining)
      && piter.Ok() && todo == piter.Rest() && ToCome(all, pos + remaining, todo)
      && (remaining > 0 ==> piter.sg != [])
      && (mapped ==> length == remaining && consumed <= length && addr == Base())
    }

    /** The address of the next byte. */
    ghost function Base(): nat
      reads this, piter
    {
      if piter.sg == [] then 0 else (piter.sg[0].page + piter.pgOffset) * PAGE + offset
    }

    /** Where the bytes begin that were not yet consumed. */
    ghost function Unread(): int
      reads this
    {
      if mapped then pos + consumed else pos
    }

    /** sg_miter_get_next_page: bytes neither get lost nor come twice. */
    method GetNextPage() returns (more: bool)
      requires Ok() && !mapped
      modifies this`offset, this`remaining, this`todo, piter
      ensures Ok()
      ensures more ==> piter.sg != []
      ensures !more ==> pos == |all|
      ensures old(remaining) == 0 && more ==> |todo| < |old(todo)|
      ensures old(remaining) > 0 ==> more && remaining == old(remaining) && todo == old(todo)
    {
      more := true;
      if remaining == 0 { more := FetchPage(); }
    }

    method FetchPage() returns (more: bool)
      requires Ok() && !mapped && remaining == 0
      modifies this`offset, this`remaining, this`todo, piter
      ensures Ok()
      ensures more ==> piter.sg != [] && |todo| < |old(todo)|
      ensures !more ==> pos == |all|
    {
      more := piter.Next();
      if more {
        offset, remaining := OnPage(piter.sg[0], piter.pgOffset);
        assert todo[0] == Slot(piter.sg[0], piter.pgOffset) && todo[1..] == piter.Rest();
        todo := todo[1..];
      }
    }

    /** Moves over n bytes of the current page. */
    method Drop(n: nat)
      requires Ok() && !mapped && n <= remaining
      modifies this`offset, this`remaining, this`pos
      ensures Ok() && pos == old(pos) + n && remaining == old(remaining) - n
    {
      offset := offset + n;
      remaining := remaining - n;
      pos := pos + n;
    }

    /** sg_miter_stop: the consumed bytes are behind. */
    method Stop()
      requires Ok()
      modifies this`mapped, this`addr, this`length, this`consumed, this`offset, this`remaining, this`pos
      ensures Ok() && !mapped && pos == old(Unread()) && (old(mapped) ==> remaining == old(length) - old(consumed))
    {
      if mapped {
        var n := consumed;
        mapped, addr, length, consumed := false, 0, 0, 0;
        Drop(n);
      }
    }

    /** sg_miter_next: the window is the first bytes not yet consumed. */
    method Next() returns (more: bool)
      requires Ok()
      modifies this`mapped, this`addr, this`length, this`consumed, this`offset, this`remaining, this`pos, this`todo
      modifies piter
      ensures Ok() && mapped == more && pos == old(Unread())
      ensures more ==> consumed == length && Window(all, pos, addr, length)
      ensures more && old(mapped) && old(consumed) == old(length) ==> |todo| < |old(todo)|
      ensures !more ==> pos == |all|
    {
      Stop();
      more := GetNextPage();
      if more { Map(); }
    }

    /** Maps what is left on the current page. */
    method Map()
      requires Ok() && !mapped && piter.sg != []
      modifies this`mapped, this`addr, this`length, this`consumed
      ensures Ok() && mapped && consumed == length && Window(all, pos, addr, length)
    {
      length, consumed := remaining, remaining;
      mapped, addr := true, (piter.sg[0].page + piter.pgOffset) * PAGE + offset;
    }

    /** One round of sg_miter_skip: moves over n bytes, as many as the page and the distance allow. */
    method SkipOnPage(togo: nat) returns (more: bool, n: nat)
      requires Ok() && !mapped && togo > 0
      modifies this`offset, this`remaining, this`pos, this`todo, piter
      ensures Ok() && n <= togo && pos == old(pos) + n
      ensures !more ==> pos == |all| && n == 0
      ensures more ==> |todo| - n < |old(todo)|
    {
      n := 0;
      more := GetNextPage();
      if more {
        n := if togo < remaining then togo else remaining;
        Drop(n);
      }
    }

    /** sg_miter_skip, for a distance that is not negative: it succeeds exactly if that many bytes
        are left, and moves over them. */
    method Skip(distance: nat) returns (ok: bool)
      requires Ok()
      modifies this`mapped, this`addr, this`length, this`consumed, this`offset, this`remaining, this`pos, this`todo
      modifies piter
      ensures Ok() && !mapped && ok == (old(Unread()) + distance <= |all|)
      ensures ok ==> pos == old(Unread()) + distance
    {
      Stop();
      ghost var start := pos;
      var togo: nat := distance;
      while togo != 0
        invariant Ok() && !mapped && pos + togo == start + distance
        decreases |todo| + togo
      {
        var more, n := SkipOnPage(togo);
        if !more { return false; }
        togo := togo - n;
      }
      ok := true;
    }
  }

  /** From `from` on the flat view is consecutive addresses. */
  predicate Window(all: seq<nat>, from: nat, addr: nat, len: nat) {
    from + len <= |all| && forall j :: from <= j < from + len ==> all[j] == addr + (j - from)
  }

  /** From k on the flat view is the given pages, one after the other. */
  predicate ToCome(all: seq<nat>, k: nat, ps: seq<Slot>)
    decreases |ps|
  {
    if ps == [] then k == |all|
    else
      var n := BytesOn(ps[0].e, ps[0].k);
      Window(all, k, PageStart(ps[0]), n) && ToCome(all, k + n, ps[1..])
  }

  function PageStart(s: Slot): nat { (s.e.page + s.k) * PAGE + StartOn(s.e, s.k) }

  lemma {:induction false} BytesToCome(all: seq<nat>, k: nat, ps: seq<Slot>)
    requires k <= |all| && all[k..] == Bytes(ps)
    ensures ToCome(all, k, ps)
    decreases |ps|
  {
    if ps != [] {
      var addr, len := PageStart(ps[0]), BytesOn(ps[0].e, ps[0].k);
      SplitAt(all, k, Range(addr, len), Bytes(ps[1..]));
      BytesToCome(all, k + len, ps[1..]);
    }
  }

  lemma StartToCome(sgl: seq<Entry>, nents: nat)
    requires Valid(sgl)
    ensures ToCome(Addrs(sgl, nents), 0, Pages(sgl, nents, 0))
  {
    PagesAreFlat(sgl, nents);
    BytesToCome(Addrs(sgl, nents), 0, Pages(sgl, nents, 0));
  }

  lemma SplitAt(all: seq<nat>, pos: nat, a: seq<nat>, b: seq<nat>)
    requires pos <= |all| && all[pos..] == a + b
    ensures pos + |a| <= |all| && all[pos + |a|..] == b && forall j :: pos <= j < pos + |a| ==> all[j] == a[j - pos]
  {
    forall j | pos <= j < pos + |a| ensures all[j] == a[j - pos] { assert all[j] == all[pos..][j - pos]; }
    assert all[pos + |a|..] == all[pos..][|a|..];
  }

  /** The part of an entry's page that holds its bytes. */
  method OnPage(sg: Entry, pgoffset: nat) returns (offset: nat, remaining: nat)
    requires sg.offset < PAGE && pgoffset < PageCount(sg)
    ensures offset == StartOn(sg, pgoffset) && remaining == BytesOn(sg, pgoffset)
  {
    offset := if pgoffset != 0 then 0 else sg.offset;
    remaining := sg.offset + sg.length - pgoffset * PAGE - offset;
    remaining := if remaining < PAGE - offset then remaining else PAGE - offset;
  }

  // ---------- memory ----------

  predicate Present(mem: Memory, at: seq<nat>) { forall j :: 0 <= j < |at| ==> at[j] in mem }

  /** The bytes at the given addresses, and memory after writing bytes to them in turn. */
  function ReadAll(mem: Memory, at: seq<nat>): seq<Byte>
    requires Present(mem, at)
  {
    seq(|at|, j requires 0 <= j < |at| => mem[at[j]])
  }

  function WriteAll(mem: Memory, at: seq<nat>, bytes: seq<Byte>): Memory
    requires |at| == |bytes|
  {
    if at == [] then mem else WriteAll(mem, at[..|at| - 1], bytes[..|at| - 1])[at[|at| - 1] := bytes[|at| - 1]]
  }

  lemma {:induction false} WriteConcat(mem: Memory, a: seq<nat>, x: seq<Byte>, b: seq<nat>, y: seq<Byte>)
    requires |a| == |x| && |b| == |y|
    ensures WriteAll(mem, a + b, x + y) == WriteAll(WriteAll(mem, a, x), b, y)
    decreases |b|
  {
    if b == [] {
      assert a + b == a && x + y == x;
    } else {
      WriteConcat(mem, a, x, b[..|b| - 1], y[..|b| - 1]);
      assert (a + b)[..|a + b| - 1] == a + b[..|b| - 1] && (x + y)[..|a + b| - 1] == x + y[..|b| - 1];
    }
  }

  ghost predicate Distinct(at: seq<nat>) { forall i, j :: 0 <= i < j < |at| ==> at[i] != at[j] }

  lemma {:induction false} WriteElsewhere(mem: Memory, at: seq<nat>, bytes: seq<Byte>, a: nat)
    requires |at| == |bytes|
    ensures a in WriteAll(mem, at, bytes) <==> a in mem || a in at
    ensures a !in at && a in mem ==> WriteAll(mem, at, bytes)[a] == mem[a]
  {
    if at != [] {
      WriteElsewhere(mem, at[..|at| - 1], bytes[..|at| - 1], a);
      assert at == at[..|at| - 1] + [at[|at| - 1]];
    }
  }

  lemma {:induction false} WriteHere(mem: Memory, at: seq<nat>, bytes: seq<Byte>, j: nat)
    requires |at| == |bytes| && Distinct(at) && j < |at|
    ensures at[j] in WriteAll(mem, at, bytes) && WriteAll(mem, at, bytes)[at[j]] == bytes[j]
  {
    if j < |at| - 1 {
      WriteHere(mem, at[..|at| - 1], bytes[..|at| - 1], j);
    }
  }

  /** Write and read back: the bytes return, and no other byte changed. */
  lemma RoundTrip(mem: Memory, at: seq<nat>, bytes: seq<Byte>)
    requires |at| == |bytes| && Distinct(at)
    ensures var mem' := WriteAll(mem, at, bytes);
      && Present(mem', at) && ReadAll(mem', at) == bytes
      && forall a :: a in mem && a !in at ==> a in mem' && mem'[a] == mem[a]
  {
    var mem' := WriteAll(mem, at, bytes);
    forall j | 0 <= j < |at| ensures at[j] in mem' && mem'[at[j]] == bytes[j] { WriteHere(mem, at, bytes, j); }
    forall a | a in mem && a !in at ensures a in mem' && mem'[a] == mem[a] { WriteElsewhere(mem, at, bytes, a); }
  }

  // ---------- sg_copy_buffer ----------

  /** How many bytes there are to copy. */
  function Copied(total: nat, buflen: nat, skip: nat): nat {
    if skip > total then 0 else if buflen < total - skip then buflen else total - skip
  }

  /** The addresses of these bytes. */
  function Section(all: seq<nat>, buflen: nat, skip: nat): (at: seq<nat>)
    ensures |at| == Copied(|all|, buflen, skip)
  {
    if skip > |all| then [] else all[skip..skip + Copied(|all|, buflen, skip)]
  }

  /** The pages' memory. */
  class Ram {
    var bytes: Memory
  }

  /** memcpy between the buffer and the consecutive addresses w. */
  method Memcpy(ram: Ram, buf: array<Byte>, n: nat, addr: nat, len: nat, toBuffer: bool, ghost w: seq<nat>)
    requires n + len <= buf.Length && |w| == len && Window(w, 0, addr, len) && Present(ram.bytes, w)
    modifies ram, buf
    ensures toBuffer ==> ram.bytes == old(ram.bytes)
    ensures toBuffer ==> buf[..] == old(buf[..n]) + ReadAll(ram.bytes, w) + old(buf[n + len..])
    ensures !toBuffer ==> buf[..] == old(buf[..]) && ram.bytes == WriteAll(old(ram.bytes), w, buf[n..n + len])
  {
    var at := Range(addr, len);
    assert at == w;
    if toBuffer {
      forall j | 0 <= j < len { buf[n + j] := ram.bytes[at[j]]; }
    } else {
      ram.bytes := WriteAll(ram.bytes, at, buf[n..n + len]);
    }
  }

  /** The buffer and memory after the bytes at the addresses `at` were copied. */
  ghost predicate IsCopied(mem0: Memory, buf0: seq<Byte>, mem: Memory, buf: seq<Byte>, at: seq<nat>, toBuffer: bool) {
    && |at| <= |buf0| && Present(mem0, at)
    && (toBuffer ==> mem == mem0 && buf == ReadAll(mem0, at) + buf0[|at|..])
    && (!toBuffer ==> buf == buf0 && mem == WriteAll(mem0, at, buf0[..|at|]))
  }

  lemma NothingCopied(mem: Memory, buf: seq<Byte>, toBuffer: bool)
    ensures IsCopied(mem, buf, mem, buf, [], toBuffer)
  {
  }

  lemma CopyRead(mem: Memory, buf0: seq<Byte>, buf: seq<Byte>, buf': seq<Byte>, at: seq<nat>, w: seq<nat>)
    requires IsCopied(mem, buf0, mem, buf, at, true) && Present(mem, w) && |at| + |w| <= |buf0|
    requires buf' == buf[..|at|] + ReadAll(mem, w) + buf[|at| + |w|..]
    ensures IsCopied(mem, buf0, mem, buf', at + w, true)
  {
    assert ReadAll(mem, at + w) == ReadAll(mem, at) + ReadAll(mem, w);
    assert buf[|at| + |w|..] == buf0[|at| + |w|..];
  }

  lemma CopyWrite(mem0: Memory, buf: seq<Byte>, mem: Memory, mem': Memory, at: seq<nat>, w: seq<nat>)
    requires IsCopied(mem0, buf, mem, buf, at, false) && Present(mem0, w) && |at| + |w| <= |buf|
    requires mem' == WriteAll(mem, w, buf[|at|..|at| + |w|])
    ensures IsCopied(mem0, buf, mem', buf, at + w, false)
  {
    WriteConcat(mem0, at, buf[..|at|], w, buf[|at|..|at| + |w|]);
    assert buf[..|at|] + buf[|at|..|at| + |w|] == buf[..|at + w|];
  }

  lemma StillPresent(mem0: Memory, buf0: seq<Byte>, mem: Memory, buf: seq<Byte>, at: seq<nat>, toBuffer: bool,
                     w: seq<nat>)
    requires IsCopied(mem0, buf0, mem, buf, at, toBuffer) && Present(mem0, w)
    ensures Present(mem, w)
  {
    if !toBuffer {
      forall j | 0 <= j < |w| ensures w[j] in mem { WriteElsewhere(mem0, at, buf0[..|at|], w[j]); }
    }
  }

  /** sg_copy_buffer copies exactly the bytes from skip on, up to the buffer's length, between the
      flat view of the list and the buffer, and touches nothing else. */
  method CopyBuffer(ram: Ram, sgl: seq<Entry>, nents: nat, buf: array<Byte>, buflen: nat, skip: nat, toBuffer: bool)
    returns (n: nat)
    requires Valid(sgl) && buflen <= buf.Length && Present(ram.bytes, Addrs(sgl, nents))
    modifies ram, buf
    ensures n == Copied(|Addrs(sgl, nents)|, buflen, skip)
    ensures IsCopied(old(ram.bytes), old(buf[..]), ram.bytes, buf[..], Section(Addrs(sgl, nents), buflen, skip),
                     toBuffer)
  {
    var miter := new MapIter(sgl, nents);
    var ok := miter.Skip(skip);
    n := 0;
    if !ok {
      NothingCopied(ram.bytes, buf[..], toBuffer);
      return;
    }
    ghost var at;
    n, at := CopyFrom(ram, buf, buflen, miter, skip, toBuffer);
    miter.Stop();
  }

  method CopyFrom(ram: Ram, buf: array<Byte>, buflen: nat, miter: MapIter, skip: nat, toBuffer: bool)
    returns (n: nat, ghost at: seq<nat>)
    requires miter.Ok() && !miter.mapped && miter.pos == skip && buflen <= buf.Length && Present(ram.bytes, miter.all)
    modifies ram, buf, miter, miter.piter
    ensures miter.Ok() && n == Copied(|miter.all|, buflen, skip)
    ensures at == Section(miter.all, buflen, skip)
    ensures IsCopied(old(ram.bytes), old(buf[..]), ram.bytes, buf[..], at, toBuffer)
  {
    n := 0;
    var more := miter.Next();
    at := [];
    NothingCopied(ram.bytes, buf[..], toBuffer);
    while more && n < buflen
      invariant InStep(miter, more, n, buflen, skip)
      invariant at == miter.all[skip..skip + n]
      invariant IsCopied(old(ram.bytes), old(buf[..]), ram.bytes, buf[..], at, toBuffer)
      decreases more, |miter.todo|
    {
      n, more, at := CopyRound(ram, buf, n, buflen, miter, skip, toBuffer, old(ram.bytes), old(buf[..]), at);
    }
  }

  /** The iterator is where the copying is. */
  ghost predicate InStep(miter: MapIter, more: bool, n: nat, buflen: nat, skip: nat)
    reads miter, miter.piter
  {
    && miter.Ok() && miter.mapped == more && skip + n <= |miter.all| && n <= buflen
    && (more && n < buflen ==>
      miter.pos == skip + n && miter.consumed == miter.length && Window(miter.all, skip + n, miter.addr, miter.length))
    && (!more ==> skip + n == |miter.all| || n == buflen)
  }

  method CopyRound(ram: Ram, buf: array<Byte>, n0: nat, buflen: nat, miter: MapIter, skip: nat, toBuffer: bool,
                   ghost mem0: Memory, ghost buf0: seq<Byte>, ghost at0: seq<nat>)
    returns (n: nat, more: bool, ghost at: seq<nat>)
    requires InStep(miter, true, n0, buflen, skip) && n0 < buflen <= buf.Length == |buf0| && Present(mem0, miter.all)
    requires at0 == miter.all[skip..skip + n0] && IsCopied(mem0, buf0, ram.bytes, buf[..], at0, toBuffer)
    modifies ram, buf, miter, miter.piter
    ensures InStep(miter, more, n, buflen, skip) && (more ==> |miter.todo| < |old(miter.todo)|)
    ensures at == miter.all[skip..skip + n] && IsCopied(mem0, buf0, ram.bytes, buf[..], at, toBuffer)
  {
    var len := if miter.length < buflen - n0 then miter.length else buflen - n0;
    at := CopyWindow(ram, buf, n0, miter.addr, len, toBuffer, skip, miter.all, mem0, buf0, at0);
    n := n0 + len;
    more := miter.Next();
  }

  /** One window is copied. */
  method CopyWindow(ram: Ram, buf: array<Byte>, n: nat, addr: nat, len: nat, toBuffer: bool,
                    ghost skip: nat, ghost all: seq<nat>, ghost mem0: Memory, ghost buf0: seq<Byte>, ghost at: seq<nat>)
    returns (ghost at': seq<nat>)
    requires Window(all, skip + n, addr, len) && n + len <= buf.Length && Present(mem0, all) && |buf0| == buf.Length
    requires at == all[skip..skip + n] && IsCopied(mem0, buf0, ram.bytes, buf[..], at, toBuffer)
    modifies ram, buf
    ensures at' == all[skip..skip + n + len] && IsCopied(mem0, buf0, ram.bytes, buf[..], at', toBuffer)
  {
    ghost var mem, was, w := ram.bytes, buf[..], all[skip + n..skip + n + len];
    StillPresent(mem0, buf0, mem, was, at, toBuffer, w);
    at' := at + w;
    Memcpy(ram, buf, n, addr, len, toBuffer, w);
    if toBuffer {
      CopyRead(mem0, buf0, was, buf[..], at, w);
    } else {
      CopyWrite(mem0, buf0, mem, ram.bytes, at, w);
    }
  }

  // ---------- write and read back ----------

  /** The address is on a page of the entry. */
  predicate OnPagesOf(e: Entry, a: nat) { e.page * PAGE <= a < (e.page + PageCount(e)) * PAGE }

  predicate PagesApart(e: Entry, f: Entry) { e.page + PageCount(e) <= f.page || f.page + PageCount(f) <= e.page }

  /** No page belongs to two entries. */
  predicate DisjointPages(sgl: seq<Entry>, nents: nat) {
    forall i, j :: 0 <= i < j < |sgl| && j < nents ==> PagesApart(sgl[i], sgl[j])
  }

  lemma ApartPages(e: Entry, f: Entry, a: nat)
    requires PagesApart(e, f) && OnPagesOf(e, a)
    ensures !OnPagesOf(f, a)
  {
  }

  lemma EntryOnPages(e: Entry, j: nat)
    requires j < e.length
    ensures OnPagesOf(e, e.page * PAGE + e.offset + j)
  {
    assert e.offset + e.length <= PageCount(e) * PAGE;
  }

  /** Every byte of a list is on a page of one of its entries. */
  lemma {:induction false} AddrsOnPages(sgl: seq<Entry>, nents: nat, a: nat) returns (i: nat)
    requires a in Addrs(sgl, nents)
    ensures i < |sgl| && i < nents && OnPagesOf(sgl[i], a)
    decreases |sgl|
  {
    var e := sgl[0];
    var q := Range(e.page * PAGE + e.offset, e.length);
    if a in q {
      var j :| 0 <= j < |q| && q[j] == a;
      EntryOnPages(e, j);
      i := 0;
    } else {
      i := AddrsOnPages(sgl[1..], nents - 1, a);
      i := i + 1;
    }
  }

  lemma DistinctConcat(a: seq<nat>, b: seq<nat>)
    requires Distinct(a) && Distinct(b) && forall x :: x in a ==> x !in b
    ensures Distinct(a + b)
  {
    forall i, j | 0 <= i < j < |a + b| ensures (a + b)[i] != (a + b)[j] {
      if i < |a| <= j { assert a[i] in a && b[j - |a|] in b; } else if j >= |a| { assert b[i - |a|] != b[j - |a|]; }
    }
  }

  /** Entries on different pages have no byte in common. */
  lemma {:induction false} DisjointDistinct(sgl: seq<Entry>, nents: nat)
    requires DisjointPages(sgl, nents)
    ensures Distinct(Addrs(sgl, nents))
    decreases |sgl|
  {
    if nents != 0 && sgl != [] {
      var e := sgl[0];
      var q := Range(e.page * PAGE + e.offset, e.length);
      forall i, j | 0 <= i < j < |sgl[1..]| && j < nents - 1 ensures PagesApart(sgl[1..][i], sgl[1..][j]) {
        assert PagesApart(sgl[i + 1], sgl[j + 1]);
      }
      DisjointDistinct(sgl[1..], nents - 1);
      forall x | x in q ensures x !in Addrs(sgl[1..], nents - 1) {
        if x in Addrs(sgl[1..], nents - 1) {
          var j :| 0 <= j < |q| && q[j] == x;
          EntryOnPages(e, j);
          var i := AddrsOnPages(sgl[1..], nents - 1, x);
          ApartPages(e, sgl[i + 1], x);
        }
      }
      DistinctConcat(q, Addrs(sgl[1..], nents - 1));
    }
  }

  lemma SectionDistinct(all: seq<nat>, buflen: nat, skip: nat)
    requires Distinct(all)
    ensures Distinct(Section(all, buflen, skip))
  {
    var at := Section(all, buflen, skip);
    forall i, j | 0 <= i < j < |at| ensures at[i] != at[j] { assert all[skip + i] != all[skip + j]; }
  }

  /** The two copies together, on the states they leave. */
  lemma ThereAndBack(mem0: Memory, buf: seq<Byte>, mem: Memory, back0: seq<Byte>, mem': Memory, back: seq<Byte>,
                     at: seq<nat>)
    requires IsCopied(mem0, buf, mem, buf, at, false) && IsCopied(mem, back0, mem', back, at, true) && Distinct(at)
    ensures back == buf[..|at|] + back0[|at|..] && mem' == mem
    ensures mem'.Keys == mem0.Keys && forall a :: a in mem0 && a !in at ==> mem'[a] == mem0[a]
  {
    RoundTrip(mem0, at, buf[..|at|]);
    forall a ensures a in mem' <==> a in mem0 { WriteElsewhere(mem0, at, buf[..|at|], a); }
  }

  /** sg_copy_buffer to a list whose entries are on different pages, and back into another buffer:
      the bytes return, and neither the rest of memory nor the rest of that buffer changes. */
  method WriteAndReadBack(ram: Ram, sgl: seq<Entry>, nents: nat, buf: array<Byte>, back: array<Byte>, buflen: nat,
                          skip: nat)
    returns (n: nat)
    requires Valid(sgl) && Present(ram.bytes, Addrs(sgl, nents)) && DisjointPages(sgl, nents)
    requires buflen <= buf.Length && buflen <= back.Length && buf != back
    modifies ram, buf, back
    ensures n == Copied(|Addrs(sgl, nents)|, buflen, skip)
    ensures buf[..] == old(buf[..]) && back[..] == old(buf[..n]) + old(back[n..])
    ensures ram.bytes.Keys == old(ram.bytes).Keys
    ensures forall a :: a in old(ram.bytes) && a !in Section(Addrs(sgl, nents), buflen, skip) ==>
                          ram.bytes[a] == old(ram.bytes)[a]
  {
    DisjointDistinct(sgl, nents);
    SectionDistinct(Addrs(sgl, nents), buflen, skip);
    ghost var at, mem0, back0 := Section(Addrs(sgl, nents), buflen, skip), ram.bytes, back[..];
    n := CopyBuffer(ram, sgl, nents, buf, buflen, skip, false);
    ghost var mem := ram.bytes;
    StillPresent(mem0, buf[..], mem, buf[..], at, false, Addrs(sgl, nents));
    n := CopyBuffer(ram, sgl, nents, back, buflen, skip, true);
    ThereAndBack(mem0, buf[..], mem, back0, ram.bytes, back[..], at);
    assert buf[..][..n] == old(buf[..n]) && back0[n..] == old(back[n..]);
  }
}

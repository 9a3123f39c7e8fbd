/** The text of a .config file: how values are printed (kconf/symbol.c, kconf/confdata.c) and how
    lines are read back (kconf/confdata.c). */
module ConfigText {
  import opened KconfigExpr

  const QUOTE := '\"'
  const BACKSLASH := '\\'
  const NUL := '\0'

  predicate Special(c: char) { c == QUOTE || c == BACKSLASH }

  // ---------- quoting ----------

  /** A backslash before every quote and backslash. */
  function Escape(s: string): string {
    if s == [] then [] else (if Special(s[0]) then [BACKSLASH, s[0]] else [s[0]]) + Escape(s[1..])
  }

  function Quoted(s: string): string { [QUOTE] + Escape(s) + [QUOTE] }

  function Specials(s: string): nat {
    if s == [] then 0 else (if Special(s[0]) then 1 else 0) + Specials(s[1..])
  }

  lemma {:induction false} EscapeConcat(a: string, b: string)
    ensures Escape(a + b) == Escape(a) + Escape(b) && Specials(a + b) == Specials(a) + Specials(b)
  {
    if a == [] {
      assert a + b == b;
    } else {
      assert (a + b)[1..] == a[1..] + b;
      EscapeConcat(a[1..], b);
      var h := if Special(a[0]) then [BACKSLASH, a[0]] else [a[0]];
      assert h + (Escape(a[1..]) + Escape(b)) == (h + Escape(a[1..])) + Escape(b);
    }
  }

  lemma {:induction false} EscapePlain(s: string)
    requires forall j :: 0 <= j < |s| ==> !Special(s[j])
    ensures Escape(s) == s && Specials(s) == 0
  {
    if s != [] { EscapePlain(s[1..]); }
  }

  lemma {:induction false} EscapeLength(s: string)
    ensures |Escape(s)| == |s| + Specials(s)
  {
    if s != [] { EscapeLength(s[1..]); }
  }

  /** A stretch without special characters, and then one special character. */
  lemma EscapeStep(s: string, p: nat, q: nat)
    requires p <= q < |s| && (forall j :: p <= j < q ==> !Special(s[j])) && Special(s[q])
    ensures Escape(s[..q + 1]) == Escape(s[..p]) + s[p..q] + [BACKSLASH, s[q]]
    ensures Specials(s[..q + 1]) == Specials(s[..p]) + 1
  {
    assert s[..q] == s[..p] + s[p..q] && s[..q + 1] == s[..q] + [s[q]];
    EscapeConcat(s[..p], s[p..q]);
    EscapePlain(s[p..q]);
    EscapeConcat(s[..q], [s[q]]);
    assert Escape([s[q]]) == [BACKSLASH, s[q]];
  }

  lemma EscapeEnd(s: string, p: nat)
    requires p <= |s| && forall j :: p <= j < |s| ==> !Special(s[j])
    ensures Escape(s) == Escape(s[..p]) + s[p..] && Specials(s) == Specials(s[..p])
  {
    assert s == s[..p] + s[p..];
    EscapeConcat(s[..p], s[p..]);
    EscapePlain(s[p..]);
  }

  /** strcspn for quotes and backslashes, from p on. */
  method Span(s: string, p: nat) returns (q: nat)
    requires p <= |s|
    ensures p <= q <= |s| && (forall j :: p <= j < q ==> !Special(s[j])) && (q < |s| ==> Special(s[q]))
  {
    q := p;
    while q < |s| && !Special(s[q])
      invariant p <= q <= |s| && forall j :: p <= j < q ==> !Special(s[j])
    {
      q := q + 1;
    }
  }

  /** The first loop of sym_escape_string_value: the size of the result with its NUL. */
  method EscapedSize(s: string) returns (reslen: nat)
    ensures reslen == |Quoted(s)| + 1
  {
    reslen := |s| + 2 + 1;
    var p := 0;
    while true
      invariant 0 <= p <= |s| && reslen == |s| + 3 + Specials(s[..p])
      decreases |s| - p
    {
      var q := Span(s, p);
      if q == |s| {
        EscapeEnd(s, p);
        break;
      }
      EscapeStep(s, p, q);
      reslen := reslen + 1;
      p := q + 1;
    }
    EscapeLength(s);
  }

  /** strcat or strncat at the known end of the result. */
  method Append(res: array<char>, pos: nat, t: string) returns (pos': nat)
    requires pos + |t| <= res.Length
    modifies res
    ensures pos' == pos + |t| && res[..pos'] == old(res[..pos]) + t
  {
    forall j | 0 <= j < |t| { res[pos + j] := t[j]; }
    pos' := pos + |t|;
  }

  lemma PrefixFits(s: string, k: nat)
    requires k <= |s|
    ensures |Escape(s[..k])| <= |Escape(s)|
  {
    assert s == s[..k] + s[k..];
    EscapeConcat(s[..k], s[k..]);
  }

  /** sym_escape_string_value: the buffer it allocates is exactly filled. */
  method EscapeString(s: string) returns (res: array<char>)
    ensures fresh(res) && res[..] == Quoted(s) + [NUL]
  {
    var reslen := EscapedSize(s);
    res := new char[reslen];
    var pos := EscapeInto(s, res);
    pos := Append(res, pos, [QUOTE]);
    pos := Append(res, pos, [NUL]);
    assert res[..] == res[..pos];
  }

  method EscapeInto(s: string, res: array<char>) returns (pos: nat)
    requires res.Length == |Quoted(s)| + 1
    modifies res
    ensures pos == res.Length - 2 && res[..pos] == [QUOTE] + Escape(s)
  {
    pos := Append(res, 0, [QUOTE]);
    var p := 0;
    assert Escape(s[..0]) == [];
    while true
      invariant 0 <= p <= |s| && 0 <= pos <= res.Length && res[..pos] == [QUOTE] + Escape(s[..p])
      decreases |s| - p
    {
      var q := Span(s, p);
      if q == |s| {
        EscapeEnd(s, p);
        Regroup([QUOTE], Escape(s[..p]), s[p..q]);
        PrefixFits(s, p);
        pos := Append(res, pos, s[p..q]);
        break;
      }
      EscapeStep(s, p, q);
      PrefixFits(s, q + 1);
      Regroup([QUOTE], Escape(s[..p]), s[p..q] + [BACKSLASH, s[q]]);
      Regroup(Escape(s[..p]), s[p..q], [BACKSLASH, s[q]]);
      pos := AppendStep(res, pos, s[p..q], s[q]);
      p := q + 1;
    }
  }

  lemma Regroup(a: string, b: string, c: string)
    ensures (a + b) + c == a + (b + c)
  {
  }

  method AppendStep(res: array<char>, pos: nat, t: string, c: char) returns (pos': nat)
    requires pos + |t| + 2 <= res.Length
    modifies res
    ensures pos' == pos + |t| + 2 && res[..pos'] == old(res[..pos]) + (t + [BACKSLASH, c])
  {
    pos' := Append(res, pos, t);
    pos' := Append(res, pos', [BACKSLASH]);
    pos' := Append(res, pos', [c]);
  }

  // ---------- reading quoted text ----------

  /** The string in the text after an opening quote, if there is a closing one. */
  function Unquote(t: string): Option<string> {
    if t == [] then None
    else if t[0] == QUOTE then Some([])
    else if t[0] == BACKSLASH then (if |t| == 1 then None else Cons(t[1], Unquote(t[2..])))
    else Cons(t[0], Unquote(t[1..]))
  }

  function Cons(c: char, r: Option<string>): Option<string> { if r.None? then None else Some([c] + r.value) }

  /** Reading back what was quoted, whatever follows. */
  lemma {:induction false} UnquoteEscape(s: string, rest: string)
    ensures Unquote(Escape(s) + [QUOTE] + rest) == Some(s)
  {
    var t := Escape(s) + [QUOTE] + rest;
    if s == [] {
      assert t == [QUOTE] + rest;
    } else {
      UnquoteEscape(s[1..], rest);
      var t' := Escape(s[1..]) + [QUOTE] + rest;
      if Special(s[0]) {
        assert t == [BACKSLASH, s[0]] + t';
        assert t[2..] == t';
      } else {
        assert t == [s[0]] + t';
        assert t[1..] == t';
      }
      assert s == [s[0]] + s[1..];
    }
  }

  function Prepend(out: string, r: Option<string>): Option<string> { if r.None? then None else Some(out + r.value) }

  lemma PrependTwice(a: string, b: string, r: Option<string>)
    ensures Prepend(a, Prepend(b, r)) == Prepend(a + b, r)
  {
    if r.Some? { Regroup(a, b, r.value); }
  }

  lemma {:induction false} UnquotePlain(r: string, k: nat)
    requires k <= |r| && forall j :: 0 <= j < k ==> !Special(r[j])
    ensures Unquote(r) == Prepend(r[..k], Unquote(r[k..]))
    decreases k
  {
    if k == 0 {
      assert r[0..] == r;
      PrependNothing(Unquote(r));
    } else {
      UnquotePlain(r[1..], k - 1);
      assert r[1..][k - 1..] == r[k..] && [r[0]] + r[1..][..k - 1] == r[..k];
      PrependTwice([r[0]], r[1..][..k - 1], Unquote(r[k..]));
      assert Cons(r[0], Unquote(r[1..])) == Prepend([r[0]], Unquote(r[1..]));
    }
  }

  /** Quoted text without its closing quote is refused, also if it ends in a backslash. */
  lemma {:induction false} UnquoteUnterminated(s: string)
    ensures Unquote(Escape(s)) == None && Unquote(Escape(s) + [BACKSLASH]) == None
  {
    if s != [] {
      UnquoteUnterminated(s[1..]);
      var h := if Special(s[0]) then [BACKSLASH, s[0]] else [s[0]];
      assert Escape(s)[|h|..] == Escape(s[1..]);
      assert (Escape(s) + [BACKSLASH])[|h|..] == Escape(s[1..]) + [BACKSLASH];
    }
  }

  lemma {:induction false} UnquoteNoNul(t: string)
    requires NUL !in t
    ensures Unquote(t).Some? ==> NUL !in Unquote(t).value
  {
    if t != [] && t[0] != QUOTE {
      if t[0] == BACKSLASH {
        if |t| > 1 { UnquoteNoNul(t[2..]); }
      } else {
        UnquoteNoNul(t[1..]);
      }
    }
  }

  /** The text in a buffer from `from` up to its NUL at `end`. */
  ghost predicate IsText(buf: seq<char>, from: nat, end: nat, t: string) {
    from <= end < |buf| && buf[end] == NUL && buf[from..end] == t && NUL !in t
  }

  /** strpbrk for quotes and backslashes: the place of the first one, or of the NUL. */
  method FindSpecial(buf: array<char>, p: nat, ghost end: nat, ghost r: string) returns (q: nat)
    requires IsText(buf[..], p, end, r)
    ensures p <= q <= end && (forall j :: 0 <= j < q - p ==> !Special(r[j]))
    ensures q == end <==> buf[q] == NUL
    ensures q < end ==> Special(r[q - p]) && buf[q] == r[q - p]
  {
    q := p;
    assert forall j :: 0 <= j < |r| ==> r[j] == buf[p + j];
    while buf[q] != NUL && !Special(buf[q])
      invariant p <= q <= end && forall j :: 0 <= j < q - p ==> !Special(r[j])
      decreases end - q
    {
      q := q + 1;
    }
  }

  method StrLen(buf: array<char>, p: nat, ghost end: nat, ghost r: string) returns (n: nat)
    requires IsText(buf[..], p, end, r)
    ensures n == end - p
  {
    n := 0;
    assert forall j :: 0 <= j < |r| ==> r[j] == buf[p + j];
    while buf[p + n] != NUL
      invariant p + n <= end
      decreases end - n
    {
      n := n + 1;
    }
  }

  /** memmove of the rest of the text, NUL included, one place down. */
  method DropChar(buf: array<char>, q: nat, ghost end: nat, ghost r: string)
    requires IsText(buf[..], q, end, r) && q < end
    modifies buf
    ensures buf[..q] == old(buf[..q]) && buf[end] == NUL && IsText(buf[..], q, end - 1, r[1..])
  {
    var n := StrLen(buf, q, end, r);
    forall j | q <= j < q + n { buf[j] := buf[j + 1]; }
  }

  /** What is before p2 is read, and gives out; r is still to be read. */
  ghost predicate Reading(b: seq<char>, from: nat, p2: nat, end: nat, out: string, r: string, t: string) {
    from <= p2 && IsText(b, p2, end, r) && b[from..p2] == out && Unquote(t) == Prepend(out, Unquote(r))
  }

  lemma Skipped(b: seq<char>, from: nat, p2: nat, end: nat, out: string, r: string, t: string, k: nat)
    requires Reading(b, from, p2, end, out, r, t) && k <= |r| && forall j :: 0 <= j < k ==> !Special(r[j])
    ensures Reading(b, from, p2 + k, end, out + r[..k], r[k..], t)
  {
    UnquotePlain(r, k);
    PrependTwice(out, r[..k], Unquote(r[k..]));
    assert b[from..p2 + k] == b[from..p2] + b[p2..p2 + k];
    assert b[p2..p2 + k] == b[p2..end][..k];
    assert b[p2 + k..end] == b[p2..end][k..];
  }

  lemma AtQuote(b: seq<char>, b': seq<char>, from: nat, q: nat, end: nat, out: string, r: string, t: string)
    requires Reading(b, from, q, end, out, r, t) && r != "" && r[0] == QUOTE && NUL !in t
    requires b' == b[q := NUL]
    ensures Unquote(t) == Some(out) && IsText(b', from, q, out)
  {
    UnquoteNoNul(t);
    assert b'[from..q] == b[from..q];
    assert out + [] == out;
  }

  lemma AtBackslash(b: seq<char>, b': seq<char>, from: nat, q: nat, end: nat, out: string, r: string, t: string)
    requires Reading(b, from, q, end, out, r, t) && |r| > 1 && r[0] == BACKSLASH
    requires q < end && IsText(b', q, end - 1, r[1..]) && b'[..q] == b[..q]
    ensures Reading(b', from, q + 1, end - 1, out + [r[1]], r[2..], t)
  {
    assert Unquote(r) == Prepend([r[1]], Unquote(r[2..]));
    PrependTwice(out, [r[1]], Unquote(r[2..]));
    assert b'[q] == b'[q..end - 1][0] == r[1];
    assert b'[from..q + 1] == b'[..q][from..] + [b'[q]];
    assert b[from..q] == b[..q][from..];
    assert b'[q + 1..end - 1] == b'[q..end - 1][1..] == r[2..];
  }

  /** The closing quote becomes the end of the string. */
  method EndAt(buf: array<char>, from: nat, q: nat, ghost end: nat, ghost out: string, ghost r: string, ghost t: string)
    requires Reading(buf[..], from, q, end, out, r, t) && r != "" && r[0] == QUOTE && NUL !in t
    modifies buf
    ensures buf[..from] == old(buf[..from]) && Unquote(t) == Some(out) && IsText(buf[..], from, q, out)
  {
    ghost var b := buf[..];
    buf[q] := NUL;
    AtQuote(b, buf[..], from, q, end, out, r, t);
  }

  /** A backslash goes, and the character after it is taken as it is. */
  method Unbackslash(buf: array<char>, from: nat, q: nat, ghost end: nat, ghost out: string, ghost r: string,
                     ghost t: string)
    returns (ghost out': string, ghost r': string, ghost end': nat)
    requires Reading(buf[..], from, q, end, out, r, t) && r != "" && r[0] == BACKSLASH
    modifies buf
    ensures buf[..from] == old(buf[..from]) && Reading(buf[..], from, q + 1, end', out', r', t) && |r'| < |r|
  {
    ghost var b := buf[..];
    DropChar(buf, q, end, r);
    assert buf[..from] == buf[..q][..from] && b[..from] == b[..q][..from];
    if |r| == 1 {
      out', r', end' := buf[from..q + 1], "", end;
    } else {
      AtBackslash(b, buf[..], from, q, end, out, r, t);
      out', r', end' := out + [r[1]], r[2..], end - 1;
    }
  }

  /** On to the next quote, backslash or NUL. */
  method ToSpecial(buf: array<char>, from: nat, p2: nat, ghost end: nat, ghost out: string, ghost r: string,
                   ghost t: string)
    returns (q: nat, ghost out': string, ghost r': string)
    requires Reading(buf[..], from, p2, end, out, r, t)
    ensures Reading(buf[..], from, q, end, out', r', t) && |r'| <= |r|
    ensures if r' == "" then buf[q] == NUL && Unquote(t).None? else buf[q] == r'[0] != NUL && Special(r'[0])
  {
    q := FindSpecial(buf, p2, end, r);
    Skipped(buf[..], from, p2, end, out, r, t, q - p2);
    out', r' := out + r[..q - p2], r[q - p2..];
  }

  /** The loop of conf_set_sym_val over a quoted string: it removes the backslashes in place and
      ends the string at the closing quote. */
  method UnquoteInPlace(buf: array<char>, from: nat, ghost end0: nat, ghost t: string)
    returns (ok: bool, ghost stop: nat)
    requires IsText(buf[..], from, end0, t)
    modifies buf
    ensures ok == Unquote(t).Some? && (ok ==> IsText(buf[..], from, stop, Unquote(t).value))
    ensures buf[..from] == old(buf[..from])
  {
    var p2: nat := from;
    ghost var end: nat, out, r := end0, "", t;
    stop := from;
    PrependNothing(Unquote(t));
    while true
      invariant Reading(buf[..], from, p2, end, out, r, t) && buf[..from] == old(buf[..from])
      decreases |r|
    {
      var q;
      q, out, r := ToSpecial(buf, from, p2, end, out, r, t);
      if buf[q] == NUL { return false, stop; }
      if buf[q] == QUOTE {
        EndAt(buf, from, q, end, out, r, t);
        return true, q;
      }
      out, r, end := Unbackslash(buf, from, q, end, out, r, t);
      p2 := q + 1;
    }
  }

  lemma PrependNothing(r: Option<string>)
    ensures Prepend("", r) == r
  {
    if r.Some? { assert "" + r.value == r.value; }
  }
}

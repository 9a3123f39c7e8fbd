/** Lines of a .config file: printing a symbol (kconfig_print_symbol, conf_write_symbol) and reading
    a line (conf_read_simple, conf_set_sym_val) in kconf/confdata.c. */
module ConfigLine {
  import opened KconfigExpr
  import opened ConfigText

  const PREFIX := "CONFIG_"
  const NEWLINE := '\n'
  const RETURN := '\r'

  /** A user value: of a bool or tristate symbol, or of a string, int or hex symbol. */
  datatype Value = TriValue(tri: Tri) | TextValue(text: string)

  // ---------- valid values ----------

  predicate Digit(c: char) { '0' <= c <= '9' }

  predicate HexDigit(c: char) { Digit(c) || 'a' <= c <= 'f' || 'A' <= c <= 'F' }

  predicate All(s: string, hex: bool) { forall j :: 0 <= j < |s| ==> if hex then HexDigit(s[j]) else Digit(s[j]) }

  /** sym_string_valid. */
  predicate StringValid(ty: SymType, s: string) {
    match ty
    case Str => true
    case IntType =>
      var d := if s != "" && s[0] == '-' then s[1..] else s;
      d != "" && Digit(d[0]) && (d[0] == '0' ==> |d| == 1) && All(d[1..], false)
    case Hex =>
      var d := if |s| > 1 && s[0] == '0' && (s[1] == 'x' || s[1] == 'X') then s[2..] else s;
      d != "" && All(d, true)
    case Boolean => s != "" && s[0] in {'y', 'Y', 'm', 'M', 'n', 'N'}
    case Tristate => s != "" && s[0] in {'y', 'Y', 'm', 'M', 'n', 'N'}
    case _ => false
  }

  /** The loop of sym_string_valid for ints and hexs. */
  method CheckString(ty: SymType, s: string) returns (ok: bool)
    ensures ok == StringValid(ty, s)
  {
    if ty != IntType && ty != Hex { return StringValid(ty, s); }
    var hex := ty == Hex;
    var p := 0;
    if hex {
      if |s| > 1 && s[0] == '0' && (s[1] == 'x' || s[1] == 'X') { p := 2; }
    } else if s != "" && s[0] == '-' {
      p := 1;
    }
    if p == |s| { return false; }
    if !hex && s[p] == '0' && p + 1 < |s| { return false; }
    var from := p;
    while p < |s|
      invariant from <= p <= |s| && forall j :: from <= j < p ==> if hex then HexDigit(s[j]) else Digit(s[j])
    {
      if !(if hex then HexDigit(s[p]) else Digit(s[p])) {
        assert s[p] == s[from..][p - from];
        return false;
      }
      p := p + 1;
    }
    ok := true;
  }

  function DigitChar(n: nat): char
    requires n < 10
  {
    ['0', '1', '2', '3', '4', '5', '6', '7', '8', '9'][n]
  }

  /** The usual decimal text of a number. */
  function NatText(n: nat): (s: string)
    ensures s != "" && (forall j :: 0 <= j < |s| ==> Digit(s[j])) && (s[0] == '0' <==> n == 0) && (n == 0 ==> |s| == 1)
  {
    if n < 10 then [DigitChar(n)] else NatText(n / 10) + [DigitChar(n % 10)]
  }

  function IntText(n: int): string { if n < 0 then "-" + NatText(-n) else NatText(n) }

  lemma {:induction false} TextOfNumber(d: string) returns (n: nat)
    requires d != "" && (forall j :: 0 <= j < |d| ==> Digit(d[j])) && (d[0] == '0' ==> |d| == 1)
    ensures NatText(n) == d
  {
    var last := d[|d| - 1];
    var c := last as int - '0' as int;
    assert DigitChar(c) == last;
    if |d| == 1 {
      n := c;
    } else {
      var v := TextOfNumber(d[..|d| - 1]);
      n := v * 10 + c;
      assert v > 0 && n / 10 == v && n % 10 == c;
      assert d == d[..|d| - 1] + [last];
    }
  }

  /** The valid texts of an int symbol are the decimal texts of the integers, and -0. */
  lemma IntValidExactly(s: string)
    ensures StringValid(IntType, s) <==> s == "-0" || exists n :: s == IntText(n)
  {
    if StringValid(IntType, s) {
      var neg := s[0] == '-';
      var d := if neg then s[1..] else s;
      assert forall j :: 1 <= j < |d| ==> d[j] == d[1..][j - 1];
      var k := TextOfNumber(d);
      var n: int := k;
      assert neg ==> s == "-" + d;
      assert neg && n > 0 ==> s == IntText(-n);
      assert !neg ==> s == IntText(n);
    }
    forall n | s == IntText(n) ensures StringValid(IntType, s) {
      assert n < 0 ==> s[1..] == NatText(-n);
    }
  }

  // ---------- printing ----------

  /** The text of a tristate value; without modules an m is written as an n. */
  function TriText(t: Tri, modules: bool): string {
    if t == NO then "n" else if t == YES then "y" else if modules then "m" else "n"
  }

  /** conf_write_symbol with kconfig_print_symbol. */
  function PrintSymbol(ty: SymType, name: string, v: Value, modules: bool): string {
    match v
    case TriValue(t) =>
      if TriText(t, modules) == "n" then "# " + PREFIX + name + " is not set" + [NEWLINE]
      else PREFIX + name + "=" + TriText(t, modules) + [NEWLINE]
    case TextValue(s) => PREFIX + name + "=" + (if ty == Str then Quoted(s) else s) + [NEWLINE]
  }

  // ---------- reading ----------

  /** strchr: the place of the first c, or the end. */
  function Find(s: string, c: char): (i: nat)
    ensures i <= |s| && c !in s[..i] && (i < |s| ==> s[i] == c)
  {
    if s == "" || s[0] == c then 0 else
      var i := Find(s[1..], c) + 1;
      assert s[..i] == [s[0]] + s[1..][..i - 1];
      i
  }

  /** What conf_read_simple takes a line for. */
  datatype Line = Unset(name: string) | Assign(name: string, text: string) | Ignored

  function StartsWith(s: string, t: string): bool { |t| <= |s| && s[..|t|] == t }

  /** The text of an assignment up to the end of the line, which may be a return and a newline. */
  function ToLineEnd(s: string): string {
    var i := Find(s, NEWLINE);
    if 0 < i < |s| && s[i - 1] == RETURN then s[..i - 1] else s[..i]
  }

  function ParseLine(line: string): Line {
    if line != "" && line[0] == '#' then
      if |line| >= 2 && StartsWith(line[2..], PREFIX) then
        var rest := line[2..][|PREFIX|..];
        var i := Find(rest, ' ');
        if i < |rest| && StartsWith(rest[i + 1..], "is not set") then Unset(rest[..i]) else Ignored
      else Ignored
    else if StartsWith(line, PREFIX) then
      var rest := line[|PREFIX|..];
      var i := Find(rest, '=');
      if i < |rest| then Assign(rest[..i], ToLineEnd(rest[i + 1..])) else Ignored
    else Ignored
  }

  /** conf_set_sym_val. */
  function SetSymVal(ty: SymType, p: string): Option<Value> {
    match ty
    case Tristate =>
      if p != "" && p[0] == 'm' then Some(TriValue(MOD))
      else if p != "" && p[0] == 'y' then Some(TriValue(YES))
      else if p != "" && p[0] == 'n' then Some(TriValue(NO)) else None
    case Boolean =>
      if p != "" && p[0] == 'y' then Some(TriValue(YES))
      else if p != "" && p[0] == 'n' then Some(TriValue(NO)) else None
    case Str =>
      if p == "" || p[0] != QUOTE then None
      else if Unquote(p[1..]).None? then None else Some(TextValue(Unquote(p[1..]).value))
    case IntType => if StringValid(ty, p) then Some(TextValue(p)) else None
    case Hex => if StringValid(ty, p) then Some(TextValue(p)) else None
    case Other => if p != "" && p[0] == QUOTE then None else Some(TextValue(p))
    case Unknown => None
  }

  /** A symbol without a type becomes a string when it gets a value; sym_string_valid refuses a
      quoted one, for which it keeps its type. */
  function TypeAfter(ty: SymType, p: string): SymType {
    if ty == Other && !(p != "" && p[0] == QUOTE) then Str else ty
  }

  /** xstrdup: the text from p up to the NUL. */
  method StrDup(buf: array<char>, p: nat, ghost end: nat, ghost t: string) returns (s: string)
    requires IsText(buf[..], p, end, t)
    ensures s == t
  {
    var n := StrLen(buf, p, end, t);
    s := buf[p..p + n];
  }

  /** conf_set_sym_val on the line buffer, which it may rewrite from p on. */
  method SetFromBuffer(ty: SymType, buf: array<char>, p: nat, ghost end: nat, ghost text: string)
    returns (r: Option<Value>, ty': SymType)
    requires IsText(buf[..], p, end, text)
    modifies buf
    ensures r == SetSymVal(ty, text) && ty' == TypeAfter(ty, text) && buf[..p] == old(buf[..p])
  {
    ty' := ty;
    assert text != "" ==> buf[p] == buf[p..end][0] == text[0];
    assert text == "" ==> buf[p] == NUL;
    match ty {
      case Tristate =>
        r := if buf[p] == 'm' then Some(TriValue(MOD)) else if buf[p] == 'y' then Some(TriValue(YES))
             else if buf[p] == 'n' then Some(TriValue(NO)) else None;
      case Boolean =>
        r := if buf[p] == 'y' then Some(TriValue(YES)) else if buf[p] == 'n' then Some(TriValue(NO)) else None;
      case Str =>
        r := None;
        if buf[p] == QUOTE { r := SetQuoted(buf, p, end, text); }
      case IntType => r := SetText(ty, buf, p, end, text);
      case Hex => r := SetText(ty, buf, p, end, text);
      case Unknown => r := None;
      case Other =>
        r := None;
        if buf[p] != QUOTE {
          ty' := Str;
          r := SetText(ty', buf, p, end, text);
        } else {
          var s := SetQuoted(buf, p, end, text);
          if s.Some? && StringValid(ty', s.value.text) { r := s; }
        }
    }
  }

  method SetQuoted(buf: array<char>, p: nat, ghost end: nat, ghost text: string) returns (r: Option<Value>)
    requires IsText(buf[..], p, end, text) && text != "" && text[0] == QUOTE
    modifies buf
    ensures r == SetSymVal(Str, text) && buf[..p] == old(buf[..p])
  {
    ghost var rest := text[1..];
    assert buf[p + 1..end] == buf[p..end][1..];
    var ok: bool;
    ghost var stop;
    ghost var before := buf[..p + 1];
    ok, stop := UnquoteInPlace(buf, p + 1, end, rest);
    assert buf[..p] == buf[..p + 1][..p] && before[..p] == old(buf[..p]);
    r := None;
    if ok {
      var s := StrDup(buf, p + 1, stop, Unquote(rest).value);
      r := Some(TextValue(s));
    }
  }

  method SetText(ty: SymType, buf: array<char>, p: nat, ghost end: nat, ghost text: string) returns (r: Option<Value>)
    requires IsText(buf[..], p, end, text)
    ensures r == if StringValid(ty, text) then Some(TextValue(text)) else None
  {
    var s := StrDup(buf, p, end, text);
    var ok := CheckString(ty, s);
    r := if ok then Some(TextValue(s)) else None;
  }

  /** The user value a line gives to the symbol of the given name and type, if any. */
  function ReadLine(ty: SymType, name: string, line: string): Option<Value> {
    match ParseLine(line)
    case Unset(n) => if n == name && (ty == Boolean || ty == Tristate) then Some(TriValue(NO)) else None
    case Assign(n, text) => if n == name then SetSymVal(ty, text) else None
    case Ignored => None
  }

  // ---------- the round trip ----------

  /** The values a symbol of a type can have; no newline can occur in a line. */
  predicate IsValue(ty: SymType, v: Value) {
    match ty
    case Boolean => v.TriValue? && v.tri != MOD
    case Tristate => v.TriValue?
    case Str => v.TextValue? && NEWLINE !in v.text && NUL !in v.text
    case IntType => v.TextValue? && StringValid(ty, v.text)
    case Hex => v.TextValue? && StringValid(ty, v.text)
    case _ => false
  }

  predicate IsName(name: string) { ' ' !in name && '=' !in name && NEWLINE !in name }

  lemma {:induction false} FindFirst(a: string, c: char, b: string)
    requires c !in a
    ensures Find(a + [c] + b, c) == |a|
  {
    if a == "" {
      assert a + [c] + b == [c] + b;
    } else {
      assert (a + [c] + b)[1..] == a[1..] + [c] + b;
      FindFirst(a[1..], c, b);
    }
  }

  lemma ReadUnset(name: string)
    requires IsName(name)
    ensures ParseLine("# " + PREFIX + name + " is not set" + [NEWLINE]) == Unset(name)
  {
    var line := "# " + PREFIX + name + " is not set" + [NEWLINE];
    var rest := name + [' '] + ("is not set" + [NEWLINE]);
    assert line == "# " + (PREFIX + rest);
    assert line[2..] == PREFIX + rest;
    assert line[2..][|PREFIX|..] == rest;
    FindFirst(name, ' ', "is not set" + [NEWLINE]);
    assert rest[..|name|] == name && rest[|name| + 1..] == "is not set" + [NEWLINE];
  }

  lemma ToTheEnd(text: string)
    requires NEWLINE !in text && (text != "" ==> text[|text| - 1] != RETURN)
    ensures ToLineEnd(text + [NEWLINE]) == text
  {
    FindFirst(text, NEWLINE, "");
    assert text + [NEWLINE] + "" == text + [NEWLINE];
    assert (text + [NEWLINE])[..|text|] == text;
  }

  lemma ParseAssign(name: string, tail: string)
    requires '=' !in name
    ensures ParseLine(PREFIX + (name + ['='] + tail)) == Assign(name, ToLineEnd(tail))
  {
    var rest := name + ['='] + tail;
    var line := PREFIX + rest;
    assert line[0] == 'C' && line[|PREFIX|..] == rest && line[..|PREFIX|] == PREFIX;
    FindFirst(name, '=', tail);
    assert rest[..|name|] == name && rest[|name| + 1..] == tail;
  }

  lemma ReadAssign(name: string, text: string)
    requires IsName(name) && NEWLINE !in text && (text != "" ==> text[|text| - 1] != RETURN)
    ensures ParseLine(PREFIX + name + "=" + text + [NEWLINE]) == Assign(name, text)
  {
    ParseAssign(name, text + [NEWLINE]);
    ToTheEnd(text);
    assert PREFIX + name + "=" + text + [NEWLINE] == PREFIX + (name + ['='] + (text + [NEWLINE]));
  }

  /** A return before the newline is no part of the text. */
  lemma ReadReturn(name: string, text: string)
    requires IsName(name) && NEWLINE !in text
    ensures ParseLine(PREFIX + (name + ['='] + (text + [RETURN, NEWLINE]))) == Assign(name, text)
  {
    ParseAssign(name, text + [RETURN, NEWLINE]);
    FindFirst(text + [RETURN], NEWLINE, "");
    assert text + [RETURN] + [NEWLINE] + "" == text + [RETURN, NEWLINE];
    assert (text + [RETURN, NEWLINE])[..|text|] == text;
  }

  lemma {:induction false} EscapeNoNewline(s: string)
    requires NEWLINE !in s
    ensures NEWLINE !in Escape(s)
  {
    if s != "" { EscapeNoNewline(s[1..]); }
  }

  /** Numbers have no newline, and no return at the end. */
  lemma NumberText(ty: SymType, s: string)
    requires (ty == IntType || ty == Hex) && StringValid(ty, s)
    ensures NEWLINE !in s && s != "" && s[|s| - 1] != RETURN
  {
    forall j | 0 <= j < |s| ensures HexDigit(s[j]) || s[j] == '-' || s[j] == 'x' || s[j] == 'X' {
      if ty == IntType {
        var d := if s[0] == '-' then s[1..] else s;
        assert j >= |s| - |d| ==> s[j] == d[j - (|s| - |d|)];
        assert forall i :: 1 <= i < |d| ==> d[i] == d[1..][i - 1];
      } else {
        var d := if |s| > 1 && s[0] == '0' && (s[1] == 'x' || s[1] == 'X') then s[2..] else s;
        assert j >= |s| - |d| ==> s[j] == d[j - (|s| - |d|)];
      }
    }
  }

  lemma ReadText(ty: SymType, name: string, s: string, modules: bool)
    requires IsName(name) && IsValue(ty, TextValue(s))
    ensures ReadLine(ty, name, PrintSymbol(ty, name, TextValue(s), modules)) == Some(TextValue(s))
  {
    if ty == Str {
      QuotedText(s);
      ReadAssign(name, Quoted(s));
    } else {
      NumberText(ty, s);
      ReadAssign(name, s);
    }
  }

  lemma QuotedText(s: string)
    requires NEWLINE !in s
    ensures NEWLINE !in Quoted(s) && Quoted(s)[|Quoted(s)| - 1] != RETURN
    ensures SetSymVal(Str, Quoted(s)) == Some(TextValue(s))
  {
    EscapeNoNewline(s);
    assert Quoted(s)[1..] == Escape(s) + [QUOTE] + "";
    UnquoteEscape(s, "");
  }

  /** A printed line reads back as the value that was printed, except that an m written without
      modules reads back as n. */
  lemma RoundTrip(ty: SymType, name: string, v: Value, modules: bool)
    requires IsName(name) && IsValue(ty, v)
    ensures ReadLine(ty, name, PrintSymbol(ty, name, v, modules)) ==
      Some(if v == TriValue(MOD) && !modules then TriValue(NO) else v)
  {
    match v
    case TextValue(s) => ReadText(ty, name, s, modules);
    case TriValue(t) =>
      if TriText(t, modules) == "n" {
        ReadUnset(name);
      } else {
        ReadAssign(name, TriText(t, modules));
      }
  }

  /** And it says nothing about other symbols. */
  lemma OtherSymbols(ty: SymType, name: string, v: Value, modules: bool, ty2: SymType, other: string)
    requires IsName(name) && IsValue(ty, v) && other != name
    ensures ReadLine(ty2, other, PrintSymbol(ty, name, v, modules)) == None
  {
    match v
    case TextValue(s) =>
      if ty == Str {
        QuotedText(s);
        ReadAssign(name, Quoted(s));
      } else {
        NumberText(ty, s);
        ReadAssign(name, s);
      }
    case TriValue(t) =>
      if TriText(t, modules) == "n" { ReadUnset(name); } else { ReadAssign(name, TriText(t, modules)); }
  }

  /** The comment for a symbol that is not set gives a bool or tristate the value n, and others none. */
  lemma UnsetLine(ty: SymType, name: string)
    requires IsName(name)
    ensures ReadLine(ty, name, "# " + PREFIX + name + " is not set" + [NEWLINE]) ==
      if ty == Boolean || ty == Tristate then Some(TriValue(NO)) else None
  {
    ReadUnset(name);
  }

  lemma {:induction false} UnquoteFrom(t: string, c: char)
    requires c !in t && Unquote(t).Some?
    ensures c !in Unquote(t).value
  {
    if t[0] == BACKSLASH {
      UnquoteFrom(t[2..], c);
    } else if t[0] != QUOTE {
      UnquoteFrom(t[1..], c);
    }
  }

  lemma TextInLine(name: string, text: string, line: string)
    requires ParseLine(line) == Assign(name, text)
    ensures NEWLINE !in text && forall c :: c in text ==> c in line
  {
    var rest := line[|PREFIX|..];
    var s := rest[Find(rest, '=') + 1..];
    var i := Find(s, NEWLINE);
    assert NEWLINE !in s[..i];
    assert forall j :: 0 <= j < |text| ==> text[j] == s[..i][j];
    assert forall j :: 0 <= j < |text| ==> text[j] == line[|PREFIX| + (Find(rest, '=') + 1) + j];
  }

  /** Whatever a line says, what is read from it is a legal value of the symbol's type. */
  lemma ReadIsValue(ty: SymType, name: string, line: string)
    requires ty != Unknown && ty != Other && NUL !in line && ReadLine(ty, name, line).Some?
    ensures IsValue(ty, ReadLine(ty, name, line).value)
  {
    match ParseLine(line)
    case Assign(n, text) =>
      TextInLine(n, text, line);
      if ty == Str {
        UnquoteFrom(text[1..], NEWLINE);
        UnquoteFrom(text[1..], NUL);
      }
    case _ =>
  }
}

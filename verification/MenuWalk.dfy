/** The walk of conf_write (kconf/confdata.c) over the menu tree, and what menu_finalize of the
    whole tree means for it. */
module MenuWalk {
  import opened KconfigExpr
  import opened MenuTree
  import opened MenuFinalize

  /** The nodes above a place, each with the nodes after it. */
  datatype Path = Root | Under(up: Path, x: Entry, next: Forest)

  function Par(c: Path): Entry? { if c.Root? then null else c.x }

  /** What is still to come after the place. */
  function Left(c: Path): seq<Entry> { if c.Root? then [] else Pre(c.next) + Left(c.up) }

  predicate PathRep(m: Mem, c: Path) {
    c.Under? ==> c.x in m && m[c.x].parent == Par(c.up) && Rep(m, c.next, m[c.x].next, Par(c.up)) && PathRep(m, c.up)
  }

  /** From a node whose level ends, up to the next node in order. */
  method Climb(menu0: Entry, ghost m: Mem, ghost c0: Path) returns (menu: Entry?, ghost c: Path, ghost f: Forest)
    requires Matches(m) && PathRep(m, c0) && menu0 in m && m[menu0].parent == Par(c0)
    ensures Rep(m, f, menu, Par(c)) && PathRep(m, c) && Pre(f) + Left(c) == Left(c0)
    ensures menu == null ==> Left(c0) == []
  {
    c := c0;
    menu := menu0.parent;
    while menu != null
      invariant PathRep(m, c) && menu == Par(c) && Left(c) == Left(c0)
      decreases c
    {
      if menu.next != null {
        menu, f, c := menu.next, c.next, c.up;
        return;
      }
      assert Pre(c.next) == [];
      menu, c := menu.parent, c.up;
    }
    f := Nil;
  }

  /** From a node to the next in order: down, along, or up and along. */
  method Advance(menu0: Entry, ghost m: Mem, ghost c0: Path, ghost f0: Forest)
    returns (menu: Entry?, ghost c: Path, ghost f: Forest)
    requires Matches(m) && Rep(m, f0, menu0, Par(c0)) && PathRep(m, c0)
    ensures Rep(m, f, menu, Par(c)) && PathRep(m, c) && Pre(f) + Left(c) == (Pre(f0.list) + Pre(f0.next)) + Left(c0)
    ensures menu == null ==> Pre(f) + Left(c) == []
  {
    if menu0.list != null {
      Assoc(Pre(f0.list), Pre(f0.next), Left(c0));
      return menu0.list, Under(c0, f0.x, f0.next), f0.list;
    }
    NoneBelow(m, f0, c0);
    if menu0.next != null {
      return menu0.next, c0, f0.next;
    }
    menu, c, f := Climb(menu0, m, c0);
  }

  /** conf_write visits every node below the root menu once, in order. */
  method Walk(rootmenu: Entry, ghost m: Mem, ghost l: Forest) returns (visited: seq<Entry>)
    requires Matches(m) && Rep(m, Menu(rootmenu, l, Nil), rootmenu, null)
    ensures visited == Pre(l)
  {
    visited := [];
    ghost var c, f, todo := Under(Root, rootmenu, Nil), l, Pre(l);
    var menu := rootmenu.list;
    while menu != null
      invariant Rep(m, f, menu, Par(c)) && PathRep(m, c) && todo == Pre(f) + Left(c)
      invariant visited + todo == Pre(l)
      invariant menu == null ==> todo == []
      decreases |todo|
    {
      var here: Entry := menu;
      todo := Visit(visited, f, Left(c));
      visited := visited + [here];
      menu, c, f := Advance(here, m, c, f);
    }
  }

  /** Visiting the first node leaves the nodes below it, those after it, and the rest. */
  lemma Visit(visited: seq<Entry>, f: Forest, rest: seq<Entry>) returns (todo: seq<Entry>)
    requires f.Menu?
    ensures todo == (Pre(f.list) + Pre(f.next)) + rest && |todo| < |Pre(f) + rest|
    ensures visited + (Pre(f) + rest) == (visited + [f.x]) + todo
  {
    todo := (Pre(f.list) + Pre(f.next)) + rest;
    Assoc([f.x], Pre(f.list), Pre(f.next));
    Assoc([f.x], Pre(f.list) + Pre(f.next), rest);
    Assoc(visited, [f.x], todo);
  }

  lemma NoneBelow(m: Mem, f: Forest, c: Path)
    requires f.Menu? && Rep(m, f, f.x, Par(c)) && m[f.x].list == null
    ensures (Pre(f.list) + Pre(f.next)) + Left(c) == Pre(f.next) + Left(c)
    ensures m[f.x].next == null ==> Pre(f.next) + Left(c) == Left(c)
  {
    assert Pre(f.list) == [];
    assert Pre(f.list) + Pre(f.next) == Pre(f.next);
  }

  /** menu_finalize of the root menu and then the walk of conf_write: the nodes are finalized once
      each and visited once each, both in the order in which they were parsed. */
  method FinalizeAndWalk(rootmenu: Entry, modules: Sym, ghost m: Mem, ghost l: Forest)
    returns (visited: seq<Entry>, ghost m': Mem, ghost l': Forest, ghost log: seq<Entry>)
    requires Matches(m) && Rep(m, Menu(rootmenu, l, Nil), rootmenu, null) && NoDup(Pre(Menu(rootmenu, l, Nil)))
    modifies m.Keys`next, m.Keys`parent, m.Keys`list, m.Keys`dep, m.Keys`visible, m.Keys`props
    ensures visited == Pre(l) && log == [rootmenu] + Pre(l)
    ensures Matches(m') && Rep(m', Menu(rootmenu, l', Nil), rootmenu, null) && Pre(l') == Pre(l)
    ensures AllFlat(l') && Kept(l, l')
    ensures rootmenu in m && Inherited(m, m', l, ParentDep(rootmenu, m[rootmenu]), modules)
  {
    ghost var n';
    m', l', n', log := Finalize(rootmenu, modules, m, l, Nil, null, []);
    SameList(rootmenu, l, l', n');
    KeptBelow(rootmenu, l, l');
    visited := Walk(rootmenu, m', l');
  }

  lemma KeptBelow(x: Entry, l: Forest, l': Forest)
    requires Kept(Menu(x, l, Nil), Menu(x, l', Nil)) && NoDup(Pre(Menu(x, l, Nil))) && Pre(l') == Pre(l)
    ensures Kept(l, l')
  {
    HeadApart(x, l, Nil);
    forall y | y in Pre(l) && Titled(y) && ListOf(l, y).Menu? ensures Pre(ListOf(l', y)) == Pre(ListOf(l, y)) {
      InList(x, l, Nil, y);
      InList(x, l', Nil, y);
      KeptAt(Menu(x, l, Nil), Menu(x, l', Nil), y);
    }
  }

  lemma SameList(x: Entry, l: Forest, l': Forest, n': Forest)
    requires Suffix(n', Nil) && Pre(Menu(x, l', n')) == Pre(Menu(x, l, Nil))
    ensures n' == Nil && Pre(l') == Pre(l)
  {
    assert Pre(Nil) == [];
    assert Pre(Menu(x, l', Nil)) == [x] + Pre(l') && Pre(Menu(x, l, Nil)) == [x] + Pre(l);
    assert ([x] + Pre(l'))[1..] == Pre(l') && ([x] + Pre(l))[1..] == Pre(l);
  }
}

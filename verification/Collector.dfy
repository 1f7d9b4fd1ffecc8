/** The incremental tri-colour collector, over an abstract heap graph.

    Objects are strings, userdata, closures, strong tables, ephemeron tables (weak keys, strong values) and
    threads. Only references to collectable objects are kept. The mutator runs between any two steps of the
    collector; it calls a barrier when it stores into a closure, a userdata or a table, and none when it
    writes a thread's stack or the global roots. */
module Collector {

  import opened Options

  type Id = nat

  /** An entry of an ephemeron table; a key or value that is not collectable is `None`. */
  datatype Entry = Entry(key: Option<Id>, val: Option<Id>)

  datatype Object =
    | Str
    | Udata(meta: Option<Id>, user: Option<Id>)
    | Closure(refs: seq<Id>)
    | Table(meta: Option<Id>, refs: seq<Id>)
    | Ephemeron(meta: Option<Id>, refs: seq<Id>, entries: seq<Entry>)
    | Thread(refs: seq<Id>)

  /** The two whites take turns: the one that is not current marks the dead. */
  datatype Colour = White(which: bool) | Gray | Black

  datatype Phase = Pause | Propagate | Atomic | InsideAtomic | SwpAllgc | SwpFinobj | SwpTobefnz | SwpEnd | CallFin

  type Heap = map<Id, Object>
  type Colours = map<Id, Colour>

  predicate KeepInvariant(p: Phase) {
    p.Propagate? || p.Atomic?
  }

  /** The references that keep their target alive unconditionally. */
  predicate Strong(ob: Object, r: Id) {
    match ob
    case Str => false
    case Udata(m, u) => m == Some(r) || u == Some(r)
    case Closure(rs) => r in rs
    case Table(m, rs) => m == Some(r) || r in rs
    case Ephemeron(m, rs, _) => m == Some(r) || r in rs
    case Thread(rs) => r in rs
  }

  /** Any reference at all. */
  predicate Refers(ob: Object, r: Id) {
    Strong(ob, r) || (ob.Ephemeron? && exists e :: e in ob.entries && (e.key == Some(r) || e.val == Some(r)))
  }

  // ---------------------------------------------------------------------------------------------
  // What the language promises to keep
  // ---------------------------------------------------------------------------------------------

  ghost predicate StringKey(h: Heap, e: Entry) {
    e.key.Some? && e.key.value in h && h[e.key.value].Str?
  }

  /** `s` is closed under strong references, and for each ephemeron table in it holds every string key and
      the value of every entry whose key is not collectable or in `s`. */
  ghost predicate Closed(h: Heap, s: set<Id>) {
    forall o :: o in s && o in h ==>
      && (forall r :: Strong(h[o], r) ==> r in s)
      && (h[o].Ephemeron? ==> forall e :: e in h[o].entries ==>
            && (StringKey(h, e) ==> e.key.value in s)
            && ((e.key.None? || e.key.value in s) && e.val.Some? ==> e.val.value in s))
  }

  /** The least closed set over the roots. */
  ghost predicate Reachable(h: Heap, roots: set<Id>, o: Id) {
    forall s: set<Id> :: roots <= s && Closed(h, s) ==> o in s
  }

  /** What the mutator can get hold of: it may also read keys out of a weak table. */
  ghost predicate ClosedUnderAll(h: Heap, s: set<Id>) {
    forall o, r :: o in s && o in h && Refers(h[o], r) ==> r in s
  }

  ghost predicate Accessible(h: Heap, roots: set<Id>, o: Id) {
    forall s: set<Id> :: roots <= s && ClosedUnderAll(h, s) ==> o in s
  }

  // ---------------------------------------------------------------------------------------------
  // Colours
  // ---------------------------------------------------------------------------------------------

  predicate NonWhite(c: Colours, o: Id) {
    o in c && !c[o].White?
  }

  ghost function Whites(c: Colours): set<Id> {
    set o | o in c && c[o].White?
  }

  /** Marking only darkens whites. */
  ghost predicate Darker(c: Colours, c': Colours) {
    c.Keys == c'.Keys && forall o :: o in c && c'[o] != c[o] ==> c[o].White? && !c'[o].White?
  }

  ghost predicate StrongMarked(c: Colours, ob: Object) {
    forall r :: Strong(ob, r) ==> NonWhite(c, r)
  }

  ghost predicate KeyMarked(c: Colours, e: Entry) {
    e.key.Some? ==> NonWhite(c, e.key.value)
  }

  ghost predicate ValMarked(c: Colours, e: Entry) {
    e.val.Some? ==> NonWhite(c, e.val.value)
  }

  /** What the final traversal leaves of an ephemeron table that is in neither list. */
  ghost predicate EntriesMarked(c: Colours, es: seq<Entry>, weak: bool) {
    forall e :: e in es ==> ValMarked(c, e) && (weak || KeyMarked(c, e))
  }

  ghost predicate StringsMarked(h: Heap, c: Colours, es: seq<Entry>) {
    forall e :: e in es && StringKey(h, e) ==> KeyMarked(c, e)
  }

  /** The lists through which marked objects wait to be visited (`gray`, `rest`) or cleared. `final` says that
      the traversals of the atomic phase have begun. */
  datatype Lists = Lists(gray: seq<Id>, rest: seq<Id>, ephemeron: seq<Id>, allweak: seq<Id>, final: bool)

  ghost function Occurs(l: Lists, o: Id): nat {
    multiset(l.gray)[o] + multiset(l.rest)[o] + multiset(l.ephemeron)[o] + multiset(l.allweak)[o]
  }

  /** The kinds of object that are visited through a list. */
  predicate Visitable(ob: Object) {
    !ob.Str? && !ob.Udata?
  }

  ghost function Room(h: Heap, c: Colours, o: Id): nat {
    if o in c && c[o].Gray? && o in h && Visitable(h[o]) then 1 else 0
  }

  /** Whatever is in a list is gray, and is in one list only, once. */
  ghost predicate Linked(h: Heap, c: Colours, l: Lists) {
    && (forall o :: Occurs(l, o) <= Room(h, c, o))
    && (forall o :: o in l.ephemeron || o in l.allweak ==> o in h && h[o].Ephemeron?)
  }

  ghost predicate Waiting(l: Lists, o: Id) {
    o in l.gray || o in l.rest
  }

  /** A marked object that needs no further visit. Before the final traversals a thread always needs one, since
      writes to its stack have no barrier, and so does an ephemeron table unless it was strong when visited. */
  ghost predicate Settled(h: Heap, c: Colours, l: Lists, o: Id)
    requires o in h && o in c
  {
    && StrongMarked(c, h[o])
    && (if h[o].Thread? then l.final
        else if h[o].Ephemeron? then
          && (l.final || c[o].Black?)
          && StringsMarked(h, c, h[o].entries)
          && (o in l.ephemeron || EntriesMarked(c, h[o].entries, o in l.allweak))
        else c[o].Black?)
  }

  /** Every marked object is settled, waits in a list, or is being visited. */
  ghost predicate Covered(h: Heap, c: Colours, l: Lists, open: set<Id>) {
    forall o :: o in h && NonWhite(c, o) ==> o in open || Waiting(l, o) || Settled(h, c, l, o)
  }

  ghost predicate HeapOk(h: Heap, c: Colours) {
    h.Keys == c.Keys && forall o, r :: o in h && Refers(h[o], r) ==> r in h
  }

  /** Lists only gain members in front. */
  ghost predicate Gained(l: Lists, l': Lists) {
    && (forall o :: o in l.gray ==> o in l'.gray)
    && l.rest == l'.rest && l.ephemeron == l'.ephemeron && l.allweak == l'.allweak && l.final == l'.final
  }

  /** What was marked already is in the lists exactly where it was. */
  ghost predicate Undisturbed(c: Colours, l: Lists, l': Lists) {
    forall o :: NonWhite(c, o) ==> Occurs(l', o) == Occurs(l, o)
  }

  /** The effect of marking, on colours and lists. */
  ghost predicate Marks(c: Colours, l: Lists, c': Colours, l': Lists) {
    Darker(c, c') && Gained(l, l') && Undisturbed(c, l, l') && (l' == l || Whites(c') < Whites(c))
  }

  lemma MarksTrans(c: Colours, l: Lists, c': Colours, l': Lists, c'': Colours, l'': Lists)
    requires Marks(c, l, c', l') && Marks(c', l', c'', l'')
    ensures Marks(c, l, c'', l'')
  {
    assert Whites(c') <= Whites(c) && Whites(c'') <= Whites(c');
  }

  lemma SettledMono(h: Heap, c: Colours, l: Lists, c': Colours, l': Lists, o: Id)
    requires o in h && NonWhite(c, o) && Darker(c, c') && Settled(h, c, l, o) && Gained(l, l')
    ensures Settled(h, c', l', o)
  {
  }

  /** Coverage survives darkening, provided the newly marked objects are accounted for. */
  lemma CoveredMono(h: Heap, c: Colours, l: Lists, open: set<Id>, c': Colours, l': Lists, open': set<Id>)
    requires Covered(h, c, l, open) && Darker(c, c') && h.Keys == c.Keys && Gained(l, l')
    requires forall o :: o in open ==> o in open' || (o in h && NonWhite(c', o) && Settled(h, c', l', o))
    requires forall o :: o in h && !NonWhite(c, o) && NonWhite(c', o) ==>
               o in open' || Waiting(l', o) || Settled(h, c', l', o)
    ensures Covered(h, c', l', open')
  {
    forall o | o in h && NonWhite(c', o)
      ensures o in open' || Waiting(l', o) || Settled(h, c', l', o)
    {
      if NonWhite(c, o) && o !in open && !Waiting(l, o) {
        SettledMono(h, c, l, c', l', o);
      }
    }
  }

  /** The colour of an object that is being visited may change between gray and black. */
  lemma CoveredRecolour(h: Heap, c: Colours, l: Lists, open: set<Id>, o: Id, col: Colour)
    requires Covered(h, c, l, open) && h.Keys == c.Keys && o in open && NonWhite(c, o) && !col.White?
    ensures Covered(h, c[o := col], l, open)
  {
    var c' := c[o := col];
    forall p | p in h && NonWhite(c', p)
      ensures p in open || Waiting(l, p) || Settled(h, c', l, p)
    {
      assert NonWhite(c, p);
      assert forall r :: NonWhite(c, r) <==> NonWhite(c', r);
    }
  }

  /** Closing a visit. */
  lemma CoveredClose(h: Heap, c: Colours, l: Lists, open: set<Id>, o: Id)
    requires Covered(h, c, l, open + {o}) && h.Keys == c.Keys && o in h && o in c
    requires Waiting(l, o) || Settled(h, c, l, o)
    ensures Covered(h, c, l, open)
  {
  }

  ghost predicate MarkOk(h: Heap, c: Colours, l: Lists, open: set<Id>) {
    HeapOk(h, c) && Linked(h, c, l) && Covered(h, c, l, open)
  }

  /** A white object that turns gray and joins the gray list. */
  lemma MarkGray(h: Heap, c: Colours, l: Lists, open: set<Id>, o: Id)
    requires MarkOk(h, c, l, open) && o in h && c[o].White? && Visitable(h[o])
    ensures MarkOk(h, c[o := Gray], l.(gray := [o] + l.gray), open)
    ensures Marks(c, l, c[o := Gray], l.(gray := [o] + l.gray))
  {
    var c', l' := c[o := Gray], l.(gray := [o] + l.gray);
    forall p
      ensures Occurs(l', p) <= Room(h, c', p)
    {
      assert multiset(l'.gray) == multiset{o} + multiset(l.gray);
      assert Occurs(l, p) <= Room(h, c, p);
    }
    CoveredMono(h, c, l, open, c', l', open);
    WhitesShrink(c, c', o);
  }

  /** A white object that is marked and visited at once, outside the lists. */
  lemma MarkOpen(h: Heap, c: Colours, l: Lists, open: set<Id>, o: Id, col: Colour)
    requires MarkOk(h, c, l, open) && o in h && c[o].White? && !col.White?
    ensures MarkOk(h, c[o := col], l, open + {o}) && Marks(c, l, c[o := col], l) && Occurs(l, o) == 0
  {
    var c' := c[o := col];
    forall p
      ensures Occurs(l, p) <= Room(h, c', p)
    {
      assert Occurs(l, p) <= Room(h, c, p);
    }
    CoveredMono(h, c, l, open, c', l, open + {o});
  }

  lemma OpenRecolour(h: Heap, c: Colours, l: Lists, open: set<Id>, o: Id, col: Colour)
    requires MarkOk(h, c, l, open) && o in open && NonWhite(c, o) && !col.White? && Occurs(l, o) == 0
    ensures MarkOk(h, c[o := col], l, open)
  {
    var c' := c[o := col];
    forall p
      ensures Occurs(l, p) <= Room(h, c', p)
    {
      assert Occurs(l, p) <= Room(h, c, p);
    }
    CoveredRecolour(h, c, l, open, o, col);
  }

  lemma CloseOpen(h: Heap, c: Colours, l: Lists, open: set<Id>, o: Id)
    requires MarkOk(h, c, l, open + {o}) && o in h
    requires Waiting(l, o) || Settled(h, c, l, o)
    ensures MarkOk(h, c, l, open)
  {
    CoveredClose(h, c, l, open, o);
  }

  lemma WhitesShrink(c: Colours, c': Colours, o: Id)
    requires Darker(c, c') && o in c && c[o].White? && !c'[o].White?
    ensures Whites(c') < Whites(c)
  {
    assert o in Whites(c) && o !in Whites(c');
  }

  // ---------------------------------------------------------------------------------------------
  // Nothing is marked without need
  // ---------------------------------------------------------------------------------------------

  ghost function Marked(c: Colours): set<Id> {
    set o | o in c && !c[o].White?
  }

  /** Marking has stayed inside the closed set `u`. */
  ghost predicate Within(h: Heap, c: Colours, u: set<Id>) {
    Closed(h, u) && Marked(c) <= u
  }

  lemma WithinMark(h: Heap, c: Colours, u: set<Id>, o: Id, col: Colour)
    requires Within(h, c, u) && o in u
    ensures Within(h, c[o := col], u)
  {
    forall p | p in Marked(c[o := col])
      ensures p in u
    {
      assert p == o || p in Marked(c);
    }
  }

  lemma WithinHas(h: Heap, c: Colours, u: set<Id>, o: Id)
    requires Within(h, c, u) && NonWhite(c, o)
    ensures o in u
  {
    assert o in Marked(c);
  }

  lemma WithinRefs(h: Heap, c: Colours, u: set<Id>, o: Id)
    requires Within(h, c, u) && o in u && o in h
    ensures forall r :: Strong(h[o], r) ==> r in u
  {
  }

  lemma EntryWithin(h: Heap, c: Colours, u: set<Id>, o: Id, e: Entry)
    requires Within(h, c, u) && o in u && o in h && h[o].Ephemeron? && e in h[o].entries
    ensures StringKey(h, e) ==> e.key.value in u
    ensures KeyMarked(c, e) && e.val.Some? ==> e.val.value in u
  {
    if e.key.Some? && NonWhite(c, e.key.value) {
      WithinHas(h, c, u, e.key.value);
    }
  }

  /** The whole heap is closed. */
  lemma WithinAll(h: Heap, c: Colours, l: Lists, open: set<Id>)
    requires MarkOk(h, c, l, open)
    ensures Within(h, c, h.Keys)
  {
    AllIsClosed(h, h.Keys);
  }

  lemma WithinOnly(h: Heap, c: Colours, u: set<Id>)
    requires Within(h, c, u)
    ensures Marked(c) <= u
  {
  }

  /** What the objects of `s` keep alive. */
  ghost function Kept(h: Heap, s: set<Id>): set<Id> {
    set o | o in h && Reachable(h, s, o)
  }

  /** Over a heap without dangling references that set is closed, so it is the least one. */
  lemma KeptClosed(h: Heap, s: set<Id>)
    requires s <= h.Keys && forall o, r :: o in h && Reachable(h, s, o) && Refers(h[o], r) ==> r in h
    ensures Closed(h, Kept(h, s)) && s <= Kept(h, s)
  {
    var k := Kept(h, s);
    forall o | o in k
      ensures forall r :: Strong(h[o], r) ==> r in k
      ensures h[o].Ephemeron? ==> forall e :: e in h[o].entries ==>
                && (StringKey(h, e) ==> e.key.value in k)
                && ((e.key.None? || e.key.value in k) && e.val.Some? ==> e.val.value in k)
    {
      forall r | Strong(h[o], r)
        ensures r in k
      {
        assert Refers(h[o], r);
      }
      if h[o].Ephemeron? {
        forall e | e in h[o].entries
          ensures StringKey(h, e) ==> e.key.value in k
          ensures (e.key.None? || e.key.value in k) && e.val.Some? ==> e.val.value in k
        {
          KeptEntry(h, s, o, e);
        }
      }
    }
  }

  lemma KeptEntry(h: Heap, s: set<Id>, o: Id, e: Entry)
    requires Reachable(h, s, o) && o in h && h[o].Ephemeron? && e in h[o].entries
    requires forall r :: Refers(h[o], r) ==> r in h
    ensures StringKey(h, e) ==> e.key.value in Kept(h, s)
    ensures (e.key.None? || e.key.value in Kept(h, s)) && e.val.Some? ==> e.val.value in Kept(h, s)
  {
    if StringKey(h, e) {
      assert Reachable(h, s, e.key.value);
    }
    if (e.key.None? || e.key.value in Kept(h, s)) && e.val.Some? {
      assert Refers(h[o], e.val.value);
      assert Reachable(h, s, e.val.value);
    }
  }

  lemma KeptWithin(h: Heap, c: Colours, l: Lists, s: set<Id>)
    requires MarkOk(h, c, l, {}) && Marked(c) <= s <= h.Keys
    ensures Within(h, c, Kept(h, s)) && s <= Kept(h, s)
  {
    KeptClosed(h, s);
  }

  lemma MarkedInHeap(h: Heap, c: Colours, l: Lists)
    requires MarkOk(h, c, l, {})
    ensures Marked(c) <= h.Keys
  {
  }

  lemma SourcesInHeap(h: Heap, c: Colours, cw: bool, main: Id, running: Id, globals: seq<Id>, done: seq<Id>, l: Lists)
    requires MarkOk(h, c, l, {}) && Sound(h, c, cw, main, running, globals, done, [])
    ensures Marked(c) + RootSet(main, running, globals) <= h.Keys
  {
    MarkedInHeap(h, c, l);
  }

  /** At the start of a cycle nothing is marked. */
  lemma UnmarkedWithin(h: Heap, c: Colours, cw: bool, main: Id, running: Id, globals: seq<Id>, done: seq<Id>, l: Lists)
    requires MarkOk(h, c, l, {}) && Sound(h, c, cw, main, running, globals, done, []) && AllWhite(c, cw)
    ensures var roots := RootSet(main, running, globals); Within(h, c, Kept(h, roots)) && roots <= Kept(h, roots)
    ensures main in Kept(h, RootSet(main, running, globals))
    ensures forall i :: 0 <= i < |globals| ==> globals[i] in Kept(h, RootSet(main, running, globals))
  {
    hide MarkOk, Within, Kept;
    var roots := RootSet(main, running, globals);
    assert Marked(c) == {};
    SourcesInHeap(h, c, cw, main, running, globals, done, l);
    KeptWithin(h, c, l, roots);
    assert forall i :: 0 <= i < |globals| ==> globals[i] in roots;
  }

  lemma MarkedGrows(c: Colours, c': Colours)
    requires Further(c, c')
    ensures Marked(c) <= Marked(c')
  {
  }

  lemma RootsAreMarked(c: Colours, main: Id, running: Id, globals: seq<Id>)
    requires RootsMarked(c, main, running, globals)
    ensures RootSet(main, running, globals) <= Marked(c)
  {
  }

  /** A closed set over `s` that marking has not left is exactly what `s` keeps alive. */
  lemma MarkedExactly(h: Heap, c: Colours, s: set<Id>)
    requires Within(h, c, Kept(h, s)) && Closed(h, Marked(c)) && s <= Marked(c)
    ensures Marked(c) == Kept(h, s)
  {
  }

  // ---------------------------------------------------------------------------------------------
  // The collector
  // ---------------------------------------------------------------------------------------------

  class GlobalState {
    var heap: Heap
    var colour: Colours
    var gray: seq<Id>
    var grayagain: seq<Id>
    var ephemeron: seq<Id>
    var allweak: seq<Id>
    var phase: Phase
    var currentwhite: bool
    /** The list of all objects but the main thread; in a sweep, `todo` begins where `sweepgc` points. */
    var done: seq<Id>
    var todo: seq<Id>
    const mainthread: Id
    var running: Id
    var globals: seq<Id>
    /** Raised for the one step that runs from the end of propagation to the flip of the white. */
    ghost var final: bool

    /** The lists, when `rest` is the saved list still to be visited. */
    ghost function Ls(rest: seq<Id>): Lists
      reads this`gray, this`ephemeron, this`allweak, this`final
    {
      Lists(gray, rest, ephemeron, allweak, final)
    }

    ghost predicate Marking(rest: seq<Id>, open: set<Id>)
      reads this`heap, this`colour, this`gray, this`ephemeron, this`allweak, this`final
    {
      MarkOk(heap, colour, Ls(rest), open)
    }

    /** Strings and userdata are blackened at once; anything else turns gray and waits for its visit. */
    method ReallyMark(o: Id, ghost rest: seq<Id>, ghost open: set<Id>, ghost u: set<Id>)
      requires Marking(rest, open) && o in heap && colour[o].White?
      requires Within(heap, colour, u) && o in u
      modifies this`colour, this`gray
      ensures Within(heap, colour, u)
      ensures Marking(rest, open) && NonWhite(colour, o)
      ensures Marks(old(colour), old(Ls(rest)), colour, Ls(rest)) && Whites(colour) < old(Whites(colour))
      ensures heap[o].Str? ==> colour == old(colour)[o := Black] && gray == old(gray)
      ensures Visitable(heap[o]) ==> colour == old(colour)[o := Gray] && gray == [o] + old(gray)
      decreases Whites(colour), 0
    {
      hide MarkOk, Settled, Occurs, Marks, Within;
      ghost var c0, l0 := colour, Ls(rest);
      match heap[o] {
        case Str =>
          MarkOpen(heap, c0, l0, open, o, Black);
          WithinMark(heap, colour, u, o, Black);
          colour := colour[o := Black];
          StrSettled(heap, colour, l0, o);
          CloseOpen(heap, colour, l0, open, o);
          WhitesShrink(c0, colour, o);
        case Udata(meta, user) =>
          RefsInHeap(heap, colour, l0, open, o);
          MarkOpen(heap, c0, l0, open, o, Gray);
          WithinMark(heap, colour, u, o, Gray);
          WithinRefs(heap, colour, u, o);
          colour := colour[o := Gray];
          ghost var c1 := colour;
          WhitesShrink(c0, c1, o);
          MarkN(meta, rest, open + {o}, u);
          ghost var c2, l2 := colour, Ls(rest);
          StillGray(c1, l0, c2, l2, o);
          OpenRecolour(heap, c2, l2, open + {o}, o, Black);
          WithinMark(heap, c2, u, o, Black);
          colour := colour[o := Black];
          ghost var c3 := colour;
          UdataBlack(c0, l0, c1, c2, l2, o);
          MarkN(user, rest, open + {o}, u);
          MarksTrans(c0, l0, c3, l2, colour, Ls(rest));
          MarkedStays(c3, l2, colour, Ls(rest));
          UdataSettled(heap, c2, l2, c3, colour, Ls(rest), o);
          CloseOpen(heap, colour, Ls(rest), open, o);
        case _ =>
          MarkGray(heap, c0, l0, open, o);
          WithinMark(heap, colour, u, o, Gray);
          colour := colour[o := Gray];
          gray := [o] + gray;
          WhitesShrink(c0, colour, o);
      }
    }

    /** `markobjectN`: a reference that may be absent, or marked already. */
    method MarkN(r: Option<Id>, ghost rest: seq<Id>, ghost open: set<Id>, ghost u: set<Id>)
      requires Marking(rest, open) && (r.Some? ==> r.value in heap)
      requires Within(heap, colour, u) && (r.Some? ==> r.value in u)
      modifies this`colour, this`gray
      ensures Within(heap, colour, u)
      ensures Marking(rest, open) && (r.Some? ==> NonWhite(colour, r.value)) && (r.None? ==> colour == old(colour) && gray == old(gray))
      ensures Marks(old(colour), old(Ls(rest)), colour, Ls(rest))
      decreases Whites(colour), 1
    {
      hide MarkOk, Marks, Within;
      KeysSame(heap, colour, Ls(rest), open);
      MarksSelf(colour, Ls(rest));
      if r.Some? && colour[r.value].White? {
        ReallyMark(r.value, rest, open, u);
      }
    }

    method MarkAll(rs: seq<Id>, ghost rest: seq<Id>, ghost open: set<Id>, ghost u: set<Id>)
      requires Marking(rest, open) && forall i :: 0 <= i < |rs| ==> rs[i] in heap
      requires Within(heap, colour, u) && (forall i :: 0 <= i < |rs| ==> rs[i] in u)
      modifies this`colour, this`gray
      ensures Within(heap, colour, u)
      ensures Marking(rest, open) && forall i :: 0 <= i < |rs| ==> NonWhite(colour, rs[i])
      ensures Marks(old(colour), old(Ls(rest)), colour, Ls(rest))
    {
      hide MarkOk, Marks, Within;
      MarksSelf(colour, Ls(rest));
      for k := 0 to |rs|
        invariant Marking(rest, open) && Within(heap, colour, u) && forall i :: 0 <= i < k ==> NonWhite(colour, rs[i])
        invariant Marks(old(colour), old(Ls(rest)), colour, Ls(rest))
      {
        ghost var c, l := colour, Ls(rest);
        MarkN(Some(rs[k]), rest, open, u);
        MarkedStays(c, l, colour, Ls(rest));
        MarksTrans(old(colour), old(Ls(rest)), c, l, colour, Ls(rest));
      }
    }

    /** `iscleared`: strings are values, so a string key is marked instead of being weak. */
    method IsCleared(k: Option<Id>, ghost rest: seq<Id>, ghost open: set<Id>, ghost u: set<Id>) returns (cleared: bool)
      requires Marking(rest, open) && (k.Some? ==> k.value in heap)
      requires Within(heap, colour, u) && (k.Some? && heap[k.value].Str? ==> k.value in u)
      modifies this`colour, this`gray
      ensures Within(heap, colour, u)
      ensures Marking(rest, open) && gray == old(gray)
      ensures Marks(old(colour), old(Ls(rest)), colour, Ls(rest)) && OnlyStrings(heap, old(colour), colour)
      ensures cleared ==> k.Some? && !heap[k.value].Str? && colour[k.value].White?
      ensures !cleared && k.Some? ==> NonWhite(colour, k.value)
      ensures (k.Some? && k.value in old(colour) && heap[k.value].Str? && old(colour)[k.value].White?) || colour == old(colour)
    {
      hide MarkOk, Marks, Within;
      KeysSame(heap, colour, Ls(rest), open);
      MarksSelf(colour, Ls(rest));
      if k.None? {
        cleared := false;
      } else if heap[k.value].Str? {
        if colour[k.value].White? {
          ReallyMark(k.value, rest, open, u);
        }
        cleared := false;
      } else {
        cleared := colour[k.value].White?;
      }
    }

    /** The array part of an ephemeron table is strong. */
    method TraverseArray(o: Id, ghost rest: seq<Id>, ghost u: set<Id>) returns (marked: bool)
      requires Marking(rest, {o}) && o in heap && heap[o].Ephemeron?
      requires Within(heap, colour, u) && o in u
      modifies this`colour, this`gray
      ensures Within(heap, colour, u)
      ensures Marking(rest, {o}) && Marks(old(colour), old(Ls(rest)), colour, Ls(rest))
      ensures forall j :: 0 <= j < |heap[o].refs| ==> NonWhite(colour, heap[o].refs[j])
      ensures if marked then Whites(colour) < old(Whites(colour)) else colour == old(colour) && gray == old(gray)
      ensures heap[o].refs == [] ==> !marked
    {
      hide MarkOk, Marks, Within;
      ghost var c0, l0 := colour, Ls(rest);
      marked := false;
      MarksSelf(colour, Ls(rest));
      EphemeronRefs(heap, c0, l0, {o}, o);
      WithinRefs(heap, colour, u, o);
      var refs := heap[o].refs;
      for i := 0 to |refs|
        invariant Marking(rest, {o}) && Marks(c0, l0, colour, Ls(rest)) && Within(heap, colour, u)
        invariant forall j :: 0 <= j < i ==> NonWhite(colour, refs[j])
        invariant if marked then Whites(colour) < Whites(c0) else colour == c0 && gray == l0.gray
        invariant i == 0 ==> !marked
      {
        KeysSame(heap, colour, Ls(rest), {o});
        if colour[refs[i]].White? {
          ghost var c, l := colour, Ls(rest);
          marked := true;
          ReallyMark(refs[i], rest, {o}, u);
          MarkedStays(c, l, colour, Ls(rest));
          MarkedStays(c0, l0, c, l);
          MarksTrans(c0, l0, c, l, colour, Ls(rest));
        }
      }
    }

    /** One entry of the hash part: its value is marked once its key is. */
    method TraverseEntry(e: Entry, o: Id, ghost rest: seq<Id>, ghost u: set<Id>) returns (marked: bool, hasclears: bool, hasww: bool)
      requires Marking(rest, {o}) && (e.key.Some? ==> e.key.value in heap) && (e.val.Some? ==> e.val.value in heap)
      requires Within(heap, colour, u) && o in u && o in heap && heap[o].Ephemeron? && e in heap[o].entries
      modifies this`colour, this`gray
      ensures Within(heap, colour, u)
      ensures Marking(rest, {o}) && Marks(old(colour), old(Ls(rest)), colour, Ls(rest))
      ensures if marked then Whites(colour) < old(Whites(colour))
              else gray == old(gray) && OnlyStrings(heap, old(colour), colour)
      ensures EntryDone(heap, colour, e, marked, hasclears, hasww) && (hasww ==> hasclears)
      ensures (hasww <==> WhiteWhite(heap, old(colour), e)) && (Outside(heap, u, e) ==> hasww)
      ensures hasclears ==> WhiteKey(heap, old(colour), e)
    {
      hide MarkOk, Marks, EntryDone, OnlyStrings, Whites, Within, WhiteWhite, Outside, WhiteKey;
      marked, hasclears, hasww := false, false, false;
      ghost var c, l := colour, Ls(rest);
      EntryWithin(heap, colour, u, o, e);
      var cleared := IsCleared(e.key, rest, {o}, u);
      ghost var c1, l1 := colour, Ls(rest);
      KeysSame(heap, colour, Ls(rest), {o});
      MarkedStays(c, l, c1, l1);
      MarksSelf(c1, l1);
      WhiteWhiteNow(heap, c, c1, u, e);
      WhiteWhiteStill(heap, c, c1, e);
      WhiteKeyNow(heap, c, c1, e);
      if cleared {
        hasclears := true;
        if e.val.Some? && colour[e.val.value].White? {
          hasww := true;
        }
      } else if e.val.Some? && colour[e.val.value].White? {
        EntryWithin(heap, colour, u, o, e);
        marked := true;
        ReallyMark(e.val.value, rest, {o}, u);
      }
      MarksTrans(c, l, c1, l1, colour, Ls(rest));
      MarkedStays(c1, l1, colour, Ls(rest));
      EntryNow(heap, c1, colour, e, cleared, marked, hasclears, hasww);
    }

    /** The hash part of an ephemeron table. */
    method TraverseEntries(o: Id, ghost rest: seq<Id>, ghost u: set<Id>) returns (marked: bool, hasclears: bool, hasww: bool)
      requires Marking(rest, {o}) && o in heap && heap[o].Ephemeron?
      requires Within(heap, colour, u) && o in u
      modifies this`colour, this`gray
      ensures Within(heap, colour, u)
      ensures Marking(rest, {o}) && Marks(old(colour), old(Ls(rest)), colour, Ls(rest))
      ensures if marked then Whites(colour) < old(Whites(colour))
              else gray == old(gray) && OnlyStrings(heap, old(colour), colour)
      ensures forall j :: 0 <= j < |heap[o].entries| ==>
                EntryDone(heap, colour, heap[o].entries[j], marked, hasclears, hasww)
      ensures hasww ==> hasclears
      ensures (hasww ==> Pending(heap, old(colour), heap[o].entries)) && (Lasting(heap, u, heap[o].entries) ==> hasww)
      ensures heap[o].entries != [] && WhiteWhite(heap, old(colour), heap[o].entries[0]) ==> hasww
      ensures hasclears ==> Clearable(heap, old(colour), heap[o].entries)
    {
      hide MarkOk, Marks, EntryDone, OnlyStrings, Whites, Within, WhiteWhite, Outside, WhiteKey;
      ghost var c0, l0 := colour, Ls(rest);
      marked, hasclears, hasww := false, false, false;
      MarksSelf(colour, Ls(rest));
      OnlyStringsSelf(heap, colour);
      EphemeronRefs(heap, c0, l0, {o}, o);
      var es := heap[o].entries;
      for i := 0 to |es|
        invariant Marking(rest, {o}) && Marks(c0, l0, colour, Ls(rest)) && Within(heap, colour, u)
        invariant if marked then Whites(colour) < Whites(c0) else gray == l0.gray && OnlyStrings(heap, c0, colour)
        invariant forall j :: 0 <= j < i ==> EntryDone(heap, colour, es[j], marked, hasclears, hasww)
        invariant (hasww ==> hasclears && Pending(heap, c0, es)) && (hasclears ==> Clearable(heap, c0, es))
        invariant forall j :: 0 <= j < i && Outside(heap, u, es[j]) ==> hasww
        invariant (i == 0 ==> colour == c0) && (i > 0 && WhiteWhite(heap, c0, es[0]) ==> hasww)
      {
        assert es[i] in heap[o].entries;
        ghost var c, l := colour, Ls(rest);
        MarkedStays(c0, l0, c, l);
        WhiteWhiteBack(heap, c0, c, es[i]);
        WhiteKeyBack(heap, c0, c, es[i]);
        var mk, hc, hw := TraverseEntry(es[i], o, rest, u);
        EntriesSoFar(heap, c0, l0, c, l, colour, Ls(rest), es[..i], es[i], marked, hasclears, hasww, mk, hc, hw);
        marked, hasclears, hasww := marked || mk, hasclears || hc, hasww || hw;
      }
    }

    /** Visits an ephemeron table and links it where its entries call for. While propagating it is kept for the
        atomic phase; later it goes to a list only if some entry may still change or must be cleared. */
    method TraverseEphemeron(o: Id, ghost rest: seq<Id>, ghost u: set<Id>) returns (marked: bool, ghost rest': seq<Id>)
      requires Marking(rest, {o}) && o in heap && heap[o].Ephemeron? && o in colour && colour[o].Gray? && Occurs(Ls(rest), o) == 0
      requires heap[o].meta.Some? ==> NonWhite(colour, heap[o].meta.value)
      requires if phase.Propagate? then !final && rest == grayagain else final
      requires Within(heap, colour, u) && o in u
      modifies this`colour, this`gray, this`grayagain, this`ephemeron, this`allweak
      ensures Within(heap, colour, u)
      ensures Marking(rest', {}) && rest' == if phase.Propagate? then [o] + rest else rest
      ensures grayagain == if phase.Propagate? then [o] + old(grayagain) else old(grayagain)
      ensures Darker(old(colour), colour)
      ensures if marked then Whites(colour) < old(Whites(colour))
              else gray == old(gray) && OnlyStrings(heap, old(colour), colour)
      ensures ephemeron == old(ephemeron) || (final && ephemeron == [o] + old(ephemeron))
      ensures allweak == old(allweak) ||
                (!phase.Propagate? && allweak == [o] + old(allweak) && Clearable(heap, old(colour), heap[o].entries))
      ensures !marked && ephemeron != old(ephemeron) ==> Converged(colour, heap[o].entries)
      ensures ephemeron != old(ephemeron) ==> Pending(heap, old(colour), heap[o].entries)
      ensures !phase.Propagate? && Lasting(heap, u, heap[o].entries) ==> ephemeron == [o] + old(ephemeron)
      ensures GrayKept(old(colour), old(gray), gray)
      ensures !phase.Propagate? && heap[o].refs == [] && heap[o].entries != [] && WhiteWhite(heap, old(colour), heap[o].entries[0]) ==>
                ephemeron == [o] + old(ephemeron)
      ensures StrongMarked(colour, heap[o])
    {
      hide MarkOk, Occurs, OnlyStrings, Converged, StrongMarked, StringsMarked, EntriesMarked, Whites, Darker, Within, Pending, Lasting, GrayKept,
        WhiteWhite, Clearable;
      var hasclears, hasww;
      marked, hasclears, hasww := TraverseContents(o, rest, u);
      rest' := LinkWeak(o, hasclears, hasww, rest);
    }

    /** Both parts of an ephemeron table. */
    method TraverseContents(o: Id, ghost rest: seq<Id>, ghost u: set<Id>) returns (marked: bool, hasclears: bool, hasww: bool)
      requires Marking(rest, {o}) && o in heap && heap[o].Ephemeron? && o in colour && colour[o].Gray? && Occurs(Ls(rest), o) == 0
      requires heap[o].meta.Some? ==> NonWhite(colour, heap[o].meta.value)
      requires Within(heap, colour, u) && o in u
      modifies this`colour, this`gray
      ensures Within(heap, colour, u)
      ensures Marking(rest, {o}) && o in colour && colour[o].Gray? && Occurs(Ls(rest), o) == 0
      ensures Darker(old(colour), colour)
      ensures if marked then Whites(colour) < old(Whites(colour))
              else gray == old(gray) && OnlyStrings(heap, old(colour), colour)
      ensures StrongMarked(colour, heap[o]) && StringsMarked(heap, colour, heap[o].entries)
      ensures !hasww ==> EntriesMarked(colour, heap[o].entries, true)
      ensures !hasclears ==> EntriesMarked(colour, heap[o].entries, false)
      ensures !marked ==> Converged(colour, heap[o].entries)
      ensures (hasww ==> Pending(heap, old(colour), heap[o].entries)) && (Lasting(heap, u, heap[o].entries) ==> hasww)
      ensures GrayKept(old(colour), old(gray), gray)
      ensures heap[o].refs == [] && heap[o].entries != [] && WhiteWhite(heap, old(colour), heap[o].entries[0]) ==> hasww
      ensures hasclears ==> Clearable(heap, old(colour), heap[o].entries)
    {
      hide MarkOk, Marks, Occurs, OnlyStrings, EntryDone, Converged, StrongMarked, StringsMarked, EntriesMarked, Whites, Darker, Within,
        Pending, Lasting, GrayKept, WhiteWhite, Clearable;
      ghost var c0, l0 := colour, Ls(rest);
      var m1 := TraverseArray(o, rest, u);
      ghost var c1, l1 := colour, Ls(rest);
      var m2;
      m2, hasclears, hasww := TraverseEntries(o, rest, u);
      TwoParts(heap, c0, l0, c1, l1, colour, Ls(rest), o, m1, m2);
      MarkedStays(c0, l0, c1, l1);
      PendingBack(heap, c0, c1, heap[o].entries);
      ClearableBack(heap, c0, c1, heap[o].entries);
      MarksTrans(c0, l0, c1, l1, colour, Ls(rest));
      GrayFrom(heap, c0, l0, colour, Ls(rest), {o});
      EphemeronVisited(heap, colour, o, m2, hasclears, hasww);
      marked := m1 || m2;
    }

    method LinkWeak(o: Id, hasclears: bool, hasww: bool, ghost rest: seq<Id>) returns (ghost rest': seq<Id>)
      requires Marking(rest, {o}) && o in heap && heap[o].Ephemeron? && o in colour && colour[o].Gray? && Occurs(Ls(rest), o) == 0
      requires if phase.Propagate? then !final && rest == grayagain else final
      requires StrongMarked(colour, heap[o]) && StringsMarked(heap, colour, heap[o].entries)
      requires !hasww ==> EntriesMarked(colour, heap[o].entries, true)
      requires !hasclears ==> EntriesMarked(colour, heap[o].entries, false)
      modifies this`grayagain, this`ephemeron, this`allweak
      ensures Marking(rest', {}) && rest' == if phase.Propagate? then [o] + rest else rest
      ensures grayagain == if phase.Propagate? then [o] + old(grayagain) else old(grayagain)
      ensures ephemeron == if !phase.Propagate? && hasww then [o] + old(ephemeron) else old(ephemeron)
      ensures allweak == if !phase.Propagate? && !hasww && hasclears then [o] + old(allweak) else old(allweak)
    {
      hide MarkOk, Occurs, StrongMarked, StringsMarked, EntriesMarked;
      KeysSame(heap, colour, Ls(rest), {o});
      rest' := rest;
      if phase.Propagate? {
        LinkRest(heap, colour, Ls(rest), o);
        grayagain := [o] + grayagain;
        rest' := grayagain;
      } else if hasww {
        LinkEphemeron(heap, colour, Ls(rest), o);
        ephemeron := [o] + ephemeron;
      } else if hasclears {
        LinkAllweak(heap, colour, Ls(rest), o);
        allweak := [o] + allweak;
      } else {
        LinkNone(heap, colour, Ls(rest), o);
      }
    }

    /** A strong table or a closure: everything it refers to is marked. */
    method TraverseStrong(o: Id, ghost rest: seq<Id>, ghost u: set<Id>)
      requires Marking(rest, {o}) && o in heap && (heap[o].Table? || heap[o].Closure?) && o in colour && colour[o].Black?
      requires Within(heap, colour, u) && o in u
      modifies this`colour, this`gray
      ensures Within(heap, colour, u)
      ensures Marking(rest, {}) && Marks(old(colour), old(Ls(rest)), colour, Ls(rest)) && StrongMarked(colour, heap[o])
    {
      hide MarkOk, Marks, Settled, Within;
      ghost var c1, l1 := colour, Ls(rest);
      ObjectRefs(heap, c1, l1, {o}, o);
      WithinRefs(heap, colour, u, o);
      MarkN(if heap[o].Table? then heap[o].meta else None, rest, {o}, u);
      ghost var c2, l2 := colour, Ls(rest);
      MarkAll(heap[o].refs, rest, {o}, u);
      MarkedStays(c2, l2, colour, Ls(rest));
      Visited(heap, c1, l1, c2, l2, colour, Ls(rest), o);
      CloseLast(heap, colour, Ls(rest), o);
    }

    /** A thread goes back to gray and, for a visit in the atomic phase, into `grayagain`. */
    method TraverseThread(o: Id, ghost rest: seq<Id>, ghost u: set<Id>) returns (ghost rest': seq<Id>)
      requires Marking(rest, {o}) && o in heap && heap[o].Thread? && o in colour && colour[o].Black? && Occurs(Ls(rest), o) == 0
      requires if phase.InsideAtomic? then final else rest == grayagain
      requires Within(heap, colour, u) && o in u
      modifies this`colour, this`gray, this`grayagain
      ensures Within(heap, colour, u)
      ensures Marking(rest', {}) && rest' == if phase.InsideAtomic? then rest else grayagain
      ensures grayagain == [o] + old(grayagain) && StrongMarked(colour, heap[o])
      ensures Marks(old(colour)[o := Gray], old(Ls(rest')), colour, Ls(rest'))
    {
      hide MarkOk, Marks, Settled, Occurs, Within;
      ghost var c1, l1 := colour, Ls(rest);
      ObjectRefs(heap, c1, l1, {o}, o);
      WithinRefs(heap, colour, u, o);
      WithinMark(heap, colour, u, o, Gray);
      OpenRecolour(heap, c1, l1, {o}, o, Gray);
      grayagain := [o] + grayagain;
      colour := colour[o := Gray];
      ghost var c2 := colour;
      if phase.InsideAtomic? {
        rest' := rest;
        MarkAll(heap[o].refs, rest, {o}, u);
        ThreadSettled(heap, c2, l1, colour, Ls(rest), o);
        CloseLast(heap, colour, Ls(rest), o);
      } else {
        LinkRest(heap, c2, l1, o);
        rest' := grayagain;
        MarkAll(heap[o].refs, rest', {}, u);
      }
    }

    /** A table with weak keys: its metatable is marked, it turns gray again, and its contents are visited. */
    method TraverseWeak(o: Id, ghost rest: seq<Id>, ghost c0: Colours, ghost l0: Lists, ghost u: set<Id>) returns (ghost rest': seq<Id>)
      requires Marking(rest, {o}) && o in heap && heap[o].Ephemeron? && Occurs(Ls(rest), o) == 0
      requires l0.gray != [] && l0.gray[0] == o && o in c0 && c0[o].Gray? && colour == c0[o := Black] && gray == l0.gray[1..]
      requires if phase.Propagate? then !final && rest == grayagain else final
      requires Within(heap, colour, u) && o in u
      modifies this`colour, this`gray, this`grayagain, this`ephemeron, this`allweak
      ensures Within(heap, colour, u)
      ensures Marking(rest', {}) && rest' == if phase.Propagate? then [o] + rest else rest
      ensures grayagain == if phase.Propagate? then [o] + old(grayagain) else old(grayagain)
      ensures Further(c0, colour) && (phase.Propagate? ==> ephemeron == old(ephemeron) && allweak == old(allweak))
      ensures Whites(colour) < Whites(c0) || (Whites(colour) == Whites(c0) && |gray| < |l0.gray|)
      ensures ephemeron == old(ephemeron) || (ephemeron == [o] + old(ephemeron) && Pending(heap, c0, heap[o].entries))
      ensures !phase.Propagate? && Lasting(heap, u, heap[o].entries) ==> ephemeron == [o] + old(ephemeron)
      ensures !phase.Propagate? && Prompt(heap, c0, o) ==> ephemeron == [o] + old(ephemeron)
      ensures GrayKept(c0, l0.gray[1..], gray) && StrongMarked(colour, heap[o])
    {
      hide MarkOk, Marks, Occurs, OnlyStrings, Settled, Further, Whites, Darker, Within, Pending, Lasting, GrayKept, WhiteWhite, StrongMarked;
      ghost var c1, l1 := colour, Ls(rest);
      ObjectRefs(heap, c1, l1, {o}, o);
      WithinRefs(heap, colour, u, o);
      MarkN(heap[o].meta, rest, {o}, u);
      ghost var c2, l2 := colour, Ls(rest);
      StillGray(c1, l1, c2, l2, o);
      OpenRecolour(heap, c2, l2, {o}, o, Gray);
      WithinMark(heap, colour, u, o, Gray);
      colour := colour[o := Gray];
      Progress(c0, l0, c1, l1, c2, l2);
      ghost var c3, g3 := colour, gray;
      GrayFrom(heap, c1, l1, c2, l2, {o});
      RegrayWhites(c0, c1, c2, l1, l2, o);
      PromptStill(heap, c0, c1, o);
      PendingBack(heap, c0, c3, heap[o].entries);
      var marked;
      marked, rest' := TraverseEphemeron(o, rest, u);
      GrayKeptTrans(c0, c1, c3, l1.gray, g3, gray);
      EphemeronProgress(heap, c0, l0, c2, l2, o, marked, colour, gray);
    }

    /** Visits the first gray object, blackening it unless it is a thread or a weak table. */
    method PropagateMark(ghost rest: seq<Id>, ghost u: set<Id>) returns (ghost rest': seq<Id>)
      requires Marking(rest, {}) && gray != []
      requires if phase.Propagate? then !final && rest == grayagain else final && (!phase.InsideAtomic? ==> rest == grayagain)
      requires Within(heap, colour, u)
      modifies this`colour, this`gray, this`grayagain, this`ephemeron, this`allweak
      ensures Within(heap, colour, u)
      ensures Marking(rest', {}) && Further(old(colour), colour)
      ensures rest' == if phase.InsideAtomic? then rest else grayagain
      ensures phase.Propagate? ==> ephemeron == old(ephemeron) && allweak == old(allweak)
      ensures Whites(colour) < old(Whites(colour)) || (Whites(colour) == old(Whites(colour)) && |gray| < |old(gray)|)
      ensures var o := old(gray)[0];
              && GrayKept(old(colour), old(gray)[1..], gray)
              && (grayagain == old(grayagain) || (o in heap && !heap[o].Closure? && grayagain == [o] + old(grayagain)))
              && (ephemeron == old(ephemeron) || Filed(heap, old(colour), o, old(ephemeron), ephemeron))
              && (!phase.Propagate? && (Stuck(heap, u, o) || Prompt(heap, old(colour), o)) ==> ephemeron == [o] + old(ephemeron))
              && o in heap && StrongMarked(colour, heap[o])
    {
      hide MarkOk, Marks, Occurs, OnlyStrings, Settled, Further, Within, Whites, Pending, Lasting, GrayKept, WhiteWhite, StrongMarked;
      ghost var c0, l0 := colour, Ls(rest);
      var o := gray[0];
      PopGray(heap, c0, l0);
      WithinHas(heap, colour, u, o);
      WithinMark(heap, colour, u, o, Black);
      colour := colour[o := Black];
      gray := gray[1..];
      ghost var c1, l1 := colour, Ls(rest);
      rest' := rest;
      match heap[o] {
        case Thread(_) =>
          rest' := TraverseThread(o, rest, u);
          Progress(c0, l0, c1[o := Gray], l1.(rest := rest'), colour, Ls(rest'));
          GrayFrom(heap, c1[o := Gray], l1.(rest := rest'), colour, Ls(rest'), {});
          SameWhites(c0, o, Gray);
        case Ephemeron(_, _, _) =>
          rest' := TraverseWeak(o, rest, c0, l0, u);
        case Table(_, _) =>
          TraverseStrong(o, rest, u);
          Progress(c0, l0, c1, l1, colour, Ls(rest));
          GrayFrom(heap, c1, l1, colour, Ls(rest), {});
          SameWhites(c0, o, Black);
        case Closure(_) =>
          TraverseStrong(o, rest, u);
          Progress(c0, l0, c1, l1, colour, Ls(rest));
          GrayFrom(heap, c1, l1, colour, Ls(rest), {});
          SameWhites(c0, o, Black);
      }
    }

    /** `propagateall`. If no table that may be visited has an entry with both ends white, none is filed; a listed
        table with an entry that this pass cannot mark at either end is. */
    method PropagateAll(ghost rest: seq<Id>, ghost u: set<Id>) returns (ghost rest': seq<Id>)
      requires Marking(rest, {})
      requires final && (phase.Atomic? ==> rest == grayagain)
      requires phase.Atomic? || phase.InsideAtomic?
      requires Within(heap, colour, u)
      modifies this`colour, this`gray, this`grayagain, this`ephemeron, this`allweak
      ensures Within(heap, colour, u)
      ensures Marking(rest', {}) && Further(old(colour), colour) && gray == []
      ensures rest' == if phase.InsideAtomic? then rest else grayagain
      ensures Calm(heap, old(colour), old(gray), u) || CalmAfter(heap, old(colour), old(gray), u) ==> ephemeron == old(ephemeron)
      ensures forall t :: t in old(gray) && Stuck(heap, u, t) ==> t in ephemeron
      ensures old(gray) != [] && Prompt(heap, old(colour), old(gray)[0]) ==> old(gray)[0] in ephemeron
    {
      hide MarkOk, Within, Pending, Lasting, GrayKept, Calm, CalmAfter, Stuck, Filed, Whites, Further, StrongMarked, WhiteWhite, Prompt;
      ghost var c0, g0, e0 := colour, gray, ephemeron;
      rest' := rest;
      FurtherSelf(c0);
      while gray != []
        invariant Marking(rest', {}) && Further(c0, colour) && Within(heap, colour, u)
        invariant rest' == if phase.InsideAtomic? then rest else grayagain
        invariant Calm(heap, c0, g0, u) ==> ephemeron == e0 && Calm(heap, colour, gray, u)
        invariant CalmAfter(heap, c0, g0, u) ==> ephemeron == e0 && ((gray == g0 && colour == c0) || Calm(heap, colour, gray, u))
        invariant forall t :: t in g0 && Stuck(heap, u, t) ==> t in gray || t in ephemeron
        invariant g0 != [] && Prompt(heap, c0, g0[0]) ==> (gray == g0 && colour == c0) || g0[0] in ephemeron
        decreases Whites(colour), |gray|
      {
        ghost var c, g, e := colour, gray, ephemeron;
        WithinGray(heap, c, Ls(rest'), u);
        rest' := PropagateMark(rest', u);
        FurtherTrans(c0, c, colour);
        OneVisit(heap, c, g, e, colour, gray, ephemeron, u);
      }
    }

    /** One pass over the tables that still have an entry with both ends white. */
    method ConvergeRound(ghost u: set<Id>) returns (changed: bool)
      requires Marking([], {}) && gray == [] && final && phase.InsideAtomic?
      requires Within(heap, colour, u)
      modifies this`colour, this`gray, this`grayagain, this`ephemeron, this`allweak
      ensures Within(heap, colour, u)
      ensures Marking([], {}) && gray == [] && Further(old(colour), colour)
      ensures if changed then Whites(colour) < old(Whites(colour)) else Whites(colour) <= old(Whites(colour))
      ensures !changed ==> AllConverged(heap, colour, ephemeron)
    {
      hide MarkOk, Occurs, OnlyStrings, Further, Whites, Darker, StrongMarked, Ready, AllConverged, Within;
      ghost var c0 := colour;
      EphemeronsAgain(heap, colour, Ls([]));
      var next := ephemeron;
      ephemeron := [];
      changed := false;
      FurtherSelf(c0);
      AllConvergedNone(heap, colour);
      while next != []
        invariant Marking(next, {}) && gray == [] && Further(c0, colour) && Ready(heap, colour, next) && Within(heap, colour, u)
        invariant if changed then Whites(colour) < Whites(c0) else Whites(colour) <= Whites(c0)
        invariant !changed ==> AllConverged(heap, colour, ephemeron)
        decreases |next|
      {
        ghost var c1, l1 := colour, Ls(next);
        var w := next[0];
        PopRest(heap, colour, l1);
        WithinHas(heap, colour, u, w);
        ReadyNext(heap, colour, next);
        next := next[1..];
        ghost var rest';
        var marked;
        marked, rest' := TraverseEphemeron(w, next, u);
        RoundStep(heap, c0, c1, colour, next, marked);
        if marked {
          ghost var c2 := colour;
          rest' := PropagateAll(next, u);
          FurtherStep(heap, c0, c2, colour, next);
          changed := true;
        } else if !changed {
          StillConverged(heap, c1, l1, colour, w, ephemeron);
        }
      }
    }

    /** `convergeephemerons`: repeats until a pass marks nothing. */
    method ConvergeEphemerons(ghost u: set<Id>)
      requires Marking([], {}) && gray == [] && final && phase.InsideAtomic?
      requires Within(heap, colour, u)
      modifies this`colour, this`gray, this`grayagain, this`ephemeron, this`allweak
      ensures Within(heap, colour, u)
      ensures Marking([], {}) && gray == [] && Further(old(colour), colour)
      ensures AllConverged(heap, colour, ephemeron)
    {
      hide MarkOk, Whites, AllConverged, Within;
      var changed := true;
      while changed
        invariant Marking([], {}) && gray == [] && Further(old(colour), colour) && Within(heap, colour, u)
        invariant !changed ==> AllConverged(heap, colour, ephemeron)
        decreases Whites(colour), if changed then 1 else 0
      {
        changed := ConvergeRound(u);
      }
    }

    /** Removes from a weak table the entries whose key was not marked. */
    method ClearTable(o: Id)
      requires Marking([], {}) && o in heap && heap[o].Ephemeron? && StringsMarked(heap, colour, heap[o].entries)
      modifies this`heap, this`colour, this`gray
      ensures heap == old(heap)[o := old(heap)[o].(entries := Uncleared(colour, old(heap)[o].entries))]
      ensures colour == old(colour) && gray == old(gray)
    {
      hide MarkOk, Marks, OnlyStrings, Within;
      EphemeronRefs(heap, colour, Ls([]), {}, o);
      KeysSame(heap, colour, Ls([]), {});
      WithinAll(heap, colour, Ls([]), {});
      var es := heap[o].entries;
      var kept: seq<Entry> := [];
      for i := 0 to |es|
        invariant heap == old(heap) && colour == old(colour) && gray == old(gray)
        invariant kept == Uncleared(colour, es[..i])
      {
        assert es[i] in es && es[..i + 1][..i] == es[..i];
        assert StringKey(heap, es[i]) ==> KeyMarked(colour, es[i]);
        var cleared := IsCleared(es[i].key, [], {}, heap.Keys);
        if !cleared {
          kept := kept + [es[i]];
        }
      }
      assert es[..|es|] == es;
      heap := heap[o := heap[o].(entries := kept)];
    }

    /** `clearkeys`, over one list. */
    method ClearKeys(list: seq<Id>, ghost h0: Heap, ghost before: seq<Id>)
      requires Finished(h0, colour, Ls([])) && gray == []
      requires heap == ClearedHeap(h0, colour, before)
      requires forall o :: o in list ==> o in ephemeron || o in allweak
      modifies this`heap, this`colour, this`gray
      ensures heap == ClearedHeap(h0, colour, before + list) && colour == old(colour) && gray == []
    {
      hide Finished, Uncleared;
      assert before + [] == before;
      for i := 0 to |list|
        invariant heap == ClearedHeap(h0, colour, before + list[..i]) && colour == old(colour) && gray == []
      {
        assert list[i] in list;
        ClearedStill(h0, colour, Ls([]), before + list[..i], list[i]);
        ClearTable(list[i]);
        ClearedOne(h0, colour, before + list[..i], list[i]);
        assert before + list[..i] + [list[i]] == before + list[..i + 1];
      }
      assert list[..|list|] == list;
    }

    // -------------------------------------------------------------------------------------------
    // The state between two steps
    // -------------------------------------------------------------------------------------------

    ghost function Roots(): set<Id>
      reads this`running, this`globals
    {
      RootSet(mainthread, running, globals)
    }

    /** While the tri-colour invariant is kept. */
    ghost predicate Incremental()
      reads this`heap, this`colour, this`gray, this`grayagain, this`ephemeron, this`allweak, this`final, this`phase
    {
      && ephemeron == [] && allweak == [] && !final && Marking(grayagain, {})
      && NonWhite(colour, mainthread) && (phase.Propagate? ==> gray != []) && NoClosures(heap, grayagain)
    }

    ghost predicate Valid()
      reads this
    {
      && Sound(heap, colour, currentwhite, mainthread, running, globals, done, todo)
      && Stage(phase, colour, currentwhite, done, todo, mainthread)
      && (KeepInvariant(phase) ==> Incremental())
    }

    /** A new state: only the main thread, nothing marked. */
    constructor (main: Id)
      ensures Valid() && phase.Pause? && mainthread == main && heap == map[main := Thread([])] && Roots() == {main}
      ensures running == main && globals == [] && !currentwhite && !final
      ensures gray == grayagain == ephemeron == allweak == done == todo == []
    {
      heap, colour := map[main := Thread([])], map[main := White(false)];
      gray, grayagain, ephemeron, allweak := [], [], [], [];
      phase, currentwhite, done, todo := Pause, false, [], [];
      mainthread, running, globals, final := main, main, [], false;
    }

    /** A thread, the registry and the metatables of the basic types. */
    method MarkRoots(t: Id, ghost rest: seq<Id>, ghost u: set<Id>)
      requires Marking(rest, {}) && t in heap && forall i :: 0 <= i < |globals| ==> globals[i] in heap
      requires Within(heap, colour, u) && t in u && (forall i :: 0 <= i < |globals| ==> globals[i] in u)
      modifies this`colour, this`gray
      ensures Within(heap, colour, u)
      ensures Marking(rest, {}) && Darker(old(colour), colour)
      ensures NonWhite(colour, t) && forall i :: 0 <= i < |globals| ==> NonWhite(colour, globals[i])
    {
      hide MarkOk, Marks, Whites, Darker, Within;
      ghost var c0, l0 := colour, Ls(rest);
      MarkN(Some(t), rest, {}, u);
      ghost var c1, l1 := colour, Ls(rest);
      MarkAll(globals, rest, {}, u);
      MarkedStays(c1, l1, colour, Ls(rest));
      MarksTrans(c0, l0, c1, l1, colour, Ls(rest));
      MarksDarker(c0, l0, colour, Ls(rest));
    }

    /** `restartcollection`: the roots are marked. */
    method RestartCollection(ghost k: set<Id>)
      requires Valid() && phase.Pause?
      modifies this`colour, this`gray, this`grayagain, this`ephemeron, this`allweak, this`phase, this`final
      ensures Valid() && phase.Propagate? && Marked(colour) <= Kept(heap, Roots())
      ensures forall i :: 0 <= i < |globals| ==> NonWhite(colour, globals[i])
      ensures old(Tight(k)) ==> Tight(k)
    {
      hide MarkOk, Sound, Darker, NoDead, AllWhite, Within, Kept, Marked, RootSet, Closed;
      ghost var c0 := colour;
      MarkAfresh(Kept(heap, Roots()));
      StartWithin(heap, colour, Roots(), k);
      Restarted(heap, c0, colour, currentwhite, mainthread, running, globals, done, Ls([]));
      phase := Propagate;
    }

    /** From a state in which nothing is marked. */
    method MarkAfresh(ghost u: set<Id>)
      requires Valid() && phase.Pause? && u == Kept(heap, Roots())
      modifies this`colour, this`gray, this`grayagain, this`ephemeron, this`allweak, this`final
      ensures Marking([], {}) && Darker(old(colour), colour) && Marked(colour) <= u
      ensures grayagain == [] && ephemeron == [] && allweak == [] && !final && NonWhite(colour, mainthread)
      ensures forall i :: 0 <= i < |globals| ==> NonWhite(colour, globals[i])
    {
      hide MarkOk, Sound, Darker, NoDead, AllWhite, Within, Kept, Marked, RootSet, Closed;
      UnmarkedOk(heap, colour, currentwhite, mainthread, running, globals, done, todo);
      gray, grayagain, ephemeron, allweak, final := [], [], [], [], false;
      UnmarkedWithin(heap, colour, currentwhite, mainthread, running, globals, done, Ls([]));
      MarkRoots(mainthread, [], u);
      WithinOnly(heap, colour, u);
    }

    /** The first thing the atomic step does: what a barrier marked since propagation ended is visited. The code then
        asserts that no ephemeron table is listed. That holds if no table that may be visited has an entry with both
        ends white, so whenever nothing waits in `gray`, or only such entries whose keys the first in `gray`, a closure
        or a strong table, refers to; it fails if a table in `gray` has an entry that neither
        end of which is kept alive by what is marked, or if the first in `gray` is a table whose first entry has both ends
        white and that holds nothing else to mark before. Between the two the order of the list decides, as `TableFirst`
        and `ClosureFirst` show: no condition on objects and colours alone is exact. */
    method EmptyGray(ghost u: set<Id>)
      requires Valid() && phase.Atomic? && Within(heap, colour, u)
      modifies this`colour, this`gray, this`grayagain, this`ephemeron, this`allweak, this`final
      ensures Within(heap, colour, u) && Marking(grayagain, {}) && gray == [] && final && Further(old(colour), colour)
      ensures old(gray) == [] || Calm(heap, old(colour), old(gray), u) || CalmAfter(heap, old(colour), old(gray), u) ==> ephemeron == []
      ensures (exists t :: t in old(gray) && Stuck(heap, u, t)) ==> ephemeron != []
      ensures old(gray) != [] && Prompt(heap, old(colour), old(gray)[0]) ==> ephemeron != []
    {
      hide MarkOk, Sound, Further, Within, Calm, CalmAfter, Stuck, Prompt;
      ghost var c0 := colour;
      AtomicReady(heap, colour, currentwhite, mainthread, running, globals, done, Ls(grayagain));
      final := true;
      if gray != [] {
        ghost var rest := PropagateAll(grayagain, u);
      } else {
        FurtherSelf(colour);
      }
    }

    /** The marking part of the atomic step. What a barrier marked since propagation ended is visited first, then
        the roots, then every object that was kept to be visited again. */
    method AtomicMark(ghost u: set<Id>)
      requires Valid() && phase.Atomic?
      requires Within(heap, colour, u) && Roots() <= u
      modifies this`colour, this`gray, this`grayagain, this`ephemeron, this`allweak, this`phase, this`final
      ensures Within(heap, colour, u)
      ensures phase.InsideAtomic? && gray == [] && final && Finished(heap, colour, Ls([]))
      ensures Further(old(colour), colour) && RootsMarked(colour, mainthread, running, globals)
    {
      hide MarkOk, Sound, Further, Darker, RootsMarked, AllConverged, Within;
      ghost var c0 := colour;
      AtomicRoots(heap, colour, currentwhite, mainthread, running, globals, done);
      EmptyGray(u);
      ghost var c1 := colour;
      var saved := grayagain;
      phase := InsideAtomic;
      MarkRoots(running, saved, u);
      RootsNow(c0, c1, colour, mainthread, running, globals);
      ghost var c2 := colour;
      VisitSaved(saved, u);
      RootsStay(c0, c2, colour, mainthread, running, globals);
    }

    /** The gray list, the saved list, then the ephemeron tables; twice, as finalizers might have marked more. */
    method VisitSaved(saved: seq<Id>, ghost u: set<Id>)
      requires Marking(saved, {}) && final && phase.InsideAtomic?
      requires Within(heap, colour, u)
      modifies this`colour, this`gray, this`grayagain, this`ephemeron, this`allweak
      ensures Within(heap, colour, u)
      ensures gray == [] && Finished(heap, colour, Ls([])) && Further(old(colour), colour)
    {
      hide MarkOk, AllConverged, Within;
      ghost var rest := PropagateAll(saved, u);
      RestToGray(heap, colour, Ls(saved));
      gray := saved;
      rest := PropagateAll([], u);
      ConvergeEphemerons(u);
      rest := PropagateAll([], u);
      ConvergeEphemerons(u);
    }

    /** The atomic step up to and including the flip of the white. */
    method AtomicPhase()
      requires Valid() && phase.Atomic?
      modifies this`heap, this`colour, this`gray, this`grayagain, this`ephemeron, this`allweak, this`phase, this`final, this`currentwhite
      ensures Sound(heap, colour, currentwhite, mainthread, running, globals, done, []) && phase.InsideAtomic? && !final
      ensures heap == ClearedHeap(old(heap), colour, ephemeron + allweak) && currentwhite == !old(currentwhite)
      ensures Roots() <= Marked(colour) && Closed(old(heap), Marked(colour)) && ClosedUnderAll(heap, Marked(colour))
      ensures forall o :: Live(colour, currentwhite, o) <==> o in Marked(colour)
      ensures Marked(colour) == Kept(old(heap), old(Marked(colour)) + Roots())
    {
      hide MarkOk, Sound, Further, RootsMarked, AllConverged, Closed, ClosedUnderAll, Marked, ClearedHeap, Live, NoDead, Within, Kept, RootSet;
      ghost var c0, h0, s := colour, heap, Marked(colour) + Roots();
      SourcesInHeap(heap, colour, currentwhite, mainthread, running, globals, done, Ls(grayagain));
      KeptWithin(heap, colour, Ls(grayagain), s);
      AtomicMark(Kept(h0, s));
      MarkedClosed(h0, colour, Ls([]));
      MarkedGrows(c0, colour);
      RootsAreMarked(colour, mainthread, running, globals);
      MarkedExactly(h0, colour, s);
      ClearedClosed(h0, colour, Ls([]));
      ClearedEmpty(h0, colour);
      ClearKeys(ephemeron, h0, []);
      assert [] + ephemeron == ephemeron;
      ClearKeys(allweak, h0, ephemeron);
      currentwhite := !currentwhite;
      final := false;
      Flipped(h0, c0, colour, currentwhite, mainthread, running, globals, done, Ls([]));
    }

    /** `sweeplist`: at most `count` objects; the dead are freed, the others turn to the current white. */
    method SweepList(count: nat) returns (ghost m: nat)
      requires Valid() && phase.SwpAllgc?
      modifies this`heap, this`colour, this`done, this`todo
      ensures Valid()
      ensures m == (if count < |old(todo)| then count else |old(todo)|) && todo == old(todo)[m..]
      ensures done == old(done) + Survivors(old(colour), currentwhite, old(todo)[..m])
      ensures heap == SweptHeap(old(heap), old(colour), currentwhite, old(todo)[..m])
      ensures colour == SweptColours(old(colour), currentwhite, old(todo)[..m])
    {
      hide Sound, SweptHeap, SweptColours, Survivors, Live, Marking;
      ghost var h0, c0, t0 := heap, colour, todo;
      var n := 0;
      SweptNone(heap, colour, currentwhite);
      while todo != [] && n < count
        invariant 0 <= n <= |t0| && n <= count && todo == t0[n..]
        invariant done == old(done) + Survivors(c0, currentwhite, t0[..n])
        invariant heap == SweptHeap(h0, c0, currentwhite, t0[..n]) && colour == SweptColours(c0, currentwhite, t0[..n])
        invariant Valid() && phase.SwpAllgc?
        decreases |t0| - n
      {
        ghost var w := currentwhite;
        var curr := todo[0];
        assert t0[..n + 1] == t0[..n] + [curr] && todo[1..] == t0[n + 1..];
        SweepFirst(h0, c0, w, mainthread, running, globals, done, t0, n);
        if colour[curr] == White(!currentwhite) {
          heap, colour := heap - {curr}, colour - {curr};
        } else {
          colour := colour[curr := White(currentwhite)];
          done := done + [curr];
        }
        todo := todo[1..];
        n := n + 1;
      }
      m := n;
    }

    /** `entersweep`: from a flipped white, or from an abandoned cycle in which nothing is dead. The first object is
        swept at once, so that `sweepgc` points into the list where possible. */
    method EnterSweep() returns (ghost m: nat)
      requires Sound(heap, colour, currentwhite, mainthread, running, globals, done, todo) && todo == []
      modifies this`heap, this`colour, this`done, this`todo, this`phase
      ensures Valid() && phase.SwpAllgc?
      ensures m == (if old(done) == [] then 0 else 1) && heap == SweptHeap(old(heap), old(colour), currentwhite, old(done)[..m])
      ensures colour == SweptColours(old(colour), currentwhite, old(done)[..m])
    {
      hide Sound, SweptHeap, SweptColours;
      todo, done := done, [];
      phase := SwpAllgc;
      ListedAgain(heap, colour, currentwhite, mainthread, running, globals, todo);
      m := SweepList(1);
    }

    /** Nothing outside `k` is marked in this cycle, or has survived it. */
    ghost predicate Tight(k: set<Id>)
      reads this
    {
      if phase.Pause? then Closed(heap, k) && Roots() <= k
      else if KeepInvariant(phase) then Within(heap, colour, k) && Roots() <= k
      else LiveIn(colour, currentwhite, k)
    }

    /** `singlestep`. An object that the roots reach is not freed, and all it loses is weak entries with
        unreachable keys. A cycle that was tight stays so, and each step brings its end nearer. */
    method SingleStep(sweepMax: nat, ghost k: set<Id>)
      requires Valid()
      modifies this
      ensures Valid() && running == old(running) && globals == old(globals)
      ensures Lossless(old(heap), Roots(), heap) && (!old(phase).Atomic? ==> Part(heap, old(heap)))
      ensures old(Tight(k)) && !old(phase).CallFin? ==> Tight(k)
      ensures 0 < sweepMax ==> Nearer(old(phase), old(colour), old(gray), old(todo), phase, colour, gray, todo)
    {
      hide Sound, Lossless, MarkOk, Closed, Within, LiveIn, AllWhite, NoDead, Whites, RootSet;
      LosslessSelf(heap, Roots());
      match phase {
        case Pause =>
          RestartCollection(k);
        case Propagate =>
          PropagateStep(k);
        case Atomic =>
          AtomicStep(k);
        case SwpAllgc =>
          SweepStep(sweepMax, k);
        case SwpFinobj =>
          phase := SwpTobefnz;
        case SwpTobefnz =>
          phase := SwpEnd;
        case SwpEnd =>
          MainWhite(heap, colour, currentwhite, mainthread, running, globals, done);
          MainLiveIn(heap, colour, currentwhite, mainthread, running, globals, done, todo, k);
          colour := colour[mainthread := White(currentwhite)];
          phase := CallFin;
        case CallFin =>
          phase := Pause;
      }
    }

    /** One object is visited; with the last one the phase ends. */
    method PropagateStep(ghost k: set<Id>)
      requires Valid() && phase.Propagate?
      modifies this`colour, this`gray, this`grayagain, this`ephemeron, this`allweak, this`phase
      ensures Valid() && KeepInvariant(phase) && Marked(colour) <= Kept(heap, old(Marked(colour)))
      ensures Further(old(colour), colour) && (phase.Atomic? ==> gray == [])
      ensures old(Tight(k)) ==> Tight(k)
      ensures Nearer(old(phase), old(colour), old(gray), todo, phase, colour, gray, todo)
    {
      hide Sound, MarkOk, Further, NoDead, Within, Kept, Marked, Whites, RootSet;
      ghost var c0, u := colour, Kept(heap, Marked(colour));
      MarkedInHeap(heap, colour, Ls(grayagain));
      KeptWithin(heap, colour, Ls(grayagain), Marked(colour));
      ghost var rest := PropagateMark(grayagain, u);
      WithinOnly(heap, colour, u);
      WithinStays(heap, c0, colour, Marked(c0), k);
      StillSound(heap, c0, colour, currentwhite, mainthread, running, globals, done);
      if gray == [] {
        phase := Atomic;
      }
    }

    method AtomicStep(ghost k: set<Id>)
      requires Valid() && phase.Atomic?
      modifies this
      ensures Valid() && phase.SwpAllgc? && running == old(running) && globals == old(globals)
      ensures Lossless(old(heap), Roots(), heap)
      ensures old(Tight(k)) ==> Tight(k)
    {
      hide Sound, Reachable, KeptWhole, MarkOk, Closed, ClosedUnderAll, Live, Marked, Within, Kept, RootSet, SweptHeap, SweptColours;
      ghost var h0, c0 := heap, colour;
      AtomicPhase();
      ghost var h1, c1, s := heap, colour, ephemeron + allweak;
      ghost var d1 := done;
      ghost var n := EnterSweep();
      CollectedSafely(h0, c1, currentwhite, Roots(), s, d1[..n]);
      AtomicTight(h0, c0, c1, currentwhite, Roots(), k);
      SweptLiveIn(c1, currentwhite, d1[..n], k);
    }

    /** `sweepstep` over the one list that holds objects here; the phase ends when the list does. */
    method SweepStep(sweepMax: nat, ghost k: set<Id>)
      requires Valid() && phase.SwpAllgc?
      modifies this`heap, this`colour, this`done, this`todo, this`phase
      ensures Valid()
      ensures Lossless(old(heap), Roots(), heap) && Part(heap, old(heap))
      ensures old(Tight(k)) ==> Tight(k)
      ensures 0 < sweepMax ==> Nearer(old(phase), old(colour), gray, old(todo), phase, colour, gray, todo)
      ensures todo == old(todo)[if sweepMax < |old(todo)| then sweepMax else |old(todo)|..]
      ensures phase == if todo == [] then SwpFinobj else SwpAllgc
    {
      hide Sound, Reachable, KeptWhole, Survivors, AllWhite, SweptColours, LiveIn;
      ghost var h0, c0, t0 := heap, colour, todo;
      ghost var n := SweepList(sweepMax);
      SweptSafely(h0, c0, currentwhite, mainthread, running, globals, old(done), t0, n);
      SweptLiveIn(c0, currentwhite, t0[..n], k);
      if todo == [] {
        AllSwept(heap, colour, currentwhite, mainthread, running, globals, done);
        phase := SwpFinobj;
      }
    }

    /** `luaC_runtilstate`, for the two states a full collection runs to. */
    method RunUntil(stop: Phase, sweepMax: nat, ghost k: set<Id>)
      requires Valid() && 0 < sweepMax && (stop.Pause? || (stop.CallFin? && !phase.Pause?))
      modifies this
      ensures Valid() && phase == stop && running == old(running) && globals == old(globals)
      ensures Lossless(old(heap), Roots(), heap) && (Ahead(old(phase)) < Ahead(Atomic) ==> Part(heap, old(heap)))
      ensures stop.CallFin? && old(Tight(k)) ==> Tight(k)
    {
      hide Sound, Lossless, MarkOk, Closed, Within, LiveIn, AllWhite, NoDead, RootSet, Kept, Part, Stage, Tight, Incremental;
      ghost var h0 := heap;
      LosslessSelf(heap, Roots());
      PartSelf(heap);
      RootsKept(heap, colour, currentwhite, mainthread, running, globals, done, todo);
      while phase != stop
        invariant Valid() && running == old(running) && globals == old(globals) && (phase.Pause? ==> stop.Pause?)
        invariant Lossless(h0, Roots(), heap) && Ahead(phase) <= Ahead(old(phase))
        invariant Ahead(old(phase)) < Ahead(Atomic) ==> Part(heap, h0)
        invariant stop.CallFin? && old(Tight(k)) ==> Tight(k)
        decreases Ahead(phase), if phase.Propagate? then Whites(colour) else {}, if phase.Propagate? then |gray| else |todo|
      {
        ghost var h1 := heap;
        SingleStep(sweepMax, k);
        LosslessTrans(h0, h1, heap, Roots());
        if Ahead(old(phase)) < Ahead(Atomic) {
          PartTrans(h0, h1, heap);
        }
      }
    }

    /** `luaC_fullgc`: what is left are exactly the objects that the roots keep alive, whole. */
    method FullCollection(sweepMax: nat)
      requires Valid() && 0 < sweepMax
      modifies this
      ensures Valid() && phase.Pause? && running == old(running) && globals == old(globals)
      ensures heap.Keys == Kept(old(heap), Roots()) && Lossless(old(heap), Roots(), heap)
    {
      hide Sound, Lossless, MarkOk, Closed, Within, LiveIn, AllWhite, NoDead, RootSet, Kept, Part, Stage, Incremental;
      ghost var h0 := heap;
      RootsKept(heap, colour, currentwhite, mainthread, running, globals, done, todo);
      PartSelf(heap);
      if KeepInvariant(phase) {
        AbandonCycle();
      }
      RunUntil(Pause, sweepMax, {});
      ghost var h1, k := heap, Kept(heap, Roots());
      RootsKept(heap, colour, currentwhite, mainthread, running, globals, done, todo);
      SameKept(h0, h1, Roots());
      SingleStep(sweepMax, k);
      ghost var h2 := heap;
      RunUntil(CallFin, sweepMax, k);
      LosslessTrans(h1, h2, heap, Roots());
      LosslessTrans(h0, h1, heap, Roots());
      OnlyKept(phase, heap, colour, currentwhite, mainthread, running, globals, done, todo, k);
      ghost var h3 := heap;
      RunUntil(Pause, sweepMax, {});
      LosslessTrans(h0, h3, heap, Roots());
      PartKept(h0, h3, heap, Roots());
    }

    /** A full collection gives up a cycle in its marking phase: the sweep that follows frees nothing. */
    method AbandonCycle()
      requires Valid() && KeepInvariant(phase)
      modifies this`heap, this`colour, this`done, this`todo, this`phase
      ensures Valid() && phase.SwpAllgc? && heap == old(heap)
    {
      hide Sound, MarkOk;
      ghost var c0 := colour;
      ghost var m := EnterSweep();
      NothingDead(old(heap), c0, currentwhite, mainthread, running, globals, old(done), old(done)[..m]);
    }

    /** The tri-colour invariant of every state in which it is to be kept. */
    lemma TriColour(o: Id)
      requires Valid() && KeepInvariant(phase) && o in heap
      ensures o in colour
      ensures colour[o].Black? ==> forall r :: Refers(heap[o], r) ==> NonWhite(colour, r)
      ensures colour[o].Gray? ==> o in gray || o in grayagain
    {
      if colour[o].Black? {
        BlackAllMarked(heap, colour, Ls(grayagain), o);
      }
    }

    // -------------------------------------------------------------------------------------------
    // The mutator
    // -------------------------------------------------------------------------------------------

    /** `luaC_newobj`: a white object in front of the list of all objects, with a reference left on the stack of
        the running thread. It is in front of `sweepgc` too if nothing swept so far has survived. */
    method NewObject(o: Id, ob: Object)
      requires Valid() && o !in heap && forall r: Id :: Refers(ob, r) ==> Accessible(heap, Roots(), r)
      modifies this`heap, this`colour, this`done, this`todo
      ensures Valid() && running in old(heap) && old(heap)[running].Thread?
      ensures heap == old(heap)[o := ob][running := Thread(old(heap)[running].refs + [o])]
      ensures colour == old(colour)[o := White(currentwhite)]
      ensures if old(todo) != [] && old(done) == [] then todo == [o] + old(todo) && done == [] else done == [o] + old(done) && todo == old(todo)
    {
      hide Sound, MarkOk, Accessible, Live, AllWhite, NoDead;
      Allocated(heap, colour, currentwhite, mainthread, running, globals, done, todo, o, ob);
      WhiteStage(phase, colour, currentwhite, mainthread, done, todo, o);
      if KeepInvariant(phase) {
        AllocatedMark(heap, colour, currentwhite, Ls(grayagain), mainthread, running, globals, done, todo, o, ob);
      }
      heap := heap[o := ob][running := Thread(heap[running].refs + [o])];
      colour := colour[o := White(currentwhite)];
      if todo != [] && done == [] {
        todo := [o] + todo;
      } else {
        done := [o] + done;
      }
    }

    /** Writing a stack takes no barrier. */
    method SetStack(t: Id, refs: seq<Id>)
      requires Valid() && Accessible(heap, Roots(), t) && t in heap && heap[t].Thread?
      requires forall r :: r in refs ==> Accessible(heap, Roots(), r)
      modifies this`heap
      ensures Valid() && heap == old(heap)[t := Thread(refs)]
    {
      hide Sound, MarkOk, Accessible, Live;
      AccessibleAll(heap, colour, currentwhite, mainthread, running, globals, done, todo, Thread(refs));
      Stored(heap, colour, currentwhite, mainthread, running, globals, done, todo, t, Thread(refs));
      if KeepInvariant(phase) {
        ThreadStored(heap, colour, Ls(grayagain), t, Thread(refs));
      }
      heap := heap[t := Thread(refs)];
    }

    /** Neither does changing the registry or switching threads. */
    method SetRoots(t: Id, rs: seq<Id>)
      requires Valid() && Accessible(heap, Roots(), t) && t in heap && heap[t].Thread?
      requires forall r :: r in rs ==> Accessible(heap, Roots(), r)
      modifies this`running, this`globals
      ensures Valid() && running == t && globals == rs
    {
      hide MarkOk, Accessible;
      AccessibleLive(heap, colour, currentwhite, mainthread, running, globals, done, todo, t);
      forall i | 0 <= i < |rs|
        ensures rs[i] in heap && Live(colour, currentwhite, rs[i])
      {
        AccessibleLive(heap, colour, currentwhite, mainthread, running, globals, done, todo, rs[i]);
      }
      running, globals := t, rs;
    }

    /** A table becomes weak or strong by a change in its metatable, which goes without a barrier of its own. */
    method ChangeMode(o: Id, ob: Object)
      requires Valid() && Accessible(heap, Roots(), o) && o in heap
      requires (heap[o].Table? || heap[o].Ephemeron?) && (ob.Table? || ob.Ephemeron?)
      requires forall r: Id :: Refers(ob, r) <==> Refers(heap[o], r)
      modifies this`heap
      ensures Valid() && heap == old(heap)[o := ob]
    {
      hide Sound, MarkOk, Accessible, Refers;
      StoredAccessible(heap, colour, currentwhite, mainthread, running, globals, done, todo, o, ob, None);
      if KeepInvariant(phase) {
        StoredClosed(heap, colour, Ls(grayagain), o, ob, None);
      }
      heap := heap[o := ob];
    }

    /** A store into a table, with `luaC_barrierback`: a black table that now refers to a white object is gray again. */
    method StoreBack(o: Id, ob: Object, v: Option<Id>)
      requires Valid() && Accessible(heap, Roots(), o) && o in heap
      requires (heap[o].Table? && ob.Table?) || (heap[o].Ephemeron? && ob.Ephemeron?)
      requires v.Some? ==> Accessible(heap, Roots(), v.value)
      requires forall r: Id :: Refers(ob, r) ==> Refers(heap[o], r) || v == Some(r)
      modifies this`heap, this`colour, this`grayagain
      ensures Valid() && heap == old(heap)[o := ob]
      ensures if Barred(old(colour), o, v) then colour == old(colour)[o := Gray] && grayagain == [o] + old(grayagain)
              else colour == old(colour) && grayagain == old(grayagain)
    {
      hide Sound, MarkOk, Accessible, Refers, NoDead, AllWhite;
      StoredAccessible(heap, colour, currentwhite, mainthread, running, globals, done, todo, o, ob, v);
      if v.Some? && colour[o].Black? && colour[v.value].White? {
        Recoloured(heap[o := ob], colour, currentwhite, mainthread, running, globals, done, todo, o, Gray);
        RecolouredStage(phase, colour, currentwhite, mainthread, done, todo, o, Gray);
        if KeepInvariant(phase) {
          StoredBack(heap, colour, Ls(grayagain), o, ob);
          MainStays(colour, mainthread, o);
        }
        colour := colour[o := Gray];
        grayagain := [o] + grayagain;
      } else if KeepInvariant(phase) {
        StoredClosed(heap, colour, Ls(grayagain), o, ob, v);
      }
      heap := heap[o := ob];
    }

    /** A store into a closure or a userdata, or of a metatable, with `luaC_barrier`: the white object is marked;
        in a sweep, the black one is whitened instead. */
    method StoreForward(o: Id, ob: Object, v: Option<Id>)
      requires Valid() && Accessible(heap, Roots(), o) && o in heap && SameKind(heap[o], ob) && !ob.Thread? && !ob.Str?
      requires v.Some? ==> Accessible(heap, Roots(), v.value)
      requires forall r: Id :: Refers(ob, r) ==> Refers(heap[o], r) || v == Some(r)
      modifies this`heap, this`colour, this`gray
      ensures Valid() && heap == old(heap)[o := ob]
      ensures KeepInvariant(phase) && Barred(old(colour), o, v) && v.value in heap && Visitable(heap[v.value]) ==>
                colour == old(colour)[v.value := Gray] && gray == [v.value] + old(gray)
      ensures !KeepInvariant(phase) && Barred(old(colour), o, v) ==> colour == old(colour)[o := White(currentwhite)] && gray == old(gray)
      ensures !Barred(old(colour), o, v) ==> colour == old(colour) && gray == old(gray)
    {
      hide Sound, MarkOk, Accessible, Refers, NoDead, AllWhite, Marks, Darker, Within;
      StoredAccessible(heap, colour, currentwhite, mainthread, running, globals, done, todo, o, ob, v);
      if v.Some? && colour[o].Black? && colour[v.value].White? {
        if KeepInvariant(phase) {
          ghost var h0, c0, l0 := heap, colour, Ls(grayagain);
          StoredOpen(h0, c0, l0, o, ob);
          heap := heap[o := ob];
          WithinAll(heap, colour, l0, {o});
          ReallyMark(v.value, grayagain, {o}, heap.Keys);
          StoredForward(h0, c0, l0, colour, Ls(grayagain), o, ob, v.value);
          MarksDarker(c0, l0, colour, Ls(grayagain));
          MainDarker(c0, colour, mainthread);
          DarkerSound(heap, c0, colour, currentwhite, mainthread, running, globals, done, todo);
        } else {
          RecolouredStage(phase, colour, currentwhite, mainthread, done, todo, o, White(currentwhite));
          assert phase.SwpAllgc?;
          Recoloured(heap[o := ob], colour, currentwhite, mainthread, running, globals, done, todo, o, White(currentwhite));
          colour := colour[o := White(currentwhite)];
          heap := heap[o := ob];
        }
      } else {
        if KeepInvariant(phase) {
          StoredClosed(heap, colour, Ls(grayagain), o, ob, v);
        }
        heap := heap[o := ob];
      }
    }
  }

  // ---------------------------------------------------------------------------------------------
  // A run in which an ephemeron table is listed when the atomic step asserts that none is
  // ---------------------------------------------------------------------------------------------

  const PAIR := Entry(Some(2), Some(3))

  /** Propagation has ended with the closure 1 black. The mutator then makes a key, a value and an ephemeron table of
      the pair, stores the table in the closure, and forgets the rest. The barrier marks the table, and the visit that
      begins the atomic step finds both ends of its entry white. */
  method ListedTooSoon() returns (g: GlobalState)
    ensures fresh(g) && g.phase.Atomic? && g.gray == [] && g.ephemeron != []
  {
    hide GlobalState.Valid, Within, Stuck, Calm, CalmAfter, Prompt, Further;
    g := PairMade();
    StorePair(g);
    PairStuck(g.heap, g.colour);
    assert 4 in g.gray;
    g.EmptyGray({0, 1, 4});
  }

  /** From a new state up to the pair and its table. */
  method PairMade() returns (g: GlobalState)
    ensures fresh(g) && g.Valid() && g.phase.Atomic? && g.gray == [] && g.mainthread == 0 && g.running == 0 && !g.currentwhite
    ensures g.heap.Keys == g.colour.Keys == {0, 1, 2, 3, 4} && g.heap[0] == Thread([1, 2, 3, 4])
    ensures g.heap[1] == g.heap[2] == g.heap[3] == Closure([]) && g.heap[4] == Ephemeron(None, [], [PAIR])
    ensures g.colour[0].Gray? && g.colour[1].Black? && g.colour[2] == g.colour[3] == g.colour[4] == White(false)
  {
    hide GlobalState.Valid, RootSet;
    g := new GlobalState(0);
    RootClosure(g);
    BlackClosure(g);
    MakePair(g);
  }

  /** A closure that is a root, up to the start of a cycle. */
  method RootClosure(g: GlobalState)
    requires g.Valid() && g.phase.Pause? && g.mainthread == 0 && g.running == 0 && g.globals == []
    requires g.heap == map[0 := Thread([])]
    modifies g`heap, g`colour, g`done, g`todo, g`running, g`globals
    ensures g.Valid() && g.phase.Pause? && g.running == 0 && g.globals == [1] && g.heap == map[0 := Thread([1]), 1 := Closure([])]
  {
    hide Sound, MarkOk, Accessible, Stage, NoClosures;
    var none: seq<Id> := [];
    assert none + [1] == [1];
    g.NewObject(1, Closure([]));
    assert g.heap == map[0 := Thread([1]), 1 := Closure([])];
    AccessibleRoot(g.heap, g.Roots(), 0);
    FromStack(g.heap, g.Roots(), 1);
    g.SetRoots(0, [1]);
  }

  /** Up to the end of propagation. */
  method BlackClosure(g: GlobalState)
    requires g.Valid() && g.phase.Pause? && g.globals == [1] && g.mainthread == 0 && g.heap == map[0 := Thread([1]), 1 := Closure([])]
    modifies g`colour, g`gray, g`grayagain, g`ephemeron, g`allweak, g`phase, g`final
    ensures g.Valid() && g.phase.Atomic? && g.gray == [] && g.colour.Keys == {0, 1} && g.colour[0].Gray? && g.colour[1].Black?
  {
    hide Sound, MarkOk, Stage, Further, Whites, Marked, Kept, NoClosures;
    g.RestartCollection({});
    assert NonWhite(g.colour, g.globals[0]);
    while g.phase.Propagate?
      invariant g.Valid() && KeepInvariant(g.phase) && (g.phase.Atomic? ==> g.gray == []) && NonWhite(g.colour, 1)
      decreases if g.phase.Propagate? then 1 else 0, Whites(g.colour), |g.gray|
    {
      ghost var c := g.colour;
      g.PropagateStep({});
      FurtherMarked(c, g.colour, 1);
    }
    ClosureBlack(g.heap, g.colour, g.Ls(g.grayagain), 1);
    KeysSame(g.heap, g.colour, g.Ls(g.grayagain), {});
    ThreadGray(g.heap, g.colour, g.Ls(g.grayagain), 0);
  }

  /** The mutator, between the end of propagation and the atomic step: the pair and its table, all white. */
  method MakePair(g: GlobalState)
    requires g.Valid() && g.phase.Atomic? && g.gray == [] && g.mainthread == 0 && g.running == 0 && g.globals == [1]
    requires g.heap == map[0 := Thread([1]), 1 := Closure([])] && g.colour.Keys == {0, 1} && g.colour[1].Black?
    modifies g`heap, g`colour, g`done, g`todo
    ensures g.Valid() && g.heap.Keys == g.colour.Keys == {0, 1, 2, 3, 4} && g.heap[0] == Thread([1, 2, 3, 4])
    ensures g.heap[1] == g.heap[2] == g.heap[3] == Closure([]) && g.heap[4] == Ephemeron(None, [], [PAIR])
    ensures g.colour[0] == old(g.colour)[0] && g.colour[1].Black? && g.colour[2] == g.colour[3] == g.colour[4] == White(g.currentwhite)
  {
    hide Sound, MarkOk, Accessible, Stage, NoClosures;
    g.NewObject(2, Closure([]));
    g.NewObject(3, Closure([]));
    assert g.heap[0] == Thread([1, 2, 3]);
    FromStack(g.heap, g.Roots(), 2);
    FromStack(g.heap, g.Roots(), 3);
    PairRefers();
    g.NewObject(4, Ephemeron(None, [], [PAIR]));
    assert g.heap[0] == Thread([1, 2, 3, 4]);
  }

  lemma PairRefers()
    ensures forall r: Id :: Refers(Ephemeron(None, [], [PAIR]), r) ==> r == 2 || r == 3
  {
  }

  /** The table goes into the closure, and the stack is emptied. */
  method StorePair(g: GlobalState)
    requires g.Valid() && g.phase.Atomic? && g.gray == [] && g.mainthread == 0 && g.running == 0
    requires g.heap.Keys == g.colour.Keys == {0, 1, 2, 3, 4} && g.heap[0] == Thread([1, 2, 3, 4])
    requires g.heap[1] == g.heap[2] == g.heap[3] == Closure([]) && g.heap[4] == Ephemeron(None, [], [PAIR])
    requires g.colour[1].Black? && g.colour[2].White? && g.colour[3].White? && g.colour[4].White?
    modifies g`heap, g`colour, g`gray
    ensures g.Valid() && g.gray == [4] && g.heap.Keys == g.colour.Keys == {0, 1, 2, 3, 4} && g.heap[0] == Thread([])
    ensures g.heap[1] == Closure([4]) && g.heap[2] == g.heap[3] == Closure([]) && g.heap[4] == Ephemeron(None, [], [PAIR])
    ensures g.colour[2].White? && g.colour[3].White?
  {
    hide Sound, MarkOk, Accessible, Stage, NoClosures;
    FromStack(g.heap, g.Roots(), 1);
    FromStack(g.heap, g.Roots(), 4);
    g.StoreForward(1, Closure([4]), Some(4));
    AccessibleRoot(g.heap, g.Roots(), 0);
    g.SetStack(0, []);
  }

  /** One object more: a closure that refers to the key. */
  method MakeClosure(g: GlobalState)
    requires g.Valid() && g.phase.Atomic? && g.gray == [] && g.mainthread == 0 && g.running == 0 && !g.currentwhite
    requires g.heap.Keys == g.colour.Keys == {0, 1, 2, 3, 4} && g.heap[0] == Thread([1, 2, 3, 4])
    requires g.heap[1] == g.heap[2] == g.heap[3] == Closure([]) && g.heap[4] == Ephemeron(None, [], [PAIR])
    requires g.colour[0].Gray? && g.colour[1].Black? && g.colour[2] == g.colour[3] == g.colour[4] == White(false)
    modifies g`heap, g`colour, g`done, g`todo
    ensures g.Valid() && g.gray == [] && Made(g.heap, g.colour)
  {
    hide GlobalState.Valid, Accessible;
    FromStack(g.heap, g.Roots(), 2);
    g.NewObject(5, Closure([2]));
    assert g.heap[0] == Thread([1, 2, 3, 4, 5]);
  }

  /** Everything is made, and all of it white but the closure 1. */
  ghost predicate Made(h: Heap, c: Colours) {
    && h.Keys == c.Keys == {0, 1, 2, 3, 4, 5} && h[0] == Thread([1, 2, 3, 4, 5]) && h[1] == h[2] == h[3] == Closure([])
    && h[4] == Ephemeron(None, [], [PAIR]) && h[5] == Closure([2])
    && c[0].Gray? && c[1].Black? && c[2] == c[3] == c[4] == c[5] == White(false)
  }

  /** Everything is stored: the closure 1 refers to the table and to the closure that refers to its key. */
  ghost predicate BothStored(h: Heap, c: Colours) {
    && h.Keys == c.Keys == {0, 1, 2, 3, 4, 5} && h[0] == Thread([]) && h[1] == Closure([4, 5]) && h[2] == h[3] == Closure([])
    && h[4] == Ephemeron(None, [], [PAIR]) && h[5] == Closure([2])
    && c[0].Gray? && c[1].Black? && c[2] == c[3] == White(false) && c[4].Gray? && c[5].Gray?
  }

  /** Two runs, each from a new state, that lead to the atomic step with the same objects in the same colours. They
      differ in the order of two stores, and so in the order of the gray list. */
  method TwoOrders() returns (a: GlobalState, b: GlobalState)
    ensures fresh(a) && fresh(b) && a != b && a.Valid() && b.Valid() && a.phase.Atomic? && b.phase.Atomic?
    ensures BothStored(a.heap, a.colour) && a.heap == b.heap && a.colour == b.colour && a.currentwhite == b.currentwhite
    ensures a.gray == [4, 5] && b.gray == [5, 4]
  {
    hide GlobalState.Valid, Made, BothStored;
    a := PairMade();
    MakeClosure(a);
    StoreTwo(a, 5, 4);
    b := PairMade();
    MakeClosure(b);
    StoreTwo(b, 4, 5);
    SameStored(a.heap, a.colour, b.heap, b.colour);
  }

  lemma SameStored(h: Heap, c: Colours, h': Heap, c': Colours)
    requires BothStored(h, c) && BothStored(h', c')
    ensures h == h' && c == c'
  {
  }

  /** From two such states the assertion fails in one run and holds in the other. */
  method OrderDecides(a: GlobalState, b: GlobalState)
    requires a != b && a.Valid() && b.Valid() && a.phase.Atomic? && b.phase.Atomic?
    requires BothStored(a.heap, a.colour) && a.heap == b.heap && a.colour == b.colour
    requires a.gray == [4, 5] && b.gray == [5, 4]
    modifies a, b
    ensures a.gray == b.gray == [] && a.ephemeron != [] && b.ephemeron == []
  {
    hide GlobalState.Valid, BothStored;
    TableFirst(a);
    ClosureFirst(b);
  }

  /** The table is in front of the gray list, and the assertion fails. */
  method TableFirst(g: GlobalState)
    requires g.Valid() && g.phase.Atomic? && BothStored(g.heap, g.colour) && g.gray == [4, 5]
    modifies g`colour, g`gray, g`grayagain, g`ephemeron, g`allweak, g`final
    ensures g.gray == [] && g.ephemeron != []
  {
    hide GlobalState.Valid, Calm, CalmAfter, Stuck, Within, Further;
    AllWithin(g);
    assert Prompt(g.heap, g.colour, g.gray[0]);
    g.EmptyGray(g.heap.Keys);
  }

  /** The closure is in front, and the assertion holds. */
  method ClosureFirst(g: GlobalState)
    requires g.Valid() && g.phase.Atomic? && BothStored(g.heap, g.colour) && g.gray == [5, 4]
    modifies g`colour, g`gray, g`grayagain, g`ephemeron, g`allweak, g`final
    ensures g.gray == [] && g.ephemeron == []
  {
    hide GlobalState.Valid, Calm, Stuck, Within, Further, Prompt, WhiteWhite;
    AllWithin(g);
    ClosureCalms(g.heap, g.colour);
    g.EmptyGray(g.heap.Keys);
  }

  /** Two stores into the closure 1, each with its barrier, and the stack is emptied. */
  method StoreTwo(g: GlobalState, x: Id, y: Id)
    requires g.Valid() && g.phase.Atomic? && g.gray == [] && g.mainthread == 0 && g.running == 0 && Made(g.heap, g.colour)
    requires (x == 4 && y == 5) || (x == 5 && y == 4)
    modifies g`heap, g`colour, g`gray
    ensures g.Valid() && BothStored(g.heap, g.colour) && g.gray == [y, x] && g.colour == old(g.colour)[4 := Gray][5 := Gray]
  {
    hide GlobalState.Valid, Accessible, Made, BothStored;
    ghost var h, c := g.heap, g.colour;
    MadeIs(h, c, x, y);
    StoreOne(g, [x], x);
    StoreOne(g, [4, 5], y);
    AccessibleRoot(g.heap, g.Roots(), 0);
    g.SetStack(0, []);
    StoredIs(h, c, x, y);
  }

  lemma MadeIs(h: Heap, c: Colours, x: Id, y: Id)
    requires Made(h, c) && ((x == 4 && y == 5) || (x == 5 && y == 4))
    ensures h.Keys == c.Keys == {0, 1, 2, 3, 4, 5} && h[0] == Thread([1, 2, 3, 4, 5]) && h[1] == Closure([])
    ensures Visitable(h[x]) && Visitable(h[y]) && c[1].Black? && c[x].White? && c[y].White? && x != y && x > 1 && y > 1
  {
  }

  lemma StoredIs(h: Heap, c: Colours, x: Id, y: Id)
    requires Made(h, c) && ((x == 4 && y == 5) || (x == 5 && y == 4))
    ensures c[x := Gray][y := Gray] == c[4 := Gray][5 := Gray]
    ensures BothStored(h[1 := Closure([x])][1 := Closure([4, 5])][0 := Thread([])], c[x := Gray][y := Gray])
  {
  }

  /** A store of a white object into the black closure 1. */
  method StoreOne(g: GlobalState, refs: seq<Id>, v: Id)
    requires g.Valid() && g.phase.Atomic? && g.mainthread == 0 && g.running == 0
    requires g.heap.Keys == g.colour.Keys == {0, 1, 2, 3, 4, 5} && g.heap[0] == Thread([1, 2, 3, 4, 5]) && g.heap[1].Closure?
    requires (v == 4 || v == 5) && g.colour[1].Black? && g.colour[v].White? && Visitable(g.heap[v])
    requires forall r :: r in refs ==> r == v || r in g.heap[1].refs
    modifies g`heap, g`colour, g`gray
    ensures g.Valid() && g.heap == old(g.heap)[1 := Closure(refs)]
    ensures g.colour == old(g.colour)[v := Gray] && g.gray == [v] + old(g.gray)
  {
    hide GlobalState.Valid, Accessible;
    FromStack(g.heap, g.Roots(), 1);
    FromStack(g.heap, g.Roots(), v);
    g.StoreForward(1, Closure(refs), Some(v));
  }

  lemma AllWithin(g: GlobalState)
    requires g.Valid() && g.phase.Atomic?
    ensures Within(g.heap, g.colour, g.heap.Keys)
  {
    hide Within, MarkOk;
    WithinAll(g.heap, g.colour, g.Ls(g.grayagain), {});
  }

  lemma ClosureCalms(h: Heap, c: Colours)
    requires BothStored(h, c)
    ensures CalmAfter(h, c, [5, 4], h.Keys)
  {
    hide WhiteWhite;
  }

  lemma AccessibleRoot(h: Heap, roots: set<Id>, o: Id)
    requires o in roots
    ensures Accessible(h, roots, o)
  {
  }

  lemma AccessibleFrom(h: Heap, roots: set<Id>, o: Id, r: Id)
    requires Accessible(h, roots, o) && o in h && Refers(h[o], r)
    ensures Accessible(h, roots, r)
  {
  }

  lemma FromStack(h: Heap, roots: set<Id>, r: Id)
    requires 0 in roots && 0 in h && h[0].Thread? && r in h[0].refs
    ensures Accessible(h, roots, r)
  {
    hide Accessible;
    AccessibleRoot(h, roots, 0);
    AccessibleFrom(h, roots, 0, r);
  }

  lemma FurtherMarked(c: Colours, c': Colours, o: Id)
    requires Further(c, c') && NonWhite(c, o)
    ensures NonWhite(c', o)
  {
  }

  /** A marked thread is gray before the atomic phase. */
  lemma ThreadGray(h: Heap, c: Colours, l: Lists, o: Id)
    requires MarkOk(h, c, l, {}) && !l.final && o in h && h[o].Thread? && NonWhite(c, o)
    ensures o in c && c[o].Gray?
  {
    hide MarkOk;
    if c[o].Black? {
      BlackAllMarked(h, c, l, o);
    }
  }

  /** A marked closure that does not wait is black. */
  lemma ClosureBlack(h: Heap, c: Colours, l: Lists, o: Id)
    requires MarkOk(h, c, l, {}) && l.gray == [] && NoClosures(h, l.rest) && o in h && h[o].Closure? && NonWhite(c, o)
    ensures o in c && c[o].Black?
  {
    assert !Waiting(l, o);
  }

  /** What is marked keeps neither end of the pair alive. */
  lemma PairStuck(h: Heap, c: Colours)
    requires h.Keys == c.Keys == {0, 1, 2, 3, 4} && h[0] == Thread([]) && h[1] == Closure([4])
    requires h[2] == h[3] == Closure([]) && h[4] == Ephemeron(None, [], [PAIR]) && c[2].White? && c[3].White?
    ensures Within(h, c, {0, 1, 4}) && Stuck(h, {0, 1, 4}, 4)
  {
    assert PAIR in h[4].entries && Outside(h, {0, 1, 4}, PAIR);
    assert Closed(h, {0, 1, 4});
  }

  // ---------------------------------------------------------------------------------------------
  // Convergence
  // ---------------------------------------------------------------------------------------------

  /** Tables that wait to be visited again, with everything they refer to strongly marked already. */
  ghost predicate Ready(h: Heap, c: Colours, s: seq<Id>) {
    forall o :: o in s ==> o in h && h[o].Ephemeron? && StrongMarked(c, h[o])
  }

  ghost predicate AllConverged(h: Heap, c: Colours, s: seq<Id>) {
    forall o :: o in s ==> o in h && h[o].Ephemeron? && Converged(c, h[o].entries)
  }

  lemma AllConvergedNone(h: Heap, c: Colours)
    ensures AllConverged(h, c, [])
  {
  }

  lemma FurtherSelf(c: Colours)
    ensures Further(c, c)
  {
  }

  /** The list is taken off to be visited again. */
  lemma EphemeronsAgain(h: Heap, c: Colours, l: Lists)
    requires MarkOk(h, c, l, {}) && l.rest == [] && l.gray == []
    ensures MarkOk(h, c, l.(rest := l.ephemeron, ephemeron := []), {}) && Ready(h, c, l.ephemeron)
  {
    var l' := l.(rest := l.ephemeron, ephemeron := []);
    forall o
      ensures Occurs(l', o) <= Room(h, c, o)
    {
      assert Occurs(l, o) <= Room(h, c, o);
    }
    forall o | o in l.ephemeron
      ensures StrongMarked(c, h[o])
    {
      InEphemeron(h, c, l, o);
    }
    forall o | o in h && NonWhite(c, o)
      ensures Waiting(l', o) || Settled(h, c, l', o)
    {
      assert Waiting(l, o) || Settled(h, c, l, o);
    }
  }

  /** A table in the ephemeron list owes nothing but the values of unmarked keys. */
  lemma InEphemeron(h: Heap, c: Colours, l: Lists, o: Id)
    requires MarkOk(h, c, l, {}) && o in l.ephemeron
    ensures o in h && h[o].Ephemeron? && NonWhite(c, o) && StrongMarked(c, h[o]) && StringsMarked(h, c, h[o].entries)
  {
    assert Occurs(l, o) <= Room(h, c, o);
    assert multiset(l.ephemeron)[o] > 0;
    assert !Waiting(l, o);
    assert Settled(h, c, l, o);
  }

  /** Taking the first saved object out of its list to visit it. */
  lemma PopRest(h: Heap, c: Colours, l: Lists)
    requires MarkOk(h, c, l, {}) && l.rest != []
    ensures l.rest[0] in h && l.rest[0] in c && c[l.rest[0]].Gray? && Visitable(h[l.rest[0]])
    ensures Occurs(l.(rest := l.rest[1..]), l.rest[0]) == 0
    ensures MarkOk(h, c, l.(rest := l.rest[1..]), {l.rest[0]})
  {
    var o, l' := l.rest[0], l.(rest := l.rest[1..]);
    assert l.rest == [o] + l.rest[1..];
    assert multiset(l.rest) == multiset{o} + multiset(l.rest[1..]);
    assert Occurs(l, o) <= Room(h, c, o);
    forall p
      ensures Occurs(l', p) <= Room(h, c, p)
    {
      assert Occurs(l, p) <= Room(h, c, p);
    }
    forall p | p in h && NonWhite(c, p)
      ensures p in {o} || Waiting(l', p) || Settled(h, c, l', p)
    {
      if p != o && p in l.rest {
        assert p in l'.rest;
      }
    }
  }

  lemma ReadyNext(h: Heap, c: Colours, s: seq<Id>)
    requires s != [] && Ready(h, c, s)
    ensures Ready(h, c, s[1..]) && s[0] in h && h[s[0]].Ephemeron?
    ensures h[s[0]].meta.Some? ==> NonWhite(c, h[s[0]].meta.value)
  {
    assert StrongMarked(c, h[s[0]]);
    if h[s[0]].meta.Some? {
      assert Strong(h[s[0]], h[s[0]].meta.value);
    }
  }

  lemma RoundStep(h: Heap, c0: Colours, c1: Colours, c: Colours, next: seq<Id>, marked: bool)
    requires Further(c0, c1) && Darker(c1, c) && Whites(c1) <= Whites(c0) && Ready(h, c1, next)
    requires marked ==> Whites(c) < Whites(c1)
    ensures Further(c0, c) && Whites(c) <= Whites(c1) && Ready(h, c, next)
    ensures marked ==> Whites(c) < Whites(c0)
  {
    assert Whites(c) <= Whites(c1);
  }

  lemma FurtherStep(h: Heap, c0: Colours, c: Colours, c': Colours, next: seq<Id>)
    requires Further(c0, c) && Further(c, c') && Whites(c) < Whites(c0) && Ready(h, c, next)
    ensures Further(c0, c') && Whites(c') < Whites(c0) && Ready(h, c', next)
  {
    assert Whites(c') <= Whites(c);
  }

  /** Marking strings alone cannot upset a table that has converged, for its string keys are marked. */
  lemma StillConverged(h: Heap, c: Colours, l: Lists, c': Colours, w: Id, ephemeron: seq<Id>)
    requires MarkOk(h, c, l, {}) && AllConverged(h, c, l.ephemeron) && OnlyStrings(h, c, c') && Darker(c, c')
    requires ephemeron == l.ephemeron || ephemeron == [w] + l.ephemeron
    requires ephemeron != l.ephemeron ==> w in h && h[w].Ephemeron? && Converged(c', h[w].entries)
    ensures AllConverged(h, c', ephemeron)
  {
    forall o | o in l.ephemeron
      ensures Converged(c', h[o].entries)
    {
      InEphemeron(h, c, l, o);
      ConvergedKept(h, c, c', h[o].entries);
    }
  }

  lemma ConvergedKept(h: Heap, c: Colours, c': Colours, es: seq<Entry>)
    requires Converged(c, es) && StringsMarked(h, c, es) && OnlyStrings(h, c, c') && Darker(c, c')
    ensures Converged(c', es)
  {
    forall e | e in es && KeyMarked(c', e)
      ensures ValMarked(c', e)
    {
      assert KeyMarked(c, e);
    }
  }

  // ---------------------------------------------------------------------------------------------
  // The end of marking
  // ---------------------------------------------------------------------------------------------

  /** Nothing is left to visit, and every ephemeron table has converged. */
  ghost predicate Finished(h: Heap, c: Colours, l: Lists) {
    MarkOk(h, c, l, {}) && l.gray == [] && l.rest == [] && AllConverged(h, c, l.ephemeron)
  }

  ghost function Uncleared(c: Colours, es: seq<Entry>): (r: seq<Entry>)
    ensures forall e :: e in r <==> e in es && KeyMarked(c, e)
  {
    if es == [] then [] else
    var r := Uncleared(c, es[..|es| - 1]);
    assert es == es[..|es| - 1] + [es[|es| - 1]];
    if KeyMarked(c, es[|es| - 1]) then r + [es[|es| - 1]] else r
  }

  lemma {:induction false} UnclearedTwice(c: Colours, es: seq<Entry>)
    ensures Uncleared(c, Uncleared(c, es)) == Uncleared(c, es)
  {
    if es != [] {
      var r, e := Uncleared(c, es[..|es| - 1]), es[|es| - 1];
      UnclearedTwice(c, es[..|es| - 1]);
      assert (r + [e])[..|r|] == r;
    }
  }

  /** The heap with the weak entries of the tables in `s` cleared. */
  ghost function ClearedHeap(h: Heap, c: Colours, s: seq<Id>): Heap {
    map o | o in h :: if o in s && h[o].Ephemeron? then h[o].(entries := Uncleared(c, h[o].entries)) else h[o]
  }

  lemma ClearedOne(h: Heap, c: Colours, s: seq<Id>, o: Id)
    requires o in h && h[o].Ephemeron?
    ensures var h' := ClearedHeap(h, c, s);
            h'[o := h'[o].(entries := Uncleared(c, h'[o].entries))] == ClearedHeap(h, c, s + [o])
  {
    UnclearedTwice(c, h[o].entries);
  }

  lemma ClearedRefers(h: Heap, c: Colours, s: seq<Id>, o: Id, r: Id)
    requires o in h
    ensures Refers(ClearedHeap(h, c, s)[o], r) ==> Refers(h[o], r)
    ensures Strong(ClearedHeap(h, c, s)[o], r) <==> Strong(h[o], r)
  {
  }

  /** Marking stays finished while tables are cleared. */
  lemma ClearedStill(h: Heap, c: Colours, l: Lists, s: seq<Id>, o: Id)
    requires Finished(h, c, l) && (o in l.ephemeron || o in l.allweak)
    ensures var h' := ClearedHeap(h, c, s);
            MarkOk(h', c, l, {}) && o in h && o in h' && h[o].Ephemeron? && h'[o].Ephemeron? && StringsMarked(h', c, h'[o].entries)
  {
    var h' := ClearedHeap(h, c, s);
    assert HeapOk(h', c) by {
      forall p, r | p in h' && Refers(h'[p], r)
        ensures r in h'
      {
        ClearedRefers(h, c, s, p, r);
      }
    }
    forall p
      ensures Occurs(l, p) <= Room(h', c, p)
    {
      assert Occurs(l, p) <= Room(h, c, p);
    }
    forall p | p in h' && NonWhite(c, p)
      ensures Settled(h', c, l, p)
    {
      assert Settled(h, c, l, p);
      ClearedSettled(h, c, l, s, p);
    }
    assert Occurs(l, o) <= Room(h, c, o);
    assert NonWhite(c, o);
    assert Settled(h', c, l, o);
  }

  lemma ClearedSettled(h: Heap, c: Colours, l: Lists, s: seq<Id>, p: Id)
    requires p in h && NonWhite(c, p) && Settled(h, c, l, p)
    ensures Settled(ClearedHeap(h, c, s), c, l, p)
  {
    var h' := ClearedHeap(h, c, s);
    forall r | Strong(h'[p], r)
      ensures NonWhite(c, r)
    {
      ClearedRefers(h, c, s, p, r);
    }
    if h[p].Ephemeron? {
      assert forall e :: e in h'[p].entries ==> e in h[p].entries;
      assert forall e :: StringKey(h', e) <==> StringKey(h, e);
    }
  }

  /** At the end of marking the marked objects are closed under strong references and the ephemeron rule. */
  lemma MarkedClosed(h: Heap, c: Colours, l: Lists)
    requires Finished(h, c, l)
    ensures Closed(h, Marked(c))
  {
    forall o | o in Marked(c) && o in h
      ensures forall r :: Strong(h[o], r) ==> r in Marked(c)
      ensures h[o].Ephemeron? ==> forall e :: e in h[o].entries ==>
                && (StringKey(h, e) ==> e.key.value in Marked(c))
                && ((e.key.None? || e.key.value in Marked(c)) && e.val.Some? ==> e.val.value in Marked(c))
    {
      assert NonWhite(c, o);
      assert Settled(h, c, l, o);
      if h[o].Ephemeron? {
        forall e | e in h[o].entries
          ensures StringKey(h, e) ==> e.key.value in Marked(c)
          ensures (e.key.None? || e.key.value in Marked(c)) && e.val.Some? ==> e.val.value in Marked(c)
        {
          assert StringKey(h, e) ==> KeyMarked(c, e);
          if e.key.None? || e.key.value in Marked(c) {
            assert KeyMarked(c, e);
            assert ValMarked(c, e);
          }
        }
      }
    }
  }

  /** Once the weak entries are cleared, no reference of any kind leads from a marked object to an unmarked one. */
  lemma ClearedClosed(h: Heap, c: Colours, l: Lists)
    requires Finished(h, c, l)
    ensures ClosedUnderAll(ClearedHeap(h, c, l.ephemeron + l.allweak), Marked(c))
  {
    var s := l.ephemeron + l.allweak;
    var h' := ClearedHeap(h, c, s);
    forall o, r | o in Marked(c) && o in h' && Refers(h'[o], r)
      ensures r in Marked(c)
    {
      assert NonWhite(c, o);
      assert Settled(h, c, l, o);
      if Strong(h'[o], r) {
        ClearedRefers(h, c, s, o, r);
      } else {
        var e :| e in h'[o].entries && (e.key == Some(r) || e.val == Some(r));
        assert e in h[o].entries;
        if o in l.ephemeron || o in l.allweak {
          assert o in s;
          assert KeyMarked(c, e);
          assert ValMarked(c, e);
        } else {
          assert KeyMarked(c, e) && ValMarked(c, e);
        }
      }
    }
  }

  // ---------------------------------------------------------------------------------------------
  // Live objects
  // ---------------------------------------------------------------------------------------------

  ghost function RootSet(main: Id, running: Id, globals: seq<Id>): set<Id> {
    {main, running} + set o | o in globals
  }

  /** Not of the white that marks the dead. */
  ghost predicate Live(c: Colours, cw: bool, o: Id) {
    o in c && c[o] != White(!cw)
  }

  /** A live object refers to live objects only; a dead one may refer to objects already freed. */
  ghost predicate LiveClosed(h: Heap, c: Colours, cw: bool) {
    forall o, r :: o in h && Live(c, cw, o) && Refers(h[o], r) ==> r in h && Live(c, cw, r)
  }

  ghost predicate ThreadLive(h: Heap, c: Colours, cw: bool, t: Id) {
    t in h && h[t].Thread? && Live(c, cw, t)
  }

  ghost predicate RootsLive(h: Heap, c: Colours, cw: bool, main: Id, running: Id, globals: seq<Id>) {
    && ThreadLive(h, c, cw, main) && ThreadLive(h, c, cw, running)
    && forall i :: 0 <= i < |globals| ==> globals[i] in h && Live(c, cw, globals[i])
  }

  /** Every object but the main thread is once in the list of all objects. */
  ghost predicate Listed(h: Heap, main: Id, done: seq<Id>, todo: seq<Id>) {
    forall o :: multiset(done)[o] + multiset(todo)[o] == if o in h && o != main then 1 else 0
  }

  ghost predicate Sound(h: Heap, c: Colours, cw: bool, main: Id, running: Id, globals: seq<Id>, done: seq<Id>, todo: seq<Id>) {
    h.Keys == c.Keys && LiveClosed(h, c, cw) && RootsLive(h, c, cw, main, running, globals) && Listed(h, main, done, todo)
  }

  ghost predicate NoDead(c: Colours, cw: bool) {
    forall o :: o in c ==> c[o] != White(!cw)
  }

  ghost predicate AllWhite(c: Colours, cw: bool) {
    forall o :: o in c ==> c[o] == White(cw)
  }

  /** What the colours are in each phase, beyond the tri-colour invariant. */
  ghost predicate Stage(p: Phase, c: Colours, cw: bool, done: seq<Id>, todo: seq<Id>, main: Id) {
    match p
    case Propagate => todo == [] && NoDead(c, cw)
    case Atomic => todo == [] && NoDead(c, cw)
    case SwpAllgc => forall o :: o in done ==> o in c && c[o] == White(cw)
    case SwpFinobj => todo == [] && AllWhite(c - {main}, cw)
    case SwpTobefnz => todo == [] && AllWhite(c - {main}, cw)
    case SwpEnd => todo == [] && AllWhite(c - {main}, cw)
    case CallFin => todo == [] && AllWhite(c, cw)
    case Pause => todo == [] && AllWhite(c, cw)
    case InsideAtomic => false
  }

  /** A heap in which nothing is marked is ready for marking. */
  lemma UnmarkedOk(h: Heap, c: Colours, cw: bool, main: Id, running: Id, globals: seq<Id>, done: seq<Id>, todo: seq<Id>)
    requires Sound(h, c, cw, main, running, globals, done, todo) && AllWhite(c, cw)
    ensures MarkOk(h, c, Lists([], [], [], [], false), {})
    ensures main in h && forall i :: 0 <= i < |globals| ==> globals[i] in h
  {
    forall o, r | o in h && Refers(h[o], r)
      ensures r in h
    {
      assert Live(c, cw, o);
    }
  }

  /** Marking raises nobody from the dead and kills nobody. */
  lemma DarkerSound(h: Heap, c: Colours, c': Colours, cw: bool, main: Id, running: Id, globals: seq<Id>, done: seq<Id>, todo: seq<Id>)
    requires Sound(h, c, cw, main, running, globals, done, todo) && NoDead(c, cw)
    requires Darker(c, c') || Further(c, c')
    ensures Sound(h, c', cw, main, running, globals, done, todo) && NoDead(c', cw)
  {
    assert forall o :: Live(c, cw, o) <==> Live(c', cw, o);
  }

  /** The roots have been marked in a heap that was all white. */
  lemma Restarted(h: Heap, c: Colours, c': Colours, cw: bool, main: Id, running: Id, globals: seq<Id>, done: seq<Id>, l: Lists)
    requires Sound(h, c, cw, main, running, globals, done, []) && AllWhite(c, cw) && Darker(c, c')
    requires MarkOk(h, c', l, {}) && NonWhite(c', main) && !l.final && l.rest == []
    ensures Sound(h, c', cw, main, running, globals, done, []) && NoDead(c', cw) && l.gray != []
  {
    DarkerSound(h, c, c', cw, main, running, globals, done, []);
    assert Waiting(l, main);
  }

  ghost predicate RootsMarked(c: Colours, main: Id, running: Id, globals: seq<Id>) {
    NonWhite(c, main) && NonWhite(c, running) && forall i :: 0 <= i < |globals| ==> NonWhite(c, globals[i])
  }

  /** The final traversals may begin at any moment of marking. */
  lemma AtomicReady(h: Heap, c: Colours, cw: bool, main: Id, running: Id, globals: seq<Id>, done: seq<Id>, l: Lists)
    requires Sound(h, c, cw, main, running, globals, done, []) && MarkOk(h, c, l, {}) && !l.final
    ensures MarkOk(h, c, l.(final := true), {}) && running in h && forall i :: 0 <= i < |globals| ==> globals[i] in h
  {
    var l' := l.(final := true);
    forall o
      ensures Occurs(l', o) <= Room(h, c, o)
    {
      assert Occurs(l, o) <= Room(h, c, o);
    }
    forall o | o in h && NonWhite(c, o)
      ensures Waiting(l', o) || Settled(h, c, l', o)
    {
      assert Waiting(l, o) || Settled(h, c, l, o);
    }
  }

  lemma RootsNow(c0: Colours, c1: Colours, c: Colours, main: Id, running: Id, globals: seq<Id>)
    requires Further(c0, c1) && Darker(c1, c) && NonWhite(c0, main)
    requires NonWhite(c, running) && forall i :: 0 <= i < |globals| ==> NonWhite(c, globals[i])
    ensures Further(c0, c) && RootsMarked(c, main, running, globals)
  {
  }

  lemma RootsStay(c0: Colours, c1: Colours, c: Colours, main: Id, running: Id, globals: seq<Id>)
    requires Further(c0, c1) && Further(c1, c) && RootsMarked(c1, main, running, globals)
    ensures Further(c0, c) && RootsMarked(c, main, running, globals)
  {
  }

  lemma RestToGray(h: Heap, c: Colours, l: Lists)
    requires MarkOk(h, c, l, {}) && l.gray == []
    ensures MarkOk(h, c, l.(gray := l.rest, rest := []), {})
  {
    var l' := l.(gray := l.rest, rest := []);
    forall o
      ensures Occurs(l', o) <= Room(h, c, o)
    {
      assert Occurs(l, o) <= Room(h, c, o);
    }
    forall o | o in h && NonWhite(c, o)
      ensures Waiting(l', o) || Settled(h, c, l', o)
    {
      assert Waiting(l, o) || Settled(h, c, l, o);
    }
  }

  lemma ClearedEmpty(h: Heap, c: Colours)
    ensures ClearedHeap(h, c, []) == h
  {
  }

  /** With the white flipped, the live objects are exactly the marked ones. */
  lemma Flipped(h: Heap, c0: Colours, c: Colours, cw: bool, main: Id, running: Id, globals: seq<Id>, done: seq<Id>, l: Lists)
    requires Sound(h, c0, !cw, main, running, globals, done, []) && NoDead(c0, !cw) && Further(c0, c)
    requires RootsMarked(c, main, running, globals)
    requires ClosedUnderAll(ClearedHeap(h, c, l.ephemeron + l.allweak), Marked(c))
    ensures Sound(ClearedHeap(h, c, l.ephemeron + l.allweak), c, cw, main, running, globals, done, [])
    ensures forall o :: Live(c, cw, o) <==> o in Marked(c)
    ensures RootSet(main, running, globals) <= Marked(c)
  {
    hide ClearedHeap, ClosedUnderAll, Further, NoDead, Live, Refers;
    LiveMarked(c0, c, cw);
    var h' := ClearedHeap(h, c, l.ephemeron + l.allweak);
    ClearedKinds(h, c, l.ephemeron + l.allweak);
    MarkedLive(h', c, cw);
    forall i | 0 <= i < |globals|
      ensures globals[i] in h' && Live(c, cw, globals[i])
    {
      assert NonWhite(c, globals[i]);
    }
  }

  lemma LiveMarked(c0: Colours, c: Colours, cw: bool)
    requires NoDead(c0, !cw) && Further(c0, c)
    ensures c.Keys == c0.Keys && forall o :: Live(c, cw, o) <==> o in Marked(c)
  {
  }

  lemma ClearedKinds(h: Heap, c: Colours, s: seq<Id>)
    ensures ClearedHeap(h, c, s).Keys == h.Keys
    ensures forall o :: o in h ==> (ClearedHeap(h, c, s)[o].Thread? <==> h[o].Thread?)
  {
  }

  lemma MarkedLive(h: Heap, c: Colours, cw: bool)
    requires ClosedUnderAll(h, Marked(c)) && h.Keys == c.Keys && forall o :: Live(c, cw, o) <==> o in Marked(c)
    ensures LiveClosed(h, c, cw)
  {
    forall o, r | o in h && Live(c, cw, o) && Refers(h[o], r)
      ensures r in h && Live(c, cw, r)
    {
      assert o in Marked(c);
      assert r in Marked(c);
    }
  }

  // ---------------------------------------------------------------------------------------------
  // Sweeping
  // ---------------------------------------------------------------------------------------------

  ghost function Survivors(c: Colours, cw: bool, s: seq<Id>): seq<Id> {
    if s == [] then [] else
    var r := Survivors(c, cw, s[..|s| - 1]);
    if Live(c, cw, s[|s| - 1]) then r + [s[|s| - 1]] else r
  }

  /** The heap once the objects in `s` have been swept. */
  ghost function SweptHeap(h: Heap, c: Colours, cw: bool, s: seq<Id>): Heap {
    map o | o in h && (Live(c, cw, o) || o !in s) :: h[o]
  }

  ghost function SweptColours(c: Colours, cw: bool, s: seq<Id>): Colours {
    map o | o in c && (Live(c, cw, o) || o !in s) :: if o in s then White(cw) else c[o]
  }

  lemma SweptNone(h: Heap, c: Colours, cw: bool)
    ensures SweptHeap(h, c, cw, []) == h && SweptColours(c, cw, []) == c && Survivors(c, cw, []) == []
  {
  }

  /** Sweeping one more object. */
  lemma SweepFirst(h0: Heap, c0: Colours, cw: bool, main: Id, running: Id, globals: seq<Id>, done: seq<Id>, t0: seq<Id>, n: nat)
    requires n < |t0|
    requires var s := t0[..n];
             Sound(SweptHeap(h0, c0, cw, s), SweptColours(c0, cw, s), cw, main, running, globals, done, t0[n..])
    ensures var s, h, c, curr := t0[..n], SweptHeap(h0, c0, cw, t0[..n]), SweptColours(c0, cw, t0[..n]), t0[n];
            && curr in c && Survivors(c0, cw, s + [curr]) == Survivors(c0, cw, s) + (if Live(c0, cw, curr) then [curr] else [])
            && (Live(c0, cw, curr) <==> c[curr] != White(!cw))
            && (c[curr] == White(!cw) ==>
                  && SweptHeap(h0, c0, cw, s + [curr]) == h - {curr} && SweptColours(c0, cw, s + [curr]) == c - {curr}
                  && Sound(h - {curr}, c - {curr}, cw, main, running, globals, done, t0[n + 1..])
                  && curr !in done)
            && (c[curr] != White(!cw) ==>
                  && SweptHeap(h0, c0, cw, s + [curr]) == h && SweptColours(c0, cw, s + [curr]) == c[curr := White(cw)]
                  && Sound(h, c[curr := White(cw)], cw, main, running, globals, done + [curr], t0[n + 1..]))
  {
    var s, h, c, curr := t0[..n], SweptHeap(h0, c0, cw, t0[..n]), SweptColours(c0, cw, t0[..n]), t0[n];
    FirstListed(h, c, cw, main, running, globals, done, t0[n..]);
    assert t0[n..][0] == curr && t0[n..][1..] == t0[n + 1..];
    SurvivorsNext(c0, cw, s, curr);
    assert Live(c0, cw, curr) <==> c[curr] != White(!cw);
    if c[curr] == White(!cw) {
      FreeDead(h, c, cw, main, running, globals, done, t0[n..]);
      SweptDead(h0, c0, cw, s, curr);
    } else {
      WhitenLive(h, c, cw, main, running, globals, done, t0[n..]);
      SweptLive(h0, c0, cw, s, curr);
    }
  }

  lemma SurvivorsNext(c: Colours, cw: bool, s: seq<Id>, o: Id)
    ensures Survivors(c, cw, s + [o]) == Survivors(c, cw, s) + (if Live(c, cw, o) then [o] else [])
  {
    assert (s + [o])[..|s|] == s;
  }

  lemma SweptDead(h0: Heap, c0: Colours, cw: bool, s: seq<Id>, curr: Id)
    requires !Live(c0, cw, curr)
    ensures SweptHeap(h0, c0, cw, s + [curr]) == SweptHeap(h0, c0, cw, s) - {curr}
    ensures SweptColours(c0, cw, s + [curr]) == SweptColours(c0, cw, s) - {curr}
  {
  }

  lemma SweptLive(h0: Heap, c0: Colours, cw: bool, s: seq<Id>, curr: Id)
    requires Live(c0, cw, curr)
    ensures SweptHeap(h0, c0, cw, s + [curr]) == SweptHeap(h0, c0, cw, s)
    ensures SweptColours(c0, cw, s + [curr]) == SweptColours(c0, cw, s)[curr := White(cw)]
  {
  }

  lemma FirstListed(h: Heap, c: Colours, cw: bool, main: Id, running: Id, globals: seq<Id>, done: seq<Id>, todo: seq<Id>)
    requires Sound(h, c, cw, main, running, globals, done, todo) && todo != []
    ensures todo[0] in h && todo[0] in c && todo[0] != main && todo[0] !in done && todo[0] !in todo[1..]
    ensures multiset(todo) == multiset{todo[0]} + multiset(todo[1..])
  {
    assert todo == [todo[0]] + todo[1..];
    assert multiset(todo)[todo[0]] > 0;
  }

  /** Nothing live refers to a dead object, so it can go. */
  lemma FreeDead(h: Heap, c: Colours, cw: bool, main: Id, running: Id, globals: seq<Id>, done: seq<Id>, todo: seq<Id>)
    requires Sound(h, c, cw, main, running, globals, done, todo) && todo != [] && !Live(c, cw, todo[0])
    ensures Sound(h - {todo[0]}, c - {todo[0]}, cw, main, running, globals, done, todo[1..])
  {
    hide Refers;
    FirstListed(h, c, cw, main, running, globals, done, todo);
    var h', c' := h - {todo[0]}, c - {todo[0]};
    assert forall o :: Live(c', cw, o) <==> Live(c, cw, o);
    assert LiveClosed(h', c', cw);
    forall o
      ensures multiset(done)[o] + multiset(todo[1..])[o] == if o in h' && o != main then 1 else 0
    {
    }
  }

  lemma WhitenLive(h: Heap, c: Colours, cw: bool, main: Id, running: Id, globals: seq<Id>, done: seq<Id>, todo: seq<Id>)
    requires Sound(h, c, cw, main, running, globals, done, todo) && todo != [] && Live(c, cw, todo[0])
    ensures Sound(h, c[todo[0] := White(cw)], cw, main, running, globals, done + [todo[0]], todo[1..])
  {
    hide Refers;
    FirstListed(h, c, cw, main, running, globals, done, todo);
    var c' := c[todo[0] := White(cw)];
    assert forall o :: Live(c', cw, o) <==> Live(c, cw, o);
    assert LiveClosed(h, c', cw);
    forall o
      ensures multiset(done + [todo[0]])[o] + multiset(todo[1..])[o] == if o in h && o != main then 1 else 0
    {
    }
  }

  lemma NothingDead(h: Heap, c: Colours, cw: bool, main: Id, running: Id, globals: seq<Id>, done: seq<Id>, s: seq<Id>)
    requires Sound(h, c, cw, main, running, globals, done, []) && NoDead(c, cw)
    ensures SweptHeap(h, c, cw, s) == h
  {
    assert forall o :: o in h ==> Live(c, cw, o);
  }

  /** What a step of the collector may do to an object that is still reachable. */
  ghost predicate KeptWhole(h: Heap, roots: set<Id>, ob: Object, ob': Object) {
    || ob' == ob
    || (&& ob.Ephemeron? && ob'.Ephemeron? && ob' == ob.(entries := ob'.entries)
        && (forall e :: e in ob'.entries ==> e in ob.entries)
        && (forall e :: e in ob.entries && e !in ob'.entries ==> e.key.Some? && !Reachable(h, roots, e.key.value)))
  }

  /** From `h` to `h'` nothing that the roots keep alive is lost. */
  ghost predicate Lossless(h: Heap, roots: set<Id>, h': Heap) {
    forall o :: o in h && Reachable(h, roots, o) ==> o in h' && KeptWhole(h, roots, h[o], h'[o])
  }

  lemma LosslessSelf(h: Heap, roots: set<Id>)
    ensures Lossless(h, roots, h)
  {
  }

  /** `h'` is `h` without some of its objects. */
  ghost predicate Part(h': Heap, h: Heap) {
    forall o :: o in h' ==> o in h && h'[o] == h[o]
  }

  lemma PartSelf(h: Heap)
    ensures Part(h, h)
  {
  }

  lemma PartTrans(h: Heap, h': Heap, h'': Heap)
    requires Part(h', h) && Part(h'', h')
    ensures Part(h'', h)
  {
  }

  ghost predicate LiveIn(c: Colours, cw: bool, k: set<Id>) {
    forall o :: Live(c, cw, o) ==> o in k
  }

  /** The number of states before the next pause. */
  ghost function Ahead(p: Phase): nat {
    match p
    case Propagate => 8
    case Atomic => 7
    case InsideAtomic => 6
    case SwpAllgc => 5
    case SwpFinobj => 4
    case SwpTobefnz => 3
    case SwpEnd => 2
    case CallFin => 1
    case Pause => 0
  }

  /** A step starts a cycle, or goes to a later state, or leaves less to visit or to sweep. */
  ghost predicate Nearer(p: Phase, c: Colours, gray: seq<Id>, todo: seq<Id>, p': Phase, c': Colours, gray': seq<Id>, todo': seq<Id>) {
    || (p.Pause? && p'.Propagate?)
    || (Ahead(p') < Ahead(p) && (p'.Pause? ==> p.CallFin?))
    || (p.Propagate? && p'.Propagate? && Whites(c') < Whites(c))
    || (p.Propagate? && p'.Propagate? && Whites(c') == Whites(c) && |gray'| < |gray|)
    || (p.SwpAllgc? && p'.SwpAllgc? && |todo'| < |todo|)
  }

  lemma KeptLeast(h: Heap, s: set<Id>, k: set<Id>)
    requires Closed(h, k) && s <= k
    ensures Kept(h, s) <= k
  {
  }

  lemma StartWithin(h: Heap, c: Colours, roots: set<Id>, k: set<Id>)
    requires Marked(c) <= Kept(h, roots)
    ensures Closed(h, k) && roots <= k ==> Within(h, c, k)
  {
    hide Closed, Kept;
    if Closed(h, k) && roots <= k {
      KeptLeast(h, roots, k);
    }
  }

  lemma WithinStays(h: Heap, c: Colours, c': Colours, s: set<Id>, k: set<Id>)
    requires s == Marked(c) && Marked(c') <= Kept(h, s)
    ensures Within(h, c, k) ==> Within(h, c', k)
  {
    hide Closed, Kept;
    if Within(h, c, k) {
      KeptLeast(h, s, k);
    }
  }

  lemma AtomicTight(h: Heap, c: Colours, c': Colours, cw: bool, roots: set<Id>, k: set<Id>)
    requires Marked(c') == Kept(h, Marked(c) + roots) && forall o :: Live(c', cw, o) <==> o in Marked(c')
    ensures Within(h, c, k) && roots <= k ==> LiveIn(c', cw, k)
  {
    hide Closed, Kept;
    if Within(h, c, k) && roots <= k {
      KeptLeast(h, Marked(c) + roots, k);
    }
  }

  lemma SweptLiveIn(c: Colours, cw: bool, s: seq<Id>, k: set<Id>)
    ensures LiveIn(c, cw, k) ==> LiveIn(SweptColours(c, cw, s), cw, k)
  {
    forall o | Live(SweptColours(c, cw, s), cw, o)
      ensures Live(c, cw, o)
    {
    }
  }

  lemma MainLiveIn(h: Heap, c: Colours, cw: bool, main: Id, running: Id, globals: seq<Id>, done: seq<Id>, todo: seq<Id>, k: set<Id>)
    requires Sound(h, c, cw, main, running, globals, done, todo)
    ensures LiveIn(c, cw, k) ==> LiveIn(c[main := White(cw)], cw, k)
  {
    forall o | Live(c[main := White(cw)], cw, o)
      ensures Live(c, cw, o)
    {
    }
  }

  /** Between any two steps, what the roots keep alive is a closed set of objects that exist. */
  lemma RootsKept(h: Heap, c: Colours, cw: bool, main: Id, running: Id, globals: seq<Id>, done: seq<Id>, todo: seq<Id>)
    requires Sound(h, c, cw, main, running, globals, done, todo)
    ensures var roots := RootSet(main, running, globals); Closed(h, Kept(h, roots)) && roots <= Kept(h, roots)
  {
    hide Reachable, Closed, Kept;
    var roots := RootSet(main, running, globals);
    forall o, r | o in h && Reachable(h, roots, o) && Refers(h[o], r)
      ensures r in h
    {
      ReachableAccessible(h, roots, o);
      AccessibleLive(h, c, cw, main, running, globals, done, todo, o);
    }
    KeptClosed(h, roots);
  }

  /** What is reachable stays reachable. */
  lemma StillReachable(h: Heap, h': Heap, roots: set<Id>, x: Id)
    requires Closed(h, Kept(h, roots)) && roots <= Kept(h, roots) && Lossless(h, roots, h') && Reachable(h, roots, x)
    ensures Reachable(h', roots, x)
  {
    var k := Kept(h, roots);
    forall s: set<Id> | roots <= s && Closed(h', s)
      ensures x in s
    {
      InnerClosed(h, h', roots, s);
      ReachableIn(h, roots, s * k, x);
    }
  }

  lemma InnerClosed(h: Heap, h': Heap, roots: set<Id>, s: set<Id>)
    requires Closed(h, Kept(h, roots)) && Lossless(h, roots, h') && Closed(h', s)
    ensures Closed(h, s * Kept(h, roots))
  {
    var k := Kept(h, roots);
    forall o | o in s * k
      ensures forall r :: Strong(h[o], r) ==> r in s * k
      ensures h[o].Ephemeron? ==> forall e :: e in h[o].entries ==>
                && (StringKey(h, e) ==> e.key.value in s * k)
                && ((e.key.None? || e.key.value in s * k) && e.val.Some? ==> e.val.value in s * k)
    {
      assert o in h' && KeptWhole(h, roots, h[o], h'[o]);
      assert forall r :: Strong(h[o], r) ==> Strong(h'[o], r);
      if h[o].Ephemeron? {
        forall e | e in h[o].entries
          ensures StringKey(h, e) ==> e.key.value in s * k
          ensures (e.key.None? || e.key.value in s * k) && e.val.Some? ==> e.val.value in s * k
        {
          InnerEntry(h, h', roots, s, o, e);
        }
      }
    }
  }

  lemma InnerEntry(h: Heap, h': Heap, roots: set<Id>, s: set<Id>, o: Id, e: Entry)
    requires Closed(h, Kept(h, roots)) && Lossless(h, roots, h') && Closed(h', s)
    requires o in s && o in Kept(h, roots) && h[o].Ephemeron? && e in h[o].entries
    ensures StringKey(h, e) ==> e.key.value in s * Kept(h, roots)
    ensures (e.key.None? || e.key.value in s * Kept(h, roots)) && e.val.Some? ==> e.val.value in s * Kept(h, roots)
  {
    hide Reachable;
    var k := Kept(h, roots);
    assert o in h' && KeptWhole(h, roots, h[o], h'[o]) && h'[o].Ephemeron?;
    if StringKey(h, e) {
      assert e.key.value in k;
      assert e in h'[o].entries;
      assert KeptWhole(h, roots, h[e.key.value], h'[e.key.value]);
      assert StringKey(h', e);
    }
    if (e.key.None? || e.key.value in s * k) && e.val.Some? {
      assert e.val.value in k;
      assert e in h'[o].entries;
    }
  }

  lemma LosslessTrans(h: Heap, h': Heap, h'': Heap, roots: set<Id>)
    requires Closed(h, Kept(h, roots)) && roots <= Kept(h, roots) && Lossless(h, roots, h') && Lossless(h', roots, h'')
    ensures Lossless(h, roots, h'')
  {
    hide Reachable, Closed, Kept;
    forall o | o in h && Reachable(h, roots, o)
      ensures o in h'' && KeptWhole(h, roots, h[o], h''[o])
    {
      StillReachable(h, h', roots, o);
      assert o in h' && o in h'';
      if h[o].Ephemeron? {
        forall e | e in h[o].entries && e !in h''[o].entries
          ensures e.key.Some? && !Reachable(h, roots, e.key.value)
        {
          if e in h'[o].entries && Reachable(h, roots, e.key.value) {
            StillReachable(h, h', roots, e.key.value);
          }
        }
      }
    }
  }

  /** Freeing unreachable objects changes nothing about what is reachable. */
  lemma SameKept(h: Heap, h': Heap, roots: set<Id>)
    requires Closed(h, Kept(h, roots)) && roots <= Kept(h, roots) && Lossless(h, roots, h') && Part(h', h)
    requires Closed(h', Kept(h', roots)) && roots <= Kept(h', roots)
    ensures Kept(h, roots) == Kept(h', roots)
  {
    hide Closed, Reachable, KeptWhole;
    forall o | o in Kept(h, roots)
      ensures o in Kept(h', roots)
    {
      StillReachable(h, h', roots, o);
    }
    PartClosed(h, h', Kept(h, roots));
    KeptLeast(h', roots, Kept(h, roots));
  }

  /** A closed set of objects that are left is still closed. */
  lemma PartClosed(h: Heap, h': Heap, s: set<Id>)
    requires Closed(h, s) && Part(h', h)
    ensures Closed(h', s)
  {
  }

  /** At the end of a tight cycle only `k` is left. */
  lemma OnlyKept(p: Phase, h: Heap, c: Colours, cw: bool, main: Id, running: Id, globals: seq<Id>, done: seq<Id>, todo: seq<Id>, k: set<Id>)
    requires p.CallFin? && Sound(h, c, cw, main, running, globals, done, todo) && Stage(p, c, cw, done, todo, main) && LiveIn(c, cw, k)
    ensures h.Keys <= k
  {
  }

  lemma PartKept(h: Heap, h': Heap, h'': Heap, roots: set<Id>)
    requires h'.Keys <= Kept(h, roots) && Part(h'', h') && Lossless(h, roots, h'')
    ensures h''.Keys == Kept(h, roots)
  {
    hide Reachable;
  }

  lemma ListedAgain(h: Heap, c: Colours, cw: bool, main: Id, running: Id, globals: seq<Id>, all: seq<Id>)
    requires Sound(h, c, cw, main, running, globals, all, [])
    ensures Sound(h, c, cw, main, running, globals, [], all)
  {
    var none: seq<Id> := [];
    forall o
      ensures multiset(none)[o] + multiset(all)[o] == if o in h && o != main then 1 else 0
    {
      assert multiset(all)[o] + multiset(none)[o] == if o in h && o != main then 1 else 0;
    }
  }

  lemma StillSound(h: Heap, c: Colours, c': Colours, cw: bool, main: Id, running: Id, globals: seq<Id>, done: seq<Id>)
    requires Sound(h, c, cw, main, running, globals, done, []) && NoDead(c, cw) && Further(c, c') && NonWhite(c, main)
    ensures Sound(h, c', cw, main, running, globals, done, []) && NoDead(c', cw) && NonWhite(c', main)
  {
    DarkerSound(h, c, c', cw, main, running, globals, done, []);
  }

  /** When the list has been swept to its end, all but the main thread is white. */
  lemma AllSwept(h: Heap, c: Colours, cw: bool, main: Id, running: Id, globals: seq<Id>, done: seq<Id>)
    requires Sound(h, c, cw, main, running, globals, done, []) && forall o :: o in done ==> o in c && c[o] == White(cw)
    ensures AllWhite(c - {main}, cw)
  {
    var none: seq<Id> := [];
    forall o | o in c - {main}
      ensures c[o] == White(cw)
    {
      assert multiset(done)[o] + multiset(none)[o] == 1;
      assert o in done;
    }
  }

  lemma MainWhite(h: Heap, c: Colours, cw: bool, main: Id, running: Id, globals: seq<Id>, done: seq<Id>)
    requires Sound(h, c, cw, main, running, globals, done, []) && AllWhite(c - {main}, cw)
    ensures Sound(h, c[main := White(cw)], cw, main, running, globals, done, []) && AllWhite(c[main := White(cw)], cw)
  {
    var c' := c[main := White(cw)];
    forall o | o in c'
      ensures c'[o] == White(cw)
    {
      if o != main {
        assert o in c - {main};
      }
    }
    assert forall o :: Live(c', cw, o) <==> o in c;
    forall o, r | o in h && Live(c', cw, o) && Refers(h[o], r)
      ensures r in h && Live(c', cw, r)
    {
      assert Live(c, cw, o) by {
        if o != main {
          assert o in c - {main};
        }
      }
    }
  }

  /** A closed set over the roots holds all that is reachable. */
  lemma ReachableIn(h: Heap, roots: set<Id>, s: set<Id>, o: Id)
    requires roots <= s && Closed(h, s) && Reachable(h, roots, o)
    ensures o in s
  {
  }

  /** The atomic step and the sweep it starts keep what is reachable. */
  lemma CollectedSafely(h: Heap, c: Colours, cw: bool, roots: set<Id>, s: seq<Id>, swept: seq<Id>)
    requires roots <= Marked(c) && Closed(h, Marked(c)) && forall o :: Live(c, cw, o) <==> o in Marked(c)
    ensures Lossless(h, roots, SweptHeap(ClearedHeap(h, c, s), c, cw, swept))
  {
    hide Closed, Reachable, Live, Marked;
    var h' := SweptHeap(ClearedHeap(h, c, s), c, cw, swept);
    forall o | o in h && Reachable(h, roots, o)
      ensures o in h' && KeptWhole(h, roots, h[o], h'[o])
    {
      ReachableIn(h, roots, Marked(c), o);
      assert Live(c, cw, o);
      ClearedKeeps(h, c, s, roots, o);
    }
  }

  lemma ClearedKeeps(h: Heap, c: Colours, s: seq<Id>, roots: set<Id>, o: Id)
    requires o in h && roots <= Marked(c) && Closed(h, Marked(c))
    ensures KeptWhole(h, roots, h[o], ClearedHeap(h, c, s)[o])
  {
    hide Closed, Reachable;
    var ob' := ClearedHeap(h, c, s)[o];
    if h[o].Ephemeron? {
      forall e | e in h[o].entries && e !in ob'.entries
        ensures e.key.Some? && !Reachable(h, roots, e.key.value)
      {
        assert !KeyMarked(c, e);
        assert e.key.value !in Marked(c);
        if Reachable(h, roots, e.key.value) {
          ReachableIn(h, roots, Marked(c), e.key.value);
        }
      }
    }
  }

  /** The live objects are closed under every reference, so the roots lead to live objects only. */
  lemma AccessibleLive(h: Heap, c: Colours, cw: bool, main: Id, running: Id, globals: seq<Id>, done: seq<Id>, todo: seq<Id>, o: Id)
    requires Sound(h, c, cw, main, running, globals, done, todo) && Accessible(h, RootSet(main, running, globals), o)
    ensures o in h && Live(c, cw, o)
  {
    var s := set p | p in h && Live(c, cw, p);
    assert RootSet(main, running, globals) <= s;
    assert ClosedUnderAll(h, s);
  }

  lemma ReachableAccessible(h: Heap, roots: set<Id>, o: Id)
    requires Reachable(h, roots, o)
    ensures Accessible(h, roots, o)
  {
    forall s: set<Id> | roots <= s && ClosedUnderAll(h, s)
      ensures o in s
    {
      AllIsClosed(h, s);
    }
  }

  lemma AllIsClosed(h: Heap, s: set<Id>)
    requires ClosedUnderAll(h, s)
    ensures Closed(h, s)
  {
    forall p | p in s && p in h
      ensures forall r :: Strong(h[p], r) ==> r in s
      ensures h[p].Ephemeron? ==> forall e :: e in h[p].entries ==>
                && (e.key.Some? ==> e.key.value in s) && (e.val.Some? ==> e.val.value in s)
    {
      if h[p].Ephemeron? {
        forall e | e in h[p].entries
          ensures (e.key.Some? ==> e.key.value in s) && (e.val.Some? ==> e.val.value in s)
        {
          assert e.key.Some? ==> Refers(h[p], e.key.value);
          assert e.val.Some? ==> Refers(h[p], e.val.value);
        }
      }
    }
  }

  /** What the sweep frees is dead, and the dead are unreachable. */
  lemma SweptSafely(h: Heap, c: Colours, cw: bool, main: Id, running: Id, globals: seq<Id>, done: seq<Id>, todo: seq<Id>, n: nat)
    requires Sound(h, c, cw, main, running, globals, done, todo) && n <= |todo|
    ensures Lossless(h, RootSet(main, running, globals), SweptHeap(h, c, cw, todo[..n]))
  {
    hide Reachable, Accessible, Sound, Live;
    var roots, h' := RootSet(main, running, globals), SweptHeap(h, c, cw, todo[..n]);
    forall o | o in h && Reachable(h, roots, o)
      ensures o in h' && h'[o] == h[o]
    {
      ReachableAccessible(h, roots, o);
      AccessibleLive(h, c, cw, main, running, globals, done, todo, o);
    }
  }

  // ---------------------------------------------------------------------------------------------
  // The mutator
  // ---------------------------------------------------------------------------------------------

  predicate SameKind(ob: Object, ob': Object) {
    && (ob.Str? <==> ob'.Str?) && (ob.Udata? <==> ob'.Udata?) && (ob.Closure? <==> ob'.Closure?)
    && (ob.Table? <==> ob'.Table?) && (ob.Ephemeron? <==> ob'.Ephemeron?)
  }

  /** While the invariant is kept, a black object refers to no white one, not even weakly. */
  lemma BlackAllMarked(h: Heap, c: Colours, l: Lists, o: Id)
    requires MarkOk(h, c, l, {}) && !l.final && o in h && o in c && c[o].Black?
    ensures !h[o].Thread? && forall r :: Refers(h[o], r) ==> NonWhite(c, r)
    ensures Occurs(l, o) == 0
  {
    assert Occurs(l, o) <= Room(h, c, o);
    assert !Waiting(l, o) && o !in l.ephemeron && o !in l.allweak;
    assert Settled(h, c, l, o);
    if h[o].Ephemeron? {
      forall e | e in h[o].entries
        ensures KeyMarked(c, e) && ValMarked(c, e)
      {
      }
    }
  }

  /** While the invariant is kept, a gray table, closure or thread is in a list that will be visited. */
  lemma GrayWaits(h: Heap, c: Colours, l: Lists, o: Id)
    requires MarkOk(h, c, l, {}) && !l.final && o in h && o in c && c[o].Gray?
    ensures Waiting(l, o)
  {
  }

  /** A store that leaves no black object with a white reference needs no barrier. */
  lemma StoredClosed(h: Heap, c: Colours, l: Lists, o: Id, ob: Object, v: Option<Id>)
    requires MarkOk(h, c, l, {}) && !l.final && o in h && l.ephemeron == [] && l.allweak == []
    requires SameKind(h[o], ob) || ((h[o].Table? || h[o].Ephemeron?) && (ob.Table? || ob.Ephemeron?))
    requires !ob.Thread? && !ob.Str?
    requires v.Some? ==> v.value in h && !(c[o].Black? && c[v.value].White?)
    requires forall r: Id :: Refers(ob, r) ==> Refers(h[o], r) || v == Some(r)
    ensures MarkOk(h[o := ob], c, l, {})
  {
    hide Refers;
    StoredOpen(h, c, l, o, ob);
    if c[o].Black? {
      BlackAllMarked(h, c, l, o);
      MarkedSettled(h[o := ob], c, l, o);
      CloseLast(h[o := ob], c, l, o);
    } else if c[o].Gray? {
      GrayWaits(h, c, l, o);
      CloseLast(h[o := ob], c, l, o);
    } else {
      CloseWhite(h[o := ob], c, l, o);
    }
  }

  lemma MarkedSettled(h: Heap, c: Colours, l: Lists, o: Id)
    requires o in h && o in c && c[o].Black? && !h[o].Thread? && forall r :: Refers(h[o], r) ==> NonWhite(c, r)
    ensures Settled(h, c, l, o)
  {
    if h[o].Ephemeron? {
      forall e | e in h[o].entries
        ensures KeyMarked(c, e) && ValMarked(c, e)
      {
        assert e.key.Some? ==> Refers(h[o], e.key.value);
        assert e.val.Some? ==> Refers(h[o], e.val.value);
      }
    }
  }

  lemma CloseWhite(h: Heap, c: Colours, l: Lists, o: Id)
    requires MarkOk(h, c, l, {o}) && o in c && c[o].White?
    ensures MarkOk(h, c, l, {})
  {
  }

  /** A store, before its barrier: only the object stored into may be in want of a visit. */
  lemma StoredOpen(h: Heap, c: Colours, l: Lists, o: Id, ob: Object)
    requires MarkOk(h, c, l, {}) && !l.final && o in h && l.ephemeron == [] && l.allweak == []
    requires Visitable(ob) == Visitable(h[o]) && !ob.Str? && !h[o].Str?
    requires forall r: Id :: Refers(ob, r) ==> r in h
    ensures MarkOk(h[o := ob], c, l, {o})
  {
    var h' := h[o := ob];
    forall p
      ensures Occurs(l, p) <= Room(h', c, p)
    {
      assert Occurs(l, p) <= Room(h, c, p);
    }
    forall p | p in h' && NonWhite(c, p)
      ensures p in {o} || Waiting(l, p) || Settled(h', c, l, p)
    {
      if p != o && !Waiting(l, p) {
        assert Settled(h, c, l, p);
        assert forall e :: StringKey(h', e) <==> StringKey(h, e);
      }
    }
  }

  lemma ThreadStored(h: Heap, c: Colours, l: Lists, t: Id, ob: Object)
    requires MarkOk(h, c, l, {}) && !l.final && t in h && h[t].Thread? && ob.Thread? && l.ephemeron == [] && l.allweak == []
    requires forall r: Id :: Refers(ob, r) ==> r in h
    ensures MarkOk(h[t := ob], c, l, {})
  {
    hide Refers;
    StoredOpen(h, c, l, t, ob);
    if c[t].White? {
      CloseWhite(h[t := ob], c, l, t);
    } else {
      assert Waiting(l, t);
      CloseLast(h[t := ob], c, l, t);
    }
  }

  /** The backward barrier. */
  lemma StoredBack(h: Heap, c: Colours, l: Lists, o: Id, ob: Object)
    requires MarkOk(h, c, l, {}) && !l.final && o in h && l.ephemeron == [] && l.allweak == []
    requires Visitable(ob) && Visitable(h[o]) && c[o].Black?
    requires forall r: Id :: Refers(ob, r) ==> r in h
    ensures MarkOk(h[o := ob], c[o := Gray], l.(rest := [o] + l.rest), {})
  {
    hide Refers;
    StoredOpen(h, c, l, o, ob);
    BlackAllMarked(h, c, l, o);
    OpenRecolour(h[o := ob], c, l, {o}, o, Gray);
    LinkRest(h[o := ob], c[o := Gray], l, o);
  }

  /** The forward barrier, once the white object has been marked. */
  lemma StoredForward(h: Heap, c: Colours, l: Lists, c': Colours, l': Lists, o: Id, ob: Object, v: Id)
    requires MarkOk(h, c, l, {}) && !l.final && o in h && c[o].Black? && !ob.Thread?
    requires MarkOk(h[o := ob], c', l', {o}) && Marks(c, l, c', l') && NonWhite(c', v)
    requires forall r: Id :: Refers(ob, r) ==> Refers(h[o], r) || r == v
    ensures MarkOk(h[o := ob], c', l', {}) && (l.gray != [] ==> l'.gray != [])
  {
    hide Refers;
    if l.gray != [] {
      assert l.gray[0] in l'.gray;
    }
    BlackAllMarked(h, c, l, o);
    MarkedStays(c, l, c', l');
    MarkedSettled(h[o := ob], c', l', o);
    CloseLast(h[o := ob], c', l', o);
  }

  lemma MainStays(c: Colours, main: Id, o: Id)
    requires NonWhite(c, main)
    ensures NonWhite(c[o := Gray], main)
  {
  }

  lemma MainDarker(c: Colours, c': Colours, main: Id)
    requires NonWhite(c, main) && Darker(c, c')
    ensures NonWhite(c', main)
  {
  }

  lemma AccessibleAll(h: Heap, c: Colours, cw: bool, main: Id, running: Id, globals: seq<Id>, done: seq<Id>, todo: seq<Id>, ob: Object)
    requires Sound(h, c, cw, main, running, globals, done, todo)
    requires forall r: Id :: Refers(ob, r) ==> Accessible(h, RootSet(main, running, globals), r)
    ensures forall r: Id :: Refers(ob, r) ==> r in h && Live(c, cw, r)
  {
    forall r | Refers(ob, r)
      ensures r in h && Live(c, cw, r)
    {
      AccessibleLive(h, c, cw, main, running, globals, done, todo, r);
    }
  }

  /** Any object may come to refer to live objects. */
  lemma Stored(h: Heap, c: Colours, cw: bool, main: Id, running: Id, globals: seq<Id>, done: seq<Id>, todo: seq<Id>, o: Id, ob: Object)
    requires Sound(h, c, cw, main, running, globals, done, todo) && o in h && (h[o].Thread? <==> ob.Thread?)
    requires forall r: Id :: Refers(ob, r) ==> r in h && Live(c, cw, r)
    ensures Sound(h[o := ob], c, cw, main, running, globals, done, todo)
  {
    hide Refers;
    var h' := h[o := ob];
    assert h'.Keys == h.Keys;
    assert LiveClosed(h', c, cw);
    forall p
      ensures multiset(done)[p] + multiset(todo)[p] == if p in h' && p != main then 1 else 0
    {
    }
  }

  lemma StoredAccessible(h: Heap, c: Colours, cw: bool, main: Id, running: Id, globals: seq<Id>, done: seq<Id>, todo: seq<Id>,
                         o: Id, ob: Object, v: Option<Id>)
    requires Sound(h, c, cw, main, running, globals, done, todo) && o in h && !h[o].Thread? && !ob.Thread?
    requires Accessible(h, RootSet(main, running, globals), o)
    requires v.Some? ==> Accessible(h, RootSet(main, running, globals), v.value)
    requires forall r: Id :: Refers(ob, r) ==> Refers(h[o], r) || v == Some(r)
    ensures Sound(h[o := ob], c, cw, main, running, globals, done, todo)
    ensures o in c && o != main && (v.Some? ==> v.value in h && v.value in c) && forall r: Id :: Refers(ob, r) ==> r in h
  {
    hide Refers, Accessible;
    AccessibleLive(h, c, cw, main, running, globals, done, todo, o);
    if v.Some? {
      AccessibleLive(h, c, cw, main, running, globals, done, todo, v.value);
    }
    Stored(h, c, cw, main, running, globals, done, todo, o, ob);
  }

  lemma Recoloured(h: Heap, c: Colours, cw: bool, main: Id, running: Id, globals: seq<Id>, done: seq<Id>, todo: seq<Id>, o: Id, col: Colour)
    requires Sound(h, c, cw, main, running, globals, done, todo) && o in c && c[o].Black? && col != White(!cw)
    ensures Sound(h, c[o := col], cw, main, running, globals, done, todo)
  {
    hide Refers, Listed;
    assert forall p :: Live(c[o := col], cw, p) <==> Live(c, cw, p);
  }

  /** Outside marking a black object is one the sweep has not come to. */
  lemma RecolouredStage(p: Phase, c: Colours, cw: bool, main: Id, done: seq<Id>, todo: seq<Id>, o: Id, col: Colour)
    requires Stage(p, c, cw, done, todo, main) && o in c && c[o].Black? && o != main && col != White(!cw)
    ensures Stage(p, c[o := col], cw, done, todo, main) && (KeepInvariant(p) || p.SwpAllgc?)
  {
    assert o in c - {main};
  }

  lemma WhiteStage(p: Phase, c: Colours, cw: bool, main: Id, done: seq<Id>, todo: seq<Id>, o: Id)
    requires Stage(p, c, cw, done, todo, main) && o !in c
    ensures Stage(p, c[o := White(cw)], cw, [o] + done, todo, main)
    ensures todo != [] ==> Stage(p, c[o := White(cw)], cw, done, [o] + todo, main)
  {
    var c' := c[o := White(cw)];
    forall q | q in c' - {main} && AllWhite(c - {main}, cw)
      ensures c'[q] == White(cw)
    {
      if q != o {
        assert q in c - {main};
      }
    }
  }

  /** A new object, held by the stack of the running thread. */
  lemma Allocated(h: Heap, c: Colours, cw: bool, main: Id, running: Id, globals: seq<Id>, done: seq<Id>, todo: seq<Id>, o: Id, ob: Object)
    requires Sound(h, c, cw, main, running, globals, done, todo) && o !in h
    requires forall r: Id :: Refers(ob, r) ==> Accessible(h, RootSet(main, running, globals), r)
    ensures running in h && h[running].Thread? && o !in c
    ensures var h', c' := h[o := ob][running := Thread(h[running].refs + [o])], c[o := White(cw)];
            && Sound(h', c', cw, main, running, globals, [o] + done, todo)
            && Sound(h', c', cw, main, running, globals, done, [o] + todo)
  {
    hide Sound, Accessible, Refers, Live;
    RunningThread(h, c, cw, main, running, globals, done, todo);
    AllocatedWhite(h, c, cw, main, running, globals, done, todo, o, ob);
    var h1, c' := h[o := ob], c[o := White(cw)];
    var th := Thread(h[running].refs + [o]);
    StackLive(h, c, cw, main, running, globals, done, todo, o, ob);
    Stored(h1, c', cw, main, running, globals, [o] + done, todo, running, th);
    Stored(h1, c', cw, main, running, globals, done, [o] + todo, running, th);
  }

  lemma RunningThread(h: Heap, c: Colours, cw: bool, main: Id, running: Id, globals: seq<Id>, done: seq<Id>, todo: seq<Id>)
    requires Sound(h, c, cw, main, running, globals, done, todo)
    ensures running in h && h[running].Thread? && h.Keys == c.Keys
  {
  }

  lemma AllocatedWhite(h: Heap, c: Colours, cw: bool, main: Id, running: Id, globals: seq<Id>, done: seq<Id>, todo: seq<Id>, o: Id, ob: Object)
    requires Sound(h, c, cw, main, running, globals, done, todo) && o !in h
    requires forall r: Id :: Refers(ob, r) ==> Accessible(h, RootSet(main, running, globals), r)
    ensures Sound(h[o := ob], c[o := White(cw)], cw, main, running, globals, [o] + done, todo)
    ensures Sound(h[o := ob], c[o := White(cw)], cw, main, running, globals, done, [o] + todo)
  {
    hide Accessible, Refers, Listed, LiveClosed;
    AccessibleAll(h, c, cw, main, running, globals, done, todo, ob);
    AllocatedClosed(h, c, cw, o, ob);
    AllocatedListed(h, main, done, todo, o, ob);
  }

  /** What the running thread refers to, with the new object on its stack, is live. */
  lemma StackLive(h: Heap, c: Colours, cw: bool, main: Id, running: Id, globals: seq<Id>, done: seq<Id>, todo: seq<Id>, o: Id, ob: Object)
    requires Sound(h, c, cw, main, running, globals, done, todo) && o !in h && running in h && h[running].Thread?
    ensures forall r :: Refers(Thread(h[running].refs + [o]), r) ==> r in h[o := ob] && Live(c[o := White(cw)], cw, r)
  {
    hide Refers, Listed;
    Pushed(h[running], o);
  }

  lemma Pushed(th: Object, o: Id)
    requires th.Thread?
    ensures forall r :: Refers(Thread(th.refs + [o]), r) ==> r == o || Refers(th, r)
  {
  }

  lemma AllocatedClosed(h: Heap, c: Colours, cw: bool, o: Id, ob: Object)
    requires LiveClosed(h, c, cw) && h.Keys == c.Keys && o !in h
    requires forall r: Id :: Refers(ob, r) ==> r in h && Live(c, cw, r)
    ensures LiveClosed(h[o := ob], c[o := White(cw)], cw)
  {
  }

  lemma AllocatedListed(h: Heap, main: Id, done: seq<Id>, todo: seq<Id>, o: Id, ob: Object)
    requires Listed(h, main, done, todo) && o !in h && main in h
    ensures Listed(h[o := ob], main, [o] + done, todo) && Listed(h[o := ob], main, done, [o] + todo)
  {
    forall p
      ensures multiset([o] + done)[p] + multiset(todo)[p] == if p in h[o := ob] && p != main then 1 else 0
      ensures multiset(done)[p] + multiset([o] + todo)[p] == if p in h[o := ob] && p != main then 1 else 0
    {
      assert multiset([o] + done) == multiset{o} + multiset(done);
      assert multiset([o] + todo) == multiset{o} + multiset(todo);
      assert multiset(done)[p] + multiset(todo)[p] == if p in h && p != main then 1 else 0;
    }
  }

  lemma AllocatedMark(h: Heap, c: Colours, cw: bool, l: Lists, main: Id, running: Id, globals: seq<Id>, done: seq<Id>, todo: seq<Id>, o: Id, ob: Object)
    requires Sound(h, c, cw, main, running, globals, done, todo) && o !in h && MarkOk(h, c, l, {}) && NonWhite(c, main)
    requires !l.final && l.ephemeron == [] && l.allweak == []
    requires forall r: Id :: Refers(ob, r) ==> Accessible(h, RootSet(main, running, globals), r)
    ensures var h', c' := h[o := ob][running := Thread(h[running].refs + [o])], c[o := White(cw)];
            MarkOk(h', c', l, {}) && NonWhite(c', main)
  {
    hide Accessible;
    AccessibleAll(h, c, cw, main, running, globals, done, todo, ob);
    NewOk(h, c, cw, l, o, ob);
    var h1, c', th := h[o := ob], c[o := White(cw)], Thread(h[running].refs + [o]);
    Pushed(h[running], o);
    ThreadStored(h1, c', l, running, th);
  }

  lemma NewOk(h: Heap, c: Colours, cw: bool, l: Lists, o: Id, ob: Object)
    requires MarkOk(h, c, l, {}) && o !in h && forall r: Id :: Refers(ob, r) ==> r in h
    ensures MarkOk(h[o := ob], c[o := White(cw)], l, {})
  {
    var h', c' := h[o := ob], c[o := White(cw)];
    forall p
      ensures Occurs(l, p) <= Room(h', c', p)
    {
      assert Occurs(l, p) <= Room(h, c, p);
    }
    forall p | p in h' && NonWhite(c', p)
      ensures Waiting(l, p) || Settled(h', c', l, p)
    {
      assert NonWhite(c, p);
      assert Waiting(l, p) || Settled(h, c, l, p);
      if !Waiting(l, p) {
        NewSettled(h, c, cw, l, o, ob, p);
      }
    }
  }

  lemma NewSettled(h: Heap, c: Colours, cw: bool, l: Lists, o: Id, ob: Object, p: Id)
    requires HeapOk(h, c) && o !in h && p in h && p != o && NonWhite(c, p) && Settled(h, c, l, p)
    ensures Settled(h[o := ob], c[o := White(cw)], l, p)
  {
    var h', c' := h[o := ob], c[o := White(cw)];
    assert forall r :: NonWhite(c, r) <==> NonWhite(c', r);
    if h[p].Ephemeron? {
      forall e | e in h[p].entries
        ensures StringKey(h', e) <==> StringKey(h, e)
      {
        assert e.key.Some? ==> Refers(h[p], e.key.value);
      }
    }
  }

  /** From one step to the next a marked object stays marked, and a black one black. */
  ghost predicate Further(c: Colours, c': Colours) {
    c.Keys == c'.Keys && forall o :: o in c && c'[o] != c[o] ==> !c'[o].White? && !c[o].Black?
  }

  /** The two parts of an ephemeron traversal together. */
  lemma TwoParts(h: Heap, c0: Colours, l0: Lists, c1: Colours, l1: Lists, c: Colours, l: Lists, o: Id, m1: bool, m2: bool)
    requires Marks(c0, l0, c1, l1) && Marks(c1, l1, c, l) && NonWhite(c0, o)
    requires if m1 then Whites(c1) < Whites(c0) else c1 == c0 && l1.gray == l0.gray
    requires if m2 then Whites(c) < Whites(c1) else l.gray == l1.gray && OnlyStrings(h, c1, c)
    ensures if m1 || m2 then Whites(c) < Whites(c0) else l.gray == l0.gray && OnlyStrings(h, c0, c)
    ensures Darker(c0, c) && NonWhite(c, o) && c[o] == c0[o] && Occurs(l, o) == Occurs(l0, o)
    ensures forall r :: NonWhite(c0, r) ==> NonWhite(c, r)
    ensures forall r :: NonWhite(c1, r) ==> NonWhite(c, r)
  {
    assert Whites(c1) <= Whites(c0) && Whites(c) <= Whites(c1);
  }

  lemma MarksDarker(c: Colours, l: Lists, c': Colours, l': Lists)
    requires Marks(c, l, c', l')
    ensures Darker(c, c')
  {
  }

  lemma EphemeronVisited(h: Heap, c: Colours, o: Id, marked: bool, hasclears: bool, hasww: bool)
    requires o in h && h[o].Ephemeron?
    requires h[o].meta.Some? ==> NonWhite(c, h[o].meta.value)
    requires forall j :: 0 <= j < |h[o].refs| ==> NonWhite(c, h[o].refs[j])
    requires forall j :: 0 <= j < |h[o].entries| ==> EntryDone(h, c, h[o].entries[j], marked, hasclears, hasww)
    requires hasww ==> hasclears
    ensures StrongMarked(c, h[o]) && StringsMarked(h, c, h[o].entries)
    ensures !hasww ==> EntriesMarked(c, h[o].entries, true)
    ensures !hasclears ==> EntriesMarked(c, h[o].entries, false)
    ensures !marked ==> Converged(c, h[o].entries)
  {
  }

  /** An object whose visit is over, put back into a list. */
  lemma LinkRest(h: Heap, c: Colours, l: Lists, o: Id)
    requires MarkOk(h, c, l, {o}) && o in h && c[o].Gray? && Occurs(l, o) == 0 && Visitable(h[o])
    ensures MarkOk(h, c, l.(rest := [o] + l.rest), {})
  {
    var l' := l.(rest := [o] + l.rest);
    LinkedOne(h, c, l, l', o);
    forall p | p in h && NonWhite(c, p)
      ensures Waiting(l', p) || Settled(h, c, l', p)
    {
    }
  }

  lemma LinkedOne(h: Heap, c: Colours, l: Lists, l': Lists, o: Id)
    requires Linked(h, c, l) && o in c && c[o].Gray? && Occurs(l, o) == 0 && o in h && Visitable(h[o])
    requires l' == l.(rest := [o] + l.rest) || h[o].Ephemeron?
    requires l' == l.(rest := [o] + l.rest) || l' == l.(ephemeron := [o] + l.ephemeron) || l' == l.(allweak := [o] + l.allweak)
    ensures Linked(h, c, l')
  {
    forall p
      ensures Occurs(l', p) <= Room(h, c, p)
    {
      assert Occurs(l, p) <= Room(h, c, p);
      assert multiset([o] + l.rest) == multiset{o} + multiset(l.rest);
      assert multiset([o] + l.ephemeron) == multiset{o} + multiset(l.ephemeron);
      assert multiset([o] + l.allweak) == multiset{o} + multiset(l.allweak);
    }
  }

  lemma LinkEphemeron(h: Heap, c: Colours, l: Lists, o: Id)
    requires MarkOk(h, c, l, {o}) && o in h && c[o].Gray? && Occurs(l, o) == 0 && l.final && h[o].Ephemeron?
    requires StrongMarked(c, h[o]) && StringsMarked(h, c, h[o].entries)
    ensures MarkOk(h, c, l.(ephemeron := [o] + l.ephemeron), {})
  {
    var l' := l.(ephemeron := [o] + l.ephemeron);
    LinkedOne(h, c, l, l', o);
    forall p | p in h && NonWhite(c, p)
      ensures Waiting(l', p) || Settled(h, c, l', p)
    {
    }
  }

  lemma LinkAllweak(h: Heap, c: Colours, l: Lists, o: Id)
    requires MarkOk(h, c, l, {o}) && o in h && c[o].Gray? && Occurs(l, o) == 0 && l.final && h[o].Ephemeron?
    requires StrongMarked(c, h[o]) && StringsMarked(h, c, h[o].entries) && EntriesMarked(c, h[o].entries, true)
    ensures MarkOk(h, c, l.(allweak := [o] + l.allweak), {})
  {
    var l' := l.(allweak := [o] + l.allweak);
    LinkedOne(h, c, l, l', o);
    forall p | p in h && NonWhite(c, p)
      ensures Waiting(l', p) || Settled(h, c, l', p)
    {
    }
  }

  lemma LinkNone(h: Heap, c: Colours, l: Lists, o: Id)
    requires MarkOk(h, c, l, {o}) && o in h && c[o].Gray? && l.final && h[o].Ephemeron?
    requires StrongMarked(c, h[o]) && StringsMarked(h, c, h[o].entries) && EntriesMarked(c, h[o].entries, false)
    ensures MarkOk(h, c, l, {})
  {
    assert Settled(h, c, l, o);
    CoveredClose(h, c, l, {}, o);
  }

  /** Taking the first gray object out of its list, blackened, to visit it. */
  lemma PopGray(h: Heap, c: Colours, l: Lists)
    requires MarkOk(h, c, l, {}) && l.gray != []
    ensures l.gray[0] in h && l.gray[0] in c && c[l.gray[0]].Gray? && Visitable(h[l.gray[0]])
    ensures Occurs(l.(gray := l.gray[1..]), l.gray[0]) == 0
    ensures MarkOk(h, c[l.gray[0] := Black], l.(gray := l.gray[1..]), {l.gray[0]})
  {
    var o, l' := l.gray[0], l.(gray := l.gray[1..]);
    var c' := c[o := Black];
    assert l.gray == [o] + l.gray[1..];
    assert multiset(l.gray) == multiset{o} + multiset(l.gray[1..]);
    assert Occurs(l, o) <= Room(h, c, o);
    forall p
      ensures Occurs(l', p) <= Room(h, c', p)
    {
      assert Occurs(l, p) <= Room(h, c, p);
    }
    assert forall r :: NonWhite(c, r) <==> NonWhite(c', r);
    forall p | p in h && NonWhite(c', p)
      ensures p in {o} || Waiting(l', p) || Settled(h, c', l', p)
    {
      if p != o && p in l.gray {
        assert p in l'.gray;
      }
    }
  }

  lemma ObjectRefs(h: Heap, c: Colours, l: Lists, open: set<Id>, o: Id)
    requires MarkOk(h, c, l, open) && o in h
    ensures (h[o].Table? || h[o].Ephemeron?) && h[o].meta.Some? ==> h[o].meta.value in h
    ensures !h[o].Str? && !h[o].Udata? ==> forall i :: 0 <= i < |h[o].refs| ==> h[o].refs[i] in h
  {
    if !h[o].Str? && !h[o].Udata? {
      forall i | 0 <= i < |h[o].refs|
        ensures h[o].refs[i] in h
      {
        assert Refers(h[o], h[o].refs[i]);
      }
      if h[o].Table? || h[o].Ephemeron? {
        assert h[o].meta.Some? ==> Refers(h[o], h[o].meta.value);
      }
    }
  }

  /** A strong object all of whose references have been marked is settled. */
  lemma Visited(h: Heap, c1: Colours, l1: Lists, c2: Colours, l2: Lists, c: Colours, l: Lists, o: Id)
    requires o in h && (h[o].Table? || h[o].Closure?) && o in c1 && c1[o].Black?
    requires Marks(c1, l1, c2, l2) && Marks(c2, l2, c, l)
    requires h[o].Table? && h[o].meta.Some? ==> NonWhite(c2, h[o].meta.value)
    requires forall i :: 0 <= i < |h[o].refs| ==> NonWhite(c, h[o].refs[i])
    ensures o in c && Settled(h, c, l, o)
    ensures Marks(c1, l1, c, l)
  {
    MarksTrans(c1, l1, c2, l2, c, l);
  }

  lemma CloseLast(h: Heap, c: Colours, l: Lists, o: Id)
    requires MarkOk(h, c, l, {o}) && o in h && (Waiting(l, o) || Settled(h, c, l, o))
    ensures MarkOk(h, c, l, {})
  {
    CoveredClose(h, c, l, {}, o);
  }

  lemma ThreadSettled(h: Heap, c2: Colours, l2: Lists, c: Colours, l: Lists, o: Id)
    requires o in h && h[o].Thread? && o in c2 && l2.final && Marks(c2, l2, c, l)
    requires forall i :: 0 <= i < |h[o].refs| ==> NonWhite(c, h[o].refs[i])
    ensures o in c && Settled(h, c, l, o)
  {
  }

  /** A visit brings the collector nearer its end. */
  lemma Progress(c0: Colours, l0: Lists, c1: Colours, l1: Lists, c: Colours, l: Lists)
    requires l0.gray != [] && l0.gray[0] in c0 && c0[l0.gray[0]].Gray?
    requires c1 == c0[l0.gray[0] := Black] || c1 == c0[l0.gray[0] := Black][l0.gray[0] := Gray]
    requires l1.gray == l0.gray[1..] && Marks(c1, l1, c, l)
    ensures Further(c0, c)
    ensures Whites(c) < Whites(c0) || (Whites(c) == Whites(c0) && |l.gray| < |l0.gray|)
  {
    assert Whites(c1) == Whites(c0);
    assert Whites(c) <= Whites(c1);
  }

  lemma EphemeronProgress(h: Heap, c0: Colours, l0: Lists, c2: Colours, l2: Lists, o: Id, marked: bool, c: Colours, gray: seq<Id>)
    requires Further(c0, c2) && o in c0 && c0[o].Gray?
    requires Whites(c2) < Whites(c0) || (Whites(c2) == Whites(c0) && |l2.gray| < |l0.gray|)
    requires Darker(c2[o := Gray], c)
    requires if marked then Whites(c) < Whites(c2[o := Gray])
             else gray == l2.gray && OnlyStrings(h, c2[o := Gray], c)
    ensures Further(c0, c)
    ensures Whites(c) < Whites(c0) || (Whites(c) == Whites(c0) && |gray| < |l0.gray|)
  {
    assert Whites(c2[o := Gray]) == Whites(c2);
    assert Whites(c) <= Whites(c2[o := Gray]);
  }

  /** What the traversal has done for an entry, given the flags it has raised. */
  ghost predicate EntryDone(h: Heap, c: Colours, e: Entry, marked: bool, hasclears: bool, hasww: bool) {
    && (StringKey(h, e) ==> KeyMarked(c, e))
    && (!hasww ==> ValMarked(c, e))
    && (!hasclears ==> KeyMarked(c, e))
    && (!marked && KeyMarked(c, e) ==> ValMarked(c, e))
  }

  /** One more entry visited. */
  lemma EntriesSoFar(h: Heap, c0: Colours, l0: Lists, c: Colours, l: Lists, c': Colours, l': Lists, es: seq<Entry>, e: Entry,
                     mk: bool, hc: bool, hw: bool, mk': bool, hc': bool, hw': bool)
    requires Marks(c0, l0, c, l) && Marks(c, l, c', l')
    requires if mk then Whites(c) < Whites(c0) else l.gray == l0.gray && OnlyStrings(h, c0, c)
    requires if mk' then Whites(c') < Whites(c) else l'.gray == l.gray && OnlyStrings(h, c, c')
    requires forall j :: 0 <= j < |es| ==> EntryDone(h, c, es[j], mk, hc, hw)
    requires EntryDone(h, c', e, mk', hc', hw')
    ensures Marks(c0, l0, c', l')
    ensures if mk || mk' then Whites(c') < Whites(c0) else l'.gray == l0.gray && OnlyStrings(h, c0, c')
    ensures forall j :: 0 <= j < |es| ==> EntryDone(h, c', es[j], mk || mk', hc || hc', hw || hw')
    ensures EntryDone(h, c', e, mk || mk', hc || hc', hw || hw')
  {
    MarksTrans(c0, l0, c, l, c', l');
    MarkedStays(c0, l0, c, l);
    MarkedStays(c, l, c', l');
    forall j | 0 <= j < |es|
      ensures EntryDone(h, c', es[j], mk || mk', hc || hc', hw || hw')
    {
      EntryDoneMono(h, c, c', es[j], mk, hc, hw, mk || mk', hc || hc', hw || hw');
    }
  }

  lemma EntryDoneMono(h: Heap, c: Colours, c': Colours, e: Entry,
                      mk: bool, hc: bool, hw: bool, mk': bool, hc': bool, hw': bool)
    requires EntryDone(h, c, e, mk, hc, hw)
    requires forall r :: NonWhite(c, r) ==> NonWhite(c', r)
    requires (mk ==> mk') && (hc ==> hc') && (hw ==> hw')
    requires !mk' ==> OnlyStrings(h, c, c')
    ensures EntryDone(h, c', e, mk', hc', hw')
  {
  }

  lemma EntryNow(h: Heap, c1: Colours, c: Colours, e: Entry, cleared: bool, marked: bool, hasclears: bool, hasww: bool)
    requires forall r :: NonWhite(c1, r) ==> NonWhite(c, r)
    requires (e.key.Some? ==> e.key.value in h) && (e.val.Some? ==> e.val.value in c1)
    requires cleared ==> e.key.Some? && !h[e.key.value].Str? && e.key.value in c1 && c1[e.key.value].White? && hasclears
    requires !cleared && e.key.Some? ==> NonWhite(c1, e.key.value)
    requires if cleared then c == c1 && (e.val.Some? && c1[e.val.value].White? ==> hasww)
             else e.val.Some? ==> NonWhite(c, e.val.value)
    ensures EntryDone(h, c, e, marked, hasclears, hasww)
  {
  }

  ghost predicate OnlyStrings(h: Heap, c: Colours, c': Colours) {
    c.Keys == c'.Keys && forall o :: o in c && c'[o] != c[o] ==> o in h && h[o].Str? && !c'[o].White?
  }

  lemma OnlyStringsSelf(h: Heap, c: Colours)
    ensures OnlyStrings(h, c, c)
  {
  }

  /** No entry of the table is owed a mark on its value. */
  ghost predicate Converged(c: Colours, es: seq<Entry>) {
    forall e :: e in es ==> KeyMarked(c, e) ==> ValMarked(c, e)
  }

  /** An entry with both ends white; a string is no such end. */
  ghost predicate WhiteWhite(h: Heap, c: Colours, e: Entry) {
    && e.key.Some? && e.val.Some? && e.key.value in Whites(c) && e.val.value in Whites(c)
    && e.key.value in h && !h[e.key.value].Str?
  }

  ghost predicate Pending(h: Heap, c: Colours, es: seq<Entry>) {
    exists e :: e in es && WhiteWhite(h, c, e)
  }

  /** An entry whose key is to be cleared if it stays white. */
  ghost predicate WhiteKey(h: Heap, c: Colours, e: Entry) {
    e.key.Some? && e.key.value in Whites(c) && e.key.value in h && !h[e.key.value].Str?
  }

  ghost predicate Clearable(h: Heap, c: Colours, es: seq<Entry>) {
    exists e :: e in es && WhiteKey(h, c, e)
  }

  lemma WhiteKeyBack(h: Heap, c: Colours, c': Colours, e: Entry)
    requires Whites(c') <= Whites(c)
    ensures WhiteKey(h, c', e) ==> WhiteKey(h, c, e)
  {
  }

  lemma ClearableBack(h: Heap, c: Colours, c': Colours, es: seq<Entry>)
    requires Whites(c') <= Whites(c)
    ensures Clearable(h, c', es) ==> Clearable(h, c, es)
  {
    hide Whites;
    if e :| e in es && WhiteKey(h, c', e) {
      WhiteKeyBack(h, c, c', e);
    }
  }

  lemma WhiteKeyNow(h: Heap, c: Colours, c1: Colours, e: Entry)
    requires Whites(c1) <= Whites(c) && h.Keys == c1.Keys
    ensures e.key.Some? && e.key.value in h && !h[e.key.value].Str? && c1[e.key.value].White? ==> WhiteKey(h, c, e)
  {
  }

  /** An entry neither end of which is in `u`. */
  ghost predicate Outside(h: Heap, u: set<Id>, e: Entry) {
    && e.key.Some? && e.val.Some? && e.key.value !in u && e.val.value !in u
    && e.key.value in h && e.val.value in h && !h[e.key.value].Str?
  }

  ghost predicate Lasting(h: Heap, u: set<Id>, es: seq<Entry>) {
    exists e :: e in es && Outside(h, u, e)
  }

  /** An ephemeron table that no marking inside `u` completes. */
  ghost predicate Stuck(h: Heap, u: set<Id>, t: Id) {
    t in h && h[t].Ephemeron? && Lasting(h, u, h[t].entries)
  }

  /** No table of `u` that is listed or white has an entry with both ends white. */
  ghost predicate Calm(h: Heap, c: Colours, gray: seq<Id>, u: set<Id>) {
    forall t :: t in u && t in h && h[t].Ephemeron? && (t in gray || t in Whites(c)) ==> !Pending(h, c, h[t].entries)
  }

  ghost predicate Filed(h: Heap, c: Colours, o: Id, e: seq<Id>, e': seq<Id>) {
    e' == [o] + e && o in h && h[o].Ephemeron? && Pending(h, c, h[o].entries)
  }

  /** A table whose visit comes first to an entry with both ends white. */
  ghost predicate Prompt(h: Heap, c: Colours, t: Id) {
    && t in h && h[t].Ephemeron? && h[t].meta.None? && h[t].refs == [] && h[t].entries != []
    && WhiteWhite(h, c, h[t].entries[0])
  }

  /** The gray list has lost no member, and gained only what was white. */
  ghost predicate GrayKept(c: Colours, g: seq<Id>, g': seq<Id>) {
    (forall x :: x in g ==> x in g') && (forall x :: x in g' ==> x in g || x in Whites(c))
  }

  /** The first in the list is no weak table, and refers to the key of every entry with both ends white in a table that
      may be visited. */
  ghost predicate CalmAfter(h: Heap, c: Colours, gray: seq<Id>, u: set<Id>) {
    && gray != [] && gray[0] in h && !h[gray[0]].Ephemeron?
    && forall t, e :: t in u && t in h && h[t].Ephemeron? && (t in gray || t in Whites(c)) && e in h[t].entries && WhiteWhite(h, c, e) ==>
         Strong(h[gray[0]], e.key.value)
  }

  /** The store that a barrier watches: a black object, a white reference. */
  ghost predicate Barred(c: Colours, o: Id, v: Option<Id>) {
    o in c && c[o].Black? && v.Some? && v.value in c && c[v.value].White?
  }

  /** Closures are never set aside for the atomic phase. */
  ghost predicate NoClosures(h: Heap, s: seq<Id>) {
    forall o :: o in s ==> o in h && !h[o].Closure?
  }

  lemma WhiteWhiteBack(h: Heap, c: Colours, c': Colours, e: Entry)
    requires Whites(c') <= Whites(c)
    ensures WhiteWhite(h, c', e) ==> WhiteWhite(h, c, e)
  {
  }

  lemma PendingBack(h: Heap, c: Colours, c': Colours, es: seq<Entry>)
    requires Whites(c') <= Whites(c)
    ensures Pending(h, c', es) ==> Pending(h, c, es)
  {
    hide Whites;
    if e :| e in es && WhiteWhite(h, c', e) {
      WhiteWhiteBack(h, c, c', e);
    }
  }

  /** What the two flags of an entry mean, once a string key has been marked. */
  lemma WhiteWhiteNow(h: Heap, c: Colours, c1: Colours, u: set<Id>, e: Entry)
    requires Within(h, c1, u) && Whites(c1) <= Whites(c) && h.Keys == c1.Keys
    ensures e.key.Some? && e.val.Some? && e.key.value in h && !h[e.key.value].Str? && e.val.value in h ==>
              c1[e.key.value].White? && c1[e.val.value].White? ==> WhiteWhite(h, c, e)
    ensures Outside(h, u, e) ==> e.key.value in c1 && c1[e.key.value].White? && e.val.value in c1 && c1[e.val.value].White?
    ensures Outside(h, u, e) ==> e.key.Some? && e.val.Some?
  {
    if Outside(h, u, e) {
      assert e.key.value !in Marked(c1) && e.val.value !in Marked(c1);
    }
  }

  lemma WhiteWhiteStill(h: Heap, c: Colours, c1: Colours, e: Entry)
    ensures c1 == c && WhiteWhite(h, c, e) ==> e.key.value in c1 && c1[e.key.value].White? && e.val.value in c1 && c1[e.val.value].White?
    ensures WhiteWhite(h, c, e) ==> e.key.Some? && e.val.Some? && e.key.value in h && !h[e.key.value].Str?
  {
  }

  lemma PromptStill(h: Heap, c0: Colours, c1: Colours, o: Id)
    requires o in c0 && !c0[o].White? && c1 == c0[o := Black]
    ensures Prompt(h, c0, o) ==> WhiteWhite(h, c1[o := Gray], h[o].entries[0])
  {
    assert Whites(c1[o := Gray]) == Whites(c0);
  }

  lemma GrayFrom(h: Heap, c: Colours, l: Lists, c': Colours, l': Lists, open: set<Id>)
    requires Marks(c, l, c', l') && MarkOk(h, c', l', open)
    ensures GrayKept(c, l.gray, l'.gray) && Whites(c') <= Whites(c)
  {
    hide MarkOk;
    forall x | x in l'.gray && x !in l.gray
      ensures x in Whites(c)
    {
      NewlyGray(h, c, l, c', l', open, x);
    }
  }

  lemma NewlyGray(h: Heap, c: Colours, l: Lists, c': Colours, l': Lists, open: set<Id>, x: Id)
    requires Marks(c, l, c', l') && MarkOk(h, c', l', open) && x in l'.gray && x !in l.gray
    ensures x in Whites(c)
  {
    assert multiset(l'.gray)[x] > 0 && multiset(l.gray)[x] == 0;
    assert Occurs(l', x) <= Room(h, c', x);
    assert Occurs(l', x) > Occurs(l, x);
  }

  lemma SameWhites(c: Colours, o: Id, col: Colour)
    requires o in c && !c[o].White? && !col.White?
    ensures Whites(c[o := Black]) == Whites(c) && Whites(c[o := Black][o := col]) == Whites(c)
    ensures forall g, g' :: GrayKept(c[o := Black], g, g') ==> GrayKept(c, g, g')
    ensures forall g, g' :: GrayKept(c[o := Black][o := col], g, g') ==> GrayKept(c, g, g')
  {
  }

  lemma RegrayWhites(c0: Colours, c1: Colours, c2: Colours, l1: Lists, l2: Lists, o: Id)
    requires o in c0 && !c0[o].White? && c1 == c0[o := Black] && Marks(c1, l1, c2, l2)
    ensures Whites(c2[o := Gray]) <= Whites(c0) && Whites(c1) <= Whites(c0)
  {
  }

  lemma GrayKeptTrans(c0: Colours, c1: Colours, c3: Colours, g1: seq<Id>, g3: seq<Id>, g: seq<Id>)
    requires GrayKept(c1, g1, g3) && GrayKept(c3, g3, g) && Whites(c1) <= Whites(c0) && Whites(c3) <= Whites(c0)
    ensures GrayKept(c0, g1, g)
  {
    hide Whites;
  }

  lemma FurtherTrans(c: Colours, c': Colours, c'': Colours)
    requires Further(c, c') && Further(c', c'')
    ensures Further(c, c'') && Whites(c'') <= Whites(c)
  {
  }

  /** Whatever waits in the gray list is marked. */
  lemma WithinGray(h: Heap, c: Colours, l: Lists, u: set<Id>)
    requires MarkOk(h, c, l, {}) && Within(h, c, u)
    ensures forall x :: x in l.gray ==> x in u
  {
    forall x | x in l.gray
      ensures x in u
    {
      assert multiset(l.gray)[x] > 0;
      assert Occurs(l, x) <= Room(h, c, x);
      assert x in Marked(c);
    }
  }

  /** One visit of a pass over the gray list. */
  lemma OneVisit(h: Heap, c: Colours, g: seq<Id>, e: seq<Id>, c': Colours, g': seq<Id>, e': seq<Id>, u: set<Id>)
    requires g != [] && Whites(c') <= Whites(c) && GrayKept(c, g[1..], g') && (forall x :: x in g ==> x in u)
    requires e' == e || Filed(h, c, g[0], e, e')
    requires Stuck(h, u, g[0]) ==> e' == [g[0]] + e
    requires g[0] in h && StrongMarked(c', h[g[0]])
    ensures Calm(h, c, g, u) ==> e' == e && Calm(h, c', g', u)
    ensures CalmAfter(h, c, g, u) ==> e' == e && Calm(h, c', g', u)
    ensures forall t :: Stuck(h, u, t) && (t in g || t in e) ==> t in g' || t in e'
    ensures forall t :: t in e ==> t in e'
  {
    hide Whites, Pending, Lasting, StrongMarked, Calm, CalmAfter;
    assert g == [g[0]] + g[1..];
    if Calm(h, c, g, u) {
      CalmStays(h, c, g, c', g', u);
    }
    if CalmAfter(h, c, g, u) {
      CalmNow(h, c, g, c', g', u);
    }
    CalmFirst(h, c, g, u);
  }

  lemma CalmFirst(h: Heap, c: Colours, g: seq<Id>, u: set<Id>)
    requires g != [] && g[0] in u && g[0] in h
    ensures Calm(h, c, g, u) ==> !(h[g[0]].Ephemeron? && Pending(h, c, h[g[0]].entries))
    ensures CalmAfter(h, c, g, u) ==> !h[g[0]].Ephemeron?
  {
    hide Whites, Pending;
  }

  lemma CalmStays(h: Heap, c: Colours, g: seq<Id>, c': Colours, g': seq<Id>, u: set<Id>)
    requires g != [] && Whites(c') <= Whites(c) && GrayKept(c, g[1..], g') && Calm(h, c, g, u)
    ensures Calm(h, c', g', u)
  {
    hide Whites, Pending;
    assert g == [g[0]] + g[1..];
    forall t | t in u && t in h && h[t].Ephemeron? && (t in g' || t in Whites(c'))
      ensures !Pending(h, c', h[t].entries)
    {
      PendingBack(h, c, c', h[t].entries);
    }
  }

  lemma CalmNow(h: Heap, c: Colours, g: seq<Id>, c': Colours, g': seq<Id>, u: set<Id>)
    requires g != [] && Whites(c') <= Whites(c) && GrayKept(c, g[1..], g') && CalmAfter(h, c, g, u) && StrongMarked(c', h[g[0]])
    ensures Calm(h, c', g', u)
  {
    assert g == [g[0]] + g[1..];
    forall t | t in u && t in h && h[t].Ephemeron? && (t in g' || t in Whites(c'))
      ensures !Pending(h, c', h[t].entries)
    {
      if e :| e in h[t].entries && WhiteWhite(h, c', e) {
        WhiteWhiteBack(h, c, c', e);
        assert false;
      }
    }
  }

  lemma AtomicRoots(h: Heap, c: Colours, cw: bool, main: Id, running: Id, globals: seq<Id>, done: seq<Id>)
    requires Sound(h, c, cw, main, running, globals, done, [])
    ensures running in h && forall i :: 0 <= i < |globals| ==> globals[i] in h
  {
  }

  lemma KeysSame(h: Heap, c: Colours, l: Lists, open: set<Id>)
    requires MarkOk(h, c, l, open)
    ensures h.Keys == c.Keys
  {
  }

  lemma EphemeronRefs(h: Heap, c: Colours, l: Lists, open: set<Id>, o: Id)
    requires MarkOk(h, c, l, open) && o in h && h[o].Ephemeron?
    ensures h[o].meta.Some? ==> h[o].meta.value in h
    ensures forall i :: 0 <= i < |h[o].refs| ==> h[o].refs[i] in h
    ensures forall e :: e in h[o].entries ==> (e.key.Some? ==> e.key.value in h) && (e.val.Some? ==> e.val.value in h)
  {
    assert h[o].meta.Some? ==> Refers(h[o], h[o].meta.value);
    forall i | 0 <= i < |h[o].refs|
      ensures h[o].refs[i] in h
    {
      assert Refers(h[o], h[o].refs[i]);
    }
    forall e | e in h[o].entries
      ensures (e.key.Some? ==> e.key.value in h) && (e.val.Some? ==> e.val.value in h)
    {
      assert e.key.Some? ==> Refers(h[o], e.key.value);
      assert e.val.Some? ==> Refers(h[o], e.val.value);
    }
  }

  lemma MarkedStays(c: Colours, l: Lists, c': Colours, l': Lists)
    requires Marks(c, l, c', l')
    ensures forall r :: NonWhite(c, r) ==> NonWhite(c', r)
    ensures Whites(c') <= Whites(c)
  {
  }

  lemma MarksSelf(c: Colours, l: Lists)
    ensures Marks(c, l, c, l)
  {
  }

  lemma StrSettled(h: Heap, c: Colours, l: Lists, o: Id)
    requires o in h && o in c && h[o].Str? && c[o].Black?
    ensures Settled(h, c, l, o)
  {
  }

  lemma RefsInHeap(h: Heap, c: Colours, l: Lists, open: set<Id>, o: Id)
    requires MarkOk(h, c, l, open) && o in h
    ensures forall r :: Refers(h[o], r) ==> r in h && r in c
    ensures h[o].Udata? ==> (h[o].meta.Some? ==> h[o].meta.value in h) && (h[o].user.Some? ==> h[o].user.value in h)
  {
    if h[o].Udata? {
      assert h[o].meta.Some? ==> Refers(h[o], h[o].meta.value);
      assert h[o].user.Some? ==> Refers(h[o], h[o].user.value);
    }
  }

  lemma StillGray(c: Colours, l: Lists, c': Colours, l': Lists, o: Id)
    requires Marks(c, l, c', l') && NonWhite(c, o)
    ensures NonWhite(c', o) && c'[o] == c[o] && Occurs(l', o) == Occurs(l, o)
  {
  }

  /** Gray while its metatable is marked, then black. */
  lemma UdataBlack(c0: Colours, l0: Lists, c1: Colours, c2: Colours, l2: Lists, o: Id)
    requires o in c0 && c0[o].White? && c1 == c0[o := Gray] && Marks(c1, l0, c2, l2)
    ensures Marks(c0, l0, c2[o := Black], l2) && Whites(c2[o := Black]) < Whites(c0)
  {
    assert o in Whites(c0);
  }

  lemma UdataSettled(h: Heap, c2: Colours, l2: Lists, c3: Colours, c4: Colours, l4: Lists, o: Id)
    requires o in h && h[o].Udata? && c3 == c2[o := Black] && o in c2 && Marks(c3, l2, c4, l4)
    requires h[o].meta.Some? ==> NonWhite(c2, h[o].meta.value)
    requires h[o].user.Some? ==> NonWhite(c4, h[o].user.value)
    ensures NonWhite(c4, o) && Settled(h, c4, l4, o)
  {
  }
}

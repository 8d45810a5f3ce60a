/** Reference counts of a locale root and of its searches (src/locale-root.c). */
module LocaleRefs {
  import opened Options

  type Id = nat

  const LRU_COUNT := 3

  /** `refs` counts the references to each live search; `freed` tells that the root is
      gone.  `mine` is not in memory: the references to searches that users hold. */
  datatype Root = Root(refcount: int, intcount: int, freed: bool, lru: seq<Option<Id>>, dflt: Option<Id>,
                       refs: map<Id, int>, mine: multiset<Id>, next: Id)

  datatype Op =
    | RootAddref
    | RootUnref
    | Hit(k: nat)                     // locale_root_search, found in the cache
    | Miss                            // locale_root_search, with a new search
    | Addref(i: Id)
    | Unref(i: Id)
    | SetDefault(x: Option<Id>)

  // ----- the counters

  function Give(refs: map<Id, int>, i: Id): map<Id, int> {
    refs[i := if i in refs then refs[i] + 1 else 1]
  }

  function Take(refs: map<Id, int>, i: Id): map<Id, int> {
    if i !in refs then refs else if refs[i] == 1 then refs - {i} else refs[i := refs[i] - 1]
  }

  function GiveTo(refs: map<Id, int>, x: Option<Id>): map<Id, int> {
    if x.None? then refs else Give(refs, x.value)
  }

  /** internal_unref */
  function InternalUnref(s: Root): Root {
    s.(intcount := s.intcount - 1, freed := s.freed || s.intcount == 1)
  }

  /** locale_search_unref */
  function Drop(s: Root, x: Option<Id>): Root {
    if x.None? || x.value !in s.refs then s
    else
      var t := s.(refs := Take(s.refs, x.value));
      if s.refs[x.value] == 1 then InternalUnref(t) else t
  }

  function Front(lru: seq<Option<Id>>, k: nat, i: Id): seq<Option<Id>>
    requires k < |lru|
  {
    [Some(i)] + lru[..k] + lru[k + 1..]
  }

  // ----- the operations

  /** Handles are held by their users; the root must be referenced for its own calls. */
  predicate Enabled(s: Root, op: Op) {
    match op
    case RootAddref => s.refcount > 0
    case RootUnref => s.refcount > 0 && |s.lru| == LRU_COUNT
    case Hit(k) => s.refcount > 0 && k < |s.lru| && s.lru[k].Some?
    case Miss => s.refcount > 0 && |s.lru| == LRU_COUNT
    case Addref(i) => i in s.mine
    case Unref(i) => i in s.mine
    case SetDefault(x) => s.refcount > 0 && (x.Some? ==> x.value in s.mine)
  }

  function Do(s: Root, op: Op): Root
    requires Enabled(s, op)
  {
    match op
    case RootAddref => s.(refcount := s.refcount + 1)
    case RootUnref =>
      var t := s.(refcount := s.refcount - 1);
      if t.refcount > 0 then t else InternalUnref(Drop(Drop(Drop(t, s.lru[0]), s.lru[1]), s.lru[2]))
    case Hit(k) =>
      var i := s.lru[k].value;
      s.(lru := Front(s.lru, k, i), refs := Give(s.refs, i), mine := s.mine + multiset{i})
    case Miss =>
      var i := s.next;
      var t := s.(next := i + 1, intcount := s.intcount + 1, refs := Give(s.refs, i));
      var u := Drop(t, s.lru[2]);
      u.(lru := Front(s.lru, 2, i), refs := Give(u.refs, i), mine := s.mine + multiset{i})
    case Addref(i) => s.(refs := Give(s.refs, i), mine := s.mine + multiset{i})
    case Unref(i) => Drop(s.(mine := s.mine - multiset{i}), Some(i))
    case SetDefault(x) => Drop(s.(dflt := x, refs := GiveTo(s.refs, x)), s.dflt)
  }

  // ----- the invariant

  /** Who holds references inside the root: its cache, while users hold it, and its
      default search. */
  function Holders(s: Root): multiset<Option<Id>> {
    (if s.refcount > 0 then multiset(s.lru) else multiset{}) + multiset{s.dflt}
  }

  function Total(mine: multiset<Id>, hs: multiset<Option<Id>>, i: Id): int {
    mine[i] + hs[Some(i)]
  }

  /** A search lives as long as it is held, and its counter counts its holders. */
  ghost predicate Counts(refs: map<Id, int>, mine: multiset<Id>, hs: multiset<Option<Id>>) {
    forall i: Id :: (i in refs <==> Total(mine, hs, i) > 0) && (i in refs ==> refs[i] == Total(mine, hs, i))
  }

  ghost predicate Tied(s: Root) {
    && s.intcount == |s.refs| + (if s.refcount > 0 then 1 else 0)
    && (s.freed <==> s.intcount == 0)
  }

  ghost predicate Inv(s: Root) {
    && s.refcount >= 0 && |s.lru| == LRU_COUNT
    && Counts(s.refs, s.mine, Holders(s)) && Tied(s)
    && forall i :: i in s.refs ==> i < s.next
  }

  // ----- counting lemmas

  lemma GiveCounts(refs: map<Id, int>, mine: multiset<Id>, hs: multiset<Option<Id>>, i: Id)
    requires Counts(refs, mine, hs)
    ensures Counts(Give(refs, i), mine, hs + multiset{Some(i)})
    ensures Counts(Give(refs, i), mine + multiset{i}, hs)
  {
    assert forall j: Id :: Total(mine, hs + multiset{Some(i)}, j) == Total(mine, hs, j) + if i == j then 1 else 0;
    assert forall j: Id :: Total(mine + multiset{i}, hs, j) == Total(mine, hs, j) + if i == j then 1 else 0;
  }

  lemma TakeCounts(refs: map<Id, int>, mine: multiset<Id>, hs: multiset<Option<Id>>, i: Id)
    requires Counts(refs, mine, hs + multiset{Some(i)})
    ensures Counts(Take(refs, i), mine, hs)
    ensures i in refs
  {
    assert forall j: Id :: Total(mine, hs + multiset{Some(i)}, j) == Total(mine, hs, j) + if i == j then 1 else 0;
  }

  lemma MineCounts(refs: map<Id, int>, mine: multiset<Id>, hs: multiset<Option<Id>>, i: Id)
    requires Counts(refs, mine + multiset{i}, hs)
    ensures Counts(Take(refs, i), mine, hs)
    ensures i in refs
  {
    assert forall j: Id :: Total(mine + multiset{i}, hs, j) == Total(mine, hs, j) + if i == j then 1 else 0;
  }

  lemma NoneCounts(refs: map<Id, int>, mine: multiset<Id>, hs: multiset<Option<Id>>)
    ensures Counts(refs, mine, hs + multiset{None}) <==> Counts(refs, mine, hs)
  {
    assert forall j: Id :: Total(mine, hs + multiset{None}, j) == Total(mine, hs, j);
  }

  lemma GiveSize(refs: map<Id, int>, i: Id)
    ensures |Give(refs, i)| == |refs| + if i in refs then 0 else 1
    ensures Give(refs, i).Keys == refs.Keys + {i}
  {
    var g := Give(refs, i);
    assert g.Keys == refs.Keys + {i};
  }

  lemma TakeSize(refs: map<Id, int>, i: Id)
    ensures |Take(refs, i)| == |refs| - if i in refs && refs[i] == 1 then 1 else 0
  {
    if i in refs && refs[i] == 1 {
      assert (refs - {i}).Keys == refs.Keys - {i};
    } else if i in refs {
      assert refs[i := refs[i] - 1].Keys == refs.Keys;
    }
  }

  /** Letting go of a holder, with `up` references inside the root besides those of
      the searches. */
  lemma DropKeeps(s: Root, x: Option<Id>, hs: multiset<Option<Id>>, up: int)
    requires Counts(s.refs, s.mine, hs + multiset{x})
    requires s.intcount == |s.refs| + up && (s.freed <==> s.intcount == 0) && up >= 0
    ensures var t := Drop(s, x);
            && Counts(t.refs, t.mine, hs) && t.intcount == |t.refs| + up && (t.freed <==> t.intcount == 0)
            && t == s.(refs := t.refs, intcount := t.intcount, freed := t.freed) && t.refs.Keys <= s.refs.Keys
  {
    if x.None? {
      NoneCounts(s.refs, s.mine, hs);
    } else {
      TakeCounts(s.refs, s.mine, hs, x.value);
      TakeSize(s.refs, x.value);
    }
  }

  // ----- every operation keeps the invariant

  lemma OneByOne(a: Option<Id>, b: Option<Id>, c: Option<Id>, d: multiset<Option<Id>>)
    ensures multiset([a, b, c]) + d == ((d + multiset{c}) + multiset{b}) + multiset{a}
  {
    assert [a, b, c] == [a] + [b, c] && [b, c] == [b] + [c];
    assert multiset([b, c]) == multiset{b} + multiset{c};
  }

  lemma LastUnrefKeeps(s: Root)
    requires Inv(s) && s.refcount == 1
    ensures Inv(Do(s, RootUnref))
  {
    var a, b, c := s.lru[0], s.lru[1], s.lru[2];
    assert s.lru == [a, b, c];
    var d := multiset{s.dflt};
    var t0 := s.(refcount := 0);
    OneByOne(a, b, c, d);
    DropKeeps(t0, a, (d + multiset{c}) + multiset{b}, 1);
    var t1 := Drop(t0, a);
    DropKeeps(t1, b, d + multiset{c}, 1);
    var t2 := Drop(t1, b);
    DropKeeps(t2, c, d, 1);
    var t3 := Drop(t2, c);
    assert Holders(InternalUnref(t3)) == d;
  }

  lemma HitKeeps(s: Root, k: nat)
    requires Inv(s) && Enabled(s, Hit(k))
    ensures Inv(Do(s, Hit(k)))
  {
    var i := s.lru[k].value;
    var f := Front(s.lru, k, i);
    assert s.lru == s.lru[..k] + [s.lru[k]] + s.lru[k + 1..];
    assert multiset(f) == multiset(s.lru);
    GiveCounts(s.refs, s.mine, Holders(s), i);
    assert Holders(s)[Some(i)] > 0 && Total(s.mine, Holders(s), i) > 0;
    GiveSize(s.refs, i);
  }

  lemma Shifted(a: Option<Id>, b: Option<Id>, c: Option<Id>, d: Option<Id>, x: Option<Id>)
    ensures (multiset([a, b, c]) + multiset{d}) + multiset{x} == (multiset([x, a, b]) + multiset{d}) + multiset{c}
  {
    assert [a, b, c] == [a, b] + [c] && [x, a, b] == [x] + [a, b];
    Swapped(multiset([a, b]), multiset{c}, multiset{d}, multiset{x});
  }

  lemma Swapped<T>(ab: multiset<T>, c: multiset<T>, d: multiset<T>, x: multiset<T>)
    ensures ((ab + c) + d) + x == ((ab + x) + d) + c == ((x + ab) + d) + c
  {
  }

  /** A new search, first in the cache; `u` is the root without the oldest one. */
  lemma NewSearchKeeps(s: Root, u: Root, i: Id, f: seq<Option<Id>>)
    requires s.refcount > 0 && |f| == LRU_COUNT && f[0] == Some(i) && i < u.next && u.refcount == s.refcount
    requires Counts(u.refs, u.mine, multiset(f) + multiset{u.dflt})
    requires u.intcount == |u.refs| + 1 && (u.freed <==> u.intcount == 0) && forall j :: j in u.refs ==> j < u.next
    ensures Inv(u.(lru := f, refs := Give(u.refs, i), mine := u.mine + multiset{i}))
  {
    var hs := multiset(f) + multiset{u.dflt};
    GiveCounts(u.refs, u.mine, hs, i);
    assert f[0] in multiset(f);
    assert Total(u.mine, hs, i) > 0;
    GiveSize(u.refs, i);
  }

  /** The new search counted, the oldest cached one let go. */
  lemma OldestDropped(s: Root, t: Root, u: Root, i: Id, a: Option<Id>, b: Option<Id>, c: Option<Id>, f: seq<Option<Id>>)
    requires Inv(s) && s.refcount > 0 && i == s.next && s.lru == [a, b, c] && f == [Some(i), a, b]
    requires t == s.(next := i + 1, intcount := s.intcount + 1, refs := Give(s.refs, i)) && u == Drop(t, c)
    ensures Counts(u.refs, u.mine, multiset(f) + multiset{u.dflt})
    ensures u.intcount == |u.refs| + 1 && (u.freed <==> u.intcount == 0)
    ensures u.next == i + 1 && u.refcount == s.refcount && forall j :: j in u.refs ==> j < u.next
  {
    GiveCounts(s.refs, s.mine, Holders(s), i);
    GiveSize(s.refs, i);
    Shifted(a, b, c, s.dflt, Some(i));
    DropKeeps(t, c, multiset(f) + multiset{s.dflt}, 1);
  }

  lemma MissKeeps(s: Root)
    requires Inv(s) && Enabled(s, Miss)
    ensures Inv(Do(s, Miss))
  {
    var i, f := s.next, Front(s.lru, 2, s.next);
    var t := s.(next := i + 1, intcount := s.intcount + 1, refs := Give(s.refs, i));
    var u := Drop(t, s.lru[2]);
    assert s.lru == [s.lru[0], s.lru[1], s.lru[2]];
    OldestDropped(s, t, u, i, s.lru[0], s.lru[1], s.lru[2], f);
    NewSearchKeeps(s, u, i, f);
    MissIs(s, t, u, i, f);
  }

  lemma MissIs(s: Root, t: Root, u: Root, i: Id, f: seq<Option<Id>>)
    requires Enabled(s, Miss) && i == s.next &&
             t == s.(next := i + 1, intcount := s.intcount + 1, refs := Give(s.refs, i))
    requires u == Drop(t, s.lru[2]) && f == Front(s.lru, 2, i)
    ensures Do(s, Miss) == u.(lru := f, refs := Give(u.refs, i), mine := u.mine + multiset{i})
  {
  }

  /** A held search is a live one. */
  lemma MineLives(s: Root, i: Id)
    requires Inv(s) && i in s.mine
    ensures i in s.refs && s.intcount > 0
  {
    assert Total(s.mine, Holders(s), i) > 0;
    assert s.refs.Keys != {};
  }

  lemma HeldMeansLive(s: Root)
    requires Inv(s)
    ensures s.refcount > 0 || s.mine != multiset{} || s.dflt.Some? ==> !s.freed
  {
    if s.mine != multiset{} {
      var i :| i in s.mine;
      MineLives(s, i);
    }
    if s.dflt.Some? {
      assert s.dflt in Holders(s) && Total(s.mine, Holders(s), s.dflt.value) > 0;
      assert s.dflt.value in s.refs.Keys;
    }
  }

  lemma UnrefKeeps(s: Root, i: Id)
    requires Inv(s) && Enabled(s, Unref(i))
    ensures Inv(Do(s, Unref(i)))
  {
    var less := s.mine - multiset{i};
    assert less + multiset{i} == s.mine;
    MineCounts(s.refs, less, Holders(s), i);
    TakeSize(s.refs, i);
    MineLives(s, i);
  }

  lemma SetDefaultKeeps(s: Root, x: Option<Id>)
    requires Inv(s) && Enabled(s, SetDefault(x))
    ensures Inv(Do(s, SetDefault(x)))
  {
    var t := s.(dflt := x, refs := GiveTo(s.refs, x));
    var hs := multiset(s.lru) + multiset{x};
    assert Holders(s) + multiset{x} == hs + multiset{s.dflt};
    if x.None? {
      NoneCounts(s.refs, s.mine, Holders(s));
    } else {
      MineLives(s, x.value);
      GiveCounts(s.refs, s.mine, Holders(s), x.value);
      GiveSize(s.refs, x.value);
    }
    DropKeeps(t, s.dflt, hs, 1);
  }

  lemma StepKeeps(s: Root, op: Op)
    requires Inv(s) && Enabled(s, op)
    ensures Inv(Do(s, op))
  {
    match op
    case RootAddref =>
    case RootUnref => if s.refcount == 1 { LastUnrefKeeps(s); }
    case Hit(k) => HitKeeps(s, k);
    case Miss => MissKeeps(s);
    case Addref(i) =>
      MineLives(s, i);
      GiveCounts(s.refs, s.mine, Holders(s), i);
      GiveSize(s.refs, i);
    case Unref(i) => UnrefKeeps(s, i);
    case SetDefault(x) => SetDefaultKeeps(s, x);
  }

  // ----- runs

  const START := Root(1, 1, false, [None, None, None], None, map[], multiset{}, 0)

  predicate Possible(ops: seq<Op>)
    decreases |ops|, 0
  {
    ops == [] || (Possible(ops[..|ops| - 1]) && Enabled(After(ops[..|ops| - 1]), ops[|ops| - 1]))
  }

  /** The root after locale_root_create and the operations `ops`. */
  function After(ops: seq<Op>): Root
    requires Possible(ops)
    decreases |ops|, 1
  {
    if ops == [] then START else Do(After(ops[..|ops| - 1]), ops[|ops| - 1])
  }

  lemma {:induction false} RunKeeps(ops: seq<Op>)
    requires Possible(ops)
    ensures Inv(After(ops))
  {
    if ops == [] {
      assert forall i: Id :: Total(START.mine, Holders(START), i) == 0;
    } else {
      RunKeeps(ops[..|ops| - 1]);
      StepKeeps(After(ops[..|ops| - 1]), ops[|ops| - 1]);
    }
  }

  /** The root is freed exactly when nobody holds it or one of its searches and it has
      no default search. */
  lemma FreedExactly(ops: seq<Op>)
    requires Possible(ops)
    ensures var s := After(ops);
            s.freed <==> s.refcount == 0 && s.mine == multiset{} && s.dflt == None
  {
    RunKeeps(ops);
    var s := After(ops);
    if s.refcount == 0 && s.mine == multiset{} && s.dflt == None {
      assert forall i: Id :: Total(s.mine, Holders(s), i) == 0;
      assert s.refs.Keys == {};
      assert s.refs == map[];
    }
    HeldMeansLive(s);
  }

  /** So no handle that a user holds leads to freed memory. */
  lemma HandlesLive(ops: seq<Op>, op: Op)
    requires Possible(ops) && Enabled(After(ops), op)
    ensures !After(ops).freed
  {
    FreedExactly(ops);
  }

  /** A search is freed exactly when no user holds it, the cache of a referenced root
      has lost it and it is not the default. */
  lemma SearchLivesExactly(ops: seq<Op>, i: Id)
    requires Possible(ops)
    ensures var s := After(ops);
            i in s.refs <==> i in s.mine || (s.refcount > 0 && Some(i) in s.lru) || s.dflt == Some(i)
  {
    RunKeeps(ops);
    var s := After(ops);
    assert i in s.refs <==> Total(s.mine, Holders(s), i) > 0;
    assert Some(i) in multiset(s.lru) <==> Some(i) in s.lru;
  }

  /** A default search is never let go with its root: after the last reference to the
      root it stays, and with it the root, whatever comes. */
  lemma {:induction false} DefaultKeepsRoot(ops: seq<Op>, more: seq<Op>)
    requires Possible(ops + more) && Possible(ops) && After(ops).refcount == 0 && After(ops).dflt.Some?
    ensures var s := After(ops + more); s.refcount == 0 && s.dflt == After(ops).dflt && !s.freed
    decreases |more|
  {
    FreedExactly(ops + more);
    if more == [] {
      assert ops + more == ops;
    } else {
      var before := more[..|more| - 1];
      assert (ops + more)[..|ops + more| - 1] == ops + before;
      assert (ops + more)[|ops + more| - 1] == more[|more| - 1];
      DefaultKeepsRoot(ops, before);
    }
  }

  /** One search made the default, then given back with the root: nobody holds anything
      any more, and the root is not freed. */
  lemma DefaultLeaks()
    ensures var ops := [Miss] + [SetDefault(Some(0))] + [Unref(0)] + [RootUnref];
            && Possible(ops)
            && var s := After(ops); s.refcount == 0 && s.mine == multiset{} && !s.freed && s.refs == map[0 := 1]
  {
    var a: Option<Id>, none: seq<Option<Id>> := Some(0), [None, None, None];
    var s1 := Root(1, 2, false, [a, None, None], None, map[0 := 2], multiset{0}, 1);
    var s2 := s1.(dflt := a, refs := map[0 := 3]);
    var s3 := s2.(mine := multiset{}, refs := map[0 := 2]);
    var s4 := s3.(refcount := 0, intcount := 1, refs := map[0 := 1]);
    assert Possible([]) && After([]) == START;
    assert Front(none, 2, 0) == [a, None, None];
    assert Give(map[], 0) == map[0 := 1] && Give(map[0 := 1], 0) == map[0 := 2];
    assert Do(START, Miss) == s1;
    More([], Miss, START, s1);
    assert [] + [Miss] == [Miss];
    More([Miss], SetDefault(a), s1, s2);
    assert multiset{0} - multiset{0} == multiset{};
    More([Miss] + [SetDefault(a)], Unref(0), s2, s3);
    assert Drop(s3.(refcount := 0), a) == s4.(intcount := 2);
    More([Miss] + [SetDefault(a)] + [Unref(0)], RootUnref, s3, s4);
  }

  lemma More(ops: seq<Op>, op: Op, s: Root, t: Root)
    requires Possible(ops) && After(ops) == s && Enabled(s, op) && t == Do(s, op)
    ensures Possible(ops + [op]) && After(ops + [op]) == t
  {
    assert (ops + [op])[..|ops|] == ops && (ops + [op])[|ops|] == op;
  }
}

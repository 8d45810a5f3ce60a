/** The counters of src/locale-root.c in memory, each function proved against its
    operation. */
module LocaleRefsRoot {
  import opened Options
  import opened LocaleRefs

  class Counters {
    var refcount: int
    var intcount: int
    var freed: bool
    const lru: array<Option<Id>>
    var dflt: Option<Id>
    /** The searches that exist, with their counters. */
    var refs: map<Id, int>
    var next: Id
    ghost var mine: multiset<Id>

    ghost function View(): Root
      reads this, lru
    {
      Root(refcount, intcount, freed, lru[..], dflt, refs, mine, next)
    }

    /** locale_root_create */
    constructor ()
      ensures View() == START && fresh(lru)
    {
      refcount, intcount, freed := 1, 1, false;
      lru := new Option<Id>[LRU_COUNT](_ => None);
      dflt, refs, next, mine := None, map[], 0, multiset{};
    }

    method InternalUnrefRoot()
      modifies `intcount, `freed
      ensures View() == InternalUnref(old(View()))
    {
      intcount := intcount - 1;
      if intcount == 0 {
        freed := true;
      }
    }

    method RootUnrefNow()
      requires Enabled(View(), RootUnref)
      modifies `refcount, `intcount, `freed, `refs
      ensures View() == Do(old(View()), RootUnref)
    {
      refcount := refcount - 1;
      if refcount == 0 {
        ghost var t := View();
        var i := 0;
        while i < LRU_COUNT
          invariant 0 <= i <= LRU_COUNT && lru[..] == t.lru
          invariant View() == DropFirst(t, i)
        {
          SearchUnref(lru[i]);
          i := i + 1;
        }
        ThreeDropped(t);
        InternalUnrefRoot();
      }
    }

    static lemma ThreeDropped(t: Root)
      requires |t.lru| == LRU_COUNT
      ensures DropFirst(t, LRU_COUNT) == Drop(Drop(Drop(t, t.lru[0]), t.lru[1]), t.lru[2])
    {
      assert DropFirst(t, 1) == Drop(t, t.lru[0]);
      assert DropFirst(t, 2) == Drop(DropFirst(t, 1), t.lru[1]);
    }

    /** The first `n` slots let go. */
    static ghost function DropFirst(t: Root, n: nat): (r: Root)
      requires n <= |t.lru|
      ensures r.lru == t.lru
    {
      if n == 0 then t else Drop(DropFirst(t, n - 1), t.lru[n - 1])
    }

    /** locale_search_unref */
    method SearchUnref(x: Option<Id>)
      modifies `intcount, `freed, `refs
      ensures View() == Drop(old(View()), x)
    {
      if x.Some? && x.value in refs {
        var n := refs[x.value] - 1;
        if n == 0 {
          refs := refs - {x.value};
          InternalUnrefRoot();
        } else {
          refs := refs[x.value := n];
        }
      }
    }

    method SearchAddref(i: Id)
      requires i in refs && Enabled(View(), Addref(i))
      modifies `refs, `mine
      ensures View() == Do(old(View()), Addref(i))
    {
      refs := refs[i := refs[i] + 1];
      mine := mine + multiset{i};
    }

    /** A user lets a search go. */
    method Release(i: Id)
      requires Enabled(View(), Unref(i))
      modifies `intcount, `freed, `refs, `mine
      ensures View() == Do(old(View()), Unref(i))
    {
      mine := mine - multiset{i};
      SearchUnref(Some(i));
    }

    /** locale_root_set_default_search */
    method SetDefaultSearch(x: Option<Id>)
      requires Enabled(View(), SetDefault(x)) && (x.Some? ==> x.value in refs)
      modifies `intcount, `freed, `refs, `dflt
      ensures View() == Do(old(View()), SetDefault(x))
    {
      var older := dflt;
      if x.Some? {
        refs := refs[x.value := refs[x.value] + 1];
      }
      dflt := x;
      SearchUnref(older);
    }

    /** The loop that makes room in front of the cache. */
    method PutFirst(k: nat, i: Id)
      requires k < lru.Length
      modifies lru
      ensures lru[..] == Front(old(lru[..]), k, i)
    {
      var j := k;
      while j > 0
        invariant 0 <= j <= k
        invariant forall n :: 0 <= n <= j || k < n < lru.Length ==> lru[n] == old(lru[n])
        invariant forall n :: j < n <= k ==> lru[n] == old(lru[n - 1])
      {
        lru[j] := lru[j - 1];
        j := j - 1;
      }
      lru[0] := Some(i);
    }

    /** The end of locale_root_search: slot `k` holds the search, or a new one is made. */
    method SearchCached(k: nat) returns (i: Id)
      requires Enabled(View(), Hit(k)) && lru[k].value in refs
      modifies lru, `refs, `mine
      ensures View() == Do(old(View()), Hit(k)) && Some(i) == old(lru[k])
    {
      i := lru[k].value;
      PutFirst(k, i);
      refs := refs[i := refs[i] + 1];
      mine := mine + multiset{i};
    }

    method SearchNew() returns (i: Id)
      requires Enabled(View(), Miss) && next !in refs
      modifies lru, `refs, `mine, `next, `intcount, `freed
      ensures View() == Do(old(View()), Miss) && i == old(next)
    {
      ghost var s := View();
      i := CreateSearch();
      ghost var t := View();
      SearchUnref(lru[2]);
      ghost var u := View();
      MissIs(s, t, u, i, Front(s.lru, 2, i));
      PutFirst(2, i);
      refs := Give(refs, i);
      mine := mine + multiset{i};
    }

    /** The counters in create_search. */
    method CreateSearch() returns (i: Id)
      requires next !in refs
      modifies `refs, `next, `intcount
      ensures i == old(next)
      ensures View() == old(View()).(next := i + 1, intcount := old(intcount) + 1, refs := Give(old(refs), i))
    {
      i := next;
      next := i + 1;
      intcount := intcount + 1;
      refs := refs[i := 1];
    }
  }
}

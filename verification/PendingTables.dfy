/** The two tables of pending calls in place, with their loops for naming a call. */
module PendingTables {
  import opened Pending

  const WORD := 0x1_0000_0000
  const LAST_CALL := 999999

  // ----- decimal names, as printed by "%d"

  function Digit(d: nat): char
    requires d < 10
  {
    '0' + d as char
  }

  function Decimal(n: nat): string {
    if n < 10 then [Digit(n)] else Decimal(n / 10) + [Digit(n % 10)]
  }

  function Value(s: string): int {
    if s == [] then 0 else 10 * Value(s[..|s| - 1]) + (s[|s| - 1] as int - '0' as int)
  }

  lemma {:induction false} ValueDecimal(n: nat)
    ensures Value(Decimal(n)) == n
  {
    if n >= 10 {
      ValueDecimal(n / 10);
      assert Decimal(n)[..|Decimal(n)| - 1] == Decimal(n / 10);
    } else {
      assert Decimal(n)[..0] == [];
    }
  }

  lemma DecimalInjective(a: nat, b: nat)
    ensures Decimal(a) == Decimal(b) <==> a == b
  {
    ValueDecimal(a);
    ValueDecimal(b);
  }

  /** The first entry with the name, found by walking the list. */
  method Walk<K(==)>(es: seq<Entry<K>>, key: K) returns (k: nat)
    ensures k == Search(es, key)
  {
    k := 0;
    while k < |es| && es[k].key != key
      invariant 0 <= k <= Search(es, key)
    {
      k := k + 1;
    }
  }

  /** The memos of a client, src/afb-api-ws.c. */
  class Memos {
    var id: int
    var memos: seq<Entry<nat>>
    ghost var calls: nat
    ghost var done: multiset<nat>

    ghost function View(): Table<nat>
      reads this
    {
      Table(memos, calls, done)
    }

    /** The number of the i-th attempt: upwards, from 2^32 - 1 to 0 again. */
    static function Nth(id: int, i: int): (r: nat)
      requires 0 <= id < WORD && 0 <= i
      ensures r < WORD
    {
      (id + i) % WORD
    }

    /** How many attempts until the number `to` is tried. */
    static ghost function Ahead(from: int, to: int): (d: int)
      requires 0 <= from < WORD && 0 <= to < WORD
      ensures 0 < d <= WORD && Nth(from, d) == to
    {
      if from < to then to - from else to - from + WORD
    }

    /** api_ws_client_memo_make.  The name is the first free one after the last
        given, in cyclic order; the loop ends because some name is free. */
    method Make(req: nat, ghost free: nat) returns (msgid: nat)
      requires req == calls && 0 <= id < WORD && free < WORD && Free(memos, free)
      modifies this
      ensures 0 <= id < WORD && msgid == id
      ensures Enabled(old(View()), Op.Make(msgid)) && View() == Do(old(View()), Op.Make(msgid))
      ensures exists n :: 0 < n <= WORD && msgid == Nth(old(id), n)
                && forall i :: 0 < i < n ==> !Free(old(memos), Nth(old(id), i))
    {
      ghost var n := 0;
      ghost var d := Ahead(id, free);
      var found := true;
      while found
        invariant 0 <= id < WORD && View() == old(View())
        invariant 0 <= n <= d && id == Nth(old(id), n) && (n == 0 ==> found)
        invariant n > 0 ==> found == !Free(memos, id)
        invariant forall i :: 0 < i < n ==> !Free(memos, Nth(old(id), i))
        decreases found, d - n
      {
        id := (id + 1) % WORD;
        n := n + 1;
        var k := Walk(memos, id);
        found := k < |memos|;
      }
      msgid := id;
      memos := [Entry(msgid, req)] + memos;
      calls := calls + 1;
    }

    /** A reply of the server: the memo it names, if any, is completed and destroyed. */
    method Complete(msgid: nat) returns (known: bool)
      modifies this
      ensures known == !Free(old(memos), msgid)
      ensures View() == Do(old(View()), Reply(msgid)) && id == old(id)
    {
      var k := Walk(memos, msgid);
      known := k < |memos|;
      if known {
        done := done + multiset{memos[k].req};
        memos := memos[..k] + memos[k + 1..];
      }
    }
  }

  /** The pending calls of a wsj1 link, src/afb-wsj1.c. */
  class Calls {
    var genid: int
    var pending: seq<Entry<string>>
    ghost var calls: nat
    ghost var done: multiset<nat>

    ghost function View(): Table<string>
      reads this
    {
      Table(pending, calls, done)
    }

    /** The number of the i-th attempt: downwards, from 1 to 999999 again. */
    static function Nth(genid: int, i: int): (r: int)
      requires 0 <= genid <= LAST_CALL && 0 <= i < LAST_CALL
      ensures 0 < r <= LAST_CALL
    {
      if i < genid then genid - i else LAST_CALL - (i - genid)
    }

    /** How many attempts until the number `to` is tried. */
    static ghost function Ahead(genid: int, to: int): (i: int)
      requires 0 <= genid <= LAST_CALL && 0 < to <= LAST_CALL
      ensures 0 <= i < LAST_CALL && Nth(genid, i) == to
    {
      if to <= genid then genid - to else LAST_CALL - to + genid
    }

    /** wsj1_call_create.  The name is the first free one met going down. */
    method Create(req: nat, ghost free: int) returns (id: string)
      requires req == calls && 0 <= genid <= LAST_CALL && 0 < free <= LAST_CALL && Free(pending, Decimal(free))
      modifies this
      ensures 0 <= genid < LAST_CALL
      ensures Enabled(old(View()), Op.Make(id)) && View() == Do(old(View()), Op.Make(id))
      ensures exists n :: 0 <= n < 999999 && id == Decimal(Nth(old(genid), n))
                && forall i :: 0 <= i < n ==> !Free(old(pending), Decimal(Nth(old(genid), i)))
    {
      ghost var n, d := 0, Ahead(genid, free);
      id := "";
      var found := true;
      while found
        invariant 0 <= n <= d + 1 && View() == old(View()) && (n == 0 ==> found)
        invariant n == 0 ==> genid == old(genid)
        invariant n > 0 ==> genid == Nth(old(genid), n - 1) - 1 && id == Decimal(genid + 1)
        invariant n > 0 ==> found == !Free(pending, id)
        invariant forall i :: 0 <= i < n - 1 ==> !Free(pending, Decimal(Nth(old(genid), i)))
        decreases found, d - n
      {
        if genid == 0 {
          genid := LAST_CALL;
        }
        id := Decimal(genid);
        genid := genid - 1;
        n := n + 1;
        var k := Walk(pending, id);
        found := k < |pending|;
      }
      pending := [Entry(id, req)] + pending;
      calls := calls + 1;
    }

    /** A reply: wsj1_call_search with removal. */
    method Complete(id: string) returns (known: bool)
      modifies this
      ensures known == !Free(old(pending), id)
      ensures View() == Do(old(View()), Reply(id)) && genid == old(genid)
    {
      var k := Walk(pending, id);
      known := k < |pending|;
      if known {
        done := done + multiset{pending[k].req};
        pending := pending[..k] + pending[k + 1..];
      }
    }
  }

  ghost predicate Naming<K(!new)>(name: nat -> K) {
    forall m, n :: name(m) == name(n) ==> m == n
  }

  /** As many entries as names below `m`, if none of these is free. */
  lemma {:induction false} Slots<K(!new)>(es: seq<Entry<K>>, name: nat -> K, m: nat) returns (used: set<nat>)
    requires Naming(name) && forall n :: 0 <= n < m ==> !Free(es, name(n))
    ensures |used| == m <= |es|
    ensures forall i :: i in used ==> i < |es| && exists n :: 0 <= n < m && es[i].key == name(n)
  {
    if m == 0 {
      used := {};
    } else {
      used := Slots(es, name, m - 1);
      var k := Search(es, name(m - 1));
      assert k !in used;
      used := used + {k};
      assert es[k].key == name(m - 1);
      Bounded(used, |es|);
    }
  }

  /** While fewer calls are pending than there are names, some name is free. */
  lemma SomeNameFree<K(!new)>(es: seq<Entry<K>>, name: nat -> K, m: nat)
    requires Naming(name) && |es| < m
    ensures exists n :: 0 <= n < m && Free(es, name(n))
  {
    if forall n :: 0 <= n < m ==> !Free(es, name(n)) {
      var _ := Slots(es, name, m);
    }
  }

  lemma SomeMsgidFree(es: seq<Entry<nat>>)
    requires |es| < WORD
    ensures exists n: nat :: n < 0x1_0000_0000 && Free(es, n)
  {
    var name := (n: nat) => n;
    SomeNameFree(es, name, WORD);
    var n :| 0 <= n < WORD && Free(es, name(n));
    assert Free(es, n);
  }

  lemma SomeCallFree(es: seq<Entry<string>>)
    requires |es| < LAST_CALL
    ensures exists n :: 0 < n <= 999999 && Free(es, Decimal(n))
  {
    var name := (n: nat) => Decimal(n + 1);
    forall m: nat, n: nat | name(m) == name(n)
      ensures m == n
    {
      DecimalInjective(m + 1, n + 1);
    }
    SomeNameFree(es, name, LAST_CALL);
    var n :| 0 <= n < LAST_CALL && Free(es, name(n));
    assert Free(es, Decimal(n + 1));
  }

  lemma {:induction false} Bounded(s: set<nat>, n: nat)
    requires forall i :: i in s ==> i < n
    ensures |s| <= n
  {
    if n == 0 {
      assert s == {};
    } else {
      Bounded(s - {n - 1}, n - 1);
    }
  }
}

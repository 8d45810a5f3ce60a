/** Which calls wait for their reply, told from the operations of a run alone. */
module PendingRuns {
  import opened Pending
  import opened PendingTables

  function Makes<K>(ops: seq<Op<K>>): nat {
    if ops == [] then 0 else Makes(ops[..|ops| - 1]) + if ops[|ops| - 1].Make? then 1 else 0
  }

  /** The name given to the call `req`, counted from 0. */
  function NameOf<K>(ops: seq<Op<K>>, req: nat): (k: K)
    requires req < Makes(ops)
  {
    var prev, op := ops[..|ops| - 1], ops[|ops| - 1];
    if op.Make? && req == Makes(prev) then op.key else NameOf(prev, req)
  }

  /** No reply named the call since it was made. */
  predicate Waits<K(==)>(ops: seq<Op<K>>, req: nat) {
    ops != [] &&
    var prev, op := ops[..|ops| - 1], ops[|ops| - 1];
    match op
    case Make(_) => req == Makes(prev) || Waits(prev, req)
    case Reply(key) => req < Makes(prev) && key != NameOf(prev, req) && Waits(prev, req)
  }

  /** The entry of the call `req` is in the table, under `key`. */
  ghost predicate Listed<K>(es: seq<Entry<K>>, req: nat, key: K) {
    exists i :: 0 <= i < |es| && es[i] == Entry(key, req)
  }

  ghost predicate Unlisted<K>(es: seq<Entry<K>>, req: nat) {
    forall i :: 0 <= i < |es| ==> es[i].req != req
  }

  lemma AddedEntry<K>(es: seq<Entry<K>>, e: Entry<K>, req: nat, key: K)
    ensures e == Entry(key, req) ==> Listed([e] + es, req, key)
    ensures Listed(es, req, key) ==> Listed([e] + es, req, key)
    ensures e.req != req && Unlisted(es, req) ==> Unlisted([e] + es, req)
  {
    var u := [e] + es;
    assert u[0] == e;
    if Listed(es, req, key) {
      var i :| 0 <= i < |es| && es[i] == Entry(key, req);
      assert u[i + 1] == Entry(key, req);
    }
  }

  lemma TakenEntry<K>(es: seq<Entry<K>>, k: nat, req: nat, key: K)
    requires k < |es|
    ensures Listed(es, req, key) && es[k] != Entry(key, req) ==> Listed(Without(es, k), req, key)
    ensures Unlisted(es, req) ==> Unlisted(Without(es, k), req)
  {
    var u := Without(es, k);
    assert forall i :: 0 <= i < |u| ==> u[i] == es[if i < k then i else i + 1];
    if Listed(es, req, key) && es[k] != Entry(key, req) {
      var i :| 0 <= i < |es| && es[i] == Entry(key, req);
      assert u[if i < k then i else i - 1] == Entry(key, req);
    }
  }

  /** The entry of a call is gone when its name is answered. */
  lemma AnsweredEntry<K>(es: seq<Entry<K>>, req: nat, key: K)
    requires Distinct(es) && Listed(es, req, key)
    requires multiset(Reqs(es))[req] <= 1
    ensures var k := Search(es, key); k < |es| && Unlisted(Without(es, k), req)
  {
    var i :| 0 <= i < |es| && es[i] == Entry(key, req);
    KeyGone(es, i);
    ReqsWithout(es, i);
    var rs := Reqs(Without(es, i));
    assert multiset(rs)[req] == 0;
    forall j | 0 <= j < |Without(es, i)|
      ensures Without(es, i)[j].req != req
    {
      assert rs[j] == Without(es, i)[j].req;
      assert rs[j] in multiset(rs);
    }
  }

  ghost predicate Kept<K>(ops: seq<Op<K>>, t: Table<K>, req: nat) {
    && t.calls == Makes(ops)
    && (req < Makes(ops) && Waits(ops, req) ==> Listed(t.entries, req, NameOf(ops, req)))
    && (!(req < Makes(ops) && Waits(ops, req)) ==> Unlisted(t.entries, req))
  }

  lemma MakeStep<K>(prev: seq<Op<K>>, t: Table<K>, key: K, req: nat, ops: seq<Op<K>>)
    requires ops == prev + [Make(key)] && Kept(prev, t, req) && Enabled(t, Make(key))
    ensures Kept(ops, Do(t, Make(key)), req)
  {
    assert ops[..|ops| - 1] == prev && ops[|ops| - 1] == Make(key);
    if req < Makes(ops) {
      AddedEntry(t.entries, Entry(key, t.calls), req, NameOf(ops, req));
    }
  }

  lemma ReplyStep<K>(prev: seq<Op<K>>, t: Table<K>, key: K, req: nat, ops: seq<Op<K>>)
    requires ops == prev + [Reply(key)] && Kept(prev, t, req)
    requires Distinct(t.entries) && multiset(Reqs(t.entries))[req] <= 1
    ensures Kept(ops, Do(t, Reply(key)), req)
  {
    assert ops[..|ops| - 1] == prev && ops[|ops| - 1] == Reply(key);
    var k := Search(t.entries, key);
    if req < Makes(prev) && Waits(prev, req) {
      var name := NameOf(prev, req);
      if name == key {
        AnsweredEntry(t.entries, req, key);
      } else if k < |t.entries| {
        TakenEntry(t.entries, k, req, name);
      }
    } else if k < |t.entries| {
      assert Unlisted(t.entries, req);
      TakenEntry(t.entries, k, req, key);
    }
  }

  /** In every run a call is in the table, under the name it was given, exactly while no
      reply named it since it was made: so nothing but its reply takes it out. */
  lemma {:induction false} PendingExactly<K>(ops: seq<Op<K>>, req: nat)
    ensures Exec(ops).At? ==>
              var t := Exec(ops).table;
              && t.calls == Makes(ops)
              && (req < Makes(ops) && Waits(ops, req) ==> Listed(t.entries, req, NameOf(ops, req)))
              && (!(req < Makes(ops) && Waits(ops, req)) ==> Unlisted(t.entries, req))
  {
    if ops != [] {
      var prev, op := ops[..|ops| - 1], ops[|ops| - 1];
      assert ops == prev + [op];
      PendingExactly(prev, req);
      var r := Exec(prev);
      if r.At? && Enabled(r.table, op) {
        CompletedAtMostOnce(prev, req);
        match op
        case Make(key) => MakeStep(prev, r.table, key, req, ops);
        case Reply(key) => ReplyStep(prev, r.table, key, req, ops);
      }
    }
  }

  // ----- decimal names

  /** A decimal text: digits from 48 to 57, no zero in front, of that value. */
  lemma {:induction false} DecimalIs(n: nat)
    ensures var s := Decimal(n);
            && |s| > 0
            && (forall i :: 0 <= i < |s| ==> 48 <= s[i] as int <= 57)
            && (|s| > 1 ==> s[0] as int != 48)
            && (n < 10 <==> |s| == 1)
            && (|s| == 1 ==> s[0] as int == 48 + n)
            && (|s| > 1 ==> s[..|s| - 1] == Decimal(n / 10) && s[|s| - 1] as int == 48 + n % 10)
  {
    if n >= 10 {
      DecimalIs(n / 10);
      var s, t := Decimal(n), Decimal(n / 10);
      assert s == t + [Digit(n % 10)];
      assert s[..|s| - 1] == t;
      assert s[0] == t[0];
    }
  }
}

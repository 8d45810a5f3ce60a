/** Tables of calls waiting for their reply: the memos of src/afb-api-ws.c, named
    by a 32-bit number, and the calls of src/afb-wsj1.c, named by a text. */
module Pending {

  datatype Entry<K> = Entry(key: K, req: nat)

  /** `calls` requests were made so far; `done` tells which got their reply. */
  datatype Table<K> = Table(entries: seq<Entry<K>>, calls: nat, done: multiset<nat>)

  datatype Op<K> = Make(key: K) | Reply(key: K)

  function Search<K(==)>(es: seq<Entry<K>>, key: K): (k: nat)
    ensures k <= |es|
    ensures k < |es| ==> es[k].key == key
    ensures forall i :: 0 <= i < k ==> es[i].key != key
  {
    if es == [] then 0 else if es[0].key == key then 0 else 1 + Search(es[1..], key)
  }

  function Without<K>(es: seq<Entry<K>>, k: nat): seq<Entry<K>>
    requires k < |es|
  {
    es[..k] + es[k + 1..]
  }

  /** A name is free when no pending entry has it. */
  predicate Free<K(==)>(es: seq<Entry<K>>, key: K) {
    Search(es, key) == |es|
  }

  predicate Enabled<K(==)>(t: Table<K>, op: Op<K>) {
    op.Make? ==> Free(t.entries, op.key)
  }

  function Do<K(==)>(t: Table<K>, op: Op<K>): Table<K>
    requires Enabled(t, op)
  {
    match op
    case Make(key) => Table([Entry(key, t.calls)] + t.entries, t.calls + 1, t.done)
    case Reply(key) =>
      var k := Search(t.entries, key);
      if k == |t.entries| then t
      else t.(entries := Without(t.entries, k), done := t.done + multiset{t.entries[k].req})
  }

  datatype Outcome<K> = Impossible | At(table: Table<K>)

  function Exec<K(==)>(ops: seq<Op<K>>): Outcome<K> {
    if ops == [] then At(Table([], 0, multiset{}))
    else
      var r, op := Exec(ops[..|ops| - 1]), ops[|ops| - 1];
      if r.At? && Enabled(r.table, op) then At(Do(r.table, op)) else Impossible
  }

  // ----- what every run keeps

  ghost predicate Distinct<K>(es: seq<Entry<K>>) {
    forall i, j :: 0 <= i < j < |es| ==> es[i].key != es[j].key
  }

  function Reqs<K>(es: seq<Entry<K>>): seq<nat> {
    seq(|es|, i requires 0 <= i < |es| => es[i].req)
  }

  function Made(n: nat): multiset<nat> {
    if n == 0 then multiset{} else Made(n - 1) + multiset{n - 1}
  }

  ghost predicate Balanced<K>(t: Table<K>) {
    Distinct(t.entries) && Made(t.calls) == multiset(Reqs(t.entries)) + t.done
  }

  lemma ReqsWithout<K>(es: seq<Entry<K>>, k: nat)
    requires k < |es|
    ensures multiset(Reqs(es)) == multiset(Reqs(Without(es, k))) + multiset{es[k].req}
  {
    var a, b := Reqs(es[..k]), Reqs(es[k + 1..]);
    assert Reqs(es) == a + [es[k].req] + b;
    assert Reqs(Without(es, k)) == a + b;
  }

  lemma MakeKeeps<K>(t: Table<K>, key: K)
    requires Balanced(t) && Free(t.entries, key)
    ensures Balanced(Do(t, Make(key)))
  {
    assert Reqs([Entry(key, t.calls)] + t.entries) == [t.calls] + Reqs(t.entries);
  }

  lemma ReplyKeeps<K>(t: Table<K>, key: K)
    requires Balanced(t)
    ensures Balanced(Do(t, Reply(key)))
  {
    var k := Search(t.entries, key);
    if k < |t.entries| {
      ReqsWithout(t.entries, k);
      var r := Without(t.entries, k);
      assert forall i :: 0 <= i < |r| ==> r[i] == t.entries[if i < k then i else i + 1];
    }
  }

  lemma {:induction false} RunKeeps<K>(ops: seq<Op<K>>)
    ensures Exec(ops).At? ==> Balanced(Exec(ops).table)
  {
    if ops != [] {
      RunKeeps(ops[..|ops| - 1]);
      var r, op := Exec(ops[..|ops| - 1]), ops[|ops| - 1];
      if r.At? && Enabled(r.table, op) {
        match op
        case Make(key) => MakeKeeps(r.table, key);
        case Reply(key) => ReplyKeeps(r.table, key);
      }
    }
  }

  lemma {:induction false} MadeOnce(n: nat, req: nat)
    ensures Made(n)[req] == if req < n then 1 else 0
  {
    if n > 0 {
      MadeOnce(n - 1, req);
    }
  }

  /** In every run the pending names are distinct, and every request made is
      either pending once or completed once. */
  lemma CompletedAtMostOnce<K>(ops: seq<Op<K>>, req: nat)
    ensures Exec(ops).At? ==>
              var t := Exec(ops).table;
              && Distinct(t.entries)
              && multiset(Reqs(t.entries))[req] + t.done[req] == (if req < t.calls then 1 else 0)
  {
    RunKeeps(ops);
    if Exec(ops).At? {
      MadeOnce(Exec(ops).table.calls, req);
    }
  }

  /** A reply completes exactly the pending entry it names, and no other; the same
      name is then unknown until it is given again. */
  lemma ReplyCompletesItsCall<K>(ops: seq<Op<K>>, k: nat)
    requires Exec(ops).At? && k < |Exec(ops).table.entries|
    ensures var t := Exec(ops).table;
            var e := t.entries[k];
            var u := Do(t, Reply(e.key));
            && u.entries == Without(t.entries, k)
            && u.done == t.done + multiset{e.req}
            && Free(u.entries, e.key)
            && Do(u, Reply(e.key)) == u
  {
    RunKeeps(ops);
    var t := Exec(ops).table;
    KeyGone(t.entries, k);
  }

  lemma KeyGone<K>(es: seq<Entry<K>>, k: nat)
    requires Distinct(es) && k < |es|
    ensures Search(es, es[k].key) == k && Free(Without(es, k), es[k].key)
  {
    var r := Without(es, k);
    forall i | 0 <= i < |r|
      ensures r[i].key != es[k].key
    {
      assert r[i] == es[if i < k then i else i + 1];
    }
  }
}

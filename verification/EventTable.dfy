/** The table of remote events kept by a client of src/afb-api-ws.c. */
module EventTable {

  /** A remote event is named by its identifier and its name together. */
  datatype Key = Key(id: int, name: string)

  datatype Entry = Entry(key: Key, refcount: int)

  datatype Msg =
    | Plus(key: Key)                    // '+': the event is created
    | Minus(key: Key)                   // '-': the event is dropped
    | Bang(key: Key)                    // '!': the event is pushed
    | Sub(msgid: nat, key: Key)         // 'S': a request subscribes
    | Unsub(msgid: nat, key: Key)       // 'U': a request unsubscribes

  /** The first entry for the key, or `|t|`. */
  function Search(t: seq<Entry>, key: Key): (k: nat)
    ensures k <= |t|
    ensures k < |t| ==> t[k].key == key
    ensures forall i :: 0 <= i < k ==> t[i].key != key
  {
    if t == [] then 0 else if t[0].key == key then 0 else 1 + Search(t[1..], key)
  }

  function Create(t: seq<Entry>, key: Key): seq<Entry> {
    var k := Search(t, key);
    if k < |t| then t[k := t[k].(refcount := t[k].refcount + 1)] else [Entry(key, 1)] + t
  }

  function Remove(t: seq<Entry>, key: Key): seq<Entry> {
    var k := Search(t, key);
    if k == |t| then t
    else if t[k].refcount != 1 then t[k := t[k].(refcount := t[k].refcount - 1)]
    else t[..k] + t[k + 1..]
  }

  function Receive(t: seq<Entry>, m: Msg): seq<Entry> {
    match m
    case Plus(key) => Create(t, key)
    case Minus(key) => Remove(t, key)
    case Bang(_) => t
    case Sub(_, _) => t
    case Unsub(_, _) => t
  }

  /** Is the message understood?  A creation must be new, and the event of a drop,
      a push or a subscription must be found. */
  predicate Understood(t: seq<Entry>, m: Msg) {
    match m
    case Plus(key) => Search(t, key) == |t|
    case Minus(key) => Search(t, key) < |t|
    case Bang(key) => Search(t, key) < |t|
    case Sub(_, key) => Search(t, key) < |t|
    case Unsub(_, _) => true
  }

  /** The table when all messages are received. */
  function Drain(t: seq<Entry>, ms: seq<Msg>): seq<Entry>
    decreases |ms|
  {
    if ms == [] then t else Drain(Receive(t, ms[0]), ms[1..])
  }

  predicate AllUnderstood(t: seq<Entry>, ms: seq<Msg>)
    decreases |ms|
  {
    ms == [] || (Understood(t, ms[0]) && AllUnderstood(Receive(t, ms[0]), ms[1..]))
  }

  lemma {:induction false} DrainConcat(t: seq<Entry>, a: seq<Msg>, b: seq<Msg>)
    ensures Drain(t, a + b) == Drain(Drain(t, a), b)
    ensures AllUnderstood(t, a + b) <==> AllUnderstood(t, a) && AllUnderstood(Drain(t, a), b)
    decreases |a|
  {
    if a == [] {
      assert a + b == b;
    } else {
      assert (a + b)[1..] == a[1..] + b;
      DrainConcat(Receive(t, a[0]), a[1..], b);
    }
  }

  /** The table holds exactly the given keys, each once and referenced once. */
  ghost predicate Holds(t: seq<Entry>, keys: set<Key>) {
    && (forall i :: 0 <= i < |t| ==> t[i].refcount == 1 && t[i].key in keys)
    && (forall i, j :: 0 <= i < j < |t| ==> t[i].key != t[j].key)
    && (forall k :: k in keys ==> Search(t, k) < |t|)
  }

  lemma SearchHolds(t: seq<Entry>, keys: set<Key>, key: Key)
    requires Holds(t, keys)
    ensures Search(t, key) < |t| <==> key in keys
  {
  }

  lemma SearchHit(t: seq<Entry>, key: Key, i: nat)
    requires i < |t| && t[i].key == key
    ensures Search(t, key) < |t|
  {
  }

  lemma PlusHolds(t: seq<Entry>, keys: set<Key>, key: Key)
    requires Holds(t, keys) && key !in keys
    ensures Understood(t, Plus(key)) && Holds(Receive(t, Plus(key)), keys + {key})
  {
    SearchHolds(t, keys, key);
    var u := [Entry(key, 1)] + t;
    forall k | k in keys + {key}
      ensures Search(u, k) < |u|
    {
      if k == key {
        SearchHit(u, k, 0);
      } else {
        SearchHit(u, k, 1 + Search(t, k));
      }
    }
  }

  lemma EntryGone(t: seq<Entry>, keys: set<Key>, n: nat, u: seq<Entry>)
    requires Holds(t, keys) && n < |t| && |u| == |t| - 1
    requires forall i :: 0 <= i < n ==> u[i] == t[i]
    requires forall i :: n <= i < |u| ==> u[i] == t[i + 1]
    ensures Holds(u, keys - {t[n].key})
  {
    forall k | k in keys - {t[n].key}
      ensures Search(u, k) < |u|
    {
      var j := Search(t, k);
      SearchHit(u, k, if j < n then j else j - 1);
    }
    forall i, j | 0 <= i < j < |u|
      ensures u[i].key != u[j].key
    {
      var a, b := if i < n then i else i + 1, if j < n then j else j + 1;
      assert t[a].key != t[b].key;
    }
  }

  lemma CutAt<T>(t: seq<T>, n: nat, u: seq<T>)
    requires n < |t| && u == t[..n] + t[n + 1..]
    ensures |u| == |t| - 1
    ensures forall i :: 0 <= i < n ==> u[i] == t[i]
    ensures forall i :: n <= i < |u| ==> u[i] == t[i + 1]
  {
  }

  lemma MinusHolds(t: seq<Entry>, keys: set<Key>, key: Key)
    requires Holds(t, keys) && key in keys
    ensures Understood(t, Minus(key)) && Holds(Receive(t, Minus(key)), keys - {key})
  {
    var n := Search(t, key);
    assert t[n].refcount == 1 && t[n].key == key;
    var u := Receive(t, Minus(key));
    assert u == t[..n] + t[n + 1..];
    CutAt(t, n, u);
    EntryGone(t, keys, n, u);
  }

  ghost predicate Ones(t: seq<Entry>) {
    forall i :: 0 <= i < |t| ==> t[i].refcount == 1
  }

  lemma ReceiveOnes(t: seq<Entry>, m: Msg)
    requires Ones(t) && Understood(t, m)
    ensures Ones(Receive(t, m))
  {
  }
}

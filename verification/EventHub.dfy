/** Events, listeners and watches of src/afb-evt.c, as values.

    A reference stands for an allocated structure; references are never reused,
    so a reference found in one of the maps is a live handle.  A watch is linked
    in two lists: that of its event and that of its listener. */
module EventHub {

  type Ref = nat

  /** Which callbacks an interface provides; `tag` is its identity. */
  datatype Itf = Itf(tag: nat, push: bool, add: bool, remove: bool)

  datatype Watch = Watch(event: Ref, listener: Ref, activity: nat)
  datatype Event = Event(id: int, name: string)
  datatype Listener = Listener(itf: Itf, closure: nat, refcount: int)

  /** `byEvent` and `byListener` hold the fields `watchs` of the two structures. */
  datatype Hub = Hub(
    events: seq<Ref>,
    listeners: seq<Ref>,
    evt: map<Ref, Event>,
    lst: map<Ref, Listener>,
    byEvent: map<Ref, seq<Ref>>,
    byListener: map<Ref, seq<Ref>>,
    wat: map<Ref, Watch>,
    next: Ref,
    counter: int,
    wrapped: bool)

  datatype Kind = Added | Removed | Pushed

  /** A call of a listener's interface; `full` tells that the interface has both
      an add and a remove callback. */
  datatype Callback = Callback(kind: Kind, listener: Ref, event: Ref, id: int, name: string, full: bool)

  const INT_MAX := 0x7fff_ffff
  const FIRST_REUSED := 1024

  function Empty(): Hub {
    Hub([], [], map[], map[], map[], map[], map[], 0, 0, false)
  }

  // ----- lists

  predicate NoDup<T(==)>(s: seq<T>) {
    forall i, j :: 0 <= i < j < |s| ==> s[i] != s[j]
  }

  /** `s` without the first occurrence of `x`. */
  function Drop<T(==)>(s: seq<T>, x: T): (r: seq<T>)
    ensures x !in s ==> r == s
    ensures x in s ==> |r| == |s| - 1
  {
    if s == [] then [] else if s[0] == x then s[1..] else [s[0]] + Drop(s[1..], x)
  }

  lemma {:induction false} DropAt<T>(s: seq<T>, x: T, k: nat)
    requires k < |s| && s[k] == x && x !in s[..k]
    ensures Drop(s, x) == s[..k] + s[k + 1..]
  {
    if k > 0 {
      assert s[0] in s[..k];
      assert s[1..][..k - 1] == s[..k][1..];
      DropAt(s[1..], x, k - 1);
      assert s[1..][k..] == s[k + 1..];
      assert [s[0]] + s[1..][..k - 1] == s[..k];
    }
  }

  lemma {:induction false} DropMembers<T>(s: seq<T>, x: T)
    requires NoDup(s)
    ensures NoDup(Drop(s, x))
    ensures forall y :: y in Drop(s, x) <==> y in s && y != x
  {
    if s != [] {
      var t := s[1..];
      assert NoDup(t);
      DropMembers(t, x);
      assert s[0] !in t;
      assert forall y :: y in s <==> y == s[0] || y in t;
      var r := Drop(t, x);
      assert s[0] !in r;
      assert NoDup([s[0]] + r);
    }
  }

  lemma PushFront<T>(x: T, s: seq<T>)
    requires NoDup(s) && x !in s
    ensures NoDup([x] + s)
    ensures forall y :: y in [x] + s <==> y == x || y in s
  {
  }

  // ----- the invariant

  type Lists = map<Ref, seq<Ref>>

  function EventOf(w: Watch): Ref {
    w.event
  }

  function ListenerOf(w: Watch): Ref {
    w.listener
  }

  /** Each watch is in exactly one list, that of its owner, and once. */
  ghost predicate Linked(lists: Lists, owner: Watch -> Ref, wat: map<Ref, Watch>) {
    && (forall x :: x in lists ==> NoDup(lists[x]))
    && (forall x, w :: x in lists && w in lists[x] ==> w in wat && owner(wat[w]) == x)
    && (forall w :: w in wat ==> owner(wat[w]) in lists && w in lists[owner(wat[w])])
  }

  lemma LinkedWithout(lists: Lists, owner: Watch -> Ref, wat: map<Ref, Watch>, w: Ref, x: Ref, r: seq<Ref>)
    requires Linked(lists, owner, wat) && w in wat && owner(wat[w]) == x
    requires NoDup(r) && forall y :: y in r <==> y in lists[x] && y != w
    ensures Linked(lists[x := r], owner, wat - {w})
  {
  }

  lemma LinkedDrop(lists: Lists, owner: Watch -> Ref, wat: map<Ref, Watch>, w: Ref)
    requires Linked(lists, owner, wat) && w in wat
    ensures var x := owner(wat[w]);
            Linked(lists[x := Drop(lists[x], w)], owner, wat - {w})
  {
    var x := owner(wat[w]);
    DropMembers(lists[x], w);
    LinkedWithout(lists, owner, wat, w, x, Drop(lists[x], w));
  }

  lemma LinkedPush(lists: Lists, owner: Watch -> Ref, wat: map<Ref, Watch>, w: Ref, watch: Watch)
    requires Linked(lists, owner, wat) && w !in wat && owner(watch) in lists
    ensures var x := owner(watch);
            Linked(lists[x := [w] + lists[x]], owner, wat[w := watch])
  {
    PushFront(w, lists[owner(watch)]);
  }

  /** Changing watches without moving them. */
  lemma LinkedUpdate(lists: Lists, owner: Watch -> Ref, wat: map<Ref, Watch>, w: Ref, watch: Watch)
    requires Linked(lists, owner, wat) && w in wat && owner(wat[w]) == owner(watch)
    ensures Linked(lists, owner, wat[w := watch])
  {
  }

  lemma LinkedNew(lists: Lists, owner: Watch -> Ref, wat: map<Ref, Watch>, x: Ref)
    requires Linked(lists, owner, wat) && x !in lists
    ensures Linked(lists[x := []], owner, wat)
  {
  }

  lemma LinkedGone(lists: Lists, owner: Watch -> Ref, wat: map<Ref, Watch>, x: Ref)
    requires Linked(lists, owner, wat) && forall w :: w in wat ==> owner(wat[w]) != x
    ensures Linked(lists - {x}, owner, wat)
  {
  }

  /** At most one watch for an event and a listener. */
  ghost predicate OnePerPair(wat: map<Ref, Watch>) {
    forall v, w :: v in wat && w in wat && wat[v].event == wat[w].event && wat[v].listener == wat[w].listener ==> v == w
  }

  ghost predicate Below<T>(m: map<Ref, T>, next: Ref) {
    forall x :: x in m ==> x < next
  }

  ghost predicate Fresh(h: Hub) {
    Below(h.evt, h.next) && Below(h.lst, h.next) && Below(h.wat, h.next)
  }

  /** Only listeners that can be pushed to are watching. */
  ghost predicate Pushable(lst: map<Ref, Listener>, wat: map<Ref, Watch>) {
    forall w :: w in wat ==> wat[w].listener in lst && lst[wat[w].listener].itf.push
  }

  ghost predicate Wired(h: Hub) {
    && h.byEvent.Keys == h.evt.Keys
    && h.byListener.Keys == h.lst.Keys
    && Linked(h.byEvent, EventOf, h.wat)
    && Linked(h.byListener, ListenerOf, h.wat)
    && OnePerPair(h.wat)
    && Fresh(h)
    && Pushable(h.lst, h.wat)
  }

  ghost predicate Chain<T>(s: seq<Ref>, m: map<Ref, T>) {
    NoDup(s) && forall x :: x in s <==> x in m
  }

  ghost predicate Counted(lst: map<Ref, Listener>) {
    forall l :: l in lst ==> lst[l].refcount > 0
  }

  ghost predicate Chains(h: Hub) {
    Chain(h.events, h.evt) && Chain(h.listeners, h.lst) && Counted(h.lst)
  }

  lemma ChainPush<T>(s: seq<Ref>, m: map<Ref, T>, x: Ref, v: T)
    requires Chain(s, m) && x !in m
    ensures Chain([x] + s, m[x := v])
  {
    PushFront(x, s);
  }

  lemma ChainDrop<T>(s: seq<Ref>, m: map<Ref, T>, x: Ref)
    requires Chain(s, m)
    ensures Chain(Drop(s, x), m - {x})
  {
    DropMembers(s, x);
  }

  /** Live events have distinct positive identifiers. */
  ghost predicate Ids(evt: map<Ref, Event>, counter: int, wrapped: bool) {
    && 0 <= counter <= INT_MAX
    && (wrapped ==> FIRST_REUSED <= counter)
    && (forall e :: e in evt ==> 0 < evt[e].id <= INT_MAX && (!wrapped ==> evt[e].id <= counter))
    && (forall d, e :: d in evt && e in evt && evt[d].id == evt[e].id ==> d == e)
  }

  ghost predicate Valid(h: Hub) {
    Wired(h) && Chains(h) && Ids(h.evt, h.counter, h.wrapped)
  }

  // ----- remove_watch

  predicate Full(i: Itf) {
    i.add && i.remove
  }

  function Call(h: Hub, k: Kind, l: Ref, e: Ref): Callback
    requires l in h.lst && e in h.evt
  {
    Callback(k, l, e, h.evt[e].id, h.evt[e].name, Full(h.lst[l].itf))
  }

  /** What remove_watch needs of its argument. */
  predicate Known(h: Hub, w: Ref) {
    && w in h.wat
    && h.wat[w].event in h.evt && h.wat[w].event in h.byEvent
    && h.wat[w].listener in h.lst && h.wat[w].listener in h.byListener
  }

  function Unlink(h: Hub, w: Ref): Hub
    requires Known(h, w)
  {
    var Watch(e, l, _) := h.wat[w];
    h.(byEvent := h.byEvent[e := Drop(h.byEvent[e], w)],
       byListener := h.byListener[l := Drop(h.byListener[l], w)],
       wat := h.wat - {w})
  }

  function UnlinkCalls(h: Hub, w: Ref): seq<Callback>
    requires Known(h, w)
  {
    var Watch(e, l, activity) := h.wat[w];
    if activity != 0 && h.lst[l].itf.remove then [Call(h, Removed, l, e)] else []
  }

  lemma UnlinkKeepsWired(h: Hub, w: Ref)
    requires Wired(h) && w in h.wat
    ensures Known(h, w) && Wired(Unlink(h, w))
  {
    LinkedDrop(h.byEvent, EventOf, h.wat, w);
    LinkedDrop(h.byListener, ListenerOf, h.wat, w);
  }

  /** The rest of the hub is the same: nothing but watches and their lists. */
  ghost predicate SameButWatches(h: Hub, r: Hub) {
    r == h.(byEvent := r.byEvent, byListener := r.byListener, wat := r.wat)
  }

  /** The watches `ws` are distinct and live. */
  ghost predicate Removable(h: Hub, ws: seq<Ref>) {
    Wired(h) && NoDup(ws) && forall w :: w in ws ==> w in h.wat
  }

  lemma UnlinkFirst(h: Hub, ws: seq<Ref>)
    requires Removable(h, ws) && ws != []
    ensures Known(h, ws[0]) && Removable(Unlink(h, ws[0]), ws[1..])
  {
    assert ws[0] in ws;
    UnlinkKeepsWired(h, ws[0]);
    assert forall w :: w in ws[1..] ==> w in ws && w != ws[0];
  }

  /** Removes the watches `ws` from the front on. */
  ghost function UnlinkAll(h: Hub, ws: seq<Ref>): (r: Hub)
    requires Removable(h, ws)
    ensures Wired(r) && SameButWatches(h, r)
    decreases |ws|
  {
    if ws == [] then h
    else
      UnlinkFirst(h, ws);
      UnlinkAll(Unlink(h, ws[0]), ws[1..])
  }

  /** Exactly the watches `ws` are gone; the others are unchanged. */
  lemma {:induction false} UnlinkAllWatches(h: Hub, ws: seq<Ref>)
    requires Removable(h, ws)
    ensures var r := UnlinkAll(h, ws);
            forall w :: (w in r.wat <==> w in h.wat && w !in ws) && (w in r.wat ==> r.wat[w] == h.wat[w])
    decreases |ws|
  {
    if ws != [] {
      UnlinkFirst(h, ws);
      UnlinkAllWatches(Unlink(h, ws[0]), ws[1..]);
      assert forall w :: w in ws <==> w == ws[0] || w in ws[1..];
    }
  }

  ghost function UnlinkAllCalls(h: Hub, ws: seq<Ref>): seq<Callback>
    requires Removable(h, ws)
    decreases |ws|
  {
    if ws == [] then []
    else
      UnlinkFirst(h, ws);
      UnlinkCalls(h, ws[0]) + UnlinkAllCalls(Unlink(h, ws[0]), ws[1..])
  }
}

/** What every operation keeps of a session store (src/session.c). */
module SessionSafety {
  import opened Options
  import opened Sessions

  // ----- counting

  function Occupied<C>(slots: seq<Option<C>>): (n: nat)
    ensures n <= |slots|
  {
    if slots == [] then 0 else (if slots[0].Some? then 1 else 0) + Occupied(slots[1..])
  }

  lemma {:induction false} OccupiedSet<C>(slots: seq<Option<C>>, i: nat, x: Option<C>)
    requires i < |slots|
    ensures Occupied(slots[i := x]) == Occupied(slots) - (if slots[i].Some? then 1 else 0) + (if x.Some? then 1 else 0)
  {
    if i == 0 {
      assert slots[0 := x][1..] == slots[1..];
    } else {
      assert slots[i := x][1..] == slots[1..][i - 1 := x];
      OccupiedSet(slots[1..], i - 1, x);
    }
  }

  // ----- the invariant

  /** No client lies in two slots. */
  ghost predicate Apart<C>(slots: seq<Option<C>>) {
    forall i, j :: 0 <= i < j < |slots| && slots[i].Some? ==> slots[i] != slots[j]
  }

  predicate Done(x: Session) {
    x.uuid == "" && x.refcount == 0
  }

  /** A client is in the store unless it is closed and unreferenced. */
  ghost predicate Kept<C>(slots: seq<Option<C>>, all: map<C, Session>) {
    && (forall i :: 0 <= i < |slots| && slots[i].Some? ==> slots[i].value in all)
    && (forall c :: c in all ==> (Some(c) in slots <==> !Done(all[c])))
  }

  ghost predicate UuidsDiffer<C>(all: map<C, Session>) {
    forall c, d :: c in all && d in all && c != d && all[c].uuid != "" ==> all[c].uuid != all[d].uuid
  }

  predicate Sane(x: Session) {
    x.timeout >= 0 && x.refcount >= 0 && |x.uuid| < UUID_SIZE && (x.timeout == 0 ==> x.expiration == FOREVER)
  }

  ghost predicate AllSane<C>(all: map<C, Session>) {
    forall c :: c in all ==> Sane(all[c])
  }

  ghost predicate Valid<C>(s: Store<C>) {
    && s.count == Occupied(s.slots) && s.timeout >= 0
    && Apart(s.slots) && Kept(s.slots, s.all) && UuidsDiffer(s.all) && AllSane(s.all)
  }

  function Start<C(==)>(max: nat, timeout: int, initok: string): Store<C> {
    Store(seq(max, _ => None), 0, map[], timeout, initok)
  }

  lemma {:induction false} NoneOccupied<C>(slots: seq<Option<C>>)
    requires forall i :: 0 <= i < |slots| ==> slots[i].None?
    ensures Occupied(slots) == 0
  {
    if slots != [] {
      NoneOccupied(slots[1..]);
    }
  }

  lemma StartValid<C>(max: nat, timeout: int, initok: string)
    requires timeout >= 0
    ensures Valid<C>(Start(max, timeout, initok))
  {
    NoneOccupied(Start<C>(max, timeout, initok).slots);
  }

  // ----- one change to the store

  /** A client leaves its slot. */
  lemma DelSlots<C>(s: Store<C>, c: C)
    requires Apart(s.slots) && s.count == Occupied(s.slots) && Has(s, c)
    ensures var r := Del(s, c);
            && Apart(r.slots) && r.count == Occupied(r.slots)
            && (forall k :: 0 <= k < |s.slots| ==> r.slots[k] == if s.slots[k] == Some(c) then None else s.slots[k])
            && r == s.(slots := r.slots, count := r.count)
  {
    OccupiedSet(s.slots, Index(s.slots, Some(c)), None);
  }

  /** What taking out does to the slots, in terms of membership. */
  lemma Emptied<C>(a: seq<Option<C>>, b: seq<Option<C>>, c: C)
    requires |a| == |b| && forall k :: 0 <= k < |a| ==> b[k] == if a[k] == Some(c) then None else a[k]
    ensures forall d :: Some(d) in b <==> Some(d) in a && d != c
  {
    forall d | Some(d) in a && d != c
      ensures Some(d) in b
    {
      var k :| 0 <= k < |a| && a[k] == Some(d);
      assert b[k] == Some(d);
    }
  }

  /** The record of `c` changes: to `x`, done or not; the store follows. */
  function Put<C(==)>(s: Store<C>, c: C, x: Session): Store<C> {
    var t := s.(all := s.all[c := x]);
    if Done(x) then Del(t, c) else t
  }

  lemma PutKeeps<C>(s: Store<C>, c: C, x: Session)
    requires Valid(s) && Has(s, c) && Sane(x)
    requires x.uuid == "" || x.uuid == s.all[c].uuid
    ensures Valid(Put(s, c, x)) && Put(s, c, x).all == s.all[c := x]
    ensures forall k :: 0 <= k < |s.slots| ==>
            Put(s, c, x).slots[k] == if s.slots[k] == Some(c) && Done(x) then None else s.slots[k]
  {
    var t := s.(all := s.all[c := x]);
    if Done(x) {
      DelSlots(t, c);
      Emptied(s.slots, Del(t, c).slots, c);
    }
  }

  lemma CloseIsPut<C>(s: Store<C>, c: C)
    requires Valid(s) && Has(s, c)
    ensures Close(s, c) == Put(s, c, s.all[c].(uuid := ""))
  {
    if s.all[c].uuid == "" {
      assert s.all[c := s.all[c]] == s.all;
    }
  }

  // ----- expiry

  function Closed(x: Session, late: bool): Session {
    if late then x.(uuid := "") else x
  }

  /** The records with the outdated sessions of the slots from `i` on closed. */
  ghost predicate Faded<C>(s: Store<C>, i: nat, now: int, all: map<C, Session>)
    requires i <= |s.slots|
  {
    && all.Keys == s.all.Keys
    && forall c :: c in s.all ==> all[c] == Closed(s.all[c], Some(c) in s.slots[i..] && TooOld(s.all[c], now))
  }

  /** The slots without the outdated and unreferenced sessions from `i` on. */
  ghost predicate Swept<C>(s: Store<C>, i: nat, now: int, slots: seq<Option<C>>) {
    && |slots| == |s.slots|
    && forall k :: 0 <= k < |slots| ==>
         slots[k] == if k >= i && s.slots[k].Some? && s.slots[k].value in s.all && TooOld(s.all[s.slots[k].value], now)
                        && s.all[s.slots[k].value].refcount == 0 then None else s.slots[k]
  }

  lemma SlotSplit<C>(slots: seq<Option<C>>, i: nat)
    requires i < |slots|
    ensures forall x :: x in slots[i..] <==> x == slots[i] || x in slots[i + 1..]
  {
    assert slots[i..] == [slots[i]] + slots[i + 1..];
  }

  /** Closing the session of slot `i` first. */
  lemma FadedStep<C>(s: Store<C>, i: nat, now: int, c: C, t: Store<C>, all: map<C, Session>)
    requires Apart(s.slots) && i < |s.slots| && s.slots[i] == Some(c) && c in s.all && TooOld(s.all[c], now)
    requires t.all == s.all[c := s.all[c].(uuid := "")] && |t.slots| == |s.slots| &&
             t.slots[i + 1..] == s.slots[i + 1..]
    requires Faded(t, i + 1, now, all)
    ensures Faded(s, i, now, all)
  {
    SlotSplit(s.slots, i);
  }

  lemma FadedSkip<C>(s: Store<C>, i: nat, now: int, all: map<C, Session>)
    requires i < |s.slots| && (s.slots[i].Some? && s.slots[i].value in s.all ==> !TooOld(s.all[s.slots[i].value], now))
    requires Faded(s, i + 1, now, all)
    ensures Faded(s, i, now, all)
  {
    SlotSplit(s.slots, i);
  }

  lemma SweptSkip<C>(s: Store<C>, i: nat, now: int, slots: seq<Option<C>>)
    requires i < |s.slots| && (s.slots[i].Some? && s.slots[i].value in s.all ==> !TooOld(s.all[s.slots[i].value], now))
    requires Swept(s, i + 1, now, slots)
    ensures Swept(s, i, now, slots)
  {
  }

  lemma SweptStep<C>(s: Store<C>, i: nat, now: int, c: C, t: Store<C>, slots: seq<Option<C>>)
    requires Apart(s.slots) && i < |s.slots| && s.slots[i] == Some(c) && c in s.all && TooOld(s.all[c], now)
    requires t.all == s.all[c := s.all[c].(uuid := "")] && |t.slots| == |s.slots|
    requires forall k :: 0 <= k < |s.slots| ==>
             t.slots[k] == if s.slots[k] == Some(c) && s.all[c].refcount == 0 then None else s.slots[k]
    requires Swept(t, i + 1, now, slots)
    ensures Swept(s, i, now, slots)
  {
    assert forall k :: 0 <= k < |s.slots| && k != i ==> t.slots[k] == s.slots[k];
  }

  lemma CloseSlot<C>(s: Store<C>, i: nat, c: C)
    requires Valid(s) && i < |s.slots| && s.slots[i] == Some(c)
    ensures var t := Close(s, c);
            && Valid(t) && t.all == s.all[c := s.all[c].(uuid := "")] && |t.slots| == |s.slots|
            && t.timeout == s.timeout && t.initok == s.initok
            && t.slots[i + 1..] == s.slots[i + 1..]
            && (forall k :: 0 <= k < |s.slots| ==>
                t.slots[k] == if s.slots[k] == Some(c) && s.all[c].refcount == 0 then None else s.slots[k])
  {
    CloseIsPut(s, c);
    PutKeeps(s, c, s.all[c].(uuid := ""));
  }

  /** Cleaning keeps the store valid, closes the outdated sessions and no other one,
      and takes out those that nobody holds. */
  lemma {:induction false} CleanFromKeeps<C>(s: Store<C>, i: nat, now: int)
    requires Valid(s) && i <= |s.slots|
    ensures var r := CleanFrom(s, i, now);
            && Valid(r) && Faded(s, i, now, r.all) && Swept(s, i, now, r.slots)
            && r.timeout == s.timeout && r.initok == s.initok
    decreases |s.slots| - i
  {
    if i < |s.slots| {
      if s.slots[i].Some? && TooOld(s.all[s.slots[i].value], now) {
        var c := s.slots[i].value;
        var t := Close(s, c);
        var r := CleanFrom(t, i + 1, now);
        assert CleanFrom(s, i, now) == r;
        CloseSlot(s, i, c);
        CleanFromKeeps(t, i + 1, now);
        FadedStep(s, i, now, c, t, r.all);
        SweptStep(s, i, now, c, t, r.slots);
      } else {
        CleanFromKeeps(s, i + 1, now);
        assert CleanFrom(s, i, now) == CleanFrom(s, i + 1, now);
        FadedSkip(s, i, now, CleanFrom(s, i, now).all);
        SweptSkip(s, i, now, CleanFrom(s, i, now).slots);
      }
    }
  }

  /** The whole cleaning, told by the sessions alone. */
  lemma CleanUpKeeps<C>(s: Store<C>, now: int)
    requires Valid(s)
    ensures var r := CleanFrom(s, 0, now);
            && Valid(r) && Swept(s, 0, now, r.slots) && r.all.Keys == s.all.Keys
            && r.timeout == s.timeout && r.initok == s.initok
            && (forall c :: c in s.all ==> r.all[c] == Closed(s.all[c], TooOld(s.all[c], now)))
  {
    CleanFromKeeps(s, 0, now);
    assert s.slots[0..] == s.slots;
  }

  // ----- search

  lemma {:induction false} SearchFinds<C>(s: Store<C>, uuid: string, i: nat)
    requires Valid(s) && i <= |s.slots|
    ensures var r := SearchFrom(s, uuid, i);
            && (r.Some? ==> r in s.slots && s.all[r.value].uuid == uuid)
            && (r.None? ==> forall k :: i <= k < |s.slots| && s.slots[k].Some? ==> s.all[s.slots[k].value].uuid != uuid)
    decreases |s.slots| - i
  {
    if i < |s.slots| {
      SearchFinds(s, uuid, i + 1);
    }
  }

  /** A search finds the session of that uuid if and only if there is an unclosed one. */
  lemma SearchIff<C>(s: Store<C>, uuid: string)
    requires Valid(s) && uuid != ""
    ensures var r := SearchFrom(s, uuid, 0);
            && (r.Some? ==> r.value in s.all && Has(s, r.value) && s.all[r.value].uuid == uuid)
            && (r.None? ==> forall c :: c in s.all ==> s.all[c].uuid != uuid)
  {
    SearchFinds(s, uuid, 0);
  }

  // ----- creation

  lemma NewKeeps<C>(s: Store<C>, uuid: Option<string>, gen: string, timeout: int, now: int, c: C)
    requires Valid(s) && c !in s.all && timeout >= 0
    requires var u := if uuid.Some? then uuid.value else gen;
             u != "" && (|u| < UUID_SIZE || uuid.Some?) && forall d :: d in s.all ==> s.all[d].uuid != u
    ensures Valid(New(s, uuid, gen, timeout, now, c).0)
  {
    var i := Index(s.slots, None);
    var (t, out) := New(s, uuid, gen, timeout, now, c);
    if out.Given? {
      OccupiedSet(s.slots, i, Some(c));
      assert t.slots == s.slots[i := Some(c)];
      Filled(s.slots, i, c);
    }
  }

  lemma Filled<C>(slots: seq<Option<C>>, i: nat, c: C)
    requires i < |slots| && slots[i].None?
    ensures forall d :: Some(d) in slots[i := Some(c)] <==> Some(d) in slots || d == c
  {
    var t := slots[i := Some(c)];
    assert t[i] == Some(c);
    forall d | Some(d) in slots
      ensures Some(d) in t
    {
      var k :| 0 <= k < |slots| && slots[k] == Some(d);
      assert t[k] == Some(d);
    }
  }

  // ----- every operation

  /** Uuids given by callers are not empty, generated ones are new, and timeouts are
      not negative. */
  ghost predicate Fair<C>(s: Store<C>, op: Op<C>) {
    && Callable(s, op)
    && (op.Create? ==> op.timeout >= 0)
    && (op.Create? || op.GetSession? ==>
          && (op.uuid.Some? ==> op.uuid.value != "")
          && op.gen != "" && |op.gen| < UUID_SIZE
          && forall c :: c in s.all ==> s.all[c].uuid != op.gen)
  }

  /** What is new to a store is new to the cleaned store. */
  lemma StillNew<C>(s: Store<C>, now: int, u: string)
    requires Valid(s) && u != "" && forall c :: c in s.all ==> s.all[c].uuid != u
    ensures var r := CleanFrom(s, 0, now); forall c :: c in r.all ==> r.all[c].uuid != u
  {
    CleanUpKeeps(s, now);
  }

  lemma CreateKeeps<C>(s: Store<C>, op: Op<C>)
    requires Valid(s) && Fair(s, op) && op.Create?
    ensures Valid(Do(s, op).0)
  {
    CleanUpKeeps(s, op.now);
    StillNew(s, op.now, op.gen);
    var t := CleanFrom(s, 0, op.now);
    if op.uuid.Some? {
      SearchIff(t, op.uuid.value);
    }
    if !(op.uuid.Some? && SearchFrom(t, op.uuid.value, 0).Some?) {
      NewKeeps(t, op.uuid, op.gen, op.timeout, op.now, op.made);
    }
  }

  lemma FoundOrNewKeeps<C>(t: Store<C>, op: Op<C>, timeout: int)
    requires Valid(t) && op.GetSession? && op.made !in t.all && timeout >= 0 && (op.uuid.Some? ==> op.uuid.value != "")
    requires op.gen != "" && |op.gen| < UUID_SIZE && forall c :: c in t.all ==> t.all[c].uuid != op.gen
    ensures Valid(FoundOrNew(t, op, timeout).0)
  {
    if op.uuid.Some? {
      SearchIff(t, op.uuid.value);
    }
    var f := if op.uuid.Some? then SearchFrom(t, op.uuid.value, 0) else None;
    if f.Some? {
      var x := t.all[f.value];
      PutKeeps(t, f.value, x.(access := op.now, refcount := x.refcount + 1));
    } else {
      NewKeeps(t, op.uuid, op.gen, timeout, op.now, op.made);
    }
  }

  lemma GetKeeps<C>(s: Store<C>, op: Op<C>)
    requires Valid(s) && Fair(s, op) && op.GetSession?
    ensures Valid(Do(s, op).0)
  {
    CleanUpKeeps(s, op.now);
    StillNew(s, op.now, op.gen);
    FoundOrNewKeeps(CleanFrom(s, 0, op.now), op, s.timeout);
  }

  lemma StepKeeps<C>(s: Store<C>, op: Op<C>)
    requires Valid(s) && Fair(s, op)
    ensures Valid(Do(s, op).0)
  {
    match op
    case Create(_, _, _, _, _) => CreateKeeps(s, op);
    case GetSession(_, _, _, _) => GetKeeps(s, op);
    case _ => HandleKeeps(s, op);
  }

  /** The record that an operation on a handle leaves. */
  function Record<C>(x: Session, op: Op<C>): Session
    requires op.AddRef? || op.Unref? || op.CloseIt? || op.TokenNew?
  {
    match op
    case AddRef(_) => x.(refcount := x.refcount + 1)
    case Unref(_) => x.(refcount := x.refcount - 1)
    case CloseIt(_) => x.(uuid := "")
    case TokenNew(_, now, gen) =>
      x.(token := gen, expiration := if x.timeout != 0 then now + x.timeout else x.expiration)
  }

  lemma HandleIsPut<C>(s: Store<C>, op: Op<C>)
    requires Valid(s) && Callable(s, op) && (op.AddRef? || op.Unref? || op.CloseIt? || op.TokenNew?)
    ensures Do(s, op).0 == Put(s, op.client, Record(s.all[op.client], op))
  {
    if op.CloseIt? {
      CloseIsPut(s, op.client);
    }
  }

  lemma HandleKeeps<C>(s: Store<C>, op: Op<C>)
    requires Valid(s) && Callable(s, op) && (op.AddRef? || op.Unref? || op.CloseIt? || op.TokenNew?)
    ensures Valid(Do(s, op).0)
  {
    HandleIsPut(s, op);
    PutKeeps(s, op.client, Record(s.all[op.client], op));
  }
}

/** Guarantees of the session store over all sequences of operations (src/session.c). */
module SessionTheorems {
  import opened Options
  import opened Sessions
  import opened SessionSafety

  // ----- runs

  ghost predicate FairRun<C>(s: Store<C>, ops: seq<Op<C>>)
    decreases |ops|, 0
  {
    ops == [] || (FairRun(s, ops[..|ops| - 1]) && Fair(Exec(s, ops[..|ops| - 1]), ops[|ops| - 1]))
  }

  ghost function Exec<C>(s: Store<C>, ops: seq<Op<C>>): Store<C>
    requires FairRun(s, ops)
    decreases |ops|, 1
  {
    if ops == [] then s else Do(Exec(s, ops[..|ops| - 1]), ops[|ops| - 1]).0
  }

  lemma NewSlots<C>(s: Store<C>, op: Op<C>)
    requires Valid(s) && Fair(s, op)
    ensures |Do(s, op).0.slots| == |s.slots|
  {
    if op.Create? || op.GetSession? {
      CleanUpKeeps(s, op.now);
    }
  }

  lemma {:induction false} RunKeeps<C>(s: Store<C>, ops: seq<Op<C>>)
    requires Valid(s) && FairRun(s, ops)
    ensures Valid(Exec(s, ops)) && |Exec(s, ops).slots| == |s.slots|
  {
    if ops != [] {
      var before := ops[..|ops| - 1];
      RunKeeps(s, before);
      StepKeeps(Exec(s, before), ops[|ops| - 1]);
      NewSlots(Exec(s, before), ops[|ops| - 1]);
    }
  }

  /** In every reachable store: the count is that of the occupied slots, at most the
      maximum; no two unclosed sessions have the same uuid; and a session is out of the
      store exactly when it is closed and unreferenced. */
  lemma StoreSound<C>(max: nat, timeout: int, initok: string, ops: seq<Op<C>>)
    requires timeout >= 0 && FairRun(Start(max, timeout, initok), ops)
    ensures var s := Exec(Start<C>(max, timeout, initok), ops);
            && |s.slots| == max && 0 <= s.count <= max
            && s.count == |set i | 0 <= i < |s.slots| && s.slots[i].Some?|
            && (forall c, d :: c in s.all && d in s.all && c != d && s.all[c].uuid == s.all[d].uuid ==>
                s.all[c].uuid == "")
            && (forall c :: c in s.all ==> (Has(s, c) <==> !(s.all[c].uuid == "" && s.all[c].refcount == 0)))
            && (forall i, j :: 0 <= i < j < |s.slots| && s.slots[i].Some? ==> s.slots[i] != s.slots[j])
  {
    var start := Start<C>(max, timeout, initok);
    StartValid<C>(max, timeout, initok);
    RunKeeps(start, ops);
    OccupiedIsCard(Exec(start, ops).slots, |Exec(start, ops).slots|);
  }

  /** Counting the occupied slots by a loop or by a set. */
  lemma {:induction false} OccupiedIsCard<C>(slots: seq<Option<C>>, n: nat)
    requires n <= |slots|
    ensures Occupied(slots[|slots| - n..]) == |set i | |slots| - n <= i < |slots| && slots[i].Some?|
  {
    var k := |slots| - n;
    var now := set i | k <= i < |slots| && slots[i].Some?;
    if n == 0 {
      assert now == {};
    } else {
      OccupiedIsCard(slots, n - 1);
      var less := set i | k + 1 <= i < |slots| && slots[i].Some?;
      assert slots[k..][1..] == slots[k + 1..];
      assert now == less + (if slots[k].Some? then {k} else {});
    }
  }

  // ----- what a call gives

  /** An unclosed session of that uuid that has not expired. */
  ghost predicate Active<C>(s: Store<C>, uuid: string, now: int, c: C) {
    c in s.all && s.all[c].uuid == uuid && uuid != "" && !TooOld(s.all[c], now)
  }

  /** A slot is free, or becomes free when outdated sessions are closed. */
  ghost predicate Room<C>(s: Store<C>, now: int) {
    exists k :: 0 <= k < |s.slots| &&
      (s.slots[k].Some? && s.slots[k].value in s.all ==>
          TooOld(s.all[s.slots[k].value], now) && s.all[s.slots[k].value].refcount == 0)
  }

  lemma RoomIff<C>(s: Store<C>, now: int)
    requires Valid(s)
    ensures Room(s, now) <==> None in CleanFrom(s, 0, now).slots
  {
    CleanUpKeeps(s, now);
    var r := CleanFrom(s, 0, now);
    if Room(s, now) {
      var k :| 0 <= k < |s.slots| &&
        (s.slots[k].Some? && s.slots[k].value in s.all ==>
            TooOld(s.all[s.slots[k].value], now) && s.all[s.slots[k].value].refcount == 0);
      assert r.slots[k] == None;
    }
    if None in r.slots {
      var k :| 0 <= k < |r.slots| && r.slots[k] == None;
    }
  }

  /** In the cleaned store a search finds exactly the active session. */
  lemma CleanSearch<C>(s: Store<C>, uuid: string, now: int)
    requires Valid(s) && uuid != ""
    ensures var r := SearchFrom(CleanFrom(s, 0, now), uuid, 0);
            (r.Some? ==> Active(s, uuid, now, r.value)) && (r.None? ==> forall c :: !Active(s, uuid, now, c))
  {
    CleanUpKeeps(s, now);
    var t := CleanFrom(s, 0, now);
    SearchIff(t, uuid);
    forall c | Active(s, uuid, now, c)
      ensures SearchFrom(t, uuid, 0).Some?
    {
      assert t.all[c] == s.all[c];
    }
  }

  /** What ctxClientGetSession gives: the active session of that uuid when there is
      one; else a new one, unless the uuid is too long or there is no room. */
  lemma GetOutcome<C>(s: Store<C>, op: Op<C>)
    requires Valid(s) && Fair(s, op) && op.GetSession?
    ensures var out := Do(s, op).1;
            && (forall c :: out == Given(c, false) <==> op.uuid.Some? && Active(s, op.uuid.value, op.now, c))
            && (out == Failed(EINVAL) <==> op.uuid.Some? && |op.uuid.value| > 36)
            && (out == Failed(ENOMEM) <==> !out.Given? && out != Failed(EINVAL))
            && (out == Given(op.made, true) <==>
                  && (op.uuid.Some? ==> |op.uuid.value| <= 36 && forall c :: !Active(s, op.uuid.value, op.now, c))
                  && Room(s, op.now))
  {
    CleanUpKeeps(s, op.now);
    RoomIff(s, op.now);
    if op.uuid.Some? {
      CleanSearch(s, op.uuid.value, op.now);
      SearchIff(CleanFrom(s, 0, op.now), op.uuid.value);
      OneActive(s, op.uuid.value, op.now);
    }
  }

  lemma OneActive<C>(s: Store<C>, uuid: string, now: int)
    requires Valid(s)
    ensures forall c, d :: Active(s, uuid, now, c) && Active(s, uuid, now, d) ==> c == d
    ensures forall c :: Active(s, uuid, now, c) ==> |uuid| < UUID_SIZE
  {
  }

  /** And ctxClientCreate, which refuses a uuid in use. */
  lemma CreateOutcome<C>(s: Store<C>, op: Op<C>)
    requires Valid(s) && Fair(s, op) && op.Create?
    ensures var out := Do(s, op).1;
            && (out == Failed(EEXIST) <==> op.uuid.Some? && exists c :: Active(s, op.uuid.value, op.now, c))
            && (out == Failed(EINVAL) <==> op.uuid.Some? && |op.uuid.value| > 36)
            && (out == Given(op.made, true) <==>
                  && (op.uuid.Some? ==> |op.uuid.value| <= 36 && forall c :: !Active(s, op.uuid.value, op.now, c))
                  && Room(s, op.now))
  {
    CleanUpKeeps(s, op.now);
    RoomIff(s, op.now);
    if op.uuid.Some? {
      CleanSearch(s, op.uuid.value, op.now);
      OneActive(s, op.uuid.value, op.now);
    }
  }

  lemma NewGives<C>(s: Store<C>, uuid: Option<string>, gen: string, timeout: int, now: int, c: C)
    requires timeout >= 0 && now <= FOREVER
    ensures var (t, out) := New(s, uuid, gen, timeout, now, c);
            out.Given? ==>
              && out.client == c && Has(t, c) && c in t.all && t.all[c].refcount == 1 && !TooOld(t.all[c], now)
              && t.all[c].uuid == (if uuid.Some? then uuid.value else gen)
  {
    var i := Index(s.slots, None);
    if i < |s.slots| {
      assert s.slots[i := Some(c)][i] == Some(c);
    }
  }

  /** A session that a call gives is in the store, neither closed nor expired, has the
      uuid asked for and is referenced. */
  lemma GivenIsActive<C>(s: Store<C>, op: Op<C>)
    requires Valid(s) && Fair(s, op) && (op.Create? || op.GetSession?) && op.now <= FOREVER && Do(s, op).1.Given?
    ensures var (t, out) := Do(s, op);
            && Has(t, out.client) && out.client in t.all && t.all[out.client].refcount > 0
            && Active(t, t.all[out.client].uuid, op.now, out.client)
            && (op.uuid.Some? ==> t.all[out.client].uuid == op.uuid.value)
  {
    CleanUpKeeps(s, op.now);
    var t := CleanFrom(s, 0, op.now);
    NewGives(t, op.uuid, op.gen, if op.Create? then op.timeout else s.timeout, op.now, op.made);
    if op.uuid.Some? {
      SearchIff(t, op.uuid.value);
      CleanSearch(s, op.uuid.value, op.now);
    }
  }

  // ----- when a session closes

  predicate Cleans<C>(op: Op<C>, x: Session) {
    (op.Create? || op.GetSession?) && TooOld(x, op.now)
  }

  /** References to `c` that a call hands out, less those it takes back. */
  function Change<C(==)>(op: Op<C>, out: Outcome<C>, c: C): int {
    if out.Given? && out.client == c then 1
    else if op == AddRef(c) then 1
    else if op == Unref(c) then -1
    else 0
  }

  /** A new session leaves the records of the others alone. */
  lemma NewOthers<C>(s: Store<C>, uuid: Option<string>, gen: string, timeout: int, now: int, c: C, d: C)
    requires d in s.all && c != d
    ensures var (t, out) := New(s, uuid, gen, timeout, now, c);
            d in t.all && t.all[d] == s.all[d] && out != Given(d, true) && out != Given(d, false)
  {
  }

  /** What a call that looks for a session does to the known ones. */
  lemma Looked<C>(s: Store<C>, op: Op<C>, c: C)
    requires Valid(s) && Fair(s, op) && c in s.all && (op.Create? || op.GetSession?)
    ensures var (t, out) := Do(s, op);
            && c in t.all && t.all[c].timeout == s.all[c].timeout
            && t.all[c].uuid == (if TooOld(s.all[c], op.now) then "" else s.all[c].uuid)
            && t.all[c].refcount == s.all[c].refcount + Change(op, out, c)
  {
    CleanUpKeeps(s, op.now);
    var t := CleanFrom(s, 0, op.now);
    assert t.all[c] == Closed(s.all[c], TooOld(s.all[c], op.now));
    AfterCleaning(t, op, c, s.timeout);
  }

  /** The part of such a call behind the cleaning. */
  lemma AfterCleaning<C>(t: Store<C>, op: Op<C>, c: C, timeout: int)
    requires c in t.all && (op.Create? || op.GetSession?) && op.made != c
    ensures op.Create? ==>
              var (u, out) := NewOrRefused(t, op);
              c in u.all && u.all[c] == t.all[c] && Change(op, out, c) == 0
    ensures op.GetSession? ==>
              var (u, out) := FoundOrNew(t, op, timeout);
              && c in u.all && u.all[c].timeout == t.all[c].timeout && u.all[c].uuid == t.all[c].uuid
              && u.all[c].refcount == t.all[c].refcount + Change(op, out, c)
  {
    NewOthers(t, op.uuid, op.gen, if op.Create? then op.timeout else timeout, op.now, op.made, c);
  }

  /** A session closes exactly when it is closed by name, or found outdated by a call
      that looks for one; its uuid never changes otherwise. */
  lemma ClosedExactly<C>(s: Store<C>, op: Op<C>, c: C)
    requires Valid(s) && Fair(s, op) && c in s.all
    ensures c in Do(s, op).0.all && Do(s, op).0.all[c].timeout == s.all[c].timeout
    ensures Do(s, op).0.all[c].uuid == if op == CloseIt(c) || Cleans(op, s.all[c]) then "" else s.all[c].uuid
  {
    if op.Create? || op.GetSession? {
      Looked(s, op, c);
    }
  }

  /** A session without timeout stays open over any run that does not close it. */
  lemma {:induction false} NeverExpires<C>(s: Store<C>, ops: seq<Op<C>>, c: C)
    requires Valid(s) && FairRun(s, ops) && c in s.all && s.all[c].timeout == 0
    requires CloseIt(c) !in ops
    requires forall i :: 0 <= i < |ops| && (ops[i].Create? || ops[i].GetSession?) ==> ops[i].now <= FOREVER
    ensures var r := Exec(s, ops); c in r.all && r.all[c].timeout == 0 && r.all[c].uuid == s.all[c].uuid
  {
    if ops != [] {
      var before := ops[..|ops| - 1];
      var op := ops[|ops| - 1];
      RunKeeps(s, before);
      NeverExpires(s, before, c);
      ClosedExactly(Exec(s, before), op, c);
    }
  }

  // ----- references

  ghost function Held<C>(s: Store<C>, ops: seq<Op<C>>, c: C): int
    requires FairRun(s, ops)
  {
    if ops == [] then 0
    else
      var before := ops[..|ops| - 1];
      Held(s, before, c) + Change(ops[|ops| - 1], Do(Exec(s, before), ops[|ops| - 1]).1, c)
  }

  function Refs<C(==)>(s: Store<C>, c: C): int {
    if c in s.all then s.all[c].refcount else 0
  }

  lemma StepRefs<C>(s: Store<C>, op: Op<C>, c: C)
    requires Valid(s) && Fair(s, op)
    ensures Refs(Do(s, op).0, c) == Refs(s, c) + Change(op, Do(s, op).1, c)
  {
    if op.Create? || op.GetSession? {
      if c in s.all {
        Looked(s, op, c);
      } else {
        NewRefs(s, op, c);
      }
    } else {
      HandleIsPut(s, op);
      PutKeeps(s, op.client, Record(s.all[op.client], op));
    }
  }

  /** A client that was not known before is the new one, if any. */
  lemma NewRefs<C>(s: Store<C>, op: Op<C>, c: C)
    requires Valid(s) && Fair(s, op) && c !in s.all && (op.Create? || op.GetSession?)
    ensures Refs(Do(s, op).0, c) == Change(op, Do(s, op).1, c)
  {
    CleanUpKeeps(s, op.now);
    if op.GetSession? && op.uuid.Some? {
      SearchIff(CleanFrom(s, 0, op.now), op.uuid.value);
    }
  }

  /** The reference count is what callers hold: so no session is freed while held. */
  lemma {:induction false} RefcountIsHeld<C>(max: nat, timeout: int, initok: string, ops: seq<Op<C>>, c: C)
    requires timeout >= 0 && FairRun(Start(max, timeout, initok), ops)
    ensures var s := Start<C>(max, timeout, initok);
            Refs(Exec(s, ops), c) == Held(s, ops, c) && (Held(s, ops, c) > 0 ==> Has(Exec(s, ops), c))
  {
    var s := Start<C>(max, timeout, initok);
    StartValid<C>(max, timeout, initok);
    RunKeeps(s, ops);
    if ops != [] {
      var before := ops[..|ops| - 1];
      RefcountIsHeld(max, timeout, initok, before, c);
      RunKeeps(s, before);
      StepRefs(Exec(s, before), ops[|ops| - 1], c);
    }
  }
}

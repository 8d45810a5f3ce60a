/** How long a session lives, and what its record holds meanwhile (src/session.c). */
module SessionLife {
  import opened Options
  import opened Sessions
  import opened SessionSafety
  import opened SessionTheorems

  /** A call that looks for a session, and so closes the outdated ones first. */
  predicate Looks<C>(op: Op<C>) {
    op.Create? || op.GetSession?
  }

  /** The timeout that a session made by the call gets. */
  function TimeoutOf<C>(s: Store<C>, op: Op<C>): int
    requires Looks(op)
  {
    if op.Create? then op.timeout else s.timeout
  }

  // ----- the record

  lemma NewRecord<C>(s: Store<C>, uuid: Option<string>, gen: string, timeout: int, now: int, c: C)
    requires timeout >= 0
    ensures var (t, out) := New(s, uuid, gen, timeout, now, c);
            out == Given(c, true) ==>
              && c in t.all
              && t.all[c] == Session(if uuid.Some? then uuid.value else gen, s.initok, timeout,
                                     if timeout > 0 then now + timeout else 0x7fff_ffff_ffff_ffff, now, 1)
  {
  }

  /** What a new session holds: the uuid asked for or a generated one, the initial token,
      and the time at which it is outdated, which is that of the call plus the timeout. */
  lemma MadeRecord<C>(s: Store<C>, op: Op<C>)
    requires Valid(s) && Fair(s, op) && Looks(op) && Do(s, op).1 == Given(op.made, true)
    ensures var t, timeout := Do(s, op).0, TimeoutOf(s, op);
            && op.made in t.all
            && t.all[op.made] == Session(if op.uuid.Some? then op.uuid.value else op.gen, s.initok, timeout,
                                         if timeout > 0 then op.now + timeout else 0x7fff_ffff_ffff_ffff, op.now, 1)
  {
    CleanUpKeeps(s, op.now);
    NewRecord(CleanFrom(s, 0, op.now), op.uuid, op.gen, TimeoutOf(s, op), op.now, op.made);
    if op.GetSession? && op.uuid.Some? {
      SearchIff(CleanFrom(s, 0, op.now), op.uuid.value);
    }
  }

  /** Only a call that names a session, finds it or finds it outdated changes its record. */
  ghost predicate Follows<C>(x: Session, op: Op<C>, out: Outcome<C>, c: C, y: Session) {
    var renews := op.TokenNew? && op.client == c;
    && y.uuid == (if op == CloseIt(c) || (Looks(op) && x.expiration < op.now) then "" else x.uuid)
    && y.token == (if renews then op.gen else x.token)
    && y.timeout == x.timeout
    && y.expiration == (if renews && x.timeout > 0 then op.now + x.timeout else x.expiration)
    && y.access == (if op.GetSession? && out == Given(c, false) then op.now else x.access)
    && y.refcount == x.refcount + Change(op, out, c)
  }

  lemma CreateRecord<C>(t: Store<C>, op: Op<C>, c: C)
    requires op.Create? && c in t.all && op.made != c
    ensures var (u, out) := NewOrRefused(t, op);
            c in u.all && u.all[c] == t.all[c] && Change(op, out, c) == 0
  {
    NewOthers(t, op.uuid, op.gen, op.timeout, op.now, op.made, c);
  }

  function Used(x: Session, now: int): Session {
    x.(access := now, refcount := x.refcount + 1)
  }

  lemma GetRecord<C>(t: Store<C>, op: Op<C>, c: C, timeout: int)
    requires op.GetSession? && c in t.all && op.made != c
    ensures var (u, out) := FoundOrNew(t, op, timeout);
            && c in u.all
            && u.all[c] == (if out == Given(c, false) then Used(t.all[c], op.now) else t.all[c])
            && Change(op, out, c) == if out == Given(c, false) then 1 else 0
  {
    NewOthers(t, op.uuid, op.gen, timeout, op.now, op.made, c);
  }

  lemma CleanedRecord<C>(s: Store<C>, now: int, c: C)
    requires Valid(s) && c in s.all
    ensures var t := CleanFrom(s, 0, now);
            c in t.all && t.all[c] == s.all[c].(uuid := if s.all[c].expiration < now then "" else s.all[c].uuid)
  {
    CleanUpKeeps(s, now);
  }

  lemma LookedRecord<C>(s: Store<C>, op: Op<C>, c: C)
    requires Valid(s) && Fair(s, op) && Looks(op) && c in s.all
    ensures c in Do(s, op).0.all && Follows(s.all[c], op, Do(s, op).1, c, Do(s, op).0.all[c])
  {
    var t := CleanFrom(s, 0, op.now);
    CleanedRecord(s, op.now, c);
    if op.Create? {
      CreateRecord(t, op, c);
    } else {
      GetRecord(t, op, c, s.timeout);
    }
  }

  lemma HandleRecord<C>(s: Store<C>, op: Op<C>, c: C)
    requires Valid(s) && Fair(s, op) && !Looks(op) && c in s.all
    ensures c in Do(s, op).0.all && Follows(s.all[c], op, Do(s, op).1, c, Do(s, op).0.all[c])
  {
    HandleIsPut(s, op);
    PutKeeps(s, op.client, Record(s.all[op.client], op));
  }

  lemma RecordAfter<C>(s: Store<C>, op: Op<C>, c: C)
    requires Valid(s) && Fair(s, op) && c in s.all
    ensures c in Do(s, op).0.all && Follows(s.all[c], op, Do(s, op).1, c, Do(s, op).0.all[c])
  {
    if Looks(op) {
      LookedRecord(s, op, c);
    } else {
      HandleRecord(s, op, c);
    }
  }

  // ----- the life of a session

  /** The time from which the timeout of `c` counts: that of its last new token, or `n`. */
  function Counted<C(==)>(n: int, ops: seq<Op<C>>, c: C): int {
    if ops == [] then n
    else
      var op := ops[|ops| - 1];
      if op.TokenNew? && op.client == c then op.now else Counted(n, ops[..|ops| - 1], c)
  }

  /** No call that looks for a session came later than the time out of `c`. */
  ghost predicate InTime<C>(n: int, timeout: int, ops: seq<Op<C>>, c: C) {
    forall i :: 0 <= i < |ops| && Looks(ops[i]) ==> ops[i].now <= Counted(n, ops[..i], c) + timeout
  }

  lemma InTimeBefore<C>(n: int, timeout: int, ops: seq<Op<C>>, c: C)
    requires InTime(n, timeout, ops, c) && ops != []
    ensures var before, op := ops[..|ops| - 1], ops[|ops| - 1];
            InTime(n, timeout, before, c) && (Looks(op) ==> op.now <= Counted(n, before, c) + timeout)
  {
    var before := ops[..|ops| - 1];
    forall i | 0 <= i < |before| && Looks(before[i])
      ensures before[i].now <= Counted(n, before[..i], c) + timeout
    {
      assert before[i] == ops[i] && before[..i] == ops[..i];
    }
  }

  /** Not closed by name and looked at in time, a session stays open; its timeout counts
      from its last new token. */
  lemma {:induction false} StaysOpen<C>(s: Store<C>, ops: seq<Op<C>>, c: C, n: int)
    requires Valid(s) && FairRun(s, ops) && c in s.all
    requires s.all[c].timeout > 0 && s.all[c].expiration == n + s.all[c].timeout
    requires CloseIt(c) !in ops && InTime(n, s.all[c].timeout, ops, c)
    ensures var r, t := Exec(s, ops), s.all[c].timeout;
            && Valid(r) && c in r.all && r.all[c].uuid == s.all[c].uuid && r.all[c].timeout == t
            && r.all[c].expiration == Counted(n, ops, c) + t
  {
    if ops != [] {
      var before, op := ops[..|ops| - 1], ops[|ops| - 1];
      InTimeBefore(n, s.all[c].timeout, ops, c);
      StaysOpen(s, before, c, n);
      RunKeeps(s, ops);
      RecordAfter(Exec(s, before), op, c);
    }
  }

  /** What a call that looks for sessions finds of an open one. */
  lemma LooksAt<C>(s: Store<C>, op: Op<C>, c: C)
    requires Valid(s) && Fair(s, op) && Looks(op) && c in s.all && s.all[c].uuid != ""
    ensures c in Do(s, op).0.all
    ensures op.now <= s.all[c].expiration ==>
              && Do(s, op).0.all[c].uuid == s.all[c].uuid
              && (op.GetSession? && op.uuid == Some(s.all[c].uuid) ==> Do(s, op).1 == Given(c, false))
              && (op.Create? && op.uuid == Some(s.all[c].uuid) ==> Do(s, op).1 == Failed(EEXIST))
    ensures s.all[c].expiration < op.now ==> Do(s, op).0.all[c].uuid == "" && Do(s, op).1 != Given(c, false)
  {
    RecordAfter(s, op, c);
    var u := s.all[c].uuid;
    assert op.now <= s.all[c].expiration ==> Active(s, u, op.now, c);
    if op.GetSession? {
      GetOutcome(s, op);
    } else {
      CreateOutcome(s, op);
    }
  }

  /** A session made at `n` with a timeout and not closed by name, over any run in which no
      call looked for sessions after its time was out: a call for its uuid gives it until
      that time, which is the last `TokenNew` or else `n`, plus the timeout; the first call
      that looks later closes it. */
  lemma LivesUntilTimeout<C>(s: Store<C>, make: Op<C>, ops: seq<Op<C>>, look: Op<C>)
    requires Valid(s) && Fair(s, make) && Looks(make) && Do(s, make).1 == Given(make.made, true)
    requires TimeoutOf(s, make) > 0
    requires FairRun(Do(s, make).0, ops) && CloseIt(make.made) !in ops
    requires InTime(make.now, TimeoutOf(s, make), ops, make.made)
    requires Fair(Exec(Do(s, make).0, ops), look) && Looks(look)
    ensures var c, end := make.made, Counted(make.now, ops, make.made) + TimeoutOf(s, make);
            var r := Exec(Do(s, make).0, ops);
            var uuid := if make.uuid.Some? then make.uuid.value else make.gen;
            && c in r.all && r.all[c].uuid == uuid && c in Do(r, look).0.all
            && (look.now <= end ==>
                  && Do(r, look).0.all[c].uuid == uuid
                  && (look.GetSession? && look.uuid == Some(uuid) ==> Do(r, look).1 == Given(c, false))
                  && (look.Create? && look.uuid == Some(uuid) ==> Do(r, look).1 == Failed(EEXIST)))
            && (look.now > end ==> Do(r, look).0.all[c].uuid == "" && Do(r, look).1 != Given(c, false))
  {
    var t := Do(s, make).0;
    MadeRecord(s, make);
    StepKeeps(s, make);
    StaysOpen(t, ops, make.made, make.now);
    LooksAt(Exec(t, ops), look, make.made);
  }

  lemma {:induction false} ForeverOpen<C>(s: Store<C>, ops: seq<Op<C>>, c: C)
    requires Valid(s) && FairRun(s, ops) && c in s.all
    requires s.all[c].timeout == 0 && s.all[c].expiration == 0x7fff_ffff_ffff_ffff
    requires CloseIt(c) !in ops
    requires forall i :: 0 <= i < |ops| && Looks(ops[i]) ==> ops[i].now <= 0x7fff_ffff_ffff_ffff
    ensures var r := Exec(s, ops);
            && Valid(r) && c in r.all && r.all[c].uuid == s.all[c].uuid && r.all[c].timeout == 0
            && r.all[c].expiration == 0x7fff_ffff_ffff_ffff
  {
    if ops != [] {
      var before, op := ops[..|ops| - 1], ops[|ops| - 1];
      ForeverOpen(s, before, c);
      RunKeeps(s, ops);
      RecordAfter(Exec(s, before), op, c);
    }
  }

  /** A session made without timeout is given for its uuid at any time of the clock. */
  lemma LivesForEver<C>(s: Store<C>, make: Op<C>, ops: seq<Op<C>>, look: Op<C>)
    requires Valid(s) && Fair(s, make) && Looks(make) && Do(s, make).1 == Given(make.made, true)
    requires TimeoutOf(s, make) == 0
    requires FairRun(Do(s, make).0, ops) && CloseIt(make.made) !in ops
    requires forall i :: 0 <= i < |ops| && Looks(ops[i]) ==> ops[i].now <= 0x7fff_ffff_ffff_ffff
    requires Fair(Exec(Do(s, make).0, ops), look) && look.GetSession? && look.now <= 0x7fff_ffff_ffff_ffff
    requires look.uuid == Some(if make.uuid.Some? then make.uuid.value else make.gen)
    ensures Do(Exec(Do(s, make).0, ops), look).1 == Given(make.made, false)
  {
    var t := Do(s, make).0;
    MadeRecord(s, make);
    StepKeeps(s, make);
    ForeverOpen(t, ops, make.made);
    LooksAt(Exec(t, ops), look, make.made);
  }
}

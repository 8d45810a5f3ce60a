/** Sessions and their store (src/session.c), as values.  `C` names the clients; the
    record of a client is kept after it is freed, the store tells which ones live. */
module Sessions {
  import opened Options

  const UUID_SIZE := 37
  /** The latest time of a 64-bit time_t. */
  const FOREVER := 0x7fff_ffff_ffff_ffff

  /** An empty `uuid` marks a closed session. */
  datatype Session = Session(uuid: string, token: string, timeout: int, expiration: int, access: int, refcount: int)

  datatype Store<C(==)> = Store(slots: seq<Option<C>>, count: int, all: map<C, Session>, timeout: int, initok: string)

  datatype Errno = EEXIST | EINVAL | ENOMEM

  datatype Outcome<C> = Nothing | Failed(errno: Errno) | Given(client: C, created: bool)

  // ----- the table

  /** The first slot that holds `x`, or the number of slots. */
  function Index<C(==)>(slots: seq<Option<C>>, x: Option<C>): (i: nat)
    ensures i <= |slots|
    ensures forall k :: 0 <= k < i ==> slots[k] != x
    ensures i < |slots| ==> slots[i] == x
  {
    if slots == [] then 0
    else if slots[0] == x then 0
    else
      var i := Index(slots[1..], x);
      assert forall k :: 1 <= k < i + 1 ==> slots[k] == slots[1..][k - 1];
      1 + i
  }

  predicate Has<C(==)>(s: Store<C>, c: C) {
    Some(c) in s.slots
  }

  /** ctxStoreSearch, from slot `i` on. */
  function SearchFrom<C(==)>(s: Store<C>, uuid: string, i: nat): (r: Option<C>)
    requires i <= |s.slots|
    decreases |s.slots| - i
  {
    if i == |s.slots| then None
    else if s.slots[i].Some? && s.slots[i].value in s.all && s.all[s.slots[i].value].uuid == uuid then s.slots[i]
    else SearchFrom(s, uuid, i + 1)
  }

  /** ctxStoreAdd */
  function Add<C(==)>(s: Store<C>, c: C): Option<Store<C>> {
    var i := Index(s.slots, None);
    if i < |s.slots| then Some(s.(slots := s.slots[i := Some(c)], count := s.count + 1)) else None
  }

  /** ctxStoreDel */
  function Del<C(==)>(s: Store<C>, c: C): (r: Store<C>)
    ensures |r.slots| == |s.slots|
  {
    var i := Index(s.slots, Some(c));
    if i < |s.slots| then s.(slots := s.slots[i := None], count := s.count - 1) else s
  }

  // ----- the operations

  /** ctxClientClose */
  function Close<C(==)>(s: Store<C>, c: C): (r: Store<C>)
    requires c in s.all
    ensures |r.slots| == |s.slots| && r.all.Keys == s.all.Keys
  {
    if s.all[c].uuid == "" then s
    else
      var t := s.(all := s.all[c := s.all[c].(uuid := "")]);
      if t.all[c].refcount == 0 then Del(t, c) else t
  }

  predicate TooOld(x: Session, now: int) {
    x.expiration < now
  }

  /** ctxStoreCleanUp, from slot `i` on. */
  function CleanFrom<C(==)>(s: Store<C>, i: nat, now: int): (r: Store<C>)
    requires i <= |s.slots|
    decreases |s.slots| - i
  {
    if i == |s.slots| then s
    else if s.slots[i].Some? && s.slots[i].value in s.all && TooOld(s.all[s.slots[i].value], now) then
      CleanFrom(Close(s, s.slots[i].value), i + 1, now)
    else CleanFrom(s, i + 1, now)
  }

  function Expiration(timeout: int, now: int): int {
    if timeout != 0 then now + timeout else FOREVER
  }

  /** new_context: `gen` is what the uuid generator gives, `c` the new client. */
  function New<C(==)>(s: Store<C>, uuid: Option<string>, gen: string, timeout: int, now: int, c: C)
      : (Store<C>, Outcome<C>) {
    if uuid.Some? && |uuid.value| >= UUID_SIZE then (s, Failed(EINVAL))
    else
      var x := Session(if uuid.Some? then uuid.value else gen, s.initok, timeout, Expiration(timeout, now), now, 1);
      var t := Add(s, c);
      if t.None? then (s, Failed(ENOMEM))
      else (t.value.(all := s.all[c := x]), Given(c, true))
  }

  /** What the daemon does with a store.  Times come from the clock. */
  datatype Op<C> =
    | Create(uuid: Option<string>, timeout: int, now: int, gen: string, made: C)
    | GetSession(uuid: Option<string>, now: int, gen: string, made: C)
    | AddRef(client: C)
    | Unref(client: C)
    | CloseIt(client: C)
    | TokenNew(client: C, now: int, gen: string)

  /** ctxClientCreate, on the cleaned store. */
  function NewOrRefused<C(==)>(t: Store<C>, op: Op<C>): (Store<C>, Outcome<C>)
    requires op.Create?
  {
    if op.uuid.Some? && SearchFrom(t, op.uuid.value, 0).Some? then (t, Failed(EEXIST))
    else New(t, op.uuid, op.gen, op.timeout, op.now, op.made)
  }

  /** ctxClientGetSession, on the cleaned store. */
  function FoundOrNew<C(==)>(t: Store<C>, op: Op<C>, timeout: int): (Store<C>, Outcome<C>)
    requires op.GetSession?
  {
    var f := if op.uuid.Some? then SearchFrom(t, op.uuid.value, 0) else None;
    if f.Some? && f.value in t.all then
      var x := t.all[f.value];
      (t.(all := t.all[f.value := x.(access := op.now, refcount := x.refcount + 1)]), Given(f.value, false))
    else New(t, op.uuid, op.gen, timeout, op.now, op.made)
  }

  function Do<C(==)>(s: Store<C>, op: Op<C>): (Store<C>, Outcome<C>)
    requires Callable(s, op)
  {
    match op
    case Create(uuid, timeout, now, gen, c) =>
      NewOrRefused(CleanFrom(s, 0, now), op)
    case GetSession(uuid, now, gen, c) =>
      FoundOrNew(CleanFrom(s, 0, now), op, s.timeout)
    case AddRef(c) =>
      (s.(all := s.all[c := s.all[c].(refcount := s.all[c].refcount + 1)]), Nothing)
    case Unref(c) =>
      var x := s.all[c].(refcount := s.all[c].refcount - 1);
      var t := s.(all := s.all[c := x]);
      (if x.refcount == 0 && x.uuid == "" then Del(t, c) else t, Nothing)
    case CloseIt(c) =>
      (Close(s, c), Nothing)
    case TokenNew(c, now, gen) =>
      var x := s.all[c];
      var e := if x.timeout != 0 then now + x.timeout else x.expiration;
      (s.(all := s.all[c := x.(token := gen, expiration := e)]), Nothing)
  }

  /** Handles name live clients, a new client is none of the known ones, and a
      reference is dropped only when there is one (the assertion of ctxClientUnref). */
  predicate Callable<C(==)>(s: Store<C>, op: Op<C>) {
    match op
    case Create(_, _, _, _, c) => c !in s.all
    case GetSession(_, _, _, c) => c !in s.all
    case AddRef(c) => c in s.all && Has(s, c)
    case Unref(c) => c in s.all && Has(s, c) && s.all[c].refcount > 0
    case CloseIt(c) => c in s.all && Has(s, c)
    case TokenNew(c, _, _) => c in s.all && Has(s, c)
  }
}

/** Who holds a locale root and its searches, told from the calls alone (src/locale-root.c). */
module LocaleHeld {
  import opened Options
  import opened LocaleRefs

  /** The search that a call gives to its caller. */
  ghost predicate Gives(s: Root, op: Op, i: Id) {
    match op
    case Hit(k) => k < |s.lru| && s.lru[k] == Some(i)
    case Miss => i == s.next
    case Addref(j) => i == j
    case _ => false
  }

  /** References to the search `i` that the calls gave, less those taken back. */
  ghost function Held(ops: seq<Op>, i: Id): int
    requires Possible(ops)
  {
    if ops == [] then 0
    else
      var prev, op := ops[..|ops| - 1], ops[|ops| - 1];
      Held(prev, i) + (if Gives(After(prev), op, i) then 1 else if op == Unref(i) then -1 else 0)
  }

  /** References to the root: the first one and those added, less those taken back. */
  function RootHeld(ops: seq<Op>): int {
    if ops == [] then 1
    else
      var op := ops[|ops| - 1];
      RootHeld(ops[..|ops| - 1]) + (if op == RootAddref then 1 else if op == RootUnref then -1 else 0)
  }

  function LastDefault(ops: seq<Op>): Option<Id> {
    if ops == [] then None
    else if ops[|ops| - 1].SetDefault? then ops[|ops| - 1].x
    else LastDefault(ops[..|ops| - 1])
  }

  /** The searches of the calls that looked for one, each once, the latest first. */
  ghost function Latest(ops: seq<Op>): seq<Id>
    requires Possible(ops)
  {
    if ops == [] then []
    else
      var prev, op := ops[..|ops| - 1], ops[|ops| - 1];
      var s := After(prev);
      match op
      case Hit(k) => [s.lru[k].value] + Less(Latest(prev), s.lru[k].value)
      case Miss => [s.next] + Latest(prev)
      case _ => Latest(prev)
  }

  function Less(ids: seq<Id>, i: Id): seq<Id> {
    if ids == [] then [] else if ids[0] == i then ids[1..] else [ids[0]] + Less(ids[1..], i)
  }

  lemma DropKeepsMine(s: Root, x: Option<Id>, t: Root)
    requires t == Drop(s, x)
    ensures t.mine == s.mine && t.refcount == s.refcount && t.dflt == s.dflt && t.lru == s.lru && t.next == s.next
  {
  }

  /** Letting go of the cache and of the root itself. */
  lemma RootUnrefMine(s: Root, t: Root)
    requires Enabled(s, RootUnref) && t == Do(s, RootUnref)
    ensures t.mine == s.mine && t.refcount == s.refcount - 1 && t.dflt == s.dflt && t.lru == s.lru && t.next == s.next
  {
    if s.refcount == 1 {
      var a := s.(refcount := 0);
      var b := Drop(a, s.lru[0]);
      var c := Drop(b, s.lru[1]);
      DropKeepsMine(a, s.lru[0], b);
      DropKeepsMine(b, s.lru[1], c);
      DropKeepsMine(c, s.lru[2], Drop(c, s.lru[2]));
    }
  }

  lemma MissMine(s: Root, t: Root)
    requires Enabled(s, Miss) && t == Do(s, Miss)
    ensures t.mine == s.mine + multiset{s.next} && t.refcount == s.refcount && t.dflt == s.dflt
    ensures t.lru == Front(s.lru, 2, s.next) && t.next == s.next + 1
  {
    var a := s.(next := s.next + 1, intcount := s.intcount + 1, refs := Give(s.refs, s.next));
    DropKeepsMine(a, s.lru[2], Drop(a, s.lru[2]));
  }

  lemma UnrefMine(s: Root, i: Id, t: Root)
    requires Enabled(s, Unref(i)) && t == Do(s, Unref(i))
    ensures t.mine == s.mine - multiset{i} && t.refcount == s.refcount && t.dflt == s.dflt
    ensures t.lru == s.lru && t.next == s.next
  {
    DropKeepsMine(s.(mine := s.mine - multiset{i}), Some(i), t);
  }

  lemma DefaultMine(s: Root, x: Option<Id>, t: Root)
    requires Enabled(s, SetDefault(x)) && t == Do(s, SetDefault(x))
    ensures t.mine == s.mine && t.refcount == s.refcount && t.dflt == x && t.lru == s.lru && t.next == s.next
  {
    DropKeepsMine(s.(dflt := x, refs := GiveTo(s.refs, x)), s.dflt, t);
  }

  lemma StepHeld(s: Root, op: Op, i: Id, t: Root)
    requires Enabled(s, op) && t == Do(s, op)
    ensures t.mine[i] as int == s.mine[i] as int + (if Gives(s, op, i) then 1 else if op == Unref(i) then -1 else 0)
    ensures t.refcount == s.refcount + (if op == RootAddref then 1 else if op == RootUnref then -1 else 0)
    ensures t.dflt == if op.SetDefault? then op.x else s.dflt
  {
    match op
    case RootUnref => RootUnrefMine(s, t);
    case Miss => MissMine(s, t);
    case Unref(j) => UnrefMine(s, j, t);
    case SetDefault(x) => DefaultMine(s, x, t);
    case _ =>
  }

  /** Over any run the references that users hold are those that the calls gave, less those
      taken back; those to the root too; and the default is the last one set. */
  lemma {:induction false} HeldByCalls(ops: seq<Op>, i: Id)
    requires Possible(ops)
    ensures var s := After(ops);
            s.mine[i] as int == Held(ops, i) && s.refcount == RootHeld(ops) && s.dflt == LastDefault(ops)
  {
    if ops != [] {
      HeldByCalls(ops[..|ops| - 1], i);
      StepHeld(After(ops[..|ops| - 1]), ops[|ops| - 1], i, After(ops));
    }
  }

  lemma NobodyHolds(mine: multiset<Id>)
    requires forall i :: mine[i] == 0
    ensures mine == multiset{}
  {
  }

  ghost predicate NoneHeld(ops: seq<Op>)
    requires Possible(ops)
  {
    forall i :: Held(ops, i) == 0
  }

  lemma NoneHeldIff(ops: seq<Op>)
    requires Possible(ops)
    ensures After(ops).mine == multiset{} <==> NoneHeld(ops)
  {
    var mine := After(ops).mine;
    if NoneHeld(ops) {
      forall i
        ensures mine[i] == 0
      {
        HeldByCalls(ops, i);
      }
      NobodyHolds(mine);
    }
    if mine == multiset{} {
      forall i
        ensures Held(ops, i) == 0
      {
        HeldByCalls(ops, i);
      }
    }
  }

  /** So the root is freed exactly when all its references and all those to its searches
      were given back and no default search is set. */
  lemma FreedByCalls(ops: seq<Op>)
    requires Possible(ops)
    ensures After(ops).freed <==> RootHeld(ops) == 0 && NoneHeld(ops) && LastDefault(ops) == None
  {
    FreedExactly(ops);
    HeldByCalls(ops, 0);
    NoneHeldIff(ops);
  }

  // ----- the cache

  /** The first three of `ids`, and nothing behind them. */
  ghost predicate Caches(lru: seq<Option<Id>>, ids: seq<Id>) {
    && |lru| == 3
    && forall k :: 0 <= k < 3 ==> lru[k] == if k < |ids| then Some(ids[k]) else None
  }

  lemma CutTail(ids: seq<Id>, k: nat)
    requires 0 < k < |ids|
    ensures [ids[0]] + (ids[1..][..k - 1] + ids[1..][k..]) == ids[..k] + ids[k + 1..]
  {
  }

  lemma {:induction false} LessAt(ids: seq<Id>, k: nat)
    requires k < |ids| && forall j :: 0 <= j < k ==> ids[j] != ids[k]
    ensures Less(ids, ids[k]) == ids[..k] + ids[k + 1..]
  {
    if k == 0 {
      assert ids[..0] + ids[1..] == ids[1..];
    } else {
      LessAt(ids[1..], k - 1);
      CutTail(ids, k);
    }
  }

  ghost predicate Below(ids: seq<Id>, next: Id) {
    && (forall k :: 0 <= k < |ids| ==> ids[k] < next)
    && (forall j, k :: 0 <= j < k < |ids| ==> ids[j] != ids[k])
  }

  lemma FrontAt(lru: seq<Option<Id>>, k: nat, i: Id, j: nat)
    requires k < |lru| && j < |lru|
    ensures |Front(lru, k, i)| == |lru|
    ensures Front(lru, k, i)[j] == if j == 0 then Some(i) else lru[if j <= k then j - 1 else j]
  {
  }

  lemma MovedAt(ids: seq<Id>, k: nat, r: seq<Id>)
    requires k < |ids| && r == [ids[k]] + (ids[..k] + ids[k + 1..])
    ensures |r| == |ids|
    ensures forall j :: 0 <= j < |r| ==> r[j] == if j == 0 then ids[k] else ids[if j <= k then j - 1 else j]
  {
  }

  lemma MovedBelow(ids: seq<Id>, k: nat, r: seq<Id>, next: Id)
    requires Below(ids, next) && k < |ids| && |r| == |ids|
    requires forall j :: 0 <= j < |r| ==> r[j] == if j == 0 then ids[k] else ids[if j <= k then j - 1 else j]
    ensures Below(r, next)
  {
  }

  lemma HitCaches(lru: seq<Option<Id>>, ids: seq<Id>, k: nat, next: Id)
    requires Caches(lru, ids) && Below(ids, next) && k < 3 && lru[k].Some?
    ensures var r := [ids[k]] + Less(ids, ids[k]);
            Caches(Front(lru, k, lru[k].value), r) && Below(r, next)
  {
    LessAt(ids, k);
    var r := [ids[k]] + (ids[..k] + ids[k + 1..]);
    MovedAt(ids, k, r);
    MovedBelow(ids, k, r, next);
    FrontAt(lru, k, lru[k].value, 0);
    FrontAt(lru, k, lru[k].value, 1);
    FrontAt(lru, k, lru[k].value, 2);
  }

  lemma MissCaches(lru: seq<Option<Id>>, ids: seq<Id>, next: Id)
    requires Caches(lru, ids) && Below(ids, next)
    ensures Caches(Front(lru, 2, next), [next] + ids) && Below([next] + ids, next + 1)
  {
    var u := Front(lru, 2, next);
    assert u == [Some(next), lru[0], lru[1]];
  }

  /** Over any run the cache holds the three searches last looked for, the latest first. */
  lemma {:induction false} CacheByCalls(ops: seq<Op>)
    requires Possible(ops)
    ensures Caches(After(ops).lru, Latest(ops)) && Below(Latest(ops), After(ops).next)
  {
    if ops != [] {
      var prev, op := ops[..|ops| - 1], ops[|ops| - 1];
      CacheByCalls(prev);
      var s := After(prev);
      match op
      case Hit(k) => HitCaches(s.lru, Latest(prev), k, s.next);
      case Miss =>
        MissCaches(s.lru, Latest(prev), s.next);
        MissMine(s, After(ops));
      case _ => SameCache(s, op);
    }
  }

  lemma SameCache(s: Root, op: Op)
    requires Enabled(s, op) && !op.Hit? && !op.Miss?
    ensures Do(s, op).lru == s.lru && Do(s, op).next == s.next
  {
    match op
    case RootUnref => RootUnrefMine(s, Do(s, op));
    case Unref(j) => UnrefMine(s, j, Do(s, op));
    case SetDefault(x) => DefaultMine(s, x, Do(s, op));
    case _ =>
  }
}

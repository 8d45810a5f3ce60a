/** The queue of pending jobs of src/afb-thread.c, as values.

    A job carries the group it was submitted with.  A job is blocked when, at
    its insertion, a job of the same group was already queued.  A NULL group
    never blocks anything: the code then compares with the address of the new
    job itself, which no queued job can have as its group. */
module JobQueue {

  datatype Group = NoGroup | Group(key: nat)

  datatype Job = Job(id: nat, group: Group, blocked: bool)

  /** Index of the first job of group `g`, or `|q|`. */
  function First(q: seq<Job>, g: Group): (k: nat)
    ensures k <= |q|
    ensures k < |q| ==> q[k].group == g
    ensures forall i :: 0 <= i < k ==> q[i].group != g
  {
    if q == [] then 0
    else if q[0].group == g then 0
    else 1 + First(q[1..], g)
  }

  /** Index of the first job that is not blocked, or `|q|`. */
  function FirstFree(q: seq<Job>): (k: nat)
    ensures k <= |q|
    ensures k < |q| ==> !q[k].blocked
    ensures forall i :: 0 <= i < k ==> q[i].blocked
  {
    if q == [] then 0
    else if !q[0].blocked then 0
    else 1 + FirstFree(q[1..])
  }

  function Enter(q: seq<Job>, id: nat, g: Group): Job {
    Job(id, g, g != NoGroup && First(q, g) < |q|)
  }

  function Without(q: seq<Job>, k: nat): seq<Job>
    requires k < |q|
  {
    q[..k] + q[k + 1..]
  }

  /** The first queued job of the group loses its block, all others keep theirs. */
  function Unblock(q: seq<Job>, g: Group): (r: seq<Job>)
    ensures |r| == |q|
    ensures forall i :: 0 <= i < |q| ==> r[i].id == q[i].id && r[i].group == q[i].group
    ensures forall i :: 0 <= i < |q| ==> r[i].blocked == (q[i].blocked && i != First(q, g))
  {
    var k := First(q, g);
    if k < |q| then q[k := q[k].(blocked := false)] else q
  }

  /** Identifiers of the jobs of group `g`, in order. */
  function Of(q: seq<Job>, g: Group): seq<nat> {
    if q == [] then []
    else Of(q[..|q| - 1], g) + (if q[|q| - 1].group == g then [q[|q| - 1].id] else [])
  }

  function Ids(q: seq<Job>): seq<nat> {
    seq(|q|, i requires 0 <= i < |q| => q[i].id)
  }

  function Bag(q: seq<Job>): multiset<nat> {
    multiset(Ids(q))
  }

  lemma {:induction false} OfConcat(a: seq<Job>, b: seq<Job>, g: Group)
    ensures Of(a + b, g) == Of(a, g) + Of(b, g)
  {
    if b == [] {
      assert a + b == a;
    } else {
      var c, last := b[..|b| - 1], b[|b| - 1];
      OfConcat(a, c, g);
      assert (a + b)[..|a + b| - 1] == a + c;
      assert (a + b)[|a + b| - 1] == last;
      var tail := if last.group == g then [last.id] else [];
      assert Of(a + b, g) == Of(a, g) + Of(c, g) + tail;
      assert Of(a, g) + Of(c, g) + tail == Of(a, g) + (Of(c, g) + tail);
    }
  }

  lemma BagConcat(a: seq<Job>, b: seq<Job>)
    ensures Bag(a + b) == Bag(a) + Bag(b)
  {
    assert Ids(a + b) == Ids(a) + Ids(b);
  }

  lemma OfOne(j: Job, g: Group)
    ensures Of([j], g) == if j.group == g then [j.id] else []
    ensures Bag([j]) == multiset{j.id}
  {
    assert [j][..0] == [];
    assert Ids([j]) == [j.id];
  }

  lemma {:induction false} OfNone(q: seq<Job>, g: Group)
    requires forall i :: 0 <= i < |q| ==> q[i].group != g
    ensures Of(q, g) == []
  {
    if q != [] {
      OfNone(q[..|q| - 1], g);
    }
  }

  lemma {:induction false} OfSame(q: seq<Job>, r: seq<Job>, g: Group)
    requires |q| == |r|
    requires forall i :: 0 <= i < |q| ==> r[i].id == q[i].id && r[i].group == q[i].group
    ensures Of(q, g) == Of(r, g) && Bag(q) == Bag(r)
  {
    assert Ids(q) == Ids(r);
    if q != [] {
      OfSame(q[..|q| - 1], r[..|r| - 1], g);
    }
  }

  lemma OfSplit(q: seq<Job>, k: nat, g: Group)
    requires k < |q|
    ensures Of(q, g) == Of(q[..k], g) + Of([q[k]], g) + Of(q[k + 1..], g)
  {
    assert q == q[..k + 1] + q[k + 1..];
    assert q[..k + 1] == q[..k] + [q[k]];
    OfConcat(q[..k + 1], q[k + 1..], g);
    OfConcat(q[..k], [q[k]], g);
  }

  /** Taking out a job that is the first of its group takes the head of that
      group's order and leaves the order of all other groups. */
  lemma OfWithout(q: seq<Job>, k: nat, g: Group)
    requires k < |q| && First(q, q[k].group) == k
    ensures Of(q, g) == (if q[k].group == g then [q[k].id] else []) + Of(Without(q, k), g)
  {
    OfSplit(q, k, g);
    OfConcat(q[..k], q[k + 1..], g);
    OfOne(q[k], g);
    var before, behind := Of(q[..k], g), Of(q[k + 1..], g);
    assert Of(Without(q, k), g) == before + behind;
    if q[k].group == g {
      OfNone(q[..k], g);
      assert before == [] && before + [q[k].id] == [q[k].id] && before + behind == behind;
    } else {
      assert before + [] == before && [] + (before + behind) == before + behind;
    }
  }

  lemma BagWithout(q: seq<Job>, k: nat)
    requires k < |q|
    ensures Bag(q) == Bag(Without(q, k)) + multiset{q[k].id}
  {
    assert q == q[..k] + ([q[k]] + q[k + 1..]);
    BagConcat(q[..k], [q[k]] + q[k + 1..]);
    BagConcat([q[k]], q[k + 1..]);
    BagConcat(q[..k], q[k + 1..]);
    OfOne(q[k], NoGroup);
  }

  /** Only the first queued job of a group may be unblocked, and only jobs of a
      group are ever blocked. */
  ghost predicate Ordered(q: seq<Job>) {
    && (forall i :: 0 <= i < |q| && q[i].blocked ==> q[i].group != NoGroup)
    && (forall i, j :: 0 <= i < j < |q| && q[i].group == q[j].group && q[i].group != NoGroup ==> q[j].blocked)
  }

  lemma FreeIsFirst(q: seq<Job>)
    requires Ordered(q) && FirstFree(q) < |q|
    ensures First(q, q[FirstFree(q)].group) == FirstFree(q)
  {
    var k := FirstFree(q);
    assert forall i :: 0 <= i < k ==> q[i].blocked;
    var f := First(q, q[k].group);
    assert f <= k;
    if f < k {
      assert false;
    }
  }

  /** First is the only index with its two properties. */
  lemma FirstUnique(q: seq<Job>, g: Group, k: nat)
    requires k <= |q| && (k < |q| ==> q[k].group == g)
    requires forall i :: 0 <= i < k ==> q[i].group != g
    ensures First(q, g) == k
  {
  }

  lemma FirstWithout(q: seq<Job>, k: nat, i: nat)
    requires k < |q| && i < |q| - 1
    requires Without(q, k)[i].group != q[k].group
    requires First(Without(q, k), Without(q, k)[i].group) == i
    ensures First(q, Without(q, k)[i].group) == if i < k then i else i + 1
  {
    var r := Without(q, k);
    var o := if i < k then i else i + 1;
    forall j | 0 <= j < o
      ensures q[j].group != r[i].group
    {
      assert j == k || q[j] == r[if j < k then j else j - 1];
    }
    assert q[o] == r[i];
    FirstUnique(q, r[i].group, o);
  }

  /** A job of a group already queued never becomes the first of its group by being appended. */
  lemma FirstAppend(q: seq<Job>, j: Job, i: nat)
    requires i <= |q| && First(q + [j], (q + [j])[i].group) == i
    ensures First(q, (q + [j])[i].group) == i
  {
    var r := q + [j];
    assert forall k :: 0 <= k < |q| ==> q[k] == r[k];
    FirstUnique(q, r[i].group, i);
  }

  lemma OrderedWithout(q: seq<Job>, k: nat)
    requires k < |q| && Ordered(q)
    ensures Ordered(Without(q, k))
  {
    var r := Without(q, k);
    assert forall i :: 0 <= i < k ==> r[i] == q[i];
    assert forall i :: k <= i < |r| ==> r[i] == q[i + 1];
    forall i, j | 0 <= i < j < |r| && r[i].group == r[j].group && r[i].group != NoGroup
      ensures r[j].blocked
    {
      var a, b := if i < k then i else i + 1, if j < k then j else j + 1;
      assert q[a] == r[i] && q[b] == r[j];
    }
  }
}

/** The session store in memory: src/session.c with its loops and updates in place. */
module SessionTable {
  import opened Options
  import opened Sessions

  class Client {
    var uuid: string
    var token: string
    var timeout: int
    var expiration: int
    var access: int
    var refcount: int

    ghost function Record(): Session
      reads this
    {
      Session(uuid, token, timeout, expiration, access, refcount)
    }

    /** The settings of a new session. */
    method Fill(uuid: string, token: string, timeout: int, now: int)
      modifies this
      ensures Record() == Session(uuid, token, timeout, Expiration(timeout, now), old(access), old(refcount))
    {
      this.uuid := uuid;
      this.token := token;
      this.timeout := timeout;
      if timeout != 0 {
        expiration := now + timeout;
      } else {
        expiration := FOREVER;
      }
    }
  }

  ghost function Opt(c: Client?): Option<Client> {
    if c == null then None
    else
      var d: Client := c;
      Some(d)
  }

  ghost function Optional(s: seq<Client?>): (r: seq<Option<Client>>)
    ensures |r| == |s|
    ensures forall i :: 0 <= i < |s| ==> r[i] == Opt(s[i])
  {
    seq(|s|, i requires 0 <= i < |s| => Opt(s[i]))
  }

  class Table {
    const store: array<Client?>
    var count: int
    const timeout: int
    const initok: string
    /** Every client ever stored. */
    ghost var all: set<Client>

    ghost predicate Valid()
      reads this, store
    {
      forall i :: 0 <= i < store.Length && store[i] != null ==> store[i] in all
    }

    ghost function View(): Store<Client>
      reads this, store, all
    {
      Store(Optional(store[..]), count, map c | c in all :: c.Record(), timeout, initok)
    }

    /** ctxStoreInit, with an initial token that fits. */
    constructor (max: nat, timeout: int, initok: string)
      ensures Valid() && fresh(store) && store.Length == max && all == {}
      ensures View() == Store(seq(max, _ => None), 0, map[], timeout, initok)
    {
      store := new Client?[max](_ => null);
      count := 0;
      this.timeout := timeout;
      this.initok := initok;
      all := {};
      new;
      assert Optional(store[..]) == seq(max, _ => None);
    }

    method StoreSearch(uuid: string) returns (r: Client?)
      requires Valid()
      ensures Opt(r) == SearchFrom(View(), uuid, 0)
      ensures r != null ==> r in all
    {
      var i := 0;
      while i < store.Length
        invariant 0 <= i <= store.Length && SearchFrom(View(), uuid, i) == SearchFrom(View(), uuid, 0)
      {
        r := store[i];
        if r != null && r.uuid == uuid {
          assert View().slots[i] == Opt(r) && View().all[r].uuid == uuid;
          return;
        }
        i := i + 1;
      }
      r := null;
    }

    /** The first slot that holds `x`. */
    method FirstSlot(x: Client?) returns (i: nat)
      ensures i == Index(Optional(store[..]), Opt(x)) <= store.Length
    {
      i := 0;
      while i < store.Length && store[i] != x
        invariant 0 <= i <= store.Length
        invariant forall k :: 0 <= k < i ==> store[k] != x
      {
        i := i + 1;
      }
    }

    method StoreDel(c: Client)
      requires Valid()
      modifies this`count, store
      ensures Valid() && View() == Del(old(View()), c)
    {
      ghost var was := Optional(store[..]);
      var i := FirstSlot(c);
      if i < store.Length {
        store[i] := null;
        count := count - 1;
        assert Optional(store[..]) == was[i := None];
      }
    }

    method StoreAdd(c: Client) returns (ok: bool)
      requires Valid() && c !in all
      modifies this`count, this`all, store
      ensures Valid() && all == old(all) + (if ok then {c} else {})
      ensures ok == Add(old(View()), c).Some?
      ensures count == old(count) + (if ok then 1 else 0)
      ensures ok ==> Optional(store[..]) == Add(old(View()), c).value.slots
      ensures !ok ==> View() == old(View())
    {
      ghost var was := Optional(store[..]);
      var i := FirstSlot(null);
      ok := i < store.Length;
      if ok {
        store[i] := c;
        count := count + 1;
        all := all + {c};
        assert Optional(store[..]) == was[i := Some(c)];
      }
    }

    method Close(c: Client)
      requires Valid() && c in all
      modifies this`count, store, c
      ensures Valid() && View() == Sessions.Close(old(View()), c)
    {
      if c.uuid != "" {
        ghost var was := View();
        c.uuid := "";
        assert View() == was.(all := was.all[c := was.all[c].(uuid := "")]);
        if c.refcount == 0 {
          StoreDel(c);
        }
      }
    }

    method CleanUp(now: int)
      requires Valid()
      modifies this`count, store, all
      ensures Valid() && View() == CleanFrom(old(View()), 0, now)
    {
      var i := 0;
      while i < store.Length
        invariant 0 <= i <= store.Length && Valid()
        invariant CleanFrom(View(), i, now) == CleanFrom(old(View()), 0, now)
      {
        var c := store[i];
        if c != null && c.expiration < now {
          assert View().slots[i] == Opt(c);
          Close(c);
        }
        i := i + 1;
      }
    }

    /** new_context on the memory `c` from the allocator; `gen` comes from the uuid
        generator. */
    method NewContext(uuid: Option<string>, timeout: int, now: int, gen: string, c: Client)
        returns (out: Outcome<Client>)
      requires Valid() && c !in all
      modifies this`count, this`all, store, c
      ensures Valid() && (View(), out) == New(old(View()), uuid, gen, timeout, now, c)
    {
      if uuid.Some? && |uuid.value| >= UUID_SIZE {
        return Failed(EINVAL);
      }
      c.Fill(if uuid.Some? then uuid.value else gen, initok, timeout, now);
      assert View() == old(View());
      var ok := StoreAdd(c);
      if !ok {
        return Failed(ENOMEM);
      }
      c.access := now;
      c.refcount := 1;
      out := Given(c, true);
      assert View().all == old(View()).all[c := c.Record()];
    }

    /** ctxClientCreate */
    method Create(uuid: Option<string>, timeout: int, now: int, gen: string, c: Client) returns (out: Outcome<Client>)
      requires Valid() && c !in all
      modifies this`count, this`all, store, all, c
      ensures Valid() && (View(), out) == Do(old(View()), Op.Create(uuid, timeout, now, gen, c))
    {
      CleanUp(now);
      if uuid.Some? {
        var found := StoreSearch(uuid.value);
        if found != null {
          return Failed(EEXIST);
        }
      }
      out := NewContext(uuid, timeout, now, gen, c);
    }

    /** A session that was found: used now, and referenced once more. */
    method Reuse(c: Client, now: int)
      requires Valid() && c in all
      modifies c
      ensures Valid()
      ensures View() == old(View()).(all := old(View()).all[c := old(c.Record()).(access := now,
              refcount := old(c.refcount) + 1)])
    {
      c.access := now;
      c.refcount := c.refcount + 1;
      assert View().all == old(View()).all[c := c.Record()];
    }

    /** ctxClientGetSession */
    method GetSession(uuid: Option<string>, now: int, gen: string, c: Client) returns (out: Outcome<Client>)
      requires Valid() && c !in all
      modifies this`count, this`all, store, all, c
      ensures Valid() && (View(), out) == Do(old(View()), Op.GetSession(uuid, now, gen, c))
    {
      CleanUp(now);
      if uuid.Some? {
        var found := StoreSearch(uuid.value);
        if found != null {
          Reuse(found, now);
          return Given(found, false);
        }
      }
      out := NewContext(uuid, timeout, now, gen, c);
    }

    method AddRef(c: Client)
      requires Valid() && c in all && Some(c) in View().slots
      modifies c
      ensures Valid() && View() == Do(old(View()), Op.AddRef(c)).0
    {
      c.refcount := c.refcount + 1;
      assert View().all == old(View()).all[c := c.Record()];
    }

    method Unref(c: Client)
      requires Valid() && c in all && Some(c) in View().slots && c.refcount > 0
      modifies this`count, store, c
      ensures Valid() && View() == Do(old(View()), Op.Unref(c)).0
    {
      c.refcount := c.refcount - 1;
      assert View().all == old(View()).all[c := c.Record()];
      if c.refcount == 0 && c.uuid == "" {
        StoreDel(c);
      }
    }

    method TokenNew(c: Client, now: int, gen: string)
      requires Valid() && c in all && Some(c) in View().slots
      modifies c
      ensures Valid() && View() == Do(old(View()), Op.TokenNew(c, now, gen)).0
    {
      c.token := gen;
      if c.timeout != 0 {
        c.expiration := now + c.timeout;
      }
      assert View().all == old(View()).all[c := c.Record()];
    }
  }
}

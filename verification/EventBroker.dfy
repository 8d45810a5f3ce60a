/** The globals of src/afb-evt.c and its functions, in place, each proved against
    the operation it performs on a hub. */
module EventBroker {
  import opened EventHub
  import opened EventOps

  /** Unlinking watches does not depend on the chain of events or on reference counts. */
  lemma {:induction false} UnlinkAllApart(h: Hub, u: Hub, ws: seq<Ref>)
    requires Removable(h, ws) && Removable(u, ws)
    requires u == h.(events := u.events, lst := u.lst) && forall l :: l in h.lst ==> u.lst[l].itf == h.lst[l].itf
    ensures UnlinkAll(u, ws) == UnlinkAll(h, ws).(events := u.events, lst := u.lst)
    ensures UnlinkAllCalls(u, ws) == UnlinkAllCalls(h, ws)
    decreases |ws|
  {
    if ws != [] {
      UnlinkFirst(h, ws);
      UnlinkFirst(u, ws);
      var h1, u1 := Unlink(h, ws[0]), Unlink(u, ws[0]);
      UnlinkApart(h, u, ws[0], h1, u1);
      UnlinkAllApart(h1, u1, ws[1..]);
    }
  }

  lemma UnlinkApart(h: Hub, u: Hub, w: Ref, h1: Hub, u1: Hub)
    requires Known(h, w) && Known(u, w) && h1 == Unlink(h, w) && u1 == Unlink(u, w)
    requires u == h.(events := u.events, lst := u.lst) && forall l :: l in h.lst ==>
             l in u.lst && u.lst[l].itf == h.lst[l].itf
    ensures u1 == h1.(events := u1.events, lst := u1.lst) && u1.events == u.events && u1.lst == u.lst
    ensures UnlinkCalls(u, w) == UnlinkCalls(h, w)
  {
  }

  lemma OwnWatches(h: Hub)
    requires Wired(h)
    ensures forall e :: e in h.evt ==> e in h.byEvent && Removable(h, h.byEvent[e])
    ensures forall l :: l in h.lst ==> l in h.byListener && Removable(h, h.byListener[l])
  {
  }

  /** `w` may be handed to remove_watch, and is the first of the watches `ws`. */
  ghost predicate Cuts(h: Hub, w: Ref, ws: seq<Ref>) {
    && ws != [] && w == ws[0] && Removable(h, ws) && Known(h, w)
    && w in h.byEvent[h.wat[w].event] && w in h.byListener[h.wat[w].listener]
    && Removable(Unlink(h, w), ws[1..])
    && UnlinkAll(h, ws) == UnlinkAll(Unlink(h, w), ws[1..])
    && UnlinkAllCalls(h, ws) == UnlinkCalls(h, w) + UnlinkAllCalls(Unlink(h, w), ws[1..])
  }

  lemma CutsFirst(h: Hub, ws: seq<Ref>)
    requires Removable(h, ws) && ws != []
    ensures Cuts(h, ws[0], ws)
  {
    UnlinkFirst(h, ws);
    var w := ws[0];
    assert EventOf(h.wat[w]) in h.byEvent && ListenerOf(h.wat[w]) in h.byListener;
  }

  lemma FirstOfEvent(h: Hub, e: Ref)
    requires Wired(h) && e in h.evt && h.byEvent[e] != []
    ensures var ws := h.byEvent[e]; Cuts(h, ws[0], ws) && Unlink(h, ws[0]).byEvent[e] == ws[1..]
  {
    OwnWatches(h);
    CutsFirst(h, h.byEvent[e]);
    assert h.byEvent[e][0] in h.byEvent[e];
  }

  lemma FirstOfListener(h: Hub, l: Ref)
    requires Wired(h) && l in h.lst && h.byListener[l] != []
    ensures var ws := h.byListener[l]; Cuts(h, ws[0], ws) && Unlink(h, ws[0]).byListener[l] == ws[1..]
  {
    OwnWatches(h);
    CutsFirst(h, h.byListener[l]);
    assert h.byListener[l][0] in h.byListener[l];
  }

  lemma PushStep(h: Hub, ws: seq<Ref>, i: nat)
    requires Wired(h) && i < |ws| && forall w :: w in ws ==> w in h.wat
    ensures forall w :: w in ws[i..] ==> w in h.wat
    ensures forall w :: w in ws[i + 1..] ==> w in h.wat
    ensures h.wat[ws[i]].event in h.evt && h.wat[ws[i]].listener in h.lst
    ensures PushCalls(h, ws[i..]) == PushCall(h, ws[i]) + PushCalls(h, ws[i + 1..])
  {
    assert ws[i..][1..] == ws[i + 1..];
    assert EventOf(h.wat[ws[i]]) in h.byEvent && ListenerOf(h.wat[ws[i]]) in h.byListener;
  }

  lemma Assoc(a: seq<Callback>, b: seq<Callback>, c: seq<Callback>)
    ensures (a + b) + c == a + (b + c)
  {
  }

  /** Clearing a listener with its count at zero, or with the count it had. */
  lemma ListenerCleared(h: Hub, l: Ref, u: Hub, r: Hub)
    requires Wired(h) && l in h.lst && l in h.listeners && u == Refcount(h, l, -1) && Wired(u)
    requires Removable(u, u.byListener[l]) && r == UnlinkAll(u, u.byListener[l])
    ensures Removable(h, h.byListener[l]) && l in r.listeners && r.lst - {l} == h.lst - {l}
    ensures r.(listeners := Drop(r.listeners, l), lst := h.lst - {l}, byListener := r.byListener - {l})
            == WithoutListener(h, l)
    ensures UnlinkAllCalls(u, u.byListener[l]) == UnlinkAllCalls(h, h.byListener[l])
  {
    OwnWatches(h);
    UnlinkAllApart(h, u, h.byListener[l]);
  }

  lemma RefcountWired(h: Hub, l: Ref, delta: int)
    requires Wired(h) && l in h.lst
    ensures Wired(Refcount(h, l, delta))
  {
    SameKeys(h.lst, l, Refcount(h, l, delta).lst[l]);
  }

  /** Steps of Succ from one number of the reused range to another. */
  ghost function Distance(c: int, f: int): int {
    if c <= f then f - c else INT_MAX - FIRST_REUSED + 1 - (c - f)
  }

  class Broker {
    var hub: Hub
    ghost var trace: seq<Callback>

    constructor ()
      ensures hub == Empty() && trace == []
    {
      hub, trace := Empty(), [];
    }

    /** Walks the links up to the watch, and cuts it out. */
    static method Splice(s: seq<Ref>, x: Ref) returns (r: seq<Ref>)
      requires x in s
      ensures r == Drop(s, x)
    {
      var i := 0;
      while s[i] != x
        invariant 0 <= i < |s| && x !in s[..i]
        invariant exists k :: i <= k < |s| && s[k] == x
        decreases |s| - i
      {
        assert s[..i + 1] == s[..i] + [s[i]];
        i := i + 1;
      }
      DropAt(s, x, i);
      r := s[..i] + s[i + 1..];
    }

    /** remove_watch */
    method CutWatch(w: Ref)
      requires Known(hub, w) && w in hub.byEvent[hub.wat[w].event] && w in hub.byListener[hub.wat[w].listener]
      modifies this
      ensures hub == Unlink(old(hub), w)
      ensures trace == old(trace) + UnlinkCalls(old(hub), w)
    {
      var Watch(e, l, activity) := hub.wat[w];
      if activity != 0 && hub.lst[l].itf.remove {
        trace := trace + [Call(hub, Removed, l, e)];
      }
      var a := Splice(hub.byEvent[e], w);
      var b := Splice(hub.byListener[l], w);
      hub := hub.(byEvent := hub.byEvent[e := a], byListener := hub.byListener[l := b], wat := hub.wat - {w});
    }

    /** Removes all watches of an event, always the first one. */
    method ClearEvent(e: Ref)
      requires Wired(hub) && e in hub.evt
      modifies this
      ensures Removable(old(hub), old(hub).byEvent[e]) && hub == UnlinkAll(old(hub), old(hub).byEvent[e])
      ensures trace == old(trace) + UnlinkAllCalls(old(hub), old(hub).byEvent[e])
    {
      OwnWatches(hub);
      ghost var done: seq<Callback> := [];
      ghost var all, final := UnlinkAllCalls(hub, hub.byEvent[e]), UnlinkAll(hub, hub.byEvent[e]);
      while hub.byEvent[e] != []
        invariant e in hub.evt && e in hub.byEvent && Removable(hub, hub.byEvent[e])
        invariant UnlinkAll(hub, hub.byEvent[e]) == final
        invariant trace == old(trace) + done && done + UnlinkAllCalls(hub, hub.byEvent[e]) == all
        decreases |hub.byEvent[e]|
      {
        FirstOfEvent(hub, e);
        ghost var cs := UnlinkCalls(hub, hub.byEvent[e][0]);
        CutWatch(hub.byEvent[e][0]);
        Assoc(done, cs, UnlinkAllCalls(hub, hub.byEvent[e]));
        Assoc(old(trace), done, cs);
        done := done + cs;
      }
    }

    method ClearListener(l: Ref)
      requires Wired(hub) && l in hub.lst
      modifies this
      ensures Removable(old(hub), old(hub).byListener[l]) && hub == UnlinkAll(old(hub), old(hub).byListener[l])
      ensures trace == old(trace) + UnlinkAllCalls(old(hub), old(hub).byListener[l])
    {
      OwnWatches(hub);
      ghost var done: seq<Callback> := [];
      ghost var all, final := UnlinkAllCalls(hub, hub.byListener[l]), UnlinkAll(hub, hub.byListener[l]);
      while hub.byListener[l] != []
        invariant l in hub.lst && l in hub.byListener && Removable(hub, hub.byListener[l])
        invariant UnlinkAll(hub, hub.byListener[l]) == final
        invariant trace == old(trace) + done && done + UnlinkAllCalls(hub, hub.byListener[l]) == all
        decreases |hub.byListener[l]|
      {
        FirstOfListener(hub, l);
        ghost var cs := UnlinkCalls(hub, hub.byListener[l][0]);
        CutWatch(hub.byListener[l][0]);
        Assoc(done, cs, UnlinkAllCalls(hub, hub.byListener[l]));
        Assoc(old(trace), done, cs);
        done := done + cs;
      }
    }

    /** evt_destroy: an unknown handle is ignored. */
    method EvtDestroy(e: Ref)
      requires Valid(hub)
      modifies this
      ensures hub == After(old(hub), DestroyEvent(e))
      ensures trace == old(trace) + Calls(old(hub), DestroyEvent(e))
    {
      ghost var h := hub;
      OwnWatches(h);
      var i := 0;
      while i < |hub.events| && hub.events[i] != e
        invariant 0 <= i <= |hub.events| && e !in hub.events[..i]
        invariant hub == h && trace == old(trace)
      {
        assert hub.events[..i + 1] == hub.events[..i] + [hub.events[i]];
        i := i + 1;
      }
      if i < |hub.events| {
        assert e in h.events;
        DropAt(hub.events, e, i);
        hub := hub.(events := hub.events[..i] + hub.events[i + 1..]);
        ghost var u := hub;
        ClearEvent(e);
        UnlinkAllApart(h, u, h.byEvent[e]);
        hub := hub.(evt := hub.evt - {e}, byEvent := hub.byEvent - {e});
      } else {
        assert hub.events[..i] == hub.events;
      }
    }

    /** One watch of a pushed event: its listener is called if it is active. */
    method PushTo(w: Ref)
      requires w in hub.wat && hub.wat[w].event in hub.evt && hub.wat[w].listener in hub.lst
      modifies `trace
      ensures trace == old(trace) + PushCall(hub, w)
    {
      var Watch(e, l, activity) := hub.wat[w];
      if activity != 0 {
        trace := trace + [Call(hub, Pushed, l, e)];
      }
    }

    /** evt_push.  The count returned is that of all watches, active or not. */
    method EvtPush(e: Ref) returns (result: nat)
      requires Wired(hub) && e in hub.evt
      modifies `trace
      ensures (forall w :: w in hub.byEvent[e] ==> w in hub.wat) && trace == old(trace) + PushCalls(hub, hub.byEvent[e])
      ensures result == |hub.byEvent[e]|
    {
      OwnWatches(hub);
      var ws := hub.byEvent[e];
      ghost var rest, all := PushCalls(hub, ws), trace + PushCalls(hub, ws);
      result := 0;
      assert ws[0..] == ws;
      while result < |ws|
        invariant 0 <= result <= |ws| && forall w :: w in ws[result..] ==> w in hub.wat
        invariant rest == PushCalls(hub, ws[result..]) && trace + rest == all
      {
        PushStep(hub, ws, result);
        ghost var cs := PushCall(hub, ws[result]);
        rest := PushCalls(hub, ws[result + 1..]);
        Assoc(trace, cs, rest);
        PushTo(ws[result]);
        result := result + 1;
      }
    }

    /** The allocation loop of afb_evt_create_event; `free` is any free identifier
        of the reused range, needed once the counter has wrapped. */
    method AllocateId(ghost free: int)
      requires 0 <= hub.counter <= INT_MAX && (hub.wrapped ==> FIRST_REUSED <= hub.counter)
      requires FIRST_REUSED <= free <= INT_MAX && free !in LiveIds(hub)
      requires forall x :: x in hub.events <==> x in hub.evt
      modifies this
      ensures trace == old(trace) && hub == old(hub).(counter := hub.counter, wrapped := hub.wrapped)
      ensures Allocates(LiveIds(old(hub)), old(hub).counter, old(hub).wrapped, hub.counter, hub.wrapped)
    {
      ghost var live, c0, k := LiveIds(hub), hub.counter, 0;
      var searching := true;
      while searching
        invariant hub == old(hub).(counter := hub.counter, wrapped := hub.wrapped) && trace == old(trace)
        invariant k == 0 ==> hub == old(hub) && searching
        invariant k > 0 ==> hub.wrapped == (old(hub).wrapped || c0 >= INT_MAX)
        invariant k > 0 ==> hub.counter == Iter(Succ(c0), k - 1)
        invariant k > 0 && hub.wrapped ==> FIRST_REUSED <= hub.counter <= INT_MAX
        invariant k > 0 && !hub.wrapped ==> !searching && hub.counter == c0 + 1
        invariant k > 0 && hub.wrapped ==> searching == (hub.counter in live)
        invariant hub.wrapped || c0 >= INT_MAX ==> forall i :: 0 <= i < k - 1 ==> Iter(Succ(c0), i) in live
        decreases searching, if k == 0 then 2 * INT_MAX else Distance(hub.counter, free)
      {
        if hub.counter >= INT_MAX {
          hub := hub.(wrapped := true, counter := FIRST_REUSED);
        } else {
          hub := hub.(counter := hub.counter + 1);
        }
        k := k + 1;
        if !hub.wrapped {
          searching := false;
        } else {
          searching := IdInUse(hub.counter);
        }
      }
    }

    method IdInUse(id: int) returns (used: bool)
      requires forall x :: x in hub.events <==> x in hub.evt
      ensures used == (id in LiveIds(hub))
    {
      var i := 0;
      while i < |hub.events| && hub.evt[hub.events[i]].id != id
        invariant 0 <= i <= |hub.events|
        invariant forall j :: 0 <= j < i ==> hub.evt[hub.events[j]].id != id
      {
        i := i + 1;
      }
      used := i < |hub.events|;
      if used {
        assert hub.events[i] in hub.evt;
      } else {
        assert forall e :: e in hub.evt ==> e in hub.events && hub.evt[e].id != id;
      }
    }

    method CreateEvent(name: string, ghost free: int) returns (e: Ref)
      requires Valid(hub) && FIRST_REUSED <= free <= INT_MAX && free !in LiveIds(hub)
      modifies this
      ensures hub.counter !in LiveIds(old(hub))
      ensures Enabled(old(hub), EventOps.CreateEvent(name, hub.counter, hub.wrapped))
      ensures hub == After(old(hub), EventOps.CreateEvent(name, hub.counter, hub.wrapped))
      ensures e == old(hub).next && trace == old(trace)
    {
      AllocateId(free);
      AllocatedIsFree(old(hub).evt, old(hub).counter, old(hub).wrapped, hub.counter, hub.wrapped);
      e := hub.next;
      hub := hub.(events := [e] + hub.events, evt := hub.evt[e := Event(hub.counter, name)],
                  byEvent := hub.byEvent[e := []], next := e + 1);
    }

    method WalkListeners(itf: Itf, closure: nat) returns (i: nat)
      requires Chains(hub)
      ensures i == FindListener(hub.lst, hub.listeners, itf, closure)
    {
      i := 0;
      while i < |hub.listeners|
            && !(hub.lst[hub.listeners[i]].itf == itf && hub.lst[hub.listeners[i]].closure == closure)
        invariant 0 <= i <= FindListener(hub.lst, hub.listeners, itf, closure)
      {
        i := i + 1;
      }
    }

    method ListenerCreate(itf: Itf, closure: nat) returns (l: Ref)
      requires Valid(hub)
      modifies this
      ensures hub == AfterListener(old(hub), itf, closure)
      ensures l in hub.lst && hub.lst[l].itf == itf && hub.lst[l].closure == closure && trace == old(trace)
    {
      var i := WalkListeners(itf, closure);
      if i < |hub.listeners| {
        l := hub.listeners[i];
        hub := hub.(lst := hub.lst[l := hub.lst[l].(refcount := hub.lst[l].refcount + 1)]);
      } else {
        l := hub.next;
        hub := hub.(listeners := [l] + hub.listeners, lst := hub.lst[l := Listener(itf, closure, 1)],
                    byListener := hub.byListener[l := []], next := l + 1);
      }
    }

    method ListenerUnref(l: Ref)
      requires Wired(hub) && l in hub.lst && l in hub.listeners
      modifies this
      ensures old(hub).lst[l].refcount != 1 ==> hub == Refcount(old(hub), l, -1) && trace == old(trace)
      ensures old(hub).lst[l].refcount == 1 ==>
                && hub == WithoutListener(old(hub), l)
                && Removable(old(hub), old(hub).byListener[l])
                && trace == old(trace) + UnlinkAllCalls(old(hub), old(hub).byListener[l])
    {
      RefcountWired(hub, l, -1);
      ghost var h := hub;
      hub := hub.(lst := hub.lst[l := hub.lst[l].(refcount := hub.lst[l].refcount - 1)]);
      if hub.lst[l].refcount == 0 {
        DropListener(l, h);
      }
    }

    /** A listener that lost its last reference; `h` was the hub before. */
    method DropListener(l: Ref, ghost h: Hub)
      requires Wired(h) && l in h.lst && l in h.listeners && hub == Refcount(h, l, -1) && Wired(hub)
      modifies this
      ensures hub == WithoutListener(h, l) && Removable(h, h.byListener[l])
      ensures trace == old(trace) + UnlinkAllCalls(h, h.byListener[l])
    {
      ClearListener(l);
      ListenerCleared(h, l, old(hub), hub);
      var ls := Splice(hub.listeners, l);
      hub := hub.(listeners := ls, lst := hub.lst - {l}, byListener := hub.byListener - {l});
    }

    /** The walk over a listener's watches in search of an event. */
    method FindWatch(l: Ref, e: Ref) returns (r: Found)
      requires Wired(hub) && l in hub.lst
      ensures r == WatchOf(hub, l, e)
    {
      OwnWatches(hub);
      var ws := hub.byListener[l];
      var i := 0;
      while i < |ws| && hub.wat[ws[i]].event != e
        invariant 0 <= i <= |ws|
        invariant forall j :: 0 <= j < i ==> hub.wat[ws[j]].event != e
      {
        i := i + 1;
      }
      if i < |ws| {
        assert ws[i] in ws;
        r := Present(ws[i]);
      } else {
        r := Absent;
        forall w | w in hub.wat && hub.wat[w].listener == l
          ensures hub.wat[w].event != e
        {
          assert ListenerOf(hub.wat[w]) == l && w in ws;
        }
      }
    }

    /** afb_evt_add_watch */
    method AddWatch(l: Ref, e: Ref) returns (ok: bool)
      requires Wired(hub) && l in hub.lst && e in hub.evt
      modifies this
      ensures ok == old(hub).lst[l].itf.push
      ensures hub == AfterAdd(old(hub), l, e) && trace == old(trace) + AddCalls(old(hub), l, e)
    {
      if !hub.lst[l].itf.push {
        return false;
      }
      var r := FindWatch(l, e);
      if (r.Absent? || hub.wat[r.w].activity == 0) && hub.lst[l].itf.add {
        trace := trace + [Call(hub, Added, l, e)];
      }
      if r.Present? {
        hub := hub.(wat := hub.wat[r.w := hub.wat[r.w].(activity := hub.wat[r.w].activity + 1)]);
      } else {
        LinkWatch(l, e);
      }
      return true;
    }

    /** A new watch, first in both lists. */
    method LinkWatch(l: Ref, e: Ref)
      requires l in hub.byListener && e in hub.byEvent
      modifies `hub
      ensures hub == NewWatch(old(hub), l, e)
    {
      var w := hub.next;
      hub := hub.(wat := hub.wat[w := Watch(e, l, 1)],
                  byEvent := hub.byEvent[e := [w] + hub.byEvent[e]],
                  byListener := hub.byListener[l := [w] + hub.byListener[l]],
                  next := w + 1);
    }

    /** afb_evt_remove_watch */
    method RemoveWatch(l: Ref, e: Ref) returns (found: bool)
      requires Wired(hub) && l in hub.lst && e in hub.evt
      modifies this
      ensures found == Watches(old(hub), l, e)
      ensures hub == AfterRemove(old(hub), l, e) && trace == old(trace) + RemoveCalls(old(hub), l, e)
    {
      var r := FindWatch(l, e);
      found := r.Present?;
      if found {
        var activity := hub.wat[r.w].activity;
        if activity != 0 {
          if activity == 1 && hub.lst[l].itf.remove {
            trace := trace + [Call(hub, Removed, l, e)];
          }
          hub := hub.(wat := hub.wat[r.w := hub.wat[r.w].(activity := activity - 1)]);
        }
      }
    }
  }
}

/** The loops of src/locale-root.c: parent links, search lists and their cache. */
module LocaleRoot {
  import opened Options
  import opened LocaleNames
  import opened LocaleSearch
  import opened LocaleLru

  // ----- one range of a definition

  method AppendFolder(l: seq<nat>, f: nat) returns (r: seq<nat>)
    ensures r == Append(l, f)
  {
    var n := 0;
    while n < |l|
      invariant 0 <= n <= |l| && f !in l[..n]
    {
      if l[n] == f {
        return l;
      }
      n := n + 1;
    }
    assert l[..n] == l;
    r := l + [f];
  }

  /** The two loops that shorten the prefix by one subtag. */
  method Shorten(s: string, p: nat, end: nat) returns (back: nat)
    requires p < end <= |s|
    ensures back == NextBack(s, p, end)
  {
    back := end - 1;
    while back > p && s[back] != '-'
      invariant p <= back < end
      invariant PrevDash(s, p, back + 1) == PrevDash(s, p, end)
    {
      back := back - 1;
    }
    while back > p && s[back] == '-' && s[back - 1] == '-'
      invariant p <= back < end
      invariant SkipDashes(s, p, back) == NextBack(s, p, end)
    {
      back := back - 1;
    }
  }

  method AppendRange(fs: seq<string>, l: seq<nat>, s: string, p: nat, end: nat, immediate: bool) returns (r: seq<nat>)
    requires p <= end <= |s|
    ensures r == AppendAll(l, InRange(fs, s, p, end, immediate))
  {
    r := l;
    var back := end;
    while back > p
      invariant p <= back <= end
      invariant AppendAll(r, InRange(fs, s, p, back, immediate)) == AppendAll(l, InRange(fs, s, p, end, immediate))
    {
      ghost var now := InRange(fs, s, p, back, immediate);
      var folder := SearchFolder(fs, s[p..back]);
      if folder.Some? {
        ghost var before := r;
        r := AppendFolder(r, folder.value);
        assert now[0] == folder.value && AppendAll(before, now) == AppendAll(r, now[1..]);
        if !immediate {
          assert now[1..] == [];
          return;
        }
      }
      back := Shorten(s, p, back);
      assert now == (if folder.Some? then [folder.value] else []) + InRange(fs, s, p, back, immediate);
    }
  }

  // ----- the whole definition

  /** Where the range at `p` stops, and where it ends; `behind` follows the definition. */
  method RangeAt(s: string, behind: char, p: nat) returns (stop: nat, back: nat)
    requires p <= |s|
    ensures stop == Stop(s, p) && back == RangeEnd(s, p, Blank(behind))
  {
    stop := p;
    while stop < |s| && s[stop] != ',' && s[stop] != ';'
      invariant p <= stop <= |s| && Stop(s, stop) == Stop(s, p)
    {
      stop := stop + 1;
    }
    back := stop;
    while back > p && Blank(if back < |s| then s[back] else behind)
      invariant p <= back <= stop
      invariant back < stop ==> stop == |s| && Blank(behind) && TrimFrom(s, p, back) == TrimFrom(s, p, stop - 1)
    {
      back := back - 1;
    }
  }

  method SkipRange(s: string, p: nat, stop: nat) returns (next: nat)
    requires p < |s| && stop == Stop(s, p)
    ensures next == NextRange(s, p)
  {
    next := stop;
    while next < |s| && s[next] != ','
      invariant stop <= next <= |s| && ToComma(s, next) == ToComma(s, stop)
    {
      next := next + 1;
    }
    while next < |s| && (s[next] == ',' || Blank(s[next]))
      invariant stop <= next <= |s| && SkipSeparators(s, next) == NextRange(s, p)
    {
      next := next + 1;
    }
  }

  method AppendRanges(fs: seq<string>, s: string, behind: char, immediate: bool) returns (l: seq<nat>)
    ensures l == AppendAll([], Wanted(fs, s, 0, Blank(behind), immediate))
  {
    l := [];
    var p := 0;
    ghost var blank := Blank(behind);
    while p < |s|
      invariant 0 <= p <= |s|
      invariant AppendAll(l, Wanted(fs, s, p, blank, immediate)) == AppendAll([], Wanted(fs, s, 0, blank, immediate))
      decreases |s| - p
    {
      var stop, back := RangeAt(s, behind, p);
      ghost var range := InRange(fs, s, p, back, immediate);
      var next := SkipRange(s, p, stop);
      AppendTwo(l, range, Wanted(fs, s, next, blank, immediate));
      l := AppendRange(fs, l, s, p, back, immediate);
      p := next;
    }
  }

  // ----- the root

  class Root {
    const names: seq<string>
    const parents: array<Option<nat>>
    const lru: array<Slot>

    ghost predicate Valid()
      reads this, parents, lru
    {
      && parents.Length == |names| && lru.Length == LRU_COUNT
      && forall f :: 0 <= f < |names| ==> parents[f] == Parent(names, f)
    }

    /** The root over the sorted names; the loop builds the parent links. */
    constructor (names: seq<string>)
      ensures Valid() && this.names == names && fresh(lru) && fresh(parents)
      ensures lru[..] == NO_SLOTS
    {
      var links := new Option<nat>[|names|](_ => None);
      this.names := names;
      this.lru := new Slot[LRU_COUNT](_ => Empty);
      this.parents := links;
      new;
      var i := |names|;
      while i != 0
        invariant 0 <= i <= |names| && parents == links && fresh(links) && links.Length == |names|
        invariant this.names == names && fresh(lru) && lru != parents as object && lru[..] == NO_SLOTS
        invariant forall f :: i <= f < |names| ==> links[f] == Parent(names, f)
      {
        i := i - 1;
        links[i] := ParentLink(names, names[i]);
      }
    }

    method Fulfil(wanted: seq<nat>) returns (l: seq<nat>)
      requires Valid() && Proper(names, wanted)
      ensures l == Close(names, wanted, 0)
    {
      l := wanted;
      var node := 0;
      while node < |l|
        invariant 0 <= node <= |l| && Proper(names, l)
        invariant Close(names, l, node) == Close(names, wanted, 0)
        decreases |names| - node
      {
        ProperShort(names, l);
        var parent := parents[l[node]];
        if parent.Some? {
          l := AppendFolder(l, parent.value);
        }
        node := node + 1;
        ProperShort(names, l);
      }
    }

    /** create_search: `behind` is the character that follows the definition. */
    method Create(s: string, behind: char, immediate: bool) returns (l: seq<nat>)
      requires Valid()
      ensures l == CreateSearch(names, s, Blank(behind), immediate)
    {
      var wanted := AppendRanges(names, s, behind, immediate);
      AppendAllProper(names, [], Wanted(names, s, 0, Blank(behind), immediate));
      l := Fulfil(wanted);
    }

    method LookUp(s: string) returns (i: nat)
      requires Valid()
      ensures i == Hit(lru[..], s)
    {
      i := 0;
      while i < LRU_COUNT && !Matches(lru[i], s)
        invariant 0 <= i <= LRU_COUNT
        invariant forall k :: 0 <= k < i ==> !Matches(lru[k], s)
      {
        i := i + 1;
      }
    }

    method MoveToFront(j: nat, x: Slot)
      requires Valid() && j < LRU_COUNT
      modifies lru
      ensures Valid() && lru[..] == ToFront(old(lru[..]), j, x)
    {
      var i := j;
      while i > 0
        invariant 0 <= i <= j
        invariant forall k :: 0 <= k <= i || j < k < LRU_COUNT ==> lru[k] == old(lru[k])
        invariant forall k :: i < k <= j ==> lru[k] == old(lru[k - 1])
      {
        lru[i] := lru[i - 1];
        i := i - 1;
      }
      lru[0] := x;
    }

    /** locale_root_search; an absent definition is like an empty one. */
    method Search(definition: Option<string>, immediate: bool) returns (x: Slot)
      requires Valid()
      modifies lru
      ensures Valid() && x.Slot?
      ensures var d := if definition.Some? then definition.value else "";
              && x == Found(names, old(lru[..]), Normal(d), BlankBehind(d), immediate)
              && lru[..] == Touch(names, old(lru[..]), Normal(d), BlankBehind(d), immediate)
    {
      var d := if definition.Some? then definition.value else "";
      var s, behind := Normalize(d);
      var i := LookUp(s);
      if i < LRU_COUNT {
        x := lru[i];
      } else {
        var l := Create(s, behind, immediate);
        x := Slot(s, l);
        i := i - 1;
      }
      MoveToFront(i, x);
    }
  }

  /** The parent loop for one folder. */
  method ParentLink(fs: seq<string>, name: string) returns (parent: Option<nat>)
    ensures parent == ParentFrom(fs, name, |name|)
  {
    var j := |name|;
    parent := None;
    while j != 0 && parent == None
      invariant 0 <= j <= |name|
      invariant ParentFrom(fs, name, |name|) == if parent.Some? then parent else ParentFrom(fs, name, j)
    {
      j := j - 1;
      if name[j] == '-' {
        parent := SearchFolder(fs, name[..j]);
      }
    }
  }

  /** The definition without blanks and commas at its ends, and the character that
      follows it. */
  method Normalize(d: string) returns (s: string, behind: char)
    ensures s == Normal(d) && Blank(behind) == BlankBehind(d)
  {
    var p := 0;
    while p < |d| && Cut(d[p])
      invariant 0 <= p <= |d| && SkipCut(d, p) == SkipCut(d, 0)
    {
      p := p + 1;
    }
    var n := |d|;
    while n > p && Cut(d[n - 1])
      invariant p <= n <= |d| && CutBack(d, p, n) == CutBack(d, p, |d|)
    {
      n := n - 1;
    }
    s := d[p..n];
    behind := if n < |d| then d[n] else '\0';
  }
}

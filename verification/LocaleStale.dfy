/** Exactly when a blank behind a definition changes its search list, and exactly when
    the cache then gives another list than a fresh search (src/locale-root.c). */
module LocaleStale {
  import opened Options
  import opened LocaleNames
  import opened LocaleSearch
  import opened LocaleLru
  import opened LocaleBlanks

  // ----- lists that close alike

  lemma OneBehind<T>(l: seq<T>, m: seq<T>, all: seq<T>, x: T)
    requires l <= m <= all && l + [x] <= all
    ensures m == l || (l + [x] <= m && x in m)
  {
    if m != l {
      assert m[|l|] == all[|l|] == (l + [x])[|l|];
    }
  }

  /** One step of closing: with a new parent, and without. */
  lemma CloseUnfold(fs: seq<string>, l: seq<nat>, i: nat, p: Option<nat>)
    requires Proper(fs, l) && i < |l| && p == Parent(fs, l[i])
    ensures if p.Some? && p.value !in l then Proper(fs, l + [p.value]) &&
            Close(fs, l, i) == Close(fs, l + [p.value], i + 1)
            else Close(fs, l, i) == Close(fs, l, i + 1)
  {
    ProperShort(fs, l);
    if p.Some? && p.value !in l {
      ProperMore(fs, l, p.value);
    }
  }

  lemma {:induction false} ClosePrefix(fs: seq<string>, l: seq<nat>, m: seq<nat>, i: nat)
    requires Proper(fs, l) && Proper(fs, m) && i <= |l| && l <= m <= Close(fs, l, i)
    ensures Close(fs, m, i) == Close(fs, l, i)
    decreases |fs| - i
  {
    ProperShort(fs, l);
    if i < |l| && m != l {
      var p := Parent(fs, l[i]);
      assert m[i] == l[i];
      CloseUnfold(fs, l, i, p);
      CloseUnfold(fs, m, i, p);
      if p.Some? && p.value !in l {
        CloseExtends(fs, l + [p.value], i + 1);
        OneBehind(l, m, Close(fs, l, i), p.value);
        ClosePrefix(fs, l + [p.value], m, i + 1);
      } else {
        ClosePrefix(fs, l, m, i + 1);
      }
    }
  }

  lemma CloseExtends(fs: seq<string>, l: seq<nat>, i: nat)
    requires Proper(fs, l) && i <= |l|
    ensures l <= Close(fs, l, i)
    decreases |fs| - i
  {
    ProperShort(fs, l);
    if i < |l| {
      var p := Parent(fs, l[i]);
      if p.Some? && p.value !in l {
        ProperMore(fs, l, p.value);
        CloseExtends(fs, l + [p.value], i + 1);
      } else {
        CloseExtends(fs, l, i + 1);
      }
    }
  }

  /** Two lists close alike if and only if one is the beginning of the other and what
      is more in the other is what closing would append anyway. */
  lemma CloseAlike(fs: seq<string>, l: seq<nat>, m: seq<nat>)
    requires Proper(fs, l) && Proper(fs, m)
    ensures Close(fs, l, 0) == Close(fs, m, 0) <==> l <= m <= Close(fs, l, 0) || m <= l <= Close(fs, m, 0)
  {
    CloseExtends(fs, l, 0);
    CloseExtends(fs, m, 0);
    if l <= m <= Close(fs, l, 0) {
      ClosePrefix(fs, l, m, 0);
    }
    if m <= l <= Close(fs, m, 0) {
      ClosePrefix(fs, m, l, 0);
    }
  }

  /** The first parent that closing appends. */
  function FirstNew(fs: seq<string>, l: seq<nat>, i: nat): Option<nat>
    requires Proper(fs, l) && i <= |l|
    decreases |l| - i
  {
    if i == |l| then None
    else
      var p := Parent(fs, l[i]);
      if p.Some? && p.value !in l then p else FirstNew(fs, l, i + 1)
  }

  lemma {:induction false} FirstAppended(fs: seq<string>, l: seq<nat>, i: nat, x: nat)
    requires Proper(fs, l) && i <= |l|
    ensures l + [x] <= Close(fs, l, i) <==> FirstNew(fs, l, i) == Some(x)
    decreases |l| - i
  {
    ProperShort(fs, l);
    if i < |l| {
      var p := Parent(fs, l[i]);
      if p.Some? && p.value !in l {
        var k := l + [p.value];
        ProperMore(fs, l, p.value);
        CloseExtends(fs, k, i + 1);
        assert Close(fs, l, i)[|l|] == k[|l|];
        assert (l + [x])[|l|] == x;
      } else {
        FirstAppended(fs, l, i + 1, x);
      }
    }
  }

  // ----- the last range

  /** Text without a blank or a comma at its ends. */
  predicate Trimmed(s: string) {
    s != "" && !Cut(s[0]) && !Cut(s[|s| - 1])
  }

  lemma NormalTrimmed(d: string)
    ensures Normal(d) == "" || Trimmed(Normal(d))
  {
  }

  /** Where the last range begins. */
  function LastStart(s: string, p: nat): (q: nat)
    requires p < |s|
    ensures p <= q < |s| && NextRange(s, q) == |s|
    decreases |s| - p
  {
    if NextRange(s, p) == |s| then p else LastStart(s, NextRange(s, p))
  }

  function LastRange(s: string): string
    requires s != ""
  {
    s[LastStart(s, 0)..]
  }

  /** The folders wanted by the ranges before the last one. */
  function Before(fs: seq<string>, s: string, p: nat, immediate: bool): (r: seq<nat>)
    requires p < |s|
    ensures forall f :: f in r ==> f < |fs|
    decreases |s| - p
  {
    if NextRange(s, p) == |s| then []
    else InRange(fs, s, p, Stop(s, p), immediate) + Before(fs, s, NextRange(s, p), immediate)
  }

  /** A range that is not the last one stops at a separator. */
  lemma StopsBefore(s: string, p: nat)
    requires p < |s| && NextRange(s, p) < |s|
    ensures Stop(s, p) < |s|
  {
  }

  lemma Assoc(a: seq<nat>, b: seq<nat>, c: seq<nat>)
    ensures a + (b + c) == (a + b) + c
  {
  }

  lemma {:induction false} WantedSplit(fs: seq<string>, s: string, p: nat, blank: bool, immediate: bool)
    requires p < |s|
    ensures var q := LastStart(s, p);
            Wanted(fs, s, p, blank, immediate) ==
                Before(fs, s, p, immediate) + InRange(fs, s, q, RangeEnd(s, q, blank), immediate)
    decreases |s| - p
  {
    var next := NextRange(s, p);
    var r := InRange(fs, s, p, RangeEnd(s, p, blank), immediate);
    if next == |s| {
      assert Wanted(fs, s, next, blank, immediate) == [];
      assert Wanted(fs, s, p, blank, immediate) == r + [];
      assert r + [] == r && [] + r == r;
    } else {
      StopsBefore(s, p);
      WantedSplit(fs, s, next, blank, immediate);
      var q := LastStart(s, next);
      var last := InRange(fs, s, q, RangeEnd(s, q, blank), immediate);
      Assoc(r, Before(fs, s, next, immediate), last);
    }
  }

  /** The scan for the end of a range meets a semicolon if there is one. */
  lemma {:induction false} StopAt(s: string, p: nat)
    requires p <= |s| && ',' !in s[p..]
    ensures Stop(s, p) == |s| <==> ';' !in s[p..]
    decreases |s| - p
  {
    if p < |s| {
      assert s[p..] == [s[p]] + s[p + 1..];
      StopAt(s, p + 1);
    }
  }

  lemma {:induction false} CommaAt(s: string, p: nat)
    requires p <= |s|
    ensures ToComma(s, p) == |s| <==> ',' !in s[p..]
    decreases |s| - p
  {
    if p < |s| {
      assert s[p..] == [s[p]] + s[p + 1..];
      CommaAt(s, p + 1);
    }
  }

  lemma {:induction false} CutTail(s: string, p: nat)
    requires p < |s| && !Cut(s[|s| - 1])
    ensures SkipSeparators(s, p) < |s|
    decreases |s| - p
  {
    if p + 1 < |s| {
      CutTail(s, p + 1);
    }
  }

  /** There is no comma in the last range of a trimmed text. */
  lemma LastHasNoComma(s: string, q: nat)
    requires q < |s| && !Cut(s[|s| - 1]) && NextRange(s, q) == |s|
    ensures ',' !in s[q..]
  {
    var stop := Stop(s, q);
    if ToComma(s, stop) < |s| {
      CutTail(s, ToComma(s, stop));
    }
    CommaAt(s, stop);
    StopFirst(s, q);
    assert s[q..] == s[q..stop] + s[stop..];
  }

  lemma {:induction false} StopFirst(s: string, p: nat)
    requires p <= |s|
    ensures ',' !in s[p..Stop(s, p)] && ';' !in s[p..Stop(s, p)]
    decreases |s| - p
  {
    var q := Stop(s, p);
    if p < q {
      StopFirst(s, p + 1);
      assert s[p..q] == [s[p]] + s[p + 1..q];
    }
  }

  /** Where the last range ends: one character early when a blank is behind it, unless
      a semicolon ends it before. */
  lemma LastEnd(s: string, q: nat)
    requires q < |s| && !Cut(s[|s| - 1]) && NextRange(s, q) == |s|
    ensures RangeEnd(s, q, false) == Stop(s, q)
    ensures RangeEnd(s, q, true) == if ';' in s[q..] then Stop(s, q) else |s| - 1
    ensures ';' !in s[q..] ==> Stop(s, q) == |s|
  {
    LastHasNoComma(s, q);
    StopAt(s, q);
  }

  // ----- when the blank is harmless

  /** What the last range gives. */
  function LastFolders(fs: seq<string>, s: string, blank: bool, immediate: bool): (r: seq<nat>)
    requires s != ""
    ensures forall f :: f in r ==> f < |fs|
  {
    InRange(fs, s, LastStart(s, 0), RangeEnd(s, LastStart(s, 0), blank), immediate)
  }

  /** The list before the parents. */
  function Chosen(fs: seq<string>, s: string, blank: bool, immediate: bool): seq<nat>
    requires s != ""
  {
    AppendAll(AppendAll([], Before(fs, s, 0, immediate)), LastFolders(fs, s, blank, immediate))
  }

  lemma SearchIsClosed(fs: seq<string>, s: string, blank: bool, immediate: bool)
    requires s != ""
    ensures var l := Chosen(fs, s, blank, immediate);
            Proper(fs, l) && CreateSearch(fs, s, blank, immediate) == Close(fs, l, 0)
  {
    WantedSplit(fs, s, 0, blank, immediate);
    AppendTwo([], Before(fs, s, 0, immediate), LastFolders(fs, s, blank, immediate));
    AppendAllProper(fs, [], Wanted(fs, s, 0, blank, immediate));
  }

  /** The folders chosen with and without the blank: one list begins the other, and the
      parents of the shorter one begin with the rest of the longer one. */
  ghost predicate Harmless(fs: seq<string>, s: string, immediate: bool)
    requires s != ""
  {
    var l, m := Chosen(fs, s, false, immediate), Chosen(fs, s, true, immediate);
    Proper(fs, l) && Proper(fs, m) && (l <= m <= Close(fs, l, 0) || m <= l <= Close(fs, m, 0))
  }

  /** For every definition and every container: the blank makes no difference if and only
      if it is harmless. */
  lemma BlankHarmlessIff(fs: seq<string>, s: string, immediate: bool)
    requires s != ""
    ensures CreateSearch(fs, s, true, immediate) == CreateSearch(fs, s, false, immediate) <==>
            Harmless(fs, s, immediate)
  {
    SearchIsClosed(fs, s, true, immediate);
    SearchIsClosed(fs, s, false, immediate);
    CloseAlike(fs, Chosen(fs, s, false, immediate), Chosen(fs, s, true, immediate));
  }

  /** The folder that the last range adds to those of the ranges before it. */
  function Added(fs: seq<string>, s: string, blank: bool): Option<nat>
    requires s != ""
  {
    var r := LastFolders(fs, s, blank, false);
    if r == [] || r[0] in AppendAll([], Before(fs, s, 0, false)) then None else Some(r[0])
  }

  /** Without the immediate flag: the whole last range and the one cut short add the same
      folder or none, or the one adds what is anyway the next parent and the other adds
      nothing. */
  lemma BlankHarmlessOne(fs: seq<string>, s: string)
    requires s != ""
    ensures var b := AppendAll([], Before(fs, s, 0, false));
            && Proper(fs, b)
            && (CreateSearch(fs, s, true, false) == CreateSearch(fs, s, false, false) <==>
                  var x, y, next := Added(fs, s, false), Added(fs, s, true), FirstNew(fs, b, 0);
                  x == y || (x.None? && y == next) || (y.None? && x == next))
  {
    var b := AppendAll([], Before(fs, s, 0, false));
    AppendAllProper(fs, [], Before(fs, s, 0, false));
    BlankHarmlessIff(fs, s, false);
    SearchIsClosed(fs, s, true, false);
    SearchIsClosed(fs, s, false, false);
    ChosenOne(fs, s, false, b);
    ChosenOne(fs, s, true, b);
    CloseExtends(fs, b, 0);
    OneMore(fs, b, Added(fs, s, false), Added(fs, s, true));
  }

  function With(b: seq<nat>, x: Option<nat>): seq<nat> {
    if x.None? then b else b + [x.value]
  }

  lemma ChosenOne(fs: seq<string>, s: string, blank: bool, b: seq<nat>)
    requires s != "" && b == AppendAll([], Before(fs, s, 0, false))
    ensures Chosen(fs, s, blank, false) == With(b, Added(fs, s, blank))
  {
    var q := LastStart(s, 0);
    AtMostOne(fs, s, q, RangeEnd(s, q, blank));
    AppendOne(b, LastFolders(fs, s, blank, false));
  }

  lemma AppendOne(b: seq<nat>, r: seq<nat>)
    requires |r| <= 1
    ensures AppendAll(b, r) == With(b, if r == [] || r[0] in b then None else Some(r[0]))
  {
    if r != [] {
      assert r[1..] == [];
    }
  }

  lemma {:induction false} AtMostOne(fs: seq<string>, s: string, p: nat, back: nat)
    requires p <= back <= |s|
    ensures |InRange(fs, s, p, back, false)| <= 1
    decreases back
  {
    if back > p {
      AtMostOne(fs, s, p, NextBack(s, p, back));
    }
  }

  lemma OneMore(fs: seq<string>, b: seq<nat>, x: Option<nat>, y: Option<nat>)
    requires Proper(fs, b) && Proper(fs, With(b, x)) && Proper(fs, With(b, y)) && b <= Close(fs, b, 0)
    ensures var l, m, next := With(b, x), With(b, y), FirstNew(fs, b, 0);
            l <= m <= Close(fs, l, 0) || m <= l <= Close(fs, m, 0) <==>
              x == y || (x.None? && y == next) || (y.None? && x == next)
  {
    CloseExtends(fs, With(b, x), 0);
    CloseExtends(fs, With(b, y), 0);
    if x.Some? {
      FirstAppended(fs, b, 0, x.value);
      assert (b + [x.value])[|b|] == x.value;
    }
    if y.Some? {
      FirstAppended(fs, b, 0, y.value);
      assert (b + [y.value])[|b|] == y.value;
    }
  }

  // ----- with the immediate flag

  /** The folder of a whole range, if its text is looked up at all. */
  function Whole(fs: seq<string>, s: string, q: nat, end: nat): (r: Option<nat>)
    requires q <= end <= |s|
    ensures r.Some? ==> r.value < |fs|
  {
    if end == q then None else Find(fs, s[q..end])
  }

  /** The folders of the shorter prefixes. */
  function Shorter(fs: seq<string>, s: string, q: nat, end: nat): (r: seq<nat>)
    requires q <= end <= |s|
    ensures forall f :: f in r ==> f < |fs|
  {
    if end == q then [] else InRange(fs, s, q, NextBack(s, q, end), true)
  }

  function Opt(x: Option<nat>): seq<nat> {
    if x.None? then [] else [x.value]
  }

  lemma WholeFirst(fs: seq<string>, s: string, q: nat, end: nat)
    requires q <= end <= |s|
    ensures InRange(fs, s, q, end, true) == Opt(Whole(fs, s, q, end)) + Shorter(fs, s, q, end)
  {
  }

  /** The folder of the range cut short by one character, unless that is one of the
      shorter prefixes of the whole one. */
  function CutShort(fs: seq<string>, s: string, q: nat, end: nat, cut: nat): (r: Option<nat>)
    requires q <= end <= |s| && q <= cut && (cut == end || cut + 1 == end)
    ensures r.Some? ==> r.value < |fs|
  {
    if cut < end && NextBack(s, q, end) == cut then None else Whole(fs, s, q, cut)
  }

  /** Cut short or not, the shorter prefixes are the same. */
  lemma SameShorter(fs: seq<string>, s: string, q: nat, end: nat, cut: nat)
    requires q <= end <= |s| && q <= cut && (cut == end || cut + 1 == end)
    ensures InRange(fs, s, q, cut, true) == Opt(CutShort(fs, s, q, end, cut)) + Shorter(fs, s, q, end)
  {
    if cut == end {
      WholeFirst(fs, s, q, end);
    } else if NextBack(s, q, end) == cut {
      var r := InRange(fs, s, q, cut, true);
      assert [] + r == r;
    } else {
      WholeFirst(fs, s, q, cut);
      ShorterAlike(fs, s, q, end, cut);
    }
  }

  lemma ShorterAlike(fs: seq<string>, s: string, q: nat, end: nat, cut: nat)
    requires q <= cut && cut + 1 == end <= |s| && NextBack(s, q, end) != cut
    ensures Shorter(fs, s, q, cut) == Shorter(fs, s, q, end)
  {
    var next := NextBack(s, q, end);
    assert q <= next < end;
    NextAlike(s, q, end);
    ShorterIs(fs, s, q, end, next);
    ShorterIs(fs, s, q, cut, next);
  }

  lemma ShorterIs(fs: seq<string>, s: string, q: nat, end: nat, next: nat)
    requires q < end <= |s| && next == NextBack(s, q, end)
    ensures Shorter(fs, s, q, end) == InRange(fs, s, q, next, true)
  {
  }

  lemma NextAlike(s: string, q: nat, end: nat)
    requires q + 1 < end <= |s| && NextBack(s, q, end) != end - 1
    ensures NextBack(s, q, end) == NextBack(s, q, end - 1)
  {
    if s[end - 1] == '-' {
      assert PrevDash(s, q, end) == end - 1;
      assert s[end - 2] == '-';
    }
  }

  /** A whole range leads to no folder of a shorter prefix. */
  lemma {:induction false} ShorterNames(fs: seq<string>, s: string, p: nat, back: nat, f: nat)
    requires p <= back <= |s| && f in InRange(fs, s, p, back, true)
    ensures f < |fs| && |fs[f]| <= back - p
    decreases back
  {
    if back > p {
      var g := Find(fs, s[p..back]);
      BisectRight(fs, s[p..back], 0, |fs|);
      assert g.Some? ==> |Low(fs[g.value])| == |Low(s[p..back])|;
      if !(g.Some? && g.value == f) {
        ShorterNames(fs, s, p, NextBack(s, p, back), f);
      }
    }
  }

  lemma NotShorter(fs: seq<string>, s: string, q: nat, end: nat, cut: nat)
    requires q <= end <= |s| && q <= cut && (cut == end || cut + 1 == end)
    ensures Whole(fs, s, q, end).Some? ==> Whole(fs, s, q, end).value !in Shorter(fs, s, q, end)
    ensures CutShort(fs, s, q, end, cut).Some? ==> CutShort(fs, s, q, end, cut).value !in Shorter(fs, s, q, end)
  {
    forall e: nat | q < e <= end && NextBack(s, q, end) < e && Find(fs, s[q..e]).Some?
      ensures Find(fs, s[q..e]).value !in Shorter(fs, s, q, end)
    {
      var f := Find(fs, s[q..e]).value;
      BisectRight(fs, s[q..e], 0, |fs|);
      assert |Low(fs[f])| == |Low(s[q..e])|;
      if f in Shorter(fs, s, q, end) {
        ShorterNames(fs, s, q, NextBack(s, q, end), f);
      }
    }
  }

  function New(b: seq<nat>, x: Option<nat>): Option<nat> {
    if x.None? || x.value in b then None else x
  }

  /** Two lists that differ in one folder before the common ones. */
  lemma OneBefore(fs: seq<string>, b: seq<nat>, x: Option<nat>, y: Option<nat>, d: seq<nat>)
    requires Proper(fs, b) && forall f :: f in d ==> f < |fs|
    requires (x.Some? ==> x.value < |fs| && x.value !in d) && (y.Some? ==> y.value < |fs| && y.value !in d)
    ensures var l, m := AppendAll(b, Opt(x) + d), AppendAll(b, Opt(y) + d);
            && Proper(fs, l) && Proper(fs, m)
            && (Close(fs, l, 0) == Close(fs, m, 0) <==>
                  var u, v, next := New(b, x), New(b, y), FirstNew(fs, b, 0);
                  u == v || ((forall f :: f in d ==> f in b) && ((u.None? && v == next) || (v.None? && u == next))))
  {
    var u, v := New(b, x), New(b, y);
    AppendOpt(fs, b, x, d);
    AppendOpt(fs, b, y, d);
    var l, m := AppendAll(With(b, u), d), AppendAll(With(b, v), d);
    CloseAlike(fs, l, m);
    CloseExtends(fs, b, 0);
    CloseExtends(fs, l, 0);
    CloseExtends(fs, m, 0);
    if forall f :: f in d ==> f in b {
      NothingNew(With(b, u), d);
      NothingNew(With(b, v), d);
      OneMore(fs, b, u, v);
    } else if u != v {
      FirstOfRest(fs, b, u, v, d);
    }
  }

  lemma AppendOpt(fs: seq<string>, b: seq<nat>, x: Option<nat>, d: seq<nat>)
    requires Proper(fs, b) && (x.Some? ==> x.value < |fs|) && forall f :: f in d ==> f < |fs|
    ensures Proper(fs, With(b, New(b, x))) && AppendAll(b, Opt(x) + d) == AppendAll(With(b, New(b, x)), d)
    ensures Proper(fs, AppendAll(b, Opt(x) + d)) && With(b, New(b, x)) <= AppendAll(With(b, New(b, x)), d)
  {
    AppendTwo(b, Opt(x), d);
    AppendOne(b, Opt(x));
    if New(b, x).Some? {
      ProperMore(fs, b, x.value);
    }
    AppendAllProper(fs, With(b, New(b, x)), d);
  }

  lemma {:induction false} NothingNew(l: seq<nat>, d: seq<nat>)
    requires forall f :: f in d ==> f in l
    ensures AppendAll(l, d) == l
    decreases |d|
  {
    if d != [] {
      assert d[0] in d && forall f :: f in d[1..] ==> f in d;
      NothingNew(l, d[1..]);
    }
  }

  /** With something new in the common folders, the lists differ behind `b`. */
  lemma FirstOfRest(fs: seq<string>, b: seq<nat>, u: Option<nat>, v: Option<nat>, d: seq<nat>)
    requires Proper(fs, With(b, u)) && Proper(fs, With(b, v)) && forall f :: f in d ==> f < |fs|
    requires u != v && (u.Some? ==> u.value !in d) && (v.Some? ==> v.value !in d)
    requires exists f :: f in d && f !in b
    ensures |AppendAll(With(b, u), d)| > |b| && |AppendAll(With(b, v), d)| > |b|
    ensures AppendAll(With(b, u), d)[|b|] != AppendAll(With(b, v), d)[|b|]
  {
    Behind(fs, b, u, d);
    Behind(fs, b, v, d);
  }

  /** What comes behind `b`: the folder added, or one of the common ones. */
  lemma Behind(fs: seq<string>, b: seq<nat>, u: Option<nat>, d: seq<nat>)
    requires Proper(fs, With(b, u)) && (forall f :: f in d ==> f < |fs|) && exists f :: f in d && f !in b
    ensures |AppendAll(With(b, u), d)| > |b|
    ensures if u.Some? then AppendAll(With(b, u), d)[|b|] == u.value else AppendAll(With(b, u), d)[|b|] in d
  {
    var l := AppendAll(With(b, u), d);
    AppendAllProper(fs, With(b, u), d);
    if u.Some? {
      assert With(b, u)[|b|] == u.value;
    } else {
      var f :| f in d && f !in b;
      assert f in l && b <= l;
      assert |l| == |b| ==> l == b;
      assert l[|b|] in l;
      assert l[|b|] !in b;
    }
  }

  /** With the immediate flag, by the folders: the last range and the one cut short add the
      same folder before their common shorter prefixes, or none; or these prefixes add
      nothing, one of the two adds what is the next parent anyway, and the other nothing. */
  lemma BlankHarmlessAll(fs: seq<string>, s: string)
    requires s != "" && !Cut(s[|s| - 1])
    ensures var q := LastStart(s, 0);
            var end, cut := RangeEnd(s, q, false), RangeEnd(s, q, true);
            var b := AppendAll([], Before(fs, s, 0, true));
            && q <= cut && (cut == end || cut + 1 == end) && Proper(fs, b)
            && (CreateSearch(fs, s, true, true) == CreateSearch(fs, s, false, true) <==>
                  var u, v, next := New(b, Whole(fs, s, q, end)), New(b, CutShort(fs, s, q, end, cut)),
                      FirstNew(fs, b, 0);
                  || u == v
                  || ((forall f :: f in Shorter(fs, s, q, end) ==> f in b)
                      && ((u.None? && v == next) || (v.None? && u == next))))
  {
    var q := LastStart(s, 0);
    LastEnd(s, q);
    var end, cut := RangeEnd(s, q, false), RangeEnd(s, q, true);
    var b := AppendAll([], Before(fs, s, 0, true));
    AppendAllProper(fs, [], Before(fs, s, 0, true));
    WholeFirst(fs, s, q, end);
    SameShorter(fs, s, q, end, cut);
    NotShorter(fs, s, q, end, cut);
    SearchIsClosed(fs, s, true, true);
    SearchIsClosed(fs, s, false, true);
    OneBefore(fs, b, Whole(fs, s, q, end), CutShort(fs, s, q, end, cut), Shorter(fs, s, q, end));
  }

  // ----- over all containers

  /** A semicolon in the last range keeps the blank away from it. */
  lemma SemicolonHarmless(fs: seq<string>, s: string, immediate: bool)
    requires Trimmed(s) && ';' in LastRange(s)
    ensures CreateSearch(fs, s, true, immediate) == CreateSearch(fs, s, false, immediate)
  {
    LastEnd(s, LastStart(s, 0));
    SearchIsClosed(fs, s, true, immediate);
    SearchIsClosed(fs, s, false, immediate);
  }

  /** One folder, named as the last range, when no range before it leads there. */
  lemma OwnFolderHarms(s: string, immediate: bool)
    requires Trimmed(s) && ';' !in LastRange(s) && Before([LastRange(s)], s, 0, immediate) == []
    ensures CreateSearch([LastRange(s)], s, true, immediate) != CreateSearch([LastRange(s)], s, false, immediate)
  {
    var fs := [LastRange(s)];
    OwnFolders(s, immediate);
    OwnChosen(fs, s, immediate);
    SearchIsClosed(fs, s, true, immediate);
    SearchIsClosed(fs, s, false, immediate);
    SomeLeft(fs, Chosen(fs, s, false, immediate));
  }

  lemma SomeLeft(fs: seq<string>, l: seq<nat>)
    requires Proper(fs, l) && l != []
    ensures Close(fs, l, 0) != Close(fs, [], 0)
  {
    CloseExtends(fs, l, 0);
  }

  lemma OwnFolders(s: string, immediate: bool)
    requires Trimmed(s) && ';' !in LastRange(s)
    ensures LastFolders([LastRange(s)], s, true, immediate) == [] &&
            LastFolders([LastRange(s)], s, false, immediate) != []
  {
    var t, q := LastRange(s), LastStart(s, 0);
    LastEnd(s, q);
    assert s[q..|s|] == t;
    OnlyFolder(t, t);
    NoFolder(s, q, |s| - 1, t, immediate);
  }

  lemma OwnChosen(fs: seq<string>, s: string, immediate: bool)
    requires s != "" && Before(fs, s, 0, immediate) == []
    requires LastFolders(fs, s, true, immediate) == []
    requires LastFolders(fs, s, false, immediate) != []
    ensures Chosen(fs, s, true, immediate) == [] && Chosen(fs, s, false, immediate) != []
  {
    var r := LastFolders(fs, s, false, immediate);
    AppendAllProper(fs, [], r);
    assert r[0] in r;
  }

  lemma OnlyFolder(t: string, x: string)
    ensures Find([t], x) == if Same(t, x) then Some(0) else None
  {
    CmpPrefix(t, x);
    var fs := [t];
    assert Bisect(fs, x, 0, 0) == None && Bisect(fs, x, 1, 1) == None;
  }

  /** Shorter texts do not lead to it. */
  lemma {:induction false} NoFolder(s: string, p: nat, back: nat, t: string, immediate: bool)
    requires p <= back <= |s| && back - p < |t|
    ensures InRange([t], s, p, back, immediate) == []
    decreases back
  {
    if back > p {
      OnlyFolder(t, s[p..back]);
      assert |Low(t)| == |t| && |Low(s[p..back])| == back - p;
      NoFolder(s, p, NextBack(s, p, back), t, immediate);
    }
  }

  /** A range text is safe from blanks in every definition that ends with it, in every
      container, if and only if it has a semicolon. */
  lemma SafeRangeIff(t: string, immediate: bool)
    requires Trimmed(t) && ',' !in t
    ensures (forall fs, s :: Sorted(fs) && Trimmed(s) && LastRange(s) == t ==>
               CreateSearch(fs, s, true, immediate) == CreateSearch(fs, s, false, immediate))
            <==> ';' in t
  {
    if ';' in t {
      forall fs, s | Sorted(fs) && Trimmed(s) && LastRange(s) == t
        ensures CreateSearch(fs, s, true, immediate) == CreateSearch(fs, s, false, immediate)
      {
        SemicolonHarmless(fs, s, immediate);
      }
    } else {
      OneRange(t);
      OwnFolderHarms(t, immediate);
      var fs := [t];
      assert Sorted(fs) && CreateSearch(fs, t, true, immediate) != CreateSearch(fs, t, false, immediate);
    }
  }

  /** A definition without commas has one range. */
  lemma OneRange(t: string)
    requires t != "" && ',' !in t
    ensures NextRange(t, 0) == |t| && LastRange(t) == t
    ensures forall fs: seq<string>, immediate: bool :: Before(fs, t, 0, immediate) == []
  {
    var stop := Stop(t, 0);
    assert forall c :: c in t[stop..] ==> c in t;
    CommaAt(t, stop);
    assert t[0..] == t;
  }

  /** A definition whose other ranges never look up the text of its last one, such as one
      of a single range, is safe in every container if and only if its last range has a
      semicolon. */
  lemma SafeDefinitionIff(s: string, immediate: bool)
    requires Trimmed(s) && Before([LastRange(s)], s, 0, immediate) == []
    ensures (forall fs :: Sorted(fs) ==>
               CreateSearch(fs, s, true, immediate) == CreateSearch(fs, s, false, immediate))
            <==> ';' in LastRange(s)
  {
    if ';' in LastRange(s) {
      forall fs | Sorted(fs)
        ensures CreateSearch(fs, s, true, immediate) == CreateSearch(fs, s, false, immediate)
      {
        SemicolonHarmless(fs, s, immediate);
      }
    } else {
      OwnFolderHarms(s, immediate);
      var fs := [LastRange(s)];
      assert Sorted(fs) && CreateSearch(fs, s, true, immediate) != CreateSearch(fs, s, false, immediate);
    }
  }

  // ----- the cache

  /** Case makes no difference, with or without a blank behind. */
  lemma SearchAlikeBlank(fs: seq<string>, a: string, b: string, blank: bool, immediate: bool)
    requires Same(a, b) && (blank ==> Trimmed(a) && Trimmed(b))
    ensures CreateSearch(fs, a, blank, immediate) == CreateSearch(fs, b, blank, immediate)
  {
    if blank {
      var x, y := a[..|a| - 1], b[..|b| - 1];
      WantedWithout(fs, a, x, 0, immediate);
      WantedWithout(fs, b, y, 0, immediate);
      SameIsAlike(a, b);
      SameIsAlike(x, y);
      SearchAlike(fs, x, y, immediate);
    } else {
      SearchAlike(fs, a, b, immediate);
    }
  }

  /** For each slot, whether a blank was behind the definition it was made for. */
  function Flags(fs: seq<string>, ds: seq<string>, immediate: bool): (r: seq<bool>)
    ensures |r| == LRU_COUNT
  {
    if ds == [] then [false, false, false]
    else
      var before, d := ds[..|ds| - 1], ds[|ds| - 1];
      var flags, k := Flags(fs, before, immediate), Hit(After(fs, before, immediate), Normal(d));
      if k < LRU_COUNT then [flags[k]] + flags[..k] + flags[k + 1..] else [BlankBehind(d)] + flags[..LRU_COUNT - 1]
  }

  /** Each slot has the list made for its own definition and flag. */
  ghost predicate Origins(fs: seq<string>, lru: seq<Slot>, flags: seq<bool>, immediate: bool)
    requires |lru| == |flags|
  {
    forall i :: 0 <= i < |lru| && lru[i].Slot? ==> MadeFor(fs, lru[i], flags[i], immediate)
  }

  predicate MadeFor(fs: seq<string>, x: Slot, blank: bool, immediate: bool)
    requires x.Slot?
  {
    (blank ==> Trimmed(x.definition)) && x.list == CreateSearch(fs, x.definition, blank, immediate)
  }

  lemma BlankTrimmed(d: string)
    ensures BlankBehind(d) ==> Trimmed(Normal(d))
  {
    NormalTrimmed(d);
  }

  lemma FrontAt<T>(s: seq<T>, k: nat, x: T, r: seq<T>)
    requires k < |s| && r == [x] + s[..k] + s[k + 1..]
    ensures |r| == |s| && r[0] == x && forall i :: 0 < i < |r| ==> r[i] == s[if i <= k then i - 1 else i]
  {
  }

  lemma FrontOrigins(fs: seq<string>, lru: seq<Slot>, flags: seq<bool>, k: nat, x: Slot, flag: bool, immediate: bool)
    requires |lru| == |flags| && k < |lru| && Origins(fs, lru, flags, immediate)
    requires x.Slot? && MadeFor(fs, x, flag, immediate)
    ensures Origins(fs, ToFront(lru, k, x), [flag] + flags[..k] + flags[k + 1..], immediate)
  {
    var r, g := ToFront(lru, k, x), [flag] + flags[..k] + flags[k + 1..];
    FrontAt(lru, k, x, r);
    FrontAt(flags, k, flag, g);
  }

  lemma {:induction false} AfterOrigins(fs: seq<string>, ds: seq<string>, immediate: bool)
    ensures Origins(fs, After(fs, ds, immediate), Flags(fs, ds, immediate), immediate)
  {
    if ds != [] {
      var before, d := ds[..|ds| - 1], ds[|ds| - 1];
      var lru, flags, s := After(fs, before, immediate), Flags(fs, before, immediate), Normal(d);
      AfterOrigins(fs, before, immediate);
      BlankTrimmed(d);
      var k := Hit(lru, s);
      if k < LRU_COUNT {
        FrontOrigins(fs, lru, flags, k, lru[k], flags[k], immediate);
      } else {
        FrontOrigins(fs, lru, flags, LRU_COUNT - 1, Slot(s, CreateSearch(fs, s, BlankBehind(d), immediate)),
            BlankBehind(d), immediate);
        assert flags[LRU_COUNT - 1 + 1..] == [];
      }
    }
  }

  /** After any calls with the same flag, blanks or not, the list found for `d` is the one
      a fresh create_search would give, if and only if it is not cached, or was made
      with a blank behind just as `d` has one, or the blank is harmless. */
  lemma CacheAgreesIff(fs: seq<string>, ds: seq<string>, d: string, immediate: bool)
    ensures var lru, s, blank := After(fs, ds, immediate), Normal(d), BlankBehind(d);
            var k := Hit(lru, s);
            Found(fs, lru, s, blank, immediate).list == CreateSearch(fs, s, blank, immediate) <==>
              k == LRU_COUNT || Flags(fs, ds, immediate)[k] == blank || (s != "" && Harmless(fs, s, immediate))
  {
    var lru, s, blank := After(fs, ds, immediate), Normal(d), BlankBehind(d);
    var k := Hit(lru, s);
    AfterOrigins(fs, ds, immediate);
    if k < LRU_COUNT {
      BlankTrimmed(d);
      NormalTrimmed(d);
      SlotAgreesIff(fs, lru[k], Flags(fs, ds, immediate)[k], s, blank, immediate);
    }
  }

  lemma SlotAgreesIff(fs: seq<string>, x: Slot, flag: bool, s: string, blank: bool, immediate: bool)
    requires x.Slot? && Same(x.definition, s) && MadeFor(fs, x, flag, immediate)
    requires (blank ==> Trimmed(s)) && (s != "" ==> Trimmed(s))
    ensures x.list == CreateSearch(fs, s, blank, immediate) <==>
            flag == blank || (s != "" && Harmless(fs, s, immediate))
  {
    SameTrimmed(x.definition, s);
    SearchAlikeBlank(fs, x.definition, s, flag, immediate);
    if s != "" {
      BlankHarmlessIff(fs, s, immediate);
    }
  }

  lemma SameTrimmed(a: string, b: string)
    requires Same(a, b)
    ensures Trimmed(a) <==> Trimmed(b)
    ensures a == "" <==> b == ""
  {
    SameIsAlike(a, b);
  }
}

/** The cache of search lists, locale_root_search of src/locale-root.c. */
module LocaleLru {
  import opened LocaleNames
  import opened LocaleSearch

  const LRU_COUNT := 3

  // ----- case does not matter to a search list

  /** Characters that differ in nothing but case are the same separator. */
  predicate Alike(a: string, b: string) {
    |a| == |b| && forall i :: 0 <= i < |a| ==> Lower(a[i]) == Lower(b[i])
  }

  lemma SameIsAlike(a: string, b: string)
    ensures Same(a, b) <==> Alike(a, b)
  {
    assert |Low(a)| == |a| && |Low(b)| == |b|;
    if Same(a, b) {
      forall i | 0 <= i < |a|
        ensures Lower(a[i]) == Lower(b[i])
      {
        assert Low(a)[i] == Low(b)[i];
      }
    }
    if Alike(a, b) {
      assert Low(a) == Low(b);
    }
  }

  lemma {:induction false} StopAlike(a: string, b: string, p: nat)
    requires Alike(a, b) && p <= |a|
    ensures Stop(a, p) == Stop(b, p)
    decreases |a| - p
  {
    if p < |a| {
      StopAlike(a, b, p + 1);
    }
  }

  lemma {:induction false} BackAlike(a: string, b: string, p: nat, back: nat)
    requires Alike(a, b) && p <= back <= |a|
    ensures p < back ==> PrevDash(a, p, back) == PrevDash(b, p, back)
    ensures back < |a| ==> SkipDashes(a, p, back) == SkipDashes(b, p, back)
    decreases back
  {
    if back > p {
      BackAlike(a, b, p, back - 1);
    }
  }

  lemma {:induction false} InRangeAlike(fs: seq<string>, a: string, b: string, p: nat, back: nat, immediate: bool)
    requires Alike(a, b) && p <= back <= |a|
    ensures InRange(fs, a, p, back, immediate) == InRange(fs, b, p, back, immediate)
    decreases back
  {
    if back > p {
      SameIsAlike(a[p..back], b[p..back]);
      BisectLow(fs, a[p..back], b[p..back], 0, |fs|);
      BackAlike(a, b, p, back);
      BackAlike(a, b, p, PrevDash(a, p, back));
      InRangeAlike(fs, a, b, p, NextBack(a, p, back), immediate);
    }
  }

  lemma {:induction false} SeparatorsAlike(a: string, b: string, p: nat)
    requires Alike(a, b) && p <= |a|
    ensures ToComma(a, p) == ToComma(b, p) && SkipSeparators(a, p) == SkipSeparators(b, p)
    decreases |a| - p
  {
    if p < |a| {
      SeparatorsAlike(a, b, p + 1);
    }
  }

  lemma {:induction false} WantedAlike(fs: seq<string>, a: string, b: string, p: nat, immediate: bool)
    requires Alike(a, b) && p <= |a|
    ensures Wanted(fs, a, p, false, immediate) == Wanted(fs, b, p, false, immediate)
    decreases |a| - p
  {
    if p < |a| {
      StopAlike(a, b, p);
      InRangeAlike(fs, a, b, p, Stop(a, p), immediate);
      SeparatorsAlike(a, b, Stop(a, p));
      SeparatorsAlike(a, b, ToComma(a, Stop(a, p)));
      WantedAlike(fs, a, b, NextRange(a, p), immediate);
    }
  }

  lemma SearchAlike(fs: seq<string>, a: string, b: string, immediate: bool)
    requires Same(a, b)
    ensures CreateSearch(fs, a, false, immediate) == CreateSearch(fs, b, false, immediate)
  {
    SameIsAlike(a, b);
    WantedAlike(fs, a, b, 0, immediate);
  }

  // ----- normalisation of the definition

  predicate Cut(c: char) {
    Blank(c) || c == ','
  }

  function SkipCut(d: string, p: nat): (q: nat)
    requires p <= |d|
    ensures p <= q <= |d| && (q < |d| ==> !Cut(d[q]))
    decreases |d| - p
  {
    if p < |d| && Cut(d[p]) then SkipCut(d, p + 1) else p
  }

  function CutBack(d: string, p: nat, n: nat): (q: nat)
    requires p <= n <= |d|
    ensures p <= q <= n && (q > p ==> !Cut(d[q - 1]))
    decreases n
  {
    if n > p && Cut(d[n - 1]) then CutBack(d, p, n - 1) else n
  }

  /** The definition without blanks and commas at its ends. */
  function Normal(d: string): string {
    d[SkipCut(d, 0)..CutBack(d, SkipCut(d, 0), |d|)]
  }

  /** Was a blank cut off just behind it? */
  predicate BlankBehind(d: string) {
    var n := CutBack(d, SkipCut(d, 0), |d|);
    n < |d| && Blank(d[n])
  }

  // ----- the cache as a sequence of slots

  datatype Slot = Empty | Slot(definition: string, list: seq<nat>)

  predicate Matches(x: Slot, s: string) {
    x.Slot? && Same(x.definition, s)
  }

  /** The first slot for the definition, or the number of slots. */
  function Hit(lru: seq<Slot>, s: string): (k: nat)
    ensures k <= |lru| && (k < |lru| ==> Matches(lru[k], s))
    ensures forall i :: 0 <= i < k ==> !Matches(lru[i], s)
  {
    if lru == [] then 0 else if Matches(lru[0], s) then 0 else 1 + Hit(lru[1..], s)
  }

  /** Slot `k` moves to the front, those before it one place back. */
  function ToFront(lru: seq<Slot>, k: nat, x: Slot): seq<Slot>
    requires k < |lru|
  {
    [x] + lru[..k] + lru[k + 1..]
  }

  /** The search list for the definition, and the cache after it. */
  function Found(fs: seq<string>, lru: seq<Slot>, s: string, blank: bool, immediate: bool): Slot {
    var k := Hit(lru, s);
    if k < |lru| then lru[k] else Slot(s, CreateSearch(fs, s, blank, immediate))
  }

  function Touch(fs: seq<string>, lru: seq<Slot>, s: string, blank: bool, immediate: bool): (r: seq<Slot>)
    requires |lru| == LRU_COUNT
    ensures |r| == LRU_COUNT
  {
    var k := Hit(lru, s);
    ToFront(lru, if k < |lru| then k else LRU_COUNT - 1, Found(fs, lru, s, blank, immediate))
  }

  const NO_SLOTS: seq<Slot> := [Empty, Empty, Empty]

  /** The cache after the calls with the definitions `ds`, the last one last. */
  function After(fs: seq<string>, ds: seq<string>, immediate: bool): (r: seq<Slot>)
    ensures |r| == LRU_COUNT
  {
    if ds == [] then NO_SLOTS
    else
      var d := ds[|ds| - 1];
      Touch(fs, After(fs, ds[..|ds| - 1], immediate), Normal(d), BlankBehind(d), immediate)
  }

  // ----- every cached list is the one that would be made now

  ghost predicate Faithful(fs: seq<string>, lru: seq<Slot>, immediate: bool) {
    forall i :: 0 <= i < |lru| && lru[i].Slot? ==> lru[i].list == CreateSearch(fs, lru[i].definition, false, immediate)
  }

  lemma FoundIsFresh(fs: seq<string>, lru: seq<Slot>, s: string, immediate: bool)
    requires Faithful(fs, lru, immediate)
    ensures Found(fs, lru, s, false, immediate).list == CreateSearch(fs, s, false, immediate)
    ensures Found(fs, lru, s, false, immediate).list ==
            CreateSearch(fs, Found(fs, lru, s, false, immediate).definition, false, immediate)
  {
    var k := Hit(lru, s);
    if k < |lru| {
      SearchAlike(fs, lru[k].definition, s, immediate);
    }
  }

  lemma TouchFaithful(fs: seq<string>, lru: seq<Slot>, s: string, immediate: bool)
    requires |lru| == LRU_COUNT && Faithful(fs, lru, immediate)
    ensures Faithful(fs, Touch(fs, lru, s, false, immediate), immediate)
  {
    FoundIsFresh(fs, lru, s, immediate);
    var k := Hit(lru, s);
    FrontFaithful(fs, lru, if k < |lru| then k else LRU_COUNT - 1, Found(fs, lru, s, false, immediate), immediate);
  }

  lemma FrontFaithful(fs: seq<string>, lru: seq<Slot>, j: nat, x: Slot, immediate: bool)
    requires Faithful(fs, lru, immediate) && j < |lru| && x.Slot?
    requires x.list == CreateSearch(fs, x.definition, false, immediate)
    ensures Faithful(fs, ToFront(lru, j, x), immediate)
  {
    var r := ToFront(lru, j, x);
    forall i | 0 <= i < |r| && r[i].Slot?
      ensures r[i].list == CreateSearch(fs, r[i].definition, false, immediate)
    {
      assert i > 0 ==> r[i] == lru[if i <= j then i - 1 else i];
    }
  }

  lemma {:induction false} AfterFaithful(fs: seq<string>, ds: seq<string>, immediate: bool)
    requires forall i :: 0 <= i < |ds| ==> !BlankBehind(ds[i])
    ensures Faithful(fs, After(fs, ds, immediate), immediate)
  {
    if ds != [] {
      AfterFaithful(fs, ds[..|ds| - 1], immediate);
      TouchFaithful(fs, After(fs, ds[..|ds| - 1], immediate), Normal(ds[|ds| - 1]), immediate);
    }
  }

  /** Over any sequence of calls with the same flag and no blanks cut off behind the
      definitions, a search gives the list that would be made without a cache. */
  lemma CacheAgrees(fs: seq<string>, ds: seq<string>, d: string, immediate: bool)
    requires !BlankBehind(d) && forall i :: 0 <= i < |ds| ==> !BlankBehind(ds[i])
    ensures Found(fs, After(fs, ds, immediate), Normal(d), false, immediate).list ==
            CreateSearch(fs, Normal(d), false, immediate)
  {
    AfterFaithful(fs, ds, immediate);
    FoundIsFresh(fs, After(fs, ds, immediate), Normal(d), immediate);
  }

  // ----- the slots are the last three definitions, latest first

  /** `ks` without `k`. */
  function Less(ks: seq<string>, k: string): seq<string> {
    if ks == [] then [] else (if ks[0] == k then [] else [ks[0]]) + Less(ks[1..], k)
  }

  /** The definitions of the calls, case set aside, each once, the latest first. */
  function Recent(ds: seq<string>): seq<string> {
    if ds == [] then []
    else
      var k := Low(Normal(ds[|ds| - 1]));
      [k] + Less(Recent(ds[..|ds| - 1]), k)
  }

  function Take(ks: seq<string>, n: nat): seq<string> {
    if |ks| <= n then ks else ks[..n]
  }

  /** The keys of the slots, up to the first empty one. */
  function Keys(lru: seq<Slot>): seq<string> {
    if lru == [] || lru[0].Empty? then [] else [Low(lru[0].definition)] + Keys(lru[1..])
  }

  ghost predicate Distinct(ks: seq<string>) {
    forall i, j :: 0 <= i < j < |ks| ==> ks[i] != ks[j]
  }

  /** Empty slots are behind the others. */
  ghost predicate Dense(lru: seq<Slot>) {
    forall i, j :: 0 <= i < j < |lru| && lru[i].Empty? ==> lru[j].Empty?
  }

  lemma {:induction false} LessAbsent(ks: seq<string>, k: string)
    requires k !in ks
    ensures Less(ks, k) == ks
  {
    if ks != [] {
      assert ks[0] in ks && forall x :: x in ks[1..] ==> x in ks;
      LessAbsent(ks[1..], k);
      assert ks == [ks[0]] + ks[1..];
    }
  }

  lemma {:induction false} LessAt(ks: seq<string>, i: nat)
    requires i < |ks| && Distinct(ks)
    ensures Less(ks, ks[i]) == ks[..i] + ks[i + 1..]
  {
    if i == 0 {
      assert ks[0] !in ks[1..];
      LessAbsent(ks[1..], ks[0]);
    } else {
      LessAt(ks[1..], i - 1);
      assert ks[..i] == [ks[0]] + ks[1..][..i - 1];
      assert ks[1..][i..] == ks[i + 1..];
    }
  }

  /** What is left when a key is taken out of distinct ones. */
  lemma LessDistinct(ks: seq<string>, k: string)
    requires Distinct(ks)
    ensures Distinct([k] + Less(ks, k))
  {
    if k in ks {
      var i :| 0 <= i < |ks| && ks[i] == k;
      LessAt(ks, i);
    } else {
      LessAbsent(ks, k);
    }
  }

  /** Keys behind the first three make no difference to the first three. */
  lemma TakeFirst(ks: seq<string>, k: string)
    requires Distinct(ks)
    ensures Take([k] + Less(Take(ks, 3), k), 3) == Take([k] + Less(ks, k), 3)
  {
    var t := Take(ks, 3);
    if k in ks {
      var i :| 0 <= i < |ks| && ks[i] == k;
      LessAt(ks, i);
      if i < |t| {
        LessAt(t, i);
      } else {
        LessAbsent(t, k);
      }
    } else {
      LessAbsent(ks, k);
      LessAbsent(t, k);
    }
  }

  lemma {:induction false} KeysAt(lru: seq<Slot>)
    requires Dense(lru)
    ensures |Keys(lru)| <= |lru|
    ensures forall i :: 0 <= i < |lru| ==> (lru[i].Slot? <==> i < |Keys(lru)|)
    ensures forall i :: 0 <= i < |Keys(lru)| ==> Keys(lru)[i] == Low(lru[i].definition)
  {
    if lru != [] && lru[0].Slot? {
      KeysAt(lru[1..]);
      assert forall i :: 1 <= i < |lru| ==> lru[i] == lru[1..][i - 1];
    }
  }

  lemma FrontDense(lru: seq<Slot>, j: nat, x: Slot)
    requires j < |lru| && Dense(lru) && x.Slot?
    requires lru[j].Slot? || j == |lru| - 1
    ensures Dense(ToFront(lru, j, x))
  {
    var r := ToFront(lru, j, x);
    assert forall i :: 1 <= i < |r| ==> r[i] == lru[if i <= j then i - 1 else i];
  }

  /** A slot put in front: its key comes first, and no other one is lost but the last. */
  lemma FrontKeys(lru: seq<Slot>, j: nat, x: Slot, ks: seq<string>)
    requires j < |lru| && Dense(lru) && x.Slot? && ks == Keys(lru) && Distinct(ks)
    requires if j < |ks| then ks[j] == Low(x.definition) || (j == |lru| - 1 && Low(x.definition) !in ks)
             else j == |lru| - 1 && Low(x.definition) !in ks
    ensures Keys(ToFront(lru, j, x)) == Take([Low(x.definition)] + Less(ks, Low(x.definition)), |lru|)
  {
    var key := Low(x.definition);
    var r := ToFront(lru, j, x);
    KeysAt(lru);
    FrontDense(lru, j, x);
    KeysAt(r);
    FrontLength(lru, j, x);
    var rs := Keys(r);
    forall i | 1 <= i < |rs|
      ensures rs[i] == ks[if i <= j then i - 1 else i]
    {
      assert r[i] == lru[if i <= j then i - 1 else i];
    }
    if key in ks {
      MovedUp(ks, rs, j, |lru|);
    } else {
      PutOnTop(ks, rs, key, |lru|);
    }
  }

  lemma MovedUp(ks: seq<string>, rs: seq<string>, j: nat, n: nat)
    requires j < |ks| <= n && Distinct(ks) && |rs| == |ks| && rs[0] == ks[j]
    requires forall i :: 1 <= i < |rs| ==> rs[i] == ks[if i <= j then i - 1 else i]
    ensures rs == Take([ks[j]] + Less(ks, ks[j]), n)
  {
    LessAt(ks, j);
    var t := [ks[j]] + (ks[..j] + ks[j + 1..]);
    assert |t| == |rs|;
    forall i | 0 <= i < |t|
      ensures rs[i] == t[i]
    {
      if i > j {
        assert t[i] == ks[j + 1..][i - 1 - j];
      }
    }
    assert rs == t;
  }

  lemma PutOnTop(ks: seq<string>, rs: seq<string>, key: string, n: nat)
    requires key !in ks && |ks| <= n && n > 0 && |rs| == (if |ks| < n then |ks| + 1 else n) && rs[0] == key
    requires forall i :: 1 <= i < |rs| ==> rs[i] == ks[i - 1]
    ensures rs == Take([key] + Less(ks, key), n)
  {
    LessAbsent(ks, key);
  }

  lemma FrontLength(lru: seq<Slot>, j: nat, x: Slot)
    requires j < |lru| && Dense(lru) && x.Slot? && (lru[j].Slot? || j == |lru| - 1)
    ensures |Keys(ToFront(lru, j, x))| == if lru[j].Slot? then |Keys(lru)| else |Keys(lru)| + 1
  {
    var r := ToFront(lru, j, x);
    KeysAt(lru);
    FrontDense(lru, j, x);
    KeysAt(r);
    assert forall i :: 1 <= i < |r| ==> r[i] == lru[if i <= j then i - 1 else i];
    var n := |Keys(lru)|;
    if lru[j].Slot? {
      assert n > 0 && r[n - 1].Slot? && (n < |r| ==> r[n].Empty?);
    } else {
      assert r[n].Slot? && (n + 1 < |r| ==> r[n + 1].Empty?);
    }
  }

  /** The slots after a call, from the keys before it. */
  lemma TouchKeys(fs: seq<string>, lru: seq<Slot>, s: string, blank: bool, immediate: bool)
    requires |lru| == LRU_COUNT && Dense(lru) && Distinct(Keys(lru))
    ensures Dense(Touch(fs, lru, s, blank, immediate))
    ensures Keys(Touch(fs, lru, s, blank, immediate)) == Take([Low(s)] + Less(Keys(lru), Low(s)), 3)
  {
    var k := Hit(lru, s);
    var ks := Keys(lru);
    var x := Found(fs, lru, s, blank, immediate);
    var j := if k < |lru| then k else LRU_COUNT - 1;
    KeysAt(lru);
    if k == |lru| {
      assert Low(s) !in ks;
    }
    FrontDense(lru, j, x);
    FrontKeys(lru, j, x, ks);
  }

  lemma {:induction false} RecentDistinct(ds: seq<string>)
    ensures Distinct(Recent(ds))
  {
    if ds != [] {
      RecentDistinct(ds[..|ds| - 1]);
      LessDistinct(Recent(ds[..|ds| - 1]), Low(Normal(ds[|ds| - 1])));
    }
  }

  /** After any calls the slots hold the last three different definitions, the latest
      first; so their keys are distinct up to case. */
  lemma {:induction false} LatestThree(fs: seq<string>, ds: seq<string>, immediate: bool)
    ensures var lru := After(fs, ds, immediate);
            Keys(lru) == Take(Recent(ds), 3) && Distinct(Keys(lru)) && Dense(lru)
  {
    RecentDistinct(ds);
    if ds != [] {
      var d := ds[|ds| - 1];
      var before := ds[..|ds| - 1];
      LatestThree(fs, before, immediate);
      RecentDistinct(before);
      TouchKeys(fs, After(fs, before, immediate), Normal(d), BlankBehind(d), immediate);
      TakeFirst(Recent(before), Low(Normal(d)));
    }
  }
}

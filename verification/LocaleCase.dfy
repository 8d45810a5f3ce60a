/** What "case set aside" means for the names of src/locale-root.c, in character codes. */
module LocaleCase {
  import opened Options
  import opened LocaleNames
  import opened LocaleSearch
  import opened LocaleLru

  /** Equal, or the two cases of one letter of ASCII. */
  predicate OneLetter(a: char, b: char) {
    var x, y := a as int, b as int;
    x == y || (65 <= x <= 90 && y == x + 32) || (65 <= y <= 90 && x == y + 32)
  }

  predicate AnyCase(a: string, b: string) {
    |a| == |b| && forall i :: 0 <= i < |a| ==> OneLetter(a[i], b[i])
  }

  /** The code of a character with capitals as small letters. */
  function Code(c: char): int {
    if 65 <= c as int <= 90 then c as int + 32 else c as int
  }

  lemma LetterCode(a: char, b: char)
    ensures OneLetter(a, b) <==> Lower(a) == Lower(b)
    ensures Lower(a) < Lower(b) <==> Code(a) < Code(b)
  {
  }

  /** Names are the same exactly when they are so letter by letter. */
  lemma SameIff(a: string, b: string)
    ensures Same(a, b) <==> AnyCase(a, b)
  {
    SameIsAlike(a, b);
    forall i | 0 <= i < |a| && |a| == |b|
      ensures OneLetter(a[i], b[i]) <==> Lower(a[i]) == Lower(b[i])
    {
      LetterCode(a[i], b[i]);
    }
  }

  /** `a` comes before `b`: at the first place where they differ it has the smaller code,
      or it ends there. */
  ghost predicate BeforeAt(a: string, b: string, k: nat) {
    && k <= |a| && k < |b| && AnyCase(a[..k], b[..k])
    && (k < |a| ==> Code(a[k]) < Code(b[k]))
  }

  ghost predicate Before(a: string, b: string) {
    exists k: nat :: BeforeAt(a, b, k)
  }

  lemma BeforeStep(a: string, b: string)
    requires a != "" && b != ""
    ensures Before(a, b) <==> Code(a[0]) < Code(b[0]) || (OneLetter(a[0], b[0]) && Before(a[1..], b[1..]))
  {
    if Before(a, b) {
      var k: nat :| BeforeAt(a, b, k);
      if k > 0 {
        assert a[..k][0] == a[0] && b[..k][0] == b[0];
        assert a[1..][..k - 1] == a[..k][1..] && b[1..][..k - 1] == b[..k][1..];
        assert BeforeAt(a[1..], b[1..], k - 1);
      }
    }
    if Code(a[0]) < Code(b[0]) {
      assert BeforeAt(a, b, 0);
    }
    if OneLetter(a[0], b[0]) && Before(a[1..], b[1..]) {
      var k: nat :| BeforeAt(a[1..], b[1..], k);
      assert a[..k + 1] == [a[0]] + a[1..][..k] && b[..k + 1] == [b[0]] + b[1..][..k];
      assert BeforeAt(a, b, k + 1);
    }
  }

  /** The sign of the comparison tells which name comes first. */
  lemma {:induction false} CmpTells(a: string, b: string)
    ensures Cmp(a, b) < 0 <==> Before(a, b)
    ensures Cmp(a, b) > 0 <==> Before(b, a)
    ensures Cmp(a, b) == 0 <==> AnyCase(a, b)
  {
    CmpSame(a, b);
    SameIff(a, b);
    if a != "" && b != "" {
      LetterCode(a[0], b[0]);
      LetterCode(b[0], a[0]);
      BeforeStep(a, b);
      BeforeStep(b, a);
      CmpTells(a[1..], b[1..]);
    } else if a != "" {
      assert BeforeAt(b, a, 0);
    } else if b != "" {
      assert BeforeAt(a, b, 0);
    }
  }

  /** No folder comes before one that lies behind it. */
  ghost predicate InOrder(fs: seq<string>) {
    forall i, j :: 0 <= i < j < |fs| ==> !Before(fs[j], fs[i])
  }

  lemma InOrderSorted(fs: seq<string>)
    requires InOrder(fs)
    ensures Sorted(fs)
  {
    forall i, j | 0 <= i < j < |fs|
      ensures Cmp(fs[i], fs[j]) <= 0
    {
      CmpTells(fs[i], fs[j]);
    }
  }

  /** In an ordered container the binary search finds a folder with the letters of the name
      exactly when there is one. */
  lemma FindAnyCase(fs: seq<string>, key: string)
    requires InOrder(fs)
    ensures Find(fs, key).Some? <==> exists i :: 0 <= i < |fs| && AnyCase(fs[i], key)
    ensures Find(fs, key).Some? ==> AnyCase(fs[Find(fs, key).value], key)
  {
    InOrderSorted(fs);
    FindIff(fs, key);
    forall i | 0 <= i < |fs|
      ensures Same(fs[i], key) <==> AnyCase(fs[i], key)
    {
      SameIff(fs[i], key);
    }
  }

  /** A slot of the cache is taken for a definition exactly when it has its letters; the
      first one such. */
  lemma HitAnyCase(lru: seq<Slot>, s: string)
    ensures var k := Hit(lru, s);
            && k <= |lru|
            && (k < |lru| ==> lru[k].Slot? && AnyCase(lru[k].definition, s))
            && (forall i :: 0 <= i < k && lru[i].Slot? ==> !AnyCase(lru[i].definition, s))
  {
    forall i | 0 <= i < |lru| && lru[i].Slot?
      ensures Matches(lru[i], s) <==> AnyCase(lru[i].definition, s)
    {
      SameIff(lru[i].definition, s);
    }
  }

  /** Definitions with the same letters have the same search list. */
  lemma ListAnyCase(fs: seq<string>, a: string, b: string, immediate: bool)
    requires AnyCase(a, b)
    ensures CreateSearch(fs, a, false, immediate) == CreateSearch(fs, b, false, immediate)
  {
    SameIff(a, b);
    SearchAlike(fs, a, b, immediate);
  }

  // ----- the definitions kept

  /** `ks` without those with the letters of `k`. */
  function Others(ks: seq<string>, k: string): seq<string> {
    if ks == [] then [] else (if AnyCase(ks[0], k) then [] else [ks[0]]) + Others(ks[1..], k)
  }

  /** The definitions of the calls, each once up to case, the latest first. */
  function Latest(ds: seq<string>): seq<string> {
    if ds == [] then []
    else
      var s := Normal(ds[|ds| - 1]);
      [s] + Others(Latest(ds[..|ds| - 1]), s)
  }

  function Lows(ks: seq<string>): seq<string> {
    seq(|ks|, i requires 0 <= i < |ks| => Low(ks[i]))
  }

  lemma {:induction false} LowsOthers(ks: seq<string>, k: string)
    ensures Lows(Others(ks, k)) == Less(Lows(ks), Low(k))
  {
    if ks != [] {
      LowsOthers(ks[1..], k);
      SameIff(ks[0], k);
      assert Lows(ks) == [Low(ks[0])] + Lows(ks[1..]);
      assert Others(ks, k) == (if AnyCase(ks[0], k) then [] else [ks[0]]) + Others(ks[1..], k);
    }
  }

  lemma {:induction false} LowsLatest(ds: seq<string>)
    ensures Lows(Latest(ds)) == Recent(ds)
  {
    if ds != [] {
      var before, s := Latest(ds[..|ds| - 1]), Normal(ds[|ds| - 1]);
      LowsLatest(ds[..|ds| - 1]);
      LowsOthers(before, s);
      assert Latest(ds) == [s] + Others(before, s);
    }
  }

  /** After any calls the slots hold the three latest definitions that differ in more than
      case, the latest first, and no two of them have the same letters. */
  lemma SlotsAnyCase(fs: seq<string>, ds: seq<string>, immediate: bool)
    ensures var lru, ks := After(fs, ds, immediate), Latest(ds);
            && (forall i :: 0 <= i < LRU_COUNT ==> (lru[i].Slot? <==> i < |ks|))
            && (forall i :: 0 <= i < LRU_COUNT && lru[i].Slot? ==> AnyCase(lru[i].definition, ks[i]))
            && (forall i, j :: 0 <= i < j < LRU_COUNT && lru[i].Slot? && lru[j].Slot? ==>
                  !AnyCase(lru[i].definition, lru[j].definition))
  {
    LatestThree(fs, ds, immediate);
    LowsLatest(ds);
    var lru, ks := After(fs, ds, immediate), Latest(ds);
    KeysAt(lru);
    forall i | 0 <= i < LRU_COUNT && lru[i].Slot?
      ensures AnyCase(lru[i].definition, ks[i])
    {
      assert Keys(lru)[i] == Lows(ks)[i];
      SameIff(lru[i].definition, ks[i]);
    }
    forall i, j | 0 <= i < j < LRU_COUNT && lru[i].Slot? && lru[j].Slot?
      ensures !AnyCase(lru[i].definition, lru[j].definition)
    {
      SameIff(lru[i].definition, lru[j].definition);
    }
  }
}

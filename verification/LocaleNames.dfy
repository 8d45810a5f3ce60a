/** Names of locale folders, compared without regard to case, and the binary search
    for them (src/locale-root.c). */
module LocaleNames {
  import opened Options

  /** tolower on one character. */
  function Lower(c: char): char {
    if 'A' <= c <= 'Z' then (c as int + 32) as char else c
  }

  function Low(s: string): (r: string)
    ensures |r| == |s|
  {
    seq(|s|, i requires 0 <= i < |s| => Lower(s[i]))
  }

  /** strcasecmp: the sign of the difference at the first place where they differ. */
  function Cmp(a: string, b: string): int {
    if a == "" && b == "" then 0
    else if a == "" then -1
    else if b == "" then 1
    else if Lower(a[0]) < Lower(b[0]) then -1
    else if Lower(a[0]) > Lower(b[0]) then 1
    else Cmp(a[1..], b[1..])
  }

  /** strncasecmp over the length of `b`. */
  function CmpN(a: string, b: string): int {
    Cmp(if |a| <= |b| then a else a[..|b|], b)
  }

  predicate Same(a: string, b: string) {
    Low(a) == Low(b)
  }

  lemma SameStep(a: string, b: string)
    requires a != "" && b != ""
    ensures Same(a, b) <==> Lower(a[0]) == Lower(b[0]) && Same(a[1..], b[1..])
  {
    assert Low(a) == [Lower(a[0])] + Low(a[1..]);
    assert Low(b) == [Lower(b[0])] + Low(b[1..]);
    if Same(a, b) {
      assert Low(a)[0] == Low(b)[0] && Low(a)[1..] == Low(b)[1..];
    }
  }

  lemma {:induction false} CmpSame(a: string, b: string)
    ensures Cmp(a, b) == 0 <==> Same(a, b)
    ensures Cmp(a, b) == -Cmp(b, a)
  {
    if a != "" && b != "" {
      SameStep(a, b);
      CmpSame(a[1..], b[1..]);
    } else {
      assert |Low(a)| == |a| && |Low(b)| == |b|;
    }
  }

  lemma {:induction false} CmpTrans(a: string, b: string, c: string)
    requires Cmp(a, b) <= 0 && Cmp(b, c) <= 0
    ensures Cmp(a, c) <= 0
    ensures Cmp(a, c) == 0 ==> Cmp(a, b) == 0 && Cmp(b, c) == 0
  {
    if a != "" && b != "" && c != "" && Lower(a[0]) == Lower(b[0]) == Lower(c[0]) {
      CmpTrans(a[1..], b[1..], c[1..]);
    }
  }

  /** The comparison over a length decides like the whole one, and when it finds no
      difference the longer string is the greater one. */
  lemma {:induction false} CmpPrefix(a: string, b: string)
    ensures CmpN(a, b) < 0 ==> Cmp(a, b) < 0
    ensures CmpN(a, b) > 0 ==> Cmp(a, b) > 0
    ensures CmpN(a, b) == 0 ==> |a| >= |b|
    ensures CmpN(a, b) == 0 && |a| > |b| ==> Cmp(a, b) > 0
    ensures CmpN(a, b) == 0 && |a| == |b| <==> Same(a, b)
  {
    CmpSame(a, b);
    if a != "" && b != "" {
      CmpPrefix(a[1..], b[1..]);
      SameStep(a, b);
      if |a| > |b| {
        assert a[..|b|][1..] == a[1..][..|b| - 1];
      }
    } else {
      assert a[..0] == "";
      assert |Low(a)| == |a| && |Low(b)| == |b|;
    }
  }

  // ----- the sorted container

  /** As qsort leaves it with compare_folders_for_qsort. */
  ghost predicate Sorted(fs: seq<string>) {
    forall i, j :: 0 <= i < j < |fs| ==> Cmp(fs[i], fs[j]) <= 0
  }

  function Bisect(fs: seq<string>, key: string, low: nat, high: nat): (r: Option<nat>)
    requires low <= high <= |fs|
    ensures r.Some? ==> low <= r.value < high
    decreases high - low
  {
    if low == high then None
    else
      var mid := (low + high) / 2;
      var c := CmpN(fs[mid], key);
      if c == 0 && |fs[mid]| == |key| then Some(mid)
      else if c >= 0 then Bisect(fs, key, low, mid)
      else Bisect(fs, key, mid + 1, high)
  }

  /** search_folder */
  function Find(fs: seq<string>, key: string): (r: Option<nat>)
    ensures r.Some? ==> r.value < |fs|
  {
    Bisect(fs, key, 0, |fs|)
  }

  /** Nothing at or behind a greater folder matches; nothing before a smaller one. */
  lemma RuledOut(fs: seq<string>, key: string, mid: nat, i: nat)
    requires Sorted(fs) && mid < |fs| && i < |fs| && Same(fs[i], key)
    ensures CmpN(fs[mid], key) > 0 || (CmpN(fs[mid], key) == 0 && |fs[mid]| != |key|) ==> i < mid
    ensures CmpN(fs[mid], key) < 0 ==> i > mid
  {
    CmpPrefix(fs[mid], key);
    CmpSame(fs[i], key);
    CmpSame(fs[mid], key);
    if mid < i {
      CmpTrans(fs[mid], fs[i], key);
    } else if i < mid {
      CmpSame(key, fs[i]);
      CmpTrans(key, fs[i], fs[mid]);
      CmpSame(key, fs[mid]);
    }
  }

  lemma {:induction false} BisectFinds(fs: seq<string>, key: string, low: nat, high: nat, i: nat)
    requires Sorted(fs) && low <= i < high <= |fs| && Same(fs[i], key)
    ensures Bisect(fs, key, low, high).Some?
    decreases high - low
  {
    var mid := (low + high) / 2;
    var c := CmpN(fs[mid], key);
    RuledOut(fs, key, mid, i);
    if c == 0 && |fs[mid]| == |key| {
    } else if c >= 0 {
      BisectFinds(fs, key, low, mid, i);
    } else {
      BisectFinds(fs, key, mid + 1, high, i);
    }
  }

  lemma {:induction false} BisectRight(fs: seq<string>, key: string, low: nat, high: nat)
    requires low <= high <= |fs|
    ensures var r := Bisect(fs, key, low, high); r.Some? ==> Same(fs[r.value], key)
    decreases high - low
  {
    if low < high {
      var mid := (low + high) / 2;
      CmpPrefix(fs[mid], key);
      BisectRight(fs, key, low, mid);
      BisectRight(fs, key, mid + 1, high);
    }
  }

  /** The search finds a folder of that name, case set aside, if and only if there
      is one. */
  lemma FindIff(fs: seq<string>, key: string)
    requires Sorted(fs)
    ensures Find(fs, key).Some? <==> exists i :: 0 <= i < |fs| && Same(fs[i], key)
    ensures Find(fs, key).Some? ==> Same(fs[Find(fs, key).value], key)
  {
    BisectRight(fs, key, 0, |fs|);
    if exists i :: 0 <= i < |fs| && Same(fs[i], key) {
      var i :| 0 <= i < |fs| && Same(fs[i], key);
      BisectFinds(fs, key, 0, |fs|, i);
    }
  }

  // ----- only the name without case matters

  lemma {:induction false} CmpLow(a: string, b: string, c: string)
    requires Same(b, c)
    ensures Cmp(a, b) == Cmp(a, c)
  {
    assert |Low(b)| == |b| && |Low(c)| == |c|;
    if a != "" && b != "" {
      SameStep(b, c);
      CmpLow(a[1..], b[1..], c[1..]);
    }
  }

  lemma {:induction false} BisectLow(fs: seq<string>, b: string, c: string, low: nat, high: nat)
    requires low <= high <= |fs| && Same(b, c)
    ensures Bisect(fs, b, low, high) == Bisect(fs, c, low, high)
    decreases high - low
  {
    assert |Low(b)| == |b| && |Low(c)| == |c|;
    if low < high {
      var mid := (low + high) / 2;
      CmpLow(if |fs[mid]| <= |b| then fs[mid] else fs[mid][..|b|], b, c);
      BisectLow(fs, b, c, low, mid);
      BisectLow(fs, b, c, mid + 1, high);
    }
  }

  // ----- the loop

  method SearchFolder(fs: seq<string>, key: string) returns (r: Option<nat>)
    ensures r == Find(fs, key)
  {
    var low, high := 0, |fs|;
    while low < high
      invariant 0 <= low <= high <= |fs| && Bisect(fs, key, low, high) == Find(fs, key)
    {
      var mid := (low + high) / 2;
      var c := CmpN(fs[mid], key);
      if c == 0 && |fs[mid]| == |key| {
        return Some(mid);
      }
      if c >= 0 {
        high := mid;
      } else {
        low := mid + 1;
      }
    }
    r := None;
  }
}

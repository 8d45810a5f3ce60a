/** Parents of locale folders and construction of a search list (src/locale-root.c). */
module LocaleSearch {
  import opened Options
  import opened LocaleNames

  // ----- parents

  /** The link loop of init_container: the folder of the longest prefix of `name`,
      shorter than `j`, that ends before a dash and exists. */
  function ParentFrom(fs: seq<string>, name: string, j: nat): (r: Option<nat>)
    requires j <= |name|
    ensures r.Some? ==> r.value < |fs|
  {
    if j == 0 then None
    else
      var r := if name[j - 1] == '-' then Find(fs, name[..j - 1]) else None;
      if r.Some? then r else ParentFrom(fs, name, j - 1)
  }

  function Parent(fs: seq<string>, f: nat): (r: Option<nat>)
    requires f < |fs|
    ensures r.Some? ==> r.value < |fs|
  {
    ParentFrom(fs, fs[f], |fs[f]|)
  }

  lemma {:induction false} ParentLongest(fs: seq<string>, name: string, j: nat)
    requires j <= |name|
    ensures ParentFrom(fs, name, j).None? ==> forall k :: 0 <= k < j && name[k] == '-' ==> Find(fs, name[..k]).None?
    ensures ParentFrom(fs, name, j).Some? ==>
              exists k :: 0 <= k < j && name[k] == '-' && Find(fs, name[..k]) == ParentFrom(fs, name, j)
                && forall i :: k < i < j && name[i] == '-' ==> Find(fs, name[..i]).None?
  {
    if j > 0 {
      ParentLongest(fs, name, j - 1);
    }
  }

  /** A parent has a shorter name, so chains of parents end. */
  lemma ParentShorter(fs: seq<string>, f: nat)
    requires Sorted(fs) && f < |fs| && Parent(fs, f).Some?
    ensures |fs[Parent(fs, f).value]| < |fs[f]|
  {
    var name := fs[f];
    ParentLongest(fs, name, |name|);
    var k :| 0 <= k < |name| && name[k] == '-' && Find(fs, name[..k]) == Parent(fs, f);
    FindIff(fs, name[..k]);
    assert |Low(fs[Parent(fs, f).value])| == |Low(name[..k])|;
  }

  // ----- ranges of a definition

  predicate Blank(c: char) {
    c == ' ' || c == '\t'
  }

  function Stop(s: string, p: nat): (q: nat)
    requires p <= |s|
    ensures p <= q <= |s|
    decreases |s| - p
  {
    if p == |s| || s[p] == ',' || s[p] == ';' then p else Stop(s, p + 1)
  }

  function TrimFrom(s: string, p: nat, back: nat): (q: nat)
    requires p <= back < |s|
    ensures p <= q <= back
    decreases back
  {
    if back > p && Blank(s[back]) then TrimFrom(s, p, back - 1) else back
  }

  /** Where a range ends.  The code looks at the character behind it: that is never a
      blank, except behind the last range when blanks were cut off the definition
      (`blank`), and then the last character of the range is lost. */
  function RangeEnd(s: string, p: nat, blank: bool): (q: nat)
    requires p <= |s|
    ensures p <= q <= Stop(s, p)
  {
    var stop := Stop(s, p);
    if stop == |s| && blank && stop > p then TrimFrom(s, p, stop - 1) else stop
  }

  /** The nearest dash before `back`, or the beginning. */
  function PrevDash(s: string, p: nat, back: nat): (q: nat)
    requires p < back <= |s|
    ensures p <= q < back
    ensures forall i :: q < i < back ==> s[i] != '-'
    ensures q > p ==> s[q] == '-'
    decreases back
  {
    if back - 1 == p || s[back - 1] == '-' then back - 1 else PrevDash(s, p, back - 1)
  }

  function SkipDashes(s: string, p: nat, back: nat): (q: nat)
    requires p <= back < |s|
    ensures p <= q <= back
    ensures q < back ==> forall i :: q <= i <= back ==> s[i] == '-'
    ensures q > p ==> !(s[q] == '-' && s[q - 1] == '-')
    ensures s[back] == '-' ==> s[q] == '-'
    decreases back
  {
    if back > p && s[back] == '-' && s[back - 1] == '-' then SkipDashes(s, p, back - 1) else back
  }

  function NextBack(s: string, p: nat, back: nat): (q: nat)
    requires p < back <= |s|
    ensures p <= q < back
  {
    SkipDashes(s, p, PrevDash(s, p, back))
  }

  /** The folders of one range: the first found, or all of them when immediate. */
  function InRange(fs: seq<string>, s: string, p: nat, back: nat, immediate: bool): (r: seq<nat>)
    requires p <= back <= |s|
    ensures forall f :: f in r ==> f < |fs|
    decreases back
  {
    if back == p then []
    else
      var f := Find(fs, s[p..back]);
      var rest := InRange(fs, s, p, NextBack(s, p, back), immediate);
      if f.None? then rest else if immediate then [f.value] + rest else [f.value]
  }

  function ToComma(s: string, p: nat): (q: nat)
    requires p <= |s|
    ensures p <= q <= |s|
    ensures p < |s| && s[p] != ',' ==> q > p
    ensures q < |s| ==> s[q] == ','
    decreases |s| - p
  {
    if p < |s| && s[p] != ',' then ToComma(s, p + 1) else p
  }

  function SkipSeparators(s: string, p: nat): (q: nat)
    requires p <= |s|
    ensures p <= q <= |s|
    ensures p < |s| && s[p] == ',' ==> q > p
    decreases |s| - p
  {
    if p < |s| && (s[p] == ',' || Blank(s[p])) then SkipSeparators(s, p + 1) else p
  }

  function NextRange(s: string, p: nat): (q: nat)
    requires p < |s|
    ensures p < q <= |s|
  {
    SkipSeparators(s, ToComma(s, Stop(s, p)))
  }

  /** The folders wanted by the definition from `p` on, in order, with repetitions. */
  function Wanted(fs: seq<string>, s: string, p: nat, blank: bool, immediate: bool): (r: seq<nat>)
    requires p <= |s|
    ensures forall f :: f in r ==> f < |fs|
    decreases |s| - p
  {
    if p == |s| then []
    else InRange(fs, s, p, RangeEnd(s, p, blank), immediate) + Wanted(fs, s, NextRange(s, p), blank, immediate)
  }

  // ----- the longest prefix of a range

  /** A prefix the code may look up: the whole range, or up to a dash that does not
      follow another one. */
  predicate Candidate(s: string, p: nat, end: nat, q: nat)
    requires p <= end <= |s|
  {
    p < q <= end && (q == end || (s[q] == '-' && s[q - 1] != '-'))
  }

  lemma NextIsNext(s: string, p: nat, end: nat, back: nat)
    requires p < back <= end <= |s|
    ensures forall q: nat :: NextBack(s, p, back) < q < back ==> !Candidate(s, p, end, q)
    ensures NextBack(s, p, back) > p ==> Candidate(s, p, end, NextBack(s, p, back))
  {
  }

  /** No candidate from `q` (excluded) to `back` has a folder. */
  ghost predicate NoneAbove(fs: seq<string>, s: string, p: nat, end: nat, q: nat, back: nat)
    requires p <= end <= |s| && back <= end
  {
    forall i: nat :: q < i <= back && Candidate(s, p, end, i) ==> Find(fs, s[p..i]).None?
  }

  /** Without the immediate flag a range gives the folder of its longest candidate
      prefix that has one, and nothing when none has. */
  ghost predicate Longest(fs: seq<string>, s: string, p: nat, end: nat, back: nat, r: seq<nat>)
    requires p <= end <= |s| && back <= end
  {
    if r == [] then NoneAbove(fs, s, p, end, p, back)
    else |r| == 1 && exists q: nat :: q <= back && Candidate(s, p, end, q) && Find(fs, s[p..q]) == Some(r[0])
                                      && NoneAbove(fs, s, p, end, q, back)
  }

  lemma {:induction false} LongestPrefix(fs: seq<string>, s: string, p: nat, end: nat, back: nat)
    requires p <= back <= end <= |s| && (back > p ==> Candidate(s, p, end, back))
    ensures Longest(fs, s, p, end, back, InRange(fs, s, p, back, false))
    decreases back
  {
    if back > p {
      var f := Find(fs, s[p..back]);
      if f.Some? {
        assert NoneAbove(fs, s, p, end, back, back);
      } else {
        var next := NextBack(s, p, back);
        NextIsNext(s, p, end, back);
        LongestPrefix(fs, s, p, end, next);
        LongestDown(fs, s, p, end, next, back, InRange(fs, s, p, next, false));
      }
    }
  }

  /** Each range of a definition, from its beginning to its end. */
  lemma RangeGivesLongest(fs: seq<string>, s: string, p: nat, blank: bool)
    requires p <= |s|
    ensures var e := RangeEnd(s, p, blank); Longest(fs, s, p, e, e, InRange(fs, s, p, e, false))
  {
    LongestPrefix(fs, s, p, RangeEnd(s, p, blank), RangeEnd(s, p, blank));
  }

  lemma LongestDown(fs: seq<string>, s: string, p: nat, end: nat, next: nat, back: nat, r: seq<nat>)
    requires p <= next < back <= end <= |s| && Longest(fs, s, p, end, next, r)
    requires Find(fs, s[p..back]).None? && forall q: nat :: next < q < back ==> !Candidate(s, p, end, q)
    ensures Longest(fs, s, p, end, back, r)
  {
    if r != [] {
      var q: nat :| q <= next && Candidate(s, p, end, q) && Find(fs, s[p..q]) == Some(r[0])
                   && NoneAbove(fs, s, p, end, q, next);
      assert NoneAbove(fs, s, p, end, q, back);
    }
  }

  // ----- the list

  predicate NoDup(l: seq<nat>) {
    forall i, j :: 0 <= i < j < |l| ==> l[i] != l[j]
  }

  /** search_append_folder */
  function Append(l: seq<nat>, f: nat): seq<nat> {
    if f in l then l else l + [f]
  }

  function AppendAll(l: seq<nat>, ws: seq<nat>): seq<nat>
    decreases |ws|
  {
    if ws == [] then l else AppendAll(Append(l, ws[0]), ws[1..])
  }

  lemma {:induction false} AppendTwo(l: seq<nat>, a: seq<nat>, b: seq<nat>)
    ensures AppendAll(l, a + b) == AppendAll(AppendAll(l, a), b)
    decreases |a|
  {
    if a == [] {
      assert a + b == b;
    } else {
      assert (a + b)[1..] == a[1..] + b;
      AppendTwo(Append(l, a[0]), a[1..], b);
    }
  }

  /** A list without repetition of folders of the container. */
  ghost predicate Proper(fs: seq<string>, l: seq<nat>) {
    NoDup(l) && forall i :: 0 <= i < |l| ==> l[i] < |fs|
  }

  lemma ProperShort(fs: seq<string>, l: seq<nat>)
    requires Proper(fs, l)
    ensures |l| <= |fs|
  {
    Pigeons(l, |fs|);
  }

  /** Distinct numbers below `n` are at most `n`. */
  lemma {:induction false} Pigeons(l: seq<nat>, n: nat)
    requires NoDup(l) && forall i :: 0 <= i < |l| ==> l[i] < n
    ensures |l| <= n
    decreases n
  {
    if n > 0 {
      if n - 1 in l {
        var k :| 0 <= k < |l| && l[k] == n - 1;
        var m := l[..k] + l[k + 1..];
        assert forall i :: 0 <= i < |m| ==> m[i] == l[if i < k then i else i + 1];
        forall i | 0 <= i < |m|
          ensures m[i] < n - 1
        {
          assert l[if i < k then i else i + 1] != l[k];
        }
        Pigeons(m, n - 1);
      } else {
        Pigeons(l, n - 1);
      }
    }
  }

  lemma {:induction false} AppendAllProper(fs: seq<string>, l: seq<nat>, ws: seq<nat>)
    requires Proper(fs, l) && forall f :: f in ws ==> f < |fs|
    ensures Proper(fs, AppendAll(l, ws)) && l <= AppendAll(l, ws)
    ensures forall f :: f in AppendAll(l, ws) <==> f in l || f in ws
    decreases |ws|
  {
    if ws != [] {
      assert ws[0] in ws && forall f :: f in ws <==> f == ws[0] || f in ws[1..];
      AppendAllProper(fs, Append(l, ws[0]), ws[1..]);
    }
  }

  /** The list is walked while parents are appended to it. */
  function Close(fs: seq<string>, l: seq<nat>, i: nat): seq<nat>
    requires Proper(fs, l) && i <= |l|
    decreases |fs| - i
  {
    ProperShort(fs, l);
    if i == |l| then l
    else
      var p := Parent(fs, l[i]);
      Close(fs, if p.Some? then Append(l, p.value) else l, i + 1)
  }

  /** The parents of the first `n` folders of the list are in it. */
  ghost predicate ClosedUpTo(fs: seq<string>, l: seq<nat>, n: nat)
    requires Proper(fs, l) && n <= |l|
  {
    forall k :: 0 <= k < n ==> var p := Parent(fs, l[k]); p.Some? ==> p.value in l
  }

  /** Behind the first `n` folders, each one is the parent of an earlier one. */
  ghost predicate ParentsFrom(fs: seq<string>, l: seq<nat>, n: nat)
    requires Proper(fs, l)
  {
    forall k :: n <= k < |l| ==> AfterChild(fs, l, k)
  }

  ghost predicate AfterChild(fs: seq<string>, l: seq<nat>, k: nat)
    requires Proper(fs, l) && k < |l|
  {
    exists j :: 0 <= j < k && Parent(fs, l[j]) == Some(l[k])
  }

  lemma CloseStep(fs: seq<string>, l: seq<nat>, i: nat, n: nat)
    requires Proper(fs, l) && i < |l| && n <= |l| && ClosedUpTo(fs, l, i) && ParentsFrom(fs, l, n)
    ensures var p := Parent(fs, l[i]);
            var m := if p.Some? then Append(l, p.value) else l;
            Proper(fs, m) && l <= m && ClosedUpTo(fs, m, i + 1) && ParentsFrom(fs, m, n)
  {
    var p := Parent(fs, l[i]);
    if p.Some? && p.value !in l {
      ProperMore(fs, l, p.value);
      ClosedMore(fs, l, i, p.value);
      ParentsMore(fs, l, i, n, p.value);
    }
  }

  lemma ProperMore(fs: seq<string>, l: seq<nat>, f: nat)
    requires Proper(fs, l) && f !in l && f < |fs|
    ensures Proper(fs, l + [f])
  {
  }

  lemma ClosedMore(fs: seq<string>, l: seq<nat>, i: nat, f: nat)
    requires Proper(fs, l) && Proper(fs, l + [f]) && i < |l| && ClosedUpTo(fs, l, i) && Parent(fs, l[i]) == Some(f)
    ensures ClosedUpTo(fs, l + [f], i + 1)
  {
    var m := l + [f];
    assert m[|l|] == f;
    forall k | 0 <= k < i + 1
      ensures Parent(fs, m[k]).Some? ==> Parent(fs, m[k]).value in m
    {
      assert m[k] == l[k];
    }
  }

  lemma ParentsMore(fs: seq<string>, l: seq<nat>, i: nat, n: nat, f: nat)
    requires Proper(fs, l) && Proper(fs, l + [f]) && i < |l| && ParentsFrom(fs, l, n) && Parent(fs, l[i]) == Some(f)
    ensures ParentsFrom(fs, l + [f], n)
  {
    var m := l + [f];
    forall k | n <= k < |m|
      ensures AfterChild(fs, m, k)
    {
      if k == |l| {
        assert m[i] == l[i] && Parent(fs, m[i]) == Some(m[k]);
      } else {
        assert AfterChild(fs, l, k);
        var j :| 0 <= j < k && Parent(fs, l[j]) == Some(l[k]);
        assert m[j] == l[j] && m[k] == l[k] && Parent(fs, m[j]) == Some(m[k]);
      }
    }
  }

  lemma {:induction false} CloseCloses(fs: seq<string>, l: seq<nat>, i: nat, n: nat)
    requires Proper(fs, l) && i <= |l| && n <= |l| && ClosedUpTo(fs, l, i) && ParentsFrom(fs, l, n)
    ensures var r := Close(fs, l, i);
            Proper(fs, r) && l <= r && ClosedUpTo(fs, r, |r|) && ParentsFrom(fs, r, n)
    decreases |fs| - i
  {
    ProperShort(fs, l);
    if i < |l| {
      CloseStep(fs, l, i, n);
      var p := Parent(fs, l[i]);
      CloseCloses(fs, if p.Some? then Append(l, p.value) else l, i + 1, n);
    }
  }

  function CreateSearch(fs: seq<string>, s: string, blank: bool, immediate: bool): seq<nat> {
    AppendAllProper(fs, [], Wanted(fs, s, 0, blank, immediate));
    Close(fs, AppendAll([], Wanted(fs, s, 0, blank, immediate)), 0)
  }

  /** The list begins with the wanted folders, without repetition and in order; what
      follows are their parents, and no parent is missing. */
  lemma SearchList(fs: seq<string>, s: string, blank: bool, immediate: bool)
    ensures var ws := Wanted(fs, s, 0, blank, immediate);
            var l := CreateSearch(fs, s, blank, immediate);
            && Proper(fs, l)
            && AppendAll([], ws) <= l
            && ClosedUpTo(fs, l, |l|)
            && ParentsFrom(fs, l, |AppendAll([], ws)|)
            && (forall f :: f in ws ==> f in l)
  {
    var ws := Wanted(fs, s, 0, blank, immediate);
    AppendAllProper(fs, [], ws);
    var l := AppendAll([], ws);
    CloseCloses(fs, l, 0, |l|);
    assert forall f :: f in l ==> f in CreateSearch(fs, s, blank, immediate);
  }
}

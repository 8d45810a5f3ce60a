/** What the text of a locale definition asks for (src/locale-root.c). */
module LocaleDefinitions {
  import opened Options
  import opened LocaleNames
  import opened LocaleSearch
  import opened LocaleLru

  // ----- the ends of the definition

  predicate AllCut(s: string) {
    forall i :: 0 <= i < |s| ==> s[i] == ' ' || s[i] == '\t' || s[i] == ','
  }

  lemma {:induction false} SkipCutIs(d: string, p: nat)
    requires p <= |d|
    ensures AllCut(d[p..SkipCut(d, p)])
    decreases |d| - p
  {
    if p < |d| && Cut(d[p]) {
      SkipCutIs(d, p + 1);
      assert d[p..SkipCut(d, p)] == [d[p]] + d[p + 1..SkipCut(d, p)];
    }
  }

  lemma {:induction false} CutBackIs(d: string, p: nat, n: nat)
    requires p <= n <= |d|
    ensures AllCut(d[CutBack(d, p, n)..n])
    decreases n
  {
    if n > p && Cut(d[n - 1]) {
      CutBackIs(d, p, n - 1);
      assert d[CutBack(d, p, n)..n] == d[CutBack(d, p, n)..n - 1] + [d[n - 1]];
    }
  }

  /** `s` is `d` without the blanks and commas at its ends, and nothing else is cut off;
      a blank lies just behind it exactly when `blank`. */
  ghost predicate Trimmed(d: string, s: string, blank: bool) {
    exists before, behind :: TrimmedBy(d, s, blank, before, behind)
  }

  predicate TrimmedBy(d: string, s: string, blank: bool, before: string, behind: string) {
    && d == before + s + behind && AllCut(before) && AllCut(behind)
    && (s == "" ==> behind == "")
    && (s != "" ==> !Cut(s[0]) && !Cut(s[|s| - 1]))
    && (blank <==> behind != "" && behind[0] != ',')
  }

  /** When everything is cut off, it is cut off at the front. */
  lemma AllAtFront(d: string, p: nat, n: nat)
    requires p == SkipCut(d, 0) && n == CutBack(d, p, |d|) && n == p
    ensures n == |d|
  {
    CutBackIs(d, p, |d|);
  }

  lemma Parts(d: string, p: nat, n: nat)
    requires p <= n <= |d|
    ensures d == d[..p] + d[p..n] + d[n..]
  {
  }

  lemma NormalBy(d: string, p: nat, n: nat, before: string, behind: string)
    requires p == SkipCut(d, 0) && n == CutBack(d, p, |d|) && before == d[..p] && behind == d[n..]
    ensures TrimmedBy(d, Normal(d), BlankBehind(d), before, behind)
  {
    SkipCutIs(d, 0);
    CutBackIs(d, p, |d|);
    assert d[0..p] == before && d[n..|d|] == behind;
    if n == p {
      AllAtFront(d, p, n);
    }
    Parts(d, p, n);
  }

  lemma NormalIs(d: string)
    ensures Trimmed(d, Normal(d), BlankBehind(d))
  {
    var p := SkipCut(d, 0);
    var n := CutBack(d, p, |d|);
    NormalBy(d, p, n, d[..p], d[n..]);
  }

  // ----- its ranges

  /** A range, the parameters behind a semicolon, and what separates it from the next one. */
  datatype Piece = Piece(range: string, params: string, gap: string)

  ghost predicate Fine(p: Piece) {
    && (forall i :: 0 <= i < |p.range| ==> p.range[i] != ',' && p.range[i] != ';')
    && (p.params == "" || (p.params[0] == ';' && ',' !in p.params))
    && p.range + p.params != "" && !Blank((p.range + p.params)[0])
    && (p.gap == "" || (p.gap[0] == ',' && AllCut(p.gap)))
  }

  /** A gap behind each piece but the last. */
  ghost predicate Wellformed(ps: seq<Piece>) {
    forall i :: 0 <= i < |ps| ==> Fine(ps[i]) && (ps[i].gap == "" <==> i == |ps| - 1)
  }

  function TextOf(ps: seq<Piece>): string {
    if ps == [] then "" else ps[0].range + ps[0].params + ps[0].gap + TextOf(ps[1..])
  }

  /** The folders of the ranges, one range after the other. */
  function WantedOf(fs: seq<string>, ps: seq<Piece>, immediate: bool): seq<nat> {
    if ps == [] then []
    else InRange(fs, ps[0].range, 0, |ps[0].range|, immediate) + WantedOf(fs, ps[1..], immediate)
  }

  lemma {:induction false} StopAt(s: string, p: nat, q: nat)
    requires p <= q <= |s| && (q < |s| ==> s[q] == ',' || s[q] == ';')
    requires forall i :: p <= i < q ==> s[i] != ',' && s[i] != ';'
    ensures Stop(s, p) == q
    decreases q - p
  {
    if p < q {
      StopAt(s, p + 1, q);
    }
  }

  lemma {:induction false} CommaAt(s: string, p: nat, q: nat)
    requires p <= q <= |s| && (q < |s| ==> s[q] == ',') && forall i :: p <= i < q ==> s[i] != ','
    ensures ToComma(s, p) == q
    decreases q - p
  {
    if p < q {
      CommaAt(s, p + 1, q);
    }
  }

  lemma {:induction false} SeparatorsAt(s: string, p: nat, q: nat)
    requires p <= q <= |s| && (q < |s| ==> !Cut(s[q])) && forall i :: p <= i < q ==> Cut(s[i])
    ensures SkipSeparators(s, p) == q
    decreases q - p
  {
    if p < q {
      SeparatorsAt(s, p + 1, q);
    }
  }

  /** The text holds `part` at `p`. */
  predicate At(s: string, p: nat, part: string) {
    p + |part| <= |s| && s[p..p + |part|] == part
  }

  lemma AtSplit(s: string, p: nat, a: string, b: string)
    requires At(s, p, a + b)
    ensures At(s, p, a) && At(s, p + |a|, b)
  {
    assert (a + b)[..|a|] == a && (a + b)[|a|..] == b;
    assert s[p..p + |a|] == s[p..p + |a + b|][..|a|];
    assert s[p + |a|..p + |a| + |b|] == s[p..p + |a + b|][|a|..];
  }

  lemma AtChars(s: string, p: nat, part: string)
    requires At(s, p, part)
    ensures forall i :: 0 <= i < |part| ==> s[p + i] == part[i]
  {
    forall i | 0 <= i < |part|
      ensures s[p + i] == part[i]
    {
      assert s[p..p + |part|][i] == part[i];
    }
  }

  /** A range stands for itself wherever it lies. */
  lemma {:induction false} StepsMoved(s: string, t: string, p: nat, back: nat)
    requires p + |t| <= |s| && back <= |t| && forall i :: 0 <= i < |t| ==> s[p + i] == t[i]
    ensures 0 < back ==> PrevDash(s, p, p + back) == p + PrevDash(t, 0, back)
    ensures back < |t| ==> SkipDashes(s, p, p + back) == p + SkipDashes(t, 0, back)
    decreases back
  {
    if back > 0 {
      StepsMoved(s, t, p, back - 1);
      assert s[p + (back - 1)] == t[back - 1];
    }
  }

  lemma NextMoved(s: string, t: string, p: nat, back: nat)
    requires At(s, p, t) && 0 < back <= |t|
    ensures NextBack(s, p, p + back) == p + NextBack(t, 0, back)
  {
    AtChars(s, p, t);
    StepsMoved(s, t, p, back);
    StepsMoved(s, t, p, PrevDash(t, 0, back));
  }

  lemma AtFirst(s: string, p: nat, t: string, n: nat)
    requires At(s, p, t) && n <= |t|
    ensures s[p..p + n] == t[0..n]
  {
    assert s[p..p + n] == s[p..p + |t|][..n];
  }

  /** Two ranges that look up the same text and go on alike. */
  lemma RangeJoin(fs: seq<string>, s: string, p: nat, b: nat, n: nat, t: string, back: nat, next: nat,
      immediate: bool)
    requires p < b <= |s| && n == NextBack(s, p, b)
    requires 0 < back <= |t| && next == NextBack(t, 0, back) && s[p..b] == t[0..back]
    requires InRange(fs, s, p, n, immediate) == InRange(fs, t, 0, next, immediate)
    ensures InRange(fs, s, p, b, immediate) == InRange(fs, t, 0, back, immediate)
  {
  }

  lemma {:induction false} RangeMoved(fs: seq<string>, s: string, t: string, p: nat, back: nat, b: nat,
      immediate: bool)
    requires At(s, p, t) && back <= |t| && b == p + back
    ensures InRange(fs, s, p, b, immediate) == InRange(fs, t, 0, back, immediate)
    decreases back
  {
    if back > 0 {
      var next, n := NextBack(t, 0, back), NextBack(s, p, b);
      AtFirst(s, p, t, back);
      NextMoved(s, t, p, back);
      RangeMoved(fs, s, t, p, next, n, immediate);
      RangeJoin(fs, s, p, b, n, t, back, next, immediate);
    }
  }

  /** The scans over one piece. */
  lemma PieceScanned(s: string, p: nat, x: Piece, rest: string)
    requires Fine(x) && At(s, p, x.range + x.params + x.gap + rest)
    requires p + |x.range + x.params + x.gap + rest| == |s|
    requires x.gap == "" <==> rest == ""
    requires rest != "" ==> !Cut(rest[0])
    ensures p < |s| && Stop(s, p) == p + |x.range| && At(s, p, x.range)
    ensures NextRange(s, p) == p + |x.range| + |x.params| + |x.gap| && At(s, NextRange(s, p), rest)
  {
    AtSplit(s, p, x.range + x.params + x.gap, rest);
    AtSplit(s, p, x.range + x.params, x.gap);
    AtSplit(s, p, x.range, x.params);
    var a := p + |x.range|;
    var b := a + |x.params|;
    var c := b + |x.gap|;
    AtChars(s, p, x.range);
    AtChars(s, a, x.params);
    AtChars(s, b, x.gap);
    AtChars(s, c, rest);
    assert forall i :: p <= i < a ==> s[i] == x.range[i - p];
    assert forall i :: a <= i < b ==> s[i] == x.params[i - a];
    assert forall i :: b <= i < c ==> s[i] == x.gap[i - b];
    assert a < b ==> s[a] == x.params[0];
    assert b < c ==> s[b] == x.gap[0];
    assert c < |s| ==> s[c] == rest[0];
    StopAt(s, p, a);
    CommaAt(s, a, b);
    SeparatorsAt(s, b, c);
  }

  lemma RestStarts(ps: seq<Piece>)
    requires Wellformed(ps) && ps != []
    ensures TextOf(ps) != "" && !Cut(TextOf(ps)[0])
  {
    var x := ps[0];
    assert Fine(x);
    assert TextOf(ps) == (x.range + x.params) + (x.gap + TextOf(ps[1..]));
    assert TextOf(ps)[0] == (x.range + x.params)[0];
  }

  lemma WantedStep(fs: seq<string>, s: string, p: nat, a: nat, next: nat, immediate: bool, r: seq<nat>)
    requires p < |s| && Stop(s, p) == a && NextRange(s, p) == next && InRange(fs, s, p, a, immediate) == r
    ensures Wanted(fs, s, p, false, immediate) == r + Wanted(fs, s, next, false, immediate)
  {
  }

  lemma WholeMoved(fs: seq<string>, s: string, t: string, p: nat, a: nat, immediate: bool)
    requires At(s, p, t) && a == p + |t|
    ensures InRange(fs, s, p, a, immediate) == InRange(fs, t, 0, |t|, immediate)
  {
    RangeMoved(fs, s, t, p, |t|, a, immediate);
  }

  lemma WellformedRest(ps: seq<Piece>)
    requires Wellformed(ps) && ps != []
    ensures Fine(ps[0]) && Wellformed(ps[1..])
    ensures ps[0].gap == "" <==> TextOf(ps[1..]) == ""
    ensures TextOf(ps[1..]) != "" ==> !Cut(TextOf(ps[1..])[0])
  {
    var rest := ps[1..];
    assert forall i :: 0 <= i < |rest| ==> rest[i] == ps[i + 1];
    if rest != [] {
      RestStarts(rest);
    }
  }

  /** The first piece of a text gives its folders; the next one begins where it ends. */
  lemma PieceWanted(fs: seq<string>, s: string, p: nat, x: Piece, rest: string, immediate: bool) returns (next: nat)
    requires Fine(x) && At(s, p, x.range + x.params + x.gap + rest)
    requires p + |x.range + x.params + x.gap + rest| == |s|
    requires x.gap == "" <==> rest == ""
    requires rest != "" ==> !Cut(rest[0])
    ensures At(s, next, rest) && next + |rest| == |s|
    ensures Wanted(fs, s, p, false, immediate) ==
            InRange(fs, x.range, 0, |x.range|, immediate) + Wanted(fs, s, next, false, immediate)
  {
    PieceScanned(s, p, x, rest);
    next := NextRange(s, p);
    WholeMoved(fs, s, x.range, p, Stop(s, p), immediate);
    WantedStep(fs, s, p, Stop(s, p), next, immediate, InRange(fs, x.range, 0, |x.range|, immediate));
  }

  lemma {:induction false} WantedFrom(fs: seq<string>, s: string, p: nat, ps: seq<Piece>, immediate: bool)
    requires Wellformed(ps) && At(s, p, TextOf(ps)) && p + |TextOf(ps)| == |s|
    ensures Wanted(fs, s, p, false, immediate) == WantedOf(fs, ps, immediate)
    decreases |ps|
  {
    if ps != [] {
      WellformedRest(ps);
      var next := PieceWanted(fs, s, p, ps[0], TextOf(ps[1..]), immediate);
      WantedFrom(fs, s, next, ps[1..], immediate);
    }
  }

  /** A definition asks for the folders of its ranges in order, each taken up to its
      semicolon; separators may hold more commas and blanks. */
  lemma WantedOfRanges(fs: seq<string>, ps: seq<Piece>, immediate: bool)
    requires Wellformed(ps)
    ensures Wanted(fs, TextOf(ps), 0, false, immediate) == WantedOf(fs, ps, immediate)
  {
    var s := TextOf(ps);
    assert s[0..0 + |s|] == s;
    WantedFrom(fs, s, 0, ps, immediate);
  }

  // ----- the immediate flag

  /** The folders of all candidates up to `q`, the longest first. */
  function AllFound(fs: seq<string>, s: string, p: nat, end: nat, q: nat): seq<nat>
    requires p <= q <= end <= |s|
    decreases q
  {
    if q == p then []
    else
      var f := if Candidate(s, p, end, q) then Find(fs, s[p..q]) else None;
      (if f.Some? then [f.value] else []) + AllFound(fs, s, p, end, q - 1)
  }

  lemma {:induction false} FoundDown(fs: seq<string>, s: string, p: nat, end: nat, next: nat, q: nat)
    requires p <= next <= q <= end <= |s| && forall i: nat :: next < i <= q ==> !Candidate(s, p, end, i)
    ensures AllFound(fs, s, p, end, q) == AllFound(fs, s, p, end, next)
    decreases q
  {
    if q > next {
      FoundDown(fs, s, p, end, next, q - 1);
    }
  }

  lemma {:induction false} ImmediateFrom(fs: seq<string>, s: string, p: nat, end: nat, back: nat)
    requires p <= back <= end <= |s| && (back > p ==> Candidate(s, p, end, back))
    ensures InRange(fs, s, p, back, true) == AllFound(fs, s, p, end, back)
    decreases back
  {
    if back > p {
      var next := NextBack(s, p, back);
      NextIsNext(s, p, end, back);
      FoundDown(fs, s, p, end, next, back - 1);
      ImmediateFrom(fs, s, p, end, next);
    }
  }

  /** With the immediate flag a range gives the folders of all its candidates, from the
      longest to the shortest. */
  lemma ImmediateGivesAll(fs: seq<string>, s: string, p: nat, blank: bool)
    requires p <= |s|
    ensures var e := RangeEnd(s, p, blank); InRange(fs, s, p, e, true) == AllFound(fs, s, p, e, e)
  {
    ImmediateFrom(fs, s, p, RangeEnd(s, p, blank), RangeEnd(s, p, blank));
  }

  // ----- the order of the list

  /** The first place of `f` in `ws`, or `|ws|`. */
  function FirstOf(ws: seq<nat>, f: nat): (k: nat)
    ensures k <= |ws| && (k < |ws| <==> f in ws)
  {
    if ws == [] then 0 else if ws[0] == f then 0 else 1 + FirstOf(ws[1..], f)
  }

  /** Behind the first `n` folders of `l` come those of `ws` in the order in which they are
      first wanted. */
  ghost predicate ByFirst(l: seq<nat>, n: nat, ws: seq<nat>) {
    forall i, j :: n <= i < j < |l| ==> FirstOf(ws, l[i]) < FirstOf(ws, l[j])
  }

  lemma {:induction false} AppendedByFirst(fs: seq<string>, l: seq<nat>, ws: seq<nat>)
    requires Proper(fs, l) && forall f :: f in ws ==> f < |fs|
    ensures ByFirst(AppendAll(l, ws), |l|, ws)
    decreases |ws|
  {
    AppendAllProper(fs, l, ws);
    if ws != [] {
      var m := Append(l, ws[0]);
      assert ws[0] in ws && forall f :: f in ws[1..] ==> f in ws;
      AppendAllProper(fs, m, ws[1..]);
      AppendedByFirst(fs, m, ws[1..]);
      var r := AppendAll(l, ws);
      forall i, j | |l| <= i < j < |r|
        ensures FirstOf(ws, r[i]) < FirstOf(ws, r[j])
      {
        assert r[|m| - 1] == m[|m| - 1];
        assert r[i] != r[j];
        if i < |m| {
          assert r[i] == ws[0];
        } else {
          assert ws[0] in m;
          var k :| 0 <= k < |m| && m[k] == ws[0];
          assert r[k] == ws[0];
        }
      }
    }
  }

  /** The list begins with the folders wanted, each at the place of its first mention. */
  lemma ListInOrder(fs: seq<string>, s: string, blank: bool, immediate: bool)
    ensures var ws := Wanted(fs, s, 0, blank, immediate);
            ByFirst(AppendAll([], ws), 0, ws)
  {
    AppendedByFirst(fs, [], Wanted(fs, s, 0, blank, immediate));
  }
}

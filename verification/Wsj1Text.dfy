/** Texts printed by src/afb-wsj1.c are scanned back into what was printed. */
module Wsj1Text {
  import opened Options
  import opened Wsj1Scan

  // ----- values that the scanner passes over exactly

  /** Scanning `x` alone, `depth` brackets deep, meets no end before its own. */
  predicate Neutral(x: string, p: nat, depth: nat)
    requires p <= |x|
    decreases |x| - p
  {
    if p == |x| then depth == 0
    else if depth == 0 && Stops(x[p]) then false
    else if x[p] == '{' || x[p] == '[' then Neutral(x, p + 1, depth + 1)
    else if x[p] == '}' || x[p] == ']' then depth > 0 && Neutral(x, p + 1, depth - 1)
    else if x[p] == '"' then
      var q := SkipString(x, p + 1);
      q.Some? && Neutral(x, q.value, depth)
    else Neutral(x, p + 1, depth)
  }

  /** The text `t` has `x` at `base`. */
  ghost predicate LiesAt(t: string, base: nat, x: string) {
    base + |x| <= |t| && forall i :: 0 <= i < |x| ==> t[base + i] == x[i]
  }

  lemma {:induction false} StringWithin(t: string, base: nat, x: string, p: nat, at: nat)
    requires LiesAt(t, base, x) && p <= |x| && at == base + p
    ensures var r, big := SkipString(x, p), SkipString(t, at);
            && (r.Some? ==> big == Some(base + r.value))
            && (r.None? && big.Some? ==> big.value > base + |x|)
    decreases |x| - p
  {
    if p < |x| {
      assert t[at] == t[base + p] == x[p];
      if x[p] == '\\' {
        if p + 1 < |x| {
          StringWithin(t, base, x, p + 2, at + 2);
        }
      } else if x[p] != '"' {
        StringWithin(t, base, x, p + 1, at + 1);
      }
    }
  }

  /** Followed by a comma or a closing bracket, a value is passed over exactly if
      and only if it is neutral. */
  lemma ValueInContext(pre: string, x: string, post: string, p: nat, depth: nat)
    requires p <= |x| && post != [] && Stops(post[0])
    ensures SkipValue(pre + x + post, |pre| + p, depth) == Some(|pre| + |x|) <==> Neutral(x, p, depth)
  {
    var t := pre + x + post;
    LiesBetween(pre, x, post, t);
    ValueWithin(t, |pre|, x, p, |pre| + p, depth);
  }

  lemma LiesBetween(pre: string, x: string, post: string, t: string)
    requires t == pre + x + post && post != []
    ensures LiesAt(t, |pre|, x) && |pre| + |x| < |t| && t[|pre| + |x|] == post[0]
  {
    forall i | 0 <= i < |x|
      ensures t[|pre| + i] == x[i]
    {
      assert (pre + x)[|pre| + i] == x[i];
    }
  }

  lemma {:induction false} ValueWithin(t: string, base: nat, x: string, p: nat, at: nat, depth: nat)
    requires LiesAt(t, base, x) && base + |x| < |t| && Stops(t[base + |x|]) && p <= |x| && at == base + p
    ensures SkipValue(t, at, depth) == Some(base + |x|) <==> Neutral(x, p, depth)
    decreases |x| - p
  {
    if p == |x| {
      EndsHere(t, at, depth);
    } else {
      assert t[at] == t[base + p] == x[p];
      if depth == 0 && Stops(x[p]) {
      } else if x[p] == '{' || x[p] == '[' {
        ValueWithin(t, base, x, p + 1, at + 1, depth + 1);
      } else if x[p] == '}' || x[p] == ']' {
        if depth > 0 {
          ValueWithin(t, base, x, p + 1, at + 1, depth - 1);
        }
      } else if x[p] == '"' {
        StringWithin(t, base, x, p + 1, at + 1);
        var q := SkipString(x, p + 1);
        PastString(t, at, depth, SkipString(t, at + 1));
        if q.Some? {
          ValueWithin(t, base, x, q.value, base + q.value, depth);
        }
      } else {
        ValueWithin(t, base, x, p + 1, at + 1, depth);
      }
    }
  }

  lemma EndsHere(t: string, at: nat, depth: nat)
    requires at < |t| && Stops(t[at])
    ensures SkipValue(t, at, depth) == Some(at) <==> depth == 0
  {
  }

  /** A string inside a value is passed over. */
  lemma PastString(t: string, at: nat, depth: nat, r: Option<nat>)
    requires at < |t| && t[at] == '"' && r == SkipString(t, at + 1)
    ensures SkipValue(t, at, depth) == if r.None? then None else SkipValue(t, r.value, depth)
    ensures SkipValue(t, at, depth).Some? ==> r.Some? && r.value <= SkipValue(t, at, depth).value
  {
  }

  /** An item that may be printed: neutral, without blanks at its ends. */
  predicate Clean(x: string) {
    && Neutral(x, 0, 0)
    && (x != "" ==> x[0] != ' ' && x[|x| - 1] != ' ')
  }

  // ----- arrays

  function Joined(xs: seq<string>): string
    requires xs != []
  {
    if |xs| == 1 then xs[0] else xs[0] + "," + Joined(xs[1..])
  }

  function ArrayOf(xs: seq<string>): string
    requires xs != []
  {
    "[" + Joined(xs) + "]"
  }

  function Places(p: nat, xs: seq<string>): seq<Item>
    decreases |xs|
  {
    if xs == [] then [] else [Item(p, |xs[0]|)] + Places(p + |xs[0]| + 1, xs[1..])
  }

  lemma TrimNone(t: string, beg: nat, end: nat)
    requires beg <= end <= |t| && (end > beg ==> t[end - 1] != ' ')
    ensures Trim(t, beg, end) == end
  {
  }

  lemma BlanksNone(t: string, p: nat)
    requires p <= |t| && At(t, p) != ' '
    ensures SkipBlanks(t, p) == p
  {
  }

  /** The first character behind a separator. */
  lemma JoinedStart(xs: seq<string>)
    requires xs != [] && forall x :: x in xs ==> Clean(x)
    ensures (Joined(xs) + "]")[0] != ' '
  {
    assert xs[0] in xs;
    var j := Joined(xs);
    if |xs| > 1 {
      assert xs[0] != "" ==> j[0] == xs[0][0];
      assert xs[0] == "" ==> j[0] == ',';
    }
    assert j != "" ==> (j + "]")[0] == j[0];
  }

  /** One item: where it ends, and what is behind it. */
  lemma OneItem(t: string, p: nat, x: string, post: string)
    requires p <= |t| && t[p..] == x + post && Clean(x) && post != [] && Stops(post[0])
    ensures p + |x| < |t| && SkipValue(t, p, 0) == Some(p + |x|) && Trim(t, p, p + |x|) == p + |x|
    ensures t[p + |x|] == post[0] && t[p + |x| + 1..] == post[1..] && t[p..p + |x|] == x
  {
    var pre := t[..p];
    assert t == pre + x + post;
    ValueInContext(pre, x, post, 0, 0);
    assert x != "" ==> t[p + |x| - 1] == x[|x| - 1];
    TrimNone(t, p, p + |x|);
  }

  lemma PlacesStep(p: nat, xs: seq<string>, q: nat, rest: seq<string>, tail: seq<Item>)
    requires xs != [] && q == p + |xs[0]| + 1 && rest == xs[1..] && tail == Places(q, rest)
    ensures [Item(p, |xs[0]|)] + tail == Places(p, xs)
    ensures Some([Item(p, |xs[0]|)] + tail) == Some(Places(p, xs))
    ensures rest == [] ==> tail == []
  {
  }

  lemma LastItem(t: string, p: nat, x: string, n: nat)
    requires p <= |t| && t[p..] == x + "]" && n < MAX_ITEMS && Clean(x)
    ensures Items(t, p, n) == Some([Item(p, |x|)])
  {
    OneItem(t, p, x, "]");
    assert SkipBlanks(t, |t|) == |t|;
  }

  /** One item followed by a comma without blanks, and the items behind it. */
  lemma ItemsStep(t: string, p: nat, len: nat, q: nat, n: nat, tail: seq<Item>)
    requires q == p + len + 1 <= |t| && n < MAX_ITEMS && SkipValue(t, p, 0) == Some(p + len) && t[p + len] == ','
    requires Trim(t, p, p + len) == p + len && SkipBlanks(t, q) == q && Items(t, q, n + 1) == Some(tail)
    ensures Items(t, p, n) == Some([Item(p, len)] + tail)
  {
    ItemsMore(t, p, n, p + len, q, Some(tail));
  }

  lemma NextItem(t: string, p: nat, q: nat, x: string, tail: string)
    requires p <= |t| && q == p + |x| + 1 && t[p..] == x + ("," + tail) && Clean(x) && tail != "" && tail[0] != ' '
    ensures q < |t| && t[q..] == tail && SkipBlanks(t, q) == q
    ensures SkipValue(t, p, 0) == Some(p + |x|) && Trim(t, p, p + |x|) == p + |x| && t[p + |x|] == ','
  {
    OneItem(t, p, x, "," + tail);
    assert ("," + tail)[1..] == tail;
    assert t[q] == tail[0];
    BlanksNone(t, q);
  }

  lemma JoinedSplit(xs: seq<string>)
    requires |xs| > 1
    ensures Joined(xs) + "]" == xs[0] + ("," + (Joined(xs[1..]) + "]"))
  {
  }

  lemma NextOfJoined(t: string, p: nat, q: nat, xs: seq<string>, rest: seq<string>)
    requires |xs| > 1 && p <= |t| && t[p..] == Joined(xs) + "]" && Clean(xs[0]) && q == p + |xs[0]| + 1
    requires rest == xs[1..] && forall y :: y in rest ==> Clean(y)
    ensures q < |t| && t[q..] == Joined(rest) + "]" && SkipBlanks(t, q) == q
    ensures var e := p + |xs[0]|; SkipValue(t, p, 0) == Some(e) && Trim(t, p, e) == e && t[e] == ','
  {
    JoinedSplit(xs);
    JoinedStart(rest);
    NextItem(t, p, q, xs[0], Joined(rest) + "]");
  }

  lemma {:induction false} ItemsOfJoined(t: string, p: nat, xs: seq<string>, n: nat)
    requires xs != [] && p <= |t| && t[p..] == Joined(xs) + "]" && n + |xs| <= MAX_ITEMS && forall x :: x in xs ==>
             Clean(x)
    ensures Items(t, p, n) == Some(Places(p, xs))
    decreases |xs|
  {
    var x, rest, q := xs[0], xs[1..], p + |xs[0]| + 1;
    assert x in xs;
    if |xs| == 1 {
      LastItem(t, p, x, n);
      PlacesStep(p, xs, q, rest, []);
      assert [Item(p, |x|)] + [] == [Item(p, |x|)];
    } else {
      assert forall y :: y in rest ==> y in xs;
      NextOfJoined(t, p, q, xs, rest);
      ItemsOfJoined(t, q, rest, n + 1);
      ItemsStep(t, p, |x|, q, n, Places(q, rest));
      PlacesStep(p, xs, q, rest, Places(q, rest));
    }
  }

  /** An array of clean items, the first one not empty, is scanned into them. */
  lemma ScanOfArray(xs: seq<string>)
    requires 0 < |xs| <= MAX_ITEMS && xs[0] != "" && forall x :: x in xs ==> Clean(x)
    ensures Scan(ArrayOf(xs)) == Some(Places(1, xs))
  {
    assert xs[0] in xs;
    ArrayStart(xs);
    ScanJoined(ArrayOf(xs), xs);
  }

  lemma ScanJoined(t: string, xs: seq<string>)
    requires 0 < |xs| <= MAX_ITEMS && forall x :: x in xs ==> Clean(x)
    requires |t| > 1 && t[0] == '[' && t[1] != ' ' && !Stops(t[1]) && t[1..] == Joined(xs) + "]"
    ensures Scan(t) == Some(Places(1, xs))
  {
    ScanFrom(t);
    ItemsOfJoined(t, 1, xs, 0);
  }

  lemma ArrayStart(xs: seq<string>)
    requires xs != [] && xs[0] != "" && Clean(xs[0])
    ensures var t := ArrayOf(xs);
            |t| > 1 && t[0] == '[' && t[1] != ' ' && !Stops(t[1]) && t[1..] == Joined(xs) + "]"
  {
    var t := ArrayOf(xs);
    assert Joined(xs)[0] == xs[0][0];
    assert t[1] == xs[0][0];
  }

  lemma ScanFrom(t: string)
    requires |t| > 1 && t[0] == '[' && t[1] != ' ' && !Stops(t[1])
    ensures Scan(t) == Items(t, 1, 0)
  {
    BlanksNone(t, 0);
    BlanksNone(t, 1);
  }

  /** Each place holds its item. */
  lemma {:induction false} PlaceHolds(t: string, p: nat, xs: seq<string>, i: nat)
    requires xs != [] && p <= |t| && t[p..] == Joined(xs) + "]" && i < |xs|
    ensures |Places(p, xs)| == |xs|
    ensures var it := Places(p, xs)[i];
            it.offset + it.length < |t| && t[it.offset..it.offset + it.length] == xs[i]
    decreases |xs|
  {
    var x, q := xs[0], p + |xs[0]| + 1;
    PlacesStep(p, xs, q, xs[1..], Places(q, xs[1..]));
    assert t[p..p + |x|] == t[p..][..|x|];
    if |xs| > 1 {
      JoinedSplit(xs);
      assert t[q..] == t[p..][|x| + 1..];
      PlaceHolds(t, q, xs[1..], if i == 0 then 0 else i - 1);
    }
  }

  // ----- strings

  function Quoted(s: string): string {
    "\"" + s + "\""
  }

  /** Every quote in the string is escaped and no backslash is left at its end. */
  predicate Escaped(s: string) {
    SkipString(s + "\"", 0) == Some(|s| + 1)
  }

  lemma EscapedClean(s: string)
    requires Escaped(s)
    ensures Clean(Quoted(s))
  {
    var x := Quoted(s);
    StringWithin(x, 1, s + "\"", 0, 1);
  }

  /** In particular strings without quotes and backslashes. */
  lemma {:induction false} PlainEscaped(s: string, p: nat)
    requires p <= |s| && '"' !in s[p..] && '\\' !in s[p..]
    ensures SkipString(s + "\"", p) == Some(|s| + 1)
    decreases |s| - p
  {
    if p < |s| {
      assert s[p] in s[p..];
      assert s[p + 1..] == s[p..][1..];
      PlainEscaped(s, p + 1);
    }
  }
}

/** Which texts the scanner of src/afb-wsj1.c accepts, and what it finds in them. */
module Wsj1Grammar {
  import opened Options
  import opened Wsj1Scan
  import opened Wsj1Text

  /** Blanks, then an item with the blanks behind it. */
  datatype Part = Part(gap: string, text: string)

  predicate Blanks(s: string) {
    forall i :: 0 <= i < |s| ==> s[i] == ' '
  }

  /** The item is balanced, without a comma or a closing bracket of its own in the open. */
  predicate Fine(p: Part) {
    Blanks(p.gap) && Neutral(p.text, 0, 0) && (p.text != "" ==> p.text[0] != ' ')
  }

  /** The parts with commas between them, up to the closing bracket. */
  function Body(ps: seq<Part>): string
    requires ps != []
  {
    ps[0].gap + (ps[0].text + (if |ps| == 1 then "]" else "," + Body(ps[1..])))
  }

  /** An item without the blanks behind it. */
  function Trimmed(x: string): nat {
    Trim(x, 0, |x|)
  }

  /** Where the items lie when the parts begin at `p`. */
  function Found(p: nat, ps: seq<Part>): seq<Item>
    decreases |ps|
  {
    if ps == [] then []
    else [Item(p + |ps[0].gap|, Trimmed(ps[0].text))] + Found(p + |ps[0].gap| + |ps[0].text| + 1, ps[1..])
  }

  // ----- from the parts to the items

  lemma {:induction false} BlanksTo(t: string, p: nat, q: nat)
    requires p <= q <= |t| && At(t, q) != ' ' && forall i :: p <= i < q ==> t[i] == ' '
    ensures SkipBlanks(t, p) == q
    decreases q - p
  {
    if p < q {
      BlanksTo(t, p + 1, q);
    }
  }

  /** Trimming does not depend on where the item lies. */
  lemma {:induction false} TrimMoved(t: string, q: nat, x: string, n: nat)
    requires LiesAt(t, q, x) && n <= |x|
    ensures Trim(t, q, q + n) == q + Trim(x, 0, n)
    decreases n
  {
    if n > 0 {
      assert t[q + (n - 1)] == x[n - 1];
      TrimMoved(t, q, x, n - 1);
    }
  }

  /** What stands at `p` of the text, split in two. */
  lemma SuffixSplit(t: string, p: nat, a: string, b: string)
    requires p <= |t| && t[p..] == a + b
    ensures p + |a| <= |t| && t[p + |a|..] == b && t[p..p + |a|] == a && LiesAt(t, p, a)
    ensures t == t[..p] + a + b
  {
    assert t[p + |a|..] == t[p..][|a|..];
    assert t[p..p + |a|] == t[p..][..|a|];
    forall i | 0 <= i < |a|
      ensures t[p + i] == a[i]
    {
      assert t[p..][i] == a[i];
    }
  }

  /** Blanks are skipped up to what follows them. */
  lemma GapSkipped(t: string, p: nat, gap: string, rest: string)
    requires p <= |t| && t[p..] == gap + rest && Blanks(gap) && (rest == "" || rest[0] != ' ')
    ensures SkipBlanks(t, p) == p + |gap|
  {
    SuffixSplit(t, p, gap, rest);
    forall i | p <= i < p + |gap|
      ensures t[i] == ' '
    {
      assert t[p + (i - p)] == gap[i - p];
    }
    assert rest != "" ==> t[p + |gap|..][0] == rest[0];
    BlanksTo(t, p, p + |gap|);
  }

  lemma TrimAt(t: string, q: nat, x: string)
    requires LiesAt(t, q, x)
    ensures ItemAt(t, q, q + |x|) == Item(q, Trimmed(x))
  {
    TrimMoved(t, q, x, |x|);
  }

  lemma FirstOf(t: string, e: nat, post: string)
    requires e <= |t| && t[e..] == post && post != ""
    ensures e < |t| && t[e] == post[0]
  {
    assert t[e..][0] == t[e];
  }

  /** An item is passed over and trimmed. */
  lemma ItemPassed(t: string, q: nat, x: string, post: string)
    requires q <= |t| && t[q..] == x + post && Neutral(x, 0, 0) && post != "" && Stops(post[0])
    ensures q + |x| < |t| && SkipValue(t, q, 0) == Some(q + |x|) && ItemAt(t, q, q + |x|) == Item(q, Trimmed(x))
    ensures t[q + |x|] == post[0] && t[q + |x|..] == post
  {
    SuffixSplit(t, q, x, post);
    FirstOf(t, q + |x|, post);
    ValueWithin(t, q, x, 0, q, 0);
    TrimAt(t, q, x);
  }

  /** What follows the gap of a part is no blank. */
  lemma NoBlank(x: string, post: string)
    requires (x != "" ==> x[0] != ' ') && post != "" && Stops(post[0])
    ensures x + post != "" && (x + post)[0] != ' '
  {
  }

  /** What follows a part is where it ends. */
  lemma PartEnds(t: string, p: nat, x: Part, post: string, q: nat, e: nat)
    requires p <= |t| && t[p..] == x.gap + (x.text + post) && q == p + |x.gap| && e == q + |x.text|
    ensures e <= |t| && t[q..] == x.text + post && t[e..] == post
  {
    SuffixSplit(t, p, x.gap, x.text + post);
    SuffixSplit(t, q, x.text, post);
  }

  /** One part: the blanks are skipped, the item is passed over and trimmed. */
  lemma PartScanned(t: string, p: nat, x: Part, post: string, q: nat, e: nat)
    requires p <= |t| && t[p..] == x.gap + (x.text + post) && Fine(x) && post != "" && Stops(post[0])
    requires q == p + |x.gap| && e == q + |x.text|
    ensures e < |t| && SkipBlanks(t, p) == q && SkipValue(t, q, 0) == Some(e)
    ensures ItemAt(t, q, e) == Item(q, Trimmed(x.text)) && t[e] == post[0]
  {
    PartEnds(t, p, x, post, q, e);
    NoBlank(x.text, post);
    GapSkipped(t, p, x.gap, x.text + post);
    ItemPassed(t, q, x.text, post);
  }

  lemma Behind(t: string, e: nat, stop: string, rest: string)
    requires e < |t| && t[e..] == stop + rest && |stop| == 1
    ensures t[e + 1..] == rest
  {
    SuffixSplit(t, e, stop, rest);
  }

  lemma ClosedBy(t: string, e: nat, bend: string)
    requires e < |t| && t[e..] == "]" + bend && Blanks(bend)
    ensures Closed(t, e)
  {
    Behind(t, e, "]", bend);
    assert bend + "" == bend;
    GapSkipped(t, e + 1, bend, "");
  }

  lemma FoundStep(p: nat, ps: seq<Part>, x: Part, rest: seq<Part>, q: nat, e: nat)
    requires ps != [] && x == ps[0] && rest == ps[1..] && q == p + |x.gap| && e == q + |x.text|
    ensures Found(p, ps) == [Item(q, Trimmed(x.text))] + Found(e + 1, rest)
  {
  }

  lemma LastPart(t: string, p: nat, ps: seq<Part>, bend: string, n: nat)
    requires |ps| == 1 && p <= |t| && t[p..] == ps[0].gap + (ps[0].text + ("]" + bend)) && Fine(ps[0])
    requires Blanks(bend) && n < MAX_ITEMS
    ensures Items(t, SkipBlanks(t, p), n) == Some(Found(p, ps))
  {
    var x := ps[0];
    var q, e := p + |x.gap|, p + |x.gap| + |x.text|;
    PartScanned(t, p, x, "]" + bend, q, e);
    PartEnds(t, p, x, "]" + bend, q, e);
    ClosedBy(t, e, bend);
    ItemsLast(t, q, n, e);
    FoundStep(p, ps, x, [], q, e);
    assert Found(e + 1, []) == [];
    assert [Item(q, Trimmed(x.text))] + [] == [Item(q, Trimmed(x.text))];
  }

  /** Where the next part begins. */
  lemma NextBegins(t: string, p: nat, ps: seq<Part>, bend: string, q: nat, e: nat)
    requires |ps| > 1 && p <= |t| && t[p..] == Body(ps) + bend
    requires q == p + |ps[0].gap| && e == q + |ps[0].text|
    ensures e + 1 <= |t| && t[e + 1..] == Body(ps[1..]) + bend
  {
    var tail := Body(ps[1..]) + bend;
    BodyMore(ps, bend);
    PartEnds(t, p, ps[0], "," + tail, q, e);
    Behind(t, e, ",", tail);
  }

  /** The first item and those behind it. */
  lemma NextPart(t: string, p: nat, ps: seq<Part>, bend: string, n: nat, q: nat, e: nat, rest: Option<seq<Item>>)
    requires |ps| > 1 && p <= |t| && t[p..] == Body(ps) + bend && Fine(ps[0]) && n < MAX_ITEMS
    requires q == p + |ps[0].gap| && e == q + |ps[0].text| && e + 1 <= |t|
    requires rest == Items(t, SkipBlanks(t, e + 1), n + 1)
    ensures Items(t, SkipBlanks(t, p), n) == Prepend([Item(q, Trimmed(ps[0].text))], rest)
  {
    BodyMore(ps, bend);
    PartScanned(t, p, ps[0], "," + (Body(ps[1..]) + bend), q, e);
    ItemsMore(t, q, n, e, SkipBlanks(t, e + 1), rest);
  }

  lemma BodyMore(ps: seq<Part>, bend: string)
    requires |ps| > 1
    ensures Body(ps) + bend == ps[0].gap + (ps[0].text + ("," + (Body(ps[1..]) + bend)))
  {
  }

  lemma BodyLast(ps: seq<Part>, bend: string)
    requires |ps| == 1
    ensures Body(ps) + bend == ps[0].gap + (ps[0].text + ("]" + bend))
  {
  }

  lemma FoundMore(ps: seq<Part>, p: nat, q: nat, e: nat, r: Option<seq<Item>>, rest: Option<seq<Item>>)
    requires ps != [] && q == p + |ps[0].gap| && e == q + |ps[0].text|
    requires r == Prepend([Item(q, Trimmed(ps[0].text))], rest) && rest == Some(Found(e + 1, ps[1..]))
    ensures r == Some(Found(p, ps))
  {
    FoundStep(p, ps, ps[0], ps[1..], q, e);
  }

  lemma MoreScanned(t: string, p: nat, ps: seq<Part>, bend: string, n: nat, q: nat, e: nat, rest: Option<seq<Item>>)
    requires |ps| > 1 && p <= |t| && t[p..] == Body(ps) + bend && Fine(ps[0]) && n < MAX_ITEMS
    requires q == p + |ps[0].gap| && e == q + |ps[0].text| && e + 1 <= |t|
    requires rest == Items(t, SkipBlanks(t, e + 1), n + 1) && rest == Some(Found(e + 1, ps[1..]))
    ensures Items(t, SkipBlanks(t, p), n) == Some(Found(p, ps))
  {
    NextPart(t, p, ps, bend, n, q, e, rest);
    FoundMore(ps, p, q, e, Items(t, SkipBlanks(t, p), n), rest);
  }

  ghost predicate AllFine(ps: seq<Part>) {
    forall i :: 0 <= i < |ps| ==> Fine(ps[i])
  }

  lemma FineRest(ps: seq<Part>)
    requires AllFine(ps) && ps != []
    ensures Fine(ps[0]) && AllFine(ps[1..])
  {
  }

  lemma OneScanned(t: string, p: nat, ps: seq<Part>, bend: string, n: nat)
    requires |ps| == 1 && n < MAX_ITEMS && Fine(ps[0]) && Blanks(bend)
    requires p <= |t| && t[p..] == Body(ps) + bend
    ensures Items(t, SkipBlanks(t, p), n) == Some(Found(p, ps))
  {
    BodyLast(ps, bend);
    LastPart(t, p, ps, bend, n);
  }

  /** The text from `p` on is the parts, to the closing bracket, and blanks. */
  ghost predicate Lies(t: string, p: nat, ps: seq<Part>, bend: string) {
    p <= |t| && ps != [] && AllFine(ps) && Blanks(bend) && t[p..] == Body(ps) + bend
  }

  /** The scanner finds the items of the parts from `p` on. */
  ghost predicate Finds(t: string, p: nat, ps: seq<Part>, n: nat) {
    p <= |t| && Items(t, SkipBlanks(t, p), n) == Some(Found(p, ps))
  }

  function NextAt(p: nat, ps: seq<Part>): nat
    requires ps != []
  {
    p + |ps[0].gap| + |ps[0].text| + 1
  }

  lemma LiesNext(t: string, p: nat, ps: seq<Part>, bend: string)
    requires Lies(t, p, ps, bend) && |ps| > 1
    ensures Lies(t, NextAt(p, ps), ps[1..], bend)
  {
    FineRest(ps);
    NextBegins(t, p, ps, bend, p + |ps[0].gap|, p + |ps[0].gap| + |ps[0].text|);
  }

  lemma FindsOne(t: string, p: nat, ps: seq<Part>, bend: string, n: nat)
    requires Lies(t, p, ps, bend) && |ps| == 1 && n < MAX_ITEMS
    ensures Finds(t, p, ps, n)
  {
    FineRest(ps);
    OneScanned(t, p, ps, bend, n);
  }

  lemma FindsMore(t: string, p: nat, ps: seq<Part>, bend: string, n: nat)
    requires Lies(t, p, ps, bend) && |ps| > 1 && n < MAX_ITEMS && Finds(t, NextAt(p, ps), ps[1..], n + 1)
    ensures Finds(t, p, ps, n)
  {
    FineRest(ps);
    var q, e := p + |ps[0].gap|, p + |ps[0].gap| + |ps[0].text|;
    MoreScanned(t, p, ps, bend, n, q, e, Items(t, SkipBlanks(t, e + 1), n + 1));
  }

  /** Part after part: what holds of the last one and passes to each from the next one. */
  lemma {:induction false} FromTheLast(p: nat, ps: seq<Part>, n: nat, lies: (nat, seq<Part>) -> bool,
      finds: (nat, seq<Part>, nat) -> bool)
    requires ps != [] && n + |ps| <= MAX_ITEMS && lies(p, ps)
    requires forall q: nat, xs :: lies(q, xs) && |xs| > 1 ==> lies(NextAt(q, xs), xs[1..])
    requires forall q: nat, xs, m: nat :: lies(q, xs) && |xs| == 1 && m < MAX_ITEMS ==> finds(q, xs, m)
    requires forall q: nat, xs, m: nat ::
               lies(q, xs) && |xs| > 1 && m < MAX_ITEMS && finds(NextAt(q, xs), xs[1..], m + 1) ==> finds(q, xs, m)
    ensures finds(p, ps, n)
    decreases |ps|
  {
    if |ps| > 1 {
      FromTheLast(NextAt(p, ps), ps[1..], n + 1, lies, finds);
    }
  }

  lemma PartsScanned(t: string, p: nat, ps: seq<Part>, bend: string, n: nat)
    requires Lies(t, p, ps, bend) && n + |ps| <= MAX_ITEMS
    ensures Finds(t, p, ps, n)
  {
    var lies := (q: nat, xs: seq<Part>) => Lies(t, q, xs, bend);
    var finds := (q: nat, xs: seq<Part>, m: nat) => Finds(t, q, xs, m);
    forall q: nat, xs | lies(q, xs) && |xs| > 1
      ensures lies(NextAt(q, xs), xs[1..])
    {
      LiesNext(t, q, xs, bend);
    }
    forall q: nat, xs, m: nat | lies(q, xs) && |xs| == 1 && m < MAX_ITEMS
      ensures finds(q, xs, m)
    {
      FindsOne(t, q, xs, bend, m);
    }
    forall q: nat, xs, m: nat | lies(q, xs) && |xs| > 1 && m < MAX_ITEMS && finds(NextAt(q, xs), xs[1..], m + 1)
      ensures finds(q, xs, m)
    {
      FindsMore(t, q, xs, bend, m);
    }
    FromTheLast(p, ps, n, lies, finds);
  }

  // ----- from the items to the parts

  /** What was passed over is balanced. */
  lemma PassedNeutral(t: string, q: nat, e: nat)
    requires q <= |t| && SkipValue(t, q, 0) == Some(e)
    ensures q <= e < |t| && Neutral(t[q..e], 0, 0)
  {
    assert forall i :: 0 <= i < e - q ==> t[q + i] == t[q..e][i];
    ValueWithin(t, q, t[q..e], 0, q, 0);
  }

  lemma GapBlank(t: string, p: nat, q: nat)
    requires p <= |t| && q == SkipBlanks(t, p)
    ensures Blanks(t[p..q])
  {
  }

  lemma PartFine(t: string, p: nat, q: nat, e: nat)
    requires p <= |t| && q == SkipBlanks(t, p) && SkipValue(t, q, 0) == Some(e)
    ensures p <= q <= e < |t| && Fine(Part(t[p..q], t[q..e])) && t[p..] == t[p..q] + (t[q..e] + t[e..])
  {
    GapBlank(t, p, q);
    PassedNeutral(t, q, e);
    assert t[q..e] != "" ==> t[q..e][0] == t[q];
  }

  lemma OnlyPart(t: string, p: nat, x: Part, e: nat) returns (ps: seq<Part>, bend: string)
    requires p <= e < |t| && t[p..] == x.gap + (x.text + t[e..]) && t[e] == ']' && Closed(t, e) && Fine(x)
    ensures |ps| == 1 && ps[0] == x && AllFine(ps) && Blanks(bend) && t[p..] == Body(ps) + bend
  {
    GapBlank(t, e + 1, |t|);
    ps, bend := [x], t[e + 1..];
    assert t[e..] == "]" + bend && t[e + 1..|t|] == bend;
    BodyLast(ps, bend);
  }

  lemma MoreParts(t: string, p: nat, x: Part, e: nat, rest: seq<Part>, bend: string) returns (ps: seq<Part>)
    requires p <= e < |t| && t[p..] == x.gap + (x.text + t[e..]) && t[e] == ',' && Fine(x)
    requires rest != [] && AllFine(rest) && t[e + 1..] == Body(rest) + bend
    ensures |ps| == |rest| + 1 && AllFine(ps) && t[p..] == Body(ps) + bend
  {
    ps := [x] + rest;
    assert ps[1..] == rest && t[e..] == "," + t[e + 1..];
    BodyMore(ps, bend);
  }

  /** The first item of an accepted text. */
  lemma FirstFound(t: string, p: nat, n: nat, q: nat, e: nat) returns (x: Part)
    requires p <= |t| && q == SkipBlanks(t, p) && Items(t, q, n).Some? && e == SkipValue(t, q, 0).value
    ensures p <= e < |t| && t[p..] == x.gap + (x.text + t[e..]) && Fine(x) && n < MAX_ITEMS
    ensures t[e] == ']' ==> Closed(t, e)
    ensures t[e] != ']' ==> t[e] == ',' && Items(t, SkipBlanks(t, e + 1), n + 1).Some?
  {
    PartFine(t, p, q, e);
    x := Part(t[p..q], t[q..e]);
    if t[e] == ']' {
      ItemsLast(t, q, n, e);
    } else {
      ItemsMore(t, q, n, e, SkipBlanks(t, e + 1), Items(t, SkipBlanks(t, e + 1), n + 1));
    }
  }

  ghost predicate Accepts(t: string, p: nat, n: nat) {
    p <= |t| && Items(t, SkipBlanks(t, p), n).Some?
  }

  lemma OnlyLies(t: string, p: nat, x: Part, e: nat) returns (ps: seq<Part>, bend: string)
    requires p <= e < |t| && t[p..] == x.gap + (x.text + t[e..]) && t[e] == ']' && Closed(t, e) && Fine(x)
    ensures |ps| == 1 && Lies(t, p, ps, bend)
  {
    ps, bend := OnlyPart(t, p, x, e);
  }

  lemma MoreLies(t: string, p: nat, x: Part, e: nat, rest: seq<Part>, bend: string) returns (ps: seq<Part>)
    requires p <= e < |t| && t[p..] == x.gap + (x.text + t[e..]) && t[e] == ',' && Fine(x)
    requires Lies(t, e + 1, rest, bend)
    ensures |ps| == |rest| + 1 && Lies(t, p, ps, bend)
  {
    ps := MoreParts(t, p, x, e, rest, bend);
  }

  /** The first part of an accepted text, and the text behind it. */
  lemma FirstPart(t: string, p: nat, n: nat) returns (x: Part, e: nat)
    requires Accepts(t, p, n)
    ensures p <= e < |t| && t[p..] == x.gap + (x.text + t[e..]) && Fine(x) && n < MAX_ITEMS
    ensures if t[e] == ']' then Closed(t, e) else t[e] == ',' && Accepts(t, e + 1, n + 1)
  {
    var q := SkipBlanks(t, p);
    e := SkipValue(t, q, 0).value;
    x := FirstFound(t, p, n, q, e);
  }

  /** The parts of an accepted text from `p` on. */
  lemma {:induction false} PartsFound(t: string, p: nat, n: nat) returns (ps: seq<Part>, bend: string)
    requires Accepts(t, p, n)
    ensures n + |ps| <= MAX_ITEMS && Lies(t, p, ps, bend)
    decreases |t| - p
  {
    var x, e := FirstPart(t, p, n);
    if t[e] == ']' {
      ps, bend := OnlyLies(t, p, x, e);
    } else {
      var rest;
      rest, bend := PartsFound(t, e + 1, n + 1);
      ps := MoreLies(t, p, x, e, rest, bend);
    }
  }

  // ----- whole texts

  /** The text is an array: blanks, a bracket, the parts to the closing bracket, blanks; one
      empty item alone is no item. */
  ghost predicate ArrayText(t: string, front: string, ps: seq<Part>, bend: string) {
    && Blanks(front) && Blanks(bend) && 0 < |ps| <= 10 && AllFine(ps)
    && (|ps| == 1 ==> ps[0].text != "")
    && t == front + ("[" + (Body(ps) + bend))
  }

  lemma Opened(t: string, front: string, rest: string)
    requires Blanks(front) && t == front + ("[" + rest)
    ensures SkipBlanks(t, 0) == |front| && At(t, |front|) == '[' && |front| + 1 <= |t| && t[|front| + 1..] == rest
  {
    assert t[0..] == t;
    GapSkipped(t, 0, front, "[" + rest);
    SuffixSplit(t, 0, front, "[" + rest);
    assert t[|front|..][0] == '[';
    Behind(t, |front|, "[", rest);
  }

  /** Behind the opening bracket an array with items does not close at once. */
  lemma FirstItem(t: string, p: nat, ps: seq<Part>, bend: string)
    requires ps != [] && p <= |t| && t[p..] == Body(ps) + bend && Fine(ps[0]) && (|ps| == 1 ==> ps[0].text != "")
    ensures At(t, SkipBlanks(t, p)) != ']'
  {
    var x := ps[0];
    var q, e := p + |x.gap|, p + |x.gap| + |x.text|;
    if |ps| == 1 {
      BodyLast(ps, bend);
      PartScanned(t, p, x, "]" + bend, q, e);
    } else {
      BodyMore(ps, bend);
      PartScanned(t, p, x, "," + (Body(ps[1..]) + bend), q, e);
    }
  }

  lemma ArrayScanned(t: string, front: string, ps: seq<Part>, bend: string)
    requires ArrayText(t, front, ps, bend)
    ensures Scan(t) == Some(Found(|front| + 1, ps))
  {
    var p := |front| + 1;
    Opened(t, front, Body(ps) + bend);
    PartsScanned(t, p, ps, bend, 0);
    FirstItem(t, p, ps, bend);
  }

  lemma ScanOpens(t: string) returns (front: string, p: nat)
    requires Scan(t).Some? && Scan(t).value != []
    ensures p == |front| + 1 <= |t| && Blanks(front) && t == front + ("[" + t[p..])
    ensures At(t, SkipBlanks(t, p)) != ']' && Items(t, SkipBlanks(t, p), 0).Some?
  {
    var k := SkipBlanks(t, 0);
    GapBlank(t, 0, k);
    front, p := t[0..k], k + 1;
  }

  /** No single empty item is found. */
  lemma NotEmpty(t: string, p: nat, ps: seq<Part>, bend: string)
    requires |ps| == 1 && p <= |t| && t[p..] == Body(ps) + bend && Fine(ps[0]) && At(t, SkipBlanks(t, p)) != ']'
    ensures ps[0].text != ""
  {
    BodyLast(ps, bend);
    if ps[0].text == "" {
      PartScanned(t, p, ps[0], "]" + bend, p + |ps[0].gap|, p + |ps[0].gap|);
    }
  }

  lemma ScannedArray(t: string) returns (front: string, ps: seq<Part>, bend: string)
    requires Scan(t).Some? && Scan(t).value != []
    ensures ArrayText(t, front, ps, bend)
  {
    var p;
    front, p := ScanOpens(t);
    ps, bend := PartsFound(t, p, 0);
    if |ps| == 1 {
      NotEmpty(t, p, ps, bend);
    }
  }

  /** The scanner finds the items `items`, at least one, exactly in the arrays that have
      them there: at most ten balanced items between commas, with any blanks around them. */
  lemma ScanIff(t: string, items: seq<Item>)
    requires items != []
    ensures Scan(t) == Some(items) <==>
              exists front, ps, bend :: ArrayText(t, front, ps, bend) && items == Found(|front| + 1, ps)
  {
    if Scan(t) == Some(items) {
      var front, ps, bend := ScannedArray(t);
      ArrayScanned(t, front, ps, bend);
    }
    if exists front, ps, bend :: ArrayText(t, front, ps, bend) && items == Found(|front| + 1, ps) {
      var front, ps, bend :| ArrayText(t, front, ps, bend) && items == Found(|front| + 1, ps);
      ArrayScanned(t, front, ps, bend);
    }
  }
}

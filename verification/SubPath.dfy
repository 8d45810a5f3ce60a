/** The two checks of relative paths: validsubpath of src/locale-root.c and of
    src/afb-hreq.c. */
module SubPath {

  const NUL: char := '\0'

  type path = s: string | NUL !in s

  // ----- the meaning

  /** Everything before the first slash. */
  function First(s: string): (c: string)
    ensures c <= s && '/' !in c
    ensures |c| < |s| ==> s[|c|] == '/'
  {
    if s == "" || s[0] == '/' then "" else [s[0]] + First(s[1..])
  }

  function Components(s: string): seq<string>
    decreases |s|
  {
    var c := First(s);
    if |c| == |s| then [c] else [c] + Components(s[|c| + 1..])
  }

  /** How far a component leads away from the root. */
  function Rise(c: string): int {
    if c == "" || c == "." then 0 else if c == ".." then -1 else 1
  }

  function Balance(cs: seq<string>): int {
    if cs == [] then 0 else Rise(cs[0]) + Balance(cs[1..])
  }

  /** No prefix of the path has more ".." than names. */
  ghost predicate Inside(s: string) {
    forall k :: 0 <= k <= |Components(s)| ==> Balance(Components(s)[..k]) >= 0
  }

  // ----- a counter that does not rise again once negative

  function Step(c: string, l: int): int {
    if l < 0 && Rise(c) > 0 then l else l + Rise(c)
  }

  function Count(cs: seq<string>, l: int): int {
    if cs == [] then l else Count(cs[1..], Step(cs[0], l))
  }

  lemma {:induction false} NegativeStays(cs: seq<string>, l: int)
    requires l < 0
    ensures Count(cs, l) < 0
  {
    if cs != [] {
      NegativeStays(cs[1..], Step(cs[0], l));
    }
  }

  lemma {:induction false} CountInside(cs: seq<string>, l: int)
    requires l >= 0
    ensures Count(cs, l) >= 0 <==> forall k :: 0 <= k <= |cs| ==> l + Balance(cs[..k]) >= 0
  {
    if cs == [] {
      assert forall k :: 0 <= k <= |cs| ==> cs[..k] == [];
    } else {
      var r := l + Rise(cs[0]);
      assert cs[..1] == [cs[0]] && [cs[0]][1..] == [];
      assert l + Balance(cs[..1]) == r;
      assert forall k :: 1 <= k <= |cs| ==> cs[..k][0] == cs[0] && cs[..k][1..] == cs[1..][..k - 1];
      assert forall k :: 1 <= k <= |cs| ==> l + Balance(cs[..k]) == r + Balance(cs[1..][..k - 1]);
      if r < 0 {
        NegativeStays(cs[1..], r);
      } else {
        CountInside(cs[1..], r);
        if Count(cs, l) < 0 {
          var k :| 0 <= k <= |cs[1..]| && r + Balance(cs[1..][..k]) < 0;
          assert l + Balance(cs[..k + 1]) < 0;
        }
      }
    }
  }

  /** The count over a text that begins at a component or at a slash. */
  function Walk(s: string, l: int): int
    decreases |s|
  {
    if s == "" then l
    else if s[0] == '/' then Walk(s[1..], l)
    else Walk(s[|First(s)|..], Step(First(s), l))
  }

  lemma {:induction false} WalkComponents(s: string, l: int)
    ensures Walk(s, l) == Count(Components(s), l)
    decreases |s|
  {
    var c := First(s);
    if s == "" {
      assert Components(s) == [""] && [""][1..] == [];
    } else if s[0] == '/' {
      WalkComponents(s[1..], l);
      assert Components(s) == [""] + Components(s[1..]);
      assert Components(s)[1..] == Components(s[1..]);
    } else {
      var rest := s[|c|..];
      if rest == "" {
        assert Components(s) == [c] && [c][1..] == [];
      } else {
        WalkComponents(rest[1..], Step(c, l));
        assert rest[1..] == s[|c| + 1..];
        assert Components(s)[1..] == Components(s[|c| + 1..]);
        assert Walk(rest, Step(c, l)) == Walk(rest[1..], Step(c, l));
      }
    }
  }

  /** The count stays at or above zero exactly for the paths that stay inside. */
  lemma WalkInside(s: string)
    ensures Walk(s, 0) >= 0 <==> Inside(s)
  {
    WalkComponents(s, 0);
    CountInside(Components(s), 0);
  }

  // ----- the loops

  function At(s: string, i: nat): char
    requires i <= |s|
  {
    if i < |s| then s[i] else NUL
  }

  lemma {:induction false} FirstEnds(s: string, n: nat)
    requires n <= |s| && '/' !in s[..n] && (n < |s| ==> s[n] == '/')
    ensures First(s) == s[..n]
  {
    if n > 0 {
      assert s[0] in s[..n];
      assert s[1..][..n - 1] == s[..n][1..];
      FirstEnds(s[1..], n - 1);
      assert [s[0]] + s[1..][..n - 1] == s[..n];
    }
  }

  datatype Seen = Dot | DotDot | Slash | Name

  /** What a turn of the switch does to the counter. */
  function Effect(seen: Seen, l: int): int {
    if seen == DotDot then l - 1 else if seen == Name && l >= 0 then l + 1 else l
  }

  /** Reading on at `i` instead of `i0` is right when `seen` was counted. */
  ghost predicate Passed(s: string, i0: nat, seen: Seen, i: nat)
    requires i0 <= i <= |s|
  {
    forall l :: Walk(s[i0..], l) == Walk(s[i..], Effect(seen, l))
  }

  predicate Means(c: string, seen: Seen) {
    match seen
    case Dot => c == "."
    case DotDot => c == ".."
    case Name => c != "" && c != "." && c != ".."
    case Slash => false
  }

  /** A component ends at `e`; reading goes on there, or behind its slash. */
  lemma PassedAt(s: string, i0: nat, e: nat, seen: Seen)
    requires i0 < e <= |s| && '/' !in s[i0..e] && (e < |s| ==> s[e] == '/') && Means(s[i0..e], seen)
    ensures Passed(s, i0, seen, e) && (e < |s| ==> Passed(s, i0, seen, e + 1))
  {
    var t, n := s[i0..], e - i0;
    assert t[..n] == s[i0..e] && t[n..] == s[e..];
    FirstEnds(t, n);
    assert t[0] in s[i0..e];
    assert forall l :: Step(t[..n], l) == Effect(seen, l);
    assert e < |s| ==> s[e..][1..] == s[e + 1..];
  }

  lemma PassedSlash(s: string, i0: nat)
    requires i0 < |s| && s[i0] == '/'
    ensures Passed(s, i0, Slash, i0 + 1)
  {
    assert s[i0..][1..] == s[i0 + 1..];
  }

  /** The loop over the other characters of a name. */
  method NameLoop(s: path, i0: nat, i1: nat) returns (i: nat)
    requires i0 < i1 <= |s| && '/' !in s[i0..i1]
    ensures i1 <= i <= |s| && '/' !in s[i0..i] && (i < |s| ==> s[i] == '/')
  {
    i := i1;
    while At(s, i) != NUL && At(s, i) != '/'
      invariant i1 <= i <= |s| && '/' !in s[i0..i]
      decreases |s| - i
    {
      assert s[i0..i + 1] == s[i0..i] + [s[i]];
      i := i + 1;
    }
  }

  /** What was read of a component already tells that it is a name. */
  ghost predicate Named(s: string, i0: nat, i: nat) {
    && i0 < i <= |s| && '/' !in s[i0..i]
    && (s[i0] != '.' || (i > i0 + 1 && s[i0 + 1] != '.') || i > i0 + 2)
  }

  lemma NamedMeans(s: string, i0: nat, i: nat, e: nat)
    requires Named(s, i0, i) && i <= e <= |s|
    ensures Means(s[i0..e], Name)
  {
    var c := s[i0..e];
    assert c[0] == s[i0];
    if i > i0 + 1 {
      assert c[1] == s[i0 + 1];
    }
  }

  /** The case of a dot: "." and ".." are recognised with what follows them. */
  method DotCase(s: path, i0: nat) returns (done: bool, seen: Seen, i: nat)
    requires i0 < |s| && s[i0] == '.'
    ensures i0 < i <= |s|
    ensures done ==> Passed(s, i0, seen, i)
    ensures !done ==> Named(s, i0, i)
  {
    i := i0 + 1;
    done, seen := true, Dot;
    assert s[i0..i] == ".";
    if i == |s| || s[i] == '/' {
      PassedAt(s, i0, i, Dot);
      i := if i == |s| then i else i + 1;
      return;
    }
    i := i + 1;
    assert s[i0..i] == ['.', s[i - 1]];
    if s[i - 1] == '.' {
      if i == |s| || s[i] == '/' {
        PassedAt(s, i0, i, DotDot);
        i := if i == |s| then i else i + 1;
        return true, DotDot, i;
      }
      i := i + 1;
      assert s[i0] == '.' && s[i0 + 1] == '.' && i == i0 + 3;
      assert s[i0..i] == ['.', '.', s[i - 1]];
    }
    done := false;
  }

  /** One turn of the switch: which component was met, and where reading goes on. */
  method Component(s: path, i0: nat) returns (seen: Seen, i: nat)
    requires i0 < |s|
    ensures i0 < i <= |s| && Passed(s, i0, seen, i)
  {
    i := i0 + 1;
    if s[i0] == '/' {
      PassedSlash(s, i0);
      return Slash, i;
    }
    if s[i0] == '.' {
      var done;
      done, seen, i := DotCase(s, i0);
      if done {
        return;
      }
    } else {
      assert s[i0..i] == [s[i0]];
    }
    ghost var k := i;
    i := NameLoop(s, i0, i);
    NamedMeans(s, i0, k, i);
    PassedAt(s, i0, i, Name);
    seen := Name;
  }

  /** validsubpath of src/locale-root.c */
  method ValidLocale(s: path) returns (ok: bool)
    ensures ok <==> (s != "" ==> s[0] != '/') && Inside(s)
  {
    WalkInside(s);
    var l, i := 0, 0;
    if At(s, i) == '/' {
      return false;
    }
    assert s[0..] == s;
    while i < |s|
      invariant 0 <= i <= |s| && Walk(s[i..], l) == Walk(s, 0)
      decreases |s| - i
    {
      var seen;
      seen, i := Component(s, i);
      if seen == DotDot {
        l := l - 1;
      } else if seen == Name {
        if l >= 0 {
          l := l + 1;
        }
      }
    }
    ok := l >= 0;
  }

  /** validsubpath of src/afb-hreq.c: it gives up at the first step outside. */
  method ValidHreq(s: path) returns (ok: bool)
    ensures ok <==> Inside(s)
  {
    WalkInside(s);
    var l, i := 0, 0;
    assert s[0..] == s;
    while i < |s|
      invariant 0 <= i <= |s| && l >= 0 && Walk(s[i..], l) == Walk(s, 0)
      decreases |s| - i
    {
      var seen;
      seen, i := Component(s, i);
      if seen == DotDot {
        l := l - 1;
        if l < 0 {
          WalkComponents(s[i..], l);
          NegativeStays(Components(s[i..]), l);
          return false;
        }
      } else if seen == Name {
        l := l + 1;
      }
    }
    ok := true;
  }

  /** Both accept the same relative paths; only the second accepts absolute ones. */
  method SameOnRelative(s: path) returns (locale: bool, hreq: bool)
    requires s == "" || s[0] != '/'
    ensures locale == hreq
  {
    locale := ValidLocale(s);
    hreq := ValidHreq(s);
  }
}

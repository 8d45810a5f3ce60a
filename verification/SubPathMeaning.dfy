/** What it means for a path to stay inside, counted component by component. */
module SubPathMeaning {
  import opened SubPath

  /** Components with slashes between them. */
  function Joined(cs: seq<string>): string
    requires cs != []
  {
    if |cs| == 1 then cs[0] else cs[0] + "/" + Joined(cs[1..])
  }

  lemma CutAt(s: string, n: nat)
    requires n < |s| && s[n] == '/'
    ensures s == s[..n] + "/" + s[n + 1..]
  {
  }

  lemma JoinedMore(c: string, cs: seq<string>)
    requires cs != []
    ensures Joined([c] + cs) == c + "/" + Joined(cs)
  {
    assert ([c] + cs)[1..] == cs;
  }

  /** A path is cut at its slashes, and at nothing else. */
  lemma {:induction false} ComponentsAre(s: string)
    ensures var cs := Components(s);
            cs != [] && Joined(cs) == s && forall i :: 0 <= i < |cs| ==> '/' !in cs[i]
    decreases |s|
  {
    var c := First(s);
    if |c| < |s| {
      CutAt(s, |c|);
      ComponentsAre(s[|c| + 1..]);
      JoinedMore(c, Components(s[|c| + 1..]));
    }
  }

  /** How many components go up, and how many go down into a folder. */
  function Ups(cs: seq<string>): nat {
    if cs == [] then 0 else (if cs[0] == ".." then 1 else 0) + Ups(cs[1..])
  }

  function Downs(cs: seq<string>): nat {
    if cs == [] then 0 else (if cs[0] != "" && cs[0] != "." && cs[0] != ".." then 1 else 0) + Downs(cs[1..])
  }

  lemma {:induction false} BalanceIs(cs: seq<string>)
    ensures Balance(cs) == Downs(cs) - Ups(cs)
  {
    if cs != [] {
      BalanceIs(cs[1..]);
    }
  }

  /** Of the first `k` components no more go up than down. */
  ghost predicate Level(cs: seq<string>, k: int)
    requires 0 <= k <= |cs|
  {
    Ups(cs[..k]) <= Downs(cs[..k])
  }

  lemma LevelIs(cs: seq<string>, k: int)
    requires 0 <= k <= |cs|
    ensures Balance(cs[..k]) >= 0 <==> Level(cs, k)
  {
    BalanceIs(cs[..k]);
  }

  lemma LevelsIff(cs: seq<string>)
    ensures (forall k :: 0 <= k <= |cs| ==> Balance(cs[..k]) >= 0) <==> (forall k :: 0 <= k <= |cs| ==> Level(cs, k))
  {
    if forall k :: 0 <= k <= |cs| ==> Balance(cs[..k]) >= 0 {
      forall k | 0 <= k <= |cs|
        ensures Level(cs, k)
      {
        LevelIs(cs, k);
      }
    }
    if forall k :: 0 <= k <= |cs| ==> Level(cs, k) {
      forall k | 0 <= k <= |cs|
        ensures Balance(cs[..k]) >= 0
      {
        assert Level(cs, k);
        LevelIs(cs, k);
      }
    }
  }

  /** A path stays inside exactly when no beginning of it has more ".." than names. */
  lemma InsideIff(s: string)
    ensures Inside(s) <==> forall k :: 0 <= k <= |Components(s)| ==> Level(Components(s), k)
  {
    LevelsIff(Components(s));
    WalkInside(s);
    WalkComponents(s, 0);
    CountInside(Components(s), 0);
  }
}

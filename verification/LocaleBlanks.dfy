/** What a blank behind a definition does to its search list (src/locale-root.c). */
module LocaleBlanks {
  import opened Options
  import opened LocaleNames
  import opened LocaleSearch
  import opened LocaleLru

  /** A range does not depend on what follows it. */
  lemma {:induction false} StepsWithin(s: string, t: string, p: nat, back: nat)
    requires t <= s && p <= back <= |t|
    ensures p < back ==> PrevDash(s, p, back) == PrevDash(t, p, back)
    ensures back < |t| ==> SkipDashes(s, p, back) == SkipDashes(t, p, back)
    decreases back
  {
    if back > p {
      StepsWithin(s, t, p, back - 1);
    }
  }

  lemma {:induction false} InRangeWithin(fs: seq<string>, s: string, t: string, p: nat, back: nat, immediate: bool)
    requires t <= s && p <= back <= |t|
    ensures InRange(fs, s, p, back, immediate) == InRange(fs, t, p, back, immediate)
    decreases back
  {
    if back > p {
      assert s[p..back] == t[p..back];
      StepsWithin(s, t, p, back);
      StepsWithin(s, t, p, PrevDash(t, p, back));
      InRangeWithin(fs, s, t, p, NextBack(t, p, back), immediate);
    }
  }

  /** The scans over `s` and over `s` without its last character. */
  lemma {:induction false} ScansWithin(s: string, t: string, p: nat)
    requires t <= s && |s| == |t| + 1 && p <= |t| && !Cut(s[|t|])
    ensures Stop(t, p) == if Stop(s, p) < |t| then Stop(s, p) else |t|
    ensures ToComma(t, p) == if ToComma(s, p) < |t| then ToComma(s, p) else |t|
    ensures ToComma(s, p) < |t| || ToComma(s, p) == |s|
    ensures SkipSeparators(t, p) == SkipSeparators(s, p) <= |t|
    decreases |t| - p
  {
    if p < |t| {
      ScansWithin(s, t, p + 1);
    } else {
      assert ToComma(s, p + 1) == |s|;
    }
  }

  lemma {:induction false} WantedWithout(fs: seq<string>, s: string, t: string, p: nat, immediate: bool)
    requires t <= s && |s| == |t| + 1 && p <= |t| && !Cut(s[|t|])
    ensures Wanted(fs, s, p, true, immediate) == Wanted(fs, t, p, false, immediate)
    decreases |t| - p
  {
    ScansWithin(s, t, p);
    var stop := Stop(s, p);
    var end := RangeEnd(s, p, true);
    assert end == Stop(t, p);
    InRangeWithin(fs, s, t, p, end, immediate);
    assert Stop(s, p) == |s| ==> ToComma(s, stop) == |s|;
    if stop < |s| {
      ScansWithin(s, t, stop);
    }
    if ToComma(s, stop) == |s| {
      assert NextRange(s, p) == |s| && Wanted(fs, s, |s|, true, immediate) == [];
      assert p < |t| ==> NextRange(t, p) == |t| && Wanted(fs, t, |t|, false, immediate) == [];
      assert p == |t| ==> InRange(fs, s, p, end, immediate) == [];
    } else {
      ScansWithin(s, t, ToComma(s, stop));
      WantedWithout(fs, s, t, NextRange(s, p), immediate);
    }
  }

  /** A definition with a blank behind it is searched as if its last character were
      not there. */
  lemma BlankBehindCutsOne(fs: seq<string>, d: string, immediate: bool)
    requires BlankBehind(d)
    ensures var s := Normal(d);
            s != "" && CreateSearch(fs, s, true, immediate) == CreateSearch(fs, s[..|s| - 1], false, immediate)
  {
    var s := Normal(d);
    WantedWithout(fs, s, s[..|s| - 1], 0, immediate);
  }

  /** Repeating the first call gives what the first call made. */
  lemma SecondCallHits(fs: seq<string>, s: string, blank: bool, again: bool, immediate: bool)
    ensures Found(fs, Touch(fs, NO_SLOTS, s, blank, immediate), s, again, immediate) ==
            Slot(s, CreateSearch(fs, s, blank, immediate))
  {
    var l := CreateSearch(fs, s, blank, immediate);
    assert Hit(NO_SLOTS, s) == 3;
    var r := Touch(fs, NO_SLOTS, s, blank, immediate);
    assert r[0] == Slot(s, l) && Matches(r[0], s);
  }

  lemma TrimmedEn()
    ensures Normal("en ") == "en" && BlankBehind("en ") && Normal("en") == "en" && !BlankBehind("en")
  {
    assert CutBack("en ", 0, 2) == 2 && CutBack("en ", 0, 3) == 2 && CutBack("en", 0, 2) == 2;
  }

  /** So such a call can leave a wrong list in the cache, where later calls find it. */
  lemma BlankSpoilsCache()
    ensures var fs := ["en"];
            && !BlankBehind("en") && BlankBehind("en ")
            && Found(fs, After(fs, ["en "], false), Normal("en"), false, false).list == []
            && CreateSearch(fs, Normal("en"), false, false) == [0]
  {
    var fs := ["en"];
    TrimmedEn();
    BlankBehindCutsOne(fs, "en ", false);
    assert "en"[..1] == "e";
    OneFolder("e", []);
    OneFolder("en", [0]);
    SecondCallHits(fs, "en", true, false, false);
    assert ["en "][..0] == [];
    assert After(fs, ["en "], false) == Touch(fs, NO_SLOTS, "en", true, false);
  }

  lemma OneFolder(s: string, l: seq<nat>)
    requires (s == "e" && l == []) || (s == "en" && l == [0])
    ensures CreateSearch(["en"], s, false, false) == l
  {
    var fs := ["en"];
    assert s[0..|s|] == s;
    assert Stop(s, 0) == |s| by {
      assert Stop(s, |s|) == |s|;
      if s == "en" {
        assert Stop(s, 1) == 2;
      }
    }
    assert NextRange(s, 0) == |s|;
    CmpPrefix("en", s);
    assert "en"[..1] == "e";
    CmpSame("en", "en");
    CmpSame("e", "e");
    assert Bisect(fs, s, 0, 1) == if s == "en" then Some(0) else None;
    assert Wanted(fs, s, |s|, false, false) == [];
    if s == "e" {
      assert PrevDash(s, 0, 1) == 0;
      assert InRange(fs, s, 0, 0, false) == [];
      assert InRange(fs, s, 0, 1, false) == [];
    } else {
      assert InRange(fs, s, 0, 2, false) == [0];
    }
    assert Wanted(fs, s, 0, false, false) == l;
    AppendAllProper(fs, [], l);
    assert AppendAll([], l) == l;
    assert ParentFrom(fs, "en", 2).None? by {
      assert ParentFrom(fs, "en", 0).None?;
      assert ParentFrom(fs, "en", 1).None?;
    }
    assert Close(fs, l, 0) == l;
  }
}

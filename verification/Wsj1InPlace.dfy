/** The fields of a message end with a NUL written into the text itself.  Because
    scanned items lie apart, no field is damaged by the end of another. */
module Wsj1InPlace {
  import opened Options
  import opened Wsj1Scan
  import opened Wsj1Text
  import opened Wsj1Messages

  /** The C string that begins at `p` of a memory. */
  function CStringAt(m: string, p: nat): string
    requires p <= |m|
    decreases |m| - p
  {
    if p == |m| || m[p] == NUL then "" else [m[p]] + CStringAt(m, p + 1)
  }

  lemma {:induction false} CStringIs(m: string, p: nat, s: string)
    requires p + |s| < |m| && m[p..p + |s|] == s && m[p + |s|] == NUL && NUL !in s
    ensures CStringAt(m, p) == s
    decreases |s|
  {
    if s != "" {
      assert m[p] == m[p..p + |s|][0] == s[0];
      assert s[0] in s;
      assert m[p + 1..p + |s|] == s[1..];
      CStringIs(m, p + 1, s[1..]);
    }
  }

  /** Where a field begins and how long it is: wsj1_msg_parse_string drops quotes. */
  function Start(t: string, it: Item, quoted: bool): nat
    requires it.offset + it.length < |t|
  {
    if quoted && it.length > 1 && t[it.offset] == '"' then it.offset + 1 else it.offset
  }

  function Length(t: string, it: Item, quoted: bool): (n: nat)
    requires it.offset + it.length < |t|
    ensures it.offset <= Start(t, it, quoted) && Start(t, it, quoted) + n <= it.offset + it.length
  {
    if quoted && it.length > 1 && t[it.offset] == '"' then it.length - 2 else it.length
  }

  function Field(t: string, it: Item, quoted: bool): string
    requires it.offset + it.length < |t|
  {
    t[Start(t, it, quoted)..Start(t, it, quoted) + Length(t, it, quoted)]
  }

  /** Where the NUL of a field is written. */
  function EndOf(t: string, it: Item, quoted: bool): (k: nat)
    requires it.offset + it.length < |t|
    ensures it.offset <= k <= it.offset + it.length
  {
    Start(t, it, quoted) + Length(t, it, quoted)
  }

  /** The memory `m` is the text with the ends of the items from..to written, and with
      one more NUL at `hole`, if that is a place of the text. */
  ghost predicate Ended(m: string, t: text, items: seq<Item>, quoted: seq<bool>, from: nat, to: nat, hole: nat)
    requires Apart(t, 0, items) && |quoted| == |items| && from <= to <= |items|
  {
    && |m| == |t| + 1
    && (forall i :: from <= i < to ==> m[EndOf(t, items[i], quoted[i])] == NUL)
    && (hole < |t| ==> m[hole] == NUL)
    && (forall k :: 0 <= k < |t| && k != hole && (forall i :: from <= i < to ==> k != EndOf(t, items[i], quoted[i])) ==>
          m[k] == t[k])
  }

  /** No end of an item lies in the field of another. */
  lemma FieldSpared(t: text, items: seq<Item>, quoted: seq<bool>, i: nat, j: nat, k: nat)
    requires Apart(t, 0, items) && |quoted| == |items| && i < |items| && j < |items|
    requires Start(t, items[i], quoted[i]) <= k < EndOf(t, items[i], quoted[i])
    ensures k != EndOf(t, items[j], quoted[j])
  {
    assert i < j ==> items[i].offset + items[i].length < items[j].offset;
    assert j < i ==> items[j].offset + items[j].length < items[i].offset;
  }

  lemma FieldChars(m: string, t: text, items: seq<Item>, quoted: seq<bool>, from: nat, to: nat, hole: nat, i: nat,
      k: nat)
    requires Apart(t, 0, items) && |quoted| == |items| && from <= i < to <= |items|
    requires Ended(m, t, items, quoted, from, to, hole)
    requires Start(t, items[i], quoted[i]) <= k < EndOf(t, items[i], quoted[i]) && k != hole
    ensures m[k] == t[k]
  {
    forall j | from <= j < to
      ensures k != EndOf(t, items[j], quoted[j])
    {
      FieldSpared(t, items, quoted, i, j, k);
    }
  }

  lemma NoNul(t: text, i: nat, j: nat)
    requires i <= j <= |t|
    ensures NUL !in t[i..j]
  {
    assert forall c :: c in t[i..j] ==> c in t;
  }

  /** A field is still there but for the hole, and its end is written. */
  lemma FieldIntact(m: string, t: text, items: seq<Item>, quoted: seq<bool>, from: nat, to: nat, hole: nat, i: nat)
    requires Apart(t, 0, items) && |quoted| == |items| && from <= i < to <= |items|
    requires Ended(m, t, items, quoted, from, to, hole)
    ensures var p, s := Start(t, items[i], quoted[i]), Field(t, items[i], quoted[i]);
            && p + |s| == EndOf(t, items[i], quoted[i]) < |m| && m[p + |s|] == NUL && NUL !in s
            && (forall k :: 0 <= k < |s| && p + k != hole ==> m[p + k] == s[k])
  {
    var p, s := Start(t, items[i], quoted[i]), Field(t, items[i], quoted[i]);
    assert |s| == Length(t, items[i], quoted[i]) && s == t[p..p + |s|];
    NoNul(t, p, p + |s|);
    forall k | p <= k < p + |s| && k != hole
      ensures m[k] == t[k]
    {
      FieldChars(m, t, items, quoted, from, to, hole, i, k);
    }
    Shifted(m, t, p, s, hole);
  }

  lemma Shifted(m: string, t: string, p: nat, s: string, hole: nat)
    requires p + |s| <= |m| && p + |s| <= |t| && s == t[p..p + |s|]
    requires forall k :: p <= k < p + |s| && k != hole ==> m[k] == t[k]
    ensures forall k :: 0 <= k < |s| && p + k != hole ==> m[p + k] == s[k]
  {
  }

  /** A string in memory, with the hole elsewhere. */
  lemma SpareString(m: string, p: nat, s: string, hole: nat)
    requires p + |s| < |m| && m[p + |s|] == NUL && NUL !in s && (hole < p || p + |s| <= hole)
    requires forall k :: 0 <= k < |s| && p + k != hole ==> m[p + k] == s[k]
    ensures CStringAt(m, p) == s
  {
    assert m[p..p + |s|] == s;
    CStringIs(m, p, s);
  }

  /** And reads as its text when the hole is elsewhere. */
  lemma FieldKept(m: string, t: text, items: seq<Item>, quoted: seq<bool>, from: nat, to: nat, hole: nat, i: nat)
    requires Apart(t, 0, items) && |quoted| == |items| && from <= i < to <= |items|
    requires Ended(m, t, items, quoted, from, to, hole)
    requires hole < items[i].offset || items[i].offset + items[i].length <= hole
    ensures CStringAt(m, Start(t, items[i], quoted[i])) == Field(t, items[i], quoted[i])
  {
    var p, s := Start(t, items[i], quoted[i]), Field(t, items[i], quoted[i]);
    FieldIntact(m, t, items, quoted, from, to, hole, i);
    SpareString(m, p, s, hole);
  }

  /** wsj1_msg_parse_extract or wsj1_msg_parse_string on item `i`. */
  method EndItem(a: array<char>, ghost t: text, items: seq<Item>, quoted: seq<bool>, ghost from: nat, i: nat,
      ghost hole: nat)
    returns (start: nat)
    requires Apart(t, 0, items) && |quoted| == |items| && from <= i < |items|
    requires Ended(a[..], t, items, quoted, from, i, hole)
    requires a[items[i].offset] == t[items[i].offset]
    modifies a
    ensures start == Start(t, items[i], quoted[i]) && Ended(a[..], t, items, quoted, from, i + 1, hole)
    ensures forall k :: 0 <= k < a.Length && k != EndOf(t, items[i], quoted[i]) ==> a[k] == old(a[k])
  {
    var Item(offset, length) := items[i];
    EndStep(a[..], t, items, quoted, from, i, hole);
    start := offset;
    if quoted[i] && length > 1 && a[offset] == '"' {
      start := offset + 1;
      length := length - 2;
    }
    a[start + length] := NUL;
  }

  lemma EndStep(m: string, t: text, items: seq<Item>, quoted: seq<bool>, from: nat, i: nat, hole: nat)
    requires Apart(t, 0, items) && |quoted| == |items| && from <= i < |items|
    requires Ended(m, t, items, quoted, from, i, hole)
    ensures Ended(m[EndOf(t, items[i], quoted[i]) := NUL], t, items, quoted, from, i + 1, hole)
  {
  }

  /** The first character of an item is not touched by the ends before it. */
  lemma FirstKept(m: string, t: text, items: seq<Item>, quoted: seq<bool>, from: nat, i: nat, hole: nat)
    requires Apart(t, 0, items) && |quoted| == |items| && from <= i < |items|
    requires Ended(m, t, items, quoted, from, i, hole) && hole != items[i].offset
    ensures m[items[i].offset] == t[items[i].offset]
  {
    assert forall j :: from <= j < i ==> items[j].offset + items[j].length < items[i].offset;
  }

  /** The api and the verb: the slash between them becomes a NUL. */
  method SplitTag(a: array<char>, p: nat, ghost tag: string) returns (found: bool, verb: nat)
    requires p + |tag| < a.Length && a[p..p + |tag|] == tag && a[p + |tag|] == NUL && NUL !in tag
    modifies a
    ensures found == ('/' in tag)
    ensures found ==> Slash(tag) < |tag| && verb == p + Slash(tag) + 1 && a[..] == old(a[..])[verb - 1 := NUL]
    ensures found ==> CStringAt(a[..], p) == tag[..Slash(tag)] && CStringAt(a[..], verb) == tag[Slash(tag) + 1..]
    ensures !found ==> a[..] == old(a[..])
  {
    var i := FindSlash(a, p, tag);
    ghost var k := i - p;
    verb := i + 1;
    if a[i] == NUL {
      assert tag[..k] == tag;
      return false, verb;
    }
    found := true;
    SlashUnique(tag, k);
    a[i] := NUL;
    HalvesAt(a[..], p, tag, k, verb);
  }

  /** strchr for a slash; its place, or that of the final NUL. */
  method FindSlash(a: array<char>, p: nat, ghost tag: string) returns (i: nat)
    requires p + |tag| < a.Length && a[p..p + |tag|] == tag && a[p + |tag|] == NUL && NUL !in tag
    ensures p <= i <= p + |tag| && '/' !in tag[..i - p]
    ensures a[i] == if i < p + |tag| then '/' else NUL
    ensures i < p + |tag| ==> tag[i - p] == '/'
  {
    i := p;
    while a[i] != NUL && a[i] != '/'
      invariant p <= i <= p + |tag| && '/' !in tag[..i - p]
      decreases p + |tag| - i
    {
      assert a[i] == a[p..p + |tag|][i - p] == tag[i - p];
      assert tag[..i - p + 1] == tag[..i - p] + [tag[i - p]];
      i := i + 1;
    }
    assert i < p + |tag| ==> a[i] == a[p..p + |tag|][i - p] == tag[i - p] && tag[i - p] in tag;
  }

  lemma HalvesAt(m: string, p: nat, tag: string, k: nat, v: nat)
    requires p + |tag| < |m| && k < |tag| && m[p + |tag|] == NUL && NUL !in tag && m[p + k] == NUL && v == p + k + 1
    requires forall i :: 0 <= i < |tag| && p + i != v - 1 ==> m[p + i] == tag[i]
    ensures CStringAt(m, p) == tag[..k] && CStringAt(m, v) == tag[k + 1..]
  {
    assert m[p..p + k] == tag[..k];
    CStringIs(m, p, tag[..k]);
    assert m[v..p + |tag|] == tag[k + 1..];
    CStringIs(m, v, tag[k + 1..]);
  }

  /** A field is the text of its item, without its quotes when it is a string. */
  lemma FieldIsText(t: string, it: Item)
    requires it.offset + it.length < |t|
    ensures Field(t, it, false) == t[it.offset..it.offset + it.length]
    ensures Field(t, it, true) == Unquoted(t[it.offset..it.offset + it.length])
  {
    var x := t[it.offset..it.offset + it.length];
    if it.length > 1 {
      assert x[0] == t[it.offset];
      Inside(t, it.offset, it.offset + it.length, x);
    }
  }

  lemma Inside(t: string, i: nat, j: nat, x: string)
    requires i + 1 < j <= |t| && x == t[i..j]
    ensures x[1..|x| - 1] == t[i + 1..j - 1]
  {
    var y, z := x[1..|x| - 1], t[i + 1..j - 1];
    forall k | 0 <= k < |y|
      ensures y[k] == z[k]
    {
      assert y[k] == x[k + 1] == t[i + 1 + k];
    }
  }

  // ----- a whole message

  /** What wsj1_on_text hands on: where the strings begin. */
  datatype Taken =
    | TakenCall(id: nat, api: nat, verb: nat, json: nat, token: Option<nat>)
    | TakenReply(ok: bool, id: nat, json: nat, token: Option<nat>)
    | TakenEvent(event: nat, json: nat)

  ghost predicate Placed(m: string, x: Taken) {
    match x
    case TakenCall(id, api, verb, json, token) =>
      id <= |m| && api <= |m| && verb <= |m| && json <= |m| && (token.Some? ==> token.value <= |m|)
    case TakenReply(_, id, json, token) => id <= |m| && json <= |m| && (token.Some? ==> token.value <= |m|)
    case TakenEvent(event, json) => event <= |m| && json <= |m|
  }

  /** The message that a memory holds. */
  function ReadBack(m: string, x: Taken): Msg
    requires Placed(m, x)
  {
    match x
    case TakenCall(id, api, verb, json, token) =>
      Call(CStringAt(m, id), CStringAt(m, api), CStringAt(m, verb), CStringAt(m, json),
           if token.Some? then Some(CStringAt(m, token.value)) else None)
    case TakenReply(ok, id, json, token) =>
      Reply(ok, CStringAt(m, id), CStringAt(m, json), if token.Some? then Some(CStringAt(m, token.value)) else None)
    case TakenEvent(event, json) => Event(CStringAt(m, event), CStringAt(m, json))
  }

  /** The memory holds that message. */
  ghost predicate Says(m: string, x: Taken, msg: Option<Msg>) {
    Placed(m, x) && msg == Some(ReadBack(m, x))
  }

  /** The memory of the text while its items are being ended. */
  ghost predicate Ready(m: string, t: text, items: seq<Item>)
  {
    Scan(t) == Some(items) && m == t + [NUL]
  }

  lemma NothingEnded(m: string, t: text, items: seq<Item>, quoted: seq<bool>, from: nat)
    requires Ready(m, t, items) && |quoted| == |items| && from <= |items|
    ensures Apart(t, 0, items) && Ended(m, t, items, quoted, from, from, |t|)
  {
    ScannedApart(t);
  }

  /** What the text of item `i` says, by its field. */
  lemma FieldOf(t: text, items: seq<Item>, i: nat)
    requires Scan(t) == Some(items) && i < |items|
    ensures Apart(t, 0, items) && Texts(t).Some? && |Texts(t).value| == |items|
    ensures Field(t, items[i], false) == Texts(t).value[i] && Field(t, items[i], true) == Unquoted(Texts(t).value[i])
  {
    ScannedApart(t);
    FieldIsText(t, items[i]);
  }

  /** Two items ended in order: the string and the object of a reply or an event. */
  method TakeTwo(a: array<char>, t: text, items: seq<Item>) returns (s: nat, o: nat)
    requires Ready(a[..], t, items) && |items| >= 3
    modifies a
    ensures s <= a.Length && o <= a.Length && Texts(t).Some? && |Texts(t).value| == |items|
    ensures CStringAt(a[..], s) == Unquoted(Texts(t).value[1]) && CStringAt(a[..], o) == Texts(t).value[2]
  {
    ghost var quoted := seq(|items|, i => i == 1);
    var flags := seq(|items|, i => i == 1);
    NothingEnded(a[..], t, items, quoted, 1);
    FirstKept(a[..], t, items, quoted, 1, 1, |t|);
    s := EndItem(a, t, items, flags, 1, 1, |t|);
    FirstKept(a[..], t, items, quoted, 1, 2, |t|);
    o := EndItem(a, t, items, flags, 1, 2, |t|);
    FieldKept(a[..], t, items, quoted, 1, 3, |t|, 1);
    FieldKept(a[..], t, items, quoted, 1, 3, |t|, 2);
    FieldOf(t, items, 1);
    FieldOf(t, items, 2);
  }

  /** The strings of a call but its object. */
  function CallFlags(n: nat): seq<bool> {
    seq(n, i => i != 3)
  }

  lemma HoleMade(m: string, t: text, items: seq<Item>, quoted: seq<bool>, to: nat, hole: nat)
    requires Apart(t, 0, items) && |quoted| == |items| && 1 <= to <= |items| && hole < |t|
    requires Ended(m, t, items, quoted, 1, to, |t|)
    ensures Ended(m[hole := NUL], t, items, quoted, 1, to, hole)
  {
  }

  /** The identifier and the tag of a call, with the slash between api and verb cut. */
  method TakeTag(a: array<char>, t: text, items: seq<Item>) returns (found: bool, id: nat, api: nat, verb: nat)
    requires Ready(a[..], t, items) && |items| >= 4
    modifies a
    ensures Apart(t, 0, items) && found == ('/' in Field(t, items[2], true))
    ensures found ==> id == Start(t, items[1], true) && verb > 0 && TagCut(t, items, api, verb, verb - 1)
    ensures found ==> Ended(a[..], t, items, CallFlags(|items|), 1, 3, verb - 1)
  {
    id, api := EndTwo(a, t, items);
    ghost var m, tag, flags := a[..], Field(t, items[2], true), CallFlags(|items|);
    TagThere(m, t, items, api, tag);
    found, verb := SplitTag(a, api, tag);
    if found {
      HoleMade(m, t, items, flags, 3, verb - 1);
    }
  }

  method EndTwo(a: array<char>, t: text, items: seq<Item>) returns (id: nat, api: nat)
    requires Ready(a[..], t, items) && |items| >= 4
    modifies a
    ensures Apart(t, 0, items) && id == Start(t, items[1], true) && api == Start(t, items[2], true)
    ensures Ended(a[..], t, items, CallFlags(|items|), 1, 3, |t|)
  {
    var flags := CallFlags(|items|);
    NothingEnded(a[..], t, items, flags, 1);
    FirstKept(a[..], t, items, flags, 1, 1, |t|);
    id := EndItem(a, t, items, flags, 1, 1, |t|);
    FirstKept(a[..], t, items, flags, 1, 2, |t|);
    api := EndItem(a, t, items, flags, 1, 2, |t|);
  }

  lemma TagThere(m: string, t: text, items: seq<Item>, p: nat, tag: string)
    requires Apart(t, 0, items) && |items| >= 4 && Ended(m, t, items, CallFlags(|items|), 1, 3, |t|)
    requires p == Start(t, items[2], true) && tag == Field(t, items[2], true)
    ensures p + |tag| < |m| && m[p..p + |tag|] == tag && m[p + |tag|] == NUL && NUL !in tag && p + |tag| < |t|
  {
    FieldIntact(m, t, items, CallFlags(|items|), 1, 3, |t|, 2);
  }

  /** The object of a call, and its token if there is one. */
  method TakeRest(a: array<char>, t: text, items: seq<Item>, ghost hole: nat) returns (json: nat, token: Option<nat>)
    requires Scan(t) == Some(items) && (|items| == 4 || |items| == 5) && Apart(t, 0, items)
    requires Ended(a[..], t, items, CallFlags(|items|), 1, 3, hole) && hole < items[3].offset
    modifies a
    ensures Ended(a[..], t, items, CallFlags(|items|), 1, |items|, hole)
    ensures json == Start(t, items[3], false)
    ensures token == if |items| == 5 then Some(Start(t, items[4], true)) else None
  {
    var flags := CallFlags(|items|);
    FirstKept(a[..], t, items, flags, 1, 3, hole);
    json := EndItem(a, t, items, flags, 1, 3, hole);
    token := None;
    if |items| == 5 {
      assert items[3].offset < items[4].offset;
      FirstKept(a[..], t, items, flags, 1, 4, hole);
      var p := EndItem(a, t, items, flags, 1, 4, hole);
      token := Some(p);
    }
  }

  /** Where the tag is, and its slash. */
  ghost predicate TagCut(t: text, items: seq<Item>, api: nat, verb: nat, slash: nat)
    requires Apart(t, 0, items) && 3 < |items|
  {
    var tag := Field(t, items[2], true);
    api == Start(t, items[2], true) && Slash(tag) < |tag| && slash == api + Slash(tag) && verb == slash + 1
  }

  lemma CallField(m: string, t: text, items: seq<Item>, slash: nat, i: nat, quoted: bool, p: nat)
    requires Scan(t) == Some(items) && 3 < |items| && Apart(t, 0, items)
    requires Ended(m, t, items, CallFlags(|items|), 1, |items|, slash)
    requires items[2].offset <= slash < items[2].offset + items[2].length
    requires 1 <= i < |items| && i != 2 && quoted == (i != 3) && p == Start(t, items[i], quoted)
    ensures p <= |m| && Texts(t).Some? && |Texts(t).value| == |items|
    ensures CStringAt(m, p) == if quoted then Unquoted(Texts(t).value[i]) else Texts(t).value[i]
  {
    assert i < 2 ==> items[i].offset + items[i].length < items[2].offset;
    assert 2 < i ==> items[2].offset + items[2].length < items[i].offset;
    FieldKept(m, t, items, CallFlags(|items|), 1, |items|, slash, i);
    FieldOf(t, items, i);
  }

  lemma TagIntact(m: string, t: text, items: seq<Item>, flags: seq<bool>, n: nat, hole: nat, api: nat, tag: string)
    requires Apart(t, 0, items) && 2 < n == |items| == |flags| && flags[2] && Ended(m, t, items, flags, 1, n, hole)
    requires api == Start(t, items[2], true) && tag == Field(t, items[2], true)
    ensures api + |tag| < |m| && m[api + |tag|] == NUL && NUL !in tag
    ensures forall i :: 0 <= i < |tag| && api + i != hole ==> m[api + i] == tag[i]
    ensures hole < |t| ==> m[hole] == NUL
    ensures items[2].offset <= api && api + |tag| <= items[2].offset + items[2].length < |t|
  {
    FieldIntact(m, t, items, flags, 1, n, hole, 2);
  }

  /** The two halves of the tag. */
  lemma CallTag(m: string, t: text, items: seq<Item>, api: nat, verb: nat, slash: nat, tag: string)
    requires Scan(t) == Some(items) && 3 < |items| && Apart(t, 0, items) && TagCut(t, items, api, verb, slash)
    requires Ended(m, t, items, CallFlags(|items|), 1, |items|, slash) && tag == Field(t, items[2], true)
    ensures verb <= |m| && CStringAt(m, api) == tag[..Slash(tag)] && CStringAt(m, verb) == tag[Slash(tag) + 1..]
    ensures items[2].offset <= slash < items[2].offset + items[2].length
  {
    TagIntact(m, t, items, CallFlags(|items|), |items|, slash, api, tag);
    HalvesAt(m, api, tag, Slash(tag), verb);
  }

  /** What the memory of a whole call says. */
  lemma CallHeld(m: string, t: text, items: seq<Item>, x: Taken, slash: nat, xs: seq<string>, tag: string)
    requires Scan(t) == Some(items) && (|items| == 4 || |items| == 5) && Apart(t, 0, items) && x.TakenCall?
    requires Texts(t) == Some(xs) && |xs| == |items| && tag == Field(t, items[2], true) == Unquoted(xs[2])
    requires TagCut(t, items, x.api, x.verb, slash) && Ended(m, t, items, CallFlags(|items|), 1, |items|, slash)
    requires x.id == Start(t, items[1], true) && x.json == Start(t, items[3], false)
    requires x.token == if |items| == 5 then Some(Start(t, items[4], true)) else None
    ensures Says(m, x, CallOf(xs))
  {
    CallTag(m, t, items, x.api, x.verb, slash, tag);
    CallField(m, t, items, slash, 1, true, x.id);
    CallField(m, t, items, slash, 3, false, x.json);
    if |items| == 5 {
      CallField(m, t, items, slash, 4, true, x.token.value);
    }
    CallSaid(m, xs, x, tag);
  }

  /** A call from what its strings are. */
  lemma CallSaid(m: string, xs: seq<string>, x: Taken, tag: string)
    requires x.TakenCall? && Placed(m, x) && (|xs| == 4 || |xs| == 5) && tag == Unquoted(xs[2]) && Slash(tag) < |tag|
    requires CStringAt(m, x.id) == Unquoted(xs[1]) && CStringAt(m, x.json) == xs[3]
    requires CStringAt(m, x.api) == tag[..Slash(tag)] && CStringAt(m, x.verb) == tag[Slash(tag) + 1..]
    requires x.token.Some? <==> |xs| == 5
    requires x.token.Some? ==> CStringAt(m, x.token.value) == Unquoted(xs[4])
    ensures Says(m, x, CallOf(xs))
  {
  }

  /** A call, in the order of wsj1_on_text. */
  method TakeCall(a: array<char>, t: text, items: seq<Item>) returns (x: Option<Taken>)
    requires Ready(a[..], t, items) && (|items| == 4 || |items| == 5)
    modifies a
    ensures Texts(t).Some? && |Texts(t).value| == |items|
    ensures if x.None? then CallOf(Texts(t).value).None? else Says(a[..], x.value, CallOf(Texts(t).value))
  {
    var found, id, api, verb := TakeTag(a, t, items);
    if found {
      SlashBefore(t, items, Field(t, items[2], true), verb - 1);
      var call := FinishCall(a, t, items, id, api, verb, verb - 1);
      x := Some(call);
    } else {
      NoTag(t, items);
      x := None;
    }
  }

  method FinishCall(a: array<char>, t: text, items: seq<Item>, id: nat, api: nat, verb: nat, ghost slash: nat)
      returns (x: Taken)
    requires Scan(t) == Some(items) && (|items| == 4 || |items| == 5) && Apart(t, 0, items)
    requires TagCut(t, items, api, verb, slash) && id == Start(t, items[1], true)
    requires slash < items[3].offset && Ended(a[..], t, items, CallFlags(|items|), 1, 3, slash)
    modifies a
    ensures Texts(t).Some? && |Texts(t).value| == |items| && Says(a[..], x, CallOf(Texts(t).value))
  {
    var json, token := TakeRest(a, t, items, slash);
    x := TakenCall(id, api, verb, json, token);
    FieldOf(t, items, 2);
    CallHeld(a[..], t, items, x, slash, Texts(t).value, Field(t, items[2], true));
  }

  lemma NoTag(t: text, items: seq<Item>)
    requires Scan(t) == Some(items) && (|items| == 4 || |items| == 5) && Apart(t, 0, items) &&
             '/' !in Field(t, items[2], true)
    ensures Texts(t).Some? && |Texts(t).value| == |items| && CallOf(Texts(t).value).None?
  {
    FieldOf(t, items, 2);
    var tag := Field(t, items[2], true);
    assert Slash(tag) == |tag|;
  }

  /** The tag ends before the next item. */
  lemma SlashBefore(t: text, items: seq<Item>, tag: string, slash: nat)
    requires Apart(t, 0, items) && 3 < |items| && tag == Field(t, items[2], true)
    requires slash < Start(t, items[2], true) + |tag|
    ensures slash < items[3].offset
  {
    assert items[2].offset + items[2].length < items[3].offset;
  }

  /** What wsj1_on_text makes of a text.  `Unstored`: it looks at the first item although
      the scan found none, so nothing stored it. */
  datatype Heard = Refused | Unstored | Handed(x: Taken)

  /** A text with items, after its first one was seen to be a code. */
  method TakeMessage(a: array<char>, t: text, items: seq<Item>, code: char) returns (x: Option<Taken>)
    requires Ready(a[..], t, items) && items != [] && Texts(t).Some? && Texts(t).value != []
    requires |Texts(t).value| == |items| && Texts(t).value[0] == [code]
    modifies a
    ensures if x.None? then Parse(t).None? else Says(a[..], x.value, Parse(t))
  {
    var n := |items|;
    x := None;
    if code == '2' {
      if n == 4 || n == 5 {
        x := TakeCall(a, t, items);
      }
    } else if code == '3' || code == '4' {
      if n == 3 || n == 4 {
        var id, json := TakeTwo(a, t, items);
        // the token of a reply is looked for in a fifth item, which it cannot have
        x := Some(TakenReply(code == '3', id, json, None));
      }
    } else if code == '5' {
      if n == 3 {
        var event, json := TakeTwo(a, t, items);
        x := Some(TakenEvent(event, json));
      }
    }
  }

  /** wsj1_on_text, up to the callback: the strings handed on are those of the message; a
      text is refused exactly when it is none, but for one without items, of which the
      code reads a first item all the same. */
  method OnText(a: array<char>, t: text) returns (h: Heard)
    requires a[..] == t + [NUL]
    modifies a
    ensures h.Unstored? <==> Scan(t) == Some([])
    ensures h.Refused? <==> Parse(t).None? && Scan(t) != Some([])
    ensures h.Handed? ==> Says(a[..], h.x, Parse(t))
  {
    var r := MsgScan(t);
    if r.None? {
      return Refused;
    }
    var items := r.value;
    if items == [] {
      NoItems(t);
      return Unstored;
    }
    FieldOf(t, items, 0);
    if items[0].length != 1 {
      return Refused;
    }
    var code := a[items[0].offset];
    CodeIs(t, items, code);
    var x := TakeMessage(a, t, items, code);
    h := if x.None? then Refused else Handed(x.value);
  }

  lemma NoItems(t: text)
    requires Scan(t) == Some([])
    ensures Parse(t).None?
  {
    assert Texts(t).value == [];
  }

  /** The first item is a single character: the code of the message. */
  lemma CodeIs(t: text, items: seq<Item>, code: char)
    requires Scan(t) == Some(items) && items != [] && items[0].length == 1
    requires items[0].offset < |t| && code == t[items[0].offset]
    ensures Texts(t).Some? && |Texts(t).value| == |items| && Texts(t).value[0] == [code]
  {
    FieldOf(t, items, 0);
  }
}

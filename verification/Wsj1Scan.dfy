/** The scanner of JSON arrays in src/afb-wsj1.c.  A text has no NUL; one follows it. */
module Wsj1Scan {
  import opened Options

  const NUL: char := '\0'
  const MAX_ITEMS := 10

  type text = s: string | NUL !in s

  /** The character at `p`, or the final NUL. */
  function At(t: string, p: nat): char
    requires p <= |t|
  {
    if p < |t| then t[p] else NUL
  }

  /** `while (*pos == ' ') pos++` */
  function SkipBlanks(t: string, p: nat): (q: nat)
    requires p <= |t|
    ensures p <= q <= |t|
    ensures At(t, q) != ' '
    ensures forall i :: p <= i < q ==> t[i] == ' '
    decreases |t| - p
  {
    if p < |t| && t[p] == ' ' then SkipBlanks(t, p + 1) else p
  }

  /** From behind an opening quote to behind the closing one. */
  function SkipString(t: string, p: nat): (r: Option<nat>)
    requires p <= |t|
    ensures r.Some? ==> p < r.value <= |t|
    decreases |t| - p
  {
    if p == |t| then None
    else if t[p] == '\\' then (if p + 1 < |t| then SkipString(t, p + 2) else None)
    else if t[p] == '"' then Some(p + 1)
    else SkipString(t, p + 1)
  }

  predicate Stops(c: char) {
    c == ',' || c == ']'
  }

  /** From inside a value, `depth` brackets deep, to the comma or bracket that ends it. */
  function SkipValue(t: string, p: nat, depth: nat): (r: Option<nat>)
    requires p <= |t|
    ensures r.Some? ==> p <= r.value < |t| && Stops(t[r.value])
    decreases |t| - p
  {
    if p == |t| then None
    else if depth == 0 && Stops(t[p]) then Some(p)
    else if t[p] == '{' || t[p] == '[' then SkipValue(t, p + 1, depth + 1)
    else if t[p] == '}' || t[p] == ']' then (if depth == 0 then None else SkipValue(t, p + 1, depth - 1))
    else if t[p] == '"' then
      var q := SkipString(t, p + 1);
      if q.None? then None else SkipValue(t, q.value, depth)
    else SkipValue(t, p + 1, depth)
  }

  /** The end of an item without its trailing blanks. */
  function Trim(t: string, beg: nat, end: nat): (r: nat)
    requires beg <= end <= |t|
    ensures beg <= r <= end
    ensures r > beg ==> t[r - 1] != ' '
    ensures forall i :: r <= i < end ==> t[i] == ' '
    decreases end
  {
    if end > beg && t[end - 1] == ' ' then Trim(t, beg, end - 1) else end
  }

  datatype Item = Item(offset: nat, length: nat)

  /** The item from `p` to the end of its value, without trailing blanks. */
  function ItemAt(t: string, p: nat, e: nat): Item
    requires p <= e <= |t|
  {
    Item(p, Trim(t, p, e) - p)
  }

  function Prepend(a: seq<Item>, r: Option<seq<Item>>): Option<seq<Item>> {
    if r.None? then None else Some(a + r.value)
  }

  /** The items from position `p` on, of which `n` were found before. */
  function Items(t: string, p: nat, n: nat): (r: Option<seq<Item>>)
    requires p <= |t|
    decreases |t| - p
  {
    if n >= MAX_ITEMS then None
    else
      var e := SkipValue(t, p, 0);
      if e.None? then None
      else
        var item := ItemAt(t, p, e.value);
        if t[e.value] == ']' then (if Closed(t, e.value) then Some([item]) else None)
        else Prepend([item], Items(t, SkipBlanks(t, e.value + 1), n + 1))
  }

  /** Only blanks follow the closing bracket. */
  predicate Closed(t: string, p: nat)
    requires p < |t|
  {
    SkipBlanks(t, p + 1) == |t|
  }

  function Scan(t: string): Option<seq<Item>> {
    var p := SkipBlanks(t, 0);
    if At(t, p) != '[' then None
    else
      var q := SkipBlanks(t, p + 1);
      if At(t, q) == ']' then (if Closed(t, q) then Some([]) else None) else Items(t, q, 0)
  }

  // ----- what is found lies apart

  /** Items in order, each ending before the next one begins, the last one before
      the end of the text; so the character behind an item belongs to none. */
  ghost predicate Apart(t: string, from: nat, items: seq<Item>) {
    && (forall i :: 0 <= i < |items| ==> from <= items[i].offset && items[i].offset + items[i].length < |t|)
    && (forall i, j :: 0 <= i < j < |items| ==> items[i].offset + items[i].length < items[j].offset)
  }

  lemma ApartCons(t: string, from: nat, item: Item, q: nat, rest: seq<Item>)
    requires from <= item.offset && item.offset + item.length < q && q <= |t| && Apart(t, q, rest)
    ensures Apart(t, from, [item] + rest)
  {
    var all := [item] + rest;
    assert all[0] == item && forall i :: 1 <= i < |all| ==> all[i] == rest[i - 1];
  }

  /** The items, from the first one. */
  lemma ItemsMore(t: string, p: nat, n: nat, e: nat, q: nat, rest: Option<seq<Item>>)
    requires p <= |t| && n < MAX_ITEMS && SkipValue(t, p, 0) == Some(e) && t[e] != ']'
    requires q == SkipBlanks(t, e + 1) && rest == Items(t, q, n + 1)
    ensures Items(t, p, n) == Prepend([ItemAt(t, p, e)], rest)
  {
  }

  lemma ItemsLast(t: string, p: nat, n: nat, e: nat)
    requires p <= |t| && n < MAX_ITEMS && SkipValue(t, p, 0) == Some(e) && t[e] == ']'
    ensures Items(t, p, n) == if Closed(t, e) then Some([ItemAt(t, p, e)]) else None
  {
  }

  lemma {:induction false} ItemsApart(t: string, p: nat, n: nat, r: Option<seq<Item>>)
    requires p <= |t| && r == Items(t, p, n) && r.Some?
    ensures Apart(t, p, r.value) && 0 < |r.value| <= MAX_ITEMS - n
    decreases |t| - p
  {
    var e := SkipValue(t, p, 0).value;
    if t[e] != ']' {
      var q := SkipBlanks(t, e + 1);
      var rest := Items(t, q, n + 1);
      ItemsMore(t, p, n, e, q, rest);
      ItemsApart(t, q, n + 1, rest);
      ApartCons(t, p, ItemAt(t, p, e), q, rest.value);
    }
  }

  /** On every input: at most ten items, within the text and apart from each other. */
  lemma ScannedApart(t: string)
    requires Scan(t).Some?
    ensures Apart(t, 0, Scan(t).value) && |Scan(t).value| <= 10
  {
    var q := SkipBlanks(t, SkipBlanks(t, 0) + 1);
    if At(t, q) != ']' {
      ItemsApart(t, q, 0, Items(t, q, 0));
    }
  }

  // ----- in place: the loops of wsj1_msg_scan

  method BlanksLoop(t: text, p: nat) returns (pos: nat)
    requires p <= |t|
    ensures pos == SkipBlanks(t, p)
  {
    pos := p;
    while At(t, pos) == ' '
      invariant p <= pos <= |t| && SkipBlanks(t, pos) == SkipBlanks(t, p)
      decreases |t| - pos
    {
      pos := pos + 1;
    }
  }

  method StringLoop(t: text, p: nat) returns (ok: bool, pos: nat)
    requires p <= |t|
    ensures ok == SkipString(t, p).Some? && (ok ==> pos == SkipString(t, p).value) && pos <= |t|
  {
    pos := p;
    var c := ' ';
    while c != '"'
      invariant p <= pos <= |t|
      invariant c != '"' ==> SkipString(t, pos) == SkipString(t, p)
      invariant c == '"' ==> SkipString(t, p) == Some(pos)
      decreases c != '"', |t| - pos
    {
      c := At(t, pos);
      if c == NUL {
        return false, pos;
      }
      pos := pos + 1;
      if c == '\\' {
        if At(t, pos) == NUL {
          return false, pos;
        }
        pos := pos + 1;
      }
    }
    ok := true;
  }

  method ValueLoop(t: text, p: nat) returns (ok: bool, pos: nat)
    requires p <= |t|
    ensures ok == SkipValue(t, p, 0).Some? && (ok ==> pos == SkipValue(t, p, 0).value) && pos <= |t|
  {
    pos := p;
    var aux: nat := 0;
    while aux != 0 || (At(t, pos) != ',' && At(t, pos) != ']')
      invariant p <= pos <= |t| && SkipValue(t, pos, aux) == SkipValue(t, p, 0)
      decreases |t| - pos
    {
      var c := At(t, pos);
      if c == NUL {
        return false, pos;
      }
      pos := pos + 1;
      if c == '{' || c == '[' {
        aux := aux + 1;
      } else if c == '}' || c == ']' {
        if aux == 0 {
          return false, pos;
        }
        aux := aux - 1;
      } else if c == '"' {
        var found;
        found, pos := StringLoop(t, pos);
        if !found {
          return false, pos;
        }
      }
    }
    ok := true;
  }

  /** One item: its end, and the comma or bracket behind it. */
  method ItemLoop(t: text, beg: nat) returns (ok: bool, item: Item, pos: nat)
    requires beg <= |t|
    ensures ok == SkipValue(t, beg, 0).Some?
    ensures ok ==> pos == SkipValue(t, beg, 0).value && item == ItemAt(t, beg, pos)
  {
    item := Item(0, 0);
    ok, pos := ValueLoop(t, beg);
    if ok {
      var end := pos;
      while end > beg && t[end - 1] == ' '
        invariant beg <= end <= pos && Trim(t, beg, end) == Trim(t, beg, pos)
      {
        end := end - 1;
      }
      item := Item(beg, end - beg);
    }
  }

  datatype Turn = Bad | Last | More

  /** One turn of the loop over the items. */
  method TakeItem(t: text, beg: nat, ghost n: nat) returns (turn: Turn, item: Item, pos: nat)
    requires beg <= |t| && n < MAX_ITEMS
    ensures turn == Bad ==> Items(t, beg, n).None?
    ensures turn == Last ==> pos < |t| && t[pos] == ']'
    ensures turn == Last ==> Items(t, beg, n) == (if Closed(t, pos) then Some([item]) else None)
    ensures turn == More ==> beg < pos <= |t| && Items(t, beg, n) == Prepend([item], Items(t, pos, n + 1))
  {
    var found;
    found, item, pos := ItemLoop(t, beg);
    if !found {
      turn := Bad;
    } else if t[pos] == ']' {
      turn := Last;
      ItemsLast(t, beg, n, pos);
    } else {
      turn := More;
      ghost var e := pos;
      pos := BlanksLoop(t, pos + 1);
      ItemsMore(t, beg, n, e, pos, Items(t, pos, n + 1));
    }
  }

  /** How far the loop is: the items found before `pos`, and what the turn told. */
  ghost predicate Progress(t: string, start: nat, turn: Turn, items: seq<Item>, pos: nat)
    requires start <= |t|
  {
    var all := Items(t, start, 0);
    match turn
    case Bad => all.None?
    case Last => pos < |t| && t[pos] == ']' && all == (if Closed(t, pos) then Some(items) else None)
    case More => pos <= |t| && |items| <= MAX_ITEMS && all == Prepend(items, Items(t, pos, |items|))
  }

  /** One turn of the loop, with the items found before. */
  method Advance(t: text, ghost start: nat, items: seq<Item>, beg: nat) returns (turn: Turn, more: seq<Item>, pos: nat)
    requires start <= |t| && Progress(t, start, More, items, beg)
    ensures Progress(t, start, turn, more, pos) && (turn == More ==> beg < pos <= |t|)
  {
    if |items| == MAX_ITEMS {
      return Bad, items, beg;
    }
    var item;
    turn, item, pos := TakeItem(t, beg, |items|);
    more := items + [item];
    if turn == More {
      PrependStep(items, item, Items(t, pos, |items| + 1));
    }
  }

  /** The list of items, up to its closing bracket. */
  method ListLoop(t: text, start: nat) returns (ok: bool, items: seq<Item>, pos: nat)
    requires start <= |t|
    ensures ok ==> pos < |t| && t[pos] == ']' && Items(t, start, 0) == (if Closed(t, pos) then Some(items) else None)
    ensures !ok ==> Items(t, start, 0).None?
  {
    pos, items := start, [];
    NothingBefore(Items(t, start, 0));
    var turn := More;
    while turn == More
      invariant Progress(t, start, turn, items, pos)
      decreases turn == More, |t| - pos
    {
      turn, items, pos := Advance(t, start, items, pos);
    }
    ok := turn == Last;
  }

  /** wsj1_msg_scan: the items, or nothing when the scan is bad. */
  method MsgScan(t: text) returns (r: Option<seq<Item>>)
    ensures r == Scan(t)
  {
    var pos := BlanksLoop(t, 0);
    if At(t, pos) != '[' {
      return None;
    }
    pos := BlanksLoop(t, pos + 1);
    r := ScanBody(t, pos);
  }

  /** From behind the opening bracket to the end of the text. */
  method ScanBody(t: text, start: nat) returns (r: Option<seq<Item>>)
    requires start <= |t|
    ensures r == if At(t, start) == ']' then (if Closed(t, start) then Some([]) else None) else Items(t, start, 0)
  {
    var items: seq<Item>, pos := [], start;
    if At(t, pos) != ']' {
      var ok;
      ok, items, pos := ListLoop(t, pos);
      if !ok {
        return None;
      }
    }
    var last := BlanksLoop(t, pos + 1);
    r := if last == |t| then Some(items) else None;
  }

  lemma NothingBefore(r: Option<seq<Item>>)
    ensures Prepend([], r) == r
  {
    if r.Some? {
      assert [] + r.value == r.value;
    }
  }

  lemma PrependStep(a: seq<Item>, x: Item, r: Option<seq<Item>>)
    ensures Prepend(a, Prepend([x], r)) == Prepend(a + [x], r)
  {
    if r.Some? {
      assert a + ([x] + r.value) == (a + [x]) + r.value;
    }
  }
}

/** The messages of src/afb-wsj1.c: printed, scanned and taken apart. */
module Wsj1Messages {
  import opened Options
  import opened Wsj1Scan
  import opened Wsj1Text

  datatype Msg =
    | Call(id: string, api: string, verb: string, json: string, token: Option<string>)
    | Reply(ok: bool, id: string, json: string, token: Option<string>)
    | Event(event: string, json: string)

  // ----- printing

  /** A comma between what comes first and the rest of the text. */
  function Then(a: string, rest: string): string {
    a + "," + rest
  }

  /** The object, then the token if there is one, then the closing bracket. */
  function PrintEnd(o1: string, t1: Option<string>): string {
    if t1.Some? then Then(o1, Quoted(t1.value) + "]") else o1 + "]"
  }

  /** wsj1_send_isot */
  function PrintIsot(code: char, s1: string, o1: string, t1: Option<string>): string {
    "[" + Then([code], Then(Quoted(s1), PrintEnd(o1, t1)))
  }

  /** wsj1_send_issot */
  function PrintIssot(code: char, s1: string, s2: string, o1: string, t1: Option<string>): string {
    "[" + Then([code], Then(Quoted(s1), Then(Quoted(s2), PrintEnd(o1, t1))))
  }

  function Tail(t1: Option<string>): seq<string> {
    if t1.Some? then [Quoted(t1.value)] else []
  }

  lemma JoinedFirst(a: string, xs: seq<string>)
    requires xs != []
    ensures Joined([a] + xs) + "]" == Then(a, Joined(xs) + "]")
  {
    assert ([a] + xs)[1..] == xs;
  }

  lemma JoinedEnd(o1: string, t1: Option<string>)
    ensures Joined([o1] + Tail(t1)) + "]" == PrintEnd(o1, t1)
  {
    if t1.Some? {
      JoinedFirst(o1, Tail(t1));
    } else {
      assert [o1] + Tail(t1) == [o1];
    }
  }

  lemma IsotIsArray(code: char, s1: string, o1: string, t1: Option<string>)
    ensures PrintIsot(code, s1, o1, t1) == ArrayOf([[code]] + ([Quoted(s1)] + ([o1] + Tail(t1))))
  {
    var end := [o1] + Tail(t1);
    JoinedEnd(o1, t1);
    JoinedFirst(Quoted(s1), end);
    JoinedFirst([code], [Quoted(s1)] + end);
  }

  lemma IssotIsArray(code: char, s1: string, s2: string, o1: string, t1: Option<string>)
    ensures PrintIssot(code, s1, s2, o1, t1) == ArrayOf([[code]] + ([Quoted(s1)] + ([Quoted(s2)] + ([o1] + Tail(t1)))))
  {
    var end := [o1] + Tail(t1);
    JoinedEnd(o1, t1);
    JoinedFirst(Quoted(s2), end);
    JoinedFirst(Quoted(s1), [Quoted(s2)] + end);
    JoinedFirst([code], [Quoted(s1)] + ([Quoted(s2)] + end));
  }

  // ----- taking a text apart

  /** wsj1_msg_parse_string on the text of an item: without its quotes. */
  function Unquoted(x: string): string {
    if |x| > 1 && x[0] == '"' then x[1..|x| - 1] else x
  }

  lemma UnquotedQuoted(s: string)
    ensures Unquoted(Quoted(s)) == s
  {
  }

  /** The texts of the items. */
  function Texts(t: string): Option<seq<string>> {
    var r := Scan(t);
    if r.None? then None
    else
      ScannedApart(t);
      Some(seq(|r.value|, i requires 0 <= i < |r.value| => t[r.value[i].offset..r.value[i].offset + r.value[i].length]))
  }

  function Slash(s: string): (k: nat)
    ensures k <= |s| && (k < |s| ==> s[k] == '/') && '/' !in s[..k]
  {
    if s == "" then 0
    else if s[0] == '/' then 0
    else
      var k := Slash(s[1..]);
      assert s[..k + 1] == [s[0]] + s[1..][..k];
      k + 1
  }

  /** A call, from its four or five items. */
  function CallOf(xs: seq<string>): Option<Msg>
    requires |xs| == 4 || |xs| == 5
  {
    var tag := Unquoted(xs[2]);
    var k := Slash(tag);
    if k == |tag| then None
    else Some(Call(Unquoted(xs[1]), tag[..k], tag[k + 1..], xs[3], if |xs| == 5 then Some(Unquoted(xs[4])) else None))
  }

  /** The token of a reply, looked for when there are five items. */
  function ReplyToken(xs: seq<string>): Option<string>
    requires |xs| >= 3
  {
    if |xs| == 5 then Some(Unquoted(xs[3])) else None
  }

  /** wsj1_on_text, on the texts of the items. */
  function ParseItems(xs: seq<string>): Option<Msg> {
    if xs == [] || |xs[0]| != 1 then None
    else if xs[0] == "2" then
      if |xs| != 4 && |xs| != 5 then None else CallOf(xs)
    else if xs[0] == "3" || xs[0] == "4" then
      if |xs| != 3 && |xs| != 4 then None
      else Some(Reply(xs[0] == "3", Unquoted(xs[1]), xs[2], ReplyToken(xs)))
    else if xs[0] == "5" then
      if |xs| != 3 then None else Some(Event(Unquoted(xs[1]), xs[2]))
    else None
  }

  function Parse(t: string): Option<Msg> {
    var xs := Texts(t);
    if xs.None? then None else ParseItems(xs.value)
  }

  // ----- round trips

  lemma TextsOfArray(xs: seq<string>)
    requires 0 < |xs| <= MAX_ITEMS && xs[0] != "" && forall x :: x in xs ==> Clean(x)
    ensures Texts(ArrayOf(xs)) == Some(xs)
  {
    var t := ArrayOf(xs);
    ScanOfArray(xs);
    assert t[1..] == Joined(xs) + "]";
    var texts := Texts(t).value;
    PlaceHolds(t, 1, xs, 0);
    assert |texts| == |xs|;
    forall i | 0 <= i < |xs|
      ensures texts[i] == xs[i]
    {
      PlaceHolds(t, 1, xs, i);
    }
    assert texts == xs;
  }

  /** A string that the scanner takes for one item when quoted. */
  predicate Printable(s: string) {
    Clean(Quoted(s))
  }

  lemma CodeClean(code: char)
    requires code in "2345"
    ensures Clean([code])
  {
    assert Neutral([code], 1, 0);
  }

  /** A printed call, as items. */
  lemma CallItems(id: string, tag: string, json: string, token: Option<string>)
    requires Printable(id) && Printable(tag) && Clean(json) && (token.Some? ==> Printable(token.value))
    ensures var xs := ["2"] + ([Quoted(id)] + ([Quoted(tag)] + ([json] + Tail(token))));
            Texts(PrintIssot('2', id, tag, json, token)) == Some(xs)
  {
    var xs := ["2"] + ([Quoted(id)] + ([Quoted(tag)] + ([json] + Tail(token))));
    CodeClean('2');
    assert forall x :: x in Tail(token) ==> Clean(x);
    IssotIsArray('2', id, tag, json, token);
    TextsOfArray(xs);
  }

  lemma CallRoundTrip(id: string, api: string, verb: string, json: string, token: Option<string>)
    requires Printable(id) && Printable(api + "/" + verb) && Clean(json) && (token.Some? ==> Printable(token.value))
    requires '/' !in api
    ensures Parse(PrintIssot('2', id, api + "/" + verb, json, token)) == Some(Call(id, api, verb, json, token))
  {
    var tag := api + "/" + verb;
    CallItems(id, tag, json, token);
    var xs := ["2"] + ([Quoted(id)] + ([Quoted(tag)] + ([json] + Tail(token))));
    UnquotedQuoted(id);
    UnquotedQuoted(tag);
    SlashAt(api, verb);
    if token.Some? {
      UnquotedQuoted(token.value);
    }
    FourFirst("2", Quoted(id), Quoted(tag), json, Tail(token), xs);
    ParseCall(xs, id, api, verb, json, token);
  }

  lemma FourFirst(a: string, b: string, c: string, d: string, tail: seq<string>, xs: seq<string>)
    requires xs == [a] + ([b] + ([c] + ([d] + tail)))
    ensures |xs| == 4 + |tail| && xs[0] == a && xs[1] == b && xs[2] == c && xs[3] == d && xs[4..] == tail
    ensures tail != [] ==> xs[4] == tail[0]
  {
  }

  lemma ParseCall(xs: seq<string>, id: string, api: string, verb: string, json: string, token: Option<string>)
    requires |xs| == (if token.Some? then 5 else 4) && xs[0] == "2" && Unquoted(xs[1]) == id && xs[3] == json
    requires var tag := Unquoted(xs[2]);
             Slash(tag) == |api| < |tag| && tag[..|api|] == api && tag[|api| + 1..] == verb
    requires token.Some? ==> Unquoted(xs[4]) == token.value
    ensures ParseItems(xs) == Some(Call(id, api, verb, json, token))
  {
  }

  lemma {:induction false} SlashUnique(s: string, k: nat)
    requires k < |s| && s[k] == '/' && '/' !in s[..k]
    ensures Slash(s) == k
  {
    if k > 0 {
      assert s[0] in s[..k];
      assert s[1..][..k - 1] == s[..k][1..];
      SlashUnique(s[1..], k - 1);
    }
  }

  lemma SlashAt(api: string, verb: string)
    requires '/' !in api
    ensures Slash(api + "/" + verb) == |api|
    ensures (api + "/" + verb)[..|api|] == api && (api + "/" + verb)[|api| + 1..] == verb
  {
    assert (api + "/" + verb)[..|api|] == api;
    SlashUnique(api + "/" + verb, |api|);
  }

  /** A printed reply or event, as items. */
  lemma IsotItems(code: char, s1: string, json: string, token: Option<string>)
    requires code in "345" && Printable(s1) && Clean(json) && (token.Some? ==> Printable(token.value))
    ensures var xs := [[code]] + ([Quoted(s1)] + ([json] + Tail(token)));
            Texts(PrintIsot(code, s1, json, token)) == Some(xs)
  {
    var xs := [[code]] + ([Quoted(s1)] + ([json] + Tail(token)));
    CodeClean(code);
    assert forall x :: x in Tail(token) ==> Clean(x);
    IsotIsArray(code, s1, json, token);
    TextsOfArray(xs);
  }

  lemma EventRoundTrip(event: string, json: string)
    requires Printable(event) && Clean(json)
    ensures Parse(PrintIsot('5', event, json, None)) == Some(Event(event, json))
  {
    IsotItems('5', event, json, None);
    UnquotedQuoted(event);
  }

  /** Replies come back without their token, because it is looked for in a fifth item
      and a reply has four at most: so a reply comes back as it was sent if and only if
      it has no token. */
  lemma ReplyRoundTrip(ok: bool, id: string, json: string, token: Option<string>)
    requires Printable(id) && Clean(json) && (token.Some? ==> Printable(token.value))
    ensures var back := Parse(PrintIsot(if ok then '3' else '4', id, json, token));
            back == Some(Reply(ok, id, json, None)) && (back == Some(Reply(ok, id, json, token)) <==> token.None?)
  {
    var code := if ok then '3' else '4';
    IsotItems(code, id, json, token);
    UnquotedQuoted(id);
    ParseReply([[code]] + ([Quoted(id)] + ([json] + Tail(token))), code, Quoted(id), json, Tail(token));
  }

  lemma ParseReply(xs: seq<string>, code: char, id: string, json: string, tail: seq<string>)
    requires xs == [[code]] + ([id] + ([json] + tail)) && |tail| <= 1 && code in "34"
    ensures ParseItems(xs) == Some(Reply(code == '3', Unquoted(id), json, None))
  {
    assert xs[0] == [code] && xs[1] == id && xs[2] == json;
  }
}

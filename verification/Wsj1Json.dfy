/** The texts of src/afb-wsj1.c written out, and the JSON values that may stand in them. */
module Wsj1Json {
  import opened Options
  import opened Wsj1Scan
  import opened Wsj1Text
  import opened Wsj1Messages

  // ----- values

  /** A JSON value: a word is a number, true, false or null. */
  datatype Json = Word(text: string) | Text(s: string) | Arr(items: seq<Json>) | Obj(members: seq<Member>)
  datatype Member = Member(name: string, value: Json)

  predicate Wordy(text: string) {
    text != "" && forall i :: 0 <= i < |text| ==> text[i] !in "\"\\[]{}, "
  }

  predicate Valid(j: Json) {
    match j
    case Word(text) => Wordy(text)
    case Text(_) => true
    case Arr(items) => forall i :: 0 <= i < |items| ==> Valid(items[i])
    case Obj(members) => forall i :: 0 <= i < |members| ==> Valid(members[i].value)
  }

  function Hex(n: nat): char
    requires n < 16
  {
    "0123456789abcdef"[n]
  }

  /** A character of a string as it is printed. */
  function EscapeChar(c: char): string {
    if c == '"' || c == '\\' || c == '/' then ['\\', c]
    else if c == '\n' then "\\n"
    else if c == '\r' then "\\r"
    else if c == '\t' then "\\t"
    else if c as int < 32 then ['\\', 'u', '0', '0', Hex(c as int / 16), Hex(c as int % 16)]
    else [c]
  }

  function Escape(s: string): string {
    if s == "" then "" else EscapeChar(s[0]) + Escape(s[1..])
  }

  /** The value without blanks between its parts. */
  function Print(j: Json): string {
    match j
    case Word(text) => text
    case Text(s) => Quoted(Escape(s))
    case Arr(items) => "[" + PrintItems(items) + "]"
    case Obj(members) => "{" + PrintMembers(members) + "}"
  }

  function PrintItems(items: seq<Json>): string {
    if items == [] then ""
    else if |items| == 1 then Print(items[0])
    else Print(items[0]) + ("," + PrintItems(items[1..]))
  }

  function PrintMembers(members: seq<Member>): string {
    if members == [] then ""
    else
      var m := members[0];
      var one := Quoted(Escape(m.name)) + (":" + Print(m.value));
      if |members| == 1 then one else one + ("," + PrintMembers(members[1..]))
  }

  // ----- strings

  /** Behind an opening quote, `x` is passed over to the closing quote that ends it. */
  ghost predicate Closes(x: string) {
    SkipString(x, 0) == Some(|x|)
  }

  lemma ClosesBehind(a: string, x: string)
    requires Closes(x) && SkipString(a + x, 0) == SkipString(a + x, |a|)
    ensures Closes(a + x)
  {
    StringWithin(a + x, |a|, x, 0, |a|);
  }

  lemma PlainSkipped(a: string, x: string, p: nat)
    requires p < |a| && a[p] != '"' && a[p] != '\\'
    ensures SkipString(a + x, p) == SkipString(a + x, p + 1)
  {
  }

  lemma EscapeSkipped(c: char, x: string)
    ensures var a := EscapeChar(c); SkipString(a + x, 0) == SkipString(a + x, |a|)
  {
    var a := EscapeChar(c);
    if |a| == 1 {
      PlainSkipped(a, x, 0);
    } else {
      assert (a + x)[0] == '\\' && SkipString(a + x, 0) == SkipString(a + x, 2);
      if |a| == 6 {
        HexPlain(c as int / 16);
        HexPlain(c as int % 16);
        PlainSkipped(a, x, 2);
        PlainSkipped(a, x, 3);
        PlainSkipped(a, x, 4);
        PlainSkipped(a, x, 5);
      }
    }
  }

  lemma HexPlain(n: nat)
    requires n < 16
    ensures Hex(n) != '"' && Hex(n) != '\\'
  {
  }

  lemma {:induction false} EscapeCloses(s: string)
    ensures Closes(Escape(s) + "\"")
  {
    if s == "" {
      assert Escape(s) + "\"" == "\"";
    } else {
      EscapeCloses(s[1..]);
      var x := Escape(s[1..]) + "\"";
      EscapeSkipped(s[0], x);
      ClosesBehind(EscapeChar(s[0]), x);
      assert Escape(s) + "\"" == EscapeChar(s[0]) + x;
    }
  }

  /** Every string may be printed as a name, a tag or a token once it is escaped. */
  lemma EscapedPrintable(s: string)
    ensures Printable(Escape(s))
  {
    EscapeCloses(s);
    EscapedClean(Escape(s));
  }

  // ----- what the scanner passes over

  /** Wherever `x` lies, the scanner `depth` brackets deep goes from its beginning to its
      end and is as deep there. */
  ghost predicate Passes(x: string, depth: nat) {
    forall t: string, p: nat :: LiesAt(t, p, x) ==> (Neutral(t, p, depth) <==> Neutral(t, p + |x|, depth))
  }

  lemma LiesSplit(t: string, p: nat, a: string, b: string)
    requires LiesAt(t, p, a + b)
    ensures LiesAt(t, p, a) && LiesAt(t, p + |a|, b)
  {
    forall i | 0 <= i < |a|
      ensures t[p + i] == a[i]
    {
      assert (a + b)[i] == a[i];
    }
    forall i | 0 <= i < |b|
      ensures t[p + |a| + i] == b[i]
    {
      assert t[p + (|a| + i)] == (a + b)[|a| + i];
    }
  }

  lemma PassesBoth(a: string, b: string, depth: nat)
    requires Passes(a, depth) && Passes(b, depth)
    ensures Passes(a + b, depth)
  {
    forall t: string, p: nat | LiesAt(t, p, a + b)
      ensures Neutral(t, p, depth) <==> Neutral(t, p + |a + b|, depth)
    {
      LiesSplit(t, p, a, b);
    }
  }

  /** A character that is neither a quote nor a bracket, nor a stop in the open. */
  lemma PassesChar(c: char, depth: nat)
    requires c !in "\"[]{}" && (depth == 0 ==> c != ',')
    ensures Passes([c], depth)
  {
    forall t: string, p: nat | LiesAt(t, p, [c])
      ensures Neutral(t, p, depth) <==> Neutral(t, p + 1, depth)
    {
      assert t[p + 0] == [c][0];
    }
  }

  lemma {:induction false} PassesWord(x: string, depth: nat)
    requires forall i :: 0 <= i < |x| ==> x[i] !in "\"[]{},"
    ensures Passes(x, depth)
  {
    if x != "" {
      PassesChar(x[0], depth);
      PassesWord(x[1..], depth);
      PassesBoth([x[0]], x[1..], depth);
      assert x == [x[0]] + x[1..];
    }
  }

  lemma PassesText(s: string, depth: nat)
    ensures Passes(Quoted(Escape(s)), depth)
  {
    var x := Escape(s) + "\"";
    EscapeCloses(s);
    assert Quoted(Escape(s)) == "\"" + x;
    forall t: string, p: nat | LiesAt(t, p, "\"" + x)
      ensures Neutral(t, p, depth) <==> Neutral(t, p + 1 + |x|, depth)
    {
      LiesSplit(t, p, "\"", x);
      assert t[p + 0] == "\""[0];
      StringWithin(t, p + 1, x, 0, p + 1);
    }
  }

  /** What passes one bracket deeper passes between brackets. */
  lemma PassesBracketed(open: string, x: string, close: string, depth: nat)
    requires (open == "[" && close == "]") || (open == "{" && close == "}")
    requires Passes(x, depth + 1)
    ensures Passes(open + x + close, depth)
  {
    forall t: string, p: nat | LiesAt(t, p, open + x + close)
      ensures Neutral(t, p, depth) <==> Neutral(t, p + |open + x + close|, depth)
    {
      LiesSplit(t, p, open + x, close);
      LiesSplit(t, p, open, x);
      assert t[p + 0] == open[0];
      var q := p + 1 + |x|;
      assert t[q + 0] == close[0];
      assert Neutral(t, p, depth) <==> Neutral(t, p + 1, depth + 1);
      assert Neutral(t, q, depth + 1) <==> Neutral(t, q + 1, depth);
    }
  }

  lemma {:induction false} PassesValue(j: Json, depth: nat)
    requires Valid(j)
    ensures Passes(Print(j), depth)
    decreases j, 1, 0
  {
    match j
    case Word(text) => PassesWord(text, depth);
    case Text(s) => PassesText(s, depth);
    case Arr(items) =>
      PassesItems(j, items, depth + 1);
      PassesBracketed("[", PrintItems(items), "]", depth);
    case Obj(members) =>
      PassesMembers(j, members, depth + 1);
      PassesBracketed("{", PrintMembers(members), "}", depth);
  }

  lemma {:induction false} PassesItems(j: Json, items: seq<Json>, depth: nat)
    requires depth > 0 && forall i :: 0 <= i < |items| ==> items[i] < j && Valid(items[i])
    ensures Passes(PrintItems(items), depth)
    decreases j, 0, |items|
  {
    if items == [] {
      PassesWord("", depth);
    } else {
      PassesValue(items[0], depth);
      if |items| > 1 {
        PassesItems(j, items[1..], depth);
        PassesChar(',', depth);
        PassesBoth(",", PrintItems(items[1..]), depth);
        PassesBoth(Print(items[0]), "," + PrintItems(items[1..]), depth);
      }
    }
  }

  lemma {:induction false} PassesMembers(j: Json, members: seq<Member>, depth: nat)
    requires depth > 0 && forall i :: 0 <= i < |members| ==> members[i].value < j && Valid(members[i].value)
    ensures Passes(PrintMembers(members), depth)
    decreases j, 0, |members|
  {
    if members == [] {
      PassesWord("", depth);
    } else {
      var m := members[0];
      PassesValue(m.value, depth);
      PassesText(m.name, depth);
      PassesChar(':', depth);
      PassesBoth(":", Print(m.value), depth);
      var one := Quoted(Escape(m.name)) + (":" + Print(m.value));
      PassesBoth(Quoted(Escape(m.name)), ":" + Print(m.value), depth);
      if |members| > 1 {
        PassesMembers(j, members[1..], depth);
        PassesChar(',', depth);
        PassesBoth(",", PrintMembers(members[1..]), depth);
        PassesBoth(one, "," + PrintMembers(members[1..]), depth);
      }
    }
  }

  /** Every JSON value printed without blanks is an item that the scanner finds whole. */
  lemma JsonClean(j: Json)
    requires Valid(j)
    ensures Clean(Print(j))
  {
    var x := Print(j);
    PassesValue(j, 0);
    assert LiesAt(x, 0, x);
    assert Neutral(x, |x|, 0);
  }

  // ----- texts

  /** The text of a call: the code, the identifier, API and verb with a slash, the object and
      the token if there is one. */
  lemma CallText(id: string, api: string, verb: string, json: string, token: Option<string>)
    ensures PrintIssot('2', id, api + "/" + verb, json, token) ==
            "[2,\"" + id + "\",\"" + api + "/" + verb + "\"," + json + EndText(token)
  {
    EndOf(json, token);
    assert PrintIssot('2', id, api + "/" + verb, json, token) ==
           "[" + Then("2", Then(Quoted(id), Then(Quoted(api + "/" + verb), json + EndText(token))));
  }

  /** The texts of replies and events. */
  lemma ShortText(code: char, s: string, json: string, token: Option<string>)
    ensures PrintIsot(code, s, json, token) == "[" + [code] + ",\"" + s + "\"," + json + EndText(token)
  {
    EndOf(json, token);
    assert PrintIsot(code, s, json, token) == "[" + Then([code], Then(Quoted(s), json + EndText(token)));
  }

  function EndText(token: Option<string>): string {
    if token.Some? then ",\"" + token.value + "\"]" else "]"
  }

  lemma EndOf(json: string, token: Option<string>)
    ensures PrintEnd(json, token) == json + EndText(token)
  {
  }

  /** A call with any JSON value and any strings, escaped, comes back as it was sent. */
  lemma JsonCallRoundTrip(id: string, api: string, verb: string, j: Json, token: Option<string>)
    requires Valid(j) && Printable(api + "/" + verb) && '/' !in api
    ensures var t := if token.Some? then Some(Escape(token.value)) else None;
            Parse(PrintIssot('2', Escape(id), api + "/" + verb, Print(j), t)) ==
            Some(Call(Escape(id), api, verb, Print(j), t))
  {
    JsonClean(j);
    EscapedPrintable(id);
    if token.Some? {
      EscapedPrintable(token.value);
    }
    CallRoundTrip(Escape(id), api, verb, Print(j), if token.Some? then Some(Escape(token.value)) else None);
  }
}

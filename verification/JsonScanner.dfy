// Finding the first JSON object in a model's reply
// (scripts/dev-tools/audit_scene_with_smolvlm.py, extract_first_json_object), against
// a printer for JSON values (sections 4 and 7 of RFC 8259).
module JsonScanner {
  import opened Common

  // ---- the automaton -----------------------------------------------------

  datatype State = State(depth: int, inString: bool, escape: bool)

  const START := State(0, false, false)

  function Step(s: State, c: char): State {
    if s.inString then
      if s.escape then s.(escape := false)
      else if c == '\\' then s.(escape := true)
      else if c == '"' then s.(inString := false)
      else s
    else if c == '"' then s.(inString := true)
    else if c == '{' then s.(depth := s.depth + 1)
    else if c == '}' then s.(depth := s.depth - 1)
    else s
  }

  // The scan stops here: a closing brace outside strings brings the depth to zero.
  predicate Closes(s: State, c: char) { !s.inString && c == '}' && s.depth == 1 }

  function Run(s: State, text: string): State
    decreases text
  {
    if text == [] then s else Run(Step(s, text[0]), text[1..])
  }

  // The scan passes over the whole text.
  predicate Passes(s: State, text: string)
    decreases text
  {
    text == [] || (!Closes(s, text[0]) && Passes(Step(s, text[0]), text[1..]))
  }

  lemma {:induction false} RunAppend(s: State, a: string, b: string)
    ensures Run(s, a + b) == Run(Run(s, a), b)
    ensures Passes(s, a + b) <==> Passes(s, a) && Passes(Run(s, a), b)
    decreases a
  {
    if a == [] {
      assert a + b == b;
    } else {
      assert (a + b)[0] == a[0] && (a + b)[1..] == a[1..] + b;
      RunAppend(Step(s, a[0]), a[1..], b);
    }
  }

  lemma RunNothing(s: State)
    ensures Run(s, "") == s && Passes(s, "")
  {
  }

  lemma RunSnoc(s: State, a: string, c: char)
    ensures Run(s, a + [c]) == Step(Run(s, a), c)
    ensures Passes(s, a + [c]) <==> Passes(s, a) && !Closes(Run(s, a), c)
  {
    RunAppend(s, a, [c]);
    assert Run(Run(s, a), [c]) == Step(Run(s, a), c);
  }

  // ---- the code ----------------------------------------------------------

  datatype Extracted = EmptyResponse | NoObject | Unterminated | Candidate(text: string)

  // text[start..end] is the candidate: the first opening brace, and the first
  // character at which the scan stops.
  ghost predicate Delimits(text: string, start: nat, end: nat) {
    && start < end <= |text|
    && text[start] == '{' && '{' !in text[..start]
    && Passes(START, text[start..end - 1]) && Closes(Run(START, text[start..end - 1]), text[end - 1])
  }

  method FindOpen(text: string) returns (start: int)
    ensures start == -1 <==> '{' !in text
    ensures start != -1 ==> 0 <= start < |text| && text[start] == '{' && '{' !in text[..start]
  {
    for i := 0 to |text|
      invariant '{' !in text[..i]
    {
      if text[i] == '{' { return i; }
      assert text[..i + 1] == text[..i] + [text[i]];
    }
    assert text[..|text|] == text;
    return -1;
  }

  // The result stands for the text handed to json.loads.
  method ExtractFirstJsonObject(text: string) returns (r: Extracted)
    ensures r.EmptyResponse? <==> text == ""
    ensures r.NoObject? <==> text != "" && '{' !in text
    ensures r.Candidate? <==> exists start: nat, end: nat :: Delimits(text, start, end)
    ensures forall start: nat, end: nat :: Delimits(text, start, end) ==> r == Candidate(text[start..end])
  {
    hide Run, Passes;
    if text == "" { return EmptyResponse; }
    var start := FindOpen(text);
    if start == -1 { return NoObject; }
    var depth, inString, escape := 0, false, false;
    var index := start;
    RunNothing(START);
    assert text[start..index] == "";
    while index < |text|
      invariant start <= index <= |text|
      invariant State(depth, inString, escape) == Run(START, text[start..index])
      invariant Passes(START, text[start..index])
    {
      var c := text[index];
      ghost var before := text[start..index];
      assert text[start..index + 1] == before + [c];
      RunSnoc(START, before, c);
      index := index + 1;
      if inString {
        if escape {
          escape := false;
        } else if c == '\\' {
          escape := true;
        } else if c == '"' {
          inString := false;
        }
        continue;
      }
      if c == '"' {
        inString := true;
      } else if c == '{' {
        depth := depth + 1;
      } else if c == '}' {
        depth := depth - 1;
        if depth == 0 {
          assert text[start..index - 1] == before;
          OnlyOne(text, start, index);
          assert Delimits(text, start, index);
          return Candidate(text[start..index]);
        }
      }
    }
    forall s: nat, e: nat | Delimits(text, s, e)
      ensures false
    {
      StartIsUnique(text, start, s);
      DoesNotPass(text, start, e, |text|);
    }
    return Unterminated;
  }

  lemma StartIsUnique(text: string, a: nat, b: nat)
    requires a < |text| && text[a] == '{' && '{' !in text[..a]
    requires b < |text| && text[b] == '{' && '{' !in text[..b]
    ensures a == b
  {
  }

  lemma OnlyOne(text: string, start: nat, end: nat)
    requires Delimits(text, start, end)
    ensures forall s: nat, e: nat :: Delimits(text, s, e) ==> s == start && e == end
  {
    forall s: nat, e: nat | Delimits(text, s, e)
      ensures s == start && e == end
    {
      StartIsUnique(text, start, s);
      if e < end { DoesNotPass(text, start, e, end - 1); }
      if end < e { DoesNotPass(text, start, end, e - 1); }
    }
  }

  lemma DoesNotPass(text: string, start: nat, end: nat, n: nat)
    requires Delimits(text, start, end) && end <= n <= |text|
    ensures !Passes(START, text[start..n])
  {
    var a, b := text[start..end - 1], text[end - 1..n];
    assert text[start..n] == a + b;
    RunAppend(START, a, b);
  }

  // ---- the printer -------------------------------------------------------

  datatype Json =
    | Literal(word: string)
    | Number(digits: string)
    | Text(value: Spelled)
    | Array(items: seq<Json>)
    | Object(members: seq<Member>)

  datatype Member = Member(name: Spelled, value: Json)

  // A string and the spelling the printer chose for each of its characters.
  datatype Spelled = Spelled(value: string, chars: seq<string>)

  // White space the printer puts after an opening bracket, around commas and
  // colons, and before a closing bracket.
  datatype Layout = Layout(open: string, comma: string, colon: string, close: string)

  predicate White(s: string) {
    forall k :: 0 <= k < |s| ==> s[k] == ' ' || s[k] == '\t' || s[k] == '\n' || s[k] == '\r'
  }

  predicate WhiteLayout(l: Layout) { White(l.open) && White(l.comma) && White(l.colon) && White(l.close) }

  predicate NumberChars(s: string) {
    forall k :: 0 <= k < |s| ==> '0' <= s[k] <= '9' || s[k] in "+-.eE"
  }

  function HexValue(c: char): Option<nat> {
    if '0' <= c <= '9' then Some(c as int - '0' as int)
    else if 'a' <= c <= 'f' then Some(c as int - 'a' as int + 10)
    else if 'A' <= c <= 'F' then Some(c as int - 'A' as int + 10)
    else None
  }

  predicate HexDigits(s: string) { forall k :: 0 <= k < |s| ==> HexValue(s[k]).Some? }

  function HexNumber(s: string): nat
    requires HexDigits(s)
  {
    if s == [] then 0 else 16 * HexNumber(s[..|s| - 1]) + HexValue(s[|s| - 1]).value
  }

  // \uXXXX with this number.
  predicate Unicode(e: string, code: int) {
    |e| == 6 && e[..2] == "\\u" && HexDigits(e[2..]) && HexNumber(e[2..]) == code
  }

  function ShortEscape(c: char): Option<char> {
    match c
    case '"' => Some('"')
    case '\\' => Some('\\')
    case '/' => Some('/')
    case 'b' => Some('\U{0008}')
    case 'f' => Some('\U{000C}')
    case 'n' => Some('\n')
    case 'r' => Some('\r')
    case 't' => Some('\t')
    case _ => None
  }

  // The spellings section 7 allows for a character inside a string: itself, unless
  // it must be escaped; a two-character escape; its number, as a surrogate pair
  // when it does not fit in four digits.
  predicate Spells(e: string, c: char) {
    var code := c as int;
    || (e == [c] && c != '"' && c != '\\' && c >= ' ')
    || (|e| == 2 && e[0] == '\\' && ShortEscape(e[1]) == Some(c))
    || (code < 0x1_0000 && Unicode(e, code))
    || (code >= 0x1_0000 && |e| == 12
        && Unicode(e[..6], 0xD800 + (code - 0x1_0000) / 0x400) && Unicode(e[6..], 0xDC00 + (code - 0x1_0000) % 0x400))
  }

  // A spelling stands for one character only.
  lemma SpellingIsUnambiguous(e: string, c: char, d: char)
    requires Spells(e, c) && Spells(e, d)
    ensures c == d
  {
    hide HexNumber;
    if |e| == 12 {
      var a, b := c as int - 0x1_0000, d as int - 0x1_0000;
      assert a / 0x400 == b / 0x400 && a % 0x400 == b % 0x400;
      assert a == a / 0x400 * 0x400 + a % 0x400 && b == b / 0x400 * 0x400 + b % 0x400;
    }
  }

  ghost predicate WellSpelled(t: Spelled) {
    |t.chars| == |t.value| && forall k :: 0 <= k < |t.value| ==> Spells(t.chars[k], t.value[k])
  }

  // Literals and numbers as section 3 and 6 allow their characters, strings as
  // section 7 allows them to be spelled.
  ghost predicate WellFormed(v: Json) {
    match v
    case Literal(w) => w == "true" || w == "false" || w == "null"
    case Number(d) => NumberChars(d)
    case Text(t) => WellSpelled(t)
    case Array(items) => forall k :: 0 <= k < |items| ==> WellFormed(items[k])
    case Object(ms) => forall k :: 0 <= k < |ms| ==> WellSpelled(ms[k].name) && WellFormed(ms[k].value)
  }

  function Joined(chars: seq<string>): string {
    if chars == [] then [] else chars[0] + Joined(chars[1..])
  }

  function Quoted(t: Spelled): string { "\"" + Joined(t.chars) + "\"" }

  function Print(v: Json, l: Layout): string
    decreases v, 0
  {
    match v
    case Literal(w) => w
    case Number(d) => d
    case Text(s) => Quoted(s)
    case Array(items) => "[" + l.open + PrintItems(items, l) + l.close + "]"
    case Object(ms) => "{" + PrintBody(ms, l) + "}"
  }

  function PrintBody(ms: seq<Member>, l: Layout): string
    decreases ms, 1
  {
    l.open + PrintMembers(ms, l) + l.close
  }

  function PrintItems(items: seq<Json>, l: Layout): string
    decreases items
  {
    if items == [] then ""
    else if |items| == 1 then Print(items[0], l)
    else Print(items[0], l) + "," + l.comma + PrintItems(items[1..], l)
  }

  function PrintMembers(ms: seq<Member>, l: Layout): string
    decreases ms, 0
  {
    if ms == [] then ""
    else if |ms| == 1 then PrintMember(ms[0], l)
    else PrintMember(ms[0], l) + "," + l.comma + PrintMembers(ms[1..], l)
  }

  function PrintMember(m: Member, l: Layout): string
    decreases m, 1
  {
    Quoted(m.name) + ":" + l.colon + Print(m.value, l)
  }

  // ---- printing is invisible to the depth --------------------------------

  // Inside an open object, the scan passes the text and ends as it began.
  ghost predicate Neutral(depth: int, text: string) {
    var s := State(depth, false, false);
    Passes(s, text) && Run(s, text) == s
  }

  lemma NeutralAppend(depth: int, a: string, b: string)
    requires Neutral(depth, a) && Neutral(depth, b)
    ensures Neutral(depth, a + b)
  {
    RunAppend(State(depth, false, false), a, b);
  }

  predicate Plain(c: char) { c != '"' && c != '{' && c != '}' }

  lemma {:induction false} PlainIsNeutral(depth: int, text: string)
    requires forall k :: 0 <= k < |text| ==> Plain(text[k])
    ensures Neutral(depth, text)
  {
    if text != [] { PlainIsNeutral(depth, text[1..]); }
  }

  // Within a string, no spelling of a text ends the string, whatever it contains.
  lemma {:induction false} SpelledStaysInside(depth: int, t: Spelled)
    requires WellSpelled(t)
    ensures var s := State(depth, true, false); Passes(s, Joined(t.chars)) && Run(s, Joined(t.chars)) == s
    decreases |t.chars|
  {
    if t.chars != [] {
      var s := State(depth, true, false);
      CharStaysInside(depth, t.chars[0], t.value[0]);
      SpelledStaysInside(depth, Spelled(t.value[1..], t.chars[1..]));
      RunAppend(s, t.chars[0], Joined(t.chars[1..]));
    }
  }

  lemma {:induction false} InsideRun(depth: int, text: string)
    requires forall k :: 0 <= k < |text| ==> text[k] != '"' && text[k] != '\\'
    ensures var s := State(depth, true, false); Passes(s, text) && Run(s, text) == s
  {
    if text != [] { InsideRun(depth, text[1..]); }
  }

  lemma Pair(s: State, a: char, b: char)
    ensures Run(s, [a, b]) == Step(Step(s, a), b)
    ensures Passes(s, [a, b]) <==> !Closes(s, a) && !Closes(Step(s, a), b)
  {
    assert [a, b][1..] == [b];
    assert Run(Step(s, a), [b]) == Step(Step(s, a), b);
    assert Passes(Step(s, a), [b]) <==> !Closes(Step(s, a), b);
  }

  lemma UnicodeStaysInside(depth: int, e: string, code: int)
    requires Unicode(e, code)
    ensures var s := State(depth, true, false); Passes(s, e) && Run(s, e) == s
  {
    var s := State(depth, true, false);
    assert e == "\\u" + e[2..];
    Pair(s, '\\', 'u');
    forall k | 0 <= k < 4
      ensures e[2..][k] != '"' && e[2..][k] != '\\'
    {
      assert HexValue(e[2..][k]).Some?;
    }
    InsideRun(depth, e[2..]);
    RunAppend(s, "\\u", e[2..]);
  }

  lemma CharStaysInside(depth: int, e: string, c: char)
    requires Spells(e, c)
    ensures var s := State(depth, true, false); Passes(s, e) && Run(s, e) == s
  {
    hide Unicode, ShortEscape;
    var s, code := State(depth, true, false), c as int;
    if |e| == 2 && e[0] == '\\' && ShortEscape(e[1]) == Some(c) {
      assert e == [e[0], e[1]];
      Pair(s, e[0], e[1]);
    } else if code < 0x1_0000 && Unicode(e, code) {
      UnicodeStaysInside(depth, e, code);
    } else if |e| == 12 {
      assert e == e[..6] + e[6..];
      UnicodeStaysInside(depth, e[..6], 0xD800 + (code - 0x1_0000) / 0x400);
      UnicodeStaysInside(depth, e[6..], 0xDC00 + (code - 0x1_0000) % 0x400);
      RunAppend(s, e[..6], e[6..]);
    } else {
      InsideRun(depth, e);
    }
  }

  lemma QuotedIsNeutral(depth: int, t: Spelled)
    requires WellSpelled(t)
    ensures Neutral(depth, Quoted(t))
  {
    var s, inside := State(depth, false, false), State(depth, true, false);
    SpelledStaysInside(depth, t);
    RunAppend(s, "\"", Joined(t.chars));
    RunAppend(s, "\"" + Joined(t.chars), "\"");
  }

  // A bracketed text moves the depth up and back down.
  lemma BracesAreNeutral(depth: int, body: string)
    requires depth >= 1 && Neutral(depth + 1, body)
    ensures Neutral(depth, "{" + body + "}")
  {
    var s := State(depth, false, false);
    RunAppend(s, "{", body);
    RunAppend(s, "{" + body, "}");
  }

  lemma {:induction false} PrintIsNeutral(depth: int, v: Json, l: Layout)
    requires depth >= 1 && WellFormed(v) && WhiteLayout(l)
    ensures Neutral(depth, Print(v, l))
    decreases v, 0
  {
    match v
    case Literal(w) => PlainIsNeutral(depth, w);
    case Number(d) => PlainIsNeutral(depth, d);
    case Text(s) => QuotedIsNeutral(depth, s);
    case Array(items) =>
      PlainIsNeutral(depth, "[" + l.open);
      ItemsAreNeutral(depth, items, l);
      PlainIsNeutral(depth, l.close + "]");
      NeutralAppend(depth, "[" + l.open, PrintItems(items, l));
      NeutralAppend(depth, "[" + l.open + PrintItems(items, l), l.close + "]");
      assert Print(v, l) == "[" + l.open + PrintItems(items, l) + (l.close + "]");
    case Object(ms) =>
      BodyIsNeutral(depth + 1, ms, l);
      BracesAreNeutral(depth, PrintBody(ms, l));
  }

  lemma {:induction false} BodyIsNeutral(depth: int, ms: seq<Member>, l: Layout)
    requires depth >= 1 && WhiteLayout(l)
    requires forall k :: 0 <= k < |ms| ==> WellSpelled(ms[k].name) && WellFormed(ms[k].value)
    ensures Neutral(depth, PrintBody(ms, l))
    decreases ms, 1
  {
    PlainIsNeutral(depth, l.open);
    MembersAreNeutral(depth, ms, l);
    PlainIsNeutral(depth, l.close);
    NeutralAppend(depth, l.open, PrintMembers(ms, l));
    NeutralAppend(depth, l.open + PrintMembers(ms, l), l.close);
  }

  lemma {:induction false} ItemsAreNeutral(depth: int, items: seq<Json>, l: Layout)
    requires depth >= 1 && WhiteLayout(l)
    requires forall k :: 0 <= k < |items| ==> WellFormed(items[k])
    ensures Neutral(depth, PrintItems(items, l))
    decreases items
  {
    if items != [] {
      PrintIsNeutral(depth, items[0], l);
      if |items| > 1 {
        ItemsAreNeutral(depth, items[1..], l);
        Separated(depth, Print(items[0], l), "," + l.comma, PrintItems(items[1..], l));
      }
    }
  }

  lemma {:induction false} MembersAreNeutral(depth: int, ms: seq<Member>, l: Layout)
    requires depth >= 1 && WhiteLayout(l)
    requires forall k :: 0 <= k < |ms| ==> WellSpelled(ms[k].name) && WellFormed(ms[k].value)
    ensures Neutral(depth, PrintMembers(ms, l))
    decreases ms, 0
  {
    if ms != [] {
      MemberIsNeutral(depth, ms[0], l);
      if |ms| > 1 {
        MembersAreNeutral(depth, ms[1..], l);
        Separated(depth, PrintMember(ms[0], l), "," + l.comma, PrintMembers(ms[1..], l));
      }
    }
  }

  lemma {:induction false} MemberIsNeutral(depth: int, m: Member, l: Layout)
    requires depth >= 1 && WhiteLayout(l) && WellSpelled(m.name) && WellFormed(m.value)
    ensures Neutral(depth, PrintMember(m, l))
    decreases m, 1
  {
    QuotedIsNeutral(depth, m.name);
    PrintIsNeutral(depth, m.value, l);
    Separated(depth, Quoted(m.name), ":" + l.colon, Print(m.value, l));
  }

  // Two neutral texts around a separator, as the printer associates them.
  lemma Separated(depth: int, a: string, sep: string, b: string)
    requires Neutral(depth, a) && Neutral(depth, b)
    requires forall k :: 0 <= k < |sep| ==> Plain(sep[k])
    ensures Neutral(depth, a + sep + b)
    ensures |sep| > 0 ==> a + [sep[0]] + sep[1..] + b == a + sep + b
  {
    PlainIsNeutral(depth, sep);
    NeutralAppend(depth, a, sep);
    NeutralAppend(depth, a + sep, b);
    if |sep| > 0 { assert [sep[0]] + sep[1..] == sep; }
  }

  // Every text has a spelling: only what must be escaped is.
  function HexDigit(n: nat): char
    requires n < 16
  {
    "0123456789abcdef"[n]
  }

  function EscapeChar(c: char): string {
    if c == '"' || c == '\\' then ['\\', c]
    else if c < ' ' then "\\u00" + [HexDigit(c as int / 16), HexDigit(c as int % 16)]
    else [c]
  }

  lemma EscapeCharSpells(c: char)
    ensures Spells(EscapeChar(c), c)
  {
    if c < ' ' && c != '"' && c != '\\' {
      HexOfControl(c as int);
      assert EscapeChar(c)[2..] == "00" + [HexDigit(c as int / 16), HexDigit(c as int % 16)];
    }
  }

  lemma HexSnoc(s: string, d: char)
    requires HexDigits(s) && HexValue(d).Some?
    ensures HexDigits(s + [d]) && HexNumber(s + [d]) == 16 * HexNumber(s) + HexValue(d).value
  {
    assert (s + [d])[..|s|] == s;
  }

  lemma HexOfControl(code: nat)
    requires code < 32
    ensures var digits := "00" + [HexDigit(code / 16), HexDigit(code % 16)];
            HexDigits(digits) && HexNumber(digits) == code
  {
    var a, b := HexDigit(code / 16), HexDigit(code % 16);
    assert HexValue(a) == Some(code / 16) && HexValue(b) == Some(code % 16);
    hide HexValue, HexDigit;
    assert HexNumber("") == 0;
    assert HexValue('0') == Some(0) by { ZeroDigit(); }
    HexSnoc("", '0');
    HexSnoc("" + ['0'], '0');
    HexSnoc("" + ['0'] + ['0'], a);
    HexSnoc("" + ['0'] + ['0'] + [a], b);
    assert "00" + [a, b] == "" + ['0'] + ['0'] + [a] + [b];
  }

  lemma ZeroDigit()
    ensures HexValue('0') == Some(0)
  {
  }

  function Escape(text: string): (t: Spelled)
    ensures t.value == text && WellSpelled(t)
  {
    var chars := seq(|text|, k requires 0 <= k < |text| => EscapeChar(text[k]));
    assert forall k :: 0 <= k < |text| ==> Spells(chars[k], text[k]) by {
      forall k | 0 <= k < |text| ensures Spells(chars[k], text[k]) { EscapeCharSpells(text[k]); }
    }
    Spelled(text, chars)
  }

  // ---- the round trip ----------------------------------------------------

  // For any object, any prefix without an opening brace and any suffix, the printed
  // object is what the scan delimits.
  lemma PrintedObjectIsDelimited(prefix: string, ms: seq<Member>, l: Layout, suffix: string)
    requires '{' !in prefix && WhiteLayout(l) && WellFormed(Object(ms))
    ensures var printed := Print(Object(ms), l);
            && Delimits(prefix + printed + suffix, |prefix|, |prefix| + |printed|)
            && (prefix + printed + suffix)[|prefix|..|prefix| + |printed|] == printed
  {
    var body := PrintBody(ms, l);
    var printed := Print(Object(ms), l);
    var text := prefix + printed + suffix;
    var end := |prefix| + |printed|;
    BodyIsNeutral(1, ms, l);
    RunAppend(START, "{", body);
    assert text[..|prefix|] == prefix;
    assert text[|prefix|..end - 1] == "{" + body;
    assert text[|prefix|..end] == printed;
  }

  method ScanUndoesPrint(prefix: string, ms: seq<Member>, l: Layout, suffix: string) returns (r: Extracted)
    requires '{' !in prefix && WhiteLayout(l) && WellFormed(Object(ms))
    ensures r == Candidate(Print(Object(ms), l))
  {
    PrintedObjectIsDelimited(prefix, ms, l, suffix);
    r := ExtractFirstJsonObject(prefix + Print(Object(ms), l) + suffix);
  }
}

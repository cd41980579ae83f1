/**
 * The values the cache stores, and the two conversions around the store:
 * `JSON.stringify` on the way in (the cache service serialises every value it writes),
 * and the Upstash client's automatic deserialisation on the way out (`get` hands back
 * `JSON.parse(text)` when the text parses, and the raw text otherwise).
 *
 * Numbers are integers here; `Stringify` renders them as plain decimals, which is what
 * `JSON.stringify` does for integers of magnitude below 10^21.
 */
module Json {
  import opened Wrappers
  import opened Text

  datatype Json =
    | JNull
    | JBool(b: bool)
    | JNum(n: int)
    | JStr(s: string)
    | JArr(items: seq<Json>)
    | JObj(members: seq<Member>)

  /** One property of an object, in the object's own enumeration order. */
  datatype Member = Member(name: string, value: Json)

  /**
   * JavaScript truthiness of a parsed value: what `if (cached)` tests. The falsy values
   * a JSON text can produce are exactly `null`, `false`, `0` and the empty string.
   */
  predicate Truthy(j: Json)
    ensures !Truthy(j) <==> j == JNull || j == JBool(false) || j == JNum(0) || j == JStr("")
  {
    match j
    case JNull => false
    case JBool(b) => b
    case JNum(n) => n != 0
    case JStr(s) => s != ""
    case JArr(_) => true
    case JObj(_) => true
  }

  // ---------------------------------------------------------------------------------------
  // JSON.stringify
  // ---------------------------------------------------------------------------------------

  function Stringify(j: Json): string
  {
    match j
    case JNull => "null"
    case JBool(b) => if b then "true" else "false"
    case JNum(n) => IntToDecimal(n)
    case JStr(s) => Quote(s)
    case JArr(items) => "[" + StringifyItems(items) + "]"
    case JObj(ms) => "{" + StringifyMembers(ms) + "}"
  }

  /** The array elements, separated by commas. */
  function StringifyItems(items: seq<Json>): string
  {
    if items == [] then ""
    else if |items| == 1 then Stringify(items[0])
    else Stringify(items[0]) + "," + StringifyItems(items[1..])
  }

  /** The object members as `"name":value`, separated by commas. */
  function StringifyMembers(ms: seq<Member>): string
  {
    if ms == [] then ""
    else if |ms| == 1 then Quote(ms[0].name) + ":" + Stringify(ms[0].value)
    else Quote(ms[0].name) + ":" + Stringify(ms[0].value) + "," + StringifyMembers(ms[1..])
  }

  function Quote(s: string): string
  {
    "\"" + Escape(s) + "\""
  }

  function Escape(s: string): string
  {
    if s == [] then "" else EscapeChar(s[0]) + Escape(s[1..])
  }

  /**
   * The string-quoting rule of `JSON.stringify`: quote and backslash are escaped, the five
   * control characters with a short escape use it, other control characters become
   * `\u00xx` with lower-case hex digits, and everything else is copied.
   */
  function EscapeChar(c: char): string
  {
    if c == '"' then "\\\""
    else if c == '\\' then "\\\\"
    else if c == 8 as char then "\\b"
    else if c == '\t' then "\\t"
    else if c == '\n' then "\\n"
    else if c == 12 as char then "\\f"
    else if c == '\r' then "\\r"
    else if c < ' ' then "\\u00" + [DigitChar(c as int / 16), DigitChar(c as int % 16)]
    else [c]
  }

  // ---------------------------------------------------------------------------------------
  // Deserialisation of stored text
  // ---------------------------------------------------------------------------------------

  /** What the Upstash client's `get` hands back for a stored text. */
  function Deserialize(text: string): Json
  {
    match ParseValue(text)
    case Some((j, rest)) => if rest == [] then j else JStr(text)
    case None => JStr(text)
  }

  /** Reads one JSON value from the front of `s`, returning it and the unread rest. */
  function ParseValue(s: string): (r: Option<(Json, string)>)
    ensures r.Some? ==> |r.value.1| < |s|
    decreases |s|, 0
  {
    if s == [] then None
    else if s[0] == 'n' then ParseWord(s, "null", JNull)
    else if s[0] == 't' then ParseWord(s, "true", JBool(true))
    else if s[0] == 'f' then ParseWord(s, "false", JBool(false))
    else if s[0] == '"' then ParseString(s[1..])
    else if s[0] == '[' then ParseArray(s[1..])
    else if s[0] == '{' then ParseObject(s[1..])
    else ParseNumber(s)
  }

  function ParseWord(s: string, word: string, v: Json): (r: Option<(Json, string)>)
    requires word != []
    ensures r.Some? ==> |r.value.1| < |s|
  {
    if word <= s then Some((v, s[|word|..])) else None
  }

  /** Reads a string literal after its opening quote. */
  function ParseString(s: string): (r: Option<(Json, string)>)
    ensures r.Some? ==> |r.value.1| < |s|
    ensures r.Some? ==> r.value.0.JStr?
  {
    match ParseStringBody(s)
    case Some((t, rest)) => Some((JStr(t), rest))
    case None => None
  }

  /** Reads an array after its opening bracket. */
  function ParseArray(s: string): (r: Option<(Json, string)>)
    ensures r.Some? ==> |r.value.1| < |s|
    ensures r.Some? ==> r.value.0.JArr?
    decreases |s|, 2
  {
    if s != [] && s[0] == ']' then Some((JArr([]), s[1..]))
    else
      match ParseItems(s)
      case Some((items, rest)) => Some((JArr(items), rest))
      case None => None
  }

  /** Reads an object after its opening brace. */
  function ParseObject(s: string): (r: Option<(Json, string)>)
    ensures r.Some? ==> |r.value.1| < |s|
    ensures r.Some? ==> r.value.0.JObj?
    decreases |s|, 2
  {
    if s != [] && s[0] == '}' then Some((JObj([]), s[1..]))
    else
      match ParseMembers(s)
      case Some((ms, rest)) => Some((JObj(ms), rest))
      case None => None
  }

  /** Reads `value(,value)*]`: the elements of a non-empty array and its closing bracket. */
  function ParseItems(s: string): (r: Option<(seq<Json>, string)>)
    ensures r.Some? ==> |r.value.1| < |s|
    decreases |s|, 1
  {
    match ParseValue(s)
    case None => None
    case Some((v, rest)) =>
      if rest == [] then None
      else if rest[0] == ',' then
        match ParseItems(rest[1..])
        case Some((vs, rest')) => Some(([v] + vs, rest'))
        case None => None
      else if rest[0] == ']' then Some(([v], rest[1..]))
      else None
  }

  /** Reads `"name":value(,"name":value)*}`: the members of a non-empty object and its closing brace. */
  function ParseMembers(s: string): (r: Option<(seq<Member>, string)>)
    ensures r.Some? ==> |r.value.1| < |s|
    decreases |s|, 1
  {
    if s == [] || s[0] != '"' then None
    else
      match ParseStringBody(s[1..])
      case None => None
      case Some((name, rest)) =>
        if rest == [] || rest[0] != ':' then None
        else ParseMemberValue(name, rest[1..])
  }

  /** Reads the value of member `name` and what follows it: more members, or the closing brace. */
  function ParseMemberValue(name: string, s: string): (r: Option<(seq<Member>, string)>)
    ensures r.Some? ==> |r.value.1| < |s|
    decreases |s|, 1
  {
    match ParseValue(s)
    case None => None
    case Some((v, rest)) =>
      if rest == [] then None
      else if rest[0] == ',' then
        match ParseMembers(rest[1..])
        case Some((ms, rest')) => Some(([Member(name, v)] + ms, rest'))
        case None => None
      else if rest[0] == '}' then Some(([Member(name, v)], rest[1..]))
      else None
  }

  /** Reads the characters of a string literal after its opening quote, up to and including the closing quote. */
  function ParseStringBody(s: string): (r: Option<(string, string)>)
    ensures r.Some? ==> |r.value.1| < |s|
    decreases |s|
  {
    if s == [] then None
    else if s[0] == '"' then Some(([], s[1..]))
    else if s[0] == '\\' then
      match ParseEscape(s[1..])
      case None => None
      case Some((c, rest)) =>
        match ParseStringBody(rest)
        case Some((t, rest')) => Some(([c] + t, rest'))
        case None => None
    else if s[0] < ' ' then None
    else
      match ParseStringBody(s[1..])
      case Some((t, rest)) => Some(([s[0]] + t, rest))
      case None => None
  }

  function HexValue(c: char): Option<nat>
  {
    if 'A' <= c <= 'F' then Some(c as int - 'A' as int + 10)
    else if IsDigit(c, 16) then DigitValue(c)
    else None
  }

  /** Reads the escape sequence after a backslash. */
  function ParseEscape(s: string): (r: Option<(char, string)>)
    ensures r.Some? ==> |r.value.1| < |s|
  {
    if s == [] then None
    else if s[0] == '"' then Some(('"', s[1..]))
    else if s[0] == '\\' then Some(('\\', s[1..]))
    else if s[0] == '/' then Some(('/', s[1..]))
    else if s[0] == 'b' then Some((8 as char, s[1..]))
    else if s[0] == 'f' then Some((12 as char, s[1..]))
    else if s[0] == 'n' then Some(('\n', s[1..]))
    else if s[0] == 'r' then Some(('\r', s[1..]))
    else if s[0] == 't' then Some(('\t', s[1..]))
    else if s[0] == 'u' && |s| >= 5
      && HexValue(s[1]).Some? && HexValue(s[2]).Some? && HexValue(s[3]).Some? && HexValue(s[4]).Some?
    then
      var code := HexValue(s[1]).value * 4096 + HexValue(s[2]).value * 256
        + HexValue(s[3]).value * 16 + HexValue(s[4]).value;
      if code < 0xD800 || 0xE000 <= code then Some((code as char, s[5..])) else None
    else None
  }

  /** The length of the run of decimal digits at the front of `s`. */
  function DigitRun(s: string): (n: nat)
    ensures n <= |s| && AllDigits(s[..n], 10)
    ensures n < |s| ==> !IsDigit(s[n], 10)
  {
    if s == [] || !IsDigit(s[0], 10) then 0
    else
      var n := 1 + DigitRun(s[1..]);
      assert s[..n] == [s[0]] + s[1..][..n - 1];
      n
  }

  /** Reads an integer without leading zeros, optionally negative. */
  function ParseNumber(s: string): (r: Option<(Json, string)>)
    ensures r.Some? ==> |r.value.1| < |s|
  {
    if |s| > 0 && s[0] == '-' then
      var d := DigitRun(s[1..]);
      if d == 0 || (d > 1 && s[1] == '0') then None
      else Some((JNum(0 - DigitsValue(s[1..][..d], 10)), s[1..][d..]))
    else
      var d := DigitRun(s);
      if d == 0 || (d > 1 && s[0] == '0') then None
      else Some((JNum(DigitsValue(s[..d], 10)), s[d..]))
  }

  // ---------------------------------------------------------------------------------------
  // Round trip
  // ---------------------------------------------------------------------------------------

  /** What may follow a value inside serialised text: the end, a comma or a closing bracket. */
  predicate Delimited(rest: string)
  {
    rest == [] || rest[0] == ',' || rest[0] == ']' || rest[0] == '}'
  }

  /** A value written by `JSON.stringify` and read back by the client is the value itself. */
  lemma DeserializeStringify(j: Json)
    ensures Deserialize(Stringify(j)) == j
  {
    ValueRoundTrip(j, []);
    assert Stringify(j) + [] == Stringify(j);
  }

  /** The only stored text the client hands back as `null` is the text `null` itself. */
  lemma DeserializeNull(text: string)
    ensures Deserialize(text) == JNull <==> text == "null"
  {
    if text == "null" {
      assert ParseValue(text) == Some((JNull, []));
    }
    if Deserialize(text) == JNull {
      var r := ParseValue(text);
      assert r.Some? && r.value.0 == JNull && r.value.1 == [];
      assert text[0] == 'n';
      assert "null" <= text && text[4..] == [];
      assert text == text[..4] + text[4..];
    }
  }

  lemma {:induction false} ValueRoundTrip(j: Json, rest: string)
    requires Delimited(rest)
    ensures ParseValue(Stringify(j) + rest) == Some((j, rest))
    decreases j, 2
  {
    match j
    case JNull => LiteralRoundTrip(j, rest);
    case JBool(_) => LiteralRoundTrip(j, rest);
    case JNum(n) => NumberRoundTrip(n, rest);
    case JStr(t) => StringRoundTrip(t, rest);
    case JArr(items) => ArrayRoundTrip(items, rest);
    case JObj(ms) => ObjectRoundTrip(ms, rest);
  }

  lemma LiteralRoundTrip(j: Json, rest: string)
    requires j.JNull? || j.JBool?
    ensures ParseValue(Stringify(j) + rest) == Some((j, rest))
  {
    var s := Stringify(j) + rest;
    assert Stringify(j) <= s && s[|Stringify(j)|..] == rest;
  }

  lemma StringRoundTrip(t: string, rest: string)
    ensures ParseValue(Stringify(JStr(t)) + rest) == Some((JStr(t), rest))
  {
    var s := Stringify(JStr(t)) + rest;
    assert s == "\"" + (Escape(t) + "\"" + rest);
    StringBodyRoundTrip(t, rest);
    assert ParseString(s[1..]) == Some((JStr(t), rest));
  }

  lemma {:induction false} ArrayRoundTrip(items: seq<Json>, rest: string)
    requires Delimited(rest)
    ensures ParseValue(Stringify(JArr(items)) + rest) == Some((JArr(items), rest))
    decreases items, 1
  {
    var inner := StringifyItems(items) + "]" + rest;
    var s := "[" + inner;
    Enclosed("[", StringifyItems(items), "]", rest);
    assert Stringify(JArr(items)) + rest == s;
    assert s[0] == '[' && s[1..] == inner;
    assert ParseValue(s) == ParseArray(inner);
    if items == [] {
      assert inner == "]" + rest && inner[1..] == rest;
      assert ParseArray(inner) == Some((JArr(items), rest));
    } else {
      StringifyStart(items[0]);
      var after := ItemsSplit(items, rest);
      assert inner[0] == Stringify(items[0])[0] && inner[0] != ']';
      ItemsRoundTrip(items, rest);
      assert ParseArray(inner) == Some((JArr(items), rest));
    }
  }

  lemma {:induction false} ObjectRoundTrip(ms: seq<Member>, rest: string)
    requires Delimited(rest)
    ensures ParseValue(Stringify(JObj(ms)) + rest) == Some((JObj(ms), rest))
    decreases ms, 2
  {
    var inner := StringifyMembers(ms) + "}" + rest;
    var s := "{" + inner;
    Enclosed("{", StringifyMembers(ms), "}", rest);
    assert Stringify(JObj(ms)) + rest == s;
    assert s[0] == '{' && s[1..] == inner;
    assert ParseValue(s) == ParseObject(inner);
    if ms == [] {
      assert inner == "}" + rest && inner[1..] == rest;
      assert ParseObject(inner) == Some((JObj(ms), rest));
    } else {
      MembersSplit(ms, rest);
      assert inner[0] == '"';
      MembersRoundTrip(ms, rest);
      assert ParseObject(inner) == Some((JObj(ms), rest));
    }
  }

  /** Regrouping a bracketed text followed by more text. */
  lemma Enclosed(open: string, body: string, close: string, rest: string)
    ensures open + body + close + rest == open + (body + close + rest)
  {
    Assoc(open + body, close, rest);
    Assoc(open, body, close + rest);
    Assoc(body, close, rest);
  }

  lemma {:induction false} ItemsRoundTrip(items: seq<Json>, rest: string)
    requires items != []
    ensures ParseItems(StringifyItems(items) + "]" + rest) == Some((items, rest))
    decreases items, 0
  {
    var s := StringifyItems(items) + "]" + rest;
    var after := ItemsSplit(items, rest);
    ValueRoundTrip(items[0], after);
    assert ParseValue(s) == Some((items[0], after));
    if |items| == 1 {
      assert after[0] == ']' && after[1..] == rest;
      assert ParseItems(s) == Some(([items[0]], rest));
      assert [items[0]] == items;
    } else {
      var tail := StringifyItems(items[1..]) + "]" + rest;
      assert after[0] == ',' && after[1..] == tail;
      ItemsRoundTrip(items[1..], rest);
      assert ParseItems(tail) == Some((items[1..], rest));
      assert ParseItems(s) == Some(([items[0]] + items[1..], rest));
      assert [items[0]] + items[1..] == items;
    }
  }

  /** The first item's text, then the text that follows it: `]` and the rest, or a comma and the other items. */
  lemma ItemsSplit(items: seq<Json>, rest: string) returns (after: string)
    requires items != []
    ensures after == if |items| == 1 then "]" + rest else "," + (StringifyItems(items[1..]) + "]" + rest)
    ensures StringifyItems(items) + "]" + rest == Stringify(items[0]) + after
  {
    var v := Stringify(items[0]);
    if |items| == 1 {
      after := "]" + rest;
      Assoc(v, "]", rest);
    } else {
      var more := StringifyItems(items[1..]);
      after := "," + (more + "]" + rest);
      calc {
        v + "," + more + "]" + rest;
        { Assoc(v + "," + more, "]", rest); }
        v + "," + more + ("]" + rest);
        { Assoc(v + ",", more, "]" + rest); }
        v + "," + (more + ("]" + rest));
        { Assoc(v, ",", more + ("]" + rest)); }
        v + ("," + (more + ("]" + rest)));
        { Assoc(more, "]", rest); }
        v + after;
      }
    }
  }

  lemma {:induction false} MembersRoundTrip(ms: seq<Member>, rest: string)
    requires ms != []
    ensures ParseMembers(StringifyMembers(ms) + "}" + rest) == Some((ms, rest))
    decreases ms, 1
  {
    var m := ms[0];
    var after := MembersTail(ms, rest);
    var colon := ":" + (Stringify(m.value) + after);
    var body := Escape(m.name) + "\"" + colon;
    MembersSplit(ms, rest);
    assert StringifyMembers(ms) + "}" + rest == "\"" + body;
    StringBodyRoundTrip(m.name, colon);
    assert ParseStringBody(body) == Some((m.name, colon));
    MemberValueRoundTrip(ms, rest);
    assert ParseMemberValue(m.name, colon[1..]) == Some((ms, rest));
  }

  /** What follows the first member's value: the closing brace, or a comma and the other members. */
  function MembersTail(ms: seq<Member>, rest: string): string
    requires ms != []
  {
    if |ms| == 1 then "}" + rest else "," + (StringifyMembers(ms[1..]) + "}" + rest)
  }

  lemma MembersSplit(ms: seq<Member>, rest: string)
    requires ms != []
    ensures StringifyMembers(ms) + "}" + rest
      == "\"" + (Escape(ms[0].name) + "\"" + (":" + (Stringify(ms[0].value) + MembersTail(ms, rest))))
  {
    var q, e, v := "\"", Escape(ms[0].name), Stringify(ms[0].value);
    var more := if |ms| == 1 then "" else "," + StringifyMembers(ms[1..]);
    MembersHead(ms);
    assert StringifyMembers(ms) == q + e + q + ":" + v + more;
    Regroup(q, e, v, more, rest);
    if |ms| == 1 {
      assert more + "}" + rest == "}" + rest;
    } else {
      Enclosed(",", StringifyMembers(ms[1..]), "}", rest);
    }
    assert more + "}" + rest == MembersTail(ms, rest);
  }

  /** The first member's text, then the text of the others. */
  lemma MembersHead(ms: seq<Member>)
    requires ms != []
    ensures StringifyMembers(ms) == "\"" + Escape(ms[0].name) + "\"" + ":" + Stringify(ms[0].value)
      + (if |ms| == 1 then "" else "," + StringifyMembers(ms[1..]))
  {
    var head := Quote(ms[0].name) + ":" + Stringify(ms[0].value);
    assert Quote(ms[0].name) == "\"" + Escape(ms[0].name) + "\"";
    if |ms| == 1 {
      assert head + "" == head;
    } else {
      Assoc(head, ",", StringifyMembers(ms[1..]));
    }
  }

  /** The regrouping `MembersSplit` needs, over plain strings so that nothing else unfolds. */
  lemma Regroup(q: string, e: string, v: string, more: string, rest: string)
    ensures q + e + q + ":" + v + more + "}" + rest == q + (e + q + (":" + (v + (more + "}" + rest))))
  {
    var p := q + e + q + ":" + v;
    calc {
      (p + more) + "}" + rest;
      { Assoc(p, more, "}"); }
      (p + (more + "}")) + rest;
      { Assoc(p, more + "}", rest); }
      p + (more + "}" + rest);
    }
    var after := more + "}" + rest;
    calc {
      p + after;
      { Assoc(q + e + q + ":", v, after); }
      q + e + q + ":" + (v + after);
      { Assoc(q + e + q, ":", v + after); }
      q + e + q + (":" + (v + after));
      { Assoc(q + e, q, ":" + (v + after)); }
      q + e + (q + (":" + (v + after)));
      { Assoc(q, e, q + (":" + (v + after))); }
      q + (e + (q + (":" + (v + after))));
      { Assoc(e, q, ":" + (v + after)); }
      q + (e + q + (":" + (v + after)));
    }
  }

  lemma Assoc(a: string, b: string, c: string)
    ensures a + b + c == a + (b + c)
  {
  }

  lemma {:induction false} MemberValueRoundTrip(ms: seq<Member>, rest: string)
    requires ms != []
    ensures ParseMemberValue(ms[0].name, Stringify(ms[0].value) + MembersTail(ms, rest)) == Some((ms, rest))
    decreases ms, 0
  {
    var m := ms[0];
    var after := MembersTail(ms, rest);
    assert m.value < m;
    assert Delimited(after);
    ValueRoundTrip(m.value, after);
    if |ms| == 1 {
      LastMemberValue(ms, rest);
    } else {
      MembersRoundTrip(ms[1..], rest);
      MoreMemberValues(ms, rest);
    }
  }

  /** The last member's value is followed by the closing brace. */
  lemma LastMemberValue(ms: seq<Member>, rest: string)
    requires |ms| == 1
    requires ParseValue(Stringify(ms[0].value) + MembersTail(ms, rest)) == Some((ms[0].value, MembersTail(ms, rest)))
    ensures ParseMemberValue(ms[0].name, Stringify(ms[0].value) + MembersTail(ms, rest)) == Some((ms, rest))
  {
    var after := MembersTail(ms, rest);
    assert after[0] == '}' && after[1..] == rest;
    assert [Member(ms[0].name, ms[0].value)] == ms;
  }

  /** A member's value followed by a comma and the other members. */
  lemma MoreMemberValues(ms: seq<Member>, rest: string)
    requires |ms| > 1
    requires ParseValue(Stringify(ms[0].value) + MembersTail(ms, rest)) == Some((ms[0].value, MembersTail(ms, rest)))
    requires ParseMembers(StringifyMembers(ms[1..]) + "}" + rest) == Some((ms[1..], rest))
    ensures ParseMemberValue(ms[0].name, Stringify(ms[0].value) + MembersTail(ms, rest)) == Some((ms, rest))
  {
    var after := MembersTail(ms, rest);
    assert after[0] == ',' && after[1..] == StringifyMembers(ms[1..]) + "}" + rest;
    assert [Member(ms[0].name, ms[0].value)] + ms[1..] == ms;
  }

  /** Every serialised value is non-empty and does not start with a delimiter. */
  lemma StringifyStart(j: Json)
    ensures |Stringify(j)| > 0 && !Delimited(Stringify(j))
  {
    if j.JNum? && j.n >= 0 {
      var digits := Radix(j.n, 10);
      assert Stringify(j) == digits;
      assert IsDigit(digits[0], 10);
    }
  }

  lemma NumberRoundTrip(n: int, rest: string)
    requires Delimited(rest)
    ensures ParseValue(IntToDecimal(n) + rest) == Some((JNum(n), rest))
  {
    if n < 0 {
      assert IntToDecimal(n) == "-" + Radix(-n, 10);
      ParseNegative(-n, rest);
    } else {
      assert IntToDecimal(n) == Radix(n, 10);
      ParseNatural(n, rest);
    }
  }

  lemma ParseNegative(m: nat, rest: string)
    requires m > 0 && Delimited(rest)
    ensures ParseValue("-" + Radix(m, 10) + rest) == Some((JNum(0 - m), rest))
  {
    var digits := Radix(m, 10);
    var s := "-" + digits + rest;
    assert s[0] == '-' && s[1..] == digits + rest;
    DigitsThenRest(digits, rest);
    RadixRoundTrip(m, 10);
    assert ParseNumber(s) == Some((JNum(0 - m), rest));
  }

  lemma ParseNatural(n: nat, rest: string)
    requires Delimited(rest)
    ensures ParseValue(Radix(n, 10) + rest) == Some((JNum(n), rest))
  {
    var digits := Radix(n, 10);
    var s := digits + rest;
    DigitsThenRest(digits, rest);
    assert '0' <= s[0] <= '9';
    RadixRoundTrip(n, 10);
    assert ParseNumber(s) == Some((JNum(n), rest));
  }

  /** A run of digits followed by a delimiter splits back into the digits and the rest. */
  lemma DigitsThenRest(digits: string, rest: string)
    requires 1 <= |digits| && AllDigits(digits, 10) && Delimited(rest)
    ensures DigitRun(digits + rest) == |digits|
    ensures (digits + rest)[..|digits|] == digits && (digits + rest)[|digits|..] == rest
    ensures (digits + rest)[0] == digits[0] && IsDigit(digits[0], 10)
  {
    DigitRunOf(digits, rest);
  }

  lemma {:induction false} DigitRunOf(digits: string, rest: string)
    requires AllDigits(digits, 10)
    requires rest == [] || !IsDigit(rest[0], 10)
    ensures DigitRun(digits + rest) == |digits|
  {
    if digits != [] {
      assert (digits + rest)[1..] == digits[1..] + rest;
      DigitRunOf(digits[1..], rest);
    } else {
      assert digits + rest == rest;
    }
  }

  lemma {:induction false} StringBodyRoundTrip(t: string, rest: string)
    ensures ParseStringBody(Escape(t) + "\"" + rest) == Some((t, rest))
    decreases |t|
  {
    if t == [] {
      assert Escape(t) + "\"" + rest == "\"" + rest;
      assert ("\"" + rest)[1..] == rest;
    } else {
      var tail := Escape(t[1..]) + "\"" + rest;
      StringBodyRoundTrip(t[1..], rest);
      EscapeHead(t, rest);
      EscapeCharRoundTrip(t[0], tail);
      assert [t[0]] + t[1..] == t;
    }
  }

  lemma EscapeHead(t: string, rest: string)
    requires t != []
    ensures Escape(t) + "\"" + rest == EscapeChar(t[0]) + (Escape(t[1..]) + "\"" + rest)
  {
    var e, more := EscapeChar(t[0]), Escape(t[1..]);
    assert Escape(t) == e + more;
    Assoc(e, more, "\"");
    Assoc(e, more + "\"", rest);
  }

  /** Parsing an escaped character in front of more string text yields the character in front of what that text yields. */
  lemma EscapeCharRoundTrip(c: char, tail: string)
    requires ParseStringBody(tail).Some?
    ensures ParseStringBody(EscapeChar(c) + tail)
         == Some(([c] + ParseStringBody(tail).value.0, ParseStringBody(tail).value.1))
  {
    var s := EscapeChar(c) + tail;
    if c == '"' || c == '\\' || c == 8 as char || c == '\t' || c == '\n' || c == 12 as char || c == '\r' {
      ShortEscapeRoundTrip(c, tail);
    } else if c < ' ' {
      UnicodeEscapeRoundTrip(c, tail);
    } else {
      assert s[0] == c && s[1..] == tail;
    }
  }

  lemma ShortEscapeRoundTrip(c: char, tail: string)
    requires c == '"' || c == '\\' || c == 8 as char || c == '\t' || c == '\n' || c == 12 as char || c == '\r'
    ensures ParseEscape(EscapeChar(c)[1..] + tail) == Some((c, tail))
    ensures EscapeChar(c) + tail == "\\" + (EscapeChar(c)[1..] + tail)
  {
    assert |EscapeChar(c)| == 2 && EscapeChar(c)[0] == '\\';
    assert (EscapeChar(c)[1..] + tail)[1..] == tail;
  }

  lemma UnicodeEscapeRoundTrip(c: char, tail: string)
    requires c < ' ' && c != 8 as char && c != '\t' && c != '\n' && c != 12 as char && c != '\r'
    ensures ParseEscape(EscapeChar(c)[1..] + tail) == Some((c, tail))
    ensures EscapeChar(c) + tail == "\\" + (EscapeChar(c)[1..] + tail)
  {
    var hi, lo := c as int / 16, c as int % 16;
    var e := EscapeChar(c)[1..] + tail;
    assert EscapeChar(c) == "\\u00" + [DigitChar(hi), DigitChar(lo)];
    assert e[..5] == ['u', '0', '0', DigitChar(hi), DigitChar(lo)];
    assert e[5..] == tail;
    assert HexValue(DigitChar(hi)) == Some(hi);
    assert HexValue(DigitChar(lo)) == Some(lo);
  }
}

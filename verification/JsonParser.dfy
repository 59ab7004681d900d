/** A parser for compact JSON text (sections 4 to 7 of RFC 8259, without whitespace), the
    inverse that makes the canonical printer of src/dedup.rs unambiguous. */
module JsonParser {
  import opened Wrappers
  import opened JsonValues
  import opened CanonicalJson

  /** A parsed value and the text after it. */
  datatype Parsed<T> = Failed | Parsed(value: T, rest: string)

  function HexValue(c: char): Option<nat> {
    if '0' <= c <= '9' then Some(c as int - '0' as int)
    else if 'a' <= c <= 'f' then Some(c as int - 'a' as int + 10)
    else if 'A' <= c <= 'F' then Some(c as int - 'A' as int + 10)
    else None
  }

  /** The character that a short escape stands for. */
  function ShortEscape(c: char): Option<char> {
    if c == '\"' || c == '\\' || c == '/' then Some(c)
    else if c == 'n' then Some('\n')
    else if c == 'r' then Some('\r')
    else if c == 't' then Some('\t')
    else if c == 'b' then Some(8 as char)
    else if c == 'f' then Some(12 as char)
    else None
  }

  /** Four hexadecimal digits naming one character; surrogates name none. */
  function UnicodeEscape(s: string): Option<char>
    requires |s| >= 4
  {
    var a, b, c, d := HexValue(s[0]), HexValue(s[1]), HexValue(s[2]), HexValue(s[3]);
    if a.None? || b.None? || c.None? || d.None? then None
    else
      var n := ((a.value * 16 + b.value) * 16 + c.value) * 16 + d.value;
      if n < 0xD800 || 0xE000 <= n < 0x10000 then Some(n as char) else None
  }

  function Prepend(c: char, r: Parsed<string>): Parsed<string> {
    match r
    case Failed => Failed
    case Parsed(text, rest) => Parsed([c] + text, rest)
  }

  /** A string after its opening quote, up to and including the closing one. */
  function ParseText(s: string): (r: Parsed<string>)
    ensures r.Parsed? ==> |r.rest| < |s|
  {
    if s == [] then Failed
    else if s[0] == '\"' then Parsed("", s[1..])
    else if s[0] == '\\' then
      if |s| < 2 then Failed
      else if ShortEscape(s[1]).Some? then Prepend(ShortEscape(s[1]).value, ParseText(s[2..]))
      else if s[1] != 'u' || |s| < 6 || UnicodeEscape(s[2..6]).None? then Failed
      else Prepend(UnicodeEscape(s[2..6]).value, ParseText(s[6..]))
    else if s[0] as int < 32 then Failed
    else Prepend(s[0], ParseText(s[1..]))
  }

  /** The longest prefix of number characters. */
  function NumberPrefix(s: string): (t: string)
    ensures |t| <= |s|
    ensures s != [] && NumberChar(s[0]) ==> t != []
  {
    if s == [] || !NumberChar(s[0]) then [] else [s[0]] + NumberPrefix(s[1..])
  }

  function ParseValue(s: string): (r: Parsed<Json>)
    ensures r.Parsed? ==> |r.rest| < |s|
    decreases |s|, 0
  {
    if s == [] then Failed
    else if s[0] == 'n' then (if "null" <= s then Parsed(Null, s[4..]) else Failed)
    else if s[0] == 't' then (if "true" <= s then Parsed(Bool(true), s[4..]) else Failed)
    else if s[0] == 'f' then (if "false" <= s then Parsed(Bool(false), s[5..]) else Failed)
    else if s[0] == '\"' then
      match ParseText(s[1..])
      case Failed => Failed
      case Parsed(text, rest) => Parsed(Str(text), rest)
    else if s[0] == '[' then
      if |s| >= 2 && s[1] == ']' then Parsed(Array([]), s[2..])
      else
        match ParseItems(s[1..])
        case Failed => Failed
        case Parsed(items, rest) => Parsed(Array(items), rest)
    else if s[0] == '{' then
      if |s| >= 2 && s[1] == '}' then Parsed(Object([]), s[2..])
      else
        match ParseMembers(s[1..])
        case Failed => Failed
        case Parsed(members, rest) => Parsed(Object(members), rest)
    else if s[0] == '-' || '0' <= s[0] <= '9' then
      Parsed(Number(NumberPrefix(s)), s[|NumberPrefix(s)|..])
    else Failed
  }

  /** One or more items and the closing bracket. */
  function ParseItems(s: string): (r: Parsed<seq<Json>>)
    ensures r.Parsed? ==> |r.rest| < |s|
    decreases |s|, 1
  {
    match ParseValue(s)
    case Failed => Failed
    case Parsed(v, rest) =>
      if rest == [] then Failed
      else if rest[0] == ']' then Parsed([v], rest[1..])
      else if rest[0] != ',' then Failed
      else
        match ParseItems(rest[1..])
        case Failed => Failed
        case Parsed(items, end) => Parsed([v] + items, end)
  }

  function ParseMember(s: string): (r: Parsed<Member>)
    ensures r.Parsed? ==> |r.rest| < |s|
    decreases |s|, 1
  {
    if s == [] || s[0] != '\"' then Failed
    else
      match ParseText(s[1..])
      case Failed => Failed
      case Parsed(key, rest) =>
        if rest == [] || rest[0] != ':' then Failed
        else
          match ParseValue(rest[1..])
          case Failed => Failed
          case Parsed(v, end) => Parsed(Member(key, v), end)
  }

  /** One or more members and the closing brace. */
  function ParseMembers(s: string): (r: Parsed<seq<Member>>)
    ensures r.Parsed? ==> |r.rest| < |s|
    decreases |s|, 2
  {
    match ParseMember(s)
    case Failed => Failed
    case Parsed(m, rest) =>
      if rest == [] then Failed
      else if rest[0] == '}' then Parsed([m], rest[1..])
      else if rest[0] != ',' then Failed
      else
        match ParseMembers(rest[1..])
        case Failed => Failed
        case Parsed(members, end) => Parsed([m] + members, end)
  }

  // ---------------------------------------------------------------- printing, then parsing

  lemma DecodeShort(e: char, c: char, rest: string)
    requires ShortEscape(e) == Some(c)
    ensures ParseText("\\" + [e] + rest) == Prepend(c, ParseText(rest))
  {
  }

  lemma DecodeControl(n: nat, rest: string)
    requires n < 32
    ensures ParseText("\\u00" + [HexDigit(n / 16), HexDigit(n % 16)] + rest) == Prepend(n as char, ParseText(rest))
  {
    hide HexDigit, HexValue;
    var s := "\\u00" + [HexDigit(n / 16), HexDigit(n % 16)] + rest;
    assert s[0] == '\\' && s[1] == 'u' && s[6..] == rest;
    assert s[2..6] == ['0', '0', HexDigit(n / 16), HexDigit(n % 16)];
    ControlEscape(n);
  }

  lemma ControlEscape(n: nat)
    requires n < 32
    ensures UnicodeEscape(['0', '0', HexDigit(n / 16), HexDigit(n % 16)]) == Some(n as char)
  {
    HexRoundTrip(n / 16);
    HexRoundTrip(n % 16);
  }

  lemma DecodeChar(c: char, rest: string)
    ensures ParseText(EscapeChar(c) + rest) == Prepend(c, ParseText(rest))
  {
    hide UnicodeEscape, HexDigit;
    var e := EscapeChar(c);
    if |e| == 2 {
      DecodeShort(e[1], c, rest);
      assert e == "\\" + [e[1]];
    } else if |e| == 6 {
      DecodeControl(c as int, rest);
      assert (c as int) as char == c;
    } else {
      assert (e + rest)[1..] == rest;
    }
  }

  lemma HexRoundTrip(n: nat)
    requires n < 16
    ensures HexValue(HexDigit(n)) == Some(n)
  {
  }

  lemma CloseQuote(rest: string)
    ensures ParseText("\"" + rest) == Parsed("", rest)
  {
  }

  lemma {:induction false} DecodeText(t: string, rest: string)
    ensures ParseText(Escaped(t) + "\"" + rest) == Parsed(t, rest)
  {
    hide ParseText, EscapeChar;
    if t == [] {
      CloseQuote(rest);
      assert Escaped(t) + "\"" + rest == "\"" + rest;
    } else {
      DecodeChar(t[0], Escaped(t[1..]) + "\"" + rest);
      DecodeText(t[1..], rest);
      assert Escaped(t) + "\"" + rest == EscapeChar(t[0]) + (Escaped(t[1..]) + "\"" + rest);
      assert [t[0]] + t[1..] == t;
    }
  }

  /** Nothing that could lengthen a number follows. */
  predicate Stops(rest: string) { rest == [] || !NumberChar(rest[0]) }

  lemma {:induction false} NumberRoundTrip(t: string, rest: string)
    requires Stops(rest) && forall i :: 0 <= i < |t| ==> NumberChar(t[i])
    ensures NumberPrefix(t + rest) == t
  {
    if t == [] {
      assert t + rest == rest;
    } else {
      NumberRoundTrip(t[1..], rest);
      assert (t + rest)[1..] == t[1..] + rest;
    }
  }

  // One step of the parser each, on text given as it is cut.

  lemma ArrayStep(t: string, items: seq<Json>, rest: string)
    requires t != [] && t[0] != ']' && ParseItems(t) == Parsed(items, rest)
    ensures ParseValue("[" + t) == Parsed(Array(items), rest)
  {
  }

  lemma ObjectStep(t: string, members: seq<Member>, rest: string)
    requires t != [] && t[0] != '}' && ParseMembers(t) == Parsed(members, rest)
    ensures ParseValue("{" + t) == Parsed(Object(members), rest)
  {
  }

  lemma TextStep(t: string, text: string, rest: string)
    requires ParseText(t) == Parsed(text, rest)
    ensures ParseValue("\"" + t) == Parsed(Str(text), rest)
  {
  }

  lemma LastItem(s: string, v: Json, rest: string)
    requires ParseValue(s) == Parsed(v, "]" + rest)
    ensures ParseItems(s) == Parsed([v], rest)
  {
  }

  lemma NextItem(s: string, v: Json, more: string, items: seq<Json>, rest: string)
    requires ParseValue(s) == Parsed(v, "," + more) && ParseItems(more) == Parsed(items, rest)
    ensures ParseItems(s) == Parsed([v] + items, rest)
  {
  }

  lemma MemberStep(t: string, key: string, u: string, v: Json, rest: string)
    requires ParseText(t) == Parsed(key, ":" + u) && ParseValue(u) == Parsed(v, rest)
    ensures ParseMember("\"" + t) == Parsed(Member(key, v), rest)
  {
  }

  lemma LastMember(s: string, m: Member, rest: string)
    requires ParseMember(s) == Parsed(m, "}" + rest)
    ensures ParseMembers(s) == Parsed([m], rest)
  {
  }

  lemma NextMember(s: string, m: Member, more: string, members: seq<Member>, rest: string)
    requires ParseMember(s) == Parsed(m, "," + more) && ParseMembers(more) == Parsed(members, rest)
    ensures ParseMembers(s) == Parsed([m] + members, rest)
  {
  }

  lemma NumberStep(token: string, rest: string)
    requires NumberToken(token) && Stops(rest)
    ensures ParseValue(token + rest) == Parsed(Number(token), rest)
  {
    hide NumberPrefix, ParseText, ParseItems, ParseMembers;
    NumberRoundTrip(token, rest);
    assert (token + rest)[|token|..] == rest;
    assert (token + rest)[0] == token[0];
  }

  lemma TextRoundTrip(text: string, rest: string)
    ensures ParseValue(Quoted(text) + rest) == Parsed(Str(text), rest)
  {
    hide ParseValue, ParseText, Escaped;
    DecodeText(text, rest);
    TextStep(Escaped(text) + "\"" + rest, text, rest);
    assert Quoted(text) + rest == "\"" + (Escaped(text) + "\"" + rest);
  }

  /** The values that are one token. */
  lemma TokenRoundTrip(v: Json, rest: string)
    requires WellFormed(v) && Stops(rest) && !v.Array? && !v.Object?
    ensures ParseValue(Plain(v) + rest) == Parsed(v, rest)
  {
    hide ParseText, ParseItems, ParseMembers, NumberPrefix, Quoted;
    match v {
      case Null => assert ("null" + rest)[4..] == rest;
      case Bool(b) =>
        if b { assert ("true" + rest)[4..] == rest; } else { assert ("false" + rest)[5..] == rest; }
      case Number(token) => NumberStep(token, rest);
      case Str(text) => TextRoundTrip(text, rest);
    }
  }

  /** A printed value, whatever follows it, parses to itself and leaves what follows. */
  lemma {:induction false} PlainRoundTrip(v: Json, rest: string)
    requires WellFormed(v) && Stops(rest)
    ensures ParseValue(Plain(v) + rest) == Parsed(v, rest)
    decreases v, 2
  {
    match v {
      case Array(items) => ArrayRoundTrip(items, rest);
      case Object(members) => ObjectRoundTrip(members, rest);
      case _ => TokenRoundTrip(v, rest);
    }
  }

  lemma {:induction false} ArrayRoundTrip(items: seq<Json>, rest: string)
    requires forall i :: 0 <= i < |items| ==> WellFormed(items[i])
    ensures ParseValue(Plain(Array(items)) + rest) == Parsed(Array(items), rest)
    decreases items, 1
  {
    hide ParseValue, ParseItems, PlainItems;
    if items == [] {
      EmptyArray(rest);
    } else {
      ItemsRoundTrip(items, rest);
      ItemsStart(items);
      ArrayStep(PlainItems(items) + ("]" + rest), items, rest);
      assert Plain(Array(items)) + rest == "[" + (PlainItems(items) + ("]" + rest));
    }
  }

  lemma {:induction false} ObjectRoundTrip(members: seq<Member>, rest: string)
    requires forall i :: 0 <= i < |members| ==> WellFormed(members[i].value)
    ensures ParseValue(Plain(Object(members)) + rest) == Parsed(Object(members), rest)
    decreases members, 1
  {
    hide ParseValue, ParseMembers, PlainMembers;
    if members == [] {
      EmptyObject(rest);
    } else {
      MembersRoundTrip(members, rest);
      MembersStart(members);
      ObjectStep(PlainMembers(members) + ("}" + rest), members, rest);
      assert Plain(Object(members)) + rest == "{" + (PlainMembers(members) + ("}" + rest));
    }
  }

  lemma EmptyArray(rest: string)
    ensures ParseValue(Plain(Array([])) + rest) == Parsed(Array([]), rest)
  {
  }

  lemma EmptyObject(rest: string)
    ensures ParseValue(Plain(Object([])) + rest) == Parsed(Object([]), rest)
  {
  }

  lemma ItemsStart(items: seq<Json>)
    requires items != [] && WellFormed(items[0])
    ensures PlainItems(items) != [] && PlainItems(items)[0] != ']'
  {
  }

  lemma MembersStart(members: seq<Member>)
    requires members != []
    ensures PlainMembers(members) != [] && PlainMembers(members)[0] != '}'
  {
  }

  lemma {:induction false} ItemsRoundTrip(items: seq<Json>, rest: string)
    requires items != [] && forall i :: 0 <= i < |items| ==> WellFormed(items[i])
    ensures ParseItems(PlainItems(items) + ("]" + rest)) == Parsed(items, rest)
    decreases items, 0
  {
    hide ParseValue, ParseItems, Plain;
    if |items| == 1 {
      PlainRoundTrip(items[0], "]" + rest);
      LastItem(PlainItems(items) + ("]" + rest), items[0], rest);
      assert items == [items[0]];
    } else {
      var more := PlainItems(items[1..]) + ("]" + rest);
      PlainRoundTrip(items[0], "," + more);
      ItemsRoundTrip(items[1..], rest);
      assert PlainItems(items) + ("]" + rest) == Plain(items[0]) + ("," + more);
      NextItem(PlainItems(items) + ("]" + rest), items[0], more, items[1..], rest);
      assert items == [items[0]] + items[1..];
    }
  }

  lemma {:induction false} MemberRoundTrip(m: Member, rest: string)
    requires WellFormed(m.value) && Stops(rest)
    ensures ParseMember(PlainMember(m) + rest) == Parsed(m, rest)
    decreases m, 3
  {
    hide ParseValue, ParseMember, ParseText, Plain, Escaped;
    var Member(key, value) := m;
    var u := Plain(value) + rest;
    DecodeText(key, ":" + u);
    PlainRoundTrip(value, rest);
    MemberStep(Escaped(key) + "\"" + (":" + u), key, u, value, rest);
    assert PlainMember(m) + rest == "\"" + (Escaped(key) + "\"" + (":" + u));
  }

  lemma {:induction false} MembersRoundTrip(members: seq<Member>, rest: string)
    requires members != [] && forall i :: 0 <= i < |members| ==> WellFormed(members[i].value)
    ensures ParseMembers(PlainMembers(members) + ("}" + rest)) == Parsed(members, rest)
    decreases members, 0
  {
    hide ParseMember, ParseMembers, PlainMember;
    if |members| == 1 {
      MemberRoundTrip(members[0], "}" + rest);
      LastMember(PlainMembers(members) + ("}" + rest), members[0], rest);
      assert members == [members[0]];
    } else {
      var more := PlainMembers(members[1..]) + ("}" + rest);
      MemberRoundTrip(members[0], "," + more);
      MembersRoundTrip(members[1..], rest);
      assert PlainMembers(members) + ("}" + rest) == PlainMember(members[0]) + ("," + more);
      NextMember(PlainMembers(members) + ("}" + rest), members[0], more, members[1..], rest);
      assert members == [members[0]] + members[1..];
    }
  }

  // ---------------------------------------------------------------- the theorems

  /** Parsing undoes the canonical printer, up to the order of object keys. */
  lemma CanonicalRoundTrip(v: Json)
    requires WellFormed(v)
    ensures ParseValue(Canonical(v)) == Parsed(Normal(v), "")
    ensures SameValue(v, Normal(v))
  {
    NormalWellFormed(v);
    PlainRoundTrip(Normal(v), "");
    assert Canonical(v) + "" == Canonical(v);
    NormalIsNormal(v);
    SameIsNormal(v, Normal(v));
  }

  lemma {:induction false} NormalIsNormal(v: Json)
    requires WellFormed(v)
    ensures Normal(Normal(v)) == Normal(v)
  {
    match v {
      case Array(items) =>
        forall i | 0 <= i < |items| ensures Normal(NormalItems(items)[i]) == NormalItems(items)[i] {
          NormalIsNormal(items[i]);
        }
        assert NormalItems(NormalItems(items)) == NormalItems(items);
      case Object(members) =>
        forall i | 0 <= i < |members| ensures Normal(Normal(members[i].value)) == Normal(members[i].value) {
          NormalIsNormal(members[i].value);
        }
        NormalObject(members);
      case _ =>
    }
  }

  lemma NormalObject(members: seq<Member>)
    requires UniqueKeys(members)
    requires forall i :: 0 <= i < |members| ==> Normal(Normal(members[i].value)) == Normal(members[i].value)
    ensures SortMembers(NormalMembers(SortMembers(NormalMembers(members)))) == SortMembers(NormalMembers(members))
  {
    var n := NormalMembers(members);
    NormalKeysUnique(members);
    assert NormalMembers(n) == n;
    SortCommutes(n);
    SortIsSorted(n);
    var s := SortMembers(n);
    AscendingIsUnique(s);
    SortIsSorted(s);
    AscendingUnique(SortMembers(s), s);
  }

  /** Two values print alike exactly when they are equal up to the order of object keys. */
  lemma CanonicalIsUnambiguous(a: Json, b: Json)
    requires WellFormed(a) && WellFormed(b)
    ensures Canonical(a) == Canonical(b) <==> SameValue(a, b)
  {
    SameIsNormal(a, b);
    CanonicalRoundTrip(a);
    CanonicalRoundTrip(b);
  }
}

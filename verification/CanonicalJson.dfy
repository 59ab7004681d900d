/** The canonical printer of src/dedup.rs. `Normal` sorts object keys at every level,
    `Plain` prints without sorting; the printer writes the plain text of the normal form. */
module CanonicalJson {
  import opened JsonValues

  // ---------------------------------------------------------------- key order

  /** The order of `str`: by Unicode scalar, which is also the order of the UTF-8 bytes. */
  predicate Before(a: string, b: string) {
    b != [] && (a == [] || a[0] < b[0] || (a[0] == b[0] && Before(a[1..], b[1..])))
  }

  lemma {:induction false} BeforeTotal(a: string, b: string)
    ensures a == b || Before(a, b) || Before(b, a)
    ensures !(Before(a, b) && Before(b, a)) && !Before(a, a)
  {
    if a != [] && b != [] {
      BeforeTotal(a[1..], b[1..]);
      assert a == [a[0]] + a[1..] && b == [b[0]] + b[1..];
    }
    if a != [] { BeforeTotal(a[1..], a[1..]); }
  }

  /** It is decided at the first difference, the smaller scalar first; a prefix comes before
      what extends it. */
  lemma {:induction false} BeforeMeans(a: string, b: string)
    ensures Before(a, b) <==>
      exists p: nat :: p <= |a| && p < |b| && a[..p] == b[..p] && (p == |a| || a[p] < b[p])
  {
    if Before(a, b) {
      var p := FirstDifference(a, b);
    } else if exists p: nat :: p <= |a| && p < |b| && a[..p] == b[..p] && (p == |a| || a[p] < b[p]) {
      var p: nat :| p <= |a| && p < |b| && a[..p] == b[..p] && (p == |a| || a[p] < b[p]);
      DecidedAt(a, b, p);
    }
  }

  lemma {:induction false} FirstDifference(a: string, b: string) returns (p: nat)
    requires Before(a, b)
    ensures p <= |a| && p < |b| && a[..p] == b[..p] && (p == |a| || a[p] < b[p])
  {
    if a == [] || a[0] < b[0] {
      p := 0;
    } else {
      var q := FirstDifference(a[1..], b[1..]);
      p := q + 1;
      assert a[..p] == [a[0]] + a[1..][..q] && b[..p] == [b[0]] + b[1..][..q];
    }
  }

  lemma {:induction false} DecidedAt(a: string, b: string, p: nat)
    requires p <= |a| && p < |b| && a[..p] == b[..p] && (p == |a| || a[p] < b[p])
    ensures Before(a, b)
  {
    if p > 0 {
      assert a[0] == a[..p][0] == b[..p][0] == b[0];
      assert a[1..][..p - 1] == a[..p][1..] && b[1..][..p - 1] == b[..p][1..];
      DecidedAt(a[1..], b[1..], p - 1);
    }
  }

  lemma {:induction false} BeforeTransitive(a: string, b: string, c: string)
    requires Before(a, b) && Before(b, c)
    ensures Before(a, c)
  {
    if a != [] && a[0] == b[0] == c[0] { BeforeTransitive(a[1..], b[1..], c[1..]); }
  }

  function InsertMember(m: Member, s: seq<Member>): seq<Member> {
    if s == [] || Before(m.key, s[0].key) then [m] + s else [s[0]] + InsertMember(m, s[1..])
  }

  /** Members by ascending key. */
  function SortMembers(s: seq<Member>): seq<Member> {
    if s == [] then [] else InsertMember(s[0], SortMembers(s[1..]))
  }

  ghost predicate Ascending(s: seq<Member>) {
    forall i, j :: 0 <= i < j < |s| ==> Before(s[i].key, s[j].key)
  }

  /** A map has one member per key. */
  ghost predicate UniqueKeys(s: seq<Member>) {
    forall i, j :: 0 <= i < j < |s| ==> s[i].key != s[j].key
  }

  lemma {:induction false} InsertMemberIsMember(m: Member, s: seq<Member>)
    ensures |InsertMember(m, s)| == |s| + 1
    ensures forall x :: x in InsertMember(m, s) <==> x == m || x in s
  {
    if s != [] && !Before(m.key, s[0].key) {
      InsertMemberIsMember(m, s[1..]);
      assert s == [s[0]] + s[1..];
    }
  }

  lemma {:induction false} InsertAscending(m: Member, s: seq<Member>)
    requires Ascending(s) && forall x :: x in s ==> x.key != m.key
    ensures Ascending(InsertMember(m, s))
  {
    if s != [] {
      BeforeTotal(m.key, s[0].key);
      if Before(m.key, s[0].key) {
        forall j | 0 <= j < |s| ensures Before(m.key, s[j].key) {
          if j > 0 { BeforeTransitive(m.key, s[0].key, s[j].key); }
        }
      } else {
        var t := s[1..];
        InsertAscending(m, t);
        InsertMemberIsMember(m, t);
        forall x | x in InsertMember(m, t) ensures Before(s[0].key, x.key) {
          if x != m {
            var j :| 0 <= j < |t| && t[j] == x;
            assert s[j + 1] == x;
          }
        }
      }
    }
  }

  lemma {:induction false} SortIsSorted(s: seq<Member>)
    requires UniqueKeys(s)
    ensures Ascending(SortMembers(s)) && |SortMembers(s)| == |s|
    ensures forall x :: x in SortMembers(s) <==> x in s
  {
    if s != [] {
      var t := s[1..];
      assert s == [s[0]] + t;
      SortIsSorted(t);
      InsertMemberIsMember(s[0], SortMembers(t));
      forall x | x in t ensures x.key != s[0].key {
        var j :| 0 <= j < |t| && t[j] == x;
        assert s[j + 1] == x;
      }
      InsertAscending(s[0], SortMembers(t));
    }
  }

  /** Two ascending lists of the same members are the same list. */
  lemma {:induction false} AscendingUnique(a: seq<Member>, b: seq<Member>)
    requires Ascending(a) && Ascending(b) && |a| == |b| && forall x :: x in a <==> x in b
    ensures a == b
  {
    if a != [] {
      assert a[0] in b && b[0] in a;
      var i :| 0 <= i < |b| && b[i] == a[0];
      var j :| 0 <= j < |a| && a[j] == b[0];
      assert i > 0 ==> Before(b[0].key, a[0].key);
      assert j > 0 ==> Before(a[0].key, b[0].key);
      BeforeTotal(a[0].key, b[0].key);
      assert a[0] == b[0];
      AscendingTail(a);
      AscendingTail(b);
      AscendingUnique(a[1..], b[1..]);
      assert a == [a[0]] + a[1..] && b == [b[0]] + b[1..];
    }
  }

  lemma AscendingTail(a: seq<Member>)
    requires Ascending(a) && a != []
    ensures Ascending(a[1..])
    ensures forall x :: x in a[1..] <==> x in a && x != a[0]
  {
    assert a == [a[0]] + a[1..];
    forall x | x in a[1..] ensures x != a[0] {
      var j :| 0 <= j < |a[1..]| && a[1..][j] == x;
      assert Before(a[0].key, a[j + 1].key);
      BeforeTotal(a[0].key, a[0].key);
    }
  }

  // ---------------------------------------------------------------- normal form

  function Normal(v: Json): Json {
    match v
    case Array(items) => Array(NormalItems(items))
    case Object(members) => Object(SortMembers(NormalMembers(members)))
    case _ => v
  }

  function NormalItems(items: seq<Json>): (r: seq<Json>)
    ensures |r| == |items| && forall i :: 0 <= i < |items| ==> r[i] == Normal(items[i])
  {
    if items == [] then [] else [Normal(items[0])] + NormalItems(items[1..])
  }

  function NormalMembers(members: seq<Member>): (r: seq<Member>)
    ensures |r| == |members| && forall i :: 0 <= i < |members| ==> r[i] == Member(members[i].key, Normal(members[i].value))
  {
    if members == [] then [] else [Member(members[0].key, Normal(members[0].value))] + NormalMembers(members[1..])
  }

  predicate NumberChar(c: char) {
    '0' <= c <= '9' || c == '-' || c == '+' || c == '.' || c == 'e' || c == 'E'
  }

  /** The shape every JSON number token has (section 6 of RFC 8259), as far as telling where
      it ends requires. */
  predicate NumberToken(t: string) {
    t != [] && (t[0] == '-' || '0' <= t[0] <= '9') && forall i :: 0 <= i < |t| ==> NumberChar(t[i])
  }

  /** A value as serde_json can hold it: number tokens are numbers, keys occur once. */
  ghost predicate WellFormed(v: Json) {
    match v
    case Number(token) => NumberToken(token)
    case Array(items) => forall i :: 0 <= i < |items| ==> WellFormed(items[i])
    case Object(members) => UniqueKeys(members) && forall i :: 0 <= i < |members| ==> WellFormed(members[i].value)
    case _ => true
  }

  lemma NormalKeysUnique(members: seq<Member>)
    requires UniqueKeys(members)
    ensures UniqueKeys(NormalMembers(members))
  {
  }

  lemma {:induction false} NormalWellFormed(v: Json)
    requires WellFormed(v)
    ensures WellFormed(Normal(v))
  {
    match v {
      case Array(items) =>
        forall i | 0 <= i < |items| ensures WellFormed(Normal(items[i])) { NormalWellFormed(items[i]); }
      case Object(members) =>
        var n := NormalMembers(members);
        NormalKeysUnique(members);
        SortIsSorted(n);
        var s := SortMembers(n);
        forall i | 0 <= i < |s| ensures WellFormed(s[i].value) {
          assert s[i] in n;
          var j :| 0 <= j < |n| && n[j] == s[i];
          NormalWellFormed(members[j].value);
        }
        AscendingIsUnique(s);
      case _ =>
    }
  }

  lemma AscendingIsUnique(s: seq<Member>)
    requires Ascending(s)
    ensures UniqueKeys(s)
  {
    forall i, j | 0 <= i < j < |s| ensures s[i].key != s[j].key { BeforeTotal(s[i].key, s[j].key); }
  }

  /** Sorting before or after normalising the values gives the same members. */
  lemma SortCommutes(members: seq<Member>)
    requires UniqueKeys(members)
    ensures NormalMembers(SortMembers(members)) == SortMembers(NormalMembers(members))
  {
    hide Before, Normal, SortMembers;
    var s, n := SortMembers(members), NormalMembers(members);
    SortIsSorted(members);
    NormalKeysUnique(members);
    SortIsSorted(n);
    var a, b := NormalMembers(s), SortMembers(n);
    forall x ensures x in a <==> x in b {
      if x in a {
        var i :| 0 <= i < |a| && a[i] == x;
        assert s[i] in members;
        var j :| 0 <= j < |members| && members[j] == s[i];
        assert n[j] == x;
      }
      if x in n {
        var j :| 0 <= j < |n| && n[j] == x;
        assert members[j] in s;
        var i :| 0 <= i < |s| && s[i] == members[j];
        assert a[i] == x;
      }
    }
    AscendingUnique(a, b);
  }

  // ---------------------------------------------------------------- equal up to key order

  /** The equality of JSON values as maps: order of members is ignored at every level. */
  ghost predicate SameValue(a: Json, b: Json) {
    match a
    case Array(items) =>
      b.Array? && |items| == |b.items| && forall i :: 0 <= i < |items| ==> SameValue(items[i], b.items[i])
    case Object(members) =>
      b.Object? && Matched(members, b.members)
    case _ => a == b
  }

  /** As many members, and every member of `a` has one of `b` with its key and value. */
  ghost predicate Matched(a: seq<Member>, b: seq<Member>) {
    |a| == |b| &&
    forall i :: 0 <= i < |a| ==>
      exists j :: 0 <= j < |b| && a[i].key == b[j].key && SameValue(a[i].value, b[j].value)
  }

  lemma {:induction false} SameIsNormal(a: Json, b: Json)
    requires WellFormed(a) && WellFormed(b)
    ensures SameValue(a, b) <==> Normal(a) == Normal(b)
    decreases a
  {
    match a {
      case Array(items) =>
        if b.Array? && |items| == |b.items| {
          forall i | 0 <= i < |items| ensures SameValue(items[i], b.items[i]) <==> Normal(items[i]) == Normal(b.items[i]) {
            SameIsNormal(items[i], b.items[i]);
          }
          if Normal(a) == Normal(b) {
            forall i | 0 <= i < |items| ensures SameValue(items[i], b.items[i]) {
              assert NormalItems(items)[i] == NormalItems(b.items)[i];
            }
          }
          if SameValue(a, b) { assert NormalItems(items) == NormalItems(b.items); }
        }
      case Object(members) =>
        if b.Object? {
          forall i, j | 0 <= i < |members| && 0 <= j < |b.members|
            ensures SameValue(members[i].value, b.members[j].value) <==> Normal(members[i].value) == Normal(b.members[j].value)
          {
            SameIsNormal(members[i].value, b.members[j].value);
          }
          MembersAgree(members, b.members);
        }
      case _ =>
    }
  }

  lemma MembersAgree(a: seq<Member>, b: seq<Member>)
    requires UniqueKeys(a) && UniqueKeys(b)
    requires forall i, j :: 0 <= i < |a| && 0 <= j < |b| ==>
      (SameValue(a[i].value, b[j].value) <==> Normal(a[i].value) == Normal(b[j].value))
    ensures Matched(a, b) <==> SortMembers(NormalMembers(a)) == SortMembers(NormalMembers(b))
  {
    hide Before, SameValue, Normal, SortMembers, Matched;
    NormalKeysUnique(a);
    NormalKeysUnique(b);
    if SortMembers(NormalMembers(a)) == SortMembers(NormalMembers(b)) {
      SortedImpliesMatched(a, b);
    }
    if Matched(a, b) {
      MatchedImpliesSorted(a, b);
    }
  }

  lemma SortedImpliesMatched(a: seq<Member>, b: seq<Member>)
    requires UniqueKeys(NormalMembers(a)) && UniqueKeys(NormalMembers(b))
    requires forall i, j :: 0 <= i < |a| && 0 <= j < |b| ==>
      (SameValue(a[i].value, b[j].value) <==> Normal(a[i].value) == Normal(b[j].value))
    requires SortMembers(NormalMembers(a)) == SortMembers(NormalMembers(b))
    ensures Matched(a, b)
  {
    hide Before, SameValue, Normal;
    var na, nb := NormalMembers(a), NormalMembers(b);
    SortIsSorted(na);
    SortIsSorted(nb);
    forall i | 0 <= i < |a|
      ensures exists j :: 0 <= j < |b| && a[i].key == b[j].key && SameValue(a[i].value, b[j].value)
    {
      assert na[i] in SortMembers(na) && na[i] in nb;
      var j :| 0 <= j < |nb| && nb[j] == na[i];
      assert a[i].key == b[j].key && SameValue(a[i].value, b[j].value);
    }
  }

  lemma MatchedImpliesSorted(a: seq<Member>, b: seq<Member>)
    requires UniqueKeys(NormalMembers(a)) && UniqueKeys(NormalMembers(b)) && Matched(a, b)
    requires forall i, j :: 0 <= i < |a| && 0 <= j < |b| ==>
      (SameValue(a[i].value, b[j].value) <==> Normal(a[i].value) == Normal(b[j].value))
    ensures SortMembers(NormalMembers(a)) == SortMembers(NormalMembers(b))
  {
    hide Before, SameValue, Normal;
    var na, nb := NormalMembers(a), NormalMembers(b);
    SortIsSorted(na);
    SortIsSorted(nb);
    forall x | x in na ensures x in nb {
      var i :| 0 <= i < |na| && na[i] == x;
      var j :| 0 <= j < |b| && a[i].key == b[j].key && SameValue(a[i].value, b[j].value);
      assert nb[j] == x;
    }
    SameSizeSubset(na, nb);
    AscendingUnique(SortMembers(na), SortMembers(nb));
  }

  lemma {:induction false} DistinctCount(s: seq<Member>)
    requires UniqueKeys(s)
    ensures |set x | x in s| == |s|
  {
    if s != [] {
      var t, last := s[..|s| - 1], s[|s| - 1];
      DistinctCount(t);
      assert s == t + [last];
      assert (set x | x in s) == (set x | x in t) + {last};
      assert last !in t;
    }
  }

  /** As many distinct keys, and every member of one in the other: the same members. */
  lemma SameSizeSubset(a: seq<Member>, b: seq<Member>)
    requires UniqueKeys(a) && UniqueKeys(b) && |a| == |b| && forall x :: x in a ==> x in b
    ensures forall x :: x in b ==> x in a
  {
    DistinctCount(a);
    DistinctCount(b);
    var sa, sb := set x | x in a, set x | x in b;
    assert sa <= sb;
    assert sb == sa + (sb - sa);
    assert |sb - sa| == 0;
    forall x | x in b ensures x in a { assert x in sb; }
  }

  // ---------------------------------------------------------------- text

  function HexDigit(n: nat): char
    requires n < 16
  {
    "0123456789abcdef"[n]
  }

  function EscapeChar(c: char): string {
    if c == '\"' then "\\\""
    else if c == '\\' then "\\\\"
    else if c == '\n' then "\\n"
    else if c == '\r' then "\\r"
    else if c == '\t' then "\\t"
    else if c as int == 8 then "\\b"
    else if c as int == 12 then "\\f"
    else if (c as int) < 32 then "\\u00" + [HexDigit(c as int / 16), HexDigit(c as int % 16)]
    else [c]
  }

  /** Each character is written as briefly as JSON allows: itself unless it must be escaped,
      two characters where a short escape exists, else six with lower-case digits. */
  lemma EscapeShape(c: char)
    ensures c != '\"' && c != '\\' && c as int >= 32 ==> EscapeChar(c) == [c]
    ensures c in "\"\\\n\r\t" || c as int == 8 || c as int == 12 ==> |EscapeChar(c)| == 2 && EscapeChar(c)[0] == '\\'
    ensures c as int < 32 && c !in "\n\r\t" && c as int != 8 && c as int != 12 ==>
      |EscapeChar(c)| == 6 && EscapeChar(c)[..4] == "\\u00" &&
      forall i :: 4 <= i < 6 ==> '0' <= EscapeChar(c)[i] <= '9' || 'a' <= EscapeChar(c)[i] <= 'f'
  {
  }

  function Escaped(s: string): string {
    if s == [] then [] else EscapeChar(s[0]) + Escaped(s[1..])
  }

  function Quoted(s: string): string { "\"" + Escaped(s) + "\"" }

  /** The compact text of a value, members in the order they are listed. */
  function Plain(v: Json): string {
    match v
    case Null => "null"
    case Bool(b) => if b then "true" else "false"
    case Number(token) => token
    case Str(text) => Quoted(text)
    case Array(items) => "[" + PlainItems(items) + "]"
    case Object(members) => "{" + PlainMembers(members) + "}"
  }

  function PlainItems(items: seq<Json>): string {
    if items == [] then ""
    else if |items| == 1 then Plain(items[0])
    else Plain(items[0]) + "," + PlainItems(items[1..])
  }

  function PlainMember(m: Member): string { Quoted(m.key) + ":" + Plain(m.value) }

  function PlainMembers(members: seq<Member>): string {
    if members == [] then ""
    else if |members| == 1 then PlainMember(members[0])
    else PlainMember(members[0]) + "," + PlainMembers(members[1..])
  }

  /** What `canonical_json` returns. */
  function Canonical(v: Json): string { Plain(Normal(v)) }

  /** The buffer the printer appends to. */
  class Buffer {
    var text: string

    constructor ()
      ensures text == ""
    {
      text := "";
    }

    method PushStr(s: string)
      modifies this
      ensures text == old(text) + s
    {
      text := text + s;
    }
  }

  lemma {:induction false} PlainItemsSnoc(items: seq<Json>, x: Json)
    ensures PlainItems(items + [x]) == if items == [] then Plain(x) else PlainItems(items) + "," + Plain(x)
  {
    if items == [] {
      assert items + [x] == [x];
    } else {
      PlainItemsSnoc(items[1..], x);
      assert (items + [x])[1..] == items[1..] + [x];
      assert (items + [x])[0] == items[0];
      if |items| == 1 { assert items[1..] == []; }
    }
  }

  lemma {:induction false} PlainMembersSnoc(members: seq<Member>, x: Member)
    ensures PlainMembers(members + [x]) ==
      if members == [] then PlainMember(x) else PlainMembers(members) + "," + PlainMember(x)
  {
    hide PlainMember;
    if members == [] {
      assert members + [x] == [x];
    } else {
      PlainMembersSnoc(members[1..], x);
      assert (members + [x])[1..] == members[1..] + [x];
      assert (members + [x])[0] == members[0];
      if |members| == 1 { assert members[1..] == []; }
    }
  }

  /** Appends the canonical text of `v` and touches nothing else. */
  method WriteCanonicalJson(v: Json, buf: Buffer)
    requires WellFormed(v)
    modifies buf
    ensures buf.text == old(buf.text) + Canonical(v)
    decreases v, 1
  {
    match v {
      case Object(members) => WriteObject(v, members, buf);
      case Array(items) => WriteArray(v, items, buf);
      case _ => buf.PushStr(Plain(v));
    }
  }

  method WriteObject(ghost v: Json, members: seq<Member>, buf: Buffer)
    requires WellFormed(v) && v == Object(members)
    modifies buf
    ensures buf.text == old(buf.text) + Canonical(v)
    decreases v, 0
  {
    hide Before, Quoted, SortMembers;
    var pairs := SortMembers(members);
    SortIsSorted(members);
    SortCommutes(members);
    ghost var n := NormalMembers(pairs);
    ghost var start := buf.text;
    buf.PushStr("{");
    for i := 0 to |pairs|
      invariant buf.text == start + "{" + PlainMembers(n[..i])
    {
      if i > 0 {
        buf.PushStr(",");
      }
      assert pairs[i] in members;
      ghost var j :| 0 <= j < |members| && members[j] == pairs[i];
      buf.PushStr(Quoted(pairs[i].key));
      buf.PushStr(":");
      WriteCanonicalJson(pairs[i].value, buf);
      NextMember(start + "{", n, i, buf.text);
    }
    assert n[..|pairs|] == n;
    buf.PushStr("}");
    assert buf.text == start + ("{" + PlainMembers(n) + "}");
  }

  lemma NextMember(before: string, n: seq<Member>, i: nat, text: string)
    requires i < |n|
    requires text == (if i > 0 then before + PlainMembers(n[..i]) + "," else before + PlainMembers(n[..i]))
                     + Quoted(n[i].key) + ":" + Plain(n[i].value)
    ensures text == before + PlainMembers(n[..i + 1])
  {
    assert i == 0 ==> PlainMembers(n[..i]) == "";
    hide Quoted, Plain, PlainMembers;
    PlainMembersSnoc(n[..i], n[i]);
    assert n[..i + 1] == n[..i] + [n[i]];
    var start := if i > 0 then before + PlainMembers(n[..i]) + "," else before + PlainMembers(n[..i]);
    Regroup(start, Quoted(n[i].key), ":", Plain(n[i].value));
    Regroup(before, PlainMembers(n[..i]), ",", PlainMember(n[i]));
  }

  lemma Regroup(a: string, b: string, c: string, d: string)
    ensures a + b + c + d == a + (b + c + d)
  {
  }

  method WriteArray(ghost v: Json, items: seq<Json>, buf: Buffer)
    requires WellFormed(v) && v == Array(items)
    modifies buf
    ensures buf.text == old(buf.text) + Canonical(v)
    decreases v, 0
  {
    ghost var n := NormalItems(items);
    ghost var start := buf.text;
    buf.PushStr("[");
    for i := 0 to |items|
      invariant buf.text == start + "[" + PlainItems(n[..i])
    {
      if i > 0 {
        buf.PushStr(",");
      }
      WriteCanonicalJson(items[i], buf);
      NextItem(start + "[", n, i, buf.text);
    }
    assert n[..|items|] == n;
    buf.PushStr("]");
    assert buf.text == start + ("[" + PlainItems(n) + "]");
  }

  lemma NextItem(before: string, n: seq<Json>, i: nat, text: string)
    requires i < |n|
    requires text == (if i > 0 then before + PlainItems(n[..i]) + "," else before + PlainItems(n[..i])) + Plain(n[i])
    ensures text == before + PlainItems(n[..i + 1])
  {
    PlainItemsSnoc(n[..i], n[i]);
    assert n[..i + 1] == n[..i] + [n[i]];
  }
}

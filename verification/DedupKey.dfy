/** The deduplication key of src/dedup.rs: model, FNV-1a hash of the canonical inputs, and
    a ten-second window. */
module DedupKeys {
  import opened Wrappers
  import opened JsonValues
  import opened CanonicalJson
  import opened JsonParser

  type Byte = n: nat | n < 0x100

  const FNV_OFFSET: bv64 := 14695981039346656037

  /** One byte of FNV-1a, in wrapping 64-bit arithmetic. */
  function FnvStep(h: bv64, b: Byte): bv64 { (h ^ (b as bv64)) * 1099511628211 }

  function FnvFrom(h: bv64, data: seq<Byte>): bv64 {
    if data == [] then h else FnvStep(FnvFrom(h, data[..|data| - 1]), data[|data| - 1])
  }

  function Fnv(data: seq<Byte>): bv64 { FnvFrom(FNV_OFFSET, data) }

  /** Hashing resumes: the hash of a concatenation continues from the hash of its start. */
  lemma {:induction false} FnvResumes(h: bv64, a: seq<Byte>, b: seq<Byte>)
    ensures FnvFrom(h, a + b) == FnvFrom(FnvFrom(h, a), b)
  {
    hide FnvStep;
    if b == [] {
      assert a + b == a;
    } else {
      assert (a + b)[..|a + b| - 1] == a + b[..|b| - 1];
      FnvResumes(h, a, b[..|b| - 1]);
    }
  }

  /** The published definition: start from the offset basis; exclusive-or each byte in, then
      multiply by the prime and keep the low 64 bits of the product. */
  lemma FnvDefinition(data: seq<Byte>, b: Byte)
    ensures Fnv([]) == 14695981039346656037
    ensures Fnv(data + [b]) as bv128 ==
      ((Fnv(data) ^ (b as bv64)) as bv128 * 1099511628211) & 0xFFFF_FFFF_FFFF_FFFF
  {
    StepDefinition(Fnv(data), b);
    hide FnvStep;
    assert (data + [b])[..|data|] == data;
  }

  lemma StepDefinition(h: bv64, b: Byte)
    ensures FnvStep(h, b) as bv128 == ((h ^ (b as bv64)) as bv128 * 1099511628211) & 0xFFFF_FFFF_FFFF_FFFF
  {
  }

  /** The published value for the one-byte text "a". */
  lemma FnvVector()
    ensures Fnv([0x61]) == 0xaf63_dc4c_8601_ec8c
  {
    StepVector();
    hide FnvStep;
    assert [0x61 as Byte][..0] == [];
    assert FnvFrom(FNV_OFFSET, [0x61]) == FnvStep(FNV_OFFSET, 0x61);
  }

  lemma StepVector()
    ensures FnvStep(14695981039346656037, 0x61) == 0xaf63_dc4c_8601_ec8c
  {
    assert (0x61 as Byte) as bv64 == 0x61;
  }

  method Fnv1a(data: seq<Byte>) returns (h: bv64)
    ensures h == Fnv(data)
  {
    hide FnvStep;
    h := FNV_OFFSET;
    for i := 0 to |data|
      invariant h == FnvFrom(FNV_OFFSET, data[..i])
    {
      h := FnvStep(h, data[i]);
      assert data[..i + 1][..i] == data[..i];
    }
    assert data[..|data|] == data;
  }

  /** The UTF-8 bytes of one scalar (section 3 of RFC 3629). */
  function Utf8Char(c: char): seq<Byte> {
    var n := c as int;
    if n < 0x80 then [n]
    else if n < 0x800 then [0xC0 + n / 0x40, 0x80 + n % 0x40]
    else if n < 0x10000 then [0xE0 + n / 0x1000, 0x80 + n / 0x40 % 0x40, 0x80 + n % 0x40]
    else [0xF0 + n / 0x40000, 0x80 + n / 0x1000 % 0x40, 0x80 + n / 0x40 % 0x40, 0x80 + n % 0x40]
  }

  function Utf8(s: string): seq<Byte> {
    if s == [] then [] else Utf8Char(s[0]) + Utf8(s[1..])
  }

  /** The six bits of a continuation byte. */
  function Six(b: Byte): Option<nat> { if 0x80 <= b < 0xC0 then Some(b - 0x80) else None }

  /** A character from its scalar value, unless that is a surrogate's or too large. */
  function Scalar(n: nat): Option<char> {
    if n < 0xD800 || 0xE000 <= n < 0x11_0000 then Some(n as char) else None
  }

  /** A decoder (section 3 of RFC 3629): the lead byte tells how many bytes follow, each with
      six more bits. */
  function FromUtf8(bytes: seq<Byte>): Option<string> {
    if bytes == [] then Some("")
    else
      var lead, n := bytes[0], |bytes|;
      if lead < 0x80 then Joined(Scalar(lead), FromUtf8(bytes[1..]))
      else if 0xC0 <= lead < 0xE0 && n >= 2 && Six(bytes[1]).Some? then
        Joined(Scalar((lead - 0xC0) * 0x40 + Six(bytes[1]).value), FromUtf8(bytes[2..]))
      else if 0xE0 <= lead < 0xF0 && n >= 3 && Six(bytes[1]).Some? && Six(bytes[2]).Some? then
        Joined(Scalar((lead - 0xE0) * 0x1000 + Six(bytes[1]).value * 0x40 + Six(bytes[2]).value), FromUtf8(bytes[3..]))
      else if 0xF0 <= lead < 0xF8 && n >= 4 && Six(bytes[1]).Some? && Six(bytes[2]).Some? && Six(bytes[3]).Some? then
        Joined(Scalar((lead - 0xF0) * 0x40000 + Six(bytes[1]).value * 0x1000 + Six(bytes[2]).value * 0x40 +
                      Six(bytes[3]).value),
               FromUtf8(bytes[4..]))
      else None
  }

  function Joined(c: Option<char>, s: Option<string>): Option<string> {
    if c.Some? && s.Some? then Some([c.value] + s.value) else None
  }

  lemma DivTwice(n: nat, k: nat)
    requires k == 0x40 || k == 0x1000
    ensures n / (k * 0x40) == n / k / 0x40
  {
  }

  lemma FourDigits(n: nat)
    ensures n == n / 0x40000 * 0x40000 + n / 0x1000 % 0x40 * 0x1000 + n / 0x40 % 0x40 * 0x40 + n % 0x40
    ensures n == n / 0x1000 * 0x1000 + n / 0x40 % 0x40 * 0x40 + n % 0x40
  {
    DivTwice(n, 0x40);
    DivTwice(n, 0x1000);
    var a, b, c := n / 0x40, n / 0x1000, n / 0x40000;
    assert n == a * 0x40 + n % 0x40 && a == b * 0x40 + a % 0x40 && b == c * 0x40 + b % 0x40;
  }

  lemma DecodeOneOrTwo(c: char, rest: seq<Byte>)
    requires c as int < 0x800
    ensures FromUtf8(Utf8Char(c) + rest) == Joined(Some(c), FromUtf8(rest))
  {
    var n, bytes := c as int, Utf8Char(c);
    assert (bytes + rest)[|bytes|..] == rest && Scalar(n) == Some(c);
  }

  lemma DecodeThree(c: char, rest: seq<Byte>)
    requires 0x800 <= c as int < 0x10000
    ensures FromUtf8(Utf8Char(c) + rest) == Joined(Some(c), FromUtf8(rest))
  {
    var n, bytes := c as int, Utf8Char(c);
    var a, b, d := n / 0x1000, n / 0x40 % 0x40, n % 0x40;
    FourDigits(n);
    assert bytes == [0xE0 + a, 0x80 + b, 0x80 + d] && a < 0x10;
    assert (bytes + rest)[3..] == rest && Scalar(n) == Some(c);
    assert Six(bytes[1]) == Some(b) && Six(bytes[2]) == Some(d);
  }

  lemma DecodeFour(c: char, rest: seq<Byte>)
    requires c as int >= 0x10000
    ensures FromUtf8(Utf8Char(c) + rest) == Joined(Some(c), FromUtf8(rest))
  {
    var n, bytes := c as int, Utf8Char(c);
    var a, b, d, e := n / 0x40000, n / 0x1000 % 0x40, n / 0x40 % 0x40, n % 0x40;
    FourDigits(n);
    assert bytes == [0xF0 + a, 0x80 + b, 0x80 + d, 0x80 + e] && a < 8;
    assert (bytes + rest)[4..] == rest && Scalar(n) == Some(c);
    assert Six(bytes[1]) == Some(b) && Six(bytes[2]) == Some(d) && Six(bytes[3]) == Some(e);
  }

  lemma DecodeScalar(c: char, rest: seq<Byte>)
    ensures FromUtf8(Utf8Char(c) + rest) == Joined(Some(c), FromUtf8(rest))
  {
    hide FromUtf8, Utf8Char, Joined;
    if c as int < 0x800 {
      DecodeOneOrTwo(c, rest);
    } else if c as int < 0x10000 {
      DecodeThree(c, rest);
    } else {
      DecodeFour(c, rest);
    }
  }

  /** UTF-8 is undone by the decoder, so different texts have different bytes. */
  lemma {:induction false} Utf8RoundTrip(s: string)
    ensures FromUtf8(Utf8(s)) == Some(s)
  {
    if s != [] {
      DecodeScalar(s[0], Utf8(s[1..]));
      Utf8RoundTrip(s[1..]);
      assert [s[0]] + s[1..] == s;
    }
  }

  /** The shard a key is routed to: the low four bits of its hash. */
  function ShardIndex(key: string): (i: nat)
    ensures i < 16 && i == (Fnv(Utf8(key)) % 16) as nat
  {
    LowBits(Fnv(Utf8(key)));
    ((Fnv(Utf8(key)) & 0xF) as bv4) as nat
  }

  /** The mask is a remainder. */
  lemma LowBits(h: bv64)
    ensures ((h & 0xF) as bv4) as nat == (h % 16) as nat
  {
  }

  // ---------------------------------------------------------------- the key's text

  /** `k` lower-case hexadecimal digits, most significant first. */
  function Hex(n: nat, k: nat): (s: string)
    ensures |s| == k
  {
    if k == 0 then [] else Hex(n / 16, k - 1) + [HexDigit(n % 16)]
  }

  function Decimal(n: nat): (s: string)
    ensures s != [] && forall i :: 0 <= i < |s| ==> '0' <= s[i] <= '9'
  {
    var last := ['0' + (n % 10) as char];
    if n < 10 then last else Decimal(n / 10) + last
  }

  function HashOf(inputs: Json): nat { Fnv(Utf8(Canonical(inputs))) as nat }

  /** The ten-second window a clock reading falls in. */
  function Window(unixSecs: nat): nat { unixSecs / 10 }

  function KeyText(model: string, hash: nat, window: nat): string {
    model + ":" + Hex(hash, 16) + ":" + Decimal(window)
  }

  function Pow16(k: nat): nat { if k == 0 then 1 else 16 * Pow16(k - 1) }

  lemma SixteenDigits()
    ensures Pow16(16) == 0x1_0000_0000_0000_0000
  {
    assert Pow16(4) == 0x1_0000;
    assert Pow16(8) == 0x1_0000_0000;
    assert Pow16(12) == 0x1_0000_0000_0000;
  }

  // Readers of digits, most significant first.

  function FromHex(s: string): Option<nat> {
    if s == [] then Some(0) else Append(FromHex(s[..|s| - 1]), 16, HexValue(s[|s| - 1]))
  }

  function FromDecimal(s: string): Option<nat> {
    if s == [] then Some(0) else Append(FromDecimal(s[..|s| - 1]), 10, HexValue(s[|s| - 1]))
  }

  function Append(high: Option<nat>, base: nat, low: Option<nat>): Option<nat> {
    if high.Some? && low.Some? && low.value < base then Some(base * high.value + low.value) else None
  }

  lemma HexSplit(n: nat, k: nat)
    requires k > 0 && n < Pow16(k)
    ensures n / 16 < Pow16(k - 1)
    ensures var h := Hex(n, k); h[..k - 1] == Hex(n / 16, k - 1) && HexValue(h[k - 1]) == Some(n % 16)
  {
    HexRoundTrip(n % 16);
  }

  /** Lower-case digits that read back as the number, all of them. */
  lemma {:induction false} HexReads(n: nat, k: nat)
    requires n < Pow16(k)
    ensures FromHex(Hex(n, k)) == Some(n)
  {
    if k > 0 {
      HexSplit(n, k);
      HexReads(n / 16, k - 1);
      hide Hex, HexValue, Pow16;
    }
  }

  lemma {:induction false} HexIsLowerCase(n: nat, k: nat)
    ensures forall i :: 0 <= i < k ==> '0' <= Hex(n, k)[i] <= '9' || 'a' <= Hex(n, k)[i] <= 'f'
  {
    if k > 0 { HexIsLowerCase(n / 16, k - 1); }
  }

  /** Digits that read back as the number, without leading zeros. */
  lemma {:induction false} DecimalReads(n: nat)
    ensures FromDecimal(Decimal(n)) == Some(n)
    ensures n >= 10 ==> Decimal(n)[0] != '0'
  {
    var s := Decimal(n);
    assert HexValue(s[|s| - 1]) == Some(n % 10);
    if n >= 10 {
      DecimalReads(n / 10);
      assert s[..|s| - 1] == Decimal(n / 10);
    }
  }

  /** Model, sixteen digits of the hash, and the number of whole ten-second spans, with
      colons between. */
  ghost predicate Reads(key: string, model: string, hash: nat, spans: nat) {
    exists h: string, d: string ::
      key == model + ":" + h + ":" + d && |h| == 16 && FromHex(h) == Some(hash) && FromDecimal(d) == Some(spans)
  }

  lemma KeyTextReads(model: string, hash: nat, window: nat)
    requires hash < 0x1_0000_0000_0000_0000
    ensures Reads(KeyText(model, hash, window), model, hash, window)
  {
    SixteenDigits();
    HexReads(hash, 16);
    DecimalReads(window);
    hide Hex, Decimal, FromHex, FromDecimal, Pow16;
    var h, d := Hex(hash, 16), Decimal(window);
    assert KeyText(model, hash, window) == model + ":" + h + ":" + d;
  }

  method GenerateKey(model: string, inputs: Json, unixSecs: nat) returns (key: string)
    requires WellFormed(inputs)
    ensures key == KeyText(model, HashOf(inputs), Window(unixSecs))
    ensures Reads(key, model, Fnv(Utf8(Canonical(inputs))) as nat, unixSecs / 10)
  {
    hide Reads, Hex, Decimal;
    var buf := new Buffer();
    WriteCanonicalJson(inputs, buf);
    assert buf.text == Canonical(inputs);
    var hash := Fnv1a(Utf8(buf.text));
    var epochWindow := unixSecs / 10;
    buf.text := "";
    buf.PushStr(KeyText(model, hash as nat, epochWindow));
    key := buf.text;
    KeyTextReads(model, hash as nat, epochWindow);
  }

  lemma HexInjective(a: nat, b: nat, k: nat)
    requires a < Pow16(k) && b < Pow16(k) && Hex(a, k) == Hex(b, k)
    ensures a == b
  {
    HexReads(a, k);
    HexReads(b, k);
  }

  lemma DecimalInjective(a: nat, b: nat)
    requires Decimal(a) == Decimal(b)
    ensures a == b
  {
    DecimalReads(a);
    DecimalReads(b);
  }

  /** Text after the last separator is found again. */
  lemma SplitLast(a: string, x: string, b: string, y: string)
    requires a + ":" + x == b + ":" + y
    requires forall i :: 0 <= i < |x| ==> x[i] != ':'
    requires forall i :: 0 <= i < |y| ==> y[i] != ':'
    ensures a == b && x == y
  {
    var s, t := a + ":" + x, b + ":" + y;
    assert s[|a|] == ':' && t[|b|] == ':';
    assert forall i :: |a| < i < |s| ==> s[i] == x[i - |a| - 1];
    assert forall i :: |b| < i < |t| ==> t[i] == y[i - |b| - 1];
    assert |a| == |b|;
    assert a == s[..|a|] && b == t[..|b|];
    assert x == s[|a| + 1..] && y == t[|b| + 1..];
  }

  lemma KeyTextInjective(m: string, h: nat, w: nat, m': string, h': nat, w': nat)
    requires h < Pow16(16) && h' < Pow16(16)
    requires KeyText(m, h, w) == KeyText(m', h', w')
    ensures m == m' && h == h' && w == w'
  {
    hide Hex, Decimal, Pow16;
    var a, b := m + ":" + Hex(h, 16), m' + ":" + Hex(h', 16);
    SplitLast(a, Decimal(w), b, Decimal(w'));
    DecimalInjective(w, w');
    assert |a| == |b|;
    assert m == a[..|m|] && m' == b[..|m'|];
    assert Hex(h, 16) == a[|m| + 1..] && Hex(h', 16) == b[|m'| + 1..];
    HexInjective(h, h', 16);
  }

  /** Two requests get the same key exactly when they name the same model in the same
      window and their canonical inputs hash alike. */
  lemma KeysAgree(model: string, inputs: Json, secs: nat, model': string, inputs': Json, secs': nat)
    ensures KeyText(model, HashOf(inputs), Window(secs)) == KeyText(model', HashOf(inputs'), Window(secs'))
       <==> model == model' && HashOf(inputs) == HashOf(inputs') && Window(secs) == Window(secs')
  {
    if KeyText(model, HashOf(inputs), Window(secs)) == KeyText(model', HashOf(inputs'), Window(secs')) {
      SixteenDigits();
      hide Fnv, Utf8, KeyText;
      KeyTextInjective(model, HashOf(inputs), Window(secs), model', HashOf(inputs'), Window(secs'));
    }
  }

  /** Inputs that differ only in the order of object keys share a key within a window. */
  lemma KeyIgnoresMemberOrder(model: string, a: Json, b: Json, secs: nat)
    requires WellFormed(a) && WellFormed(b) && SameValue(a, b)
    ensures KeyText(model, HashOf(a), Window(secs)) == KeyText(model, HashOf(b), Window(secs))
  {
    SameIsNormal(a, b);
  }
}

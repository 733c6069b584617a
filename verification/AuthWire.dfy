/**
 The Authorization header: printed by the scraper (core-console/backend/fleet.go:1022-1039), parsed
 by the agent (core-console/agent/main.go:258-295). Decimal integers and unpadded base64url
 (section 5 of RFC 4648) are spelled out; the MAC itself is opaque bytes.
 */
module AuthWire {
  import opened Wrappers
  import opened WireText

  type Byte = x: int | 0 <= x < 256

  const MAX_INT64 := 0x7FFF_FFFF_FFFF_FFFF
  const MIN_INT64 := -0x8000_0000_0000_0000

  // ---------- decimal integers

  function Digit(d: int): char
    requires 0 <= d < 10
  {
    ('0' as int + d) as char
  }

  predicate IsDigit(c: char) {
    '0' <= c <= '9'
  }

  function Decimal(n: nat): string {
    if n < 10 then [Digit(n)] else Decimal(n / 10) + [Digit(n % 10)]
  }

  function FormatInt(i: int): string {
    if i < 0 then "-" + Decimal(-i) else Decimal(i)
  }

  /** Value of a digit string; None on any other character. */
  function Value(s: string): Option<nat> {
    if s == "" then Some(0)
    else
      match Value(s[..|s| - 1])
      case None => None
      case Some(v) => if IsDigit(s[|s| - 1]) then Some(10 * v + (s[|s| - 1] as int - '0' as int)) else None
  }

  /** strconv.ParseInt(s, 10, 64) */
  function ParseInt(s: string): Option<int> {
    var signed := s != "" && (s[0] == '-' || s[0] == '+');
    var digits := if signed then s[1..] else s;
    if digits == "" || Value(digits).None? then None
    else
      var v: int := if signed && s[0] == '-' then 0 - Value(digits).value else Value(digits).value;
      if MIN_INT64 <= v <= MAX_INT64 then Some(v) else None
  }

  lemma {:induction false} DecimalValue(n: nat)
    ensures Value(Decimal(n)) == Some(n) && Decimal(n) != ""
    ensures forall i :: 0 <= i < |Decimal(n)| ==> IsDigit(Decimal(n)[i])
  {
    if n >= 10 {
      DecimalValue(n / 10);
      var s := Decimal(n);
      assert s[..|s| - 1] == Decimal(n / 10);
    } else {
      assert Decimal(n)[..0] == "";
    }
  }

  lemma IntRoundTrip(i: int)
    requires MIN_INT64 <= i <= MAX_INT64
    ensures ParseInt(FormatInt(i)) == Some(i)
    ensures FormatInt(i) != ""
    ensures forall k :: 0 <= k < |FormatInt(i)| ==> IsDigit(FormatInt(i)[k]) || FormatInt(i)[k] == '-'
  {
    hide Decimal, Value;
    DecimalValue(if i < 0 then -i else i);
    if i < 0 {
      assert FormatInt(i)[1..] == Decimal(-i);
    }
  }

  // ---------- base64url without padding

  function Char64(v: int): char
    requires 0 <= v < 64
  {
    if v < 26 then ('A' as int + v) as char
    else if v < 52 then ('a' as int + (v - 26)) as char
    else if v < 62 then ('0' as int + (v - 52)) as char
    else if v == 62 then '-' else '_'
  }

  function Value64(c: char): Option<int> {
    if 'A' <= c <= 'Z' then Some(c as int - 'A' as int)
    else if 'a' <= c <= 'z' then Some(c as int - 'a' as int + 26)
    else if '0' <= c <= '9' then Some(c as int - '0' as int + 52)
    else if c == '-' then Some(62) else if c == '_' then Some(63) else None
  }

  function Encode64(bs: seq<Byte>): string {
    if bs == [] then ""
    else if |bs| == 1 then [Char64(bs[0] / 4), Char64(bs[0] % 4 * 16)]
    else if |bs| == 2 then [Char64(bs[0] / 4), Char64(bs[0] % 4 * 16 + bs[1] / 16), Char64(bs[1] % 16 * 4)]
    else Quad(bs[0], bs[1], bs[2]) + Encode64(bs[3..])
  }

  function Quad(a: Byte, b: Byte, c: Byte): string {
    [Char64(a / 4), Char64(a % 4 * 16 + b / 16), Char64(b % 16 * 4 + c / 64), Char64(c % 64)]
  }

  /** The decoder drops line breaks before anything else. */
  function Unbroken(s: string): string {
    if s == "" then "" else (if s[0] == '\r' || s[0] == '\n' then "" else [s[0]]) + Unbroken(s[1..])
  }

  function Values(s: string): (r: Option<seq<int>>)
    ensures r.Some? ==> forall i :: 0 <= i < |r.value| ==> 0 <= r.value[i] < 64
  {
    if s == "" then Some([])
    else
      match (Value64(s[0]), Values(s[1..]))
      case (Some(v), Some(vs)) => Some([v] + vs)
      case _ => None
  }

  function Triple(w: int, x: int, y: int, z: int): seq<Byte>
    requires 0 <= w < 64 && 0 <= x < 64 && 0 <= y < 64 && 0 <= z < 64
  {
    [w * 4 + x / 16, x % 16 * 16 + y / 4, y % 4 * 64 + z]
  }

  /** Groups of four values to three bytes; a lone value is malformed, spare bits of a short group are ignored. */
  function Bytes(vs: seq<int>): Option<seq<Byte>>
    requires forall i :: 0 <= i < |vs| ==> 0 <= vs[i] < 64
  {
    if |vs| == 0 then Some([])
    else if |vs| == 1 then None
    else if |vs| == 2 then Some([vs[0] * 4 + vs[1] / 16])
    else if |vs| == 3 then Some([vs[0] * 4 + vs[1] / 16, vs[1] % 16 * 16 + vs[2] / 4])
    else
      match Bytes(vs[4..])
      case None => None
      case Some(rest) =>
        Some(Triple(vs[0], vs[1], vs[2], vs[3]) + rest)
  }

  /** base64.RawURLEncoding.DecodeString */
  function Decode64(s: string): Option<seq<Byte>> {
    match Values(Unbroken(s))
    case None => None
    case Some(vs) => Bytes(vs)
  }

  predicate Plain64(s: string) {
    forall i :: 0 <= i < |s| ==> Value64(s[i]).Some?
  }

  lemma CharRoundTrip(v: int)
    requires 0 <= v < 64
    ensures Value64(Char64(v)) == Some(v)
  {
  }

  lemma {:induction false} PlainUnbroken(s: string)
    requires Plain64(s)
    ensures Unbroken(s) == s
  {
    if s != "" {
      PlainUnbroken(s[1..]);
      assert Value64(s[0]).Some?;
      assert s == [s[0]] + s[1..];
    }
  }

  lemma ValuesUncons(s: string)
    requires s != "" && Values(s).Some?
    ensures Value64(s[0]).Some? && Values(s[1..]).Some?
    ensures Values(s).value == [Value64(s[0]).value] + Values(s[1..]).value
  {
    hide Value64;
  }

  lemma ValuesCons(c: char, rest: string)
    requires Value64(c).Some? && Values(rest).Some?
    ensures Values([c] + rest) == Some([Value64(c).value] + Values(rest).value)
  {
    hide Value64;
    assert ([c] + rest)[1..] == rest;
  }

  lemma {:induction false} ValuesAppend(a: string, b: string)
    requires Values(a).Some? && Values(b).Some?
    ensures Values(a + b) == Some(Values(a).value + Values(b).value)
  {
    hide Value64, Values;
    if a == "" {
      NoValues();
      assert a + b == b && [] + Values(b).value == Values(b).value;
    } else {
      ValuesUncons(a);
      ValuesAppend(a[1..], b);
      ValuesCons(a[0], a[1..] + b);
      assert a + b == [a[0]] + (a[1..] + b);
      var v := Value64(a[0]).value;
      assert [v] + (Values(a[1..]).value + Values(b).value) == ([v] + Values(a[1..]).value) + Values(b).value;
    }
  }

  lemma QuadValues(a: Byte, b: Byte, c: Byte)
    ensures Values(Quad(a, b, c)) == Some([a / 4, a % 4 * 16 + b / 16, b % 16 * 4 + c / 64, c % 64])
    ensures Plain64(Quad(a, b, c))
  {
    hide Char64, Value64, Values;
    var vs := [a / 4, a % 4 * 16 + b / 16, b % 16 * 4 + c / 64, c % 64];
    FourValues(vs[0], vs[1], vs[2], vs[3]);
    PlainChars(Quad(a, b, c), vs);
  }

  lemma TwoValues(w: int, x: int)
    requires 0 <= w < 64 && 0 <= x < 64
    ensures Values([Char64(w), Char64(x)]) == Some([w, x])
  {
    hide Char64, Value64, Values;
    NoValues();
    OneValue(x, "");
    assert [Char64(x)] + "" == [Char64(x)] && [x] + [] == [x];
    OneValue(w, [Char64(x)]);
    assert [Char64(w)] + [Char64(x)] == [Char64(w), Char64(x)];
    assert [w] + [x] == [w, x];
  }

  lemma ThreeValues(w: int, x: int, y: int)
    requires 0 <= w < 64 && 0 <= x < 64 && 0 <= y < 64
    ensures Values([Char64(w), Char64(x), Char64(y)]) == Some([w, x, y])
  {
    hide Char64, Value64, Values;
    TwoValues(x, y);
    OneValue(w, [Char64(x), Char64(y)]);
    assert [Char64(w)] + [Char64(x), Char64(y)] == [Char64(w), Char64(x), Char64(y)];
    assert [w] + [x, y] == [w, x, y];
  }

  lemma FourValues(w: int, x: int, y: int, z: int)
    requires 0 <= w < 64 && 0 <= x < 64 && 0 <= y < 64 && 0 <= z < 64
    ensures Values([Char64(w), Char64(x), Char64(y), Char64(z)]) == Some([w, x, y, z])
  {
    hide Char64, Value64, Values;
    ThreeValues(x, y, z);
    OneValue(w, [Char64(x), Char64(y), Char64(z)]);
    assert [Char64(w)] + [Char64(x), Char64(y), Char64(z)] == [Char64(w), Char64(x), Char64(y), Char64(z)];
    assert [w] + [x, y, z] == [w, x, y, z];
  }

  lemma PlainChars(s: string, vs: seq<int>)
    requires |s| == |vs| && forall i :: 0 <= i < |vs| ==> 0 <= vs[i] < 64 && s[i] == Char64(vs[i])
    ensures Plain64(s)
  {
    forall i | 0 <= i < |s|
      ensures Value64(s[i]).Some?
    {
      CharRoundTrip(vs[i]);
    }
  }

  lemma OneValue(v: int, rest: string)
    requires 0 <= v < 64 && Values(rest).Some?
    ensures Values([Char64(v)] + rest) == Some([v] + Values(rest).value)
  {
    CharRoundTrip(v);
    assert ([Char64(v)] + rest)[1..] == rest;
  }

  /** Every byte string survives the encoding, and its text uses only the 64 letters. */
  lemma {:induction false} Base64RoundTrip(bs: seq<Byte>)
    ensures Plain64(Encode64(bs)) && Decode64(Encode64(bs)) == Some(bs)
    ensures bs != [] ==> Encode64(bs) != ""
  {
    EncodedBytes(bs);
    PlainUnbroken(Encode64(bs));
  }

  lemma {:induction false} EncodedBytes(bs: seq<Byte>)
    ensures Plain64(Encode64(bs)) && Values(Encode64(bs)).Some?
    ensures Bytes(Values(Encode64(bs)).value) == Some(bs)
    ensures bs != [] ==> Encode64(bs) != ""
  {
    hide Char64, Value64, Values, Quad, Bytes;
    if bs == [] {
      NoValues();
      assert Bytes([]) == Some([]) by { NoBytes(); }
    } else if |bs| <= 2 {
      ShortGroup(bs);
    } else {
      var q, rest := Quad(bs[0], bs[1], bs[2]), Encode64(bs[3..]);
      EncodedBytes(bs[3..]);
      QuadValues(bs[0], bs[1], bs[2]);
      QuadLength(bs[0], bs[1], bs[2]);
      ValuesAppend(q, rest);
      FourToThree(bs[0], bs[1], bs[2], Values(rest).value);
      assert bs == [bs[0], bs[1], bs[2]] + bs[3..];
    }
  }

  /** A group of four values gives back the three bytes it was made from. */
  lemma FourToThree(a: Byte, b: Byte, c: Byte, vs: seq<int>)
    requires (forall i :: 0 <= i < |vs| ==> 0 <= vs[i] < 64) && Bytes(vs).Some?
    ensures Bytes([a / 4, a % 4 * 16 + b / 16, b % 16 * 4 + c / 64, c % 64] + vs) == Some([a, b, c] + Bytes(vs).value)
  {
    hide Bytes, Triple;
    BytesOfFour(a / 4, a % 4 * 16 + b / 16, b % 16 * 4 + c / 64, c % 64, vs);
    TripleOf(a, b, c);
  }

  lemma TripleOf(a: Byte, b: Byte, c: Byte)
    ensures Triple(a / 4, a % 4 * 16 + b / 16, b % 16 * 4 + c / 64, c % 64) == [a, b, c]
  {
    FirstByte(a, b);
    SecondByte(b, c);
    ThirdByte(b, c);
  }

  lemma BytesOfFour(w: int, x: int, y: int, z: int, vs: seq<int>)
    requires 0 <= w < 64 && 0 <= x < 64 && 0 <= y < 64 && 0 <= z < 64
    requires (forall i :: 0 <= i < |vs| ==> 0 <= vs[i] < 64) && Bytes(vs).Some?
    ensures Bytes([w, x, y, z] + vs) == Some(Triple(w, x, y, z) + Bytes(vs).value)
  {
    hide Triple;
    var all := [w, x, y, z] + vs;
    assert all[4..] == vs;
  }

  lemma FirstByte(a: Byte, b: Byte)
    ensures a / 4 * 4 + (a % 4 * 16 + b / 16) / 16 == a
    ensures (a % 4 * 16 + b / 16) % 16 == b / 16
  {
    assert 0 <= b / 16 < 16;
  }

  lemma SecondByte(b: Byte, c: Byte)
    ensures b / 16 * 16 + (b % 16 * 4 + c / 64) / 4 == b
  {
    assert 0 <= c / 64 < 4;
    assert (b % 16 * 4 + c / 64) / 4 == b % 16;
  }

  lemma ThirdByte(b: Byte, c: Byte)
    ensures (b % 16 * 4 + c / 64) % 4 * 64 + c % 64 == c
  {
    assert 0 <= c / 64 < 4;
    assert (b % 16 * 4 + c / 64) % 4 == c / 64;
  }

  lemma NoBytes()
    ensures Bytes([]) == Some([])
  {
  }

  lemma QuadLength(a: Byte, b: Byte, c: Byte)
    ensures |Quad(a, b, c)| == 4
  {
  }

  lemma NoValues()
    ensures Values("") == Some([])
  {
  }

  lemma OneByte(a: Byte)
    ensures Values(Encode64([a])) == Some([a / 4, a % 4 * 16]) && Plain64(Encode64([a]))
    ensures Bytes([a / 4, a % 4 * 16]) == Some([a])
  {
    hide Char64, Value64, Values, Plain64;
    TwoValues(a / 4, a % 4 * 16);
    PlainChars(Encode64([a]), [a / 4, a % 4 * 16]);
  }

  lemma TwoBytes(a: Byte, b: Byte)
    ensures Values(Encode64([a, b])) == Some([a / 4, a % 4 * 16 + b / 16, b % 16 * 4]) && Plain64(Encode64([a, b]))
    ensures Bytes([a / 4, a % 4 * 16 + b / 16, b % 16 * 4]) == Some([a, b])
  {
    hide Char64, Value64, Values, Plain64;
    ThreeValues(a / 4, a % 4 * 16 + b / 16, b % 16 * 4);
    PlainChars(Encode64([a, b]), [a / 4, a % 4 * 16 + b / 16, b % 16 * 4]);
  }

  lemma ShortGroup(bs: seq<Byte>)
    requires 1 <= |bs| <= 2
    ensures Plain64(Encode64(bs)) && Values(Encode64(bs)).Some?
    ensures Bytes(Values(Encode64(bs)).value) == Some(bs)
  {
    hide Values, Plain64, Encode64, Bytes;
    if |bs| == 1 {
      assert bs == [bs[0]];
      OneByte(bs[0]);
    } else {
      assert bs == [bs[0], bs[1]];
      TwoBytes(bs[0], bs[1]);
    }
  }

  // ---------- the header

  datatype AuthParts = AuthParts(ts: int, nonce: string, sig: seq<Byte>)

  const PREFIX := "NCNHMAC "

  function Header(ts: int, nonce: string, sig: seq<Byte>): string {
    PREFIX + "ts=" + FormatInt(ts) + ",nonce=" + nonce + ",sig=" + Encode64(sig)
  }

  /** One key=value field folded into the parts; unknown keys are ignored. */
  function Field(p: AuthParts, kv: string): Result<AuthParts> {
    match Cut(Trim(kv), '=')
    case None => Err("malformed auth field")
    case Some((k, v)) =>
      if k == "ts" then
        match ParseInt(v) { case None => Err("malformed auth field") case Some(ts) => Ok(p.(ts := ts)) }
      else if k == "nonce" then Ok(p.(nonce := v))
      else if k == "sig" then
        match Decode64(v) { case None => Err("malformed auth field") case Some(sig) => Ok(p.(sig := sig)) }
      else Ok(p)
  }

  function Fields(kvs: seq<string>): Result<AuthParts> {
    if kvs == [] then Ok(AuthParts(0, "", []))
    else
      match Fields(kvs[..|kvs| - 1])
      case Err(e) => Err(e)
      case Ok(p) => Field(p, kvs[|kvs| - 1])
  }

  function ParseAuth(h: string): Result<AuthParts> {
    if h == "" then Err("missing Authorization")
    else if !(PREFIX <= h) then Err("unexpected auth scheme")
    else
      match Fields(Split(h[|PREFIX|..], ','))
      case Err(e) => Err(e)
      case Ok(p) => if p.ts == 0 || p.nonce == "" || p.sig == [] then Err("missing required auth fields") else Ok(p)
  }

  lemma {:induction false} FieldErrorsStick(kvs: seq<string>, k: nat)
    requires k <= |kvs| && Fields(kvs[..k]).Err?
    ensures Fields(kvs) == Fields(kvs[..k])
    decreases |kvs|
  {
    if k < |kvs| {
      assert kvs[..|kvs| - 1][..k] == kvs[..k];
      FieldErrorsStick(kvs[..|kvs| - 1], k);
    } else {
      assert kvs[..k] == kvs;
    }
  }

  method ParseAuthHeader(h: string) returns (r: Result<AuthParts>)
    ensures r == ParseAuth(h)
  {
    hide Field;
    if h == "" { return Err("missing Authorization"); }
    if !(PREFIX <= h) { return Err("unexpected auth scheme"); }
    var kvs := Split(h[|PREFIX|..], ',');
    var p := AuthParts(0, "", []);
    var i := 0;
    while i < |kvs|
      invariant 0 <= i <= |kvs| && Fields(kvs[..i]) == Ok(p)
    {
      assert kvs[..i + 1][..i] == kvs[..i];
      var next := Field(p, kvs[i]);
      if next.Err? {
        FieldErrorsStick(kvs, i + 1);
        return Err(next.error);
      }
      p := next.value;
      i := i + 1;
    }
    assert kvs[..|kvs|] == kvs;
    if p.ts == 0 || p.nonce == "" || |p.sig| == 0 { return Err("missing required auth fields"); }
    return Ok(p);
  }

  /** Characters a header value may use without confusing the parser. */
  predicate SafeValue(s: string) {
    forall i :: 0 <= i < |s| ==> s[i] != ',' && !IsSpace(s[i])
  }

  lemma KeyValue(k: string, v: string)
    requires k != "" && '=' !in k && SafeValue(k) && SafeValue(v)
    ensures Cut(Trim(k + "=" + v), '=') == Some((k, v)) && ',' !in k + "=" + v
  {
    hide IsSpace, Cut, Trim;
    var kv := k + "=" + v;
    assert kv == k + ['='] + v;
    CutFront(k, v, '=');
    assert !IsSpace('=') by { EqualsIsNoSpace(); }
    assert kv[0] == k[0];
    assert kv[|kv| - 1] == if v == "" then '=' else v[|v| - 1];
    TrimTight(kv);
  }

  lemma EqualsIsNoSpace()
    ensures !IsSpace('=')
  {
  }

  lemma PlainIsSafe(s: string)
    requires Plain64(s)
    ensures SafeValue(s)
  {
    forall i | 0 <= i < |s|
      ensures s[i] != ',' && !IsSpace(s[i])
    {
      assert Value64(s[i]).Some?;
    }
  }

  lemma IntIsSafe(i: int)
    requires MIN_INT64 <= i <= MAX_INT64
    ensures SafeValue(FormatInt(i))
  {
    hide FormatInt, IsSpace;
    IntRoundTrip(i);
    forall k | 0 <= k < |FormatInt(i)|
      ensures FormatInt(i)[k] != ',' && !IsSpace(FormatInt(i)[k])
    {
      DigitIsSafe(FormatInt(i)[k]);
    }
  }

  lemma DigitIsSafe(c: char)
    requires IsDigit(c) || c == '-'
    ensures c != ',' && !IsSpace(c)
  {
  }

  lemma ThreeKeys()
    ensures SafeValue("ts") && SafeValue("nonce") && SafeValue("sig")
    ensures '=' !in "ts" && '=' !in "nonce" && '=' !in "sig"
  {
  }

  lemma JoinThree(a: string, b: string, c: string)
    ensures Join([a, b, c], ',') == a + "," + b + "," + c
  {
    assert [a, b, c][1..] == [b, c] && [b, c][1..] == [c];
    assert Join([b, c], ',') == b + [','] + c;
    assert a + [','] + (b + [','] + c) == a + "," + b + "," + c;
  }

  lemma HeaderText(x: string, y: string, z: string)
    ensures PREFIX + "ts=" + x + ",nonce=" + y + ",sig=" + z ==
            PREFIX + (("ts" + "=" + x) + "," + ("nonce" + "=" + y) + "," + ("sig" + "=" + z))
  {
  }

  lemma HeaderFields(ts: int, nonce: string, sig: seq<Byte>)
    requires MIN_INT64 <= ts <= MAX_INT64 && Plain64(nonce)
    ensures PREFIX <= Header(ts, nonce, sig)
    ensures Split(Header(ts, nonce, sig)[|PREFIX|..], ',') ==
            ["ts" + "=" + FormatInt(ts), "nonce" + "=" + nonce, "sig" + "=" + Encode64(sig)]
  {
    hide FormatInt, Encode64, Plain64, SafeValue, Split, Join, Decode64;
    ThreeKeys();
    IntIsSafe(ts);
    PlainIsSafe(nonce);
    Base64RoundTrip(sig);
    PlainIsSafe(Encode64(sig));
    KeyValue("ts", FormatInt(ts));
    KeyValue("nonce", nonce);
    KeyValue("sig", Encode64(sig));
    var a, b, c := "ts" + "=" + FormatInt(ts), "nonce" + "=" + nonce, "sig" + "=" + Encode64(sig);
    JoinThree(a, b, c);
    HeaderText(FormatInt(ts), nonce, Encode64(sig));
    assert Header(ts, nonce, sig)[|PREFIX|..] == Join([a, b, c], ',');
    SplitJoin([a, b, c], ',');
  }

  lemma FieldTs(p: AuthParts, ts: int)
    requires MIN_INT64 <= ts <= MAX_INT64
    ensures Field(p, "ts" + "=" + FormatInt(ts)) == Ok(p.(ts := ts))
  {
    hide FormatInt, ParseInt, Cut, Trim, SafeValue;
    ThreeKeys();
    IntRoundTrip(ts);
    IntIsSafe(ts);
    KeyValue("ts", FormatInt(ts));
  }

  lemma FieldNonce(p: AuthParts, nonce: string)
    requires Plain64(nonce)
    ensures Field(p, "nonce" + "=" + nonce) == Ok(p.(nonce := nonce))
  {
    hide Cut, Trim, SafeValue, Plain64;
    ThreeKeys();
    PlainIsSafe(nonce);
    KeyValue("nonce", nonce);
  }

  lemma FieldSig(p: AuthParts, sig: seq<Byte>)
    ensures Field(p, "sig" + "=" + Encode64(sig)) == Ok(p.(sig := sig))
  {
    hide Cut, Trim, SafeValue, Plain64, Encode64, Decode64;
    ThreeKeys();
    Base64RoundTrip(sig);
    PlainIsSafe(Encode64(sig));
    KeyValue("sig", Encode64(sig));
  }

  lemma ThreeSteps(x: string, y: string, z: string)
    requires Field(AuthParts(0, "", []), x).Ok? && Field(Field(AuthParts(0, "", []), x).value, y).Ok?
    ensures Fields([x, y, z]) == Field(Field(Field(AuthParts(0, "", []), x).value, y).value, z)
  {
    hide Field;
    var kvs := [x, y, z];
    assert kvs[..2] == [x, y] && [x, y][..1] == [x] && [x][..0] == [];
    assert Fields([x]) == Field(AuthParts(0, "", []), x);
  }

  /**
   The header reads back to its timestamp, nonce and signature: base64url text holds neither ','
   nor '='. Only a zero timestamp, an empty nonce or an empty signature is refused.
   */
  lemma AuthRoundTrip(ts: int, nonce: string, sig: seq<Byte>)
    requires MIN_INT64 <= ts <= MAX_INT64 && Plain64(nonce)
    ensures ParseAuth(Header(ts, nonce, sig)) ==
      if ts != 0 && nonce != "" && sig != [] then Ok(AuthParts(ts, nonce, sig)) else Err("missing required auth fields")
  {
    hide FormatInt, Encode64, Plain64, Split, Header, Field, Fields;
    HeaderFields(ts, nonce, sig);
    FieldTs(AuthParts(0, "", []), ts);
    FieldNonce(AuthParts(ts, "", []), nonce);
    FieldSig(AuthParts(ts, nonce, []), sig);
    ThreeSteps("ts" + "=" + FormatInt(ts), "nonce" + "=" + nonce, "sig" + "=" + Encode64(sig));
  }

  /** The nonce the scraper draws is such text: the encoding of its random bytes. */
  lemma RandomNonceRoundTrip(ts: int, random: seq<Byte>, sig: seq<Byte>)
    requires MIN_INT64 <= ts <= MAX_INT64 && ts != 0 && random != [] && sig != []
    ensures ParseAuth(Header(ts, Encode64(random), sig)) == Ok(AuthParts(ts, Encode64(random), sig))
  {
    Base64RoundTrip(random);
    AuthRoundTrip(ts, Encode64(random), sig);
  }

  /** An accepted header has the scheme, a non-zero timestamp, a nonce and a signature. */
  lemma AcceptedIsComplete(h: string)
    requires ParseAuth(h).Ok?
    ensures "NCNHMAC " <= h
    ensures var p := ParseAuth(h).value; p.ts != 0 && p.nonce != "" && |p.sig| > 0
  {
    hide Fields;
  }

  /** The field named k occurs with value v, and not again after it. */
  ghost predicate LastField(kvs: seq<string>, k: string, v: string) {
    exists i ::
      && 0 <= i < |kvs| && IsField(kvs[i], k, v)
      && forall j, w :: i < j < |kvs| ==> !IsField(kvs[j], k, w)
  }

  ghost predicate IsField(kv: string, k: string, v: string) {
    Cut(Trim(kv), '=') == Some((k, v))
  }

  lemma LastFieldSnoc(kvs: seq<string>, kv: string, k: string, v: string, k': string, v': string)
    requires IsField(kv, k', v')
    ensures k' == k ==> (LastField(kvs + [kv], k, v) <==> v == v')
    ensures k' != k ==> (LastField(kvs + [kv], k, v) <==> LastField(kvs, k, v))
  {
    hide Cut, Trim;
    var all := kvs + [kv];
    assert all[|kvs|] == kv;
    if k' == k && v == v' {
      assert IsField(all[|kvs|], k, v);
    }
    if k' != k && LastField(kvs, k, v) {
      var i :| 0 <= i < |kvs| && IsField(kvs[i], k, v) && forall j, w :: i < j < |kvs| ==> !IsField(kvs[j], k, w);
      assert IsField(all[i], k, v);
    }
    if k' != k && LastField(all, k, v) {
      var i :| 0 <= i < |all| && IsField(all[i], k, v) && forall j, w :: i < j < |all| ==> !IsField(all[j], k, w);
      assert i < |kvs|;
      forall j, w | i < j < |kvs|
        ensures !IsField(kvs[j], k, w)
      {
        assert !IsField(all[j], k, w);
      }
    }
  }

  /** Each accepted part is the value of its last field: the timestamp read as a decimal, the signature decoded. */
  lemma {:induction false} PartsComeFromFields(kvs: seq<string>)
    requires Fields(kvs).Ok?
    ensures var p := Fields(kvs).value;
      && (p.ts != 0 ==> exists v :: LastField(kvs, "ts", v) && ParseInt(v) == Some(p.ts))
      && (p.nonce != "" ==> LastField(kvs, "nonce", p.nonce))
      && (p.sig != [] ==> exists v :: LastField(kvs, "sig", v) && Decode64(v) == Some(p.sig))
  {
    hide Cut, Trim, ParseInt, Decode64, LastField;
    if kvs != [] {
      var init, kv := kvs[..|kvs| - 1], kvs[|kvs| - 1];
      PartsComeFromFields(init);
      assert kvs == init + [kv];
      var (k, v) := Cut(Trim(kv), '=').value;
      var p, before := Fields(kvs).value, Fields(init).value;
      ThreeKeys();
      forall name, w
        ensures name == k ==> (LastField(kvs, name, w) <==> w == v)
        ensures name != k ==> (LastField(kvs, name, w) <==> LastField(init, name, w))
      {
        LastFieldSnoc(init, kv, name, w, k, v);
      }
    }
  }

  /** The printed header. */
  lemma PrintedAuth(ts: int, nonce: string, sig: seq<Byte>)
    ensures Header(ts, nonce, sig) == "NCNHMAC ts=" + FormatInt(ts) + ",nonce=" + nonce + ",sig=" + Encode64(sig)
  {
    hide FormatInt, Encode64;
  }

  /** Decimal text: one more digit on the right, a minus in front. */
  lemma DecimalText(n: int, d: int)
    requires n > 0 && 0 <= d < 10
    ensures FormatInt(10 * n + d) == FormatInt(n) + FormatInt(d)
    ensures FormatInt(-n) == "-" + FormatInt(n)
    ensures FormatInt(d) == ["0123456789"[d]]
  {
  }

  /** Vectors of section 10 of RFC 4648, without padding, and the two letters special to the URL form. */
  lemma Base64Vectors()
    ensures Encode64([102, 111, 111, 98, 97, 114]) == "Zm9vYmFy"
    ensures Encode64([102]) == "Zg" && Encode64([102, 111]) == "Zm8"
    ensures Encode64([251, 255]) == "-_8"
  {
  }
}

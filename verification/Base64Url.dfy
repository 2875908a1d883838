/** The bridge's opaque strings: base64url without padding (section 5 of RFC 4648) over UTF-8 bytes (RFC 3629). */
module Base64Url {
  import opened Wrappers

  type Byte = n: int | 0 <= n < 256

  // ----- base64url -----

  type Sextet = n: int | 0 <= n < 64

  function Digit(n: Sextet): char {
    if n < 26 then ('A' as int + n) as char
    else if n < 52 then ('a' as int + n - 26) as char
    else if n < 62 then ('0' as int + n - 52) as char
    else if n == 62 then '-'
    else '_'
  }

  function Value(c: char): Option<Sextet> {
    if 'A' <= c <= 'Z' then Some(c as int - 'A' as int)
    else if 'a' <= c <= 'z' then Some(c as int - 'a' as int + 26)
    else if '0' <= c <= '9' then Some(c as int - '0' as int + 52)
    else if c == '-' then Some(62)
    else if c == '_' then Some(63)
    else None
  }

  /** Three bytes as four groups of six bits; a short last group is filled with zero bits. */
  function Sextets(b: seq<Byte>): (x: seq<Sextet>)
    ensures |x| % 4 != 1
  {
    if |b| == 0 then []
    else if |b| == 1 then [b[0] / 4, b[0] % 4 * 16]
    else if |b| == 2 then [b[0] / 4, b[0] % 4 * 16 + b[1] / 16, b[1] % 16 * 4]
    else [b[0] / 4, b[0] % 4 * 16 + b[1] / 16, b[1] % 16 * 4 + b[2] / 64, b[2] % 64] + Sextets(b[3..])
  }

  function Bytes(x: seq<Sextet>): seq<Byte> {
    if |x| < 2 then []
    else if |x| == 2 then [First(x[0], x[1])]
    else if |x| == 3 then [First(x[0], x[1]), Second(x[1], x[2])]
    else [First(x[0], x[1]), Second(x[1], x[2]), Third(x[2], x[3])] + Bytes(x[4..])
  }

  function First(x0: int, x1: int): int { x0 * 4 + x1 / 16 }

  function Second(x1: int, x2: int): int { x1 % 16 * 16 + x2 / 4 }

  function Third(x2: int, x3: int): int { x2 % 4 * 64 + x3 }

  function Text(x: seq<Sextet>): (s: string)
    ensures |s| == |x|
  {
    if x == [] then [] else [Digit(x[0])] + Text(x[1..])
  }

  function FromText(s: string): Option<seq<Sextet>> {
    if s == [] then Some([])
    else if Value(s[0]).None? || FromText(s[1..]).None? then None
    else Some([Value(s[0]).value] + FromText(s[1..]).value)
  }

  function Padding(n: nat): string {
    if n == 0 then [] else Padding(n - 1) + ['=']
  }

  function PadCount(n: nat): nat {
    (4 - n % 4) % 4
  }

  function StripPadding(s: string): string {
    if s != [] && s[|s| - 1] == '=' then StripPadding(s[..|s| - 1]) else s
  }

  function EncodePadded(b: seq<Byte>): string {
    Text(Sextets(b)) + Padding(PadCount(|Sextets(b)|))
  }

  function Encode(b: seq<Byte>): string {
    StripPadding(EncodePadded(b))
  }

  /** Appends `-len(s) % 4` padding characters. */
  function Pad(s: string): string {
    s + Padding(PadCount(|s|))
  }

  function DecodePadded(s: string): Option<seq<Byte>> {
    var digits := StripPadding(s);
    if |s| % 4 != 0 || 2 < |s| - |digits| || FromText(digits).None? then None
    else Some(Bytes(FromText(digits).value))
  }

  function Decode(s: string): Option<seq<Byte>> {
    DecodePadded(Pad(s))
  }

  lemma {:induction false} DigitValue(n: Sextet)
    ensures Value(Digit(n)) == Some(n) && Digit(n) != '='
  {
  }

  lemma {:induction false} TextRoundTrip(x: seq<Sextet>)
    ensures FromText(Text(x)) == Some(x)
  {
    if x != [] {
      var t, rest := Text(x), Text(x[1..]);
      DigitValue(x[0]);
      TextRoundTrip(x[1..]);
      assert t[0] == Digit(x[0]) && t[1..] == rest;
      assert FromText(t) == Some([x[0]] + x[1..]);
      assert x == [x[0]] + x[1..];
    }
  }

  lemma {:induction false} TextHasNoPadding(x: seq<Sextet>)
    ensures '=' !in Text(x)
  {
    if x != [] {
      DigitValue(x[0]);
      TextHasNoPadding(x[1..]);
    }
  }

  lemma {:induction false} StripsOne(s: string)
    ensures StripPadding(s + ['=']) == StripPadding(s)
  {
    assert (s + ['='])[..|s|] == s;
  }

  lemma {:induction false} StripsThePadding(s: string, n: nat)
    requires '=' !in s
    ensures StripPadding(s + Padding(n)) == s && |Padding(n)| == n
  {
    if n == 0 {
      assert s + Padding(0) == s;
      assert s == [] || s[|s| - 1] in s;
    } else {
      StripsThePadding(s, n - 1);
      var before := s + Padding(n - 1);
      assert s + Padding(n) == before + ['='];
      StripsOne(before);
    }
  }

  lemma {:induction false} RegroupRoundTrip(b: seq<Byte>)
    ensures Bytes(Sextets(b)) == b
  {
    if |b| >= 3 {
      RegroupRoundTrip(b[3..]);
      assert Sextets(b)[4..] == Sextets(b[3..]);
      assert b == [b[0], b[1], b[2]] + b[3..];
    }
  }

  lemma {:induction false} PaddedLength(n: nat)
    requires n % 4 != 1
    ensures PadCount(n) <= 2 && (n + PadCount(n)) % 4 == 0
  {
  }

  lemma {:induction false} DecodesPadded(t: string, k: nat)
    requires FromText(t).Some? && '=' !in t && k <= 2 && (|t| + k) % 4 == 0
    ensures DecodePadded(t + Padding(k)) == Some(Bytes(FromText(t).value))
  {
    StripsThePadding(t, k);
    var s := t + Padding(k);
    assert |s| == |t| + k && StripPadding(s) == t;
  }

  /** Stripping the padding loses nothing: the length alone tells how much to put back. */
  lemma {:induction false} Base64RoundTrip(b: seq<Byte>)
    ensures Decode(Encode(b)) == Some(b)
    ensures |Encode(b)| == |Sextets(b)|
  {
    var x := Sextets(b);
    var t := Text(x);
    TextRoundTrip(x);
    TextHasNoPadding(x);
    StripsThePadding(t, PadCount(|x|));
    assert Encode(b) == t;
    PaddedLength(|x|);
    DecodesPadded(t, PadCount(|t|));
    RegroupRoundTrip(b);
  }

  // ----- UTF-8 -----

  function Utf8Char(c: char): seq<Byte> {
    var n := c as int;
    if n < 0x80 then [n]
    else if n < 0x800 then [0xC0 + n / 64, 0x80 + n % 64]
    else if n < 0x10000 then [0xE0 + n / 4096, 0x80 + n / 64 % 64, 0x80 + n % 64]
    else [0xF0 + n / 262144, 0x80 + n / 4096 % 64, 0x80 + n / 64 % 64, 0x80 + n % 64]
  }

  function Utf8(s: string): seq<Byte> {
    if s == [] then [] else Utf8Char(s[0]) + Utf8(s[1..])
  }

  predicate IsScalar(n: int) {
    0 <= n < 0xD800 || 0xE000 <= n < 0x110000
  }

  predicate Continues(b: seq<Byte>, i: nat) {
    i < |b| && 0x80 <= b[i] < 0xC0
  }

  /** One character off the front: strict, so overlong forms and surrogates are malformed. */
  function FromUtf8Char(b: seq<Byte>): (r: Option<(char, nat)>)
    ensures r.Some? ==> 0 < r.value.1 <= |b|
  {
    if b == [] then None
    else if b[0] < 0x80 then Some((b[0] as char, 1))
    else if 0xC0 <= b[0] < 0xE0 && Continues(b, 1) then
      var n: int := (b[0] as int - 0xC0) * 64 + (b[1] as int - 0x80);
      if 0x80 <= n && IsScalar(n) then Some((n as char, 2)) else None
    else if 0xE0 <= b[0] < 0xF0 && Continues(b, 1) && Continues(b, 2) then
      var n: int := (b[0] as int - 0xE0) * 4096 + (b[1] as int - 0x80) * 64 + (b[2] as int - 0x80);
      if 0x800 <= n && IsScalar(n) then Some((n as char, 3)) else None
    else if 0xF0 <= b[0] && Continues(b, 1) && Continues(b, 2) && Continues(b, 3) then
      var n: int := (b[0] as int - 0xF0) * 262144 + (b[1] as int - 0x80) * 4096 + (b[2] as int - 0x80) * 64
          + (b[3] as int - 0x80);
      if 0x10000 <= n && IsScalar(n) then Some((n as char, 4)) else None
    else None
  }

  function FromUtf8(b: seq<Byte>): Option<string> {
    if b == [] then Some([])
    else
      match FromUtf8Char(b)
      case None => None
      case Some((c, n)) =>
        match FromUtf8(b[n..])
        case None => None
        case Some(rest) => Some([c] + rest)
  }

  lemma {:induction false} SixBitGroups(n: nat)
    ensures n == n / 4096 * 4096 + n / 64 % 64 * 64 + n % 64
    ensures n == n / 262144 * 262144 + n / 4096 % 64 * 4096 + n / 64 % 64 * 64 + n % 64
  {
    var a := n / 64;
    assert n / 4096 == a / 64;
    assert n / 262144 == a / 64 / 64;
  }

  lemma {:induction false} Utf8CharRoundTrip(c: char, rest: seq<Byte>)
    ensures FromUtf8Char(Utf8Char(c) + rest) == Some((c, |Utf8Char(c)|))
  {
    var n := c as int;
    var b := Utf8Char(c) + rest;
    if n < 0x80 {
    } else if n < 0x800 {
      assert b[0] == 0xC0 + n / 64 && b[1] == 0x80 + n % 64;
    } else if n < 0x10000 {
      SixBitGroups(n);
      assert b[0] == 0xE0 + n / 4096 && b[1] == 0x80 + n / 64 % 64 && b[2] == 0x80 + n % 64;
    } else {
      SixBitGroups(n);
      assert b[0] == 0xF0 + n / 262144 && b[1] == 0x80 + n / 4096 % 64 && b[2] == 0x80 + n / 64 % 64
          && b[3] == 0x80 + n % 64;
    }
  }

  lemma {:induction false} Utf8RoundTrip(s: string)
    ensures FromUtf8(Utf8(s)) == Some(s)
  {
    if s != [] {
      Utf8CharRoundTrip(s[0], Utf8(s[1..]));
      Utf8RoundTrip(s[1..]);
      assert Utf8(s)[|Utf8Char(s[0])|..] == Utf8(s[1..]);
      assert s == [s[0]] + s[1..];
    }
  }

  lemma {:induction false} LowGroup(a: int, b: int)
    requires 0 <= b < 64
    ensures (a * 64 + b) / 64 == a && (a * 64 + b) % 64 == b
  {
  }

  lemma {:induction false} ThreeGroups(a: nat, b: int, c: int)
    requires 0 <= b < 64 && 0 <= c < 64
    ensures var n := a * 4096 + b * 64 + c; n / 4096 == a && n / 64 % 64 == b && n % 64 == c
  {
    LowGroup(a * 64 + b, c);
    LowGroup(a, b);
    SixBitGroups(a * 4096 + b * 64 + c);
  }

  lemma {:induction false} FourGroups(a: nat, b: int, c: int, d: int)
    requires 0 <= b < 64 && 0 <= c < 64 && 0 <= d < 64
    ensures var n := a * 262144 + b * 4096 + c * 64 + d;
            n / 262144 == a && n / 4096 % 64 == b && n / 64 % 64 == c && n % 64 == d
  {
    var n := a * 262144 + b * 4096 + c * 64 + d;
    ThreeGroups(a * 64 + b, c, d);
    LowGroup(a, b);
    SixBitGroups(n);
  }

  lemma {:induction false} Utf8CharIsStrict(b: seq<Byte>)
    requires FromUtf8Char(b).Some?
    ensures var (c, n) := FromUtf8Char(b).value; b[..n] == Utf8Char(c)
  {
    var (c, k) := FromUtf8Char(b).value;
    if k == 2 {
      LowGroup(b[0] as int - 0xC0, b[1] as int - 0x80);
    } else if k == 3 {
      ThreeGroups(b[0] as int - 0xE0, b[1] as int - 0x80, b[2] as int - 0x80);
    } else if k == 4 {
      FourGroups(b[0] as int - 0xF0, b[1] as int - 0x80, b[2] as int - 0x80, b[3] as int - 0x80);
    }
  }

  /** Bytes are read as a text only if they are what it is written as. */
  lemma {:induction false} Utf8Exactly(b: seq<Byte>, s: string)
    ensures FromUtf8(b) == Some(s) <==> b == Utf8(s)
  {
    Utf8RoundTrip(s);
    if FromUtf8(b) == Some(s) {
      Utf8IsStrict(b);
    }
  }

  lemma {:induction false} Utf8IsStrict(b: seq<Byte>)
    requires FromUtf8(b).Some?
    ensures Utf8(FromUtf8(b).value) == b
  {
    if b != [] {
      var c, n, rest := FirstCharacter(b);
      Utf8CharIsStrict(b);
      Utf8IsStrict(b[n..]);
      Utf8Cons(c, rest);
    }
  }

  lemma {:induction false} FirstCharacter(b: seq<Byte>) returns (c: char, n: nat, rest: string)
    requires b != [] && FromUtf8(b).Some?
    ensures FromUtf8Char(b) == Some((c, n)) && n <= |b| && b == b[..n] + b[n..]
    ensures FromUtf8(b[n..]) == Some(rest) && FromUtf8(b).value == [c] + rest
  {
    c, n := FromUtf8Char(b).value.0, FromUtf8Char(b).value.1;
    rest := FromUtf8(b[n..]).value;
  }

  lemma {:induction false} Utf8Cons(c: char, rest: string)
    ensures Utf8([c] + rest) == Utf8Char(c) + Utf8(rest)
  {
    assert ([c] + rest)[1..] == rest;
  }

  // ----- text tokens -----

  function Token(text: string): string {
    Encode(Utf8(text))
  }

  function FromToken(token: string): Option<string> {
    match Decode(token)
    case None => None
    case Some(b) => FromUtf8(b)
  }

  lemma {:induction false} TokenRoundTrip(text: string)
    ensures FromToken(Token(text)) == Some(text)
  {
    Base64RoundTrip(Utf8(text));
    Utf8RoundTrip(text);
  }

  lemma {:induction false} NonEmptyToken(text: string)
    requires text != []
    ensures Token(text) != []
  {
    Base64RoundTrip(Utf8(text));
    assert Utf8(text) != [];
  }
}

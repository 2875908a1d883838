/** What ids and state strings look like: base64url (RFC 4648 section 5), ids (RFC 8620 section 1.2). */
module IdSyntax {
  import opened Wrappers
  import opened LetterCase
  import opened Base64Url
  import opened ObjectIds
  import Json
  import StateTokens
  import ThreadIds

  const ALPHABET: string := UPPER + LOWER + "0123456789-_"

  /** The number these digits write, most significant first, after `before`. */
  function Number(digits: seq<int>, base: nat, before: int): int {
    if digits == [] then before else Number(digits[1..], base, before * base + digits[0])
  }

  lemma {:induction false} DigitIs(n: Sextet)
    ensures |ALPHABET| == 64 && Digit(n) == ALPHABET[n]
  {
    if n < 26 { LetterAt(n); } else if n < 52 { LetterAt(n - 26); }
  }

  /** A character is read as the digit it is in the alphabet, and as none outside it. */
  lemma {:induction false} ValueIs(c: char, n: Sextet)
    ensures |ALPHABET| == 64 && (Value(c) == Some(n) <==> c == ALPHABET[n])
  {
    DigitIs(n);
    DigitValue(n);
    if Value(c) == Some(n) {
      assert Digit(n) == c;
    }
  }

  lemma {:induction false} TextIs(x: seq<Sextet>, i: nat)
    requires i < |x|
    ensures |ALPHABET| == 64 && Text(x)[i] == ALPHABET[x[i]]
  {
    if i == 0 {
      DigitIs(x[0]);
    } else {
      TextIs(x[1..], i - 1);
    }
  }

  /** As many zero bits as fill the last group. */
  function Fill(n: nat): nat {
    if n % 3 == 0 then 1 else if n % 3 == 1 then 16 else 4
  }

  function ThreeBytes(before: int, b0: Byte, b1: Byte, b2: Byte): int {
    ((before * 256 + b0) * 256 + b1) * 256 + b2
  }

  lemma {:induction false} OneGroup(before: int, b0: Byte, b1: Byte, b2: Byte)
    ensures (((before * 64 + b0 / 4) * 64 + (b0 % 4 * 16 + b1 / 16)) * 64 + (b1 % 16 * 4 + b2 / 64)) * 64 + b2 % 64
         == ThreeBytes(before, b0, b1, b2)
  {
  }

  lemma {:induction false} OneGroupMore(b: seq<Byte>, before: int)
    requires |b| >= 3
    ensures var next := ThreeBytes(before, b[0], b[1], b[2]);
            && Number(b, 256, before) == Number(b[3..], 256, next)
            && Number(Sextets(b), 64, before) == Number(Sextets(b[3..]), 64, next)
  {
    var x := Sextets(b);
    ThreeMore(b, 256, before);
    ThreeMore(x, 64, before);
    OneMore(x[3..], 64, ((before * 64 + x[0]) * 64 + x[1]) * 64 + x[2]);
    OneGroup(before, b[0], b[1], b[2]);
    assert x[3..][1..] == Sextets(b[3..]);
  }

  lemma {:induction false} SextetsAreTheBits(b: seq<Byte>, before: int)
    ensures Number(Sextets(b), 64, before) == Number(b, 256, before) * Fill(|b|)
    ensures |Sextets(b)| == (4 * |b| + 2) / 3
  {
    if |b| < 3 {
      LastBits(b, before);
    } else {
      OneGroupMore(b, before);
      SextetsAreTheBits(b[3..], ThreeBytes(before, b[0], b[1], b[2]));
      assert Fill(|b|) == Fill(|b| - 3);
    }
  }

  lemma {:induction false} LastBits(b: seq<Byte>, before: int)
    requires |b| < 3
    ensures Number(Sextets(b), 64, before) == Number(b, 256, before) * Fill(|b|)
  {
    var x := Sextets(b);
    if |b| == 1 {
      OneMore(b, 256, before);
      OneMore(x, 64, before);
      OneMore(x[1..], 64, before * 64 + x[0]);
      assert b[1..] == [] && x[1..][1..] == [];
    } else if |b| == 2 {
      OneMore(b, 256, before);
      OneMore(b[1..], 256, before * 256 + b[0]);
      ThreeMore(x, 64, before);
      assert b[1..][1..] == [] && x[3..] == [];
    }
  }

  lemma {:induction false} OneMore(digits: seq<int>, base: nat, before: int)
    requires digits != []
    ensures Number(digits, base, before) == Number(digits[1..], base, before * base + digits[0])
  {
  }

  lemma {:induction false} ThreeMore(digits: seq<int>, base: nat, before: int)
    requires |digits| >= 3
    ensures Number(digits, base, before) ==
              Number(digits[3..], base, ((before * base + digits[0]) * base + digits[1]) * base + digits[2])
  {
    assert digits[1..][1..] == digits[2..] && digits[2..][1..] == digits[3..];
    OneMore(digits, base, before);
    OneMore(digits[1..], base, before * base + digits[0]);
    OneMore(digits[2..], base, (before * base + digits[0]) * base + digits[1]);
  }

  /** The text of any bytes is RFC 4648's: the alphabet's characters, for the bits of the bytes six at a time, the last
      group filled up with zeros, and no padding. */
  lemma {:induction false} EncodesAsRfc4648(b: seq<Byte>) returns (x: seq<Sextet>)
    ensures |Encode(b)| == |x| == (4 * |b| + 2) / 3
    ensures |ALPHABET| == 64 && forall i | 0 <= i < |x| :: Encode(b)[i] == ALPHABET[x[i]]
    ensures Number(x, 64, 0) == Number(b, 256, 0) * Fill(|b|)
  {
    x := Sextets(b);
    EncodeIs(b);
    SextetsAreTheBits(b, 0);
    DigitIs(0);
    forall i | 0 <= i < |x| ensures Text(x)[i] == ALPHABET[x[i]] {
      TextIs(x, i);
    }
  }

  lemma {:induction false} EncodeIs(b: seq<Byte>)
    ensures Encode(b) == Text(Sextets(b))
  {
    var x := Sextets(b);
    TextHasNoPadding(x);
    StripsThePadding(Text(x), PadCount(|x|));
  }

  // ----- ids -----

  /** An Id of RFC 8620, its length apart. */
  predicate IsId(s: string) {
    s != [] && forall c <- s :: c in ALPHABET
  }

  lemma {:induction false} TokenIsSafe(prefix: string, text: string)
    requires prefix != [] && forall c <- prefix :: c in ALPHABET
    ensures IsId(prefix + Token(text))
  {
    var x := EncodesAsRfc4648(Utf8(text));
    var token := Token(text);
    forall c | c in token ensures c in ALPHABET {
      var i :| 0 <= i < |token| && token[i] == c;
    }
    assert forall c <- prefix + token :: c in prefix || c in token;
  }

  lemma {:induction false} LettersAreSafe()
    ensures 'E' in ALPHABET && 'B' in ALPHABET && 'T' in ALPHABET && 'H' in ALPHABET && 'L' in ALPHABET
  {
    DigitIs(1);
    DigitIs(4);
    DigitIs(7);
    DigitIs(11);
    DigitIs(19);
  }

  /** Whatever a mailbox is called and a header says, the ids made of them are ids, and tell by a letter what they
      are. */
  lemma {:induction false} LocationIdsAreIds(email: EmailId, blob: BlobId)
    ensures IsId(StateTokens.EncodeEmailId(email)) && StateTokens.EncodeEmailId(email)[0] == 'E'
    ensures IsId(StateTokens.EncodeBlobId(blob)) && StateTokens.EncodeBlobId(blob)[0] == 'B'
  {
    LettersAreSafe();
    var e := Json.Arr([Json.Str(email.mailbox), Json.Num(email.uidvalidity), Json.Num(email.uid)]);
    var b := Json.Arr([Json.Str(blob.mailbox), Json.Num(blob.uidvalidity), Json.Num(blob.uid), Json.Num(blob.part)]);
    TokenIsSafe("E", Json.Print(e));
    TokenIsSafe("B", Json.Print(b));
  }

  lemma {:induction false} ThreadIdsAreIds(h: ThreadIds.Headers, fallback: string)
    ensures IsId(ThreadIds.DeriveThreadId(h, fallback))
    ensures ThreadIds.DeriveThreadId(h, fallback)[..2] == if ThreadIds.Root(h).Some? then "TH" else "TL"
  {
    LettersAreSafe();
    TokenIsSafe("TH", if ThreadIds.Root(h).Some? then ThreadIds.Root(h).value else "");
    TokenIsSafe("TL", fallback);
  }
}

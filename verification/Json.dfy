/** The JSON inside ids and state tokens: compact, ASCII only, as `json.dumps` with separators "," and ":" writes it. */
module Json {
  import opened Wrappers

  datatype Value = Num(n: int) | Str(s: string) | Arr(items: seq<Value>) | Obj(members: seq<Member>)

  datatype Member = Member(key: string, value: Value)

  // ----- numbers -----

  predicate IsDigit(c: char) {
    '0' <= c <= '9'
  }

  function Digits(n: nat): (s: string)
    ensures s != [] && IsDigit(s[0])
  {
    if n < 10 then [(n + '0' as int) as char] else Digits(n / 10) + [(n % 10 + '0' as int) as char]
  }

  function PrintNum(n: int): string {
    if n < 0 then ['-'] + Digits(-n) else Digits(n)
  }

  function DigitRun(s: string): (n: nat)
    ensures n <= |s|
    ensures forall i :: 0 <= i < n ==> IsDigit(s[i])
  {
    if s == [] || !IsDigit(s[0]) then 0 else 1 + DigitRun(s[1..])
  }

  function FromDigits(s: string): nat
    requires forall i :: 0 <= i < |s| ==> IsDigit(s[i])
  {
    if s == [] then 0
    else
      assert IsDigit(s[|s| - 1]);
      FromDigits(s[..|s| - 1]) * 10 + (s[|s| - 1] as int - '0' as int)
  }

  /** A run of digits without a leading zero. */
  function ParseNat(s: string): (r: Option<(nat, string)>)
    ensures r.Some? ==> |r.value.1| < |s|
  {
    var n := DigitRun(s);
    if n == 0 || (s[0] == '0' && n != 1) then None else Some((FromDigits(s[..n]), s[n..]))
  }

  predicate EndsNumber(rest: string) {
    rest == [] || !IsDigit(rest[0])
  }

  lemma {:induction false} DigitsAreRead(n: nat)
    ensures forall i :: 0 <= i < |Digits(n)| ==> IsDigit(Digits(n)[i])
    ensures FromDigits(Digits(n)) == n
    ensures Digits(n)[0] == '0' ==> n == 0
  {
    var s := Digits(n);
    if 10 <= n {
      DigitsAreRead(n / 10);
      assert s[..|s| - 1] == Digits(n / 10);
    } else {
      assert s[..0] == [];
    }
  }

  lemma {:induction false} RunStops(s: string, rest: string)
    requires forall i :: 0 <= i < |s| ==> IsDigit(s[i])
    requires EndsNumber(rest)
    ensures DigitRun(s + rest) == |s|
  {
    if s == [] {
      assert s + rest == rest;
    } else {
      assert (s + rest)[1..] == s[1..] + rest;
      RunStops(s[1..], rest);
    }
  }

  lemma {:induction false} NatRoundTrip(n: nat, rest: string)
    requires EndsNumber(rest)
    ensures ParseNat(Digits(n) + rest) == Some((n, rest))
  {
    var s := Digits(n);
    DigitsAreRead(n);
    RunStops(s, rest);
    assert (s + rest)[..|s|] == s && (s + rest)[|s|..] == rest;
  }

  // ----- strings -----

  function HexDigit(n: nat): char
    requires n < 16
  {
    if n < 10 then (n + '0' as int) as char else (n - 10 + 'a' as int) as char
  }

  function HexValue(c: char): (r: Option<nat>)
    ensures r.Some? ==> r.value < 16
  {
    if '0' <= c <= '9' then Some(c as int - '0' as int)
    else if 'a' <= c <= 'f' then Some(c as int - 'a' as int + 10)
    else if 'A' <= c <= 'F' then Some(c as int - 'A' as int + 10)
    else None
  }

  function Hex(width: nat, n: nat): (s: string)
    ensures |s| == width
  {
    if width == 0 then [] else Hex(width - 1, n / 16) + [HexDigit(n % 16)]
  }

  function FromHex(s: string): Option<nat> {
    if s == [] then Some(0)
    else
      match (FromHex(s[..|s| - 1]), HexValue(s[|s| - 1]))
      case (Some(high), Some(low)) => Some(high * 16 + low)
      case _ => None
  }

  /** `\uXXXX`: one UTF-16 unit. */
  function Unit(n: nat): (s: string)
    ensures |s| == 6
  {
    ['\\', 'u'] + Hex(4, n)
  }

  function ParseUnit(s: string): Option<nat> {
    if |s| < 6 || s[0] != '\\' || s[1] != 'u' then None else FromHex(s[2..6])
  }

  predicate IsPlain(c: char) {
    ' ' <= c <= '~' && c != '"' && c != '\\'
  }

  const ESCAPES := map['"' := '"', '\\' := '\\', '\n' := 'n', '\r' := 'r', '\t' := 't', '\U{0C}' := 'f',
      '\U{08}' := 'b']
  const UNESCAPES := map['"' := '"', '\\' := '\\', '/' := '/', 'n' := '\n', 'r' := '\r', 't' := '\t', 'f' := '\U{0C}',
      'b' := '\U{08}']

  function Escape(c: char): string {
    if IsPlain(c) then [c]
    else if c in ESCAPES then ['\\', ESCAPES[c]]
    else
      var n := c as int;
      if n < 0x10000 then Unit(n)
      else Unit(0xD800 + (n - 0x10000) / 1024) + Unit(0xDC00 + (n - 0x10000) % 1024)
  }

  /** One character of a string's text. Two units of a surrogate pair are one character. */
  function ParseChar(s: string): (r: Option<(char, string)>)
    ensures r.Some? ==> |r.value.1| < |s|
  {
    if s == [] then None
    else if IsPlain(s[0]) then Some((s[0], s[1..]))
    else if s[0] != '\\' || |s| < 2 then None
    else if s[1] in UNESCAPES then Some((UNESCAPES[s[1]], s[2..]))
    else
      match ParseUnit(s)
      case None => None
      case Some(high) =>
        if high < 0xD800 || 0xE000 <= high < 0x10000 then Some((high as char, s[6..]))
        else
          match ParseUnit(s[6..])
          case None => None
          case Some(low) =>
            if 0xD800 <= high < 0xDC00 && 0xDC00 <= low < 0xE000
            then Some((((high - 0xD800) * 1024 + (low - 0xDC00) + 0x10000) as char, s[12..]))
            else None
  }

  function EscapeAll(s: string): string {
    if s == [] then [] else Escape(s[0]) + EscapeAll(s[1..])
  }

  function PrintStr(s: string): string {
    ['"'] + EscapeAll(s) + ['"']
  }

  /** The text of a string up to its closing quote. */
  function ParseText(s: string): (r: Option<(string, string)>)
    ensures r.Some? ==> |r.value.1| < |s|
    decreases |s|
  {
    if s == [] then None
    else if s[0] == '"' then Some(([], s[1..]))
    else
      match ParseChar(s)
      case None => None
      case Some((c, rest)) =>
        match ParseText(rest)
        case None => None
        case Some((text, tail)) => Some(([c] + text, tail))
  }

  function ParseStr(s: string): (r: Option<(string, string)>)
    ensures r.Some? ==> |r.value.1| < |s|
  {
    if s == [] || s[0] != '"' then None else ParseText(s[1..])
  }

  lemma {:induction false} HexDigitValue(n: nat)
    requires n < 16
    ensures HexValue(HexDigit(n)) == Some(n)
  {
  }

  function Power16(k: nat): nat {
    if k == 0 then 1 else 16 * Power16(k - 1)
  }

  lemma {:induction false} HexRoundTrip(width: nat, n: nat)
    requires n < Power16(width)
    ensures FromHex(Hex(width, n)) == Some(n)
  {
    if width > 0 {
      var s := Hex(width, n);
      HexRoundTrip(width - 1, n / 16);
      HexDigitValue(n % 16);
      assert s[..|s| - 1] == Hex(width - 1, n / 16);
    }
  }

  lemma {:induction false} UnitRoundTrip(n: nat, rest: string)
    requires n < 0x10000
    ensures ParseUnit(Unit(n) + rest) == Some(n) && (Unit(n) + rest)[6..] == rest
  {
    assert Power16(4) == 0x10000;
    HexRoundTrip(4, n);
    assert (Unit(n) + rest)[2..6] == Hex(4, n);
  }

  lemma {:induction false} UnitIsNoShortEscape(n: nat, rest: string)
    requires n < 0x10000
    ensures var s := Unit(n) + rest;
            ParseChar(s) == (if n < 0xD800 || 0xE000 <= n then Some((n as char, rest))
                             else match ParseUnit(rest)
                                  case None => None
                                  case Some(low) =>
                                    if n < 0xDC00 && 0xDC00 <= low < 0xE000
                                    then Some((((n - 0xD800) * 1024 + (low - 0xDC00) + 0x10000) as char, rest[6..]))
                                    else None)
  {
    var s := Unit(n) + rest;
    UnitRoundTrip(n, rest);
    assert s[0] == '\\' && s[1] == 'u' && !IsPlain('\\') && 'u' !in UNESCAPES;
    if ParseUnit(rest).Some? { assert s[12..] == rest[6..]; }
  }

  lemma {:induction false} PairRoundTrip(c: char, rest: string)
    requires 0x10000 <= c as int
    ensures var n := c as int - 0x10000;
            ParseChar(Unit(0xD800 + n / 1024) + (Unit(0xDC00 + n % 1024) + rest)) == Some((c, rest))
  {
    var n := c as int - 0x10000;
    assert n < 0x100000;
    var high, low := 0xD800 + n / 1024, 0xDC00 + n % 1024;
    UnitRoundTrip(low, rest);
    UnitIsNoShortEscape(high, Unit(low) + rest);
    assert (high - 0xD800) * 1024 + (low - 0xDC00) == n;
  }

  lemma {:induction false} EscapeRoundTrip(c: char, rest: string)
    ensures ParseChar(Escape(c) + rest) == Some((c, rest))
    ensures Escape(c) != [] && Escape(c)[0] != '"'
  {
    if IsPlain(c) {
      assert ([c] + rest)[1..] == rest;
    } else if c in ESCAPES {
      assert (Escape(c) + rest)[2..] == rest;
      assert ESCAPES[c] in UNESCAPES && UNESCAPES[ESCAPES[c]] == c;
    } else if c as int < 0x10000 {
      UnitIsNoShortEscape(c as int, rest);
    } else {
      var n := c as int - 0x10000;
      PairRoundTrip(c, rest);
      assert Escape(c) + rest == Unit(0xD800 + n / 1024) + (Unit(0xDC00 + n % 1024) + rest);
    }
  }

  lemma {:induction false} TextStep(c: char, more: string, text: string, rest: string)
    requires ParseText(more) == Some((text, rest))
    ensures ParseText(Escape(c) + more) == Some(([c] + text, rest))
  {
    EscapeRoundTrip(c, more);
  }

  lemma {:induction false} TextRoundTrip(s: string, rest: string)
    ensures ParseText(EscapeAll(s) + (['"'] + rest)) == Some((s, rest))
  {
    var tail := ['"'] + rest;
    if s == [] {
      assert EscapeAll(s) + tail == tail && tail[1..] == rest;
    } else {
      TextRoundTrip(s[1..], rest);
      TextStep(s[0], EscapeAll(s[1..]) + tail, s[1..], rest);
      assert EscapeAll(s) + tail == Escape(s[0]) + (EscapeAll(s[1..]) + tail);
      assert s == [s[0]] + s[1..];
    }
  }

  lemma {:induction false} PrintedStr(s: string, rest: string)
    ensures PrintStr(s) + rest == ['"'] + (EscapeAll(s) + (['"'] + rest))
  {
  }

  lemma {:induction false} QuotedStr(more: string)
    ensures ParseStr(['"'] + more) == ParseText(more)
  {
    assert (['"'] + more)[1..] == more;
  }

  lemma {:induction false} StrRoundTrip(s: string, rest: string)
    ensures ParseStr(PrintStr(s) + rest) == Some((s, rest))
  {
    PrintedStr(s, rest);
    QuotedStr(EscapeAll(s) + (['"'] + rest));
    TextRoundTrip(s, rest);
  }

  // ----- values -----

  function Print(v: Value): (s: string)
    ensures s != [] && s[0] != ']'
  {
    match v
    case Num(n) => PrintNum(n)
    case Str(s) => PrintStr(s)
    case Arr(items) => ['['] + PrintItems(items)
    case Obj(members) => ['{'] + PrintMembers(members)
  }

  /** The items of an array, with its closing bracket. */
  function PrintItems(items: seq<Value>): (s: string)
    ensures s != [] && (items != [] ==> s[0] != ']')
  {
    if items == [] then [']']
    else if |items| == 1 then Print(items[0]) + [']']
    else Print(items[0]) + ([','] + PrintItems(items[1..]))
  }

  function PrintMember(m: Member): string {
    PrintStr(m.key) + ([':'] + Print(m.value))
  }

  function PrintMembers(members: seq<Member>): (s: string)
    ensures s != [] && (members != [] ==> s[0] != '}')
  {
    if members == [] then ['}']
    else if |members| == 1 then PrintMember(members[0]) + ['}']
    else PrintMember(members[0]) + ([','] + PrintMembers(members[1..]))
  }

  function Parse(s: string): (r: Option<(Value, string)>)
    ensures r.Some? ==> |r.value.1| < |s|
    decreases |s|, 0
  {
    if s == [] then None
    else if s[0] == '"' then
      match ParseStr(s) case None => None case Some((t, rest)) => Some((Str(t), rest))
    else if s[0] == '[' then
      if 1 < |s| && s[1] == ']' then Some((Arr([]), s[2..]))
      else match ParseItems(s[1..]) case None => None case Some((items, rest)) => Some((Arr(items), rest))
    else if s[0] == '{' then
      if 1 < |s| && s[1] == '}' then Some((Obj([]), s[2..]))
      else match ParseMembers(s[1..]) case None => None case Some((members, rest)) => Some((Obj(members), rest))
    else if s[0] == '-' then
      match ParseNat(s[1..]) case None => None case Some((n, rest)) => Some((Num(0 - n as int), rest))
    else
      match ParseNat(s) case None => None case Some((n, rest)) => Some((Num(n), rest))
  }

  /** The items of an array up to its closing bracket. */
  function ParseItems(s: string): (r: Option<(seq<Value>, string)>)
    ensures r.Some? ==> |r.value.1| < |s|
    decreases |s|, 1
  {
    match Parse(s)
    case None => None
    case Some((v, rest)) =>
      if rest == [] then None
      else if rest[0] == ']' then Some(([v], rest[1..]))
      else if rest[0] != ',' then None
      else
        match ParseItems(rest[1..])
        case None => None
        case Some((items, tail)) => Some(([v] + items, tail))
  }

  function ParseMember(s: string): (r: Option<(Member, string)>)
    ensures r.Some? ==> |r.value.1| < |s|
    decreases |s|, 1
  {
    match ParseStr(s)
    case None => None
    case Some((key, rest)) =>
      if rest == [] || rest[0] != ':' then None
      else
        match Parse(rest[1..])
        case None => None
        case Some((v, tail)) => Some((Member(key, v), tail))
  }

  function ParseMembers(s: string): (r: Option<(seq<Member>, string)>)
    ensures r.Some? ==> |r.value.1| < |s|
    decreases |s|, 2
  {
    match ParseMember(s)
    case None => None
    case Some((m, rest)) =>
      if rest == [] then None
      else if rest[0] == '}' then Some(([m], rest[1..]))
      else if rest[0] != ',' then None
      else
        match ParseMembers(rest[1..])
        case None => None
        case Some((members, tail)) => Some(([m] + members, tail))
  }

  lemma {:induction false} NaturalStep(s: string, n: nat, rest: string)
    requires s != [] && IsDigit(s[0]) && ParseNat(s) == Some((n, rest))
    ensures Parse(s) == Some((Num(n), rest))
  {
  }

  lemma {:induction false} NegativeStep(s: string, n: nat, rest: string)
    requires ParseNat(s) == Some((n, rest))
    ensures Parse(['-'] + s) == Some((Num(0 - n as int), rest))
  {
    assert (['-'] + s)[1..] == s;
  }

  lemma {:induction false} PrintedNum(n: int, rest: string)
    ensures PrintNum(n) + rest == if n < 0 then ['-'] + (Digits(-n) + rest) else Digits(n) + rest
  {
  }

  lemma {:induction false} NumRoundTrip(n: int, rest: string)
    requires EndsNumber(rest)
    ensures Parse(PrintNum(n) + rest) == Some((Num(n), rest))
  {
    PrintedNum(n, rest);
    if n < 0 {
      NatRoundTrip(-n, rest);
      NegativeStep(Digits(-n) + rest, -n, rest);
    } else {
      NatRoundTrip(n, rest);
      assert IsDigit(Digits(n)[0]);
      NaturalStep(Digits(n) + rest, n, rest);
    }
  }

  /** Whatever is printed is read back, with what follows it left alone. */
  lemma {:induction false} ValueRoundTrip(v: Value, rest: string)
    requires EndsNumber(rest)
    ensures Parse(Print(v) + rest) == Some((v, rest))
    decreases v, 1
  {
    match v {
      case Num(n) => NumRoundTrip(n, rest);
      case Str(t) => StrRoundTrip(t, rest);
      case Arr(items) =>
        if items != [] { ItemsRoundTrip(items, rest); }
        ArrRoundTrip(items, rest);
      case Obj(members) =>
        if members != [] { MembersRoundTrip(members, rest); }
        ObjRoundTrip(members, rest);
    }
  }

  lemma {:induction false} ArrStep(text: string, items: seq<Value>, rest: string)
    requires text != []
    requires if items == [] then text == [']'] + rest else text[0] != ']' && ParseItems(text) == Some((items, rest))
    ensures Parse(['['] + text) == Some((Arr(items), rest))
  {
    var s := ['['] + text;
    assert s[1..] == text && s[1] == text[0];
    assert items == [] ==> s[2..] == rest;
  }

  lemma {:induction false} ArrRoundTrip(items: seq<Value>, rest: string)
    requires items != [] ==> ParseItems(PrintItems(items) + rest) == Some((items, rest))
    ensures Parse(['['] + PrintItems(items) + rest) == Some((Arr(items), rest))
  {
    ArrStep(PrintItems(items) + rest, items, rest);
    assert ['['] + PrintItems(items) + rest == ['['] + (PrintItems(items) + rest);
  }

  lemma {:induction false} ObjStep(text: string, members: seq<Member>, rest: string)
    requires text != []
    requires if members == [] then text == ['}'] + rest
             else text[0] != '}' && ParseMembers(text) == Some((members, rest))
    ensures Parse(['{'] + text) == Some((Obj(members), rest))
  {
    var s := ['{'] + text;
    assert s[1..] == text && s[1] == text[0];
    assert members == [] ==> s[2..] == rest;
  }

  lemma {:induction false} ObjRoundTrip(members: seq<Member>, rest: string)
    requires members != [] ==> ParseMembers(PrintMembers(members) + rest) == Some((members, rest))
    ensures Parse(['{'] + PrintMembers(members) + rest) == Some((Obj(members), rest))
  {
    ObjStep(PrintMembers(members) + rest, members, rest);
    assert ['{'] + PrintMembers(members) + rest == ['{'] + (PrintMembers(members) + rest);
  }

  /** The text after the first item. */
  function AfterItem(items: seq<Value>, rest: string): (more: string)
    requires items != []
    ensures EndsNumber(more) && more != []
  {
    if |items| == 1 then [']'] + rest else [','] + (PrintItems(items[1..]) + rest)
  }

  lemma {:induction false} ItemsSplit(items: seq<Value>, rest: string)
    requires items != []
    ensures PrintItems(items) + rest == Print(items[0]) + AfterItem(items, rest)
  {
  }

  lemma {:induction false} ItemsCons(text: string, items: seq<Value>, after: string, more: string, rest: string)
    requires items != [] && Parse(text) == Some((items[0], after))
    requires if |items| == 1 then after == [']'] + rest
             else after == [','] + more && ParseItems(more) == Some((items[1..], rest))
    ensures ParseItems(text) == Some((items, rest))
  {
    if |items| == 1 {
      assert after[0] == ']' && after[1..] == rest;
      assert items == [items[0]];
    } else {
      assert after[0] == ',' && after[1..] == more;
      assert items == [items[0]] + items[1..];
    }
  }

  lemma {:induction false} ItemsRoundTrip(items: seq<Value>, rest: string)
    requires items != []
    ensures ParseItems(PrintItems(items) + rest) == Some((items, rest))
    decreases items, 0
  {
    ItemsSplit(items, rest);
    ValueRoundTrip(items[0], AfterItem(items, rest));
    if |items| > 1 { ItemsRoundTrip(items[1..], rest); }
    ItemsCons(PrintItems(items) + rest, items, AfterItem(items, rest), PrintItems(items[1..]) + rest, rest);
  }

  lemma {:induction false} MemberStep(text: string, key: string, more: string, v: Value, rest: string)
    requires ParseStr(text) == Some((key, more)) && more != [] && more[0] == ':' && Parse(more[1..]) == Some((v, rest))
    ensures ParseMember(text) == Some((Member(key, v), rest))
  {
  }

  lemma {:induction false} MemberRoundTrip(m: Member, rest: string)
    requires EndsNumber(rest)
    ensures ParseMember(PrintMember(m) + rest) == Some((m, rest))
    decreases m, 0
  {
    var quoted, text := PrintStr(m.key), Print(m.value);
    var more := [':'] + (text + rest);
    StrRoundTrip(m.key, more);
    ValueRoundTrip(m.value, rest);
    assert more[1..] == text + rest;
    MemberStep(quoted + more, m.key, more, m.value, rest);
    assert (quoted + ([':'] + text)) + rest == quoted + more;
  }

  function AfterMember(members: seq<Member>, rest: string): (more: string)
    requires members != []
    ensures EndsNumber(more) && more != []
  {
    if |members| == 1 then ['}'] + rest else [','] + (PrintMembers(members[1..]) + rest)
  }

  lemma {:induction false} MembersSplit(members: seq<Member>, rest: string)
    requires members != []
    ensures PrintMembers(members) + rest == PrintMember(members[0]) + AfterMember(members, rest)
  {
  }

  lemma {:induction false} MembersCons(text: string, members: seq<Member>, after: string, more: string, rest: string)
    requires members != [] && ParseMember(text) == Some((members[0], after))
    requires if |members| == 1 then after == ['}'] + rest
             else after == [','] + more && ParseMembers(more) == Some((members[1..], rest))
    ensures ParseMembers(text) == Some((members, rest))
  {
    if |members| == 1 {
      assert after[0] == '}' && after[1..] == rest;
      assert members == [members[0]];
    } else {
      assert after[0] == ',' && after[1..] == more;
      assert members == [members[0]] + members[1..];
    }
  }

  lemma {:induction false} MembersRoundTrip(members: seq<Member>, rest: string)
    requires members != []
    ensures ParseMembers(PrintMembers(members) + rest) == Some((members, rest))
    decreases members, 0
  {
    MembersSplit(members, rest);
    MemberRoundTrip(members[0], AfterMember(members, rest));
    if |members| > 1 { MembersRoundTrip(members[1..], rest); }
    MembersCons(PrintMembers(members) + rest, members, AfterMember(members, rest), PrintMembers(members[1..]) + rest,
        rest);
  }

  function ParseAll(s: string): Option<Value> {
    match Parse(s)
    case None => None
    case Some((v, rest)) => if rest == [] then Some(v) else None
  }

  lemma {:induction false} JsonRoundTrip(v: Value)
    ensures ParseAll(Print(v)) == Some(v)
  {
    ValueRoundTrip(v, []);
    assert Print(v) + [] == Print(v);
  }
}

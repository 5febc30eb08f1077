/** Percent-encoding of URI components, section 2.1 of RFC 3986. */
module UriCodec {

  /** The octets that are sent as they are. */
  predicate Unescaped(c: char) {
    'A' <= c <= 'Z' || 'a' <= c <= 'z' || '0' <= c <= '9' || c == '-' || c == '_' || c == '!' || c == '~' ||
    c == '*' || c == '\'' || c == '(' || c == ')' || c == '.'
  }

  predicate IsOctet(c: char) {
    c as int < 256
  }

  predicate Octets(s: string) {
    forall i :: 0 <= i < |s| ==> IsOctet(s[i])
  }

  function ToHexDigit(x: nat): char
    requires x < 16
  {
    if x < 10 then (x + '0' as int) as char else (x - 10 + 'A' as int) as char
  }

  /**
   The digit's value for the digits that the encoder uses; the source checks nothing. A `char`
   is signed there, so that an octet from 128 on is below every digit.
   */
  function FromHexDigit(c: char): int {
    if c <= '9' || c as int >= 128 then c as int - '0' as int else c as int - 'A' as int + 10
  }

  predicate IsHexDigit(c: char) {
    '0' <= c <= '9' || 'A' <= c <= 'F'
  }

  function EncodeOctet(c: char): (r: string)
    requires IsOctet(c)
    ensures Unescaped(c) ==> r == [c]
    ensures !Unescaped(c) ==> |r| == 3 && r[0] == '%' && IsHexDigit(r[1]) && IsHexDigit(r[2]) &&
                              FromHexDigit(r[1]) * 16 + FromHexDigit(r[2]) == c as int
  {
    if Unescaped(c) then [c] else ['%', ToHexDigit(c as int / 16), ToHexDigit(c as int % 16)]
  }

  function EncodeAll(s: string): string
    requires Octets(s)
  {
    if s == [] then "" else EncodeAll(s[..|s| - 1]) + EncodeOctet(s[|s| - 1])
  }

  method EncodeUriComponent(s: string) returns (ret: string)
    requires Octets(s)
    ensures ret == EncodeAll(s)
  {
    ret := "";
    for i := 0 to |s|
      invariant ret == EncodeAll(s[..i])
    {
      var item := s[i];
      assert s[..i + 1][..i] == s[..i];
      if Unescaped(item) {
        ret := ret + [item];
      } else {
        var msb, lsb := item as int / 16, item as int % 16;
        ret := ret + ['%', ToHexDigit(msb), ToHexDigit(lsb)];
      }
    }
    assert s[..|s|] == s;
  }

  // ---- Decoding: a machine over single octets ----

  datatype State = Normal | Escape1 | Escape2(high: nat)

  datatype Decoder = Decoder(state: State, ret: string)

  /** The low eight bits, as assigning to a `char` keeps them. */
  function Low8(x: int): (r: nat)
    ensures r < 256
  {
    x % 256
  }

  /** Bitwise or. */
  function BitOr(a: nat, b: nat): nat {
    if a == 0 && b == 0 then 0
    else BitOr(a / 2, b / 2) * 2 + if a % 2 == 1 || b % 2 == 1 then 1 else 0
  }

  function ToOctet(x: nat): char {
    Low8(x) as char
  }

  function Step(d: Decoder, c: char): Decoder {
    match d.state
    case Normal => if c == '%' then d.(state := Escape1) else d.(ret := d.ret + [c])
    case Escape1 => d.(state := Escape2(Low8(FromHexDigit(c) * 16)))
    case Escape2(high) => Decoder(Normal, d.ret + [ToOctet(BitOr(high, Low8(FromHexDigit(c))))])
  }

  function Feed(d: Decoder, s: string): Decoder
    decreases s
  {
    if s == [] then d else Feed(Step(d, s[0]), s[1..])
  }

  function Decode(s: string): string {
    Feed(Decoder(Normal, ""), s).ret
  }

  method DecodeUriComponent(s: string) returns (ret: string)
    ensures ret == Decode(s)
  {
    ret := "";
    var currentState := Normal;
    for i := 0 to |s|
      invariant Feed(Decoder(currentState, ret), s[i..]) == Feed(Decoder(Normal, ""), s)
    {
      var item := s[i];
      assert s[i..][0] == item && s[i..][1..] == s[i + 1..];
      match currentState
      case Normal =>
        if item == '%' { currentState := Escape1; } else { ret := ret + [item]; }
      case Escape1 => currentState := Escape2(Low8(FromHexDigit(item) * 16));
      case Escape2(high) =>
        ret := ret + [ToOctet(BitOr(high, Low8(FromHexDigit(item))))];
        currentState := Normal;
    }
  }

  // ---- Properties ----

  lemma {:induction false} FeedConcat(d: Decoder, a: string, b: string)
    ensures Feed(d, a + b) == Feed(Feed(d, a), b)
    decreases a
  {
    if a == [] {
      assert a + b == b;
    } else {
      assert (a + b)[0] == a[0] && (a + b)[1..] == a[1..] + b;
      FeedConcat(Step(d, a[0]), a[1..], b);
    }
  }

  lemma {:induction false} BitOrZero(a: nat)
    ensures BitOr(a, 0) == a
  {
    if a != 0 { BitOrZero(a / 2); }
  }

  lemma BitOrOfEven(a: nat, b: nat)
    ensures BitOr(2 * a, b) == BitOr(a, b / 2) * 2 + b % 2
  {
  }

  lemma OrOfShifted(high: nat, l: nat)
    ensures BitOr(high * 16, l) == BitOr(high, l / 16) * 16 + l % 16
  {
    hide BitOr;
    OrOfQuarters(high * 4, l);
    OrOfQuarters(high, l / 4);
  }

  lemma OrOfQuarters(a: nat, b: nat)
    ensures BitOr(a * 4, b) == BitOr(a, b / 4) * 4 + b % 4
  {
    hide BitOr;
    BitOrOfEven(a * 2, b);
    BitOrOfEven(a, b / 2);
  }

  /** The two halves of an octet do not overlap. */
  lemma BitOrOfNibbles(a: nat, b: nat)
    requires a < 16 && b < 16
    ensures BitOr(Low8(a * 16), b) == a * 16 + b
  {
    hide BitOr;
    OrOfShifted(a, b);
    BitOrZero(a);
  }

  lemma DecodesOctet(ret: string, c: char)
    requires IsOctet(c)
    ensures Feed(Decoder(Normal, ret), EncodeOctet(c)) == Decoder(Normal, ret + [c])
  {
    hide BitOr;
    var r := EncodeOctet(c);
    var d := Decoder(Normal, ret);
    if Unescaped(c) {
      assert r[1..] == [];
    } else {
      var d1 := Step(d, r[0]);
      var d2 := Step(d1, r[1]);
      BitOrOfNibbles(FromHexDigit(r[1]), FromHexDigit(r[2]));
      assert r[1..][0] == r[1] && r[1..][1..] == [r[2]] && [r[2]][1..] == [];
      assert Feed(d1, r[1..]) == Feed(d2, [r[2]]);
      assert Feed(d2, [r[2]]) == Feed(Step(d2, r[2]), []);
    }
  }

  /** Decoding undoes encoding, for every string of octets. */
  lemma {:induction false} DecodeUndoesEncode(s: string)
    requires Octets(s)
    ensures Decode(EncodeAll(s)) == s
    ensures Feed(Decoder(Normal, ""), EncodeAll(s)) == Decoder(Normal, s)
  {
    if s != [] {
      var front, c := s[..|s| - 1], s[|s| - 1];
      DecodeUndoesEncode(front);
      FeedConcat(Decoder(Normal, ""), EncodeAll(front), EncodeOctet(c));
      DecodesOctet(front, c);
      assert front + [c] == s;
    }
  }

  lemma {:induction false} EncodeDistributes(a: string, b: string)
    requires Octets(a) && Octets(b)
    ensures Octets(a + b) && EncodeAll(a + b) == EncodeAll(a) + EncodeAll(b)
    decreases b
  {
    hide EncodeOctet;
    if b == [] {
      assert a + b == a;
    } else {
      var front, c := b[..|b| - 1], b[|b| - 1];
      EncodeDistributes(a, front);
      assert (a + b)[..|a + b| - 1] == a + front;
      assert EncodeAll(a) + EncodeAll(front) + EncodeOctet(c) == EncodeAll(a) + (EncodeAll(front) + EncodeOctet(c));
    }
  }

  /** Different strings have different encodings. */
  lemma EncodeIsInjective(a: string, b: string)
    requires Octets(a) && Octets(b) && EncodeAll(a) == EncodeAll(b)
    ensures a == b
  {
    DecodeUndoesEncode(a);
    DecodeUndoesEncode(b);
  }

  // ---- What was not written by the encoder ----

  lemma {:induction false} OutputGrows(d: Decoder, s: string)
    ensures Feed(d, s).ret == d.ret + Feed(d.(ret := ""), s).ret
    decreases s
  {
    hide BitOr, FromHexDigit;
    if s != [] {
      var e, f := Step(d, s[0]), Step(d.(ret := ""), s[0]);
      OutputGrows(e, s[1..]);
      OutputGrows(f, s[1..]);
    }
  }

  /** Triplet by triplet, and what is not one octet by octet; an incomplete triplet at the end gives nothing. */
  lemma DecodeUnfolds(s: string)
    ensures Decode(s) ==
            if s == "" then ""
            else if s[0] != '%' then [s[0]] + Decode(s[1..])
            else if |s| < 3 then ""
            else Decode(s[..3]) + Decode(s[3..])
  {
    var start := Decoder(Normal, "");
    if s != "" && s[0] != '%' {
      OutputGrows(Step(start, s[0]), s[1..]);
    } else if |s| >= 3 {
      SplitsAfterTriplet(s);
    } else if |s| == 1 {
      assert s[1..] == [] && Feed(start, s) == Feed(Step(start, s[0]), []);
    } else if |s| == 2 {
      assert s[1..] == [s[1]] && [s[1]][1..] == [];
      assert Feed(start, s) == Feed(Step(start, s[0]), [s[1]]) == Feed(Step(Step(start, s[0]), s[1]), []);
    }
  }

  lemma SplitsAfterTriplet(s: string)
    requires |s| >= 3 && s[0] == '%'
    ensures Decode(s) == Decode(s[..3]) + Decode(s[3..])
  {
    hide Feed;
    var start := Decoder(Normal, "");
    assert s == s[..3] + s[3..];
    FeedConcat(start, s[..3], s[3..]);
    TripletEnds(s[0], s[1], s[2]);
    assert s[..3] == [s[0], s[1], s[2]];
    OutputGrows(Feed(start, s[..3]), s[3..]);
  }

  lemma TripletEnds(c: char, a: char, b: char)
    requires c == '%'
    ensures Feed(Decoder(Normal, ""), [c, a, b]) ==
            Decoder(Normal, [ToOctet(BitOr(Low8(FromHexDigit(a) * 16), Low8(FromHexDigit(b))))])
  {
    hide BitOr, FromHexDigit;
    var start := Decoder(Normal, "");
    assert [c, a, b][1..] == [a, b] && [a, b][1..] == [b] && [b][1..] == [];
    assert Feed(start, [c, a, b]) == Feed(Step(start, c), [a, b]) == Feed(Step(Step(start, c), a), [b]);
  }

  /** The value of a digit in either letter case, or 16. */
  function HexValue(c: char): nat {
    if '0' <= c <= '9' then c as int - '0' as int
    else if 'A' <= c <= 'F' then c as int - 'A' as int + 10
    else if 'a' <= c <= 'f' then c as int - 'a' as int + 10
    else 16
  }

  lemma OrWithTwo(a: nat)
    requires a < 16
    ensures BitOr(a, 2) == a <==> a % 4 >= 2
  {
    BitOrZero(a / 4);
    assert BitOr(a / 2, 1) == BitOr(a / 4, 0) * 2 + 1;
    assert BitOr(a, 2) == BitOr(a / 2, 1) * 2 + a % 2;
  }

  lemma LowBitsOf(x: int)
    ensures Low8(x) % 16 == x % 16 && Low8(x * 16) == x % 16 * 16
    ensures 0 <= x < 256 ==> Low8(x) == x
  {
    var q := x / 16;
    assert x == q * 16 + x % 16;
    assert Low8(x * 16) == x % 16 * 16 by { assert x * 16 == q * 256 + x % 16 * 16; }
    assert x / 256 * 256 == x / 256 * 16 * 16;
  }

  /**
   Section 2.1 of RFC 3986 gives a triplet the same meaning in either letter case. The decoder
   does not: it is right about a triplet exactly if the second digit is not a small letter, or
   the octet has bit 5 set, which such a letter turns on.
   */
  lemma TripletMeaning(a: char, b: char)
    requires HexValue(a) < 16 && HexValue(b) < 16
    ensures Decode(['%', a, b]) == [(HexValue(a) * 16 + HexValue(b)) as char] <==> !('a' <= b <= 'f') || HexValue(a) % 4 >= 2
  {
    hide BitOr, Feed, FromHexDigit, HexValue, Low8;
    TripletEnds('%', a, b);
    HexDigitIsTaken(a);
    HexDigitIsTaken(b);
    var high, low := HexValue(a), HexValue(b);
    var l := if 'a' <= b <= 'f' then 32 + low else low;
    LowBitsOf(FromHexDigit(a));
    LowBitsOf(l);
    OrOfShifted(high, l);
    OrWithTwo(high);
    OrIsSmall(high);
    BitOrZero(high);
    LowBitsOf(BitOr(high, l / 16) * 16 + low);
  }

  /** Small letters are taken for digits that are too large by 32. */
  lemma HexDigitIsTaken(c: char)
    requires HexValue(c) < 16
    ensures FromHexDigit(c) == (if 'a' <= c <= 'f' then 32 else 0) + HexValue(c) && FromHexDigit(c) % 16 == HexValue(c)
  {
  }

  /** The four low bits of what a character is taken for as a digit: those of its code, letters moved by nine. */
  function LowBits(c: char): nat {
    if '9' < c && c as int < 128 then (c as int + 9) % 16 else c as int % 16
  }

  lemma LowBitsOfSum(high: int, low: nat)
    requires low < 16
    ensures (high * 16 + low) % 16 == low
  {
  }

  lemma LowBitsOfDigit(c: char)
    requires IsOctet(c)
    ensures FromHexDigit(c) % 16 == LowBits(c)
    ensures !('a' <= c <= 'f') && HexValue(c) < 16 ==> FromHexDigit(c) == LowBits(c)
  {
    var n := if '9' < c && c as int < 128 then c as int + 9 else c as int;
    var shift := if '9' < c && c as int < 128 then 4 else 3;
    assert FromHexDigit(c) == (n / 16 - shift) * 16 + n % 16;
    LowBitsOfSum(n / 16 - shift, n % 16);
  }

  /** Nothing is checked: any two octets behind a percent sign give one octet, with the low bits of the second. */
  lemma AnyTriplet(a: char, b: char)
    requires IsOctet(a) && IsOctet(b)
    ensures |Decode(['%', a, b])| == 1 && Decode(['%', a, b])[0] as int % 16 == LowBits(b)
    ensures !('a' <= b <= 'f') && HexValue(b) < 16 ==> Decode(['%', a, b])[0] as int == LowBits(a) * 16 + LowBits(b)
  {
    hide BitOr, Feed, FromHexDigit, LowBits, Low8;
    TripletEnds('%', a, b);
    LowBitsOfDigit(a);
    LowBitsOfDigit(b);
    LowBitsOf(FromHexDigit(a));
    LowBitsOf(FromHexDigit(b));
    var l := Low8(FromHexDigit(b));
    OrOfShifted(LowBits(a), l);
    BitOrZero(LowBits(a));
    LowBitsOf(BitOr(LowBits(a), l / 16) * 16 + l % 16);
    LowBitsOfSum(BitOr(LowBits(a), l / 16), l % 16);
  }

  lemma OrIsSmall(a: nat)
    requires a < 16
    ensures BitOr(a, 2) < 16
  {
    BitOrZero(a / 4);
    assert BitOr(a / 2, 1) == BitOr(a / 4, 0) * 2 + 1;
  }

  /** The shape of encoded text: unescaped octets and `%XX` with upper-case digits. */
  predicate WellEncoded(s: string)
    decreases s
  {
    s == [] ||
    (if s[0] == '%' then |s| >= 3 && IsHexDigit(s[1]) && IsHexDigit(s[2]) && WellEncoded(s[3..])
     else Unescaped(s[0]) && WellEncoded(s[1..]))
  }

  lemma {:induction false} WellEncodedConcat(a: string, b: string)
    requires WellEncoded(a) && WellEncoded(b)
    ensures WellEncoded(a + b)
    decreases a
  {
    if a == [] {
      assert a + b == b;
    } else if a[0] == '%' {
      assert (a + b)[3..] == a[3..] + b;
      WellEncodedConcat(a[3..], b);
    } else {
      assert (a + b)[1..] == a[1..] + b;
      WellEncodedConcat(a[1..], b);
    }
  }

  lemma {:induction false} EncodedShape(s: string)
    requires Octets(s)
    ensures WellEncoded(EncodeAll(s)) && |s| <= |EncodeAll(s)| <= 3 * |s|
  {
    if s != [] {
      var c := s[|s| - 1];
      EncodedShape(s[..|s| - 1]);
      var r := EncodeOctet(c);
      assert WellEncoded(r) by {
        if Unescaped(c) { assert r[1..] == []; } else { assert r[3..] == []; }
      }
      WellEncodedConcat(EncodeAll(s[..|s| - 1]), r);
    }
  }
}

/** The hexadecimal form in which checkpoint state is stored. */
module HexState {
  import opened Keys
  import opened Codecs

  /** Two lower-case digits per byte. */
  function Encode(bs: seq<Byte>): string {
    if bs == [] then "" else [HexDigit(bs[0] / 16), HexDigit(bs[0] % 16)] + Encode(bs[1..])
  }

  /** A failed decode either reports a bad pair of characters or, on a lone last one, panics. */
  datatype Outcome = Bytes(bs: seq<Byte>) | BadPair | Panic

  /** The digit's value in either case; -1 for any other character. */
  function DigitValue(ch: char): (d: int)
    ensures -1 <= d < 16
  {
    if '0' <= ch <= '9' then (ch - '0') as int
    else if 'a' <= ch <= 'f' then (ch - 'a') as int + 10
    else if 'A' <= ch <= 'F' then (ch - 'A') as int + 10
    else -1
  }

  /** The integer parser also takes a plus sign before a single digit. */
  function PairValue(a: char, b: char): (v: int)
    ensures -1 <= v < 256
  {
    if DigitValue(b) < 0 then -1
    else if a == '+' then DigitValue(b)
    else if DigitValue(a) < 0 then -1
    else 16 * DigitValue(a) + DigitValue(b)
  }

  /** Pairs are read in order and the first failure ends the decode. */
  function Decode(s: string): Outcome {
    if s == "" then Bytes([])
    else if |s| == 1 then Panic
    else
      var v := PairValue(s[0], s[1]);
      if v < 0 then BadPair
      else
        var rest := Decode(s[2..]);
        if rest.Bytes? then Bytes([v] + rest.bs) else rest
  }

  lemma DigitRoundTrip(d: nat)
    requires d < 16
    ensures DigitValue(HexDigit(d)) == d && HexDigit(d) != '+'
  {
  }

  /** Every byte string is decoded from its encoding. */
  lemma {:induction false} RoundTrip(bs: seq<Byte>)
    ensures Decode(Encode(bs)) == Bytes(bs)
    decreases |bs|
  {
    if bs != [] {
      var s := Encode(bs);
      DigitRoundTrip(bs[0] / 16);
      DigitRoundTrip(bs[0] % 16);
      RoundTrip(bs[1..]);
      assert s[2..] == Encode(bs[1..]);
    }
  }

  /** Byte i is at characters 2i and 2i + 1, the high digit first, in lower case. */
  lemma {:induction false} EncodedText(bs: seq<Byte>, i: nat)
    requires i < |bs|
    ensures |Encode(bs)| == 2 * |bs|
    ensures 16 * DigitValue(Encode(bs)[2 * i]) + DigitValue(Encode(bs)[2 * i + 1]) == bs[i]
    ensures LowerHex(Encode(bs)[2 * i]) && LowerHex(Encode(bs)[2 * i + 1])
    decreases |bs|
  {
    var s := Encode(bs);
    DigitRoundTrip(bs[0] / 16);
    DigitRoundTrip(bs[0] % 16);
    if |bs| > 1 {
      EncodedText(bs[1..], if i > 0 then i - 1 else 0);
      assert s[2..] == Encode(bs[1..]);
      if i > 0 { assert s[2 * i] == s[2..][2 * (i - 1)] && s[2 * i + 1] == s[2..][2 * (i - 1) + 1]; }
    }
  }

  /** The number that a text of hexadecimal digits denotes. */
  function HexValue(s: string): int {
    if s == "" then 0 else 16 * HexValue(s[..|s| - 1]) + DigitValue(s[|s| - 1])
  }

  lemma {:induction false} HexDenotes(n: nat, w: nat)
    requires n < Pow16(w)
    ensures HexValue(Hex(n, w)) == n
    ensures forall i :: 0 <= i < w ==> LowerHex(Hex(n, w)[i])
    decreases w
  {
    if w > 0 {
      HexDenotes(n / 16, w - 1);
      DigitRoundTrip(n % 16);
      assert Hex(n, w)[..w - 1] == Hex(n / 16, w - 1);
    }
  }

  /** The text of a sequence number is sixteen lower-case hexadecimal digits that denote it. */
  lemma SeqTextDenotes(n: nat)
    requires n <= U64_MAX
    ensures |SeqText(n)| == 16 && HexValue(SeqText(n)) == n
    ensures forall i :: 0 <= i < 16 ==> LowerHex(SeqText(n)[i])
  {
    SixteenDigitsHoldU64();
    FixedWidthDenotes(n, 16);
  }

  lemma FixedWidthDenotes(n: nat, w: nat)
    requires n < Pow16(w) && w >= 1
    ensures |Padded(HexText(n), w)| == w && HexValue(Padded(HexText(n), w)) == n
    ensures forall i :: 0 <= i < w ==> LowerHex(Padded(HexText(n), w)[i])
  {
    PaddedIsHex(n, w);
    HexDenotes(n, w);
  }

  predicate IsHexDigit(ch: char) {
    '0' <= ch <= '9' || 'a' <= ch <= 'f' || 'A' <= ch <= 'F'
  }

  /** Two hexadecimal digits, or a plus sign and one. */
  predicate GoodPair(a: char, b: char) {
    (IsHexDigit(a) || a == '+') && IsHexDigit(b)
  }

  predicate GoodPairs(s: string) {
    |s| % 2 == 0 && forall i :: 0 <= i < |s| / 2 ==> GoodPair(s[2 * i], s[2 * i + 1])
  }

  lemma PairIsGoodIff(a: char, b: char)
    ensures PairValue(a, b) >= 0 <==> GoodPair(a, b)
  {
  }

  /** A digit has the value of its place, in either case. */
  lemma DigitIs(ch: char, d: nat)
    requires d < 16 && (ch == "0123456789abcdef"[d] || ch == "0123456789ABCDEF"[d])
    ensures DigitValue(ch) == d
  {
  }

  lemma {:induction false} GoodPairsTail(s: string)
    requires |s| >= 2
    ensures GoodPairs(s) <==> GoodPair(s[0], s[1]) && GoodPairs(s[2..])
  {
    var t := s[2..];
    if GoodPairs(s) {
      assert GoodPair(s[2 * 0], s[2 * 0 + 1]);
      forall i | 0 <= i < |t| / 2 ensures GoodPair(t[2 * i], t[2 * i + 1]) {
        assert GoodPair(s[2 * (i + 1)], s[2 * (i + 1) + 1]);
      }
    }
    if GoodPair(s[0], s[1]) && GoodPairs(t) {
      forall i | 0 <= i < |s| / 2 ensures GoodPair(s[2 * i], s[2 * i + 1]) {
        if i > 0 { assert GoodPair(t[2 * (i - 1)], t[2 * (i - 1) + 1]); }
      }
    }
  }

  /** Decoding succeeds exactly on an even number of characters that pair up well. */
  lemma {:induction false} DecodesIff(s: string)
    ensures Decode(s).Bytes? <==> GoodPairs(s)
    decreases |s|
  {
    if |s| >= 2 {
      GoodPairsTail(s);
      PairIsGoodIff(s[0], s[1]);
      DecodesIff(s[2..]);
    }
  }

  /** Byte i is the value of characters 2i and 2i + 1, the high digit first. */
  lemma {:induction false} DecodedBytes(s: string, i: nat)
    requires Decode(s).Bytes? && i < |Decode(s).bs|
    ensures |s| == 2 * |Decode(s).bs|
    ensures Decode(s).bs[i]
         == (if s[2 * i] == '+' then 0 else 16 * DigitValue(s[2 * i])) + DigitValue(s[2 * i + 1])
    decreases |s|
  {
    var rest := s[2..];
    if |rest| >= 2 {
      DecodedBytes(rest, if i > 0 then i - 1 else 0);
      if i > 0 { assert s[2 * i] == rest[2 * (i - 1)] && s[2 * i + 1] == rest[2 * (i - 1) + 1]; }
    }
  }

  predicate LowerHex(ch: char) {
    '0' <= ch <= '9' || 'a' <= ch <= 'f'
  }

  lemma DigitText(ch: char)
    requires DigitValue(ch) >= 0
    ensures HexDigit(DigitValue(ch)) == ch <==> LowerHex(ch)
  {
  }

  lemma PairText(a: char, b: char)
    requires PairValue(a, b) >= 0
    ensures (HexDigit(PairValue(a, b) / 16) == a && HexDigit(PairValue(a, b) % 16) == b) <==> LowerHex(a) && LowerHex(b)
  {
    DigitText(b);
    DigitRoundTrip(PairValue(a, b) / 16);
    if a != '+' { DigitText(a); }
  }

  /** Encoding what was decoded gives the text back exactly when it is all lower-case digits. */
  lemma {:induction false} TextRoundTripIff(s: string)
    requires Decode(s).Bytes?
    ensures Encode(Decode(s).bs) == s <==> forall i :: 0 <= i < |s| ==> LowerHex(s[i])
    decreases |s|
  {
    if |s| >= 2 {
      var bs := Decode(s).bs;
      PairText(s[0], s[1]);
      TextRoundTripIff(s[2..]);
      assert bs[1..] == Decode(s[2..]).bs;
      assert s == [s[0], s[1]] + s[2..];
    }
  }
}

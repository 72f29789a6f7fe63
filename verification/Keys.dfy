/** Storage keys are byte strings. A key is modelled as a string whose characters
    stand for its bytes, so the order of keys is the order of their characters. */
module Keys {

  type Key = string

  /** Byte-lexicographic order; a proper prefix comes before its extensions. */
  predicate Less(a: Key, b: Key) {
    if b == "" then false
    else if a == "" then true
    else a[0] < b[0] || (a[0] == b[0] && Less(a[1..], b[1..]))
  }

  lemma {:induction false} LessTrichotomy(a: Key, b: Key)
    ensures a == b || Less(a, b) || Less(b, a)
    ensures !(Less(a, b) && Less(b, a))
    ensures a == b ==> !Less(a, b)
  {
    if a != "" && b != "" {
      LessTrichotomy(a[1..], b[1..]);
      assert a == [a[0]] + a[1..] && b == [b[0]] + b[1..];
    }
  }

  lemma {:induction false} LessTransitive(a: Key, b: Key, c: Key)
    requires Less(a, b) && Less(b, c)
    ensures Less(a, c)
  {
    if a != "" && b != "" && c != "" && a[0] == b[0] == c[0] {
      LessTransitive(a[1..], b[1..], c[1..]);
    }
  }

  lemma {:induction false} LessAfterPrefix(p: Key, a: Key, b: Key)
    ensures Less(p + a, p + b) <==> Less(a, b)
  {
    if p == "" {
      assert p + a == a && p + b == b;
    } else {
      assert (p + a)[1..] == p[1..] + a && (p + b)[1..] == p[1..] + b;
      LessAfterPrefix(p[1..], a, b);
    }
  }

  predicate StrictlyAscending(ks: seq<Key>) {
    forall i, j :: 0 <= i < j < |ks| ==> Less(ks[i], ks[j])
  }

  predicate IsLeast(m: Key, ks: set<Key>) {
    m in ks && forall k :: k in ks && k != m ==> Less(m, k)
  }

  lemma {:induction false} LeastExists(ks: set<Key>)
    requires ks != {}
    ensures exists m :: IsLeast(m, ks)
  {
    var x :| x in ks;
    if ks == {x} {
      assert IsLeast(x, ks);
    } else {
      LeastExists(ks - {x});
      var m :| IsLeast(m, ks - {x});
      LessTrichotomy(x, m);
      if Less(x, m) {
        forall k | k in ks && k != x ensures Less(x, k) {
          if k != m { LessTransitive(x, m, k); }
        }
        assert IsLeast(x, ks);
      } else {
        assert IsLeast(m, ks);
      }
    }
  }

  lemma LeastIsUnique(ks: set<Key>)
    ensures forall m, n :: IsLeast(m, ks) && IsLeast(n, ks) ==> m == n
  {
    forall m, n | IsLeast(m, ks) && IsLeast(n, ks) ensures m == n {
      LessTrichotomy(m, n);
    }
  }

  /** The keys of a set in ascending byte order: the order in which a scan lists them. */
  function Ascending(ks: set<Key>): (s: seq<Key>)
    ensures forall k :: k in s <==> k in ks
    ensures StrictlyAscending(s)
  {
    if ks == {} then [] else
      LeastExists(ks);
      LeastIsUnique(ks);
      var m :| IsLeast(m, ks);
      [m] + Ascending(ks - {m})
  }

  lemma AscendingIsDistinct(s: seq<Key>)
    requires StrictlyAscending(s)
    ensures forall i, j :: 0 <= i < j < |s| ==> s[i] != s[j]
  {
    forall i, j | 0 <= i < j < |s| ensures s[i] != s[j] {
      LessTrichotomy(s[i], s[j]);
    }
  }

  /** An ascending listing is determined by the keys it lists. */
  lemma {:induction false} AscendingIsUnique(s: seq<Key>, t: seq<Key>)
    requires StrictlyAscending(s) && StrictlyAscending(t)
    requires forall k :: k in s <==> k in t
    ensures s == t
  {
    assert s == [] <==> t == [] by {
      if s != [] { assert s[0] in t; }
      if t != [] { assert t[0] in s; }
    }
    if s != [] {
      AscendingIsDistinct(s);
      AscendingIsDistinct(t);
      assert s[0] in t && t[0] in s;
      if s[0] != t[0] {
        LessTrichotomy(s[0], t[0]);
        assert false;
      }
      forall k ensures k in s[1..] <==> k in t[1..] {
        assert k in s <==> k == s[0] || k in s[1..];
        assert k in t <==> k == t[0] || k in t[1..];
      }
      AscendingIsUnique(s[1..], t[1..]);
      assert s == [s[0]] + s[1..] && t == [t[0]] + t[1..];
    }
  }

  predicate SlashFree(s: string) {
    '/' !in s
  }

  /** The first path component and the rest can be read back when the component has no slash. */
  lemma SplitAtSlash(a: string, x: string, b: string, y: string)
    requires SlashFree(a) && SlashFree(b)
    requires a + "/" + x == b + "/" + y
    ensures a == b && x == y
  {
    var s, t := a + "/" + x, b + "/" + y;
    assert s[|a|] == '/' && forall i :: 0 <= i < |a| ==> s[i] == a[i];
    assert t[|b|] == '/' && forall i :: 0 <= i < |b| ==> t[i] == b[i];
    assert |a| == |b|;
    assert s[..|a|] == a && t[..|b|] == b;
    assert s[|a| + 1..] == x && t[|b| + 1..] == y;
  }

  /** The same for a prefix of a path. */
  lemma PrefixAtSlash(a: string, x: string, b: string, y: string)
    requires SlashFree(a) && SlashFree(b)
    requires a + "/" + x <= b + "/" + y
    ensures a == b && x <= y
  {
    var s, t := a + "/" + x, b + "/" + y;
    assert s[|a|] == t[|a|] == '/' && forall i :: 0 <= i < |a| ==> s[i] == a[i];
    assert t[|b|] == '/' && forall i :: 0 <= i < |b| ==> t[i] == b[i];
    assert |a| == |b|;
    var z := t[|s|..];
    assert t == a + "/" + (x + z);
    SplitAtSlash(a, x + z, b, y);
  }

  lemma CancelPrefix(p: string, x: string, y: string)
    requires p + x == p + y
    ensures x == y
  {
    assert (p + x)[|p|..] == x && (p + y)[|p|..] == y;
  }

  // ---- numbers inside keys ----

  function DecimalDigit(d: nat): char
    requires d < 10
  {
    '0' + d as char
  }

  /** The shortest decimal text of n, as format!("{}", n) prints it. */
  function Decimal(n: nat): string {
    if n < 10 then [DecimalDigit(n)] else Decimal(n / 10) + [DecimalDigit(n % 10)]
  }

  lemma {:induction false} DecimalIsNonempty(n: nat)
    ensures |Decimal(n)| >= 1
    ensures n >= 10 ==> |Decimal(n)| >= 2
  {
    if n >= 10 { DecimalIsNonempty(n / 10); }
  }

  lemma {:induction false} DecimalIsInjective(m: nat, n: nat)
    requires Decimal(m) == Decimal(n)
    ensures m == n
  {
    DecimalIsNonempty(m);
    DecimalIsNonempty(n);
    var s, t := Decimal(m), Decimal(n);
    assert s[|s| - 1] == t[|t| - 1];
    if m >= 10 && n >= 10 {
      assert s[..|s| - 1] == Decimal(m / 10) && t[..|t| - 1] == Decimal(n / 10);
      DecimalIsInjective(m / 10, n / 10);
    }
  }

  /** The number that a text of digits denotes. */
  function DecimalValue(s: string): int {
    if s == "" then 0 else 10 * DecimalValue(s[..|s| - 1]) + (s[|s| - 1] as int - '0' as int)
  }

  /** The text denotes the number, in digits alone and with no zero in front. */
  lemma {:induction false} DecimalDenotes(n: nat)
    ensures DecimalValue(Decimal(n)) == n
    ensures forall i :: 0 <= i < |Decimal(n)| ==> '0' <= Decimal(n)[i] <= '9'
    ensures n > 0 ==> Decimal(n) != "" && Decimal(n)[0] != '0'
  {
    var s := Decimal(n);
    if n < 10 {
      assert s[..0] == "";
    } else {
      DecimalDenotes(n / 10);
      assert s[..|s| - 1] == Decimal(n / 10);
    }
  }

  function HexDigit(d: nat): char
    requires d < 16
  {
    if d < 10 then '0' + d as char else 'a' + (d - 10) as char
  }

  /** The low w hexadecimal digits of n, zero padded. */
  function Hex(n: nat, w: nat): (s: string)
    ensures |s| == w
    decreases w
  {
    if w == 0 then "" else Hex(n / 16, w - 1) + [HexDigit(n % 16)]
  }

  function Pow16(w: nat): (p: nat)
    ensures p >= 1
  {
    if w == 0 then 1 else 16 * Pow16(w - 1)
  }

  lemma {:induction false} LessAppend(a: Key, x: Key, b: Key, y: Key)
    requires |a| == |b| && Less(a, b)
    ensures Less(a + x, b + y)
  {
    if a[0] == b[0] {
      assert (a + x)[1..] == a[1..] + x && (b + y)[1..] == b[1..] + y;
      LessAppend(a[1..], x, b[1..], y);
    }
  }

  /** 10, 100, 1000 and so on. */
  predicate PowerOfTen(n: nat) {
    n == 10 || (n > 10 && n % 10 == 0 && PowerOfTen(n / 10))
  }

  /** Where a decimal text gets longer it starts over with a one; elsewhere it only grows. */
  lemma {:induction false} DecimalStep(n: nat)
    ensures |Decimal(n)| >= 1 && |Decimal(n + 1)| >= 1
    ensures PowerOfTen(n + 1) ==> Decimal(n)[0] == '9' && Decimal(n + 1)[0] == '1'
    ensures !PowerOfTen(n + 1) ==> |Decimal(n)| == |Decimal(n + 1)| && Less(Decimal(n), Decimal(n + 1))
  {
    DecimalIsNonempty(n);
    DecimalIsNonempty(n + 1);
    if n >= 10 {
      var q, d, d' := n / 10, [DecimalDigit(n % 10)], [DecimalDigit((n + 1) % 10)];
      if n % 10 < 9 {
        assert (n + 1) / 10 == q;
        LessAfterPrefix(Decimal(q), d, d');
      } else {
        assert (n + 1) / 10 == q + 1;
        DecimalStep(q);
        if !PowerOfTen(q + 1) { LessAppend(Decimal(q), d, Decimal(q + 1), d'); }
      }
    }
  }

  /** The decimal texts of two successive numbers are in byte order exactly when the second is no
      power of ten. */
  lemma SuccessorsInOrderIff(n: nat)
    ensures Less(Decimal(n), Decimal(n + 1)) <==> !PowerOfTen(n + 1)
    ensures Less(Decimal(n + 1), Decimal(n)) <==> PowerOfTen(n + 1)
  {
    DecimalStep(n);
    LessTrichotomy(Decimal(n), Decimal(n + 1));
  }

  /** Fixed-width hexadecimal text sorts as the numbers do. */
  lemma {:induction false} HexKeepsOrder(m: nat, n: nat, w: nat)
    requires m < n < Pow16(w)
    ensures Less(Hex(m, w), Hex(n, w))
    decreases w
  {
    if w > 0 {
      var a, b := Hex(m / 16, w - 1), Hex(n / 16, w - 1);
      if m / 16 < n / 16 {
        HexKeepsOrder(m / 16, n / 16, w - 1);
        LessAppend(a, [HexDigit(m % 16)], b, [HexDigit(n % 16)]);
      } else {
        assert m / 16 == n / 16 && m % 16 < n % 16;
        LessAfterPrefix(a, [HexDigit(m % 16)], [HexDigit(n % 16)]);
      }
    }
  }

  const U64_MAX: nat := 0xffff_ffff_ffff_ffff

  lemma SixteenDigitsHoldU64()
    ensures Pow16(16) == U64_MAX + 1
  {
    assert Pow16(4) == 0x1_0000;
    assert Pow16(8) == 0x1_0000_0000;
    assert Pow16(12) == 0x1_0000_0000_0000;
  }

  function HexText(n: nat): (s: string)
    ensures |s| >= 1
  {
    if n < 16 then [HexDigit(n)] else HexText(n / 16) + [HexDigit(n % 16)]
  }

  function Zeros(k: nat): (s: string)
    ensures |s| == k && forall i :: 0 <= i < k ==> s[i] == '0'
  {
    seq(k, i => '0')
  }

  function Padded(s: string, w: nat): string {
    Zeros(if |s| < w then w - |s| else 0) + s
  }

  /** format!("{:016x}", n): at least sixteen digits, padded with zeros. */
  function SeqText(n: nat): string {
    Padded(HexText(n), 16)
  }

  lemma {:induction false} ZeroIsZeros(w: nat)
    ensures Hex(0, w) == Zeros(w)
  {
    if w > 0 { ZeroIsZeros(w - 1); }
  }

  /** Padding to a width that holds the number gives its fixed-width text. */
  lemma {:induction false} PaddedIsHex(n: nat, w: nat)
    requires n < Pow16(w) && w >= 1
    ensures |HexText(n)| <= w && Padded(HexText(n), w) == Hex(n, w)
  {
    if n < 16 {
      ZeroIsZeros(w - 1);
    } else {
      PaddedIsHex(n / 16, w - 1);
      assert Padded(HexText(n), w) == Padded(HexText(n / 16), w - 1) + [HexDigit(n % 16)];
    }
  }

  /** Sequence numbers sort as their texts do. */
  lemma SeqTextKeepsOrder(m: nat, n: nat)
    requires m < n <= U64_MAX
    ensures Less(SeqText(m), SeqText(n))
  {
    SixteenDigitsHoldU64();
    FixedWidthKeepsOrder(m, n, 16);
  }

  lemma FixedWidthKeepsOrder(m: nat, n: nat, w: nat)
    requires m < n < Pow16(w) && w >= 1
    ensures Less(Padded(HexText(m), w), Padded(HexText(n), w))
  {
    PaddedIsHex(m, w);
    PaddedIsHex(n, w);
    HexKeepsOrder(m, n, w);
  }
}

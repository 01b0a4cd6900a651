/**
 * Number renderings used by the scripts: Python's `bin(v)[2:]`, `str.zfill`,
 * `format(b, '08b')`, `int(s, 16)`, decimal `str(n)`, and `sep.join(parts)`.
 */
module Numerals {

  function Pow(b: nat, k: nat): (r: nat)
    ensures b >= 1 ==> r >= 1
  {
    if k == 0 then 1 else b * Pow(b, k - 1)
  }

  lemma {:induction false} Pow16IsPow2(k: nat)
    ensures Pow(16, k) == Pow(2, 4 * k)
  {
    if k > 0 {
      Pow16IsPow2(k - 1);
      assert Pow(2, 4 * k) == 2 * Pow(2, 4 * k - 1);
      assert Pow(2, 4 * k - 1) == 2 * Pow(2, 4 * k - 2);
      assert Pow(2, 4 * k - 2) == 2 * Pow(2, 4 * k - 3);
      assert Pow(2, 4 * k - 3) == 2 * Pow(2, 4 * (k - 1));
    }
  }

  lemma {:induction false} PowMonotone(b: nat, j: nat, k: nat)
    requires b >= 1 && j <= k
    ensures Pow(b, j) <= Pow(b, k)
  {
    if j < k {
      PowMonotone(b, j, k - 1);
    }
  }

  predicate IsBitChar(c: char) { c == '0' || c == '1' }

  predicate IsBitString(s: string) { forall i :: 0 <= i < |s| ==> IsBitChar(s[i]) }

  function BitChar(bit: nat): char
    requires bit < 2
  {
    if bit == 1 then '1' else '0'
  }

  /** Python's `bin(v)[2:]`: binary digits of v, most significant first, without leading zeros ("0" for zero). */
  function Binary(v: nat): (s: string)
    ensures |s| >= 1 && IsBitString(s)
    ensures |s| > 1 ==> s[0] == '1'
  {
    if v < 2 then [BitChar(v)] else Binary(v / 2) + [BitChar(v % 2)]
  }

  /** `bin` never needs more than k digits for a value below 2^k. */
  lemma {:induction false} BinaryLength(v: nat, k: nat)
    requires k >= 1 && v < Pow(2, k)
    ensures |Binary(v)| <= k
  {
    if v >= 2 {
      assert Pow(2, k) == 2 * Pow(2, k - 1);
      BinaryLength(v / 2, k - 1);
    }
  }

  /** Python's `s.zfill(width)` for a digit string: left-pad with '0' up to width. */
  function ZFill(s: string, width: nat): (r: string)
    ensures |r| == if |s| >= width then |s| else width
    ensures r[|r| - |s|..] == s
    ensures forall i :: 0 <= i < |r| - |s| ==> r[i] == '0'
  {
    if |s| >= width then s else seq(width - |s|, _ => '0') + s
  }

  /** `format(v, '0{k}b')` for v < 2^k: exactly k binary digits, most significant first. */
  function ToBinaryWidth(v: nat, k: nat): (s: string)
    ensures |s| == k && IsBitString(s)
  {
    if k == 0 then [] else ToBinaryWidth(v / 2, k - 1) + [BitChar(v % 2)]
  }

  /** `int(s, 2)` on a string of '0'/'1' characters. */
  function ParseBinary(s: string): nat
    requires IsBitString(s)
  {
    if s == [] then 0 else 2 * ParseBinary(s[..|s| - 1]) + (if s[|s| - 1] == '1' then 1 else 0)
  }

  lemma {:induction false} ParseToBinaryWidth(v: nat, k: nat)
    requires v < Pow(2, k)
    ensures ParseBinary(ToBinaryWidth(v, k)) == v
  {
    if k > 0 {
      var s := ToBinaryWidth(v, k);
      assert s[..k - 1] == ToBinaryWidth(v / 2, k - 1);
      ParseToBinaryWidth(v / 2, k - 1);
    }
  }

  lemma {:induction false} ToBinaryWidthParse(s: string)
    requires IsBitString(s)
    ensures ParseBinary(s) < Pow(2, |s|)
    ensures ToBinaryWidth(ParseBinary(s), |s|) == s
  {
    if s != [] {
      var init := s[..|s| - 1];
      ToBinaryWidthParse(init);
      var v := ParseBinary(s);
      assert v / 2 == ParseBinary(init);
      assert s == init + [s[|s| - 1]];
    }
  }

  /** For values that fit, `bin(v)[2:].zfill(k)` is the fixed-width rendering. */
  lemma {:induction false} ZFillBinary(v: nat, k: nat)
    requires k >= 1 && v < Pow(2, k)
    ensures ZFill(Binary(v), k) == ToBinaryWidth(v, k)
  {
    BinaryLength(v, k);
    if v < 2 {
      ZeroPrefix(v, k);
    } else {
      assert Pow(2, k) == 2 * Pow(2, k - 1);
      ZFillBinary(v / 2, k - 1);
      var p := Binary(v / 2);
      assert ZFill(p + [BitChar(v % 2)], k) == ZFill(p, k - 1) + [BitChar(v % 2)];
    }
  }

  lemma {:induction false} ZeroPrefix(v: nat, k: nat)
    requires v < 2 && k >= 1
    ensures ToBinaryWidth(v, k) == seq(k - 1, _ => '0') + [BitChar(v)]
  {
    if k > 1 {
      ZeroPrefix(0, k - 1);
    }
  }

  predicate IsHexChar(c: char) { '0' <= c <= '9' || 'a' <= c <= 'f' || 'A' <= c <= 'F' }

  /** What `int(s, 16)` accepts in this model: one or more hexadecimal digits. */
  predicate IsHexString(s: string) { |s| >= 1 && forall i :: 0 <= i < |s| ==> IsHexChar(s[i]) }

  function HexValue(c: char): (d: nat)
    requires IsHexChar(c)
    ensures d < 16
  {
    if '0' <= c <= '9' then c as int - '0' as int
    else if 'a' <= c <= 'f' then c as int - 'a' as int + 10
    else c as int - 'A' as int + 10
  }

  /** `int(s, 16)`. */
  function ParseHex(s: string): (v: nat)
    requires forall i :: 0 <= i < |s| ==> IsHexChar(s[i])
    ensures v < Pow(16, |s|)
  {
    if s == [] then 0 else 16 * ParseHex(s[..|s| - 1]) + HexValue(s[|s| - 1])
  }

  function HexChar(d: nat): (c: char)
    requires d < 16
    ensures IsHexChar(c) && HexValue(c) == d
  {
    if d < 10 then ('0' as int + d) as char else ('a' as int + d - 10) as char
  }

  /** `'{:0>{k}x}'.format(v)` for v < 16^k: exactly k lower-case hexadecimal digits. */
  function ToHexWidth(v: nat, k: nat): (s: string)
    ensures |s| == k && forall i :: 0 <= i < |s| ==> IsHexChar(s[i])
  {
    if k == 0 then [] else ToHexWidth(v / 16, k - 1) + [HexChar(v % 16)]
  }

  lemma {:induction false} ParseToHexWidth(v: nat, k: nat)
    requires v < Pow(16, k)
    ensures ParseHex(ToHexWidth(v, k)) == v
  {
    if k > 0 {
      var s := ToHexWidth(v, k);
      var p := Pow(16, k - 1);
      assert v < 16 * p;
      assert v / 16 < p by {
        assert 16 * (v / 16) <= v;
      }
      assert s[..k - 1] == ToHexWidth(v / 16, k - 1);
      ParseToHexWidth(v / 16, k - 1);
      assert ParseHex(s) == 16 * ParseHex(s[..k - 1]) + HexValue(s[k - 1]);
      assert HexValue(s[k - 1]) == v % 16;
    }
  }

  predicate IsDecimalString(s: string) { |s| >= 1 && forall i :: 0 <= i < |s| ==> '0' <= s[i] <= '9' }

  /** Python's `str(n)` for a non-negative integer. */
  function Decimal(n: nat): (s: string)
    ensures IsDecimalString(s)
    ensures |s| > 1 ==> s[0] != '0'
  {
    if n < 10 then [('0' as int + n) as char] else Decimal(n / 10) + [('0' as int + n % 10) as char]
  }

  /** `int(s)` on a string of decimal digits. */
  function ParseDecimal(s: string): nat
    requires forall i :: 0 <= i < |s| ==> '0' <= s[i] <= '9'
  {
    if s == [] then 0 else 10 * ParseDecimal(s[..|s| - 1]) + (s[|s| - 1] as int - '0' as int)
  }

  lemma {:induction false} DecimalRoundTrip(n: nat)
    ensures ParseDecimal(Decimal(n)) == n
  {
    if n >= 10 {
      var s := Decimal(n);
      assert s[..|s| - 1] == Decimal(n / 10);
      DecimalRoundTrip(n / 10);
    }
  }

  /** `sep.join(parts)`: empty for no parts, the part itself for one. */
  function Join(parts: seq<string>, sep: string): (r: string)
    ensures parts == [] ==> r == ""
    ensures |parts| == 1 ==> r == parts[0]
  {
    if parts == [] then "" else if |parts| == 1 then parts[0] else parts[0] + sep + Join(parts[1..], sep)
  }

  /** The summed lengths of the parts. */
  function TotalLength(parts: seq<string>): nat {
    if parts == [] then 0 else |parts[0]| + TotalLength(parts[1..])
  }

  /** Joining n >= 1 parts adds n - 1 separators and nothing else. */
  lemma {:induction false} JoinLength(parts: seq<string>, sep: string)
    requires parts != []
    ensures |Join(parts, sep)| == TotalLength(parts) + (|parts| - 1) * |sep|
  {
    if |parts| > 1 {
      JoinLength(parts[1..], sep);
    }
  }

  /** Two parts are written with one separator between them. */
  lemma JoinTwo(a: string, b: string, sep: string)
    ensures Join([a, b], sep) == a + sep + b
  {
    assert [a, b][1..] == [b];
  }
}

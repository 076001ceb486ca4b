/** The three hexadecimal conversions the game relies on: `hexdigest()`
    (bytes to lowercase hex), `bytes.fromhex` (hex to bytes) and
    `int(s, 16)` (hex to a number), with the facts that tie them together. */
module Hex {
  import opened Types

  predicate IsHexDigit(c: char) {
    '0' <= c <= '9' || 'a' <= c <= 'f' || 'A' <= c <= 'F'
  }

  predicate IsLowerHexDigit(c: char) {
    '0' <= c <= '9' || 'a' <= c <= 'f'
  }

  predicate IsHexString(s: string) {
    forall i :: 0 <= i < |s| ==> IsHexDigit(s[i])
  }

  predicate IsLowerHexString(s: string) {
    forall i :: 0 <= i < |s| ==> IsLowerHexDigit(s[i])
  }

  function Pow(b: nat, e: nat): nat {
    if e == 0 then 1 else b * Pow(b, e - 1)
  }

  /** The value of one hex digit; both cases are accepted, as Python does. */
  function DigitValue(c: char): (v: nat)
    requires IsHexDigit(c)
    ensures v < 16
  {
    if '0' <= c <= '9' then c as int - '0' as int
    else if 'a' <= c <= 'f' then c as int - 'a' as int + 10
    else c as int - 'A' as int + 10
  }

  /** The lowercase digit `hexdigest()` writes for a value below 16. */
  function LowerDigit(v: nat): (c: char)
    requires v < 16
    ensures IsLowerHexDigit(c) && DigitValue(c) == v
  {
    if v < 10 then ('0' as int + v) as char else ('a' as int + v - 10) as char
  }

  lemma LowerDigitOfValue(c: char)
    requires IsLowerHexDigit(c)
    ensures LowerDigit(DigitValue(c)) == c
  {
  }

  /** The two lowercase digits of one byte, high nibble first. */
  function ByteToHex(b: byte): (s: string)
    ensures |s| == 2 && IsLowerHexString(s)
    ensures DigitValue(s[0]) * 16 + DigitValue(s[1]) == b
  {
    [LowerDigit(b / 16), LowerDigit(b % 16)]
  }

  /** `hexdigest()`: every byte as two lowercase digits, in order. */
  function BytesToHex(bs: seq<byte>): (s: string)
    ensures |s| == 2 * |bs|
    ensures IsLowerHexString(s)
  {
    if bs == [] then [] else BytesToHex(bs[..|bs| - 1]) + ByteToHex(bs[|bs| - 1])
  }

  /** `bytes.fromhex`: pairs of hex digits become bytes; an odd length or a
      character that is not a hex digit is an error (Python's `ValueError`). */
  function FromHex(s: string): (r: Option<seq<byte>>)
    ensures r.Some? <==> IsHexString(s) && |s| % 2 == 0
    ensures r.Some? ==> 2 * |r.value| == |s|
    decreases |s|
  {
    if |s| == 0 then Some([])
    else if |s| == 1 then None
    else
      var init := s[..|s| - 2];
      var hi, lo := s[|s| - 2], s[|s| - 1];
      if !IsHexDigit(hi) || !IsHexDigit(lo) then None
      else
        assert forall i :: 0 <= i < |init| ==> init[i] == s[i];
        match FromHex(init)
        case None => None
        case Some(bytes) => Some(bytes + [(DigitValue(hi) * 16 + DigitValue(lo)) as byte])
  }

  lemma {:induction false} BytesToHexAppend(a: seq<byte>, b: seq<byte>)
    ensures BytesToHex(a + b) == BytesToHex(a) + BytesToHex(b)
    decreases |b|
  {
    if b == [] {
      assert a + b == a;
    } else {
      var b' := b[..|b| - 1];
      assert (a + b)[..|a + b| - 1] == a + b';
      assert (a + b)[|a + b| - 1] == b[|b| - 1];
      BytesToHexAppend(a, b');
    }
  }

  /** Decoding what `hexdigest()` wrote gives back the bytes. */
  lemma {:induction false} FromHexOfBytesToHex(bs: seq<byte>)
    ensures FromHex(BytesToHex(bs)) == Some(bs)
    decreases |bs|
  {
    if bs != [] {
      var init := bs[..|bs| - 1];
      var b := bs[|bs| - 1];
      var pair := ByteToHex(b);
      assert BytesToHex(bs) == BytesToHex(init) + [pair[0], pair[1]];
      assert IsHexDigit(pair[0]) && IsHexDigit(pair[1]);
      FromHexOfBytesToHex(init);
      FromHexSnoc(BytesToHex(init), pair[0], pair[1], init);
      assert (DigitValue(pair[0]) * 16 + DigitValue(pair[1])) as byte == b;
      assert init + [b] == bs;
    }
  }

  /** One more pair of hex digits decodes to one more byte. */
  lemma FromHexSnoc(t: string, hi: char, lo: char, bytes: seq<byte>)
    requires IsHexDigit(hi) && IsHexDigit(lo) && FromHex(t) == Some(bytes)
    ensures FromHex(t + [hi, lo]) == Some(bytes + [(DigitValue(hi) * 16 + DigitValue(lo)) as byte])
  {
    var s := t + [hi, lo];
    assert s[..|s| - 2] == t;
  }

  /** Encoding what `bytes.fromhex` read gives back the string, when that
      string was already lowercase. */
  lemma {:induction false} BytesToHexOfFromHex(s: string)
    requires IsLowerHexString(s) && |s| % 2 == 0
    ensures FromHex(s).Some? && BytesToHex(FromHex(s).value) == s
    decreases |s|
  {
    if |s| >= 2 {
      var init := s[..|s| - 2];
      var hi, lo := s[|s| - 2], s[|s| - 1];
      assert IsLowerHexString(init) by {
        forall i | 0 <= i < |init| ensures IsLowerHexDigit(init[i]) {
          assert init[i] == s[i];
        }
      }
      BytesToHexOfFromHex(init);
      var bytes := FromHex(init).value;
      var b := DigitValue(hi) * 16 + DigitValue(lo);
      assert FromHex(s).value == bytes + [b as byte];
      assert b / 16 == DigitValue(hi) && b % 16 == DigitValue(lo);
      LowerDigitOfValue(hi);
      LowerDigitOfValue(lo);
      assert (bytes + [b as byte])[..|bytes|] == bytes;
      assert s == init + [hi, lo];
    }
  }

  /** `int(s, 16)`: the positional base-16 value, most significant digit
      first. */
  function HexValue(s: string): (n: nat)
    requires IsHexString(s)
    ensures n < Pow(16, |s|)
  {
    if s == [] then 0
    else
      var init := s[..|s| - 1];
      var v := HexValue(init);
      assert v * 16 + DigitValue(s[|s| - 1]) <= (Pow(16, |init|) - 1) * 16 + 15;
      v * 16 + DigitValue(s[|s| - 1])
  }

  /** The big-endian value of a byte string, most significant byte first. */
  function BigEndian(bs: seq<byte>): nat {
    if bs == [] then 0 else BigEndian(bs[..|bs| - 1]) * 256 + bs[|bs| - 1]
  }

  /** Appending two digits multiplies the value by 256 and adds theirs. */
  lemma HexValueSnoc2(t: string, hi: char, lo: char)
    requires IsHexString(t) && IsHexDigit(hi) && IsHexDigit(lo)
    ensures IsHexString(t + [hi, lo])
    ensures HexValue(t + [hi, lo]) == HexValue(t) * 256 + (DigitValue(hi) * 16 + DigitValue(lo))
  {
    var s := t + [hi, lo];
    assert s[..|s| - 1] == t + [hi];
    assert (t + [hi])[..|t|] == t;
    var v := HexValue(t);
    assert HexValue(t + [hi]) == v * 16 + DigitValue(hi);
    assert HexValue(s) == (v * 16 + DigitValue(hi)) * 16 + DigitValue(lo);
  }

  /** Reading the hex text of some bytes as one number gives their
      big-endian value. */
  lemma {:induction false} HexValueOfBytes(bs: seq<byte>)
    ensures HexValue(BytesToHex(bs)) == BigEndian(bs)
    decreases |bs|
  {
    if bs != [] {
      var init := bs[..|bs| - 1];
      var pair := ByteToHex(bs[|bs| - 1]);
      assert BytesToHex(bs) == BytesToHex(init) + [pair[0], pair[1]];
      HexValueOfBytes(init);
      HexValueSnoc2(BytesToHex(init), pair[0], pair[1]);
    }
  }

  /** The `w`-digit lowercase hex text of `n` (leading zeros kept): the
      inverse of `HexValue` on strings of width `w`. */
  function ToHexWidth(n: nat, w: nat): (s: string)
    requires n < Pow(16, w)
    ensures |s| == w && IsLowerHexString(s)
  {
    if w == 0 then [] else ToHexWidth(n / 16, w - 1) + [LowerDigit(n % 16)]
  }

  lemma {:induction false} HexValueOfToHexWidth(n: nat, w: nat)
    requires n < Pow(16, w)
    ensures HexValue(ToHexWidth(n, w)) == n
    decreases w
  {
    if w > 0 {
      var s := ToHexWidth(n, w);
      assert s[..|s| - 1] == ToHexWidth(n / 16, w - 1);
      HexValueOfToHexWidth(n / 16, w - 1);
    }
  }

  lemma {:induction false} ToHexWidthOfHexValue(s: string)
    requires IsLowerHexString(s)
    ensures ToHexWidth(HexValue(s), |s|) == s
    decreases |s|
  {
    if s != [] {
      var init := s[..|s| - 1];
      var c := s[|s| - 1];
      assert IsLowerHexString(init) by {
        forall i | 0 <= i < |init| ensures IsLowerHexDigit(init[i]) {
          assert init[i] == s[i];
        }
      }
      ToHexWidthOfHexValue(init);
      var n := HexValue(s);
      assert n / 16 == HexValue(init) && n % 16 == DigitValue(c);
      LowerDigitOfValue(c);
      assert s == init + [c];
    }
  }
}

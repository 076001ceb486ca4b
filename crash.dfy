/** `calculate_crash_point`: the round hash keys an HMAC-SHA256 over an empty
    message, the first 8 hex digits of that tag are read as a number, and the
    number is mapped to a multiplier of at least 1, scaled by the
    return-to-player fraction. */
module Crash {
  import opened Types
  import opened Hex

  const TwoPow32: real := 4294967296.0

  /** `int(hexdigest()[:8], 16)`: the first 8 hex digits of a tag, which are
      its first four bytes read big-endian. */
  function TagValue(tag: Bytes32): (n: nat)
    ensures n < 0x1_0000_0000
    ensures n == tag[0] as int * 0x100_0000 + tag[1] as int * 0x1_0000 + tag[2] as int * 0x100 + tag[3] as int
  {
    PrefixIsFirstFourBytes(tag);
    HexValue(BytesToHex(tag)[..8])
  }

  lemma PrefixIsFirstFourBytes(tag: Bytes32)
    ensures BytesToHex(tag)[..8] == BytesToHex(tag[..4])
    ensures HexValue(BytesToHex(tag)[..8]) ==
      tag[0] as int * 0x100_0000 + tag[1] as int * 0x1_0000 + tag[2] as int * 0x100 + tag[3] as int
  {
    assert tag == tag[..4] + tag[4..];
    BytesToHexAppend(tag[..4], tag[4..]);
    HexValueOfBytes(tag[..4]);
    var q := tag[..4];
    assert q[..3][..2][..1][..0] == [];
    var b0, b1, b2, b3 := tag[0] as int, tag[1] as int, tag[2] as int, tag[3] as int;
    assert BigEndian(q[..1]) == b0;
    assert BigEndian(q[..2]) == b0 * 0x100 + b1 by {
      assert q[..2][..1] == q[..1];
    }
    assert BigEndian(q[..3]) == (b0 * 0x100 + b1) * 0x100 + b2 by {
      assert q[..3][..2] == q[..2];
    }
    assert BigEndian(q) == ((b0 * 0x100 + b1) * 0x100 + b2) * 0x100 + b3 by {
      assert q[..3] == q[..|q| - 1];
    }
  }

  /** `(2 ** 32 / (int_result + 1)) * rtp`, before the floor. */
  function Scaled(n: nat, rtp: real): (x: real)
    ensures rtp > 0.0 ==> 0.0 < x <= TwoPow32 * rtp
    ensures rtp < 0.0 ==> x < 0.0
  {
    TwoPow32 / (n + 1) as real * rtp
  }

  /** `max(1, Scaled(n, rtp))` as Python computes it: the scaled value when it
      exceeds 1, otherwise 1. */
  function CrashFormula(n: nat, rtp: real): (r: real)
    ensures r >= 1.0 && r >= Scaled(n, rtp)
    ensures r == 1.0 || r == Scaled(n, rtp)
  {
    var x := Scaled(n, rtp);
    if x > 1.0 then x else 1.0
  }

  /** `calculate_crash_point(game_hash)`. The round hash is decoded as the
      HMAC key, which fails unless it is an even-length hex string. */
  function CalculateCrashPoint(hmac: HmacSha256, gameHash: string, rtp: real): (r: Outcome<real>)
    ensures r.Err? <==> !(IsHexString(gameHash) && |gameHash| % 2 == 0)
    ensures r.Err? ==> r.error == InvalidHexDigest
    ensures r.Ok? ==> 1.0 <= r.value <= CrashFormula(0, rtp)
  {
    match FromHex(gameHash)
    case None => Err(InvalidHexDigest)
    case Some(key) =>
      var n := TagValue(hmac(key, []));
      CrashAnti(0, n, rtp);
      Ok(CrashFormula(n, rtp))
  }

  lemma ScaledAnti(n1: nat, n2: nat, rtp: real)
    requires n1 <= n2
    ensures rtp >= 0.0 ==> Scaled(n2, rtp) <= Scaled(n1, rtp)
    ensures rtp > 0.0 && n1 < n2 ==> Scaled(n2, rtp) < Scaled(n1, rtp)
  {
  }

  /** The crash point never increases as the extracted number grows, for any
      return-to-player fraction. */
  lemma CrashAnti(n1: nat, n2: nat, rtp: real)
    requires n1 <= n2
    ensures CrashFormula(n2, rtp) <= CrashFormula(n1, rtp)
  {
    ScaledAnti(n1, n2, rtp);
  }

  /** Where the floor is not engaged, the crash point strictly decreases. */
  lemma CrashStrictlyDecreasing(n1: nat, n2: nat, rtp: real)
    requires n1 < n2 && rtp > 0.0
    requires Scaled(n2, rtp) >= 1.0
    ensures CrashFormula(n2, rtp) < CrashFormula(n1, rtp)
  {
    ScaledAnti(n1, n2, rtp);
  }

  /** The crash point is the scaled value whenever that is at least 1, and it
      never exceeds `max(1, 2^32 * rtp)`, the value at `n == 0`. */
  lemma CrashBounds(n: nat, rtp: real)
    ensures CrashFormula(n, rtp) >= 1.0
    ensures Scaled(n, rtp) >= 1.0 ==> CrashFormula(n, rtp) == Scaled(n, rtp)
    ensures CrashFormula(n, rtp) <= if TwoPow32 * rtp > 1.0 then TwoPow32 * rtp else 1.0
  {
  }

  /** Two return-to-player fractions give crash points in their own ratio
      whenever neither result is floored. */
  lemma RtpScaling(n: nat, rtp1: real, rtp2: real)
    requires Scaled(n, rtp1) >= 1.0 && Scaled(n, rtp2) >= 1.0
    ensures rtp1 > 0.0 && rtp2 > 0.0
    ensures CrashFormula(n, rtp1) * rtp2 == CrashFormula(n, rtp2) * rtp1
  {
  }
}

/** How a signature's two numbers are written one after the other and split again. */
module Framing {

  type byte = x: int | 0 <= x < 256

  /** The minimal big-endian bytes of a number; none for zero. */
  function ToBytes(n: nat): seq<byte> {
    if n == 0 then [] else ToBytes(n / 256) + [n % 256]
  }

  function FromBytes(s: seq<byte>): nat {
    if s == [] then 0 else 256 * FromBytes(s[..|s| - 1]) + s[|s| - 1]
  }

  /** The signature as Sign writes it. */
  function Join(r: nat, s: nat): seq<byte> {
    ToBytes(r) + ToBytes(s)
  }

  /** The two numbers as VerifySignature reads them: the halves of the bytes, the second
      one byte longer when their number is odd. */
  function Split(signature: seq<byte>): (nat, nat) {
    var half := |signature| / 2;
    (FromBytes(signature[..half]), FromBytes(signature[half..]))
  }

  lemma {:induction false} FromTo(n: nat)
    ensures FromBytes(ToBytes(n)) == n
  {
    if n > 0 {
      FromTo(n / 256);
      assert ToBytes(n)[..|ToBytes(n)| - 1] == ToBytes(n / 256);
    }
  }

  /** Bytes without a leading zero are the minimal bytes of their value. */
  lemma {:induction false} ToFrom(s: seq<byte>)
    requires s != [] ==> s[0] != 0
    ensures ToBytes(FromBytes(s)) == s
  {
    if s != [] {
      var front := s[..|s| - 1];
      ToFrom(front);
      if front != [] {
        assert FromBytes(front) != 0;
      }
    }
  }

  lemma {:induction false} NoLeadingZero(n: nat)
    requires n > 0
    ensures ToBytes(n) != [] && ToBytes(n)[0] != 0
  {
    if n >= 256 {
      NoLeadingZero(n / 256);
    } else {
      assert n / 256 == 0;
    }
  }

  /** Splitting recovers the two numbers exactly when the second is as long as the first or
      one byte longer. So a signature whose second number happens to be shorter is read
      back as a different pair. */
  lemma {:induction false} RoundTripIff(r: nat, s: nat)
    requires r >= 1 && s >= 1
    ensures Split(Join(r, s)) == (r, s) <==>
      |ToBytes(s)| == |ToBytes(r)| || |ToBytes(s)| == |ToBytes(r)| + 1
  {
    var a, b := ToBytes(r), ToBytes(s);
    var j, half := Join(r, s), |Join(r, s)| / 2;
    FromTo(r);
    FromTo(s);
    NoLeadingZero(r);
    NoLeadingZero(s);
    if half == |a| {
      assert j[..half] == a && j[half..] == b;
    } else if FromBytes(j[..half]) == r {
      assert j[..half][0] == a[0];
      ToFrom(j[..half]);
    }
  }
}

/** The one-time-code helpers of the SQLite variant: code generation, the
    code hash and the seconds clock. SHA-256 is a parameter `sha256` (a
    string-to-hex-digest function); the random index source and the
    millisecond clock are inputs. */
module OtpUtil {
  import opened Js

  const Digits := "0123456789"

  /** The length a code has when the caller gives none. */
  const DefaultOtpLength: nat := 6

  predicate IsNumericCode(code: string, length: nat)
  {
    |code| == length && forall k :: 0 <= k < |code| ==> code[k] in Digits
  }

  /** Appends `length` characters, each drawn uniformly from the ten digits
      (`crypto.randomInt(0, 10)` is a choice of an index in [0, 10)). */
  method GenerateNumericOtp(length: nat := DefaultOtpLength) returns (otp: string)
    ensures |otp| == length
    ensures forall k :: 0 <= k < |otp| ==> otp[k] in Digits
  {
    otp := "";
    for i := 0 to length
      invariant |otp| == i
      invariant forall k :: 0 <= k < |otp| ==> otp[k] in Digits
    {
      var rand :| 0 <= rand < |Digits|;
      otp := otp + [Digits[rand]];
    }
  }

  /** The stored form of a code: the digest of `String(code)`. */
  function HashOtp(sha256: string -> string, code: Value): string
  {
    sha256(ToJsString(code))
  }

  /** The hash sees only `String(code)`: a code sent as the number 123456
      hashes like the text "123456". */
  lemma HashOtpOfNumber(sha256: string -> string, n: int)
    ensures HashOtp(sha256, Int(n)) == HashOtp(sha256, Text(IntToString(n)))
  {
  }

  /** When the digest is injective, a code whose text starts with '0' (and
      has more than one digit) is never matched by that code sent as a JSON
      number, because `String(n)` drops leading zeros. */
  lemma NumberNeverMatchesLeadingZero(sha256: string -> string, code: string, n: int)
    requires forall a, b :: sha256(a) == sha256(b) ==> a == b
    requires |code| > 1 && code[0] == '0'
    ensures HashOtp(sha256, Int(n)) != HashOtp(sha256, Text(code))
  {
    IntToStringLeadingZero(n);
    assert IntToString(n) != code;
  }

  /** `Math.floor(Date.now() / 1000)`. */
  function NowSeconds(nowMillis: int): (s: int)
    ensures s * 1000 <= nowMillis < s * 1000 + 1000
  {
    nowMillis / 1000
  }
}

/** The one-time verification code and the digest stored in place of the
    e-mail address and of the code (index.cjs:66-67). */
module Codes {
  import opened Text

  /** `crypto.randomInt(0, 1000000)` draws below this bound. */
  const CODE_RANGE: nat := 1000000

  /** `padStart(6, '0')` widens every code to this many characters. */
  const CODE_LENGTH: nat := 6

  /** `genCode`: the drawn integer, written in decimal and left-padded with
      zeros. The draw itself comes from the caller, since it is random. */
  function GenCode(draw: nat): (code: string)
    requires draw < CODE_RANGE
    ensures |code| == CODE_LENGTH
    ensures AllDigits(code)
    ensures DigitsValue(code) == draw
  {
    var digits := Decimal(draw);
    assert Pow10(6) == CODE_RANGE;
    DecimalLength(draw, 6);
    DecimalRoundTrip(draw);
    LeadingZeros(CODE_LENGTH - |digits|, digits);
    PadStart(digits, CODE_LENGTH, '0')
  }

  /** Distinct draws give distinct codes, so a code names its draw. */
  lemma GenCodeInjective(a: nat, b: nat)
    requires a < CODE_RANGE && b < CODE_RANGE
    requires GenCode(a) == GenCode(b)
    ensures a == b
  {
  }

  /** `sha256(text)`: the digest of the lower-cased text. The digest function
      itself (SHA-256 in hexadecimal) is a parameter of the model. */
  function Sha256(digest: string -> string, text: string): string {
    digest(Lower(text))
  }

  /** Texts that differ only in the case of ASCII letters share a digest. */
  lemma HashIgnoresCase(digest: string -> string, a: string, b: string)
    requires |a| == |b|
    requires forall i :: 0 <= i < |a| ==> LowerChar(a[i]) == LowerChar(b[i])
    ensures Sha256(digest, a) == Sha256(digest, b)
  {
    assert Lower(a) == Lower(b);
  }

  /** With a collision-free digest, the only text whose hash equals that of a
      generated code is the code itself: letters are folded, digits are not. */
  lemma {:induction false} OnlyTheCodeMatches(digest: string -> string, input: string, draw: nat)
    requires forall x, y :: digest(x) == digest(y) ==> x == y
    requires draw < CODE_RANGE
    ensures Sha256(digest, input) == Sha256(digest, GenCode(draw)) <==> input == GenCode(draw)
  {
    var code := GenCode(draw);
    if Sha256(digest, input) == Sha256(digest, code) {
      assert Lower(code) == code;
      LowerOfDigits(input, code);
    }
  }
}

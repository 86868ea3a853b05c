/** The fixed-width base-62 text of a 64-bit hash. */
module ContentId {
  const ALPHABET := "0123456789" + "ABCDEFGHIJKLMNOPQRSTUVWXYZ" + "abcdefghijklmnopqrstuvwxyz"
  const ID_LEN: nat := 11

  type uint64 = v: nat | v < 0x1_0000_0000_0000_0000

  function Pow62(n: nat): nat {
    if n == 0 then 1 else 62 * Pow62(n - 1)
  }

  /** The last `width` base-62 digits, most significant first. */
  function Digits(v: nat, width: nat): (s: string)
    ensures |s| == width
  {
    if width == 0 then "" else Digits(v / 62, width - 1) + [ALPHABET[v % 62]]
  }

  method EncodeBase62(value: uint64) returns (text: string)
    ensures text == Digits(value, ID_LEN)
  {
    var buf := new char[ID_LEN];
    var v: nat := value;
    var i := ID_LEN;
    while i > 0
      invariant 0 <= i <= ID_LEN
      invariant Digits(v, i) + buf[i..] == Digits(value, ID_LEN)
    {
      i := i - 1;
      ghost var tail := buf[i + 1..];
      buf[i] := ALPHABET[v % 62];
      assert buf[i..] == [ALPHABET[v % 62]] + tail;
      v := v / 62;
    }
    text := buf[..];
  }

  // ----- decoding -----

  function DigitOf(c: char): nat {
    if '0' <= c <= '9' then (c - '0') as nat
    else if 'A' <= c <= 'Z' then 10 + (c - 'A') as nat
    else if 'a' <= c <= 'z' then 36 + (c - 'a') as nat
    else 0
  }

  function Decode(s: string): nat {
    if s == "" then 0 else 62 * Decode(s[..|s| - 1]) + DigitOf(s[|s| - 1])
  }

  /** The alphabet by character code: digits, then capitals, then small letters. */
  function CharOf(d: nat): char
    requires d < 62
  {
    if d < 10 then (48 + d) as char else if d < 36 then (55 + d) as char else (61 + d) as char
  }

  lemma AlphabetAt(d: nat)
    requires d < 62
    ensures |ALPHABET| == 62 && ALPHABET[d] == CharOf(d) && DigitOf(CharOf(d)) == d
  {}

  lemma AlphabetIsOrdered()
    ensures |ALPHABET| == 62
    ensures forall d | 0 <= d < 62 :: DigitOf(ALPHABET[d]) == d
    ensures forall d, e | 0 <= d < e < 62 :: ALPHABET[d] < ALPHABET[e]
  {
    forall d | 0 <= d < 62
      ensures ALPHABET[d] == CharOf(d) && DigitOf(CharOf(d)) == d
    {
      AlphabetAt(d);
    }
  }

  /** Sixty-two to the eleventh exceeds two to the sixty-fourth, so eleven digits hold any hash. */
  lemma ElevenDigitsSuffice(v: uint64)
    ensures v < Pow62(ID_LEN)
  {
    assert Pow62(4) == 14776336;
    assert Pow62(8) == 218340105584896;
  }

  lemma {:induction false} DecodeDigits(v: nat, width: nat)
    requires v < Pow62(width)
    ensures Decode(Digits(v, width)) == v
  {
    if width > 0 {
      AlphabetIsOrdered();
      DecodeDigits(v / 62, width - 1);
      assert Digits(v, width)[..width - 1] == Digits(v / 62, width - 1);
    }
  }

  /** Every 64-bit value comes back from its text: the cut to eleven characters drops nothing. */
  lemma EncodingLosesNothing(v: uint64)
    ensures Decode(Digits(v, ID_LEN)) == v
  {
    ElevenDigitsSuffice(v);
    DecodeDigits(v, ID_LEN);
  }

  // ----- order -----

  /** Byte-wise order of strings. */
  predicate Before(a: string, b: string) {
    b != "" && (a == "" || a[0] < b[0] || (a[0] == b[0] && Before(a[1..], b[1..])))
  }

  lemma {:induction false} BeforeSnoc(a: string, b: string, c: char, d: char)
    requires |a| == |b|
    ensures Before(a + [c], b + [d]) <==> Before(a, b) || (a == b && c < d)
  {
    if a != "" {
      assert (a + [c])[1..] == a[1..] + [c] && (b + [d])[1..] == b[1..] + [d];
      BeforeSnoc(a[1..], b[1..], c, d);
      assert a == b <==> a[0] == b[0] && a[1..] == b[1..];
    }
  }

  lemma {:induction false} DigitsAreInjective(v: nat, w: nat, width: nat)
    requires v < Pow62(width) && w < Pow62(width)
    ensures Digits(v, width) == Digits(w, width) <==> v == w
  {
    DecodeDigits(v, width);
    DecodeDigits(w, width);
  }

  /** Sorting IDs as strings sorts them by hash. */
  lemma {:induction false} TextOrderIsNumeric(v: nat, w: nat, width: nat)
    requires v < Pow62(width) && w < Pow62(width)
    ensures Before(Digits(v, width), Digits(w, width)) <==> v < w
  {
    if width > 0 {
      var a, b := v / 62, w / 62;
      TextOrderIsNumeric(a, b, width - 1);
      DigitsAreInjective(a, b, width - 1);
      CharOrder(v % 62, w % 62);
      OrderByLastDigit(v, w);
      BeforeSnoc(Digits(a, width - 1), Digits(b, width - 1), ALPHABET[v % 62], ALPHABET[w % 62]);
    }
  }

  lemma CharOrder(d: nat, e: nat)
    requires d < 62 && e < 62
    ensures ALPHABET[d] < ALPHABET[e] <==> d < e
  {
    AlphabetIsOrdered();
  }

  lemma OrderByLastDigit(v: nat, w: nat)
    ensures v < w <==> v / 62 < w / 62 || (v / 62 == w / 62 && v % 62 < w % 62)
  {}
}

/** The base-128 encoding of lengths (section 1.5.5 of MQTT 5.0). */
module Varint {
  import opened Common

  /** The largest value four bytes can carry, plus one. */
  const VARINT_LIMIT := 0x1000_0000
  const UINT32_LIMIT := 0x1_0000_0000

  /** Seven bits a byte, least significant first, with the top bit set on all but the last. */
  function Encode(w: nat): (s: seq<byte>)
    ensures s != []
  {
    if w < 128 then [w] else [w % 128 + 128] + Encode(w / 128)
  }

  function Pow128(n: nat): nat {
    if n == 0 then 1 else 128 * Pow128(n - 1)
  }

  /** `packet__varint_bytes`. */
  function VarintBytes(w: nat): nat {
    if w < 128 then 1
    else if w < 16384 then 2
    else if w < 2097152 then 3
    else if w < 268435456 then 4
    else 5
  }

  /** For every 32-bit value the encoding is as long as `packet__varint_bytes` says. */
  lemma EncodeLength(w: nat)
    requires w < UINT32_LIMIT
    ensures |Encode(w)| == VarintBytes(w)
  {
    var a := w / 128;
    var b := a / 128;
    var c := b / 128;
    var d := c / 128;
    assert |Encode(d)| == 1;
    assert w >= 128 ==> |Encode(w)| == 1 + |Encode(a)|;
    assert a >= 128 ==> |Encode(a)| == 1 + |Encode(b)|;
    assert b >= 128 ==> |Encode(b)| == 1 + |Encode(c)|;
    assert c >= 128 ==> |Encode(c)| == 1 + |Encode(d)|;
  }

  /** The value of a list of digits, ignoring their top bits. */
  function Digits(s: seq<byte>): nat {
    if s == [] then 0 else s[0] % 128 + 128 * Digits(s[1..])
  }

  lemma {:induction false} DigitsOfEncode(w: nat)
    ensures Digits(Encode(w)) == w
    decreases w
  {
    if w >= 128 {
      assert Encode(w)[1..] == Encode(w / 128);
      DigitsOfEncode(w / 128);
    } else {
      assert Encode(w)[1..] == [];
    }
  }

  /** All but the last byte have the top bit set, and the last does not. */
  predicate Terminated(s: seq<byte>) {
    s != [] && s[|s| - 1] < 128 && forall i :: 0 <= i < |s| - 1 ==> s[i] >= 128
  }

  lemma {:induction false} EncodeTerminated(w: nat)
    ensures Terminated(Encode(w))
    ensures |Encode(w)| > 1 ==> Encode(w)[|Encode(w)| - 1] != 0
    decreases w
  {
    if w >= 128 {
      EncodeTerminated(w / 128);
      assert Encode(w)[1..] == Encode(w / 128);
      assert forall i :: 1 <= i < |Encode(w)| ==> Encode(w)[i] == Encode(w / 128)[i - 1];
    }
  }

  lemma LastDigit(a: nat, d: nat)
    requires a < 128
    ensures (a + 128 * d) % 128 == a && (a + 128 * d) / 128 == d
  {
  }

  lemma SingleDigit(s: seq<byte>)
    requires |s| == 1 && s[0] < 128
    ensures Digits(s) == s[0] && Encode(Digits(s)) == s
  {
    assert s[1..] == [] && s == [s[0]];
    assert s[0] % 128 == s[0];
  }

  lemma EncodeCons(b: byte, t: seq<byte>)
    requires b >= 128 && Digits(t) > 0 && Encode(Digits(t)) == t
    ensures Digits([b] + t) >= 128 && Encode(Digits([b] + t)) == [b] + t
  {
    var w := Digits([b] + t);
    assert ([b] + t)[1..] == t;
    assert w == b % 128 + 128 * Digits(t);
    LastDigit(b % 128, Digits(t));
    assert Encode(w) == [b] + Encode(Digits(t));
  }

  /** A terminated list of digits is an encoding exactly when it is not overlong. */
  lemma {:induction false} TerminatedIsEncode(s: seq<byte>)
    requires Terminated(s)
    requires |s| > 1 ==> s[|s| - 1] != 0
    ensures Encode(Digits(s)) == s
    ensures |s| > 1 ==> Digits(s) >= 128
    decreases |s|
  {
    if |s| == 1 {
      SingleDigit(s);
    } else {
      var t := s[1..];
      TerminatedIsEncode(t);
      if |t| == 1 {
        SingleDigit(t);
      }
      assert s == [s[0]] + t;
      EncodeCons(s[0], t);
    }
  }

  lemma {:induction false} DigitsSnoc(s: seq<byte>, b: byte)
    ensures Digits(s + [b]) == Digits(s) + (b % 128) * Pow128(|s|)
    decreases |s|
  {
    if s == [] {
      assert (s + [b])[1..] == [];
    } else {
      assert (s + [b])[1..] == s[1..] + [b];
      DigitsSnoc(s[1..], b);
      Distribute(s[0] % 128, Digits(s[1..]), b % 128, Pow128(|s| - 1));
    }
  }

  lemma Distribute(a: int, d: int, b: int, p: int)
    ensures a + 128 * (d + b * p) == a + 128 * d + b * (128 * p)
  {
  }

  lemma {:induction false} DigitsBound(s: seq<byte>)
    ensures Digits(s) < Pow128(|s|)
    decreases |s|
  {
    if s != [] {
      DigitsBound(s[1..]);
    }
  }

  lemma PrefixTerminatedUnique(s: seq<byte>, a: seq<byte>, b: seq<byte>)
    requires Terminated(a) && Terminated(b) && a <= s && b <= s
    ensures a == b
  {
    assert forall i :: 0 <= i < |a| ==> a[i] == s[i];
    assert forall i :: 0 <= i < |b| ==> b[i] == s[i];
    var m := if |a| < |b| then |a| else |b|;
    assert s[m - 1] < 128;
    assert a == s[..|a|] && b == s[..|b|];
  }
}

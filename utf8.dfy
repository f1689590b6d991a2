/**
 * UTF-8 as Go's unicode/utf8 package implements it (section 3 of RFC 3629):
 * DecodeRuneInString and AppendRune, on strings of bytes.
 */
module Utf8 {

  /** A Go string is a sequence of bytes. */
  type Byte = b: int | 0 <= b < 256

  /** The bytes of an ASCII text, one byte per character. */
  function Ascii(s: string): (b: seq<Byte>)
    requires forall i :: 0 <= i < |s| ==> s[i] as int < 128
    ensures |b| == |s| && forall i :: 0 <= i < |s| ==> b[i] == s[i] as int
  {
    seq(|s|, i requires 0 <= i < |s| => s[i] as int)
  }

  /** utf8.RuneError, U+FFFD. */
  const RuneError: int := 0xFFFD

  /** A continuation byte 10xxxxxx. */
  predicate IsCont(b: Byte) { 0x80 <= b <= 0xBF }

  /** A Unicode scalar value: what a successful decode can return. */
  predicate IsScalar(r: int) { 0 <= r <= 0x10FFFF && !(0xD800 <= r <= 0xDFFF) }

  /**
   * The continuation bytes of a multi-byte encoding: `need` more bytes from
   * position `k`, the first of them within [lo, hi] and the others within
   * [0x80, 0xBF], each adding six bits to `acc`. A missing or out-of-range
   * byte makes the encoding invalid, which decodes as (RuneError, 1).
   */
  function Continue(s: seq<Byte>, k: nat, need: nat, acc: int, lo: int, hi: int): (res: (int, nat))
    requires 1 <= k <= |s|
    ensures (res.1 == k + need && k + need <= |s|) || res == (RuneError, 1)
    decreases need
  {
    if need == 0 then (acc, k)
    else if k >= |s| || !(lo <= s[k] <= hi) then (RuneError, 1)
    else Continue(s, k + 1, need - 1, acc * 64 + (s[k] as int - 0x80), 0x80, 0xBF)
  }

  /**
   * utf8.DecodeRuneInString: the first rune of `s` and its width in bytes.
   * An empty input gives (RuneError, 0); an invalid or truncated encoding
   * gives (RuneError, 1). The lead byte fixes the number of continuation
   * bytes and the range of the first of them (which excludes overlong forms,
   * surrogates and values above U+10FFFF).
   */
  function DecodeRune(s: seq<Byte>): (res: (int, nat))
    ensures |s| == 0 <==> res.1 == 0
    ensures |s| == 0 ==> res.0 == RuneError
    ensures |s| > 0 ==> 1 <= res.1 <= 4 && res.1 <= |s|
  {
    if |s| == 0 then (RuneError, 0)
    else
      var b0: int := s[0];
      if b0 < 0x80 then (b0, 1)
      else if 0xC2 <= b0 <= 0xDF then Continue(s, 1, 1, b0 - 0xC0, 0x80, 0xBF)
      else if 0xE0 <= b0 <= 0xEF then
        Continue(s, 1, 2, b0 - 0xE0, if b0 == 0xE0 then 0xA0 else 0x80, if b0 == 0xED then 0x9F else 0xBF)
      else if 0xF0 <= b0 <= 0xF4 then
        Continue(s, 1, 3, b0 - 0xF0, if b0 == 0xF0 then 0x90 else 0x80, if b0 == 0xF4 then 0x8F else 0xBF)
      else (RuneError, 1)
  }

  /** An ASCII byte decodes as itself, one byte wide. */
  lemma DecodeAscii(s: seq<Byte>)
    requires |s| > 0 && s[0] < 0x80
    ensures DecodeRune(s) == (s[0] as int, 1)
  {
  }

  /** An ASCII rune is decoded only from its own single byte. */
  lemma AsciiRuneIsOneByte(s: seq<Byte>)
    requires 0 <= DecodeRune(s).0 < 0x80
    ensures |s| > 0 && DecodeRune(s) == (s[0] as int, 1)
  {
    EncodeDecode(s);
  }

  /** The well-formed two-byte encodings: lead C2..DF, one continuation byte. */
  predicate Form2(s: seq<Byte>) { |s| >= 2 && 0xC2 <= s[0] <= 0xDF && IsCont(s[1]) }

  /** The well-formed three-byte encodings (no overlong forms, no surrogates). */
  predicate Form3(s: seq<Byte>) {
    |s| >= 3 && 0xE0 <= s[0] <= 0xEF && IsCont(s[2]) &&
    (if s[0] == 0xE0 then 0xA0 else 0x80) <= s[1] <= (if s[0] == 0xED then 0x9F else 0xBF)
  }

  /** The well-formed four-byte encodings (no overlong forms, nothing above U+10FFFF). */
  predicate Form4(s: seq<Byte>) {
    |s| >= 4 && 0xF0 <= s[0] <= 0xF4 && IsCont(s[2]) && IsCont(s[3]) &&
    (if s[0] == 0xF0 then 0x90 else 0x80) <= s[1] <= (if s[0] == 0xF4 then 0x8F else 0xBF)
  }

  function Value2(s: seq<Byte>): int requires |s| >= 2 {
    (s[0] as int - 0xC0) * 64 + (s[1] as int - 0x80)
  }

  function Value3(s: seq<Byte>): int requires |s| >= 3 {
    ((s[0] as int - 0xE0) * 64 + (s[1] as int - 0x80)) * 64 + (s[2] as int - 0x80)
  }

  function Value4(s: seq<Byte>): int requires |s| >= 4 {
    (((s[0] as int - 0xF0) * 64 + (s[1] as int - 0x80)) * 64 + (s[2] as int - 0x80)) * 64 + (s[3] as int - 0x80)
  }

  /** What each width of a decode means: the bytes it read and the value it built. */
  lemma DecodeCases(s: seq<Byte>)
    ensures var (r, w) := DecodeRune(s);
      (w == 1 ==> r == RuneError || (s[0] < 0x80 && r == s[0] as int)) &&
      (w == 2 ==> Form2(s) && r == Value2(s)) &&
      (w == 3 ==> Form3(s) && r == Value3(s)) &&
      (w == 4 ==> Form4(s) && r == Value4(s))
  {
    if |s| > 0 {
      var b0: int := s[0];
      if 0xC2 <= b0 <= 0xDF && |s| >= 2 && IsCont(s[1]) {
        assert Continue(s, 1, 1, b0 - 0xC0, 0x80, 0xBF) == Continue(s, 2, 0, Value2(s), 0x80, 0xBF);
      } else if 0xE0 <= b0 <= 0xEF {
        var lo, hi := if b0 == 0xE0 then 0xA0 else 0x80, if b0 == 0xED then 0x9F else 0xBF;
        if |s| >= 2 && lo <= s[1] <= hi {
          var acc := b0 - 0xE0;
          assert Continue(s, 1, 2, acc, lo, hi) == Continue(s, 2, 1, acc * 64 + (s[1] as int - 0x80), 0x80, 0xBF);
          if |s| >= 3 && IsCont(s[2]) {
            assert Continue(s, 2, 1, acc * 64 + (s[1] as int - 0x80), 0x80, 0xBF) == Continue(s, 3, 0, Value3(s), 0x80, 0xBF);
          }
        }
      } else if 0xF0 <= b0 <= 0xF4 {
        var lo, hi := if b0 == 0xF0 then 0x90 else 0x80, if b0 == 0xF4 then 0x8F else 0xBF;
        if |s| >= 2 && lo <= s[1] <= hi {
          var acc := b0 - 0xF0;
          var acc1 := acc * 64 + (s[1] as int - 0x80);
          assert Continue(s, 1, 3, acc, lo, hi) == Continue(s, 2, 2, acc1, 0x80, 0xBF);
          if |s| >= 3 && IsCont(s[2]) {
            var acc2 := acc1 * 64 + (s[2] as int - 0x80);
            assert Continue(s, 2, 2, acc1, 0x80, 0xBF) == Continue(s, 3, 1, acc2, 0x80, 0xBF);
            if |s| >= 4 && IsCont(s[3]) {
              assert Continue(s, 3, 1, acc2, 0x80, 0xBF) == Continue(s, 4, 0, Value4(s), 0x80, 0xBF);
            }
          }
        }
      }
    }
  }

  /** The well-formed encodings decode to their value, at their width. */
  lemma DecodeForms(s: seq<Byte>)
    ensures Form2(s) ==> DecodeRune(s) == (Value2(s), 2)
    ensures Form3(s) ==> DecodeRune(s) == (Value3(s), 3)
    ensures Form4(s) ==> DecodeRune(s) == (Value4(s), 4)
  {
    if Form2(s) {
      assert Continue(s, 1, 1, s[0] as int - 0xC0, 0x80, 0xBF) == Continue(s, 2, 0, Value2(s), 0x80, 0xBF);
    } else if Form3(s) {
      var acc := s[0] as int - 0xE0;
      var lo, hi := if s[0] == 0xE0 then 0xA0 else 0x80, if s[0] == 0xED then 0x9F else 0xBF;
      assert Continue(s, 1, 2, acc, lo, hi) == Continue(s, 2, 1, acc * 64 + (s[1] as int - 0x80), 0x80, 0xBF);
      assert Continue(s, 2, 1, acc * 64 + (s[1] as int - 0x80), 0x80, 0xBF) == Continue(s, 3, 0, Value3(s), 0x80, 0xBF);
    } else if Form4(s) {
      var acc := s[0] as int - 0xF0;
      var lo, hi := if s[0] == 0xF0 then 0x90 else 0x80, if s[0] == 0xF4 then 0x8F else 0xBF;
      var acc1 := acc * 64 + (s[1] as int - 0x80);
      var acc2 := acc1 * 64 + (s[2] as int - 0x80);
      assert Continue(s, 1, 3, acc, lo, hi) == Continue(s, 2, 2, acc1, 0x80, 0xBF);
      assert Continue(s, 2, 2, acc1, 0x80, 0xBF) == Continue(s, 3, 1, acc2, 0x80, 0xBF);
      assert Continue(s, 3, 1, acc2, 0x80, 0xBF) == Continue(s, 4, 0, Value4(s), 0x80, 0xBF);
    }
  }

  /** A rune other than RuneError, and any multi-byte decode, is a Unicode scalar value. */
  lemma DecodeScalar(s: seq<Byte>)
    ensures DecodeRune(s).0 != RuneError ==> IsScalar(DecodeRune(s).0)
    ensures DecodeRune(s).1 > 1 ==> IsScalar(DecodeRune(s).0)
  {
    DecodeCases(s);
  }

  /** The three bytes EF BF BD that encode U+FFFD. */
  const RuneErrorBytes: seq<Byte> := [0xEF, 0xBF, 0xBD]

  /**
   * utf8.AppendRune (and Go's string(r) conversion): the encoding of `r`;
   * a value that is not a scalar value is written as U+FFFD.
   */
  function EncodeRune(r: int): (e: seq<Byte>)
    ensures 1 <= |e| <= 4
    ensures !IsScalar(r) ==> e == RuneErrorBytes
  {
    var q1 := r / 64;
    var q2 := q1 / 64;
    var q3 := q2 / 64;
    if 0 <= r < 0x80 then [r]
    else if 0x80 <= r < 0x800 then [0xC0 + q1, 0x80 + r % 64]
    else if !IsScalar(r) then RuneErrorBytes
    else if r < 0x10000 then [0xE0 + q2, 0x80 + q1 % 64, 0x80 + r % 64]
    else [0xF0 + q3, 0x80 + q2 % 64, 0x80 + q1 % 64, 0x80 + r % 64]
  }

  /** Splitting a number into a base-64 digit and the rest, and back. */
  lemma DivMod64(x: int, y: int)
    requires 0 <= y < 64
    ensures (x * 64 + y) / 64 == x && (x * 64 + y) % 64 == y
  {
  }

  /** Decoding reads back what encoding wrote, whatever follows it. */
  lemma DecodeEncode(r: int, rest: seq<Byte>)
    requires IsScalar(r)
    ensures DecodeRune(EncodeRune(r) + rest) == (r, |EncodeRune(r)|)
  {
    if r < 0x80 {
    } else if r < 0x800 {
      DecodeEncode2(r, rest);
    } else if r < 0x10000 {
      DecodeEncode3(r, rest);
    } else {
      DecodeEncode4(r, rest);
    }
  }

  lemma DecodeEncode2(r: int, rest: seq<Byte>)
    requires 0x80 <= r < 0x800
    ensures DecodeRune(EncodeRune(r) + rest) == (r, 2)
  {
    DivMod64(r / 64, r % 64);
    var s := EncodeRune(r) + rest;
    assert s[0] == 0xC0 + r / 64 && s[1] == 0x80 + r % 64;
    DecodeForms(s);
  }

  lemma DecodeEncode3(r: int, rest: seq<Byte>)
    requires 0x800 <= r < 0x10000 && IsScalar(r)
    ensures DecodeRune(EncodeRune(r) + rest) == (r, 3)
  {
    var q1 := r / 64;
    DivMod64(q1, r % 64);
    DivMod64(q1 / 64, q1 % 64);
    var s := EncodeRune(r) + rest;
    assert s[0] == 0xE0 + q1 / 64 && s[1] == 0x80 + q1 % 64 && s[2] == 0x80 + r % 64;
    DecodeForms(s);
  }

  lemma DecodeEncode4(r: int, rest: seq<Byte>)
    requires 0x10000 <= r && IsScalar(r)
    ensures DecodeRune(EncodeRune(r) + rest) == (r, 4)
  {
    var q1 := r / 64;
    var q2 := q1 / 64;
    DivMod64(q1, r % 64);
    DivMod64(q2, q1 % 64);
    DivMod64(q2 / 64, q2 % 64);
    var s := EncodeRune(r) + rest;
    assert s[0] == 0xF0 + q2 / 64 && s[1] == 0x80 + q2 % 64 && s[2] == 0x80 + q1 % 64 && s[3] == 0x80 + r % 64;
    DecodeForms(s);
  }

  /** Encoding a successfully decoded rune gives back the bytes it was decoded from. */
  lemma EncodeDecode(s: seq<Byte>)
    requires DecodeRune(s).0 != RuneError
    ensures EncodeRune(DecodeRune(s).0) == s[..DecodeRune(s).1]
  {
    DecodeCases(s);
    DecodeScalar(s);
    var w := DecodeRune(s).1;
    if w == 1 {
      assert s[..1] == [s[0]];
    } else if w == 2 {
      EncodeDecode2(s);
    } else if w == 3 {
      EncodeDecode3(s);
    } else if w == 4 {
      EncodeDecode4(s);
    }
  }

  lemma EncodeDecode2(s: seq<Byte>)
    requires Form2(s)
    ensures EncodeRune(Value2(s)) == s[..2]
  {
    var x, y := s[0] as int - 0xC0, s[1] as int - 0x80;
    DivMod64(x, y);
    assert s[..2] == [s[0], s[1]];
  }

  lemma EncodeDecode3(s: seq<Byte>)
    requires Form3(s) && IsScalar(Value3(s))
    ensures EncodeRune(Value3(s)) == s[..3]
  {
    var x, y, z := s[0] as int - 0xE0, s[1] as int - 0x80, s[2] as int - 0x80;
    DivMod64(x * 64 + y, z);
    DivMod64(x, y);
    assert s[..3] == [s[0], s[1], s[2]];
  }

  lemma EncodeDecode4(s: seq<Byte>)
    requires Form4(s) && IsScalar(Value4(s))
    ensures EncodeRune(Value4(s)) == s[..4]
  {
    var x, y, z, u := s[0] as int - 0xF0, s[1] as int - 0x80, s[2] as int - 0x80, s[3] as int - 0x80;
    DivMod64((x * 64 + y) * 64 + z, u);
    DivMod64(x * 64 + y, z);
    DivMod64(x, y);
    assert s[..4] == [s[0], s[1], s[2], s[3]];
  }

  /**
   * A successful decode only looks at the bytes it consumes: any input that
   * starts with the same bytes decodes to the same rune.
   */
  lemma DecodePrefix(s: seq<Byte>, t: seq<Byte>)
    requires DecodeRune(s).0 != RuneError
    requires |t| >= DecodeRune(s).1 && t[..DecodeRune(s).1] == s[..DecodeRune(s).1]
    ensures DecodeRune(t) == DecodeRune(s)
  {
    var w := DecodeRune(s).1;
    assert forall k :: 0 <= k < w ==> t[k] == t[..w][k] == s[..w][k] == s[k];
    DecodeCases(s);
    DecodeForms(t);
  }
}

/** Bytes, big-endian integers, UTF-8 text and the Option wrapper shared by every
    other module of the model. */
module Basics {

  datatype Option<+T> = None | Some(value: T)

  /** One octet of the output file. */
  type Byte = b: int | 0 <= b < 256

  /** The largest value the 32-bit size field of a compact box header can hold. */
  const MaxUint32: nat := 0xFFFF_FFFF

  /** The unsigned value of a big-endian byte string. */
  function FromBe(s: seq<Byte>): nat
  {
    if s == [] then 0 else FromBe(s[..|s| - 1]) * 256 + s[|s| - 1]
  }

  /** Four big-endian bytes never exceed the largest 32-bit value. */
  lemma FromBeFourBytes(s: seq<Byte>)
    requires |s| == 4
    ensures FromBe(s) <= MaxUint32
  {
    assert s[..3][..2][..1][..0] == [];
    assert FromBe(s[..3][..2][..1]) < 256;
    assert FromBe(s[..3][..2]) < 0x1_0000;
    assert FromBe(s[..3]) < 0x100_0000;
  }

  /** `binary.BigEndian.PutUint32`: the four bytes of `n`, most significant first. */
  function Be32(n: nat): (r: seq<Byte>)
    requires n <= MaxUint32
    ensures |r| == 4 && FromBe(r) == n
  {
    var q1 := n / 256;
    var q2 := q1 / 256;
    var q3 := q2 / 256;
    var r := [q3, q2 % 256, q1 % 256, n % 256];
    assert r[..3][..2][..1] == [q3];
    assert FromBe(r[..3][..2][..1]) == q3;
    assert FromBe(r[..3][..2]) == q3 * 256 + q2 % 256 == q2;
    assert FromBe(r[..3]) == q2 * 256 + q1 % 256 == q1;
    r
  }

  /** `binary.BigEndian.PutUint16`: the two bytes of `n`, most significant first. */
  function Be16(n: nat): (r: seq<Byte>)
    requires n <= 0xFFFF
    ensures |r| == 2 && FromBe(r) == n
  {
    var r := [n / 256, n % 256];
    assert r[..1] == [n / 256];
    assert FromBe(r[..1]) == n / 256;
    r
  }

  /** `n` zero bytes, as `bytes.Repeat([]byte{0x00}, n)` produces them. */
  function Zeros(n: nat): (r: seq<Byte>)
    ensures |r| == n && forall i :: 0 <= i < n ==> r[i] == 0
  {
    seq(n, _ => 0)
  }

  /** The UTF-8 encoding of one Unicode scalar value. */
  function EncodeChar(c: char): (r: seq<Byte>)
    ensures 1 <= |r| <= 4
    ensures (c as int < 0x80) <==> (|r| == 1)
    ensures c as int < 0x80 ==> r == [c as int]
    ensures forall i :: 0 <= i < |r| ==> (r[i] < 0x80 <==> c as int < 0x80)
  {
    var n := c as int;
    if n < 0x80 then [n]
    else if n < 0x800 then [0xC0 + n / 64, 0x80 + n % 64]
    else if n < 0x1_0000 then [0xE0 + n / 4096, 0x80 + n / 64 % 64, 0x80 + n % 64]
    else [0xF0 + n / 0x4_0000, 0x80 + n / 4096 % 64, 0x80 + n / 64 % 64, 0x80 + n % 64]
  }

  /** The bytes of a Go string, `[]byte(s)`, for a string that holds valid UTF-8. */
  function Utf8(s: string): (r: seq<Byte>)
    ensures |r| >= |s|
    ensures |r| == 0 <==> |s| == 0
  {
    if s == [] then [] else EncodeChar(s[0]) + Utf8(s[1..])
  }

  /** The number of bytes a UTF-8 sequence starting with `lead` takes (section 3
      of RFC 3629); 0 for a byte that cannot start one. */
  function CharLength(lead: Byte): nat
  {
    if lead < 0x80 then 1
    else if 0xC0 <= lead < 0xE0 then 2
    else if 0xE0 <= lead < 0xF0 then 3
    else if 0xF0 <= lead < 0xF8 then 4
    else 0
  }

  /** The code point a UTF-8 sequence of one to four bytes spells: the lead
      byte's free bits followed by six bits from each continuation byte. */
  function DecodeChar(r: seq<Byte>): int
    requires 1 <= |r| <= 4
  {
    if |r| == 1 then r[0] as int
    else if |r| == 2 then (r[0] as int - 0xC0) * 64 + (r[1] as int - 0x80)
    else if |r| == 3 then (r[0] as int - 0xE0) * 4096 + (r[1] as int - 0x80) * 64 + (r[2] as int - 0x80)
    else (r[0] as int - 0xF0) * 0x4_0000 + (r[1] as int - 0x80) * 4096 + (r[2] as int - 0x80) * 64 + (r[3] as int - 0x80)
  }

  /** `EncodeChar` is a UTF-8 encoding: its lead byte announces its length, the
      other bytes are continuation bytes, and the bytes decode back to the
      character. */
  lemma EncodeCharDecodes(c: char)
    ensures CharLength(EncodeChar(c)[0]) == |EncodeChar(c)|
    ensures forall i :: 1 <= i < |EncodeChar(c)| ==> 0x80 <= EncodeChar(c)[i] < 0xC0
    ensures DecodeChar(EncodeChar(c)) == c as int
  {
    var n := c as int;
    if 0x80 <= n < 0x800 {
      TwoByteDigits(n);
    } else if 0x800 <= n < 0x1_0000 {
      ThreeByteDigits(n);
    } else if 0x1_0000 <= n {
      FourByteDigits(n);
    }
  }

  lemma TwoByteDigits(n: int)
    requires 0x80 <= n < 0x800
    ensures 0xC0 <= 0xC0 + n / 64 < 0xE0
    ensures (n / 64) * 64 + n % 64 == n
  {
  }

  lemma ThreeByteDigits(n: int)
    requires 0x800 <= n < 0x1_0000
    ensures 0xE0 <= 0xE0 + n / 4096 < 0xF0
    ensures (n / 4096) * 4096 + (n / 64 % 64) * 64 + n % 64 == n
  {
    assert n / 64 == n / 4096 * 64 + n / 64 % 64;
    assert n == n / 64 * 64 + n % 64;
  }

  lemma FourByteDigits(n: int)
    requires 0x1_0000 <= n < 0x11_0000
    ensures 0xF0 <= 0xF0 + n / 0x4_0000 < 0xF8
    ensures (n / 0x4_0000) * 0x4_0000 + (n / 4096 % 64) * 4096 + (n / 64 % 64) * 64 + n % 64 == n
  {
    assert n / 4096 == n / 0x4_0000 * 64 + n / 4096 % 64;
    assert n / 64 == n / 4096 * 64 + n / 64 % 64;
    assert n == n / 64 * 64 + n % 64;
  }

  /** A string's bytes are the bytes of its parts, one character at a time. */
  lemma {:induction false} Utf8Append(a: string, b: string)
    ensures Utf8(a + b) == Utf8(a) + Utf8(b)
  {
    if a != [] {
      assert (a + b)[0] == a[0] && (a + b)[1..] == a[1..] + b;
      Utf8Append(a[1..], b);
      calc {
        Utf8(a + b);
        EncodeChar(a[0]) + Utf8(a[1..] + b);
        EncodeChar(a[0]) + (Utf8(a[1..]) + Utf8(b));
        Utf8(a) + Utf8(b);
      }
    } else {
      assert a + b == b;
    }
  }

  /** A one-character string's bytes are that character's encoding. */
  lemma Utf8OfChar(c: char)
    ensures Utf8([c]) == EncodeChar(c)
  {
    assert [c][1..] == [];
  }

  /** Distinct strings have distinct bytes: `Utf8` can be decoded. */
  lemma {:induction false} Utf8Injective(s: string, t: string)
    requires Utf8(s) == Utf8(t)
    ensures s == t
  {
    if s != [] && t != [] {
      var u := Utf8(s);
      EncodeCharDecodes(s[0]);
      EncodeCharDecodes(t[0]);
      var len := CharLength(u[0]);
      assert EncodeChar(s[0]) == u[..len];
      assert EncodeChar(t[0]) == u[..len];
      assert s[0] as int == t[0] as int;
      assert Utf8(s[1..]) == u[len..] == Utf8(t[1..]);
      Utf8Injective(s[1..], t[1..]);
    }
  }

  predicate IsAscii(s: string)
  {
    forall i :: 0 <= i < |s| ==> s[i] as int < 0x80
  }

  /** For ASCII text, UTF-8 is the identity on code points. */
  lemma {:induction false} Utf8OfAscii(s: string)
    requires IsAscii(s)
    ensures |Utf8(s)| == |s|
    ensures forall i :: 0 <= i < |s| ==> Utf8(s)[i] == s[i] as int
  {
    if s != [] {
      Utf8OfAscii(s[1..]);
    }
  }

  /** Regrouping a concatenation of three runs. */
  lemma Assoc<T>(a: seq<T>, b: seq<T>, c: seq<T>)
    ensures a + b + c == a + (b + c)
  {
  }

  /** Regrouping a concatenation of four runs. */
  lemma Regroup<T>(head: seq<T>, p: seq<T>, x: seq<T>, y: seq<T>)
    ensures head + p + x + y == head + (p + (x + y))
  {
  }

  /** A non-empty sequence is its prefix and its last element. */
  lemma SnocSplit<T>(s: seq<T>)
    requires |s| > 0
    ensures s[..|s| - 1] + [s[|s| - 1]] == s
  {
  }
}

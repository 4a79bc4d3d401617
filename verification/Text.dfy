/** UTF-8 as Go and Redis see texts: concatenation of encodings, and no two texts with one encoding. */
module Text {
  import opened Common

  lemma {:induction false} Utf8Concat(a: string, b: string)
    ensures Utf8(a + b) == Utf8(a) + Utf8(b)
  {
    if a == [] {
      assert a + b == b;
    } else {
      assert (a + b)[1..] == a[1..] + b;
      Utf8Concat(a[1..], b);
    }
  }

  /** The length of an encoding, from its first byte. */
  function LeadLength(b: byte): nat {
    if b < 0x80 then 1 else if b < 0xE0 then 2 else if b < 0xF0 then 3 else 4
  }

  /** The code point of an encoded character. */
  function CodePoint(d: seq<byte>): int {
    if |d| == 1 then d[0]
    else if |d| == 2 then (d[0] as int - 0xC0) * 64 + (d[1] as int - 0x80)
    else if |d| == 3 then (d[0] as int - 0xE0) * 4096 + (d[1] as int - 0x80) * 64 + (d[2] as int - 0x80)
    else if |d| == 4 then
      (d[0] as int - 0xF0) * 262144 + (d[1] as int - 0x80) * 4096 + (d[2] as int - 0x80) * 64 + (d[3] as int - 0x80)
    else 0
  }

  lemma EncodingReadsBack(c: char)
    ensures LeadLength(Utf8Char(c)[0]) == |Utf8Char(c)| && CodePoint(Utf8Char(c)) == c as int
  {
    var n := c as nat;
    assert n < 0x110000;
    assert n == n / 64 * 64 + n % 64;
    assert n / 64 == n / 4096 * 64 + n / 64 % 64;
    assert n / 4096 == n / 262144 * 64 + n / 4096 % 64;
  }

  /** The first character and the rest can be told from the bytes. */
  lemma FirstCharacter(a: char, x: seq<byte>, b: char, y: seq<byte>)
    requires Utf8Char(a) + x == Utf8Char(b) + y
    ensures a == b && x == y
  {
    EncodingReadsBack(a);
    EncodingReadsBack(b);
    var s, t := Utf8Char(a) + x, Utf8Char(b) + y;
    assert s[0] == Utf8Char(a)[0] && t[0] == Utf8Char(b)[0];
    assert s[..|Utf8Char(a)|] == Utf8Char(a) && t[..|Utf8Char(b)|] == Utf8Char(b);
    assert s[|Utf8Char(a)|..] == x && t[|Utf8Char(b)|..] == y;
  }

  /** Texts with equal bytes are equal. */
  lemma {:induction false} Utf8Injective(a: string, b: string)
    requires Utf8(a) == Utf8(b)
    ensures a == b
  {
    if a != [] && b != [] {
      FirstCharacter(a[0], Utf8(a[1..]), b[0], Utf8(b[1..]));
      Utf8Injective(a[1..], b[1..]);
      assert a == [a[0]] + a[1..] && b == [b[0]] + b[1..];
    }
  }
}

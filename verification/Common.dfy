/** Types shared by the models: machine words as bounded integers, and Option. */
module Common {

  datatype Option<+T> = None | Some(value: T)

  /** 2^64, the modulus of Go's uint64 arithmetic. */
  const TWO_64: nat := 0x1_0000_0000_0000_0000

  /** 2^63, one more than the largest Go int. */
  const TWO_63: nat := 0x8000_0000_0000_0000

  type byte = x: nat | x < 256

  type uint64 = x: nat | x < TWO_64

  /** The UTF-8 encoding of one character. */
  function Utf8Char(c: char): (r: seq<byte>)
    ensures 1 <= |r| <= 4
  {
    var n := c as nat;
    if n < 0x80 then [n]
    else if n < 0x800 then [0xC0 + n / 64, 0x80 + n % 64]
    else if n < 0x10000 then [0xE0 + n / 4096, 0x80 + n / 64 % 64, 0x80 + n % 64]
    else [0xF0 + n / 262144 % 8, 0x80 + n / 4096 % 64, 0x80 + n / 64 % 64, 0x80 + n % 64]
  }

  /** The bytes of a text, as Go and Redis hold it. */
  function Utf8(s: string): seq<byte> {
    if s == [] then [] else Utf8Char(s[0]) + Utf8(s[1..])
  }

  /**
   * The representative of a character under Go's (?i) simple folding, for patterns
   * of ASCII letters: the long s folds to s and the Kelvin sign to k.
   */
  function FoldCase(c: char): char {
    if 'A' <= c <= 'Z' then c - 'A' + 'a'
    else if c == '\U{17F}' then 's'
    else if c == '\U{212A}' then 'k'
    else c
  }

  /** Case-insensitive equality of texts. */
  predicate EqualFold(a: string, b: string) {
    |a| == |b| && forall i :: 0 <= i < |a| ==> FoldCase(a[i]) == FoldCase(b[i])
  }
}

/** Shared value types: bytes, fixed-width integers, text and the optional value. */
module Basics {
  const WORDS := 0x1_0000_0000_0000_0000  // how many 64-bit words there are

  type Byte = b: int | 0 <= b < 0x100
  type Bytes = seq<Byte>
  type U16 = n: int | 0 <= n < 0x1_0000
  type U32 = n: int | 0 <= n < 0x1_0000_0000
  type U64 = n: int | 0 <= n < WORDS
  type Positive = n: int | 0 < n witness 1

  // A std::string holds bytes, so a character of one stays below 256.
  type ByteChar = c: char | c as int < 0x100
  type Text = seq<ByteChar>

  datatype Direction = ClientToServer | ServerToClient

  datatype Option<+T> = None | Some(value: T)

  lemma Regroup<T>(a: seq<T>, b: seq<T>, c: seq<T>)
    ensures a + b + c == a + (b + c)
  {
  }

  function Min(a: int, b: int): int {
    if a <= b then a else b
  }

  function Max(a: int, b: int): int {
    if a >= b then a else b
  }

  /** Lower-case hexadecimal. */
  function HexDigit(d: nat): (c: ByteChar)
    requires d < 16
    ensures c == "0123456789abcdef"[d]
  {
    if d < 10 then ('0' as int + d) as char else ('a' as int + d - 10) as char
  }

  function Power2(bits: nat): Positive {
    if bits == 0 then 1 else 2 * Power2(bits - 1)
  }

  function Power10(k: nat): Positive {
    if k == 0 then 1 else 10 * Power10(k - 1)
  }

  /** `value` added up `count` times; a product the solver need not multiply. */
  function Times(value: nat, count: int): nat {
    if count <= 0 then 0 else value + Times(value, count - 1)
  }

  lemma {:induction false} TimesIsProduct(value: nat, count: nat)
    ensures Times(value, count) == value * count
  {
    if count > 0 {
      TimesIsProduct(value, count - 1);
    }
  }

  lemma {:induction false} TimesGrows(value: nat, fewer: int, more: int)
    requires fewer < more && 0 < more
    ensures Times(value, fewer) + value <= Times(value, more)
    decreases more
  {
    if fewer + 1 < more && 1 < more {
      TimesGrows(value, fewer, more - 1);
    }
  }
}

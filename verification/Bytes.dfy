/** Bytes, machine-width integers, big-endian fields and the two result types used everywhere. */
module Bytes {

  type Byte = b: int | 0 <= b < 0x100
  type U16 = n: int | 0 <= n < 0x1_0000
  type U32 = n: int | 0 <= n < 0x1_0000_0000
  type U64 = n: int | 0 <= n < 0x1_0000_0000_0000_0000

  datatype Option<+T> = None | Some(value: T)

  datatype Result<+T> = Ok(value: T) | Err(what: string)

  /** A method that may throw after it has already changed its object. */
  datatype Outcome<+S> = Returned(state: S) | Threw(state: S, what: string)

  /** `htons` of the low 16 bits, as the two bytes it leaves in memory. */
  function Be16(n: nat): (s: seq<Byte>)
    ensures |s| == 2
  {
    [n / 0x100 % 0x100, n % 0x100]
  }

  /** `htonl` of the low 32 bits, as the four bytes it leaves in memory. */
  function Be32(n: nat): (s: seq<Byte>)
    ensures |s| == 4
  {
    Be16(n / 0x1_0000) + Be16(n)
  }

  function Read16(s: seq<Byte>, i: nat): U16
    requires i + 2 <= |s|
  {
    s[i] as int * 0x100 + s[i + 1]
  }

  function Read32(s: seq<Byte>, i: nat): U32
    requires i + 4 <= |s|
  {
    Read16(s, i) as int * 0x1_0000 + Read16(s, i + 2)
  }

  lemma ReadBe16(s: seq<Byte>, i: nat, n: nat)
    requires i + 2 <= |s| && s[i..i + 2] == Be16(n)
    ensures Read16(s, i) == n % 0x1_0000
  {
    assert s[i] == s[i..i + 2][0] && s[i + 1] == s[i..i + 2][1];
    SixteenBits(n);
  }

  lemma SixteenBits(n: nat)
    ensures n / 0x100 % 0x100 * 0x100 + n % 0x100 == n % 0x1_0000
  {
    var h := n / 0x100;
    assert n == h * 0x100 + n % 0x100 && h == h / 0x100 * 0x100 + h % 0x100;
    assert n == h / 0x100 * 0x1_0000 + (h % 0x100 * 0x100 + n % 0x100);
  }

  lemma ReadBe32(s: seq<Byte>, i: nat, n: nat)
    requires i + 4 <= |s| && s[i..i + 4] == Be32(n)
    ensures Read32(s, i) == n % 0x1_0000_0000
  {
    assert s[i..i + 2] == s[i..i + 4][..2] == Be16(n / 0x1_0000);
    assert s[i + 2..i + 4] == s[i..i + 4][2..] == Be16(n);
    ReadBe16(s, i, n / 0x1_0000);
    ReadBe16(s, i + 2, n);
  }

  /** Overwrites the bytes of `s` from `at` on with `t`, as `memcpy` does. */
  function Splice(s: seq<Byte>, at: nat, t: seq<Byte>): (r: seq<Byte>)
    requires at + |t| <= |s|
    ensures |r| == |s|
  {
    s[..at] + t + s[at + |t|..]
  }

  /** `n` bytes of memory as they are found. */
  function Fill(n: nat, memory: nat -> Byte): (s: seq<Byte>)
    ensures |s| == n
  {
    seq<Byte>(n, i requires 0 <= i => memory(i))
  }
}

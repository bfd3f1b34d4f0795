// base64Encode and base64Decode of util/Base64.cpp. The reference reads a byte string and a string of
// base64 digits as big-endian numbers of any size; the program sees at most three bytes at a time
// when encoding and a 32-bit accumulator that drops its high bits when decoding.

module Base64 {
  import opened Bytes

  const WORD := 0x1_0000_0000

  type Sextet = v: int | 0 <= v < 64

  /** n characters from c on. */
  function Range(c: Char, n: nat): (r: seq<Char>)
    requires c as int + n <= 256
    ensures |r| == n && forall i | 0 <= i < n :: r[i] == c + i as char
  {
    seq(n, i requires 0 <= i < n => c + i as char)
  }

  /** kAlphabet: the upper-case letters, the lower-case letters, the digits, '+' and '/'. */
  function Alphabet(): seq<Char> { Range('A', 26) + Range('a', 26) + Range('0', 10) + ['+', '/'] }

  /** Table 1 of RFC 4648. */
  function Letter(v: Sextet): Char {
    if v < 26 then 'A' + v as char
    else if v < 52 then 'a' + (v - 26) as char
    else if v < 62 then '0' + (v - 52) as char
    else if v == 62 then '+' else '/'
  }

  /** The digit a character stands for, -1 for the others: kTable. */
  function Value(c: char): (v: int)
    ensures -1 <= v < 64
  {
    if 'A' <= c <= 'Z' then c as int - 'A' as int
    else if 'a' <= c <= 'z' then c as int - 'a' as int + 26
    else if '0' <= c <= '9' then c as int - '0' as int + 52
    else if c == '+' then 62
    else if c == '/' then 63
    else -1
  }

  lemma ValueOfLetter(v: Sextet)
    ensures Value(Letter(v)) == v && Letter(v) != '='
  {
  }

  lemma AlphabetLetters()
    ensures |Alphabet()| == 64 && forall v: Sextet :: Alphabet()[v] == Letter(v)
  {
  }

  /** The alphabet spelt out. */
  lemma AlphabetText()
    ensures Alphabet() == "ABCDEFGHIJKLMNOPQRSTUVWXYZ" + "abcdefghijklmnopqrstuvwxyz" + "0123456789" + "+/"
  {
    assert Range('A', 26) == "ABCDEFGHIJKLMNOPQRSTUVWXYZ";
    assert Range('a', 26) == "abcdefghijklmnopqrstuvwxyz";
    assert Range('0', 10) == "0123456789";
  }

  // Numbers and their digits, most significant first.

  function Number(data: seq<Byte>): nat {
    if data == [] then 0 else Number(data[..|data| - 1]) * 256 + data[|data| - 1]
  }

  function BytesOf(n: nat, len: nat): (r: seq<Byte>)
    ensures |r| == len
    decreases len
  {
    if len == 0 then [] else BytesOf(n / 256, len - 1) + [n % 256]
  }

  function SextetNumber(vs: seq<Sextet>): nat {
    if vs == [] then 0 else SextetNumber(vs[..|vs| - 1]) * 64 + vs[|vs| - 1]
  }

  function Sextets(n: nat, len: nat): (r: seq<Sextet>)
    ensures |r| == len
    decreases len
  {
    if len == 0 then [] else Sextets(n / 64, len - 1) + [n % 64]
  }

  /** n has no more than len base-64 digits. */
  predicate Fits(n: nat, len: nat)
    decreases len
  {
    if len == 0 then n == 0 else Fits(n / 64, len - 1)
  }

  function Letters(vs: seq<Sextet>): (r: seq<Char>)
    ensures |r| == |vs|
  {
    seq(|vs|, i requires 0 <= i < |vs| => Letter(vs[i]))
  }

  // Section 4 of RFC 4648: the bits of the data, filled up with zero bits to whole sextets.

  /** Two to the number of zero bits that fill the last sextet. */
  function Filler(n: nat): (r: nat)
    ensures r > 0
  {
    if n % 3 == 0 then 1 else if n % 3 == 1 then 16 else 4
  }

  function Padding(n: nat): string {
    if n % 3 == 0 then "" else if n % 3 == 1 then "==" else "="
  }

  function Digits(data: seq<Byte>): seq<Sextet> {
    Sextets(Number(data) * Filler(|data|), (4 * |data| + 2) / 3)
  }

  function Encoded(data: seq<Byte>): string { Letters(Digits(data)) + Padding(|data|) }

  /** The digits of a string: all alphabet characters before the first '='. */
  function Values(s: string): seq<Sextet> {
    if s == [] || s[0] == '=' then []
    else if Value(s[0]) < 0 then Values(s[1..])
    else [Value(s[0])] + Values(s[1..])
  }

  /** Two to the number of bits that are left over when the bits of k sextets are cut into bytes. */
  function Spare(k: nat): (r: nat)
    ensures r > 0
  {
    Two(6 * k % 8)
  }

  function Two(bits: nat): (r: nat)
    ensures r > 0
  {
    if bits == 0 then 1 else if bits == 2 then 4 else if bits == 4 then 16 else 64
  }

  function Shifted(n: nat, bits: nat): nat { n / Two(bits) }

  /** The whole bytes among the bits of the digits. */
  function Decoded(s: string): seq<Byte> {
    var vs := Values(s);
    BytesOf(SextetNumber(vs) / Spare(|vs|), 6 * |vs| / 8)
  }

  // The program.

  /** The sextet of the 24-bit n that has k sextets below it. */
  function Digit(n: nat, k: nat): Sextet {
    n / (if k == 0 then 1 else if k == 1 then 64 else if k == 2 then 0x1000 else 0x4_0000) % 64
  }

  /** Three bytes as one 24-bit number. */
  function Group(a: Byte, b: Byte, c: Byte): (n: nat)
    ensures n < 0x100_0000
  {
    a as int * 0x1_0000 + b as int * 0x100 + c
  }

  method Encode(input: seq<Byte>) returns (out: string)
    ensures out == Encoded(input)
  {
    hide *;
    AlphabetLetters();
    var i;
    out, i := EncodeGroups(input);
    EncodedTail(input, i / 3);
    var remaining := |input| - i;
    if remaining == 1 {
      var n := input[i] as int * 0x1_0000;
      out := out + [Alphabet()[Digit(n, 3)]];
      out := out + [Alphabet()[Digit(n, 2)]];
      out := out + ['='];
      out := out + ['='];
    } else if remaining == 2 {
      var n := input[i] as int * 0x1_0000 + input[i + 1] as int * 0x100;
      out := out + [Alphabet()[Digit(n, 3)]];
      out := out + [Alphabet()[Digit(n, 2)]];
      out := out + [Alphabet()[Digit(n, 1)]];
      out := out + ['='];
    }
  }

  /** The loop over whole groups of three bytes. */
  method EncodeGroups(input: seq<Byte>) returns (out: string, i: nat)
    ensures i == |input| / 3 * 3
    ensures out == Letters(Sextets(Number(input[..i]), |input| / 3 * 4))
  {
    AlphabetLetters();
    out, i := [], 0;
    ghost var groups := 0;
    while i + 3 <= |input|
      invariant i == 3 * groups <= |input|
      invariant out == Letters(Sextets(Number(input[..i]), 4 * groups))
    {
      hide *;
      var n := Group(input[i], input[i + 1], input[i + 2]);
      out := out + [Alphabet()[Digit(n, 3)]];
      out := out + [Alphabet()[Digit(n, 2)]];
      out := out + [Alphabet()[Digit(n, 1)]];
      out := out + [Alphabet()[Digit(n, 0)]];
      EncodeStep(input, i, groups);
      i := i + 3;
      groups := groups + 1;
    }
    Groups(|input|, groups);
  }

  /** What one group adds. */
  lemma EncodeStep(data: seq<Byte>, i: nat, groups: nat)
    requires i == 3 * groups && i + 3 <= |data| && |Alphabet()| == 64
    ensures var n := Group(data[i], data[i + 1], data[i + 2]);
            Letters(Sextets(Number(data[..i + 3]), 4 * (groups + 1)))
            == Letters(Sextets(Number(data[..i]), 4 * groups))
               + [Alphabet()[Digit(n, 3)]] + [Alphabet()[Digit(n, 2)]] + [Alphabet()[Digit(n, 1)]] + [Alphabet()[Digit(n, 0)]]
  {
    hide *;
    var n := Group(data[i], data[i + 1], data[i + 2]);
    AlphabetLetters();
    ThreeMore(data, i);
    QuantumSextets(Number(data[..i]), n, 4 * groups);
    FourLetters(Sextets(Number(data[..i]), 4 * groups), Digit(n, 3), Digit(n, 2), Digit(n, 1), Digit(n, 0));
  }

  /** What follows the whole groups. */
  lemma EncodedTail(data: seq<Byte>, groups: nat)
    requires 3 * groups <= |data| < 3 * groups + 3
    ensures var i, whole := 3 * groups, Letters(Sextets(Number(data[..3 * groups]), 4 * groups));
            Encoded(data) ==
            if |data| == i then whole
            else if |data| == i + 1 then
              var n := data[i] as int * 0x1_0000;
              whole + [Letter(Digit(n, 3))] + [Letter(Digit(n, 2))] + ['='] + ['=']
            else
              var n := data[i] as int * 0x1_0000 + data[i + 1] as int * 0x100;
              whole + [Letter(Digit(n, 3))] + [Letter(Digit(n, 2))] + [Letter(Digit(n, 1))] + ['=']
  {
    hide Letter, Sextets, Number, Digit, Digits, Filler;
    var i := 3 * groups;
    TailDigits(data, groups);
    Groups(|data|, groups);
    var whole := Sextets(Number(data[..i]), 4 * groups);
    if |data| == i + 1 {
      var n := data[i] as int * 0x1_0000;
      assert Letters(whole + [Digit(n, 3), Digit(n, 2)]) == Letters(whole) + [Letter(Digit(n, 3))] + [Letter(Digit(n, 2))];
    }
  }

  lemma TailDigits(data: seq<Byte>, groups: nat)
    requires 3 * groups <= |data| < 3 * groups + 3
    ensures var i, whole := 3 * groups, Sextets(Number(data[..3 * groups]), 4 * groups);
            Digits(data) ==
            if |data| == i then whole
            else if |data| == i + 1 then
              var n := data[i] as int * 0x1_0000;
              whole + [Digit(n, 3), Digit(n, 2)]
            else
              var n := data[i] as int * 0x1_0000 + data[i + 1] as int * 0x100;
              whole + [Digit(n, 3), Digit(n, 2), Digit(n, 1)]
  {
    hide Letter, Sextets, Number, Digit;
    var i := 3 * groups;
    GroupCount(|data|);
    Groups(|data|, groups);
    assert data[..|data|] == data;
    if |data| == i + 1 {
      OneMore(data, i);
      TailSextets(Number(data[..i]), data[i] as int * 0x1_0000, 4 * groups, 1);
    } else if |data| == i + 2 {
      TwoMore(data, i);
      TailSextets(Number(data[..i]), data[i] as int * 0x1_0000 + data[i + 1] as int * 0x100, 4 * groups, 2);
    }
  }

  lemma Groups(n: nat, groups: nat)
    requires 3 * groups <= n < 3 * groups + 3
    ensures n / 3 == groups && n % 3 == n - 3 * groups
  {
  }

  lemma FourLetters(vs: seq<Sextet>, a: Sextet, b: Sextet, c: Sextet, d: Sextet)
    ensures Letters(vs + [a, b, c, d]) == Letters(vs) + [Letter(a)] + [Letter(b)] + [Letter(c)] + [Letter(d)]
  {
  }

  lemma GroupCount(n: nat)
    ensures (4 * n + 2) / 3 == n / 3 * 4 + (if n % 3 == 0 then 0 else n % 3 + 1)
    ensures 6 * ((4 * n + 2) / 3) / 8 == n
    ensures 6 * ((4 * n + 2) / 3) % 8 == if n % 3 == 0 then 0 else if n % 3 == 1 then 4 else 2
  {
    assert n == n / 3 * 3 + n % 3;
  }

  lemma OneMore(data: seq<Byte>, i: nat)
    requires i < |data|
    ensures Number(data[..i + 1]) == Number(data[..i]) * 256 + data[i]
  {
    assert data[..i + 1][..i] == data[..i];
  }

  lemma TwoMore(data: seq<Byte>, i: nat)
    requires i + 2 <= |data|
    ensures Number(data[..i + 2]) == Number(data[..i]) * 0x1_0000 + data[i] as int * 0x100 + data[i + 1]
  {
    OneMore(data, i);
    OneMore(data, i + 1);
  }

  lemma ThreeMore(data: seq<Byte>, i: nat)
    requires i + 3 <= |data|
    ensures Number(data[..i + 3])
            == Number(data[..i]) * 0x100_0000 + Group(data[i], data[i + 1], data[i + 2])
  {
    TwoMore(data, i);
    OneMore(data, i + 2);
  }

  /** Three bytes are four sextets. */
  lemma QuantumSextets(x: nat, n: nat, len: nat)
    requires n < 0x100_0000
    ensures Sextets(x * 0x100_0000 + n, len + 4)
            == Sextets(x, len) + [Digit(n, 3), Digit(n, 2), Digit(n, 1), Digit(n, 0)]
  {
    var y := x * 0x100_0000 + n;
    assert y / 64 == x * 0x4_0000 + n / 64 && y / 64 / 64 == x * 0x1000 + n / 0x1000;
    assert y / 64 / 64 / 64 == x * 64 + n / 0x4_0000 && y / 64 / 64 / 64 / 64 == x;
    assert Sextets(y, len + 4) == Sextets(y / 64, len + 3) + [n % 64];
    assert Sextets(y / 64, len + 3) == Sextets(y / 64 / 64, len + 2) + [n / 64 % 64];
    assert Sextets(y / 64 / 64, len + 2) == Sextets(y / 64 / 64 / 64, len + 1) + [n / 0x1000 % 64];
  }

  /** One or two last bytes, with n holding them in its upper bytes, are two or three sextets. */
  lemma TailSextets(x: nat, n: nat, len: nat, k: nat)
    requires n < 0x100_0000 && 1 <= k <= 2
    requires n % (if k == 1 then 0x1_0000 else 0x100) == 0
    ensures k == 1 ==> Sextets((x * 0x100 + n / 0x1_0000) * 16, len + 2)
                       == Sextets(x, len) + [Digit(n, 3), Digit(n, 2)]
    ensures k == 2 ==> Sextets((x * 0x1_0000 + n / 0x100) * 4, len + 3)
                       == Sextets(x, len) + [Digit(n, 3), Digit(n, 2), Digit(n, 1)]
  {
    var z := x * 0x100_0000 + n;
    QuantumSextets(x, n, len);
    var all := Sextets(z, len + 4);
    assert all[..len + 3] == Sextets(z / 64, len + 3);
    if k == 1 {
      assert all[..len + 3][..len + 2] == Sextets(z / 64 / 64, len + 2);
      assert z / 64 / 64 == (x * 0x100 + n / 0x1_0000) * 16;
    } else {
      assert z / 64 == (x * 0x1_0000 + n / 0x100) * 4;
    }
  }

  method FillTable() returns (table: array<int>)
    ensures fresh(table) && table.Length == 256
    ensures forall c: Char :: table[c as int] == Value(c)
  {
    AlphabetLetters();
    table := new int[256](_ => -1);
    for i := 0 to 64
      invariant forall c: Char :: table[c as int] == if Value(c) < i then Value(c) else -1
    {
      hide Alphabet;
      ValueOfLetter(i);
      LetterOfValue();
      table[Alphabet()[i] as int] := i;
    }
  }

  lemma LetterOfValue()
    ensures forall c: Char :: Value(c) >= 0 ==> Letter(Value(c)) == c
  {
  }

  method Decode(input: seq<Char>) returns (out: seq<Byte>)
    ensures out == Decoded(input)
  {
    var table := FillTable();
    out := [];
    var buffer, bits := 0, 0;
    var i := 0;
    ghost var vs: seq<Sextet> := [];
    while i < |input| && input[i] != '='
      invariant 0 <= i <= |input|
      invariant forall c: Char :: table[c as int] == Value(c)
      invariant Values(input) == vs + Values(input[i..])
      invariant 8 * |out| + bits == 6 * |vs| && bits in {0, 2, 4, 6}
      invariant buffer == SextetNumber(vs) % WORD
      invariant out == BytesOf(Shifted(SextetNumber(vs), bits), |out|)
    {
      hide *;
      var value := table[input[i] as int];
      ValuesStep(input, i, vs);
      if value >= 0 {
        DigitRead(vs, value, bits, out);
        buffer := (buffer * 64 + value) % WORD;
        bits := bits + 6;
        if bits >= 8 {
          bits := bits - 8;
          out := out + [Shifted(buffer, bits) % 256];
        }
        vs := vs + [value];
      }
      i := i + 1;
    }
    BitsLeft(|vs|, |out|, bits);
    assert Values(input) == vs;
  }

  lemma ValuesStep(input: seq<Char>, i: nat, vs: seq<Sextet>)
    requires i < |input| && input[i] != '='
    ensures vs + Values(input[i..])
            == (if Value(input[i]) < 0 then vs else vs + [Value(input[i])]) + Values(input[i + 1..])
  {
    hide Value;
    assert input[i..][1..] == input[i + 1..];
    if Value(input[i]) >= 0 {
      assert vs + ([Value(input[i])] + Values(input[i + 1..])) == vs + [Value(input[i])] + Values(input[i + 1..]);
    }
  }

  lemma BitsLeft(k: nat, whole: nat, bits: nat)
    requires 8 * whole + bits == 6 * k && bits < 8
    ensures whole == 6 * k / 8 && bits == 6 * k % 8
  {
  }

  /** One digit more: the accumulator holds the low bits of the number, and if eight bits are there
      their byte is the next one of the number. */
  lemma DigitRead(vs: seq<Sextet>, v: Sextet, bits: nat, out: seq<Byte>)
    requires bits in {0, 2, 4, 6} && out == BytesOf(Shifted(SextetNumber(vs), bits), |out|)
    ensures var n, buffer := SextetNumber(vs + [v]), (SextetNumber(vs) % WORD * 64 + v) % WORD;
            buffer == n % WORD &&
            if bits >= 2 then out + [Shifted(buffer, bits - 2) % 256] == BytesOf(Shifted(n, bits - 2), |out| + 1)
            else out == BytesOf(Shifted(n, bits + 6), |out|)
  {
    hide *;
    SextetNumberStep(vs, v);
    var n := SextetNumber(vs);
    if bits >= 2 {
      ByteStep(n, v, bits - 2);
      BytesOfStep(Shifted(n * 64 + v, bits - 2), |out|);
    } else {
      NoByteStep(n, v);
    }
  }

  lemma SextetNumberStep(vs: seq<Sextet>, v: Sextet)
    ensures SextetNumber(vs + [v]) == SextetNumber(vs) * 64 + v
  {
    assert (vs + [v])[..|vs|] == vs;
  }

  lemma BytesOfStep(n: nat, len: nat)
    ensures BytesOf(n, len + 1) == BytesOf(n / 256, len) + [n % 256]
  {
  }

  /** The accumulator keeps every bit of the next byte, and that byte extends those already out. */
  lemma ByteStep(n: nat, v: Sextet, bits: nat)
    requires bits in {0, 2, 4}
    ensures var m := n * 64 + v;
            (n % WORD * 64 + v) % WORD == m % WORD &&
            Shifted(m % WORD, bits) % 256 == Shifted(m, bits) % 256 &&
            Shifted(m, bits) / 256 == Shifted(n, bits + 2)
  {
    WordStep(n, v);
    LowBits(n * 64 + v, bits);
  }

  lemma WordStep(n: nat, v: Sextet)
    ensures (n % WORD * 64 + v) % WORD == (n * 64 + v) % WORD
  {
  }

  lemma LowBits(m: nat, bits: nat)
    requires bits in {0, 2, 4}
    ensures m % WORD / Two(bits) % 256 == m / Two(bits) % 256
  {
    var q, r := m / WORD, m % WORD;
    assert m == q * WORD + r;
    if bits == 0 {
      ModAdd(r, q * 0x100_0000);
    } else if bits == 2 {
      assert m / 4 == r / 4 + 256 * (q * 0x40_0000);
      ModAdd(r / 4, q * 0x40_0000);
    } else {
      assert m / 16 == r / 16 + 256 * (q * 0x10_0000);
      ModAdd(r / 16, q * 0x10_0000);
    }
  }

  lemma ModAdd(b: nat, t: nat)
    ensures (b + 256 * t) % 256 == b % 256
  {
  }

  lemma NoByteStep(n: nat, v: Sextet)
    ensures (n % WORD * 64 + v) % WORD == (n * 64 + v) % WORD
    ensures Shifted(n * 64 + v, 6) == Shifted(n, 0)
  {
    WordStep(n, v);
  }

  // What encoding and decoding mean to each other.

  /** Decoding gives back what was encoded, with the '=' signs or any other text after them, or with
      no padding at all. */
  lemma DecodeOfEncode(data: seq<Byte>, rest: string)
    requires rest == [] || rest[0] == '='
    ensures Decoded(Letters(Digits(data)) + rest) == data
    ensures Decoded(Encoded(data)) == data
  {
    hide Values, Letters, Number, SextetNumber, BytesOf, Sextets;
    var vs := Digits(data);
    ValuesOfLetters(vs, rest);
    ValuesOfLetters(vs, Padding(|data|));
    NumberFits(data);
    NumberOfSextets(Number(data) * Filler(|data|), |vs|);
    GroupCount(|data|);
    assert Filler(|data|) == Spare(|vs|);
    Cancel(Number(data), Filler(|data|));
    BytesOfNumber(data);
  }

  lemma Cancel(n: nat, f: nat)
    requires f in {1, 4, 16}
    ensures n * f / f == n
  {
  }

  lemma {:induction false} ValuesOfLetters(vs: seq<Sextet>, rest: string)
    requires rest == [] || rest[0] == '='
    ensures Values(Letters(vs) + rest) == vs
  {
    if vs == [] {
      assert Letters(vs) + rest == rest;
    } else {
      ValueOfLetter(vs[0]);
      assert (Letters(vs) + rest)[1..] == Letters(vs[1..]) + rest;
      ValuesOfLetters(vs[1..], rest);
    }
  }

  lemma NoSextets()
    ensures SextetNumber([]) == 0
  {
  }

  lemma {:induction false} NumberOfSextets(n: nat, len: nat)
    requires Fits(n, len)
    ensures SextetNumber(Sextets(n, len)) == n
    decreases len
  {
    hide SextetNumber;
    if len == 0 {
      assert SextetNumber([]) == 0 by { NoSextets(); }
    } else {
      NumberOfSextets(n / 64, len - 1);
      SextetNumberStep(Sextets(n / 64, len - 1), n % 64);
    }
  }

  lemma {:induction false} BytesOfNumber(data: seq<Byte>)
    ensures BytesOf(Number(data), |data|) == data
  {
    if data != [] {
      BytesOfNumber(data[..|data| - 1]);
      assert Number(data) / 256 == Number(data[..|data| - 1]);
    }
  }

  lemma {:induction false} WholeFits(data: seq<Byte>)
    requires |data| % 3 == 0
    ensures Fits(Number(data), |data| / 3 * 4)
    decreases |data|
  {
    var n := |data|;
    assert data[..n] == data;
    if n >= 3 {
      var x, y, len := Number(data[..n - 3]), Number(data), n / 3 * 4;
      WholeFits(data[..n - 3]);
      ThreeMore(data, n - 3);
      assert y / 64 / 64 / 64 / 64 == x;
      assert Fits(y / 64 / 64 / 64, len - 3);
      assert Fits(y / 64 / 64, len - 2);
    }
  }

  lemma FitsMore(n: nat, len: nat)
    requires len > 0 && Fits(n / 64, len - 1)
    ensures Fits(n, len)
  {
  }

  lemma NumberFits(data: seq<Byte>)
    ensures Fits(Number(data) * Filler(|data|), (4 * |data| + 2) / 3)
  {
    hide Fits, Number;
    var n := |data|;
    var i := n / 3 * 3;
    GroupCount(n);
    var x, y, len := Number(data[..i]), Number(data) * Filler(n), (4 * n + 2) / 3;
    assert data[..n] == data;
    WholeFits(data[..i]);
    if n % 3 == 1 {
      OneMore(data, i);
      assert y / 64 / 64 == x;
      FitsMore(y / 64, len - 1);
      FitsMore(y, len);
    } else if n % 3 == 2 {
      TwoMore(data, i);
      assert y / 64 / 64 / 64 == x;
      FitsMore(y / 64 / 64, len - 2);
      FitsMore(y / 64, len - 1);
      FitsMore(y, len);
    }
  }

  /** Four characters for every started group of three bytes. */
  lemma EncodedLength(data: seq<Byte>)
    ensures |Encoded(data)| == (|data| + 2) / 3 * 4
  {
    hide Letters, Sextets, Number, Letter, Filler;
    GroupCount(|data|);
    assert |Encoded(data)| == (4 * |data| + 2) / 3 + |Padding(|data|)|;
    StartedGroups(|data|);
  }

  lemma StartedGroups(n: nat)
    ensures (n + 2) / 3 == n / 3 + (if n % 3 == 0 then 0 else 1)
  {
  }

  /** Characters outside the alphabet, '=' apart, are as good as absent. */
  lemma {:induction false} DecodeSkips(a: string, c: char, b: string)
    requires Value(c) < 0 && c != '='
    ensures Decoded(a + [c] + b) == Decoded(a + b)
  {
    ValuesSkip(a, c, b);
  }

  lemma {:induction false} ValuesSkip(a: string, c: char, b: string)
    requires Value(c) < 0 && c != '='
    ensures Values(a + [c] + b) == Values(a + b)
  {
    if a == [] {
      assert (a + [c] + b)[1..] == b && a + b == b;
    } else if a[0] != '=' {
      ValuesSkip(a[1..], c, b);
      assert (a + [c] + b)[1..] == a[1..] + [c] + b && (a + b)[1..] == a[1..] + b;
    }
  }

  /** Nothing after the first '=' is read. */
  lemma {:induction false} DecodeStops(a: string, b: string)
    ensures Decoded(a + ['='] + b) == Decoded(a)
  {
    ValuesStop(a, b);
  }

  lemma {:induction false} ValuesStop(a: string, b: string)
    ensures Values(a + ['='] + b) == Values(a)
  {
    if a == [] {
    } else if a[0] != '=' {
      ValuesStop(a[1..], b);
      assert (a + ['='] + b)[1..] == a[1..] + ['='] + b;
    }
  }
}

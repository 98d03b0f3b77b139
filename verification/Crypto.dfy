/** Hexadecimal printing of digests and the random login challenge. */
module Crypto {
  import opened Sequences

  type Byte = b: int | 0 <= b < 256

  const CHALLENGE_SIZE := 32
  const DIGITS := "0123456789"
  const LOWER := "abcdefghijklmnopqrstuvwxyz"
  const UPPER := "ABCDEFGHIJKLMNOPQRSTUVWXYZ"
  const CHARSET := DIGITS + LOWER + UPPER

  function DigitValue(c: char): (r: Option<int>)
    ensures r.Some? ==> 0 <= r.value < 16
  {
    if '0' <= c <= '9' then Some((c - '0') as int)
    else if 'a' <= c <= 'f' then Some((c - 'a') as int + 10)
    else None
  }

  /** One lowercase hexadecimal digit, as `%x` prints it. */
  function Digit(d: int): (c: char)
    requires 0 <= d < 16
    ensures DigitValue(c) == Some(d) && c != 0 as char
  {
    if d < 10 then '0' + d as char else 'a' + (d - 10) as char
  }

  function Hex(bytes: seq<Byte>): (s: string)
    ensures |s| == 2 * |bytes|
  {
    if bytes == [] then ""
    else [Digit(bytes[0] / 16), Digit(bytes[0] % 16)] + Hex(bytes[1..])
  }

  lemma {:induction false} HexAt(bytes: seq<Byte>, i: nat)
    requires i < |bytes|
    ensures Hex(bytes)[2 * i] == Digit(bytes[i] / 16) && Hex(bytes)[2 * i + 1] == Digit(bytes[i] % 16)
  {
    if i > 0 {
      HexAt(bytes[1..], i - 1);
      assert Hex(bytes)[2..] == Hex(bytes[1..]);
      assert Hex(bytes)[2..][2 * (i - 1)] == Hex(bytes)[2 * i];
      assert Hex(bytes)[2..][2 * (i - 1) + 1] == Hex(bytes)[2 * i + 1];
    }
  }

  /** The independent decoder: reads two digits at a time and rejects everything else. */
  function Unhex(s: string): Option<seq<Byte>> {
    if s == [] then Some([])
    else if |s| == 1 then None
    else
      var hi, lo, rest := DigitValue(s[0]), DigitValue(s[1]), Unhex(s[2..]);
      if hi.None? || lo.None? || rest.None? then None
      else Some([16 * hi.value + lo.value] + rest.value)
  }

  /** Printing is invertible on every byte sequence. */
  lemma {:induction false} UnhexHex(bytes: seq<Byte>)
    ensures Unhex(Hex(bytes)) == Some(bytes)
  {
    if bytes != [] {
      UnhexHex(bytes[1..]);
      assert Hex(bytes)[2..] == Hex(bytes[1..]);
      assert [bytes[0]] + bytes[1..] == bytes;
    }
  }

  /** Equal printed digests mean equal digests. */
  lemma HexInjective(a: seq<Byte>, b: seq<Byte>)
    requires Hex(a) == Hex(b)
    ensures a == b
  {
    UnhexHex(a);
    UnhexHex(b);
  }

  /** The characters of a C string: everything before its first NUL. */
  function CString(buf: seq<char>): (s: string) {
    if buf == [] || buf[0] == 0 as char then "" else [buf[0]] + CString(buf[1..])
  }

  lemma {:induction false} CStringStops(s: string, rest: seq<char>)
    requires forall i :: 0 <= i < |s| ==> s[i] != 0 as char
    ensures CString(s + [0 as char] + rest) == s
  {
    var buf := s + [0 as char] + rest;
    if s != [] {
      assert buf[1..] == s[1..] + [0 as char] + rest;
      CStringStops(s[1..], rest);
    }
  }

  lemma {:induction false} HexHasNoNul(bytes: seq<Byte>)
    ensures forall j :: 0 <= j < |Hex(bytes)| ==> Hex(bytes)[j] != 0 as char
  {
    if bytes != [] {
      HexHasNoNul(bytes[1..]);
    }
  }

  lemma PrintedBuffer(buf: seq<char>, bytes: seq<Byte>, garbage: char)
    requires |buf| == 2 * |bytes| + 1 && buf[..2 * |bytes|] == Hex(bytes)
    requires buf[2 * |bytes|] == if bytes != [] then 0 as char else garbage
    ensures CString(buf) == Hex(bytes) <==> bytes != [] || garbage == 0 as char
  {
    var printed := buf[..2 * |bytes|];
    HexHasNoNul(bytes);
    if buf[2 * |bytes|] == 0 as char {
      assert buf == printed + [0 as char] + [];
      CStringStops(printed, []);
    } else {
      assert buf == [garbage];
    }
  }

  /**
   The printing loop: each `sprintf` writes two digits and a terminating NUL that the next
   round overwrites, and the buffer is read back up to its first NUL. Without any byte no NUL
   is written, so the result is right only if `garbage`, the buffer's first content, is one.
   */
  method BytesToHexString(bytes: seq<Byte>, garbage: char) returns (s: string)
    ensures s == Hex(bytes) <==> bytes != [] || garbage == 0 as char
  {
    ghost var hex := Hex(bytes);
    var buf := new char[2 * |bytes| + 1](_ => garbage);
    for i := 0 to |bytes|
      invariant forall j :: 0 <= j < 2 * i ==> buf[j] == hex[j]
      invariant buf[2 * i] == if i > 0 then 0 as char else garbage
    {
      buf[2 * i] := Digit(bytes[i] / 16);
      buf[2 * i + 1] := Digit(bytes[i] % 16);
      buf[2 * i + 2] := 0 as char;
      HexAt(bytes, i);
    }
    assert buf[..2 * |bytes|] == hex;
    PrintedBuffer(buf[..], bytes, garbage);
    s := CString(buf[..]);
  }

  /** The challenge made of the numbers that one call gets from the generator. */
  function Challenge(draws: nat -> nat): (s: string)
    ensures |s| == CHALLENGE_SIZE && forall c :: c in s ==> c in CHARSET
  {
    seq(CHALLENGE_SIZE, i requires 0 <= i < CHALLENGE_SIZE => CHARSET[draws(i) % |CHARSET|])
  }

  /**
   The challenge loop. The generator is shared and seeded with the second before every
   challenge, and other threads may draw from it or seed it in between, so `draws(i)`, the
   i-th number this call gets, is any number.
   */
  method GenChallenge(draws: nat -> nat) returns (s: string)
    ensures s == Challenge(draws)
  {
    s := "";
    for i := 0 to CHALLENGE_SIZE
      invariant s == Challenge(draws)[..i]
    {
      s := s + [CHARSET[draws(i) % |CHARSET|]];
    }
  }

  /** No other thread used the generator: the numbers are the first after seeding with `second`. */
  ghost predicate Undisturbed(draws: nat -> nat, rand: (int, nat) -> nat, second: int) {
    forall i :: 0 <= i < CHALLENGE_SIZE ==> draws(i) == rand(second, i)
  }

  lemma CharsetAt(i: nat)
    requires i < |CHARSET|
    ensures CHARSET[i] as int == if i < 10 then '0' as int + i else if i < 36 then 'a' as int + i - 10
                                 else 'A' as int + i - 36
  {
    if i < 10 {
      assert CHARSET[i] == DIGITS[i];
    } else if i < 36 {
      assert CHARSET[i] == LOWER[i - 10];
    } else {
      assert CHARSET[i] == UPPER[i - 36];
    }
  }

  lemma CharsetIsDistinct(i: nat, j: nat)
    requires i < |CHARSET| && j < |CHARSET| && CHARSET[i] == CHARSET[j]
    ensures i == j
  {
    CharsetAt(i);
    CharsetAt(j);
  }

  /**
   Two challenges are equal exactly if the numbers agree modulo the size of the charset; so
   two undisturbed ones of the same second are equal.
   */
  lemma ChallengesEqualIff(a: nat -> nat, b: nat -> nat, rand: (int, nat) -> nat, second: int)
    ensures Challenge(a) == Challenge(b) <==>
              forall i :: 0 <= i < 32 ==> a(i) % 62 == b(i) % 62
    ensures |Challenge(a)| == 32
    ensures Undisturbed(a, rand, second) && Undisturbed(b, rand, second) ==> Challenge(a) == Challenge(b)
  {
    if Challenge(a) == Challenge(b) {
      forall i | 0 <= i < CHALLENGE_SIZE ensures a(i) % |CHARSET| == b(i) % |CHARSET| {
        assert Challenge(a)[i] == Challenge(b)[i];
        CharsetIsDistinct(a(i) % |CHARSET|, b(i) % |CHARSET|);
      }
    }
  }
}

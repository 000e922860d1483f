/** Unpadded base64 with the URL-safe alphabet: sections 3.2 and 5 of RFC 4648. */
module Base64Url {
  import opened Wrappers

  type Byte = b: int | 0 <= b < 256
  type Sextet = v: int | 0 <= v < 64

  /** A-Z, a-z, 0-9, `-`, `_`, in this order. */
  function CharOf(v: Sextet): char {
    if v < 26 then (v + 'A' as int) as char
    else if v < 52 then (v - 26 + 'a' as int) as char
    else if v < 62 then (v - 52 + '0' as int) as char
    else if v == 62 then '-'
    else '_'
  }

  predicate InAlphabet(c: char) {
    'A' <= c <= 'Z' || 'a' <= c <= 'z' || '0' <= c <= '9' || c == '-' || c == '_'
  }

  /** The value of an alphabet character; no other character has one. */
  function SextetOf(c: char): Option<Sextet> {
    if 'A' <= c <= 'Z' then Some(c as int - 'A' as int)
    else if 'a' <= c <= 'z' then Some(c as int - 'a' as int + 26)
    else if '0' <= c <= '9' then Some(c as int - '0' as int + 52)
    else if c == '-' then Some(62)
    else if c == '_' then Some(63)
    else None
  }

  lemma SextetOfCharOf(v: Sextet)
    ensures SextetOf(CharOf(v)) == Some(v) && InAlphabet(CharOf(v))
  {
  }

  const UPPER := "ABCDEFGHIJKLMNOPQRSTUVWXYZ"
  const LOWER := "abcdefghijklmnopqrstuvwxyz"
  const DIGITS := "0123456789"

  /** Table 2 of section 5 of RFC 4648. */
  lemma AlphabetOrder(v: Sextet)
    ensures
      var alphabet := UPPER + LOWER + DIGITS + "-_";
      |alphabet| == 64 && CharOf(v) == alphabet[v]
  {
    assert forall i :: 0 <= i < 26 ==> UPPER[i] == (i + 'A' as int) as char;
    assert forall i :: 0 <= i < 26 ==> LOWER[i] == (i + 'a' as int) as char;
    assert forall i :: 0 <= i < 10 ==> DIGITS[i] == (i + '0' as int) as char;
  }

  /** Three bytes become four sextets; one or two left over become two or three. */
  function Sextets(b: seq<Byte>): seq<Sextet> {
    if b == [] then []
    else if |b| == 1 then [b[0] / 4, b[0] % 4 * 16]
    else if |b| == 2 then [b[0] / 4, b[0] % 4 * 16 + b[1] / 16, b[1] % 16 * 4]
    else [b[0] / 4, b[0] % 4 * 16 + b[1] / 16, b[1] % 16 * 4 + b[2] / 64, b[2] % 64] + Sextets(b[3..])
  }

  /** A single left-over sextet cannot be decoded; the unused low bits of a last one are ignored. */
  function Bytes(v: seq<Sextet>): Option<seq<Byte>> {
    if v == [] then Some([])
    else if |v| == 1 then None
    else
      var first: Byte := v[0] as int * 4 + v[1] as int / 16;
      if |v| == 2 then Some([first])
      else
        var second: Byte := v[1] as int % 16 * 16 + v[2] as int / 4;
        if |v| == 3 then Some([first, second])
        else
          var third: Byte := v[2] as int % 4 * 64 + v[3] as int;
          match Bytes(v[4..])
          case None => None
          case Some(rest) => Some([first, second, third] + rest)
  }

  /** The sextets are the same bits in the same order, zeros filling up the last sextet of a short group. */
  lemma GroupBits(b: seq<Byte>)
    requires b != []
    ensures
      var v := Sextets(b);
      && (|b| == 1 ==> |v| == 2 && v[0] as int * 64 + v[1] as int == b[0] as int * 16)
      && (|b| == 2 ==>
            |v| == 3 && (v[0] as int * 64 + v[1] as int) * 64 + v[2] as int == (b[0] as int * 256 + b[1] as int) * 4)
      && (|b| >= 3 ==>
            && |v| >= 4
            && ((v[0] as int * 64 + v[1] as int) * 64 + v[2] as int) * 64 + v[3] as int
               == (b[0] as int * 256 + b[1] as int) * 256 + b[2] as int
            && v[4..] == Sextets(b[3..]))
  {
  }

  lemma Regroup(x: int, y: int, z: int)
    requires 0 <= x < 256 && 0 <= y < 256 && 0 <= z < 256
    ensures x / 4 * 4 + (x % 4 * 16 + y / 16) / 16 == x
    ensures (x % 4 * 16 + y / 16) % 16 * 16 + (y % 16 * 4 + z / 64) / 4 == y
    ensures (y % 16 * 4 + z / 64) % 4 * 64 + z % 64 == z
  {
  }

  /** The bytes of a whole group and of what follows it. */
  lemma GroupBytes(v: seq<Sextet>)
    requires |v| >= 4 && Bytes(v[4..]).Some?
    ensures
      var x: Byte := v[0] as int * 4 + v[1] as int / 16;
      var y: Byte := v[1] as int % 16 * 16 + v[2] as int / 4;
      var z: Byte := v[2] as int % 4 * 64 + v[3] as int;
      Bytes(v) == Some([x, y, z] + Bytes(v[4..]).value)
  {
  }

  /** The bytes of a group of two or three sextets. */
  lemma ShortGroup(v: seq<Sextet>)
    requires |v| == 2 || |v| == 3
    ensures
      var x: Byte := v[0] as int * 4 + v[1] as int / 16;
      Bytes(v) == Some(if |v| == 2 then [x] else [x, v[1] as int % 16 * 16 + v[2] as int / 4])
  {
  }

  lemma OneByte(x: Byte)
    ensures Bytes(Sextets([x])) == Some([x])
  {
    Regroup(x, 0, 0);
    assert Sextets([x]) == [x / 4, x % 4 * 16];
    hide Sextets, Bytes;
    ShortGroup([x / 4, x % 4 * 16]);
  }

  lemma TwoBytes(x: Byte, y: Byte)
    ensures Bytes(Sextets([x, y])) == Some([x, y])
  {
    Regroup(x, y, 0);
    assert Sextets([x, y]) == [x / 4, x % 4 * 16 + y / 16, y % 16 * 4];
    hide Sextets, Bytes;
    ShortGroup([x / 4, x % 4 * 16 + y / 16, y % 16 * 4]);
  }

  lemma {:induction false} BytesOfSextets(b: seq<Byte>)
    ensures Bytes(Sextets(b)) == Some(b)
  {
    if |b| >= 3 {
      var v := Sextets(b);
      BytesOfSextets(b[3..]);
      assert |v| >= 4 && v[4..] == Sextets(b[3..]);
      GroupBytes(v);
      Regroup(b[0], b[1], b[2]);
      assert v[..4] == [b[0] / 4, b[0] % 4 * 16 + b[1] / 16, b[1] % 16 * 4 + b[2] / 64, b[2] % 64];
      assert b == [b[0], b[1], b[2]] + b[3..];
    } else if |b| == 2 {
      assert b == [b[0], b[1]];
      TwoBytes(b[0], b[1]);
    } else if |b| == 1 {
      assert b == [b[0]];
      OneByte(b[0]);
    }
  }

  function Chars(v: seq<Sextet>): string {
    if v == [] then "" else Chars(v[..|v| - 1]) + [CharOf(v[|v| - 1])]
  }

  function Values(s: string): Option<seq<Sextet>> {
    if s == "" then Some([])
    else
      match (Values(s[..|s| - 1]), SextetOf(s[|s| - 1]))
      case (Some(rest), Some(v)) => Some(rest + [v])
      case _ => None
  }

  lemma ValuesMore(s: string, c: char)
    requires Values(s).Some? && SextetOf(c).Some?
    ensures Values(s + [c]) == Some(Values(s).value + [SextetOf(c).value])
  {
    assert (s + [c])[..|s|] == s;
  }

  lemma {:induction false} ValuesOfChars(v: seq<Sextet>)
    ensures Values(Chars(v)) == Some(v)
    ensures |Chars(v)| == |v|
    ensures forall i :: 0 <= i < |v| ==> InAlphabet(Chars(v)[i])
  {
    if v != [] {
      var init, last := v[..|v| - 1], v[|v| - 1];
      ValuesOfChars(init);
      SextetOfCharOf(last);
      assert Chars(v) == Chars(init) + [CharOf(last)];
      hide Values, Chars, SextetOf, CharOf, InAlphabet;
      ValuesMore(Chars(init), CharOf(last));
      assert v == init + [last];
    }
  }

  function Encode(b: seq<Byte>): string {
    Chars(Sextets(b))
  }

  function Decode(s: string): Option<seq<Byte>> {
    match Values(s)
    case None => None
    case Some(v) => Bytes(v)
  }

  predicate UrlSafe(s: string) {
    forall i :: 0 <= i < |s| ==> InAlphabet(s[i])
  }

  lemma DecodeEncode(b: seq<Byte>)
    ensures Decode(Encode(b)) == Some(b)
    ensures UrlSafe(Encode(b))
    ensures |Encode(b)| == (|b| * 4 + 2) / 3
  {
    ValuesOfChars(Sextets(b));
    BytesOfSextets(b);
    SextetsLength(b);
  }

  lemma {:induction false} SextetsLength(b: seq<Byte>)
    ensures |Sextets(b)| == (|b| * 4 + 2) / 3
  {
    if |b| >= 3 {
      SextetsLength(b[3..]);
    }
  }

  // ---------- which strings decode ----------

  lemma {:induction false} ValuesOf(s: string)
    ensures Values(s).Some? <==> UrlSafe(s)
    ensures UrlSafe(s) ==> |Values(s).value| == |s| && Chars(Values(s).value) == s
  {
    if s != "" {
      var init, last := s[..|s| - 1], s[|s| - 1];
      ValuesOf(init);
      assert s == init + [last];
      CharOfSextetOf(last);
      if UrlSafe(s) {
        var v := Values(s).value;
        assert v[..|v| - 1] == Values(init).value;
      }
    }
  }

  lemma CharOfSextetOf(c: char)
    ensures SextetOf(c).Some? <==> InAlphabet(c)
    ensures SextetOf(c).Some? ==> CharOf(SextetOf(c).value) == c
  {
  }

  lemma Ungroup(a: Sextet, b: Sextet, c: Sextet, d: Sextet)
    ensures (a as int * 4 + b as int / 16) / 4 == a as int
    ensures (a as int * 4 + b as int / 16) % 4 * 16 + (b as int % 16 * 16 + c as int / 4) / 16 == b as int
    ensures (b as int % 16 * 16 + c as int / 4) % 16 * 4 + (c as int % 4 * 64 + d as int) / 64 == c as int
    ensures (c as int % 4 * 64 + d as int) % 64 == d as int
  {
  }

  lemma {:induction false} BytesExist(v: seq<Sextet>)
    ensures Bytes(v).Some? <==> |v| % 4 != 1
    ensures Bytes(v).Some? ==> |Bytes(v).value| == |v| * 3 / 4
  {
    if |v| >= 4 {
      BytesExist(v[4..]);
    }
  }

  lemma GroupSextets(x: Byte, y: Byte, z: Byte, rest: seq<Byte>)
    ensures Sextets([x, y, z] + rest) == [x / 4, x % 4 * 16 + y / 16, y % 16 * 4 + z / 64, z % 64] + Sextets(rest)
  {
    assert ([x, y, z] + rest)[3..] == rest;
  }

  lemma {:induction false} SextetsOfBytes(v: seq<Sextet>)
    requires |v| % 4 == 0
    ensures Bytes(v).Some? && Sextets(Bytes(v).value) == v
  {
    if v != [] {
      SextetsOfBytes(v[4..]);
      GroupBytes(v);
      Ungroup(v[0], v[1], v[2], v[3]);
      hide Bytes, Sextets;
      GroupSextets(v[0] as int * 4 + v[1] as int / 16, v[1] as int % 16 * 16 + v[2] as int / 4,
                   v[2] as int % 4 * 64 + v[3] as int, Bytes(v[4..]).value);
      assert v == [v[0], v[1], v[2], v[3]] + v[4..];
    }
  }

  /**
   A string decodes exactly when it is over the URL-safe alphabet and does not end in a single left-over
   character; one made of whole groups is the encoding of what it decodes to.
   */
  lemma DecodableIff(s: string)
    ensures Decode(s).Some? <==> UrlSafe(s) && |s| % 4 != 1
    ensures Decode(s).Some? ==> |Decode(s).value| == |s| * 3 / 4
    ensures Decode(s).Some? && |s| % 4 == 0 ==> Encode(Decode(s).value) == s
  {
    ValuesOf(s);
    if UrlSafe(s) {
      BytesExist(Values(s).value);
      if |s| % 4 == 0 {
        SextetsOfBytes(Values(s).value);
      }
    }
  }
}

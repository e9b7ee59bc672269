/** Unpadded base64url, section 5 of RFC 4648 (base64.RawURLEncoding). */
module Base64 {
  import opened Bands

  type Byte = b: int | 0 <= b < 256

  type Sextet = v: int | 0 <= v < 64

  function Symbol(v: Sextet): char {
    if v < 26 then 'A' + v as char
    else if v < 52 then 'a' + (v - 26) as char
    else if v < 62 then '0' + (v - 52) as char
    else if v == 62 then '-'
    else '_'
  }

  function SymbolValue(c: char): (v: Option<Sextet>)
    ensures v.Some? ==> Symbol(v.value) == c
  {
    if 'A' <= c <= 'Z' then Some((c - 'A') as int)
    else if 'a' <= c <= 'z' then Some((c - 'a') as int + 26)
    else if '0' <= c <= '9' then Some((c - '0') as int + 52)
    else if c == '-' then Some(62)
    else if c == '_' then Some(63)
    else None
  }

  lemma SymbolRoundTrip(v: Sextet)
    ensures SymbolValue(Symbol(v)) == Some(v)
  {}

  function Encode(b: seq<Byte>): string {
    if |b| == 0 then ""
    else if |b| == 1 then [Symbol(b[0] / 4), Symbol(b[0] % 4 * 16)]
    else if |b| == 2 then [Symbol(b[0] / 4), Symbol(b[0] % 4 * 16 + b[1] / 16), Symbol(b[1] % 16 * 4)]
    else [Symbol(b[0] / 4), Symbol(b[0] % 4 * 16 + b[1] / 16), Symbol(b[1] % 16 * 4 + b[2] / 64), Symbol(b[2] % 64)]
         + Encode(b[3..])
  }

  /** The bytes of 2, 3 or 4 sextets; spare low bits are dropped, as the decoder is not strict. */
  function Bytes(v: seq<Sextet>): (b: seq<Byte>)
    requires 2 <= |v| <= 4
    ensures |b| == |v| - 1
  {
    var w: int, x: int := v[0], v[1];
    if |v| == 2 then [w * 4 + x / 16]
    else
      var y: int := v[2];
      if |v| == 3 then [w * 4 + x / 16, x % 16 * 16 + y / 4]
      else
        var z: int := v[3];
        [w * 4 + x / 16, x % 16 * 16 + y / 4, y % 4 * 64 + z]
  }

  /** The sextets of some text, if every character is in the alphabet. */
  function Sextets(s: string): (v: Option<seq<Sextet>>)
    ensures v.Some? ==> |v.value| == |s| && forall i :: 0 <= i < |s| ==> SymbolValue(s[i]) == Some(v.value[i])
  {
    if |s| == 0 then Some([])
    else
      var front, last := Sextets(s[..|s| - 1]), SymbolValue(s[|s| - 1]);
      if front.None? || last.None? then None else Some(front.value + [last.value])
  }

  function Groups(v: seq<Sextet>): Option<seq<Byte>> {
    if |v| == 0 then Some([])
    else if |v| == 1 then None
    else if |v| <= 4 then Some(Bytes(v))
    else
      var rest := Groups(v[4..]);
      if rest.None? then None else Some(Bytes(v[..4]) + rest.value)
  }

  function StripNewlines(s: string): string {
    if |s| == 0 then ""
    else
      var m := |s| - 1;
      StripNewlines(s[..m]) + if s[m] == '\r' || s[m] == '\n' then "" else [s[m]]
  }

  /** DecodeString: newlines are skipped, a lone trailing character is an error. */
  function Decode(s: string): Option<seq<Byte>> {
    var v := Sextets(StripNewlines(s));
    if v.None? then None else Groups(v.value)
  }

  // ---- Round trip ----------------------------------------------------------------------------

  predicate InAlphabet(s: string) {
    forall i :: 0 <= i < |s| ==> SymbolValue(s[i]).Some?
  }

  lemma {:induction false} EncodeInAlphabet(b: seq<Byte>)
    ensures InAlphabet(Encode(b)) && (Encode(b) == "" <==> b == [])
  {
    if |b| > 2 {
      EncodeInAlphabet(b[3..]);
    }
  }

  lemma {:induction false} NothingToStrip(s: string)
    requires InAlphabet(s)
    ensures StripNewlines(s) == s
  {
    if |s| > 0 {
      NothingToStrip(s[..|s| - 1]);
      assert s == s[..|s| - 1] + [s[|s| - 1]];
    }
  }

  lemma {:induction false} AlphabetHasSextets(s: string)
    requires InAlphabet(s)
    ensures Sextets(s).Some?
  {
    if |s| > 0 {
      AlphabetHasSextets(s[..|s| - 1]);
    }
  }

  /** The sextets of an encoding, computed from the bytes. */
  function Split(b: seq<Byte>): seq<Sextet> {
    if |b| == 0 then []
    else if |b| == 1 then [b[0] / 4, b[0] % 4 * 16]
    else if |b| == 2 then [b[0] / 4, b[0] % 4 * 16 + b[1] / 16, b[1] % 16 * 4]
    else [b[0] / 4, b[0] % 4 * 16 + b[1] / 16, b[1] % 16 * 4 + b[2] / 64, b[2] % 64] + Split(b[3..])
  }

  lemma {:induction false} EncodeSpellsSplit(b: seq<Byte>)
    ensures |Encode(b)| == |Split(b)|
    ensures forall i :: 0 <= i < |Split(b)| ==> Encode(b)[i] == Symbol(Split(b)[i])
  {
    if |b| > 2 {
      EncodeSpellsSplit(b[3..]);
    }
  }

  lemma SextetsOfEncode(b: seq<Byte>)
    ensures Sextets(Encode(b)) == Some(Split(b))
  {
    EncodeInAlphabet(b);
    AlphabetHasSextets(Encode(b));
    EncodeSpellsSplit(b);
    var v := Sextets(Encode(b)).value;
    forall i | 0 <= i < |v| ensures v[i] == Split(b)[i] {
      SymbolRoundTrip(Split(b)[i]);
    }
    assert v == Split(b);
  }

  lemma BytesOfSplit(b: seq<Byte>)
    requires 1 <= |b| <= 3
    ensures |Split(b)| == |b| + 1 && Bytes(Split(b)) == b
  {
    assert Split(b[|b|..]) == [];
    var x: int := b[0];
    var y: int := if |b| > 1 then b[1] else 0;
    var z: int := if |b| > 2 then b[2] else 0;
    OctetsOfSextets(x, y, z);
  }

  lemma OctetsOfSextets(x: int, y: int, z: int)
    requires 0 <= x < 256 && 0 <= y < 256 && 0 <= z < 256
    ensures x / 4 * 4 + (x % 4 * 16 + y / 16) / 16 == x
    ensures (x % 4 * 16 + y / 16) % 16 * 16 + (y % 16 * 4 + z / 64) / 4 == y
    ensures (y % 16 * 4 + z / 64) % 4 * 64 + z % 64 == z
  {}

  lemma {:induction false} GroupsOfSplit(b: seq<Byte>)
    ensures Groups(Split(b)) == Some(b)
  {
    if 1 <= |b| <= 3 {
      BytesOfSplit(b);
    } else if |b| > 3 {
      GroupsOfSplit(b[3..]);
      BytesOfSplit(b[..3]);
      SplitStep(b);
      assert b == b[..3] + b[3..];
    }
  }

  lemma SplitStep(b: seq<Byte>)
    requires |b| > 3
    ensures Split(b)[..4] == Split(b[..3]) && Split(b)[4..] == Split(b[3..]) && |Split(b)| > 4
  {
    assert Split(b[..3][3..]) == [];
    assert |Split(b[3..])| > 0;
  }

  /** Two of the test vectors of section 10, without their padding, and the two symbols that are
      not letters or digits. */
  lemma TestVectors()
    ensures Encode([102]) == "Zg" && Encode([251, 240]) == "-_A"
    ensures Encode([102, 111, 111] + [98, 97, 114]) == "Zm9v" + "YmFy"
  {
    FooThen([98, 97, 114]);
    BarAlone();
  }

  lemma BarAlone()
    ensures Encode([98, 97, 114]) == "YmFy"
  {
    var bar: seq<Byte> := [98, 97, 114];
    assert bar[3..] == [];
    assert "YmFy" + "" == "YmFy";
  }

  lemma FooThen(rest: seq<Byte>)
    ensures Encode([102, 111, 111] + rest) == "Zm9v" + Encode(rest)
  {
    var foo: seq<Byte> := [102, 111, 111];
    var all := foo + rest;
    assert all[0] == 102 && all[1] == 111 && all[2] == 111 && all[3..] == rest;
    assert Encode(all) == [Symbol(25), Symbol(38), Symbol(61), Symbol(47)] + Encode(rest);
  }

  /** Every byte string survives encoding and decoding. */
  lemma DecodeEncode(b: seq<Byte>)
    ensures Decode(Encode(b)) == Some(b)
  {
    EncodeInAlphabet(b);
    NothingToStrip(Encode(b));
    SextetsOfEncode(b);
    GroupsOfSplit(b);
  }
}

/** Byte strings and UTF-8 (sections 3 and 4 of RFC 3629). A Go string is a sequence of bytes: each `char` is one byte. */
module Utf8 {

  predicate InRange(c: char, lo: int, hi: int) {
    lo <= c as int <= hi
  }

  /** A byte that continues a character. */
  predicate IsTail(c: char) {
    InRange(c, 0x80, 0xBF)
  }

  /** `utf8.RuneStart`. */
  predicate RuneStart(c: char) {
    !IsTail(c)
  }

  /** The length of the well-formed character `s` starts with; 0 if there is none. */
  function CharLength(s: string): (n: nat)
    ensures n <= |s| && n <= 4
  {
    if |s| >= 1 && InRange(s[0], 0x00, 0x7F) then 1
    else if |s| >= 2 && InRange(s[0], 0xC2, 0xDF) && IsTail(s[1]) then 2
    else if |s| >= 3 && IsTail(s[2]) && (
              (InRange(s[0], 0xE0, 0xE0) && InRange(s[1], 0xA0, 0xBF)) ||
              (InRange(s[0], 0xE1, 0xEC) && IsTail(s[1])) ||
              (InRange(s[0], 0xED, 0xED) && InRange(s[1], 0x80, 0x9F)) ||
              (InRange(s[0], 0xEE, 0xEF) && IsTail(s[1]))) then 3
    else if |s| >= 4 && IsTail(s[2]) && IsTail(s[3]) && (
              (InRange(s[0], 0xF0, 0xF0) && InRange(s[1], 0x90, 0xBF)) ||
              (InRange(s[0], 0xF1, 0xF3) && IsTail(s[1])) ||
              (InRange(s[0], 0xF4, 0xF4) && InRange(s[1], 0x80, 0x8F))) then 4
    else 0
  }

  /** A sequence of well-formed characters. */
  predicate Valid(s: string) {
    s == [] || (CharLength(s) > 0 && Valid(s[CharLength(s)..]))
  }

  /** A character starts with a start byte, has only tail bytes after it, and is decided by its own bytes. */
  lemma CharShape(s: string, t: string)
    requires CharLength(s) > 0
    ensures RuneStart(s[0])
    ensures forall i: nat | 0 < i < CharLength(s) :: IsTail(s[i])
    ensures CharLength(s[..CharLength(s)] + t) == CharLength(s)
    ensures forall k: nat | 0 < k < CharLength(s) :: CharLength(s[..k]) == 0
  {
  }

  /** A Unicode scalar value: any code point but a surrogate. */
  predicate IsScalar(c: nat) {
    c < 0xD800 || 0xE000 <= c <= 0x10FFFF
  }

  /** The table in section 3 of RFC 3629. */
  function Encode(c: nat): string
    requires IsScalar(c)
  {
    if c < 0x80 then [c as char]
    else if c < 0x800 then [(0xC0 + c / 64) as char, (0x80 + c % 64) as char]
    else if c < 0x10000 then [(0xE0 + c / 4096) as char, (0x80 + c / 64 % 64) as char, (0x80 + c % 64) as char]
    else [(0xF0 + c / 262144) as char, (0x80 + c / 4096 % 64) as char, (0x80 + c / 64 % 64) as char, (0x80 + c % 64) as char]
  }

  ghost function EncodeAll(cs: seq<nat>): string
    requires forall c | c in cs :: IsScalar(c)
  {
    if cs == [] then "" else Encode(cs[0]) + EncodeAll(cs[1..])
  }

  lemma EncodedIsCharacter(c: nat, t: string)
    requires IsScalar(c)
    ensures CharLength(Encode(c) + t) == |Encode(c)| > 0
  {
    var s := Encode(c) + t;
    if c < 0x80 {
      assert s[0] == c as char;
    } else if c < 0x800 {
      assert s[0] == (0xC0 + c / 64) as char && s[1] == (0x80 + c % 64) as char;
    } else if c < 0x10000 {
      assert s[0] == (0xE0 + c / 4096) as char && s[1] == (0x80 + c / 64 % 64) as char && s[2] == (0x80 + c % 64) as char;
    } else {
      assert s[0] == (0xF0 + c / 262144) as char && s[1] == (0x80 + c / 4096 % 64) as char;
      assert s[2] == (0x80 + c / 64 % 64) as char && s[3] == (0x80 + c % 64) as char;
    }
  }

  lemma TwoBytes(a: nat, b: nat)
    requires 2 <= a < 32 && b < 64
    ensures IsScalar(64 * a + b) && Encode(64 * a + b) == [(0xC0 + a) as char, (0x80 + b) as char]
  {
    var c := 64 * a + b;
    assert c / 64 == a && c % 64 == b;
  }

  lemma ThreeBytes(a: nat, b: nat, d: nat)
    requires a < 16 && b < 64 && d < 64 && (a == 0 ==> 32 <= b) && (a == 13 ==> b < 32)
    ensures IsScalar(4096 * a + 64 * b + d)
    ensures Encode(4096 * a + 64 * b + d) == [(0xE0 + a) as char, (0x80 + b) as char, (0x80 + d) as char]
  {
    var c := 4096 * a + 64 * b + d;
    assert c / 4096 == a && c / 64 == 64 * a + b && c % 64 == d;
    assert (64 * a + b) % 64 == b;
  }

  lemma FourBytes(a: nat, b: nat, d: nat, e: nat)
    requires a < 5 && b < 64 && d < 64 && e < 64 && (a == 0 ==> 16 <= b) && (a == 4 ==> b < 16)
    ensures IsScalar(262144 * a + 4096 * b + 64 * d + e)
    ensures Encode(262144 * a + 4096 * b + 64 * d + e) ==
            [(0xF0 + a) as char, (0x80 + b) as char, (0x80 + d) as char, (0x80 + e) as char]
  {
    var c := 262144 * a + 4096 * b + 64 * d + e;
    assert c / 262144 == a && c / 4096 == 64 * a + b && c / 64 == 64 * (64 * a + b) + d && c % 64 == e;
    assert (64 * a + b) % 64 == b && (64 * (64 * a + b) + d) % 64 == d;
  }

  lemma DecodeTwo(s: string) returns (c: nat)
    requires CharLength(s) == 2
    ensures IsScalar(c) && Encode(c) == s[..2]
  {
    hide Encode, IsScalar;
    var a: nat, b: nat := s[0] as int - 0xC0, s[1] as int - 0x80;
    c := 64 * a + b;
    TwoBytes(a, b);
    assert s[..2] == [s[0], s[1]];
  }

  lemma DecodeThree(s: string) returns (c: nat)
    requires CharLength(s) == 3
    ensures IsScalar(c) && Encode(c) == s[..3]
  {
    hide Encode, IsScalar;
    var a: nat, b: nat, d: nat := s[0] as int - 0xE0, s[1] as int - 0x80, s[2] as int - 0x80;
    c := 4096 * a + 64 * b + d;
    ThreeBytes(a, b, d);
    assert s[..3] == [s[0], s[1], s[2]];
  }

  lemma DecodeFour(s: string) returns (c: nat)
    requires CharLength(s) == 4
    ensures IsScalar(c) && Encode(c) == s[..4]
  {
    hide Encode, IsScalar;
    var a: nat, b: nat := s[0] as int - 0xF0, s[1] as int - 0x80;
    var d: nat, e: nat := s[2] as int - 0x80, s[3] as int - 0x80;
    c := 262144 * a + 4096 * b + 64 * d + e;
    FourBytes(a, b, d, e);
    assert s[..4] == [s[0], s[1], s[2], s[3]];
  }

  lemma CharacterIsEncoded(s: string) returns (c: nat)
    requires CharLength(s) > 0
    ensures IsScalar(c) && Encode(c) == s[..CharLength(s)]
  {
    var n := CharLength(s);
    if n == 1 {
      c := s[0] as int;
    } else {
      hide CharLength;
      if n == 2 {
        c := DecodeTwo(s);
      } else if n == 3 {
        c := DecodeThree(s);
      } else {
        c := DecodeFour(s);
      }
    }
  }

  /** Well-formed is what encodes some sequence of scalar values. */
  lemma {:induction false} ValidIsEncoded(s: string) returns (cs: seq<nat>)
    requires Valid(s)
    ensures (forall c | c in cs :: IsScalar(c)) && s == EncodeAll(cs)
  {
    if s == [] {
      cs := [];
    } else {
      var n := CharLength(s);
      var c := CharacterIsEncoded(s);
      var rest := ValidIsEncoded(s[n..]);
      cs := [c] + rest;
      assert cs[1..] == rest && s == s[..n] + s[n..];
    }
  }

  lemma {:induction false} EncodedIsValid(cs: seq<nat>)
    requires forall c | c in cs :: IsScalar(c)
    ensures Valid(EncodeAll(cs))
  {
    if cs != [] {
      assert cs[0] in cs && forall c | c in cs[1..] :: c in cs;
      var s := EncodeAll(cs);
      EncodedIsCharacter(cs[0], EncodeAll(cs[1..]));
      assert s[|Encode(cs[0])|..] == EncodeAll(cs[1..]);
      EncodedIsValid(cs[1..]);
    }
  }

  /** `utf8.RuneStart` in bits: a byte starts a character unless its two highest bits are 10. */
  lemma RuneStartBits(c: char)
    requires c as int < 256
    ensures RuneStart(c) <==> c as int / 64 != 2
  {
  }

  lemma {:induction false} ValidConcat(s: string, t: string)
    requires Valid(s) && Valid(t)
    ensures Valid(s + t)
  {
    if s == [] {
      assert s + t == t;
    } else {
      var n := CharLength(s);
      CharShape(s, s[n..] + t);
      assert s + t == s[..n] + (s[n..] + t);
      ValidConcat(s[n..], t);
      assert (s + t)[n..] == s[n..] + t;
    }
  }

  /** In well-formed text a cut falls between characters exactly where no tail byte follows;
      then both sides are well formed. */
  lemma {:induction false} CutBetweenCharacters(s: string, k: nat)
    requires Valid(s) && k <= |s|
    ensures Valid(s[..k]) <==> k == |s| || RuneStart(s[k])
    ensures Valid(s[..k]) ==> Valid(s[k..])
  {
    if k == 0 {
      assert s[k..] == s && s[..k] == [];
      if s != [] {
        CharShape(s, []);
      }
    } else {
      var n := CharLength(s);
      CharShape(s, s[n..]);
      if k < n {
        assert s[..k] != [];
      } else {
        CutBetweenCharacters(s[n..], k - n);
        CharShape(s, s[n..k]);
        assert s[..k] == s[..n] + s[n..k];
        assert s[..k][n..] == s[n..k] == s[n..][..k - n];
        assert s[n..][k - n..] == s[k..];
      }
    }
  }

  /** Every character is at most four bytes: some cut lies at most three bytes back. */
  lemma {:induction false} StartNearby(s: string, k: nat)
    requires Valid(s) && k < |s|
    ensures exists j: nat :: k - 3 <= j <= k && RuneStart(s[j])
  {
    var n := CharLength(s);
    CharShape(s, []);
    if k < n {
      assert RuneStart(s[0]);
    } else {
      StartNearby(s[n..], k - n);
      var j: nat :| k - n - 3 <= j <= k - n && RuneStart(s[n..][j]);
      assert RuneStart(s[n + j]);
    }
  }

  /** The last position at or before `k` that holds a start byte, or 0. */
  function LastStart(s: string, k: nat): (c: nat)
    requires k < |s|
    ensures c <= k && (c > 0 ==> RuneStart(s[c]))
    ensures forall i: nat | c < i <= k :: IsTail(s[i])
  {
    if k > 0 && !RuneStart(s[k]) then LastStart(s, k - 1) else k
  }

  /** What is kept of `s` under a limit of `maxBytes`. */
  function Truncated(s: string, maxBytes: int): string {
    if maxBytes <= 0 then "" else if |s| <= maxBytes then s else s[..LastStart(s, maxBytes)]
  }

  method TruncateUTF8(s: string, maxBytes: int) returns (r: string)
    ensures r == Truncated(s, maxBytes)
  {
    if maxBytes <= 0 {
      return "";
    }
    if |s| <= maxBytes {
      return s;
    }
    var cut := maxBytes;
    while cut > 0 && !RuneStart(s[cut])
      invariant 0 <= cut <= maxBytes
      invariant LastStart(s, cut) == LastStart(s, maxBytes)
    {
      cut := cut - 1;
    }
    r := s[..cut];
  }

  /** For all bytes: a prefix within the limit, and everything if it fits. */
  lemma TruncatedFits(s: string, maxBytes: int)
    ensures Truncated(s, maxBytes) <= s
    ensures |Truncated(s, maxBytes)| <= if maxBytes < 0 then 0 else maxBytes
    ensures |s| <= maxBytes ==> Truncated(s, maxBytes) == s
  {
  }

  /** For text: the longest prefix of whole characters that fits, at most three bytes short of the limit. */
  lemma TruncatedIsLongest(s: string, maxBytes: nat)
    requires Valid(s)
    ensures var r := Truncated(s, maxBytes);
      r <= s && |r| <= maxBytes && Valid(r) && Valid(s[|r|..]) &&
      (|r| < |s| ==> maxBytes - 3 <= |r|) &&
      forall k: nat | |r| < k <= |s| && k <= maxBytes :: !Valid(s[..k])
  {
    var r := Truncated(s, maxBytes);
    if maxBytes == 0 {
      assert s[0..] == s;
    } else if |s| <= maxBytes {
      assert s[..|s|] == s && s[|s|..] == [];
    } else {
      StartNearby(s, maxBytes);
      var j: nat :| maxBytes - 3 <= j <= maxBytes && RuneStart(s[j]);
      CutBetweenCharacters(s, |r|);
      if |r| == 0 {
        assert s[..0] == [];
      }
      forall k: nat | |r| < k <= maxBytes
        ensures !Valid(s[..k])
      {
        CutBetweenCharacters(s, k);
      }
    }
  }

  /** One of the four bytes up to `k` starts a character. */
  predicate StartNear(s: string, k: nat)
    requires k < |s|
  {
    exists j: nat :: k - 3 <= j <= k && RuneStart(s[j])
  }

  /** For all bytes, the loss: a cut is at most three bytes short exactly if a start byte is near the limit
      (or the limit is so low that no more can be lost). */
  lemma LossIsSmall(s: string, n: nat)
    requires 0 < n < |s|
    ensures n - 3 <= |Truncated(s, n)| <==> n <= 3 || StartNear(s, n)
  {
    var c := LastStart(s, n);
    assert n - 3 <= c && n > 3 ==> RuneStart(s[c]);
  }

  /** Nowhere after the first byte are there four tail bytes in a row. */
  predicate Spaced(s: string) {
    forall k: nat | 3 < k < |s| :: StartNear(s, k)
  }

  lemma SpacedFillsLimit(s: string, n: nat)
    requires Spaced(s) && n < |s|
    ensures n - 3 <= |Truncated(s, n)|
  {
    if n > 3 {
      assert StartNear(s, n);
      LossIsSmall(s, n);
    }
  }

  /** The bytes that never lose more than three, under whatever limit, are exactly those. */
  lemma SpacedLosesLittle(s: string)
    ensures Spaced(s) <==> forall n: nat | n < |s| :: n - 3 <= |Truncated(s, n)|
  {
    if Spaced(s) {
      forall n: nat | n < |s|
        ensures n - 3 <= |Truncated(s, n)|
      {
        SpacedFillsLimit(s, n);
      }
    } else {
      var k: nat :| 3 < k < |s| && !StartNear(s, k);
      LossIsSmall(s, k);
    }
  }

  /** Text is among them. */
  lemma TextIsSpaced(s: string)
    requires Valid(s)
    ensures Spaced(s)
  {
    forall k: nat | 3 < k < |s|
      ensures StartNear(s, k)
    {
      StartNearby(s, k);
    }
  }

  /** Other bytes can lose everything: there may be no start byte to go back to. */
  lemma NotTextMayVanish(n: nat)
    requires n > 0
    ensures Truncated(seq(n + 1, _ => 0x80 as char), n) == ""
  {
    var s: string := seq(n + 1, _ => 0x80 as char);
    assert LastStart(s, n) == 0;
  }
}

/**
 Go strings are byte sequences; ranging over one decodes UTF-8 and yields U+FFFD for each byte that
 starts no well-formed sequence, and WriteRune encodes. The table of well-formed sequences is that of
 section 3.9 of the Unicode Standard.
 */
module Utf8 {
  import Text

  type Byte = b: int | 0 <= b < 256
  type Str = seq<Byte>

  const REPLACEMENT := 0xFFFD

  predicate Within(s: Str, i: nat, lo: int, hi: int) {
    i < |s| && lo <= s[i] <= hi
  }

  predicate Trails(s: Str, i: nat) {
    Within(s, i, 0x80, 0xBF)
  }

  /** The length of the well-formed sequence at the start of `s`, 0 if there is none. */
  function SeqLen(s: Str): (n: nat)
    requires s != []
    ensures n <= |s| && n <= 4
  {
    var b := s[0];
    if b < 0x80 then 1
    else if 0xC2 <= b <= 0xDF && Trails(s, 1) then 2
    else if b == 0xE0 && Within(s, 1, 0xA0, 0xBF) && Trails(s, 2) then 3
    else if (0xE1 <= b <= 0xEC || 0xEE <= b <= 0xEF) && Trails(s, 1) && Trails(s, 2) then 3
    else if b == 0xED && Within(s, 1, 0x80, 0x9F) && Trails(s, 2) then 3
    else if b == 0xF0 && Within(s, 1, 0x90, 0xBF) && Trails(s, 2) && Trails(s, 3) then 4
    else if 0xF1 <= b <= 0xF3 && Trails(s, 1) && Trails(s, 2) && Trails(s, 3) then 4
    else if b == 0xF4 && Within(s, 1, 0x80, 0x8F) && Trails(s, 2) && Trails(s, 3) then 4
    else 0
  }

  predicate IsScalar(r: int) {
    0 <= r < 0xD800 || 0xE000 <= r <= 0x10FFFF
  }

  /** Six more bits on the right, and taking them off again. */
  function Push(r: nat, low: int): (t: nat)
    requires 0 <= low < 64
    ensures High(t) == r && Low(t) == low
  {
    r * 64 + low
  }

  function High(r: nat): (h: nat)
    ensures forall bound: nat :: r < bound * 64 ==> h < bound
  {
    r / 64
  }

  function Low(r: nat): (l: int)
    ensures 0 <= l < 64
    ensures r == High(r) * 64 + l
  {
    r % 64
  }

  /** The first rune of `s`, and how many bytes it takes. */
  function DecodeRune(s: Str): (d: (int, nat))
    requires s != []
    ensures IsScalar(d.0) && 1 <= d.1 <= |s|
    ensures d.0 < 0x80 ==> d.1 == 1 && d.0 == s[0]
  {
    match SeqLen(s)
    case 1 => (s[0], 1)
    case 2 => (Push(s[0] - 0xC0, s[1] - 0x80), 2)
    case 3 => (Push(Push(s[0] - 0xE0, s[1] - 0x80), s[2] - 0x80), 3)
    case 4 => (Push(Push(Push(s[0] - 0xF0, s[1] - 0x80), s[2] - 0x80), s[3] - 0x80), 4)
    case _ => (REPLACEMENT, 1)
  }

  function EncodeRune(r: int): (e: Str)
    requires IsScalar(r)
    ensures r < 0x80 ==> e == [r]
    ensures r >= 0x80 ==> |e| >= 2 && forall i :: 0 <= i < |e| ==> e[i] >= 0x80
  {
    var r1 := High(r);
    var r2 := High(r1);
    if r < 0x80 then [r]
    else if r < 0x800 then [0xC0 + r1, 0x80 + Low(r)]
    else if r < 0x10000 then [0xE0 + r2, 0x80 + Low(r1), 0x80 + Low(r)]
    else [0xF0 + High(r2), 0x80 + Low(r2), 0x80 + Low(r1), 0x80 + Low(r)]
  }

  lemma EncodeDecodeShort(s: Str)
    requires s != [] && SeqLen(s) <= 2
    ensures var (r, n) := DecodeRune(s);
      if SeqLen(s) > 0 then n == SeqLen(s) && EncodeRune(r) == s[..n] else |EncodeRune(r)| == 3 && n == 1
  {
    hide High, Low;
  }

  lemma EncodeDecodeThree(s: Str)
    requires s != [] && SeqLen(s) == 3
    ensures DecodeRune(s).1 == 3 && EncodeRune(DecodeRune(s).0) == s[..3]
  {
    hide High, Low;
    var x := Push(s[0] - 0xE0, s[1] - 0x80);
    var r := Push(x, s[2] - 0x80);
    assert High(r) == x && High(x) == s[0] - 0xE0;
    assert 0x800 <= r < 0x10000;
  }

  lemma EncodeDecodeFour(s: Str)
    requires s != [] && SeqLen(s) == 4
    ensures DecodeRune(s).1 == 4 && EncodeRune(DecodeRune(s).0) == s[..4]
  {
    hide High, Low;
    var x := Push(s[0] - 0xF0, s[1] - 0x80);
    var y := Push(x, s[2] - 0x80);
    var r := Push(y, s[3] - 0x80);
    assert High(r) == y && High(y) == x && High(x) == s[0] - 0xF0;
    assert 0x10000 <= r;
  }

  /** Encoding undoes decoding on well-formed sequences; anything else becomes three bytes for one. */
  lemma EncodeDecode(s: Str)
    requires s != []
    ensures var (r, n) := DecodeRune(s);
      if SeqLen(s) > 0 then n == SeqLen(s) && EncodeRune(r) == s[..n] else |EncodeRune(r)| == 3 && n == 1
  {
    hide DecodeRune, EncodeRune;
    match SeqLen(s)
    case 3 => EncodeDecodeThree(s);
    case 4 => EncodeDecodeFour(s);
    case _ => EncodeDecodeShort(s);
  }

  predicate WellFormed(s: Str) {
    s == [] || (SeqLen(s) > 0 && WellFormed(s[SeqLen(s)..]))
  }

  /** What is left of `s` after it went through decoding and encoding. */
  function Repair(s: Str): Str {
    if s == [] then [] else var (r, n) := DecodeRune(s); EncodeRune(r) + Repair(s[n..])
  }

  lemma {:induction false} RepairLength(s: Str)
    ensures |Repair(s)| >= |s|
    ensures |Repair(s)| == |s| ==> WellFormed(s)
  {
    hide SeqLen, DecodeRune, EncodeRune;
    if s != [] {
      EncodeDecode(s);
      RepairLength(s[DecodeRune(s).1..]);
    }
  }

  lemma RepairFirst(s: Str)
    ensures s == [] ==> Repair(s) == s
    ensures s != [] && SeqLen(s) > 0 ==> Repair(s) == s[..SeqLen(s)] + Repair(s[SeqLen(s)..])
  {
    hide SeqLen, DecodeRune, EncodeRune;
    if s != [] {
      EncodeDecode(s);
    }
  }

  lemma {:induction false} RepairWellFormed(s: Str)
    requires WellFormed(s)
    ensures Repair(s) == s
  {
    hide SeqLen, DecodeRune, EncodeRune, Repair;
    RepairFirst(s);
    if s != [] {
      var n := SeqLen(s);
      RepairWellFormed(s[n..]);
      assert s == s[..n] + s[n..];
    }
  }

  /** Decoding and encoding change nothing exactly when the string is well-formed UTF-8. */
  lemma RepairedIffIllFormed(s: Str)
    ensures Repair(s) == s <==> WellFormed(s)
  {
    if WellFormed(s) {
      RepairWellFormed(s);
    } else {
      RepairLength(s);
    }
  }

  // ---------- The encoding, and what it makes of whole strings ----------

  /** The bytes of a rune, six bits to each trailing byte. */
  lemma RuneBytes(r: int)
    requires 0 <= r < 0xD800 || 0xE000 <= r <= 0x10FFFF
    ensures IsScalar(r)
    ensures r < 0x80 ==> EncodeRune(r) == [r]
    ensures 0x80 <= r < 0x800 ==> EncodeRune(r) == [0xC0 + r / 64, 0x80 + r % 64]
    ensures 0x800 <= r < 0x10000 ==> EncodeRune(r) == [0xE0 + r / 64 / 64, 0x80 + r / 64 % 64, 0x80 + r % 64]
    ensures 0x10000 <= r ==>
      EncodeRune(r) == [0xF0 + r / 64 / 64 / 64, 0x80 + r / 64 / 64 % 64, 0x80 + r / 64 % 64, 0x80 + r % 64]
  {
  }

  lemma DecodeEncodeTwo(r: int, rest: Str)
    requires IsScalar(r) && r < 0x800
    ensures SeqLen(EncodeRune(r) + rest) == |EncodeRune(r)|
    ensures DecodeRune(EncodeRune(r) + rest) == (r, |EncodeRune(r)|)
  {
    hide High, Low;
    if r >= 0x80 {
      assert Push(High(r), Low(r)) == r && 2 <= High(r) < 32;
    }
  }

  lemma DecodeEncodeThree(r: int, rest: Str)
    requires IsScalar(r) && 0x800 <= r < 0x10000
    ensures SeqLen(EncodeRune(r) + rest) == 3 == |EncodeRune(r)|
    ensures DecodeRune(EncodeRune(r) + rest) == (r, 3)
  {
    hide High, Low;
    var r1 := High(r);
    var r2 := High(r1);
    assert Push(r1, Low(r)) == r && Push(r2, Low(r1)) == r1;
    assert r2 < 16 && (r2 == 0 ==> Low(r1) >= 32) && (r2 == 13 ==> Low(r1) < 32 || r >= 0xE000);
  }

  lemma DecodeEncodeFour(r: int, rest: Str)
    requires IsScalar(r) && 0x10000 <= r
    ensures SeqLen(EncodeRune(r) + rest) == 4 == |EncodeRune(r)|
    ensures DecodeRune(EncodeRune(r) + rest) == (r, 4)
  {
    hide High, Low;
    var r1 := High(r);
    var r2 := High(r1);
    var r3 := High(r2);
    assert Push(r1, Low(r)) == r && Push(r2, Low(r1)) == r1 && Push(r3, Low(r2)) == r2;
    assert r3 <= 4 && (r3 == 0 ==> Low(r2) >= 16) && (r3 == 4 ==> Low(r2) < 16);
  }

  /** Decoding undoes encoding, for every scalar value, whatever follows. */
  lemma DecodeEncode(r: int, rest: Str)
    requires 0 <= r < 0xD800 || 0xE000 <= r <= 0x10FFFF
    ensures IsScalar(r) && SeqLen(EncodeRune(r) + rest) == |EncodeRune(r)|
    ensures DecodeRune(EncodeRune(r) + rest) == (r, |EncodeRune(r)|)
  {
    hide SeqLen, DecodeRune, EncodeRune;
    if r < 0x800 {
      DecodeEncodeTwo(r, rest);
    } else if r < 0x10000 {
      DecodeEncodeThree(r, rest);
    } else {
      DecodeEncodeFour(r, rest);
    }
  }

  /** Where no rune's bytes stand, one byte is skipped and U+FFFD is read. */
  lemma NoRuneHere(s: Str)
    requires s != [] && forall r :: IsScalar(r) ==> !(EncodeRune(r) <= s)
    ensures DecodeRune(s) == (0xFFFD, 1)
  {
    hide EncodeRune;
    EncodeDecode(s);
    if SeqLen(s) > 0 {
      assert false;
    }
  }

  predicate AllScalars(rs: seq<int>) {
    forall k :: 0 <= k < |rs| ==> IsScalar(rs[k])
  }

  /** The bytes of a list of runes. */
  function Encoded(rs: seq<int>): Str
    requires AllScalars(rs)
  {
    if rs == [] then [] else EncodeRune(rs[0]) + Encoded(rs[1..])
  }

  /** The runes ranging over a string yields. */
  function Decoded(s: Str): (rs: seq<int>)
    ensures AllScalars(rs)
  {
    if s == [] then [] else var (r, n) := DecodeRune(s); [r] + Decoded(s[n..])
  }

  lemma {:induction false} DecodedEncoded(rs: seq<int>)
    requires AllScalars(rs)
    ensures WellFormed(Encoded(rs)) && Decoded(Encoded(rs)) == rs
  {
    hide SeqLen, DecodeRune, EncodeRune;
    if rs != [] {
      var e, rest := EncodeRune(rs[0]), Encoded(rs[1..]);
      DecodeEncode(rs[0], rest);
      DecodedEncoded(rs[1..]);
      assert (e + rest)[|e|..] == rest;
    }
  }

  lemma {:induction false} RepairIsEncodedDecoded(s: Str)
    ensures Repair(s) == Encoded(Decoded(s))
  {
    hide DecodeRune, EncodeRune;
    if s != [] {
      var (r, n) := DecodeRune(s);
      RepairIsEncodedDecoded(s[n..]);
      assert ([r] + Decoded(s[n..]))[1..] == Decoded(s[n..]);
    }
  }

  /** The well-formed strings are exactly the encodings of lists of runes. */
  lemma WellFormedIffEncoded(s: Str)
    ensures WellFormed(s) <==> exists rs :: AllScalars(rs) && Encoded(rs) == s
  {
    if WellFormed(s) {
      RepairWellFormed(s);
      RepairIsEncodedDecoded(s);
      assert AllScalars(Decoded(s)) && Encoded(Decoded(s)) == s;
    }
    if rs :| AllScalars(rs) && Encoded(rs) == s {
      DecodedEncoded(rs);
    }
  }

  // ---------- Lengths in bytes ----------

  function RunesOf(s: string): (rs: seq<int>)
    ensures |rs| == |s| && forall k :: 0 <= k < |s| ==> rs[k] == s[k] as int
    ensures AllScalars(rs)
  {
    seq(|s|, k requires 0 <= k < |s| => s[k] as int)
  }

  /** The length the validators limit is that of the encoding. */
  lemma {:induction false} ByteLengthIsEncoded(s: string)
    ensures Text.ByteLength(s) == |Encoded(RunesOf(s))|
  {
    if s != [] {
      ByteLengthIsEncoded(s[1..]);
      assert RunesOf(s)[1..] == RunesOf(s[1..]);
    }
  }
}

/**
 Strings as sequences of runes, and the parts of Go's strings and unicode packages that the
 validators use. The Unicode tables are a parameter: everything is proved for all tables that agree
 with ASCII and obey a few laws.
 */
module Text {

  predicate IsDigit(c: char) { '0' <= c <= '9' }
  predicate IsLower(c: char) { 'a' <= c <= 'z' }
  predicate IsUpper(c: char) { 'A' <= c <= 'Z' }
  predicate IsAlnum(c: char) { IsDigit(c) || IsLower(c) || IsUpper(c) }
  predicate IsAscii(c: char) { c as int < 128 }
  predicate IsAsciiSpace(c: char) { c == ' ' || 9 <= c as int <= 13 }

  function AsciiLower(c: char): char {
    if IsUpper(c) then (c as int + 32) as char else c
  }

  datatype Unicode = Unicode(isSpace: char -> bool, toLower: char -> char) {
    /** What the proofs use of unicode.IsSpace and unicode.ToLower. */
    ghost predicate Laws() {
      && (forall c {:trigger isSpace(c)} :: IsAscii(c) ==> isSpace(c) == IsAsciiSpace(c))
      && (forall c {:trigger toLower(c)} :: IsAscii(c) ==> toLower(c) == AsciiLower(c))
      && (forall c {:trigger toLower(c)} :: !IsAscii(c) ==> !IsAscii(toLower(c)) || IsLower(toLower(c)))
      && (forall c {:trigger toLower(toLower(c))} :: toLower(toLower(c)) == toLower(c))
      && (forall c {:trigger isSpace(c)} :: isSpace(c) ==> toLower(c) == c)
    }
  }

  /** The laws can be met: ASCII alone meets them. */
  lemma LawsSatisfiable()
    ensures exists u: Unicode :: u.Laws()
  {
    var u := Unicode(IsAsciiSpace, AsciiLower);
    assert forall c: char :: IsAscii(c) ==> AsciiLower(AsciiLower(c)) == AsciiLower(c);
    assert u.Laws();
  }

  /** len of a Go string: the bytes of its UTF-8 encoding. */
  function ByteLength(s: string): (n: nat)
    ensures n >= |s|
  {
    if s == [] then 0
    else
      var c := s[0] as int;
      (if c < 0x80 then 1 else if c < 0x800 then 2 else if c < 0x10000 then 3 else 4) + ByteLength(s[1..])
  }

  function TrimLeft(s: string, cut: char -> bool): (r: string)
    ensures |r| <= |s| && r == s[|s| - |r|..]
    ensures r != [] ==> !cut(r[0])
    ensures s != [] && !cut(s[0]) ==> r == s
  {
    if s != [] && cut(s[0]) then TrimLeft(s[1..], cut) else s
  }

  function TrimRight(s: string, cut: char -> bool): (r: string)
    ensures |r| <= |s| && r == s[..|r|]
    ensures r != [] ==> !cut(r[|r| - 1])
    ensures s != [] && !cut(s[|s| - 1]) ==> r == s
    ensures s != [] && !cut(s[0]) ==> r != []
  {
    if s != [] && cut(s[|s| - 1]) then TrimRight(s[..|s| - 1], cut) else s
  }

  function Trim(s: string, cut: char -> bool): (r: string)
    ensures |r| <= |s|
    ensures forall c :: c in r ==> c in s
    ensures r != [] ==> !cut(r[0]) && !cut(r[|r| - 1])
    ensures s != [] && !cut(s[0]) && !cut(s[|s| - 1]) ==> r == s
    ensures s != [] && !cut(s[0]) ==> r == TrimRight(s, cut)
  {
    var l := TrimLeft(s, cut);
    TrimRight(l, cut)
  }

  function Lower(u: Unicode, s: string): (r: string)
    ensures |r| == |s| && forall i :: 0 <= i < |s| ==> r[i] == u.toLower(s[i])
  {
    seq(|s|, i requires 0 <= i < |s| => u.toLower(s[i]))
  }

  lemma LetterIsNoSpace(u: Unicode, c: char)
    requires u.Laws() && IsLower(u.toLower(c))
    ensures !u.isSpace(c)
  {
  }

  /** Text that lower-cases to ASCII letters has no space to trim. */
  lemma TrimLetters(u: Unicode, s: string)
    requires u.Laws() && s != [] && forall i :: 0 <= i < |s| ==> IsLower(Lower(u, s)[i])
    ensures Trim(s, u.isSpace) == s
  {
    assert IsLower(Lower(u, s)[0]) && IsLower(Lower(u, s)[|s| - 1]);
    LetterIsNoSpace(u, s[0]);
    LetterIsNoSpace(u, s[|s| - 1]);
  }

  /** A space in front of a text is trimmed off. */
  lemma TrimFront(u: Unicode, s: string)
    requires u.Laws() && s != [] && !u.isSpace(s[0]) && !u.isSpace(s[|s| - 1])
    ensures Trim([' '] + s, u.isSpace) == s
  {
    hide TrimLeft, TrimRight;
    assert IsAscii(' ') && u.isSpace(' ');
    TrimLeftFront(' ', s, u.isSpace);
  }

  lemma TrimLeftFront(c: char, s: string, cut: char -> bool)
    requires cut(c)
    ensures TrimLeft([c] + s, cut) == TrimLeft(s, cut)
  {
    assert ([c] + s)[1..] == s;
  }

  lemma TrimTwice(s: string, cut: char -> bool)
    ensures Trim(Trim(s, cut), cut) == Trim(s, cut)
  {
  }

  /** Lower-case ASCII text stays as it is. */
  lemma LowerFixed(u: Unicode, s: string)
    requires u.Laws() && forall i :: 0 <= i < |s| ==> IsAscii(s[i]) && !IsUpper(s[i])
    ensures Lower(u, s) == s
  {
    assert forall i :: 0 <= i < |s| ==> u.toLower(s[i]) == s[i];
  }

  // ---------- What trimming takes off ----------

  lemma {:induction false} TrimLeftExactly(s: string, cut: char -> bool)
    ensures forall k :: 0 <= k < |s| - |TrimLeft(s, cut)| ==> cut(s[k])
  {
    if s != [] && cut(s[0]) {
      TrimLeftExactly(s[1..], cut);
      assert forall k :: 1 <= k < |s| ==> s[k] == s[1..][k - 1];
    }
  }

  /** Off the end comes everything in the cutset, up to the first character that is not. */
  lemma {:induction false} TrimRightExactly(s: string, cut: char -> bool)
    ensures var n := |TrimRight(s, cut)|;
      && n <= |s| && TrimRight(s, cut) == s[..n] && (forall k :: n <= k < |s| ==> cut(s[k]))
      && (n > 0 ==> !cut(s[n - 1]))
  {
    if s != [] && cut(s[|s| - 1]) {
      TrimRightExactly(s[..|s| - 1], cut);
    }
  }

  /** Trimming takes off both ends what is in the cutset, and nothing else. */
  lemma TrimExactly(s: string, cut: char -> bool) returns (i: nat, j: nat)
    ensures i <= j <= |s| && Trim(s, cut) == s[i..j]
    ensures forall k :: 0 <= k < i || j <= k < |s| ==> cut(s[k])
    ensures i < j ==> !cut(s[i]) && !cut(s[j - 1])
  {
    hide TrimLeft, TrimRight;
    var l := TrimLeft(s, cut);
    TrimLeftExactly(s, cut);
    TrimRightExactly(l, cut);
    i := |s| - |l|;
    j := i + |TrimRight(l, cut)|;
    assert l == s[i..] && forall k :: i <= k < |s| ==> s[k] == l[k - i];
    assert s[i..j] == l[..j - i];
  }
}

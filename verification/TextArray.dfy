/**
 TextArray: the text form of a PostgreSQL text[] value (section 8.15.6 of the PostgreSQL manual),
 printed rune by rune and parsed byte by byte.
 */
module TextArray {
  import opened Utf8
  import opened Wrappers

  datatype ScanError = InvalidFormat | UnsupportedType

  const QUOTE: Byte := 34
  const COMMA: Byte := 44
  const BACKSLASH: Byte := 92
  const OPEN: Byte := 123
  const CLOSE: Byte := 125

  predicate IsSpecial(b: int) {
    b == QUOTE || b == BACKSLASH
  }

  // ---------- The printer ----------

  /** The bytes of `s` with a backslash before each quote and backslash. */
  function Escape(s: Str): Str {
    if s == [] then [] else (if IsSpecial(s[0]) then [BACKSLASH, s[0]] else [s[0]]) + Escape(s[1..])
  }

  function Quoted(s: Str): Str {
    [QUOTE] + Escape(s) + [QUOTE]
  }

  function Join(pieces: seq<Str>): Str {
    if pieces == [] then [] else if |pieces| == 1 then pieces[0] else pieces[0] + [COMMA] + Join(pieces[1..])
  }

  function RepairAll(a: seq<Str>): (r: seq<Str>)
    ensures |r| == |a| && forall k :: 0 <= k < |a| ==> r[k] == Repair(a[k])
  {
    seq(|a|, k requires 0 <= k < |a| => Repair(a[k]))
  }

  function QuoteAll(a: seq<Str>): (r: seq<Str>)
    ensures |r| == |a| && forall k :: 0 <= k < |a| ==> r[k] == Quoted(a[k])
  {
    seq(|a|, k requires 0 <= k < |a| => Quoted(a[k]))
  }

  /** The array text of `a`: each element repaired, escaped and quoted. */
  function Render(a: seq<Str>): Str {
    [OPEN] + Join(QuoteAll(RepairAll(a))) + [CLOSE]
  }

  lemma {:induction false} EscapeAppend(a: Str, b: Str)
    ensures Escape(a + b) == Escape(a) + Escape(b)
  {
    if a == [] {
      assert a + b == b;
    } else {
      assert (a + b)[1..] == a[1..] + b;
      EscapeAppend(a[1..], b);
    }
  }

  lemma {:induction false} EscapePlain(s: Str)
    requires forall i :: 0 <= i < |s| ==> !IsSpecial(s[i])
    ensures Escape(s) == s
  {
    if s != [] {
      EscapePlain(s[1..]);
    }
  }

  /** Escaping before encoding a rune is escaping its bytes: no byte of a longer encoding is special. */
  lemma EscapeRune(r: int)
    requires IsScalar(r)
    ensures Escape(EncodeRune(r)) == (if IsSpecial(r) then [BACKSLASH] else []) + EncodeRune(r)
  {
    if IsSpecial(r) {
      assert Escape([r]) == [BACKSLASH, r] + Escape([]);
    } else {
      EscapePlain(EncodeRune(r));
    }
  }

  lemma {:induction false} JoinMore(pieces: seq<Str>, last: Str)
    ensures Join(pieces + [last]) == if pieces == [] then last else Join(pieces) + [COMMA] + last
  {
    if |pieces| > 1 {
      assert (pieces + [last])[1..] == pieces[1..] + [last];
      JoinMore(pieces[1..], last);
    } else if |pieces| == 1 {
      assert (pieces + [last])[1..] == [last];
    }
  }

  /** One pass of the inner loop: what is still to be printed shrinks by the rune just printed. */
  lemma PrintRune(rest: Str)
    requires rest != []
    ensures var (r, n) := DecodeRune(rest);
      Escape(Repair(rest)) == (if IsSpecial(r) then [BACKSLASH] else []) + EncodeRune(r) + Escape(Repair(rest[n..]))
  {
    var (r, n) := DecodeRune(rest);
    EscapeRune(r);
    EscapeAppend(EncodeRune(r), Repair(rest[n..]));
  }

  lemma PrintNone()
    ensures Escape(Repair([])) == []
  {
  }

  /** The inner loop of Value: the body of one quoted element. */
  method PrintElement(s: Str) returns (body: Str)
    ensures body == Escape(Repair(s))
  {
    hide DecodeRune, EncodeRune, Escape, Repair;
    body := [];
    var rest := s;
    while rest != []
      invariant body + Escape(Repair(rest)) == Escape(Repair(s))
      decreases |rest|
    {
      PrintRune(rest);
      ghost var before := body;
      var (r, n) := DecodeRune(rest);
      if r == BACKSLASH || r == QUOTE {
        body := body + [BACKSLASH];
      }
      body := body + EncodeRune(r);
      rest := rest[n..];
      ghost var piece := (if IsSpecial(r) then [BACKSLASH] else []) + EncodeRune(r);
      assert body == before + piece;
      assert before + (piece + Escape(Repair(rest))) == body + Escape(Repair(rest));
    }
    PrintNone();
    assert body + [] == body;
  }

  /** Value. A nil slice and an empty one print alike. */
  method Value(a: Option<seq<Str>>) returns (text: Str)
    ensures text == Render(if a.Some? then a.value else [])
  {
    hide Escape, Repair, Join;
    JoinNone();
    if a.None? {
      assert QuoteAll(RepairAll([])) == [];
      return [OPEN, CLOSE];
    }
    var items := a.value;
    ghost var pieces := QuoteAll(RepairAll(items));
    text := [OPEN];
    for i := 0 to |items|
      invariant text == [OPEN] + Join(pieces[..i])
    {
      if i > 0 {
        text := text + [COMMA];
      }
      var body := PrintElement(items[i]);
      text := text + [QUOTE] + body + [QUOTE];
      assert pieces[..i + 1] == pieces[..i] + [pieces[i]];
      assert i > 0 ==> pieces[..i] != [];
      JoinMore(pieces[..i], pieces[i]);
    }
    assert pieces[..|items|] == pieces;
    text := text + [CLOSE];
  }

  lemma JoinNone()
    ensures Join([]) == []
  {
  }

  // ---------- The parser ----------

  /** The elements read from `rest`, the parser being in the given state with `cur` collected. */
  function Elements(rest: Str, cur: Str, inQuotes: bool, escaped: bool): (es: seq<Str>)
    ensures es != []
    decreases |rest|
  {
    if rest == [] then [cur]
    else
      var c := rest[0];
      if escaped then Elements(rest[1..], cur + [c], inQuotes, false)
      else if c == BACKSLASH then Elements(rest[1..], cur, inQuotes, true)
      else if c == QUOTE then Elements(rest[1..], cur, !inQuotes, false)
      else if c == COMMA && !inQuotes then [cur] + Elements(rest[1..], [], false, false)
      else Elements(rest[1..], cur + [c], inQuotes, false)
  }

  datatype Source = Null | Text(s: Str) | Strings(ss: seq<Str>) | Items(printed: seq<Str>) | Other

  predicate Braced(s: Str) {
    |s| >= 2 && s[0] == OPEN && s[|s| - 1] == CLOSE
  }

  /** What is asked of strings.TrimSpace: it leaves a string alone that starts and ends with a brace. */
  ghost predicate TrimsSpace(trim: Str -> Str) {
    forall s :: Braced(s) ==> trim(s) == s
  }

  function Parsed(text: Str): Result<seq<Str>, ScanError> {
    if text == [] then Ok([])
    else if !Braced(text) then Err(InvalidFormat)
    else if |text| == 2 then Ok([])
    else Ok(Elements(text[1..|text| - 1], [], false, false))
  }

  /** Scan. `Items` holds what fmt.Sprint makes of each item of an untyped slice. */
  method Scan(src: Source, trim: Str -> Str) returns (a: Result<seq<Str>, ScanError>)
    ensures a == match src
      case Null => Ok([])
      case Text(s) => Parsed(trim(s))
      case Strings(ss) => Ok(ss)
      case Items(printed) => Ok(printed)
      case Other => Err(UnsupportedType)
  {
    var str: Str;
    match src {
      case Null => return Ok([]);
      case Strings(ss) => return Ok(ss);
      case Items(printed) => return Ok(printed);
      case Other => return Err(UnsupportedType);
      case Text(s) => str := trim(s);
    }
    if str == [] || str == [OPEN, CLOSE] {
      return Ok([]);
    }
    if str[0] != OPEN || str[|str| - 1] != CLOSE {
      return Err(InvalidFormat);
    }
    var content := str[1..|str| - 1];
    if content == [] {
      return Ok([]);
    }
    var elements, cur, inQuotes, escaped := [], [], false, false;
    for i := 0 to |content|
      invariant elements + Elements(content[i..], cur, inQuotes, escaped) == Elements(content, [], false, false)
    {
      var c := content[i];
      assert content[i..][1..] == content[i + 1..];
      if escaped {
        cur, escaped := cur + [c], false;
      } else if c == BACKSLASH {
        escaped := true;
      } else if c == QUOTE {
        inQuotes := !inQuotes;
      } else if c == COMMA && !inQuotes {
        elements, cur := elements + [cur], [];
      } else {
        cur := cur + [c];
      }
    }
    elements := elements + [cur];
    a := Ok(elements);
  }

  // ---------- Parsing what was rendered ----------

  /** `body` is a quoted spelling of `x`: any byte may be escaped, quotes and backslashes must be. */
  predicate Spells(body: Str, x: Str) {
    if body == [] then x == []
    else if body[0] == 92 then |body| >= 2 && x != [] && body[1] == x[0] && Spells(body[2..], x[1..])
    else body[0] != 34 && x != [] && body[0] == x[0] && Spells(body[1..], x[1..])
  }

  predicate Bare(x: Str) {
    x != [] && forall i :: 0 <= i < |x| ==> x[i] !in {34, 92, 44}
  }

  /** `piece` renders `x`: bare where nothing needs quoting, else quoted. */
  predicate Renders(piece: Str, x: Str) {
    (Bare(x) && piece == x)
    || (|piece| >= 2 && piece[0] == 34 && piece[|piece| - 1] == 34 && Spells(piece[1..|piece| - 1], x))
  }

  lemma {:induction false} ReadBare(x: Str, rest: Str, cur: Str)
    requires forall i :: 0 <= i < |x| ==> !IsSpecial(x[i]) && x[i] != COMMA
    ensures Elements(x + rest, cur, false, false) == Elements(rest, cur + x, false, false)
  {
    if x == [] {
      assert x + rest == rest && cur + x == cur;
    } else {
      assert (x + rest)[1..] == x[1..] + rest;
      ReadBare(x[1..], rest, cur + [x[0]]);
      assert cur + [x[0]] + x[1..] == cur + x;
    }
  }

  lemma {:induction false} ReadSpelled(body: Str, x: Str, rest: Str, cur: Str)
    requires Spells(body, x)
    ensures Elements(body + rest, cur, true, false) == Elements(rest, cur + x, true, false)
    decreases |body|
  {
    if body == [] {
      assert body + rest == rest && cur + x == cur;
    } else if body[0] == BACKSLASH {
      assert (body + rest)[1..][1..] == body[2..] + rest && (body + rest)[1..][0] == body[1];
      ReadSpelled(body[2..], x[1..], rest, cur + [x[0]]);
      assert cur + [x[0]] + x[1..] == cur + x;
    } else {
      assert (body + rest)[1..] == body[1..] + rest;
      ReadSpelled(body[1..], x[1..], rest, cur + [x[0]]);
      assert cur + [x[0]] + x[1..] == cur + x;
    }
  }

  lemma ReadPiece(piece: Str, x: Str, rest: Str)
    requires Renders(piece, x)
    ensures Elements(piece + rest, [], false, false) == Elements(rest, x, false, false)
  {
    if Bare(x) && piece == x {
      ReadBare(x, rest, []);
      assert [] + x == x;
    } else {
      var body := piece[1..|piece| - 1];
      assert (piece + rest)[1..] == body + ([QUOTE] + rest);
      ReadSpelled(body, x, [QUOTE] + rest, []);
      assert [] + x == x && ([QUOTE] + rest)[1..] == rest;
    }
  }

  /** The parser recovers the list from every rendering of it, not only from the printer's own. */
  lemma {:induction false} ReadJoined(pieces: seq<Str>, xs: seq<Str>)
    requires |pieces| == |xs| > 0
    requires forall k :: 0 <= k < |xs| ==> Renders(pieces[k], xs[k])
    ensures Elements(Join(pieces), [], false, false) == xs
  {
    if |pieces| == 1 {
      assert pieces[0] + [] == pieces[0];
      ReadPiece(pieces[0], xs[0], []);
    } else {
      var rest := [COMMA] + Join(pieces[1..]);
      assert Join(pieces) == pieces[0] + rest;
      ReadPiece(pieces[0], xs[0], rest);
      assert rest[1..] == Join(pieces[1..]);
      ReadJoined(pieces[1..], xs[1..]);
    }
  }

  lemma {:induction false} EscapeSpells(x: Str)
    ensures Spells(Escape(x), x)
  {
    if x != [] {
      EscapeSpells(x[1..]);
      var tail := Escape(x[1..]);
      if IsSpecial(x[0]) {
        assert Escape(x)[2..] == tail;
      } else {
        assert Escape(x)[1..] == tail;
      }
    }
  }

  lemma QuotedRenders(x: Str)
    ensures Renders(Quoted(x), x)
  {
    EscapeSpells(x);
    assert Quoted(x)[1..|Quoted(x)| - 1] == Escape(x);
  }

  lemma JoinLength(pieces: seq<Str>)
    requires pieces != [] && pieces[0] != []
    ensures Join(pieces) != []
  {
  }

  /** Every rendering in braces is read back as the list it renders. */
  lemma ParseRendering(text: Str, pieces: seq<Str>, xs: seq<Str>)
    requires |pieces| == |xs| && forall k :: 0 <= k < |xs| ==> Renders(pieces[k], xs[k])
    requires text == [123] + Join(pieces) + [125]
    ensures Parsed(text) == Ok(xs)
  {
    if xs != [] {
      JoinLength(pieces);
      assert text[1..|text| - 1] == Join(pieces);
      ReadJoined(pieces, xs);
    }
  }

  /** Reading back what was printed gives the list with every element repaired. */
  lemma ParseRender(a: seq<Str>)
    ensures Braced(Render(a)) && Parsed(Render(a)) == Ok(RepairAll(a))
  {
    forall k | 0 <= k < |a|
      ensures Renders(QuoteAll(RepairAll(a))[k], RepairAll(a)[k])
    {
      QuotedRenders(Repair(a[k]));
    }
    ParseRendering(Render(a), QuoteAll(RepairAll(a)), RepairAll(a));
  }

  /** The byte strings of a list of texts, each given by its runes. */
  function EncodedAll(texts: seq<seq<int>>): (a: seq<Str>)
    requires forall k :: 0 <= k < |texts| ==> AllScalars(texts[k])
    ensures |a| == |texts| && forall k :: 0 <= k < |texts| ==> a[k] == Encoded(texts[k])
  {
    seq(|texts|, k requires 0 <= k < |texts| => Encoded(texts[k]))
  }

  ghost predicate Encodes(texts: seq<seq<int>>, a: seq<Str>) {
    (forall k :: 0 <= k < |texts| ==> AllScalars(texts[k])) && EncodedAll(texts) == a
  }

  /** The round trip is the identity exactly on the lists of strings that encode texts. */
  lemma RoundTripExactly(a: seq<Str>, trim: Str -> Str)
    requires TrimsSpace(trim)
    ensures Parsed(trim(Render(a))) == Ok(a) <==> forall k :: 0 <= k < |a| ==> WellFormed(a[k])
    ensures Parsed(trim(Render(a))) == Ok(a) <==> exists texts :: Encodes(texts, a)
  {
    hide Encoded;
    ParseRender(a);
    assert RepairAll(a) == a <==> forall k :: 0 <= k < |a| ==> RepairAll(a)[k] == a[k];
    forall k | 0 <= k < |a|
      ensures RepairAll(a)[k] == a[k] <==> WellFormed(a[k])
    {
      RepairedIffIllFormed(a[k]);
    }
    EncodedIffWellFormed(a);
  }

  lemma EncodedIffWellFormed(a: seq<Str>)
    ensures (exists texts :: Encodes(texts, a)) <==> forall k :: 0 <= k < |a| ==> WellFormed(a[k])
  {
    hide Encoded, WellFormed;
    if texts :| Encodes(texts, a) {
      forall k | 0 <= k < |a|
        ensures WellFormed(a[k])
      {
        assert a[k] == Encoded(texts[k]);
        DecodedEncoded(texts[k]);
      }
    }
    if forall k :: 0 <= k < |a| ==> WellFormed(a[k]) {
      var texts := seq(|a|, k requires 0 <= k < |a| => Decoded(a[k]));
      forall k | 0 <= k < |a|
        ensures Encoded(texts[k]) == a[k]
      {
        RepairWellFormed(a[k]);
        RepairIsEncodedDecoded(a[k]);
      }
      assert Encodes(texts, a);
    }
  }

  // ---------- Every text the parser reads to its end ----------

  /**
   `piece`, read inside or outside quotes, spells `x` and ends outside: quotes come and go, a backslash
   takes the next byte as it is, and a comma stands for itself only inside quotes.
   */
  predicate Reads(piece: Str, x: Str, quoted: bool) {
    if piece == [] then x == [] && !quoted
    else if piece[0] == 92 then |piece| >= 2 && x != [] && x[0] == piece[1] && Reads(piece[2..], x[1..], quoted)
    else if piece[0] == 34 then Reads(piece[1..], x, !quoted)
    else (piece[0] == 44 ==> quoted) && x != [] && x[0] == piece[0] && Reads(piece[1..], x[1..], quoted)
  }

  lemma {:induction false} ReadsElements(piece: Str, x: Str, quoted: bool, rest: Str, cur: Str)
    requires Reads(piece, x, quoted)
    ensures Elements(piece + rest, cur, quoted, false) == Elements(rest, cur + x, false, false)
    decreases |piece|
  {
    if piece == [] {
      assert piece + rest == rest && cur + x == cur;
    } else {
      var all := piece + rest;
      assert all[1..] == piece[1..] + rest;
      if piece[0] == 92 {
        assert all[1..][0] == piece[1] && all[1..][1..] == piece[2..] + rest;
        ReadsElements(piece[2..], x[1..], quoted, rest, cur + [x[0]]);
        assert cur + [x[0]] + x[1..] == cur + x;
      } else if piece[0] == 34 {
        ReadsElements(piece[1..], x, !quoted, rest, cur);
      } else {
        ReadsElements(piece[1..], x[1..], quoted, rest, cur + [x[0]]);
        assert cur + [x[0]] + x[1..] == cur + x;
      }
    }
  }

  lemma {:induction false} ReadsJoined(pieces: seq<Str>, xs: seq<Str>)
    requires |pieces| == |xs| > 0 && forall k :: 0 <= k < |xs| ==> Reads(pieces[k], xs[k], false)
    ensures Elements(Join(pieces), [], false, false) == xs
  {
    assert [] + xs[0] == xs[0];
    if |pieces| == 1 {
      assert pieces[0] + [] == pieces[0];
      ReadsElements(pieces[0], xs[0], false, [], []);
    } else {
      var rest := [COMMA] + Join(pieces[1..]);
      assert Join(pieces) == pieces[0] + rest;
      ReadsElements(pieces[0], xs[0], false, rest, []);
      assert rest[1..] == Join(pieces[1..]);
      ReadsJoined(pieces[1..], xs[1..]);
    }
  }

  /** Elements may be empty, and may be bare and quoted in parts; only an empty pair of braces has no element. */
  lemma ParseReading(text: Str, pieces: seq<Str>, xs: seq<Str>)
    requires |pieces| == |xs| > 0 && forall k :: 0 <= k < |xs| ==> Reads(pieces[k], xs[k], false)
    requires text == [123] + Join(pieces) + [125]
    ensures Parsed(text) == Ok(if Join(pieces) == [] then [] else xs)
  {
    hide Reads, Elements;
    assert text[1..|text| - 1] == Join(pieces);
    ReadsJoined(pieces, xs);
  }

  /** Refused is exactly what is neither empty nor between braces. */
  lemma RefusedExactly(text: Str)
    ensures Parsed(text).Err? <==> text != [] && !(|text| >= 2 && text[0] == 123 && text[|text| - 1] == 125)
  {
  }

  // ---------- What is printed ----------

  function Specials(x: Str): nat {
    if x == [] then 0 else (if x[0] == 34 || x[0] == 92 then 1 else 0) + Specials(x[1..])
  }

  lemma {:induction false} EscapeLength(x: Str)
    ensures |Escape(x)| == |x| + Specials(x)
  {
    if x != [] {
      EscapeLength(x[1..]);
    }
  }

  /** Between quotes stands a spelling of `x` with nothing escaped that need not be. */
  predicate QuotedAs(piece: Str, x: Str) {
    && |piece| == |x| + Specials(x) + 2 && piece[0] == 34 && piece[|piece| - 1] == 34
    && Spells(piece[1..|piece| - 1], x)
  }

  /** Every element is printed between quotes. */
  lemma PrintedQuoted(a: seq<Str>)
    ensures exists pieces: seq<Str> ::
      && Render(a) == [123] + Join(pieces) + [125] && |pieces| == |a|
      && forall k :: 0 <= k < |a| ==> QuotedAs(pieces[k], Repair(a[k]))
  {
    hide Escape, Spells, Specials, Repair;
    var pieces := QuoteAll(RepairAll(a));
    forall k | 0 <= k < |a|
      ensures QuotedAs(pieces[k], Repair(a[k]))
    {
      var x := Repair(a[k]);
      EscapeLength(x);
      EscapeSpells(x);
      assert pieces[k] == Quoted(x) && Quoted(x)[1..|Quoted(x)| - 1] == Escape(x);
    }
  }

  lemma EscapeTwo()
    ensures Escape([97]) == [97] && Escape([98, 34, 92]) == [98, 92, 34, 92, 92]
  {
    var x: Str := [98, 34, 92];
    assert x[1..] == [34, 92] && x[1..][1..] == [92] && x[1..][1..][1..] == [];
    assert Escape([92]) == [92, 92] + Escape([]);
    assert Escape([34, 92]) == [92, 34] + Escape([92]);
    var y: Str := [97];
    assert y[1..] == [];
  }

  lemma AsciiRepaired()
    ensures Repair([97]) == [97] && Repair([98, 34, 92]) == [98, 34, 92]
  {
    hide Repair, WellFormed;
    RunesAscii();
    DecodedEncoded([97]);
    DecodedEncoded([98, 34, 92]);
    RepairWellFormed([97]);
    RepairWellFormed([98, 34, 92]);
  }

  /** The strings a and b"\ together, in bytes. */
  lemma PrintedExample()
    ensures Render([[97], [98, 34, 92]]) == [123, 34, 97, 34, 44, 34, 98, 92, 34, 92, 92, 34, 125]
  {
    hide Escape, Repair, Join;
    var x: Str, y: Str := [97], [98, 34, 92];
    AsciiRepaired();
    EscapeTwo();
    assert RepairAll([x, y]) == [x, y];
    var px: Str, py: Str := [34, 97, 34], [34, 98, 92, 34, 92, 92, 34];
    assert Quoted(x) == px && Quoted(y) == py;
    assert QuoteAll([x, y]) == [px, py];
    JoinTwo(px, py);
  }

  lemma JoinTwo(x: Str, y: Str)
    ensures Join([x, y]) == x + [44] + y
  {
    assert [x, y][1..] == [y];
  }

  lemma RunesAscii()
    ensures Encoded([97]) == [97] && Encoded([98, 34, 92]) == [98, 34, 92]
  {
    assert [97][1..] == [];
    assert [98, 34, 92][1..] == [34, 92] && [34, 92][1..] == [92] && [92][1..] == [];
    assert Encoded([92]) == [92] + Encoded([]);
    assert Encoded([34, 92]) == [34] + Encoded([92]);
  }

  /** A stray byte comes back as the three bytes of U+FFFD. */
  lemma StrayByteIsReplaced(trim: Str -> Str)
    requires TrimsSpace(trim)
    ensures !WellFormed([0x80]) && Parsed(trim(Render([[0x80]]))) == Ok([[0xEF, 0xBF, 0xBD]])
  {
    var s: Str, marker: Str := [0x80], [0xEF, 0xBF, 0xBD];
    ParseRender([s]);
    assert DecodeRune(s) == (REPLACEMENT, 1) && EncodeRune(REPLACEMENT) == marker;
    assert s[DecodeRune(s).1..] == [];
    assert Repair(s) == EncodeRune(DecodeRune(s).0) + Repair(s[DecodeRune(s).1..]);
    assert marker + [] == marker;
    assert RepairAll([s]) == [marker];
    assert trim(Render([s])) == Render([s]);
  }

  /** Printed and scanned with the two methods, a list of well-formed strings comes back; nil comes back empty. */
  method RoundTrip(a: Option<seq<Str>>, trim: Str -> Str) returns (back: Result<seq<Str>, ScanError>)
    requires TrimsSpace(trim)
    ensures back.Ok?
    ensures a.None? ==> back.value == []
    ensures a.Some? ==> (back.value == a.value <==> exists texts :: Encodes(texts, a.value))
  {
    var text := Value(a);
    back := Scan(Text(text), trim);
    ParseRender(if a.Some? then a.value else []);
    RoundTripExactly(if a.Some? then a.value else [], trim);
  }
}

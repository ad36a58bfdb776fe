/**
 Resume file names: SanitizeFilename with its collapse loop, the storage key, and what an accepted
 name looks like. Paths are Unix paths.
 */
module Filename {
  import opened Text

  const MAX_STEM := 100

  predicate IsSlash(c: char) { c == '/' }
  predicate IsSafe(c: char) { IsAlnum(c) || c == '.' || c == '_' || c == '-' }
  predicate InCutset(c: char) { c == '.' || c == '_' || c == '-' || c == ' ' }

  // ---------- path/filepath ----------

  /** What follows the last `c`, or all of `s`. */
  function AfterLast(s: string, c: char): (r: string)
    ensures c !in r
    ensures c !in s ==> r == s
  {
    if s == [] then [] else if s[|s| - 1] == c then [] else AfterLast(s[..|s| - 1], c) + [s[|s| - 1]]
  }

  /** filepath.Base. */
  function Base(path: string): (r: string)
    ensures r != []
    ensures path != [] && '/' !in path ==> r == path
  {
    var p := TrimRight(path, IsSlash);
    if path == [] then "." else if p == [] then "/" else AfterLast(p, '/')
  }

  /** filepath.Ext: the suffix from the last dot of the last path element. */
  function Ext(s: string): (e: string)
    ensures |e| <= |s| && e == s[|s| - |e|..]
    ensures e != [] ==> IsExtension(e)
  {
    if s == [] || s[|s| - 1] == '/' then []
    else if s[|s| - 1] == '.' then "."
    else
      var front := Ext(s[..|s| - 1]);
      if front == [] then [] else front + [s[|s| - 1]]
  }

  function Stem(s: string): string {
    s[..|s| - |Ext(s)|]
  }

  predicate IsExtension(e: string) {
    e != [] && e[0] == '.' && forall i :: 0 <= i < |e| ==> e[i] != '/' && (i > 0 ==> e[i] != '.')
  }

  lemma ExtStep(front: string, c: char)
    requires c != '/'
    ensures c == '.' ==> Ext(front + [c]) == "."
    ensures c != '.' && Ext(front) != [] ==> Ext(front + [c]) == Ext(front) + [c]
  {
    assert (front + [c])[..|front|] == front;
  }

  /** An extension is found again behind any stem. */
  lemma {:induction false} ExtOf(stem: string, e: string)
    requires IsExtension(e)
    ensures Ext(stem + e) == e && Stem(stem + e) == stem
    decreases |e|
  {
    hide Ext;
    var front, c := e[..|e| - 1], e[|e| - 1];
    assert stem + e == (stem + front) + [c] && e == front + [c];
    ExtStep(stem + front, c);
    if front != [] {
      ExtOf(stem, front);
    }
    assert Ext(stem + e) == e;
    assert (stem + e)[..|stem|] == stem;
  }

  // ---------- Cleaning the stem ----------

  function Underscored(s: string): (r: string)
    ensures |r| == |s|
    ensures forall i :: 0 <= i < |s| ==> r[i] == if IsSafe(s[i]) then s[i] else '_'
  {
    seq(|s|, i requires 0 <= i < |s| => if IsSafe(s[i]) then s[i] else '_')
  }

  predicate NoDouble(s: string) {
    forall i :: 0 <= i < |s| - 1 && s[i] == '_' ==> s[i + 1] != '_'
  }

  /** strings.Contains(s, "__"). */
  predicate HasDouble(s: string) {
    !NoDouble(s)
  }

  /** Each run of underscores becomes one, in a single pass. */
  function Collapse(s: string): (r: string)
    ensures forall c :: c in r ==> c in s
    ensures s != [] ==> r != [] && r[0] == s[0]
    ensures NoDouble(r)
  {
    if |s| < 2 then s
    else if s[0] == '_' && s[1] == '_' then Collapse(s[1..])
    else
      var rest := Collapse(s[1..]);
      NoDoubleCons(s[0], rest);
      [s[0]] + rest
  }

  lemma NoDoubleCons(c: char, rest: string)
    requires NoDouble(rest) && (rest != [] ==> c != '_' || rest[0] != '_')
    ensures NoDouble([c] + rest)
  {
    var s := [c] + rest;
    assert forall i :: 0 < i < |s| ==> s[i] == rest[i - 1];
  }

  /** strings.ReplaceAll(s, "__", "_"): from the left, without overlaps. */
  function ReplacePairs(s: string): (r: string)
    ensures |r| <= |s|
    ensures s != [] ==> r != [] && r[0] == s[0]
  {
    if |s| < 2 then s
    else if s[0] == '_' && s[1] == '_' then "_" + ReplacePairs(s[2..])
    else [s[0]] + ReplacePairs(s[1..])
  }

  lemma {:induction false} PairsShrink(s: string)
    requires HasDouble(s)
    ensures |ReplacePairs(s)| < |s|
  {
    var i :| 0 <= i < |s| - 1 && s[i] == '_' && s[i + 1] == '_';
    if !(s[0] == '_' && s[1] == '_') {
      assert s[1..][i - 1] == '_' && s[1..][i - 1 + 1] == '_';
      PairsShrink(s[1..]);
    }
  }

  lemma CollapseCons(c: char, rest: string)
    ensures Collapse([c] + rest)
         == if rest != [] && c == '_' && rest[0] == '_' then Collapse(rest) else [c] + Collapse(rest)
  {
    assert ([c] + rest)[1..] == rest;
  }

  /** A pass of the loop does not change what the string collapses to. */
  lemma {:induction false} PairsKeepCollapse(s: string)
    ensures Collapse(ReplacePairs(s)) == Collapse(s)
    decreases |s|
  {
    if |s| >= 2 {
      if s[0] == '_' && s[1] == '_' {
        PairsKeepCollapse(s[2..]);
        CollapseCons('_', ReplacePairs(s[2..]));
        assert s[1..] == ['_'] + s[2..];
        CollapseCons('_', s[2..]);
      } else {
        PairsKeepCollapse(s[1..]);
        CollapseCons(s[0], ReplacePairs(s[1..]));
      }
    }
  }

  lemma {:induction false} CollapseFixed(s: string)
    requires NoDouble(s)
    ensures Collapse(s) == s
  {
    if |s| >= 2 {
      assert s[0] == '_' ==> s[0 + 1] != '_';
      NoDoubleSlice(s, 1, |s|);
      assert s[1..|s|] == s[1..];
      CollapseFixed(s[1..]);
    }
  }

  /** The loop of SanitizeFilename terminates and collapses every run in the end. */
  method CollapseLoop(s: string) returns (sanitized: string)
    ensures sanitized == Collapse(s)
  {
    sanitized := s;
    while HasDouble(sanitized)
      invariant Collapse(sanitized) == Collapse(s)
      decreases |sanitized|
    {
      PairsShrink(sanitized);
      PairsKeepCollapse(sanitized);
      sanitized := ReplacePairs(sanitized);
    }
    CollapseFixed(sanitized);
  }

  /** The stem before it is cut to length. */
  function CleanStem(name: string): string {
    var s := Trim(Collapse(Underscored(name)), InCutset);
    if s == [] then "resume" else s
  }

  function CutStem(stem: string): string {
    if |stem| > MAX_STEM then stem[..MAX_STEM] else stem
  }

  // ---------- SanitizeFilename ----------

  function SlashForBackslash(s: string): (r: string)
    ensures |r| == |s| && forall i :: 0 <= i < |s| ==> r[i] == if s[i] == '\\' then '/' else s[i]
  {
    seq(|s|, i requires 0 <= i < |s| => if s[i] == '\\' then '/' else s[i])
  }

  /** The last path element of the trimmed name, with either kind of separator. */
  function BaseName(u: Unicode, filename: string): (r: string)
    ensures '/' !in r
  {
    AfterLast(SlashForBackslash(Base(Trim(filename, u.isSpace))), '/')
  }

  predicate NoName(u: Unicode, filename: string) {
    Trim(filename, u.isSpace) == [] || BaseName(u, filename) in {"", "."}
  }

  function KeptExt(u: Unicode, base: string): string {
    var ext := Lower(u, Ext(base));
    if ext == "." then [] else ext
  }

  function Sanitized(u: Unicode, filename: string): string {
    if NoName(u, filename) then "resume"
    else
      var base := BaseName(u, filename);
      CutStem(CleanStem(Stem(base))) + KeptExt(u, base)
  }

  /** The part of SanitizeFilename between taking the extension off and putting it back. */
  method SanitizeStem(nameWithoutExt: string) returns (sanitized: string)
    ensures sanitized == CutStem(CleanStem(nameWithoutExt))
  {
    sanitized := Underscored(nameWithoutExt);
    sanitized := CollapseLoop(sanitized);
    sanitized := Trim(sanitized, InCutset);
    if sanitized == "" {
      sanitized := "resume";
    }
    if |sanitized| > 100 {
      sanitized := sanitized[..100];
    }
  }

  method SanitizeFilename(u: Unicode, filename: string) returns (name: string)
    ensures name == Sanitized(u, filename)
  {
    hide CleanStem, CutStem, Trim, Ext, Base, AfterLast, Lower, SlashForBackslash;
    var trimmed := Trim(filename, u.isSpace);
    if trimmed == "" {
      return "resume";
    }
    var base := AfterLast(SlashForBackslash(Base(trimmed)), '/');
    if base == "." || base == "/" || base == "" {
      return "resume";
    }
    var ext := Lower(u, Ext(base));
    if ext == "." {
      ext := "";
    }
    var sanitized := SanitizeStem(base[..|base| - |Ext(base)|]);
    return sanitized + ext;
  }

  /** IsAllowedExtension. */
  predicate IsAllowedExtension(u: Unicode, ext: string) {
    var bare := if ext != [] && ext[0] == '.' then ext[1..] else ext;
    Lower(u, bare) in {"pdf", "doc", "docx"}
  }

  /** The extension test of ValidateResume on a sanitised name. */
  predicate Accepted(u: Unicode, name: string) {
    IsAllowedExtension(u, Lower(u, Ext(name)))
  }

  // ---------- What a sanitised name looks like ----------

  predicate AllSafe(s: string) {
    forall i :: 0 <= i < |s| ==> IsSafe(s[i])
  }

  predicate SafeStem(s: string) {
    s != [] && |s| <= MAX_STEM && IsAlnum(s[0]) && NoDouble(s) && AllSafe(s)
  }

  lemma NoDoubleSlice(s: string, i: nat, j: nat)
    requires NoDouble(s) && i <= j <= |s|
    ensures NoDouble(s[i..j])
  {
    var t := s[i..j];
    forall k | 0 <= k < |t| - 1 && t[k] == '_'
      ensures t[k + 1] != '_'
    {
      assert t[k] == s[i + k] && t[k + 1] == s[i + k + 1];
    }
  }

  lemma TrimSlice(s: string, cut: char -> bool)
    ensures exists i, j :: 0 <= i <= j <= |s| && Trim(s, cut) == s[i..j]
  {
    var l := TrimLeft(s, cut);
    var r := TrimRight(l, cut);
    assert r == l[..|r|] == s[|s| - |l|..|s| - |l| + |r|];
  }

  lemma ResumeIsSafe()
    ensures SafeStem("resume")
  {
    assert forall i :: 0 <= i < 6 ==> "resume"[i] != '_';
  }

  lemma CollapsedSafe(name: string)
    ensures AllSafe(Collapse(Underscored(name)))
  {
    hide Collapse;
    var c := Collapse(Underscored(name));
    assert forall i :: 0 <= i < |c| ==> c[i] in c && c[i] in Underscored(name);
  }

  /** Whatever the name, the stem is not empty, starts alphanumeric, and is safe and short. */
  lemma StemIsSafe(name: string)
    ensures SafeStem(CutStem(CleanStem(name)))
  {
    hide Collapse, Trim, Underscored, NoDouble;
    var c := Collapse(Underscored(name));
    var s := Trim(c, InCutset);
    ResumeIsSafe();
    if s != [] {
      CollapsedSafe(name);
      TrimSlice(c, InCutset);
      var i, j :| 0 <= i <= j <= |c| && s == c[i..j];
      NoDoubleSlice(c, i, j);
      assert AllSafe(s) by {
        assert forall k :: 0 <= k < |s| ==> s[k] == c[i + k];
      }
      assert IsSafe(s[0]) && !InCutset(s[0]);
      if |s| > MAX_STEM {
        NoDoubleSlice(s, 0, MAX_STEM);
        assert s[..MAX_STEM] == s[0..MAX_STEM];
      }
    }
  }

  predicate SafeName(s: string) {
    s != [] && |s| <= 105 && IsAlnum(s[0]) && NoDouble(s) && AllSafe(s)
  }

  /** Lower-casing keeps the shape of an extension: no new dot or slash appears. */
  lemma LowerExt(u: Unicode, e: string)
    requires u.Laws() && IsExtension(e)
    ensures IsExtension(Lower(u, e)) && Lower(u, Lower(u, e)) == Lower(u, e)
  {
  }

  /** A sanitised name falls apart into its stem and its kept extension, unless it kept none. */
  lemma SanitizedParts(u: Unicode, filename: string)
    requires u.Laws() && !NoName(u, filename)
    ensures var base := BaseName(u, filename);
      && SafeStem(CutStem(CleanStem(Stem(base))))
      && (Ext(base) in {"", "."} ==> KeptExt(u, base) == [])
      && (Ext(base) !in {"", "."} ==>
            && KeptExt(u, base) == Lower(u, Ext(base))
            && Ext(Sanitized(u, filename)) == KeptExt(u, base)
            && Stem(Sanitized(u, filename)) == CutStem(CleanStem(Stem(base)))
            && Lower(u, KeptExt(u, base)) == KeptExt(u, base))
  {
    hide CleanStem, CutStem;
    var base := BaseName(u, filename);
    StemIsSafe(Stem(base));
    if Ext(base) != [] {
      LowerExt(u, Ext(base));
      var l := Lower(u, Ext(base));
      assert |l| == 1 ==> l == ".";
      if Ext(base) != "." {
        ExtOf(CutStem(CleanStem(Stem(base))), l);
      }
    }
  }

  lemma AllowedIsShort(u: Unicode, e: string)
    requires u.Laws() && IsAllowedExtension(u, Lower(u, e)) && e != [] && e[0] == '.'
    ensures 4 <= |e| <= 5
    ensures forall i :: 1 <= i < |e| ==> IsLower(u.toLower(e[i]))
  {
    var l := Lower(u, e);
    var b := Lower(u, l[1..]);
    assert l[0] == '.';
    assert b in {"pdf", "doc", "docx"};
    assert forall i :: 0 <= i < |b| ==> IsLower(b[i]);
    forall i | 1 <= i < |e|
      ensures IsLower(u.toLower(e[i]))
    {
      assert b[i - 1] == u.toLower(l[i]) == u.toLower(u.toLower(e[i]));
    }
  }

  lemma AcceptedLower(u: Unicode, x: string)
    requires u.Laws() && Accepted(u, x) && Ext(x) != [] && Lower(u, Ext(x)) == Ext(x)
    ensures |Ext(x)| <= 5 && forall i :: 0 <= i < |Ext(x)| ==> IsSafe(Ext(x)[i]) && Ext(x)[i] != '_'
  {
    AllowedIsShort(u, Ext(x));
  }

  /** Every name ValidateResume accepts starts alphanumeric, is safe, has no "__" and at most 105 bytes. */
  lemma AcceptedIsSafe(u: Unicode, filename: string)
    requires u.Laws() && Accepted(u, Sanitized(u, filename))
    ensures SafeName(Sanitized(u, filename))
  {
    hide CleanStem, CutStem, Accepted, BaseName, NoName, Ext, Lower;
    var x := Sanitized(u, filename);
    AcceptedHasExt(u, x);
    ResumeIsSafe();
    if !NoName(u, filename) {
      SanitizedParts(u, filename);
      var base := BaseName(u, filename);
      var stem, e := CutStem(CleanStem(Stem(base))), KeptExt(u, base);
      if e == [] {
        assert x == stem;
      } else {
        assert Ext(x) == e;
        AcceptedLower(u, x);
        NoDoubleJoin(stem, e);
      }
    }
  }

  lemma NoDoubleJoin(a: string, b: string)
    requires NoDouble(a) && forall i :: 0 <= i < |b| ==> b[i] != '_'
    ensures NoDouble(a + b)
  {
    var s := a + b;
    forall i | 0 <= i < |s| - 1 && s[i] == '_'
      ensures s[i + 1] != '_'
    {
      if i + 1 < |a| {
        assert s[i] == a[i] && s[i + 1] == a[i + 1];
      } else {
        assert s[i + 1] == b[i + 1 - |a|];
      }
    }
  }

  // ---------- Sanitising twice ----------

  lemma AcceptedHasExt(u: Unicode, x: string)
    requires Accepted(u, x)
    ensures Ext(x) != []
  {
    assert Lower(u, []) == [];
  }

  /** An accepted safe name is its own base name. */
  lemma SafeIsBase(u: Unicode, x: string)
    requires u.Laws() && SafeName(x) && |x| > 1
    ensures BaseName(u, x) == x && !NoName(u, x)
  {
    hide Trim, AfterLast, Base;
    NotSpace(u, x);
    assert Trim(x, u.isSpace) == x;
    assert Base(x) == x;
    assert SlashForBackslash(x) == x;
  }

  /** A safe stem is only trimmed at its end. */
  lemma SafeStemCleaned(x: string, n: nat)
    requires SafeName(x) && 0 < n <= |x|
    ensures CleanStem(x[..n]) == TrimRight(x[..n], InCutset) && TrimRight(x[..n], InCutset) != []
  {
    hide Collapse, Trim, TrimRight;
    var stem := x[..n];
    assert Underscored(stem) == stem;
    NoDoubleSlice(x, 0, n);
    assert x[0..n] == stem;
    CollapseFixed(stem);
    assert !InCutset(stem[0]);
  }

  /** Sanitising an accepted name again only trims the end of its stem and lower-cases its extension. */
  lemma SanitizedAgain(u: Unicode, x: string)
    requires u.Laws() && SafeName(x) && Accepted(u, x) && |Stem(x)| <= MAX_STEM
    ensures Stem(x) != []
    ensures Sanitized(u, x) == TrimRight(Stem(x), InCutset) + Lower(u, Ext(x))
  {
    hide Accepted, CleanStem, TrimRight, SafeName, BaseName, NoName;
    AcceptedHasExt(u, x);
    AcceptedShort(u, x);
    StemStarts(x);
    SafeIsBase(u, x);
    SafeStemCleaned(x, |Stem(x)|);
  }

  lemma AcceptedShort(u: Unicode, x: string)
    requires u.Laws() && Accepted(u, x) && Ext(x) != []
    ensures |Ext(x)| >= 4
  {
    AllowedIsShort(u, Ext(x));
  }

  lemma StemStarts(x: string)
    requires SafeName(x) && Ext(x) != []
    ensures Stem(x) != []
  {
    assert Ext(x)[0] == x[|x| - |Ext(x)|];
  }

  lemma NotSpace(u: Unicode, x: string)
    requires u.Laws() && SafeName(x)
    ensures !u.isSpace(x[0]) && !u.isSpace(x[|x| - 1])
    ensures '/' !in x && '\\' !in x
  {
    assert forall i :: 0 <= i < |x| ==> IsAscii(x[i]);
  }

  lemma AcceptedStemShort(u: Unicode, filename: string)
    requires u.Laws() && Accepted(u, Sanitized(u, filename))
    ensures |Stem(Sanitized(u, filename))| <= MAX_STEM
  {
    hide CleanStem, CutStem;
    ResumeIsSafe();
    if !NoName(u, filename) {
      SanitizedParts(u, filename);
    }
  }

  /** A sanitised name is settled if its stem ends alphanumeric and its extension is in lower case. */
  predicate Settled(u: Unicode, x: string) {
    Stem(x) != [] && IsAlnum(Stem(x)[|Stem(x)| - 1]) && Lower(u, Ext(x)) == Ext(x)
  }

  lemma TwiceIffResultSettled(u: Unicode, filename: string)
    requires u.Laws() && Accepted(u, Sanitized(u, filename))
    ensures var x := Sanitized(u, filename);
      Sanitized(u, x) == x <==> Settled(u, x)
  {
    hide Sanitized, Accepted, Ext, SafeName, Stem;
    var x := Sanitized(u, filename);
    AcceptedIsSafe(u, filename);
    AcceptedStemShort(u, filename);
    SanitizedAgain(u, x);
    StemAndExt(x);
    TrimmedEnd(x, |Stem(x)|);
    SameParts(TrimRight(Stem(x), InCutset), Lower(u, Ext(x)), Stem(x), Ext(x));
  }

  lemma StemAndExt(x: string)
    ensures Stem(x) + Ext(x) == x && |Stem(x)| <= |x| && Stem(x) == x[..|Stem(x)|]
  {
    hide Ext;
  }

  lemma SameParts(a: string, e: string, stem: string, ext: string)
    requires |a| <= |stem| && |e| == |ext|
    ensures a + e == stem + ext <==> a == stem && e == ext
  {
    if a + e == stem + ext {
      assert |a| == |stem|;
      assert (a + e)[..|a|] == a && (stem + ext)[..|a|] == stem;
      assert (a + e)[|a|..] == e && (stem + ext)[|a|..] == ext;
    }
  }

  /** In a safe name, trimming the end of a part changes it exactly if the part does not end alphanumeric. */
  lemma TrimmedEnd(x: string, n: nat)
    requires SafeName(x) && 0 < n <= |x|
    ensures TrimRight(x[..n], InCutset) == x[..n] <==> IsAlnum(x[n - 1])
  {
    var stem := x[..n];
    assert IsSafe(stem[n - 1]);
    assert !InCutset(stem[n - 1]) <==> IsAlnum(stem[n - 1]);
  }

  /**
   What decides, on the name as given, whether sanitising it once settles it. If it has an extension of
   its own, its cleaned stem must be short enough or be cut right behind an alphanumeric. If it ends in
   a dot, which sanitising drops, then what precedes the dot takes its place and must be settled.
   */
  predicate SettlesAtOnce(u: Unicode, filename: string) {
    var base := BaseName(u, filename);
    var stem := CleanStem(Stem(base));
    if Ext(base) !in {"", "."} then |stem| <= MAX_STEM || IsAlnum(stem[MAX_STEM - 1]) else Settled(u, CutStem(stem))
  }

  /** A cleaned stem ends alphanumeric. */
  lemma CleanStemEnds(name: string)
    ensures CleanStem(name) != [] && IsAlnum(CleanStem(name)[|CleanStem(name)| - 1])
  {
    hide Collapse, Underscored, Trim;
    var c := Collapse(Underscored(name));
    var s := Trim(c, InCutset);
    if s != [] {
      CollapsedSafe(name);
      assert s[|s| - 1] in s;
      var i :| 0 <= i < |c| && c[i] == s[|s| - 1];
      assert IsSafe(s[|s| - 1]) && !InCutset(s[|s| - 1]);
    }
  }

  /** The cut stem ends alphanumeric exactly if nothing was cut off or the cut was behind an alphanumeric. */
  lemma CutStemEnds(name: string)
    ensures var stem := CleanStem(name);
      && CutStem(stem) != []
      && (IsAlnum(CutStem(stem)[|CutStem(stem)| - 1]) <==> |stem| <= MAX_STEM || IsAlnum(stem[MAX_STEM - 1]))
  {
    hide CleanStem;
    CleanStemEnds(name);
  }

  lemma AcceptedHasName(u: Unicode, filename: string)
    requires Accepted(u, Sanitized(u, filename))
    ensures !NoName(u, filename)
  {
    hide Accepted, NoName, BaseName;
    AcceptedHasExt(u, Sanitized(u, filename));
    if NoName(u, filename) {
      NoDotNoExt("resume");
    }
  }

  lemma {:induction false} NoDotNoExt(s: string)
    requires '.' !in s
    ensures Ext(s) == []
  {
    if s != [] {
      assert s[|s| - 1] in s;
      NoDotNoExt(s[..|s| - 1]);
    }
  }

  /** Sanitising an accepted name again changes nothing if and only if the name as given settles at once. */
  lemma TwiceIffSettled(u: Unicode, filename: string)
    requires u.Laws() && Accepted(u, Sanitized(u, filename))
    ensures Sanitized(u, Sanitized(u, filename)) == Sanitized(u, filename) <==> SettlesAtOnce(u, filename)
  {
    hide Accepted, CleanStem, CutStem, BaseName, NoName, Ext, Stem;
    AcceptedHasName(u, filename);
    SanitizedParts(u, filename);
    TwiceIffResultSettled(u, filename);
    var base := BaseName(u, filename);
    CutStemEnds(Stem(base));
    assert KeptExt(u, base) == [] ==> Sanitized(u, filename) == CutStem(CleanStem(Stem(base)));
  }

  /** In particular nothing changes if the given name had an extension of its own and its stem needed no cutting. */
  lemma TwiceWhenUncut(u: Unicode, filename: string)
    requires u.Laws() && Accepted(u, Sanitized(u, filename)) && !NoName(u, filename)
    requires var base := BaseName(u, filename);
      Ext(base) !in {"", "."} && |CleanStem(Stem(base))| <= MAX_STEM
    ensures Sanitized(u, Sanitized(u, filename)) == Sanitized(u, filename)
  {
    hide Sanitized, Accepted, CleanStem, Ext, Stem, NoName, BaseName;
    TwiceIffSettled(u, filename);
  }

  lemma DotBase(u: Unicode)
    requires u.Laws()
    ensures BaseName(u, "a.PDF.") == "a.PDF." && !NoName(u, "a.PDF.")
  {
    hide Trim, Base, AfterLast;
    var f := "a.PDF.";
    assert !u.isSpace(f[0]) && !u.isSpace(f[5]);
    assert Trim(f, u.isSpace) == f;
    assert '/' !in f && SlashForBackslash(f) == f;
  }

  lemma DotStem()
    ensures CleanStem("a.PDF") == "a.PDF" && CutStem("a.PDF") == "a.PDF"
  {
    hide Trim, Collapse;
    assert Underscored("a.PDF") == "a.PDF";
    CollapseFixed("a.PDF");
  }

  /** A dot at the end of a name takes the place of its extension. */
  lemma TrailingDot(u: Unicode)
    requires u.Laws()
    ensures Sanitized(u, "a.PDF.") == "a.PDF"
  {
    hide BaseName, NoName, CleanStem, CutStem, Ext;
    DotBase(u);
    assert "a.PDF." == "a.PDF" + ['.'];
    ExtStep("a.PDF", '.');
    assert Stem("a.PDF.") == "a.PDF";
    DotStem();
    assert Lower(u, ".") == ".";
  }

  lemma LowerPdf(u: Unicode)
    requires u.Laws()
    ensures Lower(u, ".PDF") == ".pdf"
  {
  }

  lemma PdfAllowed(u: Unicode)
    requires u.Laws()
    ensures IsAllowedExtension(u, ".pdf")
  {
    assert ".pdf"[1..] == "pdf";
    LowerFixed(u, "pdf");
  }

  lemma UpperExtension(u: Unicode)
    requires u.Laws()
    ensures Accepted(u, "a.PDF") && Lower(u, Ext("a.PDF")) != Ext("a.PDF")
  {
    hide Ext, Lower, IsAllowedExtension;
    assert "a.PDF" == "a" + ".PDF";
    ExtOf("a", ".PDF");
    LowerPdf(u);
    PdfAllowed(u);
    assert ".pdf"[1] != ".PDF"[1];
  }

  /** A name for which sanitising again does change something. */
  lemma TwiceCanDiffer(u: Unicode)
    requires u.Laws()
    ensures Accepted(u, Sanitized(u, "a.PDF.")) && Sanitized(u, Sanitized(u, "a.PDF.")) != Sanitized(u, "a.PDF.")
  {
    hide Sanitized, Accepted, Ext, Lower;
    TrailingDot(u);
    UpperExtension(u);
    TwiceIffResultSettled(u, "a.PDF.");
  }

  // ---------- The storage key ----------

  /** GenerateResumeKey sanitises the name it is given, once more. */
  function ResumeKey(u: Unicode, jobId: string, appId: string, filename: string): string {
    "resumes/" + Trim(jobId, u.isSpace) + "/" + Trim(appId, u.isSpace) + "/" + Sanitized(u, filename)
  }

  /** An id as NewID makes them: no separator, no space to trim. */
  predicate PlainId(u: Unicode, id: string) {
    '/' !in id && Trim(id, u.isSpace) == id
  }

  /** A string without a slash is what precedes the first slash. */
  lemma FirstSlash(a: string, x: string)
    requires '/' !in a
    ensures var l := a + "/" + x;
      l[|a|] == '/' && l[..|a|] == a && l[|a| + 1..] == x && forall i :: 0 <= i < |a| ==> l[i] != '/'
  {
    var l := a + "/" + x;
    assert forall i :: 0 <= i < |a| ==> l[i] == a[i] && a[i] in a;
  }

  lemma SlashSplit(a: string, x: string, b: string, y: string)
    requires '/' !in a && '/' !in b && a + "/" + x == b + "/" + y
    ensures a == b && x == y
  {
    FirstSlash(a, x);
    FirstSlash(b, y);
  }

  lemma SamePrefix(p: string, x: string, y: string)
    requires p + x == p + y
    ensures x == y
  {
    assert (p + x)[|p|..] == x && (p + y)[|p|..] == y;
  }

  /** The parts of a key, grouped so that the slashes can be found one after the other. */
  lemma KeyParts(u: Unicode, job: string, app: string, name: string)
    requires PlainId(u, job) && PlainId(u, app)
    ensures ResumeKey(u, job, app, name) == "resumes/" + (job + "/" + (app + "/" + Sanitized(u, name)))
  {
    hide Sanitized, Trim;
    var p, x := "resumes/", Sanitized(u, name);
    assert p + job + "/" + app + "/" + x == p + (job + "/" + (app + "/" + x));
  }

  /** Applications with different ids never share a key, whatever their jobs and file names. */
  lemma KeysDiffer(u: Unicode, job: string, app: string, name: string, job': string, app': string, name': string)
    requires PlainId(u, job) && PlainId(u, job') && PlainId(u, app) && PlainId(u, app') && app != app'
    ensures ResumeKey(u, job, app, name) != ResumeKey(u, job', app', name')
  {
    hide Sanitized, Trim, ResumeKey;
    KeyParts(u, job, app, name);
    KeyParts(u, job', app', name');
    if ResumeKey(u, job, app, name) == ResumeKey(u, job', app', name') {
      var rest, rest' := app + "/" + Sanitized(u, name), app' + "/" + Sanitized(u, name');
      SamePrefix("resumes/", job + "/" + rest, job' + "/" + rest');
      SlashSplit(job, rest, job', rest');
      SlashSplit(app, Sanitized(u, name), app', Sanitized(u, name'));
    }
  }
}

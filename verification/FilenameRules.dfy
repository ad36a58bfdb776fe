/**
 What sanitising makes of a file name, character by character: where its base name, extension and stem
 are found, and what becomes of them.
 */
module FilenameRules {
  import opened Text
  import opened Filename

  // ---------- The base name ----------

  lemma {:induction false} AfterLastExactly(s: string, c: char) returns (n: nat)
    ensures n <= |s| && AfterLast(s, c) == s[n..]
    ensures n == 0 || s[n - 1] == c
    ensures forall k :: n <= k < |s| ==> s[k] != c
  {
    if s == [] {
      n := 0;
    } else if s[|s| - 1] == c {
      n := |s|;
    } else {
      var front := s[..|s| - 1];
      n := AfterLastExactly(front, c);
      assert front[n..] + [s[|s| - 1]] == s[n..];
    }
  }

  /** In a path that does not end in a slash, the last element by either kind of separator. */
  lemma LastElement(p: string) returns (i: nat)
    requires p != []
    ensures i <= |p| && AfterLast(SlashForBackslash(AfterLast(p, '/')), '/') == p[i..]
    ensures forall k :: i <= k < |p| ==> p[k] != '/' && p[k] != '\\'
    ensures i > 0 ==> p[i - 1] == '/' || p[i - 1] == '\\'
  {
    hide AfterLast;
    var n := AfterLastExactly(p, '/');
    var name := p[n..];
    var swapped := SlashForBackslash(name);
    var m := AfterLastExactly(swapped, '/');
    i := n + m;
    forall k | m <= k < |name|
      ensures swapped[k] == name[k] == p[n + k] && name[k] != '\\'
    {
      assert swapped[k] != '/';
    }
    assert swapped[m..] == name[m..] == p[i..];
    if m > 0 {
      assert swapped[m - 1] == '/' && name[m - 1] == p[i - 1];
    }
  }

  /**
   The base name of a trimmed, non-empty name: slashes at its end are passed over, and then it is what
   follows the last slash or backslash.
   */
  lemma BaseNameExactly(u: Unicode, filename: string) returns (i: nat, j: nat)
    requires Trim(filename, u.isSpace) != []
    ensures var t := Trim(filename, u.isSpace);
      && i <= j <= |t| && BaseName(u, filename) == t[i..j]
      && (forall k :: j <= k < |t| ==> t[k] == '/') && (j > 0 ==> t[j - 1] != '/')
      && (forall k :: i <= k < j ==> t[k] != '/' && t[k] != '\\')
      && (i > 0 ==> t[i - 1] == '/' || t[i - 1] == '\\')
  {
    hide AfterLast, SlashForBackslash, TrimRight, Trim;
    var t := Trim(filename, u.isSpace);
    var p := TrimRight(t, IsSlash);
    TrimRightExactly(t, IsSlash);
    j := |p|;
    if p == [] {
      OnlySlash();
      i := 0;
    } else {
      i := LastElement(p);
      assert p[i..] == t[i..j];
      assert Base(t) == AfterLast(p, '/');
    }
  }

  lemma OnlySlash()
    ensures SlashForBackslash("/") == "/" && AfterLast("/", '/') == []
  {
  }

  /** The extension runs from the last dot; without a dot there is none. */
  lemma {:induction false} ExtExactly(s: string)
    requires forall k :: 0 <= k < |s| ==> s[k] != '/'
    ensures var n := |s| - |Ext(s)|;
      && 0 <= n && Ext(s) == s[n..] && Stem(s) == s[..n]
      && (Ext(s) == [] <==> forall k :: 0 <= k < |s| ==> s[k] != '.')
      && (Ext(s) != [] ==> s[n] == '.' && forall k :: n < k < |s| ==> s[k] != '.')
  {
    if s != [] && s[|s| - 1] != '.' {
      ExtExactly(s[..|s| - 1]);
    }
  }

  // ---------- The stem ----------

  predicate Keeps(c: char) {
    'a' <= c <= 'z' || 'A' <= c <= 'Z' || '0' <= c <= '9' || c == '.' || c == '_' || c == '-'
  }

  lemma UnderscoredExactly(s: string)
    ensures |Underscored(s)| == |s|
    ensures forall k :: 0 <= k < |s| ==> Underscored(s)[k] == if Keeps(s[k]) then s[k] else '_'
  {
  }

  /** Read from its end: a character is dropped exactly if it is an underscore behind another one. */
  lemma {:induction false} CollapseExactly(s: string)
    ensures |s| <= 1 ==> Collapse(s) == s
    ensures |s| >= 2 ==> var n := |s| - 1;
      Collapse(s) == Collapse(s[..n]) + if s[n] == '_' && s[n - 1] == '_' then [] else [s[n]]
  {
    if |s| > 2 {
      var n := |s| - 1;
      CollapseExactly(s[1..]);
      assert s[1..][..n - 1] == s[..n][1..];
      assert s[1..][n - 1] == s[n] && s[1..][n - 2] == s[n - 1];
      CollapseCons(s[0], s[..n][1..]);
      assert s[..n] == [s[0]] + s[..n][1..];
    } else if |s| == 2 {
      assert s[1..] == [s[1]] && s[..1] == [s[0]];
      assert s == [s[0], s[1]];
    }
  }

  predicate IsEdge(c: char) {
    c == '.' || c == '_' || c == '-' || c == ' '
  }

  /**
   A sanitised name: without a base name it is "resume". Else the stem's unsafe characters become
   underscores, runs of those are collapsed, dots, underscores, hyphens and spaces come off both ends,
   "resume" stands in if nothing is left, and what is longer than 100 bytes is cut; behind it comes
   the extension in lower case, unless it is a mere dot.
   */
  lemma SanitizedExactly(u: Unicode, filename: string) returns (i: nat, j: nat)
    requires u.Laws()
    ensures Trim(filename, u.isSpace) == [] || BaseName(u, filename) in {"", "."} ==> Sanitized(u, filename) == "resume"
    ensures !(Trim(filename, u.isSpace) == [] || BaseName(u, filename) in {"", "."}) ==>
      var base := BaseName(u, filename);
      var c, ext := Collapse(Underscored(Stem(base))), Ext(base);
      && i <= j <= |c|
      && (forall k :: 0 <= k < i || j <= k < |c| ==> IsEdge(c[k])) && (i < j ==> !IsEdge(c[i]) && !IsEdge(c[j - 1]))
      && var stem := if i == j then "resume" else if j - i > 100 then c[i..i + 100] else c[i..j];
         Sanitized(u, filename) == stem + if |ext| <= 1 then [] else Lower(u, ext)
  {
    hide Trim, Collapse, Underscored, BaseName, Ext, Lower, CutStem, CleanStem, KeptExt;
    i, j := StemExactly(Stem(BaseName(u, filename)));
    KeptExtExactly(u, BaseName(u, filename));
  }

  lemma StemExactly(name: string) returns (i: nat, j: nat)
    ensures var c := Collapse(Underscored(name));
      && i <= j <= |c|
      && (forall k :: 0 <= k < i || j <= k < |c| ==> IsEdge(c[k])) && (i < j ==> !IsEdge(c[i]) && !IsEdge(c[j - 1]))
      && CutStem(CleanStem(name)) == if i == j then "resume" else if j - i > 100 then c[i..i + 100] else c[i..j]
  {
    hide Trim, Collapse, Underscored;
    var c := Collapse(Underscored(name));
    i, j := TrimExactly(c, InCutset);
    assert forall x :: InCutset(x) == IsEdge(x);
    assert j - i > 100 ==> c[i..j][..100] == c[i..i + 100];
  }

  lemma KeptExtExactly(u: Unicode, base: string)
    requires u.Laws()
    ensures KeptExt(u, base) == if |Ext(base)| <= 1 then [] else Lower(u, Ext(base))
  {
    hide Ext;
    var ext := Ext(base);
    if |ext| == 1 {
      assert ext == ".";
      LowerFixed(u, ext);
    }
  }
}

/**
 Slugs, character by character: which are valid, and which one is made of a title.
 */
module SlugRules {
  import opened Text
  import opened Slug

  predicate Letter(c: char) {
    'a' <= c <= 'z' || '0' <= c <= '9'
  }

  // ---------- Valid slugs ----------

  /** Letters, digits and single hyphens between them. */
  predicate Hyphenated(s: string) {
    && s != "" && s[0] != '-' && s[|s| - 1] != '-'
    && (forall k :: 0 <= k < |s| ==> Letter(s[k]) || s[k] == '-')
    && (forall k :: 0 <= k < |s| - 1 && s[k] == '-' ==> s[k + 1] != '-')
  }

  lemma LettersAgree()
    ensures forall c :: IsWordChar(c) <==> Letter(c)
  {
  }

  lemma {:induction false} MatchesHyphenated(s: string)
    requires Matches(s)
    ensures Hyphenated(s)
    decreases |s|
  {
    LettersAgree();
    var n := RunLength(s);
    if n < |s| {
      var more := s[n + 1..];
      MatchesHyphenated(more);
      assert forall k :: n < k < |s| ==> s[k] == more[k - n - 1];
    }
  }

  lemma {:induction false} HyphenatedMatches(s: string)
    requires Hyphenated(s)
    ensures Matches(s)
    decreases |s|
  {
    LettersAgree();
    var n := RunLength(s);
    if n < |s| {
      var more := s[n + 1..];
      assert s[n] == '-' && n + 1 < |s| && s[n + 1] != '-';
      assert forall k :: 0 <= k < |more| ==> more[k] == s[n + 1 + k];
      assert forall k :: 0 <= k < |more| - 1 && more[k] == '-' ==> s[n + 1 + k + 1] != '-';
      HyphenatedMatches(more);
    }
  }

  /** A slug is valid if and only if it has 1 to 255 characters and is hyphenated. */
  lemma ValidExactly(s: string)
    ensures IsValidSlug(s) <==>
      && 1 <= |s| <= 255 && s[0] != '-' && s[|s| - 1] != '-'
      && (forall k :: 0 <= k < |s| ==> 'a' <= s[k] <= 'z' || '0' <= s[k] <= '9' || s[k] == '-')
      && (forall k :: 0 <= k < |s| - 1 && s[k] == '-' ==> s[k + 1] != '-')
  {
    hide Matches;
    if Matches(s) {
      MatchesHyphenated(s);
    }
    if Hyphenated(s) {
      HyphenatedMatches(s);
    }
  }

  // ---------- Generated slugs ----------

  /** What is written down while a text is read: its letters and digits, and one hyphen for what lies between. */
  function Written(s: string): string {
    if s == [] then []
    else
      var front, c := Written(s[..|s| - 1]), s[|s| - 1];
      if 'a' <= c <= 'z' || '0' <= c <= '9' then front + [c]
      else if front == [] || front[|front| - 1] == '-' then front
      else front + "-"
  }

  function WithoutLastHyphen(w: string): string {
    if w != [] && w[|w| - 1] == '-' then w[..|w| - 1] else w
  }

  lemma {:induction false} WrittenBuilt(s: string)
    ensures var w := Written(s);
      Built(s, w, w != [] && w[|w| - 1] == '-')
  {
    hide Built;
    if s == [] {
      BuiltNothing();
    } else {
      var front, c := s[..|s| - 1], s[|s| - 1];
      var w := Written(front);
      WrittenBuilt(front);
      BuildStep(front, w, w != [] && w[|w| - 1] == '-', c);
      assert front + [c] == s;
    }
  }

  /** It starts with no hyphen and has no two in a row. */
  lemma {:induction false} WrittenShape(s: string)
    ensures var w := Written(s);
      (w != [] ==> w[0] != '-') && forall k :: 0 <= k < |w| - 1 && w[k] == '-' ==> w[k + 1] != '-'
  {
    if s != [] {
      WrittenShape(s[..|s| - 1]);
    }
  }

  lemma JoinedIsWritten(lower: string)
    ensures Join(Runs(lower)) == WithoutLastHyphen(Written(lower))
  {
    hide Runs, Join, Trim, Built;
    var w := Written(lower);
    WrittenBuilt(lower);
    WrittenShape(lower);
    BuiltTrimmed(lower, w, w != [] && w[|w| - 1] == '-');
    var full := WithoutLastHyphen(w);
    if full == [] {
      RunsNone();
    } else {
      assert full[|full| - 1] == w[|full| - 1];
      TrimOneHyphen(full);
      assert w == full || w == full + "-";
    }
  }

  /**
   The slug of a lower-cased title is what is written down, without a hyphen at its end; "job" if that is
   nothing, and its first 255 characters, or 254 if the last of these is a hyphen, if it is longer.
   */
  lemma SlugExactly(lower: string)
    ensures var full := WithoutLastHyphen(Written(lower));
      SlugOf(lower) ==
        if full == "" then "job"
        else if |full| <= 255 then full
        else if full[254] == '-' then full[..254]
        else full[..255]
  {
    hide Runs, Join, TrimRight, Written;
    JoinedIsWritten(lower);
    WrittenShape(lower);
    var full := WithoutLastHyphen(Written(lower));
    if |full| > 255 {
      CutExactly(full);
    }
  }

  lemma CutExactly(full: string)
    requires |full| > 255 && (full[254] != '-' || full[253] != '-')
    ensures TrimRight(full[..255], IsHyphen) == if full[254] == '-' then full[..254] else full[..255]
  {
    hide TrimRight;
    var cut := full[..255];
    TrimRightExactly(cut, IsHyphen);
    var n := |TrimRight(cut, IsHyphen)|;
    assert n == if full[254] == '-' then 254 else 255 by {
      assert n < 255 ==> IsHyphen(cut[254]);
      assert n < 254 ==> IsHyphen(cut[253]);
      assert n == 255 ==> !IsHyphen(cut[254]);
    }
  }
}

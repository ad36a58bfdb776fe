/**
 Slugs: the grammar IsValidSlug checks, and GenerateSlug, which is to meet it for every title.
 */
module Slug {
  import opened Text

  const MAX_LENGTH := 255

  predicate IsWordChar(c: char) { IsLower(c) || IsDigit(c) }
  predicate IsHyphen(c: char) { c == '-' }

  predicate IsWord(w: string) {
    w != [] && forall i :: 0 <= i < |w| ==> IsWordChar(w[i])
  }

  predicate AllWords(ws: seq<string>) {
    forall k :: 0 <= k < |ws| ==> IsWord(ws[k])
  }

  function Join(ws: seq<string>): string {
    if ws == [] then [] else if |ws| == 1 then ws[0] else ws[0] + "-" + Join(ws[1..])
  }

  /** Length of the run of word characters at the start of `s`. */
  function RunLength(s: string): (n: nat)
    ensures n <= |s| && (forall i :: 0 <= i < n ==> IsWordChar(s[i])) && (n < |s| ==> !IsWordChar(s[n]))
  {
    if s != [] && IsWordChar(s[0]) then 1 + RunLength(s[1..]) else 0
  }

  /** The maximal runs of word characters in `s`, left to right. */
  function Runs(s: string): (ws: seq<string>)
    ensures AllWords(ws)
    decreases |s|
  {
    if s == [] then []
    else
      var n := RunLength(s);
      if n == 0 then Runs(s[1..]) else [s[..n]] + Runs(s[n..])
  }

  // ---------- The grammar ----------

  /** The anchored regular expression [a-z0-9]+(?:-[a-z0-9]+)*. */
  predicate Matches(s: string)
    decreases |s|
  {
    var n := RunLength(s);
    n > 0 && (n == |s| || (s[n] == '-' && Matches(s[n + 1..])))
  }

  predicate IsValidSlug(s: string) {
    0 < |s| <= MAX_LENGTH && Matches(s)
  }

  lemma RunThen(w: string, rest: string)
    requires (forall i :: 0 <= i < |w| ==> IsWordChar(w[i])) && (rest != [] ==> !IsWordChar(rest[0]))
    ensures RunLength(w + rest) == |w| && (w + rest)[..|w|] == w && (w + rest)[|w|..] == rest
  {
    assert forall i :: 0 <= i < |w| ==> (w + rest)[i] == w[i];
    assert rest != [] ==> (w + rest)[|w|] == rest[0];
  }

  lemma RunAll(w: string)
    requires forall i :: 0 <= i < |w| ==> IsWordChar(w[i])
    ensures RunLength(w) == |w|
  {
  }

  /** A word and what follows it, after at least one other character, are read apart. */
  lemma RunsCons(w: string, rest: string)
    requires IsWord(w) && (rest != [] ==> !IsWordChar(rest[0]))
    ensures Runs(w + rest) == [w] + Runs(rest)
  {
    RunThen(w, rest);
  }

  lemma RunsSkip(s: string)
    requires s != [] && !IsWordChar(s[0])
    ensures Runs(s) == Runs(s[1..])
  {
  }

  lemma RunsWord(w: string)
    requires IsWord(w)
    ensures Runs(w) == [w]
  {
    RunsCons(w, []);
    assert w + [] == w;
  }

  lemma {:induction false} JoinMatches(ws: seq<string>)
    requires ws != [] && AllWords(ws)
    ensures Matches(Join(ws)) && Runs(Join(ws)) == ws
    decreases |ws|
  {
    hide Runs;
    var w := ws[0];
    assert IsWord(w);
    if |ws| == 1 {
      RunAll(w);
      RunsWord(w);
    } else {
      var more := Join(ws[1..]);
      JoinMatches(ws[1..]);
      RunThen(w, "-" + more);
      assert Join(ws) == w + ("-" + more);
      assert (w + ("-" + more))[|w| + 1..] == more;
      RunsCons(w, "-" + more);
      RunsSkip("-" + more);
      assert ("-" + more)[1..] == more;
    }
  }

  lemma JoinCons(w: string, ws: seq<string>)
    requires ws != []
    ensures Join([w] + ws) == w + "-" + Join(ws)
  {
    assert ([w] + ws)[1..] == ws;
  }

  lemma MatchesParts(s: string)
    requires Matches(s)
    ensures var n := RunLength(s);
      IsWord(s[..n]) && (n < |s| ==> s[n] == '-' && Matches(s[n + 1..]))
  {
  }

  lemma {:induction false} MatchesJoin(s: string)
    requires Matches(s)
    ensures Runs(s) != [] && Join(Runs(s)) == s
    decreases |s|
  {
    hide Runs, Join, Matches, RunLength;
    MatchesParts(s);
    var n := RunLength(s);
    var w := s[..n];
    if n == |s| {
      assert w == s;
      RunsWord(s);
      JoinSnoc([], s);
      assert [] + [s] == [s];
    } else {
      var more := s[n + 1..];
      MatchesJoin(more);
      assert s == w + ("-" + more) && ("-" + more)[1..] == more;
      RunsCons(w, "-" + more);
      RunsSkip("-" + more);
      JoinCons(w, Runs(more));
      assert w + "-" + more == s;
    }
  }

  /** The expression matches exactly the words joined by single hyphens. */
  lemma MatchesIffJoined(s: string)
    ensures Matches(s) <==> exists ws :: ws != [] && AllWords(ws) && Join(ws) == s
  {
    if Matches(s) {
      MatchesJoin(s);
    }
    if ws :| ws != [] && AllWords(ws) && Join(ws) == s {
      JoinMatches(ws);
    }
  }

  lemma MatchesWord(w: string)
    requires IsWord(w)
    ensures Matches(w)
  {
    RunAll(w);
  }

  lemma MatchesCons(w: string, rest: string)
    requires IsWord(w) && Matches(rest)
    ensures Matches(w + ("-" + rest))
  {
    RunThen(w, "-" + rest);
    assert (w + ("-" + rest))[|w| + 1..] == rest;
  }

  /** A prefix of a slug that does not end in a hyphen is a slug. */
  lemma {:induction false} PrefixMatches(s: string, k: nat)
    requires Matches(s) && 0 < k <= |s| && s[k - 1] != '-'
    ensures Matches(s[..k])
    decreases |s|
  {
    hide RunLength;
    var n := RunLength(s);
    if k <= n {
      MatchesWord(s[..k]);
    } else {
      assert k != n + 1;
      var more := s[n + 1..];
      PrefixMatches(more, k - n - 1);
      MatchesCons(s[..n], more[..k - n - 1]);
      assert s[..k] == s[..n] + ("-" + more[..k - n - 1]);
    }
  }

  // ---------- The generator ----------

  /** GenerateSlug after the title is trimmed and lower-cased. */
  function SlugOf(lower: string): string {
    var s := Join(Runs(lower));
    if s == [] then "job" else if |s| > MAX_LENGTH then TrimRight(s[..MAX_LENGTH], IsHyphen) else s
  }

  predicate EndsInWord(s: string) {
    s != [] && IsWordChar(s[|s| - 1])
  }

  /** One more character: it extends the last run, starts a new one, or belongs to none. */
  function Snoc(ws: seq<string>, grows: bool, c: char): seq<string>
    requires grows ==> ws != []
  {
    if !IsWordChar(c) then ws
    else if grows then ws[..|ws| - 1] + [ws[|ws| - 1] + [c]]
    else ws + [[c]]
  }

  lemma {:induction false} RunsSnoc(s: string, c: char)
    ensures EndsInWord(s) ==> Runs(s) != []
    ensures Runs(s + [c]) == Snoc(Runs(s), EndsInWord(s), c)
    decreases |s|
  {
    hide Runs, Snoc, RunLength, EndsInWord;
    var n := RunLength(s);
    if n == |s| {
      AllWordSnoc(s, c);
    } else {
      var w, rest := s[..n], s[n..];
      assert s == w + rest && (s + [c])[1..] == s[1..] + [c] && s + [c] == w + (rest + [c]);
      EndsLater(w, rest);
      if n == 0 {
        EndsLater([s[0]], s[1..]);
        assert s == [s[0]] + s[1..];
        RunsSkip(s);
        RunsSkip(s + [c]);
        RunsSnoc(s[1..], c);
        SnocNothing(c);
      } else {
        RunsCons(w, rest);
        RunsCons(w, rest + [c]);
        RunsSnoc(rest, c);
        SnocCons(w, Runs(rest), EndsInWord(rest), c);
      }
    }
  }

  lemma AllWordSnoc(s: string, c: char)
    requires RunLength(s) == |s|
    ensures EndsInWord(s) ==> Runs(s) != []
    ensures Runs(s + [c]) == Snoc(Runs(s), EndsInWord(s), c)
  {
    hide Runs, RunLength;
    RunsOne(c);
    if s == [] {
      assert s + [c] == [c];
    } else {
      RunsWord(s);
      if IsWordChar(c) {
        RunsWord(s + [c]);
      } else {
        RunsCons(s, [c]);
      }
    }
  }

  lemma EndsLater(w: string, rest: string)
    ensures rest != [] ==> EndsInWord(w + rest) == EndsInWord(rest)
    ensures rest == [] && w != [] && !IsWordChar(w[|w| - 1]) ==> !EndsInWord(w + rest)
  {
  }

  lemma SnocNothing(c: char)
    ensures !EndsInWord([])
  {
  }

  lemma SnocCons(w: string, ws: seq<string>, grows: bool, c: char)
    requires grows ==> ws != []
    ensures Snoc([w] + ws, grows, c) == [w] + Snoc(ws, grows, c)
  {
  }

  lemma RunsOne(c: char)
    ensures Runs([]) == []
    ensures Runs([c]) == if IsWordChar(c) then [[c]] else []
  {
    if IsWordChar(c) {
      RunsWord([c]);
    }
  }

  lemma {:induction false} JoinSnoc(ws: seq<string>, w: string)
    ensures Join(ws + [w]) == if ws == [] then w else Join(ws) + "-" + w
  {
    if |ws| > 1 {
      assert (ws + [w])[1..] == ws[1..] + [w];
      JoinSnoc(ws[1..], w);
    } else if |ws| == 1 {
      assert (ws + [w])[1..] == [w];
    }
  }

  lemma JoinGrow(ws: seq<string>, c: char)
    requires ws != []
    ensures Join(ws[..|ws| - 1] + [ws[|ws| - 1] + [c]]) == Join(ws) + [c]
  {
    hide Join;
    var front, last := ws[..|ws| - 1], ws[|ws| - 1];
    assert ws == front + [last];
    JoinSnoc(front, last);
    JoinSnoc(front, last + [c]);
  }

  /** The builder after the runes `seen`: the runs so far, and a hyphen once one has ended. */
  predicate Built(seen: string, b: string, lastHyphen: bool) {
    && lastHyphen == (Runs(seen) != [] && !EndsInWord(seen))
    && b == Join(Runs(seen)) + if lastHyphen then "-" else ""
  }

  lemma JoinEmpty(ws: seq<string>)
    requires AllWords(ws)
    ensures Join(ws) == [] <==> ws == []
  {
    if ws != [] {
      assert IsWord(ws[0]);
    }
  }

  lemma BuildStep(seen: string, b: string, lastHyphen: bool, c: char)
    requires Built(seen, b, lastHyphen)
    ensures if IsWordChar(c) then Built(seen + [c], b + [c], false)
            else if !lastHyphen && b != [] then Built(seen + [c], b + "-", true)
            else Built(seen + [c], b, lastHyphen)
  {
    hide Runs, Join;
    var ws := Runs(seen);
    RunsSnoc(seen, c);
    JoinEmpty(ws);
    RunsOne(c);
    if IsWordChar(c) {
      if EndsInWord(seen) {
        JoinGrow(ws, c);
      } else {
        JoinSnoc(ws, [c]);
      }
    }
  }

  method GenerateSlug(u: Unicode, title: string) returns (res: string)
    ensures res == SlugOf(Lower(u, Trim(title, u.isSpace)))
  {
    hide Built, Runs, Join, Trim, TrimRight;
    var lower := Lower(u, Trim(title, u.isSpace));
    var b, lastHyphen := "", false;
    BuiltNothing();
    for i := 0 to |lower|
      invariant Built(lower[..i], b, lastHyphen)
    {
      var r := lower[i];
      BuildStep(lower[..i], b, lastHyphen, r);
      assert lower[..i + 1] == lower[..i] + [r];
      if 'a' <= r <= 'z' || '0' <= r <= '9' {
        b := b + [r];
        lastHyphen := false;
      } else if !lastHyphen && |b| > 0 {
        b := b + "-";
        lastHyphen := true;
      }
    }
    assert lower[..|lower|] == lower;
    BuiltTrimmed(lower, b, lastHyphen);
    res := Trim(b, IsHyphen);
    if res == "" {
      return "job";
    }
    if |res| > 255 {
      res := res[..255];
      res := TrimRight(res, IsHyphen);
    }
  }

  lemma BuiltNothing()
    ensures Built([], [], false)
  {
  }

  lemma BuiltTrimmed(seen: string, b: string, lastHyphen: bool)
    requires Built(seen, b, lastHyphen)
    ensures Trim(b, IsHyphen) == Join(Runs(seen))
  {
    hide Runs, Matches, Trim;
    RunsNone();
    var ws, s := Runs(seen), Join(Runs(seen));
    if ws != [] {
      JoinMatches(ws);
      MatchesEnds(s);
      TrimOneHyphen(s);
    }
  }

  lemma RunsNone()
    ensures Runs([]) == [] && Join([]) == [] && Trim([], IsHyphen) == []
  {
  }

  lemma {:induction false} MatchesEnds(s: string)
    requires Matches(s)
    ensures s != [] && IsWordChar(s[0]) && IsWordChar(s[|s| - 1])
    decreases |s|
  {
    var n := RunLength(s);
    if n < |s| {
      MatchesEnds(s[n + 1..]);
    }
  }

  lemma TrimOneHyphen(s: string)
    requires s != [] && s[0] != '-' && s[|s| - 1] != '-'
    ensures Trim(s, IsHyphen) == s && Trim(s + "-", IsHyphen) == s
  {
    assert (s + "-")[..|s|] == s;
    assert TrimRight(s + "-", IsHyphen) == TrimRight(s, IsHyphen);
  }

  // ---------- What the generator guarantees ----------

  lemma JoinJob()
    ensures Join(["job"]) == "job"
  {
  }

  /** Every generated slug is valid, on the truncation path too. */
  lemma GeneratedIsValid(lower: string)
    ensures IsValidSlug(SlugOf(lower))
  {
    hide Runs, Join, Matches;
    var ws := Runs(lower);
    JoinEmpty(ws);
    if ws == [] {
      JoinJob();
      assert "job" == Join(["job"]) && IsWord("job");
      JoinMatches(["job"]);
    } else {
      var s := Join(ws);
      JoinMatches(ws);
      MatchesEnds(s);
      if |s| > MAX_LENGTH {
        var t := TrimRight(s[..MAX_LENGTH], IsHyphen);
        assert t == s[..|t|] && t != [];
        PrefixMatches(s, |t|);
      }
    }
  }

  lemma {:induction false} MatchesAlphabet(s: string)
    requires Matches(s)
    ensures forall i :: 0 <= i < |s| ==> IsWordChar(s[i]) || s[i] == '-'
    decreases |s|
  {
    var n := RunLength(s);
    if n < |s| {
      MatchesAlphabet(s[n + 1..]);
      forall i | 0 <= i < |s|
        ensures IsWordChar(s[i]) || s[i] == '-'
      {
        if i > n {
          assert s[i] == s[n + 1..][i - n - 1];
        }
      }
    }
  }

  /** A title's slug: what the method computes, as a function. */
  function Generated(u: Unicode, title: string): string {
    SlugOf(Lower(u, Trim(title, u.isSpace)))
  }

  /** The valid slugs are exactly the titles that are their own slug, so generating is idempotent. */
  lemma ValidIffFixed(u: Unicode, s: string)
    requires u.Laws()
    ensures IsValidSlug(s) <==> Generated(u, s) == s
    ensures Generated(u, Generated(u, s)) == Generated(u, s)
  {
    GeneratedIsValid(Lower(u, Trim(s, u.isSpace)));
    ValidIsFixed(u, Generated(u, s));
    if IsValidSlug(s) {
      ValidIsFixed(u, s);
    }
  }

  lemma ValidIsFixed(u: Unicode, s: string)
    requires u.Laws() && IsValidSlug(s)
    ensures Generated(u, s) == s
  {
    hide Runs, Join, Matches, Trim, TrimRight, Lower;
    ValidIsNormal(u, s);
    MatchesJoin(s);
  }

  /** A slug has nothing to trim and nothing to lower-case. */
  lemma ValidIsNormal(u: Unicode, s: string)
    requires u.Laws() && Matches(s)
    ensures Lower(u, Trim(s, u.isSpace)) == s
  {
    hide Matches, Trim, Lower;
    MatchesAlphabet(s);
    MatchesEnds(s);
    assert Trim(s, u.isSpace) == s;
    LowerFixed(u, s);
  }

  /** Unless it is cut short, a slug keeps every alphanumeric run of the title, in order, and nothing else. */
  lemma KeepsRuns(lower: string)
    requires Runs(lower) != [] && |Join(Runs(lower))| <= MAX_LENGTH
    ensures Runs(SlugOf(lower)) == Runs(lower)
  {
    JoinMatches(Runs(lower));
  }
}

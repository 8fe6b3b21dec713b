/** The two readings of a pattern: what IAM lets it match, and what Python's `fnmatch` lets it match.
    The policy normaliser applies the second to decide a question about the first. */
module Globs {
  /** IAM: `*` stands for any text, `?` for one character, everything else for itself. */
  predicate IamMatch(s: string, p: string)
    decreases |s| + |p|
  {
    if p == "" then s == ""
    else if p[0] == '*' then IamMatch(s, p[1..]) || (s != "" && IamMatch(s[1..], p))
    else s != "" && (p[0] == '?' || p[0] == s[0]) && IamMatch(s[1..], p[1..])
  }

  /** Where the `]` closing a bracket class is, searching from `j`; `|p|` when there is none. */
  function ClosingBracket(p: string, j: nat): (k: nat)
    requires j <= |p|
    ensures j <= k <= |p|
    ensures k < |p| ==> p[k] == ']'
    decreases |p| - j
  {
    if j == |p| || p[j] == ']' then j else ClosingBracket(p, j + 1)
  }

  /** The end of the class that opens `p`: a leading `!` and a `]` right after it belong to the class. */
  function ClassEnd(p: string): (k: nat)
    requires p != ""
    ensures 1 <= k <= |p|
  {
    var j := if 1 < |p| && p[1] == '!' then 2 else 1;
    ClosingBracket(p, if j < |p| && p[j] == ']' then j + 1 else j)
  }

  predicate InClass(c: char, body: string) {
    if body != "" && body[0] == '!' then !InRanges(c, body[1..]) else InRanges(c, body)
  }

  predicate InRanges(c: char, body: string) {
    if body == "" then false
    else if |body| >= 3 && body[1] == '-' then body[0] <= c <= body[2] || InRanges(c, body[3..])
    else body[0] == c || InRanges(c, body[1..])
  }

  /** `fnmatch.fnmatch(name, pat)` on a case-sensitive platform. */
  predicate Fnmatch(name: string, pat: string)
    decreases |name| + |pat|
  {
    if pat == "" then name == ""
    else if pat[0] == '*' then Fnmatch(name, pat[1..]) || (name != "" && Fnmatch(name[1..], pat))
    else if name == "" then false
    else if pat[0] == '?' then Fnmatch(name[1..], pat[1..])
    else if pat[0] == '[' && ClassEnd(pat) < |pat| then
      InClass(name[0], pat[1..ClassEnd(pat)]) && Fnmatch(name[1..], pat[ClassEnd(pat) + 1..])
    else pat[0] == name[0] && Fnmatch(name[1..], pat[1..])
  }

  lemma {:induction false} FnmatchIsIamMatch(s: string, p: string)
    requires '[' !in p
    ensures Fnmatch(s, p) == IamMatch(s, p)
    decreases |s| + |p|
  {
    if p == "" {
    } else {
      FnmatchIsIamMatch(s, p[1..]);
      if s != "" {
        FnmatchIsIamMatch(s[1..], p);
        FnmatchIsIamMatch(s[1..], p[1..]);
      }
    }
  }

  lemma {:induction false} MatchesItself(p: string)
    ensures IamMatch(p, p)
  {
    if p == "" {
    } else {
      MatchesItself(p[1..]);
      if p[0] == '*' { assert IamMatch(p[1..], p); }
    }
  }

  /** No `*` of the text `p` can be consumed by a `?` of the pattern `q`. */
  predicate Unmixed(p: string, q: string) {
    '*' !in p || '?' !in q
  }

  /** A pattern that matches another one as plain text matches everything the other matches. */
  lemma {:induction false} TextMatchIsContainment(s: string, p: string, q: string)
    requires Unmixed(p, q)
    requires IamMatch(p, q) && IamMatch(s, p)
    ensures IamMatch(s, q)
    decreases |s| + |p| + |q|
  {
    if q == "" {
    } else if q[0] == '*' && IamMatch(p, q[1..]) {
      TextMatchIsContainment(s, p, q[1..]);
    } else if q[0] == '*' {
      if p[0] != '*' {
        TextMatchIsContainment(s[1..], p[1..], q);
      } else if IamMatch(s, p[1..]) {
        TextMatchIsContainment(s, p[1..], q);
      } else {
        TextMatchIsContainment(s[1..], p, q);
      }
    } else {
      assert p[0] != '*';
      TextMatchIsContainment(s[1..], p[1..], q[1..]);
    }
  }

  /** The text test finds every containment of languages; and it decides it, unless a `?` may consume a `*`. */
  lemma TextMatchIffContained(p: string, q: string)
    requires '[' !in q
    ensures (forall s :: IamMatch(s, p) ==> IamMatch(s, q)) ==> Fnmatch(p, q)
    ensures Unmixed(p, q) ==> (Fnmatch(p, q) <==> forall s :: IamMatch(s, p) ==> IamMatch(s, q))
  {
    FnmatchIsIamMatch(p, q);
    MatchesItself(p);
    if Unmixed(p, q) && Fnmatch(p, q) {
      forall s | IamMatch(s, p) ensures IamMatch(s, q) { TextMatchIsContainment(s, p, q); }
    }
  }

  /** Where a `?` may consume a `*`, the test can be wrong (any text against texts of one character) and can be right
      (texts of at least one character, written in two ways). */
  lemma MixedPatternsGoEitherWay()
    ensures Fnmatch("*", "?") && IamMatch("", "*") && !IamMatch("", "?")
    ensures !Unmixed("*?", "?*") && Fnmatch("*?", "?*") && forall s :: IamMatch(s, "*?") ==> IamMatch(s, "?*")
  {
    assert "*"[1..] == "" && "*?"[1..] == "?" && "?*"[1..] == "*" && "?"[1..] == "";
    assert Fnmatch("?", "*") by { assert Fnmatch("", "*"); }
    forall s | IamMatch(s, "*?") ensures IamMatch(s, "?*") {
      NotEmpty(s);
      EveryTextMatchesStar(s[1..]);
    }
  }

  lemma {:induction false} NotEmpty(s: string)
    requires IamMatch(s, "*?")
    ensures s != ""
  {
    assert "*?"[1..] == "?";
  }

  lemma {:induction false} EveryTextMatchesStar(s: string)
    ensures IamMatch(s, "*")
  {
    assert "*"[1..] == "";
    if s == "" {
    } else {
      EveryTextMatchesStar(s[1..]);
    }
  }

  lemma TextMatchIsTransitive(p: string, q: string, r: string)
    requires Unmixed(q, r)
    requires IamMatch(p, q) && IamMatch(q, r)
    ensures IamMatch(p, r)
  {
    TextMatchIsContainment(p, q, r);
  }

  predicate NoAdjacentStars(p: string) {
    forall i :: 0 <= i < |p| - 1 ==> !(p[i] == '*' && p[i + 1] == '*')
  }

  /** How many characters of a text are not `*`. */
  function Letters(p: string): nat {
    if p == "" then 0 else (if p[0] == '*' then 0 else 1) + Letters(p[1..])
  }

  lemma {:induction false} PatternLettersAreMatched(p: string, q: string)
    requires Unmixed(p, q) && IamMatch(p, q)
    ensures Letters(q) <= Letters(p)
    decreases |p| + |q|
  {
    if q == "" {
    } else if q[0] == '*' && IamMatch(p, q[1..]) {
      PatternLettersAreMatched(p, q[1..]);
    } else if q[0] == '*' {
      PatternLettersAreMatched(p[1..], q);
    } else {
      PatternLettersAreMatched(p[1..], q[1..]);
    }
  }

  /** When no letter of `p` is left over for a `*` of `q`, `p` is `q` with stars dropped. */
  lemma {:induction false} TightMatch(p: string, q: string)
    requires Unmixed(p, q) && IamMatch(p, q)
    requires Letters(p) == Letters(q) && NoAdjacentStars(p)
    ensures |p| <= |q|
    ensures |p| == |q| ==> forall i :: 0 <= i < |p| ==> p[i] == q[i] || (q[i] == '?' && p[i] != '*')
    decreases |p| + |q|
  {
    if q == "" {
    } else if q[0] == '*' && IamMatch(p, q[1..]) {
      TightMatch(p, q[1..]);
    } else if q[0] == '*' {
      PatternLettersAreMatched(p[1..], q);
      assert p[0] == '*';
      var tail := p[1..];
      if tail != "" && IamMatch(tail[1..], q) { PatternLettersAreMatched(tail[1..], q); }
      assert IamMatch(tail, q[1..]);
      TightTails(p, q);
    } else {
      TightTails(p, q);
    }
  }

  lemma {:induction false} TightTails(p: string, q: string)
    requires p != "" && q != "" && (p[0] == q[0] || (q[0] == '?' && p[0] != '*'))
    requires Unmixed(p, q) && IamMatch(p[1..], q[1..])
    requires Letters(p) == Letters(q) && NoAdjacentStars(p)
    ensures |p| <= |q|
    ensures |p| == |q| ==> forall i :: 0 <= i < |p| ==> p[i] == q[i] || (q[i] == '?' && p[i] != '*')
    decreases |p| + |q|, 0
  {
    TightMatch(p[1..], q[1..]);
    if |p| == |q| {
      forall i | 0 < i < |p| ensures p[i] == q[i] || (q[i] == '?' && p[i] != '*') {
        assert p[i] == p[1..][i - 1] && q[i] == q[1..][i - 1];
      }
    }
  }

  /** Without adjacent stars, two patterns that match each other as text are the same pattern. */
  lemma TextMatchIsAntisymmetric(p: string, q: string)
    requires Unmixed(p, q) && Unmixed(q, p)
    requires NoAdjacentStars(p) && NoAdjacentStars(q)
    requires IamMatch(p, q) && IamMatch(q, p)
    ensures p == q
  {
    PatternLettersAreMatched(p, q);
    PatternLettersAreMatched(q, p);
    TightMatch(p, q);
    TightMatch(q, p);
  }

  // ---- Bracket classes, which only the library knows ----

  lemma {:induction false} NoBracketInside(p: string, j: nat, k: nat)
    requires j <= k < |p| && p[k] == ']' && forall i :: j <= i < k ==> p[i] != ']'
    ensures ClosingBracket(p, j) == k
    decreases k - j
  {
    if j < k { NoBracketInside(p, j + 1, k); }
  }

  lemma {:induction false} PlainClass(c: char, body: string)
    requires '-' !in body
    ensures InRanges(c, body) <==> c in body
  {
    if body == "" {
    } else {
      assert |body| >= 3 ==> body[1] in body;
      PlainClass(c, body[1..]);
    }
  }

  /** A class without brackets inside, unless it begins with one, ends where it should, with or without `!`. */
  lemma ClassEndsAt(opening: string, body: string)
    requires opening in {"[", "[!"} && body != "" && (opening == "[" ==> body[0] != '!')
    requires forall i :: 1 <= i < |body| ==> body[i] != ']'
    ensures ClassEnd(opening + body + "]") == |opening + body|
  {
    var p := opening + body + "]";
    assert p[|opening|..|opening| + |body|] == body;
    forall i | |opening| < i < |opening| + |body| ensures p[i] != ']' { assert p[i] == body[i - |opening|]; }
    NoBracketInside(p, if body[0] == ']' then |opening| + 1 else |opening|, |opening| + |body|);
  }

  /** To the library a class of characters stands for any one of them, which a closing bracket can be if it comes
      first. */
  lemma ClassMatches(c: char, body: string)
    requires body != "" && body[0] != '!' && ']' !in body[1..] && '-' !in body
    ensures Fnmatch([c], "[" + body + "]") <==> c in body
  {
    assert forall i :: 1 <= i < |body| ==> body[i] == body[1..][i - 1];
    ClassEndsAt("[", body);
    OneClass(c, "[" + body + "]", body);
    PlainClass(c, body);
    hide Fnmatch;
  }

  /** With `!`, for any other. */
  lemma NegatedClassMatches(c: char, body: string)
    requires body != "" && ']' !in body[1..] && '-' !in body
    ensures Fnmatch([c], "[!" + body + "]") <==> c !in body
  {
    assert forall i :: 1 <= i < |body| ==> body[i] == body[1..][i - 1];
    ClassEndsAt("[!", body);
    assert "[!" + body + "]" == "[" + ("!" + body) + "]" && ("!" + body)[1..] == body;
    OneClass(c, "[!" + body + "]", "!" + body);
    PlainClass(c, body);
    hide Fnmatch;
  }

  /** A range, for what lies in it. */
  lemma RangeMatches(c: char, lo: char, hi: char)
    requires lo != '!' && hi != ']'
    ensures Fnmatch([c], "[" + [lo, '-', hi] + "]") <==> lo <= c <= hi
  {
    var body := [lo, '-', hi];
    ClassEndsAt("[", body);
    OneClass(c, "[" + body + "]", body);
    hide Fnmatch;
    assert body[3..] == "" && !InRanges(c, "");
    assert InRanges(c, body) <==> lo <= c <= hi || InRanges(c, body[3..]);
  }

  lemma OneClass(c: char, p: string, inside: string)
    requires inside != "" && p == "[" + inside + "]" && ClassEnd(p) == |p| - 1
    ensures Fnmatch([c], p) <==> InClass(c, inside)
  {
    assert p[1..|p| - 1] == inside && p[|p|..] == "" && [c][1..] == "";
  }

  /** To IAM brackets stand for themselves, so a class supersedes what it does not cover. */
  lemma ClassesMislead()
    ensures Fnmatch("a", "[a]") && IamMatch("a", "a") && !IamMatch("a", "[a]")
  {
    assert "[" + "a" + "]" == "[a]";
    ClassMatches('a', "a");
    assert "a"[1..] == "";
  }
}

/** The search of string.find and string.match: the leftmost start from which the pattern matches. */
module PatternFind {
  import opened Pattern
  import opened PatternMatch
  import opened PatternFacts
  import opened PatternMeaning

  datatype Search = NotFound | At(start: nat, end: nat, caps: seq<Capture>) | Failed(problem: Problem)

  function Body(pat: Text): Text { if pat != [] && pat[0] == '^' as int then pat[1..] else pat }

  predicate Anchored(pat: Text) { pat != [] && pat[0] == '^' as int }

  /** The loop of str_find_aux that is not a plain search. */
  method Find(src: Text, pat: Text, init: nat) returns (r: Search)
    requires init <= |src|
    ensures r.NotFound? ==> forall x: nat :: init <= x <= |src| && (Anchored(pat) ==> x == init) ==> Stuck(src, x, Body(pat), 0, [])
    ensures r.At? ==> init <= r.start <= |src| && (Anchored(pat) ==> r.start == init)
    ensures r.At? ==> FirstIs(src, r.start, Body(pat), Matched(r.end, r.caps))
    ensures r.At? ==> forall x: nat :: init <= x < r.start ==> Stuck(src, x, Body(pat), 0, [])
    ensures var caret := pat != [] && pat[0] == 94;
      var body := if caret then pat[1..] else pat;
      && (r.At? ==> Means(src, r.start, body, 0, [], r.end, r.caps) && (caret ==> r.start == init))
      && (r.At? ==> forall x: nat :: init <= x < r.start ==> Nowhere(src, x, body))
      && (r.NotFound? ==> forall x: nat :: init <= x <= |src| && (caret ==> x == init) ==> Nowhere(src, x, body))
    ensures r.Failed? ==> exists x: nat :: init <= x <= |src| && FailsAt(src, init, x, Body(pat), r.problem)
  {
    hide Parses, Reports, Stuck, FirstIs, Means, Nowhere;
    var anchor := Anchored(pat);
    var ms := new MatchState(src, Body(pat));
    var s1 := init;
    while true
      invariant init <= s1 <= |src| && ms.Valid() && ms.src == src && ms.pat == Body(pat)
      invariant forall x: nat :: init <= x < s1 ==> Stuck(src, x, Body(pat), 0, [])
      invariant anchor ==> s1 == init
      decreases |src| - s1
    {
      ms.level := 0;
      assert ms.Caps() == [];
      var res := ms.Match(s1, 0);
      WhatReported(src, s1, Body(pat), res, ms.Caps());
      if res.Found? {
        FoundMatches(src, Body(pat), s1, res.e, ms.Caps());
        NoneMean(src, Body(pat), init, s1);
        return At(s1, res.e, ms.Caps());
      }
      if res.Error? {
        assert FailsAt(src, init, s1, Body(pat), res.problem);
        return Failed(res.problem);
      }
      if s1 == |src| || anchor {
        NoneMean(src, Body(pat), init, s1 + 1);
        return NotFound;
      }
      s1 := s1 + 1;
    }
  }

  ghost predicate FirstIs(src: Text, x: nat, pat: Text, o: Outcome)
    requires x <= |src|
  {
    Parses(src, x, pat, 0, []) != [] && Parses(src, x, pat, 0, [])[0] == o
  }

  /** The first start from which there is any outcome raises an error. */
  ghost predicate FailsAt(src: Text, init: nat, x: nat, pat: Text, problem: Problem)
    requires x <= |src|
  {
    FirstIs(src, x, pat, Raised(problem)) && forall y: nat :: init <= y < x ==> Stuck(src, y, pat, 0, [])
  }

  lemma WhatReported(src: Text, s: nat, pat: Text, r: Result, after: seq<Capture>)
    requires s <= |src| && Reports(r, Parses(src, s, pat, 0, []), [], after)
    ensures r == NoMatch ==> Stuck(src, s, pat, 0, [])
    ensures r.Found? ==> FirstIs(src, s, pat, Matched(r.e, after))
    ensures r.Error? ==> FirstIs(src, s, pat, Raised(r.problem))
  {
  }

  /** A find result is a match, its captures lie within it, and nothing matches further left. */
  lemma FoundMatches(src: Text, pat: Text, x: nat, e: nat, c: seq<Capture>)
    requires x <= |src| && FirstIs(src, x, pat, Matched(e, c))
    ensures Means(src, x, pat, 0, [], e, c) && x <= e <= |src| && Sound(c, e)
  {
    hide Derives, Means;
    DerivesMeans(src, x, pat, 0, [], e, c);
    ParsesAll(src, x, pat, 0, [], e, c);
    DerivesGrown(src, x, pat, 0, [], e, c);
  }

  lemma StuckNoMatch(src: Text, pat: Text, x: nat)
    requires x <= |src| && Stuck(src, x, pat, 0, [])
    ensures Nowhere(src, x, pat)
  {
    hide Derives, Means;
    forall e, c ensures !Means(src, x, pat, 0, [], e, c) {
      ParsesAll(src, x, pat, 0, [], e, c);
      DerivesMeans(src, x, pat, 0, [], e, c);
    }
  }

  /** The pattern matches no text that starts at x. */
  ghost predicate Nowhere(src: Text, x: nat, pat: Text)
    requires x <= |src|
  {
    forall e, c :: !Means(src, x, pat, 0, [], e, c)
  }

  lemma NoneMean(src: Text, pat: Text, init: nat, n: nat)
    requires n <= |src| + 1 && forall x: nat :: init <= x < n ==> x <= |src| && Stuck(src, x, pat, 0, [])
    ensures forall x: nat :: init <= x < n ==> Nowhere(src, x, pat)
  {
    hide Stuck, Nowhere;
    forall x: nat | init <= x < n ensures Nowhere(src, x, pat) { StuckNoMatch(src, pat, x); }
  }
}

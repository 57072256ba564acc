/** What a match means: the matcher finds a way exactly when there is one, the greedy and lazy
    repetitions choose as documented, and string.find takes the leftmost start. */
module PatternFacts {
  import opened Pattern
  import opened PatternMatch

  // ---------------------------------------------------------------- matching without an order

  /** The repetitions a suffix allows, and where the pattern goes on. */
  datatype Repeat = Repeat(lo: nat, hi: int, next: nat)

  function RepeatOf(pat: Text, ep: nat): Repeat {
    var c := At(pat, ep);
    if c == '?' as int then Repeat(0, 1, ep + 1)
    else if c == '*' as int || c == '-' as int then Repeat(0, -1, ep + 1)
    else if c == '+' as int then Repeat(1, -1, ep + 1)
    else Repeat(1, 1, ep)
  }

  predicate Allowed(r: Repeat, n: int) { r.lo <= n && (r.hi >= 0 ==> n <= r.hi) }

  /** The characters from s to x match the item. */
  ghost predicate RunTo(src: Text, s: nat, x: nat, pat: Text, p: nat, ep: nat)
    requires ep > 0
  {
    s <= x <= |src| && forall k :: s <= k < x ==> SingleMatch(src[k], pat, p, ep)
  }

  /** The pattern from p on matches the subject from s to e, turning caps into c; repetitions are
      any that are allowed. */
  ghost predicate Derives(src: Text, s: nat, pat: Text, p: nat, caps: seq<Capture>, e: nat, c: seq<Capture>)
    requires s <= |src|
    decreases if p <= |pat| then |pat| - p else 0
  {
    var ch := At(pat, p);
    if ch == '(' as int then
      |caps| < MAXCAPTURES
      && if At(pat, p + 1) == ')' as int then Derives(src, s, pat, p + 2, caps + [Capture(s, POSITION)], e, c)
         else Derives(src, s, pat, p + 1, caps + [Capture(s, UNFINISHED)], e, c)
    else if ch == ')' as int then
      exists l :: Innermost(caps, l) && Derives(src, s, pat, p + 1, caps[l := Capture(caps[l].init, s - caps[l].init)], e, c)
    else if ch == ESC && At(pat, p + 1) == 'b' as int then
      && At(pat, p + 2) != 0 && At(pat, p + 3) != 0 && At(src, s) == At(pat, p + 2)
      && var b := Balanced(src, s + 1, At(pat, p + 2), At(pat, p + 3), 1); b >= 0 && Derives(src, b, pat, p + 4, caps, e, c)
    else if ch == ESC && At(pat, p + 1) == 'f' as int then
      && At(pat, p + 2) == '[' as int && ClassEnd(pat, p + 2).End?
      && var ep := ClassEnd(pat, p + 2).ep;
         && !BracketClass(if s == 0 then 0 else src[s - 1], pat, p + 2, ep - 1) && BracketClass(At(src, s), pat, p + 2, ep - 1)
         && Derives(src, s, pat, ep, caps, e, c)
    else if ch == ESC && IsDigit(At(pat, p + 1)) then
      var l := At(pat, p + 1) - '1' as int;
      0 <= l < |caps| && caps[l].len != UNFINISHED && SameAgain(src, s, caps[l]) && Derives(src, s + caps[l].len, pat, p + 2, caps, e, c)
    else if ch == 0 then e == s && c == caps
    else if ch == '$' as int && At(pat, p + 1) == 0 then s == |src| && e == s && c == caps
    else
      && ClassEnd(pat, p).End?
      && var ep := ClassEnd(pat, p).ep;
         exists x: nat :: s <= x <= |src| && RunTo(src, s, x, pat, p, ep) && Allowed(RepeatOf(pat, ep), x - s)
           && Derives(src, x, pat, RepeatOf(pat, ep).next, caps, e, c)
  }

  /** The last unfinished capture. */
  ghost predicate Innermost(caps: seq<Capture>, l: int) {
    0 <= l < |caps| && caps[l].len == UNFINISHED && forall i :: l < i < |caps| ==> caps[i].len != UNFINISHED
  }

  lemma {:induction false} RunLengthIs(src: Text, s: nat, pat: Text, p: nat, ep: nat)
    requires s <= |src| && ep > 0
    ensures forall x: nat :: RunTo(src, s, x, pat, p, ep) <==> s <= x <= s + RunLength(src, s, pat, p, ep)
    decreases |src| - s
  {
    hide SingleMatch;
    if Here(src, s, pat, p, ep) {
      RunLengthIs(src, s + 1, pat, p, ep);
      forall x: nat | x > s ensures RunTo(src, s, x, pat, p, ep) <==> RunTo(src, s + 1, x, pat, p, ep) {}
    }
  }

  ghost predicate Leads(src: Text, x: nat, pat: Text, q: nat, caps: seq<Capture>, o: Outcome)
    requires x <= |src|
  {
    o in Parses(src, x, pat, q, caps)
  }

  ghost predicate Stuck(src: Text, x: nat, pat: Text, q: nat, caps: seq<Capture>)
    requires x <= |src|
  {
    Parses(src, x, pat, q, caps) == []
  }

  /** Going on somewhere from s to s + n leads to the outcome. */
  ghost predicate Within(src: Text, s: nat, n: nat, pat: Text, q: nat, caps: seq<Capture>, o: Outcome)
    requires s + n <= |src|
  {
    exists x: nat :: s <= x <= s + n && Leads(src, x, pat, q, caps, o)
  }

  lemma LeadsIs(src: Text, x: nat, pat: Text, q: nat, caps: seq<Capture>, o: Outcome)
    requires x <= |src|
    ensures Leads(src, x, pat, q, caps, o) <==> o in Parses(src, x, pat, q, caps)
    ensures Stuck(src, x, pat, q, caps) <==> Parses(src, x, pat, q, caps) == []
  {
  }

  lemma {:induction false} MostHas(src: Text, s: nat, n: nat, pat: Text, q: nat, caps: seq<Capture>, o: Outcome)
    requires s + n <= |src|
    ensures o in MostFirst(src, s, n, pat, q, caps) <==> Within(src, s, n, pat, q, caps, o)
    decreases n
  {
    hide Parses, Leads;
    var here, rest := Parses(src, s + n, pat, q, caps), if n == 0 then [] else MostFirst(src, s, n - 1, pat, q, caps);
    assert MostFirst(src, s, n, pat, q, caps) == here + rest;
    if n > 0 { MostHas(src, s, n - 1, pat, q, caps, o); }
    LeadsIs(src, s + n, pat, q, caps, o);
  }

  lemma {:induction false} FewestHas(src: Text, s: nat, n: nat, pat: Text, q: nat, caps: seq<Capture>, o: Outcome)
    requires s + n <= |src|
    ensures o in FewestFirst(src, s, n, pat, q, caps) <==> Within(src, s, n, pat, q, caps, o)
    decreases n
  {
    hide Parses, Leads;
    var here, rest := Parses(src, s, pat, q, caps), if n == 0 then [] else FewestFirst(src, s + 1, n - 1, pat, q, caps);
    assert FewestFirst(src, s, n, pat, q, caps) == here + rest;
    if n > 0 { FewestHas(src, s + 1, n - 1, pat, q, caps, o); }
    LeadsIs(src, s, pat, q, caps, o);
  }

  /** The matcher's list has exactly the ways there are to match. */
  lemma {:induction false} ParsesAll(src: Text, s: nat, pat: Text, p: nat, caps: seq<Capture>, e: nat, c: seq<Capture>)
    requires s <= |src|
    ensures Matched(e, c) in Parses(src, s, pat, p, caps) <==> Derives(src, s, pat, p, caps, e, c)
    decreases if p <= |pat| then |pat| - p else 0, 1
  {
    hide SingleMatch, BracketClass, ClassEnd, Balanced, SameAgain, ItemParses;
    var ch := At(pat, p);
    if ch == '(' as int {
      if |caps| < MAXCAPTURES {
        if At(pat, p + 1) == ')' as int {
          ParsesAll(src, s, pat, p + 2, caps + [Capture(s, POSITION)], e, c);
        } else {
          ParsesAll(src, s, pat, p + 1, caps + [Capture(s, UNFINISHED)], e, c);
        }
      }
    } else if ch == ')' as int {
      var l := ToClose(caps);
      if l >= 0 {
        assert Innermost(caps, l);
        ParsesAll(src, s, pat, p + 1, caps[l := Capture(caps[l].init, s - caps[l].init)], e, c);
        forall k | Innermost(caps, k) ensures k == l {}
      } else {
        forall k ensures !Innermost(caps, k) {}
      }
    } else if ch == ESC && At(pat, p + 1) == 'b' as int {
      var b := Balanced(src, s + 1, At(pat, p + 2), At(pat, p + 3), 1);
      if At(pat, p + 2) != 0 && At(pat, p + 3) != 0 && At(src, s) == At(pat, p + 2) && b >= 0 {
        ParsesAll(src, b, pat, p + 4, caps, e, c);
      }
    } else if ch == ESC && At(pat, p + 1) == 'f' as int {
      if At(pat, p + 2) == '[' as int && ClassEnd(pat, p + 2).End? {
        ParsesAll(src, s, pat, ClassEnd(pat, p + 2).ep, caps, e, c);
      }
    } else if ch == ESC && IsDigit(At(pat, p + 1)) {
      var l := At(pat, p + 1) - '1' as int;
      if 0 <= l < |caps| && caps[l].len != UNFINISHED && SameAgain(src, s, caps[l]) {
        AgainFits(src, s, caps[l]);
        ParsesAll(src, s + caps[l].len, pat, p + 2, caps, e, c);
      }
    } else if ch != 0 && !(ch == '$' as int && At(pat, p + 1) == 0) {
      if ClassEnd(pat, p).End? {
        ItemAll(src, s, pat, p, caps, e, c);
      } else {
        assert ItemParses(src, s, pat, p, caps) == [Raised(ClassEnd(pat, p).problem)] by { BadItem(src, s, pat, p, caps); }
      }
    }
  }

  lemma BadItem(src: Text, s: nat, pat: Text, p: nat, caps: seq<Capture>)
    requires s <= |src| && At(pat, p) != 0 && ClassEnd(pat, p).Bad?
    ensures ItemParses(src, s, pat, p, caps) == [Raised(ClassEnd(pat, p).problem)]
  {
  }

  lemma AgainFits(src: Text, s: nat, c: Capture)
    requires SameAgain(src, s, c)
    ensures 0 <= c.len && s + c.len <= |src|
  {
  }

  lemma {:induction false} ItemAll(src: Text, s: nat, pat: Text, p: nat, caps: seq<Capture>, e: nat, c: seq<Capture>)
    requires s <= |src| && At(pat, p) != 0 && ClassEnd(pat, p).End?
    ensures var ep := ClassEnd(pat, p).ep; var r := RepeatOf(pat, ep);
            Matched(e, c) in ItemParses(src, s, pat, p, caps) <==>
            exists x: nat :: s <= x <= |src| && RunTo(src, s, x, pat, p, ep) && Allowed(r, x - s) && Derives(src, x, pat, r.next, caps, e, c)
    decreases if p <= |pat| then |pat| - p else 0, 0
  {
    hide SingleMatch;
    var o := Matched(e, c);
    var ep := ClassEnd(pat, p).ep;
    var r := RepeatOf(pat, ep);
    RunLengthIs(src, s, pat, p, ep);
    var len := RunLength(src, s, pat, p, ep);
    forall x: nat | s <= x <= s + len ensures o in Parses(src, x, pat, r.next, caps) <==> Derives(src, x, pat, r.next, caps, e, c) {
      ParsesAll(src, x, pat, r.next, caps, e, c);
    }
    ItemCases(src, s, pat, p, caps, o);
    forall x: nat ensures s <= x <= |src| && RunTo(src, s, x, pat, p, ep) && Allowed(r, x - s) && Derives(src, x, pat, r.next, caps, e, c)
                          <==> s <= x <= s + len && Allowed(r, x - s) && Leads(src, x, pat, r.next, caps, o) {}
  }

  /** An outcome of an item is one of what follows some allowed number of repetitions. */
  lemma ItemCases(src: Text, s: nat, pat: Text, p: nat, caps: seq<Capture>, o: Outcome)
    requires s <= |src| && At(pat, p) != 0 && ClassEnd(pat, p).End? && o.Matched?
    ensures var ep := ClassEnd(pat, p).ep; var r := RepeatOf(pat, ep);
            o in ItemParses(src, s, pat, p, caps) <==>
            exists x: nat :: s <= x <= s + RunLength(src, s, pat, p, ep) && Allowed(r, x - s) && Leads(src, x, pat, r.next, caps, o)
  {
    hide SingleMatch, Leads, Parses;
    var ep := ClassEnd(pat, p).ep;
    var ch := At(pat, ep);
    var len := RunLength(src, s, pat, p, ep);
    var r := RepeatOf(pat, ep);
    if ch == '*' as int {
      MostHas(src, s, len, pat, ep + 1, caps, o);
      assert o in ItemParses(src, s, pat, p, caps) <==> Within(src, s, len, pat, ep + 1, caps, o);
    } else if ch == '-' as int {
      FewestHas(src, s, len, pat, ep + 1, caps, o);
      assert o in ItemParses(src, s, pat, p, caps) <==> Within(src, s, len, pat, ep + 1, caps, o);
    } else if ch == '+' as int {
      if len > 0 { MostHas(src, s + 1, len - 1, pat, ep + 1, caps, o); }
      assert o in ItemParses(src, s, pat, p, caps) <==> len > 0 && Within(src, s + 1, len - 1, pat, ep + 1, caps, o);
    } else if ch == '?' as int {
      assert o in ItemParses(src, s, pat, p, caps) <==> (len > 0 && Leads(src, s + 1, pat, ep + 1, caps, o)) || Leads(src, s, pat, ep + 1, caps, o) by {
        LeadsIs(src, s, pat, ep + 1, caps, o);
        if len > 0 { LeadsIs(src, s + 1, pat, ep + 1, caps, o); }
      }
    } else {
      assert o in ItemParses(src, s, pat, p, caps) <==> len > 0 && Leads(src, s + 1, pat, ep, caps, o) by {
        if len > 0 { LeadsIs(src, s + 1, pat, ep, caps, o); }
      }
    }
    forall x: nat | s <= x <= s + len && Allowed(r, x - s) && Leads(src, x, pat, r.next, caps, o)
      ensures o in ItemParses(src, s, pat, p, caps) {}
    if o in ItemParses(src, s, pat, p, caps) {
      if ch == '*' as int || ch == '-' as int {
        var x: nat :| s <= x <= s + len && Leads(src, x, pat, ep + 1, caps, o);
        assert Allowed(r, x - s);
      } else if ch == '+' as int {
        var x: nat :| s + 1 <= x <= s + len && Leads(src, x, pat, ep + 1, caps, o);
        assert Allowed(r, x - s);
      }
    }
  }

  // ---------------------------------------------------------------- order

  /** From x the rest of the pattern leads somewhere, and from no later place up to hi. */
  ghost predicate Latest(src: Text, x: nat, hi: nat, pat: Text, q: nat, caps: seq<Capture>)
    requires x <= hi <= |src|
  {
    !Stuck(src, x, pat, q, caps) && forall y: nat :: x < y <= hi ==> Stuck(src, y, pat, q, caps)
  }

  ghost predicate Earliest(src: Text, x: nat, lo: nat, pat: Text, q: nat, caps: seq<Capture>)
    requires lo <= x <= |src|
  {
    !Stuck(src, x, pat, q, caps) && forall y: nat :: lo <= y < x ==> Stuck(src, y, pat, q, caps)
  }

  /** The first outcome is the first one from x. */
  ghost predicate StartsLike(outs: seq<Outcome>, src: Text, x: nat, pat: Text, q: nat, caps: seq<Capture>)
    requires x <= |src|
  {
    var from := Parses(src, x, pat, q, caps);
    outs != [] && from != [] && outs[0] == from[0]
  }

  lemma StartsSelf(a: seq<Outcome>, b: seq<Outcome>, src: Text, x: nat, pat: Text, q: nat, caps: seq<Capture>)
    requires x <= |src| && ((a == Parses(src, x, pat, q, caps) && a != []) || (a == [] && StartsLike(b, src, x, pat, q, caps)))
    ensures StartsLike(a + b, src, x, pat, q, caps)
  {
  }

  /** A greedy item takes the most repetitions that let the rest of the pattern go on. */
  lemma {:induction false} Greedy(src: Text, s: nat, n: nat, pat: Text, q: nat, caps: seq<Capture>)
    requires s + n <= |src|
    ensures MostFirst(src, s, n, pat, q, caps) == [] <==> forall x: nat :: s <= x <= s + n ==> Stuck(src, x, pat, q, caps)
    ensures forall x: nat :: s <= x <= s + n && Latest(src, x, s + n, pat, q, caps) ==> StartsLike(MostFirst(src, s, n, pat, q, caps), src, x, pat, q, caps)
    decreases n
  {
    hide Parses, Stuck, StartsLike;
    var here, rest := Parses(src, s + n, pat, q, caps), if n == 0 then [] else MostFirst(src, s, n - 1, pat, q, caps);
    assert MostFirst(src, s, n, pat, q, caps) == here + rest;
    LeadsIs(src, s + n, pat, q, caps, Matched(0, []));
    if n > 0 { Greedy(src, s, n - 1, pat, q, caps); }
    forall x: nat | s <= x <= s + n && Latest(src, x, s + n, pat, q, caps) ensures StartsLike(here + rest, src, x, pat, q, caps) {
      if x < s + n { assert here == [] && Latest(src, x, s + n - 1, pat, q, caps); }
      StartsSelf(here, rest, src, x, pat, q, caps);
    }
  }

  /** A lazy item takes the fewest. */
  lemma {:induction false} Lazy(src: Text, s: nat, n: nat, pat: Text, q: nat, caps: seq<Capture>)
    requires s + n <= |src|
    ensures FewestFirst(src, s, n, pat, q, caps) == [] <==> forall x: nat :: s <= x <= s + n ==> Stuck(src, x, pat, q, caps)
    ensures forall x: nat :: s <= x <= s + n && Earliest(src, x, s, pat, q, caps) ==> StartsLike(FewestFirst(src, s, n, pat, q, caps), src, x, pat, q, caps)
    decreases n
  {
    hide Parses, Stuck, StartsLike;
    var here, rest := Parses(src, s, pat, q, caps), if n == 0 then [] else FewestFirst(src, s + 1, n - 1, pat, q, caps);
    assert FewestFirst(src, s, n, pat, q, caps) == here + rest;
    LeadsIs(src, s, pat, q, caps, Matched(0, []));
    if n > 0 { Lazy(src, s + 1, n - 1, pat, q, caps); }
    forall x: nat | s <= x <= s + n && Earliest(src, x, s, pat, q, caps) ensures StartsLike(here + rest, src, x, pat, q, caps) {
      if x > s { assert here == [] && Earliest(src, x, s + 1, pat, q, caps); }
      StartsSelf(here, rest, src, x, pat, q, caps);
    }
  }

  // ---------------------------------------------------------------- captures

  /** Captures are only added, and unfinished ones finished; all lie within what was matched. */
  ghost predicate Grown(src: Text, s: nat, caps: seq<Capture>, e: nat, c: seq<Capture>) {
    && s <= e <= |src| && |caps| <= |c| <= MAXCAPTURES && Sound(c, e)
    && forall i :: 0 <= i < |caps| ==> c[i].init == caps[i].init && (caps[i].len != UNFINISHED ==> c[i] == caps[i])
  }

  lemma {:induction false} DerivesGrown(src: Text, s: nat, pat: Text, p: nat, caps: seq<Capture>, e: nat, c: seq<Capture>)
    requires s <= |src| && |caps| <= MAXCAPTURES && Sound(caps, s) && Derives(src, s, pat, p, caps, e, c)
    ensures Grown(src, s, caps, e, c)
    decreases if p <= |pat| then |pat| - p else 0
  {
    hide SingleMatch, BracketClass, ClassEnd, Balanced, SameAgain, RunTo;
    var ch := At(pat, p);
    if ch == '(' as int {
      if At(pat, p + 1) == ')' as int {
        DerivesGrown(src, s, pat, p + 2, caps + [Capture(s, POSITION)], e, c);
      } else {
        DerivesGrown(src, s, pat, p + 1, caps + [Capture(s, UNFINISHED)], e, c);
      }
    } else if ch == ')' as int {
      var l :| Innermost(caps, l) && Derives(src, s, pat, p + 1, caps[l := Capture(caps[l].init, s - caps[l].init)], e, c);
      DerivesGrown(src, s, pat, p + 1, caps[l := Capture(caps[l].init, s - caps[l].init)], e, c);
    } else if ch == ESC && At(pat, p + 1) == 'b' as int {
      var b := Balanced(src, s + 1, At(pat, p + 2), At(pat, p + 3), 1);
      DerivesGrown(src, b, pat, p + 4, caps, e, c);
    } else if ch == ESC && At(pat, p + 1) == 'f' as int {
      DerivesGrown(src, s, pat, ClassEnd(pat, p + 2).ep, caps, e, c);
    } else if ch == ESC && IsDigit(At(pat, p + 1)) {
      var l := At(pat, p + 1) - '1' as int;
      AgainFits(src, s, caps[l]);
      DerivesGrown(src, s + caps[l].len, pat, p + 2, caps, e, c);
    } else if ch != 0 && !(ch == '$' as int && At(pat, p + 1) == 0) {
      var ep := ClassEnd(pat, p).ep;
      var x: nat :| s <= x <= |src| && RunTo(src, s, x, pat, p, ep) && Allowed(RepeatOf(pat, ep), x - s) && Derives(src, x, pat, RepeatOf(pat, ep).next, caps, e, c);
      RunFits(src, s, x, pat, p, ep);
      DerivesGrown(src, x, pat, RepeatOf(pat, ep).next, caps, e, c);
    }
  }

  lemma RunFits(src: Text, s: nat, x: nat, pat: Text, p: nat, ep: nat)
    requires ep > 0 && RunTo(src, s, x, pat, p, ep)
    ensures s <= x <= |src|
  {
  }
}

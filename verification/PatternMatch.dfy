/** The backtracking matcher of lstrlib.c, with its captures changed and restored in place. */
module PatternMatch {
  import opened Pattern

  datatype Result = NoMatch | Found(e: nat) | Error(problem: Problem)

  /** A matcher reports the first outcome; when there is none the captures are as they were. */
  ghost predicate Reports(r: Result, outs: seq<Outcome>, before: seq<Capture>, after: seq<Capture>) {
    if outs == [] then r == NoMatch && after == before
    else match outs[0]
      case Matched(e, caps) => r == Found(e) && after == caps
      case Raised(problem) => r == Error(problem)
  }

  class MatchState {
    const src: Text
    const pat: Text
    var level: nat
    const capture: array<Capture>

    constructor (src: Text, pat: Text)
      ensures this.src == src && this.pat == pat && Valid() && level == 0 && fresh(capture)
    {
      this.src := src;
      this.pat := pat;
      level := 0;
      capture := new Capture[MAXCAPTURES](_ => Capture(0, UNFINISHED));
    }

    predicate Valid()
      reads this
    {
      capture.Length == MAXCAPTURES && level <= MAXCAPTURES
    }

    /** The captures made so far. */
    function Caps(): (c: seq<Capture>)
      requires Valid()
      reads this, capture
      ensures |c| == level
    {
      capture[..level]
    }

    // -------------------------------------------------------------- single characters

    /** classend. */
    method ItemEnd(p: nat) returns (r: ItemEnd)
      requires At(pat, p) != 0
      ensures r == ClassEnd(pat, p)
    {
      var q := p + 1;
      if At(pat, p) == ESC {
        return if At(pat, q) == 0 then Bad(EndsWithPercent) else End(q + 1);
      }
      if At(pat, p) != '[' as int { return End(q); }
      if At(pat, q) == '^' as int { q := q + 1; }
      var first := true;
      while first || At(pat, q) != ']' as int
        invariant first ==> SetEnd(pat, q) == ClassEnd(pat, p)
        invariant !first ==> ClassEnd(pat, p) == if At(pat, q) == ']' as int then End(q + 1) else SetEnd(pat, q)
        decreases if q <= |pat| then |pat| - q else 0, first
      {
        if At(pat, q) == 0 { return Bad(MissingBracket); }
        first := false;
        q := q + 1;
        if At(pat, q - 1) == ESC && At(pat, q) != 0 { q := q + 1; }
      }
      r := End(q + 1);
    }

    /** matchbracketclass. */
    method InBrackets(c: int, p: nat, ec: nat) returns (r: bool)
      ensures r == BracketClass(c, pat, p, ec)
    {
      var q, sig := p, true;
      if At(pat, q + 1) == '^' as int {
        sig := false;
        q := q + 1;
      }
      ghost var q0 := q;
      q := q + 1;
      while q < ec
        invariant q > q0 && SetHas(c, pat, q - 1, ec) == SetHas(c, pat, q0, ec)
        decreases ec - q
      {
        if At(pat, q) == ESC {
          q := q + 1;
          if MatchClass(c, At(pat, q)) { return sig; }
        } else if At(pat, q + 1) == '-' as int && q + 2 < ec {
          q := q + 2;
          if At(pat, q - 2) <= c <= At(pat, q) { return sig; }
        } else if At(pat, q) == c {
          return sig;
        }
        q := q + 1;
      }
      r := !sig;
    }

    /** singlematch, at a position that may be the end of the subject. */
    method Single(s: nat, p: nat, ep: nat) returns (m: bool)
      requires ep > 0
      ensures m == Here(src, s, pat, p, ep)
    {
      if s >= |src| { return false; }
      var c := At(pat, p);
      if c == '.' as int { return true; }
      if c == ESC { return MatchClass(src[s], At(pat, p + 1)); }
      if c == '[' as int {
        m := InBrackets(src[s], p, ep - 1);
        return;
      }
      m := c == src[s];
    }

    // -------------------------------------------------------------- balance and captures

    /** matchbalance, for delimiters that are there. */
    method MatchBalance(s0: nat, p: nat) returns (r: int)
      requires s0 <= |src| && At(pat, p) != 0 && At(pat, p + 1) != 0
      ensures r == if At(src, s0) != At(pat, p) then -1 else Balanced(src, s0 + 1, At(pat, p), At(pat, p + 1), 1)
      ensures r == -1 || s0 < r <= |src|
      ensures if At(src, s0) != At(pat, p) then r == -1 else FirstBalance(src, s0 + 1, At(pat, p), At(pat, p + 1), 1, r)
    {
      hide FirstBalance;
      if At(src, s0) != At(pat, p) { return -1; }
      BalancedFirst(src, s0 + 1, At(pat, p), At(pat, p + 1), 1);
      var b, e, cont, s := At(pat, p), At(pat, p + 1), 1, s0 + 1;
      while s < |src|
        invariant cont >= 1 && s0 + 1 <= s <= |src| && Balanced(src, s, b, e, cont) == Balanced(src, s0 + 1, b, e, 1)
      {
        if src[s] == e {
          cont := cont - 1;
          if cont == 0 { return s + 1; }
        } else if src[s] == b {
          cont := cont + 1;
        }
        s := s + 1;
      }
      r := -1;
    }

    /** capture_to_close. */
    method CaptureToClose() returns (l: int)
      requires Valid()
      ensures l == ToClose(Caps())
    {
      l := level - 1;
      while l >= 0
        invariant -1 <= l < level && ToClose(capture[..l + 1]) == ToClose(Caps())
      {
        assert capture[..l + 1][..l] == capture[..l];
        if capture[l].len == UNFINISHED { return l; }
        l := l - 1;
      }
    }

    /** start_capture. */
    method StartCapture(s: nat, p: nat, what: int) returns (r: Result)
      requires Valid() && s <= |src| && 0 < p <= |pat| && Sound(Caps(), s) && (what == UNFINISHED || what == POSITION)
      modifies this`level, capture
      ensures Valid()
      ensures Reports(r, if |old(Caps())| >= MAXCAPTURES then [Raised(TooManyCaptures)]
                         else Parses(src, s, pat, p, old(Caps()) + [Capture(s, what)]), old(Caps()), Caps())
      decreases |pat| - p, 7, 0
    {
      if level >= MAXCAPTURES { return Error(TooManyCaptures); }
      ghost var before := Caps();
      capture[level] := Capture(s, what);
      level := level + 1;
      assert Caps() == before + [Capture(s, what)];
      r := Match(s, p);
      if r == NoMatch { level := level - 1; }
    }

    /** end_capture. */
    method EndCapture(s: nat, p: nat) returns (r: Result)
      requires Valid() && s <= |src| && 0 < p <= |pat| && Sound(Caps(), s)
      modifies this`level, capture
      ensures Valid()
      ensures var caps := old(Caps()); var l := ToClose(caps);
              Reports(r, if l < 0 then [Raised(InvalidPatternCapture)]
                         else Parses(src, s, pat, p, caps[l := Capture(caps[l].init, s - caps[l].init)]), caps, Caps())
      decreases |pat| - p, 7, 0
    {
      var l := CaptureToClose();
      if l < 0 { return Error(InvalidPatternCapture); }
      ghost var before := Caps();
      capture[l] := capture[l].(len := s - capture[l].init);
      assert Caps() == before[l := Capture(before[l].init, s - before[l].init)];
      r := Match(s, p);
      if r == NoMatch {
        capture[l] := capture[l].(len := UNFINISHED);
        assert Caps() == before;
      }
    }

    // -------------------------------------------------------------- repetition

    /** The first loop of max_expand. */
    method CountRun(s: nat, p: nat, ep: nat) returns (i: nat)
      requires s <= |src| && ep > 0
      ensures i == RunLength(src, s, pat, p, ep)
    {
      hide SingleMatch;
      i := 0;
      var m := Single(s, p, ep);
      while m
        invariant s + i <= |src| && m == Here(src, s + i, pat, p, ep)
        invariant i + RunLength(src, s + i, pat, p, ep) == RunLength(src, s, pat, p, ep)
        decreases |src| - (s + i)
      {
        i := i + 1;
        m := Single(s + i, p, ep);
      }
    }

    /** max_expand. */
    method MaxExpand(s: nat, p: nat, ep: nat) returns (r: Result)
      requires Valid() && s <= |src| && p < ep < |pat| && Sound(Caps(), s)
      modifies this`level, capture
      ensures Valid() && Reports(r, MostFirst(src, s, RunLength(src, s, pat, p, ep), pat, ep + 1, old(Caps())), old(Caps()), Caps())
      decreases |pat| - ep, 3, 0
    {
      hide Parses, Sound, MostFirst, RunLength, Reports;
      ghost var before := Caps();
      var n := CountRun(s, p, ep);
      var i: int := n;
      while i >= 0
        invariant -1 <= i <= n && Valid() && Caps() == before
        invariant SameFirst(if i >= 0 then MostFirst(src, s, i, pat, ep + 1, before) else [], MostFirst(src, s, n, pat, ep + 1, before))
        decreases i + 1
      {
        SoundLater(before, s, s + i);
        r := Match(s + i, ep + 1);
        MostStep(src, s, i, pat, ep + 1, before, r, Caps());
        if r != NoMatch {
          ReportsFirst(r, MostFirst(src, s, i, pat, ep + 1, before), MostFirst(src, s, n, pat, ep + 1, before), before, Caps());
          return;
        }
        i := i - 1;
      }
      r := NoMatch;
      NothingReported(MostFirst(src, s, n, pat, ep + 1, before), before);
    }

    /** min_expand. */
    method MinExpand(s0: nat, p: nat, ep: nat) returns (r: Result)
      requires Valid() && s0 <= |src| && p < ep < |pat| && Sound(Caps(), s0)
      modifies this`level, capture
      ensures Valid() && Reports(r, FewestFirst(src, s0, RunLength(src, s0, pat, p, ep), pat, ep + 1, old(Caps())), old(Caps()), Caps())
      decreases |pat| - ep, 3, 0
    {
      hide Parses, Sound, FewestFirst, RunLength, Reports, SingleMatch;
      var s := s0;
      ghost var before := Caps();
      ghost var all := FewestFirst(src, s0, RunLength(src, s0, pat, p, ep), pat, ep + 1, before);
      while true
        invariant s0 <= s <= |src| && Valid() && Caps() == before
        invariant SameFirst(FewestFirst(src, s, RunLength(src, s, pat, p, ep), pat, ep + 1, before), all)
        decreases |src| - s
      {
        SoundLater(before, s0, s);
        r := Match(s, ep + 1);
        FewestStep(src, s, pat, p, ep, before, r, Caps());
        if r != NoMatch {
          ReportsFirst(r, FewestFirst(src, s, RunLength(src, s, pat, p, ep), pat, ep + 1, before), all, before, Caps());
          return;
        }
        var m := Single(s, p, ep);
        if !m {
          NothingReported(all, before);
          return;
        }
        s := s + 1;
      }
    }

    /** match_capture, on a capture index that is good. */
    method MatchCapture(s: nat, l: nat) returns (r: int)
      requires Valid() && s <= |src| && l < level && capture[l].len != UNFINISHED && Sound(Caps(), s)
      ensures r == if SameAgain(src, s, Caps()[l]) then s + Caps()[l].len else -1
      ensures (r == -1 <==> !SameAgain(src, s, Caps()[l])) && (r == -1 || s <= r <= |src|)
    {
      assert Caps()[l] == capture[l];
      var c := capture[l];
      if 0 <= c.len <= |src| - s && src[c.init..c.init + c.len] == src[s..s + c.len] { return s + c.len; }
      r := -1;
    }

    /** match: its tail calls are rounds of a loop. */
    method Match(s0: nat, p0: nat) returns (r: Result)
      requires Valid() && s0 <= |src| && p0 <= |pat| && Sound(Caps(), s0)
      modifies this`level, capture
      ensures Valid() && Reports(r, Parses(src, s0, pat, p0, old(Caps())), old(Caps()), Caps())
      decreases |pat| - p0, 6, 0
    {
      hide Sound, Reports, Parses, SameFirst;
      var s, p := s0, p0;
      ghost var before, all := Caps(), Parses(src, s0, pat, p0, Caps());
      FirstSelf(all);
      while true
        invariant s0 <= s <= |src| && p0 <= p <= |pat| && Valid() && Caps() == before && Sound(before, s)
        invariant SameFirst(Parses(src, s, pat, p, before), all)
        decreases |pat| - p
      {
        var more, s', p';
        r, more, s', p' := Round(s, p);
        if !more {
          ReportsFirst(r, Parses(src, s, pat, p, before), all, before, Caps());
          return;
        }
        FirstTrans(Parses(src, s', pat, p', before), Parses(src, s, pat, p, before), all);
        s, p := s', p';
      }
    }

    /** One round: done with a result, or on to another position. */
    method Round(s: nat, p: nat) returns (r: Result, more: bool, s': nat, p': nat)
      requires Valid() && s <= |src| && p <= |pat| && Sound(Caps(), s)
      modifies this`level, capture
      ensures Valid()
      ensures !more ==> Reports(r, Parses(src, s, pat, p, old(Caps())), old(Caps()), Caps())
      ensures more ==> s <= s' <= |src| && p < p' <= |pat| && Caps() == old(Caps()) && Sound(Caps(), s')
      ensures more ==> SameFirst(Parses(src, s', pat, p', Caps()), Parses(src, s, pat, p, Caps()))
      decreases |pat| - p, 5, 0
    {
      hide Sound, Reports, SingleMatch, BracketClass, ClassEnd, Balanced, SameAgain, ToClose, ItemParses, SameFirst;
      r, more, s', p' := NoMatch, false, s, p;
      ghost var before := Caps();
      NothingReported([], before);
      FirstSelf(Parses(src, s, pat, p, before));
      var c := At(pat, p);
      if c == '(' as int {
        if At(pat, p + 1) == ')' as int { r := StartCapture(s, p + 2, POSITION); } else { r := StartCapture(s, p + 1, UNFINISHED); }
      } else if c == ')' as int {
        r := EndCapture(s, p + 1);
      } else if c == ESC && At(pat, p + 1) == 'b' as int {
        if At(pat, p + 2) == 0 || At(pat, p + 3) == 0 {
          r := Error(UnbalancedPattern);
          Raises(UnbalancedPattern, before, Caps());
        } else {
          var e := MatchBalance(s, p + 2);
          if e != -1 {
            SoundLater(before, s, e);
            more, s', p' := true, e, p + 4;
          }
        }
      } else if c == ESC && At(pat, p + 1) == 'f' as int {
        r, more, p' := Frontier(s, p + 2);
      } else if c == ESC && IsDigit(At(pat, p + 1)) {
        var l := At(pat, p + 1) - '1' as int;
        if l < 0 || l >= level || capture[l].len == UNFINISHED {
          r := Error(InvalidCaptureIndex);
          Raises(InvalidCaptureIndex, before, Caps());
        } else {
          var e := MatchCapture(s, l);
          if e != -1 {
            SoundLater(before, s, e);
            more, s', p' := true, e, p + 2;
          }
        }
      } else if c == 0 {
        r := Found(s);
        Ends(s, before);
      } else if c == '$' as int && At(pat, p + 1) == 0 {
        r := if s == |src| then Found(s) else NoMatch;
        Ends(s, before);
      } else {
        r, more, s', p' := MatchItem(s, p);
      }
    }

    /** The frontier case of match: a set that begins here. */
    method Frontier(s: nat, p: nat) returns (r: Result, more: bool, p': nat)
      requires Valid() && s <= |src| && p <= |pat|
      ensures !more ==> Reports(r, FrontierParses(src, s, pat, p, Caps()), Caps(), Caps())
      ensures more ==> p < p' <= |pat| && FrontierParses(src, s, pat, p, Caps()) == Parses(src, s, pat, p', Caps())
    {
      hide Reports, BracketClass, ClassEnd, Parses;
      r, more, p' := NoMatch, false, p;
      NothingReported([], Caps());
      if At(pat, p) != '[' as int {
        r := Error(MissingSetAfterFrontier);
        Raises(MissingSetAfterFrontier, Caps(), Caps());
        return;
      }
      var end := ItemEnd(p);
      if end.Bad? {
        r := Error(end.problem);
        Raises(end.problem, Caps(), Caps());
        return;
      }
      var wasIn := InBrackets(if s == 0 then 0 else src[s - 1], p, end.ep - 1);
      var nowIn := InBrackets(At(src, s), p, end.ep - 1);
      if wasIn || !nowIn { return; }
      more, p' := true, end.ep;
    }

    /** The default case of match: done with a result, or on to another position. */
    method MatchItem(s: nat, p: nat) returns (r: Result, more: bool, s': nat, p': nat)
      requires Valid() && s <= |src| && p < |pat| && At(pat, p) != 0 && Sound(Caps(), s)
      modifies this`level, capture
      ensures Valid()
      ensures !more ==> Reports(r, ItemParses(src, s, pat, p, old(Caps())), old(Caps()), Caps())
      ensures more ==> s <= s' <= |src| && p < p' <= |pat| && Caps() == old(Caps()) && Sound(Caps(), s')
      ensures more ==> SameFirst(Parses(src, s', pat, p', Caps()), ItemParses(src, s, pat, p, Caps()))
      decreases |pat| - p, 4, 1
    {
      hide Sound, Reports, SingleMatch, MostFirst, FewestFirst, RunLength, Parses;
      r, more, s', p' := NoMatch, false, s, p;
      ghost var before := Caps();
      var end := ItemEnd(p);
      if end.Bad? {
        r := Error(end.problem);
        Raises(end.problem, before, Caps());
        return;
      }
      var ep := end.ep;
      var m := Single(s, p, ep);
      if m { SoundLater(before, s, s + 1); }
      var c := At(pat, ep);
      if c == '?' as int {
        if m {
          r := Match(s + 1, ep + 1);
          Concatenated(Parses(src, s + 1, pat, ep + 1, before), Parses(src, s, pat, ep + 1, before), r, before, Caps());
          if r != NoMatch { return; }
        } else {
          assert [] + Parses(src, s, pat, ep + 1, before) == Parses(src, s, pat, ep + 1, before);
        }
        more, p' := true, ep + 1;
      } else if c == '*' as int {
        r := MaxExpand(s, p, ep);
      } else if c == '+' as int {
        if m { r := MaxExpand(s + 1, p, ep); } else { NothingReported([], before); }
      } else if c == '-' as int {
        r := MinExpand(s, p, ep);
      } else if m {
        more, s', p' := true, s + 1, ep;
      } else {
        NothingReported([], before);
      }
    }
  }

  /** Two lists of outcomes have the same first one. */
  ghost predicate SameFirst(a: seq<Outcome>, b: seq<Outcome>) { (a == [] <==> b == []) && (a != [] ==> a[0] == b[0]) }

  lemma FirstSelf(a: seq<Outcome>)
    ensures SameFirst(a, a)
  {
  }

  lemma FirstTrans(a: seq<Outcome>, b: seq<Outcome>, c: seq<Outcome>)
    requires SameFirst(a, b) && SameFirst(b, c)
    ensures SameFirst(a, c)
  {
  }

  lemma ReportsFirst(r: Result, a: seq<Outcome>, b: seq<Outcome>, before: seq<Capture>, after: seq<Capture>)
    requires Reports(r, a, before, after) && SameFirst(a, b)
    ensures Reports(r, b, before, after)
  {
  }

  lemma NothingReported(outs: seq<Outcome>, before: seq<Capture>)
    requires SameFirst([], outs)
    ensures Reports(NoMatch, outs, before, before)
  {
  }

  lemma Raises(problem: Problem, before: seq<Capture>, after: seq<Capture>)
    ensures Reports(Error(problem), [Raised(problem)], before, after)
  {
  }

  lemma Ends(s: nat, caps: seq<Capture>)
    ensures Reports(Found(s), [Matched(s, caps)], caps, caps)
  {
  }

  lemma MostStep(src: Text, s: nat, i: nat, pat: Text, q: nat, caps: seq<Capture>, r: Result, after: seq<Capture>)
    requires s + i <= |src| && Reports(r, Parses(src, s + i, pat, q, caps), caps, after)
    ensures r != NoMatch ==> Reports(r, MostFirst(src, s, i, pat, q, caps), caps, after)
    ensures r == NoMatch ==> after == caps && SameFirst(if i >= 1 then MostFirst(src, s, i - 1, pat, q, caps) else [], MostFirst(src, s, i, pat, q, caps))
  {
    hide Parses;
    var here := Parses(src, s + i, pat, q, caps);
    var rest := if i == 0 then [] else MostFirst(src, s, i - 1, pat, q, caps);
    assert MostFirst(src, s, i, pat, q, caps) == here + rest;
    Concatenated(here, rest, r, caps, after);
  }

  lemma Concatenated(a: seq<Outcome>, b: seq<Outcome>, r: Result, before: seq<Capture>, after: seq<Capture>)
    requires Reports(r, a, before, after)
    ensures r != NoMatch ==> Reports(r, a + b, before, after)
    ensures r == NoMatch ==> after == before && a + b == b
  {
  }

  lemma FewestStep(src: Text, s: nat, pat: Text, p: nat, ep: nat, caps: seq<Capture>, r: Result, after: seq<Capture>)
    requires s <= |src| && ep > 0 && Reports(r, Parses(src, s, pat, ep + 1, caps), caps, after)
    ensures r != NoMatch ==> Reports(r, FewestFirst(src, s, RunLength(src, s, pat, p, ep), pat, ep + 1, caps), caps, after)
    ensures r == NoMatch ==> after == caps
    ensures r == NoMatch && Here(src, s, pat, p, ep) ==>
            SameFirst(FewestFirst(src, s + 1, RunLength(src, s + 1, pat, p, ep), pat, ep + 1, caps),
                      FewestFirst(src, s, RunLength(src, s, pat, p, ep), pat, ep + 1, caps))
    ensures r == NoMatch && !Here(src, s, pat, p, ep) ==>
            SameFirst([], FewestFirst(src, s, RunLength(src, s, pat, p, ep), pat, ep + 1, caps))
  {
    hide Parses, SingleMatch;
    var n := RunLength(src, s, pat, p, ep);
    var here := Parses(src, s, pat, ep + 1, caps);
    var rest := if n == 0 then [] else FewestFirst(src, s + 1, n - 1, pat, ep + 1, caps);
    assert FewestFirst(src, s, n, pat, ep + 1, caps) == here + rest;
    Concatenated(here, rest, r, caps, after);
  }

  lemma SoundLater(caps: seq<Capture>, s: nat, s': nat)
    requires Sound(caps, s) && s <= s'
    ensures Sound(caps, s')
  {
  }
}

/** What a pattern means, character by character: classes by their members, sets by their items. */
module PatternMeaning {
  import opened Pattern
  import opened PatternMatch
  import opened PatternFacts

  // ---------------------------------------------------------------- classes

  /** The letters of classes: a c d l p s u w x z. */
  const CLASSES := {97, 99, 100, 108, 112, 115, 117, 119, 120, 122}

  /** The characters of a class, by code. */
  predicate InClass(letter: int, c: int) {
    || (letter == 97 && (65 <= c <= 90 || 97 <= c <= 122))
    || (letter == 99 && (0 <= c <= 31 || c == 127))
    || (letter == 100 && 48 <= c <= 57)
    || (letter == 108 && 97 <= c <= 122)
    || (letter == 112 && (33 <= c <= 47 || 58 <= c <= 64 || 91 <= c <= 96 || 123 <= c <= 126))
    || (letter == 115 && (9 <= c <= 13 || c == 32))
    || (letter == 117 && 65 <= c <= 90)
    || (letter == 119 && (48 <= c <= 57 || 65 <= c <= 90 || 97 <= c <= 122))
    || (letter == 120 && (48 <= c <= 57 || 65 <= c <= 70 || 97 <= c <= 102))
    || (letter == 122 && c == 0)
  }

  /** What follows a percent sign: a class letter, the capital of one for its complement, or any other
      character for itself. */
  predicate EscapeHas(cl: int, c: int) {
    if cl in CLASSES then InClass(cl, c) else if cl + 32 in CLASSES then !InClass(cl + 32, c) else c == cl
  }

  lemma EscapeIs(cl: int, c: int)
    ensures MatchClass(c, cl) <==> EscapeHas(cl, c)
  {
    assert 'a' as int == 97 && 'z' as int == 122 && 'A' as int == 65 && 'Z' as int == 90 && '0' as int == 48 && '9' as int == 57;
    assert 'c' as int == 99 && 'd' as int == 100 && 'l' as int == 108 && 'p' as int == 112 && 's' as int == 115 && 'u' as int == 117
           && 'w' as int == 119 && 'x' as int == 120 && 'f' as int == 102;
  }

  // ---------------------------------------------------------------- sets

  datatype SetItem = Single(c: int) | Range(lo: int, hi: int) | Escape(cl: int)

  /** The items between q and the closing bracket at ec. A dash between two characters makes a range,
      unless the second would be the bracket. */
  function ItemsOf(pat: Text, q: nat, ec: nat): seq<SetItem>
    decreases if q < ec then ec - q else 0
  {
    if q >= ec then []
    else if At(pat, q) == 37 then [Escape(At(pat, q + 1))] + ItemsOf(pat, q + 2, ec)
    else if At(pat, q + 1) == 45 && q + 2 < ec then [Range(At(pat, q), At(pat, q + 2))] + ItemsOf(pat, q + 3, ec)
    else [Single(At(pat, q))] + ItemsOf(pat, q + 1, ec)
  }

  predicate ItemHas(i: SetItem, c: int) {
    match i
    case Single(x) => c == x
    case Range(lo, hi) => lo <= c <= hi
    case Escape(cl) => EscapeHas(cl, c)
  }

  predicate SomeHas(items: seq<SetItem>, c: int) { exists i :: 0 <= i < |items| && ItemHas(items[i], c) }

  lemma SomeFirst(x: SetItem, items: seq<SetItem>, c: int)
    ensures SomeHas([x] + items, c) <==> ItemHas(x, c) || SomeHas(items, c)
  {
    var all := [x] + items;
    if SomeHas(items, c) {
      var i :| 0 <= i < |items| && ItemHas(items[i], c);
      assert ItemHas(all[i + 1], c);
    }
    if ItemHas(x, c) { assert ItemHas(all[0], c); }
    if SomeHas(all, c) && !ItemHas(x, c) {
      var i :| 0 <= i < |all| && ItemHas(all[i], c);
      assert ItemHas(items[i - 1], c);
    }
  }

  lemma {:induction false} ItemsHave(c: int, pat: Text, q: nat, ec: nat)
    ensures SetHas(c, pat, q, ec) <==> SomeHas(ItemsOf(pat, q + 1, ec), c)
    decreases if q <= ec then ec - q else 0
  {
    hide MatchClass, EscapeHas, SomeHas;
    NoneHas(c);
    if q + 1 < ec {
      if At(pat, q + 1) == ESC {
        EscapeIs(At(pat, q + 2), c);
        ItemsHave(c, pat, q + 2, ec);
        SomeFirst(Escape(At(pat, q + 2)), ItemsOf(pat, q + 3, ec), c);
      } else if At(pat, q + 2) == '-' as int && q + 3 < ec {
        ItemsHave(c, pat, q + 3, ec);
        SomeFirst(Range(At(pat, q + 1), At(pat, q + 3)), ItemsOf(pat, q + 4, ec), c);
      } else {
        ItemsHave(c, pat, q + 1, ec);
        SomeFirst(Single(At(pat, q + 1)), ItemsOf(pat, q + 2, ec), c);
      }
    }
  }

  lemma NoneHas(c: int)
    ensures !SomeHas([], c)
  {
  }

  /** The set that opens at p and closes at ec has c; after a caret it has the others. */
  predicate SetAdmits(pat: Text, p: nat, ec: nat, c: int) {
    if At(pat, p + 1) == 94 then !SomeHas(ItemsOf(pat, p + 2, ec), c) else SomeHas(ItemsOf(pat, p + 1, ec), c)
  }

  lemma SetIs(c: int, pat: Text, p: nat, ec: nat)
    ensures BracketClass(c, pat, p, ec) <==> SetAdmits(pat, p, ec, c)
  {
    hide SetHas, SomeHas;
    ItemsHave(c, pat, p, ec);
    ItemsHave(c, pat, p + 1, ec);
  }

  /** The set whose first item is at q closes at ec: the first closing bracket that is neither the
      first item nor behind a percent sign. */
  predicate Closes(pat: Text, q: nat, ec: nat)
    decreases if q < ec then ec - q else 0
  {
    var next := if At(pat, q) == 37 && At(pat, q + 1) != 0 then q + 2 else q + 1;
    q < ec && At(pat, q) != 0 && if At(pat, next) == 93 then ec == next else Closes(pat, next, ec)
  }

  lemma {:induction false} ClosesIs(pat: Text, q: nat, ep: nat)
    requires ep > 0
    ensures SetEnd(pat, q) == End(ep) <==> Closes(pat, q, ep - 1)
    decreases if q <= |pat| then |pat| - q else 0
  {
    if At(pat, q) != 0 {
      var next := AfterSetItem(pat, q);
      if At(pat, next) != ']' as int { ClosesIs(pat, next, ep); }
    }
  }

  // ---------------------------------------------------------------- single characters

  /** The item at p ends at ep. */
  predicate Spans(pat: Text, p: nat, ep: nat) {
    if At(pat, p) == 37 then At(pat, p + 1) != 0 && ep == p + 2
    else if At(pat, p) == 91 then ep > 0 && Closes(pat, if At(pat, p + 1) == 94 then p + 2 else p + 1, ep - 1)
    else ep == p + 1
  }

  /** The item from p to ep has c: a dot any character, an escape, a set, or the character itself. */
  predicate Admits(pat: Text, p: nat, ep: nat, c: int) {
    || At(pat, p) == 46
    || (At(pat, p) == 37 && EscapeHas(At(pat, p + 1), c))
    || (At(pat, p) == 91 && ep > 0 && SetAdmits(pat, p, ep - 1, c))
    || (At(pat, p) !in {46, 37, 91} && At(pat, p) == c)
  }

  lemma SpansIs(pat: Text, p: nat, ep: nat)
    requires At(pat, p) != 0
    ensures ClassEnd(pat, p) == End(ep) <==> Spans(pat, p, ep)
  {
    hide SetEnd, Closes;
    if ep > 0 {
      ClosesIs(pat, p + 1, ep);
      ClosesIs(pat, p + 2, ep);
    }
  }

  lemma AdmitsIs(c: int, pat: Text, p: nat, ep: nat)
    requires ep > 0
    ensures SingleMatch(c, pat, p, ep) <==> Admits(pat, p, ep, c)
  {
    hide MatchClass, EscapeHas, BracketClass, SetAdmits;
    EscapeIs(At(pat, p + 1), c);
    SetIs(c, pat, p, ep - 1);
  }

  // ---------------------------------------------------------------- matches

  /** The characters from s to x are had by the item. */
  ghost predicate AllAdmitted(src: Text, s: nat, x: nat, pat: Text, p: nat, ep: nat) {
    s <= x <= |src| && forall k :: s <= k < x ==> Admits(pat, p, ep, src[k])
  }

  /** The suffix at ep allows n repetitions, and the pattern goes on at next. */
  predicate Repeats(pat: Text, ep: nat, n: int, next: nat) {
    var c := At(pat, ep);
    if c == 63 then 0 <= n <= 1 && next == ep + 1
    else if c == 42 || c == 45 then 0 <= n && next == ep + 1
    else if c == 43 then 1 <= n && next == ep + 1
    else n == 1 && next == ep
  }

  /** The text of a finished capture follows at s. */
  predicate Again(src: Text, s: nat, cap: Capture) {
    cap.len >= 0 && cap.init + cap.len <= |src| && s + cap.len <= |src|
    && forall j :: s <= j < s + cap.len ==> src[j] == src[cap.init + (j - s)]
  }

  lemma AgainIs(src: Text, s: nat, cap: Capture)
    ensures SameAgain(src, s, cap) <==> Again(src, s, cap)
  {
    if Again(src, s, cap) {
      var before, after := src[cap.init..cap.init + cap.len], src[s..s + cap.len];
      forall i | 0 <= i < |before| ensures before[i] == after[i] { assert src[s + i] == src[cap.init + (s + i - s)]; }
      assert before == after;
    }
    if SameAgain(src, s, cap) {
      forall j | s <= j < s + cap.len ensures src[j] == src[cap.init + (j - s)] {
        assert src[s..s + cap.len][j - s] == src[cap.init..cap.init + cap.len][j - s];
      }
    }
  }

  /** For the balance item at p: the text from s to b begins with its first delimiter and ends where
      all that is opened is first closed by the second. */
  ghost predicate Delimited(src: Text, s: nat, pat: Text, p: nat, b: nat) {
    && At(pat, p + 2) != 0 && At(pat, p + 3) != 0 && At(src, s) == At(pat, p + 2) && b <= |src|
    && FirstBalance(src, s + 1, At(pat, p + 2), At(pat, p + 3), 1, b)
  }

  /** For the frontier item at p, with a set that ends at ep: the character before s is not in the set
      and the one at s is, zero standing for what is beyond the ends. */
  predicate AtFrontier(src: Text, s: nat, pat: Text, p: nat, ep: nat)
    requires s <= |src|
  {
    && At(pat, p + 2) == 91 && p + 2 < ep && Spans(pat, p + 2, ep)
    && !SetAdmits(pat, p + 2, ep - 1, if s == 0 then 0 else src[s - 1]) && SetAdmits(pat, p + 2, ep - 1, At(src, s))
  }

  /** The item at p with its suffix takes the text from s to x, and the pattern goes on at next. */
  ghost predicate Takes(src: Text, s: nat, pat: Text, p: nat, x: nat, next: nat) {
    exists ep: nat :: p < ep && Spans(pat, p, ep) && AllAdmitted(src, s, x, pat, p, ep) && Repeats(pat, ep, x - s, next)
  }

  /** The pattern from p on matches the subject from s to e, turning the captures into c. */
  ghost predicate Means(src: Text, s: nat, pat: Text, p: nat, caps: seq<Capture>, e: nat, c: seq<Capture>)
    requires s <= |src|
    decreases if p <= |pat| then |pat| - p else 0
  {
    var ch, ch1 := At(pat, p), At(pat, p + 1);
    if ch == 40 then
      |caps| < 10 && if ch1 == 41 then Means(src, s, pat, p + 2, caps + [Capture(s, POSITION)], e, c)
                     else Means(src, s, pat, p + 1, caps + [Capture(s, UNFINISHED)], e, c)
    else if ch == 41 then
      exists l :: Innermost(caps, l) && Means(src, s, pat, p + 1, caps[l := Capture(caps[l].init, s - caps[l].init)], e, c)
    else if ch == 37 && ch1 == 98 then
      exists b: nat :: Delimited(src, s, pat, p, b) && Means(src, b, pat, p + 4, caps, e, c)
    else if ch == 37 && ch1 == 102 then
      exists ep: nat :: AtFrontier(src, s, pat, p, ep) && Means(src, s, pat, ep, caps, e, c)
    else if ch == 37 && 48 <= ch1 <= 57 then
      var l := ch1 - 49;
      0 <= l < |caps| && caps[l].len != UNFINISHED && Again(src, s, caps[l]) && Means(src, s + caps[l].len, pat, p + 2, caps, e, c)
    else if ch == 0 then e == s && c == caps
    else if ch == 36 && ch1 == 0 then s == |src| && e == s && c == caps
    else
      exists x: nat, next: nat :: Takes(src, s, pat, p, x, next) && p < next && x <= |src| && Means(src, x, pat, next, caps, e, c)
  }

  // ---------------------------------------------------------------- the matcher finds what is meant

  lemma DelimitedIs(src: Text, s: nat, pat: Text, p: nat, b: nat)
    requires s <= |src|
    ensures Delimited(src, s, pat, p, b) <==>
            At(pat, p + 2) != 0 && At(pat, p + 3) != 0 && At(src, s) == At(pat, p + 2) && Balanced(src, s + 1, At(pat, p + 2), At(pat, p + 3), 1) == b
  {
    hide Balanced, OpenAfter;
    BalancedFirst(src, s + 1, At(pat, p + 2), At(pat, p + 3), 1);
    var r := Balanced(src, s + 1, At(pat, p + 2), At(pat, p + 3), 1);
    if Delimited(src, s, pat, p, b) { FirstOnly(src, s + 1, At(pat, p + 2), At(pat, p + 3), r, b); }
  }

  lemma FrontierIs(src: Text, s: nat, pat: Text, p: nat, ep: nat)
    requires s <= |src|
    ensures AtFrontier(src, s, pat, p, ep) <==>
            At(pat, p + 2) == '[' as int && ClassEnd(pat, p + 2) == End(ep) && !BracketClass(if s == 0 then 0 else src[s - 1], pat, p + 2, ep - 1) && BracketClass(At(src, s), pat, p + 2, ep - 1)
  {
    hide BracketClass, Spans, SetAdmits;
    if At(pat, p + 2) == '[' as int { SpansIs(pat, p + 2, ep); }
    if p + 2 < ep {
      SetIs(if s == 0 then 0 else src[s - 1], pat, p + 2, ep - 1);
      SetIs(At(src, s), pat, p + 2, ep - 1);
    }
  }

  lemma TakesIs(src: Text, s: nat, pat: Text, p: nat, x: nat, next: nat)
    requires At(pat, p) != 0
    ensures Takes(src, s, pat, p, x, next) <==>
            ClassEnd(pat, p).End? && var ep := ClassEnd(pat, p).ep;
            RunTo(src, s, x, pat, p, ep) && Allowed(RepeatOf(pat, ep), x - s) && next == RepeatOf(pat, ep).next
  {
    hide ClassEnd, Spans, RunTo, AllAdmitted, Allowed, RepeatOf, Repeats;
    forall ep: nat ensures Spans(pat, p, ep) <==> ClassEnd(pat, p) == End(ep) { SpansIs(pat, p, ep); }
    if ClassEnd(pat, p).End? {
      var ep := ClassEnd(pat, p).ep;
      AllAdmittedIs(src, s, x, pat, p, ep);
      RepeatsIs(pat, ep, x - s, next);
    }
  }

  lemma FirstOnly(src: Text, s: nat, x: int, y: int, r: int, b: nat)
    requires FirstBalance(src, s, x, y, 1, r) && FirstBalance(src, s, x, y, 1, b)
    ensures r == b
  {
    hide OpenAfter;
  }

  lemma AllAdmittedIs(src: Text, s: nat, x: nat, pat: Text, p: nat, ep: nat)
    requires ep > 0
    ensures RunTo(src, s, x, pat, p, ep) <==> AllAdmitted(src, s, x, pat, p, ep)
  {
    hide SingleMatch, Admits;
    forall k | s <= k < x <= |src| ensures SingleMatch(src[k], pat, p, ep) <==> Admits(pat, p, ep, src[k]) { AdmitsIs(src[k], pat, p, ep); }
  }

  lemma RepeatsIs(pat: Text, ep: nat, n: int, next: nat)
    ensures Repeats(pat, ep, n, next) <==> Allowed(RepeatOf(pat, ep), n) && next == RepeatOf(pat, ep).next
  {
  }

  lemma {:induction false} DerivesMeans(src: Text, s: nat, pat: Text, p: nat, caps: seq<Capture>, e: nat, c: seq<Capture>)
    requires s <= |src|
    ensures Derives(src, s, pat, p, caps, e, c) <==> Means(src, s, pat, p, caps, e, c)
    decreases if p <= |pat| then |pat| - p else 0, 1
  {
    hide SingleMatch, BracketClass, ClassEnd, Balanced, SameAgain, RunTo, Allowed, RepeatOf, AtFrontier, Delimited, Again, Takes;
    var ch := At(pat, p);
    if ch == '(' as int {
      if At(pat, p + 1) == ')' as int {
        DerivesMeans(src, s, pat, p + 2, caps + [Capture(s, POSITION)], e, c);
      } else {
        DerivesMeans(src, s, pat, p + 1, caps + [Capture(s, UNFINISHED)], e, c);
      }
    } else if ch == ')' as int {
      forall l | Innermost(caps, l)
        ensures Derives(src, s, pat, p + 1, caps[l := Capture(caps[l].init, s - caps[l].init)], e, c)
                <==> Means(src, s, pat, p + 1, caps[l := Capture(caps[l].init, s - caps[l].init)], e, c) {
        DerivesMeans(src, s, pat, p + 1, caps[l := Capture(caps[l].init, s - caps[l].init)], e, c);
      }
    } else if ch == ESC && At(pat, p + 1) == 'b' as int {
      BalanceMeans(src, s, pat, p, caps, e, c);
    } else if ch == ESC && At(pat, p + 1) == 'f' as int {
      FrontierMeans(src, s, pat, p, caps, e, c);
    } else if ch == ESC && IsDigit(At(pat, p + 1)) {
      var l := At(pat, p + 1) - '1' as int;
      if 0 <= l < |caps| && caps[l].len != UNFINISHED {
        AgainIs(src, s, caps[l]);
        if SameAgain(src, s, caps[l]) {
          AgainFits(src, s, caps[l]);
          DerivesMeans(src, s + caps[l].len, pat, p + 2, caps, e, c);
        }
      }
    } else if ch != 0 && !(ch == '$' as int && At(pat, p + 1) == 0) {
      ItemMeans(src, s, pat, p, caps, e, c);
    }
  }

  lemma {:induction false} BalanceMeans(src: Text, s: nat, pat: Text, p: nat, caps: seq<Capture>, e: nat, c: seq<Capture>)
    requires s <= |src| && At(pat, p) == ESC && At(pat, p + 1) == 'b' as int
    ensures Derives(src, s, pat, p, caps, e, c) <==> Means(src, s, pat, p, caps, e, c)
    decreases if p <= |pat| then |pat| - p else 0, 0
  {
    hide Balanced, Delimited;
    var r := Balanced(src, s + 1, At(pat, p + 2), At(pat, p + 3), 1);
    forall b: nat ensures Delimited(src, s, pat, p, b) <==>
                          At(pat, p + 2) != 0 && At(pat, p + 3) != 0 && At(src, s) == At(pat, p + 2) && r == b {
      DelimitedIs(src, s, pat, p, b);
    }
    if r >= 0 {
      DerivesMeans(src, r, pat, p + 4, caps, e, c);
      if Derives(src, s, pat, p, caps, e, c) { assert Delimited(src, s, pat, p, r); }
    }
  }

  lemma {:induction false} FrontierMeans(src: Text, s: nat, pat: Text, p: nat, caps: seq<Capture>, e: nat, c: seq<Capture>)
    requires s <= |src| && At(pat, p) == ESC && At(pat, p + 1) == 'f' as int
    ensures Derives(src, s, pat, p, caps, e, c) <==> Means(src, s, pat, p, caps, e, c)
    decreases if p <= |pat| then |pat| - p else 0, 0
  {
    hide BracketClass, ClassEnd, AtFrontier;
    forall ep: nat ensures AtFrontier(src, s, pat, p, ep) <==>
      At(pat, p + 2) == '[' as int && ClassEnd(pat, p + 2) == End(ep) && !BracketClass(if s == 0 then 0 else src[s - 1], pat, p + 2, ep - 1) && BracketClass(At(src, s), pat, p + 2, ep - 1) {
      FrontierIs(src, s, pat, p, ep);
    }
    if At(pat, p + 2) == '[' as int && ClassEnd(pat, p + 2).End? { DerivesMeans(src, s, pat, ClassEnd(pat, p + 2).ep, caps, e, c); }
  }

  lemma {:induction false} ItemMeans(src: Text, s: nat, pat: Text, p: nat, caps: seq<Capture>, e: nat, c: seq<Capture>)
    requires s <= |src| && At(pat, p) !in {0, 40, 41} && !(At(pat, p) == 36 && At(pat, p + 1) == 0)
    requires !(At(pat, p) == 37 && (At(pat, p + 1) == 98 || At(pat, p + 1) == 102 || 48 <= At(pat, p + 1) <= 57))
    ensures Derives(src, s, pat, p, caps, e, c) <==> Means(src, s, pat, p, caps, e, c)
    decreases if p <= |pat| then |pat| - p else 0, 0
  {
    hide ClassEnd, Takes, RunTo, Allowed, RepeatOf;
    forall x: nat, next: nat
      ensures Takes(src, s, pat, p, x, next) <==>
              ClassEnd(pat, p).End? && var ep := ClassEnd(pat, p).ep;
              RunTo(src, s, x, pat, p, ep) && Allowed(RepeatOf(pat, ep), x - s) && next == RepeatOf(pat, ep).next {
      TakesIs(src, s, pat, p, x, next);
    }
    if ClassEnd(pat, p).End? {
      var ep := ClassEnd(pat, p).ep;
      var q := RepeatOf(pat, ep).next;
      NextBehind(pat, ep);
      forall x: nat | s <= x <= |src| ensures Derives(src, x, pat, q, caps, e, c) <==> Means(src, x, pat, q, caps, e, c) {
        DerivesMeans(src, x, pat, q, caps, e, c);
      }
      if Derives(src, s, pat, p, caps, e, c) {
        var x: nat :| s <= x <= |src| && RunTo(src, s, x, pat, p, ep) && Allowed(RepeatOf(pat, ep), x - s) && Derives(src, x, pat, q, caps, e, c);
        assert Takes(src, s, pat, p, x, q);
      }
      if Means(src, s, pat, p, caps, e, c) {
        var x: nat, next: nat :| Takes(src, s, pat, p, x, next) && p < next && x <= |src| && Means(src, x, pat, next, caps, e, c);
        assert next == q;
        RunFits(src, s, x, pat, p, ep);
      }
    }
  }

  lemma NextBehind(pat: Text, ep: nat)
    ensures RepeatOf(pat, ep).next >= ep
  {
  }
}

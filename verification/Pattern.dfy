/** The meaning of Lua patterns: every way to match, in the order in which the matcher tries them. */
module Pattern {

  type Byte = x: int | 0 <= x < 256

  type Text = seq<Byte>

  const ESC := '%' as int

  const MAXCAPTURES := 10

  const UNFINISHED := -1

  const POSITION := -2

  datatype Capture = Capture(init: nat, len: int)

  datatype Problem =
    | InvalidCaptureIndex
    | InvalidPatternCapture
    | EndsWithPercent
    | MissingBracket
    | UnbalancedPattern
    | MissingSetAfterFrontier
    | TooManyCaptures

  /** A way to match, with its end and its captures; or an error raised on the way. */
  datatype Outcome = Matched(end: nat, caps: seq<Capture>) | Raised(problem: Problem)

  /** Strings end with a zero byte. */
  function At(t: Text, i: nat): int { if i < |t| then t[i] else 0 }

  // ---------------------------------------------------------------- single characters (C locale)

  predicate IsUpper(c: int) { 'A' as int <= c <= 'Z' as int }

  predicate IsLower(c: int) { 'a' as int <= c <= 'z' as int }

  predicate IsDigit(c: int) { '0' as int <= c <= '9' as int }

  predicate IsAlnum(c: int) { IsUpper(c) || IsLower(c) || IsDigit(c) }

  function ToLower(c: int): int { if IsUpper(c) then c + 32 else c }

  function ClassHas(letter: int, c: int): (r: (bool, bool))
  {
    if letter == 'a' as int then (true, IsUpper(c) || IsLower(c))
    else if letter == 'c' as int then (true, 0 <= c < 32 || c == 127)
    else if letter == 'd' as int then (true, IsDigit(c))
    else if letter == 'l' as int then (true, IsLower(c))
    else if letter == 'p' as int then (true, 33 <= c <= 126 && !IsAlnum(c))
    else if letter == 's' as int then (true, 9 <= c <= 13 || c == 32)
    else if letter == 'u' as int then (true, IsUpper(c))
    else if letter == 'w' as int then (true, IsAlnum(c))
    else if letter == 'x' as int then (true, IsDigit(c) || 'a' as int <= ToLower(c) <= 'f' as int)
    else if letter == 'z' as int then (true, c == 0)
    else (false, false)
  }

  /** match_class: an upper-case letter is the complement of its class; others match themselves. */
  predicate MatchClass(c: int, cl: int) {
    var (known, has) := ClassHas(ToLower(cl), c);
    if known then (IsLower(cl) <==> has) else cl == c
  }

  // ---------------------------------------------------------------- pattern items

  datatype ItemEnd = End(ep: nat) | Bad(problem: Problem)

  /** classend: where the single-character item at p ends. */
  function ClassEnd(pat: Text, p: nat): (r: ItemEnd)
    requires At(pat, p) != 0
    ensures r.End? ==> p < r.ep <= |pat|
  {
    if At(pat, p) == ESC then
      if At(pat, p + 1) == 0 then Bad(EndsWithPercent) else End(p + 2)
    else if At(pat, p) == '[' as int then
      SetEnd(pat, if At(pat, p + 1) == '^' as int then p + 2 else p + 1)
    else
      End(p + 1)
  }

  function AfterSetItem(pat: Text, q: nat): nat {
    if At(pat, q) == ESC && At(pat, q + 1) != 0 then q + 2 else q + 1
  }

  /** After the closing bracket of a set; the first item of a set may be a bracket. */
  function SetEnd(pat: Text, q: nat): (r: ItemEnd)
    ensures r.End? ==> q < r.ep <= |pat|
    decreases if q <= |pat| then |pat| - q else 0
  {
    if At(pat, q) == 0 then Bad(MissingBracket)
    else
      var q' := AfterSetItem(pat, q);
      if At(pat, q') == ']' as int then End(q' + 1) else SetEnd(pat, q')
  }

  /** The items of a set between q and its closing bracket at ec have c. */
  predicate SetHas(c: int, pat: Text, q: nat, ec: nat)
    decreases if q <= ec then ec - q else 0
  {
    if q + 1 >= ec then false
    else if At(pat, q + 1) == ESC then MatchClass(c, At(pat, q + 2)) || SetHas(c, pat, q + 2, ec)
    else if At(pat, q + 2) == '-' as int && q + 3 < ec then
      At(pat, q + 1) <= c <= At(pat, q + 3) || SetHas(c, pat, q + 3, ec)
    else At(pat, q + 1) == c || SetHas(c, pat, q + 1, ec)
  }

  /** matchbracketclass. */
  predicate BracketClass(c: int, pat: Text, p: nat, ec: nat) {
    if At(pat, p + 1) == '^' as int then !SetHas(c, pat, p + 1, ec) else SetHas(c, pat, p, ec)
  }

  /** singlematch. */
  predicate SingleMatch(c: int, pat: Text, p: nat, ep: nat)
    requires ep > 0
  {
    if At(pat, p) == '.' as int then true
    else if At(pat, p) == ESC then MatchClass(c, At(pat, p + 1))
    else if At(pat, p) == '[' as int then BracketClass(c, pat, p, ep - 1)
    else At(pat, p) == c
  }

  predicate Here(src: Text, s: nat, pat: Text, p: nat, ep: nat)
    requires ep > 0
  {
    s < |src| && SingleMatch(src[s], pat, p, ep)
  }

  /** How many characters from s on match the item. */
  function RunLength(src: Text, s: nat, pat: Text, p: nat, ep: nat): (n: nat)
    requires ep > 0
    ensures s <= |src| ==> s + n <= |src|
    decreases |src| - s
  {
    if Here(src, s, pat, p, ep) then 1 + RunLength(src, s + 1, pat, p, ep) else 0
  }

  // ---------------------------------------------------------------- other steps

  /** matchbalance after its first character: cont delimiters are open before s. */
  function Balanced(src: Text, s: nat, b: int, e: int, cont: nat): (r: int)
    ensures r == -1 || s < r <= |src|
    decreases |src| - s
  {
    if s >= |src| then -1
    else if src[s] == e then
      if cont <= 1 then s + 1 else Balanced(src, s + 1, b, e, cont - 1)
    else if src[s] == b then Balanced(src, s + 1, b, e, cont + 1)
    else Balanced(src, s + 1, b, e, cont)
  }

  function Count(src: Text, i: nat, j: nat, c: int): nat
    requires j <= |src|
    decreases j - i
  {
    if i >= j then 0 else (if src[i] == c then 1 else 0) + Count(src, i + 1, j, c)
  }

  /** The delimiters left open by the text from i to j, if cont were open before; when both
      delimiters are the same, each one closes. */
  function OpenAfter(src: Text, i: nat, j: nat, b: int, e: int, cont: nat): int
    requires j <= |src|
  {
    cont + (if b == e then 0 else Count(src, i, j, b)) - Count(src, i, j, e)
  }

  /** r is the first position at which all that was opened is closed; -1 if there is none. */
  ghost predicate FirstBalance(src: Text, s: nat, b: int, e: int, cont: nat, r: int) {
    if r == -1 then forall j :: s <= j <= |src| ==> OpenAfter(src, s, j, b, e, cont) > 0
    else s <= r <= |src| && OpenAfter(src, s, r, b, e, cont) == 0 && forall j :: s <= j < r ==> OpenAfter(src, s, j, b, e, cont) > 0
  }

  lemma {:induction false} BalancedFirst(src: Text, s: nat, b: int, e: int, cont: nat)
    requires cont > 0
    ensures FirstBalance(src, s, b, e, cont, Balanced(src, s, b, e, cont))
    decreases |src| - s
  {
    if s < |src| {
      var cont' := if src[s] == e then cont - 1 else if src[s] == b then cont + 1 else cont;
      forall j | s < j <= |src| ensures OpenAfter(src, s, j, b, e, cont) == OpenAfter(src, s + 1, j, b, e, cont') {}
      assert OpenAfter(src, s, s, b, e, cont) == cont;
      if cont' == 0 {
        assert OpenAfter(src, s, s + 1, b, e, cont) == 0;
      } else {
        BalancedFirst(src, s + 1, b, e, cont');
      }
    }
  }

  /** capture_to_close: the last unfinished capture. */
  function ToClose(caps: seq<Capture>): (l: int)
    ensures -1 <= l < |caps|
    ensures l >= 0 ==> caps[l].len == UNFINISHED
    ensures forall i :: l < i < |caps| ==> caps[i].len != UNFINISHED
  {
    if caps == [] then -1
    else if caps[|caps| - 1].len == UNFINISHED then |caps| - 1
    else ToClose(caps[..|caps| - 1])
  }

  /** match_capture for capture l: the same text again; a position capture never matches. */
  predicate SameAgain(src: Text, s: nat, c: Capture) {
    0 <= c.len && s + c.len <= |src| && c.init + c.len <= |src| && src[c.init..c.init + c.len] == src[s..s + c.len]
  }

  // ---------------------------------------------------------------- all parses

  /** Captures made before s lie before s. */
  ghost predicate Sound(caps: seq<Capture>, s: nat) {
    forall i :: 0 <= i < |caps| ==> caps[i].init <= s && (caps[i].len >= 0 ==> caps[i].init + caps[i].len <= s) && caps[i].len >= POSITION
  }

  /** Every outcome of matching pat from p on against src from s on, in the order of the search. */
  function Parses(src: Text, s: nat, pat: Text, p: nat, caps: seq<Capture>): seq<Outcome>
    requires s <= |src|
    decreases if p <= |pat| then |pat| - p else 0, 1, 0
  {
    var c := At(pat, p);
    if c == '(' as int then
      if |caps| >= MAXCAPTURES then [Raised(TooManyCaptures)]
      else if At(pat, p + 1) == ')' as int then Parses(src, s, pat, p + 2, caps + [Capture(s, POSITION)])
      else Parses(src, s, pat, p + 1, caps + [Capture(s, UNFINISHED)])
    else if c == ')' as int then
      var l := ToClose(caps);
      if l < 0 then [Raised(InvalidPatternCapture)]
      else Parses(src, s, pat, p + 1, caps[l := Capture(caps[l].init, s - caps[l].init)])
    else if c == ESC && At(pat, p + 1) == 'b' as int then
      if At(pat, p + 2) == 0 || At(pat, p + 3) == 0 then [Raised(UnbalancedPattern)]
      else if At(src, s) != At(pat, p + 2) then []
      else
        var e := Balanced(src, s + 1, At(pat, p + 2), At(pat, p + 3), 1);
        if e < 0 then [] else Parses(src, e, pat, p + 4, caps)
    else if c == ESC && At(pat, p + 1) == 'f' as int then
      FrontierParses(src, s, pat, p + 2, caps)
    else if c == ESC && IsDigit(At(pat, p + 1)) then
      var l := At(pat, p + 1) - '1' as int;
      if l < 0 || l >= |caps| || caps[l].len == UNFINISHED then [Raised(InvalidCaptureIndex)]
      else if SameAgain(src, s, caps[l]) then Parses(src, s + caps[l].len, pat, p + 2, caps)
      else []
    else if c == 0 then [Matched(s, caps)]
    else if c == '$' as int && At(pat, p + 1) == 0 then (if s == |src| then [Matched(s, caps)] else [])
    else ItemParses(src, s, pat, p, caps)
  }

  /** A frontier: the set at p has the character here and not the one before. */
  function FrontierParses(src: Text, s: nat, pat: Text, p: nat, caps: seq<Capture>): seq<Outcome>
    requires s <= |src|
    decreases if p <= |pat| then |pat| - p else 0, 2, 0
  {
    if At(pat, p) != '[' as int then [Raised(MissingSetAfterFrontier)]
    else
      match ClassEnd(pat, p)
      case Bad(e) => [Raised(e)]
      case End(ep) =>
        if BracketClass(if s == 0 then 0 else src[s - 1], pat, p, ep - 1) || !BracketClass(At(src, s), pat, p, ep - 1) then []
        else Parses(src, s, pat, ep, caps)
  }

  /** The default case: a single-character item with what follows it. */
  function ItemParses(src: Text, s: nat, pat: Text, p: nat, caps: seq<Capture>): seq<Outcome>
    requires s <= |src| && At(pat, p) != 0
    decreases if p <= |pat| then |pat| - p else 0, 0, 1
  {
    match ClassEnd(pat, p)
    case Bad(e) => [Raised(e)]
    case End(ep) =>
      var m := Here(src, s, pat, p, ep);
      var c := At(pat, ep);
      if c == '?' as int then (if m then Parses(src, s + 1, pat, ep + 1, caps) else []) + Parses(src, s, pat, ep + 1, caps)
      else if c == '*' as int then MostFirst(src, s, RunLength(src, s, pat, p, ep), pat, ep + 1, caps)
      else if c == '+' as int then (if m then MostFirst(src, s + 1, RunLength(src, s + 1, pat, p, ep), pat, ep + 1, caps) else [])
      else if c == '-' as int then FewestFirst(src, s, RunLength(src, s, pat, p, ep), pat, ep + 1, caps)
      else if m then Parses(src, s + 1, pat, ep, caps)
      else []
  }

  /** Greedy: n repetitions, then n - 1, down to none. */
  function MostFirst(src: Text, s: nat, n: nat, pat: Text, q: nat, caps: seq<Capture>): seq<Outcome>
    requires s + n <= |src|
    decreases if q <= |pat| then |pat| - q else 0, 2, n
  {
    Parses(src, s + n, pat, q, caps) + (if n == 0 then [] else MostFirst(src, s, n - 1, pat, q, caps))
  }

  /** Lazy: no repetition, then one, up to n. */
  function FewestFirst(src: Text, s: nat, n: nat, pat: Text, q: nat, caps: seq<Capture>): seq<Outcome>
    requires s + n <= |src|
    decreases if q <= |pat| then |pat| - q else 0, 2, n
  {
    Parses(src, s, pat, q, caps) + (if n == 0 then [] else FewestFirst(src, s + 1, n - 1, pat, q, caps))
  }
}

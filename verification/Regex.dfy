/**
 The fragment of Python's `re` that the syslog parser uses, with its backtracking semantics:
 bounded greedy runs of one character class, the lazy run `.*?`, a two-way lookahead and `$`.
 A match is a `Path`: the position reached after each step of the pattern.
 */
module Regex {
  import opened Text

  datatype Bound = Most(n: nat) | Many

  datatype Re =
    | Done
    | Greedy(p: char -> bool, lo: nat, hi: Bound, next: Re)
    | Lazy(p: char -> bool, next: Re)
    | Ahead(left: Re, right: Re, next: Re)
    | End(next: Re)

  datatype Path = Stop | Step(pos: nat, rest: Path)

  /** `$`: at the end, or before a final newline. */
  predicate AtEnd(s: string, i: nat) {
    i == |s| || (i + 1 == |s| && s[i] == '\n')
  }

  predicate Within(n: nat, hi: Bound) {
    hi.Many? || n <= hi.n
  }

  /** The span `s[i..e]` is a run of `p`. */
  predicate Run(p: char -> bool, s: string, i: nat, e: nat) {
    i <= e <= |s| && forall k :: i <= k < e ==> p(s[k])
  }

  /** The farthest a run of `p` from `i` can reach. */
  function RunEnd(p: char -> bool, s: string, i: nat, hi: Bound): (e: nat)
    requires i <= |s|
    ensures Run(p, s, i, e) && Within(e - i, hi)
    ensures e < |s| && Within(e - i + 1, hi) ==> !p(s[e])
    decreases |s| - i
  {
    if i < |s| && Within(1, hi) && p(s[i]) then
      RunEnd(p, s, i + 1, if hi.Many? then Many else Most(hi.n - 1))
    else i
  }

  // ---- The backtracking search ----

  /** The first match the engine finds for `re` at position `i`. */
  function First(re: Re, s: string, i: nat): Option<Path>
    requires i <= |s|
    decreases re, 0, 0
  {
    match re
    case Done => Some(Stop)
    case Greedy(p, lo, hi, next) =>
      var e := RunEnd(p, s, i, hi);
      if i + lo <= e then Down(next, s, i + lo, e) else None
    case Lazy(p, next) => Up(next, s, i, RunEnd(p, s, i, Many))
    case Ahead(left, right, next) =>
      if First(left, s, i).Some? || First(right, s, i).Some? then Then(i, First(next, s, i)) else None
    case End(next) => if AtEnd(s, i) then Then(i, First(next, s, i)) else None
  }

  function Then(pos: nat, r: Option<Path>): Option<Path> {
    if r.Some? then Some(Step(pos, r.value)) else None
  }

  /** Tries `next` at `e`, `e - 1`, ..., `low`. */
  function Down(next: Re, s: string, low: nat, e: nat): Option<Path>
    requires low <= e <= |s|
    decreases next, 1, e - low
  {
    var r := First(next, s, e);
    if r.Some? then Some(Step(e, r.value))
    else if e == low then None
    else Down(next, s, low, e - 1)
  }

  /** Tries `next` at `i`, `i + 1`, ..., `high`. */
  function Up(next: Re, s: string, i: nat, high: nat): Option<Path>
    requires i <= high <= |s|
    decreases next, 1, high - i
  {
    var r := First(next, s, i);
    if r.Some? then Some(Step(i, r.value))
    else if i == high then None
    else Up(next, s, i + 1, high)
  }

  // ---- What a match is, without the search ----

  ghost predicate Fits(re: Re, s: string, i: nat, path: Path)
    requires i <= |s|
  {
    match re
    case Done => path == Stop
    case Greedy(p, lo, hi, next) =>
      path.Step? && i + lo <= path.pos && Run(p, s, i, path.pos) && Within(path.pos - i, hi)
      && Fits(next, s, path.pos, path.rest)
    case Lazy(p, next) =>
      path.Step? && Run(p, s, i, path.pos) && Fits(next, s, path.pos, path.rest)
    case Ahead(left, right, next) =>
      path.Step? && path.pos == i && (Matches(left, s, i) || Matches(right, s, i)) && Fits(next, s, i, path.rest)
    case End(next) =>
      path.Step? && path.pos == i && AtEnd(s, i) && Fits(next, s, i, path.rest)
  }

  ghost predicate Matches(re: Re, s: string, i: nat)
    requires i <= |s|
  {
    exists path :: Fits(re, s, i, path)
  }

  /** `a` is `b` or comes before it: at the first difference a greedy run is longer, a lazy one shorter. */
  predicate Preferred(re: Re, a: Path, b: Path)
    decreases re
  {
    match re
    case Done => true
    case Greedy(_, _, _, next) =>
      a.Step? && b.Step? && (a.pos > b.pos || (a.pos == b.pos && Preferred(next, a.rest, b.rest)))
    case Lazy(_, next) =>
      a.Step? && b.Step? && (a.pos < b.pos || (a.pos == b.pos && Preferred(next, a.rest, b.rest)))
    case Ahead(_, _, next) => a.Step? && b.Step? && Preferred(next, a.rest, b.rest)
    case End(next) => a.Step? && b.Step? && Preferred(next, a.rest, b.rest)
  }

  // ---- The search finds exactly the most preferred match ----

  lemma {:induction false} DownIsBest(next: Re, s: string, low: nat, e: nat, q: nat, path: Path)
    requires low <= e <= |s|
    ensures Down(next, s, low, e).Some? ==>
              var r := Down(next, s, low, e).value;
              r.Step? && low <= r.pos <= e && First(next, s, r.pos) == Some(r.rest)
    ensures low <= q <= e && Fits(next, s, q, path) ==>
              Down(next, s, low, e).Some?
              && Preferred(Greedy(NotNewline, 0, Many, next), Down(next, s, low, e).value, Step(q, path))
    decreases next, 2, e - low
  {
    FirstIsBest(next, s, e, path);
    if First(next, s, e).None? && e != low {
      DownIsBest(next, s, low, e - 1, q, path);
    }
  }

  lemma {:induction false} UpIsBest(next: Re, s: string, i: nat, high: nat, q: nat, path: Path)
    requires i <= high <= |s|
    ensures Up(next, s, i, high).Some? ==>
              var r := Up(next, s, i, high).value;
              r.Step? && i <= r.pos <= high && First(next, s, r.pos) == Some(r.rest)
    ensures i <= q <= high && Fits(next, s, q, path) ==>
              Up(next, s, i, high).Some? && Preferred(Lazy(NotNewline, next), Up(next, s, i, high).value, Step(q, path))
    decreases next, 2, high - i
  {
    FirstIsBest(next, s, i, path);
    if First(next, s, i).None? && i != high {
      UpIsBest(next, s, i + 1, high, q, path);
    }
  }

  /** Soundness, completeness and priority of the backtracking search. */
  lemma {:induction false} FirstIsBest(re: Re, s: string, i: nat, path: Path)
    requires i <= |s|
    ensures First(re, s, i).Some? ==> Fits(re, s, i, First(re, s, i).value)
    ensures Fits(re, s, i, path) ==> First(re, s, i).Some? && Preferred(re, First(re, s, i).value, path)
    decreases re, 1, 0
  {
    match re
    case Done =>
    case Greedy(_, _, _, _) => GreedyIsBest(re, s, i, path);
    case Lazy(_, _) => LazyIsBest(re, s, i, path);
    case Ahead(left, right, next) =>
      FirstMatches(left, s, i);
      FirstMatches(right, s, i);
      FirstIsBest(next, s, i, if path.Step? then path.rest else Stop);
    case End(next) =>
      FirstIsBest(next, s, i, if path.Step? then path.rest else Stop);
  }

  lemma {:induction false} GreedyIsBest(re: Re, s: string, i: nat, path: Path)
    requires i <= |s| && re.Greedy?
    ensures First(re, s, i).Some? ==> Fits(re, s, i, First(re, s, i).value)
    ensures Fits(re, s, i, path) ==> First(re, s, i).Some? && Preferred(re, First(re, s, i).value, path)
    decreases re, 0, 0
  {
    var e := RunEnd(re.p, s, i, re.hi);
    if i + re.lo <= e {
      var (q, rest) := if path.Step? then (path.pos, path.rest) else (0, Stop);
      DownIsBest(re.next, s, i + re.lo, e, q, rest);
      var r := Down(re.next, s, i + re.lo, e);
      if r.Some? {
        FirstIsBest(re.next, s, r.value.pos, Stop);
      }
    }
  }

  lemma {:induction false} LazyIsBest(re: Re, s: string, i: nat, path: Path)
    requires i <= |s| && re.Lazy?
    ensures First(re, s, i).Some? ==> Fits(re, s, i, First(re, s, i).value)
    ensures Fits(re, s, i, path) ==> First(re, s, i).Some? && Preferred(re, First(re, s, i).value, path)
    decreases re, 0, 0
  {
    var e := RunEnd(re.p, s, i, Many);
    var (q, rest) := if path.Step? then (path.pos, path.rest) else (0, Stop);
    UpIsBest(re.next, s, i, e, q, rest);
    var r := Up(re.next, s, i, e);
    if r.Some? {
      FirstIsBest(re.next, s, r.value.pos, Stop);
    }
  }

  lemma {:induction false} FirstMatches(re: Re, s: string, i: nat)
    requires i <= |s|
    ensures First(re, s, i).Some? <==> Matches(re, s, i)
    decreases re, 3, 0
  {
    FirstIsBest(re, s, i, Stop);
    forall path | Fits(re, s, i, path)
      ensures First(re, s, i).Some?
    {
      FirstIsBest(re, s, i, path);
    }
  }

  /** `$` matches at the end of the text and before a newline that ends it. */
  lemma {:induction false} DollarIs(s: string, i: nat)
    requires i <= |s|
    ensures First(End(Done), s, i).Some? <==> i == |s| || s[i..] == "\n"
  {
  }
}

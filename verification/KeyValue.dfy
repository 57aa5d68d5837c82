/** The unquoted `key=value` tokenizer of the syslog parser: `dict(KV_RE.findall(rest))`. */
module KeyValue {
  import opened Text
  import opened Regex

  /** `(\w+)=(.*?)(?=\s\w+=|$)` */
  const KV_RE: Re := Greedy(IsWord, 1, Many, KV_EQUALS)
  const KV_EQUALS: Re := Greedy(IsEquals, 1, Most(1), KV_VALUE)
  const KV_VALUE: Re := Lazy(NotNewline, KV_STOP)
  const KV_STOP: Re := Ahead(NEXT_KEY, End(Done), Done)
  const NEXT_KEY: Re := Greedy(IsSpace, 1, Most(1), NEXT_WORD)
  const NEXT_WORD: Re := Greedy(IsWord, 1, Many, NEXT_EQUALS)
  const NEXT_EQUALS: Re := Greedy(IsEquals, 1, Most(1), Done)

  /** One match: the key is `s[start..keyEnd]`, the value `s[keyEnd + 1..end]`. */
  datatype Token = Token(start: nat, keyEnd: nat, end: nat) {
    predicate In(s: string) {
      start < keyEnd < end <= |s|
    }

    function Pair(s: string): (string, string)
      requires In(s)
    {
      (s[start..keyEnd], s[keyEnd + 1..end])
    }
  }

  // ---- The meaning of the pattern, without the engine ----

  predicate Key(s: string, i: nat, j: nat) {
    i < j < |s| && Run(IsWord, s, i, j) && s[j] == '='
  }

  ghost predicate HasKey(s: string, i: nat) {
    exists j: nat :: Key(s, i, j)
  }

  /** A value may stop here: the text ends, or whitespace and another key follow. */
  ghost predicate Boundary(s: string, e: nat)
    requires e <= |s|
  {
    e == |s| || (IsSpace(s[e]) && HasKey(s, e + 1))
  }

  /** `m` is the leftmost key from `from` on, with the shortest value. */
  ghost predicate NextToken(s: string, from: nat, m: Token) {
    && from <= m.start && m.In(s) && Key(s, m.start, m.keyEnd)
    && NoKeyIn(s, from, m.start)
    && ShortestValue(s, m.keyEnd + 1, m.end)
  }

  ghost predicate NoKeyIn(s: string, from: nat, to: nat) {
    forall i :: from <= i < to ==> !HasKey(s, i)
  }

  ghost predicate ShortestValue(s: string, a: nat, e: nat) {
    a <= e <= |s| && Boundary(s, e) && NoBoundaryIn(s, a, e)
  }

  ghost predicate NoBoundaryIn(s: string, a: nat, e: nat)
    requires e <= |s|
  {
    forall x :: a <= x < e ==> !Boundary(s, x)
  }

  /** `ms` reads `s` from `from` on: each time the leftmost key, then the shortest value. */
  ghost predicate Tokenization(s: string, from: nat, ms: seq<Token>)
    decreases |ms|
  {
    if ms == [] then
      NoKeyIn(s, from, |s|)
    else
      var m := ms[0];
      NextToken(s, from, m) && Tokenization(s, m.end, ms[1..])
  }

  // ---- What the source computes: findall with the regex engine ----

  /** `re.search` from `from` on: the leftmost start with a match. */
  function Search(s: string, from: nat): (r: Option<Token>)
    requires from <= |s|
    ensures r.Some? ==> from <= r.value.start && r.value.In(s)
    decreases |s| - from
  {
    var r := First(KV_RE, s, from);
    if r.Some? then
      var path := r.value;
      KvProgress(s, from);
      Some(Token(from, path.pos, path.rest.rest.pos))
    else if from == |s| then None
    else Search(s, from + 1)
  }

  /** A match is never empty: it holds a key and `=`. */
  lemma {:induction false} KvProgress(s: string, i: nat)
    requires i <= |s| && First(KV_RE, s, i).Some?
    ensures var path := First(KV_RE, s, i).value;
            && path.Step? && path.rest.Step? && path.rest.rest.Step?
            && i < path.pos < path.rest.rest.pos <= |s|
  {
    FirstIsBest(KV_RE, s, i, Stop);
    var path := First(KV_RE, s, i).value;
    assert Fits(KV_EQUALS, s, path.pos, path.rest);
    assert Fits(KV_VALUE, s, path.rest.pos, path.rest.rest);
  }

  function FindAll(s: string, from: nat): (ms: seq<Token>)
    requires from <= |s|
    ensures forall k :: 0 <= k < |ms| ==> ms[k].In(s)
    decreases |s| - from
  {
    var r := Search(s, from);
    if r.None? then [] else [r.value] + FindAll(s, r.value.end)
  }

  function Pairs(s: string, ms: seq<Token>): (ps: seq<(string, string)>)
    requires forall k :: 0 <= k < |ms| ==> ms[k].In(s)
    ensures |ps| == |ms| && forall k :: 0 <= k < |ms| ==> ps[k] == ms[k].Pair(s)
  {
    if ms == [] then [] else [ms[0].Pair(s)] + Pairs(s, ms[1..])
  }

  function FindPairs(s: string): seq<(string, string)> {
    Pairs(s, FindAll(s, 0))
  }

  /** `dict(pairs)`: a repeated key keeps its last value. */
  function ToDict(pairs: seq<(string, string)>): map<string, string> {
    if pairs == [] then map[] else ToDict(pairs[..|pairs| - 1])[pairs[|pairs| - 1].0 := pairs[|pairs| - 1].1]
  }

  function ParseKv(s: string): map<string, string> {
    ToDict(FindPairs(s))
  }

  // ---- The engine on KV_RE means Tokenization ----

  lemma {:induction false} KeyIsUnique(s: string, i: nat, j: nat, k: nat)
    requires Key(s, i, j) && Key(s, i, k)
    ensures j == k
  {
  }

  lemma {:induction false} OneChar(p: char -> bool, s: string, i: nat, e: nat)
    requires i <= |s|
    ensures i + 1 <= e && Run(p, s, i, e) && Within(e - i, Most(1)) <==> i < |s| && e == i + 1 && p(s[i])
  {
    if i < |s| {
      assert s[i..i + 1] == [s[i]];
    }
  }

  lemma {:induction false} NextKeyMatches(s: string, e: nat)
    requires e <= |s|
    ensures Matches(NEXT_KEY, s, e) <==> e < |s| && IsSpace(s[e]) && HasKey(s, e + 1)
  {
    forall path | Fits(NEXT_KEY, s, e, path)
      ensures e < |s| && IsSpace(s[e]) && HasKey(s, e + 1)
    {
      OneChar(IsSpace, s, e, path.pos);
      assert Fits(NEXT_WORD, s, path.pos, path.rest);
      assert Fits(NEXT_EQUALS, s, path.rest.pos, path.rest.rest);
      OneChar(IsEquals, s, path.rest.pos, path.rest.rest.pos);
      assert Key(s, e + 1, path.rest.pos);
    }
    if e < |s| && IsSpace(s[e]) && HasKey(s, e + 1) {
      var j: nat :| Key(s, e + 1, j);
      OneChar(IsSpace, s, e, e + 1);
      OneChar(IsEquals, s, j, j + 1);
      var toEquals := Step(j, Step(j + 1, Stop));
      assert Fits(NEXT_EQUALS, s, j, toEquals.rest);
      assert Fits(NEXT_WORD, s, e + 1, toEquals);
      assert Fits(NEXT_KEY, s, e, Step(e + 1, toEquals));
    }
  }

  lemma {:induction false} EndMatches(s: string, e: nat)
    requires e <= |s| && All(NotNewline, s)
    ensures Matches(End(Done), s, e) <==> e == |s|
  {
    if e == |s| {
      assert Fits(End(Done), s, e, Step(e, Stop));
    }
  }

  /** The paths of KV_RE on newline-free text: a key, and a value that stops at any boundary. */
  lemma {:induction false} KvFits(s: string, i: nat, path: Path)
    requires i <= |s| && All(NotNewline, s)
    ensures Fits(KV_RE, s, i, path) <==>
            exists j: nat, e: nat ::
              && Key(s, i, j) && j < e <= |s| && Boundary(s, e)
              && path == Step(j, Step(j + 1, Step(e, Step(e, Stop))))
  {
    if Fits(KV_RE, s, i, path) {
      var j := path.pos;
      assert Fits(KV_EQUALS, s, j, path.rest);
      OneChar(IsEquals, s, j, path.rest.pos);
      assert Key(s, i, j);
      var value := path.rest.rest;
      assert Fits(KV_VALUE, s, j + 1, value);
      var e := value.pos;
      assert Fits(KV_STOP, s, e, value.rest);
      assert Fits(Done, s, e, value.rest.rest);
      NextKeyMatches(s, e);
      EndMatches(s, e);
      assert value.rest == Step(e, Stop) && value == Step(e, value.rest);
      assert path.rest == Step(j + 1, value) && path == Step(j, path.rest);
      assert path == Step(j, Step(j + 1, Step(e, Step(e, Stop))));
    }
    forall j: nat, e: nat | Key(s, i, j) && j < e <= |s| && Boundary(s, e)
                            && path == Step(j, Step(j + 1, Step(e, Step(e, Stop))))
      ensures Fits(KV_RE, s, i, path)
    {
      OneChar(IsEquals, s, j, j + 1);
      NextKeyMatches(s, e);
      EndMatches(s, e);
      assert Run(NotNewline, s, j + 1, e);
      assert Fits(KV_STOP, s, e, path.rest.rest.rest);
      assert Fits(KV_VALUE, s, j + 1, path.rest.rest);
      assert Fits(KV_EQUALS, s, j, path.rest);
    }
  }

  /** Where the engine stops: at the first boundary after the key. */
  lemma {:induction false} FirstIsKeyAndShortestValue(s: string, i: nat)
    requires i <= |s| && All(NotNewline, s)
    ensures First(KV_RE, s, i).Some? <==> HasKey(s, i)
    ensures First(KV_RE, s, i).Some? ==>
              var path := First(KV_RE, s, i).value;
              && path.Step? && path.rest.Step? && path.rest.rest.Step?
              && Key(s, i, path.pos) && path.pos < path.rest.rest.pos <= |s| && Boundary(s, path.rest.rest.pos)
              && forall x :: path.pos < x < path.rest.rest.pos ==> !Boundary(s, x)
  {
    if HasKey(s, i) {
      var j: nat :| Key(s, i, j);
      var path := Step(j, Step(j + 1, Step(|s|, Step(|s|, Stop))));
      KvFits(s, i, path);
      FirstIsBest(KV_RE, s, i, path);
    }
    FirstIsBest(KV_RE, s, i, Stop);
    if First(KV_RE, s, i).Some? {
      var path := First(KV_RE, s, i).value;
      KvFits(s, i, path);
      forall x | path.pos < x < path.rest.rest.pos
        ensures !Boundary(s, x)
      {
        if Boundary(s, x) {
          var shorter := Step(path.pos, Step(path.pos + 1, Step(x, Step(x, Stop))));
          KvFits(s, i, shorter);
          FirstIsBest(KV_RE, s, i, shorter);
          assert !Preferred(KV_VALUE, path.rest.rest, shorter.rest.rest);
          assert false;
        }
      }
    }
  }

  lemma {:induction false} SearchIsLeftmost(s: string, from: nat)
    requires from <= |s| && All(NotNewline, s)
    ensures Search(s, from).None? ==> NoKeyIn(s, from, |s|)
    ensures Search(s, from).Some? ==> NextToken(s, from, Search(s, from).value)
    decreases |s| - from
  {
    FirstIsKeyAndShortestValue(s, from);
    if First(KV_RE, s, from).None? && from < |s| {
      SearchIsLeftmost(s, from + 1);
    }
  }

  /** `findall` is the tokenization. */
  lemma {:induction false} FindAllTokenizes(s: string, from: nat)
    requires from <= |s| && All(NotNewline, s)
    ensures Tokenization(s, from, FindAll(s, from))
    decreases |s| - from
  {
    hide NextToken, First, NoKeyIn;
    SearchIsLeftmost(s, from);
    if Search(s, from).Some? {
      FindAllTokenizes(s, Search(s, from).value.end);
      assert FindAll(s, from)[1..] == FindAll(s, Search(s, from).value.end);
    }
  }

  lemma {:induction false} NextTokenIsUnique(s: string, from: nat, m: Token, n: Token)
    requires NextToken(s, from, m) && NextToken(s, from, n)
    ensures m == n
  {
    assert HasKey(s, m.start) && HasKey(s, n.start);
    KeyIsUnique(s, m.start, m.keyEnd, n.keyEnd);
  }

  /** There is only one tokenization, so it pins `findall` down completely. */
  lemma {:induction false} TokenizationIsUnique(s: string, from: nat, a: seq<Token>, b: seq<Token>)
    requires Tokenization(s, from, a) && Tokenization(s, from, b)
    ensures a == b
    decreases |a|
  {
    if a != [] && b != [] {
      NextTokenIsUnique(s, from, a[0], b[0]);
      TokenizationIsUnique(s, a[0].end, a[1..], b[1..]);
      assert a == [a[0]] + a[1..] && b == [b[0]] + b[1..];
    } else if a != [] {
      assert HasKey(s, a[0].start);
    } else if b != [] {
      assert HasKey(s, b[0].start);
    }
  }

  // ---- Nothing is lost ----

  /** The text the tokens cover, with the one separator character between neighbours. */
  function Covered(s: string, ms: seq<Token>): string
    requires forall k :: 0 <= k < |ms| ==> ms[k].In(s)
  {
    if ms == [] then ""
    else
      var (key, value) := ms[0].Pair(s);
      if |ms| == 1 then key + "=" + value
      else if ms[0].end < |s| then key + "=" + value + [s[ms[0].end]] + Covered(s, ms[1..])
      else ""
  }

  predicate OneSpaceBetween(s: string, m: Token, n: Token) {
    m.end < |s| && IsSpace(s[m.end]) && n.start == m.end + 1
  }

  /** After a token comes the end, or one whitespace character and the next token. */
  lemma {:induction false} TokensAreAdjacent(s: string, from: nat, m: Token, n: Token)
    requires NextToken(s, from, m) && NextToken(s, m.end, n)
    ensures OneSpaceBetween(s, m, n)
  {
    assert HasKey(s, n.start);
    assert HasKey(s, m.end + 1);
    NoKeyAtSpace(s, m.end);
  }

  lemma {:induction false} NextTokenShape(s: string, from: nat, m: Token)
    requires NextToken(s, from, m)
    ensures m.In(s) && s[m.keyEnd] == '='
  {
  }

  lemma {:induction false} LastTokenEnds(s: string, from: nat, m: Token)
    requires NextToken(s, from, m) && NoKeyIn(s, m.end, |s|)
    ensures m.end == |s|
  {
    assert Boundary(s, m.end);
  }

  lemma {:induction false} SeparatorFirst(s: string, m: Token, n: Token)
    requires OneSpaceBetween(s, m, n)
    ensures m.end < |s| && s[m.end..] == [s[m.end]] + s[n.start..]
  {
  }

  lemma {:induction false} TokensInText(s: string, from: nat, ms: seq<Token>)
    requires Tokenization(s, from, ms)
    ensures forall k :: 0 <= k < |ms| ==> ms[k].In(s)
    decreases |ms|
  {
    if ms != [] {
      TokensInText(s, ms[0].end, ms[1..]);
      assert forall k :: 0 < k < |ms| ==> ms[k] == ms[1..][k - 1];
    }
  }

  lemma {:induction false} TokenText(s: string, m: Token)
    requires m.In(s) && s[m.keyEnd] == '='
    ensures s[m.start..] == m.Pair(s).0 + "=" + m.Pair(s).1 + s[m.end..]
  {
  }

  /** From the first key on, the text is the tokens, with one whitespace character between neighbours. */
  lemma {:induction false} TokensCoverText(s: string, from: nat, ms: seq<Token>)
    requires Tokenization(s, from, ms) && ms != []
    ensures forall k :: 0 <= k < |ms| ==> ms[k].In(s)
    ensures forall j, k :: 0 <= j < k < |ms| && k == j + 1 ==> OneSpaceBetween(s, ms[j], ms[k])
    ensures s[ms[0].start..] == Covered(s, ms)
    decreases |ms|
  {
    hide NextToken, NoKeyIn, OneSpaceBetween;
    TokensInText(s, from, ms);
    var m, rest := ms[0], ms[1..];
    NextTokenShape(s, from, m);
    TokenText(s, m);
    if rest == [] {
      LastTokenEnds(s, from, m);
    } else {
      TokensCoverText(s, m.end, rest);
      TokensAreAdjacent(s, from, m, rest[0]);
      SeparatorFirst(s, m, rest[0]);
      forall j, k | 0 <= j < k < |ms| && k == j + 1
        ensures OneSpaceBetween(s, ms[j], ms[k])
      {
        if j > 0 {
          assert ms[j] == rest[j - 1] && ms[k] == rest[k - 1];
        }
      }
    }
  }

  lemma {:induction false} NoKeyAtSpace(s: string, i: nat)
    requires i < |s| && !IsWord(s[i])
    ensures !HasKey(s, i)
  {
  }

  // ---- Printing and reading back ----

  function PrintPairs(pairs: seq<(string, string)>): string {
    if pairs == [] then ""
    else if |pairs| == 1 then pairs[0].0 + "=" + pairs[0].1
    else pairs[0].0 + "=" + pairs[0].1 + " " + PrintPairs(pairs[1..])
  }

  predicate Printable(pairs: seq<(string, string)>) {
    forall k :: 0 <= k < |pairs| ==> pairs[k].0 != "" && All(IsWord, pairs[k].0) && All(NotNewline, pairs[k].1)
  }

  /** No whitespace inside the value is followed by a word and `=`. */
  ghost predicate Unbroken(v: string) {
    forall x :: 0 <= x < |v| && IsSpace(v[x]) ==> !HasKey(v, x + 1)
  }

  /** Where the pairs lie when they are printed from offset `at`. */
  function Layout(at: nat, pairs: seq<(string, string)>): (ms: seq<Token>)
    ensures |ms| == |pairs|
    decreases |pairs|
  {
    if pairs == [] then []
    else
      var k := at + |pairs[0].0|;
      var e := k + 1 + |pairs[0].1|;
      [Token(at, k, e)] + Layout(e + 1, pairs[1..])
  }

  /** `s` ends with the printed pairs, and reading may start at `at` or at the separator before it. */
  ghost predicate Positioned(s: string, from: nat, at: nat, pairs: seq<(string, string)>) {
    && at <= |s| && s[at..] == PrintPairs(pairs)
    && (from == at || (from + 1 == at && IsSpace(s[from])))
  }

  function TailText(pairs: seq<(string, string)>): string
    requires pairs != []
  {
    if |pairs| == 1 then "" else " " + PrintPairs(pairs[1..])
  }

  lemma {:induction false} PrintedHeadAndTail(pairs: seq<(string, string)>)
    requires pairs != []
    ensures PrintPairs(pairs) == pairs[0].0 + "=" + pairs[0].1 + TailText(pairs)
  {
  }

  /** The pieces of the text from `at` on. */
  lemma {:induction false} HeadText(s: string, at: nat, key: string, value: string, tail: string)
    requires at <= |s| && s[at..] == key + "=" + value + tail
    ensures var k := at + |key|;
            var e := k + 1 + |value|;
            && e <= |s| && s[at..k] == key && s[k] == '=' && s[k + 1..e] == value && s[e..] == tail
  {
    var k := at + |key|;
    var e := k + 1 + |value|;
    assert s[at..k] == s[at..][..|key|];
    assert s[k] == s[at..][|key|];
    assert s[k + 1..e] == s[at..][|key| + 1..|key| + 1 + |value|];
    assert s[e..] == s[at..][|key| + 1 + |value|..];
  }

  lemma {:induction false} KeyOfText(s: string, i: nat, j: nat)
    requires i < j < |s| && All(IsWord, s[i..j]) && s[j] == '='
    ensures Key(s, i, j) && HasKey(s, i)
  {
    assert forall x :: i <= x < j ==> s[x] == s[i..j][x - i];
    assert Key(s, i, j);
  }

  /** What follows the first printed pair. */
  lemma {:induction false} PairsTail(s: string, e: nat, pairs: seq<(string, string)>)
    requires pairs != [] && e <= |s| && s[e..] == TailText(pairs)
    ensures if |pairs| == 1 then e == |s| else e < |s| && s[e] == ' ' && Positioned(s, e, e + 1, pairs[1..])
  {
    hide PrintPairs;
    if |pairs| > 1 {
      assert s[e] == s[e..][0];
      assert s[e + 1..] == s[e..][1..];
    }
  }

  lemma {:induction false} PairsHead(s: string, from: nat, at: nat, pairs: seq<(string, string)>)
    requires Positioned(s, from, at, pairs) && pairs != [] && Printable(pairs)
    ensures var k := at + |pairs[0].0|;
            var e := k + 1 + |pairs[0].1|;
            && Token(at, k, e).In(s) && Token(at, k, e).Pair(s) == pairs[0] && Key(s, at, k)
            && (if |pairs| == 1 then e == |s| else e < |s| && s[e] == ' ' && Positioned(s, e, e + 1, pairs[1..]))
            && HasKey(s, at) && NoKeyIn(s, from, at)
  {
    hide Key, HasKey, IsWord, All, PrintPairs, TailText, IsSpace;
    var (key, value) := pairs[0];
    var k := at + |key|;
    PrintedHeadAndTail(pairs);
    HeadText(s, at, key, value, TailText(pairs));
    KeyOfText(s, at, k);
    PairsTail(s, k + 1 + |value|, pairs);
    if from < at {
      SpaceIsNoWord(s[from]);
      NoKeyAtSpace(s, from);
    }
  }

  lemma {:induction false} SpaceIsNoWord(c: char)
    requires IsSpace(c)
    ensures !IsWord(c)
  {
  }

  /** Inside a printed value, boundaries of the text are breaks of the value. */
  lemma {:induction false} BreaksOfValue(s: string, a: nat, e: nat)
    requires a <= e <= |s|
    requires e < |s| ==> s[e] == ' '
    ensures Unbroken(s[a..e]) <==> NoBoundaryIn(s, a, e)
  {
    var v := s[a..e];
    assert forall y :: 0 <= y < |v| ==> v[y] == s[a + y];
    forall x | a <= x < e && Boundary(s, x)
      ensures !Unbroken(v)
    {
      var k: nat :| Key(s, x + 1, k);
      assert Key(v, x - a + 1, k - a);
      assert IsSpace(v[x - a]) && HasKey(v, x - a + 1);
    }
    forall y | 0 <= y < |v| && IsSpace(v[y]) && HasKey(v, y + 1)
      ensures Boundary(s, a + y)
    {
      var k: nat :| Key(v, y + 1, k);
      assert Key(s, a + y + 1, a + k);
    }
  }

  /** The first printed pair is the next token exactly when its value is unbroken. */
  lemma {:induction false} PrintedHead(s: string, from: nat, at: nat, pairs: seq<(string, string)>)
    requires Positioned(s, from, at, pairs) && pairs != [] && Printable(pairs)
    ensures NextToken(s, from, Layout(at, pairs)[0]) <==> Unbroken(pairs[0].1)
  {
    hide HasKey, Boundary, NextToken, NoKeyIn, NoBoundaryIn, Unbroken, Key, PrintPairs;
    PairsHead(s, from, at, pairs);
    var m := Token(at, at + |pairs[0].0|, at + |pairs[0].0| + 1 + |pairs[0].1|);
    assert Layout(at, pairs)[0] == m;
    BreaksOfValue(s, m.keyEnd + 1, m.end);
    BoundaryAfterPair(s, from, at, pairs);
    NextTokenIff(s, from, m);
  }

  lemma {:induction false} NextTokenIff(s: string, from: nat, m: Token)
    requires from <= m.start && m.In(s) && Key(s, m.start, m.keyEnd) && NoKeyIn(s, from, m.start) && Boundary(s, m.end)
    ensures NextToken(s, from, m) <==> NoBoundaryIn(s, m.keyEnd + 1, m.end)
  {
  }

  lemma {:induction false} BoundaryAfterPair(s: string, from: nat, at: nat, pairs: seq<(string, string)>)
    requires Positioned(s, from, at, pairs) && pairs != [] && Printable(pairs)
    ensures var e := at + |pairs[0].0| + 1 + |pairs[0].1|; e <= |s| && Boundary(s, e)
  {
    hide HasKey, NoKeyIn, Key, PrintPairs;
    PairsHead(s, from, at, pairs);
    var e := at + |pairs[0].0| + 1 + |pairs[0].1|;
    if |pairs| > 1 {
      PairsHead(s, e, e + 1, pairs[1..]);
      assert IsSpace(s[e]);
    }
  }

  lemma {:induction false} StartIsForced(s: string, from: nat, at: nat, m: Token)
    requires NextToken(s, from, m) && NoKeyIn(s, from, at) && from <= at && HasKey(s, at)
    ensures m.start == at
  {
    assert HasKey(s, m.start);
  }

  lemma {:induction false} PrintedTokenizes(s: string, from: nat, at: nat, pairs: seq<(string, string)>)
    requires Positioned(s, from, at, pairs) && Printable(pairs) && pairs != []
    requires forall k :: 0 <= k < |pairs| ==> Unbroken(pairs[k].1)
    ensures Tokenization(s, from, Layout(at, pairs))
    ensures forall k :: 0 <= k < |pairs| ==> Layout(at, pairs)[k].In(s) && Layout(at, pairs)[k].Pair(s) == pairs[k]
    decreases |pairs|
  {
    hide HasKey, Boundary, ShortestValue, NextToken, Unbroken, Key;
    PairsHead(s, from, at, pairs);
    PrintedHead(s, from, at, pairs);
    var m := Layout(at, pairs)[0];
    var rest := Layout(m.end + 1, pairs[1..]);
    assert Layout(at, pairs)[1..] == rest;
    if |pairs| > 1 {
      PrintedTokenizes(s, m.end, m.end + 1, pairs[1..]);
      assert forall k :: 0 < k < |pairs| ==> Layout(at, pairs)[k] == rest[k - 1] && pairs[k] == pairs[1..][k - 1];
    }
  }

  lemma {:induction false} ReadBackIsUnbroken(s: string, from: nat, at: nat, pairs: seq<(string, string)>, ms: seq<Token>)
    requires Positioned(s, from, at, pairs) && Printable(pairs)
    requires Tokenization(s, from, ms) && |ms| == |pairs|
    requires forall k :: 0 <= k < |ms| ==> ms[k].In(s) && ms[k].Pair(s) == pairs[k]
    ensures forall k :: 0 <= k < |pairs| ==> Unbroken(pairs[k].1)
    decreases |pairs|
  {
    hide HasKey, Boundary, NoKeyIn, ShortestValue, NextToken, Unbroken, Key, PrintPairs;
    if pairs != [] {
      PairsHead(s, from, at, pairs);
      PrintedHead(s, from, at, pairs);
      var m := ms[0];
      StartIsForced(s, from, at, m);
      assert m.Pair(s) == pairs[0];
      assert m == Layout(at, pairs)[0];
      if |pairs| > 1 {
        ReadBackIsUnbroken(s, m.end, m.end + 1, pairs[1..], ms[1..]);
        assert forall k :: 0 < k < |pairs| ==> pairs[k] == pairs[1..][k - 1];
      }
    }
  }

  lemma {:induction false} PrintedHasNoNewline(pairs: seq<(string, string)>)
    requires Printable(pairs)
    ensures All(NotNewline, PrintPairs(pairs))
  {
    if |pairs| > 0 {
      forall k | 0 <= k < |pairs[0].0|
        ensures pairs[0].0[k] != '\n'
      {
        assert IsWord(pairs[0].0[k]);
      }
    }
    if |pairs| > 1 {
      PrintedHasNoNewline(pairs[1..]);
    }
  }

  lemma {:induction false} UnbrokenPairsAreFound(pairs: seq<(string, string)>)
    requires Printable(pairs) && forall k :: 0 <= k < |pairs| ==> Unbroken(pairs[k].1)
    ensures FindPairs(PrintPairs(pairs)) == pairs
  {
    hide HasKey, NextToken, Unbroken, PrintPairs, FindAll;
    var s := PrintPairs(pairs);
    assert s[0..] == s;
    PrintedHasNoNewline(pairs);
    FindAllTokenizes(s, 0);
    if pairs == [] {
      NoKeyInNothing(s);
      TokenizationIsUnique(s, 0, FindAll(s, 0), []);
    } else {
      PrintedTokenizes(s, 0, 0, pairs);
      TokenizationIsUnique(s, 0, FindAll(s, 0), Layout(0, pairs));
      hide Layout;
    }
  }

  lemma {:induction false} NoKeyInNothing(s: string)
    requires s == PrintPairs([])
    ensures Tokenization(s, 0, [])
  {
  }

  /** Printed pairs are read back unchanged exactly when no value has a break in it. */
  lemma {:induction false} PrintedPairsRoundTrip(pairs: seq<(string, string)>)
    requires Printable(pairs)
    ensures FindPairs(PrintPairs(pairs)) == pairs <==> forall k :: 0 <= k < |pairs| ==> Unbroken(pairs[k].1)
  {
    hide HasKey, NextToken, Unbroken, PrintPairs, FindAll, Printable, Tokenization;
    if forall k :: 0 <= k < |pairs| ==> Unbroken(pairs[k].1) {
      UnbrokenPairsAreFound(pairs);
    }
    var s := PrintPairs(pairs);
    if FindPairs(s) == pairs {
      assert s[0..] == s;
      PrintedHasNoNewline(pairs);
      FindAllTokenizes(s, 0);
      ReadBackIsUnbroken(s, 0, 0, pairs, FindAll(s, 0));
    }
  }

  lemma {:induction false} PrintedDictRoundTrips(pairs: seq<(string, string)>)
    requires Printable(pairs) && forall k :: 0 <= k < |pairs| ==> Unbroken(pairs[k].1)
    ensures ParseKv(PrintPairs(pairs)) == ToDict(pairs)
  {
    PrintedPairsRoundTrip(pairs);
  }

  // ---- Fields spelled out ----

  /** Letters, digits and underscores. */
  ghost predicate PlainKey(key: string) {
    && key != ""
    && forall x :: 0 <= x < |key| ==>
         'a' <= key[x] <= 'z' || 'A' <= key[x] <= 'Z' || '0' <= key[x] <= '9' || key[x] == '_'
  }

  /** No `=` in the text follows a word character, so no field starts in it. */
  ghost predicate NoFieldIn(text: string) {
    forall x :: 0 <= x < |text| && text[x] == '=' ==> x == 0 || !IsWord(text[x - 1])
  }

  /** One line, in which no whitespace is followed by a field. */
  ghost predicate PlainValue(value: string) {
    All(NotNewline, value) && (NoFieldIn(value) || All(NotSpace, value))
  }

  /** What comes before the first field: it cannot be read as a part of its key. */
  ghost predicate LeadingText(text: string) {
    All(NotNewline, text) && NoFieldIn(text) && (text != "" ==> !IsWord(text[|text| - 1]))
  }

  /** A word that starts in the leading text is not followed by `=`. */
  lemma {:induction false} LeadingWord(s: string, n: nat, i: nat, j: nat)
    requires n <= |s| && LeadingText(s[..n]) && i < n && i < j < |s| && Run(IsWord, s, i, j)
    ensures s[j] != '='
  {
    hide IsWord;
    var lead := s[..n];
    assert forall x :: 0 <= x < n ==> s[x] == lead[x];
    assert lead[n - 1] == s[n - 1];
    assert IsWord(s[j - 1]);
  }

  lemma {:induction false} LeadingTextHasNoKey(s: string, n: nat)
    requires n <= |s| && LeadingText(s[..n])
    ensures NoKeyIn(s, 0, n)
  {
    forall i, j | 0 <= i < n && i < j < |s| && Run(IsWord, s, i, j)
      ensures s[j] != '='
    {
      LeadingWord(s, n, i, j);
    }
  }

  /** Nor is a word after whitespace in a plain value. */
  lemma {:induction false} WordInValue(s: string, a: nat, e: nat, x: nat, j: nat)
    requires 0 < a <= x < e <= |s| && PlainValue(s[a..e]) && IsSpace(s[x])
    requires e < |s| ==> IsSpace(s[e])
    requires x + 1 < j < |s| && Run(IsWord, s, x + 1, j)
    ensures s[j] != '='
  {
    hide IsWord, IsSpace;
    var v := s[a..e];
    assert forall y :: a <= y < e ==> s[y] == v[y - a];
    assert IsWord(s[j - 1]) && NotSpace(v[x - a]) == !IsSpace(s[x]);
    if e < |s| {
      SpaceIsNoWord(s[e]);
      EqualsIsNoSpace();
    }
    if j < e {
      assert v[j - 1 - a] == s[j - 1] && v[j - a] == s[j];
    }
  }

  lemma {:induction false} EqualsIsNoSpace()
    ensures !IsSpace('=')
  {
  }

  lemma {:induction false} PlainValueHasNoBoundary(s: string, a: nat, e: nat)
    requires 0 < a <= e <= |s| && s[a - 1] == '=' && PlainValue(s[a..e]) && (e < |s| ==> IsSpace(s[e]))
    ensures NoBoundaryIn(s, a, e)
  {
    hide IsWord, IsSpace, PlainValue;
    forall x, j: nat | a <= x < e && IsSpace(s[x]) && x + 1 < j < |s| && Run(IsWord, s, x + 1, j)
      ensures s[j] != '='
    {
      WordInValue(s, a, e, x, j);
    }
  }

  /** One field at `at`: the key and the value as they stand. */
  lemma {:induction false} PlainFieldIsNext(s: string, from: nat, at: nat, key: string, value: string)
    requires PlainKey(key) && PlainValue(value) && from <= at && NoKeyIn(s, from, at)
    requires at + |key| + 1 + |value| <= |s| && s[at..at + |key| + 1 + |value|] == key + "=" + value
    requires var e := at + |key| + 1 + |value|; e < |s| ==> IsSpace(s[e]) && HasKey(s, e + 1)
    ensures var m := Token(at, at + |key|, at + |key| + 1 + |value|);
            NextToken(s, from, m) && m.Pair(s) == (key, value)
  {
    var j := at + |key|;
    var e := j + 1 + |value|;
    FieldPieces(s, at, key, value);
    PlainKeyIsKey(s, at, key);
    PlainValueHasNoBoundary(s, j + 1, e);
    hide PlainKey, PlainValue, HasKey, IsSpace, NoKeyIn, NoBoundaryIn, Key;
  }

  lemma {:induction false} FieldPieces(s: string, at: nat, key: string, value: string)
    requires at + |key| + 1 + |value| <= |s| && s[at..at + |key| + 1 + |value|] == key + "=" + value
    ensures var j := at + |key|;
            s[at..j] == key && s[j] == '=' && s[j + 1..j + 1 + |value|] == value
  {
    var j := at + |key|;
    var e := j + 1 + |value|;
    var field := s[at..e];
    assert s[at..j] == field[..|key|];
    assert s[j] == field[|key|];
    assert s[j + 1..e] == field[|key| + 1..];
  }

  lemma {:induction false} PlainKeyIsKey(s: string, at: nat, key: string)
    requires PlainKey(key) && at + |key| < |s| && s[at..at + |key|] == key && s[at + |key|] == '='
    ensures HasKey(s, at) && Key(s, at, at + |key|)
  {
    assert forall x :: at <= x < at + |key| ==> s[x] == s[at..at + |key|][x - at];
    assert Key(s, at, at + |key|);
  }

  lemma {:induction false} PlainIsOneLine(key: string)
    requires PlainKey(key)
    ensures All(NotNewline, key)
  {
  }

  lemma {:induction false} OnlyToken(s: string, m: Token)
    requires All(NotNewline, s) && NextToken(s, 0, m) && m.end == |s|
    ensures FindPairs(s) == [m.Pair(s)]
  {
    FindAllTokenizes(s, 0);
    assert Tokenization(s, 0, [m]) by {
      assert [m][1..] == [];
    }
    TokenizationIsUnique(s, 0, FindAll(s, 0), [m]);
  }

  lemma {:induction false} OnlyTokens(s: string, m: Token, n: Token)
    requires All(NotNewline, s) && NextToken(s, 0, m) && NextToken(s, m.end, n) && n.end == |s|
    ensures FindPairs(s) == [m.Pair(s), n.Pair(s)]
  {
    FindAllTokenizes(s, 0);
    assert Tokenization(s, m.end, [n]) by {
      assert [n][1..] == [];
    }
    assert Tokenization(s, 0, [m, n]) by {
      assert [m, n][1..] == [n];
    }
    TokenizationIsUnique(s, 0, FindAll(s, 0), [m, n]);
  }

  /** Text without a field gives no pairs. */
  lemma {:induction false} NoFieldNoPair(text: string)
    requires All(NotNewline, text) && NoFieldIn(text)
    ensures FindPairs(text) == []
  {
    assert NoKeyIn(text, 0, |text|) by {
      if exists i :: 0 <= i < |text| && HasKey(text, i) {
        var i :| 0 <= i < |text| && HasKey(text, i);
        var j: nat :| Key(text, i, j);
        assert text[j] == '=' && IsWord(text[j - 1]);
      }
    }
    FindAllTokenizes(text, 0);
    TokenizationIsUnique(text, 0, FindAll(text, 0), []);
  }

  /** One field, after any text that is none. */
  lemma {:induction false} FieldIsFound(lead: string, key: string, value: string)
    requires LeadingText(lead) && PlainKey(key) && PlainValue(value)
    ensures FindPairs(lead + key + "=" + value) == [(key, value)]
  {
    var s := lead + key + "=" + value;
    assert s[..|lead|] == lead;
    assert s[|lead|..] == key + "=" + value;
    LeadingTextHasNoKey(s, |lead|);
    PlainIsOneLine(key);
    hide PlainKey, PlainValue, LeadingText, NextToken, FindPairs;
    PlainFieldIsNext(s, 0, |lead|, key, value);
    assert All(NotNewline, s) by {
      FieldsAreOneLine(lead, key, value);
    }
    OnlyToken(s, Token(|lead|, |lead| + |key|, |s|));
  }

  lemma {:induction false} FieldsAreOneLine(lead: string, key: string, value: string)
    requires All(NotNewline, lead) || LeadingText(lead)
    requires PlainKey(key) && PlainValue(value)
    ensures All(NotNewline, lead + key + "=" + value)
  {
    PlainIsOneLine(key);
  }

  /** Two fields with any whitespace character between them, after any text that is none. */
  lemma {:induction false} FieldsAreFound(
    lead: string, key: string, value: string, space: char, key': string, value': string)
    requires LeadingText(lead) && PlainKey(key) && PlainValue(value) && PlainKey(key') && PlainValue(value')
    requires IsSpace(space) && space != '\n'
    ensures FindPairs(lead + key + "=" + value + [space] + key' + "=" + value') == [(key, value), (key', value')]
  {
    hide PlainKey, PlainValue, LeadingText, NextToken, FindPairs, HasKey, IsSpace, Key, NoKeyIn;
    var left, right := lead + key + "=" + value, key' + "=" + value';
    var s := lead + key + "=" + value + [space] + key' + "=" + value';
    assert s == left + ([space] + right);
    TwoFieldsAreOneLine(lead, key, value, space, key', value');
    SecondField(s, left, space, key', value');
    FirstField(s, lead, key, value, [space] + right);
    OnlyTokens(s, Token(|lead|, |lead| + |key|, |left|), Token(|left| + 1, |left| + 1 + |key'|, |s|));
  }

  lemma {:induction false} TwoFieldsAreOneLine(
    lead: string, key: string, value: string, space: char, key': string, value': string)
    requires LeadingText(lead) && PlainKey(key) && PlainValue(value) && PlainKey(key') && PlainValue(value')
    requires space != '\n'
    ensures All(NotNewline, lead + key + "=" + value + [space] + key' + "=" + value')
  {
    PlainIsOneLine(key);
    PlainIsOneLine(key');
    hide PlainKey;
    assert All(NotNewline, lead + key + "=" + value);
    assert All(NotNewline, lead + key + "=" + value + [space] + key');
  }

  lemma {:induction false} FirstField(s: string, lead: string, key: string, value: string, tail: string)
    requires LeadingText(lead) && PlainKey(key) && PlainValue(value) && s == lead + key + "=" + value + tail
    requires tail != "" && IsSpace(tail[0]) && HasKey(s, |lead + key + "=" + value| + 1)
    ensures var m := Token(|lead|, |lead| + |key|, |lead| + |key| + 1 + |value|);
            NextToken(s, 0, m) && m.Pair(s) == (key, value)
  {
    hide PlainKey, PlainValue, LeadingText, NextToken, HasKey, IsSpace, Key, NoKeyIn;
    assert s[..|lead|] == lead;
    assert s[|lead|..|lead| + |key| + 1 + |value|] == key + "=" + value;
    LeadingTextHasNoKey(s, |lead|);
    PlainFieldIsNext(s, 0, |lead|, key, value);
  }

  lemma {:induction false} SecondField(s: string, left: string, space: char, key: string, value: string)
    requires PlainKey(key) && PlainValue(value) && IsSpace(space) && s == left + ([space] + (key + "=" + value))
    ensures var m := Token(|left| + 1, |left| + 1 + |key|, |s|);
            NextToken(s, |left|, m) && m.Pair(s) == (key, value) && HasKey(s, |left| + 1)
  {
    hide PlainKey, PlainValue, NextToken, HasKey, IsSpace, Key;
    var at := |left| + 1;
    assert s[|left|] == space;
    assert s[at..|s|] == key + "=" + value;
    FieldPieces(s, at, key, value);
    PlainKeyIsKey(s, at, key);
    SpaceIsNoWord(space);
    NoKeyAtSpace(s, |left|);
    PlainFieldIsNext(s, |left|, at, key, value);
  }

  predicate IsLast(pairs: seq<(string, string)>, k: nat, key: string)
    requires k < |pairs|
  {
    pairs[k].0 == key && forall l :: k < l < |pairs| ==> pairs[l].0 != key
  }

  /** The dictionary keeps the last value printed for each key, and no other key. */
  lemma {:induction false} DictKeepsLast(pairs: seq<(string, string)>, key: string)
    ensures key in ToDict(pairs) <==> exists k :: 0 <= k < |pairs| && pairs[k].0 == key
    ensures forall k :: 0 <= k < |pairs| && IsLast(pairs, k, key) ==> ToDict(pairs)[key] == pairs[k].1
  {
    if pairs != [] {
      var init := pairs[..|pairs| - 1];
      DictKeepsLast(init, key);
      forall k | 0 <= k < |pairs| && IsLast(pairs, k, key)
        ensures ToDict(pairs)[key] == pairs[k].1
      {
        if k < |pairs| - 1 {
          assert init[k] == pairs[k];
          assert forall l :: k < l < |init| ==> init[l] == pairs[l];
        }
      }
      if exists k :: 0 <= k < |pairs| && pairs[k].0 == key {
        var k :| 0 <= k < |pairs| && pairs[k].0 == key;
        if k < |pairs| - 1 {
          assert init[k].0 == key;
        }
      }
    }
  }
}

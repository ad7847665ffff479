/** The two glob engines: greedy wildcard matching of class names, which retries only its last
    star, and path globs whose components are matched row by row and whose `**` spans components.
    Both are held to one declarative relation on bytes. */
module Glob {
  import opened Bytes
  import opened Wrappers

  const STAR: Byte := 42
  const QUESTION: Byte := 63
  const DOT: Byte := 46
  const SLASH: Byte := 47
  const BACKSLASH: Byte := 92

  /** A byte of a pattern that is not a star accepts this byte. */
  predicate Accepts(token: Byte, value: Byte) {
    token == QUESTION || token == value
  }

  /** The relation both engines implement: `?` stands for one byte, `*` for any run of bytes. */
  ghost predicate Matches(pattern: Bytes, value: Bytes) {
    if pattern == [] then value == []
    else if pattern[0] == STAR then exists k :: 0 <= k <= |value| && Matches(pattern[1..], value[k..])
    else value != [] && Accepts(pattern[0], value[0]) && Matches(pattern[1..], value[1..])
  }

  /** The relation as class patterns are written: a slash or a backslash in them stands for a dot. */
  ghost predicate ClassMatches(pattern: Bytes, value: Bytes) {
    if pattern == [] then value == []
    else if pattern[0] == '*' as int then exists k :: 0 <= k <= |value| && ClassMatches(pattern[1..], value[k..])
    else value != [] && ClassAccepts(pattern[0] as char, value[0] as char) && ClassMatches(pattern[1..], value[1..])
  }

  predicate ClassAccepts(token: char, value: char) {
    token == '?' || (if token == '/' || token == '\\' then value == '.' else token == value)
  }

  lemma {:induction false} ClassMatchesIs(pattern: Bytes, value: Bytes)
    ensures ClassMatches(pattern, value) <==> Matches(Normalised(pattern), value)
    decreases |pattern|
  {
    if pattern != [] {
      var rest := pattern[1..];
      assert Normalised(pattern)[1..] == Normalised(rest);
      if pattern[0] == STAR {
        forall k | 0 <= k <= |value|
          ensures ClassMatches(rest, value[k..]) <==> Matches(Normalised(rest), value[k..])
        {
          ClassMatchesIs(rest, value[k..]);
        }
      } else if value != [] {
        ClassMatchesIs(rest, value[1..]);
        TokensAccept(pattern[0], value[0]);
      }
    }
  }

  lemma TokensAccept(token: Byte, value: Byte)
    requires token != STAR
    ensures ClassAccepts(token as char, value as char)
            <==> Accepts(if token == SLASH || token == BACKSLASH then DOT else token, value)
  {
  }

  // ------------------------------------------------------------------ greedy matching

  /** Separators in a class pattern are written as dots. */
  function Normalised(pattern: Bytes): Bytes {
    seq(|pattern|, k requires 0 <= k < |pattern| =>
      if pattern[k] == SLASH || pattern[k] == BACKSLASH then DOT else pattern[k])
  }

  /** The loop of the greedy matcher: positions in pattern and value, the last star seen, and
      how much of the value that star has swallowed so far. */
  function Greedy(pattern: Bytes, value: Bytes, p: nat, v: nat, star: Option<nat>, retry: nat): bool
    requires p <= |pattern| && v <= |value| && retry <= v
    requires star.Some? ==> star.value < p
    decreases |pattern| - (if star.Some? then star.value else -1), |value| - retry, |value| - v
  {
    if v == |value| then OnlyStars(pattern[p..])
    else if p < |pattern| && Accepts(pattern[p], value[v]) then Greedy(pattern, value, p + 1, v + 1, star, retry)
    else if p < |pattern| && pattern[p] == STAR then Greedy(pattern, value, p + 1, v, Some(p), v)
    else if star.Some? then Greedy(pattern, value, star.value + 1, retry + 1, star, retry + 1)
    else false
  }

  predicate OnlyStars(pattern: Bytes) {
    forall k :: 0 <= k < |pattern| ==> pattern[k] == STAR
  }

  function GreedyMatches(pattern: Bytes, value: Bytes): bool {
    Greedy(Normalised(pattern), value, 0, 0, None, 0)
  }

  method WildcardMatches(pattern: Bytes, value: Bytes) returns (matched: bool)
    ensures matched == GreedyMatches(pattern, value)
  {
    var tokens := Normalised(pattern);
    var p: nat, v: nat := 0, 0;
    var star: Option<nat>, retry: nat := None, 0;
    while v < |value|
      invariant p <= |tokens| && v <= |value| && retry <= v
      invariant star.Some? ==> star.value < p
      invariant Greedy(tokens, value, p, v, star, retry) == GreedyMatches(pattern, value)
      decreases |tokens| - (if star.Some? then star.value else -1), |value| - retry, |value| - v
    {
      if p < |tokens| && (tokens[p] == QUESTION || tokens[p] == value[v]) {
        p, v := p + 1, v + 1;
      } else if p < |tokens| && tokens[p] == STAR {
        star, retry := Some(p), v;
        p := p + 1;
      } else if star.Some? {
        p := star.value + 1;
        retry := retry + 1;
        v := retry;
      } else {
        return false;
      }
    }
    ghost var tail := p;
    while p < |tokens| && tokens[p] == STAR
      invariant tail <= p <= |tokens|
      invariant forall k :: tail <= k < p ==> tokens[k] == STAR
    {
      p := p + 1;
    }
    assert p < |tokens| ==> tokens[tail..][p - tail] != STAR;
    matched := p == |tokens|;
  }

  predicate StarFree(s: Bytes) {
    forall k :: 0 <= k < |s| ==> s[k] != STAR
  }

  /** A star-free piece of pattern against a piece of value, byte for byte. */
  predicate Aligned(piece: Bytes, value: Bytes) {
    |piece| == |value| && forall k :: 0 <= k < |piece| ==> piece[k] != STAR && Accepts(piece[k], value[k])
  }

  /** A star-free piece in front can only match the bytes directly in front. */
  lemma {:induction false} PieceInFront(piece: Bytes, rest: Bytes, value: Bytes)
    requires StarFree(piece)
    ensures Matches(piece + rest, value)
            <==> |piece| <= |value| && Aligned(piece, value[..|piece|]) && Matches(rest, value[|piece|..])
  {
    if piece == [] {
      assert piece + rest == rest && value[0..] == value;
    } else if value != [] {
      assert (piece + rest)[1..] == piece[1..] + rest;
      PieceInFront(piece[1..], rest, value[1..]);
      if |piece| <= |value| {
        assert value[1..][|piece| - 1..] == value[|piece|..];
        AlignedCons(piece, value[..|piece|]);
        assert value[..|piece|][1..] == value[1..][..|piece| - 1];
      }
    }
  }

  lemma AlignedCons(piece: Bytes, value: Bytes)
    requires piece != [] && |piece| == |value| && piece[0] != STAR
    ensures Aligned(piece, value) <==> Accepts(piece[0], value[0]) && Aligned(piece[1..], value[1..])
  {
    if Accepts(piece[0], value[0]) && Aligned(piece[1..], value[1..]) {
      forall k | 0 <= k < |piece|
        ensures piece[k] != STAR && Accepts(piece[k], value[k])
      {
        assert k > 0 ==> piece[k] == piece[1..][k - 1] && value[k] == value[1..][k - 1];
      }
    }
  }

  lemma {:induction false} EmptyValue(pattern: Bytes)
    ensures Matches(pattern, []) <==> OnlyStars(pattern)
  {
    if pattern != [] {
      EmptyValue(pattern[1..]);
      assert forall k :: 1 <= k < |pattern| ==> pattern[k] == pattern[1..][k - 1];
      if pattern[0] == STAR {
        var empty: Bytes := [];
        assert empty[0..] == empty;
        assert Matches(pattern, []) <==> Matches(pattern[1..], empty[0..]);
      }
    }
  }

  /** A leading star swallows a byte more, or none. */
  lemma StarStep(pattern: Bytes, value: Bytes)
    requires pattern != [] && pattern[0] == STAR
    ensures Matches(pattern, value)
            <==> Matches(pattern[1..], value) || (value != [] && Matches(pattern, value[1..]))
  {
    assert value[0..] == value;
    if Matches(pattern, value) {
      var k :| 0 <= k <= |value| && Matches(pattern[1..], value[k..]);
      assert k > 0 ==> value[1..][k - 1..] == value[k..];
    }
    if value != [] && Matches(pattern, value[1..]) {
      var k :| 0 <= k <= |value[1..]| && Matches(pattern[1..], value[1..][k..]);
      assert value[1..][k..] == value[k + 1..];
    }
  }

  lemma {:induction false} StarSwallows(pattern: Bytes, value: Bytes, low: nat, high: nat)
    requires pattern != [] && pattern[0] == STAR && low <= high <= |value|
    requires Matches(pattern, value[high..])
    ensures Matches(pattern, value[low..])
    decreases high
  {
    if low < high {
      assert value[high - 1..][1..] == value[high..];
      StarStep(pattern, value[high - 1..]);
      StarSwallows(pattern, value, low, high - 1);
    }
  }

  /** What the loop has still to decide, by the relation: the whole match before a star has been
      seen, and afterwards the match from the last star on. */
  ghost predicate Remaining(pattern: Bytes, value: Bytes, star: Option<nat>, retry: nat)
    requires retry <= |value| && (star.Some? ==> star.value < |pattern|)
  {
    Matches(if star.Some? then pattern[star.value..] else pattern, value[retry..])
  }

  /** The pattern piece that starts after the last star. */
  function PieceStart(star: Option<nat>): nat {
    if star.Some? then star.value + 1 else 0
  }

  ghost predicate LoopState(pattern: Bytes, value: Bytes, p: nat, v: nat, star: Option<nat>, retry: nat) {
    && StarFree(value) && p <= |pattern| && retry <= v <= |value|
    && (star.Some? ==> star.value < p && pattern[star.value] == STAR)
    && (star.None? ==> retry == 0)
    && Aligned(pattern[PieceStart(star)..p], value[retry..v])
  }

  /** After the current piece only the rest of the pattern against the rest of the value counts,
      as far as the present retry position is concerned. */
  lemma PieceDone(pattern: Bytes, value: Bytes, p: nat, v: nat, star: Option<nat>, retry: nat)
    requires LoopState(pattern, value, p, v, star, retry)
    ensures Matches(pattern[PieceStart(star)..], value[retry..]) <==> Matches(pattern[p..], value[v..])
  {
    var piece := pattern[PieceStart(star)..p];
    assert pattern[PieceStart(star)..] == piece + pattern[p..];
    PieceInFront(piece, pattern[p..], value[retry..]);
    assert value[retry..][..|piece|] == value[retry..v] && value[retry..][|piece|..] == value[v..];
  }

  /** If the match from the last star succeeds, it does so at the present position or later. */
  lemma LaterPosition(pattern: Bytes, value: Bytes, p: nat, v: nat, star: Option<nat>, retry: nat) returns (k: nat)
    requires LoopState(pattern, value, p, v, star, retry) && star.Some?
    requires Remaining(pattern, value, star, retry)
    ensures retry <= k && k + (v - retry) <= |value|
    ensures Matches(pattern[p..], value[k + (v - retry)..])
  {
    var s := star.value;
    var suffix := value[retry..];
    assert pattern[s..][1..] == pattern[s + 1..];
    var j :| 0 <= j <= |suffix| && Matches(pattern[s + 1..], suffix[j..]);
    k := retry + j;
    assert suffix[j..] == value[k..];
    PieceThen(pattern, value, s + 1, p, k);
  }

  lemma PieceThen(pattern: Bytes, value: Bytes, from: nat, p: nat, k: nat)
    requires from <= p <= |pattern| && k <= |value| && StarFree(pattern[from..p])
    requires Matches(pattern[from..], value[k..])
    ensures k + (p - from) <= |value| && Matches(pattern[p..], value[k + (p - from)..])
  {
    var piece := pattern[from..p];
    assert pattern[from..] == piece + pattern[p..];
    PieceInFront(piece, pattern[p..], value[k..]);
    assert value[k..][|piece|..] == value[k + (p - from)..];
  }

  /** Keeping only the last star loses no match: the loop decides the relation. */
  lemma {:induction false} GreedyDecides(pattern: Bytes, value: Bytes, p: nat, v: nat, star: Option<nat>, retry: nat)
    requires LoopState(pattern, value, p, v, star, retry)
    ensures Greedy(pattern, value, p, v, star, retry) <==> Remaining(pattern, value, star, retry)
    decreases |pattern| - (if star.Some? then star.value else -1), |value| - retry, |value| - v
  {
    if v == |value| {
      ValueExhausted(pattern, value, p, v, star, retry);
    } else if p < |pattern| && Accepts(pattern[p], value[v]) {
      assert pattern[PieceStart(star)..p + 1] == pattern[PieceStart(star)..p] + [pattern[p]];
      assert value[retry..v + 1] == value[retry..v] + [value[v]];
      GreedyDecides(pattern, value, p + 1, v + 1, star, retry);
    } else if p < |pattern| && pattern[p] == STAR {
      NewStar(pattern, value, p, v, star, retry);
      GreedyDecides(pattern, value, p + 1, v, Some(p), v);
    } else {
      Mismatch(pattern, value, p, v, star, retry);
      if star.Some? {
        GreedyDecides(pattern, value, star.value + 1, retry + 1, star, retry + 1);
      }
    }
  }

  lemma ValueExhausted(pattern: Bytes, value: Bytes, p: nat, v: nat, star: Option<nat>, retry: nat)
    requires LoopState(pattern, value, p, v, star, retry) && v == |value|
    ensures Remaining(pattern, value, star, retry) <==> OnlyStars(pattern[p..])
  {
    PieceDone(pattern, value, p, v, star, retry);
    EmptyValue(pattern[p..]);
    assert value[v..] == [];
    if star.Some? {
      assert pattern[star.value..][1..] == pattern[star.value + 1..];
      StarStep(pattern[star.value..], value[retry..]);
      if Remaining(pattern, value, star, retry) {
        var k := LaterPosition(pattern, value, p, v, star, retry);
        assert value[k + (v - retry)..] == [];
      }
    }
  }

  /** A byte that the pattern cannot take rules out the present retry position. */
  lemma Mismatch(pattern: Bytes, value: Bytes, p: nat, v: nat, star: Option<nat>, retry: nat)
    requires LoopState(pattern, value, p, v, star, retry) && v < |value|
    requires p < |pattern| ==> pattern[p] != STAR && !Accepts(pattern[p], value[v])
    ensures Remaining(pattern, value, star, retry) <==> star.Some? && Remaining(pattern, value, star, retry + 1)
  {
    PieceDone(pattern, value, p, v, star, retry);
    assert !Matches(pattern[p..], value[v..]);
    if star.Some? {
      assert pattern[star.value..][1..] == pattern[star.value + 1..];
      StarStep(pattern[star.value..], value[retry..]);
      assert value[retry..][1..] == value[retry + 1..];
    }
  }

  /** At a new star everything before it is settled. */
  lemma NewStar(pattern: Bytes, value: Bytes, p: nat, v: nat, star: Option<nat>, retry: nat)
    requires LoopState(pattern, value, p, v, star, retry) && p < |pattern| && pattern[p] == STAR
    ensures Remaining(pattern, value, star, retry) <==> Matches(pattern[p..], value[v..])
  {
    PieceDone(pattern, value, p, v, star, retry);
    if star.Some? {
      assert pattern[star.value..][1..] == pattern[star.value + 1..];
      StarStep(pattern[star.value..], value[retry..]);
      if Remaining(pattern, value, star, retry) {
        var k := LaterPosition(pattern, value, p, v, star, retry);
        StarSwallows(pattern[p..], value, v, k + (v - retry));
      }
    }
  }

  /** On values without a star the greedy matcher is exactly the relation. */
  lemma GreedyIsExact(pattern: Bytes, value: Bytes)
    requires StarFree(value)
    ensures GreedyMatches(pattern, value) <==> ClassMatches(pattern, value)
    ensures GreedyMatches(pattern, value) <==> Matches(Normalised(pattern), value)
  {
    ClassMatchesIs(pattern, value);
    GreedyDecides(Normalised(pattern), value, 0, 0, None, 0);
    assert value[0..] == value;
  }

  function Questions(n: nat): (s: Bytes)
    ensures |s| == n && forall k :: 0 <= k < n ==> s[k] == QUESTION
  {
    seq(n, _ => QUESTION)
  }

  /** The pattern that a value with a star at `i` defeats: its star matches the value's star
      literally, and then one question mark is left over. */
  function Defeating(value: Bytes, i: nat): Bytes
    requires i < |value|
  {
    Questions(i) + [STAR] + Questions(|value| - i)
  }

  lemma {:induction false} LiteralStarDefeats(value: Bytes, i: nat, k: nat)
    requires i < |value| && value[i] == STAR && k <= |value|
    ensures !Greedy(Defeating(value, i), value, k, k, None, 0)
    decreases |value| - k
  {
    if k < |value| {
      LiteralStarDefeats(value, i, k + 1);
    } else {
      assert Defeating(value, i)[k..][0] == QUESTION;
    }
  }

  lemma {:induction false} QuestionsMatch(value: Bytes)
    ensures Matches(Questions(|value|), value)
  {
    PieceInFront(Questions(|value|), [], value);
    assert Questions(|value|) + [] == Questions(|value|);
  }

  /** The greedy matcher is right about a value for every pattern exactly when the value has no star. */
  lemma GreedyExactIffStarFree(value: Bytes)
    ensures (forall pattern :: GreedyMatches(pattern, value) <==> ClassMatches(pattern, value)) <==> StarFree(value)
  {
    if StarFree(value) {
      forall pattern
        ensures GreedyMatches(pattern, value) <==> ClassMatches(pattern, value)
      {
        GreedyIsExact(pattern, value);
      }
    } else {
      var i :| 0 <= i < |value| && value[i] == STAR;
      var pattern := Defeating(value, i);
      assert Normalised(pattern) == pattern;
      LiteralStarDefeats(value, i, 0);
      var rest := [STAR] + Questions(|value| - i);
      assert pattern == Questions(i) + rest;
      PieceInFront(Questions(i), rest, value);
      QuestionsMatch(value[i..]);
      assert rest[1..] == Questions(|value| - i) && value[i..][0..] == value[i..];
      ClassMatchesIs(pattern, value);
      assert ClassMatches(pattern, value) && !GreedyMatches(pattern, value);
    }
  }

  // ------------------------------------------------------------------ path globs

  const DOUBLE_STAR: Bytes := [STAR, STAR]

  /** The components between slashes; at least one, possibly empty. */
  function Split(s: Bytes): (parts: seq<Bytes>)
    ensures |parts| > 0
  {
    if s == [] then [[]]
    else
      var rest := Split(s[1..]);
      if s[0] == SLASH then [[]] + rest else [[s[0]] + rest[0]] + rest[1..]
  }

  function Join(parts: seq<Bytes>): Bytes
    requires |parts| > 0
  {
    if |parts| == 1 then parts[0] else parts[0] + [SLASH] + Join(parts[1..])
  }

  /** Splitting is exact: joining gives the path back, and no component contains a slash. */
  lemma {:induction false} SplitExact(s: Bytes)
    ensures Join(Split(s)) == s
    ensures forall part :: part in Split(s) ==> SLASH !in part
  {
    if s != [] {
      SplitExact(s[1..]);
      var rest := Split(s[1..]);
      assert s == [s[0]] + s[1..];
      if s[0] == SLASH {
        assert Split(s) == [[]] + rest && Split(s)[1..] == rest;
      } else {
        JoinFront(s[0], rest);
        forall part | part in [[s[0]] + rest[0]] + rest[1..]
          ensures SLASH !in part
        {
          assert rest[0] in rest && (part in rest[1..] ==> part in rest);
        }
      }
    }
  }

  lemma JoinFront(b: Byte, parts: seq<Bytes>)
    requires |parts| > 0
    ensures Join([[b] + parts[0]] + parts[1..]) == [b] + Join(parts)
  {
    var longer := [[b] + parts[0]] + parts[1..];
    assert longer[1..] == parts[1..] && longer[0] == [b] + parts[0];
    if |parts| > 1 {
      assert Join(longer) == ([b] + parts[0]) + [SLASH] + Join(parts[1..]);
      assert Join(parts) == parts[0] + [SLASH] + Join(parts[1..]);
      Regroup(b, parts[0], [SLASH], Join(parts[1..]));
    }
  }

  lemma Regroup(b: Byte, first: Bytes, middle: Bytes, last: Bytes)
    ensures ([b] + first) + middle + last == [b] + (first + middle + last)
  {
  }

  /** Paths component by component; a component `**` stands for any run of components. */
  ghost predicate PathMatches(pattern: seq<Bytes>, path: seq<Bytes>) {
    if pattern == [] then path == []
    else if pattern[0] == DOUBLE_STAR then exists k :: 0 <= k <= |path| && PathMatches(pattern[1..], path[k..])
    else path != [] && Matches(pattern[0], path[0]) && PathMatches(pattern[1..], path[1..])
  }

  lemma DoubleStarStep(pattern: seq<Bytes>, path: seq<Bytes>)
    requires pattern != [] && pattern[0] == DOUBLE_STAR
    ensures PathMatches(pattern, path)
            <==> PathMatches(pattern[1..], path) || (path != [] && PathMatches(pattern, path[1..]))
  {
    assert path[0..] == path;
    if PathMatches(pattern, path) {
      var k :| 0 <= k <= |path| && PathMatches(pattern[1..], path[k..]);
      assert k > 0 ==> path[1..][k - 1..] == path[k..];
    }
    if path != [] && PathMatches(pattern, path[1..]) {
      var k :| 0 <= k <= |path[1..]| && PathMatches(pattern[1..], path[1..][k..]);
      assert path[1..][k..] == path[k + 1..];
    }
  }

  /** A star at the end of a pattern leaves some prefix of the value to the rest. */
  lemma {:induction false} TrailingStar(pattern: Bytes, value: Bytes)
    ensures Matches(pattern + [STAR], value) <==> exists k :: 0 <= k <= |value| && Matches(pattern, value[..k])
  {
    var longer := pattern + [STAR];
    if pattern == [] {
      assert Matches([], value[..0]);
      assert value[|value|..] == [] && Matches(longer[1..], value[|value|..]);
    } else {
      assert longer[1..] == pattern[1..] + [STAR];
      if pattern[0] == STAR {
        if Matches(longer, value) {
          var a :| 0 <= a <= |value| && Matches(longer[1..], value[a..]);
          TrailingStar(pattern[1..], value[a..]);
          var b :| 0 <= b <= |value[a..]| && Matches(pattern[1..], value[a..][..b]);
          assert value[..a + b][a..] == value[a..][..b];
          assert Matches(pattern, value[..a + b]);
        }
        if k :| 0 <= k <= |value| && Matches(pattern, value[..k]) {
          var a :| 0 <= a <= k && Matches(pattern[1..], value[..k][a..]);
          assert value[a..][..k - a] == value[..k][a..];
          TrailingStar(pattern[1..], value[a..]);
          assert Matches(longer[1..], value[a..]);
        }
      } else if value != [] {
        TrailingStar(pattern[1..], value[1..]);
        if k :| 0 <= k <= |value| && Matches(pattern, value[..k]) {
          assert value[..k][1..] == value[1..][..k - 1];
        }
        if k :| 0 <= k <= |value[1..]| && Matches(pattern[1..], value[1..][..k]) && Accepts(pattern[0], value[0]) {
          assert value[..k + 1][1..] == value[1..][..k];
          assert Matches(pattern, value[..k + 1]);
        }
      } else {
        assert forall k :: 0 <= k <= |value| ==> value[..k] == [];
      }
    }
  }

  /** Any other token at the end of a pattern takes the value's last byte. */
  lemma {:induction false} TrailingToken(pattern: Bytes, token: Byte, value: Bytes)
    requires token != STAR
    ensures Matches(pattern + [token], value)
            <==> value != [] && Accepts(token, value[|value| - 1]) && Matches(pattern, value[..|value| - 1])
  {
    var longer := pattern + [token];
    if pattern == [] {
      assert longer[1..] == [];
      assert |value| == 1 ==> value[1..] == [] && value[..0] == [];
    } else {
      assert longer[1..] == pattern[1..] + [token];
      if pattern[0] == STAR {
        if Matches(longer, value) {
          var a :| 0 <= a <= |value| && Matches(longer[1..], value[a..]);
          TrailingToken(pattern[1..], token, value[a..]);
          assert value[a..][..|value[a..]| - 1] == value[..|value| - 1][a..];
        }
        if value != [] && Accepts(token, value[|value| - 1]) && Matches(pattern, value[..|value| - 1]) {
          var shorter := value[..|value| - 1];
          var a :| 0 <= a <= |shorter| && Matches(pattern[1..], shorter[a..]);
          assert value[a..][..|value[a..]| - 1] == shorter[a..];
          TrailingToken(pattern[1..], token, value[a..]);
          assert Matches(longer[1..], value[a..]);
        }
      } else if value != [] {
        TrailingToken(pattern[1..], token, value[1..]);
        if |value| > 1 {
          assert value[1..][..|value[1..]| - 1] == value[..|value| - 1][1..];
        }
      }
    }
  }

  /** How a row of the table follows from the row before it. */
  lemma NextRow(pattern: Bytes, token: Byte, value: Bytes, index: nat)
    requires index <= |value|
    ensures token == STAR ==>
              (Matches(pattern + [token], value[..index])
               <==> Matches(pattern, value[..index]) || (index > 0 && Matches(pattern + [token], value[..index - 1])))
    ensures token != STAR ==>
              (Matches(pattern + [token], value[..index])
               <==> index > 0 && Accepts(token, value[index - 1]) && Matches(pattern, value[..index - 1]))
  {
    var prefix := value[..index];
    if token == STAR {
      TrailingStar(pattern, prefix);
      assert prefix[..index] == prefix;
      if index > 0 {
        var shorter := value[..index - 1];
        TrailingStar(pattern, shorter);
        if k :| 0 <= k <= |shorter| && Matches(pattern, shorter[..k]) {
          assert shorter[..k] == prefix[..k];
        }
        if k :| 0 <= k <= |prefix| && Matches(pattern, prefix[..k]) {
          assert k < index ==> prefix[..k] == shorter[..k];
        }
      }
    } else {
      TrailingToken(pattern, token, prefix);
      assert index > 0 ==> prefix[..index - 1] == value[..index - 1];
    }
  }

  /** One component: row `t` of the table says which prefixes of the value the first `t` tokens match. */
  method ComponentMatches(pattern: Bytes, value: Bytes) returns (matched: bool)
    ensures matched <==> Matches(pattern, value)
  {
    var current := new bool[|value| + 1](j => j == 0);
    for t := 0 to |pattern|
      invariant current.Length == |value| + 1
      invariant forall j :: 0 <= j <= |value| ==> (current[j] <==> Matches(pattern[..t], value[..j]))
    {
      var token := pattern[t];
      assert pattern[..t + 1] == pattern[..t] + [token];
      current := AdvanceRow(current, pattern[..t], token, value);
    }
    assert pattern[..|pattern|] == pattern && value[..|value|] == value;
    matched := current[|value|];
  }

  method AdvanceRow(current: array<bool>, ghost tokens: Bytes, token: Byte, value: Bytes) returns (next: array<bool>)
    requires current.Length == |value| + 1
    requires forall j :: 0 <= j <= |value| ==> (current[j] <==> Matches(tokens, value[..j]))
    ensures next.Length == |value| + 1
    ensures forall j :: 0 <= j <= |value| ==> (next[j] <==> Matches(tokens + [token], value[..j]))
  {
    next := new bool[|value| + 1](_ => false);
    NextRow(tokens, token, value, 0);
    if token == STAR {
      next[0] := current[0];
    }
    for index := 1 to |value| + 1
      invariant forall j :: 0 <= j < index ==> (next[j] <==> Matches(tokens + [token], value[..j]))
    {
      NextRow(tokens, token, value, index);
      next[index] := if token == STAR then current[index] || next[index - 1]
                     else if token == QUESTION then current[index - 1]
                     else current[index - 1] && value[index - 1] == token;
    }
  }

  method MatchComponents(pattern: seq<Bytes>, path: seq<Bytes>) returns (matched: bool)
    ensures matched <==> PathMatches(pattern, path)
    decreases |pattern| + |path|
  {
    if pattern == [] {
      return path == [];
    }
    if pattern[0] == DOUBLE_STAR {
      DoubleStarStep(pattern, path);
      matched := MatchComponents(pattern[1..], path);
      if !matched && path != [] {
        matched := MatchComponents(pattern, path[1..]);
      }
    } else if path == [] {
      matched := false;
    } else {
      matched := ComponentMatches(pattern[0], path[0]);
      if matched {
        matched := MatchComponents(pattern[1..], path[1..]);
      }
    }
  }

  method PathGlobMatches(pattern: Bytes, path: Bytes) returns (matched: bool)
    ensures matched <==> PathMatches(Split(pattern), Split(path))
  {
    matched := MatchComponents(Split(pattern), Split(path));
  }

  lemma {:induction false} SplitWithoutSlash(s: Bytes)
    requires SLASH !in s
    ensures Split(s) == [s]
  {
    if s != [] {
      assert s == [s[0]] + s[1..];
      var first := s[0];
      assert first in s;
      SplitWithoutSlash(s[1..]);
    }
  }

  /** Once the separators of the pattern are normalised the two engines agree, on every value that
      is one component and has no star. */
  lemma EnginesAgree(pattern: Bytes, value: Bytes)
    requires SLASH !in value && StarFree(value)
    ensures GreedyMatches(pattern, value) <==> PathMatches(Split(Normalised(pattern)), Split(value))
  {
    var plain := Normalised(pattern);
    assert SLASH !in plain && BACKSLASH !in plain;
    ComponentEnginesAgree(plain, value);
    assert Normalised(plain) == plain;
    GreedyIsExact(pattern, value);
    GreedyIsExact(plain, value);
  }

  lemma ComponentEnginesAgree(pattern: Bytes, value: Bytes)
    requires SLASH !in pattern && BACKSLASH !in pattern && SLASH !in value && StarFree(value)
    ensures GreedyMatches(pattern, value) <==> PathMatches(Split(pattern), Split(value))
  {
    SplitWithoutSlash(pattern);
    SplitWithoutSlash(value);
    GreedyIsExact(pattern, value);
    forall k | 0 <= k < |pattern|
      ensures Normalised(pattern)[k] == pattern[k]
    {
      var token := pattern[k];
      assert token in pattern;
    }
    assert Normalised(pattern) == pattern;
    var one := [value];
    assert one[1..] == [] && [pattern][1..] == [];
    if pattern == DOUBLE_STAR {
      assert PathMatches([], one[1..]);
      EverythingMatches(value);
    }
  }

  lemma EverythingMatches(value: Bytes)
    ensures Matches(DOUBLE_STAR, value)
  {
    assert DOUBLE_STAR[1..] == [STAR] && [STAR][1..] == [];
    assert value[0..] == value && value[|value|..] == [];
    var tail: Bytes := [STAR];
    assert Matches(tail[1..], value[|value|..]);
    assert Matches(tail, value[0..]);
  }
}

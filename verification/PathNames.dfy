/** Patterns whatever their names: matching against values listed by position, and when the
    captures are enough to give back the path. */
module PathNames {
  import opened Bytes
  import opened PathMatcher

  /** A value for each name of a pattern in the order the names stand, repeated ones included. */
  predicate Filled(tokens: seq<Token>, values: seq<Text>) {
    if tokens == [] then values == []
    else
      match tokens[0]
      case Lit(_) => Filled(tokens[1..], values)
      case Param(_) => values != [] && SLASH !in values[0] && Filled(tokens[1..], values[1..])
      case Rest(_) => values != [] && Filled(tokens[1..], values[1..])
      case Broken => false
  }

  function Fill(tokens: seq<Token>, values: seq<Text>): Text
    requires Filled(tokens, values)
  {
    if tokens == [] then []
    else
      match tokens[0]
      case Lit(c) => [c] + Fill(tokens[1..], values)
      case Param(_) => values[0] + Fill(tokens[1..], values[1..])
      case Rest(_) => values[0] + Fill(tokens[1..], values[1..])
  }

  /** The captures: of a repeated name the last value stays. */
  function Capture(tokens: seq<Token>, values: seq<Text>, into: Captures): Captures
    requires Filled(tokens, values)
  {
    if tokens == [] then into
    else
      match tokens[0]
      case Lit(_) => Capture(tokens[1..], values, into)
      case Param(k) => Capture(tokens[1..], values[1..], into[k := values[0]])
      case Rest(k) => Capture(tokens[1..], values[1..], into[k := values[0]])
  }

  lemma {:induction false} FilledMatches(tokens: seq<Token>, values: seq<Text>, into: Captures)
    requires Separated(tokens) && Filled(tokens, values)
    ensures Match(tokens, Fill(tokens, values), into) == Some(Capture(tokens, values, into))
    decreases |tokens|
  {
    if tokens != [] {
      var rest := tokens[1..];
      match tokens[0]
      case Lit(c) =>
        assert Fill(tokens, values)[1..] == Fill(rest, values);
        FilledMatches(rest, values, into);
      case Param(k) =>
        var after := Fill(rest, values[1..]);
        assert after != [] ==> after[0] == SLASH;
        SegmentOf(values[0], after);
        NameFirst(tokens, values[0], after, into);
        FilledMatches(rest, values[1..], into[k := values[0]]);
      case Rest(k) =>
        assert rest == [] && Fill(tokens, values) == values[0] + [] == values[0];
    }
  }

  lemma {:induction false} MatchedIsFilled(tokens: seq<Token>, path: Text, into: Captures) returns (values: seq<Text>)
    requires Separated(tokens) && Match(tokens, path, into).Some?
    ensures Filled(tokens, values) && Fill(tokens, values) == path
    decreases |tokens|
  {
    if tokens == [] { return []; }
    match tokens[0]
    case Lit(_) =>
      values := MatchedIsFilled(tokens[1..], path[1..], into);
    case Param(k) =>
      var n := SegmentLength(path);
      SegmentSpan(path);
      var others := MatchedIsFilled(tokens[1..], path[n..], into[k := path[..n]]);
      values := [path[..n]] + others;
      assert values[1..] == others;
    case Rest(k) =>
      assert tokens[1..] == [];
      values := [path];
      assert path + [] == path;
  }

  /** For every pattern: a path matches if and only if it is the pattern with some value in the
      place of each name, without slashes for a `:name`. */
  lemma MatchIffFilled(pattern: Text, stars: bool, path: Text, into: Captures)
    ensures Match(Tokens(pattern, stars), path, into).Some? <==>
            exists values :: Filled(Tokens(pattern, stars), values) && Fill(Tokens(pattern, stars), values) == path
  {
    var tokens := Tokens(pattern, stars);
    TokensAreSeparated(pattern, stars);
    if Match(tokens, path, into).Some? {
      var values := MatchedIsFilled(tokens, path, into);
    }
    forall values | Filled(tokens, values) && Fill(tokens, values) == path ensures Match(tokens, path, into).Some? {
      FilledMatches(tokens, values, into);
    }
  }

  // ---- repeated names ---------------------------------------------------------------

  function Ones(n: nat): (s: Text)
    ensures |s| == n && SLASH !in s
  {
    if n == 0 then [] else [49] + Ones(n - 1)
  }

  /** Values that get longer from name to name. */
  function Growing(n: nat, tokens: seq<Token>): (values: seq<Text>)
    requires Broken !in tokens
    ensures Filled(tokens, values)
    decreases |tokens|
  {
    if tokens == [] then []
    else if tokens[0].Lit? then Growing(n, tokens[1..])
    else [Ones(n + 1)] + Growing(n + 1, tokens[1..])
  }

  lemma DistinctCons(tokens: seq<Token>)
    requires tokens != [] && !tokens[0].Broken?
    requires tokens[0].Lit? || tokens[0].key !in Keys(tokens[1..])
    ensures DistinctKeys(tokens) <==> DistinctKeys(tokens[1..])
  {
    if DistinctKeys(tokens) { DistinctTail(tokens); }
    if tokens[0].Lit? {
      assert Keys(tokens) == Keys(tokens[1..]);
    } else if DistinctKeys(tokens[1..]) {
      var all, tail := Keys(tokens), Keys(tokens[1..]);
      assert all == [tokens[0].key] + tail;
      forall i, j | 0 <= i < j < |all| ensures all[i] != all[j] {
        assert all[j] == tail[j - 1] && (i > 0 ==> all[i] == tail[i - 1]);
      }
    }
  }

  /** Captures of growing values put back give more than the path as soon as a name repeats. */
  lemma {:induction false} Outgrows(tokens: seq<Token>, n: nat, into: Captures)
    requires Broken !in tokens
    ensures var values := Growing(n, tokens);
            var c := Capture(tokens, values, into);
            && (forall k <- Keys(tokens) :: k in c && SLASH !in c[k] && |c[k]| > n)
            && (forall k <- into :: k in c && (k !in Keys(tokens) ==> c[k] == into[k]))
            && Admissible(tokens, c)
            && |Instantiate(tokens, c)| >= |Fill(tokens, values)|
            && (!DistinctKeys(tokens) ==> |Instantiate(tokens, c)| > |Fill(tokens, values)|)
    decreases |tokens|
  {
    if tokens != [] {
      var rest := tokens[1..];
      if tokens[0].Lit? {
        Outgrows(rest, n, into);
        DistinctCons(tokens);
      } else {
        var k := tokens[0].key;
        Outgrows(rest, n + 1, into[k := Ones(n + 1)]);
        assert Growing(n, tokens)[1..] == Growing(n + 1, rest);
        assert Keys(tokens) == [k] + Keys(rest);
        if k !in Keys(rest) { DistinctCons(tokens); }
      }
    }
  }

  lemma {:induction false} BrokenNeverMatches(tokens: seq<Token>, path: Text, into: Captures)
    requires Separated(tokens) && Broken in tokens
    ensures Match(tokens, path, into) == None
    decreases |tokens|
  {
    match tokens[0]
    case Lit(_) => if path != [] { BrokenNeverMatches(tokens[1..], path[1..], into); }
    case Param(k) =>
      var n := SegmentLength(path);
      BrokenNeverMatches(tokens[1..], path[n..], into[k := path[..n]]);
    case _ =>
  }

  /** The captures put back into a pattern give the path, for every path that matches, if and
      only if no name repeats (or no path matches at all, for a stray `*`). */
  lemma CapturesSuffice(pattern: Text, stars: bool)
    ensures var tokens := Tokens(pattern, stars);
            DistinctKeys(tokens) || Broken in tokens <==>
            forall path :: Match(tokens, path, map[]).Some? ==>
              var c := Match(tokens, path, map[]).value; Admissible(tokens, c) && Instantiate(tokens, c) == path
  {
    var tokens := Tokens(pattern, stars);
    TokensAreSeparated(pattern, stars);
    if Broken in tokens {
      forall path ensures Match(tokens, path, map[]) == None { BrokenNeverMatches(tokens, path, map[]); }
    } else if DistinctKeys(tokens) {
      forall path | Match(tokens, path, map[]).Some?
        ensures var c := Match(tokens, path, map[]).value; Admissible(tokens, c) && Instantiate(tokens, c) == path
      {
        MatchSound(tokens, path, map[]);
      }
    } else {
      var values := Growing(0, tokens);
      FilledMatches(tokens, values, map[]);
      Outgrows(tokens, 0, map[]);
      var path := Fill(tokens, values);
      assert Match(tokens, path, map[]).Some? && Instantiate(tokens, Match(tokens, path, map[]).value) != path;
    }
  }
}

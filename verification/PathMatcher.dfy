/** Resource paths with `:name` segments and a final `*name`: two matchers, and the lookup
    in the table of registered resources. */
module PathMatcher {
  import opened Bytes

  const STAR: byte := 42
  const SLASH: byte := 47
  const COLON: byte := 58

  type Captures = map<Text, Text>

  // ---- patterns ---------------------------------------------------------------------

  /** How far the segment `s` begins with goes. */
  function SegmentLength(s: Text): (n: nat)
    ensures n <= |s|
  {
    if s == [] || s[0] == SLASH then 0 else 1 + SegmentLength(s[1..])
  }

  /** `Broken` stands for a `*` without a name or before the end: no path matches it. */
  datatype Token = Lit(c: byte) | Param(key: Text) | Rest(key: Text) | Broken

  /** A pattern taken apart.  The client's matcher knows `*`; the resource's does not. */
  function Tokens(pattern: Text, stars: bool): seq<Token> {
    if pattern == [] then []
    else if stars && pattern[0] == STAR then
      var n := SegmentLength(pattern[1..]);
      if n == 0 || n + 1 < |pattern| then [Broken] else [Rest(pattern[1..])]
    else if pattern[0] == COLON then
      var n := SegmentLength(pattern[1..]);
      [Param(pattern[1..n + 1])] + Tokens(pattern[n + 1..], stars)
    else [Lit(pattern[0])] + Tokens(pattern[1..], stars)
  }

  /** The names a pattern captures under, in order. */
  function Keys(tokens: seq<Token>): seq<Text> {
    if tokens == [] then []
    else
      match tokens[0]
      case Param(k) => [k] + Keys(tokens[1..])
      case Rest(k) => [k] + Keys(tokens[1..])
      case _ => Keys(tokens[1..])
  }

  predicate DistinctKeys(tokens: seq<Token>) {
    forall i, j :: 0 <= i < j < |Keys(tokens)| ==> Keys(tokens)[i] != Keys(tokens)[j]
  }

  /** Values a pattern can be instantiated with: every name has one, and that of a `:name`
      stays within its segment. */
  predicate Admissible(tokens: seq<Token>, values: Captures) {
    tokens == [] ||
    ((match tokens[0]
      case Lit(_) => true
      case Param(k) => k in values && SLASH !in values[k]
      case Rest(k) => k in values
      case Broken => false) && Admissible(tokens[1..], values))
  }

  /** The pattern with its names replaced by values. */
  function Instantiate(tokens: seq<Token>, values: Captures): Text
    requires Admissible(tokens, values)
  {
    if tokens == [] then []
    else
      (match tokens[0]
       case Lit(c) => [c]
       case Param(k) => values[k]
       case Rest(k) => values[k]) + Instantiate(tokens[1..], values)
  }

  // ---- matching ---------------------------------------------------------------------

  /** What the matchers' loops compute: captures are stored over those in `into`. */
  function Match(tokens: seq<Token>, path: Text, into: Captures): Option<Captures> {
    if tokens == [] then if path == [] then Some(into) else None
    else
      match tokens[0]
      case Lit(c) => if path != [] && path[0] == c then Match(tokens[1..], path[1..], into) else None
      case Param(k) =>
        var n := SegmentLength(path);
        Match(tokens[1..], path[n..], into[k := path[..n]])
      case Rest(k) => Some(into[k := path])
      case Broken => None
  }

  /** A name runs up to a slash or the end, so a slash or the end is what follows it. */
  predicate Separated(tokens: seq<Token>) {
    && (forall i :: 0 <= i < |tokens| - 1 && tokens[i].Param? ==> tokens[i + 1] == Lit(SLASH))
    && (forall i :: 0 <= i < |tokens| - 1 ==> !tokens[i].Rest?)
  }

  lemma {:induction false} SegmentSpan(s: Text)
    ensures SLASH !in s[..SegmentLength(s)]
    ensures SegmentLength(s) < |s| ==> s[SegmentLength(s)] == SLASH
  {
    if s != [] && s[0] != SLASH {
      SegmentSpan(s[1..]);
      assert s[..SegmentLength(s)] == [s[0]] + s[1..][..SegmentLength(s[1..])];
    }
  }

  lemma {:induction false} SegmentOf(value: Text, after: Text)
    requires SLASH !in value && (after != [] ==> after[0] == SLASH)
    ensures SegmentLength(value + after) == |value|
  {
    if value != [] {
      SegmentOf(value[1..], after);
      assert (value + after)[1..] == value[1..] + after;
    } else {
      assert value + after == after;
    }
  }

  /** What a `*` stands for: the rest of the path under its name, if it has one and it is the last
      thing in the pattern; otherwise nothing matches. To the other matcher it is a letter. */
  lemma StarRule(pattern: Text)
    requires pattern != [] && pattern[0] == '*' as int
    ensures Tokens(pattern, true) ==
            if |pattern| > 1 && '/' as int !in pattern[1..] then [Rest(pattern[1..])] else [Broken]
    ensures Tokens(pattern, false) == [Lit('*' as int)] + Tokens(pattern[1..], false)
  {
    SegmentSpan(pattern[1..]);
    var n := SegmentLength(pattern[1..]);
    if n == |pattern| - 1 { assert pattern[1..][..n] == pattern[1..]; }
  }

  /** A `:` takes the name up to the next slash or the end. */
  lemma NameRule(name: Text, rest: Text, stars: bool)
    requires '/' as int !in name && (rest != [] ==> rest[0] == '/' as int)
    ensures Tokens([':' as int] + name + rest, stars) == [Param(name)] + Tokens(rest, stars)
  {
    var pattern := [':' as int] + name + rest;
    assert pattern[1..] == name + rest;
    SegmentOf(name, rest);
    hide SegmentLength;
    assert pattern[1..|name| + 1] == name && pattern[|name| + 1..] == rest;
  }

  /** Every other letter stands for itself. */
  lemma LetterRule(pattern: Text, stars: bool)
    requires pattern != [] && pattern[0] != ':' as int && (stars ==> pattern[0] != '*' as int)
    ensures Tokens(pattern, stars) == [Lit(pattern[0])] + Tokens(pattern[1..], stars)
  {
  }

  lemma {:induction false} TokensAreSeparated(pattern: Text, stars: bool)
    ensures Separated(Tokens(pattern, stars))
    decreases |pattern|
  {
    if pattern != [] && !(stars && pattern[0] == STAR) {
      if pattern[0] == COLON {
        var n := SegmentLength(pattern[1..]);
        SegmentSpan(pattern[1..]);
        TokensAreSeparated(pattern[n + 1..], stars);
      } else {
        TokensAreSeparated(pattern[1..], stars);
      }
    }
  }

  lemma NameTokens(pattern: Text, stars: bool, i: nat, keyEnd: nat)
    requires i < |pattern| && pattern[i] == COLON && keyEnd == i + 1 + SegmentLength(pattern[i + 1..])
    ensures keyEnd <= |pattern|
    ensures Tokens(pattern[i..], stars) == [Param(pattern[i + 1..keyEnd])] + Tokens(pattern[keyEnd..], stars)
  {
    hide SegmentLength;
    var left := pattern[i..];
    assert left[1..] == pattern[i + 1..];
    assert left[1..keyEnd - i] == pattern[i + 1..keyEnd] && left[keyEnd - i..] == pattern[keyEnd..];
  }

  /** The text a token was made from. */
  function TokenText(t: Token): Text {
    match t
    case Lit(c) => [c]
    case Param(k) => [COLON] + k
    case Rest(k) => [STAR] + k
    case Broken => []
  }

  function Rendered(tokens: seq<Token>): Text {
    if tokens == [] then [] else TokenText(tokens[0]) + Rendered(tokens[1..])
  }

  lemma OtherTokens(pattern: Text, stars: bool)
    requires pattern != [] && pattern[0] != COLON
    requires Broken !in Tokens(pattern, stars)
    ensures if stars && pattern[0] == STAR
            then Tokens(pattern, stars) == [Rest(pattern[1..])] && Tokens([], stars) == []
            else Tokens(pattern, stars) == [Lit(pattern[0])] + Tokens(pattern[1..], stars)
  {
    hide SegmentLength;
  }

  lemma FirstToken(pattern: Text, stars: bool) returns (head: Token, tail: Text)
    requires pattern != [] && Broken !in Tokens(pattern, stars)
    ensures Tokens(pattern, stars) == [head] + Tokens(tail, stars)
    ensures pattern == TokenText(head) + tail && |tail| < |pattern|
  {
    hide Tokens, SegmentLength;
    if pattern[0] == COLON {
      var n := SegmentLength(pattern[1..]);
      assert pattern[0..] == pattern;
      NameTokens(pattern, stars, 0, n + 1);
      head, tail := Param(pattern[1..n + 1]), pattern[n + 1..];
    } else {
      OtherTokens(pattern, stars);
      if stars && pattern[0] == STAR {
        head, tail := Rest(pattern[1..]), [];
      } else {
        head, tail := Lit(pattern[0]), pattern[1..];
      }
    }
  }

  /** Taking a pattern apart loses nothing. */
  lemma {:induction false} TokensRender(pattern: Text, stars: bool)
    requires Broken !in Tokens(pattern, stars)
    ensures Rendered(Tokens(pattern, stars)) == pattern
    decreases |pattern|
  {
    if pattern != [] {
      var head, tail := FirstToken(pattern, stars);
      hide Tokens, TokenText;
      var rest := Tokens(tail, stars);
      assert Broken !in rest && ([head] + rest)[1..] == rest;
      TokensRender(tail, stars);
    }
  }

  /** The matchers agree on every pattern without a `*`. */
  lemma {:induction false} MatchersAgree(pattern: Text)
    requires STAR !in pattern
    ensures Tokens(pattern, true) == Tokens(pattern, false)
    decreases |pattern|
  {
    if pattern != [] {
      assert pattern[0] != STAR;
      if pattern[0] == COLON {
        MatchersAgree(pattern[SegmentLength(pattern[1..]) + 1..]);
      } else {
        MatchersAgree(pattern[1..]);
      }
    }
  }

  // ---- a match is an instance -------------------------------------------------------

  /** Captures of the pattern's own names are added, and no others change. */
  lemma {:induction false} MatchKeeps(tokens: seq<Token>, path: Text, into: Captures)
    requires Separated(tokens) && Match(tokens, path, into).Some?
    ensures var c := Match(tokens, path, into).value;
            && c.Keys == into.Keys + (set k | k in Keys(tokens))
            && forall k <- into :: k !in Keys(tokens) ==> c[k] == into[k]
    decreases |tokens|
  {
    if tokens != [] {
      match tokens[0]
      case Lit(_) => MatchKeeps(tokens[1..], path[1..], into);
      case Param(k) =>
        var n := SegmentLength(path);
        MatchKeeps(tokens[1..], path[n..], into[k := path[..n]]);
      case Rest(k) => assert tokens == [Rest(k)];
    }
  }

  lemma {:induction false} DistinctTail(tokens: seq<Token>)
    requires tokens != [] && DistinctKeys(tokens)
    ensures DistinctKeys(tokens[1..])
    ensures tokens[0].Param? ==> tokens[0].key !in Keys(tokens[1..])
  {
    var all, tail := Keys(tokens), Keys(tokens[1..]);
    if tokens[0].Param? || tokens[0].Rest? {
      assert all == [tokens[0].key] + tail;
      assert forall j :: 0 <= j < |tail| ==> tail[j] == all[j + 1];
      assert forall j :: 0 < j < |all| ==> all[j] != all[0];
    }
  }

  /** A path that matched is the pattern with the captures put in. */
  lemma {:induction false} MatchSound(tokens: seq<Token>, path: Text, into: Captures)
    requires Separated(tokens) && DistinctKeys(tokens) && Match(tokens, path, into).Some?
    ensures var c := Match(tokens, path, into).value;
            Admissible(tokens, c) && Instantiate(tokens, c) == path
    decreases |tokens|
  {
    hide SegmentLength;
    if tokens != [] {
      DistinctTail(tokens);
      match tokens[0]
      case Lit(_) =>
        MatchSound(tokens[1..], path[1..], into);
      case Param(k) =>
        var n := SegmentLength(path);
        SegmentSpan(path);
        MatchKeeps(tokens[1..], path[n..], into[k := path[..n]]);
        MatchSound(tokens[1..], path[n..], into[k := path[..n]]);
      case Rest(k) => assert tokens == [Rest(k)];
    }
  }

  /** The names a pattern captures, as a map restricted to them. */
  function OwnOf(tokens: seq<Token>, values: Captures): Captures {
    map k | k in Keys(tokens) && k in values :: values[k]
  }

  /** Every instance of a pattern matches it, and yields the values it was made with. */
  lemma {:induction false} MatchComplete(tokens: seq<Token>, values: Captures, into: Captures)
    requires Separated(tokens) && DistinctKeys(tokens) && Admissible(tokens, values)
    ensures Match(tokens, Instantiate(tokens, values), into) == Some(into + OwnOf(tokens, values))
    decreases |tokens|
  {
    hide SegmentLength;
    if tokens == [] {
      assert into + OwnOf(tokens, values) == into;
    } else {
      var rest := tokens[1..];
      var path, after := Instantiate(tokens, values), Instantiate(rest, values);
      DistinctTail(tokens);
      OwnFirst(tokens, values, into);
      match tokens[0]
      case Lit(c) =>
        MatchComplete(rest, values, into);
        assert path[1..] == after;
      case Param(k) =>
        SegmentOf(values[k], after);
        NameFirst(tokens, values[k], after, into);
        MatchComplete(rest, values, into[k := values[k]]);
      case Rest(k) =>
        assert rest == [] && path == values[k];
        assert into[k := values[k]] + OwnOf(rest, values) == into[k := values[k]];
    }
  }

  lemma OwnFirst(tokens: seq<Token>, values: Captures, into: Captures)
    requires tokens != [] && Admissible(tokens, values)
    ensures tokens[0].Lit? ==> OwnOf(tokens, values) == OwnOf(tokens[1..], values)
    ensures tokens[0].Param? || tokens[0].Rest? ==>
              into[tokens[0].key := values[tokens[0].key]] + OwnOf(tokens[1..], values) == into + OwnOf(tokens, values)
  {
    var own, tail := OwnOf(tokens, values), OwnOf(tokens[1..], values);
    if tokens[0].Lit? {
      assert Keys(tokens) == Keys(tokens[1..]);
      assert own == tail;
    } else {
      assert Keys(tokens) == [tokens[0].key] + Keys(tokens[1..]);
    }
  }

  lemma NameFirst(tokens: seq<Token>, value: Text, after: Text, into: Captures)
    requires tokens != [] && tokens[0].Param? && SegmentLength(value + after) == |value|
    ensures Match(tokens, value + after, into) == Match(tokens[1..], after, into[tokens[0].key := value])
  {
    var path := value + after;
    assert path[..|value|] == value && path[|value|..] == after;
  }

  /** Matching and instantiating undo each other: for a pattern that names no capture twice,
      a path matches with captures `c` exactly if it is the pattern instantiated with `c`,
      a value for each name and within its segment for a `:name`. */
  lemma MatchIsInstance(pattern: Text, stars: bool, path: Text, c: Captures)
    requires DistinctKeys(Tokens(pattern, stars))
    ensures var tokens := Tokens(pattern, stars);
            Match(tokens, path, map[]) == Some(c) <==>
            && Admissible(tokens, c)
            && Instantiate(tokens, c) == path
            && c.Keys == set k | k in Keys(tokens)
  {
    hide Match, Admissible, Instantiate, Keys, Tokens, DistinctKeys, Separated;
    var tokens := Tokens(pattern, stars);
    TokensAreSeparated(pattern, stars);
    if Match(tokens, path, map[]) == Some(c) {
      MatchSound(tokens, path, map[]);
      MatchKeeps(tokens, path, map[]);
    }
    if Admissible(tokens, c) && c.Keys == set k | k in Keys(tokens) {
      MatchComplete(tokens, c, map[]);
      assert map[] + OwnOf(tokens, c) == c;
    }
  }

  /** Whether a path matches does not depend on what was captured before. */
  lemma {:induction false} MatchIgnores(tokens: seq<Token>, path: Text, a: Captures, b: Captures)
    ensures Match(tokens, path, a).Some? <==> Match(tokens, path, b).Some?
    decreases |tokens|
  {
    if tokens != [] {
      match tokens[0]
      case Lit(_) => if path != [] { MatchIgnores(tokens[1..], path[1..], a, b); }
      case Param(k) =>
        var n := SegmentLength(path);
        MatchIgnores(tokens[1..], path[n..], a[k := path[..n]], b[k := path[..n]]);
      case _ =>
    }
  }

  // ---- the two matchers -------------------------------------------------------------

  /** The inner loops: from `start` on to the next slash or the end. */
  method SkipSegment(s: Text, start: nat) returns (end: nat)
    requires start <= |s|
    ensures end == start + SegmentLength(s[start..]) <= |s|
  {
    end := start;
    while end < |s| && s[end] != SLASH
      invariant start <= end <= |s|
      invariant start + SegmentLength(s[start..]) == end + SegmentLength(s[end..])
    {
      assert s[end..][1..] == s[end + 1..];
      end := end + 1;
    }
  }

  lemma LiteralStep(pattern: Text, stars: bool, i: nat, path: Text, j: nat, captures: Captures)
    requires i < |pattern| && j < |path| && pattern[i] == path[j]
    requires pattern[i] != COLON && !(stars && pattern[i] == STAR)
    ensures Match(Tokens(pattern[i..], stars), path[j..], captures) ==
            Match(Tokens(pattern[i + 1..], stars), path[j + 1..], captures)
  {
    var left, right := pattern[i..], path[j..];
    assert left[1..] == pattern[i + 1..] && right[1..] == path[j + 1..];
    assert Tokens(left, stars)[1..] == Tokens(left[1..], stars);
  }

  lemma NameMatch(key: Text, rest: seq<Token>, path: Text, j: nat, valueEnd: nat, captures: Captures)
    requires j <= |path| && valueEnd == j + SegmentLength(path[j..])
    ensures valueEnd <= |path|
    ensures Match([Param(key)] + rest, path[j..], captures) ==
            Match(rest, path[valueEnd..], captures[key := path[j..valueEnd]])
  {
    hide SegmentLength;
    var right := path[j..];
    assert right[..valueEnd - j] == path[j..valueEnd] && right[valueEnd - j..] == path[valueEnd..];
    assert ([Param(key)] + rest)[1..] == rest;
  }

  lemma NameStep(pattern: Text, stars: bool, i: nat, keyEnd: nat, path: Text, j: nat, valueEnd: nat,
                 captures: Captures)
    requires i < |pattern| && pattern[i] == COLON && j <= |path|
    requires keyEnd == i + 1 + SegmentLength(pattern[i + 1..]) && valueEnd == j + SegmentLength(path[j..])
    ensures keyEnd <= |pattern| && valueEnd <= |path|
    ensures var stored := captures[pattern[i + 1..keyEnd] := path[j..valueEnd]];
            Match(Tokens(pattern[i..], stars), path[j..], captures) ==
            Match(Tokens(pattern[keyEnd..], stars), path[valueEnd..], stored)
  {
    NameTokens(pattern, stars, i, keyEnd);
    hide Match, Tokens, SegmentLength;
    NameMatch(pattern[i + 1..keyEnd], Tokens(pattern[keyEnd..], stars), path, j, valueEnd, captures);
  }

  lemma RestStep(pattern: Text, i: nat, keyEnd: nat, path: Text, j: nat, captures: Captures)
    requires i < |pattern| && pattern[i] == STAR && j <= |path|
    requires keyEnd == i + 1 + SegmentLength(pattern[i + 1..])
    ensures keyEnd <= |pattern|
    ensures Match(Tokens(pattern[i..], true), path[j..], captures) ==
            if keyEnd > i + 1 && keyEnd == |pattern| then Some(captures[pattern[i + 1..keyEnd] := path[j..]]) else None
  {
    assert pattern[i..][1..] == pattern[i + 1..];
    assert keyEnd == |pattern| ==> pattern[i + 1..keyEnd] == pattern[i + 1..];
  }

  /** `client::matches`.  `into` is what the caller's object holds already; after a failure
      it may hold captures of the attempt. */
  method ClientMatches(pattern: Text, path: Text, into: Captures) returns (ok: bool, captures: Captures)
    ensures var r := Match(Tokens(pattern, true), path, into);
            (ok <==> r.Some?) && (ok ==> captures == r.value)
  {
    captures := into;
    var i, j := 0, 0;
    while i < |pattern|
      invariant i <= |pattern| && j <= |path|
      invariant Match(Tokens(pattern, true), path, into) == Match(Tokens(pattern[i..], true), path[j..], captures)
    {
      if pattern[i] == STAR {
        var keyEnd := SkipSegment(pattern, i + 1);
        RestStep(pattern, i, keyEnd, path, j, captures);
        if keyEnd == i + 1 { return false, captures; }
        captures := captures[pattern[i + 1..keyEnd] := path[j..]];
        return keyEnd == |pattern|, captures;
      } else if pattern[i] == COLON {
        var keyEnd := SkipSegment(pattern, i + 1);
        var valueEnd := SkipSegment(path, j);
        NameStep(pattern, true, i, keyEnd, path, j, valueEnd, captures);
        captures := captures[pattern[i + 1..keyEnd] := path[j..valueEnd]];
        i, j := keyEnd, valueEnd;
      } else if j >= |path| || pattern[i] != path[j] {
        return false, captures;
      } else {
        LiteralStep(pattern, true, i, path, j, captures);
        i, j := i + 1, j + 1;
      }
    }
    ok := i == |pattern| && j == |path|;
  }

  /** `iotmp_resource::matches`: the same loop without the `*` branch. */
  method ResourceMatches(pattern: Text, path: Text, into: Captures) returns (ok: bool, captures: Captures)
    ensures var r := Match(Tokens(pattern, false), path, into);
            (ok <==> r.Some?) && (ok ==> captures == r.value)
  {
    captures := into;
    var i, j := 0, 0;
    while i < |pattern|
      invariant i <= |pattern| && j <= |path|
      invariant Match(Tokens(pattern, false), path, into) == Match(Tokens(pattern[i..], false), path[j..], captures)
    {
      if pattern[i] == COLON {
        var keyEnd := SkipSegment(pattern, i + 1);
        var valueEnd := SkipSegment(path, j);
        NameStep(pattern, false, i, keyEnd, path, j, valueEnd, captures);
        captures := captures[pattern[i + 1..keyEnd] := path[j..valueEnd]];
        i, j := keyEnd, valueEnd;
      } else if j >= |path| || pattern[i] != path[j] {
        return false, captures;
      } else {
        LiteralStep(pattern, false, i, path, j, captures);
        i, j := i + 1, j + 1;
      }
    }
    ok := i == |pattern| && j == |path|;
  }

  // ---- lookup -----------------------------------------------------------------------

  /** `pattern` matches `path` in the client's reading. */
  predicate IsMatch(pattern: Text, path: Text) {
    Match(Tokens(pattern, true), path, map[]).Some?
  }

  /** `client::get_resource` over the table's patterns in map order: the least one that
      matches, or none exactly if none does.  Candidates that fail half way leave captures
      behind, but put into the pattern found, its own give back the request. */
  method GetResource(patterns: seq<Text>, path: Text, into: Captures)
      returns (found: Option<nat>, captures: Captures)
    requires forall i, j :: 0 <= i < j < |patterns| ==> Less(patterns[i], patterns[j])
    ensures found == None <==> forall p <- patterns :: !IsMatch(p, path)
    ensures found.Some? ==>
              && found.value < |patterns|
              && IsMatch(patterns[found.value], path)
              && (forall p <- patterns ::
                    IsMatch(p, path) ==> p == patterns[found.value] || Less(patterns[found.value], p))
    ensures found.Some? ==>
              var tokens := Tokens(patterns[found.value], true);
              DistinctKeys(tokens) ==> Admissible(tokens, captures) && Instantiate(tokens, captures) == path
  {
    captures := into;
    for i := 0 to |patterns|
      invariant forall k :: 0 <= k < i ==> !IsMatch(patterns[k], path)
    {
      ghost var before, tokens := captures, Tokens(patterns[i], true);
      var ok;
      ok, captures := ClientMatches(patterns[i], path, captures);
      MatchIgnores(tokens, path, before, map[]);
      if ok {
        assert patterns[i] in patterns;
        TokensAreSeparated(patterns[i], true);
        if DistinctKeys(tokens) { MatchSound(tokens, path, before); }
        return Some(i), captures;
      }
    }
    found := None;
  }
}

/**
 * The route-template language shared by the three routers: a template such as
 * "/world/:id" is literal text with named captures (":name") and splat
 * captures ("*name").  Compilation scans the template with the global regular
 * expressions ":(\w+)" and "\*(\w+)", collects the capture names and replaces
 * each marker by a capture group.  The resulting pattern is modelled by its
 * token list, matched by a backtracking search that tries the alternatives in
 * the order a Perl-style regular-expression engine does.
 */
module PathTemplate {
  import opened Bytes

  // ---------------------------------------------------------------------
  // Scanning: the global ":(\w+)" / "\*(\w+)" searches and replacements
  // ---------------------------------------------------------------------

  /** \w, restricted to ASCII. */
  predicate IsWordChar(c: char)
  {
    'a' <= c <= 'z' || 'A' <= c <= 'Z' || '0' <= c <= '9' || c == '_'
  }

  /** The class [\w_-] used for named captures. */
  predicate IsSegmentChar(c: char) { IsWordChar(c) || c == '-' }

  predicate AllWordChars(w: string) { forall i :: 0 <= i < |w| ==> IsWordChar(w[i]) }

  /** Length of the longest word-character prefix of s. */
  function WordRun(s: string): (n: nat)
    ensures n <= |s|
    ensures AllWordChars(s[..n])
    ensures n < |s| ==> !IsWordChar(s[n])
  {
    if s == [] || !IsWordChar(s[0]) then 0
    else
      var n := 1 + WordRun(s[1..]);
      assert s[..n] == [s[0]] + s[1..][..n - 1];
      n
  }

  /** The marker m followed by at least one word character starts s. */
  predicate MarkerAtStart(s: string, m: char)
  {
    |s| >= 2 && s[0] == m && IsWordChar(s[1])
  }

  /** The captured word of a marker match at the start of s. */
  function MarkerWord(s: string, m: char): (w: string)
    requires MarkerAtStart(s, m)
    ensures |w| >= 1 && AllWordChars(w)
  {
    var n := WordRun(s[1..]);
    assert s[1..1 + n] == s[1..][..n];
    s[1..1 + n]
  }

  /** What the marker match at the start of s covers: the marker and its word. */
  function MarkerLength(s: string, m: char): (n: nat)
    requires MarkerAtStart(s, m)
    ensures 2 <= n <= |s|
  {
    1 + WordRun(s[1..])
  }

  /** Every word a global search for "m(\w+)" reports, left to right. */
  function MarkerNames(s: string, m: char): seq<string>
    decreases |s|
  {
    if s == [] then []
    else if MarkerAtStart(s, m) then [MarkerWord(s, m)] + MarkerNames(s[MarkerLength(s, m)..], m)
    else MarkerNames(s[1..], m)
  }

  /** The text of a global replace of "m(\w+)" by rep. */
  function ReplaceMarkers(s: string, m: char, rep: string): string
    decreases |s|
  {
    if s == [] then []
    else if MarkerAtStart(s, m) then rep + ReplaceMarkers(s[MarkerLength(s, m)..], m, rep)
    else [s[0]] + ReplaceMarkers(s[1..], m, rep)
  }

  /** QRegExp::indexIn / RegExp.exec: the first marker match at or after from, or -1. */
  function IndexIn(s: string, from: nat, m: char): (j: int)
    requires from <= |s|
    ensures j == -1 || from <= j < |s|
    ensures j >= 0 ==> MarkerAtStart(s[j..], m)
    ensures forall k :: from <= k < |s| && (j == -1 || k < j) ==> !MarkerAtStart(s[k..], m)
    decreases |s| - from
  {
    if from == |s| then -1
    else if MarkerAtStart(s[from..], m) then from
    else IndexIn(s, from + 1, m)
  }

  /** Names are unaffected by a stretch of text holding no marker match. */
  lemma {:induction false} MarkerNamesSkip(s: string, lo: nat, hi: nat, m: char)
    requires lo <= hi <= |s|
    requires forall k :: lo <= k < hi ==> !MarkerAtStart(s[k..], m)
    ensures MarkerNames(s[lo..], m) == MarkerNames(s[hi..], m)
    decreases hi - lo
  {
    if lo < hi {
      assert s[lo..][1..] == s[lo + 1..];
      MarkerNamesSkip(s, lo + 1, hi, m);
    }
  }

  /**
   * The scanning loop of pathToRegExp / rebuild / addRoute: repeated indexIn
   * from the end of the previous match, collecting each captured word.
   */
  method CollectNames(s: string, m: char) returns (names: seq<string>)
    ensures names == MarkerNames(s, m)
  {
    names := [];
    var pos: int := 0;
    while pos >= 0
      invariant pos <= |s|
      invariant pos >= 0 ==> names + MarkerNames(s[pos..], m) == MarkerNames(s, m)
      invariant pos < 0 ==> names == MarkerNames(s, m)
      decreases if pos < 0 then 0 else |s| - pos + 1
    {
      var j := IndexIn(s, pos, m);
      if j >= 0 {
        MarkerNamesSkip(s, pos, j, m);
        var t := s[j..];
        assert t[MarkerLength(t, m)..] == s[j + MarkerLength(t, m)..];
        names := names + [MarkerWord(t, m)];
        pos := j + MarkerLength(t, m);
      } else {
        MarkerNamesSkip(s, pos, |s|, m);
        assert s[|s|..] == [];
        pos := -1;
      }
    }
  }

  // ---------------------------------------------------------------------
  // Tokens
  // ---------------------------------------------------------------------

  /**
   * A template is literal characters, named captures and splat captures.
   * Literal characters are placed in the pattern unescaped.
   */
  datatype Token = Lit(c: char) | Named(name: string) | Splat(name: string)

  function Tokenize(s: string): (ts: seq<Token>)
    decreases |s|
  {
    if s == [] then []
    else if MarkerAtStart(s, ':') then [Named(MarkerWord(s, ':'))] + Tokenize(s[MarkerLength(s, ':')..])
    else if MarkerAtStart(s, '*') then [Splat(MarkerWord(s, '*'))] + Tokenize(s[MarkerLength(s, '*')..])
    else [Lit(s[0])] + Tokenize(s[1..])
  }

  function NamedNames(ts: seq<Token>): seq<string>
  {
    if ts == [] then []
    else (if ts[0].Named? then [ts[0].name] else []) + NamedNames(ts[1..])
  }

  function SplatNames(ts: seq<Token>): seq<string>
  {
    if ts == [] then []
    else (if ts[0].Splat? then [ts[0].name] else []) + SplatNames(ts[1..])
  }

  /** The capture names in the order the capture groups appear. */
  function PositionalNames(ts: seq<Token>): seq<string>
  {
    if ts == [] then []
    else (if ts[0].Lit? then [] else [ts[0].name]) + PositionalNames(ts[1..])
  }

  /** The parameter-name list every router builds: named names, then splat names. */
  function ParamNames(ts: seq<Token>): seq<string>
  {
    NamedNames(ts) + SplatNames(ts)
  }

  function CaptureCount(ts: seq<Token>): (n: nat)
    ensures n == |PositionalNames(ts)|
  {
    if ts == [] then 0 else (if ts[0].Lit? then 0 else 1) + CaptureCount(ts[1..])
  }

  /** The three name lists of a template with one more token in front. */
  lemma NamesCons(t: Token, ts: seq<Token>)
    ensures NamedNames([t] + ts) == (if t.Named? then [t.name] else []) + NamedNames(ts)
    ensures SplatNames([t] + ts) == (if t.Splat? then [t.name] else []) + SplatNames(ts)
    ensures PositionalNames([t] + ts) == (if t.Lit? then [] else [t.name]) + PositionalNames(ts)
  {
    assert ([t] + ts)[1..] == ts;
  }

  /** As many names as capture groups, whatever their interleaving. */
  lemma {:induction false} ParamNamesCount(ts: seq<Token>)
    ensures |ParamNames(ts)| == CaptureCount(ts)
  {
    if ts != [] {
      ParamNamesCount(ts[1..]);
    }
  }

  /** No splat is followed by a named capture. */
  predicate NamedBeforeSplat(ts: seq<Token>)
  {
    forall i, j :: 0 <= i < j < |ts| && ts[i].Splat? ==> !ts[j].Named?
  }

  lemma {:induction false} NoNamedAfterSplat(ts: seq<Token>)
    requires forall i :: 0 <= i < |ts| ==> !ts[i].Named?
    ensures NamedNames(ts) == [] && PositionalNames(ts) == SplatNames(ts)
  {
    if ts != [] {
      NoNamedAfterSplat(ts[1..]);
    }
  }

  /**
   * Positional order and name order agree exactly when no splat precedes a
   * named capture (one direction: the order-preserving case).
   */
  lemma {:induction false} ParamNamesPositional(ts: seq<Token>)
    requires NamedBeforeSplat(ts)
    ensures ParamNames(ts) == PositionalNames(ts)
  {
    if ts != [] {
      ParamNamesPositional(ts[1..]);
      if ts[0].Splat? {
        NoNamedAfterSplat(ts[1..]);
        assert ParamNames(ts) == [] + ([ts[0].name] + SplatNames(ts[1..]));
      }
    }
  }

  /** The names MarkerNames reports are those of the tokenizer. */
  lemma {:induction false} WordSkip(w: string, rest: string, m: char, rep: string)
    requires AllWordChars(w) && !IsWordChar(m)
    ensures MarkerNames(w + rest, m) == MarkerNames(rest, m)
    ensures ReplaceMarkers(w + rest, m, rep) == w + ReplaceMarkers(rest, m, rep)
  {
    if w != [] {
      assert (w + rest)[0] == w[0] && IsWordChar(w[0]);
      assert (w + rest)[1..] == w[1..] + rest;
      assert AllWordChars(w[1..]) by {
        forall i | 0 <= i < |w[1..]| ensures IsWordChar(w[1..][i]) {
          assert w[1..][i] == w[i + 1];
        }
      }
      WordSkip(w[1..], rest, m, rep);
    } else {
      assert w + rest == rest;
    }
  }

  lemma {:induction false} TokenizeNames(s: string)
    ensures MarkerNames(s, ':') == NamedNames(Tokenize(s))
    ensures MarkerNames(s, '*') == SplatNames(Tokenize(s))
    decreases |s|
  {
    if s != [] {
      if MarkerAtStart(s, ':') {
        var n := MarkerLength(s, ':');
        TokenizeNames(s[n..]);
        NamesCons(Named(MarkerWord(s, ':')), Tokenize(s[n..]));
        assert s[1..] == MarkerWord(s, ':') + s[n..];
        WordSkip(MarkerWord(s, ':'), s[n..], '*', "");
      } else if MarkerAtStart(s, '*') {
        var n := MarkerLength(s, '*');
        TokenizeNames(s[n..]);
        NamesCons(Splat(MarkerWord(s, '*')), Tokenize(s[n..]));
        assert s[1..] == MarkerWord(s, '*') + s[n..];
        WordSkip(MarkerWord(s, '*'), s[n..], ':', "");
      } else {
        TokenizeNames(s[1..]);
        NamesCons(Lit(s[0]), Tokenize(s[1..]));
      }
    }
  }

  /** The named-capture group: ([\w_-]+) in C++, ([\w_-]+?) in the script. */
  const GreedyNamedGroup: string := "([\\w_-]+)"
  const LazyNamedGroup: string := "([\\w_-]+?)"
  const SplatGroup: string := "(.*)"

  /** The pattern text of a token list, each capture replaced by its group. */
  function Render(ts: seq<Token>, named: string, splat: string): string
  {
    if ts == [] then []
    else
      (match ts[0] case Lit(c) => [c] case Named(_) => named case Splat(_) => splat)
      + Render(ts[1..], named, splat)
  }

  /** A replacement that can sit between two template pieces without joining them. */
  predicate InertGroup(rep: string)
  {
    |rep| >= 1 && !IsWordChar(rep[0]) && '*' !in rep && ':' !in rep
  }

  lemma GroupsInert()
    ensures InertGroup(GreedyNamedGroup) && InertGroup(LazyNamedGroup)
  {
  }

  lemma {:induction false} NoMarkerPrefix(p: string, x: string, m: char, rep: string)
    requires m !in p
    ensures MarkerNames(p + x, m) == MarkerNames(x, m)
    ensures ReplaceMarkers(p + x, m, rep) == p + ReplaceMarkers(x, m, rep)
  {
    if p != [] {
      assert (p + x)[0] == p[0] != m;
      assert (p + x)[1..] == p[1..] + x;
      assert p == [p[0]] + p[1..];
      NoMarkerPrefix(p[1..], x, m, rep);
    } else {
      assert p + x == x;
    }
  }

  lemma {:induction false} RunStops(w: string, x: string)
    requires AllWordChars(w)
    requires x == [] || !IsWordChar(x[0])
    ensures WordRun(w + x) == |w|
  {
    if w != [] {
      assert (w + x)[1..] == w[1..] + x;
      RunStops(w[1..], x);
    } else {
      assert w + x == x;
    }
  }

  lemma {:induction false} ReplaceKeepsBoundary(x: string, rep: string)
    requires InertGroup(rep)
    requires x == [] || !IsWordChar(x[0])
    ensures var y := ReplaceMarkers(x, ':', rep); (y == [] <==> x == []) && (y == [] || !IsWordChar(y[0]))
  {
  }

  /** The splat pass over the named-replaced text agrees with the template's tokens. */
  predicate SplatPassAgrees(s: string, named: string, splat: string)
  {
    var r := ReplaceMarkers(s, ':', named);
    MarkerNames(r, '*') == MarkerNames(s, '*')
    && ReplaceMarkers(r, '*', splat) == Render(Tokenize(s), named, splat)
  }

  lemma SplatPassNamedStep(s: string, named: string, splat: string)
    requires InertGroup(named) && MarkerAtStart(s, ':')
    requires SplatPassAgrees(s[MarkerLength(s, ':')..], named, splat)
    ensures SplatPassAgrees(s, named, splat)
  {
    var n := MarkerLength(s, ':');
    var rest := s[n..];
    var rr := ReplaceMarkers(rest, ':', named);
    assert ReplaceMarkers(s, ':', named) == named + rr;
    NoMarkerPrefix(named, rr, '*', splat);
    assert s[1..] == MarkerWord(s, ':') + rest;
    WordSkip(MarkerWord(s, ':'), rest, '*', splat);
  }

  lemma SplatPassSplatStep(s: string, named: string, splat: string)
    requires InertGroup(named) && MarkerAtStart(s, '*')
    requires SplatPassAgrees(s[MarkerLength(s, '*')..], named, splat)
    ensures SplatPassAgrees(s, named, splat)
  {
    var n := MarkerLength(s, '*');
    var w := MarkerWord(s, '*');
    var rest := s[n..];
    assert s[1..] == w + rest;
    WordSkip(w, rest, ':', named);
    var rr := ReplaceMarkers(rest, ':', named);
    var r := ReplaceMarkers(s, ':', named);
    assert r == ['*'] + (w + rr);
    ReplaceKeepsBoundary(rest, named);
    RunStops(w, rr);
    assert r[1..] == w + rr;
    assert MarkerAtStart(r, '*');
    assert MarkerLength(r, '*') == n;
    assert r[1..n] == w;
    assert r[n..] == rr;
  }

  lemma SplatPassLiteralStep(s: string, named: string, splat: string)
    requires InertGroup(named) && s != [] && !MarkerAtStart(s, ':') && !MarkerAtStart(s, '*')
    requires SplatPassAgrees(s[1..], named, splat)
    ensures SplatPassAgrees(s, named, splat)
  {
    var rr := ReplaceMarkers(s[1..], ':', named);
    var r := ReplaceMarkers(s, ':', named);
    assert r == [s[0]] + rr;
    assert r[1..] == rr;
    if s[0] == '*' {
      ReplaceKeepsBoundary(s[1..], named);
      assert !MarkerAtStart(r, '*');
    }
  }

  /**
   * The splat pass that runs on the text after named captures were replaced
   * sees exactly the splats of the template and yields the full pattern text.
   */
  lemma {:induction false} SplatPassAfterNamedPass(s: string, named: string, splat: string)
    requires InertGroup(named)
    ensures MarkerNames(ReplaceMarkers(s, ':', named), '*') == MarkerNames(s, '*')
    ensures ReplaceMarkers(ReplaceMarkers(s, ':', named), '*', splat) == Render(Tokenize(s), named, splat)
    decreases |s|
  {
    if s == [] {
    } else if MarkerAtStart(s, ':') {
      SplatPassAfterNamedPass(s[MarkerLength(s, ':')..], named, splat);
      SplatPassNamedStep(s, named, splat);
    } else if MarkerAtStart(s, '*') {
      SplatPassAfterNamedPass(s[MarkerLength(s, '*')..], named, splat);
      SplatPassSplatStep(s, named, splat);
    } else {
      SplatPassAfterNamedPass(s[1..], named, splat);
      SplatPassLiteralStep(s, named, splat);
    }
  }

  // ---------------------------------------------------------------------
  // Matching
  // ---------------------------------------------------------------------

  /**
   * How a router's compiled pattern behaves: lazy or greedy named groups, an
   * optional trailing "/" before the end anchor, and whether '.' refuses line
   * terminators (JavaScript) or matches every character (QRegExp).
   */
  datatype Flavour = Flavour(lazyNamed: bool, optionalSlash: bool, dotRefusesLineBreaks: bool)

  /** test.js: "^" + path + "/?$" with ([\w_-]+?). */
  const ScriptFlavour: Flavour := Flavour(true, true, true)
  /** pathToRegExp and RouteMatcher::rebuild: "^" + path + "$" with ([\w_-]+). */
  const QtFlavour: Flavour := Flavour(false, false, false)

  predicate DotMatches(c: char, f: Flavour)
  {
    !f.dotRefusesLineBreaks || (c != '\n' && c != '\r' && c != '\U{2028}' && c != '\U{2029}')
  }

  /** A literal template character: '.' is a wildcard, anything else matches itself. */
  predicate LitMatches(l: char, c: char, f: Flavour)
  {
    if l == '.' then DotMatches(c, f) else c == l
  }

  function SegmentRun(s: string): (n: nat)
    ensures n <= |s|
    ensures forall i :: 0 <= i < n ==> IsSegmentChar(s[i])
    ensures n < |s| ==> !IsSegmentChar(s[n])
  {
    if s == [] || !IsSegmentChar(s[0]) then 0 else 1 + SegmentRun(s[1..])
  }

  function DotRun(s: string, f: Flavour): (n: nat)
    ensures n <= |s|
    ensures forall i :: 0 <= i < n ==> DotMatches(s[i], f)
    ensures n < |s| ==> !DotMatches(s[n], f)
  {
    if s == [] || !DotMatches(s[0], f) then 0 else 1 + DotRun(s[1..], f)
  }

  /** The end of the pattern: "$", or "/?$" when a trailing slash is allowed. */
  predicate AtEnd(s: string, f: Flavour)
  {
    s == [] || (f.optionalSlash && s == "/")
  }

  /**
   * The declarative meaning of a match: s is the concatenation of the pieces,
   * caps holds one capture per capture token, each capture drawn from its class.
   */
  predicate Matches(ts: seq<Token>, s: string, caps: seq<string>, f: Flavour)
    decreases |ts|
  {
    if ts == [] then caps == [] && AtEnd(s, f)
    else match ts[0]
      case Lit(l) => s != [] && LitMatches(l, s[0], f) && Matches(ts[1..], s[1..], caps, f)
      case Named(_) =>
        caps != [] && 1 <= |caps[0]| <= SegmentRun(s) && caps[0] == s[..|caps[0]|]
        && Matches(ts[1..], s[|caps[0]|..], caps[1..], f)
      case Splat(_) =>
        caps != [] && |caps[0]| <= DotRun(s, f) && caps[0] == s[..|caps[0]|]
        && Matches(ts[1..], s[|caps[0]|..], caps[1..], f)
  }

  /** n, n-1, ..., lo */
  function Down(n: int, lo: int): (r: seq<nat>)
    requires 0 <= lo
    ensures forall k :: k in r <==> lo <= k <= n
    decreases n - lo + 1
  {
    if n < lo then [] else [n as nat] + Down(n - 1, lo)
  }

  /** lo, lo+1, ..., n */
  function Up(lo: nat, n: int): (r: seq<nat>)
    ensures forall k :: k in r <==> lo <= k <= n
    decreases n - lo + 1
  {
    if n < lo then [] else [lo] + Up(lo + 1, n)
  }

  /** The capture lengths a backtracking engine tries for the first token, in order. */
  function Candidates(t: Token, s: string, f: Flavour): seq<nat>
    requires !t.Lit?
  {
    if t.Named? then (if f.lazyNamed then Up(1, SegmentRun(s)) else Down(SegmentRun(s), 1))
    else Down(DotRun(s, f), 0)
  }

  /**
   * The captures of the first successful match in backtracking order, or None
   * when the pattern does not match s.
   */
  function Search(ts: seq<Token>, s: string, f: Flavour): (r: Option<seq<string>>)
    ensures r.Some? ==> |r.value| == CaptureCount(ts)
    decreases |ts|, 1, 0
  {
    if ts == [] then (if AtEnd(s, f) then Some([]) else None)
    else if ts[0].Lit? then
      (if s != [] && LitMatches(ts[0].c, s[0], f) then Search(ts[1..], s[1..], f) else None)
    else TryCuts(ts, s, Candidates(ts[0], s, f), f)
  }

  function TryCuts(ts: seq<Token>, s: string, cuts: seq<nat>, f: Flavour): (r: Option<seq<string>>)
    requires ts != [] && !ts[0].Lit?
    ensures r.Some? ==> |r.value| == CaptureCount(ts)
    decreases |ts|, 0, |cuts|
  {
    if cuts == [] then None
    else if cuts[0] <= |s| && Search(ts[1..], s[cuts[0]..], f).Some? then
      Some([s[..cuts[0]]] + Search(ts[1..], s[cuts[0]..], f).value)
    else TryCuts(ts, s, cuts[1..], f)
  }

  /** Every match the search reports is a match. */
  lemma {:induction false} SearchSound(ts: seq<Token>, s: string, f: Flavour)
    ensures Search(ts, s, f).Some? ==> Matches(ts, s, Search(ts, s, f).value, f)
    decreases |ts|, 1, 0
  {
    if ts != [] {
      if ts[0].Lit? {
        if s != [] {
          SearchSound(ts[1..], s[1..], f);
        }
      } else {
        TryCutsSound(ts, s, Candidates(ts[0], s, f), f);
      }
    }
  }

  lemma {:induction false} TryCutsSound(ts: seq<Token>, s: string, cuts: seq<nat>, f: Flavour)
    requires ts != [] && !ts[0].Lit?
    requires forall k :: k in cuts ==> k in Candidates(ts[0], s, f)
    ensures TryCuts(ts, s, cuts, f).Some? ==> Matches(ts, s, TryCuts(ts, s, cuts, f).value, f)
    decreases |ts|, 0, |cuts|
  {
    if cuts != [] {
      var k := cuts[0];
      if k <= |s| && Search(ts[1..], s[k..], f).Some? {
        SearchSound(ts[1..], s[k..], f);
        var caps := TryCuts(ts, s, cuts, f).value;
        assert caps[0] == s[..k] && caps[1..] == Search(ts[1..], s[k..], f).value;
        assert k in Candidates(ts[0], s, f);
        if ts[0].Named? {
          assert 1 <= k <= SegmentRun(s);
        } else {
          assert k <= DotRun(s, f);
        }
      } else {
        TryCutsSound(ts, s, cuts[1..], f);
      }
    }
  }

  lemma {:induction false} TryCutsFinds(ts: seq<Token>, s: string, cuts: seq<nat>, k: nat, f: Flavour)
    requires ts != [] && !ts[0].Lit?
    requires k in cuts && k <= |s| && Search(ts[1..], s[k..], f).Some?
    ensures TryCuts(ts, s, cuts, f).Some?
    decreases |cuts|
  {
    if cuts[0] != k {
      TryCutsFinds(ts, s, cuts[1..], k, f);
    }
  }

  /**
   * Greedy backtracking: trying the cuts n, n-1, ..., 0, the first one whose
   * rest matches wins, so every longer cut that fails is skipped.
   */
  lemma {:induction false} TryCutsDownFinds(ts: seq<Token>, s: string, n: nat, m: nat, f: Flavour)
    requires ts != [] && !ts[0].Lit?
    requires m <= n <= |s|
    requires forall k :: m < k <= n ==> Search(ts[1..], s[k..], f).None?
    requires Search(ts[1..], s[m..], f).Some?
    ensures TryCuts(ts, s, Down(n, 0), f) == Some([s[..m]] + Search(ts[1..], s[m..], f).value)
    decreases n - m
  {
    var cuts := Down(n, 0);
    assert cuts == [n] + Down(n - 1, 0);
    assert cuts[0] == n && cuts[1..] == Down(n - 1, 0);
    if n > m {
      assert Search(ts[1..], s[n..], f).None?;
      TryCutsDownFinds(ts, s, n - 1, m, f);
      assert TryCuts(ts, s, cuts, f) == TryCuts(ts, s, cuts[1..], f);
    } else {
      assert TryCuts(ts, s, cuts, f) == Some([s[..n]] + Search(ts[1..], s[n..], f).value);
    }
  }

  /** Whenever some match exists, the search finds one. */
  lemma {:induction false} SearchComplete(ts: seq<Token>, s: string, caps: seq<string>, f: Flavour)
    requires Matches(ts, s, caps, f)
    ensures Search(ts, s, f).Some?
    decreases |ts|
  {
    if ts != [] {
      if ts[0].Lit? {
        SearchComplete(ts[1..], s[1..], caps, f);
      } else {
        var k := |caps[0]|;
        SearchComplete(ts[1..], s[k..], caps[1..], f);
        if ts[0].Named? {
          assert 1 <= k <= SegmentRun(s);
          if f.lazyNamed {
            assert k in Up(1, SegmentRun(s));
          } else {
            assert k in Down(SegmentRun(s), 1);
          }
        } else {
          assert k in Down(DotRun(s, f), 0);
        }
        TryCutsFinds(ts, s, Candidates(ts[0], s, f), k, f);
      }
    }
  }

  /** A pattern matches s exactly when some decomposition of s fits it. */
  lemma SearchExact(ts: seq<Token>, s: string, f: Flavour)
    ensures Search(ts, s, f).Some? <==> exists caps :: Matches(ts, s, caps, f)
  {
    SearchSound(ts, s, f);
    if Search(ts, s, f).Some? {
      var caps := Search(ts, s, f).value;
      assert Matches(ts, s, caps, f);
      assert exists c :: Matches(ts, s, c, f);
    } else {
      forall caps ensures !Matches(ts, s, caps, f) {
        if Matches(ts, s, caps, f) {
          SearchComplete(ts, s, caps, f);
        }
      }
    }
  }

  /** Greedy and lazy named groups accept the same paths; only captures may differ. */
  lemma LazinessKeepsLanguage(ts: seq<Token>, s: string, f: Flavour)
    ensures Search(ts, s, f).Some? <==> Search(ts, s, f.(lazyNamed := !f.lazyNamed)).Some?
  {
    var g := f.(lazyNamed := !f.lazyNamed);
    SearchSound(ts, s, f);
    SearchSound(ts, s, g);
    if Search(ts, s, f).Some? {
      MatchesIgnoresLaziness(ts, s, Search(ts, s, f).value, f, g);
      SearchComplete(ts, s, Search(ts, s, f).value, g);
    }
    if Search(ts, s, g).Some? {
      MatchesIgnoresLaziness(ts, s, Search(ts, s, g).value, g, f);
      SearchComplete(ts, s, Search(ts, s, g).value, f);
    }
  }

  lemma {:induction false} MatchesIgnoresLaziness(ts: seq<Token>, s: string, caps: seq<string>, f: Flavour, g: Flavour)
    requires f.optionalSlash == g.optionalSlash && f.dotRefusesLineBreaks == g.dotRefusesLineBreaks
    requires Matches(ts, s, caps, f)
    ensures Matches(ts, s, caps, g)
    decreases |ts|
  {
    if ts != [] {
      if ts[0].Lit? {
        MatchesIgnoresLaziness(ts[1..], s[1..], caps, f, g);
      } else {
        assert DotRun(s, f) == DotRun(s, g) by { DotRunFlavour(s, f, g); }
        MatchesIgnoresLaziness(ts[1..], s[|caps[0]|..], caps[1..], f, g);
      }
    }
  }

  lemma {:induction false} DotRunFlavour(s: string, f: Flavour, g: Flavour)
    requires f.dotRefusesLineBreaks == g.dotRefusesLineBreaks
    ensures DotRun(s, f) == DotRun(s, g)
  {
    if s != [] {
      DotRunFlavour(s[1..], f, g);
    }
  }

  // ---------------------------------------------------------------------
  // Composition: tokenizing and matching template pieces
  // ---------------------------------------------------------------------

  /** The literal tokens of a piece of template text. */
  function Lits(w: string): (ts: seq<Token>)
    ensures |ts| == |w|
    ensures forall i :: 0 <= i < |w| ==> ts[i] == Lit(w[i])
  {
    if w == [] then [] else [Lit(w[0])] + Lits(w[1..])
  }

  /** Text without ':' or '*' tokenizes to its literal characters. */
  lemma {:induction false} TokenizeLiterals(w: string, rest: string)
    requires ':' !in w && '*' !in w
    ensures Tokenize(w + rest) == Lits(w) + Tokenize(rest)
  {
    if w == [] {
      assert w + rest == rest;
    } else {
      assert (w + rest)[0] == w[0];
      assert (w + rest)[1..] == w[1..] + rest;
      assert w == [w[0]] + w[1..];
      TokenizeLiterals(w[1..], rest);
    }
  }

  /** A marker with its whole word tokenizes to one capture token. */
  lemma TokenizeMarker(m: char, name: string, rest: string)
    requires m == ':' || m == '*'
    requires |name| >= 1 && AllWordChars(name)
    requires rest == [] || !IsWordChar(rest[0])
    ensures Tokenize([m] + name + rest) == [if m == ':' then Named(name) else Splat(name)] + Tokenize(rest)
  {
    var s := [m] + name + rest;
    assert s[0] == m && s[1..] == name + rest;
    assert s[1] == name[0];
    RunStops(name, rest);
    assert MarkerAtStart(s, m);
    assert MarkerLength(s, m) == 1 + |name|;
    assert s[1..1 + |name|] == name;
    assert s[1 + |name|..] == rest;
  }

  /** Literal template text without '.' consumes exactly itself. */
  lemma {:induction false} SearchLits(w: string, ts: seq<Token>, s: string, f: Flavour)
    requires '.' !in w
    ensures Search(Lits(w) + ts, w + s, f) == Search(ts, s, f)
  {
    if w == [] {
      assert Lits(w) + ts == ts && w + s == s;
    } else {
      assert w == [w[0]] + w[1..];
      assert (Lits(w) + ts)[1..] == Lits(w[1..]) + ts;
      assert (w + s)[1..] == w[1..] + s;
      SearchLits(w[1..], ts, s, f);
    }
  }

  predicate AllSegmentChars(x: string) { forall i :: 0 <= i < |x| ==> IsSegmentChar(x[i]) }

  /** A final named capture takes the whole rest of the path, up to an accepted end. */
  lemma SearchFinalNamed(n: string, x: string, y: string, f: Flavour)
    requires |x| >= 1 && AllSegmentChars(x) && AtEnd(y, f)
    ensures Search([Named(n)], x + y, f) == Some([x])
  {
    var ts := [Named(n)];
    var s := x + y;
    SegmentRunAll(x, y);
    assert s[..|x|] == x && s[|x|..] == y;
    assert ts[1..] == [];
    assert Search(ts[1..], s[|x|..], f) == Some([]);
    if f.lazyNamed {
      NoEarlyEnd(x, y, f);
      LazyFindsLast(ts, s, f, 1);
      assert Search(ts, s, f) == TryCuts(ts, s, Up(1, |x|), f);
    } else {
      var cuts := Down(|x|, 1);
      assert cuts[0] == |x|;
      assert Search(ts, s, f) == TryCuts(ts, s, cuts, f);
      assert TryCuts(ts, s, cuts, f) == Some([s[..|x|]] + []);
      assert [s[..|x|]] + [] == [x];
    }
  }

  lemma NoEarlyEnd(x: string, y: string, f: Flavour)
    requires AllSegmentChars(x)
    ensures forall k :: 0 <= k < |x| ==> Search([], (x + y)[k..], f).None?
  {
    forall k | 0 <= k < |x| ensures Search([], (x + y)[k..], f).None? {
      assert (x + y)[k..][0] == x[k];
    }
  }

  lemma {:induction false} SegmentRunAll(x: string, y: string)
    requires AllSegmentChars(x)
    requires y == [] || !IsSegmentChar(y[0])
    ensures SegmentRun(x + y) == |x|
  {
    if x != [] {
      assert (x + y)[1..] == x[1..] + y;
      SegmentRunAll(x[1..], y);
    } else {
      assert x + y == y;
    }
  }

  lemma {:induction false} LazyFindsLast(ts: seq<Token>, s: string, f: Flavour, lo: nat)
    requires |ts| == 1 && ts[0].Named? && f.lazyNamed
    requires 1 <= lo <= SegmentRun(s) && Search([], s[SegmentRun(s)..], f).Some?
    requires forall k :: lo <= k < SegmentRun(s) ==> Search([], s[k..], f).None?
    ensures TryCuts(ts, s, Up(lo, SegmentRun(s)), f) == Some([s[..SegmentRun(s)]])
    decreases SegmentRun(s) - lo
  {
    var cuts := Up(lo, SegmentRun(s));
    assert cuts[0] == lo && cuts[1..] == Up(lo + 1, SegmentRun(s));
    assert ts[1..] == [];
    if lo < SegmentRun(s) {
      assert Search(ts[1..], s[lo..], f).None?;
      LazyFindsLast(ts, s, f, lo + 1);
      assert TryCuts(ts, s, cuts, f) == TryCuts(ts, s, cuts[1..], f);
    } else {
      assert Search(ts[1..], s[lo..], f) == Some([]);
      assert TryCuts(ts, s, cuts, f) == Some([s[..lo]] + []);
      assert [s[..lo]] + [] == [s[..lo]];
    }
  }

  /** Number of '/' characters. */
  function Slashes(s: string): nat
  {
    if s == [] then 0 else (if s[0] == '/' then 1 else 0) + Slashes(s[1..])
  }

  /** Number of literal '/' tokens. */
  function LitSlashes(ts: seq<Token>): nat
  {
    if ts == [] then 0 else (if ts[0] == Lit('/') then 1 else 0) + LitSlashes(ts[1..])
  }

  /** Named captures, literals other than '.', and no splat: the shape that pins the path's '/' count. */
  predicate SegmentTemplate(ts: seq<Token>)
  {
    forall i :: 0 <= i < |ts| ==> !ts[i].Splat? && ts[i] != Lit('.')
  }

  lemma {:induction false} SlashesSkipSegment(s: string, k: nat)
    requires k <= SegmentRun(s)
    ensures Slashes(s) == Slashes(s[k..])
  {
    if k > 0 {
      assert s[k..] == s[1..][k - 1..];
      SlashesSkipSegment(s[1..], k - 1);
    }
  }

  /**
   * A named capture never spans a '/': a path matched by a template of
   * literals and named captures has as many slashes as the template, plus
   * at most the optional trailing one.
   */
  lemma {:induction false} SlashCount(ts: seq<Token>, s: string, caps: seq<string>, f: Flavour)
    requires SegmentTemplate(ts) && Matches(ts, s, caps, f)
    ensures Slashes(s) == LitSlashes(ts) || (f.optionalSlash && Slashes(s) == LitSlashes(ts) + 1)
    ensures !f.optionalSlash ==> Slashes(s) == LitSlashes(ts)
    decreases |ts|
  {
    if ts == [] {
      if s == "/" {
        assert s[1..] == [];
      }
    } else {
      assert SegmentTemplate(ts[1..]) by {
        forall i | 0 <= i < |ts[1..]| ensures !ts[1..][i].Splat? && ts[1..][i] != Lit('.') {
          assert ts[1..][i] == ts[i + 1];
        }
      }
      assert ts[0] != Lit('.') && !ts[0].Splat?;
      if ts[0].Lit? {
        SlashCount(ts[1..], s[1..], caps, f);
      } else {
        SlashCount(ts[1..], s[|caps[0]|..], caps[1..], f);
        SlashesSkipSegment(s, |caps[0]|);
      }
    }
  }

  /** A template of that shape never matches a path with a different number of slashes. */
  lemma SlashMismatch(ts: seq<Token>, s: string, f: Flavour)
    requires SegmentTemplate(ts)
    requires Slashes(s) != LitSlashes(ts) && (!f.optionalSlash || Slashes(s) != LitSlashes(ts) + 1)
    ensures Search(ts, s, f).None?
  {
    SearchSound(ts, s, f);
    if Search(ts, s, f).Some? {
      SlashCount(ts, s, Search(ts, s, f).value, f);
    }
  }

  /**
   * "/?$": with the optional trailing slash, a path that matches without a
   * trailing '/' also matches with one, with the same captures.
   */
  lemma {:induction false} TrailingSlashAccepted(ts: seq<Token>, s: string, caps: seq<string>, f: Flavour)
    requires f.optionalSlash && Matches(ts, s, caps, f)
    requires s == [] || s[|s| - 1] != '/'
    ensures Matches(ts, s + "/", caps, f)
    decreases |ts|
  {
    var t := s + "/";
    if ts != [] {
      if ts[0].Lit? {
        assert t[1..] == s[1..] + "/";
        TrailingSlashAccepted(ts[1..], s[1..], caps, f);
      } else {
        var k := |caps[0]|;
        assert t[..k] == s[..k] && t[k..] == s[k..] + "/";
        RunGrows(s, "/", f);
        if k == |s| {
          assert s[k..] == [];
        }
        TrailingSlashAccepted(ts[1..], s[k..], caps[1..], f);
      }
    }
  }

  lemma {:induction false} RunGrows(s: string, y: string, f: Flavour)
    ensures SegmentRun(s + y) >= SegmentRun(s)
    ensures DotRun(s + y, f) >= DotRun(s, f)
  {
    if s != [] {
      assert (s + y)[1..] == s[1..] + y;
      RunGrows(s[1..], y, f);
    }
  }
}

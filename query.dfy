/**
 * The query-string parsing of HttpRequest::requestParams: a name runs up to
 * the next '=' (searched from one byte past the name's first byte), its
 * value from there up to the next '&', and both are percent-decoded.
 *
 * QueryParams specifies the result by recursion on what is left of the
 * query; ParseQueryParams is the index loop the source runs, proved to
 * compute it.
 */
module Query {
  import opened Bytes
  import opened Http

  /** QByteArray::indexOf: the first index at or after from holding ch, or -1. */
  function IndexOf(s: string, ch: char, from: nat): (r: int)
    ensures r == -1 || (from <= r < |s| && s[r] == ch)
    decreases |s| - from
  {
    if from >= |s| then -1 else if s[from] == ch then from else IndexOf(s, ch, from + 1)
  }

  /** Where a value that starts after valueStart ends: the next '&', or the end of the query. */
  function ValueEnd(q: string, valueStart: nat): (r: nat)
    requires valueStart < |q|
    ensures valueStart < r <= |q|
  {
    var amp := IndexOf(q, '&', valueStart + 1);
    if amp == -1 then |q| else amp
  }

  /** The parameter whose name is q[nameStart..valueStart] and whose value follows the '=' up to valueEnd. */
  function ParamBetween(q: string, nameStart: nat, valueStart: nat, valueEnd: nat): Param
    requires nameStart <= valueStart < valueEnd <= |q|
  {
    Param(PercentDecode(q[nameStart..valueStart]), PercentDecode(q[valueStart + 1..valueEnd]))
  }

  /**
   * requestParams: no '=' past the first byte means no (more) parameters;
   * otherwise one parameter, then whatever follows the '&' that ended its
   * value.
   */
  function QueryParams(q: string): seq<Param>
    decreases |q|, 1
  {
    var valueStart := IndexOf(q, '=', 1);
    if valueStart <= 0 then []
    else
      var valueEnd := ValueEnd(q, valueStart);
      [ParamBetween(q, 0, valueStart, valueEnd)] + QueryParamsAfter(q, valueEnd)
  }

  /** What follows a value that ends at valueEnd: the parameters past the '&', or none at the end. */
  function QueryParamsAfter(q: string, valueEnd: nat): seq<Param>
    decreases |q|, 0
  {
    if valueEnd < |q| then QueryParams(q[valueEnd + 1..]) else []
  }

  /** The parameters requestParams still reads once its next name starts at nameStart. */
  function QueryParamsFrom(q: string, nameStart: nat): seq<Param>
  {
    QueryParams(q[if nameStart <= |q| then nameStart else |q|..])
  }

  /** The loop of requestParams: '=' searched from one past the name's start, then '&' after it. */
  method ParseQueryParams(q: string) returns (ps: seq<Param>)
    ensures ps == QueryParams(q)
  {
    ps := [];
    var nameStart: nat := 0;
    var valueStart := IndexOf(q, '=', nameStart + 1);
    assert q[0..] == q;
    while valueStart > 0
      invariant valueStart == IndexOf(q, '=', nameStart + 1)
      invariant ps + QueryParamsFrom(q, nameStart) == QueryParams(q)
      decreases |q| + 1 - nameStart
    {
      var p, valueEnd := NextParam(q, nameStart, valueStart);
      assert (ps + [p]) + QueryParamsFrom(q, valueEnd + 1) == ps + ([p] + QueryParamsFrom(q, valueEnd + 1));
      ps := ps + [p];
      nameStart := valueEnd + 1;
      valueStart := IndexOf(q, '=', nameStart + 1);
    }
    QueryParamsFromEnd(q, nameStart);
  }

  /** One round of requestParams: the value runs to the next '&' or the end; both sides are decoded. */
  method NextParam(q: string, nameStart: nat, valueStart: int) returns (p: Param, valueEnd: nat)
    requires valueStart == IndexOf(q, '=', nameStart + 1) && valueStart > 0
    ensures nameStart < valueEnd <= |q|
    ensures QueryParamsFrom(q, nameStart) == [p] + QueryParamsFrom(q, valueEnd + 1)
  {
    var amp := IndexOf(q, '&', valueStart + 1);
    valueEnd := if amp == -1 then |q| else amp;
    p := Param(PercentDecode(q[nameStart..valueStart]), PercentDecode(q[valueStart + 1..valueEnd]));
    QueryParamsFromStep(q, nameStart, valueStart, valueEnd);
  }

  // ---------------------------------------------------------------------
  // Searching
  // ---------------------------------------------------------------------

  /** IndexOf finds the first occurrence: no ch lies between from and the index found (or the end). */
  lemma {:induction false} IndexOfFirst(s: string, ch: char, from: nat)
    ensures forall j :: from <= j < |s| && (IndexOf(s, ch, from) == -1 || j < IndexOf(s, ch, from)) ==> s[j] != ch
    decreases |s| - from
  {
    if from < |s| && s[from] != ch {
      IndexOfFirst(s, ch, from + 1);
    }
  }

  lemma {:induction false} IndexOfAt(s: string, ch: char, from: nat, k: nat)
    requires from <= k < |s| && s[k] == ch
    requires forall j :: from <= j < k ==> s[j] != ch
    ensures IndexOf(s, ch, from) == k
    decreases k - from
  {
    if from < k {
      IndexOfAt(s, ch, from + 1, k);
    }
  }

  lemma {:induction false} IndexOfNone(s: string, ch: char, from: nat)
    requires forall j :: from <= j < |s| ==> s[j] != ch
    ensures IndexOf(s, ch, from) == -1
    decreases |s| - from
  {
    if from < |s| {
      IndexOfNone(s, ch, from + 1);
    }
  }

  /** Searching a suffix is searching the whole string from further on. */
  lemma {:induction false} IndexOfSuffix(q: string, k: nat, ch: char, j: nat)
    requires k <= |q|
    ensures IndexOf(q[k..], ch, j) == if IndexOf(q, ch, k + j) == -1 then -1 else IndexOf(q, ch, k + j) - k
    decreases |q| - k - j
  {
    if k + j < |q| && q[k + j] != ch {
      IndexOfSuffix(q, k, ch, j + 1);
    }
  }

  // ---------------------------------------------------------------------
  // The loop computes the specification
  // ---------------------------------------------------------------------

  /** One unfolding of QueryParams, with the search results named. */
  lemma QueryParamsUnfold(q: string, valueStart: nat, valueEnd: nat)
    requires valueStart == IndexOf(q, '=', 1) && valueStart > 0
    requires valueEnd == ValueEnd(q, valueStart)
    ensures valueStart < valueEnd <= |q|
    ensures QueryParams(q) == [ParamBetween(q, 0, valueStart, valueEnd)] + QueryParamsAfter(q, valueEnd)
  {
  }

  /** Where the search finds no '=' past nameStart, nothing is left to read. */
  lemma QueryParamsFromEnd(q: string, nameStart: nat)
    requires IndexOf(q, '=', nameStart + 1) <= 0
    ensures QueryParamsFrom(q, nameStart) == []
  {
    if nameStart <= |q| {
      IndexOfSuffix(q, nameStart, '=', 1);
    }
  }

  /** A round of the loop, read in the suffix the specification recurses on. */
  lemma QueryParamsFromStep(q: string, nameStart: nat, valueStart: nat, valueEnd: nat)
    requires valueStart == IndexOf(q, '=', nameStart + 1) && valueStart > 0
    requires valueEnd == ValueEnd(q, valueStart)
    ensures nameStart < valueStart < valueEnd <= |q|
    ensures QueryParamsFrom(q, nameStart) == [ParamBetween(q, nameStart, valueStart, valueEnd)] + QueryParamsFrom(q, valueEnd + 1)
  {
    var s := q[nameStart..];
    IndexOfSuffix(q, nameStart, '=', 1);
    IndexOfSuffix(q, nameStart, '&', valueStart - nameStart + 1);
    assert ValueEnd(s, valueStart - nameStart) == valueEnd - nameStart;
    SuffixParam(q, nameStart, valueStart, valueEnd);
    QueryParamsUnfold(s, valueStart - nameStart, valueEnd - nameStart);
    SuffixAfter(q, nameStart, valueEnd);
  }

  lemma SuffixAfter(q: string, nameStart: nat, valueEnd: nat)
    requires nameStart < valueEnd <= |q|
    ensures QueryParamsAfter(q[nameStart..], valueEnd - nameStart) == QueryParamsFrom(q, valueEnd + 1)
  {
    var s := q[nameStart..];
    if valueEnd < |q| {
      assert s[valueEnd - nameStart + 1..] == q[valueEnd + 1..];
    } else {
      assert q[|q|..] == [];
      assert IndexOf([], '=', 1) == -1;
    }
  }

  lemma SuffixParam(q: string, nameStart: nat, valueStart: nat, valueEnd: nat)
    requires nameStart <= valueStart < valueEnd <= |q|
    ensures ParamBetween(q[nameStart..], 0, valueStart - nameStart, valueEnd - nameStart) == ParamBetween(q, nameStart, valueStart, valueEnd)
  {
    var s := q[nameStart..];
    assert s[0..valueStart - nameStart] == q[nameStart..valueStart];
    assert s[valueStart - nameStart + 1..valueEnd - nameStart] == q[valueStart + 1..valueEnd];
  }

  // ---------------------------------------------------------------------
  // What requestParams recovers
  // ---------------------------------------------------------------------

  /** In an encoded parameter followed by nothing or an '&', the '=' and the end of the value are where encoding put them. */
  lemma SegmentBounds(p: Param, rest: string)
    requires p.name != [] && (rest == [] || rest[0] == '&')
    ensures var en := PercentEncode(p.name);
      var q := EncodeParam(p) + rest;
      IndexOf(q, '=', 1) == |en| && |en| < |q| && ValueEnd(q, |en|) == |EncodeParam(p)|
  {
    var en, ev := PercentEncode(p.name), PercentEncode(p.value);
    var seg := EncodeParam(p);
    var q := seg + rest;
    PercentEncodeEscapes(p.name);
    PercentEncodeEscapes(p.value);
    assert forall j :: 0 <= j < |en| ==> q[j] == en[j];
    assert forall j :: |en| < j < |seg| ==> q[j] == ev[j - |en| - 1];
    assert q[|en|] == '=';
    IndexOfAt(q, '=', 1, |en|);
    if rest == [] {
      IndexOfNone(q, '&', |en| + 1);
    } else {
      IndexOfAt(q, '&', |en| + 1, |seg|);
    }
  }

  /** The name and value between those bounds decode to the parameter that was encoded. */
  lemma SegmentParam(p: Param, rest: string)
    ensures var en := PercentEncode(p.name);
      var q := EncodeParam(p) + rest;
      |en| < |EncodeParam(p)| <= |q| &&
      ParamBetween(q, 0, |en|, |EncodeParam(p)|) == p
  {
    var en, ev := PercentEncode(p.name), PercentEncode(p.value);
    var q := EncodeParam(p) + rest;
    assert q[0..|en|] == en;
    assert q[|en| + 1..|EncodeParam(p)|] == ev;
    PercentDecodeEncode(p.name);
    PercentDecodeEncode(p.value);
  }

  /** A query that is one encoded parameter with a name reads as that parameter. */
  lemma QuerySingle(p: Param)
    requires p.name != []
    ensures QueryParams(EncodeParam(p)) == [p]
  {
    var seg := EncodeParam(p);
    assert seg + [] == seg;
    SegmentBounds(p, []);
    SegmentParam(p, []);
    QueryParamsUnfold(seg, |PercentEncode(p.name)|, |seg|);
  }

  /**
   * A query that starts with an encoded parameter with a name and an '&'
   * reads as that parameter, then the parameters after the '&'.
   */
  lemma QueryCons(p: Param, tail: string)
    requires p.name != []
    ensures QueryParams(EncodeParam(p) + ("&" + tail)) == [p] + QueryParams(tail)
  {
    var seg := EncodeParam(p);
    var q := seg + ("&" + tail);
    SegmentBounds(p, "&" + tail);
    SegmentParam(p, "&" + tail);
    QueryParamsUnfold(q, |PercentEncode(p.name)|, |seg|);
    assert q[|seg| + 1..] == tail;
  }

  /**
   * requestParams recovers every parameter of an encoded query, names and
   * values, in order, as long as every name is non-empty.
   */
  lemma {:induction false} QueryParamsEncode(ps: seq<Param>)
    requires forall i :: 0 <= i < |ps| ==> ps[i].name != []
    ensures QueryParams(EncodeQuery(ps)) == ps
  {
    if ps == [] {
      assert IndexOf([], '=', 1) == -1;
    } else if |ps| == 1 {
      QuerySingle(ps[0]);
    } else {
      var tail := EncodeQuery(ps[1..]);
      assert EncodeQuery(ps) == EncodeParam(ps[0]) + ("&" + tail);
      QueryCons(ps[0], tail);
      QueryParamsEncode(ps[1..]);
      assert ps == [ps[0]] + ps[1..];
    }
  }

  /** A key without '=' is absorbed into the name of the parameter after it. */
  lemma AbsorbedKey()
    ensures QueryParams("a&b=c") == [Param("a&b", "c")]
  {
    var q := "a&b=c";
    IndexOfAt(q, '=', 1, 3);
    IndexOfNone(q, '&', 4);
    assert q[0..3] == "a&b" && q[4..5] == "c";
    assert PercentDecode("c") == "c";
    assert PercentDecode("a&b") == "a&b";
  }

  /** A parameter with an empty name is never found: the search for '=' starts one byte into the name. */
  lemma EmptyNameLost(v: string)
    requires forall j :: 0 <= j < |v| ==> v[j] != '='
    ensures QueryParams("=" + v) == []
  {
    IndexOfNone("=" + v, '=', 1);
  }
}

/**
 * HttpServer's pool of request objects: a last-in, first-out reserve,
 * filled with 50 objects when the server starts, from which each incoming
 * connection takes one (creating a new object only when the reserve is
 * empty) and to which each closed request returns, the reserve never
 * keeping more than 50.
 *
 * Request objects are identified by the order of their creation; deleting
 * one is recorded in a log.
 */
module Server {
  /** MaximumReserveCount. */
  const MaximumReserveCount: nat := 50

  datatype Pool = Pool(reserved: seq<nat>, created: nat, deleted: seq<nat>)

  /** The ids 0 .. n-1, in order. */
  function Ids(n: nat): (r: seq<nat>)
    ensures |r| == n && forall i :: 0 <= i < n ==> r[i] == i
  {
    seq(n, i requires 0 <= i < n => i)
  }

  /** takeRequest: the last reserved object, or a newly created one when the reserve is empty. */
  function Take(p: Pool): (r: (Pool, nat))
  {
    if p.reserved == [] then (p.(created := p.created + 1), p.created)
    else (p.(reserved := p.reserved[..|p.reserved| - 1]), p.reserved[|p.reserved| - 1])
  }

  /** The reserve after putRequest's loop: objects deleted from the end until fewer than 50 remain. */
  function Trimmed(reserved: seq<nat>): (r: seq<nat>)
    ensures |r| < MaximumReserveCount
    ensures r <= reserved
  {
    if |reserved| < MaximumReserveCount then reserved else reserved[..MaximumReserveCount - 1]
  }

  /** The objects putRequest's loop deletes, in the order it deletes them. */
  function Overflow(reserved: seq<nat>): (r: seq<nat>)
    ensures |Trimmed(reserved)| + |r| == |reserved|
    decreases |reserved|
  {
    if |reserved| < MaximumReserveCount then []
    else [reserved[|reserved| - 1]] + Overflow(reserved[..|reserved| - 1])
  }

  /** The objects of a reserve emptied from the end, in the order they are removed. */
  function LastFirst(reserved: seq<nat>): (r: seq<nat>)
    ensures |r| == |reserved|
    decreases |reserved|
  {
    if reserved == [] then [] else [reserved[|reserved| - 1]] + LastFirst(reserved[..|reserved| - 1])
  }

  /** One step of putRequest's loop: removing the top object leaves the same trimmed reserve. */
  lemma TrimStep(reserved: seq<nat>)
    requires |reserved| >= MaximumReserveCount
    ensures Trimmed(reserved[..|reserved| - 1]) == Trimmed(reserved)
    ensures Overflow(reserved) == [reserved[|reserved| - 1]] + Overflow(reserved[..|reserved| - 1])
  {
  }

  /** putRequest: the reserve is trimmed below the limit and the object goes on top. */
  function Put(p: Pool, request: nat): Pool
  {
    p.(reserved := Trimmed(p.reserved) + [request], deleted := p.deleted + Overflow(p.reserved))
  }

  /** n requests arriving at once: the objects taken, in order. */
  function TakeMany(p: Pool, n: nat): (r: (Pool, seq<nat>))
    ensures |r.1| == n
    decreases n
  {
    if n == 0 then (p, [])
    else
      var (p1, first) := Take(p);
      var (p2, rest) := TakeMany(p1, n - 1);
      (p2, [first] + rest)
  }

  /** The requests closing, in order. */
  function PutMany(p: Pool, requests: seq<nat>): Pool
    decreases |requests|
  {
    if requests == [] then p else PutMany(Put(p, requests[0]), requests[1..])
  }

  class RequestPool {
    var p: Pool

    /** The class invariant: the reserve never holds more than MaximumReserveCount objects. */
    ghost predicate Valid()
      reads this
    {
      |p.reserved| <= MaximumReserveCount
    }

    /** The pool of a new server: 50 objects created in advance. */
    constructor ()
      ensures p == Pool(Ids(MaximumReserveCount), MaximumReserveCount, [])
      ensures Valid()
    {
      p := Pool([], 0, []);
      new;
      var i := 0;
      while i < MaximumReserveCount
        invariant i <= MaximumReserveCount
        invariant p == Pool(Ids(i), i, [])
        modifies this
      {
        var request := CreateRequest();
        assert Ids(i + 1) == Ids(i) + [request];
        p := p.(reserved := p.reserved + [request]);
        i := i + 1;
      }
    }

    /** createRequest: a new request object, never seen before. */
    method CreateRequest() returns (request: nat)
      modifies this
      ensures request == old(p).created && p == old(p).(created := old(p).created + 1)
    {
      request := p.created;
      p := p.(created := p.created + 1);
    }

    method TakeRequest() returns (request: nat)
      requires Valid()
      modifies this
      ensures Valid()
      ensures (p, request) == Take(old(p))
    {
      if p.reserved == [] {
        request := CreateRequest();
      } else {
        request := p.reserved[|p.reserved| - 1];
        p := p.(reserved := p.reserved[..|p.reserved| - 1]);
      }
    }

    method PutRequest(request: nat)
      modifies this
      ensures Valid()
      ensures p == Put(old(p), request)
    {
      TrimReserve();
      p := p.(reserved := p.reserved + [request]);
    }

    /** putRequest's loop: objects are deleted from the top while the reserve is full. */
    method TrimReserve()
      modifies this
      ensures |p.reserved| < MaximumReserveCount
      ensures p == old(p).(reserved := Trimmed(old(p).reserved), deleted := old(p).deleted + Overflow(old(p).reserved))
    {
      ghost var start := p;
      while |p.reserved| >= MaximumReserveCount
        invariant p.created == start.created
        invariant Trimmed(p.reserved) == Trimmed(start.reserved)
        invariant start.deleted + Overflow(start.reserved) == p.deleted + Overflow(p.reserved)
        decreases |p.reserved|
      {
        var last := p.reserved[|p.reserved| - 1];
        TrimStep(p.reserved);
        assert (p.deleted + [last]) + Overflow(p.reserved[..|p.reserved| - 1]) == p.deleted + Overflow(p.reserved);
        p := p.(reserved := p.reserved[..|p.reserved| - 1], deleted := p.deleted + [last]);
      }
      assert p.deleted + [] == p.deleted;
    }

    /** request_closed: the request goes back to the pool. */
    method RequestClosed(request: nat)
      modifies this
      ensures Valid()
      ensures p == Put(old(p), request)
    {
      PutRequest(request);
    }

    /** The pool's destructor: every reserved object is deleted, the last first. */
    method Destroy()
      modifies this
      ensures p.reserved == [] && p.created == old(p).created
      ensures p.deleted == old(p).deleted + LastFirst(old(p).reserved)
    {
      while p.reserved != []
        invariant p.created == old(p).created
        invariant old(p).deleted + LastFirst(old(p).reserved) == p.deleted + LastFirst(p.reserved)
        decreases |p.reserved|
      {
        var last := p.reserved[|p.reserved| - 1];
        assert (p.deleted + [last]) + LastFirst(p.reserved[..|p.reserved| - 1]) == p.deleted + LastFirst(p.reserved);
        p := p.(reserved := p.reserved[..|p.reserved| - 1], deleted := p.deleted + [last]);
      }
    }
  }

  // ---------------------------------------------------------------------
  // What the pool guarantees
  // ---------------------------------------------------------------------

  /** The reserve never holds more than 50 objects, and putting one back leaves it on top. */
  lemma PutBounded(p: Pool, request: nat)
    ensures |Put(p, request).reserved| <= MaximumReserveCount
    ensures Put(p, request).reserved[|Put(p, request).reserved| - 1] == request
    ensures |p.reserved| < MaximumReserveCount ==> Put(p, request).reserved == p.reserved + [request] && Put(p, request).deleted == p.deleted
  {
  }

  /** Taking from a non-empty reserve creates nothing; taking from an empty one creates exactly one new object. */
  lemma TakeCreatesOnlyWhenEmpty(p: Pool)
    ensures var (q, r) := Take(p);
      (p.reserved != [] ==> q.created == p.created && r == p.reserved[|p.reserved| - 1] && q.reserved + [r] == p.reserved)
      && (p.reserved == [] ==> q.created == p.created + 1 && r == p.created && q.reserved == [])
  {
    if p.reserved != [] {
      var (q, r) := Take(p);
      assert q.reserved + [r] == p.reserved;
    }
  }

  /** n concurrent requests take the top n reserved objects, the last first, without creating any. */
  lemma {:induction false} TakeManyFromReserve(p: Pool, n: nat)
    requires n <= |p.reserved|
    decreases n
    ensures var (q, taken) := TakeMany(p, n);
      q == p.(reserved := p.reserved[..|p.reserved| - n])
      && forall i :: 0 <= i < n ==> taken[i] == p.reserved[|p.reserved| - 1 - i]
  {
    if n > 0 {
      var (p1, first) := Take(p);
      TakeManyFromReserve(p1, n - 1);
      assert p1.reserved[..|p1.reserved| - (n - 1)] == p.reserved[..|p.reserved| - n];
    }
  }

  /** Requests closing while the reserve has room are all kept, in closing order. */
  lemma {:induction false} PutManyBelowLimit(p: Pool, requests: seq<nat>)
    requires |p.reserved| + |requests| <= MaximumReserveCount
    ensures PutMany(p, requests) == p.(reserved := p.reserved + requests)
    decreases |requests|
  {
    if requests != [] {
      var p1 := Put(p, requests[0]);
      assert p1 == p.(reserved := p.reserved + [requests[0]]);
      PutManyBelowLimit(p1, requests[1..]);
      assert (p.reserved + [requests[0]]) + requests[1..] == p.reserved + requests;
    }
  }

  /**
   * One round of n concurrent requests that all close again, in any order:
   * no object is created or deleted, the bottom of the reserve is
   * untouched, and its top holds the same objects as before.
   */
  lemma Round(p: Pool, n: nat, closing: seq<nat>)
    requires |p.reserved| <= MaximumReserveCount && n <= |p.reserved|
    requires multiset(closing) == multiset(TakeMany(p, n).1)
    ensures var m := |p.reserved| - n;
      var q := PutMany(TakeMany(p, n).0, closing);
      q.created == p.created && q.deleted == p.deleted
      && q.reserved == p.reserved[..m] + closing
      && multiset(q.reserved[m..]) == multiset(p.reserved[m..])
  {
    var m := |p.reserved| - n;
    ClosingIsTop(p, n, closing);
    RoundKeepsBottom(p, n, closing);
    assert (p.reserved[..m] + closing)[m..] == closing;
  }

  /** The requests closing in a round are the top n objects of the reserve, in some order. */
  lemma ClosingIsTop(p: Pool, n: nat, closing: seq<nat>)
    requires n <= |p.reserved|
    requires multiset(closing) == multiset(TakeMany(p, n).1)
    ensures |closing| == n && multiset(closing) == multiset(p.reserved[|p.reserved| - n..])
  {
    TakeManyFromReserve(p, n);
    var taken := TakeMany(p, n).1;
    TopIsTaken(p.reserved, taken, n);
    assert |multiset(closing)| == |multiset(taken)|;
  }

  /** n objects taken from the reserve and n put back: the bottom stays, the returned ones go on top. */
  lemma RoundKeepsBottom(p: Pool, n: nat, closing: seq<nat>)
    requires |p.reserved| <= MaximumReserveCount && n <= |p.reserved| && |closing| == n
    ensures PutMany(TakeMany(p, n).0, closing) == p.(reserved := p.reserved[..|p.reserved| - n] + closing)
  {
    TakeManyFromReserve(p, n);
    var q0 := TakeMany(p, n).0;
    PutManyBelowLimit(q0, closing);
  }

  /** The objects taken are exactly the top n of the reserve. */
  lemma TopIsTaken(reserved: seq<nat>, taken: seq<nat>, n: nat)
    requires n <= |reserved| && |taken| == n
    requires forall i :: 0 <= i < n ==> taken[i] == reserved[|reserved| - 1 - i]
    ensures multiset(taken) == multiset(reserved[|reserved| - n..])
    decreases n
  {
    if n > 0 {
      var top := reserved[|reserved| - 1];
      var below := reserved[..|reserved| - 1];
      TopIsTaken(below, taken[1..], n - 1);
      assert below[|below| - (n - 1)..] + [top] == reserved[|reserved| - n..];
      assert taken == [top] + taken[1..];
    }
  }

  /**
   * A new server handling three rounds of 25 concurrent requests, whatever
   * order they close in, uses only the 25 objects on top of its initial
   * reserve and creates no other.
   */
  lemma ThreeRoundsReuse(c1: seq<nat>, c2: seq<nat>, c3: seq<nat>)
    requires var p0 := Pool(Ids(MaximumReserveCount), MaximumReserveCount, []);
      multiset(c1) == multiset(TakeMany(p0, 25).1)
      && multiset(c2) == multiset(TakeMany(PutMany(TakeMany(p0, 25).0, c1), 25).1)
      && multiset(c3) == multiset(TakeMany(PutMany(TakeMany(PutMany(TakeMany(p0, 25).0, c1), 25).0, c2), 25).1)
    ensures var p0 := Pool(Ids(MaximumReserveCount), MaximumReserveCount, []);
      var p1 := PutMany(TakeMany(p0, 25).0, c1);
      var p2 := PutMany(TakeMany(p1, 25).0, c2);
      var p3 := PutMany(TakeMany(p2, 25).0, c3);
      var top := multiset(Ids(MaximumReserveCount)[25..]);
      multiset(c1) == top && multiset(c2) == top && multiset(c3) == top
      && p3.created == MaximumReserveCount && p3.deleted == []
  {
    var p0 := Pool(Ids(MaximumReserveCount), MaximumReserveCount, []);
    var p1 := PutMany(TakeMany(p0, 25).0, c1);
    RoundOnTop(p0, 25, c1);
    var p2 := PutMany(TakeMany(p1, 25).0, c2);
    RoundOnTop(p1, 25, c2);
    RoundOnTop(p2, 25, c3);
  }

  /** What one round takes is the top of the reserve, and the next reserve has the same size, bottom and top. */
  lemma RoundOnTop(p: Pool, n: nat, closing: seq<nat>)
    requires |p.reserved| <= MaximumReserveCount && n <= |p.reserved|
    requires multiset(closing) == multiset(TakeMany(p, n).1)
    ensures var m := |p.reserved| - n;
      var q := PutMany(TakeMany(p, n).0, closing);
      multiset(closing) == multiset(p.reserved[m..])
      && |q.reserved| == |p.reserved| && q.reserved[..m] == p.reserved[..m]
      && multiset(q.reserved[m..]) == multiset(p.reserved[m..])
      && q.created == p.created && q.deleted == p.deleted
  {
    var m := |p.reserved| - n;
    ClosingIsTop(p, n, closing);
    RoundKeepsBottom(p, n, closing);
    var q := PutMany(TakeMany(p, n).0, closing);
    assert q.reserved[..m] == p.reserved[..m] && q.reserved[m..] == closing;
  }
}

/**
 * The QML front end: BaseObject's "data" list property over an object's
 * children, the declarative HTTP server's address/port properties with their
 * rebind rule, and RouteMatcher, a third copy of the template compiler that
 * matches a connection's percent-decoded path.
 */
module Declarative {
  import opened Bytes
  import opened PathTemplate
  import SimpleRouter

  // ---------------------------------------------------------------------
  // BaseObject: the default list property over the children
  // ---------------------------------------------------------------------

  /** What data_at can hand back: no object, a child, or a read past the end of the child list. */
  datatype Lookup = NullObject | Child(id: nat) | PastEnd

  /** No object is a child twice. */
  predicate Distinct(s: seq<nat>)
  {
    forall i, j :: 0 <= i < j < |s| ==> s[i] != s[j]
  }

  class BaseObject {
    /** The children, in the order they were parented; objects are named by number. */
    var children: seq<nat>

    constructor ()
      ensures children == []
    {
      children := [];
    }

    /**
     * data_append: a null object is ignored; otherwise the object is
     * re-parented here, which puts it at the end of the children unless it
     * already is a child.
     */
    method Append(obj: Option<nat>)
      modifies this
      requires Distinct(children)
      ensures Distinct(children)
      ensures obj.None? ==> children == old(children)
      ensures obj.Some? && obj.value in old(children) ==> children == old(children)
      ensures obj.Some? && obj.value !in old(children) ==> children == old(children) + [obj.value]
    {
      if obj.None? {
        return;
      }
      if obj.value !in children {
        children := children + [obj.value];
      }
    }

    /** data_count: the number of children. */
    function Count(): (n: nat)
      reads this
      ensures n == |children|
    {
      |children|
    }

    /**
     * data_at exactly as written: the guard rejects index < 0 and
     * index > size, so index == size gets past it and reads one past the end.
     */
    function AtAsWritten(index: int): (r: Lookup)
      reads this
      ensures r.NullObject? <==> index < 0 || index > |children|
      ensures r.PastEnd? <==> index == |children|
      ensures 0 <= index < |children| ==> r == Child(children[index])
    {
      if index < 0 || index > |children| then NullObject
      else if index == |children| then PastEnd
      else Child(children[index])
    }

    /** data_at with the guard evidently intended: a child for every valid index, null otherwise. */
    function At(index: int): (r: Lookup)
      reads this
      ensures !r.PastEnd?
      ensures r.Child? <==> 0 <= index < |children|
      ensures r.Child? ==> r.id == children[index] && r.id in children
    {
      if index < 0 || index >= |children| then NullObject
      else Child(children[index])
    }

    /**
     * data_clear: every child is re-parented to null, each removal taking
     * that child out of the list; afterwards there are no children.
     */
    method Clear()
      modifies this
      ensures children == []
    {
      var snapshot := children;
      var i := 0;
      while i < |snapshot|
        invariant 0 <= i <= |snapshot|
        invariant children == snapshot[i..]
      {
        children := Remove(children, snapshot[i]);
        i := i + 1;
      }
    }
  }

  /** The list without the first occurrence of x. */
  function Remove(s: seq<nat>, x: nat): (r: seq<nat>)
    ensures x in s ==> |r| == |s| - 1
    ensures x !in s ==> r == s
    ensures s != [] && s[0] == x ==> r == s[1..]
    ensures multiset(r) == multiset(s) - multiset{x}
  {
    if s == [] then []
    else if s[0] == x then s[1..]
    else
      assert s == [s[0]] + s[1..];
      assert x in s <==> x in s[1..];
      var rest := Remove(s[1..], x);
      assert multiset([s[0]] + rest) == multiset{s[0]} + multiset(rest);
      [s[0]] + rest
  }

  /** The one index the as-written guard lets through although no child sits there. */
  lemma AtAsWrittenReadsPastEnd(o: BaseObject)
    ensures o.AtAsWritten(|o.children|) == PastEnd
    ensures o.At(|o.children|) == NullObject
  {
  }

  /** Both versions agree everywhere except at index == size. */
  lemma AtAgreesBelowSize(o: BaseObject, index: int)
    requires index != |o.children|
    ensures o.AtAsWritten(index) == o.At(index)
  {
  }

  // ---------------------------------------------------------------------
  // DeclarativeHttpServer
  // ---------------------------------------------------------------------

  /** QHostAddress: Any for an empty address text, otherwise the given address. */
  datatype HostAddress = AnyAddress | Address(text: string)

  function HostOf(address: string): (h: HostAddress)
    ensures h.AnyAddress? <==> address == ""
    ensures h.Address? ==> h.text == address
  {
    if address == "" then AnyAddress else Address(address)
  }

  /** One listen call on the underlying server. */
  datatype Endpoint = Endpoint(host: HostAddress, port: int)

  class DeclarativeHttpServer {
    var address: string
    var port: int
    var componentComplete: bool
    /** Whether the underlying server is listening. */
    var listening: bool
    /** Every listen call, oldest first. */
    var listens: seq<Endpoint>
    /** Emissions of addressChanged, portChanged and listeningChanged. */
    var addressChanges: nat
    var portChanges: nat
    var listeningChanges: nat

    /**
     * Before componentComplete nothing was ever bound; afterwards the most
     * recent listen call used the current address and port.
     */
    predicate Valid()
      reads this
    {
      (!componentComplete ==> listens == [] && !listening)
      && (componentComplete ==> |listens| >= 1 && listens[|listens| - 1] == Endpoint(HostOf(address), port))
    }

    constructor ()
      ensures Valid()
      ensures address == "" && port == 0 && !componentComplete && !listening && listens == []
      ensures addressChanges == 0 && portChanges == 0 && listeningChanges == 0
    {
      address := "";
      port := 0;
      componentComplete := false;
      listening := false;
      listens := [];
      addressChanges := 0;
      portChanges := 0;
      listeningChanges := 0;
    }

    /**
     * rebind: nothing before componentComplete; otherwise close if listening,
     * listen on the current address (Any when empty) and port, and announce
     * it.  Whether the operating system accepted the bind is the parameter.
     */
    method Rebind(bindOk: bool)
      modifies this
      ensures componentComplete ==> Valid()
      ensures !componentComplete ==> listens == old(listens) && listening == old(listening)
                                      && listeningChanges == old(listeningChanges)
      ensures componentComplete ==> listens == old(listens) + [Endpoint(HostOf(address), port)]
                                     && listening == bindOk && listeningChanges == old(listeningChanges) + 1
      ensures address == old(address) && port == old(port) && componentComplete == old(componentComplete)
      ensures addressChanges == old(addressChanges) && portChanges == old(portChanges)
    {
      if !componentComplete {
        return;
      }
      if listening {
        listening := false;
      }
      listens := listens + [Endpoint(HostOf(address), port)];
      listening := bindOk;
      listeningChanges := listeningChanges + 1;
    }

    /** setAddress: an unchanged address does nothing; otherwise store, rebind, announce. */
    method SetAddress(a: string, bindOk: bool)
      modifies this
      requires Valid()
      ensures Valid()
      ensures a == old(address) ==> address == old(address) && listens == old(listens)
                                    && listening == old(listening) && addressChanges == old(addressChanges)
                                    && listeningChanges == old(listeningChanges)
      ensures a != old(address) ==> address == a && addressChanges == old(addressChanges) + 1
      ensures a != old(address) && componentComplete ==> listens == old(listens) + [Endpoint(HostOf(a), port)]
      ensures a != old(address) && !componentComplete ==> listens == old(listens) && listening == old(listening)
      ensures port == old(port) && portChanges == old(portChanges) && componentComplete == old(componentComplete)
    {
      if a == address {
        return;
      }
      address := a;
      Rebind(bindOk);
      addressChanges := addressChanges + 1;
    }

    /** setPort: an unchanged port does nothing; otherwise store, rebind, announce. */
    method SetPort(p: int, bindOk: bool)
      modifies this
      requires Valid()
      ensures Valid()
      ensures p == old(port) ==> port == old(port) && listens == old(listens)
                                 && listening == old(listening) && portChanges == old(portChanges)
                                 && listeningChanges == old(listeningChanges)
      ensures p != old(port) ==> port == p && portChanges == old(portChanges) + 1
      ensures p != old(port) && componentComplete ==> listens == old(listens) + [Endpoint(HostOf(address), p)]
      ensures p != old(port) && !componentComplete ==> listens == old(listens) && listening == old(listening)
      ensures address == old(address) && addressChanges == old(addressChanges) && componentComplete == old(componentComplete)
    {
      if p == port {
        return;
      }
      port := p;
      Rebind(bindOk);
      portChanges := portChanges + 1;
    }

    /** componentComplete: from now on changes rebind; bind once now. */
    method ComponentComplete(bindOk: bool)
      modifies this
      requires Valid()
      ensures Valid() && componentComplete
      ensures listens == old(listens) + [Endpoint(HostOf(address), port)] && listening == bindOk
      ensures address == old(address) && port == old(port)
    {
      componentComplete := true;
      Rebind(bindOk);
    }
  }

  // ---------------------------------------------------------------------
  // RouteMatcher
  // ---------------------------------------------------------------------

  class RouteMatcher {
    var path: string
    /** Whether a pattern was ever built; until then the pattern is empty and matches anywhere. */
    var built: bool
    var pattern: string
    /** The token model of the compiled pattern. */
    var tokens: seq<Token>
    var matchParamNames: seq<string>
    /** Emissions of changed. */
    var changes: nat

    /** Once built, the pattern, tokens and names are those of the current path. */
    predicate Valid()
      reads this
    {
      built ==> pattern == SimpleRouter.Compile(path).0 && tokens == Tokenize(path)
                && matchParamNames == ParamNames(tokens)
    }

    constructor ()
      ensures Valid() && path == "" && !built && matchParamNames == [] && changes == 0
    {
      path := "";
      built := false;
      pattern := "";
      tokens := [];
      matchParamNames := [];
      changes := 0;
    }

    /** setPath: an unchanged path does nothing; otherwise store, rebuild, announce. */
    method SetPath(p: string)
      modifies this
      requires Valid()
      ensures Valid()
      ensures p == old(path) ==> path == old(path) && built == old(built) && pattern == old(pattern)
                                 && tokens == old(tokens) && matchParamNames == old(matchParamNames)
                                 && changes == old(changes)
      ensures p != old(path) ==> path == p && built && changes == old(changes) + 1
      ensures p != old(path) ==> matchParamNames == MarkerNames(p, ':') + MarkerNames(p, '*')
    {
      if path == p {
        return;
      }
      path := p;
      Rebuild();
      changes := changes + 1;
    }

    /**
     * rebuild: the pathToRegExp compilation of the current path, anchored
     * "^...$" with greedy named groups; the names, ':' first then '*'.
     */
    method Rebuild()
      modifies this
      ensures built && Valid() && path == old(path) && changes == old(changes)
      ensures matchParamNames == MarkerNames(path, ':') + MarkerNames(path, '*')
    {
      var pat, names := SimpleRouter.PathToRegExp(path);
      pattern := pat;
      tokens := Tokenize(path);
      matchParamNames := names;
      built := true;
    }

    /**
     * match: false for a null connection; otherwise whether the pattern
     * finds the connection's percent-decoded path.
     */
    method Match(requestPath: Option<string>) returns (r: bool)
      requires Valid()
      ensures r == Matches(requestPath)
    {
      if requestPath.None? {
        return false;
      }
      if !built {
        return true;
      }
      r := Search(tokens, PercentDecode(requestPath.value), QtFlavour).Some?;
    }

    /** The answer match gives. */
    predicate Matches(requestPath: Option<string>)
      reads this
    {
      requestPath.Some? && (!built || Search(tokens, PercentDecode(requestPath.value), QtFlavour).Some?)
    }
  }

  /**
   * A built matcher matches the decoded path against its template: a path
   * without '%' is matched as it is, and an encoded path exactly as the
   * text it encodes.
   */
  lemma MatchDecodes(m: RouteMatcher, raw: string)
    requires m.Valid() && m.built
    ensures '%' !in raw ==> (m.Matches(Some(raw)) <==> Search(Tokenize(m.path), raw, QtFlavour).Some?)
    ensures m.Matches(Some(PercentEncode(raw))) <==> Search(Tokenize(m.path), raw, QtFlavour).Some?
  {
    if '%' !in raw {
      PercentDecodeIdentity(raw);
    }
    PercentDecodeEncode(raw);
  }
}

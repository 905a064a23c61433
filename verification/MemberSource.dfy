/**
 Running agents: merging the announcements that name one agent, and picking the peer a query names.
 */
module MemberSource {
  import opened Wrappers
  import opened FirstOccurrences
  import opened Locator
  import opened Text

  datatype CandidateMember = CandidateMember(
    name: Bytes, did: Bytes, slimEndpoint: Option<Bytes>, a2aUrl: Option<Bytes>, a2aBinding: Option<A2ABinding>)
  {
    function SlimLocator(): Option<A2ALocator> {
      if slimEndpoint.None? || Trim(slimEndpoint.value) == "" then None
      else Some(New(Slim, Trim(slimEndpoint.value)))
    }

    /** Over the official unicast binding, gRPC when none is named. */
    function UnicastLocator(): Option<A2ALocator> {
      if a2aUrl.None? || Trim(a2aUrl.value) == "" then None else
      var binding := if a2aBinding.Some? then a2aBinding.value else Grpc;
      if binding == Slim then None else Some(New(binding, Trim(a2aUrl.value)))
    }

    function Locators(): seq<A2ALocator> {
      (if SlimLocator().Some? then [SlimLocator().value] else [])
      + if UnicastLocator().Some? then [UnicastLocator().value] else []
    }

    function IdentityKey(): Key {
      (name, did, Locators())
    }

    predicate SameAgent(other: CandidateMember) {
      IdentityKey() == other.IdentityKey()
    }

    /** Of a SLIM locator the node counts, of any other only the URL, not the binding. */
    predicate HasLocator(at: A2ALocator) {
      var own := if at.binding == Slim then SlimLocator() else UnicastLocator();
      own.Some? && own.value.url == at.url
    }
  }

  type Key = (Bytes, Bytes, seq<A2ALocator>)

  // --- Merging announcements -----------------------------------------------------------------

  function Limited<T>(items: seq<T>, limit: nat): seq<T> {
    if limit > 0 && limit < |items| then items[..limit] else items
  }

  /** The loop that merges announcements, for any notion of what makes two of them one. */
  method Merge<T, K(==)>(announced: seq<T>, key: T -> K, limit: nat) returns (merged: seq<T>)
    ensures merged == Limited(Firsts(announced, key), limit)
  {
    var seen: set<K> := {};
    merged := [];
    for i := 0 to |announced|
      invariant seen == Keys(announced[..i], key)
      invariant merged == Firsts(announced[..i], key)
    {
      var c := announced[i];
      assert announced[..i + 1] == announced[..i] + [c];
      KeysGrow(announced[..i], key, c);
      FirstsGrow(announced[..i], key, c);
      if key(c) !in seen {
        seen := seen + {key(c)};
        merged := merged + [c];
      }
    }
    assert announced[..|announced|] == announced;
    if limit > 0 && limit < |merged| {
      merged := merged[..limit];
    }
  }

  function AgentKey(): CandidateMember -> Key {
    (c: CandidateMember) => c.IdentityKey()
  }

  class RunningAgentSource {
    const limit: nat

    constructor (limit: nat)
      ensures this.limit == limit
    {
      this.limit := limit;
    }

    /** Merged before the limit, so an agent takes one place however often it announces itself. */
    method Resolve(announced: seq<CandidateMember>) returns (candidates: seq<CandidateMember>)
      ensures candidates == Limited(Firsts(announced, AgentKey()), limit)
    {
      candidates := Merge(announced, AgentKey(), limit);
    }
  }

  /** Resolving gives the smaller of the limit and the number of different agents: different agents,
      the first ones announced. */
  lemma {:induction false} ResolvedAgents(announced: seq<CandidateMember>, limit: nat)
    ensures var agents := |Keys(announced, AgentKey())|;
            var r := Limited(Firsts(announced, AgentKey()), limit);
            && |r| == (if limit > 0 && limit < agents then limit else agents)
            && (forall i, j :: 0 <= i < j < |r| ==> !r[i].SameAgent(r[j]))
            && (forall k :: 0 <= k < |r| ==>
                  var at := FirstPositions(announced, AgentKey())[k];
                  && at < |announced| && r[k] == announced[at]
                  && forall j :: 0 <= j < at ==> !announced[j].SameAgent(r[k]))
  {
    FirstsHoldEachKey(announced, AgentKey());
    FirstsAreAtPositions(announced, AgentKey());
    var firsts := Firsts(announced, AgentKey());
    forall i, j | 0 <= i < j < |firsts| ensures !firsts[i].SameAgent(firsts[j]) {
      assert AgentKey()(firsts[i]) != AgentKey()(firsts[j]);
    }
    var p := FirstPositions(announced, AgentKey());
    forall k, j | 0 <= k < |firsts| && 0 <= j < p[k] ensures !announced[j].SameAgent(firsts[k]) {
      assert AgentKey()(announced[j]) != AgentKey()(announced[p[k]]);
    }
  }

  // --- Picking a peer ------------------------------------------------------------------------

  function Filter<T>(items: seq<T>, p: T -> bool): seq<T> {
    if items == [] then [] else
    Filter(items[..|items| - 1], p) + if p(items[|items| - 1]) then [items[|items| - 1]] else []
  }

  /** `c` is the one item of which `p` holds, at one position. */
  ghost predicate Only<T>(items: seq<T>, p: T -> bool, c: T) {
    exists i :: 0 <= i < |items| && items[i] == c && p(c) && forall j :: 0 <= j < |items| && j != i ==> !p(items[j])
  }

  lemma {:induction false} FilterNone<T>(items: seq<T>, p: T -> bool)
    ensures Filter(items, p) == [] <==> forall i :: 0 <= i < |items| ==> !p(items[i])
    decreases |items|
  {
    if items != [] {
      FilterNone(items[..|items| - 1], p);
    }
  }

  lemma {:induction false} OnlyFiltered<T>(items: seq<T>, p: T -> bool, i: nat)
    requires i < |items| && p(items[i]) && forall j :: 0 <= j < |items| && j != i ==> !p(items[j])
    ensures Filter(items, p) == [items[i]]
    decreases |items|
  {
    var n := |items| - 1;
    if i == n {
      FilterNone(items[..n], p);
    } else {
      OnlyFiltered(items[..n], p, i);
    }
  }

  lemma {:induction false} FilteredOnly<T>(items: seq<T>, p: T -> bool, c: T) returns (i: nat)
    requires Filter(items, p) == [c]
    ensures i < |items| && items[i] == c && p(c) && forall j :: 0 <= j < |items| && j != i ==> !p(items[j])
    decreases |items|
  {
    var n := |items| - 1;
    if p(items[n]) {
      assert Filter(items, p)[|Filter(items[..n], p)|] == items[n];
      FilterNone(items[..n], p);
      i := n;
    } else {
      i := FilteredOnly(items[..n], p, c);
    }
  }

  lemma {:induction false} FilterOne<T>(items: seq<T>, p: T -> bool, c: T)
    ensures Filter(items, p) == [c] <==> Only(items, p, c)
  {
    if Only(items, p, c) {
      var i :| 0 <= i < |items| && items[i] == c && p(c) && forall j :: 0 <= j < |items| && j != i ==> !p(items[j]);
      OnlyFiltered(items, p, i);
    } else if Filter(items, p) == [c] {
      var i := FilteredOnly(items, p, c);
      assert false;
    }
  }

  datatype Peer = Found(member: CandidateMember) | NoPeer | Ambiguous(count: nat)

  /** Among the running agents a query names, the one, or the one at the given locator. */
  function Pick(running: seq<CandidateMember>, named: CandidateMember -> bool, at: Option<A2ALocator>): Peer {
    var matches := Filter(running, named);
    var picked :=
      if at.Some? && |matches| > 1 then Filter(matches, (c: CandidateMember) => c.HasLocator(at.value)) else [];
    if |picked| == 1 then Found(picked[0])
    else if |matches| == 0 then NoPeer
    else if |matches| == 1 then Found(matches[0])
    else Ambiguous(|matches|)
  }

  predicate Reaches(named: CandidateMember -> bool, at: Option<A2ALocator>, c: CandidateMember) {
    named(c) && at.Some? && c.HasLocator(at.value)
  }

  lemma {:induction false} FilterTwice<T>(items: seq<T>, p: T -> bool, q: T -> bool, both: T -> bool)
    requires forall x :: both(x) <==> p(x) && q(x)
    ensures Filter(Filter(items, p), q) == Filter(items, both)
    decreases |items|
  {
    if items != [] {
      var before, last := items[..|items| - 1], items[|items| - 1];
      FilterTwice(before, p, q, both);
      if p(last) {
        FilterSnoc(Filter(before, p), q, last);
        assert Filter(items, p) == Filter(before, p) + [last];
      } else {
        assert Filter(items, p) == Filter(before, p);
      }
    }
  }

  lemma FilterSnoc<T>(items: seq<T>, p: T -> bool, c: T)
    ensures Filter(items + [c], p) == Filter(items, p) + if p(c) then [c] else []
  {
    assert (items + [c])[..|items|] == items;
  }

  /** Of the running agents the query names: the peer is found exactly when there is only one, or
      only one of several at the given locator; none is found exactly when there is none; otherwise
      the query is ambiguous, and the error counts them. */
  lemma {:induction false} PickExact(running: seq<CandidateMember>, named: CandidateMember -> bool,
                                     at: Option<A2ALocator>)
    ensures var r := Pick(running, named, at);
            var here := (c: CandidateMember) => Reaches(named, at, c);
            && (forall c :: r == Found(c) <==>
                  Only(running, named, c) || (Only(running, here, c) && |Filter(running, named)| > 1))
            && (r == NoPeer <==> forall i :: 0 <= i < |running| ==> !named(running[i]))
            && (r.Ambiguous? ==> r.count == |Filter(running, named)| > 1)
  {
    var here := (c: CandidateMember) => Reaches(named, at, c);
    FilterNone(running, named);
    if at.Some? {
      FilterTwice(running, named, (c: CandidateMember) => c.HasLocator(at.value), here);
    } else {
      FilterNone(running, here);
    }
    forall c ensures Filter(running, named) == [c] <==> Only(running, named, c) {
      FilterOne(running, named, c);
    }
    forall c ensures Filter(running, here) == [c] <==> Only(running, here, c) {
      FilterOne(running, here, c);
    }
  }

  /** A DID in a query, also in its member-spec form `did:<did>`. */
  function ParsePeerDid(query: Bytes): Option<Bytes> {
    var text := Trim(query);
    if StartsWith(text, "did:did:") then
      if text == "did:did:" then None else Some("did:" + text[8..])
    else if StartsWith(text, "did:") && ':' in text[4..] && text[4] != ':' then Some(text)
    else None
  }

  predicate MatchesLocalAlias(name: Bytes, query: Bytes) {
    var text := Trim(query);
    text == name || text == "agntcy/shadi/" + name + "-a2a" || text == name + "-a2a"
  }

  function NamedBy(query: Bytes): CandidateMember -> bool {
    var did := ParsePeerDid(query);
    (c: CandidateMember) => if did.Some? then c.did == did.value else MatchesLocalAlias(c.name, query)
  }

  /** `find_running_peer_at`, on what the runtime reports. */
  method FindRunningPeerAt(source: RunningAgentSource, announced: seq<CandidateMember>, query: Bytes,
                           at: Option<A2ALocator>)
    returns (peer: Peer)
    ensures peer == Pick(Limited(Firsts(announced, AgentKey()), source.limit), NamedBy(query), at)
  {
    var running := source.Resolve(announced);
    var matches := Filter(running, NamedBy(query));
    if at.Some? && |matches| > 1 {
      var picked := Filter(matches, (c: CandidateMember) => c.HasLocator(at.value));
      if |picked| == 1 {
        return Found(picked[0]);
      }
    }
    if |matches| == 0 {
      return NoPeer;
    }
    if |matches| == 1 {
      return Found(matches[0]);
    }
    return Ambiguous(|matches|);
  }

  // --- Spelling ------------------------------------------------------------------------------

  /** How an announcement writes its URL. */
  type UrlText = (UrlScheme, nat)

  type NodeText = (NodeScheme, Option<Bytes>)

  /** An announcement that writes its node and its URL in one of the usual ways. */
  function Announced(c: CandidateMember, node: Option<NodeText>, host: Bytes, url: Option<UrlText>, word: Bytes)
    : CandidateMember
  {
    c.(slimEndpoint := if node.None? then None else Some(SpellNode(node.value.0, host, node.value.1)),
       a2aUrl := if url.None? then None else Some(SpellUrl(url.value.0, word, url.value.1)))
  }

  /** Of its spelling the locators depend on nothing but whether the URL is a secure one. */
  lemma {:induction false} AnnouncedLocators(c: CandidateMember, node: Option<NodeText>, host: Bytes,
                                             url: Option<UrlText>, word: Bytes)
    requires node.Some? ==> HostWord(host) && PathText(node.value.1)
    requires url.Some? ==> UrlWord(word)
    ensures Announced(c, node, host, url, word).SlimLocator()
            == if node.None? then None else Some(A2ALocator(Slim, SLIM + host))
    ensures Announced(c, node, host, url, word).UnicastLocator()
            == if url.None? || c.a2aBinding == Some(Slim) then None
               else Some(A2ALocator(if c.a2aBinding.Some? then c.a2aBinding.value else Grpc,
                                    url.value.0.Normal() + word))
  {
    if node.Some? {
      var s := SpellNode(node.value.0, host, node.value.1);
      EverySpellingIsTheNode(node.value.0, host, node.value.1);
      NothingToTrimInNoWhite(s);
    }
    if url.Some? {
      var s := SpellUrl(url.value.0, word, url.value.1);
      EverySpellingIsTheUrl(url.value.0, word, url.value.1);
      NothingToTrimInNoWhite(s);
    }
    hide SlimNodeUri, NormalizeHttpUrl, Trim, SpellNode, SpellUrl, NoWhite;
  }

  /** Announcements that write a node under any scheme and with any path, and a URL under any scheme or
      none and with any slashes behind it, are of one agent exactly when node and URL are the same and
      the URLs are both plain or both secure, and then are found at the same locators. */
  lemma {:induction false} RespelledExactly(c: CandidateMember, hostA: Bytes, hostB: Bytes, wordA: Bytes, wordB: Bytes,
                                            nodeA: NodeText, urlA: UrlText, nodeB: NodeText, urlB: UrlText,
                                            hasNode: bool, hasUrl: bool, at: A2ALocator)
    requires hasNode ==> HostWord(hostA) && HostWord(hostB) && PathText(nodeA.1) && PathText(nodeB.1)
    requires hasUrl ==> UrlWord(wordA) && UrlWord(wordB)
    ensures var a := Announced(c, When(hasNode, nodeA), hostA, When(hasUrl, urlA), wordA);
            var b := Announced(c, When(hasNode, nodeB), hostB, When(hasUrl, urlB), wordB);
            && (a.SameAgent(b)
                <==> && (hasNode ==> hostA == hostB)
                     && (hasUrl && c.a2aBinding != Some(Slim) ==>
                           wordA == wordB && (urlA.0 == Secure <==> urlB.0 == Secure)))
            && (a.SameAgent(b) ==> (a.HasLocator(at) <==> b.HasLocator(at)))
  {
    hide Announced, CandidateMember.SlimLocator, CandidateMember.UnicastLocator, CandidateMember.Locators;
    hide HostWord, PathText, UrlWord;
    var a := Announced(c, When(hasNode, nodeA), hostA, When(hasUrl, urlA), wordA);
    var b := Announced(c, When(hasNode, nodeB), hostB, When(hasUrl, urlB), wordB);
    AnnouncedLocators(c, When(hasNode, nodeA), hostA, When(hasUrl, urlA), wordA);
    AnnouncedLocators(c, When(hasNode, nodeB), hostB, When(hasUrl, urlB), wordB);
    AnnouncedNames(c, When(hasNode, nodeA), hostA, When(hasUrl, urlA), wordA);
    AnnouncedNames(c, When(hasNode, nodeB), hostB, When(hasUrl, urlB), wordB);
    BehindPrefix(SLIM, hostA, hostB);
    BehindScheme(urlA.0, wordA, urlB.0, wordB);
    SameLocators(a, b);
  }

  function When<T>(given: bool, value: T): Option<T> {
    if given then Some(value) else None
  }

  lemma BehindScheme(s: UrlScheme, x: Bytes, t: UrlScheme, y: Bytes)
    ensures s.Normal() + x == t.Normal() + y <==> x == y && (s == Secure <==> t == Secure)
  {
    BehindPrefix(HTTP, x, y);
    BehindPrefix(HTTPS, x, y);
    SchemesApart(x, y);
    SchemesApart(y, x);
  }

  lemma AnnouncedNames(c: CandidateMember, node: Option<NodeText>, host: Bytes, url: Option<UrlText>, word: Bytes)
    ensures var a := Announced(c, node, host, url, word); a.name == c.name && a.did == c.did
  {
    hide SpellNode, SpellUrl;
  }

  lemma BehindPrefix(prefix: Bytes, x: Bytes, y: Bytes)
    ensures prefix + x == prefix + y <==> x == y
  {
    assert (prefix + x)[|prefix|..] == x && (prefix + y)[|prefix|..] == y;
  }

  lemma SameLocators(a: CandidateMember, b: CandidateMember)
    requires a.name == b.name && a.did == b.did
    requires a.SlimLocator().Some? == b.SlimLocator().Some? && a.UnicastLocator().Some? == b.UnicastLocator().Some?
    ensures a.SameAgent(b) <==> a.SlimLocator() == b.SlimLocator() && a.UnicastLocator() == b.UnicastLocator()
  {
    hide CandidateMember.SlimLocator, CandidateMember.UnicastLocator;
    var x, y := a.Locators(), b.Locators();
    if x == y && a.SlimLocator().Some? {
      assert x[0] == y[0];
    }
    if x == y && a.UnicastLocator().Some? {
      assert x[|x| - 1] == y[|y| - 1];
    }
  }
}

/**
 Published keys as a trust anchor: an authority's key listings fetched on demand and cached, with
 look-ups, fetches and insertions of any number of threads interleaved.

 Time is in nanoseconds of a clock that never goes back. What the fetcher answers, and when, is a
 parameter of each step.
 */
module TrustAnchor {
  import opened Wrappers
  import opened Text
  import opened Identity

  type Principal = Bytes

  /** The keys an authority publishes for a principal, or why it could not be reached. */
  type Lookup = Result<seq<Key>, Bytes>

  const FETCH_FAILURE_TTL: nat := 30_000_000_000

  datatype Config = Config(allowed: seq<Principal>, ttl: nat, parse: Bytes -> seq<Key>)

  datatype Entry = Entry(keys: Lookup, at: nat)

  type Cache = map<Principal, Entry>

  function Window(cfg: Config, keys: Lookup): nat {
    if keys.Ok? then cfg.ttl else FETCH_FAILURE_TTL
  }

  predicate Fresh(cfg: Config, e: Entry, now: nat) {
    now - e.at < Window(cfg, e.keys)
  }

  /** A fetcher's answer: a listing, or an outage. */
  function Parsed(cfg: Config, answer: Result<Bytes, Bytes>): Lookup {
    if answer.Ok? then Ok(cfg.parse(answer.value)) else Err(answer.error)
  }

  function Verdict(keys: Lookup, key: Key): Result<bool, Bytes> {
    if keys.Ok? then Ok(key in keys.value) else Err(keys.error)
  }

  // --- Interleaved calls ---------------------------------------------------------------------

  /** Where one thread is in `vouches_for`. */
  datatype Call =
    | Asking(principal: Principal, key: Key)
    | Fetching(principal: Principal, key: Key)
    | Holding(principal: Principal, key: Key, keys: Lookup)
    | Answered(principal: Principal, key: Key, verdict: Result<bool, Bytes>)

  datatype Fetch = Fetch(principal: Principal, answer: Result<Bytes, Bytes>, at: nat)

  /** A look-up that the cache answered. */
  datatype Hit = Hit(principal: Principal, entry: Entry, at: nat)

  datatype World = World(now: nat, cache: Cache, calls: map<nat, Call>, fetches: seq<Fetch>, hits: seq<Hit>)

  datatype Step =
    | Tick(to: nat)
    | Begin(thread: nat, principal: Principal, key: Key)
    | LookUp(thread: nat)
    | Reply(thread: nat, answer: Result<Bytes, Bytes>)
    | Insert(thread: nat)

  const Start: World := World(0, map[], map[], [], [])

  predicate Enabled(w: World, s: Step) {
    match s
    case Tick(to) => w.now <= to
    case Begin(thread, _, _) => thread in w.calls ==> w.calls[thread].Answered?
    case LookUp(thread) => thread in w.calls && w.calls[thread].Asking?
    case Reply(thread, _) => thread in w.calls && w.calls[thread].Fetching?
    case Insert(thread) => thread in w.calls && w.calls[thread].Holding?
  }

  function Do(cfg: Config, w: World, s: Step): World
    requires Enabled(w, s)
  {
    match s
    case Tick(to) => w.(now := to)
    case Begin(thread, principal, key) =>
      w.(calls := w.calls[thread :=
        if principal in cfg.allowed then Asking(principal, key) else Answered(principal, key, Ok(false))])
    case LookUp(thread) =>
      var c := w.calls[thread];
      if c.principal in w.cache && Fresh(cfg, w.cache[c.principal], w.now) then
        var e := w.cache[c.principal];
        w.(calls := w.calls[thread := Answered(c.principal, c.key, Verdict(e.keys, c.key))],
           hits := w.hits + [Hit(c.principal, e, w.now)])
      else w.(calls := w.calls[thread := Fetching(c.principal, c.key)])
    case Reply(thread, answer) =>
      var c := w.calls[thread];
      w.(calls := w.calls[thread := Holding(c.principal, c.key, Parsed(cfg, answer))],
         fetches := w.fetches + [Fetch(c.principal, answer, w.now)])
    case Insert(thread) =>
      var c := w.calls[thread];
      w.(cache := w.cache[c.principal := Entry(c.keys, w.now)],
         calls := w.calls[thread := Answered(c.principal, c.key, Verdict(c.keys, c.key))])
  }

  predicate Runs(cfg: Config, w: World, steps: seq<Step>)
    decreases |steps|, 0
  {
    steps == [] || (Runs(cfg, w, steps[..|steps| - 1])
                    && Enabled(End(cfg, w, steps[..|steps| - 1]), steps[|steps| - 1]))
  }

  function End(cfg: Config, w: World, steps: seq<Step>): World
    requires Runs(cfg, w, steps)
    decreases |steps|, 1
  {
    if steps == [] then w else Do(cfg, End(cfg, w, steps[..|steps| - 1]), steps[|steps| - 1])
  }

  /** This fetch was for the principal, came to these keys and was complete by then. */
  predicate Supports(cfg: Config, f: Fetch, principal: Principal, keys: Lookup, by_: nat) {
    f.principal == principal && Parsed(cfg, f.answer) == keys && f.at <= by_
  }

  predicate Supported(cfg: Config, fetches: seq<Fetch>, principal: Principal, keys: Lookup, by_: nat) {
    exists k :: 0 <= k < |fetches| && Supports(cfg, fetches[k], principal, keys, by_)
  }

  /** The verdict a call may have come to. */
  predicate Justified(cfg: Config, fetches: seq<Fetch>, principal: Principal, key: Key, verdict: Result<bool, Bytes>) {
    if principal !in cfg.allowed then verdict == Ok(false)
    else exists k :: 0 <= k < |fetches| && fetches[k].principal == principal
                     && verdict == Verdict(Parsed(cfg, fetches[k].answer), key)
  }

  predicate CallOk(cfg: Config, fetches: seq<Fetch>, c: Call, now: nat) {
    match c
    case Asking(principal, _) => principal in cfg.allowed
    case Fetching(principal, _) => principal in cfg.allowed
    case Holding(principal, _, keys) => principal in cfg.allowed && Supported(cfg, fetches, principal, keys, now)
    case Answered(principal, key, verdict) => Justified(cfg, fetches, principal, key, verdict)
  }

  /** What holds in every reachable state. */
  ghost predicate Inv(cfg: Config, w: World) {
    && (forall f :: f in w.fetches ==> f.principal in cfg.allowed && f.at <= w.now)
    && (forall p :: p in w.cache ==> p in cfg.allowed && w.cache[p].at <= w.now
                                     && Supported(cfg, w.fetches, p, w.cache[p].keys, w.cache[p].at))
    && (forall t :: t in w.calls ==> CallOk(cfg, w.fetches, w.calls[t], w.now))
    && (forall h :: h in w.hits ==> h.principal in cfg.allowed && h.at - h.entry.at < Window(cfg, h.entry.keys)
                                    && Supported(cfg, w.fetches, h.principal, h.entry.keys, h.entry.at))
  }

  /** More fetches and later times support as much as before. */
  lemma SupportedStays(cfg: Config, fetches: seq<Fetch>, more: seq<Fetch>, principal: Principal, keys: Lookup, by_: nat,
                       later: nat)
    requires Supported(cfg, fetches, principal, keys, by_) && by_ <= later
    ensures Supported(cfg, fetches + more, principal, keys, later)
  {
    var k :| 0 <= k < |fetches| && Supports(cfg, fetches[k], principal, keys, by_);
    assert Supports(cfg, (fetches + more)[k], principal, keys, later);
  }

  lemma SupportJustifies(cfg: Config, fetches: seq<Fetch>, principal: Principal, keys: Lookup, by_: nat, key: Key)
    requires principal in cfg.allowed && Supported(cfg, fetches, principal, keys, by_)
    ensures Justified(cfg, fetches, principal, key, Verdict(keys, key))
  {
    var k :| 0 <= k < |fetches| && Supports(cfg, fetches[k], principal, keys, by_);
    assert fetches[k].principal == principal;
  }

  lemma CallStaysOk(cfg: Config, fetches: seq<Fetch>, more: seq<Fetch>, c: Call, now: nat, later: nat)
    requires CallOk(cfg, fetches, c, now) && now <= later
    ensures CallOk(cfg, fetches + more, c, later)
  {
    match c
    case Asking(_, _) =>
    case Fetching(_, _) =>
    case Holding(principal, _, keys) =>
      SupportedStays(cfg, fetches, more, principal, keys, now, later);
    case Answered(principal, key, verdict) =>
      if principal in cfg.allowed {
        var k :| 0 <= k < |fetches| && fetches[k].principal == principal
                 && verdict == Verdict(Parsed(cfg, fetches[k].answer), key);
        assert (fetches + more)[k] == fetches[k];
      }
  }

  lemma {:induction false} StepKeeps(cfg: Config, w: World, s: Step)
    requires Inv(cfg, w) && Enabled(w, s)
    ensures Inv(cfg, Do(cfg, w, s))
  {
    match s
    case Tick(to) => TickKeeps(cfg, w, to);
    case Begin(_, _, _) =>
    case LookUp(thread) => LookUpKeeps(cfg, w, thread);
    case Reply(thread, answer) => ReplyKeeps(cfg, w, thread, answer);
    case Insert(thread) => InsertKeeps(cfg, w, thread);
  }

  lemma {:induction false} TickKeeps(cfg: Config, w: World, to: nat)
    requires Inv(cfg, w) && Enabled(w, Tick(to))
    ensures Inv(cfg, Do(cfg, w, Tick(to)))
  {
    assert w.fetches + [] == w.fetches;
    forall t | t in w.calls ensures CallOk(cfg, w.fetches, w.calls[t], to) {
      CallStaysOk(cfg, w.fetches, [], w.calls[t], w.now, to);
    }
  }

  lemma {:induction false} LookUpKeeps(cfg: Config, w: World, thread: nat)
    requires Inv(cfg, w) && Enabled(w, LookUp(thread))
    ensures Inv(cfg, Do(cfg, w, LookUp(thread)))
  {
    var c := w.calls[thread];
    if Do(cfg, w, LookUp(thread)).calls[thread].Answered? {
      var e := w.cache[c.principal];
      SupportJustifies(cfg, w.fetches, c.principal, e.keys, e.at, c.key);
    }
  }

  lemma {:induction false} InsertKeeps(cfg: Config, w: World, thread: nat)
    requires Inv(cfg, w) && Enabled(w, Insert(thread))
    ensures Inv(cfg, Do(cfg, w, Insert(thread)))
  {
    var c := w.calls[thread];
    SupportJustifies(cfg, w.fetches, c.principal, c.keys, w.now, c.key);
  }

  lemma {:induction false} ReplyKeeps(cfg: Config, w: World, thread: nat, answer: Result<Bytes, Bytes>)
    requires Inv(cfg, w) && Enabled(w, Reply(thread, answer))
    ensures Inv(cfg, Do(cfg, w, Reply(thread, answer)))
  {
    var w' := Do(cfg, w, Reply(thread, answer));
    var more := [Fetch(w.calls[thread].principal, answer, w.now)];
    assert w'.fetches == w.fetches + more;
    forall p | p in w'.cache ensures Supported(cfg, w'.fetches, p, w'.cache[p].keys, w'.cache[p].at) {
      SupportedStays(cfg, w.fetches, more, p, w.cache[p].keys, w.cache[p].at, w.cache[p].at);
    }
    forall h | h in w'.hits ensures Supported(cfg, w'.fetches, h.principal, h.entry.keys, h.entry.at) {
      SupportedStays(cfg, w.fetches, more, h.principal, h.entry.keys, h.entry.at, h.entry.at);
    }
    forall t | t in w'.calls ensures CallOk(cfg, w'.fetches, w'.calls[t], w'.now) {
      if t == thread {
        assert Supports(cfg, w'.fetches[|w.fetches|], w.calls[t].principal, w'.calls[t].keys, w.now);
      } else {
        CallStaysOk(cfg, w.fetches, more, w.calls[t], w.now, w.now);
      }
    }
  }

  /** However the steps of however many calls interleave: requests go out, and entries exist, only
      for allowed principals; an entry is what a fetch for its principal, complete by the entry's
      time, came to; an answer from the cache is younger than its window. */
  lemma {:induction false} EveryRunKeeps(cfg: Config, steps: seq<Step>)
    requires Runs(cfg, Start, steps)
    ensures Inv(cfg, End(cfg, Start, steps))
    decreases |steps|
  {
    if steps != [] {
      EveryRunKeeps(cfg, steps[..|steps| - 1]);
      StepKeeps(cfg, End(cfg, Start, steps[..|steps| - 1]), steps[|steps| - 1]);
    }
  }

  /** A yes or a no about an allowed principal rests on a listing that was fetched for it and holds,
      or does not hold, the key; an outage is reported as the error it was, never as a no. */
  lemma {:induction false} NoAnswerWithoutListing(cfg: Config, steps: seq<Step>, thread: nat)
    requires Runs(cfg, Start, steps)
    requires var w := End(cfg, Start, steps); thread in w.calls && w.calls[thread].Answered?
    ensures var w := End(cfg, Start, steps);
            var c := w.calls[thread];
            if c.principal !in cfg.allowed then c.verdict == Ok(false)
            else exists k :: 0 <= k < |w.fetches| && w.fetches[k].principal == c.principal
                             && (c.verdict.Ok? <==> w.fetches[k].answer.Ok?)
                             && (c.verdict.Ok? ==> c.verdict.value == (c.key in cfg.parse(w.fetches[k].answer.value)))
                             && (c.verdict.Err? ==> c.verdict.error == w.fetches[k].answer.error)
  {
    EveryRunKeeps(cfg, steps);
  }

  // --- One call at a time --------------------------------------------------------------------

  /** When the parts of one undisturbed call happen, and what the fetcher would answer. */
  datatype Moments = Moments(lookUp: nat, reply: nat, insert: nat, answer: Result<Bytes, Bytes>) {
    predicate InOrder(since: nat) {
      since <= lookUp <= reply <= insert
    }
  }

  predicate NeedsFetch(cfg: Config, cache: Cache, principal: Principal, m: Moments) {
    principal in cfg.allowed && !(principal in cache && Fresh(cfg, cache[principal], m.lookUp))
  }

  function CacheAfter(cfg: Config, cache: Cache, principal: Principal, m: Moments): Cache {
    if NeedsFetch(cfg, cache, principal, m) then cache[principal := Entry(Parsed(cfg, m.answer), m.insert)] else cache
  }

  function VerdictOf(cfg: Config, cache: Cache, principal: Principal, key: Key, m: Moments): Result<bool, Bytes> {
    if principal !in cfg.allowed then Ok(false)
    else if NeedsFetch(cfg, cache, principal, m) then Verdict(Parsed(cfg, m.answer), key)
    else Verdict(cache[principal].keys, key)
  }

  class PublishedKeysAnchor {
    const cfg: Config
    var cache: Cache

    constructor (cfg: Config)
      ensures this.cfg == cfg && cache == map[]
    {
      this.cfg := cfg;
      cache := map[];
    }

    method KeysFor(principal: Principal, m: Moments) returns (keys: Lookup, fetched: bool)
      requires principal in cfg.allowed
      modifies this
      ensures fetched == NeedsFetch(cfg, old(cache), principal, m)
      ensures cache == CacheAfter(cfg, old(cache), principal, m)
      ensures principal in cache && keys == cache[principal].keys
    {
      if principal in cache && Fresh(cfg, cache[principal], m.lookUp) {
        return cache[principal].keys, false;
      }
      keys := Parsed(cfg, m.answer);
      cache := cache[principal := Entry(keys, m.insert)];
      fetched := true;
    }

    method VouchesFor(principal: Principal, key: Key, m: Moments) returns (verdict: Result<bool, Bytes>, fetched: bool)
      modifies this
      ensures fetched == NeedsFetch(cfg, old(cache), principal, m)
      ensures cache == CacheAfter(cfg, old(cache), principal, m)
      ensures verdict == VerdictOf(cfg, old(cache), principal, key, m)
    {
      if principal !in cfg.allowed {
        return Ok(false), false;
      }
      var keys: Lookup;
      keys, fetched := KeysFor(principal, m);
      verdict := Verdict(keys, key);
    }
  }

  /** The steps one undisturbed call takes. */
  function StepsOf(cfg: Config, cache: Cache, thread: nat, principal: Principal, key: Key, m: Moments): seq<Step> {
    if principal !in cfg.allowed then [Begin(thread, principal, key)]
    else if NeedsFetch(cfg, cache, principal, m) then
      [Begin(thread, principal, key), Tick(m.lookUp), LookUp(thread), Tick(m.reply), Reply(thread, m.answer),
       Tick(m.insert), Insert(thread)]
    else [Begin(thread, principal, key), Tick(m.lookUp), LookUp(thread)]
  }

  lemma RunSnoc(cfg: Config, w: World, steps: seq<Step>, s: Step)
    requires Runs(cfg, w, steps) && Enabled(End(cfg, w, steps), s)
    ensures Runs(cfg, w, steps + [s]) && End(cfg, w, steps + [s]) == Do(cfg, End(cfg, w, steps), s)
  {
    assert (steps + [s])[..|steps|] == steps;
  }

  /** An undisturbed call is a run of those steps, with the same answer and the same cache. */
  lemma {:induction false} CallIsARun(cfg: Config, w: World, thread: nat, principal: Principal, key: Key, m: Moments)
    requires m.InOrder(w.now) && Enabled(w, Begin(thread, principal, key))
    ensures var steps := StepsOf(cfg, w.cache, thread, principal, key, m);
            && Runs(cfg, w, steps)
            && End(cfg, w, steps).cache == CacheAfter(cfg, w.cache, principal, m)
            && thread in End(cfg, w, steps).calls
            && End(cfg, w, steps).calls[thread] == Answered(principal, key, VerdictOf(cfg, w.cache, principal, key, m))
  {
    var begin := Begin(thread, principal, key);
    RunSnoc(cfg, w, [], begin);
    assert [] + [begin] == [begin];
    if principal in cfg.allowed {
      var w1 := Do(cfg, w, begin);
      RunSnoc(cfg, w, [begin], Tick(m.lookUp));
      var w2 := Do(cfg, w1, Tick(m.lookUp));
      var looked := [begin, Tick(m.lookUp)];
      assert [begin] + [Tick(m.lookUp)] == looked;
      RunSnoc(cfg, w, looked, LookUp(thread));
      assert looked + [LookUp(thread)] == [begin, Tick(m.lookUp), LookUp(thread)];
      if NeedsFetch(cfg, w.cache, principal, m) {
        FetchIsARun(cfg, w, [begin, Tick(m.lookUp), LookUp(thread)], thread, m);
        assert [begin, Tick(m.lookUp), LookUp(thread)]
               + [Tick(m.reply), Reply(thread, m.answer), Tick(m.insert), Insert(thread)]
            == StepsOf(cfg, w.cache, thread, principal, key, m);
      }
    }
  }

  lemma {:induction false} FetchIsARun(cfg: Config, w: World, steps: seq<Step>, thread: nat, m: Moments)
    requires Runs(cfg, w, steps) && thread in End(cfg, w, steps).calls && End(cfg, w, steps).calls[thread].Fetching?
    requires End(cfg, w, steps).now <= m.reply <= m.insert
    ensures var all := steps + [Tick(m.reply), Reply(thread, m.answer), Tick(m.insert), Insert(thread)];
            var before := End(cfg, w, steps);
            var c := before.calls[thread];
            && Runs(cfg, w, all)
            && End(cfg, w, all).cache == before.cache[c.principal := Entry(Parsed(cfg, m.answer), m.insert)]
            && thread in End(cfg, w, all).calls
            && End(cfg, w, all).calls[thread] == Answered(c.principal, c.key, Verdict(Parsed(cfg, m.answer), c.key))
  {
    var a := steps + [Tick(m.reply)];
    RunSnoc(cfg, w, steps, Tick(m.reply));
    var b := a + [Reply(thread, m.answer)];
    RunSnoc(cfg, w, a, Reply(thread, m.answer));
    var c := b + [Tick(m.insert)];
    RunSnoc(cfg, w, b, Tick(m.insert));
    RunSnoc(cfg, w, c, Insert(thread));
    assert c + [Insert(thread)] == steps + [Tick(m.reply), Reply(thread, m.answer), Tick(m.insert), Insert(thread)];
  }

  datatype Ask = Ask(principal: Principal, key: Key, m: Moments)

  /** The calls come one after the other. */
  predicate OneByOne(asks: seq<Ask>) {
    asks == [] || (OneByOne(asks[..|asks| - 1]) && asks[|asks| - 1].m.InOrder(DoneBy(asks[..|asks| - 1])))
  }

  function DoneBy(asks: seq<Ask>): nat {
    if asks == [] then 0 else asks[|asks| - 1].m.insert
  }

  function CacheOf(cfg: Config, asks: seq<Ask>): Cache {
    if asks == [] then map[] else
    var last := asks[|asks| - 1];
    CacheAfter(cfg, CacheOf(cfg, asks[..|asks| - 1]), last.principal, last.m)
  }

  function FetchesOf(cfg: Config, asks: seq<Ask>): seq<Fetch> {
    if asks == [] then [] else
    var before, last := asks[..|asks| - 1], asks[|asks| - 1];
    FetchesOf(cfg, before)
    + if NeedsFetch(cfg, CacheOf(cfg, before), last.principal, last.m)
      then [Fetch(last.principal, last.m.answer, last.m.reply)] else []
  }

  function Until(cfg: Config, f: Fetch): nat {
    f.at + Window(cfg, Parsed(cfg, f.answer))
  }

  /** One call at a time, any two fetches for a principal are at least the window of the earlier one
      apart, and the entry they leave lasts at least as long as each of their windows. */
  lemma {:induction false} FetchesAreSpaced(cfg: Config, asks: seq<Ask>)
    requires OneByOne(asks)
    ensures var fetches, cache := FetchesOf(cfg, asks), CacheOf(cfg, asks);
            && (forall i, j :: 0 <= i < j < |fetches| && fetches[i].principal == fetches[j].principal ==>
                  fetches[j].at >= Until(cfg, fetches[i]))
            && (forall f :: f in fetches ==>
                  f.principal in cache
                  && Until(cfg, f) <= cache[f.principal].at + Window(cfg, cache[f.principal].keys))
    decreases |asks|
  {
    if asks != [] {
      var before, last := asks[..|asks| - 1], asks[|asks| - 1];
      FetchesAreSpaced(cfg, before);
      var fetches := FetchesOf(cfg, before);
      forall i | 0 <= i < |fetches| ensures fetches[i] in fetches {
      }
    }
  }

  // --- Spacing under interleaving ------------------------------------------------------------

  /** A call for the principal is between its miss and its insertion. */
  predicate Busy(w: World, principal: Principal) {
    exists t :: t in w.calls && InBetween(w, t) && w.calls[t].principal == principal
  }

  /** No look-up for a principal happens while another call for it is between miss and insertion;
      anything else may interleave. */
  predicate Undisturbed(cfg: Config, w: World, steps: seq<Step>)
    requires Runs(cfg, w, steps)
    decreases |steps|
  {
    steps == []
    || (&& Undisturbed(cfg, w, steps[..|steps| - 1])
        && var before, step := End(cfg, w, steps[..|steps| - 1]), steps[|steps| - 1];
           step.LookUp? ==> !Busy(before, before.calls[step.thread].principal))
  }

  /** Until when the entry for a principal answers without a fetch. */
  function Lasts(cfg: Config, e: Entry): nat {
    e.at + Window(cfg, e.keys)
  }

  predicate InBetween(w: World, t: nat) {
    t in w.calls && (w.calls[t].Fetching? || w.calls[t].Holding?)
  }

  ghost predicate OneBusyCall(w: World) {
    forall t, u :: InBetween(w, t) && InBetween(w, u) && t != u ==> w.calls[t].principal != w.calls[u].principal
  }

  /** Every completed fetch is over by now, is remembered as long as its window, or is about to be. */
  ghost predicate Remembered(cfg: Config, w: World) {
    && (forall k :: 0 <= k < |w.fetches| ==> w.fetches[k].at <= w.now)
    && (forall p :: p in w.cache ==> w.cache[p].at <= w.now)
    && (forall k :: 0 <= k < |w.fetches| ==>
          (w.fetches[k].principal in w.cache && Until(cfg, w.fetches[k]) <= Lasts(cfg, w.cache[w.fetches[k].principal]))
          || exists t :: HoldsFetch(cfg, w, t, w.fetches[k]))
    && (forall t :: t in w.calls && w.calls[t].Fetching? ==>
          forall k :: 0 <= k < |w.fetches| && w.fetches[k].principal == w.calls[t].principal ==>
            Until(cfg, w.fetches[k]) <= w.now)
    && (forall t :: t in w.calls && w.calls[t].Holding? ==>
          forall k :: 0 <= k < |w.fetches| && w.fetches[k].principal == w.calls[t].principal ==>
            HoldsFetch(cfg, w, t, w.fetches[k]))
  }

  predicate HoldsFetch(cfg: Config, w: World, t: nat, f: Fetch) {
    t in w.calls && w.calls[t].Holding? && w.calls[t].principal == f.principal
    && Until(cfg, f) <= w.now + Window(cfg, w.calls[t].keys)
  }

  ghost predicate Spaced(cfg: Config, fetches: seq<Fetch>) {
    forall i, j :: 0 <= i < j < |fetches| && fetches[i].principal == fetches[j].principal ==>
      fetches[j].at >= Until(cfg, fetches[i])
  }

  ghost predicate SpacingInv(cfg: Config, w: World) {
    OneBusyCall(w) && Remembered(cfg, w) && Spaced(cfg, w.fetches)
  }

  lemma {:induction false} TickSpaced(cfg: Config, w: World, to: nat)
    requires SpacingInv(cfg, w) && Enabled(w, Tick(to))
    ensures SpacingInv(cfg, Do(cfg, w, Tick(to)))
  {
    var w' := Do(cfg, w, Tick(to));
    assert forall t, f :: HoldsFetch(cfg, w, t, f) ==> HoldsFetch(cfg, w', t, f);
  }

  lemma {:induction false} BeginSpaced(cfg: Config, w: World, thread: nat, principal: Principal, key: Key)
    requires SpacingInv(cfg, w) && Enabled(w, Begin(thread, principal, key))
    ensures SpacingInv(cfg, Do(cfg, w, Begin(thread, principal, key)))
  {
    var w' := Do(cfg, w, Begin(thread, principal, key));
    assert forall t, f :: HoldsFetch(cfg, w, t, f) ==> HoldsFetch(cfg, w', t, f);
  }

  lemma {:induction false} LookUpSpaced(cfg: Config, w: World, thread: nat)
    requires SpacingInv(cfg, w) && Enabled(w, LookUp(thread)) && !Busy(w, w.calls[thread].principal)
    ensures SpacingInv(cfg, Do(cfg, w, LookUp(thread)))
  {
    var w', principal := Do(cfg, w, LookUp(thread)), w.calls[thread].principal;
    assert w'.fetches == w.fetches && w'.cache == w.cache && w'.now == w.now;
    assert forall t :: InBetween(w, t) ==>
        InBetween(w', t) && w'.calls[t] == w.calls[t] && w.calls[t].principal != principal;
    assert forall t :: InBetween(w', t) && t != thread ==> InBetween(w, t);
    assert forall t, f :: HoldsFetch(cfg, w, t, f) ==> InBetween(w, t) && HoldsFetch(cfg, w', t, f);
    assert w'.calls[thread].Fetching? ==> principal !in w.cache || Lasts(cfg, w.cache[principal]) <= w.now;
    hide Do, Enabled, Busy, Spaced, Window;
  }

  lemma {:induction false} ReplySpaces(cfg: Config, w: World, thread: nat, answer: Result<Bytes, Bytes>)
    requires SpacingInv(cfg, w) && Enabled(w, Reply(thread, answer))
    ensures Spaced(cfg, Do(cfg, w, Reply(thread, answer)).fetches)
  {
    var fetch := Fetch(w.calls[thread].principal, answer, w.now);
    assert Do(cfg, w, Reply(thread, answer)).fetches == w.fetches + [fetch];
    hide OneBusyCall, HoldsFetch, Until;
  }

  lemma {:induction false} ReplyKeepsOneBusy(cfg: Config, w: World, thread: nat, answer: Result<Bytes, Bytes>)
    requires OneBusyCall(w) && Enabled(w, Reply(thread, answer))
    ensures OneBusyCall(Do(cfg, w, Reply(thread, answer)))
  {
    var w' := Do(cfg, w, Reply(thread, answer));
    assert forall t :: InBetween(w', t) ==> InBetween(w, t) && w'.calls[t].principal == w.calls[t].principal;
  }

  lemma {:induction false} ReplyRemembered(cfg: Config, w: World, thread: nat, answer: Result<Bytes, Bytes>)
    requires SpacingInv(cfg, w) && Enabled(w, Reply(thread, answer))
    ensures Remembered(cfg, Do(cfg, w, Reply(thread, answer)))
  {
    var w', principal := Do(cfg, w, Reply(thread, answer)), w.calls[thread].principal;
    var fetch := Fetch(principal, answer, w.now);
    assert w'.fetches == w.fetches + [fetch];
    assert InBetween(w, thread);
    assert HoldsFetch(cfg, w', thread, fetch);
    assert forall t, f :: HoldsFetch(cfg, w, t, f) ==> HoldsFetch(cfg, w', t, f);
    forall t | t in w'.calls && t != thread && InBetween(w', t) ensures w'.calls[t].principal != principal {
      assert InBetween(w, t);
    }
    hide Spaced, OneBusyCall;
  }

  lemma {:induction false} ReplySpaced(cfg: Config, w: World, thread: nat, answer: Result<Bytes, Bytes>)
    requires SpacingInv(cfg, w) && Enabled(w, Reply(thread, answer))
    ensures SpacingInv(cfg, Do(cfg, w, Reply(thread, answer)))
  {
    ReplySpaces(cfg, w, thread, answer);
    ReplyKeepsOneBusy(cfg, w, thread, answer);
    ReplyRemembered(cfg, w, thread, answer);
    hide OneBusyCall, Remembered, Spaced;
  }

  lemma {:induction false} InsertSpaced(cfg: Config, w: World, thread: nat)
    requires SpacingInv(cfg, w) && Enabled(w, Insert(thread))
    ensures SpacingInv(cfg, Do(cfg, w, Insert(thread)))
  {
    var w', principal := Do(cfg, w, Insert(thread)), w.calls[thread].principal;
    assert forall t, f :: HoldsFetch(cfg, w, t, f) && t != thread ==> HoldsFetch(cfg, w', t, f);
  }

  /** Other principals' calls, and calls that have not looked up yet, may interleave at will: any two
      fetches for a principal are at least the window of the earlier one apart, as long as no look-up
      for it falls between another call's miss and insertion. */
  lemma {:induction false} UndisturbedFetchesAreSpaced(cfg: Config, steps: seq<Step>)
    requires Runs(cfg, Start, steps) && Undisturbed(cfg, Start, steps)
    ensures SpacingInv(cfg, End(cfg, Start, steps))
    decreases |steps|
  {
    if steps != [] {
      var before, step := steps[..|steps| - 1], steps[|steps| - 1];
      UndisturbedFetchesAreSpaced(cfg, before);
      var w := End(cfg, Start, before);
      hide SpacingInv;
      match step
      case Tick(to) => TickSpaced(cfg, w, to);
      case Begin(thread, principal, key) => BeginSpaced(cfg, w, thread, principal, key);
      case LookUp(thread) => LookUpSpaced(cfg, w, thread);
      case Reply(thread, answer) => ReplySpaced(cfg, w, thread, answer);
      case Insert(thread) => InsertSpaced(cfg, w, thread);
    } else {
      assert SpacingInv(cfg, Start);
    }
  }

  /** Nothing less will do. Whenever a look-up misses while another call for the principal is waiting
      for its reply, replies to both at that moment, be they outages, are fetches less than a window
      apart. */
  lemma {:induction false} DisturbedFetchesCrowd(cfg: Config, w: World, t: nat, u: nat, outage: Bytes)
    requires t in w.calls && w.calls[t].Fetching? && Misses(cfg, w, u) && t != u
    requires w.calls[t].principal == w.calls[u].principal
    ensures var steps := [LookUp(u), Reply(t, Err(outage)), Reply(u, Err(outage))];
            Runs(cfg, w, steps) && !Spaced(cfg, End(cfg, w, steps).fetches)
  {
    var x, y := Reply(t, Err(outage)), Reply(u, Err(outage));
    RunSnoc(cfg, w, [], LookUp(u));
    assert [] + [LookUp(u)] == [LookUp(u)];
    RunSnoc(cfg, w, [LookUp(u)], x);
    assert [LookUp(u)] + [x] == [LookUp(u), x];
    RunSnoc(cfg, w, [LookUp(u), x], y);
    assert [LookUp(u), x] + [y] == [LookUp(u), x, y];
    var f, n := End(cfg, w, [LookUp(u), x, y]).fetches, |w.fetches|;
    assert f == w.fetches + [Fetch(w.calls[t].principal, Err(outage), w.now)]
                + [Fetch(w.calls[t].principal, Err(outage), w.now)];
    assert f[n].principal == f[n + 1].principal && f[n + 1].at < Until(cfg, f[n]);
  }

  predicate Misses(cfg: Config, w: World, u: nat) {
    && u in w.calls && w.calls[u].Asking?
    && !(w.calls[u].principal in w.cache && Fresh(cfg, w.cache[w.calls[u].principal], w.now))
  }

  /** The same when the other call has its reply, not yet inserted, and the window it opened is not
      over: any reply at that moment comes too early. */
  lemma {:induction false} HeldReplyCrowds(cfg: Config, w: World, k: nat, u: nat, answer: Result<Bytes, Bytes>)
    requires Misses(cfg, w, u) && k < |w.fetches| && w.fetches[k].principal == w.calls[u].principal
    requires w.now < Until(cfg, w.fetches[k])
    ensures Runs(cfg, w, [LookUp(u), Reply(u, answer)])
    ensures !Spaced(cfg, End(cfg, w, [LookUp(u), Reply(u, answer)]).fetches)
  {
    var y := Reply(u, answer);
    RunSnoc(cfg, w, [], LookUp(u));
    assert [] + [LookUp(u)] == [LookUp(u)];
    RunSnoc(cfg, w, [LookUp(u)], y);
    assert [LookUp(u)] + [y] == [LookUp(u), y];
    var f, n := End(cfg, w, [LookUp(u), y]).fetches, |w.fetches|;
    assert f == w.fetches + [Fetch(w.calls[u].principal, answer, w.now)];
    assert f[k] == w.fetches[k] && f[n].at < Until(cfg, f[k]);
  }

  /** Two threads that both miss fetch twice within one window. */
  lemma {:induction false} TwoThreadsFetchTwice(cfg: Config, principal: Principal, key: Key, listing: Bytes)
    requires principal in cfg.allowed && cfg.ttl > 0
    ensures var steps := [Begin(0, principal, key), Begin(1, principal, key), LookUp(0), LookUp(1),
                          Reply(0, Ok(listing)), Reply(1, Ok(listing))];
            && Runs(cfg, Start, steps)
            && var f := End(cfg, Start, steps).fetches;
               |f| == 2 && f[0].principal == f[1].principal && f[1].at < Until(cfg, f[0])
  {
    var a, b := Begin(0, principal, key), Begin(1, principal, key);
    var x, y := Reply(0, Ok(listing)), Reply(1, Ok(listing));
    RunSnoc(cfg, Start, [], a);
    assert [] + [a] == [a];
    RunSnoc(cfg, Start, [a], b);
    assert [a] + [b] == [a, b];
    RunSnoc(cfg, Start, [a, b], LookUp(0));
    assert [a, b] + [LookUp(0)] == [a, b, LookUp(0)];
    RunSnoc(cfg, Start, [a, b, LookUp(0)], LookUp(1));
    assert [a, b, LookUp(0)] + [LookUp(1)] == [a, b, LookUp(0), LookUp(1)];
    RunSnoc(cfg, Start, [a, b, LookUp(0), LookUp(1)], x);
    assert [a, b, LookUp(0), LookUp(1)] + [x] == [a, b, LookUp(0), LookUp(1), x];
    RunSnoc(cfg, Start, [a, b, LookUp(0), LookUp(1), x], y);
    assert [a, b, LookUp(0), LookUp(1), x] + [y] == [a, b, LookUp(0), LookUp(1), x, y];
  }
}

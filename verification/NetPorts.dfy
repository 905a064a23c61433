/** The ports a network allow-list opens in the kernel: reading one entry, and merging them all. */
module NetPorts {
  import opened Wrappers
  import opened FirstOccurrences
  import opened Text

  datatype NetError = NoHost(entry: Bytes) | BadPort(entry: Bytes) | NoPort(entry: Bytes)

  // --- One entry -----------------------------------------------------------------------------

  /** `host:port` or `[v6]:port`; None for an entry without a port. */
  function SplitHostPort(entry: Bytes): Result<Option<(Bytes, nat)>, NetError> {
    if StartsWith(entry, "[") then
      var rest := entry[1..];
      var at := FindFrom(rest, "]:", 0);
      if at.None? then Ok(None) else CheckHostPort(entry, rest[..at.value], rest[at.value + 2..])
    else
      var at := IndexOf(entry, ':');
      if at == |entry| || ':' in entry[at + 1..] then Ok(None)
      else CheckHostPort(entry, entry[..at], entry[at + 1..])
  }

  function CheckHostPort(entry: Bytes, host: Bytes, port: Bytes): Result<Option<(Bytes, nat)>, NetError> {
    if host == "" then Err(NoHost(entry)) else
    var n := ParseUnsigned(port, 0x1_0000);
    if n.None? || n.value == 0 then Err(BadPort(entry)) else Ok(Some((host, n.value)))
  }

  predicate InPortRange(port: nat) {
    1 <= port <= 65535
  }

  /** Without brackets an entry names no port exactly when it does not hold exactly one colon. */
  lemma {:induction false} NamesNoPort(entry: Bytes)
    requires !StartsWith(entry, "[")
    ensures SplitHostPort(entry) == Ok(None) <==> |Split(entry, ':')| != 2
  {
    var at := IndexOf(entry, ':');
    if at < |entry| {
      var tail := entry[at + 1..];
      assert Split(entry, ':') == [entry[..at]] + Split(tail, ':');
      assert ':' in tail <==> IndexOf(tail, ':') < |tail|;
    }
  }

  /** `text` is a decimal number of value `port`, perhaps behind a plus and with leading zeros. */
  predicate PortText(text: Bytes, port: nat) {
    var digits := if text != "" && text[0] == '+' then text[1..] else text;
    digits != "" && AllDigits(digits) && Value(digits) == port
  }

  /** The one colon between a host without colons and the port, or the first `]:` behind the bracket. */
  ghost predicate Shape(entry: Bytes, host: Bytes, text: Bytes) {
    || (entry == host + ":" + text && ':' !in host && host != "" && host[0] != '[')
    || (entry == "[" + host + "]:" + text && !Occurs(host, "]:"))
  }

  lemma PortTextHasNoColon(text: Bytes, port: nat)
    requires PortText(text, port)
    ensures ':' !in text
  {
    if text[0] == '+' {
      assert text == ['+'] + text[1..];
    }
  }

  lemma {:induction false} PlainShapeSplits(host: Bytes, text: Bytes)
    requires ':' !in host && host != "" && host[0] != '[' && ':' !in text
    ensures SplitHostPort(host + ":" + text) == CheckHostPort(host + ":" + text, host, text)
  {
    var entry := host + [':'] + text;
    assert entry == host + ":" + text;
    IndexOfAppend(host, ':', text);
    assert entry[0] == host[0] && entry[..1][0] == host[0];
    assert entry[..|host|] == host && entry[|host| + 1..] == text;
    hide CheckHostPort, FindFrom, IndexOf, OccursAt;
  }

  lemma {:induction false} BracketShapeSplits(host: Bytes, text: Bytes)
    requires !Occurs(host, "]:")
    ensures SplitHostPort("[" + host + "]:" + text) == CheckHostPort("[" + host + "]:" + text, host, text)
  {
    var rest := host + "]:" + text;
    var entry := "[" + host + "]:" + text;
    assert entry[..1] == "[" && entry[1..] == rest;
    assert OccursAt(rest, "]:", |host|);
    forall k: nat | k < |host| ensures !OccursAt(rest, "]:", k) {
      NoEarlierBracket(host, text, k);
    }
    assert FindFrom(rest, "]:", 0) == Some(|host|);
    assert rest[..|host|] == host && rest[|host| + 2..] == text;
  }

  lemma NoEarlierBracket(host: Bytes, text: Bytes, k: nat)
    requires !Occurs(host, "]:") && k < |host|
    ensures !OccursAt(host + "]:" + text, "]:", k)
  {
    var rest := host + "]:" + text;
    if k + 1 < |host| {
      assert rest[k..k + 2] == host[k..k + 2];
      assert !OccursAt(host, "]:", k);
    } else {
      assert rest[k..k + 2][1] == rest[k + 1] == ']';
    }
  }

  /** The text the entry was split from has one of the two shapes. */
  lemma {:induction false} SplitHasShape(entry: Bytes) returns (text: Bytes)
    requires SplitHostPort(entry).Ok? && SplitHostPort(entry).value.Some?
    ensures var (host, port) := SplitHostPort(entry).value.value;
            Shape(entry, host, text) && PortText(text, port) && host != "" && InPortRange(port)
  {
    if StartsWith(entry, "[") {
      var rest := entry[1..];
      var at := FindFrom(rest, "]:", 0).value;
      text := rest[at + 2..];
      BracketRejoins(entry, at);
    } else {
      var at := IndexOf(entry, ':');
      text := entry[at + 1..];
      assert entry == entry[..at] + ":" + text;
      assert entry[..1] != "[";
    }
  }

  lemma BracketRejoins(entry: Bytes, at: nat)
    requires StartsWith(entry, "[") && FindFrom(entry[1..], "]:", 0) == Some(at)
    ensures var rest := entry[1..]; entry == "[" + rest[..at] + "]:" + rest[at + 2..] && !Occurs(rest[..at], "]:")
  {
    var rest := entry[1..];
    assert entry == entry[..1] + rest;
    assert rest == rest[..at] + rest[at..at + 2] + rest[at + 2..];
    forall k: nat ensures !OccursAt(rest[..at], "]:", k) {
      if k + 2 <= at {
        assert rest[..at][k..k + 2] == rest[k..k + 2];
        assert !OccursAt(rest, "]:", k);
      }
    }
  }

  /** An entry gives a host and a port exactly when it has one of the two shapes, the host is not
      empty, and the text behind it is a number from 1 to 65535. */
  lemma {:induction false} SplitExact(entry: Bytes, host: Bytes, port: nat)
    ensures SplitHostPort(entry) == Ok(Some((host, port)))
            <==> host != "" && InPortRange(port) && exists text :: Shape(entry, host, text) && PortText(text, port)
  {
    if SplitHostPort(entry) == Ok(Some((host, port))) {
      var text := SplitHasShape(entry);
    }
    forall text | host != "" && InPortRange(port) && Shape(entry, host, text) && PortText(text, port)
      ensures SplitHostPort(entry) == Ok(Some((host, port)))
    {
      PortTextHasNoColon(text, port);
      if entry == host + ":" + text && ':' !in host && host[0] != '[' {
        PlainShapeSplits(host, text);
      } else {
        BracketShapeSplits(host, text);
      }
      assert CheckHostPort(entry, host, text) == Ok(Some((host, port)));
    }
  }

  lemma {:induction false} ZerosDoNotCount(zeros: Bytes, digits: Bytes)
    requires AllDigits(digits) && forall k :: 0 <= k < |zeros| ==> zeros[k] == '0'
    ensures AllDigits(zeros + digits) && Value(zeros + digits) == Value(digits)
    decreases |zeros| + |digits|
  {
    if digits != "" {
      assert (zeros + digits)[..|zeros + digits| - 1] == zeros + digits[..|digits| - 1];
      ZerosDoNotCount(zeros, digits[..|digits| - 1]);
    } else {
      assert zeros + digits == zeros;
      if zeros != "" {
        assert zeros[..|zeros| - 1] + "" == zeros[..|zeros| - 1];
        ZerosDoNotCount(zeros[..|zeros| - 1], "");
      }
    }
  }

  /** The spellings of a port: any zeros in front, and perhaps a plus in front of those. */
  lemma {:induction false} PortSpellings(zeros: Bytes, port: nat)
    requires forall k :: 0 <= k < |zeros| ==> zeros[k] == '0'
    ensures PortText(zeros + Decimal(port), port) && PortText("+" + (zeros + Decimal(port)), port)
  {
    ValueOfDecimal(port);
    ZerosDoNotCount(zeros, Decimal(port));
    assert IsDigit((zeros + Decimal(port))[0]);
    assert ("+" + (zeros + Decimal(port)))[1..] == zeros + Decimal(port);
  }

  /** A host name or IPv4 address with a port. */
  lemma {:induction false} SplitHost(host: Bytes, port: nat)
    requires host != "" && host[0] != '[' && ':' !in host && InPortRange(port)
    ensures SplitHostPort(host + ":" + Decimal(port)) == Ok(Some((host, port)))
  {
    PortSpellings("", port);
    assert "" + Decimal(port) == Decimal(port);
    assert Shape(host + ":" + Decimal(port), host, Decimal(port));
    hide PortText, Shape, SplitHostPort;
    SplitExact(host + ":" + Decimal(port), host, port);
  }

  lemma BracketDoesNotOccur(host: Bytes)
    requires ']' !in host
    ensures !Occurs(host, "]:")
  {
    forall k: nat ensures !OccursAt(host, "]:", k) {
      if k + 2 <= |host| {
        assert host[k..k + 2][0] == host[k];
      }
    }
  }

  /** An IPv6 address in brackets, whatever colons it holds. */
  lemma {:induction false} SplitBracketed(host: Bytes, port: nat)
    requires host != "" && ']' !in host && InPortRange(port)
    ensures SplitHostPort("[" + host + "]:" + Decimal(port)) == Ok(Some((host, port)))
  {
    PortSpellings("", port);
    assert "" + Decimal(port) == Decimal(port);
    BracketDoesNotOccur(host);
    hide PortText, SplitHostPort, Decimal, Occurs;
    assert Shape("[" + host + "]:" + Decimal(port), host, Decimal(port));
    SplitExact("[" + host + "]:" + Decimal(port), host, port);
  }

  predicate EqualIgnoringCase(a: Bytes, b: Bytes) {
    |a| == |b| && forall k :: 0 <= k < |a| ==> Lower(a[k]) == Lower(b[k])
  }

  /** `ip` says of a text whether it is a loopback address, of either version. */
  predicate IsLoopbackHost(ip: Bytes -> bool, host: Bytes) {
    EqualIgnoringCase(host, "localhost") || ip(host)
  }

  // --- The table -----------------------------------------------------------------------------

  /** What an entry says: a port, and whether its host is loopback. */
  datatype Item = Item(port: nat, loopback: bool)

  type Reading = Bytes -> Result<Option<Item>, NetError>

  function ReadEntry(ip: Bytes -> bool, entry: Bytes): Result<Option<Item>, NetError> {
    var split :- SplitHostPort(entry);
    Ok(if split.None? then None else Some(Item(split.value.1, IsLoopbackHost(ip, split.value.0))))
  }

  function Reader(ip: Bytes -> bool): Reading {
    entry => ReadEntry(ip, entry)
  }

  datatype KernelNetPort = KernelNetPort(port: nat, anyHost: bool, loopback: bool)

  /** `iter().position`: where the port's row is, or the length when it has none. */
  function RowOf(rows: seq<KernelNetPort>, port: nat): (at: nat)
    ensures at <= |rows|
    ensures at < |rows| ==> rows[at].port == port
    ensures forall k :: 0 <= k < at ==> rows[k].port != port
  {
    if rows == [] || rows[0].port == port then 0 else 1 + RowOf(rows[1..], port)
  }

  function Merge(rows: seq<KernelNetPort>, item: Item, proxy: bool): seq<KernelNetPort> {
    var at := RowOf(rows, item.port);
    var anyHost := !item.loopback && !proxy;
    if at == |rows| then rows + [KernelNetPort(item.port, anyHost, item.loopback)]
    else rows[at := KernelNetPort(item.port, rows[at].anyHost || anyHost, rows[at].loopback || item.loopback)]
  }

  /** The table once the remaining entries are merged into it. */
  function Extended(read: Reading, proxy: bool, rows: seq<KernelNetPort>, entries: seq<Bytes>)
    : Result<seq<KernelNetPort>, NetError>
    decreases |entries|
  {
    if entries == [] then Ok(rows) else
    var item :- read(entries[0]);
    if item.Some? then Extended(read, proxy, Merge(rows, item.value, proxy), entries[1..])
    else if proxy then Extended(read, proxy, rows, entries[1..])
    else Err(NoPort(entries[0]))
  }

  /** The loop over the allow-list, for any reading of its entries. */
  method OpenPorts(read: Reading, proxy: bool, entries: seq<Bytes>) returns (r: Result<seq<KernelNetPort>, NetError>)
    ensures r == Extended(read, proxy, [], entries)
  {
    var ports: seq<KernelNetPort> := [];
    for i := 0 to |entries|
      invariant Extended(read, proxy, [], entries) == Extended(read, proxy, ports, entries[i..])
    {
      assert entries[i..][0] == entries[i] && entries[i..][1..] == entries[i + 1..];
      var item :- read(entries[i]);
      if item.None? {
        if proxy {
          continue;
        }
        return Err(NoPort(entries[i]));
      }
      var Item(port, loopback) := item.value;
      ghost var merged := Merge(ports, item.value, proxy);
      var at := RowOf(ports, port);
      if at == |ports| {
        ports := ports + [KernelNetPort(port, false, false)];
      }
      var slot := ports[at];
      slot := slot.(loopback := slot.loopback || loopback);
      slot := slot.(anyHost := slot.anyHost || (!loopback && !proxy));
      ports := ports[at := slot];
      assert ports == merged;
    }
    assert entries[|entries|..] == [];
    return Ok(ports);
  }

  function Itself(): Bytes -> Bytes {
    (s: Bytes) => s
  }

  class SandboxPolicy {
    var netAllow: seq<Bytes>
    var netProxyPort: Option<nat>

    constructor ()
      ensures netAllow == [] && netProxyPort == None
    {
      netAllow, netProxyPort := [], None;
    }

    method AllowNetworkDestination(destination: Bytes)
      modifies this
      ensures netAllow == old(netAllow) + (if destination in old(netAllow) then [] else [destination])
      ensures netProxyPort == old(netProxyPort)
    {
      if destination !in netAllow {
        netAllow := netAllow + [destination];
      }
    }

    method WithNetworkDestinations(destinations: seq<Bytes>)
      modifies this
      ensures netAllow == Firsts(destinations, Itself()) && netProxyPort == old(netProxyPort)
    {
      var unique: seq<Bytes> := [];
      for i := 0 to |destinations|
        invariant netProxyPort == old(netProxyPort)
        invariant unique == Firsts(destinations[..i], Itself())
        invariant forall d :: d in unique <==> d in Keys(destinations[..i], Itself())
      {
        assert destinations[..i + 1] == destinations[..i] + [destinations[i]];
        FirstsGrow(destinations[..i], Itself(), destinations[i]);
        KeysGrow(destinations[..i], Itself(), destinations[i]);
        if destinations[i] !in unique {
          unique := unique + [destinations[i]];
        }
      }
      assert destinations[..|destinations|] == destinations;
      netAllow := unique;
    }

    method WithNetProxyPort(port: nat)
      modifies this
      ensures netProxyPort == Some(port) && netAllow == old(netAllow)
    {
      netProxyPort := Some(port);
    }

    method KernelNetPorts(ip: Bytes -> bool) returns (r: Result<seq<KernelNetPort>, NetError>)
      ensures r == Extended(Reader(ip), netProxyPort.Some?, [], netAllow)
    {
      r := OpenPorts(Reader(ip), netProxyPort.Some?, netAllow);
    }
  }

  // --- What the table says -------------------------------------------------------------------

  predicate Names(read: Reading, entry: Bytes, port: nat) {
    read(entry).Ok? && read(entry).value.Some? && read(entry).value.value.port == port
  }

  predicate NamesLoopback(read: Reading, entry: Bytes, port: nat) {
    Names(read, entry, port) && read(entry).value.value.loopback
  }

  predicate NamesRemote(read: Reading, entry: Bytes, port: nat) {
    Names(read, entry, port) && !read(entry).value.value.loopback
  }

  /** The first entry that names the port, or the length when none does. */
  function FirstUse(read: Reading, entries: seq<Bytes>, port: nat): (at: nat)
    ensures at <= |entries|
    ensures at < |entries| ==> Names(read, entries[at], port)
    ensures forall k :: 0 <= k < at ==> !Names(read, entries[k], port)
  {
    if entries == [] || Names(read, entries[0], port) then 0 else 1 + FirstUse(read, entries[1..], port)
  }

  predicate Acceptable(read: Reading, proxy: bool, entry: Bytes) {
    read(entry).Ok? && (proxy || read(entry).value.Some?)
  }

  /** A row is what the entries say about its port. */
  ghost predicate RowSays(read: Reading, proxy: bool, row: KernelNetPort, entries: seq<Bytes>) {
    && SomeNames(read, entries, row.port)
    && (row.loopback <==> SomeNamesLoopback(read, entries, row.port))
    && (row.anyHost <==> !proxy && SomeNamesRemote(read, entries, row.port))
  }

  ghost predicate SomeNames(read: Reading, entries: seq<Bytes>, port: nat) {
    exists e :: e in entries && Names(read, e, port)
  }

  ghost predicate SomeNamesLoopback(read: Reading, entries: seq<Bytes>, port: nat) {
    exists e :: e in entries && NamesLoopback(read, e, port)
  }

  ghost predicate SomeNamesRemote(read: Reading, entries: seq<Bytes>, port: nat) {
    exists e :: e in entries && NamesRemote(read, e, port)
  }

  lemma SomeGrow(read: Reading, entries: seq<Bytes>, e: Bytes, port: nat)
    ensures SomeNames(read, entries + [e], port) <==> SomeNames(read, entries, port) || Names(read, e, port)
    ensures SomeNamesLoopback(read, entries + [e], port)
            <==> SomeNamesLoopback(read, entries, port) || NamesLoopback(read, e, port)
    ensures SomeNamesRemote(read, entries + [e], port)
            <==> SomeNamesRemote(read, entries, port) || NamesRemote(read, e, port)
  {
    hide Names, NamesLoopback, NamesRemote;
    assert forall x :: x in entries + [e] <==> x in entries || x == e;
  }

  predicate DistinctPorts(rows: seq<KernelNetPort>) {
    forall i, j :: 0 <= i < j < |rows| ==> rows[i].port != rows[j].port
  }

  ghost predicate InFirstUseOrder(read: Reading, rows: seq<KernelNetPort>, entries: seq<Bytes>) {
    forall i, j :: 0 <= i < j < |rows| ==>
      FirstUse(read, entries, rows[i].port) < FirstUse(read, entries, rows[j].port)
  }

  ghost predicate HasRow(rows: seq<KernelNetPort>, port: nat) {
    exists k :: 0 <= k < |rows| && rows[k].port == port
  }

  /** The table is the entries' meaning: one row for each port named, saying what they say. */
  ghost predicate TableSays(read: Reading, proxy: bool, rows: seq<KernelNetPort>, entries: seq<Bytes>) {
    && DistinctPorts(rows) && InFirstUseOrder(read, rows, entries)
    && (forall k :: 0 <= k < |rows| ==> RowSays(read, proxy, rows[k], entries))
    && (forall e, port :: e in entries && Names(read, e, port) ==> HasRow(rows, port))
  }

  lemma {:induction false} FirstUseGrows(read: Reading, entries: seq<Bytes>, e: Bytes, port: nat)
    ensures FirstUse(read, entries, port) < |entries| ==>
              FirstUse(read, entries + [e], port) == FirstUse(read, entries, port)
    ensures FirstUse(read, entries, port) == |entries| ==> FirstUse(read, entries + [e], port) >= |entries|
  {
    if entries != [] {
      assert (entries + [e])[1..] == entries[1..] + [e];
      FirstUseGrows(read, entries[1..], e, port);
    }
  }

  lemma {:induction false} UsedEarlier(read: Reading, entries: seq<Bytes>, e: Bytes, port: nat)
    requires e in entries && Names(read, e, port)
    ensures FirstUse(read, entries, port) < |entries|
  {
    var k :| 0 <= k < |entries| && entries[k] == e;
  }

  /** An entry about another port, or about none, leaves a row's meaning alone. */
  lemma {:induction false} RowUntouched(read: Reading, proxy: bool, row: KernelNetPort, entries: seq<Bytes>, e: Bytes)
    requires RowSays(read, proxy, row, entries) && !Names(read, e, row.port)
    ensures RowSays(read, proxy, row, entries + [e])
  {
    SomeGrow(read, entries, e, row.port);
    hide SomeNames, SomeNamesLoopback, SomeNamesRemote;
  }

  /** One about the row's own port is or-ed into it. */
  lemma {:induction false} RowMerged(read: Reading, proxy: bool, row: KernelNetPort, entries: seq<Bytes>, e: Bytes)
    requires RowSays(read, proxy, row, entries) && Names(read, e, row.port)
    ensures var loopback := read(e).value.value.loopback;
            RowSays(read, proxy,
                    KernelNetPort(row.port, row.anyHost || (!loopback && !proxy), row.loopback || loopback),
                    entries + [e])
  {
    SomeGrow(read, entries, e, row.port);
    hide SomeNames, SomeNamesLoopback, SomeNamesRemote;
  }

  lemma {:induction false} OrderKept(read: Reading, proxy: bool, rows: seq<KernelNetPort>, entries: seq<Bytes>,
                                     e: Bytes)
    requires TableSays(read, proxy, rows, entries)
    ensures InFirstUseOrder(read, rows, entries + [e])
    ensures forall k :: 0 <= k < |rows| ==> FirstUse(read, entries + [e], rows[k].port) < |entries|
  {
    forall k | 0 <= k < |rows|
      ensures FirstUse(read, entries + [e], rows[k].port) == FirstUse(read, entries, rows[k].port) < |entries|
    {
      assert RowSays(read, proxy, rows[k], entries);
      SomeUse(read, entries, rows[k].port);
      FirstUseGrows(read, entries, e, rows[k].port);
    }
    hide TableSays, RowSays, FirstUse;
  }

  lemma SomeUse(read: Reading, entries: seq<Bytes>, port: nat)
    requires SomeNames(read, entries, port)
    ensures FirstUse(read, entries, port) < |entries|
  {
    var x :| x in entries && Names(read, x, port);
    UsedEarlier(read, entries, x, port);
  }

  lemma {:induction false} SkippedSays(read: Reading, rows: seq<KernelNetPort>, entries: seq<Bytes>, e: Bytes)
    requires TableSays(read, true, rows, entries) && read(e) == Ok(None)
    ensures TableSays(read, true, rows, entries + [e])
  {
    OrderKept(read, true, rows, entries, e);
    forall k | 0 <= k < |rows| ensures RowSays(read, true, rows[k], entries + [e]) {
      RowUntouched(read, true, rows[k], entries, e);
    }
  }

  lemma {:induction false} RowsMerged(read: Reading, proxy: bool, rows: seq<KernelNetPort>, entries: seq<Bytes>,
                                      e: Bytes)
    requires TableSays(read, proxy, rows, entries) && read(e).Ok? && read(e).value.Some?
    ensures var merged := Merge(rows, read(e).value.value, proxy);
            forall k :: 0 <= k < |merged| ==> RowSays(read, proxy, merged[k], entries + [e])
  {
    var item := read(e).value.value;
    var at := RowOf(rows, item.port);
    var merged := Merge(rows, item, proxy);
    forall k | 0 <= k < |merged| ensures RowSays(read, proxy, merged[k], entries + [e]) {
      if k == at && at == |rows| {
        NewRowSays(read, proxy, rows, entries, e);
      } else if k == at {
        RowMerged(read, proxy, rows[at], entries, e);
      } else {
        assert rows[k].port != item.port;
        RowUntouched(read, proxy, rows[k], entries, e);
      }
    }
  }

  lemma {:induction false} NewRowSays(read: Reading, proxy: bool, rows: seq<KernelNetPort>, entries: seq<Bytes>,
                                      e: Bytes)
    requires TableSays(read, proxy, rows, entries) && read(e).Ok? && read(e).value.Some?
    requires RowOf(rows, read(e).value.value.port) == |rows|
    ensures var item := read(e).value.value;
            RowSays(read, proxy, KernelNetPort(item.port, !item.loopback && !proxy, item.loopback), entries + [e])
  {
    var port := read(e).value.value.port;
    assert e in entries + [e];
    NoRowNoUse(read, proxy, rows, entries, port);
  }

  lemma NoRowNoUse(read: Reading, proxy: bool, rows: seq<KernelNetPort>, entries: seq<Bytes>, port: nat)
    requires TableSays(read, proxy, rows, entries) && RowOf(rows, port) == |rows|
    ensures forall x :: x in entries ==> !Names(read, x, port)
  {
    assert !HasRow(rows, port);
  }

  lemma MergedPorts(rows: seq<KernelNetPort>, item: Item, proxy: bool)
    ensures var at, merged := RowOf(rows, item.port), Merge(rows, item, proxy);
            && |merged| == (if at == |rows| then |rows| + 1 else |rows|) && merged[at].port == item.port
            && forall k :: 0 <= k < |rows| ==> merged[k].port == rows[k].port
  {
  }

  lemma {:induction false} MergedOrder(read: Reading, proxy: bool, rows: seq<KernelNetPort>, entries: seq<Bytes>,
                                       e: Bytes)
    requires TableSays(read, proxy, rows, entries) && read(e).Ok? && read(e).value.Some?
    ensures var merged := Merge(rows, read(e).value.value, proxy);
            DistinctPorts(merged) && InFirstUseOrder(read, merged, entries + [e])
  {
    var item := read(e).value.value;
    MergedPorts(rows, item, proxy);
    OrderKept(read, proxy, rows, entries, e);
    if RowOf(rows, item.port) == |rows| {
      NewPortIsLast(read, proxy, rows, entries, e);
    }
    hide RowSays, Names, FirstUse, Merge, HasRow;
  }

  lemma {:induction false} MergedHasRows(read: Reading, proxy: bool, rows: seq<KernelNetPort>, entries: seq<Bytes>,
                                         e: Bytes)
    requires TableSays(read, proxy, rows, entries) && read(e).Ok? && read(e).value.Some?
    ensures var merged := Merge(rows, read(e).value.value, proxy);
            forall x, port :: x in entries + [e] && Names(read, x, port) ==> HasRow(merged, port)
  {
    var item := read(e).value.value;
    var at, merged := RowOf(rows, item.port), Merge(rows, item, proxy);
    MergedPorts(rows, item, proxy);
    hide RowSays, FirstUse, Merge, RowOf, DistinctPorts, InFirstUseOrder;
    forall x, port | x in entries + [e] && Names(read, x, port) ensures HasRow(merged, port) {
      if port == item.port {
        assert merged[at].port == port;
      } else {
        assert x in entries;
        var k :| 0 <= k < |rows| && rows[k].port == port;
        assert merged[k].port == port;
      }
    }
  }

  lemma {:induction false} MergedSays(read: Reading, proxy: bool, rows: seq<KernelNetPort>, entries: seq<Bytes>,
                                      e: Bytes)
    requires TableSays(read, proxy, rows, entries) && read(e).Ok? && read(e).value.Some?
    ensures TableSays(read, proxy, Merge(rows, read(e).value.value, proxy), entries + [e])
  {
    MergedOrder(read, proxy, rows, entries, e);
    RowsMerged(read, proxy, rows, entries, e);
    MergedHasRows(read, proxy, rows, entries, e);
    hide RowSays, HasRow, FirstUse, Merge, DistinctPorts, InFirstUseOrder, Names;
  }

  lemma {:induction false} NewPortIsLast(read: Reading, proxy: bool, rows: seq<KernelNetPort>, entries: seq<Bytes>,
                                         e: Bytes)
    requires TableSays(read, proxy, rows, entries) && read(e).Ok? && read(e).value.Some?
    requires RowOf(rows, read(e).value.value.port) == |rows|
    ensures FirstUse(read, entries + [e], read(e).value.value.port) >= |entries|
  {
    var port := read(e).value.value.port;
    NoRowNoUse(read, proxy, rows, entries, port);
    assert forall k :: 0 <= k < |entries| ==> entries[k] in entries;
    FirstUseGrows(read, entries, e, port);
  }

  lemma {:induction false} ExtendedSays(read: Reading, proxy: bool, rows: seq<KernelNetPort>, done: seq<Bytes>,
                                        entries: seq<Bytes>)
    requires TableSays(read, proxy, rows, done)
    ensures var r := Extended(read, proxy, rows, entries);
            && (r.Ok? <==> forall e :: e in entries ==> Acceptable(read, proxy, e))
            && (r.Ok? ==> TableSays(read, proxy, r.value, done + entries))
    decreases |entries|
  {
    if entries == [] {
      assert done + entries == done;
    } else {
      var e := entries[0];
      assert done + [e] + entries[1..] == done + entries;
      if Acceptable(read, proxy, e) {
        var rows' := if read(e).value.Some? then Merge(rows, read(e).value.value, proxy) else rows;
        if read(e).value.Some? {
          MergedSays(read, proxy, rows, done, e);
        } else {
          SkippedSays(read, rows, done, e);
        }
        ExtendedSays(read, proxy, rows', done + [e], entries[1..]);
        assert forall x :: x in entries <==> x == e || x in entries[1..];
      } else {
        assert e in entries;
      }
    }
  }

  /** The table exists exactly when every entry is well formed and, without a proxy, names a port;
      and then it is the entries' meaning. */
  lemma {:induction false} TableIsMeaning(read: Reading, proxy: bool, entries: seq<Bytes>)
    ensures var r := Extended(read, proxy, [], entries);
            && (r.Ok? <==> forall e :: e in entries ==> Acceptable(read, proxy, e))
            && (r.Ok? ==> TableSays(read, proxy, r.value, entries))
  {
    ExtendedSays(read, proxy, [], [], entries);
    assert [] + entries == entries;
  }

  lemma {:induction false} RowFound(read: Reading, proxy: bool, row: KernelNetPort, a: seq<Bytes>,
                                    rows: seq<KernelNetPort>, b: seq<Bytes>)
    requires RowSays(read, proxy, row, a) && TableSays(read, proxy, rows, b)
    requires forall e :: e in a <==> e in b
    ensures row in rows
  {
    var e :| e in a && Names(read, e, row.port);
    assert HasRow(rows, row.port);
    var k :| 0 <= k < |rows| && rows[k].port == row.port;
    assert RowSays(read, proxy, rows[k], b);
    assert row == rows[k];
  }

  /** Allow-lists with the same entries, in any order and any number of times, open the same ports
      in the same way; only the order of the rows can differ. */
  lemma {:induction false} OrderDoesNotMatter(read: Reading, proxy: bool, a: seq<Bytes>, b: seq<Bytes>)
    requires forall e :: e in a <==> e in b
    ensures var x, y := Extended(read, proxy, [], a), Extended(read, proxy, [], b);
            && (x.Ok? <==> y.Ok?)
            && (x.Ok? ==> forall row :: row in x.value <==> row in y.value)
  {
    TableIsMeaning(read, proxy, a);
    TableIsMeaning(read, proxy, b);
    var x, y := Extended(read, proxy, [], a), Extended(read, proxy, [], b);
    if x.Ok? {
      forall row ensures row in x.value <==> row in y.value {
        if row in x.value {
          RowFound(read, proxy, row, a, y.value, b);
        }
        if row in y.value {
          RowFound(read, proxy, row, b, x.value, a);
        }
      }
    }
  }
}

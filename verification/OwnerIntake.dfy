/**
 An invite request's three layers: the body, perhaps behind a task header; in front of both, perhaps,
 a human's binding of the requester; around it all the requester's DID proof.
 */
module OwnerIntake {
  import opened Wrappers
  import opened Text
  import opened Identity
  import opened Grant
  import opened OwnerSpec
  import DidProof
  import Binding

  const MAGIC: Bytes := "SHADI-CHANNEL-REQUEST/1"
  const BODY: Bytes := "\nbody:\n"

  datatype IntakeError =
    | NoProof
    | BadProof(proof: IdentityError)
    | BadFrame(frame: IdentityError)
    | BindingRejected(binding: IdentityError)
    | WrongAgent
    | RequestNotUtf8
    | NotARequest
    | Missing(key: Bytes)
    | BadInviteeDid(did: IdentityError)

  // --- The request body ----------------------------------------------------------------------

  function Entry(key: Bytes, value: Bytes): Bytes {
    key + ": " + value
  }

  function RenderFields(channel: Bytes, invitee: Bytes, did: Bytes): Bytes {
    Line(Entry("channel", channel), Line(Entry("invitee", invitee), Entry("invitee_did", did)))
  }

  function RenderRequest(channel: Bytes, invitee: Bytes, did: Bytes): Bytes {
    Line(MAGIC, RenderFields(channel, invitee, did))
  }

  /** Read `key: value` off the next line; a blank value counts as missing. */
  function Field(rest: Bytes, key: Bytes): Result<(Bytes, Bytes), IntakeError> {
    var next := NextLine(rest);
    if next.None? then Err(Missing(key)) else
    var (line, after) := next.value;
    if !StartsWith(line, key + ": ") || Blank(line[|key| + 2..]) then Err(Missing(key))
    else Ok((line[|key| + 2..], after))
  }

  function ParseRequest(suite: Suite, body: Bytes): Result<(Bytes, Bytes, Bytes), IntakeError> {
    var first := NextLine(body);
    if first.None? || first.value.0 != MAGIC then Err(NotARequest) else ParseFields(suite, first.value.1)
  }

  function ParseFields(suite: Suite, rest: Bytes): Result<(Bytes, Bytes, Bytes), IntakeError> {
    var (channel, rest1) :- Field(rest, "channel");
    var (invitee, rest2) :- Field(rest1, "invitee");
    var (did, rest3) :- Field(rest2, "invitee_did");
    var key := ParseDidKey(suite, did);
    if key.Err? then Err(BadInviteeDid(key.error)) else Ok((channel, invitee, did))
  }

  /** `str::lines`, as an iterator. */
  class Lines {
    var rest: Bytes

    constructor (text: Bytes)
      ensures rest == text
    {
      rest := text;
    }

    method Next() returns (line: Option<Bytes>)
      modifies this
      ensures match NextLine(old(rest))
              case None => line == None && rest == old(rest)
              case Some(next) => line == Some(next.0) && rest == next.1
    {
      var next := NextLine(rest);
      if next.None? {
        return None;
      }
      rest := next.value.1;
      return Some(next.value.0);
    }

    method TakeField(key: Bytes) returns (r: Result<Bytes, IntakeError>)
      modifies this
      ensures match Field(old(rest), key)
              case Ok(read) => r == Ok(read.0) && rest == read.1
              case Err(e) => r == Err(e)
    {
      var line := Next();
      if line.None? || !StartsWith(line.value, key + ": ") {
        return Err(Missing(key));
      }
      var value := line.value[|key| + 2..];
      if Blank(value) {
        return Err(Missing(key));
      }
      return Ok(value);
    }
  }

  method ParseRequestLines(suite: Suite, body: Bytes) returns (r: Result<(Bytes, Bytes, Bytes), IntakeError>)
    ensures r == ParseRequest(suite, body)
  {
    var lines := new Lines(body);
    var first := lines.Next();
    if first != Some(MAGIC) {
      return Err(NotARequest);
    }
    var channel :- lines.TakeField("channel");
    var invitee :- lines.TakeField("invitee");
    var did :- lines.TakeField("invitee_did");
    var key := ParseDidKey(suite, did);
    if key.Err? {
      return Err(BadInviteeDid(key.error));
    }
    return Ok((channel, invitee, did));
  }

  /** A value a request line can carry: on one line, and not blank. */
  predicate FieldFits(value: Bytes) {
    SingleLine(value) && !Blank(value)
  }

  lemma {:induction false} NextLineExact(line: Bytes, rest: Bytes)
    ensures NextLine(line + "\n" + rest).Some?
    ensures NextLine(line + "\n" + rest).value.0 == line <==> SingleLine(line)
    ensures SingleLine(line) ==> NextLine(line + "\n" + rest).value.1 == rest
  {
    var s := line + "\n" + rest;
    assert forall k :: 0 <= k < |line| ==> s[k] == line[k];
    assert s[|line|] == '\n';
    if SingleLine(line) {
      NextLineReads(line, rest);
    }
  }

  /** Reading a field off the line it was written on gives the value back exactly when it fits. */
  lemma {:induction false} FieldExact(key: Bytes, value: Bytes, rest: Bytes)
    requires '\n' !in key
    ensures var r := Field(Line(Entry(key, value), rest), key);
            && ((r.Ok? && r.value.0 == value) <==> FieldFits(value))
            && (FieldFits(value) ==> r == Ok((value, rest)))
  {
    var prefix := key + ": ";
    var line := prefix + value;
    NextLineExact(line, rest);
    assert line[..|prefix|] == prefix && line[|prefix|..] == value;
    assert value != "" ==> line[|line| - 1] == value[|value| - 1];
    var next := NextLine(Line(line, rest)).value.0;
    if StartsWith(next, prefix) && next[|prefix|..] == value {
      assert next == next[..|prefix|] + next[|prefix|..];
      assert next == line;
    }
  }

  /** The last field has no newline after it. */
  lemma {:induction false} LastFieldExact(key: Bytes, value: Bytes)
    requires '\n' !in key
    ensures var r := Field(Entry(key, value), key);
            (r.Ok? && r.value.0 == value) <==> '\n' !in value && !Blank(value)
  {
    var prefix := key + ": ";
    var line := prefix + value;
    assert line[..|prefix|] == prefix && line[|prefix|..] == value;
    var next := NextLine(line).value.0;
    if StartsWith(next, prefix) && next[|prefix|..] == value {
      assert next == next[..|prefix|] + next[|prefix|..];
      assert next == line;
      assert forall k :: 0 <= k < |value| ==> value[k] == line[|prefix| + k];
    }
  }

  lemma {:induction false} ParseFieldsExact(suite: Suite, channel: Bytes, invitee: Bytes, did: Bytes)
    requires suite.Lawful()
    ensures ParseFields(suite, RenderFields(channel, invitee, did)) == Ok((channel, invitee, did))
            <==> FieldFits(channel) && FieldFits(invitee) && ParseDidKey(suite, did).Ok?
  {
    hide Field, Entry, Line, ParseDidKey, SingleLine, Blank;
    FieldExact("channel", channel, Line(Entry("invitee", invitee), Entry("invitee_did", did)));
    FieldExact("invitee", invitee, Entry("invitee_did", did));
    LastFieldExact("invitee_did", did);
    if ParseDidKey(suite, did).Ok? {
      ParsedDidIsPlain(suite, did);
    }
  }

  lemma {:induction false} ParseBehindMagic(suite: Suite, rest: Bytes)
    ensures ParseRequest(suite, Line(MAGIC, rest)) == ParseFields(suite, rest)
  {
    NextLineReads(MAGIC, rest);
  }

  /** A rendered request reads back as what was rendered exactly when channel and invitee fit their
      lines and the DID is a key. */
  lemma {:induction false} ParseRender(suite: Suite, channel: Bytes, invitee: Bytes, did: Bytes)
    requires suite.Lawful()
    ensures ParseRequest(suite, RenderRequest(channel, invitee, did)) == Ok((channel, invitee, did))
            <==> FieldFits(channel) && FieldFits(invitee) && ParseDidKey(suite, did).Ok?
  {
    ParseBehindMagic(suite, RenderFields(channel, invitee, did));
    ParseFieldsExact(suite, channel, invitee, did);
  }

  lemma {:induction false} ReturnIsDropped(key: Bytes, value: Bytes, rest: Bytes)
    requires '\n' !in key && '\n' !in value && !Blank(value)
    ensures Field(Line(Entry(key, value + "\r"), rest), key) == Ok((value, rest))
  {
    var prefix := key + ": ";
    var line := prefix + value + "\r";
    IndexOfAppend(line, '\n', rest);
    var s := line + ['\n'] + rest;
    assert Entry(key, value + "\r") == line;
    assert s == Line(line, rest);
    assert s[|line| - 1] == '\r' && s[..|line| - 1] == prefix + value && s[|line| + 1..] == rest;
    assert (prefix + value)[..|prefix|] == prefix && (prefix + value)[|prefix|..] == value;
  }

  /** A channel ending in a carriage return is not refused: another channel is read in its place. */
  lemma {:induction false} ReturnNamesAnotherChannel(suite: Suite, channel: Bytes, invitee: Bytes, did: Bytes)
    requires suite.Lawful() && FieldFits(channel) && FieldFits(invitee) && ParseDidKey(suite, did).Ok?
    ensures ParseRequest(suite, RenderRequest(channel + "\r", invitee, did)) == Ok((channel, invitee, did))
  {
    ParseBehindMagic(suite, RenderFields(channel + "\r", invitee, did));
    hide RenderFields, ParseFields, FieldFits, ParseRequest, ParseDidKey;
    FieldsNameAnotherChannel(suite, channel, invitee, did);
  }

  lemma {:induction false} FieldsNameAnotherChannel(suite: Suite, channel: Bytes, invitee: Bytes, did: Bytes)
    requires suite.Lawful() && FieldFits(channel) && FieldFits(invitee) && ParseDidKey(suite, did).Ok?
    ensures ParseFields(suite, RenderFields(channel + "\r", invitee, did)) == Ok((channel, invitee, did))
  {
    hide Field, Entry, Line, ParseDidKey, Blank;
    ParsedDidIsPlain(suite, did);
    ReturnIsDropped("channel", channel, Line(Entry("invitee", invitee), Entry("invitee_did", did)));
    FieldExact("invitee", invitee, Entry("invitee_did", did));
    LastFieldExact("invitee_did", did);
  }

  // --- The task header -----------------------------------------------------------------------

  /** What follows the first body separator, or all of it when there is none. */
  function SplitBody(text: Bytes): Bytes {
    var at := FindFrom(text, BODY, 0);
    if at.None? then text else text[at.value + |BODY|..]
  }

  /** A header the body separator cannot be found in too early. */
  ghost predicate HeaderClear(header: Bytes) {
    !Occurs(header + "\n", BODY)
  }

  lemma {:induction false} BodyAtHeaderEnd(header: Bytes, body: Bytes, p: nat)
    requires p < |header|
    ensures OccursAt(header + BODY + body, BODY, p) <==> OccursAt(header + "\n", BODY, p)
  {
    var text, short := header + BODY + body, header + "\n";
    assert forall k :: 0 <= k < |short| ==> text[k] == short[k];
    assert text[|header| + 1] == 'b';
    if p + 7 <= |short| {
      assert text[p..p + 7] == short[p..p + 7];
    } else {
      assert text[p..p + 7][|header| - p] == '\n' && BODY[|header| - p] != '\n';
    }
  }

  /** The header comes off whole, for every body, exactly when it is clear. */
  lemma {:induction false} SplitBodyExact(header: Bytes, body: Bytes)
    ensures SplitBody(header + BODY + body) == body <==> HeaderClear(header)
  {
    var text := header + BODY + body;
    assert text[|header|..|header| + 7] == BODY;
    assert OccursAt(text, BODY, |header|);
    var at := FindFrom(text, BODY, 0).value;
    assert at <= |header|;
    if HeaderClear(header) {
      if at < |header| {
        BodyAtHeaderEnd(header, body, at);
        assert false;
      }
      assert text[|header| + 7..] == body;
    } else {
      var p: nat :| OccursAt(header + "\n", BODY, p);
      assert p < |header|;
      BodyAtHeaderEnd(header, body, p);
      assert |text[at + 7..]| > |body|;
    }
  }

  /** A header may end in the separator's own first letters: it then holds no separator and still
      leaves a stray line in front of the body. */
  lemma {:induction false} HeaderEndingInBodyIsNotClear(body: Bytes)
    ensures !Occurs("\nbody:", BODY) && SplitBody("\nbody:" + BODY + body) != body
  {
    assert OccursAt("\nbody:" + "\n", BODY, 0);
    SplitBodyExact("\nbody:", body);
  }

  lemma {:induction false} NextLineWithin(s: Bytes, more: Bytes)
    requires '\n' in s
    ensures NextLine(s).Some? && NextLine(s + more) == Some((NextLine(s).value.0, NextLine(s).value.1 + more))
    ensures NextLine(s).value.1 == "" || s[|s| - 1] == NextLine(s).value.1[|NextLine(s).value.1| - 1]
  {
    var at := IndexOf(s, '\n');
    assert at < |s|;
    var rest := s[at + 1..];
    assert s == s[..at] + ['\n'] + rest;
    IndexOfAppend(s[..at], '\n', rest + more);
    assert s + more == s[..at] + ['\n'] + (rest + more);
    assert (s + more)[at + 1..] == rest + more && (s + more)[..at] == s[..at];
    assert at > 0 ==> (s + more)[at - 1] == s[at - 1] && (s + more)[..at - 1] == s[..at - 1];
  }

  /** The line `body:` is neither the first line of a request nor its channel. */
  lemma BodyLineIsNeither(body: Bytes)
    ensures NextLine("body:\n" + body).Some? && NextLine("body:\n" + body).value.0 == "body:"
    ensures Field("body:\n" + body, "channel").Err?
  {
    NextLineReads("body:", body);
    assert "body:" + "\n" + body == "body:\n" + body;
    assert |"channel: "| == 9 && |"body:"| == 5;
  }

  /** The channel an unfinished header, ending in a newline, would name; what follows has no say. */
  function HeaderChannel(s: Bytes): Bytes {
    var first := NextLine(s);
    if first.None? || Field(first.value.1, "channel").Err? then "" else Field(first.value.1, "channel").value.0
  }

  lemma {:induction false} HeaderNamesChannel(suite: Suite, s: Bytes, body: Bytes)
    requires s == "" || s[|s| - 1] == '\n'
    requires ParseRequest(suite, s + ("body:\n" + body)).Ok?
    ensures ParseRequest(suite, s + ("body:\n" + body)).value.0 == HeaderChannel(s)
  {
    hide NextLine, ParseDidKey;
    var more := "body:\n" + body;
    BodyLineIsNeither(body);
    assert "" + more == more && |"body:"| != |MAGIC|;
    if s != "" {
      assert s[|s| - 1] in s;
      NextLineWithin(s, more);
      var rest := NextLine(s).value.1;
      if rest != "" {
        assert rest[|rest| - 1] in rest;
        NextLineWithin(rest, more);
      }
    }
  }

  /** Behind a header that is not clear every request that can be read at all names the channel the
      header says, whatever its sender asks for. */
  lemma {:induction false} UnclearHeaderNamesChannel(suite: Suite, header: Bytes, body: Bytes) returns (channel: Bytes)
    requires !HeaderClear(header)
    ensures channel == UnclearChannel(header)
    ensures ParseRequest(suite, SplitBody(header + BODY + body)).Ok? ==>
              ParseRequest(suite, SplitBody(header + BODY + body)).value.0 == channel
  {
    channel := UnclearChannel(header);
    UnclearSplit(header, body);
    var short := header + "\n";
    var s := short[FindFrom(short, BODY, 0).value + |BODY|..];
    hide ParseRequest, SplitBody, FindFrom;
    if ParseRequest(suite, SplitBody(header + BODY + body)).Ok? {
      HeaderNamesChannel(suite, s, body);
    }
  }

  ghost function UnclearChannel(header: Bytes): Bytes
    requires !HeaderClear(header)
  {
    var short := header + "\n";
    HeaderChannel(short[FindFrom(short, BODY, 0).value + |BODY|..])
  }

  lemma {:induction false} UnclearSplit(header: Bytes, body: Bytes)
    requires !HeaderClear(header)
    ensures var short := header + "\n";
            && FindFrom(short, BODY, 0).Some?
            && var s := short[FindFrom(short, BODY, 0).value + |BODY|..];
               (s == "" || s[|s| - 1] == '\n') && SplitBody(header + BODY + body) == s + ("body:\n" + body)
  {
    var text, short := header + BODY + body, header + "\n";
    var at := FindFrom(short, BODY, 0).value;
    assert at < |header|;
    BodyAtHeaderEnd(header, body, at);
    var found := FindFrom(text, BODY, 0).value;
    if found < at {
      BodyAtHeaderEnd(header, body, found);
      assert false;
    }
    assert text == short + ("body:\n" + body);
    assert text[at + |BODY|..] == short[at + |BODY|..] + ("body:\n" + body);
  }

  // --- Admission -----------------------------------------------------------------------------

  /** The human behind the request, when the payload carries a binding, and what follows it. */
  function PeelBinding(suite: Suite, did: Bytes, payload: Bytes, now: nat)
    : Result<(Option<Bytes>, Bytes), IntakeError>
  {
    if !Binding.LooksLikeBinding(payload) then Ok((None, payload)) else
    var split := Binding.SplitBinding(payload);
    if split.Err? then Err(BadFrame(split.error)) else
    var binding := Binding.Verify(suite, split.value.0, now);
    if binding.Err? then Err(BindingRejected(binding.error))
    else if binding.value.agentDid != did then Err(WrongAgent)
    else Ok((Some(binding.value.humanDid), split.value.1))
  }

  function AdmitText(suite: Suite, text: Bytes): Result<(Bytes, Bytes, Bytes), IntakeError> {
    if !Utf8(text) then Err(RequestNotUtf8) else ParseRequest(suite, SplitBody(text))
  }

  /** What a payload signed by `requester` asks for. */
  function AdmitPayload(suite: Suite, requester: Bytes, payload: Bytes, now: nat): Result<InviteRequest, IntakeError> {
    var (human, text) :- PeelBinding(suite, requester, payload, now);
    var (channel, invitee, did) :- AdmitText(suite, text);
    Ok(InviteRequest(channel, invitee, Some(did), Add, requester, human))
  }

  function Admit(suite: Suite, signed: Bytes, now: nat): Result<InviteRequest, IntakeError> {
    if !DidProof.LooksLikeDidProof(signed) then Err(NoProof) else
    var verified := DidProof.Unwrap(suite, signed);
    if verified.Err? then Err(BadProof(verified.error))
    else AdmitPayload(suite, verified.value.did, verified.value.payload, now)
  }

  /** The request body, optionally behind a task header. */
  function TaskText(header: Option<Bytes>, body: Bytes): Bytes {
    if header.None? then body else header.value + BODY + body
  }

  /** A newline is never followed by a `b`, so the body separator cannot occur. */
  predicate NoBodyLine(s: Bytes) {
    forall k :: 0 <= k < |s| - 1 && s[k] == '\n' ==> s[k + 1] != 'b'
  }

  lemma {:induction false} NoBodyLineStep(line: Bytes, rest: Bytes)
    requires '\n' !in line && NoBodyLine(rest) && rest != "" && rest[0] != 'b'
    ensures NoBodyLine(Line(line, rest))
  {
    var s := Line(line, rest);
    assert forall k :: 0 <= k < |line| ==> s[k] == line[k];
    assert forall k :: |line| < k < |s| ==> s[k] == rest[k - |line| - 1];
  }

  lemma {:induction false} NoBodyLineKeeps(s: Bytes)
    requires NoBodyLine(s)
    ensures SplitBody(s) == s
  {
    forall p: nat ensures !OccursAt(s, BODY, p) {
      if p + 7 <= |s| {
        assert s[p..p + 7][0] == s[p] && s[p..p + 7][1] == s[p + 1];
      }
    }
  }

  lemma {:induction false} FittingRequestHasNoHeader(channel: Bytes, invitee: Bytes, did: Bytes)
    requires '\n' !in channel && '\n' !in invitee && '\n' !in did
    ensures SplitBody(RenderRequest(channel, invitee, did)) == RenderRequest(channel, invitee, did)
  {
    var d := Entry("invitee_did", did);
    assert d[0] == 'i';
    NoBodyLineStep(Entry("invitee", invitee), d);
    NoBodyLineStep(Entry("channel", channel), Line(Entry("invitee", invitee), d));
    NoBodyLineStep(MAGIC, RenderFields(channel, invitee, did));
    NoBodyLineKeeps(RenderRequest(channel, invitee, did));
  }

  lemma {:induction false} FieldLength(rest: Bytes, key: Bytes)
    requires Field(rest, key).Ok?
    ensures var (value, after) := Field(rest, key).value;
            |rest| >= |Entry(key, value)| + (if after == "" then 0 else 1 + |after|)
  {
  }

  lemma RenderLength(channel: Bytes, invitee: Bytes, did: Bytes)
    ensures |RenderRequest(channel, invitee, did)|
            == |MAGIC| + |Entry("channel", channel)| + |Entry("invitee", invitee)| + |Entry("invitee_did", did)| + 3
  {
    hide Entry;
  }

  lemma FirstLineLength(body: Bytes)
    requires NextLine(body).Some?
    ensures |body| >= |NextLine(body).value.0|
                      + (if NextLine(body).value.1 == "" then 0 else 1 + |NextLine(body).value.1|)
  {
  }

  lemma {:induction false} FieldsLength(suite: Suite, rest: Bytes)
    requires ParseFields(suite, rest).Ok?
    ensures var (channel, invitee, did) := ParseFields(suite, rest).value;
            |rest| >= |Entry("channel", channel)| + |Entry("invitee", invitee)| + |Entry("invitee_did", did)| + 2
  {
    var rest1 := Field(rest, "channel").value.1;
    var rest2 := Field(rest1, "invitee").value.1;
    hide ParseDidKey;
    FieldLength(rest, "channel");
    FieldLength(rest1, "invitee");
    FieldLength(rest2, "invitee_did");
    EntryIsLong("invitee", Field(rest1, "invitee").value.0);
    EntryIsLong("invitee_did", Field(rest2, "invitee_did").value.0);
    hide Field, Entry;
  }

  lemma EntryIsLong(key: Bytes, value: Bytes)
    ensures |Entry(key, value)| >= 2
  {
  }

  /** A request cannot be read out of fewer bytes than it takes to write it. */
  lemma {:induction false} ParsedLength(suite: Suite, body: Bytes)
    requires ParseRequest(suite, body).Ok?
    ensures var (channel, invitee, did) := ParseRequest(suite, body).value;
            |body| >= |RenderRequest(channel, invitee, did)|
  {
    var (channel, invitee, did) := ParseRequest(suite, body).value;
    FirstLineLength(body);
    FieldsLength(suite, NextLine(body).value.1);
    RenderLength(channel, invitee, did);
    hide ParseFields, NextLine, RenderRequest, Entry;
  }

  lemma {:induction false} ParseBodyExact(suite: Suite, header: Option<Bytes>, channel: Bytes, invitee: Bytes,
                                          did: Bytes)
    requires suite.Lawful() && (header.Some? ==> HeaderClear(header.value))
    ensures ParseRequest(suite, SplitBody(TaskText(header, RenderRequest(channel, invitee, did))))
            == Ok((channel, invitee, did))
            <==> FieldFits(channel) && FieldFits(invitee) && ParseDidKey(suite, did).Ok?
  {
    var body := RenderRequest(channel, invitee, did);
    ParseRender(suite, channel, invitee, did);
    if header.Some? {
      SplitBodyExact(header.value, body);
    } else {
      if FieldFits(channel) && FieldFits(invitee) && ParseDidKey(suite, did).Ok? {
        ParsedDidIsPlain(suite, did);
        FittingRequestHasNoHeader(channel, invitee, did);
      }
      if ParseRequest(suite, SplitBody(body)) == Ok((channel, invitee, did)) {
        ParsedLength(suite, SplitBody(body));
        assert SplitBody(body) == body;
      }
    }
  }

  lemma {:induction false} FieldsAreUtf8(channel: Bytes, invitee: Bytes, did: Bytes)
    requires Utf8(channel) && Utf8(invitee) && Utf8(did)
    ensures Utf8(RenderFields(channel, invitee, did))
  {
    EntryIsUtf8("channel", channel);
    EntryIsUtf8("invitee", invitee);
    EntryIsUtf8("invitee_did", did);
    hide Entry, Line, Utf8Step;
    LineIsUtf8(Entry("invitee", invitee), Entry("invitee_did", did));
    LineIsUtf8(Entry("channel", channel), Line(Entry("invitee", invitee), Entry("invitee_did", did)));
  }

  lemma {:induction false} RenderIsUtf8(channel: Bytes, invitee: Bytes, did: Bytes)
    requires Utf8(channel) && Utf8(invitee) && Utf8(did)
    ensures Utf8(RenderRequest(channel, invitee, did))
  {
    FieldsAreUtf8(channel, invitee, did);
    AsciiIsUtf8(MAGIC);
    hide RenderFields, Line, Utf8Step;
    LineIsUtf8(MAGIC, RenderFields(channel, invitee, did));
  }

  lemma {:induction false} TaskTextIsUtf8(header: Option<Bytes>, body: Bytes)
    requires Utf8(body) && (header.Some? ==> Utf8(header.value))
    ensures Utf8(TaskText(header, body))
  {
    if header.Some? {
      AsciiIsUtf8(BODY);
      Utf8Append(header.value, BODY);
      Utf8Append(header.value + BODY, body);
    }
  }

  lemma {:induction false} LineIsUtf8(line: Bytes, rest: Bytes)
    requires Utf8(line) && Utf8(rest)
    ensures Utf8(Line(line, rest))
  {
    AsciiIsUtf8("\n");
    Utf8Append(line, "\n");
    Utf8Append(line + "\n", rest);
  }

  lemma {:induction false} EntryIsUtf8(key: Bytes, value: Bytes)
    requires Ascii(key) && Utf8(value)
    ensures Utf8(Entry(key, value))
  {
    AsciiIsUtf8(key + ": ");
    Utf8Append(key + ": ", value);
  }

  /** A human's promise that an agent is theirs, until `notAfter`. */
  datatype Bound = Bound(human: AgentIdentity, name: Bytes, notAfter: nat)

  /** What the agent signs: the text, behind its own binding when it has one. */
  function Payload(suite: Suite, agent: AgentIdentity, bound: Option<Bound>, text: Bytes)
    : Result<Bytes, IdentityError>
  {
    if bound.None? then Ok(text) else
    var certificate :- Binding.Issue(suite, bound.value.human, agent.did, bound.value.name, bound.value.notAfter);
    Ok(Line(certificate, text))
  }

  ghost predicate GoodBound(suite: Suite, bound: Option<Bound>) {
    bound.Some? ==> bound.value.human.Genuine(suite) && Utf8(bound.value.name) && bound.value.notAfter < U64_LIMIT
  }

  lemma {:induction false} PeelPayload(suite: Suite, agent: AgentIdentity, bound: Option<Bound>, text: Bytes, now: nat)
    requires suite.Lawful() && GoodBound(suite, bound) && Payload(suite, agent, bound, text).Ok?
    requires bound.None? ==> !Binding.LooksLikeBinding(text)
    ensures PeelBinding(suite, agent.did, Payload(suite, agent, bound, text).value, now)
            == if bound.None? then Ok((None, text))
               else if now <= bound.value.notAfter then Ok((Some(bound.value.human.did), text))
               else Err(BindingRejected(Lapsed))
  {
    if bound.Some? {
      var b := bound.value;
      Binding.SplitIssued(suite, b.human, agent.did, b.name, b.notAfter, text);
      Binding.VerifyIssue(suite, b.human, agent.did, b.name, b.notAfter, now);
    }
  }

  lemma {:induction false} RequestIsNoBinding(rest: Bytes)
    ensures !Binding.LooksLikeBinding(Line(MAGIC, rest))
  {
    var s := Line(MAGIC, rest);
    assert s[..21][6] == s[6] == 'C' && Binding.MAGIC[6] == 'A';
  }

  lemma {:induction false} AdmitWrapped(suite: Suite, agent: AgentIdentity, payload: Bytes, now: nat)
    requires suite.Lawful() && agent.Genuine(suite) && |payload| <= DidProof.PAYLOAD_MAX
    ensures DidProof.Wrap(suite, agent, payload).Ok?
    ensures Admit(suite, DidProof.Wrap(suite, agent, payload).value, now)
            == AdmitPayload(suite, agent.did, payload, now)
  {
    DidProof.UnwrapWrap(suite, agent, payload);
  }

  /** The message can be signed, and its framing means what the sender meant. */
  ghost predicate Sendable(suite: Suite, agent: AgentIdentity, bound: Option<Bound>, header: Option<Bytes>,
                           body: Bytes)
  {
    && GoodBound(suite, bound)
    && (header.Some? ==> Utf8(header.value) && HeaderClear(header.value))
    && var text := TaskText(header, body);
       && Payload(suite, agent, bound, text).Ok?
       && |Payload(suite, agent, bound, text).value| <= DidProof.PAYLOAD_MAX
  }

  /** A task header that starts like a human's binding. */
  predicate BindingLike(header: Option<Bytes>) {
    header.Some? && Binding.LooksLikeBinding(header.value + "\n")
  }

  /** Whether a text without binding is taken for one is decided by its header alone. */
  lemma {:induction false} HeaderDecidesBinding(header: Option<Bytes>, rest: Bytes)
    ensures Binding.LooksLikeBinding(TaskText(header, Line(MAGIC, rest))) <==> BindingLike(header)
  {
    if header.None? {
      RequestIsNoBinding(rest);
    } else {
      StartIsInFirstLine(header.value, "body:\n" + Line(MAGIC, rest));
      assert TaskText(header, Line(MAGIC, rest)) == header.value + "\n" + ("body:\n" + Line(MAGIC, rest));
    }
  }

  lemma {:induction false} StartIsInFirstLine(header: Bytes, rest: Bytes)
    ensures Binding.LooksLikeBinding(header + "\n" + rest) <==> Binding.LooksLikeBinding(header + "\n")
  {
    var m, short, text := |Binding.MAGIC|, header + "\n", header + "\n" + rest;
    assert forall k :: 0 <= k < |short| ==> text[k] == short[k];
    if |header| < m {
      assert '\n' !in Binding.MAGIC && Binding.MAGIC[|header|] in Binding.MAGIC;
      assert |text| >= m ==> text[..m][|header|] == '\n';
    } else {
      assert text[..m] == short[..m];
    }
  }

  lemma AdmittedFields(parsed: Result<(Bytes, Bytes, Bytes), IntakeError>, requester: Bytes, human: Option<Bytes>,
                       channel: Bytes, invitee: Bytes, did: Bytes)
    ensures parsed == Ok((channel, invitee, did))
            <==> parsed.Ok?
                 && InviteRequest(parsed.value.0, parsed.value.1, Some(parsed.value.2), Add, requester, human)
                    == InviteRequest(channel, invitee, Some(did), Add, requester, human)
  {
  }

  lemma {:induction false} AdmitPeeled(suite: Suite, requester: Bytes, payload: Bytes, now: nat,
                                       human: Option<Bytes>, text: Bytes, channel: Bytes, invitee: Bytes, did: Bytes)
    requires PeelBinding(suite, requester, payload, now) == Ok((human, text)) && Utf8(text)
    ensures AdmitPayload(suite, requester, payload, now)
            == Ok(InviteRequest(channel, invitee, Some(did), Add, requester, human))
            <==> ParseRequest(suite, SplitBody(text)) == Ok((channel, invitee, did))
  {
    hide PeelBinding, SplitBody, ParseRequest, Utf8Step;
    AdmittedFields(ParseRequest(suite, SplitBody(text)), requester, human, channel, invitee, did);
  }

  lemma {:induction false} AdmitSendable(suite: Suite, agent: AgentIdentity, bound: Option<Bound>,
                                         header: Option<Bytes>, channel: Bytes, invitee: Bytes, did: Bytes, now: nat)
    requires suite.Lawful() && Utf8(channel) && Utf8(invitee) && Utf8(did)
    requires Sendable(suite, agent, bound, header, RenderRequest(channel, invitee, did))
    ensures var payload := Payload(suite, agent, bound, TaskText(header, RenderRequest(channel, invitee, did))).value;
            var human := if bound.None? then None else Some(bound.value.human.did);
            AdmitPayload(suite, agent.did, payload, now)
            == Ok(InviteRequest(channel, invitee, Some(did), Add, agent.did, human))
            <==> && FieldFits(channel) && FieldFits(invitee) && ParseDidKey(suite, did).Ok?
                 && if bound.Some? then now <= bound.value.notAfter else !BindingLike(header)
  {
    var body := RenderRequest(channel, invitee, did);
    var text := TaskText(header, body);
    var payload := Payload(suite, agent, bound, text).value;
    var human := if bound.None? then None else Some(bound.value.human.did);
    HeaderDecidesBinding(header, RenderFields(channel, invitee, did));
    hide Binding.LooksLikeBinding, BindingLike, TaskText, RenderRequest, SplitBody, ParseRequest, FieldFits,
        ParseDidKey;
    if bound.None? && BindingLike(header) {
      AdmittedAsPeeled(suite, agent.did, payload, now);
    } else {
      PeelPayload(suite, agent, bound, text, now);
    }
    if if bound.Some? then now <= bound.value.notAfter else !BindingLike(header) {
      RenderIsUtf8(channel, invitee, did);
      TaskTextIsUtf8(header, body);
      AdmitPeeled(suite, agent.did, payload, now, human, text, channel, invitee, did);
      ParseBodyExact(suite, header, channel, invitee, did);
    }
  }

  lemma AdmittedAsPeeled(suite: Suite, requester: Bytes, payload: Bytes, now: nat)
    ensures AdmitPayload(suite, requester, payload, now).Ok? ==>
              (AdmitPayload(suite, requester, payload, now).value.requesterHumanDid.Some?
               <==> Binding.LooksLikeBinding(payload))
  {
    hide AdmitText;
  }

  /** The whole way through: a request rendered, put behind a clear task header or none, behind a
      binding for the signing agent or none, and signed, is admitted as exactly the original fields
      if and only if channel and invitee fit their lines, the DID is a key, and the binding has not
      expired or, when there is none, the header does not look like one. */
  lemma {:induction false} AdmitSigned(suite: Suite, agent: AgentIdentity, bound: Option<Bound>, header: Option<Bytes>,
                                       channel: Bytes, invitee: Bytes, did: Bytes, now: nat)
    requires suite.Lawful() && agent.Genuine(suite) && Utf8(channel) && Utf8(invitee) && Utf8(did)
    requires Sendable(suite, agent, bound, header, RenderRequest(channel, invitee, did))
    ensures var payload := Payload(suite, agent, bound, TaskText(header, RenderRequest(channel, invitee, did))).value;
            var human := if bound.None? then None else Some(bound.value.human.did);
            && DidProof.Wrap(suite, agent, payload).Ok?
            && (Admit(suite, DidProof.Wrap(suite, agent, payload).value, now)
                  == Ok(InviteRequest(channel, invitee, Some(did), Add, agent.did, human))
                <==> && FieldFits(channel) && FieldFits(invitee) && ParseDidKey(suite, did).Ok?
                     && if bound.Some? then now <= bound.value.notAfter else !BindingLike(header))
  {
    var payload := Payload(suite, agent, bound, TaskText(header, RenderRequest(channel, invitee, did))).value;
    AdmitWrapped(suite, agent, payload, now);
    AdmitSendable(suite, agent, bound, header, channel, invitee, did, now);
  }

  /** The message asks for exactly this, and is admitted as asking for exactly this. */
  ghost predicate Arrives(suite: Suite, agent: AgentIdentity, bound: Option<Bound>, header: Option<Bytes>,
                          channel: Bytes, invitee: Bytes, did: Bytes, now: nat)
  {
    var payload := Payload(suite, agent, bound, TaskText(header, RenderRequest(channel, invitee, did)));
    var human := if bound.None? then None else Some(bound.value.human.did);
    && payload.Ok? && DidProof.Wrap(suite, agent, payload.value).Ok?
    && Admit(suite, DidProof.Wrap(suite, agent, payload.value).value, now)
       == Ok(InviteRequest(channel, invitee, Some(did), Add, agent.did, human))
  }

  /** A request that fits, and is small enough to be signed behind this header. */
  ghost predicate CanBeAsked(suite: Suite, agent: AgentIdentity, bound: Option<Bound>, header: Option<Bytes>,
                             channel: Bytes, invitee: Bytes, did: Bytes)
  {
    var payload := Payload(suite, agent, bound, TaskText(header, RenderRequest(channel, invitee, did)));
    && FieldFits(channel) && FieldFits(invitee) && Utf8(channel) && Utf8(invitee) && ParseDidKey(suite, did).Ok?
    && payload.Ok? && |payload.value| <= DidProof.PAYLOAD_MAX
  }

  lemma {:induction false} ClearHeaderArrives(suite: Suite, agent: AgentIdentity, bound: Option<Bound>, header: Bytes,
                                              channel: Bytes, invitee: Bytes, did: Bytes, now: nat)
    requires suite.Lawful() && agent.Genuine(suite) && GoodBound(suite, bound) && Utf8(header)
    requires bound.Some? ==> now <= bound.value.notAfter
    requires CanBeAsked(suite, agent, bound, Some(header), channel, invitee, did)
    requires HeaderClear(header) && (bound.None? ==> !BindingLike(Some(header)))
    ensures Arrives(suite, agent, bound, Some(header), channel, invitee, did, now)
  {
    ParsedDidIsPlain(suite, did);
    hide FieldFits, ParseDidKey, Utf8, TaskText, RenderRequest, Payload, Admit, DidProof.Wrap, HeaderClear, BindingLike;
    AdmitSigned(suite, agent, bound, Some(header), channel, invitee, did, now);
  }

  lemma {:induction false} BadHeaderMisleads(suite: Suite, agent: AgentIdentity, bound: Option<Bound>, header: Bytes,
                                             channel: Bytes, invitee: Bytes, did: Bytes, now: nat)
    requires suite.Lawful() && agent.Genuine(suite) && GoodBound(suite, bound) && Utf8(header)
    requires bound.Some? ==> now <= bound.value.notAfter
    requires CanBeAsked(suite, agent, bound, Some(header), channel, invitee, did)
    requires Arrives(suite, agent, bound, Some(header), channel, invitee, did, now)
    ensures bound.None? ==> !BindingLike(Some(header))
    ensures !HeaderClear(header) ==> channel == UnclearChannel(header)
  {
    var body := RenderRequest(channel, invitee, did);
    var text := TaskText(Some(header), body);
    var payload := Payload(suite, agent, bound, text).value;
    var human := if bound.None? then None else Some(bound.value.human.did);
    AdmitWrapped(suite, agent, payload, now);
    AdmittedAsPeeled(suite, agent.did, payload, now);
    HeaderDecidesBinding(Some(header), RenderFields(channel, invitee, did));
    ParsedDidIsPlain(suite, did);
    RenderIsUtf8(channel, invitee, did);
    TaskTextIsUtf8(Some(header), body);
    hide FieldFits, ParseDidKey, Utf8, RenderRequest, Admit, DidProof.Wrap, HeaderClear, BindingLike,
        Binding.LooksLikeBinding;
    hide ParseRequest, SplitBody, AdmitPayload, PeelBinding;
    PeelPayload(suite, agent, bound, text, now);
    AdmitPeeled(suite, agent.did, payload, now, human, text, channel, invitee, did);
    if !HeaderClear(header) {
      var named := UnclearHeaderNamesChannel(suite, header, body);
    }
  }

  lemma AnotherLetterFits(suite: Suite, agent: AgentIdentity, bound: Option<Bound>, header: Bytes, did: Bytes)
    requires CanBeAsked(suite, agent, bound, Some(header), "a", "i", did)
    ensures CanBeAsked(suite, agent, bound, Some(header), "b", "i", did)
  {
    PlainLetters();
    hide FieldFits, Utf8, ParseDidKey, Binding.Issue;
  }

  /** Which task headers do no harm: behind a header every request that fits arrives as it was sent if
      and only if the separator is not found in it and, unless a binding stands in front, it does not
      look like one itself. The shortest request must be small enough to be signed behind it. */
  lemma {:induction false} HeaderExact(suite: Suite, agent: AgentIdentity, bound: Option<Bound>, header: Bytes,
                                       now: nat)
    requires suite.Lawful() && agent.Genuine(suite) && GoodBound(suite, bound) && Utf8(header)
    requires bound.Some? ==> now <= bound.value.notAfter
    requires CanBeAsked(suite, agent, bound, Some(header), "a", "i", agent.did)
    ensures (forall channel, invitee, did :: CanBeAsked(suite, agent, bound, Some(header), channel, invitee, did)
               ==> Arrives(suite, agent, bound, Some(header), channel, invitee, did, now))
            <==> HeaderClear(header) && (bound.None? ==> !BindingLike(Some(header)))
  {
    assert "a"[0] != "b"[0];
    AnotherLetterFits(suite, agent, bound, header, agent.did);
    hide CanBeAsked, Arrives, HeaderClear, BindingLike, Payload;
    if HeaderClear(header) && (bound.None? ==> !BindingLike(Some(header))) {
      forall channel, invitee, did | CanBeAsked(suite, agent, bound, Some(header), channel, invitee, did)
        ensures Arrives(suite, agent, bound, Some(header), channel, invitee, did, now)
      {
        ClearHeaderArrives(suite, agent, bound, header, channel, invitee, did, now);
      }
    } else if Arrives(suite, agent, bound, Some(header), "a", "i", agent.did, now)
              && Arrives(suite, agent, bound, Some(header), "b", "i", agent.did, now) {
      BadHeaderMisleads(suite, agent, bound, header, "a", "i", agent.did, now);
      BadHeaderMisleads(suite, agent, bound, header, "b", "i", agent.did, now);
      assert false;
    }
  }

  lemma PlainLetters()
    ensures FieldFits("a") && FieldFits("b") && FieldFits("i") && Utf8("a") && Utf8("b") && Utf8("i")
  {
    AsciiIsUtf8("a");
    AsciiIsUtf8("b");
    AsciiIsUtf8("i");
  }

  /** Such a header: without a binding in front every request behind it is refused, since it has too
      few lines for a certificate. */
  lemma {:induction false} BindingHeaderIsRefused(suite: Suite, agent: AgentIdentity, channel: Bytes, invitee: Bytes,
                                                  did: Bytes, now: nat)
    requires suite.Lawful() && agent.Genuine(suite)
    requires CanBeAsked(suite, agent, None, Some(Binding.MAGIC), channel, invitee, did)
    ensures HeaderClear(Binding.MAGIC) && BindingLike(Some(Binding.MAGIC))
    ensures var text := TaskText(Some(Binding.MAGIC), RenderRequest(channel, invitee, did));
            var signed := DidProof.Wrap(suite, agent, text);
            signed.Ok? && Admit(suite, signed.value, now).Err?
  {
    var text := TaskText(Some(Binding.MAGIC), RenderRequest(channel, invitee, did));
    AdmitWrapped(suite, agent, text, now);
    MagicIsClear();
    ParsedDidIsPlain(suite, did);
    FiveNewlines(channel, invitee, did);
    HeaderDecidesBinding(Some(Binding.MAGIC), RenderFields(channel, invitee, did));
    hide TaskText, RenderRequest, Binding.SplitBinding, DidProof.Wrap, Admit;
    Binding.SplitTakesSixNewlines(text);
  }

  lemma MagicIsClear()
    ensures HeaderClear(Binding.MAGIC) && BindingLike(Some(Binding.MAGIC))
  {
    var short := Binding.MAGIC + "\n";
    forall at: nat ensures !OccursAt(short, BODY, at) {
      if at + |BODY| <= |short| {
        assert short[at..at + |BODY|][0] == short[at] && '\n' !in Binding.MAGIC && short[at] in Binding.MAGIC;
      }
    }
    assert short[..|Binding.MAGIC|] == Binding.MAGIC;
  }

  lemma {:induction false} FiveNewlines(channel: Bytes, invitee: Bytes, did: Bytes)
    requires '\n' !in channel && '\n' !in invitee && '\n' !in did
    ensures Binding.Newlines(TaskText(Some(Binding.MAGIC), RenderRequest(channel, invitee, did))) == 5
  {
    hide Binding.Newlines;
    var entries := Line(Entry("channel", channel), Line(Entry("invitee", invitee), Entry("invitee_did", did)));
    OneLine(Entry("invitee", invitee), Entry("invitee_did", did));
    OneLine(Entry("channel", channel), Line(Entry("invitee", invitee), Entry("invitee_did", did)));
    OneLine(MAGIC, entries);
    OneLine("body:", Line(MAGIC, entries));
    OneLine(Binding.MAGIC, Line("body:", Line(MAGIC, entries)));
    Binding.NoNewlines(Entry("invitee_did", did));
    BodyIsALine(Binding.MAGIC, Line(MAGIC, entries));
  }

  lemma BodyIsALine(header: Bytes, body: Bytes)
    ensures TaskText(Some(header), body) == Line(header, Line("body:", body))
  {
    assert header + BODY + body == header + "\n" + ("body:" + "\n" + body);
  }

  lemma {:induction false} OneLine(line: Bytes, rest: Bytes)
    requires '\n' !in line
    ensures Binding.Newlines(Line(line, rest)) == 1 + Binding.Newlines(rest)
  {
    Binding.NoNewlines(line);
    Binding.NewlinesOfLine(line, rest);
    hide Line;
  }

  lemma {:induction false} PeeledIsAuthentic(suite: Suite, did: Bytes, payload: Bytes, now: nat)
    returns (binding: Binding.VerifiedBinding, sig: Bytes)
    requires PeelBinding(suite, did, payload, now).Ok? && Binding.LooksLikeBinding(payload)
    ensures Binding.Authentic(suite, binding, sig, now) && binding.agentDid == did
    ensures PeelBinding(suite, did, payload, now).value.0 == Some(binding.humanDid)
  {
    var certificate := Binding.SplitBinding(payload).value.0;
    binding := Binding.Verify(suite, certificate, now).value;
    sig := Binding.VerifyIsAuthentic(suite, certificate, now);
  }

  /** `sig` is the requester's signature, in the proof format, over exactly `payload`. */
  predicate SignedBy(suite: Suite, signed: Bytes, requester: Bytes, payload: Bytes, sig: Bytes) {
    && signed == DidProof.Envelope(requester, sig, payload)
    && ParseDidKey(suite, requester).Ok? && suite.base64Decode(sig).Some?
    && suite.verifyStrict(ParseDidKey(suite, requester).value, DidProof.Canonical(requester, payload),
                          suite.base64Decode(sig).value)
  }

  lemma AdmittedIsUnwrapped(suite: Suite, signed: Bytes, now: nat)
    requires Admit(suite, signed, now).Ok?
    ensures DidProof.Unwrap(suite, signed).Ok?
    ensures var v := DidProof.Unwrap(suite, signed).value;
            AdmitPayload(suite, v.did, v.payload, now) == Admit(suite, signed, now)
  {
    hide DidProof.LooksLikeDidProof, AdmitPayload;
  }

  lemma AdmittedNamesRequester(suite: Suite, requester: Bytes, payload: Bytes, now: nat)
    requires AdmitPayload(suite, requester, payload, now).Ok?
    ensures AdmitPayload(suite, requester, payload, now).value.requester == requester
  {
    hide PeelBinding, AdmitText;
  }

  lemma {:induction false} AdmittedIsSigned(suite: Suite, signed: Bytes, now: nat) returns (payload: Bytes, sig: Bytes)
    requires Admit(suite, signed, now).Ok?
    ensures var request := Admit(suite, signed, now).value;
            && SignedBy(suite, signed, request.requester, payload, sig)
            && AdmitPayload(suite, request.requester, payload, now) == Ok(request)
  {
    AdmittedIsUnwrapped(suite, signed, now);
    hide Admit, DidProof.Unwrap, AdmitPayload, DidProof.Envelope, DidProof.Canonical;
    payload := DidProof.Unwrap(suite, signed).value.payload;
    AdmittedNamesRequester(suite, DidProof.Unwrap(suite, signed).value.did, payload, now);
    sig := DidProof.UnwrapIsAuthentic(suite, signed);
  }

  lemma {:induction false} ParsedFieldsHaveKey(suite: Suite, rest: Bytes)
    requires ParseFields(suite, rest).Ok?
    ensures ParseDidKey(suite, ParseFields(suite, rest).value.2).Ok?
  {
  }

  lemma {:induction false} AdmittedTextHasKey(suite: Suite, text: Bytes)
    requires AdmitText(suite, text).Ok?
    ensures ParseDidKey(suite, AdmitText(suite, text).value.2).Ok?
  {
    ParsedFieldsHaveKey(suite, NextLine(SplitBody(text)).value.1);
  }

  lemma {:induction false} PeeledNone(suite: Suite, did: Bytes, payload: Bytes, now: nat)
    requires PeelBinding(suite, did, payload, now).Ok?
    ensures PeelBinding(suite, did, payload, now).value.0.Some? <==> Binding.LooksLikeBinding(payload)
  {
  }

  /** Whatever is admitted was signed by its requester, and a human it names vouched for that very
      requester in a certificate that had not expired. */
  lemma {:induction false} AdmittedIsAuthentic(suite: Suite, signed: Bytes, now: nat)
    returns (payload: Bytes, sig: Bytes, binding: Binding.VerifiedBinding, bindingSig: Bytes)
    requires Admit(suite, signed, now).Ok?
    ensures var request := Admit(suite, signed, now).value;
            && SignedBy(suite, signed, request.requester, payload, sig)
            && (request.requesterHumanDid.Some? <==> Binding.LooksLikeBinding(payload))
            && (request.requesterHumanDid.Some? ==>
                  && Binding.Authentic(suite, binding, bindingSig, now)
                  && binding.agentDid == request.requester
                  && request.requesterHumanDid == Some(binding.humanDid))
            && request.action == Add && request.inviteeDid.Some? && ParseDidKey(suite, request.inviteeDid.value).Ok?
  {
    payload, sig := AdmittedIsSigned(suite, signed, now);
    var request := Admit(suite, signed, now).value;
    var peeled := PeelBinding(suite, request.requester, payload, now).value;
    PeeledNone(suite, request.requester, payload, now);
    AdmittedTextHasKey(suite, peeled.1);
    if Binding.LooksLikeBinding(payload) {
      binding, bindingSig := PeeledIsAuthentic(suite, request.requester, payload, now);
    } else {
      binding, bindingSig := Binding.VerifiedBinding("", "", "", 0), "";
    }
  }
}

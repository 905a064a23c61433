/**
 The macOS secret store's list of its keys: one text of lines, read back trimmed and without blank
 lines, and written without repeats. The order it is kept in is not modelled.
 */
module KeyRegistry {
  import opened Wrappers
  import opened Text

  /** `load_registry`: the keys a text lists. */
  function Listed(text: Bytes): seq<Bytes>
    decreases |text|
  {
    var next := NextLine(text);
    if next.None? then [] else
    var key := Trim(next.value.0);
    (if key == "" then [] else [key]) + Listed(next.value.1)
  }

  function Joined(keys: seq<Bytes>): Bytes {
    if keys == [] then "" else keys[0] + Tagged('\n', keys[1..])
  }

  /** Each key once. */
  function Once(keys: seq<Bytes>): seq<Bytes> {
    if keys == [] then [] else
    var init, last := keys[..|keys| - 1], keys[|keys| - 1];
    Once(init) + if last in init then [] else [last]
  }

  /** What is read back after these keys were written. */
  function Saved(keys: seq<Bytes>): seq<Bytes> {
    Listed(Joined(Once(keys)))
  }

  /** A key that is read back as it was written: on one line, and not trimmed. */
  predicate Survives(key: Bytes) {
    key != "" && '\n' !in key && WhiteStep(key) == 0 && WhiteEnd(key) == 0
  }

  predicate AllSurvive(keys: seq<Bytes>) {
    forall key :: key in keys ==> Survives(key)
  }

  lemma {:induction false} TrimIsWithin(s: Bytes)
    ensures forall c :: c in Trim(s) ==> c in s
  {
    TrimStartIsWithin(s);
    TrimEndStops(TrimStart(s));
    var t, u := Trim(s), TrimStart(s);
    assert forall k :: 0 <= k < |t| ==> t[k] == u[..|t|][k] == u[k];
  }

  lemma {:induction false} TrimStartIsWithin(s: Bytes)
    ensures forall c :: c in TrimStart(s) ==> c in s
    decreases |s|
  {
    var n := WhiteStep(s);
    if n > 0 {
      TrimStartIsWithin(s[n..]);
      assert forall k :: 0 <= k < |s[n..]| ==> s[n..][k] == s[n + k];
    }
  }

  lemma {:induction false} TrimmedSurvives(line: Bytes)
    requires '\n' !in line && Trim(line) != ""
    ensures Survives(Trim(line))
  {
    TrimIsWithin(line);
    TrimStartStops(line);
    TrimEndStops(TrimStart(line));
    WhiteStepOfPrefix(TrimStart(line), |Trim(line)|);
  }

  lemma NextLineIsOneLine(text: Bytes)
    ensures NextLine(text).Some? ==> '\n' !in NextLine(text).value.0
  {
  }

  /** Whatever a text holds, the keys it lists are of this kind. */
  lemma {:induction false} ListedSurvive(text: Bytes)
    ensures AllSurvive(Listed(text))
    decreases |text|
  {
    var next := NextLine(text);
    if next.Some? {
      NextLineIsOneLine(text);
      ListedSurvive(next.value.1);
      if Trim(next.value.0) != "" {
        TrimmedSurvives(next.value.0);
      }
      hide Trim, NextLine, Survives;
    }
  }

  lemma SurvivorIsALine(key: Bytes)
    requires Survives(key)
    ensures SingleLine(key) && Trim(key) == key
    ensures NextLine(key) == Some((key, "")) && key != ""
  {
    NothingToTrim(key);
    assert key[|key| - 1..] == [key[|key| - 1]];
  }

  lemma {:induction false} ListedLine(key: Bytes, rest: Bytes)
    requires Survives(key)
    ensures Listed(key + "\n" + rest) == [key] + Listed(rest) && Listed(key) == [key]
  {
    hide Trim, NextLine, SingleLine, Survives;
    SurvivorIsALine(key);
    NextLineReads(key, rest);
    ListedNothing();
  }

  lemma ListedNothing()
    ensures Listed("") == []
  {
  }

  lemma JoinedStep(keys: seq<Bytes>)
    requires |keys| >= 2
    ensures Joined(keys) == keys[0] + "\n" + Joined(keys[1..])
  {
    assert keys[1..][1..] == keys[2..];
    assert keys[0] + (['\n'] + keys[1] + Tagged('\n', keys[2..]))
        == keys[0] + "\n" + (keys[1] + Tagged('\n', keys[2..]));
  }

  lemma {:induction false} ListedJoined(keys: seq<Bytes>)
    requires AllSurvive(keys)
    ensures Listed(Joined(keys)) == keys
    decreases |keys|
  {
    hide Trim, NextLine, Survives, Tagged;
    if |keys| == 1 {
      assert keys[0] in keys;
      JoinedOne(keys[0]);
      assert keys == [keys[0]];
      ListedLine(keys[0], "");
    } else if |keys| >= 2 {
      assert keys[0] in keys && AllSurvive(keys[1..]);
      JoinedStep(keys);
      ListedLine(keys[0], Joined(keys[1..]));
      ListedJoined(keys[1..]);
      assert [keys[0]] + keys[1..] == keys;
    }
  }

  lemma JoinedOne(key: Bytes)
    ensures Joined([key]) == key
  {
  }

  lemma {:induction false} OnceIs(keys: seq<Bytes>)
    ensures Distinct(Once(keys)) && forall key :: key in Once(keys) <==> key in keys
    ensures Distinct(keys) ==> Once(keys) == keys
    decreases |keys|
  {
    if keys != [] {
      var init, last := keys[..|keys| - 1], keys[|keys| - 1];
      OnceIs(init);
      assert keys == init + [last];
      assert Distinct(keys) ==> Distinct(init) && last !in init;
      assert last !in init ==> last !in Once(init);
    }
  }

  /** Keys are read back as they were written exactly when all of them survive and none repeats. */
  lemma {:induction false} SavedExact(keys: seq<Bytes>)
    ensures Saved(keys) == keys <==> AllSurvive(keys) && Distinct(keys)
  {
    OnceIs(keys);
    ListedSurvive(Joined(Once(keys)));
    if AllSurvive(keys) {
      ListedJoined(Once(keys));
    }
  }
}

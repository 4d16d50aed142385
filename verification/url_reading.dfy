/** What each parameter of a telemetry address means, stated of the address itself. */
module UrlReading {
  import opened Support
  import opened Texts
  import opened UrlState

  // ----- Parameters -----

  /** The first value a parameter is given. */
  ghost predicate FirstValue(q: Query, key: Param, value: string) {
    exists i :: 0 <= i < |q| && q[i] == (key, value) && forall j :: 0 <= j < i ==> q[j].0 != key
  }

  predicate Absent(q: Query, key: Param) {
    forall i :: 0 <= i < |q| ==> q[i].0 != key
  }

  lemma LaterValue(pair: (Param, string), rest: Query, key: Param, value: string)
    requires pair.0 != key && FirstValue(rest, key, value)
    ensures FirstValue([pair] + rest, key, value)
  {
    var q := [pair] + rest;
    var i :| 0 <= i < |rest| && rest[i] == (key, value) && forall j :: 0 <= j < i ==> rest[j].0 != key;
    assert q[i + 1] == rest[i];
    forall j | 0 <= j < i + 1
      ensures q[j].0 != key
    {
      assert j > 0 ==> q[j] == rest[j - 1];
    }
  }

  lemma LaterAbsent(pair: (Param, string), rest: Query, key: Param)
    requires pair.0 != key
    ensures Absent([pair] + rest, key) <==> Absent(rest, key)
  {
    var q := [pair] + rest;
    assert forall i :: 0 <= i < |rest| ==> q[i + 1] == rest[i];
  }

  lemma {:induction false} GetIsFirstValue(q: Query, key: Param)
    ensures Get(q, key).Some? ==> FirstValue(q, key, Get(q, key).value)
    ensures Get(q, key).None? <==> Absent(q, key)
  {
    if q != [] && q[0].0 != key {
      var rest := q[1..];
      GetIsFirstValue(rest, key);
      assert q == [q[0]] + rest && GetAll(q, key) == GetAll(rest, key);
      hide FirstValue, Absent, GetAll;
      LaterAbsent(q[0], rest, key);
      if Get(rest, key).Some? {
        LaterValue(q[0], rest, key, Get(rest, key).value);
      }
    } else if q != [] {
      assert q[0] == (key, q[0].1);
    }
  }

  lemma FirstValueIsUnique(q: Query, key: Param, a: string, b: string)
    requires FirstValue(q, key, a) && FirstValue(q, key, b)
    ensures a == b
  {
    var i :| 0 <= i < |q| && q[i] == (key, a) && forall j :: 0 <= j < i ==> q[j].0 != key;
    var k :| 0 <= k < |q| && q[k] == (key, b) && forall j :: 0 <= j < k ==> q[j].0 != key;
    assert i == k;
  }

  lemma FirstValueIsGot(q: Query, key: Param, value: string)
    ensures FirstValue(q, key, value) <==> Get(q, key) == Some(value)
  {
    GetIsFirstValue(q, key);
    if FirstValue(q, key, value) && Get(q, key).Some? {
      FirstValueIsUnique(q, key, value, Get(q, key).value);
    }
  }

  /** A repeated parameter gives all its values, in order. */
  lemma GetAllAppends(name: Param, value: string, rest: Query, key: Param)
    ensures GetAll([], key) == []
    ensures GetAll([(name, value)] + rest, key) == if name == key then [value] + GetAll(rest, key) else GetAll(rest, key)
  {
    GetAllAfter((name, value), rest, key);
    hide GetAll;
    assert [] + GetAll(rest, key) == GetAll(rest, key);
    assert GetAll([], key) == [] by { NoValues(key); }
  }

  lemma NoValues(key: Param)
    ensures GetAll([], key) == []
  {
  }

  // ----- Identifiers -----

  predicate LowerOrDigit(c: char) {
    c in "abcdefghijklm" || c in "nopqrstuvwxyz" || c in "0123456789"
  }

  predicate HexDigit(c: char) {
    c in "0123456789" || c in "abcdef"
  }

  predicate Word(s: string) {
    |s| > 0 && forall i :: 0 <= i < |s| ==> LowerOrDigit(s[i])
  }

  /** Words joined by single separators. */
  predicate JoinedWords(s: string, separators: set<char>)
    decreases |s|
  {
    Word(s) || exists i :: 0 <= i < |s| && s[i] in separators && Word(s[..i]) && JoinedWords(s[i + 1..], separators)
  }

  /** The characters of a run of the alphabet or of the digits. */
  lemma InRun(run: string, first: char, c: char)
    requires |run| <= 13 && forall i :: 0 <= i < |run| ==> run[i] as int == first as int + i
    ensures c in run <==> first as int <= c as int < first as int + |run|
  {
    if first as int <= c as int < first as int + |run| {
      assert run[c as int - first as int] == c;
    }
  }

  lemma SameCharacters(c: char)
    ensures LowerOrDigit(c) <==> Alphanumeric(c)
  {
    InRun("abcdefghijklm", 'a', c);
    InRun("nopqrstuvwxyz", 'n', c);
    InRun("0123456789", '0', c);
  }

  lemma {:induction false} SlugIsJoinedWords(s: string, separators: set<char>)
    requires forall c :: c in separators ==> !Alphanumeric(c)
    ensures Slug(s, separators) <==> JoinedWords(s, separators)
    decreases |s|
  {
    if Word(s) {
      WordIsSlug(s, separators);
    } else {
      hide Word, Slug, Alphanumeric, LowerOrDigit;
      if Slug(s, separators) {
        var i := SlugSplits(s, separators);
        SlugIsJoinedWords(s[i + 1..], separators);
      }
      if JoinedWords(s, separators) {
        var i :| 0 <= i < |s| && s[i] in separators && Word(s[..i]) && JoinedWords(s[i + 1..], separators);
        SlugIsJoinedWords(s[i + 1..], separators);
        WordIsAlphanumeric(s[..i]);
        assert forall j :: 0 <= j < i ==> s[j] == s[..i][j];
        SlugJoins(s, separators, i);
      }
    }
  }

  lemma WordIsAlphanumeric(s: string)
    ensures Word(s) <==> |s| > 0 && forall i :: 0 <= i < |s| ==> Alphanumeric(s[i])
  {
    hide LowerOrDigit, Alphanumeric;
    forall c
      ensures LowerOrDigit(c) <==> Alphanumeric(c)
    {
      SameCharacters(c);
    }
  }

  lemma WordIsSlug(s: string, separators: set<char>)
    requires Word(s)
    ensures Slug(s, separators)
  {
    hide Alphanumeric;
    WordIsAlphanumeric(s);
  }

  /** A slug that is not one word is a word, a separator and a slug. */
  lemma SlugSplits(s: string, separators: set<char>) returns (i: nat)
    requires Slug(s, separators) && !Word(s) && forall c :: c in separators ==> !Alphanumeric(c)
    ensures i < |s| && s[i] in separators && Word(s[..i]) && Slug(s[i + 1..], separators)
  {
    hide LowerOrDigit, Alphanumeric;
    forall c
      ensures LowerOrDigit(c) <==> Alphanumeric(c)
    {
      SameCharacters(c);
    }
    i := FirstSeparator(s);
    SlugTail(s, separators, i);
    hide Slug;
    assert forall j :: 0 <= j < i ==> s[..i][j] == s[j];
  }

  lemma {:induction false} FirstSeparator(s: string) returns (i: nat)
    requires |s| > 0 && !Word(s)
    ensures i < |s| && !LowerOrDigit(s[i]) && forall j :: 0 <= j < i ==> LowerOrDigit(s[j])
  {
    hide LowerOrDigit;
    if !LowerOrDigit(s[0]) {
      i := 0;
    } else {
      assert forall j :: 0 <= j < |s[1..]| ==> s[1..][j] == s[j + 1];
      i := FirstSeparator(s[1..]);
      i := i + 1;
      assert s[i] == s[1..][i - 1];
      forall j | 0 <= j < i
        ensures LowerOrDigit(s[j])
      {
        assert j > 0 ==> s[j] == s[1..][j - 1];
      }
    }
  }

  lemma SlugTail(s: string, separators: set<char>, i: nat)
    requires Slug(s, separators) && i < |s| && !Alphanumeric(s[i])
    requires forall j :: 0 <= j < i ==> Alphanumeric(s[j])
    ensures 0 < i < |s| - 1 && s[i] in separators && Slug(s[i + 1..], separators)
  {
    hide Alphanumeric;
    var tail := s[i + 1..];
    assert Alphanumeric(s[0]) && Alphanumeric(s[|s| - 1]);
    assert Alphanumeric(s[i]) || Alphanumeric(s[i + 1]);
    assert forall k :: 0 <= k < |tail| ==> tail[k] == s[i + 1 + k];
  }

  lemma SlugJoins(s: string, separators: set<char>, i: nat)
    requires i < |s| && s[i] in separators && i > 0 && (forall j :: 0 <= j < i ==> Alphanumeric(s[j]))
    requires Slug(s[i + 1..], separators)
    ensures Slug(s, separators)
  {
    hide Alphanumeric;
    var tail := s[i + 1..];
    assert forall k :: i < k < |s| ==> s[k] == tail[k - i - 1];
    forall k | 0 < k < |s|
      ensures Alphanumeric(s[k - 1]) || Alphanumeric(s[k])
    {
      if k > i + 1 {
        assert Alphanumeric(tail[k - i - 2]) || Alphanumeric(tail[k - i - 1]);
      } else if k == i + 1 {
        assert s[k] == tail[0];
      }
    }
  }

  /** Session names join words by hyphens or underscores within 120 characters, references by hyphens within 240;
      a revision is 64 hexadecimal digits. */
  lemma IdentifiersAre(s: string)
    ensures SessionId(s) <==> |s| <= 120 && JoinedWords(s, {'-', '_'})
    ensures ReferenceId(s) <==> |s| <= 240 && JoinedWords(s, {'-'})
    ensures RevisionId(s) <==> |s| == 64 && forall i :: 0 <= i < |s| ==> HexDigit(s[i])
  {
    HexDigitsAre(s);
    SeparatorsAreNotLetters();
    hide Slug, JoinedWords, HexDigit, RevisionId, Alphanumeric;
    SlugIsJoinedWords(s, {'-', '_'});
    SlugIsJoinedWords(s, {'-'});
  }

  lemma SeparatorsAreNotLetters()
    ensures !Alphanumeric('-') && !Alphanumeric('_')
  {
  }

  lemma HexDigitsAre(s: string)
    ensures RevisionId(s) <==> |s| == 64 && forall i :: 0 <= i < |s| ==> HexDigit(s[i])
  {
    forall c: char
      ensures IsDigit(c) || 'a' <= c <= 'f' <==> HexDigit(c)
    {
      HexDigitIs(c);
    }
    hide HexDigit, IsDigit;
  }

  lemma HexDigitIs(c: char)
    ensures IsDigit(c) || 'a' <= c <= 'f' <==> HexDigit(c)
  {
    InRun("0123456789", '0', c);
    InRun("abcdef", 'a', c);
  }

  // ----- Numbers -----

  /** A run of digits without a leading zero is the text of its value. */
  lemma {:induction false} DigitsAreText(s: string)
    requires AllDigits(s) && (s[0] != '0' || |s| == 1)
    ensures DigitText(ValueOf(s)) == s
  {
    var init, last := s[..|s| - 1], s[|s| - 1];
    assert s == init + [last];
    DigitCharOf(last);
    if init != [] {
      DigitsAreText(init);
      PositiveValue(init);
      assert ValueOf(s) == 10 * ValueOf(init) + DigitValue(last);
      assert ValueOf(s) / 10 == ValueOf(init) && ValueOf(s) % 10 == DigitValue(last);
    } else {
      assert ValueOf(init) == 0;
    }
  }

  lemma DigitCharOf(c: char)
    requires IsDigit(c)
    ensures DigitValue(c) < 10 && DigitChar(DigitValue(c)) == c
  {
  }

  lemma {:induction false} PositiveValue(s: string)
    requires AllDigits(s) && s[0] != '0'
    ensures ValueOf(s) > 0
  {
    if |s| > 1 {
      PositiveValue(s[..|s| - 1]);
    }
  }

  lemma {:induction false} LengthBounds(s: string)
    requires AllDigits(s) && s[0] != '0'
    ensures |s| <= 3 <==> ValueOf(s) <= 999
  {
    DigitsAreText(s);
    TextLength(ValueOf(s));
  }

  lemma OneDigit(n: nat)
    ensures |DigitText(n)| >= 1 && (|DigitText(n)| == 1 <==> n <= 9)
  {
  }

  lemma TwoDigits(n: nat)
    ensures |DigitText(n)| <= 2 <==> n <= 99
  {
    OneDigit(n / 10);
  }

  lemma TextLength(n: nat)
    ensures |DigitText(n)| <= 3 <==> n <= 999
    ensures |DigitText(n)| >= 1
  {
    TwoDigits(n / 10);
  }

  lemma TextHasNoLeadingZero(n: nat)
    requires n > 0
    ensures AllDigits(DigitText(n)) && DigitText(n)[0] != '0'
    decreases n
  {
    DigitTextRoundTrip(n);
    if n >= 10 {
      TextHasNoLeadingZero(n / 10);
    }
  }

  /** A driver is written as one of the numbers 1 to 999, without leading zeros. */
  lemma DriverNumbersAre(s: string)
    ensures DriverNumber(s) <==> exists n: nat :: 1 <= n <= 999 && s == DigitText(n)
  {
    if DriverNumber(s) {
      DigitsAreText(s);
      PositiveValue(s);
      LengthBounds(s);
    }
    if n: nat :| 1 <= n <= 999 && s == DigitText(n) {
      TextHasNoLeadingZero(n);
      TextLength(n);
    }
  }

  // ----- Lists -----

  function Join(parts: seq<string>): string
    requires parts != []
  {
    if |parts| == 1 then parts[0] else parts[0] + "," + Join(parts[1..])
  }

  lemma JoinWithCommaFirst(rest: seq<string>)
    requires rest != []
    ensures Join([""] + rest) == "," + Join(rest)
  {
    assert ([""] + rest)[1..] == rest;
    assert "" + "," == ",";
  }

  lemma JoinWithMoreFirst(c: char, rest: seq<string>)
    requires rest != []
    ensures Join([[c] + rest[0]] + rest[1..]) == [c] + Join(rest)
  {
    JoinUnfolds([c] + rest[0], rest[1..]);
    JoinUnfolds(rest[0], rest[1..]);
    assert [rest[0]] + rest[1..] == rest;
    if |rest| > 1 {
      Reassociate(c, rest[0], Join(rest[1..]));
    }
  }

  lemma JoinUnfolds(first: string, rest: seq<string>)
    ensures Join([first] + rest) == if rest == [] then first else first + "," + Join(rest)
  {
    assert ([first] + rest)[1..] == rest;
  }

  lemma Reassociate(c: char, a: string, b: string)
    ensures ([c] + a) + "," + b == [c] + (a + "," + b)
  {
  }

  /** The parts of a list hold no comma, and joined by commas give it back. */
  lemma {:induction false} SplitJoins(s: string)
    ensures Join(Split(s)) == s
    ensures forall i :: 0 <= i < |Split(s)| ==> ',' !in Split(s)[i]
  {
    if s != [] {
      var rest := Split(s[1..]);
      SplitJoins(s[1..]);
      assert s == [s[0]] + s[1..];
      hide Join;
      if s[0] == ',' {
        JoinWithCommaFirst(rest);
      } else {
        JoinWithMoreFirst(s[0], rest);
        assert ',' !in rest[0];
      }
    }
  }

  // ----- What is read -----

  lemma ReadsIdentifiers(number: Numeral, q: Query, value: string)
    ensures Parsed(number, q).session == Some(value) <==>
              FirstValue(q, Session, value) && |value| <= 120 && JoinedWords(value, {'-', '_'})
    ensures Parsed(number, q).revision == Some(value) <==>
              FirstValue(q, Revision, value) && |value| == 64 && forall i :: 0 <= i < |value| ==> HexDigit(value[i])
  {
    FirstValueIsGot(q, Session, value);
    FirstValueIsGot(q, Revision, value);
    IdentifiersAre(value);
    hide SessionId, RevisionId, FirstValue, JoinedWords, Get;
  }

  /** The parameter a side's driver or lap is read from: its own, or for side A the old one when there is none. */
  predicate GivenAs(q: Query, side: Side, own: Param, legacy: Param, key: Param) {
    key == own || (side.A? && key == legacy && Absent(q, own))
  }

  lemma ReadsDrivers(number: Numeral, q: Query, side: Side, driver: string)
    ensures side in Parsed(number, q).drivers && Parsed(number, q).drivers[side] == driver <==>
              && (exists n: nat :: 1 <= n <= 999 && driver == DigitText(n))
              && exists key :: GivenAs(q, side, if side.A? then DriverA else DriverB, LegacyDriver, key) && FirstValue(q, key, driver)
  {
    DriverNumbersAre(driver);
    var own := if side.A? then DriverA else DriverB;
    GivenBy(q, side, own, LegacyDriver, driver);
    assert side in SIDES by { assert SIDES[0] == A && SIDES[1] == B; }
    assert DriverParam(q, side) == if side.A? then OrElse(Get(q, DriverA), Get(q, LegacyDriver)) else Get(q, DriverB);
    hide DriverNumber, FirstValue, DigitText, Get, Absent, GivenAs;
    assert DriverParam(q, side) == Some(driver) <==>
           exists key :: GivenAs(q, side, own, LegacyDriver, key) && FirstValue(q, key, driver);
  }

  lemma GivenBy(q: Query, side: Side, own: Param, legacy: Param, value: string)
    requires own != legacy
    ensures (exists key :: GivenAs(q, side, own, legacy, key) && FirstValue(q, key, value)) <==>
              if side.A? then OrElse(Get(q, own), Get(q, legacy)) == Some(value) else Get(q, own) == Some(value)
  {
    FirstValueIsGot(q, own, value);
    FirstValueIsGot(q, legacy, value);
    GetIsFirstValue(q, own);
    hide FirstValue, Get, Absent;
    assert GivenAs(q, side, own, legacy, own);
    if side.A? && Get(q, own).None? {
      assert GivenAs(q, side, own, legacy, legacy);
    }
  }

  /** A lap is a run of digits, leading zeros allowed, for a number from 1 to 1000. */
  lemma ReadsLaps(number: Numeral, q: Query, side: Side, lap: nat)
    ensures side in Parsed(number, q).laps && Parsed(number, q).laps[side] == lap <==>
              && 1 <= lap <= 1000
              && exists text, key :: GivenAs(q, side, if side.A? then LapA else LapB, LegacyLap, key) && FirstValue(q, key, text) &&
                   AllDigits(text) && ValueOf(text) == lap
  {
    var own := if side.A? then LapA else LapB;
    var got := LapParam(q, side);
    assert side in SIDES by { assert SIDES[0] == A && SIDES[1] == B; }
    forall text
      ensures got == Some(text) <==> exists key :: GivenAs(q, side, own, LegacyLap, key) && FirstValue(q, key, text)
    {
      GivenBy(q, side, own, LegacyLap, text);
    }
    hide FirstValue, Get, Absent, GivenAs, ValueOf;
    if text, key :| GivenAs(q, side, own, LegacyLap, key) && FirstValue(q, key, text) && AllDigits(text) && ValueOf(text) == lap {
      assert got == Some(text);
    }
    if got.Some? && AllDigits(got.value) && ValueOf(got.value) == lap {
      var key :| GivenAs(q, side, own, LegacyLap, key) && FirstValue(q, key, got.value);
    }
  }

  /** The named view, and the overview for any other name or none; a quality flag that is given, set when it is
      given once, as true; a zoom of two numbers within bounds. */
  lemma ReadsTheRest(number: Numeral, q: Query, flag: QualityFlag)
    ensures var view := Parsed(number, q).view;
            && (FirstValue(q, ViewName, "performance") <==> view == Performance)
            && (FirstValue(q, ViewName, "inputs") <==> view == Inputs)
            && (FirstValue(q, ViewName, "track") <==> view == Track)
            && (FirstValue(q, ViewName, "corners") <==> view == Corners)
            && (FirstValue(q, ViewName, "details") <==> view == Details)
    ensures flag in Parsed(number, q).flags <==> !Absent(q, Flagged(flag))
    ensures flag in Parsed(number, q).flags ==> (Parsed(number, q).flags[flag] <==> GetAll(q, Flagged(flag)) == ["true"])
    ensures !Parsed(number, q).validateLaps
  {
    FirstValueIsGot(q, ViewName, "performance");
    FirstValueIsGot(q, ViewName, "inputs");
    FirstValueIsGot(q, ViewName, "track");
    FirstValueIsGot(q, ViewName, "corners");
    FirstValueIsGot(q, ViewName, "details");
    GetIsFirstValue(q, Flagged(flag));
    assert flag in QUALITY_FLAGS by { assert QUALITY_FLAGS[FlagPlace(flag)] == flag; }
    hide FirstValue, Absent, GetAll;
    DistinctNames();
  }

  lemma DistinctNames()
    ensures "performance" != "inputs" && "performance" != "track" && "performance" != "corners" && "performance" != "details"
    ensures "inputs" != "track" && "inputs" != "corners" && "inputs" != "details"
    ensures "track" != "corners" && "track" != "details" && "corners" != "details"
  {
    assert "corners"[0] != "details"[0];
  }

  /** A text with one comma is split there. */
  lemma SplitInTwo(text: string)
    requires |Split(text)| == 2
    ensures var parts := Split(text); text == parts[0] + "," + parts[1] && ',' !in parts[0] && ',' !in parts[1]
  {
    SplitJoins(text);
    var parts := Split(text);
    assert Join(parts) == parts[0] + "," + Join(parts[1..]) && parts[1..] == [parts[1]];
  }

  lemma ReadsZoom(number: Numeral, q: Query, from: real, to: real)
    ensures Parsed(number, q).zoom == Some((from, to)) <==>
              && 0.0 <= from < to <= 100000.0
              && exists a, b :: ',' !in a && ',' !in b && FirstValue(q, Zoom, a + "," + b) &&
                   number(a) == Some(from) && number(b) == Some(to)
  {
    hide FirstValue, Get, Split, ViewOf, ParsedContext, DriversOf, LapsOf, FlagsOf;
    if a, b :| ',' !in a && ',' !in b && FirstValue(q, Zoom, a + "," + b) && number(a) == Some(from) && number(b) == Some(to) {
      FirstValueIsGot(q, Zoom, a + "," + b);
      SplitPair(a, b);
    }
    if Parsed(number, q).zoom == Some((from, to)) {
      var text := Get(q, Zoom).value;
      SplitInTwo(text);
      FirstValueIsGot(q, Zoom, text);
    }
  }

  /** A context is read exactly when a reference or the invalid mark is given: the one reference, when it is the
      only one, well formed, and neither a session nor the mark is given beside it, and invalid otherwise. */
  lemma ReadsContext(number: Numeral, q: Query)
    ensures var context := Parsed(number, q).context;
            var races, replays := GetAll(q, RaceSessionId), GetAll(q, ReplaySessionId);
            var beside := !Absent(q, Session) || !Absent(q, ContextInvalid);
            && (context.None? <==> races == [] && replays == [] && Absent(q, ContextInvalid))
            && (context.Some? ==>
                  if |races| == 1 && replays == [] && !beside && |races[0]| <= 240 && JoinedWords(races[0], {'-'})
                  then context.value.kind == Race && context.value.id == races[0]
                  else if races == [] && |replays| == 1 && !beside && |replays[0]| <= 240 && JoinedWords(replays[0], {'-'})
                  then context.value.kind == Replay && context.value.id == replays[0]
                  else context.value.kind == Invalid && context.value.id == "")
  {
    GetIsFirstValue(q, Session);
    GetIsFirstValue(q, ContextInvalid);
    var races, replays := GetAll(q, RaceSessionId), GetAll(q, ReplaySessionId);
    if |races| == 1 {
      IdentifiersAre(races[0]);
    }
    if |replays| == 1 {
      IdentifiersAre(replays[0]);
    }
    hide ReferenceId, JoinedWords, Absent, GetAll;
    assert |References(q)| == |races| + |replays|;
  }
}

/**
 * The delegated planner's own logic: the credential gate in front of the client, the text
 * the catalog is serialised into for the prompt, and the chain that turns the model's reply
 * into an array. The request itself is a parameter (`respond`), and so is `JSON.parse`
 * (`parse`), which is left uninterpreted: it either yields a value or fails.
 */
module Delegated {
  import opened Wrappers
  import opened Text
  import opened Catalog

  // ---------------------------------------------------------------- errors and values

  const MissingKeyMessage := "Please set your VITE_CLAUDE_API_KEY in the .env file"
  const NoIdsMessage := "Could not parse location IDs from response"
  const NotArrayMessage := "Response is not an array"

  /** The value the example configuration ships with in place of a real key. */
  const PlaceholderKey := "your_api_key_here"

  /** What the service throws: an `Error` with one of the messages above, or the syntax error
      `JSON.parse` raises on the second attempt. */
  datatype ServiceError = Error(message: string) | JsonSyntaxError

  /** The JSON values `JSON.parse` can produce; only the array case matters here. */
  datatype Json =
    | JArray(elements: seq<Json>)
    | JString(text: string)
    | JNumber(value: int)
    | JBool(flag: bool)
    | JNull
    | JObject(members: seq<(string, Json)>)

  // ---------------------------------------------------------------- the credential gate

  /** A key is usable when it is present, non-empty and not the placeholder. */
  predicate UsableKey(key: Option<string>) {
    key.Some? && key.value != "" && key.value != PlaceholderKey
  }

  /** `getClient`'s check: a missing, empty or placeholder key is refused with the set-up
      message; any other key is handed on to build the client. */
  function CheckApiKey(key: Option<string>): (r: Result<string, ServiceError>)
    ensures r.Success? <==> UsableKey(key)
    ensures r.Success? ==> key == Some(r.value)
    ensures r.Failure? ==> r.error == Error(MissingKeyMessage)
  {
    if key.None? || key.value == "" || key.value == PlaceholderKey then Failure(Error(MissingKeyMessage))
    else Success(key.value)
  }

  // ---------------------------------------------------------------- serialising the catalog

  /** An id as a template literal shows it. */
  function IdText(id: Id): string {
    match id
    case Named(text) => text
    case Numbered(n) => NatToString(n)
  }

  /** `description || address || 'No description'`. */
  function DescriptionText(l: Location): string {
    if l.description != "" then l.description
    else if l.address != "" then l.address
    else "No description"
  }

  /** `distance || 'on campus'`. */
  function DistanceField(l: Location): string {
    match l.distance
    case None => "on campus"
    case Some(t) => DistanceText(t)
  }

  /** `keywords.join(', ') || 'none'`. */
  function KeywordsField(l: Location): string {
    var joined := Join(l.keywords, ", ");
    if joined == "" then "none" else joined
  }

  /** The six lines describing one location. */
  function EntryLines(l: Location): seq<string> {
    [ "- ID: \"" + IdText(l.id) + "\"",
      "  Name: " + l.name,
      "  Type: " + l.kind,
      "  Description: " + DescriptionText(l),
      "  Distance: " + DistanceField(l),
      "  Keywords: " + KeywordsField(l) ]
  }

  /** The block the prompt holds for one location: its six lines, one under the other. */
  function LocationEntry(l: Location): string {
    var lines := EntryLines(l);
    lines[0] + "\n" + lines[1] + "\n" + lines[2] + "\n" + lines[3] + "\n" + lines[4] + "\n" + lines[5]
  }

  /** `availableLocations.map(...)`. */
  function Entries(locs: seq<Location>): (r: seq<string>)
    ensures |r| == |locs| && forall i | 0 <= i < |locs| :: r[i] == LocationEntry(locs[i])
  {
    seq(|locs|, i requires 0 <= i < |locs| => LocationEntry(locs[i]))
  }

  /** `locationsList`: the blocks separated by a blank line. */
  function LocationsList(locs: seq<Location>): string {
    Join(Entries(locs), "\n\n")
  }

  /** Which text stands in each field: the description, else the address, else the fallback;
      the rendered distance, else "on campus"; the joined keywords, else "none". */
  lemma FieldFallbacks(l: Location)
    ensures DescriptionText(l) == (if l.description != "" then l.description else if l.address != "" then l.address else "No description")
    ensures DistanceField(l) == "on campus" <==> l.distance == None
    ensures l.distance.Some? ==> ParseTenths(DistanceField(l)) == l.distance
    ensures KeywordsField(l) == "none" <==> l.keywords == [] || l.keywords == [[]] || l.keywords == ["none"]
  {
    if l.distance.Some? {
      DistanceRoundTrip(l.distance.value);
      assert DistanceField(l)[|DistanceField(l)| - 1] == 's';
    }
    JoinEmptyIff(l.keywords, ", ");
    if |l.keywords| >= 2 {
      JoinHasSeparator(l.keywords, ", ");
      assert ',' !in "none";
    }
  }

  /** A join of two or more parts holds the separator's first character. */
  lemma JoinHasSeparator(parts: seq<string>, sep: string)
    requires |parts| >= 2 && sep != []
    ensures sep[0] in Join(parts, sep)
  {
    var j := Join(parts, sep);
    assert j == parts[0] + sep + Join(parts[1..], sep);
    assert j[|parts[0]|] == sep[0];
  }

  /** No part and no separator holds `c`, so neither does the join. */
  lemma {:induction false} JoinAvoids(parts: seq<string>, sep: string, c: char)
    requires c !in sep && forall i | 0 <= i < |parts| :: c !in parts[i]
    ensures c !in Join(parts, sep)
    decreases |parts|
  {
    if |parts| >= 2 {
      JoinAvoids(parts[1..], sep, c);
    }
  }

  /** Digits, points and letters: a rendered number or distance holds no line break. */
  lemma RenderedHasNoNewline(t: nat)
    ensures '\n' !in NatToString(t) && '\n' !in DistanceText(t)
  {
    DigitsHaveNoNewline(NatToString(t / 10));
    DigitsHaveNoNewline(NatToString(t));
  }

  lemma DigitsHaveNoNewline(s: string)
    requires IsDigits(s)
    ensures '\n' !in s
  {
    forall k | 0 <= k < |s|
      ensures s[k] != '\n'
    {
      assert '0' <= s[k] <= '9';
    }
  }

  /** The fields a location's lines are made of hold no line break. */
  predicate SingleLineFields(l: Location) {
    && '\n' !in l.name && '\n' !in l.kind && '\n' !in l.description && '\n' !in l.address
    && (l.id.Named? ==> '\n' !in l.id.text)
    && forall k | 0 <= k < |l.keywords| :: '\n' !in l.keywords[k]
  }

  /** Then neither does any text standing in a field. */
  lemma FieldTextsAreSingleLine(l: Location)
    requires SingleLineFields(l)
    ensures '\n' !in IdText(l.id) && '\n' !in DescriptionText(l)
    ensures '\n' !in DistanceField(l) && '\n' !in KeywordsField(l)
  {
    if l.id.Numbered? {
      RenderedHasNoNewline(l.id.n);
    }
    if l.distance.Some? {
      RenderedHasNoNewline(l.distance.value);
    }
    JoinAvoids(l.keywords, ", ", '\n');
  }

  /** Nor any line of the block. */
  lemma EntryLinesAreSingleLines(l: Location)
    requires SingleLineFields(l)
    ensures forall i | 0 <= i < |EntryLines(l)| :: '\n' !in EntryLines(l)[i]
  {
    FieldTextsAreSingleLine(l);
    var lines := EntryLines(l);
    assert '\n' !in lines[0] by {
      assert lines[0] == "- ID: \"" + IdText(l.id) + "\"";
    }
    assert '\n' !in lines[1] && '\n' !in lines[2];
    assert '\n' !in lines[3] && '\n' !in lines[4] && '\n' !in lines[5];
  }

  /** When no field holds a line break, the block of a location splits back into exactly its
      six lines, one per field, in order. */
  lemma EntrySplitsIntoLines(l: Location)
    requires SingleLineFields(l)
    ensures Split(LocationEntry(l), '\n') == EntryLines(l)
  {
    EntryLinesAreSingleLines(l);
    JoinSix(EntryLines(l), "\n");
    SplitUnique(LocationEntry(l), '\n', EntryLines(l));
  }

  /** Six parts joined: each separator once between neighbours. */
  lemma JoinSix(parts: seq<string>, sep: string)
    requires |parts| == 6
    ensures Join(parts, sep) == parts[0] + sep + parts[1] + sep + parts[2] + sep + parts[3] + sep + parts[4] + sep + parts[5]
  {
    assert Join(parts[5..], sep) == parts[5];
    assert Join(parts[4..], sep) == parts[4] + sep + parts[5] by {
      assert parts[4..][1..] == parts[5..];
    }
    assert Join(parts[3..], sep) == parts[3] + sep + Join(parts[4..], sep) by {
      assert parts[3..][1..] == parts[4..];
    }
    assert Join(parts[2..], sep) == parts[2] + sep + Join(parts[3..], sep) by {
      assert parts[2..][1..] == parts[3..];
    }
    assert Join(parts[1..], sep) == parts[1] + sep + Join(parts[2..], sep) by {
      assert parts[1..][1..] == parts[2..];
    }
  }

  /** The list is empty exactly when there are no locations, and each location adds its block
      after one blank line. */
  lemma LocationsListShape(locs: seq<Location>, l: Location)
    ensures LocationsList(locs) == "" <==> locs == []
    ensures locs != [] ==> LocationsList(locs + [l]) == LocationsList(locs) + "\n\n" + LocationEntry(l)
  {
    JoinEmptyIff(Entries(locs), "\n\n");
    if locs != [] {
      assert LocationEntry(locs[0])[0] == '-';
      assert Entries(locs + [l]) == Entries(locs) + [LocationEntry(l)];
      JoinSnoc(Entries(locs), LocationEntry(l), "\n\n");
    }
  }

  // ---------------------------------------------------------------- reading the reply

  /** `text.match(/\[[\s\S]*?\]/)`: from the first `[` to the first `]` after it, if any. */
  function FirstBracketed(s: string): (r: Option<string>)
    ensures r.Some? ==>
              |r.value| >= 2 && r.value[0] == '[' && r.value[|r.value| - 1] == ']' && ']' !in r.value[1..|r.value| - 1]
  {
    if '[' !in s then None
    else
      var i := IndexOf(s, '[');
      var rest := s[i + 1..];
      if ']' !in rest then None
      else
        var j := IndexOf(rest, ']');
        var run := s[i..i + j + 2];
        assert run[0] == '[' && run[j + 1] == rest[j];
        assert run[1..j + 1] == rest[..j] by {
          forall k | 0 <= k < j
            ensures run[1..j + 1][k] == rest[..j][k]
          {
            assert run[1 + k] == s[i + 1 + k] == rest[k];
          }
        }
        Some(run)
  }

  /** The match is at the leftmost `[` and is the shortest bracketed run starting there; there
      is no match exactly when no `]` follows any `[`. */
  lemma FirstBracketedIsLeftmostShortest(s: string)
    ensures FirstBracketed(s).Some? ==>
      exists i | 0 <= i < |s| :: '[' !in s[..i] && OccursAt(s, FirstBracketed(s).value, i)
    ensures FirstBracketed(s).None? <==>
      forall i, j | 0 <= i < j < |s| :: !(s[i] == '[' && s[j] == ']')
  {
    if '[' in s {
      var i := IndexOf(s, '[');
      var rest := s[i + 1..];
      if ']' in rest {
        var j := IndexOf(rest, ']');
        assert OccursAt(s, FirstBracketed(s).value, i);
        assert s[i] == '[' && s[i + 1 + j] == ']';
      } else {
        forall a, b | 0 <= a < b < |s| && s[a] == '['
          ensures s[b] != ']'
        {
          assert '[' in s[..i + 1];
          assert i <= a;
          assert s[b] == rest[b - i - 1];
        }
      }
    }
  }

  /** The chain of `planRouteWithClaude` after the request: parse the trimmed reply whole; if
      that fails, parse its first bracketed run (no run: the ids could not be read, and a run
      that fails to parse raises the parser's syntax error); a value that is not an array is
      refused; an array is returned as it is. */
  function ParseRouteIds(responseText: string, parse: string -> Option<Json>): Result<seq<Json>, ServiceError> {
    var text := Trim(responseText);
    var parsed: Result<Json, ServiceError> :=
      match parse(text)
      case Some(v) => Success(v)
      case None =>
        match FirstBracketed(text)
        case None => Failure(Error(NoIdsMessage))
        case Some(run) =>
          match parse(run)
          case Some(v) => Success(v)
          case None => Failure(JsonSyntaxError);
    match parsed
    case Failure(e) => Failure(e)
    case Success(v) => if v.JArray? then Success(v.elements) else Failure(Error(NotArrayMessage))
  }

  /** Whichever attempt produced it, a returned array is the parsed value itself: the ids are
      neither filtered nor checked against the catalog. */
  lemma ParsedArrayUnchanged(responseText: string, parse: string -> Option<Json>)
    ensures var r := ParseRouteIds(responseText, parse); var text := Trim(responseText);
      r.Success? ==>
        parse(text) == Some(JArray(r.value))
        || (parse(text) == None && FirstBracketed(text).Some? && parse(FirstBracketed(text).value) == Some(JArray(r.value)))
  {
    var text := Trim(responseText);
    var r := ParseRouteIds(responseText, parse);
    match parse(text)
    case Some(v) =>
      assert r == (if v.JArray? then Success(v.elements) else Failure(Error(NotArrayMessage)));
    case None =>
      match FirstBracketed(text)
      case None =>
        assert r == Failure(Error(NoIdsMessage));
      case Some(run) =>
        assert r == (match parse(run)
                     case Some(v) => if v.JArray? then Success(v.elements) else Failure(Error(NotArrayMessage))
                     case None => Failure(JsonSyntaxError));
  }

  /** A reply that parses whole is never searched for brackets. */
  lemma WholeReplyFirst(responseText: string, parse: string -> Option<Json>, v: Json)
    requires parse(Trim(responseText)) == Some(v)
    ensures ParseRouteIds(responseText, parse) == (if v.JArray? then Success(v.elements) else Failure(Error(NotArrayMessage)))
  {
  }

  /** A reply that does not parse and holds no bracketed run fails with `NoIdsMessage`; one
      whose run does not parse either fails with the parser's error. */
  lemma ReplyFailures(responseText: string, parse: string -> Option<Json>)
    requires parse(Trim(responseText)) == None
    ensures FirstBracketed(Trim(responseText)) == None ==>
              ParseRouteIds(responseText, parse) == Failure(Error(NoIdsMessage))
    ensures (FirstBracketed(Trim(responseText)).Some? && parse(FirstBracketed(Trim(responseText)).value) == None) ==>
              ParseRouteIds(responseText, parse) == Failure(JsonSyntaxError)
  {
  }

  /** A reply that does not parse whole but whose first bracketed run parses is decided by the
      array check on that run's value alone: an array is returned as it is, anything else fails
      with `NotArrayMessage`. */
  lemma BracketedRunDecides(responseText: string, parse: string -> Option<Json>, run: string, v: Json)
    requires parse(Trim(responseText)) == None
    requires FirstBracketed(Trim(responseText)) == Some(run) && parse(run) == Some(v)
    ensures ParseRouteIds(responseText, parse) == (if v.JArray? then Success(v.elements) else Failure(Error(NotArrayMessage)))
  {
  }

  /** Every failure is one of the errors the service raises, with its message. */
  lemma FailuresAreKnown(responseText: string, parse: string -> Option<Json>)
    ensures var r := ParseRouteIds(responseText, parse);
      r.Failure? ==> r.error == Error(NoIdsMessage) || r.error == Error(NotArrayMessage) || r.error == JsonSyntaxError
  {
    var text := Trim(responseText);
    var r := ParseRouteIds(responseText, parse);
    match parse(text)
    case Some(v) =>
      assert r == (if v.JArray? then Success(v.elements) else Failure(Error(NotArrayMessage)));
    case None =>
      match FirstBracketed(text)
      case None =>
        assert r == Failure(Error(NoIdsMessage));
      case Some(run) =>
        assert r == (match parse(run)
                     case Some(v) => if v.JArray? then Success(v.elements) else Failure(Error(NotArrayMessage))
                     case None => Failure(JsonSyntaxError));
  }

  // ---------------------------------------------------------------- the service call

  /** `planRouteWithClaude(userInput, availableLocations)`: check the key, send the catalog and
      the request (`respond` stands for the model's reply to them), read the reply. */
  function PlanRouteDelegated(key: Option<string>, userInput: string, locs: seq<Location>,
                              respond: (string, string) -> string, parse: string -> Option<Json>): Result<seq<Json>, ServiceError>
  {
    match CheckApiKey(key)
    case Failure(e) => Failure(e)
    case Success(_) => ParseRouteIds(respond(LocationsList(locs), userInput), parse)
  }

  /** An unusable key fails with the set-up message whatever the model would have replied,
      so no reply is ever read; a usable key leaves the outcome to the reply alone. */
  lemma KeyGateComesFirst(key: Option<string>, userInput: string, locs: seq<Location>,
                          respond: (string, string) -> string, respond': (string, string) -> string,
                          parse: string -> Option<Json>)
    ensures !UsableKey(key) ==>
      PlanRouteDelegated(key, userInput, locs, respond, parse) == Failure(Error(MissingKeyMessage))
      && PlanRouteDelegated(key, userInput, locs, respond', parse) == Failure(Error(MissingKeyMessage))
    ensures UsableKey(key) ==>
      PlanRouteDelegated(key, userInput, locs, respond, parse) == ParseRouteIds(respond(LocationsList(locs), userInput), parse)
  {
  }
}

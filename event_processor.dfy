/**
 * The event processor: dot-path lookup into a JSON-like event, keyword-based
 * venue abbreviation, and the batch projection of `{"events": [...]}` into flat
 * `{field_path: value}` maps.
 */
module EventProcessing {
  import opened Wrappers
  import opened Text
  import opened JsonModel
  import Config

  /** Keyword to abbreviation, in dict iteration order. */
  type VenueMapping = seq<(string, string)>

  /** One processed event: field path (dots kept) to extracted value. */
  type ProjectedEvent = map<string, Json>

  /** The only field path whose value is abbreviated. */
  const LocationTitle: string := "location.title"

  /** The structural errors that fail a whole batch (`ProcessingError`). */
  datatype ProcessingError = MissingEventsKey | EventsNotAList
  {
    function Message(): string
    {
      match this
      case MissingEventsKey => "Missing 'events' key in API response"
      case EventsNotAList => "'events' field is not a list"
    }
  }

  // ---------------------------------------------------------------------------
  // Dot-path lookup

  /** Follows `parts` key by key from `node`; None as soon as a node is not a dict or lacks the key. */
  function Walk(node: Json, parts: seq<string>): Option<Json>
  {
    if parts == [] then Some(node)
    else
      match node
      case JObject(entries) =>
        (match Get(entries, parts[0])
         case None => None
         case Some(child) => Walk(child, parts[1..]))
      case _ => None
  }

  /** What `extract_field` returns: the resolved value, or "" when the path does not resolve or ends in null. */
  function Extracted(event: Json, fieldPath: string): (r: Json)
    ensures r != JNull
  {
    match Walk(event, Split(fieldPath, '.'))
    case None => JString("")
    case Some(v) => if v == JNull then JString("") else v
  }

  /** Walking a concatenated path is walking the first part, then the second from where it ended. */
  lemma {:induction false} WalkAppend(node: Json, a: seq<string>, b: seq<string>)
    ensures Walk(node, a + b) == match Walk(node, a) case None => None case Some(m) => Walk(m, b)
  {
    if a == [] {
      assert a + b == b;
    } else {
      assert (a + b)[0] == a[0] && (a + b)[1..] == a[1..] + b;
      if node.JObject? && Get(node.entries, a[0]).Some? {
        WalkAppend(Get(node.entries, a[0]).value, a[1..], b);
      }
    }
  }

  /** A path always has a segment, so an event that is not a dict (a list, a string, null, ...) yields "" for every path. */
  lemma NonObjectYieldsEmpty(event: Json, fieldPath: string)
    requires !event.JObject?
    ensures Extracted(event, fieldPath) == JString("")
  {
  }

  /** When the first segment is not a key of the event, the lookup yields "" (it never fails). */
  lemma FirstSegmentAbsentYieldsEmpty(entries: seq<(string, Json)>, fieldPath: string)
    requires !HasKey(entries, Split(fieldPath, '.')[0])
    ensures Extracted(JObject(entries), fieldPath) == JString("")
  {
  }

  /** The empty path is one empty segment: it looks up the key "" and never returns the event itself. */
  lemma EmptyPathLooksUpEmptyKey(event: Json)
    ensures Extracted(event, "") ==
      if event.JObject? && HasKey(event.entries, "") && Get(event.entries, "").value != JNull
      then Get(event.entries, "").value else JString("")
  {
    if event.JObject? {
      TopLevelKey(event.entries, "");
    }
  }

  /** A dot-free key is looked up directly; a null value becomes "" and any other value is returned unchanged. */
  lemma {:induction false} TopLevelKey(entries: seq<(string, Json)>, key: string)
    requires '.' !in key
    ensures Extracted(JObject(entries), key) ==
      match Get(entries, key)
      case None => JString("")
      case Some(v) => if v == JNull then JString("") else v
  {
    SplitNoSeparator(key, '.');
    assert [key][0] == key && [key][1..] == [];
    assert Walk(JObject(entries), [key]) == match Get(entries, key) case None => None case Some(v) => Walk(v, []);
  }

  /** `key.rest` looks up the dot-free `key` and continues with `rest` from that child. */
  lemma {:induction false} NestedKey(entries: seq<(string, Json)>, key: string, rest: string)
    requires '.' !in key
    ensures Extracted(JObject(entries), key + "." + rest) ==
      match Get(entries, key)
      case None => JString("")
      case Some(child) => Extracted(child, rest)
  {
    SplitPrefix(key, rest, '.');
    var parts := [key] + Split(rest, '.');
    assert parts[0] == key && parts[1..] == Split(rest, '.');
  }

  // ---------------------------------------------------------------------------
  // Venue abbreviation

  /**
   * Python's `keyword in venue` for the kinds of value a venue can be: substring test on
   * a str, key test on a dict, element test on a list; None stands for the TypeError
   * raised for a number, a bool or None.
   */
  function KeywordIn(keyword: string, venue: Json): Option<bool>
  {
    match venue
    case JString(s) => Some(Contains(s, keyword))
    case JObject(entries) => Some(HasKey(entries, keyword))
    case JArray(items) => Some(JString(keyword) in items)
    case _ => None
  }

  /** The loop of `abbreviate_venue`: the abbreviation of the first keyword found, in mapping order. */
  function AbbreviateFrom(mappings: VenueMapping, venue: Json): Option<Json>
  {
    if mappings == [] then Some(venue)
    else
      match KeywordIn(mappings[0].0, venue)
      case None => None
      case Some(found) =>
        if found then Some(JString(mappings[0].1)) else AbbreviateFrom(mappings[1..], venue)
  }

  /** `abbreviate_venue`: a falsy venue is returned as it is; otherwise the keyword scan. None is a raised TypeError. */
  function Abbreviate(mappings: VenueMapping, venue: Json): Option<Json>
  {
    if !Truthy(venue) then Some(venue) else AbbreviateFrom(mappings, venue)
  }

  /** Mapping entry `i` is the first whose keyword is a substring of `venue`. */
  predicate FirstMatch(mappings: VenueMapping, venue: string, i: int)
  {
    && 0 <= i < |mappings|
    && Contains(venue, mappings[i].0)
    && forall j :: 0 <= j < i ==> !Contains(venue, mappings[j].0)
  }

  /**
   * On a string venue abbreviation never fails: the empty venue is returned unchanged, the
   * first matching keyword (in mapping order, case-sensitive substring) gives its abbreviation
   * and later matches are ignored, and with no match the venue is returned unchanged.
   */
  lemma {:induction false} AbbreviateString(mappings: VenueMapping, venue: string)
    ensures venue == "" ==> Abbreviate(mappings, JString(venue)) == Some(JString(venue))
    ensures venue != "" ==> forall i :: FirstMatch(mappings, venue, i) ==>
      Abbreviate(mappings, JString(venue)) == Some(JString(mappings[i].1))
    ensures (forall i :: 0 <= i < |mappings| ==> !Contains(venue, mappings[i].0)) ==>
      Abbreviate(mappings, JString(venue)) == Some(JString(venue))
  {
    if venue != "" {
      AbbreviateFromString(mappings, venue);
    }
  }

  lemma {:induction false} AbbreviateFromString(mappings: VenueMapping, venue: string)
    ensures forall i :: FirstMatch(mappings, venue, i) ==>
      AbbreviateFrom(mappings, JString(venue)) == Some(JString(mappings[i].1))
    ensures (forall i :: 0 <= i < |mappings| ==> !Contains(venue, mappings[i].0)) ==>
      AbbreviateFrom(mappings, JString(venue)) == Some(JString(venue))
  {
    if mappings != [] {
      var tail := mappings[1..];
      AbbreviateFromString(tail, venue);
      forall i | FirstMatch(mappings, venue, i)
        ensures AbbreviateFrom(mappings, JString(venue)) == Some(JString(mappings[i].1))
      {
        if i > 0 {
          assert !Contains(venue, mappings[0].0);
          assert FirstMatch(tail, venue, i - 1);
        }
      }
      if forall i :: 0 <= i < |mappings| ==> !Contains(venue, mappings[i].0) {
        assert !Contains(venue, mappings[0].0);
        assert forall i :: 0 <= i < |tail| ==> !Contains(venue, tail[i].0) by {
          forall i | 0 <= i < |tail| ensures !Contains(venue, tail[i].0) {
            assert tail[i] == mappings[i + 1];
          }
        }
      }
    }
  }

  /** Abbreviation fails (raises) exactly on a truthy number or bool, and only when there is a keyword to test. */
  lemma AbbreviateFails(mappings: VenueMapping, venue: Json)
    ensures Abbreviate(mappings, venue).None? <==>
      mappings != [] && Truthy(venue) && (venue.JNumber? || venue.JBool?)
  {
    if venue.JString? || venue.JObject? || venue.JArray? {
      ContainerNeverFails(mappings, venue);
    }
  }

  lemma {:induction false} ContainerNeverFails(mappings: VenueMapping, venue: Json)
    requires venue.JString? || venue.JObject? || venue.JArray?
    ensures AbbreviateFrom(mappings, venue).Some?
  {
    if mappings != [] {
      ContainerNeverFails(mappings[1..], venue);
    }
  }

  /** Every abbreviation of the default mapping is its own keyword and contains no earlier keyword. */
  lemma DefaultMappingSelfStable()
    ensures forall i :: 0 <= i < |Config.DefaultVenueMappings| ==>
      Config.DefaultVenueMappings[i].1 == Config.DefaultVenueMappings[i].0
    ensures forall i, j :: 0 <= j < i < |Config.DefaultVenueMappings| ==>
      !Contains(Config.DefaultVenueMappings[i].1, Config.DefaultVenueMappings[j].0)
  {
    var m := Config.DefaultVenueMappings;
    forall i, j | 0 <= j < i < |m| ensures !Contains(m[i].1, m[j].0) {
      if j == 0 {
        NotContainedByChar(m[i].1, m[j].0, 'B');
      } else if j == 1 {
        NotContainedByChar(m[i].1, m[j].0, 'w');
      } else {
        NotContainedByChar(m[i].1, m[j].0, 'p');
      }
    }
  }

  lemma NotContainedByChar(s: string, key: string, c: char)
    requires c in key && c !in s
    ensures !Contains(s, key)
  {
    if Contains(s, key) {
      ContainsChars(s, key, c);
    }
  }

  /** With the default mapping, abbreviating an abbreviated string changes nothing. */
  lemma DefaultAbbreviationIdempotent(venue: string)
    ensures var once := Abbreviate(Config.DefaultVenueMappings, JString(venue));
      once.Some? && once.value.JString? &&
      Abbreviate(Config.DefaultVenueMappings, once.value) == once
  {
    var m := Config.DefaultVenueMappings;
    DefaultMappingSelfStable();
    AbbreviateString(m, venue);
    if venue != "" && exists i :: FirstMatch(m, venue, i) {
      var i :| FirstMatch(m, venue, i);
      var a := m[i].1;
      assert Contains(a, m[i].0) by { assert a == m[i].0; assert m[i].0 <= a; }
      assert FirstMatch(m, a, i);
      AbbreviateString(m, a);
    } else if venue != "" {
      assert forall i :: 0 <= i < |m| ==> !Contains(venue, m[i].0) by {
        forall i | 0 <= i < |m| ensures !Contains(venue, m[i].0) {
          if Contains(venue, m[i].0) {
            LeastMatch(m, venue, i);
          }
        }
      }
    }
  }

  /** If some keyword matches, a first one does. */
  lemma {:induction false} LeastMatch(mappings: VenueMapping, venue: string, k: int)
    requires 0 <= k < |mappings| && Contains(venue, mappings[k].0)
    ensures exists i :: FirstMatch(mappings, venue, i)
    decreases k
  {
    if !FirstMatch(mappings, venue, k) {
      var j :| 0 <= j < k && Contains(venue, mappings[j].0);
      LeastMatch(mappings, venue, j);
    }
  }

  // ---------------------------------------------------------------------------
  // Projection of one event and of a batch

  /** The value stored for one field; None when abbreviating it raises. */
  function FieldValue(mappings: VenueMapping, event: Json, fieldPath: string): Option<Json>
  {
    var v := Extracted(event, fieldPath);
    if fieldPath == LocationTitle && Truthy(v) then Abbreviate(mappings, v) else Some(v)
  }

  /** The inner loop of `process_events` over `fields`; None when the event's processing raises. */
  function Project(mappings: VenueMapping, fields: seq<string>, event: Json): Option<ProjectedEvent>
  {
    if fields == [] then Some(map[])
    else
      var last := fields[|fields| - 1];
      match Project(mappings, fields[..|fields| - 1], event)
      case None => None
      case Some(d) =>
        (match FieldValue(mappings, event, last)
         case None => None
         case Some(v) => Some(d[last := v]))
  }

  /** The outer loop of `process_events`: projected events in input order, skipping those that raise. */
  function ProcessAll(mappings: VenueMapping, fields: seq<string>, events: seq<Json>): seq<ProjectedEvent>
  {
    if events == [] then []
    else
      var prev := ProcessAll(mappings, fields, events[..|events| - 1]);
      match Project(mappings, fields, events[|events| - 1])
      case None => prev
      case Some(d) => prev + [d]
  }

  /** `process_events` on a response dict. */
  function Process(mappings: VenueMapping, fields: seq<string>, response: seq<(string, Json)>)
    : Result<seq<ProjectedEvent>, ProcessingError>
  {
    match Get(response, "events")
    case None => Err(MissingEventsKey)
    case Some(events) => if events.JArray? then Ok(ProcessAll(mappings, fields, events.items)) else Err(EventsNotAList)
  }

  /**
   * A projected event has exactly the output fields as keys; each holds the looked-up value
   * ("" when missing or null), abbreviated only under the key `location.title` and only when truthy.
   */
  lemma {:induction false} ProjectKeysAndValues(mappings: VenueMapping, fields: seq<string>, event: Json)
    requires Project(mappings, fields, event).Some?
    ensures var d := Project(mappings, fields, event).value;
      && d.Keys == (set f | f in fields)
      && forall f :: f in fields ==> Some(d[f]) == FieldValue(mappings, event, f)
  {
    if fields != [] {
      var init := fields[..|fields| - 1];
      var last := fields[|fields| - 1];
      ProjectKeysAndValues(mappings, init, event);
      var d0 := Project(mappings, init, event).value;
      var v := FieldValue(mappings, event, last).value;
      var d := Project(mappings, fields, event).value;
      assert d == d0[last := v];
      assert fields == init + [last];
      assert forall f :: f in fields <==> f in init || f == last;
      assert d.Keys == d0.Keys + {last};
    }
  }

  /** The stored value of one field: only `location.title` is ever abbreviated; every other field is the raw lookup. */
  lemma StoredValue(mappings: VenueMapping, event: Json, fieldPath: string)
    ensures fieldPath != LocationTitle ==> FieldValue(mappings, event, fieldPath) == Some(Extracted(event, fieldPath))
    ensures fieldPath == LocationTitle ==>
      FieldValue(mappings, event, fieldPath) == Abbreviate(mappings, Extracted(event, fieldPath))
  {
  }

  /** Processing one event raises exactly when some field raises, which only `location.title` can do. */
  lemma ProjectFails(mappings: VenueMapping, fields: seq<string>, event: Json)
    ensures Project(mappings, fields, event).None? <==>
      exists f :: f in fields && FieldValue(mappings, event, f).None?
    ensures Project(mappings, fields, event).None? ==>
      LocationTitle in fields && FieldValue(mappings, event, LocationTitle).None?
  {
    if Project(mappings, fields, event).None? {
      var k := ProjectFailsWitness(mappings, fields, event);
      assert fields[k] in fields;
    } else if exists f :: f in fields && FieldValue(mappings, event, f).None? {
      var f :| f in fields && FieldValue(mappings, event, f).None?;
      var k :| 0 <= k < |fields| && fields[k] == f;
      ProjectFailsAt(mappings, fields, k, event);
    }
  }

  /** A field raises only under the key `location.title`. */
  lemma OnlyLocationRaises(mappings: VenueMapping, event: Json, fieldPath: string)
    ensures FieldValue(mappings, event, fieldPath).None? ==> fieldPath == LocationTitle
  {
  }

  /** A field that raises, anywhere in the list, makes the event raise. */
  lemma ProjectFailsAt(mappings: VenueMapping, fields: seq<string>, k: nat, event: Json)
    requires k < |fields| && FieldValue(mappings, event, fields[k]).None?
    ensures Project(mappings, fields, event).None?
  {
    if Project(mappings, fields[..k], event).None? {
      ProjectFailureExtends(mappings, fields, k, event);
    } else {
      ProjectStopsAt(mappings, fields, k, event);
    }
  }

  /** When the event raises, some field (necessarily `location.title`) raises. */
  lemma {:induction false} ProjectFailsWitness(mappings: VenueMapping, fields: seq<string>, event: Json)
    returns (k: nat)
    requires Project(mappings, fields, event).None?
    ensures k < |fields| && fields[k] == LocationTitle && FieldValue(mappings, event, fields[k]).None?
  {
    var init := fields[..|fields| - 1];
    if Project(mappings, init, event).None? {
      k := ProjectFailsWitness(mappings, init, event);
    } else {
      k := |fields| - 1;
    }
    OnlyLocationRaises(mappings, event, fields[k]);
  }

  /** An event that is not a dict projects to "" under every field. */
  lemma {:induction false} NonObjectProjectsEmpty(mappings: VenueMapping, fields: seq<string>, event: Json)
    requires !event.JObject?
    ensures Project(mappings, fields, event) == Some(map f | f in fields :: JString(""))
  {
    if fields != [] {
      var init := fields[..|fields| - 1];
      var last := fields[|fields| - 1];
      NonObjectProjectsEmpty(mappings, init, event);
      NonObjectYieldsEmpty(event, last);
      assert fields == init + [last];
      assert forall f :: f in fields <==> f in init || f == last;
      var d0 := map f | f in init :: JString("");
      assert d0[last := JString("")] == map f | f in fields :: JString("");
    }
  }

  /** One more field: the map so far, updated with that field's value, unless either raised. */
  lemma ProjectStep(mappings: VenueMapping, fields: seq<string>, j: nat, event: Json)
    requires j < |fields|
    ensures Project(mappings, fields[..j + 1], event) ==
      match Project(mappings, fields[..j], event)
      case None => None
      case Some(d) =>
        (match FieldValue(mappings, event, fields[j])
         case None => None
         case Some(v) => Some(d[fields[j] := v]))
  {
    assert fields[..j + 1][..j] == fields[..j];
  }

  /** A field whose value is stored extends the map built so far. */
  lemma ProjectExtends(mappings: VenueMapping, fields: seq<string>, j: nat, event: Json, d: ProjectedEvent, v: Json)
    requires j < |fields| && Project(mappings, fields[..j], event) == Some(d)
    requires FieldValue(mappings, event, fields[j]) == Some(v)
    ensures Project(mappings, fields[..j + 1], event) == Some(d[fields[j] := v])
  {
    ProjectStep(mappings, fields, j, event);
  }

  /** A field that raises makes the whole event raise. */
  lemma ProjectStopsAt(mappings: VenueMapping, fields: seq<string>, j: nat, event: Json)
    requires j < |fields| && Project(mappings, fields[..j], event).Some?
    requires FieldValue(mappings, event, fields[j]).None?
    ensures Project(mappings, fields, event).None?
  {
    ProjectStep(mappings, fields, j, event);
    ProjectFailureExtends(mappings, fields, j + 1, event);
  }

  /** Once one field raises, the whole event raises, whatever fields follow. */
  lemma {:induction false} ProjectFailureExtends(mappings: VenueMapping, fields: seq<string>, n: nat, event: Json)
    requires n <= |fields| && Project(mappings, fields[..n], event).None?
    ensures Project(mappings, fields, event).None?
    decreases |fields| - n
  {
    if n < |fields| {
      assert fields[..n + 1][..n] == fields[..n];
      ProjectFailureExtends(mappings, fields, n + 1, event);
    } else {
      assert fields[..n] == fields;
    }
  }

  /** Batches compose: processing `a + b` is processing `a` then `b`. */
  lemma {:induction false} ProcessAllAppend(mappings: VenueMapping, fields: seq<string>, a: seq<Json>, b: seq<Json>)
    ensures ProcessAll(mappings, fields, a + b) == ProcessAll(mappings, fields, a) + ProcessAll(mappings, fields, b)
    decreases |b|
  {
    if b == [] {
      assert a + b == a;
    } else {
      var init := b[..|b| - 1];
      ProcessAllAppend(mappings, fields, a, init);
      assert (a + b)[..|a + b| - 1] == a + init;
      assert (a + b)[|a + b| - 1] == b[|b| - 1];
    }
  }

  /** An event whose processing raises is dropped and every other event survives, in order. */
  lemma SkipFailingEvent(mappings: VenueMapping, fields: seq<string>, a: seq<Json>, bad: Json, b: seq<Json>)
    requires Project(mappings, fields, bad).None?
    ensures ProcessAll(mappings, fields, a + [bad] + b) == ProcessAll(mappings, fields, a) + ProcessAll(mappings, fields, b)
  {
    ProcessAllAppend(mappings, fields, a + [bad], b);
    ProcessAllAppend(mappings, fields, a, [bad]);
    assert [bad][..0] == [];
  }

  /** When no event raises, there is one projected event per input event, at the same position. */
  lemma {:induction false} ProcessAllNoFailures(mappings: VenueMapping, fields: seq<string>, events: seq<Json>)
    requires forall i :: 0 <= i < |events| ==> Project(mappings, fields, events[i]).Some?
    ensures var r := ProcessAll(mappings, fields, events);
      |r| == |events| && forall i :: 0 <= i < |events| ==> Some(r[i]) == Project(mappings, fields, events[i])
  {
    if events != [] {
      var init := events[..|events| - 1];
      ProcessAllNoFailures(mappings, fields, init);
    }
  }

  /** Every event of a processed batch has exactly the output fields as keys. */
  lemma {:induction false} ProcessAllKeys(mappings: VenueMapping, fields: seq<string>, events: seq<Json>)
    ensures forall d :: d in ProcessAll(mappings, fields, events) ==> d.Keys == (set f | f in fields)
  {
    if events != [] {
      var last := events[|events| - 1];
      ProcessAllKeys(mappings, fields, events[..|events| - 1]);
      if Project(mappings, fields, last).Some? {
        ProjectKeysAndValues(mappings, fields, last);
      }
    }
  }

  /** At most one projected event per input event. */
  lemma {:induction false} ProcessAllAtMost(mappings: VenueMapping, fields: seq<string>, events: seq<Json>)
    ensures |ProcessAll(mappings, fields, events)| <= |events|
  {
    if events != [] {
      ProcessAllAtMost(mappings, fields, events[..|events| - 1]);
    }
  }

  /** The batch fails exactly when `events` is missing or is not a list. */
  lemma ProcessErrors(mappings: VenueMapping, fields: seq<string>, response: seq<(string, Json)>)
    ensures !HasKey(response, "events") ==> Process(mappings, fields, response) == Err(MissingEventsKey)
    ensures HasKey(response, "events") && !Get(response, "events").value.JArray? ==>
      Process(mappings, fields, response) == Err(EventsNotAList)
    ensures Process(mappings, fields, response).Ok? <==>
      HasKey(response, "events") && Get(response, "events").value.JArray?
  {
  }

  /** The two error messages name the missing key and the wrong type. */
  lemma ErrorMessages()
    ensures Contains(MissingEventsKey.Message(), "Missing 'events' key")
    ensures Contains(EventsNotAList.Message(), "not a list")
  {
    var missing := MissingEventsKey.Message();
    assert missing[..20] == "Missing 'events' key";
    OccursContains(missing, "Missing 'events' key", 0);
    var notList := EventsNotAList.Message();
    assert notList[18..28] == "not a list";
    OccursContains(notList, "not a list", 18);
  }

  /** `location.title` is the dot-free key `location` followed by `title`. */
  lemma LocationTitleLookup(entries: seq<(string, Json)>)
    ensures Extracted(JObject(entries), LocationTitle) ==
      match Get(entries, "location")
      case None => JString("")
      case Some(child) => Extracted(child, "title")
  {
    assert LocationTitle == "location" + "." + "title";
    NestedKey(entries, "location", "title");
  }

  /** Projecting two fields that both succeed. */
  lemma ProjectTwo(mappings: VenueMapping, f1: string, f2: string, event: Json)
    requires FieldValue(mappings, event, f1).Some? && FieldValue(mappings, event, f2).Some?
    ensures Project(mappings, [f1, f2], event) ==
      Some(map[f1 := FieldValue(mappings, event, f1).value, f2 := FieldValue(mappings, event, f2).value])
  {
    var fields := [f1, f2];
    var v1 := FieldValue(mappings, event, f1).value;
    var v2 := FieldValue(mappings, event, f2).value;
    assert fields[..0] == [];
    ProjectExtends(mappings, fields, 0, event, map[], v1);
    ProjectExtends(mappings, fields, 1, event, map[][f1 := v1], v2);
    assert fields[..2] == fields;
    assert map[][f1 := v1][f2 := v2] == map[f1 := v1, f2 := v2];
  }

  /** With the default mapping, a venue that starts with "Brownwood" abbreviates to "Brownwood". */
  lemma BrownwoodVenue(venue: string)
    requires "Brownwood" <= venue
    ensures Abbreviate(Config.DefaultVenueMappings, JString(venue)) == Some(JString("Brownwood"))
  {
    var m := Config.DefaultVenueMappings;
    assert Contains(venue, m[0].0);
    assert FirstMatch(m, venue, 0);
    AbbreviateString(m, venue);
  }

  /**
   * With the default mapping and fields, an event at "Brownwood Paddock Square" titled
   * "Jazz Band" projects to location "Brownwood" and the title unchanged.
   */
  lemma BrownwoodExample()
    ensures Project(Config.DefaultVenueMappings, Config.DefaultOutputFields,
      JObject([("location", JObject([("title", JString("Brownwood Paddock Square"))])), ("title", JString("Jazz Band"))]))
      == Some(map[LocationTitle := JString("Brownwood"), "title" := JString("Jazz Band")])
  {
    var fields := Config.DefaultOutputFields;
    var m := Config.DefaultVenueMappings;
    var venue := "Brownwood Paddock Square";
    var location := JObject([("title", JString(venue))]);
    var e := [("location", location), ("title", JString("Jazz Band"))];
    assert "location"[0] != "title"[0];
    LocationTitleLookup(e);
    TopLevelKey(location.entries, "title");
    assert Extracted(JObject(e), LocationTitle) == JString(venue);
    BrownwoodVenue(venue);
    assert FieldValue(m, JObject(e), LocationTitle) == Some(JString("Brownwood"));
    TopLevelKey(e, "title");
    assert Get(e, "title") == Some(JString("Jazz Band"));
    assert FieldValue(m, JObject(e), "title") == Some(JString("Jazz Band"));
    ProjectTwo(m, LocationTitle, "title", JObject(e));
  }

  /** An event without a location keeps its title and gets an empty `location.title`. */
  lemma MissingLocationExample()
    ensures Project(Config.DefaultVenueMappings, Config.DefaultOutputFields, JObject([("title", JString("Artist One"))]))
      == Some(map[LocationTitle := JString(""), "title" := JString("Artist One")])
  {
    var fields := Config.DefaultOutputFields;
    var m := Config.DefaultVenueMappings;
    var e := [("title", JString("Artist One"))];
    assert "location"[0] != "title"[0];
    LocationTitleLookup(e);
    assert Get(e, "location") == None;
    assert FieldValue(m, JObject(e), LocationTitle) == Some(JString(""));
    TopLevelKey(e, "title");
    assert FieldValue(m, JObject(e), "title") == Some(JString("Artist One"));
    ProjectTwo(m, LocationTitle, "title", JObject(e));
  }

  // ---------------------------------------------------------------------------
  // The processor object

  /** `EventProcessor`: the venue mapping and the output fields, fixed at construction. */
  class EventProcessor {
    const venueMappings: VenueMapping
    const outputFields: seq<string>

    /** Output fields default to `["location.title", "title"]` only when none are given; an empty list is kept. */
    constructor (venueMappings: VenueMapping, outputFields: Option<seq<string>>)
      ensures this.venueMappings == venueMappings
      ensures this.outputFields == if outputFields.Some? then outputFields.value else Config.DefaultOutputFields
    {
      this.venueMappings := venueMappings;
      this.outputFields := if outputFields.Some? then outputFields.value else Config.DefaultOutputFields;
    }

    /** `extract_field`: walks the dot path segment by segment. */
    method ExtractField(event: Json, fieldPath: string) returns (r: Json)
      ensures r == Extracted(event, fieldPath)
    {
      var parts := Split(fieldPath, '.');
      var current := event;
      var i := 0;
      while i < |parts|
        invariant 0 <= i <= |parts|
        invariant Walk(event, parts) == Walk(current, parts[i..])
      {
        if !current.JObject? {
          return JString("");
        }
        var child := Get(current.entries, parts[i]);
        if child.None? {
          return JString("");
        }
        assert parts[i..][1..] == parts[i + 1..];
        current := child.value;
        i := i + 1;
      }
      r := if current != JNull then current else JString("");
    }

    /** One field of one event: the extracted value, abbreviated when it is a truthy `location.title`; None when that raises. */
    method FieldOf(event: Json, fieldPath: string) returns (r: Option<Json>)
      ensures r == FieldValue(venueMappings, event, fieldPath)
    {
      var value := ExtractField(event, fieldPath);
      if fieldPath == LocationTitle && Truthy(value) {
        r := Abbreviate(venueMappings, value);
      } else {
        r := Some(value);
      }
    }

    /** The body of the `try` in `process_events`: fills the event's map field by field; None when it raises. */
    method ProjectEvent(event: Json) returns (r: Option<ProjectedEvent>)
      ensures r == Project(venueMappings, outputFields, event)
    {
      var eventData: ProjectedEvent := map[];
      var j := 0;
      while j < |outputFields|
        invariant 0 <= j <= |outputFields|
        invariant Project(venueMappings, outputFields[..j], event) == Some(eventData)
      {
        var fieldPath := outputFields[j];
        var value := FieldOf(event, fieldPath);
        if value.None? {
          ProjectStopsAt(venueMappings, outputFields, j, event);
          return None;
        }
        ProjectExtends(venueMappings, outputFields, j, event, eventData, value.value);
        eventData := eventData[fieldPath := value.value];
        j := j + 1;
      }
      assert outputFields[..j] == outputFields;
      r := Some(eventData);
    }

    /** `process_events`: projects every event of the response's `events` list, skipping events that raise. */
    method ProcessEvents(response: seq<(string, Json)>) returns (r: Result<seq<ProjectedEvent>, ProcessingError>)
      ensures r == Process(venueMappings, outputFields, response)
    {
      var found := Get(response, "events");
      if found.None? {
        return Err(MissingEventsKey);
      }
      if !found.value.JArray? {
        return Err(EventsNotAList);
      }
      var events := found.value.items;
      var processed: seq<ProjectedEvent> := [];
      var idx := 0;
      while idx < |events|
        invariant 0 <= idx <= |events|
        invariant processed == ProcessAll(venueMappings, outputFields, events[..idx])
      {
        var eventData := ProjectEvent(events[idx]);
        assert events[..idx + 1][..idx] == events[..idx];
        if eventData.Some? {
          processed := processed + [eventData.value];
        }
        idx := idx + 1;
      }
      assert events[..idx] == events;
      r := Ok(processed);
    }
  }
}

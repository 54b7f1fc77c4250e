/**
 * The output formatter: four renderings of a list of (venue, title) pairs and
 * the dispatcher that picks one by name.
 */
module OutputFormatter {
  import opened Wrappers
  import opened Text
  import opened JsonModel
  import Csv
  import Config

  /** A (venue, title) pair. */
  type Event = (string, string)

  // ---------------------------------------------------------------------------
  // meshtastic: venue1,title1#venue2,title2#

  function MeshtasticRecord(e: Event): string
  {
    e.0 + "," + e.1
  }

  function MeshtasticRecords(events: seq<Event>): (r: seq<string>)
    ensures |r| == |events|
  {
    seq(|events|, i requires 0 <= i < |events| => MeshtasticRecord(events[i]))
  }

  /** `format_meshtastic`: "#" for no events, else the records joined by "#" with a trailing "#". */
  function FormatMeshtastic(events: seq<Event>): (r: string)
    ensures |r| >= 1 && r[|r| - 1] == '#'
  {
    if events == [] then "#" else Join(MeshtasticRecords(events), "#") + "#"
  }

  /** The empty list renders as the sentinel "#"; otherwise every record is followed by "#", in order. */
  lemma MeshtasticTerminated(events: seq<Event>)
    ensures events == [] ==> FormatMeshtastic(events) == "#"
    ensures events != [] ==> FormatMeshtastic(events) == Terminated(MeshtasticRecords(events), "#")
  {
    if events != [] {
      JoinThenSeparator(MeshtasticRecords(events), "#");
    }
  }

  /** When no venue or title contains "#", splitting at "#" recovers the records, then the empty tail. */
  lemma MeshtasticSplit(events: seq<Event>)
    requires events != []
    requires forall i :: 0 <= i < |events| ==> '#' !in events[i].0 && '#' !in events[i].1
    ensures Split(FormatMeshtastic(events), '#') == MeshtasticRecords(events) + [""]
  {
    var recs := MeshtasticRecords(events);
    JoinThenSeparator(recs, "#");
    forall i | 0 <= i < |recs + [""]| ensures '#' !in (recs + [""])[i] {
      if i < |recs| {
        assert recs[i] == events[i].0 + "," + events[i].1;
      }
    }
    SplitJoin(recs + [""], '#');
  }

  // ---------------------------------------------------------------------------
  // json: [{"venue": ..., "title": ...}, ...]

  function EventObject(e: Event): Json
  {
    JObject([("venue", JString(e.0)), ("title", JString(e.1))])
  }

  /** `format_json`, as the value handed to `json.dumps`: one object per event. */
  function FormatJson(events: seq<Event>): (r: Json)
    ensures r.JArray? && |r.items| == |events|
  {
    JArray(seq(|events|, i requires 0 <= i < |events| => EventObject(events[i])))
  }

  /** Reading one object back the way a client of the JSON does: its "venue" and "title" strings. */
  function DecodeEvent(j: Json): Option<Event>
  {
    if !j.JObject? then None
    else
      match (Get(j.entries, "venue"), Get(j.entries, "title"))
      case (Some(JString(venue)), Some(JString(title))) => Some((venue, title))
      case _ => None
  }

  function DecodeItems(items: seq<Json>): Option<seq<Event>>
  {
    if items == [] then Some([])
    else
      match (DecodeEvent(items[0]), DecodeItems(items[1..]))
      case (Some(e), Some(rest)) => Some([e] + rest)
      case _ => None
  }

  function DecodeEvents(j: Json): Option<seq<Event>>
  {
    if j.JArray? then DecodeItems(j.items) else None
  }

  lemma DecodeEventObject(e: Event)
    ensures DecodeEvent(EventObject(e)) == Some(e)
  {
    var entries := EventObject(e).entries;
    assert "venue"[0] != "title"[0];
    assert Get(entries, "venue") == Some(JString(e.0));
    assert Get(entries[1..], "title") == Some(JString(e.1));
  }

  /** The JSON document gives back exactly the events, in order; an empty list gives an empty array. */
  lemma JsonRoundTrip(events: seq<Event>)
    ensures DecodeEvents(FormatJson(events)) == Some(events)
    ensures events == [] ==> FormatJson(events) == JArray([])
  {
    DecodeItemsOf(events);
  }

  lemma {:induction false} DecodeItemsOf(events: seq<Event>)
    ensures DecodeItems(seq(|events|, i requires 0 <= i < |events| => EventObject(events[i]))) == Some(events)
  {
    var items := seq(|events|, i requires 0 <= i < |events| => EventObject(events[i]));
    if events != [] {
      DecodeItemsOf(events[1..]);
      assert items[1..] == seq(|events[1..]|, i requires 0 <= i < |events[1..]| => EventObject(events[1..][i]));
      DecodeEventObject(events[0]);
      assert events == [events[0]] + events[1..];
    }
  }

  /** Every element is an object with exactly the keys "venue" then "title". */
  lemma JsonKeyOrder(events: seq<Event>, i: int)
    requires 0 <= i < |events|
    ensures var o := FormatJson(events).items[i];
      o.JObject? && |o.entries| == 2 && o.entries[0].0 == "venue" && o.entries[1].0 == "title"
  {
  }

  // ---------------------------------------------------------------------------
  // csv: header row, then one row per event, CRLF line ends

  const CsvHeader: seq<string> := ["venue", "title"]

  /** The rows the writer is given: the header, then venue and title of each event. */
  function CsvRows(events: seq<Event>): (r: seq<seq<string>>)
    ensures |r| == |events| + 1
  {
    [CsvHeader] + seq(|events|, i requires 0 <= i < |events| => [events[i].0, events[i].1])
  }

  function CsvDocument(events: seq<Event>): string
  {
    Csv.EncodeRows(CsvRows(events))
  }

  /** `format_csv`: writes the header and then each event through a CSV writer into a string buffer. */
  method FormatCsv(events: seq<Event>) returns (r: string)
    ensures r == CsvDocument(events)
  {
    var output := new Csv.StringBuffer();
    var writer := new Csv.Writer(output);
    writer.WriteRow(CsvHeader);
    CsvRowsStart(events);
    var i := 0;
    while i < |events|
      invariant 0 <= i <= |events|
      invariant writer.output == output
      invariant output.contents == Csv.EncodeRows(CsvRows(events[..i]))
    {
      var (venue, title) := events[i];
      writer.WriteRow([venue, title]);
      CsvRowsStep(events, i);
      Csv.EncodeRowsAppend(CsvRows(events[..i]), [venue, title]);
      i := i + 1;
    }
    assert events[..i] == events;
    r := output.GetValue();
  }

  lemma CsvRowsStart(events: seq<Event>)
    ensures Csv.EncodeRows(CsvRows(events[..0])) == Csv.EncodeRow(CsvHeader)
  {
    assert CsvRows(events[..0]) == [CsvHeader];
    assert [CsvHeader][1..] == [];
  }

  lemma CsvRowsStep(events: seq<Event>, i: nat)
    requires i < |events|
    ensures CsvRows(events[..i + 1]) == CsvRows(events[..i]) + [[events[i].0, events[i].1]]
  {
  }

  /** The header row as written. */
  lemma HeaderLine()
    ensures Csv.EncodeRow(CsvHeader) == "venue,title\r\n"
  {
  }

  /** The document starts with the header row; with no events it is the header row alone. */
  lemma CsvHeaderFirst(events: seq<Event>)
    ensures "venue,title\r\n" <= CsvDocument(events)
    ensures events == [] ==> CsvDocument(events) == "venue,title\r\n"
  {
    var rows := CsvRows(events);
    HeaderLine();
    assert rows == [rows[0]] + rows[1..] && rows[0] == CsvHeader;
    assert CsvDocument(events) == "venue,title\r\n" + Csv.EncodeRows(rows[1..]);
    if events == [] {
      assert rows[1..] == [];
    }
  }

  /** Reading the document back gives the header and then exactly one row per event, in order. */
  lemma CsvReadBack(events: seq<Event>)
    ensures var rows := Csv.ParseDocument(CsvDocument(events));
      && rows.Some?
      && |rows.value| == |events| + 1
      && rows.value[0] == ["venue", "title"]
      && forall i :: 0 <= i < |events| ==> rows.value[i + 1] == [events[i].0, events[i].1]
  {
    Csv.ParseEncodedRows(CsvRows(events));
  }

  // ---------------------------------------------------------------------------
  // plain: "venue: title" lines

  function PlainLine(e: Event): string
  {
    e.0 + ": " + e.1
  }

  function PlainLines(events: seq<Event>): (r: seq<string>)
    ensures |r| == |events|
  {
    seq(|events|, i requires 0 <= i < |events| => PlainLine(events[i]))
  }

  /** `format_plain`: "" for no events, else the lines joined by newlines with a final newline. */
  function FormatPlain(events: seq<Event>): (r: string)
    ensures r == "" <==> events == []
  {
    if events == [] then "" else Join(PlainLines(events), "\n") + "\n"
  }

  /** Every line is followed by a newline, in order; no events give the empty string. */
  lemma PlainTerminated(events: seq<Event>)
    ensures FormatPlain(events) == Terminated(PlainLines(events), "\n")
  {
    if events != [] {
      JoinThenSeparator(PlainLines(events), "\n");
    }
  }

  /** When no venue or title contains a newline, splitting at newlines recovers the lines, then the empty tail. */
  lemma PlainSplit(events: seq<Event>)
    requires events != []
    requires forall i :: 0 <= i < |events| ==> '\n' !in events[i].0 && '\n' !in events[i].1
    ensures Split(FormatPlain(events), '\n') == PlainLines(events) + [""]
  {
    var lines := PlainLines(events);
    JoinThenSeparator(lines, "\n");
    forall i | 0 <= i < |lines + [""]| ensures '\n' !in (lines + [""])[i] {
      if i < |lines| {
        assert lines[i] == events[i].0 + ": " + events[i].1;
      }
    }
    SplitJoin(lines + [""], '\n');
  }

  // ---------------------------------------------------------------------------
  // Dispatch

  /** What a formatter returns; the JSON rendering is kept as the value given to `json.dumps`. */
  datatype Rendered = TextOutput(text: string) | JsonOutput(document: Json)

  /** The `ValueError` raised for an unknown format name. */
  datatype FormatError = InvalidFormatType(formatType: string)
  {
    function Message(): string
    {
      "Invalid format type: " + formatType + ". Valid options are: " + Join(FormatterNames, ", ")
    }
  }

  /** The keys of the formatter table, in order. */
  const FormatterNames: seq<string> := ["meshtastic", "json", "csv", "plain"]

  /**
   * `format_events`: an unknown name is rejected before any formatter runs; a known
   * name returns exactly what the matching formatter returns.
   */
  function FormatEvents(events: seq<Event>, formatType: string := "meshtastic"): (r: Result<Rendered, FormatError>)
    ensures r.Err? <==> formatType !in FormatterNames
    ensures r.Err? ==> r.error == InvalidFormatType(formatType)
    ensures formatType == "meshtastic" ==> r == Ok(TextOutput(FormatMeshtastic(events)))
    ensures formatType == "json" ==> r == Ok(JsonOutput(FormatJson(events)))
    ensures formatType == "csv" ==> r == Ok(TextOutput(CsvDocument(events)))
    ensures formatType == "plain" ==> r == Ok(TextOutput(FormatPlain(events)))
  {
    if formatType == "meshtastic" then Ok(TextOutput(FormatMeshtastic(events)))
    else if formatType == "json" then Ok(JsonOutput(FormatJson(events)))
    else if formatType == "csv" then Ok(TextOutput(CsvDocument(events)))
    else if formatType == "plain" then Ok(TextOutput(FormatPlain(events)))
    else Err(InvalidFormatType(formatType))
  }

  /** The formatter table offers exactly the formats the command line accepts. */
  lemma FormatterNamesAreValidFormats()
    ensures FormatterNames == Config.ValidFormats
  {
  }

  /** The error message says "Invalid format type", names the offending value and lists the four options. */
  lemma InvalidFormatMessage(formatType: string)
    ensures var msg := InvalidFormatType(formatType).Message();
      && Contains(msg, "Invalid format type")
      && Contains(msg, formatType)
      && Contains(msg, "meshtastic, json, csv, plain")
  {
    var head := "Invalid format type: ";
    var options := "meshtastic, json, csv, plain";
    var mid := ". Valid options are: ";
    assert Join(FormatterNames, ", ") == options;
    var msg := InvalidFormatType(formatType).Message();
    assert msg == head + formatType + mid + options;
    assert msg[..19] == "Invalid format type";
    OccursContains(msg, "Invalid format type", 0);
    assert msg[|head|..|head| + |formatType|] == formatType;
    OccursContains(msg, formatType, |head|);
    assert msg[|msg| - |options|..] == options;
    OccursContains(msg, options, |msg| - |options|);
  }
}

/** The `/tags` handler (main.go:128-145): it takes the two filters from the
    query string, streams the tags, and turns an error into an error reply,
    logging a line when the client has gone away. */
module Handler {
  import opened Records
  import opened Stream

  /** A parsed query string: the values given for each key, in order. */
  type Query = map<string, seq<string>>

  /** The first value given for `key`, or the empty string when there is
      none (main.go:129-130). */
  function QueryGet(query: Query, key: string): (v: string)
    ensures key in query && query[key] != [] ==> v == query[key][0]
    ensures key !in query || query[key] == [] ==> v == ""
  {
    if key !in query then ""
    else
      var vs := query[key];
      if |vs| == 0 then "" else vs[0]
  }

  /** The query string as `r.URL.Query()` parses it: the key-value pairs in
      the order they appear, each value appended to its key's list. */
  function ParseQuery(pairs: seq<(string, string)>): Query
  {
    if pairs == [] then map[]
    else
      var q := ParseQuery(pairs[..|pairs| - 1]);
      var (k, v) := pairs[|pairs| - 1];
      q[k := (if k in q then q[k] else []) + [v]]
  }

  /** A parameter that does not appear in the query string reads as the
      empty string, which switches its filter off. */
  lemma {:induction false} AbsentParameterIsEmpty(pairs: seq<(string, string)>, key: string)
    requires forall i :: 0 <= i < |pairs| ==> pairs[i].0 != key
    ensures key !in ParseQuery(pairs)
    ensures QueryGet(ParseQuery(pairs), key) == ""
    decreases |pairs|
  {
    if pairs != [] {
      AbsentParameterIsEmpty(pairs[..|pairs| - 1], key);
    }
  }

  /** A parameter given several times reads as the value of its first
      occurrence in the query string. */
  lemma {:induction false} FirstOccurrenceFilters(pairs: seq<(string, string)>, key: string, j: nat)
    requires j < |pairs| && pairs[j].0 == key
    requires forall i :: 0 <= i < j ==> pairs[i].0 != key
    ensures key in ParseQuery(pairs) && ParseQuery(pairs)[key] != []
    ensures QueryGet(ParseQuery(pairs), key) == pairs[j].1
    decreases |pairs|
  {
    var init := pairs[..|pairs| - 1];
    if j < |pairs| - 1 {
      FirstOccurrenceFilters(init, key, j);
    } else {
      AbsentParameterIsEmpty(init, key);
    }
  }

  const ClientClosedText := "client closed connection"

  /** The text of each error that `streamTags` returns; a wrapped error
      reads as its prefix followed by the cause (main.go:60, 71, 80, 87, 116). */
  function ErrorText(e: StreamError): (t: string)
    ensures e == StreamingNotSupported ==> t == "streaming not supported"
    ensures e == ClientClosed ==> t == "client closed connection"
    ensures e.ReadXML? ==> t == "error reading XML: " + e.cause
    ensures e.DecodeTable? ==> t == "error decoding table: " + e.cause
    ensures e.EncodeJSON? ==> t == "error encoding JSON: " + e.cause
  {
    match e
    case StreamingNotSupported => "streaming not supported"
    case ClientClosed => ClientClosedText
    case ReadXML(cause) => "error reading XML: " + cause
    case DecodeTable(cause) => "error decoding table: " + cause
    case EncodeJSON(cause) => "error encoding JSON: " + cause
  }

  /** Comparing error texts tells a disconnected client apart from every
      other error, whatever the wrapped cause says. */
  lemma {:induction false} ClientClosedTextIsDistinct(e: StreamError)
    ensures ErrorText(e) == ClientClosedText <==> e == ClientClosed
  {
    var t := ErrorText(e);
    if e != ClientClosed {
      assert t[0] != ClientClosedText[0];
    }
  }

  /** The first and seventh characters of an error's text, which differ
      from one kind of error to the next. */
  function ErrorKey(e: StreamError): (char, char)
  {
    match e
    case StreamingNotSupported => ('s', 'i')
    case ClientClosed => ('c', ' ')
    case ReadXML(_) => ('e', 'r')
    case DecodeTable(_) => ('e', 'd')
    case EncodeJSON(_) => ('e', 'e')
  }

  lemma {:induction false} ErrorKeyOfText(e: StreamError)
    ensures |ErrorText(e)| > 6 && (ErrorText(e)[0], ErrorText(e)[6]) == ErrorKey(e)
  {
    match e
    case ReadXML(c) => assert ErrorText(e)[..7] == "error r";
    case DecodeTable(c) => assert ErrorText(e)[..7] == "error d";
    case EncodeJSON(c) => assert ErrorText(e)[..7] == "error e";
    case _ =>
  }

  /** An error's text determines the error: the reply names the step that
      failed and carries the cause verbatim. */
  lemma {:induction false} ErrorTextIdentifies(e1: StreamError, e2: StreamError)
    ensures ErrorText(e1) == ErrorText(e2) <==> e1 == e2
  {
    var t1, t2 := ErrorText(e1), ErrorText(e2);
    if t1 == t2 {
      ClientClosedTextIsDistinct(e1);
      ClientClosedTextIsDistinct(e2);
      ErrorKeyOfText(e1);
      ErrorKeyOfText(e2);
      if e1.ReadXML? || e1.DecodeTable? || e1.EncodeJSON? {
        var n := |t1| - |e1.cause|;
        assert e1.cause == t1[n..] == t2[n..] == e2.cause;
      }
    }
  }

  /** What the handler leaves behind: the chunks the stream wrote, the text
      `http.Error` appends for an error (its message and a newline), and
      whether the disconnect was logged. */
  datatype Reply = Reply(chunks: seq<Chunk>, errorBody: Option<string>, logged: bool)

  /** The handler's reaction to what `streamTags` did (main.go:137-144). It
      decides whether to log by comparing the error's text, as the handler
      does; the contract states the rule that comparison amounts to. */
  function Respond(run: Run): (r: Reply)
    ensures r.chunks == run.chunks
    ensures r.errorBody.Some? <==> run.outcome.Failed?
    ensures run.outcome.Failed? ==> r.errorBody.value == ErrorText(run.outcome.error) + "\n"
    ensures r.logged <==> run.outcome == Failed(ClientClosed)
  {
    match run.outcome
    case Ok => Reply(run.chunks, None, false)
    case Failed(e) =>
      ClientClosedTextIsDistinct(e);
      Reply(run.chunks, Some(ErrorText(e) + "\n"), ErrorText(e) == ClientClosedText)
  }

  /** `tagsHandler` (main.go:128-145). */
  method TagsHandler(query: Query, events: seq<Event>, flushable: bool, encodeFailure: Option<EncodeFailure>)
    returns (reply: Reply)
    ensures reply == Respond(StreamSpec(events, QueryGet(query, "table"), QueryGet(query, "tag"), flushable, encodeFailure))
  {
    var tableName := QueryGet(query, "table");
    var tagName := QueryGet(query, "tag");
    var out, outcome := StreamTags(events, tableName, tagName, flushable, encodeFailure);
    var errorBody: Option<string> := None;
    var logged := false;
    if outcome.Failed? {
      var text := ErrorText(outcome.error);
      if text == ClientClosedText {
        logged := true;
      }
      errorBody := Some(text + "\n");
    }
    reply := Reply(out, errorBody, logged);
  }

  /** A reply carries the closing marker exactly when it carries no error
      text: every error reply is a truncated document. */
  lemma {:induction false} ErrorReplyIsUnclosed(query: Query, events: seq<Event>, flushable: bool,
                                                encodeFailure: Option<EncodeFailure>)
    ensures var r := Respond(StreamSpec(events, QueryGet(query, "table"), QueryGet(query, "tag"), flushable, encodeFailure));
            Close in r.chunks <==> r.errorBody.None?
  {
    CloseOnlyOnCleanEnd(events, QueryGet(query, "table"), QueryGet(query, "tag"), flushable, encodeFailure);
  }

  /** A request that names neither a table nor a tag lists every tag of
      every table read before the stream stops, in document order. */
  lemma {:induction false} MissingParametersListEverything(query: Query, events: seq<Event>)
    requires "table" !in query && "tag" !in query
    ensures Selected(events, QueryGet(query, "table"), QueryGet(query, "tag"))
            == EveryTag(TablesOf(events[..TerminalIndex(events)]))
    ensures |Selected(events, QueryGet(query, "table"), QueryGet(query, "tag"))|
            == TagCount(TablesOf(events[..TerminalIndex(events)]))
  {
    EmptyFiltersEmitEveryTag(TablesOf(events[..TerminalIndex(events)]));
  }

  /** The tag of the example below: `Make`, a writable string with an
      English description. */
  function ExampleTag(): Tag
  {
    Tag("", "Make", "string", true, "", [Desc("en", "Manufacturer")])
  }

  function ExampleEvents(): seq<Event>
  {
    [StartElement("table", Decoded(Table("EXIF", [ExampleTag()])))]
  }

  function ExampleResult(): JSONTag
  {
    JSONTag(true, "EXIF:Make", "EXIF", map["en" := "Manufacturer"], "string")
  }

  lemma {:induction false} ExampleQuery(query: Query)
    requires query == map["table" := ["EXIF"]]
    ensures QueryGet(query, "table") == "EXIF" && QueryGet(query, "tag") == ""
  {
    assert |"tag"| != |"table"|;
  }

  lemma {:induction false} ExampleSelected()
    ensures Selected(ExampleEvents(), "EXIF", "") == [ExampleResult()]
  {
    var tag := ExampleTag();
    var table := Table("EXIF", [tag]);
    var events := ExampleEvents();
    var x := ExampleResult();
    assert Project(table, tag) == x by {
      assert tag.desc[..0] == [];
    }
    assert TerminalIndex(events) == 1;
    assert TablesOf(events[..1]) == [table] by {
      assert events[..1] == events;
      assert events[..0] == [];
    }
    assert TagResults(table, table.tags, "") == [x] by {
      assert table.tags[..0] == [];
    }
    assert ResultsOf([table], "EXIF", "") == [x] by {
      assert [table][..0] == [];
    }
  }

  lemma {:induction false} ExampleRun()
    ensures StreamSpec(ExampleEvents(), "EXIF", "", true, None)
            == Run([Open, Encoded(ExampleResult()), Flush, Close, Flush], Ok)
  {
    var events := ExampleEvents();
    var x := ExampleResult();
    ExampleSelected();
    assert TerminalIndex(events) == |events| by {
      assert events[1..] == [];
    }
    assert !EncodeFailsWithin(None, 1);
    assert Frame([x]) == [Encoded(x), Flush] by {
      assert [x][..0] == [];
    }
    var r := StreamSpec(events, "EXIF", "", true, None);
    assert r.chunks == [Open] + Frame([x]) + [Close, Flush] && r.outcome == Ok;
    assert [Open] + [Encoded(x), Flush] + [Close, Flush] == [Open, Encoded(x), Flush, Close, Flush];
  }

  /** A request for the `EXIF` table, whose one tag `Make` has an English
      description, gets that tag as the whole, closed document. */
  lemma {:induction false} ExifMakeExample(query: Query)
    requires query == map["table" := ["EXIF"]]
    ensures Respond(StreamSpec(ExampleEvents(), QueryGet(query, "table"), QueryGet(query, "tag"), true, None))
            == Reply([Open, Encoded(ExampleResult()), Flush, Close, Flush], None, false)
  {
    ExampleQuery(query);
    ExampleRun();
  }
}

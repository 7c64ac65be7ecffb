/** The streaming translator `streamTags` (main.go:43-126): it reads the
    external tool's XML token by token, decodes each `<table>` element,
    filters its tags by table name and tag name, and writes every selected
    tag as a JSON result inside the `{"tags": [` ... `]}` frame.

    The tool's output is given as the sequence of what each turn of the read
    loop observes; running out of events is the decoder's `io.EOF`. What a
    call writes to, or does to, the response writer is a sequence of chunks. */
module Stream {
  import opened Records

  /** What `DecodeElement` yields for a start element. */
  datatype DecodeResult = Decoded(table: Table) | DecodeFailed(cause: string)

  /** What one turn of the read loop observes: a cancelled request context
      (seen before the token is read), a read error other than `io.EOF`, a
      start element (with what decoding it as a table would yield; consulted
      only for `table` elements), or any other token. */
  datatype Event =
    | Cancelled
    | ReadFailed(cause: string)
    | StartElement(local: string, element: DecodeResult)
    | OtherToken

  /** The first `Encode` call that fails: its 0-based index among the calls
      and the writer's error. */
  datatype EncodeFailure = EncodeFailure(call: nat, cause: string)

  /** What a call writes to, or does to, the response writer: the opening
      `{"tags": [`, a `,`, one encoded result, a flush, the closing `]}`. */
  datatype Chunk = Open | Comma | Encoded(result: JSONTag) | Flush | Close

  datatype StreamError =
    | StreamingNotSupported
    | ClientClosed
    | ReadXML(cause: string)
    | DecodeTable(cause: string)
    | EncodeJSON(cause: string)

  datatype Outcome = Ok | Failed(error: StreamError)

  /** Everything one call writes, and what it returns. */
  datatype Run = Run(chunks: seq<Chunk>, outcome: Outcome)

  const TableElement: string := "table"

  predicate IsTableStart(e: Event)
  {
    e.StartElement? && e.local == TableElement
  }

  /** An event after which the loop reads nothing more. */
  predicate IsTerminal(e: Event)
  {
    e.Cancelled? || e.ReadFailed? || (IsTableStart(e) && e.element.DecodeFailed?)
  }

  function TerminalError(e: Event): StreamError
    requires IsTerminal(e)
  {
    if e.Cancelled? then ClientClosed
    else if e.ReadFailed? then ReadXML(e.cause)
    else DecodeTable(e.element.cause)
  }

  /** The position of the first terminal event, or the length if there is none. */
  function TerminalIndex(events: seq<Event>): (k: nat)
    ensures k <= |events|
    ensures k < |events| ==> IsTerminal(events[k])
  {
    if events == [] || IsTerminal(events[0]) then 0 else 1 + TerminalIndex(events[1..])
  }

  /** `TerminalIndex` finds the first terminal event. */
  lemma {:induction false} TerminalIndexIsFirst(events: seq<Event>)
    ensures forall i :: 0 <= i < TerminalIndex(events) ==> !IsTerminal(events[i])
    decreases |events|
  {
    if events != [] && !IsTerminal(events[0]) {
      TerminalIndexIsFirst(events[1..]);
      assert forall i :: 1 <= i < |events| ==> events[i] == events[1..][i - 1];
    }
  }

  /** The tables decoded from `events`, in stream order. */
  function TablesOf(events: seq<Event>): seq<Table>
  {
    if events == [] then []
    else
      var last := events[|events| - 1];
      TablesOf(events[..|events| - 1])
        + (if IsTableStart(last) && last.element.Decoded? then [last.element.table] else [])
  }

  /** The table filter: empty, or exactly the table's name. A table is
      skipped exactly when the guard of main.go:89-91 holds. */
  predicate TableSelected(tableName: string, table: Table): (b: bool)
    ensures !b <==> table.name != tableName && tableName != ""
  {
    tableName == "" || table.name == tableName
  }

  /** The tag filter: empty, or exactly the tag's name. A tag is skipped
      exactly when the guard of main.go:93-95 holds. */
  predicate TagSelected(tagName: string, tag: Tag): (b: bool)
    ensures !b <==> tag.name != tagName && tagName != ""
  {
    tagName == "" || tag.name == tagName
  }

  /** The results for the selected tags of `tags`, found in `table`. */
  function TagResults(table: Table, tags: seq<Tag>, tagName: string): seq<JSONTag>
  {
    if tags == [] then []
    else
      var last := tags[|tags| - 1];
      TagResults(table, tags[..|tags| - 1], tagName)
        + (if TagSelected(tagName, last) then [Project(table, last)] else [])
  }

  function TableResults(table: Table, tableName: string, tagName: string): seq<JSONTag>
  {
    if TableSelected(tableName, table) then TagResults(table, table.tags, tagName) else []
  }

  /** The results for a sequence of tables, in order. */
  function ResultsOf(tables: seq<Table>, tableName: string, tagName: string): seq<JSONTag>
  {
    if tables == [] then []
    else
      ResultsOf(tables[..|tables| - 1], tableName, tagName)
        + TableResults(tables[|tables| - 1], tableName, tagName)
  }

  /** The results the loop reaches before it stops. */
  function Selected(events: seq<Event>, tableName: string, tagName: string): seq<JSONTag>
  {
    ResultsOf(TablesOf(events[..TerminalIndex(events)]), tableName, tagName)
  }

  /** The chunks written for a sequence of results: each result encoded and
      flushed, with a comma before every result but the first. */
  function Frame(rs: seq<JSONTag>): seq<Chunk>
  {
    if rs == [] then []
    else
      Frame(rs[..|rs| - 1]) + (if |rs| > 1 then [Comma] else []) + [Encoded(rs[|rs| - 1]), Flush]
  }

  /** The encoded results among `chunks`, in order. */
  function Emitted(chunks: seq<Chunk>): seq<JSONTag>
  {
    if chunks == [] then []
    else
      var last := chunks[|chunks| - 1];
      Emitted(chunks[..|chunks| - 1]) + (if last.Encoded? then [last.result] else [])
  }

  predicate EncodeFailsWithin(encodeFailure: Option<EncodeFailure>, n: nat)
  {
    encodeFailure.Some? && encodeFailure.value.call < n
  }

  /** What `streamTags` writes and returns, given the events it observes,
      the two filters, whether the writer can flush, and which `Encode`
      call fails, if any. */
  function StreamSpec(events: seq<Event>, tableName: string, tagName: string,
                      flushable: bool, encodeFailure: Option<EncodeFailure>): (r: Run)
    ensures r.chunks != [] && r.chunks[0] == Open
    ensures !flushable ==> r == Run([Open], Failed(StreamingNotSupported))
  {
    if !flushable then Run([Open], Failed(StreamingNotSupported))
    else
      var k := TerminalIndex(events);
      var rs := Selected(events, tableName, tagName);
      if EncodeFailsWithin(encodeFailure, |rs|) then
        var f := encodeFailure.value.call;
        Run([Open] + Frame(rs[..f]) + (if f > 0 then [Comma] else []),
            Failed(EncodeJSON(encodeFailure.value.cause)))
      else if k < |events| then
        Run([Open] + Frame(rs), Failed(TerminalError(events[k])))
      else
        Run([Open] + Frame(rs) + [Close, Flush], Ok)
  }

  // ---------------------------------------------------------------------
  // Order: every stage maps concatenation to concatenation.

  lemma {:induction false} TerminalIndexAppend(a: seq<Event>, b: seq<Event>)
    ensures TerminalIndex(a + b) == if TerminalIndex(a) < |a| then TerminalIndex(a) else |a| + TerminalIndex(b)
    decreases |a|
  {
    if a != [] && !IsTerminal(a[0]) {
      assert (a + b)[1..] == a[1..] + b;
      TerminalIndexAppend(a[1..], b);
    } else if a == [] {
      assert a + b == b;
    }
  }

  /** Tables are decoded in stream order. */
  lemma {:induction false} TablesOfAppend(a: seq<Event>, b: seq<Event>)
    ensures TablesOf(a + b) == TablesOf(a) + TablesOf(b)
    decreases |b|
  {
    if b == [] {
      assert a + b == a;
    } else {
      var b' := b[..|b| - 1];
      assert (a + b)[..|a + b| - 1] == a + b';
      TablesOfAppend(a, b');
    }
  }

  /** Tags are projected in the order they occur in their table. */
  lemma {:induction false} TagResultsAppend(table: Table, a: seq<Tag>, b: seq<Tag>, tagName: string)
    ensures TagResults(table, a + b, tagName) == TagResults(table, a, tagName) + TagResults(table, b, tagName)
    decreases |b|
  {
    if b == [] {
      assert a + b == a;
    } else {
      var b' := b[..|b| - 1];
      assert (a + b)[..|a + b| - 1] == a + b';
      TagResultsAppend(table, a, b', tagName);
    }
  }

  lemma {:induction false} ResultsOfSnoc(tables: seq<Table>, tableName: string, tagName: string)
    requires tables != []
    ensures var n := |tables| - 1;
            ResultsOf(tables, tableName, tagName)
            == ResultsOf(tables[..n], tableName, tagName) + TableResults(tables[n], tableName, tagName)
  {
  }

  lemma {:induction false} ConcatAssoc<T>(x: seq<T>, y: seq<T>, z: seq<T>)
    ensures (x + y) + z == x + (y + z)
  {
  }

  /** Results follow the order of their tables. */
  lemma {:induction false} ResultsOfAppend(a: seq<Table>, b: seq<Table>, tableName: string, tagName: string)
    ensures ResultsOf(a + b, tableName, tagName) == ResultsOf(a, tableName, tagName) + ResultsOf(b, tableName, tagName)
    decreases |b|
  {
    if b == [] {
      assert a + b == a;
    } else {
      var b', t := b[..|b| - 1], b[|b| - 1];
      var ab := a + b;
      assert ab[..|ab| - 1] == a + b' && ab[|ab| - 1] == t;
      ResultsOfSnoc(ab, tableName, tagName);
      ResultsOfSnoc(b, tableName, tagName);
      ResultsOfAppend(a, b', tableName, tagName);
      ConcatAssoc(ResultsOf(a, tableName, tagName), ResultsOf(b', tableName, tagName), TableResults(t, tableName, tagName));
    }
  }

  /** The results of a stream that runs through `a` without stopping and
      then goes on with `b` are those of `a` followed by those of `b`. */
  lemma {:induction false} SelectedAppend(a: seq<Event>, b: seq<Event>, tableName: string, tagName: string)
    requires TerminalIndex(a) == |a|
    ensures Selected(a + b, tableName, tagName)
         == ResultsOf(TablesOf(a), tableName, tagName) + Selected(b, tableName, tagName)
  {
    var k := TerminalIndex(b);
    TerminalIndexAppend(a, b);
    PrefixOfAppend(a, b, k);
    assert (a + b)[..TerminalIndex(a + b)] == a + b[..k];
    TablesOfAppend(a, b[..k]);
    ResultsOfAppend(TablesOf(a), TablesOf(b[..k]), tableName, tagName);
    assert Selected(b, tableName, tagName) == ResultsOf(TablesOf(b[..k]), tableName, tagName);
  }

  lemma {:induction false} PrefixOfAppend<T>(a: seq<T>, b: seq<T>, k: nat)
    requires k <= |b|
    ensures (a + b)[..|a| + k] == a + b[..k]
  {
  }

  /** What the loop has produced after `n` events is a prefix of everything
      it produces. */
  lemma {:induction false} SelectedPrefix(events: seq<Event>, n: nat, tableName: string, tagName: string)
    requires n <= TerminalIndex(events)
    ensures ResultsOf(TablesOf(events[..n]), tableName, tagName) <= Selected(events, tableName, tagName)
  {
    var k := TerminalIndex(events);
    assert events[..k] == events[..n] + events[n..k];
    TablesOfAppend(events[..n], events[n..k]);
    ResultsOfAppend(TablesOf(events[..n]), TablesOf(events[n..k]), tableName, tagName);
  }

  // ---------------------------------------------------------------------
  // Filtering and projection.

  lemma {:induction false} TagResultsMembership(table: Table, tags: seq<Tag>, tagName: string, r: JSONTag)
    ensures r in TagResults(table, tags, tagName)
        <==> exists j :: 0 <= j < |tags| && TagSelected(tagName, tags[j]) && r == Project(table, tags[j])
    decreases |tags|
  {
    if tags != [] {
      var init := tags[..|tags| - 1];
      TagResultsMembership(table, init, tagName, r);
      if r in TagResults(table, tags, tagName) && r !in TagResults(table, init, tagName) {
        assert r == Project(table, tags[|tags| - 1]);
      }
      if exists j :: 0 <= j < |tags| && TagSelected(tagName, tags[j]) && r == Project(table, tags[j]) {
        var j :| 0 <= j < |tags| && TagSelected(tagName, tags[j]) && r == Project(table, tags[j]);
        if j < |tags| - 1 {
          assert init[j] == tags[j];
        }
      }
    }
  }

  /** A result is emitted exactly when it is the projection of a tag that
      passes the tag filter, inside a table that passes the table filter. */
  lemma {:induction false} ResultsMembership(tables: seq<Table>, tableName: string, tagName: string, r: JSONTag)
    ensures r in ResultsOf(tables, tableName, tagName)
        <==> exists i, j :: 0 <= i < |tables| && 0 <= j < |tables[i].tags|
                            && TableSelected(tableName, tables[i]) && TagSelected(tagName, tables[i].tags[j])
                            && r == Project(tables[i], tables[i].tags[j])
    decreases |tables|
  {
    if tables != [] {
      var init, last := tables[..|tables| - 1], tables[|tables| - 1];
      ResultsMembership(init, tableName, tagName, r);
      TagResultsMembership(last, last.tags, tagName, r);
      if exists i, j :: 0 <= i < |tables| && 0 <= j < |tables[i].tags|
                        && TableSelected(tableName, tables[i]) && TagSelected(tagName, tables[i].tags[j])
                        && r == Project(tables[i], tables[i].tags[j]) {
        var i, j :| 0 <= i < |tables| && 0 <= j < |tables[i].tags|
                    && TableSelected(tableName, tables[i]) && TagSelected(tagName, tables[i].tags[j])
                    && r == Project(tables[i], tables[i].tags[j]);
        if i < |tables| - 1 {
          assert init[i] == tables[i];
        }
      }
    }
  }

  /** With a non-empty filter every result comes from a table, and has a tag
      name, that equals the filter exactly. */
  lemma {:induction false} FiltersAreExact(tables: seq<Table>, tableName: string, tagName: string, r: JSONTag)
    requires r in ResultsOf(tables, tableName, tagName)
    ensures tableName != "" ==> r.group == tableName
    ensures tagName != "" ==> r.path == r.group + ":" + tagName
  {
    ResultsMembership(tables, tableName, tagName, r);
  }

  /** The (table, tag) positions that pass both filters. */
  ghost function SelectedPairs(tables: seq<Table>, tableName: string, tagName: string): set<(int, int)>
  {
    set i, j | 0 <= i < |tables| && 0 <= j < |tables[i].tags|
               && TableSelected(tableName, tables[i]) && TagSelected(tagName, tables[i].tags[j]) :: (i, j)
  }

  ghost function RowPairs(i: int, tags: seq<Tag>, tagName: string): set<(int, int)>
  {
    set j | 0 <= j < |tags| && TagSelected(tagName, tags[j]) :: (i, j)
  }

  /** The positions of a non-empty tag sequence: those of all tags but the
      last, and the last one if it passes the tag filter. */
  lemma {:induction false} RowPairsSnoc(i: int, tags: seq<Tag>, tagName: string)
    requires tags != []
    ensures var n := |tags| - 1;
            var extra := if TagSelected(tagName, tags[n]) then {(i, n)} else {};
            && RowPairs(i, tags, tagName) == RowPairs(i, tags[..n], tagName) + extra
            && (i, n) !in RowPairs(i, tags[..n], tagName)
  {
    var n := |tags| - 1;
    var init := tags[..n];
    var extra := if TagSelected(tagName, tags[n]) then {(i, n)} else {};
    forall p | p in RowPairs(i, tags, tagName) ensures p in RowPairs(i, init, tagName) + extra {
      var j :| 0 <= j < |tags| && TagSelected(tagName, tags[j]) && p == (i, j);
      if j < n { assert init[j] == tags[j]; }
    }
    forall p | p in RowPairs(i, init, tagName) ensures p in RowPairs(i, tags, tagName) {
      var j :| 0 <= j < |init| && TagSelected(tagName, init[j]) && p == (i, j);
      assert tags[j] == init[j];
    }
  }

  lemma {:induction false} RowPairsCount(table: Table, i: int, tags: seq<Tag>, tagName: string)
    ensures |RowPairs(i, tags, tagName)| == |TagResults(table, tags, tagName)|
    decreases |tags|
  {
    if tags == [] {
      assert RowPairs(i, tags, tagName) == {};
    } else {
      RowPairsCount(table, i, tags[..|tags| - 1], tagName);
      RowPairsSnoc(i, tags, tagName);
    }
  }

  /** The pairs of a non-empty table sequence: those of all tables but the
      last, and those of the last table's row. */
  lemma {:induction false} SelectedPairsSnoc(tables: seq<Table>, tableName: string, tagName: string)
    requires tables != []
    ensures var n := |tables| - 1;
            var row := if TableSelected(tableName, tables[n]) then RowPairs(n, tables[n].tags, tagName) else {};
            && SelectedPairs(tables, tableName, tagName) == SelectedPairs(tables[..n], tableName, tagName) + row
            && SelectedPairs(tables[..n], tableName, tagName) !! row
  {
    var n := |tables| - 1;
    var init := tables[..n];
    var row := if TableSelected(tableName, tables[n]) then RowPairs(n, tables[n].tags, tagName) else {};
    forall p | p in SelectedPairs(tables, tableName, tagName)
      ensures p in SelectedPairs(init, tableName, tagName) + row
    {
      var i, j :| 0 <= i < |tables| && 0 <= j < |tables[i].tags|
                  && TableSelected(tableName, tables[i]) && TagSelected(tagName, tables[i].tags[j]) && p == (i, j);
      if i < n { assert init[i] == tables[i]; }
    }
    forall p | p in SelectedPairs(init, tableName, tagName)
      ensures p in SelectedPairs(tables, tableName, tagName) && p.0 < n
    {
      var i, j :| 0 <= i < |init| && 0 <= j < |init[i].tags|
                  && TableSelected(tableName, init[i]) && TagSelected(tagName, init[i].tags[j]) && p == (i, j);
      assert tables[i] == init[i];
    }
  }

  /** The number of results equals the number of (table, tag) pairs that pass
      both filters. */
  lemma {:induction false} ResultCountIsSelectedPairs(tables: seq<Table>, tableName: string, tagName: string)
    ensures |ResultsOf(tables, tableName, tagName)| == |SelectedPairs(tables, tableName, tagName)|
    decreases |tables|
  {
    if tables == [] {
      assert SelectedPairs(tables, tableName, tagName) == {};
    } else {
      var n := |tables| - 1;
      var init, last := tables[..n], tables[n];
      ResultCountIsSelectedPairs(init, tableName, tagName);
      RowPairsCount(last, n, last.tags, tagName);
      SelectedPairsSnoc(tables, tableName, tagName);
    }
  }

  function TagCount(tables: seq<Table>): nat
  {
    if tables == [] then 0 else TagCount(tables[..|tables| - 1]) + |tables[|tables| - 1].tags|
  }

  /** The projection of every tag of `table`, in the table's order. */
  function Projections(table: Table): seq<JSONTag>
  {
    seq(|table.tags|, i requires 0 <= i < |table.tags| => Project(table, table.tags[i]))
  }

  /** The projection of every tag of every table, table by table. */
  function EveryTag(tables: seq<Table>): seq<JSONTag>
  {
    if tables == [] then [] else EveryTag(tables[..|tables| - 1]) + Projections(tables[|tables| - 1])
  }

  /** With an empty tag filter every tag gives its result, in order. */
  lemma {:induction false} NoTagFilterKeepsAll(table: Table, tags: seq<Tag>)
    ensures |TagResults(table, tags, "")| == |tags|
    ensures forall i :: 0 <= i < |tags| ==> TagResults(table, tags, "")[i] == Project(table, tags[i])
    decreases |tags|
  {
    if tags != [] {
      var init := tags[..|tags| - 1];
      NoTagFilterKeepsAll(table, init);
      assert TagResults(table, tags, "") == TagResults(table, init, "") + [Project(table, tags[|tags| - 1])];
    }
  }

  /** With both filters empty every tag of every table is emitted, in
      document order. */
  lemma {:induction false} EmptyFiltersEmitEveryTag(tables: seq<Table>)
    ensures ResultsOf(tables, "", "") == EveryTag(tables)
    ensures |ResultsOf(tables, "", "")| == TagCount(tables)
    decreases |tables|
  {
    if tables != [] {
      var last := tables[|tables| - 1];
      EmptyFiltersEmitEveryTag(tables[..|tables| - 1]);
      NoTagFilterKeepsAll(last, last.tags);
      assert TableResults(last, "", "") == Projections(last);
    }
  }

  // ---------------------------------------------------------------------
  // Framing.

  lemma {:induction false} FrameSnoc(rs: seq<JSONTag>, x: JSONTag)
    ensures Frame(rs + [x]) == Frame(rs) + (if rs == [] then [] else [Comma]) + [Encoded(x), Flush]
    ensures [Open] + Frame(rs) + (if rs == [] then [] else [Comma]) + [Encoded(x), Flush] == [Open] + Frame(rs + [x])
  {
    assert (rs + [x])[..|rs|] == rs;
  }

  /** The layout of the framed results: result `k` is encoded at position
      `3k` and flushed right after, and every result but the first has a
      comma just before it. */
  lemma {:induction false} FrameLayout(rs: seq<JSONTag>)
    ensures |Frame(rs)| == if rs == [] then 0 else 3 * |rs| - 1
    ensures forall p :: 0 <= p < |Frame(rs)| ==>
              Frame(rs)[p] == if p % 3 == 0 then Encoded(rs[p / 3]) else if p % 3 == 1 then Flush else Comma
    decreases |rs|
  {
    if rs != [] {
      var n := |rs| - 1;
      var init := rs[..n];
      FrameLayout(init);
      var m := |Frame(init)|;
      var sep: seq<Chunk> := if n > 0 then [Comma] else [];
      assert Frame(rs) == Frame(init) + sep + [Encoded(rs[n]), Flush];
      forall p | 0 <= p < |Frame(rs)|
        ensures Frame(rs)[p] == if p % 3 == 0 then Encoded(rs[p / 3]) else if p % 3 == 1 then Flush else Comma
      {
        if p < m {
          assert Frame(rs)[p] == Frame(init)[p];
          assert init[p / 3] == rs[p / 3];
        } else if n > 0 && p == m {
          assert p == 3 * n - 1;
        } else if p == m + |sep| {
          assert p == 3 * n && p / 3 == n;
        } else {
          assert p == 3 * n + 1;
        }
      }
    }
  }

  lemma {:induction false} EmittedAppend(a: seq<Chunk>, b: seq<Chunk>)
    ensures Emitted(a + b) == Emitted(a) + Emitted(b)
    decreases |b|
  {
    if b == [] {
      assert a + b == a;
    } else {
      var b' := b[..|b| - 1];
      assert (a + b)[..|a + b| - 1] == a + b';
      EmittedAppend(a, b');
    }
  }

  /** Reading the encoded results back out of the frame gives the results. */
  lemma {:induction false} FrameRoundTrip(rs: seq<JSONTag>)
    ensures Emitted(Frame(rs)) == rs
    decreases |rs|
  {
    if rs != [] {
      var init, x := rs[..|rs| - 1], rs[|rs| - 1];
      FrameRoundTrip(init);
      var sep: seq<Chunk> := if |rs| > 1 then [Comma] else [];
      EmittedAppend(Frame(init) + sep, [Encoded(x), Flush]);
      EmittedAppend(Frame(init), sep);
      assert Emitted([Encoded(x), Flush]) == [x] by {
        assert [Encoded(x), Flush][..1] == [Encoded(x)];
        assert [Encoded(x)][..0] == [];
      }
      assert rs == init + [x];
    }
  }

  lemma {:induction false} CloseNotInFrame(rs: seq<JSONTag>)
    ensures Close !in Frame(rs) && Open !in Frame(rs)
  {
    FrameLayout(rs);
  }

  // ---------------------------------------------------------------------
  // The whole stream.

  /** The closing `]}` is written exactly when the call succeeds, and it
      succeeds exactly when the writer can flush, the stream ends cleanly
      (no cancellation, read error or table-decode error) and every `Encode`
      call succeeds. A successful body is the complete document. */
  lemma {:induction false} CloseOnlyOnCleanEnd(events: seq<Event>, tableName: string, tagName: string,
                            flushable: bool, encodeFailure: Option<EncodeFailure>)
    ensures var r := StreamSpec(events, tableName, tagName, flushable, encodeFailure);
            && (Close in r.chunks <==> r.outcome == Ok)
            && (r.outcome == Ok <==> flushable && TerminalIndex(events) == |events|
                                     && !EncodeFailsWithin(encodeFailure, |Selected(events, tableName, tagName)|))
            && (r.outcome == Ok ==>
                  r.chunks == [Open] + Frame(Selected(events, tableName, tagName)) + [Close, Flush])
  {
    var rs := Selected(events, tableName, tagName);
    CloseNotInFrame(rs);
    if EncodeFailsWithin(encodeFailure, |rs|) {
      CloseNotInFrame(rs[..encodeFailure.value.call]);
    }
  }

  lemma {:induction false} EmittedAfterOpen(rs: seq<JSONTag>, tail: seq<Chunk>)
    requires tail == [] || tail == [Comma] || tail == [Close, Flush]
    ensures Emitted([Open] + Frame(rs) + tail) == rs
  {
    assert Emitted([Open]) == [] by { assert [Open][..0] == []; }
    EmittedAppend([Open], Frame(rs));
    FrameRoundTrip(rs);
    EmittedAppend([Open] + Frame(rs), tail);
    assert Emitted(tail) == [] by {
      if tail != [] {
        assert tail[..|tail| - 1] == [] || tail[..|tail| - 1] == [Close];
        assert [Close][..0] == [];
      }
    }
  }

  /** The body holds exactly the selected results, in stream order, up to
      the first failing `Encode` call; nothing is emitted when the writer
      cannot flush. */
  lemma {:induction false} EmittedAreSelected(events: seq<Event>, tableName: string, tagName: string,
                           flushable: bool, encodeFailure: Option<EncodeFailure>)
    ensures var r := StreamSpec(events, tableName, tagName, flushable, encodeFailure);
            var rs := Selected(events, tableName, tagName);
            && Emitted(r.chunks) <= rs
            && (!flushable ==> Emitted(r.chunks) == [])
            && (flushable && !EncodeFailsWithin(encodeFailure, |rs|) ==> Emitted(r.chunks) == rs)
            && (flushable && EncodeFailsWithin(encodeFailure, |rs|) ==> |Emitted(r.chunks)| == encodeFailure.value.call)
  {
    var rs := Selected(events, tableName, tagName);
    if !flushable {
      EmittedAfterOpen([], []);
    } else if EncodeFailsWithin(encodeFailure, |rs|) {
      var f := encodeFailure.value.call;
      EmittedAfterOpen(rs[..f], if f > 0 then [Comma] else []);
    } else if TerminalIndex(events) < |events| {
      EmittedAfterOpen(rs, []);
      assert [Open] + Frame(rs) + [] == [Open] + Frame(rs);
    } else {
      EmittedAfterOpen(rs, [Close, Flush]);
    }
  }

  /** Once the loop meets a cancellation, a read error or a table that does
      not decode, it reads nothing further: the events after it change
      nothing, no closing `]}` is written, and, unless the writer could not
      flush or an `Encode` call failed first, the call returns that event's
      error (for cancellation, "client closed connection"). */
  lemma {:induction false} StopsAtFirstTerminal(events: seq<Event>, k: nat, tableName: string, tagName: string,
                             flushable: bool, encodeFailure: Option<EncodeFailure>)
    requires k < |events| && IsTerminal(events[k])
    requires forall i :: 0 <= i < k ==> !IsTerminal(events[i])
    ensures StreamSpec(events, tableName, tagName, flushable, encodeFailure)
         == StreamSpec(events[..k + 1], tableName, tagName, flushable, encodeFailure)
    ensures Close !in StreamSpec(events, tableName, tagName, flushable, encodeFailure).chunks
    ensures flushable && !EncodeFailsWithin(encodeFailure, |ResultsOf(TablesOf(events[..k]), tableName, tagName)|) ==>
              StreamSpec(events, tableName, tagName, flushable, encodeFailure).outcome
              == Failed(TerminalError(events[k]))
  {
    var short := events[..k + 1];
    assert short[..k] == events[..k];
    TerminalIndexIsFirst(events);
    TerminalIndexIsFirst(short);
    assert TerminalIndex(short) == k;
    CloseOnlyOnCleanEnd(events, tableName, tagName, flushable, encodeFailure);
  }

  /** Cancellation is only seen between tokens (main.go:68-73), never inside
      the tag loop (main.go:92-119): a table read before the client goes
      away is written in full, every selected tag encoded and flushed, and
      only then does the call return "client closed connection". */
  lemma {:induction false} CancelAfterWholeTable(t: Table, tableName: string, tagName: string)
    ensures StreamSpec([StartElement(TableElement, Decoded(t)), Cancelled], tableName, tagName, true, None)
            == Run([Open] + Frame(TableResults(t, tableName, tagName)), Failed(ClientClosed))
  {
    var events := [StartElement(TableElement, Decoded(t)), Cancelled];
    assert TerminalIndex(events) == 1 by {
      assert events[1..] == [Cancelled];
    }
    assert TablesOf(events[..1]) == [t] by {
      assert events[..1][..0] == [];
    }
    assert ResultsOf([t], tableName, tagName) == TableResults(t, tableName, tagName) by {
      assert [t][..0] == [];
    }
  }

  predicate Ignorable(x: Event)
  {
    x.OtherToken? || (x.StartElement? && x.local != TableElement)
  }

  lemma {:induction false} TablesOfIgnorable(a: seq<Event>, x: Event, c: seq<Event>)
    requires Ignorable(x)
    ensures TablesOf(a + [x] + c) == TablesOf(a + c)
  {
    TablesOfAppend(a + [x], c);
    TablesOfAppend(a, [x]);
    TablesOfAppend(a, c);
    assert TablesOf([x]) == [] by { assert [x][..0] == []; }
  }

  lemma {:induction false} IgnorableAfterStop(a: seq<Event>, x: Event, b: seq<Event>)
    requires TerminalIndex(a) < |a|
    ensures var kw, ko := TerminalIndex(a + [x] + b), TerminalIndex(a + b);
            && kw == ko == TerminalIndex(a)
            && (a + [x] + b)[kw] == (a + b)[ko]
            && (a + [x] + b)[..kw] == (a + b)[..ko]
  {
    var ka := TerminalIndex(a);
    assert a + [x] + b == a + ([x] + b);
    TerminalIndexAppend(a, [x] + b);
    TerminalIndexAppend(a, b);
    assert (a + [x] + b)[..ka] == a[..ka] == (a + b)[..ka];
  }

  lemma {:induction false} TerminalIndexSkip(a: seq<Event>, x: Event, b: seq<Event>)
    requires !IsTerminal(x) && TerminalIndex(a) == |a|
    ensures TerminalIndex(a + [x] + b) == |a| + 1 + TerminalIndex(b)
  {
    assert a + [x] + b == a + ([x] + b);
    TerminalIndexAppend(a, [x] + b);
    assert ([x] + b)[1..] == b;
  }

  lemma {:induction false} IgnorableBeforeStop(a: seq<Event>, x: Event, b: seq<Event>)
    requires Ignorable(x) && TerminalIndex(a) == |a|
    ensures var kb := TerminalIndex(b);
            && TerminalIndex(a + [x] + b) == |a| + 1 + kb
            && TerminalIndex(a + b) == |a| + kb
            && (a + [x] + b)[..|a| + 1 + kb] == a + [x] + b[..kb]
            && (a + b)[..|a| + kb] == a + b[..kb]
  {
    var kb := TerminalIndex(b);
    TerminalIndexSkip(a, x, b);
    TerminalIndexAppend(a, b);
    assert (a + [x] + b)[..|a| + 1 + kb] == a + [x] + b[..kb];
    assert (a + b)[..|a| + kb] == a + b[..kb];
  }

  lemma {:induction false} IgnorableIsInvisible(a: seq<Event>, x: Event, b: seq<Event>)
    requires Ignorable(x)
    ensures var kw, ko := TerminalIndex(a + [x] + b), TerminalIndex(a + b);
            && (kw < |a + [x] + b| <==> ko < |a + b|)
            && (kw < |a + [x] + b| ==> (a + [x] + b)[kw] == (a + b)[ko])
            && TablesOf((a + [x] + b)[..kw]) == TablesOf((a + b)[..ko])
  {
    if TerminalIndex(a) < |a| {
      IgnorableAfterStop(a, x, b);
    } else {
      IgnorableBeforeStop(a, x, b);
      var kb := TerminalIndex(b);
      TablesOfIgnorable(a, x, b[..kb]);
      if kb < |b| {
        assert (a + [x] + b)[|a| + 1 + kb] == b[kb] == (a + b)[|a| + kb];
      }
    }
  }

  /** A token that is neither a `table` start element, a read error nor a
      cancellation writes nothing and changes nothing that follows. */
  lemma {:induction false} IgnoredTokensWriteNothing(a: seq<Event>, x: Event, b: seq<Event>, tableName: string, tagName: string,
                                  flushable: bool, encodeFailure: Option<EncodeFailure>)
    requires Ignorable(x)
    ensures StreamSpec(a + [x] + b, tableName, tagName, flushable, encodeFailure)
         == StreamSpec(a + b, tableName, tagName, flushable, encodeFailure)
  {
    IgnorableIsInvisible(a, x, b);
  }

  // ---------------------------------------------------------------------
  // The loop itself.

  /** One turn of the loop past a non-terminal event adds the results of
      the table it decodes, if any. */
  lemma {:induction false} StepResults(events: seq<Event>, i: nat, tableName: string, tagName: string)
    requires i < |events|
    ensures var ev := events[i];
            ResultsOf(TablesOf(events[..i + 1]), tableName, tagName)
            == ResultsOf(TablesOf(events[..i]), tableName, tagName)
               + (if IsTableStart(ev) && ev.element.Decoded? then TableResults(ev.element.table, tableName, tagName) else [])
  {
    var ev := events[i];
    assert events[..i + 1][..i] == events[..i];
    if IsTableStart(ev) && ev.element.Decoded? {
      var table := ev.element.table;
      assert TablesOf(events[..i + 1]) == TablesOf(events[..i]) + [table];
      ResultsOfAppend(TablesOf(events[..i]), [table], tableName, tagName);
      assert [table][..0] == [];
    } else {
      assert TablesOf(events[..i + 1]) == TablesOf(events[..i]);
    }
  }

  /** The loop goes on past a non-terminal event it reaches. */
  lemma {:induction false} Advance(events: seq<Event>, i: nat)
    requires i < |events| && i <= TerminalIndex(events)
    ensures !IsTerminal(events[i]) ==> i + 1 <= TerminalIndex(events)
  {
  }

  /** The loop stops at event `i` with the results produced so far. */
  lemma {:induction false} StopAt(events: seq<Event>, i: nat, tableName: string, tagName: string, encodeFailure: Option<EncodeFailure>)
    requires i < |events| && IsTerminal(events[i])
    requires i <= TerminalIndex(events)
    requires !EncodeFailsWithin(encodeFailure, |ResultsOf(TablesOf(events[..i]), tableName, tagName)|)
    ensures StreamSpec(events, tableName, tagName, true, encodeFailure)
         == Run([Open] + Frame(ResultsOf(TablesOf(events[..i]), tableName, tagName)), Failed(TerminalError(events[i])))
  {
    TerminalIndexIsFirst(events);
    assert TerminalIndex(events) == i;
  }

  /** The stream runs out with no terminal event. */
  lemma {:induction false} EndOfStream(events: seq<Event>, tableName: string, tagName: string, encodeFailure: Option<EncodeFailure>)
    requires TerminalIndex(events) == |events|
    requires !EncodeFailsWithin(encodeFailure, |ResultsOf(TablesOf(events), tableName, tagName)|)
    ensures StreamSpec(events, tableName, tagName, true, encodeFailure)
         == Run([Open] + Frame(ResultsOf(TablesOf(events), tableName, tagName)) + [Close, Flush], Ok)
  {
    assert events[..|events|] == events;
  }

  /** The `Encode` call for result number `f` fails, `f` within results the
      loop reaches. */
  lemma {:induction false} EncodeFailsAt(events: seq<Event>, tableName: string, tagName: string, encodeFailure: Option<EncodeFailure>,
                      ys: seq<JSONTag>)
    requires ys <= Selected(events, tableName, tagName)
    requires EncodeFailsWithin(encodeFailure, |ys|)
    ensures var f := encodeFailure.value.call;
            StreamSpec(events, tableName, tagName, true, encodeFailure)
            == Run([Open] + Frame(ys[..f]) + (if f > 0 then [Comma] else []), Failed(EncodeJSON(encodeFailure.value.cause)))
  {
    var total := Selected(events, tableName, tagName);
    assert total[..encodeFailure.value.call] == ys[..encodeFailure.value.call];
  }

  /** What comes before an element of a sequence is a proper prefix of it. */
  lemma {:induction false} PrefixBefore<T>(p: seq<T>, r: seq<T>, x: T, b: seq<T>)
    ensures var all := p + (r + [x] + b);
            |p + r| < |all| && all[..|p + r|] == p + r
  {
    assert p + (r + [x] + b) == (p + r) + ([x] + b);
  }

  /** The results written before a selected tag of a table are a proper
      prefix of the results of the whole table. */
  lemma {:induction false} TagPrefix(table: Table, j: nat, tagName: string, prior: seq<JSONTag>, cur: seq<JSONTag>)
    requires j < |table.tags| && TagSelected(tagName, table.tags[j])
    requires cur == prior + TagResults(table, table.tags[..j], tagName)
    ensures var all := prior + TagResults(table, table.tags, tagName);
            |cur| < |all| && all[..|cur|] == cur
  {
    var r := TagResults(table, table.tags[..j], tagName);
    var x := Project(table, table.tags[j]);
    var b := TagResults(table, table.tags[j + 1..], tagName);
    assert TagResults(table, table.tags, tagName) == r + [x] + b by {
      TagStep(table, j, tagName);
      TagResultsAppend(table, table.tags[..j + 1], table.tags[j + 1..], tagName);
      assert table.tags[..j + 1] + table.tags[j + 1..] == table.tags;
    }
    PrefixBefore(prior, r, x, b);
  }

  /** One more tag of a table adds its result if it passes the tag filter. */
  lemma {:induction false} TagStep(table: Table, j: nat, tagName: string)
    requires j < |table.tags|
    ensures TagResults(table, table.tags[..j + 1], tagName)
         == TagResults(table, table.tags[..j], tagName)
            + (if TagSelected(tagName, table.tags[j]) then [Project(table, table.tags[j])] else [])
  {
    assert table.tags[..j + 1][..j] == table.tags[..j];
  }

  /** The writer's state once the results `rs` have been written: the
      opening marker and their frame, `first` set while nothing was
      written, one `Encode` call per result and none of them failed. */
  predicate Written(out: seq<Chunk>, first: bool, calls: nat, rs: seq<JSONTag>, encodeFailure: Option<EncodeFailure>)
  {
    && out == [Open] + Frame(rs)
    && (first <==> rs == [])
    && calls == |rs|
    && !EncodeFailsWithin(encodeFailure, calls)
  }

  /** The writer's output when the `Encode` call for one of the results `rs`
      fails: the results before it, and the comma written before it. */
  predicate EncodeStopped(out: seq<Chunk>, rs: seq<JSONTag>, encodeFailure: Option<EncodeFailure>)
  {
    && EncodeFailsWithin(encodeFailure, |rs|)
    && var f := encodeFailure.value.call;
       out == [Open] + Frame(rs[..f]) + (if f > 0 then [Comma] else [])
  }

  /** Writing one more result, after a comma unless it is the first, keeps
      the writer's state in step with the results. */
  lemma {:induction false} WrittenNext(out: seq<Chunk>, first: bool, calls: nat, rs: seq<JSONTag>,
                                      encodeFailure: Option<EncodeFailure>, x: JSONTag)
    requires Written(out, first, calls, rs, encodeFailure)
    requires !(encodeFailure.Some? && encodeFailure.value.call == calls)
    ensures Written(out + (if first then [] else [Comma]) + [Encoded(x), Flush], false, calls + 1, rs + [x], encodeFailure)
  {
    FrameSnoc(rs, x);
  }

  /** The output when the next `Encode` call fails: the results so far and
      the comma written for the next one, if it is not the first. */
  lemma {:induction false} WrittenComma(out: seq<Chunk>, first: bool, calls: nat, rs: seq<JSONTag>,
                                       encodeFailure: Option<EncodeFailure>)
    requires Written(out, first, calls, rs, encodeFailure)
    ensures out + (if first then [] else [Comma]) == [Open] + Frame(rs) + (if rs != [] then [Comma] else [])
  {
  }

  /** A failing `Encode` call for the result after `cur`, a proper prefix
      of `all`, leaves the output that `EncodeStopped` describes for `all`. */
  lemma {:induction false} StoppedInside(out: seq<Chunk>, cur: seq<JSONTag>, all: seq<JSONTag>,
                                         encodeFailure: Option<EncodeFailure>)
    requires |cur| < |all| && all[..|cur|] == cur
    requires encodeFailure.Some? && encodeFailure.value.call == |cur|
    requires out == [Open] + Frame(cur) + (if cur != [] then [Comma] else [])
    ensures EncodeStopped(out, all, encodeFailure)
  {
  }

  /** Writes one result (main.go:109-118): a comma unless it is the first
      result of the call, then the encoded result and a flush. `prior` are
      the results written before; `failure` is the writer's error if this
      `Encode` call fails. */
  method EmitTag(x: JSONTag, encodeFailure: Option<EncodeFailure>, ghost prior: seq<JSONTag>,
                 out0: seq<Chunk>, first0: bool, calls0: nat)
    returns (out: seq<Chunk>, first: bool, calls: nat, failure: Option<string>)
    requires Written(out0, first0, calls0, prior, encodeFailure)
    ensures failure.None? ==> Written(out, first, calls, prior + [x], encodeFailure)
    ensures failure.Some? ==>
              && encodeFailure.Some? && encodeFailure.value.call == |prior|
              && failure.value == encodeFailure.value.cause
              && out == [Open] + Frame(prior) + (if prior != [] then [Comma] else [])
  {
    out, first, calls := out0, first0, calls0;
    if !first {
      out := out + [Comma];
    } else {
      first := false;
    }
    if encodeFailure.Some? && encodeFailure.value.call == calls {
      WrittenComma(out0, first0, calls0, prior, encodeFailure);
      return out, first, calls, Some(encodeFailure.value.cause);
    }
    WrittenNext(out0, first0, calls0, prior, encodeFailure, x);
    out := out + [Encoded(x), Flush];
    calls := calls + 1;
    failure := None;
  }

  /** The loop over a table's tags (main.go:92-119): each tag that passes
      the tag filter is written, in order, until an `Encode` call fails. */
  method EmitTags(table: Table, tagName: string, encodeFailure: Option<EncodeFailure>,
                  ghost prior: seq<JSONTag>, out0: seq<Chunk>, first0: bool, calls0: nat)
    returns (out: seq<Chunk>, first: bool, calls: nat, failure: Option<string>)
    requires Written(out0, first0, calls0, prior, encodeFailure)
    ensures failure.None? ==> Written(out, first, calls, prior + TagResults(table, table.tags, tagName), encodeFailure)
    ensures failure.Some? ==>
              && EncodeStopped(out, prior + TagResults(table, table.tags, tagName), encodeFailure)
              && failure.value == encodeFailure.value.cause
  {
    out, first, calls, failure := out0, first0, calls0, None;
    ghost var cur := prior;
    for j := 0 to |table.tags|
      invariant cur == prior + TagResults(table, table.tags[..j], tagName)
      invariant Written(out, first, calls, cur, encodeFailure)
      invariant failure.None?
    {
      var tag := table.tags[j];
      TagStep(table, j, tagName);
      if !TagSelected(tagName, tag) {
        continue;
      }
      var jsonTag := BuildJSONTag(table, tag);
      out, first, calls, failure := EmitTag(jsonTag, encodeFailure, cur, out, first, calls);
      if failure.Some? {
        TagPrefix(table, j, tagName, prior, cur);
        StoppedInside(out, cur, prior + TagResults(table, table.tags, tagName), encodeFailure);
        return;
      }
      cur := cur + [Project(table, tag)];
    }
    assert table.tags[..|table.tags|] == table.tags;
  }

  /** Handles one decoded table (main.go:89-119): nothing unless it passes
      the table filter, otherwise the selected tags of it. */
  method EmitTable(table: Table, tableName: string, tagName: string, encodeFailure: Option<EncodeFailure>,
                   ghost prior: seq<JSONTag>, out0: seq<Chunk>, first0: bool, calls0: nat)
    returns (out: seq<Chunk>, first: bool, calls: nat, failure: Option<string>)
    requires Written(out0, first0, calls0, prior, encodeFailure)
    ensures failure.None? ==> Written(out, first, calls, prior + TableResults(table, tableName, tagName), encodeFailure)
    ensures failure.Some? ==>
              && EncodeStopped(out, prior + TableResults(table, tableName, tagName), encodeFailure)
              && failure.value == encodeFailure.value.cause
  {
    if !TableSelected(tableName, table) {
      assert prior + TableResults(table, tableName, tagName) == prior;
      return out0, first0, calls0, None;
    }
    out, first, calls, failure := EmitTags(table, tagName, encodeFailure, prior, out0, first0, calls0);
  }

  /** `streamTags` from the opening marker on (main.go:57-125). */
  method StreamTags(events: seq<Event>, tableName: string, tagName: string,
                    flushable: bool, encodeFailure: Option<EncodeFailure>)
    returns (out: seq<Chunk>, outcome: Outcome)
    ensures Run(out, outcome) == StreamSpec(events, tableName, tagName, flushable, encodeFailure)
  {
    out := [Open];
    if !flushable {
      return out, Failed(StreamingNotSupported);
    }
    var first := true;
    var calls: nat := 0;
    ghost var rs: seq<JSONTag> := [];
    for i := 0 to |events|
      invariant i <= TerminalIndex(events)
      invariant rs == ResultsOf(TablesOf(events[..i]), tableName, tagName)
      invariant Written(out, first, calls, rs, encodeFailure)
    {
      var ev := events[i];
      if ev.Cancelled? {
        StopAt(events, i, tableName, tagName, encodeFailure);
        return out, Failed(ClientClosed);
      }
      if ev.ReadFailed? {
        StopAt(events, i, tableName, tagName, encodeFailure);
        return out, Failed(ReadXML(ev.cause));
      }
      StepResults(events, i, tableName, tagName);
      Advance(events, i);
      if ev.StartElement? && ev.local == TableElement {
        if ev.element.DecodeFailed? {
          StopAt(events, i, tableName, tagName, encodeFailure);
          return out, Failed(DecodeTable(ev.element.cause));
        }
        var table := ev.element.table;
        var failure;
        out, first, calls, failure := EmitTable(table, tableName, tagName, encodeFailure, rs, out, first, calls);
        if failure.Some? {
          SelectedPrefix(events, i + 1, tableName, tagName);
          EncodeFailsAt(events, tableName, tagName, encodeFailure, rs + TableResults(table, tableName, tagName));
          return out, Failed(EncodeJSON(failure.value));
        }
        rs := rs + TableResults(table, tableName, tagName);
      }
    }
    assert events[..|events|] == events;
    EndOfStream(events, tableName, tagName, encodeFailure);
    out := out + [Close, Flush];
    outcome := Ok;
  }
}

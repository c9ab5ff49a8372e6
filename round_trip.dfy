/**
 * The server's records read by the client's parser: what reaches
 * `fullResponse` when the stream written by `event_generator` is consumed
 * by the read loop of `ChatApp`.
 */
module RoundTrip {
  import opened Wrappers
  import opened Json
  import opened EventStream
  import opened ChatRoute
  import opened ChatClient

  /** The record bodies of a stream: one per chunk, then the sentinel's. */
  function Bodies(chunks: seq<string>): seq<string> {
    if chunks == [] then [RecordBody(Sentinel)]
    else [RecordBody(Payload(chunks[0], false))] + Bodies(chunks[1..])
  }

  /** A data record's body yields its chunk. */
  lemma DataRecordApplies(chunk: string)
    ensures Fragment(RecordBody(Payload(chunk, false))) == Some(chunk)
  {
    RecordBodyDecodes(Payload(chunk, false));
  }

  /** A record with `is_final` true adds nothing, whatever its content. */
  lemma FinalRecordSkipped(content: string)
    ensures Fragment(RecordBody(Payload(content, true))) == None
  {
    RecordBodyDecodes(Payload(content, true));
  }

  /**
   * Splitting the whole response on "\n\n" gives exactly the record bodies,
   * in order, and one empty piece after the last separator.
   */
  lemma {:induction false} WireSplits(chunks: seq<string>)
    ensures Split(Wire(chunks)) == Bodies(chunks) + [""]
  {
    if chunks == [] {
      WireOfSentinel();
      SplitOneRecord(Sentinel);
    } else {
      var p := Payload(chunks[0], false);
      WireCons(chunks);
      RecordBodyNoNewline(p);
      SplitAfterRecord(RecordBody(p), Wire(chunks[1..]));
      WireSplits(chunks[1..]);
    }
  }

  /** With no chunks, the response is the sentinel record alone. */
  lemma WireOfSentinel()
    ensures Wire([]) == Record(Sentinel)
  {
    ConcatMapSingle(Verbatim, Record(Sentinel));
  }

  lemma WireCons(chunks: seq<string>)
    requires chunks != []
    ensures Wire(chunks) == RecordBody(Payload(chunks[0], false)) + Separator + Wire(chunks[1..])
  {
    assert Emitted(chunks)[1..] == Emitted(chunks[1..]);
  }

  /** A record on its own splits into its body and the empty piece after it. */
  lemma SplitOneRecord(p: Payload)
    ensures Split(Record(p)) == [RecordBody(p), ""]
  {
    RecordBodyNoNewline(p);
    SplitAfterRecord(RecordBody(p), "");
    assert Record(p) == RecordBody(p) + Separator + "";
  }

  lemma {:induction false} BodiesYieldChunks(chunks: seq<string>)
    ensures Contribution(Bodies(chunks)) == Concat(chunks)
  {
    if chunks == [] {
      FinalRecordSkipped("");
      ConcatMapSingle(FragmentText, RecordBody(Sentinel));
    } else {
      DataRecordApplies(chunks[0]);
      BodiesYieldChunks(chunks[1..]);
      assert Bodies(chunks)[1..] == Bodies(chunks[1..]);
    }
  }

  /**
   * The whole response arriving as a single chunk: the client accumulates
   * exactly the server's chunks, in order ("Hel", "lo" give "Hello").
   */
  lemma WholeResponseInOneChunk(chunks: seq<string>)
    ensures ChunkText(Wire(chunks)) == Concat(chunks)
  {
    WireSplits(chunks);
    ConcatMapAppend(FragmentText, Bodies(chunks), "");
    assert FragmentText("") == "";
    BodiesYieldChunks(chunks);
  }

  /** The same, as the whole stream the read loop sees. */
  lemma WholeResponseAsStream(chunks: seq<string>)
    ensures StreamText([Wire(chunks)]) == Concat(chunks)
  {
    WholeResponseInOneChunk(chunks);
    ConcatMapSingle(ChunkText, Wire(chunks));
  }

  /** A record arriving as a chunk of its own adds what its body adds. */
  lemma RecordAlone(p: Payload)
    ensures ChunkText(Record(p)) == FragmentText(RecordBody(p))
  {
    var body := RecordBody(p);
    SplitOneRecord(p);
    ConcatMapAppend(FragmentText, [body], "");
    ConcatMapSingle(FragmentText, body);
    assert FragmentText("") == "";
  }

  /** Each record arriving as a chunk of its own gives the same text. */
  lemma {:induction false} OneRecordPerChunk(chunks: seq<string>)
    ensures StreamText(Emitted(chunks)) == Concat(chunks)
  {
    if chunks == [] {
      RecordAlone(Sentinel);
      FinalRecordSkipped("");
      ConcatMapSingle(ChunkText, Record(Sentinel));
    } else {
      RecordAlone(Payload(chunks[0], false));
      DataRecordApplies(chunks[0]);
      OneRecordPerChunk(chunks[1..]);
      assert Emitted(chunks)[1..] == Emitted(chunks[1..]);
    }
  }

  /**
   * A whole exchange: the route's generator answers with `chunks`, and the
   * client receives its response either in one read or one read per record.
   * The reply the client commits is exactly what the model produced.
   */
  method ServedTurn(app: ChatApp, inputValue: string, chunks: seq<string>, readPerRecord: bool)
    returns (request: Option<ChatRequest>)
    requires app.Valid()
    modifies app
    ensures app.Valid()
    ensures request.None? <==> Trim(inputValue) == [] || old(app.isStreaming)
    ensures request.None? ==> app.messageHistory == old(app.messageHistory)
    ensures request.Some? ==> app.CurrentPhase() == Idle
    ensures request.Some? ==>
      app.messageHistory == old(app.messageHistory) + [Message(User, Trim(inputValue))] +
        (if Concat(chunks) == "" then [] else [Message(Assistant, Concat(chunks))])
  {
    var records, _ := EventGenerator(chunks);
    var arrivals: seq<string>;
    if readPerRecord {
      arrivals := records;
      OneRecordPerChunk(chunks);
    } else {
      arrivals := [Concat(records)];
      WholeResponseAsStream(chunks);
    }
    request := app.Exchange(inputValue, Streamed(arrivals, Done));
  }

  /** The chunks "Hel" and "lo", read back in one chunk, give "Hello". */
  lemma HelloExample()
    ensures ChunkText(Wire(["Hel", "lo"])) == "Hello"
  {
    WholeResponseInOneChunk(["Hel", "lo"]);
    assert Concat(["Hel", "lo"]) == "Hel" + Concat(["lo"]);
    assert Concat(["lo"]) == "lo" + Concat([]);
  }

  /** A fresh session sends "Hi" and is answered with "Hel" and "lo". */
  method HelloSession() returns (app: ChatApp)
    ensures app.Valid() && app.CurrentPhase() == Idle
    ensures app.messageHistory == [Message(User, "Hi"), Message(Assistant, "Hello")]
  {
    app := new ChatApp();
    assert Trim("Hi") == "Hi";
    assert Concat(["Hel", "lo"]) == "Hel" + Concat(["lo"]);
    assert Concat(["lo"]) == "lo" + Concat([]);
    assert Concat(["Hel", "lo"]) == "Hello";
    var request := ServedTurn(app, "Hi", ["Hel", "lo"], false);
    assert request.Some?;
    assert [] + [Message(User, "Hi")] + [Message(Assistant, "Hello")] ==
      [Message(User, "Hi"), Message(Assistant, "Hello")];
  }
}

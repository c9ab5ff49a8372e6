/**
 * The server half of the streaming endpoint: `event_generator` inside
 * `chat_stream` in app/routes/chat.py.  The completion service is not part
 * of this model; its output is the sequence of text chunks given to
 * `EventGenerator`.
 */
module ChatRoute {
  import opened Wrappers
  import opened Json
  import opened EventStream
  import opened SeqFacts

  /** The payload of the record that closes every stream. */
  const Sentinel: Payload := Payload("", true)

  /** A record without its terminating blank line: `data: <json>`. */
  function RecordBody(p: Payload): string {
    DataPrefix + Encode(p)
  }

  /** One record as the generator yields it: `f"data: {json.dumps(...)}\n\n"`. */
  function Record(p: Payload): string {
    RecordBody(p) + Separator
  }

  /** A record body holds no newline, because JSON escapes them. */
  lemma RecordBodyNoNewline(p: Payload)
    ensures NoNewline(RecordBody(p))
  {
    var e := Encode(p);
    EncodePrintable(p);
    var r := DataPrefix + e;
    assert forall k :: |DataPrefix| <= k < |r| ==> r[k] == e[k - |DataPrefix|];
  }

  /** What follows a record body's "data: " prefix decodes to the payload it was made from. */
  lemma RecordBodyDecodes(p: Payload)
    ensures DataPrefix <= RecordBody(p) && Decode(RecordBody(p)[|DataPrefix|..]) == Some(p)
  {
    var e := Encode(p);
    assert (DataPrefix + e)[|DataPrefix|..] == e;
    DecodeEncode(p);
  }

  /** Every record starts with "data: " and ends with the blank line. */
  lemma RecordFramed(p: Payload)
    ensures DataPrefix <= Record(p) && |Record(p)| >= |DataPrefix| + |Separator|
    ensures Record(p)[|Record(p)| - |Separator|..] == Separator
  {
    var r := Record(p);
    assert r[|r| - |Separator|..] == Separator;
  }

  /** The records yielded for `chunks`: one per chunk, in order, then the sentinel. */
  function Emitted(chunks: seq<string>): seq<string> {
    if chunks == [] then [Record(Sentinel)]
    else [Record(Payload(chunks[0], false))] + Emitted(chunks[1..])
  }

  /** A string taken as it is. */
  function Verbatim(s: string): string { s }

  /** The strings of `parts` one after another: `ConcatMap` of the identity. */
  function Concat(parts: seq<string>): string {
    ConcatMap(Verbatim, parts)
  }

  /** The response body: everything the generator yields, in order. */
  function Wire(chunks: seq<string>): string {
    Concat(Emitted(chunks))
  }

  /**
   * `event_generator`: yields a record for each chunk as it arrives,
   * accumulating `full_response`, and closes with the sentinel record.
   */
  method EventGenerator(chunks: seq<string>) returns (records: seq<string>, fullResponse: string)
    ensures records == Emitted(chunks)
    ensures fullResponse == Concat(chunks)
  {
    records, fullResponse := [], "";
    var i := 0;
    while i < |chunks|
      invariant 0 <= i <= |chunks|
      invariant records + Emitted(chunks[i..]) == Emitted(chunks)
      invariant fullResponse + Concat(chunks[i..]) == Concat(chunks)
    {
      assert chunks[i..][1..] == chunks[i + 1..];
      var record := Record(Payload(chunks[i], false));
      assert Emitted(chunks[i..]) == [record] + Emitted(chunks[i + 1..]);
      assert Concat(chunks[i..]) == chunks[i] + Concat(chunks[i + 1..]);
      AppendAssoc(records, [record], Emitted(chunks[i + 1..]));
      AppendAssoc(fullResponse, chunks[i], Concat(chunks[i + 1..]));
      fullResponse := fullResponse + chunks[i];
      records := records + [record];
      i := i + 1;
    }
    assert chunks[i..] == [];
    records := records + [Record(Sentinel)];
  }

  /**
   * For n chunks there are n + 1 records: record i carries chunk i with
   * `is_final` false, and the last is the sentinel.
   */
  lemma {:induction false} EmittedShape(chunks: seq<string>)
    ensures |Emitted(chunks)| == |chunks| + 1
    ensures forall i :: 0 <= i < |chunks| ==> Emitted(chunks)[i] == Record(Payload(chunks[i], false))
    ensures Emitted(chunks)[|chunks|] == Record(Sentinel)
  {
    if chunks != [] {
      var e, tail := Emitted(chunks), Emitted(chunks[1..]);
      EmittedShape(chunks[1..]);
      assert e == [Record(Payload(chunks[0], false))] + tail;
      assert e[|chunks|] == tail[|chunks| - 1];
      assert forall i :: 1 <= i < |chunks| ==> e[i] == tail[i - 1] && chunks[i] == chunks[1..][i - 1];
    }
  }

  /** Every record the generator yields starts with "data: " and ends with the blank line. */
  lemma EmittedFramed(chunks: seq<string>)
    ensures forall i :: 0 <= i < |Emitted(chunks)| ==>
      DataPrefix <= Emitted(chunks)[i] && |Emitted(chunks)[i]| >= |Separator| &&
      Emitted(chunks)[i][|Emitted(chunks)[i]| - |Separator|..] == Separator
  {
    EmittedShape(chunks);
    forall i | 0 <= i < |Emitted(chunks)|
      ensures DataPrefix <= Emitted(chunks)[i] && |Emitted(chunks)[i]| >= |Separator|
      ensures Emitted(chunks)[i][|Emitted(chunks)[i]| - |Separator|..] == Separator
    {
      if i < |chunks| {
        RecordFramed(Payload(chunks[i], false));
      } else {
        RecordFramed(Sentinel);
      }
    }
  }
}

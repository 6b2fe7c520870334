/** `SpeechService`: transcribing a 16 kHz recording over the speech recogniser's WebSocket,
    summarising the transcription with the language model, and both in turn. The WAV reader
    gives the sample rate; what `ws.recv()` returns is the sequence `received`; `post` is the
    summary request, given the text to summarise. */
module Speech {
  import opened Wrappers
  import opened Text
  import opened LineDecoding

  const RequiredSampleRate := 16000
  const SampleRateMessage := "音频采样率必须为16kHz"
  const NoTranscriptMessage := "未收到有效的转写结果"
  const NoSummaryMessage := "未收到有效的总结结果"
  const EmptyTranscriptionMessage := "音频转写结果为空"

  /** One call of `ws.recv()`: a message, `WebSocketConnectionClosed`, or another exception.
      The end of the sequence stands for the connection closing. */
  datatype Received = Message(data: string) | Closed | RecvFailure(reason: string)

  /** `json.loads(msg)` and `"text" in response`: a `JSONDecodeError`, another exception, a
      response without `text`, or the value of its `text`. */
  datatype WsParse = WsNotJson | WsFault(reason: string) | NoText | HasText(text: string)

  /** A message the receive loop passes over: empty, not JSON, or without `text`. */
  predicate Skippable(x: Received, json: string -> WsParse) {
    x.Message? && (x.data == [] || json(x.data) == WsNotJson || json(x.data) == NoText)
  }

  /** The receive loop: `Ok` of the `result` it leaves (empty when the connection closed
      first), or the exception that escaped it. */
  function Receive(received: seq<Received>, json: string -> WsParse): Result<string, string>
    decreases |received|
  {
    if received == [] then Ok("")
    else match received[0]
      case Closed => Ok("")
      case RecvFailure(e) => Err(e)
      case Message(m) =>
        if m == [] then Receive(received[1..], json)
        else match json(m)
          case WsNotJson => Receive(received[1..], json)
          case WsFault(e) => Err(e)
          case NoText => Receive(received[1..], json)
          case HasText(t) => Ok(t)
  }

  /** `transcribe_audio`: the text of the first response that has one, provided the rate is
      16 kHz and that text is non-empty. */
  function Transcribe(sampleRate: int, received: seq<Received>, json: string -> WsParse): (r: Result<string, string>)
    ensures sampleRate != RequiredSampleRate ==> r == Err(SampleRateMessage)
    ensures r.Ok? ==> r.value != []
    ensures sampleRate == RequiredSampleRate && Receive(received, json) == Ok("") ==> r == Err(NoTranscriptMessage)
  {
    if sampleRate != RequiredSampleRate then Err(SampleRateMessage)
    else match Receive(received, json)
      case Err(e) => Err(e)
      case Ok(t) => if t == [] then Err(NoTranscriptMessage) else Ok(t)
  }

  /** Messages the loop passes over change nothing. */
  lemma {:induction false} ReceiveSkips(skipped: seq<Received>, rest: seq<Received>, json: string -> WsParse)
    requires forall x :: x in skipped ==> Skippable(x, json)
    ensures Receive(skipped + rest, json) == Receive(rest, json)
  {
    if skipped == [] {
      assert skipped + rest == rest;
    } else {
      assert (skipped + rest)[0] == skipped[0] && (skipped + rest)[1..] == skipped[1..] + rest;
      assert skipped[0] in skipped;
      ReceiveSkips(skipped[1..], rest, json);
    }
  }

  /** The first response with `text` decides the transcription; later messages are not read. */
  lemma TranscribeFirstText(skipped: seq<Received>, m: string, t: string, rest: seq<Received>, json: string -> WsParse)
    requires forall x :: x in skipped ==> Skippable(x, json)
    requires m != [] && json(m) == HasText(t)
    ensures Transcribe(RequiredSampleRate, skipped + [Message(m)] + rest, json)
         == (if t == [] then Err(NoTranscriptMessage) else Ok(t))
  {
    assert skipped + [Message(m)] + rest == skipped + ([Message(m)] + rest);
    ReceiveSkips(skipped, [Message(m)] + rest, json);
  }

  /** When the connection closes before any response with `text`, there is no transcription. */
  lemma TranscribeClosedEarly(skipped: seq<Received>, rest: seq<Received>, json: string -> WsParse)
    requires forall x :: x in skipped ==> Skippable(x, json)
    requires rest == [] || rest[0] == Closed
    ensures Transcribe(RequiredSampleRate, skipped + rest, json) == Err(NoTranscriptMessage)
  {
    ReceiveSkips(skipped, rest, json);
  }

  /** `transcribe_audio`'s receive loop. */
  method TranscribeAudio(sampleRate: int, received: seq<Received>, json: string -> WsParse) returns (r: Result<string, string>)
    ensures r == Transcribe(sampleRate, received, json)
  {
    if sampleRate != RequiredSampleRate {
      return Err(SampleRateMessage);
    }
    var result := "";
    var i := 0;
    while i < |received|
      invariant i <= |received|
      invariant Receive(received, json) == Receive(received[i..], json)
    {
      var x := received[i];
      assert received[i..][0] == x && received[i..][1..] == received[i + 1..];
      if x.Closed? {
        break;
      } else if x.RecvFailure? {
        return Err(x.reason);
      } else if x.data != [] {
        var response := json(x.data);
        if response.WsFault? {
          return Err(response.reason);
        } else if response.HasText? {
          result := response.text;
          break;
        }
      }
      i := i + 1;
    }
    assert Receive(received, json) == Ok(result);
    if result == [] {
      return Err(NoTranscriptMessage);
    }
    return Ok(result);
  }

  /** `summarize_text` given the reply to its request: the accumulated content up to the first
      `done` record, unless reading the stream failed before that record or nothing arrived.
      Lines that fail to decode or parse are passed over. */
  function Summarize(posted: Result<Reply, string>, d: Decoder): (r: Result<string, string>)
    ensures r.Ok? ==> r.value != []
    ensures posted.Err? ==> r == Err(posted.error)
  {
    match posted
    case Err(e) => Err(e)
    case Ok(reply) =>
      var read := ReadReply(reply.lines, d);
      if !read.done && reply.failure.Some? then Err(reply.failure.value)
      else if read.response == [] then Err(NoSummaryMessage)
      else Ok(read.response)
  }

  /** Lines after the first `done` record, and a failure after it, do not matter. */
  lemma SummarizeStopsAtDone(a: seq<string>, line: string, b: seq<string>, failure: Option<string>, d: Decoder)
    requires !HasDone(a, d) && IsDoneLine(line, d)
    ensures Summarize(Ok(Reply(a + [line] + b, failure)), d) == Summarize(Ok(Reply(a, None)), d)
  {
    assert a + [line] + b == a + ([line] + b);
    assert ([line] + b)[0] == line;
    assert ReadReply([line] + b, d) == Reading([], "", true);
    ReadReplyAppend(a, [line] + b, d);
    ReadReplyShape(a, d);
    var ra := ReadReply(a, d);
    assert ra.response + "" == ra.response;
    assert ReadReply(a + [line] + b, d).response == ra.response && ReadReply(a + [line] + b, d).done;
  }

  /** A line that is empty or fails to decode or parse; `summarize_text` passes over it. */
  predicate Unusable(line: string, d: Decoder) {
    line == [] || ReadLine(line, d).NotJson? || ReadLine(line, d).Fault?
  }

  lemma {:induction false} UnusableContributeNothing(a: seq<string>, d: Decoder)
    requires forall k :: 0 <= k < |a| ==> Unusable(a[k], d)
    ensures ReadReply(a, d).response == [] && !ReadReply(a, d).done
  {
    if a != [] {
      assert forall k :: 0 <= k < |a[1..]| ==> Unusable(a[1..][k], d) by {
        forall k | 0 <= k < |a[1..]| ensures Unusable(a[1..][k], d) {
          assert a[1..][k] == a[k + 1];
        }
      }
      UnusableContributeNothing(a[1..], d);
    }
  }

  /** Unusable lines in front of the reply leave the summary as it is. */
  lemma SummarizeIgnoresUnusable(a: seq<string>, b: seq<string>, failure: Option<string>, d: Decoder)
    requires forall k :: 0 <= k < |a| ==> Unusable(a[k], d)
    ensures Summarize(Ok(Reply(a + b, failure)), d) == Summarize(Ok(Reply(b, failure)), d)
  {
    UnusableContributeNothing(a, d);
    ReadReplyShape(a, d);
    ReadReplyAppend(a, b, d);
    var rb := ReadReply(b, d);
    assert "" + rb.response == rb.response;
    assert ReadReply(a + b, d).response == rb.response && ReadReply(a + b, d).done == rb.done;
  }

  /** `summarize_text`'s loop over the reply lines. */
  method SummarizeText(text: string, post: string -> Result<Reply, string>, d: Decoder) returns (r: Result<string, string>)
    ensures r == Summarize(post(text), d)
  {
    var posted := post(text);
    if posted.Err? {
      return Err(posted.error);
    }
    var lines := posted.value.lines;
    ghost var all := ReadReply(lines, d);
    var fullResponse := "";
    var done := false;
    var i := 0;
    while i < |lines|
      invariant i <= |lines|
      invariant !done
      invariant all.done == ReadReply(lines[i..], d).done
      invariant fullResponse + ReadReply(lines[i..], d).response == all.response
    {
      var line := lines[i];
      assert lines[i..][0] == line && lines[i..][1..] == lines[i + 1..];
      if line != [] {
        var data := ReadLine(line, d);
        if data.Record? {
          if data.done {
            assert ReadReply(lines[i..], d) == Reading([], "", true);
            assert fullResponse + [] == fullResponse;
            done := true;
            break;
          }
          if data.content != [] {
            ghost var rest := ReadReply(lines[i + 1..], d);
            assert ReadReply(lines[i..], d).response == data.content + rest.response;
            assert (fullResponse + data.content) + rest.response == fullResponse + (data.content + rest.response);
            fullResponse := fullResponse + data.content;
          }
        }
      }
      i := i + 1;
    }
    if !done {
      assert lines[i..] == [];
      assert fullResponse + [] == fullResponse;
      if posted.value.failure.Some? {
        return Err(posted.value.failure.value);
      }
    }
    if fullResponse == [] {
      return Err(NoSummaryMessage);
    }
    return Ok(fullResponse);
  }

  /** What `process_audio_file` returns: the transcription and its summary, or the
      `{"error": …}` answer for an empty transcription. */
  datatype AudioResult = Processed(transcription: string, summary: string) | EmptyTranscription

  /** `process_audio_file`. `transcribe_audio` never returns an empty text, so the
      empty-transcription answer cannot occur. */
  function AudioOutcome(sampleRate: int, received: seq<Received>, json: string -> WsParse,
                        post: string -> Result<Reply, string>, d: Decoder): (r: Result<AudioResult, string>)
    ensures r.Ok? ==> r.value.Processed? && r.value.transcription != [] && r.value.summary != []
    ensures r.Ok? <==> Transcribe(sampleRate, received, json).Ok?
                       && Summarize(post(Transcribe(sampleRate, received, json).value), d).Ok?
    ensures r.Ok? ==> (r.value.transcription == Transcribe(sampleRate, received, json).value
                       && r.value.summary == Summarize(post(r.value.transcription), d).value)
  {
    match Transcribe(sampleRate, received, json)
    case Err(e) => Err(e)
    case Ok(t) =>
      if t == [] then Ok(EmptyTranscription)
      else match Summarize(post(t), d)
        case Err(e) => Err(e)
        case Ok(s) => Ok(Processed(t, s))
  }

  method ProcessAudioFile(sampleRate: int, received: seq<Received>, json: string -> WsParse,
                          post: string -> Result<Reply, string>, d: Decoder) returns (r: Result<AudioResult, string>)
    ensures r == AudioOutcome(sampleRate, received, json, post, d)
  {
    var transcription := TranscribeAudio(sampleRate, received, json);
    if transcription.Err? {
      return Err(transcription.error);
    }
    if transcription.value == [] {
      return Ok(EmptyTranscription);
    }
    var summary := SummarizeText(transcription.value, post, d);
    if summary.Err? {
      return Err(summary.error);
    }
    return Ok(Processed(transcription.value, summary.value));
  }
}

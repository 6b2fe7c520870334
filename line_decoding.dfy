/** How the chat and summary services read the language model's streamed reply. One line is
    decoded as UTF-8, stripped of a `b'…'` wrapper whose escapes are then undone, and parsed
    as JSON; the three decoders are parameters, and each failure carries the exception's
    message. The lines are read up to the first `done` record. */
module LineDecoding {
  import opened Wrappers
  import opened Text
  import opened Stream

  /** The outcome of `json.loads` and of inspecting the record: a `JSONDecodeError`, another
      exception (a record that is not an object, say), or a record with its `done` flag and its
      `message.content` (empty when either is absent). */
  datatype Parsed = NotJson | Fault(reason: string) | Record(done: bool, content: string)

  /** The model's streamed reply: the lines it delivers and, if reading the stream fails
      after them, the failure. */
  datatype Reply = Reply(lines: seq<string>, failure: Option<string>)

  datatype Decoder = Decoder(
    utf8: string -> Result<string, string>,
    unescape: string -> Result<string, string>,
    json: string -> Parsed)

  const BytesPrefix := "b'"

  /** Python's `s[2:-1]`: empty when `s` has at most two characters. */
  function BytesLiteralBody(s: string): (r: string)
    ensures |s| >= 3 ==> r == s[2..|s| - 1]
    ensures |s| <= 2 ==> r == []
  {
    if |s| <= 2 then [] else s[2..|s| - 1]
  }

  /** `str(b)` of a bytes value whose repr body is `body`. */
  function BytesRepr(body: string): string {
    BytesPrefix + body + "'"
  }

  /** The strip undoes the `b'…'` wrapper: it recovers the body of every bytes repr. */
  lemma BytesLiteralRoundTrip(body: string)
    ensures StartsWith(BytesRepr(body), BytesPrefix)
    ensures BytesLiteralBody(BytesRepr(body)) == body
  {
    assert BytesRepr(body)[2..|BytesRepr(body)| - 1] == body;
  }

  /** The strip removes exactly the first two characters and the last one. */
  lemma BytesLiteralParts(s: string)
    requires |s| >= 3
    ensures s == s[..2] + BytesLiteralBody(s) + [s[|s| - 1]]
  {
  }

  /** One non-empty line, read as `chat` and `summarize_text` read it. */
  function ReadLine(line: string, d: Decoder): Parsed {
    match d.utf8(line)
    case Err(e) => Fault(e)
    case Ok(text) =>
      if StartsWith(text, BytesPrefix) then
        match d.unescape(BytesLiteralBody(text))
        case Err(e) => Fault(e)
        case Ok(u) => d.json(u)
      else d.json(text)
  }

  predicate IsDoneLine(line: string, d: Decoder) {
    line != [] && ReadLine(line, d).Record? && ReadLine(line, d).done
  }

  predicate HasDone(lines: seq<string>, d: Decoder) {
    exists i :: 0 <= i < |lines| && IsDoneLine(lines[i], d)
  }

  /** What the reply lines give up to the first `done` record: the events relayed, the
      accumulated response, and whether a `done` record arrived. */
  datatype Reading = Reading(events: seq<Event>, response: string, done: bool)

  function ReadReply(lines: seq<string>, d: Decoder): Reading
    decreases |lines|
  {
    if lines == [] then Reading([], "", false)
    else if lines[0] == [] then ReadReply(lines[1..], d)
    else match ReadLine(lines[0], d)
      case NotJson => ReadReply(lines[1..], d)
      case Fault(e) =>
        var rest := ReadReply(lines[1..], d);
        rest.(events := [Error(e)] + rest.events)
      case Record(done, content) =>
        if done then Reading([], "", true)
        else if content == [] then ReadReply(lines[1..], d)
        else
          var rest := ReadReply(lines[1..], d);
          Reading([Answer(content)] + rest.events, content + rest.response, rest.done)
  }

  /** Reading the lines from position `i` on: the line at `i`, then the rest. */
  lemma ReadReplyAt(lines: seq<string>, i: nat, d: Decoder)
    requires i < |lines|
    ensures ReadReply(lines[i..], d) ==
      var rest := ReadReply(lines[i + 1..], d);
      if lines[i] == [] then rest
      else match ReadLine(lines[i], d)
        case NotJson => rest
        case Fault(e) => Reading([Error(e)] + rest.events, rest.response, rest.done)
        case Record(done, content) =>
          if done then Reading([], "", true)
          else if content == [] then rest
          else Reading([Answer(content)] + rest.events, content + rest.response, rest.done)
  {
    assert lines[i..][0] == lines[i] && lines[i..][1..] == lines[i + 1..];
  }

  /** The texts of the answer events, in order. */
  function AnswerTexts(events: seq<Event>): seq<string> {
    if events == [] then []
    else (if events[0].Answer? then [events[0].text] else []) + AnswerTexts(events[1..])
  }

  lemma AnswerTextsCons(e: Event, rest: seq<Event>)
    ensures AnswerTexts([e] + rest) == (if e.Answer? then [e.text] else []) + AnswerTexts(rest)
  {
    assert ([e] + rest)[0] == e && ([e] + rest)[1..] == rest;
  }

  /** The accumulated response is the concatenation of the relayed answers, in order. */
  lemma {:induction false} ReadReplyResponse(lines: seq<string>, d: Decoder)
    ensures ReadReply(lines, d).response == Flatten(AnswerTexts(ReadReply(lines, d).events))
  {
    if lines != [] {
      ReadReplyAt(lines, 0, d);
      assert lines[0..] == lines;
      ReadReplyResponse(lines[1..], d);
      var r := ReadReply(lines[1..], d);
      if lines[0] != [] && ReadLine(lines[0], d).Record? && !ReadLine(lines[0], d).done && ReadLine(lines[0], d).content != [] {
        var c := ReadLine(lines[0], d).content;
        AnswerTextsCons(Answer(c), r.events);
        FlattenCons(c, AnswerTexts(r.events));
      } else if lines[0] != [] && ReadLine(lines[0], d).Fault? {
        AnswerTextsCons(Error(ReadLine(lines[0], d).reason), r.events);
        assert [] + AnswerTexts(r.events) == AnswerTexts(r.events);
      }
    }
  }

  /** Every event is a non-empty answer or a per-line error. */
  lemma {:induction false} ReadReplyEvents(lines: seq<string>, d: Decoder)
    ensures forall e :: e in ReadReply(lines, d).events ==> (e.Answer? && e.text != []) || e.Error?
  {
    if lines != [] {
      ReadReplyAt(lines, 0, d);
      assert lines[0..] == lines;
      ReadReplyEvents(lines[1..], d);
    }
  }

  /** `done` is reached exactly when a `done` record arrives. */
  lemma {:induction false} ReadReplyDone(lines: seq<string>, d: Decoder)
    ensures ReadReply(lines, d).done <==> HasDone(lines, d)
  {
    if lines != [] {
      ReadReplyAt(lines, 0, d);
      assert lines[0..] == lines;
      ReadReplyDone(lines[1..], d);
      assert HasDone(lines, d) <==> IsDoneLine(lines[0], d) || HasDone(lines[1..], d) by {
        if HasDone(lines[1..], d) {
          var i :| 0 <= i < |lines[1..]| && IsDoneLine(lines[1..][i], d);
          assert lines[i + 1] == lines[1..][i];
        }
        if HasDone(lines, d) && !IsDoneLine(lines[0], d) {
          var i :| 0 <= i < |lines| && IsDoneLine(lines[i], d);
          assert lines[1..][i - 1] == lines[i];
        }
      }
    }
  }

  /** The accumulated response is the concatenation of the relayed answers, in order; every
      event is a non-empty answer or a per-line error; `done` is reached exactly when a
      `done` record arrives. */
  lemma ReadReplyShape(lines: seq<string>, d: Decoder)
    ensures ReadReply(lines, d).response == Flatten(AnswerTexts(ReadReply(lines, d).events))
    ensures forall e :: e in ReadReply(lines, d).events ==> (e.Answer? && e.text != []) || e.Error?
    ensures ReadReply(lines, d).done <==> HasDone(lines, d)
  {
    ReadReplyResponse(lines, d);
    ReadReplyEvents(lines, d);
    ReadReplyDone(lines, d);
  }

  /** Lines before the first `done` record are read one after another. */
  lemma {:induction false} ReadReplyAppend(a: seq<string>, b: seq<string>, d: Decoder)
    requires !HasDone(a, d)
    ensures ReadReply(a + b, d) == Reading(ReadReply(a, d).events + ReadReply(b, d).events,
                                           ReadReply(a, d).response + ReadReply(b, d).response,
                                           ReadReply(b, d).done)
  {
    if a == [] {
      assert a + b == b;
    } else {
      assert (a + b)[0] == a[0] && (a + b)[1..] == a[1..] + b;
      assert !IsDoneLine(a[0], d);
      assert !HasDone(a[1..], d) by {
        forall i | 0 <= i < |a[1..]| ensures !IsDoneLine(a[1..][i], d) {
          assert a[1..][i] == a[i + 1];
        }
      }
      ReadReplyAppend(a[1..], b, d);
      var ra, rb := ReadReply(a[1..], d), ReadReply(b, d);
      if a[0] != [] && ReadLine(a[0], d).Record? && ReadLine(a[0], d).content != [] {
        var c := ReadLine(a[0], d).content;
        assert [Answer(c)] + (ra.events + rb.events) == ([Answer(c)] + ra.events) + rb.events;
        assert c + (ra.response + rb.response) == (c + ra.response) + rb.response;
      } else if a[0] != [] && ReadLine(a[0], d).Fault? {
        var e := ReadLine(a[0], d).reason;
        assert [Error(e)] + (ra.events + rb.events) == ([Error(e)] + ra.events) + rb.events;
      }
    }
  }
}

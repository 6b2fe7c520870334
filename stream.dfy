/** The events the question-answering and chat endpoints stream to the browser, and their
    framing as server-sent events (section 9.2 of the WHATWG HTML Living Standard): each
    event is one `data: <payload>` line followed by a blank line. The JSON text of a payload
    is the parameter `json`; JSON escapes line breaks, so a payload holds no `\n`. */
module Stream {
  import opened Wrappers
  import opened Text
  import opened Ranking

  datatype Event =
    | Sources(items: seq<SourceItem>, contexts: seq<Detail>)  // {"sources": …, "contexts": …}
    | Answer(text: string)                                     // {"answer": …}
    | Error(message: string)                                   // {"error": …}
    | Done                                                     // [DONE]

  /** The sources event that precedes every answer that has no sources. */
  const NoSources: Event := Sources([], [])

  function Payload(e: Event, json: Event -> string): string {
    if e == Done then "[DONE]" else json(e)
  }

  const DataPrefix := "data: "
  const Terminator := "\n\n"

  /** `f"data: {payload}\n\n"`. */
  function Frame(payload: string): (r: string)
    ensures StartsWith(r, DataPrefix) && EndsWith(r, Terminator)
    ensures |r| == |payload| + 8
  {
    DataPrefix + payload + Terminator
  }

  /** The bytes a sequence of events puts on the wire, in order. */
  function Wire(events: seq<Event>, json: Event -> string): string {
    if events == [] then "" else Frame(Payload(events[0], json)) + Wire(events[1..], json)
  }

  function Payloads(events: seq<Event>, json: Event -> string): (r: seq<string>)
    ensures |r| == |events|
  {
    if events == [] then [] else [Payload(events[0], json)] + Payloads(events[1..], json)
  }

  /** Where the first line feed at or after `i` is. */
  function NewlineFrom(s: string, i: nat): (r: Option<nat>)
    requires i <= |s|
    ensures r.Some? ==> i <= r.value < |s| && s[r.value] == '\n'
    decreases |s| - i
  {
    if i == |s| then None
    else if s[i] == '\n' then Some(i)
    else NewlineFrom(s, i + 1)
  }

  /** Where the first line feed is. */
  function FirstNewline(s: string): Option<nat> {
    NewlineFrom(s, 0)
  }

  /** No line feed comes before the one found, and none is found only when there is none. */
  lemma {:induction false} NewlineFromIsFirst(s: string, i: nat)
    requires i <= |s|
    ensures NewlineFrom(s, i).Some? ==> forall j :: i <= j < NewlineFrom(s, i).value ==> s[j] != '\n'
    ensures NewlineFrom(s, i).None? <==> forall j :: i <= j < |s| ==> s[j] != '\n'
    decreases |s| - i
  {
    if i < |s| && s[i] != '\n' {
      NewlineFromIsFirst(s, i + 1);
    }
  }

  lemma FirstNewlineIsFirst(s: string)
    ensures FirstNewline(s).Some? ==> '\n' !in s[..FirstNewline(s).value]
    ensures FirstNewline(s).None? <==> '\n' !in s
  {
    NewlineFromIsFirst(s, 0);
    if FirstNewline(s).Some? {
      var k := FirstNewline(s).value;
      forall j | 0 <= j < k ensures s[..k][j] != '\n' {
        assert s[..k][j] == s[j];
      }
    }
  }

  /** What a client reads from a stream made only of `data:` events: their payloads. */
  function ParseFrames(s: string): Option<seq<string>>
    decreases |s|, 1
  {
    if s == [] then Some([])
    else if !StartsWith(s, DataPrefix) then None
    else ParseFrameBody(s[|DataPrefix|..])
  }

  /** The rest of a frame after `data: `: the payload up to the line feed, a blank line, and
      the frames after it. */
  function ParseFrameBody(rest: string): Option<seq<string>>
    decreases |rest|, 0
  {
    match FirstNewline(rest)
    case None => None
    case Some(k) =>
      if k + 1 < |rest| && rest[k + 1] == '\n' then
        match ParseFrames(rest[k + 2..])
        case None => None
        case Some(ps) => Some([rest[..k]] + ps)
      else None
  }

  /** Scanning `p + t` from inside `t` is scanning `t`. */
  lemma {:induction false} NewlineFromSuffix(p: string, t: string, j: nat)
    requires j <= |t|
    ensures NewlineFrom(p + t, |p| + j) ==
      (if NewlineFrom(t, j).Some? then Some(|p| + NewlineFrom(t, j).value) else None)
    decreases |t| - j
  {
    if j < |t| {
      assert (p + t)[|p| + j] == t[j];
      NewlineFromSuffix(p, t, j + 1);
    }
  }

  /** Scanning `p + t` over a stretch of `p` without line feeds lands in `t`. */
  lemma {:induction false} NewlineFromPrefix(p: string, t: string, i: nat)
    requires i <= |p| && forall j :: i <= j < |p| ==> p[j] != '\n'
    ensures NewlineFrom(p + t, i) ==
      (if NewlineFrom(t, 0).Some? then Some(|p| + NewlineFrom(t, 0).value) else None)
    decreases |p| - i
  {
    if i < |p| {
      assert (p + t)[i] == p[i];
      NewlineFromPrefix(p, t, i + 1);
    } else {
      NewlineFromSuffix(p, t, 0);
    }
  }

  lemma ParseFramePrefix(rest: string)
    ensures ParseFrames(DataPrefix + rest) == ParseFrameBody(rest)
  {
    var s := DataPrefix + rest;
    assert s[..|DataPrefix|] == DataPrefix;
    assert s[|DataPrefix|..] == rest;
  }

  lemma ParseFrameBodyOf(p: string, tail: string)
    requires forall j :: 0 <= j < |p| ==> p[j] != '\n'
    ensures ParseFrameBody(p + ("\n\n" + tail)) ==
      (if ParseFrames(tail).Some? then Some([p] + ParseFrames(tail).value) else None)
  {
    var rest := p + ("\n\n" + tail);
    NewlineFromPrefix(p, "\n\n" + tail, 0);
    assert FirstNewline(rest) == Some(|p|);
    assert rest[|p| + 1] == '\n';
    assert rest[|p| + 2..] == tail;
    assert rest[..|p|] == p;
  }

  /** A frame is read back as its payload, followed by whatever the rest of the stream holds. */
  lemma ParseOneFrame(p: string, tail: string)
    requires '\n' !in p
    ensures ParseFrames(Frame(p) + tail) ==
      (if ParseFrames(tail).Some? then Some([p] + ParseFrames(tail).value) else None)
  {
    var rest := p + ("\n\n" + tail);
    assert Frame(p) + tail == DataPrefix + rest;
    ParseFramePrefix(rest);
    forall j | 0 <= j < |p| ensures p[j] != '\n' {
      assert p[j] in p;
    }
    ParseFrameBodyOf(p, tail);
  }

  /** The stream splits back into exactly the payloads that were framed, in order. */
  lemma {:induction false} WireRoundTrip(events: seq<Event>, json: Event -> string)
    requires forall e :: e in events ==> '\n' !in Payload(e, json)
    ensures ParseFrames(Wire(events, json)) == Some(Payloads(events, json))
  {
    if events != [] {
      var p := Payload(events[0], json);
      assert events[0] in events;
      assert forall e :: e in events[1..] ==> e in events;
      ParseOneFrame(p, Wire(events[1..], json));
      WireRoundTrip(events[1..], json);
    }
  }

  /** The wire of two event sequences is the one wire after the other. */
  lemma {:induction false} WireAppend(a: seq<Event>, b: seq<Event>, json: Event -> string)
    ensures Wire(a + b, json) == Wire(a, json) + Wire(b, json)
  {
    if a == [] {
      assert a + b == b;
    } else {
      assert (a + b)[0] == a[0] && (a + b)[1..] == a[1..] + b;
      WireAppend(a[1..], b, json);
      var f := Frame(Payload(a[0], json));
      assert f + (Wire(a[1..], json) + Wire(b, json)) == (f + Wire(a[1..], json)) + Wire(b, json);
    }
  }

  /** A stream whose events end with `Done` ends with the frame `data: [DONE]\n\n`. */
  lemma WireEndsWithDone(events: seq<Event>, json: Event -> string)
    requires events != [] && events[|events| - 1] == Done
    ensures EndsWith(Wire(events, json), Frame("[DONE]"))
  {
    var front := events[..|events| - 1];
    SplitLast(events);
    WireAppend(front, [Done], json);
    assert Wire([Done], json) == Frame("[DONE]") by {
      assert [Done][1..] == [];
      assert Frame("[DONE]") + "" == Frame("[DONE]");
    }
    EndsWithItself(Wire(front, json), Frame("[DONE]"));
  }

  /** The event sequence finishes with `Done`. */
  predicate EndsWithDone(events: seq<Event>) {
    events != [] && events[|events| - 1] == Done
  }
}

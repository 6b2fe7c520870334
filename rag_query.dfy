/** `RAGService.query` and `generate_answer`: the event stream of one question. The store,
    the embedder and the language model are the fields of a `Backend`; JSON decoding of the
    model's reply lines is the parameter `parse`. */
module RagQuery {
  import opened Wrappers
  import opened Text
  import opened RagChunker
  import opened Ranking
  import opened Stream
  import LineDecoding

  /** One non-empty line of the model's reply, once decoded and parsed: `Unreadable` stands for
      every line whose decoding, parsing or inspection raises (each is skipped); a record has
      its `done` flag and its `message.content` (empty when absent). */
  datatype LineParse = Unreadable | Record(done: bool, content: string)

  /** What the service talks to: loading the collection (with the failure, if any), its entity
      count, the similarity search for a query text with a result limit, and posting a prompt. */
  datatype Backend = Backend(
    load: Option<string>,
    rowCount: Result<nat, string>,
    search: (string, nat) -> Result<seq<Hit>, string>,
    post: string -> Result<LineDecoding.Reply, string>)

  const EmptyIndexMessage := "集合中还没有任何文档，请先上传一些 PDF 文件。"
  const NoContextMessage := "抱歉，我没有找到与您问题相关的内容。您可以：" + "\n" + "1. 尝试换个方式提问" + "\n" + "2. 确认相关文档是否已上传"
  const CountFailurePrefix := "获取集合信息失败: "
  const QueryFailurePrefix := "查询处理失败: "

  predicate IsDoneLine(line: string, parse: string -> LineParse) {
    line != [] && parse(line).Record? && parse(line).done
  }

  predicate HasDone(lines: seq<string>, parse: string -> LineParse) {
    exists i :: 0 <= i < |lines| && IsDoneLine(lines[i], parse)
  }

  /** The events `generate_answer` yields for the reply lines. */
  function AnswerEvents(lines: seq<string>, parse: string -> LineParse): seq<Event>
    decreases |lines|
  {
    if lines == [] then []
    else if lines[0] == [] || parse(lines[0]).Unreadable? then AnswerEvents(lines[1..], parse)
    else if parse(lines[0]).done then [Done]
    else (if parse(lines[0]).content != [] then [Answer(parse(lines[0]).content)] else []) + AnswerEvents(lines[1..], parse)
  }

  /** The events of the lines from position `i` on: the line at `i`, then the rest. */
  lemma AnswerEventsAt(lines: seq<string>, i: nat, parse: string -> LineParse)
    requires i < |lines|
    ensures AnswerEvents(lines[i..], parse) ==
      if lines[i] == [] || parse(lines[i]).Unreadable? then AnswerEvents(lines[i + 1..], parse)
      else if parse(lines[i]).done then [Done]
      else (if parse(lines[i]).content != [] then [Answer(parse(lines[i]).content)] else []) + AnswerEvents(lines[i + 1..], parse)
  {
    assert lines[i..][0] == lines[i] && lines[i..][1..] == lines[i + 1..];
  }

  /** `generate_answer`: relays each non-empty content, stops at the first `done` record;
      `stopped` tells whether it did. */
  method GenerateAnswer(lines: seq<string>, parse: string -> LineParse) returns (events: seq<Event>, stopped: bool)
    ensures events == AnswerEvents(lines, parse)
    ensures stopped <==> HasDone(lines, parse)
  {
    events, stopped := [], false;
    ghost var all := AnswerEvents(lines, parse);
    var i := 0;
    assert lines[0..] == lines;
    while i < |lines|
      invariant i <= |lines|
      invariant forall j :: 0 <= j < i ==> !IsDoneLine(lines[j], parse)
      invariant events + AnswerEvents(lines[i..], parse) == all
    {
      var line := lines[i];
      AnswerEventsAt(lines, i, parse);
      ghost var here := AnswerEvents(lines[i..], parse);
      ghost var rest := AnswerEvents(lines[i + 1..], parse);
      if line != [] {
        var data := parse(line);
        if data.Record? {
          if data.done {
            assert here == [Done] && IsDoneLine(lines[i], parse);
            events := events + [Done];
            stopped := true;
            break;
          }
          if data.content != [] {
            assert here == [Answer(data.content)] + rest;
            AppendAssoc(events, [Answer(data.content)], rest);
            events := events + [Answer(data.content)];
          } else {
            assert here == [] + rest == rest;
          }
        } else {
          assert here == rest;
        }
      } else {
        assert here == rest;
      }
      assert events + rest == all;
      i := i + 1;
    }
    if !stopped {
      assert lines[i..] == [];
      assert events + [] == events;
    }
  }

  /** Before the first `done` record the answers follow the lines: the events of a prefix
      come first, unchanged. */
  lemma {:induction false} AnswerEventsAppend(a: seq<string>, b: seq<string>, parse: string -> LineParse)
    requires !HasDone(a, parse)
    ensures AnswerEvents(a + b, parse) == AnswerEvents(a, parse) + AnswerEvents(b, parse)
  {
    if a == [] {
      assert a + b == b;
    } else {
      assert (a + b)[0] == a[0] && (a + b)[1..] == a[1..] + b;
      assert !IsDoneLine(a[0], parse);
      assert !HasDone(a[1..], parse) by {
        forall i | 0 <= i < |a[1..]| ensures !IsDoneLine(a[1..][i], parse) {
          assert a[1..][i] == a[i + 1];
        }
      }
      AnswerEventsAppend(a[1..], b, parse);
    }
  }

  /** The first `done` record ends the answer: one `Done`, and nothing after it is read. */
  lemma AnswerEventsStop(a: seq<string>, d: string, b: seq<string>, parse: string -> LineParse)
    requires !HasDone(a, parse) && IsDoneLine(d, parse)
    ensures AnswerEvents(a + [d] + b, parse) == AnswerEvents(a, parse) + [Done]
  {
    assert a + [d] + b == a + ([d] + b);
    AnswerEventsAppend(a, [d] + b, parse);
  }

  /** Every answer event carries non-empty text, and `Done` comes only last, and only when a
      `done` record arrived. */
  lemma {:induction false} AnswerEventsShape(lines: seq<string>, parse: string -> LineParse)
    ensures forall k :: 0 <= k < |AnswerEvents(lines, parse)| ==>
      var e := AnswerEvents(lines, parse)[k];
      (e.Answer? && e.text != []) || (e == Done && k == |AnswerEvents(lines, parse)| - 1)
    ensures EndsWithDone(AnswerEvents(lines, parse)) <==> HasDone(lines, parse)
  {
    if lines != [] {
      AnswerEventsShape(lines[1..], parse);
      assert HasDone(lines, parse) <==> IsDoneLine(lines[0], parse) || HasDone(lines[1..], parse) by {
        if HasDone(lines[1..], parse) {
          var i :| 0 <= i < |lines[1..]| && IsDoneLine(lines[1..][i], parse);
          assert lines[i + 1] == lines[1..][i];
        }
        if HasDone(lines, parse) && !IsDoneLine(lines[0], parse) {
          var i :| 0 <= i < |lines| && IsDoneLine(lines[i], parse);
          assert lines[1..][i - 1] == lines[i];
        }
      }
    }
  }

  const Indent := "                "

  /** The prompt sent to the model: the fixed instructions, the contexts joined by blanks, and
      the (preprocessed) question, laid out as in the source's triple-quoted template. */
  function Prompt(contexts: seq<string>, query: string): string {
    "基于以下文档内容回答用户的问题。如果无法从文档中找到答案，请说明无法回答。\n"
    + Indent + "如果文档内容与问题相关，请详细解释。如果不相关，请明确指出。\n\n"
    + Indent + "文档内容：\n"
    + Indent + Join(contexts, " ") + "\n\n"
    + Indent + "用户问题：" + query + "\n\n"
    + Indent + "请提供准确、详细的回答："
  }

  /** The three events of the outer `except`. */
  function Failed(message: string): seq<Event> {
    [NoSources, Error(QueryFailurePrefix + message), Done]
  }

  /** The first event of the normal path: the ranked sources with their similarities, and the details. */
  function SourcesEvent(ranked: seq<Entry>): Event {
    Sources(SourceItems(ranked), DetailsOf(ranked))
  }

  /** The events once the prompt was posted: the sources, then the relayed answer closed
      by `Done`, or by the failure events when the stream broke off before a `done` record. */
  function Answered(ranked: seq<Entry>, posted: Result<LineDecoding.Reply, string>, parse: string -> LineParse): seq<Event> {
    if posted.Err? then [SourcesEvent(ranked)] + Failed(posted.error)
    else
      var answer := AnswerEvents(posted.value.lines, parse);
      if !HasDone(posted.value.lines, parse) && posted.value.failure.Some? then
        [SourcesEvent(ranked)] + answer + Failed(posted.value.failure.value)
      else [SourcesEvent(ranked)] + answer + [Done]
  }

  /** The events once the search for the preprocessed question `q` returned. */
  function Searched(found: Result<seq<Hit>, string>, q: string, post: string -> Result<LineDecoding.Reply, string>,
                    parse: string -> LineParse): seq<Event> {
    if found.Err? then Failed(found.error)
    else if Entries(found.value) == [] then [NoSources, Answer(NoContextMessage), Done]
    else
      var ranked := Ranked(found.value);
      Answered(ranked, post(Prompt(ContextsOf(ranked), q)), parse)
  }

  /** The events `query` yields, on every path. */
  function QueryEvents(query: string, b: Backend, parse: string -> LineParse): seq<Event> {
    if b.load.Some? then Failed(b.load.value)
    else if b.rowCount.Err? then [NoSources, Error(CountFailurePrefix + b.rowCount.error), Done]
    else if b.rowCount.value == 0 then [NoSources, Answer(EmptyIndexMessage), Done]
    else
      var q := PreprocessText(query);
      Searched(b.search(q, SearchLimit), q, b.post, parse)
  }

  /** `zip` of the four parallel lists. */
  function Zip4(contexts: seq<string>, sources: seq<string>, scores: seq<real>, details: seq<Detail>): (r: seq<Entry>)
    requires |contexts| == |sources| == |scores| == |details|
    ensures |r| == |contexts|
    ensures forall k :: 0 <= k < |r| ==> r[k] == Entry(contexts[k], sources[k], scores[k], details[k])
  {
    seq(|contexts|, k requires 0 <= k < |contexts| => Entry(contexts[k], sources[k], scores[k], details[k]))
  }

  /** `query`: the count check, the search for the preprocessed question, the loop collecting
      the contexts, the sort, the sources event, the prompt and the relayed answer. */
  method Query(query: string, b: Backend, parse: string -> LineParse) returns (events: seq<Event>)
    ensures events == QueryEvents(query, b, parse)
  {
    if b.load.Some? {
      return Failed(b.load.value);
    }
    if b.rowCount.Err? {
      return [NoSources, Error(CountFailurePrefix + b.rowCount.error), Done];
    }
    if b.rowCount.value == 0 {
      return [NoSources, Answer(EmptyIndexMessage), Done];
    }
    var q := PreprocessText(query);
    var found := b.search(q, SearchLimit);
    if found.Err? {
      return Failed(found.error);
    }
    var contexts, sources, scores, details := CollectContexts(found.value);
    if contexts == [] {
      return [NoSources, Answer(NoContextMessage), Done];
    }
    var items := Zip4(contexts, sources, scores, details);
    assert items == Entries(found.value);
    var ranked := SortDesc(items);
    UnzipZip(ranked);
    var sourceItems := CollectSourceItems(SourcesOf(ranked), ScoresOf(ranked));
    assert sourceItems == SourceItems(ranked);
    events := [Sources(sourceItems, DetailsOf(ranked))];
    var posted := b.post(Prompt(ContextsOf(ranked), q));
    if posted.Err? {
      return events + Failed(posted.error);
    }
    var answer, stopped := GenerateAnswer(posted.value.lines, parse);
    events := events + answer;
    if !stopped && posted.value.failure.Some? {
      events := events + Failed(posted.value.failure.value);
      return;
    }
    events := events + [Done];
  }

  /** `zip(*…)` undoes `zip`: the four lists come back from their zipped entries. */
  lemma ZipUnzip(contexts: seq<string>, sources: seq<string>, scores: seq<real>, details: seq<Detail>)
    requires |contexts| == |sources| == |scores| == |details|
    ensures var es := Zip4(contexts, sources, scores, details);
      ContextsOf(es) == contexts && SourcesOf(es) == sources && ScoresOf(es) == scores && DetailsOf(es) == details
  {
  }

  /** and `zip` undoes `zip(*…)`: the entries come back from their four projections. */
  lemma UnzipZip(es: seq<Entry>)
    ensures Zip4(ContextsOf(es), SourcesOf(es), ScoresOf(es), DetailsOf(es)) == es
  {
  }

  /** The sources event `query` starts with: the ranked sources once the search found a
      context, and the empty one on every other path. */
  function FirstEvent(query: string, b: Backend): Event {
    if b.load.None? && b.rowCount.Ok? && b.rowCount.value > 0 then
      var found := b.search(PreprocessText(query), SearchLimit);
      if found.Ok? && Entries(found.value) != [] then SourcesEvent(Ranked(found.value)) else NoSources
    else NoSources
  }

  lemma TripleEnds(a: Event, b: Event)
    ensures EndsWithDone([a, b, Done]) && [a, b, Done][0] == a
  {
  }

  /** After the prompt was posted the events start with the sources and end with `Done`. */
  lemma AnsweredEnds(ranked: seq<Entry>, posted: Result<LineDecoding.Reply, string>, parse: string -> LineParse)
    ensures var ev := Answered(ranked, posted, parse);
      EndsWithDone(ev) && ev[0] == SourcesEvent(ranked)
  {
    var ev := Answered(ranked, posted, parse);
    var tail := if posted.Err? then Failed(posted.error)
      else if !HasDone(posted.value.lines, parse) && posted.value.failure.Some? then Failed(posted.value.failure.value)
      else [Done];
    var answer := if posted.Err? then [] else AnswerEvents(posted.value.lines, parse);
    assert ev == [SourcesEvent(ranked)] + (answer + tail);
    assert ev[|ev| - 1] == tail[|tail| - 1];
  }

  /** After the search the events start with the sources event (the empty one when nothing was
      found) and end with `Done`. */
  lemma SearchedEnds(found: Result<seq<Hit>, string>, q: string, post: string -> Result<LineDecoding.Reply, string>,
                     parse: string -> LineParse)
    ensures var ev := Searched(found, q, post, parse);
      EndsWithDone(ev) &&
      ev[0] == (if found.Ok? && Entries(found.value) != [] then SourcesEvent(Ranked(found.value)) else NoSources)
  {
    if found.Err? {
      TripleEnds(NoSources, Error(QueryFailurePrefix + found.error));
    } else if Entries(found.value) == [] {
      TripleEnds(NoSources, Answer(NoContextMessage));
    } else {
      var ranked := Ranked(found.value);
      AnsweredEnds(ranked, post(Prompt(ContextsOf(ranked), q)), parse);
    }
  }

  /** Every path starts with its sources event and ends with `data: [DONE]`. */
  lemma QueryEnds(query: string, b: Backend, parse: string -> LineParse)
    ensures EndsWithDone(QueryEvents(query, b, parse))
    ensures QueryEvents(query, b, parse)[0] == FirstEvent(query, b)
  {
    if b.load.Some? {
      TripleEnds(NoSources, Error(QueryFailurePrefix + b.load.value));
    } else if b.rowCount.Err? {
      TripleEnds(NoSources, Error(CountFailurePrefix + b.rowCount.error));
    } else if b.rowCount.value == 0 {
      TripleEnds(NoSources, Answer(EmptyIndexMessage));
    } else {
      var q := PreprocessText(query);
      SearchedEnds(b.search(q, SearchLimit), q, b.post, parse);
    }
  }

  /** An empty collection: no sources, the fixed notice, `Done`; the search and the model are not consulted. */
  lemma QueryEmptyIndex(query: string, b: Backend, parse: string -> LineParse,
                        search: (string, nat) -> Result<seq<Hit>, string>, post: string -> Result<LineDecoding.Reply, string>)
    requires b.load.None? && b.rowCount == Ok(0)
    ensures QueryEvents(query, b, parse) == [NoSources, Answer(EmptyIndexMessage), Done]
    ensures QueryEvents(query, b.(search := search, post := post), parse) == QueryEvents(query, b, parse)
  {
  }

  /** No hit passes the filter: no sources, the fixed apology, `Done`; the model is not consulted. */
  lemma QueryNoContext(query: string, b: Backend, parse: string -> LineParse, post: string -> Result<LineDecoding.Reply, string>)
    requires b.load.None? && b.rowCount.Ok? && b.rowCount.value > 0
    requires b.search(PreprocessText(query), SearchLimit).Ok?
    requires forall h :: h in b.search(PreprocessText(query), SearchLimit).value ==> !Kept(h)
    ensures QueryEvents(query, b, parse) == [NoSources, Answer(NoContextMessage), Done]
    ensures QueryEvents(query, b.(post := post), parse) == QueryEvents(query, b, parse)
  {
    var q := PreprocessText(query);
    EntriesEmptyIff(b.search(q, SearchLimit).value);
    assert QueryEvents(query, b, parse) == Searched(b.search(q, SearchLimit), q, b.post, parse);
    assert QueryEvents(query, b.(post := post), parse) == Searched(b.search(q, SearchLimit), q, post, parse);
  }

  /** A failure before anything was sent: no sources, the error, `Done`. */
  lemma QueryFailsEarly(query: string, b: Backend, parse: string -> LineParse)
    requires b.load.Some? || b.rowCount.Err? ||
      (b.rowCount.value > 0 && b.search(PreprocessText(query), SearchLimit).Err?)
    ensures QueryEvents(query, b, parse) ==
      if b.load.Some? then Failed(b.load.value)
      else if b.rowCount.Err? then [NoSources, Error(CountFailurePrefix + b.rowCount.error), Done]
      else Failed(b.search(PreprocessText(query), SearchLimit).error)
  {
  }

  /** The stream ends with two `Done` events after at least one other. */
  predicate EndsWithTwoDones(ev: seq<Event>) {
    |ev| >= 3 && ev[|ev| - 2] == Done && ev[|ev| - 1] == Done
  }

  /** A `done` record after the prompt was posted: the answer's `Done` and the closing one. */
  lemma AnsweredDoubleDone(ranked: seq<Entry>, posted: Result<LineDecoding.Reply, string>, parse: string -> LineParse)
    requires posted.Ok? && HasDone(posted.value.lines, parse)
    ensures EndsWithTwoDones(Answered(ranked, posted, parse))
  {
    var answer := AnswerEvents(posted.value.lines, parse);
    AnswerEventsShape(posted.value.lines, parse);
    var ev := Answered(ranked, posted, parse);
    assert ev == [SourcesEvent(ranked)] + answer + [Done];
    assert ev[|ev| - 2] == answer[|answer| - 1];
  }

  /** On the normal path a `done` record makes the stream end with two `Done` events:
      the one `generate_answer` yields and the one `query` adds after it. */
  lemma QueryDoubleDone(query: string, b: Backend, parse: string -> LineParse)
    requires b.load.None? && b.rowCount.Ok? && b.rowCount.value > 0
    requires var found := b.search(PreprocessText(query), SearchLimit);
      found.Ok? && Entries(found.value) != [] &&
      var posted := b.post(Prompt(ContextsOf(Ranked(found.value)), PreprocessText(query)));
      posted.Ok? && HasDone(posted.value.lines, parse)
    ensures EndsWithTwoDones(QueryEvents(query, b, parse))
  {
    var q := PreprocessText(query);
    var found := b.search(q, SearchLimit);
    var ranked := Ranked(found.value);
    var posted := b.post(Prompt(ContextsOf(ranked), q));
    assert QueryEvents(query, b, parse) == Searched(found, q, b.post, parse);
    assert Searched(found, q, b.post, parse) == Answered(ranked, posted, parse);
    AnsweredDoubleDone(ranked, posted, parse);
  }

  /** The sources event lists at most as many sources as the search returned (so at most
      five from a store that honours the limit), every one above the threshold, in
      descending order of similarity. */
  lemma SourcesEventShape(hits: seq<Hit>)
    ensures var e := SourcesEvent(Ranked(hits));
      |e.items| <= |hits| &&
      (forall k :: 0 <= k < |e.items| ==> e.items[k].similarity > Threshold) &&
      (forall i, j :: 0 <= i < j < |e.items| ==> e.items[i].similarity >= e.items[j].similarity) &&
      |e.contexts| == |e.items| &&
      (forall k :: 0 <= k < |e.items| ==> exists h :: (h in hits && Kept(h) &&
         e.items[k] == SourceItem(SourceInfo(h), Similarity(h.distance)) && e.contexts[k] == EntryOf(h).detail))
  {
    RankedAligned(hits);
    RankedAboveThreshold(hits);
    var ranked := Ranked(hits);
    forall k | 0 <= k < |ranked| ensures ranked[k].score > Threshold {
      assert ranked[k] in ranked;
    }
    var e := SourcesEvent(ranked);
    forall k | 0 <= k < |e.items|
      ensures exists h :: (h in hits && Kept(h) &&
        e.items[k] == SourceItem(SourceInfo(h), Similarity(h.distance)) && e.contexts[k] == EntryOf(h).detail)
    {
      assert k < |Ranked(hits)|;
      assert exists h :: h in hits && Kept(h) && Ranked(hits)[k] == EntryOf(h);
      var h :| h in hits && Kept(h) && Ranked(hits)[k] == EntryOf(h);
      SourcesEventAt(ranked, k, h);
    }
    assert |e.contexts| == |ranked| == |e.items|;
    assert forall k :: 0 <= k < |e.items| ==> e.items[k].similarity == ranked[k].score;
  }

  /** Position `k` of the sources event built from an entry of hit `h` shows `h`. */
  lemma SourcesEventAt(ranked: seq<Entry>, k: nat, h: Hit)
    requires k < |ranked| && ranked[k] == EntryOf(h)
    ensures SourcesEvent(ranked).items[k] == SourceItem(SourceInfo(h), Similarity(h.distance))
    ensures SourcesEvent(ranked).contexts[k] == EntryOf(h).detail
  {
  }
}

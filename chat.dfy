/** `ChatService`: a conversation with the language model that keeps the last ten messages
    as history. Posting the request is the parameter `post`, which receives the messages sent. */
module Chat {
  import opened Wrappers
  import opened Text
  import opened Stream
  import opened LineDecoding

  datatype Role = User | Assistant

  datatype ChatMessage = ChatMessage(role: Role, content: string)

  const MaxHistory: nat := 10
  const ChatFailurePrefix := "对话处理失败: "

  /** `history[-10:]` when the history is longer than ten, otherwise the history itself. */
  function LastTen(h: seq<ChatMessage>): (r: seq<ChatMessage>)
    ensures |r| <= MaxHistory && |r| <= |h| && r == h[|h| - |r|..]
    ensures |h| <= MaxHistory ==> r == h
    ensures |h| > MaxHistory ==> |r| == MaxHistory
  {
    if |h| > MaxHistory then h[|h| - MaxHistory..] else h
  }

  /** The history after a `done` record: the user's message, the reply if it is non-empty,
      trimmed to the last ten messages. */
  function Recorded(history: seq<ChatMessage>, message: string, response: string): seq<ChatMessage> {
    LastTen(history + [ChatMessage(User, message)] + (if response != [] then [ChatMessage(Assistant, response)] else []))
  }

  datatype Turn = Turn(events: seq<Event>, history: seq<ChatMessage>)

  /** One call of `chat`: the events it yields and the history it leaves. */
  function ChatTurn(history: seq<ChatMessage>, message: string, posted: Result<Reply, string>, d: Decoder): Turn {
    match posted
    case Err(e) => Turn([Error(ChatFailurePrefix + e), Done], history)
    case Ok(reply) =>
      var r := ReadReply(reply.lines, d);
      if r.done then Turn(r.events + [Done], Recorded(history, message, r.response))
      else if reply.failure.Some? then Turn(r.events + [Error(ChatFailurePrefix + reply.failure.value), Done], history)
      else Turn(r.events, history)
  }

  /** The history changes only when a `done` record arrives, and then it records the turn. */
  lemma ChatTurnHistory(history: seq<ChatMessage>, message: string, posted: Result<Reply, string>, d: Decoder)
    ensures var t := ChatTurn(history, message, posted, d);
      if posted.Ok? && HasDone(posted.value.lines, d)
      then t.history == Recorded(history, message, ReadReply(posted.value.lines, d).response)
      else t.history == history
    ensures |history| <= MaxHistory ==> |ChatTurn(history, message, posted, d).history| <= MaxHistory
  {
    if posted.Ok? {
      ReadReplyShape(posted.value.lines, d);
    }
  }

  /** The turn's events: `Done` exactly when a `done` record arrived or the request or the
      stream failed, and then only as the last event. */
  lemma ChatTurnEvents(history: seq<ChatMessage>, message: string, posted: Result<Reply, string>, d: Decoder)
    ensures var t := ChatTurn(history, message, posted, d);
      (Done in t.events <==> posted.Err? || HasDone(posted.value.lines, d) || posted.value.failure.Some?) &&
      (Done in t.events ==> t.events[|t.events| - 1] == Done && Done !in t.events[..|t.events| - 1])
    ensures posted.Err? ==> ChatTurn(history, message, posted, d).events == [Error(ChatFailurePrefix + posted.error), Done]
  {
    if posted.Ok? {
      var r := ReadReply(posted.value.lines, d);
      ReadReplyShape(posted.value.lines, d);
      assert Done !in r.events;
      var t := ChatTurn(history, message, posted, d);
      if r.done {
        assert t.events[..|t.events| - 1] == r.events;
      } else if posted.value.failure.Some? {
        assert t.events[..|t.events| - 1] == r.events + [Error(ChatFailurePrefix + posted.value.failure.value)];
      }
    }
  }

  class ChatService {
    var history: seq<ChatMessage>

    ghost predicate Valid()
      reads this
    {
      |history| <= MaxHistory
    }

    constructor()
      ensures history == [] && Valid()
    {
      history := [];
    }

    /** `chat`: sends the history followed by the user's message, relays the reply, and
        records the turn when the model says it is done. */
    method Chat(message: string, post: seq<ChatMessage> -> Result<Reply, string>, d: Decoder) returns (events: seq<Event>)
      requires Valid()
      modifies this
      ensures Valid()
      ensures Turn(events, history) == ChatTurn(old(history), message, post(old(history) + [ChatMessage(User, message)]), d)
    {
      var posted := post(history + [ChatMessage(User, message)]);
      if posted.Err? {
        events := [Error(ChatFailurePrefix + posted.error), Done];
        return;
      }
      var lines := posted.value.lines;
      ghost var all := ReadReply(lines, d);
      var fullResponse := "";
      events := [];
      var done := false;
      var i := 0;
      while i < |lines|
        invariant i <= |lines|
        invariant !done && history == old(history)
        invariant all.done == ReadReply(lines[i..], d).done
        invariant events + ReadReply(lines[i..], d).events == all.events
        invariant fullResponse + ReadReply(lines[i..], d).response == all.response
      {
        var line := lines[i];
        ReadReplyAt(lines, i, d);
        ghost var rest := ReadReply(lines[i + 1..], d);
        if line == [] {
          i := i + 1;
          continue;
        }
        var data := ReadLine(line, d);
        if data.Fault? {
          AppendAssoc(events, [Error(data.reason)], rest.events);
          events := events + [Error(data.reason)];
        } else if data.Record? {
          if data.done {
            assert fullResponse + [] == fullResponse && events + [] == events;
            ghost var recorded := history + [ChatMessage(User, message)]
              + (if fullResponse != [] then [ChatMessage(Assistant, fullResponse)] else []);
            history := history + [ChatMessage(User, message)];
            if fullResponse != [] {
              history := history + [ChatMessage(Assistant, fullResponse)];
            }
            assert history == recorded;
            if |history| > MaxHistory {
              history := history[|history| - MaxHistory..];
            }
            events := events + [Done];
            done := true;
            break;
          }
          if data.content != [] {
            AppendAssoc(fullResponse, data.content, rest.response);
            AppendAssoc(events, [Answer(data.content)], rest.events);
            fullResponse := fullResponse + data.content;
            events := events + [Answer(data.content)];
          }
        }
        i := i + 1;
      }
      if !done {
        assert lines[i..] == [];
        if posted.value.failure.Some? {
          events := events + [Error(ChatFailurePrefix + posted.value.failure.value), Done];
        }
      }
    }

    /** `clear_history`. */
    method ClearHistory()
      modifies this
      ensures history == [] && Valid()
    {
      history := [];
    }
  }
}

/** The request guards of the web application: which upload file names are accepted, and the
    answers to an empty query or chat message, ahead of the services they protect. Flask's
    request objects become their fields (the query argument, the JSON body, the uploaded file
    name), and every guard either rejects with its message or passes the request on. */
module Routes {
  import opened Wrappers
  import opened Text
  import opened Stream
  import RagQuery
  import LineDecoding
  import Chat
  import Speech

  /** `ALLOWED_EXTENSIONS`. */
  const AllowedExtensions: set<string> := {"pdf", "wav", "mp3"}

  /** Where the last `.` is. */
  function LastDot(s: string): (r: Option<nat>)
    ensures r.Some? ==> r.value < |s| && s[r.value] == '.' && '.' !in s[r.value + 1..]
    ensures r.None? <==> '.' !in s
    decreases |s|
  {
    if s == [] then None
    else if s[|s| - 1] == '.' then Some(|s| - 1)
    else
      var r := LastDot(s[..|s| - 1]);
      assert s == s[..|s| - 1] + [s[|s| - 1]];
      if r.Some? then
        assert s[r.value + 1..] == s[..|s| - 1][r.value + 1..] + [s[|s| - 1]];
        r
      else r
  }

  /** `filename.rsplit('.', 1)[1]`: the text after the last `.`. */
  function Extension(filename: string): Option<string> {
    match LastDot(filename)
    case None => None
    case Some(i) => Some(filename[i + 1..])
  }

  /** `allowed_file`. */
  function AllowedFile(filename: string): (r: bool)
    ensures '.' !in filename ==> !r
  {
    match Extension(filename)
    case None => false
    case Some(ext) => Lower(ext) in AllowedExtensions
  }

  /** Characters after the last `.` that hold no `.` do not move it. */
  lemma {:induction false} LastDotPastSuffix(p: string, ext: string)
    requires '.' !in ext
    ensures LastDot(p + ext) == LastDot(p)
    decreases |ext|
  {
    if ext != [] {
      var s := p + ext;
      var init := ext[..|ext| - 1];
      assert ext[|ext| - 1] in ext;
      assert '.' !in init by {
        forall i | 0 <= i < |init| ensures init[i] != '.' {
          assert init[i] == ext[i];
        }
      }
      assert s[|s| - 1] == ext[|ext| - 1];
      assert LastDot(s) == LastDot(s[..|s| - 1]);
      assert s[..|s| - 1] == p + init;
      LastDotPastSuffix(p, init);
    } else {
      assert p + ext == p;
    }
  }

  /** The extension of `stem.ext` is `ext` when `ext` holds no `.`, whatever the stem. */
  lemma ExtensionOf(stem: string, ext: string)
    requires '.' !in ext
    ensures Extension(stem + "." + ext) == Some(ext)
  {
    var s := stem + "." + ext;
    var p := stem + ".";
    assert p[|p| - 1] == '.';
    LastDotPastSuffix(p, ext);
    assert s == p + ext;
    assert s[|stem| + 1..] == ext;
  }

  /** `allowed_file` looks only at what follows the last `.`, in either case. */
  lemma AllowedFileByExtension(stem: string, ext: string)
    requires '.' !in ext
    ensures AllowedFile(stem + "." + ext) <==> Lower(ext) in AllowedExtensions
  {
    ExtensionOf(stem, ext);
  }

  /** A name whose lower-cased form ends with a dot and lower-case letters has those letters,
      up to case, as its extension; so `allowed_file` decides by them alone. */
  lemma AllowedBySuffix(filename: string, letters: string)
    requires EndsWith(Lower(filename), "." + letters)
    requires '.' !in letters
    ensures AllowedFile(filename) <==> letters in AllowedExtensions
  {
    var n := |filename| - |letters|;
    var low := Lower(filename);
    assert low[n - 1..] == "." + letters;
    assert low[n - 1] == '.';
    var stem, ext := filename[..n - 1], filename[n..];
    assert stem + "." + ext == filename;
    forall i | 0 <= i < |ext| ensures ext[i] != '.' && LowerChar(ext[i]) == letters[i] {
      assert low[n + i] == letters[i];
    }
    assert Lower(ext) == letters;
    ExtensionOf(stem, ext);
  }

  const EmptyQueryMessage := "查询内容不能为空"

  /** The events the `/query` endpoint streams for the `query` argument (`None` when absent). */
  function QueryResponse(arg: Option<string>, b: RagQuery.Backend, parse: string -> RagQuery.LineParse): (r: seq<Event>)
    ensures Strip(arg.GetOr("")) == [] ==> r == [Error(EmptyQueryMessage)]
    ensures Strip(arg.GetOr("")) != [] ==> r == RagQuery.QueryEvents(Strip(arg.GetOr("")), b, parse)
  {
    var query := Strip(arg.GetOr(""));
    if query == [] then [Error(EmptyQueryMessage)] else RagQuery.QueryEvents(query, b, parse)
  }

  /** An empty query is answered with one error and no `[DONE]`; every other query's
      stream ends with `[DONE]`. */
  lemma QueryResponseDone(arg: Option<string>, b: RagQuery.Backend, parse: string -> RagQuery.LineParse)
    ensures EndsWithDone(QueryResponse(arg, b, parse)) <==> Strip(arg.GetOr("")) != []
    ensures Strip(arg.GetOr("")) == [] ==> Done !in QueryResponse(arg, b, parse)
  {
    if Strip(arg.GetOr("")) != [] {
      RagQuery.QueryEnds(Strip(arg.GetOr("")), b, parse);
    }
  }

  /** A query of only whitespace counts as empty. */
  lemma BlankQueryRejected(arg: string, b: RagQuery.Backend, parse: string -> RagQuery.LineParse)
    requires forall i :: 0 <= i < |arg| ==> IsSpace(arg[i])
    ensures QueryResponse(Some(arg), b, parse) == [Error(EmptyQueryMessage)]
  {
    StripEmptyIff(arg);
  }

  const InvalidRequestMessage := "无效的请求数据"
  const EmptyMessageMessage := "消息不能为空"

  const RequestFailurePrefix := "处理请求失败: "

  /** What the `try` block of `chat_message` makes of the request body: an exception raised
      by `request.get_json()`, `data.get` or `.strip()` (a malformed or non-JSON body, a JSON
      value that is not an object, a `message` that is not a string), a falsy body (none,
      `{}`, `[]`, `""`, `0`), or an object with its `message` field (`None` when absent). */
  datatype ChatBody = Raised(reason: string) | Falsy | Object(message: Option<string>)

  /** The `/chat` guard: an exception gives the request-failure answer, a falsy body is an
      invalid request, a blank message is rejected, and `Ok` carries the stripped message. */
  function ChatGuard(body: ChatBody): (r: Result<string, string>)
    ensures body.Raised? ==> r == Err(RequestFailurePrefix + body.reason)
    ensures body.Falsy? ==> r == Err(InvalidRequestMessage)
    ensures body.Object? ==> (r.Err? <==> Strip(body.message.GetOr("")) == [])
    ensures body.Object? && r.Err? ==> r.error == EmptyMessageMessage
    ensures r.Ok? ==> body.Object? && r.value == Strip(body.message.GetOr("")) && r.value != [] && NoSpaceAtEnds(r.value)
  {
    match body
    case Raised(reason) => Err(RequestFailurePrefix + reason)
    case Falsy => Err(InvalidRequestMessage)
    case Object(field) =>
      var message := Strip(field.GetOr(""));
      if message == [] then Err(EmptyMessageMessage) else Ok(message)
  }

  /** `chat_message`: a rejected request is one error event and leaves the history alone;
      any other message is a turn of the chat service. */
  method ChatMessage(service: Chat.ChatService, body: ChatBody,
                     post: seq<Chat.ChatMessage> -> Result<LineDecoding.Reply, string>, d: LineDecoding.Decoder)
    returns (events: seq<Event>)
    requires service.Valid()
    modifies service
    ensures service.Valid()
    ensures ChatGuard(body).Err? ==> events == [Error(ChatGuard(body).error)] && service.history == old(service.history)
    ensures ChatGuard(body).Ok? ==>
      Chat.Turn(events, service.history)
      == Chat.ChatTurn(old(service.history), ChatGuard(body).value,
                       post(old(service.history) + [Chat.ChatMessage(Chat.User, ChatGuard(body).value)]), d)
  {
    var guard := ChatGuard(body);
    if guard.Err? {
      return [Error(guard.error)];
    }
    events := service.Chat(guard.value, post, d);
  }

  const NoAudioMessage := "没有上传音频文件"
  const UnsupportedFormatMessage := "不支持的文件格式"
  const ProcessingFailurePrefix := "处理失败: "

  /** `process_speech`: the file name of the `audio` part (`None` when there is none) is
      checked with `allowed_file`, then the recording is processed; a failure of the
      processing is reported with its prefix. */
  function ProcessSpeech(audio: Option<string>, sampleRate: int, received: seq<Speech.Received>,
                         json: string -> Speech.WsParse, post: string -> Result<LineDecoding.Reply, string>,
                         d: LineDecoding.Decoder): (r: Result<Speech.AudioResult, string>)
    ensures audio.None? ==> r == Err(NoAudioMessage)
    ensures audio.Some? && !AllowedFile(audio.value) ==> r == Err(UnsupportedFormatMessage)
    ensures r.Ok? ==> r.value.Processed? && r.value.transcription != []
  {
    if audio.None? then Err(NoAudioMessage)
    else if audio.value == [] || !AllowedFile(audio.value) then Err(UnsupportedFormatMessage)
    else match Speech.AudioOutcome(sampleRate, received, json, post, d)
      case Err(e) => Err(ProcessingFailurePrefix + e)
      case Ok(v) => Ok(v)
  }

  const NoFileMessage := "没有文件被上传"
  const NoSelectionMessage := "没有选择文件"
  const PdfOnlyMessage := "只支持 PDF 文件格式"
  const AudioOnlyMessage := "只支持 MP3、WAV、M4A 格式的音频文件"

  /** `upload_document`'s checks on the `file` part: `Ok` when the file goes on to be processed. */
  function DocumentUpload(file: Option<string>): (r: Result<string, string>)
    ensures r.Ok? <==> file.Some? && EndsWith(Lower(file.value), ".pdf")
    ensures file.None? ==> r == Err(NoFileMessage)
    ensures file == Some("") ==> r == Err(NoSelectionMessage)
  {
    if file.None? then Err(NoFileMessage)
    else if file.value == "" then Err(NoSelectionMessage)
    else if EndsWith(Lower(file.value), ".pdf") then Ok(file.value)
    else Err(PdfOnlyMessage)
  }

  /** `upload_audio`'s checks on the `file` part. */
  function AudioUpload(file: Option<string>): (r: Result<string, string>)
    ensures r.Ok? <==> file.Some? && (EndsWith(Lower(file.value), ".mp3") || EndsWith(Lower(file.value), ".wav")
                                      || EndsWith(Lower(file.value), ".m4a"))
    ensures file.None? ==> r == Err(NoFileMessage)
    ensures file == Some("") ==> r == Err(NoSelectionMessage)
  {
    if file.None? then Err(NoFileMessage)
    else if file.value == "" then Err(NoSelectionMessage)
    else if EndsWith(Lower(file.value), ".mp3") || EndsWith(Lower(file.value), ".wav")
            || EndsWith(Lower(file.value), ".m4a") then Ok(file.value)
    else Err(AudioOnlyMessage)
  }

  /** Every document the upload accepts (those ending in `.pdf`) also passes `allowed_file`. */
  lemma DocumentUploadAllowed(filename: string)
    requires EndsWith(Lower(filename), ".pdf")
    ensures AllowedFile(filename)
  {
    assert EndsWith(Lower(filename), "." + "pdf");
    AllowedBySuffix(filename, "pdf");
  }

  /** An audio upload other than `.m4a` (those ending in `.mp3` or `.wav`) also passes
      `allowed_file`. */
  lemma AudioUploadAllowed(filename: string)
    requires EndsWith(Lower(filename), ".mp3") || EndsWith(Lower(filename), ".wav")
    ensures AllowedFile(filename)
  {
    if EndsWith(Lower(filename), ".mp3") {
      assert EndsWith(Lower(filename), "." + "mp3");
      AllowedBySuffix(filename, "mp3");
    } else {
      assert EndsWith(Lower(filename), "." + "wav");
      AllowedBySuffix(filename, "wav");
    }
  }

  /** The audio upload accepts an `.m4a` file that `allowed_file` refuses. */
  lemma M4aAcceptedButNotAllowed()
    ensures AudioUpload(Some("talk.m4a")).Ok? && !AllowedFile("talk.m4a")
  {
    LowerNoOp("talk.m4a");
    assert EndsWith(Lower("talk.m4a"), "." + "m4a");
    AllowedBySuffix("talk.m4a", "m4a");
  }
}

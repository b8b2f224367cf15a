/**
  The POST branch of the bot's webhook: it takes the message body, decides
  which single reply to send, and on a YouTube link fetches the transcript,
  has it summarised, saves the summary under a name derived from the video id
  and replies with a download link.

  The transcript service, the text generator and the file system are outside
  the model; they come in as the total functions of `Services`, where `None`
  (or `false` for the file write) stands for "raised an exception". The
  handler's result is the reply it sets plus the calls it made to those
  services, in order.
 */
module Bot {
  import opened Wrappers
  import opened Text
  import opened YouTube

  /** One caption fragment as the transcript service returns it; only `text` is read. */
  datatype Fragment = Fragment(text: string, start: real, duration: real)

  /** The body of the one outbound message. */
  datatype Reply =
    | AskForLink                    // no YouTube link in the message
    | InvalidLink                   // a YouTube link without a usable video id
    | SummaryReady(fileUrl: string) // the summary was saved; here is where to download it
    | FetchFailed                   // transcript, summary or save raised

  /** A call the handler makes to the outside world. */
  datatype Call =
    | GetTranscript(videoId: string)
    | Generate(prompt: string)
    | WriteFile(path: string, content: string)

  /** The external collaborators of the handler. */
  datatype Services = Services(
    transcript: string -> Option<seq<Fragment>>,
    generate: string -> Option<string>,
    save: (string, string) -> bool)

  /** What one POST request produces: the reply and the calls made, in order. */
  datatype Outcome = Outcome(reply: Reply, calls: seq<Call>)

  /** The fixed instruction put in front of the transcript. */
  const PromptHeader := "Summarize this YouTube video transcript in simple points:\n\n"

  /** The directory the summaries are written to and served from. */
  const SummaryDir := "summaries"

  /** The `text` fields of the fragments, in order. */
  function Texts(fragments: seq<Fragment>): (texts: seq<string>)
    ensures |texts| == |fragments|
    ensures forall i :: 0 <= i < |fragments| ==> texts[i] == fragments[i].text
  {
    seq(|fragments|, i requires 0 <= i < |fragments| => fragments[i].text)
  }

  /** The transcript as one string: the fragments' texts joined by single spaces. */
  function TranscriptText(fragments: seq<Fragment>): string {
    JoinWithSpace(Texts(fragments))
  }

  /** The prompt `summarize_text` sends to the generator. */
  function SummaryPrompt(text: string): string {
    PromptHeader + text
  }

  /** The name of the file a video's summary is saved under. */
  function SummaryFileName(videoId: string): string {
    videoId + "_summary.txt"
  }

  /** `os.path.join("summaries", filename)`: the file name never starts with
      `/`, so the join is a plain concatenation with a separator. The file
      lands in the `summaries/` directory under the video's file name. */
  function SummaryFilePath(videoId: string): (path: string)
    ensures path == "summaries/" + SummaryFileName(videoId)
  {
    assert SummaryDir + "/" == "summaries/";
    SummaryDir + "/" + SummaryFileName(videoId)
  }

  /** The download link built from the request's host URL. It points at the
      file the summary was written to: the host URL followed by the path. */
  function FileUrl(hostUrl: string, videoId: string): (url: string)
    ensures url == hostUrl + SummaryFilePath(videoId)
  {
    hostUrl + "summaries/" + videoId + "_summary.txt"
  }

  /** The text of each reply. */
  function ReplyBody(reply: Reply): string {
    match reply
    case AskForLink => "\U{1F4CC} Please send a valid YouTube video link."
    case InvalidLink => "\U{274C} Invalid YouTube link. Please try again."
    case SummaryReady(url) => "\U{2705} Summary ready! Download here:\n" + url
    case FetchFailed => "\U{26A0}\U{FE0F} Failed to fetch transcript. " + "It might be disabled or unavailable."
  }

  /** The message mentions YouTube by either of its host names (`"youtube.com" in msg or "youtu.be" in msg`). */
  predicate MentionsYouTube(msg: string) {
    Contains(msg, "youtube.com") || Contains(msg, "youtu.be")
  }

  /** The form's `Body` field, `""` when absent, stripped of surrounding whitespace. */
  function IncomingMessage(body: Option<string>): (msg: string)
    ensures IsStripOf(body.GetOr(""), msg)
    ensures body.None? ==> msg == ""
  {
    Strip(body.GetOr(""))
  }

  /** The single reply the handler sets for the stripped message `msg`, and the
      calls it makes on the way. The calls are always a prefix of "fetch the
      transcript, generate the summary, write the file", and the transcript is
      only ever fetched for a well-formed video id. */
  function Respond(msg: string, hostUrl: string, env: Services): (o: Outcome)
    ensures |o.calls| <= 3
    ensures forall i :: 0 <= i < |o.calls| ==>
              && (o.calls[i].GetTranscript? <==> i == 0)
              && (o.calls[i].Generate? <==> i == 1)
              && (o.calls[i].WriteFile? <==> i == 2)
    ensures forall i :: 0 <= i < |o.calls| && o.calls[i].GetTranscript? ==> IsVideoId(o.calls[i].videoId)
    ensures o.calls == [] <==> o.reply == AskForLink || o.reply == InvalidLink
    ensures o.reply.SummaryReady? ==> |o.calls| == 3 && o.reply.fileUrl == hostUrl + o.calls[2].path
  {
    if !MentionsYouTube(msg) then
      Outcome(AskForLink, [])
    else
      match ExtractVideoId(msg)
      case None => Outcome(InvalidLink, [])
      case Some(videoId) =>
        var fetch := GetTranscript(videoId);
        match env.transcript(videoId)
        case None => Outcome(FetchFailed, [fetch])
        case Some(fragments) =>
          var prompt := SummaryPrompt(TranscriptText(fragments));
          match env.generate(prompt)
          case None => Outcome(FetchFailed, [fetch, Generate(prompt)])
          case Some(summary) =>
            var path := SummaryFilePath(videoId);
            var write := WriteFile(path, summary);
            if env.save(path, summary) then
              Outcome(SummaryReady(FileUrl(hostUrl, videoId)), [fetch, Generate(prompt), write])
            else
              Outcome(FetchFailed, [fetch, Generate(prompt), write])
  }

  /** The POST branch of `whatsapp_bot`: the reply to the stripped `Body` field. */
  function HandlePost(body: Option<string>, hostUrl: string, env: Services): Outcome {
    Respond(IncomingMessage(body), hostUrl, env)
  }

  /** A message without a YouTube host name is answered with the request for a
      link, no service is called, and the services cannot change the outcome. */
  lemma NoLinkReply(msg: string, hostUrl: string, env: Services, env': Services)
    ensures Respond(msg, hostUrl, env).reply == AskForLink <==> !MentionsYouTube(msg)
    ensures !MentionsYouTube(msg) ==>
              Respond(msg, hostUrl, env) == Respond(msg, hostUrl, env') == Outcome(AskForLink, [])
  {
  }

  /** A message naming YouTube without an extractable id is answered with the
      invalid-link reply, and no transcript is fetched. */
  lemma InvalidLinkReply(msg: string, hostUrl: string, env: Services, env': Services)
    ensures Respond(msg, hostUrl, env).reply == InvalidLink <==>
              MentionsYouTube(msg) && ExtractVideoId(msg).None?
    ensures Respond(msg, hostUrl, env).reply == InvalidLink ==>
              Respond(msg, hostUrl, env) == Respond(msg, hostUrl, env') == Outcome(InvalidLink, [])
  {
  }

  /** The failure reply is sent exactly when a video id was found and then the
      transcript fetch, the summary or the file write failed. */
  lemma FailureReply(msg: string, hostUrl: string, env: Services)
    ensures Respond(msg, hostUrl, env).reply == FetchFailed <==>
      && MentionsYouTube(msg)
      && ExtractVideoId(msg).Some?
      && var videoId := ExtractVideoId(msg).value;
         || env.transcript(videoId).None?
         || var prompt := SummaryPrompt(TranscriptText(env.transcript(videoId).value));
            || env.generate(prompt).None?
            || !env.save(SummaryFilePath(videoId), env.generate(prompt).value)
  {
  }

  /** When every step succeeds, the handler fetches the transcript of the
      extracted id, summarises the joined transcript, writes the summary to
      `summaries/<id>_summary.txt` and replies with the link to that file. */
  lemma SuccessReply(msg: string, hostUrl: string, env: Services,
                     videoId: string, fragments: seq<Fragment>, summary: string)
    requires MentionsYouTube(msg)
    requires ExtractVideoId(msg) == Some(videoId)
    requires env.transcript(videoId) == Some(fragments)
    requires env.generate(SummaryPrompt(TranscriptText(fragments))) == Some(summary)
    requires env.save(SummaryFilePath(videoId), summary)
    ensures Respond(msg, hostUrl, env) == Outcome(
              SummaryReady(hostUrl + "summaries/" + videoId + "_summary.txt"),
              [GetTranscript(videoId),
               Generate(PromptHeader + TranscriptText(fragments)),
               WriteFile("summaries/" + videoId + "_summary.txt", summary)])
    ensures Contains(ReplyBody(Respond(msg, hostUrl, env).reply),
                     hostUrl + "summaries/" + videoId + "_summary.txt")
  {
    assert SummaryFilePath(videoId) == "summaries/" + videoId + "_summary.txt";
    var url := FileUrl(hostUrl, videoId);
    var text := ReplyBody(SummaryReady(url));
    var prefix := "\U{2705} Summary ready! Download here:\n";
    assert text == prefix + url;
    assert url <= text[|prefix|..];
  }

  /** Surrounding whitespace in the message never changes the outcome. */
  lemma StripDoesNotMatter(s: string, hostUrl: string, env: Services)
    ensures HandlePost(Some(s), hostUrl, env) == HandlePost(Some(Strip(s)), hostUrl, env)
  {
    StripIdempotent(s);
  }

  /** A request without a `Body` field is handled as an empty message: it is
      asked for a link. */
  lemma MissingBodyAsksForLink(hostUrl: string, env: Services)
    ensures HandlePost(None, hostUrl, env) == Outcome(AskForLink, [])
  {
    assert IncomingMessage(None) == "" by {
      assert StripBounds("") == (0, 0);
    }
    NoLinkReply("", hostUrl, env, env);
  }

  /** Different videos never share a summary file; the same video always reuses its file. */
  lemma SummaryFileNameInjective(a: string, b: string)
    ensures SummaryFileName(a) == SummaryFileName(b) <==> a == b
  {
    if SummaryFileName(a) == SummaryFileName(b) {
      assert |a| == |b|;
      assert a == SummaryFileName(a)[..|a|];
      assert b == SummaryFileName(b)[..|b|];
    }
  }

  /** The summary of video `abc12345678` is saved as `abc12345678_summary.txt`. */
  lemma SummaryFileNameExample()
    ensures SummaryFileName("abc12345678") == "abc12345678_summary.txt"
  {
  }

  /** The first character of each reply's text: its emoji. */
  function Emoji(reply: Reply): (c: char)
    ensures |ReplyBody(reply)| > 0 && ReplyBody(reply)[0] == c
  {
    match reply
    case AskForLink => '\U{1F4CC}'
    case InvalidLink => '\U{274C}'
    case SummaryReady(_) => '\U{2705}'
    case FetchFailed => '\U{26A0}'
  }

  /** The sender can tell every outcome apart: distinct replies have distinct texts. */
  lemma ReplyBodiesDistinct(r1: Reply, r2: Reply)
    requires r1 != r2
    ensures ReplyBody(r1) != ReplyBody(r2)
  {
    if r1.SummaryReady? && r2.SummaryReady? {
      var prefix := "\U{2705} Summary ready! Download here:\n";
      assert ReplyBody(r1)[|prefix|..] == r1.fileUrl;
      assert ReplyBody(r2)[|prefix|..] == r2.fileUrl;
    } else {
      assert Emoji(r1) != Emoji(r2);
    }
  }

  /** The text handed to the summariser keeps the fragments' texts in order,
      one space between neighbours: when no text holds a space itself,
      splitting it on spaces gives back exactly the fragments' texts. */
  lemma TranscriptTextSplits(fragments: seq<Fragment>)
    requires |fragments| >= 1
    requires forall i :: 0 <= i < |fragments| ==> ' ' !in fragments[i].text
    ensures SplitOnSpace(TranscriptText(fragments)) == Texts(fragments)
  {
    SplitJoin(Texts(fragments));
  }

  /** The fragments' texts of two consecutive runs of fragments: those of the
      first run, then those of the second. */
  lemma TextsAppend(xs: seq<Fragment>, ys: seq<Fragment>)
    ensures Texts(xs + ys) == Texts(xs) + Texts(ys)
  {
  }

  /** The transcript of two consecutive runs of fragments is their two
      transcripts with one space between, whatever spaces the texts hold. */
  lemma TranscriptTextAppend(xs: seq<Fragment>, ys: seq<Fragment>)
    requires |xs| >= 1 && |ys| >= 1
    ensures TranscriptText(xs + ys) == TranscriptText(xs) + " " + TranscriptText(ys)
  {
    TextsAppend(xs, ys);
    JoinAppend(Texts(xs), Texts(ys));
  }

  /** Two fragments "Hello" and "world" give the transcript "Hello world". */
  lemma TranscriptTextExample(a: real, b: real)
    ensures TranscriptText([Fragment("Hello", a, b), Fragment("world", a + b, b)]) == "Hello world"
  {
    var texts := ["Hello", "world"];
    assert Texts([Fragment("Hello", a, b), Fragment("world", a + b, b)]) == texts;
    assert texts[1..] == ["world"];
  }

  /** Multi-word fragments keep their own spaces: "never gonna" and "give you up"
      give "never gonna give you up". */
  lemma TranscriptTextMultiWordExample(a: real, b: real)
    ensures TranscriptText([Fragment("never gonna", a, b), Fragment("give you up", a + b, b)])
            == "never gonna give you up"
  {
    var texts := ["never gonna", "give you up"];
    assert Texts([Fragment("never gonna", a, b), Fragment("give you up", a + b, b)]) == texts;
    assert texts[1..] == ["give you up"];
  }
}

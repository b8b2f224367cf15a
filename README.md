# YouTube summary WhatsApp bot — a Dafny model of the webhook handler

The bot (`app.py`) is a Flask web hook behind Twilio's WhatsApp channel. For
every incoming message it answers with exactly one reply:

- a message that does not mention `youtube.com` or `youtu.be` is asked for a link;
- a message that mentions one but holds no video id gets the invalid-link reply;
- otherwise the handler fetches the video's transcript, joins the caption
  fragments with single spaces, asks the Gemini model for a summary, writes the
  summary to `summaries/<id>_summary.txt` and replies with the download link
  `host_url + "summaries/<id>_summary.txt"`;
- if the fetch, the generation or the file write raises, it sends the
  failure reply instead.

The model is pure, like the handler's decision logic:

- `wrappers.dfy` — `Option`, for Python's `None` and `dict.get` with a default.
- `text.dfy` — the Python string operations the handler uses: `str.strip()`
  with Python's whitespace set, `pat in s`, `" ".join(parts)` and
  `str.split(" ")` as the join's inverse.
- `youtube.dfy` — `extract_video_id`: the pattern `(?:v=|/)([0-9A-Za-z_-]{11}).*`
  under `re.search` semantics, written out as a scan for the leftmost position
  where a `v=` or `/` marker is followed by eleven id characters.
- `bot.dfy` — the POST branch of `whatsapp_bot` as a function from the message
  (and the behaviour of the outside services) to the reply and the ordered
  list of service calls made. The transcript service, the generator and the
  file write are the fields of a `Services` value; `None` (or `false` for the
  write) stands for the call raising an exception.

The extractor does not return the id after `v=` whenever there is one: the
leftmost match wins, and an earlier `/` followed by eleven id characters is
such a match. In `https://www.youtube.com/attribution_link?v=dQw4w9WgXcQ` the
code yields `attribution`, not `dQw4w9WgXcQ`. The model follows the code;
`YouTube.ExtractEarlierSlashWins` states this case.

## Model

| member | source | states |
|---|---|---|
| YouTube.ExtractVideoId | app.py:16-18 | the result, when there is one, is a well-formed eleven-character id; there is no result exactly when the pattern matches at no position |
| YouTube.FirstMatchFrom | app.py:17 | the search returns the leftmost position at or after the start where the pattern matches, or none when it matches nowhere from there |
| YouTube.IdAt | app.py:18 | the captured group of a match is eleven characters of `[0-9A-Za-z_-]` |
| YouTube.ExtractLeftmost | app.py:17-18 | a match at `k` with no match before it determines the result: the group at `k` |
| YouTube.ExtractFollowsMarker | app.py:17-18 | a returned id occurs in the message right after a `v=` or a `/` |
| YouTube.ExtractAppend | app.py:17 | the trailing `.*` and the leftmost search mean text appended to a message never changes an id already found in it |
| YouTube.ExtractAfterV | app.py:17-18 | `v=` followed by a well-formed id yields that id, whatever follows |
| YouTube.ExtractNoMarker | app.py:17-18 | a message with neither `/` nor `v=` yields no id |
| YouTube.ExtractShortLink | app.py:17-18 | `https://youtu.be/dQw4w9WgXcQ` yields `dQw4w9WgXcQ` |
| YouTube.ExtractWatchLink | app.py:17-18 | `https://www.youtube.com/watch?v=dQw4w9WgXcQ` yields `dQw4w9WgXcQ` |
| YouTube.ExtractEarlierSlashWins | app.py:17-18 | a message containing `v=dQw4w9WgXcQ` can still yield another id: in the `attribution_link` form an earlier `/attribution` is the leftmost match |
| Text.LeadingSpace | app.py:41 | the count is the run of whitespace at the start, ended by a non-space or the end of the string |
| Text.TrailingSpace | app.py:41 | the count is the run of whitespace at the end, preceded by a non-space or the start of the string |
| Text.StripBounds | app.py:41 | the cut removes only whitespace and leaves no whitespace at either end of the rest |
| Text.Strip | app.py:41 | the result is `s` with leading and trailing whitespace removed and nothing else changed |
| Text.StripBetween | app.py:41 | every cut that strips `s` yields the same string as `Strip(s)` |
| Text.StripUnique | app.py:41 | any string meeting the strip characterisation is `Strip(s)` |
| Text.StripIdempotent | app.py:41 | stripping a stripped message changes nothing |
| Text.JoinWithSpace | app.py:54 | the joined length is the pieces' total length plus one separator between each neighbouring pair |
| Text.IndexOfSpace | app.py:54 | the index is the first space in the string, or its length when there is none |
| Text.SplitOnSpace | app.py:54 | splitting on single spaces always gives at least one piece |
| Text.SplitPiecesHaveNoSpace | app.py:54 | no piece of a split holds a space |
| Text.SplitJoin | app.py:54 | splitting the join gives back the pieces when no piece holds a space |
| Text.JoinSplit | app.py:54 | joining the pieces of a split gives back the string |
| Text.JoinAppend | app.py:54 | joining two non-empty lists is joining their joins with one space between |
| Bot.Texts | app.py:54 | the `text` fields of the fragments, one per fragment, in order |
| Bot.Respond | app.py:45-67 | at most the three calls fetch, generate, write, always in that order; the transcript is only fetched for a well-formed id; no service is called exactly for the ask-for-link and invalid-link replies; a ready reply links the host URL followed by the path the summary was written to |
| Bot.NoLinkReply | app.py:46-67 | the ask-for-link reply is sent exactly when neither host name is in the message, with no service called and whatever the services would do |
| Bot.InvalidLinkReply | app.py:46-50 | the invalid-link reply is sent exactly when a host name is present but no id is extracted, with no service called |
| Bot.FailureReply | app.py:52-65 | the failure reply is sent exactly when an id was extracted and then the transcript fetch, the summary or the file write failed |
| Bot.SuccessReply | app.py:52-61 | when every step succeeds: the transcript of the extracted id is fetched, the prompt is the fixed header followed by the joined transcript, the summary is written to `summaries/<id>_summary.txt`, and the reply holds `host_url + "summaries/<id>_summary.txt"` |
| Bot.StripDoesNotMatter | app.py:41 | surrounding whitespace in the body never changes the outcome |
| Bot.MissingBodyAsksForLink | app.py:41 | a request without a `Body` field is asked for a link and calls no service |
| Bot.SummaryFileName | app.py:27 | the file name of a video's summary, `<id>_summary.txt`; `Bot.SummaryFileNameInjective` and `Bot.SummaryFileNameExample` state its properties |
| Bot.SummaryFilePath | app.py:28 | the summary is written under `summaries/` with the video's file name, the directory and the name joined with the POSIX separator |
| Bot.FileUrl | app.py:60 | the download link is the request's host URL followed by the path the summary was written to |
| Bot.SummaryFileNameInjective | app.py:27 | two videos share a summary file exactly when they are the same video |
| Bot.SummaryFileNameExample | app.py:27 | the summary of `abc12345678` is saved as `abc12345678_summary.txt` |
| Bot.Emoji | app.py:49-67 | each reply's text starts with its emoji |
| Bot.ReplyBodiesDistinct | app.py:49-67 | different replies have different texts, so the sender can tell every outcome apart |
| Bot.TranscriptTextSplits | app.py:54 | the text sent for summary holds the fragments' texts in order, one space apart: split on spaces it gives them back when none holds a space |
| Bot.TranscriptTextExample | app.py:54 | fragments `Hello` and `world` give `Hello world` |
| Bot.TranscriptTextAppend | app.py:54 | the transcript of two consecutive runs of fragments is their two transcripts with one space between, whatever spaces the texts hold |
| Bot.TranscriptTextMultiWordExample | app.py:54 | fragments `never gonna` and `give you up` give `never gonna give you up` |
| Bot.TranscriptText | app.py:54 | the fragments' `text` fields joined by single spaces; `Bot.TranscriptTextSplits` and `Bot.TranscriptTextAppend` state its properties |
| Bot.SummaryPrompt | app.py:22 | the fixed instruction `Summarize this YouTube video transcript in simple points:` and a blank line, followed by the transcript |
| Bot.ReplyBody | app.py:49-67 | the four reply texts of lines 49, 61, 65 and 67; `Bot.Emoji` and `Bot.ReplyBodiesDistinct` state its properties |
| Bot.MentionsYouTube | app.py:46 | the message contains `youtube.com` or `youtu.be` |
| Bot.IncomingMessage | app.py:41 | the message is the `Body` field, `""` when absent, stripped: it meets the strip characterisation, and is empty for a missing field |
| Bot.HandlePost | app.py:41-67 | the POST branch: the incoming message is dispatched by `Bot.Respond`; `Bot.StripDoesNotMatter` and `Bot.MissingBodyAsksForLink` state its properties |
| Text.Contains | app.py:46 | Python's `pat in s`: `pat` occurs in `s` at some position |
| Text.IsSpace | app.py:41 | Python's `str.isspace()` for one character, the set `str.strip()` removes |
| YouTube.MarkerLength | app.py:17 | the length of the `v=` or `/` marker at a position: 2 for `v=`, 1 for `/`, 0 for neither; the two cannot both start at one position |
| YouTube.MatchesAt | app.py:17 | the pattern matches at a position: a marker followed by eleven characters of `[0-9A-Za-z_-]` |

## Left out

- The GET branch of `whatsapp_bot`, Flask routing and `serve_summary_file` (app.py:35-38, 71-73): web framework plumbing with no decision logic.
- The Twilio `MessagingResponse` and its XML rendering (app.py:42-43, 69): the model produces the reply value, not its XML envelope.
- The transcript service and the Gemini model (app.py:11-13, 23-24, 53): foreign network calls; they are the `transcript` and `generate` fields of `Services`, arbitrary total functions, and the prompt handed to the generator is recorded as a call.
- The file system (app.py:29-31): `os.makedirs` and the write are the `save` field of `Services`; only the path and the content are modelled.
- Exceptions are collapsed into one failure per step: whatever the transcript service, the generator (including `response.text` raising) or the file write raises, the model sees `None` or `false`. A fragment without a `text` key, which would raise `KeyError` at app.py:54, is not modelled: fragments always carry text.
- `os.path.join("summaries", filename)` is modelled with the POSIX separator `/`; the file name never starts with a separator, so the join is a plain concatenation.
- General regular expressions: only the one pattern of app.py:17 is modelled, as a scan.
- Concurrency between webhook requests, and two requests for the same video overwriting each other's file.
- `Bot.Fragment` keeps `start` and `duration` as `real`, and nothing reads them.

# NDC client: streaming response splitter, in Dafny

This project models the core of `ndc_client.go`, the Go client of the
AirGateway NDC SDK. The client POSTs an NDC message over HTTP. The answer
may be streamed: several NDC messages come one after the other in one
response body, each closed by the marker `<!-- AG-EOM -->`.

Three loops read such a body line by line with `ReadBytes('\n')`. They
gather the lines in a buffer, and hand the buffer on as one frame each time
the marker shows up:

- `RequestAsynch` starts one callback per frame. It looks for the marker in
  the whole buffer.
- `RequestAsync` sends each frame on a channel it creates. It stops when its
  context is cancelled.
- `RequestAsync2` sends each frame on a channel the caller passes in.

The last two look for the marker only in the line just read. The model also
covers the configuration glue around them:

- the template-variable check, `ConfigHasTemplateVars`;
- the `{{request_name}}` substitution and map building of `PrepareConfig` and
  `MapSliceToMap`;
- the target-URL key and the header merge of `Request`.

Modules:

- `Strings` (strings.dfy): Go's `strings.Index`, `Contains`, `Replace(…, -1)`
  and `Split`, and a `Join`.
- `Framing` (framing.dfy): the splitter as a state machine over lines. Its
  reference description, `Group`, cuts the lines into marker-terminated
  groups. The lemmas show this cut is the only one, that nothing is lost,
  and that the two kinds of marker test agree.
- `Dispatch` (dispatch.dfy): the three loops as methods with `while` loops,
  proved against `Framing`. A Go channel is a `FrameChannel` object whose
  sent frames and closed flag the loops update.
- `Config` (config.dfy): `ConfigHasTemplateVars`, the substitution loop,
  `MapSliceToMap` and `PrepareConfig`.
- `Requests` (request.dfy): `NewClient`, the URL key, `AppendHeaders`, the
  override loop, and the set-up part of `Request`. A type assertion that
  would panic returns an error result instead.

The body is given as the lines `ReadBytes` returns without error, plus the
fragment it returns with `io.EOF` or a read error. Cancellation is given as
the loop iteration at which `ctx.Done()` is first ready. Go's `select` takes
a ready case over `default`, and a done context stays done, so the loop
stops before reading that line. The YAML parser is a function parameter
`parse`.

In three places the code does something a reader might not expect; the
model follows the code:

- A frame ends with the whole line that holds the marker, including that
  line's `'\n'` and anything after the marker on it. It does not end with
  the marker itself.
- A missing URL key is not reported as a configuration error. It is a failed
  type assertion (`RequestURL.(string)`), which panics. The model returns
  `Err(UrlNotAString(key))`.
- A client whose raw configuration `ConfigHasTemplateVars` counts no
  template variable in (none occurs after position 0) never resolves its
  configuration: `Config` stays nil, and the first type assertion in
  `Request` fails. `NewClient` models this test as written;
  `NewClientCorrected` uses the corrected one (see Findings).

## Model

| member | source | states |
|---|---|---|
| `Strings.IndexSpec` | ndc_client.go:78 | `strings.Index` gives the first position where the pattern occurs, or -1 exactly when it occurs nowhere. |
| `Strings.SplitPiecesAreFree` | ndc_client.go:131 | No piece of `strings.Split` holds the separator. |
| `Strings.SplitJoin` | ndc_client.go:131 | Joining the pieces with the separator gives the original text back. |
| `Strings.ReplaceIsSplitJoin` | ndc_client.go:131 | `strings.Replace(s, pat, v, -1)` turns every occurrence of `pat` into `v` and keeps the text between occurrences unchanged. |
| `Strings.ContainsAcrossSeam` | ndc_client.go:166 | When the buffer ends at a line end and the marker has no `'\n'`, the buffer plus a line holds the marker exactly when one of the two does. |
| `Framing.GroupIsGrouping` | ndc_client.go:228-238 | The cut keeps every line in order. Each group's last line, and only that line, holds the marker. No waiting line holds it. |
| `Framing.GroupingIsUnique` | ndc_client.go:228-238 | Any cut of the lines with those properties is the splitter's cut. |
| `Framing.RunFollowsGroup` | ndc_client.go:228-238 | The per-line loop hands on exactly the groups of the reference cut, each written out as one text, and its buffer holds the waiting lines. |
| `Framing.FrameCount` | ndc_client.go:233-236 | There is exactly one frame per line that holds the marker. |
| `Framing.FramesKeepText` | ndc_client.go:206-214 | The frames followed by the buffer spell out the lines read, so nothing is lost or duplicated. |
| `Framing.FramesKeepDelimiter` | ndc_client.go:210-213 | Every emitted frame holds the marker, which is not stripped. |
| `Framing.TrailingLinesNotEmitted` | ndc_client.go:229-236 | Lines without the marker at the end are never emitted; they only grow the buffer. |
| `Framing.NoDelimiterNoFrames` | ndc_client.go:228-239 | A body without the marker yields no frame. |
| `Framing.FramesEndAtLastDelimiter` | ndc_client.go:206-214 | The frames spell out the lines up to and including the last marker line. The lines after it are what the buffer holds. |
| `Framing.FramesGrowByExtension` | ndc_client.go:199-216 | Reading more lines only appends frames: the frames of a prefix are a prefix of the frames. |
| `Framing.FramesOfWholeMessages` | ndc_client.go:228-238 | A body made of whole messages is split into exactly those messages, in order, and leaves the buffer empty. |
| `Framing.PendingIsClean` | ndc_client.go:174 | Between lines, the buffer never holds the marker, and it is empty or ends with a complete line. |
| `Framing.AccumulatedAgreesWithPerLine` | ndc_client.go:165-174 | On lines that end in `'\n'`, testing the whole buffer (line 166) and testing only the new line (lines 211 and 234) give the same frames and the same buffer. |
| `Dispatch.RequestAsynch` | ndc_client.go:160-180 | The callbacks start on the frames of the whole-buffer test, in order. On a well-formed body these are the frames of the reference cut. |
| `Dispatch.RequestAsync` | ndc_client.go:185-221 | A nil response gives `(nil, nil)`. Otherwise a fresh channel ends closed and holds the frames of the lines read before cancellation, which are a prefix of the uncancelled frames. |
| `Dispatch.RequestAsync2` | ndc_client.go:223-240 | The caller's channel receives the frames of the body after what it already held, and ends closed. |
| `Dispatch.CancelledFramesArePrefix` | ndc_client.go:200-203 | A cancelled run hands on a prefix of the uncancelled frames. Each frame it hands on is complete (holds the marker). |
| `Dispatch.FrameChannel.constructor` | ndc_client.go:191 | A new channel is empty and open. |
| `Dispatch.FrameChannel.Send` | ndc_client.go:212 | Sending appends exactly the frame, on an open channel. |
| `Dispatch.FrameChannel.Close` | ndc_client.go:217 | Closing keeps the frames sent and marks the channel closed. |
| `Config.CountFoundBounds` | ndc_client.go:76-83 | The count is at most the number of names. It is zero exactly when no name is found at or after the given position. |
| `Config.ConfigHasTemplateVars` | ndc_client.go:74-84 | As written, it counts the names whose first position is greater than 0. It is zero exactly when every name is absent or at position 0. |
| `Config.TemplateVarAtStartIsMissed` | ndc_client.go:78-80 | Any configuration that starts with `request_name` counts 0 as written, whatever placeholders follow, and 1 with the corrected test. |
| `Config.CountTemplateVars` | ndc_client.go:74-84 | The corrected count is zero exactly when no template variable occurs. |
| `Config.SubstituteTemplateVars` | ndc_client.go:117-132 | Every `{{request_name}}` becomes the method name and the text between placeholders is kept. A text without the placeholder is returned unchanged. |
| `Config.ToMapKeys` | ndc_client.go:90-97 | The keys of the result are the keys already in the map plus the keys of the list. |
| `Config.ToMapLastWins` | ndc_client.go:90-97 | A key of the list maps to the converted value of its last occurrence, so a later duplicate overwrites an earlier one. |
| `Config.ToMapKeepsOthers` | ndc_client.go:86-100 | A key the list does not mention keeps its entry in the map. |
| `Config.MapSliceToMap` | ndc_client.go:86-100 | The loop stores the entries in list order and builds nested lists as nested maps from an empty map. |
| `Config.PrepareConfig` | ndc_client.go:115-140 | The configuration is the map built from the parse of the substituted text. |
| `Requests.NewClient` | ndc_client.go:64-113 | The client keeps the extras and the raw text. It is flagged templated exactly when some template variable first occurs after position 0, as `ConfigHasTemplateVars(...) > 0` decides. |
| `Requests.NewClientCorrected` | ndc_client.go:104-110 | With the corrected count, the client is flagged templated exactly when a template variable occurs anywhere in the text. |
| `Requests.UrlKeySelectsEnvironment` | ndc_client.go:285-290 | Two callers that both name an environment get the same `server` key exactly when they name the same environment. A caller without an environment gets the same key as one naming `prod`, and only those. |
| `Requests.AppendHeaders` | ndc_client.go:142-147 | Each configured header gets its value appended. The other headers are unchanged, whatever the map order. |
| `Requests.OverrideHeaders` | ndc_client.go:296-302 | Each extras header ends with exactly the one extras value. The other headers are unchanged, whatever the map order. |
| `Requests.PrepareRequest` | ndc_client.go:283-302 | The four type assertions fail in source order: no `rest` map, then no `server` map, then a missing or non-text URL under the selected key, then a `rest.headers` that is not a map of texts, each with its own error. On success the URL is the `server` entry under the URL key, and the header set is the merge where overrides win. |
| `Requests.Request` | ndc_client.go:266-302 | Without template variables the configuration stays nil and set-up fails. On success the body is the payload and every extras header carries exactly its extras value. |

## Left out

- HTTP transport: building and sending the request (`http.NewRequest`, `HttpClient.Do`) and the response object. `Request` is modelled up to the request it would send. The body reaches the loops already cut into lines.
- `bufio.Reader`: the body is given as the lines `ReadBytes('\n')` returns plus the final fragment. The reader's buffering is not modelled.
- Goroutines, `sync.WaitGroup`, and the blocking of channel sends. The goroutine of `RequestAsync` runs to its end before the method returns. Callbacks are listed in the order they are started, not the order they finish. Backpressure and callback completion are not stated.
- `HeaderCallback` in `RequestAsynch`: a foreign callback whose error is only logged.
- Aliasing: `buf.Bytes()` shares storage with the buffer that `buf.Reset()` then reuses. Frames are immutable values here.
- The nil-response panics of `RequestAsynch` and `RequestAsync2`. Only the nil check of `RequestAsync` is modelled.
- `RequestSync` and `RequestSynch`: whole-body reads with no splitting.
- `Prettify`: it returns its input unchanged (line 403), and its result is only printed. Its tokenizer loop cannot be reached.
- `formatRequest`, `formatResponse`, all `fmt.Println` output, `logger.Error()`, the unused `convert`, and `NDCSupportedMethods`, which is never read.
- Reading the configuration file and `yaml.Unmarshal`: the file text is a parameter of `NewClient`, and the parser is the parameter `parse`. `client.Config` is not kept, because `Request` never reads it.
- `fmt.Sprint` on YAML keys and scalars: they are taken as already printed text.
- `Dispatch.RequestAsync2`, `Dispatch.FrameChannel.Send`, `Dispatch.FrameChannel.Close`: the model requires an open channel. In Go, a send on or a close of a closed channel panics (for example, a caller passing a closed channel to `RequestAsync2`); that panic is not modelled.
- Header name canonicalisation in `http.Header.Add` and `Del`: names are taken as already canonical.
- `Requests.AppendHeaders`: the model runs only after every configured value has been checked to be a string. In Go a non-string value panics partway through the loop; either way the call fails.
- `Strings.Replace`, `Strings.Split`: the empty-pattern case of Go's functions is not modelled, because the only pattern used is `{{request_name}}`.
- `Requests.Request`: on success it states only the body and the override headers. The rest of its result is what `Requests.PrepareRequest` states for the map that `Config.PrepareConfig` builds.

## Findings

| source | as written | input that shows it | evidently intended | confidence | as-written member | corrected member |
|---|---|---|---|---|---|---|
| ndc_client.go:79 | `if VarIndex > 0` counts a template variable only when its first occurrence is after position 0 | the configuration text `request_name: {{request_name}}` counts 0, so the client is not flagged as templated and `Request` fails on the nil configuration | `VarIndex >= 0`: count a variable wherever it occurs (`strings.Index` gives -1 when absent) | medium, not executed | `Config.ConfigHasTemplateVars`, `Config.TemplateVarAtStartIsMissed` | `Config.CountTemplateVars`, `Requests.NewClientCorrected` |

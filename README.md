# MusicNFC tag session, modelled in Dafny

MusicNFC is an iOS app that writes a LINE MUSIC track link to an NFC tag and
opens the link again when the tag is scanned. Its logic lives in one object,
`NFCSession` (MusicNFC/ContentView.swift). The object drives one NDEF tag
interaction. NDEF is the NFC Forum Data Exchange Format.

- `startWriteSession` stores the write handler and sets write mode. It also
  stores a two-record message and opens a reader session. The first record is
  a well-known `"T"` record whose payload is the raw UTF-8 text. The second is
  the URI record of a fixed music.line.me link.
- `startReadSession` stores the read handler, sets read mode and opens a
  reader session.
- When a tag is detected, the object takes the first tag, connects and queries
  its status. Write mode on a read-write tag writes the message. Read mode on a
  read-only or read-write tag reads the tag. Anything else invalidates the
  session with an error message.
- A finished write or read sets the completion alert and invalidates the
  session. Then it calls the handler once and passes the tag's error through.
  A read decodes each well-known record as a URI, or else as UTF-8 text. Other
  records are dropped. The surviving strings are joined with `"\n\n"`.
- The read callbacks of the screen and of the app intent filter `"\n"` out of
  the decoded text before they parse it as a URL.

The files:

- `ndef.dfy` (module `Ndef`): records, messages, type name formats
  (section 3.2.6 of the NFC Forum NDEF Technical Specification) and tag status.
- `platform.dfy` (module `Platform`): the Foundation and CoreNFC functions the
  object calls but that are not part of the model. They are UTF-8 encoding and
  decoding, building a URI record from a URL string, and reading a record as
  a URL. The model takes them as function values in a `Services` datatype.
  The facts the lemmas need about them are named predicates, used as
  preconditions.
- `decoding.dfy` (module `RecordDecoding`): the read-side `compactMap` and
  `joined(separator:)`.
- `newline_filter.dfy` (module `NewlineFilter`): the `filter { $0 != "\n" }`
  of the read callbacks.
- `track_link.dfy` (module `TrackLink`) and `message_builder.dfy` (module
  `MessageBuilder`): the message to write, and what reading it back yields.
- `session.dfy` (module `TagSession`): the class `NFCSession` and its methods.
  Each tag callback is a method that changes no field. It returns the trace of
  `Effect`s it causes: connect, status query, write, read, alert, invalidate,
  handler call. The trace is tied to the function `TagEffects`, and lemmas
  about `TagEffects` state the dispatch and completion properties.

Behaviour of the code worth knowing:

- The text record has no status byte and no language code. It does not follow
  section 3.2 of the NFC Forum Text Record Type Definition.
- Building the message has no error path.
- A second start call is not refused. It overwrites the mode, the handler and
  (when writing) the message. A read session started after a write session
  keeps the old message and write handler (`ReadAfterWrite`).
- When NFC reading is unavailable, the start call returns silently. No error
  is raised.
- Connect and status-query errors are ignored. Only the status decides.
- Swift's `filter` works on Characters, which are extended grapheme clusters.
  A CR followed by an LF is one Character, so its LF is not removed (rule GB3
  of Unicode Standard Annex #29). `RemoveNewlines` drops every LF except one
  that directly follows a CR. `CrLfKept` shows an example.

A tag written by the app and read back gives the text, a blank line and the
link (`WrittenMessageReadsBack`). This holds for texts whose UTF-8 encoding
decodes back to them and whose text record the platform does not read as a
URI; both are stated per text, not as laws for every string. After the
filter, the read-back is exactly the link only when the text was empty or
line feeds only (`ReadBackIsLinkIff`).

## Model

| member | source | states |
|---|---|---|
| RecordDecoding.DecodeRecord | MusicNFC/ContentView.swift:109-121 | a record that is not well-known decodes to nothing; a well-known record gives its URI when it has one, otherwise its UTF-8 text (or nothing if the payload is not UTF-8) |
| RecordDecoding.Survivors | MusicNFC/ContentView.swift:109-121 | the `compactMap` gives no more strings than records; every record that decodes contributes its string, and every string comes from a record that decodes to it |
| RecordDecoding.NoSurvivors | MusicNFC/ContentView.swift:109-121 | when no record decodes, nothing survives |
| RecordDecoding.SurvivorsAppend | MusicNFC/ContentView.swift:109-121 | survivors keep record order: those of `a + b` are those of `a` followed by those of `b` |
| RecordDecoding.Join | MusicNFC/ContentView.swift:122 | joining no strings gives `""`; joining one string gives that string |
| RecordDecoding.JoinLength | MusicNFC/ContentView.swift:122 | the joined text is every part plus one separator between each two parts |
| RecordDecoding.JoinAppend | MusicNFC/ContentView.swift:122 | joining `a + b` is joining `a`, one separator, then joining `b` |
| RecordDecoding.DecodeMessage | MusicNFC/ContentView.swift:109-122 | the text is nil exactly when the tag gave no message |
| RecordDecoding.NothingDecodesGivesEmpty | MusicNFC/ContentView.swift:109-122 | a message none of whose records decode reads as `""` |
| RecordDecoding.TwoRecordsJoined | MusicNFC/ContentView.swift:109-122 | records decoding to `a` and `b` read as `a + "\n\n" + b` |
| RecordDecoding.MessageAppend | MusicNFC/ContentView.swift:109-122 | the text of `a + b` is the text of `a`, a blank line, then the text of `b`, when both have survivors |
| RecordDecoding.DroppedRecordsVanish | MusicNFC/ContentView.swift:109-122 | records that do not decode change nothing, wherever they stand |
| NewlineFilter.StripFrom | MusicNFC/ContentView.swift:146 | the filter never lengthens the text, keeps every non-LF scalar with its count, and keeps an LF only as the second half of a CR LF |
| NewlineFilter.RemoveNewlines | MusicNFC/ContentView.swift:146 | the filter of both read callbacks (also line 194): every remaining LF directly follows a CR, and every other scalar keeps its count |
| NewlineFilter.StripAppend | MusicNFC/ContentView.swift:146 | the filter works left to right: the filter of `a + b` is the filter of `a`, then the filter of `b` continued after `a` (order is kept) |
| NewlineFilter.StripFixedPoint | MusicNFC/ContentView.swift:146 | a text whose every LF closes a CR LF pair is left unchanged |
| NewlineFilter.NoNewlineUnchanged | MusicNFC/ContentView.swift:146 | a text without LF is left unchanged |
| NewlineFilter.StripKeepsOrder | MusicNFC/ContentView.swift:146 | the filter drops only LFs: the scalars other than LF come out exactly as they went in, in order |
| NewlineFilter.RemoveNewlinesKeepsOrder | MusicNFC/ContentView.swift:146 | the filter of the read callbacks keeps all scalars other than LF, in their order (also line 194) |
| NewlineFilter.RemoveNewlinesIdempotent | MusicNFC/ContentView.swift:146 | filtering twice is filtering once |
| NewlineFilter.NothingLeft | MusicNFC/ContentView.swift:146 | the filter leaves `""` exactly when the text is LFs only |
| NewlineFilter.BlankLineRemoved | MusicNFC/ContentView.swift:146 | `"A\n\nB"` becomes `"AB"` |
| NewlineFilter.CrLfKept | MusicNFC/ContentView.swift:146 | a CR LF pair is one Character and stays: `"a\r\nb"` is unchanged |
| NewlineFilter.FilterJoined | MusicNFC/ContentView.swift:146 | filtering the joined survivors removes every separator: the result is each part filtered, in order (when no part ends in CR) |
| TrackLink.MusicUrlHasNoLineBreak | MusicNFC/ContentView.swift:28 | the fixed link contains no LF and no CR |
| MessageBuilder.TextRecord | MusicNFC/ContentView.swift:22-26 | the text record is well-known, of type `"T"`, has no identifier, and its payload is the UTF-8 encoding of the text |
| MessageBuilder.WriteMessage | MusicNFC/ContentView.swift:22-29 | the message has exactly two records: the text record, then the URI record of the fixed link |
| MessageBuilder.TextRecordIsNotUri | MusicNFC/ContentView.swift:22-26 | the `"T"` record is never read as a URI on a platform that reads only `"U"` records as URIs |
| MessageBuilder.TextRecordReadsBack | MusicNFC/ContentView.swift:22-26 | the text record reads back as its text, when it is not read as a URI and its UTF-8 encoding decodes back to the text |
| MessageBuilder.WrittenMessageReadsBack | MusicNFC/ContentView.swift:22-29 | reading the written message gives the text, a blank line, then the link (under the same two facts about this text, and the link's URI record reading back as the link) |
| MessageBuilder.FilteredTextThenLink | MusicNFC/ContentView.swift:146 | after the filter, text, blank line and a link without LF give the filtered text followed by the link (text not ending in CR) |
| MessageBuilder.FilteredIsLinkIff | MusicNFC/ContentView.swift:146 | that filtered result is exactly the link if and only if the text is LFs only |
| MessageBuilder.FilteredReadBack | MusicNFC/ContentView.swift:146 | decoding the message the app writes and filtering it gives the filtered text followed by the track link (text not ending in CR, under the read-back facts) |
| MessageBuilder.ReadBackIsLinkIff | MusicNFC/ContentView.swift:146 | decoding the message the app writes and filtering it gives exactly the track link if and only if the text written was LFs only or empty (under the read-back facts) |
| TagSession.Decide | MusicNFC/ContentView.swift:74-87 | write if and only if write mode and read-write status; read if and only if read mode and read-only or read-write status; otherwise invalidate with the error message |
| TagSession.HandlerCalledAtMostOnce | MusicNFC/ContentView.swift:93-127 | a tag leads to at most one handler call, and to exactly one when it is written or read and the handler for that mode is set |
| TagSession.RadioOperationsFollowDispatch | MusicNFC/ContentView.swift:74-87 | the tag is written if and only if write mode meets a read-write tag, and then with the stored message; it is read if and only if read mode meets a readable tag |
| TagSession.IncompatibleTagInvalidates | MusicNFC/ContentView.swift:74-87 | any other combination only connects, queries and invalidates with the error message: no write, no read, no handler call |
| TagSession.HandlerCalledLastWithTagError | MusicNFC/ContentView.swift:93-127 | a handler call is the last effect and comes right after the invalidation; the write handler gets the write error unchanged; the read handler gets the decoded text and the read error unchanged |
| TagSession.CompletionAlertEvenOnError | MusicNFC/ContentView.swift:93-108 | the completion alert is set on every write and read completion, whatever the error |
| TagSession.ConnectAndQueryErrorsIgnored | MusicNFC/ContentView.swift:71-87 | the connect and status-query errors and the capacity do not change what happens |
| TagSession.ReaderSession.constructor | MusicNFC/ContentView.swift:46 | a new reader session is not begun and keeps its `invalidateAfterFirstRead` setting |
| TagSession.ReaderSession.Begin | MusicNFC/ContentView.swift:48 | after `begin()` the session is begun |
| TagSession.NFCSession.constructor | MusicNFC/ContentView.swift:6-13 | a new object is in read mode with no message, no handlers and no reader session |
| TagSession.NFCSession.StartWriteSession | MusicNFC/ContentView.swift:17-31 | afterwards: write mode, the given write handler, the two-record message for the text, the read handler unchanged; a new begun reader session exactly when reading is available, otherwise the old one |
| TagSession.NFCSession.StartReadSession | MusicNFC/ContentView.swift:34-39 | afterwards: read mode, the given read handler, message and write handler unchanged; a new begun reader session exactly when reading is available |
| TagSession.NFCSession.StartSession | MusicNFC/ContentView.swift:42-49 | when reading is unavailable nothing is created; otherwise a fresh reader session with the scanning alert is begun |
| TagSession.NFCSession.DidDetect | MusicNFC/ContentView.swift:67-90 | the effects are those of `TagEffects` for the FIRST tag, given the object's mode, message and handlers and the tag's answers |
| TagSession.NFCSession.Write | MusicNFC/ContentView.swift:93-101 | writes the stored message, then sets the alert, invalidates and calls the write handler (if set) with the error |
| TagSession.NFCSession.Read | MusicNFC/ContentView.swift:105-127 | reads the tag, then sets the alert, invalidates and calls the read handler (if set) with the decoded text and the error |
| TagSession.ReadAfterWrite | MusicNFC/ContentView.swift:17-39 | a read start after a write start leaves read mode on, and keeps the written message and the write handler |
| TagSession.WriteThenRead | MusicNFC/ContentView.swift:17-127 | writing a read-write tag ends with one write-handler call carrying the write error; reading that tag back ends with one read-handler call carrying the text, a blank line and the link (for a text whose UTF-8 encoding decodes back to it and whose text record is not read as a URI, with the link's URI record reading back as the link) |

## Left out

- CoreNFC radio operations (`NFCNDEFReaderSession` internals, `connect`, `queryNDEFStatus`, `writeNDEF`, `readNDEF`, `invalidate`): platform I/O. Their results are the inputs in `TagReply`, and the calls are entries in the effect trace.
- The `DispatchQueue.main.async` hand-off: threading. The handler call is the last effect of the trace. Running on the main queue is not modelled.
- URI identifier-code expansion (section 3.2.2 of the NFC Forum URI Record Type Definition), `URL(string:)`, `absoluteString` and UTF-8 validity: these belong to Foundation and CoreNFC, whose code is not part of this model. They are the uninterpreted function values of `Platform.Services`.
- TagSession.NFCSession.StartWriteSession: `URL(string:)!` and `uriPayload!` are force unwraps. The model requires the link's URI record to exist rather than modelling the crash.
- TagSession.NFCSession.DidDetect: `tags.first!` is a force unwrap, so the model requires a non-empty tag list. The write path's force unwrap of `ndefMessage` is excluded by `Valid()`, which every start call keeps.
- TagSession.NFCSession.Write: `session.alertMessage = …` and `invalidate()` act on the reader session passed to the callback. The model records them as trace effects, not as updates of the `ReaderSession` object.
- Closures are opaque. A handler is an identity (`Handler`), and a call to it is an effect. What the screen's callbacks do after the filter (alerts, `canOpenURL`, `open`) is not modelled.
- The empty delegate methods (`didDetectNDEFs`, `didInvalidateWithError`, `readerSessionDidBecomeActive`), `print(readHandler)`, and the `shared` singleton: no logic.
- The SwiftUI view, the alert state, the `AppIntent`, the shortcuts provider and the `AppDelegate` universal-link handler in MusicNFC/MusicNFCApp.swift: UI and OS integration.
- Concurrency between a pending tag callback and a new start call is not modelled. Each callback reads the fields as they are when it runs.

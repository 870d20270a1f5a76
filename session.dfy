/** `NFCSession`: the object that runs one NDEF tag interaction. A start call
    records the mode, the completion handler and (for writing) the message,
    then opens a reader session; the tag callbacks connect, query the tag's
    status, dispatch to write, read or invalidate, and finish by invalidating
    the reader session and handing the outcome to the handler.

    The radio is not modelled: what the tag answers is an input (`TagReply`),
    and what the object does to the reader session, the tag and the handlers
    is an output, a trace of `Effect`s in the order they happen. */
module TagSession {
  import opened Ndef
  import opened Platform
  import opened RecordDecoding
  import opened TrackLink
  import opened MessageBuilder

  const ScanningAlert: string := "スキャン中"
  const WriteDoneAlert: string := "書き込み完了♬(ノ゜∇゜)ノ♩"
  const ReadDoneAlert: string := "読み込み完了♬(ノ゜∇゜)ノ♩"
  const BadTagMessage: string := "タグがおかしいよ(´∇｀)"

  /** An error CoreNFC reports; the session only passes it on. */
  datatype NfcError = NfcError(code: int)

  /** A detected tag, known only by its identity. */
  datatype Tag = Tag(id: nat)

  /** A caller's completion closure, known only by its identity. */
  datatype Handler = Handler(id: nat)

  /** What the radio answers about the tag being handled: the errors of
      `connect` and `queryNDEFStatus`, the status and capacity, the error of
      `writeNDEF`, and the message and error of `readNDEF`. */
  datatype TagReply = TagReply(
    connectError: Option<NfcError>,
    status: NdefStatus,
    capacity: nat,
    queryError: Option<NfcError>,
    writeError: Option<NfcError>,
    readMessage: Option<Message>,
    readError: Option<NfcError>)

  /** What the session does once the tag's status is known. */
  datatype Action = WriteTag | ReadTag | InvalidateTag(errorMessage: string)

  /** One thing the session does to the outside world. */
  datatype Effect =
    | Connect(tag: Tag)
    | QueryStatus(tag: Tag)
    | WriteNdef(tag: Tag, message: Message)
    | ReadNdef(tag: Tag)
    | SetAlert(alert: string)
    | Invalidate(errorMessage: Option<string>)
    | CallWriteHandler(handler: Handler, error: Option<NfcError>)
    | CallReadHandler(handler: Handler, text: Option<string>, error: Option<NfcError>)

  /** The fields of `NFCSession` that the tag callbacks read. */
  datatype SessionState = SessionState(
    isWriting: bool,
    ndefMessage: Option<Message>,
    writeHandler: Option<Handler>,
    readHandler: Option<Handler>)
  {
    /** A write-mode session always has its message. */
    predicate Valid() {
      isWriting ==> ndefMessage.Some?
    }
  }

  /** The dispatch rule: write only in write mode on a read-write tag, read only
      in read mode on a readable tag, invalidate with an error otherwise. */
  function Decide(isWriting: bool, status: NdefStatus): (a: Action)
    ensures a == WriteTag <==> isWriting && status == ReadWrite
    ensures a == ReadTag <==> !isWriting && (status == ReadOnly || status == ReadWrite)
    ensures a.InvalidateTag? ==> a.errorMessage == BadTagMessage
  {
    if isWriting && status == ReadWrite then WriteTag
    else if !isWriting && (status == ReadOnly || status == ReadWrite) then ReadTag
    else InvalidateTag(BadTagMessage)
  }

  /** The end of a write: alert, invalidate, then the handler (if any) gets the error. */
  function WriteCompletion(handler: Option<Handler>, error: Option<NfcError>): seq<Effect> {
    [SetAlert(WriteDoneAlert), Invalidate(None)] +
    match handler
    case Some(h) => [CallWriteHandler(h, error)]
    case None => []
  }

  /** The end of a read: alert, invalidate, then the handler (if any) gets the
      decoded text and the error. */
  function ReadCompletion(s: Services, handler: Option<Handler>, message: Option<Message>,
                          error: Option<NfcError>): seq<Effect>
  {
    [SetAlert(ReadDoneAlert), Invalidate(None)] +
    match handler
    case Some(h) => [CallReadHandler(h, DecodeMessage(s, message), error)]
    case None => []
  }

  /** Everything the session does with one detected tag, from connecting to the
      handler call. The connect and query errors are not among its inputs. */
  function TagEffects(s: Services, st: SessionState, tag: Tag, reply: TagReply): seq<Effect>
    requires st.Valid()
  {
    [Connect(tag), QueryStatus(tag)] +
    match Decide(st.isWriting, reply.status)
    case WriteTag =>
      [WriteNdef(tag, st.ndefMessage.value)] + WriteCompletion(st.writeHandler, reply.writeError)
    case ReadTag =>
      [ReadNdef(tag)] + ReadCompletion(s, st.readHandler, reply.readMessage, reply.readError)
    case InvalidateTag(message) =>
      [Invalidate(Some(message))]
  }

  predicate IsHandlerCall(e: Effect) {
    e.CallWriteHandler? || e.CallReadHandler?
  }

  /** How many times a trace calls a completion handler. */
  function HandlerCalls(effects: seq<Effect>): nat {
    if effects == [] then 0
    else (if IsHandlerCall(effects[0]) then 1 else 0) + HandlerCalls(effects[1..])
  }

  lemma {:induction false} HandlerCallsAppend(a: seq<Effect>, b: seq<Effect>)
    ensures HandlerCalls(a + b) == HandlerCalls(a) + HandlerCalls(b)
  {
    if a == [] {
      assert a + b == b;
    } else {
      assert (a + b)[1..] == a[1..] + b;
      HandlerCallsAppend(a[1..], b);
    }
  }

  /** A handler is called at most once per tag, and exactly once when the tag
      is written or read and a handler for that mode is set. */
  lemma HandlerCalledAtMostOnce(s: Services, st: SessionState, tag: Tag, reply: TagReply)
    requires st.Valid()
    ensures HandlerCalls(TagEffects(s, st, tag, reply)) <= 1
    ensures HandlerCalls(TagEffects(s, st, tag, reply)) == 1 <==>
            (st.isWriting && reply.status == ReadWrite && st.writeHandler.Some?) ||
            (!st.isWriting && (reply.status == ReadOnly || reply.status == ReadWrite) &&
             st.readHandler.Some?)
  {
    var head := [Connect(tag), QueryStatus(tag)];
    assert HandlerCalls(head) == 0 by {
      assert head[1..][1..] == [];
    }
    match Decide(st.isWriting, reply.status)
    case WriteTag =>
      var done := WriteCompletion(st.writeHandler, reply.writeError);
      HandlerCallsAppend(head, [WriteNdef(tag, st.ndefMessage.value)] + done);
      HandlerCallsAppend([WriteNdef(tag, st.ndefMessage.value)], done);
      HandlerCallsAppend([SetAlert(WriteDoneAlert), Invalidate(None)], done[2..]);
      assert done == [SetAlert(WriteDoneAlert), Invalidate(None)] + done[2..];
    case ReadTag =>
      var done := ReadCompletion(s, st.readHandler, reply.readMessage, reply.readError);
      HandlerCallsAppend(head, [ReadNdef(tag)] + done);
      HandlerCallsAppend([ReadNdef(tag)], done);
      HandlerCallsAppend([SetAlert(ReadDoneAlert), Invalidate(None)], done[2..]);
      assert done == [SetAlert(ReadDoneAlert), Invalidate(None)] + done[2..];
    case InvalidateTag(m) =>
      HandlerCallsAppend(head, [Invalidate(Some(m))]);
  }

  /** The tag is written exactly in write mode on a read-write tag, and then
      with the stored message; it is read exactly in read mode on a read-only
      or read-write tag. */
  lemma RadioOperationsFollowDispatch(s: Services, st: SessionState, tag: Tag, reply: TagReply)
    requires st.Valid()
    ensures (exists e :: e in TagEffects(s, st, tag, reply) && e.WriteNdef?) <==>
            st.isWriting && reply.status == ReadWrite
    ensures forall e :: e in TagEffects(s, st, tag, reply) && e.WriteNdef? ==>
              e == WriteNdef(tag, st.ndefMessage.value)
    ensures (exists e :: e in TagEffects(s, st, tag, reply) && e.ReadNdef?) <==>
            !st.isWriting && (reply.status == ReadOnly || reply.status == ReadWrite)
  {
    var effects := TagEffects(s, st, tag, reply);
    if st.isWriting && reply.status == ReadWrite {
      assert effects[2] == WriteNdef(tag, st.ndefMessage.value);
    } else if !st.isWriting && (reply.status == ReadOnly || reply.status == ReadWrite) {
      assert effects[2] == ReadNdef(tag);
    }
  }

  /** Every other combination of mode and status only invalidates, with the
      error message: nothing is written, read or handed to a handler. */
  lemma IncompatibleTagInvalidates(s: Services, st: SessionState, tag: Tag, reply: TagReply)
    requires st.Valid()
    requires !(st.isWriting && reply.status == ReadWrite)
    requires !(!st.isWriting && (reply.status == ReadOnly || reply.status == ReadWrite))
    ensures TagEffects(s, st, tag, reply) ==
            [Connect(tag), QueryStatus(tag), Invalidate(Some(BadTagMessage))]
  {
  }

  /** A handler call is the last thing done, right after the reader session is
      invalidated, and it passes the tag's error through unchanged. */
  lemma HandlerCalledLastWithTagError(s: Services, st: SessionState, tag: Tag, reply: TagReply)
    requires st.Valid()
    ensures forall i :: 0 <= i < |TagEffects(s, st, tag, reply)| &&
                        IsHandlerCall(TagEffects(s, st, tag, reply)[i]) ==>
              i == |TagEffects(s, st, tag, reply)| - 1 && i >= 1 &&
              TagEffects(s, st, tag, reply)[i - 1] == Invalidate(None)
    ensures forall h, e :: CallWriteHandler(h, e) in TagEffects(s, st, tag, reply) ==>
              Some(h) == st.writeHandler && e == reply.writeError
    ensures forall h, t, e :: CallReadHandler(h, t, e) in TagEffects(s, st, tag, reply) ==>
              Some(h) == st.readHandler && t == DecodeMessage(s, reply.readMessage) &&
              e == reply.readError
  {
  }

  /** The completion alert is set whether or not the operation failed. */
  lemma CompletionAlertEvenOnError(s: Services, st: SessionState, tag: Tag, reply: TagReply)
    requires st.Valid()
    ensures st.isWriting && reply.status == ReadWrite ==>
              SetAlert(WriteDoneAlert) in TagEffects(s, st, tag, reply)
    ensures !st.isWriting && (reply.status == ReadOnly || reply.status == ReadWrite) ==>
              SetAlert(ReadDoneAlert) in TagEffects(s, st, tag, reply)
  {
    var effects := TagEffects(s, st, tag, reply);
    if st.isWriting && reply.status == ReadWrite {
      assert effects[3] == SetAlert(WriteDoneAlert);
    } else if !st.isWriting && (reply.status == ReadOnly || reply.status == ReadWrite) {
      assert effects[3] == SetAlert(ReadDoneAlert);
    }
  }

  /** The connect and query errors and the capacity change nothing. */
  lemma ConnectAndQueryErrorsIgnored(s: Services, st: SessionState, tag: Tag, r1: TagReply, r2: TagReply)
    requires st.Valid()
    requires r1.status == r2.status && r1.writeError == r2.writeError
    requires r1.readMessage == r2.readMessage && r1.readError == r2.readError
    ensures TagEffects(s, st, tag, r1) == TagEffects(s, st, tag, r2)
  {
  }

  /** The reader session CoreNFC opens for a scan. Only what the app sets on
      it is modelled: its alert text and whether the scan was begun. */
  class ReaderSession {
    var alertMessage: string
    var begun: bool
    const invalidateAfterFirstRead: bool

    constructor (invalidateAfterFirstRead: bool)
      ensures this.invalidateAfterFirstRead == invalidateAfterFirstRead
      ensures alertMessage == "" && !begun
    {
      this.invalidateAfterFirstRead := invalidateAfterFirstRead;
      alertMessage := "";
      begun := false;
    }

    /** `begin()`: start scanning. */
    method Begin()
      modifies this`begun
      ensures begun
    {
      begun := true;
    }
  }

  class NFCSession {
    /** The Foundation and CoreNFC services the object calls. */
    const services: Services
    var session: ReaderSession?
    var isWriting: bool
    var ndefMessage: Option<Message>
    var writeHandler: Option<Handler>
    var readHandler: Option<Handler>

    ghost predicate Valid()
      reads this
    {
      State().Valid()
    }

    /** The fields the tag callbacks read. */
    ghost function State(): SessionState
      reads this
    {
      SessionState(isWriting, ndefMessage, writeHandler, readHandler)
    }

    constructor (services: Services)
      ensures this.services == services
      ensures Valid() && session == null
      ensures State() == SessionState(false, None, None, None)
    {
      this.services := services;
      session := null;
      isWriting := false;
      ndefMessage := None;
      writeHandler := None;
      readHandler := None;
    }

    /** `startWriteSession`: store the handler, switch to write mode, store the
        two-record message, then start a scan. */
    method StartWriteSession(text: string, writeHandler: Option<Handler>, readingAvailable: bool)
      requires services.uriRecord(MusicUrl).Some?
      modifies this
      ensures Valid()
      ensures isWriting && this.writeHandler == writeHandler
      ensures ndefMessage == Some(WriteMessage(services, text))
      ensures readHandler == old(readHandler)
      ensures readingAvailable ==> session != null && fresh(session) && ScanOpened(session)
      ensures !readingAvailable ==> session == old(session)
    {
      this.writeHandler := writeHandler;
      isWriting := true;
      var textPayload := TextRecord(services, text);
      var uriPayload := services.uriRecord(MusicUrl);
      ndefMessage := Some(Message([textPayload, uriPayload.value]));
      StartSession(readingAvailable);
    }

    /** `startReadSession`: store the handler, switch to read mode, then start
        a scan. The stored message and write handler are left as they were. */
    method StartReadSession(readHandler: Option<Handler>, readingAvailable: bool)
      modifies this
      ensures Valid()
      ensures !isWriting && this.readHandler == readHandler
      ensures ndefMessage == old(ndefMessage) && writeHandler == old(writeHandler)
      ensures readingAvailable ==> session != null && fresh(session) && ScanOpened(session)
      ensures !readingAvailable ==> session == old(session)
    {
      this.readHandler := readHandler;
      isWriting := false;
      StartSession(readingAvailable);
    }

    /** A reader session as `startSession` leaves it. */
    ghost predicate ScanOpened(s: ReaderSession)
      reads s
    {
      s.alertMessage == ScanningAlert && s.begun && !s.invalidateAfterFirstRead
    }

    /** `startSession`: when NFC reading is unavailable, return silently;
        otherwise open a new reader session, set its alert and begin it. */
    method StartSession(readingAvailable: bool)
      modifies this`session
      ensures readingAvailable ==> session != null && fresh(session) && ScanOpened(session)
      ensures !readingAvailable ==> session == old(session)
    {
      if !readingAvailable {
        return;
      }
      var scan := new ReaderSession(false);
      session := scan;
      scan.alertMessage := ScanningAlert;
      scan.Begin();
    }

    /** `readerSession(_:didDetect:)`: take the first tag, connect, query its
        status, then write, read or invalidate. */
    method DidDetect(tags: seq<Tag>, reply: TagReply) returns (effects: seq<Effect>)
      requires Valid()
      requires |tags| > 0
      ensures effects == TagEffects(services, State(), tags[0], reply)
    {
      var tag := tags[0];
      effects := [Connect(tag), QueryStatus(tag)];
      if isWriting {
        if reply.status == ReadWrite {
          var done := Write(tag, reply.writeError);
          return effects + done;
        }
      } else {
        if reply.status == ReadOnly || reply.status == ReadWrite {
          var done := Read(tag, reply.readMessage, reply.readError);
          return effects + done;
        }
      }
      effects := effects + [Invalidate(Some(BadTagMessage))];
    }

    /** `write(tag:session:)`: write the stored message; on completion set the
        alert, invalidate, and give the error to the write handler. */
    method Write(tag: Tag, error: Option<NfcError>) returns (effects: seq<Effect>)
      requires ndefMessage.Some?
      ensures effects == [WriteNdef(tag, ndefMessage.value)] + WriteCompletion(writeHandler, error)
    {
      effects := [WriteNdef(tag, ndefMessage.value)];
      effects := effects + [SetAlert(WriteDoneAlert)];
      effects := effects + [Invalidate(None)];
      if writeHandler.Some? {
        effects := effects + [CallWriteHandler(writeHandler.value, error)];
      }
    }

    /** `read(tag:session:)`: read the tag; on completion set the alert,
        invalidate, decode the message and give text and error to the read
        handler. */
    method Read(tag: Tag, message: Option<Message>, error: Option<NfcError>)
      returns (effects: seq<Effect>)
      ensures effects == [ReadNdef(tag)] + ReadCompletion(services, readHandler, message, error)
    {
      effects := [ReadNdef(tag)];
      effects := effects + [SetAlert(ReadDoneAlert)];
      effects := effects + [Invalidate(None)];
      var text := DecodeMessage(services, message);
      if readHandler.Some? {
        effects := effects + [CallReadHandler(readHandler.value, text, error)];
      }
    }
  }

  /** A read session started after a write session keeps the write session's
      message and write handler: only the mode flag and the read handler change. */
  method ReadAfterWrite(s: Services, text: string, wh: Option<Handler>, rh: Option<Handler>,
                        readingAvailable: bool)
    returns (writing: bool, message: Option<Message>, writeHandler: Option<Handler>,
             readHandler: Option<Handler>)
    requires s.uriRecord(MusicUrl).Some?
    ensures !writing && message == Some(WriteMessage(s, text))
    ensures writeHandler == wh && readHandler == rh
  {
    var nfc := new NFCSession(s);
    nfc.StartWriteSession(text, wh, readingAvailable);
    nfc.StartReadSession(rh, readingAvailable);
    writing, message, writeHandler, readHandler :=
      nfc.isWriting, nfc.ndefMessage, nfc.writeHandler, nfc.readHandler;
  }

  /** Writing a tag with the app and then reading it with the app: the write
      handler gets the write error, and the read handler gets the text, a
      blank line and the track link, with the read error. */
  method WriteThenRead(s: Services, text: string, wh: Handler, rh: Handler, tag: Tag,
                       writeError: Option<NfcError>, readError: Option<NfcError>)
    returns (written: seq<Effect>, read: seq<Effect>)
    requires Utf8RoundTrips(s, text) && s.recordUri(TextRecord(s, text)) == None
    requires UriRoundTrips(s, MusicUrl)
    ensures |written| > 0 && written[|written| - 1] == CallWriteHandler(wh, writeError)
    ensures |read| > 0 && read[|read| - 1] == CallReadHandler(rh, Some(text + Separator + MusicUrl), readError)
    ensures HandlerCalls(written) == 1 && HandlerCalls(read) == 1
  {
    var nfc := new NFCSession(s);
    nfc.StartWriteSession(text, Some(wh), true);
    var m := nfc.ndefMessage.value;
    written := nfc.DidDetect([tag], TagReply(None, ReadWrite, 0, None, writeError, None, None));
    HandlerCalledAtMostOnce(s, nfc.State(), tag, TagReply(None, ReadWrite, 0, None, writeError, None, None));
    nfc.StartReadSession(Some(rh), true);
    var reply := TagReply(None, ReadWrite, 0, None, None, Some(m), readError);
    read := nfc.DidDetect([tag], reply);
    HandlerCalledAtMostOnce(s, nfc.State(), tag, reply);
    WrittenMessageReadsBack(s, text);
  }
}

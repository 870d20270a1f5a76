/** The write side: the two-record message `startWriteSession` stores before
    the scan starts, and what reading it back yields. */
module MessageBuilder {
  import opened Ndef
  import opened Platform
  import opened RecordDecoding
  import opened NewlineFilter
  import opened TrackLink

  /** The text record: a well-known "T" record with no identifier whose payload
      is the raw UTF-8 text. There is no status byte and no language code, so
      it does not follow the layout of section 3.2 of the NFC Forum Text Record
      Type Definition. */
  function TextRecord(s: Services, text: string): (r: Record)
    ensures r.tnf == WellKnown && r.typ == TextType && r.identifier == []
    ensures r.payload == s.utf8Encode(text)
  {
    Record(WellKnown, TextType, [], s.utf8Encode(text))
  }

  /** The message to write: the text record, then the URI record of the track
      link. Building the link record is force-unwrapped in the app, so the
      link must have one. */
  function WriteMessage(s: Services, text: string): (m: Message)
    requires s.uriRecord(MusicUrl).Some?
    ensures |m.records| == 2
    ensures m.records[0] == TextRecord(s, text)
    ensures m.records[1] == s.uriRecord(MusicUrl).value
  {
    Message([TextRecord(s, text), s.uriRecord(MusicUrl).value])
  }

  /** A text record is never read as a URI when only "U" records are. */
  lemma TextRecordIsNotUri(s: Services, text: string)
    requires UriNeedsUriType(s)
    ensures s.recordUri(TextRecord(s, text)) == None
  {
    assert TextType != UriType by {
      assert TextType[0] != UriType[0];
    }
  }

  /** The text record reads back as its text when the platform does not read
      it as a URI and UTF-8 decoding gives this text back. */
  lemma TextRecordReadsBack(s: Services, text: string)
    requires Utf8RoundTrips(s, text) && s.recordUri(TextRecord(s, text)) == None
    ensures DecodeRecord(s, TextRecord(s, text)) == Some(text)
  {
  }

  /** Reading the written message gives the text, a blank line, then the link. */
  lemma WrittenMessageReadsBack(s: Services, text: string)
    requires Utf8RoundTrips(s, text) && s.recordUri(TextRecord(s, text)) == None
    requires UriRoundTrips(s, MusicUrl)
    ensures DecodeMessage(s, Some(WriteMessage(s, text))) == Some(text + Separator + MusicUrl)
  {
    TextRecordReadsBack(s, text);
    var m := WriteMessage(s, text);
    assert m.records == [m.records[0], m.records[1]];
    TwoRecordsJoined(s, m.records[0], m.records[1], text, MusicUrl);
  }

  /** After the read callback's filter, the text, a blank line and a link
      without line breaks give the filtered text directly followed by the link,
      unless the text ends in a CR (which pairs with the first separator LF). */
  lemma FilteredTextThenLink(text: string, url: string)
    requires '\n' !in url
    requires text == [] || text[|text| - 1] != '\r'
    ensures RemoveNewlines(text + Separator + url) == RemoveNewlines(text) + url
  {
    var tail := Separator + url;
    assert text + Separator + url == text + tail;
    StripAppend(text, tail, false);
    StripAppend(Separator, url, false);
    assert StripFrom(Separator, false) == "" by {
      assert Separator[1..] == "\n";
      assert "\n"[1..] == "";
    }
    NoNewlineUnchanged(url, false);
  }

  /** The filtered text, a blank line and a link without line breaks is
      exactly the link if and only if the text was empty or line feeds only. */
  lemma FilteredIsLinkIff(text: string, url: string)
    requires '\n' !in url && '\r' !in url
    ensures RemoveNewlines(text + Separator + url) == url <==>
            forall i :: 0 <= i < |text| ==> text[i] == '\n'
  {
    NothingLeft(text);
    if text != [] && text[|text| - 1] == '\r' {
      // the filter keeps the CR, and the link has none
      var t := text + Separator + url;
      assert t[|text| - 1] == '\r';
      assert multiset(RemoveNewlines(t))['\r'] > 0;
    } else {
      FilteredTextThenLink(text, url);
    }
  }

  /** A tag written by the app and read back through the read callback's
      filter gives the filtered text directly followed by the track link
      (when the text does not end in a CR). */
  lemma FilteredReadBack(s: Services, text: string)
    requires Utf8RoundTrips(s, text) && s.recordUri(TextRecord(s, text)) == None
    requires UriRoundTrips(s, MusicUrl)
    requires text == [] || text[|text| - 1] != '\r'
    ensures RemoveNewlines(DecodeMessage(s, Some(WriteMessage(s, text))).value) ==
            RemoveNewlines(text) + MusicUrl
  {
    WrittenMessageReadsBack(s, text);
    MusicUrlHasNoLineBreak();
    FilteredTextThenLink(text, MusicUrl);
  }

  /** The filtered read-back of a tag written by the app is exactly the track
      link if and only if the text written was empty or line feeds only. */
  lemma ReadBackIsLinkIff(s: Services, text: string)
    requires Utf8RoundTrips(s, text) && s.recordUri(TextRecord(s, text)) == None
    requires UriRoundTrips(s, MusicUrl)
    ensures RemoveNewlines(DecodeMessage(s, Some(WriteMessage(s, text))).value) == MusicUrl <==>
            forall i :: 0 <= i < |text| ==> text[i] == '\n'
  {
    WrittenMessageReadsBack(s, text);
    MusicUrlHasNoLineBreak();
    FilteredIsLinkIff(text, MusicUrl);
  }
}

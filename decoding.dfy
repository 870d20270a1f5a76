/** The read side: each record of the message read from the tag is turned into
    a string or dropped (a `compactMap`), and the survivors are joined with a
    blank line between them. */
module RecordDecoding {
  import opened Ndef
  import opened Platform

  /** The separator of `joined(separator:)`. */
  const Separator: string := "\n\n"

  /** One step of the `compactMap`: a well-known record is read as a URI first
      and as UTF-8 text second; a record of any other format is dropped. */
  function DecodeRecord(s: Services, r: Record): (t: Option<string>)
    ensures r.tnf != WellKnown ==> t == None
    ensures r.tnf == WellKnown && s.recordUri(r).Some? ==> t == s.recordUri(r)
    ensures r.tnf == WellKnown && s.recordUri(r).None? ==> t == s.utf8Decode(r.payload)
  {
    match r.tnf
    case WellKnown =>
      (match s.recordUri(r)
       case Some(u) => Some(u)
       case None => s.utf8Decode(r.payload))
    case _ => None
  }

  /** The strings of the records that decode, in record order. */
  function Survivors(s: Services, records: seq<Record>): (texts: seq<string>)
    ensures |texts| <= |records|
    ensures forall i :: 0 <= i < |records| && DecodeRecord(s, records[i]).Some? ==>
              DecodeRecord(s, records[i]).value in texts
    ensures forall x :: x in texts ==>
              exists i :: 0 <= i < |records| && DecodeRecord(s, records[i]) == Some(x)
  {
    if records == [] then []
    else
      var rest := Survivors(s, records[1..]);
      assert forall i :: 1 <= i < |records| ==> records[i] == records[1..][i - 1];
      match DecodeRecord(s, records[0])
      case Some(t) => [t] + rest
      case None => rest
  }

  /** `joined(separator:)`: the parts with `sep` between each two of them. */
  function Join(parts: seq<string>, sep: string): (r: string)
    ensures |parts| == 1 ==> r == parts[0]
    ensures |parts| == 0 ==> r == ""
  {
    if |parts| == 0 then ""
    else if |parts| == 1 then parts[0]
    else parts[0] + sep + Join(parts[1..], sep)
  }

  /** The read-side text: None when the tag gave no message, otherwise the
      surviving strings joined with a blank line. */
  function DecodeMessage(s: Services, m: Option<Message>): (t: Option<string>)
    ensures m.None? <==> t.None?
  {
    match m
    case None => None
    case Some(msg) => Some(Join(Survivors(s, msg.records), Separator))
  }

  /** The total length of some strings. */
  function TotalLength(parts: seq<string>): nat {
    if parts == [] then 0 else |parts[0]| + TotalLength(parts[1..])
  }

  /** The joined text is every part plus one separator between each two. */
  lemma {:induction false} JoinLength(parts: seq<string>, sep: string)
    requires |parts| > 0
    ensures |Join(parts, sep)| == TotalLength(parts) + (|parts| - 1) * |sep|
  {
    if |parts| > 1 {
      JoinLength(parts[1..], sep);
    }
  }

  /** Joining two non-empty lists is joining each and putting one separator between. */
  lemma {:induction false} JoinAppend(a: seq<string>, b: seq<string>, sep: string)
    requires |a| > 0 && |b| > 0
    ensures Join(a + b, sep) == Join(a, sep) + sep + Join(b, sep)
  {
    if |a| == 1 {
      assert (a + b)[1..] == b;
    } else {
      assert (a + b)[1..] == a[1..] + b;
      JoinAppend(a[1..], b, sep);
    }
  }

  /** Survivors keep their order: the survivors of a concatenation are the
      survivors of each part, one after the other. */
  lemma {:induction false} SurvivorsAppend(s: Services, a: seq<Record>, b: seq<Record>)
    ensures Survivors(s, a + b) == Survivors(s, a) + Survivors(s, b)
  {
    if a == [] {
      assert a + b == b;
    } else {
      assert (a + b)[1..] == a[1..] + b;
      SurvivorsAppend(s, a[1..], b);
    }
  }

  /** Records none of which decode leave no survivors. */
  lemma {:induction false} NoSurvivors(s: Services, records: seq<Record>)
    requires forall i :: 0 <= i < |records| ==> DecodeRecord(s, records[i]).None?
    ensures Survivors(s, records) == []
  {
    if records != [] {
      assert DecodeRecord(s, records[0]).None?;
      assert forall i :: 0 <= i < |records[1..]| ==> records[1..][i] == records[i + 1];
      NoSurvivors(s, records[1..]);
    }
  }

  /** A message none of whose records decode reads as the empty string. */
  lemma NothingDecodesGivesEmpty(s: Services, m: Message)
    requires forall i :: 0 <= i < |m.records| ==> DecodeRecord(s, m.records[i]).None?
    ensures DecodeMessage(s, Some(m)) == Some("")
  {
    NoSurvivors(s, m.records);
  }

  /** A two-record message whose records decode to `a` and `b` reads as `a`,
      a blank line, then `b`. */
  lemma TwoRecordsJoined(s: Services, r1: Record, r2: Record, a: string, b: string)
    requires DecodeRecord(s, r1) == Some(a) && DecodeRecord(s, r2) == Some(b)
    ensures DecodeMessage(s, Some(Message([r1, r2]))) == Some(a + "\n\n" + b)
  {
    assert [r1, r2][1..] == [r2];
    assert Survivors(s, [r2]) == [b];
    assert Survivors(s, [r1, r2]) == [a, b];
  }

  /** Reading the records of `a` followed by those of `b` gives the text of
      `a`, a blank line, then the text of `b`, when both have survivors. */
  lemma MessageAppend(s: Services, a: seq<Record>, b: seq<Record>)
    requires Survivors(s, a) != [] && Survivors(s, b) != []
    ensures DecodeMessage(s, Some(Message(a + b))) ==
            Some(DecodeMessage(s, Some(Message(a))).value + Separator +
                 DecodeMessage(s, Some(Message(b))).value)
  {
    SurvivorsAppend(s, a, b);
    JoinAppend(Survivors(s, a), Survivors(s, b), Separator);
  }

  /** Records that do not decode add nothing to the text, wherever they are. */
  lemma DroppedRecordsVanish(s: Services, a: seq<Record>, dropped: seq<Record>, b: seq<Record>)
    requires forall i :: 0 <= i < |dropped| ==> DecodeRecord(s, dropped[i]).None?
    ensures DecodeMessage(s, Some(Message(a + dropped + b))) == DecodeMessage(s, Some(Message(a + b)))
  {
    NoSurvivors(s, dropped);
    SurvivorsAppend(s, a, dropped);
    assert Survivors(s, a + dropped) == Survivors(s, a);
    SurvivorsAppend(s, a + dropped, b);
    SurvivorsAppend(s, a, b);
    assert Survivors(s, a + dropped + b) == Survivors(s, a + b);
  }
}

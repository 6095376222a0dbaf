/**
 How a consumer of an extended menu template reads records back: the prefix,
 the label up to its terminator, the filler unit after an odd-length label,
 and for a record with the popup flag the help id and a nested sibling
 sequence; a sibling sequence ends with the record carrying the end flag.
 A reader of the layout the encoder writes; not a model of the system's
 own parser.
 */
module TemplateReader {
  import opened Wrappers
  import opened WinUser
  import opened Words
  import opened MenuItems
  import opened TemplateFormat
  import opened TemplateWriter

  /** The label at the start of `w` and what follows its terminator; `None`
      when no terminator is found. */
  function ReadLabel(w: seq<bv16>): (r: Option<(seq<CodeUnit>, seq<bv16>)>)
    ensures r.Some? ==> |r.value.1| < |w|
  {
    if |w| == 0 then None
    else if w[0] == 0 then Some(([], w[1..]))
    else
      match ReadLabel(w[1..])
      case None => None
      case Some((units, rest)) => Some(([w[0]] + units, rest))
  }

  /** The label at the start of `w`, skipping the filler unit that follows
      the terminator of an odd-length label. */
  function ReadText(w: seq<bv16>): (r: Option<(seq<CodeUnit>, seq<bv16>)>)
    ensures r.Some? ==> |r.value.1| < |w|
  {
    match ReadLabel(w)
    case None => None
    case Some((text, afterText)) =>
      if |text| % 2 == 0 then Some((text, afterText))
      else if |afterText| == 0 then None
      else Some((text, afterText[1..]))
  }

  /** One record at the start of `w`, and what follows it. */
  function ParseRecord(w: seq<bv16>): (r: Option<(Record, seq<bv16>)>)
    ensures r.Some? ==> |r.value.1| < |w|
    decreases |w|, 0
  {
    if |w| < ItemHeaderLen then None
    else
      var head := ReadItemHeader(w);
      match ReadText(w[ItemHeaderLen..])
      case None => None
      case Some((text, rest)) =>
        if !HasBits16(head.flags, MFR_POPUP) then Some((Record(head, text, NoPopup), rest))
        else if |rest| < 2 then None
        else
          match ParseRun(rest[2..])
          case None => None
          case Some((kids, after)) => Some((Record(head, text, Popup(ReadU32(rest, 0), kids)), after))
  }

  /** A sibling sequence at the start of `w`, up to and including the record
      with the end flag, and what follows it. */
  function ParseRun(w: seq<bv16>): (r: Option<(seq<Record>, seq<bv16>)>)
    ensures r.Some? ==> |r.value.1| < |w| && |r.value.0| > 0
    decreases |w|, 1
  {
    match ParseRecord(w)
    case None => None
    case Some((rec, rest)) =>
      if HasBits16(rec.head.flags, MF_END) then Some(([rec], rest))
      else
        match ParseRun(rest)
        case None => None
        case Some((recs, after)) => Some(([rec] + recs, after))
  }

  /** Reading a label back: the units up to the terminator, whatever follows. */
  lemma {:induction false} ReadLabelOfText(units: seq<CodeUnit>, tail: seq<bv16>)
    requires NoNul(units)
    ensures ReadLabel(units + [0] + tail) == Some((units, tail))
    decreases |units|
  {
    var w := units + [0] + tail;
    if |units| > 0 {
      assert w[1..] == units[1..] + [0] + tail;
      ReadLabelOfText(units[1..], tail);
      assert [w[0]] + units[1..] == units;
    } else {
      assert w[1..] == tail;
    }
  }

  /** Reading a written label back, filler included. */
  lemma ReadTextOfWritten(units: seq<CodeUnit>, tail: seq<bv16>)
    requires NoNul(units)
    ensures ReadText(WriteText(units) + tail) == Some((units, tail))
  {
    var filler: seq<bv16> := if |units| % 2 == 1 then [0] else [];
    assert WriteText(units) + tail == units + [0] + (filler + tail);
    ReadLabelOfText(units, filler + tail);
    assert (filler + tail)[|filler|..] == tail;
  }

  /** Round trip for one record: reading a well-formed record back from its
      serialization gives the record and leaves what follows untouched. */
  lemma {:induction false} RecordRoundTrip(r: Record, tail: seq<bv16>)
    requires WellFormed(r)
    ensures ParseRecord(SerializeRecord(r) + tail) == Some((r, tail))
    decreases r, 1
  {
    var headWords := ItemHeaderWords(r.head);
    var text := WriteText(r.text);
    var sub := match r.popup
      case NoPopup => []
      case Popup(helpId, kids) => U32Words(helpId) + SerializeSeq(kids);
    var w := SerializeRecord(r) + tail;
    assert w == headWords + (text + (sub + tail));
    ItemHeaderRoundTrip(r.head, text + (sub + tail));
    assert w[ItemHeaderLen..] == text + (sub + tail);
    ReadTextOfWritten(r.text, sub + tail);
    match r.popup
    case NoPopup =>
      assert sub + tail == tail;
    case Popup(helpId, kids) =>
      var rest := sub + tail;
      assert rest == U32Words(helpId) + (SerializeSeq(kids) + tail);
      ReadU32Words(helpId, SerializeSeq(kids) + tail);
      assert rest[2..] == SerializeSeq(kids) + tail;
      SeqRoundTrip(kids, tail);
  }

  /** Round trip for a sibling sequence. */
  lemma {:induction false} SeqRoundTrip(rs: seq<Record>, tail: seq<bv16>)
    requires WellFormedSeq(rs)
    ensures ParseRun(SerializeSeq(rs) + tail) == Some((rs, tail))
    decreases rs, 0
  {
    var rest := SerializeSeq(rs[1..]) + tail;
    assert SerializeSeq(rs) + tail == SerializeRecord(rs[0]) + rest;
    RecordRoundTrip(rs[0], rest);
    if |rs| == 1 {
      assert HasBits16(rs[0].head.flags, MF_END);
      assert rest == tail && rs == [rs[0]];
    } else {
      assert !HasBits16(rs[0].head.flags, MF_END);
      assert WellFormedSeq(rs[1..]);
      SeqRoundTrip(rs[1..], tail);
      assert [rs[0]] + rs[1..] == rs;
    }
  }
}

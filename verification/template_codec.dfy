/**
 The encoder checked against the template reader: what it gets back from
 the encoding of a menu tree is one record per item carrying exactly the
 fields the item asks for, and for an empty sequence the "Empty" placeholder.
 */
module TemplateCodec {
  import opened WinUser
  import opened MenuItems
  import opened TemplateFormat
  import opened TemplateSizes
  import opened TemplateLayout
  import opened TemplateWriter
  import opened TemplateReader

  /** Reading back the encoding of a sibling sequence gives records that
      describe its items (or the placeholder), with the end flag on exactly
      the last, and consumes exactly the encoding. */
  lemma DecodeEncodedSeq(items: seq<MenuItem>, tail: seq<bv16>)
    requires LabelsOkSeq(items)
    ensures var p := ParseRun(EncodeSeq(items) + tail);
      && p.Some?
      && p.value.1 == tail
      && DescribesSeq(p.value.0, items)
      && (forall i | 0 <= i < |p.value.0| :: HasBits16(p.value.0[i].head.flags, MF_END) <==> i == |p.value.0| - 1)
  {
    LayoutSeqDescribes(items);
    DescribedSeqWellFormed(LayoutSeq(items), items);
    SeqRoundTrip(LayoutSeq(items), tail);
    EndFlagOnLastOnly(LayoutSeq(items), items);
  }

  /** Reading back the encoding of one item gives a record describing it. */
  lemma DecodeEncodedItem(item: MenuItem, isLast: bool, tail: seq<bv16>)
    requires LabelsOk(item)
    ensures var p := ParseRecord(EncodeItem(item, isLast) + tail);
      p.Some? && p.value.1 == tail && Describes(p.value.0, item, isLast)
  {
    LayoutItemDescribes(item, isLast);
    DescribedWellFormed(LayoutItem(item, isLast), item, isLast);
    RecordRoundTrip(LayoutItem(item, isLast), tail);
  }

  /** An empty sequence encodes as one 28-byte record: disabled, end of
      menu, labelled "Empty", every other field zero. */
  lemma EncodeEmptySeq(tail: seq<bv16>)
    ensures 2 * |EncodeSeq([])| == 28
    ensures var p := ParseRun(EncodeSeq([]) + tail);
      p.Some? && p.value.1 == tail && |p.value.0| == 1 && IsPlaceholder(p.value.0[0])
  {
    EncodeSeqLength([]);
    DecodeEncodedSeq([], tail);
  }
}

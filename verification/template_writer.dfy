/**
 The encoder's output: records laid out back to back as 16-bit words
 (`write_text` and the two `write_template` overloads). The output buffer is
 zeroed before writing, so words the writer skips are modelled as zeros.
 */
module TemplateWriter {
  import opened Wrappers
  import opened Words
  import opened MenuItems
  import opened TemplateFormat
  import opened TemplateSizes
  import opened TemplateLayout

  /** The label's code units, one zero terminator, and one zero filler unit
      when the label length is odd. */
  function WriteText(units: seq<CodeUnit>): seq<bv16> {
    units + [0] + (if |units| % 2 == 1 then [0] else [])
  }

  /** A record's prefix and label, and for a submenu the help id followed by
      the child records. */
  function SerializeRecord(r: Record): seq<bv16>
    decreases r, 1
  {
    ItemHeaderWords(r.head) + WriteText(r.text) +
    match r.popup
    case NoPopup => []
    case Popup(helpId, kids) => U32Words(helpId) + SerializeSeq(kids)
  }

  function SerializeSeq(rs: seq<Record>): seq<bv16>
    decreases rs, 0
  {
    if |rs| == 0 then [] else SerializeRecord(rs[0]) + SerializeSeq(rs[1..])
  }

  /** `write_template` for one item. */
  function EncodeItem(item: MenuItem, isLast: bool): seq<bv16> {
    SerializeRecord(LayoutItem(item, isLast))
  }

  /** `write_template` for a sibling sequence. */
  function EncodeSeq(items: seq<MenuItem>): seq<bv16> {
    SerializeSeq(LayoutSeq(items))
  }

  /** The label part has the length `template_item_size` reserves for it
      beyond the 14-byte prefix, a terminator and at most one filler unit,
      and holds the label followed by zeros. */
  lemma WriteTextLayout(units: seq<CodeUnit>)
    ensures 2 * (ItemHeaderLen + |WriteText(units)|) == TemplateItemSize(|units|)
    ensures WriteText(units)[..|units|] == units
    ensures forall i | |units| <= i < |WriteText(units)| :: WriteText(units)[i] == 0
    ensures |WriteText(units)| == |units| + 1 <==> |units| % 2 == 0
  {
  }

  /** Serializing a concatenation concatenates the serializations. */
  lemma {:induction false} SerializeSeqAppend(a: seq<Record>, b: seq<Record>)
    ensures SerializeSeq(a + b) == SerializeSeq(a) + SerializeSeq(b)
    decreases |a|
  {
    if |a| == 0 {
      assert a + b == b;
    } else {
      assert (a + b)[1..] == a[1..] + b;
      SerializeSeqAppend(a[1..], b);
    }
  }

  /** `rs` holds the records of `items`, each in either position. */
  predicate LaysOut(rs: seq<Record>, items: seq<MenuItem>) {
    |rs| == |items| &&
    forall i | 0 <= i < |items| :: rs[i] == LayoutItem(items[i], false) || rs[i] == LayoutItem(items[i], true)
  }

  /** Size agreement: what the encoder writes for an item takes exactly the
      bytes `template_size()` computes, two bytes per word. */
  lemma {:induction false} EncodeItemLength(item: MenuItem, isLast: bool)
    ensures 2 * |EncodeItem(item, isLast)| == ItemTemplateSize(item)
    decreases item, 2
  {
    WriteTextLayout(Label(item));
    match item.items
    case Absent =>
    case Present(kids) => EncodeSeqLength(kids);
  }

  /** Size agreement for a sibling sequence: the encoder advances the output
      by exactly `template_size(items)` bytes. */
  lemma {:induction false} EncodeSeqLength(items: seq<MenuItem>)
    ensures 2 * |EncodeSeq(items)| == TemplateSize(items)
    decreases items, 1
  {
    if |items| == 0 {
      WriteTextLayout(EmptyText);
      assert EncodeSeq(items) == SerializeRecord(PlaceholderRecord) + SerializeSeq([]);
    } else {
      LaysOutLength(LayoutRun(items), items);
    }
  }

  lemma {:induction false} LaysOutLength(rs: seq<Record>, items: seq<MenuItem>)
    requires LaysOut(rs, items)
    ensures 2 * |SerializeSeq(rs)| == SizeSum(items)
    decreases items, 0
  {
    if |items| > 0 {
      EncodeItemLength(items[0], false);
      EncodeItemLength(items[0], true);
      assert LaysOut(rs[1..], items[1..]);
      LaysOutLength(rs[1..], items[1..]);
    }
  }

  /** Alignment: in the encoding of a non-empty sibling sequence, the record
      of item `k` follows the records of the items before it, which take
      `SizeSum(items[..k])` bytes, a multiple of 4; it is the record of
      `items[k]`, marked last exactly when `k` is the last index. */
  lemma RecordAligned(items: seq<MenuItem>, k: nat)
    requires k < |items|
    ensures var before := SerializeSeq(LayoutRun(items)[..k]);
      && 2 * |before| == SizeSum(items[..k])
      && SizeSum(items[..k]) % 4 == 0
      && EncodeSeq(items) == before + EncodeItem(items[k], k == |items| - 1)
                             + SerializeSeq(LayoutRun(items)[k + 1..])
  {
    var rs := LayoutRun(items);
    assert rs == rs[..k] + [rs[k]] + rs[k + 1..];
    SerializeSeqAppend(rs[..k] + [rs[k]], rs[k + 1..]);
    SerializeSeqAppend(rs[..k], [rs[k]]);
    assert SerializeSeq([rs[k]]) == SerializeRecord(rs[k]);
    assert LaysOut(rs[..k], items[..k]);
    LaysOutLength(rs[..k], items[..k]);
    SizeSumAligned(items[..k]);
  }

  /** The layout of a prefix one record longer. */
  lemma SerializeStep(rs: seq<Record>, i: nat)
    requires i < |rs|
    ensures SerializeSeq(rs[..i + 1]) == SerializeSeq(rs[..i]) + SerializeRecord(rs[i])
  {
    assert rs[..i + 1] == rs[..i] + [rs[i]];
    SerializeSeqAppend(rs[..i], [rs[i]]);
    assert SerializeSeq([rs[i]]) == SerializeRecord(rs[i]);
  }

  /** The sibling-sequence writer: the placeholder for no items, otherwise
      each item but the last written as not-last, then the last as last. */
  method WriteTemplate(items: seq<MenuItem>) returns (out: seq<bv16>)
    ensures out == EncodeSeq(items)
    ensures 2 * |out| == TemplateSize(items)
  {
    EncodeSeqLength(items);
    if |items| == 0 {
      return SerializeRecord(PlaceholderRecord);
    }
    out := [];
    var i := 0;
    while i < |items| - 1
      invariant 0 <= i <= |items| - 1
      invariant out == SerializeSeq(LayoutRun(items)[..i])
    {
      SerializeStep(LayoutRun(items), i);
      out := out + EncodeItem(items[i], false);
      i := i + 1;
    }
    SerializeStep(LayoutRun(items), i);
    out := out + EncodeItem(items[i], true);
    assert LayoutRun(items)[..i + 1] == LayoutRun(items);
  }
}

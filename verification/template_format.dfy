/**
 The fixed-size parts of the extended menu template (MENUEX_TEMPLATE_HEADER
 and the prefix of MENUEX_TEMPLATE_ITEM) and what each prefix field must
 hold for a given menu item. Offsets and lengths are in 16-bit words; a word
 is two bytes.
 */
module TemplateFormat {
  import opened Wrappers
  import opened WinUser
  import opened Words
  import opened MenuItems

  /** The 8-byte template header: version, offset of the first item counted
      from the end of the offset field, and the menu's help id. */
  datatype TemplateHeader = TemplateHeader(version: bv16, offset: bv16, helpId: bv32)

  /** The 14-byte prefix of an item record. */
  datatype ItemHeader = ItemHeader(typ: bv32, state: bv32, id: bv32, flags: bv16)

  /** Lengths in words of the template header and of an item prefix. */
  const TemplateHeaderLen: nat := 4
  const ItemHeaderLen: nat := 7

  function TemplateHeaderWords(h: TemplateHeader): (r: seq<bv16>)
    ensures |r| == TemplateHeaderLen
  {
    [h.version, h.offset] + U32Words(h.helpId)
  }

  function ReadTemplateHeader(w: seq<bv16>): TemplateHeader
    requires |w| >= TemplateHeaderLen
  {
    TemplateHeader(w[0], w[1], ReadU32(w, 2))
  }

  function ItemHeaderWords(h: ItemHeader): (r: seq<bv16>)
    ensures |r| == ItemHeaderLen
  {
    U32Words(h.typ) + U32Words(h.state) + U32Words(h.id) + [h.flags]
  }

  function ReadItemHeader(w: seq<bv16>): ItemHeader
    requires |w| >= ItemHeaderLen
  {
    ItemHeader(ReadU32(w, 0), ReadU32(w, 2), ReadU32(w, 4), w[6])
  }

  /** Reading a template header back from its layout, whatever follows. */
  lemma TemplateHeaderRoundTrip(h: TemplateHeader, tail: seq<bv16>)
    ensures ReadTemplateHeader(TemplateHeaderWords(h) + tail) == h
  {
    var w := TemplateHeaderWords(h) + tail;
    assert w[2..4] == U32Words(h.helpId);
    ReadU32At(w, 2, h.helpId);
  }

  /** Reading an item prefix back from its layout, whatever follows. */
  lemma ItemHeaderRoundTrip(h: ItemHeader, tail: seq<bv16>)
    ensures ReadItemHeader(ItemHeaderWords(h) + tail) == h
  {
    var w := ItemHeaderWords(h) + tail;
    assert w[0..2] == U32Words(h.typ);
    assert w[2..4] == U32Words(h.state);
    assert w[4..6] == U32Words(h.id);
    ReadU32At(w, 0, h.typ);
    ReadU32At(w, 2, h.state);
    ReadU32At(w, 4, h.id);
  }

  /** One item record as the template holds it: prefix, label, and for a
      submenu the help id and the child records. */
  datatype Record = Record(head: ItemHeader, text: seq<CodeUnit>, popup: Popup)

  datatype Popup = NoPopup | Popup(helpId: bv32, records: seq<Record>)

  /** The label of the placeholder item: "Empty". */
  const EmptyText: seq<CodeUnit> := [0x45, 0x6D, 0x70, 0x74, 0x79]

  /** The placeholder record written for an empty sibling sequence:
      disabled, last, labelled "Empty", every other field zero. */
  const PlaceholderRecord: Record :=
    Record(ItemHeader(0, MFS_DISABLED, 0, MF_END), EmptyText, NoPopup)

  /** A record sequence as a template reader expects it: non-empty, the end
      flag on the last record only, the popup flag exactly on records with
      children, and labels without embedded terminators. */
  predicate WellFormedSeq(rs: seq<Record>) {
    && |rs| > 0
    && (forall i | 0 <= i < |rs| :: WellFormed(rs[i]))
    && (forall i | 0 <= i < |rs| :: HasBits16(rs[i].head.flags, MF_END) <==> i == |rs| - 1)
  }

  predicate WellFormed(r: Record) {
    && NoNul(r.text)
    && (HasBits16(r.head.flags, MFR_POPUP) <==> r.popup.Popup?)
    && match r.popup
       case NoPopup => true
       case Popup(_, kids) => WellFormedSeq(kids)
  }
}

/**
 What the encoder writes into each record: the prefix fields computed from a
 menu item (`write_template` for one item, src/menu-object.cc 85-94), the
 label, and for a submenu the never-written (zero) help id and the child
 records; and the "Empty" placeholder for an empty sibling sequence.
 */
module TemplateLayout {
  import opened Wrappers
  import opened WinUser
  import opened MenuItems
  import opened TemplateFormat

  /** The prefix fields of the record for `item`. */
  function HeaderOf(item: MenuItem, isLast: bool): ItemHeader {
    ItemHeader(
      if item.separator.GetOr(false) then MFT_SEPARATOR else 0,
      (if item.disabled.GetOr(false) then MFS_DISABLED else 0)
        | (if item.checked.GetOr(false) then MFS_CHECKED else 0),
      ToU32(item.id.GetOr(0)),
      (if isLast then MF_END else 0) | (if item.items.Present? then MFR_POPUP else 0))
  }

  /** The record of one item, with its children's records. */
  function LayoutItem(item: MenuItem, isLast: bool): Record
    decreases item, 2
  {
    Record(HeaderOf(item, isLast), Label(item),
      match item.items
      case Absent => NoPopup
      case Present(kids) => Popup(0, LayoutSeq(kids)))
  }

  /** The records of a sibling sequence: the placeholder when it is empty. */
  function LayoutSeq(items: seq<MenuItem>): seq<Record>
    decreases items, 1
  {
    if |items| == 0 then [PlaceholderRecord] else LayoutRun(items)
  }

  /** The records of a non-empty sibling sequence, only the last marked so. */
  function LayoutRun(items: seq<MenuItem>): (rs: seq<Record>)
    ensures |rs| == |items|
    decreases items, 0
  {
    seq(|items|, i requires 0 <= i < |items| => LayoutItem(items[i], i == |items| - 1))
  }

  /** What the prefix written for `item` must hold, bit by bit: the separator
      type bit exactly when `separator` is true, the disabled and checked state
      bits exactly when those flags are true, the id (0 when absent), the end
      flag exactly for the last sibling, the popup flag exactly when the item
      has a child list (even an empty one); and no other bit. */
  predicate HeaderDescribes(h: ItemHeader, item: MenuItem, isLast: bool) {
    && (HasBits32(h.typ, MFT_SEPARATOR) <==> item.separator.GetOr(false))
    && h.typ & !MFT_SEPARATOR == 0
    && (HasBits32(h.state, MFS_DISABLED) <==> item.disabled.GetOr(false))
    && (!item.disabled.GetOr(false) ==> h.state & MFS_DISABLED == 0)
    && (HasBits32(h.state, MFS_CHECKED) <==> item.checked.GetOr(false))
    && h.state & !(MFS_DISABLED | MFS_CHECKED) == 0
    && h.id == ToU32(item.id.GetOr(0))
    && (HasBits16(h.flags, MF_END) <==> isLast)
    && (HasBits16(h.flags, MFR_POPUP) <==> item.items.Present?)
    && h.flags & !(MF_END | MFR_POPUP) == 0
  }

  /** The placeholder: state disabled, flags end-of-menu, label "Empty",
      every other field zero, no children. */
  predicate IsPlaceholder(r: Record) {
    && r.head.typ == 0
    && r.head.state == MFS_DISABLED
    && r.head.id == 0
    && r.head.flags == MF_END
    && r.text == EmptyText
    && r.popup == NoPopup
  }

  /** A record carries what `item` asks for, in the position given by
      `isLast`; a submenu's records describe its children. */
  predicate Describes(r: Record, item: MenuItem, isLast: bool)
    decreases item, 1
  {
    && HeaderDescribes(r.head, item, isLast)
    && r.text == Label(item)
    && match item.items
       case Absent => r.popup == NoPopup
       case Present(kids) => r.popup.Popup? && r.popup.helpId == 0 && DescribesSeq(r.popup.records, kids)
  }

  /** A sibling sequence's records: the single placeholder for no items,
      otherwise one record per item in order, the last one marked last. */
  predicate DescribesSeq(rs: seq<Record>, items: seq<MenuItem>)
    decreases items, 0
  {
    if |items| == 0 then |rs| == 1 && IsPlaceholder(rs[0])
    else |rs| == |items| && forall i | 0 <= i < |items| :: Describes(rs[i], items[i], i == |items| - 1)
  }

  /** The prefix the encoder computes has exactly the bits the item asks for. */
  lemma HeaderOfDescribes(item: MenuItem, isLast: bool)
    ensures HeaderDescribes(HeaderOf(item, isLast), item, isLast)
  {
  }

  /** At most one prefix fits a given item and position. */
  lemma HeaderDescribesUnique(h1: ItemHeader, h2: ItemHeader, item: MenuItem, isLast: bool)
    requires HeaderDescribes(h1, item, isLast) && HeaderDescribes(h2, item, isLast)
    ensures h1 == h2
  {
  }

  /** The records the encoder lays out describe the items they come from. */
  lemma {:induction false} LayoutItemDescribes(item: MenuItem, isLast: bool)
    ensures Describes(LayoutItem(item, isLast), item, isLast)
    decreases item, 1
  {
    HeaderOfDescribes(item, isLast);
    match item.items
    case Absent =>
    case Present(kids) => LayoutSeqDescribes(kids);
  }

  lemma {:induction false} LayoutSeqDescribes(items: seq<MenuItem>)
    ensures DescribesSeq(LayoutSeq(items), items)
    decreases items, 0
  {
    if |items| > 0 {
      var rs := LayoutSeq(items);
      forall i | 0 <= i < |items|
        ensures Describes(rs[i], items[i], i == |items| - 1)
      {
        LayoutItemDescribes(items[i], i == |items| - 1);
      }
    }
  }

  /** At most one record describes a given item and position, so
      `Describes` pins down the whole encoding. */
  lemma {:induction false} DescribesUnique(r1: Record, r2: Record, item: MenuItem, isLast: bool)
    requires Describes(r1, item, isLast) && Describes(r2, item, isLast)
    ensures r1 == r2
    decreases item, 1
  {
    HeaderDescribesUnique(r1.head, r2.head, item, isLast);
    match item.items
    case Absent =>
    case Present(kids) => DescribesSeqUnique(r1.popup.records, r2.popup.records, kids);
  }

  lemma {:induction false} DescribesSeqUnique(rs1: seq<Record>, rs2: seq<Record>, items: seq<MenuItem>)
    requires DescribesSeq(rs1, items) && DescribesSeq(rs2, items)
    ensures rs1 == rs2
    decreases items, 0
  {
    if |items| > 0 {
      forall i | 0 <= i < |items|
        ensures rs1[i] == rs2[i]
      {
        DescribesUnique(rs1[i], rs2[i], items[i], i == |items| - 1);
      }
    }
  }

  /** In any sibling sequence, described or placeholder, exactly the last
      record carries the end flag. */
  lemma EndFlagOnLastOnly(rs: seq<Record>, items: seq<MenuItem>)
    requires DescribesSeq(rs, items)
    ensures |rs| > 0
    ensures forall i | 0 <= i < |rs| :: HasBits16(rs[i].head.flags, MF_END) <==> i == |rs| - 1
  {
  }

  /** Described records are what a template reader accepts, provided no
      label holds an embedded terminator. */
  lemma {:induction false} DescribedWellFormed(r: Record, item: MenuItem, isLast: bool)
    requires Describes(r, item, isLast) && LabelsOk(item)
    ensures WellFormed(r)
    decreases item, 1
  {
    match item.items
    case Absent =>
    case Present(kids) => DescribedSeqWellFormed(r.popup.records, kids);
  }

  lemma {:induction false} DescribedSeqWellFormed(rs: seq<Record>, items: seq<MenuItem>)
    requires DescribesSeq(rs, items) && LabelsOkSeq(items)
    ensures WellFormedSeq(rs)
    decreases items, 0
  {
    if |items| == 0 {
      assert NoNul(EmptyText);
    } else {
      forall i | 0 <= i < |items|
        ensures WellFormed(rs[i])
      {
        DescribedWellFormed(rs[i], items[i], i == |items| - 1);
      }
    }
  }
}

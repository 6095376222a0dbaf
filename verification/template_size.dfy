/**
 Byte size of an encoded extended menu template: one record per item, each a
 14-byte prefix, the label with its terminator padded to a multiple of 4
 bytes, and for a submenu a 4-byte help id followed by the child records.
 */
module TemplateSizes {
  import opened Wrappers
  import opened MenuItems

  /** Size of one record prefix plus a label of `textChars` code units, its
      terminator, and one filler unit when the label length is odd. */
  function TemplateItemSize(textChars: nat): nat {
    14 + textChars * 2 + (if textChars % 2 == 1 then 4 else 2)
  }

  /** Length of the label of the placeholder record written for an empty
      sibling sequence ("Empty"). */
  const EmptyTextChars: nat := 5

  /** Size of an item's record together with all its descendants' records. */
  function ItemTemplateSize(item: MenuItem): nat
    decreases item, 2
  {
    TemplateItemSize(|Label(item)|) +
    match item.items
    case Absent => 0
    case Present(kids) => 4 + TemplateSize(kids)
  }

  /** Size of a sibling sequence; an empty one still holds the placeholder. */
  function TemplateSize(items: seq<MenuItem>): nat
    decreases items, 1
  {
    if |items| == 0 then TemplateItemSize(EmptyTextChars) else SizeSum(items)
  }

  /** Sum of the item sizes of a sibling sequence. */
  function SizeSum(items: seq<MenuItem>): nat
    decreases items, 0
  {
    if |items| == 0 then 0 else ItemTemplateSize(items[0]) + SizeSum(items[1..])
  }

  /** A record prefix with its label is at least 16 bytes, at most one
      filler unit longer than prefix, label and terminator, and a multiple of
      4 bytes; the filler is present exactly for odd label lengths. */
  lemma TemplateItemSizeBounds(textChars: nat)
    ensures TemplateItemSize(textChars) % 4 == 0
    ensures 16 + 2 * textChars <= TemplateItemSize(textChars) <= 18 + 2 * textChars
    ensures TemplateItemSize(textChars) == 16 + 2 * textChars <==> textChars % 2 == 0
  {
  }

  /** The placeholder record for an empty sequence takes 28 bytes. */
  lemma EmptySequenceSize()
    ensures TemplateSize([]) == 28
  {
  }

  /** Every item's records, and every sibling sequence, occupy a multiple of
      4 bytes, so each record starts 4-byte aligned. */
  lemma {:induction false} ItemTemplateSizeAligned(item: MenuItem)
    ensures ItemTemplateSize(item) % 4 == 0
    ensures ItemTemplateSize(item) >= TemplateItemSize(|Label(item)|)
    decreases item, 2
  {
    TemplateItemSizeBounds(|Label(item)|);
    match item.items
    case Absent =>
    case Present(kids) => TemplateSizeAligned(kids);
  }

  lemma {:induction false} TemplateSizeAligned(items: seq<MenuItem>)
    ensures TemplateSize(items) % 4 == 0
    ensures TemplateSize(items) >= 16
    decreases items, 1
  {
    if |items| == 0 {
      TemplateItemSizeBounds(EmptyTextChars);
    } else {
      SizeSumAligned(items);
      ItemTemplateSizeAligned(items[0]);
      TemplateItemSizeBounds(|Label(items[0])|);
    }
  }

  lemma {:induction false} SizeSumAligned(items: seq<MenuItem>)
    ensures SizeSum(items) % 4 == 0
    decreases items, 0
  {
    if |items| > 0 {
      ItemTemplateSizeAligned(items[0]);
      SizeSumAligned(items[1..]);
      AlignedSum(ItemTemplateSize(items[0]), SizeSum(items[1..]));
    }
  }

  /** Two multiples of 4 add up to a multiple of 4. */
  lemma AlignedSum(a: nat, b: nat)
    requires a % 4 == 0 && b % 4 == 0
    ensures (a + b) % 4 == 0
  {
  }

  /** The sum over a concatenation is the sum of the parts. */
  lemma {:induction false} SizeSumAppend(a: seq<MenuItem>, b: seq<MenuItem>)
    ensures SizeSum(a + b) == SizeSum(a) + SizeSum(b)
    decreases |a|
  {
    if |a| == 0 {
      assert a + b == b;
    } else {
      assert (a + b)[1..] == a[1..] + b;
      SizeSumAppend(a[1..], b);
    }
  }

  /** Sizes of non-empty sibling sequences add up under concatenation. */
  lemma TemplateSizeAppend(a: seq<MenuItem>, b: seq<MenuItem>)
    requires |a| > 0 && |b| > 0
    ensures TemplateSize(a + b) == TemplateSize(a) + TemplateSize(b)
  {
    SizeSumAppend(a, b);
  }

  /** The running total the size loop keeps: the first `k` item sizes. */
  lemma SizeSumStep(items: seq<MenuItem>, k: nat)
    requires k < |items|
    ensures SizeSum(items[..k + 1]) == SizeSum(items[..k]) + ItemTemplateSize(items[k])
  {
    assert items[..k + 1] == items[..k] + [items[k]];
    SizeSumAppend(items[..k], [items[k]]);
  }

  /** The size of a sibling sequence, summed item by item in a loop. */
  method SequenceTemplateSize(items: seq<MenuItem>) returns (size: nat)
    ensures size == TemplateSize(items)
  {
    if |items| == 0 {
      return TemplateItemSize(EmptyTextChars);
    }
    size := 0;
    var i := 0;
    while i < |items|
      invariant 0 <= i <= |items|
      invariant size == SizeSum(items[..i])
    {
      SizeSumStep(items, i);
      size := size + ItemTemplateSize(items[i]);
      i := i + 1;
    }
    assert items[..i] == items;
  }
}

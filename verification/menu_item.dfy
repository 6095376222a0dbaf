/**
 The menu description a caller supplies: a tree of items whose every field
 may be absent (`menu_item` with its `std::optional` members).
 */
module MenuItems {
  import opened Wrappers

  /** A UTF-16 code unit (`wchar_t` on Windows). */
  type CodeUnit = bv16

  /** The signed 32-bit range of the `id` field. */
  type Int32 = x: int | -0x8000_0000 <= x < 0x8000_0000

  /** `std::optional<std::vector<menu_item>>`: absent, or a (possibly empty)
      list of child items. A present list makes the item a submenu. */
  datatype Submenu = Absent | Present(items: seq<MenuItem>)

  datatype MenuItem = MenuItem(
    id: Option<Int32>,
    text: Option<seq<CodeUnit>>,
    separator: Option<bool>,
    disabled: Option<bool>,
    checked: Option<bool>,
    items: Submenu)

  /** A default-constructed item: the three flags are present and false,
      everything else absent. */
  const DefaultItem: MenuItem :=
    MenuItem(None, None, Some(false), Some(false), Some(false), Absent)

  /** The label the encoder writes for an item: its text, or the empty string. */
  function Label(item: MenuItem): seq<CodeUnit> {
    item.text.GetOr([])
  }

  /** Two's-complement reinterpretation of a signed id as an unsigned 32-bit
      field, as storing an `int32_t` into a `uint32_t` does: a negative id
      wraps to `x + 2^32`. */
  function ToU32(x: Int32): bv32 {
    if x < 0 then (x + 0x1_0000_0000) as bv32 else x as bv32
  }

  /** No code unit of the label is the terminator value 0. */
  predicate NoNul(units: seq<CodeUnit>) {
    forall i | 0 <= i < |units| :: units[i] != 0
  }

  /** Every label in the tree rooted at `item` is free of embedded NULs, so
      that a reader that stops at the terminator sees the whole label. */
  predicate LabelsOk(item: MenuItem) {
    NoNul(Label(item)) &&
    match item.items
    case Absent => true
    case Present(kids) => LabelsOkSeq(kids)
  }

  predicate LabelsOkSeq(items: seq<MenuItem>) {
    forall i | 0 <= i < |items| :: LabelsOk(items[i])
  }
}

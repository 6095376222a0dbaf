/**
 Flag values from the Windows SDK header winuser.h that the menu template
 encoder and the item-update helper use, and a bit-test predicate over them.
 */
module WinUser {

  /** Item flag (resource flags word): last item of its sibling sequence. */
  const MF_END: bv16 := 0x80

  /** Item flag (resource flags word): the item opens a submenu. The source
      writes this bit as the bare literal 0x01 (MFR_POPUP in the SDK). */
  const MFR_POPUP: bv16 := 0x01

  /** Item type: a plain text item. */
  const MFT_STRING: bv32 := 0x0

  /** Item type: a horizontal dividing line. */
  const MFT_SEPARATOR: bv32 := 0x800

  /** Item state: greyed and not selectable (two bits, also called MFS_GRAYED). */
  const MFS_DISABLED: bv32 := 0x3

  /** Item state: shows a check mark. */
  const MFS_CHECKED: bv32 := 0x8

  /** MENUITEMINFO mask bits: which members an update carries. */
  const MIIM_STATE: bv32 := 0x1
  const MIIM_ID: bv32 := 0x2
  const MIIM_STRING: bv32 := 0x40
  const MIIM_FTYPE: bv32 := 0x100

  /** Every bit of `mask` is set in `x`. */
  predicate HasBits32(x: bv32, mask: bv32) {
    x & mask == mask
  }

  predicate HasBits16(x: bv16, mask: bv16) {
    x & mask == mask
  }
}

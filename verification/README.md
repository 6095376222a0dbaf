# Menu template encoder: a Dafny model

This project models the native core of a Node.js add-on that builds Win32 popup
menus from a script-side description. The core is in `src/menu-object.cc`. A
menu is a tree of `menu_item` values, where every member is optional: a
command id, a UTF-16 label, separator/disabled/checked flags and a child list.
To hand a menu to the system, the add-on serialises the tree into an
*extended menu template* (MENUEX):

- an 8-byte header;
- then, for each item, a 14-byte prefix holding type, state, id and flags;
- then the label, NUL-terminated, with one more zero unit after an odd-length
  label so that the prefix and the label together take a multiple of 4 bytes;
- then, for a submenu, a 4-byte help id followed by the children's records.

The model covers these parts:

- **Size computation.** `template_item_size` and both `template_size`s
  (`TemplateSizes`). The sibling-sequence `template_size` is also written as
  the source's accumulating loop (`SequenceTemplateSize`).
- **Writing.** `write_text` and the two `write_template` overloads.
  - Writing is split into a layout step (`TemplateLayout`: item → `Record`,
    with the prefix fields) and a serialisation step (`TemplateWriter`:
    `Record` → 16-bit words).
  - `TemplateWriter.WriteTemplate` is the sibling loop, written as the source
    writes it.
- **Reading back.** `TemplateReader` reads a template back by the layout of
  the format (it is not a model of the system's own parser):
  - labels up to NUL, then the padding unit;
  - the popup flag announces the help id and a child run;
  - the end flag closes a run.

  `TemplateCodec` proves that whatever the encoder writes reads back as
  records that carry exactly the item's fields.
- **`create_menu`.** The buffer part of `create_menu` (`CreateMenu`): the
  header (version 1, offset 4), followed by a synthetic `"root"` submenu that
  holds the caller's items.
- **`update_item_info`.** How an optional-field description fills in a
  MENUITEMINFO record (`ItemUpdate`), with the corrected separator handling
  described under Findings.

Representation choices:

- The buffer is a sequence of 16-bit little-endian words (`seq<bv16>`).
  Every field of the format is 2-byte aligned. A 32-bit field is two words,
  low half first. A byte length is twice the word count.
- Bit fields are `bv32`/`bv16`. Flag values are those of `winuser.h`.
- The source's `std::optional` is `Option`.
- The optional child vector is a dedicated `Submenu` datatype, so that
  recursion through it terminates visibly.

## Model

| member | source | states |
|---|---|---|
| TemplateSizes.TemplateItemSizeBounds | src/menu-object.cc:53-58 | a record with n label units takes 16+2n bytes when n is even and 18+2n when odd, always a multiple of 4 |
| TemplateSizes.EmptySequenceSize | src/menu-object.cc:40-44 | an empty sibling sequence is sized as one "Empty" item, 28 bytes |
| TemplateSizes.ItemTemplateSizeAligned | src/menu-object.cc:60-66 | an item's size, children included, is a multiple of 4 and at least its own record size |
| TemplateSizes.TemplateSizeAligned | src/menu-object.cc:40-51 | a sibling sequence's size is a multiple of 4 and at least one record (16 bytes) |
| TemplateSizes.SizeSumAligned | src/menu-object.cc:46-50 | the summed size of any run of items is a multiple of 4 |
| TemplateSizes.SizeSumAppend | src/menu-object.cc:46-50 | the summed size of two concatenated runs is the sum of their sizes |
| TemplateSizes.TemplateSizeAppend | src/menu-object.cc:40-51 | the size of two non-empty sibling sequences put together is the sum of their sizes |
| TemplateSizes.SizeSumStep | src/menu-object.cc:47-49 | one more item in the run adds exactly that item's size |
| TemplateSizes.SequenceTemplateSize | src/menu-object.cc:40-51 | the accumulating loop returns the recursive size of the sequence |
| TemplateFormat.TemplateHeaderWords | src/menu-object.cc:3-7 | the template header occupies 8 bytes |
| TemplateFormat.ItemHeaderWords | src/menu-object.cc:9-13 | the item prefix occupies 14 bytes |
| TemplateFormat.TemplateHeaderRoundTrip | src/menu-object.cc:3-7 | version, offset and help id read back from their little-endian layout, whatever follows |
| TemplateFormat.ItemHeaderRoundTrip | src/menu-object.cc:9-13 | type, state, id and flags read back from their little-endian layout, whatever follows |
| TemplateLayout.LayoutRun | src/menu-object.cc:79-82 | a non-empty sibling sequence produces exactly one record per item |
| TemplateLayout.HeaderOfDescribes | src/menu-object.cc:85-94 | the prefix has the separator bit iff separator is true, the disabled and checked bits iff those flags are true, id or 0, MF_END iff last, 0x01 iff a child list is present, and no other bit |
| TemplateLayout.HeaderDescribesUnique | src/menu-object.cc:85-94 | that bit-level description admits exactly one prefix |
| TemplateLayout.LayoutItemDescribes | src/menu-object.cc:85-101 | an item's record carries its prefix, its label (empty when absent) and, when a child list is present, a zero help id and records describing the children |
| TemplateLayout.LayoutSeqDescribes | src/menu-object.cc:68-83 | a sibling sequence lays out as the placeholder when empty, otherwise one describing record per item, last-marked only at the end |
| TemplateLayout.DescribesUnique | src/menu-object.cc:85-101 | at most one record tree describes a given item in a given position |
| TemplateLayout.DescribesSeqUnique | src/menu-object.cc:68-83 | at most one record sequence describes a given sibling sequence |
| TemplateLayout.EndFlagOnLastOnly | src/menu-object.cc:76-82 | in any described sibling sequence, which is never empty, exactly the last record carries MF_END |
| TemplateLayout.DescribedWellFormed | src/menu-object.cc:85-101 | a record that describes an item with NUL-free labels has the popup flag iff it has children, and well-formed child runs |
| TemplateLayout.DescribedSeqWellFormed | src/menu-object.cc:68-83 | a described sibling sequence is non-empty, ends exactly at its last record, and every record is well formed |
| TemplateReader.ReadLabelOfText | src/menu-object.cc:22-26 | a NUL-free label followed by its terminator reads back as exactly that label, leaving what follows |
| TemplateReader.ReadTextOfWritten | src/menu-object.cc:22-30 | what write_text emits, padding included, reads back as the label and is fully consumed |
| TemplateReader.RecordRoundTrip | src/menu-object.cc:85-101 | a well-formed record tree, serialised, parses back to itself and leaves the trailing words untouched |
| TemplateReader.SeqRoundTrip | src/menu-object.cc:68-83 | a well-formed record run, serialised, parses back to itself; parsing stops at its MF_END record |
| TemplateWriter.WriteTextLayout | src/menu-object.cc:22-30 | write_text emits the label units, then zeros only; one zero when the length is even, two when odd; prefix plus text is template_item_size bytes |
| TemplateWriter.EncodeItemLength | src/menu-object.cc:85-101 | writing one item advances the output by exactly its template_size() bytes |
| TemplateWriter.EncodeSeqLength | src/menu-object.cc:68-83 | writing a sibling sequence advances the output by exactly template_size(items) bytes |
| TemplateWriter.LaysOutLength | src/menu-object.cc:79-82 | the records of a run of items take the summed size of those items |
| TemplateWriter.RecordAligned | src/menu-object.cc:76-82 | the record of item k starts after the earlier siblings' sizes, a 4-byte multiple, and is item k's record marked last iff k is the last index |
| TemplateWriter.WriteTemplate | src/menu-object.cc:68-83 | the loop that writes all but the last item as not-last and then the last as last yields the sequence encoding, template_size(items) bytes long |
| TemplateCodec.DecodeEncodedSeq | src/menu-object.cc:68-83 | the encoding of any sibling sequence with NUL-free labels parses back to records that describe the items, end-marked exactly at the last, consuming exactly the encoding |
| TemplateCodec.DecodeEncodedItem | src/menu-object.cc:85-101 | the encoding of one item parses back to a single record describing it |
| TemplateCodec.EncodeEmptySeq | src/menu-object.cc:70-75 | an empty sequence encodes as 28 bytes that parse as one record: state disabled, flags MF_END, label "Empty", other fields zero |
| CreateMenu.CreateMenuTemplate | src/menu-object.cc:171-183 | the buffer is exactly the 8 + template_size() bytes allocated for the "root" item, i.e. 36 bytes plus the size of the caller's items, and its header reads back as version 1, offset 4, help id 0 |
| CreateMenu.CreateMenuRoundTrip | src/menu-object.cc:171-183 | the buffer reads back as header (1, 4, 0) and a single "root" record with MF_END and the submenu flag whose children describe the caller's items |
| ItemUpdate.MaskForBits | src/menu-object.cc:104-128 | the mask has MIIM_FTYPE, MIIM_STATE, MIIM_ID and MIIM_STRING exactly when the matching members are present, and no other bit |
| ItemUpdate.UpdateMaskSpec | src/menu-object.cc:105-126 | the fMask the update leaves has each MIIM_* bit iff its member is present, and no other bit |
| ItemUpdate.UpdateStateFieldSpec | src/menu-object.cc:110-119 | the fState the update leaves has each present flag's bits decided by its value; absent flags' bits and all other bits are kept |
| ItemUpdate.UpdateItemInfo | src/menu-object.cc:104-128 | the mask the update leaves is empty exactly when the description supplies none of separator, disabled, checked, id and text, and then every other member of the record is left as it was |
| ItemUpdate.UpdateItemInfoSpec | src/menu-object.cc:104-128 | each MIIM_* bit of the mask is set iff its member is present, and no other bit; a present flag decides its own state bits, an absent one and all other state bits keep their value; a present separator sets the type to MFT_SEPARATOR; present id and text replace wID and the label, absent ones are kept |
| ItemUpdate.DisabledBits | src/menu-object.cc:111-113 | clearing then conditionally setting MFS_DISABLED decides those bits and keeps the checked bit and all others |
| ItemUpdate.CheckedBits | src/menu-object.cc:116-118 | clearing then conditionally setting MFS_CHECKED decides that bit and keeps the disabled bits and all others |
| ItemUpdate.DisabledFlagSpec | src/menu-object.cc:110-114 | a present disabled flag decides the disabled bits; an absent one changes nothing |
| ItemUpdate.CheckedFlagSpec | src/menu-object.cc:115-119 | a present checked flag decides the checked bit; an absent one changes nothing |
| ItemUpdate.UpdateStateSpec | src/menu-object.cc:110-119 | after both flags, each present flag's bits equal its value, an absent flag's bits and all other state bits are as before |
| ItemUpdate.UpdateStateTwice | src/menu-object.cc:110-119 | the state update is idempotent |
| ItemUpdate.UpdateIdempotent | src/menu-object.cc:104-128 | applying the same update twice equals applying it once |
| ItemUpdate.SeparatorFalseMakesSeparator | src/menu-object.cc:106-109 | an update with separator false gives a plain item the separator type, while creation gives the same item no separator bit |
| ItemUpdate.SeparatorBits | src/menu-object.cc:86-87 | setting or clearing the separator bit decides it and leaves every other type bit |
| ItemUpdate.SeparatorFlagSpec | src/menu-object.cc:106-109 | under the corrected update, a present separator decides the separator bit, other type bits are kept, an absent one changes nothing |
| ItemUpdate.UpdateItemInfoIntended | src/menu-object.cc:104-128 | the corrected update: a present separator sets the separator type bit iff it is true and keeps every other type bit, an absent one keeps the type; mask, state, id and label are as in the written update |
| ItemUpdate.StateFromCleared | src/menu-object.cc:88-90 | from a zero state, the update's flags give exactly the state bits creation writes |
| ItemUpdate.TypeFromCleared | src/menu-object.cc:86-87 | from a zero type, the corrected separator update gives exactly the type bits creation writes |
| ItemUpdate.IntendedAgreesWithCreation | src/menu-object.cc:85-91 | for every description, present or absent members alike, the corrected update of a cleared item gives the type, state and id that item creation writes |
| ItemUpdate.IntendedIdempotent | src/menu-object.cc:104-128 | the corrected update is idempotent too |

## Left out

- N-API marshalling and the exported entry points (`napi_get_value`, the `export_Menu_*` functions, `define_class`, `new_instance`, `init`) only convert script values. They are not modelled. The model's input is the already-converted `MenuItem` tree.
- `src/napi/wrap.hh` (native-object wrapping and finalisation) is not part of this model.
- `load_menu_indirect` and the calls to `LoadMenuIndirectW`, `GetSubMenu` and `RemoveMenu` are foreign system calls. The model stops at the buffer that `create_menu` hands to them. `TemplateReader` is an independent description of how such a consumer reads the format, not a model of the system's parser.
- `get_menu_item` / `update_menu_item` call `GetMenuItemInfoW` / `SetMenuItemInfoW` and probe label lengths in two phases. These are foreign calls and are not modelled. Only `update_item_info`, which fills the record passed to them, is modelled.
- `show` / `showSync` (`TrackPopupMenuEx` and the cross-thread message loop) are concurrency and OS interaction. They are left out.
- Pointers, `memset` and `std::make_unique` are not modelled. The buffer is zero-initialised in the source, and some fields are never written: the template header's help id, each submenu's help id, and the placeholder's type and id. The model writes these zeros explicitly. The label terminator and padding are written by `write_text` itself and are modelled as such.
- `size_t` overflow of the size computation is not modelled; sizes are unbounded naturals. The encoded sizes of real menus are far below any limit.
- MENUITEMINFO members other than `fMask`, `fType`, `fState`, `wID` and `dwTypeData` are not modelled, because `update_item_info` never touches them. The label pointer is modelled as the label value.
- TemplateReader.RecordRoundTrip, TemplateReader.SeqRoundTrip, TemplateCodec.DecodeEncodedSeq, TemplateCodec.DecodeEncodedItem, CreateMenu.CreateMenuRoundTrip, TemplateLayout.DescribedWellFormed and TemplateLayout.DescribedSeqWellFormed require labels without NUL units. The source copies any label; a reader that stops at the first NUL cannot recover such a label.
- MenuItems.ToU32, the 32-bit two's-complement reinterpretation of the `int32_t` id, carries no contract of its own. Stating the int-to-bit-vector conversion in a contract is too costly for the solver. Its result is used as the id and compared as such.
- A present but empty child list still gets the submenu flag, and its only child is the `"Empty"` placeholder; the code does not reject it. The submenu flag follows the presence of the child list, not its non-emptiness.

## Findings

| source | as written | input that shows it | evidently intended | confidence | as-written member | corrected member |
|---|---|---|---|---|---|---|
| src/menu-object.cc:106-109 | `if (separator)` tests whether the optional is present, then sets `fType = MFT_SEPARATOR` | an update `{separator: false}` on a plain text item turns it into a separator. Creating the same item gives it no separator bit (`separator.value_or(false)`, line 87) | a present separator sets or clears only the separator type bit according to its value, as `disabled` and `checked` do for their state bits | medium, not executed | ItemUpdate.SeparatorFalseMakesSeparator | ItemUpdate.UpdateItemInfoIntended |

/**
 The buffer `create_menu` builds: an 8-byte template header (version 1,
 offset 4, help id 0) followed by the records of a synthetic "root" submenu
 item whose children are the caller's items. Handing the buffer to the
 system and unwrapping the root again are not part of this model.
 */
module CreateMenu {
  import opened Wrappers
  import opened WinUser
  import opened Words
  import opened MenuItems
  import opened TemplateFormat
  import opened TemplateSizes
  import opened TemplateLayout
  import opened TemplateWriter
  import opened TemplateReader
  import opened TemplateCodec

  /** The label of the wrapper item: "root". */
  const RootText: seq<CodeUnit> := [0x72, 0x6F, 0x6F, 0x74]

  /** A default item labelled "root" whose child list is `items`. */
  function RootItem(items: seq<MenuItem>): MenuItem {
    DefaultItem.(text := Some(RootText), items := Present(items))
  }

  /** The header of an extended template whose first item follows the help
      id directly: version 1, offset 4 counted from the end of the offset
      field, help id 0. */
  const MenuTemplateHeader: TemplateHeader := TemplateHeader(1, 4, 0)

  /** The whole zero-initialised buffer after the header and the root item
      have been written. It is exactly as long as the size computed for it,
      `8 + template_size()` of the root item: 36 bytes of header and root
      record plus the size of the caller's items. Its header reads back as
      version 1, offset 4, help id 0. */
  function CreateMenuTemplate(items: seq<MenuItem>): (w: seq<bv16>)
    ensures 2 * |w| == 8 + ItemTemplateSize(RootItem(items))
    ensures 2 * |w| == 36 + TemplateSize(items)
    ensures ReadTemplateHeader(w) == TemplateHeader(1, 4, 0)
  {
    var body := EncodeItem(RootItem(items), true);
    EncodeItemLength(RootItem(items), true);
    TemplateHeaderRoundTrip(MenuTemplateHeader, body);
    TemplateHeaderWords(MenuTemplateHeader) + body
  }

  /** Reads an extended template: the header, which must announce version
      1, and the menu's sibling sequence starting `4 + offset` bytes into
      the buffer, which must lie past the header. */
  function ParseTemplate(w: seq<bv16>): Option<(TemplateHeader, seq<Record>, seq<bv16>)> {
    if |w| < TemplateHeaderLen then None
    else
      var h := ReadTemplateHeader(w);
      var start := 4 + h.offset as int;
      if h.version != 1 || start % 2 != 0 || start < 2 * TemplateHeaderLen || start > 2 * |w| then None
      else
        match ParseRun(w[start / 2..])
        case None => None
        case Some((records, rest)) => Some((h, records, rest))
  }

  /** Reading the buffer back gives the header version 1, offset 4, help id
      0, and a single menu entry: the root record, marked end of menu and
      popup, labelled "root", whose children describe the caller's items;
      the whole buffer is consumed. */
  lemma CreateMenuRoundTrip(items: seq<MenuItem>)
    requires LabelsOkSeq(items)
    ensures var p := ParseTemplate(CreateMenuTemplate(items));
      && p.Some?
      && p.value.0 == TemplateHeader(1, 4, 0)
      && |p.value.1| == 1
      && p.value.2 == []
      && Describes(p.value.1[0], RootItem(items), true)
      && HasBits16(p.value.1[0].head.flags, MF_END)
      && HasBits16(p.value.1[0].head.flags, MFR_POPUP)
      && p.value.1[0].text == RootText
  {
    var w := CreateMenuTemplate(items);
    var body := EncodeItem(RootItem(items), true);
    assert w == TemplateHeaderWords(MenuTemplateHeader) + body;
    TemplateHeaderRoundTrip(MenuTemplateHeader, body);
    assert NoNul(RootText);
    assert LabelsOk(RootItem(items));
    DecodeEncodedItem(RootItem(items), true, []);
    assert body + [] == body;
    assert w[TemplateHeaderLen..] == body;
  }
}

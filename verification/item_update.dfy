/**
 `update_item_info` (src/menu-object.cc 104-128): how a partial menu item
 description fills in the MENUITEMINFO record handed to the system's item
 update call. Only the members that record actually carries are modelled.
 */
module ItemUpdate {
  import opened Wrappers
  import opened WinUser
  import opened MenuItems
  import opened TemplateLayout

  /** The MENUITEMINFO members the update touches: the mask of members the
      system must apply, the type and state bit sets, the command id and the
      label. `typeData` None stands for a label pointer the update leaves
      alone. */
  datatype ItemInfo = ItemInfo(
    fMask: bv32,
    fType: bv32,
    fState: bv32,
    wID: bv32,
    typeData: Option<seq<CodeUnit>>)

  /** Every mask bit the update may set. */
  const UpdateMask: bv32 := MIIM_FTYPE | MIIM_STATE | MIIM_ID | MIIM_STRING

  /** Replaces the bits of `mask` in `x` by `mask` when `on`, by zeros
      otherwise. */
  function SetBits(x: bv32, mask: bv32, on: bool): bv32 {
    (x & !mask) | (if on then mask else 0)
  }

  /** Setting the same bits to the same value twice changes nothing more. */
  lemma SetBitsTwice(x: bv32, mask: bv32, on: bool)
    ensures SetBits(SetBits(x, mask, on), mask, on) == SetBits(x, mask, on)
  {
  }

  /** Two words that agree on the bits of `m1`, on those of `m2` and on all
      other bits are equal. */
  lemma SameBits(a: bv32, b: bv32, m1: bv32, m2: bv32)
    requires a & m1 == b & m1 && a & m2 == b & m2
    requires a & !(m1 | m2) == b & !(m1 | m2)
    ensures a == b
  {
  }

  /** The bit update for one optional flag: an absent flag changes nothing. */
  function UpdateFlag(x: bv32, mask: bv32, flag: Option<bool>): bv32 {
    if flag.Some? then SetBits(x, mask, flag.value) else x
  }

  /** The state bits after the disabled and then the checked flag. */
  function UpdateState(x: bv32, disabled: Option<bool>, checked: Option<bool>): bv32 {
    UpdateFlag(UpdateFlag(x, MFS_DISABLED, disabled), MFS_CHECKED, checked)
  }

  /** Setting or clearing the disabled bits leaves every other bit. */
  lemma DisabledBits(x: bv32, on: bool)
    ensures SetBits(x, MFS_DISABLED, on) & MFS_DISABLED == (if on then MFS_DISABLED else 0)
    ensures SetBits(x, MFS_DISABLED, on) & MFS_CHECKED == x & MFS_CHECKED
    ensures SetBits(x, MFS_DISABLED, on) & !(MFS_DISABLED | MFS_CHECKED) == x & !(MFS_DISABLED | MFS_CHECKED)
  {
  }

  /** Setting or clearing the checked bit leaves every other bit. */
  lemma CheckedBits(x: bv32, on: bool)
    ensures SetBits(x, MFS_CHECKED, on) & MFS_CHECKED == (if on then MFS_CHECKED else 0)
    ensures SetBits(x, MFS_CHECKED, on) & MFS_DISABLED == x & MFS_DISABLED
    ensures SetBits(x, MFS_CHECKED, on) & !(MFS_DISABLED | MFS_CHECKED) == x & !(MFS_DISABLED | MFS_CHECKED)
  {
  }

  /** A present `disabled` decides the disabled bits; the checked bit and
      the bits outside both keep their value. */
  lemma DisabledFlagSpec(x: bv32, disabled: Option<bool>)
    ensures UpdateFlag(x, MFS_DISABLED, disabled) & !(MFS_DISABLED | MFS_CHECKED) == x & !(MFS_DISABLED | MFS_CHECKED)
    ensures UpdateFlag(x, MFS_DISABLED, disabled) & MFS_CHECKED == x & MFS_CHECKED
    ensures disabled.Some? ==>
      UpdateFlag(x, MFS_DISABLED, disabled) & MFS_DISABLED == (if disabled.value then MFS_DISABLED else 0)
    ensures disabled.None? ==> UpdateFlag(x, MFS_DISABLED, disabled) == x
  {
    if disabled.Some? {
      DisabledBits(x, disabled.value);
    }
  }

  /** A present `checked` decides the checked bit; the disabled bits and the
      bits outside both keep their value. */
  lemma CheckedFlagSpec(x: bv32, checked: Option<bool>)
    ensures UpdateFlag(x, MFS_CHECKED, checked) & !(MFS_DISABLED | MFS_CHECKED) == x & !(MFS_DISABLED | MFS_CHECKED)
    ensures UpdateFlag(x, MFS_CHECKED, checked) & MFS_DISABLED == x & MFS_DISABLED
    ensures checked.Some? ==>
      UpdateFlag(x, MFS_CHECKED, checked) & MFS_CHECKED == (if checked.value then MFS_CHECKED else 0)
    ensures checked.None? ==> UpdateFlag(x, MFS_CHECKED, checked) == x
  {
    if checked.Some? {
      CheckedBits(x, checked.value);
    }
  }

  /** Each present flag decides its own state bits; every other bit, and the
      bits of an absent flag, keep their value. */
  lemma UpdateStateSpec(x: bv32, disabled: Option<bool>, checked: Option<bool>)
    ensures var s := UpdateState(x, disabled, checked);
      && s & !(MFS_DISABLED | MFS_CHECKED) == x & !(MFS_DISABLED | MFS_CHECKED)
      && (disabled.Some? ==> s & MFS_DISABLED == (if disabled.value then MFS_DISABLED else 0))
      && (disabled.None? ==> s & MFS_DISABLED == x & MFS_DISABLED)
      && (checked.Some? ==> s & MFS_CHECKED == (if checked.value then MFS_CHECKED else 0))
      && (checked.None? ==> s & MFS_CHECKED == x & MFS_CHECKED)
  {
    DisabledFlagSpec(x, disabled);
    CheckedFlagSpec(UpdateFlag(x, MFS_DISABLED, disabled), checked);
  }

  /** Updating the state bits twice with the same flags is updating once. */
  lemma UpdateStateTwice(x: bv32, disabled: Option<bool>, checked: Option<bool>)
    ensures UpdateState(UpdateState(x, disabled, checked), disabled, checked) == UpdateState(x, disabled, checked)
  {
    match (disabled, checked)
    case (None, None) =>
    case (Some(d), None) => SetBitsTwice(x, MFS_DISABLED, d);
    case (None, Some(c)) => SetBitsTwice(x, MFS_CHECKED, c);
    case (Some(d), Some(c)) => StateTwiceBits(x, d, c);
  }

  /** Both state flags set or cleared, then set or cleared again the same
      way, give what the first pass gave. */
  lemma StateTwiceBits(x: bv32, d: bool, c: bool)
    ensures SetBits(SetBits(SetBits(SetBits(x, MFS_DISABLED, d), MFS_CHECKED, c), MFS_DISABLED, d), MFS_CHECKED, c)
      == SetBits(SetBits(x, MFS_DISABLED, d), MFS_CHECKED, c)
  {
  }

  /** Setting or clearing the separator bit leaves every other type bit. */
  lemma SeparatorBits(x: bv32, on: bool)
    ensures SetBits(x, MFT_SEPARATOR, on) & !MFT_SEPARATOR == x & !MFT_SEPARATOR
    ensures HasBits32(SetBits(x, MFT_SEPARATOR, on), MFT_SEPARATOR) <==> on
  {
  }

  /** A present `separator` decides the separator type bit; every other type
      bit keeps its value. */
  lemma SeparatorFlagSpec(x: bv32, separator: Option<bool>)
    ensures UpdateFlag(x, MFT_SEPARATOR, separator) & !MFT_SEPARATOR == x & !MFT_SEPARATOR
    ensures separator.Some? ==>
      (HasBits32(UpdateFlag(x, MFT_SEPARATOR, separator), MFT_SEPARATOR) <==> separator.value)
    ensures separator.None? ==> UpdateFlag(x, MFT_SEPARATOR, separator) == x
  {
    if separator.Some? {
      SeparatorBits(x, separator.value);
    }
  }

  /** The mask the update leaves: one bit per group of members present. */
  function MaskFor(options: MenuItem): bv32 {
    (if options.separator.Some? then MIIM_FTYPE else 0)
      | (if options.disabled.Some? || options.checked.Some? then MIIM_STATE else 0)
      | (if options.id.Some? then MIIM_ID else 0)
      | (if options.text.Some? then MIIM_STRING else 0)
  }

  /** The mask names exactly the member groups that `options` supplies. */
  lemma MaskForBits(options: MenuItem)
    ensures HasBits32(MaskFor(options), MIIM_FTYPE) <==> options.separator.Some?
    ensures HasBits32(MaskFor(options), MIIM_STATE) <==> options.disabled.Some? || options.checked.Some?
    ensures HasBits32(MaskFor(options), MIIM_ID) <==> options.id.Some?
    ensures HasBits32(MaskFor(options), MIIM_STRING) <==> options.text.Some?
    ensures MaskFor(options) & !UpdateMask == 0
  {
  }

  /** The description supplies none of the members the update handles. */
  predicate NothingSupplied(options: MenuItem) {
    && options.separator.None? && options.disabled.None? && options.checked.None?
    && options.id.None? && options.text.None?
  }

  /** `update_item_info` as written: a present `separator`, whichever its
      value, makes the item a separator. The mask is empty exactly when the
      description supplies nothing, and then the record is left as it was
      apart from the cleared mask, so the system is asked to change
      nothing. */
  function UpdateItemInfo(options: MenuItem, info: ItemInfo): (r: ItemInfo)
    ensures r.fMask == 0 <==> NothingSupplied(options)
    ensures NothingSupplied(options) ==> r == info.(fMask := 0)
  {
    MaskForBits(options);
    ItemInfo(
      MaskFor(options),
      if options.separator.Some? then MFT_SEPARATOR else info.fType,
      UpdateState(info.fState, options.disabled, options.checked),
      if options.id.Some? then ToU32(options.id.value) else info.wID,
      if options.text.Some? then options.text else info.typeData)
  }

  /** The mask the update leaves names exactly the member groups supplied. */
  lemma UpdateMaskSpec(options: MenuItem, info: ItemInfo)
    ensures var m := UpdateItemInfo(options, info).fMask;
      && (HasBits32(m, MIIM_FTYPE) <==> options.separator.Some?)
      && (HasBits32(m, MIIM_STATE) <==> options.disabled.Some? || options.checked.Some?)
      && (HasBits32(m, MIIM_ID) <==> options.id.Some?)
      && (HasBits32(m, MIIM_STRING) <==> options.text.Some?)
      && m & !UpdateMask == 0
  {
    MaskForBits(options);
  }

  /** The state the update leaves: each supplied flag decides its own bits,
      the rest keep their value. */
  lemma UpdateStateFieldSpec(options: MenuItem, info: ItemInfo)
    ensures var s := UpdateItemInfo(options, info).fState;
      && s & !(MFS_DISABLED | MFS_CHECKED) == info.fState & !(MFS_DISABLED | MFS_CHECKED)
      && (options.disabled.Some? ==> s & MFS_DISABLED == (if options.disabled.value then MFS_DISABLED else 0))
      && (options.disabled.None? ==> s & MFS_DISABLED == info.fState & MFS_DISABLED)
      && (options.checked.Some? ==> s & MFS_CHECKED == (if options.checked.value then MFS_CHECKED else 0))
      && (options.checked.None? ==> s & MFS_CHECKED == info.fState & MFS_CHECKED)
  {
    UpdateStateSpec(info.fState, options.disabled, options.checked);
  }

  /** What the update leaves, bit by bit: each `MIIM_*` bit of the mask is
      set exactly when its member is supplied and no other mask bit is; a
      supplied flag decides its own state bits while an absent one, and
      every state bit outside both, keeps its value; a supplied separator
      replaces the whole type by `MFT_SEPARATOR`; a supplied id or label
      replaces the old one and an absent one is kept. */
  lemma UpdateItemInfoSpec(options: MenuItem, info: ItemInfo)
    ensures var r := UpdateItemInfo(options, info);
      && (HasBits32(r.fMask, MIIM_FTYPE) <==> options.separator.Some?)
      && (HasBits32(r.fMask, MIIM_STATE) <==> options.disabled.Some? || options.checked.Some?)
      && (HasBits32(r.fMask, MIIM_ID) <==> options.id.Some?)
      && (HasBits32(r.fMask, MIIM_STRING) <==> options.text.Some?)
      && r.fMask & !UpdateMask == 0
    ensures var r := UpdateItemInfo(options, info);
      && r.fState & !(MFS_DISABLED | MFS_CHECKED) == info.fState & !(MFS_DISABLED | MFS_CHECKED)
      && (options.disabled.Some? ==> r.fState & MFS_DISABLED == (if options.disabled.value then MFS_DISABLED else 0))
      && (options.disabled.None? ==> r.fState & MFS_DISABLED == info.fState & MFS_DISABLED)
      && (options.checked.Some? ==> r.fState & MFS_CHECKED == (if options.checked.value then MFS_CHECKED else 0))
      && (options.checked.None? ==> r.fState & MFS_CHECKED == info.fState & MFS_CHECKED)
    ensures var r := UpdateItemInfo(options, info);
      && r.fType == (if options.separator.Some? then MFT_SEPARATOR else info.fType)
      && r.wID == (if options.id.Some? then ToU32(options.id.value) else info.wID)
      && r.typeData == (if options.text.Some? then options.text else info.typeData)
  {
    UpdateMaskSpec(options, info);
    UpdateStateFieldSpec(options, info);
  }

  /** Applying the same update twice is the same as applying it once. */
  lemma UpdateIdempotent(options: MenuItem, info: ItemInfo)
    ensures UpdateItemInfo(options, UpdateItemInfo(options, info)) == UpdateItemInfo(options, info)
  {
    UpdateStateTwice(info.fState, options.disabled, options.checked);
  }

  /** The discrepancy: an update saying `separator: false` turns a plain
      text item into a separator, while creating the same item gives it a
      type without the separator bit. */
  lemma SeparatorFalseMakesSeparator()
    ensures var options := DefaultItem.(separator := Some(false), disabled := None, checked := None);
      && HasBits32(UpdateItemInfo(options, ItemInfo(0, MFT_STRING, 0, 0, None)).fType, MFT_SEPARATOR)
      && !HasBits32(HeaderOf(options, true).typ, MFT_SEPARATOR)
  {
  }

  /** The update as evidently intended: a present `separator` sets or clears
      only the separator type bit, as the state flags do for theirs. Every
      other member is updated as before. */
  function UpdateItemInfoIntended(options: MenuItem, info: ItemInfo): (r: ItemInfo)
    ensures options.separator.Some? ==>
      (HasBits32(r.fType, MFT_SEPARATOR) <==> options.separator.value)
    ensures r.fType & !MFT_SEPARATOR == info.fType & !MFT_SEPARATOR
    ensures options.separator.None? ==> r.fType == info.fType
    ensures r == UpdateItemInfo(options, info).(fType := r.fType)
  {
    var t := UpdateFlag(info.fType, MFT_SEPARATOR, options.separator);
    SeparatorFlagSpec(info.fType, options.separator);
    var u := UpdateItemInfo(options, info);
    ItemInfo(u.fMask, t, u.fState, u.wID, u.typeData)
  }

  /** From a cleared state, the flags give the bits that item creation
      writes. The four-way case split is the proof: in each branch both
      sides are constant bit-vector expressions. */
  lemma StateFromCleared(disabled: bool, checked: bool)
    ensures UpdateState(0, Some(disabled), Some(checked))
      == (if disabled then MFS_DISABLED else 0) | (if checked then MFS_CHECKED else 0)
  {
    if disabled {
      if checked { } else { }
    } else {
      if checked { } else { }
    }
  }

  /** From a cleared type, the separator flag gives the bits that item
      creation writes; the case split gives the solver one constant per
      branch. */
  lemma TypeFromCleared(separator: bool)
    ensures UpdateFlag(0, MFT_SEPARATOR, Some(separator)) == if separator then MFT_SEPARATOR else 0
  {
    if separator { } else { }
  }

  /** With the corrected update, any description gives a cleared item the
      same type and state bits and the same id that creating the item
      writes into its template record. A supplied member sets what creation
      sets; an absent one leaves the cleared zero, which is what creation's
      defaults (`false`, id 0) give too. */
  lemma IntendedAgreesWithCreation(options: MenuItem, isLast: bool)
    ensures var r := UpdateItemInfoIntended(options, ItemInfo(0, 0, 0, 0, None));
      && r.fType == HeaderOf(options, isLast).typ
      && r.fState == HeaderOf(options, isLast).state
      && r.wID == HeaderOf(options, isLast).id
  {
    StateFromCleared(options.disabled.GetOr(false), options.checked.GetOr(false));
    TypeFromCleared(options.separator.GetOr(false));
  }

  /** The corrected update is idempotent too. */
  lemma IntendedIdempotent(options: MenuItem, info: ItemInfo)
    ensures UpdateItemInfoIntended(options, UpdateItemInfoIntended(options, info))
      == UpdateItemInfoIntended(options, info)
  {
    UpdateStateTwice(info.fState, options.disabled, options.checked);
    if options.separator.Some? {
      SetBitsTwice(info.fType, MFT_SEPARATOR, options.separator.value);
    }
  }
}

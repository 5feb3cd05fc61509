/** Stage-1 descriptors of the 4 KiB granule: a word split into its low attribute bits,
    the output frame (bits 47:12) and its high attribute bits. */
module Descriptors {
  const PAGE: nat := 4096
  const BLOCK_2M: nat := 0x20_0000
  const FRAMES: nat := 0x10_0000_0000

  datatype Desc = Desc(lower: bv12, frame: nat, upper: bv16)

  const ZERO := Desc(0, 0, 0)

  const VALID: bv12 := 1
  const TABLE_OR_PAGE: bv12 := 2
  const AP_EL0: bv12 := 0x40
  const AP_READ_ONLY: bv12 := 0x80
  const SH_INNER: bv12 := 0x300
  const AF: bv12 := 0x400
  const NG: bv12 := 0x800
  /** Bits 53 and 54 of the word. */
  const PXN: bv16 := 0x20
  const UXN: bv16 := 0x40

  datatype MemoryType = Normal | Uncached | Device

  datatype Attrs = Attrs(memory: MemoryType, write: bool, kernelExec: bool, user: bool, userExec: bool)
  {
    /** Which combinations a leaf may have: what is written is not executed, neither is a
        device, and each exception level executes only pages of its own. */
    predicate IsValid() {
      && !(write && (kernelExec || userExec))
      && !(memory.Device? && (kernelExec || userExec))
      && !(userExec && !user)
      && !(user && kernelExec)
    }

    predicate IsUserNone() {
      !user && !write && !kernelExec && !userExec
    }

    function Lower(): bv12 {
      AF
      | (match memory case Normal => SH_INNER case Uncached => 0x8 | SH_INNER case Device => 0x4)
      | (if user then AP_EL0 | NG else 0)
      | (if write then 0 else AP_READ_ONLY)
    }

    function Upper(): bv16 {
      (if kernelExec then 0 else PXN) | (if userExec then 0 else UXN)
    }
  }

  predicate IsValid(d: Desc) {
    d.lower & VALID != 0
  }

  predicate HasTypeBit(d: Desc) {
    d.lower & TABLE_OR_PAGE != 0
  }

  /** A table at levels 0 to 2, a page at level 3. */
  predicate IsTableOrPage(d: Desc) {
    d.lower & (VALID | TABLE_OR_PAGE) == VALID | TABLE_OR_PAGE
  }

  /** The address bits a descriptor keeps, as a frame number. */
  function FrameOf(pa: nat): nat {
    (pa / PAGE) % FRAMES
  }

  function PageDesc(pa: nat, attrs: Attrs): Desc {
    Desc(attrs.Lower() | TABLE_OR_PAGE | VALID, FrameOf(pa), attrs.Upper())
  }

  function BlockDesc(pa: nat, attrs: Attrs): Desc {
    Desc(attrs.Lower() | VALID, FrameOf(pa), attrs.Upper())
  }

  function TableDesc(frame: nat): Desc {
    Desc(TABLE_OR_PAGE | VALID, frame % FRAMES, 0)
  }

  /** The rights and the memory type as the architecture reads them from a leaf. */
  function Decoded(d: Desc): Attrs {
    Attrs(
      (if d.lower & 0x1C == 0 then Normal else if d.lower & 0x1C == 4 then Device else Uncached),
      d.lower & AP_READ_ONLY == 0,
      d.upper & PXN == 0,
      d.lower & AP_EL0 != 0,
      d.upper & UXN == 0)
  }

  /** The permission bits of `old` replaced by those of `attrs`. */
  function Protected(d: Desc, attrs: Attrs): Desc {
    Desc((d.lower & !(AP_EL0 | AP_READ_ONLY)) | (attrs.Lower() & (AP_EL0 | AP_READ_ONLY)),
         d.frame,
         (d.upper & !(PXN | UXN)) | (attrs.Upper() & (PXN | UXN)))
  }

  /** A leaf says exactly the attributes it was built from. */
  lemma LeafDecodes(pa: nat, attrs: Attrs)
    ensures Decoded(PageDesc(pa, attrs)) == attrs && IsTableOrPage(PageDesc(pa, attrs))
    ensures Decoded(BlockDesc(pa, attrs)) == attrs && IsValid(BlockDesc(pa, attrs)) && !HasTypeBit(BlockDesc(pa, attrs))
  {
    match attrs.memory
    case Normal =>
    case Uncached =>
    case Device =>
  }

  /** Every bit of a leaf for the attributes, but the type bit: the architecture's layout of
      stage-1 attributes, bit by bit. */
  predicate WordSays(d: Desc, a: Attrs) {
    && d.lower & 0x1 != 0 && d.lower & 0x20 == 0 && d.lower & 0x400 != 0
    && d.lower & 0x1C == (match a.memory case Normal => 0 case Device => 0x4 case Uncached => 0x8)
    && d.lower & 0x300 == (if a.memory.Device? then 0 else 0x300)
    && (d.lower & 0x800 != 0 <==> a.user) && (d.lower & 0x40 != 0 <==> a.user)
    && (d.lower & 0x80 == 0 <==> a.write)
    && (d.upper & 0x20 == 0 <==> a.kernelExec) && (d.upper & 0x40 == 0 <==> a.userExec) && d.upper & 0xFF9F == 0
  }

  /** The words of leaves and tables: a user leaf, and no other, is not global. */
  lemma LeafWords(pa: nat, attrs: Attrs, frame: nat)
    ensures WordSays(PageDesc(pa, attrs), attrs) && PageDesc(pa, attrs).lower & 0x2 != 0
    ensures WordSays(BlockDesc(pa, attrs), attrs) && BlockDesc(pa, attrs).lower & 0x2 == 0
    ensures TableDesc(frame).lower == 0x3 && TableDesc(frame).upper == 0
  {
    match attrs.memory
    case Normal =>
    case Uncached =>
    case Device =>
  }

  /** An entry of the TLB that belongs to one ASID. */
  predicate NotGlobal(d: Desc) {
    d.lower & 0x800 != 0
  }

  /** A change of access never makes a leaf global, nor one that was global private. */
  lemma ProtectedGlobal(d: Desc, attrs: Attrs)
    ensures NotGlobal(Protected(d, attrs)) <==> NotGlobal(d)
  {
    ProtectedIs(d, attrs);
    SameBits(Protected(d, attrs).lower, d.lower);
  }

  lemma SameBits(a: bv12, b: bv12)
    requires a & 0xF3F == b & 0xF3F
    ensures a & 0x800 == b & 0x800
  {
    assert a & 0x800 == (a & 0xF3F) & 0x800;
    assert b & 0x800 == (b & 0xF3F) & 0x800;
  }

  lemma TypeBits(d: Desc)
    ensures IsTableOrPage(d) <==> IsValid(d) && HasTypeBit(d)
    ensures IsValid(d) ==> d != ZERO
  {
  }

  /** A change of access sets the four rights, and every other bit of the word keeps its
      value. */
  lemma ProtectedIs(d: Desc, attrs: Attrs)
    ensures var n := Protected(d, attrs);
            && n.frame == d.frame && n.lower & 0xF3F == d.lower & 0xF3F && n.upper & 0xFF9F == d.upper & 0xFF9F
            && Decoded(n) == attrs.(memory := Decoded(d).memory)
            && (IsTableOrPage(n) <==> IsTableOrPage(d)) && (IsValid(n) <==> IsValid(d))
  {
    match attrs.memory
    case Normal =>
    case Uncached =>
    case Device =>
  }

  predicate WriteAndExecutable(a: Attrs) {
    a.write && (a.kernelExec || a.userExec)
  }

  /** A change to valid rights gives valid rights, except that a device page can be made
      executable: the change keeps the memory type and looks only at the new rights. */
  lemma ProtectedValid(d: Desc, attrs: Attrs)
    requires attrs.IsValid()
    ensures !WriteAndExecutable(Decoded(Protected(d, attrs)))
    ensures Decoded(Protected(d, attrs)).IsValid() <==>
              !(Decoded(d).memory.Device? && (attrs.kernelExec || attrs.userExec))
  {
    ProtectedIs(d, attrs);
  }

  /** Such a page: device registers of a program, changed to read and execute. */
  lemma DeviceMadeExecutable(pa: nat)
    ensures var device, code := Attrs(Device, true, false, true, false), Attrs(Normal, false, false, true, true);
            device.IsValid() && code.IsValid() && !Decoded(Protected(PageDesc(pa, device), code)).IsValid()
  {
    var device, code := Attrs(Device, true, false, true, false), Attrs(Normal, false, false, true, true);
    LeafDecodes(pa, device);
    ProtectedValid(PageDesc(pa, device), code);
  }
}

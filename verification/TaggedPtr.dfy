/**
 A 47-bit address, a 14-bit version and a mark in one 64-bit word: bits 0-46, 48-61 and 62.
 Masks and shifts are written as the divisions and remainders they amount to.
 */
module TaggedPtr {
  import opened Walk
  import opened MetaWord

  const ADDRESSES: nat := 0x8000_0000_0000
  const VERSIONS: nat := 0x4000
  const VERSION_UNIT: nat := 0x1_0000_0000_0000
  const MARK_UNIT: nat := VERSION_UNIT * VERSIONS

  datatype Tag = Tag(addr: nat, version: nat, mark: bool) {
    predicate Fits() {
      addr < ADDRESSES && version < VERSIONS
    }
  }

  // ---- Operations on the record ----

  function UnMark(t: Tag): Tag {
    t.(mark := false)
  }

  /** Adding to the version wraps at 14 bits. */
  function AddVersion(t: Tag, n: int): Tag {
    t.(version := (t.version + n) % VERSIONS)
  }

  // ---- Operations on the word ----

  function PackTag(t: Tag): Word64
    requires t.Fits()
  {
    t.addr + VERSION_UNIT * t.version + (if t.mark then MARK_UNIT else 0)
  }

  function GetRawPtr(w: Word64): nat {
    w % ADDRESSES
  }

  function GetVersion(w: Word64): nat {
    w / VERSION_UNIT % VERSIONS
  }

  predicate IsMarked(w: Word64) {
    w / MARK_UNIT % 2 == 1
  }

  function MarkWord(w: Word64): Word64 {
    FetchOrBit(w, MARK_UNIT)
  }

  function UnMarkWord(w: Word64): Word64 {
    FetchAndNotBit(w, MARK_UNIT)
  }

  function ClearVersion(w: Word64): Word64 {
    w - VERSION_UNIT * GetVersion(w)
  }

  function SetVersion(w: Word64, version: int): Word64 {
    (ClearVersion(w) + VERSION_UNIT * (version % VERSIONS)) % WORD
  }

  function PackPtr(w: Word64, version: int, mark: bool): Word64 {
    SetVersion(if mark then MarkWord(w) else UnMarkWord(w), version)
  }

  // ---- The word refines the record ----

  lemma GettersReadTag(t: Tag)
    requires t.Fits()
    ensures GetRawPtr(PackTag(t)) == t.addr
    ensures GetVersion(PackTag(t)) == t.version
    ensures IsMarked(PackTag(t)) == t.mark
  {
    var m := if t.mark then 1 else 0;
    var w := PackTag(t);
    assert w == t.addr + VERSION_UNIT * t.version + MARK_UNIT * m;
    hide PackTag;
    LayoutAt(w, t.addr, 2 * (t.version + VERSIONS * m), ADDRESSES);
    LayoutAt(w, t.addr, t.version + VERSIONS * m, VERSION_UNIT);
    LayoutAt(t.version + VERSIONS * m, t.version, m, VERSIONS);
    LayoutAt(w, t.addr + VERSION_UNIT * t.version, m, MARK_UNIT);
  }

  /** Comparing words compares all three fields. */
  lemma PackTagInjective(a: Tag, b: Tag)
    requires a.Fits() && b.Fits()
    ensures PackTag(a) == PackTag(b) <==> a == b
  {
    GettersReadTag(a);
    GettersReadTag(b);
  }

  /** Marking and unmarking leave address and version alone. */
  lemma MarksRefine(t: Tag)
    requires t.Fits()
    ensures MarkWord(PackTag(t)) == PackTag(t.(mark := true))
    ensures UnMarkWord(PackTag(t)) == PackTag(UnMark(t))
  {
    GettersReadTag(t);
  }

  /** Setting the version leaves address and mark alone and keeps 14 bits, also of -1. */
  lemma VersionRefines(t: Tag, version: int)
    requires t.Fits()
    ensures SetVersion(PackTag(t), version) == PackTag(t.(version := version % VERSIONS))
  {
    GettersReadTag(t);
    var r := version % VERSIONS;
    assert ClearVersion(PackTag(t)) == t.addr + (if t.mark then MARK_UNIT else 0);
    FitsWord(t.addr, r);
  }

  lemma FitsWord(addr: nat, r: nat)
    requires addr < ADDRESSES && r < VERSIONS
    ensures addr + VERSION_UNIT * r + MARK_UNIT < WORD
  {
  }

  /** The version counts up and down modulo 2^14 without touching the other fields. */
  lemma IncrDecrRefine(t: Tag)
    requires t.Fits()
    ensures SetVersion(PackTag(t), GetVersion(PackTag(t)) + 1) == PackTag(AddVersion(t, 1))
    ensures SetVersion(PackTag(t), GetVersion(PackTag(t)) - 1) == PackTag(AddVersion(t, -1))
    ensures AddVersion(AddVersion(t, 1), -1) == t
  {
    hide PackTag, SetVersion, GetVersion, GetRawPtr, IsMarked;
    GettersReadTag(t);
    VersionRefines(t, t.version + 1);
    VersionRefines(t, t.version - 1);
  }

  /** Packing a raw address gives exactly the three fields asked for. */
  lemma PackPtrRefines(addr: nat, version: int, mark: bool)
    requires addr < ADDRESSES
    ensures addr < WORD && PackPtr(addr, version, mark) == PackTag(Tag(addr, version % VERSIONS, mark))
  {
    var t := Tag(addr, 0, false);
    assert PackTag(t) == addr;
    MarksRefine(t);
    VersionRefines(t.(mark := mark), version);
  }
}

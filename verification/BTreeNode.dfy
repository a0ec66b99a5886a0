/** The on-disk node layout: `node_entries` and the layout it inverts (core/src/btree.rs). */
module BTreeNode {
  import opened Results
  import opened Bytes
  import opened BTree
  import Arith

  datatype Subtype = Omap | FsTree {
    /** Fixed key length; a variable-size node takes its lengths from the table of contents. */
    function FixedKeyLen(): nat {
      if Omap? then 16 else 0
    }
    function FixedLeafValLen(): nat {
      if Omap? then 16 else 0
    }
    function FixedBranchValLen(): nat {
      8
    }
  }

  const MAX_NKEYS: nat := 0x10_0000
  const DATA_OFF: nat := 56
  const FOOTER_LEN: nat := 40

  function Flags(block: seq<Byte>): nat { LeU16(block, 32) }
  function Level(block: seq<Byte>): nat { LeU16(block, 34) }
  predicate IsRoot(flags: nat) { flags % 2 == 1 }
  predicate IsLeaf(flags: nat, level: nat) { (flags / 2) % 2 == 1 || level == 0 }
  predicate IsFixed(flags: nat) { (flags / 4) % 2 == 1 }

  /** Where a node keeps its entries. */
  datatype Geometry = Geometry(nkeys: nat, tocStart: nat, keyArea: nat, valBase: nat, fixed: bool, keyLen: nat, valLen: nat) {
    function TocLen(): nat {
      if fixed then 4 else 8
    }
    function TocAt(i: nat): nat {
      tocStart + SlotOff(fixed, i)
    }
  }

  /** Offset of slot i in the table of contents. */
  function SlotOff(fixed: bool, i: nat): nat {
    if fixed then 4 * i else 8 * i
  }

  function GeometryOf(block: seq<Byte>, subtype: Subtype): Geometry {
    var flags := Flags(block);
    var n := LeU32(block, 36);
    var tocStart := DATA_OFF + LeU16(block, 40);
    Geometry(
      if n <= MAX_NKEYS then n else MAX_NKEYS,
      tocStart,
      tocStart + LeU16(block, 42),
      if IsRoot(flags) then (if |block| >= FOOTER_LEN then |block| - FOOTER_LEN else 0) else |block|,
      IsFixed(flags),
      subtype.FixedKeyLen(),
      if IsLeaf(flags, Level(block)) then subtype.FixedLeafValLen() else subtype.FixedBranchValLen())
  }

  /** A table-of-contents slot must end before the keys begin and inside the node. */
  predicate SlotFits(block: seq<Byte>, g: Geometry, i: nat) {
    g.TocAt(i) + g.TocLen() <= g.keyArea && g.TocAt(i) + g.TocLen() <= |block|
  }

  /** Entry i, or nothing when its key or value would leave the node. */
  function EntryAt(block: seq<Byte>, g: Geometry, i: nat): Option<Entry> {
    var e := g.TocAt(i);
    var koff := LeU16(block, e);
    var voff := if g.fixed then LeU16(block, e + 2) else LeU16(block, e + 4);
    var klen := if g.fixed then g.keyLen else LeU16(block, e + 2);
    var vlen := if g.fixed then g.valLen else LeU16(block, e + 6);
    if voff > g.valBase then None else
    var kstart, vstart := g.keyArea + koff, g.valBase - voff;
    match (Slice(block, kstart, kstart + klen), Slice(block, vstart, vstart + vlen))
    case (Some(k), Some(v)) => Some(Entry(k, v))
    case _ => None
  }

  function EntriesFrom(block: seq<Byte>, g: Geometry, i: nat): seq<Entry>
    decreases g.nkeys - i
  {
    if i >= g.nkeys || !SlotFits(block, g, i) then [] else
    Listed(EntryAt(block, g, i)) + EntriesFrom(block, g, i + 1)
  }

  function Listed(e: Option<Entry>): seq<Entry> {
    if e.Some? then [e.value] else []
  }

  /** The entries of a node: slots out of the table stop the scan, entries out of the node are skipped. */
  function NodeEntries(block: seq<Byte>, subtype: Subtype): seq<Entry> {
    if |block| < DATA_OFF then [] else EntriesFrom(block, GeometryOf(block, subtype), 0)
  }

  method ReadNodeEntries(block: seq<Byte>, subtype: Subtype) returns (out: seq<Entry>)
    ensures out == NodeEntries(block, subtype)
  {
    if |block| < DATA_OFF {
      return [];
    }
    out := ReadEntries(block, GeometryOf(block, subtype));
  }

  method ReadEntries(block: seq<Byte>, g: Geometry) returns (out: seq<Entry>)
    ensures out == EntriesFrom(block, g, 0)
  {
    out := [];
    var i := 0;
    while i < g.nkeys && SlotFits(block, g, i)
      invariant EntriesFrom(block, g, 0) == out + EntriesFrom(block, g, i)
      decreases g.nkeys - i
    {
      var e := EntryAt(block, g, i);
      out := Appended(out, e, EntriesFrom(block, g, i + 1));
      i := i + 1;
    }
  }

  /** Push the entry if there is one. */
  function Appended(out: seq<Entry>, e: Option<Entry>, ghost rest: seq<Entry>): (out': seq<Entry>)
    ensures out' + rest == out + (Listed(e) + rest)
  {
    if e.Some? then
      assert (out + [e.value]) + rest == out + ([e.value] + rest);
      out + [e.value]
    else out
  }

  /** On arbitrary bytes, every key and value handed out is a slice of the node itself. */
  lemma {:induction false} EntriesInsideNode(block: seq<Byte>, g: Geometry, i: nat, e: Entry)
    requires e in EntriesFrom(block, g, i)
    ensures exists a: nat, b: nat, c: nat, d: nat :: a <= b <= |block| && c <= d <= |block| && e == Entry(block[a..b], block[c..d])
    decreases g.nkeys - i
  {
    if EntryAt(block, g, i) != Some(e) {
      EntriesInsideNode(block, g, i + 1, e);
    }
  }

  /** What a walk makes of a verified node block. */
  function ParseNode(block: seq<Byte>, subtype: Subtype): Node {
    if |block| < DATA_OFF then Leaf([])
    else if IsLeaf(Flags(block), Level(block)) then Leaf(NodeEntries(block, subtype))
    else Index(NodeEntries(block, subtype))
  }

  // ---------- the layout ----------

  function KeysLen(es: seq<Entry>): nat {
    if es == [] then 0 else |es[0].key| + KeysLen(es[1..])
  }

  function ValsLen(es: seq<Entry>): nat {
    if es == [] then 0 else |es[0].value| + ValsLen(es[1..])
  }

  /** Keys run forward from the end of the table of contents. */
  function KeyBytes(es: seq<Entry>): (b: seq<Byte>)
    ensures |b| == KeysLen(es)
  {
    if es == [] then [] else es[0].key + KeyBytes(es[1..])
  }

  /** Values run backward from the footer, or from the end of a non-root node. */
  function ValBytes(es: seq<Entry>): (b: seq<Byte>)
    ensures |b| == ValsLen(es)
  {
    if es == [] then [] else ValBytes(es[1..]) + es[0].value
  }

  /** One table-of-contents slot: the key starts at koff, the value ends where the previous one started. */
  function TocEntry(e: Entry, koff: nat, voff: nat, fixed: bool): (b: seq<Byte>)
    ensures |b| == if fixed then 4 else 8
  {
    if fixed then LeBytes(koff, 2) + LeBytes(voff, 2)
    else LeBytes(koff, 2) + LeBytes(|e.key|, 2) + LeBytes(voff, 2) + LeBytes(|e.value|, 2)
  }

  function TocBytes(es: seq<Entry>, koff: nat, voff: nat, fixed: bool): (b: seq<Byte>)
    ensures |b| == SlotOff(fixed, |es|)
  {
    if es == [] then [] else
    TocEntry(es[0], koff, voff + |es[0].value|, fixed) +
    TocBytes(es[1..], koff + |es[0].key|, voff + |es[0].value|, fixed)
  }

  /** The sizes of a fixed-size entry: object-map keys, mappings and child block numbers. */
  predicate SizesFixed(e: Entry, subtype: Subtype, leaf: bool) {
    match subtype
    case Omap => |e.key| == 16 && |e.value| == (if leaf then 16 else 8)
    case FsTree => |e.key| == 0 && |e.value| == (if leaf then 0 else 8)
  }

  /** Everything about a node block that its entry list does not fix. */
  datatype Frame = Frame(
    objHeader: seq<Byte>,  // the 32-byte object header
    root: bool,            // the low bits of the flags word
    leaf: bool,
    fixed: bool,
    rest: nat,             // its other bits
    level: nat,
    free: seq<Byte>,     // the free-space and free-list locators
    pad: seq<Byte>,      // between the header and the table of contents
    slack: seq<Byte>,    // unused table-of-contents space
    gap: seq<Byte>,      // between keys and values
    footer: seq<Byte>)   // btree_info_t, root only
  {
    ghost predicate Valid(es: seq<Entry>, subtype: Subtype) {
      && |objHeader| == 32 && rest < 0x2000 && level < 0x1_0000 && |free| == 12
      && |footer| == (if root then 40 else 0)
      && |es| <= MAX_NKEYS && |pad| < 0x1_0000 && |Toc(es)| < 0x1_0000
      && KeysLen(es) < 0x1_0000 && ValsLen(es) < 0x1_0000
      && (fixed ==> forall e :: e in es ==> SizesFixed(e, subtype, leaf || level == 0))
    }

    function FlagWord(): nat {
      (if root then 1 else 0) + (if leaf then 2 else 0) + (if fixed then 4 else 0) + 8 * rest
    }

    function Toc(es: seq<Entry>): seq<Byte> {
      TocBytes(es, 0, 0, fixed) + slack
    }

    function Header(es: seq<Entry>): seq<Byte> {
      objHeader + LeBytes(FlagWord(), 2) + LeBytes(level, 2) + LeBytes(|es|, 4) +
      LeBytes(|pad|, 2) + LeBytes(|Toc(es)|, 2) + free
    }

    /** The node block holding es. */
    function Block(es: seq<Entry>): seq<Byte> {
      Header(es) + pad + Toc(es) + KeyBytes(es) + gap + ValBytes(es) + footer
    }
  }

  lemma {:induction false} HeaderFields(f: Frame, es: seq<Entry>, subtype: Subtype)
    requires f.Valid(es, subtype)
    ensures var h := f.Header(es);
            && |h| == DATA_OFF && At(h, 32, LeBytes(f.FlagWord(), 2)) && At(h, 34, LeBytes(f.level, 2))
            && At(h, 36, LeBytes(|es|, 4)) && At(h, 40, LeBytes(|f.pad|, 2)) && At(h, 42, LeBytes(|f.Toc(es)|, 2))
  {
  }

  /** A header field reads back from the whole block. */
  lemma {:induction false} HeaderField(f: Frame, es: seq<Entry>, off: nat, v: nat, width: nat)
    requires At(f.Header(es), off, LeBytes(v, width)) && v < Pow256(width)
    ensures LeAt(f.Block(es), off, width) == v
  {
    var rest := f.pad + f.Toc(es) + KeyBytes(es) + f.gap + ValBytes(es) + f.footer;
    assert f.Block(es) == f.Header(es) + rest;
    AtLeft(f.Header(es), rest);
    AtSub(f.Block(es), 0, f.Header(es), off, LeBytes(v, width));
    ReadAt(f.Block(es), off, v, width);
  }

  function FrameGeometry(f: Frame, es: seq<Entry>, subtype: Subtype): Geometry
    requires |f.footer| <= |f.Block(es)|
  {
    Geometry(
      |es|, DATA_OFF + |f.pad|, DATA_OFF + |f.pad| + |f.Toc(es)|, |f.Block(es)| - |f.footer|, f.fixed,
      subtype.FixedKeyLen(),
      if f.leaf || f.level == 0 then subtype.FixedLeafValLen() else subtype.FixedBranchValLen())
  }

  /** The three bits the reader looks at, whatever the others are. */
  lemma {:induction false} FlagBits(f: Frame)
    ensures IsRoot(f.FlagWord()) == f.root && IsFixed(f.FlagWord()) == f.fixed
    ensures forall level :: IsLeaf(f.FlagWord(), level) <==> f.leaf || level == 0
  {
    var r, l, x := if f.root then 1 else 0, if f.leaf then 1 else 0, if f.fixed then 1 else 0;
    var w := f.FlagWord();
    Arith.DigitAt(w, 1, 0, r, l + 2 * (x + 2 * f.rest));
    Arith.DigitAt(w, 2, r, l, x + 2 * f.rest);
    Arith.DigitAt(w, 4, r + 2 * l, x, f.rest);
  }

  lemma {:induction false} BlockFields(f: Frame, es: seq<Entry>, subtype: Subtype)
    requires f.Valid(es, subtype)
    ensures var block := f.Block(es);
            && |block| >= DATA_OFF + |f.footer| && Flags(block) == f.FlagWord() && Level(block) == f.level
            && GeometryOf(block, subtype) == FrameGeometry(f, es, subtype)
  {
    HeaderFields(f, es, subtype);
    Pow256Values();
    FlagBits(f);
    HeaderField(f, es, 32, f.FlagWord(), 2);
    HeaderField(f, es, 34, f.level, 2);
    HeaderField(f, es, 36, |es|, 4);
    HeaderField(f, es, 40, |f.pad|, 2);
    HeaderField(f, es, 42, |f.Toc(es)|, 2);
  }

  lemma {:induction false} PrefixStep(es: seq<Entry>, j: nat)
    requires 0 < j <= |es|
    ensures KeysLen(es[..j]) == |es[0].key| + KeysLen(es[1..][..j - 1])
    ensures ValsLen(es[..j]) == |es[0].value| + ValsLen(es[1..][..j - 1])
  {
    assert es[..j][1..] == es[1..][..j - 1];
  }

  /** Slot j of the table of contents. */
  lemma {:induction false} TocPiece(es: seq<Entry>, j: nat, koff: nat, voff: nat, fixed: bool, k: nat, v: nat)
    requires j < |es| && k == koff + KeysLen(es[..j]) && v == voff + ValsLen(es[..j + 1])
    ensures At(TocBytes(es, koff, voff, fixed), SlotOff(fixed, j), TocEntry(es[j], k, v, fixed))
  {
    var e, rest := es[0], es[1..];
    PrefixStep(es, j + 1);
    if j == 0 {
      assert es[..0] == [] && rest[..0] == [];
      AtLeft(TocEntry(e, koff, voff + |e.value|, fixed), TocBytes(rest, koff + |e.key|, voff + |e.value|, fixed));
    } else {
      PrefixStep(es, j);
      TocPiece(rest, j - 1, koff + |e.key|, voff + |e.value|, fixed, k, v);
      TocTail(es, j, koff, voff, fixed, TocEntry(es[j], k, v, fixed));
    }
  }

  lemma {:induction false} TocTail(es: seq<Entry>, j: nat, koff: nat, voff: nat, fixed: bool, slot: seq<Byte>)
    requires 0 < j < |es|
    requires At(TocBytes(es[1..], koff + |es[0].key|, voff + |es[0].value|, fixed), SlotOff(fixed, j - 1), slot)
    ensures At(TocBytes(es, koff, voff, fixed), SlotOff(fixed, j), slot)
  {
    var head := TocEntry(es[0], koff, voff + |es[0].value|, fixed);
    var tail := TocBytes(es[1..], koff + |es[0].key|, voff + |es[0].value|, fixed);
    AtRight(head, tail);
    AtSub(head + tail, |head|, tail, SlotOff(fixed, j - 1), slot);
  }

  /** Key j within the key area. */
  lemma {:induction false} KeyPiece(es: seq<Entry>, j: nat)
    requires j < |es|
    ensures At(KeyBytes(es), KeysLen(es[..j]), es[j].key)
  {
    var key, rest := es[0].key, KeyBytes(es[1..]);
    if j == 0 {
      assert es[..0] == [];
      AtLeft(key, rest);
    } else {
      PrefixStep(es, j);
      KeyPiece(es[1..], j - 1);
      AtRight(key, rest);
      AtSub(key + rest, |key|, rest, KeysLen(es[1..][..j - 1]), es[j].key);
    }
  }

  /** Value j within the value area. */
  lemma {:induction false} ValPiece(es: seq<Entry>, j: nat)
    requires j < |es|
    ensures |es[j].value| <= ValsLen(es[..j + 1]) <= ValsLen(es)
    ensures At(ValBytes(es), ValsLen(es) - ValsLen(es[..j + 1]), es[j].value)
  {
    PrefixStep(es, j + 1);
    var value, rest := es[0].value, ValBytes(es[1..]);
    if j == 0 {
      assert es[1..][..0] == [];
      AtRight(rest, value);
    } else {
      ValPiece(es[1..], j - 1);
      AtLeft(rest, value);
      AtSub(rest + value, 0, rest, ValsLen(es[1..]) - ValsLen(es[1..][..j]), es[j].value);
    }
  }

  ghost predicate SlotInPlace(block: seq<Byte>, g: Geometry, j: nat, e: Entry, koff: nat, voff: nat) {
    SlotFits(block, g, j) && At(block, g.TocAt(j), TocEntry(e, koff, voff, g.fixed))
  }

  ghost predicate KeyInPlace(block: seq<Byte>, g: Geometry, e: Entry, koff: nat) {
    koff < 0x1_0000 && |e.key| < 0x1_0000 && (g.fixed ==> |e.key| == g.keyLen) && At(block, g.keyArea + koff, e.key)
  }

  ghost predicate ValueInPlace(block: seq<Byte>, g: Geometry, e: Entry, voff: nat) {
    && voff < 0x1_0000 && |e.value| < 0x1_0000 && (g.fixed ==> |e.value| == g.valLen)
    && voff <= g.valBase && At(block, g.valBase - voff, e.value)
  }

  lemma {:induction false} SlotFields(block: seq<Byte>, at: nat, e: Entry, koff: nat, voff: nat, fixed: bool)
    requires koff < 0x1_0000 && voff < 0x1_0000 && |e.key| < 0x1_0000 && |e.value| < 0x1_0000
    requires At(block, at, TocEntry(e, koff, voff, fixed))
    ensures LeU16(block, at) == koff
    ensures fixed ==> LeU16(block, at + 2) == voff
    ensures !fixed ==> LeU16(block, at + 2) == |e.key| && LeU16(block, at + 4) == voff && LeU16(block, at + 6) == |e.value|
  {
    Pow256Values();
    var slot := TocEntry(e, koff, voff, fixed);
    SlotField(block, at, slot, 0, koff);
    if fixed {
      SlotField(block, at, slot, 2, voff);
    } else {
      SlotField(block, at, slot, 2, |e.key|);
      SlotField(block, at, slot, 4, voff);
      SlotField(block, at, slot, 6, |e.value|);
    }
  }

  lemma {:induction false} SlotField(block: seq<Byte>, at: nat, slot: seq<Byte>, off: nat, v: nat)
    requires At(block, at, slot) && At(slot, off, LeBytes(v, 2)) && v < 0x1_0000
    ensures LeU16(block, at + off) == v
  {
    Pow256Values();
    AtSub(block, at, slot, off, LeBytes(v, 2));
    ReadAt(block, at + off, v, 2);
  }

  lemma {:induction false} InPlaceReads(block: seq<Byte>, g: Geometry, j: nat, e: Entry, koff: nat, voff: nat)
    requires SlotInPlace(block, g, j, e, koff, voff) && KeyInPlace(block, g, e, koff) && ValueInPlace(block, g, e, voff)
    ensures EntryAt(block, g, j) == Some(e)
  {
    SlotFields(block, g.TocAt(j), e, koff, voff, g.fixed);
  }

  /** The table, the keys and the values of es are where g says they are. */
  ghost predicate Holds(block: seq<Byte>, g: Geometry, es: seq<Entry>) {
    && At(block, g.tocStart, TocBytes(es, 0, 0, g.fixed)) && g.tocStart + SlotOff(g.fixed, |es|) <= g.keyArea
    && At(block, g.keyArea, KeyBytes(es))
    && ValsLen(es) <= g.valBase && At(block, g.valBase - ValsLen(es), ValBytes(es))
    && KeysLen(es) < 0x1_0000 && ValsLen(es) < 0x1_0000
    && (g.fixed ==> forall e :: e in es ==> |e.key| == g.keyLen && |e.value| == g.valLen)
  }

  lemma {:induction false} HeldToc(block: seq<Byte>, g: Geometry, es: seq<Entry>, j: nat, koff: nat, voff: nat)
    requires Holds(block, g, es) && j < |es| && koff == KeysLen(es[..j]) && voff == ValsLen(es[..j + 1])
    ensures SlotInPlace(block, g, j, es[j], koff, voff)
  {
    TocPiece(es, j, 0, 0, g.fixed, koff, voff);
    AtSub(block, g.tocStart, TocBytes(es, 0, 0, g.fixed), SlotOff(g.fixed, j), TocEntry(es[j], koff, voff, g.fixed));
  }

  lemma {:induction false} HeldKey(block: seq<Byte>, g: Geometry, es: seq<Entry>, j: nat, koff: nat)
    requires Holds(block, g, es) && j < |es| && koff == KeysLen(es[..j])
    ensures KeyInPlace(block, g, es[j], koff)
  {
    KeyPiece(es, j);
    AtSub(block, g.keyArea, KeyBytes(es), koff, es[j].key);
    assert es[j] in es;
  }

  lemma {:induction false} HeldValue(block: seq<Byte>, g: Geometry, es: seq<Entry>, j: nat, voff: nat)
    requires Holds(block, g, es) && j < |es| && voff == ValsLen(es[..j + 1])
    ensures ValueInPlace(block, g, es[j], voff)
  {
    ValPiece(es, j);
    AtSub(block, g.valBase - ValsLen(es), ValBytes(es), ValsLen(es) - voff, es[j].value);
    assert es[j] in es;
  }

  lemma {:induction false} HeldSlot(block: seq<Byte>, g: Geometry, es: seq<Entry>, j: nat)
    requires Holds(block, g, es) && j < |es|
    ensures SlotFits(block, g, j) && EntryAt(block, g, j) == Some(es[j])
  {
    var koff, voff := KeysLen(es[..j]), ValsLen(es[..j + 1]);
    HeldToc(block, g, es, j, koff, voff);
    HeldKey(block, g, es, j, koff);
    HeldValue(block, g, es, j, voff);
    InPlaceReads(block, g, j, es[j], koff, voff);
  }

  lemma {:induction false} HeldSlots(block: seq<Byte>, g: Geometry, es: seq<Entry>, i: nat)
    requires Holds(block, g, es) && i <= |es| == g.nkeys
    ensures EntriesFrom(block, g, i) == es[i..]
    decreases |es| - i
  {
    if i < |es| {
      HeldSlot(block, g, es, i);
      HeldSlots(block, g, es, i + 1);
      assert es[i..] == [es[i]] + es[i + 1..];
    }
  }

  lemma {:induction false} BlockHolds(f: Frame, es: seq<Entry>, subtype: Subtype)
    requires f.Valid(es, subtype)
    ensures |f.footer| <= |f.Block(es)| && Holds(f.Block(es), FrameGeometry(f, es, subtype), es)
  {
    HeaderFields(f, es, subtype);
    var toc := TocBytes(es, 0, 0, f.fixed);
    Slabs(f.Header(es) + f.pad, toc, f.slack, KeyBytes(es), f.gap, ValBytes(es), f.footer);
  }

  lemma {:induction false} Slabs(a: seq<Byte>, toc: seq<Byte>, slack: seq<Byte>, keys: seq<Byte>, gap: seq<Byte>, vals: seq<Byte>, foot: seq<Byte>)
    ensures var b := a + (toc + slack) + keys + gap + vals + foot;
            && At(b, |a|, toc)
            && At(b, |a| + |toc + slack|, keys)
            && At(b, |b| - |foot| - |vals|, vals)
  {
  }

  /**
   Laying out any entry list that fits and reading it gives it back, for every
   setting of the flags word: bit 0 puts a 40-byte footer behind the values, bit
   1 makes a leaf at any level, bit 2 shortens the table slots to 4 bytes and
   takes the sizes from the tree's type; the other bits change nothing.
   */
  lemma {:induction false} NodeRoundTrip(f: Frame, es: seq<Entry>, subtype: Subtype)
    requires f.Valid(es, subtype)
    ensures NodeEntries(f.Block(es), subtype) == es
    ensures ParseNode(f.Block(es), subtype) == if f.leaf || f.level == 0 then Leaf(es) else Index(es)
  {
    BlockFields(f, es, subtype);
    FlagBits(f);
    BlockHolds(f, es, subtype);
    HeldSlots(f.Block(es), FrameGeometry(f, es, subtype), es, 0);
    assert es[0..] == es;
  }
}

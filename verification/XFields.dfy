/** Extended fields of inodes and directory records (core/src/fsrecord.rs). */
module XFields {
  import opened Bytes

  const DESC_OFF: nat := 4
  const DESC_LEN: nat := 4
  const MAX_FIELDS: nat := 4096

  datatype XField = XField(kind: Byte, value: seq<Byte>)

  /** A descriptor: the field's type and the size of its value. */
  datatype Desc = Desc(kind: Byte, size: nat)

  function Align8(n: nat): (a: nat)
    ensures a >= n
  {
    (n + 7) / 8 * 8
  }

  function Count(data: seq<Byte>): nat {
    if LeU16(data, 0) <= MAX_FIELDS then LeU16(data, 0) else MAX_FIELDS
  }

  /** The offset of descriptor i; of the first value when i is the count. */
  function DescAt(i: nat): nat { DESC_OFF + i * DESC_LEN }

  function ReadDesc(data: seq<Byte>, i: nat): Desc
    requires DescAt(i) < |data|
  {
    Desc(data[DescAt(i)], LeU16(data, DescAt(i) + 2))
  }

  function Descs(data: seq<Byte>, n: nat): (ds: seq<Desc>)
    requires DescAt(n) <= |data|
    ensures |ds| == n
  {
    seq(n, i requires 0 <= i < n => ReadDesc(data, i))
  }

  /** Fields i and on whose values, packed from off at 8-byte boundaries, end within the buffer. */
  function FieldsFrom(data: seq<Byte>, ds: seq<Desc>, i: nat, off: nat): seq<XField>
    decreases |ds| - i
  {
    if i >= |ds| || off + ds[i].size > |data| then []
    else [XField(ds[i].kind, data[off..off + ds[i].size])] + FieldsFrom(data, ds, i + 1, off + Align8(ds[i].size))
  }

  function Fields(data: seq<Byte>): seq<XField> {
    var n := Count(data);
    if |data| < DESC_OFF || DescAt(n) > |data| then [] else FieldsFrom(data, Descs(data, n), 0, DescAt(n))
  }

  lemma {:induction false} FieldsNext(data: seq<Byte>, ds: seq<Desc>, i: nat, off: nat, out: seq<XField>, f: XField, next: nat)
    requires i < |ds| && off + ds[i].size <= |data|
    requires f == XField(ds[i].kind, data[off..off + ds[i].size]) && next == off + Align8(ds[i].size)
    ensures out + FieldsFrom(data, ds, i, off) == (out + [f]) + FieldsFrom(data, ds, i + 1, next)
  {
  }

  lemma {:induction false} FieldsEnd(data: seq<Byte>, ds: seq<Desc>, i: nat, off: nat, out: seq<XField>)
    requires i >= |ds| || off + ds[i].size > |data|
    ensures out + FieldsFrom(data, ds, i, off) == out
  {
  }

  /** `parse_xfields`. */
  method ParseXFields(data: seq<Byte>) returns (out: seq<XField>)
    ensures out == Fields(data)
  {
    if |data| < DESC_OFF {
      return [];
    }
    var n := Count(data);
    if DescAt(n) > |data| {
      return [];
    }
    out := ReadFields(data, n, Descs(data, n), DescAt(n));
  }

  method ReadFields(data: seq<Byte>, n: nat, ghost ds: seq<Desc>, start: nat) returns (out: seq<XField>)
    requires DescAt(n) <= |data| && ds == Descs(data, n)
    ensures out == FieldsFrom(data, ds, 0, start)
  {
    out := [];
    var off: nat := start;
    ghost var all := FieldsFrom(data, ds, 0, start);
    for i := 0 to n
      invariant all == out + FieldsFrom(data, ds, i, off)
    {
      var d := ReadDesc(data, i);
      if off + d.size > |data| {
        FieldsEnd(data, ds, i, off, out);
        return;
      }
      var f, next := XField(d.kind, data[off..off + d.size]), off + Align8(d.size);
      FieldsNext(data, ds, i, off, out, f, next);
      out, off := out + [f], next;
    }
    FieldsEnd(data, ds, n, off, out);
  }

  // ---------- truncation ----------

  lemma {:induction false} SameBelow(data: seq<Byte>, k: nat, off: nat, width: nat)
    requires off + width <= k <= |data|
    ensures LeAt(data[..k], off, width) == LeAt(data, off, width)
  {
    assert data[..k][off..off + width] == data[off..off + width];
  }

  lemma {:induction false} SameDescs(data: seq<Byte>, k: nat, n: nat)
    requires DescAt(n) <= k <= |data|
    ensures Descs(data[..k], n) == Descs(data, n)
  {
    forall i | 0 <= i < n ensures ReadDesc(data[..k], i) == ReadDesc(data, i) {
      SameBelow(data, k, DescAt(i) + 2, 2);
    }
  }

  lemma {:induction false} CutIsPrefix(data: seq<Byte>, k: nat, ds: seq<Desc>, i: nat, off: nat)
    requires k <= |data|
    ensures FieldsFrom(data[..k], ds, i, off) <= FieldsFrom(data, ds, i, off)
    decreases |ds| - i
  {
    if i < |ds| && off + ds[i].size <= k {
      assert data[..k][off..off + ds[i].size] == data[off..off + ds[i].size];
      CutIsPrefix(data, k, ds, i + 1, off + Align8(ds[i].size));
    }
  }

  /** Where the value of field m ends, if that of field i starts at off. */
  function EndOf(ds: seq<Desc>, i: nat, off: nat, m: nat): nat
    requires i <= m < |ds|
    decreases m - i
  {
    if i == m then off + ds[i].size else EndOf(ds, i + 1, off + Align8(ds[i].size), m)
  }

  /** The walk stops at the first value that crosses the end of the buffer. */
  lemma {:induction false} StopsAtCrossing(data: seq<Byte>, ds: seq<Desc>, i: nat, off: nat, m: nat)
    requires i <= m < |ds| && m <= i + |FieldsFrom(data, ds, i, off)|
    ensures m < i + |FieldsFrom(data, ds, i, off)| <==> EndOf(ds, i, off, m) <= |data|
    decreases m - i
  {
    if i < m {
      StopsAtCrossing(data, ds, i + 1, off + Align8(ds[i].size), m);
    }
  }

  /**
   Cutting a blob anywhere yields a prefix of its fields: none when the cut falls
   in the descriptor table, and otherwise exactly the fields before the first
   whose value crosses the cut.
   */
  lemma {:induction false} TruncationIsPrefix(data: seq<Byte>, k: nat)
    requires k <= |data|
    ensures Fields(data[..k]) <= Fields(data)
    ensures DESC_OFF <= k < DescAt(Count(data)) ==> Fields(data[..k]) == []
    ensures DescAt(Count(data)) <= k ==>
              var ds, off := Descs(data, Count(data)), DescAt(Count(data));
              var p := |Fields(data[..k])|;
              forall m :: 0 <= m < |ds| && m <= p ==> (m < p <==> EndOf(ds, 0, off, m) <= k)
  {
    if k >= DESC_OFF {
      SameBelow(data, k, 0, 2);
      var n := Count(data);
      if DescAt(n) <= k {
        SameDescs(data, k, n);
        CutIsPrefix(data, k, Descs(data, n), 0, DescAt(n));
        forall m | 0 <= m < n && m <= |Fields(data[..k])|
          ensures m < |Fields(data[..k])| <==> EndOf(Descs(data, n), 0, DescAt(n), m) <= k
        {
          StopsAtCrossing(data[..k], Descs(data, n), 0, DescAt(n), m);
        }
      }
    }
  }

  // ---------- round trip ----------

  ghost predicate AllFit(fs: seq<XField>) {
    forall f: XField :: f in fs ==> |f.value| < 0x1_0000
  }

  function PrintDesc(f: XField, flags: Byte): seq<Byte> {
    [f.kind, flags] + LeBytes(|f.value|, 2)
  }

  /** The descriptor table; each descriptor has a flags byte of its own. */
  function PrintDescs(fs: seq<XField>, flags: seq<Byte>): seq<Byte>
    requires |flags| == |fs|
  {
    if fs == [] then [] else PrintDesc(fs[0], flags[0]) + PrintDescs(fs[1..], flags[1..])
  }

  function Padding(f: XField): seq<Byte> {
    Zeros((8 - |f.value| % 8) % 8)
  }

  lemma {:induction false} PaddedLength(f: XField)
    ensures |f.value| + |Padding(f)| == Align8(|f.value|)
  {
  }

  function PrintValue(f: XField): seq<Byte> {
    f.value + Padding(f)
  }

  function PrintValues(fs: seq<XField>): seq<Byte> {
    if fs == [] then [] else PrintValue(fs[0]) + PrintValues(fs[1..])
  }

  /** A blob on disk. */
  function Blob(fs: seq<XField>, used: seq<Byte>, flags: seq<Byte>, tail: seq<Byte>): seq<Byte>
    requires |flags| == |fs|
  {
    LeBytes(|fs|, 2) + (used + (PrintDescs(fs, flags) + (PrintValues(fs) + tail)))
  }

  function DescsOf(fs: seq<XField>): seq<Desc> {
    seq(|fs|, i requires 0 <= i < |fs| => Desc(fs[i].kind, |fs[i].value|))
  }

  lemma {:induction false} DescsLength(fs: seq<XField>, flags: seq<Byte>)
    requires |flags| == |fs|
    ensures |PrintDescs(fs, flags)| == |fs| * DESC_LEN
  {
    if fs != [] {
      DescsLength(fs[1..], flags[1..]);
    }
  }

  lemma {:induction false} PrintedDesc(data: seq<Byte>, i: nat, f: XField, flags: Byte)
    requires At(data, DescAt(i), PrintDesc(f, flags)) && |f.value| < 0x1_0000
    ensures DescAt(i) < |data| && ReadDesc(data, i) == Desc(f.kind, |f.value|)
  {
    AtByte(data, DescAt(i), PrintDesc(f, flags), 0);
    AtSplit(data, DescAt(i), [f.kind, flags], LeBytes(|f.value|, 2));
    Pow256Values();
    ReadAt(data, DescAt(i) + 2, |f.value|, 2);
  }

  lemma {:induction false} PrintedDescs(data: seq<Byte>, i: nat, fs: seq<XField>, flags: seq<Byte>, j: nat)
    requires |flags| == |fs| && AllFit(fs) && At(data, DescAt(i), PrintDescs(fs, flags)) && j < |fs|
    ensures DescAt(i + j) < |data| && ReadDesc(data, i + j) == Desc(fs[j].kind, |fs[j].value|)
    decreases j
  {
    assert fs[0] in fs;
    AtSplit(data, DescAt(i), PrintDesc(fs[0], flags[0]), PrintDescs(fs[1..], flags[1..]));
    if j == 0 {
      PrintedDesc(data, i, fs[0], flags[0]);
    } else {
      PrintedDescs(data, i + 1, fs[1..], flags[1..], j - 1);
    }
  }

  lemma {:induction false} PrintedValues(data: seq<Byte>, fs: seq<XField>, i: nat, off: nat)
    requires i <= |fs| && At(data, off, PrintValues(fs[i..]))
    ensures FieldsFrom(data, DescsOf(fs), i, off) == fs[i..]
    decreases |fs| - i
  {
    if i < |fs| {
      var f := fs[i];
      assert fs[i..] == [f] + fs[i + 1..] && fs[i..][1..] == fs[i + 1..];
      AtSplit(data, off, PrintValue(f), PrintValues(fs[i + 1..]));
      AtSplit(data, off, f.value, Padding(f));
      PaddedLength(f);
      PrintedValues(data, fs, i + 1, off + Align8(|f.value|));
    }
  }

  /** A blob laid out as the format says yields its fields, values whole, whatever follows it. */
  lemma {:induction false} BlobRoundTrip(fs: seq<XField>, used: seq<Byte>, flags: seq<Byte>, tail: seq<Byte>)
    requires |flags| == |fs| && AllFit(fs) && |fs| <= 4096 && |used| == 2
    ensures Fields(Blob(fs, used, flags, tail)) == fs
  {
    var data := Blob(fs, used, flags, tail);
    var n, descs, values := LeBytes(|fs|, 2), PrintDescs(fs, flags), PrintValues(fs);
    assert At(data, 0, n + (used + (descs + (values + tail))));
    AtSplit(data, 0, n, used + (descs + (values + tail)));
    AtSplit(data, 2, used, descs + (values + tail));
    AtSplit(data, 4, descs, values + tail);
    DescsLength(fs, flags);
    AtSplit(data, DescAt(|fs|), values, tail);
    Pow256Values();
    ReadAt(data, 0, |fs|, 2);
    forall j | 0 <= j < |fs| ensures ReadDesc(data, j) == DescsOf(fs)[j] {
      PrintedDescs(data, 0, fs, flags, j);
    }
    assert Descs(data, |fs|) == DescsOf(fs);
    assert fs[0..] == fs;
    PrintedValues(data, fs, 0, DescAt(|fs|));
  }
}

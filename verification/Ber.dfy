/** The two BER definite-length readers (core/src/encryption.rs); lengths follow section 8.1.3 of ITU-T X.690. */
module Ber {
  import opened Results
  import opened Bytes

  /** One tag-length-value item. */
  datatype Tlv = Tlv(tag: Byte, value: seq<Byte>)

  /** An item and the offset just after it. */
  datatype Parsed = Parsed(item: Tlv, next: nat)

  function Bad(field: Field, value: nat, cap: nat): Error {
    FieldOutOfRange(field, value, cap)
  }

  /** The value of n bytes at off. */
  function ValueAt(data: seq<Byte>, tag: Byte, off: nat, n: nat): Result<Parsed> {
    if off + n <= |data| then Ok(Parsed(Tlv(tag, data[off..off + n]), off + n)) else Err(Bad(ValueEndField, off + n, |data|))
  }

  /** The item at off, in one of the three supported length forms. */
  function Next(data: seq<Byte>, off: nat): Result<Parsed>
    requires off < |data|
  {
    var tag := data[off];
    if off + 1 >= |data| then Err(Bad(LengthField, off + 1, |data|))
    else
      var first := data[off + 1];
      if first < 0x80 then ValueAt(data, tag, off + 2, first)
      else if first == 0x81 then
        if off + 2 >= |data| then Err(Bad(LengthOneByteField, off + 2, |data|))
        else ValueAt(data, tag, off + 3, data[off + 2])
      else if first == 0x82 then
        if off + 3 >= |data| then Err(Bad(LengthTwoByteField, off + 2, |data|))
        else
          var hi: nat := data[off + 2];
          ValueAt(data, tag, off + 4, hi * 256 + data[off + 3])
      else Err(Bad(LengthFormField, first, 0x82))
  }

  lemma {:induction false} NextAdvances(data: seq<Byte>, off: nat)
    requires off < |data| && Next(data, off).Ok?
    ensures off + 2 <= Next(data, off).value.next <= |data|
  {
  }

  // ---------- the lookup that stops at the first match ----------

  function FindFrom(data: seq<Byte>, want: Byte, off: nat): Option<seq<Byte>>
    decreases |data| - off
  {
    if off + 2 > |data| then None
    else match Next(data, off)
      case Err(_) => None
      case Ok(Parsed(item, next)) =>
        if item.tag == want then Some(item.value) else
        NextAdvances(data, off);
        FindFrom(data, want, next)
  }

  /** `ber_find`. */
  function Find(data: seq<Byte>, want: Byte): Option<seq<Byte>> {
    FindFrom(data, want, 0)
  }

  method BerFind(data: seq<Byte>, want: Byte) returns (r: Option<seq<Byte>>)
    ensures r == Find(data, want)
  {
    var off := 0;
    while off + 2 <= |data|
      invariant 0 <= off && Find(data, want) == FindFrom(data, want, off)
      decreases |data| - off
    {
      var step := Next(data, off);
      if step.Err? {
        return None;
      }
      if step.value.item.tag == want {
        return Some(step.value.item.value);
      }
      NextAdvances(data, off);
      off := step.value.next;
    }
    return None;
  }

  // ---------- the full parse of a wrapped-key object ----------

  const TAG_WRAPPED_KEY: Byte := 0x83
  const TAG_ITERATIONS: Byte := 0x84
  const TAG_SALT: Byte := 0x85
  const WRAPPED_KEY_LEN: nat := 40
  const SALT_LEN: nat := 16
  const U32_MAX: nat := 0xffff_ffff

  datatype WrappedKek = WrappedKek(wrappedKey: seq<Byte>, iterations: nat, salt: seq<Byte>)

  /** What has been seen so far. */
  datatype Fields = Fields(key: Option<seq<Byte>>, iterations: Option<nat>, salt: Option<seq<Byte>>)

  function Clamp(n: nat): nat {
    if n <= U32_MAX then n else U32_MAX
  }

  /** One item absorbed: sizes are checked, other tags are ignored, a later item replaces an earlier one. */
  function Absorb(f: Fields, item: Tlv): Result<Fields> {
    if item.tag == TAG_WRAPPED_KEY then
      if |item.value| != WRAPPED_KEY_LEN then Err(Bad(WrappedKeyLenField, |item.value|, WRAPPED_KEY_LEN))
      else Ok(f.(key := Some(item.value)))
    else if item.tag == TAG_ITERATIONS then
      if item.value == [] || |item.value| > 8 then Err(Bad(IterationsLenField, |item.value|, 8))
      else Ok(f.(iterations := Some(Clamp(BeVal(item.value)))))
    else if item.tag == TAG_SALT then
      if |item.value| != SALT_LEN then Err(Bad(SaltLenField, |item.value|, SALT_LEN))
      else Ok(f.(salt := Some(item.value)))
    else Ok(f)
  }

  function Finish(f: Fields): Result<WrappedKek> {
    match f.key
    case None => Err(Bad(WrappedKeyMissingField, 0, 1))
    case Some(key) =>
      match f.iterations
      case None => Err(Bad(IterationsMissingField, 0, 1))
      case Some(n) =>
        match f.salt
        case None => Err(Bad(SaltMissingField, 0, 1))
        case Some(salt) => Ok(WrappedKek(key, n, salt))
  }

  function AbsorbFrom(data: seq<Byte>, off: nat, f: Fields): Result<Fields>
    decreases |data| - off
  {
    if off >= |data| then Ok(f) else
    var step :- Next(data, off);
    var f' :- Absorb(f, step.item);
    NextAdvances(data, off);
    AbsorbFrom(data, step.next, f')
  }

  const NOTHING: Fields := Fields(None, None, None)

  /** `parse_wrapped_kek`. */
  function Parse(data: seq<Byte>): Result<WrappedKek> {
    var f :- AbsorbFrom(data, 0, NOTHING);
    Finish(f)
  }

  /** The big-endian fold of the iteration count. */
  method ReadIterations(value: seq<Byte>) returns (n: nat)
    ensures n == Clamp(BeVal(value))
  {
    n := 0;
    for i := 0 to |value|
      invariant n == BeVal(value[..i])
    {
      assert value[..i + 1][..i] == value[..i];
      n := n * 256 + value[i];
    }
    assert value[..|value|] == value;
    n := Clamp(n);
  }

  method ParseWrappedKek(data: seq<Byte>) returns (r: Result<WrappedKek>)
    ensures r == Parse(data)
  {
    var f := NOTHING;
    var off := 0;
    while off < |data|
      invariant 0 <= off && AbsorbFrom(data, 0, NOTHING) == AbsorbFrom(data, off, f)
      decreases |data| - off
    {
      var step := Next(data, off);
      if step.Err? {
        return Err(step.error);
      }
      NextAdvances(data, off);
      var item := step.value.item;
      var absorbed := Absorb(f, item);
      if absorbed.Err? {
        return Err(absorbed.error);
      }
      if item.tag == TAG_ITERATIONS {
        var n := ReadIterations(item.value);
        f := f.(iterations := Some(n));
      } else {
        f := absorbed.value;
      }
      off := step.value.next;
    }
    return Finish(f);
  }

  // ---------- both readers in terms of the item list ----------

  function ItemsFrom(data: seq<Byte>, off: nat): Result<seq<Tlv>>
    decreases |data| - off
  {
    if off >= |data| then Ok([]) else
    var step :- Next(data, off);
    NextAdvances(data, off);
    var rest :- ItemsFrom(data, step.next);
    Ok([step.item] + rest)
  }

  /** The items of a blob. */
  function Items(data: seq<Byte>): Result<seq<Tlv>> {
    ItemsFrom(data, 0)
  }

  function First(items: seq<Tlv>, tag: Byte): Option<seq<Byte>> {
    if items == [] then None else if items[0].tag == tag then Some(items[0].value) else First(items[1..], tag)
  }

  function Last(items: seq<Tlv>, tag: Byte): Option<seq<Byte>> {
    if items == [] then None
    else if Last(items[1..], tag).Some? then Last(items[1..], tag)
    else if items[0].tag == tag then Some(items[0].value) else None
  }

  /** On a blob that parses into items, the lookup returns the first value of the tag. */
  lemma {:induction false} FindIsFirst(data: seq<Byte>, want: Byte, off: nat)
    requires ItemsFrom(data, off).Ok?
    ensures FindFrom(data, want, off) == First(ItemsFrom(data, off).value, want)
    decreases |data| - off
  {
    if off < |data| {
      var step := Next(data, off).value;
      NextAdvances(data, off);
      FindIsFirst(data, want, step.next);
      var rest := ItemsFrom(data, step.next).value;
      assert ([step.item] + rest)[1..] == rest;
    }
  }

  function OrElse<T>(a: Option<T>, b: Option<T>): Option<T> {
    if a.Some? then a else b
  }

  /** The full parse succeeds only on a blob of items, and keeps the last value of each tag. */
  lemma {:induction false} ParseIsLast(data: seq<Byte>, off: nat, f: Fields)
    requires AbsorbFrom(data, off, f).Ok?
    ensures ItemsFrom(data, off).Ok?
    ensures var items, g := ItemsFrom(data, off).value, AbsorbFrom(data, off, f).value;
            && g.key == OrElse(Last(items, TAG_WRAPPED_KEY), f.key)
            && g.salt == OrElse(Last(items, TAG_SALT), f.salt)
            && g.iterations == (match Last(items, TAG_ITERATIONS)
                                case Some(v) => Some(Clamp(BeVal(v)))
                                case None => f.iterations)
    decreases |data| - off
  {
    if off < |data| {
      var step := Next(data, off).value;
      NextAdvances(data, off);
      var f' := Absorb(f, step.item).value;
      ParseIsLast(data, step.next, f');
      var rest := ItemsFrom(data, step.next).value;
      assert ([step.item] + rest)[1..] == rest;
    }
  }

  /** The item has the size its tag demands. */
  predicate SizeOk(item: Tlv) {
    && (item.tag == TAG_WRAPPED_KEY ==> |item.value| == WRAPPED_KEY_LEN)
    && (item.tag == TAG_ITERATIONS ==> 1 <= |item.value| <= 8)
    && (item.tag == TAG_SALT ==> |item.value| == SALT_LEN)
  }

  predicate AllSized(items: seq<Tlv>) {
    items == [] || (SizeOk(items[0]) && AllSized(items[1..]))
  }

  /** Nothing but a malformed item or a wrong size stops the item loop. */
  lemma {:induction false} AbsorbSucceeds(data: seq<Byte>, off: nat, f: Fields)
    ensures AbsorbFrom(data, off, f).Ok? <==> ItemsFrom(data, off).Ok? && AllSized(ItemsFrom(data, off).value)
    decreases |data| - off
  {
    if off < |data| && Next(data, off).Ok? {
      var step := Next(data, off).value;
      NextAdvances(data, off);
      var absorbed := Absorb(f, step.item);
      assert absorbed.Ok? <==> SizeOk(step.item);
      if absorbed.Ok? {
        AbsorbSucceeds(data, step.next, absorbed.value);
      }
      if ItemsFrom(data, step.next).Ok? {
        var rest := ItemsFrom(data, step.next).value;
        assert ([step.item] + rest)[1..] == rest;
      }
    }
  }

  /** The three fields are there and every item has its permitted size. */
  predicate Complete(items: seq<Tlv>) {
    && AllSized(items) && Last(items, TAG_WRAPPED_KEY).Some?
    && Last(items, TAG_ITERATIONS).Some? && Last(items, TAG_SALT).Some?
  }

  /** The last value of each tag. */
  function KekOf(items: seq<Tlv>): WrappedKek
    requires Complete(items)
  {
    WrappedKek(Last(items, TAG_WRAPPED_KEY).value, Clamp(BeVal(Last(items, TAG_ITERATIONS).value)), Last(items, TAG_SALT).value)
  }

  /**
   The parse succeeds exactly on a blob of well-formed items of permitted sizes
   in which each of the three tags occurs, and then returns the last value of
   each, the count clamped to 32 bits.
   */
  lemma {:induction false} ParseExact(data: seq<Byte>)
    ensures Parse(data).Ok? <==> Items(data).Ok? && Complete(Items(data).value)
    ensures Parse(data).Ok? ==> Parse(data).value == KekOf(Items(data).value)
  {
    AbsorbSucceeds(data, 0, NOTHING);
    if AbsorbFrom(data, 0, NOTHING).Ok? {
      ParseIsLast(data, 0, NOTHING);
    }
  }

  /** At most one item carries the tag. */
  predicate Once(items: seq<Tlv>, tag: Byte) {
    if items == [] then true
    else if items[0].tag == tag then First(items[1..], tag) == None
    else Once(items[1..], tag)
  }

  lemma {:induction false} NoneIsNone(items: seq<Tlv>, tag: Byte)
    ensures First(items, tag) == None <==> Last(items, tag) == None
  {
    if items != [] {
      NoneIsNone(items[1..], tag);
    }
  }

  lemma {:induction false} OnceIsOnce(items: seq<Tlv>, tag: Byte)
    requires Once(items, tag)
    ensures First(items, tag) == Last(items, tag)
  {
    if items != [] {
      NoneIsNone(items[1..], tag);
      if items[0].tag != tag {
        OnceIsOnce(items[1..], tag);
      }
    }
  }

  /**
   When the full parse succeeds, its key, salt and count are the last values of
   their tags, the count clamped to 32 bits, while the lookup finds the first:
   so the two readers agree exactly when first and last coincide, in particular
   when the tag occurs once.
   */
  lemma {:induction false} ReadersAgree(data: seq<Byte>)
    requires Parse(data).Ok?
    ensures Items(data).Ok?
    ensures var items, kek := Items(data).value, Parse(data).value;
            && Last(items, TAG_WRAPPED_KEY) == Some(kek.wrappedKey) && |kek.wrappedKey| == WRAPPED_KEY_LEN
            && Last(items, TAG_SALT) == Some(kek.salt) && |kek.salt| == SALT_LEN
            && Last(items, TAG_ITERATIONS).Some? && kek.iterations == Clamp(BeVal(Last(items, TAG_ITERATIONS).value))
            && (Find(data, TAG_WRAPPED_KEY) == Some(kek.wrappedKey) <==>
                  First(items, TAG_WRAPPED_KEY) == Last(items, TAG_WRAPPED_KEY))
            && (Find(data, TAG_SALT) == Some(kek.salt) <==> First(items, TAG_SALT) == Last(items, TAG_SALT))
            && (Once(items, TAG_WRAPPED_KEY) ==> Find(data, TAG_WRAPPED_KEY) == Some(kek.wrappedKey))
            && (Once(items, TAG_SALT) ==> Find(data, TAG_SALT) == Some(kek.salt))
  {
    ParseIsLast(data, 0, NOTHING);
    var items := Items(data).value;
    FindIsFirst(data, TAG_WRAPPED_KEY, 0);
    FindIsFirst(data, TAG_SALT, 0);
    AbsorbedLengths(data, 0, NOTHING);
    if Once(items, TAG_WRAPPED_KEY) {
      OnceIsOnce(items, TAG_WRAPPED_KEY);
    }
    if Once(items, TAG_SALT) {
      OnceIsOnce(items, TAG_SALT);
    }
  }

  predicate GoodLengths(f: Fields) {
    (f.key.Some? ==> |f.key.value| == WRAPPED_KEY_LEN) && (f.salt.Some? ==> |f.salt.value| == SALT_LEN)
  }

  lemma {:induction false} AbsorbedLengths(data: seq<Byte>, off: nat, f: Fields)
    requires AbsorbFrom(data, off, f).Ok? && GoodLengths(f)
    ensures GoodLengths(AbsorbFrom(data, off, f).value)
    decreases |data| - off
  {
    if off < |data| {
      NextAdvances(data, off);
      var step := Next(data, off).value;
      AbsorbedLengths(data, step.next, Absorb(f, step.item).value);
    }
  }

  // ---------- the encoding both invert ----------

  datatype Form = Short | OneByte | TwoByte

  predicate Fits(form: Form, n: nat) {
    match form
    case Short => n < 0x80
    case OneByte => n < 0x100
    case TwoByte => n < 0x1_0000
  }

  function Header(tag: Byte, form: Form, n: nat): seq<Byte>
    requires Fits(form, n)
  {
    match form
    case Short => [tag, n]
    case OneByte => [tag, 0x81, n]
    case TwoByte => [tag, 0x82, n / 256, n % 256]
  }

  datatype Coded = Coded(item: Tlv, form: Form)

  predicate AllFit(cs: seq<Coded>) {
    cs == [] || (Fits(cs[0].form, |cs[0].item.value|) && AllFit(cs[1..]))
  }

  function Encode(cs: seq<Coded>): seq<Byte>
    requires AllFit(cs)
  {
    if cs == [] then [] else EncodeItem(cs[0]) + Encode(cs[1..])
  }

  function ItemsOf(cs: seq<Coded>): seq<Tlv> {
    if cs == [] then [] else [cs[0].item] + ItemsOf(cs[1..])
  }

  function EncodeItem(c: Coded): seq<Byte>
    requires Fits(c.form, |c.item.value|)
  {
    Header(c.item.tag, c.form, |c.item.value|) + c.item.value
  }

  lemma {:induction false} NextOfEncoded(data: seq<Byte>, off: nat, c: Coded)
    requires Fits(c.form, |c.item.value|) && At(data, off, EncodeItem(c))
    ensures off < |data| && Next(data, off) == Ok(Parsed(c.item, off + |EncodeItem(c)|))
  {
    var n := |c.item.value|;
    var h := Header(c.item.tag, c.form, n);
    AtSplit(data, off, h, c.item.value);
    AtByte(data, off, h, 0);
    AtByte(data, off, h, 1);
    if c.form != Short {
      AtByte(data, off, h, 2);
    }
    if c.form == TwoByte {
      AtByte(data, off, h, 3);
    }
  }

  /** From off on the items follow one another to the end of the blob. */
  ghost predicate Follow(data: seq<Byte>, off: nat, items: seq<Tlv>)
    decreases |items|
  {
    if items == [] then off >= |data| else
    && off < |data| && Next(data, off).Ok? && Next(data, off).value.item == items[0]
    && Follow(data, Next(data, off).value.next, items[1..])
  }

  lemma {:induction false} FollowingItems(data: seq<Byte>, off: nat, items: seq<Tlv>)
    requires Follow(data, off, items)
    ensures ItemsFrom(data, off) == Ok(items)
    decreases |items|
  {
    if items != [] {
      NextAdvances(data, off);
      FollowingItems(data, Next(data, off).value.next, items[1..]);
      assert [items[0]] + items[1..] == items;
    }
  }

  lemma {:induction false} EncodedFollow(data: seq<Byte>, off: nat, cs: seq<Coded>)
    requires AllFit(cs) && At(data, off, Encode(cs)) && off + |Encode(cs)| == |data|
    ensures Follow(data, off, ItemsOf(cs))
    decreases |cs|
  {
    if cs != [] {
      var piece, tail := EncodeItem(cs[0]), Encode(cs[1..]);
      AtSplit(data, off, piece, tail);
      NextOfEncoded(data, off, cs[0]);
      EncodedFollow(data, off + |piece|, cs[1..]);
      assert ItemsOf(cs)[1..] == ItemsOf(cs[1..]);
    }
  }

  /** Encoding any item list in any mix of the three length forms parses back. */
  lemma {:induction false} EncodeRoundTrip(cs: seq<Coded>)
    requires AllFit(cs)
    ensures Items(Encode(cs)) == Ok(ItemsOf(cs))
  {
    EncodedFollow(Encode(cs), 0, cs);
    FollowingItems(Encode(cs), 0, ItemsOf(cs));
  }

  /**
   The round trip of both readers: on any item list, encoded in any mix of the
   three length forms, the lookup finds the first value of a tag, and the parse
   accepts exactly the complete lists and returns the last values.
   */
  lemma {:induction false} ReadersRoundTrip(cs: seq<Coded>, tag: Byte)
    requires AllFit(cs)
    ensures Find(Encode(cs), tag) == First(ItemsOf(cs), tag)
    ensures Parse(Encode(cs)).Ok? <==> Complete(ItemsOf(cs))
    ensures Parse(Encode(cs)).Ok? ==> Parse(Encode(cs)).value == KekOf(ItemsOf(cs))
  {
    EncodeRoundTrip(cs);
    FindIsFirst(Encode(cs), tag, 0);
    ParseExact(Encode(cs));
  }

  /** A wrapped key as it is stored: the key, the count as n big-endian bytes, and the salt. */
  function PrintKek(key: seq<Byte>, count: nat, n: nat, salt: seq<Byte>, a: Form, b: Form, c: Form): seq<Coded> {
    [Coded(Tlv(0x83, key), a), Coded(Tlv(0x84, BeBytes(count, n)), b), Coded(Tlv(0x85, salt), c)]
  }

  lemma {:induction false} KekItems(cs: seq<Coded>, a: Tlv, b: Tlv, c: Tlv)
    requires |cs| == 3 && cs[0].item == a && cs[1].item == b && cs[2].item == c
    ensures ItemsOf(cs) == [a, b, c]
    ensures Fits(cs[0].form, |a.value|) && Fits(cs[1].form, |b.value|) && Fits(cs[2].form, |c.value|) ==> AllFit(cs)
  {
    var c1, c2 := cs[1..], cs[2..];
    assert c1[1..] == c2 && c2[1..] == [];
    assert ItemsOf(c2) == [c];
    assert ItemsOf(c1) == [b, c];
    assert AllFit(c2) <==> Fits(cs[2].form, |c.value|);
  }

  lemma {:induction false} KekComplete(a: Tlv, b: Tlv, c: Tlv)
    requires a.tag == 0x83 && b.tag == 0x84 && c.tag == 0x85 && |a.value| == 40 && 1 <= |b.value| <= 8 && |c.value| == 16
    ensures Complete([a, b, c]) && KekOf([a, b, c]) == WrappedKek(a.value, Clamp(BeVal(b.value)), c.value)
  {
    var s0, s1, s2, s3: seq<Tlv> := [a, b, c], [b, c], [c], [];
    assert s0[1..] == s1 && s1[1..] == s2 && s2[1..] == s3;
    assert AllSized(s2) && AllSized(s1);
    assert Last(s2, TAG_SALT) == Some(c.value) && Last(s1, TAG_SALT) == Some(c.value);
    assert Last(s2, TAG_ITERATIONS) == None && Last(s1, TAG_ITERATIONS) == Some(b.value);
    assert Last(s2, TAG_WRAPPED_KEY) == None && Last(s1, TAG_WRAPPED_KEY) == None;
  }

  /** A stored wrapped key parses back: key, count and salt, in any length forms; a count past 32 bits is cut to the largest. */
  lemma {:induction false} KekRoundTrip(key: seq<Byte>, count: nat, n: nat, salt: seq<Byte>, a: Form, b: Form, c: Form)
    requires |key| == 40 && 1 <= n <= 8 && count < Pow256(n) && |salt| == 16
    ensures AllFit(PrintKek(key, count, n, salt, a, b, c))
    ensures Parse(Encode(PrintKek(key, count, n, salt, a, b, c))) ==
            Ok(WrappedKek(key, if count <= 0xffff_ffff then count else 0xffff_ffff, salt))
  {
    var cs := PrintKek(key, count, n, salt, a, b, c);
    BeRoundTrip(count, n);
    KekItems(cs, cs[0].item, cs[1].item, cs[2].item);
    KekComplete(cs[0].item, cs[1].item, cs[2].item);
    ReadersRoundTrip(cs, 0x83);
  }

  /** A key, another key, a count and a salt. */
  function TwoKeys(first: seq<Byte>, second: seq<Byte>, count: seq<Byte>, salt: seq<Byte>): seq<Coded> {
    [Coded(Tlv(TAG_WRAPPED_KEY, first), Short), Coded(Tlv(TAG_WRAPPED_KEY, second), Short),
     Coded(Tlv(TAG_ITERATIONS, count), Short), Coded(Tlv(TAG_SALT, salt), Short)]
  }

  lemma {:induction false} TwoKeysItems(cs: seq<Coded>, a: Tlv, b: Tlv, c: Tlv, d: Tlv)
    requires |cs| == 4 && cs[0].item == a && cs[1].item == b && cs[2].item == c && cs[3].item == d
    ensures ItemsOf(cs) == [a, b, c, d]
  {
    var c1, c2, c3 := cs[1..], cs[2..], cs[3..];
    assert c1[1..] == c2 && c2[1..] == c3 && c3[1..] == [];
    assert ItemsOf(c3) == [d];
    assert ItemsOf(c2) == [c, d];
    assert ItemsOf(c1) == [b, c, d];
  }

  lemma {:induction false} TwoKeysComplete(a: Tlv, b: Tlv, c: Tlv, d: Tlv)
    requires a.tag == TAG_WRAPPED_KEY && b.tag == TAG_WRAPPED_KEY && c.tag == TAG_ITERATIONS && d.tag == TAG_SALT
    requires SizeOk(a) && SizeOk(b) && SizeOk(c) && SizeOk(d)
    ensures Complete([a, b, c, d]) && KekOf([a, b, c, d]) == WrappedKek(b.value, Clamp(BeVal(c.value)), d.value)
  {
    var s0, s1, s2, s3, s4: seq<Tlv> := [a, b, c, d], [b, c, d], [c, d], [d], [];
    assert s0[1..] == s1 && s1[1..] == s2 && s2[1..] == s3 && s3[1..] == s4;
    assert AllSized(s3) && AllSized(s2) && AllSized(s1);
    assert Last(s3, TAG_SALT) == Some(d.value) && Last(s2, TAG_SALT) == Some(d.value) && Last(s1, TAG_SALT) == Some(d.value);
    assert Last(s3, TAG_ITERATIONS) == None && Last(s2, TAG_ITERATIONS) == Some(c.value) && Last(s1, TAG_ITERATIONS) == Some(c.value);
    assert Last(s3, TAG_WRAPPED_KEY) == None && Last(s2, TAG_WRAPPED_KEY) == None && Last(s1, TAG_WRAPPED_KEY) == Some(b.value);
  }

  /** A blob with two different keys: the parse returns the second, the lookup the first. */
  lemma {:induction false} ReadersDisagree(first: seq<Byte>, second: seq<Byte>, count: seq<Byte>, salt: seq<Byte>)
    requires |first| == |second| == WRAPPED_KEY_LEN && first != second && 1 <= |count| <= 8 && |salt| == SALT_LEN
    ensures AllFit(TwoKeys(first, second, count, salt))
    ensures var data := Encode(TwoKeys(first, second, count, salt));
            && Parse(data) == Ok(WrappedKek(second, Clamp(BeVal(count)), salt))
            && Find(data, TAG_WRAPPED_KEY) == Some(first)
            && Find(data, TAG_WRAPPED_KEY) != Some(Parse(data).value.wrappedKey)
  {
    var cs := TwoKeys(first, second, count, salt);
    assert AllFit(cs[3..]) && cs[2..][1..] == cs[3..] && cs[1..][1..] == cs[2..];
    assert AllFit(cs[2..]) && AllFit(cs[1..]);
    TwoKeysItems(cs, cs[0].item, cs[1].item, cs[2].item, cs[3].item);
    TwoKeysComplete(cs[0].item, cs[1].item, cs[2].item, cs[3].item);
    ReadersRoundTrip(cs, TAG_WRAPPED_KEY);
  }
}

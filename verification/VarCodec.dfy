/**
  The bytes of a GBT_VARKEY: one or two varlena values behind a varlena header,
  the second one int-aligned, and the union methods that build such keys.
 */
module VarCodec {
  import opened Text
  import opened ByteOrder
  import opened Wrappers
  import opened VarKey
  import opened RangeKey

  const VARHDRSZ := 4

  // Values whose key fits the 30-bit length field of a varlena header with room to spare.
  predicate Small(v: Bytes) {
    |v| < 0x1000_0000
  }

  function IntAlign(n: nat): (r: nat)
    ensures n <= r <= n + 3 && r % 4 == 0
  {
    (n + 3) / 4 * 4
  }

  // The four header bytes for a total length of n: n << 2, little-endian.
  function Header(n: nat): (h: Bytes)
    requires n < 0x4000_0000
    ensures |h| == VARHDRSZ && SizeOf(h) == n
    ensures h[0] as int + 0x100 * h[1] as int + 0x1_0000 * h[2] as int + 0x100_0000 * h[3] as int == 4 * n
  {
    var w0 := 4 * n;
    var w1 := w0 / 256;
    var w2 := w1 / 256;
    var w3 := w2 / 256;
    assert w0 == 256 * w1 + w0 % 256 && w1 == 256 * w2 + w1 % 256 && w2 == 256 * w3 + w2 % 256;
    [w0 % 256, w1 % 256, w2 % 256, w3]
  }

  function SizeOf(h: Bytes): nat
    requires |h| == VARHDRSZ
  {
    var w3 := h[3] as int;
    var w2 := h[2] as int + 256 * w3;
    var w1 := h[1] as int + 256 * w2;
    (h[0] as int + 256 * w1) / 4
  }

  function SizeAt(mem: Bytes, off: nat): nat
    requires off + VARHDRSZ <= |mem|
  {
    SizeOf(mem[off..off + VARHDRSZ])
  }

  // A varlena value of payload v starts at off.
  ghost predicate ValueAt(mem: Bytes, off: nat, v: Bytes) {
    && off + VARHDRSZ + |v| <= |mem|
    && SizeAt(mem, off) == |v| + VARHDRSZ
    && mem[off + VARHDRSZ..off + VARHDRSZ + |v|] == v
  }

  /* Reading */

  // `leaf` says that both pointers of GBT_VARKEY_R are the same.
  datatype Readable = Readable(range: ByteRange, leaf: bool)

  predicate WellFormed(k: Bytes) {
    && |k| >= 2 * VARHDRSZ && SizeAt(k, 0) == |k|
    && SizeAt(k, VARHDRSZ) >= VARHDRSZ
    && VARHDRSZ + SizeAt(k, VARHDRSZ) <= |k|
    && (VARHDRSZ + SizeAt(k, VARHDRSZ) < |k| ==>
          var off := VARHDRSZ + IntAlign(SizeAt(k, VARHDRSZ));
          off + VARHDRSZ <= |k| && SizeAt(k, off) >= VARHDRSZ && off + SizeAt(k, off) <= |k|)
  }

  function KeyReadable(k: Bytes): Readable
    requires WellFormed(k)
  {
    var size := SizeAt(k, VARHDRSZ);
    var lower := k[2 * VARHDRSZ..VARHDRSZ + size];
    if SizeAt(k, 0) > VARHDRSZ + size then
      var off := VARHDRSZ + IntAlign(size);
      Readable(Range(lower, k[off + VARHDRSZ..off + SizeAt(k, off)]), false)
    else
      Readable(Range(lower, lower), true)
  }

  lemma LeafFormReads(k: Bytes, v: Bytes)
    requires |k| >= VARHDRSZ && SizeAt(k, 0) == |k| == 2 * VARHDRSZ + |v| && ValueAt(k, VARHDRSZ, v)
    ensures WellFormed(k) && KeyReadable(k) == Readable(Range(v, v), true)
  {
  }

  lemma NodeFormReads(k: Bytes, lower: Bytes, upper: Bytes)
    requires |k| >= VARHDRSZ && SizeAt(k, 0) == |k| == 2 * VARHDRSZ + IntAlign(|lower| + VARHDRSZ) + |upper|
    requires ValueAt(k, VARHDRSZ, lower)
    requires ValueAt(k, VARHDRSZ + IntAlign(|lower| + VARHDRSZ), upper)
    ensures WellFormed(k) && KeyReadable(k) == Readable(Range(lower, upper), false)
  {
  }

  /* Writing */

  method MemCpy(dst: array<byte>, off: nat, src: Bytes)
    requires off + |src| <= dst.Length
    modifies dst
    ensures dst[off..off + |src|] == src
    ensures forall i | 0 <= i < off || off + |src| <= i < dst.Length :: dst[i] == old(dst[i])
  {
    var i := 0;
    while i < |src|
      invariant 0 <= i <= |src|
      invariant forall j | 0 <= j < i :: dst[off + j] == src[j]
      invariant forall j | 0 <= j < off || off + i <= j < dst.Length :: dst[j] == old(dst[j])
    {
      dst[off + i] := src[i];
      i := i + 1;
    }
  }

  // A varlena value: header and payload.
  method PutValue(dst: array<byte>, off: nat, v: Bytes)
    requires Small(v) && off + VARHDRSZ + |v| <= dst.Length
    modifies dst
    ensures ValueAt(dst[..], off, v)
    ensures forall i | 0 <= i < off || off + VARHDRSZ + |v| <= i < dst.Length :: dst[i] == old(dst[i])
  {
    var h := Header(|v| + VARHDRSZ);
    MemCpy(dst, off, h);
    MemCpy(dst, off + VARHDRSZ, v);
    assert dst[..][off..off + VARHDRSZ] == h;
    assert dst[..][off + VARHDRSZ..off + VARHDRSZ + |v|] == v;
  }

  lemma ValueKept(before: Bytes, after: Bytes, off: nat, v: Bytes)
    requires ValueAt(before, off, v) && |before| == |after|
    requires forall i | off <= i < off + VARHDRSZ + |v| :: after[i] == before[i]
    ensures ValueAt(after, off, v)
  {
    assert after[off..off + VARHDRSZ] == before[off..off + VARHDRSZ];
    assert after[off + VARHDRSZ..off + VARHDRSZ + |v|] == v;
  }

  method PutNode(lower: Bytes, upper: Bytes) returns (r: Bytes)
    requires Small(lower) && Small(upper)
    ensures WellFormed(r) && KeyReadable(r) == Readable(Range(lower, upper), false)
    ensures |r| == 2 * VARHDRSZ + IntAlign(|lower| + VARHDRSZ) + |upper|
  {
    var second := VARHDRSZ + IntAlign(|lower| + VARHDRSZ);
    var size := second + VARHDRSZ + |upper|;
    var k := new byte[size];
    PutValue(k, VARHDRSZ, lower);
    ghost var afterLower := k[..];
    PutValue(k, second, upper);
    ValueKept(afterLower, k[..], VARHDRSZ, lower);
    ghost var afterUpper := k[..];
    MemCpy(k, 0, Header(size));
    ValueKept(afterUpper, k[..], VARHDRSZ, lower);
    ValueKept(afterUpper, k[..], second, upper);
    assert k[..][0..VARHDRSZ] == k[0..VARHDRSZ];
    NodeFormReads(k[..], lower, upper);
    r := k[..];
  }

  // `same` says that u->lower and u->upper are the same pointer.
  method KeyCopy(u: ByteRange, same: bool, forceNode: bool) returns (r: Bytes)
    requires Small(u.lower) && Small(u.upper) && (same ==> u.lower == u.upper)
    ensures WellFormed(r) && KeyReadable(r) == Readable(u, same && !forceNode)
    ensures |r| == if same && !forceNode then 2 * VARHDRSZ + |u.lower|
                   else 2 * VARHDRSZ + IntAlign(|u.lower| + VARHDRSZ) + |u.upper|
  {
    if same && !forceNode {
      var size := 2 * VARHDRSZ + |u.lower|;
      var k := new byte[size];
      PutValue(k, VARHDRSZ, u.lower);
      ghost var before := k[..];
      MemCpy(k, 0, Header(size));
      ValueKept(before, k[..], VARHDRSZ, u.lower);
      assert k[..][0..VARHDRSZ] == k[0..VARHDRSZ];
      LeafFormReads(k[..], u.lower);
      r := k[..];
    } else {
      r := PutNode(u.lower, u.upper);
    }
  }

  method NodeTruncate(node: Bytes, cpfLength: nat) returns (out: Bytes)
    requires WellFormed(node) && Small(KeyReadable(node).range.lower) && Small(KeyReadable(node).range.upper)
    ensures WellFormed(out) && KeyReadable(out) == Readable(Cut(KeyReadable(node).range, cpfLength + 1), false)
  {
    var r := KeyReadable(node).range;
    var len1 := if |r.lower| < cpfLength + 1 then |r.lower| else cpfLength + 1;
    var len2 := if |r.upper| < cpfLength + 1 then |r.upper| else cpfLength + 1;
    assert r.lower[..len1] == Take(r.lower, cpfLength + 1) && r.upper[..len2] == Take(r.upper, cpfLength + 1);
    out := PutNode(r.lower[..len1], r.upper[..len2]);
  }

  // Byte-wise, as for every type whose encoding length is not cached.
  method NodeCpLen(node: Bytes) returns (n: nat)
    requires WellFormed(node)
    ensures n == Common(KeyReadable(node).range.lower, KeyReadable(node).range.upper)
  {
    var r := KeyReadable(node).range;
    var ml := if |r.lower| < |r.upper| then |r.lower| else |r.upper|;
    if ml == 0 {
      return 0;
    }
    var i := 0;
    while i < ml
      invariant 0 <= i <= ml
      invariant r.lower[..i] == r.upper[..i]
    {
      if r.lower[i] != r.upper[i] {
        CommonUnique(r.lower, r.upper, i);
        return i;
      }
      i := i + 1;
    }
    CommonUnique(r.lower, r.upper, ml);
    return ml;
  }

  /* Union */

  predicate Usable(k: Bytes) {
    WellFormed(k) && Small(KeyReadable(k).range.lower) && Small(KeyReadable(k).range.upper)
  }

  function RangeOf(k: Bytes): ByteRange
    requires Usable(k)
  {
    KeyReadable(k).range
  }

  // *u is empty before the first entry; later it keeps its old bytes when the entry lies within it.
  method BinUnion(info: TypeInfo, u: Option<Bytes>, e: Bytes) returns (u': Bytes)
    requires (u.Some? ==> Usable(u.value)) && Usable(e)
    ensures Usable(u')
    ensures RangeOf(u') == if u.None? then RangeOf(e) else Widen(info.cmp, RangeOf(u.value), RangeOf(e))
    ensures u.None? || !KeyReadable(u.value).leaf ==> !KeyReadable(u').leaf
  {
    var eo := KeyReadable(e).range;
    if u.None? {
      u' := KeyCopy(eo, false, true);
      return;
    }
    var nr := KeyReadable(u.value).range;
    var update := false;
    if info.cmp(nr.lower, eo.lower) > 0 {
      nr := nr.(lower := eo.lower);
      update := true;
    }
    if info.cmp(nr.upper, eo.upper) < 0 {
      nr := nr.(upper := eo.upper);
      update := true;
    }
    u' := u.value;
    if update {
      u' := KeyCopy(nr, false, true);
    }
  }

  ghost predicate AllUsable(vector: seq<Bytes>) {
    forall i | 0 <= i < |vector| :: Usable(vector[i])
  }

  ghost function RangesOf(vector: seq<Bytes>): (rs: seq<ByteRange>)
    requires AllUsable(vector)
    ensures |rs| == |vector| && forall i | 0 <= i < |rs| :: rs[i] == RangeOf(vector[i])
  {
    seq(|vector|, i requires 0 <= i < |vector| => RangeOf(vector[i]))
  }

  lemma LeafReadsOnce(k: Bytes)
    requires WellFormed(k) && KeyReadable(k).leaf
    ensures KeyReadable(k).range.lower == KeyReadable(k).range.upper
  {
  }

  // The first entry in node form, widened by every other one.
  method HullKey(info: TypeInfo, vector: seq<Bytes>) returns (out: Bytes)
    requires vector != [] && AllUsable(vector)
    ensures Usable(out) && RangeOf(out) == Hull(info.cmp, RangesOf(vector)) && !KeyReadable(out).leaf
  {
    hide WellFormed, KeyReadable, Widen;
    var rk := KeyReadable(vector[0]);
    if rk.leaf {
      LeafReadsOnce(vector[0]);
    }
    out := KeyCopy(rk.range, rk.leaf, true);
    ghost var rs := RangesOf(vector);
    assert rs[..1] == [rs[0]];
    var i := 1;
    while i < |vector|
      invariant 1 <= i <= |vector|
      invariant Usable(out) && !KeyReadable(out).leaf && RangeOf(out) == Hull(info.cmp, rs[..i])
    {
      assert rs[..i + 1][..i] == rs[..i];
      out := BinUnion(info, Some(out), vector[i]);
      i := i + 1;
    }
    assert rs[..i] == rs;
  }

  method VarUnion(info: TypeInfo, vector: seq<Bytes>) returns (out: Bytes)
    requires vector != [] && AllUsable(vector)
    ensures Usable(out) && RangeOf(out) == Union(info, RangesOf(vector)) && !KeyReadable(out).leaf
  {
    hide WellFormed, KeyReadable, Common, Hull, RangesOf;
    out := HullKey(info, vector);
    if info.trnc {
      var plen := NodeCpLen(out);
      out := NodeTruncate(out, plen + 1);
    }
  }
}

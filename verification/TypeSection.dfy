/** Byte order and layout of the type section, on sequences of words. */
module TypeSectionSpec {
  import opened Words
  import opened BtfRecords
  import opened TypedRecords

  /** bswap_32 */
  function Bswap32(w: u32): u32 {
    var q1 := w / 0x100;
    var q2 := q1 / 0x100;
    (w % 0x100) * 0x100_0000 + (q1 % 0x100) * 0x1_0000 + (q2 % 0x100) * 0x100 + q2 / 0x100
  }

  lemma Bswap32Bytes(b0: int, b1: int, b2: int, b3: int)
    requires 0 <= b0 < 0x100 && 0 <= b1 < 0x100 && 0 <= b2 < 0x100 && 0 <= b3 < 0x100
    ensures Bswap32(b3 * 0x100_0000 + b2 * 0x1_0000 + b1 * 0x100 + b0)
         == b0 * 0x100_0000 + b1 * 0x1_0000 + b2 * 0x100 + b3
  {
    var w := b3 * 0x100_0000 + b2 * 0x1_0000 + b1 * 0x100 + b0;
    var q1 := w / 0x100;
    assert q1 == b3 * 0x1_0000 + b2 * 0x100 + b1;
    assert q1 / 0x100 == b3 * 0x100 + b2;
  }

  /** Swapping the bytes of a word twice gives the word back. */
  lemma Bswap32Twice(w: u32)
    ensures Bswap32(Bswap32(w)) == w
  {
    var q1 := w / 0x100;
    var q2 := q1 / 0x100;
    var b0, b1, b2, b3 := w % 0x100, q1 % 0x100, q2 % 0x100, q2 / 0x100;
    assert w == b3 * 0x100_0000 + b2 * 0x1_0000 + b1 * 0x100 + b0;
    Bswap32Bytes(b0, b1, b2, b3);
    Bswap32Bytes(b3, b2, b1, b0);
  }

  function BswapAll(s: seq<u32>): (t: seq<u32>)
    ensures |t| == |s| && forall i :: 0 <= i < |s| ==> t[i] == Bswap32(s[i])
  {
    seq(|s|, i requires 0 <= i < |s| => Bswap32(s[i]))
  }

  lemma BswapAllTwice(s: seq<u32>)
    ensures BswapAll(BswapAll(s)) == s
  {
    forall i | 0 <= i < |s|
      ensures BswapAll(BswapAll(s))[i] == s[i]
    {
      Bswap32Twice(s[i]);
    }
  }

  /** The section as seen by a host of the other byte order, if `swapped`. */
  function Native(s: seq<u32>, swapped: bool): (t: seq<u32>)
    ensures |t| == |s|
  {
    if swapped then BswapAll(s) else s
  }

  /** The records that make up a section in native byte order; None if it is malformed. */
  function Parse(s: seq<u32>): Option<seq<Record>>
    decreases |s|
  {
    if |s| < BASE then
      if s == [] then Some([]) else None
    else
      match TrailingWords(s[1])
      case None => None
      case Some(n) =>
        if BASE + n > |s| then None
        else Prepend([s[..BASE + n]], Parse(s[BASE + n..]))
  }

  function Prepend(recs: seq<Record>, o: Option<seq<Record>>): Option<seq<Record>> {
    match o
    case None => None
    case Some(rest) => Some(recs + rest)
  }

  /** What parses is exactly the concatenation of the parsed records. */
  lemma {:induction false} ParseSound(s: seq<u32>)
    ensures Parse(s).Some? ==>
              Flatten(Parse(s).value) == s && forall i :: 0 <= i < |Parse(s).value| ==> WellSized(Parse(s).value[i])
    decreases |s|
  {
    if |s| >= BASE && TrailingWords(s[1]).Some? && BASE + TrailingWords(s[1]).value <= |s| {
      var n := BASE + TrailingWords(s[1]).value;
      ParseSound(s[n..]);
      if Parse(s[n..]).Some? {
        ConsSound(s, n, Parse(s[n..]).value);
      }
    }
  }

  lemma ConsSound(s: seq<u32>, n: nat, rest: seq<Record>)
    requires n <= |s| && WellSized(s[..n]) && Flatten(rest) == s[n..]
    requires forall i :: 0 <= i < |rest| ==> WellSized(rest[i])
    ensures Flatten([s[..n]] + rest) == s
    ensures forall i :: 0 <= i < |[s[..n]] + rest| ==> WellSized(([s[..n]] + rest)[i])
  {
    hide Flatten, WellSized;
    FlattenCons(s[..n], rest);
    assert s == s[..n] + s[n..];
  }

  /** Any sequence of well-sized records, laid end to end, parses back to those records. */
  lemma {:induction false} ParseComplete(recs: seq<Record>)
    requires forall i :: 0 <= i < |recs| ==> WellSized(recs[i])
    ensures Parse(Flatten(recs)) == Some(recs)
  {
    if recs != [] {
      hide Flatten, TrailingWords;
      var r, rest := recs[0], recs[1..];
      assert recs == [r] + rest;
      FlattenCons(r, rest);
      ParseComplete(rest);
      var s := r + Flatten(rest);
      assert s[..|r|] == r && s[|r|..] == Flatten(rest);
    }
  }

  /** A section is a concatenation of well-sized records in at most one way. */
  lemma LayoutUnique(a: seq<Record>, b: seq<Record>)
    requires forall i :: 0 <= i < |a| ==> WellSized(a[i])
    requires forall i :: 0 <= i < |b| ==> WellSized(b[i])
    requires Flatten(a) == Flatten(b)
    ensures a == b
  {
    ParseComplete(a);
    ParseComplete(b);
  }

  /** Swapping a section for the other byte order and parsing it there gives the same records. */
  lemma SwapRoundTrip(recs: seq<Record>)
    requires forall i :: 0 <= i < |recs| ==> WellSized(recs[i])
    ensures Native(BswapAll(Flatten(recs)), true) == Flatten(recs)
    ensures Parse(Native(BswapAll(Flatten(recs)), true)) == Some(recs)
  {
    BswapAllTwice(Flatten(recs));
    ParseComplete(recs);
  }

  /** The records of a list of types, with any bits where their kinds use none. */
  function EncodeAll(ts: seq<BtfType>, unused: seq<u32>): (recs: seq<Record>)
    requires |ts| == |unused| && forall i :: 0 <= i < |ts| ==> ts[i].Proper()
    ensures |recs| == |ts| && forall i :: 0 <= i < |ts| ==> recs[i] == Encode(ts[i], unused[i])
  {
    seq(|ts|, i requires 0 <= i < |ts| => Encode(ts[i], unused[i]))
  }

  /** Types laid out end to end, in either byte order, parse to exactly their records. */
  lemma TypesParse(ts: seq<BtfType>, unused: seq<u32>, swapped: bool)
    requires |ts| == |unused| && forall i :: 0 <= i < |ts| ==> ts[i].Proper()
    ensures var recs := EncodeAll(ts, unused);
            var written := if swapped then BswapAll(Flatten(recs)) else Flatten(recs);
            Parse(Native(written, swapped)) == Some(recs)
  {
    var recs := EncodeAll(ts, unused);
    hide Encode, Info, Parse, Flatten, WellSized;
    forall i | 0 <= i < |recs|
      ensures WellSized(recs[i])
    {
      EncodeSized(ts[i], unused[i]);
    }
    SwapRoundTrip(recs);
    ParseComplete(recs);
  }

  /** A section parses to `recs` exactly if it is `recs` end to end, and each of them is the record of a type. */
  lemma ParsesExactly(s: seq<u32>, recs: seq<Record>)
    ensures Parse(s) == Some(recs) <==> Flatten(recs) == s && forall i :: 0 <= i < |recs| ==> Typed(recs[i])
  {
    hide Flatten, WellSized, Parse, Typed;
    forall i | 0 <= i < |recs|
      ensures Typed(recs[i]) <==> WellSized(recs[i])
    {
      TypedIsSized(recs[i]);
    }
    ParseSound(s);
    if Flatten(recs) == s && forall i :: 0 <= i < |recs| ==> Typed(recs[i]) {
      ParseComplete(recs);
    }
  }

  // ---------------------------------------------------------------------------
  // Loop states

  /** Words `lo` to `hi` have been swapped, all others are as in `before`. */
  ghost predicate SwappedBetween(before: seq<u32>, after: seq<u32>, lo: nat, hi: nat) {
    && |after| == |before|
    && forall k :: 0 <= k < |before| ==> after[k] == if lo <= k < hi then Bswap32(before[k]) else before[k]
  }

  lemma SwappedStep(before: seq<u32>, after: seq<u32>, lo: nat, hi: nat)
    requires SwappedBetween(before, after, lo, hi) && lo <= hi < |before|
    ensures after[hi] == before[hi]
    ensures SwappedBetween(before, Poke(after, hi, Bswap32(before[hi])), lo, hi + 1)
  {
  }

  lemma SwappedJoin(a: seq<u32>, b: seq<u32>, c: seq<u32>, lo: nat, mid: nat, hi: nat)
    requires SwappedBetween(a, b, mid, hi) && SwappedBetween(b, c, lo, mid) && lo <= mid <= hi
    ensures SwappedBetween(a, c, lo, hi)
  {
  }

  lemma SwappedExtend(a: seq<u32>, b: seq<u32>, c: seq<u32>, lo: nat, mid: nat, hi: nat)
    requires SwappedBetween(a, b, lo, mid) && SwappedBetween(b, c, mid, hi) && lo <= mid <= hi
    ensures SwappedBetween(a, c, lo, hi)
  {
  }

  /** Between two records the memory is native below `p` and still as read above. */
  ghost predicate ParsedUpTo(orig: seq<u32>, mem: seq<u32>, swapped: bool, offs: seq<nat>, recs: seq<Record>, p: nat) {
    var native := Native(orig, swapped);
    && |mem| == |orig| && p <= |orig|
    && native[..p] == Flatten(recs) && |offs| == |recs|
    && (forall k :: 0 <= k < |recs| ==> WellSized(recs[k]) && offs[k] == Offset(recs, k))
    && Parse(native) == Prepend(recs, Parse(native[p..]))
    && (forall k :: 0 <= k < |orig| ==> mem[k] == if k < p then native[k] else orig[k])
  }

  lemma ParsedStart(orig: seq<u32>, swapped: bool)
    ensures ParsedUpTo(orig, orig, swapped, [], [], 0)
  {
    var native := Native(orig, swapped);
    assert native[0..] == native;
    if Parse(native).Some? {
      assert [] + Parse(native).value == Parse(native).value;
    }
  }

  /** What the next record looks like once its words are native. */
  lemma ParsedNext(orig: seq<u32>, mem: seq<u32>, swapped: bool, offs: seq<nat>, recs: seq<Record>, p: nat)
    requires ParsedUpTo(orig, mem, swapped, offs, recs, p)
    ensures var native := Native(orig, swapped);
            var tail := native[p..];
            && (|tail| < BASE ==> Parse(native) == if p == |orig| then Some(recs) else None)
            && (|tail| >= BASE ==>
                  && tail[1] == native[p + 1]
                  && native[p + 1] == (if swapped then Bswap32(mem[p + 1]) else mem[p + 1])
                  && (TrailingWords(native[p + 1]).None? ==> Parse(native).None?)
                  && (TrailingWords(native[p + 1]).Some? && p + BASE + TrailingWords(native[p + 1]).value > |orig| ==>
                        Parse(native).None?))
  {
    assert recs + [] == recs;
  }

  lemma ParseNext(native: seq<u32>, p: nat, n: nat)
    requires p + BASE <= p + n <= |native| && TrailingWords(native[p + 1]) == Some(n - BASE)
    ensures Parse(native[p..]) == Prepend([native[p..p + n]], Parse(native[p + n..]))
  {
    hide Prepend;
    var tail := native[p..];
    assert tail[1] == native[p + 1] && tail[..n] == native[p..p + n] && tail[n..] == native[p + n..];
  }

  lemma ParsedStep(orig: seq<u32>, mem: seq<u32>, mem': seq<u32>, swapped: bool, offs: seq<nat>, recs: seq<Record>,
                   p: nat, n: nat)
    requires ParsedUpTo(orig, mem, swapped, offs, recs, p)
    requires p + BASE <= p + n <= |orig| && TrailingWords(Native(orig, swapped)[p + 1]) == Some(n - BASE)
    requires if swapped then SwappedBetween(mem, mem', p, p + n) else mem' == mem
    ensures var r := Native(orig, swapped)[p..p + n];
            ParsedUpTo(orig, mem', swapped, offs + [p], recs + [r], p + n)
  {
    hide Flatten, BswapAll, Parse, Prepend, Offset;
    var native := Native(orig, swapped);
    var r := native[p..p + n];
    assert native[..p + n] == native[..p] + r;
    FlattenSnoc(recs, r);
    ParseNext(native, p, n);
    PrependTwice(recs, [r], Parse(native[p + n..]));
    ParsedOffsets(native, offs, recs, r, p);
  }

  lemma PrependTwice(a: seq<Record>, b: seq<Record>, o: Option<seq<Record>>)
    ensures Prepend(a, Prepend(b, o)) == Prepend(a + b, o)
  {
    if o.Some? {
      assert a + (b + o.value) == (a + b) + o.value;
    }
  }

  lemma ParsedOffsets(native: seq<u32>, offs: seq<nat>, recs: seq<Record>, r: Record, p: nat)
    requires p <= |native| && native[..p] == Flatten(recs) && |offs| == |recs|
    requires forall k :: 0 <= k < |recs| ==> offs[k] == Offset(recs, k)
    ensures forall k :: 0 <= k < |recs| + 1 ==> (offs + [p])[k] == Offset(recs + [r], k)
  {
    forall k | 0 <= k < |recs| + 1
      ensures (offs + [p])[k] == Offset(recs + [r], k)
    {
      assert (recs + [r])[..k] == recs[..k];
      assert recs[..|recs|] == recs;
    }
  }

  lemma ParsedEnd(orig: seq<u32>, mem: seq<u32>, swapped: bool, offs: seq<nat>, recs: seq<Record>)
    requires ParsedUpTo(orig, mem, swapped, offs, recs, |orig|)
    ensures mem == Native(orig, swapped) && |offs| == |recs| && Represents(mem, |mem|, offs, recs)
    ensures Parse(Native(orig, swapped)) == Some(recs)
  {
    var native := Native(orig, swapped);
    assert native[..|orig|] == native && native[|orig|..] == [];
    assert recs + [] == recs;
    assert mem[..|mem|] == mem;
  }
}

/** Writing the type section for, and reading it from, either byte order. */
module TypeSection {
  import opened Words
  import opened BtfRecords
  import opened BtfObject
  import opened TypeSectionSpec

  method SwapWord(a: array<u32>, i: nat)
    requires i < a.Length
    modifies a
    ensures a[..] == Poke(old(a[..]), i, Bswap32(old(a[i])))
  {
    a[i] := Bswap32(a[i]);
  }

  /** btf_bswap_type_base */
  method BswapTypeBase(a: array<u32>, t: nat)
    requires t + BASE <= a.Length
    modifies a
    ensures SwappedBetween(old(a[..]), a[..], t, t + BASE)
  {
    SwapWord(a, t);
    SwapWord(a, t + 1);
    SwapWord(a, t + 2);
  }

  /** Swaps `cnt` trailing structures of `sz` words each, one word after the other. */
  method SwapMembers(a: array<u32>, t: nat, cnt: nat, sz: nat)
    requires 1 <= sz <= 3 && t + sz * cnt <= a.Length
    modifies a
    ensures SwappedBetween(old(a[..]), a[..], t, t + sz * cnt)
  {
    ghost var before := a[..];
    var m := t;
    for i := 0 to cnt
      invariant m == t + sz * i && SwappedBetween(before, a[..], t, m)
    {
      assert sz * (i + 1) == sz * i + sz <= sz * cnt;
      SwappedStep(before, a[..], t, m);
      SwapWord(a, m);
      if sz > 1 {
        SwappedStep(before, a[..], t, m + 1);
        SwapWord(a, m + 1);
      }
      if sz > 2 {
        SwappedStep(before, a[..], t, m + 2);
        SwapWord(a, m + 2);
      }
      m := m + sz;
    }
  }

  /** btf_bswap_type_rest: relies on the header being in native byte order. */
  method BswapTypeRest(a: array<u32>, t: nat) returns (r: Status)
    requires t + BASE <= a.Length
    requires TrailingWords(a[t + 1]).Some? ==> t + BASE + TrailingWords(a[t + 1]).value <= a.Length
    modifies a
    ensures r == if TrailingWords(old(a[t + 1])).Some? then Ok else Err(EINVAL)
    ensures r.Ok? ==> SwappedBetween(old(a[..]), a[..], t + BASE, t + BASE + TrailingWords(old(a[t + 1])).value)
  {
    hide SwappedBetween, KindOf, VlenOf;
    var k, vlen := KindOf(a[t + 1]), VlenOf(a[t + 1]);
    r := Ok;
    if k == BTF_KIND_FWD || IsModKind(k) || k == BTF_KIND_PTR || k == BTF_KIND_TYPEDEF ||
       k == BTF_KIND_FUNC || k == BTF_KIND_FLOAT || k == BTF_KIND_TYPE_TAG {
      SwappedNothing(a[..], t + BASE);
    } else if k == BTF_KIND_INT || k == BTF_KIND_VAR || k == BTF_KIND_DECL_TAG {
      SwapMembers(a, t + BASE, 1, 1);
    } else if k == BTF_KIND_ENUM || k == BTF_KIND_FUNC_PROTO {
      SwapMembers(a, t + BASE, vlen, 2);
    } else if k == BTF_KIND_ENUM64 || IsCompositeKind(k) || k == BTF_KIND_DATASEC {
      SwapMembers(a, t + BASE, vlen, 3);
    } else if k == BTF_KIND_ARRAY {
      SwapMembers(a, t + BASE, 1, 3);
    } else {
      return Err(EINVAL);
    }
  }

  /** Swaps one native record: the rest first, while its header is still readable. */
  method SwapOut(a: array<u32>, t: nat)
    requires t + BASE <= a.Length
    requires TrailingWords(a[t + 1]).Some? && t + BASE + TrailingWords(a[t + 1]).value <= a.Length
    modifies a
    ensures SwappedBetween(old(a[..]), a[..], t, t + BASE + TrailingWords(old(a[t + 1])).value)
  {
    hide SwappedBetween, TrailingWords;
    ghost var s0, n := a[..], TrailingWords(a[t + 1]).value;
    var err := BswapTypeRest(a, t);
    ghost var s1 := a[..];
    BswapTypeBase(a, t);
    SwappedJoin(s0, s1, a[..], t, t + BASE, t + BASE + n);
  }

  method CopyTypes(btf: Btf) returns (data: array<u32>)
    requires btf.Valid()
    ensures fresh(data) && data[..] == Flatten(btf.recs)
  {
    hide Flatten, WellSized;
    var n := btf.typeLen;
    data := new u32[n](_ => 0);
    MemCpy(data, 0, btf.types, 0, n);
    assert data[..] == btf.types[..][0..n] == btf.types[..][..n];
  }

  /** Swaps every record of a native copy of the section. */
  method SwapTypes(btf: Btf, data: array<u32>)
    requires btf.Valid() && data != btf.types && data[..] == Flatten(btf.recs)
    modifies data
    ensures data[..] == BswapAll(Flatten(btf.recs))
  {
    hide Represents, SwappedBetween, WellSized, Flatten, TrailingWords, BswapAll;
    ghost var mem, offs, R := btf.types[..], btf.offs[..], btf.recs;
    ghost var native := Flatten(R);
    RepresentsSized(mem, btf.typeLen, offs, R);
    SwappedStart(native, R);
    for i := 0 to btf.nrTypes
      invariant SwappedBetween(native, data[..], 0, Offset(R, i))
    {
      ghost var before := data[..];
      OffsetStep(mem, btf.typeLen, offs, R, native, before, i);
      SwapOut(data, btf.offs[i]);
      SwappedExtend(native, before, data[..], 0, Offset(R, i), Offset(R, i + 1));
    }
    SwappedWhole(native, data[..], R);
  }

  /** The type section part of btf_get_raw_data: a copy, in the other byte order if asked. */
  method RawTypes(btf: Btf, swapEndian: bool) returns (data: array<u32>)
    requires btf.Valid()
    ensures fresh(data) && data[..] == Native(Flatten(btf.recs), swapEndian)
  {
    hide Represents, Flatten, BswapAll;
    data := CopyTypes(btf);
    if swapEndian {
      SwapTypes(btf, data);
    }
  }

  /**
   * Brings the record at `p` into native byte order, base first, so that its header can be read.
   * Returns its size, or None for an unknown kind or a record that does not fit.
   */
  method SwapIn(data: array<u32>, p: nat, swapped: bool) returns (size: Option<nat>)
    requires p + BASE <= data.Length
    modifies data
    ensures var info := old(if swapped then Bswap32(data[p + 1]) else data[p + 1]);
            && (size.None? <==> TrailingWords(info).None? || p + BASE + TrailingWords(info).value > data.Length)
            && (size.Some? ==> TrailingWords(info) == Some(size.value - BASE))
    ensures size.Some? ==> BASE <= size.value && p + size.value <= data.Length
    ensures size.Some? && swapped ==> SwappedBetween(old(data[..]), data[..], p, p + size.value)
    ensures size.Some? && !swapped ==> data[..] == old(data[..])
  {
    hide TrailingWords;
    ghost var s0 := data[..];
    if swapped {
      BswapTypeBase(data, p);
    }
    ghost var s1 := data[..];
    assert s1[p + 1] == data[p + 1];
    var n := TrailingWords(data[p + 1]);
    if n.None? {
      return None;
    }
    if p + BASE + n.value > data.Length {
      return None;
    }
    if swapped {
      var err := BswapTypeRest(data, p);
      SwappedExtend(s0, s1, data[..], p, p + BASE, p + BASE + n.value);
    }
    size := Some(BASE + n.value);
  }

  /** btf_parse_type_sec; the offsets it returns are the offset index it builds. */
  method ParseTypeSec(data: array<u32>, swapped: bool) returns (r: Status, offs: seq<nat>, ghost recs: seq<Record>)
    modifies data
    ensures r == if Parse(Native(old(data[..]), swapped)).Some? then Ok else Err(EINVAL)
    ensures r.Ok? ==> data[..] == Native(old(data[..]), swapped)
    ensures r.Ok? ==> Parse(data[..]) == Some(recs) && |offs| == |recs|
    ensures r.Ok? ==> Represents(data[..], data.Length, offs, recs)
  {
    hide ParsedUpTo, TrailingWords, Represents, Native, Parse, SwappedBetween, Flatten;
    ghost var orig := data[..];
    ghost var native := Native(orig, swapped);
    offs, recs := [], [];
    var p: nat := 0;
    ParsedStart(orig, swapped);
    while p + BASE <= data.Length
      invariant p <= data.Length && ParsedUpTo(orig, data[..], swapped, offs, recs, p)
    {
      ghost var before := data[..];
      ParsedNext(orig, before, swapped, offs, recs, p);
      var size := SwapIn(data, p, swapped);
      if size.None? {
        return Err(EINVAL), offs, recs;
      }
      ParsedStep(orig, before, data[..], swapped, offs, recs, p, size.value);
      offs, recs := offs + [p], recs + [native[p..p + size.value]];
      p := p + size.value;
    }
    ParsedNext(orig, data[..], swapped, offs, recs, p);
    if p != data.Length {
      return Err(EINVAL), offs, recs;
    }
    ParsedEnd(orig, data[..], swapped, offs, recs);
    r := Ok;
  }

  /** Writing the section out in either byte order and reading it back restores records and offsets. */
  method RoundTrip(btf: Btf, swapped: bool) returns (r: Status, data: array<u32>, offs: seq<nat>)
    requires btf.Valid()
    ensures r == Ok && fresh(data) && data[..] == Flatten(btf.recs)
    ensures |offs| == btf.nrTypes && Represents(data[..], data.Length, offs, btf.recs)
  {
    hide Flatten, BswapAll, Parse, Represents, WellSized;
    RepresentsSized(btf.types[..], btf.typeLen, btf.offs[..], btf.recs);
    SwapRoundTrip(btf.recs);
    ParseComplete(btf.recs);
    data := RawTypes(btf, swapped);
    ghost var recs;
    r, offs, recs := ParseTypeSec(data, swapped);
  }

  lemma SwappedStart(native: seq<u32>, R: seq<Record>)
    ensures SwappedBetween(native, native, 0, Offset(R, 0))
  {
  }

  lemma SwappedNothing(s: seq<u32>, t: nat)
    ensures SwappedBetween(s, s, t, t)
  {
  }

  lemma OffsetStep(mem: seq<u32>, len: nat, offs: seq<nat>, R: seq<Record>, native: seq<u32>, data: seq<u32>, i: nat)
    requires Represents(mem, len, offs, R) && native == Flatten(R) && i < |R|
    requires SwappedBetween(native, data, 0, Offset(R, i))
    ensures i < |offs| && offs[i] == Offset(R, i) && |data| == |native|
    ensures offs[i] + BASE <= |data| && data[offs[i] + 1] == R[i][1]
    ensures TrailingWords(R[i][1]) == Some(|R[i]| - BASE)
    ensures Offset(R, i + 1) == offs[i] + |R[i]| <= |data|
  {
    FlattenAt(R, i);
    assert Flatten(R)[offs[i]..offs[i] + |R[i]|][1] == Flatten(R)[offs[i] + 1];
  }

  lemma SwappedWhole(native: seq<u32>, data: seq<u32>, R: seq<Record>)
    requires native == Flatten(R) && SwappedBetween(native, data, 0, Offset(R, |R|))
    ensures data == BswapAll(native)
  {
    assert R[..|R|] == R;
  }
}

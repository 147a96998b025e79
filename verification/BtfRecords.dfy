/** BTF type records as words: kinds, sizes, reference fields and section layout. */
module BtfRecords {
  import opened Words

  const BTF_KIND_UNKN := 0
  const BTF_KIND_INT := 1
  const BTF_KIND_PTR := 2
  const BTF_KIND_ARRAY := 3
  const BTF_KIND_STRUCT := 4
  const BTF_KIND_UNION := 5
  const BTF_KIND_ENUM := 6
  const BTF_KIND_FWD := 7
  const BTF_KIND_TYPEDEF := 8
  const BTF_KIND_VOLATILE := 9
  const BTF_KIND_CONST := 10
  const BTF_KIND_RESTRICT := 11
  const BTF_KIND_FUNC := 12
  const BTF_KIND_FUNC_PROTO := 13
  const BTF_KIND_VAR := 14
  const BTF_KIND_DATASEC := 15
  const BTF_KIND_FLOAT := 16
  const BTF_KIND_DECL_TAG := 17
  const BTF_KIND_TYPE_TAG := 18
  const BTF_KIND_ENUM64 := 19

  const BTF_MAX_NR_TYPES: u32 := 0x7fff_ffff
  const BTF_UNPROCESSED_ID: u32 := 0xffff_ffff

  /** sizeof(struct btf_type), in words: name_off, info, size or type. */
  const BASE := 3

  /** A type record: the three words of `struct btf_type`, then its trailing data. */
  type Record = seq<u32>

  function KindOf(info: u32): nat { (info / 0x100_0000) % 0x20 }

  function VlenOf(info: u32): nat { info % 0x1_0000 }

  function KflagOf(info: u32): bool { info / 0x8000_0000 == 1 }

  function Kind(r: Record): nat
    requires |r| >= BASE
  {
    KindOf(r[1])
  }

  function Vlen(r: Record): nat
    requires |r| >= BASE
  {
    VlenOf(r[1])
  }

  predicate IsModKind(k: nat) {
    k == BTF_KIND_VOLATILE || k == BTF_KIND_CONST || k == BTF_KIND_RESTRICT
  }

  predicate IsCompositeKind(k: nat) {
    k == BTF_KIND_STRUCT || k == BTF_KIND_UNION
  }

  /** Kinds whose only reference is the `type` word of the base. */
  predicate IsTypeRefKind(k: nat) {
    k == BTF_KIND_FWD || k == BTF_KIND_CONST || k == BTF_KIND_VOLATILE || k == BTF_KIND_RESTRICT ||
    k == BTF_KIND_PTR || k == BTF_KIND_TYPEDEF || k == BTF_KIND_FUNC || k == BTF_KIND_VAR ||
    k == BTF_KIND_DECL_TAG || k == BTF_KIND_TYPE_TAG
  }

  /** btf_type_size, less the base; None stands for -EINVAL. */
  function TrailingWords(info: u32): Option<nat> {
    var k, vlen := KindOf(info), VlenOf(info);
    if k == BTF_KIND_FWD || IsModKind(k) || k == BTF_KIND_PTR || k == BTF_KIND_TYPEDEF ||
       k == BTF_KIND_FUNC || k == BTF_KIND_FLOAT || k == BTF_KIND_TYPE_TAG then Some(0)
    else if k == BTF_KIND_INT || k == BTF_KIND_VAR || k == BTF_KIND_DECL_TAG then Some(1)
    else if k == BTF_KIND_ENUM || k == BTF_KIND_FUNC_PROTO then Some(2 * vlen)
    else if k == BTF_KIND_ENUM64 || IsCompositeKind(k) || k == BTF_KIND_DATASEC then Some(3 * vlen)
    else if k == BTF_KIND_ARRAY then Some(3)
    else None
  }

  /** A record of a known kind whose trailing data has the length its header announces. */
  predicate WellSized(r: Record) {
    |r| >= BASE && TrailingWords(r[1]) == Some(|r| - BASE)
  }

  /** Word `i` of a record with this header holds a type id. */
  predicate IsRef(info: u32, i: int) {
    var k, vlen := KindOf(info), VlenOf(info);
    if IsTypeRefKind(k) then i == 2
    else if k == BTF_KIND_ARRAY then i == 3 || i == 4
    else if IsCompositeKind(k) then BASE <= i < BASE + 3 * vlen && (i - BASE) % 3 == 1
    else if k == BTF_KIND_FUNC_PROTO then i == 2 || (BASE <= i < BASE + 2 * vlen && (i - BASE) % 2 == 1)
    else if k == BTF_KIND_DATASEC then BASE <= i < BASE + 3 * vlen && (i - BASE) % 3 == 0
    else false
  }

  lemma RefInside(r: Record, i: int)
    requires WellSized(r) && IsRef(r[1], i)
    ensures 2 <= i < |r|
  {
  }

  lemma WellSizedHasDesc(r: Record)
    requires WellSized(r)
    ensures IdsDesc(KindOf(r[1])).Some?
  {
  }

  /** Every type id that `r` holds is below `n`. */
  ghost predicate RefsBelow(r: Record, n: nat) {
    |r| >= BASE && forall i :: 0 <= i < |r| && IsRef(r[1], i) ==> r[i] < n
  }

  /** `r` with word `i` replaced. */
  function Poke(r: Record, i: nat, w: u32): Record
    requires i < |r|
  {
    r[i := w]
  }

  /** `r` with every type id `t` replaced by `m[t]`. */
  function Rename(r: Record, m: seq<u32>): (s: Record)
    requires RefsBelow(r, |m|)
    ensures |s| == |r| && s[0] == r[0] && s[1] == r[1]
    ensures forall i :: 0 <= i < |r| ==> s[i] == if IsRef(r[1], i) then m[r[i]] else r[i]
  {
    seq(|r|, i requires 0 <= i < |r| => if IsRef(r[1], i) then m[r[i]] else r[i])
  }

  /** State of a reference-rewriting loop: the references below word `done` have been renamed. */
  ghost predicate RenamedUpTo(cur: Record, r: Record, m: seq<u32>, done: nat)
    requires |r| >= BASE
  {
    && |cur| == |r|
    && forall k :: 0 <= k < |r| ==>
         cur[k] == if IsRef(r[1], k) && k < done && r[k] < |m| then m[r[k]] else r[k]
  }

  lemma RenamedStart(r: Record, m: seq<u32>)
    requires |r| >= BASE
    ensures RenamedUpTo(r, r, m, 0)
  {
  }

  lemma RenamedPeek(cur: Record, r: Record, m: seq<u32>, done: nat, pos: nat)
    requires WellSized(r) && RenamedUpTo(cur, r, m, done) && Awaits(r[1], done, Some(pos))
    ensures pos < |r| == |cur| && pos != 1 && cur[pos] == r[pos]
  {
    RefInside(r, pos);
  }

  lemma RefAt(r: Record, n: nat, done: nat, pos: nat)
    requires WellSized(r) && RefsBelow(r, n) && Awaits(r[1], done, Some(pos))
    ensures pos < |r| && r[pos] < n
  {
    RefInside(r, pos);
  }

  lemma RenamedStep(cur: Record, r: Record, m: seq<u32>, done: nat, pos: nat)
    requires WellSized(r) && RenamedUpTo(cur, r, m, done)
    requires Awaits(r[1], done, Some(pos)) && pos < |r| == |cur| && r[pos] < |m|
    ensures RenamedUpTo(Poke(cur, pos, m[r[pos]]), r, m, pos + 1)
  {
  }

  lemma RenamedEnd(cur: Record, r: Record, m: seq<u32>, done: nat)
    requires RefsBelow(r, |m|) && RenamedUpTo(cur, r, m, done)
    requires Awaits(r[1], done, None)
    ensures cur == Rename(r, m)
  {
  }

  // ---------------------------------------------------------------------------
  // The reference-field iterator

  /** btf_field_desc for BTF_FIELD_ITER_IDS, in words. */
  datatype FieldDesc = FieldDesc(tOffs: seq<nat>, mSz: nat, mOff: nat)

  function IdsDesc(k: nat): Option<FieldDesc> {
    if k == BTF_KIND_UNKN || k == BTF_KIND_INT || k == BTF_KIND_FLOAT ||
       k == BTF_KIND_ENUM || k == BTF_KIND_ENUM64 then Some(FieldDesc([], 0, 0))
    else if IsTypeRefKind(k) then Some(FieldDesc([2], 0, 0))
    else if k == BTF_KIND_ARRAY then Some(FieldDesc([BASE, BASE + 1], 0, 0))
    else if IsCompositeKind(k) then Some(FieldDesc([], 3, 1))
    else if k == BTF_KIND_FUNC_PROTO then Some(FieldDesc([2], 2, 1))
    else if k == BTF_KIND_DATASEC then Some(FieldDesc([], 3, 0))
    else None
  }

  /** Word index of the `j`-th member of a record with member size `sz`. */
  function MemberAt(sz: nat, j: nat): nat {
    BASE + if sz == 2 then 2 * j else 3 * j
  }

  /** Between the base references and the members there is no other reference. */
  lemma BaseRefs(info: u32, j: nat)
    requires IdsDesc(KindOf(info)).Some? && j <= |IdsDesc(KindOf(info)).value.tOffs|
    ensures var d := IdsDesc(KindOf(info)).value;
            var from := if j == 0 then 0 else d.tOffs[j - 1] + 1;
            && (j < |d.tOffs| ==>
                  from <= d.tOffs[j] && IsRef(info, d.tOffs[j]) &&
                  forall k :: from <= k < d.tOffs[j] ==> !IsRef(info, k))
            && (j == |d.tOffs| && d.mSz != 0 ==>
                  from <= BASE && forall k :: from <= k < BASE ==> !IsRef(info, k))
            && (j == |d.tOffs| && d.mSz == 0 ==> forall k :: IsRef(info, k) ==> k < from)
  {
  }

  /** Member `j`, if it exists, holds one reference, at the described offset. */
  lemma MemberRefs(info: u32, j: nat)
    requires IdsDesc(KindOf(info)).Some? && IdsDesc(KindOf(info)).value.mSz != 0
    ensures var d := IdsDesc(KindOf(info)).value;
            var from := if j == 0 then BASE else MemberAt(d.mSz, j - 1) + d.mOff + 1;
            && (d.mSz == 2 || d.mSz == 3)
            && (j < VlenOf(info) ==>
                  from <= MemberAt(d.mSz, j) + d.mOff && IsRef(info, MemberAt(d.mSz, j) + d.mOff) &&
                  forall k :: from <= k < MemberAt(d.mSz, j) + d.mOff ==> !IsRef(info, k))
            && (j >= VlenOf(info) ==> forall k :: IsRef(info, k) ==> k < from)
  {
  }

  /** `pos` is the first reference position at or after `done`, if there is one. */
  ghost predicate Awaits(info: u32, done: nat, pos: Option<nat>) {
    match pos
    case Some(p) => done <= p && IsRef(info, p) && forall k :: done <= k < p ==> !IsRef(info, k)
    case None => forall k :: IsRef(info, k) ==> k < done
  }

  lemma AwaitsInside(r: Record, done: nat, pos: Option<nat>)
    requires WellSized(r) && Awaits(r[1], done, pos)
    ensures pos.Some? ==> done <= pos.value < |r| && IsRef(r[1], pos.value)
  {
  }

  /** The cursor of btf_field_iter_init and btf_field_iter_next over one record's type ids. */
  class FieldIter {
    const info: u32
    const desc: FieldDesc
    const vlen: nat
    var live: bool  // it->p is not NULL
    var p: nat      // it->p, as a word index into the record
    var mIdx: int
    var offIdx: nat
    /** Every reference position below this one has been returned. */
    ghost var seen: nat

    ghost predicate Valid()
      reads this
    {
      && IdsDesc(KindOf(info)) == Some(desc)
      && vlen == (if desc.mSz != 0 then VlenOf(info) else 0)
      && (live && mIdx < 0 ==>
            && p == 0 && offIdx <= |desc.tOffs|
            && seen == if offIdx == 0 then 0 else desc.tOffs[offIdx - 1] + 1)
      && (live && mIdx >= 0 ==>
            && 0 < desc.mSz && mIdx < vlen && offIdx == 1
            && p == MemberAt(desc.mSz, mIdx)
            && seen == p + desc.mOff + 1)
      && (!live ==> forall i :: IsRef(info, i) ==> i < seen)
    }

    constructor (info: u32)
      requires IdsDesc(KindOf(info)).Some?
      ensures Valid() && live && this.info == info && seen == 0
    {
      this.info := info;
      desc := IdsDesc(KindOf(info)).value;
      vlen := if IdsDesc(KindOf(info)).value.mSz != 0 then VlenOf(info) else 0;
      live, p, mIdx, offIdx, seen := true, 0, -1, 0, 0;
    }

    /** Returns the reference positions in ascending order, each once, and then None. */
    method Next() returns (r: Option<nat>)
      requires Valid()
      modifies this
      ensures Valid()
      ensures Awaits(info, old(seen), r)
      ensures seen == if r.Some? then r.value + 1 else old(seen)
    {
      hide IsRef, KindOf, VlenOf;
      if !live { return None; }
      if mIdx < 0 {
        BaseRefs(info, offIdx);
        if offIdx < |desc.tOffs| {
          offIdx := offIdx + 1;
          seen := desc.tOffs[offIdx - 1] + 1;
          return Some(desc.tOffs[offIdx - 1]);
        }
        mIdx := 0;
        p := p + BASE;
        offIdx := 0;
      }
      if desc.mSz == 0 {
        live := false;
        return None;
      }
      MemberRefs(info, if offIdx >= 1 then mIdx + 1 else mIdx);
      if offIdx >= 1 {
        mIdx := mIdx + 1;
        p := p + desc.mSz;
        offIdx := 0;
      }
      if mIdx < vlen {
        offIdx := 1;
        seen := p + desc.mOff + 1;
        return Some(p + desc.mOff);
      }
      live := false;
      return None;
    }
  }

  // ---------------------------------------------------------------------------
  // Records laid end to end

  /** The records with the given indices, in the given order. */
  function Select(recs: seq<Record>, idx: seq<nat>): (r: seq<Record>)
    requires forall k :: 0 <= k < |idx| ==> idx[k] < |recs|
    ensures |r| == |idx| && forall k :: 0 <= k < |idx| ==> r[k] == recs[idx[k]]
  {
    seq(|idx|, k requires 0 <= k < |idx| => recs[idx[k]])
  }

  function Flatten(recs: seq<Record>): seq<u32> {
    if recs == [] then [] else Flatten(recs[..|recs| - 1]) + recs[|recs| - 1]
  }

  /** Where record `i` starts in the flattened section. */
  function Offset(recs: seq<Record>, i: nat): nat
    requires i <= |recs|
  {
    |Flatten(recs[..i])|
  }

  lemma {:induction false} FlattenAppend(a: seq<Record>, b: seq<Record>)
    ensures Flatten(a + b) == Flatten(a) + Flatten(b)
  {
    if b == [] {
      assert a + b == a;
    } else {
      var b' := b[..|b| - 1];
      FlattenAppend(a, b');
      assert (a + b)[..|a + b| - 1] == a + b';
      assert Flatten(a + b) == Flatten(a + b') + b[|b| - 1];
    }
  }

  lemma FlattenSnoc(a: seq<Record>, r: Record)
    ensures Flatten(a + [r]) == Flatten(a) + r
  {
    assert (a + [r])[..|a|] == a;
  }

  lemma FlattenCons(r: Record, rest: seq<Record>)
    ensures Flatten([r] + rest) == r + Flatten(rest)
  {
    FlattenAppend([r], rest);
    FlattenSnoc([], r);
    assert [] + [r] == [r];
  }

  /** Record `i` occupies exactly the words from its offset to the next one. */
  lemma FlattenAt(recs: seq<Record>, i: nat)
    requires i < |recs|
    ensures Offset(recs, i + 1) == Offset(recs, i) + |recs[i]| <= |Flatten(recs)|
    ensures Flatten(recs)[Offset(recs, i)..Offset(recs, i + 1)] == recs[i]
    ensures Flatten(recs)[..Offset(recs, i)] == Flatten(recs[..i])
  {
    hide Flatten;
    assert recs[..i + 1] == recs[..i] + [recs[i]];
    FlattenSnoc(recs[..i], recs[i]);
    assert recs == recs[..i + 1] + recs[i + 1..];
    FlattenAppend(recs[..i + 1], recs[i + 1..]);
  }

  lemma {:induction false} OffsetMonotone(recs: seq<Record>, i: nat, j: nat)
    requires i <= j <= |recs|
    ensures Offset(recs, i) <= Offset(recs, j) <= |Flatten(recs)|
    decreases j - i
  {
    if i < j {
      FlattenAt(recs, i);
      OffsetMonotone(recs, i + 1, j);
    } else if j < |recs| {
      FlattenAt(recs, j);
    } else {
      assert recs[..j] == recs;
    }
  }

  /** Replacing a record by one of equal length changes only that record's words. */
  lemma FlattenUpdate(recs: seq<Record>, i: nat, r: Record)
    requires i < |recs| && |r| == |recs[i]|
    ensures Offset(recs, i) + |r| <= |Flatten(recs)|
    ensures Flatten(recs[i := r])
         == Flatten(recs)[..Offset(recs, i)] + r + Flatten(recs)[Offset(recs, i) + |r|..]
  {
    hide Flatten;
    SplitAround(recs, i);
    SplitAround(recs[i := r], i);
    assert recs[i := r][..i] == recs[..i] && recs[i := r][i + 1..] == recs[i + 1..];
    ReplaceMiddle(Flatten(recs[..i]), recs[i], r, Flatten(recs[i + 1..]));
  }

  /** Writing one word of record `i` writes one word of the section. */
  lemma FlattenPoke(recs: seq<Record>, i: nat, pos: nat, w: u32)
    requires i < |recs| && pos < |recs[i]|
    ensures Offset(recs, i) + |recs[i]| <= |Flatten(recs)|
    ensures Flatten(recs[i := Poke(recs[i], pos, w)]) == Flatten(recs)[Offset(recs, i) + pos := w]
  {
    hide Flatten;
    FlattenAt(recs, i);
    FlattenUpdate(recs, i, Poke(recs[i], pos, w));
    PokeInside(Flatten(recs), Offset(recs, i), recs[i], pos, w);
  }

  lemma PokeInside(mem: seq<u32>, o: nat, r: Record, pos: nat, w: u32)
    requires o + |r| <= |mem| && mem[o..o + |r|] == r && pos < |r|
    ensures mem[..o] + Poke(r, pos, w) + mem[o + |r|..] == mem[o + pos := w]
  {
    var after := mem[..o] + Poke(r, pos, w) + mem[o + |r|..];
    forall k | 0 <= k < |mem|
      ensures after[k] == if k == o + pos then w else mem[k]
    {
      if o <= k < o + |r| {
        assert mem[k] == mem[o..o + |r|][k - o];
      }
    }
  }

  lemma OffsetUpdate(recs: seq<Record>, i: nat, r: Record, k: nat)
    requires i < |recs| && |r| == |recs[i]| && k <= |recs|
    ensures Offset(recs[i := r], k) == Offset(recs, k)
  {
    SameLengthsSameOffset(recs, recs[i := r], k);
  }

  lemma ReplaceMiddle<T>(a: seq<T>, b: seq<T>, b': seq<T>, c: seq<T>)
    requires |b| == |b'|
    ensures a + b' + c == (a + b + c)[..|a|] + b' + (a + b + c)[|a| + |b'|..]
  {
    assert (a + b + c)[..|a|] == a;
    assert (a + b + c)[|a| + |b'|..] == c;
  }

  lemma SplitAround(recs: seq<Record>, i: nat)
    requires i < |recs|
    ensures Flatten(recs) == Flatten(recs[..i]) + recs[i] + Flatten(recs[i + 1..])
  {
    hide Flatten;
    var pre, post := recs[..i], recs[i + 1..];
    SplitAt(recs, i);
    FlattenAppend(pre + [recs[i]], post);
    FlattenSnoc(pre, recs[i]);
  }

  lemma {:induction false} SameLengthsSameOffset(a: seq<Record>, b: seq<Record>, k: nat)
    requires k <= |a| == |b|
    requires forall i :: 0 <= i < |a| ==> |a[i]| == |b[i]|
    ensures Offset(a, k) == Offset(b, k)
  {
    if k > 0 {
      SameLengthsSameOffset(a, b, k - 1);
      assert a[..k][..k - 1] == a[..k - 1] && b[..k][..k - 1] == b[..k - 1];
    }
  }

  /**
   * The types memory and the offset index of a BTF object hold exactly these records, laid end
   * to end from the start.
   */
  ghost predicate Represents(mem: seq<u32>, len: nat, offs: seq<nat>, recs: seq<Record>) {
    && len == |Flatten(recs)| <= |mem| && mem[..len] == Flatten(recs)
    && |recs| <= |offs|
    && (forall i :: 0 <= i < |recs| ==> offs[i] == Offset(recs, i))
    && (forall i :: 0 <= i < |recs| ==> WellSized(recs[i]))
  }

  lemma RepresentsAt(mem: seq<u32>, len: nat, offs: seq<nat>, recs: seq<Record>, i: nat)
    requires Represents(mem, len, offs, recs) && i < |recs|
    ensures WellSized(recs[i]) && i < |offs| && offs[i] + |recs[i]| <= len <= |mem|
    ensures mem[offs[i]..offs[i] + |recs[i]|] == recs[i]
    ensures forall k :: 0 <= k < |recs[i]| ==> mem[offs[i] + k] == recs[i][k]
  {
    hide Flatten;
    FlattenAt(recs, i);
    var o, n := offs[i], |recs[i]|;
    SliceOfPrefix(mem, o, o + n, len);
    forall k | 0 <= k < n
      ensures mem[o + k] == recs[i][k]
    {
      assert mem[o..o + n][k] == mem[o + k];
    }
  }

  lemma RepresentsSized(mem: seq<u32>, len: nat, offs: seq<nat>, recs: seq<Record>)
    requires Represents(mem, len, offs, recs)
    ensures len == |Flatten(recs)| <= |mem| && |recs| <= |offs|
    ensures forall i :: 0 <= i < |recs| ==> WellSized(recs[i])
  {
  }

  lemma RepresentsPoke(mem: seq<u32>, len: nat, offs: seq<nat>, recs: seq<Record>, i: nat, pos: nat, w: u32)
    requires Represents(mem, len, offs, recs) && i < |recs| && pos < |recs[i]| && pos != 1
    requires offs[i] + pos < |mem|
    ensures Represents(mem[offs[i] + pos := w], len, offs, recs[i := Poke(recs[i], pos, w)])
  {
    hide Flatten;
    var recs' := recs[i := Poke(recs[i], pos, w)];
    RepresentsAt(mem, len, offs, recs, i);
    FlattenPoke(recs, i, pos, w);
    assert mem[offs[i] + pos := w][..len] == mem[..len][offs[i] + pos := w];
    forall k | 0 <= k < |recs|
      ensures offs[k] == Offset(recs', k)
    {
      OffsetUpdate(recs, i, Poke(recs[i], pos, w), k);
    }
  }
}

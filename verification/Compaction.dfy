/** What compaction and reference remapping compute, on sequences. */
module CompactionSpec {
  import opened Words
  import opened BtfRecords
  import opened CanonicalMap

  /** Among the first `n` own types, the indices of those that are their own canonical type. */
  ghost function Kept(m: seq<u32>, start: nat, n: nat): (r: seq<nat>)
    requires start + n <= |m|
    ensures |r| <= n && forall k :: 0 <= k < |r| ==> r[k] < n
  {
    if n == 0 then []
    else if m[start + n - 1] == start + n - 1 then Kept(m, start, n - 1) + [n - 1]
    else Kept(m, start, n - 1)
  }

  /** The surviving own types are exactly the self-mapped ones, in their old order. */
  lemma {:induction false} KeptAscending(m: seq<u32>, start: nat, n: nat)
    requires start + n <= |m|
    ensures forall k :: 0 <= k < |Kept(m, start, n)| ==>
              m[start + Kept(m, start, n)[k]] == start + Kept(m, start, n)[k]
    ensures forall j, k :: 0 <= j < k < |Kept(m, start, n)| ==> Kept(m, start, n)[j] < Kept(m, start, n)[k]
  {
    if n > 0 {
      KeptAscending(m, start, n - 1);
    }
  }

  /** A self-mapped type appears among the survivors at the position of its rank. */
  lemma {:induction false} KeptRank(m: seq<u32>, start: nat, n: nat, i: nat)
    requires i < n && start + n <= |m| && m[start + i] == start + i
    ensures |Kept(m, start, i)| < |Kept(m, start, n)|
    ensures Kept(m, start, n)[|Kept(m, start, i)|] == i
  {
    if i < n - 1 {
      KeptRank(m, start, n - 1, i);
    }
  }

  /** The id given to `id` by compaction. */
  ghost function NewId(m: seq<u32>, start: nat, id: nat): nat
    requires start <= |m| && id < |m|
  {
    if id < start then id
    else if m[id] == id then start + |Kept(m, start, id - start)|
    else BTF_UNPROCESSED_ID
  }

  /** The scratch map after the compaction loop has passed the first `i` own types. */
  ghost predicate Numbered(h: seq<u32>, m: seq<u32>, start: nat, i: nat) {
    && start + i <= |m| == |h|
    && (forall id :: 0 <= id < start + i ==> h[id] == NewId(m, start, id))
    && (forall id :: start + i <= id < |m| ==> h[id] == BTF_UNPROCESSED_ID)
  }

  lemma NumberedStart(h: seq<u32>, m: seq<u32>, start: nat)
    requires start <= |m| == |h|
    requires forall id :: 0 <= id < start ==> h[id] == id
    requires forall id :: start <= id < |m| ==> h[id] == BTF_UNPROCESSED_ID
    ensures Numbered(h, m, start, 0)
  {
  }

  lemma NumberedEnd(h: seq<u32>, m: seq<u32>, start: nat, n: nat)
    requires Numbered(h, m, start, n) && start + n == |m|
    ensures forall id :: 0 <= id < |m| ==> h[id] == NewId(m, start, id)
  {
  }

  lemma NumberedStep(h: seq<u32>, m: seq<u32>, start: nat, i: nat, next: u32)
    requires Numbered(h, m, start, i) && start + i < |m| && next == start + |Kept(m, start, i)|
    ensures m[start + i] == start + i ==> Numbered(h[start + i := next], m, start, i + 1)
    ensures m[start + i] != start + i ==> Numbered(h, m, start, i + 1)
  {
    assert NewId(m, start, start + i) == if m[start + i] == start + i then next else BTF_UNPROCESSED_ID;
  }

  /** For every old id, the id that reference remapping writes in its place. */
  ghost function FinalIds(m: seq<u32>, h: seq<u32>): (r: seq<u32>)
    requires Acyclic(m) && |h| == |m|
    ensures |r| == |m| && forall id :: 0 <= id < |m| ==> r[id] == h[Root(m, id)]
  {
    seq(|m|, id requires 0 <= id < |m| => h[Root(m, id)])
  }

  /** Every reference of `rec` goes to a type that survived compaction. */
  ghost predicate Remappable(rec: Record, finals: seq<u32>)
    requires RefsBelow(rec, |finals|)
  {
    forall i :: 0 <= i < |rec| && IsRef(rec[1], i) ==> finals[rec[i]] <= BTF_MAX_NR_TYPES
  }

  /** Every reference of `rec` below word `done` goes to a type that survived compaction. */
  ghost predicate RemappableUpTo(rec: Record, finals: seq<u32>, done: nat)
    requires RefsBelow(rec, |finals|)
  {
    forall i :: 0 <= i < |rec| && IsRef(rec[1], i) && i < done ==> finals[rec[i]] <= BTF_MAX_NR_TYPES
  }

  lemma RemappableStart(rec: Record, finals: seq<u32>)
    requires RefsBelow(rec, |finals|)
    ensures RemappableUpTo(rec, finals, 0)
  {
  }

  lemma RemappableStep(rec: Record, finals: seq<u32>, done: nat, pos: nat)
    requires WellSized(rec) && RefsBelow(rec, |finals|) && RemappableUpTo(rec, finals, done)
    requires Awaits(rec[1], done, Some(pos))
    ensures pos < |rec|
    ensures finals[rec[pos]] <= BTF_MAX_NR_TYPES ==> RemappableUpTo(rec, finals, pos + 1)
    ensures finals[rec[pos]] > BTF_MAX_NR_TYPES ==> !Remappable(rec, finals)
  {
    RefInside(rec, pos);
  }

  lemma RemappableEnd(rec: Record, finals: seq<u32>, done: nat)
    requires RefsBelow(rec, |finals|) && RemappableUpTo(rec, finals, done)
    requires Awaits(rec[1], done, None)
    ensures Remappable(rec, finals)
  {
  }

  ghost function RenameAll(recs: seq<Record>, m: seq<u32>): (r: seq<Record>)
    requires forall i :: 0 <= i < |recs| ==> RefsBelow(recs[i], |m|)
    ensures |r| == |recs| && forall i :: 0 <= i < |recs| ==> r[i] == Rename(recs[i], m)
  {
    seq(|recs|, i requires 0 <= i < |recs| => Rename(recs[i], m))
  }

  /**
   * State of the compaction loop after record `i`: the records with indices `kept` lie at the
   * bottom of the memory, and the records from `i` on have not been touched yet.
   */
  ghost predicate Compacted(mem: seq<u32>, offs: seq<nat>, R: seq<Record>, kept: seq<nat>, i: nat, p: nat) {
    && i <= |R| <= |offs| && |kept| <= i && |Flatten(R)| <= |mem|
    && (forall k :: 0 <= k < |kept| ==> kept[k] < i)
    && (forall k :: 0 <= k < |R| ==> WellSized(R[k]))
    && p == |Flatten(Select(R, kept))| <= Offset(R, i) <= |Flatten(R)|
    && mem[..p] == Flatten(Select(R, kept))
    && mem[Offset(R, i)..|Flatten(R)|] == Flatten(R)[Offset(R, i)..]
    && (forall k :: 0 <= k < |kept| ==> offs[k] == Offset(Select(R, kept), k))
    && (forall k :: i <= k < |R| ==> offs[k] == Offset(R, k))
  }

  lemma CompactedStart(mem: seq<u32>, offs: seq<nat>, end: nat, R: seq<Record>)
    requires Represents(mem, end, offs, R)
    ensures Compacted(mem, offs, R, [], 0, 0)
  {
    assert Select(R, []) == [];
    assert R[..0] == [];
  }

  lemma CompactedEnd(mem: seq<u32>, offs: seq<nat>, R: seq<Record>, kept: seq<nat>, p: nat)
    requires Compacted(mem, offs, R, kept, |R|, p)
    ensures Represents(mem, p, offs, Select(R, kept))
  {
  }

  /** The record about to be moved is still intact, so its header can be read in place. */
  lemma CompactedHeader(mem: seq<u32>, offs: seq<nat>, R: seq<Record>, kept: seq<nat>, i: nat, p: nat)
    requires Compacted(mem, offs, R, kept, i, p) && i < |R|
    ensures Offset(R, i + 1) == Offset(R, i) + |R[i]| <= |Flatten(R)| <= |mem|
    ensures |kept| <= i < |offs| && offs[i] == Offset(R, i) && p <= Offset(R, i) && WellSized(R[i])
    ensures mem[Offset(R, i)..Offset(R, i + 1)] == R[i]
    ensures mem[Offset(R, i) + 1] == R[i][1]
  {
    FlattenAt(R, i);
    var o, o' := Offset(R, i), Offset(R, i + 1);
    assert mem[o..o'] == mem[o..|Flatten(R)|][..|R[i]|] == Flatten(R)[o..][..|R[i]|] == Flatten(R)[o..o'];
  }

  lemma CompactedSkip(mem: seq<u32>, offs: seq<nat>, R: seq<Record>, kept: seq<nat>, i: nat, p: nat)
    requires Compacted(mem, offs, R, kept, i, p) && i < |R|
    ensures Compacted(mem, offs, R, kept, i + 1, p)
  {
    FlattenAt(R, i);
    var o, o' := Offset(R, i), Offset(R, i + 1);
    assert mem[o'..|Flatten(R)|] == mem[o..|Flatten(R)|][o' - o..] == Flatten(R)[o..][o' - o..] == Flatten(R)[o'..];
  }

  lemma SizedLength(r: Record)
    requires WellSized(r)
    ensures |r| >= BASE && TrailingWords(r[1]) == Some(|r| - BASE)
  {
  }

  /** Copying record `i` down to `p` overwrites nothing that is still to be read. */
  lemma CompactedMove(mem: seq<u32>, offs: seq<nat>, R: seq<Record>, kept: seq<nat>, i: nat, p: nat)
    requires Compacted(mem, offs, R, kept, i, p) && i < |R|
    requires Offset(R, i) + |R[i]| <= |mem|
    ensures Compacted(mem[..p] + mem[Offset(R, i)..Offset(R, i) + |R[i]|] + mem[p + |R[i]|..],
                      offs[|kept| := p], R, kept + [i], i + 1, p + |R[i]|)
  {
    hide Flatten;
    CompactedHeader(mem, offs, R, kept, i, p);
    CompactedSkip(mem, offs, R, kept, i, p);
    var o, o', end := Offset(R, i), Offset(R, i + 1), |Flatten(R)|;
    var mem' := mem[..p] + mem[o..o'] + mem[p + |R[i]|..];
    assert Select(R, kept + [i]) == Select(R, kept) + [R[i]];
    FlattenSnoc(Select(R, kept), R[i]);
    assert mem'[..p + |R[i]|] == mem[..p] + R[i];
    assert mem'[o'..end] == mem[o'..end];
    SelectOffsets(R, kept, i);
  }

  /** Where the index says that record `i` is, its size can be read. */
  lemma CompactedRead(mem: seq<u32>, offs: seq<nat>, R: seq<Record>, kept: seq<nat>, i: nat, p: nat)
    requires Compacted(mem, offs, R, kept, i, p) && i < |R|
    ensures i < |offs| && |kept| < |offs| && offs[i] + 1 < |mem|
    ensures |R[i]| >= BASE && TrailingWords(mem[offs[i] + 1]) == Some(|R[i]| - BASE)
  {
    hide Compacted, Flatten, Offset, TrailingWords, WellSized;
    CompactedHeader(mem, offs, R, kept, i, p);
    SizedLength(R[i]);
  }

  /** The memory after the move, with the offset and size that were read. */
  lemma CompactedAt(mem: seq<u32>, offs: seq<nat>, R: seq<Record>, kept: seq<nat>, i: nat, p: nat, t: nat, len: nat,
                    k: nat)
    requires Compacted(mem, offs, R, kept, i, p) && i < |R| && i < |offs|
    requires t == offs[i] && len == |R[i]| && k == |kept|
    ensures t + len <= |mem| && p + len <= |mem| && k < |offs|
    ensures Compacted(mem[..p] + mem[t..t + len] + mem[p + len..], offs[k := p], R, kept + [i], i + 1, p + len)
  {
    hide Compacted, Flatten, Offset, TrailingWords, WellSized;
    CompactedHeader(mem, offs, R, kept, i, p);
    CompactedMove(mem, offs, R, kept, i, p);
  }

  lemma SelectOffsets(R: seq<Record>, kept: seq<nat>, i: nat)
    requires i < |R| && forall k :: 0 <= k < |kept| ==> kept[k] < |R|
    ensures forall k :: 0 <= k <= |kept| ==>
              Offset(Select(R, kept + [i]), k) == Offset(Select(R, kept), k)
    ensures Offset(Select(R, kept), |kept|) == |Flatten(Select(R, kept))|
  {
    assert Select(R, kept)[..|kept|] == Select(R, kept);
    forall k | 0 <= k <= |kept|
      ensures Offset(Select(R, kept + [i]), k) == Offset(Select(R, kept), k)
    {
      assert Select(R, kept + [i])[..k] == Select(R, kept)[..k];
    }
  }

  // ---------------------------------------------------------------------------
  // What the two passes achieve together

  /** For every old id, its id after deduplication. */
  ghost function DedupIds(m: seq<u32>, start: nat): (r: seq<u32>)
    requires Acyclic(m) && Total(m) && start <= |m| <= BTF_MAX_NR_TYPES
    ensures |r| == |m| && forall id :: 0 <= id < |m| ==> r[id] == NewId(m, start, Root(m, id))
  {
    seq(|m|, id requires 0 <= id < |m| => NewIdRange(m, start, id); NewId(m, start, Root(m, id)))
  }

  /** Under a total map every id resolves to a base type or to a survivor. */
  lemma NewIdRange(m: seq<u32>, start: nat, id: nat)
    requires Acyclic(m) && Total(m) && start <= |m| <= BTF_MAX_NR_TYPES && id < |m|
    ensures var r := Root(m, id);
            && m[r] == r
            && (r < start ==> NewId(m, start, r) == r)
            && (r >= start ==>
                  && start <= NewId(m, start, r) < start + |Kept(m, start, |m| - start)|
                  && Kept(m, start, |m| - start)[NewId(m, start, r) - start] == r - start)
    ensures NewId(m, start, Root(m, id)) < |m|
  {
    var r := Root(m, id);
    if r >= start {
      KeptRank(m, start, |m| - start, r - start);
    }
  }

  /** The records after deduplication. */
  ghost function Deduped(m: seq<u32>, start: nat, R: seq<Record>): seq<Record>
    requires Acyclic(m) && Total(m) && start + |R| == |m| <= BTF_MAX_NR_TYPES
    requires forall i :: 0 <= i < |R| ==> WellSized(R[i]) && RefsBelow(R[i], |m|)
  {
    var survivors, D := Select(R, Kept(m, start, |R|)), DedupIds(m, start);
    RenameAll(survivors, D)
  }

  /**
   * The type graph is preserved: every old type, survivor or duplicate, is represented by the
   * compacted copy of its canonical type, and the references in that copy are the representatives
   * of the old references. Base types keep their ids.
   */
  lemma DedupPreservesGraph(m: seq<u32>, start: nat, R: seq<Record>, id: nat)
    requires Acyclic(m) && Total(m) && start + |R| == |m| <= BTF_MAX_NR_TYPES
    requires forall i :: 0 <= i < |R| ==> WellSized(R[i]) && RefsBelow(R[i], |m|)
    requires id < |m|
    ensures var D, out, r := DedupIds(m, start), Deduped(m, start, R), Root(m, id);
            && (r < start ==> D[id] == r)
            && (r >= start ==>
                  && start <= D[id] < start + |out|
                  && out[D[id] - start] == Rename(R[r - start], D))
  {
    NewIdRange(m, start, id);
  }

  /**
   * A type agrees with its canonical type: in all words that are no type ids, and in what its type ids
   * resolve to.
   */
  ghost predicate Agrees(m: seq<u32>, a: Record, b: Record)
    requires Acyclic(m) && WellSized(a) && WellSized(b) && RefsBelow(a, |m|) && RefsBelow(b, |m|)
  {
    && |a| == |b| && a[1] == b[1]
    && forall w :: 0 <= w < |a| ==>
         if IsRef(a[1], w) then Root(m, a[w]) == Root(m, b[w]) else a[w] == b[w]
  }

  /**
   * The record that stands for an own type after deduplication is that type's own record, with its
   * references renamed, exactly if the earlier passes gave it a canonical type with which it agrees.
   */
  lemma DedupFaithful(m: seq<u32>, start: nat, R: seq<Record>, id: nat)
    requires Acyclic(m) && Total(m) && 1 <= start && start + |R| == |m| <= BTF_MAX_NR_TYPES
    requires forall i :: 0 <= i < |R| ==> WellSized(R[i]) && RefsBelow(R[i], |m|)
    requires start <= id < |m| && start <= Root(m, id)
    ensures var D, out := DedupIds(m, start), Deduped(m, start, R);
            && start <= D[id] < start + |out|
            && (out[D[id] - start] == Rename(R[id - start], D) <==>
                  Agrees(m, R[id - start], R[Root(m, id) - start]))
  {
    DedupPreservesGraph(m, start, R, id);
    var D, a, b := DedupIds(m, start), R[id - start], R[Root(m, id) - start];
    hide DedupIds, Deduped, WellSized, RefsBelow, KindOf, VlenOf, Root;
    forall w | 0 <= w < |a| && w < |b| && IsRef(a[1], w) && IsRef(b[1], w)
      ensures a[w] < |m| && b[w] < |m| && (D[a[w]] == D[b[w]] <==> Root(m, a[w]) == Root(m, b[w]))
    {
      RefsInside(a, |m|, w);
      RefsInside(b, |m|, w);
      DedupIdsBijection(m, start, a[w], b[w]);
    }
    RenamedSame(m, D, a, b);
  }

  lemma RefsInside(r: Record, n: nat, w: nat)
    requires WellSized(r) && RefsBelow(r, n) && w < |r| && IsRef(r[1], w)
    ensures r[w] < n
  {
  }

  lemma RenamedSame(m: seq<u32>, D: seq<u32>, a: Record, b: Record)
    requires Acyclic(m) && |D| == |m|
    requires WellSized(a) && WellSized(b) && RefsBelow(a, |m|) && RefsBelow(b, |m|)
    requires forall w :: 0 <= w < |a| && w < |b| && IsRef(a[1], w) && IsRef(b[1], w) ==>
               (D[a[w]] == D[b[w]] <==> Root(m, a[w]) == Root(m, b[w]))
    ensures Rename(b, D) == Rename(a, D) <==> Agrees(m, a, b)
  {
    hide Root, Acyclic;
    assert !IsRef(a[1], 1) && !IsRef(b[1], 1);
    assert Rename(a, D)[1] == a[1] && Rename(b, D)[1] == b[1];
    hide KindOf, VlenOf, IsRef;
    if Rename(b, D) == Rename(a, D) {
      forall w | 0 <= w < |a|
        ensures if IsRef(a[1], w) then Root(m, a[w]) == Root(m, b[w]) else a[w] == b[w]
      {
        assert Rename(a, D)[w] == Rename(b, D)[w];
      }
    }
  }

  /**
   * Survivors keep their order, under an order-preserving bijection onto consecutive ids, and two
   * types are merged exactly when they resolve to the same canonical type.
   */
  lemma DedupIdsBijection(m: seq<u32>, start: nat, a: nat, b: nat)
    requires Acyclic(m) && Total(m) && 1 <= start <= |m| <= BTF_MAX_NR_TYPES
    requires a < |m| && b < |m|
    ensures var D := DedupIds(m, start);
            && (D[a] == D[b] <==> Root(m, a) == Root(m, b))
            && (start <= Root(m, a) < Root(m, b) ==> D[a] < D[b])
            && (Root(m, a) < start <= Root(m, b) ==> D[a] < D[b])
  {
    NewIdRange(m, start, a);
    NewIdRange(m, start, b);
    var ra, rb := Root(m, a), Root(m, b);
    if start <= ra < rb {
      KeptMonotone(m, start, ra - start, rb - start);
    }
    if start <= rb < ra {
      KeptMonotone(m, start, rb - start, ra - start);
    }
  }

  lemma {:induction false} KeptMonotone(m: seq<u32>, start: nat, i: nat, j: nat)
    requires i < j && start + j <= |m| && m[start + i] == start + i
    ensures |Kept(m, start, i)| < |Kept(m, start, j)|
  {
    if i < j - 1 {
      KeptMonotone(m, start, i, j - 1);
    }
  }

  /** Every id of the new numbering is taken by a survivor. */
  lemma DedupIdsOnto(m: seq<u32>, start: nat, n: nat) returns (id: nat)
    requires Acyclic(m) && Total(m) && 1 <= start <= |m| <= BTF_MAX_NR_TYPES
    requires start <= n < start + |Kept(m, start, |m| - start)|
    ensures start <= id < |m| && m[id] == id && DedupIds(m, start)[id] == n
  {
    var kept := Kept(m, start, |m| - start);
    KeptAscending(m, start, |m| - start);
    id := start + kept[n - start];
    RootStep(m, id);
    NewIdRange(m, start, id);
    var k := NewId(m, start, id) - start;
    assert kept[k] == kept[n - start];
  }
}

/** The last two deduplication passes: in-place compaction and reference remapping. */
module Compaction {
  import opened Words
  import opened BtfRecords
  import opened BtfObject
  import opened CanonicalMap
  import opened CompactionSpec

  class Dedup {
    const btf: Btf
    /** Canonical types map. */
    const map_: array<u32>
    /** Scratch map; compaction stores the new ids in it. */
    const hypotMap: array<u32>

    constructor (btf: Btf, map_: array<u32>, hypotMap: array<u32>)
      ensures this.btf == btf && this.map_ == map_ && this.hypotMap == hypotMap
    {
      this.btf, this.map_, this.hypotMap := btf, map_, hypotMap;
    }

    ghost predicate Valid()
      reads this, btf, btf.types, btf.offs, map_, hypotMap
    {
      && btf.Valid()
      && map_ != hypotMap && map_ != btf.types && hypotMap != btf.types
      && map_.Length == hypotMap.Length
    }

    /** btf_dedup_compact_types */
    method CompactTypes()
      requires Valid() && map_.Length == btf.TypeCnt()
      modifies btf, btf.types, btf.offs, hypotMap
      ensures Valid() && btf.types == old(btf.types) && btf.offs == old(btf.offs)
      ensures map_[..] == old(map_[..])
      ensures old(btf.nrTypes) == |old(btf.recs)| && btf.startId + old(btf.nrTypes) == map_.Length
      ensures btf.recs == Select(old(btf.recs), Kept(map_[..], btf.startId, old(btf.nrTypes)))
      ensures forall id :: 0 <= id < map_.Length ==> hypotMap[id] == NewId(map_[..], btf.startId, id)
    {
      hide Compacted, Numbered, Represents;
      ghost var m, R := map_[..], btf.recs;
      var start, n := btf.startId, btf.nrTypes;
      ClearIds(start);
      var next: u32, p: nat := start, 0;
      CompactedStart(btf.types[..], btf.offs[..], btf.typeLen, R);
      NumberedStart(hypotMap[..], m, start);
      for i := 0 to n
        invariant unchanged(btf) && unchanged(map_)
        invariant next == start + |Kept(m, start, i)|
        invariant Compacted(btf.types[..], btf.offs[..], R, Kept(m, start, i), i, p)
        invariant Numbered(hypotMap[..], m, start, i)
      {
        NumberedStep(hypotMap[..], m, start, i, next);
        ghost var h := hypotMap[..];
        ghost var kept := Kept(m, start, i);
        if map_[start + i] == start + i {
          var len := MoveRecord(i, p, next - start, R, kept);
          hypotMap[start + i] := next;
          assert hypotMap[..] == h[start + i := next];
          p := p + len;
          next := next + 1;
        } else {
          CompactedSkip(btf.types[..], btf.offs[..], R, kept, i, p);
        }
      }
      CompactedEnd(btf.types[..], btf.offs[..], R, Kept(m, start, n), p);
      NumberedEnd(hypotMap[..], m, start, n);
      btf.nrTypes := next - start;
      btf.typeLen := p;
      btf.recs := Select(R, Kept(m, start, n));
    }

    /** The callback of btf_dedup_remap_types on every reference of record `i`. */
    method RemapRecord(i: nat) returns (r: Status)
      requires Valid() && Acyclic(map_[..]) && i < btf.nrTypes && RefsBelow(btf.recs[i], map_.Length)
      modifies btf`recs, btf.types
      ensures Valid() && map_[..] == old(map_[..]) && hypotMap[..] == old(hypotMap[..])
      ensures |btf.recs| == |old(btf.recs)| && btf.recs == old(btf.recs)[i := btf.recs[i]]
      ensures r == if Remappable(old(btf.recs)[i], FinalIds(map_[..], hypotMap[..])) then Ok else Err(EINVAL)
      ensures r.Ok? ==> btf.recs[i] == Rename(old(btf.recs)[i], FinalIds(map_[..], hypotMap[..]))
    {
      hide Represents, RenamedUpTo, RemappableUpTo, IsRef, KindOf, VlenOf, TrailingWords, IdsDesc, FinalIds,
           FieldIter.Valid, Awaits, Acyclic, Ranked, Closed;
      ghost var F, rec, R := FinalIds(map_[..], hypotMap[..]), btf.recs[i], btf.recs;
      RepresentsAt(btf.types[..], btf.typeLen, btf.offs[..], R, i);
      RenamedStart(rec, F);
      RemappableStart(rec, F);
      WellSizedHasDesc(rec);
      var info := btf.Word(i, 1);
      var it := new FieldIter(info);
      var pos := it.Next();
      ghost var done, cur := 0, rec;
      while pos.Some?
        invariant Valid() && it.Valid() && it.info == info == rec[1] && fresh(it)
        invariant unchanged(map_) && unchanged(hypotMap)
        invariant btf.recs == R[i := cur] && RenamedUpTo(cur, rec, F, done)
        invariant RemappableUpTo(rec, F, done)
        invariant Awaits(info, done, pos) && it.seen == if pos.Some? then pos.value + 1 else done
        decreases pos.Some?, if pos.Some? then |rec| - pos.value else 0
      {
        RenamedPeek(cur, rec, F, done, pos.value);
        RefAt(rec, |F|, done, pos.value);
        RenamedStep(cur, rec, F, done, pos.value);
        var id := btf.Word(i, pos.value);
        var resolved := ResolveTypeId(map_, id);
        var newId := hypotMap[resolved];
        RemappableStep(rec, F, done, pos.value);
        if newId > BTF_MAX_NR_TYPES {
          return Err(EINVAL);
        }
        btf.SetWord(i, pos.value, newId);
        done, cur := pos.value + 1, Poke(cur, pos.value, newId);
        pos := it.Next();
        AwaitsInside(rec, done, pos);
      }
      RenamedEnd(cur, rec, F, done);
      RemappableEnd(rec, F, done);
      r := Ok;
    }

    /** btf_dedup_remap_types, without the optional .BTF.ext section. */
    method RemapTypes() returns (r: Status)
      requires Valid() && Acyclic(map_[..])
      requires forall i :: 0 <= i < btf.nrTypes ==> RefsBelow(btf.recs[i], map_.Length)
      modifies btf`recs, btf.types
      ensures Valid() && map_[..] == old(map_[..]) && hypotMap[..] == old(hypotMap[..])
      ensures r == if forall i :: 0 <= i < |old(btf.recs)| ==>
                       Remappable(old(btf.recs)[i], FinalIds(map_[..], hypotMap[..]))
                   then Ok else Err(EINVAL)
      ensures r.Ok? ==> btf.recs == RenameAll(old(btf.recs), FinalIds(map_[..], hypotMap[..]))
    {
      hide Represents, FinalIds, Remappable, IsRef;
      ghost var F, R := FinalIds(map_[..], hypotMap[..]), btf.recs;
      RepresentsSized(btf.types[..], btf.typeLen, btf.offs[..], R);
      var i := 0;
      while i < btf.nrTypes
        invariant Valid() && i <= btf.nrTypes == |R| && unchanged(map_) && unchanged(hypotMap)
        invariant forall k :: 0 <= k < i ==> Remappable(R[k], F) && btf.recs[k] == Rename(R[k], F)
        invariant forall k :: i <= k < |R| ==> btf.recs[k] == R[k]
      {
        var err := RemapRecord(i);
        if err != Ok {
          return err;
        }
        i := i + 1;
      }
      r := Ok;
    }

    /** One iteration: slides record `i` down to `p` and records its new offset. */
    method MoveRecord(i: nat, p: nat, k: nat, ghost R: seq<Record>, ghost kept: seq<nat>) returns (len: nat)
      requires Compacted(btf.types[..], btf.offs[..], R, kept, i, p) && i < |R| && k == |kept|
      modifies btf.types, btf.offs
      ensures len == |R[i]|
      ensures Compacted(btf.types[..], btf.offs[..], R, kept + [i], i + 1, p + len)
    {
      CompactedRead(btf.types[..], btf.offs[..], R, kept, i, p);
      hide *;
      var t := btf.offs[i];
      len := BASE + TrailingWords(btf.types[t + 1]).value;
      CompactedAt(btf.types[..], btf.offs[..], R, kept, i, p, t, len, k);
      MoveDown(p, t, len, k);
    }

    /** The words and the offset of a record are moved. */
    method MoveDown(p: nat, t: nat, len: nat, k: nat)
      requires p + len <= btf.types.Length && t + len <= btf.types.Length && k < btf.offs.Length
      modifies btf.types, btf.offs
      ensures btf.types[..] == old(btf.types[..])[..p] + old(btf.types[..])[t..t + len] + old(btf.types[..])[p + len..]
      ensures btf.offs[..] == old(btf.offs[..])[k := p]
    {
      MemMove(btf.types, p, t, len);
      btf.offs[k] := p;
    }

    /** Prepares the scratch map for compaction: base ids keep their number. */
    method ClearIds(start: nat)
      requires map_ != hypotMap && 1 <= start <= hypotMap.Length
      requires start <= BTF_MAX_NR_TYPES
      modifies hypotMap
      ensures forall id :: 0 <= id < start ==> hypotMap[id] == id
      ensures forall id :: start <= id < hypotMap.Length ==> hypotMap[id] == BTF_UNPROCESSED_ID
    {
      hypotMap[0] := 0;
      for id := 1 to start
        invariant forall k :: 0 <= k < id ==> hypotMap[k] == k
      {
        hypotMap[id] := id;
      }
      for id := start to hypotMap.Length
        invariant forall k :: 0 <= k < start ==> hypotMap[k] == k
        invariant forall k :: start <= k < id ==> hypotMap[k] == BTF_UNPROCESSED_ID
      {
        hypotMap[id] := BTF_UNPROCESSED_ID;
      }
    }

    /** The tail of btf__dedup: compaction, then remapping. It cannot fail on a total map. */
    method CompactAndRemap() returns (r: Status)
      requires Valid() && map_.Length == btf.TypeCnt()
      requires Acyclic(map_[..]) && Total(map_[..])
      requires forall i :: 0 <= i < btf.nrTypes ==> RefsBelow(btf.recs[i], map_.Length)
      modifies btf, btf.types, btf.offs, hypotMap
      ensures Valid() && map_[..] == old(map_[..]) && r == Ok
      ensures forall i :: 0 <= i < |old(btf.recs)| ==> WellSized(old(btf.recs)[i])
      ensures btf.recs == Deduped(map_[..], btf.startId, old(btf.recs))
    {
      ghost var m, R := map_[..], btf.recs;
      CompactTypes();
      ghost var F := FinalIds(m, hypotMap[..]);
      forall id | 0 <= id < |m|
        ensures F[id] == DedupIds(m, btf.startId)[id] <= BTF_MAX_NR_TYPES
      {
        NewIdRange(m, btf.startId, id);
      }
      assert F == DedupIds(m, btf.startId);
      r := RemapTypes();
    }
  }
}

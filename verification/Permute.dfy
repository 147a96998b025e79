/** What renumbering all own types of a BTF object means, on sequences. */
module PermuteSpec {
  import opened Words
  import opened BtfRecords

  /**
   * The map check: own type `k` goes to id `idMap[k + so]`, where `so` is 1 for base BTF, whose
   * map also has an entry for void. All new ids are own ids and no two types share one.
   */
  ghost predicate MapValid(idMap: seq<u32>, start: nat, n: nat, so: nat) {
    && |idMap| == n + so
    && (forall k :: so <= k < |idMap| ==> start <= idMap[k] < start + n)
    && (forall j, k :: so <= j < k < |idMap| ==> idMap[j] != idMap[k])
  }

  /** The new position of every own type. */
  ghost function Positions(idMap: seq<u32>, start: nat, n: nat, so: nat): (p: seq<nat>)
    requires MapValid(idMap, start, n, so)
    ensures |p| == n && Distinct(p)
    ensures forall k :: 0 <= k < n ==> p[k] < n && p[k] == idMap[k + so] - start
  {
    seq(n, k requires 0 <= k < n => idMap[k + so] - start)
  }

  /** How every type id below the type count is rewritten: base ids stay. */
  ghost function IdTable(idMap: seq<u32>, start: nat, n: nat, so: nat): (t: seq<u32>)
    requires |idMap| == n + so && start + n <= BTF_MAX_NR_TYPES
    ensures |t| == start + n
    ensures forall id :: 0 <= id < start + n ==> t[id] == if id < start then id else idMap[id - start + so]
  {
    seq(start + n, id requires 0 <= id < start + n => if id < start then id else idMap[id - start + so])
  }

  /** `after` is `before` with the record at `k` moved to `p[k]` and its references rewritten by `t`. */
  ghost predicate Permuted(before: seq<Record>, after: seq<Record>, p: seq<nat>, t: seq<u32>) {
    && |before| == |after| == |p|
    && forall k :: 0 <= k < |p| ==>
         p[k] < |after| && RefsBelow(before[k], |t|) &&
         after[p[k]] == Rename(before[k], t)
  }

  /** `q` undoes `p`. */
  ghost predicate Inverse(p: seq<nat>, q: seq<nat>) {
    && |p| == |q|
    && forall k :: 0 <= k < |p| ==> p[k] < |q| && q[p[k]] == k
  }

  /** Permuting by the inverse map brings every record, with its references, back. */
  lemma PermuteBack(r0: seq<Record>, r1: seq<Record>, r2: seq<Record>, idMap: seq<u32>, back: seq<u32>,
                    start: nat, n: nat, so: nat)
    requires n == |r0| && start + n <= BTF_MAX_NR_TYPES
    requires MapValid(idMap, start, n, so) && MapValid(back, start, n, so)
    requires Inverse(Positions(idMap, start, n, so), Positions(back, start, n, so))
    requires Permuted(r0, r1, Positions(idMap, start, n, so), IdTable(idMap, start, n, so))
    requires Permuted(r1, r2, Positions(back, start, n, so), IdTable(back, start, n, so))
    ensures r2 == r0
  {
    var p, q := Positions(idMap, start, n, so), Positions(back, start, n, so);
    var t, u := IdTable(idMap, start, n, so), IdTable(back, start, n, so);
    forall id | 0 <= id < start + n
      ensures t[id] < start + n && u[t[id]] == id
    {
      if id >= start {
        assert q[p[id - start]] == id - start;
      }
    }
    forall k | 0 <= k < n
      ensures r2[k] == r0[k]
    {
      assert r1[p[k]] == Rename(r0[k], t);
      assert r2[q[p[k]]] == Rename(r1[p[k]], u);
      RenameBack(r0[k], t, u);
    }
  }

  lemma RenameBack(r: Record, t: seq<u32>, u: seq<u32>)
    requires RefsBelow(r, |t|)
    requires forall id :: 0 <= id < |t| ==> t[id] < |u| && u[t[id]] == id
    ensures RefsBelow(Rename(r, t), |u|) && Rename(Rename(r, t), u) == r
  {
    var s := Rename(r, t);
    forall i | 0 <= i < |s| && IsRef(s[1], i)
      ensures s[i] < |u|
    {
      assert s[i] == t[r[i]];
    }
  }

  /** Every position below `n` is the new position of some type. */
  lemma PositionsOnto(idMap: seq<u32>, start: nat, n: nat, so: nat, j: nat) returns (k: nat)
    requires MapValid(idMap, start, n, so) && j < n
    ensures k < n && Positions(idMap, start, n, so)[k] == j
  {
    var p := Positions(idMap, start, n, so);
    DistinctBelowIsOnto(p, n);
    assert j in p;
    k :| 0 <= k < |p| && p[k] == j;
  }

  /** The whole map is acceptable: a renumbering of the own types that fixes void in base BTF. */
  ghost predicate GoodMap(idMap: seq<u32>, start: nat, n: nat, so: nat) {
    && MapValid(idMap, start, n, so)
    && (so > 0 ==> idMap[0] == 0)
  }

  // ---------------------------------------------------------------------------
  // Sizes of a selection of records

  lemma SelectSplit(recs: seq<Record>, a: seq<nat>, x: nat, b: seq<nat>)
    requires x < |recs|
    requires forall k :: 0 <= k < |a| ==> a[k] < |recs|
    requires forall k :: 0 <= k < |b| ==> b[k] < |recs|
    ensures forall k :: 0 <= k < |a + [x] + b| ==> (a + [x] + b)[k] < |recs|
    ensures forall k :: 0 <= k < |a + b| ==> (a + b)[k] < |recs|
    ensures |Flatten(Select(recs, a + [x] + b))| == |Flatten(Select(recs, a + b))| + |recs[x]|
  {
    var pa, pb := Select(recs, a), Select(recs, b);
    assert Select(recs, a + [x] + b) == (pa + [recs[x]]) + pb;
    assert Select(recs, a + b) == pa + pb;
    FlattenAppend(pa + [recs[x]], pb);
    FlattenSnoc(pa, recs[x]);
    FlattenAppend(pa, pb);
  }

  lemma SelectPrefix(recs: seq<Record>, idx: seq<nat>)
    requires |recs| > 0 && forall k :: 0 <= k < |idx| ==> idx[k] < |recs| - 1
    ensures Select(recs, idx) == Select(recs[..|recs| - 1], idx)
  {
  }

  /** Leaving out the last record takes away exactly its words. */
  lemma SelectRemoveLast(recs: seq<Record>, idx: seq<nat>, q: nat)
    requires forall k :: 0 <= k < |idx| ==> idx[k] < |recs|
    requires Distinct(idx) && q < |idx| && idx[q] == |recs| - 1
    ensures Distinct(Without(idx, q))
    ensures forall k :: 0 <= k < |idx| - 1 ==> Without(idx, q)[k] < |recs| - 1
    ensures |Flatten(Select(recs, idx))|
         == |Flatten(Select(recs[..|recs| - 1], Without(idx, q)))| + |recs[|recs| - 1]|
  {
    hide Flatten, Select;
    SplitAt(idx, q);
    SelectSplit(recs, idx[..q], |recs| - 1, idx[q + 1..]);
    RemovedIsDistinct(idx, q);
    SelectPrefix(recs, Without(idx, q));
  }

  /** Distinct records together take no more room than all records, and exactly as much if they are all. */
  lemma {:induction false} SelectSize(recs: seq<Record>, idx: seq<nat>)
    requires forall k :: 0 <= k < |idx| ==> idx[k] < |recs|
    requires Distinct(idx)
    ensures |idx| <= |recs|
    ensures |Flatten(Select(recs, idx))| <= |Flatten(recs)|
    ensures |idx| == |recs| ==> |Flatten(Select(recs, idx))| == |Flatten(recs)|
    decreases |recs|
  {
    if idx == [] {
      assert Select(recs, idx) == [];
      assert |idx| == |recs| ==> recs == [];
    } else {
      hide Flatten, Select, Without;
      assert idx[0] < |recs|;
      var last := |recs| - 1;
      var rest := recs[..last];
      assert recs == rest + [recs[last]];
      FlattenSnoc(rest, recs[last]);
      if q :| 0 <= q < |idx| && idx[q] == last {
        SelectRemoveLast(recs, idx, q);
        SelectSize(rest, Without(idx, q));
      } else {
        SelectPrefix(recs, idx);
        SelectSize(rest, idx);
      }
    }
  }

  function Without(idx: seq<nat>, q: nat): (r: seq<nat>)
    requires q < |idx|
    ensures |r| == |idx| - 1
    ensures forall k :: 0 <= k < |r| ==> r[k] == idx[if k < q then k else k + 1]
  {
    idx[..q] + idx[q + 1..]
  }

  lemma RemovedIsDistinct(idx: seq<nat>, q: nat)
    requires Distinct(idx) && q < |idx|
    ensures Distinct(Without(idx, q))
    ensures forall k :: 0 <= k < |idx| - 1 ==> Without(idx, q)[k] != idx[q]
  {
  }
}

/** btf__permute: rearranges the own types of a BTF object in place. */
module Permute {
  import opened Words
  import opened BtfRecords
  import opened BtfObject
  import opened PermuteSpec

  /**
   * State of the order map after the map entries below `i`; `d` turns ids into slots. Slot `s`
   * holds the old id that moves there, or zero if none has been found yet.
   */
  ghost predicate OrderedUpTo(order: seq<nat>, idMap: seq<u32>, d: nat, so: nat, i: nat) {
    && so <= i <= |idMap| == |order|
    && Recorded(order, idMap, d, so, i)
    && Justified(order, idMap, d, so, i)
  }

  /** Every map entry below `i` has been entered in the order map. */
  ghost predicate Recorded(order: seq<nat>, idMap: seq<u32>, d: nat, so: nat, i: nat)
    requires i <= |idMap|
  {
    forall k :: so <= k < i ==> so + d <= idMap[k] < |order| + d && order[idMap[k] - d] == k + d
  }

  /** Every used slot of the order map comes from a map entry below `i`. */
  ghost predicate Justified(order: seq<nat>, idMap: seq<u32>, d: nat, so: nat, i: nat)
    requires i <= |idMap|
  {
    forall s :: so <= s < |order| && order[s] != 0 ==>
      so + d <= order[s] < i + d && idMap[order[s] - d] == s + d
  }

  lemma RecordedStep(order: seq<nat>, idMap: seq<u32>, d: nat, so: nat, i: nat, slot: nat, oldId: nat)
    requires i < |idMap| && Recorded(order, idMap, d, so, i) && oldId == i + d
    requires so <= slot < |order| && idMap[i] == slot + d && order[slot] == 0 && so + d > 0
    ensures Recorded(order[slot := oldId], idMap, d, so, i + 1)
  {
  }

  lemma JustifiedStep(order: seq<nat>, idMap: seq<u32>, d: nat, so: nat, i: nat, slot: nat, oldId: nat)
    requires i < |idMap| && Justified(order, idMap, d, so, i) && oldId == i + d && so <= i
    requires so <= slot < |order| && idMap[i] == slot + d
    ensures Justified(order[slot := oldId], idMap, d, so, i + 1)
  {
  }

  lemma OrderedStep(order: seq<nat>, idMap: seq<u32>, d: nat, so: nat, i: nat, slot: nat, oldId: nat)
    requires OrderedUpTo(order, idMap, d, so, i) && i < |idMap| && oldId == i + d
    requires so <= slot < |order| && idMap[i] == slot + d && order[slot] == 0 && so + d > 0
    ensures OrderedUpTo(order[slot := oldId], idMap, d, so, i + 1)
  {
    hide Recorded, Justified;
    RecordedStep(order, idMap, d, so, i, slot, oldId);
    JustifiedStep(order, idMap, d, so, i, slot, oldId);
  }

  lemma OrderedClash(order: seq<nat>, idMap: seq<u32>, start: nat, n: nat, so: nat, i: nat)
    requires so <= start && OrderedUpTo(order, idMap, start - so, so, i) && i < |idMap|
    requires start <= idMap[i] < start + n && |idMap| == n + so && order[idMap[i] - (start - so)] != 0
    ensures !MapValid(idMap, start, n, so)
  {
    var k := order[idMap[i] - (start - so)] - (start - so);
    assert idMap[k] == idMap[i];
  }

  lemma OrderedEnd(order: seq<nat>, idMap: seq<u32>, start: nat, n: nat, so: nat)
    requires so <= start && OrderedUpTo(order, idMap, start - so, so, |idMap|) && |idMap| == n + so
    ensures MapValid(idMap, start, n, so)
  {
    forall j, k | so <= j < k < |idMap|
      ensures idMap[j] != idMap[k]
    {
      assert order[idMap[j] - (start - so)] == j + (start - so);
    }
  }

  /** Fills the order map: for every new id, the old id that goes there. Fails on a bad map. */
  method CheckMap(btf: Btf, idMap: array<u32>, so: nat) returns (ok: bool, order: array<nat>)
    requires btf.Valid() && so == (if btf.hasBase then 0 else 1) && idMap.Length == btf.nrTypes + so
    ensures fresh(order) && order.Length == idMap.Length
    ensures ok <==> MapValid(idMap[..], btf.startId, btf.nrTypes, so)
    ensures ok ==> OrderedUpTo(order[..], idMap[..], btf.startId - so, so, idMap.Length)
  {
    hide OrderedUpTo, Represents;
    order := new nat[idMap.Length](_ => 0);
    var start, d := btf.startId, btf.startId - so;
    OrderedStart(order[..], idMap[..], d, so);
    var i := so;
    while i < idMap.Length
      invariant so <= i <= idMap.Length && OrderedUpTo(order[..], idMap[..], d, so, i)
    {
      var id := idMap[i];
      if id < start || id >= btf.TypeCnt() {
        assert idMap[..][i] == id;
        return false, order;
      }
      if order[id - d] != 0 {
        OrderedClash(order[..], idMap[..], start, btf.nrTypes, so, i);
        return false, order;
      }
      ghost var before := order[..];
      var oldId := i + d;
      order[id - d] := oldId;
      OrderedStep(before, idMap[..], d, so, i, id - d, oldId);
      assert order[..] == before[id - d := oldId];
      i := i + 1;
    }
    OrderedEnd(order[..], idMap[..], start, btf.nrTypes, so);
    ok := true;
  }

  lemma OrderedStart(order: seq<nat>, idMap: seq<u32>, d: nat, so: nat)
    requires |order| == |idMap| >= so && forall s :: 0 <= s < |order| ==> order[s] == 0
    ensures OrderedUpTo(order, idMap, d, so, so)
  {
  }

  /** The callback btf_permute_remap_type_id on every reference of the copy at `p`. */
  method RemapCopy(a: array<u32>, p: nat, idMap: array<u32>, start: nat, cnt: nat, so: nat,
                   ghost rec: Record)
    returns (r: Status)
    requires a != idMap && WellSized(rec) && p + |rec| <= a.Length && a[..][p..p + |rec|] == rec
    requires start <= cnt <= BTF_MAX_NR_TYPES && idMap.Length == cnt - start + so
    modifies a
    ensures r == if RefsBelow(rec, cnt) then Ok else Err(EINVAL)
    ensures a[..][..p] == old(a[..])[..p]
    ensures r.Ok? ==> a[..][p..p + |rec|] == Rename(rec, IdTable(idMap[..], start, cnt - start, so))
  {
    hide RenamedUpTo, IsRef, KindOf, VlenOf, TrailingWords, IdsDesc, FieldIter.Valid, Awaits, RefsBelow;
    ghost var T := IdTable(idMap[..], start, cnt - start, so);
    RenamedStart(rec, T);
    RefsCheckedStart(rec, cnt);
    WellSizedHasDesc(rec);
    var it := new FieldIter(a[p + 1]);
    var pos := it.Next();
    ghost var done, cur, low := 0, rec, a[..p];
    assert a[p..p + |rec|] == rec;
    while pos.Some?
      invariant it.Valid() && it.info == rec[1] && fresh(it) && unchanged(idMap)
      invariant a[..p] == low && a[p..p + |rec|] == cur
      invariant |cur| == |rec| && RenamedUpTo(cur, rec, T, done)
      invariant RefsCheckedUpTo(rec, cnt, done)
      invariant Awaits(rec[1], done, pos) && it.seen == if pos.Some? then pos.value + 1 else done
      decreases pos.Some?, if pos.Some? then |rec| - pos.value else 0
    {
      RenamedPeek(cur, rec, T, done, pos.value);
      RefsCheckedStep(rec, cnt, done, pos.value);
      var id := a[p + pos.value];
      assert id == cur[pos.value];
      if id >= cnt {
        assert a[..][..p] == low;
        return Err(EINVAL);
      }
      RenamedStep(cur, rec, T, done, pos.value);
      if id >= start {
        a[p + pos.value] := idMap[id - start + so];
      }
      done, cur := pos.value + 1, Poke(cur, pos.value, T[id]);
      pos := it.Next();
      AwaitsInside(rec, done, pos);
    }
    RefsCheckedEnd(rec, cnt, done);
    RenamedEnd(cur, rec, T, done);
    assert a[..][..p] == low && a[..][p..p + |rec|] == cur;
    r := Ok;
  }

  ghost predicate RefsCheckedUpTo(rec: Record, n: nat, done: nat)
    requires |rec| >= BASE
  {
    forall i :: 0 <= i < |rec| && IsRef(rec[1], i) && i < done ==> rec[i] < n
  }

  lemma RefsCheckedStart(rec: Record, n: nat)
    requires |rec| >= BASE
    ensures RefsCheckedUpTo(rec, n, 0)
  {
  }

  lemma RefsCheckedStep(rec: Record, n: nat, done: nat, pos: nat)
    requires WellSized(rec) && RefsCheckedUpTo(rec, n, done) && Awaits(rec[1], done, Some(pos)) && pos < |rec|
    ensures rec[pos] < n ==> RefsCheckedUpTo(rec, n, pos + 1)
    ensures rec[pos] >= n ==> !RefsBelow(rec, n)
  {
  }

  lemma RefsCheckedEnd(rec: Record, n: nat, done: nat)
    requires |rec| >= BASE && RefsCheckedUpTo(rec, n, done) && Awaits(rec[1], done, None)
    ensures RefsBelow(rec, n)
  {
  }

  /** The order map read backwards: own position `j` receives own type `inv[j]`. */
  lemma OrderInverse(order: seq<nat>, idMap: seq<u32>, start: nat, n: nat, so: nat) returns (inv: seq<nat>)
    requires so <= start && |idMap| == n + so && MapValid(idMap, start, n, so)
    requires |order| == |idMap| && OrderedUpTo(order, idMap, start - so, so, |idMap|)
    ensures |inv| == n && Distinct(inv) && Inverse(Positions(idMap, start, n, so), inv)
    ensures Inverse(inv, Positions(idMap, start, n, so)) && forall k :: 0 <= k < n ==> inv[k] < n
    ensures |order| == n + so && forall j :: 0 <= j < n ==> order[so..][j] == inv[j] + start
  {
    hide OrderedUpTo;
    var p, own := Positions(idMap, start, n, so), order[so..];
    forall j | 0 <= j < n
      ensures start <= own[j] < start + n && p[own[j] - start] == j
    {
      var k := PositionsOnto(idMap, start, n, so, j);
      RecordedAt(order, idMap, start - so, so, |idMap|, k + so);
      assert own[j] == order[j + so];
    }
    inv := [];
    while |inv| < n
      invariant |inv| <= n && forall j :: 0 <= j < |inv| ==> own[j] == inv[j] + start
    {
      inv := inv + [own[|inv|] - start];
    }
    InverseBothWays(p, inv);
  }

  lemma RecordedAt(order: seq<nat>, idMap: seq<u32>, d: nat, so: nat, i: nat, k: nat)
    requires OrderedUpTo(order, idMap, d, so, i) && so <= k < i
    ensures |order| == |idMap| && so + d <= idMap[k] < |order| + d && order[idMap[k] - d] == k + d
  {
  }

  lemma InverseBothWays(p: seq<nat>, inv: seq<nat>)
    requires |p| == |inv| && Distinct(p) && forall k :: 0 <= k < |p| ==> p[k] < |p|
    requires forall j :: 0 <= j < |inv| ==> inv[j] < |p| && p[inv[j]] == j
    ensures Inverse(p, inv) && Inverse(inv, p) && Distinct(inv)
  {
    forall k | 0 <= k < |p|
      ensures inv[p[k]] == k
    {
      assert p[inv[p[k]]] == p[k];
    }
  }

  /** The words written so far are the renamed copies of the first `j` types of the new order. */
  ghost predicate Built(mem: seq<u32>, p: nat, R: seq<Record>, inv: seq<nat>, t: seq<u32>, j: nat) {
    && j <= |inv| == |R| && |mem| == |Flatten(R)| && Distinct(inv)
    && (forall k :: 0 <= k < |inv| ==> inv[k] < |R| && WellSized(R[k]))
    && (forall k :: 0 <= k < j ==> RefsBelow(R[inv[k]], |t|))
    && p <= |mem| && mem[..p] == Flatten(BuiltRecs(R, inv, t, j))
    && p == |Flatten(Select(R, inv[..j]))|
  }

  ghost function BuiltRecs(R: seq<Record>, inv: seq<nat>, t: seq<u32>, j: nat): (b: seq<Record>)
    requires j <= |inv|
    requires forall k :: 0 <= k < j ==> inv[k] < |R| && WellSized(R[inv[k]]) && RefsBelow(R[inv[k]], |t|)
    ensures |b| == j && forall k :: 0 <= k < j ==> b[k] == Rename(R[inv[k]], t)
  {
    seq(j, k requires 0 <= k < j => Rename(R[inv[k]], t))
  }

  lemma BuiltRoom(mem: seq<u32>, p: nat, R: seq<Record>, inv: seq<nat>, t: seq<u32>, j: nat)
    requires Built(mem, p, R, inv, t, j) && j < |inv|
    ensures inv[j] < |R| && WellSized(R[inv[j]])
    ensures p + |R[inv[j]]| <= |mem|
    ensures |Flatten(Select(R, inv[..j + 1]))| == p + |R[inv[j]]|
  {
    hide Flatten;
    assert inv[..j + 1] == inv[..j] + [inv[j]];
    assert Select(R, inv[..j + 1]) == Select(R, inv[..j]) + [R[inv[j]]];
    FlattenSnoc(Select(R, inv[..j]), R[inv[j]]);
    SelectSize(R, inv[..j + 1]);
  }

  lemma BuiltStep(mem: seq<u32>, mem': seq<u32>, p: nat, R: seq<Record>, inv: seq<nat>, t: seq<u32>, j: nat)
    requires Built(mem, p, R, inv, t, j) && j < |inv| && |mem'| == |mem|
    requires inv[j] < |R| && WellSized(R[inv[j]]) && RefsBelow(R[inv[j]], |t|) && p + |R[inv[j]]| <= |mem|
    requires mem'[..p] == mem[..p] && mem'[p..p + |R[inv[j]]|] == Rename(R[inv[j]], t)
    ensures Built(mem', p + |R[inv[j]]|, R, inv, t, j + 1)
  {
    hide Flatten, WellSized, RefsBelow, Rename, Select, BuiltRecs, Distinct;
    BuiltRoom(mem, p, R, inv, t, j);
    var r := Rename(R[inv[j]], t);
    BuiltSnoc(R, inv, t, j);
    MemSnoc(mem', p, BuiltRecs(R, inv, t, j), r);
  }

  lemma MemSnoc(mem: seq<u32>, p: nat, recs: seq<Record>, r: Record)
    requires p + |r| <= |mem| && mem[..p] == Flatten(recs) && mem[p..p + |r|] == r
    ensures mem[..p + |r|] == Flatten(recs + [r])
  {
    hide Flatten;
    FlattenSnoc(recs, r);
    PrefixGrows(mem, p, |r|);
  }

  lemma BuiltSnoc(R: seq<Record>, inv: seq<nat>, t: seq<u32>, j: nat)
    requires j < |inv|
    requires forall k :: 0 <= k <= j ==> inv[k] < |R| && WellSized(R[inv[k]]) && RefsBelow(R[inv[k]], |t|)
    ensures BuiltRecs(R, inv, t, j + 1) == BuiltRecs(R, inv, t, j) + [Rename(R[inv[j]], t)]
  {
    hide WellSized, RefsBelow, Rename;
  }

  lemma PrefixGrows<T>(s: seq<T>, a: nat, n: nat)
    requires a + n <= |s|
    ensures s[..a + n] == s[..a] + s[a..a + n]
  {
  }

  lemma BuiltEnd(mem: seq<u32>, p: nat, R: seq<Record>, inv: seq<nat>, t: seq<u32>)
    requires Built(mem, p, R, inv, t, |inv|)
    ensures forall k :: 0 <= k < |inv| ==> inv[k] < |R| && WellSized(R[inv[k]]) && RefsBelow(R[inv[k]], |t|)
    ensures |inv| == |R| && p == |mem| && mem == Flatten(BuiltRecs(R, inv, t, |inv|))
  {
    hide Flatten, WellSized, RefsBelow;
    assert inv[..|inv|] == inv;
    SelectSize(R, inv);
    assert mem[..p] == mem;
  }

  lemma BuiltPermuted(R: seq<Record>, p: seq<nat>, inv: seq<nat>, t: seq<u32>)
    requires |R| == |p| == |inv| && Inverse(p, inv) && Inverse(inv, p)
    requires forall k :: 0 <= k < |inv| ==> inv[k] < |R| && WellSized(R[inv[k]]) && RefsBelow(R[inv[k]], |t|)
    ensures AllRefsBelow(R, |t|)
    ensures Permuted(R, BuiltRecs(R, inv, t, |inv|), p, t)
    ensures forall k :: 0 <= k < |R| ==> WellSized(BuiltRecs(R, inv, t, |inv|)[k])
  {
    forall k | 0 <= k < |R|
      ensures WellSized(R[k]) && RefsBelow(R[k], |t|)
    {
      assert inv[p[k]] == k;
    }
  }

  /** Recomputes the offset index by walking the new types memory. */
  method IndexTypes(a: array<u32>, offs: array<nat>, n: nat, ghost recs: seq<Record>)
    requires |recs| == n <= offs.Length && a[..] == Flatten(recs)
    requires forall k :: 0 <= k < n ==> WellSized(recs[k])
    modifies offs
    ensures Represents(a[..], a.Length, offs[..], recs)
  {
    var nt: nat := 0;
    for i := 0 to n
      invariant a[..] == Flatten(recs) && nt == Offset(recs, i)
      invariant forall k :: 0 <= k < i ==> offs[k] == Offset(recs, k)
    {
      offs[i] := nt;
      FlattenAt(recs, i);
      assert a[..][nt..nt + |recs[i]|][1] == a[nt + 1];
      nt := nt + BASE + TrailingWords(a[nt + 1]).value;
    }
    assert a[..a.Length] == a[..];
  }

  /** Copies the records into new memory in their new order and rewrites their references. */
  method BuildTypes(btf: Btf, idMap: array<u32>, order: array<nat>, so: nat, ghost inv: seq<nat>)
    returns (r: Status, nt: array<u32>)
    requires btf.Valid() && idMap.Length == order.Length == btf.nrTypes + so && so <= btf.startId
    requires |inv| == btf.nrTypes && Distinct(inv) && forall k :: 0 <= k < |inv| ==> inv[k] < |inv|
    requires forall j :: 0 <= j < |inv| ==> order[so..][j] == inv[j] + btf.startId
    ensures fresh(nt) && nt.Length == btf.typeLen
    ensures r.Err? ==> r == Err(EINVAL) && !AllRefsBelow(btf.recs, btf.TypeCnt())
    ensures r.Ok? ==> Built(nt[..], nt.Length, btf.recs, inv,
                            IdTable(idMap[..], btf.startId, btf.nrTypes, so), btf.nrTypes)
  {
    hide Represents, Built, WellSized, RefsBelow, Flatten, Select, IsRef, Distinct;
    var start, cnt := btf.startId, btf.TypeCnt();
    ghost var R, mem, offs, ord := btf.recs, btf.types[..], btf.offs[..], order[so..];
    ghost var t := IdTable(idMap[..], start, btf.nrTypes, so);
    RepresentsSized(mem, btf.typeLen, offs, R);
    nt := new u32[btf.typeLen](_ => 0);
    var p: nat := 0;
    BuiltStart(nt[..], R, inv, t);
    var i := so;
    while i < idMap.Length
      invariant so <= i <= idMap.Length && Built(nt[..], p, R, inv, t, i - so)
    {
      ghost var j, before := i - so, nt[..];
      var id := order[i];
      assert ord[j] == id;
      BuiltRoom(before, p, R, inv, t, j);
      RepresentsAt(mem, btf.typeLen, offs, R, inv[j]);
      var size := CopyRecord(btf, inv[j], id - start, nt, p);
      var err := RemapCopy(nt, p, idMap, start, cnt, so, R[inv[j]]);
      if err != Ok {
        return err, nt;
      }
      BuiltStep(before, nt[..], p, R, inv, t, j);
      p := p + size;
      i := i + 1;
    }
    BuiltEnd(nt[..], p, R, inv, t);
    r := Ok;
  }

  ghost predicate AllRefsBelow(recs: seq<Record>, n: nat) {
    forall i :: 0 <= i < |recs| ==> RefsBelow(recs[i], n)
  }

  /** Copies record `i` to position `p` of the new memory and returns its size. */
  method CopyRecord(btf: Btf, ghost i: nat, k: nat, nt: array<u32>, p: nat) returns (size: nat)
    requires btf.Valid() && i == k < btf.nrTypes && nt != btf.types && p + |btf.recs[i]| <= nt.Length
    modifies nt
    ensures size == |btf.recs[i]|
    ensures nt[..][..p] == old(nt[..])[..p] && nt[..][p..p + size] == btf.recs[i]
  {
    hide Represents;
    RepresentsAt(btf.types[..], btf.typeLen, btf.offs[..], btf.recs, i);
    var from := btf.offs[k];
    size := BASE + TrailingWords(btf.types[from + 1]).value;
    ghost var before := nt[..];
    MemCpy(nt, p, btf.types, from, size);
    assert nt[..][..p] == before[..p];
  }

  /** Recomputes the offsets and puts the new types memory in place. */
  method InstallTypes(btf: Btf, nt: array<u32>, ghost p: seq<nat>, ghost inv: seq<nat>, ghost t: seq<u32>)
    requires btf.Valid() && nt.Length == btf.typeLen && |p| == |inv| == btf.nrTypes
    requires Inverse(p, inv) && Inverse(inv, p) && Built(nt[..], nt.Length, btf.recs, inv, t, |inv|)
    modifies btf, btf.offs
    ensures btf.Valid() && btf.offs == old(btf.offs)
    ensures Permuted(old(btf.recs), btf.recs, p, t) && AllRefsBelow(old(btf.recs), |t|)
  {
    hide Represents, Built, WellSized, RefsBelow, AllRefsBelow, Permuted, Inverse, BuiltRecs, Flatten;
    ghost var R := btf.recs;
    RepresentsSized(btf.types[..], btf.typeLen, btf.offs[..], R);
    BuiltEnd(nt[..], nt.Length, R, inv, t);
    BuiltPermuted(R, p, inv, t);
    ghost var out := BuiltRecs(R, inv, t, |inv|);
    IndexTypes(nt, btf.offs, btf.nrTypes, out);
    btf.types := nt;
    btf.recs := out;
  }

  /**
   * The map renumbers exactly the own types, fixing void in base BTF, and no record refers to a
   * type that does not exist.
   */
  ghost predicate Accepts(btf: Btf, idMap: seq<u32>)
    reads btf
  {
    && GoodMap(idMap, btf.startId, |btf.recs|, if btf.hasBase then 0 else 1)
    && AllRefsBelow(btf.recs, btf.startId + |btf.recs|)
  }

  /** btf__permute without the optional .BTF.ext section. */
  method Permute(btf: Btf, idMap: array<u32>) returns (r: Status)
    requires btf.Valid() && btf.types != idMap
    requires !btf.hasBase ==> idMap.Length >= 1
    modifies btf, btf.offs
    ensures btf.Valid() && btf.offs == old(btf.offs)
    ensures r == if old(Accepts(btf, idMap[..])) then Ok else Err(EINVAL)
    ensures r.Ok? ==>
      var so, n := if btf.hasBase then 0 else 1, |old(btf.recs)|;
      && MapValid(old(idMap[..]), btf.startId, n, so) && btf.startId + n <= BTF_MAX_NR_TYPES
      && Permuted(old(btf.recs), btf.recs, Positions(old(idMap[..]), btf.startId, n, so),
                  IdTable(old(idMap[..]), btf.startId, n, so))
    ensures r.Err? ==> btf.recs == old(btf.recs) && btf.types == old(btf.types) &&
                       btf.offs[..] == old(btf.offs[..])
  {
    hide Represents, OrderedUpTo, Built, WellSized, AllRefsBelow, Permuted, Inverse, MapValid, GoodMap;
    ghost var R, m, start, n := btf.recs, idMap[..], btf.startId, btf.nrTypes;
    RepresentsSized(btf.types[..], btf.typeLen, btf.offs[..], R);
    var so := if btf.hasBase then 0 else 1;
    GoodMapParts(m, start, n, so);
    if !btf.hasBase && idMap[0] != 0 {
      return Err(EINVAL);
    }
    if idMap.Length != btf.nrTypes + so {
      return Err(EINVAL);
    }
    var ok, order := CheckMap(btf, idMap, so);
    if !ok {
      return Err(EINVAL);
    }
    ghost var inv := OrderInverse(order[..], m, start, n, so);
    var nt: array<u32>;
    r, nt := BuildTypes(btf, idMap, order, so, inv);
    if r != Ok {
      return r;
    }
    InstallTypes(btf, nt, Positions(m, start, n, so), inv, IdTable(m, start, n, so));
  }

  lemma GoodMapParts(m: seq<u32>, start: nat, n: nat, so: nat)
    requires so > 0 ==> |m| > 0
    ensures GoodMap(m, start, n, so) <==>
              MapValid(m, start, n, so) && |m| == n + so && (so > 0 ==> m[0] == 0)
  {
  }

  lemma BuiltStart(mem: seq<u32>, R: seq<Record>, inv: seq<nat>, t: seq<u32>)
    requires |inv| == |R| && |mem| == |Flatten(R)| && Distinct(inv)
    requires forall k :: 0 <= k < |R| ==> inv[k] < |R| && WellSized(R[k])
    ensures Built(mem, 0, R, inv, t, 0)
  {
    assert inv[..0] == [];
    assert Select(R, []) == [];
  }
}

/** What merging the hypothetical map does to the canonical map. */
module MergeSpec {
  import opened Words
  import opened BtfRecords
  import opened CanonicalMap
  import opened EquivSpec

  /** A type's name and kind; a forward counts as what it declares, a 64-bit enum as an enum. */
  datatype Label = Label(name: u32, kind: nat)

  function LabelOf(r: Record): Label
    requires |r| >= BASE
  {
    Label(r[0], if IsFwd(r) then FwdKind(r) else if Kind(r) == BTF_KIND_ENUM64 then BTF_KIND_ENUM else Kind(r))
  }

  ghost predicate MapFor(types: seq<Record>, m: seq<u32>) {
    && |m| == |types| <= BTF_MAX_NR_TYPES && Acyclic(m)
    && forall i :: 0 <= i < |types| ==> |types[i]| >= BASE
  }

  /** Links stay within the groups that `f` names. */
  ghost predicate Within<T>(m: seq<u32>, f: nat -> T) {
    forall i :: 0 <= i < |m| && Linked(m, i) ==> f(i) == f(m[i])
  }

  lemma {:induction false} RootWithin<T>(m: seq<u32>, f: nat -> T, rank: seq<nat>, i: nat)
    requires Ranked(m, rank) && Within(m, f) && i < |m|
    ensures f(RootBy(m, rank, i)) == f(i)
    decreases rank[i]
  {
    if Linked(m, i) {
      RootWithin(m, f, rank, m[i]);
    }
  }

  /** Every type is in the group of its canonical type. */
  lemma SameGroup<T>(m: seq<u32>, f: nat -> T, i: nat)
    requires Acyclic(m) && Within(m, f) && i < |m|
    ensures f(Root(m, i)) == f(i)
  {
    var rank :| Ranked(m, rank) && Root(m, i) == RootBy(m, rank, i);
    RootWithin(m, f, rank, i);
  }

  /** Sending any id on to the end of another chain, or to itself, makes no cycle. */
  lemma Relink(m: seq<u32>, a: nat, b: nat)
    requires Acyclic(m) && a < |m| && b < |m| <= BTF_MAX_NR_TYPES && !Linked(m, b)
    ensures Acyclic(m[a := b])
  {
    var rank :| Ranked(m, rank);
    var m' := m[a := b];
    if a == b {
      assert Ranked(m', rank);
    } else {
      var rank' := seq(|m|, i requires 0 <= i < |m| => if i == b then 0 else rank[i] + 1);
      assert Ranked(m', rank');
    }
  }

  /** Only ids without a canonical type, and forwards, have been given another one. */
  ghost predicate OnlyOpen(types: seq<Record>, m: seq<u32>, m': seq<u32>) {
    && |m| == |m'| == |types|
    && forall i :: 0 <= i < |m| && m'[i] != m[i] ==>
         |types[i]| >= BASE && (!Mapped(m, i) || IsFwd(types[i])) && Mapped(m', i)
  }

  /** A record that is no forward. */
  predicate IsFull(r: Record) {
    |r| >= BASE && !IsFwd(r)
  }

  /** What is no forward is not sent on to one. */
  ghost predicate FullStays(types: seq<Record>, m: seq<u32>) {
    && |m| == |types|
    && forall i :: 0 <= i < |m| && Linked(m, i) && m[i] < |types| && IsFull(types[i]) ==> IsFull(types[m[i]])
  }

  lemma {:induction false} RootFull(types: seq<Record>, m: seq<u32>, rank: seq<nat>, i: nat)
    requires Ranked(m, rank) && FullStays(types, m) && i < |m| && forall j :: 0 <= j < |types| ==> |types[j]| >= BASE
    requires !IsFwd(types[i])
    ensures !IsFwd(types[RootBy(m, rank, i)])
    decreases rank[i]
  {
    if Linked(m, i) {
      RootFull(types, m, rank, m[i]);
    }
  }

  /** Only a forward has a forward as its canonical type. */
  lemma RootOfFull(types: seq<Record>, m: seq<u32>, i: nat)
    requires MapFor(types, m) && FullStays(types, m) && i < |m| && !IsFwd(types[i])
    ensures !IsFwd(types[Root(m, i)])
  {
    var rank :| Ranked(m, rank) && Root(m, i) == RootBy(m, rank, i);
    RootFull(types, m, rank, i);
  }

  /** One recorded pair of btf_dedup_merge_hypot_map. */
  ghost function MergeOne(types: seq<Record>, m: seq<u32>, canon: nat, targ: nat, adjust: bool): (m': seq<u32>)
    requires MapFor(types, m) && canon < |types| && targ < |types|
    ensures MapFor(types, m')
  {
    var t, c := Root(m, targ), Root(m, canon);
    Relink(m, c, t);
    Relink(m, t, c);
    if !IsFwd(types[t]) && IsFwd(types[c]) then m[c := t]
    else if adjust then m
    else if IsFwd(types[t]) && !IsFwd(types[c]) then m[t := c]
    else if IsCompositeKind(Kind(types[t])) && !IsFwd(types[c]) && Mapped(m, c) && !Mapped(m, t) then m[t := c]
    else m
  }

  /** The recorded pairs of `list`, one after the other. */
  ghost predicate RecordedPairs(types: seq<Record>, h: seq<u32>, list: seq<nat>) {
    |h| == |types| && forall k :: 0 <= k < |list| ==> list[k] < |h| && h[list[k]] < |types|
  }

  ghost function MergeAll(types: seq<Record>, m: seq<u32>, h: seq<u32>, list: seq<nat>, adjust: bool): (m': seq<u32>)
    requires MapFor(types, m) && RecordedPairs(types, h, list)
    ensures MapFor(types, m')
  {
    if list == [] then m
    else
      var n := |list| - 1;
      MergeOne(types, MergeAll(types, m, h, list[..n], adjust), list[n], h[list[n]], adjust)
  }

  lemma MergeOneWithin<T>(types: seq<Record>, m: seq<u32>, canon: nat, targ: nat, adjust: bool, f: nat -> T)
    requires MapFor(types, m) && canon < |types| && targ < |types| && Within(m, f) && f(canon) == f(targ)
    ensures Within(MergeOne(types, m, canon, targ, adjust), f)
  {
    SameGroup(m, f, canon);
    SameGroup(m, f, targ);
  }

  lemma MergeOneOpens(types: seq<Record>, m: seq<u32>, canon: nat, targ: nat, adjust: bool)
    requires MapFor(types, m) && canon < |types| && targ < |types|
    ensures OnlyOpen(types, m, MergeOne(types, m, canon, targ, adjust))
  {
  }

  lemma OnlyOpenTwice(types: seq<Record>, a: seq<u32>, b: seq<u32>, c: seq<u32>)
    requires OnlyOpen(types, a, b) && OnlyOpen(types, b, c)
    ensures OnlyOpen(types, a, c)
  {
  }

  /**
   * Merging joins only what was recorded together: whatever grouping both the map and the recorded
   * pairs stay within, the merged map stays within it too, and it has no cycle.
   */
  lemma {:induction false} MergeWithin<T>(types: seq<Record>, m: seq<u32>, h: seq<u32>, list: seq<nat>, adjust: bool,
                                          f: nat -> T)
    requires MapFor(types, m) && RecordedPairs(types, h, list) && Within(m, f)
    requires forall k :: 0 <= k < |list| ==> f(list[k]) == f(h[list[k]])
    ensures Within(MergeAll(types, m, h, list, adjust), f)
    ensures Acyclic(MergeAll(types, m, h, list, adjust))
  {
    if list != [] {
      hide MapFor, Within;
      var n := |list| - 1;
      MergeWithin(types, m, h, list[..n], adjust, f);
      MergeOneWithin(types, MergeAll(types, m, h, list[..n], adjust), list[n], h[list[n]], adjust, f);
      MapForAcyclic(types, MergeAll(types, m, h, list, adjust));
    } else {
      MapForAcyclic(types, m);
    }
  }

  lemma MapForAcyclic(types: seq<Record>, m: seq<u32>)
    requires MapFor(types, m)
    ensures Acyclic(m)
  {
  }

  /** Merging redirects only forwards and types that had no canonical type. */
  lemma {:induction false} MergeOpens(types: seq<Record>, m: seq<u32>, h: seq<u32>, list: seq<nat>, adjust: bool)
    requires MapFor(types, m) && RecordedPairs(types, h, list)
    ensures OnlyOpen(types, m, MergeAll(types, m, h, list, adjust))
  {
    if list != [] {
      hide MapFor;
      var n := |list| - 1;
      var m1 := MergeAll(types, m, h, list[..n], adjust);
      MergeOpens(types, m, h, list[..n], adjust);
      MergeOneOpens(types, m1, list[n], h[list[n]], adjust);
      OnlyOpenTwice(types, m, m1, MergeAll(types, m, h, list, adjust));
    }
  }

  /** No type has become its own canonical type. */
  ghost predicate NoneOwned(m: seq<u32>, m': seq<u32>) {
    |m| == |m'| && forall i :: 0 <= i < |m| && m'[i] != m[i] ==> m'[i] != i
  }

  lemma MergeOneOwns(types: seq<Record>, m: seq<u32>, canon: nat, targ: nat, adjust: bool)
    requires MapFor(types, m) && canon < |types| && targ < |types|
    ensures NoneOwned(m, MergeOne(types, m, canon, targ, adjust))
  {
  }

  lemma {:induction false} MergeOwns(types: seq<Record>, m: seq<u32>, h: seq<u32>, list: seq<nat>, adjust: bool)
    requires MapFor(types, m) && RecordedPairs(types, h, list)
    ensures NoneOwned(m, MergeAll(types, m, h, list, adjust))
  {
    if list != [] {
      hide MapFor;
      var n := |list| - 1;
      MergeOwns(types, m, h, list[..n], adjust);
      MergeOneOwns(types, MergeAll(types, m, h, list[..n], adjust), list[n], h[list[n]], adjust);
    }
  }

  lemma MergeOneAdjusted(types: seq<Record>, m: seq<u32>, canon: nat, targ: nat, i: nat)
    requires MapFor(types, m) && canon < |types| && targ < |types| && i < |types| && !IsFwd(types[i])
    ensures MergeOne(types, m, canon, targ, true)[i] == m[i]
  {
  }

  /** Where base BTF would have to change, only forwards are redirected. */
  lemma {:induction false} MergeAdjusted(types: seq<Record>, m: seq<u32>, h: seq<u32>, list: seq<nat>, i: nat)
    requires MapFor(types, m) && RecordedPairs(types, h, list) && i < |types| && |types[i]| >= BASE && !IsFwd(types[i])
    ensures MergeAll(types, m, h, list, true)[i] == m[i]
  {
    if list != [] {
      hide MapFor;
      var n := |list| - 1;
      MergeAdjusted(types, m, h, list[..n], i);
      MergeOneAdjusted(types, MergeAll(types, m, h, list[..n], true), list[n], h[list[n]], i);
    }
  }

  lemma {:induction false} MergeFull(types: seq<Record>, m: seq<u32>, h: seq<u32>, list: seq<nat>, adjust: bool)
    requires MapFor(types, m) && RecordedPairs(types, h, list) && FullStays(types, m)
    ensures FullStays(types, MergeAll(types, m, h, list, adjust))
  {
    if list != [] {
      hide MapFor;
      var n := |list| - 1;
      MergeFull(types, m, h, list[..n], adjust);
      MergeOneFull(types, MergeAll(types, m, h, list[..n], adjust), list[n], h[list[n]], adjust);
    }
  }

  lemma MergeOneFull(types: seq<Record>, m: seq<u32>, canon: nat, targ: nat, adjust: bool)
    requires MapFor(types, m) && canon < |types| && targ < |types| && FullStays(types, m)
    ensures FullStays(types, MergeOne(types, m, canon, targ, adjust))
  {
  }

  lemma {:induction false} RelinkRootBy(m: seq<u32>, rank: seq<nat>, rank': seq<nat>, a: nat, b: nat, i: nat)
    requires Ranked(m, rank) && a < |m| && b < |m| <= BTF_MAX_NR_TYPES && a != b && i < |m|
    requires !Linked(m, a) && !Linked(m, b) && Ranked(m[a := b], rank')
    ensures RootBy(m[a := b], rank', i) == if RootBy(m, rank, i) == a then b else RootBy(m, rank, i)
    decreases rank[i]
  {
    if i == a {
      assert RootBy(m[a := b], rank', b) == b;
    } else if Linked(m, i) {
      RelinkRootBy(m, rank, rank', a, b, m[i]);
    }
  }

  /** Sending one end on to another joins their chains and no others. */
  lemma RelinkRoot(m: seq<u32>, a: nat, b: nat, i: nat)
    requires Acyclic(m) && a < |m| && b < |m| <= BTF_MAX_NR_TYPES && a != b && i < |m|
    requires !Linked(m, a) && !Linked(m, b)
    ensures Acyclic(m[a := b]) && Root(m[a := b], i) == if Root(m, i) == a then b else Root(m, i)
  {
    Relink(m, a, b);
    var rank :| Ranked(m, rank) && Root(m, i) == RootBy(m, rank, i);
    var rank' :| Ranked(m[a := b], rank') && Root(m[a := b], i) == RootBy(m[a := b], rank', i);
    RelinkRootBy(m, rank, rank', a, b, i);
  }

  /** What decides whether a recorded pair gets one canonical type. */
  ghost predicate Joins(types: seq<Record>, m: seq<u32>, canon: nat, targ: nat, adjust: bool)
    requires MapFor(types, m) && canon < |types| && targ < |types|
  {
    var t, c := Root(m, targ), Root(m, canon);
    var tFwd, cFwd := Kind(types[t]) == BTF_KIND_FWD, Kind(types[c]) == BTF_KIND_FWD;
    || t == c
    || (cFwd && !tFwd)
    || (!adjust && tFwd && !cFwd)
    || (!adjust && !cFwd && (Kind(types[t]) == BTF_KIND_STRUCT || Kind(types[t]) == BTF_KIND_UNION) && Mapped(m, c) &&
        !Mapped(m, t))
  }

  /** Merging a pair joins it exactly if that is so, and joins what was joined before. */
  lemma MergeOneJoins(types: seq<Record>, m: seq<u32>, canon: nat, targ: nat, adjust: bool)
    requires MapFor(types, m) && canon < |types| && targ < |types|
    ensures var m' := MergeOne(types, m, canon, targ, adjust);
            && (Root(m', canon) == Root(m', targ) <==> Joins(types, m, canon, targ, adjust))
            && forall x, y :: 0 <= x < |m| && 0 <= y < |m| && Root(m, x) == Root(m, y) ==> Root(m', x) == Root(m', y)
  {
    var t, c := Root(m, targ), Root(m, canon);
    var m' := MergeOne(types, m, canon, targ, adjust);
    if m' != m && t != c {
      var (a, b) := if m' == m[c := t] then (c, t) else (t, c);
      assert m' == m[a := b];
      hide MergeOne, Kind;
      forall x | 0 <= x < |m|
        ensures Root(m', x) == if Root(m, x) == a then b else Root(m, x)
      {
        RelinkRoot(m, a, b, x);
      }
    }
  }

  /** So it is for the whole list: a pair that is joined at its turn stays so. */
  lemma {:induction false} MergeJoins(types: seq<Record>, m: seq<u32>, h: seq<u32>, list: seq<nat>, adjust: bool,
                                      k: nat)
    requires MapFor(types, m) && RecordedPairs(types, h, list) && k < |list|
    requires Joins(types, MergeAll(types, m, h, list[..k], adjust), list[k], h[list[k]], adjust)
    ensures var m' := MergeAll(types, m, h, list, adjust); Root(m', list[k]) == Root(m', h[list[k]])
  {
    hide Joins, MergeOne;
    var n := |list| - 1;
    var m1 := MergeAll(types, m, h, list[..n], adjust);
    assert MergeAll(types, m, h, list, adjust) == MergeOne(types, m1, list[n], h[list[n]], adjust);
    MergeOneJoins(types, m1, list[n], h[list[n]], adjust);
    if k < n {
      assert list[..n][..k] == list[..k] && list[..n][k] == list[k];
      MergeJoins(types, m, h, list[..n], adjust, k);
      assert Root(m1, list[k]) == Root(m1, h[list[k]]);
    } else {
      assert list[..n] == list[..k];
    }
  }

  /** Pairs that a bisimulation records have the same name and kind. */
  lemma CompatibleLabel(a: Record, b: Record)
    requires |a| >= BASE && |b| >= BASE && Compatible(a, b)
    ensures LabelOf(a) == LabelOf(b)
  {
  }
}

/** btf_dedup_struct_types: canonical types for structs, unions and typedefs. */
module StructDedup {
  import opened Words
  import opened BtfRecords
  import opened CanonicalMap
  import opened HashSpec
  import opened HashModel
  import opened HashChains
  import opened EquivSpec
  import opened Equivalence
  import opened PrimSpec
  import opened PrimDedup
  import opened MergeSpec
  import H = HashMap

  predicate IsStructKind(k: nat) {
    IsCompositeKind(k) || k == BTF_KIND_TYPEDEF
  }

  /** What this pass is about. */
  predicate IsStruct(r: Record)
    requires |r| >= BASE
  {
    Kind(r) == BTF_KIND_STRUCT || Kind(r) == BTF_KIND_UNION || Kind(r) == BTF_KIND_TYPEDEF
  }

  /** btf_hash_struct, after `n` members */
  function HashMembers(r: Record, n: nat): nat
    requires |r| >= BASE + 3 * n
  {
    if n == 0 then HashCommon(r)
    else HashCombine(HashCombine(HashMembers(r, n - 1), r[BASE + 3 * n - 3]), r[BASE + 3 * n - 1])
  }

  /** btf_hash_by_kind */
  function StructSig(r: Record): nat
    requires WellSized(r) && IsStruct(r)
  {
    if Kind(r) == BTF_KIND_TYPEDEF then HashCombine(HashCombine(0, r[0]), r[1]) else HashMembers(r, Vlen(r))
  }

  /** Type ids are not hashed: records with the same other words have one hash, so they meet in the table. */
  lemma SameWordsSig(a: Record, b: Record)
    requires WellSized(a) && WellSized(b) && IsStruct(a) && SameExceptRefs(a, b)
    ensures IsStruct(b) && StructSig(a) == StructSig(b)
  {
    NoIdInHeader(a);
    if Kind(a) != BTF_KIND_TYPEDEF {
      SameMembersHash(a, b, Vlen(a));
    }
  }

  lemma NoIdInHeader(a: Record)
    requires |a| >= BASE
    ensures !IsRef(a[1], 0) && !IsRef(a[1], 1)
    ensures IsCompositeKind(Kind(a)) ==> !IsRef(a[1], 2)
  {
  }

  lemma {:induction false} SameMembersHash(a: Record, b: Record, n: nat)
    requires |a| == |b| >= BASE + 3 * n && IsCompositeKind(Kind(a)) && SameExceptRefs(a, b)
    ensures HashMembers(a, n) == HashMembers(b, n)
  {
    NoIdInHeader(a);
    if n > 0 {
      SameMembersHash(a, b, n - 1);
      MemberIdAt(a, n - 1);
      hide IsRef;
    }
  }

  /** In member `j` of a struct or union only the middle word is an id. */
  lemma MemberIdAt(a: Record, j: nat)
    requires |a| >= BASE && IsCompositeKind(Kind(a))
    ensures !IsRef(a[1], BASE + 3 * j) && !IsRef(a[1], BASE + 3 * j + 2)
  {
    TripleResidues(j);
  }

  /** btf_equal_typedef */
  predicate EqualTypedef(a: Record, b: Record)
    requires |a| >= BASE && |b| >= BASE
  {
    a[0] == b[0] && a[1] == b[1]
  }

  /** The words of a record, with zeros for its type ids. */
  function Masked(r: Record): (m: Record)
    requires |r| >= BASE
    ensures |m| == |r| && forall i :: 0 <= i < |r| ==> m[i] == if IsRef(r[1], i) then 0 else r[i]
  {
    seq(|r|, i requires 0 <= i < |r| => if IsRef(r[1], i) then 0 else r[i])
  }

  lemma MaskedSame(a: Record, b: Record)
    requires |a| >= BASE && |b| >= BASE
    ensures Masked(a) == Masked(b) <==> SameExceptRefs(a, b)
  {
    hide KindOf, VlenOf;
    NoIdInHeader(a);
    NoIdInHeader(b);
    if Masked(a) == Masked(b) {
      assert Masked(a)[1] == Masked(b)[1];
      forall i | 0 <= i < |a| && !IsRef(a[1], i)
        ensures a[i] == b[i]
      {
        assert Masked(a)[i] == Masked(b)[i];
      }
    }
  }

  /** There is a forward of this name and kind. */
  ghost predicate Declared(types: seq<Record>, l: Label) {
    exists f :: 0 <= f < |types| && |types[f]| >= BASE && IsFwd(types[f]) && LabelOf(types[f]) == l
  }

  /** What type `i` has in common with its canonical type: the words too, if no forward has its name and kind. */
  datatype Group = Group(what: Label, words: Option<Record>)

  ghost function GroupOf(types: seq<Record>, i: nat): Group {
    if i < |types| && |types[i]| >= BASE then
      Group(LabelOf(types[i]),
            if IsStruct(types[i]) && !Declared(types, LabelOf(types[i])) then Some(Masked(types[i])) else None)
    else Group(Label(0, 0), None)
  }

  ghost function Groups(types: seq<Record>): nat -> Group {
    (i: nat) => GroupOf(types, i)
  }

  /** Types that a bisimulation may record together are in one group. */
  lemma CompatibleGroup(types: seq<Record>, x: nat, y: nat)
    requires x < |types| && y < |types| && |types[x]| >= BASE && |types[y]| >= BASE
    requires Compatible(types[x], types[y])
    ensures GroupOf(types, x) == GroupOf(types, y)
  {
    CompatibleLabel(types[x], types[y]);
    MaskedSame(types[x], types[y]);
    hide LabelOf, Masked;
  }

  /** Structs, unions or typedefs with the same words are in one group. */
  lemma SameWordsGroup(types: seq<Record>, x: nat, y: nat)
    requires x < |types| && y < |types| && |types[x]| >= BASE && |types[y]| >= BASE
    requires IsStruct(types[x]) && SameExceptRefs(types[x], types[y])
    ensures GroupOf(types, x) == GroupOf(types, y)
  {
    NoIdInHeader(types[x]);
    MaskedSame(types[x], types[y]);
    hide Masked, IsRef;
    assert types[x][0] == types[y][0] && types[x][1] == types[y][1];
  }

  /** State of the pass over the types from `start` on, before type `n`. */
  ghost predicate StructInv(g: Graph, bag: multiset<Pair>, start: nat, n: nat) {
    && g.Valid() && Within(g.map_, Groups(g.types)) && FullStays(g.types, g.map_) && 1 <= start <= n <= |g.types|
    && |bag| <= |g.types| + n
    && (forall p: Pair :: p in bag ==> 1 <= p.1 < |g.types| && (IsStruct(g.types[p.1]) ==> g.map_[p.1] == p.1))
    && forall i :: start <= i < n && IsStruct(g.types[i]) ==> Mapped(g.map_, i)
  }

  lemma GraphMap(g: Graph)
    requires g.Valid()
    ensures MapFor(g.types, g.map_)
  {
  }

  lemma OpenGraph(g: Graph, m: seq<u32>)
    requires g.Valid() && OnlyOpen(g.types, g.map_, m) && Acyclic(m)
    ensures Graph(g.types, m, g.identical).Valid()
  {
    assert KindOf(0) == BTF_KIND_UNKN;
  }

  ghost predicate Mergeable(g: Graph, h: seq<u32>, list: seq<nat>) {
    g.Valid() && MapFor(g.types, g.map_) && RecordedPairs(g.types, h, list)
  }

  lemma MergedGraph(g: Graph, h: seq<u32>, list: seq<nat>, adjust: bool)
    requires Mergeable(g, h, list)
    ensures Graph(g.types, MergeAll(g.types, g.map_, h, list, adjust), g.identical).Valid()
  {
    MergeOpens(g.types, g.map_, h, list, adjust);
    OpenGraph(g, MergeAll(g.types, g.map_, h, list, adjust));
  }

  /** Merging the pairs of a bisimulation keeps the state. */
  lemma MergeKeeps(g: Graph, bag: multiset<Pair>, start: nat, n: nat, h: seq<u32>, list: seq<nat>, adjust: bool)
    requires StructInv(g, bag, start, n) && Bisimulation(g, h) && ListsRecorded(h, list)
    ensures Mergeable(g, h, list)
    ensures var m := MergeAll(g.types, g.map_, h, list, adjust);
            && StructInv(Graph(g.types, m, g.identical), bag, start, n)
            && OnlyOpen(g.types, g.map_, m) && NoneOwned(g.map_, m)
  {
    hide Expanded, GroupOf;
    GraphMap(g);
    forall k | 0 <= k < |list|
      ensures h[list[k]] < |g.types| && GroupOf(g.types, h[list[k]]) == GroupOf(g.types, list[k])
    {
      assert Recorded(h, list[k]);
      ExpandedGroup(g, h, list[k], h[list[k]]);
    }
    var m := MergeAll(g.types, g.map_, h, list, adjust);
    MergeWithin(g.types, g.map_, h, list, adjust, Groups(g.types));
    MergeOpens(g.types, g.map_, h, list, adjust);
    MergeFull(g.types, g.map_, h, list, adjust);
    MergeOwns(g.types, g.map_, h, list, adjust);
    hide MergeAll, Bisimulation, ListsRecorded, Within, FullStays;
    OpenGraph(g, m);
    OpenKeeps(g, bag, start, n, m);
  }

  lemma MergeLeaves(g: Graph, h: seq<u32>, list: seq<nat>, i: nat)
    requires Mergeable(g, h, list) && i < |g.types| && |g.types[i]| >= BASE && IsStruct(g.types[i])
    ensures |g.map_| == |g.types| && MergeAll(g.types, g.map_, h, list, true)[i] == g.map_[i]
  {
    MergeAdjusted(g.types, g.map_, h, list, i);
  }

  lemma ExpandedGroup(g: Graph, h: seq<u32>, canon: nat, cand: nat)
    requires g.Valid() && HypotMap(g, h) && Expanded(g, h, canon, cand)
    ensures GroupOf(g.types, cand) == GroupOf(g.types, canon)
  {
    hide GroupOf;
    CompatibleGroup(g.types, cand, canon);
  }

  lemma OpenKeeps(g: Graph, bag: multiset<Pair>, start: nat, n: nat, m: seq<u32>)
    requires StructInv(g, bag, start, n) && OnlyOpen(g.types, g.map_, m) && Within(m, Groups(g.types))
    requires FullStays(g.types, m) && Graph(g.types, m, g.identical).Valid()
    ensures StructInv(Graph(g.types, m, g.identical), bag, start, n)
  {
    hide Within, Groups, FullStays;
    forall i | 0 <= i < |m| && IsStruct(g.types[i]) && Mapped(g.map_, i)
      ensures m[i] == g.map_[i]
    {
    }
  }

  /** The next type needs no work. */
  lemma SkipKeeps(g: Graph, bag: multiset<Pair>, start: nat, n: nat)
    requires StructInv(g, bag, start, n) && n < |g.types| && (Mapped(g.map_, n) || !IsStruct(g.types[n]))
    ensures StructInv(g, bag, start, n + 1)
  {
  }

  lemma OwnKnown(g: Graph, bag: multiset<Pair>, start: nat, n: nat)
    requires StructInv(g, bag, start, n)
    ensures 1 <= start <= n <= |g.types| == |g.map_| <= BTF_MAX_NR_TYPES
    ensures n < |g.types| ==> WellSized(g.types[n])
  {
  }

  lemma BagSize(g: Graph, bag: multiset<Pair>, start: nat, n: nat)
    requires StructInv(g, bag, start, n) && n < |g.types|
    ensures |bag| < 2 * BTF_MAX_NR_TYPES
  {
  }

  lemma SetValid(g: Graph, bag: multiset<Pair>, start: nat, n: nat, sig: nat, c: nat)
    requires n < |g.map_| && c <= BTF_MAX_NR_TYPES
    requires StructInv(Graph(g.types, g.map_[n := c], g.identical), if c == n then bag + multiset{(sig, n)} else bag,
                       start, n + 1)
    ensures Graph(g.types, g.map_[n := c], g.identical).Valid()
  {
  }

  /** A type becomes its own canonical type and is listed, or gets the candidate `c`, which is its own. */
  lemma SetKeeps(g: Graph, bag: multiset<Pair>, start: nat, n: nat, sig: nat, c: nat)
    requires StructInv(g, bag, start, n) && n < |g.types| && IsStruct(g.types[n])
    requires forall p: Pair :: p in bag ==> p.1 != n
    requires c != n ==> c < |g.types| && g.map_[c] == c && SameExceptRefs(g.types[n], g.types[c])
    ensures var m := g.map_[n := c];
            StructInv(Graph(g.types, m, g.identical), if c == n then bag + multiset{(sig, n)} else bag, start, n + 1)
  {
    var m := g.map_[n := c];
    SetGraph(g, n, c);
    SetWithin(g, n, c);
    hide GroupOf, SameExceptRefs, Within, FullStays, Graph.Valid, KindOf;
    OwnKnown(g, bag, start, n);
  }

  lemma SetGraph(g: Graph, n: nat, c: nat)
    requires g.Valid() && 1 <= n < |g.types| && c < |g.types| && (c != n ==> g.map_[c] == c)
    ensures Graph(g.types, g.map_[n := c], g.identical).Valid()
  {
    hide WellSized, RefsBelow;
    if c == n {
      RelinkSelf(g.map_, n);
    } else {
      Relink(g.map_, n, c);
    }
  }

  lemma SetWithin(g: Graph, n: nat, c: nat)
    requires g.Valid() && 1 <= n < |g.types| && c < |g.types| && IsStruct(g.types[n])
    requires c != n ==> SameExceptRefs(g.types[n], g.types[c])
    requires Within(g.map_, Groups(g.types)) && FullStays(g.types, g.map_)
    ensures Within(g.map_[n := c], Groups(g.types)) && FullStays(g.types, g.map_[n := c])
  {
    hide GroupOf, SameExceptRefs, RefsBelow, KindOf;
    if c != n {
      SameWordsGroup(g.types, n, c);
      SameWordsKind(g.types[n], g.types[c]);
    }
  }

  lemma SameWordsKind(a: Record, b: Record)
    requires |a| >= BASE && |b| >= BASE && SameExceptRefs(a, b)
    ensures a[0] == b[0] && a[1] == b[1] && Kind(a) == Kind(b) && IsFwd(a) == IsFwd(b) && LabelOf(a) == LabelOf(b)
  {
    NoIdInHeader(a);
  }

  lemma RelinkSelf(m: seq<u32>, a: nat)
    requires Acyclic(m) && a < |m| <= BTF_MAX_NR_TYPES
    ensures Acyclic(m[a := a])
  {
    var rank :| Ranked(m, rank);
    assert Ranked(m[a := a], rank);
  }

  lemma PrimLinkGroup(types: seq<Record>, m: seq<u32>, bag: multiset<Pair>, i: nat)
    requires PrimInv(types, m, bag, |types|) && i < |m| && Linked(m, i)
    ensures m[i] < |types| && |types[i]| >= BASE && |types[m[i]]| >= BASE
    ensures GroupOf(types, i) == GroupOf(types, m[i])
    ensures !IsFwd(types[i]) ==> !IsFwd(types[m[i]])
  {
    hide TrailingWords, KindOf, TableOk, NoTwins, Resolved, Declared;
    if i != 0 && IsPrim(types[i]) {
      assert Placed(types, m, bag, |types|, i);
    }
  }

  lemma PrimTable(types: seq<Record>, m: seq<u32>, bag: multiset<Pair>)
    requires PrimInv(types, m, bag, |types|)
    ensures |m| == |types| <= BTF_MAX_NR_TYPES && types[0] == [0, 0, 0] && m[0] == 0
    ensures |bag| <= |types| && forall i :: 1 <= i < |types| ==> WellSized(types[i])
    ensures forall p: Pair :: p in bag ==> 1 <= p.1 < |types| && !IsStruct(types[p.1])
  {
    hide NoTwins, Resolved, Sig;
  }

  lemma PrimStructsOpen(types: seq<Record>, m: seq<u32>, bag: multiset<Pair>)
    requires PrimInv(types, m, bag, |types|)
    ensures |m| == |types| && forall i :: 1 <= i < |types| && |types[i]| >= BASE && IsStruct(types[i]) ==> !Mapped(m, i)
  {
    hide TableOk, NoTwins, Resolved, TrailingWords;
  }

  lemma PrimWithin(types: seq<Record>, m: seq<u32>, bag: multiset<Pair>)
    requires PrimInv(types, m, bag, |types|)
    ensures Within(m, Groups(types)) && FullStays(types, m)
  {
    forall i | 0 <= i < |m| && Linked(m, i)
      ensures m[i] < |types| && |types[i]| >= BASE && |types[m[i]]| >= BASE
      ensures GroupOf(types, i) == GroupOf(types, m[i])
      ensures !IsFwd(types[i]) ==> !IsFwd(types[m[i]])
    {
      PrimLinkGroup(types, m, bag, i);
    }
    hide PrimInv, GroupOf, KindOf;
  }

  /** The pass can follow the one over primitive types. */
  lemma PrimPassFits(g: Graph, bag: multiset<Pair>)
    requires PrimInv(g.types, g.map_, bag, |g.types|)
    requires forall i :: 0 <= i < |g.types| ==> RefsBelow(g.types[i], |g.types|)
    ensures PassInv(g, bag, 1, 1)
  {
    PrimStructsOpen(g.types, g.map_, bag);
    PrimAcyclic(g.types, g.map_, bag);
    PrimWithin(g.types, g.map_, bag);
    PrimTable(g.types, g.map_, bag);
    hide PrimInv, GroupOf, Within, FullStays, RefsBelow, WellSized, IsStruct, KindOf, StructSig, SameExceptRefs,
         Acyclic;
  }

  /**
   * After the pass every type has a canonical type of its own name and kind; a struct, union or
   * typedef has one with all its words but the type ids, unless a forward has its name and kind.
   */
  lemma StructsAlike(g: Graph, bag: multiset<Pair>, start: nat, i: nat)
    requires StructInv(g, bag, start, |g.types|) && i < |g.types|
    ensures LabelOf(g.types[Root(g.map_, i)]) == LabelOf(g.types[i])
    ensures !IsFwd(g.types[i]) ==> !IsFwd(g.types[Root(g.map_, i)])
    ensures IsStruct(g.types[i]) ==>
              && (start <= i ==> Mapped(g.map_, i))
              && Kind(g.types[Root(g.map_, i)]) == Kind(g.types[i])
              && (!Declared(g.types, LabelOf(g.types[i])) ==> SameExceptRefs(g.types[i], g.types[Root(g.map_, i)]))
  {
    var r := Root(g.map_, i);
    SameGroup(g.map_, Groups(g.types), i);
    GraphMap(g);
    if !IsFwd(g.types[i]) {
      RootOfFull(g.types, g.map_, i);
    }
    hide SameExceptRefs, Masked, Graph.Valid, Within, FullStays, Declared;
    MaskedSame(g.types[i], g.types[r]);
  }

  /** No full type of the name and kind of type `i` has other words. */
  ghost predicate Alone(types: seq<Record>, i: nat)
    requires i < |types| && |types[i]| >= BASE
  {
    forall y :: 0 <= y < |types| && IsFull(types[y]) && LabelOf(types[y]) == LabelOf(types[i]) ==>
      SameExceptRefs(types[i], types[y])
  }

  /**
   * A struct, union or typedef agrees with its canonical type in every word that is no type id, if
   * all full types of its name and kind do, or if no forward has that name and kind.
   */
  lemma StructsSame(g: Graph, bag: multiset<Pair>, start: nat, i: nat)
    requires StructInv(g, bag, start, |g.types|) && i < |g.types| && |g.types[i]| >= BASE && IsStruct(g.types[i])
    requires Declared(g.types, LabelOf(g.types[i])) ==> Alone(g.types, i)
    ensures SameExceptRefs(g.types[i], g.types[Root(g.map_, i)])
  {
    StructsAlike(g, bag, start, i);
    hide SameExceptRefs, StructInv, Declared, LabelOf;
  }

  /**
   * What btf_equal_by_kind guards against: here a struct is accepted for a forward of the same hash;
   * merging points the forward to the struct, and then the struct would be sent on to the forward.
   */
  lemma ForwardWouldLoop(types: seq<Record>, m: seq<u32>, h: seq<u32>)
    requires types == [[0, 0, 0], [1, 0x700_0000, 0], [1, 0x400_0000, 0]]
    requires m == [0, 1, BTF_UNPROCESSED_ID] && h == [BTF_UNPROCESSED_ID, 2, BTF_UNPROCESSED_ID]
    ensures Compatible(types[2], types[1]) && !HasChildren(types[2], types[1])
    ensures MapFor(types, m) && RecordedPairs(types, h, [1])
    ensures var merged := MergeAll(types, m, h, [1], false); |merged| == 3 && !Acyclic(merged[2 := 1])
  {
    assert Ranked(m, [0, 0, 0]);
    RootStep(m, 1);
    RootStep(m, 2);
    var list: seq<nat> := [1];
    assert list[..0] == [];
    assert MergeAll(types, m, h, [], false) == m;
    var looped := MergeAll(types, m, h, [1], false)[2 := 1];
    assert looped[1] == 2 && looped[2] == 1;
    forall rank
      ensures !Ranked(looped, rank)
    {
      assert Linked(looped, 1) && Linked(looped, 2);
    }
  }

  // ---------------------------------------------------------------------------
  // Two different structs that get one canonical type

  /**
   * struct s { int b }; struct q { struct s *full }; a forward of s; struct p { its pointer }; another
   * struct p, whose pointer leads to 11; another struct q, whose pointer leads to the forward; and 11,
   * struct s { int a }. Integers and forwards are canonical after the primitive pass.
   */
  ghost predicate Confusing(types: seq<Record>) {
    types == [[0, 0, 0], [5, 0x100_0000, 4, 32], [1, 0x400_0001, 4, 11, 1, 0], [2, 0x400_0001, 8, 12, 4, 0],
              [0, 0x200_0000, 2], [1, 0x700_0000, 0], [0, 0x200_0000, 5], [3, 0x400_0001, 8, 13, 6, 0],
              [3, 0x400_0001, 8, 13, 9, 0], [0, 0x200_0000, 11], [2, 0x400_0001, 8, 12, 6, 0],
              [1, 0x400_0001, 4, 10, 1, 0]]
  }

  const FREE: u32 := BTF_UNPROCESSED_ID

  /** The canonical map before type 8, after it, and after type 10. */
  const BEFORE_P: seq<u32> := [0, 1, 2, 3, FREE, 5, FREE, 7, FREE, FREE, FREE, FREE]
  const AFTER_P: seq<u32> := [0, 1, 2, 3, FREE, 11, FREE, 7, 7, FREE, FREE, FREE]
  const AFTER_Q: seq<u32> := [0, 1, 2, 3, FREE, 11, FREE, 7, 7, FREE, 3, 2]

  /** What comparing 8 with 7 records, and comparing 10 with 3. */
  const SAME_P: seq<u32> := [FREE, FREE, FREE, FREE, FREE, 11, 9, 8, FREE, FREE, FREE, FREE]
  const SAME_Q: seq<u32> := [FREE, FREE, 5, 10, 6, FREE, FREE, FREE, FREE, FREE, FREE, FREE]

  /** Chains of at most one link. */
  lemma RootsOf(m: seq<u32>, roots: seq<nat>, i: nat)
    requires Acyclic(m) && i < |roots| == |m|
    requires roots[i] < |m| && !Linked(m, roots[i]) && if Linked(m, i) then m[i] == roots[i] else roots[i] == i
    ensures Root(m, i) == roots[i]
  {
    RootStep(m, i);
    RootStep(m, roots[i]);
  }

  ghost predicate RootsAre(m: seq<u32>, roots: seq<nat>) {
    Acyclic(m) && |m| == |roots| && forall i :: 0 <= i < |m| ==> Root(m, i) == roots[i]
  }

  lemma ShortChains(m: seq<u32>, roots: seq<nat>)
    requires |roots| == |m|
    requires forall i :: 0 <= i < |m| ==>
               roots[i] < |m| && !Linked(m, roots[i]) && if Linked(m, i) then m[i] == roots[i] else roots[i] == i
    requires forall i :: 0 <= i < |m| && m[i] <= BTF_MAX_NR_TYPES ==> m[i] < |m|
    ensures RootsAre(m, roots)
  {
    var rank := seq(|m|, i requires 0 <= i < |m| => if Linked(m, i) then 1 else 0);
    assert Ranked(m, rank);
    hide Root, Ranked, Linked;
    forall i | 0 <= i < |m|
      ensures Root(m, i) == roots[i]
    {
      RootsOf(m, roots, i);
    }
  }

  lemma RootsBeforeP()
    ensures RootsAre(BEFORE_P, [0, 1, 2, 3, 4, 5, 6, 7, 8, 9, 10, 11])
    ensures RootsAre(BEFORE_P[8 := 7], [0, 1, 2, 3, 4, 5, 6, 7, 7, 9, 10, 11])
  {
    hide RootsAre;
    ShortChains(BEFORE_P, [0, 1, 2, 3, 4, 5, 6, 7, 8, 9, 10, 11]);
    ShortChains(BEFORE_P[8 := 7], [0, 1, 2, 3, 4, 5, 6, 7, 7, 9, 10, 11]);
  }

  lemma RootsAfterP()
    ensures RootsAre(AFTER_P, [0, 1, 2, 3, 4, 11, 6, 7, 7, 9, 10, 11])
    ensures RootsAre(AFTER_P[10 := 3], [0, 1, 2, 3, 4, 11, 6, 7, 7, 9, 3, 11])
  {
    hide RootsAre;
    ShortChains(AFTER_P, [0, 1, 2, 3, 4, 11, 6, 7, 7, 9, 10, 11]);
    ShortChains(AFTER_P[10 := 3], [0, 1, 2, 3, 4, 11, 6, 7, 7, 9, 3, 11]);
  }

  lemma RootAfterQ()
    ensures Acyclic(AFTER_Q) && Root(AFTER_Q, 11) == 2
  {
    assert Ranked(AFTER_Q, [0, 0, 0, 0, 0, 2, 0, 0, 1, 0, 1, 1]);
    RootStep(AFTER_Q, 11);
    RootStep(AFTER_Q, 2);
  }

  lemma ConfusingKinds(types: seq<Record>)
    requires Confusing(types)
    ensures |types| == 12
    ensures forall i :: 0 <= i < 12 ==> |types[i]| >= BASE && (IsFwd(types[i]) <==> i == 5)
    ensures forall i :: 0 <= i < 12 ==>
              (IsCompositeKind(Kind(types[i])) <==> i == 2 || i == 3 || i == 7 || i == 8 || i == 10 || i == 11)
  {
  }

  lemma ConfusingGraph(types: seq<Record>, identical: (nat, nat) -> bool, m: seq<u32>)
    requires Confusing(types) && (m == BEFORE_P || m == AFTER_P)
    ensures Graph(types, m, identical).Valid()
  {
    RootsBeforeP();
    RootsAfterP();
    forall i | 1 <= i < 12
      ensures WellSized(types[i]) && RefsBelow(types[i], 12)
    {
    }
  }

  lemma MemberRefs(i: int)
    ensures KindOf(0x400_0001) == BTF_KIND_STRUCT && 0 <= i < 6 ==> (IsRef(0x400_0001, i) <==> i == 4)
    ensures KindOf(0x400_0001) == BTF_KIND_STRUCT && KindOf(0x200_0000) == BTF_KIND_PTR
    ensures KindOf(0x700_0000) == BTF_KIND_FWD && !KflagOf(0x700_0000)
    ensures IsRef(0x200_0000, i) <==> i == 2
  {
  }

  /** A pair of structs with one member, or of pointers, is expanded if their targets are matched. */
  lemma ExpandedOne(g: Graph, h: seq<u32>, canon: nat, cand: nat, p: nat)
    requires g.Valid() && HypotMap(g, h) && g.Id(cand) && g.Id(canon)
    requires var a, b := g.types[cand], g.types[canon];
             && |a| == |b| && p < |b| && a[p := 0] == b[p := 0]
             && ((b[1] == 0x400_0001 && |b| == 6 && p == 4) || (b[1] == 0x200_0000 && |b| == 3 && p == 2))
             && Matched(g, h, a[p], b[p])
    ensures ExpandedStrictly(g, h, canon, cand)
  {
    var a, b := g.types[cand], g.types[canon];
    assert forall i :: 0 <= i < |b| && i != p ==> a[p := 0][i] == a[i] && b[p := 0][i] == b[i];
    hide Matched, KindOf, Graph.Valid, IsRef;
    forall i | 0 <= i < |b|
      ensures IsRef(b[1], i) <==> i == p
    {
      MemberRefs(i);
    }
    MemberRefs(1);
    assert a[1] == b[1];
  }

  /** A forward of a struct and a struct of its name. */
  lemma ExpandedFwd(g: Graph, h: seq<u32>, canon: nat, cand: nat)
    requires g.Valid() && HypotMap(g, h) && g.Id(cand) && g.Id(canon)
    requires var a, b := g.types[cand], g.types[canon];
             && |a| >= BASE && |b| >= BASE && a[0] == b[0]
             && ((a[1] == 0x400_0001 && b[1] == 0x700_0000) || (a[1] == 0x700_0000 && b[1] == 0x400_0001))
    ensures ExpandedStrictly(g, h, canon, cand)
  {
    MemberRefs(1);
    hide KindOf, KflagOf;
  }

  /** The type at the end of the chains, when forwards are followed. */
  lemma TargetOf(g: Graph, id: nat)
    requires g.Valid() && g.Id(id)
    ensures IsFwd(g.types[id]) && !IsFwd(g.types[Root(g.map_, id)]) ==> Target(g, id) == Root(g.map_, id)
    ensures !IsFwd(g.types[id]) || Root(g.map_, id) == id ==> Target(g, id) == id
  {
  }

  /** 8 is accepted for 7, and then 11 gets the forward. */
  lemma ConfusingP(types: seq<Record>, identical: (nat, nat) -> bool)
    requires Confusing(types)
    ensures var g := Graph(types, BEFORE_P, identical);
            g.Valid() && StrictBisimulation(g, SAME_P) && Matched(g, SAME_P, 8, 7)
  {
    ConfusingGraph(types, identical, BEFORE_P);
    RootsBeforeP();
    var g := Graph(types, BEFORE_P, identical);
    MemberRefs(0);
    hide KindOf, Graph.Valid, ExpandedStrictly;
    TargetOf(g, 7);
    TargetOf(g, 6);
    TargetOf(g, 5);
    ExpandedOne(g, SAME_P, 7, 8, 4);
    ExpandedOne(g, SAME_P, 6, 9, 2);
    ExpandedFwd(g, SAME_P, 5, 11);
  }

  /** 10 is accepted for 3: the forward on the one side stands for 11, but 2 is recorded for it. */
  lemma ConfusingQ(types: seq<Record>, identical: (nat, nat) -> bool)
    requires Confusing(types)
    ensures var g := Graph(types, AFTER_P, identical);
            g.Valid() && StrictBisimulation(g, SAME_Q) && Matched(g, SAME_Q, 10, 3)
  {
    ConfusingGraph(types, identical, AFTER_P);
    RootsAfterP();
    var g := Graph(types, AFTER_P, identical);
    MemberRefs(0);
    hide KindOf, Graph.Valid, ExpandedStrictly;
    TargetOf(g, 3);
    TargetOf(g, 4);
    TargetOf(g, 2);
    ExpandedOne(g, SAME_Q, 3, 10, 4);
    ExpandedOne(g, SAME_Q, 4, 6, 2);
    ExpandedFwd(g, SAME_Q, 2, 5);
  }

  lemma MergeThree(types: seq<Record>, m: seq<u32>, h: seq<u32>, a: nat, b: nat, c: nat)
    requires MapFor(types, m) && RecordedPairs(types, h, [a, b, c])
    ensures a < |h| && b < |h| && c < |h| && h[a] < |types| && h[b] < |types| && h[c] < |types|
    ensures var m1 := MergeOne(types, m, a, h[a], false);
            var m2 := MergeOne(types, m1, b, h[b], false);
            MergeAll(types, m, h, [a, b, c], false) == MergeOne(types, m2, c, h[c], false)
  {
    hide MapFor, MergeOne;
    var list: seq<nat> := [a, b, c];
    assert list[0] == a && list[1] == b && list[2] == c;
    assert list[..2] == [a, b] && [a, b][..1] == [a] && [a][..0] == [];
    assert MergeAll(types, m, h, [], false) == m;
    assert MergeAll(types, m, h, [a], false) == MergeOne(types, m, a, h[a], false);
  }

  lemma MergeP(types: seq<Record>)
    requires Confusing(types)
    ensures MapFor(types, BEFORE_P) && RecordedPairs(types, SAME_P, [7, 6, 5])
    ensures MergeAll(types, BEFORE_P, SAME_P, [7, 6, 5], false)[8 := 7] == AFTER_P
  {
    hide Confusing, KindOf, Root, Acyclic, MergeAll;
    ConfusingKinds(types);
    RootsBeforeP();
    MergeThree(types, BEFORE_P, SAME_P, 7, 6, 5);
    var m1 := BEFORE_P[8 := 7];
    assert MergeOne(types, BEFORE_P, 7, 8, false) == m1;
    assert MergeOne(types, m1, 6, 9, false) == m1;
    assert MergeOne(types, m1, 5, 11, false) == m1[5 := 11];
  }

  lemma MergeQ(types: seq<Record>)
    requires Confusing(types)
    ensures MapFor(types, AFTER_P) && RecordedPairs(types, SAME_Q, [3, 4, 2])
    ensures MergeAll(types, AFTER_P, SAME_Q, [3, 4, 2], false)[10 := 3] == AFTER_Q
  {
    hide Confusing, KindOf, Root, Acyclic, MergeAll;
    ConfusingKinds(types);
    RootsAfterP();
    MergeThree(types, AFTER_P, SAME_Q, 3, 4, 2);
    var m1 := AFTER_P[10 := 3];
    assert MergeOne(types, AFTER_P, 3, 10, false) == m1;
    assert MergeOne(types, m1, 4, 6, false) == m1;
    assert MergeOne(types, m1, 2, 5, false) == m1[11 := 2];
  }

  /**
   * The pass over structs gives 11, struct s { int a }, the canonical type 2, struct s { int b }: both
   * comparisons are accepted, and merging what they recorded joins the two by way of the forward.
   */
  lemma DifferentStructsJoined(types: seq<Record>, identical: (nat, nat) -> bool)
    requires Confusing(types)
    ensures var g := Graph(types, BEFORE_P, identical);
            && g.Valid() && StrictBisimulation(g, SAME_P) && Matched(g, SAME_P, 8, 7)
            && MapFor(types, BEFORE_P) && RecordedPairs(types, SAME_P, [7, 6, 5])
            && MergeAll(types, BEFORE_P, SAME_P, [7, 6, 5], false)[8 := 7] == AFTER_P
    ensures var g := Graph(types, AFTER_P, identical);
            && g.Valid() && StrictBisimulation(g, SAME_Q) && Matched(g, SAME_Q, 10, 3)
            && MapFor(types, AFTER_P) && RecordedPairs(types, SAME_Q, [3, 4, 2])
            && MergeAll(types, AFTER_P, SAME_Q, [3, 4, 2], false)[10 := 3] == AFTER_Q
    ensures Acyclic(AFTER_Q) && Root(AFTER_Q, 11) == 2
    ensures IsStruct(types[11]) && !SameExceptRefs(types[11], types[2])
  {
    ConfusingP(types, identical);
    ConfusingQ(types, identical);
    MergeP(types);
    MergeQ(types);
    RootAfterQ();
    ConfusingKinds(types);
    MemberRefs(3);
    hide KindOf, Graph.Valid, StrictBisimulation, Matched, MergeAll, MapFor, RecordedPairs, Root;
    assert types[11][3] != types[2][3];
  }

  lemma CandidateKnown(g: Graph, bag: multiset<Pair>, start: nat, n: nat, h: nat, cands: seq<Pair>, i: nat)
    requires StructInv(g, bag, start, n) && Candidates(bag, h, cands) && i < |cands|
    ensures 1 <= cands[i].1 < |g.types| && WellSized(g.types[cands[i].1])
    ensures IsStruct(g.types[cands[i].1]) ==> g.map_[cands[i].1] == cands[i].1
    ensures cands[i] in bag
  {
    assert cands[i] in cands;
  }

  lemma NotListed(g: Graph, bag: multiset<Pair>, start: nat, n: nat)
    requires StructInv(g, bag, start, n) && n < |g.types| && IsStruct(g.types[n]) && !Mapped(g.map_, n)
    ensures forall p: Pair :: p in bag ==> p.1 != n
  {
  }

  /** A forward of base BTF is matched with a full type. */
  ghost predicate RedirectsBelow(g: Graph, start: nat, w: seq<u32>)
    requires g.Valid() && HypotMap(g, w)
  {
    exists c :: 0 <= c < |w| && c < start && Recorded(w, c) && IsFwd(g.types[c]) && !IsFwd(g.types[w[c]])
  }

  /**
   * Why `cand` does not become `canon`: their words differ, or every strict bisimulation that matches
   * them would change base BTF. If none matches them at all, that is so too.
   */
  ghost predicate Refused(g: Graph, start: nat, cand: nat, canon: nat) {
    && g.Valid() && g.Id(cand) && g.Id(canon)
    && (|| |g.types[cand]| < BASE || !SameExceptRefs(g.types[cand], g.types[canon])
        || (forall w :: StrictBisimulation(g, w) && Matched(g, w, cand, canon) ==> RedirectsBelow(g, start, w)))
  }

  /** Why it does: their words agree, and a bisimulation that leaves base BTF alone holds the pair. */
  ghost predicate Accepted(g: Graph, start: nat, cand: nat, canon: nat) {
    && g.Valid() && g.Id(cand) && g.Id(canon)
    && |g.types[cand]| >= BASE && SameExceptRefs(g.types[cand], g.types[canon])
    && exists h :: Bisimulation(g, h) && Answered(g, h, cand, canon) && !RedirectsBelow(g, start, h)
  }

  /** Where the structural fallback takes no two types for one, a candidate is either accepted or refused. */
  lemma AcceptedExactly(g: Graph, start: nat, cand: nat, canon: nat)
    requires g.Valid() && g.Id(cand) && g.Id(canon) && NoFallback(g)
    ensures Accepted(g, start, cand, canon) <==> !Refused(g, start, cand, canon)
  {
    hide SameExceptRefs;
    if Accepted(g, start, cand, canon) {
      var h :| Bisimulation(g, h) && Answered(g, h, cand, canon) && !RedirectsBelow(g, start, h);
      StrictWithoutFallback(g, h, cand, canon);
    }
    forall w | StrictBisimulation(g, w) && Matched(g, w, cand, canon)
      ensures Bisimulation(g, w) && Answered(g, w, cand, canon)
    {
      StrictIsBisimulation(g, w, cand, canon);
    }
  }

  lemma StrictIsBisimulation(g: Graph, w: seq<u32>, cand: nat, canon: nat)
    requires StrictBisimulation(g, w) && Matched(g, w, cand, canon)
    ensures Bisimulation(g, w) && Answered(g, w, cand, canon)
  {
    forall c | 0 <= c < |w| && Recorded(w, c)
      ensures Expanded(g, w, c, w[c])
    {
      assert ExpandedStrictly(g, w, c, w[c]);
    }
  }

  ghost predicate AllRefused(start: nat, id: nat, cands: seq<Pair>, seen: seq<Graph>) {
    |seen| <= |cands| && forall i :: 0 <= i < |seen| ==> 0 <= cands[i].1 && Refused(seen[i], start, id, cands[i].1)
  }

  /** `seen[i]` is the graph under which candidate `i` was looked at: the first one accepted is taken. */
  ghost predicate FirstAccepted(start: nat, id: nat, cands: seq<Pair>, seen: seq<Graph>, newId: int) {
    && |seen| <= |cands|
    && if newId == id then |seen| == |cands| && AllRefused(start, id, cands, seen)
       else
         && 0 < |seen| && newId == cands[|seen| - 1].1 && 0 <= newId
         && AllRefused(start, id, cands, seen[..|seen| - 1]) && Accepted(seen[|seen| - 1], start, id, newId)
  }

  lemma RefusedNone(start: nat, id: nat, cands: seq<Pair>)
    ensures AllRefused(start, id, cands, [])
  {
  }

  lemma RefusedMore(start: nat, id: nat, cands: seq<Pair>, seen: seq<Graph>, g: Graph)
    requires AllRefused(start, id, cands, seen) && |seen| < |cands|
    requires 0 <= cands[|seen|].1 && Refused(g, start, id, cands[|seen|].1)
    ensures AllRefused(start, id, cands, seen + [g])
  {
    hide Refused;
  }

  lemma AcceptedNow(start: nat, id: nat, cands: seq<Pair>, seen: seq<Graph>, g: Graph)
    requires AllRefused(start, id, cands, seen) && |seen| < |cands|
    requires 0 <= cands[|seen|].1 && Accepted(g, start, id, cands[|seen|].1) && cands[|seen|].1 != id
    ensures FirstAccepted(start, id, cands, seen + [g], cands[|seen|].1)
  {
    hide Accepted, AllRefused;
    assert (seen + [g])[..|seen|] == seen;
  }

  /** Without a base, a refusal means that no strict bisimulation matches the two types. */
  lemma RefusedWithoutBase(g: Graph, cand: nat, canon: nat)
    requires Refused(g, 1, cand, canon) && |g.types[cand]| >= BASE && SameExceptRefs(g.types[cand], g.types[canon])
    ensures forall w :: StrictBisimulation(g, w) ==> !Matched(g, w, cand, canon)
  {
    forall w | StrictBisimulation(g, w)
      ensures !RedirectsBelow(g, 1, w)
    {
    }
  }

  // ---------------------------------------------------------------------------
  // No two types with the same words are left without having been compared

  /** `e` is a state of the pass from which `g` has been reached. */
  ghost predicate Earlier(e: Graph, g: Graph) {
    e.types == g.types && e.identical == g.identical && OnlyOpen(g.types, e.map_, g.map_)
  }

  /** At some point of the pass `j` was not taken to be `i`, for the reason that Refused gives. */
  ghost predicate Apart(g: Graph, start: nat, i: nat, j: nat) {
    exists e: Graph :: Earlier(e, g) && Refused(e, start, j, i)
  }

  ghost predicate IsOwn(g: Graph, i: int) {
    0 <= i < |g.types| == |g.map_| && |g.types[i]| >= BASE && IsStruct(g.types[i]) && g.map_[i] == i
  }

  /** Structs, unions and typedefs are listed under their hash; from `start` on, all that are their own are listed. */
  ghost predicate Listing(g: Graph, bag: multiset<Pair>, start: nat, n: nat) {
    && (forall p: Pair :: p in bag && 0 <= p.1 < |g.types| && WellSized(g.types[p.1]) && IsStruct(g.types[p.1]) ==>
          p.0 == StructSig(g.types[p.1]))
    && (forall i :: start <= i && IsOwn(g, i) ==> i < n && exists h: nat :: (h, i) in bag)
  }

  /** Of any two of them with the same words, the later has been compared with the earlier. */
  ghost predicate Compared(g: Graph, bag: multiset<Pair>, start: nat) {
    forall p: Pair, j: nat :: p in bag && 0 <= p.1 < j && start <= j && IsOwn(g, p.1) && IsOwn(g, j) &&
                              SameExceptRefs(g.types[j], g.types[p.1]) ==>
      Apart(g, start, p.1, j)
  }

  lemma EarlierTwice(a: Graph, b: Graph, c: Graph)
    requires Earlier(a, b) && Earlier(b, c)
    ensures Earlier(a, c)
  {
    OnlyOpenTwice(a.types, a.map_, b.map_, c.map_);
  }

  lemma ApartStays(g: Graph, g': Graph, start: nat, i: nat, j: nat)
    requires Earlier(g, g') && Apart(g, start, i, j)
    ensures Apart(g', start, i, j)
  {
    hide Refused, Earlier;
    var e: Graph :| Earlier(e, g) && Refused(e, start, j, i);
    EarlierTwice(e, g, g');
  }

  /** Merging leads from `g` to `g'`. */
  ghost predicate MergedFrom(g: Graph, g': Graph) {
    Earlier(g, g') && NoneOwned(g.map_, g'.map_)
  }

  lemma MergedSame(g: Graph)
    requires |g.types| == |g.map_|
    ensures MergedFrom(g, g)
  {
  }

  lemma MergedTwice(a: Graph, b: Graph, c: Graph)
    requires MergedFrom(a, b) && MergedFrom(b, c)
    ensures MergedFrom(a, c)
  {
    EarlierTwice(a, b, c);
  }

  lemma SeenMore(seen: seq<Graph>, g: Graph, g': Graph)
    requires SeenEarlier(seen, g) && MergedFrom(g, g')
    ensures SeenEarlier(seen + [g], g')
  {
    hide Earlier;
    var more := seen + [g];
    forall k | 0 <= k < |more|
      ensures Earlier(more[k], g')
    {
      if k < |seen| {
        EarlierTwice(seen[k], g, g');
      }
    }
  }

  /** Merging keeps this. */
  lemma MergesCompared(g: Graph, g': Graph, bag: multiset<Pair>, start: nat, n: nat)
    requires Listing(g, bag, start, n) && Compared(g, bag, start) && MergedFrom(g, g')
    ensures Listing(g', bag, start, n) && Compared(g', bag, start)
  {
    hide StructSig, SameExceptRefs, Apart, WellSized, IsStruct, KindOf;
    forall i | IsOwn(g', i)
      ensures IsOwn(g, i)
    {
    }
    forall p: Pair, j: nat | p in bag && 0 <= p.1 < j && start <= j && IsOwn(g', p.1) && IsOwn(g', j) &&
                             SameExceptRefs(g'.types[j], g'.types[p.1])
      ensures Apart(g', start, p.1, j)
    {
      assert IsOwn(g, p.1) && IsOwn(g, j);
      ApartStays(g, g', start, p.1, j);
    }
  }

  /** `seen[k]` are earlier states of the pass than `g`. */
  ghost predicate SeenEarlier(seen: seq<Graph>, g: Graph) {
    forall k :: 0 <= k < |seen| ==> Earlier(seen[k], g)
  }

  /** Every listed type with the words of `id` was looked at and refused. */
  ghost predicate SameWordsRefused(types: seq<Record>, bag: multiset<Pair>, start: nat, id: nat, cands: seq<Pair>,
                                   seen: seq<Graph>)
    requires id < |types| && |types[id]| >= BASE
  {
    forall p: Pair :: p in bag && 0 <= p.1 < |types| && SameExceptRefs(types[id], types[p.1]) ==>
      exists k :: 0 <= k < |seen| && k < |cands| && cands[k].1 == p.1 && Refused(seen[k], start, id, p.1)
  }

  /** If `id` stays its own, the hash has led to all listed types with its words. */
  lemma AllSameRefused(g: Graph, bag: multiset<Pair>, start: nat, n: nat, id: nat, cands: seq<Pair>, seen: seq<Graph>)
    requires id < |g.types| && WellSized(g.types[id]) && IsStruct(g.types[id]) && Listing(g, bag, start, n)
    requires forall p: Pair :: p in bag ==> 1 <= p.1 < |g.types| && WellSized(g.types[p.1])
    requires Candidates(bag, StructSig(g.types[id]), cands) && FirstAccepted(start, id, cands, seen, id)
    ensures SameWordsRefused(g.types, bag, start, id, cands, seen)
  {
    assert |g.types[id]| >= BASE;
    hide StructSig, SameExceptRefs, WellSized, Refused, Accepted, IsStruct, KindOf;
    forall p: Pair | p in bag && 0 <= p.1 < |g.types| && SameExceptRefs(g.types[id], g.types[p.1])
      ensures exists k :: 0 <= k < |seen| && k < |cands| && cands[k].1 == p.1 && Refused(seen[k], start, id, p.1)
    {
      SameWordsSig(g.types[id], g.types[p.1]);
      assert p in cands;
      var k :| 0 <= k < |cands| && cands[k] == p;
      assert Refused(seen[k], start, id, cands[k].1);
    }
  }

  /** Setting the entry of a type that had no canonical type before the merging. */
  lemma SetEarlier(g: Graph, g1: Graph, n: nat, c: nat)
    requires MergedFrom(g, g1) && n < |g.types| && |g.types[n]| >= BASE && c <= BTF_MAX_NR_TYPES
    requires n < |g.map_| && n < |g1.map_| && !Mapped(g.map_, n)
    ensures Earlier(g, g1.(map_ := g1.map_[n := c]))
    ensures !Mapped(g1.map_, n) ==> Earlier(g1, g1.(map_ := g1.map_[n := c]))
  {
  }

  /** Type `n` gets its canonical type. */
  lemma SetCompared(g: Graph, g': Graph, bag: multiset<Pair>, start: nat, n: nat, c: nat, cands: seq<Pair>,
                    seen: seq<Graph>)
    requires start <= n < |g.types| == |g'.map_| && WellSized(g.types[n]) && IsStruct(g.types[n])
    requires Listing(g, bag, start, n) && Compared(g, bag, start) && Earlier(g, g') && g'.map_[n] == c
    requires forall i :: 0 <= i < |g'.map_| && i != n && i < |g.map_| && g'.map_[i] == i ==> g.map_[i] == i
    requires forall p: Pair :: p in bag ==> 1 <= p.1 < |g.types| && WellSized(g.types[p.1]) && p.1 != n
    requires c == n ==> SeenEarlier(seen, g') && SameWordsRefused(g.types, bag, start, n, cands, seen)
    ensures var bag' := if c == n then bag + multiset{(StructSig(g.types[n]), n)} else bag;
            Listing(g', bag', start, n + 1) && Compared(g', bag', start)
  {
    assert |g.map_| == |g'.map_| && g'.types == g.types;
    hide StructSig, SameExceptRefs, Apart, WellSized, IsStruct, KindOf, Refused, Earlier;
    var bag' := if c == n then bag + multiset{(StructSig(g.types[n]), n)} else bag;
    SetListing(g, g', bag, start, n, c);
    forall p: Pair, j: nat | p in bag' && 0 <= p.1 < j && start <= j && IsOwn(g', p.1) && IsOwn(g', j) &&
                             SameExceptRefs(g'.types[j], g'.types[p.1])
      ensures Apart(g', start, p.1, j)
    {
      if j == n {
        assert p in bag;
        RefusedApart(g', bag, start, n, cands, seen, p);
      } else {
        assert IsOwn(g, j) && p in bag;
        assert IsOwn(g, p.1);
        ApartStays(g, g', start, p.1, j);
      }
    }
  }

  lemma RefusedApart(g: Graph, bag: multiset<Pair>, start: nat, n: nat, cands: seq<Pair>, seen: seq<Graph>, p: Pair)
    requires n < |g.types| && |g.types[n]| >= BASE && SameWordsRefused(g.types, bag, start, n, cands, seen)
    requires p in bag && 0 <= p.1 < |g.types| && SameExceptRefs(g.types[n], g.types[p.1]) && SeenEarlier(seen, g)
    ensures Apart(g, start, p.1, n)
  {
    hide SameExceptRefs, Refused, Earlier;
    var k :| 0 <= k < |seen| && k < |cands| && cands[k].1 == p.1 && Refused(seen[k], start, n, p.1);
    assert Earlier(seen[k], g);
  }

  lemma SetListing(g: Graph, g': Graph, bag: multiset<Pair>, start: nat, n: nat, c: nat)
    requires start <= n < |g.types| == |g'.map_| == |g.map_| && g'.types == g.types && g'.map_[n] == c
    requires WellSized(g.types[n]) && IsStruct(g.types[n]) && Listing(g, bag, start, n)
    requires forall i :: 0 <= i < |g'.map_| && i != n && g'.map_[i] == i ==> g.map_[i] == i
    ensures var bag' := if c == n then bag + multiset{(StructSig(g.types[n]), n)} else bag;
            Listing(g', bag', start, n + 1)
  {
    hide StructSig, WellSized, IsStruct, KindOf;
    var bag' := if c == n then bag + multiset{(StructSig(g.types[n]), n)} else bag;
    forall i | start <= i && IsOwn(g', i)
      ensures i < n + 1 && exists h: nat :: (h, i) in bag'
    {
      if i == n {
        assert (StructSig(g.types[n]), n) in bag';
      } else {
        assert IsOwn(g, i);
        var h: nat :| (h, i) in bag;
        assert (h, i) in bag';
      }
    }
  }

  /** The whole state of the pass before type `n`. */
  ghost predicate PassInv(g: Graph, bag: multiset<Pair>, start: nat, n: nat) {
    StructInv(g, bag, start, n) && Listing(g, bag, start, n) && Compared(g, bag, start)
  }

  lemma SkipDone(g: Graph, bag: multiset<Pair>, start: nat, n: nat)
    requires PassInv(g, bag, start, n) && n < |g.types| && |g.types[n]| >= BASE
    requires n < |g.map_| && (Mapped(g.map_, n) || !IsStruct(g.types[n]))
    ensures PassInv(g, bag, start, n + 1)
  {
    SkipKeeps(g, bag, start, n);
    hide StructInv, StructSig, SameExceptRefs, Compared, WellSized, KindOf;
  }

  lemma MergedDone(g: Graph, g': Graph, bag: multiset<Pair>, start: nat, n: nat)
    requires PassInv(g, bag, start, n) && MergedFrom(g, g') && StructInv(g', bag, start, n)
    ensures PassInv(g', bag, start, n)
  {
    hide StructInv, Listing, Compared, MergedFrom;
    MergesCompared(g, g', bag, start, n);
  }

  /** With `newId` as the canonical type of `id`, and `id` listed if it is its own, the next type can be processed. */
  ghost predicate Settled(g: Graph, bag: multiset<Pair>, start: nat, id: nat, newId: nat, h: nat) {
    && id < |g.map_| && newId <= BTF_MAX_NR_TYPES && |bag| < 2 * BTF_MAX_NR_TYPES
    && var g' := g.(map_ := g.map_[id := newId]);
    && g'.Valid()
    && PassInv(g', if newId == id then bag + multiset{(h, id)} else bag, start, id + 1)
  }

  lemma SetDone(g: Graph, g1: Graph, bag: multiset<Pair>, start: nat, n: nat, c: nat, cands: seq<Pair>,
                seen: seq<Graph>)
    requires PassInv(g, bag, start, n) && n < |g.types| && n < |g.map_| && !Mapped(g.map_, n)
    requires MergedFrom(g, g1) && StructInv(g1, bag, start, n) && SeenEarlier(seen, g1)
    requires WellSized(g.types[n]) && IsStruct(g.types[n])
    requires c != n ==> c < |g1.types| && c < |g1.map_| && g1.map_[c] == c && SameExceptRefs(g.types[n], g.types[c])
    requires c == n ==> n < |g1.map_| && !Mapped(g1.map_, n) && SameWordsRefused(g.types, bag, start, n, cands, seen)
    ensures Settled(g1, bag, start, n, c, StructSig(g.types[n]))
  {
    SetStructs(g, g1, bag, start, n, c);
    hide StructInv, Listing, Compared, Graph.Valid, StructSig, WellSized, SameExceptRefs, SameWordsRefused, IsStruct,
         Earlier, MergedFrom, SeenEarlier;
    SetCompares(g, g1, bag, start, n, c, cands, seen);
  }

  lemma SetStructs(g: Graph, g1: Graph, bag: multiset<Pair>, start: nat, n: nat, c: nat)
    requires StructInv(g, bag, start, n) && n < |g.types| == |g.map_| && !Mapped(g.map_, n) && g1.types == g.types
    requires StructInv(g1, bag, start, n) && WellSized(g.types[n]) && IsStruct(g.types[n])
    requires c != n ==> c < |g1.types| && c < |g1.map_| && g1.map_[c] == c && SameExceptRefs(g.types[n], g.types[c])
    ensures n < |g1.map_| && c <= BTF_MAX_NR_TYPES && |bag| < 2 * BTF_MAX_NR_TYPES
    ensures var g', bag' := g1.(map_ := g1.map_[n := c]),
                            if c == n then bag + multiset{(StructSig(g.types[n]), n)} else bag;
            StructInv(g', bag', start, n + 1) && g'.Valid()
  {
    OwnKnown(g1, bag, start, n);
    NotListed(g, bag, start, n);
    BagSize(g, bag, start, n);
    hide StructInv, Graph.Valid, StructSig, WellSized, SameExceptRefs, IsStruct;
    SetKeeps(g1, bag, start, n, StructSig(g.types[n]), c);
    SetValid(g1, bag, start, n, StructSig(g.types[n]), c);
  }

  lemma SetCompares(g: Graph, g1: Graph, bag: multiset<Pair>, start: nat, n: nat, c: nat, cands: seq<Pair>,
                    seen: seq<Graph>)
    requires StructInv(g, bag, start, n) && n < |g.types| && n < |g.map_| && !Mapped(g.map_, n)
    requires Listing(g, bag, start, n) && Compared(g, bag, start) && c <= BTF_MAX_NR_TYPES
    requires MergedFrom(g, g1) && SeenEarlier(seen, g1) && n < |g1.map_|
    requires WellSized(g.types[n]) && IsStruct(g.types[n])
    requires c == n ==> !Mapped(g1.map_, n) && SameWordsRefused(g.types, bag, start, n, cands, seen)
    ensures var g', bag' := g1.(map_ := g1.map_[n := c]),
                            if c == n then bag + multiset{(StructSig(g.types[n]), n)} else bag;
            Listing(g', bag', start, n + 1) && Compared(g', bag', start)
  {
    OwnKnown(g, bag, start, n);
    NotListed(g, bag, start, n);
    ListedSized(g, bag, start, n);
    SetEarlier(g, g1, n, c);
    MergedOwn(g, g1);
    hide StructInv, Listing, Compared, Graph.Valid, StructSig, WellSized, SameExceptRefs, SameWordsRefused, IsStruct,
         Earlier, MergedFrom;
    var g' := g1.(map_ := g1.map_[n := c]);
    if c == n {
      SeenMoreSet(seen, g1, g');
    }
    SetCompared(g, g', bag, start, n, c, cands, seen);
  }

  lemma MergedOwn(g: Graph, g1: Graph)
    requires MergedFrom(g, g1)
    ensures |g1.map_| == |g.map_| == |g.types| && g1.types == g.types
    ensures forall i :: 0 <= i < |g.map_| && g1.map_[i] == i ==> g.map_[i] == i
  {
  }

  lemma SeenMoreSet(seen: seq<Graph>, g: Graph, g': Graph)
    requires SeenEarlier(seen, g) && Earlier(g, g')
    ensures SeenEarlier(seen, g')
  {
    hide Earlier;
    forall k | 0 <= k < |seen|
      ensures Earlier(seen[k], g')
    {
      EarlierTwice(seen[k], g, g');
    }
  }

  lemma ListedSized(g: Graph, bag: multiset<Pair>, start: nat, n: nat)
    requires StructInv(g, bag, start, n)
    ensures forall p: Pair :: p in bag ==> 1 <= p.1 < |g.types| && WellSized(g.types[p.1])
  {
  }

  lemma OwnSized(g: Graph, bag: multiset<Pair>, start: nat, n: nat)
    requires StructInv(g, bag, start, n) && n < |g.types|
    ensures WellSized(g.types[n]) && |g.types[n]| >= BASE
  {
  }

  /** The kinds that the pass picks out. */
  lemma KindIsStruct(r: Record)
    requires |r| >= BASE
    ensures IsStructKind(Kind(r)) <==> IsStruct(r)
  {
  }

  /**
   * After the pass no two structs, unions or typedefs with the same words are both left without the later
   * having been compared with the earlier, and refused for one of the reasons of Refused.
   */
  lemma SameWordsCompared(g: Graph, bag: multiset<Pair>, start: nat, i: nat, j: nat)
    requires PassInv(g, bag, start, |g.types|) && i < j < |g.types| && start <= j
    requires start <= i || exists h: nat :: (h, i) in bag
    requires IsOwn(g, i) && IsOwn(g, j) && SameExceptRefs(g.types[j], g.types[i])
    ensures Apart(g, start, i, j)
  {
    hide StructInv, SameExceptRefs, IsOwn, Apart;
    var h: nat :| (h, i) in bag;
    assert 0 <= (h, i).1;
  }

  /** Without a base: at some point of the pass no strict bisimulation matched them. */
  lemma SameWordsDiffer(g: Graph, bag: multiset<Pair>, i: nat, j: nat)
    requires PassInv(g, bag, 1, |g.types|) && 1 <= i < j < |g.types|
    requires IsOwn(g, i) && IsOwn(g, j) && SameExceptRefs(g.types[j], g.types[i])
    ensures exists e: Graph :: Earlier(e, g) && forall w :: StrictBisimulation(e, w) ==> !Matched(e, w, j, i)
  {
    SameWordsCompared(g, bag, 1, i, j);
    assert |g.types[j]| >= BASE;
    hide PassInv, IsOwn, SameExceptRefs, Refused, StrictBisimulation, Matched;
    var e: Graph :| Earlier(e, g) && Refused(e, 1, j, i);
    RefusedWithoutBase(e, j, i);
  }

  lemma NotSame(g: Graph, start: nat, cand: nat, canon: nat)
    requires g.Valid() && g.Id(cand) && g.Id(canon)
    requires |g.types[cand]| >= BASE && !SameExceptRefs(g.types[cand], g.types[canon])
    ensures Refused(g, start, cand, canon)
  {
  }

  lemma CheckDecides(g: Graph, start: nat, h: seq<u32>, list: seq<nat>, cand: nat, canon: nat, adjust: bool)
    requires Bisimulation(g, h) && Answered(g, h, cand, canon) && ListsRecorded(h, list)
    requires |g.types[cand]| >= BASE && SameExceptRefs(g.types[cand], g.types[canon])
    requires forall w :: StrictBisimulation(g, w) && Matched(g, w, cand, canon) ==> Extends(h, w)
    requires adjust <==>
               exists c :: 0 <= c < |h| && c < start && c in list && IsFwd(g.types[c]) && !IsFwd(g.types[h[c]])
    ensures adjust ==> Refused(g, start, cand, canon)
    ensures !adjust ==> Accepted(g, start, cand, canon)
  {
    assert RedirectsBelow(g, start, h) <==> adjust by {
      assert forall c :: 0 <= c < |h| ==> (Recorded(h, c) <==> c in list);
    }
    if adjust {
      forall w | StrictBisimulation(g, w) && Matched(g, w, cand, canon)
        ensures RedirectsBelow(g, start, w)
      {
        RedirectsExtends(g, start, h, w);
      }
    }
  }

  lemma RedirectsExtends(g: Graph, start: nat, h: seq<u32>, w: seq<u32>)
    requires g.Valid() && HypotMap(g, h) && HypotMap(g, w) && Extends(h, w) && RedirectsBelow(g, start, h)
    ensures RedirectsBelow(g, start, w)
  {
  }

  /** The table never runs full: every pass lists each type at most once. */
  lemma ListingFits(m: Model, k: Keys, h: nat, c: nat)
    requires Good(m, k) && |Bag(m)| < 2 * BTF_MAX_NR_TYPES
    ensures Shaped(m) && var r := Insert(m, k, h, c, APPEND); r.ret == Ok && Bag(r.m) == Bag(m) + multiset{(h, c)}
  {
    hide Pow2, Hashed, HashBits, Flat, HashModel.Grow, HashModel.AddEntry;
    FullExactly(m, k);
    LargeTable();
    InsertKeeps(m, k, h, c, APPEND);
  }

  /** btf_equal_by_kind */
  method EqualByKind(a: Record, b: Record, kind: nat) returns (eq: bool)
    requires WellSized(a) && WellSized(b) && Kind(a) == kind && IsStruct(a)
    ensures eq <==> SameExceptRefs(a, b)
    ensures eq ==> Kind(b) == kind && LabelOf(b) == LabelOf(a) && IsStruct(b)
  {
    SameHeader(a, b);
    if kind == BTF_KIND_TYPEDEF {
      if Kind(b) == kind {
        SmallRefs(a, b);
      }
      eq := EqualTypedef(a, b);
    } else {
      eq := ShallowEqualStruct(a, b);
    }
  }

  /** The part of struct btf_dedup used for structs, unions and typedefs. */
  class StructDedup {
    const force: bool
    const check: EquivCheck
    const table: H.HashMap

    ghost predicate Valid()
      reads check, check.map_, check.hypotMap, table, table.buckets, table.home.Keys
    {
      check.Valid() && table.Valid() && table.k == DedupKeys(force)
    }

    ghost function TableBag(): multiset<Pair>
      requires table.Valid()
      reads table, table.buckets, table.home.Keys
    {
      Bag(table.View())
    }

    /** The types from the first own one to `n` have been processed. */
    ghost predicate Done(n: nat)
      reads check, check.map_, check.hypotMap, table, table.buckets, table.home.Keys
    {
      Valid() && PassInv(check.g, TableBag(), check.startId, n)
    }

    constructor (force: bool, check: EquivCheck, table: H.HashMap)
      requires check.Valid() && table.Valid() && table.k == DedupKeys(force)
      ensures Valid() && this.force == force && this.check == check && this.table == table
    {
      this.force, this.check, this.table := force, check, table;
    }

    /** The body of the loop of btf_dedup_merge_hypot_map. */
    method MergePair(canonTypeId: nat, targTypeId: nat)
      requires MapFor(check.types, check.map_[..]) && canonTypeId < |check.types| && targTypeId < |check.types|
      modifies check.map_
      ensures MapFor(check.types, old(check.map_[..]))
      ensures check.map_[..] == MergeOne(check.types, old(check.map_[..]), canonTypeId, targTypeId,
                                         check.hypotAdjustCanon)
    {
      ghost var m := check.map_[..];
      var map_, types := check.map_, check.types;
      var tId := ResolveTypeId(map_, targTypeId);
      var cId := ResolveTypeId(map_, canonTypeId);
      hide Acyclic, KindOf;
      var tKind, cKind := Kind(types[tId]), Kind(types[cId]);
      if tKind != BTF_KIND_FWD && cKind == BTF_KIND_FWD {
        map_[cId] := tId;
      }
      if check.hypotAdjustCanon {
        return;
      }
      if tKind == BTF_KIND_FWD && cKind != BTF_KIND_FWD {
        map_[tId] := cId;
      }
      if IsCompositeKind(tKind) && cKind != BTF_KIND_FWD && map_[cId] <= BTF_MAX_NR_TYPES &&
         !(map_[tId] <= BTF_MAX_NR_TYPES) {
        map_[tId] := cId;
      }
    }

    /** btf_dedup_merge_hypot_map */
    method MergeHypotMap()
      requires check.Valid() && Mergeable(check.g, check.hypotMap[..], check.hypotList)
      modifies check`g, check.map_
      ensures check.Valid()
      ensures Mergeable(old(check.g), check.hypotMap[..], check.hypotList)
      ensures check.map_[..] == MergeAll(check.types, old(check.map_[..]), check.hypotMap[..], check.hypotList,
                                         check.hypotAdjustCanon)
    {
      ghost var g0, m0, h := check.g, check.map_[..], check.hypotMap[..];
      var list, types := check.hypotList, check.types;
      hide MapFor, MergeOne, Graph.Valid;
      for i := 0 to |list|
        invariant MapFor(types, check.map_[..]) && check.hypotMap[..] == h
        invariant check.map_[..] == MergeAll(types, m0, h, list[..i], check.hypotAdjustCanon)
      {
        assert list[..i + 1][..i] == list[..i];
        MergePair(list[i], check.hypotMap[list[i]]);
      }
      assert list[..|list|] == list;
      MergedGraph(g0, h, list, check.hypotAdjustCanon);
      check.g := g0.(map_ := check.map_[..]);
    }

    /** The candidates with signature `h`. */
    method Cands(h: nat) returns (cands: seq<Pair>)
      requires Valid()
      ensures Candidates(TableBag(), h, cands)
    {
      hide Good, ForKey, Bag, Candidates, EquivCheck.Valid;
      cands := table.EntriesFor(h);
      CandidatesExact(table.View(), force, h);
    }

    /** Looks at one candidate for `id`; if the two are equivalent, what was recorded is merged. */
    method TryCandidate(id: nat, candId: nat, ghost bag: multiset<Pair>) returns (r: Status, taken: bool)
      requires check.Valid() && StructInv(check.g, bag, check.startId, id)
      requires id < |check.types| && candId < |check.types|
      requires WellSized(check.types[id]) && WellSized(check.types[candId]) && IsStruct(check.types[id])
      modifies check`hypotList, check`hypotAdjustCanon, check`g, check.hypotMap, check.map_
      ensures check.Valid() && StructInv(check.g, bag, check.startId, id) && MergedFrom(old(check.g), check.g)
      ensures r == Ok ==> if taken then Accepted(old(check.g), check.startId, id, candId)
                          else Refused(old(check.g), check.startId, id, candId)
      ensures taken ==> r == Ok && SameExceptRefs(check.types[id], check.types[candId])
      ensures taken ==> IsStruct(check.types[candId])
      ensures r != Ok || !taken ==>
                id < |check.g.map_| == |old(check.g).map_| && check.g.map_[id] == old(check.g).map_[id]
    {
      hide StructInv, Bisimulation, OnlyOpen, Answered, Reaches, StrictBisimulation, ListsRecorded, MergeAll,
           Graph.Valid, Mergeable, SameExceptRefs, LabelOf, KindOf, IsStructKind, IsStruct;
      GraphOf();
      OwnKnown(check.g, bag, check.startId, id);
      MergedSame(check.g);
      var same := EqualByKind(check.types[id], check.types[candId], Kind(check.types[id]));
      if !same {
        NotSame(check.g, check.startId, id, candId);
        return Ok, false;
      }
      var eq := check.CheckFromScratch(id, candId);
      if eq.Failed? {
        return Err(eq.errno), false;
      }
      if eq == Equiv {
        CheckDecides(check.g, check.startId, check.hypotMap[..], check.hypotList, id, candId, check.hypotAdjustCanon);
        MergeKeeps(check.g, bag, check.startId, id, check.hypotMap[..], check.hypotList, check.hypotAdjustCanon);
        MergeLeaves(check.g, check.hypotMap[..], check.hypotList, id);
        MergeHypotMap();
      }
      return Ok, eq == Equiv && !check.hypotAdjustCanon;
    }

    lemma GraphOf()
      requires check.Valid()
      ensures check.g.types == check.types && check.g.Valid()
    {
    }

    /** The loop of btf_dedup_struct_type over the candidates. */
    method FindCanonical(id: nat, cands: seq<Pair>, h: nat, ghost bag: multiset<Pair>)
      returns (r: Status, newId: nat, ghost seen: seq<Graph>)
      requires check.Valid() && StructInv(check.g, bag, check.startId, id)
      requires id < |check.types| && IsStruct(check.types[id]) && Candidates(bag, h, cands)
      requires forall p: Pair :: p in bag ==> p.1 != id
      modifies check`hypotList, check`hypotAdjustCanon, check`g, check.hypotMap, check.map_
      ensures check.Valid() && StructInv(check.g, bag, check.startId, id) && MergedFrom(old(check.g), check.g)
      ensures newId != id ==>
                && newId < |check.types| && check.g.map_[newId] == newId
                && SameExceptRefs(check.types[id], check.types[newId])
      ensures r == Ok ==> FirstAccepted(check.startId, id, cands, seen, newId) && SeenEarlier(seen, check.g)
      ensures id < |check.g.map_| == |old(check.g).map_|
      ensures newId == id ==> check.g.map_[id] == old(check.g).map_[id]
    {
      r, newId, seen := Ok, id, [];
      hide StructInv, Candidates, IsStructKind, KindOf, SameExceptRefs, Graph.Valid, Refused, Accepted, AllRefused,
           EquivCheck.Valid, IsStruct, MergedFrom, Earlier;
      RefusedNone(check.startId, id, cands);
      GraphOf();
      OwnKnown(check.g, bag, check.startId, id);
      MergedSame(check.g);
      for i := 0 to |cands|
        invariant check.Valid() && StructInv(check.g, bag, check.startId, id) && newId == id && r == Ok
        invariant MergedFrom(old(check.g), check.g) && SeenEarlier(seen, check.g)
        invariant id < |check.g.map_| == |old(check.g).map_| && check.g.map_[id] == old(check.g).map_[id]
        invariant |seen| == i && AllRefused(check.startId, id, cands, seen)
      {
        ghost var g := check.g;
        CandidateKnown(g, bag, check.startId, id, h, cands, i);
        OwnKnown(g, bag, check.startId, id);
        GraphOf();
        var candId, taken := cands[i].1, false;
        r, taken := TryCandidate(id, candId, bag);
        MergedTwice(old(check.g), g, check.g);
        if r != Ok {
          return;
        }
        SeenMore(seen, g, check.g);
        if taken {
          GraphOf();
          CandidateKnown(check.g, bag, check.startId, id, h, cands, i);
          AcceptedNow(check.startId, id, cands, seen, g);
          return Ok, candId, seen + [g];
        }
        RefusedMore(check.startId, id, cands, seen, g);
        seen := seen + [g];
      }
    }

    /** Records the canonical type of `id`; a type that is its own is added to the table. */
    method SetCanonical(id: nat, newId: nat, h: nat) returns (r: Status)
      requires Valid() && Settled(check.g, TableBag(), check.startId, id, newId, h)
      modifies check`g, check.map_, table, table.buckets, table.home.Keys
      ensures r == Ok && Done(id + 1) && check.g.map_ == old(check.g).map_[id := newId]
      ensures TableBag() == old(TableBag()) + if newId == id then multiset{(h, id)} else multiset{}
      ensures fresh(table.home.Keys - old(table.home.Keys))
      ensures table.buckets == old(table.buckets) || fresh(table.buckets)
    {
      hide PassInv, Bag, Good, H.HashMap.Valid, HashModel.Insert, Graph.Valid, EquivCheck.Valid;
      SetEntry(id, newId);
      r := Ok;
      if newId == id {
        r := AddToTable(h, id);
      }
    }

    method SetEntry(id: nat, newId: nat)
      requires check.Valid() && id < |check.g.map_| && newId <= BTF_MAX_NR_TYPES
      requires check.g.(map_ := check.g.map_[id := newId]).Valid()
      modifies check`g, check.map_
      ensures check.Valid() && check.g == old(check.g).(map_ := old(check.g).map_[id := newId])
    {
      hide Graph.Valid, ListsRecorded;
      check.map_[id] := newId;
      check.g := check.g.(map_ := check.map_[..]);
    }

    /** btf_dedup_table_add */
    method AddToTable(h: nat, id: nat) returns (r: Status)
      requires table.Valid() && |TableBag()| < 2 * BTF_MAX_NR_TYPES
      modifies table, table.buckets, table.home.Keys
      ensures r == Ok && table.Valid() && TableBag() == old(TableBag()) + multiset{(h, id)}
      ensures fresh(table.home.Keys - old(table.home.Keys))
      ensures table.buckets == old(table.buckets) || fresh(table.buckets)
    {
      hide Good, HashModel.Insert;
      ListingFits(table.View(), table.k, h, id);
      var oldKey, oldValue;
      r, oldKey, oldValue := table.Insert(h, id, APPEND);
    }

    /** btf_dedup_struct_type */
    method DedupStructType(id: nat) returns (r: Status, ghost cands: seq<Pair>, ghost seen: seq<Graph>)
      requires Done(id) && id < |check.types|
      modifies check`hypotList, check`hypotAdjustCanon, check`g, check.hypotMap, check.map_
      modifies table, table.buckets, table.home.Keys
      ensures Done(if r == Ok then id + 1 else id) && |check.types[id]| >= BASE
      ensures old(Mapped(check.g.map_, id)) || !IsStruct(check.types[id]) ==>
                r == Ok && check.g == old(check.g) && TableBag() == old(TableBag())
      ensures !old(Mapped(check.g.map_, id)) && IsStruct(check.types[id]) && r == Ok ==>
                && WellSized(check.types[id])
                && Candidates(old(TableBag()), StructSig(check.types[id]), cands)
                && FirstAccepted(check.startId, id, cands, seen, check.g.map_[id])
                && TableBag() == old(TableBag()) +
                     (if check.g.map_[id] == id then multiset{(StructSig(check.types[id]), id)} else multiset{})
                && (check.g.map_[id] == id ==>
                      SameWordsRefused(check.types, old(TableBag()), check.startId, id, cands, seen))
      ensures fresh(table.home.Keys - old(table.home.Keys))
      ensures table.buckets == old(table.buckets) || fresh(table.buckets)
    {
      hide StructInv, IsStructKind, KindOf, Bag, Good, LabelOf, H.HashMap.Valid, OnlyOpen, Candidates, FirstAccepted,
           StructSig, Graph.Valid, IsStruct, Listing, Compared, SeenEarlier, SameWordsRefused, WellSized, MergedFrom;
      ghost var g0 := check.g;
      OwnKnown(g0, TableBag(), check.startId, id);
      OwnSized(g0, TableBag(), check.startId, id);
      KindIsStruct(check.types[id]);
      cands, seen := [], [];
      if check.map_[id] <= BTF_MAX_NR_TYPES || !IsStructKind(Kind(check.types[id])) {
        SkipDone(check.g, TableBag(), check.startId, id);
        return Ok, [], [];
      }
      var h := StructSig(check.types[id]);
      var listed := Cands(h);
      cands := listed;
      NotListed(check.g, TableBag(), check.startId, id);
      var newId;
      r, newId, seen := FindCanonical(id, listed, h, TableBag());
      if r != Ok {
        MergedDone(g0, check.g, TableBag(), check.startId, id);
        return;
      }
      ListedSized(g0, TableBag(), check.startId, id);
      if newId == id {
        AllSameRefused(g0, TableBag(), check.startId, id, id, cands, seen);
      }
      OwnKnown(check.g, TableBag(), check.startId, id);
      SetDone(g0, check.g, TableBag(), check.startId, id, newId, cands, seen);
      r := SetCanonical(id, newId, h);
    }

    /** btf_dedup_struct_types */
    method DedupStructTypes() returns (r: Status)
      requires Done(check.startId)
      modifies check`hypotList, check`hypotAdjustCanon, check`g, check.hypotMap, check.map_
      modifies table, table.buckets, table.home.Keys
      ensures exists n :: Done(n) && (r == Ok ==> n == |check.types|)
    {
      hide StructInv, H.HashMap.Valid, Bag, Listing, Compared;
      OwnKnown(check.g, TableBag(), check.startId, check.startId);
      for i := check.startId to |check.types|
        invariant Done(i)
        invariant fresh(table.home.Keys - old(table.home.Keys))
        invariant table.buckets == old(table.buckets) || fresh(table.buckets)
      {
        var err, _, _ := DedupStructType(i);
        if err != Ok {
          return err;
        }
      }
      r := Ok;
    }
  }
}

/** When two type graphs are equivalent, and what the hypothetical map says about it. */
module EquivSpec {
  import opened Words
  import opened BtfRecords
  import opened CanonicalMap

  /** The input of an equivalence check: all type records by id, the canonical map, and the
      depth-limited structural comparison that is used as a fallback. */
  datatype Graph = Graph(types: seq<Record>, map_: seq<u32>, identical: (nat, nat) -> bool)
  {
    ghost predicate Valid() {
      && 0 < |types| == |map_| <= BTF_MAX_NR_TYPES
      && Acyclic(map_)
      && types[0] == [0, 0, 0] && map_[0] == 0
      && (forall i :: 1 <= i < |types| ==> WellSized(types[i]))
      && (forall i :: 0 <= i < |types| ==> RefsBelow(types[i], |types|))
    }

    ghost predicate Id(i: nat) { i < |types| }
  }

  function IsFwd(r: Record): bool
    requires |r| >= BASE
  {
    Kind(r) == BTF_KIND_FWD
  }

  /** btf_fwd_kind */
  function FwdKind(r: Record): nat
    requires |r| >= BASE
  {
    if KflagOf(r[1]) then BTF_KIND_UNION else BTF_KIND_STRUCT
  }

  predicate IsEnumKind(k: nat) {
    k == BTF_KIND_ENUM || k == BTF_KIND_ENUM64
  }

  predicate IsEnumFwd(r: Record)
    requires |r| >= BASE
  {
    IsEnumKind(Kind(r)) && Vlen(r) == 0
  }

  /** Kinds whose references are compared side by side. */
  predicate Descends(k: nat) {
    IsModKind(k) || k == BTF_KIND_PTR || k == BTF_KIND_TYPEDEF || k == BTF_KIND_FUNC ||
    k == BTF_KIND_TYPE_TAG || k == BTF_KIND_ARRAY || IsCompositeKind(k) || k == BTF_KIND_FUNC_PROTO
  }

  /** The two records have the same words everywhere except where they hold type ids. */
  ghost predicate SameExceptRefs(a: Record, b: Record)
    requires |a| >= BASE
  {
    |a| == |b| && forall i :: 0 <= i < |a| && !IsRef(a[1], i) ==> a[i] == b[i]
  }

  /** The two records can stand for the same type, as far as they alone can tell. */
  ghost predicate Compatible(cand: Record, canon: Record)
    requires |cand| >= BASE && |canon| >= BASE
  {
    var k := Kind(cand);
    && cand[0] == canon[0]
    && if k != Kind(canon) then
         (IsFwd(cand) && FwdKind(cand) == Kind(canon)) || (IsFwd(canon) && FwdKind(canon) == k)
       else if IsEnumKind(k) then
         IsEnumFwd(cand) || IsEnumFwd(canon) || cand == canon
       else if k == BTF_KIND_INT || k == BTF_KIND_FWD || k == BTF_KIND_FLOAT then
         cand == canon
       else
         Descends(k) && SameExceptRefs(cand, canon)
  }

  /** resolve_fwd_id: a forward declaration that resolved to something else is followed. */
  ghost function Target(g: Graph, id: nat): (r: nat)
    requires g.Valid() && g.Id(id)
    ensures g.Id(r)
  {
    if IsFwd(g.types[id]) && !IsFwd(g.types[Root(g.map_, id)]) then Root(g.map_, id) else id
  }

  /** A hypothetical map: for canonical ids, the recorded candidate id, if any. */
  ghost predicate HypotMap(g: Graph, h: seq<u32>) {
    && |h| == |g.types|
    && forall c :: 0 <= c < |h| ==> h[c] == BTF_UNPROCESSED_ID || h[c] < |g.types|
  }

  predicate Recorded(h: seq<u32>, c: nat)
    requires c < |h|
  {
    h[c] <= BTF_MAX_NR_TYPES
  }

  /** `h'` keeps everything that `h` has recorded. */
  ghost predicate Extends(h: seq<u32>, h': seq<u32>) {
    |h| == |h'| && forall c :: 0 <= c < |h| && Recorded(h, c) ==> h'[c] == h[c]
  }

  /** The pair needs no further comparison under `h`. */
  ghost predicate Answered(g: Graph, h: seq<u32>, cand: nat, canon: nat)
    requires g.Valid() && HypotMap(g, h)
  {
    && g.Id(cand) && g.Id(canon)
    && (|| Root(g.map_, cand) == Root(g.map_, canon)
        || (Recorded(h, Target(g, canon)) &&
            (h[Target(g, canon)] == cand || g.identical(h[Target(g, canon)], cand))))
  }

  /** As Answered, but without the structural fallback. */
  ghost predicate Matched(g: Graph, h: seq<u32>, cand: nat, canon: nat)
    requires g.Valid() && HypotMap(g, h)
  {
    && g.Id(cand) && g.Id(canon)
    && (Root(g.map_, cand) == Root(g.map_, canon) || h[Target(g, canon)] == cand)
  }

  /** The references of the pair are compared. */
  ghost predicate HasChildren(cand: Record, canon: Record)
    requires |cand| >= BASE && |canon| >= BASE
  {
    Kind(cand) == Kind(canon) && Descends(Kind(canon))
  }

  /** The recorded pair is compatible and each pair of its references is answered in turn. */
  ghost predicate Expanded(g: Graph, h: seq<u32>, canon: nat, cand: nat)
    requires g.Valid() && HypotMap(g, h)
  {
    && g.Id(cand) && g.Id(canon)
    && var a, b := g.types[cand], g.types[canon];
    && Compatible(a, b)
    && (HasChildren(a, b) ==>
          |a| == |b| && forall i :: 0 <= i < |b| && IsRef(b[1], i) ==> Answered(g, h, a[i], b[i]))
  }

  /** As Expanded, but without the structural fallback. */
  ghost predicate ExpandedStrictly(g: Graph, h: seq<u32>, canon: nat, cand: nat)
    requires g.Valid() && HypotMap(g, h)
  {
    && g.Id(cand) && g.Id(canon)
    && var a, b := g.types[cand], g.types[canon];
    && Compatible(a, b)
    && (HasChildren(a, b) ==>
          |a| == |b| && forall i :: 0 <= i < |b| && IsRef(b[1], i) ==> Matched(g, h, a[i], b[i]))
  }

  /** The recorded pairs form a bisimulation between the candidate and the canonical graph. */
  ghost predicate Bisimulation(g: Graph, h: seq<u32>) {
    && g.Valid() && HypotMap(g, h)
    && forall c :: 0 <= c < |h| && Recorded(h, c) ==> Expanded(g, h, c, h[c])
  }

  ghost predicate StrictBisimulation(g: Graph, h: seq<u32>) {
    && g.Valid() && HypotMap(g, h)
    && forall c :: 0 <= c < |h| && Recorded(h, c) ==> ExpandedStrictly(g, h, c, h[c])
  }

  /** A strict bisimulation that contains `h` and matches the pair. */
  ghost predicate Witness(g: Graph, h: seq<u32>, cand: nat, canon: nat, w: seq<u32>) {
    StrictBisimulation(g, w) && Extends(h, w) && Matched(g, w, cand, canon)
  }

  lemma ExtendsTransitive(a: seq<u32>, b: seq<u32>, c: seq<u32>)
    requires Extends(a, b) && Extends(b, c)
    ensures Extends(a, c)
  {
  }

  lemma AnsweredGrows(g: Graph, h: seq<u32>, h': seq<u32>, cand: nat, canon: nat)
    requires g.Valid() && HypotMap(g, h) && HypotMap(g, h') && Extends(h, h')
    requires Answered(g, h, cand, canon)
    ensures Answered(g, h', cand, canon)
  {
  }

  lemma ExpandedGrows(g: Graph, h: seq<u32>, h': seq<u32>, canon: nat, cand: nat)
    requires g.Valid() && HypotMap(g, h) && HypotMap(g, h') && Extends(h, h')
    requires Expanded(g, h, canon, cand)
    ensures Expanded(g, h', canon, cand)
  {
    hide Answered;
    var a, b := g.types[cand], g.types[canon];
    if HasChildren(a, b) {
      forall i | 0 <= i < |b| && IsRef(b[1], i)
        ensures Answered(g, h', a[i], b[i])
      {
        AnsweredGrows(g, h, h', a[i], b[i]);
      }
    }
  }

  /** Pairs recorded in `h'` but not in `h` are all expanded. */
  ghost predicate NewExpanded(g: Graph, h: seq<u32>, h': seq<u32>) {
    && g.Valid() && HypotMap(g, h) && HypotMap(g, h')
    && forall c :: 0 <= c < |h| && !Recorded(h, c) && Recorded(h', c) ==> Expanded(g, h', c, h'[c])
  }

  lemma NewExpandedNone(g: Graph, h: seq<u32>)
    requires g.Valid() && HypotMap(g, h)
    ensures NewExpanded(g, h, h)
  {
  }

  lemma NewExpandedJoin(g: Graph, h: seq<u32>, h': seq<u32>, h'': seq<u32>)
    requires NewExpanded(g, h, h') && NewExpanded(g, h', h'') && Extends(h', h'')
    ensures NewExpanded(g, h, h'')
  {
    hide Expanded;
    forall c | 0 <= c < |h| && !Recorded(h, c) && Recorded(h'', c)
      ensures Expanded(g, h'', c, h''[c])
    {
      if Recorded(h', c) {
        ExpandedGrows(g, h', h'', c, h'[c]);
      }
    }
  }

  /** The children of the pair with positions below `done` in the visiting order are answered. */
  ghost predicate ChildrenAnswered(g: Graph, h: seq<u32>, cand: nat, canon: nat, order: seq<nat>, done: nat) {
    && g.Valid() && HypotMap(g, h) && g.Id(cand) && g.Id(canon)
    && done <= |order|
    && (forall k :: 0 <= k < |order| ==> order[k] < |g.types[cand]| && order[k] < |g.types[canon]|)
    && forall k :: 0 <= k < done ==> Answered(g, h, g.types[cand][order[k]], g.types[canon][order[k]])
  }

  lemma ChildrenGrow(g: Graph, h: seq<u32>, h': seq<u32>, cand: nat, canon: nat, order: seq<nat>, done: nat)
    requires ChildrenAnswered(g, h, cand, canon, order, done) && done < |order|
    requires HypotMap(g, h') && Extends(h, h')
    requires Answered(g, h', g.types[cand][order[done]], g.types[canon][order[done]])
    ensures ChildrenAnswered(g, h', cand, canon, order, done + 1)
  {
    hide Answered;
    forall k | 0 <= k < done
      ensures Answered(g, h', g.types[cand][order[k]], g.types[canon][order[k]])
    {
      AnsweredGrows(g, h, h', g.types[cand][order[k]], g.types[canon][order[k]]);
    }
  }

  /** The reference positions of a record in the order in which the check visits them. */
  ghost predicate VisitsRefs(r: Record, order: seq<nat>)
    requires |r| >= BASE
  {
    && (forall k :: 0 <= k < |order| ==> order[k] < |r| && IsRef(r[1], order[k]))
    && (forall i :: 0 <= i < |r| && IsRef(r[1], i) ==> i in order)
  }

  /** Once all children are answered, the freshly recorded pair joins the expanded ones. */
  lemma PairExpanded(g: Graph, h0: seq<u32>, h1: seq<u32>, h: seq<u32>, cand: nat, canon: nat, order: seq<nat>)
    requires g.Valid() && HypotMap(g, h0) && g.Id(cand) && g.Id(canon)
    requires h1 == h0[canon := cand] && NewExpanded(g, h1, h) && Extends(h1, h)
    requires Compatible(g.types[cand], g.types[canon])
    requires HasChildren(g.types[cand], g.types[canon]) ==>
               VisitsRefs(g.types[canon], order) && ChildrenAnswered(g, h, cand, canon, order, |order|)
    ensures NewExpanded(g, h0, h)
  {
    hide Answered;
    var a, b := g.types[cand], g.types[canon];
    assert Expanded(g, h, canon, cand) by {
      if HasChildren(a, b) {
        forall i | 0 <= i < |b| && IsRef(b[1], i)
          ensures Answered(g, h, a[i], b[i])
        {
          var k :| 0 <= k < |order| && order[k] == i;
        }
      }
    }
  }

  /** A witness for a pair that had to be recorded still is one afterwards, for every child. */
  lemma WitnessRecorded(g: Graph, h: seq<u32>, cand: nat, canon: nat, w: seq<u32>)
    requires g.Valid() && HypotMap(g, h) && g.Id(cand) && g.Id(canon)
    requires Witness(g, h, cand, canon, w)
    requires Root(g.map_, cand) != Root(g.map_, canon)
    ensures w[Target(g, canon)] == cand
    ensures !Recorded(h, Target(g, canon)) ==> Extends(h[Target(g, canon) := cand], w)
    ensures Compatible(g.types[cand], g.types[Target(g, canon)])
  {
  }

  lemma WitnessChild(g: Graph, h: seq<u32>, h': seq<u32>, cand: nat, canon: nat, w: seq<u32>, i: nat)
    requires g.Valid() && HypotMap(g, h) && HypotMap(g, h') && g.Id(cand) && g.Id(canon)
    requires Witness(g, h, cand, canon, w) && Extends(h', w)
    requires Root(g.map_, cand) != Root(g.map_, canon)
    requires var a, b := g.types[cand], g.types[Target(g, canon)];
             HasChildren(a, b) && i < |b| && IsRef(b[1], i)
    ensures i < |g.types[cand]|
    ensures Witness(g, h', g.types[cand][i], g.types[Target(g, canon)][i], w)
  {
  }

  // ---------------------------------------------------------------------------
  // What one call of the check guarantees

  /** The ids for which nothing has been recorded yet. */
  ghost function Unprocessed(h: seq<u32>): set<int> {
    set c | 0 <= c < |h| && !Recorded(h, c)
  }

  /** The call answers at once, without recording anything. */
  ghost predicate AtOnce(g: Graph, h: seq<u32>, cand: nat, canon: nat)
    requires g.Valid() && HypotMap(g, h) && g.Id(cand) && g.Id(canon)
  {
    Root(g.map_, cand) == Root(g.map_, canon) || Recorded(h, Target(g, canon))
  }

  /** A pair recorded since `h` would redirect a forward declaration of base BTF. */
  ghost predicate RedirectsBase(g: Graph, start: nat, h: seq<u32>, h': seq<u32>)
    requires g.Valid() && HypotMap(g, h) && HypotMap(g, h')
  {
    exists c :: 0 <= c < |h| && c < start && !Recorded(h, c) && Recorded(h', c) &&
      IsFwd(g.types[c]) && !IsFwd(g.types[h'[c]])
  }

  /**
   * The check of (`cand`, `canon`) went from map `h` to map `h'`. A positive answer is sound: the
   * pair is answered and all new pairs are expanded. A negative answer is complete: no strict
   * bisimulation extends `h` and matches the pair.
   */
  ghost predicate Checked(g: Graph, h: seq<u32>, h': seq<u32>, cand: nat, canon: nat, eq: bool) {
    && g.Valid() && HypotMap(g, h) && HypotMap(g, h') && Extends(h, h')
    && (eq ==> Answered(g, h', cand, canon) && NewExpanded(g, h, h'))
    && (forall w :: Witness(g, h, cand, canon, w) ==> eq && Extends(h', w))
  }

  /** The first `i` children of the freshly recorded pair have been checked with success. */
  ghost predicate Descending(g: Graph, h0: seq<u32>, h: seq<u32>, cand: nat, canon: nat, order: seq<nat>, i: nat) {
    && g.Valid() && HypotMap(g, h0) && HypotMap(g, h) && g.Id(cand) && g.Id(canon)
    && Root(g.map_, cand) != Root(g.map_, canon) && !Recorded(h0, Target(g, canon))
    && Compatible(g.types[cand], g.types[Target(g, canon)])
    && HasChildren(g.types[cand], g.types[Target(g, canon)])
    && VisitsRefs(g.types[Target(g, canon)], order)
    && Extends(h0[Target(g, canon) := cand], h)
    && NewExpanded(g, h0[Target(g, canon) := cand], h)
    && ChildrenAnswered(g, h, cand, Target(g, canon), order, i)
    && (forall w :: Witness(g, h0, cand, canon, w) ==> Extends(h, w))
  }

  lemma AnsweredIff(g: Graph, h: seq<u32>, cand: nat, canon: nat)
    requires g.Valid() && HypotMap(g, h) && g.Id(cand) && g.Id(canon)
    ensures Answered(g, h, cand, canon) <==>
              || Root(g.map_, cand) == Root(g.map_, canon)
              || (Recorded(h, Target(g, canon)) &&
                  (h[Target(g, canon)] == cand || g.identical(h[Target(g, canon)], cand)))
  {
  }

  lemma UnprocessedShrinks(h: seq<u32>, h': seq<u32>)
    requires Extends(h, h')
    ensures Unprocessed(h') <= Unprocessed(h)
  {
    forall c | c in Unprocessed(h')
      ensures c in Unprocessed(h)
    {
      if Recorded(h, c) {
        assert h'[c] == h[c];
      }
    }
  }

  lemma UnprocessedDrops(h: seq<u32>, c: nat, cand: u32)
    requires c < |h| && !Recorded(h, c) && cand <= BTF_MAX_NR_TYPES
    ensures Unprocessed(h[c := cand]) < Unprocessed(h)
  {
    assert c in Unprocessed(h) && c !in Unprocessed(h[c := cand]);
  }

  lemma CheckedAtOnce(g: Graph, h: seq<u32>, cand: nat, canon: nat, eq: bool)
    requires g.Valid() && HypotMap(g, h) && g.Id(cand) && g.Id(canon) && AtOnce(g, h, cand, canon)
    requires eq <==> Answered(g, h, cand, canon)
    ensures Checked(g, h, h, cand, canon, eq)
  {
    NewExpandedNone(g, h);
  }

  /** The records alone decided. */
  lemma CheckedLocally(g: Graph, h: seq<u32>, cand: nat, canon: nat, eq: bool)
    requires g.Valid() && HypotMap(g, h) && g.Id(cand) && g.Id(canon) && !AtOnce(g, h, cand, canon)
    requires eq ==> Compatible(g.types[cand], g.types[Target(g, canon)]) &&
                    !HasChildren(g.types[cand], g.types[Target(g, canon)])
    requires !eq ==> !Compatible(g.types[cand], g.types[Target(g, canon)])
    ensures Checked(g, h, h[Target(g, canon) := cand], cand, canon, eq)
  {
    hide Witness, Compatible;
    var h' := h[Target(g, canon) := cand];
    NewExpandedNone(g, h');
    if eq {
      PairExpanded(g, h, h', h', cand, Target(g, canon), []);
    }
    forall w | Witness(g, h, cand, canon, w)
      ensures eq && Extends(h', w)
    {
      WitnessRecorded(g, h, cand, canon, w);
    }
  }

  lemma DescendingStart(g: Graph, h: seq<u32>, cand: nat, canon: nat, order: seq<nat>)
    requires g.Valid() && HypotMap(g, h) && g.Id(cand) && g.Id(canon) && !AtOnce(g, h, cand, canon)
    requires Compatible(g.types[cand], g.types[Target(g, canon)])
    requires HasChildren(g.types[cand], g.types[Target(g, canon)])
    requires VisitsRefs(g.types[Target(g, canon)], order)
    ensures Descending(g, h, h[Target(g, canon) := cand], cand, canon, order, 0)
  {
    hide Witness;
    var h' := h[Target(g, canon) := cand];
    NewExpandedNone(g, h');
    SameLength(g.types[cand], g.types[Target(g, canon)]);
    forall w | Witness(g, h, cand, canon, w)
      ensures Extends(h', w)
    {
      WitnessRecorded(g, h, cand, canon, w);
    }
  }

  lemma SameLength(a: Record, b: Record)
    requires |a| >= BASE && |b| >= BASE && Compatible(a, b) && HasChildren(a, b)
    ensures |a| == |b|
  {
  }

  /** The ids of the next two children exist. */
  lemma DescendingChild(g: Graph, h0: seq<u32>, h: seq<u32>, cand: nat, canon: nat, order: seq<nat>, i: nat)
    requires Descending(g, h0, h, cand, canon, order, i) && i < |order|
    ensures order[i] < |g.types[cand]| && order[i] < |g.types[Target(g, canon)]|
    ensures g.Id(g.types[cand][order[i]]) && g.Id(g.types[Target(g, canon)][order[i]])
    ensures Extends(h0[Target(g, canon) := cand], h)
  {
    SameRefs(g.types[cand], g.types[Target(g, canon)], order[i]);
  }

  lemma SameRefs(a: Record, b: Record, i: nat)
    requires |a| >= BASE && |b| >= BASE && Compatible(a, b) && HasChildren(a, b)
    requires i < |b| && IsRef(b[1], i)
    ensures |a| == |b| && IsRef(a[1], i)
  {
    assert !IsRef(a[1], 1);
  }

  lemma DescendingStep(g: Graph, h0: seq<u32>, h: seq<u32>, h': seq<u32>, cand: nat, canon: nat,
                       order: seq<nat>, i: nat)
    requires Descending(g, h0, h, cand, canon, order, i) && i < |order|
    requires order[i] < |g.types[cand]| && order[i] < |g.types[Target(g, canon)]|
    requires Checked(g, h, h', g.types[cand][order[i]], g.types[Target(g, canon)][order[i]], true)
    ensures Descending(g, h0, h', cand, canon, order, i + 1)
  {
    hide Witness, Compatible, Answered, Matched, Expanded, IsRef;
    var h1 := h0[Target(g, canon) := cand];
    ExtendsTransitive(h1, h, h');
    NewExpandedJoin(g, h1, h, h');
    ChildrenGrow(g, h, h', cand, Target(g, canon), order, i);
    forall w | Witness(g, h0, cand, canon, w)
      ensures Extends(h', w)
    {
      WitnessChild(g, h0, h, cand, canon, w, order[i]);
    }
  }

  lemma DescendingFail(g: Graph, h0: seq<u32>, h: seq<u32>, h': seq<u32>, cand: nat, canon: nat,
                       order: seq<nat>, i: nat)
    requires Descending(g, h0, h, cand, canon, order, i) && i < |order|
    requires order[i] < |g.types[cand]| && order[i] < |g.types[Target(g, canon)]|
    requires Checked(g, h, h', g.types[cand][order[i]], g.types[Target(g, canon)][order[i]], false)
    ensures Checked(g, h0, h', cand, canon, false)
  {
    hide Witness, Compatible, Answered, Matched, Expanded, IsRef, NewExpanded;
    ExtendsTransitive(h0[Target(g, canon) := cand], h, h');
    forall w | Witness(g, h0, cand, canon, w)
      ensures false
    {
      WitnessChild(g, h0, h, cand, canon, w, order[i]);
    }
  }

  lemma DescendingEnd(g: Graph, h0: seq<u32>, h: seq<u32>, cand: nat, canon: nat, order: seq<nat>)
    requires Descending(g, h0, h, cand, canon, order, |order|)
    ensures Checked(g, h0, h, cand, canon, true)
  {
    hide Witness, Compatible, Expanded, IsRef;
    var c := Target(g, canon);
    PairExpanded(g, h0, h0[c := cand], h, cand, c, order);
    assert Recorded(h0[c := cand], c);
  }

  lemma CheckedExtends(g: Graph, h: seq<u32>, h': seq<u32>, cand: nat, canon: nat)
    requires Checked(g, h, h', cand, canon, true)
    ensures g.Valid() && HypotMap(g, h) && HypotMap(g, h') && Extends(h, h')
  {
  }

  lemma CheckedFresh(g: Graph, h0: seq<u32>, h: seq<u32>, cand: nat, canon: nat, eq: bool)
    requires Checked(g, h0, h, cand, canon, eq)
    requires forall c :: 0 <= c < |h0| ==> h0[c] == BTF_UNPROCESSED_ID
    ensures eq ==> Bisimulation(g, h) && Answered(g, h, cand, canon)
    ensures forall w :: StrictBisimulation(g, w) && Matched(g, w, cand, canon) ==> eq && Extends(h, w)
  {
    forall w | StrictBisimulation(g, w) && Matched(g, w, cand, canon)
      ensures eq && Extends(h, w)
    {
      assert Witness(g, h0, cand, canon, w);
    }
  }

  lemma ChildBearing(g: Graph, cand: nat, canon: nat)
    requires g.Valid() && g.Id(cand) && g.Id(canon) && HasChildren(g.types[cand], g.types[canon])
    ensures !IsFwd(g.types[canon]) && Descends(Kind(g.types[canon])) && WellSized(g.types[canon])
  {
    assert KindOf(0) == BTF_KIND_UNKN;
  }

  /** A pair that has to be compared is not void on both sides. */
  lemma NotBothVoid(g: Graph, h: seq<u32>, cand: nat, canon: nat)
    requires g.Valid() && HypotMap(g, h) && g.Id(cand) && g.Id(canon) && !AtOnce(g, h, cand, canon)
    ensures |g.types[cand]| >= BASE && |g.types[Target(g, canon)]| >= BASE
    ensures WellSized(g.types[cand]) || g.types[cand] == [0, 0, 0]
    ensures WellSized(g.types[Target(g, canon)]) || g.types[Target(g, canon)] == [0, 0, 0]
    ensures g.types[cand] != [0, 0, 0] || g.types[Target(g, canon)] != [0, 0, 0]
  {
    RootStep(g.map_, 0);
    assert KindOf(0) == BTF_KIND_UNKN;
    assert cand != 0 ==> WellSized(g.types[cand]);
    assert Target(g, canon) != 0 ==> WellSized(g.types[Target(g, canon)]);
  }

  /** Redirections recorded along the way add up. */
  lemma RedirectsJoin(g: Graph, start: nat, h: seq<u32>, h': seq<u32>, h'': seq<u32>)
    requires g.Valid() && HypotMap(g, h) && HypotMap(g, h') && HypotMap(g, h'')
    requires Extends(h, h') && Extends(h', h'')
    ensures RedirectsBase(g, start, h, h'') <==>
              RedirectsBase(g, start, h, h') || RedirectsBase(g, start, h', h'')
  {
  }

  lemma RedirectsOne(g: Graph, start: nat, h: seq<u32>, c: nat, cand: nat)
    requires g.Valid() && HypotMap(g, h) && g.Id(c) && g.Id(cand) && !Recorded(h, c)
    ensures HypotMap(g, h[c := cand]) && Extends(h, h[c := cand])
    ensures RedirectsBase(g, start, h, h[c := cand]) <==>
              c < start && IsFwd(g.types[c]) && !IsFwd(g.types[cand])
  {
    if c < start && IsFwd(g.types[c]) && !IsFwd(g.types[cand]) {
      assert h[c := cand][c] == cand;
    }
  }

  lemma RedirectsNone(g: Graph, start: nat, h: seq<u32>)
    requires g.Valid() && HypotMap(g, h)
    ensures !RedirectsBase(g, start, h, h)
  {
  }

  // ---------------------------------------------------------------------------
  // What a bisimulation means for whole paths

  /**
   * Following the references at `path` on both sides at once reaches the pair (`a`, `b`), by way of
   * pairs that are themselves recorded, so that the structural fallback was not asked about them.
   */
  ghost predicate Reaches(g: Graph, h: seq<u32>, cand: nat, canon: nat, path: seq<nat>, a: nat, b: nat)
    requires g.Valid() && HypotMap(g, h)
    decreases |path|
  {
    && g.Id(cand) && g.Id(canon)
    && if path == [] then a == cand && b == canon
       else
         var x, y := g.types[cand], g.types[Target(g, canon)];
         && Root(g.map_, cand) != Root(g.map_, canon) && h[Target(g, canon)] == cand
         && HasChildren(x, y) && path[0] < |x| && path[0] < |y| && IsRef(y[1], path[0])
         && Reaches(g, h, x[path[0]], y[path[0]], path[1..], a, b)
  }

  /** The two types are one already, or have compatible records, as far as the map recorded them. */
  ghost predicate InStep(g: Graph, h: seq<u32>, a: nat, b: nat)
    requires g.Valid() && HypotMap(g, h)
  {
    && Answered(g, h, a, b)
    && (|| Root(g.map_, a) == Root(g.map_, b)
        || (h[Target(g, b)] < |g.types| && Compatible(g.types[h[Target(g, b)]], g.types[Target(g, b)])))
  }

  /**
   * Along any path of references from an answered pair, both graphs stay in step: the pair reached is
   * already known to be the same type, or what is recorded for the canonical side, which is the
   * candidate or structurally identical to it, is compatible with it.
   */
  lemma {:induction false} BisimulationPaths(g: Graph, h: seq<u32>, cand: nat, canon: nat, path: seq<nat>, a: nat,
                                             b: nat)
    requires Bisimulation(g, h) && Answered(g, h, cand, canon)
    requires Reaches(g, h, cand, canon, path, a, b)
    ensures InStep(g, h, a, b)
    decreases |path|
  {
    if path != [] {
      var x, y := g.types[cand], g.types[Target(g, canon)];
      assert Expanded(g, h, Target(g, canon), cand);
      BisimulationPaths(g, h, x[path[0]], y[path[0]], path[1..], a, b);
    } else if Root(g.map_, a) != Root(g.map_, b) {
      assert Expanded(g, h, Target(g, b), h[Target(g, b)]);
    }
  }

  /** The structural fallback takes no two different types for one. */
  ghost predicate NoFallback(g: Graph) {
    forall x: nat, y: nat :: g.identical(x, y) ==> x == y
  }

  /** Without the structural fallback a positive answer is strict. */
  lemma StrictWithoutFallback(g: Graph, h: seq<u32>, cand: nat, canon: nat)
    requires Bisimulation(g, h) && Answered(g, h, cand, canon) && NoFallback(g)
    ensures StrictBisimulation(g, h) && Matched(g, h, cand, canon)
  {
    forall c | 0 <= c < |h| && Recorded(h, c)
      ensures ExpandedStrictly(g, h, c, h[c])
    {
      assert Expanded(g, h, c, h[c]);
    }
  }

  /** What a positive answer means for all paths, and for a check that never falls back. */
  lemma AcceptedMeans(g: Graph, h: seq<u32>, cand: nat, canon: nat)
    requires Bisimulation(g, h) && Answered(g, h, cand, canon)
    ensures forall path, a, b :: Reaches(g, h, cand, canon, path, a, b) ==> InStep(g, h, a, b)
    ensures NoFallback(g) ==> StrictBisimulation(g, h) && Matched(g, h, cand, canon)
  {
    hide Answered, InStep;
    forall path, a, b | Reaches(g, h, cand, canon, path, a, b)
      ensures InStep(g, h, a, b)
    {
      BisimulationPaths(g, h, cand, canon, path, a, b);
    }
    if NoFallback(g) {
      StrictWithoutFallback(g, h, cand, canon);
    }
  }
}

/** The same conditions on types instead of words. */
module EquivTypes {
  import opened Words
  import opened BtfRecords
  import opened TypedRecords
  import opened CanonicalMap
  import opened EquivSpec

  /** Members or parameters with the same names and offsets. */
  predicate SameMembers(a: seq<Trio>, b: seq<Trio>) {
    |a| == |b| && forall j :: 0 <= j < |a| ==> a[j].a == b[j].a && a[j].c == b[j].c
  }

  predicate SameParams(a: seq<Duo>, b: seq<Duo>) {
    |a| == |b| && forall j :: 0 <= j < |a| ==> a[j].a == b[j].a
  }

  /** What two types of one kind have to agree in. */
  predicate SameShape(a: BtfType, b: BtfType) {
    if a.Int? && b.Int? then a.size == b.size && a.encoding == b.encoding
    else if a.Float? && b.Float? then a.size == b.size
    else if a.Fwd? && b.Fwd? then a.kflag == b.kflag && a.to == b.to
    else if a.Enum? && b.Enum? then a.vals == [] || b.vals == [] || a == b
    else if a.Enum64? && b.Enum64? then a.vals64 == [] || b.vals64 == [] || a == b
    else if a.Array? && b.Array? then a.size == b.size && a.nelems == b.nelems
    else if a.Struct? && b.Struct? then a.kflag == b.kflag && a.size == b.size && SameMembers(a.members, b.members)
    else if a.Union? && b.Union? then a.kflag == b.kflag && a.size == b.size && SameMembers(a.members, b.members)
    else if a.FuncProto? && b.FuncProto? then SameParams(a.params, b.params)
    else
      || (a.Ptr? && b.Ptr?) || (a.Typedef? && b.Typedef?) || (a.Volatile? && b.Volatile?) || (a.Const? && b.Const?)
      || (a.Restrict? && b.Restrict?) || (a.Func? && b.Func?) || (a.TypeTag? && b.TypeTag?)
  }

  /** A forward declaration and what it declares. */
  predicate Declares(f: BtfType, t: BtfType) {
    f.Fwd? && if f.kflag then t.Union? else t.Struct?
  }

  predicate EnumForward(t: BtfType) {
    (t.Enum? && t.vals == []) || (t.Enum64? && t.vals64 == [])
  }

  /** The header words agree where they have to: also in the bits that the kind does not use. */
  predicate SameHeader(a: BtfType, u: u32, b: BtfType, v: u32)
    requires a.Proper() && b.Proper()
  {
    a.Code() != b.Code() || EnumForward(a) || EnumForward(b) || Info(a, u) == Info(b, v)
  }

  /** When the records of two types are compatible. */
  predicate Alike(a: BtfType, b: BtfType) {
    a.name == b.name && (Declares(a, b) || Declares(b, a) || SameShape(a, b))
  }

  /** Kinds whose references are compared. */
  predicate Compared(t: BtfType) {
    t.Ptr? || t.Typedef? || t.Volatile? || t.Const? || t.Restrict? || t.Func? || t.TypeTag? || t.Array? ||
    t.Struct? || t.Union? || t.FuncProto?
  }

  /** Entry `j` agrees in its first and last word. */
  lemma SameMember(a: seq<Trio>, b: seq<Trio>, j: nat)
    requires j < |a| == |b|
    ensures a[j].a == b[j].a && a[j].c == b[j].c <==>
              Trios(a)[3 * j] == Trios(b)[3 * j] && Trios(a)[3 * j + 2] == Trios(b)[3 * j + 2]
  {
    hide Trios;
    TriosAt(a, j);
    TriosAt(b, j);
  }

  /** The entries agree in their first and last words. */
  ghost predicate OuterWords(a: seq<Trio>, b: seq<Trio>) {
    |a| == |b| && forall i :: 0 <= i < 3 * |a| && i % 3 != 1 ==> Trios(a)[i] == Trios(b)[i]
  }

  ghost predicate FirstWords(a: seq<Duo>, b: seq<Duo>) {
    |a| == |b| && forall i :: 0 <= i < 2 * |a| && i % 2 != 1 ==> Duos(a)[i] == Duos(b)[i]
  }

  lemma SameMembersWords(a: seq<Trio>, b: seq<Trio>)
    ensures SameMembers(a, b) <==> OuterWords(a, b)
  {
    hide Trios;
    if SameMembers(a, b) {
      forall i | 0 <= i < 3 * |a| && i % 3 != 1
        ensures Trios(a)[i] == Trios(b)[i]
      {
        SameMember(a, b, i / 3);
        assert i == 3 * (i / 3) || i == 3 * (i / 3) + 2;
      }
    }
    if OuterWords(a, b) {
      forall j | 0 <= j < |a|
        ensures a[j].a == b[j].a && a[j].c == b[j].c
      {
        SameMember(a, b, j);
        assert (3 * j) % 3 == 0 && (3 * j + 2) % 3 == 2;
        assert Trios(a)[3 * j] == Trios(b)[3 * j] && Trios(a)[3 * j + 2] == Trios(b)[3 * j + 2];
      }
    }
  }

  lemma SameParamsWords(a: seq<Duo>, b: seq<Duo>)
    ensures SameParams(a, b) <==> FirstWords(a, b)
  {
    hide Duos;
    if SameParams(a, b) {
      forall i | 0 <= i < 2 * |a| && i % 2 != 1
        ensures Duos(a)[i] == Duos(b)[i]
      {
        DuosAt(a, i / 2);
        DuosAt(b, i / 2);
        assert i == 2 * (i / 2);
      }
    }
    if FirstWords(a, b) {
      forall j | 0 <= j < |a|
        ensures a[j].a == b[j].a
      {
        DuosAt(a, j);
        DuosAt(b, j);
        assert (2 * j) % 2 == 0;
        assert Duos(a)[2 * j] == Duos(b)[2 * j];
      }
    }
  }

  /** The tails agree in every word that is no type id. */
  ghost predicate SameTail(a: BtfType, b: BtfType) {
    SameBut(Tail(a), Tail(b), RefWords(a))
  }

  ghost predicate SameBut(x: seq<u32>, y: seq<u32>, refs: seq<nat>) {
    |x| == |y| && forall i :: 0 <= i < |x| && BASE + i !in refs ==> x[i] == y[i]
  }

  /** Agreement in every word that is no type id. */
  lemma SameWords(a: BtfType, u: u32, b: BtfType, v: u32)
    requires a.Proper() && b.Proper()
    ensures SameExceptRefs(Encode(a, u), Encode(b, v)) <==>
              && Info(a, u) == Info(b, v) && a.name == b.name && (2 in RefWords(a) || a.Third() == b.Third())
              && SameTail(a, b)
  {
    InfoFields(a, u);
    RefWordsAre(a, Info(a, u));
    EncodeWords(a, u);
    EncodeWords(b, v);
    HeaderWords(a);
    hide *;
    SameByParts(Encode(a, u), Encode(b, v), Tail(a), Tail(b), RefWords(a));
  }

  lemma SameByParts(x: Record, y: Record, tx: seq<u32>, ty: seq<u32>, refs: seq<nat>)
    requires |x| == BASE + |tx| && (forall i :: BASE <= i < |x| ==> x[i] == tx[i - BASE])
    requires |y| == BASE + |ty| && (forall i :: BASE <= i < |y| ==> y[i] == ty[i - BASE])
    requires (forall i: int :: IsRef(x[1], i) <==> i in refs) && 0 !in refs && 1 !in refs
    ensures SameExceptRefs(x, y) <==>
              && x[1] == y[1] && x[0] == y[0] && (2 in refs || x[2] == y[2])
              && SameBut(tx, ty, refs)
  {
    hide IsRef;
    if SameExceptRefs(x, y) {
      forall i | 0 <= i < |tx| && BASE + i !in refs
        ensures tx[i] == ty[i]
      {
        assert x[BASE + i] == y[BASE + i];
      }
    }
  }

  lemma HeaderWords(a: BtfType)
    ensures 0 !in RefWords(a) && 1 !in RefWords(a)
  {
  }

  /** Which words of a type's tail hold no id. */
  lemma TailRefs(a: BtfType, i: nat)
    requires i < |Tail(a)|
    ensures a.Struct? || a.Union? ==> (BASE + i in RefWords(a) <==> i % 3 == 1)
    ensures a.FuncProto? ==> (BASE + i in RefWords(a) <==> i % 2 == 1)
    ensures a.Array? ==> (BASE + i in RefWords(a) <==> i < 2)
  {
    hide Trios, Duos, Every;
    if a.Struct? || a.Union? {
      EveryThird(4, |a.members|, BASE + i);
    } else if a.FuncProto? {
      EverySecond(4, |a.params|, BASE + i);
    }
  }

  lemma RefsOfPtr(a: BtfType)
    requires Compared(a)
    ensures 2 in RefWords(a) <==> !a.Array? && !a.Struct? && !a.Union?
    ensures a.Array? || a.Struct? || a.Union? || a.FuncProto? || Tail(a) == []
  {
    hide Trios, Duos;
    if a.FuncProto? {
      assert RefWords(a)[0] == 2;
    }
  }

  /** Structs, function types and the like agree in every word that is no type id exactly if they have one shape. */
  lemma ShapeWords(a: BtfType, u: u32, b: BtfType, v: u32)
    requires a.Proper() && b.Proper() && a.Code() == b.Code() && Compared(a)
    ensures SameExceptRefs(Encode(a, u), Encode(b, v)) <==>
              a.name == b.name && Info(a, u) == Info(b, v) && SameShape(a, b)
  {
    SameWords(a, u, b, v);
    InfoFields(a, u);
    InfoFields(b, v);
    RefsOfPtr(a);
    hide Encode, Info, RefWords, SameExceptRefs, KindOf, VlenOf, KflagOf;
    if a.Struct? || a.Union? {
      StructShape(a, b);
    } else if a.FuncProto? {
      ProtoShape(a, b);
    } else if a.Array? {
      ArrayShape(a, b);
    }
  }

  lemma StructShape(a: BtfType, b: BtfType)
    requires (a.Struct? && b.Struct?) || (a.Union? && b.Union?)
    ensures SameTail(a, b) <==> SameMembers(a.members, b.members)
  {
    SameMembersWords(a.members, b.members);
    assert Tail(a) == Trios(a.members) && Tail(b) == Trios(b.members);
    hide RefWords, Trios, SameMembers, Tail;
    forall i: nat | i < |Tail(a)|
      ensures BASE + i in RefWords(a) <==> i % 3 == 1
    {
      TailRefs(a, i);
    }
  }

  lemma ProtoShape(a: BtfType, b: BtfType)
    requires a.FuncProto? && b.FuncProto?
    ensures SameTail(a, b) <==> SameParams(a.params, b.params)
  {
    SameParamsWords(a.params, b.params);
    assert Tail(a) == Duos(a.params) && Tail(b) == Duos(b.params);
    hide RefWords, Duos, SameParams, Tail;
    forall i: nat | i < |Tail(a)|
      ensures BASE + i in RefWords(a) <==> i % 2 == 1
    {
      TailRefs(a, i);
    }
  }

  lemma ArrayShape(a: BtfType, b: BtfType)
    requires a.Array? && b.Array?
    ensures SameTail(a, b) <==> a.nelems == b.nelems
  {
    assert RefWords(a) == [3, 4] && Tail(a)[2] == a.nelems && Tail(b)[2] == b.nelems;
  }

  lemma EncodeInjective(a: BtfType, u: u32, b: BtfType, v: u32)
    requires a.Proper() && b.Proper()
    ensures Encode(a, u) == Encode(b, v) <==> a == b && Info(a, u) == Info(b, v)
  {
    DecodeEncode(a, u);
    DecodeEncode(b, v);
    EncodeWords(a, u);
    EncodeWords(b, v);
    hide Info, Decode, Tail, BtfType.Third;
  }

  /** What the records say about kind, entries and flag. */
  lemma Header(a: BtfType, u: u32)
    requires a.Proper()
    ensures var r := Encode(a, u);
            && r[0] == a.name && Kind(r) == a.Code() && (a.HasList() ==> Vlen(r) == a.Count())
            && (a.HasFlag() ==> (KflagOf(r[1]) <==> a.kflag))
  {
    EncodeWords(a, u);
    InfoFields(a, u);
    hide Encode, Info;
  }

  lemma AlikeSameKind(a: BtfType, b: BtfType)
    requires a.Code() == b.Code()
    ensures Alike(a, b) <==> a.name == b.name && SameShape(a, b)
    ensures Compared(a) ==> !EnumForward(a) && !EnumForward(b)
  {
    hide SameShape;
  }

  lemma ComparedKind(a: BtfType)
    requires Compared(a)
    ensures Descends(a.Code()) && !IsEnumKind(a.Code())
    ensures a.Code() != BTF_KIND_INT && a.Code() != BTF_KIND_FWD && a.Code() != BTF_KIND_FLOAT
  {
  }

  lemma ComparedCompatible(a: BtfType, u: u32, b: BtfType, v: u32)
    requires a.Proper() && b.Proper() && a.Code() == b.Code() && Compared(a)
    ensures Compatible(Encode(a, u), Encode(b, v)) <==> Alike(a, b) && SameHeader(a, u, b, v)
  {
    Header(a, u);
    Header(b, v);
    ShapeWords(a, u, b, v);
    AlikeSameKind(a, b);
    ComparedKind(a);
    hide SameShape, SameExceptRefs, Encode, Info, KindOf, VlenOf, KflagOf, Alike, EnumForward, Compared, Descends,
         IsEnumKind, BtfType.Code;
  }

  lemma OtherCompatible(a: BtfType, u: u32, b: BtfType, v: u32)
    requires a.Proper() && b.Proper() && a.Code() == b.Code() && !Compared(a)
    ensures Compatible(Encode(a, u), Encode(b, v)) <==> Alike(a, b) && SameHeader(a, u, b, v)
  {
    Header(a, u);
    Header(b, v);
    EncodeInjective(a, u, b, v);
    hide SameExceptRefs, Encode, Info, KindOf, VlenOf, KflagOf;
  }

  /**
   * Two records are compatible exactly if their types have one name and one shape, type ids apart, or
   * one is a forward of the other's sort, or they are enums of which one has no values.
   */
  lemma CompatibleIsAlike(a: BtfType, u: u32, b: BtfType, v: u32)
    requires a.Proper() && b.Proper()
    ensures Compatible(Encode(a, u), Encode(b, v)) <==> Alike(a, b) && SameHeader(a, u, b, v)
  {
    if a.Code() != b.Code() {
      Header(a, u);
      Header(b, v);
      hide SameExceptRefs, Encode, Info, KindOf, VlenOf, KflagOf;
    } else {
      hide *;
      if Compared(a) {
        ComparedCompatible(a, u, b, v);
      } else {
        OtherCompatible(a, u, b, v);
      }
    }
  }

  /** A recorded pair is expanded exactly if the types are alike and their parts, if any, answered two by two. */
  lemma ExpandedIsAlike(g: Graph, h: seq<u32>, canon: nat, cand: nat, a: BtfType, u: u32, b: BtfType, v: u32)
    requires g.Valid() && HypotMap(g, h) && g.Id(cand) && g.Id(canon) && a.Proper() && b.Proper()
    requires g.types[cand] == Encode(a, u) && g.types[canon] == Encode(b, v)
    ensures Expanded(g, h, canon, cand) <==>
              && Alike(a, b) && SameHeader(a, u, b, v)
              && (a.Code() == b.Code() && Compared(a) ==>
                    |Ids(a)| == |Ids(b)| && forall k :: 0 <= k < |Ids(a)| ==> Answered(g, h, Ids(a)[k], Ids(b)[k]))
  {
    ComparedHasChildren(a, u, b, v);
    CompatibleIsAlike(a, u, b, v);
    hide Encode, Info, Ids, RefWords, IsRef, Answered, Alike, SameHeader, Compatible, HasChildren, Graph.Valid,
         Compared, BtfType.Code;
    if Alike(a, b) && a.Code() == b.Code() && Compared(a) {
      PartsAnswered(g, h, a, u, b, v);
    }
  }

  lemma ComparedHasChildren(a: BtfType, u: u32, b: BtfType, v: u32)
    requires a.Proper() && b.Proper()
    ensures HasChildren(Encode(a, u), Encode(b, v)) <==> a.Code() == b.Code() && Compared(a)
  {
    Header(a, u);
    Header(b, v);
    hide Encode, Info, KindOf, VlenOf, KflagOf;
  }

  lemma PartsAnswered(g: Graph, h: seq<u32>, a: BtfType, u: u32, b: BtfType, v: u32)
    requires g.Valid() && HypotMap(g, h) && a.Proper() && b.Proper()
    requires Alike(a, b) && a.Code() == b.Code() && Compared(a)
    ensures |Ids(a)| == |Ids(b)| && |Encode(a, u)| == |Encode(b, v)|
    ensures (forall i :: 0 <= i < |Encode(b, v)| && IsRef(Encode(b, v)[1], i) ==>
               Answered(g, h, Encode(a, u)[i], Encode(b, v)[i])) <==>
              forall k :: 0 <= k < |Ids(a)| ==> Answered(g, h, Ids(a)[k], Ids(b)[k])
  {
    AlikeRefs(a, b);
    RefsAreIds(a, u);
    RefsAreIds(b, v);
    EncodeWords(b, v);
    hide Encode, Info, Ids, RefWords, IsRef, Answered, Alike, Tail, Graph.Valid, Compared, BtfType.Code, BtfType.Third;
    PairsAnswered(g, h, Encode(a, u), Encode(b, v), RefWords(a), Ids(a), Ids(b));
  }

  /** Types of one shape have their ids in the same words. */
  lemma AlikeRefs(a: BtfType, b: BtfType)
    requires Alike(a, b) && a.Code() == b.Code() && Compared(a)
    ensures RefWords(a) == RefWords(b) && |Ids(a)| == |Ids(b)| && |Tail(a)| == |Tail(b)|
  {
    AlikeSameKind(a, b);
    hide RefWords, Ids, Tail, Alike;
    assert a.Count() == b.Count();
    hide *;
    RefWordsByHeader(a, b);
  }

  lemma PairsAnswered(g: Graph, h: seq<u32>, x: Record, y: Record, w: seq<nat>, ia: seq<u32>, ib: seq<u32>)
    requires g.Valid() && HypotMap(g, h) && |x| == |y| >= BASE && |w| == |ia| == |ib|
    requires forall i: int :: IsRef(y[1], i) <==> i in w
    requires forall k :: 0 <= k < |w| ==> w[k] < |x| && x[w[k]] == ia[k] && y[w[k]] == ib[k]
    ensures (forall i :: 0 <= i < |y| && IsRef(y[1], i) ==> Answered(g, h, x[i], y[i])) <==>
              forall k :: 0 <= k < |ia| ==> Answered(g, h, ia[k], ib[k])
  {
    hide IsRef, Answered;
    if forall k :: 0 <= k < |ia| ==> Answered(g, h, ia[k], ib[k]) {
      forall i | 0 <= i < |y| && IsRef(y[1], i)
        ensures Answered(g, h, x[i], y[i])
      {
        var k :| 0 <= k < |w| && w[k] == i;
        assert Answered(g, h, ia[k], ib[k]);
      }
    }
    if forall i :: 0 <= i < |y| && IsRef(y[1], i) ==> Answered(g, h, x[i], y[i]) {
      forall k | 0 <= k < |ia|
        ensures Answered(g, h, ia[k], ib[k])
      {
        assert w[k] in w;
        assert IsRef(y[1], w[k]);
      }
    }
  }

  /** A forward that has been resolved to another type counts as that type; other ids are taken as they are. */
  lemma ForwardFollowed(g: Graph, h: seq<u32>, cand: nat, canon: nat)
    requires g.Valid() && HypotMap(g, h) && g.Id(cand) && g.Id(canon)
    ensures var root := Root(g.map_, canon);
            if Kind(g.types[canon]) == BTF_KIND_FWD && Kind(g.types[root]) != BTF_KIND_FWD then
              Answered(g, h, cand, canon) <==> Answered(g, h, cand, root)
            else
              Answered(g, h, cand, canon) <==>
                || Root(g.map_, cand) == root
                || (Recorded(h, canon) && (h[canon] == cand || g.identical(h[canon], cand)))
  {
    RootStep(g.map_, Root(g.map_, canon));
  }
}

/** btf_dedup_is_equiv and the hypothetical map it fills. */
module Equivalence {
  import opened Words
  import opened BtfRecords
  import opened CanonicalMap
  import opened EquivSpec

  /** The `int` result of the check: positive, zero or a negated errno. */
  datatype Verdict = Equiv | Differ | Failed(errno: Errno)

  /** What comparing two records on their own decides. */
  datatype Local = Final(v: Verdict) | Descend

  // ---------------------------------------------------------------------------
  // Shallow comparisons

  /** btf_equal_common */
  predicate EqualCommon(a: Record, b: Record)
    requires |a| >= BASE && |b| >= BASE
  {
    a[0] == b[0] && a[1] == b[1] && a[2] == b[2]
  }

  /** btf_equal_int_tag */
  predicate EqualIntTag(a: Record, b: Record)
    requires WellSized(a) && WellSized(b) && Kind(a) == BTF_KIND_INT
  {
    EqualCommon(a, b) && a[3] == b[3]
  }

  /** Compares `cnt` trailing structures of `sz` words; `skip` is the word not compared, if any. */
  method EqualMembers(a: Record, b: Record, cnt: nat, sz: nat, skip: nat) returns (eq: bool)
    requires 2 <= sz <= 3 && |a| == |b| == BASE + sz * cnt
    ensures eq <==> forall i :: BASE <= i < |a| && (i - BASE) % sz != skip ==> a[i] == b[i]
  {
    var m := BASE;
    for i := 0 to cnt
      invariant m == BASE + sz * i <= |a|
      invariant forall k :: BASE <= k < m && (k - BASE) % sz != skip ==> a[k] == b[k]
    {
      assert sz * (i + 1) == sz * i + sz <= sz * cnt;
      MemberResidues(sz, i);
      if (skip != 0 && a[m] != b[m]) || (skip != 1 && a[m + 1] != b[m + 1]) {
        return false;
      }
      if sz == 3 && skip != 2 && a[m + 2] != b[m + 2] {
        return false;
      }
      m := m + sz;
    }
    eq := true;
  }

  lemma PairResidues(i: nat)
    ensures (2 * i) % 2 == 0 && (2 * i + 1) % 2 == 1
  {
  }

  lemma TripleResidues(i: nat)
    ensures (3 * i) % 3 == 0 && (3 * i + 1) % 3 == 1 && (3 * i + 2) % 3 == 2
  {
  }

  lemma MemberResidues(sz: nat, i: nat)
    requires 2 <= sz <= 3
    ensures (sz * i) % sz == 0 && (sz * i + 1) % sz == 1
    ensures sz == 3 ==> (sz * i + 2) % sz == 2
  {
    if sz == 2 {
      PairResidues(i);
    } else {
      TripleResidues(i);
    }
  }

  lemma EqualAll(a: Record, b: Record)
    requires |a| == |b| >= BASE && EqualCommon(a, b)
    ensures a == b <==> forall i :: BASE <= i < |a| ==> a[i] == b[i]
  {
  }

  /** btf_equal_enum, also for 64-bit enums */
  method EqualEnum(a: Record, b: Record) returns (eq: bool)
    requires WellSized(a) && WellSized(b) && IsEnumKind(Kind(a))
    ensures eq <==> a == b
  {
    if !EqualCommon(a, b) {
      return false;
    }
    EqualAll(a, b);
    if Kind(a) == BTF_KIND_ENUM {
      eq := EqualMembers(a, b, Vlen(a), 2, 2);
    } else {
      eq := EqualMembers(a, b, Vlen(a), 3, 3);
    }
  }

  /** btf_compat_enum */
  method CompatEnum(a: Record, b: Record) returns (eq: bool)
    requires WellSized(a) && WellSized(b) && IsEnumKind(Kind(a))
    ensures eq <==> if IsEnumFwd(a) || IsEnumFwd(b) then a[0] == b[0] && IsEnumKind(Kind(b)) else a == b
  {
    if !IsEnumFwd(a) && !IsEnumFwd(b) {
      eq := EqualEnum(a, b);
    } else {
      eq := a[0] == b[0] && IsEnumKind(Kind(a)) && IsEnumKind(Kind(b));
    }
  }

  /** btf_shallow_equal_struct */
  method ShallowEqualStruct(a: Record, b: Record) returns (eq: bool)
    requires WellSized(a) && WellSized(b) && IsCompositeKind(Kind(a))
    ensures eq <==> SameExceptRefs(a, b)
  {
    SameHeader(a, b);
    if !EqualCommon(a, b) {
      return false;
    }
    StructRefs(a);
    eq := EqualMembers(a, b, Vlen(a), 3, 1);
  }

  /** btf_compat_array */
  predicate CompatArray(a: Record, b: Record)
    requires WellSized(a) && WellSized(b) && Kind(a) == BTF_KIND_ARRAY && Kind(b) == BTF_KIND_ARRAY
  {
    EqualCommon(a, b) && a[5] == b[5]
  }

  /** btf_compat_fnproto */
  method CompatFnproto(a: Record, b: Record) returns (eq: bool)
    requires WellSized(a) && WellSized(b) && Kind(a) == BTF_KIND_FUNC_PROTO
    ensures eq <==> SameExceptRefs(a, b)
  {
    SameHeader(a, b);
    if a[0] != b[0] || a[1] != b[1] {
      return false;
    }
    ProtoRefs(a);
    eq := EqualMembers(a, b, Vlen(a), 2, 1);
  }

  lemma SameHeader(a: Record, b: Record)
    requires WellSized(a) && WellSized(b)
    ensures !IsRef(a[1], 0) && !IsRef(a[1], 1)
    ensures SameExceptRefs(a, b) ==> a[0] == b[0] && a[1] == b[1]
    ensures a[1] == b[1] ==> |a| == |b|
  {
    assert SameExceptRefs(a, b) ==> a[0] == b[0] && a[1] == b[1];
  }

  lemma StructRefs(a: Record)
    requires WellSized(a) && IsCompositeKind(Kind(a))
    ensures |a| == BASE + 3 * Vlen(a) && !IsRef(a[1], 2)
    ensures forall i :: BASE <= i < |a| ==> (IsRef(a[1], i) <==> (i - BASE) % 3 == 1)
  {
  }

  lemma ProtoRefs(a: Record)
    requires WellSized(a) && Kind(a) == BTF_KIND_FUNC_PROTO
    ensures |a| == BASE + 2 * Vlen(a) && IsRef(a[1], 2)
    ensures forall i :: BASE <= i < |a| ==> (IsRef(a[1], i) <==> (i - BASE) % 2 == 1)
  {
  }

  /** For arrays and for kinds with a single reference, the header comparison says it all. */
  lemma SmallRefs(a: Record, b: Record)
    requires WellSized(a) && WellSized(b) && Kind(a) == Kind(b)
    ensures Kind(a) == BTF_KIND_ARRAY ==> (SameExceptRefs(a, b) <==> CompatArray(a, b))
    ensures Descends(Kind(a)) && IsTypeRefKind(Kind(a)) ==>
              (SameExceptRefs(a, b) <==> a[0] == b[0] && a[1] == b[1])
    ensures Kind(a) == BTF_KIND_INT ==> (a == b <==> EqualIntTag(a, b))
    ensures Kind(a) == BTF_KIND_FWD || Kind(a) == BTF_KIND_FLOAT ==> (a == b <==> EqualCommon(a, b))
  {
    SameHeader(a, b);
  }

  /**
   * The part of btf_dedup_is_equiv that looks at the two records only: `Descend` when their
   * references have to be compared next.
   */
  method CompareRecords(cand: Record, canon: Record) returns (r: Local)
    requires (WellSized(cand) || cand == [0, 0, 0]) && (WellSized(canon) || canon == [0, 0, 0])
    requires |cand| >= BASE && |canon| >= BASE && (cand != [0, 0, 0] || canon != [0, 0, 0])
    ensures r == Descend <==> Compatible(cand, canon) && HasChildren(cand, canon)
    ensures r == Final(Equiv) <==> Compatible(cand, canon) && !HasChildren(cand, canon)
  {
    hide SameExceptRefs, WellSized, KindOf, VlenOf, KflagOf;
    var candKind, canonKind := Kind(cand), Kind(canon);
    if cand[0] != canon[0] {
      return Final(Differ);
    }
    if (candKind == BTF_KIND_FWD || canonKind == BTF_KIND_FWD) && candKind != canonKind {
      var realKind, fwdKind;
      if candKind == BTF_KIND_FWD {
        realKind, fwdKind := canonKind, FwdKind(cand);
      } else {
        realKind, fwdKind := candKind, FwdKind(canon);
      }
      return Final(if fwdKind == realKind then Equiv else Differ);
    }
    if candKind != canonKind {
      return Final(Differ);
    }
    if candKind == BTF_KIND_UNKN {
      return Final(Failed(EINVAL));
    }
    VoidKind(cand, canon);
    SmallRefs(cand, canon);
    var eq;
    if candKind == BTF_KIND_INT {
      return Final(if EqualIntTag(cand, canon) then Equiv else Differ);
    } else if IsEnumKind(candKind) {
      eq := CompatEnum(cand, canon);
      return Final(if eq then Equiv else Differ);
    } else if candKind == BTF_KIND_FWD || candKind == BTF_KIND_FLOAT {
      return Final(if EqualCommon(cand, canon) then Equiv else Differ);
    } else if candKind == BTF_KIND_ARRAY {
      eq := CompatArray(cand, canon);
    } else if IsCompositeKind(candKind) {
      eq := ShallowEqualStruct(cand, canon);
    } else if candKind == BTF_KIND_FUNC_PROTO {
      eq := CompatFnproto(cand, canon);
    } else if Descends(candKind) {
      eq := cand[1] == canon[1];
    } else {
      return Final(Failed(EINVAL));
    }
    r := if eq then Descend else Final(Differ);
  }

  lemma VoidKind(cand: Record, canon: Record)
    requires (WellSized(cand) || cand == [0, 0, 0]) && (WellSized(canon) || canon == [0, 0, 0])
    requires Kind(cand) == Kind(canon) != BTF_KIND_UNKN
    ensures WellSized(cand) && WellSized(canon)
    ensures Kind(cand) == BTF_KIND_INT ==> |cand| == |canon| == 4
    ensures Kind(cand) == BTF_KIND_ARRAY ==> |cand| == |canon| == 6
  {
  }

  /** The reference positions of a record, in the order in which the check descends into them. */
  function ChildOrder(r: Record): seq<nat>
    requires |r| >= BASE
  {
    var k, vlen := Kind(r), Vlen(r);
    if k == BTF_KIND_ARRAY then [4, 3]
    else if IsCompositeKind(k) then seq(vlen, i requires 0 <= i < vlen => BASE + 3 * i + 1)
    else if k == BTF_KIND_FUNC_PROTO then [2] + seq(vlen, i requires 0 <= i < vlen => BASE + 2 * i + 1)
    else [2]
  }

  lemma ChildOrderVisits(r: Record)
    requires WellSized(r) && Descends(Kind(r))
    ensures VisitsRefs(r, ChildOrder(r))
  {
    var order := ChildOrder(r);
    ChildOrderRefs(r);
    hide ChildOrder, KindOf, VlenOf, IsRef;
    forall i | 0 <= i < |r| && IsRef(r[1], i)
      ensures i in order
    {
      ChildOrderHas(r, i);
    }
  }

  lemma ChildOrderRefs(r: Record)
    requires WellSized(r) && Descends(Kind(r))
    ensures forall k :: 0 <= k < |ChildOrder(r)| ==> ChildOrder(r)[k] < |r| && IsRef(r[1], ChildOrder(r)[k])
  {
  }

  lemma ChildOrderHas(r: Record, i: nat)
    requires WellSized(r) && Descends(Kind(r)) && IsRef(r[1], i)
    ensures i in ChildOrder(r)
  {
    var order, k := ChildOrder(r), Kind(r);
    var j := if k == BTF_KIND_ARRAY then 4 - i
             else if IsCompositeKind(k) then (i - BASE) / 3
             else if k == BTF_KIND_FUNC_PROTO && i > 2 then (i - BASE) / 2 + 1
             else 0;
    assert order[j] == i;
  }

  class EquivCheck {
    const types: seq<Record>
    const identical: (nat, nat) -> bool
    const map_: array<u32>
    const hypotMap: array<u32>
    /** Id of the first type that is not in base BTF. */
    const startId: nat
    /** The canonical ids recorded so far, oldest first. */
    var hypotList: seq<nat>
    var hypotAdjustCanon: bool
    /** The types under the current canonical map. */
    ghost var g: Graph

    ghost predicate Valid()
      reads this, map_, hypotMap
    {
      && g.Valid() && map_ != hypotMap && g == Graph(types, map_[..], identical)
      && HypotMap(g, hypotMap[..])
      && ListsRecorded(hypotMap[..], hypotList)
    }

    /** The part of btf_dedup_new that sets up the hypothetical map. */
    constructor (types: seq<Record>, identical: (nat, nat) -> bool, map_: array<u32>, startId: nat)
      requires Graph(types, map_[..], identical).Valid()
      ensures Valid() && this.types == types && this.identical == identical
      ensures this.map_ == map_ && this.startId == startId
      ensures hypotList == [] && !hypotAdjustCanon && fresh(hypotMap)
    {
      this.types, this.identical, this.map_, this.startId := types, identical, map_, startId;
      g := Graph(types, map_[..], identical);
      var fresh_ := new u32[|types|](_ => BTF_UNPROCESSED_ID);
      hypotMap, hypotList, hypotAdjustCanon := fresh_, [], false;
    }

    /** btf_dedup_clear_hypot_map: the whole map is unprocessed again. */
    method ClearHypotMap()
      requires Valid()
      modifies this`hypotList, this`hypotAdjustCanon, hypotMap
      ensures Valid() && hypotList == [] && !hypotAdjustCanon
      ensures forall c :: 0 <= c < hypotMap.Length ==> hypotMap[c] == BTF_UNPROCESSED_ID
    {
      ghost var before := hypotMap[..];
      for i := 0 to |hypotList|
        invariant hypotList == old(hypotList) && map_[..] == g.map_
        invariant forall c :: 0 <= c < hypotMap.Length ==>
                    hypotMap[c] == BTF_UNPROCESSED_ID || hypotMap[c] == before[c]
        invariant forall k :: 0 <= k < i ==> hypotMap[hypotList[k]] == BTF_UNPROCESSED_ID
      {
        hypotMap[hypotList[i]] := BTF_UNPROCESSED_ID;
      }
      forall c | 0 <= c < hypotMap.Length
        ensures hypotMap[c] == BTF_UNPROCESSED_ID
      {
        if before[c] <= BTF_MAX_NR_TYPES {
          assert Recorded(before, c);
          var k :| 0 <= k < |hypotList| && hypotList[k] == c;
        }
      }
      hypotList := [];
      hypotAdjustCanon := false;
    }

    /** btf_dedup_hypot_map_add */
    method HypotMapAdd(fromId: nat, toId: nat)
      requires Valid() && g.Id(fromId) && g.Id(toId) && !Recorded(hypotMap[..], fromId)
      modifies this`hypotList, hypotMap
      ensures Valid() && hypotList == old(hypotList) + [fromId]
      ensures hypotMap[..] == old(hypotMap[..])[fromId := toId]
    {
      hypotList := hypotList + [fromId];
      hypotMap[fromId] := toId;
      ListsAdded(old(hypotMap[..]), old(hypotList), fromId, toId);
      assert hypotMap[..] == old(hypotMap[..])[fromId := toId];
    }

    /** resolve_fwd_id */
    method ResolveFwdId(id: nat) returns (r: nat)
      requires Valid() && g.Id(id)
      ensures r == Target(g, id)
    {
      if !IsFwd(types[id]) {
        return id;
      }
      r := ResolveTypeId(map_, id);
      if IsFwd(types[r]) {
        return id;
      }
    }

    /** btf_dedup_is_equiv */
    method IsEquiv(candId: nat, canonId: nat) returns (eq: Verdict)
      requires Valid() && g.Id(candId) && g.Id(canonId)
      modifies this`hypotList, this`hypotAdjustCanon, hypotMap
      ensures Valid() && Checked(g, old(hypotMap[..]), hypotMap[..], candId, canonId, eq == Equiv)
      ensures old(hypotList) <= hypotList
      ensures old(AtOnce(g, hypotMap[..], candId, canonId)) ==>
                hypotList == old(hypotList) && hypotMap[..] == old(hypotMap[..])
      ensures !old(AtOnce(g, hypotMap[..], candId, canonId)) ==>
                |hypotList| > |old(hypotList)| && hypotList[|old(hypotList)|] == Target(g, canonId)
      ensures eq == Equiv ==>
                (hypotAdjustCanon <==>
                   old(hypotAdjustCanon) || RedirectsBase(g, startId, old(hypotMap[..]), hypotMap[..]))
      decreases Unprocessed(hypotMap[..]), 1
    {
      hide Checked, Descending, Answered, Compatible, HasChildren, RedirectsBase, ListsRecorded, Extends,
           WellSized, VisitsRefs;
      ghost var h0 := hypotMap[..];
      RedirectsNone(g, startId, h0);
      var candRoot := ResolveTypeId(map_, candId);
      var canonRoot := ResolveTypeId(map_, canonId);
      if candRoot == canonRoot {
        AnsweredIff(g, h0, candId, canonId);
        CheckedAtOnce(g, h0, candId, canonId, true);
        return Equiv;
      }
      var canon := ResolveFwdId(canonId);
      var hypotTypeId := hypotMap[canon];
      if hypotTypeId <= BTF_MAX_NR_TYPES {
        AnsweredIff(g, h0, candId, canonId);
        if hypotTypeId == candId || identical(hypotTypeId, candId) {
          CheckedAtOnce(g, h0, candId, canonId, true);
          return Equiv;
        }
        CheckedAtOnce(g, h0, candId, canonId, false);
        return Differ;
      }
      eq := CompareFresh(candId, canonId, canon);
    }

    /** The rest of btf_dedup_is_equiv, for a pair that is not decided at once. */
    method CompareFresh(candId: nat, canonId: nat, canon: nat) returns (eq: Verdict)
      requires Valid() && g.Id(candId) && g.Id(canonId) && canon == Target(g, canonId)
      requires !AtOnce(g, hypotMap[..], candId, canonId)
      modifies this`hypotList, this`hypotAdjustCanon, hypotMap
      ensures Valid() && Checked(g, old(hypotMap[..]), hypotMap[..], candId, canonId, eq == Equiv)
      ensures old(hypotList) + [canon] <= hypotList
      ensures eq == Equiv ==>
                (hypotAdjustCanon <==>
                   old(hypotAdjustCanon) || RedirectsBase(g, startId, old(hypotMap[..]), hypotMap[..]))
      decreases Unprocessed(hypotMap[..]), 0
    {
      hide Checked, Descending, Answered, Compatible, HasChildren, RedirectsBase, ListsRecorded, Extends,
           WellSized, VisitsRefs;
      ghost var h0 := hypotMap[..];
      RedirectsOne(g, startId, h0, canon, candId);
      NotBothVoid(g, h0, candId, canonId);
      HypotMapAdd(canon, candId);
      ghost var h1 := hypotMap[..];
      var local := CompareRecords(types[candId], types[canon]);
      // the record comparison accepts a base FWD for a full type only by redirecting the FWD
      if local == Final(Equiv) && IsFwd(types[canon]) && !IsFwd(types[candId]) && canon < startId {
        hypotAdjustCanon := true;
      }
      match local
      case Final(v) =>
        CheckedLocally(g, h0, candId, canonId, v == Equiv);
        eq := v;
      case Descend =>
        ChildBearing(g, candId, canon);
        ChildOrderVisits(g.types[canon]);
        DescendingStart(g, h0, candId, canonId, ChildOrder(g.types[canon]));
        UnprocessedDrops(h0, canon, candId);
        eq := CompareChildren(candId, canonId, canon, h0);
        if eq == Equiv {
          CheckedExtends(g, h0, hypotMap[..], candId, canonId);
          RedirectsJoin(g, startId, h0, h1, hypotMap[..]);
        }
    }

    /**
     * The check as btf_dedup_struct_type runs it, on a cleared map. A positive answer leaves a
     * bisimulation in the map, along which all paths stay in step, and which is part of every strict
     * bisimulation that matches the two types; on any other answer there is none. Without the
     * fallback the answer is exact.
     */
    method CheckFromScratch(candId: nat, canonId: nat) returns (eq: Verdict)
      requires Valid() && g.Id(candId) && g.Id(canonId)
      modifies this`hypotList, this`hypotAdjustCanon, hypotMap
      ensures Valid()
      ensures eq == Equiv ==>
                && Bisimulation(g, hypotMap[..]) && Answered(g, hypotMap[..], candId, canonId)
                && (hypotAdjustCanon <==>
                      exists c :: 0 <= c < hypotMap.Length && c < startId && c in hypotList &&
                        IsFwd(g.types[c]) && !IsFwd(g.types[hypotMap[c]]))
      ensures eq == Equiv ==> forall path, a, b ::
                Reaches(g, hypotMap[..], candId, canonId, path, a, b) ==> InStep(g, hypotMap[..], a, b)
      ensures forall w :: StrictBisimulation(g, w) && Matched(g, w, candId, canonId) ==>
                eq == Equiv && Extends(hypotMap[..], w)
      ensures NoFallback(g) ==>
                (eq == Equiv <==> exists w :: StrictBisimulation(g, w) && Matched(g, w, candId, canonId))
    {
      ClearHypotMap();
      ghost var h0 := hypotMap[..];
      eq := IsEquiv(candId, canonId);
      CheckedFresh(g, h0, hypotMap[..], candId, canonId, eq == Equiv);
      RedirectsFresh(g, startId, h0, hypotMap[..], hypotList);
      if eq == Equiv {
        AcceptedMeans(g, hypotMap[..], candId, canonId);
      }
    }

    /** Compares the references of a freshly recorded pair, side by side. */
    method CompareChildren(candId: nat, canonId: nat, canon: nat, ghost h0: seq<u32>) returns (eq: Verdict)
      requires Valid() && g.Id(candId) && g.Id(canonId) && canon == Target(g, canonId)
      requires Descending(g, h0, hypotMap[..], candId, canonId, ChildOrder(g.types[canon]), 0)
      modifies this`hypotList, this`hypotAdjustCanon, hypotMap
      ensures Valid() && Checked(g, h0, hypotMap[..], candId, canonId, eq == Equiv)
      ensures old(hypotList) <= hypotList
      ensures eq == Equiv ==>
                && Extends(old(hypotMap[..]), hypotMap[..])
                && (hypotAdjustCanon <==>
                      old(hypotAdjustCanon) || RedirectsBase(g, startId, old(hypotMap[..]), hypotMap[..]))
      decreases Unprocessed(hypotMap[..]), 2
    {
      hide Checked, Descending, Answered, Compatible, HasChildren, RedirectsBase, ListsRecorded, WellSized,
           VisitsRefs, AtOnce;
      ghost var h1 := hypotMap[..];
      RedirectsNone(g, startId, h1);
      var order := ChildOrder(types[canon]);
      for i := 0 to |order|
        invariant Valid() && Descending(g, h0, hypotMap[..], candId, canonId, order, i)
        invariant old(hypotList) <= hypotList && Extends(h1, hypotMap[..])
        invariant hypotAdjustCanon <==>
                    old(hypotAdjustCanon) || RedirectsBase(g, startId, h1, hypotMap[..])
      {
        ghost var h := hypotMap[..];
        DescendingChild(g, h0, h, candId, canonId, order, i);
        UnprocessedShrinks(h1, h);
        eq := IsEquiv(types[candId][order[i]], types[canon][order[i]]);
        if eq != Equiv {
          DescendingFail(g, h0, h, hypotMap[..], candId, canonId, order, i);
          return eq;
        }
        DescendingStep(g, h0, h, hypotMap[..], candId, canonId, order, i);
        CheckedExtends(g, h, hypotMap[..], g.types[candId][order[i]], g.types[canon][order[i]]);
        ExtendsTransitive(h1, h, hypotMap[..]);
        RedirectsJoin(g, startId, h1, h, hypotMap[..]);
      }
      DescendingEnd(g, h0, hypotMap[..], candId, canonId, order);
      eq := Equiv;
    }
  }

  /** The list holds exactly the recorded ids, each once. */
  ghost predicate ListsRecorded(h: seq<u32>, list: seq<nat>) {
    && Distinct(list)
    && (forall k :: 0 <= k < |list| ==> list[k] < |h| && Recorded(h, list[k]))
    && (forall c :: 0 <= c < |h| && Recorded(h, c) ==> c in list)
  }

  lemma RedirectsFresh(g: Graph, start: nat, h0: seq<u32>, h: seq<u32>, list: seq<nat>)
    requires g.Valid() && HypotMap(g, h0) && HypotMap(g, h) && ListsRecorded(h, list)
    requires forall c :: 0 <= c < |h0| ==> h0[c] == BTF_UNPROCESSED_ID
    ensures RedirectsBase(g, start, h0, h) <==>
              exists c :: 0 <= c < |h| && c < start && c in list && IsFwd(g.types[c]) && !IsFwd(g.types[h[c]])
  {
  }

  lemma ListsAdded(h: seq<u32>, list: seq<nat>, c: nat, cand: u32)
    requires ListsRecorded(h, list) && c < |h| && !Recorded(h, c) && cand <= BTF_MAX_NR_TYPES
    ensures ListsRecorded(h[c := cand], list + [c])
  {
    assert c !in list;
  }
}

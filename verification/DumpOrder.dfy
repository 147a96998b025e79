/** What ordering type definitions for C establishes, on the sequence in which types get ordered. */
module OrderSpec {
  import opened Words
  import opened BtfRecords
  import opened EmbedSpec

  predicate IsEnumOrFwd(k: nat) {
    k == BTF_KIND_ENUM || k == BTF_KIND_ENUM64 || k == BTF_KIND_FWD
  }

  /** Modifiers and type tags. */
  predicate IsQualifier(k: nat) {
    IsModKind(k) || k == BTF_KIND_TYPE_TAG
  }

  predicate Composite(r: Record)
    requires |r| >= BASE
  {
    IsCompositeKind(Kind(r))
  }

  predicate Named(r: Record)
    requires |r| >= BASE
  {
    r[0] != 0
  }

  /** The traversal goes on to the type in word `p`. */
  predicate Follows(r: Record, p: nat)
    requires |r| >= BASE
  {
    var k := Kind(r);
    && p < |r| && IsRef(r[1], p)
    && (k == BTF_KIND_PTR || k == BTF_KIND_TYPEDEF || IsQualifier(k) || (k == BTF_KIND_ARRAY && p == BASE) ||
        IsCompositeKind(k) || k == BTF_KIND_FUNC_PROTO)
  }

  /** Every cycle of types passes through a struct or union: everything else leads to lower ranks. */
  ghost predicate CyclesPassComposites(types: seq<Record>, rank: seq<nat>) {
    && GoodGraph(types) && |rank| == |types|
    && forall i, p :: 0 <= i < |types| && 0 <= p < |types[i]| && !Composite(types[i]) && Follows(types[i], p) ==>
         rank[types[i][p]] < rank[i]
  }

  ghost predicate Graph(types: seq<Record>, rank: seq<nat>, i: int) {
    CyclesPassComposites(types, rank) && 0 <= i < |types|
  }

  /** Behind qualifiers and arrays. */
  predicate IsWrapper(r: Record)
    requires |r| >= BASE
  {
    IsQualifier(Kind(r)) || Kind(r) == BTF_KIND_ARRAY
  }

  function TargetWord(r: Record): nat
    requires |r| >= BASE
  {
    if Kind(r) == BTF_KIND_ARRAY then BASE else 2
  }

  lemma TargetFollows(types: seq<Record>, rank: seq<nat>, i: nat)
    requires Graph(types, rank, i)
    requires IsWrapper(types[i]) || Kind(types[i]) == BTF_KIND_TYPEDEF || Kind(types[i]) == BTF_KIND_PTR
    ensures 1 <= i && TargetWord(types[i]) < |types[i]| && Follows(types[i], TargetWord(types[i]))
    ensures types[i][TargetWord(types[i])] < |types|
    ensures rank[types[i][TargetWord(types[i])]] < rank[i]
  {
    assert IsRef(types[i][1], TargetWord(types[i]));
  }

  /** A struct, union or typedef: a definition that others may depend on by value. */
  predicate Defines(r: Record)
    requires |r| >= BASE
  {
    Composite(r) || Kind(r) == BTF_KIND_TYPEDEF
  }

  /** A definition that others may need first: also an enum, or a forward declaration. */
  predicate Needed(r: Record)
    requires |r| >= BASE
  {
    Defines(r) || IsEnumOrFwd(Kind(r))
  }

  /** Types that are put into the emit queue when they get ordered. */
  predicate Queued(r: Record, referenced: bool)
    requires |r| >= BASE
  {
    || (Composite(r) && Named(r))
    || (IsEnumOrFwd(Kind(r)) && (Named(r) || !referenced))
    || Kind(r) == BTF_KIND_TYPEDEF
  }

  /** Types that must not be defined twice. */
  predicate Once(r: Record)
    requires |r| >= BASE
  {
    Composite(r) || IsEnumOrFwd(Kind(r))
  }

  datatype OrderState = NOT_ORDERED | ORDERING | ORDERED

  /** The input of ordering: types by id, which ids are referenced, and ranks of the other types. */
  datatype Dump = Dump(types: seq<Record>, referenced: seq<bool>, rank: seq<nat>)
  {
    ghost predicate Valid() {
      CyclesPassComposites(types, rank) && |referenced| == |types|
    }
  }

  /** A type as the traversal meets it: directly, or through a pointer. */
  datatype Visit = Visit(id: nat, ptr: bool)

  /** The traversal does not stop here: a named struct or union behind a pointer can be declared first. */
  ghost predicate Enters(x: Dump, v: Visit) {
    x.Valid() && v.id < |x.types| && !(Composite(x.types[v.id]) && v.ptr && Named(x.types[v.id]))
  }

  /** Whether what `r` refers to is met through a pointer. */
  predicate PtrAfter(r: Record, ptr: bool)
    requires |r| >= BASE
  {
    Kind(r) == BTF_KIND_PTR || (ptr && !Composite(r) && Kind(r) != BTF_KIND_ARRAY)
  }

  ghost predicate Leads(x: Dump, v: Visit, w: Visit) {
    && x.Valid() && v.id < |x.types|
    && exists p: nat :: Follows(x.types[v.id], p) && w == Visit(x.types[v.id][p], PtrAfter(x.types[v.id], v.ptr))
  }

  /** A function type, possibly qualified. */
  ghost predicate IsFunction(x: Dump, i: nat)
    requires x.Valid() && i < |x.types|
    decreases x.rank[i]
  {
    var t := x.types[i];
    if IsQualifier(Kind(t)) then
      TargetFollows(x.types, x.rank, i);
      IsFunction(x, t[2])
    else Kind(t) == BTF_KIND_FUNC_PROTO
  }

  /** A typedef of a function type. */
  ghost predicate NamesFunction(x: Dump, i: nat)
    requires x.Valid() && i < |x.types|
  {
    Kind(x.types[i]) == BTF_KIND_TYPEDEF && (TargetFollows(x.types, x.rank, i); IsFunction(x, x.types[i][2]))
  }

  /**
   * The link to a type that is met like this is strong in any case: to void, to an enum, to a struct or
   * union that is used directly or has no name, or to what passes on such a link.
   */
  ghost predicate SurelyStrong(x: Dump, v: Visit)
    requires x.Valid() && v.id < |x.types|
    decreases x.rank[v.id]
  {
    var t := x.types[v.id];
    if Composite(t) then !(v.ptr && Named(t))
    else if Kind(t) == BTF_KIND_TYPEDEF && !v.ptr then true
    else if IsWrapper(t) || Kind(t) == BTF_KIND_TYPEDEF || Kind(t) == BTF_KIND_PTR then
      TargetFollows(x.types, x.rank, v.id);
      SurelyStrong(x, Visit(t[TargetWord(t)], PtrAfter(t, v.ptr)))
    else if Kind(t) == BTF_KIND_FUNC_PROTO then
      exists p: nat :: ProtoType(x, v.id, p) && SurelyStrong(x, Visit(t[p], v.ptr))
    else v.id == 0 || IsEnumOrFwd(Kind(t))
  }

  /** Word `p` of a function type is its return type or the type of a parameter. */
  ghost predicate ProtoType(x: Dump, i: nat, p: nat)
    requires x.Valid() && i < |x.types|
  {
    p < |x.types[i]| && Follows(x.types[i], p) && x.types[i][p] < |x.types| && x.rank[x.types[i][p]] < x.rank[i]
  }

  /**
   * What has to be defined before a type that is met like this has been ordered: a struct or union,
   * unless it can be declared first; an enum; a typedef, unless it is behind a pointer and the link to
   * what it stands for may be weak; and whatever is needed in turn behind everything else.
   */
  ghost predicate Satisfied(x: Dump, done: seq<nat>, v: Visit)
    decreases if v.id < |x.rank| then x.rank[v.id] else 0
  {
    && x.Valid() && v.id < |x.types|
    && var t := x.types[v.id];
    if Composite(t) then (v.ptr && Named(t)) || v.id in done
    else if IsEnumOrFwd(Kind(t)) || (Kind(t) == BTF_KIND_TYPEDEF && !v.ptr) then v.id in done
    else
      && (Kind(t) == BTF_KIND_TYPEDEF && SurelyStrong(x, v) ==> v.id in done)
      && forall p: nat :: Follows(t, p) ==> Satisfied(x, done, Visit(t[p], PtrAfter(t, v.ptr)))
  }

  /**
   * What the members of `i`, or the target of a typedef or pointer, need has been ordered. A typedef of
   * a function type gets ordered also when it is met behind a pointer, so it promises no more than that.
   */
  ghost predicate PartsReady(x: Dump, done: seq<nat>, i: nat)
    requires x.Valid() && i < |x.types|
  {
    var t := x.types[i];
    forall p: nat :: Follows(t, p) && (Defines(t) || Kind(t) == BTF_KIND_PTR) ==>
      Satisfied(x, done, Visit(t[p], PtrAfter(t, NamesFunction(x, i))))
  }

  /** Kinds whose order state is written. */
  predicate Marked(r: Record)
    requires |r| >= BASE
  {
    !IsWrapper(r) && Kind(r) != BTF_KIND_FUNC_PROTO
  }

  /** The queue entries made while the types `fin` got ordered, one after the other. */
  ghost function QueueOf(x: Dump, fin: seq<nat>): seq<nat>
    requires x.Valid()
  {
    if fin == [] then []
    else
      var i := fin[|fin| - 1];
      QueueOf(x, fin[..|fin| - 1]) +
      if i < |x.types| && Queued(x.types[i], x.referenced[i]) then [i] else []
  }

  /** `fin` is a proper history: parts before wholes, and nothing that is defined once twice. */
  ghost predicate History(x: Dump, fin: seq<nat>) {
    && x.Valid()
    && (forall k :: 0 <= k < |fin| ==> 0 < fin[k] < |x.types| && Marked(x.types[fin[k]]))
    && (forall k :: 0 <= k < |fin| ==> PartsReady(x, fin[..k], fin[k]))
    && (forall j, k :: 0 <= j < k < |fin| && fin[j] == fin[k] ==> !Once(x.types[fin[k]]))
  }

  /** Order states and history agree. */
  ghost predicate InStep(x: Dump, states: seq<OrderState>, fin: seq<nat>) {
    && History(x, fin) && |states| == |x.types|
    && (forall i :: 0 <= i < |states| ==> (states[i] == ORDERED <==> i == 0 || i in fin))
    && (forall i :: 0 <= i < |states| && states[i] == ORDERING ==> Composite(x.types[i]))
  }

  /** Types only ever go from not ordered to ordered. */
  ghost predicate Advances(a: seq<OrderState>, b: seq<OrderState>) {
    && |a| == |b|
    && (forall i :: 0 <= i < |a| && a[i] != NOT_ORDERED ==> b[i] == a[i])
    && (forall i :: 0 <= i < |a| && b[i] == ORDERING ==> a[i] == ORDERING)
  }

  lemma {:induction false} SatisfiedGrows(x: Dump, done: seq<nat>, done': seq<nat>, v: Visit)
    requires Satisfied(x, done, v) && done <= done'
    ensures Satisfied(x, done', v)
    decreases if v.id < |x.rank| then x.rank[v.id] else 0
  {
    var t := x.types[v.id];
    if !Composite(t) {
      forall p: nat | Follows(t, p) && Satisfied(x, done, Visit(t[p], PtrAfter(t, v.ptr)))
        ensures Satisfied(x, done', Visit(t[p], PtrAfter(t, v.ptr)))
      {
        SatisfiedGrows(x, done, done', Visit(t[p], PtrAfter(t, v.ptr)));
      }
    }
  }

  /** Behind a pointer no more is needed than in a direct use. */
  lemma {:induction false} SatisfiedBehindPtr(x: Dump, fin: seq<nat>, i: nat)
    requires History(x, fin) && Satisfied(x, fin, Visit(i, false))
    ensures Satisfied(x, fin, Visit(i, true))
    decreases if i < |x.rank| then x.rank[i] else 0
  {
    var t := x.types[i];
    if !Composite(t) {
      forall p: nat | Follows(t, p) && !IsEnumOrFwd(Kind(t))
        ensures Satisfied(x, fin, Visit(t[p], PtrAfter(t, true)))
      {
        if Kind(t) == BTF_KIND_TYPEDEF {
          var k :| 0 <= k < |fin| && fin[k] == i;
          assert PartsReady(x, fin[..k], fin[k]);
          SatisfiedGrows(x, fin[..k], fin, Visit(t[p], NamesFunction(x, i)));
          if !NamesFunction(x, i) {
            SatisfiedBehindPtr(x, fin, t[p]);
          }
        } else if !PtrAfter(t, false) && PtrAfter(t, true) {
          SatisfiedBehindPtr(x, fin, t[p]);
        }
      }
    }
  }

  /** Type `i` gets ordered. */
  lemma HistoryAdd(x: Dump, fin: seq<nat>, i: nat)
    requires History(x, fin) && 0 < i < |x.types| && PartsReady(x, fin, i)
    requires Marked(x.types[i]) && (Once(x.types[i]) ==> i !in fin)
    ensures History(x, fin + [i])
  {
    hide PartsReady, Once, CyclesPassComposites;
    var fin' := fin + [i];
    forall k | 0 <= k < |fin'|
      ensures PartsReady(x, fin'[..k], fin'[k])
    {
      assert fin'[..k] == fin[..k];
    }
  }

  lemma StepAdd(x: Dump, states: seq<OrderState>, fin: seq<nat>, i: nat)
    requires InStep(x, states, fin) && 0 < i < |x.types| && PartsReady(x, fin, i)
    requires Marked(x.types[i]) && (Once(x.types[i]) ==> states[i] != ORDERED)
    ensures InStep(x, states[i := ORDERED], fin + [i])
    ensures QueueOf(x, fin + [i]) == QueueOf(x, fin) + if Queued(x.types[i], x.referenced[i]) then [i] else []
  {
    hide PartsReady, Once, CyclesPassComposites, Queued;
    HistoryAdd(x, fin, i);
    assert (fin + [i])[..|fin|] == fin;
  }

  /** A struct or union gets its ordering under way. */
  lemma StepBegin(x: Dump, states: seq<OrderState>, fin: seq<nat>, i: nat)
    requires InStep(x, states, fin) && 0 < i < |x.types| && Composite(x.types[i]) && states[i] == NOT_ORDERED
    ensures InStep(x, states[i := ORDERING], fin)
    ensures Fresh(x, states[i := ORDERING]) < Fresh(x, states)
  {
    assert |x.types[i]| >= BASE && |states| == |x.types|;
    hide History, InStep, CyclesPassComposites, KindOf;
    assert i in Fresh(x, states) && i !in Fresh(x, states[i := ORDERING]);
  }

  /** The structs and unions that have not been entered. */
  ghost function Fresh(x: Dump, states: seq<OrderState>): set<int> {
    set i | 0 <= i < |states| && i < |x.types| && |x.types[i]| >= BASE && Composite(x.types[i]) &&
            states[i] == NOT_ORDERED
  }

  lemma FreshShrinks(x: Dump, a: seq<OrderState>, b: seq<OrderState>)
    requires Advances(a, b)
    ensures Fresh(x, b) <= Fresh(x, a)
  {
  }

  lemma AdvancesTransitive(a: seq<OrderState>, b: seq<OrderState>, c: seq<OrderState>)
    requires Advances(a, b) && Advances(b, c)
    ensures Advances(a, c)
  {
  }

  lemma AdvancesSame(a: seq<OrderState>)
    ensures Advances(a, a)
  {
  }

  lemma AdvancesOrdered(a: seq<OrderState>, b: seq<OrderState>, i: nat)
    requires Advances(a, b) && i < |b| && a[i] != ORDERING
    ensures Advances(a, b[i := ORDERED])
  {
  }

  lemma AdvancesComposite(a: seq<OrderState>, b: seq<OrderState>, c: seq<OrderState>, i: nat)
    requires i < |a| && a[i] == NOT_ORDERED && b == a[i := ORDERING] && Advances(b, c)
    ensures i < |c| && c[i] == ORDERING && Advances(a, c[i := ORDERED])
  {
  }

  /** A type that is ordered already has been satisfied, however it is met. */
  lemma OrderedSatisfied(x: Dump, states: seq<OrderState>, fin: seq<nat>, v: Visit)
    requires InStep(x, states, fin) && v.id < |states| && states[v.id] == ORDERED
    ensures Satisfied(x, fin, v)
  {
    var i, t := v.id, x.types[v.id];
    if i != 0 {
      var k :| 0 <= k < |fin| && fin[k] == i;
      assert PartsReady(x, fin[..k], fin[k]);
      if Kind(t) == BTF_KIND_TYPEDEF {
        SatisfiedBehindPtr(x, fin, i);
      } else if Kind(t) == BTF_KIND_PTR {
        forall p: nat | Follows(t, p)
          ensures Satisfied(x, fin, Visit(t[p], true))
        {
          SatisfiedGrows(x, fin[..k], fin, Visit(t[p], true));
        }
      }
    }
  }

  lemma Shape(x: Dump, i: nat)
    requires x.Valid() && i < |x.types|
    ensures |x.types[i]| >= BASE && |x.rank| == |x.referenced| == |x.types|
  {
  }

  lemma InStepHistory(x: Dump, states: seq<OrderState>, fin: seq<nat>)
    requires InStep(x, states, fin)
    ensures History(x, fin)
  {
  }

  lemma NotVoid(x: Dump, states: seq<OrderState>, fin: seq<nat>, i: nat)
    requires InStep(x, states, fin) && i < |states| && states[i] != ORDERED
    ensures 0 < i
  {
  }

  lemma NotOrdering(x: Dump, states: seq<OrderState>, fin: seq<nat>, i: nat)
    requires InStep(x, states, fin) && i < |states| && !Composite(x.types[i])
    ensures states[i] != ORDERING
  {
  }

  /** A qualifier, array, pointer, or typedef behind a pointer needs what its target needs. */
  lemma TargetSatisfied(x: Dump, fin: seq<nat>, v: Visit)
    requires x.Valid() && v.id < |x.types|
    requires var t := x.types[v.id];
             IsWrapper(t) || Kind(t) == BTF_KIND_PTR || (Kind(t) == BTF_KIND_TYPEDEF && v.ptr && !SurelyStrong(x, v))
    ensures TargetWord(x.types[v.id]) < |x.types[v.id]|
    ensures var t := x.types[v.id];
            Satisfied(x, fin, Visit(t[TargetWord(t)], PtrAfter(t, v.ptr))) ==> Satisfied(x, fin, v)
  {
    TargetFollows(x.types, x.rank, v.id);
    assert forall p: nat :: Follows(x.types[v.id], p) ==> p == TargetWord(x.types[v.id]);
  }

  lemma TargetOfTypedef(x: Dump, fin: seq<nat>, id: nat)
    requires x.Valid() && id < |x.types| && Kind(x.types[id]) == BTF_KIND_TYPEDEF
    requires |x.types[id]| > 2 && x.types[id][2] < |x.types| && !SurelyStrong(x, Visit(x.types[id][2], true))
    ensures Satisfied(x, fin, Visit(x.types[id][2], true)) ==> Satisfied(x, fin, Visit(id, true))
  {
    TargetSatisfied(x, fin, Visit(id, true));
  }

  /** A named struct or union behind a pointer can wait. */
  lemma PutOff(x: Dump, fin: seq<nat>, i: nat)
    requires x.Valid() && i < |x.types| && Composite(x.types[i]) && Named(x.types[i])
    ensures Satisfied(x, fin, Visit(i, true))
  {
  }

  /** A type without references, and no definition for others, needs nothing. */
  lemma OtherSatisfied(x: Dump, fin: seq<nat>, i: nat)
    requires x.Valid() && i < |x.types| && Marked(x.types[i]) && !Defines(x.types[i])
    requires Kind(x.types[i]) != BTF_KIND_PTR
    ensures PartsReady(x, fin, i)
    ensures !Needed(x.types[i]) || i in fin ==> forall ptr :: Satisfied(x, fin, Visit(i, ptr))
  {
  }

  /** A type that is no definition for others, or an enum, gets ordered. */
  lemma OtherStep(x: Dump, states: seq<OrderState>, fin: seq<nat>, i: nat)
    requires InStep(x, states, fin) && 0 < i < |x.types| && Marked(x.types[i]) && !Defines(x.types[i])
    requires Kind(x.types[i]) == BTF_KIND_PTR ==> PartsReady(x, fin, i)
    requires Once(x.types[i]) ==> states[i] != ORDERED
    ensures InStep(x, states[i := ORDERED], fin + [i]) && Advances(states, states[i := ORDERED])
    ensures |x.types[i]| >= BASE && |x.referenced| == |states| == |x.types|
    ensures QueueOf(x, fin + [i])
         == QueueOf(x, fin)
            + if IsEnumOrFwd(Kind(x.types[i])) && (Named(x.types[i]) || !x.referenced[i]) then [i] else []
    ensures forall ptr :: Satisfied(x, fin + [i], Visit(i, ptr))
  {
    NotOrdering(x, states, fin, i);
    hide InStep, Advances, Satisfied, QueueOf;
    if Kind(x.types[i]) != BTF_KIND_PTR {
      OtherSatisfied(x, fin, i);
    }
    AdvancesSame(states);
    AdvancesOrdered(states, states, i);
    StepAdd(x, states, fin, i);
    DoneSatisfied(x, states[i := ORDERED], fin + [i], i);
  }

  lemma DoneSatisfied(x: Dump, states: seq<OrderState>, fin: seq<nat>, i: nat)
    requires InStep(x, states, fin) && i < |states| && states[i] == ORDERED
    ensures forall ptr :: Satisfied(x, fin, Visit(i, ptr))
  {
    hide Satisfied, InStep;
    forall ptr: bool
      ensures Satisfied(x, fin, Visit(i, ptr))
    {
      OrderedSatisfied(x, states, fin, Visit(i, ptr));
    }
  }

  lemma CompositeOnce(r: Record)
    requires |r| >= BASE && Composite(r)
    ensures Once(r) && Marked(r) && forall b :: Queued(r, b) == Named(r)
  {
  }

  /** A pointer gets ordered after its target. */
  lemma PtrStep(x: Dump, s0: seq<OrderState>, s1: seq<OrderState>, fin: seq<nat>, i: nat)
    requires InStep(x, s1, fin) && 0 < i < |x.types| && Kind(x.types[i]) == BTF_KIND_PTR && Advances(s0, s1)
    requires |x.types[i]| > 2 && Satisfied(x, fin, Visit(x.types[i][2], true))
    ensures |s1| == |x.types| && InStep(x, s1[i := ORDERED], fin + [i]) && Advances(s0, s1[i := ORDERED])
    ensures QueueOf(x, fin + [i]) == QueueOf(x, fin)
    ensures forall ptr :: Satisfied(x, fin + [i], Visit(i, ptr))
  {
    PtrParts(x, fin, i);
    hide InStep, QueueOf, Satisfied, Advances, CyclesPassComposites, PartsReady;
    OtherStep(x, s1, fin, i);
    AdvancesTransitive(s0, s1, s1[i := ORDERED]);
  }

  /** A typedef gets ordered after its target. */
  lemma TypedefStep(x: Dump, s0: seq<OrderState>, s1: seq<OrderState>, fin: seq<nat>, i: nat)
    requires InStep(x, s1, fin) && i < |x.types| && Kind(x.types[i]) == BTF_KIND_TYPEDEF
    requires Advances(s0, s1) && i < |s0| && s0[i] == NOT_ORDERED
    requires |x.types[i]| > 2 && Satisfied(x, fin, Visit(x.types[i][2], NamesFunction(x, i)))
    ensures |s1| == |x.referenced| == |x.types| && InStep(x, s1[i := ORDERED], fin + [i]) &&
          Advances(s0, s1[i := ORDERED])
    ensures QueueOf(x, fin + [i]) == QueueOf(x, fin) + [i]
    ensures forall ptr :: Satisfied(x, fin + [i], Visit(i, ptr))
  {
    Shape(x, i);
    AdvancesOrdered(s0, s1, i);
    TypedefParts(x, fin, i);
    hide Advances, QueueOf, PartsReady, Satisfied, CyclesPassComposites, History, Marked, Once, Queued, KindOf;
    StepAdd(x, s1, fin, i);
    DoneSatisfied(x, s1[i := ORDERED], fin + [i], i);
  }

  /** A struct or union gets ordered after its members. */
  lemma CompositeStep(x: Dump, s0: seq<OrderState>, s1: seq<OrderState>, s2: seq<OrderState>, fin: seq<nat>, i: nat)
    requires InStep(x, s2, fin) && 0 < i < |x.types| == |s0| && Composite(x.types[i]) && s0[i] == NOT_ORDERED
    requires s1 == s0[i := ORDERING] && Advances(s1, s2) && PartsReady(x, fin, i)
    ensures |s2| == |s0| == |x.referenced| && InStep(x, s2[i := ORDERED], fin + [i]) && Advances(s0, s2[i := ORDERED])
    ensures |x.types[i]| >= BASE
    ensures QueueOf(x, fin + [i]) == QueueOf(x, fin) + if Named(x.types[i]) then [i] else []
    ensures forall ptr :: Satisfied(x, fin + [i], Visit(i, ptr))
  {
    AdvancesComposite(s0, s1, s2, i);
    Shape(x, i);
    CompositeOnce(x.types[i]);
    hide Advances, QueueOf, PartsReady, Satisfied, CyclesPassComposites, History, Marked, Once, Queued, KindOf;
    StepAdd(x, s2, fin, i);
    DoneSatisfied(x, s2[i := ORDERED], fin + [i], i);
  }

  // The parts of a struct or union, one member at a time

  ghost predicate MembersReady(x: Dump, fin: seq<nat>, id: nat, n: nat)
    requires x.Valid() && id < |x.types|
  {
    forall p :: 0 <= p < BASE + 3 * n && p < |x.types[id]| && Follows(x.types[id], p) ==>
      Satisfied(x, fin, Visit(x.types[id][p], false))
  }

  lemma MembersStart(x: Dump, fin: seq<nat>, id: nat)
    requires x.Valid() && id < |x.types| && Composite(x.types[id])
    ensures MembersReady(x, fin, id, 0)
  {
  }

  lemma MemberFollows(x: Dump, id: nat, i: nat)
    requires x.Valid() && id < |x.types| && Composite(x.types[id]) && i < Vlen(x.types[id])
    ensures BASE + 3 * i + 1 < |x.types[id]| && Follows(x.types[id], BASE + 3 * i + 1)
    ensures x.types[id][BASE + 3 * i + 1] < |x.types|
    ensures !Follows(x.types[id], BASE + 3 * i) && !Follows(x.types[id], BASE + 3 * i + 2)
  {
    assert (3 * i) % 3 == 0;
    assert IsRef(x.types[id][1], BASE + 3 * i + 1);
  }

  lemma MembersStep(x: Dump, fin: seq<nat>, fin': seq<nat>, id: nat, i: nat)
    requires x.Valid() && id < |x.types| && Composite(x.types[id]) && i < Vlen(x.types[id])
    requires MembersReady(x, fin, id, i) && fin <= fin'
    requires BASE + 3 * i + 1 < |x.types[id]| && Satisfied(x, fin', Visit(x.types[id][BASE + 3 * i + 1], false))
    ensures MembersReady(x, fin', id, i + 1)
  {
    hide Satisfied, Follows;
    MemberFollows(x, id, i);
    forall p | 0 <= p < BASE + 3 * (i + 1) && p < |x.types[id]| && Follows(x.types[id], p)
      ensures Satisfied(x, fin', Visit(x.types[id][p], false))
    {
      if p < BASE + 3 * i {
        SatisfiedGrows(x, fin, fin', Visit(x.types[id][p], false));
      }
    }
  }

  lemma MembersEnd(x: Dump, fin: seq<nat>, id: nat)
    requires x.Valid() && id < |x.types| && Composite(x.types[id])
    requires MembersReady(x, fin, id, Vlen(x.types[id]))
    ensures PartsReady(x, fin, id)
  {
    hide Satisfied;
    assert |x.types[id]| == BASE + 3 * Vlen(x.types[id]);
  }

  lemma TypedefParts(x: Dump, fin: seq<nat>, id: nat)
    requires x.Valid() && id < |x.types| && Kind(x.types[id]) == BTF_KIND_TYPEDEF
    requires |x.types[id]| > 2 && Satisfied(x, fin, Visit(x.types[id][2], NamesFunction(x, id)))
    ensures PartsReady(x, fin, id) && 0 < id
    ensures Queued(x.types[id], x.referenced[id]) && !Once(x.types[id]) && Marked(x.types[id])
  {
    hide Satisfied;
  }

  lemma PtrParts(x: Dump, fin: seq<nat>, id: nat)
    requires x.Valid() && id < |x.types| && Kind(x.types[id]) == BTF_KIND_PTR
    requires |x.types[id]| > 2 && Satisfied(x, fin, Visit(x.types[id][2], true))
    ensures PartsReady(x, fin, id) && Marked(x.types[id]) && !Defines(x.types[id]) && !Once(x.types[id])
  {
    hide Satisfied;
  }

  lemma ProtoFollows(x: Dump, id: nat)
    requires x.Valid() && id < |x.types| && Kind(x.types[id]) == BTF_KIND_FUNC_PROTO
    ensures |x.types[id]| == BASE + 2 * Vlen(x.types[id])
    ensures x.types[id][2] < |x.types| && x.rank[x.types[id][2]] < x.rank[id]
    ensures Follows(x.types[id], 2)
    ensures forall i :: 0 <= i < Vlen(x.types[id]) ==>
              && Follows(x.types[id], BASE + 2 * i + 1)
              && x.types[id][BASE + 2 * i + 1] < |x.types|
              && x.rank[x.types[id][BASE + 2 * i + 1]] < x.rank[id]
  {
    var t := x.types[id];
    assert Follows(t, 2);
    forall i | 0 <= i < Vlen(t)
      ensures Follows(t, BASE + 2 * i + 1)
    {
      assert (2 * i + 1) % 2 == 1;
      assert IsRef(t[1], BASE + 2 * i + 1);
    }
  }

  /** The types of a function before parameter `n` have what they need. */
  ghost predicate ParamsReady(x: Dump, fin: seq<nat>, id: nat, ptr: bool, n: nat)
    requires x.Valid() && id < |x.types|
  {
    forall p: nat :: p < BASE + 2 * n && Follows(x.types[id], p) ==> Satisfied(x, fin, Visit(x.types[id][p], ptr))
  }

  lemma ParamsStep(x: Dump, fin: seq<nat>, fin': seq<nat>, id: nat, n: nat, ptr: bool)
    requires x.Valid() && id < |x.types| && Kind(x.types[id]) == BTF_KIND_FUNC_PROTO && n < Vlen(x.types[id])
    requires ParamsReady(x, fin, id, ptr, n) && fin <= fin' && BASE + 2 * n + 1 < |x.types[id]|
    requires x.types[id][BASE + 2 * n + 1] < |x.types| && Satisfied(x, fin', Visit(x.types[id][BASE + 2 * n + 1], ptr))
    ensures ParamsReady(x, fin', id, ptr, n + 1)
  {
    hide Satisfied;
    forall p: nat | p < BASE + 2 * (n + 1) && Follows(x.types[id], p)
      ensures Satisfied(x, fin', Visit(x.types[id][p], ptr))
    {
      if p < BASE + 2 * n {
        SatisfiedGrows(x, fin, fin', Visit(x.types[id][p], ptr));
      } else {
        assert p == BASE + 2 * n + 1;
      }
    }
  }

  lemma ParamsStart(x: Dump, fin: seq<nat>, id: nat, ptr: bool)
    requires x.Valid() && id < |x.types| && Kind(x.types[id]) == BTF_KIND_FUNC_PROTO
    requires |x.types[id]| > 2 && Satisfied(x, fin, Visit(x.types[id][2], ptr))
    ensures ParamsReady(x, fin, id, ptr, 0)
  {
    hide Satisfied;
  }

  lemma ParamsEnd(x: Dump, fin: seq<nat>, id: nat, ptr: bool)
    requires x.Valid() && id < |x.types| && Kind(x.types[id]) == BTF_KIND_FUNC_PROTO
    requires ParamsReady(x, fin, id, ptr, Vlen(x.types[id]))
    ensures Satisfied(x, fin, Visit(id, ptr))
  {
    assert |x.types[id]| == BASE + 2 * Vlen(x.types[id]);
  }

  // ---------------------------------------------------------------------------
  // Loops that no order satisfies

  ghost predicate Trail(x: Dump, path: seq<Visit>) {
    && (forall k :: 0 <= k < |path| - 1 ==> Enters(x, path[k]))
    && (forall k :: 0 <= k < |path| - 1 ==> Leads(x, path[k], path[k + 1]))
  }

  /** A struct or union whose definition needs its own definition first. */
  ghost predicate NeedsItself(x: Dump, path: seq<Visit>) {
    && Trail(x, path) && |path| >= 2 && Enters(x, path[|path| - 1])
    && path[0].id == path[|path| - 1].id && Composite(x.types[path[0].id])
  }

  /** The structs and unions under way all lie on the trail. */
  ghost predicate OnTrail(states: seq<OrderState>, trail: seq<Visit>) {
    forall i :: 0 <= i < |states| && states[i] == ORDERING ==> exists k :: 0 <= k < |trail| && trail[k].id == i
  }

  lemma TrailStep(x: Dump, trail: seq<Visit>, v: Visit, p: nat)
    requires Trail(x, trail + [v]) && Enters(x, v) && Follows(x.types[v.id], p)
    ensures Trail(x, trail + [v] + [Visit(x.types[v.id][p], PtrAfter(x.types[v.id], v.ptr))])
  {
    var path := trail + [v] + [Visit(x.types[v.id][p], PtrAfter(x.types[v.id], v.ptr))];
    assert Leads(x, v, path[|path| - 1]);
    hide CyclesPassComposites, Composite, Follows, Enters, Leads;
    forall k | 0 <= k < |path| - 1
      ensures Enters(x, path[k]) && Leads(x, path[k], path[k + 1])
    {
      if k < |trail| {
        assert path[k] == (trail + [v])[k] && path[k + 1] == (trail + [v])[k + 1];
      }
    }
  }

  lemma LoopFound(x: Dump, states: seq<OrderState>, trail: seq<Visit>, v: Visit)
    requires OnTrail(states, trail) && Trail(x, trail + [v]) && Enters(x, v)
    requires v.id < |states| && states[v.id] == ORDERING && Composite(x.types[v.id])
    ensures exists path :: NeedsItself(x, path)
  {
    hide CyclesPassComposites, Composite, Enters, Leads;
    var k :| 0 <= k < |trail| && trail[k].id == v.id;
    var path := (trail + [v])[k..];
    forall j | 0 <= j < |path| - 1
      ensures Enters(x, path[j]) && Leads(x, path[j], path[j + 1])
    {
      assert path[j] == (trail + [v])[k + j] && path[j + 1] == (trail + [v])[k + j + 1];
    }
    assert NeedsItself(x, path);
  }

  lemma OnTrailBegin(states: seq<OrderState>, trail: seq<Visit>, v: Visit)
    requires OnTrail(states, trail) && v.id < |states|
    ensures OnTrail(states[v.id := ORDERING], trail + [v])
  {
    var longer, begun := trail + [v], states[v.id := ORDERING];
    forall i | 0 <= i < |begun| && begun[i] == ORDERING
      ensures exists k :: 0 <= k < |longer| && longer[k].id == i
    {
      if i == v.id {
        assert longer[|trail|].id == i;
      } else {
        var k :| 0 <= k < |trail| && trail[k].id == i;
        assert longer[k].id == i;
      }
    }
  }

  lemma CompositeBegin(x: Dump, states: seq<OrderState>, fin: seq<nat>, trail: seq<Visit>, v: Visit)
    requires InStep(x, states, fin) && 0 < v.id < |x.types| && Composite(x.types[v.id])
    requires states[v.id] == NOT_ORDERED && OnTrail(states, trail) && !(v.ptr && Named(x.types[v.id]))
    ensures InStep(x, states[v.id := ORDERING], fin) && Enters(x, v)
    ensures Fresh(x, states[v.id := ORDERING]) < Fresh(x, states)
    ensures OnTrail(states[v.id := ORDERING], trail + [v])
  {
    StepBegin(x, states, fin, v.id);
    OnTrailBegin(states, trail, v);
  }

  lemma OnTrailGrows(states: seq<OrderState>, trail: seq<Visit>, v: Visit)
    requires OnTrail(states, trail)
    ensures OnTrail(states, trail + [v])
  {
    var longer := trail + [v];
    forall i | 0 <= i < |states| && states[i] == ORDERING
      ensures exists k :: 0 <= k < |longer| && longer[k].id == i
    {
      var k :| 0 <= k < |trail| && trail[k].id == i;
      assert longer[k].id == i;
    }
  }

  lemma OnTrailKeeps(a: seq<OrderState>, b: seq<OrderState>, trail: seq<Visit>)
    requires OnTrail(a, trail) && Advances(a, b)
    ensures OnTrail(b, trail)
  {
  }

  // ---------------------------------------------------------------------------
  // What a history means for the queue

  /** The chain from `path[0]` is a strong link; typedefs of function types on the way are only pointed to. */
  ghost predicate StrongLink(x: Dump, path: seq<Visit>) {
    && path != [] && Trail(x, path)
    && forall k :: 0 <= k < |path| - 1 ==> !FunctionUsed(x, path[k])
  }

  /** A typedef of a function type is used directly. */
  ghost predicate FunctionUsed(x: Dump, v: Visit) {
    x.Valid() && v.id < |x.types| && NamesFunction(x, v.id) && !v.ptr
  }

  /** A definition that has to come first when it is met like this. */
  ghost predicate Required(x: Dump, v: Visit) {
    && Enters(x, v) && Needed(x.types[v.id])
    && (Kind(x.types[v.id]) == BTF_KIND_TYPEDEF ==> SurelyStrong(x, v))
  }

  /** What is satisfied, or ordered, passes that on to what it leads to. */
  lemma SatisfiedStep(x: Dump, done: seq<nat>, v: Visit, w: Visit)
    requires Leads(x, v, w) && w.id < |x.types|
    requires !FunctionUsed(x, v)
    requires if Defines(x.types[v.id]) && (Composite(x.types[v.id]) || !v.ptr) then PartsReady(x, done, v.id)
             else Satisfied(x, done, v)
    ensures Satisfied(x, done, w)
  {
    hide CyclesPassComposites;
  }

  /** Every definition at the end of a strong link from a satisfied type has been ordered. */
  lemma {:induction false} LinkOrdered(x: Dump, fin: seq<nat>, n: nat, path: seq<Visit>)
    requires History(x, fin) && n <= |fin| && StrongLink(x, path) && Required(x, path[|path| - 1])
    requires path[0].id < |x.types| && Satisfied(x, fin[..n], path[0])
    ensures path[|path| - 1].id in fin[..n]
    decreases |path|
  {
    var v := path[0];
    if |path| > 1 {
      assert Enters(x, v) && Leads(x, v, path[1]);
      LeadsInside(x, v, path[1]);
      StrongTail(x, path);
      if Composite(x.types[v.id]) || (Kind(x.types[v.id]) == BTF_KIND_TYPEDEF && !v.ptr) {
        var k :| 0 <= k < n && fin[k] == v.id;
        assert PartsReady(x, fin[..k], fin[k]);
        hide Satisfied, PartsReady, History, StrongLink;
        SatisfiedStep(x, fin[..k], v, path[1]);
        LinkOrdered(x, fin, k, path[1..]);
        assert fin[..k] <= fin[..n];
      } else {
        hide Satisfied, PartsReady, History, StrongLink;
        SatisfiedStep(x, fin[..n], v, path[1]);
        LinkOrdered(x, fin, n, path[1..]);
      }
    }
  }

  lemma LeadsInside(x: Dump, v: Visit, w: Visit)
    requires Leads(x, v, w)
    ensures w.id < |x.types|
  {
  }

  lemma StrongTail(x: Dump, path: seq<Visit>)
    requires StrongLink(x, path) && |path| > 1
    ensures StrongLink(x, path[1..])
    ensures x.Valid() && path[0].id < |x.types| && |x.types[path[0].id]| >= BASE && !FunctionUsed(x, path[0])
  {
    hide Leads, Enters, FunctionUsed;
    assert Leads(x, path[0], path[1]);
    StrongHead(x, path[0], path[1]);
  }

  lemma StrongHead(x: Dump, v: Visit, w: Visit)
    requires Leads(x, v, w)
    ensures x.Valid() && v.id < |x.types| && |x.types[v.id]| >= BASE
  {
  }

  lemma QueueAdd(x: Dump, fin: seq<nat>, i: nat)
    requires x.Valid() && i < |x.types|
    ensures |x.types[i]| >= BASE && |x.referenced| == |x.types|
    ensures QueueOf(x, fin + [i]) == QueueOf(x, fin) + if Queued(x.types[i], x.referenced[i]) then [i] else []
  {
    assert (fin + [i])[..|fin|] == fin;
  }

  lemma {:induction false} QueueIndex(x: Dump, fin: seq<nat>, a: nat) returns (k: nat)
    requires x.Valid() && a < |QueueOf(x, fin)|
    ensures k < |fin| && fin[k] == QueueOf(x, fin)[a] && QueueOf(x, fin[..k]) == QueueOf(x, fin)[..a]
    ensures fin[k] < |x.types| && Queued(x.types[fin[k]], x.referenced[fin[k]])
  {
    hide CyclesPassComposites, Queued;
    var n := |fin| - 1;
    if a == |QueueOf(x, fin[..n])| {
      k := n;
    } else {
      k := QueueIndex(x, fin[..n], a);
      assert fin[..n][..k] == fin[..k];
    }
  }

  lemma {:induction false} QueueHas(x: Dump, fin: seq<nat>, i: nat)
    requires x.Valid() && i < |x.types|
    ensures i in QueueOf(x, fin) <==> i in fin && Queued(x.types[i], x.referenced[i])
  {
    hide CyclesPassComposites, Queued;
    if fin != [] {
      QueueHas(x, fin[..|fin| - 1], i);
      assert fin == fin[..|fin| - 1] + [fin[|fin| - 1]];
    }
  }

  /**
   * A named definition at the end of a strong link from a queued struct or union has been queued
   * before it: whatever it embeds by value through typedefs, qualifiers, arrays and anonymous types,
   * and also whatever an anonymous type behind a pointer embeds.
   */
  lemma StronglyLinkedFirst(x: Dump, fin: seq<nat>, a: nat, path: seq<Visit>)
    requires History(x, fin) && a < |QueueOf(x, fin)| && StrongLink(x, path) && |path| >= 2
    requires path[0] == Visit(QueueOf(x, fin)[a], false) && path[0].id < |x.types| && Composite(x.types[path[0].id])
    requires Required(x, path[|path| - 1]) && Named(x.types[path[|path| - 1].id])
    ensures path[|path| - 1].id in QueueOf(x, fin)[..a]
  {
    var k := QueueIndex(x, fin, a);
    PartsLinked(x, fin, k, path);
    QueueHas(x, fin[..k], path[|path| - 1].id);
  }

  /** The same for the history: the definition has been ordered before. */
  lemma PartsLinked(x: Dump, fin: seq<nat>, k: nat, path: seq<Visit>)
    requires History(x, fin) && k < |fin| && StrongLink(x, path) && |path| >= 2
    requires path[0] == Visit(fin[k], false) && Composite(x.types[fin[k]]) && Required(x, path[|path| - 1])
    ensures path[|path| - 1].id in fin[..k]
  {
    assert PartsReady(x, fin[..k], fin[k]);
    assert Leads(x, path[0], path[1]);
    LeadsInside(x, path[0], path[1]);
    StrongTail(x, path);
    hide Satisfied, PartsReady, History, StrongLink;
    SatisfiedStep(x, fin[..k], path[0], path[1]);
    LinkOrdered(x, fin, k, path[1..]);
  }

  /** Nothing but a typedef is queued twice: no struct, union, enum or forward declaration is. */
  lemma QueuedOnce(x: Dump, fin: seq<nat>, a: nat, b: nat)
    requires History(x, fin) && a < b < |QueueOf(x, fin)| && QueueOf(x, fin)[a] == QueueOf(x, fin)[b]
    ensures var i := QueueOf(x, fin)[a];
            i < |x.types| && |x.types[i]| >= BASE && Kind(x.types[i]) == BTF_KIND_TYPEDEF
  {
    hide PartsReady, CyclesPassComposites, QueueOf, Once, Queued, KindOf;
    var k := QueueIndex(x, fin, b);
    assert fin[k] in QueueOf(x, fin)[..b];
    QueueHas(x, fin[..k], fin[k]);
    var j :| 0 <= j < k && fin[j] == fin[k];
    Shape(x, fin[k]);
    QueuedTwiceKind(x.types[fin[k]], x.referenced[fin[k]]);
  }

  lemma QueuedTwiceKind(r: Record, referenced: bool)
    requires |r| >= BASE && Queued(r, referenced) && !Once(r)
    ensures Kind(r) == BTF_KIND_TYPEDEF
  {
  }

  /** A typedef of a function type whose direct use leads to a use of it behind a pointer. */
  ghost predicate FunctionLoop(x: Dump, path: seq<Visit>) {
    && Trail(x, path) && |path| >= 2
    && FunctionUsed(x, path[0]) && path[|path| - 1] == Visit(path[0].id, true)
  }

  ghost predicate NoFunctionLoop(x: Dump) {
    forall path :: !FunctionLoop(x, path)
  }

  ghost predicate TypedefsOnce(x: Dump, fin: seq<nat>) {
    x.Valid() &&
    forall j, k :: 0 <= j < k < |fin| && fin[j] == fin[k] && fin[k] < |x.types| ==>
      Kind(x.types[fin[k]]) != BTF_KIND_TYPEDEF
  }

  /** If no typedef has been ordered twice, nothing at all has been queued twice. */
  lemma NothingQueuedTwice(x: Dump, fin: seq<nat>)
    requires History(x, fin) && TypedefsOnce(x, fin)
    ensures Distinct(QueueOf(x, fin))
  {
    hide PartsReady, CyclesPassComposites, QueueOf;
    forall a, b | 0 <= a < b < |QueueOf(x, fin)|
      ensures QueueOf(x, fin)[a] != QueueOf(x, fin)[b]
    {
      var k := QueueIndex(x, fin, b);
      if fin[k] in QueueOf(x, fin)[..b] {
        QueueHas(x, fin[..k], fin[k]);
        assert false;
      }
    }
  }

  /** No ordered struct or union needs itself: no strong link leads from it back to it. */
  lemma NoneNeedsItself(x: Dump, fin: seq<nat>, path: seq<Visit>)
    requires History(x, fin) && StrongLink(x, path) && |path| >= 2 && path[0].id in fin && !path[0].ptr
    requires Composite(x.types[path[0].id])
    ensures !NeedsItself(x, path)
  {
    var last := path[|path| - 1];
    if Enters(x, last) && Composite(x.types[last.id]) {
      var k :| 0 <= k < |fin| && fin[k] == path[0].id;
      PartsLinked(x, fin, k, path);
      var j :| 0 <= j < k && fin[j] == last.id;
      hide PartsReady, StrongLink, Satisfied, Trail;
      assert Once(x.types[fin[k]]);
      assert last.id != path[0].id;
    }
  }

  // ---------------------------------------------------------------------------
  // The same in terms of the kinds of the format

  /** A qualifier or type tag. */
  predicate Qualifies(r: Record)
    requires |r| >= BASE
  {
    Kind(r) == BTF_KIND_CONST || Kind(r) == BTF_KIND_VOLATILE || Kind(r) == BTF_KIND_RESTRICT ||
    Kind(r) == BTF_KIND_TYPE_TAG
  }

  /** Spelling out type `v` leads to type `w`: a pointer is remembered, until an array or the members of a struct. */
  ghost predicate Spells(x: Dump, v: Visit, w: Visit) {
    && v.id < |x.types| && |x.types[v.id]| >= BASE
    && var t := x.types[v.id];
    if IsStructOrUnion(t) then
      && !(v.ptr && t[0] != 0) && !w.ptr
      && exists j: nat :: j < Vlen(t) && 4 + 3 * j < |t| && w.id == t[4 + 3 * j]
    else if Kind(t) == BTF_KIND_PTR then w == Visit(t[2], true)
    else if Kind(t) == BTF_KIND_ARRAY then |t| > 3 && w == Visit(t[3], false)
    else if Kind(t) == BTF_KIND_FUNC_PROTO then
      && w.ptr == v.ptr
      && (w.id == t[2] || exists j: nat :: j < Vlen(t) && 4 + 2 * j < |t| && w.id == t[4 + 2 * j])
    else (Kind(t) == BTF_KIND_TYPEDEF || Qualifies(t)) && w == Visit(t[2], v.ptr)
  }

  /** One type of the path after the other is spelled out. */
  ghost predicate SpellsOut(x: Dump, path: seq<Visit>) {
    path != [] && forall k :: 0 <= k < |path| - 1 ==> Spells(x, path[k], path[k + 1])
  }

  /** On the path a typedef that is used directly turns out to stand for a function type. */
  ghost predicate MeetsFunction(x: Dump, path: seq<Visit>, k: nat, l: nat) {
    && k < l < |path| && (forall i :: k <= i <= l ==> path[i].id < |x.types| && |x.types[path[i].id]| >= BASE)
    && Kind(x.types[path[k].id]) == BTF_KIND_TYPEDEF && !path[k].ptr && Kind(x.types[path[l].id]) == BTF_KIND_FUNC_PROTO
    && forall i :: k < i < l ==> Qualifies(x.types[path[i].id])
  }

  /** A type with a name that C needs the definition of, if it is met like this. */
  ghost predicate NeedsDefinition(x: Dump, v: Visit) {
    && v.id < |x.types| && |x.types[v.id]| >= BASE && x.types[v.id][0] != 0
    && var t := x.types[v.id];
    || ((IsStructOrUnion(t) || Kind(t) == BTF_KIND_TYPEDEF) && !v.ptr)
    || Kind(t) == BTF_KIND_ENUM || Kind(t) == BTF_KIND_ENUM64 || Kind(t) == BTF_KIND_FWD
  }

  lemma SpellsLeads(x: Dump, v: Visit, w: Visit)
    requires x.Valid()
    ensures Spells(x, v, w) <==> Enters(x, v) && Leads(x, v, w)
  {
    if v.id < |x.types| && IsCompositeKind(Kind(x.types[v.id])) {
      SpellsMember(x, v, w);
    } else if v.id < |x.types| && Kind(x.types[v.id]) == BTF_KIND_FUNC_PROTO {
      SpellsProto(x, v, w);
    } else {
      SpellsOne(x, v, w);
    }
  }

  lemma SpellsOne(x: Dump, v: Visit, w: Visit)
    requires x.Valid()
    requires v.id < |x.types| ==> !IsCompositeKind(Kind(x.types[v.id])) && Kind(x.types[v.id]) != BTF_KIND_FUNC_PROTO
    ensures Spells(x, v, w) <==> Enters(x, v) && Leads(x, v, w)
  {
    if v.id < |x.types| {
      var t, p := x.types[v.id], TargetWord(x.types[v.id]);
      if IsWrapper(t) || Kind(t) == BTF_KIND_TYPEDEF || Kind(t) == BTF_KIND_PTR {
        TargetFollows(x.types, x.rank, v.id);
        assert Follows(t, p);
      }
    }
  }

  lemma SpellsMember(x: Dump, v: Visit, w: Visit)
    requires x.Valid() && v.id < |x.types| && IsCompositeKind(Kind(x.types[v.id]))
    ensures Spells(x, v, w) <==> Enters(x, v) && Leads(x, v, w)
  {
    var t := x.types[v.id];
    hide CyclesPassComposites, IsRef, KindOf, VlenOf;
    forall p: nat | p < |t|
      ensures Follows(t, p) <==> exists j: nat :: j < Vlen(t) && p == 4 + 3 * j
    {
      MemberWord(x, v.id, p);
    }
    assert forall j: nat :: j < Vlen(t) ==> 4 + 3 * j < |t| by {
      forall j: nat | j < Vlen(t)
        ensures 4 + 3 * j < |t|
      {
        MemberFollows(x, v.id, j);
      }
    }
  }

  lemma MemberWord(x: Dump, i: nat, p: nat)
    requires x.Valid() && i < |x.types| && IsCompositeKind(Kind(x.types[i])) && p < |x.types[i]|
    ensures Follows(x.types[i], p) <==> exists j: nat :: j < Vlen(x.types[i]) && p == 4 + 3 * j
  {
    if Follows(x.types[i], p) {
      assert p == 4 + 3 * ((p - 3) / 3);
    }
    if j: nat :| j < Vlen(x.types[i]) && p == 4 + 3 * j {
      MemberFollows(x, i, j);
    }
  }

  lemma SpellsProto(x: Dump, v: Visit, w: Visit)
    requires x.Valid() && v.id < |x.types| && Kind(x.types[v.id]) == BTF_KIND_FUNC_PROTO
    ensures Spells(x, v, w) <==> Enters(x, v) && Leads(x, v, w)
  {
    var t := x.types[v.id];
    ProtoSize(x, v.id);
    hide CyclesPassComposites, IsRef, VlenOf, Follows;
    if Leads(x, v, w) {
      var p: nat :| Follows(t, p) && w == Visit(t[p], PtrAfter(t, v.ptr));
      ProtoWord(x, v.id, p);
    }
    if Spells(x, v, w) {
      if w.id == t[2] {
        ProtoWord(x, v.id, 2);
      } else {
        var j: nat :| j < Vlen(t) && 4 + 2 * j < |t| && w.id == t[4 + 2 * j];
        ProtoWord(x, v.id, 4 + 2 * j);
      }
    }
  }

  lemma ProtoSize(x: Dump, i: nat)
    requires x.Valid() && i < |x.types| && Kind(x.types[i]) == BTF_KIND_FUNC_PROTO
    ensures |x.types[i]| == 3 + 2 * Vlen(x.types[i])
    ensures forall p: nat :: Follows(x.types[i], p) ==> p < |x.types[i]|
  {
  }

  lemma ProtoWord(x: Dump, i: nat, p: nat)
    requires x.Valid() && i < |x.types| && Kind(x.types[i]) == BTF_KIND_FUNC_PROTO && p < |x.types[i]|
    ensures Follows(x.types[i], p) <==> p == 2 || exists j: nat :: j < Vlen(x.types[i]) && p == 4 + 2 * j
  {
    ProtoFollows(x, i);
    if Follows(x.types[i], p) && p != 2 {
      assert p == 4 + 2 * ((p - 3) / 2);
    }
    if j: nat :| j < Vlen(x.types[i]) && p == 4 + 2 * j {
      assert Follows(x.types[i], BASE + 2 * j + 1);
    }
  }

  lemma KindsAre(r: Record)
    requires |r| >= BASE
    ensures IsStructOrUnion(r) <==> Composite(r)
    ensures Qualifies(r) <==> IsQualifier(Kind(r))
    ensures Needed(r) <==>
              || IsStructOrUnion(r) || Kind(r) == BTF_KIND_TYPEDEF
              || Kind(r) == BTF_KIND_ENUM || Kind(r) == BTF_KIND_ENUM64 || Kind(r) == BTF_KIND_FWD
  {
  }

  /** The queue holds what has been ordered and is defined; without a name only unreferenced enums and forwards. */
  lemma QueueHolds(x: Dump, fin: seq<nat>, i: nat)
    requires x.Valid() && i < |x.types|
    ensures |x.types[i]| >= BASE && |x.referenced| == |x.types|
    ensures var t := x.types[i];
            i in QueueOf(x, fin) <==>
              && i in fin
              && (|| (IsStructOrUnion(t) && t[0] != 0) || Kind(t) == BTF_KIND_TYPEDEF
                  || ((Kind(t) == BTF_KIND_ENUM || Kind(t) == BTF_KIND_ENUM64 || Kind(t) == BTF_KIND_FWD) &&
                      (t[0] != 0 || !x.referenced[i])))
  {
    QueueHas(x, fin, i);
    hide QueueOf, CyclesPassComposites;
  }

  lemma DefinitionRequired(x: Dump, v: Visit)
    requires x.Valid() && NeedsDefinition(x, v)
    ensures Required(x, v)
  {
  }

  /** A function type, possibly qualified, shows up as one further down the path. */
  lemma {:induction false} FunctionAhead(x: Dump, path: seq<Visit>, k: nat) returns (l: nat)
    requires x.Valid() && SpellsOut(x, path) && k < |path| && path[k].id < |x.types| && IsFunction(x, path[k].id)
    requires NeedsDefinition(x, path[|path| - 1])
    ensures k <= l < |path| && forall i :: k <= i <= l ==> path[i].id < |x.types| && |x.types[path[i].id]| >= BASE
    ensures Kind(x.types[path[l].id]) == BTF_KIND_FUNC_PROTO
    ensures forall i :: k <= i < l ==> Qualifies(x.types[path[i].id])
    decreases |path| - k
  {
    Shape(x, path[k].id);
    KindsAre(x.types[path[k].id]);
    if Kind(x.types[path[k].id]) == BTF_KIND_FUNC_PROTO {
      l := k;
    } else {
      assert k < |path| - 1;
      assert Spells(x, path[k], path[k + 1]);
      FunctionNext(x, path[k], path[k + 1]);
      hide Spells, IsFunction, KindOf, CyclesPassComposites;
      l := FunctionAhead(x, path, k + 1);
    }
  }

  lemma FunctionNext(x: Dump, v: Visit, w: Visit)
    requires x.Valid() && v.id < |x.types| && Spells(x, v, w) && Kind(x.types[v.id]) != BTF_KIND_FUNC_PROTO
    requires IsFunction(x, v.id) || NamesFunction(x, v.id)
    ensures w.id < |x.types| && IsFunction(x, w.id) && |x.types[v.id]| >= BASE
    ensures IsFunction(x, v.id) ==> Qualifies(x.types[v.id])
  {
    if NamesFunction(x, v.id) || IsQualifier(Kind(x.types[v.id])) {
      TargetFollows(x.types, x.rank, v.id);
    }
  }

  /** A path to a definition is a strong link if it meets no function type that is used directly. */
  lemma SpelledLink(x: Dump, path: seq<Visit>)
    requires x.Valid() && SpellsOut(x, path) && NeedsDefinition(x, path[|path| - 1])
    requires forall k: nat, l: nat :: !MeetsFunction(x, path, k, l)
    ensures StrongLink(x, path) && Required(x, path[|path| - 1])
  {
    DefinitionRequired(x, path[|path| - 1]);
    hide Spells, NeedsDefinition, Required, CyclesPassComposites, Enters, Leads;
    forall k | 0 <= k < |path| - 1
      ensures Enters(x, path[k]) && Leads(x, path[k], path[k + 1]) && !FunctionUsed(x, path[k])
    {
      assert Spells(x, path[k], path[k + 1]);
      SpellsLeads(x, path[k], path[k + 1]);
      if FunctionUsed(x, path[k]) {
        NamedFunctionMet(x, path, k);
      }
    }
  }

  lemma NamedFunctionMet(x: Dump, path: seq<Visit>, k: nat)
    requires x.Valid() && SpellsOut(x, path) && NeedsDefinition(x, path[|path| - 1]) && k < |path| - 1
    requires FunctionUsed(x, path[k])
    ensures exists l: nat :: MeetsFunction(x, path, k, l)
  {
    assert Spells(x, path[k], path[k + 1]);
    Shape(x, path[k].id);
    FunctionNext(x, path[k], path[k + 1]);
    hide Spells, NeedsDefinition, CyclesPassComposites, IsFunction, KindOf;
    var l := FunctionAhead(x, path, k + 1);
    assert MeetsFunction(x, path, k, l);
  }

  /**
   * Before a struct or union, the queue holds every definition that C needs for it: whatever it spells
   * out, through typedefs, qualifiers, arrays, pointers, function types and types without a name.
   */
  lemma DefinedBefore(x: Dump, fin: seq<nat>, a: nat, path: seq<Visit>)
    requires History(x, fin) && a < |QueueOf(x, fin)| && |path| >= 2 && SpellsOut(x, path)
    requires path[0] == Visit(QueueOf(x, fin)[a], false) && path[0].id < |x.types|
    requires |x.types[path[0].id]| >= BASE && IsStructOrUnion(x.types[path[0].id])
    requires NeedsDefinition(x, path[|path| - 1]) && forall k: nat, l: nat :: !MeetsFunction(x, path, k, l)
    ensures path[|path| - 1].id in QueueOf(x, fin)[..a]
  {
    SpelledLink(x, path);
    KindsAre(x.types[path[0].id]);
    hide QueueOf, SpellsOut, PartsReady, StrongLink, Required, CyclesPassComposites, KindOf;
    StronglyLinkedFirst(x, fin, a, path);
  }

  /** Once a type has been ordered, the queue holds every definition that C needs for it. */
  lemma DefinedForRequest(x: Dump, fin: seq<nat>, path: seq<Visit>)
    requires History(x, fin) && SpellsOut(x, path) && Satisfied(x, fin, path[0]) && path[0].id < |x.types|
    requires NeedsDefinition(x, path[|path| - 1]) && forall k: nat, l: nat :: !MeetsFunction(x, path, k, l)
    ensures path[|path| - 1].id in QueueOf(x, fin)
  {
    SpelledLink(x, path);
    assert fin[..|fin|] == fin;
    var i := path[|path| - 1].id;
    hide QueueOf, SpellsOut, PartsReady, StrongLink, Required, CyclesPassComposites, KindOf, Satisfied;
    LinkOrdered(x, fin, |fin|, path);
    QueueHolds(x, fin, i);
  }

  /** A definition that needs itself is spelled out within itself. */
  lemma LoopSpelled(x: Dump, path: seq<Visit>)
    requires x.Valid() && NeedsItself(x, path)
    ensures SpellsOut(x, path) && |path| >= 2 && path[0].id == path[|path| - 1].id < |x.types|
    ensures |x.types[path[0].id]| >= BASE && IsStructOrUnion(x.types[path[0].id])
  {
    KindsAre(x.types[path[0].id]);
    hide Spells, CyclesPassComposites, KindOf, Leads;
    forall k | 0 <= k < |path| - 1
      ensures Spells(x, path[k], path[k + 1])
    {
      SpellsLeads(x, path[k], path[k + 1]);
    }
  }
}

/** The ordering traversal as a function of order states and history, and what it establishes. */
module OrderTraversal {
  import opened Words
  import opened BtfRecords
  import opened EmbedSpec
  import opened OrderSpec

  /** The result of ordering a type: 1, 0, or a negated errno. */
  datatype Order = Strong | Weak | Failed(errno: Errno)

  /** Order states, and every type that has been ordered, in that order. */
  datatype Progress = Progress(states: seq<OrderState>, fin: seq<nat>)

  datatype Outcome = Outcome(r: Order, s: Progress)

  /** Kinds without a definition for which the traversal goes no further. */
  predicate IsLeafKind(k: nat) {
    k == BTF_KIND_INT || k == BTF_KIND_FLOAT || k == BTF_KIND_FUNC || k == BTF_KIND_VAR || k == BTF_KIND_DATASEC ||
    k == BTF_KIND_DECL_TAG
  }

  ghost predicate Shaped(x: Dump, s: Progress) {
    x.Valid() && |s.states| == |x.types|
  }

  /** Type `id` is ordered now. */
  ghost function Finish(s: Progress, id: nat): (r: Progress)
    requires id < |s.states|
    ensures |r.states| == |s.states|
  {
    Progress(s.states[id := ORDERED], s.fin + [id])
  }

  /** btf_dump_order_type */
  ghost function Traverse(x: Dump, s: Progress, v: Visit): (o: Outcome)
    requires Shaped(x, s) && v.id < |x.types|
    ensures |o.s.states| == |x.types|
    ensures !o.r.Failed? ==> Advances(s.states, o.s.states)
    decreases Fresh(x, s.states), x.rank[v.id] + 1, 0
  {
    hide Advances, Fresh, GoodGraph, Follows, KindOf, VlenOf;
    Shape(x, v.id);
    AdvancesSame(s.states);
    var id, t := v.id, x.types[v.id];
    var k := Kind(t);
    if s.states[id] == ORDERED then Outcome(Strong, s)
    else if s.states[id] == ORDERING then
      Outcome(if Composite(t) && v.ptr && Named(t) then Weak else Failed(ELOOP), s)
    else if Composite(t) then
      if v.ptr && Named(t) then Outcome(Weak, s)
      else
        var begun := Progress(s.states[id := ORDERING], s.fin);
        FreshDrops(x, s.states, id);
        var o := TraverseMembers(x, begun, id, 0, Fresh(x, s.states));
        if o.r.Failed? then o
        else
          AdvancesComposite(s.states, begun.states, o.s.states, id);
          Outcome(Strong, Finish(o.s, id))
    else if k == BTF_KIND_PTR then
      TargetFollows(x.types, x.rank, id);
      var o := Traverse(x, s, Visit(t[2], true));
      if o.r.Failed? then Outcome(o.r, Progress(o.s.states[id := ORDERED], o.s.fin))
      else
        AdvancesOrdered(s.states, o.s.states, id);
        Outcome(o.r, Finish(o.s, id))
    else if k == BTF_KIND_ARRAY then
      TargetFollows(x.types, x.rank, id);
      Traverse(x, s, Visit(t[BASE], false))
    else if k == BTF_KIND_TYPEDEF then
      TargetFollows(x.types, x.rank, id);
      var o := Traverse(x, s, Visit(t[2], v.ptr));
      if o.r.Failed? || (v.ptr && o.r.Weak?) then o
      else
        AdvancesOrdered(s.states, o.s.states, id);
        Outcome(Strong, Finish(o.s, id))
    else if IsQualifier(k) then
      TargetFollows(x.types, x.rank, id);
      Traverse(x, s, Visit(t[2], v.ptr))
    else if k == BTF_KIND_FUNC_PROTO then
      ProtoFollows(x, id);
      var o := Traverse(x, s, Visit(t[2], v.ptr));
      if o.r.Failed? then o
      else
        FreshShrinks(x, s.states, o.s.states);
        var o' := TraverseParams(x, o.s, v, 0, o.r);
        AdvancesBoth(s.states, o.s.states, o'.s.states);
        o'
    else
      AdvancesOrdered(s.states, s.states, id);
      if IsEnumOrFwd(k) then Outcome(Strong, Finish(s, id))
      else if IsLeafKind(k) then Outcome(Weak, Finish(s, id))
      else Outcome(Failed(EINVAL), s)
  }

  /** The members from `i` on of the struct or union `id`, which is under way. */
  ghost function TraverseMembers(x: Dump, s: Progress, id: nat, i: nat, fresh0: set<int>): (o: Outcome)
    requires Shaped(x, s) && id < |x.types| && Composite(x.types[id]) && i <= Vlen(x.types[id])
    requires Fresh(x, s.states) < fresh0
    ensures |o.s.states| == |x.types|
    ensures !o.r.Failed? ==> Advances(s.states, o.s.states)
    decreases fresh0, 0, Vlen(x.types[id]) - i
  {
    hide Advances, Fresh, GoodGraph, Follows, KindOf, VlenOf;
    AdvancesSame(s.states);
    if i == Vlen(x.types[id]) then Outcome(Strong, s)
    else
      MemberFollows(x, id, i);
      var o := Traverse(x, s, Visit(x.types[id][BASE + 3 * i + 1], false));
      if o.r.Failed? then o
      else
        FreshShrinks(x, s.states, o.s.states);
        var o' := TraverseMembers(x, o.s, id, i + 1, fresh0);
        AdvancesBoth(s.states, o.s.states, o'.s.states);
        o'
  }

  /** The parameters from `i` on of the function type at `v`; `r` is the result so far. */
  ghost function TraverseParams(x: Dump, s: Progress, v: Visit, i: nat, r: Order): (o: Outcome)
    requires Shaped(x, s) && v.id < |x.types| && Kind(x.types[v.id]) == BTF_KIND_FUNC_PROTO
    requires i <= Vlen(x.types[v.id])
    ensures |o.s.states| == |x.types|
    ensures !o.r.Failed? ==> Advances(s.states, o.s.states)
    decreases Fresh(x, s.states), x.rank[v.id], Vlen(x.types[v.id]) - i
  {
    hide Advances, Fresh, GoodGraph, Follows, KindOf, VlenOf;
    AdvancesSame(s.states);
    if i == Vlen(x.types[v.id]) then Outcome(r, s)
    else
      ProtoFollows(x, v.id);
      var o := Traverse(x, s, Visit(x.types[v.id][BASE + 2 * i + 1], v.ptr));
      if o.r.Failed? then o
      else
        FreshShrinks(x, s.states, o.s.states);
        var o' := TraverseParams(x, o.s, v, i + 1, Stronger(r, o.r));
        AdvancesBoth(s.states, o.s.states, o'.s.states);
        o'
  }

  lemma AdvancesBoth(a: seq<OrderState>, b: seq<OrderState>, c: seq<OrderState>)
    ensures Advances(a, b) && Advances(b, c) ==> Advances(a, c)
  {
  }

  lemma FreshDrops(x: Dump, states: seq<OrderState>, i: nat)
    requires i < |states| == |x.types| && |x.types[i]| >= BASE && Composite(x.types[i]) && states[i] == NOT_ORDERED
    ensures Fresh(x, states[i := ORDERING]) < Fresh(x, states)
  {
    hide KindOf;
    assert i in Fresh(x, states) && i !in Fresh(x, states[i := ORDERING]);
  }

  // ---------------------------------------------------------------------------
  // One case at a time

  lemma TraverseAtOnce(x: Dump, s: Progress, v: Visit)
    requires Shaped(x, s) && v.id < |x.types|
    requires var t := x.types[v.id];
             s.states[v.id] != NOT_ORDERED || (Composite(t) && Named(t) && v.ptr)
    ensures var t, st := x.types[v.id], s.states[v.id];
            Traverse(x, s, v) ==
              Outcome(if st == ORDERED then Strong
                      else if Composite(t) && Named(t) && v.ptr then Weak
                      else Failed(ELOOP), s)
  {
  }

  lemma TraverseComposite(x: Dump, s: Progress, v: Visit)
    requires Shaped(x, s) && v.id < |x.types| && s.states[v.id] == NOT_ORDERED
    requires Composite(x.types[v.id]) && !(v.ptr && Named(x.types[v.id]))
    ensures Fresh(x, s.states[v.id := ORDERING]) < Fresh(x, s.states)
    ensures var o := TraverseMembers(x, Progress(s.states[v.id := ORDERING], s.fin), v.id, 0, Fresh(x, s.states));
            Traverse(x, s, v) == if o.r.Failed? then o else Outcome(Strong, Finish(o.s, v.id))
  {
    hide Advances, Fresh, GoodGraph, Follows, KindOf, VlenOf, TraverseMembers;
    Shape(x, v.id);
    FreshDrops(x, s.states, v.id);
  }

  lemma TraversePtr(x: Dump, s: Progress, v: Visit)
    requires Shaped(x, s) && v.id < |x.types| && s.states[v.id] == NOT_ORDERED && Kind(x.types[v.id]) == BTF_KIND_PTR
    ensures |x.types[v.id]| > 2 && x.types[v.id][2] < |x.types| && x.rank[x.types[v.id][2]] < x.rank[v.id]
    ensures var o := Traverse(x, s, Visit(x.types[v.id][2], true));
            Traverse(x, s, v) ==
              Outcome(o.r, if o.r.Failed? then Progress(o.s.states[v.id := ORDERED], o.s.fin) else Finish(o.s, v.id))
  {
    hide Advances, Fresh, GoodGraph, Follows, KindOf, VlenOf, TraverseMembers, TraverseParams;
    Shape(x, v.id);
    TargetFollows(x.types, x.rank, v.id);
  }

  lemma TraverseWrapper(x: Dump, s: Progress, v: Visit)
    requires Shaped(x, s) && v.id < |x.types| && s.states[v.id] == NOT_ORDERED && IsWrapper(x.types[v.id])
    ensures var t, p := x.types[v.id], TargetWord(x.types[v.id]);
            p < |t| && t[p] < |x.types| && x.rank[t[p]] < x.rank[v.id]
    ensures var t := x.types[v.id];
            Traverse(x, s, v) == Traverse(x, s, Visit(t[TargetWord(t)], PtrAfter(t, v.ptr)))
  {
    hide Advances, Fresh, GoodGraph, Follows, KindOf, VlenOf, TraverseMembers, TraverseParams;
    Shape(x, v.id);
    TargetFollows(x.types, x.rank, v.id);
  }

  lemma TraverseTypedef(x: Dump, s: Progress, v: Visit)
    requires Shaped(x, s) && v.id < |x.types| && s.states[v.id] == NOT_ORDERED
    requires Kind(x.types[v.id]) == BTF_KIND_TYPEDEF
    ensures |x.types[v.id]| > 2 && x.types[v.id][2] < |x.types| && x.rank[x.types[v.id][2]] < x.rank[v.id]
    ensures var o := Traverse(x, s, Visit(x.types[v.id][2], v.ptr));
            Traverse(x, s, v) ==
              if o.r.Failed? || (v.ptr && o.r.Weak?) then o else Outcome(Strong, Finish(o.s, v.id))
  {
    hide Advances, Fresh, GoodGraph, Follows, KindOf, VlenOf, TraverseMembers, TraverseParams;
    Shape(x, v.id);
    TargetFollows(x.types, x.rank, v.id);
  }

  lemma TraverseProto(x: Dump, s: Progress, v: Visit)
    requires Shaped(x, s) && v.id < |x.types| && s.states[v.id] == NOT_ORDERED
    requires Kind(x.types[v.id]) == BTF_KIND_FUNC_PROTO
    ensures |x.types[v.id]| > 2 && x.types[v.id][2] < |x.types| && x.rank[x.types[v.id][2]] < x.rank[v.id]
    ensures var o := Traverse(x, s, Visit(x.types[v.id][2], v.ptr));
            Traverse(x, s, v) == if o.r.Failed? then o else TraverseParams(x, o.s, v, 0, o.r)
  {
    hide Advances, Fresh, GoodGraph, Follows, KindOf, VlenOf, TraverseMembers, TraverseParams;
    Shape(x, v.id);
    ProtoFollows(x, v.id);
  }

  lemma TraverseOther(x: Dump, s: Progress, v: Visit)
    requires Shaped(x, s) && v.id < |x.types| && s.states[v.id] == NOT_ORDERED
    requires var t, k := x.types[v.id], Kind(x.types[v.id]);
             !Composite(t) && !IsWrapper(t) && k != BTF_KIND_PTR && k != BTF_KIND_TYPEDEF && k != BTF_KIND_FUNC_PROTO
    ensures var k := Kind(x.types[v.id]);
            Traverse(x, s, v) ==
              if IsEnumOrFwd(k) then Outcome(Strong, Finish(s, v.id))
              else if IsLeafKind(k) then Outcome(Weak, Finish(s, v.id))
              else Outcome(Failed(EINVAL), s)
  {
  }

  lemma MembersNext(x: Dump, s: Progress, id: nat, i: nat, fresh0: set<int>)
    requires Shaped(x, s) && id < |x.types| && Composite(x.types[id]) && i < Vlen(x.types[id])
    requires Fresh(x, s.states) < fresh0
    ensures BASE + 3 * i + 1 < |x.types[id]| && x.types[id][BASE + 3 * i + 1] < |x.types|
    ensures var o := Traverse(x, s, Visit(x.types[id][BASE + 3 * i + 1], false));
            && (!o.r.Failed? ==> Fresh(x, o.s.states) < fresh0)
            && TraverseMembers(x, s, id, i, fresh0) ==
                 if o.r.Failed? then o else TraverseMembers(x, o.s, id, i + 1, fresh0)
  {
    hide Advances, Fresh, GoodGraph, Follows, KindOf, VlenOf, Traverse;
    MemberFollows(x, id, i);
    var o := Traverse(x, s, Visit(x.types[id][BASE + 3 * i + 1], false));
    if !o.r.Failed? {
      FreshShrinks(x, s.states, o.s.states);
    }
  }

  /** The result of a function type, from that so far and that of one of its types. */
  function Stronger(r: Order, r': Order): Order {
    if r'.Strong? then Strong else r
  }

  lemma ParamsNext(x: Dump, s: Progress, v: Visit, i: nat, r: Order)
    requires Shaped(x, s) && v.id < |x.types| && Kind(x.types[v.id]) == BTF_KIND_FUNC_PROTO && i < Vlen(x.types[v.id])
    ensures BASE + 2 * i + 1 < |x.types[v.id]|
    ensures var w := x.types[v.id][BASE + 2 * i + 1]; w < |x.types| == |x.rank| && x.rank[w] < x.rank[v.id]
    ensures var o := Traverse(x, s, Visit(x.types[v.id][BASE + 2 * i + 1], v.ptr));
            && (!o.r.Failed? ==> Fresh(x, o.s.states) <= Fresh(x, s.states))
            && TraverseParams(x, s, v, i, r) ==
                 if o.r.Failed? then o else TraverseParams(x, o.s, v, i + 1, Stronger(r, o.r))
  {
    hide Advances, Fresh, GoodGraph, Follows, KindOf, VlenOf, Traverse;
    ProtoFollows(x, v.id);
    var o := Traverse(x, s, Visit(x.types[v.id][BASE + 2 * i + 1], v.ptr));
    if !o.r.Failed? {
      FreshShrinks(x, s.states, o.s.states);
    }
  }

  lemma MembersOver(x: Dump, s: Progress, id: nat, fresh0: set<int>)
    requires Shaped(x, s) && id < |x.types| && Composite(x.types[id]) && Fresh(x, s.states) < fresh0
    ensures TraverseMembers(x, s, id, Vlen(x.types[id]), fresh0) == Outcome(Strong, s)
  {
  }

  lemma ParamsOver(x: Dump, s: Progress, v: Visit, r: Order)
    requires Shaped(x, s) && v.id < |x.types| && Kind(x.types[v.id]) == BTF_KIND_FUNC_PROTO
    ensures TraverseParams(x, s, v, Vlen(x.types[v.id]), r) == Outcome(r, s)
  {
  }

  // ---------------------------------------------------------------------------
  // What the traversal establishes

  /** What a traversal that goes through has established. */
  ghost predicate Established(x: Dump, s: Progress, v: Visit, o: Outcome)
    requires x.Valid() && v.id < |x.types|
  {
    && InStep(x, o.s.states, o.s.fin) && s.fin <= o.s.fin
    && Satisfied(x, o.s.fin, v)
    && (o.r.Strong? && !IsFunction(x, v.id) ==> Satisfied(x, o.s.fin, Visit(v.id, false)))
    && (SurelyStrong(x, v) ==> o.r.Strong?)
  }

  /** A traversal fails only because of a definition that needs itself; otherwise it has done its work. */
  ghost predicate Kept(x: Dump, s: Progress, v: Visit, o: Outcome)
    requires x.Valid() && v.id < |x.types|
  {
    if o.r.Failed? then o.r == Failed(ELOOP) && exists path :: NeedsItself(x, path)
    else Advances(s.states, o.s.states) && Established(x, s, v, o)
  }

  ghost predicate Ready(x: Dump, s: Progress, v: Visit, trail: seq<Visit>) {
    && InStep(x, s.states, s.fin) && v.id < |x.types|
    && OnTrail(s.states, trail) && Trail(x, trail + [v])
  }

  lemma ReadyShaped(x: Dump, s: Progress, v: Visit, trail: seq<Visit>)
    requires Ready(x, s, v, trail)
    ensures Shaped(x, s) && v.id < |x.types| && |x.types[v.id]| >= BASE
  {
  }

  /**
   * Ordering type `v`, reached along `trail`: afterwards everything has been ordered that has to come
   * before a type met like this, and after a strong result also what a direct use would need.
   */
  lemma {:induction false} TraverseKeeps(x: Dump, s: Progress, v: Visit, trail: seq<Visit>)
    requires Ready(x, s, v, trail)
    ensures Shaped(x, s) && Kept(x, s, v, Traverse(x, s, v))
    decreases Fresh(x, s.states), x.rank[v.id] + 1, 1
  {
    ReadyShaped(x, s, v, trail);
    var t, k := x.types[v.id], Kind(x.types[v.id]);
    hide Ready, Kept, Traverse, Fresh, KindOf, Dump.Valid, CyclesPassComposites;
    if s.states[v.id] != NOT_ORDERED || (Composite(t) && Named(t) && v.ptr) {
      KeepsAtOnce(x, s, v, trail);
    } else if Composite(t) {
      KeepsComposite(x, s, v, trail);
    } else if k == BTF_KIND_PTR {
      KeepsPtr(x, s, v, trail);
    } else if IsWrapper(t) {
      KeepsWrapper(x, s, v, trail);
    } else if k == BTF_KIND_TYPEDEF {
      KeepsTypedef(x, s, v, trail);
    } else if k == BTF_KIND_FUNC_PROTO {
      KeepsProto(x, s, v, trail);
    } else {
      KeepsOther(x, s, v, trail);
    }
  }

  lemma KeepsAtOnce(x: Dump, s: Progress, v: Visit, trail: seq<Visit>)
    requires Ready(x, s, v, trail) && v.id < |x.types| && |x.types[v.id]| >= BASE && v.id < |s.states|
    requires s.states[v.id] != NOT_ORDERED || (Composite(x.types[v.id]) && Named(x.types[v.id]) && v.ptr)
    ensures Shaped(x, s) && Kept(x, s, v, Traverse(x, s, v))
  {
    TraverseAtOnce(x, s, v);
    AdvancesSame(s.states);
    hide Traverse, Trail, NeedsItself, Follows, Satisfied, Advances, Fresh, PartsReady, OnTrail, GoodGraph, History;
    if s.states[v.id] == ORDERED {
      OrderedSatisfied(x, s.states, s.fin, v);
      OrderedSatisfied(x, s.states, s.fin, Visit(v.id, false));
    } else if Composite(x.types[v.id]) && Named(x.types[v.id]) && v.ptr {
      PutOff(x, s.fin, v.id);
    } else {
      LoopFound(x, s.states, trail, v);
    }
  }

  /** The way on to the type in word `p`. */
  lemma ReadyOn(x: Dump, s: Progress, v: Visit, trail: seq<Visit>, p: nat)
    requires Ready(x, s, v, trail) && Enters(x, v) && Follows(x.types[v.id], p) && x.types[v.id][p] < |x.types|
    ensures Ready(x, s, Visit(x.types[v.id][p], PtrAfter(x.types[v.id], v.ptr)), trail + [v])
  {
    TrailStep(x, trail, v, p);
    OnTrailGrows(s.states, trail, v);
  }

  /** The way on to the target of a pointer, typedef, qualifier or array. */
  lemma ReadyTarget(x: Dump, s: Progress, v: Visit, trail: seq<Visit>)
    requires Ready(x, s, v, trail) && v.id < |x.types| && |x.types[v.id]| >= BASE
    requires var t := x.types[v.id];
             IsWrapper(t) || Kind(t) == BTF_KIND_TYPEDEF || Kind(t) == BTF_KIND_PTR
    ensures Shaped(x, s)
    ensures var t, p := x.types[v.id], TargetWord(x.types[v.id]);
            && p < |t| && t[p] < |x.types| == |x.rank| && x.rank[t[p]] < x.rank[v.id]
            && Ready(x, s, Visit(t[p], PtrAfter(t, v.ptr)), trail + [v])
            && (SurelyStrong(x, v) <==>
                  (Kind(t) == BTF_KIND_TYPEDEF && !v.ptr) || SurelyStrong(x, Visit(t[p], PtrAfter(t, v.ptr))))
            && (IsFunction(x, v.id) <==> IsQualifier(Kind(t)) && IsFunction(x, t[p]))
            && (NamesFunction(x, v.id) <==> Kind(t) == BTF_KIND_TYPEDEF && IsFunction(x, t[p]))
  {
    TargetFollows(x.types, x.rank, v.id);
    ReadyOn(x, s, v, trail, TargetWord(x.types[v.id]));
  }

  lemma KeepsPtr(x: Dump, s: Progress, v: Visit, trail: seq<Visit>)
    requires Ready(x, s, v, trail) && v.id < |x.types| && |x.types[v.id]| >= BASE
    requires v.id < |s.states| && s.states[v.id] == NOT_ORDERED && Kind(x.types[v.id]) == BTF_KIND_PTR
    ensures Shaped(x, s) && Kept(x, s, v, Traverse(x, s, v))
    decreases Fresh(x, s.states), x.rank[v.id] + 1, 0
  {
    NotVoid(x, s.states, s.fin, v.id);
    hide Traverse, Ready, NeedsItself, Follows, Satisfied, Advances, Fresh, InStep, SurelyStrong, IsFunction,
         NamesFunction, KindOf, CyclesPassComposites;
    ReadyTarget(x, s, v, trail);
    TraversePtr(x, s, v);
    var w := Visit(x.types[v.id][2], true);
    TraverseKeeps(x, s, w, trail + [v]);
    var o := Traverse(x, s, w);
    if !o.r.Failed? {
      PtrStep(x, s.states, o.s.states, o.s.fin, v.id);
    }
  }

  lemma KeepsWrapper(x: Dump, s: Progress, v: Visit, trail: seq<Visit>)
    requires Ready(x, s, v, trail) && v.id < |x.types| && |x.types[v.id]| >= BASE
    requires v.id < |s.states| && s.states[v.id] == NOT_ORDERED && IsWrapper(x.types[v.id])
    ensures Shaped(x, s) && Kept(x, s, v, Traverse(x, s, v))
    decreases Fresh(x, s.states), x.rank[v.id] + 1, 0
  {
    hide Traverse, Ready, NeedsItself, Follows, Satisfied, Advances, Fresh, InStep, SurelyStrong, IsFunction,
         NamesFunction, KindOf, CyclesPassComposites;
    ReadyTarget(x, s, v, trail);
    TraverseWrapper(x, s, v);
    var t, p := x.types[v.id], TargetWord(x.types[v.id]);
    var w := Visit(t[p], PtrAfter(t, v.ptr));
    TraverseKeeps(x, s, w, trail + [v]);
    var o := Traverse(x, s, w);
    if !o.r.Failed? {
      TargetSatisfied(x, o.s.fin, v);
      TargetSatisfied(x, o.s.fin, Visit(v.id, false));
    }
  }

  lemma KeepsTypedef(x: Dump, s: Progress, v: Visit, trail: seq<Visit>)
    requires Ready(x, s, v, trail) && v.id < |x.types| && |x.types[v.id]| >= BASE
    requires v.id < |s.states| && s.states[v.id] == NOT_ORDERED && Kind(x.types[v.id]) == BTF_KIND_TYPEDEF
    ensures Shaped(x, s) && Kept(x, s, v, Traverse(x, s, v))
    decreases Fresh(x, s.states), x.rank[v.id] + 1, 0
  {
    hide Traverse, Ready, NeedsItself, Follows, Satisfied, Advances, Fresh, InStep, SurelyStrong, IsFunction,
         NamesFunction, KindOf, CyclesPassComposites;
    ReadyTarget(x, s, v, trail);
    TraverseTypedef(x, s, v);
    var w := Visit(x.types[v.id][2], v.ptr);
    TraverseKeeps(x, s, w, trail + [v]);
    var o := Traverse(x, s, w);
    if o.r.Failed? {
    } else if v.ptr && o.r.Weak? {
      TargetOfTypedef(x, o.s.fin, v.id);
    } else {
      InStepHistory(x, o.s.states, o.s.fin);
      if !v.ptr {
        SatisfiedBehindPtr(x, o.s.fin, w.id);
      }
      TypedefStep(x, s.states, o.s.states, o.s.fin, v.id);
    }
  }

  lemma KeepsOther(x: Dump, s: Progress, v: Visit, trail: seq<Visit>)
    requires Ready(x, s, v, trail) && v.id < |x.types| && |x.types[v.id]| >= BASE
    requires v.id < |s.states| && s.states[v.id] == NOT_ORDERED
    requires var t, k := x.types[v.id], Kind(x.types[v.id]);
             !Composite(t) && !IsWrapper(t) && k != BTF_KIND_PTR && k != BTF_KIND_TYPEDEF && k != BTF_KIND_FUNC_PROTO
    ensures Shaped(x, s) && Kept(x, s, v, Traverse(x, s, v))
  {
    hide Traverse, Ready, NeedsItself, Satisfied, Advances, InStep, SurelyStrong, IsFunction, QueueOf, KindOf,
         CyclesPassComposites;
    OtherStart(x, s, v, trail);
    TraverseOther(x, s, v);
    OtherStep(x, s.states, s.fin, v.id);
  }

  lemma OtherStart(x: Dump, s: Progress, v: Visit, trail: seq<Visit>)
    requires Ready(x, s, v, trail) && v.id < |x.types| && |x.types[v.id]| >= BASE
    requires v.id < |s.states| && s.states[v.id] == NOT_ORDERED
    requires var t, k := x.types[v.id], Kind(x.types[v.id]);
             !Composite(t) && !IsWrapper(t) && k != BTF_KIND_PTR && k != BTF_KIND_TYPEDEF && k != BTF_KIND_FUNC_PROTO
    ensures Shaped(x, s) && InStep(x, s.states, s.fin) && 0 < v.id
    ensures IsEnumOrFwd(Kind(x.types[v.id])) || (IsLeafKind(Kind(x.types[v.id])) && !SurelyStrong(x, v))
  {
    NotVoid(x, s.states, s.fin, v.id);
    KnownKind(x, v.id);
  }

  /** There is no kind that the traversal does not know. */
  lemma KnownKind(x: Dump, i: nat)
    requires x.Valid() && 0 < i < |x.types|
    ensures |x.types[i]| >= BASE
    ensures var t, k := x.types[i], Kind(x.types[i]);
            Composite(t) || IsWrapper(t) || k == BTF_KIND_PTR || k == BTF_KIND_TYPEDEF || k == BTF_KIND_FUNC_PROTO ||
            IsEnumOrFwd(k) || IsLeafKind(k)
  {
    assert WellSized(x.types[i]);
  }

  lemma KeepsComposite(x: Dump, s: Progress, v: Visit, trail: seq<Visit>)
    requires Ready(x, s, v, trail) && v.id < |x.types| && |x.types[v.id]| >= BASE
    requires v.id < |s.states| && s.states[v.id] == NOT_ORDERED
    requires Composite(x.types[v.id]) && !(v.ptr && Named(x.types[v.id]))
    ensures Shaped(x, s) && Kept(x, s, v, Traverse(x, s, v))
    decreases Fresh(x, s.states), x.rank[v.id] + 1, 0
  {
    hide Traverse, TraverseMembers, Underway, Ready, NeedsItself, Satisfied, Advances, Fresh, InStep, SurelyStrong,
         IsFunction, QueueOf, KindOf, VlenOf, CyclesPassComposites, PartsReady, MembersReady;
    CompositeStart(x, s, v, trail);
    TraverseComposite(x, s, v);
    var begun := Progress(s.states[v.id := ORDERING], s.fin);
    MembersKeep(x, begun, v, 0, trail, Fresh(x, s.states));
    var o := TraverseMembers(x, begun, v.id, 0, Fresh(x, s.states));
    if !o.r.Failed? {
      CompositeStep(x, s.states, begun.states, o.s.states, o.s.fin, v.id);
    }
  }

  lemma CompositeStart(x: Dump, s: Progress, v: Visit, trail: seq<Visit>)
    requires Ready(x, s, v, trail) && v.id < |x.types| && |x.types[v.id]| >= BASE
    requires v.id < |s.states| && s.states[v.id] == NOT_ORDERED
    requires Composite(x.types[v.id]) && !(v.ptr && Named(x.types[v.id]))
    ensures Shaped(x, s) && |x.rank| == |x.types| && 0 < v.id && MembersReady(x, s.fin, v.id, 0)
    ensures Underway(x, Progress(s.states[v.id := ORDERING], s.fin), v, trail)
  {
    NotVoid(x, s.states, s.fin, v.id);
    CompositeBegin(x, s.states, s.fin, trail, v);
    MembersStart(x, s.fin, v.id);
  }

  /** The types that `v` refers to are being ordered. */
  ghost predicate Underway(x: Dump, s: Progress, v: Visit, trail: seq<Visit>) {
    && InStep(x, s.states, s.fin) && v.id < |x.types|
    && OnTrail(s.states, trail + [v]) && Trail(x, trail + [v]) && Enters(x, v)
  }

  lemma UnderwayShaped(x: Dump, s: Progress, v: Visit, trail: seq<Visit>)
    requires Underway(x, s, v, trail)
    ensures Shaped(x, s) && v.id < |x.types| == |x.rank| && |x.types[v.id]| >= BASE
    ensures WentOn(x, s, Outcome(Strong, s)) && WentOn(x, s, Outcome(Weak, s))
  {
  }

  lemma UnderwayOn(x: Dump, s: Progress, v: Visit, trail: seq<Visit>, p: nat)
    requires Underway(x, s, v, trail) && p < |x.types[v.id]| && Follows(x.types[v.id], p)
    requires x.types[v.id][p] < |x.types|
    ensures Ready(x, s, Visit(x.types[v.id][p], PtrAfter(x.types[v.id], v.ptr)), trail + [v])
  {
    TrailStep(x, trail, v, p);
  }

  lemma UnderwayKeeps(x: Dump, s: Progress, s': Progress, v: Visit, trail: seq<Visit>)
    requires Underway(x, s, v, trail) && Advances(s.states, s'.states) && InStep(x, s'.states, s'.fin)
    ensures Underway(x, s', v, trail)
  {
    OnTrailKeeps(s.states, s'.states, trail + [v]);
  }

  /** What was gone through after `s`, with this outcome. */
  ghost predicate WentOn(x: Dump, s: Progress, o: Outcome) {
    if o.r.Failed? then o.r == Failed(ELOOP) && exists path :: NeedsItself(x, path)
    else Advances(s.states, o.s.states) && InStep(x, o.s.states, o.s.fin) && s.fin <= o.s.fin
  }

  lemma KeptWentOn(x: Dump, s: Progress, v: Visit, o: Outcome)
    requires x.Valid() && v.id < |x.types| && Kept(x, s, v, o)
    ensures WentOn(x, s, o)
    ensures !o.r.Failed? ==> Satisfied(x, o.s.fin, v) && (SurelyStrong(x, v) ==> o.r.Strong?)
  {
  }

  lemma WentOnTwice(x: Dump, s: Progress, o: Outcome, o': Outcome)
    requires WentOn(x, s, o) && !o.r.Failed? && WentOn(x, o.s, o')
    ensures WentOn(x, s, o')
  {
    AdvancesBoth(s.states, o.s.states, o'.s.states);
  }

  lemma {:induction false} MembersKeep(x: Dump, s: Progress, v: Visit, i: nat, trail: seq<Visit>, fresh0: set<int>)
    requires Underway(x, s, v, trail) && v.id < |x.types| && |x.types[v.id]| >= BASE
    requires Composite(x.types[v.id]) && i <= Vlen(x.types[v.id]) && Shaped(x, s)
    requires MembersReady(x, s.fin, v.id, i) && Fresh(x, s.states) < fresh0
    ensures var o := TraverseMembers(x, s, v.id, i, fresh0);
            WentOn(x, s, o) && (!o.r.Failed? ==> PartsReady(x, o.s.fin, v.id))
    decreases fresh0, 0, Vlen(x.types[v.id]) - i
  {
    hide Traverse, TraverseMembers, Underway, Follows, Satisfied, Advances, Fresh, InStep, NeedsItself, Ready, Kept,
         CyclesPassComposites, KindOf, VlenOf, PartsReady, MembersReady;
    UnderwayShaped(x, s, v, trail);
    if i == Vlen(x.types[v.id]) {
      MembersOver(x, s, v.id, fresh0);
      MembersEnd(x, s.fin, v.id);
    } else {
      MemberFollows(x, v.id, i);
      MembersNext(x, s, v.id, i, fresh0);
      UnderwayOn(x, s, v, trail, BASE + 3 * i + 1);
      var w := Visit(x.types[v.id][BASE + 3 * i + 1], false);
      TraverseKeeps(x, s, w, trail + [v]);
      var o := Traverse(x, s, w);
      KeptWentOn(x, s, w, o);
      if !o.r.Failed? {
        UnderwayKeeps(x, s, o.s, v, trail);
        MembersStep(x, s.fin, o.s.fin, v.id, i);
        MembersKeep(x, o.s, v, i + 1, trail, fresh0);
        WentOnTwice(x, s, o, TraverseMembers(x, o.s, v.id, i + 1, fresh0));
      }
    }
  }

  lemma KeepsProto(x: Dump, s: Progress, v: Visit, trail: seq<Visit>)
    requires Ready(x, s, v, trail) && v.id < |x.types| && |x.types[v.id]| >= BASE
    requires v.id < |s.states| && s.states[v.id] == NOT_ORDERED && Kind(x.types[v.id]) == BTF_KIND_FUNC_PROTO
    ensures Shaped(x, s) && Kept(x, s, v, Traverse(x, s, v))
    decreases Fresh(x, s.states), x.rank[v.id] + 1, 0
  {
    hide Traverse, TraverseParams, Underway, Follows, Satisfied, Advances, Fresh, InStep, NeedsItself, Ready,
         IsFunction, CyclesPassComposites, KindOf, VlenOf, ParamsReady, SurelyStrong;
    ProtoStart(x, s, v, trail);
    ProtoStrong(x, v);
    TraverseProto(x, s, v);
    var w := Visit(x.types[v.id][2], v.ptr);
    UnderwayOn(x, s, v, trail, 2);
    TraverseKeeps(x, s, w, trail + [v]);
    var o := Traverse(x, s, w);
    KeptWentOn(x, s, w, o);
    if !o.r.Failed? {
      UnderwayKeeps(x, s, o.s, v, trail);
      FreshShrinks(x, s.states, o.s.states);
      ParamsStart(x, o.s.fin, v.id, v.ptr);
      ParamsKeep(x, o.s, v, 0, o.r, trail);
      WentOnTwice(x, s, o, TraverseParams(x, o.s, v, 0, o.r));
    }
  }

  lemma ProtoStart(x: Dump, s: Progress, v: Visit, trail: seq<Visit>)
    requires Ready(x, s, v, trail) && v.id < |x.types| && |x.types[v.id]| >= BASE
    requires Kind(x.types[v.id]) == BTF_KIND_FUNC_PROTO
    ensures Shaped(x, s) && |x.rank| == |x.types| && Underway(x, s, v, trail) && IsFunction(x, v.id)
    ensures |x.types[v.id]| > 2 && Follows(x.types[v.id], 2)
  {
    ProtoFollows(x, v.id);
    OnTrailGrows(s.states, trail, v);
  }

  /** A parameter from `i` on has a strong link in any case. */
  ghost predicate StrongParam(x: Dump, v: Visit, i: nat)
    requires x.Valid() && v.id < |x.types| && |x.types[v.id]| >= BASE
  {
    exists j: nat :: i <= j < Vlen(x.types[v.id]) && StrongAt(x, v, BASE + 2 * j + 1)
  }

  ghost predicate StrongAt(x: Dump, v: Visit, p: nat)
    requires x.Valid() && v.id < |x.types|
  {
    p < |x.types[v.id]| && x.types[v.id][p] < |x.types| && SurelyStrong(x, Visit(x.types[v.id][p], v.ptr))
  }

  lemma ProtoStrong(x: Dump, v: Visit)
    requires x.Valid() && v.id < |x.types| && Kind(x.types[v.id]) == BTF_KIND_FUNC_PROTO
    ensures |x.types[v.id]| >= BASE
    ensures SurelyStrong(x, v) ==> StrongAt(x, v, 2) || StrongParam(x, v, 0)
  {
    ProtoFollows(x, v.id);
    if SurelyStrong(x, v) {
      var p := StrongWord(x, v);
      hide SurelyStrong, CyclesPassComposites, KindOf, VlenOf;
      var j := ProtoParam(x.types[v.id], p);
      assert p != 2 ==> StrongAt(x, v, BASE + 2 * j + 1);
    }
  }

  lemma StrongWord(x: Dump, v: Visit) returns (p: nat)
    requires x.Valid() && v.id < |x.types| && Kind(x.types[v.id]) == BTF_KIND_FUNC_PROTO && SurelyStrong(x, v)
    ensures |x.types[v.id]| >= BASE && StrongAt(x, v, p) && Follows(x.types[v.id], p)
  {
    p :| ProtoType(x, v.id, p) && SurelyStrong(x, Visit(x.types[v.id][p], v.ptr));
  }

  /** A word of a function type with a type id holds its return type or the type of a parameter. */
  lemma ProtoParam(r: Record, p: nat) returns (j: nat)
    requires |r| >= BASE && Kind(r) == BTF_KIND_FUNC_PROTO && |r| == BASE + 2 * Vlen(r) && Follows(r, p)
    ensures p == 2 || (j < Vlen(r) && p == BASE + 2 * j + 1)
  {
    j := if p > BASE then (p - BASE - 1) / 2 else 0;
  }

  lemma StrongParamNext(x: Dump, v: Visit, i: nat)
    requires x.Valid() && v.id < |x.types| && |x.types[v.id]| >= BASE
    ensures StrongParam(x, v, i) ==> StrongAt(x, v, BASE + 2 * i + 1) || StrongParam(x, v, i + 1)
    ensures i >= Vlen(x.types[v.id]) ==> !StrongParam(x, v, i)
  {
  }

  lemma {:induction false} ParamsKeep(x: Dump, s: Progress, v: Visit, i: nat, r: Order, trail: seq<Visit>)
    requires Underway(x, s, v, trail) && v.id < |x.types| && |x.types[v.id]| >= BASE && Shaped(x, s)
    requires Kind(x.types[v.id]) == BTF_KIND_FUNC_PROTO && i <= Vlen(x.types[v.id])
    requires ParamsReady(x, s.fin, v.id, v.ptr, i) && !r.Failed?
    ensures var o := TraverseParams(x, s, v, i, r);
            && WentOn(x, s, o)
            && (!o.r.Failed? ==> Satisfied(x, o.s.fin, v) && (r.Strong? || StrongParam(x, v, i) ==> o.r.Strong?))
    decreases Fresh(x, s.states), x.rank[v.id], Vlen(x.types[v.id]) - i + 1
  {
    hide Traverse, TraverseParams, Underway, Follows, Satisfied, Advances, Fresh, InStep, NeedsItself, Ready, Kept,
         CyclesPassComposites, KindOf, VlenOf, ParamsReady, StrongParam, SurelyStrong;
    UnderwayShaped(x, s, v, trail);
    StrongParamNext(x, v, i);
    if i == Vlen(x.types[v.id]) {
      ParamsOver(x, s, v, r);
      assert r == Strong || r == Weak;
      ParamsEnd(x, s.fin, v.id, v.ptr);
    } else {
      ProtoFollows(x, v.id);
      ParamsNext(x, s, v, i, r);
      UnderwayOn(x, s, v, trail, BASE + 2 * i + 1);
      var w := Visit(x.types[v.id][BASE + 2 * i + 1], v.ptr);
      TraverseKeeps(x, s, w, trail + [v]);
      var o := Traverse(x, s, w);
      KeptWentOn(x, s, w, o);
      if !o.r.Failed? {
        UnderwayKeeps(x, s, o.s, v, trail);
        ParamsStep(x, s.fin, o.s.fin, v.id, i, v.ptr);
        ParamsKeep(x, o.s, v, i + 1, Stronger(r, o.r), trail);
        WentOnTwice(x, s, o, TraverseParams(x, o.s, v, i + 1, Stronger(r, o.r)));
      }
    }
  }

  // ---------------------------------------------------------------------------
  // What is queued only once

  /** The structs, unions and typedefs on the trail have not been ordered yet. */
  ghost predicate Open(x: Dump, s: Progress, trail: seq<Visit>) {
    && Shaped(x, s)
    && forall k :: 0 <= k < |trail| ==>
         && trail[k].id < |x.types| && |x.types[trail[k].id]| >= BASE
         && (Composite(x.types[trail[k].id]) ==> s.states[trail[k].id] == ORDERING)
         && (Kind(x.types[trail[k].id]) == BTF_KIND_TYPEDEF ==> trail[k].id !in s.fin)
  }

  /** No typedef has been ordered twice, and none on the trail at all. */
  ghost predicate Single(x: Dump, s: Progress, trail: seq<Visit>) {
    Open(x, s, trail) && TypedefsOnce(x, s.fin)
  }

  lemma SingleShorter(x: Dump, s: Progress, trail: seq<Visit>, v: Visit)
    requires Single(x, s, trail + [v])
    ensures Single(x, s, trail)
  {
    forall k | 0 <= k < |trail|
      ensures trail[k] == (trail + [v])[k]
    {
    }
  }

  lemma SingleLonger(x: Dump, s: Progress, trail: seq<Visit>, v: Visit)
    requires Single(x, s, trail) && v.id < |x.types| && |x.types[v.id]| >= BASE
    requires Composite(x.types[v.id]) ==> s.states[v.id] == ORDERING
    requires Kind(x.types[v.id]) == BTF_KIND_TYPEDEF ==> v.id !in s.fin
    ensures Single(x, s, trail + [v])
  {
  }

  /** A struct or union that is not on the trail gets under way. */
  lemma SingleBegin(x: Dump, s: Progress, trail: seq<Visit>, v: Visit)
    requires Single(x, s, trail) && v.id < |x.types| && |x.types[v.id]| >= BASE
    requires Composite(x.types[v.id]) && s.states[v.id] == NOT_ORDERED
    ensures Single(x, Progress(s.states[v.id := ORDERING], s.fin), trail + [v])
  {
    SingleLonger(x, Progress(s.states[v.id := ORDERING], s.fin), trail, v);
  }

  /** A type that is not on the trail, or defines nothing, gets ordered. */
  lemma SingleFinish(x: Dump, s: Progress, trail: seq<Visit>, id: nat)
    requires Single(x, s, trail) && id < |x.types| && |x.types[id]| >= BASE
    requires Defines(x.types[id]) ==> forall k :: 0 <= k < |trail| ==> trail[k].id != id
    requires Kind(x.types[id]) == BTF_KIND_TYPEDEF ==> id !in s.fin
    ensures Single(x, Finish(s, id), trail)
  {
  }

  /** Without a struct or union on the way, ranks fall. */
  lemma {:induction false} RankFalls(x: Dump, path: seq<Visit>)
    requires Trail(x, path) && |path| >= 2 && x.Valid()
    requires forall k :: 0 <= k < |path| - 1 ==> path[k].id < |x.types| && !Composite(x.types[path[k].id])
    ensures path[0].id < |x.rank| && path[|path| - 1].id < |x.rank|
    ensures x.rank[path[|path| - 1].id] < x.rank[path[0].id]
  {
    assert Leads(x, path[0], path[1]);
    LeadsDown(x, path[0], path[1]);
    if |path| > 2 {
      hide Leads, Enters, CyclesPassComposites;
      var rest := path[1..];
      assert Trail(x, rest) by {
        forall k | 0 <= k < |rest| - 1
          ensures Enters(x, rest[k]) && Leads(x, rest[k], rest[k + 1])
        {
          assert rest[k] == path[k + 1] && rest[k + 1] == path[k + 2];
        }
      }
      RankFalls(x, rest);
    }
  }

  lemma LeadsDown(x: Dump, v: Visit, w: Visit)
    requires Leads(x, v, w) && |x.types[v.id]| >= BASE && !Composite(x.types[v.id])
    ensures v.id < |x.rank| && w.id < |x.rank| && x.rank[w.id] < x.rank[v.id]
  {
  }

  /** The first struct, union, or typedef used directly, on a trail after its start. */
  lemma FirstStop(x: Dump, path: seq<Visit>) returns (i: nat)
    requires Trail(x, path) && |path| >= 2 && x.Valid()
    requires forall k :: 0 <= k < |path| ==> path[k].id < |x.types|
    requires path[0].id == path[|path| - 1].id && !Composite(x.types[path[0].id])
    ensures 1 <= i < |path| - 1 && Stops(x, path[i])
    ensures forall k :: 1 <= k < i ==> !Stops(x, path[k])
  {
    if forall k :: 0 <= k < |path| - 1 ==> !Composite(x.types[path[k].id]) {
      RankFalls(x, path);
      assert false;
    }
    hide Trail, CyclesPassComposites;
    var j :| 0 <= j < |path| - 1 && Composite(x.types[path[j].id]);
    i := 1;
    while !Stops(x, path[i])
      invariant 1 <= i <= j
      invariant forall k :: 1 <= k < i ==> !Stops(x, path[k])
      decreases j - i
    {
      i := i + 1;
    }
  }

  ghost predicate Stops(x: Dump, v: Visit) {
    && x.Valid() && v.id < |x.types|
    && (Composite(x.types[v.id]) || (Kind(x.types[v.id]) == BTF_KIND_TYPEDEF && !v.ptr))
  }

  lemma StopsRequired(x: Dump, v: Visit)
    requires Stops(x, v) && Enters(x, v)
    ensures Required(x, v)
  {
  }

  lemma SubTrail(x: Dump, path: seq<Visit>, a: nat, b: nat)
    requires Trail(x, path) && a < b <= |path|
    ensures Trail(x, path[a..b])
    ensures forall k :: a <= k < b - 1 ==> Enters(x, path[k])
  {
    hide Enters, Leads;
    forall k | 0 <= k < b - a - 1
      ensures Enters(x, path[a..b][k]) && Leads(x, path[a..b][k], path[a..b][k + 1])
    {
      assert path[a..b][k] == path[a + k] && path[a..b][k + 1] == path[a + k + 1];
    }
  }

  lemma TypedefLeads(x: Dump, v: Visit, w: Visit)
    requires Leads(x, v, w) && |x.types[v.id]| >= BASE && Kind(x.types[v.id]) == BTF_KIND_TYPEDEF
    ensures |x.types[v.id]| > 2 && w == Visit(x.types[v.id][2], v.ptr)
  {
  }

  lemma FirstLeads(x: Dump, path: seq<Visit>)
    requires Trail(x, path) && |path| >= 2 && path[0].id < |x.types| && |x.types[path[0].id]| >= BASE
    requires Kind(x.types[path[0].id]) == BTF_KIND_TYPEDEF
    ensures |x.types[path[0].id]| > 2 && path[1] == Visit(x.types[path[0].id][2], path[0].ptr)
  {
    assert Leads(x, path[0], path[1]);
    TypedefLeads(x, path[0], path[1]);
  }

  /** On the way from a typedef back to it, something that is not ordered would have to be. */
  lemma StopOrdered(x: Dump, fin: seq<nat>, path: seq<Visit>) returns (i: nat)
    requires History(x, fin) && Trail(x, path) && |path| >= 2
    requires forall k :: 0 <= k < |path| ==> path[k].id < |x.types|
    requires path[0].id == path[|path| - 1].id && Kind(x.types[path[0].id]) == BTF_KIND_TYPEDEF
    requires Satisfied(x, fin, path[1])
    ensures 1 <= i < |path| - 1 && path[i].id in fin && Stops(x, path[i])
  {
    i := FirstStop(x, path);
    var link := path[1..i + 1];
    SubTrail(x, path, 1, |path|);
    SubTrail(x, path, 1, i + 1);
    StopsRequired(x, path[i]);
    assert StrongLink(x, link) by {
      forall k | 0 <= k < |link| - 1
        ensures !FunctionUsed(x, link[k])
      {
        assert !Stops(x, path[k + 1]);
      }
    }
    hide Trail, StrongLink, Required, Satisfied, Stops;
    assert fin[..|fin|] == fin;
    LinkOrdered(x, fin, |fin|, link);
  }

  /** A typedef about to be ordered is not on the trail: its own first use would not have got here. */
  lemma TypedefNotOnTrail(x: Dump, s: Progress, v: Visit, trail: seq<Visit>)
    requires InStep(x, s.states, s.fin) && Trail(x, trail + [v]) && Open(x, s, trail + [v]) && NoFunctionLoop(x)
    requires v.id < |x.types| && |x.types[v.id]| > 2 && Kind(x.types[v.id]) == BTF_KIND_TYPEDEF
    requires Satisfied(x, s.fin, Visit(x.types[v.id][2], v.ptr))
    requires !NamesFunction(x, v.id) ==> Satisfied(x, s.fin, Visit(x.types[v.id][2], false))
    ensures forall k :: 0 <= k < |trail| ==> trail[k].id != v.id
  {
    InStepHistory(x, s.states, s.fin);
    forall k | 0 <= k < |trail|
      ensures trail[k].id != v.id
    {
      if trail[k].id == v.id {
        var path := (trail + [v])[k..|trail| + 1];
        SubTrail(x, trail + [v], k, |trail| + 1);
        FirstLeads(x, path);
        assert forall j :: 0 <= j < |path| ==> path[j] == (trail + [v])[k + j];
        assert !FunctionLoop(x, path);
        hide Satisfied, Trail, History, NamesFunction;
        if path[0].ptr && !v.ptr {
          SatisfiedBehindPtr(x, s.fin, path[1].id);
        }
        var i := StopOrdered(x, s.fin, path);
        assert false;
      }
    }
  }

  /** A traversal that goes through orders no typedef twice, unless one of a function type leads to itself. */
  lemma {:induction false} TraverseOnce(x: Dump, s: Progress, v: Visit, trail: seq<Visit>)
    requires Ready(x, s, v, trail) && Single(x, s, trail) && NoFunctionLoop(x)
    ensures Shaped(x, s) && var o := Traverse(x, s, v); !o.r.Failed? ==> Single(x, o.s, trail)
    decreases Fresh(x, s.states), x.rank[v.id] + 1, 1
  {
    ReadyShaped(x, s, v, trail);
    var t, k := x.types[v.id], Kind(x.types[v.id]);
    hide Ready, Single, Traverse, Fresh, KindOf, Dump.Valid, CyclesPassComposites, NoFunctionLoop;
    if s.states[v.id] != NOT_ORDERED || (Composite(t) && Named(t) && v.ptr) {
      TraverseAtOnce(x, s, v);
    } else if Composite(t) {
      OnceComposite(x, s, v, trail);
    } else if IsWrapper(t) || k == BTF_KIND_PTR {
      OnceTarget(x, s, v, trail);
    } else if k == BTF_KIND_TYPEDEF {
      OnceTypedef(x, s, v, trail);
    } else if k == BTF_KIND_FUNC_PROTO {
      OnceProto(x, s, v, trail);
    } else {
      TraverseOther(x, s, v);
      SingleFinish(x, s, trail, v.id);
    }
  }

  lemma OnceTarget(x: Dump, s: Progress, v: Visit, trail: seq<Visit>)
    requires Ready(x, s, v, trail) && Single(x, s, trail) && NoFunctionLoop(x)
    requires v.id < |x.types| && |x.types[v.id]| >= BASE && v.id < |s.states| && s.states[v.id] == NOT_ORDERED
    requires IsWrapper(x.types[v.id]) || Kind(x.types[v.id]) == BTF_KIND_PTR
    ensures Shaped(x, s) && var o := Traverse(x, s, v); !o.r.Failed? ==> Single(x, o.s, trail)
    decreases Fresh(x, s.states), x.rank[v.id] + 1, 0
  {
    hide Traverse, Ready, Single, Fresh, SurelyStrong, IsFunction, NamesFunction, KindOf, CyclesPassComposites,
         NoFunctionLoop;
    ReadyTarget(x, s, v, trail);
    var t, p := x.types[v.id], TargetWord(x.types[v.id]);
    var w := Visit(t[p], PtrAfter(t, v.ptr));
    SingleLonger(x, s, trail, v);
    TraverseOnce(x, s, w, trail + [v]);
    var o := Traverse(x, s, w);
    if Kind(t) == BTF_KIND_PTR {
      TraversePtr(x, s, v);
    } else {
      TraverseWrapper(x, s, v);
    }
    if !o.r.Failed? {
      SingleShorter(x, o.s, trail, v);
      SingleFinish(x, o.s, trail, v.id);
    }
  }

  lemma ReadyTrail(x: Dump, s: Progress, v: Visit, trail: seq<Visit>)
    requires Ready(x, s, v, trail)
    ensures Trail(x, trail + [v])
  {
  }

  lemma OnceTypedef(x: Dump, s: Progress, v: Visit, trail: seq<Visit>)
    requires Ready(x, s, v, trail) && Single(x, s, trail) && NoFunctionLoop(x)
    requires v.id < |x.types| && |x.types[v.id]| >= BASE && v.id < |s.states| && s.states[v.id] == NOT_ORDERED
    requires Kind(x.types[v.id]) == BTF_KIND_TYPEDEF
    ensures Shaped(x, s) && var o := Traverse(x, s, v); !o.r.Failed? ==> Single(x, o.s, trail)
    decreases Fresh(x, s.states), x.rank[v.id] + 1, 0
  {
    assert v.id !in s.fin;
    hide Traverse, Ready, Single, Fresh, SurelyStrong, IsFunction, NamesFunction, KindOf, CyclesPassComposites,
         NoFunctionLoop, InStep, Satisfied;
    ReadyTarget(x, s, v, trail);
    TraverseTypedef(x, s, v);
    var w := Visit(x.types[v.id][2], v.ptr);
    SingleLonger(x, s, trail, v);
    TraverseOnce(x, s, w, trail + [v]);
    TraverseKeeps(x, s, w, trail + [v]);
    var o := Traverse(x, s, w);
    if !o.r.Failed? {
      SingleShorter(x, o.s, trail, v);
      if !(v.ptr && o.r.Weak?) {
        assert v.id !in o.s.fin by {
          assert (trail + [v])[|trail|] == v;
          assert Open(x, o.s, trail + [v]);
        }
        ReadyTrail(x, s, v, trail);
        TypedefNotOnTrail(x, o.s, v, trail);
        SingleFinish(x, o.s, trail, v.id);
      }
    }
  }

  lemma OnceComposite(x: Dump, s: Progress, v: Visit, trail: seq<Visit>)
    requires Ready(x, s, v, trail) && Single(x, s, trail) && NoFunctionLoop(x)
    requires v.id < |x.types| && |x.types[v.id]| >= BASE && v.id < |s.states| && s.states[v.id] == NOT_ORDERED
    requires Composite(x.types[v.id]) && !(v.ptr && Named(x.types[v.id]))
    ensures Shaped(x, s) && var o := Traverse(x, s, v); !o.r.Failed? ==> Single(x, o.s, trail)
    decreases Fresh(x, s.states), x.rank[v.id] + 1, 0
  {
    hide Traverse, TraverseMembers, Ready, Single, Fresh, Underway, KindOf, CyclesPassComposites, NoFunctionLoop;
    hide VlenOf;
    CompositeStart(x, s, v, trail);
    NotUnderway(x, s, v, trail);
    TraverseComposite(x, s, v);
    var begun := Progress(s.states[v.id := ORDERING], s.fin);
    SingleBegin(x, s, trail, v);
    MembersOnce(x, begun, v, 0, trail, Fresh(x, s.states));
    var o := TraverseMembers(x, begun, v.id, 0, Fresh(x, s.states));
    if !o.r.Failed? {
      SingleShorter(x, o.s, trail, v);
      SingleFinish(x, o.s, trail, v.id);
    }
  }

  lemma NotUnderway(x: Dump, s: Progress, v: Visit, trail: seq<Visit>)
    requires Single(x, s, trail) && v.id < |x.types| && |x.types[v.id]| >= BASE
    requires Composite(x.types[v.id]) && s.states[v.id] == NOT_ORDERED
    ensures forall k :: 0 <= k < |trail| ==> trail[k].id != v.id
  {
  }

  lemma {:induction false} MembersOnce(x: Dump, s: Progress, v: Visit, i: nat, trail: seq<Visit>, fresh0: set<int>)
    requires Underway(x, s, v, trail) && v.id < |x.types| && |x.types[v.id]| >= BASE && NoFunctionLoop(x)
    requires Composite(x.types[v.id]) && i <= Vlen(x.types[v.id]) && Shaped(x, s) && Single(x, s, trail + [v])
    requires Fresh(x, s.states) < fresh0
    ensures var o := TraverseMembers(x, s, v.id, i, fresh0); !o.r.Failed? ==> Single(x, o.s, trail + [v])
    decreases fresh0, 0, Vlen(x.types[v.id]) - i
  {
    hide Traverse, TraverseMembers, Underway, Follows, Advances, Fresh, NeedsItself, Ready, Kept, Single,
         CyclesPassComposites, KindOf, VlenOf, NoFunctionLoop, InStep;
    UnderwayShaped(x, s, v, trail);
    if i == Vlen(x.types[v.id]) {
      MembersOver(x, s, v.id, fresh0);
    } else {
      MemberFollows(x, v.id, i);
      MembersNext(x, s, v.id, i, fresh0);
      UnderwayOn(x, s, v, trail, BASE + 3 * i + 1);
      var w := Visit(x.types[v.id][BASE + 3 * i + 1], false);
      TraverseKeeps(x, s, w, trail + [v]);
      TraverseOnce(x, s, w, trail + [v]);
      var o := Traverse(x, s, w);
      KeptWentOn(x, s, w, o);
      if !o.r.Failed? {
        UnderwayKeeps(x, s, o.s, v, trail);
        MembersOnce(x, o.s, v, i + 1, trail, fresh0);
      }
    }
  }

  lemma OnceProto(x: Dump, s: Progress, v: Visit, trail: seq<Visit>)
    requires Ready(x, s, v, trail) && Single(x, s, trail) && NoFunctionLoop(x)
    requires v.id < |x.types| && |x.types[v.id]| >= BASE && v.id < |s.states| && s.states[v.id] == NOT_ORDERED
    requires Kind(x.types[v.id]) == BTF_KIND_FUNC_PROTO
    ensures Shaped(x, s) && var o := Traverse(x, s, v); !o.r.Failed? ==> Single(x, o.s, trail)
    decreases Fresh(x, s.states), x.rank[v.id] + 1, 0
  {
    ProtoStart(x, s, v, trail);
    hide Traverse, TraverseParams, Underway, Follows, Fresh, InStep, NeedsItself, Ready, Single, NoFunctionLoop, Kept,
         CyclesPassComposites, KindOf, VlenOf, Advances;
    TraverseProto(x, s, v);
    SingleLonger(x, s, trail, v);
    var w := Visit(x.types[v.id][2], v.ptr);
    UnderwayOn(x, s, v, trail, 2);
    TraverseKeeps(x, s, w, trail + [v]);
    TraverseOnce(x, s, w, trail + [v]);
    var o := Traverse(x, s, w);
    KeptWentOn(x, s, w, o);
    if !o.r.Failed? {
      UnderwayKeeps(x, s, o.s, v, trail);
      FreshShrinks(x, s.states, o.s.states);
      ParamsOnce(x, o.s, v, 0, o.r, trail);
      var o' := TraverseParams(x, o.s, v, 0, o.r);
      if !o'.r.Failed? {
        SingleShorter(x, o'.s, trail, v);
      }
    }
  }

  lemma {:induction false} ParamsOnce(x: Dump, s: Progress, v: Visit, i: nat, r: Order, trail: seq<Visit>)
    requires Underway(x, s, v, trail) && v.id < |x.types| && |x.types[v.id]| >= BASE && Shaped(x, s)
    requires Kind(x.types[v.id]) == BTF_KIND_FUNC_PROTO && i <= Vlen(x.types[v.id])
    requires Single(x, s, trail + [v]) && NoFunctionLoop(x)
    ensures var o := TraverseParams(x, s, v, i, r); !o.r.Failed? ==> Single(x, o.s, trail + [v])
    decreases Fresh(x, s.states), x.rank[v.id], Vlen(x.types[v.id]) - i + 1
  {
    hide Traverse, TraverseParams, Underway, Follows, Advances, Fresh, InStep, NeedsItself, Ready, Kept, Single,
         CyclesPassComposites, KindOf, VlenOf, NoFunctionLoop;
    UnderwayShaped(x, s, v, trail);
    if i == Vlen(x.types[v.id]) {
      ParamsOver(x, s, v, r);
    } else {
      ProtoFollows(x, v.id);
      ParamsNext(x, s, v, i, r);
      UnderwayOn(x, s, v, trail, BASE + 2 * i + 1);
      var w := Visit(x.types[v.id][BASE + 2 * i + 1], v.ptr);
      TraverseKeeps(x, s, w, trail + [v]);
      TraverseOnce(x, s, w, trail + [v]);
      var o := Traverse(x, s, w);
      KeptWentOn(x, s, w, o);
      if !o.r.Failed? {
        UnderwayKeeps(x, s, o.s, v, trail);
        ParamsOnce(x, o.s, v, i + 1, Stronger(r, o.r), trail);
      }
    }
  }

  /** A fresh dumper: only void is ordered. */
  ghost function Start(x: Dump): (s: Progress)
    ensures |s.states| == |x.types|
  {
    Progress(seq(|x.types|, i => if i == 0 then ORDERED else NOT_ORDERED), [])
  }

  /**
   * A typedef of a function type that is queued twice:
   *   typedef struct S T(enum E);  struct S { T *member; };
   * ordering T goes through S, whose member orders T behind a pointer.
   */
  ghost predicate Looping(x: Dump) {
    && x.types == [[0, 0, 0], [1, 0x800_0000, 2], [0, 0xd00_0001, 3, 0, 4], [2, 0x400_0001, 8, 3, 5, 0],
                   [4, 0x600_0000, 4], [0, 0x200_0000, 1]]
    && |x.referenced| == 6 && x.rank == [0, 2, 1, 0, 0, 3]
  }

  lemma LoopingKinds(x: Dump)
    requires Looping(x)
    ensures x.Valid() && |x.types| == |x.referenced| == 6 && forall i :: 0 <= i < 6 ==> |x.types[i]| >= BASE
    ensures Kind(x.types[1]) == BTF_KIND_TYPEDEF && Kind(x.types[2]) == BTF_KIND_FUNC_PROTO && Vlen(x.types[2]) == 1
    ensures Kind(x.types[3]) == BTF_KIND_STRUCT && Vlen(x.types[3]) == 1
    ensures Kind(x.types[4]) == BTF_KIND_ENUM && Kind(x.types[5]) == BTF_KIND_PTR
  {
    LoopingSized(x);
    LoopingFalls(x);
    LoopingRefs(x);
    hide WellSized, Follows, RefsBelow;
  }

  lemma LoopingRefs(x: Dump)
    requires Looping(x)
    ensures forall i :: 0 <= i < 6 ==> RefsBelow(x.types[i], 6)
  {
  }

  lemma LoopingSized(x: Dump)
    requires Looping(x)
    ensures forall i :: 1 <= i < 6 ==> WellSized(x.types[i])
  {
  }

  lemma LoopingFalls(x: Dump)
    requires Looping(x)
    ensures forall i, p :: 0 <= i < 6 && 0 <= p < |x.types[i]| && !Composite(x.types[i]) && Follows(x.types[i], p) ==>
              x.types[i][p] < 6 && x.rank[x.types[i][p]] < x.rank[i]
  {
  }

  /** While S is under way, T is ordered behind a pointer. */
  lemma LoopingInside(x: Dump, s: Progress)
    requires Looping(x) && Shaped(x, s) && s.states == Start(x).states[3 := ORDERING]
    ensures Traverse(x, s, Visit(5, false)) == Outcome(Strong, Finish(Finish(Finish(s, 4), 1), 5))
  {
    LoopingKinds(x);
    hide Looping, Traverse, TraverseParams, KindOf, VlenOf, CyclesPassComposites;
    TraverseOther(x, s, Visit(4, true));
    TraverseAtOnce(x, s, Visit(3, true));
    TraverseProto(x, s, Visit(2, true));
    ParamsNext(x, s, Visit(2, true), 0, Weak);
    ParamsOver(x, Finish(s, 4), Visit(2, true), Strong);
    TraverseTypedef(x, s, Visit(1, true));
    TraversePtr(x, s, Visit(5, false));
  }

  lemma TypedefQueuedTwice(x: Dump)
    requires Looping(x)
    ensures x.Valid()
    ensures var o := Traverse(x, Start(x), Visit(1, false)); o.r == Strong && QueueOf(x, o.s.fin) == [4, 1, 3, 1]
  {
    LoopingKinds(x);
    var s := Start(x);
    var begun := Progress(s.states[3 := ORDERING], []);
    LoopingInside(x, begun);
    var a3 := Finish(Finish(Finish(begun, 4), 1), 5);
    var a4 := Finish(a3, 3);
    LoopingQueue(x);
    hide Traverse, TraverseParams, TraverseMembers, KindOf, VlenOf, CyclesPassComposites, QueueOf, Fresh;
    TraverseComposite(x, s, Visit(3, false));
    MembersNext(x, begun, 3, 0, Fresh(x, s.states));
    MembersOver(x, a3, 3, Fresh(x, s.states));
    TraverseAtOnce(x, a4, Visit(4, false));
    TraverseProto(x, s, Visit(2, false));
    ParamsNext(x, a4, Visit(2, false), 0, Strong);
    ParamsOver(x, a4, Visit(2, false), Strong);
    TraverseTypedef(x, s, Visit(1, false));
    assert Finish(a4, 1).fin == [4, 1, 5, 3, 1];
  }

  lemma LoopingQueue(x: Dump)
    requires Looping(x)
    ensures x.Valid() && QueueOf(x, [4, 1, 5, 3, 1]) == [4, 1, 3, 1]
  {
    LoopingKinds(x);
    LoopingQueued(x);
    assert QueueOf(x, []) == [];
    hide Looping, CyclesPassComposites, KindOf, QueueOf, Queued;
    LoopingOrder();
    QueueNext(x, [], 4, [], [4]);
    QueueNext(x, [4], 1, [4], [4, 1]);
    QueueNext(x, [4, 1], 5, [4, 1], [4, 1]);
    QueueNext(x, [4, 1, 5], 3, [4, 1], [4, 1, 3]);
    QueueNext(x, [4, 1, 5, 3], 1, [4, 1, 3], [4, 1, 3, 1]);
  }

  lemma LoopingOrder()
    ensures [] + [4] == [4] && [4] + [1] == [4, 1] && [4, 1] + [5] == [4, 1, 5] && [4, 1] + [3] == [4, 1, 3]
    ensures [4, 1, 5] + [3] == [4, 1, 5, 3] && [4, 1, 3] + [1] == [4, 1, 3, 1]
    ensures [4, 1, 5, 3] + [1] == [4, 1, 5, 3, 1]
  {
  }

  lemma LoopingQueued(x: Dump)
    requires Looping(x)
    ensures forall b :: Queued(x.types[1], b) && Queued(x.types[3], b) && Queued(x.types[4], b)
    ensures forall b :: !Queued(x.types[5], b)
  {
  }

  /** The queue `q` grows to `q'` when `i` gets ordered. */
  lemma QueueNext(x: Dump, fin: seq<nat>, i: nat, q: seq<nat>, q': seq<nat>)
    requires x.Valid() && i < |x.types| == |x.referenced| && |x.types[i]| >= BASE && QueueOf(x, fin) == q
    requires q' == if Queued(x.types[i], x.referenced[i]) then q + [i] else q
    ensures QueueOf(x, fin + [i]) == q'
  {
    hide Queued, CyclesPassComposites, QueueOf;
    QueueAdd(x, fin, i);
  }

  /** typedef struct S T(); struct S { T *member; }: a loop of the same kind, but a weak one. */
  ghost predicate Weakly(x: Dump) {
    && x.types == [[0, 0, 0], [1, 0x800_0000, 2], [0, 0xd00_0000, 3], [2, 0x400_0001, 8, 3, 4, 0],
                   [0, 0x200_0000, 1]]
    && |x.referenced| == 5 && x.rank == [0, 2, 1, 0, 3]
  }

  lemma WeaklyKinds(x: Dump)
    requires Weakly(x)
    ensures x.Valid() && |x.types| == |x.referenced| == 5 && forall i :: 0 <= i < 5 ==> |x.types[i]| >= BASE
    ensures Kind(x.types[1]) == BTF_KIND_TYPEDEF && Kind(x.types[2]) == BTF_KIND_FUNC_PROTO && Vlen(x.types[2]) == 0
    ensures Kind(x.types[3]) == BTF_KIND_STRUCT && Vlen(x.types[3]) == 1 && Kind(x.types[4]) == BTF_KIND_PTR
  {
    WeaklySized(x);
    WeaklyFalls(x);
    hide WellSized, Follows, RefsBelow;
  }

  lemma WeaklySized(x: Dump)
    requires Weakly(x)
    ensures forall i :: 1 <= i < 5 ==> WellSized(x.types[i])
    ensures forall i :: 0 <= i < 5 ==> RefsBelow(x.types[i], 5)
  {
  }

  lemma WeaklyFalls(x: Dump)
    requires Weakly(x)
    ensures forall i, p :: 0 <= i < 5 && 0 <= p < |x.types[i]| && !Composite(x.types[i]) && Follows(x.types[i], p) ==>
              x.types[i][p] < 5 && x.rank[x.types[i][p]] < x.rank[i]
  {
  }

  lemma WeakPath(x: Dump) returns (path: seq<Visit>)
    requires Weakly(x)
    ensures FunctionLoop(x, path)
  {
    WeaklyKinds(x);
    WeaklyFollows(x);
    path := [Visit(1, false), Visit(2, false), Visit(3, false), Visit(4, false), Visit(1, true)];
    assert IsFunction(x, 2);
    hide CyclesPassComposites, KindOf, Follows;
    assert Leads(x, path[0], path[1]) && Leads(x, path[1], path[2]) && Leads(x, path[2], path[3]);
    assert Leads(x, path[3], path[4]);
  }

  lemma WeaklyFollows(x: Dump)
    requires Weakly(x)
    ensures Follows(x.types[1], 2) && Follows(x.types[2], 2) && Follows(x.types[3], 4) && Follows(x.types[4], 2)
  {
  }

  /** While S is under way, T is met behind a pointer, and the link is weak. */
  lemma WeaklyInside(x: Dump, s: Progress)
    requires Weakly(x) && Shaped(x, s) && s.states == Start(x).states[3 := ORDERING]
    ensures Traverse(x, s, Visit(4, false)) == Outcome(Weak, Finish(s, 4))
  {
    WeaklyKinds(x);
    hide Weakly, Traverse, TraverseParams, KindOf, VlenOf, CyclesPassComposites;
    TraverseAtOnce(x, s, Visit(3, true));
    TraverseProto(x, s, Visit(2, true));
    ParamsOver(x, s, Visit(2, true), Weak);
    TraverseTypedef(x, s, Visit(1, true));
    TraversePtr(x, s, Visit(4, false));
  }

  lemma WeaklyStruct(x: Dump)
    requires Weakly(x) && x.Valid()
    ensures var begun := Progress(Start(x).states[3 := ORDERING], []);
            Traverse(x, Start(x), Visit(3, false)) == Outcome(Strong, Finish(Finish(begun, 4), 3))
  {
    WeaklyKinds(x);
    var s := Start(x);
    var begun := Progress(s.states[3 := ORDERING], []);
    WeaklyInside(x, begun);
    hide Traverse, TraverseMembers, KindOf, VlenOf, CyclesPassComposites, Fresh;
    TraverseComposite(x, s, Visit(3, false));
    MembersNext(x, begun, 3, 0, Fresh(x, s.states));
    MembersOver(x, Finish(begun, 4), 3, Fresh(x, s.states));
  }

  /** So a loop alone does not make the dumper queue a typedef twice: the queue here is S, then T. */
  lemma LoopMayBeQuiet(x: Dump)
    requires Weakly(x)
    ensures x.Valid() && exists path :: FunctionLoop(x, path)
    ensures var o := Traverse(x, Start(x), Visit(1, false)); o.r == Strong && QueueOf(x, o.s.fin) == [3, 1]
  {
    WeaklyKinds(x);
    var path := WeakPath(x);
    var s := Start(x);
    var a4 := Finish(Finish(Progress(s.states[3 := ORDERING], []), 4), 3);
    WeaklyStruct(x);
    WeaklyQueue(x);
    hide Traverse, TraverseParams, KindOf, VlenOf, CyclesPassComposites, QueueOf, FunctionLoop;
    TraverseProto(x, s, Visit(2, false));
    ParamsOver(x, a4, Visit(2, false), Strong);
    TraverseTypedef(x, s, Visit(1, false));
    assert Finish(a4, 1).fin == [4, 3, 1];
  }

  lemma WeaklyQueue(x: Dump)
    requires Weakly(x)
    ensures x.Valid() && QueueOf(x, [4, 3, 1]) == [3, 1]
  {
    WeaklyKinds(x);
    WeaklyQueued(x);
    assert QueueOf(x, []) == [];
    hide Weakly, CyclesPassComposites, KindOf, QueueOf, Queued;
    assert [4, 3] + [1] == [4, 3, 1] && [4] + [3] == [4, 3] && [] + [4] == [4];
    QueueNext(x, [], 4, [], []);
    QueueNext(x, [4], 3, [], [3]);
    QueueNext(x, [4, 3], 1, [3], [3, 1]);
  }

  lemma WeaklyQueued(x: Dump)
    requires Weakly(x)
    ensures forall b :: Queued(x.types[1], b) && Queued(x.types[3], b) && !Queued(x.types[4], b)
  {
  }

  /** Requests made one after the other; the first that fails ends them. */
  ghost function Requests(x: Dump, s: Progress, ids: seq<nat>): (o: Outcome)
    requires Shaped(x, s) && forall k :: 0 <= k < |ids| ==> ids[k] < |x.types|
    ensures |o.s.states| == |x.types|
    decreases |ids|
  {
    if ids == [] then Outcome(Weak, s)
    else
      var o := Traverse(x, s, Visit(ids[0], false));
      if o.r.Failed? then o else Requests(x, o.s, ids[1..])
  }

  /**
   * The other way round: a typedef of a function type with such a loop, without another one used directly
   * on it, is ordered twice whenever it is first met directly, if the link to it is strong in any case;
   * that is so if the function returns void, say, or takes an enum.
   */
  lemma LoopOrdersTwice(x: Dump, s: Progress, v: Visit, trail: seq<Visit>, path: seq<Visit>)
    requires Ready(x, s, v, trail) && v.id < |s.states| && s.states[v.id] == NOT_ORDERED
    requires FunctionLoop(x, path) && path[0] == v && SurelyStrong(x, Visit(v.id, true))
    requires forall k :: 1 <= k < |path| - 1 ==> !FunctionUsed(x, path[k])
    ensures Shaped(x, s)
    ensures var o := Traverse(x, s, v);
            !o.r.Failed? ==> o.s.fin != [] && o.s.fin[|o.s.fin| - 1] == v.id && v.id in o.s.fin[..|o.s.fin| - 1]
  {
    ReadyShaped(x, s, v, trail);
    hide Traverse, Ready, NeedsItself, Satisfied, Advances, Fresh, InStep, SurelyStrong, IsFunction, KindOf,
         CyclesPassComposites;
    ReadyTarget(x, s, v, trail);
    TraverseTypedef(x, s, v);
    var w := Visit(x.types[v.id][2], false);
    TraverseKeeps(x, s, w, trail + [v]);
    var o := Traverse(x, s, w);
    if !o.r.Failed? {
      InStepHistory(x, o.s.states, o.s.fin);
      LoopLeads(x, path);
      LoopLink(x, path);
      assert o.s.fin[..|o.s.fin|] == o.s.fin;
      LinkOrdered(x, o.s.fin, |o.s.fin|, path[1..]);
    }
  }

  lemma LoopLeads(x: Dump, path: seq<Visit>)
    requires FunctionLoop(x, path)
    ensures x.Valid() && path[0].id < |x.types| && Kind(x.types[path[0].id]) == BTF_KIND_TYPEDEF && !path[0].ptr
    ensures |x.types[path[0].id]| > 2 && path[1] == Visit(x.types[path[0].id][2], false)
  {
    assert Leads(x, path[0], path[1]);
    TypedefLeads(x, path[0], path[1]);
  }

  lemma LoopLink(x: Dump, path: seq<Visit>)
    requires FunctionLoop(x, path) && SurelyStrong(x, Visit(path[0].id, true))
    requires forall k :: 1 <= k < |path| - 1 ==> !FunctionUsed(x, path[k])
    ensures StrongLink(x, path[1..]) && Required(x, path[|path| - 1])
  {
    SubTrail(x, path, 1, |path|);
    hide Trail, SurelyStrong;
    assert path[1..|path|] == path[1..];
  }

  /** So a first request for the typedef queues it twice. */
  lemma LoopQueuesTwice(x: Dump, path: seq<Visit>)
    requires FunctionLoop(x, path) && SurelyStrong(x, Visit(path[0].id, true))
    requires forall k :: 1 <= k < |path| - 1 ==> !FunctionUsed(x, path[k])
    ensures x.Valid() && path[0].id < |x.types|
    ensures var o := Traverse(x, Start(x), path[0]);
            !o.r.Failed? ==> !Distinct(QueueOf(x, o.s.fin))
  {
    LoopLeads(x, path);
    StartInStep(x);
    StartsReady(x, Start(x), path[0].id);
    NamedFirst(x, path[0].id);
    hide FunctionLoop, Traverse, QueueOf, Ready, CyclesPassComposites, SurelyStrong, FunctionUsed, InStep;
    LoopOrdersTwice(x, Start(x), path[0], [], path);
    var o := Traverse(x, Start(x), path[0]);
    if !o.r.Failed? {
      var n, i := |o.s.fin| - 1, path[0].id;
      QueueHas(x, o.s.fin[..n], i);
      QueueAdd(x, o.s.fin[..n], i);
      assert o.s.fin[..n] + [i] == o.s.fin;
      TwiceNotDistinct(QueueOf(x, o.s.fin[..n]), i);
    }
  }

  /** A typedef is not void, and always queued. */
  lemma NamedFirst(x: Dump, i: nat)
    requires x.Valid() && i < |x.types| && |x.types[i]| >= BASE && Kind(x.types[i]) == BTF_KIND_TYPEDEF
    ensures i > 0 && |x.referenced| == |x.types| && Queued(x.types[i], x.referenced[i])
  {
  }

  lemma TwiceNotDistinct(q: seq<nat>, i: nat)
    requires i in q
    ensures !Distinct(q + [i])
  {
    var k :| 0 <= k < |q| && q[k] == i;
    assert (q + [i])[k] == (q + [i])[|q|];
  }

  /** A call begins with an empty trail. */
  lemma StartsReady(x: Dump, s: Progress, id: nat)
    requires InStep(x, s.states, s.fin) && forall i :: 0 <= i < |s.states| ==> s.states[i] != ORDERING
    requires id < |x.types|
    ensures Shaped(x, s) && Ready(x, s, Visit(id, false), []) && (TypedefsOnce(x, s.fin) ==> Single(x, s, []))
  {
    assert Trail(x, [] + [Visit(id, false)]);
  }

  /** Between calls: no ordering is under way, and the history is a proper one. */
  ghost predicate Resting(x: Dump, s: Progress) {
    && InStep(x, s.states, s.fin) && (NoFunctionLoop(x) ==> TypedefsOnce(x, s.fin))
    && forall i :: 0 <= i < |s.states| ==> s.states[i] != ORDERING
  }

  /** A call that goes through leaves a dumper on which the next call can rely. */
  lemma CallKeeps(x: Dump, s: Progress, id: nat)
    requires Resting(x, s) && id < |x.types|
    ensures Shaped(x, s)
    ensures var o := Traverse(x, s, Visit(id, false));
            if o.r.Failed? then o.r == Failed(ELOOP) && exists path :: NeedsItself(x, path)
            else Resting(x, o.s) && s.fin <= o.s.fin && Satisfied(x, o.s.fin, Visit(id, false))
  {
    StartsReady(x, s, id);
    hide Traverse, InStep, NeedsItself, Satisfied, Ready, Single, NoFunctionLoop, TypedefsOnce;
    TraverseKeeps(x, s, Visit(id, false), []);
    if NoFunctionLoop(x) {
      TraverseOnce(x, s, Visit(id, false), []);
      SingleIs(x, Traverse(x, s, Visit(id, false)));
    }
  }

  lemma SingleIs(x: Dump, o: Outcome)
    ensures Single(x, o.s, []) ==> TypedefsOnce(x, o.s.fin)
  {
  }

  lemma {:induction false} RequestsRest(x: Dump, s: Progress, ids: seq<nat>)
    requires Resting(x, s) && Shaped(x, s) && forall k :: 0 <= k < |ids| ==> ids[k] < |x.types|
    ensures var o := Requests(x, s, ids); !o.r.Failed? ==> Resting(x, o.s)
    decreases |ids|
  {
    hide Traverse, Resting, NeedsItself, Satisfied, CyclesPassComposites;
    if ids != [] {
      CallKeeps(x, s, ids[0]);
      var o := Traverse(x, s, Visit(ids[0], false));
      if !o.r.Failed? {
        RequestsRest(x, o.s, ids[1..]);
      }
    }
  }

  lemma StartInStep(x: Dump)
    requires x.Valid()
    ensures InStep(x, Start(x).states, Start(x).fin)
  {
  }

  /**
   * Over requests that all go through, nothing is queued twice, unless the direct use of some typedef
   * of a function type leads to a use of it behind a pointer.
   */
  lemma QueuedTwiceLoops(x: Dump, ids: seq<nat>)
    requires x.Valid() && forall k :: 0 <= k < |ids| ==> ids[k] < |x.types|
    requires !Requests(x, Start(x), ids).r.Failed?
    ensures Distinct(QueueOf(x, Requests(x, Start(x), ids).s.fin)) || exists path :: FunctionLoop(x, path)
  {
    StartInStep(x);
    hide Requests, FunctionLoop, QueueOf, History, CyclesPassComposites, Distinct;
    if NoFunctionLoop(x) {
      RequestsRest(x, Start(x), ids);
      NothingQueuedTwice(x, Requests(x, Start(x), ids).s.fin);
    }
  }
}

/** btf_dump_order_type: orders type definitions so that a C compiler accepts them. */
module DumpOrder {
  import opened Words
  import opened BtfRecords
  import opened EmbedSpec
  import opened OrderSpec
  import opened OrderTraversal

  class Dumper {
    ghost const x: Dump
    const types: seq<Record>
    const referenced: seq<bool>
    const states: array<OrderState>
    var emitQueue: seq<nat>
    /** Every type that has been ordered, in that order. */
    ghost var fin: seq<nat>
    /** Queue entries made by earlier calls. */
    ghost var earlier: seq<nat>

    /** The queue holds what got ordered; this stays so even if a call fails. */
    ghost predicate Queues()
      reads this, states
    {
      && x.Valid() && x.types == types && x.referenced == referenced && states.Length == |types|
      && earlier + emitQueue == QueueOf(x, fin)
    }

    ghost function Now(): Progress
      reads this, states
    {
      Progress(states[..], fin)
    }

    /** Between calls. */
    ghost predicate Valid()
      reads this, states
    {
      Queues() && Resting(x, Now())
    }

    /** A fresh dumper: only void is ordered. */
    constructor (types: seq<Record>, referenced: seq<bool>, ghost rank: seq<nat>)
      requires Dump(types, referenced, rank).Valid()
      ensures Valid() && emitQueue == [] && earlier == []
      ensures x == Dump(types, referenced, rank) && Now() == Start(x) && fresh(states)
    {
      x := Dump(types, referenced, rank);
      this.types, this.referenced, emitQueue := types, referenced, [];
      states := new OrderState[|types|](i => if i == 0 then ORDERED else NOT_ORDERED);
      fin, earlier := [], [];
      new;
      assert states[..] == Start(x).states;
    }

    /** btf_dump_add_emit_queue_id */
    method AddEmitQueueId(id: nat)
      modifies this`emitQueue
      ensures emitQueue == old(emitQueue) + [id]
    {
      emitQueue := emitQueue + [id];
    }

    /** A type is done: it has been queued if it has to be, and its order state is written. */
    method SetOrdered(id: nat, ghost q0: seq<nat>)
      requires x.Valid() && x.types == types && x.referenced == referenced && states.Length == |types|
      requires id < |types| && earlier + q0 == QueueOf(x, fin)
      requires |types[id]| >= BASE && emitQueue == q0 + if Queued(types[id], referenced[id]) then [id] else []
      modifies this`fin, states
      ensures Queues() && Now() == Finish(old(Now()), id)
    {
      hide Queued, CyclesPassComposites;
      states[id] := ORDERED;
      QueueAdd(x, fin, id);
      fin := fin + [id];
    }

    /** btf_dump_order_type */
    method OrderType(id: nat, throughPtr: bool) returns (r: Order)
      requires Queues() && id < |types|
      modifies this`emitQueue, this`fin, states
      ensures Queues() && Outcome(r, Now()) == Traverse(x, old(Now()), Visit(id, throughPtr))
      decreases Fresh(x, states[..]), x.rank[id] + 1, 1
    {
      Shape(x, id);
      ghost var v := Visit(id, throughPtr);
      hide Traverse, Follows, QueueOf, Advances, Fresh, KindOf, CyclesPassComposites;
      if states[id] == ORDERED {
        TraverseAtOnce(x, Now(), v);
        return Strong;
      }
      var t := types[id];
      var k := Kind(t);
      if states[id] == ORDERING {
        TraverseAtOnce(x, Now(), v);
        return if IsCompositeKind(k) && throughPtr && t[0] != 0 then Weak else Failed(ELOOP);
      }
      if k == BTF_KIND_INT || k == BTF_KIND_FLOAT {
        TraverseOther(x, Now(), v);
        SetOrdered(id, emitQueue);
        r := Weak;
      } else if k == BTF_KIND_PTR {
        r := OrderPtr(id, throughPtr);
      } else if k == BTF_KIND_ARRAY {
        TraverseWrapper(x, Now(), v);
        r := OrderType(t[BASE], false);
      } else if IsCompositeKind(k) {
        r := OrderComposite(id, throughPtr);
      } else if IsEnumOrFwd(k) {
        r := OrderEnum(id, throughPtr);
      } else if k == BTF_KIND_TYPEDEF {
        r := OrderTypedef(id, throughPtr);
      } else if IsQualifier(k) {
        TraverseWrapper(x, Now(), v);
        r := OrderType(t[2], throughPtr);
      } else if k == BTF_KIND_FUNC_PROTO {
        r := OrderFuncProto(id, throughPtr);
      } else if k == BTF_KIND_FUNC || k == BTF_KIND_VAR || k == BTF_KIND_DATASEC || k == BTF_KIND_DECL_TAG {
        TraverseOther(x, Now(), v);
        SetOrdered(id, emitQueue);
        r := Weak;
      } else {
        TraverseOther(x, Now(), v);
        r := Failed(EINVAL);
      }
    }

    /** The pointer case: the pointer counts as ordered whatever the result. */
    method OrderPtr(id: nat, throughPtr: bool) returns (r: Order)
      requires Queues() && id < |types| && |types[id]| >= BASE && Kind(types[id]) == BTF_KIND_PTR
      requires states[id] == NOT_ORDERED
      modifies this`emitQueue, this`fin, states
      ensures Queues() && Outcome(r, Now()) == Traverse(x, old(Now()), Visit(id, throughPtr))
      decreases Fresh(x, states[..]), x.rank[id] + 1, 0
    {
      Shape(x, id);
      hide Traverse, Follows, QueueOf, Advances, Fresh, KindOf, CyclesPassComposites;
      TraversePtr(x, Now(), Visit(id, throughPtr));
      r := OrderType(types[id][2], true);
      if r.Failed? {
        states[id] := ORDERED;
      } else {
        SetOrdered(id, emitQueue);
      }
    }

    /** The case of enums and forward declarations. */
    method OrderEnum(id: nat, throughPtr: bool) returns (r: Order)
      requires Queues() && id < |types| && |types[id]| >= BASE && IsEnumOrFwd(Kind(types[id]))
      requires states[id] == NOT_ORDERED
      modifies this`emitQueue, this`fin, states
      ensures Queues() && Outcome(r, Now()) == Traverse(x, old(Now()), Visit(id, throughPtr))
    {
      Shape(x, id);
      hide Traverse, Follows, QueueOf, Advances, Fresh, KindOf, CyclesPassComposites;
      TraverseOther(x, Now(), Visit(id, throughPtr));
      ghost var q0 := emitQueue;
      if types[id][0] != 0 || !referenced[id] {
        AddEmitQueueId(id);
      }
      SetOrdered(id, q0);
      r := Strong;
    }

    /** The struct and union case. */
    method OrderComposite(id: nat, throughPtr: bool) returns (r: Order)
      requires Queues() && id < |types| && |types[id]| >= BASE && Composite(types[id]) && states[id] == NOT_ORDERED
      modifies this`emitQueue, this`fin, states
      ensures Queues() && Outcome(r, Now()) == Traverse(x, old(Now()), Visit(id, throughPtr))
      decreases Fresh(x, states[..]), x.rank[id] + 1, 0
    {
      Shape(x, id);
      ghost var s0, v := Now(), Visit(id, throughPtr);
      hide Traverse, TraverseMembers, Follows, QueueOf, Advances, Fresh, KindOf, VlenOf, CyclesPassComposites;
      if throughPtr && types[id][0] != 0 {
        TraverseAtOnce(x, s0, v);
        return Weak;
      }
      TraverseComposite(x, s0, v);
      states[id] := ORDERING;
      r := OrderMembers(id, Fresh(x, s0.states));
      if r.Failed? {
        return;
      }
      ghost var q0 := emitQueue;
      if types[id][0] != 0 {
        AddEmitQueueId(id);
      }
      SetOrdered(id, q0);
      r := Strong;
    }

    /** The members of a struct or union. */
    method OrderMembers(id: nat, ghost fresh0: set<int>) returns (r: Order)
      requires Queues() && id < |types| && |types[id]| >= BASE && Composite(types[id])
      requires Fresh(x, states[..]) < fresh0
      modifies this`emitQueue, this`fin, states
      ensures Queues() && Outcome(r, Now()) == TraverseMembers(x, old(Now()), id, 0, fresh0)
      decreases fresh0, 0, 0
    {
      hide Traverse, TraverseMembers, Follows, QueueOf, Advances, Fresh, KindOf, VlenOf, CyclesPassComposites;
      r := Strong;
      for i := 0 to Vlen(types[id])
        invariant Queues() && r == Strong && Fresh(x, states[..]) < fresh0
        invariant TraverseMembers(x, old(Now()), id, 0, fresh0) == TraverseMembers(x, Now(), id, i, fresh0)
      {
        MembersNext(x, Now(), id, i, fresh0);
        r := OrderType(types[id][BASE + 3 * i + 1], false);
        if r.Failed? {
          return;
        }
        r := Strong;
      }
      MembersOver(x, Now(), id, fresh0);
    }

    /** The typedef case. */
    method OrderTypedef(id: nat, throughPtr: bool) returns (r: Order)
      requires Queues() && id < |types| && |types[id]| >= BASE && Kind(types[id]) == BTF_KIND_TYPEDEF
      requires states[id] == NOT_ORDERED
      modifies this`emitQueue, this`fin, states
      ensures Queues() && Outcome(r, Now()) == Traverse(x, old(Now()), Visit(id, throughPtr))
      decreases Fresh(x, states[..]), x.rank[id] + 1, 0
    {
      Shape(x, id);
      hide Traverse, Follows, QueueOf, Advances, Fresh, KindOf, CyclesPassComposites;
      TraverseTypedef(x, Now(), Visit(id, throughPtr));
      var isStrong := OrderType(types[id][2], throughPtr);
      if isStrong.Failed? {
        return isStrong;
      }
      if throughPtr && isStrong.Weak? {
        return Weak;
      }
      ghost var q0 := emitQueue;
      AddEmitQueueId(id);
      SetOrdered(id, q0);
      r := Strong;
    }

    /** The function prototype case: strong if any of its types is. */
    method OrderFuncProto(id: nat, throughPtr: bool) returns (r: Order)
      requires Queues() && id < |types| && |types[id]| >= BASE && Kind(types[id]) == BTF_KIND_FUNC_PROTO
      requires states[id] == NOT_ORDERED
      modifies this`emitQueue, this`fin, states
      ensures Queues() && Outcome(r, Now()) == Traverse(x, old(Now()), Visit(id, throughPtr))
      decreases Fresh(x, states[..]), x.rank[id] + 1, 0
    {
      Shape(x, id);
      ghost var s0, v := Now(), Visit(id, throughPtr);
      var t := types[id];
      hide Traverse, TraverseParams, Follows, QueueOf, Advances, Fresh, KindOf, VlenOf, CyclesPassComposites;
      TraverseProto(x, s0, v);
      r := OrderType(t[2], throughPtr);
      if r.Failed? {
        return;
      }
      FreshShrinks(x, s0.states, states[..]);
      for i := 0 to Vlen(t)
        invariant Queues() && !r.Failed? && Fresh(x, states[..]) <= Fresh(x, s0.states)
        invariant Traverse(x, s0, v) == TraverseParams(x, Now(), v, i, r)
      {
        ParamsNext(x, Now(), v, i, r);
        var err := OrderType(t[BASE + 2 * i + 1], throughPtr);
        if err.Failed? {
          return err;
        }
        if err.Strong? {
          r := Strong;
        }
      }
      ParamsOver(x, Now(), v, r);
    }

    /** btf_dump__dump_type, up to the emission of the queued types. */
    method DumpType(id: nat) returns (r: Status)
      requires Valid()
      modifies this, states
      ensures id >= |types| ==> r == Err(EINVAL) && Valid()
      ensures r.Ok? ==>
                && Valid() && earlier == old(earlier) + old(emitQueue)
                && old(fin) <= fin && Satisfied(x, fin, Visit(id, false))
      ensures id < |types| && r.Err? ==> r == Err(ELOOP) && exists path :: NeedsItself(x, path)
      ensures id < |types| ==> Queues() && Now() == Traverse(x, old(Now()), Visit(id, false)).s
    {
      if id >= |types| {
        return Err(EINVAL);
      }
      hide Traverse, QueueOf, NeedsItself, Satisfied, CyclesPassComposites, Resting;
      CallKeeps(x, Now(), id);
      earlier := earlier + emitQueue;
      emitQueue := [];
      var err := OrderType(id, false);
      r := if err.Failed? then Err(err.errno) else Ok;
    }
  }
}

/** What deduplication of primitive types establishes, on sequences. */
module PrimSpec {
  import opened Words
  import opened BtfRecords
  import opened CanonicalMap
  import opened HashSpec
  import opened EquivSpec

  predicate IsPrimKind(k: nat) {
    k == BTF_KIND_INT || IsEnumKind(k) || k == BTF_KIND_FWD || k == BTF_KIND_FLOAT
  }

  predicate IsPrim(r: Record)
    requires |r| >= BASE
  {
    IsPrimKind(Kind(r))
  }

  /** hash_combine on a 64-bit `long` */
  function HashCombine(h: nat, value: nat): nat {
    (h * 31 + value) % SIZE_T
  }

  function HashCommon(r: Record): nat
    requires |r| >= BASE
  {
    HashCombine(HashCombine(HashCombine(0, r[0]), r[1]), r[2])
  }

  /** The signature hash of a primitive type; enums are hashed by name only. */
  function Sig(r: Record): nat
    requires WellSized(r)
  {
    if Kind(r) == BTF_KIND_INT then HashCombine(HashCommon(r), r[3])
    else if IsEnumKind(Kind(r)) then HashCombine(0, r[0])
    else HashCommon(r)
  }

  /** All type records by id, void first; there is no base BTF. */
  ghost predicate GoodTypes(types: seq<Record>) {
    && 0 < |types| <= BTF_MAX_NR_TYPES
    && types[0] == [0, 0, 0]
    && forall i :: 1 <= i < |types| ==> WellSized(types[i])
  }

  ghost predicate Own(types: seq<Record>, i: int) {
    GoodTypes(types) && 1 <= i < |types|
  }

  /** `c` has been entered in the candidate table. */
  ghost predicate Listed(types: seq<Record>, bag: multiset<Pair>, c: int) {
    Own(types, c) && (Sig(types[c]), c) in bag
  }

  /** The table lists primitive types below `n` under their signature, and nothing else. */
  ghost predicate TableOk(types: seq<Record>, bag: multiset<Pair>, n: nat) {
    && GoodTypes(types) && |bag| < n
    && forall p :: p in bag ==> 1 <= p.1 < n <= |types| && IsPrim(types[p.1]) && p.0 == Sig(types[p.1])
  }

  /** Listed types that are not enum forwards are pairwise different. */
  ghost predicate NoTwins(types: seq<Record>, bag: multiset<Pair>) {
    forall c, d :: Listed(types, bag, c) && Listed(types, bag, d) && types[c] == types[d] && !IsEnumFwd(types[c]) ==>
      c == d
  }

  /** Once a full enum is listed, the listed forwards of its name have been resolved to a full enum. */
  ghost predicate Resolved(types: seq<Record>, m: seq<u32>, bag: multiset<Pair>)
    requires |m| == |types|
  {
    forall c, d :: Listed(types, bag, c) && Listed(types, bag, d) && SameEnum(types[c], types[d]) &&
                   IsEnumFwd(types[c]) && !IsEnumFwd(types[d]) ==>
      m[c] < |types| && |types[m[c]]| >= BASE && !IsEnumFwd(types[m[c]])
  }

  /** Enums of the same name, forward or not. */
  predicate SameEnum(a: Record, b: Record)
    requires |a| >= BASE && |b| >= BASE
  {
    IsEnumKind(Kind(a)) && IsEnumKind(Kind(b)) && a[0] == b[0]
  }

  /** The listed type `c` was no match for `n`; if it is a forward of the full enum `n`, it now points there. */
  ghost predicate Passed(types: seq<Record>, m: seq<u32>, n: nat, c: int)
    requires Own(types, n) && |m| == |types|
  {
    && Own(types, c)
    && types[c] != types[n]
    && (SameEnum(types[c], types[n]) ==> !IsEnumFwd(types[n]) && (IsEnumFwd(types[c]) ==> m[c] == n))
  }

  ghost predicate AllPassed(types: seq<Record>, m: seq<u32>, bag: multiset<Pair>, n: nat)
    requires Own(types, n) && |m| == |types|
  {
    forall c :: Listed(types, bag, c) ==> Passed(types, m, n, c)
  }

  /** What the canonical map says about the processed primitive type `i`. */
  ghost predicate Placed(types: seq<Record>, m: seq<u32>, bag: multiset<Pair>, n: nat, i: int)
    requires GoodTypes(types) && |m| == |types| && 1 <= i < |types|
  {
    var r := m[i];
    && 1 <= r < n <= |types|
    && if !IsEnumFwd(types[i]) then
         m[r] == r && Listed(types, bag, r) && types[r] == types[i]
       else
         && IsEnumKind(Kind(types[r])) && types[r][0] == types[i][0]
         && if Listed(types, bag, i) then r == i || !IsEnumFwd(types[r]) else Listed(types, bag, r)
  }

  /** VAR and DATASEC are canonical from the start; other types are unprocessed. */
  function Initial(r: Record, i: nat): u32
    requires |r| >= BASE && i < BTF_MAX_NR_TYPES
  {
    if Kind(r) == BTF_KIND_VAR || Kind(r) == BTF_KIND_DATASEC then i else BTF_UNPROCESSED_ID
  }

  /** State of the pass after the types below `n`. */
  ghost predicate PrimInv(types: seq<Record>, m: seq<u32>, bag: multiset<Pair>, n: nat) {
    && GoodTypes(types) && |m| == |types| && 1 <= n <= |types|
    && m[0] == 0
    && TableOk(types, bag, n) && NoTwins(types, bag) && Resolved(types, m, bag)
    && (forall i :: 1 <= i < n && IsPrim(types[i]) ==> Placed(types, m, bag, n, i))
    && (forall i :: 1 <= i < |types| && (i >= n || !IsPrim(types[i])) ==> m[i] == Initial(types[i], i))
  }

  /** Some listed enum forwards of the same name as the full enum `n` now point to it. */
  ghost predicate Redirected(types: seq<Record>, m: seq<u32>, m': seq<u32>, bag: multiset<Pair>, n: nat) {
    && Own(types, n) && |m'| == |m| == |types|
    && forall c :: 0 <= c < |m| && m'[c] != m[c] ==>
         && c != n && Listed(types, bag, c) && IsEnumFwd(types[c]) && types[c][0] == types[n][0]
         && m'[c] == n && IsEnumKind(Kind(types[n])) && !IsEnumFwd(types[n])
  }

  lemma InitialIs(r: Record, i: nat)
    requires |r| >= BASE && i < BTF_MAX_NR_TYPES
    ensures Initial(r, i) ==
              if Kind(r) == BTF_KIND_VAR || Kind(r) == BTF_KIND_DATASEC then i else BTF_UNPROCESSED_ID
  {
  }

  /** Before the pass, with an empty table. */
  lemma PrimStart(types: seq<Record>, m: seq<u32>)
    requires GoodTypes(types) && |m| == |types| && m[0] == 0
    requires forall k :: 1 <= k < |types| ==> m[k] == Initial(types[k], k)
    ensures PrimInv(types, m, multiset{}, 1)
  {
    hide TrailingWords, KindOf, IsPrimKind, Initial;
  }

  lemma SkipStep(types: seq<Record>, m: seq<u32>, bag: multiset<Pair>, n: nat)
    requires PrimInv(types, m, bag, n) && n < |types| && !IsPrim(types[n])
    ensures PrimInv(types, m, bag, n + 1)
  {
  }

  /** No candidate matched: `n` becomes canonical and is entered in the table. */
  lemma CanonicalStep(types: seq<Record>, m: seq<u32>, m': seq<u32>, bag: multiset<Pair>, n: nat)
    requires PrimInv(types, m, bag, n) && n < |types| && IsPrim(types[n])
    requires Redirected(types, m, m', bag, n) && AllPassed(types, m', bag, n)
    ensures PrimInv(types, m'[n := n], bag + multiset{(Sig(types[n]), n)}, n + 1)
  {
    hide Sig, TrailingWords, IsPrimKind, NoTwins, TableOk, IsEnumKind, KindOf;
    var m2, bag2 := m'[n := n], bag + multiset{(Sig(types[n]), n)};
    ListedAdd(types, bag, n);
    TableAdd(types, bag, n);
    ListedBelow(types, bag, n);
    assert forall c :: Listed(types, bag, c) ==> Passed(types, m', n, c);
    ResolvedAdd(types, m, m', bag, n);
    forall i | 1 <= i < n + 1 && IsPrim(types[i])
      ensures Placed(types, m2, bag2, n + 1, i)
    {
      if i < n {
        assert Placed(types, m, bag, n, i);
      }
    }
  }

  lemma ResolvedAdd(types: seq<Record>, m: seq<u32>, m': seq<u32>, bag: multiset<Pair>, n: nat)
    requires |m| == |types| && Resolved(types, m, bag) && TableOk(types, bag, n)
    requires Redirected(types, m, m', bag, n) && AllPassed(types, m', bag, n) && n <= BTF_MAX_NR_TYPES
    ensures Resolved(types, m'[n := n], bag + multiset{(Sig(types[n]), n)})
  {
    hide Listed, Sig, TrailingWords, IsEnumFwd, IsEnumKind, TableOk, KindOf;
    var m2, bag2 := m'[n := n], bag + multiset{(Sig(types[n]), n)};
    ListedAdd(types, bag, n);
    ListedBelow(types, bag, n);
    forall c, d | Listed(types, bag2, c) && Listed(types, bag2, d) && SameEnum(types[c], types[d]) &&
                  IsEnumFwd(types[c]) && !IsEnumFwd(types[d])
      ensures m2[c] < |types| && |types[m2[c]]| >= BASE && !IsEnumFwd(types[m2[c]])
    {
      if c != n {
        assert Passed(types, m', n, c);
      }
      if d != n {
        assert Passed(types, m', n, d);
      }
    }
  }

  lemma ResolvedRedirected(types: seq<Record>, m: seq<u32>, m': seq<u32>, bag: multiset<Pair>, n: nat, c: u32)
    requires |m| == |types| && Resolved(types, m, bag) && TableOk(types, bag, n) && Redirected(types, m, m', bag, n)
    ensures Resolved(types, m'[n := c], bag)
  {
    hide Listed, Sig, TrailingWords, IsEnumFwd, IsEnumKind, TableOk, KindOf;
    ListedBelow(types, bag, n);
  }

  lemma DuplicateNotListed(types: seq<Record>, bag: multiset<Pair>, n: nat)
    requires TableOk(types, bag, n)
    ensures !Listed(types, bag, n)
  {
  }

  lemma ListedBelow(types: seq<Record>, bag: multiset<Pair>, n: nat)
    requires TableOk(types, bag, n)
    ensures forall c :: Listed(types, bag, c) ==> 1 <= c < n && |types[c]| >= BASE && IsPrim(types[c])
  {
  }

  lemma ListedAdd(types: seq<Record>, bag: multiset<Pair>, n: nat)
    requires Own(types, n)
    ensures forall c :: Listed(types, bag + multiset{(Sig(types[n]), n)}, c) <==> Listed(types, bag, c) || c == n
  {
    hide WellSized, Sig;
  }

  lemma TableAdd(types: seq<Record>, bag: multiset<Pair>, n: nat)
    requires TableOk(types, bag, n) && NoTwins(types, bag) && Own(types, n) && IsPrim(types[n])
    requires !IsEnumFwd(types[n]) ==> forall c :: Listed(types, bag, c) ==> types[c] != types[n]
    ensures var bag2 := bag + multiset{(Sig(types[n]), n)}; TableOk(types, bag2, n + 1) && NoTwins(types, bag2)
  {
    hide Listed, Sig, WellSized, IsEnumFwd, IsPrim;
    ListedAdd(types, bag, n);
  }

  /** A listed type matched: `n` is mapped to it. */
  lemma DuplicateStep(types: seq<Record>, m: seq<u32>, m': seq<u32>, bag: multiset<Pair>, n: nat, c: nat)
    requires PrimInv(types, m, bag, n) && n < |types| && IsPrim(types[n])
    requires Redirected(types, m, m', bag, n) && Listed(types, bag, c)
    requires if IsEnumFwd(types[n]) then IsEnumKind(Kind(types[c])) && types[c][0] == types[n][0]
             else types[c] == types[n]
    ensures PrimInv(types, m'[n := c], bag, n + 1)
  {
    hide Sig, TrailingWords, IsPrimKind, IsEnumKind, KindOf;
    var m2 := m'[n := c];
    ListedBelow(types, bag, n);
    assert Placed(types, m, bag, n, c);
    DuplicateNotListed(types, bag, n);
    ResolvedRedirected(types, m, m', bag, n, c);
    assert TableOk(types, bag, n + 1);
    forall i | 1 <= i < n + 1 && IsPrim(types[i])
      ensures Placed(types, m2, bag, n + 1, i)
    {
      if i < n {
        PlacedRedirected(types, m, m', bag, n, c, i);
      }
    }
  }

  lemma PlacedRedirected(types: seq<Record>, m: seq<u32>, m': seq<u32>, bag: multiset<Pair>, n: nat, c: nat, i: nat)
    requires GoodTypes(types) && |m| == |types| && 1 <= i < n < |types| && Placed(types, m, bag, n, i)
    requires Redirected(types, m, m', bag, n) && c <= BTF_MAX_NR_TYPES && TableOk(types, bag, n)
    ensures Placed(types, m'[n := c], bag, n + 1, i)
  {
    hide Sig, TrailingWords, IsPrimKind, IsEnumKind, KindOf;
    ListedBelow(types, bag, n);
  }

  lemma RedirectOne(types: seq<Record>, m: seq<u32>, m': seq<u32>, bag: multiset<Pair>, n: nat, c: nat)
    requires Redirected(types, m, m', bag, n) && c != n && c < |m|
    requires Listed(types, bag, c) && IsEnumFwd(types[c]) && types[c][0] == types[n][0]
    requires IsEnumKind(Kind(types[n])) && !IsEnumFwd(types[n])
    ensures Redirected(types, m, m'[c := n], bag, n)
  {
  }

  // ---------------------------------------------------------------------------
  // What holds after the pass

  /** How far a type is from its canonical type. */
  ghost function RankOf(types: seq<Record>, m: seq<u32>, bag: multiset<Pair>, i: nat): nat
    requires GoodTypes(types) && |m| == |types| && i < |types|
  {
    if m[i] == i || i == 0 || !IsPrim(types[i]) then 0
    else if !IsEnumFwd(types[i]) then 1
    else if Listed(types, bag, i) then 2
    else 3
  }

  /** The canonical map has no cycles, so resolving an id terminates. */
  lemma PrimAcyclic(types: seq<Record>, m: seq<u32>, bag: multiset<Pair>)
    requires PrimInv(types, m, bag, |types|)
    ensures Acyclic(m)
  {
    var rank := seq(|m|, i requires 0 <= i < |m| => RankOf(types, m, bag, i));
    forall i | 0 <= i < |m| && m[i] <= BTF_MAX_NR_TYPES
      ensures m[i] < |m| && (m[i] != i ==> rank[m[i]] < rank[i])
    {
      if i != 0 && IsPrim(types[i]) {
        assert Placed(types, m, bag, |types|, i);
        if m[i] != i {
          PlacedRank(types, m, bag, i);
        }
      }
    }
    assert Ranked(m, rank);
  }

  lemma PlacedRank(types: seq<Record>, m: seq<u32>, bag: multiset<Pair>, i: nat)
    requires PrimInv(types, m, bag, |types|) && 1 <= i < |types| && IsPrim(types[i]) && m[i] != i
    ensures m[i] < |m| && RankOf(types, m, bag, m[i]) < RankOf(types, m, bag, i)
  {
    assert Placed(types, m, bag, |types|, i);
    var r := m[i];
    if IsEnumFwd(types[i]) && IsEnumFwd(types[r]) {
      assert Listed(types, bag, r);
    }
  }

  /** The canonical type of a processed type that is not an enum forward is its listed twin. */
  lemma PrimRoot(types: seq<Record>, m: seq<u32>, bag: multiset<Pair>, i: nat)
    requires PrimInv(types, m, bag, |types|) && Acyclic(m) && 1 <= i < |types| && IsPrim(types[i])
    requires !IsEnumFwd(types[i])
    ensures i < |m| && m[i] < |m| == |types| && Root(m, i) == m[i] && Listed(types, bag, m[i]) &&
          types[m[i]] == types[i]
  {
    assert Placed(types, m, bag, |types|, i);
    RootStep(m, i);
    RootStep(m, m[i]);
  }

  /** An integer, float, forward declaration, or enum with values. */
  predicate FullPrim(r: Record) {
    && |r| >= BASE
    && (|| Kind(r) == BTF_KIND_INT || Kind(r) == BTF_KIND_FLOAT || Kind(r) == BTF_KIND_FWD
        || FullEnum(r))
  }

  predicate FullEnum(r: Record) {
    AnyEnum(r) && Vlen(r) != 0
  }

  predicate AnyEnum(r: Record) {
    |r| >= BASE && (Kind(r) == BTF_KIND_ENUM || Kind(r) == BTF_KIND_ENUM64)
  }

  lemma FullIsPrim(r: Record)
    requires FullPrim(r)
    ensures IsPrim(r) && !IsEnumFwd(r)
  {
  }

  lemma EnumsAre(r: Record)
    ensures AnyEnum(r) <==> |r| >= BASE && IsEnumKind(Kind(r)) && IsPrim(r)
    ensures FullEnum(r) <==> |r| >= BASE && IsEnumKind(Kind(r)) && !IsEnumFwd(r)
  {
  }

  /** Integers, floats, forwards and enums with values get the same canonical type exactly when they are equal. */
  lemma PrimSameRootIffEqual(types: seq<Record>, m: seq<u32>, bag: multiset<Pair>, i: nat, j: nat)
    requires PrimInv(types, m, bag, |types|) && 1 <= i < |types| && 1 <= j < |types|
    requires FullPrim(types[i]) && FullPrim(types[j])
    ensures Acyclic(m) && (Root(m, i) == Root(m, j) <==> types[i] == types[j])
  {
    FullIsPrim(types[i]);
    FullIsPrim(types[j]);
    hide PrimInv, Listed, IsEnumFwd, IsPrim, FullPrim;
    PrimAcyclic(types, m, bag);
    PrimRoot(types, m, bag, i);
    PrimRoot(types, m, bag, j);
    if types[i] == types[j] {
      TwinsEqual(types, m, bag, m[i], m[j]);
    }
  }

  lemma TwinsEqual(types: seq<Record>, m: seq<u32>, bag: multiset<Pair>, c: int, d: int)
    requires PrimInv(types, m, bag, |types|) && Listed(types, bag, c) && Listed(types, bag, d)
    requires types[c] == types[d] && !IsEnumFwd(types[c])
    ensures c == d
  {
  }

  /** If there is an enum of the same name with values anywhere, an enum resolves to one with values. */
  lemma PrimEnumFwdFindsFull(types: seq<Record>, m: seq<u32>, bag: multiset<Pair>, i: nat, j: nat)
    requires PrimInv(types, m, bag, |types|) && 1 <= i < |types| && 1 <= j < |types|
    requires AnyEnum(types[i]) && FullEnum(types[j]) && types[i][0] == types[j][0]
    ensures Acyclic(m) && FullEnum(types[Root(m, i)]) && types[Root(m, i)][0] == types[i][0]
  {
    EnumsAre(types[i]);
    EnumsAre(types[j]);
    PrimAcyclic(types, m, bag);
    EnumsAre(types[Root(m, i)]);
    PrimEnumFwdResolves(types, m, bag, i);
    hide AnyEnum, FullEnum;
    EnumFindsFull(types, m, bag, i, j);
  }

  lemma EnumFindsFull(types: seq<Record>, m: seq<u32>, bag: multiset<Pair>, i: nat, j: nat)
    requires PrimInv(types, m, bag, |types|) && Acyclic(m) && 1 <= i < |types| && 1 <= j < |types|
    requires SameEnum(types[i], types[j]) && !IsEnumFwd(types[j])
    ensures i < |m| && |types[Root(m, i)]| >= BASE && !IsEnumFwd(types[Root(m, i)])
  {
    PrimRoot(types, m, bag, j);
    if IsEnumFwd(types[i]) {
      assert Placed(types, m, bag, |types|, i);
      RootStep(m, i);
      if Listed(types, bag, i) {
        FullRoot(types, m, bag, m[i]);
      } else if IsEnumFwd(types[m[i]]) {
        assert Placed(types, m, bag, |types|, m[i]);
        RootStep(m, m[i]);
        FullRoot(types, m, bag, m[m[i]]);
      } else {
        FullRoot(types, m, bag, m[i]);
      }
    } else {
      FullRoot(types, m, bag, i);
    }
  }

  lemma FullRoot(types: seq<Record>, m: seq<u32>, bag: multiset<Pair>, i: nat)
    requires PrimInv(types, m, bag, |types|) && Acyclic(m) && 1 <= i < |types| && IsPrim(types[i])
    requires !IsEnumFwd(types[i])
    ensures i < |m| && |types[Root(m, i)]| >= BASE && !IsEnumFwd(types[Root(m, i)])
  {
    PrimRoot(types, m, bag, i);
  }

  /** Every enum resolves to an enum of the same name. */
  lemma PrimEnumFwdResolves(types: seq<Record>, m: seq<u32>, bag: multiset<Pair>, i: nat)
    requires PrimInv(types, m, bag, |types|) && 1 <= i < |types| && AnyEnum(types[i])
    ensures Acyclic(m)
    ensures var r := Root(m, i); 1 <= r && AnyEnum(types[r]) && types[r][0] == types[i][0]
    decreases RankOf(types, m, bag, i)
  {
    PrimAcyclic(types, m, bag);
    RootStep(m, i);
    EnumsAre(types[i]);
    assert Placed(types, m, bag, |types|, i);
    if m[i] != i {
      PlacedRank(types, m, bag, i);
      EnumsAre(types[m[i]]);
      PrimEnumFwdResolves(types, m, bag, m[i]);
    }
  }

  /** The other kinds are as before the pass: VAR and DATASEC are their own, the rest has no canonical type yet. */
  lemma PrimOthersWait(types: seq<Record>, m: seq<u32>, bag: multiset<Pair>, i: nat)
    requires PrimInv(types, m, bag, |types|) && 1 <= i < |types|
    requires !FullPrim(types[i]) && !AnyEnum(types[i])
    ensures i < |m| && |types[i]| >= BASE
    ensures m[i] == if Kind(types[i]) == BTF_KIND_VAR || Kind(types[i]) == BTF_KIND_DATASEC then i
                    else BTF_UNPROCESSED_ID
  {
  }
}

/** The primitive-type pass of BTF deduplication, on BTF without a base. */
module PrimDedup {
  import opened Words
  import opened BtfRecords
  import opened CanonicalMap
  import opened HashSpec
  import opened HashModel
  import opened HashChains
  import opened EquivSpec
  import opened Equivalence
  import opened PrimSpec
  import H = HashMap

  /** Hash and equality of the candidate table; `force` makes all hashes collide. */
  function DedupKeys(force: bool): Keys {
    Keys(if force then (key: int) => 0 else (key: int) => key % SIZE_T, (a, b) => a == b)
  }

  /** `cands` are the table entries with signature `h`. */
  ghost predicate Candidates(bag: multiset<Pair>, h: nat, cands: seq<Pair>) {
    forall p :: p in cands <==> p in bag && p.0 == h
  }

  lemma CandidatesExact(m: Model, force: bool, h: nat)
    requires Good(m, DedupKeys(force))
    ensures Candidates(Bag(m), h, ForKey(m, DedupKeys(force), h))
  {
    GoodShape(m, DedupKeys(force));
    hide Good, ForKey, Bag;
    var k := DedupKeys(force);
    var cands := ForKey(m, k, h);
    assert k.Respects(x => x);
    forall p
      ensures p in cands <==> p in Bag(m) && p.0 == h
    {
      ForKeyIsExact(m, k, x => x, h, p);
      assert p in cands <==> p in multiset(cands);
    }
  }

  lemma CandidateListed(types: seq<Record>, bag: multiset<Pair>, n: nat, h: nat, cands: seq<Pair>, i: nat)
    requires TableOk(types, bag, n) && Candidates(bag, h, cands) && i < |cands|
    ensures 1 <= cands[i].1 < n <= |types| && Listed(types, bag, cands[i].1) && IsPrim(types[cands[i].1])
  {
    assert cands[i] in cands;
  }

  /** A listed type that matches has the same signature, so it is among the candidates. */
  lemma NoMatch(types: seq<Record>, m: seq<u32>, bag: multiset<Pair>, n: nat, cands: seq<Pair>)
    requires Own(types, n) && |m| == |types| && Candidates(bag, Sig(types[n]), cands)
    requires forall i :: 0 <= i < |cands| ==> Passed(types, m, n, cands[i].1)
    ensures AllPassed(types, m, bag, n)
  {
    hide Sig, TrailingWords, IsEnumKind;
    forall c | Listed(types, bag, c)
      ensures Passed(types, m, n, c)
    {
      if Sig(types[c]) == Sig(types[n]) {
        assert (Sig(types[c]), c) in cands;
      } else {
        SameSig(types[c], types[n]);
      }
    }
  }

  lemma SameSig(a: Record, b: Record)
    requires WellSized(a) && WellSized(b)
    ensures SameEnum(a, b) ==> Sig(a) == Sig(b)
  {
  }

  /** The table never runs full: it holds fewer entries than there are types. */
  lemma AppendFits(m: Model, k: Keys, h: nat, c: nat, n: nat)
    requires Good(m, k) && |Bag(m)| < n <= BTF_MAX_NR_TYPES
    ensures Shaped(m) && var r := Insert(m, k, h, c, APPEND); r.ret == Ok && Bag(r.m) == Bag(m) + multiset{(h, c)}
  {
    hide Pow2, Hashed, HashBits, Flat, HashModel.Grow, HashModel.AddEntry;
    FullExactly(m, k);
    LargeTable();
    InsertKeeps(m, k, h, c, APPEND);
  }

  lemma LargeTable()
    ensures Pow2(CALLOC_MAX_BITS) >= 0x4_0000_0000
  {
    Pow2Of32();
    hide Pow2;
    Pow2Sum(2, 32);
    Pow2Grows(34, CALLOC_MAX_BITS);
  }

  lemma Pow2Of32()
    ensures Pow2(2) == 4 && Pow2(32) == 0x1_0000_0000
  {
    assert Pow2(4) == 0x10;
    Pow2Sum(4, 4);
    Pow2Sum(8, 8);
    Pow2Sum(16, 16);
  }

  lemma EqualIsSame(a: Record, b: Record)
    requires WellSized(a) && WellSized(b)
    ensures Kind(a) == BTF_KIND_INT ==> (EqualIntTag(a, b) <==> a == b)
    ensures Kind(a) == BTF_KIND_FWD || Kind(a) == BTF_KIND_FLOAT ==> (EqualCommon(a, b) <==> a == b)
  {
    if EqualCommon(a, b) && (Kind(a) == BTF_KIND_FWD || Kind(a) == BTF_KIND_FLOAT) {
      assert |a| == BASE && |b| == BASE;
    }
    if EqualCommon(a, b) && Kind(a) == BTF_KIND_INT {
      assert |a| == BASE + 1 && |b| == BASE + 1;
    }
  }

  /** The loops take this candidate: the record is the same, or an enum for a forward of its name. */
  ghost predicate Takes(types: seq<Record>, id: nat, c: int) {
    && id < |types| && 0 <= c < |types|
    && (types[c] == types[id] ||
        (|types[id]| >= BASE && |types[c]| >= BASE && IsEnumFwd(types[id]) && SameEnum(types[c], types[id])))
  }

  /** `newId` is the first candidate that is taken, at position `n`, or `id` itself if none is. */
  ghost predicate FirstTaken(types: seq<Record>, id: nat, cands: seq<Pair>, n: nat, newId: nat) {
    && n <= |cands| && (forall j :: 0 <= j < n ==> !Takes(types, id, cands[j].1))
    && if n < |cands| then newId == cands[n].1 && Takes(types, id, newId) else newId == id
  }

  /** The first `n` candidates were no match. */
  ghost predicate Seen(types: seq<Record>, m: seq<u32>, id: nat, cands: seq<Pair>, n: nat)
    requires Own(types, id) && |m| == |types|
  {
    n <= |cands| && forall j :: 0 <= j < n ==> Passed(types, m, id, cands[j].1) && !Takes(types, id, cands[j].1)
  }

  /** An enum that is neither equal nor compatible, or a forward that has been redirected, was no match. */
  lemma SeenEnum(types: seq<Record>, m: seq<u32>, m': seq<u32>, id: nat, cands: seq<Pair>, n: nat)
    requires Own(types, id) && |m| == |m'| == |types| && Seen(types, m, id, cands, n) && n < |cands|
    requires Own(types, cands[n].1) && IsEnumKind(Kind(types[id])) && types[cands[n].1] != types[id]
    requires SameEnum(types[cands[n].1], types[id]) ==> !IsEnumFwd(types[id])
    requires m' == if SameEnum(types[cands[n].1], types[id]) && IsEnumFwd(types[cands[n].1]) then m[cands[n].1 := id]
                   else m
    requires id <= BTF_MAX_NR_TYPES
    ensures Seen(types, m', id, cands, n + 1)
  {
    hide SameEnum, IsEnumFwd, KindOf;
  }

  lemma TakenNow(types: seq<Record>, id: nat, cands: seq<Pair>, n: nat)
    requires n < |cands| && (forall j :: 0 <= j < n ==> !Takes(types, id, cands[j].1)) && Takes(types, id, cands[n].1)
    ensures 0 <= cands[n].1 && exists k: nat :: FirstTaken(types, id, cands, k, cands[n].1)
  {
    hide Takes;
    TakesInside(types, id, cands[n].1);
    assert FirstTaken(types, id, cands, n, cands[n].1);
  }

  lemma TakesInside(types: seq<Record>, id: nat, c: int)
    requires Takes(types, id, c)
    ensures 0 <= c < |types|
  {
  }

  lemma NoneTaken(types: seq<Record>, id: nat, cands: seq<Pair>)
    requires forall j :: 0 <= j < |cands| ==> !Takes(types, id, cands[j].1)
    ensures exists k: nat :: FirstTaken(types, id, cands, k, id)
  {
    hide Takes;
    assert FirstTaken(types, id, cands, |cands|, id);
  }

  lemma PassedNotTaken(types: seq<Record>, m: seq<u32>, id: nat, c: int)
    requires Own(types, id) && |m| == |types| && Passed(types, m, id, c)
    ensures !Takes(types, id, c)
  {
  }

  /** The candidate loop for INT, FWD and FLOAT: the first equal candidate, or `id` itself. */
  method FindEqual(types: seq<Record>, id: nat, cands: seq<Pair>, ghost m: seq<u32>, ghost bag: multiset<Pair>)
    returns (newId: nat)
    requires TableOk(types, bag, id) && Own(types, id) && Candidates(bag, Sig(types[id]), cands) && |m| == |types|
    requires Kind(types[id]) == BTF_KIND_INT || Kind(types[id]) == BTF_KIND_FWD || Kind(types[id]) == BTF_KIND_FLOAT
    ensures exists n: nat :: FirstTaken(types, id, cands, n, newId)
    ensures newId != id ==> Listed(types, bag, newId) && types[newId] == types[id]
    ensures newId == id ==> AllPassed(types, m, bag, id)
  {
    hide Candidates, Listed, Sig, IsPrimKind, KindOf, EqualCommon, TrailingWords, TableOk, FirstTaken;
    var t := types[id];
    for i := 0 to |cands|
      invariant forall j :: 0 <= j < i ==> !Takes(types, id, cands[j].1)
      invariant forall j :: 0 <= j < i ==> Passed(types, m, id, cands[j].1)
    {
      CandidateListed(types, bag, id, Sig(t), cands, i);
      var candId := cands[i].1;
      var cand := types[candId];
      EqualIsSame(t, cand);
      if (if Kind(t) == BTF_KIND_INT then EqualIntTag(t, cand) else EqualCommon(t, cand)) {
        TakenNow(types, id, cands, i);
        return candId;
      }
      PassedNotTaken(types, m, id, candId);
    }
    NoMatch(types, m, bag, id, cands);
    newId := id;
    NoneTaken(types, id, cands);
  }

  /**
   * The candidate loop for ENUM and ENUM64. A forward is resolved to the first enum of its name;
   * a full enum takes over the listed forwards of its name that come before an equal enum.
   */
  method FindEnum(types: seq<Record>, map_: array<u32>, id: nat, cands: seq<Pair>, ghost bag: multiset<Pair>)
    returns (newId: nat)
    requires TableOk(types, bag, id) && Own(types, id) && Candidates(bag, Sig(types[id]), cands)
    requires map_.Length == |types| && IsEnumKind(Kind(types[id]))
    modifies map_
    ensures exists n: nat :: FirstTaken(types, id, cands, n, newId)
    ensures Redirected(types, old(map_[..]), map_[..], bag, id)
    ensures newId != id ==>
              && Listed(types, bag, newId)
              && if IsEnumFwd(types[id]) then IsEnumKind(Kind(types[newId])) && types[newId][0] == types[id][0]
                 else types[newId] == types[id]
    ensures newId == id ==> AllPassed(types, map_[..], bag, id)
  {
    ghost var m := map_[..];
    assert Redirected(types, m, m, bag, id);
    hide Candidates, Listed, Sig, IsPrimKind, KindOf, TrailingWords, TableOk, IsEnumKind, IsEnumFwd, Redirected,
         FirstTaken, Passed, Takes;
    var t := types[id];
    for i := 0 to |cands|
      invariant Redirected(types, m, map_[..], bag, id) && Seen(types, map_[..], id, cands, i)
    {
      CandidateListed(types, bag, id, Sig(t), cands, i);
      var candId := cands[i].1;
      var cand := types[candId];
      EnumTakes(types, id, candId);
      var eq := EqualEnum(t, cand);
      if eq {
        TakenNow(types, id, cands, i);
        return candId;
      }
      var compat := CompatEnum(t, cand);
      CompatIs(types, id, candId);
      ghost var m1 := map_[..];
      if compat {
        if IsEnumFwd(t) {
          TakenNow(types, id, cands, i);
          return candId;
        }
        RedirectOne(types, m, map_[..], bag, id, candId);
        map_[candId] := id;
      }
      SeenEnum(types, m1, map_[..], id, cands, i);
    }
    NoMatch(types, map_[..], bag, id, cands);
    newId := id;
    NoneTaken(types, id, cands);
  }

  lemma EnumTakes(types: seq<Record>, id: nat, c: nat)
    requires Own(types, id) && Own(types, c)
    ensures Takes(types, id, c) <==>
              types[c] == types[id] || (IsEnumFwd(types[id]) && SameEnum(types[c], types[id]))
  {
  }

  /** Enums that are not equal are compatible if they have one name and one of them is a forward. */
  lemma CompatIs(types: seq<Record>, id: nat, c: nat)
    requires Own(types, id) && Own(types, c) && IsEnumKind(Kind(types[id])) && types[c] != types[id]
    ensures SameEnum(types[c], types[id]) <==> types[c][0] == types[id][0] && IsEnumKind(Kind(types[c]))
  {
  }

  /** The part of struct btf_dedup used for primitive types. */
  class PrimDedup {
    const types: seq<Record>
    const force: bool
    const map_: array<u32>
    const table: H.HashMap

    ghost predicate Valid()
      reads table, table.buckets, table.home.Keys
    {
      table.Valid() && table.k == DedupKeys(force) && GoodTypes(types) && map_.Length == |types|
    }

    ghost function TableBag(): multiset<Pair>
      requires Valid()
      reads table, table.buckets, table.home.Keys
    {
      Bag(table.View())
    }

    /** The types below `n` have been processed. */
    ghost predicate Done(n: nat)
      reads map_, table, table.buckets, table.home.Keys
    {
      Valid() && PrimInv(types, map_[..], TableBag(), n)
    }

    /** btf_dedup_new */
    constructor (types: seq<Record>, force: bool)
      requires GoodTypes(types)
      ensures Done(1) && this.types == types && this.force == force
      ensures fresh(map_) && fresh(table) && fresh(table.buckets) && fresh(table.home.Keys)
    {
      this.types, this.force := types, force;
      map_ := new u32[|types|];
      table := new H.HashMap(DedupKeys(force));
      new;
      InitMap();
    }

    /** Void, VAR and DATASEC are canonical from the start. */
    method InitMap()
      requires Valid() && TableBag() == multiset{}
      modifies map_
      ensures Done(1)
    {
      hide TrailingWords, KindOf, IsPrimKind, H.HashMap.Valid, PrimInv, Initial;
      map_[0] := 0;
      for i := 1 to |types|
        invariant map_[0] == 0
        invariant forall k :: 1 <= k < i ==> map_[k] == Initial(types[k], k)
      {
        InitialIs(types[i], i);
        if Kind(types[i]) == BTF_KIND_VAR || Kind(types[i]) == BTF_KIND_DATASEC {
          map_[i] := i;
        } else {
          map_[i] := BTF_UNPROCESSED_ID;
        }
      }
      PrimStart(types, map_[..]);
    }

    lemma TableGood(m: seq<u32>, n: nat)
      requires Valid() && PrimInv(types, m, TableBag(), n)
      ensures Homed(table.chains, table.home) && Good(table.View(), table.k)
      ensures |TableBag()| < n <= BTF_MAX_NR_TYPES
    {
    }

    /** The candidates for signature `h`. */
    method Cands(h: nat, ghost n: nat) returns (cands: seq<Pair>)
      requires Done(n)
      ensures Candidates(TableBag(), h, cands) && TableOk(types, TableBag(), n)
    {
      hide Good, ForKey, Bag, Candidates, GoodTypes;
      cands := table.EntriesFor(h);
      CandidatesExact(table.View(), force, h);
    }

    /** Records the canonical type of `id`; a type that is its own is added to the table. */
    method SetCanonical(id: nat, newId: nat, h: nat, ghost m: seq<u32>) returns (r: Status)
      requires Valid() && PrimInv(types, m, TableBag(), id) && id < |types|
      requires IsPrim(types[id]) && h == Sig(types[id])
      requires Redirected(types, m, map_[..], TableBag(), id)
      requires newId != id ==>
                 && Listed(types, TableBag(), newId)
                 && if IsEnumFwd(types[id]) then IsEnumKind(Kind(types[newId])) && types[newId][0] == types[id][0]
                    else types[newId] == types[id]
      requires newId == id ==> AllPassed(types, map_[..], TableBag(), id)
      modifies map_, table, table.buckets, table.home.Keys
      ensures r == Ok && Done(id + 1)
      ensures fresh(table.home.Keys - old(table.home.Keys))
      ensures table.buckets == old(table.buckets) || fresh(table.buckets)
    {
      hide Sig, IsPrimKind, KindOf, TrailingWords, H.HashMap.Valid, TableOk, PrimInv, Good,
           IsEnumKind, IsEnumFwd, HashModel.Insert, Bag, Placed;
      if newId == id {
        TableGood(m, id);
        CanonicalStep(types, m, map_[..], TableBag(), id);
        map_[id] := id;
        AppendFits(table.View(), table.k, h, id, id);
        var ret, oldKey, oldValue := table.Insert(h, id, APPEND);
        return ret;
      }
      DuplicateStep(types, m, map_[..], TableBag(), id, newId);
      map_[id] := newId;
      r := Ok;
    }

    /** btf_dedup_prim_type; a record that parsed has a known kind, so -EINVAL cannot happen. */
    method DedupPrimType(id: nat) returns (r: Status)
      requires Done(id) && id < |types|
      modifies map_, table, table.buckets, table.home.Keys
      ensures r == Ok && Done(id + 1)
      ensures fresh(table.home.Keys - old(table.home.Keys))
      ensures table.buckets == old(table.buckets) || fresh(table.buckets)
    {
      hide H.HashMap.Valid, TableOk, Placed, Good, Sig, KindOf, Listed, Bag;
      var t := types[id];
      var kind := Kind(t);
      ghost var m := map_[..];
      if !IsPrimKind(kind) {
        SkipStep(types, m, TableBag(), id);
        return Ok;
      }
      var h, newId := Sig(t), id;
      var cands := Cands(h, id);
      if IsEnumKind(kind) {
        newId := FindEnum(types, map_, id, cands, TableBag());
      } else {
        newId := FindEqual(types, id, cands, map_[..], TableBag());
      }
      r := SetCanonical(id, newId, h, m);
    }

    /** btf_dedup_prim_types */
    method DedupPrimTypes() returns (r: Status)
      requires Done(1)
      modifies map_, table, table.buckets, table.home.Keys
      ensures r == Ok && Done(|types|)
    {
      hide H.HashMap.Valid, PrimInv;
      for i := 1 to |types|
        invariant Done(i)
        invariant fresh(table.home.Keys - old(table.home.Keys))
        invariant table.buckets == old(table.buckets) || fresh(table.buckets)
      {
        var err := DedupPrimType(i);
        if err != Ok {
          return err;
        }
      }
      r := Ok;
    }
  }
}

/** When split BTF can be moved from its distilled base onto a full base, and to what. */
module RelocateSpec {
  import opened Words
  import opened BtfRecords
  import opened TypedRecords
  import opened CStrings

  /** <name, size, id> of a type, as sorted and searched; the size is kept in 31 bits. */
  datatype NameInfo = NameInfo(name: string, needsSize: bool, size: nat, id: nat)

  const SIZE_31 := 0x8000_0000

  /** cmp_btf_name_size: by name, then by descending size if both sides ask for sizes. */
  function CmpNameSize(a: NameInfo, b: NameInfo): int {
    var d := StrCmp(a.name, b.name);
    if d == 0 && a.needsSize && b.needsSize then b.size - a.size else d
  }

  ghost predicate SortedInfo(info: seq<NameInfo>) {
    && (forall i :: 0 <= i < |info| ==> info[i].needsSize)
    && forall i, j :: 0 <= i < j < |info| ==> CmpNameSize(info[i], info[j]) <= 0
  }

  lemma CmpTransitive(a: NameInfo, b: NameInfo, c: NameInfo)
    requires a.needsSize && b.needsSize && c.needsSize
    requires CmpNameSize(a, b) <= 0 && CmpNameSize(b, c) <= 0
    ensures CmpNameSize(a, c) <= 0
  {
    StrCmpTransitive(a.name, b.name, c.name);
    StrCmpZero(a.name, b.name);
    StrCmpZero(b.name, c.name);
    StrCmpZero(a.name, c.name);
  }

  lemma CmpFlip(a: NameInfo, b: NameInfo)
    ensures CmpNameSize(a, b) < 0 <==> CmpNameSize(b, a) > 0
  {
    StrCmpFlip(a.name, b.name);
    StrCmpFlip(b.name, a.name);
  }

  /** A key compares with a sorted array first greater, then equal, then smaller, sizes asked for or not. */
  lemma KeyMonotone(key: NameInfo, info: seq<NameInfo>, i: nat, j: nat)
    requires SortedInfo(info) && i < j < |info|
    ensures CmpNameSize(key, info[j]) > 0 ==> CmpNameSize(key, info[i]) > 0
    ensures CmpNameSize(key, info[i]) < 0 ==> CmpNameSize(key, info[j]) < 0
  {
    hide StrCmp;
    var a, b := info[i].name, info[j].name;
    StrCmpFlip(key.name, a);
    StrCmpFlip(a, key.name);
    StrCmpFlip(key.name, b);
    StrCmpFlip(b, key.name);
    if StrCmp(key.name, b) >= 0 {
      StrCmpTransitive(a, b, key.name);
    }
    if StrCmp(key.name, a) <= 0 {
      StrCmpTransitive(key.name, a, b);
    }
    StrCmpZero(key.name, a);
    StrCmpZero(key.name, b);
    StrCmpZero(a, b);
  }

  /** The matches of a key lie side by side, starting at the leftmost. */
  lemma MatchesContiguous(key: NameInfo, info: seq<NameInfo>, i: nat, k: nat)
    requires SortedInfo(info) && i <= k < |info|
    requires CmpNameSize(key, info[i]) == 0 && CmpNameSize(key, info[k]) != 0
    ensures forall j :: k <= j < |info| ==> CmpNameSize(key, info[j]) != 0
  {
    hide CmpNameSize;
    if i < k {
      KeyMonotone(key, info, i, k);
    }
    forall j | k < j < |info|
      ensures CmpNameSize(key, info[j]) != 0
    {
      KeyMonotone(key, info, k, j);
    }
  }

  // ---------------------------------------------------------------------------
  // Which base type a distilled type stands for

  /** The two bases, void first, with their string tables. */
  datatype Input = Input(dist: seq<Record>, base: seq<Record>, distStr: u32 -> string, baseStr: u32 -> string)
  {
    ghost predicate Valid() {
      && 0 < |dist| <= BTF_MAX_NR_TYPES && dist[0] == [0, 0, 0]
      && (forall i :: 1 <= i < |dist| ==> WellSized(dist[i]))
      && 0 < |base| <= BTF_MAX_NR_TYPES && base[0] == [0, 0, 0]
      && forall i :: 1 <= i < |base| ==> WellSized(base[i])
    }

    ghost predicate Dist(d: int) { Valid() && 1 <= d < |dist| }

    ghost predicate Base(b: int) { Valid() && 1 <= b < |base| }
  }

  predicate SizedKind(k: nat) {
    k == BTF_KIND_INT || k == BTF_KIND_FLOAT || k == BTF_KIND_ENUM || k == BTF_KIND_ENUM64
  }

  /** How many composite base types below `n` have their name at `off`. */
  function NameCount(base: seq<Record>, off: u32, n: nat): nat
    requires n <= |base| && forall i :: 0 <= i < n ==> |base[i]| >= BASE
  {
    if n <= 1 then 0
    else NameCount(base, off, n - 1) +
         if IsCompositeKind(Kind(base[n - 1])) && base[n - 1][0] == off then 1 else 0
  }

  /** The search key of a base type; None for types that are skipped. */
  ghost function BaseInfo(x: Input, b: nat): Option<NameInfo>
    requires x.Base(b)
  {
    var r, k := x.base[b], Kind(x.base[b]);
    if r[0] == 0 then None
    else if SizedKind(k) then Some(NameInfo(x.baseStr(r[0]), true, r[2] % SIZE_31, b))
    else if k == BTF_KIND_FWD then Some(NameInfo(x.baseStr(r[0]), false, 0, b))
    else if IsCompositeKind(k) then
      Some(NameInfo(x.baseStr(r[0]), NameCount(x.base, r[0], |x.base|) > 1, r[2] % SIZE_31, b))
    else None
  }

  ghost function DistInfo(x: Input, d: nat): NameInfo
    requires x.Valid() && d < |x.dist|
  {
    NameInfo(x.distStr(x.dist[d][0]), true, x.dist[d][2] % SIZE_31, d)
  }

  /** Base type `b` has the name of distilled type `d`, and its size if that is asked for. */
  ghost predicate Match(x: Input, b: int, d: int) {
    x.Base(b) && 0 <= d < |x.dist| && BaseInfo(x, b).Some? && CmpNameSize(BaseInfo(x, b).value, DistInfo(x, d)) == 0
  }

  /** btf_int_encoding */
  function IntEncoding(r: Record): nat
    requires |r| > BASE
  {
    (r[BASE] / 0x100_0000) % 16
  }

  /** The kind check; for a distilled struct or union it does not look at the base kind. */
  predicate KindOk(b: Record, d: Record)
    requires WellSized(b) && WellSized(d)
  {
    var bk, dk := Kind(b), Kind(d);
    if dk == BTF_KIND_FWD then
      if bk == BTF_KIND_FWD then KflagOf(d[1]) == KflagOf(b[1])
      else if bk == BTF_KIND_STRUCT then !KflagOf(b[1])
      else if bk == BTF_KIND_UNION then KflagOf(b[1])
      else false
    else if dk == BTF_KIND_INT then bk == dk && IntEncoding(b) == IntEncoding(d)
    else if dk == BTF_KIND_FLOAT then bk == dk
    else if dk == BTF_KIND_ENUM then bk == dk || bk == BTF_KIND_ENUM64
    else IsCompositeKind(dk)
  }

  /** `b` could stand for `d` if embedding did not matter. */
  ghost predicate Weak(x: Input, b: int, d: int) {
    Match(x, b, d) && 1 <= d && KindOk(x.base[b], x.dist[d])
  }

  /** `b` can stand for `d`; a composite in `emb` must also keep its size. */
  ghost predicate Strong(x: Input, emb: set<int>, b: int, d: int) {
    Weak(x, b, d) && (IsCompositeKind(Kind(x.dist[d])) && d in emb ==> x.base[b][2] == x.dist[d][2])
  }

  /** `b` is the only base type that can stand for `d`, and no lesser match comes after it. */
  ghost predicate Picks(x: Input, emb: set<int>, b: int, d: int) {
    && Strong(x, emb, b, d)
    && (forall c :: Strong(x, emb, c, d) ==> c == b)
    && (forall c :: Weak(x, c, d) ==> c <= b)
  }

  /** Exactly when the distilled base can be mapped. */
  ghost predicate Mappable(x: Input, emb: set<int>) {
    && (forall b :: !Match(x, b, 0))
    && (forall d :: x.Dist(d) ==> exists b :: Picks(x, emb, b, d))
  }

  const BTF_IS_EMBEDDED: u32 := 0xffff_ffff

  /** The entry of `d` in the id map after the base types below `n`. */
  ghost predicate Entry(x: Input, emb: set<int>, d: int, n: nat, v: u32) {
    if v == 0 || v == BTF_IS_EMBEDDED then
      && (v == BTF_IS_EMBEDDED <==> d in emb)
      && forall b :: 0 <= b < n ==> !Strong(x, emb, b, d)
    else
      && v < n && Strong(x, emb, v, d)
      && (forall b :: 0 <= b < v ==> !Strong(x, emb, b, d))
      && (forall b :: v < b < n ==> !Weak(x, b, d))
  }

  lemma EntrySkip(x: Input, emb: set<int>, d: int, n: nat, v: u32)
    requires Entry(x, emb, d, n, v) && !Weak(x, n, d)
    ensures Entry(x, emb, d, n + 1, v)
  {
  }

  lemma EntryDiffers(x: Input, emb: set<int>, d: int, n: nat, v: u32)
    requires Entry(x, emb, d, n, v) && !Strong(x, emb, n, d) && (v == 0 || v == BTF_IS_EMBEDDED)
    ensures Entry(x, emb, d, n + 1, v)
  {
  }

  lemma EntryFound(x: Input, emb: set<int>, d: int, n: nat, v: u32)
    requires Entry(x, emb, d, n, v) && Strong(x, emb, n, d) && (v == 0 || v == BTF_IS_EMBEDDED)
    requires n < BTF_IS_EMBEDDED
    ensures Entry(x, emb, d, n + 1, n)
  {
  }

  /** A second match after the first strong one is an ambiguity. */
  lemma EntryAmbiguous(x: Input, emb: set<int>, d: int, n: nat, v: u32)
    requires Entry(x, emb, d, n, v) && Weak(x, n, d) && v != 0 && v != BTF_IS_EMBEDDED
    ensures !Mappable(x, emb)
  {
    assert x.Dist(d);
    assert forall b :: !Picks(x, emb, b, d);
  }

  /** After all base types, the entry is the pick, or there is none. */
  lemma EntryFinal(x: Input, emb: set<int>, d: int, v: u32)
    requires Entry(x, emb, d, |x.base|, v) && x.Dist(d)
    ensures v != 0 && v != BTF_IS_EMBEDDED ==> Picks(x, emb, v, d)
    ensures v == 0 || v == BTF_IS_EMBEDDED ==> forall b :: !Picks(x, emb, b, d)
  {
  }

  /** The id map when distilled type `d` has been compared with the base types below `n`. */
  ghost predicate At(x: Input, emb: set<int>, m: seq<u32>, d: nat, n: nat)
    requires d < |m|
  {
    if d == 0 then m[0] == 0 && forall b :: 0 <= b < n ==> !Match(x, b, 0) else Entry(x, emb, d, n, m[d])
  }

  ghost predicate AllAt(x: Input, emb: set<int>, m: seq<u32>, n: nat) {
    |x.dist| <= |m| && forall d :: 0 <= d < |x.dist| ==> At(x, emb, m, d, n)
  }

  /** Base type `b` has been compared with the distilled types at sorted positions below `k`. */
  ghost predicate Scanned(x: Input, emb: set<int>, m: seq<u32>, pos: seq<nat>, k: nat, b: nat) {
    && |pos| == |x.dist| <= |m|
    && forall d :: 0 <= d < |pos| ==> At(x, emb, m, d, if pos[d] < k then b + 1 else b)
  }

  lemma AtSkip(x: Input, emb: set<int>, m: seq<u32>, d: nat, n: nat)
    requires d < |m| && At(x, emb, m, d, n) && !Match(x, n, d)
    ensures At(x, emb, m, d, n + 1)
  {
  }

  lemma AtStart(x: Input, emb: set<int>, m: seq<u32>)
    requires x.Valid() && |x.dist| <= |m|
    requires m[0] == 0 && forall d :: 1 <= d < |x.dist| ==> m[d] == if d in emb then BTF_IS_EMBEDDED else 0
    ensures AllAt(x, emb, m, 1)
  {
  }

  /** After all base types: every distilled type has its pick, or one has none. */
  lemma AtEnd(x: Input, emb: set<int>, m: seq<u32>, d: nat)
    requires x.Dist(d) && d < |m| && At(x, emb, m, d, |x.base|)
    ensures m[d] != 0 && m[d] != BTF_IS_EMBEDDED ==> Picks(x, emb, m[d], d)
    ensures m[d] == 0 || m[d] == BTF_IS_EMBEDDED ==> !Mappable(x, emb)
  {
    EntryFinal(x, emb, d, m[d]);
  }

  /** The id map of a relocation that went through. */
  ghost predicate Relocated(x: Input, emb: set<int>, m: seq<u32>) {
    && x.Valid() && |x.dist| <= |m|
    && m[0] == 0
    && (forall d :: 1 <= d < |x.dist| ==> Picks(x, emb, m[d], d))
    && (forall i :: |x.dist| <= i < |m| ==> m[i] == i + |x.base| - |x.dist|)
  }

  /**
   * Every distilled type becomes a base type of the same name, of the same size if it is embedded, and
   * of a kind that its own allows.
   */
  lemma RelocatedDistilled(x: Input, emb: set<int>, m: seq<u32>, d: nat)
    requires Relocated(x, emb, m) && 1 <= d < |x.dist|
    ensures 1 <= m[d] < |x.base| && x.baseStr(x.base[m[d]][0]) == x.distStr(x.dist[d][0])
    ensures IsCompositeKind(Kind(x.dist[d])) && d in emb ==> x.base[m[d]][2] == x.dist[d][2]
    ensures SizedKind(Kind(x.dist[d])) && Kind(x.dist[d]) != BTF_KIND_ENUM64 ==>
              x.base[m[d]][2] % SIZE_31 == x.dist[d][2] % SIZE_31
    ensures var dk, bk := Kind(x.dist[d]), Kind(x.base[m[d]]);
            && (dk == BTF_KIND_INT ==> bk == dk && IntEncoding(x.base[m[d]]) == IntEncoding(x.dist[d]))
            && (dk == BTF_KIND_FLOAT ==> bk == dk)
            && (dk == BTF_KIND_ENUM ==> bk == dk || bk == BTF_KIND_ENUM64)
            && (dk == BTF_KIND_FWD ==>
                  || (bk == dk && KflagOf(x.base[m[d]][1]) == KflagOf(x.dist[d][1]))
                  || (bk == BTF_KIND_STRUCT && !KflagOf(x.base[m[d]][1]))
                  || (bk == BTF_KIND_UNION && KflagOf(x.base[m[d]][1])))
    ensures forall b :: Strong(x, emb, b, d) ==> b == m[d]
  {
    assert Picks(x, emb, m[d], d);
    StrCmpZero(BaseInfo(x, m[d]).value.name, DistInfo(x, d).name);
  }

  /** Old ids go to new ids: void to void, distilled to base, split types onto the ids after the base, in order. */
  lemma RelocatedIds(x: Input, emb: set<int>, m: seq<u32>, i: nat)
    requires Relocated(x, emb, m) && i < |m|
    ensures i == 0 <==> m[i] == 0
    ensures i < |x.dist| <==> m[i] < |x.base|
    ensures i >= |x.dist| ==> m[i] - |x.base| == i - |x.dist|
    ensures m[i] < |x.base| + |m| - |x.dist|
  {
    if 1 <= i < |x.dist| {
      RelocatedDistilled(x, emb, m, i);
    }
  }

  /**
   * The base kind is not checked for a distilled struct or union: here "s", a struct of four bytes,
   * is taken to be the enum "s".
   */
  lemma StructMayBecomeEnum(x: Input)
    requires x.Valid() && x.dist == [[0, 0, 0], [1, 0x400_0000, 4]] && x.base == [[0, 0, 0], [1, 0x600_0000, 4]]
    requires x.distStr(1) == x.baseStr(1) == "s" && x.distStr(0) == x.baseStr(0) == ""
    ensures Mappable(x, {}) && Picks(x, {}, 1, 1)
    ensures IsCompositeKind(Kind(x.dist[1])) && Kind(x.base[1]) == BTF_KIND_ENUM
  {
    StrCmpZero("s", "s");
    StrCmpZero("s", "");
    assert Match(x, 1, 1);
    assert !Match(x, 1, 0);
    assert Picks(x, {}, 1, 1);
  }

  /** Nor is it checked that a struct stays a struct: here "s" is taken to be the union "s". */
  lemma StructMayBecomeUnion(x: Input)
    requires x.Valid() && x.dist == [[0, 0, 0], [1, 0x400_0000, 4]] && x.base == [[0, 0, 0], [1, 0x500_0000, 4]]
    requires x.distStr(1) == x.baseStr(1) == "s" && x.distStr(0) == x.baseStr(0) == ""
    ensures Mappable(x, {}) && Picks(x, {}, 1, 1)
    ensures Kind(x.dist[1]) == BTF_KIND_STRUCT && Kind(x.base[1]) == BTF_KIND_UNION
  {
    StrCmpZero("s", "s");
    StrCmpZero("s", "");
    assert Match(x, 1, 1);
    assert !Match(x, 1, 0);
    assert Picks(x, {}, 1, 1);
  }

  /** For a forward declaration only the flag of the base struct counts: a union "s" is taken to be a struct "s". */
  lemma UnionFwdMayBecomeStruct(x: Input)
    requires x.Valid() && x.dist == [[0, 0, 0], [1, 0x8700_0000, 0]] && x.base == [[0, 0, 0], [1, 0x400_0000, 4]]
    requires x.distStr(1) == x.baseStr(1) == "s" && x.distStr(0) == x.baseStr(0) == ""
    ensures Mappable(x, {}) && Picks(x, {}, 1, 1)
    ensures Kind(x.dist[1]) == BTF_KIND_FWD && KflagOf(x.dist[1][1]) && Kind(x.base[1]) == BTF_KIND_STRUCT
  {
    StrCmpZero("s", "s");
    StrCmpZero("s", "");
    assert NameCount(x.base, 1, 1) == 0;
    assert Match(x, 1, 1);
    assert !Match(x, 1, 0);
    assert Picks(x, {}, 1, 1);
  }

  /** An embedded struct "s" of four bytes, and a forward "s" behind the struct "s" of the base: ambiguous. */
  lemma ForwardAfterMatch(x: Input)
    requires x.Valid() && x.dist == [[0, 0, 0], [1, 0x400_0000, 4]]
    requires x.base == [[0, 0, 0], [1, 0x400_0000, 4], [1, 0x700_0000, 0]]
    requires x.distStr(1) == x.baseStr(1) == "s" && x.distStr(0) == x.baseStr(0) == ""
    ensures !Mappable(x, {1})
  {
    StrCmpZero("s", "s");
    assert NameCount(x.base, 1, 1) == 0 && NameCount(x.base, 1, 2) == 1;
    assert x.Dist(1) && Weak(x, 2, 1) && !Strong(x, {1}, 2, 1);
    assert forall b :: !Picks(x, {1}, b, 1);
  }

  /** With the forward in front of the struct, it is skipped. */
  lemma ForwardBeforeMatch(x: Input)
    requires x.Valid() && x.dist == [[0, 0, 0], [1, 0x400_0000, 4]]
    requires x.base == [[0, 0, 0], [1, 0x700_0000, 0], [1, 0x400_0000, 4]]
    requires x.distStr(1) == x.baseStr(1) == "s" && x.distStr(0) == x.baseStr(0) == ""
    ensures Mappable(x, {1}) && Picks(x, {1}, 2, 1)
  {
    StrCmpZero("s", "s");
    StrCmpZero("s", "");
    assert NameCount(x.base, 1, 1) == 0 && NameCount(x.base, 1, 2) == 0;
    assert Match(x, 2, 1) && Match(x, 1, 1);
    assert !Match(x, 1, 0) && !Match(x, 2, 0);
    assert Picks(x, {1}, 2, 1);
  }

  /** What a distilled struct or union can be mapped to: a match, of the same size if that is embedded. */
  ghost predicate Offered(x: Input, emb: set<int>, b: int, d: int) {
    Match(x, b, d) && 1 <= d && (d in emb ==> x.base[b][2] == x.dist[d][2])
  }

  lemma OfferedIsStrong(x: Input, emb: set<int>, d: nat)
    requires x.Dist(d) && IsCompositeKind(Kind(x.dist[d]))
    ensures forall b :: Offered(x, emb, b, d) <==> Strong(x, emb, b, d)
  {
  }

  /** A struct or union stays one exactly if it is offered no type that is neither. */
  lemma CompositeStays(x: Input, emb: set<int>, m: seq<u32>, d: nat)
    requires Relocated(x, emb, m) && 1 <= d < |x.dist| && IsCompositeKind(Kind(x.dist[d]))
    ensures 1 <= m[d] < |x.base|
    ensures IsCompositeKind(Kind(x.base[m[d]])) <==>
              forall b :: Offered(x, emb, b, d) ==> IsCompositeKind(Kind(x.base[b]))
  {
    OfferedIsStrong(x, emb, d);
    RelocatedDistilled(x, emb, m, d);
  }

  /** A struct stays a struct, and a union a union, exactly if it is offered no type of another kind. */
  lemma CompositeKindKept(x: Input, emb: set<int>, m: seq<u32>, d: nat)
    requires Relocated(x, emb, m) && 1 <= d < |x.dist| && IsCompositeKind(Kind(x.dist[d]))
    ensures 1 <= m[d] < |x.base|
    ensures Kind(x.base[m[d]]) == Kind(x.dist[d]) <==>
              forall b :: Offered(x, emb, b, d) ==> Kind(x.base[b]) == Kind(x.dist[d])
  {
    OfferedIsStrong(x, emb, d);
    RelocatedDistilled(x, emb, m, d);
  }

  /** A base type of the sort that the forward declaration `d` declares. */
  predicate Declares(d: Record, b: Record)
    requires |d| >= BASE && |b| >= BASE
  {
    if Kind(b) == BTF_KIND_FWD then KflagOf(d[1]) == KflagOf(b[1])
    else Kind(b) == if KflagOf(d[1]) then BTF_KIND_UNION else BTF_KIND_STRUCT
  }

  /**
   * A forward declaration of a union becomes a union, or a forward of one, and that of a struct a
   * struct, exactly if no match with an accepted flag is of the other sort.
   */
  lemma FwdKept(x: Input, emb: set<int>, m: seq<u32>, d: nat)
    requires Relocated(x, emb, m) && 1 <= d < |x.dist| && Kind(x.dist[d]) == BTF_KIND_FWD
    ensures 1 <= m[d] < |x.base|
    ensures Declares(x.dist[d], x.base[m[d]]) <==>
              forall b :: Match(x, b, d) && IsCompositeKind(Kind(x.base[b])) &&
                          (Kind(x.base[b]) == BTF_KIND_UNION <==> KflagOf(x.base[b][1])) ==>
                Declares(x.dist[d], x.base[b])
  {
    RelocatedDistilled(x, emb, m, d);
    assert Strong(x, emb, m[d], d);
    forall b | Match(x, b, d) && IsCompositeKind(Kind(x.base[b])) &&
               (Kind(x.base[b]) == BTF_KIND_UNION <==> KflagOf(x.base[b][1]))
      ensures b == m[d]
    {
      assert Strong(x, emb, b, d);
    }
  }

  lemma AtSame(x: Input, emb: set<int>, m: seq<u32>, m': seq<u32>, d: nat, n: nat)
    requires d < |m| == |m'| && m[d] == m'[d] && At(x, emb, m, d, n)
    ensures At(x, emb, m', d, n)
  {
  }

  // ---------------------------------------------------------------------------
  // The same conditions on types instead of words

  /** Base type `b` is of a sort that distilled type `d` can become. */
  predicate CanStandFor(b: BtfType, d: BtfType) {
    match d
    case Fwd(_, kflag, _) =>
      (b.Fwd? && b.kflag == kflag) || (b.Struct? && !b.kflag) || (b.Union? && b.kflag)
    case Int(_, _, encoding) => b.Int? && (b.encoding / 0x100_0000) % 16 == (encoding / 0x100_0000) % 16
    case Float(_, _) => b.Float?
    case Enum(_, _, _, _) => b.Enum? || b.Enum64?
    case Struct(_, _, _, _) => true
    case Union(_, _, _, _) => true
    case _ => false
  }

  lemma KindOkIsTyped(b: BtfType, u: u32, d: BtfType, v: u32)
    requires b.Proper() && d.Proper() && WellSized(Encode(b, u)) && WellSized(Encode(d, v))
    ensures KindOk(Encode(b, u), Encode(d, v)) <==> CanStandFor(b, d)
  {
    InfoFields(b, u);
    InfoFields(d, v);
    EncodeWords(b, u);
    EncodeWords(d, v);
    hide Encode, Info, KindOf, VlenOf, KflagOf, TrailingWords;
  }

  /** Base types of other kinds are skipped. */
  predicate IsSought(t: BtfType) {
    t.Fwd? || t.Struct? || t.Union? || t.Int? || t.Float? || t.Enum? || t.Enum64?
  }

  /** Another struct or union of the base has the name of type `b`. */
  ghost predicate SharesName(x: Input, b: nat)
    requires x.Base(b)
  {
    exists c :: 1 <= c < |x.base| && c != b && x.base[c][0] == x.base[b][0] &&
      (Kind(x.base[c]) == BTF_KIND_STRUCT || Kind(x.base[c]) == BTF_KIND_UNION)
  }

  lemma {:induction false} NameCountNone(base: seq<Record>, off: u32, n: nat)
    requires n <= |base| && forall i :: 0 <= i < |base| ==> |base[i]| >= BASE
    ensures NameCount(base, off, n) == 0 <==>
              forall c :: 1 <= c < n && base[c][0] == off ==> !IsCompositeKind(Kind(base[c]))
  {
    if n > 1 {
      NameCountNone(base, off, n - 1);
    }
  }

  lemma {:induction false} NameCountTwo(base: seq<Record>, off: u32, n: nat, b: nat)
    requires n <= |base| && forall i :: 0 <= i < |base| ==> |base[i]| >= BASE
    requires 1 <= b < n && base[b][0] == off && IsCompositeKind(Kind(base[b]))
    ensures NameCount(base, off, n) > 1 <==>
              exists c :: 1 <= c < n && c != b && base[c][0] == off && IsCompositeKind(Kind(base[c]))
  {
    hide KindOf, IsCompositeKind;
    NameCountNone(base, off, n - 1);
    if b < n - 1 {
      NameCountTwo(base, off, n - 1, b);
    }
  }

  /** Exactly when a base type has the name of a distilled type, and its size if that matters. */
  lemma MatchIsTyped(x: Input, b: nat, d: nat, t: BtfType, u: u32)
    requires x.Base(b) && x.Dist(d) && t.Proper() && x.base[b] == Encode(t, u)
    ensures Match(x, b, d) <==>
              && t.name != 0 && x.baseStr(t.name) == x.distStr(x.dist[d][0])
              && IsSought(t)
              && ((t.Int? || t.Float? || t.Enum? || t.Enum64? || ((t.Struct? || t.Union?) && SharesName(x, b))) ==>
                    t.size % 0x8000_0000 == x.dist[d][2] % 0x8000_0000)
  {
    InfoFields(t, u);
    EncodeWords(t, u);
    StrCmpZero(x.baseStr(t.name), x.distStr(x.dist[d][0]));
    hide Encode, Info, KindOf, VlenOf, KflagOf, TrailingWords, StrCmp, NameCount;
    if t.Struct? || t.Union? {
      NameCountTwo(x.base, t.name, |x.base|, b);
    }
  }

  /** Base type `b` is the only one with the name of distilled type `d`, of its size and of a sort it can become. */
  ghost predicate OnlyNamesake(x: Input, b: nat, d: nat) {
    && x.Base(b) && x.Dist(d) && x.base[b][0] != 0 && x.base[b][2] == x.dist[d][2]
    && x.baseStr(x.base[b][0]) == x.distStr(x.dist[d][0])
    && (forall c :: 1 <= c < |x.base| && x.base[c][0] != 0 && x.baseStr(x.base[c][0]) == x.distStr(x.dist[d][0]) ==>
          c == b)
    && exists t: BtfType, u: u32, s: BtfType, v: u32 :: t.Proper() && s.Proper() && x.base[b] == Encode(t, u) &&
         x.dist[d] == Encode(s, v) && IsSought(t) && CanStandFor(t, s)
  }

  /** Such a base type is picked. */
  lemma NamesakePicked(x: Input, emb: set<int>, b: nat, d: nat)
    requires OnlyNamesake(x, b, d)
    ensures Picks(x, emb, b, d)
  {
    var t: BtfType, u: u32, s: BtfType, v: u32 :| t.Proper() && s.Proper() && x.base[b] == Encode(t, u) &&
      x.dist[d] == Encode(s, v) && IsSought(t) && CanStandFor(t, s);
    assert WellSized(x.base[b]) && WellSized(x.dist[d]);
    KindOkIsTyped(t, u, s, v);
    NamesakeMatches(x, b, d, t, u);
    hide Encode, Info, KindOf, CanStandFor, KindOk, WellSized, IsSought, BaseInfo;
    assert Strong(x, emb, b, d) by {
      hide Match;
    }
    forall c | Match(x, c, d)
      ensures c == b
    {
      MatchSameName(x, c, d);
    }
    hide Match;
  }

  lemma NamesakeMatches(x: Input, b: nat, d: nat, t: BtfType, u: u32)
    requires x.Base(b) && x.Dist(d) && x.base[b][0] != 0 && x.base[b][2] == x.dist[d][2]
    requires x.baseStr(x.base[b][0]) == x.distStr(x.dist[d][0])
    requires t.Proper() && x.base[b] == Encode(t, u) && IsSought(t)
    ensures Match(x, b, d)
  {
    EncodeWords(t, u);
    MatchIsTyped(x, b, d, t, u);
    hide Encode, Info, Match, WellSized;
  }

  lemma MatchSameName(x: Input, c: int, d: nat)
    requires Match(x, c, d)
    ensures x.Base(c) && x.base[c][0] != 0 && x.baseStr(x.base[c][0]) == x.distStr(x.dist[d][0])
  {
    StrCmpZero(BaseInfo(x, c).value.name, DistInfo(x, d).name);
    hide StrCmp, KindOf, NameCount;
  }

  /** So a base with one type for every distilled type, and none without characters in its name, can be used. */
  lemma NamesakesMappable(x: Input, emb: set<int>, pick: seq<nat>)
    requires x.Valid() && |pick| == |x.dist| && forall d :: 1 <= d < |x.dist| ==> OnlyNamesake(x, pick[d], d)
    requires forall c :: 1 <= c < |x.base| && x.base[c][0] != 0 ==> x.baseStr(x.base[c][0]) != x.distStr(0)
    ensures Mappable(x, emb)
  {
    hide OnlyNamesake, Picks, Match;
    forall b
      ensures !Match(x, b, 0)
    {
      if Match(x, b, 0) {
        MatchSameName(x, b, 0);
      }
    }
    forall d | x.Dist(d)
      ensures exists b :: Picks(x, emb, b, d)
    {
      NamesakePicked(x, emb, pick[d], d);
    }
  }
}

/** Which composite types a composite type embeds by value. */
module EmbedSpec {
  import opened Words
  import opened BtfRecords

  /** Kinds that are looked through; pointers are not. */
  predicate IsThrough(k: nat) {
    IsModKind(k) || k == BTF_KIND_TYPEDEF || k == BTF_KIND_TYPE_TAG || k == BTF_KIND_ARRAY
  }

  ghost predicate GoodGraph(types: seq<Record>) {
    && 0 < |types| <= BTF_MAX_NR_TYPES && types[0] == [0, 0, 0]
    && (forall i :: 1 <= i < |types| ==> WellSized(types[i]))
    && forall i :: 0 <= i < |types| ==> RefsBelow(types[i], |types|)
  }

  ghost predicate Id(types: seq<Record>, i: int) { GoodGraph(types) && 0 <= i < |types| }

  predicate Through(r: Record)
    requires |r| >= BASE
  {
    IsThrough(Kind(r))
  }

  /** The element type of an array, the target of anything else that is looked through. */
  ghost function Next(types: seq<Record>, i: nat): (n: nat)
    requires Id(types, i) && Through(types[i])
    ensures n < |types|
  {
    var p := if Kind(types[i]) == BTF_KIND_ARRAY then BASE else 2;
    assert IsRef(types[i][1], p);
    types[i][p]
  }

  /** Looking through types comes to an end. */
  ghost predicate Ranked(types: seq<Record>, rank: seq<nat>) {
    && GoodGraph(types) && |rank| == |types|
    && forall i :: 0 <= i < |types| && Through(types[i]) ==> rank[Next(types, i)] < rank[i]
  }

  ghost predicate ChainsEnd(types: seq<Record>) {
    exists rank :: Ranked(types, rank)
  }

  ghost function ValueTypeBy(types: seq<Record>, rank: seq<nat>, i: nat): (r: nat)
    requires Ranked(types, rank) && i < |types|
    ensures r < |types| && !Through(types[r])
    decreases rank[i]
  {
    if Through(types[i]) then ValueTypeBy(types, rank, Next(types, i)) else i
  }

  lemma {:induction false} ValueTypeAnyRank(types: seq<Record>, r1: seq<nat>, r2: seq<nat>, i: nat)
    requires Ranked(types, r1) && Ranked(types, r2) && i < |types|
    ensures ValueTypeBy(types, r1, i) == ValueTypeBy(types, r2, i)
    decreases r1[i]
  {
    if Through(types[i]) {
      ValueTypeAnyRank(types, r1, r2, Next(types, i));
    }
  }

  /** What a value of type `i` consists of, behind typedefs, qualifiers and arrays. */
  ghost function ValueType(types: seq<Record>, i: nat): (r: nat)
    requires ChainsEnd(types) && i < |types|
    ensures r < |types|
  {
    var rank :| Ranked(types, rank);
    ValueTypeBy(types, rank, i)
  }

  lemma ValueTypeStep(types: seq<Record>, i: nat)
    requires ChainsEnd(types) && i < |types|
    ensures Id(types, i)
    ensures ValueType(types, i) == if Through(types[i]) then ValueType(types, Next(types, i)) else i
  {
    var rank :| Ranked(types, rank) && ValueType(types, i) == ValueTypeBy(types, rank, i);
    if Through(types[i]) {
      var rank' :| Ranked(types, rank') &&
            ValueType(types, Next(types, i)) == ValueTypeBy(types, rank', Next(types, i));
      ValueTypeAnyRank(types, rank, rank', Next(types, i));
    }
  }

  lemma FollowStep(types: seq<Record>, rank: seq<nat>, i: nat)
    requires Ranked(types, rank) && i < |types|
    ensures |rank| == |types| && ChainsEnd(types) && Id(types, i) && types[0] == [0, 0, 0]
    ensures Through(types[i]) ==>
              && rank[Next(types, i)] < rank[i]
              && ValueType(types, i) == ValueType(types, Next(types, i))
    ensures !Through(types[i]) ==> ValueType(types, i) == i
    ensures i == 0 ==> !Through(types[i])
  {
    ValueTypeStep(types, i);
  }

  /** Word `p` of composite `i` is a member of composite type `d`. */
  ghost predicate EmbedsAt(types: seq<Record>, i: nat, p: nat, d: int) {
    && ChainsEnd(types) && Id(types, i) && IsCompositeKind(Kind(types[i]))
    && p < |types[i]| && IsRef(types[i][1], p) && types[i][p] < |types|
    && ValueType(types, types[i][p]) == d && d != 0 && Id(types, d) && IsCompositeKind(Kind(types[d]))
  }

  /** Some composite with an id in [nd, n), or word before `done` of composite `n`, embeds `d`. */
  ghost predicate EmbeddedUpTo(types: seq<Record>, nd: nat, n: nat, done: nat, d: int) {
    exists i: nat, p: nat :: EmbedsAt(types, i, p, d) && nd <= i && (i < n || (i == n && p < done))
  }

  /** The types below `nd` that a composite from `nd` on embeds. */
  ghost function Embedded(types: seq<Record>, nd: nat): set<int> {
    set d | 1 <= d < nd && EmbeddedUpTo(types, nd, |types|, 0, d)
  }

  /** The id map while embedded types are being marked. */
  ghost predicate MarkedUpTo(types: seq<Record>, nd: nat, m: seq<u32>, n: nat, done: nat) {
    && nd <= |m| && (nd > 0 ==> m[0] == 0)
    && forall d :: 1 <= d < nd ==> m[d] == if EmbeddedUpTo(types, nd, n, done, d) then 0xffff_ffff else 0
  }

  lemma MarkSkip(types: seq<Record>, nd: nat, m: seq<u32>, n: nat)
    requires MarkedUpTo(types, nd, m, n, 0) && Id(types, n) && !IsCompositeKind(Kind(types[n]))
    ensures MarkedUpTo(types, nd, m, n + 1, 0)
  {
    forall d | 1 <= d < nd
      ensures EmbeddedUpTo(types, nd, n + 1, 0, d) <==> EmbeddedUpTo(types, nd, n, 0, d)
    {
    }
  }

  /** Word `pos` is the next reference of composite `n`; `d` is what it embeds, if anything. */
  lemma MarkStep(types: seq<Record>, nd: nat, m: seq<u32>, m': seq<u32>, n: nat, done: nat, pos: nat)
    requires MarkedUpTo(types, nd, m, n, done) && nd <= n && Id(types, n) && IsCompositeKind(Kind(types[n]))
    requires Awaits(types[n][1], done, Some(pos)) && pos < |types[n]| && types[n][pos] < |types| && ChainsEnd(types)
    requires var d := ValueType(types, types[n][pos]);
             m' == if d != 0 && Id(types, d) && IsCompositeKind(Kind(types[d])) && d < nd
                   then m[d := 0xffff_ffff] else m
    ensures MarkedUpTo(types, nd, m', n, pos + 1)
  {
    hide ValueType, ChainsEnd, GoodGraph, IsRef, IsCompositeKind, KindOf;
    forall d | 1 <= d < nd
      ensures EmbeddedUpTo(types, nd, n, pos + 1, d) <==>
            EmbeddedUpTo(types, nd, n, done, d) || EmbedsAt(types, n, pos, d)
    {
      if i: nat, p: nat :| EmbedsAt(types, i, p, d) && nd <= i && (i < n || (i == n && p < pos + 1)) {
        if i == n && p >= done {
          assert p == pos;
        } else {
          assert EmbeddedUpTo(types, nd, n, done, d);
        }
      }
    }
  }

  lemma MarkEnd(types: seq<Record>, nd: nat, m: seq<u32>, n: nat, done: nat)
    requires MarkedUpTo(types, nd, m, n, done) && Id(types, n) && Awaits(types[n][1], done, None)
    ensures MarkedUpTo(types, nd, m, n + 1, 0)
  {
    hide ValueType, ChainsEnd, GoodGraph, IsRef, IsCompositeKind, KindOf;
    forall d | 1 <= d < nd
      ensures EmbeddedUpTo(types, nd, n + 1, 0, d) <==> EmbeddedUpTo(types, nd, n, done, d)
    {
      if i: nat, p: nat :| EmbedsAt(types, i, p, d) && nd <= i && (i < n + 1 || (i == n + 1 && p < 0)) {
        assert i < n || (i == n && p < done);
      }
    }
  }

  lemma MarkAll(types: seq<Record>, nd: nat, m: seq<u32>)
    requires MarkedUpTo(types, nd, m, |types|, 0)
    ensures forall d :: 1 <= d < nd ==> m[d] == if d in Embedded(types, nd) then 0xffff_ffff else 0
  {
  }

  // ---------------------------------------------------------------------------
  // Embedding in terms of the kinds of the format

  /** A value of type `r` consists of one, or many, of the type in word `p`. */
  predicate ByValue(r: Record, p: nat)
    requires |r| >= BASE
  {
    var k := Kind(r);
    if k == BTF_KIND_ARRAY then p == 3
    else
      && p == 2
      && (k == BTF_KIND_TYPEDEF || k == BTF_KIND_CONST || k == BTF_KIND_VOLATILE || k == BTF_KIND_RESTRICT ||
          k == BTF_KIND_TYPE_TAG)
  }

  /** A struct or union. */
  predicate IsStructOrUnion(r: Record)
    requires |r| >= BASE
  {
    Kind(r) == BTF_KIND_STRUCT || Kind(r) == BTF_KIND_UNION
  }

  ghost predicate ConsistsOf(types: seq<Record>, a: nat, b: nat) {
    && a < |types| && |types[a]| >= BASE
    && exists p :: 0 <= p < |types[a]| && ByValue(types[a], p) && types[a][p] == b
  }

  /** Each type of the path consists of the next. */
  ghost predicate ValuePath(types: seq<Record>, path: seq<nat>) {
    && path != [] && (forall k :: 0 <= k < |path| ==> path[k] < |types| && |types[path[k]]| >= BASE)
    && forall k :: 0 <= k < |path| - 1 ==> ConsistsOf(types, path[k], path[k + 1])
  }

  /** Member `j` of composite `i` is, behind typedefs, qualifiers, tags and arrays, of the struct or union `d`. */
  ghost predicate HoldsAt(types: seq<Record>, i: nat, j: nat, path: seq<nat>, d: nat) {
    && i < |types| && |types[i]| >= BASE && IsStructOrUnion(types[i]) && j < Vlen(types[i]) && 4 + 3 * j < |types[i]|
    && ValuePath(types, path) && path[0] == types[i][4 + 3 * j] && path[|path| - 1] == d && IsStructOrUnion(types[d])
  }

  lemma ConsistsOfNext(types: seq<Record>, i: nat, j: nat)
    requires Id(types, i)
    ensures ConsistsOf(types, i, j) <==> Through(types[i]) && j == Next(types, i)
  {
    if Through(types[i]) {
      var q := if Kind(types[i]) == BTF_KIND_ARRAY then 3 else 2;
      assert IsRef(types[i][1], q);
      assert ByValue(types[i], q);
    }
  }

  /** A path that ends in a struct or union leads to what a value of its first type consists of. */
  lemma {:induction false} PathToValue(types: seq<Record>, path: seq<nat>)
    requires ChainsEnd(types) && ValuePath(types, path) && IsStructOrUnion(types[path[|path| - 1]])
    ensures path[0] < |types| && ValueType(types, path[0]) == path[|path| - 1]
    decreases |path|
  {
    ValueTypeStep(types, path[0]);
    if |path| > 1 {
      assert ConsistsOf(types, path[0], path[1]);
      ConsistsOfNext(types, path[0], path[1]);
      hide ValueType, ChainsEnd, GoodGraph, KindOf, ConsistsOf;
      PathTail(types, path);
      PathToValue(types, path[1..]);
    }
  }

  lemma PathTail(types: seq<Record>, path: seq<nat>)
    requires ValuePath(types, path) && |path| > 1
    ensures ValuePath(types, path[1..])
  {
    hide ConsistsOf;
    var t := path[1..];
    forall k | 0 <= k < |t| - 1
      ensures ConsistsOf(types, t[k], t[k + 1])
    {
      assert t[k] == path[k + 1] && t[k + 1] == path[k + 1 + 1];
    }
  }

  lemma {:induction false} PathOfValue(types: seq<Record>, rank: seq<nat>, i: nat) returns (path: seq<nat>)
    requires Ranked(types, rank) && i < |types|
    ensures ValuePath(types, path) && path[0] == i && path[|path| - 1] == ValueTypeBy(types, rank, i)
    decreases rank[i]
  {
    if Through(types[i]) {
      ConsistsOfNext(types, i, Next(types, i));
      var rest := PathOfValue(types, rank, Next(types, i));
      hide ConsistsOf, GoodGraph, Through;
      path := [i] + rest;
      PathCons(types, i, rest);
    } else {
      path := [i];
    }
  }

  lemma PathCons(types: seq<Record>, i: nat, rest: seq<nat>)
    requires ValuePath(types, rest) && i < |types| && |types[i]| >= BASE && ConsistsOf(types, i, rest[0])
    ensures ValuePath(types, [i] + rest)
  {
    hide ConsistsOf;
    var path := [i] + rest;
    forall k | 0 <= k < |path| - 1
      ensures ConsistsOf(types, path[k], path[k + 1])
    {
      if k > 0 {
        assert path[k] == rest[k - 1] && path[k + 1] == rest[k - 1 + 1];
      }
    }
  }

  lemma MemberIsRef(r: Record, p: nat)
    requires WellSized(r) && IsStructOrUnion(r)
    ensures p < |r| && IsRef(r[1], p) <==> exists j: nat :: j < Vlen(r) && p == 4 + 3 * j
    ensures |r| == 3 + 3 * Vlen(r)
  {
    if p < |r| && IsRef(r[1], p) {
      assert p == 4 + 3 * ((p - 3) / 3);
    }
    if j: nat :| j < Vlen(r) && p == 4 + 3 * j {
      assert (3 * j + 1) % 3 == 1;
    }
  }

  lemma CompositeIs(r: Record)
    requires |r| >= BASE
    ensures IsStructOrUnion(r) <==> IsCompositeKind(Kind(r))
  {
  }

  /** What is embedded, exactly: the structs and unions below `nd` that a member of a later one is, by value. */
  lemma EmbeddedExactly(types: seq<Record>, nd: nat, d: nat)
    requires ChainsEnd(types) && 1 <= d < nd <= |types|
    ensures d in Embedded(types, nd) <==>
              exists i: nat, j: nat, path: seq<nat> :: nd <= i && HoldsAt(types, i, j, path, d)
  {
    if i: nat, j: nat, path: seq<nat> :| nd <= i && HoldsAt(types, i, j, path, d) {
      HeldIsEmbedded(types, nd, i, j, path, d);
    }
    if d in Embedded(types, nd) {
      var i: nat, p: nat :| EmbedsAt(types, i, p, d) && nd <= i && (i < |types| || (i == |types| && p < 0));
      EmbeddedIsHeld(types, i, p, d);
    }
  }

  lemma HeldIsEmbedded(types: seq<Record>, nd: nat, i: nat, j: nat, path: seq<nat>, d: nat)
    requires ChainsEnd(types) && 1 <= d < nd <= i && HoldsAt(types, i, j, path, d)
    ensures d in Embedded(types, nd)
  {
    PathToValue(types, path);
    MemberIsRef(types[i], 4 + 3 * j);
    CompositeIs(types[i]);
    CompositeIs(types[d]);
    hide ValueType, ChainsEnd, KindOf, IsCompositeKind, IsStructOrUnion, ValuePath;
    assert EmbedsAt(types, i, 4 + 3 * j, d);
  }

  lemma EmbeddedIsHeld(types: seq<Record>, i: nat, p: nat, d: nat)
    requires EmbedsAt(types, i, p, d)
    ensures exists j: nat, path: seq<nat> :: HoldsAt(types, i, j, path, d)
  {
    var rank :| Ranked(types, rank) && ValueType(types, types[i][p]) == ValueTypeBy(types, rank, types[i][p]);
    var path := PathOfValue(types, rank, types[i][p]);
    CompositeIs(types[i]);
    CompositeIs(types[d]);
    MemberIsRef(types[i], p);
    var j: nat :| j < Vlen(types[i]) && p == 4 + 3 * j;
    hide ValueType, ChainsEnd, KindOf, IsCompositeKind, IsStructOrUnion, ValuePath, GoodGraph;
    assert HoldsAt(types, i, j, path, d);
  }
}

/** btf_relocate: moves split BTF from its distilled base onto a full base. */
module Relocate {
  import opened Words
  import opened BtfRecords
  import opened BtfObject
  import opened CStrings
  import opened RelocateSpec
  import opened EmbedSpec

  /** search_btf_name_size: the leftmost match, or None if there is no match. */
  method SearchNameSize(key: NameInfo, vals: seq<NameInfo>) returns (ret: Option<nat>)
    requires SortedInfo(vals)
    ensures ret.None? ==> forall j :: 0 <= j < |vals| ==> CmpNameSize(key, vals[j]) != 0
    ensures ret.Some? ==> ret.value < |vals| && CmpNameSize(key, vals[ret.value]) == 0
    ensures ret.Some? ==> forall j :: 0 <= j < ret.value ==> CmpNameSize(key, vals[j]) != 0
  {
    hide CmpNameSize;
    ret := None;
    var low: int, high: int := 0, |vals| - 1;
    while low <= high
      invariant 0 <= low <= high + 1 <= |vals|
      invariant forall j :: 0 <= j < low ==> CmpNameSize(key, vals[j]) > 0
      invariant forall j :: high < j < |vals| ==> CmpNameSize(key, vals[j]) <= 0
      invariant ret.None? ==> forall j :: high < j < |vals| ==> CmpNameSize(key, vals[j]) < 0
      invariant ret.Some? ==> ret.value == high + 1 < |vals| && CmpNameSize(key, vals[ret.value]) == 0
      decreases high - low
    {
      var mid := (low + high) / 2;
      var diff := CmpNameSize(key, vals[mid]);
      forall j | 0 <= j < |vals|
        ensures j < mid && diff > 0 ==> CmpNameSize(key, vals[j]) > 0
        ensures j > mid && diff < 0 ==> CmpNameSize(key, vals[j]) < 0
        ensures j > mid && diff == 0 ==> CmpNameSize(key, vals[j]) <= 0
      {
        if j < mid {
          KeyMonotone(key, vals, j, mid);
        } else if mid < j {
          KeyMonotone(key, vals, mid, j);
        }
      }
      if diff == 0 {
        ret := Some(mid);
      }
      if diff <= 0 {
        high := mid - 1;
      } else {
        low := mid + 1;
      }
    }
  }

  /** qsort with cmp_btf_name_size; only a sorted permutation is promised. */
  method Qsort(s: seq<NameInfo>) returns (r: seq<NameInfo>)
    requires forall i :: 0 <= i < |s| ==> s[i].needsSize
    ensures SortedInfo(r) && multiset(r) == multiset(s)
  {
    hide CmpNameSize;
    r := [];
    for n := 0 to |s|
      invariant SortedInfo(r) && multiset(r) == multiset(s[..n])
    {
      var k := 0;
      while k < |r| && CmpNameSize(r[k], s[n]) <= 0
        invariant k <= |r|
        invariant forall j :: 0 <= j < k ==> CmpNameSize(r[j], s[n]) <= 0
      {
        k := k + 1;
      }
      InsertSorted(r, k, s[n]);
      assert r == r[..k] + r[k..];
      r := r[..k] + [s[n]] + r[k..];
      assert s[..n + 1] == s[..n] + [s[n]];
    }
    assert s[..|s|] == s;
  }

  lemma InsertSorted(r: seq<NameInfo>, k: nat, e: NameInfo)
    requires SortedInfo(r) && e.needsSize && k <= |r|
    requires forall j :: 0 <= j < k ==> CmpNameSize(r[j], e) <= 0
    requires k < |r| ==> CmpNameSize(r[k], e) > 0
    ensures SortedInfo(r[..k] + [e] + r[k..])
  {
    hide CmpNameSize;
    forall j | k <= j < |r|
      ensures CmpNameSize(e, r[j]) <= 0
    {
      CmpFlip(e, r[k]);
      if k < j {
        CmpTransitive(e, r[k], r[j]);
      }
    }
  }

  /** `info` lists every distilled type once, sorted; `pos` is where each is. */
  ghost predicate GoodInfo(x: Input, info: seq<NameInfo>, pos: seq<nat>) {
    && x.Valid() && |info| == |x.dist| == |pos| && SortedInfo(info)
    && (forall d :: 0 <= d < |pos| ==> pos[d] < |info| && info[pos[d]] == DistInfo(x, d))
    && forall i :: 0 <= i < |info| ==> info[i].id < |pos| && pos[info[i].id] == i
  }

  lemma {:induction false} DistinctOnce(s: seq<NameInfo>, v: NameInfo)
    requires Distinct(s)
    ensures multiset(s)[v] <= 1
  {
    if s != [] {
      var t := s[..|s| - 1];
      DistinctOnce(t, v);
      assert s == t + [s[|s| - 1]];
      if v == s[|s| - 1] {
        assert v !in t;
      }
    }
  }

  lemma PermutationDistinct(s: seq<NameInfo>, r: seq<NameInfo>)
    requires Distinct(s) && multiset(r) == multiset(s)
    ensures Distinct(r) && |r| == |s|
  {
    forall i, j | 0 <= i < j < |r|
      ensures r[i] != r[j]
    {
      DistinctOnce(s, r[j]);
      assert r == r[..j] + [r[j]] + r[j + 1..];
      assert multiset(r) == multiset(r[..j]) + multiset{r[j]} + multiset(r[j + 1..]);
      assert r[i] in r[..j];
    }
    assert |multiset(r)| == |r| && |multiset(s)| == |s|;
  }

  lemma IndexInfo(x: Input, raw: seq<NameInfo>, info: seq<NameInfo>) returns (pos: seq<nat>)
    requires x.Valid() && |raw| == |x.dist| && forall d :: 0 <= d < |raw| ==> raw[d] == DistInfo(x, d)
    requires SortedInfo(info) && multiset(info) == multiset(raw)
    ensures GoodInfo(x, info, pos)
  {
    hide CmpNameSize;
    assert forall d :: 0 <= d < |raw| ==> raw[d].id == d;
    PermutationDistinct(raw, info);
    forall d | 0 <= d < |raw|
      ensures exists i: nat :: i < |info| && info[i] == raw[d]
    {
      assert raw[d] in multiset(info);
    }
    pos := seq(|raw|, d requires 0 <= d < |raw| =>
      var i: nat :| i < |info| && info[i] == raw[d]; i);
    forall i | 0 <= i < |info|
      ensures info[i].id < |pos| && pos[info[i].id] == i
    {
      assert info[i] in multiset(raw);
      var d: nat :| d < |raw| && raw[d] == info[i];
      assert info[pos[d]] == info[i];
    }
  }

  class Relocate {
    ghost const x: Input
    const dist: seq<Record>
    const base: seq<Record>
    const distStr: u32 -> string
    const baseStr: u32 -> string
    const baseStrLen: nat
    const btf: Btf
    const idMap: array<u32>

    constructor (dist: seq<Record>, base: seq<Record>, distStr: u32 -> string, baseStr: u32 -> string,
                 baseStrLen: nat, btf: Btf)
      requires btf.Valid() && Input(dist, base, distStr, baseStr).Valid() && GoodGraph(dist + btf.recs)
      requires forall b :: 1 <= b < |base| ==> base[b][0] < baseStrLen
      requires btf.startId == |dist|
      ensures Valid() && x == Input(dist, base, distStr, baseStr) && this.btf == btf
      ensures forall i :: 0 <= i < idMap.Length ==> idMap[i] == 0
    {
      x := Input(dist, base, distStr, baseStr);
      this.dist, this.base, this.distStr, this.baseStr := dist, base, distStr, baseStr;
      this.baseStrLen, this.btf := baseStrLen, btf;
      idMap := new u32[|dist| + btf.nrTypes](_ => 0);
    }

    /** Types by id before relocation: the distilled base, then the split types. */
    ghost function Types(): seq<Record>
      reads btf
    {
      dist + btf.recs
    }

    ghost predicate Valid()
      reads btf, btf.types, btf.offs
    {
      && Bases() && btf.Valid() && btf.startId == |dist|
      && GoodGraph(Types()) && idMap.Length == |Types()| && idMap != btf.types
    }

    ghost predicate Bases() {
      && x == Input(dist, base, distStr, baseStr) && x.Valid()
      && forall b :: 1 <= b < |base| ==> base[b][0] < baseStrLen
    }

    /** The distilled types sorted by name and size. */
    method SortDistilled() returns (info: seq<NameInfo>, ghost pos: seq<nat>)
      requires Bases()
      ensures GoodInfo(x, info, pos)
    {
      hide CmpNameSize;
      var raw := [];
      for id := 0 to |dist|
        invariant |raw| == id && forall d :: 0 <= d < id ==> raw[d] == DistInfo(x, d)
      {
        raw := raw + [NameInfo(distStr(dist[id][0]), true, dist[id][2] % SIZE_31, id)];
      }
      info := Qsort(raw);
      pos := IndexInfo(x, raw, info);
    }

    /** The counts of composite base types per name, held in a byte each. */
    method CountNames() returns (cnt: array<nat>)
      requires Bases()
      ensures fresh(cnt) && cnt.Length == baseStrLen
      ensures forall off :: 0 < off < cnt.Length && off < 0x1_0000_0000 ==>
                cnt[off] == (var c := NameCount(base, off, |base|); if c < 255 then c else 255)
    {
      cnt := new nat[baseStrLen](_ => 0);
      for id := 1 to |base|
        invariant forall off :: 0 < off < cnt.Length && off < 0x1_0000_0000 ==>
                    cnt[off] == (var c := NameCount(base, off, id); if c < 255 then c else 255)
      {
        var r := base[id];
        if !IsCompositeKind(Kind(r)) || r[0] == 0 {
          continue;
        }
        if cnt[r[0]] < 255 {
          cnt[r[0]] := cnt[r[0]] + 1;
        }
      }
    }

    /** A word of a split type. */
    method ReadWord(id: nat, pos: nat) returns (w: u32)
      requires Valid() && |dist| <= id < |Types()| && pos < |Types()[id]|
      ensures w == Types()[id][pos]
    {
      w := btf.Word(id - |dist|, pos);
    }

    /** The words that looking through a type needs: its kind, target, and array element type. */
    method Peek(id: nat) returns (k: nat, next: nat)
      requires Valid() && Id(Types(), id)
      ensures k == Kind(Types()[id])
      ensures IsThrough(k) ==> next == EmbedSpec.Next(Types(), id)
    {
      next := 0;
      if id < |dist| {
        k := Kind(dist[id]);
        if IsThrough(k) {
          next := dist[id][if k == BTF_KIND_ARRAY then BASE else 2];
        }
      } else {
        var info := ReadWord(id, 1);
        k := KindOf(info);
        if IsThrough(k) {
          next := ReadWord(id, if k == BTF_KIND_ARRAY then BASE else 2);
        }
      }
    }

    /** Follows one reference of a composite and marks the composite it embeds, if any. */
    method MarkTarget(id: nat)
      requires Valid() && ChainsEnd(Types()) && id < |Types()|
      modifies idMap
      ensures var d := ValueType(Types(), id);
              idMap[..] == if d != 0 && Id(Types(), d) && IsCompositeKind(Kind(Types()[d])) && d < |dist|
                           then old(idMap[..])[d := BTF_IS_EMBEDDED] else old(idMap[..])
    {
      ghost var types, m, target := Types(), idMap[..], ValueType(Types(), id);
      assert GoodGraph(types) && |types| == idMap.Length;
      ghost var rank :| Ranked(types, rank);
      hide Valid, ValueType, GoodGraph, KindOf, EmbedSpec.Next, Ranked, IsThrough, IsCompositeKind, ChainsEnd;
      var nextId: nat := id;
      ghost var following := true;
      while nextId != 0
        invariant nextId < |types| && (!following ==> nextId == 0)
        invariant following ==> ValueType(types, nextId) == target && idMap[..] == m
        invariant !following ==>
                    idMap[..] == if target != 0 && IsCompositeKind(Kind(types[target])) && target < |dist|
                                 then m[target := BTF_IS_EMBEDDED] else m
        decreases if following then rank[nextId] + 1 else 0
      {
        FollowStep(types, rank, nextId);
        var k, n := Peek(nextId);
        if IsThrough(k) {
          nextId := n;
        } else {
          if IsCompositeKind(k) && nextId < |dist| {
            idMap[nextId] := BTF_IS_EMBEDDED;
          }
          nextId := 0;
          following := false;
        }
      }
      FollowStep(types, rank, nextId);
    }

    /** Marks what the reference in word `pos` of a composite embeds. */
    method MarkWord(id: nat, pos: nat, ghost info: u32, ghost done: nat)
      requires Valid() && ChainsEnd(Types()) && |dist| <= id < |Types()|
      requires WellSized(Types()[id]) && info == Types()[id][1] && IsCompositeKind(KindOf(info))
      requires Awaits(info, done, Some(pos)) && MarkedUpTo(Types(), |dist|, idMap[..], id, done)
      modifies idMap
      ensures MarkedUpTo(Types(), |dist|, idMap[..], id, pos + 1)
      ensures idMap[|dist|..] == old(idMap[|dist|..])
    {
      ghost var types, m := Types(), idMap[..];
      assert GoodGraph(types) && |types| == idMap.Length;
      hide MarkedUpTo, IsRef, KindOf, VlenOf, TrailingWords, Awaits, ValueType, ChainsEnd;
      RefAt(types[id], |types|, done, pos);
      var target := ReadWord(id, pos);
      MarkTarget(target);
      MarkStep(types, |dist|, m, idMap[..], id, done, pos);
    }

    /** btf_mark_embedded_composite_type_ids, for the type with id `id` */
    method MarkEmbedded(id: nat)
      requires Valid() && ChainsEnd(Types()) && |dist| <= id < |Types()|
      requires MarkedUpTo(Types(), |dist|, idMap[..], id, 0)
      modifies idMap
      ensures MarkedUpTo(Types(), |dist|, idMap[..], id + 1, 0)
      ensures idMap[|dist|..] == old(idMap[|dist|..])
    {
      ghost var types, nd := Types(), |dist|;
      assert GoodGraph(types) && |types| == idMap.Length && WellSized(types[id]);
      hide MarkedUpTo, IsRef, KindOf, VlenOf, TrailingWords, IdsDesc, FieldIter.Valid, Awaits, Valid, ValueType,
           ChainsEnd;
      var info := ReadWord(id, 1);
      if !IsCompositeKind(KindOf(info)) {
        MarkSkip(types, nd, idMap[..], id);
        return;
      }
      WellSizedHasDesc(types[id]);
      var it := new FieldIter(info);
      var pos := it.Next();
      ghost var done := 0;
      while pos.Some?
        invariant it.Valid() && it.info == info && fresh(it)
        invariant MarkedUpTo(types, nd, idMap[..], id, done) && idMap[nd..] == old(idMap[|dist|..])
        invariant Awaits(info, done, pos) && it.seen == if pos.Some? then pos.value + 1 else done
        decreases pos.Some?, if pos.Some? then |types[id]| - pos.value else 0
      {
        AwaitsInside(types[id], done, pos);
        MarkWord(id, pos.value, info, done);
        done := pos.value + 1;
        pos := it.Next();
        AwaitsInside(types[id], done, pos);
      }
      MarkEnd(types, nd, idMap[..], id, done);
    }

    /** Marks every distilled composite that a split composite embeds. */
    method MarkAllEmbedded()
      requires Valid() && ChainsEnd(Types())
      requires forall d :: 0 <= d < |dist| ==> idMap[d] == 0
      modifies idMap
      ensures idMap[|dist|..] == old(idMap[|dist|..]) && idMap[0] == 0
      ensures forall d :: 1 <= d < |dist| ==>
                idMap[d] == if d in Embedded(Types(), |dist|) then BTF_IS_EMBEDDED else 0
    {
      ghost var types, nd := Types(), |dist|;
      NoneEmbedded(types, nd);
      for id := |dist| to |dist| + btf.nrTypes
        invariant MarkedUpTo(types, nd, idMap[..], id, 0) && idMap[nd..] == old(idMap[|dist|..])
      {
        hide MarkedUpTo;
        MarkEmbedded(id);
      }
      MarkAll(types, nd, idMap[..]);
    }

    /** Compares base type `b` with one distilled type that has its name, and its size if asked for. */
    method TryMatch(b: nat, d: nat, ghost emb: set<int>) returns (r: Status)
      requires Bases() && b < BTF_IS_EMBEDDED && Match(x, b, d) && |dist| <= idMap.Length
      requires d < idMap.Length && At(x, emb, idMap[..], d, b)
      modifies idMap
      ensures r.Ok? ==> 1 <= d && idMap[..] == old(idMap[..])[d := idMap[d]] && At(x, emb, idMap[..], d, b + 1)
      ensures r.Err? ==> r == Err(EINVAL) && !Mappable(x, emb) && idMap[..] == old(idMap[..])
    {
      hide Match, KindOk, Input.Valid;
      MatchIds(b, d);
      if d == 0 {
        return Err(EINVAL);
      }
      var baseT, distT := base[b], dist[d];
      if !KindOk(baseT, distT) {
        EntrySkip(x, emb, d, b, idMap[d]);
        return Ok;
      }
      if IsCompositeKind(Kind(distT)) && idMap[d] == BTF_IS_EMBEDDED && baseT[2] != distT[2] {
        EntryDiffers(x, emb, d, b, idMap[d]);
        return Ok;
      }
      if idMap[d] != 0 && idMap[d] != BTF_IS_EMBEDDED {
        EntryAmbiguous(x, emb, d, b, idMap[d]);
        return Err(EINVAL);
      }
      EntryFound(x, emb, d, b, idMap[d]);
      idMap[d] := b;
      r := Ok;
    }

    lemma MatchIds(b: nat, d: nat)
      requires Bases() && Match(x, b, d)
      ensures 1 <= b < |base| && d < |dist| && WellSized(base[b]) && (d > 0 ==> WellSized(dist[d]))
      ensures d == 0 ==> forall emb :: !Mappable(x, emb)
    {
    }

    /** Finds the distilled types that base type `b` matches and records it for those it can stand for. */
    method MapBase(b: nat, key: NameInfo, info: seq<NameInfo>, ghost pos: seq<nat>, ghost emb: set<int>)
      returns (r: Status)
      requires Bases() && b < BTF_IS_EMBEDDED && x.Base(b) && BaseInfo(x, b) == Some(key) && |dist| <= idMap.Length
      requires GoodInfo(x, info, pos)
      requires AllAt(x, emb, idMap[..], b)
      modifies idMap
      ensures idMap[|dist|..] == old(idMap[|dist|..])
      ensures r.Ok? ==> AllAt(x, emb, idMap[..], b + 1)
      ensures r.Err? ==> r == Err(EINVAL) && !Mappable(x, emb)
    {
      hide At, Mappable, CmpNameSize, SortedInfo, Input.Valid, BaseInfo;
      var found := SearchNameSize(key, info);
      if found.None? {
        NoneMatch(b, info, pos, emb);
        return Ok;
      }
      var k := found.value;
      ScanStart(b, info, pos, k, emb);
      while k < |info| && CmpNameSize(key, info[k]) == 0
        invariant found.value <= k <= |info| && idMap[|dist|..] == old(idMap[|dist|..])
        invariant Scanned(x, emb, idMap[..], pos, k, b)
      {
        ghost var m := idMap[..];
        var d := info[k].id;
        assert At(x, emb, m, d, b) && Match(x, b, d);
        var err := TryMatch(b, d, emb);
        if err != Ok {
          return err;
        }
        forall e | 0 <= e < |pos|
          ensures At(x, emb, idMap[..], e, if pos[e] < k + 1 then b + 1 else b)
        {
          if e != d {
            AtSame(x, emb, m, idMap[..], e, if pos[e] < k then b + 1 else b);
          }
        }
        k := k + 1;
      }
      ScanEnd(b, info, pos, found.value, k, emb);
      r := Ok;
    }

    lemma NoneMatch(b: nat, info: seq<NameInfo>, pos: seq<nat>, emb: set<int>)
      requires Bases() && x.Base(b) && BaseInfo(x, b).Some? && |dist| <= idMap.Length && GoodInfo(x, info, pos)
      requires forall j :: 0 <= j < |info| ==> CmpNameSize(BaseInfo(x, b).value, info[j]) != 0
      requires AllAt(x, emb, idMap[..], b)
      ensures AllAt(x, emb, idMap[..], b + 1)
    {
      hide At, CmpNameSize, SortedInfo, Input.Valid, BaseInfo;
      var n := b + 1;
      forall d | 0 <= d < |dist|
        ensures At(x, emb, idMap[..], d, n)
      {
        AtSkip(x, emb, idMap[..], d, b);
      }
    }

    lemma ScanStart(b: nat, info: seq<NameInfo>, pos: seq<nat>, k: nat, emb: set<int>)
      requires Bases() && x.Base(b) && BaseInfo(x, b).Some? && |dist| <= idMap.Length && GoodInfo(x, info, pos)
      requires k <= |info| && forall j :: 0 <= j < k ==> CmpNameSize(BaseInfo(x, b).value, info[j]) != 0
      requires AllAt(x, emb, idMap[..], b)
      ensures Scanned(x, emb, idMap[..], pos, k, b)
    {
      hide At, CmpNameSize, SortedInfo, Input.Valid, BaseInfo;
      forall d | 0 <= d < |dist|
        ensures At(x, emb, idMap[..], d, if pos[d] < k then b + 1 else b)
      {
        if pos[d] < k {
          AtSkip(x, emb, idMap[..], d, b);
        }
      }
    }

    /** The forward scan has visited exactly the matches, so what it has not visited does not match. */
    lemma ScanEnd(b: nat, info: seq<NameInfo>, pos: seq<nat>, i: nat, k: nat, emb: set<int>)
      requires Bases() && x.Base(b) && BaseInfo(x, b).Some? && |dist| <= idMap.Length && GoodInfo(x, info, pos)
      requires i <= k <= |info| && i < |info| && CmpNameSize(BaseInfo(x, b).value, info[i]) == 0
      requires k < |info| ==> CmpNameSize(BaseInfo(x, b).value, info[k]) != 0
      requires Scanned(x, emb, idMap[..], pos, k, b)
      ensures AllAt(x, emb, idMap[..], b + 1)
    {
      hide At, CmpNameSize, Input.Valid, BaseInfo;
      if k < |info| {
        MatchesContiguous(BaseInfo(x, b).value, info, i, k);
      }
      hide SortedInfo;
      var n := b + 1;
      forall d | 0 <= d < |dist|
        ensures At(x, emb, idMap[..], d, n)
      {
        if pos[d] >= k {
          AtSkip(x, emb, idMap[..], d, b);
        }
      }
    }

    /** The search key of base type `b`, from the counts of composite names. */
    method BaseKey(b: nat, cnt: array<nat>) returns (key: Option<NameInfo>)
      requires Bases() && x.Base(b) && cnt.Length == baseStrLen
      requires forall off :: 0 < off < cnt.Length && off < 0x1_0000_0000 ==>
                 cnt[off] == (var c := NameCount(base, off, |base|); if c < 255 then c else 255)
      ensures key == BaseInfo(x, b)
    {
      hide KindOf, NameCount;
      var t := base[b];
      if t[0] == 0 {
        return None;
      }
      var kind := Kind(t);
      if SizedKind(kind) {
        key := Some(NameInfo(baseStr(t[0]), true, t[2] % SIZE_31, b));
      } else if kind == BTF_KIND_FWD {
        key := Some(NameInfo(baseStr(t[0]), false, 0, b));
      } else if IsCompositeKind(kind) {
        key := Some(NameInfo(baseStr(t[0]), cnt[t[0]] > 1, t[2] % SIZE_31, b));
      } else {
        key := None;
      }
    }

    /** btf_relocate_map_distilled_base: succeeds exactly if every distilled type has its pick. */
    method MapDistilledBase() returns (r: Status)
      requires Valid() && ChainsEnd(Types())
      requires forall d :: 0 <= d < |dist| ==> idMap[d] == 0
      modifies idMap
      ensures idMap[|dist|..] == old(idMap[|dist|..])
      ensures r == if Mappable(x, Embedded(Types(), |dist|)) then Ok else Err(EINVAL)
      ensures r.Ok? ==>
                && idMap[0] == 0
                && forall d :: 1 <= d < |dist| ==> Picks(x, Embedded(Types(), |dist|), idMap[d], d)
    {
      hide At, BaseInfo, Embedded, ChainsEnd, GoodGraph, NameCount, GoodInfo, Mappable, Picks;
      ghost var emb := Embedded(Types(), |dist|);
      var info, pos := SortDistilled();
      MarkAllEmbedded();
      var cnt := CountNames();
      AtStart(x, emb, idMap[..]);
      for id := 1 to |base|
        modifies idMap
        invariant AllAt(x, emb, idMap[..], id) && idMap[|dist|..] == old(idMap[|dist|..])
      {
        var key := BaseKey(id, cnt);
        if key.None? {
          SkipBase(id, emb);
          continue;
        }
        r := MapBase(id, key.value, info, pos, emb);
        if r != Ok {
          return;
        }
      }
      r := CheckMapped(emb);
    }

    lemma SkipBase(b: nat, emb: set<int>)
      requires Bases() && x.Base(b) && BaseInfo(x, b).None? && AllAt(x, emb, idMap[..], b)
      ensures AllAt(x, emb, idMap[..], b + 1)
    {
      hide At, BaseInfo;
      var n := b + 1;
      forall d | 0 <= d < |dist|
        ensures At(x, emb, idMap[..], d, n)
      {
        AtSkip(x, emb, idMap[..], d, b);
      }
    }

    /** Every distilled id must have been mapped. */
    method CheckMapped(ghost emb: set<int>) returns (r: Status)
      requires Bases() && AllAt(x, emb, idMap[..], |base|)
      ensures r == if Mappable(x, emb) then Ok else Err(EINVAL)
      ensures r.Ok? ==> idMap[0] == 0 && forall d :: 1 <= d < |dist| ==> Picks(x, emb, idMap[d], d)
    {
      hide Entry, Picks, Match, Strong, Weak;
      for id := 1 to |dist|
        invariant forall d :: 1 <= d < id ==> Picks(x, emb, idMap[d], d)
      {
        AtEnd(x, emb, idMap[..], id);
        if idMap[id] != 0 && idMap[id] != BTF_IS_EMBEDDED {
          continue;
        }
        return Err(EINVAL);
      }
      NoVoidMatch(emb);
      forall d | x.Dist(d)
        ensures exists b :: Picks(x, emb, b, d)
      {
        assert Picks(x, emb, idMap[d], d);
      }
      r := Ok;
    }

    lemma NoVoidMatch(emb: set<int>)
      requires Bases() && AllAt(x, emb, idMap[..], |base|)
      ensures idMap[0] == 0 && forall b :: !Match(x, b, 0)
    {
      assert At(x, emb, idMap[..], 0, |base|);
    }

    /** Kinds that a distilled base may hold; all of its types are named. */
    ghost predicate ValidDistilled(t: Record)
      requires |t| >= BASE
    {
      && t[0] != 0
      && (|| Kind(t) == BTF_KIND_INT || Kind(t) == BTF_KIND_FLOAT || Kind(t) == BTF_KIND_ENUM
          || Kind(t) == BTF_KIND_FWD || Kind(t) == BTF_KIND_STRUCT || Kind(t) == BTF_KIND_UNION)
    }

    ghost predicate AllDistilledValid()
      requires Bases()
    {
      forall i :: 1 <= i < |dist| ==> ValidDistilled(dist[i])
    }

    /** btf_relocate_validate_distilled_base */
    method ValidateDistilledBase() returns (r: Status)
      requires Bases()
      ensures r == if AllDistilledValid() then Ok else Err(EINVAL)
    {
      for i := 1 to |dist|
        invariant forall j :: 1 <= j < i ==> ValidDistilled(dist[j])
      {
        var t := dist[i];
        var kind := Kind(t);
        if kind == BTF_KIND_INT || kind == BTF_KIND_FLOAT || kind == BTF_KIND_ENUM || IsCompositeKind(kind) ||
           kind == BTF_KIND_FWD {
          if t[0] != 0 {
            continue;
          }
          return Err(EINVAL);
        }
        return Err(EINVAL);
      }
      r := Ok;
    }

    /** Split ids move by the difference between the two bases' type counts. */
    method MapSplitIds()
      requires Valid()
      modifies idMap
      ensures forall d :: 0 <= d < |dist| ==> idMap[d] == old(idMap[d])
      ensures forall i :: |dist| <= i < idMap.Length ==> idMap[i] == i + |base| - |dist|
    {
      for id := |dist| to |dist| + btf.nrTypes
        invariant forall d :: 0 <= d < |dist| ==> idMap[d] == old(idMap[d])
        invariant forall i :: |dist| <= i < id ==> idMap[i] == i + |base| - |dist|
      {
        idMap[id] := id + |base| - |dist|;
      }
    }

    ghost predicate InSplit(i: nat)
      reads btf, btf.types, btf.offs
    {
      btf.Valid() && btf.types != idMap && i < |btf.recs| && RefsBelow(btf.recs[i], idMap.Length)
    }

    /** btf_relocate_rewrite_type_id, for split record `i` */
    method RewriteTypeId(i: nat)
      requires InSplit(i)
      modifies btf`recs, btf.types
      ensures btf.Valid() && idMap[..] == old(idMap[..]) && btf.recs == old(btf.recs)[i := btf.recs[i]]
      ensures |btf.recs| == |old(btf.recs)| && btf.recs[i] == Rename(old(btf.recs)[i], idMap[..])
    {
      hide Represents, RenamedUpTo, IsRef, KindOf, VlenOf, TrailingWords, IdsDesc, FieldIter.Valid, Awaits;
      ghost var m, rec, recs := idMap[..], btf.recs[i], btf.recs;
      RepresentsAt(btf.types[..], btf.typeLen, btf.offs[..], recs, i);
      RenamedStart(rec, m);
      WellSizedHasDesc(rec);
      var info := btf.Word(i, 1);
      var it := new FieldIter(info);
      var pos := it.Next();
      ghost var done, cur := 0, rec;
      while pos.Some?
        invariant btf.Valid() && it.Valid() && it.info == info == rec[1] && fresh(it) && idMap[..] == m
        invariant btf.recs == recs[i := cur] && RenamedUpTo(cur, rec, m, done)
        invariant Awaits(info, done, pos) && it.seen == if pos.Some? then pos.value + 1 else done
        decreases pos.Some?, if pos.Some? then |rec| - pos.value else 0
      {
        RenamedPeek(cur, rec, m, done, pos.value);
        RefAt(rec, |m|, done, pos.value);
        RenamedStep(cur, rec, m, done, pos.value);
        var id := btf.Word(i, pos.value);
        btf.SetWord(i, pos.value, idMap[id]);
        done, cur := pos.value + 1, Poke(cur, pos.value, m[id]);
        pos := it.Next();
        AwaitsInside(rec, done, pos);
      }
      RenamedEnd(cur, rec, m, done);
    }

    /** Every split record after the rewriting. */
    method RewriteTypeIds()
      requires btf.Valid() && btf.types != idMap
      requires forall i :: 0 <= i < |btf.recs| ==> RefsBelow(btf.recs[i], idMap.Length)
      modifies btf`recs, btf.types
      ensures btf.Valid() && idMap[..] == old(idMap[..]) && |btf.recs| == |old(btf.recs)|
      ensures forall i :: 0 <= i < |btf.recs| ==> btf.recs[i] == Rename(old(btf.recs)[i], idMap[..])
    {
      hide Btf.Valid, RefsBelow;
      ghost var recs, m := btf.recs, idMap[..];
      assert |recs| == btf.nrTypes by { NrTypes(btf); }
      for i := 0 to btf.nrTypes
        invariant btf.Valid() && idMap[..] == m && |btf.recs| == |recs|
        invariant forall k :: 0 <= k < |recs| ==> btf.recs[k] == if k < i then Rename(recs[k], m) else recs[k]
      {
        RewriteTypeId(i);
      }
    }

    /**
     * btf_relocate, but for strings. On success the split types, now starting at `newStart`, hold
     * the old records with every reference renamed; on failure they are untouched.
     */
    method Run() returns (r: Status, newStart: nat)
      requires Valid() && ChainsEnd(Types()) && forall i :: 0 <= i < idMap.Length ==> idMap[i] == 0
      modifies idMap, btf`recs, btf.types
      ensures btf.Valid() && |btf.recs| == |old(btf.recs)|
      ensures r == if AllDistilledValid() && Mappable(x, Embedded(old(Types()), |dist|)) then Ok else Err(EINVAL)
      ensures r.Err? ==> btf.recs == old(btf.recs) && newStart == |dist|
      ensures r.Ok? ==>
                && newStart == |base| && Relocated(x, Embedded(old(Types()), |dist|), idMap[..])
                && (forall i :: 0 <= i < |btf.recs| ==>
                      RefsBelow(old(btf.recs)[i], idMap.Length) && btf.recs[i] == Rename(old(btf.recs)[i], idMap[..]))
    {
      hide ChainsEnd, Embedded, Picks, Mappable, AllDistilledValid;
      ghost var types, emb := Types(), Embedded(Types(), |dist|);
      newStart := |dist|;
      r := ValidateDistilledBase();
      if r != Ok {
        return;
      }
      MapSplitIds();
      r := MapDistilledBase();
      if r != Ok {
        return;
      }
      forall i | |dist| <= i < idMap.Length
        ensures idMap[i] == i + |base| - |dist|
      {
        assert idMap[i] == idMap[|dist|..][i - |dist|];
      }
      forall i | 0 <= i < |btf.recs|
        ensures RefsBelow(btf.recs[i], idMap.Length)
      {
        assert btf.recs[i] == types[i + |dist|];
      }
      RewriteTypeIds();
      newStart := |base|;
    }
  }

  /**
   * A distilled struct or union that a split one holds by value, behind typedefs, qualifiers, tags and
   * arrays, is relocated to a type of the same size.
   */
  lemma HeldKeepsSize(x: Input, types: seq<Record>, m: seq<u32>, i: nat, j: nat, path: seq<nat>, d: nat)
    requires ChainsEnd(types) && |x.dist| <= |types| && types[..|x.dist|] == x.dist
    requires Relocated(x, Embedded(types, |x.dist|), m)
    requires |x.dist| <= i && HoldsAt(types, i, j, path, d) && 1 <= d < |x.dist|
    ensures 1 <= m[d] < |x.base| && x.base[m[d]][2] == x.dist[d][2]
  {
    HeldIsEmbedded(types, |x.dist|, i, j, path, d);
    CompositeIs(types[d]);
    assert types[d] == x.dist[d];
    hide HoldsAt, ChainsEnd, Embedded, KindOf, IsCompositeKind;
    RelocatedDistilled(x, Embedded(types, |x.dist|), m, d);
  }

  lemma NoneEmbedded(types: seq<Record>, nd: nat)
    ensures forall d :: !EmbeddedUpTo(types, nd, nd, 0, d)
  {
  }

  lemma NrTypes(b: Btf)
    requires b.Valid()
    ensures b.nrTypes == |b.recs|
  {
  }
}

/** The order of C strings. */
module CStrings {

  /** strcmp: negative, zero or positive. */
  function StrCmp(a: string, b: string): int {
    if a == [] then (if b == [] then 0 else -1)
    else if b == [] then 1
    else if a[0] < b[0] then -1
    else if a[0] > b[0] then 1
    else StrCmp(a[1..], b[1..])
  }

  /** strcmp is zero on equal strings only. */
  lemma {:induction false} StrCmpZero(a: string, b: string)
    ensures StrCmp(a, b) == 0 <==> a == b
  {
    if a != [] && b != [] {
      StrCmpZero(a[1..], b[1..]);
      assert a == [a[0]] + a[1..] && b == [b[0]] + b[1..];
    }
  }

  /** Two strings agree up to `k`, and there the first one ends or has the smaller character. */
  ghost predicate SmallerAt(a: string, b: string, k: nat) {
    && k <= |a| && k < |b| && a[..k] == b[..k] && (k == |a| || a[k] < b[k])
  }

  /** The order is that of dictionaries. */
  lemma {:induction false} StrCmpFirst(a: string, b: string)
    ensures StrCmp(a, b) < 0 <==> exists k: nat :: SmallerAt(a, b, k)
  {
    if a != [] && b != [] && a[0] == b[0] {
      StrCmpFirst(a[1..], b[1..]);
      if k: nat :| SmallerAt(a[1..], b[1..], k) {
        assert a[..k + 1] == [a[0]] + a[1..][..k] && b[..k + 1] == [b[0]] + b[1..][..k];
        assert SmallerAt(a, b, k + 1);
      }
      if k: nat :| SmallerAt(a, b, k) {
        assert k > 0;
        assert a[1..][..k - 1] == a[..k][1..] && b[1..][..k - 1] == b[..k][1..];
        assert SmallerAt(a[1..], b[1..], k - 1);
      }
    } else if b != [] && (a == [] || a[0] < b[0]) {
      assert SmallerAt(a, b, 0);
    } else if a != [] && b != [] {
      forall k: nat
        ensures !SmallerAt(a, b, k)
      {
        if k > 0 && k <= |a| && k < |b| {
          assert a[..k][0] == a[0] && b[..k][0] == b[0];
        }
      }
    }
  }

  lemma {:induction false} StrCmpFlip(a: string, b: string)
    ensures StrCmp(a, b) < 0 <==> StrCmp(b, a) > 0
  {
    if a != [] && b != [] {
      StrCmpFlip(a[1..], b[1..]);
    }
  }

  lemma {:induction false} StrCmpTransitive(a: string, b: string, c: string)
    requires StrCmp(a, b) <= 0 && StrCmp(b, c) <= 0
    ensures StrCmp(a, c) <= 0
    ensures StrCmp(a, b) < 0 || StrCmp(b, c) < 0 ==> StrCmp(a, c) < 0
  {
    if a != [] && b != [] && c != [] && a[0] == b[0] == c[0] {
      StrCmpTransitive(a[1..], b[1..], c[1..]);
    }
  }
}

/** Looking up BTF types by name and kind: a binary search over sorted names, or a linear scan. */
module NameLookup {
  import opened Words
  import opened BtfRecords
  import opened CStrings

  datatype Named = Named(name: string, kind: nat)

  /** Does `t` answer a query for `name` and `kind`? A negative kind stands for any. */
  predicate Hit(t: Named, name: string, kind: int) {
    t.name == name && (kind < 0 || t.kind == kind)
  }

  /** The linear scan: the first hit at or after `from`; None stands for -ENOENT. */
  function Scan(ts: seq<Named>, from: nat, name: string, kind: int): Option<nat>
    decreases |ts| - from
  {
    if from >= |ts| then None
    else if Hit(ts[from], name, kind) then Some(from)
    else Scan(ts, from + 1, name, kind)
  }

  /** The scan finds the smallest hit, and finds one whenever there is one. */
  lemma {:induction false} ScanIsLeast(ts: seq<Named>, from: nat, name: string, kind: int, i: nat)
    ensures Scan(ts, from, name, kind) == Some(i) <==>
              && from <= i < |ts| && ts[i].name == name && (kind < 0 || ts[i].kind == kind)
              && forall j :: from <= j < i && (kind < 0 || ts[j].kind == kind) ==> ts[j].name != name
    ensures Scan(ts, from, name, kind) == None <==>
              forall j :: from <= j < |ts| && (kind < 0 || ts[j].kind == kind) ==> ts[j].name != name
    decreases |ts| - from
  {
    if from < |ts| && !Hit(ts[from], name, kind) {
      ScanIsLeast(ts, from + 1, name, kind, i);
    }
  }

  /** Scanning past types that do not hit. */
  lemma {:induction false} ScanSkip(ts: seq<Named>, from: nat, end: nat, name: string, kind: int)
    requires from <= end
    requires forall j :: from <= j < end && j < |ts| ==> !Hit(ts[j], name, kind)
    ensures Scan(ts, from, name, kind) == Scan(ts, end, name, kind)
    decreases end - from
  {
    if from < end {
      ScanSkip(ts, from + 1, end, name, kind);
    }
  }

  /** A scan of base and split types is a scan of the base, then one of the split types. */
  lemma {:induction false} ScanAppend(a: seq<Named>, b: seq<Named>, from: nat, name: string, kind: int)
    requires from <= |a|
    ensures Scan(a + b, from, name, kind)
         == (var r := Scan(a, from, name, kind); if r.Some? then r else Scan(a + b, |a|, name, kind))
    decreases |a| - from
  {
    if from < |a| {
      ScanAppend(a, b, from + 1, name, kind);
    }
  }

  /** No name is greater than the one after it. */
  ghost predicate Ascending(ts: seq<Named>) {
    forall i :: 1 <= i < |ts| ==> StrCmp(ts[i - 1].name, ts[i].name) <= 0
  }

  lemma {:induction false} AscendingPairs(ts: seq<Named>, i: nat, j: nat)
    requires Ascending(ts) && i <= j < |ts|
    ensures StrCmp(ts[i].name, ts[j].name) <= 0
    decreases j - i
  {
    if i == j {
      StrCmpZero(ts[i].name, ts[j].name);
    } else {
      AscendingPairs(ts, i, j - 1);
      StrCmpTransitive(ts[i].name, ts[j - 1].name, ts[j].name);
    }
  }

  /** Everything before the leftmost name that is not smaller than `name` differs from `name`. */
  lemma SmallerBefore(ts: seq<Named>, m: nat, name: string)
    requires Ascending(ts) && m < |ts| && StrCmp(ts[m].name, name) < 0
    ensures forall j :: 0 <= j <= m ==> StrCmp(ts[j].name, name) < 0
  {
    forall j | 0 <= j <= m
      ensures StrCmp(ts[j].name, name) < 0
    {
      AscendingPairs(ts, j, m);
      StrCmpTransitive(ts[j].name, ts[m].name, name);
    }
  }

  /** A name greater than `name` is followed by names that differ from `name`. */
  lemma GreaterAfter(ts: seq<Named>, m: nat, name: string)
    requires Ascending(ts) && m < |ts| && StrCmp(ts[m].name, name) > 0
    ensures forall j :: m <= j < |ts| ==> ts[j].name != name
  {
    forall j | m <= j < |ts|
      ensures ts[j].name != name
    {
      AscendingPairs(ts, m, j);
      StrCmpFlip(name, ts[m].name);
      StrCmpTransitive(name, ts[m].name, ts[j].name);
      StrCmpZero(name, ts[j].name);
    }
  }

  /** Position of the first named type, or |ts|. */
  function FirstNamed(ts: seq<Named>): (i: nat)
    ensures i <= |ts| && (i < |ts| ==> ts[i].name != "")
    ensures forall j :: 0 <= j < i ==> ts[j].name == ""
  {
    if ts == [] then 0 else if ts[0].name != "" then 0 else 1 + FirstNamed(ts[1..])
  }

  lemma FirstNamedIs(ts: seq<Named>, i: nat)
    requires i < |ts| && ts[i].name != "" && forall j :: 0 <= j < i ==> ts[j].name == ""
    ensures FirstNamed(ts) == i
  {
  }

  /** The names, base, and sorting mark of a BTF object. */
  class NameIndex {
    const base: NameIndex?
    const startId: nat
    /** The object's own types, the first of which has id `startId`. */
    const types: seq<Named>
    /** The first named type's id if the own names are known to be sorted, otherwise 0. */
    var namedStartId: nat
    ghost const chain: set<NameIndex>

    /** The bases below this object, each continuing the ids of the one before. */
    ghost predicate Chained()
      decreases chain
    {
      && this in chain
      && 1 <= startId
      && if base == null then startId == 1
         else base in chain && base.chain <= chain && this !in base.chain && base.Chained() && startId == base.TypeCnt()
    }

    ghost predicate Valid()
      reads chain
      decreases chain
    {
      && Chained()
      && (namedStartId > 0 ==>
            Ascending(types) && FirstNamed(types) < |types| && namedStartId == startId + FirstNamed(types))
      && (base != null ==> base.Valid())
    }

    /** btf__type_cnt */
    function TypeCnt(): nat {
      startId + |types|
    }

    /** All types by id, void first. */
    ghost function All(): (r: seq<Named>)
      requires Chained()
      ensures |r| == TypeCnt() && r[startId..] == types && r[0] == Named("", BTF_KIND_UNKN)
      decreases chain
    {
      (if base == null then [Named("", BTF_KIND_UNKN)] else base.All()) + types
    }

    constructor (base: NameIndex?, types: seq<Named>)
      requires base != null ==> base.Valid()
      ensures Valid() && this.base == base && this.types == types && namedStartId == 0
    {
      this.base, this.types, namedStartId := base, types, 0;
      startId := if base == null then 1 else base.TypeCnt();
      chain := {this} + if base == null then {} else base.chain;
      new;
      assert base != null ==> this !in base.chain;
    }

    /** btf_type_by_id, for the object's own ids */
    function TypeById(id: nat): Named
      requires startId <= id < TypeCnt()
    {
      types[id - startId]
    }

    /** btf_check_sorted: with fewer than two own types the names never count as sorted. */
    method CheckSorted()
      requires Valid()
      modifies this
      ensures Valid()
      ensures namedStartId == if |types| >= 2 && Ascending(types) && FirstNamed(types) < |types|
                              then startId + FirstNamed(types) else old(namedStartId)
    {
      hide StrCmp, FirstNamed, NameIndex.All;
      var named := 0;
      var n := TypeCnt();
      var i := startId + 1;
      while i < n
        modifies {}
        invariant startId < i && (|types| > 0 ==> i <= n) && (|types| == 0 ==> i == n + 1)
        invariant forall j :: 1 <= j < i - startId && j < |types| ==> StrCmp(types[j - 1].name, types[j].name) <= 0
        invariant named == 0 && i > startId + 1 ==> forall j :: 0 <= j < i - startId && j < |types| ==>
              types[j].name == ""
        invariant named != 0 ==> startId <= named < i <= n && named == startId + FirstNamed(types)
        invariant i == startId + 1 ==> named == 0
      {
        var na, nb := TypeById(i - 1).name, TypeById(i).name;
        if StrCmp(na, nb) > 0 {
          assert !Ascending(types) by { assert StrCmp(types[i - startId - 1].name, types[i - startId].name) > 0; }
          return;
        }
        if named == 0 && na != "" {
          named := i - 1;
          FirstNamedIs(types, i - 1 - startId);
        }
        if named == 0 && nb != "" {
          named := i;
          FirstNamedIs(types, i - startId);
        }
        i := i + 1;
      }
      if named != 0 {
        namedStartId := named;
      }
    }

    /** btf_find_type_by_name_bsearch: the leftmost own id whose name is not smaller, or the type count. */
    method FindTypeByNameBsearch(name: string, start: nat) returns (id: nat)
      requires Ascending(types) && startId <= start
      ensures start <= id || id == TypeCnt()
      ensures id <= TypeCnt() || id == start
      ensures forall j :: start <= j < id && j < TypeCnt() ==> StrCmp(TypeById(j).name, name) < 0
      ensures id < TypeCnt() ==> StrCmp(TypeById(id).name, name) >= 0
    {
      var l: int, r: int := start, TypeCnt() - 1;
      while l <= r
        invariant start <= l && r < TypeCnt() && (start < TypeCnt() ==> l <= TypeCnt())
        invariant forall j :: start <= j < l && j < TypeCnt() ==> StrCmp(TypeById(j).name, name) < 0
        invariant r < TypeCnt() - 1 ==> l <= r && StrCmp(TypeById(r).name, name) >= 0
        decreases r - l
      {
        var m := l + (r - l) / 2;
        var tname := TypeById(m).name;
        if StrCmp(tname, name) >= 0 {
          if l == r {
            return r;
          }
          r := m;
        } else {
          SmallerBefore(types, m - startId, name);
          forall j | start <= j <= m
            ensures StrCmp(TypeById(j).name, name) < 0
          {
            assert TypeById(j) == types[j - startId];
          }
          l := m + 1;
        }
      }
      id := TypeCnt();
    }

    /** What a lookup must return: the linear scan over base and own types. */
    ghost function Answer(start: nat, name: string, kind: int): Option<nat>
      requires Chained()
    {
      if kind == BTF_KIND_UNKN || name == "void" then Some(0) else Scan(All(), start, name, kind)
    }

    /** A lookup in base and split types is one in the base, then one in the split types. */
    lemma AnswerSplit(start: nat, name: string, kind: int)
      requires Chained() && 1 <= start < startId
      ensures base != null
      ensures Answer(start, name, kind)
           == var r := base.Answer(start, name, kind); if r.Some? then r else Answer(startId, name, kind)
    {
      ScanAppend(base.All(), types, start, name, kind);
    }

    /** btf_find_by_name_kind */
    method FindByNameKind(start: nat, name: string, kind: int) returns (r: Option<nat>)
      requires Valid() && 1 <= start
      ensures r == Answer(start, name, kind)
      decreases chain
    {
      var from := start;
      if from < startId {
        AnswerSplit(start, name, kind);
        r := base.FindByNameKind(start, name, kind);
        if r.Some? {
          return;
        }
        from := startId;
      }
      hide StrCmp, Scan, NameIndex.All, Ascending;
      if kind == BTF_KIND_UNKN || StrCmp(name, "void") == 0 {
        StrCmpZero(name, "void");
        return Some(0);
      }
      StrCmpZero(name, "void");
      if namedStartId > 0 && name != "" {
        r := FindSorted(from, name, kind);
      } else {
        r := FindLinear(from, name, kind);
      }
    }

    /** The lookup among own names known to be sorted. */
    method FindSorted(start: nat, name: string, kind: int) returns (r: Option<nat>)
      requires Valid() && startId <= start && namedStartId > 0 && name != "" && kind != BTF_KIND_UNKN
      ensures r == Scan(All(), start, name, kind)
    {
      hide StrCmp, Scan, NameIndex.All, FirstNamed, Ascending;
      var from := if start > namedStartId then start else namedStartId;
      var id := FindTypeByNameBsearch(name, from);
      forall j | start <= j < id && j < TypeCnt()
        ensures !Hit(All()[j], name, kind)
      {
        OwnAt(j);
        StrCmpZero(TypeById(j).name, name);
      }
      while id < TypeCnt()
        invariant from <= id || id == TypeCnt()
        invariant forall j :: start <= j < id && j < TypeCnt() ==> !Hit(All()[j], name, kind)
        invariant id < TypeCnt() ==> StrCmp(TypeById(id).name, name) >= 0
      {
        var t := TypeById(id);
        OwnAt(id);
        StrCmpZero(t.name, name);
        if StrCmp(t.name, name) != 0 {
          NoneAfter(id, name, kind);
          ScanIsLeast(All(), start, name, kind, 0);
          return None;
        }
        if kind < 0 || t.kind == kind {
          ScanIsLeast(All(), start, name, kind, id);
          return Some(id);
        }
        if id + 1 < TypeCnt() {
          NotSmallerAfter(id, name);
        }
        id := id + 1;
      }
      ScanIsLeast(All(), start, name, kind, 0);
      r := None;
    }

    lemma OwnAt(j: nat)
      requires Chained() && startId <= j < TypeCnt()
      ensures All()[j] == TypeById(j)
    {
      hide NameIndex.All;
      assert All()[startId..][j - startId] == All()[j];
    }

    /** No own id from `id` on has the name. */
    lemma NoneAfter(id: nat, name: string, kind: int)
      requires Chained() && Ascending(types) && startId <= id < TypeCnt() && StrCmp(TypeById(id).name, name) > 0
      ensures forall j :: id <= j < TypeCnt() ==> !Hit(All()[j], name, kind)
    {
      hide NameIndex.All, StrCmp;
      GreaterAfter(types, id - startId, name);
      forall j | id <= j < TypeCnt()
        ensures !Hit(All()[j], name, kind)
      {
        OwnAt(j);
        assert types[j - startId].name != name;
      }
    }

    lemma NotSmallerAfter(id: nat, name: string)
      requires Ascending(types) && startId <= id && id + 1 < TypeCnt() && TypeById(id).name == name
      ensures StrCmp(TypeById(id + 1).name, name) >= 0
    {
      AscendingPairs(types, id - startId, id + 1 - startId);
      StrCmpFlip(TypeById(id + 1).name, name);
    }

    /** The lookup one own type after the other. */
    method FindLinear(start: nat, name: string, kind: int) returns (r: Option<nat>)
      requires Chained() && startId <= start && kind != BTF_KIND_UNKN
      ensures r == Scan(All(), start, name, kind)
    {
      hide StrCmp, Scan, NameIndex.All;
      var id := start;
      while id < TypeCnt()
        invariant start <= id && forall j :: start <= j < id && j < TypeCnt() ==> !Hit(All()[j], name, kind)
      {
        var t := TypeById(id);
        OwnAt(id);
        if !(kind > 0 && t.kind != kind) {
          StrCmpZero(t.name, name);
          if StrCmp(t.name, name) == 0 {
            ScanIsLeast(All(), start, name, kind, id);
            return Some(id);
          }
        }
        id := id + 1;
      }
      ScanIsLeast(All(), start, name, kind, 0);
      r := None;
    }
  }
}

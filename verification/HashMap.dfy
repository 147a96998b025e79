/** What the chained hash map stores, on sequences: a table of buckets of key/value pairs. */
module HashSpec {
  import opened Words

  type Pair = (int, int)
  type Table = seq<seq<Pair>>

  function Pow2(n: nat): (r: nat)
    ensures r >= 1
  {
    if n == 0 then 1 else 2 * Pow2(n - 1)
  }

  lemma {:induction false} Pow2Sum(a: nat, b: nat)
    ensures Pow2(a + b) == Pow2(a) * Pow2(b)
  {
    if a > 0 {
      Pow2Sum(a - 1, b);
      assert 2 * (Pow2(a - 1) * Pow2(b)) == (2 * Pow2(a - 1)) * Pow2(b);
    }
  }

  const SIZE_T: int := 0x1_0000_0000_0000_0000

  /** The bit shuffle of hash_bits, modulo 2^64. */
  function Shuffle(h: nat): (x: nat)
    ensures x < SIZE_T
  {
    (h * 11400714819323198485) % SIZE_T
  }

  /** hash_bits on a 64-bit host: the upper `bits` bits of the shuffled hash. */
  function HashBits(h: nat, bits: nat): nat
    requires bits <= 64
  {
    if bits == 0 then 0 else Quotient(Shuffle(h), Pow2(64 - bits))
  }

  function Quotient(x: nat, d: nat): nat
    requires d > 0
  {
    x / d
  }

  lemma Pow2Of4()
    ensures Pow2(4) == 0x10
  {
  }

  lemma Pow2Of64()
    ensures Pow2(64) == SIZE_T
  {
    hide Pow2;
    Pow2Of4();
    Pow2Sum(4, 4);
    Pow2Sum(8, 8);
    Pow2Sum(16, 16);
    Pow2Sum(32, 32);
  }

  /** Every bucket index is below the number of buckets. */
  lemma HashBitsInRange(h: nat, bits: nat)
    requires bits <= 64
    ensures HashBits(h, bits) < Pow2(bits)
  {
    if bits > 0 {
      hide Shuffle, Pow2;
      Pow2Of64();
      Pow2Sum(bits, 64 - bits);
      DivBelow(Shuffle(h), Pow2(64 - bits), Pow2(bits));
    }
  }

  lemma DivBelow(x: nat, d: nat, q: nat)
    requires d > 0 && x < q * d
    ensures Quotient(x, d) < q
  {
    MulMonotone(q, x / d, d);
    assert x == (x / d) * d + x % d;
  }

  lemma MulMonotone(a: nat, b: nat, d: nat)
    ensures a <= b ==> a * d <= b * d
  {
  }

  /** A user's hash and equality functions. */
  datatype Keys = Keys(hash: int -> nat, equal: (int, int) -> bool)
  {
    /** `cls` names the equivalence classes of `equal`, and equal keys hash alike. */
    ghost predicate Respects(cls: int -> int) {
      && (forall a, b :: equal(a, b) <==> cls(a) == cls(b))
      && (forall a, b :: cls(a) == cls(b) ==> hash(a) == hash(b))
    }

    function Bucket(key: int, bits: nat): nat
      requires bits <= 64
    {
      HashBits(hash(key), bits)
    }
  }

  /** Every pair lies in the bucket given by the hash of its key. */
  ghost predicate Hashed(t: Table, k: Keys, bits: nat) {
    && bits <= 64
    && (bits > 0 ==> |t| == Pow2(bits))
    && forall b, i :: 0 <= b < |t| && 0 <= i < |t[b]| ==> k.Bucket(t[b][i].0, bits) == b
  }

  /** All pairs, bucket by bucket. */
  function Flat(t: Table): seq<Pair> {
    if t == [] then [] else Flat(t[..|t| - 1]) + t[|t| - 1]
  }

  /** The pairs of `s` whose key is equal to `key`, in order. */
  function Matching(s: seq<Pair>, k: Keys, key: int): seq<Pair> {
    if s == [] then []
    else
      var rest := Matching(s[..|s| - 1], k, key);
      if k.equal(s[|s| - 1].0, key) then rest + [s[|s| - 1]] else rest
  }

  /** Position of the first pair with an equal key, or |s|. */
  function FirstMatch(s: seq<Pair>, k: Keys, key: int): (i: nat)
    ensures i <= |s|
    ensures i < |s| ==> k.equal(s[i].0, key)
    ensures forall j :: 0 <= j < i ==> !k.equal(s[j].0, key)
  {
    if s == [] then 0 else if k.equal(s[0].0, key) then 0 else 1 + FirstMatch(s[1..], k, key)
  }

  lemma FirstMatchIs(s: seq<Pair>, k: Keys, key: int, i: nat)
    requires i <= |s| && (i < |s| ==> k.equal(s[i].0, key))
    requires forall j :: 0 <= j < i ==> !k.equal(s[j].0, key)
    ensures FirstMatch(s, k, key) == i
  {
  }

  /** `s` without its element at position `i`. */
  function Cut<T>(s: seq<T>, i: nat): (r: seq<T>)
    requires i < |s|
    ensures |r| == |s| - 1 && forall j :: 0 <= j < |r| ==> r[j] == s[if j < i then j else j + 1]
  {
    s[..i] + s[i + 1..]
  }

  function EmptyTable(n: nat): (t: Table)
    ensures |t| == n && forall b :: 0 <= b < n ==> t[b] == []
  {
    seq(n, _ => [])
  }

  /** `t` after `p` has been pushed on the front of its bucket. */
  function Push(t: Table, b: nat, p: Pair): Table
    requires b < |t|
  {
    t[b := [p] + t[b]]
  }

  /** A new table of 2^bits buckets into which the pairs `s` have been pushed one after the other. */
  function PushAll(s: seq<Pair>, k: Keys, bits: nat): (t: Table)
    requires bits <= 64
    ensures |t| == Pow2(bits)
  {
    if s == [] then EmptyTable(Pow2(bits))
    else
      var t := PushAll(s[..|s| - 1], k, bits);
      HashBitsInRange(k.hash(s[|s| - 1].0), bits);
      Push(t, k.Bucket(s[|s| - 1].0, bits), s[|s| - 1])
  }

  // ---------------------------------------------------------------------------
  // Facts about matching and flattening

  function Reverse<T>(s: seq<T>): (r: seq<T>)
    ensures |r| == |s| && forall i :: 0 <= i < |s| ==> r[i] == s[|s| - 1 - i]
  {
    seq(|s|, i requires 0 <= i < |s| => s[|s| - 1 - i])
  }

  lemma {:induction false} MatchingAppend(a: seq<Pair>, b: seq<Pair>, k: Keys, key: int)
    ensures Matching(a + b, k, key) == Matching(a, k, key) + Matching(b, k, key)
  {
    if b == [] {
      assert a + b == a;
    } else {
      var b' := b[..|b| - 1];
      assert (a + b)[..|a + b| - 1] == a + b';
      MatchingAppend(a, b', k, key);
    }
  }

  lemma MatchingCons(p: Pair, s: seq<Pair>, k: Keys, key: int)
    ensures Matching([p] + s, k, key) == (if k.equal(p.0, key) then [p] else []) + Matching(s, k, key)
  {
    MatchingAppend([p], s, k, key);
    assert [p][..0] == [];
    assert Matching([p], k, key) == if k.equal(p.0, key) then [p] else [];
  }

  lemma {:induction false} MatchingNone(s: seq<Pair>, k: Keys, key: int)
    requires forall i :: 0 <= i < |s| ==> !k.equal(s[i].0, key)
    ensures Matching(s, k, key) == []
  {
    if s != [] {
      MatchingNone(s[..|s| - 1], k, key);
    }
  }

  lemma FlatSnoc(t: Table, s: seq<Pair>)
    ensures Flat(t + [s]) == Flat(t) + s
  {
    assert (t + [s])[..|t|] == t;
  }

  lemma {:induction false} FlatAppend(a: Table, b: Table)
    ensures Flat(a + b) == Flat(a) + Flat(b)
  {
    if b == [] {
      assert a + b == a;
    } else {
      FlatAppend(a, b[..|b| - 1]);
      assert a + b == (a + b[..|b| - 1]) + [b[|b| - 1]];
      FlatSnoc(a + b[..|b| - 1], b[|b| - 1]);
      assert Flat(b) == Flat(b[..|b| - 1]) + b[|b| - 1];
    }
  }

  /** All pairs with an equal key lie in the key's own bucket, in iteration order. */
  lemma {:induction false} MatchingInOwnBucket(t: Table, k: Keys, cls: int -> int, bits: nat, key: int, n: nat)
    requires Hashed(t, k, bits) && k.Respects(cls) && n <= |t|
    ensures var b := k.Bucket(key, bits);
            Matching(Flat(t[..n]), k, key) == if b < n then Matching(t[b], k, key) else []
  {
    hide HashBits, Pow2, Flat, Matching;
    if n == 0 {
      FlatMatchingEmpty(t[..n], k, key);
    } else {
      MatchingInOwnBucket(t, k, cls, bits, key, n - 1);
      assert t[..n] == t[..n - 1] + [t[n - 1]];
      FlatSnoc(t[..n - 1], t[n - 1]);
      MatchingAppend(Flat(t[..n - 1]), t[n - 1], k, key);
      if k.Bucket(key, bits) != n - 1 {
        OtherBucket(t, k, cls, bits, key, n - 1);
      }
    }
  }

  lemma FlatMatchingEmpty(t: Table, k: Keys, key: int)
    requires t == []
    ensures Matching(Flat(t), k, key) == []
  {
  }

  lemma OtherBucket(t: Table, k: Keys, cls: int -> int, bits: nat, key: int, b: nat)
    requires Hashed(t, k, bits) && k.Respects(cls) && b < |t| && b != k.Bucket(key, bits)
    ensures Matching(t[b], k, key) == []
  {
    hide HashBits, Matching;
    MatchingNone(t[b], k, key);
  }

  /** Pushing a sequence of pairs reverses the order among pairs with equal keys. */
  lemma {:induction false} PushAllMatching(s: seq<Pair>, k: Keys, cls: int -> int, bits: nat, key: int)
    requires bits <= 64 && k.Respects(cls)
    ensures Hashed(PushAll(s, k, bits), k, bits)
    ensures k.Bucket(key, bits) < Pow2(bits)
    ensures Matching(PushAll(s, k, bits)[k.Bucket(key, bits)], k, key) == Reverse(Matching(s, k, key))
  {
    HashBitsInRange(k.hash(key), bits);
    hide HashBits, Pow2, Hashed, Keys.Respects;
    if s == [] {
      assert PushAll(s, k, bits)[k.Bucket(key, bits)] == [];
      EmptyHashed(k, bits);
    } else {
      var s', p := s[..|s| - 1], s[|s| - 1];
      PushAllMatching(s', k, cls, bits, key);
      HashBitsInRange(k.hash(p.0), bits);
      PushHashed(PushAll(s', k, bits), k, bits, p);
      PushMatching(PushAll(s', k, bits), k, cls, bits, p, key);
      if k.equal(p.0, key) {
        ReverseSnoc(Matching(s', k, key), p);
      }
    }
  }

  lemma ReverseSnoc<T>(s: seq<T>, x: T)
    ensures Reverse(s + [x]) == [x] + Reverse(s)
  {
  }

  lemma EmptyHashed(k: Keys, bits: nat)
    requires bits <= 64
    ensures Hashed(EmptyTable(Pow2(bits)), k, bits)
  {
  }

  lemma PushHashed(t: Table, k: Keys, bits: nat, p: Pair)
    requires Hashed(t, k, bits) && k.Bucket(p.0, bits) < |t|
    ensures Hashed(Push(t, k.Bucket(p.0, bits), p), k, bits)
  {
    hide HashBits, Pow2;
  }

  lemma PushMatching(t: Table, k: Keys, cls: int -> int, bits: nat, p: Pair, key: int)
    requires bits <= 64 && k.Bucket(p.0, bits) < |t| && k.Bucket(key, bits) < |t| && k.Respects(cls)
    ensures Matching(Push(t, k.Bucket(p.0, bits), p)[k.Bucket(key, bits)], k, key)
         == (if k.equal(p.0, key) then [p] else []) + Matching(t[k.Bucket(key, bits)], k, key)
  {
    hide HashBits, Matching;
    MatchingCons(p, t[k.Bucket(key, bits)], k, key);
  }
}

/** The hash map operations as functions on a table, and the finite map or multimap they implement. */
module HashModel {
  import opened Words
  import opened HashSpec

  const HASHMAP_MIN_CAP_BITS := 2
  /** From here on the bucket array would exceed the address space, and calloc fails. */
  const CALLOC_MAX_BITS := 60

  datatype Strategy = ADD | SET | UPDATE | APPEND

  datatype Model = Model(t: Table, bits: nat, sz: nat)

  datatype Inserted = Inserted(m: Model, ret: Status, oldKey: int, oldValue: int)
  datatype Deleted = Deleted(m: Model, found: bool, oldKey: int, oldValue: int)

  const EMPTY := Model([], 0, 0)

  /** Bucket of `key`; the table has at least one bucket. */
  function Home(m: Model, k: Keys, key: int): (b: nat)
    requires Shaped(m) && m.t != []
    ensures b < |m.t|
  {
    HashBitsInRange(k.hash(key), m.bits);
    k.Bucket(key, m.bits)
  }

  predicate Shaped(m: Model) {
    && m.bits <= CALLOC_MAX_BITS
    && (m.t == [] <==> m.bits == 0)
    && (m.bits > 0 ==> |m.t| == Pow2(m.bits))
  }

  /** hashmap_find_entry: where the first matching pair of the key's bucket is. */
  function Lookup(m: Model, k: Keys, key: int): (r: Option<nat>)
    requires Shaped(m)
    ensures r.Some? ==> m.t != [] && r.value < |m.t[Home(m, k, key)]|
  {
    if m.t == [] then None
    else
      var b := Home(m, k, key);
      var i := FirstMatch(m.t[b], k, key);
      if i < |m.t[b]| then Some(i) else None
  }

  function Found(m: Model, k: Keys, key: int): Pair
    requires Shaped(m) && Lookup(m, k, key).Some?
  {
    m.t[Home(m, k, key)][Lookup(m, k, key).value]
  }

  /** hashmap_needs_to_grow */
  predicate NeedsToGrow(m: Model) {
    m.t == [] || ((m.sz + 1) * 4) / 3 > |m.t|
  }

  function GrownBits(m: Model): nat {
    if m.bits + 1 < HASHMAP_MIN_CAP_BITS then HASHMAP_MIN_CAP_BITS else m.bits + 1
  }

  /** hashmap_grow: every pair is pushed into a new table, in iteration order. */
  function Grow(m: Model, k: Keys): (r: Model)
    requires Shaped(m) && GrownBits(m) <= CALLOC_MAX_BITS
    ensures Shaped(r)
  {
    Model(PushAll(Flat(m.t), k, GrownBits(m)), GrownBits(m), m.sz)
  }

  function Replace(m: Model, k: Keys, key: int, p: Pair): (r: Model)
    requires Shaped(m) && Lookup(m, k, key).Some?
    ensures Shaped(r)
  {
    var b := Home(m, k, key);
    m.(t := m.t[b := m.t[b][Lookup(m, k, key).value := p]])
  }

  function AddEntry(m: Model, k: Keys, p: Pair): (r: Model)
    requires Shaped(m) && m.t != []
    ensures Shaped(r)
  {
    Model(Push(m.t, Home(m, k, p.0), p), m.bits, m.sz + 1)
  }

  /** hashmap_insert */
  function Insert(m: Model, k: Keys, key: int, value: int, strategy: Strategy): (r: Inserted)
    requires Shaped(m)
    ensures Shaped(r.m)
  {
    var at := Lookup(m, k, key);
    if strategy != APPEND && at.Some? then
      var was := Found(m, k, key);
      if strategy == SET || strategy == UPDATE then
        Inserted(Replace(m, k, key, (key, value)), Ok, was.0, was.1)
      else
        Inserted(m, Err(EEXIST), was.0, was.1)
    else if strategy == UPDATE then
      Inserted(m, Err(ENOENT), 0, 0)
    else
      InsertNew(m, k, key, value)
  }

  /** The tail of hashmap_insert: grow if necessary, then add an entry. */
  function InsertNew(m: Model, k: Keys, key: int, value: int): (r: Inserted)
    requires Shaped(m)
    ensures Shaped(r.m)
  {
    if !NeedsToGrow(m) then
      Inserted(AddEntry(m, k, (key, value)), Ok, 0, 0)
    else if GrownBits(m) > CALLOC_MAX_BITS then
      Inserted(m, Err(ENOMEM), 0, 0)
    else
      Inserted(AddEntry(Grow(m, k), k, (key, value)), Ok, 0, 0)
  }

  /** hashmap_delete */
  function Delete(m: Model, k: Keys, key: int): (r: Deleted)
    requires Shaped(m)
    ensures Shaped(r.m)
  {
    var at := Lookup(m, k, key);
    if at.None? then Deleted(m, false, 0, 0)
    else
      var b, was := Home(m, k, key), Found(m, k, key);
      Deleted(Model(m.t[b := Cut(m.t[b], at.value)], m.bits, if m.sz > 0 then m.sz - 1 else 0),
              true, was.0, was.1)
  }

  /** hashmap__for_each_key_entry: the pairs visited for `key`, in order. */
  function ForKey(m: Model, k: Keys, key: int): seq<Pair>
    requires Shaped(m)
  {
    if m.t == [] then [] else Matching(m.t[Home(m, k, key)], k, key)
  }

  /** What every run keeps: pairs in their buckets, an exact size, and the load bound. */
  ghost predicate Good(m: Model, k: Keys) {
    && Shaped(m)
    && Hashed(m.t, k, m.bits)
    && m.sz == |Flat(m.t)|
    && (m.bits > 0 ==> m.bits >= HASHMAP_MIN_CAP_BITS && (m.sz * 4) / 3 <= |m.t|)
  }

  function Bag(m: Model): multiset<Pair> {
    multiset(Flat(m.t))
  }

  // ---------------------------------------------------------------------------
  // Effect of replacing one bucket

  lemma FlatAround(t: Table, b: nat)
    requires b < |t|
    ensures Flat(t) == Flat(t[..b]) + t[b] + Flat(t[b + 1..])
  {
    hide Flat;
    SplitAt(t, b);
    FlatAppend(t[..b] + [t[b]], t[b + 1..]);
    FlatSnoc(t[..b], t[b]);
  }

  /** Changing bucket `b` from `t[b]` to `s` changes the contents by exactly that much. */
  lemma BucketChange(t: Table, b: nat, s: seq<Pair>)
    requires b < |t|
    ensures multiset(Flat(t[b := s])) == multiset(Flat(t)) - multiset(t[b]) + multiset(s)
    ensures |Flat(t[b := s])| == |Flat(t)| - |t[b]| + |s|
  {
    hide Flat;
    FlatAround(t, b);
    FlatAround(t[b := s], b);
    assert t[b := s][..b] == t[..b] && t[b := s][b + 1..] == t[b + 1..];
  }

  lemma PushBag(t: Table, b: nat, p: Pair)
    requires b < |t|
    ensures multiset(Flat(Push(t, b, p))) == multiset(Flat(t)) + multiset{p}
    ensures |Flat(Push(t, b, p))| == |Flat(t)| + 1
  {
    hide Flat;
    BucketChange(t, b, [p] + t[b]);
    BucketInBag(t, b);
    assert multiset([p] + t[b]) == multiset{p} + multiset(t[b]);
  }

  lemma BucketInBag(t: Table, b: nat)
    requires b < |t|
    ensures multiset(t[b]) <= multiset(Flat(t)) && |t[b]| <= |Flat(t)|
  {
    hide Flat;
    FlatAround(t, b);
  }

  lemma {:induction false} PushAllBag(s: seq<Pair>, k: Keys, bits: nat)
    requires bits <= 64
    ensures multiset(Flat(PushAll(s, k, bits))) == multiset(s)
    ensures |Flat(PushAll(s, k, bits))| == |s|
  {
    if s == [] {
      EmptyFlat(Pow2(bits));
    } else {
      hide Flat, HashBits, Pow2, PushAll, Push;
      var s', p := s[..|s| - 1], s[|s| - 1];
      PushAllBag(s', k, bits);
      PushAllLast(s, k, bits);
      PushBag(PushAll(s', k, bits), k.Bucket(p.0, bits), p);
      assert s == s' + [p];
    }
  }

  lemma PushAllLast(s: seq<Pair>, k: Keys, bits: nat)
    requires bits <= 64 && s != []
    ensures k.Bucket(s[|s| - 1].0, bits) < |PushAll(s[..|s| - 1], k, bits)|
    ensures PushAll(s, k, bits)
         == Push(PushAll(s[..|s| - 1], k, bits), k.Bucket(s[|s| - 1].0, bits), s[|s| - 1])
  {
    HashBitsInRange(k.hash(s[|s| - 1].0), bits);
    hide HashBits, Pow2;
  }

  lemma {:induction false} EmptyFlat(n: nat)
    ensures Flat(EmptyTable(n)) == []
  {
    if n > 0 {
      EmptyFlat(n - 1);
      assert EmptyTable(n)[..n - 1] == EmptyTable(n - 1);
    }
  }

  lemma {:induction false} PushAllHashed(s: seq<Pair>, k: Keys, bits: nat)
    requires bits <= 64
    ensures Hashed(PushAll(s, k, bits), k, bits)
  {
    hide HashBits, Pow2, Hashed;
    if s == [] {
      EmptyHashed(k, bits);
    } else {
      var s', p := s[..|s| - 1], s[|s| - 1];
      PushAllHashed(s', k, bits);
      HashBitsInRange(k.hash(p.0), bits);
      PushHashed(PushAll(s', k, bits), k, bits, p);
    }
  }

  // ---------------------------------------------------------------------------
  // Invariants of every operation

  lemma GrowKeeps(m: Model, k: Keys)
    requires Good(m, k) && NeedsToGrow(m) && GrownBits(m) <= CALLOC_MAX_BITS
    ensures Good(Grow(m, k), k) && Bag(Grow(m, k)) == Bag(m)
    ensures !NeedsToGrow(Grow(m, k)) && Grow(m, k).t != []
  {
    assert m.t == [] ==> Flat(m.t) == [];
    hide Flat, HashBits, PushAll, Hashed, Pow2;
    PushAllBag(Flat(m.t), k, GrownBits(m));
    PushAllHashed(Flat(m.t), k, GrownBits(m));
    Pow2Step(m.bits);
  }

  lemma Pow2Step(n: nat)
    ensures Pow2(n + 1) == 2 * Pow2(n) && Pow2(2) == 4
    ensures n >= 2 ==> Pow2(n) >= 4
  {
    if n >= 2 {
      Pow2Sum(2, n - 2);
    }
  }

  lemma AddKeeps(m: Model, k: Keys, p: Pair)
    requires Good(m, k) && m.t != [] && !NeedsToGrow(m)
    ensures Good(AddEntry(m, k, p), k) && Bag(AddEntry(m, k, p)) == Bag(m) + multiset{p}
  {
    hide Flat, HashBits, Hashed, Pow2;
    PushBag(m.t, Home(m, k, p.0), p);
    PushHashed(m.t, k, m.bits, p);
  }

  lemma ReplaceKeeps(m: Model, k: Keys, key: int, p: Pair)
    requires Good(m, k) && Lookup(m, k, key).Some? && k.Bucket(p.0, m.bits) == Home(m, k, key)
    ensures Good(Replace(m, k, key, p), k)
    ensures Found(m, k, key) in Bag(m)
    ensures Bag(Replace(m, k, key, p)) == Bag(m) - multiset{Found(m, k, key)} + multiset{p}
  {
    hide Flat, HashBits, Pow2, FirstMatch, Hashed;
    var b, i := Home(m, k, key), Lookup(m, k, key).value;
    var s := m.t[b];
    BucketChange(m.t, b, s[i := p]);
    BucketInBag(m.t, b);
    UpdatedBag(s, i, p);
    ReplacedHashed(m.t, k, m.bits, b, i, p);
  }

  lemma UpdatedBag(s: seq<Pair>, i: nat, p: Pair)
    requires i < |s|
    ensures s[i] in multiset(s)
    ensures multiset(s[i := p]) == multiset(s) - multiset{s[i]} + multiset{p}
  {
    SplitAt(s, i);
    assert s[i := p] == s[..i] + [p] + s[i + 1..];
  }

  lemma ReplacedHashed(t: Table, k: Keys, bits: nat, b: nat, i: nat, p: Pair)
    requires Hashed(t, k, bits) && b < |t| && i < |t[b]| && k.Bucket(p.0, bits) == b
    ensures Hashed(t[b := t[b][i := p]], k, bits)
  {
    hide HashBits, Pow2;
  }

  lemma RemoveKeeps(m: Model, k: Keys, key: int)
    requires Good(m, k) && Lookup(m, k, key).Some?
    ensures Good(Delete(m, k, key).m, k)
    ensures Found(m, k, key) in Bag(m) && m.sz > 0
    ensures Bag(Delete(m, k, key).m) == Bag(m) - multiset{Found(m, k, key)}
  {
    hide Flat, HashBits, Pow2, FirstMatch, Hashed;
    var b, i := Home(m, k, key), Lookup(m, k, key).value;
    var s := m.t[b];
    BucketChange(m.t, b, Cut(s, i));
    BucketInBag(m.t, b);
    SplitAt(s, i);
    assert multiset(Cut(s, i)) == multiset(s) - multiset{s[i]};
    assert Cut(s, i) == s[..i] + s[i + 1..];
    RemovedHashed(m.t, k, m.bits, b, i);
  }

  lemma RemovedHashed(t: Table, k: Keys, bits: nat, b: nat, i: nat)
    requires Hashed(t, k, bits) && b < |t| && i < |t[b]|
    ensures Hashed(t[b := Cut(t[b], i)], k, bits)
  {
    hide HashBits, Pow2;
  }

  /**
   * Every insertion keeps the load bound, with at most one growth step, and the contents change by
   * exactly the inserted pair and the replaced one.
   */
  lemma InsertKeeps(m: Model, k: Keys, key: int, value: int, strategy: Strategy)
    requires Good(m, k)
    ensures var r := Insert(m, k, key, value, strategy);
            && Good(r.m, k)
            && (r.ret == Ok && strategy != APPEND && Lookup(m, k, key).Some? ==>
                  Bag(r.m) == Bag(m) - multiset{Found(m, k, key)} + multiset{(key, value)})
            && (r.ret == Ok && (strategy == APPEND || Lookup(m, k, key).None?) ==>
                  Bag(r.m) == Bag(m) + multiset{(key, value)})
            && (r.ret != Ok ==> r.m == m)
  {
    hide Flat, Pow2, HashBits, PushAll, Hashed;
    if strategy != APPEND && Lookup(m, k, key).Some? {
      if strategy == SET || strategy == UPDATE {
        ReplaceKeeps(m, k, key, (key, value));
      }
    } else if strategy != UPDATE {
      if !NeedsToGrow(m) {
        AddKeeps(m, k, (key, value));
      } else if GrownBits(m) <= CALLOC_MAX_BITS {
        GrowKeeps(m, k);
        AddKeeps(Grow(m, k), k, (key, value));
      }
    }
  }

  lemma DeleteKeeps(m: Model, k: Keys, key: int)
    requires Good(m, k)
    ensures var r := Delete(m, k, key);
            && Good(r.m, k)
            && (r.found <==> Lookup(m, k, key).Some?)
            && (r.found ==> m.sz > 0 && Bag(r.m) == Bag(m) - multiset{Found(m, k, key)} &&
                            (r.oldKey, r.oldValue) == Found(m, k, key))
            && (!r.found ==> r.m == m)
  {
    if Lookup(m, k, key).Some? {
      RemoveKeeps(m, k, key);
    }
  }

  lemma InsertIs(m: Model, k: Keys, key: int, value: int, strategy: Strategy)
    requires Good(m, k)
    ensures Shaped(m)
    ensures strategy == APPEND || (Lookup(m, k, key).None? && strategy != UPDATE) ==>
              Insert(m, k, key, value, strategy) == InsertNew(m, k, key, value)
    ensures strategy == UPDATE && Lookup(m, k, key).None? ==>
              Insert(m, k, key, value, strategy) == Inserted(m, Err(ENOENT), 0, 0)
    ensures strategy == ADD && Lookup(m, k, key).Some? ==>
              Insert(m, k, key, value, strategy)
              == Inserted(m, Err(EEXIST), Found(m, k, key).0, Found(m, k, key).1)
    ensures (strategy == SET || strategy == UPDATE) && Lookup(m, k, key).Some? ==>
              var b, i := Home(m, k, key), Lookup(m, k, key).value;
              Insert(m, k, key, value, strategy)
              == Inserted(Model(m.t[b := m.t[b][i := (key, value)]], m.bits, m.sz), Ok,
                          Found(m, k, key).0, Found(m, k, key).1)
  {
  }

  lemma DeleteIs(m: Model, k: Keys, key: int)
    requires Good(m, k)
    ensures Lookup(m, k, key).None? ==> Delete(m, k, key) == Deleted(m, false, 0, 0)
    ensures Lookup(m, k, key).Some? ==>
              && m.sz > 0
              && var b, i := Home(m, k, key), Lookup(m, k, key).value;
              Delete(m, k, key) == Deleted(Model(m.t[b := Cut(m.t[b], i)], m.bits, m.sz - 1), true,
                                           Found(m, k, key).0, Found(m, k, key).1)
  {
    DeleteKeeps(m, k, key);
  }

  // ---------------------------------------------------------------------------
  // The multimap: per-key iteration

  /** Per-key iteration visits exactly the live pairs with an equal key, each as often as it is stored. */
  lemma ForKeyIsExact(m: Model, k: Keys, cls: int -> int, key: int, p: Pair)
    requires Good(m, k) && k.Respects(cls)
    ensures multiset(ForKey(m, k, key))[p] == if k.equal(p.0, key) then Bag(m)[p] else 0
  {
    if m.t != [] {
      ForKeyIsMatching(m, k, cls, key);
    }
    MatchingCount(Flat(m.t), k, key, p);
  }

  lemma ForKeyIsMatching(m: Model, k: Keys, cls: int -> int, key: int)
    requires Good(m, k) && k.Respects(cls)
    ensures ForKey(m, k, key) == Matching(Flat(m.t), k, key)
  {
    if m.t != [] {
      MatchingInOwnBucket(m.t, k, cls, m.bits, key, |m.t|);
      assert m.t[..|m.t|] == m.t;
    }
  }

  lemma {:induction false} MatchingCount(s: seq<Pair>, k: Keys, key: int, p: Pair)
    ensures multiset(Matching(s, k, key))[p] == if k.equal(p.0, key) then multiset(s)[p] else 0
  {
    if s != [] {
      MatchingCount(s[..|s| - 1], k, key, p);
      assert s == s[..|s| - 1] + [s[|s| - 1]];
    }
  }

  /** Growth reverses the order in which the pairs of a key are visited. */
  lemma GrowReverses(m: Model, k: Keys, cls: int -> int, key: int)
    requires Good(m, k) && k.Respects(cls) && GrownBits(m) <= CALLOC_MAX_BITS
    ensures ForKey(Grow(m, k), k, key) == Reverse(ForKey(m, k, key))
  {
    hide HashBits, Pow2, Flat, Matching, PushAll;
    ForKeyIsMatching(m, k, cls, key);
    PushAllMatching(Flat(m.t), k, cls, GrownBits(m), key);
  }

  /** A lookup returns the first pair that per-key iteration visits. */
  lemma {:induction false} FirstOfMatching(s: seq<Pair>, k: Keys, key: int)
    ensures FirstMatch(s, k, key) < |s| <==> Matching(s, k, key) != []
    ensures FirstMatch(s, k, key) < |s| ==> s[FirstMatch(s, k, key)] == Matching(s, k, key)[0]
  {
    if s != [] {
      FirstOfMatching(s[1..], k, key);
      MatchingCons(s[0], s[1..], k, key);
      assert s == [s[0]] + s[1..];
    }
  }

  /** Growth turns a lookup from the first visited pair of a key to the last one. */
  lemma GrowFlipsLookup(m: Model, k: Keys, cls: int -> int, key: int)
    requires Good(m, k) && k.Respects(cls) && GrownBits(m) <= CALLOC_MAX_BITS
    ensures Lookup(m, k, key).Some? <==> Lookup(Grow(m, k), k, key).Some?
    ensures Lookup(m, k, key).Some? ==>
              var visited := ForKey(m, k, key);
              && visited != []
              && Found(m, k, key) == visited[0]
              && Found(Grow(m, k), k, key) == visited[|visited| - 1]
  {
    hide HashBits, Pow2, Flat, Matching, PushAll;
    var g := Grow(m, k);
    GrowReverses(m, k, cls, key);
    if m.t != [] {
      FirstOfMatching(m.t[Home(m, k, key)], k, key);
    }
    assert |g.t| >= 1;
    FirstOfMatching(g.t[Home(g, k, key)], k, key);
  }

  // ---------------------------------------------------------------------------
  // The finite map

  /** The bag holds exactly the values of `a`, one pair per key class. */
  ghost predicate Holds(bag: multiset<Pair>, cls: int -> int, a: map<int, Pair>) {
    && (forall p :: p in bag ==> cls(p.0) in a && a[cls(p.0)] == p && bag[p] == 1)
    && (forall c :: c in a ==> cls(a[c].0) == c && a[c] in bag)
  }

  lemma {:induction false} HoldsSize(bag: multiset<Pair>, cls: int -> int, a: map<int, Pair>)
    requires Holds(bag, cls, a)
    ensures |bag| == |a|
    decreases |a|
  {
    if c :| c in a {
      HoldsWithout(bag, cls, a, c);
      MapWithout(a, c);
      HoldsSize(bag - multiset{a[c]}, cls, a - {c});
    } else {
      assert forall c :: c !in a;
      assert a.Keys == {};
      assert |a| == |a.Keys| == 0;
      assert forall p :: p !in bag;
      assert bag == multiset{};
    }
  }

  lemma MapWithout(a: map<int, Pair>, c: int)
    requires c in a
    ensures |a| == |a - {c}| + 1
  {
    assert a.Keys == (a - {c}).Keys + {c};
    assert |a| == |a.Keys| && |a - {c}| == |(a - {c}).Keys|;
  }

  /** Taking out the pair of class `c` on both sides. */
  lemma HoldsWithout(bag: multiset<Pair>, cls: int -> int, a: map<int, Pair>, c: int)
    requires Holds(bag, cls, a) && c in a
    ensures a[c] in bag && Holds(bag - multiset{a[c]}, cls, a - {c})
  {
  }

  /** Putting in a pair of a class that was absent. */
  lemma HoldsWith(bag: multiset<Pair>, cls: int -> int, a: map<int, Pair>, p: Pair)
    requires Holds(bag, cls, a) && cls(p.0) !in a
    ensures Holds(bag + multiset{p}, cls, a[cls(p.0) := p])
  {
    assert p !in bag;
  }

  /** A lookup finds the pair that the finite map has for the key's class, and nothing otherwise. */
  lemma LookupRefines(m: Model, k: Keys, cls: int -> int, a: map<int, Pair>, key: int)
    requires Good(m, k) && k.Respects(cls) && Holds(Bag(m), cls, a)
    ensures Lookup(m, k, key).Some? <==> cls(key) in a
    ensures Lookup(m, k, key).Some? ==> Found(m, k, key) == a[cls(key)]
  {
    hide HashBits, Pow2, Flat, Matching, FirstMatch, Hashed;
    var visited := ForKey(m, k, key);
    LookupIsFirst(m, k, key);
    if visited != [] {
      ForKeyIsExact(m, k, cls, key, visited[0]);
      assert visited[0] in multiset(visited);
      assert k.equal(visited[0].0, key) && visited[0] in Bag(m);
      EqualSameClass(k, cls, visited[0].0, key);
      assert a[cls(key)] == visited[0];
    }
    if cls(key) in a {
      assert cls(a[cls(key)].0) == cls(key);
      SameClassEqual(k, cls, a[cls(key)].0, key);
      ForKeyIsExact(m, k, cls, key, a[cls(key)]);
      assert a[cls(key)] in multiset(visited);
    }
  }

  lemma EqualSameClass(k: Keys, cls: int -> int, x: int, y: int)
    requires k.Respects(cls) && k.equal(x, y)
    ensures cls(x) == cls(y) && k.hash(x) == k.hash(y)
  {
  }

  lemma SameClassEqual(k: Keys, cls: int -> int, x: int, y: int)
    requires k.Respects(cls) && cls(x) == cls(y)
    ensures k.equal(x, y)
  {
  }

  lemma LookupIsFirst(m: Model, k: Keys, key: int)
    requires Shaped(m)
    ensures Lookup(m, k, key).Some? <==> ForKey(m, k, key) != []
    ensures Lookup(m, k, key).Some? ==> Found(m, k, key) == ForKey(m, k, key)[0]
  {
    if m.t != [] {
      FirstOfMatching(m.t[Home(m, k, key)], k, key);
    }
  }

  // ---------------------------------------------------------------------------
  // Runs

  datatype Op = InsertOp(key: int, value: int, strategy: Strategy) | FindOp(key: int) | DeleteOp(key: int)

  /** What the caller sees: return value, found flag, and the old key and value (or the found value). */
  datatype Reply = Reply(ret: Status, found: bool, oldKey: int, oldValue: int)

  function Step(m: Model, k: Keys, op: Op): (r: (Model, Reply))
    requires Shaped(m)
    ensures Shaped(r.0)
  {
    match op
    case InsertOp(key, value, strategy) =>
      var r := Insert(m, k, key, value, strategy);
      (r.m, Reply(r.ret, false, r.oldKey, r.oldValue))
    case FindOp(key) =>
      var at := Lookup(m, k, key);
      (m, Reply(Ok, at.Some?, 0, if at.Some? then Found(m, k, key).1 else 0))
    case DeleteOp(key) =>
      var r := Delete(m, k, key);
      (r.m, Reply(Ok, r.found, r.oldKey, r.oldValue))
  }

  /** The same operations on a finite map from key classes to the stored pair. */
  ghost function MapStep(a: map<int, Pair>, cls: int -> int, op: Op): (map<int, Pair>, Reply) {
    var c := cls(op.key);
    match op
    case InsertOp(key, value, strategy) =>
      if c in a then
        if strategy == ADD then (a, Reply(Err(EEXIST), false, a[c].0, a[c].1))
        else (a[c := (key, value)], Reply(Ok, false, a[c].0, a[c].1))
      else if strategy == UPDATE then (a, Reply(Err(ENOENT), false, 0, 0))
      else if ((|a| + 1) * 4) / 3 > Pow2(CALLOC_MAX_BITS) then (a, Reply(Err(ENOMEM), false, 0, 0))
      else (a[c := (key, value)], Reply(Ok, false, 0, 0))
    case FindOp(key) =>
      (a, Reply(Ok, c in a, 0, if c in a then a[c].1 else 0))
    case DeleteOp(key) =>
      if c in a then (a - {c}, Reply(Ok, true, a[c].0, a[c].1)) else (a, Reply(Ok, false, 0, 0))
  }

  /** Growth is refused exactly when the map already fills the largest possible bucket array. */
  lemma FullExactly(m: Model, k: Keys)
    requires Good(m, k)
    ensures NeedsToGrow(m) && GrownBits(m) > CALLOC_MAX_BITS <==>
              ((m.sz + 1) * 4) / 3 > Pow2(CALLOC_MAX_BITS)
  {
    hide Pow2, Hashed, HashBits;
    Pow2Step(CALLOC_MAX_BITS);
    if m.bits == 0 {
      assert m.t == [] && m.sz == 0;
    } else if m.bits < CALLOC_MAX_BITS {
      hide Flat;
      Pow2Step(m.bits);
      Pow2Grows(m.bits + 1, CALLOC_MAX_BITS);
      RoomLeft(m.sz, Pow2(m.bits), Pow2(CALLOC_MAX_BITS));
    }
  }

  lemma RoomLeft(sz: nat, cap: nat, limit: nat)
    requires (sz * 4) / 3 <= cap && 2 <= cap && 2 * cap <= limit
    ensures ((sz + 1) * 4) / 3 <= limit
  {
  }

  lemma {:induction false} Pow2Grows(a: nat, b: nat)
    requires a <= b
    ensures Pow2(a) <= Pow2(b)
  {
    if a < b {
      Pow2Grows(a, b - 1);
    }
  }

  /** Without APPEND, one operation does to the table what it does to the finite map. */
  lemma StepRefines(m: Model, k: Keys, cls: int -> int, a: map<int, Pair>, op: Op)
    requires Good(m, k) && k.Respects(cls) && Holds(Bag(m), cls, a)
    requires op.InsertOp? ==> op.strategy != APPEND
    ensures var (m', r), (a', r') := Step(m, k, op), MapStep(a, cls, op);
            Good(m', k) && Holds(Bag(m'), cls, a') && r == r'
  {
    hide Good, Holds, Bag, Keys.Respects, Lookup, Found, Pow2, Flat;
    GoodShape(m, k);
    LookupRefines(m, k, cls, a, op.key);
    match op
    case InsertOp(key, value, strategy) =>
      InsertRefines(m, k, cls, a, key, value, strategy);
    case FindOp(key) =>
    case DeleteOp(key) =>
      DeleteKeeps(m, k, key);
      if Lookup(m, k, key).Some? {
        HoldsWithout(Bag(m), cls, a, cls(key));
      }
  }

  lemma GoodShape(m: Model, k: Keys)
    requires Good(m, k)
    ensures Shaped(m) && m.sz == |Bag(m)|
  {
  }

  lemma InsertRefines(m: Model, k: Keys, cls: int -> int, a: map<int, Pair>, key: int, value: int, strategy: Strategy)
    requires Good(m, k) && k.Respects(cls) && Holds(Bag(m), cls, a) && strategy != APPEND
    ensures Shaped(m)
    ensures var r, (a', reply) := Insert(m, k, key, value, strategy), MapStep(a, cls, InsertOp(key, value, strategy));
            && Good(r.m, k) && Holds(Bag(r.m), cls, a')
            && reply == Reply(r.ret, false, r.oldKey, r.oldValue)
  {
    hide Good, Holds, Bag, Keys.Respects, Lookup, Found, Pow2, Flat, NeedsToGrow, GrownBits, Insert, Shaped, Home;
    GoodShape(m, k);
    LookupRefines(m, k, cls, a, key);
    InsertKeeps(m, k, key, value, strategy);
    InsertIs(m, k, key, value, strategy);
    HoldsSize(Bag(m), cls, a);
    FullExactly(m, k);
    var p, c := (key, value), cls(key);
    if c in a {
      HoldsWithout(Bag(m), cls, a, c);
      HoldsWith(Bag(m) - multiset{a[c]}, cls, a - {c}, p);
      assert (a - {c})[c := p] == a[c := p];
    } else {
      HoldsWith(Bag(m), cls, a, p);
    }
  }

  function Run(m: Model, k: Keys, ops: seq<Op>): (r: (Model, seq<Reply>))
    requires Shaped(m)
    ensures Shaped(r.0) && |r.1| == |ops|
    decreases |ops|
  {
    if ops == [] then (m, [])
    else
      var (m1, reply) := Step(m, k, ops[0]);
      var (m2, replies) := Run(m1, k, ops[1..]);
      (m2, [reply] + replies)
  }

  ghost function MapRun(a: map<int, Pair>, cls: int -> int, ops: seq<Op>): (map<int, Pair>, seq<Reply>)
    decreases |ops|
  {
    if ops == [] then (a, [])
    else
      var (a1, reply) := MapStep(a, cls, ops[0]);
      var (a2, replies) := MapRun(a1, cls, ops[1..]);
      (a2, [reply] + replies)
  }

  /** Every run without APPEND refines a finite map: same replies, and the size is the map's size. */
  lemma {:induction false} RunRefines(m: Model, k: Keys, cls: int -> int, a: map<int, Pair>, ops: seq<Op>)
    requires Good(m, k) && k.Respects(cls) && Holds(Bag(m), cls, a)
    requires forall i :: 0 <= i < |ops| && ops[i].InsertOp? ==> ops[i].strategy != APPEND
    ensures Shaped(m)
    ensures var (m', rs), (a', rs') := Run(m, k, ops), MapRun(a, cls, ops);
            Good(m', k) && Holds(Bag(m'), cls, a') && rs == rs' && m'.sz == |a'|
    decreases |ops|
  {
    hide Good, Holds, Bag, Keys.Respects, Step, MapStep;
    GoodShape(m, k);
    if ops == [] {
      HoldsSize(Bag(m), cls, a);
    } else {
      StepRefines(m, k, cls, a, ops[0]);
      RunRefines(Step(m, k, ops[0]).0, k, cls, MapStep(a, cls, ops[0]).0, ops[1..]);
    }
  }

  /** A new map is empty and keeps all invariants. */
  lemma EmptyIsGood(k: Keys, cls: int -> int)
    ensures Good(EMPTY, k) && Holds(Bag(EMPTY), cls, map[])
  {
  }

  lemma StepKeeps(m: Model, k: Keys, op: Op)
    requires Good(m, k)
    ensures Shaped(m) && Good(Step(m, k, op).0, k)
  {
    hide Good, Lookup, Found, Insert, Delete, Shaped;
    GoodShape(m, k);
    match op
    case InsertOp(key, value, strategy) => InsertKeeps(m, k, key, value, strategy);
    case FindOp(key) =>
    case DeleteOp(key) => DeleteKeeps(m, k, key);
  }

  /** Any run at all, appends included, keeps the invariants. */
  lemma {:induction false} RunKeeps(m: Model, k: Keys, ops: seq<Op>)
    requires Good(m, k)
    ensures Shaped(m) && Good(Run(m, k, ops).0, k)
    decreases |ops|
  {
    hide Good, Step;
    GoodShape(m, k);
    if ops != [] {
      StepKeeps(m, k, ops[0]);
      RunKeeps(Step(m, k, ops[0]).0, k, ops[1..]);
    }
  }

  // ---------------------------------------------------------------------------
  // Runs with appends: the multimap

  /** Some stored key is equal to `key`. */
  ghost predicate Live(bag: multiset<Pair>, cls: int -> int, key: int) {
    exists p: Pair :: p in bag && cls(p.0) == cls(key)
  }

  /** The old pair that the reply names is stored, under a key equal to `key`. */
  ghost predicate Names(bag: multiset<Pair>, cls: int -> int, key: int, reply: Reply) {
    (reply.oldKey, reply.oldValue) in bag && cls(reply.oldKey) == cls(key)
  }

  /** What a multimap may reply; among several pairs of one key, it is free to pick one. */
  ghost predicate MultiReply(bag: multiset<Pair>, cls: int -> int, op: Op, reply: Reply) {
    match op
    case InsertOp(key, value, strategy) =>
      if strategy != APPEND && Live(bag, cls, key) then
        Names(bag, cls, key, reply) && reply.ret == if strategy == ADD then Err(EEXIST) else Ok
      else
        && (reply.oldKey, reply.oldValue) == (0, 0)
        && reply.ret == if strategy == UPDATE then Err(ENOENT)
                        else if ((|bag| + 1) * 4) / 3 > Pow2(CALLOC_MAX_BITS) then Err(ENOMEM)
                        else Ok
    case FindOp(key) =>
      && (reply.found <==> Live(bag, cls, key))
      && (reply.found ==> exists p: Pair :: p in bag && cls(p.0) == cls(key) && p.1 == reply.oldValue)
    case DeleteOp(key) =>
      && (reply.found <==> Live(bag, cls, key))
      && (reply.found ==> Names(bag, cls, key, reply))
  }

  /** The multimap after an operation with this reply. */
  ghost function MultiStep(bag: multiset<Pair>, cls: int -> int, op: Op, reply: Reply): multiset<Pair> {
    var was := multiset{(reply.oldKey, reply.oldValue)};
    match op
    case InsertOp(key, value, strategy) =>
      if reply.ret != Ok then bag
      else if strategy != APPEND && Live(bag, cls, key) then bag - was + multiset{(key, value)}
      else bag + multiset{(key, value)}
    case FindOp(key) => bag
    case DeleteOp(key) => if reply.found then bag - was else bag
  }

  ghost function MultiRun(bag: multiset<Pair>, cls: int -> int, ops: seq<Op>, replies: seq<Reply>): multiset<Pair>
    requires |ops| == |replies|
    decreases |ops|
  {
    if ops == [] then bag else MultiRun(MultiStep(bag, cls, ops[0], replies[0]), cls, ops[1..], replies[1..])
  }

  ghost predicate MultiReplies(bag: multiset<Pair>, cls: int -> int, ops: seq<Op>, replies: seq<Reply>)
    requires |ops| == |replies|
    decreases |ops|
  {
    ops == [] ||
    (MultiReply(bag, cls, ops[0], replies[0]) &&
     MultiReplies(MultiStep(bag, cls, ops[0], replies[0]), cls, ops[1..], replies[1..]))
  }

  /** A lookup finds a stored pair with an equal key if there is one. */
  lemma LookupLive(m: Model, k: Keys, cls: int -> int, key: int)
    requires Good(m, k) && k.Respects(cls)
    ensures Lookup(m, k, key).Some? <==> Live(Bag(m), cls, key)
    ensures Lookup(m, k, key).Some? ==> Found(m, k, key) in Bag(m) && cls(Found(m, k, key).0) == cls(key)
  {
    hide HashBits, Pow2, Flat, Matching, FirstMatch, Hashed;
    var visited := ForKey(m, k, key);
    LookupIsFirst(m, k, key);
    if visited != [] {
      ForKeyIsExact(m, k, cls, key, visited[0]);
      assert visited[0] in multiset(visited);
      EqualSameClass(k, cls, visited[0].0, key);
    }
    if Live(Bag(m), cls, key) {
      var p: Pair :| p in Bag(m) && cls(p.0) == cls(key);
      SameClassEqual(k, cls, p.0, key);
      ForKeyIsExact(m, k, cls, key, p);
      assert p in multiset(visited);
    }
  }

  /** One operation on the table is one on the multimap. */
  lemma StepIsMultimap(m: Model, k: Keys, cls: int -> int, op: Op)
    requires Good(m, k) && k.Respects(cls)
    ensures Shaped(m)
    ensures var (m', reply) := Step(m, k, op);
            Good(m', k) && MultiReply(Bag(m), cls, op, reply) && Bag(m') == MultiStep(Bag(m), cls, op, reply)
  {
    hide Good, Bag, Live, Keys.Respects, Lookup, Found, Pow2, Flat, NeedsToGrow, GrownBits, Insert, Delete, Shaped,
         Home;
    GoodShape(m, k);
    LookupLive(m, k, cls, op.key);
    match op
    case InsertOp(key, value, strategy) =>
      InsertKeeps(m, k, key, value, strategy);
      InsertIs(m, k, key, value, strategy);
      FullExactly(m, k);
    case FindOp(key) =>
      if Lookup(m, k, key).Some? {
        assert Found(m, k, key) in Bag(m);
      }
    case DeleteOp(key) =>
      DeleteKeeps(m, k, key);
      DeleteIs(m, k, key);
  }

  /**
   * Any run at all, appends included, is a run of a multimap, and per-key iteration then visits
   * exactly the pairs that this multimap holds for the key.
   */
  lemma {:induction false} RunIsMultimap(m: Model, k: Keys, cls: int -> int, ops: seq<Op>)
    requires Good(m, k) && k.Respects(cls)
    ensures Shaped(m)
    ensures var (m', replies) := Run(m, k, ops);
            && Good(m', k)
            && MultiReplies(Bag(m), cls, ops, replies)
            && Bag(m') == MultiRun(Bag(m), cls, ops, replies)
            && (forall key: int, p: Pair :: multiset(ForKey(m', k, key))[p] ==
                  if k.equal(p.0, key) then MultiRun(Bag(m), cls, ops, replies)[p] else 0)
    decreases |ops|
  {
    hide Good, Bag, Live, Keys.Respects, Step, MultiStep, MultiReply, ForKey;
    GoodShape(m, k);
    if ops == [] {
      forall key: int, p: Pair
        ensures multiset(ForKey(m, k, key))[p] == if k.equal(p.0, key) then Bag(m)[p] else 0
      {
        ForKeyIsExact(m, k, cls, key, p);
      }
    } else {
      StepIsMultimap(m, k, cls, ops[0]);
      RunIsMultimap(Step(m, k, ops[0]).0, k, cls, ops[1..]);
    }
  }

  // ---------------------------------------------------------------------------
  // Which of several appended pairs a lookup finds

  /** `s` after `n` reversals. */
  function Turned<T>(s: seq<T>, n: int): seq<T> {
    if n % 2 == 0 then s else Reverse(s)
  }

  lemma AddOrder(m: Model, k: Keys, cls: int -> int, p: Pair, other: int)
    requires Shaped(m) && m.t != [] && k.Respects(cls)
    ensures ForKey(AddEntry(m, k, p), k, other) ==
              (if k.equal(p.0, other) then [p] else []) + ForKey(m, k, other)
  {
    HashBitsInRange(k.hash(p.0), m.bits);
    HashBitsInRange(k.hash(other), m.bits);
    hide HashBits, Pow2, Matching, Keys.Respects;
    PushMatching(m.t, k, cls, m.bits, p, other);
  }

  /** A successful insertion of a new entry puts it in front; what was there is reversed if the map grew. */
  lemma InsertNewOrder(m: Model, k: Keys, cls: int -> int, key: int, value: int, other: int)
    requires Good(m, k) && k.Respects(cls)
    ensures Shaped(m)
    ensures var r := InsertNew(m, k, key, value);
            r.ret == Ok ==>
              && r.m.bits == (if NeedsToGrow(m) then GrownBits(m) else m.bits) && r.m.sz == m.sz + 1
              && ForKey(r.m, k, other) ==
                   (if cls(key) == cls(other) then [(key, value)] else []) +
                   if NeedsToGrow(m) then Reverse(ForKey(m, k, other)) else ForKey(m, k, other)
  {
    GoodShape(m, k);
    assert k.equal(key, other) <==> cls(key) == cls(other);
    assert !NeedsToGrow(m) ==> m.t != [];
    hide Good, NeedsToGrow, GrownBits, ForKey, Keys.Respects;
    if !NeedsToGrow(m) {
      AddOrder(m, k, cls, (key, value), other);
    } else if GrownBits(m) <= CALLOC_MAX_BITS {
      GrowKeeps(m, k);
      GrowReverses(m, k, cls, other);
      AddOrder(Grow(m, k), k, cls, (key, value), other);
    }
  }

  /** Right after a successful APPEND, a lookup finds the appended pair. */
  lemma AppendedIsFound(m: Model, k: Keys, cls: int -> int, key: int, value: int)
    requires Good(m, k) && k.Respects(cls)
    ensures Shaped(m)
    ensures var r := Insert(m, k, key, value, APPEND);
            r.ret == Ok ==>
              && Lookup(r.m, k, key).Some? && Found(r.m, k, key) == (key, value)
              && |ForKey(r.m, k, key)| == |ForKey(m, k, key)| + 1
  {
    hide Good, Keys.Respects, Lookup, Found, ForKey, NeedsToGrow, GrownBits, InsertNew, Insert;
    GoodShape(m, k);
    InsertNewOrder(m, k, cls, key, value, key);
    InsertIs(m, k, key, value, APPEND);
    LookupIsFirst(Insert(m, k, key, value, APPEND).m, k, key);
  }

  lemma MatchingAround(s: seq<Pair>, k: Keys, key: int, i: nat)
    requires i < |s|
    ensures Matching(s, k, key) ==
              Matching(s[..i], k, key) + (if k.equal(s[i].0, key) then [s[i]] else []) + Matching(s[i + 1..], k, key)
  {
    hide Matching;
    assert s == s[..i] + ([s[i]] + s[i + 1..]);
    MatchingAppend(s[..i], [s[i]] + s[i + 1..], k, key);
    MatchingCons(s[i], s[i + 1..], k, key);
  }

  /** Replacing or removing a pair with another key does not change what is visited. */
  lemma MatchingOther(s: seq<Pair>, k: Keys, key: int, i: nat, p: Pair)
    requires i < |s| && !k.equal(s[i].0, key) && !k.equal(p.0, key)
    ensures Matching(s[i := p], k, key) == Matching(s, k, key)
    ensures Matching(Cut(s, i), k, key) == Matching(s, k, key)
  {
    hide Matching;
    MatchingAround(s, k, key, i);
    MatchingAround(s[i := p], k, key, i);
    assert s[i := p][..i] == s[..i] && s[i := p][i + 1..] == s[i + 1..];
    MatchingAppend(s[..i], s[i + 1..], k, key);
  }

  /** A change of the bucket of another key. */
  lemma OtherBucketChange(m: Model, k: Keys, key: int, b: nat, s: seq<Pair>, sz: nat)
    requires Shaped(m) && b < |m.t| && Matching(s, k, key) == Matching(m.t[b], k, key)
    ensures Shaped(Model(m.t[b := s], m.bits, sz))
    ensures ForKey(Model(m.t[b := s], m.bits, sz), k, key) == ForKey(m, k, key)
  {
    HashBitsInRange(k.hash(key), m.bits);
    hide HashBits, Pow2, Matching;
  }

  lemma NewCases(m: Model, k: Keys, key: int, q: int, value: int)
    requires Good(m, k)
    ensures Shaped(m)
    ensures InsertNew(m, k, q, value).ret != Ok ==> InsertNew(m, k, q, value).m == m
    ensures m.t == [] ==> NeedsToGrow(m) && m.bits == 0 && GrownBits(m) == 2 && ForKey(m, k, key) == []
    ensures m.t != [] ==> GrownBits(m) == m.bits + 1
  {
    hide Flat, Hashed, HashBits, Pow2, PushAll, Matching;
  }

  lemma NewOther(m: Model, k: Keys, cls: int -> int, key: int, q: int, value: int)
    requires Good(m, k) && k.Respects(cls) && cls(q) != cls(key)
    ensures Shaped(m)
    ensures var m' := InsertNew(m, k, q, value).m;
            m'.bits >= m.bits && ForKey(m', k, key) == Turned(ForKey(m, k, key), m'.bits - m.bits)
  {
    hide Good, Keys.Respects, ForKey, InsertNew, Shaped, NeedsToGrow, GrownBits, Turned, Reverse;
    InsertNewOrder(m, k, cls, q, value, key);
    NewCases(m, k, key, q, value);
    var s := ForKey(m, k, key);
    TurnedFacts(s);
    assert [] + s == s && [] + Reverse(s) == Reverse(s);
  }

  lemma TurnedFacts<T>(s: seq<T>)
    ensures Turned(s, 0) == s && Turned(s, 1) == Reverse(s) && Turned(s, 2) == s && Reverse(Reverse(s)) == s
    ensures s == [] ==> Reverse(s) == []
  {
  }

  lemma TurnedTwice<T>(s: seq<T>, a: nat, b: nat)
    ensures Turned(Turned(s, a), b) == Turned(s, a + b)
  {
    TurnedFacts(s);
    Parity(a, b);
    hide Reverse;
  }

  lemma Parity(a: nat, b: nat)
    ensures (a + b) % 2 == 0 <==> a % 2 == b % 2
  {
  }

  /** What is found for another key is not equal to this one. */
  lemma OtherKey(m: Model, k: Keys, cls: int -> int, key: int, q: int)
    requires Good(m, k) && k.Respects(cls) && cls(q) != cls(key) && Lookup(m, k, q).Some?
    ensures !k.equal(Found(m, k, q).0, key) && !k.equal(q, key)
  {
  }

  lemma OtherInsert(m: Model, k: Keys, cls: int -> int, key: int, q: int, value: int, strategy: Strategy)
    requires Good(m, k) && k.Respects(cls) && cls(q) != cls(key)
    ensures Shaped(m)
    ensures var m' := Insert(m, k, q, value, strategy).m;
            m'.bits >= m.bits && ForKey(m', k, key) == Turned(ForKey(m, k, key), m'.bits - m.bits)
  {
    hide Good, Keys.Respects, NeedsToGrow, GrownBits, InsertNew, Insert, Lookup, ForKey, Shaped, Home, Turned, Reverse;
    GoodShape(m, k);
    TurnedFacts(ForKey(m, k, key));
    InsertIs(m, k, q, value, strategy);
    NewOther(m, k, cls, key, q, value);
    if Lookup(m, k, q).Some? {
      OtherKey(m, k, cls, key, q);
      var b, i := Home(m, k, q), Lookup(m, k, q).value;
      MatchingOther(m.t[b], k, key, i, (q, value));
      OtherBucketChange(m, k, key, b, m.t[b][i := (q, value)], m.sz);
    }
  }

  lemma OtherDelete(m: Model, k: Keys, cls: int -> int, key: int, q: int)
    requires Good(m, k) && k.Respects(cls) && cls(q) != cls(key)
    ensures Shaped(m)
    ensures var m' := Delete(m, k, q).m;
            m'.bits == m.bits && ForKey(m', k, key) == ForKey(m, k, key)
  {
    hide Good, Keys.Respects, Delete, Lookup, ForKey, Shaped, Home, Cut;
    GoodShape(m, k);
    DeleteIs(m, k, q);
    if Lookup(m, k, q).Some? {
      OtherKey(m, k, cls, key, q);
      var b, i := Home(m, k, q), Lookup(m, k, q).value;
      MatchingOther(m.t[b], k, key, i, (q, 0));
      OtherBucketChange(m, k, key, b, Cut(m.t[b], i), m.sz - 1);
    }
  }

  /** An operation on another key keeps the order of a key's pairs, or reverses it by growing. */
  lemma OtherKeyStep(m: Model, k: Keys, cls: int -> int, key: int, op: Op)
    requires Good(m, k) && k.Respects(cls) && cls(op.key) != cls(key)
    ensures Shaped(m)
    ensures var m' := Step(m, k, op).0;
            m'.bits >= m.bits && Good(m', k) && ForKey(m', k, key) == Turned(ForKey(m, k, key), m'.bits - m.bits)
  {
    hide Good, Keys.Respects, Insert, Delete, Lookup, ForKey, Shaped, Turned, Reverse, Bag, MultiReply, MultiStep;
    GoodShape(m, k);
    StepIsMultimap(m, k, cls, op);
    TurnedFacts(ForKey(m, k, key));
    match op
    case InsertOp(q, value, strategy) => OtherInsert(m, k, cls, key, q, value, strategy);
    case FindOp(q) =>
    case DeleteOp(q) => OtherDelete(m, k, cls, key, q);
  }

  /** Over any run on other keys, a key's pairs are reversed once per growth. */
  lemma {:induction false} OtherRun(m: Model, k: Keys, cls: int -> int, key: int, ops: seq<Op>)
    requires Good(m, k) && k.Respects(cls)
    requires forall i :: 0 <= i < |ops| ==> cls(ops[i].key) != cls(key)
    ensures Shaped(m)
    ensures var m' := Run(m, k, ops).0;
            m'.bits >= m.bits && Good(m', k) && ForKey(m', k, key) == Turned(ForKey(m, k, key), m'.bits - m.bits)
    decreases |ops|
  {
    hide Good, Keys.Respects, Step, ForKey, Shaped, Turned, Reverse;
    GoodShape(m, k);
    if ops == [] {
      TurnedFacts(ForKey(m, k, key));
    } else {
      var m1 := Step(m, k, ops[0]).0;
      OtherKeyStep(m, k, cls, key, ops[0]);
      OtherRun(m1, k, cls, key, ops[1..]);
      TurnedTwice(ForKey(m, k, key), m1.bits - m.bits, Run(m1, k, ops[1..]).0.bits - m1.bits);
    }
  }

  /**
   * After a run on other keys, a lookup finds the same pair as before it if and only if the map has
   * grown an even number of times, or the first and the last visited pair of the key are the same.
   */
  lemma OtherRunLookup(m: Model, k: Keys, cls: int -> int, key: int, ops: seq<Op>)
    requires Good(m, k) && k.Respects(cls)
    requires forall i :: 0 <= i < |ops| ==> cls(ops[i].key) != cls(key)
    ensures Shaped(m)
    ensures var m' := Run(m, k, ops).0;
            && (Lookup(m', k, key).Some? <==> Lookup(m, k, key).Some?)
            && (Lookup(m, k, key).Some? ==>
                  var visited := ForKey(m, k, key);
                  && visited != []
                  && (Found(m', k, key) == Found(m, k, key) <==>
                        (m'.bits - m.bits) % 2 == 0 || visited[0] == visited[|visited| - 1]))
  {
    hide Good, Keys.Respects, Lookup, Found, ForKey, Run;
    GoodShape(m, k);
    OtherRun(m, k, cls, key, ops);
    LookupIsFirst(m, k, key);
    LookupIsFirst(Run(m, k, ops).0, k, key);
  }

  /** When a lookup finds the pair that was appended last, whatever has happened to other keys since. */
  lemma LastAppendedFound(m: Model, k: Keys, cls: int -> int, key: int, value: int, ops: seq<Op>)
    requires Good(m, k) && k.Respects(cls)
    requires forall i :: 0 <= i < |ops| ==> cls(ops[i].key) != cls(key)
    ensures Shaped(m)
    ensures var r := Insert(m, k, key, value, APPEND);
            var m' := Run(r.m, k, ops).0;
            r.ret == Ok ==>
              && ForKey(r.m, k, key) != [] && Lookup(m', k, key).Some?
              && (Found(m', k, key) == (key, value) <==>
                    (m'.bits - r.m.bits) % 2 == 0 || ForKey(r.m, k, key)[|ForKey(r.m, k, key)| - 1] == (key, value))
  {
    hide Good, Keys.Respects, Lookup, Found, ForKey, Run, Insert, Shaped, Bag;
    GoodShape(m, k);
    InsertKeeps(m, k, key, value, APPEND);
    var r := Insert(m, k, key, value, APPEND);
    if r.ret == Ok {
      AppendedIsFound(m, k, cls, key, value);
      OtherRunLookup(r.m, k, cls, key, ops);
      GoodShape(r.m, k);
      LookupIsFirst(r.m, k, key);
    }
  }

  /** An append to a map of at most eight buckets, as seen by the caller and for the key `other`. */
  lemma AppendStep(m: Model, k: Keys, cls: int -> int, key: int, value: int, other: int)
    requires Good(m, k) && k.Respects(cls) && m.bits <= 3
    ensures Shaped(m)
    ensures var (m', reply) := Step(m, k, InsertOp(key, value, APPEND));
            && Good(m', k) && reply == Reply(Ok, false, 0, 0) && m'.sz == m.sz + 1
            && m'.bits == (if NeedsToGrow(m) then GrownBits(m) else m.bits)
            && ForKey(m', k, other) ==
                 (if cls(key) == cls(other) then [(key, value)] else []) +
                 if NeedsToGrow(m) then Reverse(ForKey(m, k, other)) else ForKey(m, k, other)
  {
    hide Good, Keys.Respects, ForKey;
    GoodShape(m, k);
    InsertKeeps(m, k, key, value, APPEND);
    InsertIs(m, k, key, value, APPEND);
    InsertNewOrder(m, k, cls, key, value, other);
  }

  /** Whether a map of zero, four or eight buckets has to grow. */
  lemma SmallMap(m: Model)
    requires Shaped(m) && (m.bits == 0 || m.bits == 2)
    ensures NeedsToGrow(m) <==> m.bits == 0 || m.sz >= 3
    ensures GrownBits(m) == if m.bits == 0 then 2 else 3
  {
    assert Pow2(2) == 4;
  }

  lemma RunCons(m: Model, k: Keys, op: Op, ops: seq<Op>)
    requires Shaped(m)
    ensures Run(m, k, [op] + ops).1 == [Step(m, k, op).1] + Run(Step(m, k, op).0, k, ops).1
  {
    assert ([op] + ops)[1..] == ops;
  }

  lemma EmptyHasNone(k: Keys, key: int)
    ensures Good(EMPTY, k) && ForKey(EMPTY, k, key) == []
  {
  }

  /** Three appends to an empty map. */
  lemma AppendThree(k: Keys, cls: int -> int, a: int, v1: int, v2: int, v3: int)
    returns (m1: Model, m2: Model, m3: Model)
    requires k.Respects(cls)
    ensures Shaped(m1) && Shaped(m2) && Good(m3, k) && m3.bits == 2 && m3.sz == 3
    ensures ForKey(m3, k, a) == [(a, v3), (a, v2), (a, v1)]
    ensures Step(EMPTY, k, InsertOp(a, v1, APPEND)) == (m1, Reply(Ok, false, 0, 0))
    ensures Step(m1, k, InsertOp(a, v2, APPEND)) == (m2, Reply(Ok, false, 0, 0))
    ensures Step(m2, k, InsertOp(a, v3, APPEND)) == (m3, Reply(Ok, false, 0, 0))
  {
    hide Good, Keys.Respects, ForKey, Step, NeedsToGrow, GrownBits, Shaped;
    EmptyHasNone(k, a);
    assert Reverse<Pair>([]) == [];
    hide Reverse;
    AppendStep(EMPTY, k, cls, a, v1, a);
    SmallMap(EMPTY);
    m1 := Step(EMPTY, k, InsertOp(a, v1, APPEND)).0;
    AppendStep(m1, k, cls, a, v2, a);
    SmallMap(m1);
    m2 := Step(m1, k, InsertOp(a, v2, APPEND)).0;
    AppendStep(m2, k, cls, a, v3, a);
    SmallMap(m2);
    m3 := Step(m2, k, InsertOp(a, v3, APPEND)).0;
    assert [(a, v3)] + ([(a, v2)] + ([(a, v1)] + [])) == [(a, v3), (a, v2), (a, v1)];
  }

  /**
   * From an empty map: three values are appended under one key, then one under another key, for which
   * the map grows; a lookup of the first key then finds the first value, not the last.
   */
  lemma LastAppendedMissed(k: Keys, cls: int -> int, a: int, b: int, v1: int, v2: int, v3: int, w: int)
    requires k.Respects(cls) && cls(a) != cls(b)
    ensures var done := Reply(Ok, false, 0, 0);
            Run(EMPTY, k, [InsertOp(a, v1, APPEND)] + ([InsertOp(a, v2, APPEND)] + ([InsertOp(a, v3, APPEND)] +
                          ([InsertOp(b, w, APPEND)] + [FindOp(a)])))).1
            == [done, done, done, done, Reply(Ok, true, 0, v1)]
  {
    hide Good, Keys.Respects, ForKey, Step, Run, NeedsToGrow, GrownBits, Shaped;
    var m1, m2, m3 := AppendThree(k, cls, a, v1, v2, v3);
    AppendStep(m3, k, cls, b, w, a);
    SmallMap(m3);
    var m4 := Step(m3, k, InsertOp(b, w, APPEND)).0;
    assert ForKey(m4, k, a)[0] == (a, v1);
    hide Reverse;
    FindReply(m4, k, a);
    var tail4 := [FindOp(a)];
    var tail3 := [InsertOp(b, w, APPEND)] + tail4;
    var tail2 := [InsertOp(a, v3, APPEND)] + tail3;
    RunCons(m3, k, InsertOp(b, w, APPEND), tail4);
    RunCons(m2, k, InsertOp(a, v3, APPEND), tail3);
    RunCons(m1, k, InsertOp(a, v2, APPEND), tail2);
    RunCons(EMPTY, k, InsertOp(a, v1, APPEND), [InsertOp(a, v2, APPEND)] + tail2);
  }

  lemma FindReply(m: Model, k: Keys, key: int)
    requires Shaped(m) && ForKey(m, k, key) != []
    ensures Run(m, k, [FindOp(key)]).1 == [Reply(Ok, true, 0, ForKey(m, k, key)[0].1)]
  {
    LookupIsFirst(m, k, key);
    hide ForKey, Lookup, Found;
    RunCons(m, k, FindOp(key), []);
    assert [FindOp(key)] + [] == [FindOp(key)];
  }
}

/** The linked representation: chains of heap-allocated entries hanging off an array of heads. */
module HashChains {
  import opened Words
  import opened HashSpec

  /** struct hashmap_entry */
  class Entry {
    var key: int
    var value: int
    var next: Entry?

    constructor (key: int, value: int)
      ensures this.key == key && this.value == value && next == null
    {
      this.key, this.value, next := key, value, null;
    }
  }

  /** Following `next` from `p` visits exactly the entries of `c`. */
  ghost predicate IsChain(p: Entry?, c: seq<Entry>)
    reads c
  {
    && (c == [] ==> p == null)
    && (c != [] ==> p == c[0] && c[|c| - 1].next == null)
    && forall i :: 0 <= i < |c| - 1 ==> c[i].next == c[i + 1]
  }

  /** The entry of chain `b` all belong to `b`, and no entry occurs twice. */
  ghost predicate Homed(chains: seq<seq<Entry>>, home: map<Entry, nat>) {
    && (forall b, i :: 0 <= b < |chains| && 0 <= i < |chains[b]| ==>
          chains[b][i] in home && home[chains[b][i]] == b)
    && (forall b :: 0 <= b < |chains| ==> Distinct(chains[b]))
  }

  ghost predicate Wired(heads: seq<Entry?>, chains: seq<seq<Entry>>, home: map<Entry, nat>)
    reads home.Keys
  {
    && |heads| == |chains|
    && Homed(chains, home)
    && forall b :: 0 <= b < |chains| ==> IsChain(heads[b], chains[b])
  }

  ghost function PairOf(e: Entry): Pair
    reads e
  {
    (e.key, e.value)
  }

  ghost function Pairs(c: seq<Entry>): (r: seq<Pair>)
    reads c
    ensures |r| == |c| && forall i :: 0 <= i < |c| ==> r[i] == PairOf(c[i])
  {
    seq(|c|, i requires 0 <= i < |c| reads c => PairOf(c[i]))
  }

  /** The key/value pairs stored in the chains. */
  ghost function TableOf(chains: seq<seq<Entry>>, home: map<Entry, nat>): (t: Table)
    requires Homed(chains, home)
    reads home.Keys
    ensures |t| == |chains| && forall b :: 0 <= b < |t| ==> t[b] == Pairs(chains[b])
  {
    seq(|chains|, b requires 0 <= b < |chains| reads home.Keys => Pairs(chains[b]))
  }

  /** `t` lists the pairs that the entries of `chains` hold. */
  ghost predicate Lists(chains: seq<seq<Entry>>, home: map<Entry, nat>, t: Table)
    requires Homed(chains, home)
    reads home.Keys
  {
    && |t| == |chains|
    && (forall b :: 0 <= b < |t| ==> |t[b]| == |chains[b]|)
    && forall b, i :: 0 <= b < |t| && 0 <= i < |t[b]| ==> t[b][i] == PairOf(chains[b][i])
  }

  lemma ListsIs(chains: seq<seq<Entry>>, home: map<Entry, nat>, t: Table)
    requires Homed(chains, home)
    ensures Lists(chains, home, t) <==> t == TableOf(chains, home)
  {
    if Lists(chains, home, t) {
      forall b | 0 <= b < |t|
        ensures t[b] == Pairs(chains[b])
      {
      }
    }
  }

  /** hashmap_add_entry: links `e` in at the front of a chain. */
  method AddEntry(heads: array<Entry?>, b: nat, e: Entry, ghost c: seq<Entry>)
    requires b < heads.Length && IsChain(heads[b], c) && e !in c
    modifies heads, e`next
    ensures forall d :: 0 <= d < heads.Length && d != b ==> heads[d] == old(heads[d])
    ensures IsChain(heads[b], [e] + c)
  {
    e.next := heads[b];
    heads[b] := e;
  }

  /** Links a new entry into chain `b`. */
  method LinkFront(heads: array<Entry?>, b: nat, e: Entry, ghost chains: seq<seq<Entry>>, ghost home: map<Entry, nat>)
    requires Wired(heads[..], chains, home) && b < heads.Length && e !in home
    modifies heads, e`next
    ensures Wired(heads[..], chains[b := [e] + chains[b]], home[e := b])
    ensures TableOf(chains[b := [e] + chains[b]], home[e := b])
         == Push(old(TableOf(chains, home)), b, PairOf(e))
  {
    hide IsChain;
    ghost var before, t := heads[..], TableOf(chains, home);
    ghost var chains', home' := chains[b := [e] + chains[b]], home[e := b];
    ListsIs(chains, home, t);
    HomedPush(chains, home, b, e);
    assert IsChain(before[b], chains[b]);
    AddEntry(heads, b, e, chains[b]);
    forall c | 0 <= c < |chains'|
      ensures IsChain(heads[..][c], chains'[c])
    {
      assert c != b ==> old(IsChain(before[c], chains[c]));
    }
    assert Lists(chains, home, t);
    assert Lists(chains', home', Push(t, b, PairOf(e)));
    ListsIs(chains', home', Push(t, b, PairOf(e)));
  }

  lemma HomedPush(chains: seq<seq<Entry>>, home: map<Entry, nat>, b: nat, e: Entry)
    requires Homed(chains, home) && b < |chains| && e !in home
    ensures Homed(chains[b := [e] + chains[b]], home[e := b])
  {
  }

  /** hashmap_del_entry: redirects the pointer that leads to `e`, in place. */
  method DelEntry(heads: array<Entry?>, b: nat, prev: Entry?, e: Entry, ghost i: nat, ghost c: seq<Entry>)
    requires b < heads.Length && IsChain(heads[b], c) && Distinct(c) && i < |c| && e == c[i]
    requires prev == if i == 0 then null else c[i - 1]
    modifies heads, c
    ensures forall j :: 0 <= j < |c| ==> c[j].key == old(c[j].key) && c[j].value == old(c[j].value)
    ensures forall d :: 0 <= d < heads.Length && d != b ==> heads[d] == old(heads[d])
    ensures IsChain(heads[b], Cut(c, i))
  {
    if prev == null {
      heads[b] := e.next;
    } else {
      prev.next := e.next;
    }
    e.next := null;
  }

  /** Takes the entry at position `i` of chain `b` out of the map. */
  method Unlink(heads: array<Entry?>, b: nat, prev: Entry?, e: Entry,
                ghost i: nat, ghost chains: seq<seq<Entry>>, ghost home: map<Entry, nat>)
    requires Wired(heads[..], chains, home) && b < heads.Length && i < |chains[b]| && e == chains[b][i]
    requires prev == if i == 0 then null else chains[b][i - 1]
    modifies heads, chains[b]
    ensures Wired(heads[..], chains[b := Cut(chains[b], i)], home)
    ensures |old(TableOf(chains, home))[b]| == |chains[b]|
    ensures TableOf(chains[b := Cut(chains[b], i)], home)
         == old(TableOf(chains, home))[b := Cut(old(TableOf(chains, home))[b], i)]
  {
    hide IsChain;
    ghost var before, t := heads[..], TableOf(chains, home);
    ghost var chains' := chains[b := Cut(chains[b], i)];
    ListsIs(chains, home, t);
    HomedCut(chains, home, b, i);
    assert IsChain(before[b], chains[b]);
    DelEntry(heads, b, prev, e, i, chains[b]);
    forall c | 0 <= c < |chains'|
      ensures IsChain(heads[..][c], chains'[c])
    {
      assert c != b ==> old(IsChain(before[c], chains[c]));
    }
    assert Lists(chains, home, t);
    assert Lists(chains', home, t[b := Cut(t[b], i)]);
    ListsIs(chains', home, t[b := Cut(t[b], i)]);
  }

  lemma HomedMembers(chains: seq<seq<Entry>>, home: map<Entry, nat>, b: nat)
    requires Homed(chains, home) && b < |chains|
    ensures forall e :: e in chains[b] ==> e in home
  {
  }

  lemma HomedCut(chains: seq<seq<Entry>>, home: map<Entry, nat>, b: nat, i: nat)
    requires Homed(chains, home) && b < |chains| && i < |chains[b]|
    ensures Homed(chains[b := Cut(chains[b], i)], home)
  {
  }

  /** Overwrites the key and the value of the entry at position `i` of chain `b`. */
  method Overwrite(heads: array<Entry?>, b: nat, e: Entry, key: int, value: int,
                   ghost i: nat, ghost chains: seq<seq<Entry>>, ghost home: map<Entry, nat>)
    requires Wired(heads[..], chains, home) && b < heads.Length && i < |chains[b]| && e == chains[b][i]
    modifies e
    ensures Wired(heads[..], chains, home)
    ensures |old(TableOf(chains, home))[b]| == |chains[b]|
    ensures TableOf(chains, home)
         == old(TableOf(chains, home))[b := old(TableOf(chains, home))[b][i := (key, value)]]
  {
    ghost var t := TableOf(chains, home);
    ListsIs(chains, home, t);
    e.key := key;
    e.value := value;
    forall c | 0 <= c < |chains|
      ensures IsChain(heads[..][c], chains[c])
    {
    }
    assert Lists(chains, home, t[b := t[b][i := (key, value)]]);
    ListsIs(chains, home, t[b := t[b][i := (key, value)]]);
  }

  /** hashmap_find_entry on one chain: the first entry with an equal key and its predecessor. */
  method FindEntry(head: Entry?, k: Keys, key: int, ghost c: seq<Entry>)
    returns (prev: Entry?, entry: Entry?, ghost i: nat)
    requires IsChain(head, c)
    ensures i == FirstMatch(Pairs(c), k, key)
    ensures entry == if i < |c| then c[i] else null
    ensures entry != null ==> prev == if i == 0 then null else c[i - 1]
  {
    prev, entry, i := null, head, 0;
    while entry != null
      invariant i <= |c| && entry == (if i < |c| then c[i] else null)
      invariant prev == if i == 0 then null else c[i - 1]
      invariant forall j :: 0 <= j < i ==> !k.equal(Pairs(c)[j].0, key)
      decreases |c| - i
    {
      if k.equal(entry.key, key) {
        FirstMatchIs(Pairs(c), k, key, i);
        return;
      }
      prev, entry := entry, entry.next;
      i := i + 1;
    }
    FirstMatchIs(Pairs(c), k, key, i);
  }

  /** Pushes one entry into the new buckets. */
  method MoveEntry(cur: Entry, heads: array<Entry?>, k: Keys, bits: nat,
                   ghost chains: seq<seq<Entry>>, ghost home: map<Entry, nat>, ghost moved: seq<Pair>)
    returns (ghost chains': seq<seq<Entry>>, ghost home': map<Entry, nat>)
    requires bits <= 64 && cur !in home
    requires Wired(heads[..], chains, home) && TableOf(chains, home) == PushAll(moved, k, bits)
    modifies heads, cur`next
    ensures home'.Keys == home.Keys + {cur} && PairOf(cur) == old(PairOf(cur))
    ensures Wired(heads[..], chains', home')
    ensures TableOf(chains', home') == PushAll(moved + [PairOf(cur)], k, bits)
  {
    hide PushAll, HashBits, Pow2, Homed, IsChain;
    PushAllStep(moved, PairOf(cur), k, bits);
    var h := k.Bucket(cur.key, bits);
    LinkFront(heads, h, cur, chains, home);
    chains', home' := chains[h := [cur] + chains[h]], home[cur := h];
  }

  lemma PushAllStep(moved: seq<Pair>, p: Pair, k: Keys, bits: nat)
    requires bits <= 64
    ensures k.Bucket(p.0, bits) < Pow2(bits)
    ensures PushAll(moved + [p], k, bits) == Push(PushAll(moved, k, bits), k.Bucket(p.0, bits), p)
  {
    HashBitsInRange(k.hash(p.0), bits);
    assert (moved + [p])[..|moved|] == moved;
  }

  /** The inner loop of hashmap_grow: pushes every entry of one old chain into the new buckets. */
  method MoveChain(head: Entry?, heads: array<Entry?>, k: Keys, bits: nat, ghost c: seq<Entry>,
                   ghost chains: seq<seq<Entry>>, ghost home: map<Entry, nat>, ghost moved: seq<Pair>)
    returns (ghost chains': seq<seq<Entry>>, ghost home': map<Entry, nat>)
    requires IsChain(head, c) && Distinct(c) && forall j :: 0 <= j < |c| ==> c[j] !in home
    requires bits <= 64 && Wired(heads[..], chains, home) && TableOf(chains, home) == PushAll(moved, k, bits)
    modifies heads, c
    ensures forall j :: 0 <= j < |c| ==> PairOf(c[j]) == old(PairOf(c[j]))
    ensures Wired(heads[..], chains', home') && forall e :: e in home' <==> e in home || e in c
    ensures TableOf(chains', home') == PushAll(moved + old(Pairs(c)), k, bits)
  {
    hide PushAll, Homed, TableOf;
    chains', home' := chains, home;
    ghost var ps := Pairs(c);
    ghost var i := 0;
    var cur := head;
    assert moved + ps[..0] == moved;
    while cur != null
      invariant i <= |c| == |ps| && cur == (if i < |c| then c[i] else null)
      invariant forall j :: 0 <= j < |c| ==> c[j].key == ps[j].0 && c[j].value == ps[j].1
      invariant forall j :: i <= j < |c| ==> c[j].next == if j + 1 < |c| then c[j + 1] else null
      invariant Wired(heads[..], chains', home')
      invariant forall e :: e in home' <==> e in home || e in c[..i]
      invariant TableOf(chains', home') == PushAll(moved + ps[..i], k, bits)
      decreases |c| - i
    {
      var tmp := cur.next;
      assert cur == c[i] && tmp == if i + 1 < |c| then c[i + 1] else null;
      assert cur !in c[..i];
      chains', home' := MoveEntry(cur, heads, k, bits, chains', home', moved + ps[..i]);
      TakeSnoc(moved, ps, i);
      TakeSnoc([], c, i);
      cur := tmp;
      i := i + 1;
    }
    assert c[..i] == c && ps[..i] == ps;
  }

  /** The chains from `b` on have not been touched yet. */
  ghost predicate Untouched(heads: seq<Entry?>, chains: seq<seq<Entry>>, b: nat)
    requires |heads| == |chains|
    reads set c, j | 0 <= c < |chains| && 0 <= j < |chains[c]| :: chains[c][j]
  {
    forall c :: b <= c < |chains| ==> IsChain(heads[c], chains[c])
  }

  /** An entry of another chain is not in chain `b`. */
  lemma OtherChains(chains: seq<seq<Entry>>, home: map<Entry, nat>, b: nat)
    requires Homed(chains, home) && b < |chains|
    ensures Distinct(chains[b]) && forall j :: 0 <= j < |chains[b]| ==> chains[b][j] in home && home[chains[b][j]] == b
    ensures forall c, j :: 0 <= c < |chains| && c != b && 0 <= j < |chains[c]| ==> chains[c][j] !in chains[b]
  {
  }

  /** The loops of hashmap_grow: moves every entry into a new array of buckets. */
  method MoveAll(heads: array<Entry?>, k: Keys, bits: nat, ghost chains: seq<seq<Entry>>, ghost home: map<Entry, nat>)
    returns (newHeads: array<Entry?>, ghost nc: seq<seq<Entry>>, ghost nh: map<Entry, nat>)
    requires bits <= 64 && Wired(heads[..], chains, home)
    modifies home.Keys
    ensures fresh(newHeads) && newHeads.Length == Pow2(bits) && nh.Keys <= home.Keys
    ensures Homed(nc, nh) && Wired(newHeads[..], nc, nh)
    ensures TableOf(nc, nh) == PushAll(Flat(old(TableOf(chains, home))), k, bits)
  {
    hide Pow2, HashBits, PushAll, Flat, Homed, IsChain;
    ghost var t := TableOf(chains, home);
    ListsIs(chains, home, t);
    newHeads := new Entry?[Pow2(bits)](_ => null);
    nc, nh := seq(Pow2(bits), _ => []), map[];
    PushAllNone(t, nc, k, bits);
    EmptyWired(newHeads[..], nc);
    for bkt := 0 to heads.Length
      invariant Wired(newHeads[..], nc, nh) && forall e :: e in nh ==> e in home && home[e] < bkt
      invariant TableOf(nc, nh) == PushAll(Flat(t[..bkt]), k, bits)
      invariant Untouched(heads[..], chains, bkt) && Lists(chains, home, t)
    {
      OtherChains(chains, home, bkt);
      TakeSnoc([], t, bkt);
      FlatSnoc(t[..bkt], t[bkt]);
      assert Pairs(chains[bkt]) == t[bkt];
      assert IsChain(heads[..][bkt], chains[bkt]);
      ghost var hs := heads[..];
      label L:
      nc, nh := MoveChain(heads[bkt], newHeads, k, bits, chains[bkt], nc, nh, Flat(t[..bkt]));
      forall c | bkt + 1 <= c < |chains|
        ensures IsChain(hs[c], chains[c])
      {
        assert old@L(IsChain(hs[c], chains[c]));
      }
    }
    assert t[..heads.Length] == t;
  }

  lemma EmptyWired(heads: seq<Entry?>, nc: seq<seq<Entry>>)
    requires |heads| == |nc| && forall b :: 0 <= b < |nc| ==> heads[b] == null && nc[b] == []
    ensures Wired(heads, nc, map[])
  {
  }

  lemma PushAllNone(t: Table, nc: seq<seq<Entry>>, k: Keys, bits: nat)
    requires bits <= 64 && |nc| == Pow2(bits) && forall b :: 0 <= b < |nc| ==> nc[b] == []
    ensures Homed(nc, map[]) && TableOf(nc, map[]) == PushAll(Flat(t[..0]), k, bits)
  {
    assert t[..0] == [];
  }

  /** hashmap__for_each_key_entry on one chain, collecting what the loop body would see. */
  method Collect(head: Entry?, k: Keys, key: int, ghost c: seq<Entry>) returns (r: seq<Pair>)
    requires IsChain(head, c)
    ensures r == Matching(Pairs(c), k, key)
  {
    ghost var ps := Pairs(c);
    ghost var i := 0;
    var cur := head;
    r := [];
    while cur != null
      invariant i <= |c| && cur == (if i < |c| then c[i] else null)
      invariant r == Matching(ps[..i], k, key)
      decreases |c| - i
    {
      TakeSnoc([], ps, i);
      assert ps[..i + 1][..i] == ps[..i];
      if k.equal(cur.key, key) {
        r := r + [(cur.key, cur.value)];
      }
      cur := cur.next;
      i := i + 1;
    }
    assert ps[..i] == ps;
  }
}

/** struct hashmap and its operations. */
module HashMap {
  import opened Words
  import opened HashSpec
  import opened HashModel
  import opened HashChains

  class HashMap {
    const k: Keys
    var buckets: array<Entry?>
    var cap: nat
    var capBits: nat
    var sz: nat
    ghost var chains: seq<seq<Entry>>
    /** The bucket of every entry; entries that were taken out may stay in it. */
    ghost var home: map<Entry, nat>

    ghost predicate Valid()
      reads this, buckets, home.Keys
    {
      Homed(chains, home) && Ready() && Good(View(), k)
    }

    /** The chains hang together; the table they make up may be anything. */
    ghost predicate Ready()
      reads this, buckets, home.Keys
    {
      cap == buckets.Length && Wired(buckets[..], chains, home)
    }

    ghost function View(): Model
      requires Homed(chains, home)
      reads this, home.Keys
    {
      Model(TableOf(chains, home), capBits, sz)
    }

    /** hashmap__init */
    constructor (k: Keys)
      ensures Valid() && View() == EMPTY && this.k == k && fresh(home.Keys) && fresh(buckets)
    {
      this.k := k;
      buckets, cap, capBits, sz := new Entry?[0], 0, 0, 0;
      chains, home := [], map[];
    }

    /** hashmap__size: the number of stored pairs. */
    function Size(): (n: nat)
      requires Valid()
      reads this, buckets, home.Keys
      ensures n == |Bag(View())|
    {
      sz
    }

    /** hash_bits of the key's hash for the current table, 0 if there is none. */
    function Slot(key: int): (h: nat)
      requires capBits <= CALLOC_MAX_BITS
      reads this
    {
      k.Bucket(key, capBits)
    }

    /** hashmap_find_entry */
    method FindEntry(key: int) returns (prev: Entry?, entry: Entry?, ghost i: nat)
      requires Valid()
      ensures entry != null <==> Lookup(View(), k, key).Some?
      ensures entry != null ==>
                && Lookup(View(), k, key) == Some(i)
                && Slot(key) == Home(View(), k, key) < |chains| && i < |chains[Slot(key)]|
                && entry == chains[Slot(key)][i]
                && Found(View(), k, key) == PairOf(entry)
                && prev == if i == 0 then null else chains[Slot(key)][i - 1]
    {
      hide Flat, Hashed, Pow2, HashBits, Homed, IsChain;
      prev, entry, i := null, null, 0;
      if buckets.Length == 0 {
        return;
      }
      ghost var b := Home(View(), k, key);
      var h := k.Bucket(key, capBits);
      assert IsChain(buckets[..][h], chains[h]);
      prev, entry, i := HashChains.FindEntry(buckets[h], k, key, chains[h]);
    }

    /** hashmap_find */
    method Find(key: int) returns (found: bool, value: int)
      requires Valid()
      ensures found <==> Lookup(View(), k, key).Some?
      ensures found ==> value == Found(View(), k, key).1
    {
      hide Good, Wired, Lookup, Found;
      var prev, entry, i := FindEntry(key);
      if entry == null {
        return false, 0;
      }
      return true, entry.value;
    }

    /** Unlinks an entry that FindEntry returned. */
    method TakeOut(h: nat, prev: Entry?, entry: Entry, ghost i: nat)
      requires Homed(chains, home) && Ready() && sz > 0
      requires h < |chains| && i < |chains[h]| && entry == chains[h][i]
      requires prev == if i == 0 then null else chains[h][i - 1]
      modifies this`sz, this`chains, buckets, home.Keys
      ensures Homed(chains, home) && Ready()
      ensures |old(View()).t| == |old(chains)| && |old(View()).t[h]| == |old(chains)[h]|
      ensures View() == Model(old(View()).t[h := Cut(old(View()).t[h], i)], capBits, old(sz) - 1)
    {
      hide Homed, IsChain, Cut;
      HomedMembers(chains, home, h);
      Unlink(buckets, h, prev, entry, i, chains, home);
      chains := chains[h := Cut(chains[h], i)];
      sz := sz - 1;
    }

    /** hashmap_delete */
    method Delete(key: int) returns (found: bool, oldKey: int, oldValue: int)
      requires Valid()
      modifies this`sz, this`chains, buckets, home.Keys
      ensures Valid()
      ensures var r := HashModel.Delete(old(View()), k, key);
              View() == r.m && (found, oldKey, oldValue) == (r.found, r.oldKey, r.oldValue)
    {
      hide Good, Lookup, Found, Homed, Ready, Home, Cut, HashModel.Delete;
      ghost var m := View();
      DeleteKeeps(m, k, key);
      var prev, entry, i := FindEntry(key);
      DeleteIs(m, k, key);
      if entry == null {
        return false, 0, 0;
      }
      var h := Slot(key);
      found, oldKey, oldValue := true, entry.key, entry.value;
      TakeOut(h, prev, entry, i);
    }

    /** Stores a new key and value in an entry that FindEntry returned. */
    method StoreIn(h: nat, entry: Entry, key: int, value: int, ghost i: nat)
      requires Homed(chains, home) && Ready()
      requires h < |chains| && i < |chains[h]| && entry == chains[h][i]
      modifies entry
      ensures Homed(chains, home) && Ready()
      ensures |old(View()).t| == |chains| && |old(View()).t[h]| == |chains[h]|
      ensures View() == Model(old(View()).t[h := old(View()).t[h][i := (key, value)]], capBits, sz)
    {
      hide Homed, IsChain;
      Overwrite(buckets, h, entry, key, value, i, chains, home);
    }

    /** Allocates an entry and links it in at the front of its bucket. */
    method PutIn(h: nat, key: int, value: int)
      requires Homed(chains, home) && Ready() && h < |chains|
      modifies this`sz, this`chains, this`home, buckets
      ensures Homed(chains, home) && Ready() && fresh(home.Keys - old(home.Keys))
      ensures |old(View()).t| == |old(chains)|
      ensures View() == Model(Push(old(View()).t, h, (key, value)), capBits, old(sz) + 1)
    {
      hide Homed, IsChain, TableOf, Pairs;
      ghost var t := TableOf(chains, home);
      var entry := new Entry(key, value);
      LinkFront(buckets, h, entry, chains, home);
      assert PairOf(entry) == (key, value);
      chains, home := chains[h := [entry] + chains[h]], home[entry := h];
      sz := sz + 1;
      assert TableOf(chains, home) == Push(t, h, (key, value));
    }

    /** hashmap_grow */
    method Grow() returns (r: Status)
      requires Valid()
      modifies this`buckets, this`cap, this`capBits, this`chains, this`home, home.Keys
      ensures Homed(chains, home) && Ready() && home.Keys <= old(home.Keys)
      ensures r == if GrownBits(old(View())) > CALLOC_MAX_BITS then Err(ENOMEM) else Ok
      ensures r.Ok? ==> fresh(buckets) && View() == HashModel.Grow(old(View()), k)
      ensures r.Err? ==> buckets == old(buckets) && View() == old(View())
    {
      hide Good, Homed, Wired, Pow2, PushAll, Flat;
      ghost var m := View();
      var newCapBits := capBits + 1;
      if newCapBits < HASHMAP_MIN_CAP_BITS {
        newCapBits := HASHMAP_MIN_CAP_BITS;
      }
      if newCapBits > CALLOC_MAX_BITS {
        return Err(ENOMEM);
      }
      var newCap := Pow2(newCapBits);
      var newBuckets: array<Entry?>;
      ghost var nc, nh;
      newBuckets, nc, nh := MoveAll(buckets, k, newCapBits, chains, home);
      assert m.t[..|m.t|] == m.t;
      cap, capBits, buckets := newCap, newCapBits, newBuckets;
      chains, home := nc, nh;
      r := Ok;
    }

    /** The call returned and left the map as the model says. */
    ghost predicate Inserts(m: Model, key: int, value: int, strategy: Strategy, ret: Status, oldKey: int, oldValue: int)
      requires Homed(chains, home) && Shaped(m)
      reads this, home.Keys
    {
      HashModel.Insert(m, k, key, value, strategy) == Inserted(View(), ret, oldKey, oldValue)
    }

    /** hashmap_insert; `oldKey` and `oldValue` are 0 unless a pair with an equal key was found. */
    method Insert(key: int, value: int, strategy: Strategy) returns (ret: Status, oldKey: int, oldValue: int)
      requires Valid()
      modifies this, buckets, home.Keys
      ensures Shaped(old(View())) && Valid() && Inserts(old(View()), key, value, strategy, ret, oldKey, oldValue)
      ensures fresh(home.Keys - old(home.Keys)) && (buckets == old(buckets) || fresh(buckets))
    {
      hide Good, Lookup, Found, Homed, Ready, Home, Shaped, Inserts, HashBits, Pow2;
      GoodShape(View(), k);
      if strategy != APPEND {
        var prev, entry, i := FindEntry(key);
        if entry != null {
          ret, oldKey, oldValue := InsertFound(entry, key, value, strategy, i);
          return;
        }
      }
      ret, oldKey, oldValue := InsertAbsent(key, value, strategy);
    }

    /** The part of hashmap_insert that deals with an existing entry. */
    method InsertFound(entry: Entry, key: int, value: int, strategy: Strategy, ghost i: nat)
      returns (ret: Status, oldKey: int, oldValue: int)
      requires Valid() && Shaped(View()) && strategy != APPEND && Lookup(View(), k, key) == Some(i)
      requires Slot(key) == Home(View(), k, key) < |chains| && i < |chains[Slot(key)]|
      requires entry == chains[Slot(key)][i] && Found(View(), k, key) == PairOf(entry)
      modifies home.Keys
      ensures Shaped(old(View())) && Valid() && Inserts(old(View()), key, value, strategy, ret, oldKey, oldValue)
    {
      hide Good, Lookup, Found, Homed, Ready, Home, HashModel.Insert, Shaped, HashBits, Pow2;
      InsertKeeps(View(), k, key, value, strategy);
      InsertIs(View(), k, key, value, strategy);
      oldKey, oldValue := entry.key, entry.value;
      if strategy == SET || strategy == UPDATE {
        HomedMembers(chains, home, Slot(key));
        StoreIn(Slot(key), entry, key, value, i);
        ret := Ok;
      } else {
        ret := Err(EEXIST);
      }
    }

    /** The part of hashmap_insert after no entry has been found, or none has been looked for. */
    method InsertAbsent(key: int, value: int, strategy: Strategy) returns (ret: Status, oldKey: int, oldValue: int)
      requires Valid() && Shaped(View()) && (strategy == APPEND || Lookup(View(), k, key).None?)
      modifies this, buckets, home.Keys
      ensures Shaped(old(View())) && Valid() && Inserts(old(View()), key, value, strategy, ret, oldKey, oldValue)
      ensures fresh(home.Keys - old(home.Keys)) && (buckets == old(buckets) || fresh(buckets))
    {
      hide Good, Lookup, Found, Homed, Ready, Home, HashModel.Insert, HashModel.InsertNew, Shaped, HashBits, Pow2;
      InsertKeeps(View(), k, key, value, strategy);
      InsertIs(View(), k, key, value, strategy);
      oldKey, oldValue := 0, 0;
      if strategy == UPDATE {
        return Err(ENOENT), 0, 0;
      }
      ret := InsertEntry(key, value);
    }

    /** Adds an entry, growing the table first if necessary. */
    method InsertEntry(key: int, value: int) returns (ret: Status)
      requires Valid() && Shaped(View())
      modifies this, buckets, home.Keys
      ensures Homed(chains, home) && Ready()
      ensures fresh(home.Keys - old(home.Keys)) && (buckets == old(buckets) || fresh(buckets))
      ensures InsertNew(old(View()), k, key, value) == Inserted(View(), ret, 0, 0)
    {
      hide Good, Homed, Flat, Hashed, Pow2, HashBits, HashModel.Grow, GrownBits, IsChain;
      ghost var m := View();
      if NeedsGrowing() {
        if GrownBits(m) <= CALLOC_MAX_BITS {
          GrowKeeps(m, k);
        }
        var err := Grow();
        if err != Ok {
          return err;
        }
      }
      assert View() == if NeedsToGrow(m) then HashModel.Grow(m, k) else m;
      ghost var b := Home(View(), k, key);
      PutIn(Slot(key), key, value);
      ret := Ok;
    }

    /** hashmap_needs_to_grow */
    function NeedsGrowing(): bool
      reads this
    {
      cap == 0 || ((sz + 1) * 4) / 3 > cap
    }

    /** hashmap__for_each_key_entry: the pairs visited for `key`, in order. */
    method EntriesFor(key: int) returns (r: seq<Pair>)
      requires Valid()
      ensures Shaped(View()) && r == ForKey(View(), k, key)
    {
      hide Homed, Hashed, Flat, IsChain, Matching, HashBits, Pow2;
      if buckets.Length == 0 {
        return [];
      }
      ghost var b := Home(View(), k, key);
      var h := Slot(key);
      assert IsChain(buckets[..][h], chains[h]);
      r := Collect(buckets[h], k, key, chains[h]);
    }
  }
}

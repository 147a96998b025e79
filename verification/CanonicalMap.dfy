/** The canonical type map of deduplication and how ids resolve through it. */
module CanonicalMap {
  import opened Words
  import opened BtfRecords

  /** is_type_mapped */
  predicate Mapped(m: seq<u32>, id: nat)
    requires id < |m|
  {
    m[id] <= BTF_MAX_NR_TYPES
  }

  /** The map sends `id` on to another type. */
  predicate Linked(m: seq<u32>, id: nat)
    requires id < |m|
  {
    Mapped(m, id) && m[id] != id
  }

  ghost predicate Closed(m: seq<u32>) {
    forall i :: 0 <= i < |m| && m[i] <= BTF_MAX_NR_TYPES ==> m[i] < |m|
  }

  /** Every link goes to a type of lower rank. */
  ghost predicate Ranked(m: seq<u32>, rank: seq<nat>) {
    && |rank| == |m|
    && Closed(m)
    && forall i :: 0 <= i < |m| && m[i] <= BTF_MAX_NR_TYPES && m[i] != i ==> rank[m[i]] < rank[i]
  }

  /** No chain of links comes back to where it started. */
  ghost predicate Acyclic(m: seq<u32>) {
    exists rank :: Ranked(m, rank)
  }

  ghost function RootBy(m: seq<u32>, rank: seq<nat>, id: nat): (r: nat)
    requires Ranked(m, rank) && id < |m|
    ensures r < |m| && !Linked(m, r)
    decreases rank[id]
  {
    if Linked(m, id) then RootBy(m, rank, m[id]) else id
  }

  lemma {:induction false} RootByAnyRank(m: seq<u32>, r1: seq<nat>, r2: seq<nat>, id: nat)
    requires Ranked(m, r1) && Ranked(m, r2) && id < |m|
    ensures RootBy(m, r1, id) == RootBy(m, r2, id)
    decreases r1[id]
  {
    if Linked(m, id) {
      RootByAnyRank(m, r1, r2, m[id]);
    }
  }

  /** The end of the chain of links from `id`. */
  ghost function Root(m: seq<u32>, id: nat): (r: nat)
    requires Acyclic(m) && id < |m|
    ensures r < |m| && !Linked(m, r)
  {
    var rank :| Ranked(m, rank);
    RootBy(m, rank, id)
  }

  lemma RootStep(m: seq<u32>, id: nat)
    requires Acyclic(m) && id < |m|
    ensures Linked(m, id) ==> m[id] < |m| && Root(m, id) == Root(m, m[id])
    ensures !Linked(m, id) ==> Root(m, id) == id
  {
    var rank :| Ranked(m, rank) && Root(m, id) == RootBy(m, rank, id);
    if Linked(m, id) {
      var rank' :| Ranked(m, rank') && Root(m, m[id]) == RootBy(m, rank', m[id]);
      RootByAnyRank(m, rank, rank', m[id]);
    }
  }

  /** Every type has been given a canonical type. */
  ghost predicate Total(m: seq<u32>) {
    forall i :: 0 <= i < |m| ==> m[i] <= BTF_MAX_NR_TYPES
  }

  /** resolve_type_id: follow the links to their end. */
  method ResolveTypeId(map_: array<u32>, id: nat) returns (r: nat)
    requires Acyclic(map_[..]) && id < map_.Length
    ensures r == Root(map_[..], id)
  {
    ghost var rank :| Ranked(map_[..], rank);
    r := id;
    while map_[r] <= BTF_MAX_NR_TYPES && map_[r] != r
      invariant r < map_.Length
      invariant Root(map_[..], r) == Root(map_[..], id)
      decreases rank[r]
    {
      RootStep(map_[..], r);
      r := map_[r];
    }
    RootStep(map_[..], r);
  }
}

/** The mutable part of `struct btf` that the type passes work on. */
module BtfObject {
  import opened Words
  import opened BtfRecords

  /** memmove within one word array; the ranges may overlap. */
  method MemMove(a: array<u32>, dst: nat, src: nat, len: nat)
    requires dst + len <= a.Length && src + len <= a.Length
    modifies a
    ensures a[..] == old(a[..])[..dst] + old(a[..])[src..src + len] + old(a[..])[dst + len..]
  {
    forall k | 0 <= k < len {
      a[dst + k] := a[src + k];
    }
  }

  /** memcpy between two distinct word arrays. */
  method MemCpy(dst: array<u32>, at: nat, src: array<u32>, from: nat, len: nat)
    requires dst != src && at + len <= dst.Length && from + len <= src.Length
    modifies dst
    ensures dst[..] == old(dst[..])[..at] + src[..][from..from + len] + old(dst[..])[at + len..]
  {
    for k := 0 to len
      invariant forall j :: 0 <= j < dst.Length ==>
                  dst[j] == if at <= j < at + k then src[from + j - at] else old(dst[j])
    {
      dst[at + k] := src[from + k];
    }
  }

  class Btf {
    /** Whether this is split BTF on top of a base. */
    const hasBase: bool
    /** Id of the first type held here; smaller ids belong to the base. */
    const startId: nat
    var types: array<u32>
    var typeLen: nat
    var offs: array<nat>
    var nrTypes: nat
    /** The records held here, in id order. */
    ghost var recs: seq<Record>

    ghost predicate Valid()
      reads this, types, offs
    {
      && 1 <= startId && (!hasBase ==> startId == 1) && startId + nrTypes <= BTF_MAX_NR_TYPES
      && nrTypes == |recs|
      && Represents(types[..], typeLen, offs[..], recs)
    }

    /** btf__type_cnt */
    function TypeCnt(): nat
      reads this
    {
      startId + nrTypes
    }

    constructor (hasBase: bool, startId: nat, types: array<u32>, offs: array<nat>, ghost recs: seq<Record>)
      requires 1 <= startId && (!hasBase ==> startId == 1) && startId + |recs| <= BTF_MAX_NR_TYPES
      requires offs.Length == |recs| && Represents(types[..], types.Length, offs[..], recs)
      ensures Valid()
      ensures this.hasBase == hasBase && this.startId == startId && this.types == types && this.offs == offs &&
            this.recs == recs
    {
      this.hasBase, this.startId, this.types, this.offs, this.recs := hasBase, startId, types, offs, recs;
      typeLen, nrTypes := types.Length, offs.Length;
    }

    /** Reads word `pos` of record `i` through the offset index. */
    method Word(i: nat, pos: nat) returns (w: u32)
      requires Valid() && i < nrTypes && pos < |recs[i]|
      ensures w == recs[i][pos]
    {
      RepresentsAt(types[..], typeLen, offs[..], recs, i);
      w := types[offs[i] + pos];
    }

    /** Overwrites word `pos` of record `i`; the header word that fixes the size is not writable. */
    method SetWord(i: nat, pos: nat, w: u32)
      requires Valid() && i < nrTypes && pos < |recs[i]| && pos != 1
      modifies this`recs, types
      ensures Valid() && recs == old(recs)[i := Poke(old(recs)[i], pos, w)]
    {
      hide Represents;
      ghost var mem, o := types[..], offs[..];
      RepresentsAt(mem, typeLen, o, recs, i);
      RepresentsPoke(mem, typeLen, o, recs, i, pos, w);
      types[offs[i] + pos] := w;
      assert types[..] == mem[o[i] + pos := w];
      recs := recs[i := Poke(recs[i], pos, w)];
    }
  }
}

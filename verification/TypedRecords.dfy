/** BTF types as the format defines them, one constructor per kind, and the words that lay them out. */
module TypedRecords {
  import opened Words
  import opened BtfRecords

  /** Three words: name, type and offset of a member; type, offset and size in a section; name and 64-bit value. */
  datatype Trio = Trio(a: u32, b: u32, c: u32)

  /** Two words: name and value of an enum, or name and type of a parameter. */
  datatype Duo = Duo(a: u32, b: u32)

  /** A type. The third word of an array is not used; that of a forward is read as a type id by the iterator. */
  datatype BtfType =
    | Int(name: u32, size: u32, encoding: u32)
    | Ptr(name: u32, to: u32)
    | Array(name: u32, size: u32, elem: u32, index: u32, nelems: u32)
    | Struct(name: u32, kflag: bool, size: u32, members: seq<Trio>)
    | Union(name: u32, kflag: bool, size: u32, members: seq<Trio>)
    | Enum(name: u32, kflag: bool, size: u32, vals: seq<Duo>)
    | Fwd(name: u32, kflag: bool, to: u32)
    | Typedef(name: u32, to: u32)
    | Volatile(name: u32, to: u32)
    | Const(name: u32, to: u32)
    | Restrict(name: u32, to: u32)
    | Func(name: u32, to: u32)
    | FuncProto(name: u32, ret: u32, params: seq<Duo>)
    | Var(name: u32, to: u32, linkage: u32)
    | Datasec(name: u32, size: u32, sections: seq<Trio>)
    | Float(name: u32, size: u32)
    | DeclTag(name: u32, to: u32, component: u32)
    | TypeTag(name: u32, to: u32)
    | Enum64(name: u32, kflag: bool, size: u32, vals64: seq<Trio>)
  {
    /** The number of entries after the base fits the 16 bits that hold it. */
    predicate Proper() {
      Count() < 0x1_0000
    }

    /** The kind numbers of the format. */
    function Code(): nat {
      match this
      case Int(_, _, _) => 1
      case Ptr(_, _) => 2
      case Array(_, _, _, _, _) => 3
      case Struct(_, _, _, _) => 4
      case Union(_, _, _, _) => 5
      case Enum(_, _, _, _) => 6
      case Fwd(_, _, _) => 7
      case Typedef(_, _) => 8
      case Volatile(_, _) => 9
      case Const(_, _) => 10
      case Restrict(_, _) => 11
      case Func(_, _) => 12
      case FuncProto(_, _, _) => 13
      case Var(_, _, _) => 14
      case Datasec(_, _, _) => 15
      case Float(_, _) => 16
      case DeclTag(_, _, _) => 17
      case TypeTag(_, _) => 18
      case Enum64(_, _, _, _) => 19
    }

    predicate HasFlag() {
      Struct? || Union? || Enum? || Fwd? || Enum64?
    }

    predicate HasList() {
      Struct? || Union? || Enum? || FuncProto? || Datasec? || Enum64?
    }

    function Count(): nat {
      match this
      case Struct(_, _, _, ms) => |ms|
      case Union(_, _, _, ms) => |ms|
      case Enum(_, _, _, vs) => |vs|
      case FuncProto(_, _, ps) => |ps|
      case Datasec(_, _, ss) => |ss|
      case Enum64(_, _, _, vs) => |vs|
      case _ => 0
    }

    /** The third word of the base: a size or a type id. */
    function Third(): u32 {
      match this
      case Int(_, size, _) => size
      case Array(_, size, _, _, _) => size
      case Struct(_, _, size, _) => size
      case Union(_, _, size, _) => size
      case Enum(_, _, size, _) => size
      case Enum64(_, _, size, _) => size
      case Datasec(_, size, _) => size
      case Float(_, size) => size
      case FuncProto(_, ret, _) => ret
      case _ => to
    }
  }

  // ---------------------------------------------------------------------------
  // Layout

  /** The `info` word from its fields: bit 31, two spare bits, five of kind, eight spare bits, 16 of vlen. */
  function Pack(flag: int, high: int, kind: int, low: int, vlen: int): u32
    requires 0 <= flag < 2 && 0 <= high < 4 && 0 <= kind < 32 && 0 <= low < 0x100 && 0 <= vlen < 0x1_0000
  {
    flag * 0x8000_0000 + high * 0x2000_0000 + kind * 0x100_0000 + low * 0x1_0000 + vlen
  }

  lemma PackFields(flag: int, high: int, kind: int, low: int, vlen: int)
    requires 0 <= flag < 2 && 0 <= high < 4 && 0 <= kind < 32 && 0 <= low < 0x100 && 0 <= vlen < 0x1_0000
    ensures var w := Pack(flag, high, kind, low, vlen);
            && KindOf(w) == kind && VlenOf(w) == vlen && (KflagOf(w) <==> flag == 1)
            && w / 0x8000_0000 == flag && (w / 0x2000_0000) % 4 == high && (w / 0x1_0000) % 0x100 == low
  {
    var top := flag * 4 + high;
    var mid := top * 32 + kind;
    var rest := low * 0x1_0000 + vlen;
    SplitVlen(mid * 0x100 + low, vlen);
    SplitKind(mid, rest);
    SplitHigh(top, kind * 0x100_0000 + rest);
    SplitFlag(flag, high * 0x2000_0000 + kind * 0x100_0000 + rest);
  }

  lemma SplitVlen(q: nat, r: nat)
    requires r < 0x1_0000
    ensures (q * 0x1_0000 + r) / 0x1_0000 == q && (q * 0x1_0000 + r) % 0x1_0000 == r
  {
  }

  lemma SplitKind(q: nat, r: nat)
    requires r < 0x100_0000
    ensures (q * 0x100_0000 + r) / 0x100_0000 == q
  {
  }

  lemma SplitHigh(q: nat, r: nat)
    requires r < 0x2000_0000
    ensures (q * 0x2000_0000 + r) / 0x2000_0000 == q
  {
  }

  lemma SplitFlag(q: nat, r: nat)
    requires r < 0x8000_0000
    ensures (q * 0x8000_0000 + r) / 0x8000_0000 == q
  {
  }

  /** The `info` word; `unused` gives the bits that this kind of type does not use. */
  function Info(t: BtfType, unused: u32): u32
    requires t.Proper()
  {
    Pack(if t.HasFlag() then (if t.kflag then 1 else 0) else unused / 0x8000_0000,
         (unused / 0x2000_0000) % 4, t.Code(), (unused / 0x1_0000) % 0x100,
         if t.HasList() then t.Count() else unused % 0x1_0000)
  }

  lemma InfoFields(t: BtfType, unused: u32)
    requires t.Proper()
    ensures KindOf(Info(t, unused)) == t.Code()
    ensures t.HasList() ==> VlenOf(Info(t, unused)) == t.Count()
    ensures t.HasFlag() ==> (KflagOf(Info(t, unused)) <==> t.kflag)
  {
    PackFields(if t.HasFlag() then (if t.kflag then 1 else 0) else unused / 0x8000_0000,
               (unused / 0x2000_0000) % 4, t.Code(), (unused / 0x1_0000) % 0x100,
               if t.HasList() then t.Count() else unused % 0x1_0000);
  }

  /** Entries of three words, one after the other. */
  function Trios(ts: seq<Trio>): (r: seq<u32>)
    ensures |r| == 3 * |ts|
  {
    if ts == [] then []
    else
      var n := |ts| - 1;
      Trios(ts[..n]) + [ts[n].a, ts[n].b, ts[n].c]
  }

  /** Entries of two words. */
  function Duos(ts: seq<Duo>): (r: seq<u32>)
    ensures |r| == 2 * |ts|
  {
    if ts == [] then []
    else
      var n := |ts| - 1;
      Duos(ts[..n]) + [ts[n].a, ts[n].b]
  }

  lemma {:induction false} TriosAt(ts: seq<Trio>, j: nat)
    requires j < |ts|
    ensures Trios(ts)[3 * j] == ts[j].a && Trios(ts)[3 * j + 1] == ts[j].b && Trios(ts)[3 * j + 2] == ts[j].c
  {
    if j < |ts| - 1 {
      TriosAt(ts[..|ts| - 1], j);
    }
  }

  lemma {:induction false} DuosAt(ts: seq<Duo>, j: nat)
    requires j < |ts|
    ensures Duos(ts)[2 * j] == ts[j].a && Duos(ts)[2 * j + 1] == ts[j].b
  {
    if j < |ts| - 1 {
      DuosAt(ts[..|ts| - 1], j);
    }
  }

  /** The words after the base. */
  function Tail(t: BtfType): seq<u32> {
    match t
    case Int(_, _, encoding) => [encoding]
    case Array(_, _, elem, index, nelems) => [elem, index, nelems]
    case Struct(_, _, _, ms) => Trios(ms)
    case Union(_, _, _, ms) => Trios(ms)
    case Enum(_, _, _, vs) => Duos(vs)
    case FuncProto(_, _, ps) => Duos(ps)
    case Var(_, _, linkage) => [linkage]
    case Datasec(_, _, ss) => Trios(ss)
    case DeclTag(_, _, component) => [component]
    case Enum64(_, _, _, vs) => Trios(vs)
    case _ => []
  }

  /** The record of a type. */
  function Encode(t: BtfType, unused: u32): (r: Record)
    requires t.Proper()
    ensures |r| == BASE + |Tail(t)|
  {
    [t.name, Info(t, unused), t.Third()] + Tail(t)
  }

  lemma EncodeWords(t: BtfType, unused: u32)
    requires t.Proper()
    ensures var r := Encode(t, unused);
            && r[0] == t.name && r[1] == Info(t, unused) && r[2] == t.Third()
            && forall i :: BASE <= i < |r| ==> r[i] == Tail(t)[i - BASE]
  {
    hide Info, Tail, BtfType.Third;
  }

  // ---------------------------------------------------------------------------
  // Reading a record

  /** The type that a record lays out, if it is of a known kind and of the size that its header announces. */
  function Decode(r: Record): Option<BtfType> {
    if |r| < 3 then None
    else
      var k, n, f := (r[1] / 0x100_0000) % 0x20, r[1] % 0x1_0000, r[1] / 0x8000_0000 == 1;
      var name, third, size := r[0], r[2], |r| - 3;
      if k == 1 then (if size == 1 then Some(Int(name, third, r[3])) else None)
      else if k == 2 then (if size == 0 then Some(Ptr(name, third)) else None)
      else if k == 3 then (if size == 3 then Some(Array(name, third, r[3], r[4], r[5])) else None)
      else if k == 4 then (if size == 3 * n then Some(Struct(name, f, third, ToTrios(r[3..], n))) else None)
      else if k == 5 then (if size == 3 * n then Some(Union(name, f, third, ToTrios(r[3..], n))) else None)
      else if k == 6 then (if size == 2 * n then Some(Enum(name, f, third, ToDuos(r[3..], n))) else None)
      else if k == 7 then (if size == 0 then Some(Fwd(name, f, third)) else None)
      else if k == 8 then (if size == 0 then Some(Typedef(name, third)) else None)
      else if k == 9 then (if size == 0 then Some(Volatile(name, third)) else None)
      else if k == 10 then (if size == 0 then Some(Const(name, third)) else None)
      else if k == 11 then (if size == 0 then Some(Restrict(name, third)) else None)
      else if k == 12 then (if size == 0 then Some(Func(name, third)) else None)
      else if k == 13 then (if size == 2 * n then Some(FuncProto(name, third, ToDuos(r[3..], n))) else None)
      else if k == 14 then (if size == 1 then Some(Var(name, third, r[3])) else None)
      else if k == 15 then (if size == 3 * n then Some(Datasec(name, third, ToTrios(r[3..], n))) else None)
      else if k == 16 then (if size == 0 then Some(Float(name, third)) else None)
      else if k == 17 then (if size == 1 then Some(DeclTag(name, third, r[3])) else None)
      else if k == 18 then (if size == 0 then Some(TypeTag(name, third)) else None)
      else if k == 19 then (if size == 3 * n then Some(Enum64(name, f, third, ToTrios(r[3..], n))) else None)
      else None
  }

  function ToTrios(w: seq<u32>, n: nat): seq<Trio>
    requires |w| == 3 * n
  {
    seq(n, j requires 0 <= j < n => Trio(w[3 * j], w[3 * j + 1], w[3 * j + 2]))
  }

  function ToDuos(w: seq<u32>, n: nat): seq<Duo>
    requires |w| == 2 * n
  {
    seq(n, j requires 0 <= j < n => Duo(w[2 * j], w[2 * j + 1]))
  }

  lemma {:induction false} TriosOf(w: seq<u32>, n: nat)
    requires |w| == 3 * n
    ensures Trios(ToTrios(w, n)) == w
  {
    if n > 0 {
      TriosOf(w[..3 * (n - 1)], n - 1);
      assert ToTrios(w, n)[..n - 1] == ToTrios(w[..3 * (n - 1)], n - 1);
    }
  }

  lemma {:induction false} DuosOf(w: seq<u32>, n: nat)
    requires |w| == 2 * n
    ensures Duos(ToDuos(w, n)) == w
  {
    if n > 0 {
      DuosOf(w[..2 * (n - 1)], n - 1);
      assert ToDuos(w, n)[..n - 1] == ToDuos(w[..2 * (n - 1)], n - 1);
    }
  }

  lemma TriosBack(ts: seq<Trio>)
    ensures ToTrios(Trios(ts), |ts|) == ts
  {
    hide Trios;
    forall j | 0 <= j < |ts|
      ensures ToTrios(Trios(ts), |ts|)[j] == ts[j]
    {
      TriosAt(ts, j);
    }
  }

  lemma DuosBack(ts: seq<Duo>)
    ensures ToDuos(Duos(ts), |ts|) == ts
  {
    hide Duos;
    forall j | 0 <= j < |ts|
      ensures ToDuos(Duos(ts), |ts|)[j] == ts[j]
    {
      DuosAt(ts, j);
    }
  }

  lemma TailSize(t: BtfType)
    ensures |Tail(t)| == if t.Int? || t.Var? || t.DeclTag? then 1
                         else if t.Array? then 3
                         else if t.Enum? || t.FuncProto? then 2 * t.Count()
                         else if t.HasList() then 3 * t.Count()
                         else 0
  {
  }

  /** What the size table says: the record of a type has exactly the size its own header announces. */
  lemma EncodeSized(t: BtfType, unused: u32)
    requires t.Proper()
    ensures WellSized(Encode(t, unused)) && TrailingWords(Info(t, unused)) == Some(|Tail(t)|)
  {
    EncodeWords(t, unused);
    InfoFields(t, unused);
    hide Encode, Info, Tail, KindOf, VlenOf, TrailingWords, BtfType.Third;
    TrailingIs(t, Info(t, unused));
  }

  lemma TrailingIs(t: BtfType, info: u32)
    requires KindOf(info) == t.Code() && (t.HasList() ==> VlenOf(info) == t.Count())
    ensures TrailingWords(info) == Some(|Tail(t)|)
  {
    hide KindOf, VlenOf, Trios, Duos;
    if t.HasList() {
      TailSize(t);
      hide Tail;
    }
  }

  /** Reading back what was laid out gives the type, whatever is in the bits that it does not use. */
  lemma DecodeEncode(t: BtfType, unused: u32)
    requires t.Proper()
    ensures Decode(Encode(t, unused)) == Some(t)
  {
    EncodeWords(t, unused);
    EncodeTail(t, unused);
    InfoFields(t, unused);
    hide Info, Encode;
    if t.HasList() {
      DecodeList(t, Encode(t, unused));
    } else {
      DecodeFixed(t, Encode(t, unused));
    }
  }

  ghost predicate LaysOut(r: Record, t: BtfType) {
    && |r| == BASE + |Tail(t)| && r[0] == t.name && r[2] == t.Third() && r[3..] == Tail(t)
    && KindOf(r[1]) == t.Code() && (t.HasList() ==> VlenOf(r[1]) == t.Count())
    && (t.HasFlag() ==> (KflagOf(r[1]) <==> t.kflag))
  }

  lemma DecodeFixed(t: BtfType, r: Record)
    requires !t.HasList() && LaysOut(r, t)
    ensures Decode(r) == Some(t)
  {
    assert forall i :: 0 <= i < |r| - 3 ==> r[3..][i] == r[3 + i];
  }

  lemma DecodeList(t: BtfType, r: Record)
    requires t.HasList() && LaysOut(r, t)
    ensures Decode(r) == Some(t)
  {
    hide Trios, Duos, ToTrios, ToDuos;
    match t
    case Struct(_, _, _, ms) => TriosBack(ms);
    case Union(_, _, _, ms) => TriosBack(ms);
    case Enum(_, _, _, vs) => DuosBack(vs);
    case FuncProto(_, _, ps) => DuosBack(ps);
    case Datasec(_, _, ss) => TriosBack(ss);
    case Enum64(_, _, _, vs) => TriosBack(vs);
  }

  lemma EncodeTail(t: BtfType, unused: u32)
    requires t.Proper()
    ensures Encode(t, unused)[3..] == Tail(t)
  {
    hide Info, Tail, BtfType.Third;
  }

  /** A well-sized record is the layout of a type, and nothing else is. */
  lemma EncodeDecode(r: Record)
    ensures WellSized(r) <==> Decode(r).Some?
    ensures Decode(r).Some? ==> Decode(r).value.Proper() && Encode(Decode(r).value, r[1]) == r
  {
    SizedIsTyped(r);
    hide WellSized, Decode, Tail, Info, BtfType.Third;
    if Decode(r).Some? {
      DecodeHeader(r);
      DecodeTail(r);
      assert r == [r[0], r[1], r[2]] + r[3..];
    }
  }

  /** `r` is the record of some type. */
  ghost predicate Typed(r: Record) {
    exists t: BtfType, unused: u32 :: t.Proper() && r == Encode(t, unused)
  }

  /** The records of known kind and right size are exactly the layouts of types. */
  lemma TypedIsSized(r: Record)
    ensures Typed(r) <==> WellSized(r)
  {
    EncodeDecode(r);
    hide WellSized, Decode, Encode;
    if WellSized(r) {
      assert r == Encode(Decode(r).value, r[1]);
    }
    if Typed(r) {
      var t: BtfType, unused: u32 :| t.Proper() && r == Encode(t, unused);
      EncodeSized(t, unused);
    }
  }

  lemma SizedIsTyped(r: Record)
    ensures WellSized(r) <==> Decode(r).Some?
  {
  }

  lemma DecodeHeader(r: Record)
    requires Decode(r).Some?
    ensures Decode(r).value.Proper() && Info(Decode(r).value, r[1]) == r[1]
    ensures Decode(r).value.name == r[0] && Decode(r).value.Third() == r[2]
  {
    var t := Decode(r).value;
    DecodeFields(r);
    hide Decode, BtfType.Third;
    PackAgain(r[1]);
  }

  lemma PackAgain(w: u32)
    ensures w == Pack(w / 0x8000_0000, (w / 0x2000_0000) % 4, (w / 0x100_0000) % 0x20, (w / 0x1_0000) % 0x100,
                      w % 0x1_0000)
  {
    assert w / 0x100_0000 == w / 0x1_0000 / 0x100 && w / 0x2000_0000 == w / 0x100_0000 / 0x20;
    assert w / 0x8000_0000 == w / 0x2000_0000 / 4;
  }

  lemma DecodeFields(r: Record)
    requires Decode(r).Some?
    ensures |r| >= 3 && Decode(r).value.Code() == (r[1] / 0x100_0000) % 0x20
    ensures Decode(r).value.HasList() ==> Decode(r).value.Count() == r[1] % 0x1_0000
    ensures Decode(r).value.Proper()
    ensures Decode(r).value.HasFlag() ==> (Decode(r).value.kflag <==> r[1] / 0x8000_0000 == 1)
    ensures Decode(r).value.name == r[0] && Decode(r).value.Third() == r[2]
  {
  }

  lemma DecodeTail(r: Record)
    requires Decode(r).Some?
    ensures |r| >= 3 && Tail(Decode(r).value) == r[3..]
  {
    hide Trios, Duos, ToTrios, ToDuos;
    var k, w, n := Decode(r).value.Code(), r[3..], r[1] % 0x1_0000;
    if k == 4 || k == 5 || k == 15 || k == 19 {
      TriosOf(w, n);
    } else if k == 6 || k == 13 {
      DuosOf(w, n);
    }
  }

  // ---------------------------------------------------------------------------
  // Type ids

  /** The words that hold type ids, in ascending order. */
  function RefWords(t: BtfType): seq<nat> {
    match t
    case Int(_, _, _) => []
    case Float(_, _) => []
    case Enum(_, _, _, _) => []
    case Enum64(_, _, _, _) => []
    case Array(_, _, _, _, _) => [3, 4]
    case Struct(_, _, _, ms) => Every(4, 3, |ms|)
    case Union(_, _, _, ms) => Every(4, 3, |ms|)
    case FuncProto(_, _, ps) => [2] + Every(4, 2, |ps|)
    case Datasec(_, _, ss) => Every(3, 3, |ss|)
    case _ => [2]
  }

  /** `n` numbers from `first` on, `step` apart. */
  function Every(first: nat, step: nat, n: nat): (r: seq<nat>)
    requires step == 2 || step == 3
    ensures |r| == n
  {
    seq(n, j requires 0 <= j < n => first + if step == 2 then 2 * j else 3 * j)
  }

  /** The type ids of a type. */
  function Ids(t: BtfType): (r: seq<u32>)
    ensures |r| == |RefWords(t)|
  {
    match t
    case Int(_, _, _) => []
    case Float(_, _) => []
    case Enum(_, _, _, _) => []
    case Enum64(_, _, _, _) => []
    case Array(_, _, elem, index, _) => [elem, index]
    case Struct(_, _, _, ms) => seq(|ms|, j requires 0 <= j < |ms| => ms[j].b)
    case Union(_, _, _, ms) => seq(|ms|, j requires 0 <= j < |ms| => ms[j].b)
    case FuncProto(_, ret, ps) => [ret] + seq(|ps|, j requires 0 <= j < |ps| => ps[j].b)
    case Datasec(_, _, ss) => seq(|ss|, j requires 0 <= j < |ss| => ss[j].a)
    case _ => [t.to]
  }

  /** The type with each type id `i` replaced by `f(i)`. */
  function MapIds(t: BtfType, f: u32 -> u32): BtfType {
    match t
    case Int(_, _, _) => t
    case Float(_, _) => t
    case Enum(_, _, _, _) => t
    case Enum64(_, _, _, _) => t
    case Ptr(name, to) => Ptr(name, f(to))
    case Array(name, size, elem, index, n) => Array(name, size, f(elem), f(index), n)
    case Struct(name, kflag, size, ms) => Struct(name, kflag, size, MapMembers(ms, f))
    case Union(name, kflag, size, ms) => Union(name, kflag, size, MapMembers(ms, f))
    case Fwd(name, kflag, to) => Fwd(name, kflag, f(to))
    case Typedef(name, to) => Typedef(name, f(to))
    case Volatile(name, to) => Volatile(name, f(to))
    case Const(name, to) => Const(name, f(to))
    case Restrict(name, to) => Restrict(name, f(to))
    case Func(name, to) => Func(name, f(to))
    case FuncProto(name, ret, ps) => FuncProto(name, f(ret), MapParams(ps, f))
    case Var(name, to, linkage) => Var(name, f(to), linkage)
    case Datasec(name, size, ss) => Datasec(name, size, MapSections(ss, f))
    case DeclTag(name, to, component) => DeclTag(name, f(to), component)
    case TypeTag(name, to) => TypeTag(name, f(to))
  }

  function MapMembers(ms: seq<Trio>, f: u32 -> u32): (r: seq<Trio>)
    ensures |r| == |ms|
  {
    seq(|ms|, j requires 0 <= j < |ms| => Trio(ms[j].a, f(ms[j].b), ms[j].c))
  }

  function MapParams(ps: seq<Duo>, f: u32 -> u32): (r: seq<Duo>)
    ensures |r| == |ps|
  {
    seq(|ps|, j requires 0 <= j < |ps| => Duo(ps[j].a, f(ps[j].b)))
  }

  function MapSections(ss: seq<Trio>, f: u32 -> u32): (r: seq<Trio>)
    ensures |r| == |ss|
  {
    seq(|ss|, j requires 0 <= j < |ss| => Trio(f(ss[j].a), ss[j].b, ss[j].c))
  }

  /** The words that count as references are those of the type's ids, in ascending order. */
  lemma RefsAreIds(t: BtfType, unused: u32)
    requires t.Proper()
    ensures forall i: int :: IsRef(Info(t, unused), i) <==> i in RefWords(t)
    ensures forall j, k :: 0 <= j < k < |RefWords(t)| ==> RefWords(t)[j] < RefWords(t)[k]
    ensures forall k :: 0 <= k < |RefWords(t)| ==>
              RefWords(t)[k] < |Encode(t, unused)| && Encode(t, unused)[RefWords(t)[k]] == Ids(t)[k]
  {
    InfoFields(t, unused);
    RefWordsAre(t, Info(t, unused));
    RefWordsAscend(t);
    EncodeWords(t, unused);
    hide Info, Encode, RefWords, Ids, Tail;
    forall k | 0 <= k < |RefWords(t)|
      ensures RefWords(t)[k] < |Encode(t, unused)| && Encode(t, unused)[RefWords(t)[k]] == Ids(t)[k]
    {
      IdAt(t, k);
    }
  }

  lemma IdAt(t: BtfType, k: nat)
    requires k < |RefWords(t)|
    ensures var i := RefWords(t)[k];
            if i == 2 then t.Third() == Ids(t)[k] else BASE <= i < BASE + |Tail(t)| && Tail(t)[i - BASE] == Ids(t)[k]
  {
    if t.HasList() {
      ListIdAt(t, k);
    } else {
      FixedIdAt(t, k);
    }
  }

  lemma FixedIdAt(t: BtfType, k: nat)
    requires !t.HasList() && k < |RefWords(t)|
    ensures var i := RefWords(t)[k];
            if i == 2 then t.Third() == Ids(t)[k] else BASE <= i < BASE + |Tail(t)| && Tail(t)[i - BASE] == Ids(t)[k]
  {
  }

  lemma ListIdAt(t: BtfType, k: nat)
    requires t.HasList() && k < |RefWords(t)|
    ensures var i := RefWords(t)[k];
            if i == 2 then t.Third() == Ids(t)[k] else BASE <= i < BASE + |Tail(t)| && Tail(t)[i - BASE] == Ids(t)[k]
  {
    hide Trios, Duos;
    if t.FuncProto? {
      ProtoIdAt(t, k);
    } else if t.Struct? || t.Union? {
      TriosAt(t.members, k);
    } else if t.Datasec? {
      TriosAt(t.sections, k);
    }
  }

  lemma ProtoIdAt(t: BtfType, k: nat)
    requires t.FuncProto? && k < |RefWords(t)|
    ensures var i := RefWords(t)[k];
            if i == 2 then t.Third() == Ids(t)[k] else BASE <= i < BASE + |Tail(t)| && Tail(t)[i - BASE] == Ids(t)[k]
  {
    ProtoRef(t, 0);
    hide RefWords, Ids, Duos, Tail;
    if k > 0 {
      ParamIdAt(t, k - 1);
    }
  }

  lemma ParamIdAt(t: BtfType, j: nat)
    requires t.FuncProto? && j < |t.params|
    ensures j + 1 < |RefWords(t)| && RefWords(t)[j + 1] == 4 + 2 * j
    ensures 2 * j + 1 < |Tail(t)| && Tail(t)[2 * j + 1] == Ids(t)[j + 1]
  {
    ProtoRef(t, j);
    ProtoTail(t);
    hide RefWords, Ids, Duos, Tail;
    DuosAt(t.params, j);
  }

  lemma ProtoTail(t: BtfType)
    requires t.FuncProto?
    ensures Tail(t) == Duos(t.params)
  {
    hide Duos;
  }

  /** The ids of a function type: what it returns, and its parameters. */
  lemma ProtoRef(t: BtfType, j: nat)
    requires t.FuncProto?
    ensures |RefWords(t)| == |Ids(t)| == |t.params| + 1 && RefWords(t)[0] == 2 && Ids(t)[0] == t.ret == t.Third()
    ensures j < |t.params| ==> RefWords(t)[j + 1] == 4 + 2 * j && Ids(t)[j + 1] == t.params[j].b
  {
  }

  /** Kind and number of entries decide where the ids are. */
  lemma RefWordsByHeader(a: BtfType, b: BtfType)
    requires a.Code() == b.Code() && a.Count() == b.Count()
    ensures RefWords(a) == RefWords(b) && |Tail(a)| == |Tail(b)|
  {
    hide Trios, Duos, Every;
    TailSize(a);
    TailSize(b);
  }

  lemma RefWordsAscend(t: BtfType)
    ensures forall j, k :: 0 <= j < k < |RefWords(t)| ==> RefWords(t)[j] < RefWords(t)[k]
  {
  }

  lemma RefWordsAre(t: BtfType, info: u32)
    requires KindOf(info) == t.Code() && (t.HasList() ==> VlenOf(info) == t.Count())
    ensures forall i: int :: IsRef(info, i) <==> i in RefWords(t)
  {
    hide KindOf, VlenOf, RefWords, IsRef;
    forall i: int
      ensures IsRef(info, i) <==> i in RefWords(t)
    {
      RefWordIs(t, info, i);
    }
  }

  lemma RefWordIs(t: BtfType, info: u32, i: int)
    requires KindOf(info) == t.Code() && (t.HasList() ==> VlenOf(info) == t.Count())
    ensures IsRef(info, i) <==> i in RefWords(t)
  {
    hide KindOf, VlenOf, Every;
    EveryThird(4, t.Count(), i);
    EveryThird(3, t.Count(), i);
    EverySecond(4, t.Count(), i);
  }

  lemma EveryThird(first: nat, n: nat, i: int)
    requires first == 3 || first == 4
    ensures i in Every(first, 3, n) <==> 3 <= i < 3 + 3 * n && (i - 3) % 3 == first - 3
  {
    if 3 <= i < 3 + 3 * n && (i - 3) % 3 == first - 3 {
      assert Every(first, 3, n)[(i - 3) / 3] == i;
    }
  }

  lemma EverySecond(first: nat, n: nat, i: int)
    requires first == 4
    ensures i in Every(first, 2, n) <==> 3 <= i < 3 + 2 * n && (i - 3) % 2 == 1
  {
    if 3 <= i < 3 + 2 * n && (i - 3) % 2 == 1 {
      assert Every(first, 2, n)[(i - 3) / 2] == i;
    }
  }

  // ---------------------------------------------------------------------------
  // Renaming

  /** Every type id of a type is below `n`. */
  ghost predicate IdsBelow(t: BtfType, n: nat) {
    forall k :: 0 <= k < |Ids(t)| ==> Ids(t)[k] < n
  }

  /** The renaming that a map of ids stands for. */
  function Renaming(m: seq<u32>): u32 -> u32 {
    (i: u32) => if i < |m| then m[i] else i
  }

  lemma BelowIsTyped(t: BtfType, unused: u32, n: nat)
    requires t.Proper()
    ensures RefsBelow(Encode(t, unused), n) <==> IdsBelow(t, n)
  {
    RefsAreIds(t, unused);
    EncodeWords(t, unused);
    hide Encode, Info, Ids, RefWords, IsRef;
  }

  /** Mapping the ids leaves everything else of the type as it was. */
  lemma MapIdsKeeps(t: BtfType, f: u32 -> u32)
    ensures var t' := MapIds(t, f);
            && t'.Code() == t.Code() && t'.Count() == t.Count() && (t'.HasList() <==> t.HasList())
            && (t'.HasFlag() <==> t.HasFlag()) && (t.HasFlag() ==> t'.kflag == t.kflag)
            && t'.name == t.name && RefWords(t') == RefWords(t) && |Tail(t')| == |Tail(t)|
  {
  }

  lemma MapIdsMaps(t: BtfType, f: u32 -> u32)
    ensures |Ids(MapIds(t, f))| == |Ids(t)|
    ensures forall k :: 0 <= k < |Ids(t)| ==> Ids(MapIds(t, f))[k] == f(Ids(t)[k])
  {
    MapIdsKeeps(t, f);
    hide RefWords, Tail, Ids, MapIds;
    forall k | 0 <= k < |Ids(t)|
      ensures Ids(MapIds(t, f))[k] == f(Ids(t)[k])
    {
      IdMapped(t, f, k);
    }
  }

  lemma IdMapped(t: BtfType, f: u32 -> u32, k: nat)
    requires k < |Ids(t)|
    ensures k < |Ids(MapIds(t, f))| && Ids(MapIds(t, f))[k] == f(Ids(t)[k])
  {
    hide RefWords, Tail;
    if t.FuncProto? {
      ProtoIdMapped(t, f, k);
    }
  }

  lemma ProtoIdMapped(t: BtfType, f: u32 -> u32, k: nat)
    requires t.FuncProto? && k < |Ids(t)|
    ensures k < |Ids(MapIds(t, f))| && Ids(MapIds(t, f))[k] == f(Ids(t)[k])
  {
    var t' := FuncProto(t.name, f(t.ret), MapParams(t.params, f));
    assert MapIds(t, f) == t';
    hide MapIds, Ids, RefWords, Tail;
    if k == 0 {
      ProtoRef(t, 0);
      ProtoRef(t', 0);
    } else {
      ProtoRef(t, k - 1);
      ProtoRef(t', k - 1);
      MappedParam(t.params, f, k - 1);
    }
  }

  lemma MappedParam(ps: seq<Duo>, f: u32 -> u32, j: nat)
    requires j < |ps|
    ensures MapParams(ps, f)[j].b == f(ps[j].b)
  {
  }

  lemma MapIdsThird(t: BtfType, f: u32 -> u32)
    requires 2 !in RefWords(t)
    ensures MapIds(t, f).Third() == t.Third()
  {
  }

  lemma MapMembersWords(ms: seq<Trio>, f: u32 -> u32, j: nat)
    requires j < |ms|
    ensures Trios(MapMembers(ms, f))[3 * j] == Trios(ms)[3 * j]
    ensures Trios(MapMembers(ms, f))[3 * j + 2] == Trios(ms)[3 * j + 2]
  {
    hide Trios;
    TriosAt(ms, j);
    TriosAt(MapMembers(ms, f), j);
  }

  lemma MapSectionsWords(ss: seq<Trio>, f: u32 -> u32, j: nat)
    requires j < |ss|
    ensures Trios(MapSections(ss, f))[3 * j + 1] == Trios(ss)[3 * j + 1]
    ensures Trios(MapSections(ss, f))[3 * j + 2] == Trios(ss)[3 * j + 2]
  {
    hide Trios;
    TriosAt(ss, j);
    TriosAt(MapSections(ss, f), j);
  }

  lemma MapParamsWords(ps: seq<Duo>, f: u32 -> u32, j: nat)
    requires j < |ps|
    ensures Duos(MapParams(ps, f))[2 * j] == Duos(ps)[2 * j]
  {
    hide Duos;
    DuosAt(ps, j);
    DuosAt(MapParams(ps, f), j);
  }

  /** A word after the base that holds no id. */
  lemma UnnamedTail(t: BtfType, i: nat)
    requires i < |Tail(t)| && BASE + i !in RefWords(t)
    ensures t.Struct? || t.Union? ==> i % 3 != 1
    ensures t.Datasec? ==> i % 3 != 0
    ensures t.FuncProto? ==> i % 2 != 1
    ensures t.Array? ==> i == 2
  {
    hide Trios, Duos, Every;
    if t.Struct? || t.Union? {
      EveryThird(4, |t.members|, BASE + i);
    } else if t.Datasec? {
      EveryThird(3, |t.sections|, BASE + i);
    } else if t.FuncProto? {
      NotInTail(BASE + i, Every(4, 2, |t.params|));
      EverySecond(4, |t.params|, BASE + i);
    }
  }

  lemma NotInTail(x: nat, s: seq<nat>)
    requires x !in [2] + s
    ensures x !in s
  {
  }

  lemma MapIdsTail(t: BtfType, f: u32 -> u32, i: nat)
    requires i < |Tail(t)| && BASE + i !in RefWords(t)
    ensures |Tail(MapIds(t, f))| == |Tail(t)| && Tail(MapIds(t, f))[i] == Tail(t)[i]
  {
    UnnamedTail(t, i);
    hide Trios, Duos, MapMembers, MapSections, MapParams, Every, RefWords;
    if t.Struct? || t.Union? {
      MapMembersWord(t.members, f, i);
    } else if t.Datasec? {
      MapSectionsWord(t.sections, f, i);
    } else if t.FuncProto? {
      MapParamsWord(t.params, f, i);
    }
  }

  lemma MapMembersWord(ms: seq<Trio>, f: u32 -> u32, i: nat)
    requires i < 3 * |ms| && i % 3 != 1
    ensures Trios(MapMembers(ms, f))[i] == Trios(ms)[i]
  {
    hide Trios, MapMembers;
    MapMembersWords(ms, f, i / 3);
    if i % 3 == 0 {
      assert i == 3 * (i / 3);
    } else {
      assert i == 3 * (i / 3) + 2;
    }
  }

  lemma MapSectionsWord(ss: seq<Trio>, f: u32 -> u32, i: nat)
    requires i < 3 * |ss| && i % 3 != 0
    ensures Trios(MapSections(ss, f))[i] == Trios(ss)[i]
  {
    hide Trios, MapSections;
    MapSectionsWords(ss, f, i / 3);
    if i % 3 == 1 {
      assert i == 3 * (i / 3) + 1;
    } else {
      assert i == 3 * (i / 3) + 2;
    }
  }

  lemma MapParamsWord(ps: seq<Duo>, f: u32 -> u32, i: nat)
    requires i < 2 * |ps| && i % 2 != 1
    ensures Duos(MapParams(ps, f))[i] == Duos(ps)[i]
  {
    hide Duos, MapParams;
    MapParamsWords(ps, f, i / 2);
    assert i == 2 * (i / 2);
  }

  /** Renaming the words of a record is renaming the ids of its type, for every kind. */
  lemma RenameIsTyped(t: BtfType, unused: u32, m: seq<u32>)
    requires t.Proper() && IdsBelow(t, |m|)
    ensures MapIds(t, Renaming(m)).Proper() && RefsBelow(Encode(t, unused), |m|)
    ensures Rename(Encode(t, unused), m) == Encode(MapIds(t, Renaming(m)), unused)
  {
    var f := Renaming(m);
    var t' := MapIds(t, f);
    MapIdsKeeps(t, f);
    BelowIsTyped(t, unused, |m|);
    EncodeWords(t, unused);
    EncodeWords(t', unused);
    SameInfo(t, t', unused);
    RefsAreIds(t, unused);
    hide Encode, Ids, MapIds, Tail, IsRef, RefWords, Info;
    var r, r' := Encode(t, unused), Encode(t', unused);
    forall i | 0 <= i < |r|
      ensures Rename(r, m)[i] == r'[i]
    {
      if i in RefWords(t) {
        RenamedId(t, unused, m, i);
      } else if i >= 2 {
        UnnamedWord(t, unused, f, i);
      }
    }
  }

  lemma SameInfo(t: BtfType, t': BtfType, unused: u32)
    requires t.Proper() && t'.Code() == t.Code() && t'.Count() == t.Count() && (t'.HasList() <==> t.HasList())
    requires (t'.HasFlag() <==> t.HasFlag()) && (t.HasFlag() ==> t'.kflag == t.kflag)
    ensures t'.Proper() && Info(t', unused) == Info(t, unused)
  {
    hide BtfType.Code, BtfType.Count;
  }

  lemma RenamedId(t: BtfType, unused: u32, m: seq<u32>, i: nat)
    requires t.Proper() && IdsBelow(t, |m|) && i in RefWords(t)
    requires MapIds(t, Renaming(m)).Proper()
    ensures i < |Encode(t, unused)| && i < |Encode(MapIds(t, Renaming(m)), unused)|
    ensures Encode(t, unused)[i] < |m| && Encode(MapIds(t, Renaming(m)), unused)[i] == m[Encode(t, unused)[i]]
  {
    var f := Renaming(m);
    var t' := MapIds(t, f);
    MapIdsKeeps(t, f);
    MapIdsMaps(t, f);
    RefsAreIds(t, unused);
    RefsAreIds(t', unused);
    hide Encode, Ids, MapIds, IsRef, RefWords, Info;
    var k :| 0 <= k < |RefWords(t)| && RefWords(t)[k] == i;
    assert Encode(t', unused)[RefWords(t')[k]] == Ids(t')[k];
  }

  lemma UnnamedWord(t: BtfType, unused: u32, f: u32 -> u32, i: nat)
    requires t.Proper() && MapIds(t, f).Proper() && i !in RefWords(t) && 2 <= i < |Encode(t, unused)|
    ensures i < |Encode(MapIds(t, f), unused)| && Encode(MapIds(t, f), unused)[i] == Encode(t, unused)[i]
  {
    hide MapIds, Tail, RefWords, Info, BtfType.Third;
    if i == 2 {
      MapIdsThird(t, f);
    } else {
      TailWord(t, f, i - BASE);
      TailAt(t, unused, i);
      TailAt(MapIds(t, f), unused, i);
    }
  }

  lemma TailAt(t: BtfType, unused: u32, i: nat)
    requires t.Proper() && BASE <= i
    ensures i < |Encode(t, unused)| <==> i - BASE < |Tail(t)|
    ensures i < |Encode(t, unused)| ==> Encode(t, unused)[i] == Tail(t)[i - BASE]
  {
    hide Tail, Info, BtfType.Third;
  }

  /** The words of a parameter. */
  lemma EncodedParam(t: BtfType, unused: u32, j: nat)
    requires t.Proper() && t.FuncProto? && j < |t.params|
    ensures |Encode(t, unused)| == 3 + 2 * |t.params|
    ensures Encode(t, unused)[3 + 2 * j] == t.params[j].a && Encode(t, unused)[4 + 2 * j] == t.params[j].b
  {
    ProtoTail(t);
    TailAt(t, unused, 3 + 2 * j);
    TailAt(t, unused, 4 + 2 * j);
    hide Encode, Info, Tail, Duos;
    DuosAt(t.params, j);
  }

  lemma TailWord(t: BtfType, f: u32 -> u32, i: nat)
    requires BASE + i !in RefWords(t)
    ensures |Tail(MapIds(t, f))| == |Tail(t)| && (i < |Tail(t)| ==> Tail(MapIds(t, f))[i] == Tail(t)[i])
  {
    MapIdsKeeps(t, f);
    hide Tail, MapIds, RefWords;
    if i < |Tail(t)| {
      MapIdsTail(t, f, i);
    }
  }

  // ---------------------------------------------------------------------------
  // The iterator

  /** Where the iterator stands after `k` calls. */
  function SeenAfter(t: BtfType, k: nat): nat
    requires k <= |RefWords(t)|
  {
    if k == 0 then 0 else RefWords(t)[k - 1] + 1
  }

  /** Call after call the iterator returns the words of the type's ids, each once and in order, and then nothing. */
  lemma IteratorYieldsIds(t: BtfType, unused: u32, k: nat, r: Option<nat>)
    requires t.Proper() && k <= |RefWords(t)|
    ensures Awaits(Info(t, unused), SeenAfter(t, k), r) <==>
              r == if k < |RefWords(t)| then Some(RefWords(t)[k]) else None
  {
    RefsAreIds(t, unused);
    hide Encode, Info, Ids, RefWords, IsRef;
    AwaitsListed(Info(t, unused), RefWords(t), k, r);
  }

  lemma AwaitsListed(info: u32, w: seq<nat>, k: nat, r: Option<nat>)
    requires (forall i: int :: IsRef(info, i) <==> i in w) && k <= |w|
    requires forall i, j :: 0 <= i < j < |w| ==> w[i] < w[j]
    ensures Awaits(info, if k == 0 then 0 else w[k - 1] + 1, r) <==> r == if k < |w| then Some(w[k]) else None
  {
    hide IsRef;
    var done := if k == 0 then 0 else w[k - 1] + 1;
    forall i: int | IsRef(info, i)
      ensures i < done || (k < |w| && w[k] <= i)
    {
      var j :| 0 <= j < |w| && w[j] == i;
    }
    if k < |w| {
      assert w[k] in w;
    }
  }
}

/** C declarations: their meaning, how they are printed, and how they are parsed. */
module DeclSpec {
  import opened Words

  datatype Qualifier = Const | Volatile | Restrict

  /** A type specifier: void, a plain type name, or a tag with its keyword. */
  datatype TypeSpec = Void | Plain(name: string) | Tagged(keyword: string, name: string)

  /** A C type. Qualifiers are listed from the innermost one outwards. */
  datatype CType =
    | Base(quals: seq<Qualifier>, spec: TypeSpec)
    | Ptr(quals: seq<Qualifier>, target: CType)
    | Arr(n: nat, elem: CType)
    | Fn(ret: CType, params: seq<CParam>, variadic: bool)

  datatype CParam = CParam(name: string, t: CType)

  /** Declarators by section 6.7.6 of ISO/IEC 9899:2011; an abstract declarator has the empty name. */
  datatype Declr =
    | Name(name: string)
    | PtrD(quals: seq<Qualifier>, d: Declr)
    | ArrD(d: Declr, n: nat)
    | FnD(d: Declr, params: seq<Decl>, variadic: bool)

  /** Specifiers and a declarator. */
  datatype Decl = Decl(quals: seq<Qualifier>, spec: TypeSpec, d: Declr)

  /** Tokens of a declaration, and the blanks between them. */
  datatype Tok =
    | Spec(spec: TypeSpec) | Qual(q: Qualifier) | Ident(name: string) | Num(n: nat)
    | Star | LParen | RParen | LBracket | RBracket | Comma | Ellipsis | Space

  function NameOf(d: Declr): string {
    match d
    case Name(n) => n
    case PtrD(_, e) => NameOf(e)
    case ArrD(e, _) => NameOf(e)
    case FnD(e, _, _) => NameOf(e)
  }

  // ---------------------------------------------------------------------------
  // Meaning

  /** The type that declarator `d` gives its name, if its specifiers mean `t`. */
  function Meaning(d: Declr, t: CType): CType
    decreases d, 0
  {
    match d
    case Name(_) => t
    case PtrD(qs, e) => Meaning(e, Ptr(qs, t))
    case ArrD(e, n) => Meaning(e, Arr(n, t))
    case FnD(e, ps, v) => Meaning(e, Fn(t, seq(|ps|, i requires 0 <= i < |ps| => Declares(ps[i])), v))
  }

  /** The name and type that a declaration declares. */
  function Declares(c: Decl): CParam
    decreases c, 1
  {
    CParam(NameOf(c.d), Meaning(c.d, Base(c.quals, c.spec)))
  }

  /** The declaration whose declarator derives `t` further as `d` says. */
  function ToDecl(t: CType, d: Declr): Decl
    decreases t
  {
    match t
    case Base(qs, s) => Decl(qs, s, d)
    case Ptr(qs, u) => ToDecl(u, PtrD(qs, d))
    case Arr(n, u) => ToDecl(u, ArrD(d, n))
    case Fn(r, ps, v) =>
      ToDecl(r, FnD(d, seq(|ps|, i requires 0 <= i < |ps| => ToDecl(ps[i].t, Name(ps[i].name))), v))
  }

  /** Writing a type down as a declaration keeps its meaning. */
  lemma {:induction false} ToDeclMeans(t: CType, d: Declr)
    ensures Declares(ToDecl(t, d)) == CParam(NameOf(d), Meaning(d, t))
    decreases t
  {
    match t
    case Base(_, _) =>
    case Ptr(qs, u) => ToDeclMeans(u, PtrD(qs, d));
    case Arr(n, u) => ToDeclMeans(u, ArrD(d, n));
    case Fn(r, ps, v) =>
      var ds := seq(|ps|, i requires 0 <= i < |ps| => ToDecl(ps[i].t, Name(ps[i].name)));
      forall i | 0 <= i < |ps|
        ensures Declares(ds[i]) == ps[i]
      {
        ToDeclMeans(ps[i].t, Name(ps[i].name));
      }
      assert seq(|ds|, i requires 0 <= i < |ds| => Declares(ds[i])) == ps;
      ToDeclMeans(r, FnD(d, ds, v));
  }

  // ---------------------------------------------------------------------------
  // Parsing, by the grammar of section 6.7.6; blanks have been removed

  datatype Parsed<T> = Failure | Success(value: T, rest: seq<Tok>)

  /** Qualifiers, as far as they go. */
  function ParseQuals(s: seq<Tok>): (r: (seq<Qualifier>, seq<Tok>))
    ensures |r.1| <= |s|
  {
    if s != [] && s[0].Qual? then
      var (qs, rest) := ParseQuals(s[1..]);
      ([s[0].q] + qs, rest)
    else ([], s)
  }

  /** What follows an opening parenthesis is a declarator, and not a parameter list. */
  predicate StartsDeclr(s: seq<Tok>) {
    s != [] && (s[0].Star? || s[0].LParen? || s[0].LBracket? || s[0].Ident?)
  }

  /** declarator: pointer(opt) direct-declarator, or its abstract form */
  function ParseDeclr(s: seq<Tok>): (r: Parsed<Declr>)
    ensures r.Success? ==> |r.rest| <= |s|
    decreases |s|, 3
  {
    if s != [] && s[0].Star? then
      var (qs, rest) := ParseQuals(s[1..]);
      match ParseDeclr(rest)
      case Failure => Failure
      case Success(d, rest') => Success(PtrD(qs, d), rest')
    else ParseDirect(s)
  }

  /** An identifier, a declarator in parentheses, or nothing; then suffixes. */
  function ParseDirect(s: seq<Tok>): (r: Parsed<Declr>)
    ensures r.Success? ==> |r.rest| <= |s|
    decreases |s|, 2
  {
    if s != [] && s[0].Ident? then ParseSuffixes(Name(s[0].name), s[1..])
    else if s != [] && s[0].LParen? && StartsDeclr(s[1..]) then
      match ParseDeclr(s[1..])
      case Failure => Failure
      case Success(d, rest) =>
        if rest != [] && rest[0].RParen? then ParseSuffixes(d, rest[1..]) else Failure
    else ParseSuffixes(Name(""), s)
  }

  /** Array bounds and parameter lists after `d`. */
  function ParseSuffixes(d: Declr, s: seq<Tok>): (r: Parsed<Declr>)
    ensures r.Success? ==> |r.rest| <= |s|
    decreases |s|, 1
  {
    if s != [] && s[0].LBracket? then
      if |s| >= 3 && s[1].Num? && s[2].RBracket? then ParseSuffixes(ArrD(d, s[1].n), s[3..]) else Failure
    else if s != [] && s[0].LParen? then
      match ParseParams(s[1..])
      case Failure => Failure
      case Success((ps, v), rest) => ParseSuffixes(FnD(d, ps, v), rest)
    else Success(d, s)
  }

  /** A parameter list up to and including the closing parenthesis; `(void)` stands for none. */
  function ParseParams(s: seq<Tok>): (r: Parsed<(seq<Decl>, bool)>)
    ensures r.Success? ==> |r.rest| <= |s|
    decreases |s|, 2
  {
    if s != [] && s[0].RParen? then Success(([], false), s[1..])
    else if |s| >= 2 && s[0] == Spec(Void) && s[1].RParen? then Success(([], false), s[2..])
    else ParseMore([], s)
  }

  /** The rest of a parameter list, after the parameters `ps` and, if there are any, a comma. */
  function ParseMore(ps: seq<Decl>, s: seq<Tok>): (r: Parsed<(seq<Decl>, bool)>)
    ensures r.Success? ==> |r.rest| <= |s|
    decreases |s|, 1
  {
    if |s| >= 2 && s[0].Ellipsis? && s[1].RParen? then Success((ps, true), s[2..])
    else
      match ParseDecl(s)
      case Failure => Failure
      case Success(c, rest) =>
        if rest != [] && |rest| < |s| && rest[0].Comma? then ParseMore(ps + [c], rest[1..])
        else if rest != [] && rest[0].RParen? then Success((ps + [c], false), rest[1..])
        else Failure
  }

  /** Specifiers with qualifiers on either side, then a declarator. */
  function ParseDecl(s: seq<Tok>): (r: Parsed<Decl>)
    ensures r.Success? ==> |r.rest| <= |s|
    decreases |s|, 0
  {
    var (qs, rest) := ParseQuals(s);
    if rest != [] && rest[0].Spec? then
      var (more, rest') := ParseQuals(rest[1..]);
      match ParseDeclr(rest')
      case Failure => Failure
      case Success(d, rest'') => Success(Decl(qs + more, rest[0].spec, d), rest'')
    else Failure
  }

  // ---------------------------------------------------------------------------
  // Printing

  function QualsAfter(qs: seq<Qualifier>): seq<Tok> {
    if qs == [] then [] else [Space, Qual(qs[0])] + QualsAfter(qs[1..])
  }

  function QualsBefore(qs: seq<Qualifier>): seq<Tok> {
    if qs == [] then [] else [Qual(qs[0]), Space] + QualsBefore(qs[1..])
  }

  /** The text of a declarator; `afterPtr` tells that it follows an asterisk or a parenthesis. */
  function PrintD(d: Declr, afterPtr: bool): seq<Tok>
    decreases d, 0
  {
    match d
    case Name(n) => PrintName(n, afterPtr)
    case PtrD(qs, e) => (if afterPtr then [Star] else [Space, Star]) + QualsAfter(qs) + PrintD(e, qs == [])
    case ArrD(e, n) =>
      (if e.Name? then PrintD(e, afterPtr)
       else (if NameOf(e) != "" && !afterPtr then [Space] else [])
            + if e.ArrD? then PrintD(e, true) else Enclosed(PrintD(e, true)))
      + [LBracket, Num(n), RBracket]
    case FnD(e, ps, v) =>
      (if e.Name? then PrintD(e, afterPtr) else [Space] + Enclosed(PrintD(e, true)))
      + [LParen] + PrintParams(ps, v) + [RParen]
  }

  function PrintName(n: string, afterPtr: bool): seq<Tok> {
    if n == "" then [] else if afterPtr then [Ident(n)] else [Space, Ident(n)]
  }

  function Enclosed(s: seq<Tok>): seq<Tok> {
    [LParen] + s + [RParen]
  }

  function PrintDecl(c: Decl): seq<Tok>
    decreases c, 1
  {
    QualsBefore(c.quals) + [Spec(c.spec)] + PrintD(c.d, false)
  }

  /** The parameters between the parentheses. */
  function PrintParams(ps: seq<Decl>, variadic: bool): seq<Tok>
    decreases ps, 3
  {
    if ps == [] then [Spec(Void)] else PrintFrom(ps, 0, variadic)
  }

  /** Parameter `i` and those after it. */
  function PrintFrom(ps: seq<Decl>, i: nat, variadic: bool): seq<Tok>
    requires i <= |ps|
    decreases ps, 2, |ps| - i
  {
    if i == |ps| then (if variadic then [Comma, Space, Ellipsis] else [])
    else (if i > 0 then [Comma, Space] else []) + PrintDecl(ps[i]) + PrintFrom(ps, i + 1, variadic)
  }

  // ---------------------------------------------------------------------------
  // The same text without blanks

  function Strip(s: seq<Tok>): seq<Tok> {
    if s == [] then [] else (if s[0].Space? then [] else [s[0]]) + Strip(s[1..])
  }

  function BareQuals(qs: seq<Qualifier>): (r: seq<Tok>)
    ensures |r| == |qs| && forall i :: 0 <= i < |qs| ==> r[i] == Qual(qs[i])
  {
    seq(|qs|, i requires 0 <= i < |qs| => Qual(qs[i]))
  }

  function BareName(n: string): seq<Tok> {
    if n == "" then [] else [Ident(n)]
  }

  function BareD(d: Declr): seq<Tok>
    decreases d, 0
  {
    match d
    case Name(n) => BareName(n)
    case PtrD(qs, e) => [Star] + BareQuals(qs) + BareD(e)
    case ArrD(e, n) => (if e.Name? || e.ArrD? then BareD(e) else Enclosed(BareD(e))) + [LBracket, Num(n), RBracket]
    case FnD(e, ps, v) => (if e.Name? then BareD(e) else Enclosed(BareD(e))) + [LParen] + BareParams(ps, v) + [RParen]
  }

  function BareDecl(c: Decl): seq<Tok>
    decreases c, 1
  {
    BareQuals(c.quals) + [Spec(c.spec)] + BareD(c.d)
  }

  function BareParams(ps: seq<Decl>, variadic: bool): seq<Tok>
    decreases ps, 3
  {
    if ps == [] then [Spec(Void)] else BareFrom(ps, 0, variadic)
  }

  function BareFrom(ps: seq<Decl>, i: nat, variadic: bool): seq<Tok>
    requires i <= |ps|
    decreases ps, 2, |ps| - i
  {
    if i == |ps| then (if variadic then [Comma, Ellipsis] else [])
    else (if i > 0 then [Comma] else []) + BareDecl(ps[i]) + BareFrom(ps, i + 1, variadic)
  }

  lemma {:induction false} StripAppend(a: seq<Tok>, b: seq<Tok>)
    ensures Strip(a + b) == Strip(a) + Strip(b)
  {
    if a == [] {
      assert a + b == b;
    } else {
      StripAppend(a[1..], b);
      var first := if a[0].Space? then [] else [a[0]];
      assert (a + b)[0] == a[0] && (a + b)[1..] == a[1..] + b;
      assert Strip(a + b) == first + Strip(a[1..] + b);
      Regroup(first, Strip(a[1..]), Strip(b));
    }
  }

  lemma StripOne(t: Tok)
    ensures Strip([t]) == if t.Space? then [] else [t]
    ensures Strip([Space, t]) == Strip([t]) && Strip([t, Space]) == Strip([t])
  {
  }

  lemma {:induction false} StripQuals(qs: seq<Qualifier>)
    ensures Strip(QualsAfter(qs)) == BareQuals(qs) && Strip(QualsBefore(qs)) == BareQuals(qs)
  {
    if qs != [] {
      StripQuals(qs[1..]);
      StripAppend([Space, Qual(qs[0])], QualsAfter(qs[1..]));
      StripAppend([Qual(qs[0]), Space], QualsBefore(qs[1..]));
      StripOne(Qual(qs[0]));
      assert BareQuals(qs) == [Qual(qs[0])] + BareQuals(qs[1..]);
    }
  }

  lemma StripEnclosed(s: seq<Tok>)
    ensures Strip(Enclosed(s)) == Enclosed(Strip(s))
  {
    StripAppend([LParen], s);
    StripAppend([LParen] + s, [RParen]);
    StripOne(LParen);
    StripOne(RParen);
  }

  lemma {:induction false} StripPrintD(d: Declr, afterPtr: bool)
    ensures Strip(PrintD(d, afterPtr)) == BareD(d)
    decreases d, 0
  {
    hide Strip, QualsAfter, BareQuals, Enclosed, PrintParams, BareParams;
    match d
    case Name(n) =>
      StripName(n, afterPtr);
    case PtrD(qs, e) =>
      var star := if afterPtr then [Star] else [Space, Star];
      StripOne(Star);
      StripQuals(qs);
      StripPrintD(e, qs == []);
      StripAppend(star, QualsAfter(qs));
      StripAppend(star + QualsAfter(qs), PrintD(e, qs == []));
    case ArrD(e, n) =>
      StripArr(e, n, afterPtr);
    case FnD(e, ps, v) =>
      StripPrintD(e, true);
      StripPrintD(e, afterPtr);
      StripParams(ps, v);
      StripFn(e, ps, v, afterPtr);
  }

  lemma StripName(n: string, afterPtr: bool)
    ensures Strip(PrintName(n, afterPtr)) == BareName(n)
  {
    StripOne(Ident(n));
  }

  lemma StripArr(e: Declr, n: nat, afterPtr: bool)
    ensures Strip(PrintD(ArrD(e, n), afterPtr)) == BareD(ArrD(e, n))
    decreases e, 1
  {
    hide Strip, Enclosed, PrintParams, BareParams;
    StripPrintD(e, true);
    StripPrintD(e, afterPtr);
    var dims := [LBracket, Num(n), RBracket];
    var sp := if NameOf(e) != "" && !afterPtr then [Space] else [];
    var inner := if e.ArrD? then PrintD(e, true) else Enclosed(PrintD(e, true));
    StripEnclosed(PrintD(e, true));
    StripDims(n);
    StripSpace(sp);
    StripAppend(sp, inner);
    StripAppend(if e.Name? then PrintD(e, afterPtr) else sp + inner, dims);
    assert [] + Strip(inner) == Strip(inner);
  }

  lemma StripDims(n: nat)
    ensures Strip([LBracket, Num(n), RBracket]) == [LBracket, Num(n), RBracket]
  {
    StripAppend([LBracket], [Num(n), RBracket]);
    StripAppend([Num(n)], [RBracket]);
    assert [LBracket] + [Num(n), RBracket] == [LBracket, Num(n), RBracket];
    assert [Num(n)] + [RBracket] == [Num(n), RBracket];
  }

  lemma StripSpace(sp: seq<Tok>)
    requires sp == [] || sp == [Space]
    ensures Strip(sp) == []
  {
  }

  lemma StripFn(e: Declr, ps: seq<Decl>, v: bool, afterPtr: bool)
    requires Strip(PrintD(e, true)) == BareD(e) == Strip(PrintD(e, afterPtr))
    requires Strip(PrintParams(ps, v)) == BareParams(ps, v)
    ensures Strip(PrintD(FnD(e, ps, v), afterPtr)) == BareD(FnD(e, ps, v))
  {
    hide Strip, Enclosed, PrintParams, BareParams;
    var head := if e.Name? then PrintD(e, afterPtr) else [Space] + Enclosed(PrintD(e, true));
    StripEnclosed(PrintD(e, true));
    StripSpace([Space]);
    StripAppend([Space], Enclosed(PrintD(e, true)));
    assert [] + Strip(Enclosed(PrintD(e, true))) == Strip(Enclosed(PrintD(e, true)));
    StripOne(LParen);
    StripOne(RParen);
    StripAppend(head, [LParen]);
    StripAppend(head + [LParen], PrintParams(ps, v));
    StripAppend(head + [LParen] + PrintParams(ps, v), [RParen]);
  }

  /** Removing the blanks from a printed declaration leaves its tokens. */
  lemma {:induction false} StripPrintDecl(c: Decl)
    ensures Strip(PrintDecl(c)) == BareDecl(c)
    decreases c, 1
  {
    hide Strip, QualsBefore, BareQuals;
    StripQuals(c.quals);
    StripOne(Spec(c.spec));
    StripPrintD(c.d, false);
    StripAppend(QualsBefore(c.quals), [Spec(c.spec)]);
    StripAppend(QualsBefore(c.quals) + [Spec(c.spec)], PrintD(c.d, false));
  }

  lemma {:induction false} StripParams(ps: seq<Decl>, v: bool)
    ensures Strip(PrintParams(ps, v)) == BareParams(ps, v)
    decreases ps, 3
  {
    hide Strip;
    if ps == [] {
      StripOne(Spec(Void));
    } else {
      StripFrom(ps, 0, v);
    }
  }

  lemma {:induction false} StripFrom(ps: seq<Decl>, i: nat, v: bool)
    requires i <= |ps|
    ensures Strip(PrintFrom(ps, i, v)) == BareFrom(ps, i, v)
    decreases ps, 2, |ps| - i
  {
    StripOne(Comma);
    StripOne(Ellipsis);
    if i == |ps| {
      StripAppend([Comma, Space], [Ellipsis]);
      assert [Comma, Space] + [Ellipsis] == [Comma, Space, Ellipsis];
    } else {
      assert Strip([]) == [];
      hide Strip, PrintDecl, BareDecl;
      var sep := if i > 0 then [Comma, Space] else [];
      StripPrintDecl(ps[i]);
      StripFrom(ps, i + 1, v);
      StripAppend(sep, PrintDecl(ps[i]));
      StripAppend(sep + PrintDecl(ps[i]), PrintFrom(ps, i + 1, v));
    }
  }

  // ---------------------------------------------------------------------------
  // Parsing what was printed

  /** No parameter list is one that C writes differently: a lone `void`, or a lone ellipsis. */
  ghost predicate CanonD(d: Declr)
    decreases d, 0
  {
    match d
    case Name(_) => true
    case PtrD(_, e) => CanonD(e)
    case ArrD(e, _) => CanonD(e)
    case FnD(e, ps, v) =>
      && CanonD(e)
      && (v ==> ps != [])
      && (!v ==> ps != [Decl([], Void, Name(""))])
      && forall i :: 0 <= i < |ps| ==> Canon(ps[i])
  }

  ghost predicate Canon(c: Decl)
    decreases c, 1
  {
    CanonD(c.d)
  }

  /** A declarator ends here. */
  predicate Ends(rest: seq<Tok>) {
    rest == [] || rest[0].RParen? || rest[0].Comma?
  }

  /** How the tokens of a declarator begin. */
  lemma {:induction false} FirstToken(d: Declr)
    ensures BareD(d) == [] <==> d == Name("")
    ensures BareD(d) != [] ==> StartsDeclr(BareD(d))
    decreases d
  {
    hide BareParams, BareQuals, Enclosed, StartsDeclr;
    match d
    case Name(n) => FirstOfName(n);
    case PtrD(qs, e) => FirstOfPtr(BareQuals(qs), BareD(e));
    case ArrD(e, n) =>
      FirstToken(e);
      FirstOfEnclosed(BareD(e));
      FirstOfJoin(if e.Name? || e.ArrD? then BareD(e) else Enclosed(BareD(e)), [LBracket, Num(n), RBracket]);
    case FnD(e, ps, v) =>
      FirstToken(e);
      FirstOfEnclosed(BareD(e));
      FirstOfEnclosed(BareParams(ps, v));
      var head := if e.Name? then BareD(e) else Enclosed(BareD(e));
      FirstOfJoin(head, Enclosed(BareParams(ps, v)));
      EnclosedJoin(head, BareParams(ps, v));
  }

  lemma FirstOfName(n: string)
    ensures BareName(n) == [] <==> n == ""
    ensures BareName(n) != [] ==> StartsDeclr(BareName(n))
  {
  }

  lemma FirstOfPtr(qs: seq<Tok>, s: seq<Tok>)
    ensures [Star] + qs + s != [] && StartsDeclr([Star] + qs + s)
  {
    assert ([Star] + qs + s)[0] == Star;
  }

  lemma FirstOfEnclosed(s: seq<Tok>)
    ensures Enclosed(s) != [] && StartsDeclr(Enclosed(s))
    ensures forall n :: StartsDeclr([LBracket, Num(n), RBracket])
  {
  }

  lemma EnclosedJoin(head: seq<Tok>, s: seq<Tok>)
    ensures head + [LParen] + s + [RParen] == head + Enclosed(s)
  {
  }

  lemma FirstOfJoin(a: seq<Tok>, b: seq<Tok>)
    requires b != [] && StartsDeclr(b) && (a != [] ==> StartsDeclr(a))
    ensures a + b != [] && StartsDeclr(a + b)
  {
  }

  lemma {:induction false} QualsParse(qs: seq<Qualifier>, rest: seq<Tok>)
    requires rest == [] || !rest[0].Qual?
    ensures ParseQuals(BareQuals(qs) + rest) == (qs, rest)
  {
    if qs == [] {
      assert BareQuals(qs) + rest == rest;
    } else {
      QualsParse(qs[1..], rest);
      assert (BareQuals(qs) + rest)[1..] == BareQuals(qs[1..]) + rest;
      assert qs == [qs[0]] + qs[1..];
    }
  }

  /** The tokens of a declarator parse to that declarator. */
  lemma {:induction false} DeclrParse(d: Declr, rest: seq<Tok>)
    requires CanonD(d) && Ends(rest)
    ensures ParseDeclr(BareD(d) + rest) == Success(d, rest)
    decreases d, 3
  {
    hide ParseDirect, ParseSuffixes, ParseDeclr, BareQuals, BareParams;
    if d.PtrD? {
      assert CanonD(d.d);
      hide BareD, CanonD, Ends;
      EndsNoQual(d.d, rest);
      DeclrParse(d.d, rest);
      PtrParse(d.quals, d.d, BareD(d.d) + rest, rest);
      BarePtr(d.quals, d.d, rest);
    } else {
      hide BareD, CanonD;
      DirectParse(d, rest);
      NotStar(d, rest);
      NoPtrParse(BareD(d) + rest);
      SuffixesEnd(d, rest);
    }
  }

  lemma PtrParse(qs: seq<Qualifier>, e: Declr, tail: seq<Tok>, rest: seq<Tok>)
    requires tail == [] || !tail[0].Qual?
    requires ParseDeclr(tail) == Success(e, rest)
    ensures ParseDeclr([Star] + (BareQuals(qs) + tail)) == Success(PtrD(qs, e), rest)
  {
    hide ParseDirect;
    var s := [Star] + (BareQuals(qs) + tail);
    QualsParse(qs, tail);
    assert s[1..] == BareQuals(qs) + tail;
  }

  lemma BarePtr(qs: seq<Qualifier>, e: Declr, rest: seq<Tok>)
    ensures BareD(PtrD(qs, e)) + rest == [Star] + (BareQuals(qs) + (BareD(e) + rest))
  {
    hide BareQuals;
    Regroup([Star] + BareQuals(qs), BareD(e), rest);
    Regroup([Star], BareQuals(qs), BareD(e) + rest);
  }

  lemma NoPtrParse(s: seq<Tok>)
    requires s == [] || !s[0].Star?
    ensures ParseDeclr(s) == ParseDirect(s)
  {
    hide ParseDirect;
  }

  lemma EndsNoQual(d: Declr, rest: seq<Tok>)
    requires Ends(rest)
    ensures BareD(d) + rest == [] || !(BareD(d) + rest)[0].Qual?
  {
    FirstToken(d);
    hide BareD;
  }

  lemma SuffixesEnd(d: Declr, rest: seq<Tok>)
    requires Ends(rest)
    ensures ParseSuffixes(d, rest) == Success(d, rest)
  {
  }

  lemma NameParse(n: string, rest: seq<Tok>)
    requires n == "" ==> NoPrimary(rest)
    ensures ParseDirect(BareName(n) + rest) == ParseSuffixes(Name(n), rest)
  {
    hide ParseSuffixes;
    if n == "" {
      assert BareName(n) + rest == rest;
    } else {
      assert (BareName(n) + rest)[1..] == rest;
    }
  }

  lemma CanonFn(e: Declr, ps: seq<Decl>, v: bool)
    requires CanonD(FnD(e, ps, v))
    ensures CanonD(e) && (v ==> ps != []) && (!v ==> ps != [Decl([], Void, Name(""))])
    ensures forall i :: 0 <= i < |ps| ==> Canon(ps[i])
  {
  }

  lemma NotStar(d: Declr, rest: seq<Tok>)
    requires !d.PtrD? && Ends(rest)
    ensures BareD(d) + rest == [] || !(BareD(d) + rest)[0].Star?
    ensures d == Name("") ==> BareD(d) + rest == rest
  {
    hide BareParams;
    if d.ArrD? || d.FnD? {
      FirstNotStar(d);
    }
  }

  lemma {:induction false} FirstNotStar(d: Declr)
    requires d.ArrD? || d.FnD?
    ensures BareD(d) != [] && !BareD(d)[0].Star?
    decreases d
  {
    hide BareParams;
    if d.d.ArrD? {
      FirstNotStar(d.d);
    }
    if d.FnD? {
      var head := if d.d.Name? then BareD(d.d) else Enclosed(BareD(d.d));
      assert BareD(d) == head + ([LParen] + BareParams(d.params, d.variadic) + [RParen]);
    }
  }

  /** `rest` is not taken for the beginning of a direct declarator. */
  predicate NoPrimary(rest: seq<Tok>) {
    rest == [] || (!rest[0].Ident? && !(rest[0].LParen? && StartsDeclr(rest[1..])))
  }

  /** Reading a direct declarator ends with it complete, about to look for more suffixes. */
  lemma {:induction false} DirectParse(d: Declr, rest: seq<Tok>)
    requires CanonD(d) && !d.PtrD? && (d == Name("") ==> NoPrimary(rest))
    ensures ParseDirect(BareD(d) + rest) == ParseSuffixes(d, rest)
    decreases d, 2
  {
    hide ParseDirect, ParseSuffixes, BareParams, BareQuals, NoPrimary, BareName, Enclosed;
    match d
    case Name(n) =>
      NameParse(n, rest);
    case ArrD(e, n) =>
      var dims := [LBracket, Num(n), RBracket];
      SuffixArr(e, n, rest);
      if e.Name? || e.ArrD? {
        NoPrimaryDims(n, rest);
        DirectParse(e, dims + rest);
        assert BareD(d) + rest == BareD(e) + (dims + rest);
      } else {
        EnclosedParse(e, dims + rest);
        assert BareD(d) + rest == Enclosed(BareD(e)) + (dims + rest);
      }
    case FnD(e, ps, v) =>
      var args := [LParen] + BareParams(ps, v) + [RParen];
      CanonFn(e, ps, v);
      SuffixFn(e, ps, v, rest);
      if e.Name? {
        NoPrimaryArgs(ps, v, rest);
        DirectParse(e, args + rest);
        assert BareD(d) + rest == BareD(e) + (args + rest);
      } else {
        EnclosedParse(e, args + rest);
        assert BareD(d) + rest == Enclosed(BareD(e)) + (args + rest);
      }
  }

  /** A declarator in parentheses. */
  lemma {:induction false} EnclosedParse(e: Declr, rest: seq<Tok>)
    requires CanonD(e) && !e.Name?
    ensures ParseDirect(Enclosed(BareD(e)) + rest) == ParseSuffixes(e, rest)
    decreases e, 4
  {
    FirstToken(e);
    var s := Enclosed(BareD(e)) + rest;
    assert s[1..] == BareD(e) + ([RParen] + rest);
    DeclrParse(e, [RParen] + rest);
    assert StartsDeclr(s[1..]);
    assert ([RParen] + rest)[1..] == rest;
  }

  lemma SuffixArr(e: Declr, n: nat, rest: seq<Tok>)
    ensures ParseSuffixes(e, [LBracket, Num(n), RBracket] + rest) == ParseSuffixes(ArrD(e, n), rest)
  {
    assert ([LBracket, Num(n), RBracket] + rest)[3..] == rest;
  }

  lemma {:induction false} SuffixFn(e: Declr, ps: seq<Decl>, v: bool, rest: seq<Tok>)
    requires CanonD(FnD(e, ps, v))
    ensures ParseSuffixes(e, [LParen] + BareParams(ps, v) + [RParen] + rest) == ParseSuffixes(FnD(e, ps, v), rest)
    decreases FnD(e, ps, v), 1
  {
    hide BareParams;
    var s := [LParen] + BareParams(ps, v) + [RParen] + rest;
    assert s[1..] == BareParams(ps, v) + ([RParen] + rest);
    ParamsParse(e, ps, v, rest);
  }

  /** The first token of a parameter list is a specifier or a qualifier. */
  lemma FirstOfParams(ps: seq<Decl>, v: bool)
    requires v ==> ps != []
    ensures BareParams(ps, v) != [] && (BareParams(ps, v)[0].Spec? || BareParams(ps, v)[0].Qual?)
  {
    if ps != [] {
      assert [] + BareDecl(ps[0]) == BareDecl(ps[0]);
    }
  }

  lemma NoPrimaryDims(n: nat, rest: seq<Tok>)
    ensures NoPrimary([LBracket, Num(n), RBracket] + rest)
  {
  }

  lemma NoPrimaryArgs(ps: seq<Decl>, v: bool, rest: seq<Tok>)
    requires v ==> ps != []
    ensures NoPrimary([LParen] + BareParams(ps, v) + [RParen] + rest)
  {
    FirstOfParams(ps, v);
    var s := [LParen] + BareParams(ps, v) + [RParen] + rest;
    assert s[1..] == BareParams(ps, v) + [RParen] + rest;
  }

  lemma {:induction false} ParamsParse(e: Declr, ps: seq<Decl>, v: bool, rest: seq<Tok>)
    requires CanonD(FnD(e, ps, v))
    ensures ParseParams(BareParams(ps, v) + ([RParen] + rest)) == Success((ps, v), rest)
    decreases FnD(e, ps, v), 0
  {
    var s := BareParams(ps, v) + ([RParen] + rest);
    CanonFn(e, ps, v);
    if ps == [] {
      assert s[2..] == rest;
    } else {
      hide CanonD, ParseMore, BareDecl, ParseParams, BareFrom;
      NotLoneVoid(ps, v, rest);
      FirstOfParams(ps, v);
      ParamsMore(s);
      MoreParse(e, ps, 0, v, rest);
      assert ps[..0] == [];
      ParamsCons(ps, v);
      Regroup(BareDecl(ps[0]), BareFrom(ps, 1, v), [RParen] + rest);
    }
  }

  lemma ParamsMore(s: seq<Tok>)
    requires s != [] && !s[0].RParen? && !(|s| >= 2 && s[0] == Spec(Void) && s[1].RParen?)
    ensures ParseParams(s) == ParseMore([], s)
  {
    hide ParseMore;
  }

  lemma ParamsCons(ps: seq<Decl>, v: bool)
    requires ps != []
    ensures BareParams(ps, v) == BareDecl(ps[0]) + BareFrom(ps, 1, v)
  {
    hide BareDecl;
    assert [] + BareDecl(ps[0]) == BareDecl(ps[0]);
  }

  lemma Regroup<T>(a: seq<T>, b: seq<T>, c: seq<T>)
    ensures a + b + c == a + (b + c)
  {
  }

  /** Other parameter lists are not mistaken for `(void)`. */
  lemma NotLoneVoid(ps: seq<Decl>, v: bool, rest: seq<Tok>)
    requires ps != [] && (!v ==> ps != [Decl([], Void, Name(""))])
    ensures var s := BareParams(ps, v) + ([RParen] + rest); !(|s| >= 2 && s[0] == Spec(Void) && s[1].RParen?)
  {
    hide BareFrom, BareParams, BareD;
    var c, more := ps[0], BareFrom(ps, 1, v) + ([RParen] + rest);
    ParamsCons(ps, v);
    Regroup(BareDecl(c), BareFrom(ps, 1, v), [RParen] + rest);
    FirstOfFrom(ps, 1, v);
    FirstToken(c.d);
    assert |ps| == 1 ==> ps == [c];
    DeclBegins(c.quals, c.spec, BareD(c.d), more);
  }

  lemma DeclBegins(qs: seq<Qualifier>, spec: TypeSpec, body: seq<Tok>, more: seq<Tok>)
    requires more != []
    ensures var s := BareQuals(qs) + [Spec(spec)] + body + more;
            && |s| >= 2
            && (qs != [] ==> s[0].Qual?)
            && (qs == [] ==> s[0] == Spec(spec) && s[1] == if body == [] then more[0] else body[0])
  {
  }

  lemma {:induction false} MoreParse(e: Declr, ps: seq<Decl>, i: nat, v: bool, rest: seq<Tok>)
    requires CanonD(FnD(e, ps, v)) && i < |ps|
    ensures ParseMore(ps[..i], BareDecl(ps[i]) + (BareFrom(ps, i + 1, v) + ([RParen] + rest))) == Success((ps, v), rest)
    decreases ps, 2, |ps| - i
  {
    hide BareDecl, ParseDecl, CanonD, BareFrom;
    CanonFn(e, ps, v);
    var more := BareFrom(ps, i + 1, v) + ([RParen] + rest);
    var s := BareDecl(ps[i]) + more;
    FirstOfFrom(ps, i + 1, v);
    assert Ends(more) && more != [];
    DeclParse(ps[i], more);
    DeclNotEmpty(ps[i], more);
    assert ps[..i] + [ps[i]] == ps[..i + 1];
    if i + 1 < |ps| {
      MoreParse(e, ps, i + 1, v, rest);
      assert more[1..] == BareDecl(ps[i + 1]) + (BareFrom(ps, i + 2, v) + ([RParen] + rest));
    } else {
      assert ps[..i + 1] == ps;
      EllipsisParse(ps, rest);
      assert more[1..] == if v then [Ellipsis, RParen] + rest else rest;
    }
  }

  lemma EllipsisParse(ps: seq<Decl>, rest: seq<Tok>)
    ensures ParseMore(ps, [Ellipsis, RParen] + rest) == Success((ps, true), rest)
  {
    assert ([Ellipsis, RParen] + rest)[2..] == rest;
  }

  lemma DeclNotEmpty(c: Decl, more: seq<Tok>)
    ensures |BareDecl(c) + more| > |more| && !(BareDecl(c) + more)[0].Ellipsis?
  {
    if c.quals != [] {
      assert (BareDecl(c) + more)[0] == Qual(c.quals[0]);
    } else {
      assert (BareDecl(c) + more)[0] == Spec(c.spec);
    }
  }

  lemma FirstOfFrom(ps: seq<Decl>, i: nat, v: bool)
    requires 0 < i <= |ps|
    ensures i < |ps| ==> BareFrom(ps, i, v) == [Comma] + BareDecl(ps[i]) + BareFrom(ps, i + 1, v)
    ensures i == |ps| ==> BareFrom(ps, i, v) == if v then [Comma, Ellipsis] else []
  {
  }

  /** The tokens of a declaration parse to that declaration. */
  lemma {:induction false} DeclParse(c: Decl, rest: seq<Tok>)
    requires Canon(c) && Ends(rest)
    ensures ParseDecl(BareDecl(c) + rest) == Success(c, rest)
    decreases c, 4
  {
    var tail := [Spec(c.spec)] + (BareD(c.d) + rest);
    assert BareDecl(c) + rest == BareQuals(c.quals) + tail;
    QualsParse(c.quals, tail);
    assert tail[1..] == BareD(c.d) + rest;
    FirstToken(c.d);
    QualsParse([], BareD(c.d) + rest);
    assert BareQuals([]) + (BareD(c.d) + rest) == BareD(c.d) + rest;
    DeclrParse(c.d, rest);
    assert c.quals + [] == c.quals;
  }

  // ---------------------------------------------------------------------------
  // Blanks where C needs them

  /** Tokens that would run together if nothing stood between them. */
  predicate IsWord(t: Tok) {
    t.Spec? || t.Qual? || t.Ident? || t.Num?
  }

  /** No two words touch; `prev` tells that a word comes right before `s`. */
  predicate Apart(prev: bool, s: seq<Tok>)
    decreases s
  {
    s == [] || (!(prev && IsWord(s[0])) && Apart(IsWord(s[0]), s[1..]))
  }

  /** A word comes at the end. */
  predicate EndsInWord(prev: bool, s: seq<Tok>) {
    if s == [] then prev else IsWord(s[|s| - 1])
  }

  lemma {:induction false} ApartAppend(prev: bool, a: seq<Tok>, b: seq<Tok>)
    ensures Apart(prev, a + b) <==> Apart(prev, a) && Apart(EndsInWord(prev, a), b)
    ensures EndsInWord(prev, a + b) == EndsInWord(EndsInWord(prev, a), b)
    decreases a
  {
    if a == [] {
      assert a + b == b;
    } else {
      ApartAppend(IsWord(a[0]), a[1..], b);
      assert (a + b)[1..] == a[1..] + b;
    }
  }

  /** A word may come before something that starts with no word. */
  lemma ApartFirst(prev: bool, s: seq<Tok>)
    requires Apart(false, s) && (s == [] || !IsWord(s[0]))
    ensures Apart(prev, s)
  {
  }

  lemma {:induction false} ApartQuals(qs: seq<Qualifier>)
    ensures Apart(false, QualsAfter(qs)) && EndsInWord(false, QualsAfter(qs)) == (qs != [])
    ensures Apart(false, QualsBefore(qs)) && !EndsInWord(false, QualsBefore(qs))
  {
    if qs != [] {
      ApartQuals(qs[1..]);
      var q := Qual(qs[0]);
      assert Apart(false, [Space, q]) && Apart(false, [q, Space]) by {
        assert [Space, q][1..] == [q] && [q, Space][1..] == [Space];
      }
      ApartAppend(false, [Space, q], QualsAfter(qs[1..]));
      ApartAppend(false, [q, Space], QualsBefore(qs[1..]));
      if qs[1..] != [] {
        ApartFirst(true, QualsAfter(qs[1..]));
      }
    }
  }

  /** A printed declarator keeps words apart, also from a word before it unless it is told of none. */
  lemma {:induction false} ApartD(d: Declr, afterPtr: bool, prev: bool)
    requires prev ==> !afterPtr || NameOf(d) == ""
    ensures Apart(prev, PrintD(d, afterPtr))
    decreases d, 1
  {
    hide Apart, EndsInWord, QualsAfter, PrintParams, Enclosed;
    match d
    case Name(n) =>
      ApartName(n, afterPtr, prev);
    case PtrD(qs, e) =>
      var star := if afterPtr then [Star] else [Space, Star];
      ApartPunct(prev, star);
      ApartQuals(qs);
      ApartD(e, qs == [], qs != []);
      ApartAppend(prev, star, QualsAfter(qs));
      ApartAppend(prev, star + QualsAfter(qs), PrintD(e, qs == []));
    case ArrD(e, n) =>
      ApartArr(e, n, afterPtr, prev);
    case FnD(e, ps, v) =>
      ApartFn(e, ps, v, afterPtr, prev);
  }

  lemma ApartName(n: string, afterPtr: bool, prev: bool)
    requires prev ==> !afterPtr || n == ""
    ensures Apart(prev, PrintName(n, afterPtr))
  {
    assert [Space, Ident(n)][1..] == [Ident(n)];
  }

  /** Punctuation and blanks can stand anywhere. */
  lemma {:induction false} ApartPunct(prev: bool, s: seq<Tok>)
    requires s != [] && forall i :: 0 <= i < |s| ==> !IsWord(s[i])
    ensures Apart(prev, s) && !EndsInWord(prev, s)
  {
    if |s| > 1 {
      ApartPunct(false, s[1..]);
    }
  }

  lemma ApartEnclosed(prev: bool, s: seq<Tok>)
    requires Apart(false, s)
    ensures Apart(prev, Enclosed(s)) && !EndsInWord(prev, Enclosed(s))
  {
    hide Apart, EndsInWord;
    ApartPunct(prev, [LParen]);
    ApartPunct(EndsInWord(false, s), [RParen]);
    ApartAppend(prev, [LParen], s);
    ApartAppend(prev, [LParen] + s, [RParen]);
  }

  lemma {:induction false} ApartArr(e: Declr, n: nat, afterPtr: bool, prev: bool)
    requires prev ==> !afterPtr || NameOf(e) == ""
    ensures Apart(prev, PrintD(ArrD(e, n), afterPtr))
    decreases e, 2
  {
    hide Apart, EndsInWord, PrintParams, Enclosed;
    var dims := [LBracket, Num(n), RBracket];
    var sp := if NameOf(e) != "" && !afterPtr then [Space] else [];
    var inner := if e.ArrD? then PrintD(e, true) else Enclosed(PrintD(e, true));
    ApartD(e, true, false);
    ApartD(e, true, prev && NameOf(e) == "");
    ApartD(e, afterPtr, prev);
    var p := prev && NameOf(e) == "";
    ApartEnclosed(p, PrintD(e, true));
    ApartSpace(prev, sp);
    ApartAppend(prev, sp, inner);
    var head := if e.Name? then PrintD(e, afterPtr) else sp + inner;
    ApartDims(EndsInWord(prev, head), n);
    ApartAppend(prev, head, dims);
  }

  lemma ApartSpace(prev: bool, sp: seq<Tok>)
    requires sp == [] || sp == [Space]
    ensures Apart(prev, sp) && EndsInWord(prev, sp) == (prev && sp == [])
  {
  }

  lemma ApartDims(prev: bool, n: nat)
    ensures Apart(prev, [LBracket, Num(n), RBracket])
  {
    assert [LBracket, Num(n), RBracket][1..] == [Num(n), RBracket];
    assert [Num(n), RBracket][1..] == [RBracket];
    ApartOne(true, RBracket);
    assert Apart(false, [Num(n), RBracket]);
  }

  lemma ApartOne(prev: bool, t: Tok)
    ensures Apart(prev, [t]) == !(prev && IsWord(t)) && EndsInWord(prev, [t]) == IsWord(t)
  {
    assert [t][1..] == [];
  }

  lemma {:induction false} ApartFn(e: Declr, ps: seq<Decl>, v: bool, afterPtr: bool, prev: bool)
    requires prev ==> !afterPtr || NameOf(e) == ""
    ensures Apart(prev, PrintD(FnD(e, ps, v), afterPtr))
    decreases FnD(e, ps, v), 0
  {
    hide Apart, EndsInWord, PrintParams, Enclosed;
    var inner := Enclosed(PrintD(e, true));
    ApartD(e, true, false);
    ApartD(e, afterPtr, prev);
    ApartSpace(prev, [Space]);
    ApartEnclosed(EndsInWord(prev, [Space]), PrintD(e, true));
    ApartAppend(prev, [Space], inner);
    var head := if e.Name? then PrintD(e, afterPtr) else [Space] + inner;
    var before := EndsInWord(prev, head);
    ApartParams(e, ps, v);
    ApartPunct(before, [LParen]);
    ApartPunct(EndsInWord(false, PrintParams(ps, v)), [RParen]);
    ApartAppend(prev, head, [LParen]);
    ApartAppend(prev, head + [LParen], PrintParams(ps, v));
    ApartAppend(prev, head + [LParen] + PrintParams(ps, v), [RParen]);
  }

  lemma {:induction false} ApartParams(e: Declr, ps: seq<Decl>, v: bool)
    ensures Apart(false, PrintParams(ps, v))
    decreases ps, 3
  {
    if ps != [] {
      ApartFrom(ps, 0, v, false);
    }
  }

  lemma {:induction false} ApartFrom(ps: seq<Decl>, i: nat, v: bool, prev: bool)
    requires i <= |ps| && (prev ==> i > 0)
    ensures Apart(prev, PrintFrom(ps, i, v))
    decreases ps, 2, |ps| - i
  {
    if i == |ps| {
      if v {
        ApartPunct(prev, [Comma, Space, Ellipsis]);
      }
    } else {
      hide EndsInWord, PrintDecl;
      var sep := if i > 0 then [Comma, Space] else [];
      ApartPunct(prev, [Comma, Space]);
      ApartDecl(ps[i]);
      ApartAppend(prev, sep, PrintDecl(ps[i]));
      var before := EndsInWord(prev, sep + PrintDecl(ps[i]));
      NoWordBefore(prev, sep);
      ApartFrom(ps, i + 1, v, before);
      ApartAppend(prev, sep + PrintDecl(ps[i]), PrintFrom(ps, i + 1, v));
    }
  }

  lemma NoWordBefore(prev: bool, sep: seq<Tok>)
    requires (sep == [] && !prev) || sep == [Comma, Space]
    ensures !EndsInWord(prev, sep) && Apart(prev, sep)
  {
    ApartPunct(prev, [Comma, Space]);
  }

  /** In a printed declaration no two words touch, so C reads back the tokens that were meant. */
  lemma {:induction false} ApartDecl(c: Decl)
    ensures Apart(false, PrintDecl(c))
    decreases c, 1
  {
    ApartQuals(c.quals);
    ApartD(c.d, false, true);
    var quals, spec := QualsBefore(c.quals), [Spec(c.spec)];
    ApartOne(false, Spec(c.spec));
    ApartAppend(false, quals, spec);
    assert EndsInWord(false, quals + spec);
    hide Apart, EndsInWord;
    ApartAppend(false, quals + spec, PrintD(c.d, false));
  }
}

/** The C types that a BTF graph describes, and the declarators that chains of its types stand for. */
module DeclGraph {
  import opened Words
  import opened BtfRecords
  import opened EmbedSpec
  import opened DeclSpec
  import T = TypedRecords

  /** Kinds that a declaration chain passes through. */
  predicate IsLink(k: nat) {
    IsModKind(k) || k == BTF_KIND_PTR || k == BTF_KIND_ARRAY || k == BTF_KIND_FUNC_PROTO
  }

  predicate Link(r: Record)
    requires |r| >= BASE
  {
    IsLink(Kind(r))
  }

  /** The next type of a chain is in this word. */
  function NextWord(r: Record): nat
    requires |r| >= BASE
  {
    if Kind(r) == BTF_KIND_ARRAY then BASE else 2
  }

  function QualOf(r: Record): Qualifier
    requires |r| >= BASE
  {
    if Kind(r) == BTF_KIND_VOLATILE then Volatile else if Kind(r) == BTF_KIND_CONST then Const else Restrict
  }

  /** Word of the type of parameter `i`; its name is in the word before. */
  function ParamWord(i: nat): nat {
    BASE + 2 * i + 1
  }

  /** A BTF graph with its names, and ranks that fall along chains. */
  datatype Names = Names(types: seq<Record>, rank: seq<nat>, typeName: nat -> string, strOf: u32 -> string)
  {
    ghost predicate Valid() {
      && GoodGraph(types) && |rank| == |types| && strOf(0) == ""
      && (forall i :: 0 <= i < |types| && Link(types[i]) ==> rank[types[i][NextWord(types[i])]] < rank[i])
      && (forall i, j :: 0 <= i < |types| && Kind(types[i]) == BTF_KIND_FUNC_PROTO && 0 <= j < Vlen(types[i]) ==>
            rank[types[i][ParamWord(j)]] < rank[i])
    }

    ghost predicate Id(i: int) { Valid() && |rank| == |types| && 0 <= i < |types| }
  }

  lemma LinkShape(g: Names, i: nat)
    requires g.Id(i)
    ensures |g.types[i]| >= BASE
    ensures Link(g.types[i]) ==>
              && 0 < i && NextWord(g.types[i]) < |g.types[i]| && g.types[i][NextWord(g.types[i])] < |g.types|
              && g.rank[g.types[i][NextWord(g.types[i])]] < g.rank[i]
    ensures Kind(g.types[i]) == BTF_KIND_ARRAY ==> |g.types[i]| == BASE + 3
    ensures Kind(g.types[i]) == BTF_KIND_FUNC_PROTO ==>
              && |g.types[i]| == BASE + 2 * Vlen(g.types[i])
              && forall j :: 0 <= j < Vlen(g.types[i]) ==>
                   g.types[i][ParamWord(j)] < |g.types| && g.rank[g.types[i][ParamWord(j)]] < g.rank[i]
  {
    var t := g.types[i];
    if Link(t) {
      assert IsRef(t[1], NextWord(t));
    }
    if Kind(t) == BTF_KIND_FUNC_PROTO {
      forall j | 0 <= j < Vlen(t)
        ensures t[ParamWord(j)] < |g.types|
      {
        assert (2 * j + 1) % 2 == 1;
        assert IsRef(t[1], ParamWord(j));
      }
    }
  }

  predicate IsSpecKind(k: nat) {
    k == BTF_KIND_INT || k == BTF_KIND_FLOAT || k == BTF_KIND_TYPEDEF || k == BTF_KIND_ENUM ||
    k == BTF_KIND_ENUM64 || k == BTF_KIND_FWD || IsCompositeKind(k)
  }

  /** The type specifier of a type that ends a chain. */
  function SpecFor(r: Record, i: nat, name: string): TypeSpec
    requires |r| >= BASE
  {
    var k := Kind(r);
    if i == 0 then Void
    else if k == BTF_KIND_STRUCT then Tagged("struct", name)
    else if k == BTF_KIND_UNION then Tagged("union", name)
    else if k == BTF_KIND_ENUM || k == BTF_KIND_ENUM64 then Tagged("enum", name)
    else if k == BTF_KIND_FWD then Tagged(if KflagOf(r[1]) then "union" else "struct", name)
    else Plain(name)
  }

  function SpecOf(g: Names, i: nat): TypeSpec
    requires i < |g.types| && |g.types[i]| >= BASE
  {
    SpecFor(g.types[i], i, g.typeName(i))
  }

  /** The chain from `i` ends in void or a named type, without type tags; so do its parameters' chains. */
  ghost predicate Printable(g: Names, i: nat)
    requires g.Id(i)
    decreases g.rank[i]
  {
    LinkShape(g, i);
    var t := g.types[i];
    if Link(t) then
      && Printable(g, t[NextWord(t)])
      && (Kind(t) == BTF_KIND_FUNC_PROTO ==> forall j :: 0 <= j < Vlen(t) ==> Printable(g, t[ParamWord(j)]))
    else i == 0 || (IsSpecKind(Kind(t)) && t[0] != 0)
  }

  /** Qualifiers around a type; on arrays and functions they are dropped. */
  function AddQuals(t: CType, qs: seq<Qualifier>): CType {
    match t
    case Base(ps, s) => Base(ps + qs, s)
    case Ptr(ps, u) => Ptr(ps + qs, u)
    case Arr(_, _) => t
    case Fn(_, _, _) => t
  }

  /** A last parameter of type void, unless it is the only one, stands for an ellipsis. */
  predicate IsVariadic(t: Record)
    requires Kinded(t)
  {
    Vlen(t) >= 2 && t[ParamWord(Vlen(t) - 1)] == 0
  }

  predicate Kinded(t: Record) {
    |t| >= BASE && |t| == BASE + 2 * Vlen(t)
  }

  /** The parameters that are declared; a lone void parameter stands for none. */
  function ParamCount(t: Record): (n: nat)
    requires Kinded(t)
    ensures n <= Vlen(t)
  {
    if Vlen(t) == 0 || (Vlen(t) == 1 && t[ParamWord(0)] == 0) then 0
    else if IsVariadic(t) then Vlen(t) - 1 else Vlen(t)
  }

  /** The C type that BTF type `i` describes. */
  ghost function TypeOf(g: Names, i: nat): CType
    requires g.Id(i)
    decreases g.rank[i]
  {
    LinkShape(g, i);
    var t := g.types[i];
    if !Link(t) then Base([], SpecOf(g, i))
    else
      var u := TypeOf(g, t[NextWord(t)]);
      if Kind(t) == BTF_KIND_PTR then Ptr([], u)
      else if Kind(t) == BTF_KIND_ARRAY then Arr(t[BASE + 2], u)
      else if Kind(t) == BTF_KIND_FUNC_PROTO then
        Fn(u, seq(ParamCount(t), j requires 0 <= j < ParamCount(t) =>
             CParam(g.strOf(t[ParamWord(j) - 1]), TypeOf(g, t[ParamWord(j)]))), IsVariadic(t))
      else AddQuals(u, [QualOf(t)])
  }

  // ---------------------------------------------------------------------------
  // What each kind of type describes

  /** `t` with one more qualifier outside; C has no qualified array or function types. */
  function Qualified(t: CType, q: Qualifier): CType {
    match t
    case Base(ps, s) => Base(ps + [q], s)
    case Ptr(ps, u) => Ptr(ps + [q], u)
    case Arr(n, u) => Arr(n, u)
    case Fn(r, ps, v) => Fn(r, ps, v)
  }

  /** The parameters before a closing void; (void) has none, and a void after others is an ellipsis. */
  function ParamsIn(ps: seq<T.Duo>): nat {
    if ps != [] && ps[|ps| - 1].b == 0 then |ps| - 1 else |ps|
  }

  /** Kinds that a chain may pass through or end in. */
  predicate Describes(t: T.BtfType) {
    !t.Func? && !t.Var? && !t.Datasec? && !t.DeclTag? && !t.TypeTag?
  }

  ghost function DescribedParams(g: Names, t: T.BtfType): seq<CParam>
    requires g.Valid() && |g.rank| == |g.types| && T.IdsBelow(t, |g.types|) && t.FuncProto?
  {
    seq(ParamsIn(t.params), j requires 0 <= j < ParamsIn(t.params) =>
      CParam(g.strOf(t.params[j].a), TypeOf(g, T.Ids(t)[j + 1])))
  }

  /** The C type that a BTF type describes, kind by kind, from what its parts describe. */
  ghost function Described(g: Names, i: nat, t: T.BtfType): CType
    requires g.Valid() && |g.rank| == |g.types| && T.IdsBelow(t, |g.types|) && Describes(t)
  {
    match t
    case Int(_, _, _) => Base([], Plain(g.typeName(i)))
    case Float(_, _) => Base([], Plain(g.typeName(i)))
    case Typedef(_, _) => Base([], Plain(g.typeName(i)))
    case Struct(_, _, _, _) => Base([], Tagged("struct", g.typeName(i)))
    case Union(_, _, _, _) => Base([], Tagged("union", g.typeName(i)))
    case Enum(_, _, _, _) => Base([], Tagged("enum", g.typeName(i)))
    case Enum64(_, _, _, _) => Base([], Tagged("enum", g.typeName(i)))
    case Fwd(_, union, _) => Base([], Tagged(if union then "union" else "struct", g.typeName(i)))
    case Ptr(_, _) => Ptr([], TypeOf(g, T.Ids(t)[0]))
    case Const(_, _) => Qualified(TypeOf(g, T.Ids(t)[0]), Const)
    case Volatile(_, _) => Qualified(TypeOf(g, T.Ids(t)[0]), Volatile)
    case Restrict(_, _) => Qualified(TypeOf(g, T.Ids(t)[0]), Restrict)
    case Array(_, _, _, _, n) => Arr(n, TypeOf(g, T.Ids(t)[0]))
    case FuncProto(_, _, ps) =>
      Fn(TypeOf(g, T.Ids(t)[0]), DescribedParams(g, t), |ps| >= 2 && ParamsIn(ps) < |ps|)
    case _ => Base([], Void)
  }

  lemma VoidIsVoid(g: Names)
    requires g.Id(0)
    ensures TypeOf(g, 0) == Base([], Void)
  {
    LinkShape(g, 0);
  }

  /** Type `i` of the graph is `t`. */
  ghost predicate IsType(g: Names, i: nat, t: T.BtfType, u: u32) {
    g.Id(i) && i != 0 && t.Proper() && g.types[i] == T.Encode(t, u) && Describes(t)
  }

  lemma TypeHeader(g: Names, i: nat, t: T.BtfType, u: u32)
    requires IsType(g, i, t, u)
    ensures T.IdsBelow(t, |g.types|) && |g.types[i]| == 3 + |T.Tail(t)|
    ensures Kind(g.types[i]) == t.Code() && (t.HasList() ==> Vlen(g.types[i]) == t.Count())
    ensures t.HasFlag() ==> (KflagOf(g.types[i][1]) <==> t.kflag)
    ensures g.types[i][2] == t.Third()
  {
    T.BelowIsTyped(t, u, |g.types|);
    T.EncodeWords(t, u);
    T.InfoFields(t, u);
    hide T.Encode, T.Info, KindOf, VlenOf, KflagOf, T.Tail, T.IdsBelow, BtfRecords.IsRef, T.BtfType.Third;
  }

  /** That is what TypeOf says. */
  lemma TypeOfIsDescribed(g: Names, i: nat, t: T.BtfType, u: u32)
    requires IsType(g, i, t, u)
    ensures T.IdsBelow(t, |g.types|) && TypeOf(g, i) == Described(g, i, t)
  {
    TypeHeader(g, i, t, u);
    hide *;
    if t.FuncProto? {
      ProtoDescribed(g, i, t, u);
    } else if t.Ptr? || t.Const? || t.Volatile? || t.Restrict? || t.Array? {
      LinkDescribed(g, i, t, u);
    } else {
      SpecDescribed(g, i, t, u);
    }
  }

  lemma SpecDescribed(g: Names, i: nat, t: T.BtfType, u: u32)
    requires IsType(g, i, t, u) && T.IdsBelow(t, |g.types|)
    requires !(t.FuncProto? || t.Ptr? || t.Const? || t.Volatile? || t.Restrict? || t.Array?)
    ensures TypeOf(g, i) == Described(g, i, t)
  {
    TypeHeader(g, i, t, u);
    LinkShape(g, i);
    hide T.Encode, T.Tail, T.Ids, KindOf, VlenOf, KflagOf, GoodGraph, IsType;
  }

  lemma LinkDescribed(g: Names, i: nat, t: T.BtfType, u: u32)
    requires IsType(g, i, t, u) && T.IdsBelow(t, |g.types|)
    requires t.Ptr? || t.Const? || t.Volatile? || t.Restrict? || t.Array?
    ensures TypeOf(g, i) == Described(g, i, t)
  {
    TypeHeader(g, i, t, u);
    LinkShape(g, i);
    T.EncodeWords(t, u);
    assert T.Ids(t)[0] == if t.Array? then t.elem else t.to;
    assert t.Array? ==> T.Tail(t) == [t.elem, t.index, t.nelems];
    hide T.Encode, T.Tail, T.Ids, KindOf, VlenOf, KflagOf, GoodGraph, IsType;
    assert Link(g.types[i]);
    assert t.Array? ==> g.types[i][3] == t.elem && g.types[i][5] == t.nelems;
  }

  /** The words of a function type. */
  ghost predicate ProtoWords(r: Record, t: T.BtfType) {
    && t.FuncProto? && Kinded(r) && Kind(r) == BTF_KIND_FUNC_PROTO && Vlen(r) == |t.params| == |T.Ids(t)| - 1
    && T.Ids(t)[0] == r[2]
    && forall j :: 0 <= j < |t.params| ==>
         r[ParamWord(j) - 1] == t.params[j].a && r[ParamWord(j)] == t.params[j].b == T.Ids(t)[j + 1]
  }

  lemma ProtoHasWords(g: Names, i: nat, t: T.BtfType, u: u32)
    requires IsType(g, i, t, u) && t.FuncProto?
    ensures ProtoWords(g.types[i], t)
  {
    TypeHeader(g, i, t, u);
    T.ProtoRef(t, 0);
    T.ProtoTail(t);
    var r, ps := g.types[i], t.params;
    assert t.Proper() && r == T.Encode(t, u);
    hide T.Encode, KindOf, VlenOf, KflagOf, IsType, T.Duos, T.Tail, T.Ids, T.RefWords, T.IdsBelow, T.Info;
    forall j | 0 <= j < |ps|
      ensures r[ParamWord(j) - 1] == ps[j].a && r[ParamWord(j)] == ps[j].b == T.Ids(t)[j + 1]
    {
      T.EncodedParam(t, u, j);
      T.ProtoRef(t, j);
    }
  }

  lemma ParamsCounted(r: Record, t: T.BtfType)
    requires ProtoWords(r, t)
    ensures ParamCount(r) == ParamsIn(t.params)
    ensures IsVariadic(r) <==> |t.params| >= 2 && ParamsIn(t.params) < |t.params|
  {
    hide KindOf, VlenOf, T.Ids;
    if |t.params| >= 1 {
      assert r[ParamWord(|t.params| - 1)] == t.params[|t.params| - 1].b;
    }
  }

  lemma ProtoDescribed(g: Names, i: nat, t: T.BtfType, u: u32)
    requires IsType(g, i, t, u) && T.IdsBelow(t, |g.types|) && t.FuncProto?
    ensures TypeOf(g, i) == Described(g, i, t)
  {
    ProtoHasWords(g, i, t, u);
    hide T.Encode, KindOf, VlenOf, GoodGraph, ParamCount, ParamsIn, IsVariadic, T.Ids, T.Tail, DescribedParams;
    ProtoParams(g, i, t);
    hide TypeOf, IsType;
  }

  /** Parameter `j` of the function type that `i` describes, if it has that many. */
  lemma ProtoType(g: Names, i: nat, j: nat)
    requires g.Id(i) && Kind(g.types[i]) == BTF_KIND_FUNC_PROTO
    ensures Kinded(g.types[i]) && g.Id(g.types[i][2]) && TypeOf(g, i).Fn?
    ensures var r, f := g.types[i], TypeOf(g, i);
            && f.ret == TypeOf(g, r[2]) && |f.params| == ParamCount(r) && (f.variadic <==> IsVariadic(r))
            && (j < ParamCount(r) ==>
                  && g.Id(r[ParamWord(j)])
                  && f.params[j] == CParam(g.strOf(r[ParamWord(j) - 1]), TypeOf(g, r[ParamWord(j)])))
  {
    LinkShape(g, i);
    hide ParamCount, IsVariadic, KindOf, VlenOf;
  }

  lemma ProtoParams(g: Names, i: nat, t: T.BtfType)
    requires g.Id(i) && T.IdsBelow(t, |g.types|) && ProtoWords(g.types[i], t)
    ensures var f := TypeOf(g, i);
            && f.Fn? && f.ret == TypeOf(g, T.Ids(t)[0]) && f.params == DescribedParams(g, t)
            && (f.variadic <==> |t.params| >= 2 && ParamsIn(t.params) < |t.params|)
  {
    ParamsCounted(g.types[i], t);
    ProtoType(g, i, 0);
    hide KindOf, VlenOf, GoodGraph, TypeOf, ParamCount, ParamsIn, IsVariadic, T.Ids, Names.Valid, DescribedParams;
    var ps, qs := TypeOf(g, i).params, DescribedParams(g, t);
    DescribedLength(g, t);
    forall j | 0 <= j < |ps|
      ensures ps[j] == qs[j]
    {
      SameParam(g, i, t, j);
    }
  }

  lemma DescribedLength(g: Names, t: T.BtfType)
    requires g.Valid() && |g.rank| == |g.types| && T.IdsBelow(t, |g.types|) && t.FuncProto?
    ensures |DescribedParams(g, t)| == ParamsIn(t.params)
  {
  }

  lemma SameParam(g: Names, i: nat, t: T.BtfType, j: nat)
    requires g.Id(i) && T.IdsBelow(t, |g.types|) && ProtoWords(g.types[i], t) && j < ParamsIn(t.params)
    ensures TypeOf(g, i).Fn? && j < |TypeOf(g, i).params| && j < |DescribedParams(g, t)|
    ensures TypeOf(g, i).params[j] == DescribedParams(g, t)[j]
  {
    ParamsCounted(g.types[i], t);
    ProtoType(g, i, j);
    hide KindOf, VlenOf, GoodGraph, TypeOf, ParamCount, ParamsIn, IsVariadic, T.Ids, Names.Valid;
  }

  /** What can be printed: void, named types, and links to what can be printed. */
  lemma PrintableIsDescribed(g: Names, i: nat, t: T.BtfType, u: u32)
    requires IsType(g, i, t, u)
    ensures T.IdsBelow(t, |g.types|)
    ensures Printable(g, i) <==>
              if t.Ptr? || t.Const? || t.Volatile? || t.Restrict? || t.Array? then Printable(g, T.Ids(t)[0])
              else if t.FuncProto? then forall k :: 0 <= k < |T.Ids(t)| ==> Printable(g, T.Ids(t)[k])
              else t.name != 0
  {
    TypeHeader(g, i, t, u);
    LinkShape(g, i);
    hide T.Encode, KindOf, VlenOf, KflagOf, GoodGraph;
    if t.FuncProto? {
      ProtoHasWords(g, i, t, u);
      hide T.Tail, T.Ids, T.RefWords, IsType;
      ProtoPrintable(g, i, t);
    } else {
      assert t.Array? ==> T.Tail(t) == [t.elem, t.index, t.nelems];
      T.EncodeWords(t, u);
      hide T.Tail;
    }
  }

  lemma ProtoPrintable(g: Names, i: nat, t: T.BtfType)
    requires g.Id(i) && T.IdsBelow(t, |g.types|) && ProtoWords(g.types[i], t)
    ensures Printable(g, i) <==> forall k :: 0 <= k < |T.Ids(t)| ==> Printable(g, T.Ids(t)[k])
  {
    LinkShape(g, i);
    var r := g.types[i];
    hide T.Ids, KindOf, VlenOf, GoodGraph;
    forall k | 0 <= k < |T.Ids(t)|
      ensures T.Ids(t)[k] == if k == 0 then r[2] else r[ParamWord(k - 1)]
    {
      assert k > 0 ==> T.Ids(t)[(k - 1) + 1] == r[ParamWord(k - 1)];
    }
    if Printable(g, i) {
      forall k | 0 <= k < |T.Ids(t)|
        ensures Printable(g, T.Ids(t)[k])
      {
        assert k > 0 ==> Printable(g, r[ParamWord(k - 1)]);
      }
    }
    if forall k :: 0 <= k < |T.Ids(t)| ==> Printable(g, T.Ids(t)[k]) {
      forall j | 0 <= j < Vlen(r)
        ensures Printable(g, r[ParamWord(j)])
      {
        assert Printable(g, T.Ids(t)[j + 1]);
      }
      assert Printable(g, T.Ids(t)[0]);
    }
  }

  /** The declaration of `name` with BTF type `i`. */
  ghost function DeclOf(g: Names, i: nat, name: string): Decl
    requires g.Id(i)
  {
    ToDecl(TypeOf(g, i), Name(name))
  }

  ghost function ParamDecls(g: Names, i: nat): (ps: seq<Decl>)
    requires g.Id(i) && Kind(g.types[i]) == BTF_KIND_FUNC_PROTO
    ensures Kinded(g.types[i]) && |ps| == ParamCount(g.types[i])
  {
    LinkShape(g, i);
    var t := g.types[i];
    seq(ParamCount(t), j requires 0 <= j < ParamCount(t) => DeclOf(g, t[ParamWord(j)], g.strOf(t[ParamWord(j) - 1])))
  }

  // ---------------------------------------------------------------------------
  // Declarations of BTF types are canonical

  ghost predicate CanonType(t: CType)
    decreases t
  {
    match t
    case Base(_, _) => true
    case Ptr(_, u) => CanonType(u)
    case Arr(_, u) => CanonType(u)
    case Fn(r, ps, v) =>
      && CanonType(r) && (v ==> ps != []) && (!v ==> ps != [CParam("", Base([], Void))])
      && forall i :: 0 <= i < |ps| ==> CanonType(ps[i].t)
  }

  lemma {:induction false} TypeOfCanon(g: Names, i: nat)
    requires g.Id(i)
    ensures CanonType(TypeOf(g, i))
    ensures TypeOf(g, i) == Base([], Void) ==> i == 0
    decreases g.rank[i]
  {
    LinkShape(g, i);
    var t := g.types[i];
    if Link(t) {
      TypeOfCanon(g, t[NextWord(t)]);
      if Kind(t) == BTF_KIND_FUNC_PROTO {
        forall j | 0 <= j < Vlen(t)
          ensures CanonType(TypeOf(g, t[ParamWord(j)]))
          ensures TypeOf(g, t[ParamWord(j)]) == Base([], Void) ==> t[ParamWord(j)] == 0
        {
          TypeOfCanon(g, t[ParamWord(j)]);
        }
        var ps := TypeOf(g, i).params;
        if |ps| == 1 {
          assert ps[0].t == TypeOf(g, t[ParamWord(0)]);
        }
      }
    }
  }

  lemma {:induction false} ToDeclCanon(t: CType, d: Declr)
    requires CanonType(t) && CanonD(d)
    ensures Canon(ToDecl(t, d))
    ensures ToDecl(t, d) == Decl([], Void, Name("")) ==> t == Base([], Void) && d == Name("")
    decreases t
  {
    match t
    case Base(_, _) =>
    case Ptr(qs, u) => ToDeclCanon(u, PtrD(qs, d));
    case Arr(n, u) => ToDeclCanon(u, ArrD(d, n));
    case Fn(r, ps, v) =>
      var ds := seq(|ps|, i requires 0 <= i < |ps| => ToDecl(ps[i].t, Name(ps[i].name)));
      forall i | 0 <= i < |ps|
        ensures Canon(ds[i])
        ensures ds[i] == Decl([], Void, Name("")) ==> ps[i] == CParam("", Base([], Void))
      {
        ToDeclCanon(ps[i].t, Name(ps[i].name));
      }
      if ds == [Decl([], Void, Name(""))] {
        assert ds[0] == Decl([], Void, Name(""));
        assert ps == [CParam("", Base([], Void))];
      }
      ToDeclCanon(r, FnD(d, ds, v));
  }

  /**
   * Parsing the text printed for BTF type `i` gives back its name and type, with qualifiers in
   * their order from the inside out, and no two words of the text touch.
   */
  lemma PrintedParsesBack(g: Names, i: nat, name: string)
    requires g.Id(i)
    ensures var text := PrintDecl(DeclOf(g, i, name));
            && Apart(false, text)
            && ParseDecl(Strip(text)) == Success(DeclOf(g, i, name), [])
            && Declares(DeclOf(g, i, name)) == CParam(name, TypeOf(g, i))
  {
    var c := DeclOf(g, i, name);
    TypeOfCanon(g, i);
    ToDeclCanon(TypeOf(g, i), Name(name));
    ToDeclMeans(TypeOf(g, i), Name(name));
    StripPrintDecl(c);
    DeclParse(c, []);
    assert BareDecl(c) + [] == BareDecl(c);
    ApartDecl(c);
  }

  // ---------------------------------------------------------------------------
  // Chains, outermost type first, as they lie on the declaration stack

  ghost predicate IsChain(g: Names, ids: seq<nat>) {
    && g.Valid()
    && (forall k :: 0 <= k < |ids| ==> ids[k] < |g.types|)
    && (forall k :: 0 <= k < |ids| - 1 ==> Leads(g, ids[k], ids[k + 1]))
  }

  ghost predicate Leads(g: Names, a: nat, b: nat) {
    g.Id(a) && Link(g.types[a]) && NextWord(g.types[a]) < |g.types[a]| && g.types[a][NextWord(g.types[a])] == b
  }

  /** The declarator that the outer types `ids` make of `name`, and qualifiers for what comes next. */
  ghost function Fold(g: Names, ids: seq<nat>, name: string): (r: (Declr, seq<Qualifier>))
    requires IsChain(g, ids)
    ensures NameOf(r.0) == name
  {
    if ids == [] then (Name(name), [])
    else FoldOnce(g, ids[|ids| - 1], Fold(g, ids[..|ids| - 1], name))
  }

  /** What type `i` adds to the declarator and the qualifiers of the types outside it. */
  ghost function FoldOnce(g: Names, i: nat, r: (Declr, seq<Qualifier>)): (r': (Declr, seq<Qualifier>))
    requires g.Id(i)
    ensures NameOf(r'.0) == NameOf(r.0)
  {
    LinkShape(g, i);
    var t := g.types[i];
    if Kind(t) == BTF_KIND_PTR then (PtrD(r.1, r.0), [])
    else if Kind(t) == BTF_KIND_ARRAY then (ArrD(r.0, t[BASE + 2]), [])
    else if Kind(t) == BTF_KIND_FUNC_PROTO then (FnD(r.0, ParamDecls(g, i), IsVariadic(t)), [])
    else if Link(t) then (r.0, [QualOf(t)] + r.1)
    else r
  }

  /** A chain declares the same as its inner end under the declarator of its outer types. */
  lemma {:induction false} FoldMeans(g: Names, ids: seq<nat>, n: nat, name: string)
    requires IsChain(g, ids) && n < |ids|
    ensures IsChain(g, ids[..n])
    ensures var r := Fold(g, ids[..n], name);
            DeclOf(g, ids[0], name) == ToDecl(AddQuals(TypeOf(g, ids[n]), r.1), r.0)
  {
    ChainPrefix(g, ids, n);
    AddNone(TypeOf(g, ids[0]));
    hide TypeOf, ToDecl, AddQuals, FoldOnce, GoodGraph, Leads;
    if n > 0 {
      FoldMeans(g, ids, n - 1, name);
      assert ids[..n][..n - 1] == ids[..n - 1];
      FoldStep(g, ids[n - 1], ids[n], Fold(g, ids[..n - 1], name));
    }
  }

  lemma ChainPrefix(g: Names, ids: seq<nat>, n: nat)
    requires IsChain(g, ids) && n < |ids|
    ensures IsChain(g, ids[..n]) && g.Id(ids[n])
    ensures n > 0 ==> Leads(g, ids[n - 1], ids[n])
  {
    hide Leads;
    forall k | 0 <= k < n - 1
      ensures Leads(g, ids[..n][k], ids[..n][k + 1])
    {
      assert Leads(g, ids[k], ids[k + 1]);
    }
    if n > 0 {
      var k := n - 1;
      assert Leads(g, ids[k], ids[k + 1]);
    }
  }

  lemma AddNone(t: CType)
    ensures AddQuals(t, []) == t
  {
  }

  lemma FoldStep(g: Names, i: nat, j: nat, r: (Declr, seq<Qualifier>))
    requires g.Id(i) && g.Id(j) && Leads(g, i, j)
    ensures var r' := FoldOnce(g, i, r);
            ToDecl(AddQuals(TypeOf(g, i), r.1), r.0) == ToDecl(AddQuals(TypeOf(g, j), r'.1), r'.0)
  {
    LinkShape(g, i);
    var t, u := g.types[i], TypeOf(g, j);
    AddNone(u);
    if IsModKind(Kind(t)) {
      AddMore(u, QualOf(t), r.1);
    } else if Kind(t) == BTF_KIND_FUNC_PROTO {
      ProtoDecl(g, i, r.0);
    } else if Kind(t) == BTF_KIND_PTR {
      assert [] + r.1 == r.1;
    }
  }

  lemma AddMore(u: CType, q: Qualifier, qs: seq<Qualifier>)
    ensures AddQuals(AddQuals(u, [q]), qs) == AddQuals(u, [q] + qs)
  {
    match u
    case Base(ps, _) => assert ps + [q] + qs == ps + ([q] + qs);
    case Ptr(ps, _) => assert ps + [q] + qs == ps + ([q] + qs);
    case Arr(_, _) =>
    case Fn(_, _, _) =>
  }

  lemma ProtoDecl(g: Names, i: nat, d: Declr)
    requires g.Id(i) && Kind(g.types[i]) == BTF_KIND_FUNC_PROTO
    ensures Kinded(g.types[i]) && g.types[i][2] < |g.types|
    ensures ToDecl(TypeOf(g, i), d)
         == ToDecl(TypeOf(g, g.types[i][2]), FnD(d, ParamDecls(g, i), IsVariadic(g.types[i])))
  {
    LinkShape(g, i);
    var ps := TypeOf(g, i).params;
    assert seq(|ps|, k requires 0 <= k < |ps| => ToDecl(ps[k].t, Name(ps[k].name))) == ParamDecls(g, i);
  }

  /** The text that is still to come when the types `ids` are left to be popped. */
  ghost function Remaining(g: Names, ids: seq<nat>, name: string, afterPtr: bool): seq<Tok>
    requires IsChain(g, ids)
  {
    if ids != [] && !Link(g.types[ids[|ids| - 1]]) then
      var (d, qs) := Fold(g, ids[..|ids| - 1], name);
      PrintDecl(Decl(qs, SpecOf(g, ids[|ids| - 1]), d))
    else
      var (d, qs) := Fold(g, ids, name);
      QualsAfter(qs) + PrintD(d, afterPtr && qs == [])
  }

  /** A chain of links only: nothing but a declarator is left. */
  ghost predicate OnlyLinks(g: Names, ids: seq<nat>) {
    IsChain(g, ids) && forall k :: 0 <= k < |ids| ==> Link(g.types[ids[k]])
  }

  /** The innermost type is no qualifier, so none is pending. */
  ghost predicate NoQuals(g: Names, ids: seq<nat>) {
    IsChain(g, ids) && (ids != [] ==> !IsModKind(Kind(g.types[ids[|ids| - 1]])))
  }

  lemma ChainPop(g: Names, ids: seq<nat>)
    requires IsChain(g, ids) && ids != []
    ensures OnlyLinks(g, ids[..|ids| - 1])
    ensures g.Id(ids[|ids| - 1])
  {
    var rest := ids[..|ids| - 1];
    forall k | 0 <= k < |rest|
      ensures Link(g.types[rest[k]])
    {
      assert Leads(g, ids[k], ids[k + 1]);
    }
  }

  lemma RemainingEmpty(g: Names, name: string, afterPtr: bool)
    requires g.Valid()
    ensures IsChain(g, []) && Remaining(g, [], name, afterPtr) == PrintName(name, afterPtr)
  {
  }

  /** Text of a whole chain. */
  lemma RemainingWhole(g: Names, ids: seq<nat>, name: string)
    requires IsChain(g, ids) && ids != [] && !Link(g.types[ids[|ids| - 1]])
    ensures Remaining(g, ids, name, true) == PrintDecl(DeclOf(g, ids[0], name))
  {
    hide Fold, PrintDecl;
    var n := |ids| - 1;
    FoldMeans(g, ids, n, name);
    LinkShape(g, ids[n]);
    var qs := Fold(g, ids[..n], name).1;
    assert [] + qs == qs;
  }

  lemma TakeSpec(g: Names, ids: seq<nat>, name: string, afterPtr: bool)
    requires IsChain(g, ids) && ids != [] && !Link(g.types[ids[|ids| - 1]])
    ensures var rest := ids[..|ids| - 1];
            IsChain(g, rest) &&
            var (d, qs) := Fold(g, rest, name);
            Remaining(g, ids, name, afterPtr) == QualsBefore(qs) + [Spec(SpecOf(g, ids[|ids| - 1]))] + PrintD(d, false)
  {
  }

  lemma TakePtr(g: Names, ids: seq<nat>, name: string, afterPtr: bool)
    requires IsChain(g, ids) && ids != [] && Kind(g.types[ids[|ids| - 1]]) == BTF_KIND_PTR
    ensures var rest := ids[..|ids| - 1];
            IsChain(g, rest) && OnlyLinks(g, rest) &&
            Remaining(g, ids, name, afterPtr)
            == (if afterPtr then [Star] else [Space, Star]) + Remaining(g, rest, name, true)
  {
    FoldPtr(g, ids, name);
    var rest := ids[..|ids| - 1];
    hide Fold, QualsAfter, OnlyLinks, Remaining, IsChain, PrintD;
    var (d, qs) := Fold(g, rest, name);
    LinksRemain(g, ids, name, afterPtr);
    LinksRemain(g, rest, name, true);
    PrintPtr(qs, d, afterPtr);
  }

  lemma PrintPtr(qs: seq<Qualifier>, d: Declr, afterPtr: bool)
    ensures QualsAfter([]) + PrintD(PtrD(qs, d), afterPtr)
         == (if afterPtr then [Star] else [Space, Star]) + (QualsAfter(qs) + PrintD(d, qs == []))
  {
  }

  lemma FoldPtr(g: Names, ids: seq<nat>, name: string)
    requires IsChain(g, ids) && ids != [] && Kind(g.types[ids[|ids| - 1]]) == BTF_KIND_PTR
    ensures var rest := ids[..|ids| - 1];
            OnlyLinks(g, ids) && OnlyLinks(g, rest) &&
            var (d, qs) := Fold(g, rest, name);
            Fold(g, ids, name) == (PtrD(qs, d), [])
  {
    ChainPop(g, ids);
  }

  lemma LinksRemain(g: Names, ids: seq<nat>, name: string, afterPtr: bool)
    requires OnlyLinks(g, ids)
    ensures var (d, qs) := Fold(g, ids, name);
            Remaining(g, ids, name, afterPtr) == QualsAfter(qs) + PrintD(d, afterPtr && qs == [])
  {
  }

  lemma TakeQual(g: Names, ids: seq<nat>, name: string, afterPtr: bool)
    requires IsChain(g, ids) && ids != [] && IsModKind(Kind(g.types[ids[|ids| - 1]]))
    ensures var rest := ids[..|ids| - 1];
            IsChain(g, rest) && OnlyLinks(g, rest) &&
            Remaining(g, ids, name, afterPtr)
            == [Space, Qual(QualOf(g.types[ids[|ids| - 1]]))] + Remaining(g, rest, name, false)
  {
    FoldQual(g, ids, name);
    var rest, q := ids[..|ids| - 1], QualOf(g.types[ids[|ids| - 1]]);
    hide Fold, QualsAfter, OnlyLinks, Remaining, IsChain, PrintD, QualOf;
    var (d, qs) := Fold(g, rest, name);
    LinksRemain(g, ids, name, afterPtr);
    LinksRemain(g, rest, name, false);
    PrintQual(q, qs, d);
  }

  lemma PrintQual(q: Qualifier, qs: seq<Qualifier>, d: Declr)
    ensures QualsAfter([q] + qs) + PrintD(d, false) == [Space, Qual(q)] + (QualsAfter(qs) + PrintD(d, false))
  {
    assert ([q] + qs)[1..] == qs;
  }

  /** With no qualifier pending, what remains is the declarator. */
  lemma {:induction false} NoQualsFold(g: Names, ids: seq<nat>, name: string, afterPtr: bool)
    requires OnlyLinks(g, ids) && NoQuals(g, ids)
    ensures Fold(g, ids, name).1 == []
    ensures Remaining(g, ids, name, afterPtr) == PrintD(Fold(g, ids, name).0, afterPtr)
    ensures ids == [] <==> Fold(g, ids, name).0.Name?
    ensures ids != [] ==> (Fold(g, ids, name).0.ArrD? <==> Kind(g.types[ids[|ids| - 1]]) == BTF_KIND_ARRAY)
  {
    var (d, qs) := Fold(g, ids, name);
    assert QualsAfter([]) + PrintD(d, afterPtr) == PrintD(d, afterPtr);
  }

  /** Popping a qualifier leaves the declarator alone. */
  lemma FoldQual(g: Names, ids: seq<nat>, name: string)
    requires IsChain(g, ids) && ids != [] && IsModKind(Kind(g.types[ids[|ids| - 1]]))
    ensures var rest := ids[..|ids| - 1];
            OnlyLinks(g, ids) && OnlyLinks(g, rest) &&
            var (d, qs) := Fold(g, rest, name);
            Fold(g, ids, name) == (d, [QualOf(g.types[ids[|ids| - 1]])] + qs)
  {
    ChainPop(g, ids);
  }

  /** An array's text: what the outer types, stripped of qualifiers, leave to print, and its bound. */
  lemma TakeArray(g: Names, ids: seq<nat>, name: string, afterPtr: bool)
    requires OnlyLinks(g, ids) && ids != [] && Kind(g.types[ids[|ids| - 1]]) == BTF_KIND_ARRAY
    ensures |g.types[ids[|ids| - 1]]| == BASE + 3
    ensures var rest := ids[..|ids| - 1];
            IsChain(g, rest) &&
            Remaining(g, ids, name, afterPtr)
            == PrintD(ArrD(Fold(g, rest, name).0, g.types[ids[|ids| - 1]][BASE + 2]), afterPtr)
  {
    LinkShape(g, ids[|ids| - 1]);
    ChainPop(g, ids);
    NoQualsFold(g, ids, name, afterPtr);
  }

  lemma TakeProto(g: Names, ids: seq<nat>, name: string, afterPtr: bool)
    requires OnlyLinks(g, ids) && ids != [] && Kind(g.types[ids[|ids| - 1]]) == BTF_KIND_FUNC_PROTO
    ensures Kinded(g.types[ids[|ids| - 1]])
    ensures var rest, i := ids[..|ids| - 1], ids[|ids| - 1];
            IsChain(g, rest) &&
            Remaining(g, ids, name, afterPtr)
            == PrintD(FnD(Fold(g, rest, name).0, ParamDecls(g, i), IsVariadic(g.types[i])), afterPtr)
  {
    LinkShape(g, ids[|ids| - 1]);
    ChainPop(g, ids);
    NoQualsFold(g, ids, name, afterPtr);
  }
}

/** btf_dump_emit_type_decl and btf_dump_emit_type_chain. */
module DumpDecl {
  import opened Words
  import opened BtfRecords
  import opened DeclSpec
  import opened DeclGraph

  /** struct id_stack: a view of one chain's frame in the shared stack. */
  class IdStack {
    const ids: seq<nat>
    var cnt: nat

    constructor (ids: seq<nat>)
      ensures this.ids == ids && cnt == |ids|
    {
      this.ids, cnt := ids, |ids|;
    }

    ghost predicate Valid(g: Names)
      reads this
    {
      cnt <= |ids| && IsChain(g, ids[..cnt])
    }

    ghost function Left(): seq<nat>
      requires cnt <= |ids|
      reads this
    {
      ids[..cnt]
    }
  }

  class DeclPrinter {
    ghost const g: Names
    const types: seq<Record>
    const typeName: nat -> string
    const strOf: u32 -> string
    var declStack: seq<nat>
    var out: seq<Tok>

    ghost predicate Valid() {
      g.Valid() && g.types == types && g.typeName == typeName && g.strOf == strOf
    }

    constructor (types: seq<Record>, ghost rank: seq<nat>, typeName: nat -> string, strOf: u32 -> string)
      requires Names(types, rank, typeName, strOf).Valid()
      ensures Valid() && g == Names(types, rank, typeName, strOf) && declStack == [] && out == []
    {
      g := Names(types, rank, typeName, strOf);
      this.types, this.typeName, this.strOf, declStack, out := types, typeName, strOf, [], [];
    }

    method Emit(s: seq<Tok>)
      modifies this`out
      ensures out == old(out) + s
    {
      out := out + s;
    }

    /** btf_dump_emit_mods: prints the qualifiers on top of the stack and pops them. */
    method EmitMods(decls: IdStack, ghost name: string)
      requires Valid() && decls.Valid(g) && OnlyLinks(g, decls.Left())
      modifies this`out, decls
      ensures decls.Valid(g) && decls.cnt <= old(decls.cnt)
      ensures OnlyLinks(g, decls.Left()) && NoQuals(g, decls.Left())
      ensures Fold(g, decls.Left(), name).0 == Fold(g, old(decls.Left()), name).0
      ensures out == old(out) + QualsBefore(Fold(g, old(decls.Left()), name).1)
    {
      hide Fold, OnlyLinks, NoQuals, Names.Valid, QualsBefore;
      ghost var v0 := decls.Left();
      while decls.cnt > 0
        invariant decls.Valid(g) && decls.cnt <= |v0| && OnlyLinks(g, decls.Left())
        invariant Fold(g, decls.Left(), name).0 == Fold(g, v0, name).0
        invariant out + QualsBefore(Fold(g, decls.Left(), name).1) == old(out) + QualsBefore(Fold(g, v0, name).1)
      {
        ghost var v := decls.Left();
        var id := decls.ids[decls.cnt - 1];
        LastIs(g, decls.ids, decls.cnt);
        var t := types[id];
        if !IsModKind(Kind(t)) {
          NotQual(g, v, name);
          return;
        }
        FoldQual(g, v, name);
        QualsBeforeCons(QualOf(t), Fold(g, v[..|v| - 1], name).1);
        Emit([Qual(QualOf(t)), Space]);
        decls.cnt := decls.cnt - 1;
        assert decls.Left() == v[..|v| - 1];
      }
      NotQual(g, decls.Left(), name);
    }

    /** btf_dump_drop_mods: pops the qualifiers on top of the stack without printing them. */
    method DropMods(decls: IdStack, ghost name: string)
      requires Valid() && decls.Valid(g) && OnlyLinks(g, decls.Left())
      modifies decls
      ensures decls.Valid(g) && decls.cnt <= old(decls.cnt)
      ensures OnlyLinks(g, decls.Left()) && NoQuals(g, decls.Left())
      ensures Fold(g, decls.Left(), name).0 == Fold(g, old(decls.Left()), name).0
    {
      hide Fold, OnlyLinks, NoQuals, Names.Valid;
      ghost var v0 := decls.Left();
      while decls.cnt > 0
        invariant decls.Valid(g) && decls.cnt <= |v0| && OnlyLinks(g, decls.Left())
        invariant Fold(g, decls.Left(), name).0 == Fold(g, v0, name).0
      {
        ghost var v := decls.Left();
        var id := decls.ids[decls.cnt - 1];
        LastIs(g, decls.ids, decls.cnt);
        if !IsModKind(Kind(types[id])) {
          NotQual(g, v, name);
          return;
        }
        FoldQual(g, v, name);
        decls.cnt := decls.cnt - 1;
        assert decls.Left() == v[..|v| - 1];
      }
      NotQual(g, decls.Left(), name);
    }

    /** btf_dump_emit_name */
    method EmitName(name: string, lastWasPtr: bool)
      modifies this`out
      ensures out == old(out) + PrintName(name, lastWasPtr)
    {
      if name != "" && !lastWasPtr {
        Emit([Space]);
      }
      if name != "" {
        Emit([Ident(name)]);
      }
    }

    /** The types left on the view can be printed, and rank no higher than `top`. */
    ghost predicate Fits(decls: IdStack, top: nat)
      requires Valid()
      reads decls
    {
      && decls.Valid(g)
      && forall k :: 0 <= k < decls.cnt ==>
           g.Id(decls.ids[k]) && Printable(g, decls.ids[k]) && g.rank[decls.ids[k]] <= top
    }

    /** The innermost type of the view starts the declaration, or the specifiers are printed already. */
    ghost predicate Ready(decls: IdStack)
      requires Valid() && decls.Valid(g)
      reads decls
    {
      decls.cnt > 0 && Link(g.types[decls.ids[decls.cnt - 1]]) ==> OnlyLinks(g, decls.Left())
    }

    /** The specifiers: qualifiers next to the chain's end, then its name. */
    method EmitSpec(decls: IdStack, id: nat, fname: string, ghost v: seq<nat>, ghost afterPtr: bool)
      requires Valid() && IsChain(g, v) && v != [] && id == v[|v| - 1] && !Link(g.types[id])
      requires decls.Valid(g) && decls.Left() == v[..|v| - 1]
      modifies this`out, decls
      ensures decls.Valid(g) && decls.cnt <= old(decls.cnt) && OnlyLinks(g, decls.Left())
      ensures out + Remaining(g, decls.Left(), fname, false) == old(out) + Remaining(g, v, fname, afterPtr)
    {
      ChainPop(g, v);
      LinkShape(g, id);
      TakeSpec(g, v, fname, afterPtr);
      hide Fold, Remaining, PrintD, OnlyLinks, NoQuals, Names.Valid, QualsBefore, SpecFor, IsChain, Link;
      ghost var out0, r := out, Fold(g, decls.Left(), fname);
      EmitMods(decls, fname);
      NoQualsFold(g, decls.Left(), fname, false);
      var spec := SpecFor(types[id], id, typeName(id));
      Emit([Spec(spec)]);
      Join(out0, QualsBefore(r.1), [Spec(spec)], PrintD(r.0, false));
    }

    /** btf_dump_emit_type_decl: the shared stack is left as it was found. */
    method EmitTypeDecl(id: nat, fname: string)
      requires Valid() && g.Id(id) && Printable(g, id)
      modifies this`out, this`declStack
      ensures out == old(out) + PrintDecl(DeclOf(g, id, fname))
      ensures declStack == old(declStack)
      decreases g.rank[id], 1, 0, 0
    {
      var stackStart := |declStack|;
      ghost var ids := PushChain(id);
      hide Fold, PrintD, PrintDecl, Names.Valid;
      var decls := new IdStack(declStack[stackStart..]);
      assert decls.Left() == ids;
      RemainingWhole(g, ids, fname);
      EmitTypeChain(decls, fname, g.rank[id]);
      declStack := declStack[..stackStart];
    }

    /** The loop that pushes a chain, from `id` to the type that ends it. */
    method PushChain(id: nat) returns (ghost ids: seq<nat>)
      requires Valid() && g.Id(id) && Printable(g, id)
      modifies this`declStack
      ensures declStack == old(declStack) + ids
      ensures IsChain(g, ids) && ids != [] && ids[0] == id && !Link(g.types[ids[|ids| - 1]])
      ensures forall k :: 0 <= k < |ids| ==> g.Id(ids[k]) && Printable(g, ids[k]) && g.rank[ids[k]] <= g.rank[id]
    {
      hide Names.Valid, Printable;
      var cur := id;
      declStack := declStack + [cur];
      ids := [cur];
      LinkShape(g, cur);
      while cur != 0 && IsLink(Kind(types[cur]))
        invariant declStack == old(declStack) + ids && IsChain(g, ids) && ids != []
        invariant ids[0] == id && ids[|ids| - 1] == cur && g.Id(cur) && |types[cur]| >= BASE
        invariant forall k :: 0 <= k < |ids| ==> g.Id(ids[k]) && Printable(g, ids[k]) && g.rank[ids[k]] <= g.rank[id]
        decreases g.rank[cur]
      {
        LinkShape(g, cur);
        PrintableNext(g, cur);
        var next := types[cur][NextWord(types[cur])];
        assert Leads(g, cur, next);
        cur := next;
        declStack := declStack + [cur];
        ids := ids + [cur];
        LinkShape(g, cur);
      }
      LinkShape(g, cur);
    }

    /** btf_dump_emit_type_chain: prints and pops everything on the view. */
    method EmitTypeChain(decls: IdStack, fname: string, ghost top: nat)
      requires Valid() && Fits(decls, top) && Ready(decls)
      modifies this`out, this`declStack, decls
      ensures decls.cnt == 0 && declStack == old(declStack)
      ensures out == old(out) + Remaining(g, old(decls.Left()), fname, true)
      decreases top, 0, decls.cnt, 0
    {
      hide Fold, Remaining, PrintD, OnlyLinks, NoQuals, Names.Valid, Printable, SpecFor, QualOf, PrintName, ParamDecls,
           IsVariadic;
      ghost var v0, out0 := decls.Left(), out;
      var lastWasPtr := true;
      while decls.cnt > 0
        invariant Fits(decls, top) && Ready(decls) && decls.cnt <= |v0| && declStack == old(declStack)
        invariant out + Remaining(g, decls.Left(), fname, lastWasPtr) == out0 + Remaining(g, v0, fname, true)
        decreases decls.cnt
      {
        ghost var v := decls.Left();
        var id := decls.ids[decls.cnt - 1];
        LastIs(g, decls.ids, decls.cnt);
        ChainPop(g, v);
        LinkShape(g, id);
        decls.cnt := decls.cnt - 1;
        assert decls.Left() == v[..|v| - 1];
        var t := types[id];
        var kind := Kind(t);
        if id == 0 || !IsLink(kind) {
          EmitSpec(decls, id, fname, v, lastWasPtr);
          lastWasPtr := false;
        } else if kind == BTF_KIND_PTR {
          TakePtr(g, v, fname, lastWasPtr);
          var star := if lastWasPtr then [Star] else [Space, Star];
          Assoc(out, star, Remaining(g, decls.Left(), fname, true));
          Emit(star);
          lastWasPtr := true;
        } else if IsModKind(kind) {
          TakeQual(g, v, fname, lastWasPtr);
          Assoc(out, [Space, Qual(QualOf(t))], Remaining(g, decls.Left(), fname, false));
          Emit([Space, Qual(QualOf(t))]);
          lastWasPtr := false;
        } else if kind == BTF_KIND_ARRAY {
          TakeArray(g, v, fname, lastWasPtr);
          EmitArray(decls, t[BASE + 2], fname, lastWasPtr, top);
          return;
        } else {
          TakeProto(g, v, fname, lastWasPtr);
          EmitFuncProto(decls, id, fname, lastWasPtr, top);
          return;
        }
      }
      RemainingEmpty(g, fname, lastWasPtr);
      EmitName(fname, lastWasPtr);
    }

    /** The array case. */
    method EmitArray(decls: IdStack, nelems: nat, fname: string, lastWasPtr: bool, ghost top: nat)
      requires Valid() && Fits(decls, top) && OnlyLinks(g, decls.Left())
      modifies this`out, this`declStack, decls
      ensures decls.cnt == 0 && declStack == old(declStack)
      ensures out == old(out) + PrintD(ArrD(Fold(g, old(decls.Left()), fname).0, nelems), lastWasPtr)
      decreases top, 0, decls.cnt, 2
    {
      hide Fold, Remaining, OnlyLinks, NoQuals, Names.Valid, Printable, PrintD, IsChain, ArrSpace, ArrInner;
      ghost var d, out0 := Fold(g, decls.Left(), fname).0, out;
      PrintArr(d, nelems, lastWasPtr);
      DropMods(decls, fname);
      if decls.cnt == 0 {
        NoQualsFold(g, decls.Left(), fname, true);
        EmitName(fname, lastWasPtr);
        Emit([LBracket, Num(nelems), RBracket]);
        return;
      }
      EmitArrayOuter(decls, fname, lastWasPtr, top);
      Emit([LBracket, Num(nelems), RBracket]);
      Join(out0, ArrSpace(d, lastWasPtr), ArrInner(d), [LBracket, Num(nelems), RBracket]);
    }

    /** The outer types of an array: in parentheses, unless the next one is an array. */
    method EmitArrayOuter(decls: IdStack, fname: string, lastWasPtr: bool, ghost top: nat)
      requires Valid() && Fits(decls, top) && OnlyLinks(g, decls.Left()) && NoQuals(g, decls.Left()) && decls.cnt > 0
      modifies this`out, this`declStack, decls
      ensures decls.cnt == 0 && declStack == old(declStack)
      ensures var d := Fold(g, old(decls.Left()), fname).0;
              !d.Name? && out == old(out) + ArrSpace(d, lastWasPtr) + ArrInner(d)
      decreases top, 0, decls.cnt, 1
    {
      hide Fold, Remaining, OnlyLinks, NoQuals, Names.Valid, Printable, PrintD, IsChain;
      ghost var d, out0 := Fold(g, decls.Left(), fname).0, out;
      NoQualsFold(g, decls.Left(), fname, true);
      var nextId := decls.ids[decls.cnt - 1];
      LastIs(g, decls.ids, decls.cnt);
      var multidim := Kind(types[nextId]) == BTF_KIND_ARRAY;
      if fname != "" && !lastWasPtr {
        Emit([Space]);
      }
      ghost var out1 := out;
      if !multidim {
        Emit([LParen]);
      }
      EmitTypeChain(decls, fname, top);
      if !multidim {
        Emit([RParen]);
        Join(out1, [LParen], PrintD(d, true), [RParen]);
      }
    }

    /** The function prototype case. */
    method EmitFuncProto(decls: IdStack, id: nat, fname: string, lastWasPtr: bool, ghost top: nat)
      requires Valid() && Fits(decls, top) && OnlyLinks(g, decls.Left())
      requires g.Id(id) && Kind(types[id]) == BTF_KIND_FUNC_PROTO && Printable(g, id) && g.rank[id] <= top
      modifies this`out, this`declStack, decls
      ensures decls.cnt == 0 && declStack == old(declStack) && Kinded(types[id])
      ensures var d := FnD(Fold(g, old(decls.Left()), fname).0, ParamDecls(g, id), IsVariadic(types[id]));
              out == old(out) + PrintD(d, lastWasPtr)
      decreases top, 0, decls.cnt, 2
    {
      LinkShape(g, id);
      hide Fold, Remaining, OnlyLinks, NoQuals, Names.Valid, Printable, ParamDecls, PrintParams, KindOf, PrintD,
           IsVariadic, IsChain, Enclosing, PrintName;
      ghost var d, out0 := Fold(g, decls.Left(), fname).0, out;
      ghost var ps, v := ParamDecls(g, id), IsVariadic(types[id]);
      DropMods(decls, fname);
      EmitOuter(decls, fname, lastWasPtr, top);
      ghost var head := if d.Name? then PrintName(d.name, lastWasPtr) else Enclosing(d);
      Emit([LParen]);
      EmitParams(id, top);
      PrintFn(d, ps, v, lastWasPtr);
      JoinMore(out0, head, [LParen], PrintParams(ps, v), [RParen]);
    }

    /** The outer types of a function, in parentheses, or just the name. */
    method EmitOuter(decls: IdStack, fname: string, lastWasPtr: bool, ghost top: nat)
      requires Valid() && Fits(decls, top) && OnlyLinks(g, decls.Left()) && NoQuals(g, decls.Left())
      modifies this`out, this`declStack, decls
      ensures decls.cnt == 0 && declStack == old(declStack)
      ensures var d := Fold(g, old(decls.Left()), fname).0;
              out == old(out) + if d.Name? then PrintName(d.name, lastWasPtr) else Enclosing(d)
      decreases top, 0, decls.cnt, 1
    {
      hide Fold, Remaining, OnlyLinks, NoQuals, Names.Valid, Printable, PrintD, IsChain;
      ghost var d, out0 := Fold(g, decls.Left(), fname).0, out;
      NoQualsFold(g, decls.Left(), fname, true);
      if decls.cnt > 0 {
        Emit([Space, LParen]);
        LastIs(g, decls.ids, decls.cnt);
        EmitTypeChain(decls, fname, top);
        Emit([RParen]);
        Join(out0, [Space, LParen], PrintD(d, true), [RParen]);
      } else {
        EmitName(fname, lastWasPtr);
      }
    }

    /** The parameter list and its closing parenthesis. */
    method EmitParams(id: nat, ghost top: nat)
      requires Valid() && g.Id(id) && Kind(types[id]) == BTF_KIND_FUNC_PROTO && Printable(g, id) && g.rank[id] <= top
      modifies this`out, this`declStack
      ensures declStack == old(declStack) && Kinded(types[id])
      ensures out == old(out) + PrintParams(ParamDecls(g, id), IsVariadic(types[id])) + [RParen]
      decreases top, 0, 0, 1
    {
      LinkShape(g, id);
      var t := types[id];
      ghost var ps, v := ParamDecls(g, id), IsVariadic(t);
      var vlen := Vlen(t);
      if vlen == 0 || (vlen == 1 && t[ParamWord(0)] == 0) {
        Emit([Spec(Void), RParen]);
        return;
      }
      EmitParamList(id, top);
      Emit([RParen]);
    }

    /** The loop over the parameters. */
    method EmitParamList(id: nat, ghost top: nat)
      requires Valid() && g.Id(id) && Kind(types[id]) == BTF_KIND_FUNC_PROTO && Printable(g, id) && g.rank[id] <= top
      requires Kinded(types[id]) && ParamDecls(g, id) != []
      modifies this`out, this`declStack
      ensures declStack == old(declStack)
      ensures out == old(out) + PrintFrom(ParamDecls(g, id), 0, IsVariadic(types[id]))
      decreases top, 0, 0, 0
    {
      var t := types[id];
      ghost var ps, v, out0 := ParamDecls(g, id), IsVariadic(t), out;
      ghost var all := PrintFrom(ps, 0, v);
      var vlen := Vlen(t);
      var i := 0;
      hide Fold, PrintDecl, Names.Valid, KindOf, VlenOf, PrintFrom, ParamDecls, IsVariadic, Printable, DeclOf, IsChain;
      while i < vlen
        invariant i <= |ps| && declStack == old(declStack)
        invariant out + PrintFrom(ps, i, v) == out0 + all
      {
        ParamShape(g, id, i);
        ParamText(g, id, i);
        FromCons(ps, i, v);
        ghost var out1 := out;
        var sep := if i > 0 then [Comma, Space] else [];
        Emit(sep);
        if i == vlen - 1 && t[ParamWord(i)] == 0 {
          Emit([Ellipsis]);
          return;
        }
        EmitTypeDecl(t[ParamWord(i)], strOf(t[ParamWord(i) - 1]));
        Join(out1, sep, PrintDecl(ps[i]), PrintFrom(ps, i + 1, v));
        i := i + 1;
      }
      ParamsEnd(g, id);
    }
  }

  lemma Join<T>(a: seq<T>, b: seq<T>, c: seq<T>, d: seq<T>)
    ensures a + b + c + d == a + (b + c + d)
  {
  }

  lemma Assoc<T>(a: seq<T>, b: seq<T>, c: seq<T>)
    ensures a + b + c == a + (b + c)
  {
  }

  lemma JoinMore<T>(a: seq<T>, b: seq<T>, c: seq<T>, d: seq<T>, e: seq<T>)
    ensures a + b + c + d + e == a + (b + c + d + e)
  {
  }

  function ArrSpace(d: Declr, afterPtr: bool): seq<Tok> {
    if NameOf(d) != "" && !afterPtr then [Space] else []
  }

  function ArrInner(d: Declr): seq<Tok> {
    if d.ArrD? then PrintD(d, true) else [LParen] + PrintD(d, true) + [RParen]
  }

  lemma PrintArr(d: Declr, n: nat, afterPtr: bool)
    ensures d.Name? ==> PrintD(ArrD(d, n), afterPtr) == PrintName(d.name, afterPtr) + [LBracket, Num(n), RBracket]
    ensures !d.Name? ==>
              PrintD(ArrD(d, n), afterPtr) == ArrSpace(d, afterPtr) + ArrInner(d) + [LBracket, Num(n), RBracket]
  {
  }

  /** A declarator in parentheses after a blank. */
  function Enclosing(d: Declr): seq<Tok> {
    [Space, LParen] + PrintD(d, true) + [RParen]
  }

  lemma PrintFn(d: Declr, ps: seq<Decl>, v: bool, afterPtr: bool)
    ensures PrintD(FnD(d, ps, v), afterPtr)
         == (if d.Name? then PrintName(d.name, afterPtr) else Enclosing(d)) + [LParen] + PrintParams(ps, v) + [RParen]
  {
    hide PrintParams;
    assert [Space] + Enclosed(PrintD(d, true)) == Enclosing(d);
  }

  lemma ParamShape(g: Names, id: nat, i: nat)
    requires g.Id(id) && Kind(g.types[id]) == BTF_KIND_FUNC_PROTO && Printable(g, id) && i < Vlen(g.types[id])
    ensures Kinded(g.types[id]) && g.Id(g.types[id][ParamWord(i)]) && Printable(g, g.types[id][ParamWord(i)])
    ensures g.rank[g.types[id][ParamWord(i)]] < g.rank[id]
  {
    LinkShape(g, id);
  }

  /** Whether parameter `i` is an ellipsis. */
  predicate AtEllipsis(t: Record, i: nat)
    requires Kinded(t) && i < Vlen(t)
  {
    i == Vlen(t) - 1 && t[ParamWord(i)] == 0
  }

  lemma ParamCounted(t: Record, i: nat)
    requires Kinded(t) && i < Vlen(t) && ParamCount(t) != 0 && i <= ParamCount(t)
    ensures AtEllipsis(t, i) ==> 0 < i == ParamCount(t) && IsVariadic(t)
    ensures !AtEllipsis(t, i) ==> i < ParamCount(t)
  {
  }

  /** Parameter `i` of a prototype is an ellipsis or the declaration that was meant. */
  lemma ParamText(g: Names, id: nat, i: nat)
    requires g.Id(id) && Kind(g.types[id]) == BTF_KIND_FUNC_PROTO && Kinded(g.types[id])
    requires ParamDecls(g, id) != [] && i < Vlen(g.types[id]) && i <= |ParamDecls(g, id)|
    requires g.Id(g.types[id][ParamWord(i)])
    ensures var t, ps := g.types[id], ParamDecls(g, id);
            && (AtEllipsis(t, i) ==> 0 < i == |ps| && IsVariadic(t))
            && (!AtEllipsis(t, i) ==> i < |ps| && ps[i] == DeclOf(g, t[ParamWord(i)], g.strOf(t[ParamWord(i) - 1])))
  {
    ParamCounted(g.types[id], i);
    hide DeclOf, Names.Valid, ParamCount, IsVariadic, AtEllipsis, KindOf, VlenOf;
  }

  lemma FromCons(ps: seq<Decl>, i: nat, v: bool)
    requires i <= |ps|
    ensures i < |ps| ==>
              PrintFrom(ps, i, v) == (if i > 0 then [Comma, Space] else []) + PrintDecl(ps[i]) + PrintFrom(ps, i + 1, v)
    ensures i == |ps| && v ==> PrintFrom(ps, i, v) == [Comma, Space] + [Ellipsis]
    ensures i == |ps| && !v ==> PrintFrom(ps, i, v) == []
  {
  }

  lemma ParamsEnd(g: Names, id: nat)
    requires g.Id(id) && Kind(g.types[id]) == BTF_KIND_FUNC_PROTO && ParamDecls(g, id) != []
    ensures Kinded(g.types[id])
    ensures |ParamDecls(g, id)| == Vlen(g.types[id]) ==>
              PrintFrom(ParamDecls(g, id), |ParamDecls(g, id)|, IsVariadic(g.types[id])) == []
  {
  }

  lemma PrintableNext(g: Names, i: nat)
    requires g.Id(i) && Printable(g, i) && Link(g.types[i])
    ensures NextWord(g.types[i]) < |g.types[i]| && g.Id(g.types[i][NextWord(g.types[i])])
    ensures Printable(g, g.types[i][NextWord(g.types[i])])
  {
    LinkShape(g, i);
  }

  lemma LastIs(g: Names, ids: seq<nat>, cnt: nat)
    requires 0 < cnt <= |ids| && IsChain(g, ids[..cnt])
    ensures ids[cnt - 1] == ids[..cnt][cnt - 1] < |g.types| && |g.types[ids[cnt - 1]]| >= BASE
    ensures ids[..cnt][..cnt - 1] == ids[..cnt - 1]
  {
    LinkShape(g, ids[..cnt][cnt - 1]);
  }

  lemma NotQual(g: Names, v: seq<nat>, name: string)
    requires OnlyLinks(g, v) && (v != [] ==> !IsModKind(Kind(g.types[v[|v| - 1]])))
    ensures NoQuals(g, v) && Fold(g, v, name).1 == [] && QualsBefore(Fold(g, v, name).1) == []
  {
    NoQualsFold(g, v, name, true);
  }

  lemma QualsBeforeCons(q: Qualifier, qs: seq<Qualifier>)
    ensures QualsBefore([q] + qs) == [Qual(q), Space] + QualsBefore(qs)
  {
    assert ([q] + qs)[1..] == qs;
  }
}

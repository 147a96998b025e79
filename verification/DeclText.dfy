/** The characters of printed declarations, and how C reads them back as tokens. */
module DeclText {
  import opened Words
  import opened BtfRecords
  import opened DeclSpec
  import opened DeclGraph

  predicate Digit(c: char) {
    '0' <= c <= '9'
  }

  predicate WordChar(c: char) {
    'a' <= c <= 'z' || 'A' <= c <= 'Z' || Digit(c) || c == '_'
  }

  // ---------------------------------------------------------------------------
  // Writing tokens

  const DIGITS := "0123456789"

  function Decimal(n: nat): (r: string)
    ensures r != "" && forall i :: 0 <= i < |r| ==> Digit(r[i])
  {
    if n < 10 then [DIGITS[n]] else Decimal(n / 10) + [DIGITS[n % 10]]
  }

  function QualWord(q: Qualifier): string {
    match q
    case Const => "const"
    case Volatile => "volatile"
    case Restrict => "restrict"
  }

  function Spelling(t: Tok): string {
    match t
    case Spec(Void) => "void"
    case Spec(Plain(name)) => name
    case Spec(Tagged(keyword, name)) => keyword + " " + name
    case Qual(q) => QualWord(q)
    case Ident(name) => name
    case Num(n) => Decimal(n)
    case Star => "*"
    case LParen => "("
    case RParen => ")"
    case LBracket => "["
    case RBracket => "]"
    case Comma => ","
    case Ellipsis => "..."
    case Space => " "
  }

  /** The characters of a text. */
  function Render(s: seq<Tok>): string {
    if s == [] then "" else Spelling(s[0]) + Render(s[1..])
  }

  // ---------------------------------------------------------------------------
  // Reading characters, by the longest match; `isType` knows the words of type names

  /** How many word characters come first. */
  function Run(s: string): (n: nat)
    ensures n <= |s| && (forall i :: 0 <= i < n ==> WordChar(s[i])) && (n < |s| ==> !WordChar(s[n]))
  {
    if s == "" || !WordChar(s[0]) then 0 else 1 + Run(s[1..])
  }

  predicate Reserved(w: string) {
    w == "const" || w == "volatile" || w == "restrict" || IsTag(w) || w == "void"
  }

  predicate IsTag(w: string) {
    w == "struct" || w == "union" || w == "enum"
  }

  predicate TypeWord(w: string, isType: string -> bool) {
    w != "" && !Digit(w[0]) && !Reserved(w) && isType(w)
  }

  /** A blank and another word of a type name come next. */
  predicate MoreType(s: string, isType: string -> bool) {
    s != "" && s[0] == ' ' && TypeWord(s[1..][..Run(s[1..])], isType)
  }

  /** The length of a type name of one or more words. */
  function Phrase(s: string, isType: string -> bool): (n: nat)
    ensures Run(s) <= n <= |s|
  {
    var n := Run(s);
    if MoreType(s[n..], isType) then n + 1 + Phrase(s[n + 1..], isType) else n
  }

  function Value(s: string): nat {
    if s == "" then 0 else 10 * Value(s[..|s| - 1]) + if Digit(s[|s| - 1]) then (s[|s| - 1] - '0') as nat else 0
  }

  /** The tokens that the characters stand for; anything unknown ends them. */
  function Read(s: string, isType: string -> bool): seq<Tok> {
    if s == "" then []
    else if s[0] == ' ' then Read(s[1..], isType)
    else if WordChar(s[0]) then
      var n := Run(s);
      var w, rest := s[..n], s[n..];
      if Digit(s[0]) then [Num(Value(w))] + Read(rest, isType)
      else if w == "const" then [Qual(Const)] + Read(rest, isType)
      else if w == "volatile" then [Qual(Volatile)] + Read(rest, isType)
      else if w == "restrict" then [Qual(Restrict)] + Read(rest, isType)
      else if w == "void" then [Spec(Void)] + Read(rest, isType)
      else if IsTag(w) then
        if rest == "" then []
        else
          var name := s[n + 1..];
          [Spec(Tagged(w, name[..Run(name)]))] + Read(name[Run(name)..], isType)
      else if TypeWord(w, isType) then [Spec(Plain(s[..Phrase(s, isType)]))] + Read(s[Phrase(s, isType)..], isType)
      else [Ident(w)] + Read(rest, isType)
    else if s[0] == '*' then [Star] + Read(s[1..], isType)
    else if s[0] == '(' then [LParen] + Read(s[1..], isType)
    else if s[0] == ')' then [RParen] + Read(s[1..], isType)
    else if s[0] == '[' then [LBracket] + Read(s[1..], isType)
    else if s[0] == ']' then [RBracket] + Read(s[1..], isType)
    else if s[0] == ',' then [Comma] + Read(s[1..], isType)
    else if "..." <= s then [Ellipsis] + Read(s[3..], isType)
    else []
  }

  // ---------------------------------------------------------------------------
  // Names that C can read

  predicate AllWord(w: string) {
    w != "" && forall i :: 0 <= i < |w| ==> WordChar(w[i])
  }

  /** An identifier that is no keyword and no word of a type name. */
  predicate IsIdentifier(w: string, isType: string -> bool) {
    AllWord(w) && !Digit(w[0]) && !Reserved(w) && !isType(w)
  }

  /** No name, or an identifier. */
  predicate ReadableName(name: string, isType: string -> bool) {
    name == "" || IsIdentifier(name, isType)
  }

  /** Words of type names, with one blank between them. */
  predicate IsPhrase(p: string, isType: string -> bool) {
    var n := Run(p);
    TypeWord(p[..n], isType) && (n == |p| || (p[n] == ' ' && IsPhrase(p[n + 1..], isType)))
  }

  predicate ProperSpec(s: TypeSpec, isType: string -> bool) {
    match s
    case Void => true
    case Plain(name) => IsPhrase(name, isType)
    case Tagged(keyword, name) => IsTag(keyword) && AllWord(name)
  }

  predicate Proper(t: Tok, isType: string -> bool) {
    match t
    case Spec(s) => ProperSpec(s, isType)
    case Ident(name) => IsIdentifier(name, isType)
    case _ => true
  }

  /** No word character comes next. */
  predicate Breaks(s: string) {
    s == "" || !WordChar(s[0])
  }

  lemma {:induction false} RunIs(w: string, rest: string)
    requires (forall i :: 0 <= i < |w| ==> WordChar(w[i])) && Breaks(rest)
    ensures Run(w + rest) == |w| && (w + rest)[..|w|] == w && (w + rest)[|w|..] == rest
  {
    if w == "" {
      assert w + rest == rest;
    } else {
      assert (w + rest)[1..] == w[1..] + rest by {
        hide Run, Breaks;
      }
      RunIs(w[1..], rest);
    }
  }

  lemma {:induction false} DecimalValue(n: nat)
    ensures Value(Decimal(n)) == n
  {
    var d := n % 10;
    assert Digit(DIGITS[d]) && (DIGITS[d] - '0') as nat == d;
    if n < 10 {
      assert Decimal(n)[..0] == "";
    } else {
      DecimalValue(n / 10);
      assert Decimal(n)[..|Decimal(n)| - 1] == Decimal(n / 10);
    }
  }

  /** A phrase is a word, alone or before a blank and another phrase. */
  lemma PhraseParts(p: string, isType: string -> bool) returns (w: string, q: string)
    requires IsPhrase(p, isType)
    ensures w == p[..Run(p)] && AllWord(w) && TypeWord(w, isType)
    ensures if Run(p) == |p| then p == w && q == ""
            else p == w + (" " + q) && q == p[Run(p) + 1..] && IsPhrase(q, isType) && |q| < |p|
  {
    var n := Run(p);
    w := p[..n];
    q := if n == |p| then "" else p[n + 1..];
    if n < |p| {
      JoinBlank(p, n);
    }
  }

  lemma Assoc(a: string, b: string, c: string)
    ensures a + b + c == a + (b + c)
  {
  }

  lemma BlankNext(q: string)
    ensures (" " + q)[0] == ' ' && (" " + q)[1..] == q && Breaks(" " + q)
  {
  }

  lemma PhraseUnfold(w: string, tail: string, isType: string -> bool)
    requires AllWord(w) && Breaks(tail)
    ensures Phrase(w + tail, isType) == if MoreType(tail, isType) then |w| + 1 + Phrase(tail[1..], isType) else |w|
  {
    RunIs(w, tail);
    hide MoreType, Run, WordChar, Phrase;
    PhraseStep(w + tail, isType);
    if MoreType(tail, isType) {
      NotEmpty(tail, isType);
      DropJoin(w, tail);
    }
  }

  lemma DropJoin(w: string, tail: string)
    requires tail != ""
    ensures (w + tail)[|w| + 1..] == tail[1..]
  {
  }

  lemma JoinBlank(p: string, n: nat)
    requires n < |p| && p[n] == ' '
    ensures p == p[..n] + (" " + p[n + 1..])
  {
  }

  lemma PhraseStep(s: string, isType: string -> bool)
    ensures MoreType(s[Run(s)..], isType) ==> Run(s) < |s|
    ensures Phrase(s, isType) ==
              if MoreType(s[Run(s)..], isType) then Run(s) + 1 + Phrase(s[Run(s) + 1..], isType) else Run(s)
  {
    hide Run, TypeWord;
  }

  lemma NotEmpty(s: string, isType: string -> bool)
    requires MoreType(s, isType)
    ensures s != ""
  {
  }

  lemma {:induction false} PhraseIs(p: string, rest: string, isType: string -> bool)
    requires IsPhrase(p, isType) && Breaks(rest) && !MoreType(rest, isType)
    ensures Phrase(p + rest, isType) == |p|
    decreases |p|
  {
    hide Phrase, IsPhrase, TypeWord, WordChar, MoreType, Run;
    var w, q := PhraseParts(p, isType);
    if q == "" {
      PhraseEmpty(isType);
      PhraseUnfold(w, rest, isType);
    } else {
      PhraseIs(q, rest, isType);
      Assoc(w, " " + q, rest);
      Assoc(" ", q, rest);
      BlankNext(q + rest);
      NextType(q, rest, isType);
      PhraseUnfold(w, " " + (q + rest), isType);
    }
  }

  lemma PhraseEmpty(isType: string -> bool)
    ensures !IsPhrase("", isType)
  {
  }

  lemma NextType(q: string, rest: string, isType: string -> bool)
    requires IsPhrase(q, isType) && Breaks(rest)
    ensures MoreType(" " + (q + rest), isType)
    ensures q != "" && Run(q + rest) > 0 && (q + rest)[..Run(q + rest)] == q[..Run(q)]
  {
    hide IsPhrase, WordChar;
    PhraseEmpty(isType);
    BlankNext(q + rest);
    var w, r := PhraseParts(q, isType);
    if r == "" && w == q {
      RunIs(w, rest);
    } else {
      Assoc(w, " " + r, rest);
      BlankNext(r);
      RunIs(w, (" " + r) + rest);
    }
  }

  // ---------------------------------------------------------------------------
  // One token

  /** The token can be told from what comes after it. */
  predicate Stands(t: Tok, rest: string, isType: string -> bool) {
    Proper(t, isType) && (IsWord(t) ==> Breaks(rest)) && (t.Spec? ==> !MoreType(rest, isType))
  }

  /** A word of letters, digits and underscores. */
  lemma ReadWord(w: string, rest: string, isType: string -> bool)
    requires AllWord(w) && Breaks(rest)
    ensures Digit(w[0]) ==> Read(w + rest, isType) == [Num(Value(w))] + Read(rest, isType)
    ensures w == "const" ==> Read(w + rest, isType) == [Qual(Const)] + Read(rest, isType)
    ensures w == "volatile" ==> Read(w + rest, isType) == [Qual(Volatile)] + Read(rest, isType)
    ensures w == "restrict" ==> Read(w + rest, isType) == [Qual(Restrict)] + Read(rest, isType)
    ensures w == "void" ==> Read(w + rest, isType) == [Spec(Void)] + Read(rest, isType)
    ensures IsIdentifier(w, isType) ==> Read(w + rest, isType) == [Ident(w)] + Read(rest, isType)
  {
    RunIs(w, rest);
    assert (w + rest)[0] == w[0];
  }

  lemma ReadTag(s: string, isType: string -> bool)
    requires IsTag(s[..Run(s)]) && Run(s) < |s|
    ensures var name := s[Run(s) + 1..];
            Read(s, isType) == [Spec(Tagged(s[..Run(s)], name[..Run(name)]))] + Read(name[Run(name)..], isType)
  {
    assert s[0] == s[..Run(s)][0];
  }

  lemma ReadTagged(k: string, name: string, rest: string, isType: string -> bool)
    requires IsTag(k) && AllWord(name) && Breaks(rest)
    ensures Read(k + " " + name + rest, isType) == [Spec(Tagged(k, name))] + Read(rest, isType)
  {
    assert forall i :: 0 <= i < |k| ==> WordChar(k[i]);
    hide Read, IsTag, WordChar, Run;
    var tail := name + rest;
    Assoc(k + " ", name, rest);
    Assoc(k, " ", tail);
    BlankNext(tail);
    RunIs(k, " " + tail);
    RunIs(name, rest);
    var s := k + (" " + tail);
    assert s[|k| + 1..] == tail;
    ReadTag(s, isType);
  }

  lemma ReadType(s: string, isType: string -> bool)
    requires TypeWord(s[..Run(s)], isType)
    ensures Read(s, isType) == [Spec(Plain(s[..Phrase(s, isType)]))] + Read(s[Phrase(s, isType)..], isType)
  {
    hide Phrase;
    assert s[0] == s[..Run(s)][0];
  }

  lemma ReadPlain(p: string, rest: string, isType: string -> bool)
    requires IsPhrase(p, isType) && Breaks(rest) && !MoreType(rest, isType)
    ensures Read(p + rest, isType) == [Spec(Plain(p))] + Read(rest, isType)
  {
    hide Read, IsPhrase, Phrase, MoreType, WordChar, Run;
    var w, q := PhraseParts(p, isType);
    NextType(p, rest, isType);
    PhraseIs(p, rest, isType);
    assert (p + rest)[..|p|] == p && (p + rest)[|p|..] == rest;
    ReadType(p + rest, isType);
  }

  lemma ReadPunct(t: Tok, rest: string, isType: string -> bool)
    requires !IsWord(t)
    ensures Read(Spelling(t) + rest, isType) == (if t.Space? then [] else [t]) + Read(rest, isType)
  {
    var s := Spelling(t) + rest;
    assert s[|Spelling(t)|..] == rest;
    assert s[0] == Spelling(t)[0];
    if t.Ellipsis? {
      assert s[1] == '.' && s[2] == '.';
      assert "..." <= s;
    }
  }

  /** One token is read back, whatever the rest of the text is. */
  lemma ReadToken(t: Tok, rest: string, isType: string -> bool)
    requires Stands(t, rest, isType)
    ensures Read(Spelling(t) + rest, isType) == (if t.Space? then [] else [t]) + Read(rest, isType)
  {
    hide Read, Reserved, IsTag, Value, Decimal, Phrase;
    match t
    case Spec(Void) => ReadWord("void", rest, isType);
    case Spec(Plain(name)) => ReadPlain(name, rest, isType);
    case Spec(Tagged(keyword, name)) => ReadTagged(keyword, name, rest, isType);
    case Qual(q) => ReadWord(QualWord(q), rest, isType);
    case Ident(name) => ReadWord(name, rest, isType);
    case Num(n) =>
      ReadWord(Decimal(n), rest, isType);
      DecimalValue(n);
    case _ => ReadPunct(t, rest, isType);
  }

  // ---------------------------------------------------------------------------
  // A whole text

  /** Proper tokens, and no type specifier right after another. */
  predicate Fit(s: seq<Tok>, isType: string -> bool) {
    && (forall i :: 0 <= i < |s| ==> Proper(s[i], isType))
    && forall i, j :: 0 <= i && j == i + 1 < |s| && s[i].Spec? ==> !s[j].Spec?
  }

  lemma FitAppend(a: seq<Tok>, b: seq<Tok>, isType: string -> bool)
    requires Fit(a, isType) && Fit(b, isType) && (a == [] || b == [] || !a[|a| - 1].Spec? || !b[0].Spec?)
    ensures Fit(a + b, isType)
  {
    hide Proper;
  }

  /** What a text begins with. */
  lemma TextStart(s: seq<Tok>, isType: string -> bool)
    requires forall i :: 0 <= i < |s| ==> Proper(s[i], isType)
    ensures s == [] || !IsWord(s[0]) ==> Breaks(Render(s))
    ensures s != [] ==> Render(s) != "" && (Render(s)[0] == ' ' <==> s[0].Space?)
  {
    if s != [] {
      SpellingStart(s[0], isType);
    }
  }

  lemma SpellingStart(t: Tok, isType: string -> bool)
    requires Proper(t, isType)
    ensures Spelling(t) != "" && (WordChar(Spelling(t)[0]) <==> IsWord(t)) && (Spelling(t)[0] == ' ' <==> t.Space?)
  {
    if t.Spec? && t.spec.Plain? {
      var w, q := PhraseParts(t.spec.name, isType);
      assert t.spec.name[0] == w[0];
    }
  }

  /** Only a type specifier begins with a word of a type name. */
  lemma NoTypeWord(t: Tok, rest: string, isType: string -> bool)
    requires Proper(t, isType) && !t.Spec? && (IsWord(t) ==> Breaks(rest))
    ensures var s := Spelling(t) + rest; !TypeWord(s[..Run(s)], isType)
  {
    var s := Spelling(t) + rest;
    SpellingStart(t, isType);
    assert s[0] == Spelling(t)[0];
    if t.Qual? {
      RunIs(QualWord(t.q), rest);
    } else if t.Ident? {
      RunIs(t.name, rest);
    } else if t.Num? {
      RunIs(Decimal(t.n), rest);
    }
  }

  /** After a type specifier, no other word of a type name follows. */
  lemma NoMoreType(s: seq<Tok>, isType: string -> bool)
    requires (forall i :: 0 <= i < |s| ==> Proper(s[i], isType)) && Apart(false, s)
    requires Strip(s) == [] || !Strip(s)[0].Spec?
    ensures !MoreType(Render(s), isType)
  {
    hide Proper, Strip, Spelling, TypeWord, IsWord;
    TextStart(s, isType);
    if s != [] && s[0].Space? {
      var rest := s[1..];
      StripStep(s);
      BlankFirst(Render(rest));
      TextStart(rest, isType);
      if rest != [] {
        StripStep(rest);
        TextStart(rest[1..], isType);
        NoTypeWord(rest[0], Render(rest[1..]), isType);
      } else {
        NoWordThere(isType);
      }
    }
  }

  lemma NoWordThere(isType: string -> bool)
    ensures !TypeWord(""[..Run("")], isType)
  {
  }

  lemma BlankFirst(r: string)
    ensures Spelling(Space) + r == " " + r && (" " + r)[1..] == r
  {
  }

  lemma StripStep(s: seq<Tok>)
    requires s != []
    ensures Strip(s) == (if s[0].Space? then [] else [s[0]]) + Strip(s[1..])
    ensures Apart(false, s) ==> Apart(false, s[1..])
    ensures Apart(false, s) && IsWord(s[0]) ==> s[1..] == [] || !IsWord(s[1])
  {
    if Apart(false, s) {
      ApartWeaker(IsWord(s[0]), s[1..]);
    }
  }

  lemma ApartWeaker(prev: bool, s: seq<Tok>)
    requires Apart(prev, s)
    ensures Apart(false, s)
    ensures prev && s != [] ==> !IsWord(s[0])
  {
  }

  /** The characters of a text in which no words touch are read back as its tokens. */
  lemma {:induction false} ReadBack(s: seq<Tok>, isType: string -> bool)
    requires Apart(false, s) && Fit(Strip(s), isType) && forall i :: 0 <= i < |s| ==> Proper(s[i], isType)
    ensures Read(Render(s), isType) == Strip(s)
  {
    hide Proper, Strip, Spelling, Read, MoreType, Breaks, Apart;
    if s == [] {
      ReadNothing(s, isType);
    } else {
      StripStep(s);
      var t, rest := s[0], s[1..];
      FitRest(t, Strip(rest), Strip(s), isType);
      ReadBack(rest, isType);
      TextStart(rest, isType);
      if t.Spec? {
        NoMoreType(rest, isType);
      }
      ReadToken(t, Render(rest), isType);
    }
  }

  lemma ReadNothing(s: seq<Tok>, isType: string -> bool)
    requires s == []
    ensures Read(Render(s), isType) == Strip(s)
  {
  }

  lemma FitRest(t: Tok, rest: seq<Tok>, s: seq<Tok>, isType: string -> bool)
    requires s == (if t.Space? then [] else [t]) + rest && Fit(s, isType)
    ensures Fit(rest, isType)
    ensures t.Spec? ==> rest == [] || !rest[0].Spec?
  {
    hide Proper;
    if t.Spec? && rest != [] {
      assert s[0] == t && s[1] == rest[0];
    }
    forall i | 0 <= i < |rest|
      ensures rest[i] == s[if t.Space? then i else i + 1]
    {
    }
  }

  // ---------------------------------------------------------------------------
  // Declarations with readable names

  ghost predicate ReadableD(d: Declr, isType: string -> bool)
    decreases d, 0
  {
    match d
    case Name(n) => ReadableName(n, isType)
    case PtrD(_, e) => ReadableD(e, isType)
    case ArrD(e, _) => ReadableD(e, isType)
    case FnD(e, ps, _) => ReadableD(e, isType) && forall i :: 0 <= i < |ps| ==> Readable(ps[i], isType)
  }

  ghost predicate Readable(c: Decl, isType: string -> bool)
    decreases c, 1
  {
    ProperSpec(c.spec, isType) && ReadableD(c.d, isType)
  }

  lemma FitPlain(s: seq<Tok>, isType: string -> bool)
    requires forall i :: 0 <= i < |s| ==> !s[i].Spec? && !s[i].Ident?
    ensures Fit(s, isType)
  {
  }

  lemma FitEnclosed(s: seq<Tok>, isType: string -> bool)
    requires Fit(s, isType)
    ensures Fit(Enclosed(s), isType)
  {
    hide Fit;
    FitPlain([LParen], isType);
    FitPlain([RParen], isType);
    FitAppend([LParen], s, isType);
    FitAppend([LParen] + s, [RParen], isType);
  }

  lemma {:induction false} FitD(d: Declr, isType: string -> bool)
    requires ReadableD(d, isType)
    ensures Fit(BareD(d), isType)
    decreases d, 0
  {
    hide BareQuals, BareParams, IsIdentifier, Proper;
    match d
    case Name(n) =>
      if n != "" {
        FitName(n, isType);
      }
    case PtrD(qs, e) =>
      FitD(e, isType);
      FitPlain([Star] + BareQuals(qs), isType);
      hide Fit;
      FirstToken(e);
      FitAppend([Star] + BareQuals(qs), BareD(e), isType);
    case ArrD(e, n) =>
      FitD(e, isType);
      FitEnclosed(BareD(e), isType);
      FitPlain([LBracket, Num(n), RBracket], isType);
      hide Fit;
      FitAppend(if e.Name? || e.ArrD? then BareD(e) else Enclosed(BareD(e)), [LBracket, Num(n), RBracket], isType);
    case FnD(e, ps, v) =>
      FitD(e, isType);
      FitParams(e, ps, v, isType);
      hide Fit, ReadableD;
      FitEnclosed(BareD(e), isType);
      FitEnclosed(BareParams(ps, v), isType);
      var head := if e.Name? then BareD(e) else Enclosed(BareD(e));
      FitAppend(head, Enclosed(BareParams(ps, v)), isType);
      Regroup(head, [LParen], BareParams(ps, v));
      Regroup(head, [LParen] + BareParams(ps, v), [RParen]);
  }

  lemma FitName(n: string, isType: string -> bool)
    requires IsIdentifier(n, isType)
    ensures Fit([Ident(n)], isType)
  {
  }

  lemma {:induction false} FitParams(e: Declr, ps: seq<Decl>, v: bool, isType: string -> bool)
    requires forall i :: 0 <= i < |ps| ==> Readable(ps[i], isType)
    ensures Fit(BareParams(ps, v), isType)
    decreases ps, 3
  {
    if ps != [] {
      FitFrom(ps, 0, v, isType);
    }
  }

  /** Behind a first parameter, a comma comes first. */
  lemma {:induction false} FitFrom(ps: seq<Decl>, i: nat, v: bool, isType: string -> bool)
    requires i <= |ps| && forall j :: 0 <= j < |ps| ==> Readable(ps[j], isType)
    ensures Fit(BareFrom(ps, i, v), isType)
    ensures i > 0 && BareFrom(ps, i, v) != [] ==> BareFrom(ps, i, v)[0] == Comma
    decreases ps, 2, |ps| - i
  {
    hide Readable, Fit;
    if i == |ps| {
      FitPlain([Comma, Ellipsis], isType);
      FitPlain([], isType);
    } else {
      hide BareDecl;
      var sep := if i > 0 then [Comma] else [];
      FitPlain(sep, isType);
      FitDecl(ps[i], isType);
      FitFrom(ps, i + 1, v, isType);
      FitAppend(sep, BareDecl(ps[i]), isType);
      FitAppend(sep + BareDecl(ps[i]), BareFrom(ps, i + 1, v), isType);
    }
  }

  lemma {:induction false} FitDecl(c: Decl, isType: string -> bool)
    requires Readable(c, isType)
    ensures Fit(BareDecl(c), isType)
    decreases c, 1
  {
    FitD(c.d, isType);
    FitPlain(BareQuals(c.quals), isType);
    assert Fit([Spec(c.spec)], isType);
    hide Fit, BareQuals;
    FirstToken(c.d);
    QualsNoSpec(c.quals);
    FitAppend(BareQuals(c.quals), [Spec(c.spec)], isType);
    FitAppend(BareQuals(c.quals) + [Spec(c.spec)], BareD(c.d), isType);
  }

  lemma QualsNoSpec(qs: seq<Qualifier>)
    ensures qs != [] ==> BareQuals(qs) != [] && !BareQuals(qs)[|BareQuals(qs)| - 1].Spec?
    ensures qs == [] ==> BareQuals(qs) == []
  {
  }

  lemma {:induction false} StripHas(s: seq<Tok>, i: nat)
    requires i < |s| && !s[i].Space?
    ensures s[i] in Strip(s)
  {
    if i > 0 {
      StripHas(s[1..], i - 1);
    }
  }

  /** The characters of a declaration with readable names are read back as its tokens. */
  lemma DeclReadBack(c: Decl, isType: string -> bool)
    requires Readable(c, isType)
    ensures Read(Render(PrintDecl(c)), isType) == BareDecl(c)
  {
    var text := PrintDecl(c);
    ApartDecl(c);
    StripPrintDecl(c);
    FitDecl(c, isType);
    hide Proper, Strip, Apart, PrintDecl, Render, Read, Readable;
    forall i | 0 <= i < |text|
      ensures Proper(text[i], isType)
    {
      if text[i].Space? {
        SpaceProper(isType);
      } else {
        StripHas(text, i);
      }
    }
    ReadBack(text, isType);
  }

  lemma SpaceProper(isType: string -> bool)
    ensures Proper(Space, isType)
  {
  }

  ghost predicate ReadableType(t: CType, isType: string -> bool)
    decreases t
  {
    match t
    case Base(_, s) => ProperSpec(s, isType)
    case Ptr(_, u) => ReadableType(u, isType)
    case Arr(_, u) => ReadableType(u, isType)
    case Fn(r, ps, _) =>
      && ReadableType(r, isType)
      && forall i :: 0 <= i < |ps| ==>
           ReadableName(ps[i].name, isType) && ReadableType(ps[i].t, isType)
  }

  lemma {:induction false} ToDeclReadable(t: CType, d: Declr, isType: string -> bool)
    requires ReadableType(t, isType) && ReadableD(d, isType)
    ensures Readable(ToDecl(t, d), isType)
    decreases t
  {
    hide ProperSpec, IsIdentifier;
    match t
    case Base(_, _) =>
    case Ptr(qs, u) => ToDeclReadable(u, PtrD(qs, d), isType);
    case Arr(n, u) => ToDeclReadable(u, ArrD(d, n), isType);
    case Fn(r, ps, v) =>
      var ds := seq(|ps|, i requires 0 <= i < |ps| => ToDecl(ps[i].t, Name(ps[i].name)));
      forall i | 0 <= i < |ps|
        ensures Readable(ds[i], isType)
      {
        ToDeclReadable(ps[i].t, Name(ps[i].name), isType);
      }
      ToDeclReadable(r, FnD(d, ds, v), isType);
  }

  ghost predicate ReadableParams(g: Names, t: Record, isType: string -> bool) {
    |t| >= BASE &&
    forall j: nat :: j < Vlen(t) && ParamWord(j) < |t| ==> ReadableName(g.strOf(t[ParamWord(j) - 1]), isType)
  }

  /** Parameters are unnamed or named by identifiers, and the named types have names that C can read. */
  ghost predicate ReadableNames(g: Names, isType: string -> bool) {
    forall i :: 0 <= i < |g.types| && |g.types[i]| >= BASE ==>
      && (Kind(g.types[i]) == BTF_KIND_FUNC_PROTO ==> ReadableParams(g, g.types[i], isType))
      && (IsSpecKind(Kind(g.types[i])) && g.types[i][0] != 0 ==> ProperSpec(SpecOf(g, i), isType))
  }

  /** int f(int x), with all names from one string table. */
  ghost predicate IntFunction(g: Names) {
    && g.types == [[0, 0, 0], [1, 0x100_0000, 4, 32], [0, 0xd00_0001, 1, 2, 1]] && g.rank == [0, 0, 1]
    && g.strOf(0) == "" && g.strOf(1) == "int" && g.strOf(2) == "x" && g.typeName(1) == g.strOf(1)
  }

  lemma IntFunctionKinds(g: Names)
    requires IntFunction(g)
    ensures Kind(g.types[0]) == BTF_KIND_UNKN && Kind(g.types[1]) == BTF_KIND_INT
    ensures Kind(g.types[2]) == BTF_KIND_FUNC_PROTO && Vlen(g.types[2]) == 1
    ensures WellSized(g.types[1]) && WellSized(g.types[2])
    ensures forall i :: 0 <= i < 3 ==> RefsBelow(g.types[i], 3)
  {
  }

  lemma NamesMayBeReadable(g: Names)
    requires IntFunction(g)
    ensures g.Id(2) && Printable(g, 2) && ReadableNames(g, w => w == "int")
  {
    IntFunctionKinds(g);
    IntIsPhrase("int", "x");
    hide KindOf, VlenOf, IsPhrase, IsIdentifier, WellSized, RefsBelow;
  }

  lemma IntIsPhrase(p: string, x: string)
    requires p == "int" && x == "x"
    ensures IsPhrase(p, w => w == "int") && IsIdentifier(x, w => w == "int")
  {
    RunIs(p, "");
    assert p + "" == p && p[..3] == p;
  }

  lemma {:induction false} TypeOfReadable(g: Names, i: nat, isType: string -> bool)
    requires g.Id(i) && Printable(g, i) && ReadableNames(g, isType)
    ensures ReadableType(TypeOf(g, i), isType)
    decreases g.rank[i]
  {
    hide ProperSpec, ReadableName;
    LinkShape(g, i);
    var t := g.types[i];
    if !Link(t) {
      VoidProper(isType);
    } else {
      TypeOfReadable(g, t[NextWord(t)], isType);
      if Kind(t) == BTF_KIND_FUNC_PROTO {
        forall j: nat | j < Vlen(t)
          ensures ReadableType(TypeOf(g, t[ParamWord(j)]), isType)
        {
          TypeOfReadable(g, t[ParamWord(j)], isType);
        }
      }
      LinkReadable(g, i, isType);
    }
  }

  /** What a type refers to is readable, and so is the type. */
  lemma LinkReadable(g: Names, i: nat, isType: string -> bool)
    requires g.Id(i) && Link(g.types[i]) && ReadableNames(g, isType)
    requires NextWord(g.types[i]) < |g.types[i]| && g.types[i][NextWord(g.types[i])] < |g.types|
    requires ReadableType(TypeOf(g, g.types[i][NextWord(g.types[i])]), isType)
    requires Kind(g.types[i]) == BTF_KIND_FUNC_PROTO ==> forall j: nat :: j < Vlen(g.types[i]) ==>
               && ParamWord(j) < |g.types[i]| && g.types[i][ParamWord(j)] < |g.types|
               && ReadableType(TypeOf(g, g.types[i][ParamWord(j)]), isType)
    ensures ReadableType(TypeOf(g, i), isType)
  {
    hide ProperSpec, ReadableName, KindOf, VlenOf;
    LinkShape(g, i);
  }

  lemma VoidProper(isType: string -> bool)
    ensures ProperSpec(Void, isType)
  {
  }

  /**
   * Reading the printed characters by the longest match and parsing the tokens by the C declarator
   * grammar gives back the name and the type that the BTF chain describes.
   */
  lemma PrintedTextReadsBack(g: Names, i: nat, name: string, isType: string -> bool)
    requires g.Id(i) && Printable(g, i) && ReadableNames(g, isType) && ReadableName(name, isType)
    ensures var text := Render(PrintDecl(DeclOf(g, i, name)));
            && ParseDecl(Read(text, isType)) == Success(DeclOf(g, i, name), [])
            && Declares(DeclOf(g, i, name)) == CParam(name, TypeOf(g, i))
  {
    hide Printable, ReadableNames, Read, Render, PrintDecl, ParseDecl, IsIdentifier;
    var c := DeclOf(g, i, name);
    TypeOfReadable(g, i, isType);
    ToDeclReadable(TypeOf(g, i), Name(name), isType);
    DeclReadBack(c, isType);
    PrintedParsesBack(g, i, name);
    StripPrintDecl(c);
  }
}

/**
 CodeWarrior's mangled C++ names.

 `Type`, `Params` and `Signature` say what a mangled text reads as and what is left of it; the
 methods, which walk an index through the name, are proved against them. The mangling of a
 declaration is defined beside them, and reading it back gives the rendered declaration.
 */
module Demangle {
  import opened Common

  const MODIFIERS := "CPRUS"

  function Builtin(c: char): Option<string> {
    match c
    case 'v' => Some("void") case 'b' => Some("bool") case 'c' => Some("char") case 's' => Some("short")
    case 'i' => Some("int") case 'l' => Some("long") case 'x' => Some("long long") case 'f' => Some("float")
    case 'd' => Some("double") case 'r' => Some("long double") case 'w' => Some("wchar_t") case 'e' => Some("...")
    case _ => None
  }

  // ---------------------------------------------------------------------- decimals

  predicate IsDigit(c: char) {
    '0' <= c <= '9'
  }

  function DigitValue(c: char): nat
    requires IsDigit(c)
  {
    c as nat - '0' as nat
  }

  function DigitOf(n: nat): char
    requires n < 10
  {
    ('0' as nat + n) as char
  }

  /** The digits a text starts with. */
  function Digits(s: string): (d: string)
    ensures d <= s && (forall c | c in d :: IsDigit(c)) && (|d| < |s| ==> !IsDigit(s[|d|]))
  {
    if s == "" || !IsDigit(s[0]) then "" else [s[0]] + Digits(s[1..])
  }

  function Value(digits: string): nat
    requires forall c | c in digits :: IsDigit(c)
  {
    if digits == "" then 0 else Value(digits[..|digits| - 1]) * 10 + DigitValue(digits[|digits| - 1])
  }

  function Decimal(n: nat): (d: string)
    ensures d != "" && forall c | c in d :: IsDigit(c)
  {
    if n < 10 then [DigitOf(n)] else Decimal(n / 10) + [DigitOf(n % 10)]
  }

  lemma {:induction false} ValueOfDecimal(n: nat)
    ensures Value(Decimal(n)) == n
  {
    if n >= 10 {
      ValueOfDecimal(n / 10);
      assert Decimal(n)[..|Decimal(n)| - 1] == Decimal(n / 10);
    }
  }

  lemma {:induction false} DigitsOfAppend(d: string, rest: string)
    requires (forall c | c in d :: IsDigit(c)) && (rest != "" ==> !IsDigit(rest[0]))
    ensures Digits(d + rest) == d
    decreases |d|
  {
    if d == "" {
      assert d + rest == rest;
    } else {
      assert (d + rest)[1..] == d[1..] + rest;
      DigitsOfAppend(d[1..], rest);
    }
  }

  // ------------------------------------------------------------------- reading names

  function Number(s: string): (r: Option<(nat, string)>)
    ensures r.Some? ==> |r.value.1| < |s|
  {
    var d := Digits(s);
    if d == "" then None else Some((Value(d), s[|d|..]))
  }

  function Identifier(s: string): (r: Option<(string, string)>)
    ensures r.Some? ==> |r.value.1| < |s|
  {
    match Number(s)
    case None => None
    case Some((n, t)) => if n > |t| then None else Some((t[..n], t[n..]))
  }

  function Identifiers(s: string, count: nat): (r: Option<(seq<string>, string)>)
    ensures r.Some? ==> |r.value.1| <= |s|
    decreases count
  {
    if count == 0 then Some(([], s))
    else match Identifier(s)
      case None => None
      case Some((part, t)) =>
        match Identifiers(t, count - 1)
        case None => None
        case Some((parts, u)) => Some(([part] + parts, u))
  }

  /** A class name. */
  function Qualified(s: string): (r: Option<(seq<string>, string)>)
    ensures r.Some? ==> |r.value.1| < |s|
  {
    if s == "" then None
    else if s[0] == 'Q' then
      if |s| < 2 || !IsDigit(s[1]) then None else Identifiers(s[2..], DigitValue(s[1]))
    else match Identifier(s)
      case None => None
      case Some((part, t)) => Some(([part], t))
  }

  function Join(parts: seq<string>, separator: string): string {
    if parts == [] then "" else if |parts| == 1 then parts[0] else parts[0] + separator + Join(parts[1..], separator)
  }

  /** What one modifier makes of the type behind it; the one nearest to the type applies first. */
  function Modify(p: char, text: string): string {
    match p
    case 'C' => if text != "" && text[|text| - 1] in "*&" then text + " const" else "const " + text
    case 'P' => text + "*"
    case 'R' => text + "&"
    case 'U' => "unsigned " + text
    case 'S' => "signed " + text
    case _ => text
  }

  /** The parameter list of the types of the parameters. */
  function Arguments(types: seq<string>): string {
    if types == ["void"] then "" else Join(types, ", ")
  }

  function ArrayText(inner: string, length: nat): string {
    inner + "[" + Decimal(length) + "]"
  }

  function FunctionText(ret: string, arguments: string): string {
    ret + " (*)(" + arguments + ")"
  }

  function MemberText(inner: string, parts: seq<string>): string {
    inner + " " + Join(parts, "::") + "::*"
  }

  /** The type a text starts with, and the rest of it. */
  function Type(s: string): (r: Option<(string, string)>)
    ensures r.Some? ==> |r.value.1| < |s|
    decreases |s|, 1
  {
    if s == "" then None
    else if s[0] in MODIFIERS then
      match Type(s[1..])
      case None => None
      case Some((text, t)) => Some((Modify(s[0], text), t))
    else if Builtin(s[0]).Some? then Some((Builtin(s[0]).value, s[1..]))
    else if IsDigit(s[0]) || s[0] == 'Q' then
      match Qualified(s)
      case None => None
      case Some((parts, t)) => Some((Join(parts, "::"), t))
    else if s[0] == 'A' then ArrayType(s[1..])
    else if s[0] == 'F' then FunctionType(s[1..])
    else if s[0] == 'M' then MemberType(s[1..])
    else None
  }

  /** After an A: the length, an underscore, and what it is an array of. */
  function ArrayType(s: string): (r: Option<(string, string)>)
    ensures r.Some? ==> |r.value.1| <= |s|
    decreases |s|, 0
  {
    match Number(s)
    case None => None
    case Some((length, t)) =>
      if t == "" || t[0] != '_' then None
      else match Type(t[1..])
        case None => None
        case Some((inner, u)) => Some((ArrayText(inner, length), u))
  }

  /** After an F: the parameters, and, after an underscore, what is returned. */
  function FunctionType(s: string): (r: Option<(string, string)>)
    ensures r.Some? ==> |r.value.1| <= |s|
    decreases |s|, 3
  {
    match Params(s)
    case None => None
    case Some((types, t)) =>
      if t == "" || t[0] != '_' then Some((FunctionText("void", Arguments(types)), t))
      else match Type(t[1..])
        case None => None
        case Some((ret, u)) => Some((FunctionText(ret, Arguments(types)), u))
  }

  /** After an M: the class, and what its member is. */
  function MemberType(s: string): (r: Option<(string, string)>)
    ensures r.Some? ==> |r.value.1| <= |s|
    decreases |s|, 0
  {
    match Qualified(s)
    case None => None
    case Some((parts, t)) =>
      match Type(t)
      case None => None
      case Some((inner, u)) => Some((MemberText(inner, parts), u))
  }

  /** The types up to the end or an underscore. */
  function Params(s: string): (r: Option<(seq<string>, string)>)
    ensures r.Some? ==> |r.value.1| <= |s|
    decreases |s|, 2
  {
    if s == "" || s[0] == '_' then Some(([], s))
    else match Type(s)
      case None => None
      case Some((text, t)) =>
        match Params(t)
        case None => None
        case Some((types, u)) => Some(([text] + types, u))
  }

  /** What follows the name: the class it is in, and its arguments unless it is no function. */
  datatype Reading = Reading(scope: seq<string>, isConst: bool, arguments: Option<string>)

  /** What a function's name says after its F: nothing may be left over. */
  function Function(s: string): Option<string> {
    match Params(s)
    case None => None
    case Some((types, t)) =>
      if t == "" then Some(Arguments(types))
      else match Type(t[1..])  // a template's return type
        case None => None
        case Some((_, u)) => if u == "" then Some(Arguments(types)) else None
  }

  function Signature(rest: string): Option<Reading> {
    if rest == "" || !(IsDigit(rest[0]) || rest[0] in "QCF") then None
    else
      var qualified := if IsDigit(rest[0]) || rest[0] == 'Q' then Qualified(rest) else Some(([], rest));
      match qualified
      case None => None
      case Some((scope, t)) =>
        var isConst := t != "" && t[0] == 'C';
        var u := if isConst then t[1..] else t;
        if u != "" && u[0] == 'F' then
          match Function(u[1..])
          case None => None
          case Some(arguments) => Some(Reading(scope, isConst, Some(arguments)))
        else if u == "" && scope != [] then Some(Reading(scope, isConst, None))
        else None
  }

  /** Whether a name can be split at `cut`: a name, two underscores, a signature. */
  predicate SplitsAt(name: string, cut: nat) {
    && 0 < cut && cut + 2 <= |name| && name[cut] == '_' && name[cut + 1] == '_'
    && Signature(name[cut + 2..]).Some?
  }

  /** The last place up to `cut` where a name can be split; 0 for none. */
  function LastSplit(name: string, cut: nat): nat
    decreases cut
  {
    if cut == 0 then 0 else if SplitsAt(name, cut) then cut else LastSplit(name, cut - 1)
  }

  lemma {:induction false} LastSplitIsLast(name: string, cut: nat)
    ensures LastSplit(name, cut) <= cut && (LastSplit(name, cut) > 0 ==> SplitsAt(name, LastSplit(name, cut)))
    ensures forall k | LastSplit(name, cut) < k <= cut :: !SplitsAt(name, k)
    decreases cut
  {
    hide SplitsAt;
    if cut > 0 && !SplitsAt(name, cut) {
      LastSplitIsLast(name, cut - 1);
    }
  }

  function Text(base: string, reading: Reading, params: bool): string {
    Join(reading.scope + [base], "::") +
    (if params && reading.arguments.Some?
     then "(" + reading.arguments.value + ")" + (if reading.isConst then " const" else "") else "")
  }

  function DemangleOf(name: string, params: bool): Option<string> {
    var cut := LastSplit(name, |name|);
    LastSplitIsLast(name, |name|);
    if cut == 0 then None else Some(Text(name[..cut], Signature(name[cut + 2..]).value, params))
  }

  // ------------------------------------------------------------------- mangling names

  datatype Ty =
    | Basic(c: char)
    | Class(parts: seq<string>)
    | Array(length: nat, inner: Ty)
    | Func(params: seq<Ty>, ret: Ty)
    | Member(parts: seq<string>, inner: Ty)
    | Modified(p: char, inner: Ty)

  datatype Decl = Decl(scope: seq<string>, base: string, sig: Sig)

  datatype Sig = Data | Method(isConst: bool, params: seq<Ty>, ret: Option<Ty>)

  function MangleId(id: string): string {
    Decimal(|id|) + id
  }

  function MangleIds(ids: seq<string>): string {
    if ids == [] then "" else MangleId(ids[0]) + MangleIds(ids[1..])
  }

  function MangleClass(parts: seq<string>): string
    requires 0 < |parts| < 10
  {
    if |parts| == 1 then MangleId(parts[0]) else "Q" + [DigitOf(|parts|)] + MangleIds(parts)
  }

  /** Identifiers the scheme can name: not empty, and not starting with a digit. */
  predicate GoodId(id: string) {
    id != "" && !IsDigit(id[0])
  }

  predicate GoodIds(ids: seq<string>) {
    forall i | 0 <= i < |ids| :: GoodId(ids[i])
  }

  predicate GoodClass(parts: seq<string>) {
    0 < |parts| < 10 && GoodIds(parts)
  }

  predicate Good(t: Ty) {
    match t
    case Basic(c) => Builtin(c).Some?
    case Class(parts) => GoodClass(parts)
    case Array(_, inner) => Good(inner)
    case Func(params, ret) => (forall i | 0 <= i < |params| :: Good(params[i])) && Good(ret)
    case Member(parts, inner) => GoodClass(parts) && Good(inner)
    case Modified(p, inner) => p in MODIFIERS && Good(inner)
  }

  function Mangle(t: Ty): string
    requires Good(t)
    decreases t, 1
  {
    match t
    case Basic(c) => [c]
    case Class(parts) => MangleClass(parts)
    case Array(length, inner) => "A" + Decimal(length) + "_" + Mangle(inner)
    case Func(params, ret) => "F" + MangleParams(params) + "_" + Mangle(ret)
    case Member(parts, inner) => "M" + MangleClass(parts) + Mangle(inner)
    case Modified(p, inner) => [p] + Mangle(inner)
  }

  /** Every parameter's type in turn; `v` for none. */
  function MangleParams(params: seq<Ty>): string
    requires forall i | 0 <= i < |params| :: Good(params[i])
    decreases params, 2
  {
    if params == [] then "v" else MangleAll(params)
  }

  function MangleAll(params: seq<Ty>): string
    requires forall i | 0 <= i < |params| :: Good(params[i])
    decreases params, 1
  {
    if params == [] then "" else Mangle(params[0]) + MangleAll(params[1..])
  }

  function Render(t: Ty): string
    requires Good(t)
    decreases t, 1
  {
    match t
    case Basic(c) => Builtin(c).value
    case Class(parts) => Join(parts, "::")
    case Array(length, inner) => ArrayText(Render(inner), length)
    case Func(params, ret) => FunctionText(Render(ret), Arguments(RenderAll(params)))
    case Member(parts, inner) => MemberText(Render(inner), parts)
    case Modified(p, inner) => Modify(p, Render(inner))
  }

  function RenderAll(params: seq<Ty>): seq<string>
    requires forall i | 0 <= i < |params| :: Good(params[i])
    decreases params, 1
  {
    if params == [] then [] else [Render(params[0])] + RenderAll(params[1..])
  }

  // ------------------------------------------------------------ reading what was mangled

  lemma NumberOfDecimal(n: nat, rest: string)
    requires rest != "" ==> !IsDigit(rest[0])
    ensures Number(Decimal(n) + rest) == Some((n, rest))
  {
    DigitsOfAppend(Decimal(n), rest);
    ValueOfDecimal(n);
  }

  lemma IdentifierReads(id: string, rest: string)
    requires GoodId(id)
    ensures Identifier(MangleId(id) + rest) == Some((id, rest))
  {
    hide Number, Decimal;
    Associative(Decimal(|id|), id, rest);
    NumberOfDecimal(|id|, id + rest);
  }

  lemma {:induction false} IdentifiersRead(ids: seq<string>, rest: string)
    requires GoodIds(ids)
    ensures Identifiers(MangleIds(ids) + rest, |ids|) == Some((ids, rest))
    decreases |ids|
  {
    hide Identifier, MangleId;
    if ids != [] {
      Associative(MangleId(ids[0]), MangleIds(ids[1..]), rest);
      IdentifierReads(ids[0], MangleIds(ids[1..]) + rest);
      IdentifiersRead(ids[1..], rest);
      assert [ids[0]] + ids[1..] == ids;
    } else {
      assert MangleIds(ids) + rest == rest;
    }
  }

  lemma ClassReads(parts: seq<string>, rest: string)
    requires GoodClass(parts)
    ensures Qualified(MangleClass(parts) + rest) == Some((parts, rest))
    ensures MangleClass(parts) != "" && (IsDigit(MangleClass(parts)[0]) || MangleClass(parts)[0] == 'Q')
  {
    hide Identifier, Identifiers;
    if |parts| == 1 {
      OneClassReads(parts[0], rest);
      assert parts == [parts[0]];
    } else {
      IdentifiersRead(parts, rest);
      hide MangleIds;
      CountedReads(|parts|, MangleIds(parts) + rest);
      assert MangleClass(parts) + rest == "Q" + [DigitOf(|parts|)] + (MangleIds(parts) + rest);
    }
  }

  lemma CountedReads(n: nat, s: string)
    requires n < 10
    ensures Qualified("Q" + [DigitOf(n)] + s) == Identifiers(s, n)
  {
    hide Identifier, Identifiers;
    assert ("Q" + [DigitOf(n)] + s)[2..] == s;
  }

  lemma OneClassReads(id: string, rest: string)
    requires GoodId(id)
    ensures Qualified(MangleClass([id]) + rest) == Some(([id], rest))
    ensures MangleClass([id]) != "" && IsDigit(MangleClass([id])[0])
  {
    IdentifierReads(id, rest);
    assert Decimal(|id|)[0] in Decimal(|id|);
    hide Identifier, Identifiers, Decimal;
  }

  /** The first character of a mangled type says which kind it is; it is never an underscore. */
  lemma Heads(t: Ty)
    requires Good(t)
    ensures Mangle(t) != "" && Mangle(t)[0] != '_'
    ensures !t.Modified? ==> Mangle(t)[0] !in MODIFIERS
  {
    match t
    case Class(parts) => ClassReads(parts, "");
    case _ =>
  }

  /** What a type's first letter makes the rest of it. */
  lemma LetterReads(s: string)
    ensures Type("A" + s) == ArrayType(s) && Type("F" + s) == FunctionType(s) && Type("M" + s) == MemberType(s)
  {
    hide Qualified, ArrayType, FunctionType, MemberType;
    assert ("A" + s)[1..] == s && ("F" + s)[1..] == s && ("M" + s)[1..] == s;
  }

  lemma ModifierReads(p: char, s: string)
    requires p in MODIFIERS
    ensures Type([p] + s) == match Type(s) case None => None case Some((text, t)) => Some((Modify(p, text), t))
  {
    hide Qualified, ArrayType, FunctionType, MemberType;
    assert ([p] + s)[1..] == s;
  }

  lemma BuiltinReads(c: char, s: string)
    requires c !in MODIFIERS && Builtin(c).Some?
    ensures Type([c] + s) == Some((Builtin(c).value, s))
  {
    hide Qualified, ArrayType, FunctionType, MemberType;
    assert ([c] + s)[1..] == s;
  }

  lemma ClassTypeReads(s: string)
    requires s != "" && (IsDigit(s[0]) || s[0] == 'Q')
    ensures Type(s) == match Qualified(s) case None => None case Some((parts, t)) => Some((Join(parts, "::"), t))
  {
    hide Qualified, ArrayType, FunctionType, MemberType;
  }

  /** Reading a mangled type gives the rendered type. */
  lemma {:induction false} TypeReads(t: Ty, rest: string)
    requires Good(t)
    ensures Type(Mangle(t) + rest) == Some((Render(t), rest))
    decreases t, 1
  {
    hide Type, Qualified, MangleClass, ArrayType, FunctionType, MemberType;
    match t
    case Basic(c) =>
      BuiltinReads(c, rest);
    case Class(parts) =>
      ClassReads(parts, rest);
      ClassTypeReads(MangleClass(parts) + rest);
    case Array(length, inner) =>
      ArrayReads(t, rest);
      LetterReads(Decimal(length) + "_" + Mangle(inner) + rest);
      assert Mangle(t) + rest == "A" + (Decimal(length) + "_" + Mangle(inner) + rest);
    case Func(params, ret) =>
      FunctionReads(t, rest);
      LetterReads(MangleParams(params) + "_" + Mangle(ret) + rest);
      assert Mangle(t) + rest == "F" + (MangleParams(params) + "_" + Mangle(ret) + rest);
    case Member(parts, inner) =>
      MemberReads(t, rest);
      LetterReads(MangleClass(parts) + Mangle(inner) + rest);
      assert Mangle(t) + rest == "M" + (MangleClass(parts) + Mangle(inner) + rest);
    case Modified(p, inner) =>
      TypeReads(inner, rest);
      ModifierReads(p, Mangle(inner) + rest);
      assert Mangle(t) + rest == [p] + (Mangle(inner) + rest);
  }

  lemma {:induction false} ArrayReads(t: Ty, rest: string)
    requires t.Array? && Good(t)
    ensures ArrayType(Decimal(t.length) + "_" + Mangle(t.inner) + rest) == Some((Render(t), rest))
    decreases t, 0
  {
    hide Number, Decimal, Type;
    var after := "_" + Mangle(t.inner) + rest;
    assert Decimal(t.length) + "_" + Mangle(t.inner) + rest == Decimal(t.length) + after;
    NumberOfDecimal(t.length, after);
    assert after[1..] == Mangle(t.inner) + rest;
    TypeReads(t.inner, rest);
  }

  lemma {:induction false} MemberReads(t: Ty, rest: string)
    requires t.Member? && Good(t)
    ensures MemberType(MangleClass(t.parts) + Mangle(t.inner) + rest) == Some((Render(t), rest))
    decreases t, 0
  {
    hide Qualified, MangleClass, Type;
    Associative(MangleClass(t.parts), Mangle(t.inner), rest);
    ClassReads(t.parts, Mangle(t.inner) + rest);
    TypeReads(t.inner, rest);
  }

  lemma {:induction false} FunctionReads(t: Ty, rest: string)
    requires t.Func? && Good(t)
    ensures FunctionType(MangleParams(t.params) + "_" + Mangle(t.ret) + rest) == Some((Render(t), rest))
    decreases t, 0
  {
    hide Params, MangleParams, Type;
    var after := "_" + Mangle(t.ret) + rest;
    assert MangleParams(t.params) + "_" + Mangle(t.ret) + rest == MangleParams(t.params) + after;
    ParamsRead(t.params, after);
    assert after[1..] == Mangle(t.ret) + rest;
    TypeReads(t.ret, rest);
  }

  /** Reading a mangled parameter list gives the rendered one. */
  lemma {:induction false} ParamsRead(params: seq<Ty>, rest: string)
    requires forall i | 0 <= i < |params| :: Good(params[i])
    requires rest == "" || rest[0] == '_'
    ensures Params(MangleParams(params) + rest).Some?
    ensures var (types, t) := Params(MangleParams(params) + rest).value;
            t == rest && Arguments(types) == Arguments(RenderAll(params))
    decreases params, 3
  {
    if params == [] {
      assert ("v" + rest)[1..] == rest;
    } else {
      AllRead(params, rest);
    }
  }

  lemma {:induction false} AllRead(params: seq<Ty>, rest: string)
    requires forall i | 0 <= i < |params| :: Good(params[i])
    requires rest == "" || rest[0] == '_'
    ensures Params(MangleAll(params) + rest) == Some((RenderAll(params), rest))
    decreases params, 2
  {
    hide Type;
    if params == [] {
      assert MangleAll(params) + rest == rest;
    } else {
      var after := MangleAll(params[1..]) + rest;
      assert MangleAll(params) + rest == Mangle(params[0]) + after;
      Heads(params[0]);
      TypeReads(params[0], after);
      AllRead(params[1..], rest);
    }
  }

  // ------------------------------------------------------------------- whole names

  predicate GoodSig(sig: Sig) {
    sig.Method? ==> (forall i | 0 <= i < |sig.params| :: Good(sig.params[i])) && (sig.ret.Some? ==> Good(sig.ret.value))
  }

  /** A declaration the scheme can name; data is in a class. */
  predicate GoodDecl(d: Decl) {
    && d.base != "" && |d.scope| < 10 && GoodIds(d.scope) && GoodSig(d.sig)
    && (d.sig.Data? ==> d.scope != [])
  }

  function MangleReturn(ret: Option<Ty>): string
    requires ret.Some? ==> Good(ret.value)
  {
    if ret.Some? then "_" + Mangle(ret.value) else ""
  }

  function MangleSig(sig: Sig): string
    requires GoodSig(sig)
  {
    match sig
    case Data => ""
    case Method(isConst, params, ret) =>
      (if isConst then "C" else "") + "F" + (MangleParams(params) + MangleReturn(ret))
  }

  /** What follows the two underscores. */
  function MangledSignature(d: Decl): string
    requires GoodDecl(d)
  {
    (if d.scope == [] then "" else MangleClass(d.scope)) + MangleSig(d.sig)
  }

  function MangleDecl(d: Decl): string
    requires GoodDecl(d)
  {
    d.base + "__" + MangledSignature(d)
  }

  function ReadingOf(d: Decl): Reading
    requires GoodDecl(d)
  {
    match d.sig
    case Data => Reading(d.scope, false, None)
    case Method(isConst, params, _) => Reading(d.scope, isConst, Some(Arguments(RenderAll(params))))
  }

  function RenderDecl(d: Decl, params: bool): string
    requires GoodDecl(d)
  {
    Text(d.base, ReadingOf(d), params)
  }

  lemma FunctionReadsBack(params: seq<Ty>, ret: Option<Ty>)
    requires (forall i | 0 <= i < |params| :: Good(params[i])) && (ret.Some? ==> Good(ret.value))
    ensures Function(MangleParams(params) + MangleReturn(ret)) == Some(Arguments(RenderAll(params)))
  {
    hide Params, Type, Mangle, MangleParams, Arguments;
    var rest := MangleReturn(ret);
    ParamsRead(params, rest);
    if ret.Some? {
      assert rest[1..] == Mangle(ret.value) + "";
      TypeReads(ret.value, "");
    }
  }

  /** Reading the signature of a mangled name gives the declaration's. */
  lemma SignatureReads(d: Decl)
    requires GoodDecl(d)
    ensures Signature(MangledSignature(d)) == Some(ReadingOf(d))
  {
    hide Qualified, MangleClass, Function, MangleParams, MangleReturn, Arguments, RenderAll;
    var after := MangleSig(d.sig);
    if d.scope != [] {
      ClassReads(d.scope, after);
    } else {
      assert MangledSignature(d) == after;
    }
    if d.sig.Method? {
      var body := MangleParams(d.sig.params) + MangleReturn(d.sig.ret);
      FunctionReadsBack(d.sig.params, d.sig.ret);
      assert after == (if d.sig.isConst then "CF" else "F") + body;
      assert (if d.sig.isConst then after[1..][1..] else after[1..]) == body;
    }
  }

  /** No two underscores within the signature of a name start what reads as a signature. */
  ghost predicate Unambiguous(d: Decl)
    requires GoodDecl(d)
  {
    forall k | 0 < k <= |MangledSignature(d)| :: !SplitsAt(MangledSignature(d), k)
  }

  lemma SplitPast(base: string, sig: string, cut: nat)
    requires |base| < cut && sig != "" && sig[0] != '_'
    ensures SplitsAt(base + "__" + sig, cut) <==> cut > |base| + 2 && SplitsAt(sig, cut - |base| - 2)
  {
    hide Signature;
    var name, k := base + "__" + sig, cut - |base| - 2;
    if cut + 2 <= |name| {
      assert name[cut + 1] == sig[k + 1];
      assert k >= 0 ==> name[cut] == sig[k];
      assert k >= 0 ==> name[cut + 2..] == sig[k + 2..];
    }
  }

  lemma SplitsAtBase(d: Decl)
    requires GoodDecl(d)
    ensures SplitsAt(MangleDecl(d), |d.base|) && |d.base| <= |MangleDecl(d)|
    ensures MangledSignature(d) != "" && MangledSignature(d)[0] != '_'
  {
    SignatureReads(d);
    hide MangledSignature, ReadingOf;
    assert MangleDecl(d)[|d.base| + 2..] == MangledSignature(d);
  }

  /** A name is split where its base ends, exactly when it is unambiguous. */
  lemma SplitIsBase(d: Decl)
    requires GoodDecl(d)
    ensures LastSplit(MangleDecl(d), |MangleDecl(d)|) == |d.base| <==> Unambiguous(d)
  {
    hide MangledSignature, SplitsAt, LastSplit;
    var name, sig, n := MangleDecl(d), MangledSignature(d), |d.base|;
    SplitsAtBase(d);
    LastSplitIsLast(name, |name|);
    var cut := LastSplit(name, |name|);
    if cut > n {
      SplitPast(d.base, sig, cut);
    }
    if !Unambiguous(d) {
      var k :| 0 < k <= |sig| && SplitsAt(sig, k);
      SplitPast(d.base, sig, n + 2 + k);
      SplitFits(name, n + 2 + k);
    }
  }

  lemma SplitFits(name: string, cut: nat)
    requires SplitsAt(name, cut)
    ensures cut <= |name|
  {
  }

  /** Demangling a mangled name gives the rendered declaration. */
  lemma DemangleInvertsMangling(d: Decl, params: bool)
    requires GoodDecl(d) && Unambiguous(d)
    ensures DemangleOf(MangleDecl(d), params) == Some(RenderDecl(d, params))
  {
    hide Signature, LastSplit, Text, MangledSignature;
    SplitIsBase(d);
    SignatureReads(d);
    var name := MangleDecl(d);
    assert name[..|d.base|] == d.base && name[|d.base| + 2..] == MangledSignature(d);
  }

  // ------------------------------------------------------- the base, from a rendered name

  /** No colon and no parenthesis, which is what renderings are put together with. */
  predicate Plain(s: string) {
    ':' !in s && '(' !in s
  }

  function UpToArguments(s: string): string {
    if s == "" || s[0] == '(' then "" else [s[0]] + UpToArguments(s[1..])
  }

  function PastScope(s: string): string {
    if s == "" || s[|s| - 1] == ':' then "" else PastScope(s[..|s| - 1]) + [s[|s| - 1]]
  }

  lemma {:induction false} ArgumentsStart(name: string, rest: string)
    requires '(' !in name && (rest == "" || rest[0] == '(')
    ensures UpToArguments(name + rest) == name
    decreases |name|
  {
    if name == "" {
      assert name + rest == rest;
    } else {
      assert (name + rest)[1..] == name[1..] + rest;
      ArgumentsStart(name[1..], rest);
    }
  }

  lemma {:induction false} ScopeEnds(scope: string, base: string)
    requires ':' !in base && (scope == "" || scope[|scope| - 1] == ':')
    ensures PastScope(scope + base) == base
    decreases |base|
  {
    if base == "" {
      assert scope + base == scope;
    } else {
      assert (scope + base)[..|scope + base| - 1] == scope + base[..|base| - 1];
      ScopeEnds(scope, base[..|base| - 1]);
    }
  }

  /** A qualified name is its scope's part, which ends in a colon, and its base. */
  lemma {:induction false} JoinedBase(scope: seq<string>, base: string) returns (before: string)
    requires forall part | part in scope :: '(' !in part
    ensures Join(scope + [base], "::") == before + base
    ensures (before == "" || before[|before| - 1] == ':') && '(' !in before
    decreases |scope|
  {
    if scope == [] {
      assert scope + [base] == [base];
      before := "";
    } else {
      var rest := JoinedBase(scope[1..], base);
      assert (scope + [base])[1..] == scope[1..] + [base];
      before := scope[0] + "::" + rest;
    }
  }

  /** A rendering tells the base it was made with. */
  lemma BaseOfText(base: string, reading: Reading, params: bool)
    requires Plain(base) && forall part | part in reading.scope :: '(' !in part
    ensures PastScope(UpToArguments(Text(base, reading, params))) == base
  {
    var before := JoinedBase(reading.scope, base);
    var name := before + base;
    var rest := if params && reading.arguments.Some?
                then "(" + reading.arguments.value + ")" + (if reading.isConst then " const" else "") else "";
    assert Text(base, reading, params) == name + rest;
    ArgumentsStart(name, rest);
    ScopeEnds(before, base);
  }

  lemma {:induction false} IdentifiersAreText(s: string, count: nat)
    ensures Identifiers(s, count).Some? ==> forall part | part in Identifiers(s, count).value.0 :: Within(part, s)
    decreases count
  {
    if count > 0 && Identifier(s).Some? {
      var (part, t) := Identifier(s).value;
      hide Number;
      IdentifierIsText(s);
      IdentifiersAreText(t, count - 1);
    }
  }

  lemma IdentifierIsText(s: string)
    ensures Identifier(s).Some? ==> Within(Identifier(s).value.0, s) && Within(Identifier(s).value.1, s)
  {
  }

  /** All characters of one text are another's. */
  ghost predicate Within(part: string, s: string) {
    forall c | c in part :: c in s
  }

  /** What a signature names as the class are parts of its text. */
  lemma ScopeIsText(rest: string)
    requires Signature(rest).Some?
    ensures forall part | part in Signature(rest).value.scope :: Within(part, rest)
  {
    hide Function, Number;
    if rest[0] == 'Q' {
      IdentifiersAreText(rest[2..], DigitValue(rest[1]));
    } else {
      IdentifierIsText(rest);
    }
  }

  /** Demangling a mangled name gives the rendered declaration exactly when the name is unambiguous. */
  lemma DemangleExactly(d: Decl, params: bool)
    requires GoodDecl(d) && Plain(MangleDecl(d))
    ensures DemangleOf(MangleDecl(d), params) == Some(RenderDecl(d, params)) <==> Unambiguous(d)
  {
    hide Signature, LastSplit, Text, MangledSignature, ReadingOf, Unambiguous;
    var name, n := MangleDecl(d), |d.base|;
    SplitIsBase(d);
    SignatureReads(d);
    LastSplitIsLast(name, |name|);
    assert name[..n] == d.base && name[n + 2..] == MangledSignature(d);
    if Unambiguous(d) {
      DemangleInvertsMangling(d, params);
    } else if DemangleOf(name, params) == Some(RenderDecl(d, params)) {
      var cut := LastSplit(name, |name|);
      ScopeIsText(name[n + 2..]);
      ScopeIsText(name[cut + 2..]);
      BaseOfText(d.base, ReadingOf(d), params);
      BaseOfText(name[..cut], Signature(name[cut + 2..]).value, params);
      assert false;
    }
  }

  // --------------------------------------------------------- names that are unambiguous

  predicate DoubleAt(s: string, k: nat) {
    k + 1 < |s| && s[k] == '_' && s[k + 1] == '_'
  }

  /** No two underscores in a row, and none at either end. */
  ghost predicate Tidy(s: string) {
    s != "" && s[0] != '_' && s[|s| - 1] != '_' && forall k: nat :: !DoubleAt(s, k)
  }

  /** An identifier without two underscores in a row, or one at its end. */
  ghost predicate CleanId(id: string) {
    id != "" && id[|id| - 1] != '_' && forall k: nat :: !DoubleAt(id, k)
  }

  ghost predicate CleanIds(ids: seq<string>) {
    forall i | 0 <= i < |ids| :: CleanId(ids[i])
  }

  ghost predicate Clean(t: Ty) {
    match t
    case Basic(_) => true
    case Class(parts) => CleanIds(parts)
    case Array(_, inner) => Clean(inner)
    case Func(params, ret) => (forall i | 0 <= i < |params| :: Clean(params[i])) && Clean(ret)
    case Member(parts, inner) => CleanIds(parts) && Clean(inner)
    case Modified(_, inner) => Clean(inner)
  }

  ghost predicate CleanDecl(d: Decl) {
    && CleanIds(d.scope)
    && (d.sig.Method? ==>
          (forall i | 0 <= i < |d.sig.params| :: Clean(d.sig.params[i]))
            && (d.sig.ret.Some? ==> Clean(d.sig.ret.value)))
  }

  lemma TidyAppend(a: string, b: string)
    requires Tidy(a) && (b == "" || Tidy(b))
    ensures Tidy(a + b)
  {
    forall k: nat ensures !DoubleAt(a + b, k) {
      assert !DoubleAt(a, k);
      if k >= |a| {
        assert !DoubleAt(b, k - |a|);
      }
    }
  }

  lemma TidyJoin(a: string, b: string)
    requires Tidy(a) && Tidy(b)
    ensures Tidy(a + "_" + b)
  {
    forall k: nat ensures !DoubleAt(a + "_" + b, k) {
      assert !DoubleAt(a, k);
      if k > |a| {
        assert !DoubleAt(b, k - |a| - 1);
      }
    }
  }

  lemma TidyDigits(d: string)
    requires d != "" && forall c | c in d :: IsDigit(c)
    ensures Tidy(d)
  {
    forall k: nat ensures !DoubleAt(d, k) {
      assert k < |d| ==> d[k] in d;
    }
    assert d[0] in d && d[|d| - 1] in d;
  }

  lemma TidyChar(c: char)
    requires c != '_'
    ensures Tidy([c])
  {
  }

  lemma TidyId(id: string)
    requires CleanId(id)
    ensures Tidy(MangleId(id))
  {
    var d := Decimal(|id|);
    TidyDigits(d);
    assert d[0] in d && d[|d| - 1] in d;
    forall k: nat ensures !DoubleAt(d + id, k) {
      assert !DoubleAt(d, k);
      if k >= |d| {
        assert !DoubleAt(id, k - |d|);
      }
    }
  }

  lemma {:induction false} TidyIds(ids: seq<string>)
    requires ids != [] && CleanIds(ids)
    ensures Tidy(MangleIds(ids))
    decreases |ids|
  {
    hide Tidy, CleanId, MangleId;
    TidyId(ids[0]);
    if |ids| == 1 {
      assert MangleIds(ids) == MangleId(ids[0]);
    } else {
      TidyIds(ids[1..]);
      TidyAppend(MangleId(ids[0]), MangleIds(ids[1..]));
    }
  }

  lemma TidyClass(parts: seq<string>)
    requires GoodClass(parts) && CleanIds(parts)
    ensures Tidy(MangleClass(parts))
  {
    hide Tidy, MangleIds;
    if |parts| == 1 {
      TidyId(parts[0]);
    } else {
      TidyIds(parts);
      TidyChar('Q');
      TidyChar(DigitOf(|parts|));
      TidyAppend("Q", [DigitOf(|parts|)]);
      TidyAppend("Q" + [DigitOf(|parts|)], MangleIds(parts));
    }
  }

  lemma {:induction false} TidyType(t: Ty)
    requires Good(t) && Clean(t)
    ensures Tidy(Mangle(t))
    decreases t, 1
  {
    hide Tidy, MangleClass, Decimal;
    match t
    case Basic(c) => TidyChar(c);
    case Class(parts) => TidyClass(parts);
    case Array(length, inner) =>
      TidyType(inner);
      TidyChar('A');
      TidyDigits(Decimal(length));
      TidyAppend("A", Decimal(length));
      TidyJoin("A" + Decimal(length), Mangle(inner));
    case Func(params, ret) =>
      TidyType(ret);
      TidyParams(params);
      TidyChar('F');
      TidyAppend("F", MangleParams(params));
      TidyJoin("F" + MangleParams(params), Mangle(ret));
    case Member(parts, inner) =>
      TidyType(inner);
      TidyClass(parts);
      TidyChar('M');
      TidyAppend("M", MangleClass(parts));
      TidyAppend("M" + MangleClass(parts), Mangle(inner));
    case Modified(p, inner) =>
      TidyType(inner);
      TidyChar(p);
      TidyAppend([p], Mangle(inner));
  }

  lemma {:induction false} TidyParams(params: seq<Ty>)
    requires forall i | 0 <= i < |params| :: Good(params[i]) && Clean(params[i])
    ensures Tidy(MangleParams(params))
    decreases params, 3
  {
    if params == [] {
      TidyChar('v');
    } else {
      TidyAll(params);
    }
  }

  lemma {:induction false} TidyAll(params: seq<Ty>)
    requires params != [] && forall i | 0 <= i < |params| :: Good(params[i]) && Clean(params[i])
    ensures Tidy(MangleAll(params))
    decreases params, 2
  {
    hide Tidy, Mangle;
    TidyType(params[0]);
    if |params| == 1 {
      assert MangleAll(params) == Mangle(params[0]);
    } else {
      TidyAll(params[1..]);
      TidyAppend(Mangle(params[0]), MangleAll(params[1..]));
    }
  }

  lemma TidySig(sig: Sig)
    requires GoodSig(sig) && sig.Method?
    requires forall i | 0 <= i < |sig.params| :: Clean(sig.params[i])
    requires sig.ret.Some? ==> Clean(sig.ret.value)
    ensures Tidy(MangleSig(sig))
  {
    hide Tidy, MangleParams, Mangle;
    TidyParams(sig.params);
    var lead, body := if sig.isConst then "CF" else "F", MangleParams(sig.params);
    TidyChar('C');
    TidyChar('F');
    TidyAppend("C", "F");
    assert "C" + "F" == "CF";
    TidyAppend(lead, body);
    if sig.ret.Some? {
      TidyType(sig.ret.value);
      TidyJoin(lead + body, Mangle(sig.ret.value));
      assert MangleSig(sig) == lead + body + "_" + Mangle(sig.ret.value);
    } else {
      assert MangleSig(sig) == lead + body;
    }
  }

  /** Identifiers without two underscores in a row, or one at their end, make names unambiguous. */
  lemma CleanIsUnambiguous(d: Decl)
    requires GoodDecl(d) && CleanDecl(d)
    ensures Unambiguous(d)
  {
    hide Tidy, MangleClass, Signature;
    if d.scope != [] {
      TidyClass(d.scope);
    }
    if d.sig.Method? {
      TidySig(d.sig);
      if d.scope != [] {
        TidyAppend(MangleClass(d.scope), MangleSig(d.sig));
      } else {
        assert MangledSignature(d) == MangleSig(d.sig);
      }
    } else {
      TidyAppend(MangleClass(d.scope), "");
      assert MangleSig(d.sig) == "";
    }
    TidyIsUnsplit(MangledSignature(d));
  }

  lemma TidyIsUnsplit(s: string)
    requires Tidy(s)
    ensures forall k | 0 < k <= |s| :: !SplitsAt(s, k)
  {
    hide Signature;
    forall k: nat ensures !SplitsAt(s, k) {
      assert !DoubleAt(s, k);
    }
  }

  /** Why an identifier must not end in an underscore: before a return type it makes two in a row. */
  lemma TrailingUnderscore()
    ensures var d := Decl([], "f", Method(false, [Func([Class(["ab_"])], Class(["A"]))], None));
            && GoodDecl(d) && MangleDecl(d) == "f__FF3ab__1A"
            && DemangleOf(MangleDecl(d), true) == Some("A::f__FF3ab") != Some(RenderDecl(d, true))
  {
    var inner := Func([Class(["ab_"])], Class(["A"]));
    var d := Decl([], "f", Method(false, [inner], None));
    var name := "f__FF3ab__1A";
    assert Mangle(inner) == "F3ab__1A" by {
      assert MangleAll(inner.params) == Mangle(Class(["ab_"])) + MangleAll([]);
    }
    assert MangleAll([inner]) == Mangle(inner) + MangleAll([]);
    assert MangleDecl(d) == name;
    assert RenderDecl(d, true)[0] == 'f' by {
      assert ReadingOf(d).scope + [d.base] == ["f"];
    }
    SplitsTooLate();
  }

  lemma SplitsTooLate()
    ensures DemangleOf("f__FF3ab__1A", true) == Some("A::f__FF3ab")
  {
    hide Qualified, Function;
    var name := "f__FF3ab__1A";
    var e := Decl(["A"], "f__FF3ab", Data);
    SignatureReads(e);
    assert MangledSignature(e) == "1A" == name[10..];
    assert SplitsAt(name, 8);
    assert !SplitsAt(name, 9) && !SplitsAt(name, 10) && !SplitsAt(name, 11) && !SplitsAt(name, 12);
    hide Signature, SplitsAt;
    LastSplitIsLast(name, 12);
    assert LastSplit(name, 12) == 8;
    assert Text(e.base, Reading(["A"], false, None), true) == "A::f__FF3ab" by {
      assert Join(["A", e.base], "::") == "A" + "::" + Join([e.base], "::");
    }
    assert name[..8] == e.base;
    assert ["A"] + [e.base] == ["A", e.base] && ["A", e.base][1..] == [e.base];
  }

  // ----------------------------------------------------------------------- the readers

  /** What a reader that stands at an index returns is what the text from there reads as. */
  predicate Agrees<T(==)>(s: string, r: Option<(T, nat)>, spec: Option<(T, string)>) {
    match r
    case None => spec.None?
    case Some((value, j)) => j <= |s| && spec == Some((value, s[j..]))
  }

  method ParseNumber(s: string, start: nat) returns (r: Option<(nat, nat)>)
    requires start <= |s|
    ensures Agrees(s, r, Number(s[start..]))
    ensures r.Some? ==> start < r.value.1
  {
    var i := start;
    while i < |s| && IsDigit(s[i])
      invariant start <= i <= |s|
      invariant forall c | c in s[start..i] :: IsDigit(c)
    {
      i := i + 1;
    }
    hide Value, Digits;
    DigitsOfAppend(s[start..i], s[i..]);
    assert s[start..i] + s[i..] == s[start..];
    assert s[start..][i - start..] == s[i..];
    if start == i {
      return None;
    }
    r := Some((Value(s[start..i]), i));
  }

  method ParseIdentifier(s: string, start: nat) returns (r: Option<(string, nat)>)
    requires start <= |s|
    ensures Agrees(s, r, Identifier(s[start..]))
    ensures r.Some? ==> start < r.value.1
  {
    var number := ParseNumber(s, start);
    hide Number;
    if number.None? {
      return None;
    }
    var (length, i) := number.value;
    if i + length > |s| {
      return None;
    }
    assert s[i..][length..] == s[i + length..];
    assert s[i..][..length] == s[i..i + length];
    r := Some((s[i..i + length], i + length));
  }

  method ParseQualified(s: string, start: nat) returns (r: Option<(seq<string>, nat)>)
    requires start <= |s|
    ensures Agrees(s, r, Qualified(s[start..]))
    ensures r.Some? ==> start < r.value.1
  {
    hide Identifier;
    if start == |s| {
      return None;
    }
    if s[start] == 'Q' {
      if start + 1 == |s| || !IsDigit(s[start + 1]) {
        return None;
      }
      var count := DigitValue(s[start + 1]);
      var i := start + 2;
      var parts: seq<string> := [];
      assert s[start..][2..] == s[i..];
      NothingAhead(Identifiers(s[i..], count));
      for k := 0 to count
        invariant start + 2 <= i <= |s|
        invariant Identifiers(s[start + 2..], count) == Ahead(parts, Identifiers(s[i..], count - k))
      {
        var part := ParseIdentifier(s, i);
        if part.None? {
          return None;
        }
        assert parts + ([part.value.0] + []) == parts + [part.value.0];
        AheadAgain(parts, part.value.0, Identifiers(s[part.value.1..], count - k - 1));
        parts := parts + [part.value.0];
        i := part.value.1;
      }
      assert parts + [] == parts;
      return Some((parts, i));
    }
    var part := ParseIdentifier(s, start);
    if part.None? {
      return None;
    }
    r := Some(([part.value.0], part.value.1));
  }

  function Ahead(parts: seq<string>, r: Option<(seq<string>, string)>): Option<(seq<string>, string)> {
    match r
    case None => None
    case Some((more, t)) => Some((parts + more, t))
  }

  lemma NothingAhead(r: Option<(seq<string>, string)>)
    ensures Ahead([], r) == r
  {
    if r.Some? {
      assert [] + r.value.0 == r.value.0;
    }
  }

  lemma AheadAgain(parts: seq<string>, part: string, r: Option<(seq<string>, string)>)
    ensures Ahead(parts, Ahead([part], r)) == Ahead(parts + [part], r)
  {
    if r.Some? {
      Associative(parts, [part], r.value.0);
    }
  }

  /** A type under several modifiers. */
  function Wrap(prefix: string, text: string): string {
    if prefix == "" then text else Modify(prefix[0], Wrap(prefix[1..], text))
  }

  lemma {:induction false} WrappedType(prefix: string, rest: string)
    requires forall c | c in prefix :: c in MODIFIERS
    ensures Type(prefix + rest) ==
            match Type(rest) case None => None case Some((text, t)) => Some((Wrap(prefix, text), t))
    decreases |prefix|
  {
    if prefix == "" {
      assert prefix + rest == rest;
    } else {
      WrappedType(prefix[1..], rest);
      assert (prefix + rest)[1..] == prefix[1..] + rest;
    }
  }

  method ParseType(s: string, start: nat) returns (r: Option<(string, nat)>)
    requires start <= |s|
    ensures Agrees(s, r, Type(s[start..]))
    ensures r.Some? ==> start < r.value.1
    decreases |s| - start, 2
  {
    var prefix := "";
    var i := start;
    while i < |s| && s[i] in MODIFIERS
      invariant start <= i <= |s| && prefix == s[start..i]
      invariant forall c | c in prefix :: c in MODIFIERS
    {
      prefix := prefix + [s[i]];
      i := i + 1;
    }
    WrappedType(prefix, s[i..]);
    assert prefix + s[i..] == s[start..];
    hide Type;
    if i == |s| {
      NoType();
      assert s[i..] == "";
      return None;
    }
    var core := ParseCore(s, i);
    if core.None? {
      return None;
    }
    var text := core.value.0;
    for k := |prefix| downto 0
      invariant text == Wrap(prefix[k..], core.value.0)
    {
      assert prefix[k..][1..] == prefix[k + 1..];
      text := Modify(prefix[k], text);
    }
    assert prefix[0..] == prefix;
    r := Some((text, core.value.1));
  }

  lemma NoType()
    ensures Type("").None?
  {
  }

  /** A type without modifiers. */
  method ParseCore(s: string, start: nat) returns (r: Option<(string, nat)>)
    requires start < |s| && s[start] !in MODIFIERS
    ensures Agrees(s, r, Type(s[start..]))
    ensures r.Some? ==> start < r.value.1
    decreases |s| - start, 1
  {
    hide Qualified, ArrayType, FunctionType, MemberType;
    var c := s[start];
    assert s[start..][1..] == s[start + 1..];
    if Builtin(c).Some? {
      r := Some((Builtin(c).value, start + 1));
    } else if IsDigit(c) || c == 'Q' {
      var name := ParseQualified(s, start);
      if name.None? {
        return None;
      }
      r := Some((Join(name.value.0, "::"), name.value.1));
    } else if c == 'A' {
      r := ParseArray(s, start + 1);
    } else if c == 'F' {
      r := ParseFunction(s, start + 1);
    } else if c == 'M' {
      r := ParseMember(s, start + 1);
    } else {
      return None;
    }
  }

  method ParseArray(s: string, start: nat) returns (r: Option<(string, nat)>)
    requires start <= |s|
    ensures Agrees(s, r, ArrayType(s[start..]))
    ensures r.Some? ==> start <= r.value.1
    decreases |s| - start, 0
  {
    hide Number, Type;
    var number := ParseNumber(s, start);
    if number.None? {
      return None;
    }
    var (length, i) := number.value;
    if i == |s| || s[i] != '_' {
      return None;
    }
    assert s[i..][1..] == s[i + 1..];
    var inner := ParseType(s, i + 1);
    if inner.None? {
      return None;
    }
    r := Some((ArrayText(inner.value.0, length), inner.value.1));
  }

  method ParseFunction(s: string, start: nat) returns (r: Option<(string, nat)>)
    requires start <= |s|
    ensures Agrees(s, r, FunctionType(s[start..]))
    ensures r.Some? ==> start <= r.value.1
    decreases |s| - start, 4
  {
    hide Params, Type, Arguments;
    var params := ParseParams(s, start);
    if params.None? {
      return None;
    }
    var (types, i) := params.value;
    if i < |s| && s[i] == '_' {
      assert s[i..][1..] == s[i + 1..];
      var ret := ParseType(s, i + 1);
      if ret.None? {
        return None;
      }
      r := Some((FunctionText(ret.value.0, Arguments(types)), ret.value.1));
    } else {
      r := Some((FunctionText("void", Arguments(types)), i));
    }
  }

  method ParseMember(s: string, start: nat) returns (r: Option<(string, nat)>)
    requires start <= |s|
    ensures Agrees(s, r, MemberType(s[start..]))
    ensures r.Some? ==> start <= r.value.1
    decreases |s| - start, 0
  {
    hide Qualified, Type;
    var name := ParseQualified(s, start);
    if name.None? {
      return None;
    }
    var inner := ParseType(s, name.value.1);
    if inner.None? {
      return None;
    }
    r := Some((MemberText(inner.value.0, name.value.0), inner.value.1));
  }

  method ParseParams(s: string, start: nat) returns (r: Option<(seq<string>, nat)>)
    requires start <= |s|
    ensures Agrees(s, r, Params(s[start..]))
    ensures r.Some? ==> start <= r.value.1
    decreases |s| - start, 3
  {
    hide Type;
    var types: seq<string> := [];
    var i := start;
    NothingAhead(Params(s[i..]));
    while i < |s| && s[i] != '_'
      invariant start <= i <= |s|
      invariant Params(s[start..]) == Ahead(types, Params(s[i..]))
    {
      var text := ParseType(s, i);
      if text.None? {
        return None;
      }
      AheadAgain(types, text.value.0, Params(s[text.value.1..]));
      types := types + [text.value.0];
      i := text.value.1;
    }
    assert types + [] == types;
    r := Some((types, i));
  }

  /** What follows the two underscores of a split. */
  method ParseSignature(rest: string) returns (r: Option<Reading>)
    ensures r == Signature(rest)
  {
    hide Qualified, Function;
    if rest == "" || !(IsDigit(rest[0]) || rest[0] in "QCF") {
      return None;
    }
    assert rest[0..] == rest;
    var scope: seq<string> := [];
    var i := 0;
    if IsDigit(rest[0]) || rest[0] == 'Q' {
      var name := ParseQualified(rest, 0);
      if name.None? {
        return None;
      }
      scope, i := name.value.0, name.value.1;
    }
    var isConst := false;
    ghost var t := rest[i..];
    if i < |rest| && rest[i] == 'C' {
      assert t[1..] == rest[i + 1..];
      isConst, i := true, i + 1;
    }
    ghost var u := rest[i..];
    if i < |rest| && rest[i] == 'F' {
      assert u[1..] == rest[i + 1..];
      var arguments := ParseArguments(rest, i + 1);
      if arguments.None? {
        return None;
      }
      return Some(Reading(scope, isConst, arguments));
    }
    if !(i == |rest| && scope != []) {
      return None;
    }
    r := Some(Reading(scope, isConst, None));
  }

  /** The arguments, and a return type that is dropped, up to the end. */
  method ParseArguments(s: string, start: nat) returns (arguments: Option<string>)
    requires start <= |s|
    ensures arguments == Function(s[start..])
  {
    hide Params, Type, Arguments;
    StopsAtUnderscore(s[start..]);
    var params := ParseParams(s, start);
    if params.None? {
      return None;
    }
    var i := params.value.1;
    ghost var v := s[i..];
    if i < |s| && s[i] == '_' {
      assert v[1..] == s[i + 1..];
      var ret := ParseType(s, i + 1);
      if ret.None? {
        return None;
      }
      i := ret.value.1;
    }
    if i != |s| {
      return None;
    }
    arguments := Some(Arguments(params.value.0));
  }

  lemma {:induction false} StopsAtUnderscore(s: string)
    ensures Params(s).Some? ==> var t := Params(s).value.1; t == "" || t[0] == '_'
    decreases |s|
  {
    hide Type;
    if s != "" && s[0] != '_' && Type(s).Some? {
      TypeShrinks(s);
      StopsAtUnderscore(Type(s).value.1);
    }
  }

  lemma TypeShrinks(s: string)
    ensures Type(s).Some? ==> |Type(s).value.1| < |s|
  {
  }

  /** Demangles a name: the split is at the last two underscores a signature follows. */
  method DemangleName(name: string, params: bool) returns (text: Option<string>)
    ensures text == DemangleOf(name, params)
  {
    hide Signature, Text;
    LastSplitIsLast(name, |name|);
    if |name| >= 2 {
      for cut := |name| - 1 downto 1
        invariant forall k | cut <= k <= |name| :: !SplitsAt(name, k)
      {
        if name[cut] == '_' && name[cut + 1] == '_' {
          var reading := ParseSignature(name[cut + 2..]);
          if reading.Some? {
            assert SplitsAt(name, cut);
            return Some(Text(name[..cut], reading.value, params));
          }
        }
      }
    }
    return None;
  }
}

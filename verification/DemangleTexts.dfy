/**
 What CodeWarrior's names read as, letter by letter and on whole names.
 */
module DemangleTexts {
  import opened Common
  import opened Demangle

  // -------------------------------------------------------------------------- one letter

  /** What each modifier makes of the type behind it. */
  lemma ModifierTexts(s: string, text: string, rest: string)
    requires Type(s) == Some((text, rest))
    ensures Type("P" + s) == Some((text + "*", rest))
    ensures Type("R" + s) == Some((text + "&", rest))
    ensures Type("U" + s) == Some(("unsigned " + text, rest))
    ensures Type("S" + s) == Some(("signed " + text, rest))
    ensures text != "" && text[|text| - 1] in {'*', '&'} ==> Type("C" + s) == Some((text + " const", rest))
    ensures !(text != "" && text[|text| - 1] in {'*', '&'}) ==> Type("C" + s) == Some(("const " + text, rest))
  {
    assert ("P" + s)[1..] == s && ("R" + s)[1..] == s && ("U" + s)[1..] == s;
    assert ("S" + s)[1..] == s && ("C" + s)[1..] == s;
  }

  /** The built-in types. */
  lemma BuiltinTexts(rest: string)
    ensures Type("v" + rest) == Some(("void", rest)) && Type("b" + rest) == Some(("bool", rest))
    ensures Type("c" + rest) == Some(("char", rest)) && Type("s" + rest) == Some(("short", rest))
    ensures Type("i" + rest) == Some(("int", rest)) && Type("l" + rest) == Some(("long", rest))
  {
    hide Type;
    BuiltinText('v', "void", rest);
    BuiltinText('b', "bool", rest);
    BuiltinText('c', "char", rest);
    BuiltinText('s', "short", rest);
    BuiltinText('i', "int", rest);
    BuiltinText('l', "long", rest);
  }

  lemma MoreBuiltinTexts(rest: string)
    ensures Type("x" + rest) == Some(("long long", rest)) && Type("f" + rest) == Some(("float", rest))
    ensures Type("d" + rest) == Some(("double", rest)) && Type("r" + rest) == Some(("long double", rest))
    ensures Type("w" + rest) == Some(("wchar_t", rest)) && Type("e" + rest) == Some(("...", rest))
  {
    hide Type;
    BuiltinText('x', "long long", rest);
    BuiltinText('f', "float", rest);
    BuiltinText('d', "double", rest);
    BuiltinText('r', "long double", rest);
    BuiltinText('w', "wchar_t", rest);
    BuiltinText('e', "...", rest);
  }

  lemma BuiltinText(c: char, text: string, rest: string)
    requires Builtin(c) == Some(text) && c !in "CPRUS"
    ensures Type([c] + rest) == Some((text, rest))
  {
    assert ([c] + rest)[1..] == rest;
  }

  /** No other letter starts a type. */
  lemma OtherLetters(s: string)
    requires s != "" && s[0] !in "CPRUSvbcsilxfdrweQAFM0123456789"
    ensures Type(s) == None
  {
    assert !IsDigit(s[0]) by {
      DigitIsOne(s[0]);
    }
  }

  lemma DigitIsOne(c: char)
    ensures IsDigit(c) <==> c in "0123456789"
  {
  }

  // --------------------------------------------------------------------- composed types

  /** A list of parameters: nothing, or void alone, is an empty one; the others are separated by commas. */
  lemma ArgumentTexts(types: seq<string>, first: string, second: string)
    ensures Arguments([]) == "" && Arguments(["void"]) == ""
    ensures first != "void" ==> Arguments([first]) == first
    ensures Arguments([first, second]) == first + ", " + second
    ensures |types| > 1 ==> Arguments([first] + types) == first + ", " + Arguments(types)
  {
    assert [first, second][1..] == [second] && Join([second], ", ") == second;
    assert ([first] + types)[1..] == types;
  }

  /** An array, with its length in decimal. */
  lemma ArrayTexts(digits: string, s: string, inner: string, rest: string)
    requires digits != "" && (forall c | c in digits :: IsDigit(c)) && Type(s) == Some((inner, rest))
    ensures Type("A" + digits + "_" + s) == Some((inner + "[" + Decimal(Value(digits)) + "]", rest))
  {
    hide Type;
    var after := digits + ("_" + s);
    DigitsOfAppend(digits, "_" + s);
    assert after[|digits|..] == "_" + s && ("_" + s)[1..] == s;
    TypeOfArray(after);
    assert "A" + digits + "_" + s == "A" + after;
  }

  lemma TypeOfArray(after: string)
    ensures Type("A" + after) == ArrayType(after)
  {
    hide ArrayType;
    assert ("A" + after)[1..] == after;
  }

  /** Decimals have the digits 0 to 9, and the value they have as such. */
  lemma DecimalDigits(n: nat, d: nat)
    requires d < 10
    ensures Decimal(d) == ["0123456789"[d]]
    ensures n > 0 ==> Decimal(n * 10 + d) == Decimal(n) + ["0123456789"[d]]
    ensures Value(Decimal(n)) == n
  {
    ValueOfDecimal(n);
    assert DigitOf(d) == "0123456789"[d];
    assert n > 0 ==> (n * 10 + d) / 10 == n && (n * 10 + d) % 10 == d;
  }

  /** A pointer to a function: what it returns, or void, and what it takes. */
  lemma FunctionTexts(s: string, types: seq<string>, rest: string)
    requires Params(s) == Some((types, rest))
    ensures rest == "" || rest[0] != '_' ==> Type("F" + s) == Some(("void (*)(" + Arguments(types) + ")", rest))
    ensures rest != "" && rest[0] == '_' ==>
              match Type(rest[1..])
              case None => Type("F" + s) == None
              case Some((ret, t)) => Type("F" + s) == Some((ret + " (*)(" + Arguments(types) + ")", t))
  {
    LetterReads(s);
    hide Type, Params, Arguments;
    assert "void" + " (*)(" == "void (*)(";
  }

  /** A pointer to a member, of a class or of a nested one. */
  lemma MemberTexts(s: string, outer: string, id: string, t: string, inner: string, rest: string)
    requires Type(t) == Some((inner, rest))
    ensures Qualified(s) == Some(([id], t)) ==> Type("M" + s) == Some((inner + " " + id + "::*", rest))
    ensures Qualified(s) == Some(([outer, id], t)) ==>
              Type("M" + s) == Some((inner + " " + outer + "::" + id + "::*", rest))
  {
    LetterReads(s);
    JoinTexts([id], outer, id);
    hide Type, Qualified, Join;
    var two := outer + "::" + id;
    assert inner + " " + outer + "::" + id + "::*" == inner + " " + two + "::*";
  }

  /** Parts of a name are joined with two colons. */
  lemma JoinTexts(parts: seq<string>, a: string, b: string)
    requires parts != []
    ensures Join([a], "::") == a && Join([a, b], "::") == a + "::" + b
    ensures Join([a] + parts, "::") == a + "::" + Join(parts, "::")
  {
    assert [a, b][1..] == [b] && ([a] + parts)[1..] == parts;
  }

  // ------------------------------------------------------------------------ whole names

  /** A name and what it is to be read as, with parameters and without. */
  lemma Reads(d: Decl, name: string, full: string, short: string)
    requires GoodDecl(d) && CleanDecl(d) && MangleDecl(d) == name
    requires RenderDecl(d, true) == full && RenderDecl(d, false) == short
    ensures DemangleOf(name, true) == Some(full) && DemangleOf(name, false) == Some(short)
  {
    CleanIsUnambiguous(d);
    DemangleInvertsMangling(d, true);
    DemangleInvertsMangling(d, false);
    hide MangleDecl, RenderDecl, DemangleOf;
  }

  /** A member function's name, from the texts of its parts. */
  lemma MemberName(d: Decl, class': string, codes: string, name: string, arguments: string)
    requires GoodDecl(d) && CleanDecl(d) && d.scope != [] && d.sig.Method? && d.sig.ret.None?
    requires MangleClass(d.scope) == class' && MangleParams(d.sig.params) == codes
    requires Join(d.scope + [d.base], "::") == name && Arguments(RenderAll(d.sig.params)) == arguments
    ensures var mangled := d.base + "__" + class' + (if d.sig.isConst then "CF" else "F") + codes;
            && DemangleOf(mangled, true) ==
               Some(name + "(" + arguments + ")" + (if d.sig.isConst then " const" else ""))
            && DemangleOf(mangled, false) == Some(name)
  {
    hide Join, Arguments, RenderAll, MangleParams, MangleClass, DemangleOf, CleanDecl;
    assert MangledSignature(d) == class' + ((if d.sig.isConst then "CF" else "F") + codes);
    assert MangleDecl(d) == d.base + "__" + class' + (if d.sig.isConst then "CF" else "F") + codes;
    assert name + ("(" + arguments + ")" + (if d.sig.isConst then " const" else "")) ==
           name + "(" + arguments + ")" + (if d.sig.isConst then " const" else "");
    assert name + "" == name;
    Reads(d, MangleDecl(d), RenderDecl(d, true), RenderDecl(d, false));
  }

  /** One that is in no class. */
  lemma FreeName(d: Decl, codes: string, arguments: string)
    requires GoodDecl(d) && CleanDecl(d) && d.scope == [] && d.sig.Method? && !d.sig.isConst
    requires MangleParams(d.sig.params) + MangleReturn(d.sig.ret) == codes
    requires Arguments(RenderAll(d.sig.params)) == arguments
    ensures DemangleOf(d.base + "__F" + codes, true) == Some(d.base + "(" + arguments + ")")
    ensures DemangleOf(d.base + "__F" + codes, false) == Some(d.base)
  {
    JoinTexts([d.base], d.base, d.base);
    hide Join, Arguments, RenderAll, MangleParams, DemangleOf, CleanDecl, MangleReturn;
    assert d.scope + [d.base] == [d.base];
    assert MangledSignature(d) == "F" + codes;
    assert MangleDecl(d) == d.base + "__F" + codes;
    assert d.base + ("(" + arguments + ")" + "") == d.base + "(" + arguments + ")" && d.base + "" == d.base;
    Reads(d, MangleDecl(d), RenderDecl(d, true), RenderDecl(d, false));
  }

  lemma MangledOne(t: Ty)
    requires Good(t)
    ensures MangleParams([t]) == Mangle(t) && RenderAll([t]) == [Render(t)]
  {
    assert [t][1..] == [];
    assert MangleAll([t]) == Mangle(t) + MangleAll([]);
  }

  lemma MangledMore(t: Ty, more: seq<Ty>)
    requires Good(t) && more != [] && forall i | 0 <= i < |more| :: Good(more[i])
    ensures MangleParams([t] + more) == Mangle(t) + MangleParams(more)
    ensures RenderAll([t] + more) == [Render(t)] + RenderAll(more)
  {
    assert ([t] + more)[1..] == more;
  }

  lemma ThreeParts(a: string, b: string, c: string)
    ensures MangleClass([a, b, c]) == "Q3" + MangleId(a) + MangleId(b) + MangleId(c)
    ensures Join([a, b, c], "::") == a + "::" + b + "::" + c
    ensures Join([a, b, c, "Animate"], "::") == a + "::" + b + "::" + c + "::Animate"
  {
    hide MangleId;
    assert [a, b, c][1..] == [b, c] && [b, c][1..] == [c] && [c][1..] == [];
    assert [a, b, c, "Animate"][1..] == [b, c, "Animate"] && [b, c, "Animate"][1..] == [c, "Animate"];
    assert [c, "Animate"][1..] == ["Animate"];
    assert MangleIds([c]) == MangleId(c);
    JoinTexts([b, c], b, c);
    assert MangleIds([b, c]) == MangleId(b) + MangleId(c);
    assert Join([c, "Animate"], "::") == c + "::" + "Animate" == c + "::Animate";
    assert Join([b, c, "Animate"], "::") == b + "::" + (c + "::Animate");
    assert DigitOf(3) == '3' && "Q" + ['3'] == "Q3";
  }

  const PANE := ["nw4r", "lyt", "Pane"]
  const BASIC := ["nw4r", "lyt", "AnimTransformBasic"]

  lemma PaneIs()
    ensures MangleClass(PANE) == "Q34nw4r3lyt4Pane" && Join(PANE, "::") == "nw4r::lyt::Pane"
    ensures GoodClass(PANE) && CleanIds(PANE)
  {
    assert Decimal(3) == "3" && Decimal(4) == "4";
    ThreeParts("nw4r", "lyt", "Pane");
    hide MangleClass, Join;
  }

  lemma BasicIs()
    ensures MangleClass(BASIC) == "Q34nw4r3lyt18AnimTransformBasic"
  {
    assert Decimal(3) == "3" && Decimal(4) == "4" && Decimal(18) == "18";
    ThreeParts("nw4r", "lyt", "AnimTransformBasic");
    assert MangleId("nw4r") == "4nw4r" && MangleId("lyt") == "3lyt";
    LongId();
    hide MangleClass, Join, Decimal, MangleId;
    BasicText();
  }

  lemma BasicText()
    ensures "Q3" + "4nw4r" + "3lyt" + "18AnimTransformBasic" == "Q34nw4r3lyt18AnimTransformBasic"
  {
    assert "Q3" + "4nw4r" + "3lyt" == "Q34nw4r3lyt";
  }

  lemma LongId()
    ensures MangleId("AnimTransformBasic") == "18AnimTransformBasic"
  {
    assert Decimal(18) == "18";
  }

  lemma BasicIsGood()
    ensures GoodClass(BASIC) && CleanIds(BASIC)
  {
  }

  lemma AnimateIs()
    ensures Join(BASIC + ["Animate"], "::") == "nw4r::lyt::AnimTransformBasic::Animate"
  {
    ThreeParts("nw4r", "lyt", "AnimTransformBasic");
    hide MangleClass, Join, MangleId;
    assert BASIC + ["Animate"] == ["nw4r", "lyt", "AnimTransformBasic", "Animate"];
  }

  lemma AnimateText()
    ensures "Animate" + "__" + "Q34nw4r3lyt18AnimTransformBasic" + "F" + ("Ul" + ("P" + "Q34nw4r3lyt4Pane")) ==
            "Animate__Q34nw4r3lyt18AnimTransformBasicFUlPQ34nw4r3lyt4Pane"
  {
    assert "Animate" + "__" == "Animate__";
    assert "Ul" + ("P" + "Q34nw4r3lyt4Pane") == "UlPQ34nw4r3lyt4Pane";
    AnimateClass();
    AnimateCodes();
  }

  lemma AnimateClass()
    ensures "Animate__" + "Q34nw4r3lyt18AnimTransformBasic" + "F" == "Animate__Q34nw4r3lyt18AnimTransformBasicF"
  {
  }

  lemma AnimateCodes()
    ensures "Animate__Q34nw4r3lyt18AnimTransformBasicF" + "UlPQ34nw4r3lyt4Pane" ==
            "Animate__Q34nw4r3lyt18AnimTransformBasicFUlPQ34nw4r3lyt4Pane"
  {
  }

  lemma AnimateArguments()
    ensures "unsigned long" + ", " + "nw4r::lyt::Pane*" == "unsigned long, nw4r::lyt::Pane*"
  {
  }

  lemma AnimateFull()
    ensures "nw4r::lyt::AnimTransformBasic::Animate" + "(" + "unsigned long, nw4r::lyt::Pane*" + ")" + "" ==
            "nw4r::lyt::AnimTransformBasic::Animate(unsigned long, nw4r::lyt::Pane*)"
  {
  }

  /** The documentation's example. */
  lemma AnimateName()
    ensures DemangleOf("Animate__Q34nw4r3lyt18AnimTransformBasicFUlPQ34nw4r3lyt4Pane", true) ==
            Some("nw4r::lyt::AnimTransformBasic::Animate(unsigned long, nw4r::lyt::Pane*)")
    ensures DemangleOf("Animate__Q34nw4r3lyt18AnimTransformBasicFUlPQ34nw4r3lyt4Pane", false) ==
            Some("nw4r::lyt::AnimTransformBasic::Animate")
  {
    PaneIs();
    BasicIs();
    BasicIsGood();
    AnimateIs();
    AnimateText();
    AnimateArguments();
    AnimateFull();
    hide MangleClass, Join, DemangleOf, GoodClass, CleanIds, MangleParams, RenderAll, Arguments;
    var t, u := Modified('U', Basic('l')), Modified('P', Class(PANE));
    assert Mangle(t) == "Ul" && Render(t) == "unsigned long";
    assert Mangle(u) == "P" + "Q34nw4r3lyt4Pane" && Render(u) == "nw4r::lyt::Pane*";
    hide Mangle, Render;
    MangledOne(u);
    MangledMore(t, [u]);
    assert [t] + [u] == [t, u] && [Render(t)] + [Render(u)] == [Render(t), Render(u)];
    ArgumentTexts([], Render(t), Render(u));
    MemberName(Decl(BASIC, "Animate", Method(false, [t, u], None)), "Q34nw4r3lyt18AnimTransformBasic",
               "Ul" + ("P" + "Q34nw4r3lyt4Pane"), "nw4r::lyt::AnimTransformBasic::Animate",
               "unsigned long" + ", " + "nw4r::lyt::Pane*");
  }

  lemma PointerIs()
    ensures var t := Modified('P', Basic('i')); Mangle(t) == "Pi" && Render(t) == "int*" && Good(t) && Clean(t)
    ensures "int*" != "void"
  {
    assert "int*"[0] != "void"[0];
  }

  /** A pointer. */
  lemma PointerName()
    ensures DemangleOf("f__3BarFPi", true) == Some("Bar::f(int*)")
    ensures DemangleOf("f__3BarFPi", false) == Some("Bar::f")
  {
    var t := Modified('P', Basic('i'));
    PointerIs();
    ShortClasses();
    hide Mangle, Render, Good, Clean, DemangleOf, MangleClass;
    MangledOne(t);
    OneParameter(t);
    JoinTexts(["f"], "Bar", "f");
    hide Join, Arguments, RenderAll, MangleParams;
    PointerText();
    assert ["Bar"] + ["f"] == ["Bar", "f"];
    MemberName(Decl(["Bar"], "f", Method(false, [t], None)), "3Bar", "Pi", "Bar" + "::" + "f", "int*");
  }

  lemma PointerText()
    ensures "f" + "__" + "3Bar" + "F" + "Pi" == "f__3BarFPi"
    ensures "Bar" + "::" + "f" + "(" + "int*" + ")" + "" == "Bar::f(int*)"
    ensures "Bar" + "::" + "f" == "Bar::f"
  {
  }

  lemma ShortClasses()
    ensures MangleClass(["Bar"]) == "3Bar" && MangleClass(["Pane"]) == "4Pane" && MangleClass(["Foo"]) == "3Foo"
    ensures GoodClass(["Bar"]) && GoodClass(["Pane"]) && GoodClass(["Foo"])
    ensures CleanIds(["Bar"]) && CleanIds(["Pane"]) && CleanIds(["Foo"])
  {
    assert Decimal(3) == "3" && Decimal(4) == "4";
  }

  lemma OneParameter(t: Ty)
    requires Good(t) && Render(t) != "void"
    ensures Arguments(RenderAll([t])) == Render(t)
  {
    MangledOne(t);
    ArgumentTexts([], Render(t), "");
    hide Render;
  }

  lemma TwoParameters(t: Ty, u: Ty)
    requires Good(t) && Good(u)
    ensures MangleParams([t, u]) == Mangle(t) + Mangle(u)
    ensures Arguments(RenderAll([t, u])) == Render(t) + ", " + Render(u)
  {
    hide Mangle, Render, Good;
    MangledOne(u);
    MangledMore(t, [u]);
    assert [t] + [u] == [t, u] && [Render(t)] + [Render(u)] == [Render(t), Render(u)];
    ArgumentTexts([], Render(t), Render(u));
  }

  /** References, pointers and both places of const, in a const member. */
  lemma ConstName()
    ensures DemangleOf("get__4PaneCFRCfCPv", true) == Some("Pane::get(const float&, void* const) const")
    ensures DemangleOf("get__4PaneCFRCfCPv", false) == Some("Pane::get")
  {
    var t, u := Modified('R', Modified('C', Basic('f'))), Modified('C', Modified('P', Basic('v')));
    ConstTypes();
    ShortClasses();
    hide Render, Mangle, Good, Clean, DemangleOf, MangleClass;
    TwoParameters(t, u);
    JoinTexts(["get"], "Pane", "get");
    hide Join, Arguments, RenderAll, MangleParams;
    ConstText();
    assert ["Pane"] + ["get"] == ["Pane", "get"];
    MemberName(Decl(["Pane"], "get", Method(true, [t, u], None)), "4Pane", "RCf" + "CPv", "Pane" + "::" + "get",
               "const float&" + ", " + "void* const");
  }

  lemma ConstTypes()
    ensures var t, u := Modified('R', Modified('C', Basic('f'))), Modified('C', Modified('P', Basic('v')));
            && Mangle(t) == "RCf" && Render(t) == "const float&" && Mangle(u) == "CPv" && Render(u) == "void* const"
            && Good(t) && Good(u) && Clean(t) && Clean(u)
  {
    ReferenceIs();
    ConstPointerIs();
    hide Mangle, Render, Good, Clean;
  }

  lemma ReferenceIs()
    ensures var t := Modified('R', Modified('C', Basic('f')));
            Mangle(t) == "RCf" && Render(t) == "const float&" && Good(t) && Clean(t)
  {
    assert Render(Modified('C', Basic('f'))) == "const float";
  }

  lemma ConstPointerIs()
    ensures var t := Modified('C', Modified('P', Basic('v')));
            Mangle(t) == "CPv" && Render(t) == "void* const" && Good(t) && Clean(t)
  {
    assert Render(Modified('P', Basic('v'))) == "void*";
  }

  lemma ConstText()
    ensures "get" + "__" + "4Pane" + "CF" + ("RCf" + "CPv") == "get__4PaneCFRCfCPv"
    ensures "Pane" + "::" + "get" + "(" + ("const float&" + ", " + "void* const") + ")" + " const" ==
            "Pane::get(const float&, void* const) const"
    ensures "Pane" + "::" + "get" == "Pane::get"
  {
    assert "Pane" + "::" + "get" + "(" == "Pane::get(";
    assert "const float&" + ", " + "void* const" == "const float&, void* const";
    assert "Pane::get(" + "const float&, void* const" == "Pane::get(const float&, void* const";
  }

  /** A pointer to an array, a pointer to a function, and a return type, which is not shown. */
  lemma ComposedName()
    ensures DemangleOf("g__FPA10_iFUcSc_b_v", true) == Some("g(int[10]*, bool (*)(unsigned char, signed char))")
    ensures DemangleOf("g__FPA10_iFUcSc_b_v", false) == Some("g")
  {
    ArrayIs();
    FunctionIs();
    hide Render, Mangle, Good, Clean, DemangleOf;
    var t := Modified('P', Array(10, Basic('i')));
    var u := Func([Modified('U', Basic('c')), Modified('S', Basic('c'))], Basic('b'));
    TwoParameters(t, u);
    hide Arguments, MangleParams, RenderAll;
    ReturnsNothing();
    FreeName(Decl([], "g", Method(false, [t, u], Some(Basic('v')))), "PA10_i" + "FUcSc_b" + "_v",
             "int[10]*" + ", " + "bool (*)(unsigned char, signed char)");
    ComposedText();
  }

  lemma ArrayIs()
    ensures var t := Modified('P', Array(10, Basic('i')));
            Mangle(t) == "PA10_i" && Render(t) == "int[10]*" && Good(t) && Clean(t)
  {
    assert Decimal(10) == "10";
  }

  lemma FunctionIs()
    ensures var t := Func([Modified('U', Basic('c')), Modified('S', Basic('c'))], Basic('b'));
            && Mangle(t) == "FUcSc_b" && Render(t) == "bool (*)(unsigned char, signed char)" && Good(t) && Clean(t)
  {
    var a, b := Modified('U', Basic('c')), Modified('S', Basic('c'));
    CharsAre();
    hide Mangle, Render, Good, Clean, Arguments, RenderAll, MangleParams;
    TwoParameters(a, b);
    FunctionLayer([a, b], Basic('b'));
    FunctionText();
  }

  lemma FunctionText()
    ensures "bool" + " (*)(" + ("unsigned char" + ", " + "signed char") + ")" == "bool (*)(unsigned char, signed char)"
    ensures "F" + ("Uc" + "Sc") + "_" + "b" == "FUcSc_b"
  {
    assert "unsigned char" + ", " + "signed char" == "unsigned char, signed char";
    assert "bool" + " (*)(" == "bool (*)(";
    assert "bool (*)(" + "unsigned char, signed char" == "bool (*)(unsigned char, signed char";
  }

  lemma CharsAre()
    ensures var a, b := Modified('U', Basic('c')), Modified('S', Basic('c'));
            && Mangle(a) == "Uc" && Render(a) == "unsigned char" && Good(a) && Clean(a)
            && Mangle(b) == "Sc" && Render(b) == "signed char" && Good(b) && Clean(b)
    ensures var c := Basic('b'); Mangle(c) == "b" && Render(c) == "bool" && Good(c) && Clean(c)
  {
  }

  lemma FunctionLayer(params: seq<Ty>, ret: Ty)
    requires Good(ret) && Clean(ret) && forall t | t in params :: Good(t) && Clean(t)
    ensures var t := Func(params, ret);
            && Good(t) && Clean(t) && Mangle(t) == "F" + MangleParams(params) + "_" + Mangle(ret)
            && Render(t) == Render(ret) + " (*)(" + Arguments(RenderAll(params)) + ")"
  {
  }

  lemma ReturnsNothing()
    ensures Good(Basic('v')) && Clean(Basic('v')) && MangleReturn(Some(Basic('v'))) == "_v"
  {
  }

  lemma ComposedText()
    ensures "g" + "__F" + ("PA10_i" + "FUcSc_b" + "_v") == "g__FPA10_iFUcSc_b_v"
    ensures "g" + "(" + ("int[10]*" + ", " + "bool (*)(unsigned char, signed char)") + ")" ==
            "g(int[10]*, bool (*)(unsigned char, signed char))"
  {
    assert "int[10]*" + ", " == "int[10]*, " && "g" + "(" == "g(";
    Associative("g(", "int[10]*, ", "bool (*)(unsigned char, signed char)");
    assert "g(" + "int[10]*, " == "g(int[10]*, ";
    Associative("g(int[10]*, ", "bool (*)(unsigned char, signed char)", ")");
    assert "bool (*)(unsigned char, signed char)" + ")" == "bool (*)(unsigned char, signed char))";
    ComposedEnd();
  }

  lemma ComposedEnd()
    ensures "g(int[10]*, " + "bool (*)(unsigned char, signed char))" ==
            "g(int[10]*, bool (*)(unsigned char, signed char))"
  {
  }

  /** No parameters, and static data. */
  lemma PlainNames()
    ensures DemangleOf("f__Fv", true) == Some("f()") && DemangleOf("f__Fv", false) == Some("f")
    ensures DemangleOf("s_inst__3Foo", true) == Some("Foo::s_inst")
  {
    ArgumentTexts([], "", "");
    hide DemangleOf;
    FreeName(Decl([], "f", Method(false, [], None)), "v", "");
    assert "f" + "__F" + "v" == "f__Fv" && "f" + "(" + "" + ")" == "f()";
    DataName();
  }

  lemma DataName()
    ensures DemangleOf("s_inst__3Foo", true) == Some("Foo::s_inst")
  {
    var d := Decl(["Foo"], "s_inst", Data);
    JoinTexts(["s_inst"], "Foo", "s_inst");
    assert MangleClass(["Foo"]) == "3Foo" && ["Foo"] + ["s_inst"] == ["Foo", "s_inst"];
    assert MangleDecl(d) == "s_inst__3Foo" && RenderDecl(d, true) == RenderDecl(d, false) == "Foo::s_inst";
    hide DemangleOf;
    Reads(d, "s_inst__3Foo", "Foo::s_inst", "Foo::s_inst");
  }

  /** What is not mangled is no name. */
  lemma NoName(name: string, params: bool)
    requires forall k | 0 <= k < |name| - 1 :: !(name[k] == '_' && name[k + 1] == '_')
    ensures DemangleOf(name, params) == None
  {
    LastSplitIsLast(name, |name|);
    hide Signature, LastSplit;
  }
}

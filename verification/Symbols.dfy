/** The C symbols a module emits, and that no two of them are one symbol. */
module Symbols {
  import opened Ir
  import opened Mangle

  /** What an emitted symbol stands for, over every family of them. */
  datatype Symbol =
    | Native(moduleName: string, owner: Option<string>, name: string)
    | Wrapper(moduleName: string, owner: Option<string>, name: string)
    | Interpreted(moduleName: string, owner: Option<string>, name: string)
    | TwinDefault(moduleName: string, owner: Option<string>, name: string, index: nat)
    | Struct(moduleName: string, name: string)
    | TypeObject(moduleName: string, name: string)
    | FieldMember(name: string)
    | PresenceMember(name: string)

  /** The owner's part of a symbol, where there is one. */
  function OwnerPart(owner: Option<string>): string {
    if owner.Some? then Mangled(owner.value) + "_" else ""
  }

  function InterpretedSymbol(moduleName: string, owner: Option<string>, name: string): string {
    match owner
    case Some(owner) => "byi_" + Mangled(moduleName) + "_" + Mangled(owner) + "_" + Mangled(name)
    case None => "byi_" + Mangled(moduleName) + "_" + Mangled(name)
  }

  /** A field the compiler made up carries a `$`, which no python identifier can. */
  function MemberPrefix(name: string, kind: string): string {
    "by_" + (if '$' in name then "g" else "") + kind + "_"
  }

  function Render(s: Symbol): string {
    match s
    case Native(moduleName, owner, name) => "by_" + Mangled(moduleName) + "_" + OwnerPart(owner) + Mangled(name)
    case Wrapper(moduleName, owner, name) => "byw_" + Mangled(moduleName) + "_" + OwnerPart(owner) + Mangled(name)
    case Interpreted(moduleName, owner, name) => InterpretedSymbol(moduleName, owner, name)
    case TwinDefault(moduleName, owner, name, index) => InterpretedSymbol(moduleName, owner, name) + "_d" + Digits(index, 10)
    case Struct(moduleName, name) => "By_" + Mangled(moduleName) + "_" + Mangled(name)
    case TypeObject(moduleName, name) => "By_" + Mangled(moduleName) + "_" + Mangled(name) + "_Type"
    case FieldMember(name) => MemberPrefix(name, "f") + Mangled(name)
    case PresenceMember(name) => MemberPrefix(name, "p") + Mangled(name)
  }

  // ----- every symbol is a prefix, some names, and a suffix -----

  function Prefix(s: Symbol): string {
    match s
    case Native(_, _, _) => "by_"
    case Wrapper(_, _, _) => "byw_"
    case Interpreted(_, _, _) => "byi_"
    case TwinDefault(_, _, _, _) => "byi_"
    case Struct(_, _) => "By_"
    case TypeObject(_, _) => "By_"
    case FieldMember(name) => MemberPrefix(name, "f")
    case PresenceMember(name) => MemberPrefix(name, "p")
  }

  function Path(moduleName: string, owner: Option<string>, name: string): seq<string> {
    [moduleName] + (if owner.Some? then [owner.value] else []) + [name]
  }

  function Names(s: Symbol): seq<string> {
    match s
    case Native(moduleName, owner, name) => Path(moduleName, owner, name)
    case Wrapper(moduleName, owner, name) => Path(moduleName, owner, name)
    case Interpreted(moduleName, owner, name) => Path(moduleName, owner, name)
    case TwinDefault(moduleName, owner, name, _) => Path(moduleName, owner, name)
    case Struct(moduleName, name) => [moduleName, name]
    case TypeObject(moduleName, name) => [moduleName, name]
    case FieldMember(name) => [name]
    case PresenceMember(name) => [name]
  }

  function Suffix(s: Symbol): string {
    match s
    case TwinDefault(_, _, _, index) => "_d" + Digits(index, 10)
    case TypeObject(_, _) => "_Type"
    case _ => ""
  }

  /** Mangled names with `_` between them. */
  function Joined(names: seq<string>): string
    requires names != []
  {
    if |names| == 1 then Mangled(names[0]) else Mangled(names[0]) + "_" + Joined(names[1..])
  }

  lemma JoinedTwo(a: string, b: string)
    ensures Joined([a, b]) == Mangled(a) + "_" + Mangled(b)
  {
    hide Mangled;
    assert [a, b][1..] == [b];
  }

  lemma JoinedThree(a: string, b: string, c: string)
    ensures Joined([a, b, c]) == Mangled(a) + "_" + Mangled(b) + "_" + Mangled(c)
  {
    hide Mangled;
    assert [a, b, c][1..] == [b, c];
    JoinedTwo(b, c);
  }

  lemma JoinedPath(prefix: string, moduleName: string, owner: Option<string>, name: string)
    ensures prefix + Mangled(moduleName) + "_" + OwnerPart(owner) + Mangled(name)
         == prefix + Joined(Path(moduleName, owner, name))
    ensures prefix == "byi_" ==> InterpretedSymbol(moduleName, owner, name) == prefix + Joined(Path(moduleName, owner, name))
  {
    hide Mangled;
    if owner.Some? {
      assert Path(moduleName, owner, name) == [moduleName, owner.value, name];
      JoinedThree(moduleName, owner.value, name);
    } else {
      assert Path(moduleName, owner, name) == [moduleName, name];
      JoinedTwo(moduleName, name);
    }
  }

  lemma Grouped(prefix: string, a: string, b: string, suffix: string)
    ensures prefix + a + "_" + b + suffix == prefix + (a + "_" + b) + suffix
    ensures prefix + a + "_" + b == prefix + (a + "_" + b) + ""
    ensures prefix + a == prefix + a + ""
  {
  }

  lemma RenderShape(s: Symbol)
    ensures Render(s) == Prefix(s) + Joined(Names(s)) + Suffix(s)
  {
    hide Mangled, InterpretedSymbol, OwnerPart, MemberPrefix, Digits, Path, Joined;
    match s
    case Native(moduleName, owner, name) => JoinedPath("by_", moduleName, owner, name); Grouped(Render(s), "", "", "");
    case Wrapper(moduleName, owner, name) => JoinedPath("byw_", moduleName, owner, name); Grouped(Render(s), "", "", "");
    case Interpreted(moduleName, owner, name) => JoinedPath("byi_", moduleName, owner, name); Grouped(Render(s), "", "", "");
    case TwinDefault(moduleName, owner, name, index) => JoinedPath("byi_", moduleName, owner, name);
    case Struct(moduleName, name) => JoinedTwo(moduleName, name); Grouped("By_", Mangled(moduleName), Mangled(name), "");
    case TypeObject(moduleName, name) =>
      JoinedTwo(moduleName, name);
      Grouped("By_", Mangled(moduleName), Mangled(name), "_Type");
    case FieldMember(name) => JoinedOne(name); Grouped(MemberPrefix(name, "f"), Mangled(name), "", "");
    case PresenceMember(name) => JoinedOne(name); Grouped(MemberPrefix(name, "p"), Mangled(name), "", "");
  }

  lemma JoinedOne(a: string)
    ensures Joined([a]) == Mangled(a)
  {
  }

  // ----- reading a symbol back -----

  /** Text that cannot be read as another name following: no digit, and no `_` before one. */
  predicate Ends(suffix: string) {
    !StartsWithDigit(suffix) && !(|suffix| > 1 && suffix[0] == '_' && IsDigit(suffix[1]))
  }

  lemma MangledStarts(name: string)
    ensures StartsWithDigit(Mangled(name))
  {
    DecimalIsDigits(|SpellFrom(name, 0)|);
  }

  lemma JoinedStarts(names: seq<string>)
    requires names != []
    ensures StartsWithDigit(Joined(names))
  {
    MangledStarts(names[0]);
  }

  /** Equal text read after equal text: one mangled name, and then what follows. */
  lemma SameFront(a: string, x: string, b: string, y: string)
    requires Mangled(a) + x == Mangled(b) + y && !StartsWithDigit(x) && !StartsWithDigit(y)
    ensures a == b && x == y
  {
    hide Mangled, Unmangle;
    MangleReadsBack(a, x);
    MangleReadsBack(b, y);
  }

  /** What follows the first of some joined names. */
  function AfterFirst(names: seq<string>, suffix: string): (rest: string)
    requires names != []
  {
    if |names| == 1 then suffix else "_" + Joined(names[1..]) + suffix
  }

  lemma JoinedFront(names: seq<string>, suffix: string)
    requires names != [] && !StartsWithDigit(suffix)
    ensures Joined(names) + suffix == Mangled(names[0]) + AfterFirst(names, suffix)
    ensures !StartsWithDigit(AfterFirst(names, suffix))
  {
    hide Mangled, Joined;
    JoinedSteps(names);
    if |names| > 1 {
      Regrouped(Mangled(names[0]), "_", Joined(names[1..]), suffix);
    }
  }

  lemma JoinedSteps(names: seq<string>)
    requires names != []
    ensures Joined(names) == if |names| == 1 then Mangled(names[0]) else Mangled(names[0]) + "_" + Joined(names[1..])
  {
  }

  lemma Regrouped(a: string, b: string, c: string, d: string)
    ensures (a + b + c) + d == a + (b + c + d)
  {
  }

  /** Where more names follow, an underscore and a digit do; where none do, they do not. */
  lemma AfterFirstTells(names: seq<string>, suffix: string)
    requires names != [] && Ends(suffix)
    ensures |names| > 1 <==> (var rest := AfterFirst(names, suffix); |rest| > 1 && rest[0] == '_' && IsDigit(rest[1]))
    ensures |names| > 1 ==> AfterFirst(names, suffix)[1..] == Joined(names[1..]) + suffix
  {
    hide Mangled;
    if |names| > 1 {
      JoinedStarts(names[1..]);
    }
  }

  /** Names spliced together with literal text after them are read back as the same names. */
  lemma {:induction false} JoinedReadsBack(a: seq<string>, x: string, b: seq<string>, y: string)
    requires a != [] && b != [] && Ends(x) && Ends(y) && Joined(a) + x == Joined(b) + y
    ensures a == b && x == y
    decreases |a|
  {
    hide Mangled, Joined, Ends, AfterFirst;
    EndsIs(x);
    EndsIs(y);
    JoinedFront(a, x);
    JoinedFront(b, y);
    SameFront(a[0], AfterFirst(a, x), b[0], AfterFirst(b, y));
    AfterFirstTells(a, x);
    AfterFirstTells(b, y);
    if |a| > 1 {
      JoinedReadsBack(a[1..], x, b[1..], y);
      assert a == [a[0]] + a[1..] && b == [b[0]] + b[1..];
    } else {
      AfterLast(a, x);
      AfterLast(b, y);
    }
  }

  lemma EndsIs(suffix: string)
    requires Ends(suffix)
    ensures !StartsWithDigit(suffix)
  {
  }

  lemma AfterLast(names: seq<string>, suffix: string)
    requires |names| == 1
    ensures AfterFirst(names, suffix) == suffix
  {
  }

  predicate NoDigits(s: string) {
    forall i :: 0 <= i < |s| ==> !IsDigit(s[i])
  }

  function LeadingText(s: string): nat {
    if s == "" || IsDigit(s[0]) then 0 else 1 + LeadingText(s[1..])
  }

  lemma {:induction false} LeadingTextStops(p: string, x: string)
    requires NoDigits(p) && StartsWithDigit(x)
    ensures LeadingText(p + x) == |p|
  {
    if p == "" {
      assert p + x == x;
    } else {
      assert (p + x)[1..] == p[1..] + x;
      LeadingTextStops(p[1..], x);
    }
  }

  lemma SamePrefix(p: string, x: string, q: string, y: string)
    requires NoDigits(p) && NoDigits(q) && StartsWithDigit(x) && StartsWithDigit(y) && p + x == q + y
    ensures p == q && x == y
  {
    LeadingTextStops(p, x);
    LeadingTextStops(q, y);
    assert p == (p + x)[..|p|] && q == (q + y)[..|q|];
    assert x == (p + x)[|p|..] && y == (q + y)[|q|..];
  }

  lemma ShapeFits(s: Symbol)
    ensures Names(s) != [] && NoDigits(Prefix(s)) && Ends(Suffix(s))
  {
    hide Digits;
  }

  lemma SameParts(a: Symbol, b: Symbol)
    requires Render(a) == Render(b)
    ensures Prefix(a) == Prefix(b) && Names(a) == Names(b) && Suffix(a) == Suffix(b)
  {
    hide Render, Prefix, Names, Suffix, Joined, Ends, NoDigits;
    RenderShape(a);
    RenderShape(b);
    ShapeFits(a);
    ShapeFits(b);
    JoinedStarts(Names(a));
    JoinedStarts(Names(b));
    var x, y := Joined(Names(a)) + Suffix(a), Joined(Names(b)) + Suffix(b);
    assert Render(a) == Prefix(a) + x && Render(b) == Prefix(b) + y;
    SamePrefix(Prefix(a), x, Prefix(b), y);
    JoinedReadsBack(Names(a), Suffix(a), Names(b), Suffix(b));
  }

  lemma SamePath(m: string, o: Option<string>, n: string, m': string, o': Option<string>, n': string)
    requires Path(m, o, n) == Path(m', o', n')
    ensures m == m' && o == o' && n == n'
  {
    var p, q := Path(m, o, n), Path(m', o', n');
    assert p[0] == m && q[0] == m' && p[|p| - 1] == n && q[|q| - 1] == n';
    assert |p| == 3 ==> p[1] == o.value && q[1] == o'.value;
  }

  /** The family of a symbol can be told from its prefix and its suffix. */
  lemma SameFamily(a: Symbol, b: Symbol)
    requires Prefix(a) == Prefix(b) && Suffix(a) == Suffix(b)
    ensures a.Native? <==> b.Native?
    ensures a.Wrapper? <==> b.Wrapper?
    ensures a.Interpreted? <==> b.Interpreted?
    ensures a.TwinDefault? <==> b.TwinDefault?
    ensures a.Struct? <==> b.Struct?
    ensures a.TypeObject? <==> b.TypeObject?
    ensures a.FieldMember? <==> b.FieldMember?
    ensures a.PresenceMember? <==> b.PresenceMember?
  {
    hide Digits;
    PrefixTells(a);
    PrefixTells(b);
  }

  lemma PrefixTells(s: Symbol)
    ensures |Prefix(s)| >= 3
    ensures Prefix(s)[0] == 'B' <==> s.Struct? || s.TypeObject?
    ensures Prefix(s)[2] == 'w' <==> s.Wrapper?
    ensures Prefix(s)[2] == 'i' <==> s.Interpreted? || s.TwinDefault?
    ensures Prefix(s) == "by_" <==> s.Native?
    ensures s.FieldMember? ==> Prefix(s)[|Prefix(s)| - 2] == 'f'
    ensures s.PresenceMember? ==> Prefix(s)[|Prefix(s)| - 2] == 'p'
  {
  }

  lemma SameIndex(i: nat, j: nat)
    requires "_d" + Digits(i, 10) == "_d" + Digits(j, 10)
    ensures i == j
  {
    hide Digits;
    assert ("_d" + Digits(i, 10))[2..] == Digits(i, 10);
    assert ("_d" + Digits(j, 10))[2..] == Digits(j, 10);
    DigitsParse(i, 10);
    DigitsParse(j, 10);
  }

  /** Two emitted symbols are one only where family, module, owner, name and index are. */
  lemma SymbolsAreDistinct(a: Symbol, b: Symbol)
    requires Render(a) == Render(b)
    ensures a == b
  {
    hide Render, Digits, Path;
    SameParts(a, b);
    SameFamily(a, b);
    if a.Native? || a.Wrapper? || a.Interpreted? || a.TwinDefault? {
      SamePath(a.moduleName, a.owner, a.name, b.moduleName, b.owner, b.name);
    }
    if a.TwinDefault? {
      SameIndex(a.index, b.index);
    }
  }

  // ----- every symbol is a C identifier -----

  predicate IsIdentifierPart(s: string) {
    forall i :: 0 <= i < |s| ==> IsLetter(s[i]) || IsDigit(s[i]) || s[i] == '_'
  }

  lemma DigitsIdentify(n: nat, base: nat)
    requires IsBase(base)
    ensures IsIdentifierPart(Digits(n, base))
  {
    assert forall i :: 0 <= i < |Digits(n, base)| ==> ValueOf(Digits(n, base)[i], base).Some?;
  }

  lemma {:induction false} SpellIdentifies(name: string, at: nat)
    requires at <= |name|
    ensures IsIdentifierPart(SpellFrom(name, at))
    decreases |name| - at
  {
    hide Digits;
    if at < |name| {
      SpellIdentifies(name, at + 1);
      DigitsIdentify(name[at] as int, 16);
      assert IsIdentifierPart(SpellOne(name[at], at));
    }
  }

  lemma MangledIdentifies(name: string)
    ensures IsIdentifierPart(Mangled(name))
  {
    SpellIdentifies(name, 0);
    DigitsIdentify(|SpellFrom(name, 0)|, 10);
  }

  lemma {:induction false} JoinedIdentifies(names: seq<string>)
    requires names != []
    ensures IsIdentifierPart(Joined(names))
  {
    hide Mangled;
    MangledIdentifies(names[0]);
    if |names| > 1 { JoinedIdentifies(names[1..]); }
  }

  lemma SymbolsAreIdentifiers(s: Symbol)
    ensures IsIdentifierPart(Render(s)) && Render(s) != "" && !StartsWithDigit(Render(s))
  {
    hide Render, Joined, Names, Digits;
    RenderShape(s);
    ShapeFits(s);
    JoinedIdentifies(Names(s));
    PrefixTells(s);
    if s.TwinDefault? { DigitsIdentify(s.index, 10); }
  }

  /** A member's prefix says whether the field was made up, and whether it is the value or its presence. */
  lemma MemberShape(name: string)
    ensures '$' in name ==> Render(FieldMember(name)) == "by_gf_" + Mangled(name) && Render(PresenceMember(name)) == "by_gp_" + Mangled(name)
    ensures '$' !in name ==> Render(FieldMember(name)) == "by_f_" + Mangled(name) && Render(PresenceMember(name)) == "by_p_" + Mangled(name)
  {
    hide Mangled;
  }
}

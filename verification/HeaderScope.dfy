/**
 Which names two builds of a header disagree about.

 A header is a list of definitions, each with the names it lets a module reach and the
 identifiers it spells. The answer is a set of names that is meant to be such that a module
 spelling none of them sees the same header on both sides.
 */
module HeaderScope {
  import Finite
  import opened TokenPasting

  datatype Kind = FunctionDef | Variable | Invocation | MacroDef | TypeDef | Directive | StaticAssert | Unknown

  datatype Undef = NoUndef | Undef(macro: string)

  /**
   A line of a conditional: an `#if` of any kind, an `#elif` or an `#else`. `spells` is every
   identifier on it and `below` how many definitions stand above it.
   */
  datatype Branch = Branch(text: string, spells: set<string>, below: nat)

  function SpelledOut(branches: seq<Branch>): string {
    if branches == [] then ""
    else if |branches| == 1 then branches[0].text
    else SpelledOut(branches[..|branches| - 1]) + " " + branches[|branches| - 1].text
  }

  /**
   A `#define` or `#undef` of `macro` between the braces of a definition, where it is read as
   any other text: what it says, with the conditionals around it there, and what those spell.
   */
  datatype Inside = Inside(macro: string, text: string, mentions: set<string>)

  /**
   One top-level definition, with the conditionals it stands inside, outermost first, each as
   the lines passed on the way to it, and the directives inside it. `undefines` is the macro an `#undef` names, and `runsAtLoad`
   whether an attribute marks a constructor or a destructor; both are read off the tokens.
   */
  datatype Definition = Definition(
    kind: Kind,
    key: string,
    names: set<string>,
    mentions: set<string>,
    conditions: seq<seq<Branch>>,
    inside: seq<Inside>,
    text: string,
    undefines: Undef,
    runsAtLoad: bool)
  {
    function Content(): (seq<string>, string) {
      (seq(|conditions|, i requires 0 <= i < |conditions| => SpelledOut(conditions[i])), text)
    }
  }

  /**
   Every definition in the order the header writes them, its function-like macros, and those
   the search for pasted names does not look at: object-like ones, and any inside a definition.
   */
  datatype Header = Header(order: seq<Definition>, macros: seq<Macro>, unsearched: seq<Macro>)

  datatype Outcome = Affected(names: set<string>) | Unscopable

  /** A difference in one of these is put down to its names. */
  predicate IsNamed(kind: Kind) {
    kind.FunctionDef? || kind.Variable? || kind.Invocation?
  }

  /** A difference in one of these is, where the earlier header has nothing under its key. */
  predicate IsNamedWhereNew(kind: Kind) {
    kind.MacroDef? || kind.TypeDef?
  }

  // ----- comparing the two sides -----

  /** The definitions a header keeps under `key`, in order. */
  function Under(order: seq<Definition>, key: string): (group: seq<Definition>)
    ensures forall d :: d in group <==> d in order && d.key == key
  {
    if order == [] then []
    else (if order[0].key == key then [order[0]] else []) + Under(order[1..], key)
  }

  function Contents(group: seq<Definition>): seq<(seq<string>, string)> {
    seq(|group|, i requires 0 <= i < |group| => group[i].Content())
  }

  /** Both sides hold the same definitions under `key`, counted and with their conditions. */
  predicate SameUnder(before: Header, after: Header, key: string) {
    multiset(Contents(Under(before.order, key))) == multiset(Contents(Under(after.order, key)))
  }

  function Keys(before: Header, after: Header): set<string> {
    set d | d in before.order + after.order :: d.key
  }

  /** A difference under `d`'s key can be put down to the names `d` defines. */
  predicate Attributable(before: Header, d: Definition) {
    IsNamed(d.kind) || (IsNamedWhereNew(d.kind) && Under(before.order, d.key) == [])
  }

  ghost predicate AllAttributable(before: Header, after: Header) {
    forall d :: d in before.order + after.order && !SameUnder(before, after, d.key) ==> Attributable(before, d)
  }

  /**
   A difference under `d`'s key that no names can answer for: a macro or a type that changed or
   went away, a directive, an assertion, or what could not be read.
   */
  ghost predicate IsBeyondNames(before: Header, after: Header, d: Definition) {
    && d in before.order + after.order && !SameUnder(before, after, d.key)
    && match d.kind
       case FunctionDef => false
       case Variable => false
       case Invocation => false
       case MacroDef => exists was :: was in before.order && was.key == d.key
       case TypeDef => exists was :: was in before.order && was.key == d.key
       case Directive => true
       case StaticAssert => true
       case Unknown => true
  }

  lemma AttributableMeans(before: Header, after: Header)
    ensures AllAttributable(before, after) <==> forall d :: !IsBeyondNames(before, after, d)
  {
    forall d | d in before.order + after.order && !SameUnder(before, after, d.key)
      ensures Attributable(before, d) <==> !IsBeyondNames(before, after, d)
    {
      if Under(before.order, d.key) != [] {
        assert Under(before.order, d.key)[0] in Under(before.order, d.key);
      }
    }
  }

  /** The names the differing definitions define. */
  ghost function Seed(before: Header, after: Header): set<string> {
    set d, n | d in before.order + after.order && !SameUnder(before, after, d.key) && n in d.names :: n
  }

  // ----- which `#define` each definition sees -----

  function MacroKeys(order: seq<Definition>): set<string> {
    set d | d in order && d.kind.MacroDef? :: d.key
  }

  function SeenOf(seen: map<string, string>, name: string): string {
    if name in seen then seen[name] else ""
  }

  function SeenAfter(seen: map<string, string>, d: Definition): map<string, string> {
    if d.kind.MacroDef? then seen[d.key := d.text]
    else if d.kind.Directive? && d.undefines.Undef? then seen[d.undefines.macro := d.text]
    else seen
  }

  /** `(user, macro, directive)` for each macro a definition spells, with what it stands below. */
  function ExpansionsFrom(order: seq<Definition>, macros: set<string>, seen: map<string, string>)
    : set<(string, string, string)>
  {
    if order == [] then {}
    else
      var d := order[0];
      (set name | name in d.mentions * macros :: (d.key, name, SeenOf(seen, name)))
      + ExpansionsFrom(order[1..], macros, SeenAfter(seen, d))
  }

  function Expansions(h: Header): set<(string, string, string)> {
    ExpansionsFrom(h.order, MacroKeys(h.order), map[])
  }

  /** Some unchanged definition sees a different directive of an unchanged macro than it did. */
  predicate Moved(before: Header, after: Header) {
    exists x :: x in (Expansions(before) - Expansions(after)) + (Expansions(after) - Expansions(before))
                && x.0 in Keys(before, after) && SameUnder(before, after, x.0)
                && x.1 in Keys(before, after) && SameUnder(before, after, x.1)
  }

  // ----- the closure -----

  datatype Paste = Paste(macro: string, pattern: seq<Piece>)

  ghost predicate CanPaste(h: Header, macro: string, pattern: seq<Piece>) {
    exists m :: m in h.macros && m.name == macro && pattern in PastesFrom(m, 0)
  }

  /** Nothing outside `names` pastes or mentions a name inside. */
  ghost predicate Closed(before: Header, after: Header, names: set<string>) {
    && (forall h, macro, pattern, n :: 
         h in {before, after} && CanPaste(h, macro, pattern) && n in names && FullMatch(pattern, n) ==> macro in names)
    && (forall d :: d in before.order + after.order && d.mentions * names != {} ==> d.names <= names)
  }

  ghost predicate Covers(before: Header, after: Header, names: set<string>) {
    Seed(before, after) <= names && Closed(before, after, names)
  }

  /** No definition that names nothing mentions `names`, and none that runs at load is in it. */
  ghost predicate Scopable(before: Header, after: Header, names: set<string>) {
    forall d :: d in before.order + after.order ==>
      && (d.mentions * names != {} ==> IsNamed(d.kind) || IsNamedWhereNew(d.kind))
      && (d.names * names != {} ==> !d.runsAtLoad)
  }

  /** `names` is in every answer there could be. */
  ghost predicate Needed(before: Header, after: Header, names: set<string>) {
    forall wider: set<string> :: Covers(before, after, wider) ==> names <= wider
  }

  /** What it takes for `names` to be answered. */
  ghost predicate Answers(before: Header, after: Header, names: set<string>) {
    && AllAttributable(before, after) && !Moved(before, after)
    && Covers(before, after, names) && Needed(before, after, names) && Scopable(before, after, names)
  }

  // ----- the answer -----

  /** The names defined under one differing key, where its difference can be put down to names. */
  method SeedUnder(before: Header, after: Header, key: string) returns (ok: bool, names: set<string>)
    ensures var both := Under(before.order, key) + Under(after.order, key);
            && (ok <==> forall d :: d in both ==> Attributable(before, d))
            && (ok ==> names == set d, n | d in both && n in d.names :: n)
  {
    hide Attributable, Under;
    var both := Under(before.order, key) + Under(after.order, key);
    names := {};
    for i := 0 to |both|
      invariant forall j :: 0 <= j < i ==> Attributable(before, both[j])
      invariant forall n :: n in names <==> exists j :: 0 <= j < i && n in both[j].names
    {
      if !Attributable(before, both[i]) {
        return false, {};
      }
      names := names + both[i].names;
    }
    ok := true;
  }

  /** The part of the seed that stands under `keys`. */
  ghost function SeedIn(before: Header, after: Header, keys: set<string>): set<string> {
    set d, n | d in before.order + after.order && d.key in keys && !SameUnder(before, after, d.key) && n in d.names :: n
  }

  lemma SeedGrows(before: Header, after: Header, keys: set<string>, key: string)
    ensures var both := Under(before.order, key) + Under(after.order, key);
            SeedIn(before, after, keys + {key}) == SeedIn(before, after, keys)
            + if SameUnder(before, after, key) then {} else set d, n | d in both && n in d.names :: n
  {
    hide SameUnder, Under;
    var both := Under(before.order, key) + Under(after.order, key);
    assert forall d :: d in both <==> d in before.order + after.order && d.key == key;
  }

  /** The names the differing definitions define, where each difference can be put down to names. */
  method Seeds(before: Header, after: Header) returns (outcome: Outcome)
    ensures outcome == if AllAttributable(before, after) then Affected(Seed(before, after)) else Unscopable
  {
    hide SameUnder, Attributable, Under;
    var names: set<string> := {};
    var keys := Keys(before, after);
    ghost var done: set<string> := {};
    while keys != {}
      invariant done + keys == Keys(before, after)
      invariant forall d :: d in before.order + after.order && d.key in done && !SameUnder(before, after, d.key) ==>
                  Attributable(before, d)
      invariant names == SeedIn(before, after, done)
      decreases |keys|
    {
      var key :| key in keys;
      ghost var both := Under(before.order, key) + Under(after.order, key);
      assert forall d :: d in both <==> d in before.order + after.order && d.key == key;
      SeedGrows(before, after, done, key);
      if !SameUnder(before, after, key) {
        var ok, more := SeedUnder(before, after, key);
        if !ok {
          return Unscopable;
        }
        names := names + more;
      }
      keys, done := keys - {key}, done + {key};
    }
    assert forall d :: d in before.order + after.order ==> d.key in done;
    assert names == Seed(before, after);
    return Affected(names);
  }

  method CollectPastes(h: Header) returns (pastes: seq<Paste>)
    ensures forall macro, pattern :: Paste(macro, pattern) in pastes <==> CanPaste(h, macro, pattern)
  {
    hide PastesFrom;
    pastes := [];
    for i := 0 to |h.macros|
      invariant forall macro, pattern :: Paste(macro, pattern) in pastes <==>
                  exists m :: m in h.macros[..i] && m.name == macro && pattern in PastesFrom(m, 0)
    {
      var patterns := Pastes(h.macros[i]);
      ghost var earlier := pastes;
      for j := 0 to |patterns|
        invariant forall p :: p in pastes <==> p in earlier || (p.macro == h.macros[i].name && p.pattern in patterns[..j])
      {
        pastes := pastes + [Paste(h.macros[i].name, patterns[j])];
        assert patterns[..j + 1] == patterns[..j] + [patterns[j]];
      }
      assert patterns[..|patterns|] == patterns;
      assert h.macros[..i + 1] == h.macros[..i] + [h.macros[i]];
    }
    assert h.macros[..|h.macros|] == h.macros;
  }

  ghost predicate PasteClosed(pastes: seq<Paste>, names: set<string>) {
    forall p, n :: p in pastes && n in names && FullMatch(p.pattern, n) ==> p.macro in names
  }

  ghost predicate MentionClosed(all: seq<Definition>, names: set<string>) {
    forall d :: d in all && d.mentions * names != {} ==> d.names <= names
  }

  /** What one pass over some of the pastes and definitions does to the names it was handed. */
  ghost predicate Grows(pastes: seq<Paste>, all: seq<Definition>, was: set<string>, names: set<string>) {
    && was <= names
    && names <= was + (set p | p in pastes :: p.macro) + (set d, n | d in all && n in d.names :: n)
    && forall wider: set<string> ::
         PasteClosed(pastes, wider) && MentionClosed(all, wider) && was <= wider ==> names <= wider
  }

  lemma GrowsTwice(pastes: seq<Paste>, all: seq<Definition>, a: set<string>, b: set<string>, c: set<string>)
    requires Grows(pastes, all, a, b) && Grows(pastes, all, b, c)
    ensures Grows(pastes, all, a, c)
  {
    hide PasteClosed, MentionClosed;
  }

  /** Add the macros that have a pattern some name matches. */
  method PastePass(pastes: seq<Paste>, ghost all: seq<Definition>, was: set<string>) returns (names: set<string>)
    ensures Grows(pastes, all, was, names)
    ensures names == was ==> PasteClosed(pastes, was)
  {
    hide FullMatch, MentionClosed;
    names := was;
    for i := 0 to |pastes|
      invariant Grows(pastes, all, was, names)
      invariant names == was ==>
                  forall j, n :: 0 <= j < i && n in was && FullMatch(pastes[j].pattern, n) ==> pastes[j].macro in was
    {
      if pastes[i].macro !in names && exists n :: n in names && FullMatch(pastes[i].pattern, n) {
        assert pastes[i] in pastes;
        names := names + {pastes[i].macro};
      }
    }
  }

  /** Add what the definitions that spell some name define; one that defines nothing ends the search. */
  method MentionPass(ghost pastes: seq<Paste>, all: seq<Definition>, was: set<string>)
    returns (ok: bool, names: set<string>)
    ensures Grows(pastes, all, was, names)
    ensures ok && names == was ==>
              MentionClosed(all, was)
              && forall d :: d in all && d.mentions * was != {} ==> IsNamed(d.kind) || IsNamedWhereNew(d.kind)
    ensures !ok ==> exists d :: d in all && d.mentions * names != {} && !IsNamed(d.kind) && !IsNamedWhereNew(d.kind)
  {
    hide PasteClosed, IsNamed, IsNamedWhereNew;
    names := was;
    for i := 0 to |all|
      invariant Grows(pastes, all, was, names)
      invariant names == was ==> forall j :: 0 <= j < i && all[j].mentions * was != {} ==>
                  all[j].names <= was && (IsNamed(all[j].kind) || IsNamedWhereNew(all[j].kind))
    {
      if all[i].mentions * names == {} {
        continue;
      }
      if !(IsNamed(all[i].kind) || IsNamedWhereNew(all[i].kind)) {
        assert all[i] in all;
        return false, names;
      }
      if all[i].names <= names {
        continue;
      }
      assert all[i] in all;
      names := names + all[i].names;
    }
    ok := true;
  }

  ghost predicate KindsFit(all: seq<Definition>, names: set<string>) {
    forall d :: d in all && d.mentions * names != {} ==> IsNamed(d.kind) || IsNamedWhereNew(d.kind)
  }

  /** Grow `seed` until nothing new is added, or until a definition that names nothing is reached. */
  method Close(pastes: seq<Paste>, all: seq<Definition>, seed: set<string>) returns (ok: bool, names: set<string>)
    ensures seed <= names
    ensures forall wider: set<string> ::
              PasteClosed(pastes, wider) && MentionClosed(all, wider) && seed <= wider ==> names <= wider
    ensures ok ==> PasteClosed(pastes, names) && MentionClosed(all, names) && KindsFit(all, names)
    ensures !ok ==> !KindsFit(all, names)
  {
    hide PasteClosed, MentionClosed;
    names := seed;
    GrowsNot(pastes, all, seed);
    ghost var universe := seed + (set p | p in pastes :: p.macro) + (set d, n | d in all && n in d.names :: n);
    var grew := names != {};
    while grew
      invariant Grows(pastes, all, seed, names)
      invariant !grew ==> PasteClosed(pastes, names) && MentionClosed(all, names) && KindsFit(all, names)
      decreases |universe - names|, grew
    {
      ghost var start := names;
      var pasted := PastePass(pastes, all, names);
      GrowsTwice(pastes, all, seed, names, pasted);
      var mentioned;
      ok, mentioned := MentionPass(pastes, all, pasted);
      GrowsTwice(pastes, all, seed, pasted, mentioned);
      grew := mentioned != names;
      names := mentioned;
      if !ok {
        return;
      }
      if grew {
        assert names <= universe && start < names;
        Finite.ProperSubset(universe - names, universe - start);
      } else {
        assert pasted == start && mentioned == pasted;
      }
    }
    ok := true;
  }

  lemma GrowsNot(pastes: seq<Paste>, all: seq<Definition>, names: set<string>)
    ensures Grows(pastes, all, names, names)
    ensures names == {} ==> PasteClosed(pastes, names) && MentionClosed(all, names) && KindsFit(all, names)
  {
  }

  /** The pastes of both headers say when a set of names is closed. */
  lemma ClosedIs(before: Header, after: Header, ours: seq<Paste>, theirs: seq<Paste>, names: set<string>)
    requires forall macro, pattern :: Paste(macro, pattern) in ours <==> CanPaste(before, macro, pattern)
    requires forall macro, pattern :: Paste(macro, pattern) in theirs <==> CanPaste(after, macro, pattern)
    ensures Closed(before, after, names) <==>
            PasteClosed(ours + theirs, names) && MentionClosed(before.order + after.order, names)
  {
    hide CanPaste, FullMatch;
    if PasteClosed(ours + theirs, names) {
      forall h, macro, pattern, n | h in {before, after} && CanPaste(h, macro, pattern) && n in names && FullMatch(pattern, n)
        ensures macro in names
      {
        assert Paste(macro, pattern) in ours + theirs;
      }
    }
    if Closed(before, after, names) {
      forall p, n | p in ours + theirs && n in names && FullMatch(p.pattern, n)
        ensures p.macro in names
      {
        assert p == Paste(p.macro, p.pattern);
        assert CanPaste(before, p.macro, p.pattern) || CanPaste(after, p.macro, p.pattern);
      }
    }
  }

  /**
   The names a module has to spell for the difference between two headers to reach it. The
   answer is the least set that holds the names of the differing definitions and is closed,
   and it is given unless a difference cannot be put down to names.
   */
  method FindAffected(before: Header, after: Header) returns (outcome: Outcome)
    ensures outcome.Affected? <==>
            && AllAttributable(before, after) && !Moved(before, after)
            && exists names :: Covers(before, after, names) && Scopable(before, after, names)
    ensures outcome.Affected? ==> Answers(before, after, outcome.names)
    ensures outcome.Affected? ==> forall d :: !IsBeyondNames(before, after, d)
  {
    AttributableMeans(before, after);
    hide IsBeyondNames, AllAttributable, Moved, Seed, Closed, PasteClosed, MentionClosed, CanPaste;
    outcome := Seeds(before, after);
    if outcome.Unscopable? {
      return;
    }
    if Moved(before, after) {
      return Unscopable;
    }
    var everything := before.order + after.order;
    var ours := CollectPastes(before);
    var theirs := CollectPastes(after);
    forall names
      ensures Closed(before, after, names) <==>
              PasteClosed(ours + theirs, names) && MentionClosed(everything, names)
    {
      ClosedIs(before, after, ours, theirs, names);
    }
    var ok, names := Close(ours + theirs, everything, outcome.names);
    if !ok {
      return Unscopable;
    }
    for i := 0 to |everything|
      invariant forall j :: 0 <= j < i ==> (everything[j].names * names != {} ==> !everything[j].runsAtLoad)
    {
      if everything[i].names * names != {} && everything[i].runsAtLoad {
        assert everything[i] in everything;
        return Unscopable;
      }
    }
    outcome := Affected(names);
    assert Covers(before, after, names) && Scopable(before, after, names);
  }

  // ----- what the answer promises a module of any two headers -----

  /** Spelling or pasting `x` lets a module reach `y`. */
  ghost predicate LeadsTo(before: Header, after: Header, x: string, y: string) {
    || (exists d :: d in before.order + after.order && x in d.names && y in d.mentions)
    || (exists h, pattern :: h in {before, after} && CanPaste(h, x, pattern) && FullMatch(pattern, y))
  }

  /** A chain of names, each leading to the next. */
  ghost predicate IsChain(before: Header, after: Header, chain: seq<string>) {
    |chain| > 0 && forall i :: 0 < i < |chain| ==> LeadsTo(before, after, chain[i - 1], chain[i])
  }

  lemma StaysOutside(before: Header, after: Header, names: set<string>, x: string, y: string)
    requires Closed(before, after, names) && x !in names && LeadsTo(before, after, x, y)
    ensures y !in names
  {
    if d :| d in before.order + after.order && x in d.names && y in d.mentions {
      assert y in names ==> y in d.mentions * names;
    }
  }

  lemma {:induction false} ChainOutside(before: Header, after: Header, names: set<string>, chain: seq<string>, k: nat)
    requires Closed(before, after, names) && IsChain(before, after, chain) && chain[0] !in names && k < |chain|
    ensures chain[k] !in names
  {
    if k > 0 {
      ChainOutside(before, after, names, chain, k - 1);
      StaysOutside(before, after, names, chain[k - 1], chain[k]);
    }
  }

  /** What reading a header leaves: a `#define` names its macro and nothing else, and other kinds name something or nothing. */
  ghost predicate Parsed(h: Header) {
    forall d :: d in h.order ==>
      && (d.kind.MacroDef? ==> d.names == {d.key})
      && (d.names != {} <==> IsNamed(d.kind) || IsNamedWhereNew(d.kind))
  }

  lemma {:induction false} ExpansionOf(order: seq<Definition>, macros: set<string>, seen: map<string, string>,
                                       x: (string, string, string))
    requires x in ExpansionsFrom(order, macros, seen)
    ensures x.1 in macros && exists d :: d in order && d.key == x.0
    decreases |order|
  {
    var d := order[0];
    if x in ExpansionsFrom(order[1..], macros, SeenAfter(seen, d)) {
      ExpansionOf(order[1..], macros, SeenAfter(seen, d), x);
    } else {
      assert d in order;
    }
  }

  /** `d` is written the same on both sides, and the last directive above it of each macro it spells is the same. */
  ghost predicate Unchanged(before: Header, after: Header, d: Definition) {
    && SameUnder(before, after, d.key)
    && forall macro, directive :: macro in d.mentions ==>
         ((d.key, macro, directive) in Expansions(before) <==> (d.key, macro, directive) in Expansions(after))
  }

  lemma OutsideIsUnchanged(before: Header, after: Header, names: set<string>, d: Definition)
    requires Parsed(before) && Parsed(after) && !Moved(before, after)
    requires Covers(before, after, names) && d in before.order + after.order && !(d.names <= names)
    ensures Unchanged(before, after, d)
  {
    hide SameUnder, Closed;
    assert !SameUnder(before, after, d.key) ==> d.names <= Seed(before, after);
    forall macro, directive | macro in d.mentions
      ensures (d.key, macro, directive) in Expansions(before) <==> (d.key, macro, directive) in Expansions(after)
    {
      if ((d.key, macro, directive) in Expansions(before)) != ((d.key, macro, directive) in Expansions(after)) {
        DifferentMacro(before, after, names, d, macro, directive);
        MentionOutside(before, after, names, d, macro);
        assert false;
      }
    }
  }

  lemma MentionOutside(before: Header, after: Header, names: set<string>, d: Definition, n: string)
    requires Closed(before, after, names) && d in before.order + after.order && !(d.names <= names) && n in d.mentions
    ensures n !in names
  {
    assert n in names ==> n in d.mentions * names;
  }

  /** A definition that sees a macro differently mentions a macro that differs. */
  lemma DifferentMacro(before: Header, after: Header, names: set<string>, d: Definition, macro: string, directive: string)
    requires Parsed(before) && Parsed(after) && !Moved(before, after) && Seed(before, after) <= names
    requires d in before.order + after.order && SameUnder(before, after, d.key)
    requires ((d.key, macro, directive) in Expansions(before)) != ((d.key, macro, directive) in Expansions(after))
    ensures macro in names
  {
    hide SameUnder, ExpansionsFrom;
    var x := (d.key, macro, directive);
    var h := if x in Expansions(before) then before else after;
    ExpansionOf(h.order, MacroKeys(h.order), map[], x);
    var define :| define in h.order && define.kind.MacroDef? && define.key == macro;
    assert define in before.order + after.order;
    assert !SameUnder(before, after, macro);
  }

  /**
   A module that spells none of the answered names reaches, through any chain of mentions
   and pasted names, only definitions that are written the same on both sides.
   */
  lemma ReachedIsUnchanged(before: Header, after: Header, names: set<string>, spelled: set<string>,
                        chain: seq<string>, d: Definition)
    requires Parsed(before) && Parsed(after) && !Moved(before, after) && Covers(before, after, names)
    requires spelled !! names
    requires IsChain(before, after, chain) && chain[0] in spelled
    requires d in before.order + after.order && chain[|chain| - 1] in d.names
    ensures Unchanged(before, after, d)
  {
    ChainOutside(before, after, names, chain, |chain| - 1);
    OutsideIsUnchanged(before, after, names, d);
  }

  /** What no module can avoid is written the same on both sides: definitions that name nothing, and those that run at load. */
  lemma UnavoidableIsUnchanged(before: Header, after: Header, names: set<string>, d: Definition)
    requires AllAttributable(before, after) && !Moved(before, after) && Parsed(before) && Parsed(after)
    requires Covers(before, after, names) && Scopable(before, after, names)
    requires d in before.order + after.order
    requires (!IsNamed(d.kind) && !IsNamedWhereNew(d.kind)) || (d.runsAtLoad && d.names != {})
    ensures Unchanged(before, after, d)
  {
    hide SameUnder, Closed, Moved;
    if d.runsAtLoad && d.names != {} {
      var n :| n in d.names;
      assert n in names ==> n in d.names * names;
      OutsideIsUnchanged(before, after, names, d);
    } else {
      assert SameUnder(before, after, d.key);
      forall macro, directive | macro in d.mentions
        ensures (d.key, macro, directive) in Expansions(before) <==> (d.key, macro, directive) in Expansions(after)
      {
        if ((d.key, macro, directive) in Expansions(before)) != ((d.key, macro, directive) in Expansions(after)) {
          assert macro in names ==> macro in d.mentions * names;
          DifferentMacro(before, after, names, d, macro, directive);
          assert false;
        }
      }
    }
  }

  // ----- the comparisons, definition by definition -----

  /** Two definitions have the same content just when their texts are the same and the conditions around them read the same. */
  lemma ContentMeans(d: Definition, e: Definition)
    ensures d.Content() == e.Content() <==>
            && d.text == e.text && |d.conditions| == |e.conditions|
            && forall i :: 0 <= i < |d.conditions| ==> SpelledOut(d.conditions[i]) == SpelledOut(e.conditions[i])
  {
    var c, k := d.Content().0, e.Content().0;
    if c == k {
      assert forall i :: 0 <= i < |c| ==> c[i] == SpelledOut(d.conditions[i]) && k[i] == SpelledOut(e.conditions[i]);
    }
    if |c| == |k| && forall i :: 0 <= i < |c| ==> SpelledOut(d.conditions[i]) == SpelledOut(e.conditions[i]) {
      assert forall i :: 0 <= i < |c| ==> c[i] == k[i];
      assert c == k;
    }
  }

  /** The lines of a conditional are joined by a space. */
  lemma {:induction false} SpelledOutJoins(a: seq<Branch>, b: seq<Branch>)
    requires a != [] && b != []
    ensures SpelledOut(a + b) == SpelledOut(a) + " " + SpelledOut(b)
    ensures |b| == 1 ==> SpelledOut(b) == b[0].text
    ensures SpelledOut([]) == ""
  {
    assert (a + b)[..|a + b| - 1] == a + b[..|b| - 1];
    if |b| == 1 {
      assert b[..0] == [] && a + [] == a;
    } else {
      SpelledOutJoins(a, b[..|b| - 1]);
    }
  }

  /** A definition stands in its own group, where it stood, and in no other. */
  lemma {:induction false} UnderSplits(a: seq<Definition>, d: Definition, b: seq<Definition>, key: string)
    ensures Under(a + [d] + b, key) == Under(a, key) + (if d.key == key then [d] else []) + Under(b, key)
  {
    hide Under;
    if a == [] {
      UnderFirst(d, b, key);
      assert a + [d] + b == [d] + b;
      assert Under([], key) == [] by { UnderNothing(key); }
    } else {
      var first, more := a[0], a[1..];
      UnderSplits(more, d, b, key);
      UnderFirst(first, more + [d] + b, key);
      UnderFirst(first, more, key);
      assert a + [d] + b == [first] + (more + [d] + b) && a == [first] + more;
    }
  }

  lemma UnderFirst(d: Definition, rest: seq<Definition>, key: string)
    ensures Under([d] + rest, key) == (if d.key == key then [d] else []) + Under(rest, key)
  {
    assert ([d] + rest)[1..] == rest;
  }

  lemma UnderNothing(key: string)
    ensures Under([], key) == []
  {
  }

  /** `d` is a `#define` or an `#undef` of `macro`. */
  predicate IsAbout(d: Definition, macro: string) {
    (d.kind.MacroDef? && d.key == macro) || (d.kind.Directive? && d.undefines == Undef(macro))
  }

  /** `text` is that of the last directive about `macro` among the first `i` definitions, and empty where there is none. */
  ghost predicate IsLastOf(order: seq<Definition>, i: nat, macro: string, text: string)
    requires i <= |order|
  {
    if exists j :: 0 <= j < i && IsAbout(order[j], macro)
    then exists j :: 0 <= j < i && IsAbout(order[j], macro) && order[j].text == text
                     && forall k :: j < k < i ==> !IsAbout(order[k], macro)
    else text == ""
  }

  lemma {:induction false} ExpansionsFromMeans(order: seq<Definition>, at: nat, macros: set<string>, seen: map<string, string>,
                                               x: (string, string, string))
    requires at <= |order| && forall macro, text :: IsLastOf(order, at, macro, text) <==> text == SeenOf(seen, macro)
    ensures x in ExpansionsFrom(order[at..], macros, seen) <==>
            exists i :: at <= i < |order| && order[i].key == x.0 && x.1 in order[i].mentions && x.1 in macros
                        && IsLastOf(order, i, x.1, x.2)
    decreases |order| - at
  {
    hide IsLastOf;
    if at < |order| {
      var d := order[at];
      assert order[at..][0] == d && order[at..][1..] == order[at + 1..];
      var next := at + 1;
      forall macro, text
        ensures IsLastOf(order, next, macro, text) <==> text == SeenOf(SeenAfter(seen, d), macro)
      {
        LastMoves(order, at, macro, text);
      }
      ExpansionsFromMeans(order, next, macros, SeenAfter(seen, d), x);
    }
  }

  lemma LastMoves(order: seq<Definition>, at: nat, macro: string, text: string)
    requires at < |order|
    ensures IsLastOf(order, at + 1, macro, text) <==>
            if IsAbout(order[at], macro) then text == order[at].text else IsLastOf(order, at, macro, text)
  {
  }

  /** A definition is recorded with each macro of the header it spells and the last directive above it about that macro. */
  lemma ExpansionsMean(h: Header, x: (string, string, string))
    ensures x in Expansions(h) <==>
            && (exists d :: d in h.order && d.kind.MacroDef? && d.key == x.1)
            && exists i :: 0 <= i < |h.order| && h.order[i].key == x.0 && x.1 in h.order[i].mentions
                           && IsLastOf(h.order, i, x.1, x.2)
  {
    assert h.order[0..] == h.order;
    ExpansionsFromMeans(h.order, 0, MacroKeys(h.order), map[], x);
  }

  /** The check for moved directives fires just when something recorded on one side only has its user and its macro unchanged. */
  lemma MovedMeans(before: Header, after: Header)
    ensures Moved(before, after) <==>
            exists user, macro, directive, d, e ::
              && ((user, macro, directive) in Expansions(before)) != ((user, macro, directive) in Expansions(after))
              && d in before.order + after.order && d.key == user && SameUnder(before, after, user)
              && e in before.order + after.order && e.key == macro && SameUnder(before, after, macro)
  {
    hide SameUnder, Expansions;
    if Moved(before, after) {
      var x :| x in (Expansions(before) - Expansions(after)) + (Expansions(after) - Expansions(before))
               && x.0 in Keys(before, after) && SameUnder(before, after, x.0)
               && x.1 in Keys(before, after) && SameUnder(before, after, x.1);
      assert ((x.0, x.1, x.2) in Expansions(before)) != ((x.0, x.1, x.2) in Expansions(after));
    }
  }
}

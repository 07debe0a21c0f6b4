/**
 What a module makes of a header, and when two headers mean the same to every module that
 spells none of the answered names.

 A macro means what the directives above the place that expands it make of it: for a
 definition that is the place it stands at, for the conditionals around it the place of each
 of their lines, and for the module the end of the header.
 */
module HeaderMeaning {
  import opened TokenPasting
  import opened HeaderScope

  type Content = (seq<string>, string)

  function InsideOf(inside: seq<Inside>, conditions: seq<string>, y: string): seq<Content> {
    if inside == [] then []
    else
      (if inside[0].macro == y then [(conditions, inside[0].text)] else []) + InsideOf(inside[1..], conditions, y)
  }

  /** The directives of the macro `y` that `d` is or holds, in order and with its conditions. */
  function DirectivesOf(d: Definition, y: string): seq<Content> {
    (if (d.kind.MacroDef? && d.key == y) || (d.kind.Directive? && d.undefines == Undef(y)) then [d.Content()] else [])
    + InsideOf(d.inside, d.Content().0, y)
  }

  /** The macros some directive is about. */
  function Directed(before: Header, after: Header): set<string> {
    (set d | d in before.order + after.order && d.kind.MacroDef? :: d.key)
    + (set d | d in before.order + after.order && d.kind.Directive? && d.undefines.Undef? :: d.undefines.macro)
    + (set d, r | d in before.order + after.order && r in d.inside :: r.macro)
  }

  /** The directives of `y` among the first `p` definitions. */
  function Above(order: seq<Definition>, p: nat, y: string): seq<Content> {
    if p == 0 || order == [] then [] else DirectivesOf(order[0], y) + Above(order[1..], p - 1, y)
  }

  /** A directive that is neither a conditional nor about one macro: it bears on all that stands below. */
  predicate IsOpaque(d: Definition) {
    d.kind.Directive? && d.undefines.NoUndef?
  }

  /** The opaque directives among the first `p` definitions. */
  function OpaqueAbove(order: seq<Definition>, p: nat): seq<Content> {
    if p == 0 || order == [] then []
    else (if IsOpaque(order[0]) then [order[0].Content()] else []) + OpaqueAbove(order[1..], p - 1)
  }

  // ----- which names lead to which -----

  /** A macro of `h` called `x` can paste `y`: a pattern of its matches, or an expansion makes it. */
  ghost predicate Glues(h: Header, x: string, y: string) {
    exists m :: m in h.macros + h.unsearched && m.name == x && (HasPattern(m, y) || CanMake(m, y))
  }

  /** A directive of `x` inside `d` spells `y`. */
  ghost predicate SpellsInside(d: Definition, x: string, y: string) {
    exists r :: r in d.inside && r.macro == x && y in r.mentions
  }

  /** Expanding the macro `x` brings up `y`. */
  ghost predicate BringsUp(before: Header, after: Header, x: string, y: string) {
    || (exists d :: d in before.order + after.order && d.kind.MacroDef? && d.key == x && y in d.mentions)
    || (exists d :: d in before.order + after.order && SpellsInside(d, x, y))
    || Glues(before, x, y) || Glues(after, x, y)
  }

  /** Text that spells `spells` can come to spell `y`, one expansion after another. */
  ghost predicate Expands(before: Header, after: Header, spells: set<string>, y: string) {
    exists chain: seq<string> ::
      && |chain| > 0 && chain[0] in spells && chain[|chain| - 1] == y
      && forall i :: 0 < i < |chain| ==> BringsUp(before, after, chain[i - 1], chain[i])
  }

  function Branches(d: Definition): set<Branch> {
    set condition, branch | condition in d.conditions && branch in condition :: branch
  }

  /** A conditional `d` stands inside names `y`. */
  predicate Guards(d: Definition, y: string) {
    exists branch :: branch in Branches(d) && y in branch.spells
  }

  /** `d` spells `y`, or stands under a condition on the macro `y`. */
  ghost predicate DependsOn(before: Header, after: Header, d: Definition, y: string) {
    y in d.mentions || (Guards(d, y) && y in Directed(before, after))
  }

  /** A directive of `x` inside `d` spells `y`, or stands under a condition on the macro `y`. */
  ghost predicate DependsInside(before: Header, after: Header, d: Definition, x: string, y: string) {
    || SpellsInside(d, x, y)
    || (Guards(d, y) && y in Directed(before, after) && exists r :: r in d.inside && r.macro == x)
  }

  /** Spelling or pasting `x` lets a module reach `y`. */
  ghost predicate Touches(before: Header, after: Header, x: string, y: string) {
    || (exists d :: d in before.order + after.order && x in d.names && DependsOn(before, after, d, y))
    || (exists d :: d in before.order + after.order && DependsInside(before, after, d, x, y))
    || Glues(before, x, y) || Glues(after, x, y)
  }

  ghost predicate IsTrail(before: Header, after: Header, trail: seq<string>) {
    |trail| > 0 && forall i :: 0 < i < |trail| ==> Touches(before, after, trail[i - 1], trail[i])
  }

  // ----- what a module sees -----

  /** The directives text comes under: those of the macros it expands, by macro, and the opaque ones. */
  datatype Sight = Sight(macros: map<string, seq<Content>>, unnamed: seq<Content>)

  /** What text that spells `spells` at place `p` sees. */
  ghost function Seen(before: Header, after: Header, order: seq<Definition>, spells: set<string>, p: nat): Sight {
    Sight(map y | y in Directed(before, after) && Expands(before, after, spells, y) :: Above(order, p, y),
          OpaqueAbove(order, p))
  }

  /** A definition with all that its text and each line of its conditions see. */
  datatype View = View(content: Content, here: Sight, guards: set<(string, Sight)>)

  ghost function ViewOf(before: Header, after: Header, order: seq<Definition>, i: nat): View
    requires i < |order|
  {
    View(order[i].Content(), Seen(before, after, order, order[i].mentions, i),
         set branch | branch in Branches(order[i]) ::
           (branch.text, Seen(before, after, order, branch.spells, branch.below)))
  }

  ghost function Views(before: Header, after: Header, order: seq<Definition>, i: nat, key: string): seq<View>
    decreases |order| - i
  {
    if i >= |order| then []
    else (if order[i].key == key then [ViewOf(before, after, order, i)] else []) + Views(before, after, order, i + 1, key)
  }

  /** The definitions under `key` see the same on both sides. */
  ghost predicate SameViews(before: Header, after: Header, key: string) {
    multiset(Views(before, after, before.order, 0, key)) == multiset(Views(before, after, after.order, 0, key))
  }

  /** What is defined under the key of `d` means the same on both sides. */
  ghost predicate Same(before: Header, after: Header, d: Definition) {
    SameUnder(before, after, d.key) && SameViews(before, after, d.key)
  }

  /** No module can avoid `d`: it names nothing, or it runs at load. */
  predicate Unavoidable(d: Definition) {
    (!IsNamed(d.kind) && !IsNamedWhereNew(d.kind)) || d.runsAtLoad
  }

  ghost predicate Starts(before: Header, after: Header, spelled: set<string>, x: string) {
    || x in spelled
    || exists u :: u in before.order + after.order && Unavoidable(u) && DependsOn(before, after, u, x)
  }

  /** A module that spells `spelled` meets `d`. */
  ghost predicate Meets(before: Header, after: Header, spelled: set<string>, d: Definition) {
    && d in before.order + after.order
    && (Unavoidable(d) ||
        exists trail :: IsTrail(before, after, trail) && Starts(before, after, spelled, trail[0])
                        && trail[|trail| - 1] in d.names)
  }

  ghost predicate SameAtEnd(before: Header, after: Header, y: string) {
    Above(before.order, |before.order|, y) == Above(after.order, |after.order|, y)
  }

  predicate SameOpaque(before: Header, after: Header) {
    OpaqueAbove(before.order, |before.order|) == OpaqueAbove(after.order, |after.order|)
  }

  /** A module that spells `spelled` sees the same header on both sides. */
  ghost predicate SeesTheSame(before: Header, after: Header, spelled: set<string>) {
    && (forall d :: Meets(before, after, spelled, d) ==> Same(before, after, d))
    && (forall y :: Expands(before, after, spelled, y) ==> SameAtEnd(before, after, y))
    && SameOpaque(before, after)
  }

  /** Every module that spells none of `names` sees the same header on both sides. */
  ghost predicate KeepsPromise(before: Header, after: Header, names: set<string>) {
    forall spelled: set<string> :: spelled !! names ==> SeesTheSame(before, after, spelled)
  }

  // ----- what the search does not look at -----

  ghost predicate Outside(d: Definition, names: set<string>) {
    d.names == {} || !(d.names <= names)
  }

  /** A definition outside the answer stands under a condition on a macro inside it. */
  ghost predicate GuardLeaks(before: Header, after: Header, names: set<string>) {
    exists d, y :: d in before.order + after.order && Outside(d, names) && y in names
                   && Guards(d, y) && y in Directed(before, after)
  }

  /** A macro outside the answer can paste a name inside it. */
  ghost predicate PasteLeaks(before: Header, after: Header, names: set<string>) {
    exists x, y :: x !in names && y in names && (Glues(before, x, y) || Glues(after, x, y))
  }

  /** A macro outside the answer has a directive, inside some definition, that depends on a name inside it. */
  ghost predicate InsideLeaks(before: Header, after: Header, names: set<string>) {
    exists d, x, y :: d in before.order + after.order && x !in names && y in names && DependsInside(before, after, d, x, y)
  }

  /** A directive moved past a definition outside the answer, or past a condition on one, that it bears on. */
  ghost predicate Shifts(before: Header, after: Header, names: set<string>) {
    exists d :: d in before.order + after.order && Outside(d, names) && !SameViews(before, after, d.key)
  }

  /** The directives of a macro outside the answer differ or stand in another order, or the opaque ones do. */
  ghost predicate Reorders(before: Header, after: Header, names: set<string>) {
    (exists y :: y !in names && !SameAtEnd(before, after, y)) || !SameOpaque(before, after)
  }

  ghost predicate Leaks(before: Header, after: Header, names: set<string>) {
    || GuardLeaks(before, after, names) || PasteLeaks(before, after, names) || InsideLeaks(before, after, names)
    || Shifts(before, after, names) || Reorders(before, after, names)
  }

  /** Nothing outside the answer depends on a name inside it. */
  ghost predicate IsSealed(before: Header, after: Header, names: set<string>) {
    !GuardLeaks(before, after, names) && !PasteLeaks(before, after, names) && !InsideLeaks(before, after, names)
  }

  lemma SearchedIsInside(before: Header, after: Header, names: set<string>, h: Header, m: Macro, y: string)
    requires Covers(before, after, names) && h in {before, after} && m in h.macros && y in names && HasPattern(m, y)
    ensures m.name in names
  {
    hide PastesFrom, FullMatch, Seed;
    var pattern :| pattern in PastesFrom(m, 0) && FullMatch(pattern, y);
    assert CanPaste(h, m.name, pattern);
  }

  /**
   The search sees to the macros with parameters itself, so one of those leaks a word only
   through a run of `##` that makes more than its pattern allows for.
   */
  lemma OnlyBrokenRunsLeak(before: Header, after: Header, names: set<string>, h: Header, m: Macro, y: string)
    requires Covers(before, after, names) && h in {before, after} && m in h.macros
    requires m.name !in names && y in names && IsWord(y) && (HasPattern(m, y) || CanMake(m, y))
    ensures CanMake(m, y) && !HasPattern(m, y)
    ensures exists start: nat, end: nat :: IsRunOf(m.body, start, end) && !Unbroken(m, Run(m.body, start, end))
  {
    hide PastesFrom, FullMatch, Makes, Seed, IsWord, Run;
    if HasPattern(m, y) {
      SearchedIsInside(before, after, names, h, m, y);
      assert false;
    }
    if forall start: nat, end: nat :: IsRunOf(m.body, start, end) ==> Unbroken(m, Run(m.body, start, end)) {
      UnbrokenIsFound(m, y);
      assert false;
    }
  }

  // ----- where nothing leaks the promise is kept -----

  lemma DependsOutside(before: Header, after: Header, names: set<string>, d: Definition, y: string)
    requires Parsed(before) && Parsed(after) && Answers(before, after, names) && !GuardLeaks(before, after, names)
    requires d in before.order + after.order && Outside(d, names) && DependsOn(before, after, d, y)
    ensures y !in names
  {
    assert y in d.mentions && y in names ==> y in d.mentions * names;
  }

  lemma TouchesOutside(before: Header, after: Header, names: set<string>, x: string, y: string)
    requires Parsed(before) && Parsed(after) && Answers(before, after, names) && IsSealed(before, after, names)
    requires x !in names && Touches(before, after, x, y)
    ensures y !in names
  {
    hide Answers, GuardLeaks, Glues, DependsOn, DependsInside, Parsed;
    if d :| d in before.order + after.order && x in d.names && DependsOn(before, after, d, y) {
      DependsOutside(before, after, names, d, y);
    }
  }

  lemma {:induction false} TrailOutside(before: Header, after: Header, names: set<string>, trail: seq<string>, k: nat)
    requires Parsed(before) && Parsed(after) && Answers(before, after, names)
    requires IsSealed(before, after, names)
    requires IsTrail(before, after, trail) && trail[0] !in names && k < |trail|
    ensures trail[k] !in names
  {
    hide Parsed, Answers, IsSealed, Touches;
    if k > 0 {
      TrailOutside(before, after, names, trail, k - 1);
      TouchesOutside(before, after, names, trail[k - 1], trail[k]);
    }
  }

  lemma UnavoidableOutside(before: Header, after: Header, names: set<string>, d: Definition)
    requires Parsed(before) && Parsed(after) && Answers(before, after, names)
    requires d in before.order + after.order && Unavoidable(d)
    ensures Outside(d, names)
  {
    if d.names != {} {
      var n :| n in d.names;
      assert n in names ==> n in d.names * names;
    }
  }

  /** A module that avoids the answer meets only what is outside it. */
  lemma MetOutside(before: Header, after: Header, names: set<string>, spelled: set<string>, d: Definition)
    requires Parsed(before) && Parsed(after) && Answers(before, after, names)
    requires IsSealed(before, after, names)
    requires spelled !! names && Meets(before, after, spelled, d)
    ensures Outside(d, names)
  {
    hide Parsed, Answers, GuardLeaks, PasteLeaks, InsideLeaks, DependsOn, Touches;
    if Unavoidable(d) {
      UnavoidableOutside(before, after, names, d);
    } else {
      var trail :| IsTrail(before, after, trail) && Starts(before, after, spelled, trail[0]) && trail[|trail| - 1] in d.names;
      if trail[0] !in spelled {
        var u :| u in before.order + after.order && Unavoidable(u) && DependsOn(before, after, u, trail[0]);
        UnavoidableOutside(before, after, names, u);
        DependsOutside(before, after, names, u, trail[0]);
      }
      TrailOutside(before, after, names, trail, |trail| - 1);
    }
  }

  lemma OutsideIsUnder(before: Header, after: Header, names: set<string>, d: Definition)
    requires Parsed(before) && Parsed(after) && Answers(before, after, names)
    requires d in before.order + after.order && Outside(d, names)
    ensures SameUnder(before, after, d.key)
  {
    hide SameUnder, Moved, Closed, Needed;
    assert !SameUnder(before, after, d.key) ==> d.names <= Seed(before, after);
  }

  lemma OutsideIsSame(before: Header, after: Header, names: set<string>, d: Definition)
    requires Parsed(before) && Parsed(after) && Answers(before, after, names) && !Shifts(before, after, names)
    requires d in before.order + after.order && Outside(d, names)
    ensures Same(before, after, d)
  {
    hide Parsed, Answers, SameViews, SameUnder, Outside;
    OutsideIsUnder(before, after, names, d);
  }

  lemma {:induction false} ExpandsOutside(before: Header, after: Header, names: set<string>, chain: seq<string>, k: nat)
    requires Parsed(before) && Parsed(after) && Answers(before, after, names)
    requires IsSealed(before, after, names)
    requires k < |chain| && chain[0] !in names
    requires forall i :: 0 < i < |chain| ==> BringsUp(before, after, chain[i - 1], chain[i])
    ensures chain[k] !in names
  {
    hide Answers, IsSealed, Glues;
    if k > 0 {
      ExpandsOutside(before, after, names, chain, k - 1);
      assert Touches(before, after, chain[k - 1], chain[k]);
      TouchesOutside(before, after, names, chain[k - 1], chain[k]);
    }
  }

  lemma SealedKeepsPromise(before: Header, after: Header, names: set<string>)
    requires Parsed(before) && Parsed(after) && Answers(before, after, names) && !Leaks(before, after, names)
    ensures KeepsPromise(before, after, names)
  {
    hide Parsed, Answers, GuardLeaks, PasteLeaks, InsideLeaks, Shifts, SameAtEnd, SameOpaque, Outside, Meets, Same, BringsUp;
    forall spelled: set<string> | spelled !! names
      ensures SeesTheSame(before, after, spelled)
    {
      forall d | Meets(before, after, spelled, d)
        ensures Same(before, after, d)
      {
        MetOutside(before, after, names, spelled, d);
        assert d in before.order + after.order by { MetIsDefined(before, after, spelled, d); }
        OutsideIsSame(before, after, names, d);
      }
      forall y | Expands(before, after, spelled, y)
        ensures SameAtEnd(before, after, y)
      {
        var chain: seq<string> :|
          && |chain| > 0 && chain[0] in spelled && chain[|chain| - 1] == y
          && forall i :: 0 < i < |chain| ==> BringsUp(before, after, chain[i - 1], chain[i]);
        ExpandsOutside(before, after, names, chain, |chain| - 1);
      }
    }
  }

  lemma MetIsDefined(before: Header, after: Header, spelled: set<string>, d: Definition)
    requires Meets(before, after, spelled, d)
    ensures d in before.order + after.order
  {
  }

  // ----- and where something leaks it is not -----

  /** `n` leads to a name the two sides define differently. */
  ghost predicate LeadsToSeed(before: Header, after: Header, n: string) {
    exists trail :: IsTrail(before, after, trail) && trail[0] == n && trail[|trail| - 1] in Seed(before, after)
  }

  lemma LeadsLonger(before: Header, after: Header, x: string, n: string)
    requires Touches(before, after, x, n) && LeadsToSeed(before, after, n)
    ensures LeadsToSeed(before, after, x)
  {
    hide Touches, Seed;
    var trail :| IsTrail(before, after, trail) && trail[0] == n && trail[|trail| - 1] in Seed(before, after);
    var longer := [x] + trail;
    assert IsTrail(before, after, longer);
  }

  /** The answer is the least, so every name in it leads back to a difference. */
  lemma AnswerLeadsToSeed(before: Header, after: Header, names: set<string>, n: string)
    requires Answers(before, after, names) && n in names
    ensures LeadsToSeed(before, after, n)
  {
    hide AllAttributable, Moved, Scopable, Seed, LeadsToSeed;
    var back := set m | m in names && LeadsToSeed(before, after, m);
    forall m | m in Seed(before, after)
      ensures m in back
    {
      SeedLeads(before, after, m);
    }
    BackIsClosed(before, after, names, back);
    assert Covers(before, after, back);
  }

  lemma SeedLeads(before: Header, after: Header, m: string)
    requires m in Seed(before, after)
    ensures LeadsToSeed(before, after, m)
  {
    assert IsTrail(before, after, [m]);
  }

  lemma BackIsClosed(before: Header, after: Header, names: set<string>, back: set<string>)
    requires Closed(before, after, names) && back == set m | m in names && LeadsToSeed(before, after, m)
    ensures Closed(before, after, back)
  {
    hide LeadsToSeed, FullMatch, CanMake, PastesFrom;
    forall h, macro, pattern, n | h in {before, after} && CanPaste(h, macro, pattern) && n in back && FullMatch(pattern, n)
      ensures macro in back
    {
      var m :| m in h.macros && m.name == macro && pattern in PastesFrom(m, 0);
      assert HasPattern(m, n) && m in h.macros + h.unsearched;
      assert Glues(h, macro, n);
      LeadsLonger(before, after, macro, n);
    }
    forall d | d in before.order + after.order && d.mentions * back != {}
      ensures d.names <= back
    {
      var n :| n in d.mentions * back;
      assert n in d.mentions * names;
      forall x | x in d.names
        ensures x in back
      {
        assert DependsOn(before, after, d, n);
        LeadsLonger(before, after, x, n);
      }
    }
  }

  /** A module that starts out on a trail to a difference does not see the same header. */
  lemma DifferenceIsMet(before: Header, after: Header, spelled: set<string>, x: string)
    requires Starts(before, after, spelled, x) && LeadsToSeed(before, after, x)
    ensures !SeesTheSame(before, after, spelled)
  {
    hide Touches, Starts, SameUnder;
    var trail :| IsTrail(before, after, trail) && trail[0] == x && trail[|trail| - 1] in Seed(before, after);
    var d :| d in before.order + after.order && !SameUnder(before, after, d.key) && trail[|trail| - 1] in d.names;
    assert Meets(before, after, spelled, d) && !Same(before, after, d);
  }

  /** Some module that avoids the answer meets any definition outside it. */
  lemma OutsideIsMet(before: Header, after: Header, names: set<string>, d: Definition) returns (spelled: set<string>)
    requires Parsed(before) && Parsed(after) && d in before.order + after.order && Outside(d, names)
    ensures spelled !! names && Meets(before, after, spelled, d)
    ensures forall y :: DependsOn(before, after, d, y) ==>
              Starts(before, after, spelled, y) || exists n :: n in spelled && Touches(before, after, n, y)
  {
    if Unavoidable(d) {
      spelled := {};
    } else {
      var n :| n in d.names && n !in names;
      spelled := {n};
      assert IsTrail(before, after, [n]);
    }
  }

  lemma GuardLeakBreaks(before: Header, after: Header, names: set<string>)
    requires Parsed(before) && Parsed(after) && Answers(before, after, names) && GuardLeaks(before, after, names)
    ensures !KeepsPromise(before, after, names)
  {
    hide Parsed, Answers, Meets, SeesTheSame, LeadsToSeed, Touches;
    var d, y :| d in before.order + after.order && Outside(d, names) && y in names
                && Guards(d, y) && y in Directed(before, after);
    var spelled := OutsideIsMet(before, after, names, d);
    assert DependsOn(before, after, d, y);
    AnswerLeadsToSeed(before, after, names, y);
    if Starts(before, after, spelled, y) {
      DifferenceIsMet(before, after, spelled, y);
    } else {
      var n :| n in spelled && Touches(before, after, n, y);
      LeadsLonger(before, after, n, y);
      DifferenceIsMet(before, after, spelled, n);
    }
  }

  lemma NameLeakBreaks(before: Header, after: Header, names: set<string>, x: string, y: string)
    requires Answers(before, after, names) && x !in names && y in names && Touches(before, after, x, y)
    ensures !KeepsPromise(before, after, names)
  {
    hide Answers, SeesTheSame, LeadsToSeed, Touches;
    AnswerLeadsToSeed(before, after, names, y);
    LeadsLonger(before, after, x, y);
    DifferenceIsMet(before, after, {x}, x);
    assert {x} !! names;
  }

  lemma ShiftBreaks(before: Header, after: Header, names: set<string>)
    requires Parsed(before) && Parsed(after) && Shifts(before, after, names)
    ensures !KeepsPromise(before, after, names)
  {
    hide Parsed, Meets, SameViews, SameUnder, DependsOn;
    var d :| d in before.order + after.order && Outside(d, names) && !SameViews(before, after, d.key);
    var spelled := OutsideIsMet(before, after, names, d);
    assert !Same(before, after, d);
    assert !SeesTheSame(before, after, spelled);
  }

  lemma ReorderBreaks(before: Header, after: Header, names: set<string>)
    requires Reorders(before, after, names)
    ensures !KeepsPromise(before, after, names)
  {
    hide SameAtEnd, SameOpaque, Meets, BringsUp;
    if !SameOpaque(before, after) {
      assert !SeesTheSame(before, after, {});
    } else {
      var y :| y !in names && !SameAtEnd(before, after, y);
      assert [y][0] in {y} && [y][|[y]| - 1] == y;
      assert Expands(before, after, {y}, y);
      assert {y} !! names && !SeesTheSame(before, after, {y});
    }
  }

  /**
   For every two headers and the answer given for them: each module that spells none of the
   names sees the same header on both sides just when nothing leaks past the search.
   */
  lemma NonInterferenceExactlyWhen(before: Header, after: Header, names: set<string>)
    requires Parsed(before) && Parsed(after) && Answers(before, after, names)
    ensures KeepsPromise(before, after, names) <==> !Leaks(before, after, names)
  {
    hide Parsed, Answers, KeepsPromise, GuardLeaks, Shifts, Reorders, Glues, DependsInside;
    if !Leaks(before, after, names) {
      SealedKeepsPromise(before, after, names);
    } else if GuardLeaks(before, after, names) {
      GuardLeakBreaks(before, after, names);
    } else if PasteLeaks(before, after, names) {
      var x, y :| x !in names && y in names && (Glues(before, x, y) || Glues(after, x, y));
      NameLeakBreaks(before, after, names, x, y);
    } else if InsideLeaks(before, after, names) {
      var d, x, y :| d in before.order + after.order && x !in names && y in names && DependsInside(before, after, d, x, y);
      NameLeakBreaks(before, after, names, x, y);
    } else if Shifts(before, after, names) {
      ShiftBreaks(before, after, names);
    } else {
      ReorderBreaks(before, after, names);
    }
  }
}

/**
 Headers whose answer leaves out a name that it should hold, one pair for each way past the
 search.
 */
module HeaderLeaks {
  import opened TokenPasting
  import opened HeaderScope
  import opened HeaderMeaning

  function Plain(kind: Kind, name: string, mentions: set<string>, conditions: seq<seq<Branch>>, text: string): Definition {
    Definition(kind, name, {name}, mentions, conditions, [], text, NoUndef, false)
  }

  lemma UnderOne(d: Definition, key: string)
    ensures Under([d], key) == if d.key == key then [d] else []
  {
    assert [d][1..] == [];
  }

  lemma UnderTwo(d: Definition, e: Definition, key: string)
    ensures Under([d, e], key) == (if d.key == key then [d] else []) + (if e.key == key then [e] else [])
  {
    assert [d, e][1..] == [e];
    UnderOne(e, key);
  }

  lemma UnderThree(d: Definition, e: Definition, f: Definition, key: string)
    ensures Under([d, e, f], key)
         == (if d.key == key then [d] else []) + (if e.key == key then [e] else []) + (if f.key == key then [f] else [])
  {
    assert [d, e, f][1..] == [e, f];
    UnderTwo(e, f, key);
  }

  lemma OneContent(d: Definition, e: Definition)
    requires d.Content() == e.Content()
    ensures multiset(Contents([d])) == multiset(Contents([e])) != multiset(Contents([]))
  {
    assert Contents([d]) == [d.Content()] == Contents([e]);
  }

  lemma ContentDiffers(d: Definition, e: Definition)
    requires d.text != e.text
    ensures multiset(Contents([d])) != multiset(Contents([e]))
  {
    assert Contents([d]) == [d.Content()] && Contents([e]) == [e.Content()];
    assert multiset([d.Content()])[d.Content()] == 1 && multiset([e.Content()])[d.Content()] == 0;
  }

  /** Headers that differ only in the text of their first definition differ only under its key. */
  lemma FirstDiffers(before: Header, after: Header, d: Definition, e: Definition, o: Definition, key: string)
    requires before.order == [d, o] && after.order == [e, o]
    requires d.key == e.key != o.key && d.text != e.text
    ensures SameUnder(before, after, key) <==> key != d.key
  {
    hide Under, Contents;
    UnderTwo(d, o, key);
    UnderTwo(e, o, key);
    ContentDiffers(d, e);
    assert key == d.key ==> Under(before.order, key) == [d] && Under(after.order, key) == [e];
    assert key != d.key ==> Under(before.order, key) == Under(after.order, key);
  }

  /** The macros a definition spells, with what it sees of each. */
  function SpelledBy(d: Definition, macros: set<string>, seen: map<string, string>): set<(string, string, string)> {
    set name | name in d.mentions * macros :: (d.key, name, SeenOf(seen, name))
  }

  lemma ExpansionsStep(d: Definition, rest: seq<Definition>, macros: set<string>, seen: map<string, string>)
    ensures ExpansionsFrom([d] + rest, macros, seen) == SpelledBy(d, macros, seen) + ExpansionsFrom(rest, macros, SeenAfter(seen, d))
    ensures ExpansionsFrom([], macros, seen) == {}
  {
    assert ([d] + rest)[0] == d && ([d] + rest)[1..] == rest;
  }

  // ----- a macro that only a condition names -----

  function Switch(macro: string, text: string): Definition {
    Plain(MacroDef, macro, {}, [], text)
  }

  /** A function under a condition on `macro` that stands below as many definitions. */
  function Switched(macro: string, f: string, below: nat): Definition {
    Plain(FunctionDef, f, {f}, [[Branch("#ifdef " + macro, {macro}, below)]], "")
  }

  function Off(macro: string, f: string): Header {
    Header([Switched(macro, f, 0)], [], [])
  }

  function On(macro: string, f: string, text: string): Header {
    Header([Switch(macro, text), Switched(macro, f, 1)], [], [])
  }

  lemma SwitchSides(macro: string, f: string, text: string, key: string)
    requires macro != f
    ensures SameUnder(Off(macro, f), On(macro, f, text), key) <==> key != macro
    ensures Under(Off(macro, f).order, macro) == []
  {
    hide Under;
    var d, e, m := Switched(macro, f, 0), Switched(macro, f, 1), Switch(macro, text);
    UnderOne(d, key);
    UnderOne(d, macro);
    UnderTwo(m, e, key);
    SwitchedContent(macro, f);
    OneContent(d, e);
    OneContent(m, m);
  }

  lemma SwitchedContent(macro: string, f: string)
    ensures Switched(macro, f, 0).Content() == Switched(macro, f, 1).Content()
  {
    var c, d := Switched(macro, f, 0).Content().0, Switched(macro, f, 1).Content().0;
    assert |c| == |d| == 1 && c[0] == d[0] == "#ifdef " + macro;
    assert c == d;
  }

  lemma SwitchExpansions(macro: string, f: string, text: string)
    requires macro != f
    ensures Expansions(Off(macro, f)) == {} && Expansions(On(macro, f, text)) == {}
  {
    hide ExpansionsFrom;
    var m, d, e := Switch(macro, text), Switched(macro, f, 0), Switched(macro, f, 1);
    assert MacroKeys(Off(macro, f).order) == {} && MacroKeys(On(macro, f, text).order) == {macro};
    ExpansionsStep(d, [], {}, map[]);
    ExpansionsStep(d, [], {}, SeenAfter(map[], d));
    assert Off(macro, f).order == [d] + [];
    var seen := SeenAfter(map[], m);
    ExpansionsStep(m, [e], {macro}, map[]);
    ExpansionsStep(e, [], {macro}, seen);
    ExpansionsStep(e, [], {macro}, SeenAfter(seen, e));
    assert On(macro, f, text).order == [m] + ([e] + []);
    assert [e] == [e] + [];
  }

  lemma SwitchAnswers(macro: string, f: string, text: string)
    requires macro != f
    ensures Parsed(Off(macro, f)) && Parsed(On(macro, f, text))
    ensures Answers(Off(macro, f), On(macro, f, text), {macro})
  {
    hide SameUnder, Expansions, Under;
    var off, on := Off(macro, f), On(macro, f, text);
    forall key ensures SameUnder(off, on, key) <==> key != macro { SwitchSides(macro, f, text, key); }
    SwitchSides(macro, f, text, macro);
    SwitchExpansions(macro, f, text);
    SwitchSeed(macro, f, text);
  }

  lemma SwitchSeed(macro: string, f: string, text: string)
    requires macro != f
    ensures Seed(Off(macro, f), On(macro, f, text)) == {macro}
  {
    hide SameUnder;
    var off, on := Off(macro, f), On(macro, f, text);
    forall key ensures SameUnder(off, on, key) <==> key != macro { SwitchSides(macro, f, text, key); }
    var both := off.order + on.order;
    assert both == [Switched(macro, f, 0), Switch(macro, text), Switched(macro, f, 1)];
    assert both[1] in both && macro in Seed(off, on);
  }

  /** The new macro is answered alone, and a function that only it lets in is left out. */
  lemma ConditionIsMissed(macro: string, f: string, text: string)
    requires macro != f
    ensures Answers(Off(macro, f), On(macro, f, text), {macro}) && GuardLeaks(Off(macro, f), On(macro, f, text), {macro})
    ensures !KeepsPromise(Off(macro, f), On(macro, f, text), {macro})
    ensures Meets(Off(macro, f), On(macro, f, text), {f}, Switched(macro, f, 0))
         && !Same(Off(macro, f), On(macro, f, text), Switched(macro, f, 0))
  {
    hide Answers, Parsed, KeepsPromise, Shifts, PasteLeaks, InsideLeaks, Reorders, Meets, Same;
    SwitchedIsMet(macro, f, text);
    SwitchedDiffers(macro, f, text);
    SwitchAnswers(macro, f, text);
    SwitchLeaks(macro, f, text);
    NonInterferenceExactlyWhen(Off(macro, f), On(macro, f, text), {macro});
  }

  lemma SwitchedIsMet(macro: string, f: string, text: string)
    ensures Meets(Off(macro, f), On(macro, f, text), {f}, Switched(macro, f, 0))
  {
    var off, on := Off(macro, f), On(macro, f, text);
    assert off.order[0] in off.order + on.order;
    assert IsTrail(off, on, [f]) && Starts(off, on, {f}, [f][0]);
  }

  /** Without the macro the condition sees no directive of it, and with it one. */
  lemma SwitchedDiffers(macro: string, f: string, text: string)
    requires macro != f
    ensures !Same(Off(macro, f), On(macro, f, text), Switched(macro, f, 0))
  {
    hide SameUnder, Expands, Seen, Above;
    var off, on, m, e := Off(macro, f), On(macro, f, text), Switch(macro, text), Switched(macro, f, 1);
    var was, now := ViewOf(off, on, off.order, 0), ViewOf(off, on, on.order, 1);
    assert Views(off, on, off.order, 1, f) == [] && Views(off, on, off.order, 0, f) == [was];
    assert Views(off, on, on.order, 2, f) == [] && Views(off, on, on.order, 1, f) == [now];
    assert Views(off, on, on.order, 0, f) == [] + [now];
    var branch := Branch("#ifdef " + macro, {macro}, 1);
    assert branch in Branches(e) by { assert e.conditions[0] in e.conditions && branch in e.conditions[0]; }
    var sees := Seen(off, on, on.order, {macro}, 1);
    assert (branch.text, sees) in now.guards;
    SwitchSeen(macro, f, text);
    forall g | g in was.guards
      ensures g.1 != sees
    {
      assert g.1 == Seen(off, on, off.order, {macro}, 0);
    }
    assert was != now;
    assert was in multiset([was]) && was !in multiset([now]);
    assert !SameViews(off, on, f);
  }

  lemma SwitchSeen(macro: string, f: string, text: string)
    ensures var off, on := Off(macro, f), On(macro, f, text);
            Seen(off, on, off.order, {macro}, 0) != Seen(off, on, on.order, {macro}, 1)
  {
    hide Expands;
    var off, on, m, e := Off(macro, f), On(macro, f, text), Switch(macro, text), Switched(macro, f, 1);
    ExpandsItself(off, on, {macro}, macro);
    assert on.order[0] == m && m in off.order + on.order;
    assert macro in Directed(off, on);
    AboveOne(m, [e], macro);
    assert on.order == [m] + [e];
    assert Seen(off, on, off.order, {macro}, 0).macros[macro] == [] != Seen(off, on, on.order, {macro}, 1).macros[macro];
  }

  lemma ExpandsItself(before: Header, after: Header, spells: set<string>, y: string)
    requires y in spells
    ensures Expands(before, after, spells, y)
  {
    var chain := [y];
    assert chain[0] in spells && chain[|chain| - 1] == y;
  }

  lemma SwitchLeaks(macro: string, f: string, text: string)
    requires macro != f
    ensures GuardLeaks(Off(macro, f), On(macro, f, text), {macro})
  {
    var off, on, d := Off(macro, f), On(macro, f, text), Switched(macro, f, 0);
    var branch := d.conditions[0][0];
    assert branch in Branches(d) by { assert d.conditions[0] in d.conditions && branch in d.conditions[0]; }
    assert Guards(d, macro);
    assert macro in Directed(off, on) by { assert on.order[0] == Switch(macro, text) && on.order[0] in off.order + on.order; }
    assert off.order[0] == d && d in off.order + on.order;
  }

  // ----- a macro that pastes a name no pattern matches -----

  /** A function `name` with the text `text`, and below it the macro `m`, searched for pastes or not. */
  function WithMacro(name: string, text: string, m: Macro, mentions: set<string>, searched: bool): Header {
    Header([Plain(FunctionDef, name, {}, [], text), Plain(MacroDef, m.name, mentions, [], "")],
           if searched then [m] else [], if searched then [] else [m])
  }

  lemma PastedSides(name: string, was: string, now: string, m: Macro, mentions: set<string>, searched: bool, key: string)
    requires m.name != name && was != now
    ensures SameUnder(WithMacro(name, was, m, mentions, searched), WithMacro(name, now, m, mentions, searched), key) <==> key != name
  {
    var d, e := Plain(FunctionDef, name, {}, [], was), Plain(FunctionDef, name, {}, [], now);
    var o := Plain(MacroDef, m.name, mentions, [], "");
    FirstDiffers(WithMacro(name, was, m, mentions, searched), WithMacro(name, now, m, mentions, searched), d, e, o, key);
  }

  lemma PastedExpansions(name: string, text: string, m: Macro, mentions: set<string>, searched: bool)
    requires m.name !in mentions
    ensures Expansions(WithMacro(name, text, m, mentions, searched)) == {}
  {
    hide ExpansionsFrom;
    var h := WithMacro(name, text, m, mentions, searched);
    var d, o := h.order[0], h.order[1];
    assert MacroKeys(h.order) == {m.name};
    assert h.order == [d] + [o] && [o] == [o] + [];
    ExpansionsStep(d, [o], {m.name}, map[]);
    ExpansionsStep(o, [], {m.name}, SeenAfter(map[], d));
    ExpansionsStep(o, [], {m.name}, SeenAfter(SeenAfter(map[], d), o));
  }

  lemma PastedAnswers(name: string, was: string, now: string, m: Macro, mentions: set<string>, searched: bool)
    requires m.name != name && was != now && m.name !in mentions && name !in mentions
    requires searched ==> !HasPattern(m, name)
    ensures Parsed(WithMacro(name, was, m, mentions, searched)) && Parsed(WithMacro(name, now, m, mentions, searched))
    ensures Answers(WithMacro(name, was, m, mentions, searched), WithMacro(name, now, m, mentions, searched), {name})
  {
    hide SameUnder, Expansions, PastesFrom, FullMatch;
    var before, after := WithMacro(name, was, m, mentions, searched), WithMacro(name, now, m, mentions, searched);
    forall key ensures SameUnder(before, after, key) <==> key != name { PastedSides(name, was, now, m, mentions, searched, key); }
    PastedExpansions(name, was, m, mentions, searched);
    PastedExpansions(name, now, m, mentions, searched);
    var both := before.order + after.order;
    assert both == [before.order[0], before.order[1], after.order[0], after.order[1]];
    assert both[0] in both && name in both[0].names;
    assert Seed(before, after) == {name};
  }

  /**
   The changed function is answered alone, and a macro that can paste its name is left out:
   one without parameters, or one with parameters none of whose patterns matches the name.
   */
  lemma PasteIsMissed(name: string, was: string, now: string, m: Macro, mentions: set<string>, searched: bool)
    requires m.name != name && was != now && m.name !in mentions && name !in mentions
    requires CanMake(m, name) && (searched ==> !HasPattern(m, name))
    ensures var before, after := WithMacro(name, was, m, mentions, searched), WithMacro(name, now, m, mentions, searched);
            Answers(before, after, {name}) && PasteLeaks(before, after, {name}) && !KeepsPromise(before, after, {name})
  {
    hide Answers, Parsed, KeepsPromise, Shifts, GuardLeaks, InsideLeaks, Reorders, CanMake, HasPattern;
    var before, after := WithMacro(name, was, m, mentions, searched), WithMacro(name, now, m, mentions, searched);
    PastedAnswers(name, was, now, m, mentions, searched);
    assert m in before.macros + before.unsearched;
    assert Glues(before, m.name, name);
    NonInterferenceExactlyWhen(before, after, {name});
  }

  /** `#define x left ## right` */
  lemma ObjectPasteIsMissed(x: string, left: string, right: string, was: string, now: string)
    requires x != left && x != right && x != left + right && left != "" && right != "" && left != "##" && was != now
    ensures var m := Macro(x, [], [left, "##", right]);
            var before, after := WithMacro(left + right, was, m, {left, right}, false), WithMacro(left + right, now, m, {left, right}, false);
            Answers(before, after, {left + right}) && !KeepsPromise(before, after, {left + right})
  {
    hide Answers, KeepsPromise, PasteLeaks, PastesFrom, Makes;
    var m := Macro(x, [], [left, "##", right]);
    OnePattern(m);
    assert Operands(m, map[], [left, right]) == [[left], [right]] + [];
    MakesOfTwo([left], [right], []);
    assert CanMake(m, left + right);
    PasteIsMissed(left + right, was, now, m, {left, right}, false);
  }

  /** `#define x(a) left ## a ## tail` */
  lemma SplitPasteIsMissed(x: string, a: string, left: string, right: string, tail: string, was: string, now: string)
    requires left != "##" && a != left && a != tail && GoesBy(a) == a
    requires |right| < |tail| || right[|right| - |tail|..] != tail
    requires x !in {left, a, tail, left + right} && left + right !in {left, a, tail} && was != now
    ensures var m := Macro(x, [a], [left, "##", a, "##", tail]);
            var before, after := WithMacro(left + right, was, m, {left, a, tail}, true), WithMacro(left + right, now, m, {left, a, tail}, true);
            Answers(before, after, {left + right}) && !KeepsPromise(before, after, {left + right})
  {
    hide Answers, KeepsPromise, PasteLeaks, CanMake, HasPattern;
    SplitIsMissed(x, a, left, right, tail);
    PasteIsMissed(left + right, was, now, Macro(x, [a], [left, "##", a, "##", tail]), {left, a, tail}, true);
  }

  /** `#define x(...) left ## __VA_ARGS__` */
  lemma VariadicPasteIsMissed(x: string, left: string, right: string, was: string, now: string)
    requires left !in {"##", "__VA_ARGS__", "..."} && right !in {"", "__VA_ARGS__"}
    requires x !in {left, "__VA_ARGS__", left + right} && left + right != "__VA_ARGS__" && was != now
    ensures var m := Macro(x, ["..."], [left, "##", "__VA_ARGS__"]);
            var before, after := WithMacro(left + right, was, m, {left, "__VA_ARGS__"}, true), WithMacro(left + right, now, m, {left, "__VA_ARGS__"}, true);
            Answers(before, after, {left + right}) && !KeepsPromise(before, after, {left + right})
  {
    hide Answers, KeepsPromise, PasteLeaks, CanMake, HasPattern;
    VariadicIsMissed(x, left, right);
    assert |left + right| > |left|;
    PasteIsMissed(left + right, was, now, Macro(x, ["..."], [left, "##", "__VA_ARGS__"]), {left, "__VA_ARGS__"}, true);
  }

  // ----- a definition that moves past one that expands it through another -----

  function Outer(n: string, m: string): Definition {
    Plain(MacroDef, n, {m}, [], "#define " + n + " " + m)
  }

  function Inner(m: string): Definition {
    Plain(MacroDef, m, {}, [], "#define " + m + " 1")
  }

  function User(f: string, n: string): Definition {
    Plain(FunctionDef, f, {n}, [], "")
  }

  function InnerFirst(f: string, n: string, m: string): Header {
    Header([Outer(n, m), Inner(m), User(f, n)], [], [])
  }

  function UserFirst(f: string, n: string, m: string): Header {
    Header([Outer(n, m), User(f, n), Inner(m)], [], [])
  }

  lemma MovedSides(f: string, n: string, m: string, key: string)
    requires f != n && f != m && n != m
    ensures SameUnder(InnerFirst(f, n, m), UserFirst(f, n, m), key)
  {
    hide Under, Contents;
    UnderThree(Outer(n, m), Inner(m), User(f, n), key);
    UnderThree(Outer(n, m), User(f, n), Inner(m), key);
    assert Under(InnerFirst(f, n, m).order, key) == Under(UserFirst(f, n, m).order, key);
  }

  lemma MovedExpansions(f: string, n: string, m: string)
    requires f != n && f != m && n != m
    ensures Expansions(InnerFirst(f, n, m)) == Expansions(UserFirst(f, n, m))
  {
    hide ExpansionsFrom;
    var o, i, u := Outer(n, m), Inner(m), User(f, n);
    var macros := {n, m};
    assert MacroKeys(InnerFirst(f, n, m).order) == macros && MacroKeys(UserFirst(f, n, m).order) == macros;
    var s := SeenAfter(map[], o);
    assert [o, i, u] == [o] + [i, u] && [i, u] == [i] + [u] && [u] == [u] + [];
    assert [o, u, i] == [o] + [u, i] && [u, i] == [u] + [i] && [i] == [i] + [];
    ExpansionsStep(o, [i, u], macros, map[]);
    ExpansionsStep(i, [u], macros, s);
    ExpansionsStep(u, [], macros, SeenAfter(s, i));
    ExpansionsStep(u, [], macros, SeenAfter(SeenAfter(s, i), u));
    ExpansionsStep(o, [u, i], macros, map[]);
    ExpansionsStep(u, [i], macros, s);
    ExpansionsStep(i, [], macros, SeenAfter(s, u));
    ExpansionsStep(i, [], macros, SeenAfter(SeenAfter(s, u), i));
    assert SpelledBy(u, macros, s) == SpelledBy(u, macros, SeenAfter(s, i));
    assert SpelledBy(i, macros, s) == {} == SpelledBy(i, macros, SeenAfter(s, u));
  }

  /** Two headers with the same definitions in another order are answered with nothing. */
  lemma NothingToAnswer(before: Header, after: Header)
    requires (forall key :: SameUnder(before, after, key)) && Expansions(before) == Expansions(after)
    ensures Answers(before, after, {})
  {
    hide SameUnder, Expansions;
    assert Seed(before, after) == {};
  }

  lemma MovedViews(f: string, n: string, m: string)
    requires f != n && f != m && n != m
    ensures var before, after := InnerFirst(f, n, m), UserFirst(f, n, m);
            && Views(before, after, before.order, 0, f) == [ViewOf(before, after, before.order, 2)]
            && Views(before, after, after.order, 0, f) == [ViewOf(before, after, after.order, 1)]
            && ViewOf(before, after, before.order, 2) != ViewOf(before, after, after.order, 1)
  {
    hide Expands, Views, Above;
    var before, after := InnerFirst(f, n, m), UserFirst(f, n, m);
    var o, i, u := Outer(n, m), Inner(m), User(f, n);
    assert before.order == [o, i, u] == [o, i] + [u] && after.order == [o, u, i] == [o] + [u, i];
    ViewsOfThree(before, after, o, i, u, f);
    ViewsOfThree(before, after, o, u, i, f);
    AboveTwo(o, i, [u], m);
    AboveOne(o, [u, i], m);
    ExpandsThrough(f, n, m);
    assert i in before.order + after.order by { assert before.order[1] == i; }
    assert m in Directed(before, after);
    assert ViewOf(before, after, before.order, 2).here.macros[m] == Above(before.order, 2, m) != [];
    assert ViewOf(before, after, after.order, 1).here.macros[m] == Above(after.order, 1, m) == [];
  }

  lemma MovedLeaks(f: string, n: string, m: string)
    requires f != n && f != m && n != m
    ensures Shifts(InnerFirst(f, n, m), UserFirst(f, n, m), {})
  {
    hide Views, ViewOf;
    var before, after, u := InnerFirst(f, n, m), UserFirst(f, n, m), User(f, n);
    MovedViews(f, n, m);
    var was, now := ViewOf(before, after, before.order, 2), ViewOf(before, after, after.order, 1);
    assert was in multiset([was]) && was !in multiset([now]);
    assert !SameViews(before, after, u.key);
    assert before.order[2] == u && u in before.order + after.order && Outside(u, {});
  }

  lemma ExpandsThrough(f: string, n: string, m: string)
    ensures Expands(InnerFirst(f, n, m), UserFirst(f, n, m), {n}, m)
  {
    var before, after, chain := InnerFirst(f, n, m), UserFirst(f, n, m), [n, m];
    assert before.order[0] == Outer(n, m) && before.order[0] in before.order + after.order;
    assert BringsUp(before, after, chain[0], chain[1]);
    assert chain[0] in {n} && chain[|chain| - 1] == m;
  }

  lemma ViewsOfThree(before: Header, after: Header, d: Definition, e: Definition, g: Definition, key: string)
    ensures Views(before, after, [d, e, g], 0, key)
         == (if d.key == key then [ViewOf(before, after, [d, e, g], 0)] else [])
          + (if e.key == key then [ViewOf(before, after, [d, e, g], 1)] else [])
          + (if g.key == key then [ViewOf(before, after, [d, e, g], 2)] else [])
  {
    hide ViewOf;
    var order := [d, e, g];
    assert Views(before, after, order, 3, key) == [];
    assert Views(before, after, order, 2, key) == if g.key == key then [ViewOf(before, after, order, 2)] else [];
    assert Views(before, after, order, 1, key)
        == (if e.key == key then [ViewOf(before, after, order, 1)] else []) + Views(before, after, order, 2, key);
  }

  lemma AboveOne(d: Definition, rest: seq<Definition>, y: string)
    ensures Above([d] + rest, 1, y) == DirectivesOf(d, y)
  {
    assert ([d] + rest)[0] == d;
    assert Above(([d] + rest)[1..], 0, y) == [];
  }

  lemma AboveTwo(d: Definition, e: Definition, rest: seq<Definition>, y: string)
    ensures Above([d, e] + rest, 2, y) == DirectivesOf(d, y) + DirectivesOf(e, y)
  {
    assert ([d, e] + rest)[0] == d && ([d, e] + rest)[1..] == [e] + rest;
    AboveOne(e, rest, y);
  }

  /** Nothing is answered, and a function that expands `m` through `n` comes to see another `m`. */
  lemma MoveIsMissed(f: string, n: string, m: string)
    requires f != n && f != m && n != m
    ensures Answers(InnerFirst(f, n, m), UserFirst(f, n, m), {})
    ensures Shifts(InnerFirst(f, n, m), UserFirst(f, n, m), {})
    ensures !KeepsPromise(InnerFirst(f, n, m), UserFirst(f, n, m), {})
  {
    hide Answers, KeepsPromise, Shifts, GuardLeaks, PasteLeaks, InsideLeaks, Reorders, SameUnder, Expansions;
    var before, after := InnerFirst(f, n, m), UserFirst(f, n, m);
    forall key ensures SameUnder(before, after, key) { MovedSides(f, n, m, key); }
    MovedExpansions(f, n, m);
    NothingToAnswer(before, after);
    MovedLeaks(f, n, m);
    NonInterferenceExactlyWhen(before, after, {});
  }

  // ----- two definitions of one macro that change places -----

  /** One of the definitions of `m` of which the first that is read wins. */
  function Default(m: string, text: string, below: nat): Definition {
    Plain(MacroDef, m, {}, [[Branch("#ifndef " + m, {m}, below)]], text)
  }

  function Defaults(m: string, first: string, second: string): Header {
    Header([Default(m, first, 0), Default(m, second, 1)], [], [])
  }

  lemma DefaultContent(m: string, text: string, below: nat)
    ensures Default(m, text, below).Content() == (["#ifndef " + m], text)
  {
    var c := Default(m, text, below).Content().0;
    assert |c| == 1 && c[0] == "#ifndef " + m;
    assert c == ["#ifndef " + m];
  }

  lemma DefaultsContents(m: string, first: string, second: string)
    ensures Contents([Default(m, first, 0)] + [Default(m, second, 1)]) == [(["#ifndef " + m], first), (["#ifndef " + m], second)]
  {
    DefaultContent(m, first, 0);
    DefaultContent(m, second, 1);
  }

  lemma DefaultSides(m: string, first: string, second: string, key: string)
    ensures SameUnder(Defaults(m, first, second), Defaults(m, second, first), key)
  {
    UnderTwo(Default(m, first, 0), Default(m, second, 1), key);
    UnderTwo(Default(m, second, 0), Default(m, first, 1), key);
    if key == m {
      DefaultsContents(m, first, second);
      DefaultsContents(m, second, first);
      var a, b := (["#ifndef " + m], first), (["#ifndef " + m], second);
      assert multiset([a, b]) == multiset{a, b} == multiset([b, a]);
    }
  }

  lemma DefaultExpansions(m: string, first: string, second: string)
    ensures Expansions(Defaults(m, first, second)) == {}
  {
    hide ExpansionsFrom;
    var d, e := Default(m, first, 0), Default(m, second, 1);
    assert MacroKeys([d, e]) == {m};
    assert [d, e] == [d] + [e] && [e] == [e] + [];
    ExpansionsStep(d, [e], {m}, map[]);
    ExpansionsStep(e, [], {m}, SeenAfter(map[], d));
    ExpansionsStep(e, [], {m}, SeenAfter(SeenAfter(map[], d), e));
  }

  lemma FirstDefault(m: string, first: string, second: string)
    ensures var h := Defaults(m, first, second);
            Above(h.order, |h.order|, m) != [] && Above(h.order, |h.order|, m)[0] == (["#ifndef " + m], first)
  {
    DefaultContent(m, first, 0);
    AboveTwo(Default(m, first, 0), Default(m, second, 1), [], m);
    assert Defaults(m, first, second).order == [Default(m, first, 0), Default(m, second, 1)] + [];
  }

  /** Nothing is answered, and every module that spells `m` comes to see the other definition first. */
  lemma OrderIsMissed(m: string, first: string, second: string)
    requires first != second
    ensures Answers(Defaults(m, first, second), Defaults(m, second, first), {})
    ensures Reorders(Defaults(m, first, second), Defaults(m, second, first), {})
    ensures !KeepsPromise(Defaults(m, first, second), Defaults(m, second, first), {})
  {
    hide Answers, KeepsPromise, Shifts, GuardLeaks, PasteLeaks, InsideLeaks, SameUnder, Expansions, Above;
    var before, after := Defaults(m, first, second), Defaults(m, second, first);
    forall key ensures SameUnder(before, after, key) { DefaultSides(m, first, second, key); }
    DefaultExpansions(m, first, second);
    DefaultExpansions(m, second, first);
    NothingToAnswer(before, after);
    FirstDefault(m, first, second);
    FirstDefault(m, second, first);
    assert !SameAtEnd(before, after, m);
    NonInterferenceExactlyWhen(before, after, {});
  }

  // ----- a directive inside a definition -----

  /** A function `f` that defines `k` between its braces, as `text` has it. */
  function Holder(f: string, k: string, text: string): Definition {
    Plain(FunctionDef, f, {k}, [], text).(inside := [Inside(k, text, {})])
  }

  function Held(f: string, g: string, k: string, text: string): Header {
    Header([Holder(f, k, text), User(g, k)], [], [])
  }

  lemma HeldSides(f: string, g: string, k: string, was: string, now: string, key: string)
    requires f != g && was != now
    ensures SameUnder(Held(f, g, k, was), Held(f, g, k, now), key) <==> key != f
  {
    FirstDiffers(Held(f, g, k, was), Held(f, g, k, now), Holder(f, k, was), Holder(f, k, now), User(g, k), key);
  }

  lemma HeldExpansions(f: string, g: string, k: string, text: string)
    ensures Expansions(Held(f, g, k, text)) == {}
  {
    hide ExpansionsFrom;
    var d, u := Holder(f, k, text), User(g, k);
    assert MacroKeys([d, u]) == {};
    assert [d, u] == [d] + [u] && [u] == [u] + [];
    ExpansionsStep(d, [u], {}, map[]);
    ExpansionsStep(u, [], {}, SeenAfter(map[], d));
    ExpansionsStep(u, [], {}, SeenAfter(SeenAfter(map[], d), u));
  }

  lemma HeldAnswers(f: string, g: string, k: string, was: string, now: string)
    requires f != g && f != k && was != now
    ensures Parsed(Held(f, g, k, was)) && Parsed(Held(f, g, k, now))
    ensures Answers(Held(f, g, k, was), Held(f, g, k, now), {f})
  {
    hide SameUnder, Expansions;
    var before, after := Held(f, g, k, was), Held(f, g, k, now);
    forall key ensures SameUnder(before, after, key) <==> key != f { HeldSides(f, g, k, was, now, key); }
    HeldExpansions(f, g, k, was);
    HeldExpansions(f, g, k, now);
    var both := before.order + after.order;
    assert both == [before.order[0], before.order[1], after.order[0], after.order[1]];
    assert both[0] in both && f in both[0].names;
    assert Seed(before, after) == {f};
  }

  lemma HeldDirectives(f: string, g: string, k: string, text: string)
    ensures Above(Held(f, g, k, text).order, 2, k) == [([], text)]
  {
    var d, u := Holder(f, k, text), User(g, k);
    AboveTwo(d, u, [], k);
    assert Held(f, g, k, text).order == [d, u] + [];
    assert InsideOf(d.inside[1..], [], k) == [];
    assert d.Content().0 == [];
    assert DirectivesOf(u, k) == [] && DirectivesOf(d, k) == [([], text)];
  }

  /** The function around the directive is answered alone, and the macro, which `g` below it spells, is left out. */
  lemma InsideIsMissed(f: string, g: string, k: string, was: string, now: string)
    requires f != g && f != k && was != now
    ensures var before, after := Held(f, g, k, was), Held(f, g, k, now);
            Answers(before, after, {f}) && Reorders(before, after, {f}) && !KeepsPromise(before, after, {f})
  {
    hide Answers, Parsed, KeepsPromise, Shifts, GuardLeaks, PasteLeaks, InsideLeaks, Above;
    var before, after := Held(f, g, k, was), Held(f, g, k, now);
    HeldAnswers(f, g, k, was, now);
    HeldDirectives(f, g, k, was);
    HeldDirectives(f, g, k, now);
    assert Above(before.order, 2, k)[0] != Above(after.order, 2, k)[0];
    assert !SameAtEnd(before, after, k);
    NonInterferenceExactlyWhen(before, after, {f});
  }

  // ----- a directive that bears on all below it -----

  function Pragma(text: string): Definition {
    Definition(Directive, "directive " + text, {}, {}, [], [], text, NoUndef, false)
  }

  function Type(t: string): Definition {
    Plain(TypeDef, t, {}, [], "")
  }

  function PragmaFirst(t: string, text: string): Header {
    Header([Pragma(text), Type(t)], [], [])
  }

  function TypeFirst(t: string, text: string): Header {
    Header([Type(t), Pragma(text)], [], [])
  }

  lemma PragmaSides(t: string, text: string, key: string)
    requires t != "directive " + text
    ensures SameUnder(PragmaFirst(t, text), TypeFirst(t, text), key)
  {
    hide Under, Contents;
    UnderTwo(Pragma(text), Type(t), key);
    UnderTwo(Type(t), Pragma(text), key);
    assert Under(PragmaFirst(t, text).order, key) == Under(TypeFirst(t, text).order, key);
  }

  lemma PragmaExpansions(t: string, text: string)
    ensures Expansions(PragmaFirst(t, text)) == {} && Expansions(TypeFirst(t, text)) == {}
  {
    hide ExpansionsFrom;
    var d, e := Pragma(text), Type(t);
    assert MacroKeys([d, e]) == {} && MacroKeys([e, d]) == {};
    assert [d, e] == [d] + [e] && [e, d] == [e] + [d] && [d] == [d] + [] && [e] == [e] + [];
    ExpansionsStep(d, [e], {}, map[]);
    ExpansionsStep(e, [], {}, SeenAfter(map[], d));
    ExpansionsStep(e, [], {}, SeenAfter(SeenAfter(map[], d), e));
    ExpansionsStep(e, [d], {}, map[]);
    ExpansionsStep(d, [], {}, SeenAfter(map[], e));
    ExpansionsStep(d, [], {}, SeenAfter(SeenAfter(map[], e), d));
  }

  lemma PragmaViews(t: string, text: string)
    requires t != "directive " + text
    ensures !SameViews(PragmaFirst(t, text), TypeFirst(t, text), t)
  {
    hide Expands, Above;
    var before, after, d, e := PragmaFirst(t, text), TypeFirst(t, text), Pragma(text), Type(t);
    var was, now := ViewOf(before, after, before.order, 1), ViewOf(before, after, after.order, 0);
    assert Views(before, after, before.order, 2, t) == [] && Views(before, after, before.order, 1, t) == [was];
    assert Views(before, after, before.order, 0, t) == [] + [was];
    assert Views(before, after, after.order, 2, t) == [] && Views(before, after, after.order, 1, t) == [] + [];
    assert Views(before, after, after.order, 0, t) == [now] + [];
    assert OpaqueAbove(before.order[1..], 0) == [];
    assert was.here.unnamed == [d.Content()] && now.here.unnamed == [];
    assert [] + [was] == [was] && [now] + [] == [now] && was != now;
    assert multiset([was])[was] == 1 && multiset([now])[was] == 0;
  }

  /** Nothing is answered, and a type comes out from under a directive that can change its layout. */
  lemma PragmaIsMissed(t: string, text: string)
    requires t != "directive " + text
    ensures var before, after := PragmaFirst(t, text), TypeFirst(t, text);
            Answers(before, after, {}) && Shifts(before, after, {}) && !KeepsPromise(before, after, {})
  {
    hide Answers, KeepsPromise, GuardLeaks, PasteLeaks, InsideLeaks, Reorders, SameUnder, Expansions, SameViews;
    var before, after := PragmaFirst(t, text), TypeFirst(t, text);
    forall key ensures SameUnder(before, after, key) { PragmaSides(t, text, key); }
    PragmaExpansions(t, text);
    NothingToAnswer(before, after);
    PragmaViews(t, text);
    assert before.order[1] == Type(t) && Type(t) in before.order + after.order && Outside(Type(t), {});
    NonInterferenceExactlyWhen(before, after, {});
  }
}

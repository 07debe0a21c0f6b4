/**
 What the `##` of a macro's body can make of its arguments, and the patterns that are meant
 to match every name so made.
 */
module TokenPasting {
  /** A macro: its parameters and the tokens it expands to. An object-like one has no parameters. */
  datatype Macro = Macro(name: string, parameters: seq<string>, body: seq<string>)

  /** A piece of a pasted name: a parameter, which can be any word, or text written out. */
  datatype Piece = AnyWord | Written(text: string)

  predicate IsWordCharacter(c: char) {
    'a' <= c <= 'z' || 'A' <= c <= 'Z' || '0' <= c <= '9' || c == '_'
  }

  /** The characters of a C identifier, in full. */
  lemma WordCharacters(c: char)
    ensures IsWordCharacter(c) <==>
            || c in {'a', 'b', 'c', 'd', 'e', 'f', 'g', 'h', 'i', 'j', 'k', 'l', 'm'}
            || c in {'n', 'o', 'p', 'q', 'r', 's', 't', 'u', 'v', 'w', 'x', 'y', 'z'}
            || c in {'A', 'B', 'C', 'D', 'E', 'F', 'G', 'H', 'I', 'J', 'K', 'L', 'M'}
            || c in {'N', 'O', 'P', 'Q', 'R', 'S', 'T', 'U', 'V', 'W', 'X', 'Y', 'Z'}
            || c in {'0', '1', '2', '3', '4', '5', '6', '7', '8', '9', '_'}
  {
  }

  predicate IsWord(s: string) {
    forall i :: 0 <= i < |s| ==> IsWordCharacter(s[i])
  }

  /** The whole of `name` matches the pieces, one after the other. */
  predicate FullMatch(pattern: seq<Piece>, name: string) {
    if pattern == [] then name == ""
    else
      match pattern[0]
      case AnyWord => exists k :: 0 <= k <= |name| && IsWord(name[..k]) && FullMatch(pattern[1..], name[k..])
      case Written(text) => text <= name && FullMatch(pattern[1..], name[|text|..])
  }

  function PieceOf(macro: Macro, token: string): Piece {
    if token in macro.parameters then AnyWord else Written(token)
  }

  /** The end of the run of `##` that starts at `at`. */
  function RunEnd(body: seq<string>, at: nat): (end: nat)
    requires at < |body|
    ensures at <= end < |body|
    decreases |body| - at
  {
    if at + 2 < |body| && body[at + 1] == "##" then RunEnd(body, at + 2) else at
  }

  /** The operands of the run from `at` to `end`: every other token. */
  function Run(body: seq<string>, at: nat, end: nat): (run: seq<string>)
    requires at <= end < |body|
    ensures run != [] && forall k :: 0 <= k < |run| ==> run[k] in body
    decreases end - at
  {
    [body[at]] + if at + 2 <= end then Run(body, at + 2, end) else []
  }

  function PiecesOf(macro: Macro, run: seq<string>): (pieces: seq<Piece>)
    ensures |pieces| == |run| && forall k :: 0 <= k < |run| ==> pieces[k] == PieceOf(macro, run[k])
  {
    seq(|run|, k requires 0 <= k < |run| => PieceOf(macro, run[k]))
  }

  function Pieces(macro: Macro, at: nat, end: nat): seq<Piece>
    requires at <= end < |macro.body|
  {
    PiecesOf(macro, Run(macro.body, at, end))
  }

  function PastesFrom(macro: Macro, at: nat): seq<seq<Piece>>
    decreases |macro.body| - at
  {
    if at >= |macro.body| then []
    else if at + 1 < |macro.body| && macro.body[at + 1] == "##"
    then
      var end := RunEnd(macro.body, at);
      [Pieces(macro, at, end)] + PastesFrom(macro, end + 1)
    else PastesFrom(macro, at + 1)
  }

  /** A run that is two tokens longer has one more operand. */
  lemma {:induction false} RunGrows(body: seq<string>, start: nat, at: nat)
    requires start <= at && at + 2 < |body| && (at - start) % 2 == 0
    ensures Run(body, start, at + 2) == Run(body, start, at) + [body[at + 2]]
    decreases at - start
  {
    if start == at {
      assert Run(body, at, at) == [body[at]] && Run(body, at + 2, at + 2) == [body[at + 2]];
    } else {
      RunGrows(body, start + 2, at);
    }
  }

  /** The pieces of the run of `##` that starts at `start`, and where it ends. */
  method TakeRun(macro: Macro, start: nat) returns (pieces: seq<Piece>, at: nat)
    requires start < |macro.body|
    ensures at == RunEnd(macro.body, start) && pieces == Pieces(macro, start, at)
  {
    hide PieceOf, Run;
    pieces, at := [PieceOf(macro, macro.body[start])], start;
    assert Run(macro.body, start, start) == [macro.body[start]] by { RunOfOne(macro.body, start); }
    while at + 2 < |macro.body| && macro.body[at + 1] == "##"
      invariant start <= at < |macro.body| && (at - start) % 2 == 0
      invariant RunEnd(macro.body, at) == RunEnd(macro.body, start)
      invariant pieces == Pieces(macro, start, at)
    {
      RunGrows(macro.body, start, at);
      pieces := pieces + [PieceOf(macro, macro.body[at + 2])];
      at := at + 2;
    }
  }

  lemma RunOfOne(body: seq<string>, at: nat)
    requires at < |body|
    ensures Run(body, at, at) == [body[at]]
  {
  }

  /** A pattern for each run of `##` in the body. */
  method Pastes(macro: Macro) returns (patterns: seq<seq<Piece>>)
    ensures patterns == PastesFrom(macro, 0)
  {
    patterns := [];
    var at := 0;
    while at < |macro.body|
      invariant patterns + PastesFrom(macro, at) == PastesFrom(macro, 0)
    {
      if at + 1 < |macro.body| && macro.body[at + 1] == "##" {
        var pieces;
        pieces, at := TakeRun(macro, at);
        patterns := patterns + [pieces];
      }
      at := at + 1;
    }
  }

  /** The operands of a maximal run of `##`: it starts at `start` and ends at `end`. */
  ghost predicate IsRunOf(body: seq<string>, start: nat, end: nat) {
    && start < |body| && body[start] != "##" && (start > 0 ==> body[start - 1] != "##")
    && start + 1 < |body| && body[start + 1] == "##" && end == RunEnd(body, start)
  }

  // ----- what an expansion makes -----

  /** The token a parameter goes by in the body: `...` by `__VA_ARGS__`, and `rest...` by `rest`. */
  function GoesBy(parameter: string): string {
    var n := |parameter|;
    if n < 3 || parameter[n - 3..] != "..." then parameter
    else if n == 3 then "__VA_ARGS__"
    else if parameter[n - 4] == ' ' then parameter[..n - 4]
    else parameter[..n - 3]
  }

  /** The preprocessor puts an argument in the place of `token`. */
  predicate IsGiven(macro: Macro, token: string) {
    exists p :: p in macro.parameters && GoesBy(p) == token
  }

  /** A variadic parameter is written with three dots, spaced from its name or not. */
  lemma GoesByMeans(rest: string)
    ensures rest != "" && rest[|rest| - 1] != ' ' ==> GoesBy(rest + "...") == rest
    ensures rest != "" ==> GoesBy(rest + " ...") == rest
    ensures GoesBy("...") == "__VA_ARGS__"
    ensures '.' !in rest ==> GoesBy(rest) == rest
  {
    var near, far := rest + "...", rest + " ...";
    assert near[|near| - 3..] == "..." && near[..|near| - 3] == rest;
    assert far[|far| - 3..] == "..." && far[..|far| - 4] == rest && far[|far| - 4] == ' ';
    assert "..."[0..] == "...";
    assert |rest| >= 3 ==> rest[|rest| - 3..][0] == rest[|rest| - 3];
  }

  /** What an operand of `##` stands for: the tokens of an argument, or the token itself. */
  function Operand(macro: Macro, arguments: map<string, seq<string>>, token: string): seq<string> {
    if IsGiven(macro, token) then (if token in arguments then arguments[token] else []) else [token]
  }

  function Operands(macro: Macro, arguments: map<string, seq<string>>, run: seq<string>): (parts: seq<seq<string>>)
    ensures |parts| == |run| && forall k :: 0 <= k < |run| ==> parts[k] == Operand(macro, arguments, run[k])
  {
    seq(|run|, k requires 0 <= k < |run| => Operand(macro, arguments, run[k]))
  }

  function FirstOf(tokens: seq<string>): string {
    if tokens == [] then "" else tokens[0]
  }

  function LastOf(tokens: seq<string>): string {
    if tokens == [] then "" else tokens[|tokens| - 1]
  }

  function Concat(texts: seq<string>): string {
    if texts == [] then "" else texts[0] + Concat(texts[1..])
  }

  /** The text each operand from `i` to `j` puts into the token they are glued into. */
  function Texts(parts: seq<seq<string>>, i: nat, j: nat): (texts: seq<string>)
    requires i < j < |parts|
    ensures |texts| == j - i + 1
    ensures texts[0] == LastOf(parts[i]) && forall k :: 0 < k < |texts| ==> texts[k] == FirstOf(parts[i + k])
  {
    seq(j - i + 1, m requires 0 <= m <= j - i => if m == 0 then LastOf(parts[i]) else FirstOf(parts[i + m]))
  }

  /**
   Operands `i` to `j` of a run are glued into one token: `##` joins the last token of what
   stands before it to the first of what stands after, so an operand of several tokens ends
   one token and begins another.
   */
  ghost predicate Makes(parts: seq<seq<string>>, i: nat, j: nat, name: string) {
    && i < j < |parts|
    && (i > 0 ==> |parts[i]| > 1) && (j < |parts| - 1 ==> |parts[j]| > 1)
    && (forall m :: i < m < j ==> |parts[m]| <= 1)
    && name == Concat(Texts(parts, i, j))
  }

  /** What a piece of a pattern is matched with: a word, or the very text. */
  predicate Fits(piece: Piece, text: string) {
    match piece
    case AnyWord => IsWord(text)
    case Written(t) => text == t
  }

  lemma {:induction false} TextsMatch(pieces: seq<Piece>, texts: seq<string>)
    requires |pieces| == |texts| && forall k :: 0 <= k < |pieces| ==> Fits(pieces[k], texts[k])
    ensures FullMatch(pieces, Concat(texts))
  {
    if pieces != [] {
      TextsMatch(pieces[1..], texts[1..]);
      var name := Concat(texts);
      assert name[..|texts[0]|] == texts[0] && name[|texts[0]|..] == Concat(texts[1..]);
    }
  }

  lemma {:induction false} WordsInside(texts: seq<string>, k: nat)
    requires k < |texts|
    ensures IsWord(Concat(texts)) ==> IsWord(texts[k])
    ensures (forall i :: 0 <= i < |texts| ==> IsWord(texts[i])) ==> IsWord(Concat(texts))
  {
    var rest := Concat(texts[1..]);
    assert Concat(texts) == texts[0] + rest;
    assert Concat(texts)[|texts[0]|..] == rest && Concat(texts)[..|texts[0]|] == texts[0];
    if |texts| > 1 {
      WordsInside(texts[1..], if k > 0 then k - 1 else 0);
    }
  }

  lemma {:induction false} RunStays(body: seq<string>, at: nat, s: nat)
    requires at < |body| && at < s <= RunEnd(body, at) && body[s] != "##"
    ensures body[s - 1] == "##"
    decreases s - at
  {
    if s > at + 2 {
      RunStays(body, at + 2, s);
    }
  }

  lemma {:induction false} RunIsFound(macro: Macro, at: nat, start: nat, end: nat)
    requires at <= start && IsRunOf(macro.body, start, end)
    ensures Pieces(macro, start, end) in PastesFrom(macro, at)
    decreases start - at
  {
    if at < start {
      if macro.body[at + 1] == "##" {
        if start <= RunEnd(macro.body, at) {
          RunStays(macro.body, at, start);
          assert false;
        }
        RunIsFound(macro, RunEnd(macro.body, at) + 1, start, end);
      } else {
        RunIsFound(macro, at + 1, start, end);
      }
    }
  }

  lemma {:induction false} ConcatSplits(a: seq<string>, b: seq<string>)
    ensures Concat(a + b) == Concat(a) + Concat(b)
  {
    if a == [] {
      assert a + b == b;
    } else {
      ConcatSplits(a[1..], b);
      assert (a + b)[1..] == a[1..] + b;
    }
  }

  function Empties(n: nat): (texts: seq<string>)
    ensures |texts| == n && (forall k :: 0 <= k < n ==> texts[k] == "") && Concat(texts) == ""
  {
    if n == 0 then [] else [""] + Empties(n - 1)
  }

  /** The texts of operands `i` on in a run of `n`, with nothing for the others. */
  function Padded(texts: seq<string>, i: nat, n: nat): (all: seq<string>)
    requires i + |texts| <= n
    ensures |all| == n && forall k :: 0 <= k < n ==> all[k] == if i <= k < i + |texts| then texts[k - i] else ""
  {
    Empties(i) + texts + Empties(n - i - |texts|)
  }

  lemma PaddedIsSame(texts: seq<string>, i: nat, n: nat)
    requires i + |texts| <= n
    ensures Concat(Padded(texts, i, n)) == Concat(texts)
  {
    hide Concat;
    ConcatSplits(Empties(i) + texts, Empties(n - i - |texts|));
    ConcatSplits(Empties(i), texts);
  }

  /** Operands `i` to `j` of a run can become one name, given the right arguments. */
  predicate Spans(macro: Macro, run: seq<string>, i: nat, j: nat) {
    && i < j < |run|
    && (i == 0 || IsGiven(macro, run[i])) && (j == |run| - 1 || IsGiven(macro, run[j]))
    && forall k :: i <= k <= j ==> IsGiven(macro, run[k]) || IsWord(run[k])
  }

  /** The pattern can do without the operands outside `i` to `j`, and takes any word for the arguments inside. */
  predicate Allows(macro: Macro, run: seq<string>, i: nat, j: nat) {
    forall k :: 0 <= k < |run| && (k < i || j < k || IsGiven(macro, run[k])) ==> run[k] in macro.parameters
  }

  lemma MadeSpans(macro: Macro, arguments: map<string, seq<string>>, run: seq<string>, i: nat, j: nat, name: string)
    requires Makes(Operands(macro, arguments, run), i, j, name) && IsWord(name)
    ensures Spans(macro, run, i, j)
    ensures forall m :: 0 <= m <= j - i ==> IsWord(Texts(Operands(macro, arguments, run), i, j)[m])
  {
    hide IsGiven, Concat, IsWord;
    var parts := Operands(macro, arguments, run);
    var texts := Texts(parts, i, j);
    forall m | 0 <= m <= j - i
      ensures IsWord(texts[m])
    {
      WordsInside(texts, m);
    }
    forall k | i <= k <= j
      ensures IsGiven(macro, run[k]) || IsWord(run[k])
    {
      assert IsWord(texts[k - i]);
      assert !IsGiven(macro, run[k]) ==> parts[k] == [run[k]] && texts[k - i] == run[k];
    }
  }

  /** A name made of a stretch the pattern allows for matches it. */
  lemma AllowedMatches(macro: Macro, arguments: map<string, seq<string>>, run: seq<string>, i: nat, j: nat, name: string)
    requires Makes(Operands(macro, arguments, run), i, j, name) && IsWord(name) && Allows(macro, run, i, j)
    ensures FullMatch(PiecesOf(macro, run), name)
  {
    hide FullMatch, Concat, IsWord, IsGiven;
    MadeSpans(macro, arguments, run, i, j, name);
    var parts := Operands(macro, arguments, run);
    var texts := Texts(parts, i, j);
    var all := Padded(texts, i, |run|);
    PaddedIsSame(texts, i, |run|);
    EmptyWord();
    forall k | 0 <= k < |run|
      ensures Fits(PiecesOf(macro, run)[k], all[k])
    {
      if i <= k <= j && !IsGiven(macro, run[k]) {
        assert parts[k] == [run[k]] && all[k] == texts[k - i] == run[k];
      }
    }
    TextsMatch(PiecesOf(macro, run), all);
  }

  lemma EmptyWord()
    ensures IsWord("")
  {
  }

  /** The code and the preprocessor agree on whether an argument goes in the place of `token`. */
  predicate IsReadRight(macro: Macro, token: string) {
    IsGiven(macro, token) <==> token in macro.parameters
  }

  /**
   Whatever a macro is expanded with, a name its body pastes matches one of its patterns, as
   long as no operand is variadic and none inside a run is given several tokens.
   */
  lemma PastesCover(macro: Macro, arguments: map<string, seq<string>>, start: nat, end: nat, i: nat, j: nat, name: string)
    requires IsRunOf(macro.body, start, end)
    requires var run := Run(macro.body, start, end);
             && Makes(Operands(macro, arguments, run), i, j, name) && IsWord(name)
             && (forall k :: 0 < k < |run| - 1 ==> |Operand(macro, arguments, run[k])| <= 1)
             && (forall k :: 0 <= k < |run| ==> IsReadRight(macro, run[k]))
    ensures exists pattern :: pattern in PastesFrom(macro, 0) && FullMatch(pattern, name)
  {
    hide Run, PastesFrom, FullMatch, Concat, IsGiven;
    RunIsFound(macro, 0, start, end);
    AllowedMatches(macro, arguments, Run(macro.body, start, end), i, j, name);
  }

  /** Every pattern is that of a `##` of the body: none is made up. */
  lemma {:induction false} PastesAreRuns(macro: Macro, at: nat, pattern: seq<Piece>)
    requires pattern in PastesFrom(macro, at)
    ensures exists start: nat :: at <= start && start + 1 < |macro.body| && macro.body[start + 1] == "##"
              && pattern == Pieces(macro, start, RunEnd(macro.body, start))
    decreases |macro.body| - at
  {
    if at + 1 < |macro.body| && macro.body[at + 1] == "##" {
      var end := RunEnd(macro.body, at);
      if pattern != Pieces(macro, at, end) {
        PastesAreRuns(macro, end + 1, pattern);
      }
    } else {
      PastesAreRuns(macro, at + 1, pattern);
    }
  }

  // ----- exactly when a run makes nothing else -----

  /** Every stretch of the run that can become a name is one the pattern allows for. */
  predicate Unbroken(macro: Macro, run: seq<string>) {
    forall i, j :: 0 <= i < j < |run| && Spans(macro, run, i, j) ==> Allows(macro, run, i, j)
  }

  /** Whatever the macro is expanded with, a name the run makes matches its pattern. */
  ghost predicate AlwaysMatches(macro: Macro, run: seq<string>) {
    forall arguments, i: nat, j: nat, name | Makes(Operands(macro, arguments, run), i, j, name) && IsWord(name) ::
      FullMatch(PiecesOf(macro, run), name)
  }

  /** How often `c` is written out in the pieces. */
  function WrittenCount(c: char, pieces: seq<Piece>): nat {
    if pieces == [] then 0
    else (if pieces[0].Written? then multiset(pieces[0].text)[c] else 0) + WrittenCount(c, pieces[1..])
  }

  /** Where the first piece of a match ends. */
  lemma MatchSplits(pieces: seq<Piece>, name: string) returns (k: nat)
    requires pieces != [] && FullMatch(pieces, name)
    ensures k <= |name| && FullMatch(pieces[1..], name[k..]) && (pieces[0].Written? ==> name[..k] == pieces[0].text)
  {
    match pieces[0]
    case AnyWord => k :| 0 <= k <= |name| && IsWord(name[..k]) && FullMatch(pieces[1..], name[k..]);
    case Written(text) => k := |text|;
  }

  lemma {:induction false} MatchHolds(c: char, pieces: seq<Piece>, name: string)
    requires FullMatch(pieces, name)
    ensures multiset(name)[c] >= WrittenCount(c, pieces)
  {
    hide FullMatch;
    if pieces != [] {
      var k := MatchSplits(pieces, name);
      MatchHolds(c, pieces[1..], name[k..]);
      assert name == name[..k] + name[k..];
      assert multiset(name)[c] == multiset(name[..k])[c] + multiset(name[k..])[c];
    }
  }

  /** A token that holds `c` only where it is written out holds it less often than it is, if one place is left out. */
  lemma {:induction false} HoldsLess(c: char, pieces: seq<Piece>, texts: seq<string>, q: nat)
    requires |pieces| == |texts| && forall k :: 0 <= k < |pieces| ==> c !in texts[k] || pieces[k] == Written(texts[k])
    ensures multiset(Concat(texts))[c] <= WrittenCount(c, pieces)
    ensures q < |pieces| && c !in texts[q] && pieces[q].Written? && c in pieces[q].text ==>
              multiset(Concat(texts))[c] < WrittenCount(c, pieces)
  {
    if pieces != [] {
      HoldsLess(c, pieces[1..], texts[1..], if q > 0 then q - 1 else |pieces|);
      assert multiset(Concat(texts))[c] == multiset(texts[0])[c] + multiset(Concat(texts[1..]))[c];
    }
  }

  /** The nearest argument before `k`, or the start of the run. */
  function Before(macro: Macro, run: seq<string>, k: nat): (i: nat)
    requires 0 < k <= |run|
    ensures i < k && (i > 0 ==> IsGiven(macro, run[i])) && forall m :: i < m < k ==> !IsGiven(macro, run[m])
  {
    if k == 1 || IsGiven(macro, run[k - 1]) then k - 1 else Before(macro, run, k - 1)
  }

  /** The nearest argument after `k`, or the end of the run. */
  function After(macro: Macro, run: seq<string>, k: nat): (j: nat)
    requires k + 1 < |run|
    ensures k < j < |run| && (j < |run| - 1 ==> IsGiven(macro, run[j])) && forall m :: k < m < j ==> !IsGiven(macro, run[m])
    decreases |run| - k
  {
    if k + 2 == |run| || IsGiven(macro, run[k + 1]) then k + 1 else After(macro, run, k + 1)
  }

  /** Every argument is `word` twice. */
  function Twice(macro: Macro, word: string): (arguments: map<string, seq<string>>)
    ensures forall token :: Operand(macro, arguments, token) == if IsGiven(macro, token) then [word, word] else [token]
  {
    map p | p in macro.parameters :: GoesBy(p) := [word, word]
  }

  lemma TwiceTexts(macro: Macro, word: string, run: seq<string>, i: nat, j: nat)
    requires i < j < |run|
    ensures forall m :: 0 <= m <= j - i ==>
              Texts(Operands(macro, Twice(macro, word), run), i, j)[m] == if IsGiven(macro, run[i + m]) then word else run[i + m]
  {
    hide IsGiven, GoesBy, Twice;
    var parts := Operands(macro, Twice(macro, word), run);
    forall m | 0 <= m <= j - i
      ensures Texts(parts, i, j)[m] == if IsGiven(macro, run[i + m]) then word else run[i + m]
    {
      assert parts[i + m] == if IsGiven(macro, run[i + m]) then [word, word] else [run[i + m]];
    }
  }

  /** A token that is a parameter as the code reads it and a word is one to the preprocessor too. */
  lemma WordParameter(macro: Macro, token: string)
    requires token in macro.parameters && IsWord(token)
    ensures IsGiven(macro, token)
  {
    if |token| >= 3 {
      assert token[|token| - 3..][0] == token[|token| - 3];
    }
  }

  /** Two words for each argument make a name of the stretch between two of them. */
  lemma TwiceMakes(macro: Macro, word: string, run: seq<string>, i: nat, j: nat)
    requires Spans(macro, run, i, j) && IsWord(word) && forall k :: i < k < j ==> !IsGiven(macro, run[k])
    ensures var parts := Operands(macro, Twice(macro, word), run); var name := Concat(Texts(parts, i, j));
            Makes(parts, i, j, name) && IsWord(name)
  {
    hide IsGiven, Concat, Twice, IsWord;
    var parts := Operands(macro, Twice(macro, word), run);
    TwiceTexts(macro, word, run, i, j);
    var texts := Texts(parts, i, j);
    WordsInside(texts, 0);
    forall k | i <= k <= j
      ensures |parts[k]| == if IsGiven(macro, run[k]) then 2 else 1
    {
    }
  }

  /** And the name does not match where something written out is missing from it. */
  lemma TwiceMisses(macro: Macro, word: string, c: char, run: seq<string>, i: nat, j: nat, q: nat)
    requires Spans(macro, run, i, j) && q < |run| && (q < i || j < q || IsGiven(macro, run[q]))
    requires run[q] !in macro.parameters && c in run[q] && c !in word
    ensures !FullMatch(PiecesOf(macro, run), Concat(Texts(Operands(macro, Twice(macro, word), run), i, j)))
  {
    hide IsGiven, Concat, Twice, FullMatch, IsWord, WrittenCount;
    var texts := Texts(Operands(macro, Twice(macro, word), run), i, j);
    var pieces, all := PiecesOf(macro, run), Padded(texts, i, |run|);
    TwiceTexts(macro, word, run, i, j);
    PaddedIsSame(texts, i, |run|);
    forall k | 0 <= k < |run|
      ensures c !in all[k] || pieces[k] == Written(all[k])
      ensures k == q ==> c !in all[k]
    {
      if i <= k <= j {
        assert all[k] == texts[k - i] == if IsGiven(macro, run[k]) then word else run[k];
        if !IsGiven(macro, run[k]) && run[k] in macro.parameters { WordParameter(macro, run[k]); }
      }
    }
    HoldsLess(c, pieces, all, q);
    if FullMatch(pieces, Concat(texts)) { MatchHolds(c, pieces, Concat(texts)); }
  }

  /** Inside a stretch that can become a name, one between two arguments can that still misses `q`. */
  lemma Narrowed(macro: Macro, run: seq<string>, i: nat, j: nat, q: nat) returns (a: nat, b: nat)
    requires Spans(macro, run, i, j) && q < |run| && (q < i || j < q || IsGiven(macro, run[q]))
    ensures Spans(macro, run, a, b) && (forall k :: a < k < b ==> !IsGiven(macro, run[k]))
    ensures q < a || b < q || IsGiven(macro, run[q])
  {
    hide IsGiven, IsWord;
    if q == j {
      a, b := Before(macro, run, j), j;
    } else if i <= q < j {
      a, b := q, After(macro, run, q);
    } else {
      a, b := i, After(macro, run, i);
    }
  }

  /** What a run makes always matches its pattern just when every stretch that can become a name is allowed for. */
  lemma PastesCoverExactlyWhen(macro: Macro, run: seq<string>)
    requires forall t :: t in run ==> t != ""
    ensures AlwaysMatches(macro, run) <==> Unbroken(macro, run)
  {
    hide FullMatch, Makes, Spans, Allows, IsWord, Concat, Texts;
    if Unbroken(macro, run) {
      forall arguments, i: nat, j: nat, name | Makes(Operands(macro, arguments, run), i, j, name) && IsWord(name)
        ensures FullMatch(PiecesOf(macro, run), name)
      {
        MadeSpans(macro, arguments, run, i, j, name);
        SpanInRange(macro, run, i, j);
        AllowedMatches(macro, arguments, run, i, j, name);
      }
    } else {
      var i: nat, j: nat :| i < j < |run| && Spans(macro, run, i, j) && !Allows(macro, run, i, j);
      BrokenMisses(macro, run, i, j);
    }
  }

  lemma BrokenMisses(macro: Macro, run: seq<string>, i: nat, j: nat)
    requires Spans(macro, run, i, j) && !Allows(macro, run, i, j) && forall t :: t in run ==> t != ""
    ensures !AlwaysMatches(macro, run)
  {
    hide FullMatch, Makes, Spans, IsWord, Concat, Texts, IsGiven, Twice;
    var q: nat :| q < |run| && (q < i || j < q || IsGiven(macro, run[q])) && run[q] !in macro.parameters;
    assert run[q] in run;
    var c := run[q][0];
    var word := if c == 'a' then "b" else "a";
    assert IsWord(word) by { LetterIsWord(word); }
    assert i < j < |run| by { SpanInRange(macro, run, i, j); }
    var a, b := Narrowed(macro, run, i, j, q);
    SpanInRange(macro, run, a, b);
    TwiceMakes(macro, word, run, a, b);
    TwiceMisses(macro, word, c, run, a, b, q);
  }

  lemma SpanInRange(macro: Macro, run: seq<string>, i: nat, j: nat)
    requires Spans(macro, run, i, j)
    ensures i < j < |run|
  {
  }

  lemma LetterIsWord(word: string)
    requires word == "a" || word == "b"
    ensures IsWord(word)
  {
  }

  // ----- names no pattern matches -----

  /** Some expansion of the macro makes `name`. */
  ghost predicate CanMake(macro: Macro, name: string) {
    exists start: nat, end: nat, arguments, i: nat, j: nat ::
      && IsRunOf(macro.body, start, end)
      && Makes(Operands(macro, arguments, Run(macro.body, start, end)), i, j, name)
  }

  ghost predicate HasPattern(macro: Macro, name: string) {
    exists pattern :: pattern in PastesFrom(macro, 0) && FullMatch(pattern, name)
  }

  /** A name made by a macro without broken runs matches one of its patterns. */
  lemma UnbrokenIsFound(macro: Macro, name: string)
    requires CanMake(macro, name) && IsWord(name)
    requires forall start: nat, end: nat :: IsRunOf(macro.body, start, end) ==> Unbroken(macro, Run(macro.body, start, end))
    ensures HasPattern(macro, name)
  {
    hide Run, PastesFrom, FullMatch, Makes, IsWord, Spans, Allows;
    var start: nat, end: nat, arguments, i: nat, j: nat :|
      && IsRunOf(macro.body, start, end)
      && Makes(Operands(macro, arguments, Run(macro.body, start, end)), i, j, name);
    var run := Run(macro.body, start, end);
    RunIsFound(macro, 0, start, end);
    MadeSpans(macro, arguments, run, i, j, name);
    SpanInRange(macro, run, i, j);
    AllowedMatches(macro, arguments, run, i, j, name);
  }

  lemma OnePattern(m: Macro)
    requires |m.body| == 3 || (|m.body| == 5 && m.body[3] == "##")
    requires m.body[0] != "##" && m.body[1] == "##"
    ensures IsRunOf(m.body, 0, |m.body| - 1) && PastesFrom(m, 0) == [Pieces(m, 0, |m.body| - 1)]
    ensures Run(m.body, 0, |m.body| - 1) == if |m.body| == 3 then [m.body[0], m.body[2]] else [m.body[0], m.body[2], m.body[4]]
  {
    var n := |m.body|;
    assert RunEnd(m.body, n - 1) == n - 1 && RunEnd(m.body, n - 3) == n - 1;
    assert PastesFrom(m, n) == [];
    assert Run(m.body, n - 1, n - 1) == [m.body[n - 1]];
    assert Run(m.body, n - 3, n - 1) == [m.body[n - 3], m.body[n - 1]];
  }

  lemma MakesOfTwo(first: seq<string>, second: seq<string>, rest: seq<seq<string>>)
    requires rest == [] || |second| > 1
    ensures Makes([first, second] + rest, 0, 1, LastOf(first) + FirstOf(second))
  {
    var texts := Texts([first, second] + rest, 0, 1);
    assert texts == [LastOf(first)] + [FirstOf(second)];
    ConcatSplits([LastOf(first)], [FirstOf(second)]);
    ConcatOne(LastOf(first));
    ConcatOne(FirstOf(second));
  }

  lemma ConcatOne(text: string)
    ensures Concat([text]) == text
  {
    assert [text][1..] == [] && Concat([]) == "";
  }

  lemma MatchAfter(text: string, rest: seq<Piece>, more: string)
    ensures FullMatch([Written(text)] + rest, text + more) <==> FullMatch(rest, more)
  {
    var pattern, name := [Written(text)] + rest, text + more;
    assert pattern[1..] == rest && name[|text|..] == more && text <= name;
  }

  lemma MatchLast(text: string, name: string)
    ensures FullMatch([Written(text)], name) <==> name == text
  {
    assert [Written(text)][1..] == [];
    assert text <= name && name[|text|..] == "" ==> name == text;
    assert name == text ==> text <= name && name[|text|..] == "";
  }

  lemma MatchAny(tail: string, name: string)
    ensures FullMatch([AnyWord, Written(tail)], name) ==> |tail| <= |name| && name[|name| - |tail|..] == tail
  {
    if FullMatch([AnyWord, Written(tail)], name) {
      assert [AnyWord, Written(tail)][1..] == [Written(tail)];
      var k :| 0 <= k <= |name| && FullMatch([Written(tail)], name[k..]);
      MatchLast(tail, name[k..]);
    }
  }

  /** What stands next to a `##` on either side is glued, whatever stands further off. */
  lemma GluedMeans(l: seq<string>, x: string, y: string, r: seq<string>, rest: seq<seq<string>>, name: string)
    requires rest == [] || r != []
    ensures Makes([l + [x], [y] + r] + rest, 0, 1, name) <==> name == x + y
  {
    var parts := [l + [x], [y] + r] + rest;
    assert LastOf(l + [x]) == x && FirstOf([y] + r) == y;
    MakesOfTwo(l + [x], [y] + r, rest);
  }

  /** An operand that is given nothing leaves nothing between its neighbours. */
  lemma EmptyGlued(x: string, y: string, name: string)
    ensures Makes([[x], [], [y]], 0, 2, name) <==> name == x + y
  {
    var texts := Texts([[x], [], [y]], 0, 2);
    assert texts == [x] + ([""] + [y]);
    ConcatSplits([x], [""] + [y]);
    ConcatSplits([""], [y]);
    ConcatOne(x);
    ConcatOne("");
    ConcatOne(y);
  }

  /** Two tokens for a parameter inside a run: `left ## a ## tail` makes `left` and the first of them one name. */
  lemma SplitIsMissed(x: string, a: string, left: string, right: string, tail: string)
    requires left != "##" && a != left && a != tail && GoesBy(a) == a
    requires |right| < |tail| || right[|right| - |tail|..] != tail
    ensures var m := Macro(x, [a], [left, "##", a, "##", tail]);
            CanMake(m, left + right) && !HasPattern(m, left + right)
  {
    hide PastesFrom, FullMatch, Makes;
    var m := Macro(x, [a], [left, "##", a, "##", tail]);
    OnePattern(m);
    assert a in m.parameters && IsGiven(m, a) && !IsGiven(m, left) && !IsGiven(m, tail);
    SplitMakes(m, a, left, right, tail);
    SplitMatches(m, a, left, right, tail);
  }

  lemma SplitMakes(m: Macro, a: string, left: string, right: string, tail: string)
    requires IsGiven(m, a) && !IsGiven(m, left) && !IsGiven(m, tail)
    ensures Makes(Operands(m, map[a := [right, right]], [left, a, tail]), 0, 1, left + right)
  {
    hide IsGiven, Makes;
    assert Operands(m, map[a := [right, right]], [left, a, tail]) == [[left], [right, right]] + [[tail]];
    MakesOfTwo([left], [right, right], [[tail]]);
  }

  lemma SplitMatches(m: Macro, a: string, left: string, right: string, tail: string)
    requires a in m.parameters && left !in m.parameters && tail !in m.parameters
    requires |right| < |tail| || right[|right| - |tail|..] != tail
    ensures !FullMatch(PiecesOf(m, [left, a, tail]), left + right)
  {
    hide FullMatch;
    assert PiecesOf(m, [left, a, tail]) == [Written(left)] + [AnyWord, Written(tail)];
    MatchAfter(left, [AnyWord, Written(tail)], right);
    MatchAny(tail, right);
  }

  /** What goes in the place of `__VA_ARGS__` is not what the pattern has there. */
  lemma VariadicIsMissed(x: string, left: string, right: string)
    requires left != "##" && left != "__VA_ARGS__" && left != "..." && right != "__VA_ARGS__"
    ensures var m := Macro(x, ["..."], [left, "##", "__VA_ARGS__"]);
            CanMake(m, left + right) && !HasPattern(m, left + right)
  {
    hide PastesFrom, FullMatch, Makes;
    var m, name, rest := Macro(x, ["..."], [left, "##", "__VA_ARGS__"]), left + right, "__VA_ARGS__";
    OnePattern(m);
    var run, arguments := [left, rest], map[rest := [right]];
    assert "..."[0..] == "..." && GoesBy("...") == rest;
    assert "..." in m.parameters && IsGiven(m, rest) && !IsGiven(m, left);
    assert Operands(m, arguments, run) == [[left], [right]] + [];
    MakesOfTwo([left], [right], []);
    var pattern := [Written(left), Written(rest)];
    assert PiecesOf(m, run) == pattern;
    MatchAfter(left, [Written(rest)], right);
    assert pattern == [Written(left)] + [Written(rest)];
    MatchLast(rest, right);
  }
}

/**
 The code a python name is written in inside a C identifier. It has two layers: a spelling
 that uses letters, digits and `_` alone, and a count of its characters before it.
 */
module Mangle {
  import opened Ir

  const ESCAPE: char := 'Z'

  predicate IsDigit(c: char) {
    '0' <= c <= '9'
  }

  predicate IsLetter(c: char) {
    'a' <= c <= 'z' || 'A' <= c <= 'Z'
  }

  predicate StartsWithDigit(s: string) {
    s != "" && IsDigit(s[0])
  }

  // ----- numbers -----

  predicate IsBase(base: nat) {
    base == 10 || base == 16
  }

  function DigitOf(d: nat): char
    requires d < 16
  {
    if d < 10 then ('0' as int + d) as char else ('a' as int + (d - 10)) as char
  }

  function ValueOf(c: char, base: nat): Option<nat>
    requires IsBase(base)
  {
    if IsDigit(c) then Some((c as int) - ('0' as int))
    else if base == 16 && 'a' <= c <= 'f' then Some((c as int) - ('a' as int) + 10)
    else None
  }

  /** `n` in decimal or in lowercase hexadecimal. */
  function Digits(n: nat, base: nat): (s: string)
    requires IsBase(base)
    ensures s != "" && forall i :: 0 <= i < |s| ==> ValueOf(s[i], base).Some?
  {
    (if n < base then "" else Digits(n / base, base)) + [DigitOf(n % base)]
  }

  /** The number a string of digits writes. */
  function Parse(s: string, base: nat): Option<nat>
    requires IsBase(base)
  {
    if s == "" then None
    else
      var last := ValueOf(s[|s| - 1], base);
      var rest := if |s| == 1 then Some(0) else Parse(s[..|s| - 1], base);
      if last.Some? && rest.Some? then Some(rest.value * base + last.value) else None
  }

  lemma {:induction false} DigitsParse(n: nat, base: nat)
    requires IsBase(base)
    ensures Parse(Digits(n, base), base) == Some(n)
  {
    assert ValueOf(DigitOf(n % base), base) == Some(n % base);
    if n >= base {
      DigitsParse(n / base, base);
      var s := Digits(n, base);
      assert s[..|s| - 1] == Digits(n / base, base);
    }
  }

  // ----- the first layer -----

  predicate IsPlain(c: char, at: nat) {
    c != ESCAPE && (IsLetter(c) || c == '_' || (IsDigit(c) && at > 0))
  }

  function SpellOne(c: char, at: nat): string {
    if IsPlain(c, at) then [c]
    else if c == ESCAPE then [ESCAPE, ESCAPE]
    else [ESCAPE] + Digits(c as int, 16) + "_"
  }

  /** The spelling of what is left of `name` at `at`. */
  function SpellFrom(name: string, at: nat): string
    requires at <= |name|
    decreases |name| - at
  {
    if at == |name| then "" else SpellOne(name[at], at) + SpellFrom(name, at + 1)
  }

  lemma SpellAppend(name: string, at: nat, out: string)
    requires at < |name|
    ensures (out + SpellOne(name[at], at)) + SpellFrom(name, at + 1) == out + SpellFrom(name, at)
  {
  }

  method Spell(name: string) returns (out: string)
    ensures out == SpellFrom(name, 0)
  {
    hide Digits, SpellFrom;
    out := "";
    for at := 0 to |name|
      invariant out + SpellFrom(name, at) == SpellFrom(name, 0)
    {
      SpellAppend(name, at, out);
      var character := name[at];
      if IsPlain(character, at) {
        out := out + [character];
      } else if character == ESCAPE {
        out := out + ([ESCAPE] + [ESCAPE]);
      } else {
        out := out + ([ESCAPE] + Digits(character as int, 16) + "_");
      }
    }
    SpellEnd(name);
  }

  lemma SpellEnd(name: string)
    ensures SpellFrom(name, |name|) == ""
  {
  }

  /** The spelling of `name` after its own length. */
  function Mangled(name: string): string {
    var spelled := SpellFrom(name, 0);
    Digits(|spelled|, 10) + spelled
  }

  // ----- reading back -----

  /** The characters before the first `_`, and those after it. */
  function ToUnderscore(s: string): (parts: Option<(string, string)>)
    ensures parts.Some? ==> |parts.value.1| < |s|
  {
    if s == "" then None
    else if s[0] == '_' then Some(("", s[1..]))
    else
      var parts := ToUnderscore(s[1..]);
      if parts.Some? then Some(([s[0]] + parts.value.0, parts.value.1)) else None
  }

  function CharOf(code: nat): Option<char> {
    if code < 0xD800 || 0xE000 <= code < 0x11_0000 then Some(code as char) else None
  }

  /** The name a spelling stands for. */
  function Unspell(s: string): Option<string>
    decreases |s|
  {
    if s == "" then Some("")
    else if s[0] != ESCAPE then
      var rest := Unspell(s[1..]);
      if rest.Some? then Some([s[0]] + rest.value) else None
    else if |s| == 1 then None
    else if s[1] == ESCAPE then
      var rest := Unspell(s[2..]);
      if rest.Some? then Some([ESCAPE] + rest.value) else None
    else
      // the character after the escape is part of the number whatever it is
      var parts := ToUnderscore(s[2..]);
      if parts.None? then None
      else
        var code := Parse([s[1]] + parts.value.0, 16);
        if code.None? || CharOf(code.value).None? then None
        else
          var rest := Unspell(parts.value.1);
          if rest.Some? then Some([CharOf(code.value).value] + rest.value) else None
  }

  function LeadingDigits(text: string): (n: nat)
    ensures n <= |text| && (forall i :: 0 <= i < n ==> IsDigit(text[i])) && (n < |text| ==> !IsDigit(text[n]))
  {
    if StartsWithDigit(text) then 1 + LeadingDigits(text[1..]) else 0
  }

  /** Read one mangled name off the front of `text`: the name, and what follows it. */
  function Unmangle(text: string): Option<(string, string)> {
    var digits := LeadingDigits(text);
    var length := Parse(text[..digits], 10);
    if length.None? || digits + length.value > |text| then None
    else
      var name := Unspell(text[digits..digits + length.value]);
      if name.Some? then Some((name.value, text[digits + length.value..])) else None
  }

  // ----- what reading back finds -----

  lemma {:induction false} ToUnderscoreStops(s: string, rest: string)
    requires '_' !in s
    ensures ToUnderscore(s + "_" + rest) == Some((s, rest))
  {
    var text := s + "_" + rest;
    if s == "" {
      assert text[1..] == rest;
    } else {
      assert s[0] in s && '_' !in s[1..];
      assert text[1..] == s[1..] + "_" + rest;
      ToUnderscoreStops(s[1..], rest);
      assert [s[0]] + s[1..] == s;
    }
  }

  /** One step of reading back an escaped character. */
  lemma UnspellStep(first: char, hex: string, rest: string)
    requires first != ESCAPE && '_' !in hex && Parse([first] + hex, 16).Some?
    requires CharOf(Parse([first] + hex, 16).value).Some? && Unspell(rest).Some?
    ensures Unspell([ESCAPE, first] + hex + "_" + rest)
         == Some([CharOf(Parse([first] + hex, 16).value).value] + Unspell(rest).value)
  {
    hide Parse, CharOf;
    var text := [ESCAPE, first] + hex + "_" + rest;
    assert text[0] == ESCAPE && text[1] == first;
    assert text[2..] == hex + "_" + rest;
    ToUnderscoreStops(hex, rest);
  }

  /** A number in hexadecimal holds no underscore and does not start with the escape. */
  lemma HexIsClean(hex: string)
    requires forall i :: 0 <= i < |hex| ==> ValueOf(hex[i], 16).Some?
    ensures '_' !in hex && ESCAPE !in hex
  {
  }

  lemma UnspellHex(c: char, hex: string, rest: string)
    requires Unspell(rest).Some? && hex != "" && '_' !in hex && ESCAPE !in hex && Parse(hex, 16) == Some(c as int)
    ensures Unspell([ESCAPE] + hex + "_" + rest) == Some([c] + Unspell(rest).value)
  {
    hide Unspell, Parse, ValueOf;
    var first, more := hex[0], hex[1..];
    assert hex == [first] + more;
    assert CharOf(c as int) == Some(c);
    assert '_' !in more && first in hex;
    UnspellStep(first, more, rest);
    assert [ESCAPE] + hex + "_" + rest == [ESCAPE, first] + more + "_" + rest;
  }

  lemma UnspellEscaped(c: char, rest: string)
    requires Unspell(rest).Some?
    ensures Unspell([ESCAPE] + Digits(c as int, 16) + "_" + rest) == Some([c] + Unspell(rest).value)
  {
    hide Unspell, Digits, Parse, ValueOf;
    DigitsParse(c as int, 16);
    HexIsClean(Digits(c as int, 16));
    UnspellHex(c, Digits(c as int, 16), rest);
  }

  /** Reading a spelling back loses nothing. */
  lemma {:induction false} SpellRoundTrip(name: string, at: nat)
    requires at <= |name|
    ensures Unspell(SpellFrom(name, at)) == Some(name[at..])
    decreases |name| - at
  {
    hide Digits;
    if at == |name| {
      assert name[at..] == "";
    } else {
      SpellRoundTrip(name, at + 1);
      var c, rest := name[at], SpellFrom(name, at + 1);
      assert name[at..] == [c] + name[at + 1..];
      if IsPlain(c, at) {
        assert ([c] + rest)[1..] == rest;
      } else if c == ESCAPE {
        assert ([ESCAPE, ESCAPE] + rest)[2..] == rest;
      } else {
        UnspellEscaped(c, rest);
        assert SpellOne(c, at) + rest == [ESCAPE] + Digits(c as int, 16) + "_" + rest;
      }
    }
  }

  lemma SpellStarts(name: string)
    ensures !StartsWithDigit(SpellFrom(name, 0))
    ensures name != "" <==> SpellFrom(name, 0) != ""
  {
  }

  lemma {:induction false} LeadingDigitsStop(digits: string, rest: string)
    requires (forall i :: 0 <= i < |digits| ==> IsDigit(digits[i])) && !StartsWithDigit(rest)
    ensures LeadingDigits(digits + rest) == |digits|
  {
    if digits != "" {
      assert (digits + rest)[1..] == digits[1..] + rest;
      LeadingDigitsStop(digits[1..], rest);
    } else {
      assert digits + rest == rest;
    }
  }

  lemma DecimalIsDigits(n: nat)
    ensures forall i :: 0 <= i < |Digits(n, 10)| ==> IsDigit(Digits(n, 10)[i])
  {
    assert forall i :: 0 <= i < |Digits(n, 10)| ==> ValueOf(Digits(n, 10)[i], 10).Some?;
  }

  lemma MangleReadsBack(name: string, rest: string)
    requires name != "" || !StartsWithDigit(rest)
    ensures Unmangle(Mangled(name) + rest) == Some((name, rest))
  {
    hide Unspell, SpellFrom, Parse, Digits, LeadingDigits;
    var spelled := SpellFrom(name, 0);
    var digits := Digits(|spelled|, 10);
    var text := Mangled(name) + rest;
    SpellStarts(name);
    SpellRoundTrip(name, 0);
    DecimalIsDigits(|spelled|);
    DigitsParse(|spelled|, 10);
    assert text == digits + (spelled + rest);
    LeadingDigitsStop(digits, spelled + rest);
    assert text[..|digits|] == digits;
    assert text[|digits|..|digits| + |spelled|] == spelled;
    assert text[|digits| + |spelled|..] == rest;
    assert name[0..] == name;
  }

  /** A mangled name ends where it says, except that nothing marks the end of an empty one's length. */
  lemma MangleEndsWhereItSays(name: string, rest: string)
    ensures Unmangle(Mangled(name) + rest) == Some((name, rest)) <==> name != "" || !StartsWithDigit(rest)
  {
    if name != "" || !StartsWithDigit(rest) {
      MangleReadsBack(name, rest);
    } else {
      var text := Mangled(name) + rest;
      assert Mangled(name) == "0";
      assert text[1..] == rest;
      assert LeadingDigits(text) == 1 + LeadingDigits(rest) >= 2;
    }
  }

  // ----- the spelling, character by character -----

  /** A character the spelling keeps: an ASCII letter other than `Z`, `_`, or a digit that is not the first. */
  predicate IsKept(c: char, first: bool) {
    ('a' <= c <= 'z') || ('A' <= c < 'Z') || c == '_' || ('0' <= c <= '9' && !first)
  }

  /** `hex` is the number `code` in hexadecimal, in lowercase and with no zero in front. */
  ghost predicate IsHex(hex: string, code: nat) {
    && Parse(hex, 16) == Some(code) && hex != "" && (hex[0] == '0' ==> hex == "0")
    && forall i :: 0 <= i < |hex| ==> '0' <= hex[i] <= '9' || 'a' <= hex[i] <= 'f'
  }

  lemma {:induction false} DigitsAreHex(n: nat)
    ensures IsHex(Digits(n, 16), n)
    ensures Digits(n, 16)[0] == '0' ==> n == 0
  {
    DigitsParse(n, 16);
    if n >= 16 { DigitsAreHex(n / 16); }
  }

  /** What stands at the end of the spelling of a name for its last character. */
  lemma SpellLast(name: string, c: char) returns (last: string)
    ensures SpellFrom(name + [c], 0) == SpellFrom(name, 0) + last
    ensures IsKept(c, name == "") ==> last == [c]
    ensures c == 'Z' ==> last == "ZZ"
    ensures !IsKept(c, name == "") && c != 'Z' ==> exists hex :: IsHex(hex, c as nat) && last == "Z" + hex + "_"
  {
    hide Digits, Parse;
    last := SpellOne(c, |name|);
    SpellSplits(name, c, 0);
    DigitsAreHex(c as nat);
  }

  lemma {:induction false} SpellSplits(name: string, c: char, at: nat)
    requires at <= |name|
    ensures SpellFrom(name + [c], at) == SpellFrom(name, at) + SpellOne(c, |name|)
    decreases |name| - at
  {
    hide SpellOne;
    if at == |name| {
      assert SpellFrom(name + [c], at + 1) == "";
    } else {
      SpellSplits(name, c, at + 1);
      assert (name + [c])[at] == name[at];
    }
  }

  /** A name is spelled as itself just when every character is kept. */
  lemma {:induction false} SpelledAsItself(name: string)
    ensures SpellFrom(name, 0) == name <==> forall i :: 0 <= i < |name| ==> IsKept(name[i], i == 0)
    ensures |SpellFrom(name, 0)| >= |name|
    ensures |SpellFrom(name, 0)| == |name| ==> SpellFrom(name, 0) == name
    decreases |name|
  {
    if name != "" {
      var before, c := name[..|name| - 1], name[|name| - 1];
      assert name == before + [c];
      SpelledAsItself(before);
      var last := SpellLast(before, c);
    }
  }

  /** The digits of a base, and what each stands for. */
  lemma ValueOfMeans(c: char, base: nat, d: nat)
    requires IsBase(base)
    ensures ValueOf(c, base) == Some(d) <==>
            d < base && c as int == if d < 10 then '0' as int + d else 'a' as int + d - 10
  {
  }
}

/** The strict template language (templating/templating.go). Characters are Unicode code points. */
module Templating {
  import opened Wrappers
  import Text

  datatype Part = Literal(text: string) | Variable(name: string)
  datatype Limits = Limits(source: int, result: int)
  datatype Compiled = Compiled(parts: seq<Part>, limits: Limits)
  datatype CompileError = LimitsNotPositive | SourceTooLong | UnexpectedClosing | Unclosed
                        | InvalidSyntax(name: string) | UnknownVariable(name: string)

  // ---------------------------------------------------------------- the language

  predicate Letter(c: char) {
    'a' <= c <= 'z'
  }

  predicate NameChar(c: char) {
    Letter(c) || '0' <= c <= '9' || c == '_' || c == '.'
  }

  /** Two or more segments joined by dots, each starting with a letter. */
  predicate IsName(s: string) {
    && (forall c | c in s :: NameChar(c))
    && s != "" && Letter(s[0])
    && (forall i | 0 <= i < |s| && s[i] == '.' :: i + 1 < |s| && Letter(s[i + 1]))
    && '.' in s
  }

  predicate PairAt(s: string, c: char, i: nat) {
    i + 1 < |s| && s[i] == c && s[i + 1] == c
  }

  predicate HasPair(s: string, c: char) {
    exists i | 0 <= i < |s| :: PairAt(s, c, i)
  }

  predicate PartOk(p: Part, allowed: set<string>) {
    match p
    case Literal(text) => text != "" && !HasPair(text, '{') && !HasPair(text, '}')
    case Variable(name) => IsName(name) && name in allowed
  }

  /** Neighbours that the source text keeps apart. */
  predicate NextOk(p: Part, next: Part) {
    p.Literal? ==> next.Variable? && p.text != "" && p.text[|p.text| - 1] != '{'
  }

  predicate WellFormed(parts: seq<Part>, allowed: set<string>) {
    && (forall p | p in parts :: PartOk(p, allowed))
    && (forall i | 0 <= i < |parts| - 1 :: NextOk(parts[i], parts[i + 1]))
  }

  /** The text is the parts written one after the other, variables in braces with any padding. */
  ghost predicate Spells(parts: seq<Part>, text: string)
    decreases |parts|
  {
    if parts == [] then text == "" else exists length: nat :: FirstSpells(parts, text, length)
  }

  /** The first part is written in the first `length` characters and the others in the rest. */
  ghost predicate FirstSpells(parts: seq<Part>, text: string, length: nat)
    requires parts != []
    decreases |parts|, 0
  {
    length <= |text| && SpellsPart(parts[0], text[..length]) && Spells(parts[1..], text[length..])
  }

  ghost predicate SpellsPart(p: Part, text: string) {
    match p
    case Literal(t) => text == t
    case Variable(name) =>
      && |text| >= 4 && text[..2] == "{{" && text[|text| - 2..] == "}}"
      && Text.TrimSpace(text[2..|text| - 2]) == name
  }

  // ---------------------------------------------------------------- the parser as a function

  /** `strings.Index` for two equal characters; -1 when there is no pair. */
  function FindPair(s: string, c: char): (r: int)
    ensures r == -1 || 0 <= r < |s|
    ensures r >= 0 ==> PairAt(s, c, r)
    ensures forall i | 0 <= i < |s| && (r < 0 || i < r) :: !PairAt(s, c, i)
  {
    if |s| < 2 then -1
    else if s[0] == c && s[1] == c then 0
    else
      var k := FindPair(s[1..], c);
      assert forall i | 1 <= i < |s| :: PairAt(s, c, i) <==> PairAt(s[1..], c, i - 1);
      if k < 0 then -1 else k + 1
  }

  lemma FoundAt(s: string, c: char, k: nat)
    requires PairAt(s, c, k) && forall i | 0 <= i < k :: !PairAt(s, c, i)
    ensures FindPair(s, c) == k
  {
  }

  function LiteralBefore(text: string): seq<Part> {
    if text == "" then [] else [Literal(text)]
  }

  function Prepend(parts: seq<Part>, r: Result<seq<Part>, CompileError>): Result<seq<Part>, CompileError> {
    match r
    case Success(others) => Success(parts + others)
    case Failure(e) => Failure(e)
  }

  /** The variable whose braces were just opened, and the text behind it. */
  function ParseVariable(rest: string, allowed: set<string>): (r: Result<(string, string), CompileError>)
    ensures r.Success? ==> |r.value.1| < |rest|
  {
    var closing := FindPair(rest, '}');
    if closing < 0 then Failure(Unclosed)
    else
      var name := Text.TrimSpace(rest[..closing]);
      if !IsName(name) then Failure(InvalidSyntax(name))
      else if name !in allowed then Failure(UnknownVariable(name))
      else Success((name, rest[closing + 2..]))
  }

  function Parse(rest: string, allowed: set<string>): Result<seq<Part>, CompileError>
    decreases |rest|
  {
    if rest == "" then Success([])
    else
      var opening, closing := FindPair(rest, '{'), FindPair(rest, '}');
      if closing >= 0 && (opening < 0 || closing < opening) then Failure(UnexpectedClosing)
      else if opening < 0 then Success([Literal(rest)])
      else
        match ParseVariable(rest[opening + 2..], allowed)
        case Failure(e) => Failure(e)
        case Success((name, tail)) =>
          Prepend(LiteralBefore(rest[..opening]) + [Variable(name)], Parse(tail, allowed))
  }

  // ---------------------------------------------------------------- the parser decides the language

  lemma PrefixHasNoPair(s: string, c: char, k: nat)
    requires k <= |s| && forall i | 0 <= i < k :: !PairAt(s, c, i)
    ensures !HasPair(s[..k], c)
  {
    forall i | 0 <= i < k ensures !PairAt(s[..k], c, i) {
      assert !PairAt(s, c, i);
    }
  }

  lemma SpellsCons(p: Part, parts: seq<Part>, a: string, b: string)
    requires SpellsPart(p, a) && Spells(parts, b)
    ensures Spells([p] + parts, a + b)
  {
    assert (a + b)[..|a|] == a && (a + b)[|a|..] == b;
    assert ([p] + parts)[1..] == parts;
    assert FirstSpells([p] + parts, a + b, |a|);
  }

  lemma WellFormedCons(p: Part, parts: seq<Part>, allowed: set<string>)
    requires PartOk(p, allowed) && WellFormed(parts, allowed) && (parts != [] ==> NextOk(p, parts[0]))
    ensures WellFormed([p] + parts, allowed)
  {
    var all := [p] + parts;
    forall i | 0 <= i < |all| - 1 ensures NextOk(all[i], all[i + 1]) {
      assert i > 0 ==> all[i] == parts[i - 1] && all[i + 1] == parts[i];
    }
  }

  lemma ParseVariableSound(rest: string, allowed: set<string>)
    requires ParseVariable(rest, allowed).Success?
    ensures var (name, tail) := ParseVariable(rest, allowed).value;
            && PartOk(Variable(name), allowed)
            && SpellsPart(Variable(name), "{{" + rest[..|rest| - |tail|])
            && tail == rest[|rest| - |tail|..]
  {
    var closing := FindPair(rest, '}');
    assert rest[..closing + 2] == rest[..closing] + "}}";
    Braced(rest[..closing], ParseVariable(rest, allowed).value.0);
    assert |rest[closing + 2..]| == |rest| - closing - 2;
  }

  lemma Braced(inner: string, name: string)
    requires Text.TrimSpace(inner) == name
    ensures SpellsPart(Variable(name), "{{" + (inner + "}}"))
  {
    var text := "{{" + (inner + "}}");
    assert |text| == |inner| + 4 && text[..2] == "{{";
    assert text[2..|text| - 2] == inner;
    assert text[|text| - 2..] == "}}";
  }

  lemma GroupSpells(before: string, v: Part, written: string, others: seq<Part>, tail: string)
    requires SpellsPart(v, written) && Spells(others, tail)
    ensures Spells(LiteralBefore(before) + [v] + others, before + written + tail)
  {
    SpellsCons(v, others, written, tail);
    Text.Associates(before, written, tail);
    if before == "" {
      assert LiteralBefore(before) + [v] + others == [v] + others && before + (written + tail) == written + tail;
    } else {
      SpellsCons(Literal(before), [v] + others, before, written + tail);
      Text.Associates([Literal(before)], [v], others);
    }
  }

  lemma GroupWellFormed(before: string, v: Part, others: seq<Part>, allowed: set<string>)
    requires v.Variable? && PartOk(v, allowed) && WellFormed(others, allowed)
    requires before != "" ==> PartOk(Literal(before), allowed) && before[|before| - 1] != '{'
    ensures WellFormed(LiteralBefore(before) + [v] + others, allowed)
  {
    WellFormedCons(v, others, allowed);
    if before == "" {
      assert LiteralBefore(before) + [v] + others == [v] + others;
    } else {
      WellFormedCons(Literal(before), [v] + others, allowed);
      assert LiteralBefore(before) + [v] + others == [Literal(before)] + ([v] + others);
    }
  }

  lemma LastLiteral(text: string, allowed: set<string>)
    requires text != "" && FindPair(text, '{') < 0 && FindPair(text, '}') < 0
    ensures WellFormed([Literal(text)], allowed) && Spells([Literal(text)], text)
  {
    assert !HasPair(text, '{') && !HasPair(text, '}');
    SpellsCons(Literal(text), [], text, "");
    assert [Literal(text)] + [] == [Literal(text)] && text + "" == text;
  }

  lemma LiteralBeforeOk(rest: string, allowed: set<string>)
    requires var opening, closing := FindPair(rest, '{'), FindPair(rest, '}');
             opening > 0 && (closing < 0 || closing >= opening)
    ensures var before := rest[..FindPair(rest, '{')]; PartOk(Literal(before), allowed) && before[|before| - 1] != '{'
  {
    var opening := FindPair(rest, '{');
    PrefixHasNoPair(rest, '{', opening);
    PrefixHasNoPair(rest, '}', opening);
    assert !PairAt(rest, '{', opening - 1);
  }

  /** One round of the parser on an accepted text. */
  lemma RoundParses(rest: string, allowed: set<string>)
    requires Parse(rest, allowed).Success? && FindPair(rest, '{') >= 0
    ensures var opening := FindPair(rest, '{');
            var variable := ParseVariable(rest[opening + 2..], allowed);
            && variable.Success? && Parse(variable.value.1, allowed).Success?
            && Parse(rest, allowed) ==
               Success(LiteralBefore(rest[..opening]) + [Variable(variable.value.0)] + Parse(variable.value.1, allowed).value)
  {
  }

  lemma RoundReads(rest: string, allowed: set<string>)
    requires Parse(rest, allowed).Success? && FindPair(rest, '{') >= 0
    ensures var before := rest[..FindPair(rest, '{')];
            before != "" ==> PartOk(Literal(before), allowed) && before[|before| - 1] != '{'
  {
    if FindPair(rest, '{') > 0 { LiteralBeforeOk(rest, allowed); }
  }

  /** What one round of the parser took from an accepted text. */
  lemma ParseRound(rest: string, allowed: set<string>) returns (before: string, name: string, written: string, tail: string)
    requires Parse(rest, allowed).Success? && FindPair(rest, '{') >= 0
    ensures rest == before + written + tail && |tail| < |rest|
    ensures before != "" ==> PartOk(Literal(before), allowed) && before[|before| - 1] != '{'
    ensures PartOk(Variable(name), allowed) && SpellsPart(Variable(name), written)
    ensures Parse(tail, allowed).Success?
    ensures Parse(rest, allowed) == Success(LiteralBefore(before) + [Variable(name)] + Parse(tail, allowed).value)
  {
    RoundParses(rest, allowed);
    RoundReads(rest, allowed);
    var opening := FindPair(rest, '{');
    before := rest[..opening];
    name, tail, written := TakeVariable(rest, opening, allowed);
  }

  lemma TakeVariable(rest: string, opening: nat, allowed: set<string>) returns (name: string, tail: string, written: string)
    requires PairAt(rest, '{', opening) && ParseVariable(rest[opening + 2..], allowed).Success?
    ensures ParseVariable(rest[opening + 2..], allowed) == Success((name, tail))
    ensures rest == rest[..opening] + written + tail && |tail| < |rest|
    ensures PartOk(Variable(name), allowed) && SpellsPart(Variable(name), written)
  {
    var inner := rest[opening + 2..];
    ParseVariableSound(inner, allowed);
    name, tail := ParseVariable(inner, allowed).value.0, ParseVariable(inner, allowed).value.1;
    written := "{{" + inner[..|inner| - |tail|];
    Reassemble(rest, opening, tail);
  }

  lemma Reassemble(rest: string, opening: nat, tail: string)
    requires PairAt(rest, '{', opening)
    requires var inner := rest[opening + 2..]; |tail| <= |inner| && tail == inner[|inner| - |tail|..]
    ensures var inner := rest[opening + 2..];
            rest == rest[..opening] + ("{{" + inner[..|inner| - |tail|]) + tail
  {
    var inner := rest[opening + 2..];
    assert rest == rest[..opening] + "{{" + inner;
    assert inner == inner[..|inner| - |tail|] + tail;
  }

  /** What is accepted is spelled by the source and well formed. */
  lemma {:induction false} ParseSound(rest: string, allowed: set<string>)
    requires Parse(rest, allowed).Success?
    ensures WellFormed(Parse(rest, allowed).value, allowed) && Spells(Parse(rest, allowed).value, rest)
    decreases |rest|
  {
    if rest == "" {
    } else if FindPair(rest, '{') < 0 {
      LastLiteral(rest, allowed);
    } else {
      var before, name, written, tail := ParseRound(rest, allowed);
      ParseSound(tail, allowed);
      GroupSpells(before, Variable(name), written, Parse(tail, allowed).value, tail);
      GroupWellFormed(before, Variable(name), Parse(tail, allowed).value, allowed);
    }
  }

  lemma NoBraceIn(inner: string, name: string)
    requires Text.TrimSpace(inner) == name && IsName(name)
    ensures '{' !in inner && '}' !in inner
  {
    var left, right := Text.TrimSplits(inner);
    assert inner == left + name + right;
  }

  lemma ParseVariableComplete(name: string, text: string, tail: string, allowed: set<string>)
    requires PartOk(Variable(name), allowed) && SpellsPart(Variable(name), text)
    ensures ParseVariable(text[2..] + tail, allowed) == Success((name, tail))
  {
    var inner := text[2..|text| - 2];
    NoBraceIn(inner, name);
    var rest := text[2..] + tail;
    Text.SlicesJoin(text, 2, |text| - 2);
    assert rest == inner + "}}" + tail;
    forall i | 0 <= i < |inner| ensures !PairAt(rest, '}', i) {
      assert rest[i] == inner[i] && inner[i] in inner;
    }
    assert rest[|inner|] == '}' && rest[|inner| + 1] == '}';
    FoundAt(rest, '}', |inner|);
    assert rest[..|inner|] == inner && rest[|inner| + 2..] == tail;
  }

  lemma OpensAfter(t: string, text: string, tail: string)
    requires |text| >= 2 && text[..2] == "{{" && !HasPair(t, '{') && !HasPair(t, '}') && (t != "" ==> t[|t| - 1] != '{')
    ensures FindPair(t + text + tail, '{') == |t|
    ensures FindPair(t + text + tail, '}') < 0 || FindPair(t + text + tail, '}') > |t|
  {
    var rest := t + text + tail;
    forall c, i | (c == '{' || c == '}') && 0 <= i < |t| ensures !PairAt(rest, c, i) {
      assert rest[i] == t[i];
      assert i + 1 < |t| ==> rest[i + 1] == t[i + 1] && !PairAt(t, c, i);
      assert i + 1 == |t| ==> rest[i + 1] == '{' && t[i] != '{';
    }
    assert rest[|t|] == '{' && rest[|t| + 1] == '{';
    FoundAt(rest, '{', |t|);
    var k := FindPair(rest, '}');
    assert k >= 0 ==> PairAt(rest, '}', k);
  }

  lemma WellFormedRest(parts: seq<Part>, allowed: set<string>)
    requires WellFormed(parts, allowed) && parts != []
    ensures WellFormed(parts[1..], allowed) && PartOk(parts[0], allowed)
  {
    var rest := parts[1..];
    forall i | 0 <= i < |rest| - 1 ensures NextOk(rest[i], rest[i + 1]) {
      assert rest[i] == parts[i + 1] && rest[i + 1] == parts[i + 2];
      assert NextOk(parts[i + 1], parts[i + 2]);
    }
  }

  /** One round of the parser. */
  lemma ParseGroup(before: string, name: string, written: string, tail: string, others: seq<Part>, allowed: set<string>)
    requires PartOk(Variable(name), allowed) && SpellsPart(Variable(name), written)
    requires Parse(tail, allowed) == Success(others)
    requires !HasPair(before, '{') && !HasPair(before, '}') && (before != "" ==> before[|before| - 1] != '{')
    ensures Parse(before + written + tail, allowed) == Success(LiteralBefore(before) + [Variable(name)] + others)
  {
    var whole := before + written + tail;
    OpensAfter(before, written, tail);
    ParseVariableComplete(name, written, tail, allowed);
    GroupSlices(before, written, tail);
  }

  lemma GroupSlices(before: string, written: string, tail: string)
    requires |written| >= 2
    ensures var whole := before + written + tail;
            whole[|before| + 2..] == written[2..] + tail && whole[..|before|] == before
  {
  }

  /** Text spelled by well-formed parts is accepted, with those parts. */
  lemma {:induction false} ParseComplete(parts: seq<Part>, text: string, allowed: set<string>)
    requires WellFormed(parts, allowed) && Spells(parts, text)
    ensures Parse(text, allowed) == Success(parts)
    decreases |parts|
  {
    if parts != [] {
      WellFormedRest(parts, allowed);
      var length: nat :| FirstSpells(parts, text, length);
      if parts[0].Variable? {
        ParseVariableFirst(parts, text, length, allowed);
      } else if |parts| == 1 {
        LastLiteralParses(parts, text, length, allowed);
      } else {
        ParseLiteralFirst(parts, text, length, allowed);
      }
    }
  }

  lemma LastLiteralParses(parts: seq<Part>, text: string, length: nat, allowed: set<string>)
    requires |parts| == 1 && parts[0].Literal? && PartOk(parts[0], allowed) && FirstSpells(parts, text, length)
    ensures Parse(text, allowed) == Success(parts)
  {
    assert text[length..] == "" && text[..length] == text && parts == [Literal(text)];
  }

  lemma {:induction false} ParseVariableFirst(parts: seq<Part>, text: string, length: nat, allowed: set<string>)
    requires parts != [] && parts[0].Variable? && WellFormed(parts, allowed) && FirstSpells(parts, text, length)
    ensures Parse(text, allowed) == Success(parts)
    decreases |parts|, 0
  {
    WellFormedRest(parts, allowed);
    ParseComplete(parts[1..], text[length..], allowed);
    ParseGroup("", parts[0].name, text[..length], text[length..], parts[1..], allowed);
    NothingBefore(parts, text, length);
  }

  lemma NothingBefore(parts: seq<Part>, text: string, length: nat)
    requires parts != [] && length <= |text|
    ensures "" + text[..length] + text[length..] == text
    ensures LiteralBefore("") + [parts[0]] + parts[1..] == parts
  {
  }

  lemma {:induction false} ParseLiteralFirst(parts: seq<Part>, text: string, length: nat, allowed: set<string>)
    requires |parts| > 1 && parts[0].Literal? && WellFormed(parts, allowed) && FirstSpells(parts, text, length)
    ensures Parse(text, allowed) == Success(parts)
    decreases |parts|, 0
  {
    WellFormedRest(parts, allowed);
    WellFormedRest(parts[1..], allowed);
    assert NextOk(parts[0], parts[1]);
    var behind, rest, others := text[length..], parts[1..], parts[2..];
    assert rest != [] && rest[1..] == others && Spells(rest, behind);
    var next: nat :| FirstSpells(rest, behind, next);
    ParseComplete(others, behind[next..], allowed);
    ParseGroup(parts[0].text, parts[1].name, behind[..next], behind[next..], others, allowed);
    JoinTexts(text, length, next);
    assert LiteralBefore(parts[0].text) + [parts[1]] + others == parts;
  }

  lemma JoinTexts(text: string, length: nat, next: nat)
    requires length <= |text| && next <= |text[length..]|
    ensures text[..length] + text[length..][..next] + text[length..][next..] == text
  {
  }

  // ---------------------------------------------------------------- compiling

  /** What `Compile` answers. */
  function CompileResult(source: string, allowed: set<string>, limits: Limits): Result<Compiled, CompileError> {
    if limits.source <= 0 || limits.result <= 0 then Failure(LimitsNotPositive)
    else if |source| > limits.source then Failure(SourceTooLong)
    else
      match Parse(source, allowed)
      case Failure(e) => Failure(e)
      case Success(parts) => Success(Compiled(parts, limits))
  }

  /** A source is accepted exactly when it fits and some well-formed parts spell it; the result holds those parts. */
  lemma AcceptedSources(source: string, allowed: set<string>, limits: Limits)
    ensures var r := CompileResult(source, allowed, limits);
            var fits := limits.source > 0 && limits.result > 0 && |source| <= limits.source;
            && (r.Success? <==> fits && exists parts :: WellFormed(parts, allowed) && Spells(parts, source))
            && (r.Success? ==> forall parts | WellFormed(parts, allowed) && Spells(parts, source) :: parts == r.value.parts)
  {
    if Parse(source, allowed).Success? {
      ParseSound(source, allowed);
    }
    forall parts | WellFormed(parts, allowed) && Spells(parts, source) ensures Parse(source, allowed) == Success(parts) {
      ParseComplete(parts, source, allowed);
    }
  }

  method Compile(source: string, allowed: set<string>, limits: Limits) returns (r: Result<Compiled, CompileError>)
    ensures r == CompileResult(source, allowed, limits)
  {
    if limits.source <= 0 || limits.result <= 0 {
      return Failure(LimitsNotPositive);
    }
    if |source| > limits.source {
      return Failure(SourceTooLong);
    }
    var parts: seq<Part> := [];
    var rest := source;
    PrependNothing(Parse(source, allowed));
    while rest != ""
      invariant Parse(source, allowed) == Prepend(parts, Parse(rest, allowed))
      decreases |rest|
    {
      var opening := FindPair(rest, '{');
      var closing := FindPair(rest, '}');
      if closing >= 0 && (opening < 0 || closing < opening) {
        return Failure(UnexpectedClosing);
      }
      if opening < 0 {
        return Success(Compiled(parts + [Literal(rest)], limits));
      }
      ghost var before, round := parts, LiteralBefore(rest[..opening]);
      if opening > 0 {
        parts := parts + [Literal(rest[..opening])];
      }
      var variable := CompileVariable(rest[opening + 2..], allowed);
      if variable.Failure? {
        return Failure(variable.error);
      }
      parts := parts + [Variable(variable.value.0)];
      rest := variable.value.1;
      PrependTwice(before, round + [Variable(variable.value.0)], Parse(rest, allowed));
      assert parts == before + (round + [Variable(variable.value.0)]);
    }
    assert parts + [] == parts;
    r := Success(Compiled(parts, limits));
  }

  method CompileVariable(rest: string, allowed: set<string>) returns (r: Result<(string, string), CompileError>)
    ensures r == ParseVariable(rest, allowed)
  {
    var closing := FindPair(rest, '}');
    if closing < 0 {
      return Failure(Unclosed);
    }
    var name := Text.TrimSpace(rest[..closing]);
    if !IsName(name) {
      return Failure(InvalidSyntax(name));
    }
    if name !in allowed {
      return Failure(UnknownVariable(name));
    }
    r := Success((name, rest[closing + 2..]));
  }

  lemma PrependNothing(r: Result<seq<Part>, CompileError>)
    ensures Prepend([], r) == r
  {
    if r.Success? {
      assert [] + r.value == r.value;
    }
  }

  lemma PrependTwice(a: seq<Part>, b: seq<Part>, r: Result<seq<Part>, CompileError>)
    ensures Prepend(a, Prepend(b, r)) == Prepend(a + b, r)
  {
    if r.Success? {
      assert a + (b + r.value) == a + b + r.value;
    }
  }

  // ---------------------------------------------------------------- printing and parsing again

  function PrintPart(p: Part): string {
    match p
    case Literal(text) => text
    case Variable(name) => "{{" + name + "}}"
  }

  function Print(parts: seq<Part>): string {
    if parts == [] then "" else PrintPart(parts[0]) + Print(parts[1..])
  }

  lemma NamesAreTrimmed(name: string)
    requires IsName(name)
    ensures Text.TrimSpace(name) == name
  {
    assert name[0] in name && name[|name| - 1] in name;
  }

  lemma PrintPartSpells(p: Part, allowed: set<string>)
    requires PartOk(p, allowed)
    ensures SpellsPart(p, PrintPart(p))
  {
    if p.Variable? {
      NamesAreTrimmed(p.name);
      var text := PrintPart(p);
      assert text[2..|text| - 2] == p.name;
    }
  }

  lemma {:induction false} PrintSpells(parts: seq<Part>, allowed: set<string>)
    requires WellFormed(parts, allowed)
    ensures Spells(parts, Print(parts))
    decreases |parts|
  {
    if parts != [] {
      WellFormedRest(parts, allowed);
      PrintSpells(parts[1..], allowed);
      PrintPartSpells(parts[0], allowed);
      SpellsCons(parts[0], parts[1..], PrintPart(parts[0]), Print(parts[1..]));
      assert [parts[0]] + parts[1..] == parts;
    }
  }

  lemma {:induction false} PrintIsShortest(parts: seq<Part>, text: string)
    requires Spells(parts, text)
    ensures |Print(parts)| <= |text|
    decreases |parts|
  {
    if parts != [] {
      var length: nat :| FirstSpells(parts, text, length);
      PrintIsShortest(parts[1..], text[length..]);
      if parts[0].Variable? {
        var inner := text[..length][2..length - 2];
        var left, right := Text.TrimSplits(inner);
      }
    }
  }

  /** Writing the parts of an accepted source out again and compiling that gives the same template. */
  lemma PrintedTemplatesCompileToThemselves(source: string, allowed: set<string>, limits: Limits)
    requires CompileResult(source, allowed, limits).Success?
    ensures var c := CompileResult(source, allowed, limits).value;
            && |Print(c.parts)| <= |source|
            && CompileResult(Print(c.parts), allowed, limits) == Success(c)
  {
    var c := CompileResult(source, allowed, limits).value;
    ParseSound(source, allowed);
    PrintSpells(c.parts, allowed);
    PrintIsShortest(c.parts, source);
    ParseComplete(c.parts, Print(c.parts), allowed);
  }

  // ---------------------------------------------------------------- rendering

  datatype Context = PlainText | Html | Header
  datatype Scalar = Chars(text: string) | Flag(truth: bool) | Number(number: int) | Unsupported
  datatype Resolution = Missing | Present(value: Scalar) | Unresolvable(message: string)
  datatype Rendering = Rendering(value: string, warnings: seq<string>)
  datatype RenderError = ResolverFailed(name: string) | UnsupportedType(name: string) | ResultTooLong | UnsafeHeader

  /** `scalarString` for the supported types. */
  function ScalarString(s: Scalar): Option<string> {
    match s
    case Chars(text) => Some(text)
    case Flag(value) => Some(if value then "true" else "false")
    case Number(value) => Some(if value < 0 then "-" + Text.Decimal(-value) else Text.Decimal(value))
    case Unsupported => None
  }

  function EscapeChar(c: char): string {
    match c
    case '<' => "&lt;"
    case '>' => "&gt;"
    case '&' => "&amp;"
    case '\'' => "&#39;"
    case '\"' => "&#34;"
    case _ => [c]
  }

  /** `html.EscapeString`. */
  function Escape(s: string): string {
    if s == "" then "" else EscapeChar(s[0]) + Escape(s[1..])
  }

  /** `unicode.IsControl`. */
  predicate IsControl(c: char) {
    c <= '\U{1F}' || '\U{7F}' <= c <= '\U{9F}'
  }

  /** Only tabs, the printable characters of ASCII and what lies behind the second block of controls. */
  ghost predicate SafeHeader(s: string) {
    forall c | c in s :: c == '\t' || ' ' <= c <= '~' || '\U{A0}' <= c
  }

  method CheckHeader(s: string) returns (ok: bool)
    ensures ok <==> SafeHeader(s)
  {
    for i := 0 to |s|
      invariant SafeHeader(s[..i])
    {
      assert s[..i + 1] == s[..i] + [s[i]];
      if s[i] == '\t' {
        continue;
      }
      if IsControl(s[i]) {
        assert s[i] in s;
        return false;
      }
    }
    assert s[..|s|] == s;
    ok := true;
  }

  type Resolver = string -> Resolution

  /** The text a part contributes. */
  function Shown(p: Part, resolver: Resolver, context: Context): Option<string> {
    match p
    case Literal(text) => Some(text)
    case Variable(name) =>
      match resolver(name)
      case Missing => Some("")
      case Unresolvable(_) => None
      case Present(value) =>
        match ScalarString(value)
        case None => None
        case Some(text) => Some(if context.Html? then Escape(text) else text)
  }

  predicate AllShown(parts: seq<Part>, resolver: Resolver, context: Context) {
    forall p | p in parts :: Shown(p, resolver, context).Some?
  }

  function Joined(parts: seq<Part>, resolver: Resolver, context: Context): string
    requires AllShown(parts, resolver, context)
  {
    if parts == [] then ""
    else
      var n := |parts| - 1;
      Joined(parts[..n], resolver, context) + Shown(parts[n], resolver, context).value
  }

  /** The occurrences of variables without a value, in order. */
  function Warnings(parts: seq<Part>, resolver: Resolver): seq<string> {
    if parts == [] then []
    else
      var n := |parts| - 1;
      Warnings(parts[..n], resolver) +
      if parts[n].Variable? && resolver(parts[n].name).Missing? then [parts[n].name] else []
  }

  /**
   Succeeds exactly when every part can be shown, the whole text fits, and in a header
   holds no control character; then it returns that text and a warning per missing
   occurrence. A failure names a cause.
   */
  method Render(compiled: Compiled, resolver: Resolver, context: Context) returns (r: Result<Rendering, RenderError>)
    requires compiled.limits.result >= 0
    ensures r.Success? <==>
            && AllShown(compiled.parts, resolver, context)
            && |Joined(compiled.parts, resolver, context)| <= compiled.limits.result
            && (context.Header? ==> SafeHeader(Joined(compiled.parts, resolver, context)))
    ensures r.Success? ==>
              r.value == Rendering(Joined(compiled.parts, resolver, context), Warnings(compiled.parts, resolver))
    ensures r.Failure? ==> Caused(compiled, resolver, context, r.error)
  {
    var parts := compiled.parts;
    var result, warnings := "", [];
    for i := 0 to |parts|
      invariant AllShown(parts[..i], resolver, context) && result == Joined(parts[..i], resolver, context)
      invariant warnings == Warnings(parts[..i], resolver) && |result| <= compiled.limits.result
    {
      assert parts[i] in parts;
      var shown := Show(parts[i], resolver, context);
      if shown.Failure? {
        return Failure(shown.error);
      }
      var (text, missing) := shown.value;
      JoinedSnoc(parts, i, resolver, context);
      warnings := warnings + missing;
      if |result| + |text| > compiled.limits.result {
        TooLong(compiled, i + 1, resolver, context);
        return Failure(ResultTooLong);
      }
      result := result + text;
    }
    assert parts[..|parts|] == parts;
    if context.Header? {
      var safe := CheckHeader(result);
      if !safe {
        return Failure(UnsafeHeader);
      }
    }
    r := Success(Rendering(result, warnings));
  }

  /** The text of one part, and its warning if its variable has no value. */
  method Show(current: Part, resolver: Resolver, context: Context) returns (r: Result<(string, seq<string>), RenderError>)
    ensures r.Success? <==> Shown(current, resolver, context).Some?
    ensures r.Success? ==>
              r.value == (Shown(current, resolver, context).value,
                          if current.Variable? && resolver(current.name).Missing? then [current.name] else [])
    ensures r.Failure? ==>
              && current.Variable? && (r.error == ResolverFailed(current.name) || r.error == UnsupportedType(current.name))
              && (r.error.ResolverFailed? <==> resolver(current.name).Unresolvable?)
  {
    match current
    case Literal(literal) => r := Success((literal, []));
    case Variable(name) =>
      match resolver(name)
      case Unresolvable(_) => r := Failure(ResolverFailed(name));
      case Missing => r := Success(("", [name]));
      case Present(value) =>
        var scalar := ScalarString(value);
        if scalar.None? {
          return Failure(UnsupportedType(name));
        }
        r := Success((if context.Html? then Escape(scalar.value) else scalar.value, []));
  }

  ghost predicate Caused(compiled: Compiled, resolver: Resolver, context: Context, e: RenderError) {
    match e
    case ResolverFailed(name) => Variable(name) in compiled.parts && resolver(name).Unresolvable?
    case UnsupportedType(name) =>
      Variable(name) in compiled.parts && resolver(name).Present? && ScalarString(resolver(name).value).None?
    case ResultTooLong =>
      exists i | 0 <= i <= |compiled.parts| ::
        AllShown(compiled.parts[..i], resolver, context) && |Joined(compiled.parts[..i], resolver, context)| > compiled.limits.result
    case UnsafeHeader =>
      context.Header? && AllShown(compiled.parts, resolver, context) && !SafeHeader(Joined(compiled.parts, resolver, context))
  }

  /** What is too long already stays too long. */
  lemma TooLong(compiled: Compiled, i: nat, resolver: Resolver, context: Context)
    requires i <= |compiled.parts| && AllShown(compiled.parts[..i], resolver, context)
    requires |Joined(compiled.parts[..i], resolver, context)| > compiled.limits.result
    ensures AllShown(compiled.parts, resolver, context) ==> |Joined(compiled.parts, resolver, context)| > compiled.limits.result
    ensures Caused(compiled, resolver, context, ResultTooLong)
  {
    if AllShown(compiled.parts, resolver, context) {
      JoinedGrows(compiled.parts, i, resolver, context);
    }
  }

  lemma JoinedSnoc(parts: seq<Part>, i: nat, resolver: Resolver, context: Context)
    requires i < |parts| && AllShown(parts[..i], resolver, context) && Shown(parts[i], resolver, context).Some?
    ensures AllShown(parts[..i + 1], resolver, context)
    ensures Joined(parts[..i + 1], resolver, context) ==
            Joined(parts[..i], resolver, context) + Shown(parts[i], resolver, context).value
    ensures Warnings(parts[..i + 1], resolver) ==
            Warnings(parts[..i], resolver) +
            if parts[i].Variable? && resolver(parts[i].name).Missing? then [parts[i].name] else []
  {
    assert parts[..i + 1] == parts[..i] + [parts[i]] && parts[..i + 1][..i] == parts[..i];
  }

  lemma {:induction false} JoinedGrows(parts: seq<Part>, i: nat, resolver: Resolver, context: Context)
    requires AllShown(parts, resolver, context) && i <= |parts|
    ensures AllShown(parts[..i], resolver, context)
    ensures |Joined(parts[..i], resolver, context)| <= |Joined(parts, resolver, context)|
  {
    if i < |parts| {
      var n := |parts| - 1;
      JoinedGrows(parts[..n], i, resolver, context);
      assert parts[..n][..i] == parts[..i];
    } else {
      assert parts[..i] == parts;
    }
  }

  // ---------------------------------------------------------------- rendering a template as itself

  function Echo(name: string): Resolution {
    Present(Chars("{{" + name + "}}"))
  }

  lemma {:induction false} EscapePlain(s: string)
    requires forall c | c in s :: c != '<' && c != '>' && c != '&' && c != '\'' && c != '\"'
    ensures Escape(s) == s
  {
    if s != "" {
      assert s[0] in s && forall c | c in s[1..] :: c in s;
      EscapePlain(s[1..]);
      assert s == [s[0]] + s[1..];
    }
  }

  lemma {:induction false} PrintSnoc(parts: seq<Part>, p: Part)
    ensures Print(parts + [p]) == Print(parts) + PrintPart(p)
    decreases |parts|
  {
    if parts == [] {
      PrintOne(p);
      assert parts + [p] == [p] && "" + PrintPart(p) == PrintPart(p);
    } else {
      var rest := parts[1..];
      PrintSnoc(rest, p);
      assert (parts + [p])[0] == parts[0] && (parts + [p])[1..] == rest + [p];
      Text.Associates(PrintPart(parts[0]), Print(rest), PrintPart(p));
    }
  }

  lemma PrintOne(p: Part)
    ensures Print([p]) == PrintPart(p)
  {
    assert [p][1..] == [] && PrintPart(p) + "" == PrintPart(p);
  }

  lemma EchoShowsAll(parts: seq<Part>, allowed: set<string>, context: Context)
    requires forall p | p in parts :: PartOk(p, allowed)
    ensures AllShown(parts, Echo, context)
  {
    forall p | p in parts ensures Shown(p, Echo, context).Some? {
      EchoShows(p, allowed, context);
    }
  }

  lemma {:induction false} EchoWarnsNothing(parts: seq<Part>)
    ensures Warnings(parts, Echo) == []
  {
    if parts != [] {
      EchoWarnsNothing(parts[..|parts| - 1]);
    }
  }

  lemma {:induction false} EchoJoins(parts: seq<Part>, allowed: set<string>, context: Context)
    requires (forall p | p in parts :: PartOk(p, allowed)) && AllShown(parts, Echo, context)
    ensures Joined(parts, Echo, context) == Print(parts)
  {
    if parts != [] {
      var n := |parts| - 1;
      assert parts == parts[..n] + [parts[n]];
      EchoJoins(parts[..n], allowed, context);
      PrintSnoc(parts[..n], parts[n]);
      EchoShows(parts[n], allowed, context);
    }
  }

  lemma EchoShows(p: Part, allowed: set<string>, context: Context)
    requires PartOk(p, allowed)
    ensures Shown(p, Echo, context) == Some(PrintPart(p))
  {
    if p.Variable? {
      EscapePlain("{{" + p.name + "}}");
    }
  }

  /**
   Rendering an accepted template with every variable standing for itself gives a
   source of the same template, in plain text and in HTML alike.
   */
  lemma RenderedAsItself(source: string, allowed: set<string>, limits: Limits, context: Context)
    requires CompileResult(source, allowed, limits).Success?
    ensures var c := CompileResult(source, allowed, limits).value;
            && AllShown(c.parts, Echo, context) && Warnings(c.parts, Echo) == []
            && CompileResult(Joined(c.parts, Echo, context), allowed, limits) == Success(c)
  {
    var c := CompileResult(source, allowed, limits).value;
    ParseSound(source, allowed);
    EchoShowsAll(c.parts, allowed, context);
    EchoWarnsNothing(c.parts);
    EchoJoins(c.parts, allowed, context);
    PrintedTemplatesCompileToThemselves(source, allowed, limits);
  }

  // ---------------------------------------------------------------- values in HTML

  /** Whole numbers are written in decimal digits behind their sign, without leading zeros; flags as words. */
  lemma ScalarsAreReadable(s: Scalar)
    ensures ScalarString(s).None? <==> s.Unsupported?
    ensures s.Chars? ==> ScalarString(s) == Some(s.text)
    ensures s.Flag? ==> ScalarString(s) == Some(if s.truth then "true" else "false")
    ensures s.Number? ==>
              var text := ScalarString(s).value;
              var digits := if s.number < 0 then text[1..] else text;
              && text != "" && (text[0] == '-' <==> s.number < 0)
              && Text.Digits(digits) && Text.NumberOf(digits) == (if s.number < 0 then -s.number else s.number)
              && digits != "" && (digits[0] == '0' ==> digits == "0")
  {
    if s.Number? {
      var size := if s.number < 0 then -s.number else s.number;
      Text.DecimalReadsBack(size);
      assert Text.Decimal(size)[0] != '-';
      assert ("-" + Text.Decimal(size))[1..] == Text.Decimal(size);
    }
  }

  /** No value can open a tag or end an attribute. */
  lemma {:induction false} EscapedIsInert(s: string)
    ensures forall c | c in Escape(s) :: c != '<' && c != '>' && c != '\'' && c != '\"'
  {
    if s != "" {
      EscapedIsInert(s[1..]);
    }
  }

  /** Different values stay different. */
  lemma {:induction false} EscapeIsInjective(a: string, b: string)
    requires Escape(a) == Escape(b)
    ensures a == b
  {
    if a != "" && b != "" {
      EscapeSplits(a);
      EscapeSplits(b);
      SamePrefix(a[0], b[0], Escape(a));
      EscapeIsInjective(a[1..], b[1..]);
      assert a == [a[0]] + a[1..] && b == [b[0]] + b[1..];
    }
  }

  /** What a browser reads where an escaped text stands. */
  function Unescape(s: string): string {
    if s == "" then ""
    else if "&lt;" <= s then "<" + Unescape(s[4..])
    else if "&gt;" <= s then ">" + Unescape(s[4..])
    else if "&amp;" <= s then "&" + Unescape(s[5..])
    else if "&#39;" <= s then "'" + Unescape(s[5..])
    else if "&#34;" <= s then "\"" + Unescape(s[5..])
    else [s[0]] + Unescape(s[1..])
  }

  /** A value escaped into HTML reads as itself. */
  lemma {:induction false} EscapedReadsAsItself(s: string)
    ensures Unescape(Escape(s)) == s
  {
    if s != "" {
      UnescapeOne(s[0], Escape(s[1..]));
      EscapedReadsAsItself(s[1..]);
      assert s == [s[0]] + s[1..];
    }
  }

  lemma UnescapeOne(c: char, rest: string)
    ensures Unescape(EscapeChar(c) + rest) == [c] + Unescape(rest)
  {
    var entity := EscapeChar(c);
    var s := entity + rest;
    assert s[0] == entity[0] && s[|entity|..] == rest;
    if |entity| > 1 {
      assert entity <= s && s[1] == entity[1] && s[2] == entity[2] && s[3] == entity[3];
    }
  }

  lemma EscapeSplits(s: string)
    requires s != ""
    ensures EscapeChar(s[0]) <= Escape(s) && Escape(s)[|EscapeChar(s[0])|..] == Escape(s[1..])
  {
    assert Escape(s) == EscapeChar(s[0]) + Escape(s[1..]);
  }

  lemma SamePrefix(c: char, d: char, e: string)
    requires EscapeChar(c) <= e && EscapeChar(d) <= e
    ensures c == d
  {
    var x, y := EscapeChar(c), EscapeChar(d);
    assert x[0] == e[0] == y[0];
    assert |x| > 3 ==> x[1] == e[1] && x[2] == e[2] && x[3] == e[3];
    assert |y| > 3 ==> y[1] == e[1] && y[2] == e[2] && y[3] == e[3];
  }
}

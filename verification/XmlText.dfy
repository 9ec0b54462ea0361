/**
 XML text of a sheet (`spreadsheet-text.ts`, section 4.6 of XML 1.0): the
 successive global replacements of `unescapeXml`, against text written with any
 mix of literal characters, predefined entities and character references.
 */
module XmlText {
  import opened Text

  // ---------------------------------------------------------- the replacements

  predicate IsHex(c: char) {
    IsDigit(c) || 'a' <= c <= 'f' || 'A' <= c <= 'F'
  }

  predicate IsRefDigit(c: char, hex: bool) {
    if hex then IsHex(c) else IsDigit(c)
  }

  predicate RefDigits(s: string, hex: bool) {
    s != "" && forall c | c in s :: IsRefDigit(c, hex)
  }

  function HexDigit(c: char): nat
    requires IsHex(c)
  {
    if IsDigit(c) then c as int - 48 else if 'a' <= c then c as int - 87 else c as int - 55
  }

  function HexValue(s: string): nat
    requires forall c | c in s :: IsHex(c)
  {
    if s == "" then 0 else 16 * HexValue(s[..|s| - 1]) + HexDigit(s[|s| - 1])
  }

  /** `String.fromCodePoint`, which throws outside Unicode. */
  function CodePoint(n: nat): Option<char> {
    if n < 0xD800 || 0xE000 <= n < 0x11_0000 then Some(n as char) else None
  }

  function RefChar(digits: string, hex: bool): Option<char>
    requires RefDigits(digits, hex)
  {
    CodePoint(if hex then HexValue(digits) else Value(digits))
  }

  function Opening(hex: bool): string {
    if hex then "&#x" else "&#"
  }

  /** The digits a text starts with. */
  function Run(s: string, hex: bool): (digits: string)
    ensures digits <= s
    ensures forall c | c in digits :: IsRefDigit(c, hex)
  {
    if s != "" && IsRefDigit(s[0], hex) then [s[0]] + Run(s[1..], hex) else ""
  }

  /** The digits of the character reference a text starts with, empty if it starts with none. */
  function RefAt(s: string, hex: bool): (digits: string)
    ensures digits != "" ==> RefDigits(digits, hex) && |Opening(hex)| + |digits| < |s|
  {
    var open := Opening(hex);
    if open <= s then
      var digits := Run(s[|open|..], hex);
      if digits != "" && |open| + |digits| < |s| && s[|open| + |digits|] == ';' then digits else ""
    else ""
  }

  /** The global replacement of `&#…;` (or `&#x…;`) by its character, failing where that throws. */
  function ReplaceRefs(s: string, hex: bool): Option<string>
    decreases |s|
  {
    if s == "" then Some("")
    else
      var digits := RefAt(s, hex);
      if digits != "" then Prepend(RefChar(digits, hex), ReplaceRefs(s[|Opening(hex)| + |digits| + 1..], hex))
      else Prepend(Some(s[0]), ReplaceRefs(s[1..], hex))
  }

  function Prepend(c: Option<char>, rest: Option<string>): Option<string> {
    if c.Some? && rest.Some? then Some([c.value] + rest.value) else None
  }

  function EntityText(c: char): string {
    if c == '<' then "&lt;"
    else if c == '>' then "&gt;"
    else if c == '"' then "&quot;"
    else if c == '\'' then "&apos;"
    else "&amp;"
  }

  function ReplaceEntity(s: string, c: char): string {
    ReplaceAll(s, EntityText(c), [c])
  }

  function UnescapeXml(value: string): Option<string> {
    var named := ReplaceEntity(ReplaceEntity(ReplaceEntity(ReplaceEntity(value, '<'), '>'), '"'), '\'');
    match ReplaceRefs(named, true)
    case None => None
    case Some(text) =>
      match ReplaceRefs(text, false)
      case None => None
      case Some(text) => Some(ReplaceEntity(text, '&'))
  }

  // ------------------------------------------------------------- written text

  /** How one character of the text is written. */
  datatype Token = Raw(c: char) | Entity(c: char) | Decimal(digits: string) | Hexadecimal(digits: string) {
    predicate Legal() {
      match this
      case Raw(c) => c != '&'
      case Entity(c) => c == '<' || c == '>' || c == '"' || c == '\'' || c == '&'
      case Decimal(digits) => RefDigits(digits, false) && RefChar(digits, false).Some?
      case Hexadecimal(digits) => RefDigits(digits, true) && RefChar(digits, true).Some?
    }

    /** The character written. */
    function Char(): char
      requires Legal()
    {
      match this
      case Raw(c) => c
      case Entity(c) => c
      case Decimal(digits) => RefChar(digits, false).value
      case Hexadecimal(digits) => RefChar(digits, true).value
    }

    /** The token's text once the entities of `done`, and the hexadecimal references, are replaced. */
    function Text(done: set<char>, hexDone: bool): string
      requires Legal()
    {
      match this
      case Raw(c) => [c]
      case Entity(c) => if c in done then [c] else EntityText(c)
      case Decimal(digits) => "&#" + digits + ";"
      case Hexadecimal(digits) => if hexDone then [Char()] else "&#x" + digits + ";"
    }

    predicate Numeric() {
      Decimal? || Hexadecimal?
    }
  }

  predicate Legal(tokens: seq<Token>) {
    forall t | t in tokens :: t.Legal()
  }

  function Chars(tokens: seq<Token>): string
    requires Legal(tokens)
  {
    if tokens == [] then "" else [tokens[0].Char()] + Chars(tokens[1..])
  }

  function Staged(tokens: seq<Token>, done: set<char>, hexDone: bool): string
    requires Legal(tokens)
  {
    if tokens == [] then "" else tokens[0].Text(done, hexDone) + Staged(tokens[1..], done, hexDone)
  }

  /** The text as it stands in the file. */
  function Written(tokens: seq<Token>): string
    requires Legal(tokens)
  {
    Staged(tokens, {}, false)
  }

  // ------------------------------------------------------ the named entities

  const Named: set<char> := {'<', '>', '"', '\''}

  lemma {:induction false} SkipEntity(u: string, rest: string, c: char)
    requires '&' !in u
    ensures ReplaceEntity(u + rest, c) == u + ReplaceEntity(rest, c)
  {
    if u == "" {
      assert u + rest == rest;
    } else {
      assert u[0] in u && (u + rest)[0] == u[0] && EntityText(c)[0] == '&';
      assert (u + rest)[1..] == u[1..] + rest;
      SkipEntity(u[1..], rest, c);
      assert [u[0]] + u[1..] == u;
    }
  }

  lemma StepEntity(s: string, c: char)
    requires s != "" && !(EntityText(c) <= s)
    ensures ReplaceEntity(s, c) == [s[0]] + ReplaceEntity(s[1..], c)
  {
  }

  /** A text no part of which spells the entity is passed over whole. */
  lemma PassOver(text: string, rest: string, c: char)
    requires text != "" && '&' !in text[1..]
    requires !(EntityText(c) <= text + rest)
    ensures ReplaceEntity(text + rest, c) == text + ReplaceEntity(rest, c)
  {
    hide ReplaceEntity;
    StepEntity(text + rest, c);
    assert (text + rest)[1..] == text[1..] + rest;
    SkipEntity(text[1..], rest, c);
    assert [text[0]] + (text[1..] + ReplaceEntity(rest, c)) == text + ReplaceEntity(rest, c);
  }

  lemma Matched(rest: string, c: char)
    ensures ReplaceEntity(EntityText(c) + rest, c) == [c] + ReplaceEntity(rest, c)
  {
    var text := EntityText(c);
    assert text <= text + rest && (text + rest)[|text|..] == rest;
  }

  /** Entities differ in the first three characters. */
  lemma EntityTexts(c: char, e: char, rest: string)
    requires Entity(c).Legal() && Entity(e).Legal() && c != e
    ensures !(EntityText(e) <= EntityText(c) + rest)
    ensures '&' !in EntityText(c)[1..]
  {
    var a, b := EntityText(c), EntityText(e);
    assert a[1] != b[1] || a[2] != b[2];
    assert (a + rest)[1] == a[1] && (a + rest)[2] == a[2];
  }

  lemma NamedToken(t: Token, rest: string, done: set<char>, e: char)
    requires t.Legal() && done <= Named && e in Named
    ensures ReplaceEntity(t.Text(done, false) + rest, e) == t.Text(done + {e}, false) + ReplaceEntity(rest, e)
  {
    hide ReplaceEntity;
    var text := t.Text(done, false);
    match t
    case Raw(c) => SkipEntity(text, rest, e);
    case Entity(c) =>
      if c in done {
        SkipEntity(text, rest, e);
      } else if c == e {
        Matched(rest, e);
      } else {
        EntityTexts(c, e, rest);
        PassOver(text, rest, e);
      }
    case Decimal(digits) => NumericText(t, digits, rest, e); PassOver(text, rest, e);
    case Hexadecimal(digits) => NumericText(t, digits, rest, e); PassOver(text, rest, e);
  }

  lemma NumericText(t: Token, digits: string, rest: string, e: char)
    requires t.Legal() && (t == Decimal(digits) || t == Hexadecimal(digits))
    ensures '&' !in t.Text({}, false)[1..]
    ensures !(EntityText(e) <= t.Text({}, false) + rest)
  {
    assert '&' !in digits;
    var text := t.Text({}, false);
    assert text[1] == '#' && EntityText(e)[1] != '#' && (text + rest)[1] == '#';
  }

  lemma {:induction false} NamedPass(tokens: seq<Token>, done: set<char>, e: char)
    requires Legal(tokens) && done <= Named && e in Named
    ensures ReplaceEntity(Staged(tokens, done, false), e) == Staged(tokens, done + {e}, false)
  {
    hide EntityText;
    if tokens != [] {
      hide ReplaceEntity;
      NamedToken(tokens[0], Staged(tokens[1..], done, false), done, e);
      NamedPass(tokens[1..], done, e);
    }
  }

  // --------------------------------------------------- hexadecimal references

  lemma StepRefs(s: string, hex: bool)
    requires s != "" && RefAt(s, hex) == ""
    ensures ReplaceRefs(s, hex) == Prepend(Some(s[0]), ReplaceRefs(s[1..], hex))
  {
  }

  lemma NoOpening(s: string, hex: bool)
    requires s != "" && s[0] != '&'
    ensures RefAt(s, hex) == ""
  {
  }

  lemma {:induction false} SkipRefs(u: string, rest: string, hex: bool)
    requires '&' !in u
    ensures ReplaceRefs(u + rest, hex) == PrependAll(u, ReplaceRefs(rest, hex))
  {
    if u == "" {
      assert u + rest == rest;
      assert ReplaceRefs(rest, hex).Some? ==> "" + ReplaceRefs(rest, hex).value == ReplaceRefs(rest, hex).value;
    } else {
      hide ReplaceRefs, RefAt;
      assert u[0] in u && (u + rest)[0] == u[0];
      assert (u + rest)[1..] == u[1..] + rest;
      NoOpening(u + rest, hex);
      StepRefs(u + rest, hex);
      SkipRefs(u[1..], rest, hex);
      PrependStep(u, ReplaceRefs(rest, hex));
    }
  }

  lemma PrependStep(u: string, rest: Option<string>)
    requires u != ""
    ensures Prepend(Some(u[0]), PrependAll(u[1..], rest)) == PrependAll(u, rest)
  {
    if rest.Some? {
      assert [u[0]] + (u[1..] + rest.value) == u + rest.value;
    }
  }

  function PrependAll(u: string, rest: Option<string>): Option<string> {
    if rest.Some? then Some(u + rest.value) else None
  }

  lemma {:induction false} RunOf(digits: string, rest: string, hex: bool)
    requires forall c | c in digits :: IsRefDigit(c, hex)
    requires rest == "" || !IsRefDigit(rest[0], hex)
    ensures Run(digits + rest, hex) == digits
  {
    if digits == "" {
      assert digits + rest == rest;
    } else {
      assert digits[0] in digits && (digits + rest)[1..] == digits[1..] + rest;
      RunOf(digits[1..], rest, hex);
    }
  }

  /** A written reference is replaced by its character. */
  lemma RefReplaced(digits: string, rest: string, hex: bool)
    requires RefDigits(digits, hex)
    ensures RefAt(Opening(hex) + digits + ";" + rest, hex) == digits
    ensures ReplaceRefs(Opening(hex) + digits + ";" + rest, hex) == Prepend(RefChar(digits, hex), ReplaceRefs(rest, hex))
  {
    hide RefChar;
    var open := Opening(hex);
    var s := open + digits + ";" + rest;
    assert s[|open|..] == digits + (";" + rest);
    RunOf(digits, ";" + rest, hex);
    assert s[|open| + |digits|] == ';' && s[|open| + |digits| + 1..] == rest;
  }

  lemma PassOverRef(text: string, rest: string, hex: bool)
    requires text != "" && '&' !in text[1..] && RefAt(text + rest, hex) == ""
    ensures ReplaceRefs(text + rest, hex) == PrependAll(text, ReplaceRefs(rest, hex))
  {
    hide ReplaceRefs, RefAt;
    assert (text + rest)[1..] == text[1..] + rest && (text + rest)[0] == text[0];
    StepRefs(text + rest, hex);
    SkipRefs(text[1..], rest, hex);
    PrependStep(text, ReplaceRefs(rest, hex));
  }

  /** Text that does not open a reference at its second or third character is not one. */
  lemma NotRef(s: string, hex: bool)
    requires |s| >= 3 && (s[1] != '#' || (hex && s[2] != 'x'))
    ensures RefAt(s, hex) == ""
  {
  }

  lemma HexToken(t: Token, rest: string)
    requires t.Legal()
    ensures ReplaceRefs(t.Text(Named, false) + rest, true) == PrependAll(t.Text(Named, true), ReplaceRefs(rest, true))
  {
    hide ReplaceRefs, RefAt, RefChar;
    var text := t.Text(Named, false);
    match t
    case Raw(c) => SkipRefs(text, rest, true);
    case Entity(c) =>
      if c in Named {
        SkipRefs(text, rest, true);
      } else {
        assert text == "&amp;" && (text + rest)[1] == 'a';
        NotRef(text + rest, true);
        PassOverRef(text, rest, true);
      }
    case Decimal(digits) =>
      NumericText(t, digits, rest, '<');
      assert digits[0] in digits && (text + rest)[2] == digits[0];
      NotRef(text + rest, true);
      PassOverRef(text, rest, true);
    case Hexadecimal(digits) => RefReplaced(digits, rest, true);
  }

  lemma {:induction false} HexPass(tokens: seq<Token>)
    requires Legal(tokens)
    ensures ReplaceRefs(Staged(tokens, Named, false), true) == Some(Staged(tokens, Named, true))
  {
    if tokens != [] {
      hide ReplaceRefs;
      HexToken(tokens[0], Staged(tokens[1..], Named, false));
      HexPass(tokens[1..]);
    }
  }

  // ------------------------------------------------------- decimal references

  /** The token is one plain character by the time the decimal references are replaced. */
  predicate Plain(t: Token) {
    t.Raw? || t.Hexadecimal? || (t.Entity? && t.c != '&')
  }

  predicate PlainChar(t: Token, c: char) {
    t.Legal() && Plain(t) && t.Char() == c
  }

  /** The digits a run of plain tokens spells. */
  function SpelledRun(tokens: seq<Token>): (digits: string)
    requires Legal(tokens)
    ensures |digits| <= |tokens|
    ensures forall c | c in digits :: IsDigit(c)
  {
    if tokens != [] && Plain(tokens[0]) && IsDigit(tokens[0].Char()) then
      [tokens[0].Char()] + SpelledRun(tokens[1..])
    else ""
  }

  /**
   The digits of a decimal reference that plain characters happen to spell, after
   an ampersand that was itself written as a hexadecimal reference.
   */
  function SpelledRef(tokens: seq<Token>): (digits: string)
    requires Legal(tokens)
    ensures digits != "" ==> RefDigits(digits, false) && |digits| + 2 < |tokens|
  {
    if |tokens| >= 2 && PlainChar(tokens[0], '&') && PlainChar(tokens[1], '#') then
      var digits := SpelledRun(tokens[2..]);
      if |digits| + 2 < |tokens| && PlainChar(tokens[|digits| + 2], ';') then digits else ""
    else ""
  }

  function Stage3(tokens: seq<Token>): string
    requires Legal(tokens)
  {
    Staged(tokens, Named, true)
  }

  lemma PlainText(t: Token)
    requires t.Legal()
    ensures Plain(t) ==> t.Text(Named, true) == [t.Char()]
    ensures !Plain(t) ==> |t.Text(Named, true)| >= 4 && t.Text(Named, true)[0] == '&'
  {
  }

  lemma Stage3Head(tokens: seq<Token>)
    requires Legal(tokens) && tokens != []
    ensures Stage3(tokens) != ""
    ensures Plain(tokens[0]) ==> Stage3(tokens) == [tokens[0].Char()] + Stage3(tokens[1..])
    ensures !Plain(tokens[0]) ==> Stage3(tokens)[0] == '&'
  {
    PlainText(tokens[0]);
  }

  lemma {:induction false} SpelledRunText(tokens: seq<Token>)
    requires Legal(tokens)
    ensures Run(Stage3(tokens), false) == SpelledRun(tokens)
    ensures Stage3(tokens) == SpelledRun(tokens) + Stage3(tokens[|SpelledRun(tokens)|..])
  {
    hide Staged;
    if tokens != [] {
      hide Stage3;
      Stage3Head(tokens);
      if Plain(tokens[0]) && IsDigit(tokens[0].Char()) {
        SpelledRunText(tokens[1..]);
        var n := |SpelledRun(tokens[1..])|;
        assert tokens[1..][n..] == tokens[n + 1..];
        assert Stage3(tokens)[1..] == Stage3(tokens[1..]);
      }
    } else {
      EmptyStage(tokens);
      assert tokens[0..] == tokens;
    }
  }

  lemma EmptyStage(tokens: seq<Token>)
    requires tokens == []
    ensures Stage3(tokens) == ""
  {
  }

  lemma SpelledRefText(tokens: seq<Token>)
    requires Legal(tokens) && tokens != [] && Plain(tokens[0])
    ensures RefAt(Stage3(tokens), false) == SpelledRef(tokens)
  {
    hide Stage3, Plain, Run, SpelledRun;
    var s := Stage3(tokens);
    Stage3Head(tokens);
    if tokens[0].Char() == '&' && |tokens| >= 2 {
      Stage3Head(tokens[1..]);
      if PlainChar(tokens[1], '#') {
        var rest := tokens[2..];
        assert tokens[1..][1..] == rest;
        assert s == "&#" + Stage3(rest);
        assert s[2..] == Stage3(rest);
        SpelledRunText(rest);
        var n := |SpelledRun(rest)|;
        AfterRun(tokens, n);
        assert n > 0 ==> s[2 + n..] == Stage3(rest[n..]);
      } else {
        assert s[1] != '#';
      }
    } else if tokens[0].Char() == '&' {
      EmptyStage(tokens[1..]);
      assert |s| == 1;
    } else {
      NoOpening(s, false);
    }
  }

  /** What follows the run is a semicolon in the text exactly when it is one among the tokens. */
  lemma AfterRun(tokens: seq<Token>, n: nat)
    requires Legal(tokens) && |tokens| >= 2 && n + 2 <= |tokens|
    ensures var after := Stage3(tokens[2..][n..]);
            (n + 2 < |tokens| && PlainChar(tokens[n + 2], ';')) <==> (after != "" && after[0] == ';')
  {
    hide Stage3, Plain;
    var after := tokens[2..][n..];
    if after == [] {
      EmptyStage(after);
    } else {
      assert after[0] == tokens[n + 2];
      Stage3Head(after);
    }
  }

  /** The tokens after the decimal pass: an ampersand entity stays, all else is one character. */
  function Settled(t: Token): Token
    requires t.Legal()
  {
    if t == Entity('&') then t else Raw(t.Char())
  }

  function SettledAll(tokens: seq<Token>): (r: seq<Token>)
    requires Legal(tokens)
    ensures |r| == |tokens|
    ensures forall i :: 0 <= i < |r| ==> r[i] == Settled(tokens[i])
  {
    if tokens == [] then [] else [Settled(tokens[0])] + SettledAll(tokens[1..])
  }

  function PutToken(t: Token, rest: Option<seq<Token>>): Option<seq<Token>> {
    if rest.Some? then Some([t] + rest.value) else None
  }

  /** The decimal pass on tokens: spelled references are swallowed too. */
  function DecimalPass(tokens: seq<Token>): Option<seq<Token>>
    requires Legal(tokens)
    decreases |tokens|
  {
    if tokens == [] then Some([])
    else
      var spelled := SpelledRef(tokens);
      if spelled != "" then
        match RefChar(spelled, false)
        case None => None
        case Some(c) => PutToken(Raw(c), DecimalPass(tokens[|spelled| + 3..]))
      else PutToken(Settled(tokens[0]), DecimalPass(tokens[1..]))
  }

  /** Text of settled tokens, where a raw ampersand may stand. */
  function SettledText(tokens: seq<Token>): string {
    if tokens == [] then ""
    else (if tokens[0].Raw? then [tokens[0].c] else "&amp;") + SettledText(tokens[1..])
  }

  function SettledResult(tokens: Option<seq<Token>>): Option<string> {
    if tokens.Some? then Some(SettledText(tokens.value)) else None
  }

  lemma PutTokenText(t: Token, rest: Option<seq<Token>>)
    ensures SettledResult(PutToken(t, rest)) == PrependAll(if t.Raw? then [t.c] else "&amp;", SettledResult(rest))
  {
    if rest.Some? {
      assert ([t] + rest.value)[1..] == rest.value;
    }
  }

  lemma RawPrepend(c: Option<char>, rest: Option<string>)
    ensures Prepend(c, rest) == if c.Some? then PrependAll([c.value], rest) else None
  {
  }

  /** A spelled reference is taken whole, and so are the tokens that spell it. */
  lemma SpelledTaken(tokens: seq<Token>)
    requires Legal(tokens) && SpelledRef(tokens) != ""
    ensures var n := |SpelledRef(tokens)|;
            (|Stage3(tokens)| >= n + 3 && Stage3(tokens)[n + 3..] == Stage3(tokens[n + 3..]))
  {
    hide Stage3, Plain;
    var n := |SpelledRef(tokens)|;
    var rest := tokens[2..];
    Stage3Head(tokens);
    Stage3Head(tokens[1..]);
    assert tokens[1..][1..] == rest;
    assert Stage3(tokens) == "&#" + Stage3(rest);
    SpelledRunText(rest);
    assert rest[n..] == tokens[n + 2..] && tokens[n + 2..][1..] == tokens[n + 3..];
    Stage3Head(tokens[n + 2..]);
    assert Stage3(tokens) == ("&#" + SpelledRun(rest) + ";") + Stage3(tokens[n + 3..]);
  }

  lemma DecimalToken(tokens: seq<Token>)
    requires Legal(tokens) && tokens != [] && SpelledRef(tokens) == ""
    ensures ReplaceRefs(Stage3(tokens), false)
         == PrependAll(if Settled(tokens[0]).Raw? then [Settled(tokens[0]).c] else "&amp;", ReplaceRefs(Stage3(tokens[1..]), false))
  {
    hide ReplaceRefs, RefAt, RefChar;
    var t, rest := tokens[0], Stage3(tokens[1..]);
    assert Stage3(tokens) == t.Text(Named, true) + rest;
    if Plain(t) {
      PlainText(t);
      SpelledRefText(tokens);
      PassOverRef([t.Char()], rest, false);
    } else if t.Decimal? {
      RefReplaced(t.digits, rest, false);
      RawPrepend(RefChar(t.digits, false), ReplaceRefs(rest, false));
    } else {
      NotRef("&amp;" + rest, false);
      PassOverRef("&amp;", rest, false);
    }
  }

  lemma DecimalSpelled(tokens: seq<Token>)
    requires Legal(tokens) && SpelledRef(tokens) != ""
    ensures ReplaceRefs(Stage3(tokens), false)
         == Prepend(RefChar(SpelledRef(tokens), false), ReplaceRefs(Stage3(tokens[|SpelledRef(tokens)| + 3..]), false))
  {
    hide RefAt, RefChar, Stage3, SpelledRef;
    assert Plain(tokens[0]) && |tokens| >= 2 by { SpelledShape(tokens); }
    Stage3Head(tokens);
    SpelledRefText(tokens);
    SpelledTaken(tokens);
  }

  lemma SpelledShape(tokens: seq<Token>)
    requires Legal(tokens) && SpelledRef(tokens) != ""
    ensures |tokens| >= 4 && Plain(tokens[0])
  {
  }

  lemma {:induction false} DecimalPassText(tokens: seq<Token>)
    requires Legal(tokens)
    ensures ReplaceRefs(Stage3(tokens), false) == SettledResult(DecimalPass(tokens))
    decreases |tokens|
  {
    if tokens == [] {
      EmptyStage(tokens);
    } else {
      hide ReplaceRefs, Stage3, SpelledRef, RefChar, SettledText, Settled, SettledResult;
      var spelled := SpelledRef(tokens);
      if spelled != "" {
        DecimalSpelled(tokens);
        var rest := tokens[|spelled| + 3..];
        DecimalPassText(rest);
        RawPrepend(RefChar(spelled, false), ReplaceRefs(Stage3(rest), false));
        if RefChar(spelled, false).Some? {
          PutTokenText(Raw(RefChar(spelled, false).value), DecimalPass(rest));
        } else {
          NoneResult();
        }
      } else {
        DecimalToken(tokens);
        DecimalPassText(tokens[1..]);
        PutTokenText(Settled(tokens[0]), DecimalPass(tokens[1..]));
      }
    }
  }

  lemma NoneResult()
    ensures SettledResult(None) == None
  {
  }

  /** No plain characters spell a decimal reference after an ampersand. */
  predicate NoSpelledRef(tokens: seq<Token>)
    requires Legal(tokens)
  {
    tokens == [] || (SpelledRef(tokens) == "" && NoSpelledRef(tokens[1..]))
  }

  /** The decimal pass settles every token, and loses some exactly when a reference was spelled. */
  lemma {:induction false} DecimalPassLength(tokens: seq<Token>)
    requires Legal(tokens)
    ensures NoSpelledRef(tokens) ==> DecimalPass(tokens) == Some(SettledAll(tokens))
    ensures DecimalPass(tokens).Some? ==> |DecimalPass(tokens).value| <= |tokens|
    ensures !NoSpelledRef(tokens) && DecimalPass(tokens).Some? ==> |DecimalPass(tokens).value| < |tokens|
    decreases |tokens|
  {
    hide SpelledRef, Settled, RefChar;
    if tokens != [] {
      var spelled := SpelledRef(tokens);
      if spelled != "" {
        DecimalPassLength(tokens[|spelled| + 3..]);
      } else {
        DecimalPassLength(tokens[1..]);
      }
    }
  }

  // ------------------------------------------------------- the ampersand entity

  /** The tokens start with the characters of `word`, raw. */
  predicate Starts(tokens: seq<Token>, word: string) {
    |word| <= |tokens| && forall i :: 0 <= i < |word| ==> tokens[i] == Raw(word[i])
  }

  /** Settled tokens that spell `&amp;` with a raw ampersand. */
  predicate SpellsAmp(tokens: seq<Token>) {
    tokens != [] && tokens[0] == Raw('&') && Starts(tokens[1..], "amp;")
  }

  predicate SettledTokens(tokens: seq<Token>) {
    forall t | t in tokens :: t.Raw? || t == Entity('&')
  }

  function AmpPass(tokens: seq<Token>): string
    decreases |tokens|
  {
    if tokens == [] then ""
    else if SpellsAmp(tokens) then "&" + AmpPass(tokens[5..])
    else [if tokens[0].Raw? then tokens[0].c else '&'] + AmpPass(tokens[1..])
  }

  lemma SettledTextHead(tokens: seq<Token>)
    requires tokens != [] && tokens[0].Raw?
    ensures SettledText(tokens) == [tokens[0].c] + SettledText(tokens[1..])
  {
  }

  lemma PrefixStep(s: string, word: string)
    requires s != "" && word != ""
    ensures word <= s <==> s[0] == word[0] && word[1..] <= s[1..]
  {
    if s[0] == word[0] && word[1..] <= s[1..] {
      assert forall i :: 0 < i < |word| ==> word[i] == word[1..][i - 1] && s[i] == s[1..][i - 1];
    }
  }

  lemma StartsStep(tokens: seq<Token>, word: string)
    requires tokens != [] && word != ""
    ensures Starts(tokens, word) <==> tokens[0] == Raw(word[0]) && Starts(tokens[1..], word[1..])
  {
    if tokens[0] == Raw(word[0]) && Starts(tokens[1..], word[1..]) {
      assert forall i :: 0 < i < |word| ==> word[i] == word[1..][i - 1] && tokens[i] == tokens[1..][i - 1];
    }
  }

  lemma {:induction false} StartsText(tokens: seq<Token>, word: string)
    requires SettledTokens(tokens) && '&' !in word
    ensures word <= SettledText(tokens) <==> Starts(tokens, word)
    ensures Starts(tokens, word) ==> SettledText(tokens) == word + SettledText(tokens[|word|..])
    decreases |word|, 1
  {
    if word == "" {
      assert tokens[0..] == tokens;
    } else if tokens == [] {
    } else {
      assert word[0] in word;
      assert SettledText(tokens) != "" by { SettledNonEmpty(tokens); }
      PrefixStep(SettledText(tokens), word);
      StartsStep(tokens, word);
      if tokens[0] == Raw(word[0]) {
        StartsTail(tokens, word);
      }
    }
  }

  lemma SettledNonEmpty(tokens: seq<Token>)
    requires tokens != []
    ensures SettledText(tokens) != ""
  {
  }

  lemma {:induction false} StartsTail(tokens: seq<Token>, word: string)
    requires SettledTokens(tokens) && '&' !in word && word != ""
    requires tokens != [] && tokens[0] == Raw(word[0])
    ensures word[1..] <= SettledText(tokens)[1..] <==> Starts(tokens[1..], word[1..])
    ensures Starts(tokens[1..], word[1..]) ==>
              |word| <= |tokens| && SettledText(tokens) == word + SettledText(tokens[|word|..])
    decreases |word|, 0
  {
    hide SettledText;
    SettledTextHead(tokens);
    assert SettledText(tokens)[1..] == SettledText(tokens[1..]);
    StartsText(tokens[1..], word[1..]);
    if Starts(tokens[1..], word[1..]) {
      assert tokens[1..][|word| - 1..] == tokens[|word|..];
      assert [word[0]] + word[1..] == word;
    }
  }

  lemma AmpersandFirst(s: string)
    requires s != "" && s[0] == '&'
    ensures EntityText('&') <= s <==> "amp;" <= s[1..]
  {
    PrefixStep(s, "&amp;");
    assert "&amp;"[1..] == "amp;";
  }

  /** After a raw ampersand, the text goes on with `amp;` exactly when the tokens do. */
  lemma SpellsAmpText(tokens: seq<Token>)
    requires SettledTokens(tokens) && tokens != [] && tokens[0] == Raw('&')
    ensures EntityText('&') <= SettledText(tokens) <==> SpellsAmp(tokens)
    ensures SpellsAmp(tokens) ==>
              |tokens| >= 5 && SettledText(tokens) == EntityText('&') + SettledText(tokens[5..])
  {
    hide SettledText, EntityText, Starts;
    SettledTextHead(tokens);
    var amp := "amp;";
    StartsText(tokens[1..], amp);
    var s := SettledText(tokens);
    assert s[1..] == SettledText(tokens[1..]);
    AmpersandFirst(s);
    if SpellsAmp(tokens) {
      StartsLength(tokens[1..], amp);
      assert tokens[1..][4..] == tokens[5..];
      AmpersandText(SettledText(tokens[5..]));
    }
  }

  lemma StartsLength(tokens: seq<Token>, word: string)
    requires Starts(tokens, word)
    ensures |word| <= |tokens|
  {
  }

  lemma AmpersandText(rest: string)
    ensures EntityText('&') + rest == ['&'] + ("amp;" + rest)
  {
  }

  lemma RawStep(tokens: seq<Token>)
    requires SettledTokens(tokens) && tokens != [] && tokens[0].Raw? && !SpellsAmp(tokens)
    ensures ReplaceEntity(SettledText(tokens), '&') == [tokens[0].c] + ReplaceEntity(SettledText(tokens[1..]), '&')
  {
    hide ReplaceEntity, SettledText, SpellsAmp, EntityText;
    SettledTextHead(tokens);
    var s := SettledText(tokens);
    assert s[1..] == SettledText(tokens[1..]);
    if tokens[0].c == '&' {
      SpellsAmpText(tokens);
      StepEntity(s, '&');
    } else {
      SkipEntity([tokens[0].c], SettledText(tokens[1..]), '&');
    }
  }

  lemma {:induction false} AmpPassText(tokens: seq<Token>)
    requires SettledTokens(tokens)
    ensures ReplaceEntity(SettledText(tokens), '&') == AmpPass(tokens)
    decreases |tokens|
  {
    if tokens == [] {
      assert SettledText(tokens) == "";
    } else {
      hide ReplaceEntity, SettledText, SpellsAmp, EntityText;
      SpellsLength(tokens);
      if SpellsAmp(tokens) {
        SpellsAmpText(tokens);
        AmpPassText(tokens[5..]);
        Matched(SettledText(tokens[5..]), '&');
      } else {
        AmpPassText(tokens[1..]);
        if tokens[0].Raw? {
          RawStep(tokens);
        } else {
          EntityHead(tokens);
          Matched(SettledText(tokens[1..]), '&');
        }
      }
    }
  }

  lemma SpellsLength(tokens: seq<Token>)
    ensures SpellsAmp(tokens) ==> |tokens| >= 5 && tokens[0] == Raw('&')
  {
  }

  lemma EntityHead(tokens: seq<Token>)
    requires tokens != [] && tokens[0] == Entity('&')
    ensures SettledText(tokens) == EntityText('&') + SettledText(tokens[1..])
  {
  }

  predicate NoSpelledAmp(tokens: seq<Token>) {
    tokens == [] || (!SpellsAmp(tokens) && NoSpelledAmp(tokens[1..]))
  }

  function SettledChars(tokens: seq<Token>): string {
    if tokens == [] then "" else [if tokens[0].Raw? then tokens[0].c else '&'] + SettledChars(tokens[1..])
  }

  lemma {:induction false} AmpPassLength(tokens: seq<Token>)
    ensures |AmpPass(tokens)| <= |tokens|
    ensures if NoSpelledAmp(tokens) then AmpPass(tokens) == SettledChars(tokens) else |AmpPass(tokens)| < |tokens|
    decreases |tokens|
  {
    hide SpellsAmp;
    if tokens != [] {
      SpellsLength(tokens);
      AmpPassLength(tokens[1..]);
      if SpellsAmp(tokens) {
        AmpPassLength(tokens[5..]);
      }
    }
  }

  // -------------------------------------------------------------- the round trip

  lemma FourPasses(tokens: seq<Token>)
    requires Legal(tokens)
    ensures ReplaceEntity(ReplaceEntity(ReplaceEntity(ReplaceEntity(Written(tokens), '<'), '>'), '"'), '\'')
         == Staged(tokens, Named, false)
  {
    hide ReplaceEntity, Staged;
    NamedPass(tokens, {}, '<');
    NamedPass(tokens, {} + {'<'}, '>');
    NamedPass(tokens, {} + {'<'} + {'>'}, '"');
    NamedPass(tokens, {} + {'<'} + {'>'} + {'"'}, '\'');
    assert {} + {'<'} + {'>'} + {'"'} + {'\''} == Named;
  }

  /** The replacements, token by token. */
  lemma UnescapeOfWritten(tokens: seq<Token>)
    requires Legal(tokens)
    ensures UnescapeXml(Written(tokens))
         == match DecimalPass(tokens)
            case None => None
            case Some(settled) => Some(AmpPass(settled))
  {
    hide ReplaceEntity, ReplaceRefs, Staged, Written, DecimalPass, AmpPass, SettledText;
    FourPasses(tokens);
    HexPass(tokens);
    DecimalPassText(tokens);
    if DecimalPass(tokens).Some? {
      DecimalPassSettles(tokens);
      AmpPassText(DecimalPass(tokens).value);
    }
  }

  lemma {:induction false} DecimalPassSettles(tokens: seq<Token>)
    requires Legal(tokens) && DecimalPass(tokens).Some?
    ensures SettledTokens(DecimalPass(tokens).value)
    decreases |tokens|
  {
    hide SpelledRef, RefChar;
    if tokens != [] {
      var spelled := SpelledRef(tokens);
      if spelled != "" {
        DecimalPassSettles(tokens[|spelled| + 3..]);
      } else {
        DecimalPassSettles(tokens[1..]);
      }
    }
  }

  /**
   An ampersand written as a character reference that the later replacements read
   again: the characters after it spell the rest of `&amp;`, or, when it was
   written in hexadecimal, the rest of a decimal reference.
   */
  predicate ReadTwice(tokens: seq<Token>)
    requires Legal(tokens)
  {
    SpelledRef(tokens) != "" || SpellsAmp(SettledAll(tokens))
  }

  predicate NeverReadTwice(tokens: seq<Token>)
    requires Legal(tokens)
  {
    tokens == [] || (!ReadTwice(tokens) && NeverReadTwice(tokens[1..]))
  }

  lemma {:induction false} NeverReadTwiceSplits(tokens: seq<Token>)
    requires Legal(tokens)
    ensures NeverReadTwice(tokens) <==> NoSpelledRef(tokens) && NoSpelledAmp(SettledAll(tokens))
  {
    hide SpelledRef, SpellsAmp, Settled;
    if tokens != [] {
      NeverReadTwiceSplits(tokens[1..]);
      assert SettledAll(tokens)[1..] == SettledAll(tokens[1..]);
    }
  }

  lemma {:induction false} SettledCharsAreChars(tokens: seq<Token>)
    requires Legal(tokens)
    ensures SettledChars(SettledAll(tokens)) == Chars(tokens) && |Chars(tokens)| == |tokens|
  {
    if tokens != [] {
      SettledCharsAreChars(tokens[1..]);
      assert SettledAll(tokens)[1..] == SettledAll(tokens[1..]);
    }
  }

  /**
   However a text is written, unescaping gives its characters back exactly when no
   ampersand written as a character reference is read twice.
   */
  lemma UnescapeRoundTrip(tokens: seq<Token>)
    requires Legal(tokens)
    ensures UnescapeXml(Written(tokens)) == Some(Chars(tokens)) <==> NeverReadTwice(tokens)
  {
    hide UnescapeXml, Written, DecimalPass, AmpPass, NoSpelledRef, NoSpelledAmp, SettledChars, Chars, NeverReadTwice;
    UnescapeOfWritten(tokens);
    DecimalPassLength(tokens);
    NeverReadTwiceSplits(tokens);
    SettledCharsAreChars(tokens);
    if DecimalPass(tokens).Some? {
      AmpPassLength(DecimalPass(tokens).value);
    }
  }

  /** The standard escaping: the five predefined entities, everything else literal. */
  function EscapeXml(text: string): (tokens: seq<Token>)
    ensures Legal(tokens) && Chars(tokens) == text
    ensures forall t | t in tokens :: !t.Numeric()
  {
    if text == "" then []
    else
      var c := text[0];
      [if Entity(c).Legal() then Entity(c) else Raw(c)] + EscapeXml(text[1..])
  }

  lemma {:induction false} NoNumericNoReread(tokens: seq<Token>)
    requires Legal(tokens) && forall t | t in tokens :: t.Numeric() ==> t.Char() != '&'
    ensures NeverReadTwice(tokens)
  {
    if tokens != [] {
      var t := tokens[0];
      assert t in tokens;
      assert !PlainChar(t, '&');
      assert SettledAll(tokens)[0] != Raw('&');
      NoNumericNoReread(tokens[1..]);
    }
  }

  /** Standard escaping always comes back, even when the text itself looks like an entity or a reference. */
  lemma StandardRoundTrip(text: string)
    ensures UnescapeXml(Written(EscapeXml(text))) == Some(text)
  {
    hide UnescapeXml, Written;
    NoNumericNoReread(EscapeXml(text));
    UnescapeRoundTrip(EscapeXml(text));
  }

  /** `&#38;amp;` means the five characters `&amp;`, and is read as one ampersand. */
  lemma NumericAmpersandReadTwice()
    ensures var tokens := [Decimal("38"), Raw('a'), Raw('m'), Raw('p'), Raw(';')];
            Legal(tokens) && UnescapeXml(Written(tokens)) != Some(Chars(tokens))
  {
    hide UnescapeXml, Written, Chars, SpelledRef;
    var tokens := [Decimal("38"), Raw('a'), Raw('m'), Raw('p'), Raw(';')];
    assert "38"[..1] == "3" && "3"[..0] == "";
    assert Value("3") == 3 && Value("38") == 38;
    assert Decimal("38").Legal() && Decimal("38").Char() == '&';
    UnescapeRoundTrip(tokens);
  }

  // ------------------------------------------------- what a reference stands for

  const LowerHexDigits := "0123456789abcdef"
  const UpperHexDigits := "0123456789ABCDEF"

  /** A number in hexadecimal, as a reference may spell it. */
  function HexText(n: nat, digits: string): string
    requires digits == LowerHexDigits || digits == UpperHexDigits
  {
    if n < 16 then [digits[n]] else HexText(n / 16, digits) + [digits[n % 16]]
  }

  lemma {:induction false} HexReads(n: nat, digits: string)
    requires digits == LowerHexDigits || digits == UpperHexDigits
    ensures RefDigits(HexText(n, digits), true) && HexValue(HexText(n, digits)) == n
  {
    var d := digits[n % 16];
    HexDigitIs(n % 16, digits);
    if n >= 16 {
      HexReads(n / 16, digits);
      var head := HexText(n / 16, digits);
      assert (head + [d])[..|head|] == head;
    } else {
      assert [d][..0] == "";
    }
  }

  lemma HexDigitIs(k: nat, digits: string)
    requires k < 16 && (digits == LowerHexDigits || digits == UpperHexDigits)
    ensures IsHex(digits[k]) && HexDigit(digits[k]) == k
  {
  }

  /** However a character's number is written, in decimal or in hexadecimal of either case, the reference means that character. */
  lemma ReferenceMeans(c: char)
    ensures var decimal := Decimal(Dec(c as int)); decimal.Legal() && decimal.Char() == c
    ensures var lower := Hexadecimal(HexText(c as int, LowerHexDigits)); lower.Legal() && lower.Char() == c
    ensures var upper := Hexadecimal(HexText(c as int, UpperHexDigits)); upper.Legal() && upper.Char() == c
  {
    hide HexText, HexValue, Dec, Value;
    ValueDec(c as int);
    assert AllDigits(Dec(c as int));
    HexReads(c as int, LowerHexDigits);
    HexReads(c as int, UpperHexDigits);
  }

  /** A reference past the last character, or to half of one, has no meaning. */
  lemma NoSuchCharacter(n: nat)
    ensures CodePoint(n).None? <==> 0xD800 <= n < 0xE000 || n > 0x10_FFFF
    ensures CodePoint(n).Some? ==> CodePoint(n).value as int == n
  {
  }

  /** The five predefined entities, each by its own name. */
  lemma FiveEntities()
    ensures UnescapeXml("&lt;") == Some("<") && UnescapeXml("&gt;") == Some(">") && UnescapeXml("&quot;") == Some("\"")
    ensures UnescapeXml("&apos;") == Some("'") && UnescapeXml("&amp;") == Some("&")
  {
    hide UnescapeXml;
    OneEntity('<');
    OneEntity('>');
    OneEntity('"');
    OneEntity('\'');
    OneEntity('&');
  }

  lemma OneEntity(c: char)
    requires Entity(c).Legal()
    ensures UnescapeXml(EntityText(c)) == Some([c])
  {
    hide UnescapeXml, EntityText;
    StandardRoundTrip([c]);
    assert [c][1..] == "";
    var tokens := [Entity(c)];
    assert EscapeXml([c]) == tokens;
    OneWritten(tokens, c);
  }

  lemma OneWritten(tokens: seq<Token>, c: char)
    requires Entity(c).Legal() && tokens == [Entity(c)]
    ensures Legal(tokens) && Written(tokens) == EntityText(c)
  {
    hide EntityText;
    assert tokens[1..] == [];
    assert Staged(tokens[1..], {}, false) == "";
    assert tokens[0].Text({}, false) == EntityText(c);
    assert EntityText(c) + "" == EntityText(c);
  }
}

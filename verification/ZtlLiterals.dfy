/** String literals: every way to write a text is read as that text, and nothing else is read. */
module ZtlLiterals {
  import opened Sequences
  import opened ZtlReading
  import opened ZtlSyntax
  import opened ZtlFrontEnd
  import Lexer = ZtlLexer

  /** A character as it is, behind a backslash, by its letter, or by its code with digits of either case. */
  datatype Style = AsIs | Escaped | ByLetter | Code(upper1: bool, upper2: bool)

  /** The letters of line feed, tab, carriage return and NUL. */
  function Letter(c: char): char {
    match c
    case '\n' => 'n'
    case '\t' => 't'
    case '\r' => 'r'
    case _ => '0'
  }

  function Digit(d: nat, upper: bool): char
    requires d < 16
  {
    if upper then "0123456789ABCDEF"[d] else "0123456789abcdef"[d]
  }

  /** Behind a backslash a character stands for itself, except the five that stand for something else. */
  predicate Can(c: char, style: Style) {
    match style
    case AsIs => c != '"' && c != '\\'
    case Escaped => c != 'n' && c != 't' && c != 'r' && c != '0' && c != 'x'
    case ByLetter => c == '\n' || c == '\t' || c == '\r' || c == '\0'
    case Code(_, _) => c as int < 256
  }

  function Spell(c: char, style: Style): string
    requires Can(c, style)
  {
    match style
    case AsIs => [c]
    case Escaped => ['\\', c]
    case ByLetter => ['\\', Letter(c)]
    case Code(upper1, upper2) => ['\\', 'x', Digit(c as int / 16, upper1), Digit(c as int % 16, upper2)]
  }

  predicate CanAll(s: string, styles: seq<Style>) {
    |styles| == |s| && forall k | 0 <= k < |s| :: Can(s[k], styles[k])
  }

  function SpellAll(s: string, styles: seq<Style>): string
    requires CanAll(s, styles)
  {
    if s == "" then "" else Spell(s[0], styles[0]) + SpellAll(s[1..], styles[1..])
  }

  lemma DigitIsHex(d: nat, upper: bool)
    requires d < 16
    ensures Lexer.Hex(Digit(d, upper)) == d
  {
    var lower, capital := "0123456789abcdef", "0123456789ABCDEF";
    assert lower[10] == 'a' && lower[11] == 'b' && lower[12] == 'c' && lower[13] == 'd' && lower[14] == 'e';
    assert capital[10] == 'A' && capital[11] == 'B' && capital[12] == 'C' && capital[13] == 'D' && capital[14] == 'E';
  }

  lemma EscapesStandFor(c: char)
    ensures Can(c, Escaped) ==> c != 'x' && Lexer.Unescape(c) == c
    ensures Can(c, ByLetter) ==> Letter(c) != 'x' && Lexer.Unescape(Letter(c)) == c
  {
  }

  lemma SpellAllUnfolds(s: string, styles: seq<Style>)
    requires CanAll(s, styles) && s != ""
    ensures |styles| == |s| && Can(s[0], styles[0]) && CanAll(s[1..], styles[1..])
    ensures SpellAll(s, styles) + ['"'] == Spell(s[0], styles[0]) + (SpellAll(s[1..], styles[1..]) + ['"'])
  {
    hide Spell, Can;
  }

  lemma Spelled(c: char, style: Style, s: string, styles: seq<Style>)
    requires Can(c, style) && CanAll(s, styles)
    ensures CanAll([c] + s, [style] + styles)
    ensures SpellAll([c] + s, [style] + styles) + ['"'] == Spell(c, style) + (SpellAll(s, styles) + ['"'])
    ensures |SpellAll([c] + s, [style] + styles)| == |Spell(c, style)| + |SpellAll(s, styles)|
  {
    hide Spell, Can;
    assert ([c] + s)[1..] == s && ([style] + styles)[1..] == styles;
  }

  lemma Joined(src: string, i: nat, a: string, b: string)
    requires At(src, i, a) && At(src, i + |a|, b)
    ensures At(src, i, a + b)
  {
    assert src[i..i + |a + b|] == src[i..i + |a|] + src[i + |a|..i + |a| + |b|];
  }

  /** One character, however it is written. */
  lemma ReadOne(src: string, start: nat, i: nat, out: string, c: char, style: Style)
    requires Can(c, style) && At(src, i, Spell(c, style)) && i + |Spell(c, style)| < |src|
    ensures Lexer.StringRest(src, start, i, out)
         == Lexer.StringRest(src, start, i + |Spell(c, style)|, out + [c])
  {
    var text := Spell(c, style);
    ItemAt(src, i, text, 0);
    match style
    case AsIs => hide Lexer.Unescape, Lexer.Hex;
    case Escaped =>
      EscapesStandFor(c);
      hide Lexer.Unescape, Lexer.Hex, Letter;
      ItemAt(src, i, text, 1);
    case ByLetter =>
      EscapesStandFor(c);
      hide Lexer.Unescape, Lexer.Hex, Letter;
      ItemAt(src, i, text, 1);
    case Code(upper1, upper2) =>
      hide Lexer.Unescape, Lexer.Hex, Digit;
      ItemAt(src, i, text, 1);
      ItemAt(src, i, text, 2);
      ItemAt(src, i, text, 3);
      DigitIsHex(c as int / 16, upper1);
      DigitIsHex(c as int % 16, upper2);
  }

  lemma NoText(s: string, styles: seq<Style>)
    requires s == "" && CanAll(s, styles)
    ensures styles == [] && SpellAll(s, styles) == ""
  {
  }

  lemma ReadClosing(src: string, start: nat, i: nat, out: string, styles: seq<Style>)
    requires i < |src| && src[i] == '"' && styles == []
    ensures CanAll("", styles) && SpellAll("", styles) == "" && At(src, i, SpellAll("", styles) + ['"'])
    ensures Lexer.StringRest(src, start, i, out) == Ok(out + "", i + 1)
  {
    assert out + "" == out;
    assert src[i..i + 1] == ['"'];
  }

  lemma FirstAt(src: string, i: nat, text: string)
    requires At(src, i, text) && text != ""
    ensures i < |src| && src[i] == text[0]
  {
    ItemAt(src, i, text, 0);
  }

  /** Whatever style is chosen for each character, the literal is read as the text. */
  lemma {:induction false} ReadSpelled(src: string, start: nat, i: nat, out: string, s: string, styles: seq<Style>)
    requires CanAll(s, styles) && At(src, i, SpellAll(s, styles) + ['"'])
    ensures Lexer.StringRest(src, start, i, out) == Ok(out + s, i + |SpellAll(s, styles)| + 1)
    decreases |s|
  {
    hide *;
    if s == "" {
      NoText(s, styles);
      FirstAt(src, i, SpellAll(s, styles) + ['"']);
      ReadClosing(src, start, i, out, styles);
    } else {
      SpellAllUnfolds(s, styles);
      var first, rest := Spell(s[0], styles[0]), SpellAll(s[1..], styles[1..]);
      assert |SpellAll(s, styles) + ['"']| == |first + (rest + ['"'])|;
      Halves(src, i, first, rest + ['"']);
      FirstAt(src, i + |first|, rest + ['"']);
      ReadOne(src, start, i, out, s[0], styles[0]);
      ReadSpelled(src, start, i + |first|, out + [s[0]], s[1..], styles[1..]);
      assert out + [s[0]] + s[1..] == out + s;
    }
  }

  /** So it is as a token, wherever the literal stands. */
  lemma LiteralIsText(src: string, i: nat, s: string, styles: seq<Style>)
    requires CanAll(s, styles) && At(src, i, ['"'] + (SpellAll(s, styles) + ['"']))
    ensures i < |src| && Lexer.NextToken(src, i) == Ok(Token(STRING, s), i + |SpellAll(s, styles)| + 2)
  {
    hide SpellAll, At;
    Next(src, i, '"', SpellAll(s, styles) + ['"']);
    ReadSpelled(src, i, i + 1, "", s, styles);
    assert "" + s == s;
  }

  // ---- and nothing else ----

  lemma HexIsDigit(c: char) returns (upper: bool)
    requires Lexer.Hex(c) >= 0
    ensures Lexer.Hex(c) < 16 && Digit(Lexer.Hex(c), upper) == c
  {
    upper := 'A' <= c <= 'F';
  }

  lemma HexPair(a: char, b: char) returns (c: char, style: Style)
    requires Lexer.Hex(a) >= 0 && Lexer.Hex(b) >= 0
    ensures Lexer.Hex(a) < 16 && Lexer.Hex(b) < 16 && c == (Lexer.Hex(a) * 16 + Lexer.Hex(b)) as char
    ensures Can(c, style) && Spell(c, style) == ['\\', 'x', a, b]
  {
    var u := HexIsDigit(a);
    var v := HexIsDigit(b);
    c, style := (Lexer.Hex(a) * 16 + Lexer.Hex(b)) as char, Code(u, v);
  }

  /** The character a literal goes on with and the style it is written in. */
  lemma OneIsSpelled(src: string, start: nat, i: nat, out: string) returns (c: char, style: Style)
    requires i < |src| && src[i] != '"' && Lexer.StringRest(src, start, i, out).Ok?
    ensures Can(c, style) && At(src, i, Spell(c, style)) && i + |Spell(c, style)| < |src|
  {
    if src[i] != '\\' {
      c, style := src[i], AsIs;
      assert src[i..i + 1] == [c];
    } else if src[i + 1] != 'x' {
      c := Lexer.Unescape(src[i + 1]);
      style := if c == src[i + 1] then Escaped else ByLetter;
      assert src[i..i + 2] == ['\\', src[i + 1]];
    } else {
      c, style := HexPair(src[i + 2], src[i + 3]);
      assert src[i..i + 4] == ['\\', 'x', src[i + 2], src[i + 3]];
    }
  }

  lemma NotAtEnd(src: string, start: nat, i: nat, out: string)
    requires i <= |src| && Lexer.StringRest(src, start, i, out).Ok?
    ensures i < |src|
  {
  }

  lemma SpellHasLength(c: char, style: Style)
    requires Can(c, style)
    ensures |Spell(c, style)| > 0
  {
  }

  /** A literal the lexer accepts is its text, spelled in some style for each character. */
  lemma {:induction false} AcceptedIsSpelled(src: string, start: nat, i: nat, out: string)
    returns (s: string, styles: seq<Style>)
    requires i <= |src| && Lexer.StringRest(src, start, i, out).Ok?
    ensures CanAll(s, styles) && At(src, i, SpellAll(s, styles) + ['"'])
    ensures Lexer.StringRest(src, start, i, out) == Ok(out + s, i + |SpellAll(s, styles)| + 1)
    decreases |src| - i
  {
    NotAtEnd(src, start, i, out);
    hide *;
    if src[i] == '"' {
      s, styles := "", [];
      ReadClosing(src, start, i, out, styles);
    } else {
      var c, style := OneIsSpelled(src, start, i, out);
      ReadOne(src, start, i, out, c, style);
      SpellHasLength(c, style);
      var e := i + |Spell(c, style)|;
      var s', styles' := AcceptedIsSpelled(src, start, e, out + [c]);
      s, styles := [c] + s', [style] + styles';
      Spelled(c, style, s', styles');
      Joined(src, i, Spell(c, style), SpellAll(s', styles') + ['"']);
      assert out + [c] + s' == out + s;
    }
  }
}

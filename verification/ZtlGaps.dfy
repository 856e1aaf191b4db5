/** White space and comments between tokens are skipped, whatever they contain. */
module ZtlGaps {
  import opened Sequences
  import opened ZtlReading
  import opened ZtlSyntax
  import opened ZtlFrontEnd
  import Lexer = ZtlLexer

  /** A blank, two kinds of comment to the end of the line, and one that is closed. */
  datatype Gap = Blank(c: char) | Slashes(text: string) | Hash(text: string) | Block(text: string)

  predicate HasClosing(text: string) {
    exists k :: 0 <= k < |text| - 1 && text[k] == '*' && text[k + 1] == '/'
  }

  predicate IsGap(g: Gap) {
    match g
    case Blank(c) => c == ' ' || c == '\t' || c == '\r' || c == '\n'
    case Slashes(text) => '\n' !in text
    case Hash(text) => '\n' !in text
    case Block(text) => !HasClosing(text)
  }

  function ShowGap(g: Gap): string {
    match g
    case Blank(c) => [c]
    case Slashes(text) => "//" + (text + "\n")
    case Hash(text) => "#" + (text + "\n")
    case Block(text) => "/*" + (text + "*/")
  }

  predicate AreGaps(gaps: seq<Gap>) {
    forall k | 0 <= k < |gaps| :: IsGap(gaps[k])
  }

  function ShowGaps(gaps: seq<Gap>): string {
    if gaps == [] then "" else ShowGap(gaps[0]) + ShowGaps(gaps[1..])
  }

  lemma {:induction false} LineEndAt(src: string, i: nat, e: nat)
    requires i <= e < |src| && src[e] == '\n' && forall k | i <= k < e :: src[k] != '\n'
    ensures Lexer.LineEnd(src, i) == e
    decreases e - i
  {
    if i < e {
      LineEndAt(src, i + 1, e);
    }
  }

  lemma {:induction false} CommentEndAt(src: string, i: nat, e: nat)
    requires i <= e < |src| - 1 && src[e] == '*' && src[e + 1] == '/'
    requires forall k | i <= k < e :: !(src[k] == '*' && src[k + 1] == '/')
    ensures Lexer.CommentEnd(src, i) == e + 2
    decreases e - i
  {
    if i < e {
      CommentEndAt(src, i + 1, e);
    }
  }

  lemma SkipUnfolds(src: string, i: nat)
    requires i < |src|
    ensures src[i] == ' ' || src[i] == '\t' || src[i] == '\r' || src[i] == '\n' ==>
              Lexer.Skip(src, i) == Lexer.Skip(src, i + 1)
    ensures src[i] == '#' || (i + 1 < |src| && src[i] == src[i + 1] == '/') ==>
              Lexer.Skip(src, i) == Lexer.Skip(src, Lexer.LineEnd(src, i))
    ensures i + 1 < |src| && src[i] == '/' && src[i + 1] == '*' ==>
              Lexer.Skip(src, i) == Lexer.Skip(src, Lexer.CommentEnd(src, i + 2))
  {
    hide Lexer.LineEnd, Lexer.CommentEnd;
  }

  /** One gap more or less in front makes no difference. */
  lemma SkipsGap(src: string, i: nat, g: Gap)
    requires IsGap(g) && At(src, i, ShowGap(g))
    ensures i + |ShowGap(g)| <= |src| && Lexer.Skip(src, i) == Lexer.Skip(src, i + |ShowGap(g)|)
  {
    hide At, Lexer.Skip, Lexer.LineEnd, Lexer.CommentEnd, HasClosing;
    ItemAt(src, i, ShowGap(g), 0);
    SkipUnfolds(src, i);
    match g
    case Blank(c) =>
    case Slashes(text) =>
      ItemAt(src, i, ShowGap(g), 1);
      LineOf(src, i, "//", text);
    case Hash(text) => LineOf(src, i, "#", text);
    case Block(text) =>
      ItemAt(src, i, ShowGap(g), 1);
      BlockOf(src, i, text);
  }

  lemma LineOf(src: string, i: nat, start: string, text: string)
    requires At(src, i, start + (text + "\n")) && '\n' !in start && '\n' !in text
    ensures var e := i + |start| + |text|;
            e < |src| && Lexer.LineEnd(src, i) == e && Lexer.Skip(src, e) == Lexer.Skip(src, e + 1)
  {
    var line := start + (text + "\n");
    var e := i + |start| + |text|;
    ItemAt(src, i, line, |start| + |text|);
    forall k | i <= k < e ensures src[k] != '\n' {
      ItemAt(src, i, line, k - i);
    }
    LineEndAt(src, i, e);
  }

  lemma BlockOf(src: string, i: nat, text: string)
    requires At(src, i, "/*" + (text + "*/")) && !HasClosing(text)
    ensures i + |text| + 4 <= |src| && Lexer.CommentEnd(src, i + 2) == i + |text| + 4
  {
    var comment := "/*" + (text + "*/");
    var e := i + 2 + |text|;
    ItemAt(src, i, comment, |text| + 2);
    ItemAt(src, i, comment, |text| + 3);
    forall k | i + 2 <= k < e ensures !(src[k] == '*' && src[k + 1] == '/') {
      ItemAt(src, i, comment, k - i);
      ItemAt(src, i, comment, k - i + 1);
      assert k - i - 2 + 1 < |text| ==> !(text[k - i - 2] == '*' && text[k - i - 2 + 1] == '/');
    }
    CommentEndAt(src, i + 2, e);
  }

  lemma GapsUnfold(gaps: seq<Gap>)
    requires AreGaps(gaps)
    ensures gaps == [] ==> ShowGaps(gaps) == ""
    ensures gaps != [] ==>
              IsGap(gaps[0]) && AreGaps(gaps[1..]) && ShowGaps(gaps) == ShowGap(gaps[0]) + ShowGaps(gaps[1..])
  {
    hide IsGap, ShowGap;
  }

  lemma NothingAt(src: string, i: nat)
    requires At(src, i, "")
    ensures i <= |src|
  {
  }

  lemma {:induction false} SkipsGaps(src: string, i: nat, gaps: seq<Gap>)
    requires AreGaps(gaps) && At(src, i, ShowGaps(gaps))
    ensures i + |ShowGaps(gaps)| <= |src| && Lexer.Skip(src, i) == Lexer.Skip(src, i + |ShowGaps(gaps)|)
    decreases |gaps|
  {
    hide *;
    GapsUnfold(gaps);
    if gaps == [] {
      NothingAt(src, i);
    } else {
      Halves(src, i, ShowGap(gaps[0]), ShowGaps(gaps[1..]));
      SkipsGap(src, i, gaps[0]);
      SkipsGaps(src, i + |ShowGap(gaps[0])|, gaps[1..]);
    }
  }

  /** A comment that the end of the source cuts off. */
  predicate Unfinished(tail: string) {
    || tail == ""
    || (tail[0] == '#' && '\n' !in tail)
    || (|tail| > 1 && tail[0] == '/' && tail[1] == '/' && '\n' !in tail)
    || (|tail| > 1 && tail[0] == '/' && tail[1] == '*' && !HasClosing(tail[2..]))
  }

  lemma {:induction false} LineEndsAtEnd(src: string, i: nat)
    requires i <= |src| && forall k | i <= k < |src| :: src[k] != '\n'
    ensures Lexer.LineEnd(src, i) == |src|
    decreases |src| - i
  {
    if i < |src| {
      LineEndsAtEnd(src, i + 1);
    }
  }

  lemma {:induction false} CommentEndsAtEnd(src: string, i: nat)
    requires i <= |src| && forall k | i <= k < |src| - 1 :: !(src[k] == '*' && src[k + 1] == '/')
    ensures Lexer.CommentEnd(src, i) == |src|
    decreases |src| - i
  {
    if i < |src| {
      CommentEndsAtEnd(src, i + 1);
    }
  }

  lemma SkipsUnfinished(src: string, i: nat)
    requires i <= |src| && Unfinished(src[i..])
    ensures Lexer.Skip(src, i) == |src|
  {
    var tail := src[i..];
    if tail != "" {
      assert tail[0] == src[i];
      if tail[0] == '/' && tail[1] == '*' {
        var text := tail[2..];
        forall k | i + 2 <= k < |src| - 1 ensures !(src[k] == '*' && src[k + 1] == '/') {
          assert !(text[k - i - 2] == '*' && text[k - i - 2 + 1] == '/');
        }
        CommentEndsAtEnd(src, i + 2);
      } else {
        forall k | i <= k < |src| ensures src[k] != '\n' {
          assert tail[k - i] in tail;
        }
        LineEndsAtEnd(src, i);
      }
    }
  }

  // ---- the whole text ----

  /** The tokens, each followed by a space and a gap of its own. */
  function WriteWith(ts: seq<Token>, gaps: seq<seq<Gap>>): string
    requires |gaps| == |ts|
  {
    if ts == [] then ""
    else Show(ts[0]) + ([' '] + (ShowGaps(gaps[0]) + WriteWith(ts[1..], gaps[1..])))
  }

  lemma SameLex(src: string, i: nat, e: nat, ts: seq<Token>)
    requires i <= e <= |src| && Lexer.Skip(src, i) == Lexer.Skip(src, e) && LexesTo(src, e, ts)
    ensures LexesTo(src, i, ts)
  {
    hide Lexer.NextToken, Lexer.Skip, Tokens, Spelling;
    assert Lexer.Lex(src, i) == Lexer.Lex(src, e);
  }

  lemma {:induction false} LexWithGaps(src: string, i: nat, ts: seq<Token>, gaps: seq<seq<Gap>>, tail: string)
    requires AllWritable(ts) && |gaps| == |ts| && forall k | 0 <= k < |gaps| :: AreGaps(gaps[k])
    requires At(src, i, WriteWith(ts, gaps) + tail) && i + |WriteWith(ts, gaps)| + |tail| == |src| && Unfinished(tail)
    ensures LexesTo(src, i, ts)
    decreases |ts|
  {
    hide *;
    if ts == [] {
      AtTail(src, i, WriteWith(ts, gaps), tail);
    } else {
      var t, gap, rest := ts[0], ShowGaps(gaps[0]), WriteWith(ts[1..], gaps[1..]) + tail;
      var e := i + |Show(t)|;
      WriteUnfolds(ts, gaps, tail);
      Halves(src, i, Show(t), [' '] + (gap + rest));
      Next(src, e, ' ', gap + rest);
      Halves(src, e + 1, gap, rest);
      TokenIsNotSkipped(src, i, t);
      ReadToken(src, i, t);
      ReadsAsMeans(src, i, t);
      SkipsGaps(src, e + 1, gaps[0]);
      LexWithGaps(src, e + 1 + |gap|, ts[1..], gaps[1..], tail);
      SameLex(src, e + 1, e + 1 + |gap|, ts[1..]);
      SpaceBefore(src, e);
      LexStep(src, i, t, e, ts[1..]);
      assert ts == [t] + ts[1..];
    }
  }

  lemma ReadsAsMeans(src: string, i: nat, t: Token)
    requires ReadsAs(src, i, t)
    ensures i < |src| && Lexer.NextToken(src, i) == Ok(t, i + |Show(t)|)
  {
  }

  lemma WriteUnfolds(ts: seq<Token>, gaps: seq<seq<Gap>>, tail: string)
    requires |gaps| == |ts| && ts != [] && AllWritable(ts)
    ensures Writable(ts[0]) && AllWritable(ts[1..])
    ensures var gap, rest := ShowGaps(gaps[0]), WriteWith(ts[1..], gaps[1..]);
            && |WriteWith(ts, gaps)| == |Show(ts[0])| + 1 + |gap| + |rest|
            && WriteWith(ts, gaps) + tail == Show(ts[0]) + ([' '] + (gap + (rest + tail)))
  {
    hide Writable, Show, ShowGaps;
    var gap, rest := ShowGaps(gaps[0]), WriteWith(ts[1..], gaps[1..]);
    assert WriteWith(ts, gaps) == Show(ts[0]) + ([' '] + (gap + rest));
    hide *;
    Regroup(Show(ts[0]), [' '] + (gap + rest), tail);
    Regroup([' '], gap + rest, tail);
    Regroup(gap, rest, tail);
  }

  lemma AtTail(src: string, i: nat, written: string, tail: string)
    requires written == WriteWith([], []) && At(src, i, written + tail) && i + |written| + |tail| == |src|
    requires Unfinished(tail)
    ensures LexesTo(src, i, [])
  {
    assert written + tail == tail && src[i..] == tail;
    hide At, LexesTo, Unfinished, Lexer.Skip;
    SkipsUnfinished(src, i);
    NothingSkipped(src);
    NothingLeft(src, |src|);
    SameLex(src, i, |src|, []);
  }

  lemma NothingSkipped(src: string)
    ensures Lexer.Skip(src, |src|) == |src|
  {
  }

  /** Between the tokens, before the first and after the last there may be any white space and comments: the tokens
      read are the same. */
  lemma GapsDoNotMatter(ts: seq<Token>, head: seq<Gap>, gaps: seq<seq<Gap>>, tail: string)
    requires AllWritable(ts) && |gaps| == |ts| && forall k | 0 <= k < |gaps| :: AreGaps(gaps[k])
    requires AreGaps(head) && Unfinished(tail)
    ensures LexesTo(ShowGaps(head) + (WriteWith(ts, gaps) + tail), 0, ts)
  {
    hide *;
    var src, n := ShowGaps(head) + (WriteWith(ts, gaps) + tail), |ShowGaps(head)|;
    WholeAt(src);
    Halves(src, 0, ShowGaps(head), WriteWith(ts, gaps) + tail);
    SkipsGaps(src, 0, head);
    LexWithGaps(src, n, ts, gaps, tail);
    SameLex(src, 0, n, ts);
  }

  lemma WholeAt(src: string)
    ensures At(src, 0, src)
  {
  }
}

/**
An independent account of a line: it is a row of lexemes, each described by the
text it stands for.  Masking is proved to be the inverse of writing that text
out: it finds the lexemes again, keeps the plain characters and blanks the rest.
 */
module SanitizerGrammar {
  import opened Text
  import opened Sanitizer

  datatype Unit = Bare(c: char) | Escaped(c: char)

  /** How a literal ends: by its quote, by the line, or by the line after a lone backslash. */
  datatype Ending = Shut | Cut | CutEscape

  datatype Lexeme =
    | Plain(c: char)
    | LineComment(body: string)
    | BlockOpen
    | RawOpen(delimiter: string)
    | Quoted(quote: char, units: seq<Unit>, ending: Ending)
    | Closing(body: string)
    | Unclosed(body: string)

  /** What ends the comment or raw string that a line starts in. */
  function Terminator(st: State): string {
    match st
    case Normal => ""
    case Block => "*/"
    case Raw(close) => close
  }

  function UnitText(u: Unit): string {
    if u.Bare? then [u.c] else ['\\', u.c]
  }

  function UnitsText(units: seq<Unit>): string {
    if units == [] then "" else UnitText(units[0]) + UnitsText(units[1..])
  }

  function EndingText(quote: char, ending: Ending): string {
    match ending
    case Shut => [quote]
    case Cut => ""
    case CutEscape => "\\"
  }

  /** The text a lexeme stands for when it starts in state `st`. */
  function TextOf(x: Lexeme, st: State): string {
    match x
    case Plain(c) => [c]
    case LineComment(body) => "//" + body
    case BlockOpen => "/*"
    case RawOpen(delimiter) => "R\"" + delimiter + "("
    case Quoted(quote, units, ending) => [quote] + UnitsText(units) + EndingText(quote, ending)
    case Closing(body) => if st.Normal? then body else body + Terminator(st)
    case Unclosed(body) => body
  }

  function After(x: Lexeme, st: State): State {
    match x
    case BlockOpen => Block
    case RawOpen(delimiter) => Raw(")" + delimiter + "\"")
    case Unclosed(_) => st
    case _ => Normal
  }

  function LineText(xs: seq<Lexeme>, st: State): string {
    if xs == [] then "" else TextOf(xs[0], st) + LineText(xs[1..], After(xs[0], st))
  }

  function Final(xs: seq<Lexeme>, st: State): State {
    if xs == [] then st else Final(xs[1..], After(xs[0], st))
  }

  /** Plain characters stay; everything else becomes blanks of the same length. */
  function Shown(x: Lexeme, st: State): string {
    if x.Plain? then [x.c] else Spaces(|TextOf(x, st)|)
  }

  function Blanked(xs: seq<Lexeme>, st: State): string {
    if xs == [] then "" else Shown(xs[0], st) + Blanked(xs[1..], After(xs[0], st))
  }

  /** After an `R`: a quote and a `(` no more than sixteen characters behind it. */
  ghost predicate OpensRaw(rest: string) {
    rest != "" && rest[0] == '"' && exists k :: 1 <= k <= 17 && k < |rest| && rest[k] == '('
  }

  /** May lexeme `x` stand in state `st` with `rest` behind it on the line? */
  ghost predicate Fits(x: Lexeme, st: State, rest: string) {
    match x
    case Plain(c) =>
      && st.Normal?
      && c !in {'"', '\''}
      && (c == '/' && rest != "" ==> rest[0] != '/' && rest[0] != '*')
      && (c == 'R' ==> !OpensRaw(rest))
    case LineComment(_) => st.Normal? && rest == ""
    case BlockOpen => st.Normal?
    case RawOpen(delimiter) => st.Normal? && |delimiter| <= 16 && '(' !in delimiter
    case Quoted(quote, units, ending) =>
      && st.Normal?
      && quote in {'"', '\''}
      && (forall u <- units :: u.Bare? ==> u.c != '\\' && u.c != quote)
      && (ending != Shut ==> rest == "")
    case Closing(body) =>
      && !st.Normal?
      && Terminator(st) != ""
      && forall k: nat :: k < |body| ==> !StartsAt(body + Terminator(st), Terminator(st), k)
    case Unclosed(body) =>
      && !st.Normal?
      && body != ""
      && rest == ""
      && forall k: nat :: !StartsAt(body, Terminator(st), k)
  }

  ghost predicate Lexing(xs: seq<Lexeme>, st: State) {
    xs == [] ||
    (&& Fits(xs[0], st, LineText(xs[1..], After(xs[0], st)))
     && Lexing(xs[1..], After(xs[0], st)))
  }

  // ----- masking recovers any lexing ----------------------------------------

  lemma RawOpeningOpens(s: string)
    requires RawOpening(s).Some?
    ensures s[0] == 'R' && OpensRaw(s[1..])
  {
    var open := RawOpening(s).value;
    OneAt(s, '(', open);
    assert s[1..][open - 1] == '(';
  }

  lemma PlainTurn(x: Lexeme, rest: string)
    requires x.Plain? && Fits(x, Normal, rest)
    ensures Turn([x.c] + rest, Normal) == Step([x.c], 1, Normal)
  {
    var s := [x.c] + rest;
    hide Find, OpensRaw, RawOpening;
    assert s[0] == x.c && s[1..] == rest;
    assert rest != "" ==> s[1] == rest[0];
    if RawOpening(s).Some? {
      RawOpeningOpens(s);
    }
  }

  lemma RawTurn(x: Lexeme, rest: string)
    requires x.RawOpen? && Fits(x, Normal, rest)
    ensures Turn(TextOf(x, Normal) + rest, Normal) ==
            Step(Shown(x, Normal), |TextOf(x, Normal)|, After(x, Normal))
  {
    var s := TextOf(x, Normal) + rest;
    var n := 2 + |x.delimiter|;
    OneAt(s, '(', n);
    forall k: nat | 2 <= k < n
      ensures !StartsAt(s, "(", k)
    {
      OneAt(s, '(', k);
      assert s[k] == x.delimiter[k - 2];
    }
    assert Find(s, "(", 2) == n;
    assert s[2..n] == x.delimiter;
    assert s[0] == 'R' && StartsWith(s, "R\"");
  }

  lemma {:induction false} QuotedLengthOf(quote: char, units: seq<Unit>, ending: Ending, rest: string)
    requires quote in {'"', '\''}
    requires forall u <- units :: u.Bare? ==> u.c != '\\' && u.c != quote
    requires ending != Shut ==> rest == ""
    ensures QuotedLength(UnitsText(units) + EndingText(quote, ending) + rest, quote, false) ==
            |UnitsText(units) + EndingText(quote, ending)|
  {
    hide QuotedLength, UnitsText, EndingText, UnitText;
    if units == [] {
      EndingLength(quote, ending, rest);
      NoUnits();
      assert UnitsText(units) + EndingText(quote, ending) + rest == EndingText(quote, ending) + rest;
    } else {
      var more := UnitsText(units[1..]) + EndingText(quote, ending) + rest;
      QuotedLengthOf(quote, units[1..], ending, rest);
      UnitLength(quote, units[0], more);
      UnitsFirst(units);
      assert UnitsText(units) + EndingText(quote, ending) + rest == UnitText(units[0]) + more;
    }
  }

  lemma NoUnits()
    ensures UnitsText([]) == ""
  {
  }

  lemma UnitsFirst(units: seq<Unit>)
    requires units != []
    ensures UnitsText(units) == UnitText(units[0]) + UnitsText(units[1..])
  {
  }

  lemma UnitLength(quote: char, u: Unit, more: string)
    requires quote in {'"', '\''} && (u.Bare? ==> u.c != '\\' && u.c != quote)
    ensures QuotedLength(UnitText(u) + more, quote, false) == |UnitText(u)| + QuotedLength(more, quote, false)
  {
    var s := UnitText(u) + more;
    if u.Bare? {
      assert s[1..] == more;
    } else {
      assert s[0] == '\\' && s[1..][1..] == more;
    }
  }

  lemma EndingLength(quote: char, ending: Ending, rest: string)
    requires quote in {'"', '\''} && (ending != Shut ==> rest == "")
    ensures QuotedLength(EndingText(quote, ending) + rest, quote, false) == |EndingText(quote, ending)|
  {
    var s := EndingText(quote, ending) + rest;
    if ending.CutEscape? {
      assert s[1..] == "";
    }
  }

  lemma QuotedTurn(x: Lexeme, rest: string)
    requires x.Quoted? && Fits(x, Normal, rest)
    ensures Turn(TextOf(x, Normal) + rest, Normal) ==
            Step(Shown(x, Normal), |TextOf(x, Normal)|, After(x, Normal))
  {
    var s := TextOf(x, Normal) + rest;
    assert s[0] == x.quote;
    assert s[1..] == UnitsText(x.units) + EndingText(x.quote, x.ending) + rest;
    QuotedLengthOf(x.quote, x.units, x.ending, rest);
  }

  lemma ClosingTurn(x: Lexeme, st: State, rest: string)
    requires x.Closing? && Fits(x, st, rest)
    ensures Turn(TextOf(x, st) + rest, st) == Step(Shown(x, st), |TextOf(x, st)|, After(x, st))
  {
    hide Find;
    var s := TextOf(x, st) + rest;
    var close := Terminator(st);
    var n := |x.body|;
    assert s[n..n + |close|] == close;
    assert StartsAt(s, close, n);
    forall k: nat | k < n
      ensures !StartsAt(s, close, k)
    {
      assert !StartsAt(x.body + close, close, k);
      assert s[k..k + |close|] == (x.body + close)[k..k + |close|];
    }
    assert Find(s, close, 0) == n;
  }

  lemma UnclosedTurn(x: Lexeme, st: State)
    requires x.Unclosed? && Fits(x, st, "")
    ensures Turn(x.body + "", st) == Step(Shown(x, st), |x.body|, st)
  {
    hide Find;
    assert x.body + "" == x.body;
    assert Closer(st) == Terminator(st);
    assert Find(x.body, Closer(st), 0) == -1;
  }

  /** At a lexeme that fits, the turn reads exactly that lexeme. */
  lemma FitsTurn(x: Lexeme, st: State, rest: string)
    requires Fits(x, st, rest)
    ensures TextOf(x, st) != ""
    ensures Turn(TextOf(x, st) + rest, st) == Step(Shown(x, st), |TextOf(x, st)|, After(x, st))
  {
    var s := TextOf(x, st) + rest;
    match x {
      case Plain(c) =>
        PlainTurn(x, rest);
      case LineComment(body) =>
        assert s[..2] == "//";
      case BlockOpen =>
        assert s[1] == '*';
      case RawOpen(_) =>
        RawTurn(x, rest);
      case Quoted(_, _, _) =>
        QuotedTurn(x, rest);
      case Closing(_) =>
        ClosingTurn(x, st, rest);
      case Unclosed(_) =>
        UnclosedTurn(x, st);
    }
  }

  /** Masking the text of any lexing shows its plain characters and leaves its final state. */
  lemma {:induction false} MaskOfLexing(xs: seq<Lexeme>, st: State)
    requires Lexing(xs, st)
    ensures CharMask(LineText(xs, st), st) == Masked(Blanked(xs, st), Final(xs, st))
  {
    hide Turn, Fits, TextOf, Shown;
    if xs != [] {
      var rest := LineText(xs[1..], After(xs[0], st));
      FitsTurn(xs[0], st, rest);
      MaskOfLexing(xs[1..], After(xs[0], st));
      assert (TextOf(xs[0], st) + rest)[|TextOf(xs[0], st)|..] == rest;
    }
  }

  // ----- every line has a lexing --------------------------------------------

  lemma {:induction false} SplitQuoted(s: string, quote: char)
    returns (units: seq<Unit>, ending: Ending, rest: string)
    requires quote in {'"', '\''}
    ensures s == UnitsText(units) + EndingText(quote, ending) + rest
    ensures forall u <- units :: u.Bare? ==> u.c != '\\' && u.c != quote
    ensures ending != Shut ==> rest == ""
  {
    if s == "" {
      units, ending, rest := [], Cut, "";
    } else if s == "\\" {
      units, ending, rest := [], CutEscape, "";
    } else if s[0] == quote {
      units, ending, rest := [], Shut, s[1..];
    } else {
      var first := if s[0] == '\\' then Escaped(s[1]) else Bare(s[0]);
      var n := if s[0] == '\\' then 2 else 1;
      var more;
      more, ending, rest := SplitQuoted(s[n..], quote);
      units := [first] + more;
      assert units[1..] == more;
      assert UnitsText([first]) == s[..n] by {
        assert UnitsText([first][1..]) == "";
      }
      assert UnitsText(units) == s[..n] + UnitsText(more);
      assert s == s[..n] + s[n..];
    }
  }

  lemma FirstLexeme(s: string, st: State) returns (x: Lexeme, rest: string)
    requires s != "" && (st.Raw? ==> st.close != "")
    ensures Fits(x, st, rest) && s == TextOf(x, st) + rest
  {
    hide Fits, TextOf, StartsWith, RawOpening, Terminator;
    if !st.Normal? {
      HasTerminator(st);
      x, rest := FirstCarried(s, st);
    } else if StartsWith(s, "//") || StartsWith(s, "/*") {
      x, rest := FirstComment(s);
    } else if RawOpening(s).Some? {
      x, rest := FirstRaw(s);
    } else if s[0] in {'"', '\''} {
      x, rest := FirstQuoted(s);
    } else {
      x, rest := Plain(s[0]), s[1..];
      FirstPlain(s);
    }
  }

  lemma HasTerminator(st: State)
    requires !st.Normal? && (st.Raw? ==> st.close != "")
    ensures Terminator(st) != ""
  {
  }

  lemma FirstComment(s: string) returns (x: Lexeme, rest: string)
    requires StartsWith(s, "//") || StartsWith(s, "/*")
    ensures Fits(x, Normal, rest) && s == TextOf(x, Normal) + rest
  {
    if StartsWith(s, "//") {
      x, rest := LineComment(s[2..]), "";
    } else {
      x, rest := BlockOpen, s[2..];
    }
  }

  lemma FirstQuoted(s: string) returns (x: Lexeme, rest: string)
    requires s != "" && s[0] in {'"', '\''}
    ensures Fits(x, Normal, rest) && s == TextOf(x, Normal) + rest
  {
    var units, ending;
    units, ending, rest := SplitQuoted(s[1..], s[0]);
    x := Quoted(s[0], units, ending);
    assert s == [s[0]] + s[1..];
    assert TextOf(x, Normal) + rest == [s[0]] + (UnitsText(units) + EndingText(s[0], ending) + rest);
  }

  lemma FirstPlain(s: string)
    requires s != "" && s[0] !in {'"', '\''}
    requires !StartsWith(s, "//") && !StartsWith(s, "/*") && RawOpening(s).None?
    ensures Fits(Plain(s[0]), Normal, s[1..]) && s == TextOf(Plain(s[0]), Normal) + s[1..]
  {
    var rest := s[1..];
    if s[0] == 'R' && OpensRaw(rest) {
      var k :| 1 <= k <= 17 && k < |rest| && rest[k] == '(';
      assert s[..2] == "R\"";
      OneAt(s, '(', k + 1);
    }
    assert |s| > 1 ==> s[..2] == [s[0], s[1]];
  }

  lemma FirstRaw(s: string) returns (x: Lexeme, rest: string)
    requires RawOpening(s).Some?
    ensures Fits(x, Normal, rest) && s == TextOf(x, Normal) + rest
  {
    var open := RawOpening(s).value;
    x, rest := RawOpen(s[2..open]), s[open + 1..];
    assert s[open..open + 1] == "(";
    assert s == s[..2] + s[2..open] + s[open..open + 1] + s[open + 1..];
    if '(' in x.delimiter {
      var k :| 0 <= k < |x.delimiter| && x.delimiter[k] == '(';
      OneAt(s, '(', k + 2);
    }
  }

  lemma FirstCarried(s: string, st: State) returns (x: Lexeme, rest: string)
    requires s != "" && !st.Normal? && Terminator(st) != ""
    ensures Fits(x, st, rest) && s == TextOf(x, st) + rest
  {
    hide Find;
    var close := Terminator(st);
    var end := Find(s, close, 0);
    if end == -1 {
      x, rest := Unclosed(s), "";
      assert s + "" == s;
    } else {
      x, rest := Closing(s[..end]), s[end + |close|..];
      CutAtCloser(s, close, end);
    }
  }

  lemma CutAtCloser(s: string, close: string, end: nat)
    requires StartsAt(s, close, end) && forall k: nat :: k < end ==> !StartsAt(s, close, k)
    ensures s == s[..end] + close + s[end + |close|..]
    ensures forall k: nat :: k < end ==> !StartsAt(s[..end] + close, close, k)
  {
    assert s[..end] + close == s[..end + |close|];
    forall k: nat | k < end
      ensures !StartsAt(s[..end] + close, close, k)
    {
      StartsAtPrefix(s, close, end + |close|, k);
    }
  }

  /** Every line has a lexing from every state a run can carry, so the previous lemma covers all lines. */
  lemma {:induction false} LexingExists(s: string, st: State) returns (xs: seq<Lexeme>)
    requires st.Raw? ==> st.close != ""
    ensures Lexing(xs, st) && LineText(xs, st) == s
    decreases |s|
  {
    hide Turn, Fits, TextOf;
    if s == "" {
      xs := [];
    } else {
      var x, rest := FirstLexeme(s, st);
      FitsTurn(x, st, rest);
      var more := LexingExists(rest, After(x, st));
      xs := [x] + more;
      assert xs[1..] == more;
    }
  }

  // ----- block comments ---------------------------------------------------------

  /** A comment that is open closes at the first star and slash, is blanked up to there, and no further. */
  lemma BlockCloses(body: string, rest: string)
    requires forall k: nat :: k < |body| ==> !StartsAt(body + "*/", "*/", k)
    ensures CharMask(body + "*/" + rest, Block) == Prepend(Spaces(|body| + 2), CharMask(rest, Normal))
  {
    hide Fits, Turn;
    var s := body + "*/" + rest;
    assert Fits(Closing(body), Block, rest) by {
      ClosingFits(body, rest);
    }
    FitsTurn(Closing(body), Block, rest);
    assert s[|body| + 2..] == rest;
  }

  lemma ClosingFits(body: string, rest: string)
    requires forall k: nat :: k < |body| ==> !StartsAt(body + "*/", "*/", k)
    ensures Fits(Closing(body), Block, rest)
  {
  }

  /** A line without star and slash leaves the comment open and is all blank. */
  lemma BlockStaysOpen(line: string)
    requires forall k: nat :: !StartsAt(line, "*/", k)
    ensures CharMask(line, Block) == Masked(Spaces(|line|), Block)
  {
    hide Find;
    if line != "" {
      assert Find(line, "*/", 0) == -1;
      assert line[|line|..] == "";
      assert Spaces(|line|) + "" == Spaces(|line|);
    } else {
      assert Spaces(0) == "";
    }
  }
}

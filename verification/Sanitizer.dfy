/**
The two copies of `sanitize_cpp_lines`, which blank C++ comments and literals
before the memory gates apply their rules.  The invariant gate's copy walks one
character at a time; the source gate's copy jumps from token to token.
 */
module Sanitizer {
  import opened Text

  /** What is carried from one line to the next. */
  datatype State = Normal | Block | Raw(close: string)

  datatype Masked = Masked(text: string, state: State)

  const QUOTES: set<char> := {'"', '\''}
  const DELIMITER_CAP := 16

  /** The text that ends the carried state. */
  function Closer(st: State): string
    requires !st.Normal?
  {
    if st.Block? then "*/" else st.close
  }

  function Prepend(p: string, m: Masked): Masked {
    Masked(p + m.text, m.state)
  }

  /** The index of the `(` that makes the `R"` at the front of `s` open a raw string. */
  function RawOpening(s: string): (r: Option<nat>)
    ensures r.Some? ==> 2 <= r.value <= 2 + DELIMITER_CAP && r.value < |s|
  {
    if StartsWith(s, "R\"") then
      var open := Find(s, "(", 2);
      if open != -1 && open - 2 <= DELIMITER_CAP then Some(open) else None
    else
      None
  }

  /** The end of a quoted literal: `s` is what follows the opening quote. */
  function QuotedLength(s: string, quote: char, escaped: bool): (n: nat)
    ensures n <= |s|
  {
    if s == "" then 0
    else if escaped then 1 + QuotedLength(s[1..], quote, false)
    else if s[0] == '\\' then 1 + QuotedLength(s[1..], quote, true)
    else if s[0] == quote then 1
    else 1 + QuotedLength(s[1..], quote, false)
  }

  /** One turn of the scanning loop: what it emits, how much it reads, and the state it leaves. */
  datatype Step = Step(out: string, used: nat, state: State)

  /** The turn taken at the front of the non-empty rest `s` of a line. */
  function Turn(s: string, st: State): (h: Step)
    requires s != ""
    ensures h.used <= |s| && |h.out| == h.used
    ensures h.used == 0 ==> !st.Normal? && h.state.Normal?
  {
    if !st.Normal? then
      var end := Find(s, Closer(st), 0);
      if end == -1 then Step(Spaces(|s|), |s|, st)
      else Step(Spaces(end + |Closer(st)|), end + |Closer(st)|, Normal)
    else if StartsWith(s, "//") then
      Step(Spaces(|s|), |s|, Normal)
    else if StartsWith(s, "/*") then
      Step(Spaces(2), 2, Block)
    else if RawOpening(s).Some? then
      var open := RawOpening(s).value;
      Step(Spaces(open + 1), open + 1, Raw(")" + s[2..open] + "\""))
    else if s[0] in QUOTES then
      var n := 1 + QuotedLength(s[1..], s[0], false);
      Step(Spaces(n), n, Normal)
    else
      Step([s[0]], 1, Normal)
  }

  // ----- the character form ------------------------------------------------

  /** What the character form emits for the rest `s` of a line, and the state it leaves. */
  function CharMask(s: string, st: State): Masked
    decreases |s|, if st.Normal? then 0 else 1
  {
    if s == "" then
      Masked("", st)
    else
      var h := Turn(s, st);
      Prepend(h.out, CharMask(s[h.used..], h.state))
  }

  // ----- the token form ----------------------------------------------------

  /** The token regex: `//`, an opening comment, `R"`, or a quote. */
  predicate TokenAt(s: string, k: nat) {
    k < |s| && (StartsAt(s, "//", k) || StartsAt(s, "/*", k) || StartsAt(s, "R\"", k) || s[k] in QUOTES)
  }

  predicate TokenFree(s: string, from: nat, to: nat) {
    forall k: nat :: from <= k < to ==> !TokenAt(s, k)
  }

  /** The leftmost token, or the length of `s` when there is none. */
  function NextToken(s: string): (t: nat)
    ensures t <= |s|
    ensures t < |s| ==> TokenAt(s, t)
    ensures TokenFree(s, 0, t)
  {
    NextTokenFrom(s, 0)
  }

  function NextTokenFrom(s: string, from: nat): (t: nat)
    requires from <= |s|
    ensures from <= t <= |s|
    ensures t < |s| ==> TokenAt(s, t)
    ensures TokenFree(s, from, t)
    decreases |s| - from
  {
    if from == |s| || TokenAt(s, from) then from else NextTokenFrom(s, from + 1)
  }

  /** The token form: ordinary text is copied up to the leftmost token before a turn is taken. */
  function TokenMask(s: string, st: State): Masked
    decreases |s|, if st.Normal? then 0 else 1
  {
    if s == "" then
      Masked("", st)
    else
      var t := if st.Normal? then NextToken(s) else 0;
      if t == |s| then
        Masked(s, Normal)
      else
        var h := Turn(s[t..], st);
        Prepend(s[..t] + h.out, TokenMask(s[t + h.used..], h.state))
  }

  lemma PrependNothing(m: Masked)
    ensures Prepend("", m) == m
  {
    assert "" + m.text == m.text;
  }

  lemma PrependTwice(p: string, q: string, m: Masked)
    ensures Prepend(p, Prepend(q, m)) == Prepend(p + q, m)
  {
    assert p + (q + m.text) == (p + q) + m.text;
  }

  lemma TokenShift(s: string, i: nat, k: nat)
    requires i <= |s|
    ensures TokenAt(s[i..], k) == TokenAt(s, i + k)
  {
    StartsAtShift(s, "//", i, k);
    StartsAtShift(s, "/*", i, k);
    StartsAtShift(s, "R\"", i, k);
  }

  /** Where no token starts, the turn emits one character as it is. */
  lemma NoTokenTurn(s: string)
    requires s != "" && !TokenAt(s, 0)
    ensures Turn(s, Normal) == Step([s[0]], 1, Normal)
  {
    assert |s| >= 2 ==> s[0..2] == s[..2];
  }

  /** A token-free stretch of ordinary text passes through the character form unchanged. */
  lemma {:induction false} CharMaskSkips(s: string, t: nat)
    requires t <= |s|
    requires TokenFree(s, 0, t)
    ensures CharMask(s, Normal) == Prepend(s[..t], CharMask(s[t..], Normal))
  {
    hide Turn, TokenAt;
    if t == 0 {
      assert s[0..] == s;
      assert "" + CharMask(s, Normal).text == CharMask(s, Normal).text;
    } else {
      NoTokenTurn(s);
      TokenFreeSuffix(s, 1, t);
      CharMaskSkips(s[1..], t - 1);
      assert s[1..][t - 1..] == s[t..];
      assert [s[0]] + s[1..][..t - 1] == s[..t];
      PrependTwice([s[0]], s[1..][..t - 1], CharMask(s[t..], Normal));
    }
  }

  /** The token form refines the character form, from every state and on every text. */
  lemma {:induction false} FormsAgreeOnText(s: string, st: State)
    ensures TokenMask(s, st) == CharMask(s, st)
    decreases |s|, if st.Normal? then 0 else 1
  {
    hide Turn, TokenAt, Find;
    if s != "" {
      var t := if st.Normal? then NextToken(s) else 0;
      SkipToToken(s, st, t);
      if t < |s| {
        var h := Turn(s[t..], st);
        assert s[t..][h.used..] == s[t + h.used..];
        FormsAgreeOnText(s[t + h.used..], h.state);
        PrependTwice(s[..t], h.out, CharMask(s[t + h.used..], h.state));
      }
    }
  }

  lemma SkipToToken(s: string, st: State, t: nat)
    requires t == if st.Normal? then NextToken(s) else 0
    ensures CharMask(s, st) == Prepend(s[..t], CharMask(s[t..], st))
    ensures st.Normal? && t == |s| ==> CharMask(s, st) == Masked(s, Normal)
  {
    hide TokenAt;
    if st.Normal? {
      CharMaskSkips(s, t);
      assert t == |s| ==> s[..t] + "" == s;
    } else {
      hide CharMask;
      assert s[0..] == s && s[..0] + CharMask(s, st).text == CharMask(s, st).text;
    }
  }

  // ----- whole files -------------------------------------------------------

  datatype Outcome = Outcome(lines: seq<string>, carried: seq<State>)

  /** Every line masked in turn; `carried[k]` is the state after line `k`. */
  function CharSanitize(lines: seq<string>, st: State): (r: Outcome)
    ensures |r.lines| == |r.carried| == |lines|
  {
    if lines == [] then Outcome([], [])
    else
      var m := CharMask(lines[0], st);
      var rest := CharSanitize(lines[1..], m.state);
      Outcome([m.text] + rest.lines, [m.state] + rest.carried)
  }

  function TokenSanitize(lines: seq<string>, st: State): (r: Outcome)
    ensures |r.lines| == |r.carried| == |lines|
  {
    if lines == [] then Outcome([], [])
    else
      var m := TokenMask(lines[0], st);
      var rest := TokenSanitize(lines[1..], m.state);
      Outcome([m.text] + rest.lines, [m.state] + rest.carried)
  }

  /** Both gates blank the same characters and carry the same state after every line. */
  lemma {:induction false} FormsAgree(lines: seq<string>, st: State)
    ensures TokenSanitize(lines, st) == CharSanitize(lines, st)
  {
    if lines != [] {
      FormsAgreeOnText(lines[0], st);
      FormsAgree(lines[1..], CharMask(lines[0], st).state);
    }
  }

  /** The state after the last line. */
  function Last(r: Outcome, st: State): State
    requires |r.lines| == |r.carried|
  {
    if r.carried == [] then st else r.carried[|r.carried| - 1]
  }

  /** Masking a file in two parts, carrying the state across, is masking it in one go. */
  lemma {:induction false} CharSanitizeAppend(a: seq<string>, b: seq<string>, st: State)
    ensures var r := CharSanitize(a, st);
            CharSanitize(a + b, st) == Then(r, CharSanitize(b, Last(r, st)))
  {
    hide CharMask, CharSanitize, Last, Then;
    if a == [] {
      assert a + b == b;
      NoLines(st);
      NothingThen(CharSanitize(b, st));
    } else {
      var m := CharMask(a[0], st);
      var rest := CharSanitize(a[1..], m.state);
      assert a == [a[0]] + a[1..] && a + b == [a[0]] + (a[1..] + b);
      FirstLine(a[0], a[1..], st);
      FirstLine(a[0], a[1..] + b, st);
      CharSanitizeAppend(a[1..], b, m.state);
      FirstThen(m, rest, CharSanitize(b, Last(rest, m.state)));
    }
  }

  function Then(r: Outcome, q: Outcome): Outcome {
    Outcome(r.lines + q.lines, r.carried + q.carried)
  }

  lemma NoLines(st: State)
    ensures CharSanitize([], st) == Outcome([], []) && Last(CharSanitize([], st), st) == st
  {
  }

  lemma NothingThen(q: Outcome)
    ensures Then(Outcome([], []), q) == q
  {
    assert [] + q.lines == q.lines && [] + q.carried == q.carried;
  }

  lemma FirstThen(m: Masked, r: Outcome, q: Outcome)
    ensures Then(Outcome([m.text] + r.lines, [m.state] + r.carried), q) ==
            Outcome([m.text] + Then(r, q).lines, [m.state] + Then(r, q).carried)
  {
    assert [m.text] + r.lines + q.lines == [m.text] + (r.lines + q.lines);
    assert [m.state] + r.carried + q.carried == [m.state] + (r.carried + q.carried);
  }

  lemma FirstLine(line: string, rest: seq<string>, st: State)
    ensures var m := CharMask(line, st);
            var r, q := CharSanitize([line] + rest, st), CharSanitize(rest, m.state);
            r == Outcome([m.text] + q.lines, [m.state] + q.carried) && Last(r, st) == Last(q, m.state)
  {
    hide CharMask;
    assert ([line] + rest)[1..] == rest;
  }

  // ----- the loops ---------------------------------------------------------

  /** The pair of variables in which both loops keep the state. */
  function StateOf(inBlock: bool, rawClose: Option<string>): State {
    if rawClose.Some? then Raw(rawClose.value) else if inBlock then Block else Normal
  }

  lemma MaskedEnd(line: string, i: nat, out: string, st: State, goal: Masked)
    requires i == |line| && Prepend(out, CharMask(line[i..], st)) == goal
    ensures Masked(out, st) == goal
  {
    assert out + "" == out;
  }

  lemma Advance(line: string, i: nat, st: State, out: string, goal: Masked)
    requires i < |line|
    requires Prepend(out, CharMask(line[i..], st)) == goal
    ensures var h := Turn(line[i..], st);
            Prepend(out + h.out, CharMask(line[i + h.used..], h.state)) == goal
  {
    hide Turn;
    var h := Turn(line[i..], st);
    assert line[i..][h.used..] == line[i + h.used..];
    PrependTwice(out, h.out, CharMask(line[i + h.used..], h.state));
  }

  lemma FrontShift(line: string, i: nat, p: string)
    requires i <= |line|
    ensures StartsWith(line[i..], p) == StartsAt(line, p, i)
  {
    StartsAtShift(line, p, i, 0);
    assert |p| <= |line[i..]| ==> line[i..][0..|p|] == line[i..][..|p|];
  }

  /** The searches of the loop, which start at `i`, are those of the turn on the suffix. */
  lemma TurnAt(line: string, i: nat, st: State)
    requires i < |line|
    ensures line[i..][0] == line[i]
    ensures StartsWith(line[i..], "//") == StartsAt(line, "//", i)
    ensures StartsWith(line[i..], "/*") == StartsAt(line, "/*", i)
    ensures StartsWith(line[i..], "R\"") == StartsAt(line, "R\"", i)
    ensures !st.Normal? ==>
              Find(line, Closer(st), i) ==
              (var r := Find(line[i..], Closer(st), 0); if r == -1 then -1 else i + r)
    ensures StartsAt(line, "R\"", i) ==>
              Find(line, "(", i + 2) ==
              (var r := Find(line[i..], "(", 2); if r == -1 then -1 else i + r)
  {
    hide Find;
    FrontShift(line, i, "//");
    FrontShift(line, i, "/*");
    FrontShift(line, i, "R\"");
    if !st.Normal? {
      FindShift(line, Closer(st), i, 0);
    }
    if StartsAt(line, "R\"", i) {
      FindShift(line, "(", i, 2);
    }
  }

  /** The inner loop over a quoted literal that opens at `i`. */
  method SkipQuoted(line: string, i: nat) returns (j: nat)
    requires i < |line|
    ensures j == i + 1 + QuotedLength(line[i + 1..], line[i], false)
    ensures j <= |line|
  {
    var quote := line[i];
    j := i + 1;
    var escaped := false;
    while j < |line|
      invariant i + 1 <= j <= |line|
      invariant j - (i + 1) + QuotedLength(line[j..], quote, escaped) == QuotedLength(line[i + 1..], quote, false)
    {
      var ch := line[j];
      assert line[j..][0] == ch && line[j..][1..] == line[j + 1..];
      j := j + 1;
      if escaped {
        escaped := false;
      } else if ch == '\\' {
        escaped := true;
      } else if ch == quote {
        break;
      }
    }
  }

  /** The branches both copies share: one turn of the loop at index `i`. */
  method TakeTurn(line: string, i: nat, inBlock: bool, rawClose: Option<string>)
    returns (piece: string, next: nat, inBlock': bool, rawClose': Option<string>)
    requires i < |line|
    requires !(inBlock && rawClose.Some?)
    ensures i <= next <= |line|
    ensures !(inBlock' && rawClose'.Some?)
    ensures Step(piece, next - i, StateOf(inBlock', rawClose')) == Turn(line[i..], StateOf(inBlock, rawClose))
  {
    hide Find, TokenAt;
    TurnAt(line, i, StateOf(inBlock, rawClose));
    inBlock', rawClose' := inBlock, rawClose;
    if rawClose.Some? {
      var end := Find(line, rawClose.value, i);
      if end == -1 {
        next := |line|;
      } else {
        next, rawClose' := end + |rawClose.value|, None;
      }
    } else if inBlock {
      var end := Find(line, "*/", i);
      if end == -1 {
        next := |line|;
      } else {
        next, inBlock' := end + 2, false;
      }
    } else if StartsAt(line, "//", i) {
      next := |line|;
    } else if StartsAt(line, "/*", i) {
      next, inBlock' := i + 2, true;
    } else {
      var open := if StartsAt(line, "R\"", i) then Find(line, "(", i + 2) else -1;
      if open != -1 && |line[i + 2..open]| <= DELIMITER_CAP {
        assert line[i..][2..open - i] == line[i + 2..open];
        next, rawClose' := open + 1, Some(")" + line[i + 2..open] + "\"");
      } else if line[i] in QUOTES {
        assert line[i..][1..] == line[i + 1..];
        next := SkipQuoted(line, i);
      } else {
        return [line[i]], i + 1, inBlock, rawClose;
      }
    }
    piece := Spaces(next - i);
  }

  /** The character form's loop over one line. */
  method MaskLineByCharacter(line: string, inBlock0: bool, rawClose0: Option<string>)
    returns (out: string, inBlock: bool, rawClose: Option<string>)
    requires !(inBlock0 && rawClose0.Some?)
    ensures !(inBlock && rawClose.Some?)
    ensures Masked(out, StateOf(inBlock, rawClose)) == CharMask(line, StateOf(inBlock0, rawClose0))
  {
    hide Turn, TokenAt, Find, CharMask, TokenMask, Prepend;
    ghost var goal := CharMask(line, StateOf(inBlock0, rawClose0));
    var i := 0;
    out, inBlock, rawClose := "", inBlock0, rawClose0;
    assert line[0..] == line;
    PrependNothing(goal);
    while i < |line|
      invariant i <= |line|
      invariant !(inBlock && rawClose.Some?)
      invariant Prepend(out, CharMask(line[i..], StateOf(inBlock, rawClose))) == goal
      decreases |line| - i, if StateOf(inBlock, rawClose).Normal? then 0 else 1
    {
      Advance(line, i, StateOf(inBlock, rawClose), out, goal);
      var piece;
      piece, i, inBlock, rawClose := TakeTurn(line, i, inBlock, rawClose);
      out := out + piece;
    }
    MaskedEnd(line, i, out, StateOf(inBlock, rawClose), goal);
  }

  lemma TokenFreeSuffix(line: string, i: nat, token: nat)
    requires i <= token <= |line| && TokenFree(line, i, token)
    ensures TokenFree(line[i..], 0, token - i)
  {
    forall k: nat | k < token - i
      ensures !TokenAt(line[i..], k)
    {
      TokenShift(line, i, k);
    }
  }

  lemma CopyToToken(line: string, i: nat, token: nat, out: string, goal: Masked)
    requires i <= token <= |line| && TokenFree(line, i, token)
    requires Prepend(out, CharMask(line[i..], Normal)) == goal
    ensures Prepend(out + line[i..token], CharMask(line[token..], Normal)) == goal
  {
    hide CharMask, TokenAt;
    TokenFreeSuffix(line, i, token);
    CharMaskSkips(line[i..], token - i);
    assert line[i..][..token - i] == line[i..token] && line[i..][token - i..] == line[token..];
    PrependTwice(out, line[i..token], CharMask(line[token..], Normal));
  }

  /** The token form's loop over one line. */
  method MaskLineByToken(line: string, inBlock0: bool, rawClose0: Option<string>)
    returns (out: string, inBlock: bool, rawClose: Option<string>)
    requires !(inBlock0 && rawClose0.Some?)
    ensures !(inBlock && rawClose.Some?)
    ensures Masked(out, StateOf(inBlock, rawClose)) == TokenMask(line, StateOf(inBlock0, rawClose0))
  {
    hide Turn, TokenAt, TokenFree, Find, CharMask, TokenMask, Prepend;
    ghost var goal := CharMask(line, StateOf(inBlock0, rawClose0));
    FormsAgreeOnText(line, StateOf(inBlock0, rawClose0));
    var i := 0;
    out, inBlock, rawClose := "", inBlock0, rawClose0;
    assert line[0..] == line;
    PrependNothing(goal);
    while i < |line|
      invariant i <= |line|
      invariant !(inBlock && rawClose.Some?)
      invariant Prepend(out, CharMask(line[i..], StateOf(inBlock, rawClose))) == goal
      decreases |line| - i, if StateOf(inBlock, rawClose).Normal? then 0 else 1
    {
      if rawClose.None? && !inBlock {
        var token := NextTokenFrom(line, i);
        CopyToToken(line, i, token, out, goal);
        out, i := out + line[i..token], token;
        if token == |line| {
          break;
        }
      }
      Advance(line, i, StateOf(inBlock, rawClose), out, goal);
      var piece;
      piece, i, inBlock, rawClose := TakeTurn(line, i, inBlock, rawClose);
      out := out + piece;
    }
    MaskedEnd(line, i, out, StateOf(inBlock, rawClose), goal);
  }

  /** `sanitize_cpp_lines` of the invariant gate. */
  method SanitizeByCharacter(lines: seq<string>) returns (sanitized: seq<string>, carried: seq<State>)
    ensures Outcome(sanitized, carried) == CharSanitize(lines, Normal)
  {
    hide CharMask;
    sanitized, carried := [], [];
    var inBlock, rawClose := false, None;
    for k := 0 to |lines|
      invariant !(inBlock && rawClose.Some?)
      invariant Outcome(sanitized, carried) == CharSanitize(lines[..k], Normal)
      invariant StateOf(inBlock, rawClose) == Last(CharSanitize(lines[..k], Normal), Normal)
    {
      CharSanitizeAppend(lines[..k], [lines[k]], Normal);
      assert lines[..k] + [lines[k]] == lines[..k + 1];
      var out;
      out, inBlock, rawClose := MaskLineByCharacter(lines[k], inBlock, rawClose);
      sanitized, carried := sanitized + [out], carried + [StateOf(inBlock, rawClose)];
    }
    assert lines[..|lines|] == lines;
  }

  /** `sanitize_cpp_lines` of the source gate: proved against the character form. */
  method SanitizeByToken(lines: seq<string>) returns (sanitized: seq<string>, carried: seq<State>)
    ensures Outcome(sanitized, carried) == TokenSanitize(lines, Normal) == CharSanitize(lines, Normal)
  {
    hide CharMask, TokenMask;
    FormsAgree(lines, Normal);
    sanitized, carried := [], [];
    var inBlock, rawClose := false, None;
    for k := 0 to |lines|
      invariant !(inBlock && rawClose.Some?)
      invariant Outcome(sanitized, carried) == CharSanitize(lines[..k], Normal)
      invariant StateOf(inBlock, rawClose) == Last(CharSanitize(lines[..k], Normal), Normal)
    {
      CharSanitizeAppend(lines[..k], [lines[k]], Normal);
      assert lines[..k] + [lines[k]] == lines[..k + 1];
      FormsAgreeOnText(lines[k], StateOf(inBlock, rawClose));
      var out;
      out, inBlock, rawClose := MaskLineByToken(lines[k], inBlock, rawClose);
      sanitized, carried := sanitized + [out], carried + [StateOf(inBlock, rawClose)];
    }
    assert lines[..|lines|] == lines;
  }
}

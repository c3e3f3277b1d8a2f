/** What masking guarantees to the rules that read the masked lines. */
module SanitizerProperties {
  import opened Text
  import opened Sanitizer

  // ----- a mask that keeps every position ----------------------------------

  /** `out` is `s` with some characters replaced by spaces. */
  ghost predicate IsMask(s: string, out: string) {
    |out| == |s| && forall k :: 0 <= k < |s| ==> out[k] == s[k] || out[k] == ' '
  }

  lemma TurnIsMask(s: string, st: State)
    requires s != ""
    ensures var h := Turn(s, st); IsMask(s[..h.used], h.out)
  {
  }

  lemma {:induction false} MaskKeepsPositions(s: string, st: State)
    ensures IsMask(s, CharMask(s, st).text)
    decreases |s|, if st.Normal? then 0 else 1
  {
    hide Turn;
    if s != "" {
      hide IsMask;
      var h := Turn(s, st);
      TurnIsMask(s, st);
      MaskKeepsPositions(s[h.used..], h.state);
      MaskAppend(s, h.used, h.out, CharMask(s[h.used..], h.state).text);
    }
  }

  lemma MaskAppend(s: string, n: nat, a: string, b: string)
    requires n <= |s| && IsMask(s[..n], a) && IsMask(s[n..], b)
    ensures IsMask(s, a + b)
  {
    forall k | 0 <= k < |s|
      ensures (a + b)[k] == s[k] || (a + b)[k] == ' '
    {
      if k < n {
        assert s[k] == s[..n][k];
      } else {
        assert s[k] == s[n..][k - n];
      }
    }
  }

  // ----- nothing that could open a comment or a literal survives ------------

  /** No quote, line comment or opening comment anywhere. */
  ghost predicate Clean(out: string) {
    forall k :: 0 <= k < |out| ==>
      && out[k] != '"' && out[k] != '\''
      && (out[k] == '/' && k + 1 < |out| ==> out[k + 1] != '/' && out[k + 1] != '*')
  }

  /** A turn emits blanks, or one character that neither is a quote nor starts a comment. */
  lemma TurnIsClean(s: string, st: State)
    requires s != ""
    ensures var h := Turn(s, st);
            || h.out == Spaces(h.used)
            || (&& st.Normal? && h == Step([s[0]], 1, Normal) && s[0] !in QUOTES
                && (s[0] == '/' && |s| > 1 ==> s[1] != '/' && s[1] != '*'))
  {
  }

  lemma {:induction false} MaskIsClean(s: string, st: State)
    ensures Clean(CharMask(s, st).text)
    decreases |s|, if st.Normal? then 0 else 1
  {
    hide Turn;
    if s != "" {
      var h := Turn(s, st);
      TurnIsClean(s, st);
      MaskIsClean(s[h.used..], h.state);
      MaskKeepsPositions(s[h.used..], h.state);
      var rest := CharMask(s[h.used..], h.state).text;
      if h.out == Spaces(h.used) {
        BlanksStayClean(h.used, rest);
      } else {
        assert rest != "" ==> rest[0] == s[1] || rest[0] == ' ';
        assert forall k :: 0 < k <= |rest| ==> ([s[0]] + rest)[k] == rest[k - 1];
      }
    }
  }

  lemma BlanksStayClean(n: nat, rest: string)
    requires Clean(rest)
    ensures Clean(Spaces(n) + rest)
  {
    var all := Spaces(n) + rest;
    forall k | 0 <= k < |all|
      ensures all[k] !in QUOTES
      ensures all[k] == '/' && k + 1 < |all| ==> all[k + 1] != '/' && all[k + 1] != '*'
    {
      if k >= n {
        assert all[k] == rest[k - n];
      }
    }
  }

  /** Clean text holds no token, so masking leaves it alone. */
  lemma CleanIsFixed(s: string)
    requires Clean(s)
    ensures CharMask(s, Normal) == Masked(s, Normal)
  {
    forall k: nat | k < |s|
      ensures !TokenAt(s, k)
    {
      PairAt(s, '/', '/', k);
      PairAt(s, '/', '*', k);
      PairAt(s, 'R', '"', k);
    }
    CharMaskSkips(s, |s|);
    assert s[..|s|] == s && s[|s|..] == "";
    assert s + "" == s;
  }

  /** Every output line is a clean, position-preserving mask of its input line. */
  lemma {:induction false} SanitizeMasks(lines: seq<string>, st: State)
    ensures var r := CharSanitize(lines, st);
            forall k :: 0 <= k < |lines| ==> IsMask(lines[k], r.lines[k]) && Clean(r.lines[k])
  {
    hide CharMask;
    if lines != [] {
      MaskKeepsPositions(lines[0], st);
      MaskIsClean(lines[0], st);
      SanitizeMasks(lines[1..], CharMask(lines[0], st).state);
    }
  }

  /** Lines that are all clean are returned unchanged, with nothing carried. */
  lemma {:induction false} CleanLinesFixed(lines: seq<string>)
    requires forall k :: 0 <= k < |lines| ==> Clean(lines[k])
    ensures CharSanitize(lines, Normal) == Outcome(lines, seq(|lines|, _ => Normal))
  {
    hide CharMask;
    if lines != [] {
      CleanIsFixed(lines[0]);
      CleanLinesFixed(lines[1..]);
    }
  }

  /** Sanitizing twice is sanitizing once. */
  lemma SanitizeIdempotent(lines: seq<string>)
    ensures var once := CharSanitize(lines, Normal).lines;
            CharSanitize(once, Normal).lines == once
  {
    SanitizeMasks(lines, Normal);
    CleanLinesFixed(CharSanitize(lines, Normal).lines);
  }

  // ----- the states that can be carried -------------------------------------

  /** A raw string is closed by `)`, at most sixteen characters other than `(`, and a quote. */
  ghost predicate Sound(st: State) {
    st.Raw? ==>
      && 2 <= |st.close| <= 18
      && st.close[0] == ')' && st.close[|st.close| - 1] == '"'
      && '(' !in st.close
  }

  lemma TurnKeepsSound(s: string, st: State)
    requires s != "" && Sound(st)
    ensures Sound(Turn(s, st).state)
  {
    if st.Normal? && RawOpening(s).Some? {
      var open := RawOpening(s).value;
      var delimiter := s[2..open];
      if '(' in delimiter {
        var k :| 0 <= k < |delimiter| && delimiter[k] == '(';
        OneAt(s, '(', k + 2);
      }
    }
  }

  lemma {:induction false} MaskKeepsSound(s: string, st: State)
    requires Sound(st)
    ensures Sound(CharMask(s, st).state)
    decreases |s|, if st.Normal? then 0 else 1
  {
    hide Turn, Sound;
    if s != "" {
      var h := Turn(s, st);
      TurnKeepsSound(s, st);
      MaskKeepsSound(s[h.used..], h.state);
    }
  }

  /** Whatever the file, the state carried out of every line is sound. */
  lemma {:induction false} CarriedStatesSound(lines: seq<string>, st: State)
    requires Sound(st)
    ensures forall k :: 0 <= k < |lines| ==> Sound(CharSanitize(lines, st).carried[k])
  {
    hide CharMask, Sound;
    if lines != [] {
      MaskKeepsSound(lines[0], st);
      CarriedStatesSound(lines[1..], CharMask(lines[0], st).state);
    }
  }
}

/**
The sliding-window scan of `validate_authority_boundaries`: a line that seems to
grant authority is reported unless a negation occurs in it or in the eight
non-blank lines before it.  Lower-casing is a parameter.
 */
module AuthorityScan {
  import opened Text

  const WINDOW := 8

  const SUBJECTS := ["wal", "parser", "reference", "benchmark", "support bundle", "support-bundle", "memory", "metric",
                     "index", "optimizer", "agent"]
  const PHRASES := ["transaction finality", "visibility authority", "row visibility", "commit authority",
                    "finality authority"]

  /** A negation marker: one or two words, with a space on each side. */
  datatype Marker = One(word: string) | Two(first: string, second: string)

  const ONE_WORD := [One("not"), One("no"), One("never"), One("cannot"), One("can't"), One("non-authority"),
                     One("only"), One("refuse"), One("fail-closed"), One("forbidden"), One("without")]
  const TWO_WORDS := [Two("must", "not"), Two("do", "not"), Two("does", "not"), Two("fail", "closed"),
                      Two("must", "fail"), Two("fail", "when")]
  const MARKERS := ONE_WORD + TWO_WORDS

  function MarkerText(m: Marker): string {
    match m
    case One(w) => " " + w + " "
    case Two(a, b) => " " + a + " " + b + " "
  }

  function Padded(s: string): string {
    " " + s + " "
  }

  predicate ContainsAny(text: string, patterns: seq<string>) {
    exists p <- patterns :: Contains(text, p)
  }

  predicate HasMarker(text: string) {
    exists m <- MARKERS :: Contains(text, MarkerText(m))
  }

  /** The lowered line has an authority phrase and a subject. */
  predicate Suspicious(lowered: string) {
    ContainsAny(Padded(lowered), PHRASES) && ContainsAny(Padded(lowered), SUBJECTS)
  }

  function WindowText(prior: seq<string>, lowered: string): string {
    " " + Join(prior, " ") + " " + lowered + " "
  }

  predicate Flags(prior: seq<string>, lowered: string) {
    Suspicious(lowered) && !HasMarker(WindowText(prior, lowered))
  }

  // ----- the scan -----------------------------------------------------------------

  /** The lowered non-blank lines. */
  function Texts(lines: seq<string>, lower: string -> string): seq<string> {
    if lines == [] then []
    else
      var n := |lines| - 1;
      var before := Texts(lines[..n], lower);
      if IsBlank(lines[n]) then before else before + [lower(lines[n])]
  }

  function LastFew(s: seq<string>): seq<string> {
    if |s| <= WINDOW then s else s[|s| - WINDOW..]
  }

  /** A line that follows `before` is reported. */
  predicate Reported(before: seq<string>, line: string, lower: string -> string) {
    Flags(LastFew(Texts(before, lower)), lower(line))
  }

  /** The scan of one file, with the bounded queue of earlier lines. */
  method ScanFile(lines: seq<string>, lower: string -> string) returns (numbers: seq<nat>)
    ensures forall i, j :: 0 <= i < j < |numbers| ==> numbers[i] < numbers[j]
    ensures forall n :: n in numbers <==> 1 <= n <= |lines| && Reported(lines[..n - 1], lines[n - 1], lower)
  {
    hide Suspicious, HasMarker, IsBlank, WindowText, LastFew;
    LastOfNothing();
    numbers := [];
    var prior: seq<string> := [];
    for k := 0 to |lines|
      invariant prior == LastFew(Texts(lines[..k], lower))
      invariant forall i, j :: 0 <= i < j < |numbers| ==> numbers[i] < numbers[j]
      invariant forall i :: 0 <= i < |numbers| ==> numbers[i] <= k
      invariant forall n :: n in numbers <==> 1 <= n <= k && Reported(lines[..n - 1], lines[n - 1], lower)
    {
      assert lines[..k + 1][..k] == lines[..k];
      if Suspicious(lower(lines[k])) && !HasMarker(WindowText(prior, lower(lines[k]))) {
        numbers := numbers + [k + 1];
      }
      if !IsBlank(lines[k]) {
        PushKeepsLast(Texts(lines[..k], lower), lower(lines[k]));
        prior := Push(prior, lower(lines[k]));
      }
    }
  }

  /** `deque(maxlen=8).append`. */
  function Push(prior: seq<string>, s: string): (r: seq<string>)
    ensures |prior| <= WINDOW ==> |r| <= WINDOW
  {
    if |prior| >= WINDOW then prior[1..] + [s] else prior + [s]
  }

  lemma LastOfNothing()
    ensures LastFew([]) == []
  {
  }

  lemma PushKeepsLast(all: seq<string>, s: string)
    ensures Push(LastFew(all), s) == LastFew(all + [s])
  {
  }

  // ----- blank lines do not matter ---------------------------------------------------

  /** The reported lines themselves, in order. */
  function ReportedLines(lines: seq<string>, lower: string -> string): seq<string> {
    if lines == [] then []
    else
      var n := |lines| - 1;
      var before := ReportedLines(lines[..n], lower);
      if Reported(lines[..n], lines[n], lower) then before + [lines[n]] else before
  }

  function NonBlank(lines: seq<string>): seq<string> {
    if lines == [] then []
    else
      var n := |lines| - 1;
      var before := NonBlank(lines[..n]);
      if IsBlank(lines[n]) then before else before + [lines[n]]
  }

  lemma {:induction false} TextsOfNonBlank(lines: seq<string>, lower: string -> string)
    ensures Texts(NonBlank(lines), lower) == Texts(lines, lower)
  {
    if lines != [] {
      var n := |lines| - 1;
      TextsOfNonBlank(lines[..n], lower);
      if !IsBlank(lines[n]) {
        assert NonBlank(lines)[..|NonBlank(lines)| - 1] == NonBlank(lines[..n]);
      }
    }
  }

  lemma PhrasesHaveText()
    ensures forall p <- PHRASES :: p != "" && !IsSpace(p[0])
  {
  }

  lemma BlankIsNotSuspicious(s: string)
    requires IsBlank(s)
    ensures !Suspicious(s)
  {
    PhrasesHaveText();
    forall p <- PHRASES
      ensures !Contains(Padded(s), p)
    {
      forall k: nat | k <= |Padded(s)|
        ensures !StartsAt(Padded(s), p, k)
      {
        if k < |Padded(s)| {
          assert IsSpace(Padded(s)[k]);
          FirstChar(Padded(s), p, k);
        }
      }
    }
  }

  lemma FirstChar(s: string, p: string, k: nat)
    requires p != "" && k < |s|
    ensures StartsAt(s, p, k) ==> s[k] == p[0]
  {
    if StartsAt(s, p, k) {
      assert s[k] == s[k..k + |p|][0];
    }
  }

  /** Blank lines, wherever they stand, never change which lines are reported. */
  lemma {:induction false} BlankLinesDoNotMatter(lines: seq<string>, lower: string -> string)
    requires forall s :: IsBlank(s) ==> IsBlank(lower(s))
    ensures ReportedLines(lines, lower) == ReportedLines(NonBlank(lines), lower)
  {
    hide Suspicious, HasMarker, IsBlank, WindowText, LastFew, Texts;
    if lines != [] {
      var n := |lines| - 1;
      BlankLinesDoNotMatter(lines[..n], lower);
      TextsOfNonBlank(lines[..n], lower);
      if IsBlank(lines[n]) {
        BlankIsNotSuspicious(lower(lines[n]));
      } else {
        assert NonBlank(lines)[..|NonBlank(lines)| - 1] == NonBlank(lines[..n]);
      }
    }
  }

  /** So two files with the same text lines have the same lines reported. */
  lemma SameTextSameReport(a: seq<string>, b: seq<string>, lower: string -> string)
    requires forall s :: IsBlank(s) ==> IsBlank(lower(s))
    requires NonBlank(a) == NonBlank(b)
    ensures ReportedLines(a, lower) == ReportedLines(b, lower)
  {
    BlankLinesDoNotMatter(a, lower);
    BlankLinesDoNotMatter(b, lower);
  }

  // ----- markers across line ends -----------------------------------------------------

  /** The lines with a space before, between and after them. */
  function Spaced(lines: seq<string>): string {
    if lines == [] then " " else " " + lines[0] + Spaced(lines[1..])
  }

  /** Some line has the marker on its own. */
  ghost predicate InOneLine(lines: seq<string>, m: string) {
    exists i :: 0 <= i < |lines| && Contains(Padded(lines[i]), m)
  }

  /** A line ends in the first word of a marker and the next one starts with its second. */
  ghost predicate Straddles(lines: seq<string>, a: string, b: string) {
    exists i, j :: 0 <= i && j == i + 1 < |lines| &&
      EndsWith(Padded(lines[i]), Padded(a)) && StartsWith(Padded(lines[j]), Padded(b))
  }

  ghost predicate Occurs(lines: seq<string>, m: Marker) {
    InOneLine(lines, MarkerText(m)) || (m.Two? && Straddles(lines, m.first, m.second))
  }

  ghost predicate IsWord(w: string) {
    w != "" && ' ' !in w
  }

  ghost predicate WordsOnly(m: Marker) {
    match m
    case One(w) => IsWord(w)
    case Two(a, b) => IsWord(a) && IsWord(b)
  }

  lemma CharAt(s: string, pat: string, k: nat, i: nat)
    requires i < |pat|
    ensures StartsAt(s, pat, k) ==> s[k + i] == pat[i]
  {
    if k + |pat| <= |s| {
      assert s[k..k + |pat|][i] == s[k + i];
    }
  }

  /** Inside a marker there is a space only between two words. */
  lemma SpaceInMarker(m: Marker, d: nat)
    requires WordsOnly(m) && 0 < d < |MarkerText(m)| - 1
    ensures MarkerText(m)[d] == ' ' ==> m.Two? && d == 1 + |m.first|
  {
    var t := MarkerText(m);
    match m {
      case One(w) =>
        assert t[d] == w[d - 1];
      case Two(a, b) =>
        assert d < 1 + |a| ==> t[d] == a[d - 1];
        assert d > 1 + |a| ==> t[d] == b[d - 2 - |a|];
    }
  }

  lemma ContainsAt(s: string, m: string, k: nat)
    requires StartsAt(s, m, k)
    ensures Contains(s, m)
  {
  }

  /** An occurrence within a stretch of `s` is an occurrence in that stretch, and the other way round. */
  lemma Within(s: string, m: string, lo: nat, hi: nat, k: nat)
    requires lo <= hi <= |s| && lo + k + |m| <= hi
    ensures StartsAt(s, m, lo + k) <==> StartsAt(s[lo..hi], m, k)
  {
    StartsAtPrefix(s, m, hi, lo + k);
    StartsAtShift(s[..hi], m, lo, k);
    assert s[..hi][lo..] == s[lo..hi];
  }

  lemma SplitFirst(lines: seq<string>)
    requires lines != []
    ensures var s := 1 + |lines[0]|;
            && s < |Spaced(lines)| && Spaced(lines)[s] == ' '
            && Spaced(lines)[..s + 1] == Padded(lines[0]) && Spaced(lines)[s..] == Spaced(lines[1..])
  {
    var rest := Spaced(lines[1..]);
    assert rest[0] == ' ';
  }

  /** Where the separator falls inside an occurrence, the occurrence is a two-word marker broken there. */
  lemma BrokenAt(text: string, m: Marker, p: nat, s: nat)
    requires WordsOnly(m) && StartsAt(text, MarkerText(m), p)
    requires p < s < p + |MarkerText(m)| - 1 && s < |text| && text[s] == ' '
    ensures m.Two? && s == p + 1 + |m.first|
  {
    var t := MarkerText(m);
    assert t[s - p] == text[p..p + |t|][s - p] == ' ';
    SpaceInMarker(m, s - p);
  }

  /** A padded word at the front of `rest` ends no later than the next space of `rest`. */
  lemma WordEnds(rest: string, w: string, e: nat)
    requires IsWord(w) && |Padded(w)| <= |rest| && rest[..|Padded(w)|] == Padded(w)
    requires 0 < e < |rest| && rest[e] == ' '
    ensures |Padded(w)| <= e + 1
  {
    var n := |Padded(w)|;
    forall k | 0 < k < n - 1
      ensures rest[k] != ' '
    {
      assert rest[k] == rest[..n][k] == w[k - 1];
      assert w[k - 1] in w;
    }
  }

  /** The part of a broken marker before the break, and the part from the break on. */
  lemma MarkerParts(m: Marker)
    requires m.Two?
    ensures var t, c := MarkerText(m), 1 + |m.first|;
            && c < |t| && t[..c + 1] == Padded(m.first) && t[c..] == Padded(m.second)
  {
    var t, c := MarkerText(m), 1 + |m.first|;
    assert t == " " + m.first + " " + (m.second + " ");
    assert t[..c + 1] == " " + m.first + " ";
    assert t[c..] == " " + (m.second + " ");
    assert " " + (m.second + " ") == Padded(m.second);
  }

  /** A stretch of a part of `j` is a stretch of `j`. */
  lemma PartOf(j: string, t: string, p: nat, from: nat, to: nat)
    requires StartsAt(j, t, p) && from <= to <= |t|
    ensures p + to <= |j| && j[p + from..p + to] == t[from..to]
  {
    var x, y := j[p + from..p + to], t[from..to];
    forall k | 0 <= k < to - from
      ensures x[k] == y[k]
    {
      assert x[k] == j[p + (from + k)] == j[p..p + |t|][from + k];
    }
  }

  lemma EndsBefore(lines: seq<string>, m: Marker, p: nat)
    requires lines != [] && m.Two? && StartsAt(Spaced(lines), MarkerText(m), p)
    requires p + 1 + |m.first| == 1 + |lines[0]|
    ensures EndsWith(Padded(lines[0]), Padded(m.first))
  {
    hide Spaced, MarkerText, Padded, StartsAt;
    var j, t, c := Spaced(lines), MarkerText(m), 1 + |m.first|;
    SplitFirst(lines);
    MarkerParts(m);
    PartOf(j, t, p, 0, c + 1);
    var s := 1 + |lines[0]|;
    assert j[..s + 1][p..] == j[p..s + 1];
    assert t[0..c + 1] == t[..c + 1];
    assert |j[..s + 1]| - |Padded(m.first)| == p;
  }

  lemma StartsAfter(lines: seq<string>, m: Marker, p: nat)
    requires lines != [] && m.Two? && StartsAt(Spaced(lines), MarkerText(m), p)
    requires p + 1 + |m.first| == 1 + |lines[0]|
    ensures Padded(m.second) <= Spaced(lines[1..])
  {
    hide Spaced, MarkerText, Padded, StartsAt;
    var j, t, c := Spaced(lines), MarkerText(m), 1 + |m.first|;
    SplitFirst(lines);
    MarkerParts(m);
    PartOf(j, t, p, c, |t|);
    var s := 1 + |lines[0]|;
    assert t[c..|t|] == t[c..];
    assert j[s..][..|t| - c] == j[s..p + |t|];
  }

  /** A padded word at the front of a spaced list is at the front of its first line. */
  lemma WordInFirst(lines: seq<string>, w: string)
    requires lines != [] && IsWord(w) && Padded(w) <= Spaced(lines)
    ensures StartsWith(Padded(lines[0]), Padded(w))
  {
    hide Spaced, Padded;
    var rest, e := Spaced(lines), 1 + |lines[0]|;
    SplitFirst(lines);
    WordEnds(rest, w, e);
    assert rest[..e + 1][..|Padded(w)|] == rest[..|Padded(w)|];
  }

  lemma BrokenStraddles(lines: seq<string>, m: Marker, p: nat)
    requires |lines| >= 2 && WordsOnly(m) && m.Two?
    requires StartsAt(Spaced(lines), MarkerText(m), p)
    requires p + 1 + |m.first| == 1 + |lines[0]|
    ensures Straddles(lines, m.first, m.second)
  {
    hide Spaced, MarkerText, Padded, StartsAt, EndsWith, StartsWith;
    EndsBefore(lines, m, p);
    StartsAfter(lines, m, p);
    WordInFirst(lines[1..], m.second);
    assert lines[1] == lines[1..][0];
  }

  lemma {:induction false} OccursIfContained(lines: seq<string>, m: Marker, p: nat)
    requires WordsOnly(m) && StartsAt(Spaced(lines), MarkerText(m), p)
    ensures Occurs(lines, m)
  {
    hide Spaced, MarkerText;
    MarkerLength(m);
    if lines == [] {
      SpacedNothing();
    } else {
      var j := Spaced(lines);
      var s := 1 + |lines[0]|;
      var t := MarkerText(m);
      SplitFirst(lines);
      if p + |t| <= s + 1 {
        Within(j, t, 0, s + 1, p);
        assert j[0..s + 1] == j[..s + 1];
        ContainsAt(Padded(lines[0]), t, p);
      } else if p >= s {
        Within(j, t, s, |j|, p - s);
        assert j[s..|j|] == j[s..];
        OccursIfContained(lines[1..], m, p - s);
        OccursLater(lines, m);
      } else {
        BrokenAt(j, m, p, s);
        BrokenHasNext(lines, m, p);
        BrokenStraddles(lines, m, p);
      }
    }
  }

  lemma MarkerLength(m: Marker)
    ensures |MarkerText(m)| >= 2
  {
  }

  lemma SpacedNothing()
    ensures Spaced([]) == " "
  {
  }

  lemma BrokenHasNext(lines: seq<string>, m: Marker, p: nat)
    requires lines != [] && m.Two? && StartsAt(Spaced(lines), MarkerText(m), p)
    requires p + 1 + |m.first| == 1 + |lines[0]|
    ensures |lines| >= 2
  {
    var t := MarkerText(m);
    assert |t| == |m.first| + |m.second| + 3;
    assert |Spaced(lines)| == 1 + |lines[0]| + |Spaced(lines[1..])|;
    if |lines| == 1 {
      SpacedNothing();
    }
  }

  lemma OccursLater(lines: seq<string>, m: Marker)
    requires lines != [] && Occurs(lines[1..], m)
    ensures Occurs(lines, m)
  {
    var rest := lines[1..];
    if InOneLine(rest, MarkerText(m)) {
      var i :| 0 <= i < |rest| && Contains(Padded(rest[i]), MarkerText(m));
      assert rest[i] == lines[i + 1];
    } else {
      var i, j :| 0 <= i && j == i + 1 < |rest| &&
        EndsWith(Padded(rest[i]), Padded(m.first)) && StartsWith(Padded(rest[j]), Padded(m.second));
      assert rest[i] == lines[i + 1] && rest[j] == lines[j + 1];
    }
  }

  /** Each line, and each pair of neighbours, is a stretch of the spaced text. */
  lemma {:induction false} ContainedIfInLine(lines: seq<string>, i: nat, t: string)
    requires i < |lines| && Contains(Padded(lines[i]), t)
    ensures Contains(Spaced(lines), t)
  {
    var j := Spaced(lines);
    var s := 1 + |lines[0]|;
    SplitFirst(lines);
    if i == 0 {
      var k: nat :| k <= |Padded(lines[0])| && StartsAt(Padded(lines[0]), t, k);
      Within(j, t, 0, s + 1, k);
      assert j[0..s + 1] == j[..s + 1];
      ContainsAt(j, t, k);
    } else {
      ContainedIfInLine(lines[1..], i - 1, t);
      ContainedLater(lines, t);
    }
  }

  lemma ContainedLater(lines: seq<string>, t: string)
    requires lines != [] && Contains(Spaced(lines[1..]), t)
    ensures Contains(Spaced(lines), t)
  {
    hide Spaced;
    var j := Spaced(lines);
    var s := 1 + |lines[0]|;
    SplitFirst(lines);
    var k: nat :| k <= |j[s..]| && StartsAt(j[s..], t, k);
    Within(j, t, s, |j|, k);
    assert j[s..|j|] == j[s..];
    ContainsAt(j, t, s + k);
  }

  lemma StraddleIsContained(j: string, s: nat, a: string, b: string)
    requires s < |j| && EndsWith(j[..s + 1], Padded(a)) && StartsWith(j[s..], Padded(b))
    ensures Contains(j, MarkerText(Two(a, b)))
  {
    var t := MarkerText(Two(a, b));
    var p, n := s + 1 - |Padded(a)|, |Padded(b)|;
    var x, y := j[p..s + 1], j[s + 1..s + n];
    assert x == Padded(a) by {
      assert j[..s + 1][p..] == x;
    }
    assert y == b + " " by {
      assert j[s..][..n][1..] == y;
      assert Padded(b)[1..] == b + " ";
    }
    assert t == x + y;
    assert j[p..s + n] == x + y;
    ContainsAt(j, t, p);
  }

  lemma {:induction false} ContainedIfStraddled(lines: seq<string>, i: nat, a: string, b: string)
    requires i + 1 < |lines|
    requires EndsWith(Padded(lines[i]), Padded(a)) && StartsWith(Padded(lines[i + 1]), Padded(b))
    ensures Contains(Spaced(lines), MarkerText(Two(a, b)))
  {
    hide Spaced, MarkerText, Padded;
    if i > 0 {
      ContainedIfStraddled(lines[1..], i - 1, a, b);
      ContainedLater(lines, MarkerText(Two(a, b)));
    } else {
      SplitFirst(lines);
      SplitFirst(lines[1..]);
      assert Padded(lines[1]) <= Spaced(lines[1..]);
      StraddleIsContained(Spaced(lines), 1 + |lines[0]|, a, b);
    }
  }

  /**
  A marker occurs in the window exactly when some line has it on its own or, for a
  two-word marker, when it is broken over the end of one line and the start of the next.
   */
  lemma MarkerInWindow(lines: seq<string>, m: Marker)
    requires WordsOnly(m)
    ensures Contains(Spaced(lines), MarkerText(m)) <==> Occurs(lines, m)
  {
    hide Spaced, MarkerText;
    var t := MarkerText(m);
    if Contains(Spaced(lines), t) {
      var p: nat :| p <= |Spaced(lines)| && StartsAt(Spaced(lines), t, p);
      OccursIfContained(lines, m, p);
    }
    if InOneLine(lines, t) {
      var i :| 0 <= i < |lines| && Contains(Padded(lines[i]), t);
      ContainedIfInLine(lines, i, t);
    } else if m.Two? && Straddles(lines, m.first, m.second) {
      var i, j :| 0 <= i && j == i + 1 < |lines| &&
        EndsWith(Padded(lines[i]), Padded(m.first)) && StartsWith(Padded(lines[j]), Padded(m.second));
      ContainedIfStraddled(lines, i, m.first, m.second);
      assert m == Two(m.first, m.second);
    }
  }

  lemma {:induction false} JoinIsSpaced(prior: seq<string>, l: string)
    requires prior != []
    ensures WindowText(prior, l) == Spaced(prior + [l])
  {
    var all := prior + [l];
    assert all[0] == prior[0] && all[1..] == prior[1..] + [l];
    if |prior| == 1 {
      assert all[1..] == [l];
      assert Spaced([l]) == " " + l + Spaced([l][1..]);
      assert Spaced([l][1..]) == " ";
    } else {
      JoinIsSpaced(prior[1..], l);
    }
  }

  lemma MarkersAreWords()
    ensures forall m <- MARKERS :: WordsOnly(m)
  {
    hide WordsOnly;
    OneWordIsWord();
    TwoWordsAreWords();
  }

  lemma ShortWords()
    ensures IsWord("not") && IsWord("no") && IsWord("only") && IsWord("must") && IsWord("do")
  {
  }

  lemma MiddleWords()
    ensures IsWord("never") && IsWord("cannot") && IsWord("can't") && IsWord("refuse")
  {
  }

  lemma LongWords()
    ensures IsWord("non-authority") && IsWord("fail-closed")
  {
  }

  lemma LastWords()
    ensures IsWord("forbidden") && IsWord("without")
  {
  }

  lemma PairWords()
    ensures IsWord("does") && IsWord("fail") && IsWord("closed") && IsWord("when")
  {
  }

  lemma OneWordIsWord()
    ensures forall m <- ONE_WORD :: WordsOnly(m)
  {
    hide IsWord;
    ShortWords();
    MiddleWords();
    LongWords();
    LastWords();
  }

  lemma TwoWordsAreWords()
    ensures forall m <- TWO_WORDS :: WordsOnly(m)
  {
    hide IsWord;
    ShortWords();
    PairWords();
  }

  /** With nothing before it, a line is looked at with one more space in front, which no marker needs. */
  lemma ExtraSpace(m: Marker, l: string)
    requires WordsOnly(m)
    ensures Contains(" " + Spaced([l]), MarkerText(m)) <==> Contains(Spaced([l]), MarkerText(m))
  {
    hide MarkerText, WordsOnly;
    var s, t := Spaced([l]), MarkerText(m);
    var w := " " + s;
    assert w[1..|w|] == s;
    NotTwoSpaces(m);
    CharAt(w, t, 0, 1);
    if Contains(w, t) {
      var p: nat :| p <= |w| && StartsAt(w, t, p);
      Within(w, t, 1, |w|, p - 1);
      ContainsAt(s, t, p - 1);
    }
    if Contains(s, t) {
      var p: nat :| p <= |s| && StartsAt(s, t, p);
      Within(w, t, 1, |w|, p);
      ContainsAt(w, t, p + 1);
    }
  }

  lemma NotTwoSpaces(m: Marker)
    requires WordsOnly(m)
    ensures |MarkerText(m)| >= 3 && MarkerText(m)[1] != ' '
  {
    SpaceInMarker(m, 1);
  }

  /** Exactly when a line is reported: it is suspicious and no marker occurs in it and the lines before it. */
  lemma FlagsIff(prior: seq<string>, l: string)
    ensures Flags(prior, l) <==> Suspicious(l) && forall m <- MARKERS :: !Occurs(prior + [l], m)
  {
    hide Suspicious, Occurs, MarkerText, Spaced;
    MarkersAreWords();
    forall m <- MARKERS
      ensures Contains(WindowText(prior, l), MarkerText(m)) <==> Occurs(prior + [l], m)
    {
      MarkerInWindow(prior + [l], m);
      if prior == [] {
        assert prior + [l] == [l];
        AloneIsSpaced(l);
        ExtraSpace(m, l);
      } else {
        JoinIsSpaced(prior, l);
      }
    }
  }

  /** The same for a line of a file: only the last eight non-blank lines before it count. */
  lemma ReportedIff(before: seq<string>, line: string, lower: string -> string)
    ensures Reported(before, line, lower) <==>
            Suspicious(lower(line)) && forall m <- MARKERS :: !Occurs(LastFew(Texts(before, lower)) + [lower(line)], m)
  {
    hide Suspicious, Occurs, Flags;
    FlagsIff(LastFew(Texts(before, lower)), lower(line));
  }

  lemma AloneIsSpaced(l: string)
    ensures WindowText([], l) == " " + Spaced([l])
  {
    assert Spaced([l][1..]) == " ";
  }

  // ----- a negation that no single line holds -------------------------------------------

  /** A padded word has spaces at its two ends only. */
  lemma PaddedWord(x: string, k: nat)
    requires IsWord(x)
    ensures 0 < k < |x| + 1 ==> Padded(x)[k] != ' '
  {
    if 0 < k < |x| + 1 {
      assert Padded(x)[k] == x[k - 1];
      assert x[k - 1] in x;
    }
  }

  lemma WordInWord(x: string, w: string, k: nat)
    requires IsWord(x) && IsWord(w) && StartsAt(Padded(x), Padded(w), k)
    ensures x == w
  {
    var n := |w| + 1;
    CharAt(Padded(x), Padded(w), k, 0);
    CharAt(Padded(x), Padded(w), k, n);
    PaddedWord(x, k);
    PaddedWord(x, k + n);
    assert Padded(x)[0..|Padded(w)|] == Padded(x);
    assert Padded(x)[1..|x| + 1] == x && Padded(w)[1..|w| + 1] == w;
  }

  lemma NoPairInWord(x: string, m: Marker)
    requires IsWord(x) && m.Two? && WordsOnly(m)
    ensures !Contains(Padded(x), MarkerText(m))
  {
    var t := MarkerText(m);
    var d := 1 + |m.first|;
    assert t[0] == ' ' && t[d] == ' ' && t[|t| - 1] == ' ';
    forall k: nat | k <= |Padded(x)|
      ensures !StartsAt(Padded(x), t, k)
    {
      CharAt(Padded(x), t, k, d);
      PaddedWord(x, k + d);
    }
  }

  /** In a list of single words a marker occurs only as one of them, or as two neighbours. */
  lemma OccursInWords(words: seq<string>, m: Marker)
    requires (forall x <- words :: IsWord(x)) && WordsOnly(m) && Occurs(words, m)
    ensures match m
            case One(w) => w in words
            case Two(a, b) => a in words && b in words
  {
    if InOneLine(words, MarkerText(m)) {
      var i :| 0 <= i < |words| && Contains(Padded(words[i]), MarkerText(m));
      if m.Two? {
        NoPairInWord(words[i], m);
      } else {
        var k: nat :| k <= |Padded(words[i])| && StartsAt(Padded(words[i]), MarkerText(m), k);
        WordInWord(words[i], m.word, k);
      }
    } else {
      var i, j :| 0 <= i && j == i + 1 < |words| &&
        EndsWith(Padded(words[i]), Padded(m.first)) && StartsWith(Padded(words[j]), Padded(m.second));
      var x, y := Padded(words[i]), Padded(words[j]);
      EndsStarts(x, Padded(m.first));
      WordInWord(words[i], m.first, |x| - |Padded(m.first)|);
      assert y[0..|Padded(m.second)|] == y[..|Padded(m.second)|];
      WordInWord(words[j], m.second, 0);
    }
  }

  lemma EndsStarts(s: string, pat: string)
    requires EndsWith(s, pat)
    ensures StartsAt(s, pat, |s| - |pat|)
  {
    assert s[|s| - |pat|..|s|] == s[|s| - |pat|..];
  }

  const EARLIER := "fail"
  const LATER_WORDS := ["closed", "wal", "row", "visibility"]
  /** "closed wal row visibility" */
  const LATER := Join(LATER_WORDS, " ")

  lemma {:induction false} PaddedJoin(words: seq<string>)
    requires words != []
    ensures Padded(Join(words, " ")) == Spaced(words)
  {
    if |words| == 1 {
      SpacedNothing();
      assert words[1..] == [];
    } else {
      PaddedJoin(words[1..]);
    }
  }

  lemma Unpad(s: string, p: string)
    requires Contains(s, Padded(p))
    ensures Contains(s, p)
  {
    var k: nat :| k <= |s| && StartsAt(s, Padded(p), k);
    PartOf(s, Padded(p), k, 1, 1 + |p|);
    assert Padded(p)[1..1 + |p|] == p;
    assert s[k + 1..k + 1 + |p|] == p;
    ContainsAt(s, p, k + 1);
  }

  lemma ExampleWords()
    ensures IsWord(EARLIER) && IsWord("closed") && IsWord("wal") && IsWord("row") && IsWord("visibility")
  {
  }

  lemma LaterHasPhrase()
    ensures Contains(Padded(LATER), "row visibility")
  {
    hide Contains, Spaced, Join, MarkerText;
    PaddedJoin(LATER_WORDS);
    PhraseParts();
    ContainedIfStraddled(LATER_WORDS, 2, "row", "visibility");
    Unpad(Padded(LATER), "row visibility");
  }

  lemma PhraseParts()
    ensures MarkerText(Two("row", "visibility")) == Padded("row visibility")
    ensures EndsWith(Padded(LATER_WORDS[2]), Padded("row")) && StartsWith(Padded(LATER_WORDS[3]), Padded("visibility"))
  {
  }

  lemma LaterHasSubject()
    ensures Contains(Padded(LATER), "wal")
  {
    hide Spaced, Join;
    PaddedJoin(LATER_WORDS);
    ContainsWhole(Padded("wal"));
    ContainedIfInLine(LATER_WORDS, 1, Padded("wal"));
    hide Contains;
    Unpad(Padded(LATER), "wal");
  }

  lemma ContainsWhole(s: string)
    ensures Contains(s, s)
  {
    assert s[0..|s|] == s;
    ContainsAt(s, s, 0);
  }

  lemma LaterIsSuspicious()
    ensures Suspicious(LATER)
  {
    hide Contains, Padded, Join;
    LaterHasPhrase();
    LaterHasSubject();
    assert PHRASES[2] == "row visibility" && SUBJECTS[0] == "wal";
    assert PHRASES[2] in PHRASES && SUBJECTS[0] in SUBJECTS;
  }

  lemma FailClosedOccurs()
    ensures Occurs([EARLIER, LATER], Two("fail", "closed"))
  {
    var lines := [EARLIER, LATER];
    PaddedJoin(LATER_WORDS);
    SplitFirst(LATER_WORDS);
    assert Padded("closed") <= Padded(LATER);
    assert EndsWith(Padded(lines[0]), Padded("fail")) && StartsWith(Padded(lines[1]), Padded("closed"));
  }

  lemma OneWordDiffers(m: Marker)
    requires m in ONE_WORD
    ensures m.word != EARLIER && m.word !in LATER_WORDS
  {
    hide ONE_WORD, TWO_WORDS, MARKERS;
    OneWordLooks(m);
    assert EARLIER[0] == 'f' && "closed"[0] == 'c' && "closed"[1] == 'l' && "wal"[0] == 'w' && "row"[0] == 'r';
  }

  lemma OneWordLooks(m: Marker)
    requires m in ONE_WORD
    ensures m.One? && |m.word| != 10
    ensures |m.word| == 3 ==> m.word[0] == 'n'
    ensures |m.word| == 4 ==> m.word[0] == 'o'
    ensures |m.word| == 6 ==> m.word[0] == 'r' || m.word[1] == 'a'
  {
  }

  lemma TwoWordsDiffer(m: Marker)
    requires m in TWO_WORDS
    ensures (m.first != EARLIER || m.second != EARLIER) && m.first !in LATER_WORDS
  {
    assert |m.first| == 2 || |m.first| == 4;
    assert |m.first| == 4 && m.first[0] == 'f' ==> |m.second| == 6 || m.second[0] == 'w';
    assert EARLIER[0] == 'f';
  }

  lemma NotAlone(m: Marker)
    requires m in MARKERS
    ensures !InOneLine([EARLIER, LATER], MarkerText(m))
  {
    hide MarkerText, Padded, Spaced, Join, Occurs;
    MarkersAreWords();
    ExampleWords();
    PaddedJoin(LATER_WORDS);
    PaddedJoin([EARLIER]);
    JoinOne(EARLIER);
    MarkerInWindow([EARLIER], m);
    MarkerInWindow(LATER_WORDS, m);
    if Occurs([EARLIER], m) {
      OccursInWords([EARLIER], m);
    }
    if Occurs(LATER_WORDS, m) {
      OccursInWords(LATER_WORDS, m);
    }
    if m in ONE_WORD {
      OneWordDiffers(m);
    } else {
      TwoWordsDiffer(m);
    }
  }

  lemma JoinOne(x: string)
    ensures Join([x], " ") == x
  {
  }

  /**
  A file of two lines.  Neither holds a marker on its own, and the second is suspicious,
  yet it is not reported.
   */
  lemma BrokenMarkerHides(lower: string -> string)
    requires lower(EARLIER) == EARLIER && lower(LATER) == LATER
    ensures forall m <- MARKERS :: !InOneLine([EARLIER, LATER], MarkerText(m))
    ensures Suspicious(LATER) && !Reported([EARLIER], LATER, lower)
  {
    BrokenMarkerWindow();
    hide InOneLine, Suspicious, Flags, MARKERS, MarkerText;
    EarlierIsText(lower);
  }

  lemma EarlierIsText(lower: string -> string)
    requires lower(EARLIER) == EARLIER
    ensures LastFew(Texts([EARLIER], lower)) == [EARLIER]
  {
    assert EARLIER[0] == 'f' && !IsSpace('f');
    assert [EARLIER][..0] == [];
  }

  lemma BrokenMarkerWindow()
    ensures forall m <- MARKERS :: !InOneLine([EARLIER, LATER], MarkerText(m))
    ensures Suspicious(LATER) && !Flags([EARLIER], LATER)
  {
    hide InOneLine, Suspicious, Occurs, Join, MarkerText, Padded, Flags, WordsOnly;
    forall m <- MARKERS
      ensures !InOneLine([EARLIER, LATER], MarkerText(m))
    {
      NotAlone(m);
    }
    LaterIsSuspicious();
    FlagsIff([EARLIER], LATER);
    assert [EARLIER] + [LATER] == [EARLIER, LATER];
    FailClosedOccurs();
    assert Two("fail", "closed") == TWO_WORDS[3];
    assert Two("fail", "closed") in MARKERS;
  }
}

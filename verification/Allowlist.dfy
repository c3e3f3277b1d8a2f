/**
The allowlist of the memory source gate.  The gate passes when every allowlist
entry is in order and matches one live violation, and every violation is matched.
Whether a path exists, and lower-casing, are parameters.
 */
module Allowlist {
  import opened Text
  import opened Ordering

  datatype Violation = Violation(category: string, path: string, line: nat, snippet: string, rule: string)

  /** A missing field is the empty string. */
  datatype Entry = Entry(category: string, path: string, pattern: string, reason: string)

  datatype Repo = Repo(exists_: string -> bool, lower: string -> string)

  datatype Error =
    | Missing(field: string) | UnknownCategory | NotRelative | Glob | StalePath | ShortReason | BroadPattern
    | NoMatch | ManyMatches(n: nat) | Duplicate

  const CATEGORIES := {"direct_new", "direct_delete", "raw_malloc_free", "unbounded_growth", "raw_page_buffer",
                       "global_allocator_mutex"}
  const BROAD := {"new", "delete", "malloc", "free", "push_back", "emplace_back", "resize", "append", "std::mutex",
                  "page", "buffer"}
  const REASON_WORDS := 8
  const PATTERN_LENGTH := 12

  // ----- one entry --------------------------------------------------------------

  /** `len(s.split())`. */
  function WordCount(s: string, inWord: bool): nat {
    if s == "" then 0
    else if IsSpace(s[0]) then WordCount(s[1..], false)
    else (if inWord then 0 else 1) + WordCount(s[1..], true)
  }

  /** Does `..` stand alone between slashes, or before the first or after the last? */
  predicate HasDotDot(path: string) {
    ".." in Split(path, '/')
  }

  datatype Key = Key(category: string, path: string, pattern: string)

  function KeyOf(e: Entry): Key {
    Key(Strip(e.category), Strip(e.path), Strip(e.pattern))
  }

  function When(c: bool, e: Error): seq<Error> {
    if c then [e] else []
  }

  function MissingErrors(e: Entry): seq<Error> {
    When(Strip(e.category) == "", Missing("category")) + When(Strip(e.path) == "", Missing("path")) +
    When(Strip(e.pattern) == "", Missing("pattern")) + When(Strip(e.reason) == "", Missing("reason"))
  }

  /** The complaints about an entry on its own. */
  function StaticErrors(repo: Repo, e: Entry): seq<Error> {
    var path, pattern := Strip(e.path), Strip(e.pattern);
    When(Strip(e.category) !in CATEGORIES, UnknownCategory) +
    When(StartsWith(path, "/") || HasDotDot(path), NotRelative) +
    When('*' in path || '?' in path || '[' in path, Glob) +
    When(!repo.exists_(path), StalePath) +
    When(WordCount(Strip(e.reason), false) < REASON_WORDS, ShortReason) +
    When(|pattern| < PATTERN_LENGTH || repo.lower(pattern) in BROAD, BroadPattern)
  }

  predicate Match(k: Key, v: Violation) {
    v.category == k.category && v.path == k.path && Contains(v.snippet, k.pattern)
  }

  function Matches(k: Key, violations: set<Violation>): set<Violation> {
    set v | v in violations && Match(k, v)
  }

  function EntryErrors(repo: Repo, e: Entry, violations: set<Violation>): seq<Error> {
    if MissingErrors(e) != [] then MissingErrors(e)
    else
      var n := |Matches(KeyOf(e), violations)|;
      StaticErrors(repo, e) + When(n == 0, NoMatch) + When(n > 1, ManyMatches(n))
  }

  function EntryMatches(e: Entry, violations: set<Violation>): set<Violation> {
    if MissingErrors(e) != [] then {} else Matches(KeyOf(e), violations)
  }

  // ----- the whole list ------------------------------------------------------------

  function Keys(allowlist: seq<Entry>): set<Key> {
    set e | e in allowlist :: KeyOf(e)
  }

  function AllErrors(repo: Repo, allowlist: seq<Entry>, violations: set<Violation>): seq<Error> {
    if allowlist == [] then []
    else
      var n := |allowlist| - 1;
      AllErrors(repo, allowlist[..n], violations) +
      if KeyOf(allowlist[n]) in Keys(allowlist[..n]) then [Duplicate]
      else EntryErrors(repo, allowlist[n], violations)
  }

  function Allowed(allowlist: seq<Entry>, violations: set<Violation>): set<Violation> {
    if allowlist == [] then {}
    else
      var n := |allowlist| - 1;
      Allowed(allowlist[..n], violations) +
      if KeyOf(allowlist[n]) in Keys(allowlist[..n]) then {}
      else EntryMatches(allowlist[n], violations)
  }

  function Without(violations: seq<Violation>, allowed: set<Violation>): seq<Violation> {
    if violations == [] then []
    else
      var n := |violations| - 1;
      Without(violations[..n], allowed) + if violations[n] in allowed then [] else [violations[n]]
  }

  /** `validate_allowlist_entry`. */
  method ValidateEntry(repo: Repo, e: Entry, violations: seq<Violation>)
    returns (errors: seq<Error>, matches: set<Violation>)
    ensures errors == EntryErrors(repo, e, AsSet(violations))
    ensures matches == EntryMatches(e, AsSet(violations))
    ensures forall v :: v in matches <==> Complete(e) && v in violations && Points(e, v)
    ensures errors == [] <==> Admissible(repo, e) && PointsAtOne(e, violations)
  {
    EntryMeans(repo, e, violations);
    hide StaticErrors, Match, Points, Complete, Admissible, PointsAtOne, EntryErrors;
    errors := MissingErrors(e);
    if errors != [] {
      IncompleteErrors(repo, e, AsSet(violations));
      return errors, {};
    }
    errors := StaticErrors(repo, e);
    matches := {};
    for k := 0 to |violations|
      invariant matches == Matches(KeyOf(e), AsSet(violations[..k]))
    {
      assert AsSet(violations[..k + 1]) == AsSet(violations[..k]) + {violations[k]};
      if Match(KeyOf(e), violations[k]) {
        matches := matches + {violations[k]};
      }
    }
    assert violations[..|violations|] == violations;
    if matches == {} {
      errors := errors + [NoMatch] + [];
    } else if |matches| != 1 {
      errors := errors + [] + [ManyMatches(|matches|)];
    } else {
      assert errors + [] + [] == errors;
    }
    CompleteErrors(repo, e, AsSet(violations));
  }

  lemma IncompleteErrors(repo: Repo, e: Entry, violations: set<Violation>)
    requires MissingErrors(e) != []
    ensures EntryErrors(repo, e, violations) == MissingErrors(e) && EntryMatches(e, violations) == {}
  {
    hide StaticErrors, Matches;
  }

  lemma CompleteErrors(repo: Repo, e: Entry, violations: set<Violation>)
    requires MissingErrors(e) == []
    ensures var n := |Matches(KeyOf(e), violations)|;
            EntryErrors(repo, e, violations) ==
            StaticErrors(repo, e) + When(n == 0, NoMatch) + When(n > 1, ManyMatches(n))
  {
    hide StaticErrors, Matches;
  }

  lemma KeysNext(allowlist: seq<Entry>, k: nat)
    requires k < |allowlist|
    ensures Keys(allowlist[..k + 1]) == Keys(allowlist[..k]) + {KeyOf(allowlist[k])}
  {
    hide KeyOf;
    assert allowlist[..k + 1] == allowlist[..k] + [allowlist[k]];
  }

  /** `apply_allowlist`. */
  method ApplyAllowlist(repo: Repo, violations: seq<Violation>, allowlist: seq<Entry>)
    returns (remaining: seq<Violation>, errors: seq<Error>)
    ensures errors == AllErrors(repo, allowlist, AsSet(violations))
    ensures remaining == Without(violations, Allowed(allowlist, AsSet(violations)))
  {
    hide EntryErrors, EntryMatches, KeyOf, AsSet, Points, Complete, Admissible, PointsAtOne;
    errors := [];
    var allowed: set<Violation> := {};
    var seen: set<Key> := {};
    for k := 0 to |allowlist|
      invariant errors == AllErrors(repo, allowlist[..k], AsSet(violations))
      invariant allowed == Allowed(allowlist[..k], AsSet(violations))
      invariant seen == Keys(allowlist[..k])
    {
      hide Keys;
      assert allowlist[..k + 1][..k] == allowlist[..k];
      var key := KeyOf(allowlist[k]);
      KeysNext(allowlist, k);
      if key in seen {
        errors := errors + [Duplicate];
      } else {
        seen := seen + {key};
        var es, ms := ValidateEntry(repo, allowlist[k], violations);
        errors, allowed := errors + es, allowed + ms;
      }
    }
    assert allowlist[..|allowlist|] == allowlist;
    remaining := [];
    for k := 0 to |violations|
      invariant remaining == Without(violations[..k], allowed)
    {
      assert violations[..k + 1][..k] == violations[..k];
      if violations[k] !in allowed {
        remaining := remaining + [violations[k]];
      }
    }
    assert violations[..|violations|] == violations;
  }

  // ----- when the gate passes ---------------------------------------------------------

  /** The gate reports neither an allowlist error nor a remaining violation. */
  predicate Passes(repo: Repo, violations: seq<Violation>, allowlist: seq<Entry>) {
    && AllErrors(repo, allowlist, AsSet(violations)) == []
    && Without(violations, Allowed(allowlist, AsSet(violations))) == []
  }

  ghost predicate KeysDistinct(allowlist: seq<Entry>) {
    forall i, j :: 0 <= i < j < |allowlist| ==> KeyOf(allowlist[i]) != KeyOf(allowlist[j])
  }

  /** The entry is in order on its own and matches exactly one violation. */
  ghost predicate Sound(repo: Repo, e: Entry, violations: set<Violation>) {
    && MissingErrors(e) == [] && StaticErrors(repo, e) == []
    && |Matches(KeyOf(e), violations)| == 1
  }

  lemma SoundEntry(repo: Repo, e: Entry, violations: set<Violation>)
    ensures EntryErrors(repo, e, violations) == [] <==> Sound(repo, e, violations)
    ensures Sound(repo, e, violations) ==> EntryMatches(e, violations) == Matches(KeyOf(e), violations)
  {
    hide StaticErrors, MissingErrors, Matches;
  }

  ghost predicate AllSound(repo: Repo, allowlist: seq<Entry>, violations: set<Violation>) {
    forall k :: 0 <= k < |allowlist| ==> Sound(repo, allowlist[k], violations)
  }

  /** Some entry matches the violation. */
  ghost predicate Covered(v: Violation, allowlist: seq<Entry>) {
    exists k :: 0 <= k < |allowlist| && Match(KeyOf(allowlist[k]), v)
  }

  lemma LastKey(allowlist: seq<Entry>)
    requires allowlist != []
    ensures var n := |allowlist| - 1;
            KeysDistinct(allowlist) <==> KeysDistinct(allowlist[..n]) && KeyOf(allowlist[n]) !in Keys(allowlist[..n])
  {
    hide KeyOf;
    var n := |allowlist| - 1;
    var front := allowlist[..n];
    assert forall i :: 0 <= i < n ==> front[i] == allowlist[i] && KeyOf(front[i]) in Keys(front);
  }

  lemma LastSound(repo: Repo, allowlist: seq<Entry>, violations: set<Violation>)
    requires allowlist != []
    ensures var n := |allowlist| - 1;
            AllSound(repo, allowlist, violations) <==>
            AllSound(repo, allowlist[..n], violations) && Sound(repo, allowlist[n], violations)
  {
    hide Sound;
    var n := |allowlist| - 1;
    assert forall i :: 0 <= i < n ==> allowlist[..n][i] == allowlist[i];
  }

  lemma LastCovered(v: Violation, allowlist: seq<Entry>)
    requires allowlist != []
    ensures var n := |allowlist| - 1;
            Covered(v, allowlist) <==> Covered(v, allowlist[..n]) || Match(KeyOf(allowlist[n]), v)
  {
    hide Match, KeyOf;
    var n := |allowlist| - 1;
    assert forall i :: 0 <= i < n ==> allowlist[..n][i] == allowlist[i];
  }

  lemma {:induction false} NoErrorsIff(repo: Repo, allowlist: seq<Entry>, violations: set<Violation>)
    ensures AllErrors(repo, allowlist, violations) == [] <==>
            KeysDistinct(allowlist) && AllSound(repo, allowlist, violations)
  {
    if allowlist != [] {
      hide EntryErrors, AllSound, KeysDistinct, Sound, Keys, KeyOf;
      var n := |allowlist| - 1;
      NoErrorsIff(repo, allowlist[..n], violations);
      SoundEntry(repo, allowlist[n], violations);
      LastKey(allowlist);
      LastSound(repo, allowlist, violations);
    }
  }

  lemma {:induction false} AllowedWhenSound(repo: Repo, allowlist: seq<Entry>, violations: set<Violation>)
    requires KeysDistinct(allowlist) && AllSound(repo, allowlist, violations)
    ensures forall v :: v in Allowed(allowlist, violations) <==> v in violations && Covered(v, allowlist)
  {
    if allowlist != [] {
      hide AllSound, KeysDistinct, Sound, Keys, KeyOf, Covered, EntryMatches, Match;
      var n := |allowlist| - 1;
      LastKey(allowlist);
      LastSound(repo, allowlist, violations);
      AllowedWhenSound(repo, allowlist[..n], violations);
      SoundEntry(repo, allowlist[n], violations);
      forall v
        ensures v in Allowed(allowlist, violations) <==> v in violations && Covered(v, allowlist)
      {
        LastCovered(v, allowlist);
      }
    }
  }

  lemma {:induction false} NothingRemains(violations: seq<Violation>, allowed: set<Violation>)
    ensures Without(violations, allowed) == [] <==> AsSet(violations) <= allowed
  {
    if violations != [] {
      var n := |violations| - 1;
      NothingRemains(violations[..n], allowed);
      assert AsSet(violations) == AsSet(violations[..n]) + {violations[n]};
    }
  }

  lemma PassesWhen(repo: Repo, violations: seq<Violation>, allowlist: seq<Entry>)
    ensures Passes(repo, violations, allowlist) <==>
            && KeysDistinct(allowlist)
            && AllSound(repo, allowlist, AsSet(violations))
            && (forall v <- violations :: Covered(v, allowlist))
  {
    hide KeysDistinct, AllSound, Covered, AllErrors, Allowed, Without;
    NoErrorsIff(repo, allowlist, AsSet(violations));
    NothingRemains(violations, Allowed(allowlist, AsSet(violations)));
    if AllErrors(repo, allowlist, AsSet(violations)) == [] {
      AllowedWhenSound(repo, allowlist, AsSet(violations));
      assert forall v :: v in AsSet(violations) <==> v in violations;
    }
  }

  // ----- the allowlist pins the violations ----------------------------------------------

  lemma SingletonsAgree(k: Key, a: set<Violation>, b: set<Violation>)
    requires a <= b && |Matches(k, a)| == 1 && |Matches(k, b)| == 1
    ensures Matches(k, a) == Matches(k, b)
  {
    var x, y := Matches(k, a), Matches(k, b);
    assert x <= y;
    if x != y {
      var v :| v in y && v !in x;
      assert x + {v} <= y;
      SubsetSize(x + {v}, y);
    }
  }

  lemma {:induction false} SubsetSize<T>(a: set<T>, b: set<T>)
    requires a <= b
    ensures |a| <= |b|
  {
    if a != {} {
      var x :| x in a;
      SubsetSize(a - {x}, b - {x});
    }
  }

  /** Of two passing runs under the same allowlist, neither set of violations is part of the other. */
  lemma PassingSetsAreIncomparable(repo: Repo, a: seq<Violation>, b: seq<Violation>, allowlist: seq<Entry>)
    requires Passes(repo, a, allowlist) && Passes(repo, b, allowlist)
    requires AsSet(a) <= AsSet(b)
    ensures AsSet(a) == AsSet(b)
  {
    hide Passes, Match, Sound;
    PassesWhen(repo, a, allowlist);
    PassesWhen(repo, b, allowlist);
    forall v <- AsSet(b)
      ensures v in AsSet(a)
    {
      assert Covered(v, allowlist);
      var k :| 0 <= k < |allowlist| && Match(KeyOf(allowlist[k]), v);
      SoundSingles(repo, allowlist[k], AsSet(a), AsSet(b));
      assert v in Matches(KeyOf(allowlist[k]), AsSet(b));
    }
  }

  lemma SoundSingles(repo: Repo, e: Entry, a: set<Violation>, b: set<Violation>)
    requires a <= b && Sound(repo, e, a) && Sound(repo, e, b)
    ensures Matches(KeyOf(e), a) == Matches(KeyOf(e), b)
  {
    SingletonsAgree(KeyOf(e), a, b);
  }

  /** A violation that appears makes a passing run fail. */
  lemma NewViolationFails(repo: Repo, violations: seq<Violation>, v: Violation, allowlist: seq<Entry>)
    requires Passes(repo, violations, allowlist) && v !in violations
    ensures !Passes(repo, violations + [v], allowlist)
  {
    hide Passes;
    assert v in AsSet(violations + [v]);
    if Passes(repo, violations + [v], allowlist) {
      PassingSetsAreIncomparable(repo, violations, violations + [v], allowlist);
    }
  }

  /** So does a violation that disappears while its allowlist entry stays. */
  lemma GoneViolationFails(repo: Repo, violations: seq<Violation>, rest: seq<Violation>, allowlist: seq<Entry>)
    requires Passes(repo, violations, allowlist) && AsSet(rest) < AsSet(violations)
    ensures !Passes(repo, rest, allowlist)
  {
    hide Passes;
    if Passes(repo, rest, allowlist) {
      PassingSetsAreIncomparable(repo, rest, violations, allowlist);
    }
  }

  // ----- the same in terms of the fields -------------------------------------------------

  /** The entry is about this violation: same category, same path, and the snippet holds the pattern. */
  ghost predicate Points(e: Entry, v: Violation) {
    && v.category == Strip(e.category)
    && v.path == Strip(e.path)
    && exists a, b :: v.snippet == a + Strip(e.pattern) + b
  }

  ghost predicate Complete(e: Entry) {
    Strip(e.category) != "" && Strip(e.path) != "" && Strip(e.pattern) != "" && Strip(e.reason) != ""
  }

  /** A position where a word of the text starts. */
  predicate WordStart(s: string, inWord: bool, k: nat) {
    k < |s| && !IsSpace(s[k]) && if k == 0 then !inWord else IsSpace(s[k - 1])
  }

  function WordStarts(s: string, inWord: bool): set<nat> {
    set k: nat | k < |s| && WordStart(s, inWord, k)
  }

  /** What an entry must be like, whatever the violations are. */
  ghost predicate Admissible(repo: Repo, e: Entry) {
    && Strip(e.category) in {"direct_new", "direct_delete", "raw_malloc_free", "unbounded_growth", "raw_page_buffer",
                             "global_allocator_mutex"}
    && GoodPath(repo, Strip(e.path))
    && |WordStarts(Strip(e.reason), false)| >= 8
    && |Strip(e.pattern)| >= 12
    && repo.lower(Strip(e.pattern)) !in {"new", "delete", "malloc", "free", "push_back", "emplace_back", "resize",
                                         "append", "std::mutex", "page", "buffer"}
  }

  ghost predicate GoodPath(repo: Repo, path: string) {
    && path != "" && path[0] != '/' && ".." !in Split(path, '/')
    && '*' !in path && '?' !in path && '[' !in path
    && repo.exists_(path)
  }

  ghost predicate PointsAtOne(e: Entry, violations: seq<Violation>) {
    exists v <- violations :: Points(e, v) && forall w <- violations :: Points(e, w) ==> w == v
  }

  lemma MatchIff(e: Entry, v: Violation)
    ensures Match(KeyOf(e), v) <==> Points(e, v)
  {
    ContainsIff(v.snippet, Strip(e.pattern));
  }

  /** Counting words is counting the positions where one starts. */
  lemma {:induction false} WordsCounted(s: string, inWord: bool)
    ensures WordCount(s, inWord) == |WordStarts(s, inWord)|
  {
    hide IsSpace, WordStarts, Shifted;
    if s == "" {
      NoStarts(inWord);
    } else {
      WordsCounted(s[1..], !IsSpace(s[0]));
      StartsOf(s, inWord);
      ShiftedSize(WordStarts(s[1..], !IsSpace(s[0])));
    }
  }

  lemma NoStarts(inWord: bool)
    ensures WordStarts("", inWord) == {}
  {
  }

  lemma StartsOf(s: string, inWord: bool)
    requires s != ""
    ensures var later := WordStarts(s[1..], !IsSpace(s[0]));
            && 0 !in Shifted(later)
            && WordStarts(s, inWord) == Shifted(later) + if !IsSpace(s[0]) && !inWord then {0} else {}
  {
    hide IsSpace;
    var later := WordStarts(s[1..], !IsSpace(s[0]));
    var all := Shifted(later) + if !IsSpace(s[0]) && !inWord then {0} else {};
    forall k: nat
      ensures k in WordStarts(s, inWord) <==> k in all
    {
      if k > 0 {
        StartShifts(s, inWord, k - 1);
        InShifted(later, k - 1);
      }
    }
  }

  function Shifted(later: set<nat>): set<nat> {
    set k | k in later :: k + 1
  }

  lemma InShifted(later: set<nat>, k: nat)
    ensures k + 1 in Shifted(later) <==> k in later
  {
  }

  lemma StartShifts(s: string, inWord: bool, k: nat)
    requires s != ""
    ensures WordStart(s, inWord, k + 1) <==> WordStart(s[1..], !IsSpace(s[0]), k)
  {
    hide IsSpace;
  }

  lemma {:induction false} ShiftedSize(later: set<nat>)
    ensures |Shifted(later)| == |later|
  {
    if later != {} {
      var x :| x in later;
      var fewer := later - {x};
      ShiftedSize(fewer);
      InShifted(fewer, x);
      forall y: nat
        ensures y in Shifted(later) <==> y in Shifted(fewer) + {x + 1}
      {
        if y > 0 {
          InShifted(later, y - 1);
          InShifted(fewer, y - 1);
        }
      }
      assert Shifted(later) == Shifted(fewer) + {x + 1};
    }
  }

  /** Which errors an entry draws by itself. */
  lemma AdmissibleIff(repo: Repo, e: Entry)
    ensures MissingErrors(e) == [] <==> Complete(e)
    ensures MissingErrors(e) == [] && StaticErrors(repo, e) == [] <==> Admissible(repo, e)
  {
    hide Strip, Split, WordCount, WordStarts, IsSpace;
    WordsCounted(Strip(e.reason), false);
    if Strip(e.reason) == "" {
      NoWords();
    }
    SlashFirst(Strip(e.path));
    StaticIff(repo, e);
  }

  lemma NoWords()
    ensures WordCount("", false) == 0
  {
  }

  lemma SlashFirst(path: string)
    ensures StartsWith(path, "/") <==> path != "" && path[0] == '/'
  {
  }

  lemma StaticIff(repo: Repo, e: Entry)
    ensures var path, pattern := Strip(e.path), Strip(e.pattern);
            StaticErrors(repo, e) == [] <==>
            && Strip(e.category) in CATEGORIES
            && !StartsWith(path, "/") && ".." !in Split(path, '/')
            && '*' !in path && '?' !in path && '[' !in path
            && repo.exists_(path)
            && WordCount(Strip(e.reason), false) >= 8
            && |pattern| >= 12 && repo.lower(pattern) !in BROAD
  {
    hide Strip, Split, WordCount, StartsWith, CATEGORIES, BROAD;
  }

  lemma OneMatch(e: Entry, violations: seq<Violation>)
    ensures |Matches(KeyOf(e), AsSet(violations))| == 1 <==> PointsAtOne(e, violations)
  {
    hide Match, Points, KeyOf;
    var ms := Matches(KeyOf(e), AsSet(violations));
    forall v
      ensures v in ms <==> v in violations && Points(e, v)
    {
      MatchIff(e, v);
    }
    if |ms| == 1 {
      var v :| v in ms;
      assert |ms - {v}| == 0;
      assert forall w <- violations :: Points(e, w) ==> w in ms && (w == v || w in ms - {v});
    }
    if PointsAtOne(e, violations) {
      var v :| v in violations && Points(e, v) && forall w <- violations :: Points(e, w) ==> w == v;
      assert ms == {v};
    }
  }

  lemma EntryMeans(repo: Repo, e: Entry, violations: seq<Violation>)
    ensures forall v :: v in EntryMatches(e, AsSet(violations)) <==> Complete(e) && v in violations && Points(e, v)
    ensures EntryErrors(repo, e, AsSet(violations)) == [] <==> Admissible(repo, e) && PointsAtOne(e, violations)
  {
    hide Points, Match, Admissible, Complete, PointsAtOne, MissingErrors, StaticErrors, KeyOf;
    AdmissibleIff(repo, e);
    OneMatch(e, violations);
    SoundEntry(repo, e, AsSet(violations));
    forall v
      ensures Match(KeyOf(e), v) <==> Points(e, v)
    {
      MatchIff(e, v);
    }
  }

  /** Entries with the same category, path and pattern, blanks at the ends apart. */
  ghost predicate SameAim(a: Entry, b: Entry) {
    Strip(a.category) == Strip(b.category) && Strip(a.path) == Strip(b.path) && Strip(a.pattern) == Strip(b.pattern)
  }

  /**
  Exactly when the gate passes: no two entries aim at the same, every entry is admissible
  and points at exactly one violation, and every violation is pointed at.
   */
  lemma PassesIff(repo: Repo, violations: seq<Violation>, allowlist: seq<Entry>)
    ensures Passes(repo, violations, allowlist) <==>
            && (forall i, j :: 0 <= i < j < |allowlist| ==> !SameAim(allowlist[i], allowlist[j]))
            && (forall e <- allowlist :: Admissible(repo, e) && PointsAtOne(e, violations))
            && (forall v <- violations :: exists e <- allowlist :: Points(e, v))
  {
    hide Passes, Points, Admissible, PointsAtOne, Match, Sound, SameAim;
    PassesWhen(repo, violations, allowlist);
    forall e <- allowlist
      ensures Sound(repo, e, AsSet(violations)) <==> Admissible(repo, e) && PointsAtOne(e, violations)
    {
      SoundEntry(repo, e, AsSet(violations));
      EntryMeans(repo, e, violations);
    }
    forall e, v
      ensures Match(KeyOf(e), v) <==> Points(e, v)
    {
      MatchIff(e, v);
    }
    forall a, b
      ensures KeyOf(a) == KeyOf(b) <==> SameAim(a, b)
    {
      AimIsKey(a, b);
    }
    CoveredIff(violations, allowlist);
  }

  lemma AimIsKey(a: Entry, b: Entry)
    ensures KeyOf(a) == KeyOf(b) <==> SameAim(a, b)
  {
    hide Strip;
  }

  lemma CoveredIff(violations: seq<Violation>, allowlist: seq<Entry>)
    ensures (forall v <- violations :: Covered(v, allowlist)) <==>
            (forall v <- violations :: exists e <- allowlist :: Points(e, v))
  {
    hide Points, Match, KeyOf;
    forall v <- violations
      ensures Covered(v, allowlist) <==> exists e <- allowlist :: Points(e, v)
    {
      if Covered(v, allowlist) {
        var k :| 0 <= k < |allowlist| && Match(KeyOf(allowlist[k]), v);
        MatchIff(allowlist[k], v);
      }
      if exists e <- allowlist :: Points(e, v) {
        var e :| e in allowlist && Points(e, v);
        var k :| 0 <= k < |allowlist| && allowlist[k] == e;
        MatchIff(e, v);
      }
    }
  }

  /** The entry counts: none before it aims at the same. */
  ghost predicate Counts(allowlist: seq<Entry>, k: nat) {
    k < |allowlist| && forall i :: 0 <= i < k ==> !SameAim(allowlist[i], allowlist[k])
  }

  ghost predicate AllowedBy(allowlist: seq<Entry>, v: Violation) {
    exists k: nat :: Counts(allowlist, k) && Complete(allowlist[k]) && Points(allowlist[k], v)
  }

  lemma AllowedByLast(allowlist: seq<Entry>, v: Violation)
    requires allowlist != []
    ensures var n := |allowlist| - 1;
            AllowedBy(allowlist, v) <==>
            AllowedBy(allowlist[..n], v) ||
            (Counts(allowlist, n) && Complete(allowlist[n]) && Points(allowlist[n], v))
  {
    hide Points, Complete, SameAim, Counts;
    var n := |allowlist| - 1;
    CountsWithin(allowlist);
    CountsWithin(allowlist[..n]);
    if AllowedBy(allowlist[..n], v) {
      var k: nat :| Counts(allowlist[..n], k) && Complete(allowlist[..n][k]) && Points(allowlist[..n][k], v);
      CountsFront(allowlist, k);
    }
    if AllowedBy(allowlist, v) {
      var k: nat :| Counts(allowlist, k) && Complete(allowlist[k]) && Points(allowlist[k], v);
      if k < n {
        CountsFront(allowlist, k);
      }
    }
  }

  lemma CountsWithin(allowlist: seq<Entry>)
    ensures forall k: nat :: Counts(allowlist, k) ==> k < |allowlist|
  {
    hide SameAim;
  }

  lemma CountsFront(allowlist: seq<Entry>, k: nat)
    requires k < |allowlist| - 1
    ensures Counts(allowlist, k) <==> Counts(allowlist[..|allowlist| - 1], k)
    ensures allowlist[..|allowlist| - 1][k] == allowlist[k]
  {
    hide SameAim;
  }

  /** A violation is allowed iff an entry that counts and has all its fields points at it, errors or not. */
  lemma {:induction false} AllowedAre(allowlist: seq<Entry>, violations: seq<Violation>, v: Violation)
    ensures v in Allowed(allowlist, AsSet(violations)) <==> v in violations && AllowedBy(allowlist, v)
  {
    hide AllowedBy, Counts, Points, Complete, EntryMatches, KeyOf, Keys;
    if allowlist != [] {
      AllowedAre(allowlist[..|allowlist| - 1], violations, v);
      EntryAllows(allowlist[|allowlist| - 1], violations, v);
      AllowedByLast(allowlist, v);
      KeyCounts(allowlist);
    } else {
      NothingAllowed(v);
    }
  }

  lemma NothingAllowed(v: Violation)
    ensures !AllowedBy([], v)
  {
  }

  lemma EntryAllows(e: Entry, violations: seq<Violation>, v: Violation)
    ensures v in EntryMatches(e, AsSet(violations)) <==> Complete(e) && v in violations && Points(e, v)
  {
    hide Points, Match, Complete, KeyOf, MissingErrors, StaticErrors;
    MatchIff(e, v);
    CompleteIff(e);
  }

  lemma CompleteIff(e: Entry)
    ensures MissingErrors(e) == [] <==> Complete(e)
  {
    hide Strip;
  }

  lemma KeyCounts(allowlist: seq<Entry>)
    requires allowlist != []
    ensures var n := |allowlist| - 1;
            KeyOf(allowlist[n]) in Keys(allowlist[..n]) <==> !Counts(allowlist, n)
  {
    hide KeyOf, SameAim;
    var n := |allowlist| - 1;
    forall i | 0 <= i < n
      ensures KeyOf(allowlist[i]) == KeyOf(allowlist[n]) <==> SameAim(allowlist[i], allowlist[n])
    {
      AimIsKey(allowlist[i], allowlist[n]);
    }
    if !Counts(allowlist, n) {
      var i :| 0 <= i < n && SameAim(allowlist[i], allowlist[n]);
      assert allowlist[..n][i] == allowlist[i];
      assert allowlist[i] in allowlist[..n];
    }
  }

  /** What remains is the violations not allowed, in their order. */
  lemma {:induction false} RemainingInOrder(a: seq<Violation>, b: seq<Violation>, allowed: set<Violation>)
    ensures Without(a + b, allowed) == Without(a, allowed) + Without(b, allowed)
    ensures forall v :: v in Without(b, allowed) <==> v in b && v !in allowed
    ensures (forall v <- b :: v !in allowed) ==> Without(b, allowed) == b
  {
    if b == [] {
      assert a + b == a;
    } else {
      var n := |b| - 1;
      assert (a + b)[..|a + b| - 1] == a + b[..n];
      assert b == b[..n] + [b[n]];
      RemainingInOrder(a, b[..n], allowed);
    }
  }
}

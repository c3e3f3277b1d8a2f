/** The Python string operations that the modelled tools share. */
module Text {

  datatype Option<+T> = None | Some(value: T)

  /** `s.startswith(pat, i)`. */
  predicate StartsAt(s: string, pat: string, i: nat) {
    i + |pat| <= |s| && s[i..i + |pat|] == pat
  }

  predicate StartsWith(s: string, pat: string) {
    pat <= s
  }

  predicate EndsWith(s: string, pat: string) {
    |pat| <= |s| && s[|s| - |pat|..] == pat
  }

  /** `s.find(pat, from)`: the leftmost occurrence at or after `from`, or -1. */
  function Find(s: string, pat: string, from: nat): (r: int)
    requires from <= |s|
    ensures r == -1 ==> forall k: nat :: from <= k ==> !StartsAt(s, pat, k)
    ensures r != -1 ==> from <= r && StartsAt(s, pat, r)
    ensures r != -1 ==> forall k: nat :: from <= k < r ==> !StartsAt(s, pat, k)
    decreases |s| - from
  {
    if StartsAt(s, pat, from) then from
    else if from == |s| then -1
    else Find(s, pat, from + 1)
  }

  /** `pat in s`. */
  predicate Contains(s: string, pat: string) {
    exists k: nat :: k <= |s| && StartsAt(s, pat, k)
  }

  /** `separator.join(parts)`. */
  function Join(parts: seq<string>, separator: string): string {
    if parts == [] then "" else if |parts| == 1 then parts[0] else parts[0] + separator + Join(parts[1..], separator)
  }

  /** `" " * n`. */
  function Spaces(n: nat): (r: string)
    ensures |r| == n
    ensures forall k :: 0 <= k < n ==> r[k] == ' '
  {
    seq(n, _ => ' ')
  }

  /** The characters `str.strip` and `str.split` treat as white space. */
  predicate IsSpace(c: char) {
    || '\t' <= c <= '\r'
    || '\U{1C}' <= c <= ' '
    || c in {'\U{85}', '\U{A0}', '\U{1680}', '\U{2028}', '\U{2029}', '\U{202F}', '\U{205F}', '\U{3000}'}
    || '\U{2000}' <= c <= '\U{200A}'
  }

  /** `not s.strip()`. */
  predicate IsBlank(s: string) {
    forall k :: 0 <= k < |s| ==> IsSpace(s[k])
  }

  /** `s.strip()`. */
  function Strip(s: string): string {
    if s != "" && IsSpace(s[0]) then Strip(s[1..])
    else if s != "" && IsSpace(s[|s| - 1]) then Strip(s[..|s| - 1])
    else s
  }

  /** `s.split(sep)`. */
  function Split(s: string, sep: char): (r: seq<string>)
    ensures r != []
  {
    if s == "" then [""]
    else
      var rest := Split(s[1..], sep);
      if s[0] == sep then [""] + rest else [[s[0]] + rest[0]] + rest[1..]
  }

  /** An occurrence inside a suffix is an occurrence in the whole text. */
  lemma StartsAtShift(s: string, pat: string, i: nat, k: nat)
    requires i <= |s|
    ensures StartsAt(s[i..], pat, k) == StartsAt(s, pat, i + k)
  {
    if i + k + |pat| <= |s| {
      assert s[i..][k..k + |pat|] == s[i + k..i + k + |pat|];
    }
  }

  /** An occurrence that ends within a prefix is an occurrence in it. */
  lemma StartsAtPrefix(s: string, pat: string, hi: nat, k: nat)
    requires k + |pat| <= hi <= |s|
    ensures StartsAt(s[..hi], pat, k) == StartsAt(s, pat, k)
  {
    assert s[..hi][k..k + |pat|] == s[k..k + |pat|];
  }

  /** Searching from `i` is searching the suffix that starts at `i`. */
  lemma FindShift(s: string, pat: string, i: nat, from: nat)
    requires i + from <= |s|
    ensures Find(s, pat, i + from) == (var r := Find(s[i..], pat, from); if r == -1 then -1 else i + r)
  {
    var a := Find(s, pat, i + from);
    var b := Find(s[i..], pat, from);
    if a != -1 {
      StartsAtShift(s, pat, i, a - i);
    }
    if b != -1 {
      StartsAtShift(s, pat, i, b);
    }
  }

  lemma OneAt(s: string, c: char, k: nat)
    ensures StartsAt(s, [c], k) <==> k < |s| && s[k] == c
  {
    if k < |s| {
      assert s[k..k + 1] == [s[k]];
    }
  }

  lemma PairAt(s: string, a: char, b: char, k: nat)
    ensures StartsAt(s, [a, b], k) <==> k + 1 < |s| && s[k] == a && s[k + 1] == b
  {
    if k + 2 <= |s| {
      assert s[k..k + 2] == [s[k], s[k + 1]];
    }
  }

  // ----- what the operations mean ----------------------------------------------------

  /** `pat in s`, without positions: something before it and something after it. */
  lemma ContainsIff(s: string, pat: string)
    ensures Contains(s, pat) <==> exists a, b :: s == a + pat + b
  {
    if Contains(s, pat) {
      var k: nat :| k <= |s| && StartsAt(s, pat, k);
      assert s == s[..k] + pat + s[k + |pat|..];
    }
    if exists a, b :: s == a + pat + b {
      var a, b :| s == a + pat + b;
      assert s[|a|..|a| + |pat|] == pat;
      assert StartsAt(s, pat, |a|);
    }
  }

  lemma StartsIff(s: string, pat: string)
    ensures StartsWith(s, pat) <==> exists b :: s == pat + b
  {
    if StartsWith(s, pat) {
      assert s == pat + s[|pat|..];
    }
  }

  lemma EndsIff(s: string, pat: string)
    ensures EndsWith(s, pat) <==> exists a :: s == a + pat
  {
    if EndsWith(s, pat) {
      assert s == s[..|s| - |pat|] + pat;
    }
    if exists a :: s == a + pat {
      var a :| s == a + pat;
      assert s[|s| - |pat|..] == pat;
    }
  }

  lemma NothingIsBlank()
    ensures IsBlank("")
  {
  }

  lemma BlankAppend(a: string, b: string)
    ensures IsBlank(a + b) <==> IsBlank(a) && IsBlank(b)
    ensures |a| == 1 ==> (IsBlank(a) <==> IsSpace(a[0]))
    ensures |b| == 1 ==> (IsBlank(b) <==> IsSpace(b[0]))
  {
    hide IsSpace;
    assert forall k :: 0 <= k < |a| ==> (a + b)[k] == a[k];
    assert forall k :: 0 <= k < |b| ==> (a + b)[|a| + k] == b[k];
  }

  /** Stripping takes blank text off both ends and no more. */
  lemma {:induction false} StripIs(s: string) returns (a: string, b: string)
    ensures s == a + Strip(s) + b && IsBlank(a) && IsBlank(b)
    ensures Strip(s) == "" || (!IsSpace(Strip(s)[0]) && !IsSpace(Strip(s)[|Strip(s)| - 1]))
    decreases |s|
  {
    hide IsSpace, IsBlank;
    a, b := "", "";
    assert IsBlank("") by {
      NothingIsBlank();
    }
    if s != "" && IsSpace(s[0]) {
      var x, y := StripIs(s[1..]);
      a, b := [s[0]] + x, y;
      BlankAppend([s[0]], x);
      assert s == [s[0]] + s[1..];
    } else if s != "" && IsSpace(s[|s| - 1]) {
      var x, y := StripIs(s[..|s| - 1]);
      a, b := x, y + [s[|s| - 1]];
      BlankAppend(y, [s[|s| - 1]]);
      assert s == s[..|s| - 1] + [s[|s| - 1]];
    }
  }

  lemma JoinFirst(parts: seq<string>, separator: string)
    requires |parts| > 1
    ensures Join(parts, separator) == parts[0] + separator + Join(parts[1..], separator)
  {
  }

  /** A character in front of the first part is a character in front of the whole. */
  lemma JoinGrows(c: char, parts: seq<string>, separator: string)
    requires parts != []
    ensures Join([[c] + parts[0]] + parts[1..], separator) == [c] + Join(parts, separator)
  {
    var more := [[c] + parts[0]] + parts[1..];
    assert more[1..] == parts[1..];
    if |parts| > 1 {
      JoinFirst(parts, separator);
      JoinFirst(more, separator);
      assert [c] + parts[0] + separator + Join(parts[1..], separator) ==
             [c] + (parts[0] + separator + Join(parts[1..], separator));
    }
  }

  /** The pieces of a split hold no separator, and joined they give the text back. */
  lemma {:induction false} SplitJoins(s: string, sep: char)
    ensures Join(Split(s, sep), [sep]) == s
    ensures forall p <- Split(s, sep) :: sep !in p
  {
    hide Join;
    if s == "" {
      JoinOne("", [sep]);
    } else {
      var rest := Split(s[1..], sep);
      SplitJoins(s[1..], sep);
      assert s == [s[0]] + s[1..];
      if s[0] == sep {
        assert ([""] + rest)[1..] == rest;
        JoinFirst([""] + rest, [sep]);
        assert "" + [sep] + s[1..] == s;
      } else {
        JoinGrows(s[0], rest, [sep]);
      }
    }
  }

  lemma JoinOne(part: string, separator: string)
    ensures Join([part], separator) == part
  {
  }

  /** Splitting is the only way to do so. */
  lemma {:induction false} JoinSplits(parts: seq<string>, sep: char)
    requires parts != [] && forall p <- parts :: sep !in p
    ensures Split(Join(parts, [sep]), sep) == parts
    decreases |parts|, |parts[0]|
  {
    hide Join;
    var p := parts[0];
    if p != "" {
      var fewer := [p[1..]] + parts[1..];
      assert forall q <- fewer :: sep !in q by {
        assert forall c <- p[1..] :: c in p;
      }
      JoinSplits(fewer, sep);
      assert [p[0]] + p[1..] == p && p[0] in p;
      assert [[p[0]] + fewer[0]] + fewer[1..] == parts;
      JoinGrows(p[0], fewer, [sep]);
      assert ([p[0]] + Join(fewer, [sep]))[1..] == Join(fewer, [sep]);
    } else if |parts| > 1 {
      JoinFirst(parts, [sep]);
      assert (p + [sep] + Join(parts[1..], [sep]))[1..] == Join(parts[1..], [sep]);
      JoinSplits(parts[1..], sep);
    } else {
      JoinOne(p, [sep]);
      assert parts == [p];
    }
  }
}

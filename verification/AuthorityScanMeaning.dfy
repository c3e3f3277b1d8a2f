/** The authority scan in terms of the texts of the lines. */
module AuthorityScanMeaning {
  import opened Text
  import opened AuthorityScan

  ghost predicate Holds(text: string, piece: string) {
    exists a, b :: text == a + piece + b
  }

  /** A line is suspicious iff, with a blank on each side, it holds an authority phrase and a subject. */
  lemma SuspiciousIff(line: string)
    ensures Suspicious(line) <==>
            && (exists p <- ["transaction finality", "visibility authority", "row visibility", "commit authority",
                             "finality authority"] :: Holds(" " + line + " ", p))
            && (exists s <- ["wal", "parser", "reference", "benchmark", "support bundle", "support-bundle", "memory",
                             "metric", "index", "optimizer", "agent"] :: Holds(" " + line + " ", s))
  {
    hide Contains, Holds;
    assert Padded(line) == " " + line + " ";
    forall p
      ensures Contains(" " + line + " ", p) <==> Holds(" " + line + " ", p)
    {
      HoldsIff(" " + line + " ", p);
    }
  }

  lemma HoldsIff(text: string, piece: string)
    ensures Contains(text, piece) <==> Holds(text, piece)
  {
    ContainsIff(text, piece);
  }

  lemma ShortMarkers()
    ensures MarkerText(One("not")) == " not "
    ensures MarkerText(One("no")) == " no "
    ensures MarkerText(One("never")) == " never "
    ensures MarkerText(One("cannot")) == " cannot "
    ensures MarkerText(One("can't")) == " can't "
  {
  }

  lemma LongMarkers()
    ensures MarkerText(One("non-authority")) == " non-authority "
    ensures MarkerText(One("only")) == " only "
    ensures MarkerText(One("refuse")) == " refuse "
  {
  }

  lemma LastMarkers()
    ensures MarkerText(One("fail-closed")) == " fail-closed "
    ensures MarkerText(One("forbidden")) == " forbidden "
    ensures MarkerText(One("without")) == " without "
  {
  }

  lemma FirstPairs()
    ensures MarkerText(Two("must", "not")) == " must not "
    ensures MarkerText(Two("do", "not")) == " do not "
    ensures MarkerText(Two("does", "not")) == " does not "
  {
  }

  lemma LastPairs()
    ensures MarkerText(Two("fail", "closed")) == " fail closed "
    ensures MarkerText(Two("must", "fail")) == " must fail "
    ensures MarkerText(Two("fail", "when")) == " fail when "
  {
  }

  lemma MarkersListed()
    ensures |MARKERS| == 17
    ensures MARKERS[0] == One("not") && MARKERS[1] == One("no")
    ensures MARKERS[2] == One("never") && MARKERS[3] == One("cannot")
    ensures MARKERS[4] == One("can't") && MARKERS[5] == One("non-authority")
    ensures MARKERS[6] == One("only") && MARKERS[7] == One("refuse")
    ensures MARKERS[8] == One("fail-closed") && MARKERS[9] == One("forbidden")
    ensures MARKERS[10] == One("without") && MARKERS[11] == Two("must", "not")
    ensures MARKERS[12] == Two("do", "not") && MARKERS[13] == Two("does", "not")
    ensures MARKERS[14] == Two("fail", "closed") && MARKERS[15] == Two("must", "fail")
    ensures MARKERS[16] == Two("fail", "when")
  {
  }

  /** The negation markers, as they are looked for. */
  lemma MarkersAre()
    ensures |MARKERS| == 17
    ensures MarkerText(MARKERS[0]) == " not " && MarkerText(MARKERS[1]) == " no "
    ensures MarkerText(MARKERS[2]) == " never " && MarkerText(MARKERS[3]) == " cannot "
    ensures MarkerText(MARKERS[4]) == " can't " && MarkerText(MARKERS[5]) == " non-authority "
    ensures MarkerText(MARKERS[6]) == " only " && MarkerText(MARKERS[7]) == " refuse "
    ensures MarkerText(MARKERS[8]) == " fail-closed " && MarkerText(MARKERS[9]) == " forbidden "
    ensures MarkerText(MARKERS[10]) == " without " && MarkerText(MARKERS[11]) == " must not "
    ensures MarkerText(MARKERS[12]) == " do not " && MarkerText(MARKERS[13]) == " does not "
    ensures MarkerText(MARKERS[14]) == " fail closed " && MarkerText(MARKERS[15]) == " must fail "
    ensures MarkerText(MARKERS[16]) == " fail when "
  {
    MarkersListed();
    hide MARKERS, ONE_WORD, TWO_WORDS, MarkerText;
    ShortMarkers();
    LongMarkers();
    LastMarkers();
    FirstPairs();
    LastPairs();
  }

  /** The line is the word, or ends in it as a word of its own. */
  ghost predicate EndsInWord(line: string, w: string) {
    line == w || exists a :: line == a + " " + w
  }

  ghost predicate StartsInWord(line: string, w: string) {
    line == w || exists b :: line == w + " " + b
  }

  lemma EndsInWordIff(line: string, w: string)
    ensures EndsWith(Padded(line), Padded(w)) <==> EndsInWord(line, w)
  {
    var p, q := Padded(line), Padded(w);
    if EndsWith(p, q) {
      var n := |line| - |w|;
      assert p[n..] == q;
      assert line[n..] == w by {
        assert p[n..][1..|w| + 1] == q[1..|w| + 1];
        assert p[n..][1..|w| + 1] == line[n..];
        assert q[1..|w| + 1] == w;
      }
      if n > 0 {
        assert p[n] == q[0] == ' ';
        assert line == line[..n - 1] + " " + w;
      } else {
        assert line == w;
      }
    }
    if exists a :: line == a + " " + w {
      var a :| line == a + " " + w;
      assert p == " " + a + q;
      assert p[|p| - |q|..] == q;
    }
    if line == w {
      assert p[0..] == p;
    }
  }

  lemma StartsInWordIff(line: string, w: string)
    ensures StartsWith(Padded(line), Padded(w)) <==> StartsInWord(line, w)
  {
    var p, q := Padded(line), Padded(w);
    if StartsWith(p, q) {
      var n := |w|;
      assert line[..n] == w by {
        assert p[..|q|][1..n + 1] == q[1..n + 1] == w;
        assert p[..|q|][1..n + 1] == line[..n];
      }
      if n < |line| {
        assert p[n + 1] == q[n + 1] == ' ';
        assert line == w + " " + line[n + 1..];
      } else {
        assert line == w;
      }
    }
    if exists b :: line == w + " " + b {
      var b :| line == w + " " + b;
      assert p == q + (b + " ");
    }
  }

  /** A marker counts where a line holds it, or where its two words end one line and start the next. */
  ghost predicate Negates(lines: seq<string>, m: Marker) {
    || (exists i :: 0 <= i < |lines| && Holds(" " + lines[i] + " ", MarkerText(m)))
    || (m.Two? && exists i, j ::
          0 <= i && j == i + 1 < |lines| && EndsInWord(lines[i], m.first) && StartsInWord(lines[j], m.second))
  }

  lemma NegatesIff(lines: seq<string>, m: Marker)
    ensures Occurs(lines, m) <==> Negates(lines, m)
  {
    hide Contains, Holds, EndsWith, StartsWith, EndsInWord, StartsInWord, MarkerText;
    forall l: string
      ensures Padded(l) == " " + l + " "
      ensures Contains(Padded(l), MarkerText(m)) <==> Holds(" " + l + " ", MarkerText(m))
      ensures m.Two? ==> (EndsWith(Padded(l), Padded(m.first)) <==> EndsInWord(l, m.first))
      ensures m.Two? ==> (StartsWith(Padded(l), Padded(m.second)) <==> StartsInWord(l, m.second))
    {
      HoldsIff(Padded(l), MarkerText(m));
      if m.Two? {
        EndsInWordIff(l, m.first);
        StartsInWordIff(l, m.second);
      }
    }
  }

  /** The lowered lines that are not blank, in order. */
  lemma TextsAre(a: seq<string>, b: seq<string>, lower: string -> string)
    ensures Texts(a + b, lower) == Texts(a, lower) + Texts(b, lower)
    ensures forall l :: Texts([l], lower) == if IsBlank(l) then [] else [lower(l)]
  {
    hide IsBlank, Texts;
    TextsAppend(a, b, lower);
    forall l
      ensures Texts([l], lower) == if IsBlank(l) then [] else [lower(l)]
    {
      TextOfOne(l, lower);
    }
  }

  lemma {:induction false} TextsAppend(a: seq<string>, b: seq<string>, lower: string -> string)
    ensures Texts(a + b, lower) == Texts(a, lower) + Texts(b, lower)
  {
    hide IsBlank;
    if b == [] {
      assert a + b == a;
    } else {
      var n := |b| - 1;
      TextsAppend(a, b[..n], lower);
      assert (a + b)[..|a + b| - 1] == a + b[..n];
    }
  }

  lemma TextOfOne(l: string, lower: string -> string)
    ensures Texts([l], lower) == if IsBlank(l) then [] else [lower(l)]
  {
    hide IsBlank;
    assert [l][..0] == [];
  }

  /** `w` is the end of `texts`, eight lines long if there are so many. */
  ghost predicate IsWindow(w: seq<string>, texts: seq<string>) {
    |w| <= 8 && (|w| == 8 || |w| == |texts|) && exists before :: texts == before + w
  }

  lemma WindowIs(texts: seq<string>, w: seq<string>)
    ensures IsWindow(w, texts) <==> w == LastFew(texts)
  {
    var n := |texts| - |LastFew(texts)|;
    assert texts == texts[..n] + LastFew(texts);
    if IsWindow(w, texts) {
      var before :| texts == before + w;
      assert w == texts[|texts| - |w|..];
    }
  }

  /**
  Exactly when a line of a file is reported: it holds a phrase and a subject, and no marker
  counts in it and the window of lowered lines before it.
   */
  lemma ReportedMeans(before: seq<string>, line: string, lower: string -> string, window: seq<string>)
    requires IsWindow(window, Texts(before, lower))
    ensures Reported(before, line, lower) <==>
            Suspicious(lower(line)) && forall m <- MARKERS :: !Negates(window + [lower(line)], m)
  {
    hide Suspicious, Occurs, Negates, Reported, MARKERS, LastFew, IsWindow;
    WindowIs(Texts(before, lower), window);
    ReportedIff(before, line, lower);
    forall m
      ensures Occurs(window + [lower(line)], m) <==> Negates(window + [lower(line)], m)
    {
      NegatesIff(window + [lower(line)], m);
    }
  }
}

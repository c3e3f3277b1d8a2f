/** Records written as tab-separated `key=value` lines are accepted and read back exactly. */
module PhaseTraceRoundTrip {
  import opened Text
  import opened Ordering
  import opened PhaseTrace

  /** A field to be written: text, or a timing in canonical decimal. */
  datatype Cell = Word(key: string, text: string) | Micros(key: string, n: nat)

  function Decimal(n: nat): string {
    if n < 10 then [('0' as int + n) as char] else Decimal(n / 10) + [('0' as int + n % 10) as char]
  }

  function Shown(c: Cell): string {
    if c.Word? then c.text else Decimal(c.n)
  }

  function FieldOf(c: Cell): Field {
    Field(c.key, Shown(c))
  }

  function Token(c: Cell): string {
    c.key + "=" + Shown(c)
  }

  function Joined(cells: seq<Cell>): string {
    if cells == [] then ""
    else if |cells| == 1 then Token(cells[0]) else Token(cells[0]) + "\t" + Joined(cells[1..])
  }

  function Printed(cells: seq<Cell>): string {
    Joined(cells) + "\n"
  }

  predicate Plain(s: string) {
    s != "" && '\t' !in s && '\r' !in s && '\n' !in s
  }

  predicate CellOk(c: Cell) {
    && Plain(c.key) && '=' !in c.key
    && (c.Word? ==> Plain(c.text) && !IsTimingKey(c.key))
    && (c.Micros? ==> c.n <= MAX_TIMING && IsTimingKey(c.key))
  }

  predicate DistinctKeys(cells: seq<Cell>) {
    forall i, j :: 0 <= i < j < |cells| ==> cells[i].key != cells[j].key
  }

  /** Any cells with distinct keys that include an operation, an outcome and a total. */
  predicate WellFormed(cells: seq<Cell>) {
    && cells != []
    && DistinctKeys(cells)
    && (forall c <- cells :: CellOk(c))
    && (exists c <- cells :: c.Word? && c.key == OPERATION)
    && (exists c <- cells :: c.Word? && c.key == OUTCOME && c.text in {"true", "false"})
    && (exists c <- cells :: c.key == TOTAL)
  }

  function Timed(cells: seq<Cell>): seq<Timing> {
    if cells == [] then []
    else
      var n := |cells| - 1;
      Timed(cells[..n]) + if cells[n].Micros? then [Timing(cells[n].key, cells[n].n)] else []
  }

  function TextOf(cells: seq<Cell>, key: string): string {
    if cells == [] then ""
    else if cells[0].key == key then Shown(cells[0])
    else TextOf(cells[1..], key)
  }

  /** What the cells say. */
  function Meaning(cells: seq<Cell>): Record {
    Record(TextOf(cells, OPERATION), TextOf(cells, OUTCOME), Timed(cells))
  }

  // ----- decimals -------------------------------------------------------------------

  lemma {:induction false} DecimalIsDigits(n: nat)
    ensures IsDigits(Decimal(n))
  {
    if n >= 10 {
      DecimalIsDigits(n / 10);
    }
  }

  lemma {:induction false} DecimalReadsBack(n: nat)
    ensures IsDigits(Decimal(n)) && ToNat(Decimal(n)) == n
  {
    DecimalIsDigits(n);
    var s := Decimal(n);
    if n >= 10 {
      assert s[..|s| - 1] == Decimal(n / 10);
      DecimalReadsBack(n / 10);
    } else {
      assert s[..0] == "";
    }
  }

  function Pow10(k: nat): nat {
    if k == 0 then 1 else 10 * Pow10(k - 1)
  }

  lemma {:induction false} DecimalLength(n: nat, k: nat)
    requires k > 0 && n < Pow10(k)
    ensures |Decimal(n)| <= k
  {
    if n >= 10 {
      DecimalLength(n / 10, k - 1);
    }
  }

  /** Every 64-bit timing fits the twenty-digit cap. */
  lemma TimingFits(n: nat)
    requires n <= MAX_TIMING
    ensures |Decimal(n)| <= MAX_DIGITS
  {
    assert Pow10(5) == 100000;
    assert Pow10(10) == 100000 * Pow10(5);
    assert Pow10(15) == 100000 * Pow10(10);
    assert Pow10(20) == 100000 * Pow10(15);
    DecimalLength(n, 20);
  }

  lemma ShownIsPlain(c: Cell)
    requires CellOk(c)
    ensures Plain(Shown(c))
  {
    if c.Micros? {
      DecimalIsDigits(c.n);
    }
  }

  // ----- tokens ---------------------------------------------------------------------

  lemma TokenReadsBack(c: Cell)
    requires CellOk(c)
    ensures '\t' !in Token(c) && ReadField(Token(c)) == Some(FieldOf(c))
  {
    ShownIsPlain(c);
    var t := Token(c);
    var k := |c.key|;
    assert t[..k] == c.key && t[k] == '=' && t[k + 1..] == Shown(c);
    IndexOfIs(t, '=', k);
  }

  lemma {:induction false} IndexOfIs(s: string, c: char, k: nat)
    requires k < |s| && s[k] == c && c !in s[..k]
    ensures IndexOf(s, c) == k
  {
    if k > 0 {
      assert s[0] in s[..k];
      assert s[1..][..k - 1] == s[..k][1..];
      IndexOfIs(s[1..], c, k - 1);
    }
  }

  lemma {:induction false} SplitPlain(t: string)
    requires '\t' !in t
    ensures Split(t, '\t') == [t]
  {
    if t != "" {
      assert t[0] in t;
      assert forall c <- t[1..] :: c in t;
      SplitPlain(t[1..]);
      assert [t[0]] + t[1..] == t;
    }
  }

  lemma {:induction false} SplitOnce(t: string, rest: string)
    requires '\t' !in t
    ensures Split(t + "\t" + rest, '\t') == [t] + Split(rest, '\t')
  {
    var s := t + "\t" + rest;
    if t == "" {
      assert s[1..] == rest;
    } else {
      assert t[0] in t;
      assert forall c <- t[1..] :: c in t;
      assert s[1..] == t[1..] + "\t" + rest;
      SplitOnce(t[1..], rest);
      assert [t[0]] + t[1..] == t;
    }
  }

  function Tokens(cells: seq<Cell>): seq<string> {
    if cells == [] then [] else [Token(cells[0])] + Tokens(cells[1..])
  }

  lemma {:induction false} SplitJoined(cells: seq<Cell>)
    requires cells != [] && forall c <- cells :: CellOk(c)
    ensures Split(Joined(cells), '\t') == Tokens(cells)
  {
    assert CellOk(cells[0]);
    TokenReadsBack(cells[0]);
    if |cells| == 1 {
      SplitPlain(Token(cells[0]));
      assert Tokens(cells[1..]) == [];
    } else {
      SplitJoined(cells[1..]);
      SplitOnce(Token(cells[0]), Joined(cells[1..]));
    }
  }

  lemma {:induction false} JoinedEnd(cells: seq<Cell>)
    requires cells != [] && forall c <- cells :: CellOk(c)
    ensures Joined(cells) != "" && Joined(cells)[|Joined(cells)| - 1] !in {'\r', '\n'}
    ensures '=' in Joined(cells)
  {
    assert CellOk(cells[0]);
    ShownIsPlain(cells[0]);
    var t := Token(cells[0]);
    assert t[|cells[0].key|] == '=';
    if |cells| > 1 {
      JoinedEnd(cells[1..]);
    } else {
      assert t[|t| - 1] == Shown(cells[0])[|Shown(cells[0])| - 1];
    }
  }

  lemma PrintedLine(cells: seq<Cell>)
    requires cells != [] && forall c <- cells :: CellOk(c)
    ensures StripEol(Printed(cells)) == Joined(cells)
    ensures EndsWith(Printed(cells), "\n") && !IsBlank(Printed(cells))
  {
    hide Joined, CellOk, IsBlank;
    JoinedEnd(cells);
    var s := Printed(cells);
    assert s[..|s| - 1] == Joined(cells);
    var k :| 0 <= k < |Joined(cells)| && Joined(cells)[k] == '=';
    HasEquals(s, k);
  }

  lemma HasEquals(s: string, k: nat)
    requires k < |s| && s[k] == '='
    ensures !IsBlank(s)
  {
  }

  // ----- fields and timings -----------------------------------------------------------

  function Fields(cells: seq<Cell>): seq<Field> {
    if cells == [] then [] else Fields(cells[..|cells| - 1]) + [FieldOf(cells[|cells| - 1])]
  }

  lemma {:induction false} TokensLast(cells: seq<Cell>)
    requires cells != []
    ensures Tokens(cells) == Tokens(cells[..|cells| - 1]) + [Token(cells[|cells| - 1])]
  {
    if |cells| > 1 {
      var n := |cells| - 1;
      TokensLast(cells[1..]);
      assert cells[1..][..n - 1] == cells[..n][1..];
    } else {
      assert Tokens(cells[1..]) == [];
    }
  }

  lemma {:induction false} FieldsHaveKeys(cells: seq<Cell>, key: string)
    ensures HasKey(Fields(cells), key) <==> exists c <- cells :: c.key == key
  {
    if cells != [] {
      var n := |cells| - 1;
      FieldsHaveKeys(cells[..n], key);
      assert cells == cells[..n] + [cells[n]];
    }
  }

  lemma {:induction false} FieldsReadBack(cells: seq<Cell>)
    requires DistinctKeys(cells) && forall c <- cells :: CellOk(c)
    ensures FieldsOf(Tokens(cells)) == Some(Fields(cells))
  {
    hide ReadField, CellOk;
    if cells != [] {
      var n := |cells| - 1;
      TokensLast(cells);
      var ts := Tokens(cells);
      assert ts[..|ts| - 1] == Tokens(cells[..n]);
      assert cells[n] in cells;
      TokenReadsBack(cells[n]);
      FieldsReadBack(cells[..n]);
      FieldsHaveKeys(cells[..n], cells[n].key);
    }
  }

  lemma {:induction false} TimingsReadBack(cells: seq<Cell>)
    requires forall c <- cells :: CellOk(c)
    ensures TimingsOf(Fields(cells)) == GoodTimings(Timed(cells))
  {
    hide Decimal;
    if cells != [] {
      var n := |cells| - 1;
      var c := cells[n];
      assert c in cells && CellOk(c);
      TimingsReadBack(cells[..n]);
      assert Fields(cells)[..|Fields(cells)| - 1] == Fields(cells[..n]);
      if c.Micros? {
        DecimalReadsBack(c.n);
        TimingFits(c.n);
      }
    }
  }

  lemma {:induction false} FieldsFront(cells: seq<Cell>)
    requires cells != []
    ensures Fields(cells) == [FieldOf(cells[0])] + Fields(cells[1..])
  {
    var n := |cells| - 1;
    if n > 0 {
      FieldsFront(cells[..n]);
      assert cells[..n][1..] == cells[1..][..n - 1];
      assert Fields(cells) == [FieldOf(cells[0])] + (Fields(cells[1..][..n - 1]) + [FieldOf(cells[n])]);
    } else {
      assert Fields(cells[..0]) == [] && Fields(cells[1..]) == [];
    }
  }

  lemma {:induction false} LookupReadsBack(cells: seq<Cell>, key: string)
    requires exists c <- cells :: c.key == key
    ensures Lookup(Fields(cells), key) == Some(TextOf(cells, key))
  {
    FieldsFront(cells);
    assert Fields(cells)[1..] == Fields(cells[1..]);
    if cells[0].key != key {
      LookupReadsBack(cells[1..], key);
    }
  }

  lemma {:induction false} TextIs(cells: seq<Cell>, c: Cell)
    requires DistinctKeys(cells) && c in cells
    ensures TextOf(cells, c.key) == Shown(c)
  {
    if cells[0] != c {
      assert c in cells[1..];
      var i :| 0 <= i < |cells[1..]| && cells[1..][i] == c;
      assert cells[i + 1] == c;
      TextIs(cells[1..], c);
    }
  }

  /** A well-formed record is accepted and says what was written. */
  lemma RecordReadsBack(cells: seq<Cell>)
    requires WellFormed(cells)
    ensures ParseRecord(Printed(cells)) == Good(Meaning(cells))
  {
    hide FieldsOf, TimingsOf, Lookup, Split, StripEol, Joined, CellOk, Fields, Timed, TextOf;
    PrintedLine(cells);
    SplitJoined(cells);
    FieldsReadBack(cells);
    TimingsReadBack(cells);
    LookupReadsBack(cells, OPERATION);
    LookupReadsBack(cells, OUTCOME);
    LookupReadsBack(cells, TOTAL);
    var c :| c in cells && c.Word? && c.key == OUTCOME && c.text in {"true", "false"};
    TextIs(cells, c);
  }

  // ----- files ------------------------------------------------------------------------

  function PrintedAll(records: seq<seq<Cell>>): seq<string> {
    if records == [] then [] else PrintedAll(records[..|records| - 1]) + [Printed(records[|records| - 1])]
  }

  function Meanings(records: seq<seq<Cell>>): seq<Record> {
    if records == [] then [] else Meanings(records[..|records| - 1]) + [Meaning(records[|records| - 1])]
  }

  lemma {:induction false} MeaningsLength(records: seq<seq<Cell>>)
    ensures |Meanings(records)| == |records|
  {
    if records != [] {
      MeaningsLength(records[..|records| - 1]);
    }
  }

  /** A file of well-formed records, up to the limit, is read back record by record. */
  lemma {:induction false} FileReadsBack(records: seq<seq<Cell>>, limit: nat)
    requires (forall r <- records :: WellFormed(r)) && |records| <= limit
    ensures ReadAll(PrintedAll(records), limit) == Read(Meanings(records))
  {
    hide WellFormed, ParseRecord, Printed, IsBlank, Meaning;
    if records != [] {
      var n := |records| - 1;
      var r := records[n];
      assert r in records;
      FileReadsBack(records[..n], limit);
      MeaningsLength(records[..n]);
      assert PrintedAll(records)[..|PrintedAll(records)| - 1] == PrintedAll(records[..n]);
      RecordReadsBack(r);
      assert EndsWith(Printed(r), "\n") && !IsBlank(Printed(r)) by {
        CellsOk(r);
        PrintedLine(r);
      }
    }
  }

  lemma CellsOk(r: seq<Cell>)
    requires WellFormed(r)
    ensures r != [] && forall c <- r :: CellOk(c)
  {
  }

  /** So the summary of such a file is the summary of what its records say. */
  lemma SummaryOfPrinted(records: seq<seq<Cell>>, limit: nat)
    requires records != [] && (forall r <- records :: WellFormed(r)) && |records| <= limit
    ensures TotalOrder(GroupLeq)
    ensures Summarized(PrintedAll(records), limit) ==
            (var groups := GroupsOf(Meanings(records));
             Report(|records|, OperationList(Listing(groups.Keys, GroupLeq), groups)))
  {
    hide GroupsOf, OperationList, GroupLeq, ReadAll, PrintedAll, WellFormed;
    GroupOrder();
    FileReadsBack(records, limit);
    MeaningsLength(records);
  }
}

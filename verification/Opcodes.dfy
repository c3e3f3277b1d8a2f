/**
The numbering of `generate_sblr_opcodes`: rows whose name mentions a lifecycle are
numbered from 0x1400 by the database-management rows before them, all other rows
from 0x1000 by one running counter.  Upper-casing is a parameter.
 */
module Opcodes {
  import opened Text
  import opened Ordering

  datatype Family =
    | DatabaseManagement | ClusterManagement | ReplicationConsumer | Security | Transaction | StorageManagement
    | Observability | Agents | Query | General | ReferencePrivate

  datatype Entry = Entry(name: string, code: nat, family: Family)

  const FIRST_CODE := 0x1000
  const FIRST_LIFECYCLE_CODE := 0x1400
  const GENERAL_CODES := 0x400

  /** The name test, which chooses the counter. */
  predicate Named(name: string) {
    Contains(name, "LIFECYCLE")
  }

  /** `family_for_sblr_operation`. */
  function FamilyFor(name: string, upper: string -> string): Family {
    var value := upper(name);
    if Contains(value, "_LIFECYCLE_") then DatabaseManagement
    else if Contains(value, "_CLUSTER_") then ClusterManagement
    else if Contains(value, "_REPLICATION_") then ReplicationConsumer
    else if Contains(value, "_SECURITY_") || Contains(value, "_AUTH_") || Contains(value, "_GRANT") then Security
    else if Contains(value, "_TRANSACTION_") || Contains(value, "_TXN_") then Transaction
    else if Contains(value, "_STORAGE_") || Contains(value, "_FILESPACE_") then StorageManagement
    else if Contains(value, "_OBSERVABILITY_") || Contains(value, "_METRICS_") then Observability
    else if Contains(value, "_AGENT_") || StartsWith(value, "SBLR_AGENT") then Agents
    else if Contains(value, "_QUERY_") then Query
    else General
  }

  /** The family test, which advances the lifecycle numbers. */
  predicate Managed(name: string, upper: string -> string) {
    FamilyFor(name, upper) == DatabaseManagement
  }

  function ManagedCount(names: seq<string>, upper: string -> string): nat {
    if names == [] then 0
    else ManagedCount(names[..|names| - 1], upper) + if Managed(names[|names| - 1], upper) then 1 else 0
  }

  function OtherCount(names: seq<string>): nat {
    if names == [] then 0
    else OtherCount(names[..|names| - 1]) + if Named(names[|names| - 1]) then 0 else 1
  }

  /** The number of row `k`; rows from the end of `names` on are the extra ones. */
  function CodeAt(names: seq<string>, k: nat, upper: string -> string): nat {
    if k >= |names| then FIRST_CODE + OtherCount(names) + (k - |names|)
    else if Named(names[k]) then FIRST_LIFECYCLE_CODE + ManagedCount(names[..k], upper)
    else FIRST_CODE + OtherCount(names[..k])
  }

  /** The loops over the engine's operations and over the extra names. */
  method Generate(names: seq<string>, tokens: set<string>, upper: string -> string) returns (entries: seq<Entry>)
    ensures |names| <= |entries| && forall k :: 0 <= k < |names| ==> entries[k].name == names[k]
    ensures forall k :: 0 <= k < |names| ==> entries[k].family == FamilyFor(names[k], upper)
    ensures forall k :: |names| <= k < |entries| ==> entries[k].family == ExtraFamily(entries[k].name)
    ensures Lists(NamesOf(entries[|names|..]), tokens - (set n | n in names), StringLeq)
    ensures forall k :: 0 <= k < |entries| ==> entries[k].code == CodeAt(names, k, upper)
    ensures (forall i, j :: 0 <= i < j < |entries| ==> entries[i].code != entries[j].code) <==>
            Separated(names, upper) && RoomBelow(names, |entries|, upper)
  {
    hide StringLeq, Named, FamilyFor, ExtraFamily, Separated, RoomBelow;
    entries := [];
    var code, managed := FIRST_CODE, 0;
    for k := 0 to |names|
      invariant |entries| == k && code == FIRST_CODE + OtherCount(names[..k])
      invariant managed == ManagedCount(names[..k], upper)
      invariant forall i :: 0 <= i < k ==>
                  entries[i] == Entry(names[i], CodeAt(names, i, upper), FamilyFor(names[i], upper))
    {
      assert names[..k + 1][..k] == names[..k];
      var numeric := code;
      if Named(names[k]) {
        numeric := FIRST_LIFECYCLE_CODE + managed;
      } else {
        code := code + 1;
      }
      var family := FamilyFor(names[k], upper);
      entries := entries + [Entry(names[k], numeric, family)];
      if family == DatabaseManagement {
        managed := managed + 1;
      }
    }
    assert names[..|names|] == names;
    StringOrder();
    var extra := SortSet(tokens - (set n | n in names), StringLeq);
    entries := AddExtra(names, entries, extra, code, upper);
    DistinctIff(names, |entries|, upper);
    CodesDistinct(names, entries, upper);
  }

  lemma CodesDistinct(names: seq<string>, entries: seq<Entry>, upper: string -> string)
    requires forall k :: 0 <= k < |entries| ==> entries[k].code == CodeAt(names, k, upper)
    ensures (forall i, j :: 0 <= i < j < |entries| ==> entries[i].code != entries[j].code) <==>
            DistinctCodes(names, |entries|, upper)
  {
    hide CodeAt;
    if forall i, j :: 0 <= i < j < |entries| ==> entries[i].code != entries[j].code {
      forall i: nat, j: nat | i < j < |entries|
        ensures CodeAt(names, i, upper) != CodeAt(names, j, upper)
      {
        assert entries[i].code != entries[j].code;
      }
    }
    if DistinctCodes(names, |entries|, upper) {
      forall i, j | 0 <= i < j < |entries|
        ensures entries[i].code != entries[j].code
      {
        assert CodeAt(names, i, upper) != CodeAt(names, j, upper);
      }
    }
  }

  method AddExtra(names: seq<string>, entries0: seq<Entry>, extra: seq<string>, code0: nat, upper: string -> string)
    returns (entries: seq<Entry>)
    requires |entries0| == |names| && code0 == FIRST_CODE + OtherCount(names)
    requires forall i :: 0 <= i < |names| ==> entries0[i].code == CodeAt(names, i, upper)
    ensures |entries| == |names| + |extra| && entries[..|names|] == entries0
    ensures NamesOf(entries[|names|..]) == extra
    ensures forall i :: |names| <= i < |entries| ==> entries[i].family == ExtraFamily(entries[i].name)
    ensures forall i :: 0 <= i < |entries| ==> entries[i].code == CodeAt(names, i, upper)
  {
    entries := entries0;
    var code := code0;
    for k := 0 to |extra|
      invariant |entries| == |names| + k && entries[..|names|] == entries0
      invariant code == code0 + k
      invariant NamesOf(entries[|names|..]) == extra[..k]
      invariant forall i :: |names| <= i < |entries| ==> entries[i].family == ExtraFamily(entries[i].name)
      invariant forall i :: 0 <= i < |entries| ==> entries[i].code == CodeAt(names, i, upper)
    {
      ghost var before := entries;
      entries := entries + [Entry(extra[k], code, ExtraFamily(extra[k]))];
      code := code + 1;
      assert entries[|names|..] == before[|names|..] + [entries[|names| + k]];
      assert extra[..k + 1] == extra[..k] + [extra[k]];
    }
    assert extra[..|extra|] == extra;
  }

  function ExtraFamily(name: string): Family {
    if Contains(name, "REFERENCE_TIKV") then ReferencePrivate else General
  }

  function NamesOf(entries: seq<Entry>): seq<string> {
    seq(|entries|, k requires 0 <= k < |entries| => entries[k].name)
  }

  // ----- when the numbers are distinct -----------------------------------------------

  /** Row `k` is numbered by the running counter. */
  predicate IsOther(names: seq<string>, k: nat) {
    k >= |names| || !Named(names[k])
  }

  /** How many such rows come before row `k`. */
  function OthersBefore(names: seq<string>, k: nat): nat {
    if k >= |names| then OtherCount(names) + (k - |names|) else OtherCount(names[..k])
  }

  ghost predicate DistinctCodes(names: seq<string>, total: nat, upper: string -> string) {
    forall i: nat, j: nat :: i < j < total ==> CodeAt(names, i, upper) != CodeAt(names, j, upper)
  }

  /** From each lifecycle-named row up to the next there is a row of the database-management family. */
  ghost predicate Separated(names: seq<string>, upper: string -> string) {
    forall i, j :: 0 <= i < j < |names| && Named(names[i]) && Named(names[j]) ==>
      exists k :: i <= k < j && Managed(names[k], upper)
  }

  /** The running counter stops before the number of every lifecycle-named row. */
  ghost predicate RoomBelow(names: seq<string>, total: nat, upper: string -> string) {
    forall i :: 0 <= i < |names| && Named(names[i]) ==>
      OthersBefore(names, total) <= GENERAL_CODES + ManagedCount(names[..i], upper)
  }

  lemma {:induction false} OthersBeforeStep(names: seq<string>, k: nat)
    ensures OthersBefore(names, k + 1) == OthersBefore(names, k) + if IsOther(names, k) then 1 else 0
  {
    hide Named;
    if k < |names| {
      assert names[..k + 1][..k] == names[..k];
      if k + 1 == |names| {
        assert names[..k + 1] == names;
      }
    }
  }

  lemma {:induction false} OthersBeforeGrows(names: seq<string>, i: nat, j: nat)
    requires i < j
    ensures OthersBefore(names, i) + (if IsOther(names, i) then 1 else 0) <= OthersBefore(names, j)
    decreases j
  {
    hide OthersBefore, IsOther;
    OthersBeforeStep(names, j - 1);
    if i < j - 1 {
      OthersBeforeGrows(names, i, j - 1);
    }
  }

  /** Every number below the counter's final value is some row's. */
  lemma {:induction false} CounterReaches(names: seq<string>, total: nat, q: nat) returns (k: nat)
    requires total > 0 && q < OthersBefore(names, total)
    ensures k < total && IsOther(names, k) && OthersBefore(names, k) == q
    decreases total
  {
    hide Named;
    OthersBeforeStep(names, total - 1);
    assert names[..0] == [];
    if total > 1 && q < OthersBefore(names, total - 1) {
      k := CounterReaches(names, total - 1, q);
    } else {
      k := total - 1;
    }
  }

  lemma {:induction false} ManagedGrows(names: seq<string>, i: nat, j: nat, upper: string -> string)
    requires i <= j <= |names|
    ensures ManagedCount(names[..i], upper) <= ManagedCount(names[..j], upper)
    ensures ManagedCount(names[..i], upper) < ManagedCount(names[..j], upper) <==>
            exists k :: i <= k < j && Managed(names[k], upper)
    decreases j
  {
    hide Managed;
    if i < j {
      assert names[..j][..j - 1] == names[..j - 1];
      ManagedGrows(names, i, j - 1, upper);
    }
  }

  lemma CodeOfOther(names: seq<string>, k: nat, upper: string -> string)
    requires IsOther(names, k)
    ensures CodeAt(names, k, upper) == FIRST_CODE + OthersBefore(names, k)
  {
  }

  lemma SeparatedNumbers(names: seq<string>, i: nat, j: nat, upper: string -> string)
    requires i < j < |names| && Named(names[i]) && Named(names[j])
    ensures CodeAt(names, i, upper) != CodeAt(names, j, upper) <==> exists k :: i <= k < j && Managed(names[k], upper)
  {
    hide Named, Managed;
    ManagedGrows(names, i, j, upper);
  }

  lemma MixedNumbers(names: seq<string>, i: nat, k: nat, total: nat, upper: string -> string)
    requires i < |names| && Named(names[i]) && IsOther(names, k) && k < total
    requires OthersBefore(names, total) <= GENERAL_CODES + ManagedCount(names[..i], upper)
    ensures CodeAt(names, i, upper) != CodeAt(names, k, upper)
  {
    hide Named, OthersBefore;
    CodeOfOther(names, k, upper);
    OthersBeforeGrows(names, k, total);
  }

  lemma EnoughForDistinct(names: seq<string>, total: nat, upper: string -> string)
    requires |names| <= total && Separated(names, upper) && RoomBelow(names, total, upper)
    ensures DistinctCodes(names, total, upper)
  {
    hide CodeAt, Named, OthersBefore;
    forall i: nat, j: nat | i < j < total
      ensures CodeAt(names, i, upper) != CodeAt(names, j, upper)
    {
      if IsOther(names, i) && IsOther(names, j) {
        CodeOfOther(names, i, upper);
        CodeOfOther(names, j, upper);
        OthersBeforeGrows(names, i, j);
      } else if IsOther(names, j) {
        MixedNumbers(names, i, j, total, upper);
      } else if IsOther(names, i) {
        MixedNumbers(names, j, i, total, upper);
      } else {
        SeparatedNumbers(names, i, j, upper);
      }
    }
  }

  lemma NeededForDistinct(names: seq<string>, total: nat, upper: string -> string)
    requires |names| <= total && DistinctCodes(names, total, upper)
    ensures Separated(names, upper) && RoomBelow(names, total, upper)
  {
    hide CodeAt, Named, OthersBefore, Managed;
    forall i, j | 0 <= i < j < |names| && Named(names[i]) && Named(names[j])
      ensures exists k :: i <= k < j && Managed(names[k], upper)
    {
      SeparatedNumbers(names, i, j, upper);
    }
    forall i | 0 <= i < |names| && Named(names[i])
      ensures OthersBefore(names, total) <= GENERAL_CODES + ManagedCount(names[..i], upper)
    {
      RoomNeeded(names, total, i, upper);
    }
  }

  lemma RoomNeeded(names: seq<string>, total: nat, i: nat, upper: string -> string)
    requires |names| <= total && DistinctCodes(names, total, upper) && i < |names| && Named(names[i])
    ensures OthersBefore(names, total) <= GENERAL_CODES + ManagedCount(names[..i], upper)
  {
    hide Named, OthersBefore, CodeAt;
    if GENERAL_CODES + ManagedCount(names[..i], upper) < OthersBefore(names, total) {
      var k := Clash(names, total, i, upper);
    }
  }

  /** Without room, the counter runs into the lifecycle row's number. */
  lemma Clash(names: seq<string>, total: nat, i: nat, upper: string -> string) returns (k: nat)
    requires i < |names| <= total && Named(names[i])
    requires GENERAL_CODES + ManagedCount(names[..i], upper) < OthersBefore(names, total)
    ensures k < total && k != i && CodeAt(names, k, upper) == CodeAt(names, i, upper)
  {
    hide OthersBefore;
    k := CounterReaches(names, total, GENERAL_CODES + ManagedCount(names[..i], upper));
    CodeOfOther(names, k, upper);
  }

  /** The exact condition for pairwise distinct numbers, whatever the names. */
  lemma DistinctIff(names: seq<string>, total: nat, upper: string -> string)
    requires |names| <= total
    ensures DistinctCodes(names, total, upper) <==> Separated(names, upper) && RoomBelow(names, total, upper)
  {
    hide DistinctCodes, Separated, RoomBelow;
    if DistinctCodes(names, total, upper) {
      NeededForDistinct(names, total, upper);
    } else if Separated(names, upper) && RoomBelow(names, total, upper) {
      EnoughForDistinct(names, total, upper);
    }
  }

  /**
  Where the two tests agree, the numbers are distinct iff there is no lifecycle row
  or no more than 0x400 other rows, extra ones included.
   */
  lemma DistinctWhenTestsAgree(names: seq<string>, total: nat, upper: string -> string)
    requires |names| <= total
    requires forall k :: 0 <= k < |names| ==> (Named(names[k]) <==> Managed(names[k], upper))
    ensures DistinctCodes(names, total, upper) <==>
            (forall k :: 0 <= k < |names| ==> !Named(names[k])) || OthersBefore(names, total) <= 0x400
  {
    hide DistinctCodes, OthersBefore, Named, Managed;
    DistinctIff(names, total, upper);
    assert Separated(names, upper);
    if exists k :: 0 <= k < |names| && Named(names[k]) {
      var k :| 0 <= k < |names| && Named(names[k]);
      var f := FirstNamed(names, k);
      NothingManaged(names[..f], upper);
    }
  }

  lemma {:induction false} FirstNamed(names: seq<string>, k: nat) returns (f: nat)
    requires k < |names| && Named(names[k])
    ensures f <= k && Named(names[f]) && forall i :: 0 <= i < f ==> !Named(names[i])
    decreases k
  {
    hide Named;
    if j :| 0 <= j < k && Named(names[j]) {
      f := FirstNamed(names, j);
    } else {
      f := k;
    }
  }

  lemma {:induction false} NothingManaged(names: seq<string>, upper: string -> string)
    requires forall k :: 0 <= k < |names| ==> !Managed(names[k], upper)
    ensures ManagedCount(names, upper) == 0
  {
    hide Managed;
    if names != [] {
      NothingManaged(names[..|names| - 1], upper);
    }
  }

  lemma LifecycleNames()
    ensures Named("LIFECYCLE_A") && Named("LIFECYCLE_B") && !Contains("LIFECYCLE_A", "_LIFECYCLE_")
  {
    assert "LIFECYCLE_A"[0..9] == "LIFECYCLE" && "LIFECYCLE_B"[0..9] == "LIFECYCLE";
    assert StartsAt("LIFECYCLE_A", "LIFECYCLE", 0) && StartsAt("LIFECYCLE_B", "LIFECYCLE", 0);
    assert "LIFECYCLE_A"[0] == 'L' && "_LIFECYCLE_"[0] == '_';
  }

  /** Two names that pass the name test and not the family test get one code. */
  lemma SharedCode(upper: string -> string)
    requires upper("LIFECYCLE_A") == "LIFECYCLE_A"
    ensures var names := ["LIFECYCLE_A", "LIFECYCLE_B"];
            CodeAt(names, 0, upper) == CodeAt(names, 1, upper) && !DistinctCodes(names, 2, upper)
  {
    hide Named, Contains, CodeAt, StartsWith;
    var names := ["LIFECYCLE_A", "LIFECYCLE_B"];
    LifecycleNames();
    SeparatedNumbers(names, 0, 1, upper);
    assert !Managed(names[0], upper);
  }

  // ----- families and codes in terms of the names --------------------------------------

  /** A rule gives a family to the names that hold a text, or start with it. */
  datatype Rule = Inside(text: string, family: Family) | Front(text: string, family: Family)

  ghost predicate Applies(rule: Rule, value: string) {
    match rule
    case Inside(text, _) => exists a, b :: value == a + text + b
    case Front(text, _) => exists b :: value == text + b
  }

  const RULES := [
    Inside("_LIFECYCLE_", DatabaseManagement), Inside("_CLUSTER_", ClusterManagement),
    Inside("_REPLICATION_", ReplicationConsumer), Inside("_SECURITY_", Security), Inside("_AUTH_", Security),
    Inside("_GRANT", Security), Inside("_TRANSACTION_", Transaction), Inside("_TXN_", Transaction),
    Inside("_STORAGE_", StorageManagement), Inside("_FILESPACE_", StorageManagement),
    Inside("_OBSERVABILITY_", Observability), Inside("_METRICS_", Observability), Inside("_AGENT_", Agents),
    Front("SBLR_AGENT", Agents), Inside("_QUERY_", Query)]

  ghost predicate FirstApplies(k: nat, value: string) {
    k < |RULES| && Applies(RULES[k], value) && forall j :: 0 <= j < k ==> !Applies(RULES[j], value)
  }

  ghost predicate FirstFires(k: nat, value: string) {
    k < |RULES| && Fires(RULES[k], value) && forall j :: 0 <= j < k ==> !Fires(RULES[j], value)
  }

  predicate Fires(rule: Rule, value: string) {
    match rule
    case Inside(text, _) => Contains(value, text)
    case Front(text, _) => StartsWith(value, text)
  }

  lemma FiresIff(rule: Rule, value: string)
    ensures Fires(rule, value) <==> Applies(rule, value)
  {
    ContainsIff(value, rule.text);
    StartsIff(value, rule.text);
  }

  /** An operation's family is that of the first rule that applies to its name, and general if none does. */
  lemma FamilyIsFirstRule(name: string, upper: string -> string)
    ensures forall k: nat :: FirstApplies(k, upper(name)) ==> FamilyFor(name, upper) == RULES[k].family
    ensures (forall k :: 0 <= k < |RULES| ==> !Applies(RULES[k], upper(name))) ==> FamilyFor(name, upper) == General
  {
    hide Contains, StartsWith, Applies;
    var value := upper(name);
    forall k | 0 <= k < |RULES|
      ensures Fires(RULES[k], value) <==> Applies(RULES[k], value)
    {
      FiresIff(RULES[k], value);
    }
    RulesFire(name, upper);
    hide RULES, Fires, FamilyFor;
    forall k: nat | FirstApplies(k, value)
      ensures FamilyFor(name, upper) == RULES[k].family
    {
      assert FirstFires(k, value);
    }
  }

  lemma RulesFire(name: string, upper: string -> string)
    ensures forall k: nat :: FirstFires(k, upper(name)) ==> FamilyFor(name, upper) == RULES[k].family
    ensures (forall k :: 0 <= k < |RULES| ==> !Fires(RULES[k], upper(name))) ==> FamilyFor(name, upper) == General
  {
    hide Contains, StartsWith;
    var v := upper(name);
    assert Fires(RULES[0], v) == Contains(v, "_LIFECYCLE_") && Fires(RULES[1], v) == Contains(v, "_CLUSTER_");
    assert Fires(RULES[2], v) == Contains(v, "_REPLICATION_") && Fires(RULES[3], v) == Contains(v, "_SECURITY_");
    assert Fires(RULES[4], v) == Contains(v, "_AUTH_") && Fires(RULES[5], v) == Contains(v, "_GRANT");
    assert Fires(RULES[6], v) == Contains(v, "_TRANSACTION_") && Fires(RULES[7], v) == Contains(v, "_TXN_");
    assert Fires(RULES[8], v) == Contains(v, "_STORAGE_") && Fires(RULES[9], v) == Contains(v, "_FILESPACE_");
    assert Fires(RULES[10], v) == Contains(v, "_OBSERVABILITY_") && Fires(RULES[11], v) == Contains(v, "_METRICS_");
    assert Fires(RULES[12], v) == Contains(v, "_AGENT_") && Fires(RULES[13], v) == StartsWith(v, "SBLR_AGENT");
    assert Fires(RULES[14], v) == Contains(v, "_QUERY_");
  }

  ghost predicate IsLifecycle(name: string) {
    exists a, b :: name == a + "LIFECYCLE" + b
  }

  ghost predicate IsManaged(name: string, upper: string -> string) {
    exists a, b :: upper(name) == a + "_LIFECYCLE_" + b
  }

  lemma TestsAre(name: string, upper: string -> string)
    ensures Named(name) <==> IsLifecycle(name)
    ensures Managed(name, upper) <==> IsManaged(name, upper)
  {
    ContainsIff(name, "LIFECYCLE");
    ContainsIff(upper(name), "_LIFECYCLE_");
    hide Contains, StartsWith;
  }

  /** The rows before row `k` that the running counter numbers, and those the lifecycle counter counts. */
  ghost function GeneralBefore(names: seq<string>, k: nat): set<nat> {
    set i: nat | i < k && i < |names| && !IsLifecycle(names[i])
  }

  ghost function ManagedBefore(names: seq<string>, k: nat, upper: string -> string): set<nat> {
    set i: nat | i < k && i < |names| && IsManaged(names[i], upper)
  }

  lemma GeneralNext(names: seq<string>, k: nat)
    requires k < |names|
    ensures GeneralBefore(names, k + 1) == GeneralBefore(names, k) + if IsLifecycle(names[k]) then {} else {k}
    ensures k !in GeneralBefore(names, k)
  {
    hide IsLifecycle;
  }

  lemma ManagedNext(names: seq<string>, k: nat, upper: string -> string)
    requires k < |names|
    ensures ManagedBefore(names, k + 1, upper) ==
            ManagedBefore(names, k, upper) + if IsManaged(names[k], upper) then {k} else {}
    ensures k !in ManagedBefore(names, k, upper)
  {
    hide IsManaged;
  }

  lemma NoneBefore(names: seq<string>, upper: string -> string)
    ensures GeneralBefore(names, 0) == {} && ManagedBefore(names, 0, upper) == {}
  {
    hide IsLifecycle, IsManaged;
  }

  lemma {:induction false} CountsAre(names: seq<string>, k: nat, upper: string -> string)
    requires k <= |names|
    ensures OtherCount(names[..k]) == |GeneralBefore(names, k)|
    ensures ManagedCount(names[..k], upper) == |ManagedBefore(names, k, upper)|
  {
    hide Named, Managed, IsLifecycle, IsManaged, GeneralBefore, ManagedBefore;
    if k == 0 {
      NoneBefore(names, upper);
    } else {
      CountsAre(names, k - 1, upper);
      TestsAre(names[k - 1], upper);
      assert names[..k][..k - 1] == names[..k - 1];
      GeneralNext(names, k - 1);
      ManagedNext(names, k - 1, upper);
    }
  }

  /**
  The code of a row: lifecycle rows are numbered from 0x1400 by the managed rows before them,
  the others, and after them the extra rows, from 0x1000 without a gap.
   */
  lemma CodesAre(names: seq<string>, k: nat, upper: string -> string)
    ensures k < |names| && IsLifecycle(names[k]) ==>
              CodeAt(names, k, upper) == 0x1400 + |ManagedBefore(names, k, upper)|
    ensures k < |names| && !IsLifecycle(names[k]) ==> CodeAt(names, k, upper) == 0x1000 + |GeneralBefore(names, k)|
    ensures k >= |names| ==>
              CodeAt(names, k, upper) == 0x1000 + |GeneralBefore(names, |names|)| + (k - |names|)
  {
    hide Named, Managed, IsLifecycle, IsManaged, GeneralBefore, ManagedBefore;
    if k < |names| {
      CountsAre(names, k, upper);
      TestsAre(names[k], upper);
    } else {
      CountsAre(names, |names|, upper);
      assert names[..|names|] == names;
    }
  }

  lemma ExtraFamilyIs(name: string)
    ensures ExtraFamily(name) == ReferencePrivate <==> exists a, b :: name == a + "REFERENCE_TIKV" + b
    ensures ExtraFamily(name) in {ReferencePrivate, General}
  {
    ContainsIff(name, "REFERENCE_TIKV");
  }
}

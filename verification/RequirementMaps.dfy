/**
Completeness of gates and slices in the proof gate: artifacts name the gates and
slices that need them, the names are turned into maps from a gate or slice to its
artifacts, and complete gates and slices are checked through the maps.  Reference
cells are taken as already split, statuses as already compared.
 */
module RequirementMaps {
  import opened Text
  import opened Ordering

  datatype Artifact = Artifact(id: string, gates: seq<string>, slices: seq<string>, status: string, path: string)

  /** A gate or a slice. */
  datatype Owner = Owner(id: string, complete: bool)

  datatype Kind = Gate | Slice
  datatype Error = Error(kind: Kind, owner: string, artifact: string)

  type Index = map<string, set<string>>

  function Names(a: Artifact, kind: Kind): seq<string> {
    if kind == Gate then a.gates else a.slices
  }

  /** The artifact names a gate, or a slice, as one that needs it. */
  predicate NeededBy(a: Artifact, kind: Kind, id: string) {
    match kind
    case Gate => id in a.gates
    case Slice => id in a.slices
  }

  function Get(m: Index, owner: string): set<string> {
    if owner in m then m[owner] else {}
  }

  /** The ids of the artifacts that name `owner`. */
  function Needed(rows: seq<Artifact>, kind: Kind, owner: string): set<string> {
    set a | a in rows && a.id != "" && NeededBy(a, kind, owner) :: a.id
  }

  /** The row that stands for an id: the last one. */
  function LastRow(rows: seq<Artifact>, id: string): Option<Artifact> {
    if rows == [] then None
    else
      var n := |rows| - 1;
      if rows[n].id == id then Some(rows[n]) else LastRow(rows[..n], id)
  }

  predicate Unavailable(rows: seq<Artifact>, id: string, available: Artifact -> bool) {
    var a := LastRow(rows, id);
    a.None? || !available(a.value)
  }

  // ----- the loops --------------------------------------------------------------

  method AddNames(m0: Index, names: seq<string>, id: string) returns (m: Index)
    ensures forall owner :: Get(m, owner) == Get(m0, owner) + if owner in names then {id} else {}
  {
    m := m0;
    for k := 0 to |names|
      invariant forall owner :: Get(m, owner) == Get(m0, owner) + if owner in names[..k] then {id} else {}
    {
      var before := m;
      m := m[names[k] := Get(m, names[k]) + {id}];
      forall owner
        ensures Get(m, owner) == Get(m0, owner) + if owner in names[..k + 1] then {id} else {}
      {
        assert names[..k + 1] == names[..k] + [names[k]];
        assert Get(before, owner) == Get(m0, owner) + if owner in names[..k] then {id} else {};
      }
    }
    assert names[..|names|] == names;
  }

  /** `required_artifact_maps`, for one of its two maps. */
  method BuildIndex(rows: seq<Artifact>, kind: Kind) returns (m: Index)
    ensures forall owner :: Get(m, owner) == Needed(rows, kind, owner)
  {
    m := map[];
    for k := 0 to |rows|
      invariant forall owner :: Get(m, owner) == Needed(rows[..k], kind, owner)
    {
      var before := m;
      if rows[k].id != "" {
        m := AddNames(m, Names(rows[k], kind), rows[k].id);
      }
      forall owner
        ensures Get(m, owner) == Needed(rows[..k + 1], kind, owner)
      {
        NeededNext(rows, k, kind, owner);
        assert Get(before, owner) == Needed(rows[..k], kind, owner);
      }
    }
    assert rows[..|rows|] == rows;
  }

  lemma NeededNext(rows: seq<Artifact>, k: nat, kind: Kind, owner: string)
    requires k < |rows|
    ensures Needed(rows[..k + 1], kind, owner) ==
            Needed(rows[..k], kind, owner) +
            if rows[k].id != "" && NeededBy(rows[k], kind, owner) then {rows[k].id} else {}
  {
    hide NeededBy;
    assert rows[..k + 1] == rows[..k] + [rows[k]];
  }

  /** `m` holds, for every id but the blank one, the row that stands for it. */
  ghost predicate Indexes(m: map<string, Artifact>, rows: seq<Artifact>) {
    forall id :: id != "" ==> (if id in m then Some(m[id]) else None) == LastRow(rows, id)
  }

  method BuildArtifacts(rows: seq<Artifact>) returns (m: map<string, Artifact>)
    ensures Indexes(m, rows)
  {
    m := map[];
    for k := 0 to |rows|
      invariant Indexes(m, rows[..k])
    {
      assert rows[..k + 1][..k] == rows[..k];
      if rows[k].id != "" {
        m := m[rows[k].id := rows[k]];
      }
    }
    assert rows[..|rows|] == rows;
  }

  lemma LookedUp(m: map<string, Artifact>, rows: seq<Artifact>, id: string, available: Artifact -> bool)
    requires Indexes(m, rows) && id != ""
    ensures Unavailable(rows, id, available) <==> id !in m || !available(m[id])
  {
    hide LastRow;
  }

  /** The complaints about one complete owner, in the order of `ids`. */
  function OwnerErrors(kind: Kind, owner: string, ids: seq<string>, rows: seq<Artifact>, available: Artifact -> bool)
    : seq<Error>
  {
    if ids == [] then []
    else
      var n := |ids| - 1;
      OwnerErrors(kind, owner, ids[..n], rows, available) +
      if Unavailable(rows, ids[n], available) then [Error(kind, owner, ids[n])] else []
  }

  /** The check of one complete owner: its artifacts in order of their ids. */
  method CheckOwner(kind: Kind, owner: string, ids: set<string>, artifacts: map<string, Artifact>,
                    available: Artifact -> bool, ghost rows: seq<Artifact>)
    returns (errors: seq<Error>)
    requires "" !in ids && Indexes(artifacts, rows)
    ensures TotalOrder(StringLeq) && errors == OwnerErrors(kind, owner, Listing(ids, StringLeq), rows, available)
  {
    hide StringLeq, Indexes, Unavailable, Sorted, TotalOrder;
    StringOrder();
    var sorted := SortSet(ids, StringLeq);
    ListingUnique(sorted, Listing(ids, StringLeq), ids, StringLeq);
    errors := [];
    for k := 0 to |sorted|
      invariant errors == OwnerErrors(kind, owner, sorted[..k], rows, available)
    {
      assert sorted[..k + 1][..k] == sorted[..k];
      assert sorted[k] in ids;
      LookedUp(artifacts, rows, sorted[k], available);
      if sorted[k] !in artifacts || !available(artifacts[sorted[k]]) {
        errors := errors + [Error(kind, owner, sorted[k])];
      }
    }
    assert sorted[..|sorted|] == sorted;
  }

  /** All complaints, owner by owner, each owner's artifacts in order of their ids. */
  ghost function Complaints(kind: Kind, owners: seq<Owner>, rows: seq<Artifact>, available: Artifact -> bool)
    : seq<Error>
    requires TotalOrder(StringLeq)
  {
    if owners == [] then []
    else
      var o := owners[|owners| - 1];
      Complaints(kind, owners[..|owners| - 1], rows, available) +
      if o.complete then OwnerErrors(kind, o.id, Listing(Needed(rows, kind, o.id), StringLeq), rows, available) else []
  }

  method CheckOwners(kind: Kind, owners: seq<Owner>, rows: seq<Artifact>, available: Artifact -> bool)
    returns (errors: seq<Error>)
    ensures TotalOrder(StringLeq) && errors == Complaints(kind, owners, rows, available)
  {
    hide Needed, Indexes, StringLeq, OwnerErrors;
    StringOrder();
    var index := BuildIndex(rows, kind);
    var artifacts := BuildArtifacts(rows);
    errors := [];
    for k := 0 to |owners|
      invariant errors == Complaints(kind, owners[..k], rows, available)
    {
      assert owners[..k + 1][..k] == owners[..k];
      if owners[k].complete {
        NeededNotBlank(rows, kind, owners[k].id);
        var more := CheckOwner(kind, owners[k].id, Get(index, owners[k].id), artifacts, available, rows);
        errors := errors + more;
      }
    }
    assert owners[..|owners|] == owners;
  }

  lemma NeededNotBlank(rows: seq<Artifact>, kind: Kind, owner: string)
    ensures "" !in Needed(rows, kind, owner)
  {
  }

  /** `validate_complete_rows`: the gates, then the slices. */
  method ValidateCompleteRows(slices: seq<Owner>, gates: seq<Owner>, rows: seq<Artifact>, available: Artifact -> bool)
    returns (errors: seq<Error>)
    ensures TotalOrder(StringLeq)
    ensures errors == Complaints(Gate, gates, rows, available) + Complaints(Slice, slices, rows, available)
    ensures errors == [] <==> EveryNeedMet(Gate, gates, rows, available) && EveryNeedMet(Slice, slices, rows, available)
    ensures NeededRowsStand(Gate, gates, rows) && NeededRowsStand(Slice, slices, rows) ==>
              (errors == [] <==> DirectScan(Gate, gates, rows, available) && DirectScan(Slice, slices, rows, available))
    ensures UniqueIds(rows) ==> NeededRowsStand(Gate, gates, rows) && NeededRowsStand(Slice, slices, rows)
  {
    hide Complaints, EveryNeedMet, DirectScan, UniqueIds, NeededRowsStand, StringLeq;
    var ofGates := CheckOwners(Gate, gates, rows, available);
    var ofSlices := CheckOwners(Slice, slices, rows, available);
    errors := ofGates + ofSlices;
    NoComplaintIff(Gate, gates, rows, available);
    NoComplaintIff(Slice, slices, rows, available);
    AgreeIff(Gate, gates, rows);
    AgreeIff(Slice, slices, rows);
    if UniqueIds(rows) {
      UniqueRowsStand(Gate, gates, rows);
      UniqueRowsStand(Slice, slices, rows);
    }
  }

  // ----- what the check decides ------------------------------------------------------

  /** An artifact that names a complete owner has, in the row that stands for its id, an available artifact. */
  ghost predicate EveryNeedMet(kind: Kind, owners: seq<Owner>, rows: seq<Artifact>, available: Artifact -> bool) {
    forall a <- rows, o <- owners ::
      a.id != "" && o.complete && NeededBy(a, kind, o.id) ==> !Unavailable(rows, a.id, available)
  }

  /** The same, asked of the naming artifact itself. */
  ghost predicate DirectScan(kind: Kind, owners: seq<Owner>, rows: seq<Artifact>, available: Artifact -> bool) {
    forall a <- rows, o <- owners ::
      a.id != "" && o.complete && NeededBy(a, kind, o.id) ==> available(a)
  }

  ghost predicate UniqueIds(rows: seq<Artifact>) {
    forall i, j :: 0 <= i < j < |rows| && rows[i].id != "" ==> rows[i].id != rows[j].id
  }

  ghost predicate Reported(e: Error, kind: Kind, owners: seq<Owner>, rows: seq<Artifact>, available: Artifact -> bool) {
    && e.kind == kind
    && Owner(e.owner, true) in owners
    && e.artifact in Needed(rows, kind, e.owner)
    && Unavailable(rows, e.artifact, available)
  }

  lemma {:induction false} OwnerErrorsAre(kind: Kind, owner: string, ids: seq<string>, rows: seq<Artifact>,
                                          available: Artifact -> bool, e: Error)
    ensures e in OwnerErrors(kind, owner, ids, rows, available) <==>
            e.kind == kind && e.owner == owner && e.artifact in ids && Unavailable(rows, e.artifact, available)
  {
    hide Unavailable;
    if ids != [] {
      var n := |ids| - 1;
      OwnerErrorsAre(kind, owner, ids[..n], rows, available, e);
      assert ids == ids[..n] + [ids[n]];
    }
  }

  /** Exactly the unavailable artifacts of complete owners are complained about. */
  lemma {:induction false} ComplaintsAre(kind: Kind, owners: seq<Owner>, rows: seq<Artifact>,
                                         available: Artifact -> bool, e: Error)
    requires TotalOrder(StringLeq)
    ensures e in Complaints(kind, owners, rows, available) <==> Reported(e, kind, owners, rows, available)
  {
    hide StringLeq, OwnerErrors, Unavailable, Needed;
    if owners != [] {
      var n := |owners| - 1;
      var o := owners[n];
      ComplaintsAre(kind, owners[..n], rows, available, e);
      assert owners == owners[..n] + [o];
      OwnerErrorsAre(kind, o.id, Listing(Needed(rows, kind, o.id), StringLeq), rows, available, e);
    }
  }

  lemma NoComplaintIff(kind: Kind, owners: seq<Owner>, rows: seq<Artifact>, available: Artifact -> bool)
    requires TotalOrder(StringLeq)
    ensures Complaints(kind, owners, rows, available) == [] <==> EveryNeedMet(kind, owners, rows, available)
  {
    hide StringLeq, Complaints;
    var errors := Complaints(kind, owners, rows, available);
    if errors == [] {
      forall a <- rows, o <- owners | a.id != "" && o.complete && NeededBy(a, kind, o.id)
        ensures !Unavailable(rows, a.id, available)
      {
        assert o == Owner(o.id, true);
        ComplaintsAre(kind, owners, rows, available, Error(kind, o.id, a.id));
      }
    } else {
      var e := errors[0];
      ComplaintsAre(kind, owners, rows, available, e);
      var a :| a in rows && a.id != "" && NeededBy(a, kind, e.owner) && a.id == e.artifact;
      assert Owner(e.owner, true) in owners;
    }
  }

  lemma {:induction false} UniqueRow(rows: seq<Artifact>, a: Artifact)
    requires UniqueIds(rows) && a in rows && a.id != ""
    ensures LastRow(rows, a.id) == Some(a)
  {
    var n := |rows| - 1;
    var i :| 0 <= i < |rows| && rows[i] == a;
    if i < n {
      assert rows[..n][i] == a;
      UniqueRow(rows[..n], a);
    }
  }

  predicate NamesComplete(a: Artifact, kind: Kind, owners: seq<Owner>) {
    a.id != "" && exists o <- owners :: o.complete && NeededBy(a, kind, o.id)
  }

  /** Every row that names a complete owner is the row that stands for its id. */
  ghost predicate NeededRowsStand(kind: Kind, owners: seq<Owner>, rows: seq<Artifact>) {
    forall a <- rows :: NamesComplete(a, kind, owners) ==> LastRow(rows, a.id) == Some(a)
  }

  lemma {:induction false} LastRowHasId(rows: seq<Artifact>, id: string)
    ensures LastRow(rows, id).Some? ==> LastRow(rows, id).value.id == id
    ensures LastRow(rows, id).None? ==> forall a <- rows :: a.id != id
  {
    if rows != [] {
      var n := |rows| - 1;
      LastRowHasId(rows[..n], id);
      assert rows == rows[..n] + [rows[n]];
    }
  }

  /** A needed row that does not stand for its id is missed when it alone is unavailable. */
  lemma HiddenRow(kind: Kind, owners: seq<Owner>, rows: seq<Artifact>, a: Artifact)
    requires a in rows && NamesComplete(a, kind, owners) && LastRow(rows, a.id) != Some(a)
    ensures EveryNeedMet(kind, owners, rows, x => x != a) && !DirectScan(kind, owners, rows, x => x != a)
  {
    hide LastRow;
    forall b <- rows
      ensures !Unavailable(rows, b.id, x => x != a)
    {
      LastRowHasId(rows, b.id);
    }
  }

  /** Maps and direct scan agree, whatever is available, iff every needed row stands for its id. */
  lemma AgreeIff(kind: Kind, owners: seq<Owner>, rows: seq<Artifact>)
    ensures (forall available: Artifact -> bool ::
               EveryNeedMet(kind, owners, rows, available) <==> DirectScan(kind, owners, rows, available)) <==>
            NeededRowsStand(kind, owners, rows)
  {
    hide LastRow;
    if NeededRowsStand(kind, owners, rows) {
      forall available: Artifact -> bool
        ensures EveryNeedMet(kind, owners, rows, available) <==> DirectScan(kind, owners, rows, available)
      {
        StandingRowsAgree(kind, owners, rows, available);
      }
    } else {
      var a :| a in rows && NamesComplete(a, kind, owners) && LastRow(rows, a.id) != Some(a);
      HiddenRow(kind, owners, rows, a);
    }
  }

  lemma StandingRowsAgree(kind: Kind, owners: seq<Owner>, rows: seq<Artifact>, available: Artifact -> bool)
    requires NeededRowsStand(kind, owners, rows)
    ensures EveryNeedMet(kind, owners, rows, available) <==> DirectScan(kind, owners, rows, available)
  {
    hide LastRow;
    forall a <- rows, o <- owners | a.id != "" && o.complete && NeededBy(a, kind, o.id)
      ensures Unavailable(rows, a.id, available) <==> !available(a)
    {
      assert NamesComplete(a, kind, owners);
    }
  }

  lemma UniqueRowsStand(kind: Kind, owners: seq<Owner>, rows: seq<Artifact>)
    requires UniqueIds(rows)
    ensures NeededRowsStand(kind, owners, rows)
  {
    hide UniqueIds, LastRow;
    forall a <- rows | a.id != ""
      ensures LastRow(rows, a.id) == Some(a)
    {
      UniqueRow(rows, a);
    }
  }

  lemma MetIffScanned(kind: Kind, owners: seq<Owner>, rows: seq<Artifact>, available: Artifact -> bool)
    requires UniqueIds(rows)
    ensures EveryNeedMet(kind, owners, rows, available) <==> DirectScan(kind, owners, rows, available)
  {
    hide UniqueIds, NeededRowsStand, EveryNeedMet, DirectScan;
    UniqueRowsStand(kind, owners, rows);
    AgreeIff(kind, owners, rows);
  }

  /** Without unique ids the two differ: here an unavailable artifact hides behind a later row of the same id. */
  lemma RepeatedIdHides(gate: string, a: Artifact, b: Artifact, available: Artifact -> bool)
    requires a.id == b.id != "" && a.gates == [gate] && b.gates == [] && !available(a) && available(b)
    ensures EveryNeedMet(Gate, [Owner(gate, true)], [a, b], available)
    ensures !DirectScan(Gate, [Owner(gate, true)], [a, b], available)
  {
    assert LastRow([a, b], a.id) == Some(b);
    assert a in [a, b] && Owner(gate, true) in [Owner(gate, true)];
    assert NeededBy(a, Gate, gate);
  }

  /** The row that stands for an id is the last one with it. */
  lemma {:induction false} LastRowIs(rows: seq<Artifact>, id: string, k: nat)
    requires k < |rows| && rows[k].id == id && forall j :: k < j < |rows| ==> rows[j].id != id
    ensures LastRow(rows, id) == Some(rows[k])
  {
    if k < |rows| - 1 {
      LastRowIs(rows[..|rows| - 1], id, k);
    }
  }
}

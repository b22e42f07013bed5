/**
 The index of a contract against the committed catalog table, and the numbering of the
 physical version-2 index.
 */
module BundleIndex {
  import opened Common
  import opened BundleModel
  import opened BundlePaths

  // ---- the catalog index ----

  function FirstNamed(fields: seq<Field>, name: string): (r: Option<Field>)
    ensures r.Some? ==> r.value in fields && r.value.column == name
    ensures r.None? ==> forall i :: 0 <= i < |fields| ==> fields[i].column != name
  {
    FindFirst(fields, (f: Field) => f.column == name)
  }

  ghost predicate Unrepeated(fields: seq<Field>, k: nat)
    requires k < |fields|
  {
    forall i :: 0 <= i < k ==> fields[i].column != fields[k].column && fields[i].fieldId != fields[k].fieldId
  }

  predicate FieldFine(f: Field, actual: seq<Field>) {
    IsName(f.column) && IsSafeInteger(f.fieldId) && f.fieldId >= 1 && FirstNamed(actual, f.column) == Some(f)
  }

  ghost predicate Named(fields: seq<Field>, name: string) {
    exists i :: 0 <= i < |fields| && fields[i].column == name
  }

  /** Contract index and catalog table agree field by field, without duplicates on either side. */
  ghost predicate IndexOk(fields: seq<Field>, actual: seq<Field>) {
    && actual != []
    && (forall k :: 0 <= k < |fields| ==> FieldFine(fields[k], actual) && Unrepeated(fields, k))
    && (forall k :: 0 <= k < |actual| ==> Named(fields, actual[k].column) && Unrepeated(actual, k))
  }

  /** `names` and `ids` are what the first `k` fields use. */
  ghost predicate Seen(fields: seq<Field>, k: nat, names: set<string>, ids: set<int>) {
    && k <= |fields|
    && (forall n :: n in names <==> exists i :: 0 <= i < k && fields[i].column == n)
    && (forall d :: d in ids <==> exists i :: 0 <= i < k && fields[i].fieldId == d)
  }

  method CheckExpected(fields: seq<Field>, actual: seq<Field>) returns (problems: seq<Problem>, names: set<string>)
    ensures forall n :: n in names <==> Named(fields, n)
    ensures problems == [] <==> forall k :: 0 <= k < |fields| ==> FieldFine(fields[k], actual) && Unrepeated(fields, k)
  {
    problems, names := [], {};
    var ids: set<int> := {};
    for k := 0 to |fields|
      invariant Seen(fields, k, names, ids)
      invariant problems == [] <==> forall j :: 0 <= j < k ==> FieldFine(fields[j], actual) && Unrepeated(fields, j)
    {
      var f := fields[k];
      var invalid := !IsName(f.column) || !IsSafeInteger(f.fieldId)
          || f.fieldId < 1 || f.column in names || f.fieldId in ids;
      var mismatch := FirstNamed(actual, f.column) != Some(f);
      assert FieldFine(f, actual) && Unrepeated(fields, k) <==> !invalid && !mismatch;
      names, ids := names + {f.column}, ids + {f.fieldId};
      problems := problems + (if invalid then [BadField] else []) + (if mismatch then [FieldMismatch] else []);
    }
  }

  method CheckActual(actual: seq<Field>, expected: set<string>) returns (problems: seq<Problem>)
    ensures problems == [] <==> forall k :: 0 <= k < |actual| ==> actual[k].column in expected && Unrepeated(actual, k)
  {
    problems := [];
    var names: set<string>, ids: set<int> := {}, {};
    for k := 0 to |actual|
      invariant Seen(actual, k, names, ids)
      invariant problems == [] <==> forall j :: 0 <= j < k ==> actual[j].column in expected && Unrepeated(actual, j)
    {
      var f := actual[k];
      var unmapped, duplicate := f.column !in expected, f.column in names || f.fieldId in ids;
      names, ids := names + {f.column}, ids + {f.fieldId};
      problems := problems + (if unmapped then [UnmappedField] else []) + (if duplicate then [DuplicateField] else []);
    }
  }

  method CheckIndex(fields: seq<Field>, actual: seq<Field>) returns (problems: seq<Problem>)
    ensures problems == [] <==> IndexOk(fields, actual)
  {
    var absent: seq<Problem> := if actual == [] then [AbsentIndex] else [];
    var expected, names := CheckExpected(fields, actual);
    var found := CheckActual(actual, names);
    problems := absent + expected + found;
  }

  lemma SameName(fields: seq<Field>, i: nat, j: nat)
    requires forall k :: 0 <= k < |fields| ==> Unrepeated(fields, k)
    requires i < |fields| && j < |fields|
    requires fields[i].column == fields[j].column || fields[i].fieldId == fields[j].fieldId
    ensures i == j
  {
    assert Unrepeated(fields, i) && Unrepeated(fields, j);
  }

  lemma DistinctFields(fields: seq<Field>)
    requires forall k :: 0 <= k < |fields| ==> Unrepeated(fields, k)
    ensures Distinct(fields)
  {
    forall i, j | 0 <= i < j < |fields| ensures fields[i] != fields[j] {
      assert Unrepeated(fields, j);
    }
  }

  /** Field by field the catalog is the contract: same fields, none twice. */
  lemma CatalogEqualsContract(fields: seq<Field>, actual: seq<Field>)
    requires IndexOk(fields, actual)
    ensures Elements(fields) == Elements(actual) && |fields| == |actual|
    ensures Distinct(fields) && Distinct(actual)
  {
    forall f | f in fields ensures f in actual {
      var k :| 0 <= k < |fields| && fields[k] == f;
      assert FieldFine(fields[k], actual);
    }
    forall f | f in actual ensures f in fields {
      var k :| 0 <= k < |actual| && actual[k] == f;
      assert Named(fields, actual[k].column);
      var j :| 0 <= j < |fields| && fields[j].column == f.column;
      assert FieldFine(fields[j], actual);
      var l :| 0 <= l < |actual| && actual[l] == fields[j];
      SameName(actual, k, l);
    }
    assert Elements(fields) == Elements(actual);
    DistinctFields(fields);
    DistinctFields(actual);
    DistinctCardinality(fields);
    DistinctCardinality(actual);
  }

  // ---- the physical index ----

  const LOOKUPS: seq<string> := ["lookup_kind", "lookup_key"]

  predicate IsLookup(fields: seq<Field>, position: nat)
    requires position < 2
  {
    exists k :: 0 <= k < |fields| && fields[k].column == LOOKUPS[position] && fields[k].fieldId == position + 28
                && fields[k].typ == "string" && fields[k].required
  }

  predicate V2Fits(fields: seq<Field>) {
    && |fields| == 29
    && (forall k :: 0 <= k < |fields| ==> fields[k].column in LOOKUPS || 1 <= fields[k].fieldId <= 27)
    && IsLookup(fields, 0) && IsLookup(fields, 1)
  }

  predicate PhysicalOk(contract: Contract) {
    var v := if contract.physicalVersion.Some? then contract.physicalVersion.value else 1;
    if v == 2 then V2Fits(contract.fields)
    else v == 1 && forall k :: 0 <= k < |contract.fields| ==> contract.fields[k].column !in LOOKUPS
  }

  function CheckPhysical(contract: Contract): (problems: seq<Problem>)
    ensures problems == [] <==> PhysicalOk(contract)
  {
    var v := if contract.physicalVersion.Some? then contract.physicalVersion.value else 1;
    (if v != 1 && v != 2 then [BadPhysicalVersion] else [])
    + if v == 2 then (if V2Fits(contract.fields) then [] else [BadPhysicalIndex])
      else if exists k :: 0 <= k < |contract.fields| && contract.fields[k].column in LOOKUPS then [LookupNeedsV2]
      else []
  }

  function Numbers(n: nat): (r: set<int>)
    ensures forall i :: i in r <==> 1 <= i <= n
    ensures |r| == n
  {
    if n == 0 then {} else Numbers(n - 1) + {n}
  }

  function Ids(fields: seq<Field>): seq<int> {
    seq(|fields|, i requires 0 <= i < |fields| => fields[i].fieldId)
  }

  lemma IdsInRange(fields: seq<Field>)
    requires V2Fits(fields) && forall k :: 0 <= k < |fields| ==> Unrepeated(fields, k)
    ensures forall m :: 0 <= m < |fields| ==> 1 <= fields[m].fieldId <= 29
  {
    var k :| 0 <= k < |fields| && fields[k].column == LOOKUPS[0] && fields[k].fieldId == 28;
    var l :| 0 <= l < |fields| && fields[l].column == LOOKUPS[1] && fields[l].fieldId == 29;
    forall m | 0 <= m < |fields| ensures 1 <= fields[m].fieldId <= 29 {
      if fields[m].column == LOOKUPS[0] {
        SameName(fields, m, k);
      } else if fields[m].column == LOOKUPS[1] {
        SameName(fields, m, l);
      }
    }
  }

  lemma Pigeonhole(ids: seq<int>, n: nat)
    requires |ids| == n && Distinct(ids) && forall id :: id in ids ==> 1 <= id <= n
    ensures forall id :: id in ids <==> 1 <= id <= n
  {
    DistinctCardinality(ids);
    SubsetCardinality(Elements(ids), Numbers(n));
    assert forall id :: id in ids <==> id in Elements(ids);
  }

  /** By pigeonhole an accepted version-2 index numbers its fields exactly 1 to 29. */
  lemma PhysicalIdsAreComplete(fields: seq<Field>, actual: seq<Field>)
    requires IndexOk(fields, actual) && V2Fits(fields)
    ensures forall id :: id in Ids(fields) <==> 1 <= id <= 29
  {
    IdsInRange(fields);
    var ids := Ids(fields);
    forall i, j | 0 <= i < j < |ids| ensures ids[i] != ids[j] {
      assert Unrepeated(fields, j);
    }
    Pigeonhole(ids, 29);
  }
}

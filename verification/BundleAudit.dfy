/**
 The audit of archive-bundle declarations: mappings of contracts to source tables and a
 catalog table. Every rule pushes a problem; an empty list is meant to say that the
 declared group is complete, unambiguous and lossless.
 */
module BundleAudit {
  import opened Common
  import opened BundleModel
  import opened BundleValues
  import opened BundlePaths
  import opened BundleIndex
  import opened BundleFamilies

  // ---- one mapping ----

  function DialectOf(d: Option<Dialect>): Dialect {
    if d.Some? then d.value else Postgres
  }

  function SnapshotFor(input: Input, dialect: Dialect): Option<seq<SourceColumn>> {
    if dialect == DialectOf(input.dialect) then Some(input.source)
    else if dialect == D1 then input.d1Source
    else None
  }

  predicate DialectFine(input: Input, dialect: Dialect) {
    dialect != OtherDialect && SnapshotFor(input, dialect).Some?
  }

  predicate Known(input: Input, m: Mapping) {
    m.contract in input.contracts && input.contracts[m.contract].version == 1 && m.version == 1
  }

  function SceneOf(input: Input, m: Mapping): Scene
    requires Known(input, m)
  {
    var contract := input.contracts[m.contract];
    var dialect := DialectOf(contract.dialect);
    var snapshot := SnapshotFor(input, dialect);
    Scene(contract, m.sources, input.policies, dialect, if snapshot.Some? then snapshot.value else [])
  }

  function FieldsOf(catalog: seq<CatalogColumn>, table: string): (r: seq<Field>)
    ensures forall f :: f in r <==> CatalogColumn(table, f) in catalog
  {
    if catalog == [] then []
    else (if catalog[0].table == table then [catalog[0].field] else []) + FieldsOf(catalog[1..], table)
  }

  /** The rules that look at one mapping only, families aside. */
  ghost predicate LocalOk(input: Input, m: Mapping)
    requires Known(input, m)
  {
    var c := SceneOf(input, m);
    && DialectFine(input, c.dialect)
    && PhysicalOk(c.contract)
    && m.namespace == "chain" && IsName(m.indexTable)
    && GroupComplete(c)
    && TreeOk(c.contract)
    && IndexOk(c.contract.fields, FieldsOf(input.catalog, m.indexTable))
    && ReceiptOk(c.contract)
  }

  method CheckLocal(input: Input, m: Mapping) returns (problems: seq<Problem>)
    requires Known(input, m)
    ensures problems == [] <==> LocalOk(input, m)
  {
    var c := SceneOf(input, m);
    var tree := CheckTree(c.contract);
    var index := CheckIndex(c.contract.fields, FieldsOf(input.catalog, m.indexTable));
    var receipt := CheckReceipt(c.contract);
    problems := (if DialectFine(input, c.dialect) then [] else [BadDialect])
                + CheckPhysical(c.contract)
                + (if m.namespace == "chain" && IsName(m.indexTable) then [] else [BadIdentity])
                + (if GroupComplete(c) then [] else [BadGroup])
                + tree + index + receipt;
  }

  // ---- the whole audit ----

  /** Source tables of the first `n` mappings, family by family. */
  function Tables(input: Input, n: nat): seq<string>
    requires n <= |input.mappings|
  {
    if n == 0 then []
    else
      var m := input.mappings[n - 1];
      Tables(input, n - 1) + if Known(input, m) then ActiveTables(SceneOf(input, m), |FAMILIES|) else []
  }

  ghost predicate MappingStep(input: Input, i: nat)
    requires i < |input.mappings|
  {
    var m := input.mappings[i];
    && Known(input, m)
    && LocalOk(input, m)
    && (forall j :: 0 <= j < i && Known(input, input.mappings[j]) ==> input.mappings[j].indexTable != m.indexTable)
    && StepsFine(SceneOf(input, m), Elements(Tables(input, i)), |FAMILIES|)
  }

  predicate IsBundled(input: Input, table: string) {
    table in input.policies && input.policies[table] == "bundled"
  }

  ghost predicate BundledMapped(input: Input) {
    forall t :: t in input.policies && IsBundled(input, t) ==> t in Tables(input, |input.mappings|)
  }

  ghost predicate ContractsUsed(input: Input) {
    forall n :: n in input.contracts ==> exists i :: 0 <= i < |input.mappings| && input.mappings[i].contract == n
  }

  /** Every mapping is fine, every bundled table is mapped, every contract is used. */
  ghost predicate AuditOk(input: Input) {
    MappingsOk(input, |input.mappings|) && BundledMapped(input) && ContractsUsed(input)
  }

  method CheckMapping(input: Input, i: nat, declaredSources: set<string>, declaredIndexes: set<string>)
    returns (problems: seq<Problem>, sources: set<string>)
    requires i < |input.mappings| && Known(input, input.mappings[i])
    requires declaredSources == Elements(Tables(input, i)) && IndexesOf(input, i, declaredIndexes)
    ensures problems == [] <==> MappingStep(input, i)
    ensures sources == Elements(Tables(input, i + 1))
  {
    var m := input.mappings[i];
    var local := CheckLocal(input, m);
    var families;
    families, sources := CheckFamilies(SceneOf(input, m), declaredSources);
    var reused := m.indexTable in declaredIndexes;
    problems := local + (if reused then [IndexReused] else []) + families;
  }

  /** Catalog tables of the first `n` known mappings. */
  ghost predicate IndexesOf(input: Input, n: nat, tables: set<string>)
    requires n <= |input.mappings|
  {
    forall t :: t in tables
        <==> exists j :: 0 <= j < n && Known(input, input.mappings[j]) && input.mappings[j].indexTable == t
  }

  /** Contracts that the first `n` mappings name. */
  ghost predicate Uses(input: Input, n: nat, names: set<string>)
    requires n <= |input.mappings|
  {
    forall c :: c in names <==> c in input.contracts && exists j :: 0 <= j < n && input.mappings[j].contract == c
  }

  ghost predicate MappingsOk(input: Input, n: nat)
    requires n <= |input.mappings|
  {
    forall j :: 0 <= j < n ==> MappingStep(input, j)
  }

  lemma MappingsOkNext(input: Input, n: nat)
    requires n < |input.mappings|
    ensures MappingsOk(input, n + 1) <==> MappingsOk(input, n) && MappingStep(input, n)
  {
  }

  lemma UsesNext(input: Input, n: nat, names: set<string>)
    requires n < |input.mappings| && Uses(input, n, names)
    ensures var name := input.mappings[n].contract;
            Uses(input, n + 1, if name in input.contracts then names + {name} else names)
  {
  }

  /** One turn of the mapping loop; unknown contracts and versions are reported and skipped. */
  method CheckMappingTurn(input: Input, i: nat, sources: set<string>, indexes: set<string>)
    returns (problems: seq<Problem>, sources': set<string>, indexes': set<string>)
    requires i < |input.mappings| && sources == Elements(Tables(input, i)) && IndexesOf(input, i, indexes)
    ensures problems == [] <==> MappingStep(input, i)
    ensures sources' == Elements(Tables(input, i + 1)) && IndexesOf(input, i + 1, indexes')
  {
    var m := input.mappings[i];
    if m.contract !in input.contracts {
      return [UnknownContract], sources, indexes;
    }
    if input.contracts[m.contract].version != 1 || m.version != input.contracts[m.contract].version {
      return [BadVersion], sources, indexes;
    }
    problems, sources' := CheckMapping(input, i, sources, indexes);
    indexes' := indexes + {m.indexTable};
  }

  method CheckMappings(input: Input) returns (problems: seq<Problem>, sources: set<string>, used: set<string>)
    ensures problems == [] <==> MappingsOk(input, |input.mappings|)
    ensures sources == Elements(Tables(input, |input.mappings|))
    ensures Uses(input, |input.mappings|, used)
  {
    problems, sources, used := [], {}, {};
    var indexes: set<string> := {};
    for i := 0 to |input.mappings|
      invariant problems == [] <==> MappingsOk(input, i)
      invariant sources == Elements(Tables(input, i))
      invariant IndexesOf(input, i, indexes) && Uses(input, i, used)
    {
      var found;
      found, sources, indexes := CheckMappingTurn(input, i, sources, indexes);
      UsesNext(input, i, used);
      MappingsOkNext(input, i);
      problems := problems + found;
      used := if input.mappings[i].contract in input.contracts then used + {input.mappings[i].contract} else used;
    }
  }

  /** The audit decides its declarative reading exactly. */
  method ValidateArchiveBundles(input: Input) returns (problems: seq<Problem>)
    ensures problems == [] <==> AuditOk(input)
  {
    var sources, used;
    problems, sources, used := CheckMappings(input);
    var uncovered := set t | t in input.policies && IsBundled(input, t) && t !in sources;
    var unused := input.contracts.Keys - used;
    Unreported(input, uncovered, sources, unused, used);
    problems := problems + (if uncovered == {} then [] else [BundledWithoutMapping])
        + (if unused == {} then [] else [UnusedContract]);
  }

  lemma Unreported(input: Input, uncovered: set<string>, sources: set<string>, unused: set<string>, used: set<string>)
    requires sources == Elements(Tables(input, |input.mappings|))
    requires uncovered == set t | t in input.policies && IsBundled(input, t) && t !in sources
    requires Uses(input, |input.mappings|, used) && unused == input.contracts.Keys - used
    ensures uncovered == {} <==> BundledMapped(input)
    ensures unused == {} <==> ContractsUsed(input)
  {
    assert BundledMapped(input) ==> uncovered == {};
    if uncovered == {} {
      forall t | t in input.policies && IsBundled(input, t) ensures t in Tables(input, |input.mappings|) {
        assert t !in uncovered;
      }
    }
    if unused == {} {
      forall n | n in input.contracts ensures n in used {
        assert n !in unused;
      }
    } else {
      var n :| n in unused;
      assert n in input.contracts && n !in used;
    }
  }
}

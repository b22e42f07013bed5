/** What an accepted audit guarantees: an exact one-to-one cover, injective columns, counts that fit. */
module BundleCover {
  import opened Common
  import opened BundleModel
  import opened BundleValues
  import opened BundleIndex
  import opened BundlePaths
  import opened BundleFamilies
  import opened BundleScene
  import opened BundleAudit

  /** Family `k` of mapping `i` is audited: it has a rule and a non-empty source name. */
  predicate ActiveAt(input: Input, i: nat, k: nat) {
    && i < |input.mappings| && k < |FAMILIES|
    && Known(input, input.mappings[i]) && Active(SceneOf(input, input.mappings[i]), FAMILIES[k])
  }

  function TableAt(input: Input, i: nat, k: nat): string
    requires ActiveAt(input, i, k)
  {
    input.mappings[i].sources[FAMILIES[k]]
  }

  // ---- tables of families, in order ----

  lemma {:induction false} TablesGrow(input: Input, i: nat, n: nat, t: string)
    requires i <= n <= |input.mappings| && t in Tables(input, i)
    ensures t in Tables(input, n)
    decreases n - i
  {
    if i < n {
      TablesGrow(input, i, n - 1, t);
    }
  }

  lemma {:induction false} TableFrom(input: Input, n: nat, t: string) returns (i: nat, k: nat)
    requires n <= |input.mappings| && t in Tables(input, n)
    ensures i < n && ActiveAt(input, i, k) && TableAt(input, i, k) == t
    decreases n
  {
    var m := input.mappings[n - 1];
    if Known(input, m) && t in ActiveTables(SceneOf(input, m), |FAMILIES|) {
      k := ActiveTableFrom(SceneOf(input, m), |FAMILIES|, t);
      i := n - 1;
    } else {
      i, k := TableFrom(input, n - 1, t);
    }
  }

  lemma TableIn(input: Input, i: nat, k: nat)
    requires ActiveAt(input, i, k)
    ensures TableAt(input, i, k) in Tables(input, i + 1)
  {
    ActiveTableIn(SceneOf(input, input.mappings[i]), |FAMILIES|, k);
  }

  /** What the audit established for one audited family. */
  lemma FamilyAt(input: Input, i: nat, k: nat)
    requires AuditOk(input) && ActiveAt(input, i, k)
    ensures FamilyStep(SceneOf(input, input.mappings[i]), Elements(Tables(input, i)), k)
    ensures TableAt(input, i, k) !in Tables(input, i)
  {
    assert MappingStep(input, i);
  }

  // ---- one table for one family of one mapping ----

  lemma OlderTableDiffers(input: Input, i: nat, k: nat, j: nat, l: nat)
    requires AuditOk(input) && ActiveAt(input, i, k) && ActiveAt(input, j, l) && i < j
    ensures TableAt(input, i, k) != TableAt(input, j, l)
  {
    TableIn(input, i, k);
    TablesGrow(input, i + 1, j, TableAt(input, i, k));
    FamilyAt(input, j, l);
  }

  lemma FamilyTablesDiffer(input: Input, i: nat, k: nat, l: nat)
    requires AuditOk(input) && ActiveAt(input, i, k) && ActiveAt(input, i, l) && k < l
    ensures TableAt(input, i, k) != TableAt(input, i, l)
  {
    FamilyAt(input, i, l);
  }

  /** No two audited pairs of mapping and family share a source table. */
  lemma PairsHaveOwnTables(input: Input, i: nat, k: nat, j: nat, l: nat)
    requires AuditOk(input) && ActiveAt(input, i, k) && ActiveAt(input, j, l)
    requires TableAt(input, i, k) == TableAt(input, j, l)
    ensures i == j && k == l
  {
    if i < j {
      OlderTableDiffers(input, i, k, j, l);
    } else if j < i {
      OlderTableDiffers(input, j, l, i, k);
    } else if k < l {
      FamilyTablesDiffer(input, i, k, l);
    } else if l < k {
      FamilyTablesDiffer(input, i, l, k);
    }
  }

  /** A table is bundled exactly when some audited pair maps it. */
  lemma BundledIsMapped(input: Input, t: string)
    requires AuditOk(input)
    ensures IsBundled(input, t) <==> exists i: nat, k: nat :: ActiveAt(input, i, k) && TableAt(input, i, k) == t
  {
    if IsBundled(input, t) {
      var i, k := TableFrom(input, |input.mappings|, t);
      assert ActiveAt(input, i, k) && TableAt(input, i, k) == t;
    }
    if i: nat, k: nat :| ActiveAt(input, i, k) && TableAt(input, i, k) == t {
      FamilyAt(input, i, k);
    }
  }

  // ---- six tables a mapping ----

  function BundledTables(input: Input): set<string> {
    set t | t in input.policies && IsBundled(input, t)
  }

  /** Every family of the mapping is given a non-empty source name. */
  predicate AllNamed(m: Mapping) {
    forall f :: f in m.sources ==> m.sources[f] != ""
  }

  predicate NamesGiven(input: Input) {
    forall m :: m in input.mappings ==> AllNamed(m)
  }

  /** Mapping `i` adds distinct tables that no earlier mapping has. */
  ghost predicate AddsOwnTables(input: Input, i: nat)
    requires i < |input.mappings|
  {
    && Known(input, input.mappings[i])
    && Distinct(ActiveTables(SceneOf(input, input.mappings[i]), |FAMILIES|))
    && forall t :: t in ActiveTables(SceneOf(input, input.mappings[i]), |FAMILIES|) ==> t !in Tables(input, i)
  }

  lemma StepAddsOwnTables(input: Input, i: nat)
    requires i < |input.mappings| && MappingStep(input, i)
    ensures AddsOwnTables(input, i)
  {
    var tables := ActiveTables(SceneOf(input, input.mappings[i]), |FAMILIES|);
    ActiveTablesDistinct(SceneOf(input, input.mappings[i]), Elements(Tables(input, i)), |FAMILIES|);
    forall t | t in tables ensures t !in Tables(input, i) {
      assert t !in Elements(Tables(input, i));
    }
  }

  lemma {:induction false} TablesDistinct(input: Input, n: nat)
    requires n <= |input.mappings| && forall i :: 0 <= i < n ==> AddsOwnTables(input, i)
    ensures Distinct(Tables(input, n))
    decreases n
  {
    if n > 0 {
      TablesDistinct(input, n - 1);
      assert AddsOwnTables(input, n - 1);
      DistinctJoin(Tables(input, n - 1), ActiveTables(SceneOf(input, input.mappings[n - 1]), |FAMILIES|));
    }
  }

  ghost predicate AddsSixIfNamed(input: Input, i: nat)
    requires i < |input.mappings|
  {
    && Known(input, input.mappings[i])
    && |ActiveTables(SceneOf(input, input.mappings[i]), |FAMILIES|)| <= 6
    && (|ActiveTables(SceneOf(input, input.mappings[i]), |FAMILIES|)| == 6 <==> AllNamed(input.mappings[i]))
  }

  lemma StepAddsSix(input: Input, i: nat)
    requires i < |input.mappings| && MappingStep(input, i)
    ensures AddsSixIfNamed(input, i)
  {
    var c := SceneOf(input, input.mappings[i]);
    ActiveTablesLength(c, |FAMILIES|);
    assert GroupComplete(c);
    AllActive(c);
  }

  lemma {:induction false} TablesLength(input: Input, n: nat)
    requires n <= |input.mappings| && forall i :: 0 <= i < n ==> AddsSixIfNamed(input, i)
    ensures |Tables(input, n)| <= 6 * n
    ensures |Tables(input, n)| == 6 * n <==> forall i :: 0 <= i < n ==> AllNamed(input.mappings[i])
    decreases n
  {
    if n > 0 {
      TablesLength(input, n - 1);
      assert AddsSixIfNamed(input, n - 1);
    }
  }

  /**
   An accepted audit bundles at most six tables a mapping, and exactly six a mapping if and
   only if no source name is empty: an empty name is skipped without a problem.
   */
  lemma SixTablesAMapping(input: Input)
    requires AuditOk(input)
    ensures |BundledTables(input)| <= 6 * |input.mappings|
    ensures |BundledTables(input)| == 6 * |input.mappings| <==> NamesGiven(input)
  {
    var n := |input.mappings|;
    forall i | 0 <= i < n ensures AddsOwnTables(input, i) && AddsSixIfNamed(input, i) {
      StepAddsOwnTables(input, i);
      StepAddsSix(input, i);
    }
    TablesDistinct(input, n);
    TablesLength(input, n);
    DistinctCardinality(Tables(input, n));
    forall t | t in Tables(input, n) ensures t in BundledTables(input) {
      var i, k := TableFrom(input, n, t);
      BundledIsMapped(input, t);
    }
    assert BundledTables(input) == Elements(Tables(input, n));
    assert NamesGiven(input) <==> forall i :: 0 <= i < n ==> AllNamed(input.mappings[i]);
  }

  // ---- one mapping: index, columns, counts ----

  function SceneAt(input: Input, i: nat): Scene
    requires i < |input.mappings| && Known(input, input.mappings[i])
  {
    SceneOf(input, input.mappings[i])
  }

  function RuleAt(input: Input, i: nat, k: nat): Rule
    requires ActiveAt(input, i, k)
  {
    SceneAt(input, i).contract.families[FAMILIES[k]]
  }

  /** Each mapping has its own catalog table, which is its contract's index field by field. */
  lemma IndexIsCatalog(input: Input, i: nat)
    requires AuditOk(input) && i < |input.mappings|
    ensures Known(input, input.mappings[i])
    ensures var fields := SceneAt(input, i).contract.fields;
            var actual := FieldsOf(input.catalog, input.mappings[i].indexTable);
            && Elements(fields) == Elements(actual) && |fields| == |actual|
            && Distinct(fields) && Distinct(actual)
            && (SceneAt(input, i).contract.physicalVersion == Some(2) ==>
                  forall id :: id in Ids(fields) <==> 1 <= id <= 29)
    ensures forall j :: 0 <= j < |input.mappings| && j != i ==>
                          input.mappings[j].indexTable != input.mappings[i].indexTable
  {
    assert MappingStep(input, i);
    var fields, actual := SceneAt(input, i).contract.fields, FieldsOf(input.catalog, input.mappings[i].indexTable);
    CatalogEqualsContract(fields, actual);
    if SceneAt(input, i).contract.physicalVersion == Some(2) {
      PhysicalIdsAreComplete(fields, actual);
    }
    forall j | 0 <= j < |input.mappings| && j != i
      ensures input.mappings[j].indexTable != input.mappings[i].indexTable
    {
      assert MappingStep(input, j);
    }
  }

  /** Source columns and column rules are the same set, each named once, and different columns bind different values. */
  lemma ColumnsMapInjectively(input: Input, i: nat, k: nat)
    requires AuditOk(input) && ActiveAt(input, i, k)
    ensures var rule, source := RuleAt(input, i, k), ColumnsOf(SceneAt(input, i).snapshot, TableAt(input, i, k));
            && (forall n :: n in rule.columns <==> Provides(source, n))
            && (forall j, l :: 0 <= j < l < |source| ==> source[j].column != source[l].column)
            && (forall j :: 0 <= j < |source| ==> AsDeclared(source[j], rule))
            && (forall a, b :: a in rule.columns && b in rule.columns && a != b ==>
                                 rule.columns[a].binding.path != rule.columns[b].binding.path)
  {
    FamilyAt(input, i, k);
    var c, rule := SceneAt(input, i), RuleAt(input, i, k);
    var source := ColumnsOf(c.snapshot, TableAt(input, i, k));
    FineColumns(c.contract, c.dialect, rule, source);
  }

  /** What an audited column is bound to occurs exactly once for each row, or is the length of the row's own array. */
  lemma BindingsOccurOncePerRow(input: Input, i: nat, k: nat, name: string)
    requires AuditOk(input) && ActiveAt(input, i, k) && name in RuleAt(input, i, k).columns
    ensures var c, rule := SceneAt(input, i), RuleAt(input, i, k);
            var binding := rule.columns[name].binding;
            && OncePerRow(c.contract, rule, binding)
            && BoundValue(c.contract, rule, binding)
               == Some(if binding.ArrayLength? then Value(false, IntegerKind(c.contract.arrays[binding.path]))
                       else c.contract.values[binding.path])
  {
    FamilyAt(input, i, k);
    var c, rule := SceneAt(input, i), RuleAt(input, i, k);
    var source := ColumnsOf(c.snapshot, TableAt(input, i, k));
    assert ProjectionFine(c.contract, c.dialect, rule, source, name);
    FineBindingIsOncePerRow(c.contract, rule, rule.columns[name].binding);
  }

  /** Source columns come from the snapshot of the contract's own dialect, PostgreSQL unless it says otherwise. */
  lemma SnapshotIsTheDialects(input: Input, i: nat)
    requires AuditOk(input) && i < |input.mappings|
    ensures Known(input, input.mappings[i])
    ensures var c := SceneAt(input, i);
            && c.dialect == (if c.contract.dialect == None then Postgres else c.contract.dialect.value)
            && (c.dialect == Postgres || c.dialect == D1)
            && (if (if input.dialect == None then Postgres else input.dialect.value) == c.dialect
                then c.snapshot == input.source
                else c.dialect == D1 && Some(c.snapshot) == input.d1Source)
  {
    assert MappingStep(input, i);
  }

  /**
   Every value a mapped source column can hold has a bundle value that decodes back to it and, if
   finite, conforms.
   */
  lemma EveryCellSurvives(input: Input, i: nat, k: nat, name: string, cell: Cell)
    requires AuditOk(input) && ActiveAt(input, i, k) && name in RuleAt(input, i, k).columns
    requires InDomain(RuleAt(input, i, k).columns[name].column, SceneAt(input, i).dialect, cell)
    ensures var c, rule := SceneAt(input, i), RuleAt(input, i, k);
            var projection, value := rule.columns[name], BoundValue(c.contract, rule, rule.columns[name].binding);
            && value.Some?
            && (Conforms(value.value, Encode(value.value.kind, cell)) <==> !cell.NotFinite?)
            && Decode(projection.column, c.dialect, Encode(value.value.kind, cell)) == Some(cell)
  {
    FamilyAt(input, i, k);
    var c, rule := SceneAt(input, i), RuleAt(input, i, k);
    var source := ColumnsOf(c.snapshot, TableAt(input, i, k));
    assert ProjectionFine(c.contract, c.dialect, rule, source, name);
    var value := BoundValue(c.contract, rule, rule.columns[name].binding).value;
    LosslessCarriesEveryValue(rule.columns[name].column, value, c.dialect, cell);
  }

  lemma CountPathContinues(p: string)
    requires |p| >= |COUNTS| && p[..|COUNTS|] == COUNTS
    ensures Continues(p, "manifest.counts")
  {
    assert p == "manifest.counts" + "." + p[|COUNTS|..];
  }

  /** Every count an accepted family may declare fits the manifest value and its index column. */
  lemma EveryCountFits(input: Input, i: nat, k: nat, count: int)
    requires AuditOk(input) && ActiveAt(input, i, k)
    requires Within(RuleAt(input, i, k).bounds, count)
    ensures var contract, rule := SceneAt(input, i).contract, RuleAt(input, i, k);
            && rule.manifestPath in contract.values && Continues(rule.manifestPath, "manifest.counts")
            && Conforms(contract.values[rule.manifestPath], JNumber(count))
            && CountColumn(contract, rule).Some?
            && Within(if CountColumn(contract, rule).value.typ == "int" then INT4 else INT8, count)
    ensures IsObjectFamily(FAMILIES[k]) ==> count == 1
  {
    FamilyAt(input, i, k);
    var contract, rule := SceneAt(input, i).contract, RuleAt(input, i, k);
    var field := CountColumn(contract, rule).value;
    CountPathContinues(rule.manifestPath);
    IndexFitsExactly(contract.values[rule.manifestPath], IndexType(field.typ, field.required));
  }

  /** The counts an array family may declare lie between two captures its array bounds allow. */
  lemma DeclaredCountsAreAttainable(input: Input, i: nat, k: nat) returns (least: seq<int>, most: seq<int>)
    requires AuditOk(input) && ActiveAt(input, i, k) && !IsObjectFamily(FAMILIES[k])
    ensures var contract, rule := SceneAt(input, i).contract, RuleAt(input, i, k);
            && rule.rows in contract.arrays
            && (IsChildFamily(FAMILIES[k]) ==>
                  "funds" in contract.families && contract.families["funds"].rows in contract.arrays)
            && var items := contract.arrays[rule.rows];
               var parent := if IsChildFamily(FAMILIES[k]) then contract.arrays[contract.families["funds"].rows]
                             else Bounds(1, 1);
            && Allowed(least, items, parent) && Allowed(most, items, parent)
            && Sum(least) <= rule.bounds.min && rule.bounds.max <= Sum(most)
  {
    FamilyAt(input, i, k);
    var contract, rule := SceneAt(input, i).contract, RuleAt(input, i, k);
    var items, parent := ArrayAt(contract, rule.rows), ParentBounds(contract, FAMILIES[k]);
    least, most := CountBoundsAreAchievable(rule.bounds, items.value, parent.value);
  }

  // ---- one mapping: its own declarations ----

  const KIND_FIELD: Field := Field("lookup_kind", 28, "string", true)

  const KEY_FIELD: Field := Field("lookup_key", 29, "string", true)

  /** A version-2 index has both lookup fields, 28 and 29, required strings; a version-1 index has neither. */
  lemma LookupFields(input: Input, i: nat)
    requires AuditOk(input) && i < |input.mappings|
    ensures Known(input, input.mappings[i])
    ensures var contract := SceneAt(input, i).contract;
            if contract.physicalVersion == Some(2) then KIND_FIELD in contract.fields && KEY_FIELD in contract.fields
            else (contract.physicalVersion == None || contract.physicalVersion == Some(1))
                 && forall f :: f in contract.fields ==> f.column != "lookup_kind" && f.column != "lookup_key"
  {
    assert MappingStep(input, i);
    var contract := SceneAt(input, i).contract;
    assert PhysicalOk(contract);
    if contract.physicalVersion == Some(2) {
      assert IsLookup(contract.fields, 0) && IsLookup(contract.fields, 1);
    }
  }

  /** Capture and receipt are different objects, values are no arrays, and arrays have bounds from zero up. */
  lemma DeclaredTree(input: Input, i: nat)
    requires AuditOk(input) && i < |input.mappings|
    ensures Known(input, input.mappings[i])
    ensures input.mappings[i].namespace == "chain" && IsName(input.mappings[i].indexTable)
    ensures var contract := SceneAt(input, i).contract;
            && contract.capturePath != contract.receiptPath
            && IsPath(contract.capturePath) && IsPath(contract.receiptPath)
            && Marks(contract.capturePath) == Marks(contract.receiptPath) == 0
            && (forall p :: p in contract.values ==> IsPath(p) && !EndsAsArray(p))
            && (forall p :: p in contract.arrays ==>
                  IsPath(p) && EndsAsArray(p) && 0 <= contract.arrays[p].min <= contract.arrays[p].max)
  {
    assert MappingStep(input, i);
    assert TreeOk(SceneAt(input, i).contract);
    NoMarks(SceneAt(input, i).contract.capturePath);
    NoMarks(SceneAt(input, i).contract.receiptPath);
  }

  // ---- one mapping: rows and receipt ----

  lemma NamedIsActive(input: Input, i: nat, k: nat)
    requires AuditOk(input) && i < |input.mappings| && AllNamed(input.mappings[i]) && k < |FAMILIES|
    ensures ActiveAt(input, i, k)
  {
    assert MappingStep(input, i);
    assert GroupComplete(SceneAt(input, i));
    assert FAMILIES[k] in FamilySet();
  }

  lemma RowsAt(input: Input, i: nat, k: nat)
    requires AuditOk(input) && i < |input.mappings| && AllNamed(input.mappings[i]) && k < |FAMILIES|
    ensures ActiveAt(input, i, k) && RowsFine(SceneAt(input, i).contract, FAMILIES[k], RuleAt(input, i, k))
  {
    NamedIsActive(input, i, k);
    FamilyAt(input, i, k);
  }

  lemma RowsDiffer(input: Input, i: nat, k: nat, l: nat)
    requires AuditOk(input) && ActiveAt(input, i, k) && ActiveAt(input, i, l) && k < l
    ensures RuleAt(input, i, k).rows != RuleAt(input, i, l).rows
    ensures RuleAt(input, i, k).indexColumn != RuleAt(input, i, l).indexColumn
    ensures RuleAt(input, i, k).manifestPath != RuleAt(input, i, l).manifestPath
  {
    FamilyAt(input, i, l);
    assert Separate(SceneAt(input, i), FAMILIES[k], FAMILIES[l]);
  }

  lemma GroupAt(input: Input, i: nat)
    requires AuditOk(input) && i < |input.mappings|
    ensures Known(input, input.mappings[i]) && SceneAt(input, i).contract.families.Keys == FamilySet()
    ensures ReceiptOk(SceneAt(input, i).contract)
  {
    assert MappingStep(input, i);
    assert GroupComplete(SceneAt(input, i));
  }

  /** With all names given: pages and funds are arrays in the capture object, holdings and targets arrays in funds. */
  lemma RowsAreNested(input: Input, i: nat)
    requires AuditOk(input) && i < |input.mappings| && AllNamed(input.mappings[i])
    ensures Known(input, input.mappings[i]) && SceneAt(input, i).contract.families.Keys == FamilySet()
    ensures Nested(SceneAt(input, i).contract)
  {
    GroupAt(input, i);
    var contract := SceneAt(input, i).contract;
    forall f | f in contract.families ensures RowsFine(contract, f, contract.families[f]) {
      var k := FamilyPlace(f);
      RowsAt(input, i, k);
    }
  }

  /**
   Each receipt role is a required value in the receipt, an index field, and a source column of the
   completion family.
   */
  lemma ReceiptIsBound(input: Input, i: nat, role: nat)
    requires AuditOk(input) && i < |input.mappings| && role < 3
    ensures Known(input, input.mappings[i])
    ensures var contract := SceneAt(input, i).contract;
            && Distinct(Roles(contract.receipt)) && Distinct(Roles(contract.indexReceipt))
            && RoleBound(contract, Roles(contract.receipt)[role], Roles(contract.indexReceipt)[role])
  {
    GroupAt(input, i);
    var contract := SceneAt(input, i).contract;
  }
}

/** What the rules of one mapping say about its tables, columns, rows and receipt. */
module BundleScene {
  import opened Common
  import opened BundleModel
  import opened BundleValues
  import opened BundlePaths
  import opened BundleIndex
  import opened BundleFamilies

  // ---- tables of families, in order ----

  lemma {:induction false} ActiveTableIn(c: Scene, k: nat, i: nat)
    requires i < k <= |FAMILIES| && Active(c, FAMILIES[i])
    ensures c.sources[FAMILIES[i]] in ActiveTables(c, k)
    decreases k
  {
    if i < k - 1 {
      ActiveTableIn(c, k - 1, i);
    }
  }

  lemma {:induction false} ActiveTableFrom(c: Scene, k: nat, t: string) returns (i: nat)
    requires k <= |FAMILIES| && t in ActiveTables(c, k)
    ensures i < k && Active(c, FAMILIES[i]) && c.sources[FAMILIES[i]] == t
    decreases k
  {
    if Active(c, FAMILIES[k - 1]) && c.sources[FAMILIES[k - 1]] == t {
      i := k - 1;
    } else {
      i := ActiveTableFrom(c, k - 1, t);
    }
  }

  lemma {:induction false} ActiveTablesLength(c: Scene, k: nat)
    requires k <= |FAMILIES|
    ensures |ActiveTables(c, k)| <= k
    ensures |ActiveTables(c, k)| == k <==> forall i :: 0 <= i < k ==> Active(c, FAMILIES[i])
    decreases k
  {
    if k > 0 {
      ActiveTablesLength(c, k - 1);
    }
  }

  lemma LastTableIsNew(c: Scene, declared: set<string>, k: nat)
    requires k < |FAMILIES| && FamilyStep(c, declared, k) && Active(c, FAMILIES[k])
    ensures c.sources[FAMILIES[k]] !in ActiveTables(c, k)
  {
    if c.sources[FAMILIES[k]] in ActiveTables(c, k) {
      var i := ActiveTableFrom(c, k, c.sources[FAMILIES[k]]);
    }
  }

  lemma {:induction false} ActiveTablesDistinct(c: Scene, declared: set<string>, k: nat)
    requires k <= |FAMILIES| && forall i :: 0 <= i < k ==> FamilyStep(c, declared, i)
    ensures Distinct(ActiveTables(c, k))
    ensures forall t :: t in ActiveTables(c, k) ==> t !in declared
    decreases k
  {
    if k > 0 {
      ActiveTablesDistinct(c, declared, k - 1);
      if Active(c, FAMILIES[k - 1]) {
        LastTableIsNew(c, declared, k - 1);
        DistinctJoin(ActiveTables(c, k - 1), [c.sources[FAMILIES[k - 1]]]);
      }
    }
  }

  lemma AllActive(c: Scene)
    requires GroupComplete(c)
    ensures (forall k :: 0 <= k < |FAMILIES| ==> Active(c, FAMILIES[k]))
            <==> forall f :: f in c.sources ==> c.sources[f] != ""
  {
    forall f | f in c.sources ensures exists k :: 0 <= k < |FAMILIES| && FAMILIES[k] == f {
      assert FAMILIES[0] == "capture" && FAMILIES[1] == "pages" && FAMILIES[2] == "funds" && FAMILIES[3] == "holdings"
             && FAMILIES[4] == "targets" && FAMILIES[5] == "completion";
    }
    assert forall k :: 0 <= k < |FAMILIES| ==> FAMILIES[k] in c.sources;
  }

  // ---- columns and counts ----

  ghost predicate Provides(source: seq<SourceColumn>, name: string) {
    exists j :: 0 <= j < |source| && source[j].column == name
  }

  /** The column still has the type and nullability its rule was written for. */
  predicate AsDeclared(c: SourceColumn, rule: Rule) {
    c.column in rule.columns && c.udt == rule.columns[c.column].column.udt
    && c.nullable == rule.columns[c.column].column.nullable
  }

  lemma FineColumns(contract: Contract, dialect: Dialect, rule: Rule, source: seq<SourceColumn>)
    requires forall k :: 0 <= k < |source| ==> SourceFine(source, rule, k)
    requires forall n :: n in rule.columns ==> ProjectionFine(contract, dialect, rule, source, n)
    ensures forall n :: n in rule.columns <==> Provides(source, n)
    ensures forall j, l :: 0 <= j < l < |source| ==> source[j].column != source[l].column
    ensures forall j :: 0 <= j < |source| ==> AsDeclared(source[j], rule)
  {
    forall n | n in rule.columns ensures Provides(source, n) {
      assert ProjectionFine(contract, dialect, rule, source, n);
      var j :| 0 <= j < |source| && source[j] == FirstColumn(source, n).value;
    }
    forall j | 0 <= j < |source| ensures source[j].column in rule.columns {
      assert SourceFine(source, rule, j);
    }
    forall j, l | 0 <= j < l < |source| ensures source[j].column != source[l].column {
      assert SourceFine(source, rule, l);
    }
    forall j | 0 <= j < |source| ensures AsDeclared(source[j], rule) {
      assert SourceFine(source, rule, j) && ProjectionFine(contract, dialect, rule, source, source[j].column);
      var l :| 0 <= l < |source| && source[l] == FirstColumn(source, source[j].column).value;
      assert source[l].column == source[j].column;
      assert l == j;
    }
  }

  /** The index column that records a family's count. */
  function CountColumn(contract: Contract, rule: Rule): Option<Field> {
    FirstNamed(contract.fields, rule.indexColumn)
  }

  // ---- rows and receipt ----

  /** Rows of the six families, nested as the group demands. */
  predicate Nested(contract: Contract)
    requires contract.families.Keys == FamilySet()
  {
    var capture, pages := contract.families["capture"].rows, contract.families["pages"].rows;
    var funds := contract.families["funds"].rows;
    var holdings, targets := contract.families["holdings"].rows, contract.families["targets"].rows;
    && capture == contract.capturePath && contract.families["completion"].rows == contract.receiptPath
    && ChildArray(pages, capture) && ChildArray(funds, capture)
    && ChildArray(holdings, funds) && ChildArray(targets, funds)
    && {pages, funds, holdings, targets} <= contract.arrays.Keys
    && contract.families["pages"].parent == contract.families["funds"].parent == Some(capture)
    && contract.families["holdings"].parent == contract.families["targets"].parent == Some(funds)
  }

  /** The place a path binding starts from. */
  function Base(contract: Contract, rule: Rule, from: Scope): Option<string> {
    match from
    case RowScope => Some(rule.rows)
    case ParentScope => rule.parent
    case CaptureScope => Some(contract.capturePath)
    case ReceiptScope => Some(contract.receiptPath)
  }

  /**
   A path binding ends at a declared value that occurs once for each of its scope's rows; an
   array length is that of an array each row has one of.
   */
  ghost predicate OncePerRow(contract: Contract, rule: Rule, binding: Binding) {
    match binding
    case PathBinding(from, path) =>
      var base := Base(contract, rule, from);
      base.Some? && path in contract.values && Continues(path, base.value) && Marks(path) == Marks(base.value)
    case ArrayLength(path) =>
      && path in contract.arrays && EndsAsArray(path)
      && Continues(path[..|path| - 2], rule.rows) && Marks(path) == Marks(rule.rows) + 1
  }

  lemma FineBindingIsOncePerRow(contract: Contract, rule: Rule, binding: Binding)
    requires BindingFine(contract, rule, binding) && BoundValue(contract, rule, binding).Some?
    ensures OncePerRow(contract, rule, binding)
  {
    match binding
    case PathBinding(from, path) => BelowExactly(path, ScopePath(contract, rule, from).value);
    case ArrayLength(path) => ChildArrayExactly(path, rule.rows);
  }

  lemma FamilyPlace(f: string) returns (k: nat)
    requires f in FamilySet()
    ensures k < |FAMILIES| && FAMILIES[k] == f
  {
    k := if f == "capture" then 0 else if f == "pages" then 1 else if f == "funds" then 2
         else if f == "holdings" then 3 else if f == "targets" then 4 else 5;
  }

  predicate RoleBound(contract: Contract, path: string, column: string) {
    && path in contract.values && !contract.values[path].nullable && Below(path, contract.receiptPath)
    && (exists k :: 0 <= k < |contract.fields| && contract.fields[k].column == column && contract.fields[k].required)
    && "completion" in contract.families
    && exists n :: n in contract.families["completion"].columns
                   && contract.families["completion"].columns[n].binding == PathBinding(ReceiptScope, path)
  }
}

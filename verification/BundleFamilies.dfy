/**
 The six families of one mapping: the bundle tree, source columns bound to declared values,
 original counts, and the receipt.
 */
module BundleFamilies {
  import opened Common
  import opened BundleModel
  import opened BundleValues
  import opened BundlePaths
  import opened BundleIndex

  // ---- the bundle tree ----

  /** Everything a contract declares about the bundle tree. */
  function Decls(contract: Contract): set<(string, Shape)> {
    Each({contract.capturePath, contract.receiptPath}, ObjectShape)
    + Each(contract.values.Keys, ValueShape) + Each(contract.arrays.Keys, ObjectShape)
  }

  predicate ObjectPathsFine(contract: Contract) {
    && IsPath(contract.capturePath) && !HasArrayMark(contract.capturePath)
    && IsPath(contract.receiptPath) && !HasArrayMark(contract.receiptPath)
    && contract.capturePath != contract.receiptPath
  }

  predicate ValueFine(path: string, v: Value) {
    IsPath(path) && !EndsAsArray(path) && (v.kind.IntegerKind? ==> IsBounds(v.kind.bounds))
  }

  predicate ArrayFine(path: string, b: Bounds) {
    IsPath(path) && EndsAsArray(path) && IsBounds(b) && b.min >= 0
  }

  ghost predicate TreeOk(contract: Contract) {
    && ObjectPathsFine(contract)
    && (forall p :: p in contract.values ==> ValueFine(p, contract.values[p]))
    && (forall p :: p in contract.arrays ==> ArrayFine(p, contract.arrays[p]))
    && Consistent(Decls(contract))
  }

  lemma DeclsInOrder(contract: Contract)
    ensures {} + Each({contract.capturePath, contract.receiptPath}, ObjectShape)
            + Each(contract.values.Keys, ValueShape) + Each(contract.arrays.Keys, ObjectShape) == Decls(contract)
  {
    var objects := Each({contract.capturePath, contract.receiptPath}, ObjectShape);
    assert {} + objects == objects;
  }

  method CheckShapes(contract: Contract) returns (problems: seq<Problem>)
    ensures problems == [] <==> Consistent(Decls(contract))
  {
    var shape: ShapeMap := map[];
    ghost var pairs: seq<(string, Shape)>, decls: set<(string, Shape)> := [], {};
    assert Tracked(shape, pairs, decls) && OneShape(pairs);
    var objects, values, arrays;
    objects, shape, pairs := DeclareAll({contract.capturePath, contract.receiptPath}, ObjectShape, shape, pairs, decls);
    decls := decls + Each({contract.capturePath, contract.receiptPath}, ObjectShape);
    values, shape, pairs := DeclareAll(contract.values.Keys, ValueShape, shape, pairs, decls);
    decls := decls + Each(contract.values.Keys, ValueShape);
    arrays, shape, pairs := DeclareAll(contract.arrays.Keys, ObjectShape, shape, pairs, decls);
    decls := decls + Each(contract.arrays.Keys, ObjectShape);
    CoveredIsConsistent(pairs, decls);
    DeclsInOrder(contract);
    problems := objects + values + arrays;
    assert problems == [] <==> OneShape(pairs);
  }

  method CheckTree(contract: Contract) returns (problems: seq<Problem>)
    ensures problems == [] <==> TreeOk(contract)
  {
    var shapes := CheckShapes(contract);
    problems := (if ObjectPathsFine(contract) then [] else [BadObjectPaths])
                + (if forall p :: p in contract.values ==> ValueFine(p, contract.values[p]) then [] else [BadValue])
                + (if forall p :: p in contract.arrays ==> ArrayFine(p, contract.arrays[p]) then [] else [BadArray])
                + shapes;
  }

  /** In a tree whose declarations agree no declared path continues below a value. */
  lemma ValuesAreLeaves(contract: Contract, p: string, r: string)
    requires Consistent(Decls(contract)) && p in contract.values && !EndsAsArray(p)
    ensures p + "." + r !in contract.values && p + "." + r !in contract.arrays
    ensures p + "." + r != contract.capturePath && p + "." + r != contract.receiptPath
  {
    BelowValueDisagrees(p, r, ObjectShape);
    BelowValueDisagrees(p, r, ValueShape);
    var decls, q := Decls(contract), p + "." + r;
    assert (p, ValueShape) in decls;
    assert q in contract.values ==> (q, ValueShape) in decls;
    assert q in contract.arrays || q == contract.capturePath || q == contract.receiptPath ==> (q, ObjectShape) in decls;
  }

  // ---- source columns and their projections ----

  function ColumnsOf(snapshot: seq<SourceColumn>, table: string): (r: seq<SourceColumn>)
    ensures forall c :: c in r <==> c in snapshot && c.table == table
  {
    if snapshot == [] then []
    else (if snapshot[0].table == table then [snapshot[0]] else []) + ColumnsOf(snapshot[1..], table)
  }

  function FirstColumn(source: seq<SourceColumn>, name: string): (r: Option<SourceColumn>)
    ensures r.Some? ==> r.value in source && r.value.column == name
    ensures r.None? ==> forall i :: 0 <= i < |source| ==> source[i].column != name
  {
    FindFirst(source, (c: SourceColumn) => c.column == name)
  }

  ghost predicate SourceFine(source: seq<SourceColumn>, rule: Rule, k: nat)
    requires k < |source|
  {
    source[k].column in rule.columns && forall i :: 0 <= i < k ==> source[i].column != source[k].column
  }

  method CheckSource(source: seq<SourceColumn>, rule: Rule) returns (problems: seq<Problem>)
    ensures problems == [] <==> forall k :: 0 <= k < |source| ==> SourceFine(source, rule, k)
  {
    problems := [];
    var names: set<string> := {};
    for k := 0 to |source|
      invariant forall n :: n in names <==> exists i :: 0 <= i < k && source[i].column == n
      invariant problems == [] <==> forall j :: 0 <= j < k ==> SourceFine(source, rule, j)
    {
      var name := source[k].column;
      var duplicate, unmapped := name in names, name !in rule.columns;
      assert SourceFine(source, rule, k) <==> !duplicate && !unmapped;
      names := names + {name};
      problems := problems + (if duplicate then [DuplicateColumn] else [])
          + (if unmapped then [UnmappedColumn] else []);
    }
  }

  function ScopePath(contract: Contract, rule: Rule, from: Scope): Option<string> {
    match from
    case RowScope => Some(rule.rows)
    case CaptureScope => Some(contract.capturePath)
    case ParentScope => rule.parent
    case ReceiptScope => Some(contract.receiptPath)
  }

  predicate BindingFine(contract: Contract, rule: Rule, binding: Binding) {
    match binding
    case ArrayLength(path) => path in contract.arrays && ChildArray(path, rule.rows)
    case PathBinding(from, path) =>
      var scope := ScopePath(contract, rule, from);
      scope.Some? && scope.value != "" && Below(path, scope.value)
  }

  /** The declared value a binding ends at. */
  function BoundValue(contract: Contract, rule: Rule, binding: Binding): Option<Value> {
    match binding
    case ArrayLength(path) =>
      if BindingFine(contract, rule, binding) then Some(Value(false, IntegerKind(contract.arrays[path]))) else None
    case PathBinding(_, path) => if path in contract.values then Some(contract.values[path]) else None
  }

  predicate ProjectionFine(contract: Contract, dialect: Dialect, rule: Rule, source: seq<SourceColumn>, name: string)
    requires name in rule.columns
  {
    var column, projection := FirstColumn(source, name), rule.columns[name];
    var value := BoundValue(contract, rule, projection.binding);
    && column.Some? && column.value.udt == projection.column.udt && column.value.nullable == projection.column.nullable
    && BindingFine(contract, rule, projection.binding)
    && value.Some? && Lossless(projection.column, value.value, dialect)
  }

  function CheckProjection(contract: Contract, dialect: Dialect, rule: Rule, source: seq<SourceColumn>, name: string)
    : (problems: seq<Problem>)
    requires name in rule.columns
    ensures problems == [] <==> ProjectionFine(contract, dialect, rule, source, name)
  {
    var column, projection := FirstColumn(source, name), rule.columns[name];
    var value := BoundValue(contract, rule, projection.binding);
    (if column.None? then [StaleColumn]
     else if column.value.udt != projection.column.udt
             || column.value.nullable != projection.column.nullable then [ColumnChanged]
     else [])
    + (if BindingFine(contract, rule, projection.binding) then [] else [BadBinding])
    + (if value.None? then [BadBinding]
       else if !Lossless(projection.column, value.value, dialect) then [NotLossless]
       else [])
  }

  ghost predicate OwnPaths(rule: Rule, names: set<string>) {
    forall a, b :: a in names && b in names && a in rule.columns && b in rule.columns ==>
                     (rule.columns[a].binding.path == rule.columns[b].binding.path ==> a == b)
  }

  method CheckProjections(contract: Contract, dialect: Dialect, rule: Rule, source: seq<SourceColumn>)
    returns (problems: seq<Problem>)
    ensures problems == [] <==> (forall n :: n in rule.columns ==> ProjectionFine(contract, dialect, rule, source, n))
                                && OwnPaths(rule, rule.columns.Keys)
  {
    problems := [];
    var left, paths: set<string> := rule.columns.Keys, {};
    ghost var done: set<string> := {};
    while left != {}
      invariant left + done == rule.columns.Keys && left !! done
      invariant forall p :: p in paths <==> exists n :: n in done && rule.columns[n].binding.path == p
      invariant problems == [] <==> (forall n :: n in done ==> ProjectionFine(contract, dialect, rule, source, n))
                                    && OwnPaths(rule, done)
      decreases left
    {
      var name :| name in left;
      var path := rule.columns[name].binding.path;
      var shared := path in paths;
      var found := CheckProjection(contract, dialect, rule, source, name);
      assert OwnPaths(rule, done + {name}) <==> OwnPaths(rule, done) && !shared;
      left, done, paths := left - {name}, done + {name}, paths + {path};
      problems := problems + (if shared then [SharedValue] else []) + found;
    }
    assert done == rule.columns.Keys;
  }

  // ---- families ----

  /** What the rules of one mapping look at. */
  datatype Scene = Scene(
    contract: Contract, sources: map<string, string>, policies: map<string, string>,
    dialect: Dialect, snapshot: seq<SourceColumn>)

  predicate IsObjectFamily(f: string) {
    f == "capture" || f == "completion"
  }

  predicate IsChildFamily(f: string) {
    f == "holdings" || f == "targets"
  }

  function ExpectedParent(contract: Contract, f: string): Option<string> {
    if !IsChildFamily(f) then Some(contract.capturePath)
    else if "funds" in contract.families then Some(contract.families["funds"].rows)
    else None
  }

  predicate RowsFine(contract: Contract, f: string, rule: Rule) {
    IsPath(rule.rows)
    && if IsObjectFamily(f) then rule.rows == if f == "capture" then contract.capturePath else contract.receiptPath
       else
         var parent := ExpectedParent(contract, f);
         parent.Some? && parent.value != "" && ChildArray(rule.rows, parent.value)
         && rule.rows in contract.arrays && rule.parent == parent
  }

  const COUNTS: string := "manifest.counts."

  function ArrayAt(contract: Contract, path: string): Option<Bounds> {
    if path in contract.arrays then Some(contract.arrays[path]) else None
  }

  function ParentBounds(contract: Contract, f: string): Option<Bounds> {
    if !IsChildFamily(f) then Some(Bounds(1, 1))
    else if "funds" in contract.families then ArrayAt(contract, contract.families["funds"].rows)
    else None
  }

  predicate CountFine(contract: Contract, f: string, rule: Rule) {
    && |rule.manifestPath| >= |COUNTS| && rule.manifestPath[..|COUNTS|] == COUNTS
    && rule.manifestPath in contract.values
    && var count := contract.values[rule.manifestPath];
       var field := FirstNamed(contract.fields, rule.indexColumn);
       && count.kind.IntegerKind? && !count.nullable && IsBounds(count.kind.bounds)
       && CountFits(rule.bounds, IsObjectFamily(f), ArrayAt(contract, rule.rows), ParentBounds(contract, f))
       && count.kind.bounds == rule.bounds
       && field.Some? && IndexFits(count, IndexType(field.value.typ, field.value.required))
  }

  /** A family is looked at only if it has a rule and a non-empty source name. */
  predicate Active(c: Scene, f: string) {
    f in c.contract.families && f in c.sources && c.sources[f] != ""
  }

  ghost predicate FamilyFine(c: Scene, f: string)
    requires Active(c, f)
  {
    var rule, table := c.contract.families[f], c.sources[f];
    var source := ColumnsOf(c.snapshot, table);
    && IsName(table) && table in c.policies && c.policies[table] == "bundled" && source != []
    && RowsFine(c.contract, f, rule)
    && (forall k :: 0 <= k < |source| ==> SourceFine(source, rule, k))
    && (forall n :: n in rule.columns ==> ProjectionFine(c.contract, c.dialect, rule, source, n))
    && OwnPaths(rule, rule.columns.Keys)
    && CountFine(c.contract, f, rule)
  }

  method CheckFamily(c: Scene, f: string) returns (problems: seq<Problem>)
    requires Active(c, f)
    ensures problems == [] <==> FamilyFine(c, f)
  {
    var rule, table := c.contract.families[f], c.sources[f];
    var source := ColumnsOf(c.snapshot, table);
    var columns := CheckSource(source, rule);
    var projections := CheckProjections(c.contract, c.dialect, rule, source);
    problems := (if IsName(table) then [] else [BadTableName])
                + (if table in c.policies && c.policies[table] == "bundled" then [] else [NotBundled])
                + (if source == [] then [AbsentSource] else [])
                + (if RowsFine(c.contract, f, rule) then [] else [BadRows])
                + columns + projections
                + (if CountFine(c.contract, f, rule) then [] else [BadCount]);
  }

  /** Two families share no table, no rows, and no half of their count binding. */
  predicate Separate(c: Scene, f: string, g: string)
    requires Active(c, f) && Active(c, g)
  {
    var r, q := c.contract.families[f], c.contract.families[g];
    c.sources[f] != c.sources[g] && r.rows != q.rows
    && r.indexColumn != q.indexColumn && r.manifestPath != q.manifestPath
  }

  ghost predicate FamilyStep(c: Scene, declared: set<string>, k: nat)
    requires k < |FAMILIES|
  {
    Active(c, FAMILIES[k]) ==>
      && FamilyFine(c, FAMILIES[k]) && c.sources[FAMILIES[k]] !in declared
      && forall i :: 0 <= i < k && Active(c, FAMILIES[i]) ==> Separate(c, FAMILIES[i], FAMILIES[k])
  }

  /** What a family may not share with another. */
  datatype Aspect = TableAspect | RowsAspect | ColumnAspect | PathAspect

  function Item(c: Scene, f: string, aspect: Aspect): string
    requires Active(c, f)
  {
    match aspect
    case TableAspect => c.sources[f]
    case RowsAspect => c.contract.families[f].rows
    case ColumnAspect => c.contract.families[f].indexColumn
    case PathAspect => c.contract.families[f].manifestPath
  }

  /** What the first `k` families use of one kind, in order. */
  function Items(c: Scene, k: nat, aspect: Aspect): seq<string>
    requires k <= |FAMILIES|
  {
    if k == 0 then []
    else Items(c, k - 1, aspect) + if Active(c, FAMILIES[k - 1]) then [Item(c, FAMILIES[k - 1], aspect)] else []
  }

  lemma {:induction false} ItemOwner(c: Scene, k: nat, aspect: Aspect, x: string)
    requires k <= |FAMILIES|
    ensures x in Items(c, k, aspect)
            <==> exists i :: 0 <= i < k && Active(c, FAMILIES[i]) && Item(c, FAMILIES[i], aspect) == x
    decreases k
  {
    if k > 0 {
      ItemOwner(c, k - 1, aspect, x);
    }
  }

  /** Source tables of the first `k` families. */
  function ActiveTables(c: Scene, k: nat): seq<string>
    requires k <= |FAMILIES|
  {
    if k == 0 then []
    else ActiveTables(c, k - 1) + if Active(c, FAMILIES[k - 1]) then [c.sources[FAMILIES[k - 1]]] else []
  }

  lemma {:induction false} TablesAreItems(c: Scene, k: nat)
    requires k <= |FAMILIES|
    ensures ActiveTables(c, k) == Items(c, k, TableAspect)
    decreases k
  {
    if k > 0 {
      TablesAreItems(c, k - 1);
    }
  }

  /** What the first `k` families have used up. */
  datatype Used = Used(tables: set<string>, rows: set<string>, columns: set<string>, paths: set<string>)

  ghost predicate UsedBy(c: Scene, declared: set<string>, k: nat, u: Used)
    requires k <= |FAMILIES|
  {
    && u.tables == declared + Elements(Items(c, k, TableAspect)) && u.rows == Elements(Items(c, k, RowsAspect))
    && u.columns == Elements(Items(c, k, ColumnAspect)) && u.paths == Elements(Items(c, k, PathAspect))
  }

  function Use(c: Scene, f: string, u: Used): Used
    requires Active(c, f)
  {
    var rule := c.contract.families[f];
    Used(u.tables + {c.sources[f]}, u.rows + {rule.rows}, u.columns + {rule.indexColumn}, u.paths + {rule.manifestPath})
  }

  /** One active family: its own rules, and nothing it uses was used before. */
  method CheckNext(c: Scene, f: string, u: Used) returns (problems: seq<Problem>)
    requires Active(c, f)
    ensures var rule := c.contract.families[f];
            problems == [] <==> FamilyFine(c, f) && c.sources[f] !in u.tables
                                && rule.rows !in u.rows
                                && rule.indexColumn !in u.columns && rule.manifestPath !in u.paths
  {
    var rule := c.contract.families[f];
    var own := CheckFamily(c, f);
    problems := (if c.sources[f] in u.tables then [SourceReused] else [])
                + (if rule.rows in u.rows then [RowsShared] else [])
                + own
                + (if rule.indexColumn in u.columns || rule.manifestPath in u.paths then [CountShared] else []);
  }

  ghost predicate StepsFine(c: Scene, declared: set<string>, k: nat)
    requires k <= |FAMILIES|
  {
    forall j :: 0 <= j < k ==> FamilyStep(c, declared, j)
  }

  lemma ItemsNext(c: Scene, k: nat, aspect: Aspect)
    requires k < |FAMILIES|
    ensures Active(c, FAMILIES[k]) ==>
              Elements(Items(c, k + 1, aspect)) == Elements(Items(c, k, aspect)) + {Item(c, FAMILIES[k], aspect)}
    ensures !Active(c, FAMILIES[k]) ==> Items(c, k + 1, aspect) == Items(c, k, aspect)
  {
  }

  lemma UsedNext(c: Scene, declared: set<string>, k: nat, u: Used)
    requires k < |FAMILIES| && UsedBy(c, declared, k, u)
    ensures UsedBy(c, declared, k + 1, if Active(c, FAMILIES[k]) then Use(c, FAMILIES[k], u) else u)
  {
    ItemsNext(c, k, TableAspect);
    ItemsNext(c, k, RowsAspect);
    ItemsNext(c, k, ColumnAspect);
    ItemsNext(c, k, PathAspect);
  }

  predicate Differs(c: Scene, f: string, g: string, aspect: Aspect)
    requires Active(c, f) && Active(c, g)
  {
    Item(c, f, aspect) != Item(c, g, aspect)
  }

  lemma SeparateExactly(c: Scene, f: string, g: string)
    requires Active(c, f) && Active(c, g)
    ensures Separate(c, f, g)
            <==> Differs(c, f, g, TableAspect) && Differs(c, f, g, RowsAspect)
                 && Differs(c, f, g, ColumnAspect) && Differs(c, f, g, PathAspect)
  {
  }

  ghost predicate DiffersFromAll(c: Scene, k: nat, aspect: Aspect)
    requires k < |FAMILIES| && Active(c, FAMILIES[k])
  {
    forall i :: 0 <= i < k && Active(c, FAMILIES[i]) ==> Differs(c, FAMILIES[i], FAMILIES[k], aspect)
  }

  ghost predicate SeparateFromAll(c: Scene, k: nat)
    requires k < |FAMILIES| && Active(c, FAMILIES[k])
  {
    forall i :: 0 <= i < k && Active(c, FAMILIES[i]) ==> Separate(c, FAMILIES[i], FAMILIES[k])
  }

  lemma NewItem(c: Scene, k: nat, aspect: Aspect)
    requires k < |FAMILIES| && Active(c, FAMILIES[k])
    ensures Item(c, FAMILIES[k], aspect) !in Items(c, k, aspect) <==> DiffersFromAll(c, k, aspect)
  {
    ItemOwner(c, k, aspect, Item(c, FAMILIES[k], aspect));
  }

  lemma SeparateByAspect(c: Scene, k: nat)
    requires k < |FAMILIES| && Active(c, FAMILIES[k])
    ensures SeparateFromAll(c, k)
            <==> DiffersFromAll(c, k, TableAspect) && DiffersFromAll(c, k, RowsAspect)
                 && DiffersFromAll(c, k, ColumnAspect) && DiffersFromAll(c, k, PathAspect)
  {
    forall i | 0 <= i < k && Active(c, FAMILIES[i])
      ensures Separate(c, FAMILIES[i], FAMILIES[k])
              <==> Differs(c, FAMILIES[i], FAMILIES[k], TableAspect)
                   && Differs(c, FAMILIES[i], FAMILIES[k], RowsAspect)
                   && Differs(c, FAMILIES[i], FAMILIES[k], ColumnAspect)
                   && Differs(c, FAMILIES[i], FAMILIES[k], PathAspect)
    {
      SeparateExactly(c, FAMILIES[i], FAMILIES[k]);
    }
  }

  /** Nothing the next family uses was used before exactly when it is separate from each earlier family. */
  lemma NewExactly(c: Scene, k: nat)
    requires k < |FAMILIES| && Active(c, FAMILIES[k])
    ensures SeparateFromAll(c, k)
            <==> Item(c, FAMILIES[k], TableAspect) !in Items(c, k, TableAspect)
                 && Item(c, FAMILIES[k], RowsAspect) !in Items(c, k, RowsAspect)
                 && Item(c, FAMILIES[k], ColumnAspect) !in Items(c, k, ColumnAspect)
                 && Item(c, FAMILIES[k], PathAspect) !in Items(c, k, PathAspect)
  {
    SeparateByAspect(c, k);
    NewItem(c, k, TableAspect);
    NewItem(c, k, RowsAspect);
    NewItem(c, k, ColumnAspect);
    NewItem(c, k, PathAspect);
  }

  /** One turn of the family loop; a family without rule or source name is passed over. */
  method CheckTurn(c: Scene, k: nat, used: Used, ghost declared: set<string>)
    returns (problems: seq<Problem>, used': Used)
    requires k < |FAMILIES| && UsedBy(c, declared, k, used)
    ensures problems == [] <==> FamilyStep(c, declared, k)
    ensures UsedBy(c, declared, k + 1, used')
  {
    UsedNext(c, declared, k, used);
    if !Active(c, FAMILIES[k]) {
      return [], used;
    }
    problems := CheckNext(c, FAMILIES[k], used);
    used' := Use(c, FAMILIES[k], used);
    NewExactly(c, k);
  }

  method CheckFamilies(c: Scene, declared: set<string>) returns (problems: seq<Problem>, declared': set<string>)
    ensures problems == [] <==> StepsFine(c, declared, |FAMILIES|)
    ensures declared' == declared + Elements(ActiveTables(c, |FAMILIES|))
  {
    problems := [];
    var used := Used(declared, {}, {}, {});
    for k := 0 to |FAMILIES|
      invariant UsedBy(c, declared, k, used)
      invariant problems == [] <==> StepsFine(c, declared, k)
    {
      var found;
      found, used := CheckTurn(c, k, used, declared);
      problems := problems + found;
    }
    TablesAreItems(c, |FAMILIES|);
    declared' := used.tables;
  }

  // ---- receipts ----

  function Roles(r: Receipt): seq<string> {
    [r.captureId, r.digest, r.acceptedAt]
  }

  predicate ThreeDifferent(r: Receipt) {
    r.captureId != r.digest && r.captureId != r.acceptedAt && r.digest != r.acceptedAt
  }

  /** A role of the original receipt binds a source column, a bundle value and an index field. */
  predicate RoleFine(contract: Contract, path: string, column: string) {
    var field := FirstNamed(contract.fields, column);
    && Below(path, contract.receiptPath) && path in contract.values
    && field.Some? && IndexFits(contract.values[path], IndexType(field.value.typ, field.value.required))
    && "completion" in contract.families
    && exists n :: n in contract.families["completion"].columns
                   && contract.families["completion"].columns[n].binding == PathBinding(ReceiptScope, path)
  }

  predicate ReceiptOk(contract: Contract) {
    && ThreeDifferent(contract.receipt) && ThreeDifferent(contract.indexReceipt)
    && forall k :: 0 <= k < 3 ==> RoleFine(contract, Roles(contract.receipt)[k], Roles(contract.indexReceipt)[k])
  }

  method CheckReceipt(contract: Contract) returns (problems: seq<Problem>)
    ensures problems == [] <==> ReceiptOk(contract)
  {
    problems := if ThreeDifferent(contract.receipt) && ThreeDifferent(contract.indexReceipt) then [] else [BadReceipt];
    for k := 0 to 3
      invariant problems == [] <==> ThreeDifferent(contract.receipt) && ThreeDifferent(contract.indexReceipt)
                                    && forall j :: 0 <= j < k ==>
                                         RoleFine(contract, Roles(contract.receipt)[j], Roles(contract.indexReceipt)[j])
    {
      if !RoleFine(contract, Roles(contract.receipt)[k], Roles(contract.indexReceipt)[k]) {
        problems := problems + [BadReceipt];
      }
    }
  }

  // ---- the complete group ----

  function FamilySet(): set<string> {
    {"capture", "pages", "funds", "holdings", "targets", "completion"}
  }

  predicate GroupComplete(c: Scene) {
    c.contract.families.Keys == FamilySet() && c.sources.Keys == FamilySet()
  }
}

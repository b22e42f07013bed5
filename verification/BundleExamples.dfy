/**
 Two declarations built on one contract. With all six source names the audit accepts six
 tables; with none it accepts as well, because empty source names are skipped without a problem.
 */
module BundleExamples {
  import opened Common
  import opened BundleModel
  import opened BundleValues
  import opened BundlePaths
  import opened BundleIndex
  import opened BundleFamilies
  import opened BundleScene
  import opened BundleAudit
  import opened BundleCover

  const TEXT: Value := Value(false, StringKind)

  const ONE: Bounds := Bounds(1, 1)

  const COUNT: Value := Value(false, IntegerKind(ONE))

  function Under(x: char): string {
    "r." + [x]
  }

  const ROLES: Receipt := Receipt(Under('a'), Under('b'), Under('d'))

  /** Every family stores the three receipt values. */
  const COLUMNS: map<string, Projection> := map[
    "a" := Projection(Column("text", false, None, None), PathBinding(ReceiptScope, Under('a'))),
    "b" := Projection(Column("text", false, None, None), PathBinding(ReceiptScope, Under('b'))),
    "d" := Projection(Column("text", false, None, None), PathBinding(ReceiptScope, Under('d')))]

  function RowsOf(f: string): string {
    if f == "capture" then "c" else if f == "pages" then "c.p[]" else if f == "funds" then "c.f[]"
    else if f == "holdings" then "c.f[].h[]" else if f == "targets" then "c.f[].t[]" else "r"
  }

  function RuleOf(f: string): Rule {
    Rule(RowsOf(f), Some(if IsChildFamily(f) then "c.f[]" else "c"), COLUMNS, COUNTS + f, f, ONE)
  }

  function ReceiptPaths(): set<string> {
    {Under('a'), Under('b'), Under('d')}
  }

  function CountPaths(): set<string> {
    set f | f in FamilySet() :: COUNTS + f
  }

  function ArrayPaths(): set<string> {
    {"c.p[]", "c.f[]", "c.f[].h[]", "c.f[].t[]"}
  }

  /** Index fields: the three receipt values, then a count for each family. */
  const NAMES: seq<string> := ["a", "b", "d"] + FAMILIES

  function FieldAt(k: nat): Field
    requires k < |NAMES|
  {
    Field(NAMES[k], k + 1, if k < 3 then "string" else "int", true)
  }

  ghost predicate SampleTree(contract: Contract) {
    && contract.capturePath == "c" && contract.receiptPath == "r"
    && contract.values.Keys == ReceiptPaths() + CountPaths() && contract.arrays.Keys == ArrayPaths()
    && (forall p :: p in contract.values ==> contract.values[p] == if p in ReceiptPaths() then TEXT else COUNT)
    && (forall p :: p in contract.arrays ==> contract.arrays[p] == ONE)
  }

  ghost predicate SampleFields(fields: seq<Field>) {
    |fields| == |NAMES| && forall k :: 0 <= k < |fields| ==> fields[k] == FieldAt(k)
  }

  ghost predicate SampleFamilies(families: map<string, Rule>) {
    families.Keys == FamilySet() && forall f :: f in families ==> families[f] == RuleOf(f)
  }

  /** The contract of both declarations. */
  ghost predicate Sample(contract: Contract) {
    && contract.version == 1 && contract.dialect == None && contract.physicalVersion == None
    && contract.receipt == ROLES && contract.indexReceipt == Receipt("a", "b", "d")
    && SampleTree(contract) && SampleFields(contract.fields) && SampleFamilies(contract.families)
  }

  // ---- the bundle tree ----

  /** What every prefix in the tree of the contract is. */
  function KindOf(key: string): Shape {
    if |key| == 1 || (|key| in {8, 15} && key[0] == 'm') then ObjectShape
    else if key != "" && key[0] == 'c' then ArrayShape
    else ValueShape
  }

  ghost predicate Typical(d: (string, Shape)) {
    forall x :: x in ShapesOf(d) ==> x.1 == KindOf(x.0)
  }

  ghost predicate TypicalFrom(parent: string, parts: seq<string>, terminal: Shape) {
    forall x :: x in Shapes(parent, parts, terminal) ==> x.1 == KindOf(x.0)
  }

  lemma TypicalLast(parent: string, part: string, terminal: Shape)
    requires KindOf(parent + Bare(part)) == if EndsAsArray(part) then ArrayShape else terminal
    ensures TypicalFrom(parent, [part], terminal)
  {
    assert [part][1..] == [];
  }

  lemma TypicalFirst(parent: string, part: string, rest: seq<string>, terminal: Shape)
    requires rest != [] && TypicalFrom(parent + part + ".", rest, terminal)
    requires KindOf(parent + Bare(part)) == if EndsAsArray(part) then ArrayShape else ObjectShape
    ensures TypicalFrom(parent, [part] + rest, terminal)
  {
    assert ([part] + rest)[1..] == rest;
  }

  lemma NoMark(s: string)
    requires s != "" && s[|s| - 1] != ']'
    ensures !EndsAsArray(s) && Bare(s) == s
  {
    if |s| >= 2 {
      assert s[|s| - 2..][1] == s[|s| - 1];
    }
  }

  lemma NamePart(s: string)
    requires IsName(s)
    ensures IsPart(s) && !EndsAsArray(s) && Bare(s) == s
  {
    NoMark(s);
  }

  lemma LetterArray(x: char)
    requires 'a' <= x <= 'z'
    ensures IsPart([x] + "[]") && EndsAsArray([x] + "[]") && Bare([x] + "[]") == [x]
  {
  }

  lemma TwoParts(a: string, b: string)
    requires IsPart(a) && IsPart(b)
    ensures Split(a + "." + b) == [a, b] && IsPath(a + "." + b)
  {
    PartExactly(a);
    PartExactly(b);
    PlainSplit(a);
    PlainSplit(b);
    SplitJoined(a, b);
  }

  lemma ThreeParts(a: string, b: string, c: string)
    requires IsPart(a) && IsPart(b) && IsPart(c)
    ensures Split(a + "." + b + "." + c) == [a, b, c] && IsPath(a + "." + b + "." + c)
  {
    TwoParts(a, b);
    PartExactly(c);
    PlainSplit(c);
    SplitJoined(a + "." + b, c);
  }

  lemma FamilyName(f: string)
    requires f in FamilySet()
    ensures IsName(f)
  {
  }

  lemma RootAccepted(x: char)
    requires 'a' <= x <= 'z'
    ensures IsPath([x]) && !HasArrayMark([x]) && Typical(([x], ObjectShape))
  {
    NamePart([x]);
    PlainSplit([x]);
    assert "" + [x] == [x];
    TypicalLast("", [x], ObjectShape);
  }

  lemma RoleAccepted(x: char)
    requires 'a' <= x <= 'z'
    ensures IsPath(Under(x)) && !EndsAsArray(Under(x)) && Typical((Under(x), ValueShape))
    ensures Below(Under(x), "r")
  {
    NamePart("r");
    NamePart([x]);
    TwoParts("r", [x]);
    NoMark(Under(x));
    assert "r" + "." + [x] == Under(x) && "" + "r" == "r" && "" + "r" + "." == "r.";
    TypicalLast("r.", [x], ValueShape);
    TypicalFirst("", "r", [[x]], ValueShape);
    assert ["r"] + [[x]] == ["r", [x]];
    assert Under(x)[..1] == "r" && Under(x)[1] == '.' && Under(x)[2] == x && |Under(x)| == 3;
  }

  function ShapeAt(part: string, shape: Shape): Shape {
    if EndsAsArray(part) then ArrayShape else shape
  }

  /** A path of three parts whose prefixes are what the tree says. */
  lemma ThreeTypical(a: string, b: string, c: string, terminal: Shape, p: string)
    requires IsPart(a) && IsPart(b) && IsPart(c) && p == a + "." + b + "." + c
    requires KindOf(Bare(a)) == ShapeAt(a, ObjectShape) && KindOf(a + "." + Bare(b)) == ShapeAt(b, ObjectShape)
    requires KindOf(a + "." + b + "." + Bare(c)) == ShapeAt(c, terminal)
    ensures IsPath(p) && Typical((p, terminal))
  {
    ThreeParts(a, b, c);
    assert "" + Bare(a) == Bare(a) && "" + a == a;
    TypicalLast(a + "." + b + ".", c, terminal);
    TypicalFirst(a + ".", b, [c], terminal);
    TypicalFirst("", a, [b] + [c], terminal);
    assert [a] + ([b] + [c]) == [a, b, c];
  }

  lemma CountKinds(f: string)
    requires f != ""
    ensures KindOf("manifest") == KindOf("manifest" + "." + "counts") == ObjectShape && KindOf(COUNTS + f) == ValueShape
  {
    assert (COUNTS + f)[0] == 'm';
  }

  lemma CountPath(f: string)
    ensures "manifest" + "." + "counts" + "." + f == COUNTS + f
  {
    assert "manifest" + "." + "counts" + "." == COUNTS;
  }

  lemma LastOfCount(f: string)
    requires IsName(f)
    ensures !EndsAsArray(COUNTS + f)
  {
    var p := COUNTS + f;
    assert p[|p| - 1] == f[|f| - 1];
    NoMark(p);
  }

  lemma CountAccepted(f: string, head: string, middle: string)
    requires IsName(f) && head == "manifest" && middle == "counts"
    ensures IsPath(COUNTS + f) && !EndsAsArray(COUNTS + f) && Typical((COUNTS + f, ValueShape))
  {
    NamePart(head);
    NamePart(middle);
    NamePart(f);
    CountPath(f);
    CountKinds(f);
    LastOfCount(f);
    ThreeTypical(head, middle, f, ValueShape, COUNTS + f);
  }

  lemma CaptureArray(x: char, p: string)
    requires 'a' <= x <= 'z' && p == "c." + [x] + "[]"
    ensures IsPath(p) && EndsAsArray(p) && Typical((p, ObjectShape))
  {
    NamePart("c");
    LetterArray(x);
    TwoParts("c", [x] + "[]");
    assert p == "c" + "." + ([x] + "[]") && "" + "c" == "c" && "" + "c" + "." == "c.";
    TypicalLast("c.", [x] + "[]", ObjectShape);
    TypicalFirst("", "c", [[x] + "[]"], ObjectShape);
    assert ["c"] + [[x] + "[]"] == ["c", [x] + "[]"];
  }

  lemma FundsArray(x: char, p: string)
    requires 'a' <= x <= 'z' && p == "c.f[]." + [x] + "[]"
    ensures IsPath(p) && EndsAsArray(p) && Typical((p, ObjectShape))
  {
    NamePart("c");
    LetterArray('f');
    LetterArray(x);
    var f, last := ['f'] + "[]", [x] + "[]";
    assert p == "c" + "." + f + "." + last;
    ThreeTypical("c", f, last, ObjectShape, p);
  }

  lemma ArrayAccepted(p: string)
    requires p in ArrayPaths()
    ensures IsPath(p) && EndsAsArray(p) && Typical((p, ObjectShape))
  {
    if p == "c.p[]" {
      CaptureArray('p', p);
    } else if p == "c.f[]" {
      CaptureArray('f', p);
    } else if p == "c.f[].h[]" {
      FundsArray('h', p);
    } else {
      FundsArray('t', p);
    }
  }

  lemma TypicalAgree(decls: set<(string, Shape)>)
    requires forall d :: d in decls ==> Typical(d)
    ensures Consistent(decls)
  {
  }

  lemma CountIsNoRole(f: string)
    ensures COUNTS + f !in ReceiptPaths()
  {
    assert |COUNTS + f| >= |COUNTS|;
  }

  lemma ValueAccepted(p: string)
    requires p in ReceiptPaths() + CountPaths()
    ensures ValueFine(p, if p in ReceiptPaths() then TEXT else COUNT) && Typical((p, ValueShape))
  {
    if p in ReceiptPaths() {
      RoleAccepted(if p == Under('a') then 'a' else if p == Under('b') then 'b' else 'd');
    } else {
      var f :| f in FamilySet() && p == COUNTS + f;
      FamilyName(f);
      CountAccepted(f, "manifest", "counts");
    }
  }

  lemma DeclaredTypical(contract: Contract, d: (string, Shape))
    requires SampleTree(contract) && d in Decls(contract)
    ensures Typical(d)
  {
    if d.0 in contract.values && d.1 == ValueShape {
      ValueAccepted(d.0);
    } else if d.0 in contract.arrays {
      ArrayAccepted(d.0);
    } else {
      RootAccepted(if d.0 == "c" then 'c' else 'r');
    }
  }

  lemma ShapesAccepted(contract: Contract)
    requires SampleTree(contract)
    ensures Consistent(Decls(contract))
  {
    forall d | d in Decls(contract) ensures Typical(d) {
      DeclaredTypical(contract, d);
    }
    TypicalAgree(Decls(contract));
  }

  lemma ValuesAccepted(values: map<string, Value>)
    requires values.Keys == ReceiptPaths() + CountPaths()
    requires forall p :: p in values ==> values[p] == if p in ReceiptPaths() then TEXT else COUNT
    ensures forall p :: p in values ==> ValueFine(p, values[p])
  {
    forall p | p in values ensures ValueFine(p, values[p]) {
      ValueAccepted(p);
    }
  }

  lemma ArraysAccepted(arrays: map<string, Bounds>)
    requires arrays.Keys == ArrayPaths() && forall p :: p in arrays ==> arrays[p] == ONE
    ensures forall p :: p in arrays ==> ArrayFine(p, arrays[p])
  {
    forall p | p in arrays ensures ArrayFine(p, ONE) {
      OneArray(p);
    }
  }

  lemma OneArray(p: string)
    requires p in ArrayPaths()
    ensures ArrayFine(p, ONE)
  {
    ArrayAccepted(p);
  }

  lemma TreeAccepted(contract: Contract)
    requires SampleTree(contract)
    ensures TreeOk(contract)
  {
    RootAccepted('c');
    RootAccepted('r');
    ValuesAccepted(contract.values);
    ArraysAccepted(contract.arrays);
    ShapesAccepted(contract);
  }

  // ---- index and receipt ----

  function CatalogOf(table: string, fields: seq<Field>): seq<CatalogColumn> {
    if fields == [] then [] else [CatalogColumn(table, fields[0])] + CatalogOf(table, fields[1..])
  }

  lemma {:induction false} FieldsOfAll(table: string, fields: seq<Field>)
    ensures FieldsOf(CatalogOf(table, fields), table) == fields
  {
    if fields != [] {
      FieldsOfAll(table, fields[1..]);
      var catalog := CatalogOf(table, fields);
      assert catalog[1..] == CatalogOf(table, fields[1..]);
      assert [fields[0]] + fields[1..] == fields;
    }
  }

  lemma NamesDiffer(i: nat, j: nat)
    requires i < |NAMES| && j < |NAMES| && NAMES[i] == NAMES[j]
    ensures i == j && IsName(NAMES[i]) && NAMES[i] !in LOOKUPS
  {
    assert NAMES == ["a", "b", "d", "capture", "pages", "funds", "holdings", "targets", "completion"];
  }

  lemma FieldFound(fields: seq<Field>, k: nat)
    requires SampleFields(fields) && k < |fields|
    ensures FirstNamed(fields, NAMES[k]) == Some(FieldAt(k)) && IsName(NAMES[k])
  {
    assert fields[k].column == NAMES[k];
    var found := FirstNamed(fields, NAMES[k]);
    var i :| 0 <= i < |fields| && fields[i] == found.value;
    NamesDiffer(i, k);
  }

  lemma IndexAccepted(fields: seq<Field>)
    requires SampleFields(fields)
    ensures IndexOk(fields, fields)
  {
    forall k | 0 <= k < |fields|
      ensures FieldFine(fields[k], fields) && Named(fields, fields[k].column) && Unrepeated(fields, k)
    {
      FieldFound(fields, k);
      forall i | 0 <= i < k ensures fields[i].column != fields[k].column {
        if fields[i].column == fields[k].column {
          NamesDiffer(i, k);
        }
      }
    }
  }

  lemma RoleStored(contract: Contract, k: nat)
    requires SampleTree(contract) && SampleFamilies(contract.families) && k < 3
    ensures var path := Roles(ROLES)[k];
            && path == Under(NAMES[k][0]) && path in contract.values && contract.values[path] == TEXT
            && NAMES[k] in contract.families["completion"].columns
            && contract.families["completion"].columns[NAMES[k]].binding == PathBinding(ReceiptScope, path)
  {
    assert Roles(ROLES)[k] in ReceiptPaths();
  }

  lemma RoleAt(contract: Contract, k: nat)
    requires SampleTree(contract) && SampleFields(contract.fields) && SampleFamilies(contract.families) && k < 3
    ensures RoleFine(contract, Roles(ROLES)[k], NAMES[k])
  {
    FieldFound(contract.fields, k);
    RoleAccepted(NAMES[k][0]);
    RoleStored(contract, k);
  }

  lemma ReceiptAccepted(contract: Contract)
    requires Sample(contract)
    ensures ReceiptOk(contract)
  {
    assert Under('a')[2] == 'a' && Under('b')[2] == 'b' && Under('d')[2] == 'd';
    forall k | 0 <= k < 3 ensures RoleFine(contract, Roles(contract.receipt)[k], Roles(contract.indexReceipt)[k]) {
      RoleAt(contract, k);
    }
  }

  lemma PhysicalAccepted(contract: Contract)
    requires Sample(contract)
    ensures PhysicalOk(contract)
  {
    forall k | 0 <= k < |contract.fields| ensures contract.fields[k].column !in LOOKUPS {
      NamesDiffer(k, k);
    }
  }

  /** Everything the audit asks of a contract itself, with its own index as the catalog. */
  ghost predicate Sound(contract: Contract) {
    && contract.version == 1 && contract.dialect == None && contract.families.Keys == FamilySet()
    && TreeOk(contract) && PhysicalOk(contract) && ReceiptOk(contract)
    && IndexOk(contract.fields, FieldsOf(CatalogOf("t", contract.fields), "t"))
  }

  lemma SampleIsSound(contract: Contract)
    requires Sample(contract)
    ensures Sound(contract)
  {
    FieldsOfAll("t", contract.fields);
    TreeAccepted(contract);
    IndexAccepted(contract.fields);
    PhysicalAccepted(contract);
    ReceiptAccepted(contract);
  }

  /** One mapping of a contract to the catalog table that is its index. */
  function InputOf(contract: Contract, sources: map<string, string>, policies: map<string, string>,
                   snapshot: seq<SourceColumn>): Input
  {
    var m := Mapping("only", 1, "chain", "t", sources);
    Input(None, snapshot, None, CatalogOf("t", contract.fields), policies, map["only" := contract], [m])
  }

  lemma MappingAccepted(input: Input, m: Mapping, c: Scene)
    requires Known(input, m) && c == SceneOf(input, m) && Sound(c.contract) && DialectFine(input, c.dialect)
    requires c.sources.Keys == FamilySet() && m.namespace == "chain" && m.indexTable == "t"
    requires input.catalog == CatalogOf("t", c.contract.fields)
    ensures LocalOk(input, m)
  {
  }

  /** Source names aside, such a mapping is accepted. */
  lemma Accepted(contract: Contract, c: Scene, input: Input)
    requires Sound(contract) && c.sources.Keys == FamilySet() && StepsFine(c, {}, |FAMILIES|)
    requires c == Scene(contract, c.sources, c.policies, Postgres, c.snapshot)
    requires input == InputOf(contract, c.sources, c.policies, c.snapshot) && BundledMapped(input)
    ensures AuditOk(input)
  {
    var m := input.mappings[0];
    assert Known(input, m) && SceneOf(input, m) == c;
    MappingAccepted(input, m, c);
    assert Elements(Tables(input, 0)) == {};
    assert MappingStep(input, 0);
  }

  // ---- all six source names ----

  /** The three columns of one source table. */
  function Block(table: string): seq<SourceColumn> {
    [SourceColumn(table, "a", "text", false),
     SourceColumn(table, "b", "text", false), SourceColumn(table, "d", "text", false)]
  }

  function Blocks(tables: seq<string>): seq<SourceColumn> {
    if tables == [] then [] else Block(tables[0]) + Blocks(tables[1..])
  }

  lemma {:induction false} ColumnsJoin(a: seq<SourceColumn>, b: seq<SourceColumn>, table: string)
    ensures ColumnsOf(a + b, table) == ColumnsOf(a, table) + ColumnsOf(b, table)
  {
    if a == [] {
      assert a + b == b;
    } else {
      assert (a + b)[1..] == a[1..] + b;
      ColumnsJoin(a[1..], b, table);
    }
  }

  lemma BlockColumns(own: string, table: string)
    ensures ColumnsOf(Block(own), table) == if own == table then Block(own) else []
  {
    var block := Block(own);
    assert block == [block[0]] + ([block[1]] + [block[2]]);
    forall k | 0 <= k < 3 ensures ColumnsOf([block[k]], table) == if own == table then [block[k]] else [] {
      assert [block[k]][1..] == [];
    }
    ColumnsJoin([block[1]], [block[2]], table);
    ColumnsJoin([block[0]], [block[1]] + [block[2]], table);
  }

  lemma {:induction false} BlocksColumns(tables: seq<string>, table: string)
    requires Distinct(tables)
    ensures ColumnsOf(Blocks(tables), table) == if table in tables then Block(table) else []
  {
    if tables != [] {
      BlocksColumns(tables[1..], table);
      ColumnsJoin(Block(tables[0]), Blocks(tables[1..]), table);
      BlockColumns(tables[0], table);
    }
  }

  lemma FamiliesDiffer(i: nat, j: nat)
    requires i < |FAMILIES| && j < |FAMILIES|
    ensures FAMILIES[i] == FAMILIES[j] <==> i == j
  {
    if FAMILIES[i] == FAMILIES[j] {
      assert NAMES[i + 3] == FAMILIES[i] && NAMES[j + 3] == FAMILIES[j];
      NamesDiffer(i + 3, j + 3);
    }
  }

  const OWN_NAMES: map<string, string> := map f | f in FamilySet() :: f

  const ALL_BUNDLED: map<string, string> := map f | f in FamilySet() :: "bundled"

  lemma ChildOf(base: string, x: char, p: string)
    requires 'a' <= x <= 'z' && p == base + "." + [x] + "[]"
    ensures ChildArray(p, base)
  {
    var front := p[..|p| - 2];
    assert front == base + "." + [x] && front[..|base|] == base && front[|base|..] == "." + [x];
    assert p[|p| - 2..] == "[]";
  }

  lemma ArrayRows(contract: Contract, f: string, base: string, x: char)
    requires 'a' <= x <= 'z' && RowsOf(f) == base + "." + [x] + "[]" && RowsOf(f) in ArrayPaths() && base != ""
    requires RowsOf(f) in contract.arrays && !IsObjectFamily(f)
    requires RuleOf(f).parent == Some(base) == ExpectedParent(contract, f)
    ensures RowsFine(contract, f, RuleOf(f))
  {
    ChildOf(base, x, RowsOf(f));
    ArrayAccepted(RowsOf(f));
  }

  lemma ChildRows(contract: Contract, f: string)
    requires SampleTree(contract) && SampleFamilies(contract.families) && IsChildFamily(f)
    ensures RowsFine(contract, f, RuleOf(f))
  {
    assert contract.families["funds"].rows == "c.f[]";
    if f == "holdings" {
      ArrayRows(contract, f, "c.f[]", 'h');
    } else {
      ArrayRows(contract, f, "c.f[]", 't');
    }
  }

  lemma CaptureRows(contract: Contract, f: string)
    requires SampleTree(contract) && f in {"pages", "funds"}
    ensures RowsFine(contract, f, RuleOf(f))
  {
    ArrayRows(contract, f, "c", if f == "pages" then 'p' else 'f');
  }

  lemma ObjectRows(contract: Contract, f: string)
    requires SampleTree(contract) && IsObjectFamily(f)
    ensures RowsFine(contract, f, RuleOf(f))
  {
    if f == "capture" {
      RootAccepted('c');
    } else {
      RootAccepted('r');
    }
  }

  lemma RowsAccepted(contract: Contract, f: string)
    requires SampleTree(contract) && SampleFamilies(contract.families) && f in FamilySet()
    ensures RowsFine(contract, f, RuleOf(f))
  {
    if IsObjectFamily(f) {
      ObjectRows(contract, f);
    } else if IsChildFamily(f) {
      ChildRows(contract, f);
    } else {
      CaptureRows(contract, f);
    }
  }

  lemma BindingAccepted(contract: Contract, rule: Rule, x: char)
    requires SampleTree(contract) && 'a' <= x <= 'z' && Under(x) in ReceiptPaths()
    ensures var binding := PathBinding(ReceiptScope, Under(x));
            BindingFine(contract, rule, binding) && BoundValue(contract, rule, binding) == Some(TEXT)
  {
    RoleAccepted(x);
  }

  lemma BlockHas(table: string, name: string)
    requires name in {"a", "b", "d"}
    ensures FirstColumn(Block(table), name) == Some(SourceColumn(table, name, "text", false))
  {
    var source := Block(table);
    assert source[0].column == "a" && source[1].column == "b" && source[2].column == "d";
    assert FirstColumn(source, name).Some?;
  }

  lemma ProjectionAccepted(contract: Contract, rule: Rule, table: string, name: string)
    requires SampleTree(contract) && rule.columns == COLUMNS && name in {"a", "b", "d"}
    ensures name in rule.columns && ProjectionFine(contract, Postgres, rule, Block(table), name)
  {
    BlockHas(table, name);
    BindingAccepted(contract, rule, name[0]);
  }

  lemma PathsAccepted(rule: Rule)
    requires rule.columns == COLUMNS
    ensures OwnPaths(rule, rule.columns.Keys)
  {
    assert Under('a')[2] == 'a' && Under('b')[2] == 'b' && Under('d')[2] == 'd';
  }

  lemma BoundsAccepted(contract: Contract, f: string)
    requires SampleTree(contract) && SampleFamilies(contract.families) && f in FamilySet()
    ensures CountFits(ONE, IsObjectFamily(f), ArrayAt(contract, RowsOf(f)), ParentBounds(contract, f))
  {
    if !IsObjectFamily(f) {
      assert RowsOf(f) in ArrayPaths();
      assert contract.families["funds"].rows == "c.f[]" && "c.f[]" in ArrayPaths();
    }
  }

  lemma CountValue(contract: Contract, f: string)
    requires SampleTree(contract) && f in FamilySet()
    ensures var path := COUNTS + f;
            path in contract.values && contract.values[path] == COUNT && path[..|COUNTS|] == COUNTS
  {
    assert COUNTS + f in CountPaths();
    CountIsNoRole(f);
  }

  lemma CountField(fields: seq<Field>, k: nat, f: string)
    requires SampleFields(fields) && k < |FAMILIES| && f == FAMILIES[k]
    ensures FirstNamed(fields, f).Some?
    ensures var field := FirstNamed(fields, f).value; IndexFits(COUNT, IndexType(field.typ, field.required))
  {
    assert NAMES[k + 3] == f;
    FieldFound(fields, k + 3);
  }

  lemma CountsAccepted(contract: Contract, k: nat, f: string)
    requires SampleTree(contract) && SampleFields(contract.fields) && SampleFamilies(contract.families)
    requires k < |FAMILIES| && f == FAMILIES[k] && f in FamilySet()
    ensures CountFine(contract, f, RuleOf(f))
  {
    CountValue(contract, f);
    BoundsAccepted(contract, f);
    CountField(contract.fields, k, f);
  }

  /** What the audit of the declaration with all six names looks at. */
  ghost predicate FullScene(c: Scene) {
    && SampleTree(c.contract) && SampleFields(c.contract.fields) && SampleFamilies(c.contract.families)
    && c.sources == OWN_NAMES && c.policies == ALL_BUNDLED && c.dialect == Postgres
    && forall k :: 0 <= k < |FAMILIES| ==> ColumnsOf(c.snapshot, FAMILIES[k]) == Block(FAMILIES[k])
  }

  lemma BlockAccepted(rule: Rule, table: string)
    requires rule.columns == COLUMNS
    ensures forall j :: 0 <= j < |Block(table)| ==> SourceFine(Block(table), rule, j)
  {
    var source := Block(table);
    assert source[0].column == "a" && source[1].column == "b" && source[2].column == "d";
  }

  lemma ColumnsAccepted(contract: Contract, rule: Rule, table: string)
    requires SampleTree(contract) && rule.columns == COLUMNS
    ensures forall j :: 0 <= j < |Block(table)| ==> SourceFine(Block(table), rule, j)
    ensures forall n :: n in rule.columns ==> ProjectionFine(contract, Postgres, rule, Block(table), n)
    ensures OwnPaths(rule, rule.columns.Keys)
  {
    BlockAccepted(rule, table);
    PathsAccepted(rule);
    forall n | n in rule.columns ensures ProjectionFine(contract, Postgres, rule, Block(table), n) {
      ProjectionAccepted(contract, rule, table, n);
    }
  }

  lemma FamilyAccepted(c: Scene, k: nat)
    requires FullScene(c) && k < |FAMILIES|
    ensures Active(c, FAMILIES[k]) && FamilyFine(c, FAMILIES[k])
  {
    var f := FAMILIES[k];
    assert f in FamilySet();
    FamilyName(f);
    RowsAccepted(c.contract, f);
    ColumnsAccepted(c.contract, RuleOf(f), f);
    CountsAccepted(c.contract, k, f);
  }

  lemma FamiliesSeparate(c: Scene, i: nat, k: nat)
    requires FullScene(c) && i < k < |FAMILIES| && Active(c, FAMILIES[i]) && Active(c, FAMILIES[k])
    ensures Separate(c, FAMILIES[i], FAMILIES[k])
  {
    FamiliesDiffer(i, k);
    RowsOfDiffer(i, k);
    assert (COUNTS + FAMILIES[i])[|COUNTS|..] == FAMILIES[i] && (COUNTS + FAMILIES[k])[|COUNTS|..] == FAMILIES[k];
  }

  lemma RowsOfDiffer(i: nat, k: nat)
    requires i < k < |FAMILIES|
    ensures RowsOf(FAMILIES[i]) != RowsOf(FAMILIES[k])
  {
  }

  lemma FamiliesAccepted(c: Scene, n: nat)
    requires FullScene(c) && n <= |FAMILIES|
    ensures StepsFine(c, {}, n)
  {
    forall k | 0 <= k < n ensures FamilyStep(c, {}, k) {
      FamilyAccepted(c, k);
      forall i | 0 <= i < k && Active(c, FAMILIES[i]) ensures Separate(c, FAMILIES[i], FAMILIES[k]) {
        FamiliesSeparate(c, i, k);
      }
    }
  }

  /** Every bundled table belongs to one of the six families. */
  lemma AllMapped(input: Input, c: Scene)
    requires |input.mappings| == 1 && Known(input, input.mappings[0]) && SceneOf(input, input.mappings[0]) == c
    requires FullScene(c) && input.policies == ALL_BUNDLED
    ensures BundledMapped(input)
  {
    forall t | t in input.policies ensures t in Tables(input, 1) {
      var k := FamilyPlace(t);
      FamilyAccepted(c, k);
      ActiveTableIn(c, |FAMILIES|, k);
    }
  }

  lemma OnlyScene(contract: Contract, c: Scene, input: Input)
    requires contract.version == 1 && contract.dialect == None
    requires c == Scene(contract, c.sources, c.policies, Postgres, c.snapshot)
    requires input == InputOf(contract, c.sources, c.policies, c.snapshot)
    ensures Known(input, input.mappings[0]) && SceneOf(input, input.mappings[0]) == c
  {
  }

  lemma FullAccepted(contract: Contract, c: Scene, input: Input)
    requires Sound(contract) && FullScene(c) && c == Scene(contract, c.sources, c.policies, Postgres, c.snapshot)
    requires input == InputOf(contract, c.sources, c.policies, c.snapshot)
    ensures AuditOk(input)
  {
    OnlyScene(contract, c, input);
    FamiliesAccepted(c, |FAMILIES|);
    AllMapped(input, c);
    Accepted(contract, c, input);
  }

  lemma FullIsActive(contract: Contract, c: Scene, input: Input)
    requires contract.version == 1 && contract.dialect == None && FullScene(c)
    requires c == Scene(contract, c.sources, c.policies, Postgres, c.snapshot)
    requires input == InputOf(contract, c.sources, c.policies, c.snapshot)
    ensures forall k :: 0 <= k < |FAMILIES| ==> ActiveAt(input, 0, k)
  {
    OnlyScene(contract, c, input);
    forall k | 0 <= k < |FAMILIES| ensures ActiveAt(input, 0, k) {
      FamilyAccepted(c, k);
    }
  }

  // ---- the two declarations ----

  function Fields(): seq<Field> {
    seq(|NAMES|, k requires 0 <= k < |NAMES| => FieldAt(k))
  }

  const CONTRACT: Contract := Contract(
    1, None, "c", "r",
    map p | p in ReceiptPaths() + CountPaths() :: if p in ReceiptPaths() then TEXT else COUNT,
    map p | p in ArrayPaths() :: ONE, map f | f in FamilySet() :: RuleOf(f),
    ROLES, None, Fields(), Receipt("a", "b", "d"))

  lemma ContractIsSample()
    ensures Sample(CONTRACT)
  {
  }

  lemma BlocksScene(contract: Contract, tables: seq<string>)
    requires Sample(contract) && tables == FAMILIES
    ensures FullScene(Scene(contract, OWN_NAMES, ALL_BUNDLED, Postgres, Blocks(tables)))
  {
    forall i, j | 0 <= i < j < |tables| ensures tables[i] != tables[j] {
      FamiliesDiffer(i, j);
    }
    forall k | 0 <= k < |FAMILIES| ensures ColumnsOf(Blocks(tables), FAMILIES[k]) == Block(FAMILIES[k]) {
      BlocksColumns(tables, tables[k]);
    }
  }

  /** With all six source names the mapping is accepted, every family is audited, and six tables are bundled. */
  lemma SixNames(contract: Contract, tables: seq<string>, input: Input)
    requires Sample(contract) && tables == FAMILIES
    requires input == InputOf(contract, OWN_NAMES, ALL_BUNDLED, Blocks(tables))
    ensures AuditOk(input) && |BundledTables(input)| == 6
    ensures forall k :: 0 <= k < |FAMILIES| ==> ActiveAt(input, 0, k)
  {
    var c := Scene(contract, OWN_NAMES, ALL_BUNDLED, Postgres, Blocks(tables));
    SampleIsSound(contract);
    BlocksScene(contract, tables);
    FullAccepted(contract, c, input);
    FullIsActive(contract, c, input);
    SixTables(input);
  }

  lemma SixTables(input: Input)
    requires AuditOk(input) && |input.mappings| == 1 && input.mappings[0].sources == OWN_NAMES
    ensures |BundledTables(input)| == 6
  {
    assert AllNamed(input.mappings[0]);
    SixTablesAMapping(input);
  }

  const FULL: Input := InputOf(CONTRACT, OWN_NAMES, ALL_BUNDLED, Blocks(FAMILIES))

  lemma SixNamesAreAccepted()
    ensures AuditOk(FULL) && |BundledTables(FULL)| == 6
    ensures forall k :: 0 <= k < |FAMILIES| ==> ActiveAt(FULL, 0, k)
  {
    ContractIsSample();
    SixNames(CONTRACT, FAMILIES, FULL);
  }

  const NO_NAMES: map<string, string> := map f | f in FamilySet() :: ""

  const NOTHING: Input := InputOf(CONTRACT, NO_NAMES, map[], [])

  /** Six tables a mapping is not what the audit guarantees: this mapping is accepted with none. */
  lemma EmptyNamesAreAccepted()
    ensures AuditOk(NOTHING) && |NOTHING.mappings| == 1 && BundledTables(NOTHING) == {}
  {
    var c := Scene(CONTRACT, NO_NAMES, map[], Postgres, []);
    ContractIsSample();
    SampleIsSound(CONTRACT);
    assert forall k :: 0 <= k < |FAMILIES| ==> !Active(c, FAMILIES[k]);
    Accepted(CONTRACT, c, NOTHING);
  }
}

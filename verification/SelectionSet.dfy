/**
 The bounded selection a conformance probe asks of a GraphQL field: leaves first, then
 a bounded descent into object fields, never through a required argument.
 */
module SelectionSet {
  import opened Common

  const MAX_DEPTH: nat := 3
  const MAX_LEAVES: nat := 8
  const MAX_BRANCHES: nat := 2

  /** A type as an argument declares it: a named type, wrapped in lists and non-null marks. */
  datatype TypeRef = Named(name: string) | ListOf(of: TypeRef) | NonNull(of: TypeRef)

  datatype Arg = Arg(name: string, typ: TypeRef)

  /** A field with its arguments and the named type behind its wrappers. */
  datatype Field = Field(name: string, args: seq<Arg>, named: string)

  /** Leaves are scalars and enums; `Abstract` is any other type that is no object type. */
  datatype TypeDef = Leaf | Object(fields: seq<Field>) | Abstract

  type Schema = map<string, TypeDef>

  datatype Selection = Bare(name: string) | Nested(name: string, sub: seq<Selection>)

  /** How a type is written (section 3.12 of the GraphQL October 2021 specification). */
  function Text(t: TypeRef): string {
    match t
    case Named(name) => name
    case ListOf(of) => "[" + Text(of) + "]"
    case NonNull(of) => Text(of) + "!"
  }

  /** Read off the text of the argument's type. */
  predicate IsRequired(a: Arg) {
    Text(a.typ) != "" && Text(a.typ)[|Text(a.typ)| - 1] == '!'
  }

  /** No name contains the mark, so the text says exactly whether the type is a non-null one. */
  lemma RequiredIsNonNull(a: Arg)
    requires a.typ.Named? ==> '!' !in a.typ.name
    ensures IsRequired(a) <==> a.typ.NonNull?
  {
    match a.typ
    case Named(name) => assert name != "" ==> name[|name| - 1] in name;
    case ListOf(of) => assert Text(a.typ)[|Text(a.typ)| - 1] == ']';
    case NonNull(of) => assert Text(a.typ)[|Text(a.typ)| - 1] == '!';
  }

  predicate NeedsArgument(f: Field) {
    exists i :: 0 <= i < |f.args| && IsRequired(f.args[i])
  }

  /** A field needs an argument exactly when it declares one of a non-null type. */
  lemma NeedsNonNull(f: Field)
    requires forall a :: a in f.args && a.typ.Named? ==> '!' !in a.typ.name
    ensures NeedsArgument(f) <==> exists a :: a in f.args && a.typ.NonNull?
  {
    forall a | a in f.args ensures IsRequired(a) <==> a.typ.NonNull? {
      RequiredIsNonNull(a);
    }
    if a :| a in f.args && a.typ.NonNull? {
      var i :| 0 <= i < |f.args| && f.args[i] == a;
      assert IsRequired(f.args[i]);
    }
  }

  predicate IsLeaf(schema: Schema, named: string) {
    named in schema && schema[named].Leaf?
  }

  function FieldsOf(schema: Schema, named: string): seq<Field> {
    if named in schema && schema[named].Object? then schema[named].fields else []
  }

  /** Levels of descent still allowed. */
  function Levels(depth: nat): nat {
    if depth < MAX_DEPTH then MAX_DEPTH - depth else 0
  }

  // ---- what the recursion computes ----

  datatype Picked = Picked(leaves: seq<Selection>, branches: seq<Selection>)

  function Pick(schema: Schema, f: Field, depth: nat, p: Picked): Picked
    decreases Levels(depth), 0, 1
  {
    if NeedsArgument(f) then p
    else if IsLeaf(schema, f.named) then
      if |p.leaves| < MAX_LEAVES then p.(leaves := p.leaves + [Bare(f.name)]) else p
    else if depth >= MAX_DEPTH || |p.branches| >= MAX_BRANCHES then p
    else
      var sub := SelectionFor(schema, f.named, depth + 1);
      if sub != [] then p.(branches := p.branches + [Nested(f.name, sub)]) else p
  }

  function PickAll(schema: Schema, fields: seq<Field>, depth: nat, p: Picked): Picked
    decreases Levels(depth), |fields| + 1, 0
  {
    if fields == [] then p else PickAll(schema, fields[1..], depth, Pick(schema, fields[0], depth, p))
  }

  function SelectionFor(schema: Schema, named: string, depth: nat): seq<Selection>
    decreases Levels(depth), |FieldsOf(schema, named)| + 2, 0
  {
    var p := PickAll(schema, FieldsOf(schema, named), depth, Picked([], []));
    p.leaves + p.branches
  }

  /** The loop with its recursive calls. */
  method SelectFields(schema: Schema, named: string, depth: nat) returns (selected: seq<Selection>)
    ensures selected == SelectionFor(schema, named, depth)
    decreases Levels(depth)
  {
    var fields := FieldsOf(schema, named);
    var leaves: seq<Selection>, branches: seq<Selection> := [], [];
    assert fields[0..] == fields;
    for k := 0 to |fields|
      invariant PickAll(schema, fields[k..], depth, Picked(leaves, branches))
                == PickAll(schema, fields, depth, Picked([], []))
    {
      var f := fields[k];
      assert fields[k..][0] == f && fields[k..][1..] == fields[k + 1..];
      if NeedsArgument(f) {
        continue;
      }
      if IsLeaf(schema, f.named) {
        if |leaves| < MAX_LEAVES {
          leaves := leaves + [Bare(f.name)];
        }
        continue;
      }
      if depth >= MAX_DEPTH || |branches| >= MAX_BRANCHES {
        continue;
      }
      var sub := SelectFields(schema, f.named, depth + 1);
      if sub != [] {
        branches := branches + [Nested(f.name, sub)];
      }
    }
    selected := leaves + branches;
  }

  // ---- validity ----

  /**
   Selectable on `fields`: leaf fields bare, object fields with a valid sub-selection, no required
   argument left out.
   */
  predicate ValidOne(schema: Schema, fields: seq<Field>, s: Selection)
    decreases s
  {
    exists i :: 0 <= i < |fields| && fields[i].name == s.name && !NeedsArgument(fields[i])
                && match s
                   case Bare(_) => IsLeaf(schema, fields[i].named)
                   case Nested(_, sub) =>
                     sub != [] && FieldsOf(schema, fields[i].named) != []
                     && forall k :: 0 <= k < |sub| ==> ValidOne(schema, FieldsOf(schema, fields[i].named), sub[k])
  }

  predicate ValidAll(schema: Schema, fields: seq<Field>, ss: seq<Selection>) {
    forall k :: 0 <= k < |ss| ==> ValidOne(schema, fields, ss[k])
  }

  lemma {:induction false} PickIsValid(schema: Schema, fields: seq<Field>, i: nat, depth: nat, p: Picked)
    requires i < |fields| && ValidAll(schema, fields, p.leaves) && ValidAll(schema, fields, p.branches)
    ensures var q := Pick(schema, fields[i], depth, p);
            ValidAll(schema, fields, q.leaves) && ValidAll(schema, fields, q.branches)
    decreases Levels(depth), 0, 1
  {
    var f, q := fields[i], Pick(schema, fields[i], depth, p);
    if !NeedsArgument(f) {
      if IsLeaf(schema, f.named) {
        assert ValidOne(schema, fields, Bare(f.name));
      } else if depth < MAX_DEPTH && |p.branches| < MAX_BRANCHES {
        SelectionIsValid(schema, f.named, depth + 1);
        var sub := SelectionFor(schema, f.named, depth + 1);
        if sub != [] {
          assert ValidOne(schema, FieldsOf(schema, f.named), sub[0]);
          assert ValidOne(schema, fields, Nested(f.name, sub));
        }
      }
    }
  }

  lemma {:induction false} PickAllIsValid(schema: Schema, fields: seq<Field>, i: nat, depth: nat, p: Picked)
    requires i <= |fields| && ValidAll(schema, fields, p.leaves) && ValidAll(schema, fields, p.branches)
    ensures var q := PickAll(schema, fields[i..], depth, p);
            ValidAll(schema, fields, q.leaves) && ValidAll(schema, fields, q.branches)
    decreases Levels(depth), |fields| - i + 1, 0
  {
    if i < |fields| {
      PickIsValid(schema, fields, i, depth, p);
      assert fields[i..][1..] == fields[i + 1..];
      PickAllIsValid(schema, fields, i + 1, depth, Pick(schema, fields[i], depth, p));
    }
  }

  /** Whatever the schema, cycles included, every generated selection is valid on its type. */
  lemma {:induction false} SelectionIsValid(schema: Schema, named: string, depth: nat)
    ensures ValidAll(schema, FieldsOf(schema, named), SelectionFor(schema, named, depth))
    decreases Levels(depth), |FieldsOf(schema, named)| + 2, 0
  {
    var fields := FieldsOf(schema, named);
    assert fields[0..] == fields;
    PickAllIsValid(schema, fields, 0, depth, Picked([], []));
  }

  // ---- size ----

  function Height(ss: seq<Selection>): nat {
    if ss == [] then 0
    else Max(Height(ss[1..]), 1 + if ss[0].Nested? then Height(ss[0].sub) else 0)
  }

  function LeafCount(ss: seq<Selection>): nat {
    if ss == [] then 0
    else LeafCount(ss[1..]) + if ss[0].Nested? then LeafCount(ss[0].sub) else 1
  }

  /** Most leaves below a type with `levels` of descent left. */
  function LeafBudget(levels: nat): nat {
    MAX_LEAVES + if levels == 0 then 0 else MAX_BRANCHES * LeafBudget(levels - 1)
  }

  /** Most leaves below `n` branches. */
  function BranchBudget(n: nat, levels: nat): nat {
    if levels == 0 || n == 0 then 0 else BranchBudget(n - 1, levels) + LeafBudget(levels - 1)
  }

  lemma {:induction false} SizeOfConcat(a: seq<Selection>, b: seq<Selection>)
    ensures Height(a + b) == Max(Height(a), Height(b)) && LeafCount(a + b) == LeafCount(a) + LeafCount(b)
  {
    if a == [] {
      assert a + b == b;
    } else {
      assert (a + b)[1..] == a[1..] + b;
      SizeOfConcat(a[1..], b);
    }
  }

  ghost predicate Small(depth: nat, p: Picked) {
    && |p.leaves| <= MAX_LEAVES && |p.branches| <= MAX_BRANCHES
    && Height(p.leaves) <= 1 && LeafCount(p.leaves) <= |p.leaves|
    && Height(p.branches) <= 1 + Levels(depth)
    && LeafCount(p.branches) <= BranchBudget(|p.branches|, Levels(depth))
  }

  lemma {:induction false} PickIsSmall(schema: Schema, f: Field, depth: nat, p: Picked)
    requires Small(depth, p)
    ensures Small(depth, Pick(schema, f, depth, p))
    decreases Levels(depth), 0, 1
  {
    if !NeedsArgument(f) {
      if IsLeaf(schema, f.named) {
        SizeOfConcat(p.leaves, [Bare(f.name)]);
      } else if depth < MAX_DEPTH && |p.branches| < MAX_BRANCHES {
        SelectionIsSmall(schema, f.named, depth + 1);
        BranchIsSmall(depth, p, f.name, SelectionFor(schema, f.named, depth + 1));
      }
    }
  }

  /** A sub-selection within the budget of the next level keeps the branches within theirs. */
  lemma BranchIsSmall(depth: nat, p: Picked, name: string, sub: seq<Selection>)
    requires Small(depth, p) && depth < MAX_DEPTH && |p.branches| < MAX_BRANCHES
    requires Height(sub) <= 1 + Levels(depth + 1) && LeafCount(sub) <= LeafBudget(Levels(depth + 1))
    ensures Small(depth, p.(branches := p.branches + [Nested(name, sub)]))
  {
    SizeOfConcat(p.branches, [Nested(name, sub)]);
    assert Levels(depth + 1) == Levels(depth) - 1;
  }

  lemma {:induction false} PickAllIsSmall(schema: Schema, fields: seq<Field>, depth: nat, p: Picked)
    requires Small(depth, p)
    ensures Small(depth, PickAll(schema, fields, depth, p))
    decreases Levels(depth), |fields| + 1, 0
  {
    if fields != [] {
      PickIsSmall(schema, fields[0], depth, p);
      PickAllIsSmall(schema, fields[1..], depth, Pick(schema, fields[0], depth, p));
    }
  }

  lemma {:induction false} SelectionIsSmall(schema: Schema, named: string, depth: nat)
    ensures Height(SelectionFor(schema, named, depth)) <= 1 + Levels(depth)
    ensures LeafCount(SelectionFor(schema, named, depth)) <= LeafBudget(Levels(depth))
    decreases Levels(depth), |FieldsOf(schema, named)| + 2, 0
  {
    var p := PickAll(schema, FieldsOf(schema, named), depth, Picked([], []));
    PickAllIsSmall(schema, FieldsOf(schema, named), depth, Picked([], []));
    SizeOfConcat(p.leaves, p.branches);
    BudgetCoversBranches(|p.branches|, Levels(depth));
  }

  lemma BudgetCoversBranches(n: nat, levels: nat)
    requires n <= MAX_BRANCHES
    ensures MAX_LEAVES + BranchBudget(n, levels) <= LeafBudget(levels)
  {
    assert n == 0 || n == 1 || n == 2;
    if levels > 0 {
      assert BranchBudget(1, levels) == BranchBudget(0, levels) + LeafBudget(levels - 1);
      assert BranchBudget(2, levels) == BranchBudget(1, levels) + LeafBudget(levels - 1);
    }
  }

  /** A probe starts at depth 1: its selection is at most 3 deep with at most 56 leaves. */
  lemma ProbeIsBounded(schema: Schema, named: string)
    ensures Height(SelectionFor(schema, named, 1)) <= 3
    ensures LeafCount(SelectionFor(schema, named, 1)) <= 56
  {
    SelectionIsSmall(schema, named, 1);
    assert LeafBudget(0) == 8 && LeafBudget(1) == 24 && LeafBudget(2) == 56;
  }

  // ---- when a selection is empty ----

  /** A leaf can be reached through argument-free fields within `levels` descents. */
  ghost predicate Productive(schema: Schema, named: string, levels: nat)
    decreases levels
  {
    exists i :: 0 <= i < |FieldsOf(schema, named)| && ProductiveField(schema, FieldsOf(schema, named)[i], levels)
  }

  ghost predicate ProductiveField(schema: Schema, f: Field, levels: nat)
    decreases levels, 0
  {
    !NeedsArgument(f)
    && (IsLeaf(schema, f.named) || (levels > 0 && Productive(schema, f.named, levels - 1)))
  }

  predicate Chosen(p: Picked) {
    p.leaves != [] || p.branches != []
  }

  lemma {:induction false} PickIsProductive(schema: Schema, f: Field, depth: nat, p: Picked)
    ensures Chosen(Pick(schema, f, depth, p)) <==> Chosen(p) || ProductiveField(schema, f, Levels(depth))
    decreases Levels(depth), 0, 1
  {
    if !NeedsArgument(f) && !IsLeaf(schema, f.named) && depth < MAX_DEPTH {
      NonEmptyIffProductive(schema, f.named, depth + 1);
    }
  }

  lemma {:induction false} PickAllIsProductive(schema: Schema, fields: seq<Field>, i: nat, depth: nat, p: Picked)
    requires i <= |fields|
    ensures Chosen(PickAll(schema, fields[i..], depth, p))
            <==> Chosen(p) || exists k :: i <= k < |fields| && ProductiveField(schema, fields[k], Levels(depth))
    decreases Levels(depth), |fields| - i + 1, 0
  {
    if i < |fields| {
      PickIsProductive(schema, fields[i], depth, p);
      assert fields[i..][1..] == fields[i + 1..];
      PickAllIsProductive(schema, fields, i + 1, depth, Pick(schema, fields[i], depth, p));
    }
  }

  /** The caps never starve a selection: it is empty exactly when no leaf is in reach. */
  lemma {:induction false} NonEmptyIffProductive(schema: Schema, named: string, depth: nat)
    ensures SelectionFor(schema, named, depth) != [] <==> Productive(schema, named, Levels(depth))
    decreases Levels(depth), |FieldsOf(schema, named)| + 2, 0
  {
    var fields := FieldsOf(schema, named);
    assert fields[0..] == fields;
    PickAllIsProductive(schema, fields, 0, depth, Picked([], []));
  }

  // ---- which fields are chosen ----

  function Take(ss: seq<Selection>, n: nat): seq<Selection> {
    ss[..Min(n, |ss|)]
  }

  /** Argument-free leaf fields, in order. */
  function LeafFields(schema: Schema, fields: seq<Field>): seq<Selection> {
    if fields == [] then []
    else
      var f := fields[0];
      (if !NeedsArgument(f) && IsLeaf(schema, f.named) then [Bare(f.name)] else []) + LeafFields(schema, fields[1..])
  }

  /** Argument-free other fields with something to select below them, in order. */
  function BranchFields(schema: Schema, fields: seq<Field>, depth: nat): seq<Selection> {
    if fields == [] then []
    else
      var f, rest := fields[0], BranchFields(schema, fields[1..], depth);
      if NeedsArgument(f) || IsLeaf(schema, f.named) || depth >= MAX_DEPTH then rest
      else
        var sub := SelectionFor(schema, f.named, depth + 1);
        if sub == [] then rest else [Nested(f.name, sub)] + rest
  }

  lemma {:induction false} PickAllTakesFirst(schema: Schema, fields: seq<Field>, depth: nat, p: Picked)
    requires |p.leaves| <= MAX_LEAVES && |p.branches| <= MAX_BRANCHES
    ensures var q := PickAll(schema, fields, depth, p);
            && q.leaves == Take(p.leaves + LeafFields(schema, fields), MAX_LEAVES)
            && q.branches == Take(p.branches + BranchFields(schema, fields, depth), MAX_BRANCHES)
    decreases |fields|
  {
    if fields == [] {
      assert p.leaves + [] == p.leaves && p.branches + [] == p.branches;
    } else {
      var f, q := fields[0], Pick(schema, fields[0], depth, p);
      PickAllTakesFirst(schema, fields[1..], depth, q);
      PickTakesNext(schema, f, depth, p, LeafFields(schema, fields[1..]), BranchFields(schema, fields[1..], depth));
    }
  }

  lemma PickTakesNext(schema: Schema, f: Field, depth: nat, p: Picked, leaves: seq<Selection>, branches: seq<Selection>)
    requires |p.leaves| <= MAX_LEAVES && |p.branches| <= MAX_BRANCHES
    ensures var q := Pick(schema, f, depth, p);
            && |q.leaves| <= MAX_LEAVES && |q.branches| <= MAX_BRANCHES
            && Take(q.leaves + leaves, MAX_LEAVES)
               == Take(p.leaves
                       + ((if !NeedsArgument(f) && IsLeaf(schema, f.named) then [Bare(f.name)] else []) + leaves),
                       MAX_LEAVES)
            && Take(q.branches + branches, MAX_BRANCHES)
               == Take(p.branches
                       + (if NeedsArgument(f) || IsLeaf(schema, f.named) || depth >= MAX_DEPTH
                             || SelectionFor(schema, f.named, depth + 1) == [] then branches
                          else [Nested(f.name, SelectionFor(schema, f.named, depth + 1))] + branches),
                       MAX_BRANCHES)
  {
    assert [] + leaves == leaves;
  }

  /** A selection is the first eight leaf fields, then the first two fields with something below them. */
  lemma SelectionTakesFirst(schema: Schema, named: string, depth: nat)
    ensures var fields := FieldsOf(schema, named);
            SelectionFor(schema, named, depth)
            == Take(LeafFields(schema, fields), MAX_LEAVES) + Take(BranchFields(schema, fields, depth), MAX_BRANCHES)
  {
    var fields := FieldsOf(schema, named);
    PickAllTakesFirst(schema, fields, depth, Picked([], []));
    assert [] + LeafFields(schema, fields) == LeafFields(schema, fields);
    assert [] + BranchFields(schema, fields, depth) == BranchFields(schema, fields, depth);
  }

  // ---- the probed field itself ----

  /** What a probe puts behind its field: nothing if the selection is empty. */
  function Probe(schema: Schema, f: Field, depth: nat): Selection {
    var sub := SelectionFor(schema, f.named, depth);
    if sub == [] then Bare(f.name) else Nested(f.name, sub)
  }

  /** A probe with its required arguments supplied: bare for a leaf, with a valid sub-selection for an object. */
  predicate ValidProbe(schema: Schema, f: Field, s: Selection) {
    match s
    case Bare(_) => IsLeaf(schema, f.named)
    case Nested(_, sub) =>
      sub != [] && FieldsOf(schema, f.named) != [] && ValidAll(schema, FieldsOf(schema, f.named), sub)
  }

  /**
   A probe is valid exactly when its field has a leaf type or a leaf in reach; others render as an
   empty selection.
   */
  lemma ProbeIsValid(schema: Schema, f: Field, depth: nat)
    ensures ValidProbe(schema, f, Probe(schema, f, depth))
            <==> IsLeaf(schema, f.named) || Productive(schema, f.named, Levels(depth))
  {
    var sub := SelectionFor(schema, f.named, depth);
    SelectionIsValid(schema, f.named, depth);
    NonEmptyIffProductive(schema, f.named, depth);
    if sub != [] {
      assert ValidOne(schema, FieldsOf(schema, f.named), sub[0]);
    }
  }

  /** An object type without a leaf in reach, and a field of it. */
  const RING: Schema := map["Ring" := Object([Field("next", [], "Ring")])]

  lemma {:induction false} RingIsBarren(levels: nat)
    ensures !Productive(RING, "Ring", levels)
  {
    if levels > 0 {
      RingIsBarren(levels - 1);
    }
  }

  /** The probe of such a field is not valid. */
  lemma RingProbeIsInvalid(depth: nat)
    ensures !ValidProbe(RING, Field("ring", [], "Ring"), Probe(RING, Field("ring", [], "Ring"), depth))
  {
    RingIsBarren(Levels(depth));
    ProbeIsValid(RING, Field("ring", [], "Ring"), depth);
  }

  function Required(args: seq<Arg>): seq<Arg> {
    if args == [] then []
    else Required(args[..|args| - 1]) + if IsRequired(args[|args| - 1]) then [args[|args| - 1]] else []
  }

  function ValueFor(name: string, overrides: map<string, string>, fixtures: map<string, string>): Option<string> {
    if name in overrides then Some(overrides[name])
    else if name in fixtures then Some(fixtures[name])
    else None
  }

  /** Supplies every required argument, in order, or gives up when one has no value. */
  method PlanArguments(field: Field, overrides: map<string, string>, fixtures: map<string, string>)
    returns (supplied: Option<seq<(string, string)>>)
    ensures supplied.None? <==> exists i ::
              0 <= i < |field.args| && IsRequired(field.args[i])
              && field.args[i].name !in overrides && field.args[i].name !in fixtures
    ensures supplied.Some? ==>
              (|supplied.value| == |Required(field.args)|
               && forall k :: 0 <= k < |supplied.value| ==>
                    var (name, value) := supplied.value[k];
                    && name == Required(field.args)[k].name
                    && (name in overrides ==> value == overrides[name])
                    && (name !in overrides ==> name in fixtures && value == fixtures[name]))
  {
    var pairs: seq<(string, string)> := [];
    for k := 0 to |field.args|
      invariant forall i :: 0 <= i < k && IsRequired(field.args[i]) ==>
                ValueFor(field.args[i].name, overrides, fixtures).Some?
      invariant |pairs| == |Required(field.args[..k])|
      invariant forall j :: 0 <= j < |pairs| ==> pairs[j].0 == Required(field.args[..k])[j].name
                                                 && Some(pairs[j].1) == ValueFor(pairs[j].0, overrides, fixtures)
    {
      var arg := field.args[k];
      assert field.args[..k + 1][..k] == field.args[..k];
      if IsRequired(arg) {
        var value := ValueFor(arg.name, overrides, fixtures);
        if value.None? {
          return None;
        }
        pairs := pairs + [(arg.name, value.value)];
      }
    }
    assert field.args[..|field.args|] == field.args;
    return Some(pairs);
  }
}

/**
 Dot-separated bundle paths. Declaring a path fixes what each of its prefixes is; the record
 of prefixes notices a second, different shape.
 */
module BundlePaths {
  import opened BundleModel

  predicate IsNameChar(c: char) {
    'a' <= c <= 'z' || '0' <= c <= '9' || c == '_'
  }

  predicate IsName(s: string) {
    s != "" && 'a' <= s[0] <= 'z' && forall i :: 0 <= i < |s| ==> IsNameChar(s[i])
  }

  function Split(s: string): (parts: seq<string>)
    ensures parts != []
  {
    if s == "" then [""]
    else
      var rest := Split(s[1..]);
      if s[0] == '.' then [""] + rest else [[s[0]] + rest[0]] + rest[1..]
  }

  predicate EndsAsArray(s: string) {
    |s| >= 2 && s[|s| - 2..] == "[]"
  }

  function Bare(part: string): string {
    if EndsAsArray(part) then part[..|part| - 2] else part
  }

  /** Dot-separated names, each possibly marked `[]`. */
  predicate IsPath(s: string) {
    forall i :: 0 <= i < |Split(s)| ==> IsName(Bare(Split(s)[i]))
  }

  predicate HasArrayMark(s: string) {
    exists i :: 0 <= i < |s| - 1 && s[i] == '[' && s[i + 1] == ']'
  }

  predicate Below(path: string, base: string) {
    |path| > |base| && path[..|base|] == base && path[|base|] == '.' && !HasArrayMark(path[|base|..])
  }

  predicate ChildArray(path: string, base: string) {
    EndsAsArray(path) && Below(path[..|path| - 2], base)
  }

  // ---- how often a path can occur ----

  /** Arrays a path runs through: each `[]` multiplies its occurrences. */
  function Marks(s: string): nat {
    if |s| < 2 then 0 else (if s[0] == '[' && s[1] == ']' then 1 else 0) + Marks(s[1..])
  }

  lemma {:induction false} MarksAtDot(a: string, r: string)
    ensures Marks(a + "." + r) == Marks(a) + Marks(r)
  {
    var s := a + "." + r;
    if a == "" {
      assert s[1..] == r;
    } else {
      assert s[1..] == a[1..] + "." + r;
      MarksAtDot(a[1..], r);
    }
  }

  lemma {:induction false} MarkAtEnd(s: string)
    ensures Marks(s + "[]") == Marks(s) + 1
  {
    if s == "" {
      assert (s + "[]")[1..] == "]";
    } else {
      assert (s + "[]")[1..] == s[1..] + "[]";
      MarkAtEnd(s[1..]);
    }
  }

  lemma {:induction false} NoMarks(s: string)
    ensures Marks(s) == 0 <==> !HasArrayMark(s)
  {
    if |s| >= 2 {
      NoMarks(s[1..]);
      if HasArrayMark(s[1..]) {
        var i :| 0 <= i < |s[1..]| - 1 && s[1..][i] == '[' && s[1..][i + 1] == ']';
        assert s[i + 1] == '[' && s[i + 2] == ']';
      }
      if HasArrayMark(s) && !(s[0] == '[' && s[1] == ']') {
        var i :| 0 <= i < |s| - 1 && s[i] == '[' && s[i + 1] == ']';
        assert s[1..][i - 1] == '[' && s[1..][i] == ']';
      }
    }
  }

  /** `path` continues `base` at a dot. */
  ghost predicate Continues(path: string, base: string) {
    exists r :: path == base + "." + r
  }

  lemma ContinuedAt(path: string, base: string, r: string)
    requires path == base + "." + r
    ensures path[..|base|] == base && path[|base|] == '.' && path[|base|..] == "." + r
    ensures Below(path, base) <==> Marks(path) == Marks(base)
  {
    MarksAtDot(base, r);
    MarksAtDot("", r);
    assert "" + "." + r == "." + r;
    NoMarks("." + r);
  }

  /** Below a base is what continues it through no further array. */
  lemma BelowExactly(path: string, base: string)
    ensures Below(path, base) <==> Continues(path, base) && Marks(path) == Marks(base)
  {
    if Below(path, base) {
      var r := path[|base| + 1..];
      assert path == base + "." + r;
    }
    if r :| path == base + "." + r {
      ContinuedAt(path, base, r);
    }
  }

  /** A child array is what continues a base through exactly one further array, its own. */
  lemma ChildArrayExactly(path: string, base: string)
    ensures ChildArray(path, base)
            <==> EndsAsArray(path) && Continues(path[..|path| - 2], base) && Marks(path) == Marks(base) + 1
  {
    if EndsAsArray(path) {
      var front := path[..|path| - 2];
      assert path == front + "[]";
      MarkAtEnd(front);
      BelowExactly(front, base);
    }
  }

  // ---- path shapes ----

  datatype Shape = ValueShape | ObjectShape | ArrayShape

  /** Prefixes of a path with what each must be; `parent` is the text already walked. */
  function Shapes(parent: string, parts: seq<string>, terminal: Shape): seq<(string, Shape)>
    decreases |parts|
  {
    if parts == [] then []
    else
      [(parent + Bare(parts[0]),
        if EndsAsArray(parts[0]) then ArrayShape else if |parts| == 1 then terminal else ObjectShape)]
      + Shapes(parent + parts[0] + ".", parts[1..], terminal)
  }

  type ShapeMap = map<string, Shape>

  /** All declarations so far give each prefix one shape, and `m` records it. */
  ghost predicate Records(m: ShapeMap, pairs: seq<(string, Shape)>) {
    && (forall i :: 0 <= i < |pairs| ==> pairs[i].0 in m && m[pairs[i].0] == pairs[i].1)
    && (forall k :: k in m ==> (k, m[k]) in pairs)
  }

  ghost predicate OneShape(pairs: seq<(string, Shape)>) {
    forall x, y :: x in pairs && y in pairs && x.0 == y.0 ==> x.1 == y.1
  }

  /** One assignment to the record, noticing a change of shape. */
  method DeclarePrefix(key: string, kind: Shape, shape: ShapeMap, ghost done: seq<(string, Shape)>)
    returns (conflict: bool, shape': ShapeMap)
    requires OneShape(done) ==> Records(shape, done)
    ensures OneShape(done + [(key, kind)]) <==> OneShape(done) && !conflict
    ensures OneShape(done + [(key, kind)]) ==> Records(shape', done + [(key, kind)])
  {
    conflict := key in shape && shape[key] != kind;
    shape' := shape[key := kind];
  }

  /** Declares one path; `before` is everything declared earlier. */
  method DeclareShape(path: string, terminal: Shape, shape: ShapeMap, ghost before: seq<(string, Shape)>)
    returns (problems: seq<Problem>, shape': ShapeMap)
    requires OneShape(before) ==> Records(shape, before)
    ensures OneShape(before + Shapes("", Split(path), terminal)) <==> OneShape(before) && problems == []
    ensures OneShape(before + Shapes("", Split(path), terminal)) ==>
            Records(shape', before + Shapes("", Split(path), terminal))
  {
    problems, shape' := [], shape;
    var parts, parent := Split(path), "";
    ghost var done, all := before, before + Shapes("", parts, terminal);
    assert parts[0..] == parts;
    for position := 0 to |parts|
      invariant done + Shapes(parent, parts[position..], terminal) == all
      invariant OneShape(done) <==> OneShape(before) && problems == []
      invariant OneShape(done) ==> Records(shape', done)
    {
      var part := parts[position];
      var key := parent + Bare(part);
      var kind := if EndsAsArray(part) then ArrayShape else if position == |parts| - 1 then terminal else ObjectShape;
      ShapesStep(done, parent, parts[position..], terminal);
      assert parts[position..][1..] == parts[position + 1..];
      var conflict;
      conflict, shape' := DeclarePrefix(key, kind, shape', done);
      if conflict {
        problems := problems + [ShapeConflict];
      }
      parent := parent + part + ".";
      done := done + [(key, kind)];
    }
    assert done + [] == done;
  }

  lemma ShapesStep(done: seq<(string, Shape)>, parent: string, parts: seq<string>, terminal: Shape)
    requires parts != []
    ensures var key := parent + Bare(parts[0]);
            var kind := if EndsAsArray(parts[0]) then ArrayShape else if |parts| == 1 then terminal else ObjectShape;
            done + Shapes(parent, parts, terminal)
            == done + [(key, kind)] + Shapes(parent + parts[0] + ".", parts[1..], terminal)
  {
  }

  function ShapesOf(d: (string, Shape)): seq<(string, Shape)> {
    Shapes("", Split(d.0), d.1)
  }

  ghost predicate Agree(d: (string, Shape), e: (string, Shape)) {
    forall x, y :: x in ShapesOf(d) && y in ShapesOf(e) && x.0 == y.0 ==> x.1 == y.1
  }

  ghost predicate Consistent(decls: set<(string, Shape)>) {
    forall d, e :: d in decls && e in decls ==> Agree(d, e)
  }

  /** The same terminal shape for each of these paths. */
  function Each(paths: set<string>, terminal: Shape): set<(string, Shape)> {
    set p | p in paths :: (p, terminal)
  }

  ghost predicate Covers(pairs: seq<(string, Shape)>, decls: set<(string, Shape)>) {
    forall x :: x in pairs <==> exists d :: d in decls && x in ShapesOf(d)
  }

  lemma CoveredIsConsistent(pairs: seq<(string, Shape)>, decls: set<(string, Shape)>)
    requires Covers(pairs, decls)
    ensures OneShape(pairs) <==> Consistent(decls)
  {
    if OneShape(pairs) {
      forall d, e | d in decls && e in decls ensures Agree(d, e) {
        forall x, y | x in ShapesOf(d) && y in ShapesOf(e) && x.0 == y.0 ensures x.1 == y.1 {
          assert x in pairs && y in pairs;
        }
      }
    }
    if Consistent(decls) {
      forall x, y | x in pairs && y in pairs && x.0 == y.0 ensures x.1 == y.1 {
        var d :| d in decls && x in ShapesOf(d);
        var e :| e in decls && y in ShapesOf(e);
        assert Agree(d, e);
      }
    }
  }

  /** What has been declared: the record, and ghost copies of the pairs and the declarations. */
  ghost predicate Tracked(shape: ShapeMap, pairs: seq<(string, Shape)>, decls: set<(string, Shape)>) {
    Covers(pairs, decls) && (OneShape(pairs) ==> Records(shape, pairs))
  }

  method DeclareNext(path: string, terminal: Shape, shape: ShapeMap,
                     ghost before: seq<(string, Shape)>, ghost decls: set<(string, Shape)>)
    returns (problems: seq<Problem>, shape': ShapeMap, ghost after: seq<(string, Shape)>)
    requires Tracked(shape, before, decls)
    ensures Tracked(shape', after, decls + {(path, terminal)})
    ensures OneShape(after) <==> OneShape(before) && problems == []
  {
    problems, shape' := DeclareShape(path, terminal, shape, before);
    after := before + ShapesOf((path, terminal));
  }

  lemma EachNext(decls: set<(string, Shape)>, paths: set<string>, left: set<string>, path: string, terminal: Shape)
    requires path in left && left <= paths
    ensures decls + Each(paths - (left - {path}), terminal) == decls + Each(paths - left, terminal) + {(path, terminal)}
  {
    assert paths - (left - {path}) == paths - left + {path};
  }

  /** Declares a set of paths with one terminal shape, in any order. */
  method DeclareAll(paths: set<string>, terminal: Shape, shape: ShapeMap,
                    ghost before: seq<(string, Shape)>, ghost decls: set<(string, Shape)>)
    returns (problems: seq<Problem>, shape': ShapeMap, ghost after: seq<(string, Shape)>)
    requires Tracked(shape, before, decls)
    ensures Tracked(shape', after, decls + Each(paths, terminal))
    ensures OneShape(after) <==> OneShape(before) && problems == []
  {
    problems, shape', after := [], shape, before;
    var left := paths;
    ghost var done := decls;
    while left != {}
      invariant left <= paths && done == decls + Each(paths - left, terminal)
      invariant Tracked(shape', after, done)
      invariant OneShape(after) <==> OneShape(before) && problems == []
      decreases left
    {
      var path :| path in left;
      EachNext(decls, paths, left, path, terminal);
      left := left - {path};
      var found;
      found, shape', after := DeclareNext(path, terminal, shape', after, done);
      problems, done := problems + found, done + {(path, terminal)};
    }
    assert paths - left == paths;
  }

  // ---- a value is a leaf ----

  lemma {:induction false} SplitJoined(p: string, r: string)
    ensures Split(p + "." + r) == Split(p) + Split(r)
  {
    var s := p + "." + r;
    if p == "" {
      assert s[1..] == r;
    } else {
      assert s[1..] == p[1..] + "." + r;
      SplitJoined(p[1..], r);
    }
  }

  function Join(parts: seq<string>): string
    requires parts != []
  {
    if |parts| == 1 then parts[0] else parts[0] + "." + Join(parts[1..])
  }

  /** Splitting loses nothing. */
  lemma {:induction false} SplitThenJoin(p: string)
    ensures Join(Split(p)) == p
  {
    if p != "" {
      SplitThenJoin(p[1..]);
    }
  }

  lemma {:induction false} PlainSplit(s: string)
    requires '.' !in s
    ensures Split(s) == [s]
  {
    if s != "" {
      PlainSplit(s[1..]);
      assert [s[0]] + s[1..] == s;
    }
  }

  lemma {:induction false} JoinThenSplit(parts: seq<string>)
    requires parts != [] && forall part :: part in parts ==> '.' !in part
    ensures Split(Join(parts)) == parts
  {
    PlainSplit(parts[0]);
    if |parts| > 1 {
      JoinThenSplit(parts[1..]);
      SplitJoined(parts[0], Join(parts[1..]));
      assert [parts[0]] + parts[1..] == parts;
    }
  }

  const LETTERS: string := "abcdefghijklmnopqrstuvwxyz"

  /** Names grow by letters, digits and underscores from a first letter. */
  lemma NameGrows(s: string, c: char)
    ensures IsName(s + [c]) <==> if s == "" then c in LETTERS else IsName(s) && (c in LETTERS || c in "0123456789_")
  {
    assert c in LETTERS <==> 'a' <= c <= 'z';
    assert forall i :: 0 <= i < |s| ==> (s + [c])[i] == s[i];
    assert (s + [c])[|s|] == c;
  }

  /** A name, perhaps marked as an array. */
  ghost predicate IsPart(part: string) {
    IsName(part) || exists name :: IsName(name) && part == name + "[]"
  }

  lemma MarkedPart(part: string)
    requires EndsAsArray(part)
    ensures part == Bare(part) + "[]" && !IsName(part)
  {
    assert part[|part| - 2..][1] == part[|part| - 1];
  }

  lemma PartExactly(part: string)
    ensures IsPart(part) <==> IsName(Bare(part))
    ensures IsPart(part) ==> '.' !in part
  {
    if name :| IsName(name) && part == name + "[]" {
      assert Bare(part) == name;
    }
    if EndsAsArray(part) {
      MarkedPart(part);
    }
  }

  /** A path is one or more parts joined by dots. */
  lemma PathExactly(s: string)
    ensures IsPath(s)
            <==> exists parts :: parts != [] && s == Join(parts) && forall part :: part in parts ==> IsPart(part)
  {
    var parts := Split(s);
    SplitThenJoin(s);
    if IsPath(s) {
      forall part | part in parts ensures IsPart(part) {
        PartExactly(part);
      }
    }
    if others :| others != [] && s == Join(others) && forall part :: part in others ==> IsPart(part) {
      forall part | part in others ensures '.' !in part && IsName(Bare(part)) {
        PartExactly(part);
      }
      JoinThenSplit(others);
    }
  }

  lemma {:induction false} LastPartEnds(parts: seq<string>)
    requires parts != [] && EndsAsArray(parts[|parts| - 1])
    ensures EndsAsArray(Join(parts))
  {
    if |parts| > 1 {
      LastPartEnds(parts[1..]);
      var tail := Join(parts[1..]);
      assert (parts[0] + "." + tail)[|parts[0]| + 1..] == tail;
    }
  }

  /** The prefix `parts` is a value at the end of a path but a container in front of `more`. */
  lemma {:induction false} PrefixShape(parent: string, parts: seq<string>, more: seq<string>, terminal: Shape)
    requires parts != [] && more != [] && !EndsAsArray(parts[|parts| - 1])
    ensures exists key :: (key, ValueShape) in Shapes(parent, parts, ValueShape)
                          && (key, ObjectShape) in Shapes(parent, parts + more, terminal)
    decreases |parts|
  {
    var all := parts + more;
    var short, long := Shapes(parent, parts, ValueShape), Shapes(parent, all, terminal);
    if |parts| == 1 {
      assert short[0] == (parent + Bare(parts[0]), ValueShape);
      assert long[0] == (parent + Bare(parts[0]), ObjectShape);
    } else {
      assert all[1..] == parts[1..] + more;
      PrefixShape(parent + parts[0] + ".", parts[1..], more, terminal);
      var key :| (key, ValueShape) in Shapes(parent + parts[0] + ".", parts[1..], ValueShape)
                 && (key, ObjectShape) in Shapes(parent + parts[0] + ".", all[1..], terminal);
      assert (key, ValueShape) in short && (key, ObjectShape) in long;
    }
  }

  /** A value and anything declared below it never agree. */
  lemma BelowValueDisagrees(p: string, r: string, terminal: Shape)
    requires !EndsAsArray(p)
    ensures !Agree((p, ValueShape), (p + "." + r, terminal))
  {
    SplitThenJoin(p);
    if EndsAsArray(Split(p)[|Split(p)| - 1]) {
      LastPartEnds(Split(p));
    }
    SplitJoined(p, r);
    PrefixShape("", Split(p), Split(r), terminal);
  }
}

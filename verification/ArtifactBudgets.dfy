/**
 Artifact size budgets. A path pattern is compiled to a regular expression by escaping
 the syntax characters and then replacing each `*` by `[^/]*`.
 */
module ArtifactBudgets {
  import opened Common

  // ---- the two string replacements ----

  /** What the first replacement escapes. */
  const ESCAPED: string := ".+?^${}()|[]\\"

  function EscapeChar(c: char): string {
    if c in ESCAPED then ['\\', c] else [c]
  }

  function Escape(p: string): string {
    if p == "" then "" else EscapeChar(p[0]) + Escape(p[1..])
  }

  const SEGMENT: string := "[^/]*"

  function StarChar(c: char): string {
    if c == '*' then SEGMENT else [c]
  }

  function ReplaceStars(s: string): string {
    if s == "" then "" else StarChar(s[0]) + ReplaceStars(s[1..])
  }

  // ---- the regular expressions that can come out ----

  datatype Atom = Literal(c: char) | NotChar(c: char)

  datatype Item = Item(atom: Atom, star: bool)

  /** Characters with a meaning in a regular expression (section 22.2.1 of ECMA-262). */
  const SYNTAX: string := "^$\\.*+?()[]{}|"

  lemma EscapedIsSyntax(c: char)
    ensures c in SYNTAX <==> c in ESCAPED || c == '*'
  {
  }

  /** One atom at the front and its length; `None` for syntax outside the fragment. */
  function ParseAtom(src: string): Option<(Atom, nat)>
    requires src != ""
  {
    if src[0] == '\\' then
      if |src| > 1 && src[1] in SYNTAX then Some((Literal(src[1]), 2)) else None
    else if src[0] == '[' then
      if |src| > 3 && src[1] == '^' && src[3] == ']' && src[2] !in SYNTAX && src[2] != '-'
      then Some((NotChar(src[2]), 4)) else None
    else if src[0] in SYNTAX then None
    else Some((Literal(src[0]), 1))
  }

  function Parse(src: string): Option<seq<Item>>
    decreases |src|
  {
    if src == "" then Some([])
    else
      var atom := ParseAtom(src);
      if atom.None? then None
      else
        var star := |src| > atom.value.1 && src[atom.value.1] == '*';
        var rest := Parse(src[atom.value.1 + (if star then 1 else 0)..]);
        if rest.None? then None else Some([Item(atom.value.0, star)] + rest.value)
  }

  predicate Accepts(a: Atom, c: char) {
    match a
    case Literal(d) => c == d
    case NotChar(d) => c != d
  }

  /** Does the anchored expression match all of `s`? */
  predicate Matches(items: seq<Item>, s: string)
    decreases |items|, |s|
  {
    if items == [] then s == ""
    else if items[0].star then
      Matches(items[1..], s) || (s != "" && Accepts(items[0].atom, s[0]) && Matches(items, s[1..]))
    else s != "" && Accepts(items[0].atom, s[0]) && Matches(items[1..], s[1..])
  }

  predicate BudgetMatches(pattern: string, path: string) {
    if pattern == path then true
    else if '*' !in pattern then false
    else
      var items := Parse(ReplaceStars(Escape(pattern)));
      items.Some? && Matches(items.value, path)
  }

  // ---- what a pattern means ----

  function Stars(p: string): nat {
    if p == "" then 0 else (if p[0] == '*' then 1 else 0) + Stars(p[1..])
  }

  /** `p` with its stars replaced, in order, by the given strings. */
  function Fill(p: string, fills: seq<string>): string
    requires |fills| == Stars(p)
  {
    if p == "" then ""
    else if p[0] == '*' then fills[0] + Fill(p[1..], fills[1..])
    else [p[0]] + Fill(p[1..], fills)
  }

  ghost predicate SlashFree(fills: seq<string>) {
    forall i :: 0 <= i < |fills| ==> '/' !in fills[i]
  }

  ghost predicate Glob(p: string, s: string) {
    exists fills :: |fills| == Stars(p) && SlashFree(fills) && Fill(p, fills) == s
  }

  // ---- the compilation is correct ----

  function ItemFor(c: char): Item {
    if c == '*' then Item(NotChar('/'), true) else Item(Literal(c), false)
  }

  function Items(p: string): seq<Item> {
    if p == "" then [] else [ItemFor(p[0])] + Items(p[1..])
  }

  lemma {:induction false} ReplaceStarsAdd(a: string, b: string)
    ensures ReplaceStars(a + b) == ReplaceStars(a) + ReplaceStars(b)
  {
    if a == "" {
      assert a + b == b;
    } else {
      assert (a + b)[1..] == a[1..] + b;
      ReplaceStarsAdd(a[1..], b);
    }
  }

  /** The source text of one pattern character. */
  function Code(c: char): string {
    if c == '*' then SEGMENT else EscapeChar(c)
  }

  lemma CodeOf(c: char)
    ensures ReplaceStars(EscapeChar(c)) == Code(c)
  {
    EscapedIsSyntax(c);
    if c in ESCAPED {
      var e := ['\\', c];
      assert e[1..] == [c] && [c][1..] == "";
      assert ReplaceStars([c]) == [c];
    } else {
      assert [c][1..] == "";
    }
  }

  lemma {:induction false} SourceOf(p: string)
    requires p != ""
    ensures ReplaceStars(Escape(p)) == Code(p[0]) + ReplaceStars(Escape(p[1..]))
  {
    CodeOf(p[0]);
    ReplaceStarsAdd(EscapeChar(p[0]), Escape(p[1..]));
  }

  lemma ParseCode(c: char, rest: string)
    requires rest != "" ==> rest[0] != '*'
    ensures Parse(Code(c) + rest) == (var r := Parse(rest); if r.None? then None else Some([ItemFor(c)] + r.value))
  {
    var src := Code(c) + rest;
    if c == '*' {
      assert src[0] == '[' && src[1] == '^' && src[2] == '/' && src[3] == ']' && src[4] == '*';
      assert ParseAtom(src) == Some((NotChar('/'), 4));
      assert src[5..] == rest;
    } else if c in ESCAPED {
      assert src[0] == '\\' && src[1] == c;
      assert ParseAtom(src) == Some((Literal(c), 2));
      assert src[2..] == rest;
    } else {
      assert src[0] == c;
      assert ParseAtom(src) == Some((Literal(c), 1));
      assert src[1..] == rest;
    }
  }

  /** Escape-then-replace yields the intended expression for every pattern. */
  lemma {:induction false} CompileGlob(p: string)
    ensures Parse(ReplaceStars(Escape(p))) == Some(Items(p))
  {
    if p != "" {
      CompileGlob(p[1..]);
      SourceOf(p);
      if p[1..] != "" {
        SourceOf(p[1..]);
      }
      ParseCode(p[0], ReplaceStars(Escape(p[1..])));
    }
  }

  lemma {:induction false} MatchGivesFills(p: string, s: string) returns (fills: seq<string>)
    requires Matches(Items(p), s)
    ensures |fills| == Stars(p) && SlashFree(fills) && Fill(p, fills) == s
    decreases |p|, |s|
  {
    if p == "" {
      fills := [];
    } else {
      assert Items(p)[1..] == Items(p[1..]);
      if p[0] != '*' {
        fills := MatchGivesFills(p[1..], s[1..]);
        assert [s[0]] + s[1..] == s;
      } else if Matches(Items(p[1..]), s) {
        var rest := MatchGivesFills(p[1..], s);
        fills := [""] + rest;
        assert fills[1..] == rest;
      } else {
        var more := MatchGivesFills(p, s[1..]);
        fills := more[0 := [s[0]] + more[0]];
        assert fills[1..] == more[1..];
        assert [s[0]] + more[0] + Fill(p[1..], more[1..]) == [s[0]] + (more[0] + Fill(p[1..], more[1..]));
      }
    }
  }

  lemma LiteralMatches(p: string, rest: string)
    requires p != "" && p[0] != '*' && Matches(Items(p[1..]), rest)
    ensures Matches(Items(p), [p[0]] + rest)
  {
    assert Items(p)[1..] == Items(p[1..]);
    assert ([p[0]] + rest)[1..] == rest;
  }

  lemma EmptyStarMatches(p: string, s: string)
    requires p != "" && p[0] == '*' && Matches(Items(p[1..]), s)
    ensures Matches(Items(p), s)
  {
    assert Items(p)[1..] == Items(p[1..]);
  }

  lemma LongerStarMatches(p: string, c: char, s: string)
    requires p != "" && p[0] == '*' && c != '/' && Matches(Items(p), s)
    ensures Matches(Items(p), [c] + s)
  {
    assert ([c] + s)[1..] == s;
  }

  /** A star filled with one character more puts that character in front. */
  lemma LongerFill(p: string, c: char, fill: string, rest: seq<string>)
    requires p != "" && p[0] == '*' && |rest| + 1 == Stars(p)
    ensures Fill(p, [[c] + fill] + rest) == [c] + Fill(p, [fill] + rest)
  {
    assert ([[c] + fill] + rest)[1..] == rest && ([fill] + rest)[1..] == rest;
    assert [c] + fill + Fill(p[1..], rest) == [c] + (fill + Fill(p[1..], rest));
  }

  /** A star may stand for any slash-free string in front of what the rest of the pattern matches. */
  lemma {:induction false} StarFillMatches(p: string, fill: string, rest: seq<string>)
    requires p != "" && p[0] == '*' && |rest| + 1 == Stars(p) && '/' !in fill
    requires Matches(Items(p[1..]), Fill(p[1..], rest))
    ensures Matches(Items(p), Fill(p, [fill] + rest))
  {
    if fill == "" {
      assert ([fill] + rest)[1..] == rest;
      EmptyStarMatches(p, Fill(p[1..], rest));
      assert "" + Fill(p[1..], rest) == Fill(p[1..], rest);
    } else {
      StarFillMatches(p, fill[1..], rest);
      LongerStarMatches(p, fill[0], Fill(p, [fill[1..]] + rest));
      assert fill == [fill[0]] + fill[1..];
      LongerFill(p, fill[0], fill[1..], rest);
    }
  }

  lemma {:induction false} FillsGiveMatch(p: string, fills: seq<string>)
    requires |fills| == Stars(p) && SlashFree(fills)
    ensures Matches(Items(p), Fill(p, fills))
  {
    if p != "" {
      if p[0] != '*' {
        FillsGiveMatch(p[1..], fills);
        LiteralMatches(p, Fill(p[1..], fills));
      } else {
        FillsGiveMatch(p[1..], fills[1..]);
        StarFillMatches(p, fills[0], fills[1..]);
        assert fills == [fills[0]] + fills[1..];
      }
    }
  }

  lemma {:induction false} NoStarsFill(p: string)
    requires '*' !in p
    ensures Stars(p) == 0 && Fill(p, []) == p
  {
    if p != "" {
      NoStarsFill(p[1..]);
    }
  }

  /** A pattern matches itself: fill every star with a star. */
  lemma {:induction false} SelfFill(p: string) returns (fills: seq<string>)
    ensures |fills| == Stars(p) && SlashFree(fills) && Fill(p, fills) == p
  {
    if p == "" {
      fills := [];
    } else {
      var rest := SelfFill(p[1..]);
      fills := if p[0] == '*' then ["*"] + rest else rest;
      assert p[0] == '*' ==> fills[1..] == rest;
      assert [p[0]] + p[1..] == p;
    }
  }

  /** A budget entry matches exactly the paths its pattern describes, whatever syntax the pattern contains. */
  lemma BudgetMatchesIsGlob(p: string, s: string)
    ensures BudgetMatches(p, s) <==> Glob(p, s)
  {
    CompileGlob(p);
    var self := SelfFill(p);
    if '*' !in p {
      NoStarsFill(p);
      assert forall fills: seq<string> :: |fills| == 0 ==> fills == [];
    } else if Matches(Items(p), s) {
      var fills := MatchGivesFills(p, s);
    } else if Glob(p, s) {
      var fills :| |fills| == Stars(p) && SlashFree(fills) && Fill(p, fills) == s;
      FillsGiveMatch(p, fills);
    }
  }

  lemma {:induction false} FillKeepsSlashes(p: string, fills: seq<string>)
    requires |fills| == Stars(p) && SlashFree(fills)
    ensures Slashes(Fill(p, fills)) == Slashes(p)
    decreases |p|
  {
    if p != "" {
      if p[0] == '*' {
        NoSlashes(fills[0]);
        SlashesAdd(fills[0], Fill(p[1..], fills[1..]));
        FillKeepsSlashes(p[1..], fills[1..]);
      } else {
        assert ([p[0]] + Fill(p[1..], fills))[1..] == Fill(p[1..], fills);
        FillKeepsSlashes(p[1..], fills);
      }
    }
  }

  /** A star never crosses a segment: matching paths are exactly as deep as the pattern. */
  lemma MatchKeepsDepth(p: string, s: string)
    requires BudgetMatches(p, s)
    ensures Slashes(s) == Slashes(p)
  {
    BudgetMatchesIsGlob(p, s);
    var fills :| |fills| == Stars(p) && SlashFree(fills) && Fill(p, fills) == s;
    FillKeepsSlashes(p, fills);
  }

  // ---- budgets ----

  datatype Budget = Budget(path: string, warnBytes: int, failBytes: int)

  /** The first entry that matches, else the default. */
  function BudgetFor(entries: seq<Budget>, default: Budget, path: string): (b: Budget)
    ensures (b == default && forall i :: 0 <= i < |entries| ==> !BudgetMatches(entries[i].path, path))
            || exists k :: 0 <= k < |entries| && b == entries[k] && BudgetMatches(entries[k].path, path)
                           && forall i :: 0 <= i < k ==> !BudgetMatches(entries[i].path, path)
  {
    if entries == [] then default
    else if BudgetMatches(entries[0].path, path) then entries[0]
    else
      var b := BudgetFor(entries[1..], default, path);
      assert forall k :: 0 <= k < |entries[1..]| ==> entries[1..][k] == entries[k + 1];
      b
  }
}

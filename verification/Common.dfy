/** Small vocabulary shared by every component model. */
module Common {

  datatype Option<+T> = None | Some(value: T)

  datatype Result<+T, +E> = Ok(value: T) | Err(error: E)

  type Byte = b: int | 0 <= b < 256

  /** The integers a JavaScript number carries exactly (`Number.isSafeInteger`). */
  predicate IsSafeInteger(n: int) {
    -0x1F_FFFF_FFFF_FFFF <= n <= 0x1F_FFFF_FFFF_FFFF
  }

  function Min(a: int, b: int): int {
    if a <= b then a else b
  }

  function Max(a: int, b: int): int {
    if a >= b then a else b
  }

  /** The first element that passes the test. */
  function FindFirst<T>(s: seq<T>, test: T -> bool): (r: Option<T>)
    ensures r.Some? ==> r.value in s && test(r.value)
    ensures r.None? ==> forall i :: 0 <= i < |s| ==> !test(s[i])
  {
    if s == [] then None else if test(s[0]) then Some(s[0]) else FindFirst(s[1..], test)
  }

  ghost predicate Distinct<T>(s: seq<T>) {
    forall i, j :: 0 <= i < j < |s| ==> s[i] != s[j]
  }

  function Elements<T>(s: seq<T>): set<T> {
    set x | x in s
  }

  lemma {:induction false} DistinctCardinality<T>(s: seq<T>)
    requires Distinct(s)
    ensures |Elements(s)| == |s|
  {
    if s != [] {
      var init, last := s[..|s| - 1], s[|s| - 1];
      DistinctCardinality(init);
      assert Elements(s) == Elements(init) + {last};
      assert last !in init;
    }
  }

  lemma DistinctJoin<T>(a: seq<T>, b: seq<T>)
    requires Distinct(a) && Distinct(b) && forall t :: t in b ==> t !in a
    ensures Distinct(a + b)
  {
    forall i, j | 0 <= i < j < |a + b| ensures (a + b)[i] != (a + b)[j] {
      assert j >= |a| ==> b[j - |a|] in b;
      assert i < |a| ==> a[i] in a;
    }
  }

  lemma {:induction false} SubsetCardinality<T>(small: set<T>, large: set<T>)
    requires small <= large
    ensures |small| <= |large|
    ensures |small| == |large| ==> small == large
    decreases small
  {
    if small == {} {
      assert |large| == 0 ==> large == {};
    } else {
      var x :| x in small;
      SubsetCardinality(small - {x}, large - {x});
    }
  }

  function Slashes(s: string): nat {
    if s == "" then 0 else (if s[0] == '/' then 1 else 0) + Slashes(s[1..])
  }

  lemma {:induction false} SlashesAdd(a: string, b: string)
    ensures Slashes(a + b) == Slashes(a) + Slashes(b)
  {
    if a == "" {
      assert a + b == b;
    } else {
      assert (a + b)[1..] == a[1..] + b;
      SlashesAdd(a[1..], b);
    }
  }

  lemma {:induction false} NoSlashes(s: string)
    requires '/' !in s
    ensures Slashes(s) == 0
  {
    if s != "" {
      NoSlashes(s[1..]);
    }
  }

  /** Comparing the size of a set with the length of a list finds duplicates. */
  lemma {:induction false} DuplicatesShrink<T>(s: seq<T>)
    ensures |Elements(s)| <= |s|
    ensures |Elements(s)| == |s| <==> Distinct(s)
  {
    if s != [] {
      var init, last := s[..|s| - 1], s[|s| - 1];
      DuplicatesShrink(init);
      assert Elements(s) == Elements(init) + {last};
      DistinctInit(init, last);
      assert s == init + [last];
      assert last in init <==> last in Elements(init);
    }
  }

  lemma DistinctInit<T>(init: seq<T>, last: T)
    ensures Distinct(init + [last]) <==> Distinct(init) && last !in init
  {
    var s := init + [last];
    if Distinct(s) {
      forall i, j | 0 <= i < j < |init| ensures init[i] != init[j] {
        assert s[i] != s[j];
      }
      forall i | 0 <= i < |init| ensures init[i] != last {
        assert s[i] != s[|init|];
      }
    }
  }
}

/**
 Filling `{name}` placeholders in a request path by a hand-written scan, and the
 leftmost non-overlapping replacement of `\{([^}]+)\}` it stands for.
 */
module PathTemplate {
  import opened Common

  type Params = map<string, string>

  /** First place of `c` at or after `from`. */
  function IndexOf(s: string, c: char, from: nat): (r: Option<nat>)
    ensures r.None? ==> forall k :: from <= k < |s| ==> s[k] != c
    ensures r.Some? ==> from <= r.value < |s| && s[r.value] == c && forall k :: from <= k < r.value ==> s[k] != c
    decreases |s| - from
  {
    if from >= |s| then None else if s[from] == c then Some(from) else IndexOf(s, c, from + 1)
  }

  // ---- what the regular expression means ----

  /** `path[m..close]` is one match: a brace, one or more characters that are no `}`, a brace. */
  predicate IsMatch(path: string, m: nat, close: nat) {
    && m + 1 < close < |path|
    && path[m] == '{' && path[close] == '}'
    && forall k :: m < k < close ==> path[k] != '}'
  }

  datatype Match = Match(start: nat, close: nat)

  /** The leftmost match at or after `i`. */
  function NextMatch(path: string, i: nat): (r: Option<Match>)
    ensures r.Some? ==> i <= r.value.start && IsMatch(path, r.value.start, r.value.close)
                        && forall m, c :: i <= m < r.value.start ==> !IsMatch(path, m, c)
    ensures r.None? ==> forall m, c :: i <= m ==> !IsMatch(path, m, c)
    decreases |path| - i
  {
    if i >= |path| then None
    else
      var close := IndexOf(path, '}', i + 1);
      if path[i] == '{' && close.Some? && close.value > i + 1 then Some(Match(i, close.value))
      else NextMatch(path, i + 1)
  }

  function NameOf(path: string, m: Match): string
    requires IsMatch(path, m.start, m.close)
  {
    path[m.start + 1..m.close]
  }

  /** Global replacement from `i` on; the error is the first name without a value. */
  function Replace(path: string, params: Params, i: nat): Result<string, string>
    requires i <= |path|
    decreases |path| - i
  {
    match NextMatch(path, i)
    case None => Ok(path[i..])
    case Some(m) => Filled(path, params, i, m, Replace(path, params, m.close + 1))
  }

  /** The text from `i` through the match `m`, filled, in front of `rest`. */
  function Filled(path: string, params: Params, i: nat, m: Match, rest: Result<string, string>): Result<string, string>
    requires i <= m.start && IsMatch(path, m.start, m.close)
  {
    var name := NameOf(path, m);
    if name !in params then Err(name) else Before(path[i..m.start] + EncodeComponent(params[name]), rest)
  }

  function Before(front: string, r: Result<string, string>): Result<string, string> {
    if r.Ok? then Ok(front + r.value) else r
  }

  // ---- percent-encoding ----

  function HexDigit(n: int): char
    requires 0 <= n < 16
  {
    "0123456789ABCDEF"[n]
  }

  function Percent(b: Byte): string {
    ['%', HexDigit(b / 16), HexDigit(b % 16)]
  }

  /** Characters `encodeURIComponent` leaves as they are. */
  predicate Kept(c: char) {
    'a' <= c <= 'z' || 'A' <= c <= 'Z' || '0' <= c <= '9' || c in "-_.!~*'()"
  }

  function Utf8(c: char): seq<Byte> {
    var n := c as int;
    if n < 0x80 then [n]
    else if n < 0x800 then [0xC0 + n / 64, 0x80 + n % 64]
    else if n < 0x1_0000 then [0xE0 + n / 4096, 0x80 + n / 64 % 64, 0x80 + n % 64]
    else [0xF0 + n / 262144, 0x80 + n / 4096 % 64, 0x80 + n / 64 % 64, 0x80 + n % 64]
  }

  function PercentAll(bytes: seq<Byte>): string {
    if bytes == [] then "" else Percent(bytes[0]) + PercentAll(bytes[1..])
  }

  function EncodeComponent(s: string): string {
    if s == "" then ""
    else (if Kept(s[0]) then [s[0]] else PercentAll(Utf8(s[0]))) + EncodeComponent(s[1..])
  }

  /** Characters percent-encoding can produce; none of them structures a path or opens a placeholder. */
  predicate Safe(c: char) {
    Kept(c) || c == '%'
  }

  lemma {:induction false} PercentIsSafe(bytes: seq<Byte>)
    ensures forall c :: c in PercentAll(bytes) ==> Safe(c)
  {
    if bytes != [] {
      PercentIsSafe(bytes[1..]);
      assert forall c :: c in Percent(bytes[0]) ==> Safe(c);
    }
  }

  lemma {:induction false} EncodedIsSafe(s: string)
    ensures forall c :: c in EncodeComponent(s) ==> Safe(c)
  {
    if s != "" {
      EncodedIsSafe(s[1..]);
      PercentIsSafe(Utf8(s[0]));
    }
  }

  const UPPER: string := "ABCDEFGHIJKLMNOPQRSTUVWXYZ"

  const LOWER: string := "abcdefghijklmnopqrstuvwxyz"

  const UNRESERVED: string := UPPER + LOWER + "0123456789" + "-_.!~*'()"

  lemma Uppercase(c: char)
    ensures c in UPPER <==> 'A' <= c <= 'Z'
  {
  }

  lemma Lowercase(c: char)
    ensures c in LOWER <==> 'a' <= c <= 'z'
  {
  }

  lemma KeptIsUnreserved(c: char)
    ensures Kept(c) <==> c in UNRESERVED
  {
    Uppercase(c);
    Lowercase(c);
    assert c in UNRESERVED <==> c in UPPER || c in LOWER || c in "0123456789" || c in "-_.!~*'()";
  }

  lemma EscapedIsLonger(bytes: seq<Byte>)
    requires bytes != []
    ensures |PercentAll(bytes)| >= 3
  {
    assert PercentAll(bytes) == Percent(bytes[0]) + PercentAll(bytes[1..]);
  }

  /** Exactly the unreserved characters stay as they are. */
  lemma UnreservedStays(c: char)
    ensures EncodeComponent([c]) == [c] <==> c in UNRESERVED
  {
    KeptIsUnreserved(c);
    EscapedIsLonger(Utf8(c));
    assert [c][1..] == "" && EncodeComponent("") == "";
  }

  // ---- what was encoded can be read back ----

  function HexValue(c: char): Option<nat> {
    if '0' <= c <= '9' then Some(c as int - '0' as int)
    else if 'A' <= c <= 'F' then Some(c as int - 'A' as int + 10)
    else None
  }

  /** The bytes percent-encoded text stands for (section 2.1 of RFC 3986). */
  function Unescape(s: string): Option<seq<Byte>>
    decreases |s|
  {
    if s == "" then Some([])
    else if s[0] != '%' then
      var rest := Unescape(s[1..]);
      if s[0] as int >= 128 || rest.None? then None else Some([s[0] as int] + rest.value)
    else if |s| < 3 || HexValue(s[1]).None? || HexValue(s[2]).None? then None
    else
      var rest := Unescape(s[3..]);
      if rest.None? then None else Some([16 * HexValue(s[1]).value + HexValue(s[2]).value] + rest.value)
  }

  function Low(b: Byte): nat {
    b % 64
  }

  /** One character from the front of UTF-8 bytes (section 3 of RFC 3629), and how many bytes it took. */
  function FirstScalar(b: seq<Byte>): Option<(nat, nat)>
    requires b != []
  {
    if b[0] < 0x80 then Some((b[0], 1))
    else if 0xC0 <= b[0] < 0xE0 && |b| >= 2 then Some((64 * (b[0] - 0xC0) + Low(b[1]), 2))
    else if 0xE0 <= b[0] < 0xF0 && |b| >= 3 then Some((4096 * (b[0] - 0xE0) + 64 * Low(b[1]) + Low(b[2]), 3))
    else if 0xF0 <= b[0] && |b| >= 4 then
      Some((262144 * (b[0] - 0xF0) + 4096 * Low(b[1]) + 64 * Low(b[2]) + Low(b[3]), 4))
    else None
  }

  function Scalars(b: seq<Byte>): Option<seq<nat>>
    decreases |b|
  {
    if b == [] then Some([])
    else
      var first := FirstScalar(b);
      if first.None? then None
      else
        var rest := Scalars(b[first.value.1..]);
        if rest.None? then None else Some([first.value.0] + rest.value)
  }

  function Codes(s: string): seq<nat> {
    seq(|s|, i requires 0 <= i < |s| => s[i] as nat)
  }

  function Utf8All(s: string): seq<Byte> {
    if s == "" then [] else Utf8(s[0]) + Utf8All(s[1..])
  }

  lemma HexReadsBack(n: nat)
    requires n < 16
    ensures HexValue(HexDigit(n)) == Some(n)
  {
  }

  lemma PercentReadsBack(b: Byte, rest: string, s: string)
    requires s == Percent(b) + rest && Unescape(rest).Some?
    ensures Unescape(s) == Some([b] + Unescape(rest).value)
  {
    assert s[0] == '%' && s[1] == HexDigit(b / 16) && s[2] == HexDigit(b % 16) && s[3..] == rest;
    HexReadsBack(b / 16);
    HexReadsBack(b % 16);
  }

  lemma Regroup<T>(a: seq<T>, b: seq<T>, c: seq<T>)
    ensures (a + b) + c == a + (b + c)
  {
  }

  /** The escaped bytes in front of text that can be read are read in front of it. */
  lemma {:induction false} EscapesReadBack(bytes: seq<Byte>, rest: string, read: seq<Byte>)
    requires Unescape(rest) == Some(read)
    ensures Unescape(PercentAll(bytes) + rest) == Some(bytes + read)
  {
    if bytes == [] {
      assert PercentAll(bytes) + rest == rest && bytes + read == read;
    } else {
      EscapesReadBack(bytes[1..], rest, read);
      Regroup(Percent(bytes[0]), PercentAll(bytes[1..]), rest);
      PercentReadsBack(bytes[0], PercentAll(bytes[1..]) + rest, PercentAll(bytes) + rest);
      Regroup([bytes[0]], bytes[1..], read);
      assert [bytes[0]] + bytes[1..] == bytes;
    }
  }

  lemma KeptReadsBack(c: char, rest: string, s: string)
    requires Kept(c) && s == [c] + rest && Unescape(rest).Some?
    ensures Unescape(s) == Some(Utf8(c) + Unescape(rest).value)
  {
    assert s[0] == c && s[1..] == rest && c != '%' && (c as int) < 0x80;
  }

  lemma {:induction false} EncodedBytes(s: string)
    ensures Unescape(EncodeComponent(s)) == Some(Utf8All(s))
  {
    if s != "" {
      EncodedBytes(s[1..]);
      var rest := EncodeComponent(s[1..]);
      if Kept(s[0]) {
        KeptReadsBack(s[0], rest, EncodeComponent(s));
      } else {
        EscapesReadBack(Utf8(s[0]), rest, Utf8All(s[1..]));
      }
    }
  }

  lemma SixBitDigits(n: nat)
    ensures n == 64 * (n / 64) + n % 64 && n / 64 == 64 * (n / 4096) + n / 64 % 64
    ensures n / 4096 == 64 * (n / 262144) + n / 4096 % 64
  {
    var a := n / 64;
    var b := a / 64;
    assert b == n / 4096 && b / 64 == n / 262144;
  }

  lemma LowDigit(x: nat)
    requires x < 64
    ensures Low(0x80 + x) == x
  {
  }

  lemma CharReadsBack(c: char, b: seq<Byte>)
    requires |b| >= |Utf8(c)| && b[..|Utf8(c)|] == Utf8(c)
    ensures FirstScalar(b) == Some((c as nat, |Utf8(c)|))
  {
    var n, u := c as nat, Utf8(c);
    assert b[0] == u[0];
    if n >= 0x80 {
      assert b[1] == u[1];
      SixBitDigits(n);
      LowDigit(n % 64);
      if n >= 0x800 {
        assert b[2] == u[2];
        LowDigit(n / 64 % 64);
        if n >= 0x1_0000 {
          assert b[3] == u[3];
          LowDigit(n / 4096 % 64);
        }
      }
    }
  }

  lemma ScalarsStep(b: seq<Byte>, n: nat, code: nat, rest: seq<nat>)
    requires 0 < n <= |b| && FirstScalar(b) == Some((code, n)) && Scalars(b[n..]) == Some(rest)
    ensures Scalars(b) == Some([code] + rest)
  {
  }

  lemma Utf8Step(c: char, rest: seq<Byte>, codes: seq<nat>)
    requires Scalars(rest) == Some(codes)
    ensures Scalars(Utf8(c) + rest) == Some([c as nat] + codes)
  {
    var b, n := Utf8(c) + rest, |Utf8(c)|;
    assert b[..n] == Utf8(c) && b[n..] == rest;
    CharReadsBack(c, b);
    ScalarsStep(b, n, c as nat, codes);
  }

  lemma {:induction false} Utf8ReadsBack(s: string)
    ensures Scalars(Utf8All(s)) == Some(Codes(s))
  {
    if s == "" {
      assert Codes(s) == [];
    } else {
      Utf8ReadsBack(s[1..]);
      Utf8Step(s[0], Utf8All(s[1..]), Codes(s[1..]));
      assert Codes(s) == [s[0] as nat] + Codes(s[1..]);
    }
  }

  /** Percent-decoding and UTF-8 decoding give the value back, character by character. */
  lemma EncodedReadsBack(s: string)
    ensures Unescape(EncodeComponent(s)).Some? && Scalars(Unescape(EncodeComponent(s)).value) == Some(Codes(s))
  {
    EncodedBytes(s);
    Utf8ReadsBack(s);
  }

  // ---- the scan ----

  lemma BeforeTwice(a: string, b: string, r: Result<string, string>)
    ensures Before(a, Before(b, r)) == Before(a + b, r)
    ensures Before("", r) == r
  {
    assert r.Ok? ==> a + (b + r.value) == a + b + r.value;
    assert r.Ok? ==> "" + r.value == r.value;
  }

  lemma {:induction false} SkipToNext(path: string, i: nat, j: nat)
    requires i <= j <= |path|
    requires forall m, c :: i <= m < j ==> !IsMatch(path, m, c)
    ensures NextMatch(path, i) == NextMatch(path, j)
    decreases j - i
  {
    if i < j {
      if NextMatch(path, i).Some? {
        assert IsMatch(path, NextMatch(path, i).value.start, NextMatch(path, i).value.close);
      }
      SkipToNext(path, i + 1, j);
    }
  }

  /** Text in front of the next match is copied as it is. */
  lemma SkipLiteral(path: string, params: Params, i: nat, j: nat)
    requires i <= j <= |path|
    requires forall m, c :: i <= m < j ==> !IsMatch(path, m, c)
    ensures Replace(path, params, i) == Before(path[i..j], Replace(path, params, j))
  {
    SkipToNext(path, i, j);
    ReplaceByNext(path, params, i);
    ReplaceByNext(path, params, j);
    var next := NextMatch(path, j);
    var rest := if next.Some? then Replace(path, params, next.value.close + 1) else Err("");
    LiteralInFront(path, params, i, j, next, rest, Replace(path, params, i), Replace(path, params, j));
  }

  /** Two replacements that go on alike differ by the text between their starts. */
  lemma LiteralInFront(path: string, params: Params, i: nat, j: nat, next: Option<Match>,
                       rest: Result<string, string>, a: Result<string, string>, b: Result<string, string>)
    requires i <= j <= |path|
    requires next.None? ==> a == Ok(path[i..]) && b == Ok(path[j..])
    requires next.Some? ==> j <= next.value.start && IsMatch(path, next.value.start, next.value.close)
    requires next.Some? ==>
             a == Filled(path, params, i, next.value, rest) && b == Filled(path, params, j, next.value, rest)
    ensures a == Before(path[i..j], b)
  {
    match next {
      case None => assert path[i..j] + path[j..] == path[i..];
      case Some(m) => FilledFrom(path, params, i, j, m, rest);
    }
  }

  lemma ReplaceByNext(path: string, params: Params, i: nat)
    requires i <= |path|
    ensures Replace(path, params, i)
            == match NextMatch(path, i)
               case None => Ok(path[i..])
               case Some(m) => Filled(path, params, i, m, Replace(path, params, m.close + 1))
  {
  }

  lemma FilledFrom(path: string, params: Params, i: nat, j: nat, m: Match, rest: Result<string, string>)
    requires i <= j <= m.start && IsMatch(path, m.start, m.close)
    ensures Filled(path, params, i, m, rest) == Before(path[i..j], Filled(path, params, j, m, rest))
  {
    if NameOf(path, m) in params {
      var value := EncodeComponent(params[NameOf(path, m)]);
      assert path[i..j] + (path[j..m.start] + value) == path[i..m.start] + value;
      BeforeTwice(path[i..j], path[j..m.start] + value, rest);
    }
  }

  lemma MatchIsNext(path: string, params: Params, open: nat, close: nat)
    requires IsMatch(path, open, close)
    ensures Replace(path, params, open)
            == Filled(path, params, open, Match(open, close), Replace(path, params, close + 1))
  {
    assert NextMatch(path, open) == Some(Match(open, close));
  }

  /** Literal text and then a match: both in one step. */
  lemma MatchAhead(path: string, params: Params, i: nat, open: nat, close: nat)
    requires i <= open && IsMatch(path, open, close)
    requires forall m, c :: i <= m < open ==> !IsMatch(path, m, c)
    ensures Replace(path, params, i) == Filled(path, params, i, Match(open, close), Replace(path, params, close + 1))
  {
    SkipLiteral(path, params, i, open);
    MatchIsNext(path, params, open, close);
    FilledFrom(path, params, i, open, Match(open, close), Replace(path, params, close + 1));
  }

  lemma NothingToMatch(path: string, i: nat, j: nat)
    requires i <= j <= |path| && forall k :: i <= k < j ==> path[k] != '{'
    ensures forall m, c :: i <= m < j ==> !IsMatch(path, m, c)
  {
  }

  predicate Unmatched(path: string, open: nat) {
    var close := IndexOf(path, '}', open + 1);
    close.None? || close.value == open + 1
  }

  lemma NoMatchAt(path: string, open: nat)
    requires open < |path| && Unmatched(path, open)
    ensures forall c :: !IsMatch(path, open, c)
  {
  }

  /** An unmatched or empty brace, and the text in front of it, match nothing. */
  lemma BraceIsNoMatch(path: string, i: nat, open: nat)
    requires i < |path| && IndexOf(path, '{', i) == Some(open) && Unmatched(path, open)
    ensures forall m, c :: i <= m < open + 1 ==> !IsMatch(path, m, c)
  {
    NothingToMatch(path, i, open);
    NoMatchAt(path, open);
  }

  lemma FirstMatch(path: string, i: nat, open: nat)
    requires i < |path| && IndexOf(path, '{', i) == Some(open) && !Unmatched(path, open)
    ensures IsMatch(path, open, IndexOf(path, '}', open + 1).value)
    ensures forall m, c :: i <= m < open ==> !IsMatch(path, m, c)
  {
    NothingToMatch(path, i, open);
  }

  // ---- what the scan costs ----

  /** Characters that a search for `c` from `from` on looks at. */
  function Looked(s: string, c: char, from: nat): nat
    requires from <= |s|
  {
    var found := IndexOf(s, c, from);
    if found.Some? then found.value - from + 1 else |s| - from
  }

  /** Where the turn from `i` goes on, if it does not throw. */
  function NextPlace(path: string, i: nat): (next: nat)
    requires i < |path|
    ensures i < next <= |path|
  {
    var open := IndexOf(path, '{', i);
    if open.None? then |path|
    else
      var close := IndexOf(path, '}', open.value + 1);
      if close.None? || close.value == open.value + 1 then open.value + 1 else close.value + 1
  }

  /** Characters that both searches of the turn from `i` look at. */
  function TurnCost(path: string, i: nat): nat
    requires i < |path|
  {
    var open := IndexOf(path, '{', i);
    Looked(path, '{', i) + if open.None? then 0 else Looked(path, '}', open.value + 1)
  }

  /** Characters that all searches of a scan from `i` look at. */
  function ScanCost(path: string, i: nat): nat
    requires i <= |path|
    decreases |path| - i
  {
    if i == |path| then 0 else TurnCost(path, i) + ScanCost(path, NextPlace(path, i))
  }

  /** Characters behind `p` if it is a brace that nothing behind it closes. */
  function Waste(path: string, p: nat): nat
    requires p < |path|
  {
    if path[p] == '{' && IndexOf(path, '}', p + 1).None? then |path| - p - 1 else 0
  }

  /** Characters searched in vain for closing braces. */
  function InVain(path: string, i: nat): nat
    requires i <= |path|
    decreases |path| - i
  {
    if i == |path| then 0 else Waste(path, i) + InVain(path, i + 1)
  }

  lemma {:induction false} NothingWasted(path: string, i: nat, j: nat)
    requires i <= j <= |path| && forall p :: i <= p < j ==> Waste(path, p) == 0
    ensures InVain(path, i) == InVain(path, j)
    decreases j - i
  {
    if i < j {
      NothingWasted(path, i + 1, j);
    }
  }

  /** One turn looks at no more than twice the text it passes, and at what it searches in vain. */
  lemma TurnCostBounds(path: string, i: nat)
    requires i < |path|
    ensures var next, vain := NextPlace(path, i), InVain(path, i) - InVain(path, NextPlace(path, i));
            vain <= TurnCost(path, i) <= 2 * (next - i) + vain
  {
    var open := IndexOf(path, '{', i);
    if open.None? {
      NothingWasted(path, i, |path|);
    } else {
      NothingWasted(path, i, open.value);
      var close := IndexOf(path, '}', open.value + 1);
      if close.Some? && close.value > open.value + 1 {
        forall p | open.value <= p < close.value + 1 ensures Waste(path, p) == 0 {
          assert path[p] == '{' ==> p < close.value;
        }
        NothingWasted(path, open.value, close.value + 1);
      }
    }
  }

  /** The scan is linear exactly as far as the searches in vain are. */
  lemma {:induction false} ScanCostBounds(path: string, i: nat)
    requires i <= |path|
    ensures InVain(path, i) <= ScanCost(path, i) <= 2 * (|path| - i) + InVain(path, i)
    decreases |path| - i
  {
    if i < |path| {
      TurnCostBounds(path, i);
      ScanCostBounds(path, NextPlace(path, i));
    }
  }

  /** Nothing is searched in vain exactly when every brace but a last character is followed by a closing one. */
  lemma {:induction false} NoWasteExactly(path: string, i: nat)
    requires i <= |path|
    ensures InVain(path, i) == 0
            <==> forall p :: i <= p < |path| - 1 && path[p] == '{' ==> exists c :: p < c < |path| && path[c] == '}'
    decreases |path| - i
  {
    if i < |path| {
      NoWasteExactly(path, i + 1);
      var close := IndexOf(path, '}', i + 1);
      assert close.Some? ==> i < close.value < |path| && path[close.value] == '}';
      assert Waste(path, i) == 0 <==> path[i] != '{' || close.Some? || i == |path| - 1;
    }
  }

  function Braces(n: nat): string {
    seq(n, _ => '{')
  }

  /** A template of unclosed braces takes quadratic time. */
  lemma {:induction false} BracesAreQuadratic(n: nat, i: nat)
    requires i <= n
    ensures 2 * InVain(Braces(n), i) == (n - i) * (n - i - 1)
    decreases n - i
  {
    if i < n {
      BracesAreQuadratic(n, i + 1);
      assert IndexOf(Braces(n), '}', i + 1).None?;
      var m := n - i;
      assert m * (m - 1) == (m - 1) * (m - 2) + 2 * (m - 1);
    }
  }

  /** No constant factor bounds the cost of all templates. */
  lemma NotLinear(c: nat) returns (path: string)
    ensures ScanCost(path, 0) > c * |path|
  {
    var n := 2 * c + 2;
    path := Braces(n);
    BracesAreQuadratic(n, 0);
    ScanCostBounds(path, 0);
    assert n * (n - 1) == 2 * (c * n) + n by {
      assert n - 1 == 2 * c + 1;
    }
  }

  ghost predicate CostsAtMost(paths: iset<string>, c: nat) {
    forall path :: path in paths ==> ScanCost(path, 0) <= c * |path|
  }

  ghost predicate VainAtMost(paths: iset<string>, c: nat) {
    forall path :: path in paths ==> InVain(path, 0) <= c * |path|
  }

  /** Templates are scanned in linear time exactly when the searches in vain are linear. */
  lemma LinearExactly(paths: iset<string>)
    ensures (exists c: nat :: CostsAtMost(paths, c)) <==> exists c: nat :: VainAtMost(paths, c)
  {
    forall path | path in paths ensures InVain(path, 0) <= ScanCost(path, 0) <= 2 * |path| + InVain(path, 0) {
      ScanCostBounds(path, 0);
    }
    if c: nat :| CostsAtMost(paths, c) {
      assert VainAtMost(paths, c);
    }
    if c: nat :| VainAtMost(paths, c) {
      forall path | path in paths ensures ScanCost(path, 0) <= (c + 2) * |path| {
        assert (c + 2) * |path| == c * |path| + 2 * |path|;
      }
      assert CostsAtMost(paths, c + 2);
    }
  }

  /** What a turn from `i` may answer: text it emits and where it goes on, or the missing name. */
  ghost predicate TurnOk(path: string, params: Params, i: nat, r: Result<(string, nat), string>)
    requires i < |path|
  {
    match r
    case Ok((text, next)) => i < next <= |path| && Replace(path, params, i) == Before(text, Replace(path, params, next))
    case Err(name) => Replace(path, params, i) == Err(name)
  }

  /** A turn that meets the match `m`: the text emitted and the place behind, or the missing name. */
  function TurnAt(path: string, params: Params, i: nat, m: Match): Result<(string, nat), string>
    requires i <= m.start && IsMatch(path, m.start, m.close)
  {
    if NameOf(path, m) !in params then Err(NameOf(path, m))
    else Ok((path[i..m.start] + EncodeComponent(params[NameOf(path, m)]), m.close + 1))
  }

  lemma FilledTurn(path: string, params: Params, i: nat, m: Match, rest: Result<string, string>)
    requires i <= m.start && IsMatch(path, m.start, m.close)
    ensures match TurnAt(path, params, i, m)
            case Ok((text, next)) => next == m.close + 1 && Filled(path, params, i, m, rest) == Before(text, rest)
            case Err(name) => Filled(path, params, i, m, rest) == Err(name)
  {
  }

  lemma TurnAtFills(path: string, params: Params, i: nat, m: Match, r: Result<(string, nat), string>)
    requires i <= m.start && IsMatch(path, m.start, m.close) && r == TurnAt(path, params, i, m)
    requires Replace(path, params, i) == Filled(path, params, i, m, Replace(path, params, m.close + 1))
    ensures TurnOk(path, params, i, r)
  {
    FilledTurn(path, params, i, m, Replace(path, params, m.close + 1));
  }

  lemma LiteralTurn(path: string, params: Params, i: nat, next: nat, r: Result<(string, nat), string>)
    requires i < next <= |path| && r == Ok((path[i..next], next))
    requires forall m, c :: i <= m < next ==> !IsMatch(path, m, c)
    ensures TurnOk(path, params, i, r)
  {
    SkipLiteral(path, params, i, next);
  }

  lemma MatchTurn(path: string, params: Params, i: nat, m: Match, r: Result<(string, nat), string>)
    requires i <= m.start && IsMatch(path, m.start, m.close) && r == TurnAt(path, params, i, m)
    requires forall k, c :: i <= k < m.start ==> !IsMatch(path, k, c)
    ensures TurnOk(path, params, i, r)
  {
    MatchAhead(path, params, i, m.start, m.close);
    TurnAtFills(path, params, i, m, r);
  }

  /** One turn of the scan. */
  method ScanTurn(path: string, params: Params, i: nat) returns (r: Result<(string, nat), string>, looked: nat)
    requires i < |path|
    ensures TurnOk(path, params, i, r)
    ensures looked == TurnCost(path, i) && (r.Ok? ==> r.value.1 == NextPlace(path, i))
  {
    var open := IndexOf(path, '{', i);
    looked := Looked(path, '{', i);
    if open.None? {
      r := Ok((path[i..], |path|));
      assert path[i..] == path[i..|path|];
      NothingToMatch(path, i, |path|);
      LiteralTurn(path, params, i, |path|, r);
      return;
    }
    var close := IndexOf(path, '}', open.value + 1);
    looked := looked + Looked(path, '}', open.value + 1);
    if close.None? || close.value == open.value + 1 {
      r := Ok((path[i..open.value + 1], open.value + 1));
      BraceIsNoMatch(path, i, open.value);
      LiteralTurn(path, params, i, open.value + 1, r);
      return;
    }
    FirstMatch(path, i, open.value);
    r := TurnAt(path, params, i, Match(open.value, close.value));
    MatchTurn(path, params, i, Match(open.value, close.value), r);
  }

  /**
   The scan equals the replacement on every template, with nested, empty and unmatched
   braces alike, in at most `|path|` turns; `looked` counts the characters its searches look
   at. Without parameters the path is left as it is.
   */
  method InterpolatePath(path: string, params: Option<Params>)
    returns (r: Result<string, string>, turns: nat, looked: nat)
    ensures params.None? ==> r == Ok(path) && looked == 0
    ensures params.Some? ==> r == Replace(path, params.value, 0)
    ensures turns <= |path| && looked <= ScanCost(path, 0)
    ensures params.Some? && r.Ok? ==> looked == ScanCost(path, 0)
  {
    turns, looked := 0, 0;
    if params.None? {
      return Ok(path), turns, looked;
    }
    var result, i := "", 0;
    BeforeTwice("", "", Replace(path, params.value, 0));
    while i < |path|
      invariant turns <= i <= |path|
      invariant looked + ScanCost(path, i) == ScanCost(path, 0)
      invariant Before(result, Replace(path, params.value, i)) == Replace(path, params.value, 0)
    {
      turns := turns + 1;
      var turn, cost := ScanTurn(path, params.value, i);
      looked := looked + cost;
      if turn.Err? {
        return Err(turn.error), turns, looked;
      }
      BeforeTwice(result, turn.value.0, Replace(path, params.value, turn.value.1));
      result, i := result + turn.value.0, turn.value.1;
    }
    assert path[i..] == "" && result + "" == result;
    return Ok(result), turns, looked;
  }

  // ---- consequences ----

  /** All matches from `i` on, leftmost and non-overlapping. */
  function Matches(path: string, i: nat): (ms: seq<Match>)
    requires i <= |path|
    ensures forall k :: 0 <= k < |ms| ==> i <= ms[k].start && IsMatch(path, ms[k].start, ms[k].close)
    decreases |path| - i
  {
    match NextMatch(path, i)
    case None => []
    case Some(m) => [m] + Matches(path, m.close + 1)
  }

  /** The first matched name that has no value. */
  function FirstMissing(path: string, params: Params, ms: seq<Match>): Option<string>
    requires forall k :: 0 <= k < |ms| ==> IsMatch(path, ms[k].start, ms[k].close)
  {
    if ms == [] then None
    else if NameOf(path, ms[0]) !in params then Some(NameOf(path, ms[0]))
    else FirstMissing(path, params, ms[1..])
  }

  /** The scan throws exactly when some matched name has no value, and it names the first one. */
  lemma {:induction false} ThrowsOnFirstMissing(path: string, params: Params, i: nat)
    requires i <= |path|
    ensures match FirstMissing(path, params, Matches(path, i))
            case None => Replace(path, params, i).Ok?
            case Some(name) => Replace(path, params, i) == Err(name)
    decreases |path| - i
  {
    match NextMatch(path, i)
    case None =>
    case Some(m) =>
      ThrowsOnFirstMissing(path, params, m.close + 1);
      assert Matches(path, i)[0] == m && Matches(path, i)[1..] == Matches(path, m.close + 1);
      assert Replace(path, params, i) == Filled(path, params, i, m, Replace(path, params, m.close + 1));
  }

  /** The literal text of a template: what is left when every match is deleted. */
  function Literal(path: string, i: nat): string
    requires i <= |path|
    decreases |path| - i
  {
    match NextMatch(path, i)
    case None => path[i..]
    case Some(m) => path[i..m.start] + Literal(path, m.close + 1)
  }

  /** Values add no path segment: a filled path has exactly the slashes of the template's literal text. */
  lemma {:induction false} ValuesAddNoSlash(path: string, params: Params, i: nat)
    requires i <= |path|
    requires Replace(path, params, i).Ok?
    ensures Slashes(Replace(path, params, i).value) == Slashes(Literal(path, i))
    decreases |path| - i
  {
    match NextMatch(path, i)
    case None =>
    case Some(m) =>
      ValuesAddNoSlash(path, params, m.close + 1);
      var value := EncodeComponent(params[NameOf(path, m)]);
      var rest := Replace(path, params, m.close + 1).value;
      EncodedIsSafe(params[NameOf(path, m)]);
      assert !Safe('/');
      NoSlashes(value);
      SlashesAdd(path[i..m.start] + value, rest);
      SlashesAdd(path[i..m.start], value);
      SlashesAdd(path[i..m.start], Literal(path, m.close + 1));
  }
}

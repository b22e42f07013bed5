/**
 SCALE decoding of historical metric vectors, against the encoding of Appendix A.2.2
 of the Polkadot Protocol Specification, and the ranks derived from the decoded incentives.
 */
module Scale {
  import opened Common
  import opened LittleEndian

  // ---- bytes of a number ----

  /** Bytes needed for `n`. */
  function ByteLength(n: nat): nat {
    if n == 0 then 0 else 1 + ByteLength(n / 256)
  }

  lemma {:induction false} ByteLengthFits(n: nat)
    ensures n < Pow256(ByteLength(n))
  {
    if n > 0 {
      ByteLengthFits(n / 256);
    }
  }

  lemma {:induction false} ByteLengthAtLeast(n: nat, k: nat)
    requires Pow256(k) <= n
    ensures ByteLength(n) > k
  {
    if k > 0 {
      ByteLengthAtLeast(n / 256, k - 1);
    }
  }

  // ---- compact integers ----

  /** The compact encoding ends at numbers of 67 bytes. */
  ghost predicate Compactable(n: nat) {
    ByteLength(n) <= 67
  }

  ghost function EncodeCompact(n: nat): seq<Byte>
    requires Compactable(n)
  {
    if n < 0x40 then [n * 4]
    else if n < 0x4000 then ToLittle(n * 4 + 1, 2)
    else if n < 0x4000_0000 then ToLittle(n * 4 + 2, 4)
    else
      BigModeLength(n);
      [(ByteLength(n) - 4) * 4 + 3] + ToLittle(n, ByteLength(n))
  }

  lemma BigModeLength(n: nat)
    requires n >= 0x4000_0000
    ensures ByteLength(n) >= 4
  {
    PowersInUse();
    ByteLengthAtLeast(n, 3);
  }

  /** Python slicing: out-of-range bounds are clamped, never refused. */
  function Slice(b: seq<Byte>, i: nat, j: nat): seq<Byte>
    requires i <= j
  {
    b[Min(i, |b|)..Min(j, |b|)]
  }

  /** `(value, next index)`; `None` is the IndexError of reading past the end. */
  function ReadCompact(b: seq<Byte>, i: nat): Option<(nat, nat)> {
    if i >= |b| then None
    else
      var b0 := b[i];
      var mode := b0 % 4;
      if mode == 0 then Some((b0 / 4, i + 1))
      else if mode == 1 then Some((FromLittle(Slice(b, i, i + 2)) / 4, i + 2))
      else if mode == 2 then Some((FromLittle(Slice(b, i, i + 4)) / 4, i + 4))
      else
        var n := b0 / 4 + 4;
        Some((FromLittle(Slice(b, i + 1, i + 1 + n)), i + 1 + n))
  }

  lemma Middle(prefix: seq<Byte>, code: seq<Byte>, suffix: seq<Byte>, from: nat)
    requires from <= |code|
    ensures Slice(prefix + code + suffix, |prefix| + from, |prefix| + |code|) == code[from..]
  {
  }

  lemma Quarters(m: nat, n: nat, mode: nat)
    requires m == n * 4 + mode && mode < 4
    ensures m % 256 % 4 == mode && m / 4 == n
  {
    var q := m / 256;
    assert m == 256 * q + m % 256;
  }

  lemma FirstByte(m: nat, k: nat)
    requires k >= 1
    ensures ToLittle(m, k)[0] == m % 256
  {
  }

  lemma FixedMode(n: nat, mode: nat, k: nat)
    requires 1 <= mode <= 2 && k >= 1 && n * 4 + mode < Pow256(k)
    ensures ToLittle(n * 4 + mode, k)[0] % 4 == mode
    ensures FromLittle(ToLittle(n * 4 + mode, k)) / 4 == n
  {
    var m := n * 4 + mode;
    LittleRoundTrip(m, k);
    FirstByte(m, k);
    Quarters(m, n, mode);
  }

  /** `code` behind `prefix` and in front of `suffix` is read as `n`, and the reading ends at its end. */
  ghost predicate ReadsAs(code: seq<Byte>, n: nat, prefix: seq<Byte>, suffix: seq<Byte>) {
    code != [] && ReadCompact(prefix + code + suffix, |prefix|) == Some((n, |prefix| + |code|))
  }

  lemma FixedModeReads(n: nat, mode: nat, k: nat, prefix: seq<Byte>, suffix: seq<Byte>)
    requires (mode == 1 && k == 2) || (mode == 2 && k == 4)
    requires n * 4 + mode < Pow256(k)
    ensures ReadsAs(ToLittle(n * 4 + mode, k), n, prefix, suffix)
  {
    var code := ToLittle(n * 4 + mode, k);
    FixedMode(n, mode, k);
    Middle(prefix, code, suffix, 0);
    assert code[0..] == code && (prefix + code + suffix)[|prefix|] == code[0];
  }

  lemma BigModeReads(n: nat, k: nat, prefix: seq<Byte>, suffix: seq<Byte>)
    requires 4 <= k <= 67 && n < Pow256(k)
    ensures ReadsAs([(k - 4) * 4 + 3] + ToLittle(n, k), n, prefix, suffix)
  {
    var code := [(k - 4) * 4 + 3] + ToLittle(n, k);
    LittleRoundTrip(n, k);
    Middle(prefix, code, suffix, 1);
    assert code[1..] == ToLittle(n, k) && (prefix + code + suffix)[|prefix|] == code[0];
  }

  lemma OneByteReads(n: nat, prefix: seq<Byte>, suffix: seq<Byte>)
    requires n < 0x40
    ensures ReadsAs([n * 4], n, prefix, suffix)
  {
    assert (prefix + [n * 4] + suffix)[|prefix|] == n * 4;
  }

  lemma ManyBytesRead(n: nat, prefix: seq<Byte>, suffix: seq<Byte>)
    requires n >= 0x4000_0000 && Compactable(n)
    ensures ReadsAs(EncodeCompact(n), n, prefix, suffix)
  {
    var k := ByteLength(n);
    BigModeLength(n);
    ByteLengthFits(n);
    BigModeReads(n, k, prefix, suffix);
    BigModeCode(n, k, [(k - 4) * 4 + 3] + ToLittle(n, k));
  }

  lemma BigModeCode(n: nat, k: nat, code: seq<Byte>)
    requires n >= 0x4000_0000 && Compactable(n) && k == ByteLength(n) >= 4
    requires code == [(k - 4) * 4 + 3] + ToLittle(n, k)
    ensures EncodeCompact(n) == code
  {
  }

  lemma TwoBytesRead(n: nat, prefix: seq<Byte>, suffix: seq<Byte>)
    requires 0x40 <= n < 0x4000 && Compactable(n)
    ensures ReadsAs(EncodeCompact(n), n, prefix, suffix)
  {
    PowersInUse();
    FixedModeReads(n, 1, 2, prefix, suffix);
  }

  lemma FourBytesRead(n: nat, prefix: seq<Byte>, suffix: seq<Byte>)
    requires 0x4000 <= n < 0x4000_0000 && Compactable(n)
    ensures ReadsAs(EncodeCompact(n), n, prefix, suffix)
  {
    PowersInUse();
    FixedModeReads(n, 2, 4, prefix, suffix);
  }

  /** Decoding inverts encoding in all four modes, after any bytes and before any bytes. */
  lemma CompactRoundTrip(n: nat, prefix: seq<Byte>, suffix: seq<Byte>)
    requires Compactable(n)
    ensures ReadsAs(EncodeCompact(n), n, prefix, suffix)
  {
    if n < 0x40 {
      OneByteReads(n, prefix, suffix);
    } else if n < 0x4000 {
      TwoBytesRead(n, prefix, suffix);
    } else if n < 0x4000_0000 {
      FourBytesRead(n, prefix, suffix);
    } else {
      ManyBytesRead(n, prefix, suffix);
    }
  }

  // ---- hexadecimal storage values ----

  function DigitOf(v: nat): char
    requires v < 16
  {
    if v < 10 then ('0' as int + v) as char else ('a' as int + v - 10) as char
  }

  function ValueOf(c: char): Option<nat> {
    if '0' <= c <= '9' then Some(c as int - '0' as int)
    else if 'a' <= c <= 'f' then Some(c as int - 'a' as int + 10)
    else if 'A' <= c <= 'F' then Some(c as int - 'A' as int + 10)
    else None
  }

  function ToHex(b: seq<Byte>): string {
    if b == [] then "" else [DigitOf(b[0] / 16), DigitOf(b[0] % 16)] + ToHex(b[1..])
  }

  /** Hexadecimal digits count the same in either case. */
  lemma CaseIsIgnored(k: nat)
    requires k < 6
    ensures ValueOf("ABCDEF"[k]) == ValueOf("abcdef"[k]) == Some(10 + k)
  {
  }

  /** `bytes.fromhex` on text without white space; `None` is its ValueError. */
  function FromHex(s: string): Option<seq<Byte>> {
    if s == "" then Some([])
    else if |s| == 1 then None
    else
      var hi, lo, rest := ValueOf(s[0]), ValueOf(s[1]), FromHex(s[2..]);
      if hi.Some? && lo.Some? && rest.Some? && hi.value < 16 && lo.value < 16
      then Some([hi.value * 16 + lo.value] + rest.value) else None
  }

  function StorageBytes(hex: string): Option<seq<Byte>> {
    FromHex(if |hex| >= 2 && hex[..2] == "0x" then hex[2..] else hex)
  }

  lemma DigitRoundTrip(v: nat)
    requires v < 16
    ensures ValueOf(DigitOf(v)) == Some(v)
  {
  }

  lemma {:induction false} HexRoundTrip(b: seq<Byte>)
    ensures FromHex(ToHex(b)) == Some(b)
  {
    if b != [] {
      HexRoundTrip(b[1..]);
      DigitRoundTrip(b[0] / 16);
      DigitRoundTrip(b[0] % 16);
      var text := ToHex(b);
      assert text[0] == DigitOf(b[0] / 16) && text[1] == DigitOf(b[0] % 16) && text[2..] == ToHex(b[1..]);
      assert [b[0]] + b[1..] == b;
    }
  }

  // ---- vectors ----

  function DecodeVecUint(hex: Option<string>, size: nat): Option<seq<nat>> {
    if hex.None? || hex.value == "" then Some([])
    else
      var b := StorageBytes(hex.value);
      if b.None? then None
      else
        var head := ReadCompact(b.value, 0);
        if head.None? then None
        else Some(ReadUints(b.value, head.value.1, size, head.value.0))
  }

  /** Storage that is absent or empty is an empty vector. */
  lemma AbsentIsEmpty(size: nat)
    ensures DecodeVecUint(None, size) == DecodeVecUint(Some(""), size) == Some([])
    ensures DecodeVecBool(None) == DecodeVecBool(Some("")) == Some([])
  {
  }

  function ReadUint(b: seq<Byte>, o: nat, size: nat): nat {
    FromLittle(Slice(b, o, o + size))
  }

  function ElementAt(b: seq<Byte>, start: nat, size: nat, k: nat): nat {
    ReadUint(b, start + Span(k, size), size)
  }

  function ReadUints(b: seq<Byte>, start: nat, size: nat, n: nat): (vs: seq<nat>)
    ensures |vs| == n && forall k :: 0 <= k < n ==> vs[k] == ElementAt(b, start, size, k)
  {
    if n == 0 then [] else ReadUints(b, start, size, n - 1) + [ElementAt(b, start, size, n - 1)]
  }

  /** `None` where the source raises: bad hex, or a vector shorter than its length says. */
  function DecodeVecBool(hex: Option<string>): Option<seq<bool>> {
    if hex.None? || hex.value == "" then Some([])
    else
      var b := StorageBytes(hex.value);
      if b.None? then None
      else
        var head := ReadCompact(b.value, 0);
        if head.None? || (head.value.0 > 0 && head.value.1 + head.value.0 > |b.value|) then None
        else Some(ReadBools(b.value, head.value.1, head.value.0))
  }

  function ReadBools(b: seq<Byte>, start: nat, n: nat): (vs: seq<bool>)
    requires n > 0 ==> start + n <= |b|
    ensures |vs| == n && forall k :: 0 <= k < n ==> vs[k] == (b[start + k] != 0)
  {
    if n == 0 then [] else ReadBools(b, start, n - 1) + [b[start + n - 1] != 0]
  }

  function EncodeUints(vs: seq<nat>, size: nat): seq<Byte> {
    if vs == [] then [] else ToLittle(vs[0], size) + EncodeUints(vs[1..], size)
  }

  lemma SliceBehind(front: seq<Byte>, back: seq<Byte>, o: nat, n: nat)
    requires o + n <= |back|
    ensures (front + back)[|front| + o..|front| + o + n] == back[o..o + n]
  {
  }

  /** Bytes taken by `k` elements: their number times their size. */
  function Span(k: nat, size: nat): nat {
    if k == 0 then 0 else size + Span(k - 1, size)
  }

  lemma {:induction false} SpanIsProduct(k: nat, size: nat)
    ensures Span(k, size) == k * size
  {
    if k > 0 {
      SpanIsProduct(k - 1, size);
      assert k * size == size + (k - 1) * size;
    }
  }

  ghost function UintStorage(vs: seq<nat>, size: nat): string
    requires Compactable(|vs|)
  {
    "0x" + ToHex(EncodeCompact(|vs|) + EncodeUints(vs, size))
  }

  lemma StorageRoundTrip(b: seq<Byte>)
    ensures StorageBytes("0x" + ToHex(b)) == Some(b)
  {
    HexRoundTrip(b);
    assert ("0x" + ToHex(b))[2..] == ToHex(b);
  }

  lemma CompactAtFront(n: nat, rest: seq<Byte>)
    requires Compactable(n)
    ensures ReadCompact(EncodeCompact(n) + rest, 0) == Some((n, |EncodeCompact(n)|))
  {
    CompactRoundTrip(n, [], rest);
    assert [] + EncodeCompact(n) + rest == EncodeCompact(n) + rest;
  }

  /** `size` bytes of `body` from `o` on read as `v`. */
  predicate ReadsBack(body: seq<Byte>, o: nat, size: nat, v: nat) {
    o + size <= |body| && FromLittle(body[o..o + size]) == v
  }

  lemma FrontReadsBack(front: seq<Byte>, back: seq<Byte>, v: nat)
    requires FromLittle(front) == v
    ensures ReadsBack(front + back, 0, |front|, v)
  {
    assert (front + back)[0..|front|] == front;
  }

  lemma BackReadsBack(front: seq<Byte>, back: seq<Byte>, o: nat, size: nat, v: nat)
    requires ReadsBack(back, o, size, v)
    ensures ReadsBack(front + back, |front| + o, size, v)
  {
    SliceBehind(front, back, o, size);
  }

  lemma {:induction false} EncodedReadsBack(vs: seq<nat>, size: nat, k: nat)
    requires k < |vs| && vs[k] < Pow256(size)
    ensures ReadsBack(EncodeUints(vs, size), Span(k, size), size, vs[k])
    decreases k
  {
    var first, rest := ToLittle(vs[0], size), EncodeUints(vs[1..], size);
    if k == 0 {
      LittleRoundTrip(vs[0], size);
      FrontReadsBack(first, rest, vs[0]);
    } else {
      EncodedReadsBack(vs[1..], size, k - 1);
      BackReadsBack(first, rest, Span(k - 1, size), size, vs[k]);
    }
  }

  lemma ReadBehind(code: seq<Byte>, body: seq<Byte>, o: nat, size: nat, v: nat)
    requires ReadsBack(body, o, size, v)
    ensures ReadUint(code + body, |code| + o, size) == v
  {
    assert Slice(code + body, |code| + o, |code| + o + size) == body[o..o + size];
  }

  lemma DecodeUints(hex: string, code: seq<Byte>, body: seq<Byte>, vs: seq<nat>, size: nat)
    requires hex != "" && StorageBytes(hex) == Some(code + body)
    requires ReadCompact(code + body, 0) == Some((|vs|, |code|))
    requires forall k :: 0 <= k < |vs| ==> ReadsBack(body, Span(k, size), size, vs[k])
    ensures DecodeVecUint(Some(hex), size) == Some(vs)
  {
    var read := ReadUints(code + body, |code|, size, |vs|);
    forall k | 0 <= k < |vs| ensures read[k] == vs[k] {
      ReadBehind(code, body, Span(k, size), size, vs[k]);
    }
    assert read == vs;
  }

  /** Every vector of unsigned integers of any length and width comes back unchanged. */
  lemma VecUintRoundTrip(vs: seq<nat>, size: nat)
    requires Compactable(|vs|)
    requires forall k :: 0 <= k < |vs| ==> vs[k] < Pow256(size)
    ensures DecodeVecUint(Some(UintStorage(vs, size)), size) == Some(vs)
  {
    var code, body := EncodeCompact(|vs|), EncodeUints(vs, size);
    StorageRoundTrip(code + body);
    CompactAtFront(|vs|, body);
    forall k | 0 <= k < |vs| ensures ReadsBack(body, Span(k, size), size, vs[k]) {
      EncodedReadsBack(vs, size, k);
    }
    DecodeUints(UintStorage(vs, size), code, body, vs, size);
  }

  /** A truncated unsigned vector is not refused: elements past the end of the data read as zero. */
  lemma TruncatedElementIsZero(b: seq<Byte>, start: nat, size: nat, k: nat)
    requires |b| <= start + k * size
    ensures ElementAt(b, start, size, k) == 0
  {
    SpanIsProduct(k, size);
    assert Slice(b, start + Span(k, size), start + Span(k, size) + size) == [];
  }

  function EncodeBools(vs: seq<bool>): (b: seq<Byte>)
    ensures |b| == |vs| && forall k :: 0 <= k < |vs| ==> (b[k] != 0 <==> vs[k])
  {
    seq(|vs|, k requires 0 <= k < |vs| => if vs[k] then 1 else 0)
  }

  lemma DecodeBools(hex: string, code: seq<Byte>, vs: seq<bool>)
    requires hex != "" && StorageBytes(hex) == Some(code + EncodeBools(vs))
    requires ReadCompact(code + EncodeBools(vs), 0) == Some((|vs|, |code|))
    ensures DecodeVecBool(Some(hex)) == Some(vs)
  {
    assert ReadBools(code + EncodeBools(vs), |code|, |vs|) == vs;
  }

  lemma VecBoolRoundTrip(vs: seq<bool>)
    requires Compactable(|vs|)
    ensures DecodeVecBool(Some("0x" + ToHex(EncodeCompact(|vs|) + EncodeBools(vs)))) == Some(vs)
  {
    var code := EncodeCompact(|vs|);
    StorageRoundTrip(code + EncodeBools(vs));
    CompactAtFront(|vs|, EncodeBools(vs));
    DecodeBools("0x" + ToHex(code + EncodeBools(vs)), code, vs);
  }

  // ---- ranks ----

  /** `round(v / 65535, 9)` in units of 1e-9. */
  function U16RatioNano(v: nat): nat {
    (2 * v * 1_000_000_000 + 65535) / 131070
  }

  /** Rounding to nine decimals never merges or reorders two readings, and keeps zero apart. */
  lemma RatioKeepsOrder(v: nat, w: nat)
    ensures v < w <==> U16RatioNano(v) < U16RatioNano(w)
    ensures U16RatioNano(v) == 0 <==> v == 0
  {
    RatioStep(v, w);
    RatioStep(w, v);
    RatioStep(0, v);
  }

  lemma RatioStep(v: nat, w: nat)
    ensures v < w ==> U16RatioNano(v) < U16RatioNano(w)
  {
    if v < w {
      var x, y := 2 * v * 1_000_000_000 + 65535, 2 * w * 1_000_000_000 + 65535;
      assert y >= x + 131070;
      assert y / 131070 >= (x + 131070) / 131070 == x / 131070 + 1;
    }
  }

  const TWO_TO_53: real := 9007199254740992.0

  /** `d` is as near to `v / 65535` as a double in `[0, 1]` rounded to nearest is. */
  predicate IsQuotient(d: real, v: nat) {
    -1.0 <= (d * 65535.0 - v as real) * TWO_TO_53 / 65535.0 <= 1.0
  }

  /** In units of 1/131070 the scaled ratio is an even number, so it never is within one unit of a half. */
  lemma AwayFromHalf(v: nat, n: nat)
    requires n == U16RatioNano(v)
    ensures 131070 * n + 1 <= 2 * v * 1_000_000_000 + 65535 <= 131070 * n + 131069
  {
    var r := (2 * v * 1_000_000_000 + 65535) % 131070;
    assert 2 * v * 1_000_000_000 + 65535 == 131070 * n + r;
    assert r % 2 == 1;
  }

  /** The error of the floating division never changes the nine decimals: the double rounds to the exact ratio's. */
  lemma FloatRoundsAlike(v: nat, d: real)
    requires IsQuotient(d, v)
    ensures (d * 1000000000.0 + 0.5).Floor == U16RatioNano(v)
  {
    var n := U16RatioNano(v);
    AwayFromHalf(v, n);
    var exact, scaled := (2 * v * 1_000_000_000 + 65535) as real, d * 1000000000.0 + 0.5;
    var error := d * 65535.0 - v as real;
    assert -65535.0 <= error * TWO_TO_53 <= 65535.0;
    assert scaled * 131070.0 == exact + 2000000000.0 * error;
    assert -1.0 < 2000000000.0 * error < 1.0;
    assert (131070 * n) as real < scaled * 131070.0 < (131070 * n + 131070) as real;
    assert n as real < scaled < (n + 1) as real;
  }

  /** One projected row: its uid and its rounded incentive, when the vector reaches it. */
  datatype Row = Row(uid: nat, incentive: Option<nat>)

  predicate Ranked(r: Row) {
    r.incentive.Some? && r.incentive.value != 0
  }

  /** The sort key: higher incentive first, lower uid among equals. */
  predicate Ahead(a: Row, b: Row) {
    Ranked(a) && Ranked(b)
    && (a.incentive.value > b.incentive.value || (a.incentive.value == b.incentive.value && a.uid < b.uid))
  }

  function RankedPlaces(rows: seq<Row>): set<nat> {
    set i: nat | i < |rows| && Ranked(rows[i])
  }

  /** Places of the ranked rows ahead of place `i`. */
  function AheadOf(rows: seq<Row>, i: nat): set<nat>
    requires i in RankedPlaces(rows)
  {
    set j | j in RankedPlaces(rows) && Ahead(rows[j], rows[i])
  }

  ghost predicate InOrder(rows: seq<Row>, order: seq<nat>) {
    && (forall k :: 0 <= k < |order| ==> order[k] in RankedPlaces(rows))
    && (forall k, l :: 0 <= k < l < |order| ==> Ahead(rows[order[k]], rows[order[l]]))
  }

  function InsertPlace(rows: seq<Row>, i: nat, order: seq<nat>): (r: seq<nat>)
    requires i in RankedPlaces(rows) && forall k :: 0 <= k < |order| ==> order[k] in RankedPlaces(rows)
    ensures Elements(r) == {i} + Elements(order)
  {
    if order == [] || Ahead(rows[i], rows[order[0]]) then
      assert Elements([i] + order) == {i} + Elements(order);
      [i] + order
    else
      var rest := InsertPlace(rows, i, order[1..]);
      assert Elements([order[0]] + rest) == {order[0]} + Elements(rest);
      assert Elements(order) == {order[0]} + Elements(order[1..]);
      [order[0]] + rest
  }

  function SortedPlaces(rows: seq<Row>, n: nat): (r: seq<nat>)
    requires n <= |rows|
    ensures Elements(r) == set i: nat | i < n && Ranked(rows[i])
  {
    if n == 0 then []
    else
      var before := SortedPlaces(rows, n - 1);
      assert forall k :: 0 <= k < |before| ==> before[k] in Elements(before);
      if Ranked(rows[n - 1]) then InsertPlace(rows, n - 1, before) else before
  }

  lemma {:induction false} InsertKeepsOrder(rows: seq<Row>, i: nat, order: seq<nat>)
    requires InOrder(rows, order) && i in RankedPlaces(rows)
    requires forall k :: 0 <= k < |order| ==> rows[order[k]].uid != rows[i].uid
    ensures InOrder(rows, InsertPlace(rows, i, order))
  {
    if order != [] && !Ahead(rows[i], rows[order[0]]) {
      InsertKeepsOrder(rows, i, order[1..]);
      var rest := InsertPlace(rows, i, order[1..]);
      forall k | 0 <= k < |rest| ensures Ahead(rows[order[0]], rows[rest[k]]) {
        assert rest[k] in Elements(rest);
        assert rest[k] == i || rest[k] in order[1..];
      }
    }
  }

  ghost predicate DistinctUids(rows: seq<Row>) {
    forall i, j :: 0 <= i < j < |rows| ==> rows[i].uid != rows[j].uid
  }

  lemma {:induction false} SortedPlacesInOrder(rows: seq<Row>, n: nat)
    requires n <= |rows| && DistinctUids(rows)
    ensures InOrder(rows, SortedPlaces(rows, n))
  {
    if n > 0 {
      SortedPlacesInOrder(rows, n - 1);
      var before := SortedPlaces(rows, n - 1);
      assert forall j :: j in before ==> j in Elements(before);
      if Ranked(rows[n - 1]) {
        assert forall k :: 0 <= k < |before| ==> before[k] in Elements(before);
        InsertKeepsOrder(rows, n - 1, before);
      }
    }
  }

  /** In sorted order, exactly the earlier places are ahead. */
  lemma AheadCount(rows: seq<Row>, order: seq<nat>, k: nat)
    requires InOrder(rows, order) && Elements(order) == RankedPlaces(rows) && k < |order|
    ensures AheadOf(rows, order[k]) == Elements(order[..k])
    ensures |AheadOf(rows, order[k])| == k
  {
    forall j | j in AheadOf(rows, order[k]) ensures j in Elements(order[..k]) {
      assert j in order;
      var l :| 0 <= l < |order| && order[l] == j;
      assert l < k;
      assert order[..k][l] == j;
    }
    assert forall l :: 0 <= l < k ==> order[..k][l] == order[l];
    DistinctCardinality(order[..k]);
  }

  /** Which readings stand in front of a reading: higher ones, and equal ones of lower uid. */
  predicate ReadsAhead(v: Option<nat>, uid: nat, w: Option<nat>, other: nat) {
    w.Some? && w.value != 0 && v.Some?
    && (w.value > v.value || (w.value == v.value && other < uid))
  }

  /** Rows carry the rounded ratios of these raw readings. */
  predicate CarryRatios(rows: seq<Row>, readings: seq<Option<nat>>) {
    |rows| == |readings|
    && forall i :: 0 <= i < |rows| ==>
         rows[i].incentive == if readings[i].Some? then Some(U16RatioNano(readings[i].value)) else None
  }

  /** Rounding does not disturb the ranks: the rows ahead of a row are those with the higher raw reading. */
  lemma RanksFollowReadings(rows: seq<Row>, readings: seq<Option<nat>>, i: nat)
    requires CarryRatios(rows, readings) && i < |rows|
    ensures Ranked(rows[i]) <==> readings[i].Some? && readings[i].value != 0
    ensures Ranked(rows[i]) ==>
              AheadOf(rows, i)
              == set j: nat | j < |rows| && ReadsAhead(readings[i], rows[i].uid, readings[j], rows[j].uid)
  {
    forall j | 0 <= j < |rows| && readings[j].Some? && readings[i].Some?
      ensures readings[j].value < readings[i].value <==> rows[j].incentive.value < rows[i].incentive.value
      ensures readings[j].value > readings[i].value <==> rows[j].incentive.value > rows[i].incentive.value
      ensures rows[j].incentive.value == 0 <==> readings[j].value == 0
    {
      RatioKeepsOrder(readings[j].value, readings[i].value);
      RatioKeepsOrder(readings[i].value, readings[j].value);
    }
  }

  /** A row's rank is one more than the number of rows ahead of it; rows without incentive have none. */
  method AssignRanks(rows: seq<Row>) returns (ranks: seq<Option<nat>>)
    requires DistinctUids(rows)
    ensures |ranks| == |rows|
    ensures forall i :: 0 <= i < |rows| ==>
              ranks[i] == if Ranked(rows[i]) then Some(1 + |AheadOf(rows, i)|) else None
  {
    var order := SortedPlaces(rows, |rows|);
    SortedPlacesInOrder(rows, |rows|);
    ranks := seq(|rows|, i => None);
    for pos := 0 to |order|
      invariant |ranks| == |rows|
      invariant forall k :: 0 <= k < pos ==> ranks[order[k]] == Some(1 + |AheadOf(rows, order[k])|)
      invariant forall i :: 0 <= i < |rows| && i !in order[..pos] ==> ranks[i] == None
    {
      AheadCount(rows, order, pos);
      ranks := ranks[order[pos] := Some(pos + 1)];
    }
    forall i | 0 <= i < |rows| ensures ranks[i] == if Ranked(rows[i]) then Some(1 + |AheadOf(rows, i)|) else None {
      if Ranked(rows[i]) {
        assert i in Elements(order);
        var k :| 0 <= k < |order| && order[k] == i;
      } else {
        assert i !in Elements(order);
      }
    }
  }
}

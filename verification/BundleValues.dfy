/**
 Representations inside archive bundles: which declared value can carry every value of a
 source column, which counts a declared array can produce, and which index column holds them.
 */
module BundleValues {
  import opened Common
  import opened Decimal

  datatype Bounds = Bounds(min: int, max: int)

  datatype Kind = StringKind | BooleanKind | DecimalStringKind | IntegerKind(bounds: Bounds)

  datatype Value = Value(nullable: bool, kind: Kind)

  datatype Encoding = DecimalString | BooleanInteger

  datatype Dialect = Postgres | D1 | OtherDialect

  /** The part of a column rule that decides its representation. */
  datatype Column = Column(udt: string, nullable: bool, integerBounds: Option<Bounds>, encoding: Option<Encoding>)

  predicate IsBounds(b: Bounds) {
    IsSafeInteger(b.min) && IsSafeInteger(b.max) && b.min <= b.max
  }

  predicate Encloses(outer: Bounds, inner: Bounds) {
    outer.min <= inner.min && outer.max >= inner.max
  }

  const INT2: Bounds := Bounds(-0x8000, 0x7FFF)
  const INT4: Bounds := Bounds(-0x8000_0000, 0x7FFF_FFFF)
  const INT8: Bounds := Bounds(-0x8000_0000_0000_0000, 0x7FFF_FFFF_FFFF_FFFF)

  /** The three integer types are the signed ranges of 16, 32 and 64 bits. */
  lemma IntegerTypes(i: int)
    ensures Within(INT2, i) <==> InWidth(16, true, i)
    ensures Within(INT4, i) <==> InWidth(32, true, i)
    ensures Within(INT8, i) <==> InWidth(64, true, i)
  {
    assert Pow(2, 4) == 16;
    Square(2, 4, 16);
    Square(2, 8, 0x100);
    Square(2, 16, 0x1_0000);
    Square(2, 32, 0x1_0000_0000);
    assert Pow(2, 16) == 2 * Pow(2, 15) && Pow(2, 32) == 2 * Pow(2, 31) && Pow(2, 64) == 2 * Pow(2, 63);
  }

  function Lossless(source: Column, value: Value, dialect: Dialect): bool {
    if source.nullable != value.nullable then false
    else if source.integerBounds.Some? && !IsBounds(source.integerBounds.value) then false
    else if value.kind.IntegerKind? && !IsBounds(value.kind.bounds) then false
    else if dialect == D1 then
      if source.udt == "TEXT" then
        (value.kind.StringKind? && source.encoding == None)
        || (value.kind.DecimalStringKind? && source.encoding == Some(DecimalString))
      else if source.udt == "INTEGER" then
        if source.encoding == Some(BooleanInteger) then
          value.kind.BooleanKind? && source.integerBounds == Some(Bounds(0, 1))
        else
          source.encoding == None
          && (value.kind.DecimalStringKind?
              || (value.kind.IntegerKind? && source.integerBounds.Some?
                  && Encloses(value.kind.bounds, source.integerBounds.value)))
      else false
    else if source.encoding != None then false
    else if source.udt == "bool" then value.kind.BooleanKind?
    else if source.udt == "uuid" || source.udt == "text" || source.udt == "varchar" then value.kind.StringKind?
    else if source.udt == "numeric" then
      value.kind.DecimalStringKind?
      || (value.kind.IntegerKind? && source.integerBounds.Some?
          && Encloses(value.kind.bounds, source.integerBounds.value))
    else if source.udt == "int2" || source.udt == "int4" then
      value.kind.DecimalStringKind?
      || (value.kind.IntegerKind? && Encloses(value.kind.bounds, if source.udt == "int2" then INT2 else INT4))
    else if source.udt == "int8" then value.kind.DecimalStringKind?
    else false
  }

  // ---- source values and their encoding ----

  /** A stored value; `Numeric(u, s)` is `u` shifted right by `s` decimal places. */
  datatype Cell =
    | Null | Int(i: int) | Text(s: string) | Bool(b: bool)
    | Numeric(unscaled: int, scale: nat) | NotFinite(name: string)

  /** What `numeric` holds besides numbers. */
  const NOT_FINITE: seq<string> := ["NaN", "Infinity", "-Infinity"]

  datatype Json = JNull | JString(s: string) | JBool(b: bool) | JNumber(n: int)

  predicate Within(b: Bounds, i: int) {
    b.min <= i <= b.max
  }

  /** `\d+(\.\d+)?` with the point, if any, before the last `scale` digits. */
  predicate UnsignedDecimal(s: string, scale: nat) {
    if scale == 0 then s != "" && AllDigits(s)
    else |s| >= scale + 2 && s[|s| - scale - 1] == '.' && AllDigits(s[..|s| - scale - 1]) && AllDigits(s[|s| - scale..])
  }

  predicate IsNegative(s: string) {
    s != "" && s[0] == '-'
  }

  function Magnitude(s: string): string {
    if IsNegative(s) then s[1..] else s
  }

  predicate DecimalText(s: string, scale: nat) {
    UnsignedDecimal(Magnitude(s), scale)
  }

  /** What a column of this type and these assertions can hold. */
  ghost predicate InDomain(source: Column, dialect: Dialect, cell: Cell) {
    if cell.Null? then source.nullable
    else if dialect == D1 then
      if source.udt == "TEXT" then
        cell.Text? && (source.encoding == Some(DecimalString) ==> exists scale :: DecimalText(cell.s, scale))
      else
        cell.Int? && Within(if source.integerBounds.Some? then source.integerBounds.value else INT8, cell.i)
    else if source.udt == "bool" then cell.Bool?
    else if source.udt == "int2" then cell.Int? && Within(INT2, cell.i)
    else if source.udt == "int4" then cell.Int? && Within(INT4, cell.i)
    else if source.udt == "int8" then cell.Int? && Within(INT8, cell.i)
    else if source.udt == "numeric" then
      if source.integerBounds.Some? then
        cell.Numeric? && cell.scale == 0 && Within(source.integerBounds.value, cell.unscaled)
      else cell.Numeric? || (cell.NotFinite? && cell.name in NOT_FINITE)
    else cell.Text?
  }

  function Zeros(n: nat): (z: string)
    ensures |z| == n && forall i :: 0 <= i < n ==> z[i] == '0'
  {
    if n == 0 then "" else Zeros(n - 1) + "0"
  }

  /** `d` filled up with zeros in front to more than `scale` digits. */
  function Pad(d: string, scale: nat): (r: string)
    requires AllDigits(d)
    ensures |r| > scale && AllDigits(r)
  {
    if |d| > scale then d else Zeros(scale + 1 - |d|) + d
  }

  /** At least `scale + 1` digits of `n`. */
  function Padded(n: nat, scale: nat): (d: string)
    ensures |d| > scale && AllDigits(d)
  {
    Pad(ToDecimal(n), scale)
  }

  /** The digits `d` with a point before the last `scale` of them. */
  function Pointed(d: string, scale: nat): string
    requires |d| > scale
  {
    if scale == 0 then d else d[..|d| - scale] + "." + d[|d| - scale..]
  }

  function NumericText(unscaled: int, scale: nat): string {
    if unscaled < 0 then "-" + Pointed(Padded(-unscaled, scale), scale) else Pointed(Padded(unscaled, scale), scale)
  }

  function Encode(kind: Kind, cell: Cell): Json {
    match cell
    case Null => JNull
    case Text(s) => JString(s)
    case Bool(b) => JBool(b)
    case Int(i) =>
      if kind.BooleanKind? then JBool(i != 0)
      else if kind.IntegerKind? then JNumber(i)
      else JString(IntText(i))
    case NotFinite(name) => JString(name)
    case Numeric(u, scale) => if kind.IntegerKind? && scale == 0 then JNumber(u) else JString(NumericText(u, scale))
  }

  ghost predicate Conforms(value: Value, json: Json) {
    if json.JNull? then value.nullable
    else
      match value.kind
      case StringKind => json.JString?
      case BooleanKind => json.JBool?
      case DecimalStringKind => json.JString? && exists scale :: DecimalText(json.s, scale)
      case IntegerKind(b) => json.JNumber? && Within(b, json.n) && IsSafeInteger(json.n)
  }

  predicate IsIntegerType(source: Column, dialect: Dialect) {
    if dialect == D1 then source.udt == "INTEGER" else source.udt in {"int2", "int4", "int8"}
  }

  function FirstDot(s: string): (k: nat)
    ensures k <= |s| && (forall i :: 0 <= i < k ==> s[i] != '.') && (k < |s| ==> s[k] == '.')
  {
    if s == "" || s[0] == '.' then 0 else 1 + FirstDot(s[1..])
  }

  /** Reads an unsigned decimal back: its digits without the point, and how many follow it. */
  function ParseUnsigned(s: string): Option<(nat, nat)> {
    var k := FirstDot(s);
    var digits := if k < |s| then s[..k] + s[k + 1..] else s;
    if !AllDigits(digits) then None else Some((FromDecimal(digits), if k < |s| then |s| - k - 1 else 0))
  }

  function ParseNumeric(s: string): Option<Cell> {
    var r := ParseUnsigned(Magnitude(s));
    if r.None? then None
    else Some(Numeric(if IsNegative(s) then -(r.value.0 as int) else r.value.0, r.value.1))
  }

  /** Reads an encoded value back for its source column; `None` if it cannot come from there. */
  function Decode(source: Column, dialect: Dialect, json: Json): Option<Cell> {
    match json
    case JNull => Some(Null)
    case JBool(b) => Some(if IsIntegerType(source, dialect) then Int(if b then 1 else 0) else Bool(b))
    case JNumber(n) => Some(if IsIntegerType(source, dialect) then Int(n) else Numeric(n, 0))
    case JString(s) =>
      if IsIntegerType(source, dialect) then (if CanonicalInt(s) then Some(Int(IntValue(s))) else None)
      else if dialect != D1 && source.udt == "numeric" then
        if s in NOT_FINITE then Some(NotFinite(s)) else ParseNumeric(s)
      else Some(Text(s))
  }

  // ---- decimal text keeps its digits ----

  lemma {:induction false} LeadingZeros(n: nat, d: string)
    requires d != "" && AllDigits(d)
    ensures FromDecimal(Zeros(n) + d) == FromDecimal(d)
    decreases |d|
  {
    var s := Zeros(n) + d;
    assert s[..|s| - 1] == Zeros(n) + d[..|d| - 1];
    if |d| > 1 {
      LeadingZeros(n, d[..|d| - 1]);
    } else {
      ZerosAreZero(n);
      assert Zeros(n) + "" == Zeros(n) && d[..0] == "";
    }
  }

  lemma {:induction false} ZerosAreZero(n: nat)
    ensures FromDecimal(Zeros(n)) == 0
  {
    if n > 0 {
      ZerosAreZero(n - 1);
      assert Zeros(n)[..n - 1] == Zeros(n - 1);
    }
  }

  lemma PadKeepsValue(d: string, scale: nat)
    requires d != "" && AllDigits(d)
    ensures FromDecimal(Pad(d, scale)) == FromDecimal(d)
  {
    if |d| <= scale {
      LeadingZeros(scale + 1 - |d|, d);
    }
  }

  lemma PaddedValue(n: nat, scale: nat)
    ensures FromDecimal(Padded(n, scale)) == n
  {
    PadKeepsValue(ToDecimal(n), scale);
    TextThenValue(n);
  }

  lemma JoinFacts(front: string, back: string)
    ensures var s := front + "." + back;
            s[..|front|] == front && s[|front|] == '.' && s[|front| + 1..] == back && s[|s| - |back|..] == back
            && |s| - |back| - 1 == |front|
  {
  }

  lemma DotPlace(front: string, back: string)
    requires AllDigits(front)
    ensures FirstDot(front + "." + back) == |front|
  {
    var s := front + "." + back;
    JoinFacts(front, back);
    assert forall i :: 0 <= i < |front| ==> s[i] == front[i];
  }

  lemma JoinedRoundTrip(d: string, front: string, back: string, text: string)
    requires front != "" && back != "" && AllDigits(d) && d == front + back && text == front + "." + back
    ensures ParseUnsigned(text) == Some((FromDecimal(d), |back|))
    ensures UnsignedDecimal(text, |back|) && IsDigit(text[0])
  {
    assert AllDigits(front) && AllDigits(back) by {
      assert forall i :: 0 <= i < |front| ==> front[i] == d[i];
      assert forall i :: 0 <= i < |back| ==> back[i] == d[|front| + i];
    }
    DotPlace(front, back);
    JoinFacts(front, back);
  }

  lemma PointedRoundTrip(d: string, scale: nat)
    requires |d| > scale && AllDigits(d)
    ensures ParseUnsigned(Pointed(d, scale)) == Some((FromDecimal(d), scale))
    ensures UnsignedDecimal(Pointed(d, scale), scale) && IsDigit(Pointed(d, scale)[0])
  {
    if scale == 0 {
    } else {
      PointJoins(d, scale);
      JoinedRoundTrip(d, d[..|d| - scale], d[|d| - scale..], Pointed(d, scale));
    }
  }

  lemma PointJoins(d: string, scale: nat)
    requires 0 < scale < |d|
    ensures var front, back := d[..|d| - scale], d[|d| - scale..];
            front != "" && |back| == scale && d == front + back && Pointed(d, scale) == front + "." + back
  {
  }

  lemma ParseSigned(body: string, n: nat, scale: nat)
    requires body != "" && IsDigit(body[0]) && ParseUnsigned(body) == Some((n, scale)) && UnsignedDecimal(body, scale)
    ensures ParseNumeric(body) == Some(Numeric(n, scale)) && DecimalText(body, scale)
    ensures ParseNumeric("-" + body) == Some(Numeric(-(n as int), scale)) && DecimalText("-" + body, scale)
  {
    var m := "-" + body;
    assert IsNegative(m) && Magnitude(m) == body;
    assert !IsNegative(body) && Magnitude(body) == body;
  }

  /** Any decimal, of any scale, is recovered from its text. */
  lemma NumericRoundTrip(u: int, scale: nat)
    ensures ParseNumeric(NumericText(u, scale)) == Some(Numeric(u, scale))
    ensures DecimalText(NumericText(u, scale), scale)
  {
    var n: nat := if u < 0 then -u else u;
    PaddedValue(n, scale);
    PointedRoundTrip(Padded(n, scale), scale);
    ParseSigned(Pointed(Padded(n, scale), scale), n, scale);
  }

  lemma IntTextIsDecimal(i: int)
    ensures DecimalText(IntText(i), 0)
  {
    if i < 0 {
      assert IntText(i)[1..] == ToDecimal(-i);
    } else {
      assert IsDigit(IntText(i)[0]);
    }
  }

  lemma LosslessInt(source: Column, value: Value, dialect: Dialect, i: int)
    requires Lossless(source, value, dialect) && InDomain(source, dialect, Int(i))
    ensures Conforms(value, Encode(value.kind, Int(i)))
    ensures Decode(source, dialect, Encode(value.kind, Int(i))) == Some(Int(i))
  {
    assert IsIntegerType(source, dialect);
    if value.kind.DecimalStringKind? {
      IntRoundTrip(i);
      IntTextIsDecimal(i);
    }
  }

  /** The text of a number is not the name of anything else. */
  lemma DecimalIsNoName(text: string, scale: nat)
    requires DecimalText(text, scale)
    ensures text !in NOT_FINITE
  {
    var digits := Magnitude(text);
    assert digits != "" && IsDigit(digits[0]) by {
      assert scale > 0 ==> digits[..|digits| - scale - 1][0] == digits[0];
    }
  }

  lemma DecodeNumericText(source: Column, dialect: Dialect, text: string)
    requires dialect != D1 && source.udt == "numeric" && text !in NOT_FINITE
    ensures Decode(source, dialect, JString(text)) == ParseNumeric(text)
  {
  }

  lemma LosslessNumeric(source: Column, value: Value, dialect: Dialect, u: int, scale: nat)
    requires Lossless(source, value, dialect) && InDomain(source, dialect, Numeric(u, scale))
    ensures Survives(source, value, dialect, Numeric(u, scale))
  {
    assert dialect != D1 && source.udt == "numeric";
    if value.kind.DecimalStringKind? {
      NumericRoundTrip(u, scale);
      DecimalIsNoName(NumericText(u, scale), scale);
      DecodeNumericText(source, dialect, NumericText(u, scale));
    }
  }

  /** A NaN or infinity comes back, but its name is no decimal string. */
  lemma LosslessNotFinite(source: Column, value: Value, dialect: Dialect, name: string)
    requires Lossless(source, value, dialect) && InDomain(source, dialect, NotFinite(name))
    ensures !Conforms(value, Encode(value.kind, NotFinite(name)))
    ensures Decode(source, dialect, Encode(value.kind, NotFinite(name))) == Some(NotFinite(name))
  {
    assert value.kind.DecimalStringKind?;
    forall scale: nat ensures !DecimalText(name, scale) {
      if DecimalText(name, scale) {
        DecimalIsNoName(name, scale);
      }
    }
  }

  /** The cell conforms to the declared value and is recovered from it. */
  ghost predicate Survives(source: Column, value: Value, dialect: Dialect, cell: Cell) {
    Conforms(value, Encode(value.kind, cell)) && Decode(source, dialect, Encode(value.kind, cell)) == Some(cell)
  }

  /**
   An accepted declaration brings every value of the column back unchanged, and every value
   fits it except the NaN and infinities an unbounded `numeric` column may hold.
   */
  lemma LosslessCarriesEveryValue(source: Column, value: Value, dialect: Dialect, cell: Cell)
    requires Lossless(source, value, dialect) && InDomain(source, dialect, cell)
    ensures Decode(source, dialect, Encode(value.kind, cell)) == Some(cell)
    ensures Conforms(value, Encode(value.kind, cell)) <==> !cell.NotFinite?
  {
    match cell {
      case Int(i) => LosslessInt(source, value, dialect, i);
      case Numeric(u, scale) => LosslessNumeric(source, value, dialect, u, scale);
      case NotFinite(name) => LosslessNotFinite(source, value, dialect, name);
      case _ => assert !IsIntegerType(source, dialect) || cell.Null?;
    }
  }

  /** A declaration of a known PostgreSQL type; text is the only type declared as a plain string. */
  predicate PlainPostgres(source: Column, value: Value) {
    && source.encoding == None && source.nullable == value.nullable
    && source.udt in {"bool", "uuid", "text", "varchar", "numeric", "int2", "int4", "int8"}
    && (source.integerBounds.Some? ==> IsBounds(source.integerBounds.value))
    && (value.kind.IntegerKind? ==> IsBounds(value.kind.bounds))
    && (value.kind.StringKind? ==> source.udt in {"uuid", "text", "varchar"})
  }

  /** An end of the range that the declared bounds leave out. */
  function OutsideEnd(bounds: Bounds, range: Bounds): int {
    if bounds.min <= range.min then range.max else range.min
  }

  lemma LossyInteger(source: Column, value: Value, range: Bounds) returns (cell: Cell)
    requires PlainPostgres(source, value) && !Lossless(source, value, Postgres)
    requires source.udt in {"int2", "int4", "int8"}
    requires range == if source.udt == "int2" then INT2 else if source.udt == "int4" then INT4 else INT8
    ensures InDomain(source, Postgres, cell) && !cell.NotFinite? && !Survives(source, value, Postgres, cell)
  {
    cell := if value.kind.BooleanKind? then Int(2) else Int(OutsideEnd(value.kind.bounds, range));
  }

  lemma LossyNumeric(source: Column, value: Value) returns (cell: Cell)
    requires PlainPostgres(source, value) && !Lossless(source, value, Postgres) && source.udt == "numeric"
    ensures InDomain(source, Postgres, cell) && !cell.NotFinite? && !Survives(source, value, Postgres, cell)
  {
    if source.integerBounds.None? {
      cell := Numeric(1, 1);
    } else if value.kind.IntegerKind? {
      cell := Numeric(OutsideEnd(value.kind.bounds, source.integerBounds.value), 0);
    } else {
      cell := Numeric(source.integerBounds.value.min, 0);
    }
  }

  /** A refused declaration would lose or misrepresent some value of the column. */
  lemma LossyCell(source: Column, value: Value) returns (cell: Cell)
    requires PlainPostgres(source, value) && !Lossless(source, value, Postgres)
    ensures InDomain(source, Postgres, cell) && !cell.NotFinite? && !Survives(source, value, Postgres, cell)
  {
    if source.udt == "numeric" {
      cell := LossyNumeric(source, value);
    } else if source.udt in {"int2", "int4", "int8"} {
      var range := if source.udt == "int2" then INT2 else if source.udt == "int4" then INT4 else INT8;
      cell := LossyInteger(source, value, range);
    } else if source.udt == "bool" {
      cell := Bool(true);
    } else {
      cell := Text("x");
      assert forall scale: nat :: !DecimalText("x", scale);
    }
  }

  lemma AcceptedIsPlain(source: Column, value: Value)
    requires Lossless(source, value, Postgres)
    ensures PlainPostgres(source, value)
  {
  }

  /**
   For PostgreSQL columns acceptance is exact: a declaration is accepted if and only if it is
   a plain one and every finite value of the column survives it.
   */
  lemma LosslessIsExact(source: Column, value: Value)
    ensures Lossless(source, value, Postgres)
            <==> PlainPostgres(source, value)
                 && forall cell :: InDomain(source, Postgres, cell) && !cell.NotFinite? ==>
                    Survives(source, value, Postgres, cell)
  {
    if Lossless(source, value, Postgres) {
      AcceptedIsPlain(source, value);
      forall cell | InDomain(source, Postgres, cell) && !cell.NotFinite?
        ensures Survives(source, value, Postgres, cell)
      {
        LosslessCarriesEveryValue(source, value, Postgres, cell);
      }
    } else if PlainPostgres(source, value) {
      var cell := LossyCell(source, value);
    }
  }

  /** A declaration for a D1 column; its encoding says how integers and texts are to be read. */
  predicate PlainD1(source: Column, value: Value) {
    && source.nullable == value.nullable
    && (source.integerBounds.Some? ==> IsBounds(source.integerBounds.value))
    && (value.kind.IntegerKind? ==> IsBounds(value.kind.bounds))
    && match source.encoding
       case None => source.udt in {"TEXT", "INTEGER"} && !value.kind.BooleanKind?
                    && (value.kind.StringKind? ==> source.udt == "TEXT")
       case Some(DecimalString) => source.udt == "TEXT" && value.kind.DecimalStringKind?
       case Some(BooleanInteger) =>
         source.udt == "INTEGER" && value.kind.BooleanKind? && source.integerBounds == Some(Bounds(0, 1))
  }

  lemma LossyD1Cell(source: Column, value: Value) returns (cell: Cell)
    requires PlainD1(source, value) && !Lossless(source, value, D1)
    ensures InDomain(source, D1, cell) && !Survives(source, value, D1, cell)
  {
    if source.udt == "TEXT" {
      cell := Text("x");
      assert forall scale: nat :: !DecimalText("x", scale);
    } else {
      var range := if source.integerBounds.Some? then source.integerBounds.value else INT8;
      cell := Int(OutsideEnd(value.kind.bounds, range));
    }
  }

  /** For D1 columns as well: accepted are the plain declarations that every value of the column survives. */
  lemma LosslessD1IsExact(source: Column, value: Value)
    ensures Lossless(source, value, D1)
            <==> PlainD1(source, value)
                 && forall cell :: InDomain(source, D1, cell) ==> Survives(source, value, D1, cell)
  {
    if Lossless(source, value, D1) {
      forall cell | InDomain(source, D1, cell) ensures Survives(source, value, D1, cell) {
        LosslessCarriesEveryValue(source, value, D1, cell);
      }
    } else if PlainD1(source, value) {
      var cell := LossyD1Cell(source, value);
    }
  }

  // ---- counts ----

  /** May `bounds` bound the rows of a family with these array and parent-array bounds? */
  function CountFits(bounds: Bounds, objectFamily: bool, items: Option<Bounds>, parent: Option<Bounds>): bool {
    if !IsBounds(bounds) || bounds.min < 0 then false
    else if objectFamily then bounds.min == 1 && bounds.max == 1
    else if items.None? || parent.None? || !IsBounds(items.value) || !IsBounds(parent.value)
            || items.value.min < 0 || parent.value.min < 0 then false
    else
      bounds.min >= items.value.min * parent.value.min && bounds.max <= items.value.max * parent.value.max
  }

  function Sum(lengths: seq<int>): int {
    if lengths == [] then 0 else lengths[0] + Sum(lengths[1..])
  }

  /** Array lengths of all parents of one capture, as the declared bounds allow them. */
  predicate Allowed(lengths: seq<int>, items: Bounds, parent: Bounds) {
    Within(parent, |lengths|) && forall i :: 0 <= i < |lengths| ==> Within(items, lengths[i])
  }

  lemma {:induction false} SumBounds(lengths: seq<int>, items: Bounds)
    requires forall i :: 0 <= i < |lengths| ==> Within(items, lengths[i])
    ensures items.min * |lengths| <= Sum(lengths) <= items.max * |lengths|
  {
    if lengths != [] {
      SumBounds(lengths[1..], items);
      assert items.min * |lengths| == items.min + items.min * |lengths[1..]|;
      assert items.max * |lengths| == items.max + items.max * |lengths[1..]|;
    }
  }

  lemma Multiply(a: int, b: int, c: int)
    requires 0 <= a && b <= c
    ensures a * b <= a * c
  {
  }

  /** `p` lengths within `items` that add up to `total`, whenever the extremes allow it. */
  lemma {:induction false} Spread(items: Bounds, p: nat, total: int) returns (lengths: seq<int>)
    requires items.min <= items.max && items.min * p <= total <= items.max * p
    ensures |lengths| == p && Sum(lengths) == total
    ensures forall i :: 0 <= i < p ==> Within(items, lengths[i])
  {
    if p == 0 {
      lengths := [];
    } else {
      var q: nat := p - 1;
      assert items.min * p == items.min + items.min * q && items.max * p == items.max + items.max * q;
      Multiply(q, items.min, items.max);
      var first := Max(items.min, total - items.max * q);
      var rest := Spread(items, q, total - first);
      lengths := [first] + rest;
      assert lengths[1..] == rest;
    }
  }

  /** A total is achievable exactly when some admissible number of parents brackets it. */
  lemma AchievableTotals(items: Bounds, parent: Bounds, total: int)
    requires IsBounds(items) && IsBounds(parent) && parent.min >= 0
    ensures (exists lengths :: Allowed(lengths, items, parent) && Sum(lengths) == total)
            <==> exists p: nat :: Within(parent, p) && items.min * p <= total <= items.max * p
  {
    if lengths :| Allowed(lengths, items, parent) && Sum(lengths) == total {
      SumBounds(lengths, items);
      assert Within(parent, |lengths|) && items.min * |lengths| <= total <= items.max * |lengths|;
    }
    if p: nat :| Within(parent, p) && items.min * p <= total <= items.max * p {
      var lengths := Spread(items, p, total);
      assert Allowed(lengths, items, parent);
    }
  }

  /**
   The accepted count bounds of an array family are exactly those between the least and the
   greatest achievable total, both of which some capture attains.
   */
  lemma CountBoundsAreAchievable(bounds: Bounds, items: Bounds, parent: Bounds)
    returns (least: seq<int>, most: seq<int>)
    requires IsBounds(bounds) && IsBounds(items) && IsBounds(parent)
    requires bounds.min >= 0 && items.min >= 0 && parent.min >= 0
    ensures Allowed(least, items, parent) && Allowed(most, items, parent)
    ensures forall lengths :: Allowed(lengths, items, parent) ==> Sum(least) <= Sum(lengths) <= Sum(most)
    ensures CountFits(bounds, false, Some(items), Some(parent)) <==> Sum(least) <= bounds.min && bounds.max <= Sum(most)
  {
    Multiply(parent.min, items.min, items.max);
    Multiply(parent.max, items.min, items.max);
    least := Spread(items, parent.min, items.min * parent.min);
    most := Spread(items, parent.max, items.max * parent.max);
    forall lengths | Allowed(lengths, items, parent) ensures Sum(least) <= Sum(lengths) <= Sum(most) {
      SumBounds(lengths, items);
      Multiply(items.min, parent.min, |lengths|);
      Multiply(items.max, |lengths|, parent.max);
    }
  }

  // ---- index columns ----

  datatype IndexType = IndexType(name: string, required: bool)

  function IndexFits(value: Value, field: IndexType): bool {
    if !field.required || value.nullable then false
    else if value.kind.StringKind? || value.kind.DecimalStringKind? then field.name == "string"
    else if value.kind.BooleanKind? then field.name == "boolean"
    else
      IsBounds(value.kind.bounds)
      && (field.name == "long"
          || (field.name == "int" && value.kind.bounds.min >= INT4.min && value.kind.bounds.max <= INT4.max))
  }

  /** An index column of this type can hold the value. */
  predicate Holds(json: Json, typ: string) {
    match json
    case JNull => false
    case JString(_) => typ == "string"
    case JBool(_) => typ == "boolean"
    case JNumber(n) => (typ == "int" && Within(INT4, n)) || (typ == "long" && Within(INT8, n))
  }

  /** Some value of each declared kind, the largest of an integer kind. */
  function SampleOf(kind: Kind): Json {
    match kind
    case StringKind => JString("")
    case BooleanKind => JBool(true)
    case DecimalStringKind => JString("0")
    case IntegerKind(b) => JNumber(b.max)
  }

  lemma SampleConforms(value: Value)
    requires value.kind.IntegerKind? ==> IsBounds(value.kind.bounds)
    ensures Conforms(value, SampleOf(value.kind))
  {
    assert DecimalText("0", 0);
  }

  /** A declared value fits an index column exactly when the column is required and can hold all it can be. */
  lemma IndexFitsAllValues(value: Value, field: IndexType)
    ensures IndexFits(value, field)
            <==> field.required && !value.nullable && (value.kind.IntegerKind? ==> IsBounds(value.kind.bounds))
                 && forall json :: Conforms(value, json) ==> Holds(json, field.name)
  {
    if value.kind.IntegerKind? && !IsBounds(value.kind.bounds) {
      return;
    }
    SampleConforms(value);
    if value.kind.IntegerKind? {
      assert Conforms(value, JNumber(value.kind.bounds.min)) && Conforms(value, JNumber(value.kind.bounds.max));
    }
  }

  /** An integer value is accepted exactly when all its numbers fit the column: 32 bits for `int`, 64 for `long`. */
  lemma IndexFitsExactly(value: Value, field: IndexType)
    requires value.kind.IntegerKind? && !value.nullable && IsBounds(value.kind.bounds)
    requires field.required && field.name in {"int", "long"}
    ensures IndexFits(value, field)
            <==> forall n :: Within(value.kind.bounds, n) ==> Within(if field.name == "int" then INT4 else INT8, n)
  {
    assert Within(value.kind.bounds, value.kind.bounds.min) && Within(value.kind.bounds, value.kind.bounds.max);
  }
}

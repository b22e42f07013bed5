/** Finding the footer of a Parquet file from its last eight bytes. */
module ParquetFooter {
  import opened Common
  import opened LittleEndian

  const MAGIC: nat := 0x3152_4150
  const METADATA_LIMIT: nat := 6 * 1024 * 1024

  datatype FooterError = TooSmall | Invalid

  /** Metadata, its length, and the magic number; at least four bytes of file stay in front. */
  function Footer(file: seq<Byte>): (r: Result<seq<Byte>, FooterError>)
  {
    if |file| < 12 then Err(TooSmall)
    else
      var tail := file[|file| - 8..];
      var length := FromLittle(tail[..4]);
      if FromLittle(tail[4..]) != MAGIC || length > METADATA_LIMIT || length + 8 > |file| - 4 then Err(Invalid)
      else Ok(file[|file| - length - 8..])
  }

  function Trailer(length: nat): (t: seq<Byte>)
    ensures |t| == 8
  {
    ToLittle(length, 4) + ToLittle(MAGIC, 4)
  }

  /** Such a file ends in the letters PAR1, behind the length, least significant byte first. */
  lemma TrailerBytes(length: nat)
    requires length < 0x1_0000_0000
    ensures Trailer(length) == [length % 256, length / 256 % 256, length / 65536 % 256, length / 16777216,
                                'P' as int, 'A' as int, 'R' as int, '1' as int]
  {
    FourBytes(length);
    MagicBytes();
  }

  lemma MagicBytes()
    ensures ToLittle(MAGIC, 4) == ['P' as int, 'A' as int, 'R' as int, '1' as int]
  {
    FourBytes(MAGIC);
  }

  lemma FourBytes(n: nat)
    requires n < 0x1_0000_0000
    ensures ToLittle(n, 4) == [n % 256, n / 256 % 256, n / 65536 % 256, n / 16777216]
  {
    var a := n / 256;
    var b := a / 256;
    assert b == n / 65536 && b / 256 == n / 16777216;
    assert ToLittle(b / 256, 1) == [b / 256 % 256] + ToLittle(b / 256 / 256, 0);
    assert ToLittle(b, 2) == [b % 256] + ToLittle(b / 256, 1);
    assert ToLittle(a, 3) == [a % 256] + ToLittle(b, 2);
    assert ToLittle(n, 4) == [n % 256] + ToLittle(a, 3);
  }

  ghost predicate Sealed(file: seq<Byte>, body: seq<Byte>, metadata: seq<Byte>) {
    |body| >= 4 && |metadata| <= 6_291_456 && file == body + metadata + Trailer(|metadata|)
  }

  /** Whatever lies in front, the footer of a sealed file is its own metadata and trailer. */
  lemma FooterOfSealed(file: seq<Byte>, body: seq<Byte>, metadata: seq<Byte>)
    requires Sealed(file, body, metadata)
    ensures Footer(file) == Ok(metadata + Trailer(|metadata|))
  {
    var tail := file[|file| - 8..];
    assert tail == Trailer(|metadata|);
    assert tail[..4] == ToLittle(|metadata|, 4) && tail[4..] == ToLittle(MAGIC, 4);
    PowersInUse();
    LittleRoundTrip(|metadata|, 4);
    LittleRoundTrip(MAGIC, 4);
    assert file[|file| - |metadata| - 8..] == metadata + Trailer(|metadata|);
  }

  /** A footer is found exactly in sealed files. */
  lemma FooterExactly(file: seq<Byte>)
    ensures Footer(file).Ok? <==> exists body, metadata :: Sealed(file, body, metadata)
  {
    if Footer(file).Ok? {
      var tail := file[|file| - 8..];
      var length := FromLittle(tail[..4]);
      var split := |file| - length - 8;
      LittleIsUnique(tail[..4]);
      LittleIsUnique(tail[4..]);
      assert tail == tail[..4] + tail[4..];
      assert file == file[..split] + file[split..|file| - 8] + tail;
      assert Sealed(file, file[..split], file[split..|file| - 8]);
    }
    if body, metadata :| Sealed(file, body, metadata) {
      FooterOfSealed(file, body, metadata);
    }
  }
}

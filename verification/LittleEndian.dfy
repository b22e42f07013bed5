/** Little-endian numbers as byte sequences. */
module LittleEndian {
  import opened Common

  function Pow256(k: nat): (r: nat)
    ensures r >= 1
  {
    if k == 0 then 1 else 256 * Pow256(k - 1)
  }

  function FromLittle(b: seq<Byte>): nat {
    if b == [] then 0 else b[0] + 256 * FromLittle(b[1..])
  }

  function ToLittle(n: nat, k: nat): (b: seq<Byte>)
    ensures |b| == k
  {
    if k == 0 then [] else [n % 256] + ToLittle(n / 256, k - 1)
  }

  lemma {:induction false} LittleRoundTrip(n: nat, k: nat)
    requires n < Pow256(k)
    ensures FromLittle(ToLittle(n, k)) == n
  {
    if k > 0 {
      LittleRoundTrip(n / 256, k - 1);
    }
  }

  lemma {:induction false} LittleIsUnique(b: seq<Byte>)
    ensures ToLittle(FromLittle(b), |b|) == b
    ensures FromLittle(b) < Pow256(|b|)
  {
    if b != [] {
      LittleIsUnique(b[1..]);
      assert [b[0]] + b[1..] == b;
    }
  }

  lemma PowersInUse()
    ensures Pow256(2) == 0x1_0000 && Pow256(3) == 0x100_0000 && Pow256(4) == 0x1_0000_0000
  {
    assert Pow256(1) == 0x100;
  }
}

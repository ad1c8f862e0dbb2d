/** Proof cache keys and the file names they are stored under. */
module ProofCacheKeys {
  import opened Basics

  /** A proof is identified by its program, its input and whether it is a SNARK. */
  datatype Key = Key(imageId: Id32, inputHash: Id32, useSnark: bool)

  function HexDigit(n: int): char
    requires 0 <= n < 16
  {
    "0123456789abcdef"[n]
  }

  function Hex(s: seq<Byte>): (h: string)
    ensures |h| == 2 * |s|
  {
    if s == [] then "" else [HexDigit(s[0] / 16), HexDigit(s[0] % 16)] + Hex(s[1..])
  }

  lemma HexDigitInjective(a: int, b: int)
    requires 0 <= a < 16 && 0 <= b < 16 && HexDigit(a) == HexDigit(b)
    ensures a == b
  {
  }

  lemma {:induction false} HexInjective(s: seq<Byte>, t: seq<Byte>)
    requires |s| == |t| && Hex(s) == Hex(t)
    ensures s == t
  {
    if s != [] {
      var hs, ht := Hex(s), Hex(t);
      assert hs[0] == ht[0] && hs[1] == ht[1];
      HexDigitInjective(s[0] / 16, t[0] / 16);
      HexDigitInjective(s[0] % 16, t[0] % 16);
      assert hs[2..] == Hex(s[1..]) && ht[2..] == Hex(t[1..]);
      HexInjective(s[1..], t[1..]);
    }
  }

  function AsHex(k: Key): string {
    Hex(k.imageId) + "_" + Hex(k.inputHash) + (if k.useSnark then "_snark" else "_stark")
  }

  function FileName(k: Key): string {
    AsHex(k) + ".bin"
  }

  /** A hexadecimal digit: 0 to 9, then a to f. */
  lemma HexDigitMeans(n: int)
    requires 0 <= n < 16
    ensures HexDigit(n) == if n < 10 then ('0' as int + n) as char else ('a' as int + n - 10) as char
  {
  }

  /** The name of a file: both hashes in hexadecimal, high digit first, and the kind of proof. */
  lemma FileNameMeans(k: Key, i: nat)
    requires i < 32
    ensures var f := FileName(k);
            && |f| == 139
            && f[2 * i] == HexDigit(k.imageId[i] / 16) && f[2 * i + 1] == HexDigit(k.imageId[i] % 16)
            && f[64] == '_'
            && f[65 + 2 * i] == HexDigit(k.inputHash[i] / 16) && f[66 + 2 * i] == HexDigit(k.inputHash[i] % 16)
            && f[129..] == if k.useSnark then "_snark.bin" else "_stark.bin"
  {
    HexAt(k.imageId, i);
    HexAt(k.inputHash, i);
    var f := FileName(k);
    assert f == Hex(k.imageId) + ("_" + Hex(k.inputHash) + (if k.useSnark then "_snark.bin" else "_stark.bin"));
  }

  lemma {:induction false} HexAt(s: seq<Byte>, i: nat)
    requires i < |s|
    ensures Hex(s)[2 * i] == HexDigit(s[i] / 16) && Hex(s)[2 * i + 1] == HexDigit(s[i] % 16)
  {
    if i > 0 { HexAt(s[1..], i - 1); }
  }

  /** Distinct keys never share a file. */
  lemma FileNamesDistinct(k: Key, j: Key)
    ensures FileName(k) == FileName(j) <==> k == j
  {
    if FileName(k) == FileName(j) {
      var a, b := FileName(k), FileName(j);
      assert Hex(k.imageId) == a[..64] == b[..64] == Hex(j.imageId);
      assert Hex(k.inputHash) == a[65..129] == b[65..129] == Hex(j.inputHash);
      HexInjective(k.imageId, j.imageId);
      HexInjective(k.inputHash, j.inputHash);
      assert a[131] == b[131];
    }
  }
}

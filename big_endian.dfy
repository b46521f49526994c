/** Unsigned big-endian integers over byte strings, as `struct` packs the
    `B`, `H`, `I` and `Q` codes and the 4-byte `I` length fields of the
    DACP wire format. */
module BigEndian {

  /** One octet of a Python 2 byte string. */
  type Byte = b: int | 0 <= b < 256

  function Pow2(k: nat): (r: nat)
    ensures r >= 1
  {
    if k == 0 then 1 else 2 * Pow2(k - 1)
  }

  lemma {:induction false} Pow2Add(a: nat, b: nat)
    ensures Pow2(a + b) == Pow2(a) * Pow2(b)
  {
    if a > 0 {
      Pow2Add(a - 1, b);
    }
  }

  /** One more byte multiplies the range of a big-endian number by 256. */
  lemma Pow2Byte(w: nat)
    ensures Pow2(8 * (w + 1)) == 256 * Pow2(8 * w)
  {
    Pow2Add(8 * w, 8);
  }

  /** The ranges of the four `struct` integer widths. */
  lemma Pow2Widths()
    ensures Pow2(8) == 0x100 && Pow2(16) == 0x1_0000
    ensures Pow2(32) == 0x1_0000_0000 && Pow2(64) == 0x1_0000_0000_0000_0000
  {
    assert Pow2(8) == 0x100;
    Pow2Add(8, 8);
    Pow2Add(16, 16);
    Pow2Add(32, 32);
  }

  /** The value of a big-endian unsigned byte string (`struct.unpack`). */
  function FromBE(s: seq<Byte>): (n: nat)
    ensures n < Pow2(8 * |s|)
  {
    if s == [] then 0
    else
      var high := FromBE(s[..|s| - 1]);
      Pow2Byte(|s| - 1);
      assert high * 256 + 255 < Pow2(8 * |s|) by {
        assert high + 1 <= Pow2(8 * (|s| - 1));
      }
      high * 256 + s[|s| - 1]
  }

  /** `n` written big-endian in exactly `w` bytes (`struct.pack`); the pack
      raises for values that do not fit, hence the precondition. */
  function ToBE(n: nat, w: nat): (s: seq<Byte>)
    requires n < Pow2(8 * w)
    ensures |s| == w
    ensures FromBE(s) == n
  {
    if w == 0 then []
    else
      Pow2Byte(w - 1);
      var high := ToBE(n / 256, w - 1);
      assert (high + [n % 256])[..w - 1] == high;
      high + [n % 256]
  }

  /** Reading and re-writing a byte string gives it back: the big-endian
      reading is one-to-one for a fixed width. */
  lemma {:induction false} ToBEFromBE(s: seq<Byte>)
    ensures ToBE(FromBE(s), |s|) == s
  {
    if s != [] {
      var w := |s|;
      var init := s[..w - 1];
      ToBEFromBE(init);
      Pow2Byte(w - 1);
      assert FromBE(s) / 256 == FromBE(init);
      assert FromBE(s) % 256 == s[w - 1];
      assert s == init + [s[w - 1]];
    }
  }
}

/** Bytes as numbers: the bits that programs mask and shift out of them, as places. */
module BitPlaces {
  lemma Successor(b: bv8)
    ensures b as nat < 255 ==> (b + 1) as nat == b as nat + 1
  {
  }

  // The byte that is this number.
  function Oct(n: nat): (b: bv8)
    requires n < 256
    ensures b as nat == n
  {
    if n == 0 then 0
    else
      Successor(Oct(n - 1));
      Oct(n - 1) + 1
  }

  // The bits the scanner masks and shifts out, as places of a number.
  lemma Low5(b: bv8)
    ensures (b & 0x1F) as nat == b as nat % 32
  {
  }

  lemma Low4(b: bv8)
    ensures (b & 0x0F) as nat == b as nat % 16
  {
  }

  lemma Bit6(b: bv8)
    ensures b & 0x40 != 0 <==> b as nat / 64 % 2 == 1
  {
  }

  lemma Bit0(b: bv8)
    ensures b & 1 != 0 <==> b as nat % 2 == 1
  {
  }

  lemma Low2(b: bv8)
    ensures (b & 0x03) as nat == b as nat % 4
  {
  }

  lemma Low6(b: bv8)
    ensures (b & 0x3F) as nat == b as nat % 64
  {
  }

  lemma Half(b: bv8)
    ensures (b >> 1) as nat == b as nat / 2
  {
  }

  lemma Sixteenth(b: bv8)
    ensures (b >> 4) as nat == b as nat / 16
  {
  }

  lemma Middle2(b: bv8)
    ensures ((b >> 4) & 0x03) as nat == b as nat / 16 % 4
  {
    Sixteenth(b);
    Low2(b >> 4);
  }

  lemma Middle5(b: bv8)
    ensures ((b >> 1) & 0x1F) as nat == b as nat / 2 % 32
  {
    Half(b);
    Low5(b >> 1);
  }

  lemma Middle6(b: bv8)
    ensures ((b >> 1) & 0x3F) as nat == b as nat / 2 % 64
  {
    Half(b);
    Low6(b >> 1);
  }
}

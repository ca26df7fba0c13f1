/** Two byte sequences with the same 64-bit hash, computed byte by byte. */
module DigestCollision {
  import opened Words

  // ---- Hashing with hexadecimal digits ----

  datatype Digit = Digit(b3: bool, b2: bool, b1: bool, b0: bool) {
    function Value(): (v: nat)
      ensures v < 16
    {
      (if b3 then 8 else 0) + (if b2 then 4 else 0) + (if b1 then 2 else 0) + if b0 then 1 else 0
    }

    function Mix(d: Digit): Digit {
      Digit(b3 != d.b3, b2 != d.b2, b1 != d.b1, b0 != d.b0)
    }
  }

  const H0 := Digit(false, false, false, false)
  const H1 := Digit(false, false, false, true)
  const H2 := Digit(false, false, true, false)
  const H3 := Digit(false, false, true, true)
  const H4 := Digit(false, true, false, false)
  const H5 := Digit(false, true, false, true)
  const H6 := Digit(false, true, true, false)
  const H7 := Digit(false, true, true, true)
  const H8 := Digit(true, false, false, false)
  const H9 := Digit(true, false, false, true)
  const HA := Digit(true, false, true, false)
  const HB := Digit(true, false, true, true)
  const HC := Digit(true, true, false, false)
  const HD := Digit(true, true, false, true)
  const HE := Digit(true, true, true, false)
  const HF := Digit(true, true, true, true)

  lemma XorZero(a: nat)
    ensures Xor(a, 0) == a && Xor(0, a) == a
  {
  }

  /** Whether the lowest bits differ is the lowest bit of an exclusive or. */
  lemma XorBit(a: nat, b: nat, x: nat, y: nat)
    requires x < 2 && y < 2
    ensures Xor(2 * a + x, 2 * b + y) == 2 * Xor(a, b) + if x == y then 0 else 1
  {
  }

  lemma XorBits(a: nat, b: nat, x3: nat, x2: nat, x1: nat, x0: nat, y3: nat, y2: nat, y1: nat, y0: nat)
    requires x3 < 2 && x2 < 2 && x1 < 2 && x0 < 2 && y3 < 2 && y2 < 2 && y1 < 2 && y0 < 2
    ensures Xor(16 * a + 8 * x3 + 4 * x2 + 2 * x1 + x0, 16 * b + 8 * y3 + 4 * y2 + 2 * y1 + y0)
         == 16 * Xor(a, b) + (if x3 == y3 then 0 else 8) + (if x2 == y2 then 0 else 4) + (if x1 == y1 then 0 else 2)
            + if x0 == y0 then 0 else 1
  {
    hide *;
    XorBit(8 * a + 4 * x3 + 2 * x2 + x1, 8 * b + 4 * y3 + 2 * y2 + y1, x0, y0);
    XorBit(4 * a + 2 * x3 + x2, 4 * b + 2 * y3 + y2, x1, y1);
    XorBit(2 * a + x3, 2 * b + y3, x2, y2);
    XorBit(a, b, x3, y3);
  }

  lemma XorDigit(a: nat, b: nat, x: Digit, y: Digit)
    ensures Xor(16 * a + x.Value(), 16 * b + y.Value()) == 16 * Xor(a, b) + x.Mix(y).Value()
  {
    hide Xor;
    var x3, x2, x1, x0 := if x.b3 then 1 else 0, if x.b2 then 1 else 0, if x.b1 then 1 else 0, if x.b0 then 1 else 0;
    var y3, y2, y1, y0 := if y.b3 then 1 else 0, if y.b2 then 1 else 0, if y.b1 then 1 else 0, if y.b0 then 1 else 0;
    XorBits(a, b, x3, x2, x1, x0, y3, y2, y1, y0);
  }

  /** Only the lowest two digits of a hash mix with a byte. */
  lemma XorByte(high: nat, h1: Digit, h0: Digit, b1: Digit, b0: Digit)
    ensures Xor(256 * high + 16 * h1.Value() + h0.Value(), 16 * b1.Value() + b0.Value())
         == 256 * high + 16 * h1.Mix(b1).Value() + h0.Mix(b0).Value()
  {
    hide *;
    XorDigit(16 * high + h1.Value(), b1.Value(), h0, b0);
    XorDigit(high, 0, h1, b1);
    XorZero(high);
  }

  /** The hash after the `n` little-endian bytes of a word. */
  ghost predicate Hashes(hash: nat, word: nat, n: nat, last: nat) {
    DigestExtend(hash, LittleEndian(word, n)) == last
  }

  lemma FirstByte(hash: nat, b: byte, rest: nat, n: nat, last: nat)
    requires n > 0 && Hashes(FnvByte(hash, b), rest, n - 1, last)
    ensures Hashes(hash, b + 256 * rest, n, last)
  {
    hide Xor, FnvByte;
    SplitLowByte(b, rest);
    var s := LittleEndian(b + 256 * rest, n);
    assert s[0] == b && s[1..] == LittleEndian(rest, n - 1);
  }

  lemma LowWord(product: nat, carried: nat, next: nat)
    requires product == 0x1_0000_0000_0000_0000 * carried + next && next < 0x1_0000_0000_0000_0000
    ensures product % U64 == next
  {
  }

  /** One byte of a word's hash, digit by digit: `carried` is what the product has above 64 bits. */
  lemma Fold(high: nat, h1: Digit, h0: Digit, b1: Digit, b0: Digit, carried: nat, next: nat, rest: nat, n: nat,
             last: nat)
    requires (256 * high + 16 * h1.Mix(b1).Value() + h0.Mix(b0).Value()) * 0x100000001b3
          == 0x1_0000_0000_0000_0000 * carried + next
    requires next < 0x1_0000_0000_0000_0000 && n > 0 && Hashes(next, rest, n - 1, last)
    ensures Hashes(256 * high + 16 * h1.Value() + h0.Value(), 256 * rest + 16 * b1.Value() + b0.Value(), n, last)
  {
    hide Xor, Digit.Mix, Digit.Value, Hashes;
    XorByte(high, h1, h0, b1, b0);
    LowWord((256 * high + 16 * h1.Mix(b1).Value() + h0.Mix(b0).Value()) * FNV_PRIME, carried, next);
    FirstByte(256 * high + 16 * h1.Value() + h0.Value(), 16 * b1.Value() + b0.Value(), rest, n, last);
  }

  lemma NoneLeft(hash: nat)
    ensures Hashes(hash, 0, 0, hash)
  {
  }

  // ---- The bytes ----

  lemma ParentHash()
    ensures Hashes(0xCBF29CE484222325, 0xCBF29CE484222325, 8, 0xF4ED18EBF16AA5CC)
  {
    hide Hashes;
    NoneLeft(0xF4ED18EBF16AA5CC);
    Fold(0x96C44905D6C565, HC, HF, HC, HB, 0x96C44906D6, 0xF4ED18EBF16AA5CC, 0x0, 1, 0xF4ED18EBF16AA5CC);
    Fold(0xBE6D17706B0365, H8, H7, HF, H2, 0xBE6D1771AE, 0x96C44905D6C565CF, 0xCB, 2, 0xF4ED18EBF16AA5CC);
    Fold(0xE93889D83D735A, H4, H1, H9, HC, 0xE93889D9C9, 0xBE6D17706B036587, 0xCBF2, 3, 0xF4ED18EBF16AA5CC);
    Fold(0x5CAFFA4BD36A32, HD, HF, HE, H4, 0x5CAFFA4C70, 0xE93889D83D735A41, 0xCBF29C, 4, 0xF4ED18EBF16AA5CC);
    Fold(0x99451F17B6EC3C, HA, H1, H8, H4, 0x99451F18BB, 0x5CAFFA4BD36A32DF, 0xCBF29CE4, 5, 0xF4ED18EBF16AA5CC);
    Fold(0x7B4ED07B480D6, H7, H9, H2, H2, 0x7B4ED07C1, 0x99451F17B6EC3CA1, 0xCBF29CE484, 6, 0xF4ED18EBF16AA5CC);
    Fold(0xAF63984C860179, H0, H0, H2, H3, 0xAF63984DB0, 0x7B4ED07B480D679, 0xCBF29CE48422, 7, 0xF4ED18EBF16AA5CC);
    Fold(0xCBF29CE4842223, H2, H5, H2, H5, 0xCBF29CE5DE, 0xAF63984C86017900, 0xCBF29CE4842223, 8, 0xF4ED18EBF16AA5CC);
  }

  lemma VersionHash()
    ensures Hashes(0xF4ED18EBF16AA5CC, 0x1, 8, 0xEB4D2672BF0FA16D)
  {
    hide Hashes;
    NoneLeft(0xEB4D2672BF0FA16D);
    Fold(0x74F176BF873500, H5, HF, H0, H0, 0x74F176C04D, 0xEB4D2672BF0FA16D, 0x0, 1, 0xEB4D2672BF0FA16D);
    Fold(0xF06580301BF878, HA, H5, H0, H0, 0xF0658031B4, 0x74F176BF8735005F, 0x0, 2, 0xEB4D2672BF0FA16D);
    Fold(0x438CE2B4C82800, H4, H7, H0, H0, 0x438CE2B53A, 0xF06580301BF878A5, 0x0, 3, 0xEB4D2672BF0FA16D);
    Fold(0xB4781C1D409B75, H1, HD, H0, H0, 0xB4781C1E73, 0x438CE2B4C8280047, 0x0, 4, 0xEB4D2672BF0FA16D);
    Fold(0x1FC4BFF4E2B925, HE, HF, H0, H0, 0x1FC4BFF518, 0xB4781C1D409B751D, 0x0, 5, 0xEB4D2672BF0FA16D);
    Fold(0x1860C5B086B354, HD, H5, H0, H0, 0x1860C5B0B0, 0x1FC4BFF4E2B925EF, 0x0, 6, 0xEB4D2672BF0FA16D);
    Fold(0x998725EB3837BB, H5, H7, H0, H0, 0x998725EC3D, 0x1860C5B086B354D5, 0x0, 7, 0xEB4D2672BF0FA16D);
    Fold(0xF4ED18EBF16AA5, HC, HC, H0, H1, 0xF4ED18ED91, 0x998725EB3837BB57, 0x0, 8, 0xEB4D2672BF0FA16D);
  }

  lemma AllocatorHash()
    ensures Hashes(0xEB4D2672BF0FA16D, 0x1, 8, 0x2C25BCB7118106EC)
  {
    hide Hashes;
    NoneLeft(0x2C25BCB7118106EC);
    Fold(0xE52559117CCDAF, H6, H4, H0, H0, 0xE525591302, 0x2C25BCB7118106EC, 0x0, 1, 0x2C25BCB7118106EC);
    Fold(0x4E355C92940079, H0, HC, H0, H0, 0x4E355C9318, 0xE52559117CCDAF64, 0x0, 2, 0x2C25BCB7118106EC);
    Fold(0xD19038D8E83624, HC, H4, H0, H0, 0xD19038DA4C, 0x4E355C929400790C, 0x0, 3, 0x2C25BCB7118106EC);
    Fold(0xA149752465C1BE, H2, HC, H0, H0, 0xA149752577, 0xD19038D8E83624C4, 0x0, 4, 0x2C25BCB7118106EC);
    Fold(0xA81011D77A0DFB, H2, H4, H0, H0, 0xA81011D897, 0xA149752465C1BE2C, 0x0, 5, 0x2C25BCB7118106EC);
    Fold(0x83ED6DEAB87B9E, H4, HC, H0, H0, 0x83ED6DEB98, 0xA81011D77A0DFB24, 0x0, 6, 0x2C25BCB7118106EC);
    Fold(0xE3B9C0FAA78F4A, H8, H4, H0, H0, 0xE3B9C0FC2A, 0x83ED6DEAB87B9E4C, 0x0, 7, 0x2C25BCB7118106EC);
    Fold(0xEB4D2672BF0FA1, H6, HD, H0, H1, 0xEB4D26744E, 0xE3B9C0FAA78F4A84, 0x0, 8, 0x2C25BCB7118106EC);
  }

  lemma CountHash()
    ensures Hashes(0x2C25BCB7118106EC, 0x1, 8, 0x626019B846E5668D)
  {
    hide Hashes;
    NoneLeft(0x626019B846E5668D);
    Fold(0x374F7843836656, HB, HF, H0, H0, 0x374F7843E1, 0x626019B846E5668D, 0x0, 1, 0x626019B846E5668D);
    Fold(0xB4AE78779F32D8, HC, H5, H0, H0, 0xB4AE7878D2, 0x374F7843836656BF, 0x0, 2, 0x626019B846E5668D);
    Fold(0x6C2B79200DE6CF, HA, H7, H0, H0, 0x6C2B7920C5, 0xB4AE78779F32D8C5, 0x0, 3, 0x626019B846E5668D);
    Fold(0x7CDFBFFDB83BF8, H3, HD, H0, H0, 0x7CDFBFFE8C, 0x6C2B79200DE6CFA7, 0x0, 4, 0x626019B846E5668D);
    Fold(0xCB2602FA9E9C6, H4, HF, H0, H0, 0xCB2602FBF, 0x7CDFBFFDB83BF83D, 0x0, 5, 0x626019B846E5668D);
    Fold(0x7F591ED944A842, HF, H5, H0, H0, 0x7F591EDA1D, 0xCB2602FA9E9C64F, 0x0, 6, 0x626019B846E5668D);
    Fold(0x85269812BE3EC4, HB, H7, H0, H0, 0x85269813A0, 0x7F591ED944A842F5, 0x0, 7, 0x626019B846E5668D);
    Fold(0x2C25BCB7118106, HE, HC, H0, H1, 0x2C25BCB75C, 0x85269812BE3EC4B7, 0x0, 8, 0x626019B846E5668D);
  }

  lemma TagHash()
    ensures Hashes(0x626019B846E5668D, 0x2, 1, 0xEB2432077CD44FD)
  {
    hide Hashes;
    NoneLeft(0xEB2432077CD44FD);
    Fold(0x626019B846E566, H8, HD, H0, H2, 0x626019B8EE, 0xEB2432077CD44FD, 0x0, 1, 0xEB2432077CD44FD);
  }

  lemma LengthHash()
    ensures Hashes(0xEB2432077CD44FD, 0x10, 8, 0x389D8E7A62A5648D)
  {
    hide Hashes;
    NoneLeft(0x389D8E7A62A5648D);
    Fold(0x10E9C6CDAB7B60, HB, HF, H0, H0, 0x10E9C6CDC8, 0x389D8E7A62A5648D, 0x0, 1, 0x389D8E7A62A5648D);
    Fold(0x9F7EA3ABC20A6, HC, H5, H0, H0, 0x9F7EA3ACD, 0x10E9C6CDAB7B60BF, 0x0, 2, 0x389D8E7A62A5648D);
    Fold(0xB121100B510EC9, HA, H7, H0, H0, 0xB121100C7E, 0x9F7EA3ABC20A6C5, 0x0, 3, 0x389D8E7A62A5648D);
    Fold(0x3567036D7CF316, H3, HD, H0, H0, 0x3567036DD7, 0xB121100B510EC9A7, 0x0, 4, 0x389D8E7A62A5648D);
    Fold(0x4C6B3BDA965B30, H4, HF, H0, H0, 0x4C6B3BDB18, 0x3567036D7CF3163D, 0x0, 5, 0x389D8E7A62A5648D);
    Fold(0x8A90E808BDD830, HF, H5, H0, H0, 0x8A90E809A9, 0x4C6B3BDA965B304F, 0x0, 6, 0x389D8E7A62A5648D);
    Fold(0xC62CFD2B91CC1E, HB, H7, H0, H0, 0xC62CFD2CE2, 0x8A90E808BDD830F5, 0x0, 7, 0x389D8E7A62A5648D);
    Fold(0xEB2432077CD44, HF, HD, H1, H0, 0xEB2432090, 0xC62CFD2B91CC1EB7, 0x0, 8, 0x389D8E7A62A5648D);
  }

  lemma FirstFront()
    ensures Hashes(0x389D8E7A62A5648D, 0x4133716E7A6D6459, 8, 0x2A6F5405555A5A5A)
  {
    hide Hashes;
    NoneLeft(0x2A6F5405555A5A5A);
    Fold(0x2C8A1669F17BCB, H7, HF, H4, H1, 0x2C8A166A3D, 0x2A6F5405555A5A5A, 0x0, 1, 0x2A6F5405555A5A5A);
    Fold(0xEA59F3AE70F5B1, H3, H6, H3, H3, 0xEA59F3AFFF, 0x2C8A1669F17BCB7F, 0x41, 2, 0x2A6F5405555A5A5A);
    Fold(0xD16936257A1492, H8, H3, H7, H1, 0xD1693626DD, 0xEA59F3AE70F5B136, 0x4133, 3, 0x2A6F5405555A5A5A);
    Fold(0xAE10EE80F80AA3, H9, HF, H6, HE, 0xAE10EE821F, 0xD16936257A149283, 0x413371, 4, 0x2A6F5405555A5A5A);
    Fold(0x465A93714A2228, H1, HF, H7, HA, 0x465A9371C1, 0xAE10EE80F80AA39F, 0x4133716E, 5, 0x2A6F5405555A5A5A);
    Fold(0xF82FB05D3E8D51, H8, H8, H6, HD, 0xF82FB05EE4, 0x465A93714A22281F, 0x4133716E7A, 6, 0x2A6F5405555A5A5A);
    Fold(0xD91DEDF59F0A54, H3, HC, H6, H4, 0xD91DEDF70F, 0xF82FB05D3E8D5188, 0x4133716E7A6D, 7, 0x2A6F5405555A5A5A);
    Fold(0x389D8E7A62A564, H8, HD, H5, H9, 0x389D8E7AC2, 0xD91DEDF59F0A543C, 0x4133716E7A6D64, 8, 0x2A6F5405555A5A5A);
  }

  lemma FirstBack()
    ensures Hashes(0x2A6F5405555A5A5A, 0x64694F7877553366, 8, 0xCBF29CE484222325)
  {
    hide Hashes;
    NoneLeft(0xCBF29CE484222325);
    Fold(0x1D10331A6B696B, HA, H3, H6, H4, 0x1D10331A9C, 0xCBF29CE484222325, 0x0, 1, 0xCBF29CE484222325);
    Fold(0x3D4FBA7CD2EE96, H3, H8, H6, H9, 0x3D4FBA7D3B, 0x1D10331A6B696BA3, 0x64, 2, 0xCBF29CE484222325);
    Fold(0xB7D397BAD7E0C4, HA, H7, H4, HF, 0xB7D397BC10, 0x3D4FBA7CD2EE9638, 0x6469, 3, 0xCBF29CE484222325);
    Fold(0x37C8C397ACEDAF, H4, H5, H7, H8, 0x37C8C3980B, 0xB7D397BAD7E0C4A7, 0x64694F, 4, 0xCBF29CE484222325);
    Fold(0x8E3E093004845F, H5, H0, H7, H7, 0x8E3E0930F6, 0x37C8C397ACEDAF45, 0x64694F78, 5, 0xCBF29CE484222325);
    Fold(0x3A07953E7DF35B, H2, H5, H5, H5, 0x3A07953EE0, 0x8E3E093004845F50, 0x64694F7877, 6, 0xCBF29CE484222325);
    Fold(0x75860110088753, HF, H4, H3, H3, 0x75860110D0, 0x3A07953E7DF35B25, 0x64694F787755, 7, 0xCBF29CE484222325);
    Fold(0x2A6F5405555A5A, H5, HA, H6, H6, 0x2A6F54059D, 0x75860110088753F4, 0x64694F78775533, 8, 0xCBF29CE484222325);
  }

  lemma SecondFront()
    ensures Hashes(0x389D8E7A62A5648D, 0x78725A416D734254, 8, 0xE8D5E9CA2F5A5A5A)
  {
    hide Hashes;
    NoneLeft(0xE8D5E9CA2F5A5A5A);
    Fold(0xEF2F1AE0AF7BCB, H4, H6, H7, H8, 0xEF2F1AE245, 0xE8D5E9CA2F5A5A5A, 0x0, 1, 0xE8D5E9CA2F5A5A5A);
    Fold(0x83C0E5CB8D0E68, HD, H0, H7, H2, 0x83C0E5CC6C, 0xEF2F1AE0AF7BCB46, 0x78, 2, 0xE8D5E9CA2F5A5A5A);
    Fold(0xC4FAE61510CD6B, HA, HA, H5, HA, 0xC4FAE6165F, 0x83C0E5CB8D0E68D0, 0x7872, 3, 0xE8D5E9CA2F5A5A5A);
    Fold(0xF44217AB4DB8AC, HE, HF, H4, H1, 0xF44217ACEC, 0xC4FAE61510CD6BAA, 0x78725A, 4, 0xE8D5E9CA2F5A5A5A);
    Fold(0x721D7671630C31, HB, H8, H6, HD, 0x721D767224, 0xF44217AB4DB8ACEF, 0x78725A41, 5, 0xE8D5E9CA2F5A5A5A);
    Fold(0xF840D05D3E9BFB, H1, HB, H7, H3, 0xF840D05EE4, 0x721D7671630C31B8, 0x78725A416D, 6, 0xE8D5E9CA2F5A5A5A);
    Fold(0xD91DF2F59F0A5C, HB, HB, H4, H2, 0xD91DF2F70F, 0xF840D05D3E9BFB1B, 0x78725A416D73, 7, 0xE8D5E9CA2F5A5A5A);
    Fold(0x389D8E7A62A564, H8, HD, H5, H4, 0x389D8E7AC2, 0xD91DF2F59F0A5CBB, 0x78725A416D7342, 8, 0xE8D5E9CA2F5A5A5A);
  }

  lemma SecondBack()
    ensures Hashes(0xE8D5E9CA2F5A5A5A, 0x65676A4B77334B71, 8, 0xCBF29CE484222325)
  {
    hide Hashes;
    NoneLeft(0xCBF29CE484222325);
    Fold(0x1D10331A6B696B, HA, H2, H6, H5, 0x1D10331A9C, 0xCBF29CE484222325, 0x0, 1, 0xCBF29CE484222325);
    Fold(0x6EB96A2522F800, HB, H1, H6, H7, 0x6EB96A25DF, 0x1D10331A6B696BA2, 0x65, 2, 0xCBF29CE484222325);
    Fold(0xB8AA4C22CEA55A, H6, H1, H6, HA, 0xB8AA4C2408, 0x6EB96A2522F800B1, 0x6567, 3, 0xCBF29CE484222325);
    Fold(0xB61E79A3AF42E1, HD, H0, H4, HB, 0xB61E79A4E4, 0xB8AA4C22CEA55A61, 0x65676A, 4, 0xCBF29CE484222325);
    Fold(0x2BB596F950708E, H8, H7, H7, H7, 0x2BB596F99A, 0xB61E79A3AF42E1D0, 0x65676A4B, 5, 0xCBF29CE484222325);
    Fold(0xDA93831367C30D, HE, HE, H3, H3, 0xDA938314DB, 0x2BB596F950708E87, 0x65676A4B77, 6, 0xCBF29CE484222325);
    Fold(0xFDD66D8E768737, H1, H1, H4, HB, 0xFDD66D9025, 0xDA93831367C30DEE, 0x65676A4B7733, 7, 0xCBF29CE484222325);
    Fold(0xE8D5E9CA2F5A5A, H5, HA, H7, H1, 0xE8D5E9CBBA, 0xFDD66D8E76873711, 0x65676A4B77334B, 8, 0xCBF29CE484222325);
  }

  // ---- The collision ----

  // "Ydmznq3Af3UwxOid"
  const FIRST: seq<byte> :=
    [0x59, 0x64, 0x6D, 0x7A, 0x6E, 0x71, 0x33, 0x41,
     0x66, 0x33, 0x55, 0x77, 0x78, 0x4F, 0x69, 0x64]

  // "TBsmAZrxqK3wKjge"
  const SECOND: seq<byte> :=
    [0x54, 0x42, 0x73, 0x6D, 0x41, 0x5A, 0x72, 0x78,
     0x71, 0x4B, 0x33, 0x77, 0x4B, 0x6A, 0x67, 0x65]

  function Pair(low: int, high: int): int { low + 256 * high }

  lemma EightBytes(s: seq<byte>, word: nat)
    requires |s| == 8
    requires word == Pair(s[0], Pair(s[1], Pair(s[2], Pair(s[3], Pair(s[4], Pair(s[5], Pair(s[6], s[7])))))))
    ensures s == LittleEndian(word, 8)
  {
    FromLittleEndianRoundTrip(s);
    hide LittleEndian;
    var t, u, v := s[2..], s[4..], s[6..];
    assert v[1..][1..] == [] && u[1..][1..] == v && t[1..][1..] == u && s[1..][1..] == t;
    assert v[1..] == [s[7]] && FromLittleEndian([s[7]]) == s[7];
    assert FromLittleEndian(v) == Pair(s[6], s[7]);
    assert FromLittleEndian(u) == Pair(s[4], Pair(s[5], FromLittleEndian(v)));
    assert FromLittleEndian(t) == Pair(s[2], Pair(s[3], FromLittleEndian(u)));
  }

  /** What the hash of a world takes in before the name, when a single forget follows the genesis world. */
  const PREFIX: seq<byte> :=
    LittleEndian(FNV_OFFSET_BASIS, 8) + LittleEndian(1, 8) + LittleEndian(1, 8) + LittleEndian(1, 8)
    + LittleEndian(2, 1) + LittleEndian(16, 8)

  lemma Joined(front: seq<byte>, hash: nat, word: nat, n: nat, last: nat)
    requires Digest(front) == hash && Hashes(hash, word, n, last)
    ensures Digest(front + LittleEndian(word, n)) == last
  {
    DigestExtendConcat(FNV_OFFSET_BASIS, front, LittleEndian(word, n));
  }

  lemma PrefixHash()
    ensures Digest(PREFIX) == 0x389D8E7A62A5648D
  {
    ParentHash();
    VersionHash();
    AllocatorHash();
    CountHash();
    TagHash();
    LengthHash();
    assert Digest([]) == FNV_OFFSET_BASIS;
    hide Hashes, Digest, LittleEndian;
    var parent, one, tag := LittleEndian(FNV_OFFSET_BASIS, 8), LittleEndian(1, 8), LittleEndian(2, 1);
    assert [] + parent == parent;
    Joined([], 0xCBF29CE484222325, FNV_OFFSET_BASIS, 8, 0xF4ED18EBF16AA5CC);
    Joined(parent, 0xF4ED18EBF16AA5CC, 1, 8, 0xEB4D2672BF0FA16D);
    Joined(parent + one, 0xEB4D2672BF0FA16D, 1, 8, 0x2C25BCB7118106EC);
    Joined(parent + one + one, 0x2C25BCB7118106EC, 1, 8, 0x626019B846E5668D);
    Joined(parent + one + one + one, 0x626019B846E5668D, 2, 1, 0xEB2432077CD44FD);
    Joined(parent + one + one + one + tag, 0xEB2432077CD44FD, 16, 8, 0x389D8E7A62A5648D);
  }

  lemma FirstHash()
    ensures Digest(PREFIX + FIRST) == FNV_OFFSET_BASIS
  {
    PrefixHash();
    FirstFront();
    FirstBack();
    hide Hashes, Digest, LittleEndian;
    EightBytes(FIRST[..8], 0x4133716E7A6D6459);
    EightBytes(FIRST[8..], 0x64694F7877553366);
    Joined(PREFIX, 0x389D8E7A62A5648D, 0x4133716E7A6D6459, 8, 0x2A6F5405555A5A5A);
    Joined(PREFIX + FIRST[..8], 0x2A6F5405555A5A5A, 0x64694F7877553366, 8, FNV_OFFSET_BASIS);
    assert PREFIX + FIRST[..8] + FIRST[8..] == PREFIX + FIRST;
  }

  lemma SecondHash()
    ensures Digest(PREFIX + SECOND) == FNV_OFFSET_BASIS
  {
    PrefixHash();
    SecondFront();
    SecondBack();
    hide Hashes, Digest, LittleEndian;
    EightBytes(SECOND[..8], 0x78725A416D734254);
    EightBytes(SECOND[8..], 0x65676A4B77334B71);
    Joined(PREFIX, 0x389D8E7A62A5648D, 0x78725A416D734254, 8, 0xE8D5E9CA2F5A5A5A);
    Joined(PREFIX + SECOND[..8], 0xE8D5E9CA2F5A5A5A, 0x65676A4B77334B71, 8, FNV_OFFSET_BASIS);
    assert PREFIX + SECOND[..8] + SECOND[8..] == PREFIX + SECOND;
  }

  /** Two different sequences of 57 bytes with the same hash, which is also the hash of no bytes at all. */
  lemma Collide()
    ensures PREFIX + FIRST != PREFIX + SECOND && |PREFIX + FIRST| == |PREFIX + SECOND| == 57
    ensures Digest(PREFIX + FIRST) == Digest(PREFIX + SECOND) == Digest([]) == FNV_OFFSET_BASIS
  {
    FirstHash();
    SecondHash();
    hide Digest, LittleEndian;
    assert (PREFIX + FIRST)[41] == FIRST[0] && (PREFIX + SECOND)[41] == SECOND[0];
    assert Digest([]) == FNV_OFFSET_BASIS by { EmptyHash(); }
  }

  lemma EmptyHash()
    ensures Digest([]) == FNV_OFFSET_BASIS
  {
  }
}

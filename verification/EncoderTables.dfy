/** The encoder's symbol tables, run by run. */
module EncoderTables {
  import opened LzTokens

  lemma {:induction false} LenBetween(a: nat, l: nat, b: nat)
    requires a <= l <= b && LenIndex(a) == LenIndex(b)
    ensures LenIndex(l) == LenIndex(a) && LenWidth(l) == (if LenIndex(a) < 8 then 0 else LenIndex(a) / 4 - 1)
  {
    LenIndexMono(a, l);
    LenIndexMono(l, b);
    LenSplit(l);
  }

  lemma {:induction false} DistBetween(a: nat, d: nat, b: nat)
    requires a <= d <= b && DistSym(a) == DistSym(b)
    ensures DistSym(d) == DistSym(a) && DistExtra(d) == (if DistSym(a) < 4 then 0 else DistSym(a) / 2 - 1)
  {
    DistSymMono(a, d);
    DistSymMono(d, b);
    DistSplit(d);
  }

  lemma {:induction false} LengthEnds()
    ensures LenIndex(8) == LenIndex(9) == 8 && LenIndex(10) == LenIndex(11) == 9 && LenIndex(12) == LenIndex(13) == 10
    ensures LenIndex(14) == LenIndex(15) == 11 && LenIndex(16) == LenIndex(19) == 12
      && LenIndex(20) == LenIndex(23) == 13
    ensures LenIndex(24) == LenIndex(27) == 14 && LenIndex(28) == LenIndex(31) == 15
      && LenIndex(32) == LenIndex(39) == 16
    ensures LenIndex(40) == LenIndex(47) == 17 && LenIndex(48) == LenIndex(55) == 18
      && LenIndex(56) == LenIndex(63) == 19
    ensures LenIndex(64) == LenIndex(79) == 20 && LenIndex(80) == LenIndex(95) == 21
      && LenIndex(96) == LenIndex(111) == 22
    ensures LenIndex(112) == LenIndex(127) == 23 && LenIndex(128) == LenIndex(159) == 24
      && LenIndex(160) == LenIndex(191) == 25
    ensures LenIndex(192) == LenIndex(223) == 26 && LenIndex(224) == LenIndex(254) == 27
  {
  }

  lemma {:induction false} ShortLengths(l: nat)
    requires l < 8
    ensures LenIndex(l) == l && LenWidth(l) == 0
  {
  }

  /** Symbol and number of extra bits for a length less three. */
  lemma {:induction false} LengthTable(l: nat)
    requires l < 256
    ensures l == 0 ==> LenSym(l) == 257 && LenExtra(l) == 0
    ensures l == 1 ==> LenSym(l) == 258 && LenExtra(l) == 0
    ensures l == 2 ==> LenSym(l) == 259 && LenExtra(l) == 0
    ensures l == 3 ==> LenSym(l) == 260 && LenExtra(l) == 0
    ensures l == 4 ==> LenSym(l) == 261 && LenExtra(l) == 0
    ensures l == 5 ==> LenSym(l) == 262 && LenExtra(l) == 0
    ensures l == 6 ==> LenSym(l) == 263 && LenExtra(l) == 0
    ensures l == 7 ==> LenSym(l) == 264 && LenExtra(l) == 0
    ensures 8 <= l <= 9 ==> LenSym(l) == 265 && LenExtra(l) == 1
    ensures 10 <= l <= 11 ==> LenSym(l) == 266 && LenExtra(l) == 1
    ensures 12 <= l <= 13 ==> LenSym(l) == 267 && LenExtra(l) == 1
    ensures 14 <= l <= 15 ==> LenSym(l) == 268 && LenExtra(l) == 1
    ensures 16 <= l <= 19 ==> LenSym(l) == 269 && LenExtra(l) == 2
    ensures 20 <= l <= 23 ==> LenSym(l) == 270 && LenExtra(l) == 2
    ensures 24 <= l <= 27 ==> LenSym(l) == 271 && LenExtra(l) == 2
    ensures 28 <= l <= 31 ==> LenSym(l) == 272 && LenExtra(l) == 2
    ensures 32 <= l <= 39 ==> LenSym(l) == 273 && LenExtra(l) == 3
    ensures 40 <= l <= 47 ==> LenSym(l) == 274 && LenExtra(l) == 3
    ensures 48 <= l <= 55 ==> LenSym(l) == 275 && LenExtra(l) == 3
    ensures 56 <= l <= 63 ==> LenSym(l) == 276 && LenExtra(l) == 3
    ensures 64 <= l <= 79 ==> LenSym(l) == 277 && LenExtra(l) == 4
    ensures 80 <= l <= 95 ==> LenSym(l) == 278 && LenExtra(l) == 4
    ensures 96 <= l <= 111 ==> LenSym(l) == 279 && LenExtra(l) == 4
    ensures 112 <= l <= 127 ==> LenSym(l) == 280 && LenExtra(l) == 4
    ensures 128 <= l <= 159 ==> LenSym(l) == 281 && LenExtra(l) == 5
    ensures 160 <= l <= 191 ==> LenSym(l) == 282 && LenExtra(l) == 5
    ensures 192 <= l <= 223 ==> LenSym(l) == 283 && LenExtra(l) == 5
    ensures 224 <= l <= 254 ==> LenSym(l) == 284 && LenExtra(l) == 5
    ensures l == 255 ==> LenSym(l) == 285 && LenExtra(l) == 0
  {
    hide LenIndex, LenWidth;
    LengthEnds();
    if l < 8 { ShortLengths(l); }
    if 8 <= l <= 9 { LenBetween(8, l, 9); }
    if 10 <= l <= 11 { LenBetween(10, l, 11); }
    if 12 <= l <= 13 { LenBetween(12, l, 13); }
    if 14 <= l <= 15 { LenBetween(14, l, 15); }
    if 16 <= l <= 19 { LenBetween(16, l, 19); }
    if 20 <= l <= 23 { LenBetween(20, l, 23); }
    if 24 <= l <= 27 { LenBetween(24, l, 27); }
    if 28 <= l <= 31 { LenBetween(28, l, 31); }
    if 32 <= l <= 39 { LenBetween(32, l, 39); }
    if 40 <= l <= 47 { LenBetween(40, l, 47); }
    if 48 <= l <= 55 { LenBetween(48, l, 55); }
    if 56 <= l <= 63 { LenBetween(56, l, 63); }
    if 64 <= l <= 79 { LenBetween(64, l, 79); }
    if 80 <= l <= 95 { LenBetween(80, l, 95); }
    if 96 <= l <= 111 { LenBetween(96, l, 111); }
    if 112 <= l <= 127 { LenBetween(112, l, 127); }
    if 128 <= l <= 159 { LenBetween(128, l, 159); }
    if 160 <= l <= 191 { LenBetween(160, l, 191); }
    if 192 <= l <= 223 { LenBetween(192, l, 223); }
    if 224 <= l <= 254 { LenBetween(224, l, 254); }
  }

  lemma {:induction false} DistEnds()
    ensures DistSym(4) == DistSym(5) == 4 && DistSym(6) == DistSym(7) == 5 && DistSym(8) == DistSym(11) == 6
    ensures DistSym(12) == DistSym(15) == 7 && DistSym(16) == DistSym(23) == 8 && DistSym(24) == DistSym(31) == 9
    ensures DistSym(32) == DistSym(47) == 10 && DistSym(48) == DistSym(63) == 11 && DistSym(64) == DistSym(95) == 12
    ensures DistSym(96) == DistSym(127) == 13 && DistSym(128) == DistSym(191) == 14
      && DistSym(192) == DistSym(255) == 15
    ensures DistSym(256) == DistSym(383) == 16 && DistSym(384) == DistSym(511) == 17
  {
  }

  lemma {:induction false} ShortDists(d: nat)
    requires d < 4
    ensures DistSym(d) == d && DistExtra(d) == 0
  {
  }

  /** For a distance less one, below 512. */
  lemma {:induction false} SmallDistTable(d: nat)
    requires d < 512
    ensures d == 0 ==> SmallDistSym(d) == 0 && DistExtra(d) == 0
    ensures d == 1 ==> SmallDistSym(d) == 1 && DistExtra(d) == 0
    ensures d == 2 ==> SmallDistSym(d) == 2 && DistExtra(d) == 0
    ensures d == 3 ==> SmallDistSym(d) == 3 && DistExtra(d) == 0
    ensures 4 <= d <= 5 ==> SmallDistSym(d) == 4 && DistExtra(d) == 1
    ensures 6 <= d <= 7 ==> SmallDistSym(d) == 5 && DistExtra(d) == 1
    ensures 8 <= d <= 11 ==> SmallDistSym(d) == 6 && DistExtra(d) == 2
    ensures 12 <= d <= 15 ==> SmallDistSym(d) == 7 && DistExtra(d) == 2
    ensures 16 <= d <= 23 ==> SmallDistSym(d) == 8 && DistExtra(d) == 3
    ensures 24 <= d <= 31 ==> SmallDistSym(d) == 9 && DistExtra(d) == 3
    ensures 32 <= d <= 47 ==> SmallDistSym(d) == 10 && DistExtra(d) == 4
    ensures 48 <= d <= 63 ==> SmallDistSym(d) == 11 && DistExtra(d) == 4
    ensures 64 <= d <= 95 ==> SmallDistSym(d) == 12 && DistExtra(d) == 5
    ensures 96 <= d <= 127 ==> SmallDistSym(d) == 13 && DistExtra(d) == 5
    ensures 128 <= d <= 191 ==> SmallDistSym(d) == 14 && DistExtra(d) == 6
    ensures 192 <= d <= 255 ==> SmallDistSym(d) == 15 && DistExtra(d) == 6
    ensures 256 <= d <= 383 ==> SmallDistSym(d) == 16 && DistExtra(d) == 7
    ensures 384 <= d <= 511 ==> SmallDistSym(d) == 17 && DistExtra(d) == 7
  {
    hide DistSym, DistExtra;
    DistEnds();
    if d < 4 { ShortDists(d); }
    if 4 <= d <= 5 { DistBetween(4, d, 5); }
    if 6 <= d <= 7 { DistBetween(6, d, 7); }
    if 8 <= d <= 11 { DistBetween(8, d, 11); }
    if 12 <= d <= 15 { DistBetween(12, d, 15); }
    if 16 <= d <= 23 { DistBetween(16, d, 23); }
    if 24 <= d <= 31 { DistBetween(24, d, 31); }
    if 32 <= d <= 47 { DistBetween(32, d, 47); }
    if 48 <= d <= 63 { DistBetween(48, d, 63); }
    if 64 <= d <= 95 { DistBetween(64, d, 95); }
    if 96 <= d <= 127 { DistBetween(96, d, 127); }
    if 128 <= d <= 191 { DistBetween(128, d, 191); }
    if 192 <= d <= 255 { DistBetween(192, d, 255); }
    if 256 <= d <= 383 { DistBetween(256, d, 383); }
    if 384 <= d <= 511 { DistBetween(384, d, 511); }
  }

  /** For the high byte of a larger distance less one; the first two entries are not used. */
  lemma {:induction false} LargeDistTable(h: nat)
    requires 2 <= h < 128
    ensures h == 2 ==> LargeDistSym(h) == 18 && LargeDistExtra(h) == 8
    ensures h == 3 ==> LargeDistSym(h) == 19 && LargeDistExtra(h) == 8
    ensures 4 <= h <= 5 ==> LargeDistSym(h) == 20 && LargeDistExtra(h) == 9
    ensures 6 <= h <= 7 ==> LargeDistSym(h) == 21 && LargeDistExtra(h) == 9
    ensures 8 <= h <= 11 ==> LargeDistSym(h) == 22 && LargeDistExtra(h) == 10
    ensures 12 <= h <= 15 ==> LargeDistSym(h) == 23 && LargeDistExtra(h) == 10
    ensures 16 <= h <= 23 ==> LargeDistSym(h) == 24 && LargeDistExtra(h) == 11
    ensures 24 <= h <= 31 ==> LargeDistSym(h) == 25 && LargeDistExtra(h) == 11
    ensures 32 <= h <= 47 ==> LargeDistSym(h) == 26 && LargeDistExtra(h) == 12
    ensures 48 <= h <= 63 ==> LargeDistSym(h) == 27 && LargeDistExtra(h) == 12
    ensures 64 <= h <= 95 ==> LargeDistSym(h) == 28 && LargeDistExtra(h) == 13
    ensures 96 <= h <= 127 ==> LargeDistSym(h) == 29 && LargeDistExtra(h) == 13
  {
    hide DistSym, DistExtra;
    DistEnds();
    if h < 4 { ShortDists(h); }
    if 4 <= h <= 5 { DistBetween(4, h, 5); }
    if 6 <= h <= 7 { DistBetween(6, h, 7); }
    if 8 <= h <= 11 { DistBetween(8, h, 11); }
    if 12 <= h <= 15 { DistBetween(12, h, 15); }
    if 16 <= h <= 23 { DistBetween(16, h, 23); }
    if 24 <= h <= 31 { DistBetween(24, h, 31); }
    if 32 <= h <= 47 { DistBetween(32, h, 47); }
    if 48 <= h <= 63 { DistBetween(48, h, 63); }
    if 64 <= h <= 95 { DistBetween(64, h, 95); }
    if 96 <= h <= 127 { DistBetween(96, h, 127); }
  }
}

/**
 * The P12L pixel format of the Phantom camera: eight 12-bit pixels packed
 * into three 32-bit words that travel in network (big-endian) byte order,
 * and `unpack_p12l`, which spreads them into 16-bit pixels.
 *
 * The specification is the packing the plugin's own comment describes: after
 * the byte swap the three words are one big-endian stream of 24 nibbles; the
 * 12-bit chunk `a b c` at stream nibbles 3m, 3m+1, 3m+2 is pixel m, whose
 * value has `b` as its high nibble, `c` as its middle nibble and `a` as its
 * low nibble. The method keeps the plugin's own masks and shifts and is
 * proved to compute exactly that.
 *
 * The host is taken to be little-endian, so `g_ntohl` swaps the bytes.
 */
module P12L {

  /** The number of groups the unpack loop visits for `numPixels` pixels (it steps by 8 while i < numPixels). */
  function Groups(numPixels: nat): (g: nat)
    ensures 8 * g >= numPixels
    ensures g == 0 || 8 * (g - 1) < numPixels
  {
    (numPixels + 8 - 1) / 8
  }

  /** `g_ntohl` on a little-endian host: the four bytes of the word in reverse order. */
  function Ntohl(w: bv32): bv32
  {
    (w << 24) | ((w << 8) & 0x00FF_0000) | ((w >> 8) & 0x0000_FF00) | (w >> 24)
  }

  /** Swapping twice gives the word back, so `g_htonl` (the same swap) undoes `g_ntohl`. */
  lemma NtohlInvolutive(w: bv32)
    ensures Ntohl(Ntohl(w)) == w
  {
  }

  /** Nibble k of a word, counting from the most significant (k = 0) to the least significant (k = 7). */
  function WordNibble(t: bv32, k: nat): (n: bv32)
    requires k < 8
    ensures n < 16
  {
    if k == 0 then t >> 28
    else if k == 1 then (t >> 24) & 0xF
    else if k == 2 then (t >> 20) & 0xF
    else if k == 3 then (t >> 16) & 0xF
    else if k == 4 then (t >> 12) & 0xF
    else if k == 5 then (t >> 8) & 0xF
    else if k == 6 then (t >> 4) & 0xF
    else t & 0xF
  }

  /** Eight nibbles laid into one word, the first one most significant. */
  function NibbleWord(n0: bv32, n1: bv32, n2: bv32, n3: bv32, n4: bv32, n5: bv32, n6: bv32, n7: bv32): bv32
  {
    (n0 << 28) | (n1 << 24) | (n2 << 20) | (n3 << 16) | (n4 << 12) | (n5 << 8) | (n6 << 4) | n7
  }

  /**
   * Nibble `s` of the big-endian stream t1 t2 t3: nibble 0 is the most
   * significant nibble of t1, nibble 23 the least significant of t3.
   */
  function StreamNibble(t1: bv32, t2: bv32, t3: bv32, s: nat): (n: bv32)
    requires s < 24
    ensures n < 16
  {
    if s < 8 then WordNibble(t1, s)
    else if s < 16 then WordNibble(t2, s - 8)
    else WordNibble(t3, s - 16)
  }

  /** Pixel m of a group, read off the byte-swapped stream t1 t2 t3 as the comment of unpack_p12l describes. */
  function StreamPixel(t1: bv32, t2: bv32, t3: bv32, m: nat): bv16
    requires m < 8
  {
    ((StreamNibble(t1, t2, t3, 3 * m + 1) << 8)
     | (StreamNibble(t1, t2, t3, 3 * m + 2) << 4)
     | StreamNibble(t1, t2, t3, 3 * m)) as bv16
  }

  /** The eight pixels of the byte-swapped stream t1 t2 t3. */
  function StreamPixels(t1: bv32, t2: bv32, t3: bv32): seq<bv16>
  {
    [StreamPixel(t1, t2, t3, 0), StreamPixel(t1, t2, t3, 1), StreamPixel(t1, t2, t3, 2), StreamPixel(t1, t2, t3, 3),
     StreamPixel(t1, t2, t3, 4), StreamPixel(t1, t2, t3, 5), StreamPixel(t1, t2, t3, 6), StreamPixel(t1, t2, t3, 7)]
  }

  /** Every pixel of `px` fits in 12 bits. */
  predicate Pixels12(px: seq<bv16>)
  {
    forall i :: 0 <= i < |px| ==> px[i] < 4096
  }

  /** The eight pixels that the three network-order words w1 w2 w3 carry; each fits in 12 bits. */
  function UnpackGroup(w1: bv32, w2: bv32, w3: bv32): (px: seq<bv16>)
    ensures |px| == 8
    ensures Pixels12(px)
  {
    StreamPixels(Ntohl(w1), Ntohl(w2), Ntohl(w3))
  }

  /** Nibble `s` of the stream that packs the eight pixels `px`: the placement StreamPixel reads back. */
  function PackedNibble(px: seq<bv16>, s: nat): (n: bv32)
    requires |px| == 8 && s < 24
    ensures n < 16
  {
    var p := px[s / 3] as bv32;
    if s % 3 == 0 then p & 0xF
    else if s % 3 == 1 then (p >> 8) & 0xF
    else (p >> 4) & 0xF
  }

  /** Word `a` (0, 1 or 2) of the packed stream, most significant nibble first, before the byte swap. */
  function PackedWord(px: seq<bv16>, a: nat): bv32
    requires |px| == 8 && a < 3
  {
    if a == 0 then
      NibbleWord(PackedNibble(px, 0), PackedNibble(px, 1), PackedNibble(px, 2), PackedNibble(px, 3),
                 PackedNibble(px, 4), PackedNibble(px, 5), PackedNibble(px, 6), PackedNibble(px, 7))
    else if a == 1 then
      NibbleWord(PackedNibble(px, 8), PackedNibble(px, 9), PackedNibble(px, 10), PackedNibble(px, 11),
                 PackedNibble(px, 12), PackedNibble(px, 13), PackedNibble(px, 14), PackedNibble(px, 15))
    else
      NibbleWord(PackedNibble(px, 16), PackedNibble(px, 17), PackedNibble(px, 18), PackedNibble(px, 19),
                 PackedNibble(px, 20), PackedNibble(px, 21), PackedNibble(px, 22), PackedNibble(px, 23))
  }

  /** The three network-order words that carry the eight pixels `px`: the inverse of UnpackGroup. */
  function PackGroup(px: seq<bv16>): seq<bv32>
    requires |px| == 8
  {
    [Ntohl(PackedWord(px, 0)), Ntohl(PackedWord(px, 1)), Ntohl(PackedWord(px, 2))]
  }

  /** Every one of the 96 input bits reaches the output: packing the unpacked pixels gives the words back. */
  lemma PackUnpackGroup(w1: bv32, w2: bv32, w3: bv32)
    ensures PackGroup(UnpackGroup(w1, w2, w3)) == [w1, w2, w3]
  {
  }

  /** Pixels 0 to 3 read back off the packed stream are the pixels packed. */
  lemma UnpackPackLow(px: seq<bv16>)
    requires |px| == 8 && px[0] < 4096 && px[1] < 4096 && px[2] < 4096 && px[3] < 4096
    ensures var t1, t2, t3 := PackedWord(px, 0), PackedWord(px, 1), PackedWord(px, 2);
      StreamPixel(t1, t2, t3, 0) == px[0] && StreamPixel(t1, t2, t3, 1) == px[1] &&
      StreamPixel(t1, t2, t3, 2) == px[2] && StreamPixel(t1, t2, t3, 3) == px[3]
  {
  }

  /** Pixels 4 to 7 read back off the packed stream are the pixels packed. */
  lemma UnpackPackHigh(px: seq<bv16>)
    requires |px| == 8 && px[4] < 4096 && px[5] < 4096 && px[6] < 4096 && px[7] < 4096
    ensures var t1, t2, t3 := PackedWord(px, 0), PackedWord(px, 1), PackedWord(px, 2);
      StreamPixel(t1, t2, t3, 4) == px[4] && StreamPixel(t1, t2, t3, 5) == px[5] &&
      StreamPixel(t1, t2, t3, 6) == px[6] && StreamPixel(t1, t2, t3, 7) == px[7]
  {
  }

  /** Unpacking is lossless on 12-bit pixels: unpacking the packed words gives the pixels back. */
  lemma UnpackPackGroup(px: seq<bv16>)
    requires |px| == 8 && Pixels12(px)
    ensures var ws := PackGroup(px); UnpackGroup(ws[0], ws[1], ws[2]) == px
  {
    assert px[0] < 4096 && px[1] < 4096 && px[2] < 4096 && px[3] < 4096;
    assert px[4] < 4096 && px[5] < 4096 && px[6] < 4096 && px[7] < 4096;
    UnpackPackLow(px);
    UnpackPackHigh(px);
    NtohlInvolutive(PackedWord(px, 0));
    NtohlInvolutive(PackedWord(px, 1));
    NtohlInvolutive(PackedWord(px, 2));
  }

  /** The pixels of the first `g` groups of `ws`, each group of three words unpacked into eight pixels by `unpack`. */
  function UnpackedBy(unpack: (bv32, bv32, bv32) -> seq<bv16>, ws: seq<bv32>, g: nat): (px: seq<bv16>)
    requires 3 * g <= |ws|
    requires forall w1, w2, w3 {:trigger unpack(w1, w2, w3)} :: |unpack(w1, w2, w3)| == 8
    ensures |px| == 8 * g
  {
    if g == 0 then []
    else UnpackedBy(unpack, ws, g - 1) + unpack(ws[3 * g - 3], ws[3 * g - 2], ws[3 * g - 1])
  }

  /** The words that carry the first `n` groups of the pixels `px`, each group of eight pixels packed into three words by `pack`. */
  function PackedBy(pack: seq<bv16> --> seq<bv32>, px: seq<bv16>, n: nat): (ws: seq<bv32>)
    requires 8 * n <= |px|
    requires forall chunk {:trigger pack.requires(chunk)} :: |chunk| == 8 ==> pack.requires(chunk)
    requires forall chunk {:trigger pack(chunk)} :: |chunk| == 8 ==> |pack(chunk)| == 3
    ensures |ws| == 3 * n
  {
    if n == 0 then []
    else PackedBy(pack, px, n - 1) + pack(px[8 * n - 8 .. 8 * n])
  }

  /** Pixel 8k + m of the output comes from group k alone, that is from words 3k, 3k + 1 and 3k + 2. */
  lemma {:induction false} UnpackedByAt(unpack: (bv32, bv32, bv32) -> seq<bv16>, ws: seq<bv32>, g: nat, k: nat, m: nat)
    requires 3 * g <= |ws| && k < g && m < 8
    requires forall w1, w2, w3 {:trigger unpack(w1, w2, w3)} :: |unpack(w1, w2, w3)| == 8
    ensures UnpackedBy(unpack, ws, g)[8 * k + m] == unpack(ws[3 * k], ws[3 * k + 1], ws[3 * k + 2])[m]
  {
    if k < g - 1 {
      UnpackedByAt(unpack, ws, g - 1, k, m);
    }
  }

  /** Word 3k + a of the output is word `a` of group k, packed from pixels 8k to 8k + 7 alone. */
  lemma {:induction false} PackedByAt(pack: seq<bv16> --> seq<bv32>, px: seq<bv16>, n: nat, k: nat, a: nat)
    requires 8 * n <= |px| && k < n && a < 3
    requires forall chunk {:trigger pack.requires(chunk)} :: |chunk| == 8 ==> pack.requires(chunk)
    requires forall chunk {:trigger pack(chunk)} :: |chunk| == 8 ==> |pack(chunk)| == 3
    ensures PackedBy(pack, px, n)[3 * k + a] == pack(px[8 * k .. 8 * k + 8])[a]
  {
    if k < n - 1 {
      PackedByAt(pack, px, n - 1, k, a);
    }
  }

  /** Group k of the unpacked output is the group `unpack` makes of words 3k to 3k + 2. */
  lemma UnpackedByGroup(unpack: (bv32, bv32, bv32) -> seq<bv16>, ws: seq<bv32>, g: nat, k: nat)
    requires 3 * g <= |ws| && k < g
    requires forall w1, w2, w3 {:trigger unpack(w1, w2, w3)} :: |unpack(w1, w2, w3)| == 8
    ensures UnpackedBy(unpack, ws, g)[8 * k .. 8 * k + 8] == unpack(ws[3 * k], ws[3 * k + 1], ws[3 * k + 2])
  {
    var chunk, px := UnpackedBy(unpack, ws, g)[8 * k .. 8 * k + 8], unpack(ws[3 * k], ws[3 * k + 1], ws[3 * k + 2]);
    forall m | 0 <= m < 8
      ensures chunk[m] == px[m]
    {
      UnpackedByAt(unpack, ws, g, k, m);
    }
  }

  /** Word 3k + a of the packed unpacked groups is word 3k + a of the input, when `pack` undoes `unpack`. */
  lemma PackedByUnpackedByAt(pack: seq<bv16> --> seq<bv32>, unpack: (bv32, bv32, bv32) -> seq<bv16>, ws: seq<bv32>, g: nat, k: nat, a: nat)
    requires 3 * g <= |ws| && k < g && a < 3
    requires forall chunk {:trigger pack.requires(chunk)} :: |chunk| == 8 ==> pack.requires(chunk)
    requires forall chunk {:trigger pack(chunk)} :: |chunk| == 8 ==> |pack(chunk)| == 3
    requires forall w1, w2, w3 {:trigger unpack(w1, w2, w3)} :: |unpack(w1, w2, w3)| == 8
    requires forall w1, w2, w3 {:trigger pack(unpack(w1, w2, w3))} :: pack(unpack(w1, w2, w3)) == [w1, w2, w3]
    ensures PackedBy(pack, UnpackedBy(unpack, ws, g), g)[3 * k + a] == ws[3 * k + a]
  {
    var px := UnpackedBy(unpack, ws, g);
    UnpackedByGroup(unpack, ws, g, k);
    PackedByAt(pack, px, g, k, a);
    var w1, w2, w3 := ws[3 * k], ws[3 * k + 1], ws[3 * k + 2];
    assert pack(unpack(w1, w2, w3)) == [w1, w2, w3];
  }

  /** Word i of the packed unpacked groups is word i of the input, when `pack` undoes `unpack`. */
  lemma PackedByUnpackedByIndex(pack: seq<bv16> --> seq<bv32>, unpack: (bv32, bv32, bv32) -> seq<bv16>, ws: seq<bv32>, g: nat, i: nat)
    requires 3 * g <= |ws| && i < 3 * g
    requires forall chunk {:trigger pack.requires(chunk)} :: |chunk| == 8 ==> pack.requires(chunk)
    requires forall chunk {:trigger pack(chunk)} :: |chunk| == 8 ==> |pack(chunk)| == 3
    requires forall w1, w2, w3 {:trigger unpack(w1, w2, w3)} :: |unpack(w1, w2, w3)| == 8
    requires forall w1, w2, w3 {:trigger pack(unpack(w1, w2, w3))} :: pack(unpack(w1, w2, w3)) == [w1, w2, w3]
    ensures i < |PackedBy(pack, UnpackedBy(unpack, ws, g), g)|
    ensures PackedBy(pack, UnpackedBy(unpack, ws, g), g)[i] == ws[i]
  {
    var k, a := i / 3, i % 3;
    assert 3 * k + a == i && k < g && a < 3;
    PackedByUnpackedByAt(pack, unpack, ws, g, k, a);
  }

  /** When `pack` undoes `unpack` on every group, packing the unpacked groups gives back the words read. */
  lemma PackedByUnpackedBy(pack: seq<bv16> --> seq<bv32>, unpack: (bv32, bv32, bv32) -> seq<bv16>, ws: seq<bv32>, g: nat)
    requires 3 * g <= |ws|
    requires forall chunk {:trigger pack.requires(chunk)} :: |chunk| == 8 ==> pack.requires(chunk)
    requires forall chunk {:trigger pack(chunk)} :: |chunk| == 8 ==> |pack(chunk)| == 3
    requires forall w1, w2, w3 {:trigger unpack(w1, w2, w3)} :: |unpack(w1, w2, w3)| == 8
    requires forall w1, w2, w3 {:trigger pack(unpack(w1, w2, w3))} :: pack(unpack(w1, w2, w3)) == [w1, w2, w3]
    ensures PackedBy(pack, UnpackedBy(unpack, ws, g), g) == ws[..3 * g]
  {
    var back, front := PackedBy(pack, UnpackedBy(unpack, ws, g), g), ws[..3 * g];
    assert |back| == |front| == 3 * g;
    forall i | 0 <= i < 3 * g
      ensures back[i] == front[i]
    {
      PackedByUnpackedByIndex(pack, unpack, ws, g, i);
    }
    assert back == front;
  }

  /** Pixel 8k + m of the unpacked packed groups is pixel 8k + m of the input, when `unpack` undoes `pack`. */
  lemma UnpackedByPackedByAt(pack: seq<bv16> --> seq<bv32>, unpack: (bv32, bv32, bv32) -> seq<bv16>, px: seq<bv16>, n: nat, k: nat, m: nat)
    requires |px| == 8 * n && k < n && m < 8
    requires forall chunk {:trigger pack.requires(chunk)} :: |chunk| == 8 ==> pack.requires(chunk)
    requires forall chunk {:trigger pack(chunk)} :: |chunk| == 8 ==> |pack(chunk)| == 3
    requires forall w1, w2, w3 {:trigger unpack(w1, w2, w3)} :: |unpack(w1, w2, w3)| == 8
    requires Pixels12(px)
    requires forall chunk {:trigger pack(chunk)} :: |chunk| == 8 && Pixels12(chunk) ==>
      unpack(pack(chunk)[0], pack(chunk)[1], pack(chunk)[2]) == chunk
    ensures UnpackedBy(unpack, PackedBy(pack, px, n), n)[8 * k + m] == px[8 * k + m]
  {
    var ws, chunk := PackedBy(pack, px, n), px[8 * k .. 8 * k + 8];
    assert Pixels12(chunk);
    PackedByAt(pack, px, n, k, 0);
    PackedByAt(pack, px, n, k, 1);
    PackedByAt(pack, px, n, k, 2);
    UnpackedByAt(unpack, ws, n, k, m);
    assert chunk[m] == px[8 * k + m];
  }

  /** When `unpack` undoes `pack` on every group of 12-bit pixels, unpacking the packed groups gives back the pixels. */
  lemma UnpackedByPackedBy(pack: seq<bv16> --> seq<bv32>, unpack: (bv32, bv32, bv32) -> seq<bv16>, px: seq<bv16>, n: nat)
    requires |px| == 8 * n
    requires Pixels12(px)
    requires forall chunk {:trigger pack.requires(chunk)} :: |chunk| == 8 ==> pack.requires(chunk)
    requires forall chunk {:trigger pack(chunk)} :: |chunk| == 8 ==> |pack(chunk)| == 3
    requires forall w1, w2, w3 {:trigger unpack(w1, w2, w3)} :: |unpack(w1, w2, w3)| == 8
    requires forall chunk {:trigger pack(chunk)} :: |chunk| == 8 && Pixels12(chunk) ==>
      unpack(pack(chunk)[0], pack(chunk)[1], pack(chunk)[2]) == chunk
    ensures UnpackedBy(unpack, PackedBy(pack, px, n), n) == px
  {
    var out := UnpackedBy(unpack, PackedBy(pack, px, n), n);
    forall i | 0 <= i < |px|
      ensures out[i] == px[i]
    {
      var k, m := i / 8, i % 8;
      assert 8 * k + m == i && k < n;
      UnpackedByPackedByAt(pack, unpack, px, n, k, m);
    }
  }

  /** The pixels of the first `g` groups of the network-order words `ws`. */
  function Unpacked(ws: seq<bv32>, g: nat): (px: seq<bv16>)
    requires 3 * g <= |ws|
    ensures |px| == 8 * g
  {
    UnpackedBy(UnpackGroup, ws, g)
  }

  /** The network-order words that carry the pixels `px`, eight pixels to three words. */
  function Packed(px: seq<bv16>): (ws: seq<bv32>)
    requires |px| % 8 == 0
    ensures 8 * |ws| == 3 * |px|
  {
    PackedBy(PackGroup, px, |px| / 8)
  }

  /** Output pixel 8k + m comes from group k, that is from input words 3k, 3k + 1 and 3k + 2 only. */
  lemma UnpackedAt(ws: seq<bv32>, g: nat, k: nat, m: nat)
    requires 3 * g <= |ws| && k < g && m < 8
    ensures Unpacked(ws, g)[8 * k + m] == UnpackGroup(ws[3 * k], ws[3 * k + 1], ws[3 * k + 2])[m]
  {
    UnpackedByAt(UnpackGroup, ws, g, k, m);
  }

  /** Pixels 8k to 8k + 7 of the output are the group that words 3k, 3k + 1 and 3k + 2 unpack to. */
  lemma UnpackedGroup(ws: seq<bv32>, g: nat, k: nat)
    requires 3 * g <= |ws| && k < g
    ensures forall p :: 8 * k <= p < 8 * k + 8 ==> Unpacked(ws, g)[p] == UnpackGroup(ws[3 * k], ws[3 * k + 1], ws[3 * k + 2])[p - 8 * k]
  {
    forall p | 8 * k <= p < 8 * k + 8
      ensures Unpacked(ws, g)[p] == UnpackGroup(ws[3 * k], ws[3 * k + 1], ws[3 * k + 2])[p - 8 * k]
    {
      UnpackedAt(ws, g, k, p - 8 * k);
    }
  }

  /** Every unpacked pixel fits in 12 bits. */
  lemma UnpackedBelow4096(ws: seq<bv32>, g: nat)
    requires 3 * g <= |ws|
    ensures Pixels12(Unpacked(ws, g))
  {
    forall i | 0 <= i < 8 * g
      ensures Unpacked(ws, g)[i] < 4096
    {
      UnpackedAt(ws, g, i / 8, i % 8);
    }
  }

  /** Two inputs that agree on words 3k to 3k + 2 unpack to the same pixels 8k to 8k + 7. */
  lemma GroupLocality(ws: seq<bv32>, ws': seq<bv32>, g: nat, k: nat)
    requires 3 * g <= |ws| && 3 * g <= |ws'| && k < g
    requires ws[3 * k .. 3 * k + 3] == ws'[3 * k .. 3 * k + 3]
    ensures Unpacked(ws, g)[8 * k .. 8 * k + 8] == Unpacked(ws', g)[8 * k .. 8 * k + 8]
  {
    assert ws[3 * k] == ws'[3 * k] && ws[3 * k + 1] == ws'[3 * k + 1] && ws[3 * k + 2] == ws'[3 * k + 2] by {
      assert ws[3 * k .. 3 * k + 3][0] == ws'[3 * k .. 3 * k + 3][0];
      assert ws[3 * k .. 3 * k + 3][1] == ws'[3 * k .. 3 * k + 3][1];
      assert ws[3 * k .. 3 * k + 3][2] == ws'[3 * k .. 3 * k + 3][2];
    }
    var px, px' := Unpacked(ws, g)[8 * k .. 8 * k + 8], Unpacked(ws', g)[8 * k .. 8 * k + 8];
    forall m | 0 <= m < 8
      ensures px[m] == px'[m]
    {
      UnpackedAt(ws, g, k, m);
      UnpackedAt(ws', g, k, m);
    }
  }

  /** Unpacking `g` groups reads the input words 0 to 3g - 1 and nothing beyond them. */
  lemma UnpackedReadsPrefix(ws: seq<bv32>, g: nat)
    requires 3 * g <= |ws|
    ensures Unpacked(ws, g) == Unpacked(ws[..3 * g], g)
  {
    var px, px' := Unpacked(ws, g), Unpacked(ws[..3 * g], g);
    forall i | 0 <= i < 8 * g
      ensures px[i] == px'[i]
    {
      var k := i / 8;
      UnpackedAt(ws, g, k, i % 8);
      UnpackedAt(ws[..3 * g], g, k, i % 8);
      assert ws[..3 * g][3 * k] == ws[3 * k] && ws[..3 * g][3 * k + 1] == ws[3 * k + 1] && ws[..3 * g][3 * k + 2] == ws[3 * k + 2];
    }
  }

  /** Packing the unpacked pixels gives back the words read: no input bit is lost. */
  lemma PackedUnpacked(ws: seq<bv32>, g: nat)
    requires 3 * g <= |ws|
    ensures Packed(Unpacked(ws, g)) == ws[..3 * g]
  {
    var px := Unpacked(ws, g);
    assert |px| / 8 == g;
    forall w1, w2, w3 | true
      ensures PackGroup(UnpackGroup(w1, w2, w3)) == [w1, w2, w3]
    {
      PackUnpackGroup(w1, w2, w3);
    }
    PackedByUnpackedBy(PackGroup, UnpackGroup, ws, g);
    assert Packed(px) == PackedBy(PackGroup, px, g);
  }

  /** Unpacking the packed words gives back every 12-bit pixel. */
  lemma UnpackedPacked(px: seq<bv16>)
    requires |px| % 8 == 0
    requires Pixels12(px)
    ensures Unpacked(Packed(px), |px| / 8) == px
  {
    forall chunk | |chunk| == 8 && Pixels12(chunk)
      ensures UnpackGroup(PackGroup(chunk)[0], PackGroup(chunk)[1], PackGroup(chunk)[2]) == chunk
    {
      UnpackPackGroup(chunk);
    }
    UnpackedByPackedBy(PackGroup, UnpackGroup, px, |px| / 8);
  }

  /** The eight mask-and-shift expressions of unpack_p12l read pixels 0 to 7 off the byte-swapped stream. */
  lemma SourceMasks(tmp1: bv32, tmp2: bv32, tmp3: bv32)
    ensures (((tmp1 & 0x00F00000) >> 16) |
            ((tmp1 & 0x0F000000) >> 16) |
            ((tmp1 & 0xF0000000) >> 28)) as bv16 == StreamPixel(tmp1, tmp2, tmp3, 0)
    ensures (((tmp1 & 0x00000F00) >> 4) |
            ((tmp1 & 0x0000F000) >> 4) |
            ((tmp1 & 0x000F0000) >> 16)) as bv16 == StreamPixel(tmp1, tmp2, tmp3, 1)
    ensures (((tmp2 & 0xF0000000) >> 24) |
            ((tmp1 & 0x0000000F) << 8) |
            ((tmp1 & 0x000000F0) >> 4)) as bv16 == StreamPixel(tmp1, tmp2, tmp3, 2)
    ensures (((tmp2 & 0x000F0000) >> 12) |
            ((tmp2 & 0x00F00000) >> 12) |
            ((tmp2 & 0x0F000000) >> 24)) as bv16 == StreamPixel(tmp1, tmp2, tmp3, 3)
    ensures (((tmp2 & 0x000000F0)) |
            ((tmp2 & 0x00000F00)) |
            ((tmp2 & 0x0000F000) >> 12)) as bv16 == StreamPixel(tmp1, tmp2, tmp3, 4)
    ensures (((tmp3 & 0x0F000000) >> 20) |
            ((tmp3 & 0xF0000000) >> 20) |
            ((tmp2 & 0x0000000F))) as bv16 == StreamPixel(tmp1, tmp2, tmp3, 5)
    ensures (((tmp3 & 0x0000F000) >> 8) |
            ((tmp3 & 0x000F0000) >> 8) |
            ((tmp3 & 0x00F00000) >> 20)) as bv16 == StreamPixel(tmp1, tmp2, tmp3, 6)
    ensures (((tmp3 & 0x0000000F) << 4) |
            ((tmp3 & 0x000000F0) << 4) |
            ((tmp3 & 0x00000F00) >> 8)) as bv16 == StreamPixel(tmp1, tmp2, tmp3, 7)
  {
  }

  /**
   * The body of the unpack loop before its stores: the three words are
   * byte-swapped and cut into eight pixels with the plugin's masks and shifts,
   * which read exactly the pixels the packing places in the stream.
   */
  method SourcePixels(w1: bv32, w2: bv32, w3: bv32) returns (px: seq<bv16>)
    ensures px == UnpackGroup(w1, w2, w3)
  {
    var tmp1 := Ntohl(w1);
    var tmp2 := Ntohl(w2);
    var tmp3 := Ntohl(w3);

    var p0 := (((tmp1 & 0x00F00000) >> 16) |
              ((tmp1 & 0x0F000000) >> 16) |
              ((tmp1 & 0xF0000000) >> 28)) as bv16;

    var p1 := (((tmp1 & 0x00000F00) >> 4) |
              ((tmp1 & 0x0000F000) >> 4) |
              ((tmp1 & 0x000F0000) >> 16)) as bv16;

    var p2 := (((tmp2 & 0xF0000000) >> 24) |
              ((tmp1 & 0x0000000F) << 8) |
              ((tmp1 & 0x000000F0) >> 4)) as bv16;

    var p3 := (((tmp2 & 0x000F0000) >> 12) |
              ((tmp2 & 0x00F00000) >> 12) |
              ((tmp2 & 0x0F000000) >> 24)) as bv16;

    var p4 := (((tmp2 & 0x000000F0)) |
              ((tmp2 & 0x00000F00)) |
              ((tmp2 & 0x0000F000) >> 12)) as bv16;

    var p5 := (((tmp3 & 0x0F000000) >> 20) |
              ((tmp3 & 0xF0000000) >> 20) |
              ((tmp2 & 0x0000000F))) as bv16;

    var p6 := (((tmp3 & 0x0000F000) >> 8) |
              ((tmp3 & 0x000F0000) >> 8) |
              ((tmp3 & 0x00F00000) >> 20)) as bv16;

    var p7 := (((tmp3 & 0x0000000F) << 4) |
              ((tmp3 & 0x000000F0) << 4) |
              ((tmp3 & 0x00000F00) >> 8)) as bv16;

    SourceMasks(tmp1, tmp2, tmp3);
    px := [p0, p1, p2, p3, p4, p5, p6, p7];
  }

  /** The eight stores of one pass of the unpack loop: `px` lands at output[i..i + 8] and nothing else changes. */
  method StoreGroup(output: array<bv16>, i: nat, px: seq<bv16>)
    requires |px| == 8 && i + 8 <= output.Length
    modifies output
    ensures forall k :: 0 <= k < output.Length ==> output[k] == if i <= k < i + 8 then px[k - i] else old(output[k])
  {
    forall k | 0 <= k < 8 {
      output[i + k] := px[k];
    }
  }

  /** One pass of the unpack loop: group g of `input` becomes pixels 8g to 8g + 7 of the output of all `n` groups. */
  method UnpackStep(output: array<bv16>, input: array<bv32>, i: nat, j: nat, ghost g: nat, ghost n: nat)
    requires i == 8 * g && j == 3 * g && g < n && 3 * n <= input.Length && 8 * n <= output.Length
    modifies output
    ensures forall k :: 0 <= k < output.Length ==>
      output[k] == if i <= k < i + 8 then Unpacked(input[..], n)[k] else old(output[k])
  {
    var px := SourcePixels(input[j + 0], input[j + 1], input[j + 2]);
    UnpackedGroup(input[..], n, g);
    StoreGroup(output, i, px);
  }

  /**
   * unpack_p12l: for `numPixels` pixels, writes Groups(numPixels) whole groups
   * of eight pixels into `output`, reading three words of `input` per group.
   */
  method UnpackP12L(output: array<bv16>, input: array<bv32>, numPixels: nat)
    requires 3 * Groups(numPixels) <= input.Length
    requires 8 * Groups(numPixels) <= output.Length
    modifies output
    ensures output[..8 * Groups(numPixels)] == Unpacked(input[..], Groups(numPixels))
    ensures output[8 * Groups(numPixels)..] == old(output[8 * Groups(numPixels)..])
  {
    ghost var original, target := output[..], Unpacked(input[..], Groups(numPixels));
    ghost var g := 0;
    var i, j := 0, 0;
    while i < numPixels
      invariant i == 8 * g && j == 3 * g && g <= Groups(numPixels)
      invariant forall k :: 0 <= k < i ==> output[k] == target[k]
      invariant forall k :: i <= k < output.Length ==> output[k] == original[k]
    {
      UnpackStep(output, input, i, j, g, Groups(numPixels));
      g := g + 1;
      i, j := i + 8, j + 3;
    }
    assert g == Groups(numPixels);
  }
}

/** The eight words that every seeding of isaac.js starts from, worked out from the golden ratio. */
module IsaacStart {
  import opened Words
  import opened Isaac
  import opened IsaacSeed

  /** The largest g with g / 2^32 at most 1 / phi, for which g (g + 2^32) = 2^64 would be exact. */
  lemma GoldenRatio()
    ensures var g := GOLDEN as int;
            g * (g + 0x1_0000_0000) <= 0x1_0000_0000_0000_0000 < (g + 1) * (g + 1 + 0x1_0000_0000)
  {
  }

  /** Lines 0 to 3 of the mixer, and lines 4 to 7. */
  function FirstLines(v: Eight): Eight {
    Line(3, Line(2, Line(1, Line(0, v))))
  }

  function LastLines(v: Eight): Eight {
    Line(7, Line(6, Line(5, Line(4, v))))
  }

  lemma MixInHalves(v: Eight)
    ensures SeedMix(v) == LastLines(FirstLines(v))
  {
    SeedMixIsLines(v);
    hide Line, SeedMix;
    AllLinesInHalves(v);
  }

  lemma AllLinesInHalves(v: Eight)
    ensures AllLines(v) == LastLines(FirstLines(v))
  {
    hide Line;
    var v4 := FirstLines(v);
    assert LinesFrom(4, v4) == LastLines(v4);
  }

  lemma Half1()
    ensures FirstLines(Eight(0x9e3779b9, 0x9e3779b9, 0x9e3779b9, 0x9e3779b9,
                         0x9e3779b9, 0x9e3779b9, 0x9e3779b9, 0x9e3779b9))
         == Eight(0xa894f7b9, 0xee7a50e4, 0x1c83e216, 0x9e3779b9,
                  0x25fab1b9, 0x1be32d1c, 0x5042d72b, 0x7e4c685d)
  {
    assert Line(0, Eight(0x9e3779b9, 0x9e3779b9, 0x9e3779b9, 0x9e3779b9,
                          0x9e3779b9, 0x9e3779b9, 0x9e3779b9, 0x9e3779b9))
        == Eight(0x3c6ef372, 0x9e3779b9, 0xc4322b72, 0x9e3779b9,
                 0x9e3779b9, 0x9e3779b9, 0x9e3779b9, 0x25fab1b9);
    assert Line(1, Eight(0x3c6ef372, 0x9e3779b9, 0xc4322b72, 0x9e3779b9,
                          0x9e3779b9, 0x9e3779b9, 0x9e3779b9, 0x25fab1b9))
        == Eight(0x6269a52b, 0xc4322b72, 0xba1aa6d5, 0x9e3779b9,
                 0x9e3779b9, 0x9e3779b9, 0x25fab1b9, 0x1be32d1c);
    assert Line(2, Eight(0x6269a52b, 0xc4322b72, 0xba1aa6d5, 0x9e3779b9,
                          0x9e3779b9, 0x9e3779b9, 0x25fab1b9, 0x1be32d1c))
        == Eight(0x7e4cd247, 0xba1aa6d5, 0xee7a50e4, 0x9e3779b9,
                 0x9e3779b9, 0x25fab1b9, 0x1be32d1c, 0x5042d72b);
    assert Line(3, Eight(0x7e4cd247, 0xba1aa6d5, 0xee7a50e4, 0x9e3779b9,
                          0x9e3779b9, 0x25fab1b9, 0x1be32d1c, 0x5042d72b))
        == Eight(0xa894f7b9, 0xee7a50e4, 0x1c83e216, 0x9e3779b9,
                 0x25fab1b9, 0x1be32d1c, 0x5042d72b, 0x7e4c685d);
    hide Line;
  }

  lemma Half2()
    ensures LastLines(Eight(0xa894f7b9, 0xee7a50e4, 0x1c83e216, 0x9e3779b9,
                        0x25fab1b9, 0x1be32d1c, 0x5042d72b, 0x7e4c685d))
         == Eight(0x3f879d38, 0x0e56dea4, 0x616a0f84, 0x7e4c685d,
                  0x41d767b9, 0x0b360cdb, 0xf273b188, 0x11273859)
  {
    assert Line(4, Eight(0xa894f7b9, 0xee7a50e4, 0x1c83e216, 0x9e3779b9,
                          0x25fab1b9, 0x1be32d1c, 0x5042d72b, 0x7e4c685d))
        == Eight(0x0afe32fa, 0x1c83e216, 0xe00ee172, 0x25fab1b9,
                 0x1be32d1c, 0x5042d72b, 0x7e4c685d, 0x41d767b9);
    assert Line(5, Eight(0x0afe32fa, 0x1c83e216, 0xe00ee172, 0x25fab1b9,
                          0x1be32d1c, 0x5042d72b, 0x7e4c685d, 0x41d767b9))
        == Eight(0xfc92c388, 0xe00ee172, 0x3130be94, 0x1be32d1c,
                 0x5042d72b, 0x7e4c685d, 0x41d767b9, 0x0b360cdb);
    assert Line(6, Eight(0xfc92c388, 0xe00ee172, 0x3130be94, 0x1be32d1c,
                          0x5042d72b, 0x7e4c685d, 0x41d767b9, 0x0b360cdb))
        == Eight(0x113fa006, 0x3130be94, 0x0e56dea4, 0x5042d72b,
                 0x7e4c685d, 0x41d767b9, 0x0b360cdb, 0xf273b188);
    assert Line(7, Eight(0x113fa006, 0x3130be94, 0x0e56dea4, 0x5042d72b,
                          0x7e4c685d, 0x41d767b9, 0x0b360cdb, 0xf273b188))
        == Eight(0x3f879d38, 0x0e56dea4, 0x616a0f84, 0x7e4c685d,
                 0x41d767b9, 0x0b360cdb, 0xf273b188, 0x11273859);
    hide Line;
  }

  lemma Half3()
    ensures FirstLines(Eight(0x3f879d38, 0x0e56dea4, 0x616a0f84, 0x7e4c685d,
                         0x41d767b9, 0x0b360cdb, 0xf273b188, 0x11273859))
         == Eight(0x9ab48276, 0xe142acf4, 0xb3a3f3ee, 0x11273859,
                  0x8972bd38, 0x779a6dc9, 0xd60ca019, 0xc1304266)
  {
    assert Line(0, Eight(0x3f879d38, 0x0e56dea4, 0x616a0f84, 0x7e4c685d,
                          0x41d767b9, 0x0b360cdb, 0xf273b188, 0x11273859))
        == Eight(0x6fc0ee28, 0x616a0f84, 0x07bf2595, 0x41d767b9,
                 0x0b360cdb, 0xf273b188, 0x11273859, 0x8972bd38);
    assert Line(1, Eight(0x6fc0ee28, 0x616a0f84, 0x07bf2595, 0x41d767b9,
                          0x0b360cdb, 0xf273b188, 0x11273859, 0x8972bd38))
        == Eight(0x69293519, 0x07bf2595, 0xb971d582, 0x0b360cdb,
                 0xf273b188, 0x11273859, 0x8972bd38, 0x779a6dc9);
    assert Line(2, Eight(0x69293519, 0x07bf2595, 0xb971d582, 0x0b360cdb,
                          0xf273b188, 0x11273859, 0x8972bd38, 0x779a6dc9))
        == Eight(0xc130fb17, 0xb971d582, 0xe142acf4, 0xf273b188,
                 0x11273859, 0x8972bd38, 0x779a6dc9, 0xd60ca019);
    assert Line(3, Eight(0xc130fb17, 0xb971d582, 0xe142acf4, 0xf273b188,
                          0x11273859, 0x8972bd38, 0x779a6dc9, 0xd60ca019))
        == Eight(0x9ab48276, 0xe142acf4, 0xb3a3f3ee, 0x11273859,
                 0x8972bd38, 0x779a6dc9, 0xd60ca019, 0xc1304266);
    hide Line;
  }

  lemma Half4()
    ensures LastLines(Eight(0x9ab48276, 0xe142acf4, 0xb3a3f3ee, 0x11273859,
                        0x8972bd38, 0x779a6dc9, 0xd60ca019, 0xc1304266))
         == Eight(0x1b427c9a, 0xf1f31f86, 0xa075e066, 0xc1304266,
                  0x90075276, 0x9fdc9fdc, 0x7a58b1bd, 0xca69404d)
  {
    assert Line(4, Eight(0x9ab48276, 0xe142acf4, 0xb3a3f3ee, 0x11273859,
                          0x8972bd38, 0x779a6dc9, 0xd60ca019, 0xc1304266))
        == Eight(0x94e6a0e2, 0xb3a3f3ee, 0xa12e8acf, 0x8972bd38,
                 0x779a6dc9, 0xd60ca019, 0xc1304266, 0x90075276);
    assert Line(5, Eight(0x94e6a0e2, 0xb3a3f3ee, 0xa12e8acf, 0x8972bd38,
                          0x779a6dc9, 0xd60ca019, 0xc1304266, 0x90075276))
        == Eight(0x54d27ebd, 0xa12e8acf, 0x294f5d14, 0x779a6dc9,
                 0xd60ca019, 0xc1304266, 0x90075276, 0x9fdc9fdc);
    assert Line(6, Eight(0x54d27ebd, 0xa12e8acf, 0x294f5d14, 0x779a6dc9,
                          0xd60ca019, 0xc1304266, 0x90075276, 0x9fdc9fdc))
        == Eight(0xca7de7e3, 0x294f5d14, 0xf1f31f86, 0xd60ca019,
                 0xc1304266, 0x90075276, 0x9fdc9fdc, 0x7a58b1bd);
    assert Line(7, Eight(0xca7de7e3, 0x294f5d14, 0xf1f31f86, 0xd60ca019,
                          0xc1304266, 0x90075276, 0x9fdc9fdc, 0x7a58b1bd))
        == Eight(0x1b427c9a, 0xf1f31f86, 0xa075e066, 0xc1304266,
                 0x90075276, 0x9fdc9fdc, 0x7a58b1bd, 0xca69404d);
    hide Line;
  }

  lemma Half5()
    ensures FirstLines(Eight(0x1b427c9a, 0xf1f31f86, 0xa075e066, 0xc1304266,
                         0x90075276, 0x9fdc9fdc, 0x7a58b1bd, 0xca69404d))
         == Eight(0xf644e9ad, 0xabc80f42, 0x09c3d4d4, 0xca69404d,
                  0x83be4c9a, 0xba7587f5, 0x0beb6f66, 0x8f6b2317)
  {
    assert Line(0, Eight(0x1b427c9a, 0xf1f31f86, 0xa075e066, 0xc1304266,
                          0x90075276, 0x9fdc9fdc, 0x7a58b1bd, 0xca69404d))
        == Eight(0x9268ffec, 0xa075e066, 0x44ee8f00, 0x90075276,
                 0x9fdc9fdc, 0x7a58b1bd, 0xca69404d, 0x83be4c9a);
    assert Line(1, Eight(0x9268ffec, 0xa075e066, 0x44ee8f00, 0x90075276,
                          0x9fdc9fdc, 0x7a58b1bd, 0xca69404d, 0x83be4c9a))
        == Eight(0xe5646f66, 0x44ee8f00, 0x4a7cda6b, 0x9fdc9fdc,
                 0x7a58b1bd, 0xca69404d, 0x83be4c9a, 0xba7587f5);
    assert Line(2, Eight(0xe5646f66, 0x44ee8f00, 0x4a7cda6b, 0x9fdc9fdc,
                          0x7a58b1bd, 0xca69404d, 0x83be4c9a, 0xba7587f5))
        == Eight(0x8f6b696b, 0x4a7cda6b, 0xabc80f42, 0x7a58b1bd,
                 0xca69404d, 0x83be4c9a, 0xba7587f5, 0x0beb6f66);
    assert Line(3, Eight(0x8f6b696b, 0x4a7cda6b, 0xabc80f42, 0x7a58b1bd,
                          0xca69404d, 0x83be4c9a, 0xba7587f5, 0x0beb6f66))
        == Eight(0xf644e9ad, 0xabc80f42, 0x09c3d4d4, 0xca69404d,
                 0x83be4c9a, 0xba7587f5, 0x0beb6f66, 0x8f6b2317);
    hide Line;
  }

  lemma Half6()
    ensures LastLines(Eight(0xf644e9ad, 0xabc80f42, 0x09c3d4d4, 0xca69404d,
                        0x83be4c9a, 0xba7587f5, 0x0beb6f66, 0x8f6b2317))
         == Eight(0x3cd2bab8, 0x03fc94c3, 0xe5909c63, 0x8f6b2317,
                  0xd679e1ad, 0xb517d95b, 0x49870cce, 0xd9a52cfd)
  {
    assert Line(4, Eight(0xf644e9ad, 0xabc80f42, 0x09c3d4d4, 0xca69404d,
                          0x83be4c9a, 0xba7587f5, 0x0beb6f66, 0x8f6b2317))
        == Eight(0xb58be416, 0x09c3d4d4, 0xa0e321fa, 0x83be4c9a,
                 0xba7587f5, 0x0beb6f66, 0x8f6b2317, 0xd679e1ad);
    assert Line(5, Eight(0xb58be416, 0x09c3d4d4, 0xa0e321fa, 0x83be4c9a,
                          0xba7587f5, 0x0beb6f66, 0x8f6b2317, 0xd679e1ad))
        == Eight(0xaaa6f6ce, 0xa0e321fa, 0x38d625f5, 0xba7587f5,
                 0x0beb6f66, 0x8f6b2317, 0xd679e1ad, 0xb517d95b);
    assert Line(6, Eight(0xaaa6f6ce, 0xa0e321fa, 0x38d625f5, 0xba7587f5,
                          0x0beb6f66, 0x8f6b2317, 0xd679e1ad, 0xb517d95b))
        == Eight(0xd9b947ef, 0x38d625f5, 0x03fc94c3, 0x0beb6f66,
                 0x8f6b2317, 0xd679e1ad, 0xb517d95b, 0x49870cce);
    assert Line(7, Eight(0xd9b947ef, 0x38d625f5, 0x03fc94c3, 0x0beb6f66,
                          0x8f6b2317, 0xd679e1ad, 0xb517d95b, 0x49870cce))
        == Eight(0x3cd2bab8, 0x03fc94c3, 0xe5909c63, 0x8f6b2317,
                 0xd679e1ad, 0xb517d95b, 0x49870cce, 0xd9a52cfd);
    hide Line;
  }

  lemma Half7()
    ensures FirstLines(Eight(0x3cd2bab8, 0x03fc94c3, 0xe5909c63, 0x8f6b2317,
                         0xd679e1ad, 0xb517d95b, 0x49870cce, 0xd9a52cfd))
         == Eight(0xef307e78, 0x47cd868d, 0x58c927a6, 0xd9a52cfd,
                  0xd874a2b8, 0xd0e9163e, 0x92b5ad32, 0x0f421ad8)
  {
    assert Line(0, Eight(0x3cd2bab8, 0x03fc94c3, 0xe5909c63, 0x8f6b2317,
                          0xd679e1ad, 0xb517d95b, 0x49870cce, 0xd9a52cfd))
        == Eight(0xe98d3126, 0xe5909c63, 0x67dfc5cf, 0xd679e1ad,
                 0xb517d95b, 0x49870cce, 0xd9a52cfd, 0xd874a2b8);
    assert Line(1, Eight(0xe98d3126, 0xe5909c63, 0x67dfc5cf, 0xd679e1ad,
                          0xb517d95b, 0x49870cce, 0xd9a52cfd, 0xd874a2b8))
        == Eight(0x4d706232, 0x67dfc5cf, 0xa762f7eb, 0xb517d95b,
                 0x49870cce, 0xd9a52cfd, 0xd874a2b8, 0xd0e9163e);
    assert Line(2, Eight(0x4d706232, 0x67dfc5cf, 0xa762f7eb, 0xb517d95b,
                          0x49870cce, 0xd9a52cfd, 0xd874a2b8, 0xd0e9163e))
        == Eight(0x0f42bdba, 0xa762f7eb, 0x47cd868d, 0x49870cce,
                 0xd9a52cfd, 0xd874a2b8, 0xd0e9163e, 0x92b5ad32);
    assert Line(3, Eight(0x0f42bdba, 0xa762f7eb, 0x47cd868d, 0x49870cce,
                          0xd9a52cfd, 0xd874a2b8, 0xd0e9163e, 0x92b5ad32))
        == Eight(0xef307e78, 0x47cd868d, 0x58c927a6, 0xd9a52cfd,
                 0xd874a2b8, 0xd0e9163e, 0x92b5ad32, 0x0f421ad8);
    hide Line;
  }

  lemma Half8()
    ensures LastLines(Eight(0xef307e78, 0x47cd868d, 0x58c927a6, 0xd9a52cfd,
                        0xd874a2b8, 0xd0e9163e, 0x92b5ad32, 0x0f421ad8))
         == Eight(0x1367df5a, 0x95d90059, 0xc3163e4b, 0x0f421ad8,
                  0xd92a4a78, 0xa51a3c49, 0xc4efea1b, 0x30609119)
  {
    assert Line(4, Eight(0xef307e78, 0x47cd868d, 0x58c927a6, 0xd9a52cfd,
                          0xd874a2b8, 0xd0e9163e, 0x92b5ad32, 0x0f421ad8))
        == Eight(0xa096ae33, 0x58c927a6, 0xb2cf7775, 0xd874a2b8,
                 0xd0e9163e, 0x92b5ad32, 0x0f421ad8, 0xd92a4a78);
    assert Line(5, Eight(0xa096ae33, 0x58c927a6, 0xb2cf7775, 0xd874a2b8,
                          0xd0e9163e, 0x92b5ad32, 0x0f421ad8, 0xd92a4a78))
        == Eight(0x0b989f1b, 0xb2cf7775, 0x7d8edf01, 0xd0e9163e,
                 0x92b5ad32, 0x0f421ad8, 0xd92a4a78, 0xa51a3c49);
    assert Line(6, Eight(0x0b989f1b, 0xb2cf7775, 0x7d8edf01, 0xd0e9163e,
                          0x92b5ad32, 0x0f421ad8, 0xd92a4a78, 0xa51a3c49))
        == Eight(0x305e5676, 0x7d8edf01, 0x95d90059, 0x92b5ad32,
                 0x0f421ad8, 0xd92a4a78, 0xa51a3c49, 0xc4efea1b);
    assert Line(7, Eight(0x305e5676, 0x7d8edf01, 0x95d90059, 0x92b5ad32,
                          0x0f421ad8, 0xd92a4a78, 0xa51a3c49, 0xc4efea1b))
        == Eight(0x1367df5a, 0x95d90059, 0xc3163e4b, 0x0f421ad8,
                 0xd92a4a78, 0xa51a3c49, 0xc4efea1b, 0x30609119);
    hide Line;
  }

  /** The words that are left after the four scrambling mixes. */
  lemma ScrambledValues()
    ensures Scrambled() == Eight(0x1367df5a, 0x95d90059, 0xc3163e4b, 0x0f421ad8,
                                 0xd92a4a78, 0xa51a3c49, 0xc4efea1b, 0x30609119)
  {
    hide SeedMix, FirstLines, LastLines;
    Half1();
    Half2();
    Half3();
    Half4();
    Half5();
    Half6();
    Half7();
    Half8();
    MixInHalves(Eight(GOLDEN, GOLDEN, GOLDEN, GOLDEN, GOLDEN, GOLDEN, GOLDEN, GOLDEN));
    MixInHalves(Eight(0x3f879d38, 0x0e56dea4, 0x616a0f84, 0x7e4c685d,
                      0x41d767b9, 0x0b360cdb, 0xf273b188, 0x11273859));
    MixInHalves(Eight(0x1b427c9a, 0xf1f31f86, 0xa075e066, 0xc1304266,
                      0x90075276, 0x9fdc9fdc, 0x7a58b1bd, 0xca69404d));
    MixInHalves(Eight(0x3cd2bab8, 0x03fc94c3, 0xe5909c63, 0x8f6b2317,
                      0xd679e1ad, 0xb517d95b, 0x49870cce, 0xd9a52cfd));
  }
}

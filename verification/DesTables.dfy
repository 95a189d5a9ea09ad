/** The tables of the Data Encryption Standard (FIPS PUB 46), row by row as the program lays them out. */
module DesTables {
  type Place = v: int | 1 <= v <= 64 witness 1
  type Half = v: int | 1 <= v <= 32 witness 1
  type Left = v: int | 1 <= v <= 28 witness 1
  type Right = v: int | 29 <= v <= 56 witness 29
  type Nibble = v: int | 0 <= v < 16
  type Shift = v: int | 1 <= v <= 2 witness 1

  /** Initial permutation. */
  const IP: seq<seq<Place>> := [
    [58, 50, 42, 34, 26, 18, 10, 2],
    [60, 52, 44, 36, 28, 20, 12, 4],
    [62, 54, 46, 38, 30, 22, 14, 6],
    [64, 56, 48, 40, 32, 24, 16, 8],
    [57, 49, 41, 33, 25, 17, 9, 1],
    [59, 51, 43, 35, 27, 19, 11, 3],
    [61, 53, 45, 37, 29, 21, 13, 5],
    [63, 55, 47, 39, 31, 23, 15, 7]
  ]

  /** Final permutation. */
  const FP: seq<seq<Place>> := [
    [40, 8, 48, 16, 56, 24, 64, 32],
    [39, 7, 47, 15, 55, 23, 63, 31],
    [38, 6, 46, 14, 54, 22, 62, 30],
    [37, 5, 45, 13, 53, 21, 61, 29],
    [36, 4, 44, 12, 52, 20, 60, 28],
    [35, 3, 43, 11, 51, 19, 59, 27],
    [34, 2, 42, 10, 50, 18, 58, 26],
    [33, 1, 41, 9, 49, 17, 57, 25]
  ]

  /** Permuted choice 1, the half that gives C. */
  const PC1_C: seq<seq<Place>> := [
    [57, 49, 41, 33, 25, 17, 9],
    [1, 58, 50, 42, 34, 26, 18],
    [10, 2, 59, 51, 43, 35, 27],
    [19, 11, 3, 60, 52, 44, 36]
  ]

  /** Permuted choice 1, the half that gives D. */
  const PC1_D: seq<seq<Place>> := [
    [63, 55, 47, 39, 31, 23, 15],
    [7, 62, 54, 46, 38, 30, 22],
    [14, 6, 61, 53, 45, 37, 29],
    [21, 13, 5, 28, 20, 12, 4]
  ]

  /** Shifts of the key schedule. */
  const SHIFTS: seq<seq<Shift>> := [
    [1, 1, 2, 2, 2, 2, 2, 2],
    [1, 2, 2, 2, 2, 2, 2, 1]
  ]

  /** Permuted choice 2, the part taken from C. */
  const PC2_C: seq<seq<Left>> := [
    [14, 17, 11, 24, 1, 5],
    [3, 28, 15, 6, 21, 10],
    [23, 19, 12, 4, 26, 8],
    [16, 7, 27, 20, 13, 2]
  ]

  /** Permuted choice 2, the part taken from D. */
  const PC2_D: seq<seq<Right>> := [
    [41, 52, 31, 37, 47, 55],
    [30, 40, 51, 45, 33, 48],
    [44, 49, 39, 56, 34, 53],
    [46, 42, 50, 36, 29, 32]
  ]

  /** The standard bit selection; salt exchanges entries of it. */
  const E0: seq<seq<Half>> := [
    [32, 1, 2, 3, 4, 5],
    [4, 5, 6, 7, 8, 9],
    [8, 9, 10, 11, 12, 13],
    [12, 13, 14, 15, 16, 17],
    [16, 17, 18, 19, 20, 21],
    [20, 21, 22, 23, 24, 25],
    [24, 25, 26, 27, 28, 29],
    [28, 29, 30, 31, 32, 1]
  ]

  /** Permutation of the selected bits. */
  const P: seq<seq<Half>> := [
    [16, 7, 20, 21],
    [29, 12, 28, 17],
    [1, 15, 23, 26],
    [5, 18, 31, 10],
    [2, 8, 24, 14],
    [32, 27, 3, 9],
    [19, 13, 30, 6],
    [22, 11, 4, 25]
  ]

  /** The selection functions, four rows each. */
  const S: seq<seq<seq<Nibble>>> := [
    [
      [14, 4, 13, 1, 2, 15, 11, 8, 3, 10, 6, 12, 5, 9, 0, 7],
      [0, 15, 7, 4, 14, 2, 13, 1, 10, 6, 12, 11, 9, 5, 3, 8],
      [4, 1, 14, 8, 13, 6, 2, 11, 15, 12, 9, 7, 3, 10, 5, 0],
      [15, 12, 8, 2, 4, 9, 1, 7, 5, 11, 3, 14, 10, 0, 6, 13]
    ],
    [
      [15, 1, 8, 14, 6, 11, 3, 4, 9, 7, 2, 13, 12, 0, 5, 10],
      [3, 13, 4, 7, 15, 2, 8, 14, 12, 0, 1, 10, 6, 9, 11, 5],
      [0, 14, 7, 11, 10, 4, 13, 1, 5, 8, 12, 6, 9, 3, 2, 15],
      [13, 8, 10, 1, 3, 15, 4, 2, 11, 6, 7, 12, 0, 5, 14, 9]
    ],
    [
      [10, 0, 9, 14, 6, 3, 15, 5, 1, 13, 12, 7, 11, 4, 2, 8],
      [13, 7, 0, 9, 3, 4, 6, 10, 2, 8, 5, 14, 12, 11, 15, 1],
      [13, 6, 4, 9, 8, 15, 3, 0, 11, 1, 2, 12, 5, 10, 14, 7],
      [1, 10, 13, 0, 6, 9, 8, 7, 4, 15, 14, 3, 11, 5, 2, 12]
    ],
    [
      [7, 13, 14, 3, 0, 6, 9, 10, 1, 2, 8, 5, 11, 12, 4, 15],
      [13, 8, 11, 5, 6, 15, 0, 3, 4, 7, 2, 12, 1, 10, 14, 9],
      [10, 6, 9, 0, 12, 11, 7, 13, 15, 1, 3, 14, 5, 2, 8, 4],
      [3, 15, 0, 6, 10, 1, 13, 8, 9, 4, 5, 11, 12, 7, 2, 14]
    ],
    [
      [2, 12, 4, 1, 7, 10, 11, 6, 8, 5, 3, 15, 13, 0, 14, 9],
      [14, 11, 2, 12, 4, 7, 13, 1, 5, 0, 15, 10, 3, 9, 8, 6],
      [4, 2, 1, 11, 10, 13, 7, 8, 15, 9, 12, 5, 6, 3, 0, 14],
      [11, 8, 12, 7, 1, 14, 2, 13, 6, 15, 0, 9, 10, 4, 5, 3]
    ],
    [
      [12, 1, 10, 15, 9, 2, 6, 8, 0, 13, 3, 4, 14, 7, 5, 11],
      [10, 15, 4, 2, 7, 12, 9, 5, 6, 1, 13, 14, 0, 11, 3, 8],
      [9, 14, 15, 5, 2, 8, 12, 3, 7, 0, 4, 10, 1, 13, 11, 6],
      [4, 3, 2, 12, 9, 5, 15, 10, 11, 14, 1, 7, 6, 0, 8, 13]
    ],
    [
      [4, 11, 2, 14, 15, 0, 8, 13, 3, 12, 9, 7, 5, 10, 6, 1],
      [13, 0, 11, 7, 4, 9, 1, 10, 14, 3, 5, 12, 2, 15, 8, 6],
      [1, 4, 11, 13, 12, 3, 7, 14, 10, 15, 6, 8, 0, 5, 9, 2],
      [6, 11, 13, 8, 1, 4, 10, 7, 9, 5, 0, 15, 14, 2, 3, 12]
    ],
    [
      [13, 2, 8, 4, 6, 15, 11, 1, 10, 9, 3, 14, 5, 0, 12, 7],
      [1, 15, 13, 8, 10, 3, 7, 4, 12, 5, 6, 11, 0, 14, 9, 2],
      [7, 11, 4, 1, 9, 12, 14, 2, 0, 6, 10, 13, 15, 3, 5, 8],
      [2, 1, 14, 7, 4, 10, 8, 13, 15, 12, 9, 0, 3, 5, 6, 11]
    ]
  ]

  lemma Shape()
    ensures |IP| == 8 && |FP| == 8 && (forall r :: 0 <= r < 8 ==> |IP[r]| == 8 && |FP[r]| == 8)
    ensures |E0| == 8 && |P| == 8 && (forall r :: 0 <= r < 8 ==> |E0[r]| == 6 && |P[r]| == 4)
  {
  }

  lemma KeyShape()
    ensures |PC1_C| == 4 && |PC1_D| == 4 && (forall r :: 0 <= r < 4 ==> |PC1_C[r]| == 7 && |PC1_D[r]| == 7)
    ensures |PC2_C| == 4 && |PC2_D| == 4 && (forall r :: 0 <= r < 4 ==> |PC2_C[r]| == 6 && |PC2_D[r]| == 6)
    ensures |SHIFTS| == 2 && (forall r :: 0 <= r < 2 ==> |SHIFTS[r]| == 8)
  {
  }

  lemma BoxShape(b: nat)
    requires b < 8
    ensures |S| == 8 && |S[b]| == 4 && forall r :: 0 <= r < 4 ==> |S[b][r]| == 16
  {
  }

  function Ip(j: nat): Place
    requires j < 64
  {
    Shape();
    IP[j / 8][j % 8]
  }

  function Fp(j: nat): Place
    requires j < 64
  {
    Shape();
    FP[j / 8][j % 8]
  }

  function Pc1C(j: nat): Place
    requires j < 28
  {
    KeyShape();
    PC1_C[j / 7][j % 7]
  }

  function Pc1D(j: nat): Place
    requires j < 28
  {
    KeyShape();
    PC1_D[j / 7][j % 7]
  }

  function Pc2C(j: nat): Left
    requires j < 24
  {
    KeyShape();
    PC2_C[j / 6][j % 6]
  }

  function Pc2D(j: nat): Right
    requires j < 24
  {
    KeyShape();
    PC2_D[j / 6][j % 6]
  }

  function Shifts(i: nat): Shift
    requires i < 16
  {
    KeyShape();
    SHIFTS[i / 8][i % 8]
  }

  function Standard(j: nat): Half
    requires j < 48
  {
    Shape();
    E0[j / 6][j % 6]
  }

  function Mixed(j: nat): Half
    requires j < 32
  {
    Shape();
    P[j / 4][j % 4]
  }

  function Box(b: nat, k: nat): Nibble
    requires b < 8 && k < 64
  {
    BoxShape(b);
    S[b][k / 16][k % 16]
  }

  lemma IpAt(r: nat, c: nat)
    requires r < 8 && c < 8
    ensures |IP| == 8 && |IP[r]| == 8 && IP[r][c] == (if r < 4 then 58 + 2 * r else 49 + 2 * r) - 8 * c
  {
  }

  lemma FpAt(r: nat, c: nat)
    requires r < 8 && c < 8
    ensures |FP| == 8 && |FP[r]| == 8 && FP[r][c] == (if c % 2 == 0 then 40 + 4 * c else 4 * c + 4) - r
  {
  }

  lemma IpIs(r: nat, c: nat)
    requires r < 8 && c < 8
    ensures Ip(8 * r + c) == (if r < 4 then 58 + 2 * r else 49 + 2 * r) - 8 * c
  {
    IpAt(r, c);
    assert (8 * r + c) / 8 == r && (8 * r + c) % 8 == c;
  }

  lemma FpIs(r: nat, c: nat)
    requires r < 8 && c < 8
    ensures Fp(8 * r + c) == (if c % 2 == 0 then 40 + 4 * c else 4 * c + 4) - r
  {
    FpAt(r, c);
    assert (8 * r + c) / 8 == r && (8 * r + c) % 8 == c;
  }

  /** FP is the inverse of IP. */
  lemma Inverse(j: nat)
    requires j < 64
    ensures Ip(Fp(j) - 1) == j + 1 && Fp(Ip(j) - 1) == j + 1
  {
    var r, c := j / 8, j % 8;
    assert j == 8 * r + c && r < 8;
    ThereAndBack(r, c);
    BackAndThere(r, c);
  }

  lemma ThereAndBack(r: nat, c: nat)
    requires r < 8 && c < 8
    ensures Ip(Fp(8 * r + c) - 1) == 8 * r + c + 1
  {
    hide Ip, Fp;
    FpIs(r, c);
    var h := c / 2;
    IpIs(if c == 2 * h then 4 + h else h, 7 - r);
  }

  lemma BackAndThere(r: nat, c: nat)
    requires r < 8 && c < 8
    ensures Fp(Ip(8 * r + c) - 1) == 8 * r + c + 1
  {
    hide Ip, Fp;
    IpIs(r, c);
    FpIs(7 - c, if r < 4 then 2 * r + 1 else 2 * (r - 4));
  }

  // ----- laws of the tables -----

  /** Permuted choice 1 takes every place but each eighth, and none twice. */
  lemma FirstChoice(j: nat)
    requires j < 28
    ensures Pc1C(j) == 57 - 8 * (j % 8) + j / 8
    ensures Pc1D(j) == if j < 24 then 63 - 8 * (j % 8) - j / 8 else 28 - 8 * (j - 24)
  {
    FirstChoiceAt(j / 7, j % 7);
  }

  lemma FirstChoiceAt(r: nat, c: nat)
    requires r < 4 && c < 7
    ensures |PC1_C| == 4 && |PC1_C[r]| == 7 && |PC1_D| == 4 && |PC1_D[r]| == 7
    ensures var j := 7 * r + c;
            && PC1_C[r][c] == 57 - 8 * (j % 8) + j / 8
            && PC1_D[r][c] == if j < 24 then 63 - 8 * (j % 8) - j / 8 else 28 - 8 * (j - 24)
  {
  }

  /** Where a place stands in P, and in the two parts of permuted choice 2. */
  const UNMIXED: seq<nat> := [
    8, 16, 22, 30, 12, 27, 1, 17, 23, 15, 29, 5, 25, 19, 9, 0,
    7, 13, 24, 2, 3, 28, 10, 18, 31, 11, 21, 6, 4, 26, 14, 20
  ]
  const CHOSEN_C: seq<nat> := [
    4, 23, 6, 15, 5, 9, 19, 17, 0, 11, 2, 14, 22, 0,
    8, 18, 1, 0, 13, 21, 10, 0, 12, 3, 0, 16, 20, 7
  ]
  const CHOSEN_D: seq<nat> := [
    22, 6, 2, 23, 10, 16, 0, 21, 3, 0, 14, 7, 0, 19,
    0, 12, 9, 18, 4, 11, 13, 20, 8, 1, 17, 0, 5, 15
  ]

  lemma MixedOnce(r: nat, c: nat)
    requires r < 8 && c < 4
    ensures |UNMIXED| == 32 && |P| == 8 && |P[r]| == 4 && UNMIXED[P[r][c] - 1] == 4 * r + c
  {
  }

  lemma ChoiceOnce(r: nat, c: nat)
    requires r < 4 && c < 6
    ensures |CHOSEN_C| == |CHOSEN_D| == 28
    ensures |PC2_C| == |PC2_D| == 4 && |PC2_C[r]| == |PC2_D[r]| == 6
    ensures CHOSEN_C[PC2_C[r][c] - 1] == CHOSEN_D[PC2_D[r][c] - 29] == 6 * r + c
  {
  }

  /** P, and either part of permuted choice 2, take no place twice. */
  lemma NoneTwice(i: nat, j: nat)
    requires i < j
    ensures j < 32 ==> Mixed(i) != Mixed(j)
    ensures j < 24 ==> Pc2C(i) != Pc2C(j) && Pc2D(i) != Pc2D(j)
  {
    hide P, PC2_C, PC2_D, UNMIXED, CHOSEN_C, CHOSEN_D;
    if j < 32 {
      MixedOnce(i / 4, i % 4);
      MixedOnce(j / 4, j % 4);
    }
    if j < 24 {
      ChoiceOnce(i / 6, i % 6);
      ChoiceOnce(j / 6, j % 6);
    }
  }

  predicate EveryNibble(row: seq<Nibble>) {
    && |row| == 16
    && 0 in row && 1 in row && 2 in row && 3 in row && 4 in row && 5 in row && 6 in row && 7 in row
    && 8 in row && 9 in row && 10 in row && 11 in row && 12 in row && 13 in row && 14 in row && 15 in row
  }

  /** Each of the four rows of each box holds every nibble, and so each just once. */
  lemma RowsHoldAll(b: nat, r: nat)
    requires b < 8 && r < 4
    ensures |S| == 8 && |S[b]| == 4 && EveryNibble(S[b][r])
  {
    hide S, EveryNibble;
    BoxRows0();
    BoxRows1();
    BoxRows2();
    BoxRows3();
    BoxRows4();
    BoxRows5();
    BoxRows6();
    BoxRows7();
  }

  lemma BoxRows0()
    ensures |S| == 8 && |S[0]| == 4
    ensures EveryNibble(S[0][0]) && EveryNibble(S[0][1]) && EveryNibble(S[0][2]) && EveryNibble(S[0][3])
  {
  }

  lemma BoxRows1()
    ensures |S| == 8 && |S[1]| == 4
    ensures EveryNibble(S[1][0]) && EveryNibble(S[1][1]) && EveryNibble(S[1][2]) && EveryNibble(S[1][3])
  {
  }

  lemma BoxRows2()
    ensures |S| == 8 && |S[2]| == 4
    ensures EveryNibble(S[2][0]) && EveryNibble(S[2][1]) && EveryNibble(S[2][2]) && EveryNibble(S[2][3])
  {
  }

  lemma BoxRows3()
    ensures |S| == 8 && |S[3]| == 4
    ensures EveryNibble(S[3][0]) && EveryNibble(S[3][1]) && EveryNibble(S[3][2]) && EveryNibble(S[3][3])
  {
  }

  lemma BoxRows4()
    ensures |S| == 8 && |S[4]| == 4
    ensures EveryNibble(S[4][0]) && EveryNibble(S[4][1]) && EveryNibble(S[4][2]) && EveryNibble(S[4][3])
  {
  }

  lemma BoxRows5()
    ensures |S| == 8 && |S[5]| == 4
    ensures EveryNibble(S[5][0]) && EveryNibble(S[5][1]) && EveryNibble(S[5][2]) && EveryNibble(S[5][3])
  {
  }

  lemma BoxRows6()
    ensures |S| == 8 && |S[6]| == 4
    ensures EveryNibble(S[6][0]) && EveryNibble(S[6][1]) && EveryNibble(S[6][2]) && EveryNibble(S[6][3])
  {
  }

  lemma BoxRows7()
    ensures |S| == 8 && |S[7]| == 4
    ensures EveryNibble(S[7][0]) && EveryNibble(S[7][1]) && EveryNibble(S[7][2]) && EveryNibble(S[7][3])
  {
  }
}

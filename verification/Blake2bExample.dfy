/** The worked example in appendix A of RFC 7693, the digest of "abc" round by round. It ties the
    initial vector, the rotations, the order of words and bytes, and where each round takes the first word of
    the message, to numbers that are not derived from Blake2b. */
module Blake2bExample {
  import opened Arith
  import opened Bits
  import opened Blake2b

  datatype Row = Row(a: bv64, b: bv64, c: bv64, d: bv64)

  /** The work vector in four rows. */
  predicate Is(v: seq<bv64>, r0: Row, r1: Row, r2: Row, r3: Row) {
    && |v| == 16
    && v[0] == r0.a && v[1] == r0.b && v[2] == r0.c && v[3] == r0.d
    && v[4] == r1.a && v[5] == r1.b && v[6] == r1.c && v[7] == r1.d
    && v[8] == r2.a && v[9] == r2.b && v[10] == r2.c && v[11] == r2.d
    && v[12] == r3.a && v[13] == r3.b && v[14] == r3.c && v[15] == r3.d
  }

  lemma Mixes(v: seq<bv64>, a: nat, b: nat, c: nat, d: nat, x: bv64, y: bv64)
    requires |v| == 16 && a < 16 && b < 16 && c < 16 && d < 16
    requires a != b && a != c && a != d && b != c && b != d && c != d
    ensures var q := Quarter(v[a], v[b], v[c], v[d], x, y);
      var r := G(v, a, b, c, d, x, y);
      && r[a] == q.0 && r[b] == q.1 && r[c] == q.2 && r[d] == q.3
      && forall i :: 0 <= i < 16 && i != a && i != b && i != c && i != d ==> r[i] == v[i]
  {
    hide Quarter;
  }

  /** The four columns do not touch each other. */
  lemma ColumnsApart(v: seq<bv64>, m: seq<bv64>, s: seq<nat>)
    requires |v| == 16 && |m| == 16 && |s| == 16
    ensures
      var c0 := Quarter(v[0], v[4], v[8], v[12], At(m, s[0]), At(m, s[1]));
      var c1 := Quarter(v[1], v[5], v[9], v[13], At(m, s[2]), At(m, s[3]));
      var c2 := Quarter(v[2], v[6], v[10], v[14], At(m, s[4]), At(m, s[5]));
      var c3 := Quarter(v[3], v[7], v[11], v[15], At(m, s[6]), At(m, s[7]));
      Is(Columns(v, m, s), Row(c0.0, c1.0, c2.0, c3.0), Row(c0.1, c1.1, c2.1, c3.1),
         Row(c0.2, c1.2, c2.2, c3.2), Row(c0.3, c1.3, c2.3, c3.3))
  {
    hide Quarter, At, G;
    Mixes(v, 0, 4, 8, 12, At(m, s[0]), At(m, s[1]));
    var v0 := G(v, 0, 4, 8, 12, At(m, s[0]), At(m, s[1]));
    Mixes(v0, 1, 5, 9, 13, At(m, s[2]), At(m, s[3]));
    var v1 := G(v0, 1, 5, 9, 13, At(m, s[2]), At(m, s[3]));
    Mixes(v1, 2, 6, 10, 14, At(m, s[4]), At(m, s[5]));
    Mixes(G(v1, 2, 6, 10, 14, At(m, s[4]), At(m, s[5])), 3, 7, 11, 15, At(m, s[6]), At(m, s[7]));
  }

  /** Nor do the four diagonals. */
  lemma DiagonalsApart(v: seq<bv64>, m: seq<bv64>, s: seq<nat>)
    requires |v| == 16 && |m| == 16 && |s| == 16
    ensures
      var d0 := Quarter(v[0], v[5], v[10], v[15], At(m, s[8]), At(m, s[9]));
      var d1 := Quarter(v[1], v[6], v[11], v[12], At(m, s[10]), At(m, s[11]));
      var d2 := Quarter(v[2], v[7], v[8], v[13], At(m, s[12]), At(m, s[13]));
      var d3 := Quarter(v[3], v[4], v[9], v[14], At(m, s[14]), At(m, s[15]));
      Is(Diagonals(v, m, s), Row(d0.0, d1.0, d2.0, d3.0), Row(d3.1, d0.1, d1.1, d2.1),
         Row(d2.2, d3.2, d0.2, d1.2), Row(d1.3, d2.3, d3.3, d0.3))
  {
    hide Quarter, At, G;
    Mixes(v, 0, 5, 10, 15, At(m, s[8]), At(m, s[9]));
    var v0 := G(v, 0, 5, 10, 15, At(m, s[8]), At(m, s[9]));
    Mixes(v0, 1, 6, 11, 12, At(m, s[10]), At(m, s[11]));
    var v1 := G(v0, 1, 6, 11, 12, At(m, s[10]), At(m, s[11]));
    Mixes(v1, 2, 7, 8, 13, At(m, s[12]), At(m, s[13]));
    Mixes(G(v1, 2, 7, 8, 13, At(m, s[12]), At(m, s[13])), 3, 4, 9, 14, At(m, s[14]), At(m, s[15]));
  }

  /** The message block of "abc". */
  predicate IsAbc(m: seq<bv64>) {
    |m| == 16 && m[0] == 0x636261 && forall i :: 1 <= i < 16 ==> m[i] == 0
  }

  lemma Round0(v: seq<bv64>, m: seq<bv64>)
    requires IsAbc(m) && Is(v,
      Row(0x6A09E667F2BDC948, 0xBB67AE8584CAA73B, 0x3C6EF372FE94F82B, 0xA54FF53A5F1D36F1),
      Row(0x510E527FADE682D1, 0x9B05688C2B3E6C1F, 0x1F83D9ABFB41BD6B, 0x5BE0CD19137E2179),
      Row(0x6A09E667F3BCC908, 0xBB67AE8584CAA73B, 0x3C6EF372FE94F82B, 0xA54FF53A5F1D36F1),
      Row(0x510E527FADE682D2, 0x9B05688C2B3E6C1F, 0xE07C265404BE4294, 0x5BE0CD19137E2179))
    ensures Is(Round(v, m, SIGMA[0]),
      Row(0x86B7C1568029BB79, 0xC12CBCC809FF59F3, 0xC6A5214CC0EACA8E, 0x0C87CD524C14CC5D),
      Row(0x44EE6039BD86A9F7, 0xA447C850AA694A7E, 0xDE080F1BB1C0F84B, 0x595CB8A9A1ACA66C),
      Row(0xBEC3AE837EAC4887, 0x6267FC79DF9D6AD1, 0xFA87B01273FA6DBE, 0x521A715C63E08D8A),
      Row(0xE02D0975B8D37A83, 0x1C7B754F08B7D193, 0x8F885A76B6E578FE, 0x2318A24E2140FC64))
  {
    hide Columns, Diagonals;
    var s := SIGMA[0];
    ColumnsApart(v, m, s);
    DiagonalsApart(Columns(v, m, s), m, s);
  }

  lemma Round1(v: seq<bv64>, m: seq<bv64>)
    requires IsAbc(m) && Is(v,
      Row(0x86B7C1568029BB79, 0xC12CBCC809FF59F3, 0xC6A5214CC0EACA8E, 0x0C87CD524C14CC5D),
      Row(0x44EE6039BD86A9F7, 0xA447C850AA694A7E, 0xDE080F1BB1C0F84B, 0x595CB8A9A1ACA66C),
      Row(0xBEC3AE837EAC4887, 0x6267FC79DF9D6AD1, 0xFA87B01273FA6DBE, 0x521A715C63E08D8A),
      Row(0xE02D0975B8D37A83, 0x1C7B754F08B7D193, 0x8F885A76B6E578FE, 0x2318A24E2140FC64))
    ensures Is(Round(v, m, SIGMA[1]),
      Row(0x53281E83806010F2, 0x3594B403F81B4393, 0x8CD63C7462DE0DFF, 0x85F693F3DA53F974),
      Row(0xBAABDBB2F386D9AE, 0xCA5425AEC65A10A8, 0xC6A22E2FF0F7AA48, 0xC6A56A51CB89C595),
      Row(0x224E6A3369224F96, 0x500E125E58A92923, 0xE9E4AD0D0E1A0D48, 0x85DF9DC143C59A74),
      Row(0x92A3AAAA6D952B7F, 0xC5FDF71090FAE853, 0x2A8A40F15A462DD0, 0x572D17EFFDD37358))
  {
    hide Columns, Diagonals;
    var s := SIGMA[1];
    ColumnsApart(v, m, s);
    DiagonalsApart(Columns(v, m, s), m, s);
  }

  lemma Round2(v: seq<bv64>, m: seq<bv64>)
    requires IsAbc(m) && Is(v,
      Row(0x53281E83806010F2, 0x3594B403F81B4393, 0x8CD63C7462DE0DFF, 0x85F693F3DA53F974),
      Row(0xBAABDBB2F386D9AE, 0xCA5425AEC65A10A8, 0xC6A22E2FF0F7AA48, 0xC6A56A51CB89C595),
      Row(0x224E6A3369224F96, 0x500E125E58A92923, 0xE9E4AD0D0E1A0D48, 0x85DF9DC143C59A74),
      Row(0x92A3AAAA6D952B7F, 0xC5FDF71090FAE853, 0x2A8A40F15A462DD0, 0x572D17EFFDD37358))
    ensures Is(Round(v, m, SIGMA[2]),
      Row(0x60ED96AA7AD41725, 0xE46A743C71800B9D, 0x1A04B543A01F156B, 0xA2F8716E775C4877),
      Row(0xDA0A61BCDE4267EA, 0xB1DD230754D7BDEE, 0x25A1422779E06D14, 0xE6823AE4C3FF58A5),
      Row(0xA1677E19F37FD5DA, 0x22BDCE6976B08C51, 0xF1DE8696BEC11BF1, 0xA0EBD586A4A1D2C8),
      Row(0xC804EBAB11C99FA9, 0x8E0CEC959C715793, 0x7C45557FAE0D4D89, 0x716343F52FDD265E))
  {
    hide Columns, Diagonals;
    var s := SIGMA[2];
    ColumnsApart(v, m, s);
    DiagonalsApart(Columns(v, m, s), m, s);
  }

  lemma Round3(v: seq<bv64>, m: seq<bv64>)
    requires IsAbc(m) && Is(v,
      Row(0x60ED96AA7AD41725, 0xE46A743C71800B9D, 0x1A04B543A01F156B, 0xA2F8716E775C4877),
      Row(0xDA0A61BCDE4267EA, 0xB1DD230754D7BDEE, 0x25A1422779E06D14, 0xE6823AE4C3FF58A5),
      Row(0xA1677E19F37FD5DA, 0x22BDCE6976B08C51, 0xF1DE8696BEC11BF1, 0xA0EBD586A4A1D2C8),
      Row(0xC804EBAB11C99FA9, 0x8E0CEC959C715793, 0x7C45557FAE0D4D89, 0x716343F52FDD265E))
    ensures Is(Round(v, m, SIGMA[3]),
      Row(0xBB2A77D3A8382351, 0x45EB47971F23B103, 0x98BE297F6E45C684, 0xA36077DEE3370B89),
      Row(0x8A03C4CB7E97590A, 0x24192E49EBF54EA0, 0x4F82C9401CB32D7A, 0x8CCD013726420DC4),
      Row(0xA9C9A8F17B1FC614, 0x55908187977514A0, 0x5B44273E66B19D27, 0xB6D5C9FCA2579327),
      Row(0x086092CFB858437E, 0x5C4BE2156DBEECF9, 0x2EFEDE99ED4EFF16, 0x3E7B5F234CD1F804))
  {
    hide Columns, Diagonals;
    var s := SIGMA[3];
    ColumnsApart(v, m, s);
    DiagonalsApart(Columns(v, m, s), m, s);
  }

  lemma Round4(v: seq<bv64>, m: seq<bv64>)
    requires IsAbc(m) && Is(v,
      Row(0xBB2A77D3A8382351, 0x45EB47971F23B103, 0x98BE297F6E45C684, 0xA36077DEE3370B89),
      Row(0x8A03C4CB7E97590A, 0x24192E49EBF54EA0, 0x4F82C9401CB32D7A, 0x8CCD013726420DC4),
      Row(0xA9C9A8F17B1FC614, 0x55908187977514A0, 0x5B44273E66B19D27, 0xB6D5C9FCA2579327),
      Row(0x086092CFB858437E, 0x5C4BE2156DBEECF9, 0x2EFEDE99ED4EFF16, 0x3E7B5F234CD1F804))
    ensures Is(Round(v, m, SIGMA[4]),
      Row(0xC79C15B3D423B099, 0x2DA2224E8DA97556, 0x77D2B26DF1C45C55, 0x8934EB09A3456052),
      Row(0x0F6D9EEED157DA2A, 0x6FE66467AF88C0A9, 0x4EB0B76284C7AAFB, 0x299C8E725D954697),
      Row(0xB2240B59E6D567D3, 0x2643C2370E49EBFD, 0x79E02EEF20CDB1AE, 0x64B3EED7BB602F39),
      Row(0xB97D2D439E4DF63D, 0xC718E755294C9111, 0x1F0893F2772BB373, 0x1205EA4A7859807D))
  {
    hide Columns, Diagonals;
    var s := SIGMA[4];
    ColumnsApart(v, m, s);
    DiagonalsApart(Columns(v, m, s), m, s);
  }

  lemma Round5(v: seq<bv64>, m: seq<bv64>)
    requires IsAbc(m) && Is(v,
      Row(0xC79C15B3D423B099, 0x2DA2224E8DA97556, 0x77D2B26DF1C45C55, 0x8934EB09A3456052),
      Row(0x0F6D9EEED157DA2A, 0x6FE66467AF88C0A9, 0x4EB0B76284C7AAFB, 0x299C8E725D954697),
      Row(0xB2240B59E6D567D3, 0x2643C2370E49EBFD, 0x79E02EEF20CDB1AE, 0x64B3EED7BB602F39),
      Row(0xB97D2D439E4DF63D, 0xC718E755294C9111, 0x1F0893F2772BB373, 0x1205EA4A7859807D))
    ensures Is(Round(v, m, SIGMA[5]),
      Row(0xE58F97D6385BAEE4, 0x7640AA9764DA137A, 0xDEB4C7C23EFE287E, 0x70F6F41C8783C9F6),
      Row(0x7127CD48C76A7708, 0x9E472AF0BE3DB3F6, 0x0F244C62DDF71788, 0x219828AA83880842),
      Row(0x41CCA9073C8C4D0D, 0x5C7912BC10DF3B4B, 0xA2C3ABBD37510EE2, 0xCB5668CC2A9F7859),
      Row(0x8733794F07AC1500, 0xC67A6BE42335AA6F, 0xACB22B28681E4C82, 0xDB2161604CBC9828))
  {
    hide Columns, Diagonals;
    var s := SIGMA[5];
    ColumnsApart(v, m, s);
    DiagonalsApart(Columns(v, m, s), m, s);
  }

  lemma Round6(v: seq<bv64>, m: seq<bv64>)
    requires IsAbc(m) && Is(v,
      Row(0xE58F97D6385BAEE4, 0x7640AA9764DA137A, 0xDEB4C7C23EFE287E, 0x70F6F41C8783C9F6),
      Row(0x7127CD48C76A7708, 0x9E472AF0BE3DB3F6, 0x0F244C62DDF71788, 0x219828AA83880842),
      Row(0x41CCA9073C8C4D0D, 0x5C7912BC10DF3B4B, 0xA2C3ABBD37510EE2, 0xCB5668CC2A9F7859),
      Row(0x8733794F07AC1500, 0xC67A6BE42335AA6F, 0xACB22B28681E4C82, 0xDB2161604CBC9828))
    ensures Is(Round(v, m, SIGMA[6]),
      Row(0x6E2D286EEADEDC81, 0xBCF02C0787E86358, 0x57D56A56DD015EDF, 0x55D899D40A5D0D0A),
      Row(0x819415B56220C459, 0xB63C479A6A769F02, 0x258E55E0EC1F362A, 0x3A3B4EC60E19DFDC),
      Row(0x04D769B3FCB048DB, 0xB78A9A33E9BFF4DD, 0x5777272AE1E930C0, 0x5A387849E578DBF6),
      Row(0x92AAC307CF2C0AFC, 0x30AACCC4F06DAFAA, 0x483893CC094F8863, 0xE03C6CC89C26BF92))
  {
    hide Columns, Diagonals;
    var s := SIGMA[6];
    ColumnsApart(v, m, s);
    DiagonalsApart(Columns(v, m, s), m, s);
  }

  lemma Round7(v: seq<bv64>, m: seq<bv64>)
    requires IsAbc(m) && Is(v,
      Row(0x6E2D286EEADEDC81, 0xBCF02C0787E86358, 0x57D56A56DD015EDF, 0x55D899D40A5D0D0A),
      Row(0x819415B56220C459, 0xB63C479A6A769F02, 0x258E55E0EC1F362A, 0x3A3B4EC60E19DFDC),
      Row(0x04D769B3FCB048DB, 0xB78A9A33E9BFF4DD, 0x5777272AE1E930C0, 0x5A387849E578DBF6),
      Row(0x92AAC307CF2C0AFC, 0x30AACCC4F06DAFAA, 0x483893CC094F8863, 0xE03C6CC89C26BF92))
    ensures Is(Round(v, m, SIGMA[7]),
      Row(0xFFC83ECE76024D01, 0x1BE7BFFB8C5CC5F9, 0xA35A18CBAC4C65B7, 0xB7C2C7E6D88C285F),
      Row(0x81937DA314A50838, 0xE1179523A2541963, 0x3A1FAD7106232B8F, 0x1C7EDE92AB8B9C46),
      Row(0xA3C2D35E4F685C10, 0xA53D3F73AA619624, 0x30BBCC0285A22F65, 0xBCEFBB6A81539E5D),
      Row(0x3841DEF6F4C9848A, 0x98662C85FBA726D4, 0x7762439BD5A851BD, 0xB0B9F0D443D1A889))
  {
    hide Columns, Diagonals;
    var s := SIGMA[7];
    ColumnsApart(v, m, s);
    DiagonalsApart(Columns(v, m, s), m, s);
  }

  lemma Round8(v: seq<bv64>, m: seq<bv64>)
    requires IsAbc(m) && Is(v,
      Row(0xFFC83ECE76024D01, 0x1BE7BFFB8C5CC5F9, 0xA35A18CBAC4C65B7, 0xB7C2C7E6D88C285F),
      Row(0x81937DA314A50838, 0xE1179523A2541963, 0x3A1FAD7106232B8F, 0x1C7EDE92AB8B9C46),
      Row(0xA3C2D35E4F685C10, 0xA53D3F73AA619624, 0x30BBCC0285A22F65, 0xBCEFBB6A81539E5D),
      Row(0x3841DEF6F4C9848A, 0x98662C85FBA726D4, 0x7762439BD5A851BD, 0xB0B9F0D443D1A889))
    ensures Is(Round(v, m, SIGMA[8]),
      Row(0x753A70A1E8FAEADD, 0x6B0D43CA2C25D629, 0xF8343BA8B94F8C0B, 0xBC7D062B0DB5CF35),
      Row(0x58540EE1B1AEBC47, 0x63C5B9B80D294CB9, 0x490870ECAD27DEBD, 0xB2A90DDF667287FE),
      Row(0x316CC9EBEEFAD8FC, 0x4A466BCD021526A4, 0x5DA7F7638CEC5669, 0xD9C8826727D306FC),
      Row(0x88ED6C4F3BD7A537, 0x19AE688DDF67F026, 0x4D8707AAB40F7E6D, 0xFD3F572687FEA4F1))
  {
    hide Columns, Diagonals;
    var s := SIGMA[8];
    ColumnsApart(v, m, s);
    DiagonalsApart(Columns(v, m, s), m, s);
  }

  lemma Round9(v: seq<bv64>, m: seq<bv64>)
    requires IsAbc(m) && Is(v,
      Row(0x753A70A1E8FAEADD, 0x6B0D43CA2C25D629, 0xF8343BA8B94F8C0B, 0xBC7D062B0DB5CF35),
      Row(0x58540EE1B1AEBC47, 0x63C5B9B80D294CB9, 0x490870ECAD27DEBD, 0xB2A90DDF667287FE),
      Row(0x316CC9EBEEFAD8FC, 0x4A466BCD021526A4, 0x5DA7F7638CEC5669, 0xD9C8826727D306FC),
      Row(0x88ED6C4F3BD7A537, 0x19AE688DDF67F026, 0x4D8707AAB40F7E6D, 0xFD3F572687FEA4F1))
    ensures Is(Round(v, m, SIGMA[9]),
      Row(0xE630C747CCD59C4F, 0xBC713D41127571CA, 0x46DB183025025078, 0x6727E81260610140),
      Row(0x2D04185EAC2A8CBA, 0x5F311B88904056EC, 0x40BD313009201AAB, 0x0099D4F82A2A1EAB),
      Row(0x6DD4FBC1DE60165D, 0xB3B0B51DE3C86270, 0x900AEE2F233B08E5, 0xA07199D87AD058D8),
      Row(0x2C6B25593D717852, 0x37E8CA471BEAA5F8, 0x2CFC1BAC10EF4457, 0x01369EC18746E775))
  {
    hide Columns, Diagonals;
    var s := SIGMA[9];
    ColumnsApart(v, m, s);
    DiagonalsApart(Columns(v, m, s), m, s);
  }

  lemma Round10(v: seq<bv64>, m: seq<bv64>)
    requires IsAbc(m) && Is(v,
      Row(0xE630C747CCD59C4F, 0xBC713D41127571CA, 0x46DB183025025078, 0x6727E81260610140),
      Row(0x2D04185EAC2A8CBA, 0x5F311B88904056EC, 0x40BD313009201AAB, 0x0099D4F82A2A1EAB),
      Row(0x6DD4FBC1DE60165D, 0xB3B0B51DE3C86270, 0x900AEE2F233B08E5, 0xA07199D87AD058D8),
      Row(0x2C6B25593D717852, 0x37E8CA471BEAA5F8, 0x2CFC1BAC10EF4457, 0x01369EC18746E775))
    ensures Is(Round(v, m, SIGMA[10]),
      Row(0xE801F73B9768C760, 0x35C6D22320BE511D, 0x306F27584F65495E, 0xB51776ADF569A77B),
      Row(0xF4F1BE86690B3C34, 0x3CC88735D1475E4B, 0x5DAC67921FF76949, 0x1CDB9D31AD70CC4E),
      Row(0x35BA354A9C7DF448, 0x4929CBE45679D73E, 0x733D1A17248F39DB, 0x92D57B736F5F170A),
      Row(0x61B5C0A41D491399, 0xB5C333457E12844A, 0xBD696BE010D0D889, 0x02231E1A917FE0BD))
  {
    hide Columns, Diagonals;
    var s := SIGMA[10];
    ColumnsApart(v, m, s);
    DiagonalsApart(Columns(v, m, s), m, s);
  }

  lemma Round11(v: seq<bv64>, m: seq<bv64>)
    requires IsAbc(m) && Is(v,
      Row(0xE801F73B9768C760, 0x35C6D22320BE511D, 0x306F27584F65495E, 0xB51776ADF569A77B),
      Row(0xF4F1BE86690B3C34, 0x3CC88735D1475E4B, 0x5DAC67921FF76949, 0x1CDB9D31AD70CC4E),
      Row(0x35BA354A9C7DF448, 0x4929CBE45679D73E, 0x733D1A17248F39DB, 0x92D57B736F5F170A),
      Row(0x61B5C0A41D491399, 0xB5C333457E12844A, 0xBD696BE010D0D889, 0x02231E1A917FE0BD))
    ensures Is(Round(v, m, SIGMA[11]),
      Row(0x12EF8A641EC4F6D6, 0xBCED5DE977C9FAF5, 0x733CA476C5148639, 0x97DF596B0610F6FC),
      Row(0xF42C16519AD5AFA7, 0xAA5AC1888E10467E, 0x217D930AA51787F3, 0x906A6FF19E573942),
      Row(0x75AB709BD3DCBF24, 0xEE7CE1F345947AA4, 0xF8960D6C2FAF5F5E, 0xE332538A36B6D246),
      Row(0x885BEF040EF6AA0B, 0xA4939A417BFB78A3, 0x646CBB7AF6DCE980, 0xE813A23C60AF3B82))
  {
    hide Columns, Diagonals;
    var s := SIGMA[11];
    ColumnsApart(v, m, s);
    DiagonalsApart(Columns(v, m, s), m, s);
  }

  lemma SigmaRows()
    ensures forall r :: 0 <= r < 12 ==> |SIGMA[r]| == 16
  {
  }

  lemma NoRounds(v: seq<bv64>, m: seq<bv64>)
    requires |v| == 16 && |m| == 16
    ensures Rounds(v, m, 0) == v
  {
  }

  lemma NextRound(v: seq<bv64>, m: seq<bv64>, n: nat)
    requires |v| == 16 && |m| == 16 && n < 12 && |SIGMA[n]| == 16
    ensures Rounds(v, m, n + 1) == Round(Rounds(v, m, n), m, SIGMA[n])
  {
    hide Round;
  }

  lemma TwelveRounds(v: seq<bv64>, m: seq<bv64>)
    requires |v| == 16 && |m| == 16 && IsAbc(m) && Is(v,
      Row(0x6A09E667F2BDC948, 0xBB67AE8584CAA73B, 0x3C6EF372FE94F82B, 0xA54FF53A5F1D36F1),
      Row(0x510E527FADE682D1, 0x9B05688C2B3E6C1F, 0x1F83D9ABFB41BD6B, 0x5BE0CD19137E2179),
      Row(0x6A09E667F3BCC908, 0xBB67AE8584CAA73B, 0x3C6EF372FE94F82B, 0xA54FF53A5F1D36F1),
      Row(0x510E527FADE682D2, 0x9B05688C2B3E6C1F, 0xE07C265404BE4294, 0x5BE0CD19137E2179))
    ensures Is(Rounds(v, m, 12),
      Row(0x12EF8A641EC4F6D6, 0xBCED5DE977C9FAF5, 0x733CA476C5148639, 0x97DF596B0610F6FC),
      Row(0xF42C16519AD5AFA7, 0xAA5AC1888E10467E, 0x217D930AA51787F3, 0x906A6FF19E573942),
      Row(0x75AB709BD3DCBF24, 0xEE7CE1F345947AA4, 0xF8960D6C2FAF5F5E, 0xE332538A36B6D246),
      Row(0x885BEF040EF6AA0B, 0xA4939A417BFB78A3, 0x646CBB7AF6DCE980, 0xE813A23C60AF3B82))
  {
    hide Is, IsAbc, Round, Rounds;
    SigmaRows();
    NoRounds(v, m);
    Round0(Rounds(v, m, 0), m);
    NextRound(v, m, 0);
    Round1(Rounds(v, m, 1), m);
    NextRound(v, m, 1);
    Round2(Rounds(v, m, 2), m);
    NextRound(v, m, 2);
    Round3(Rounds(v, m, 3), m);
    NextRound(v, m, 3);
    Round4(Rounds(v, m, 4), m);
    NextRound(v, m, 4);
    Round5(Rounds(v, m, 5), m);
    NextRound(v, m, 5);
    Round6(Rounds(v, m, 6), m);
    NextRound(v, m, 6);
    Round7(Rounds(v, m, 7), m);
    NextRound(v, m, 7);
    Round8(Rounds(v, m, 8), m);
    NextRound(v, m, 8);
    Round9(Rounds(v, m, 9), m);
    NextRound(v, m, 9);
    Round10(Rounds(v, m, 10), m);
    NextRound(v, m, 10);
    Round11(Rounds(v, m, 11), m);
    NextRound(v, m, 11);
  }

  const ABC: seq<byte> := [0x61, 0x62, 0x63]

  lemma AbcBlock(b: seq<byte>)
    requires b == BlockAt(ABC, 0)
    ensures IsAbc(Words(b))
  {
    hide LeValue, Load64;
    var w := Words(b);
    forall i | 1 <= i < 16
      ensures w[i] == 0
    {
      ZeroValue(b[8 * i..8 * i + 8]);
      ZeroLoad(b[8 * i..8 * i + 8]);
    }
    AbcWord(b[0..8]);
  }

  lemma AbcWord(s: seq<byte>)
    requires |s| == 8 && s[0] == 0x61 && s[1] == 0x62 && s[2] == 0x63 && forall i :: 3 <= i < 8 ==> s[i] == 0
    ensures Load64(s) == 0x636261
  {
    hide Load64;
    ZeroValue(s[3..]);
    assert s[1..][1..] == s[2..] && s[2..][1..] == s[3..];
    assert LeValue(s[2..]) == 0x63 && LeValue(s[1..]) == 0x6362;
    LoadOf(s, 0x636261);
  }

  lemma AbcStart(v: seq<bv64>)
    requires v == StartV(Start(0, 64), 3, 0, ONES, 0)
    ensures Is(v,
      Row(0x6A09E667F2BDC948, 0xBB67AE8584CAA73B, 0x3C6EF372FE94F82B, 0xA54FF53A5F1D36F1),
      Row(0x510E527FADE682D1, 0x9B05688C2B3E6C1F, 0x1F83D9ABFB41BD6B, 0x5BE0CD19137E2179),
      Row(0x6A09E667F3BCC908, 0xBB67AE8584CAA73B, 0x3C6EF372FE94F82B, 0xA54FF53A5F1D36F1),
      Row(0x510E527FADE682D2, 0x9B05688C2B3E6C1F, 0xE07C265404BE4294, 0x5BE0CD19137E2179))
  {
  }

  const ABC_HASH: seq<bv64> := [
    0x0D4D1C983FA580BA, 0xE9F6129FB697276A, 0xB7C45A68142F214C, 0xD1A2FFDB6FBB124B,
    0x2D79AB2A39C5877D, 0x95CC3345DED552C2, 0x5A92F1DBA88AD318, 0x239900D4ED8623B9]

  lemma NoChain(h: seq<bv64>)
    requires |h| == 8
    ensures LastBlock(3) == 0 && Chain(h, ABC, 0) == h
  {
  }

  lemma OneBlock(h: seq<bv64>)
    requires |h| == 8
    ensures FinalHash(h, ABC, false) == CompressWords(h, BlockAt(ABC, 0), 3, 0, ONES, 0)
  {
    hide CompressWords, FinalHash, Chain, LastBlock;
    NoChain(h);
    LastCompressed(h, ABC, h, ABC, BlockAt(ABC, 0), 3, 0, false);
  }

  lemma AbcHash()
    ensures FinalHash(Start(0, 64), ABC, false) == ABC_HASH
  {
    hide FinalHash, BlockAt, Words, Is, IsAbc, Rounds, StartV, Start, Mix, ABC_HASH;
    var h, b := Start(0, 64), BlockAt(ABC, 0);
    OneBlock(h);
    AbcBlock(b);
    var v := StartV(h, 3, 0, ONES, 0);
    AbcStart(v);
    TwelveRounds(v, Words(b));
    AbcMix(Rounds(v, Words(b), 12));
  }

  lemma AbcMix(w: seq<bv64>)
    requires Is(w,
      Row(0x12EF8A641EC4F6D6, 0xBCED5DE977C9FAF5, 0x733CA476C5148639, 0x97DF596B0610F6FC),
      Row(0xF42C16519AD5AFA7, 0xAA5AC1888E10467E, 0x217D930AA51787F3, 0x906A6FF19E573942),
      Row(0x75AB709BD3DCBF24, 0xEE7CE1F345947AA4, 0xF8960D6C2FAF5F5E, 0xE332538A36B6D246),
      Row(0x885BEF040EF6AA0B, 0xA4939A417BFB78A3, 0x646CBB7AF6DCE980, 0xE813A23C60AF3B82))
    ensures Mix(Start(0, 64), w) == ABC_HASH
  {
  }

  /** The digest of "abc": eight words with the low byte first. */
  lemma AbcDigest(digest: seq<byte>)
    requires digest == Digest([], ABC, 64)
    ensures |digest| == 64 && forall i :: 0 <= i < 8 ==> LeValue(digest[8 * i..8 * i + 8]) == ABC_HASH[i] as nat
  {
    hide FinalHash, Store, LeValue, ABC_HASH;
    AbcHash();
    StoreLength(ABC_HASH);
    assert Store(ABC_HASH)[..64] == Store(ABC_HASH);
    assert digest == Store(ABC_HASH);
    forall i | 0 <= i < 8
      ensures LeValue(digest[8 * i..8 * i + 8]) == ABC_HASH[i] as nat
    {
      StoreAt(ABC_HASH, i);
    }
  }
}

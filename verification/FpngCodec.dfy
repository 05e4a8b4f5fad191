/** fpng as a whole (libs/fpng/fpng.cpp:1662-1748, 3084-3130): what encoding an image produces, what
    any PNG reader makes of it, and that fpng's own decoder gives the pixels back. */
module FpngCodec {
  import Adler
  import opened Arith
  import opened Bits
  import opened BitWriter
  import opened Canonical
  import opened Wrappers
  import opened DynamicHeader
  import opened FpngDecode
  import opened FpngDeflate
  import opened FpngEncode
  import opened FpngFilter
  import opened FpngHeader
  import opened FpngPixels
  import opened FpngRaw
  import opened FpngRawRead
  import opened FpngRoundTrip
  import opened FpngScreen
  import opened FpngTokens
  import opened StoredBlocks
  import Inflate

  // ---- Compressed images.

  lemma OneBit(tail: seq<bool>)
    ensures FromBits(([true] + tail)[..1]) == 1
  {
    assert ([true] + tail)[..1] == [true] && [true][1..] == [];
  }

  /** The stream's bits after its two header bytes, and whatever follows the stream. */
  lemma StreamThen(data: seq<byte>, tail: seq<byte>, s: seq<bool>) returns (rest: seq<bool>)
    requires |data| >= 7 && ByteBits(data[2..|data| - 4]) == Padded(s)
    ensures ByteBits((data + tail)[2..]) == s + rest
    ensures |Inflate.ToByteBoundary(rest)| == 8 * (|tail| + 4)
  {
    StreamBody(data, s);
    assert (data + tail)[2..] == data[2..] + tail;
    ByteBitsConcat(data[2..], tail);
    hide ByteBits, ToBits, Inflate.ToByteBoundary;
    var pad, trailer := ToBits(0, (8 - |s| % 8) % 8), data[|data| - 4..];
    rest := pad + ByteBits(trailer) + ByteBits(tail);
    Assoc(s, pad + ByteBits(trailer), ByteBits(tail));
    ByteBitsConcat(trailer, tail);
    Assoc(pad, ByteBits(trailer), ByteBits(tail));
    Boundary(pad, ByteBits(trailer + tail), |tail| + 4);
  }

  lemma Boundary(pad: seq<bool>, bits: seq<bool>, n: nat)
    requires |pad| < 8 && |bits| == 8 * n
    ensures |Inflate.ToByteBoundary(pad + bits)| == 8 * n
  {
    DivModUnique(|pad + bits|, 8, n, |pad|);
  }

  lemma BlockDecodes(g: Geometry, hb: seq<bool>, c: Inflate.Codes, rows: seq<Row>, h: nat, image: seq<byte>, rest: seq<bool>)
    requires g.Valid() && IsHeader(hb, c) && FpngCodes(c, g.sc) && GoodRows(c.lit, rows, g.w, g.sc) && |rows| == h
    requires |image| == Span(h, Times(g.w, g.sc))
    requires ImageBytes(rows) == Filtered(image, Times(g.w, g.sc), true, true, ZeroRow(Times(g.w, g.sc)))
    ensures DecodeBlock(g, StreamBits(hb, c.lit, rows, g.sc) + rest, h) == Some(Inflate.Read(Converted(g, image), rest))
  {
    hide IsHeader, FpngCodes, GoodRows, ImageBytes, Filtered, ZeroRow, RowsBits, Word, ReadFpngHeader, DecodeRows, Below, Span, StreamBits, ToBits, FromBits, Decodable, Has, Converted;
    var body := RowsBits(c.lit, rows, g.sc) + (Word(c.lit, 256) + rest);
    StreamSplit(hb, c.lit, rows, g.sc, rest);
    BlockKind(hb + body);
    OneBit(ToBits(2, 2) + (hb + body));
    HeaderReadBack(hb, c, g.sc, body);
    NothingAbove(g);
    RowsSent(g, c.lit, rows, image, ZeroRow(Times(g.w, g.sc)), [], 0, h, rest);
    assert [] + Converted(g, image) == Converted(g, image);
  }

  lemma NothingAbove(g: Geometry)
    requires g.Valid()
    ensures Below(g, [], ZeroRow(Times(g.w, g.sc)))
  {
  }

  /** The decoder's header reader finds the encoder's code. */
  lemma HeaderReadBack(hb: seq<bool>, c: Inflate.Codes, chans: nat, body: seq<bool>)
    requires IsHeader(hb, c) && FpngCodes(c, chans)
    ensures ReadFpngHeader(hb + body, chans) == Some(Inflate.Read(c.lit, body))
    ensures Decodable(c.lit, 12) && Has(c.lit, 256)
  {
    assert Inflate.ReadDynamicHeader(hb + body) == Some(Inflate.Read(c, body));
    hide IsHeader, Inflate.ReadDynamicHeader, ReadFpngHeader;
    StandardHeader(hb + body, chans, c, body);
  }

  /** The decoder gives back the pixels of an image the encoder compressed. */
  lemma CompressedDecodes(g: Geometry, data: seq<byte>, hb: seq<bool>, c: Inflate.Codes, rows: seq<Row>, h: nat, image: seq<byte>, tail: seq<byte>)
    requires g.Valid() && FpngStream(data, hb, c, rows, g.w, g.sc) && |rows| == h && |tail| >= 4
    requires |image| == Span(h, Times(g.w, g.sc))
    requires ImageBytes(rows) == Filtered(image, Times(g.w, g.sc), true, true, ZeroRow(Times(g.w, g.sc)))
    ensures DecodeStream(g, data + tail, |data|, h) == Some(Converted(g, image))
  {
    var src := data + tail;
    var s := StreamBits(hb, c.lit, rows, g.sc);
    var rest := StreamThen(data, tail, s);
    BlockDecodes(g, hb, c, rows, h, image, rest);
    NotStored(src[2..], hb, c.lit, rows, g.sc, rest);
    hide FpngCodes, GoodRows, IsHeader, ImageBytes, Filtered, ZeroRow, StreamBits, DecodeBlock, DecodeRaw, ByteBits, Padded, Inflate.ToByteBoundary, Converted, Span;
    assert src[2..][0] == src[2];
  }

  lemma NotStored(s: seq<byte>, hb: seq<bool>, lens: seq<nat>, rows: seq<Row>, chans: nat, rest: seq<bool>)
    requires s != [] && ByteBits(s) == StreamBits(hb, lens, rows, chans) + rest
    ensures (s[0] / 2) % 4 == 2
  {
    StreamSplit(hb, lens, rows, chans, rest);
    hide ByteBits, StreamBits, ToBits, FromBits, RowsBits, Word;
    BlockKind(hb + (RowsBits(lens, rows, chans) + (Word(lens, 256) + rest)));
    StoredHead(s);
  }

  // ---- Uncompressed images.

  /** Unfiltered rows are what the raw reader looks for. */
  lemma {:induction false} RawRowsOf(g: Geometry, image: seq<byte>, h: nat, first: bool, prev: seq<byte>)
    requires g.Valid() && |image| == Span(h, Times(g.w, g.sc)) && |prev| == Times(g.w, g.sc)
    ensures RawRows(g, Filtered(image, Times(g.w, g.sc), false, first, prev), h) == Some(Converted(g, image))
    decreases h
  {
    var b := Times(g.w, g.sc);
    if h == 0 {
      assert Span(0, b) == 0 && Filtered(image, b, false, first, prev) == [];
    } else {
      SpanFront(h, b);
      FilterNext(image, b, false, first, prev);
      RawRowsOf(g, image[b..], h - 1, false, image[..b]);
      ConvertedFront(g, image);
      hide Filtered, Converted, Span;
      var f, more := FilteredRow(false, image[..b], prev), Filtered(image[b..], b, false, false, image[..b]);
      RawFront(g, f, more, image[..b]);
    }
  }

  lemma RawFront(g: Geometry, f: seq<byte>, more: seq<byte>, row: seq<byte>)
    requires g.Valid() && f == [0] + row && |row| == Times(g.w, g.sc)
    ensures var p := f + more;
      |p| >= RowLen(g) && p[0] == 0 && p[1..RowLen(g)] == row && p[RowLen(g)..] == more
  {
  }

  /** The decoder gives back the pixels of an image that was stored. */
  lemma RawDecodes(g: Geometry, filtered: seq<byte>, h: nat, image: seq<byte>, tail: seq<byte>)
    requires g.Valid() && h >= 1 && |tail| >= 4 && |image| == Span(h, Times(g.w, g.sc))
    requires filtered == Filtered(image, Times(g.w, g.sc), false, true, ZeroRow(Times(g.w, g.sc)))
    ensures DecodeStream(g, RawStream(filtered) + tail, |RawStream(filtered)|, h) == Some(Converted(g, image))
  {
    hide Filtered, ZeroRow, RawRows, Converted, StoredBytes, Inflate.AdlerBytes, Span, DecodeCompressed, DecodeRaw, RawStream, ReadStoredBlocks;
    RawRowsOf(g, image, h, true, ZeroRow(Times(g.w, g.sc)));
    FilteredNotEmpty(image, Times(g.w, g.sc), h, ZeroRow(Times(g.w, g.sc)));
    RawSource(filtered, tail);
    var src := RawStream(filtered) + tail;
    StoredFirst(src[2..]);
    RawData(g, src, |RawStream(filtered)|, h, filtered, Inflate.AdlerBytes(filtered) + tail);
    assert src[2..][0] == src[2];
  }

  lemma RawData(g: Geometry, src: seq<byte>, zlibLen: nat, h: nat, data: seq<byte>, rest: seq<byte>)
    requires g.Valid() && |src| >= 2 && ReadStoredBlocks(src[2..]) == Some(Stored(data, rest))
    requires |src| - |rest| + 4 == zlibLen
    ensures DecodeRaw(g, src, zlibLen, h) == RawRows(g, data, h)
  {
    hide ReadStoredBlocks, RawRows;
  }

  lemma RawSource(filtered: seq<byte>, tail: seq<byte>)
    requires filtered != []
    ensures var src := RawStream(filtered) + tail;
      && |src| >= 7 && src[0] == 0x78 && src[1] == 0x01 && |RawStream(filtered)| >= 7
      && ReadStoredBlocks(src[2..]) == Some(Stored(filtered, Inflate.AdlerBytes(filtered) + tail))
  {
    var trailer := Inflate.AdlerBytes(filtered);
    var src := RawStream(filtered) + tail;
    hide StoredBytes, Inflate.AdlerBytes, ReadStoredBlocks;
    StoredReadBack(filtered, MAX_STORED, trailer + tail);
    Assoc(StoredBytes(filtered, MAX_STORED), trailer, tail);
    assert src[2..] == StoredBytes(filtered, MAX_STORED) + (trailer + tail);
    StoredSome(filtered);
  }

  lemma StoredSome(src: seq<byte>)
    requires src != []
    ensures StoredBytes(src, MAX_STORED) != []
  {
  }

  lemma StoredFirst(s: seq<byte>)
    requires ReadStoredBlocks(s).Some?
    ensures |s| >= 5 && (s[0] / 2) % 4 == 0
  {
  }

  lemma FilteredNotEmpty(image: seq<byte>, b: nat, h: nat, prev: seq<byte>)
    requires b > 0 && h >= 1 && |image| == Span(h, b) && |prev| == b
    ensures Filtered(image, b, false, true, prev) != []
  {
    SpanFront(h, b);
    FilterNext(image, b, false, true, prev);
    hide Filtered;
  }

  // ---- Encoding.

  /** fpng's decoder, asked for either number of channels and whatever follows the stream in the file,
      gives the image. */
  ghost predicate Opens(data: seq<byte>, image: seq<byte>, w: nat, h: nat, chans: nat)
    requires w >= 1 && (chans == 3 || chans == 4)
  {
    forall dc, tail: seq<byte> :: (dc == 3 || dc == 4) && |tail| >= 4 ==>
      DecodeStream(Geometry(w, chans, dc), data + tail, |data|, h) == Some(Converted(Geometry(w, chans, dc), image))
  }

  /** data is a zlib stream of filtered scanlines that any PNG reader turns into the image
      (RFC 1950, RFC 1951, section 6.4 of RFC 2083). */
  ghost predicate IsImageData(data: seq<byte>, image: seq<byte>, w: nat, h: nat, chans: nat)
    requires chans == 3 || chans == 4
  {
    var scanlines := Inflate.ZlibInflate(data);
    && scanlines.Some?
    && Reconstruct(scanlines.value, Times(w, chans), ZeroRow(Times(w, chans))) == Some(image)
  }

  lemma CompressedOpens(data: seq<byte>, hb: seq<bool>, c: Inflate.Codes, rows: seq<Row>, w: nat, h: nat, chans: nat, image: seq<byte>)
    requires w >= 1 && (chans == 3 || chans == 4) && FpngStream(data, hb, c, rows, w, chans) && |rows| == h
    requires |image| == Span(h, Times(w, chans))
    requires ImageBytes(rows) == Filtered(image, Times(w, chans), true, true, ZeroRow(Times(w, chans)))
    ensures Opens(data, image, w, h, chans) && IsImageData(data, image, w, h, chans)
  {
    hide FpngStream, ImageBytes, Filtered, ZeroRow, DecodeStream, Converted, Span, Inflate.ZlibInflate, Reconstruct, Times;
    forall dc, tail: seq<byte> | (dc == 3 || dc == 4) && |tail| >= 4
      ensures DecodeStream(Geometry(w, chans, dc), data + tail, |data|, h) == Some(Converted(Geometry(w, chans, dc), image))
    {
      CompressedDecodes(Geometry(w, chans, dc), data, hb, c, rows, h, image, tail);
    }
    StreamInflates(data, hb, c, rows, w, chans);
    Rebuilt(image, w, h, chans, true);
  }

  lemma Rebuilt(image: seq<byte>, w: nat, h: nat, chans: nat, up: bool)
    requires w >= 1 && (chans == 3 || chans == 4) && |image| == Span(h, Times(w, chans))
    ensures Reconstruct(Filtered(image, Times(w, chans), up, true, ZeroRow(Times(w, chans))), Times(w, chans), ZeroRow(Times(w, chans))) == Some(image)
    ensures |Filtered(image, Times(w, chans), up, true, ZeroRow(Times(w, chans)))| == Span(h, 1 + Times(w, chans))
  {
    FilterRoundTrip(image, Times(w, chans), h, up, true, ZeroRow(Times(w, chans)));
  }

  lemma RawOpens(filtered: seq<byte>, w: nat, h: nat, chans: nat, image: seq<byte>)
    requires w >= 1 && h >= 1 && (chans == 3 || chans == 4) && |image| == Span(h, Times(w, chans))
    requires filtered == Filtered(image, Times(w, chans), false, true, ZeroRow(Times(w, chans)))
    ensures Opens(RawStream(filtered), image, w, h, chans) && IsImageData(RawStream(filtered), image, w, h, chans)
  {
    WideRow(w, chans);
    FilteredNotEmpty(image, Times(w, chans), h, ZeroRow(Times(w, chans)));
    Rebuilt(image, w, h, chans, false);
    hide RawStream, Filtered, ZeroRow, DecodeStream, Converted, Span, Inflate.ZlibInflate, Reconstruct, Times;
    forall dc, tail: seq<byte> | (dc == 3 || dc == 4) && |tail| >= 4
      ensures DecodeStream(Geometry(w, chans, dc), RawStream(filtered) + tail, |RawStream(filtered)|, h)
           == Some(Converted(Geometry(w, chans, dc), image))
    {
      RawDecodes(Geometry(w, chans, dc), filtered, h, image, tail);
    }
    RawInflates(filtered);
  }

  lemma WideRow(w: nat, chans: nat)
    requires w >= 1 && (chans == 3 || chans == 4)
    ensures Times(w, chans) >= 3
  {
  }

  /** The room fpng makes for the compressed stream: the filtered rows, up to seven more bytes. */
  function OutSize(n: nat): nat {
    (58 + n + 7) / 8 * 8 - 58
  }

  /** hb, c and rows make up the compressed stream of an image: runs as long as they can be, and a code for
      exactly the symbols that occur, made from how often they occur. */
  ghost predicate IsStreamOf(hb: seq<bool>, c: Inflate.Codes, rows: seq<Row>, image: seq<byte>, w: nat, h: nat, chans: nat)
    requires w >= 1 && (chans == 3 || chans == 4)
  {
    && |rows| == h && ImageBytes(rows) == Filtered(image, Times(w, chans), true, true, ZeroRow(Times(w, chans)))
    && GreedyRows(rows, chans) && MadeFor(c.lit, FlatTokens(rows), chans)
    && IsHeader(hb, c) && FpngCodes(c, chans) && GoodRows(c.lit, rows, w, chans)
  }

  /** There may be too little room for the stream: the room must hold all its bits, and eight bytes are
      stored at a time. */
  predicate TooBig(hb: seq<bool>, lens: seq<nat>, rows: seq<Row>, w: nat, h: nat, chans: nat) {
    8 * OutSize(Span(h, 1 + Times(w, chans))) < StreamSize(hb, lens, rows, chans) + 64
  }

  /** Compression fails only when the stream does not fit. */
  method TryCompress(image: seq<byte>, w: nat, h: nat, chans: nat, sse41: bool)
    returns (ok: bool, data: seq<byte>, ghost hb: seq<bool>, ghost c: Inflate.Codes, ghost rows: seq<Row>)
    requires w >= 1 && h >= 1 && (chans == 3 || chans == 4) && |image| == Span(h, Times(w, chans))
    requires Span(h, 1 + Times(w, chans)) + 1 < 0x1_0000_0000
    ensures IsStreamOf(hb, c, rows, image, w, h, chans)
    ensures ok ==> FpngStream(data, hb, c, rows, w, chans)
    ensures ok ==> Opens(data, image, w, h, chans) && IsImageData(data, image, w, h, chans)
    ensures !ok ==> TooBig(hb, c.lit, rows, w, h, chans)
  {
    WideRow(w, chans);
    Rebuilt(image, w, h, chans, true);
    hide Times, Span, OutSize, Filtered, ZeroRow, FpngStream, Opens, IsImageData, ImageBytes, GreedyRows, MadeFor, IsHeader, FpngCodes, GoodRows, FlatTokens, StreamSize, IsStreamOf, TooBig, Reconstruct;
    var b := Times(w, chans);
    var filtered := FilterImage(image, b, h, true);
    var dst := new byte[OutSize(filtered.Length)](_ => 0);
    var size;
    size, hb, c, rows := PixelDeflateDynRle(filtered[..], w, h, chans, dst, sse41);
    data := dst[..size];
    ok := size > 0;
    StreamOf(hb, c, rows, image, w, h, chans);
    if ok {
      CompressedOpens(data, hb, c, rows, w, h, chans, image);
    } else {
      NoRoom(dst.Length, hb, c.lit, rows, w, h, chans);
    }
  }

  lemma StreamOf(hb: seq<bool>, c: Inflate.Codes, rows: seq<Row>, image: seq<byte>, w: nat, h: nat, chans: nat)
    requires w >= 1 && (chans == 3 || chans == 4)
    requires |rows| == h && ImageBytes(rows) == Filtered(image, Times(w, chans), true, true, ZeroRow(Times(w, chans)))
    requires GreedyRows(rows, chans) && MadeFor(c.lit, FlatTokens(rows), chans)
    requires IsHeader(hb, c) && FpngCodes(c, chans) && GoodRows(c.lit, rows, w, chans)
    ensures IsStreamOf(hb, c, rows, image, w, h, chans)
  {
    hide Times, Filtered, ZeroRow, ImageBytes, GreedyRows, MadeFor, IsHeader, FpngCodes, GoodRows, FlatTokens;
  }

  lemma NoRoom(room: nat, hb: seq<bool>, lens: seq<nat>, rows: seq<Row>, w: nat, h: nat, chans: nat)
    requires room == OutSize(Span(h, 1 + Times(w, chans))) && 8 * room < StreamSize(hb, lens, rows, chans) + 64
    ensures TooBig(hb, lens, rows, w, h, chans)
  {
    hide Times, Span, OutSize, StreamSize;
  }

  /** Behind the two header bytes comes a final block with codes of its own. */
  ghost predicate OneDynamicBlock(data: seq<byte>) {
    |data| >= 3 && ByteBits(data[2..])[..3] == [true] + ToBits(2, 2)
  }

  lemma FinalDynamic(data: seq<byte>, hb: seq<bool>, c: Inflate.Codes, rows: seq<Row>, w: nat, chans: nat)
    requires FpngStream(data, hb, c, rows, w, chans)
    ensures OneDynamicBlock(data)
  {
    hide FpngCodes, GoodRows, IsHeader, ImageBytes, ByteBits, Padded, StreamBits, ToBits, Inflate.AdlerBytes, RowsBits, Word;
    var s := StreamBits(hb, c.lit, rows, chans);
    StreamBody(data, s);
    StreamSplit(hb, c.lit, rows, chans, []);
    assert s + [] == s;
  }

  const MAX_DIM: nat := 0x100_0000

  /** The images fpng takes. */
  predicate Encodable(w: nat, h: nat, chans: nat) {
    1 <= w <= MAX_DIM && 1 <= h <= MAX_DIM && w * h <= 0xFFFF_FFFF && (chans == 3 || chans == 4)
  }

  /** The image in stored blocks, no row filtered. */
  function StoredImage(image: seq<byte>, w: nat, chans: nat): seq<byte>
    requires w >= 1 && (chans == 3 || chans == 4)
  {
    RawStream(Filtered(image, Times(w, chans), false, true, ZeroRow(Times(w, chans))))
  }

  /** fpng_encode_image_to_memory, the image data: stored when that is asked for, else compressed unless
      that fails. */
  method EncodeImage(image: seq<byte>, w: nat, h: nat, chans: nat, uncompressed: bool, sse41: bool)
    returns (data: Option<seq<byte>>, ghost hb: seq<bool>, ghost c: Inflate.Codes, ghost rows: seq<Row>)
    requires Encodable(w, h, chans) ==> |image| == Span(h, Times(w, chans)) && Span(h, 1 + Times(w, chans)) + 1 < 0x1_0000_0000
    ensures data.Some? <==> Encodable(w, h, chans)
    ensures data.Some? ==> Opens(data.value, image, w, h, chans) && IsImageData(data.value, image, w, h, chans)
    ensures data.Some? && uncompressed ==> data.value == StoredImage(image, w, chans)
    ensures data.Some? && !uncompressed ==> IsStreamOf(hb, c, rows, image, w, h, chans)
    ensures data.Some? && !uncompressed ==>
      if FpngStream(data.value, hb, c, rows, w, chans) then OneDynamicBlock(data.value)
      else TooBig(hb, c.lit, rows, w, h, chans) && data.value == StoredImage(image, w, chans)
  {
    hide Opens, IsImageData, Span, Times, IsStreamOf, TooBig, FpngStream, StoredImage, OneDynamicBlock;
    hb, c, rows := [], Inflate.Codes([], []), [];
    if w < 1 || h < 1 || w * h > 0xFFFF_FFFF || w > MAX_DIM || h > MAX_DIM {
      return None, hb, c, rows;
    }
    if chans != 3 && chans != 4 {
      return None, hb, c, rows;
    }
    if !uncompressed {
      var ok, compressed;
      ok, compressed, hb, c, rows := TryCompress(image, w, h, chans, sse41);
      if ok {
        FinalDynamic(compressed, hb, c, rows, w, chans);
        return Some(compressed), hb, c, rows;
      }
    }
    var stored := StoreImage(image, w, h, chans, sse41);
    if FpngStream(stored, hb, c, rows, w, chans) {
      FinalDynamic(stored, hb, c, rows, w, chans);
    }
    return Some(stored), hb, c, rows;
  }

  /** The image without compression. */
  method StoreImage(image: seq<byte>, w: nat, h: nat, chans: nat, sse41: bool) returns (data: seq<byte>)
    requires w >= 1 && h >= 1 && (chans == 3 || chans == 4) && |image| == Span(h, Times(w, chans))
    ensures data == StoredImage(image, w, chans)
    ensures Opens(data, image, w, h, chans) && IsImageData(data, image, w, h, chans)
  {
    hide Opens, IsImageData, RawStream, Filtered, ZeroRow;
    WideRow(w, chans);
    Rebuilt(image, w, h, chans, false);
    var buf := FilterImage(image, Times(w, chans), h, false);
    var filtered := buf[..];
    var adler := Adler.Adler32(filtered, sse41);
    var n := buf.Length;
    var dst := new byte[6 + n + (n + 65534) / 65535 * 5](_ => 0);
    RawFits(filtered);
    var size := WriteRawBlock(filtered, dst, adler);
    RawOpens(filtered, w, h, chans, image);
    data := dst[..size];
  }

  /** The size is not miscomputed: the stored image always fits. */
  lemma RawFits(src: seq<byte>)
    ensures 0 < |RawStream(src)| == 6 + |src| + (|src| + 65534) / 65535 * 5
  {
    StoredLength(src, MAX_STORED);
    BlocksClosed(|src|, MAX_STORED);
  }

  // ---- What comes out.

  /** Same channels: the same bytes. */
  lemma {:induction false} ConvertedSame(g: Geometry, image: seq<byte>, n: nat)
    requires g.Valid() && g.dc == g.sc && |image| == Times(n, g.sc)
    ensures Converted(g, image) == image
    decreases n
  {
    if n > 0 {
      ConvertedSame(g, image[g.sc..], n - 1);
      assert image[..g.sc] + image[g.sc..] == image;
      assert Convert(g, image[..g.sc]) == image[..g.sc];
    }
  }

  /** Pixel x comes out as it went in; a fourth channel that it does not have is opaque alpha. */
  predicate ShowsPixel(out: seq<byte>, image: seq<byte>, x: nat, chans: nat, dc: nat)
    requires 3 <= chans <= 4 && 3 <= dc <= 4
  {
    var o, i := Times(x, dc), Times(x, chans);
    && o + dc <= |out| && i + chans <= |image|
    && out[o] == image[i] && out[o + 1] == image[i + 1] && out[o + 2] == image[i + 2]
    && (dc == 4 ==> out[o + 3] == if chans == 4 then image[i + 3] else 255)
  }

  lemma {:induction false} ConvertedAlpha(g: Geometry, image: seq<byte>, n: nat, x: nat)
    requires g.Valid() && g.sc == 3 && g.dc == 4 && |image| == Times(n, 3) && x < n
    ensures |Converted(g, image)| == 4 * n && Converted(g, image)[4 * x + 3] == 255
    decreases n
  {
    ConvertedConcat(g, image, [], n);
    if x > 0 {
      ConvertedAlpha(g, image[3..], n - 1, x - 1);
    }
  }

  lemma ConvertedShows(g: Geometry, image: seq<byte>, n: nat, x: nat)
    requires g.Valid() && |image| == Times(n, g.sc) && x < n
    ensures ShowsPixel(Converted(g, image), image, x, g.sc, g.dc)
  {
    hide Converted;
    ConvertedAt(g, image, n, x, 0);
    ConvertedAt(g, image, n, x, 1);
    ConvertedAt(g, image, n, x, 2);
    if g.dc == 4 {
      if g.sc == 4 {
        ConvertedAt(g, image, n, x, 3);
      } else {
        ConvertedAlpha(g, image, n, x);
      }
    }
    assert Times(x, g.dc) + g.dc <= Times(n, g.dc) && Times(x, g.sc) + g.sc <= Times(n, g.sc);
    ConvertedLength(g, image, n);
  }

  lemma ConvertedLength(g: Geometry, image: seq<byte>, n: nat)
    requires g.Valid() && |image| == Times(n, g.sc)
    ensures |Converted(g, image)| == Times(n, g.dc)
  {
    ConvertedConcat(g, image, [], n);
  }

  /** What an image that opens opens as: the same bytes for the same channels, opaque alpha for a
      fourth channel, and no alpha for three. */
  lemma OpensAs(data: seq<byte>, image: seq<byte>, w: nat, h: nat, chans: nat, dc: nat, tail: seq<byte>)
    requires w >= 1 && (chans == 3 || chans == 4) && |image| == Times(w * h, chans)
    requires Opens(data, image, w, h, chans) && (dc == 3 || dc == 4) && |tail| >= 4
    ensures var out := DecodeStream(Geometry(w, chans, dc), data + tail, |data|, h);
      && out.Some? && |out.value| == Times(w * h, dc)
      && (dc == chans ==> out.value == image)
      && (forall x :: 0 <= x < w * h ==> ShowsPixel(out.value, image, x, chans, dc))
  {
    var g, n := Geometry(w, chans, dc), w * h;
    assert DecodeStream(g, data + tail, |data|, h) == Some(Converted(g, image));
    hide Opens, DecodeStream, Converted, ShowsPixel;
    ConvertedLength(g, image, n);
    if dc == chans {
      ConvertedSame(g, image, n);
    }
    forall x | 0 <= x < n
      ensures ShowsPixel(Converted(g, image), image, x, chans, dc)
    {
      ConvertedShows(g, image, n, x);
    }
  }

  lemma RowsAndPixels(w: nat, h: nat, chans: nat)
    ensures Span(h, Times(w, chans)) == Times(w * h, chans)
  {
    assert h * (3 * w) == 3 * (w * h);
    assert h * (4 * w) == 4 * (w * h);
  }

  /** Encoding any image that fpng takes, with or without compression, and decoding the stream in
      whatever file it is put, is the identity; asking for a fourth channel adds opaque alpha, and
      asking for three drops alpha. */
  method EncodeAndDecode(image: seq<byte>, w: nat, h: nat, chans: nat, uncompressed: bool, sse41: bool, dc: nat, tail: seq<byte>)
    returns (out: seq<byte>)
    requires Encodable(w, h, chans) && |image| == Times(w * h, chans) && Times(w * h, chans) + h + 1 < 0x1_0000_0000
    requires (dc == 3 || dc == 4) && |tail| >= 4
    ensures |out| == Times(w * h, dc)
    ensures dc == chans ==> out == image
    ensures forall x :: 0 <= x < w * h ==> ShowsPixel(out, image, x, chans, dc)
  {
    hide Opens, IsImageData, DecodeStream, ShowsPixel, Span, Times, IsStreamOf, TooBig, FpngStream, StoredImage, OneDynamicBlock;
    RowsAndPixels(w, h, chans);
    RowsAndPixels(w, h, dc);
    FilteredSize(w, h, chans);
    var data;
    ghost var hb, c, rows;
    data, hb, c, rows := EncodeImage(image, w, h, chans, uncompressed, sse41);
    OpensAs(data.value, image, w, h, chans, dc, tail);
    var dst := new byte[Times(w * h, dc)](_ => 0);
    var ok := FpngPixelZlibDecompress(Geometry(w, chans, dc), data.value + tail, |data.value|, dst, h);
    out := dst[..];
  }

  lemma FilteredSize(w: nat, h: nat, chans: nat)
    ensures Span(h, 1 + Times(w, chans)) == Times(w * h, chans) + h
  {
    hide Times;
    RowsAndPixels(w, h, chans);
    assert h * (1 + Times(w, chans)) == h + h * Times(w, chans);
  }
}

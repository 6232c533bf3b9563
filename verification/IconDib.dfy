/** The bitmap of one icon entry: the two independent encoders toDIB and rgbaToDIB. */
module IconDib {
  import opened Results
  import opened Text
  import opened IconImage

  const WORD := 0x1_0000_0000

  // ----- Little-endian numbers -----

  /** The low 16 bits of a number. */
  function U16(v: nat): seq<Byte> {
    [v % 256, v / 256 % 256]
  }

  /** The low 32 bits of a number. */
  function U32(v: nat): seq<Byte> {
    [v % 256, v / 0x100 % 256, v / 0x1_0000 % 256, v / 0x100_0000 % 256]
  }

  function ReadU16(s: seq<Byte>, at: nat): nat
    requires at + 2 <= |s|
  {
    s[at] as int + 0x100 * s[at + 1] as int
  }

  function ReadU32(s: seq<Byte>, at: nat): nat
    requires at + 4 <= |s|
  {
    s[at] as int + 0x100 * s[at + 1] as int + 0x1_0000 * s[at + 2] as int + 0x100_0000 * s[at + 3] as int
  }

  lemma U32Wraps(v: nat)
    ensures ReadU32(U32(v), 0) == v % WORD
  {
    var (a, b, c) := (v / 0x100, v / 0x1_0000, v / 0x100_0000);
    assert b == a / 256 && c == b / 256;
    var d := c / 256;
    assert v == v % 256 + 256 * (a % 256) + 0x1_0000 * (b % 256) + 0x100_0000 * (c % 256) + WORD * d;
  }

  function Zeros(n: nat): (s: seq<Byte>)
    ensures |s| == n
  {
    seq(n, _ => 0)
  }

  // ----- What a bitmap holds -----

  /** The bytes of a row of the mask: one bit a pixel, padded to 32 bits. */
  function AndRow(w: nat): nat {
    ((w + 31) / 32) * 4
  }

  function ColourSize(w: nat, h: nat): nat {
    w * h * 4
  }

  function MaskSize(w: nat, h: nat): nat {
    AndRow(w) * h
  }

  function DibHeader(w: nat, h: nat): seq<Byte> {
    U32(40) + U32(w) + U32(h * 2) + U16(1) + U16(32) + Zeros(4) + U32(ColourSize(w, h) + MaskSize(w, h)) + Zeros(16)
  }

  function PixelBytes(p: Pixel): seq<Byte> {
    [p.b, p.g, p.r, p.a]
  }

  function RowBytes(row: seq<Pixel>): seq<Byte> {
    if row == [] then [] else RowBytes(row[..|row| - 1]) + PixelBytes(row[|row| - 1])
  }

  /** The lowest n rows of the image, bottom row first. */
  function XorBytes(img: Image, n: nat): seq<Byte>
    requires n <= img.Height()
  {
    if n == 0 then [] else XorBytes(img, n - 1) + RowBytes(img.rows[img.Height() - n])
  }

  function Dib(img: Image): seq<Byte> {
    DibHeader(img.width, img.Height()) + XorBytes(img, img.Height()) + Zeros(MaskSize(img.width, img.Height()))
  }

  // ----- Where the pixels are -----

  /** The place of column x of the row that is written as number y. */
  function Offset(w: nat, y: nat, x: nat): nat {
    y * w * 4 + x * 4
  }

  lemma OffsetOfNextRow(w: nat, y: nat)
    ensures Offset(w, y, w) == Offset(w, y + 1, 0)
  {
    assert (y + 1) * w == y * w + w;
  }

  lemma OffsetOfNextPixel(w: nat, y: nat, x: nat)
    ensures Offset(w, y, x + 1) == Offset(w, y, x) + 4
  {
  }

  lemma OffsetInRow(w: nat, y: nat, x: nat)
    ensures Offset(w, y, x) == Offset(w, y, 0) + 4 * x
  {
  }

  lemma OffsetAtEnds(w: nat, h: nat)
    ensures Offset(w, 0, 0) == 0 && Offset(w, h, 0) == ColourSize(w, h)
  {
  }

  lemma OffsetFits(w: nat, h: nat, y: nat, x: nat)
    requires y < h && x < w
    ensures Offset(w, y, x) + 4 <= Offset(w, y, w) <= Offset(w, h, 0)
  {
    ProductsAscend(w, y + 1, h);
    OffsetOfNextRow(w, y);
    assert (y + 1) * w == w * (y + 1) && h * w == w * h;
  }

  lemma {:induction false} RowBytesAt(row: seq<Pixel>, x: nat, k: nat)
    requires x < |row| && k < 4
    ensures |RowBytes(row)| == 4 * |row|
    ensures RowBytes(row)[4 * x + k] == PixelBytes(row[x])[k]
  {
    var n := |row| - 1;
    RowBytesLength(row[..n]);
    if x < n {
      RowBytesAt(row[..n], x, k);
    }
  }

  lemma {:induction false} RowBytesLength(row: seq<Pixel>)
    ensures |RowBytes(row)| == 4 * |row|
  {
    if row != [] {
      RowBytesLength(row[..|row| - 1]);
    }
  }

  lemma {:induction false} XorLength(img: Image, n: nat)
    requires img.Valid() && n <= img.Height()
    ensures |XorBytes(img, n)| == Offset(img.width, n, 0)
  {
    if n > 0 {
      XorLength(img, n - 1);
      RowBytesLength(img.rows[img.Height() - n]);
      OffsetOfNextRow(img.width, n - 1);
    }
  }

  lemma {:induction false} XorAt(img: Image, n: nat, y: nat, x: nat, k: nat)
    requires img.Valid() && y < n <= img.Height() && x < img.width && k < 4
    ensures Offset(img.width, y, x) + 4 <= |XorBytes(img, n)|
    ensures XorBytes(img, n)[Offset(img.width, y, x) + k] == PixelBytes(img.rows[img.Height() - 1 - y][x])[k]
  {
    hide Offset, PixelBytes, RowBytes;
    OffsetFits(img.width, n, y, x);
    XorLength(img, n);
    XorLength(img, n - 1);
    if y < n - 1 {
      XorAt(img, n - 1, y, x, k);
    } else {
      OffsetInRow(img.width, y, x);
      RowBytesAt(img.rows[img.Height() - n], x, k);
    }
  }

  /** A row of the mask has whole 32-bit words, and no more than it takes. */
  lemma MaskRow(w: nat)
    ensures AndRow(w) % 4 == 0 && w <= 8 * AndRow(w) < w + 32
  {
  }

  lemma Sizes(w: nat, h: nat)
    ensures ColourSize(w, h) == 4 * (w * h) && MaskSize(w, h) == h * AndRow(w)
  {
    hide AndRow;
  }

  lemma DibLength(img: Image)
    requires img.Valid()
    ensures |Dib(img)| == 40 + 4 * (img.width * img.Height()) + img.Height() * AndRow(img.width)
  {
    XorLength(img, img.Height());
    OffsetAtEnds(img.width, img.Height());
    Sizes(img.width, img.Height());
    hide XorBytes, Offset, ColourSize, MaskSize, AndRow;
  }

  // ----- The encoder that appends -----

  method ToDIB(img: Image) returns (dib: seq<Byte>)
    requires img.Valid()
    ensures dib == Dib(img)
  {
    var w, h := img.width, img.Height();
    hide ColourSize, MaskSize, U32, U16, Zeros, XorBytes, RowBytes;
    dib := [];
    dib := dib + U32(40);
    dib := dib + U32(w);
    dib := dib + U32(h * 2);
    dib := dib + U16(1);
    dib := dib + U16(32);
    dib := dib + Zeros(4);
    dib := dib + U32(ColourSize(w, h) + MaskSize(w, h));
    dib := dib + Zeros(16);
    assert dib == DibHeader(w, h) + [];
    hide DibHeader;
    NoRows(img);
    for y := 0 to h
      invariant dib == DibHeader(w, h) + XorBytes(img, y)
    {
      dib := AppendRow(img, y, dib, DibHeader(w, h));
    }
    dib := dib + Zeros(MaskSize(w, h));
  }

  lemma NoRows(img: Image)
    ensures XorBytes(img, 0) == []
  {
  }

  method AppendRow(img: Image, y: nat, dib: seq<Byte>, ghost front: seq<Byte>) returns (r: seq<Byte>)
    requires img.Valid() && y < img.Height() && dib == front + XorBytes(img, y)
    ensures r == front + XorBytes(img, y + 1)
  {
    var row := img.rows[img.Height() - 1 - y];
    r := dib;
    hide XorBytes;
    for x := 0 to img.width
      invariant r == dib + RowBytes(row[..x])
    {
      AppendPixel(row, x);
      hide RowBytes;
      r := r + [row[x].b, row[x].g, row[x].r, row[x].a];
    }
    assert row[..img.width] == row;
  }

  lemma AppendPixel(row: seq<Pixel>, x: nat)
    requires x < |row|
    ensures RowBytes(row[..x + 1]) == RowBytes(row[..x]) + PixelBytes(row[x])
  {
    assert row[..x + 1][..x] == row[..x];
  }

  // ----- The encoder that writes by index -----

  /** Copies some bytes over the zeros that follow what an array already holds. */
  method Put(a: array<Byte>, at: nat, bytes: seq<Byte>, ghost front: seq<Byte>)
    requires |front| == at && at + |bytes| <= a.Length && a[..] == front + Zeros(a.Length - at)
    modifies a
    ensures a[..] == front + bytes + Zeros(a.Length - at - |bytes|)
  {
    for i := 0 to |bytes|
      invariant a[..at + i] == front + bytes[..i]
      invariant a[at + i..] == Zeros(a.Length - at - i)
    {
      a[at + i] := bytes[i];
    }
    assert a[..] == a[..at + |bytes|] + a[at + |bytes|..];
    assert bytes[..|bytes|] == bytes;
  }

  lemma ZerosSplit(front: seq<Byte>, m: nat, n: nat)
    ensures front + Zeros(m + n) == front + Zeros(m) + Zeros(n)
  {
  }

  method Header(w: nat, h: nat) returns (hdr: array<Byte>)
    ensures fresh(hdr) && hdr[..] == DibHeader(w, h)
  {
    hdr := new Byte[40](_ => 0);
    ghost var f0: seq<Byte> := [];
    assert hdr[..] == f0 + Zeros(40);
    ghost var f1, f2 := U32(40), U32(40) + U32(w);
    ghost var f3 := f2 + U32(h * 2);
    ghost var f4 := f3 + U16(1);
    ghost var f5 := f4 + U16(32);
    ghost var f6 := f5 + Zeros(4);
    assert f0 + U32(40) == f1;
    var size := ColourSize(w, h) + MaskSize(w, h);
    hide ColourSize, MaskSize;
    assert DibHeader(w, h) == f6 + U32(size) + Zeros(16);
    ZerosSplit(f5, 4, 20);
    assert |f1| == 4 && |f2| == 8 && |f3| == 12 && |f4| == 14 && |f5| == 16 && |f6| == 20;
    assert forall v :: |U32(v)| == 4 && |U16(v)| == 2;
    hide *;
    Put(hdr, 0, U32(40), f0);
    Put(hdr, 4, U32(w), f1);
    Put(hdr, 8, U32(h * 2), f2);
    Put(hdr, 12, U16(1), f3);
    Put(hdr, 14, U16(32), f4);
    Put(hdr, 20, U32(size), f6);
  }

  method PutPixel(a: array<Byte>, o: nat, p: Pixel)
    requires o + 4 <= a.Length
    modifies a
    ensures a[..o + 4] == old(a[..o]) + PixelBytes(p)
  {
    a[o + 0] := p.b;
    a[o + 1] := p.g;
    a[o + 2] := p.r;
    a[o + 3] := p.a;
  }

  /** The colour rows, written into place from the bottom row of the image up. */
  method PutRows(img: Image, xor: array<Byte>)
    requires img.Valid() && xor.Length == ColourSize(img.width, img.Height())
    modifies xor
    ensures xor[..] == XorBytes(img, img.Height())
  {
    var w, h := img.width, img.Height();
    OffsetAtEnds(w, h);
    hide ColourSize, Offset;
    for y := 0 to h
      invariant Offset(w, y, 0) <= xor.Length
      invariant xor[..Offset(w, y, 0)] == XorBytes(img, y)
    {
      PutRow(img, xor, y);
    }
    assert xor[..xor.Length] == xor[..];
  }

  method PutRow(img: Image, xor: array<Byte>, y: nat)
    requires img.Valid() && y < img.Height() && xor.Length == Offset(img.width, img.Height(), 0)
    requires Offset(img.width, y, 0) <= xor.Length && xor[..Offset(img.width, y, 0)] == XorBytes(img, y)
    modifies xor
    ensures Offset(img.width, y + 1, 0) <= xor.Length
    ensures xor[..Offset(img.width, y + 1, 0)] == XorBytes(img, y + 1)
  {
    var w, h := img.width, img.Height();
    var row := img.rows[h - 1 - y];
    RowAdds(img, y);
    hide Offset, XorBytes, RowBytes, PixelBytes;
    for x := 0 to w
      invariant Offset(w, y, x) <= xor.Length
      invariant xor[..Offset(w, y, x)] == XorBytes(img, y) + RowBytes(row[..x])
    {
      OffsetFits(w, h, y, x);
      AppendPixel(row, x);
      OffsetOfNextPixel(w, y, x);
      PutPixel(xor, Offset(w, y, x), row[x]);
    }
    assert row[..w] == row;
    OffsetOfNextRow(w, y);
  }

  lemma RowAdds(img: Image, y: nat)
    requires y < img.Height()
    ensures var row := img.rows[img.Height() - 1 - y];
      XorBytes(img, y) + RowBytes(row[..0]) == XorBytes(img, y)
      && XorBytes(img, y + 1) == XorBytes(img, y) + RowBytes(row)
  {
    assert RowBytes(img.rows[img.Height() - 1 - y][..0]) == [];
    hide RowBytes;
  }

  method RgbaToDIB(img: Image) returns (dib: seq<Byte>)
    requires img.Valid()
    ensures dib == Dib(img)
  {
    var w, h := img.width, img.Height();
    hide DibHeader, XorBytes, ColourSize, MaskSize;
    var hdr := Header(w, h);
    var xor := new Byte[ColourSize(w, h)](_ => 0);
    PutRows(img, xor);
    var mask := new Byte[MaskSize(w, h)](_ => 0);
    assert mask[..] == Zeros(MaskSize(w, h));
    hide Zeros;
    dib := hdr[..] + xor[..] + mask[..];
  }

  // ----- Reading a bitmap back -----

  function ReadPixel(data: seq<Byte>, o: nat): Pixel
    requires o + 4 <= |data|
  {
    Pixel(data[o + 2], data[o + 1], data[o], data[o + 3])
  }

  function DecodeRows(data: seq<Byte>, w: nat, h: nat): (r: Image)
    requires 40 + ColourSize(w, h) <= |data|
    ensures r.Valid() && r.width == w && r.Height() == h
  {
    OffsetAtEnds(w, h);
    Image(w, seq(h, y requires 0 <= y < h => seq(w, x requires 0 <= x < w =>
      OffsetFits(w, h, h - 1 - y, x); ReadPixel(data, 40 + Offset(w, h - 1 - y, x)))))
  }

  function DecodeDIB(data: seq<Byte>): Option<Image> {
    if |data| < 40 || ReadU32(data, 0) != 40 || ReadU16(data, 14) != 32 then None
    else
      var (w, h) := (ReadU32(data, 4), ReadU32(data, 8) / 2);
      if |data| < 40 + ColourSize(w, h) then None else Some(DecodeRows(data, w, h))
  }

  lemma ReadU32Inside(front: seq<Byte>, v: nat, back: seq<Byte>, data: seq<Byte>)
    requires data == front + U32(v) + back
    ensures |front| + 4 <= |data| && ReadU32(data, |front|) == v % WORD
  {
    U32Wraps(v);
    var word := U32(v);
    assert |word| == 4;
    hide U32;
    assert forall i :: 0 <= i < 4 ==> data[|front| + i] == word[i];
  }

  lemma ReadU16Inside(front: seq<Byte>, v: nat, back: seq<Byte>, data: seq<Byte>)
    requires data == front + U16(v) + back && v < 0x1_0000
    ensures |front| + 2 <= |data| && ReadU16(data, |front|) == v
  {
    var word := U16(v);
    assert forall i :: 0 <= i < 2 ==> data[|front| + i] == word[i];
  }

  lemma HeaderReads(w: nat, h: nat, rest: seq<Byte>, data: seq<Byte>)
    requires data == DibHeader(w, h) + rest
    ensures |data| == 40 + |rest|
    ensures ReadU32(data, 0) == 40 && ReadU16(data, 14) == 32
    ensures ReadU32(data, 4) == w % WORD && ReadU32(data, 8) == h * 2 % WORD
  {
    var size := ColourSize(w, h) + MaskSize(w, h);
    var b5 := Zeros(4) + U32(size) + Zeros(16) + rest;
    var b4 := U16(32) + b5;
    var b2 := U16(1) + b4;
    var b1 := U32(h * 2) + b2;
    var b0 := U32(w) + b1;
    assert forall v :: |U32(v)| == 4 && |U16(v)| == 2;
    assert |Zeros(4)| == 4 && |Zeros(16)| == 16;
    var (f1, f2) := (U32(40), U32(40) + U32(w));
    var f4 := f2 + U32(h * 2) + U16(1);
    hide *;
    HeaderSplits(U32(40), U32(w), U32(h * 2), U16(1), U16(32), Zeros(4), U32(size), Zeros(16), rest);
    ReadU32Inside([], 40, b0, data);
    ReadU32Inside(f1, w, b1, data);
    ReadU32Inside(f2, h * 2, b2, data);
    ReadU16Inside(f4, 32, b5, data);
  }

  /**
   The fixed fields of the header: its own size, one plane, 32 bits a pixel, no
   compression; and the size of what follows it, the mask included.
   */
  lemma HeaderFields(img: Image)
    requires img.Valid() && |Dib(img)| < WORD
    ensures |Dib(img)| >= 40
    ensures ReadU32(Dib(img), 0) == 40 && ReadU16(Dib(img), 12) == 1 && ReadU16(Dib(img), 14) == 32
    ensures ReadU32(Dib(img), 16) == 0 && ReadU32(Dib(img), 20) == |Dib(img)| - 40
    ensures forall i :: 24 <= i < 40 ==> Dib(img)[i] == 0
  {
    hide *;
    var (w, h) := (img.width, img.Height());
    var size := ColourSize(w, h) + MaskSize(w, h);
    DibLength(img);
    Sizes(w, h);
    FieldsOfHeader(w, h);
    HeaderInFront(img);
    FieldsInFront(DibHeader(w, h), XorBytes(img, h) + Zeros(MaskSize(w, h)));
    SizeFits(size, |Dib(img)|);
  }

  lemma SizeFits(size: nat, length: nat)
    requires length == 40 + size < WORD
    ensures size % WORD == length - 40
  {
  }

  lemma HeaderInFront(img: Image)
    requires img.Valid()
    ensures var (w, h) := (img.width, img.Height());
      Dib(img) == DibHeader(w, h) + (XorBytes(img, h) + Zeros(MaskSize(w, h)))
  {
    hide DibHeader, XorBytes, MaskSize, Zeros;
  }

  lemma FieldsInFront(header: seq<Byte>, rest: seq<Byte>)
    requires |header| == 40
    ensures ReadU32(header + rest, 0) == ReadU32(header, 0) && ReadU32(header + rest, 16) == ReadU32(header, 16)
    ensures ReadU32(header + rest, 20) == ReadU32(header, 20)
    ensures ReadU16(header + rest, 12) == ReadU16(header, 12) && ReadU16(header + rest, 14) == ReadU16(header, 14)
    ensures forall i :: 0 <= i < 40 ==> (header + rest)[i] == header[i]
  {
  }

  lemma NumberAfter(front: seq<Byte>, v: nat, back: seq<Byte>)
    ensures |front + U32(v) + back| == |front| + 4 + |back|
    ensures ReadU32(front + U32(v) + back, |front|) == v % WORD
  {
    var whole := front + U32(v) + back;
    assert forall i :: 0 <= i < 4 ==> whole[|front| + i] == U32(v)[i];
    U32Wraps(v);
  }

  lemma FieldsOfHeader(w: nat, h: nat)
    ensures var (header, size) := (DibHeader(w, h), ColourSize(w, h) + MaskSize(w, h));
      && |header| == 40 && ReadU32(header, 0) == 40 && ReadU16(header, 12) == 1 && ReadU16(header, 14) == 32
      && ReadU32(header, 16) == 0 && ReadU32(header, 20) == size % WORD
      && forall i :: 24 <= i < 40 ==> header[i] == 0
  {
    var size := ColourSize(w, h) + MaskSize(w, h);
    var front := U32(40) + U32(w) + U32(h * 2) + U16(1) + U16(32) + Zeros(4);
    FrontFields(w, h, U32(size) + Zeros(16));
    hide U32, U16, ColourSize, MaskSize, ReadU32, ReadU16;
    NumberAfter(front, size, Zeros(16));
    Regroup(front, U32(size), Zeros(16));
    ZerosBehind(front + U32(size));
  }

  lemma ZerosBehind(front: seq<Byte>)
    ensures forall i :: |front| <= i < |front| + 16 ==> (front + Zeros(16))[i] == 0
  {
  }

  lemma FrontFields(w: nat, h: nat, back: seq<Byte>)
    ensures var front := U32(40) + U32(w) + U32(h * 2) + U16(1) + U16(32) + Zeros(4);
      && |front| == 20
      && ReadU32(front + back, 0) == 40 && ReadU16(front + back, 12) == 1 && ReadU16(front + back, 14) == 32
      && ReadU32(front + back, 16) == 0
  {
    var (a, b) := (U32(w), U32(h * 2));
    assert |a| == 4 && |b| == 4;
    hide U32;
    assert U32(40) == [40, 0, 0, 0] by { FortyBytes(); }
    FrontBytes(a, b, back);
  }

  lemma FortyBytes()
    ensures U32(40) == [40, 0, 0, 0]
  {
  }

  lemma FrontBytes(a: seq<Byte>, b: seq<Byte>, back: seq<Byte>)
    requires |a| == 4 && |b| == 4
    ensures var front := [40, 0, 0, 0] + a + b + U16(1) + U16(32) + Zeros(4);
      && |front| == 20
      && ReadU32(front + back, 0) == 40 && ReadU16(front + back, 12) == 1 && ReadU16(front + back, 14) == 32
      && ReadU32(front + back, 16) == 0
  {
  }

  /** A left-to-right chain of fields, cut at each of the first five. */
  lemma HeaderSplits<T>(a: seq<T>, b: seq<T>, c: seq<T>, d: seq<T>, e: seq<T>, f: seq<T>, g: seq<T>, h: seq<T>,
                        r: seq<T>)
    ensures a + b + c + d + e + f + g + h + r == [] + a + (b + (c + (d + (e + (f + g + h + r)))))
    ensures a + b + c + d + e + f + g + h + r == a + b + (c + (d + (e + (f + g + h + r))))
    ensures a + b + c + d + e + f + g + h + r == a + b + c + (d + (e + (f + g + h + r)))
    ensures a + b + c + d + e + f + g + h + r == a + b + c + d + e + (f + g + h + r)
  {
  }

  lemma PixelInside(front: seq<Byte>, bytes: seq<Byte>, back: seq<Byte>, o: nat)
    requires o + 4 <= |bytes|
    ensures ReadPixel(front + bytes + back, |front| + o) == ReadPixel(bytes, o)
  {
  }

  lemma XorPixel(img: Image, y: nat, x: nat)
    requires img.Valid() && y < img.Height() && x < img.width
    ensures Offset(img.width, img.Height() - 1 - y, x) + 4 <= |XorBytes(img, img.Height())|
    ensures ReadPixel(XorBytes(img, img.Height()), Offset(img.width, img.Height() - 1 - y, x)) == img.rows[y][x]
  {
    hide Offset, XorBytes;
    XorAt(img, img.Height(), img.Height() - 1 - y, x, 0);
    XorAt(img, img.Height(), img.Height() - 1 - y, x, 1);
    XorAt(img, img.Height(), img.Height() - 1 - y, x, 2);
    XorAt(img, img.Height(), img.Height() - 1 - y, x, 3);
  }

  lemma PixelReads(img: Image, header: seq<Byte>, mask: seq<Byte>, data: seq<Byte>, y: nat, x: nat)
    requires img.Valid() && y < img.Height() && x < img.width && |header| == 40
    requires data == header + XorBytes(img, img.Height()) + mask
    ensures 40 + Offset(img.width, img.Height() - 1 - y, x) + 4 <= |data|
    ensures ReadPixel(data, 40 + Offset(img.width, img.Height() - 1 - y, x)) == img.rows[y][x]
  {
    hide Offset, XorBytes, ReadPixel;
    XorPixel(img, y, x);
    PixelInside(header, XorBytes(img, img.Height()), mask, Offset(img.width, img.Height() - 1 - y, x));
  }

  lemma DecodedPixel(data: seq<Byte>, w: nat, h: nat, y: nat, x: nat)
    requires 40 + ColourSize(w, h) <= |data| && y < h && x < w
    ensures 40 + Offset(w, h - 1 - y, x) + 4 <= |data|
    ensures DecodeRows(data, w, h).rows[y][x] == ReadPixel(data, 40 + Offset(w, h - 1 - y, x))
  {
    OffsetAtEnds(w, h);
    OffsetFits(w, h, h - 1 - y, x);
    hide Offset, ColourSize, ReadPixel;
  }

  lemma DibIsLongEnough(img: Image)
    requires img.Valid()
    ensures |Dib(img)| >= 40 + ColourSize(img.width, img.Height())
  {
    XorLength(img, img.Height());
    OffsetAtEnds(img.width, img.Height());
    hide ColourSize, Offset, XorBytes, MaskSize;
  }

  lemma DibParts(img: Image)
    ensures |DibHeader(img.width, img.Height())| == 40
    ensures Dib(img) == DibHeader(img.width, img.Height()) + XorBytes(img, img.Height())
                      + Zeros(MaskSize(img.width, img.Height()))
  {
    assert forall v :: |U32(v)| == 4 && |U16(v)| == 2;
    hide XorBytes, MaskSize, Zeros, ColourSize, U32, U16;
  }

  lemma PixelOfRow(img: Image, y: nat, x: nat)
    requires img.Valid() && |Dib(img)| >= 40 + ColourSize(img.width, img.Height()) && y < img.Height() && x < img.width
    ensures DecodeRows(Dib(img), img.width, img.Height()).rows[y][x] == img.rows[y][x]
  {
    hide Dib, DibHeader, XorBytes, MaskSize, Zeros, ColourSize, Offset, ReadPixel, DecodeRows;
    var (w, h) := (img.width, img.Height());
    DibParts(img);
    PixelReads(img, DibHeader(w, h), Zeros(MaskSize(w, h)), Dib(img), y, x);
    DecodedPixel(Dib(img), w, h, y, x);
  }

  lemma RowsRead(img: Image)
    requires img.Valid() && |Dib(img)| >= 40 + ColourSize(img.width, img.Height())
    ensures DecodeRows(Dib(img), img.width, img.Height()) == img
  {
    hide Dib, ColourSize, DecodeRows;
    forall y, x | 0 <= y < img.Height() && 0 <= x < img.width
      ensures DecodeRows(Dib(img), img.width, img.Height()).rows[y][x] == img.rows[y][x]
    {
      PixelOfRow(img, y, x);
    }
    SamePixels(DecodeRows(Dib(img), img.width, img.Height()), img);
  }

  lemma SamePixels(a: Image, b: Image)
    requires a.Valid() && b.Valid() && a.width == b.width && a.Height() == b.Height()
    requires forall y, x :: 0 <= y < a.Height() && 0 <= x < a.width ==> a.rows[y][x] == b.rows[y][x]
    ensures a == b
  {
    forall y | 0 <= y < a.Height()
      ensures a.rows[y] == b.rows[y]
    {
    }
  }

  lemma FieldsFit(w: nat, h: nat)
    ensures w % WORD == w <==> w < WORD
    ensures (h * 2 % WORD) / 2 == h <==> h * 2 < WORD
  {
  }

  /** A bitmap decodes to the very image, exactly when its sides fit the 32-bit fields of the header. */
  lemma DecodeOfDib(img: Image)
    requires img.Valid()
    ensures DecodeDIB(Dib(img)) == Some(img) <==> img.width < WORD && img.Height() * 2 < WORD
  {
    var (w, h, data) := (img.width, img.Height(), Dib(img));
    var rest := XorBytes(img, h) + Zeros(MaskSize(w, h));
    assert data == DibHeader(w, h) + rest;
    HeaderReads(w, h, rest, data);
    FieldsFit(w, h);
    DibIsLongEnough(img);
    RowsRead(img);
    hide Dib, DibHeader, XorBytes, MaskSize, ColourSize, Zeros, ReadU32, ReadU16, DecodeRows;
    var (w', h') := (ReadU32(data, 4), ReadU32(data, 8) / 2);
    assert DecodeDIB(data) == if |data| < 40 + ColourSize(w', h') then None else Some(DecodeRows(data, w', h'));
  }
}

/** The icon file: a directory of entries followed by their bitmaps, as writeICO and pngToIco build it. */
module IconFile {
  import opened Results
  import opened Text
  import opened IconImage
  import opened IconDib

  // ----- The file as a function of its bitmaps -----

  function Payload(bmps: seq<seq<Byte>>, k: nat): seq<Byte>
    requires k <= |bmps|
  {
    if k == 0 then [] else Payload(bmps, k - 1) + bmps[k - 1]
  }

  /** Where bitmap k starts in the file; for k == |bmps|, where the file ends. */
  function Start(bmps: seq<seq<Byte>>, k: nat): nat
    requires k <= |bmps|
  {
    6 + |bmps| * 16 + |Payload(bmps, k)|
  }

  /** A side in one byte: 0 stands for 256. */
  function SideByte(s: nat): Byte {
    if s >= 256 then 0 else s % 256
  }

  function EntryBytes(s: nat, size: nat, start: nat): seq<Byte> {
    [SideByte(s), SideByte(s), 0, 0, 1, 0, 32, 0] + U32(size) + U32(start)
  }

  function Directory(sizes: seq<nat>, bmps: seq<seq<Byte>>, k: nat): seq<Byte>
    requires k <= |bmps| == |sizes|
  {
    if k == 0 then [0, 0, 1, 0, |sizes| % 256, 0]
    else Directory(sizes, bmps, k - 1) + EntryBytes(sizes[k - 1], |bmps[k - 1]|, Start(bmps, k - 1))
  }

  function Ico(sizes: seq<nat>, bmps: seq<seq<Byte>>): seq<Byte>
    requires |bmps| == |sizes|
  {
    Directory(sizes, bmps, |sizes|) + Payload(bmps, |bmps|)
  }

  // ----- The two writers -----

  /** The box filter needs a block of at least one pixel for every size. */
  predicate Fits(src: Image, sizes: seq<nat>) {
    src.Valid() && forall i :: 0 <= i < |sizes| ==> 1 <= sizes[i] <= src.width && sizes[i] <= src.Height()
  }

  function Bitmap(src: Image, s: nat): seq<Byte>
    requires 1 <= s <= src.width && s <= src.Height()
  {
    Dib(Scaled(src, s))
  }

  function Bitmaps(src: Image, sizes: seq<nat>): (bmps: seq<seq<Byte>>)
    requires Fits(src, sizes)
    ensures |bmps| == |sizes|
  {
    seq(|sizes|, i requires 0 <= i < |sizes| => Bitmap(src, sizes[i]))
  }

  lemma Begins(sizes: seq<nat>, bmps: seq<seq<Byte>>)
    requires |bmps| == |sizes|
    ensures Directory(sizes, bmps, 0) == [0, 0, 1, 0, |sizes| % 256, 0] && Payload(bmps, 0) == []
    ensures Ico(sizes, bmps) == Directory(sizes, bmps, |sizes|) + Payload(bmps, |bmps|)
  {
  }

  lemma Grows(sizes: seq<nat>, bmps: seq<seq<Byte>>, k: nat)
    requires k < |bmps| == |sizes|
    ensures Directory(sizes, bmps, k + 1) == Directory(sizes, bmps, k) + EntryBytes(sizes[k], |bmps[k]|, Start(bmps, k))
    ensures Payload(bmps, k + 1) == Payload(bmps, k) + bmps[k]
    ensures Start(bmps, k) == 6 + |sizes| * 16 + |Payload(bmps, k)|
  {
    hide EntryBytes;
  }

  method EntryAtOnce(s: nat, size: nat, start: nat) returns (entry: seq<Byte>)
    ensures entry == EntryBytes(s, size, start)
  {
    var w, h: Byte := s % 256, s % 256;
    if s >= 256 {
      w, h := 0, 0;
    }
    entry := [w, h, 0, 0, 1, 0, 32, 0] + U32(size) + U32(start);
  }

  method EntryInParts(s: nat, size: nat, start: nat) returns (entry: seq<Byte>)
    ensures entry == EntryBytes(s, size, start)
  {
    var dw, dh: Byte := s % 256, s % 256;
    if s >= 256 {
      dw, dh := 0, 0;
    }
    entry := [dw, dh, 0, 0, 1, 0, 32, 0];
    entry := entry + U32(size);
    entry := entry + U32(start);
  }

  lemma BitmapsAt(src: Image, sizes: seq<nat>, k: nat)
    requires Fits(src, sizes) && k < |sizes|
    ensures src.Valid() && 1 <= sizes[k] <= src.width && sizes[k] <= src.Height()
    ensures Bitmaps(src, sizes)[k] == Bitmap(src, sizes[k])
  {
    hide Bitmap;
  }

  /** Returns what is written to the file: the directory, then the payload. */
  method WriteICO(src: Image, sizes: seq<nat>) returns (file: seq<Byte>)
    requires Fits(src, sizes)
    ensures file == Ico(sizes, Bitmaps(src, sizes))
  {
    hide *;
    ghost var bmps := Bitmaps(src, sizes);
    Begins(sizes, bmps);
    var payload: seq<Byte> := [];
    var offset := 6 + |sizes| * 16;
    var dir: seq<Byte> := [0, 0, 1, 0, |sizes| % 256, 0];
    for i := 0 to |sizes|
      invariant dir == Directory(sizes, bmps, i) && payload == Payload(bmps, i)
    {
      var s := sizes[i];
      BitmapsAt(src, sizes, i);
      Grows(sizes, bmps, i);
      var bmp := ScaledByAppending(src, s);
      var entry := EntryAtOnce(s, |bmp|, offset + |payload|);
      dir := dir + entry;
      payload := payload + bmp;
    }
    file := dir + payload;
  }

  method ScaledByAppending(src: Image, s: nat) returns (bmp: seq<Byte>)
    requires src.Valid() && 1 <= s <= src.width && s <= src.Height()
    ensures bmp == Bitmap(src, s)
  {
    var scaled := ScaleBox(src, s);
    bmp := ToDIB(Picture(scaled));
  }

  method ScaledByIndex(src: Image, s: nat) returns (bmp: seq<Byte>)
    requires src.Valid() && 1 <= s <= src.width && s <= src.Height()
    ensures bmp == Bitmap(src, s)
  {
    var scaled := ScaleBox(src, s);
    bmp := RgbaToDIB(Picture(scaled));
  }

  /** A picture that does not decode is passed on as it came. */
  method PngToIco(raw: seq<Byte>, decoded: Option<Image>, sizes: seq<nat>) returns (file: seq<Byte>)
    requires decoded.Some? ==> Fits(decoded.value, sizes)
    ensures decoded.None? ==> file == raw
    ensures decoded.Some? ==> file == Ico(sizes, Bitmaps(decoded.value, sizes))
  {
    hide *;
    if decoded.None? {
      return raw;
    }
    var src := decoded.value;
    ghost var bmps := Bitmaps(src, sizes);
    Begins(sizes, bmps);
    var payload: seq<Byte> := [];
    var offset := 6 + |sizes| * 16;
    var dir: seq<Byte> := [0, 0, 1, 0, |sizes| % 256, 0];
    for i := 0 to |sizes|
      invariant dir == Directory(sizes, bmps, i) && payload == Payload(bmps, i)
    {
      var s := sizes[i];
      BitmapsAt(src, sizes, i);
      Grows(sizes, bmps, i);
      var bmp := ScaledByIndex(src, s);
      var entry := EntryInParts(s, |bmp|, offset + |payload|);
      dir := dir + entry;
      payload := payload + bmp;
    }
    file := dir + payload;
  }

  // ----- Reading an icon file -----

  datatype Entry = Entry(width: nat, height: nat, bitmap: seq<Byte>)

  function ReadSide(b: Byte): nat {
    if b == 0 then 256 else b
  }

  function ReadEntry(data: seq<Byte>, k: nat): Option<Entry> {
    var at := 6 + k * 16;
    if |data| < at + 16 then None
    else
      var (size, start) := (ReadU32(data, at + 8), ReadU32(data, at + 12));
      if |data| < start + size then None
      else Some(Entry(ReadSide(data[at]), ReadSide(data[at + 1]), data[start..start + size]))
  }

  /** The first n entries, or None if one of them does not lie in the file. */
  function ReadEntries(data: seq<Byte>, n: nat): (r: Option<seq<Entry>>)
    ensures r.Some? ==> |r.value| == n
  {
    if n == 0 then Some([])
    else
      match (ReadEntries(data, n - 1), ReadEntry(data, n - 1))
      case (Some(front), Some(e)) => Some(front + [e])
      case (_, _) => None
  }

  function ParseICO(data: seq<Byte>): Option<seq<Entry>> {
    if |data| < 6 || data[..4] != [0, 0, 1, 0] then None else ReadEntries(data, ReadU16(data, 4))
  }

  // ----- Reading what was written -----

  lemma {:induction false} DirectoryLength(sizes: seq<nat>, bmps: seq<seq<Byte>>, k: nat)
    requires k <= |bmps| == |sizes|
    ensures |Directory(sizes, bmps, k)| == 6 + k * 16
  {
    if k > 0 {
      DirectoryLength(sizes, bmps, k - 1);
    }
  }

  lemma {:induction false} PrefixOfDirectory(sizes: seq<nat>, bmps: seq<seq<Byte>>, k: nat, n: nat)
    requires k <= n <= |bmps| == |sizes|
    ensures Directory(sizes, bmps, k) <= Directory(sizes, bmps, n)
  {
    hide EntryBytes, Start;
    if k < n {
      PrefixOfDirectory(sizes, bmps, k, n - 1);
    }
  }

  lemma {:induction false} PrefixOfPayload(bmps: seq<seq<Byte>>, k: nat, n: nat)
    requires k <= n <= |bmps|
    ensures Payload(bmps, k) <= Payload(bmps, n)
  {
    if k < n {
      PrefixOfPayload(bmps, k, n - 1);
    }
  }

  lemma FileLength(sizes: seq<nat>, bmps: seq<seq<Byte>>)
    requires |bmps| == |sizes|
    ensures |Ico(sizes, bmps)| == Start(bmps, |bmps|)
  {
    hide Directory, Payload;
    DirectoryLength(sizes, bmps, |sizes|);
  }

  /** The file, cut around the bytes of one entry. */
  lemma EntryPlace(sizes: seq<nat>, bmps: seq<seq<Byte>>, k: nat) returns (tail: seq<Byte>)
    requires k < |bmps| == |sizes|
    ensures Ico(sizes, bmps) == Directory(sizes, bmps, k) + EntryBytes(sizes[k], |bmps[k]|, Start(bmps, k)) + tail
  {
    hide *;
    Begins(sizes, bmps);
    Grows(sizes, bmps, k);
    PrefixOfDirectory(sizes, bmps, k + 1, |sizes|);
    tail := Directory(sizes, bmps, |sizes|)[|Directory(sizes, bmps, k + 1)|..] + Payload(bmps, |bmps|);
  }

  /** Every bitmap lies where its entry says. */
  lemma BitmapPlace(sizes: seq<nat>, bmps: seq<seq<Byte>>, k: nat)
    requires k < |bmps| == |sizes|
    ensures Start(bmps, k) + |bmps[k]| == Start(bmps, k + 1) <= |Ico(sizes, bmps)|
    ensures Ico(sizes, bmps)[Start(bmps, k)..Start(bmps, k) + |bmps[k]|] == bmps[k]
  {
    hide Ico, Directory, Payload, EntryBytes;
    Begins(sizes, bmps);
    Grows(sizes, bmps, k);
    DirectoryLength(sizes, bmps, |sizes|);
    PrefixOfPayload(bmps, k + 1, |bmps|);
    assert Ico(sizes, bmps)[6 + |sizes| * 16..] == Payload(bmps, |bmps|);
  }

  lemma EntryReads(front: seq<Byte>, s: nat, size: nat, start: nat, tail: seq<Byte>, data: seq<Byte>)
    requires data == front + EntryBytes(s, size, start) + tail
    ensures |data| >= |front| + 16 && data[|front|] == data[|front| + 1] == SideByte(s)
    ensures data[|front| + 2..|front| + 8] == [0, 0, 1, 0, 32, 0]
    ensures ReadU32(data, |front| + 8) == size % WORD && ReadU32(data, |front| + 12) == start % WORD
  {
    var head: seq<Byte> := [SideByte(s), SideByte(s), 0, 0, 1, 0, 32, 0];
    assert |U32(size)| == 4 && |U32(start)| == 4;
    hide ReadU32, U32, SideByte;
    var entry := EntryBytes(s, size, start);
    assert entry == head + U32(size) + U32(start);
    assert data[|front|] == entry[0] && data[|front| + 1] == entry[1];
    assert data[|front| + 2..|front| + 8] == entry[2..8] == head[2..8] == [0, 0, 1, 0, 32, 0];
    hide *;
    RegroupFour(front, head, U32(size), U32(start));
    Regroup(front + head + U32(size), U32(start), tail);
    ReadU32Inside(front + head, size, U32(start) + tail, data);
    ReadU32Inside(front + head + U32(size), start, tail, data);
  }

  lemma EntryFields(sizes: seq<nat>, bmps: seq<seq<Byte>>, k: nat)
    requires k < |bmps| == |sizes|
    ensures |Ico(sizes, bmps)| >= 6 + k * 16 + 16
    ensures Ico(sizes, bmps)[6 + k * 16] == Ico(sizes, bmps)[6 + k * 16 + 1] == SideByte(sizes[k])
    ensures Ico(sizes, bmps)[6 + k * 16 + 2..6 + k * 16 + 8] == [0, 0, 1, 0, 32, 0]
    ensures ReadU32(Ico(sizes, bmps), 6 + k * 16 + 8) == |bmps[k]| % WORD
    ensures ReadU32(Ico(sizes, bmps), 6 + k * 16 + 12) == Start(bmps, k) % WORD
  {
    hide *;
    var tail := EntryPlace(sizes, bmps, k);
    DirectoryLength(sizes, bmps, k);
    EntryReads(Directory(sizes, bmps, k), sizes[k], |bmps[k]|, Start(bmps, k), tail, Ico(sizes, bmps));
  }

  lemma FitsWord(v: nat)
    requires v < WORD
    ensures v % WORD == v
  {
  }

  lemma FirstStart(bmps: seq<seq<Byte>>)
    ensures Start(bmps, 0) == 6 + |bmps| * 16
  {
  }

  lemma {:induction false} StartsAscend(bmps: seq<seq<Byte>>, k: nat, n: nat)
    requires k <= n <= |bmps|
    ensures Start(bmps, k) <= Start(bmps, n)
  {
    PrefixOfPayload(bmps, k, n);
    hide Payload;
  }

  /**
   The directory of a file below 4 GiB: the first bitmap starts right behind the
   directory, each next one where the one before it ends, and the last ends the file.
   */
  lemma EntriesTile(sizes: seq<nat>, bmps: seq<seq<Byte>>, k: nat, data: seq<Byte>)
    requires k < |bmps| == |sizes| && data == Ico(sizes, bmps) && |data| < WORD
    ensures |data| >= 6 + |sizes| * 16 >= 6 + k * 16 + 16
    ensures k == 0 ==> ReadU32(data, 6 + k * 16 + 12) == 6 + |sizes| * 16
    ensures k + 1 < |sizes| ==>
      ReadU32(data, 6 + (k + 1) * 16 + 12) == ReadU32(data, 6 + k * 16 + 12) + ReadU32(data, 6 + k * 16 + 8)
    ensures k + 1 == |sizes| ==> |data| == ReadU32(data, 6 + k * 16 + 12) + ReadU32(data, 6 + k * 16 + 8)
  {
    hide *;
    FirstStart(bmps);
    FileLength(sizes, bmps);
    BitmapPlace(sizes, bmps, k);
    FitsWord(|bmps[k]|);
    FitsWord(Start(bmps, k));
    EntryFields(sizes, bmps, k);
    StartsAscend(bmps, 0, |bmps|);
    if k + 1 < |sizes| {
      FitsWord(Start(bmps, k + 1));
      EntryFields(sizes, bmps, k + 1);
    }
  }

  // ----- The round trip -----

  function Entries(sizes: seq<nat>, bmps: seq<seq<Byte>>, n: nat): (r: seq<Entry>)
    requires n <= |bmps| == |sizes|
    ensures |r| == n
  {
    seq(n, k requires 0 <= k < n => Entry(sizes[k], sizes[k], bmps[k]))
  }

  predicate InRange(sizes: seq<nat>) {
    forall i :: 0 <= i < |sizes| ==> 1 <= sizes[i] <= 256
  }

  lemma SideReadsBack(s: nat)
    requires 1 <= s <= 256
    ensures ReadSide(SideByte(s)) == s
  {
  }

  lemma ReadEntryFrom(data: seq<Byte>, k: nat, b: Byte, size: nat, start: nat)
    requires |data| >= 6 + k * 16 + 16 && data[6 + k * 16] == data[6 + k * 16 + 1] == b
    requires ReadU32(data, 6 + k * 16 + 8) == size && ReadU32(data, 6 + k * 16 + 12) == start
    requires start + size <= |data|
    ensures ReadEntry(data, k) == Some(Entry(ReadSide(b), ReadSide(b), data[start..start + size]))
  {
    hide ReadU32, ReadSide;
  }

  lemma EntryReadsBack(sizes: seq<nat>, bmps: seq<seq<Byte>>, k: nat)
    requires k < |bmps| == |sizes| && 1 <= sizes[k] <= 256 && |Ico(sizes, bmps)| < WORD
    ensures ReadEntry(Ico(sizes, bmps), k) == Some(Entry(sizes[k], sizes[k], bmps[k]))
  {
    hide *;
    SideReadsBack(sizes[k]);
    EntryFields(sizes, bmps, k);
    BitmapPlace(sizes, bmps, k);
    FitsWord(|bmps[k]|);
    FitsWord(Start(bmps, k));
    ReadEntryFrom(Ico(sizes, bmps), k, SideByte(sizes[k]), |bmps[k]|, Start(bmps, k));
  }

  lemma {:induction false} EntriesReadBack(sizes: seq<nat>, bmps: seq<seq<Byte>>, n: nat)
    requires n <= |bmps| == |sizes| && InRange(sizes) && |Ico(sizes, bmps)| < WORD
    ensures ReadEntries(Ico(sizes, bmps), n) == Some(Entries(sizes, bmps, n))
  {
    hide Ico, ReadEntry;
    if n > 0 {
      EntriesReadBack(sizes, bmps, n - 1);
      EntryReadsBack(sizes, bmps, n - 1);
      assert Entries(sizes, bmps, n) == Entries(sizes, bmps, n - 1) + [Entry(sizes[n - 1], sizes[n - 1], bmps[n - 1])];
    }
  }

  lemma HeadReads(sizes: seq<nat>, bmps: seq<seq<Byte>>)
    requires |bmps| == |sizes|
    ensures |Ico(sizes, bmps)| >= 6 && Ico(sizes, bmps)[..4] == [0, 0, 1, 0]
    ensures ReadU16(Ico(sizes, bmps), 4) == |sizes| % 256
  {
    Begins(sizes, bmps);
    PrefixOfDirectory(sizes, bmps, 0, |sizes|);
    hide Ico, Directory, Payload;
    assert Directory(sizes, bmps, 0) <= Ico(sizes, bmps);
  }

  /**
   An icon file below 4 GiB gives back every size and bitmap, exactly when its
   count fits the one byte written for it.
   */
  lemma ParseOfIco(sizes: seq<nat>, bmps: seq<seq<Byte>>)
    requires |bmps| == |sizes| && InRange(sizes) && |Ico(sizes, bmps)| < WORD
    ensures ParseICO(Ico(sizes, bmps)) == Some(Entries(sizes, bmps, |sizes|)) <==> |sizes| < 256
  {
    hide *;
    var data := Ico(sizes, bmps);
    HeadReads(sizes, bmps);
    ParseReads(data, |sizes| % 256);
    if |sizes| < 256 {
      EntriesReadBack(sizes, bmps, |sizes|);
    }
  }

  lemma ParseReads(data: seq<Byte>, n: nat)
    requires |data| >= 6 && data[..4] == [0, 0, 1, 0] && ReadU16(data, 4) == n
    ensures ParseICO(data) == ReadEntries(data, n)
  {
    hide ReadU16, ReadEntries;
  }

  // ----- The files the writers make -----

  lemma SideSquared(s: nat)
    requires s <= 256
    ensures s * s <= 0x1_0000 && s * AndRow(s) <= 256 * 32
  {
    assert AndRow(s) <= 32;
    hide AndRow;
    ProductsAscend(s, s, 256);
    ProductsAscend(s, AndRow(s), 32);
  }

  lemma BitmapLength(src: Image, s: nat)
    requires src.Valid() && 1 <= s <= src.width && s <= src.Height() && s <= 256
    ensures |Bitmap(src, s)| <= 270376
  {
    hide Dib, Scaled, AndRow;
    DibLength(Scaled(src, s));
    SideSquared(s);
  }

  lemma {:induction false} PayloadLength(bmps: seq<seq<Byte>>, k: nat, limit: nat)
    requires k <= |bmps| && forall i :: 0 <= i < |bmps| ==> |bmps[i]| <= limit
    ensures |Payload(bmps, k)| <= k * limit
  {
    if k > 0 {
      PayloadLength(bmps, k - 1, limit);
      Distribute(k, limit);
    }
  }

  /**
   What either writer makes of up to 255 sizes from 1 to 256 reads back, size by
   size, as the scaled images.
   */
  lemma WrittenIconReadsBack(src: Image, sizes: seq<nat>, k: nat)
    requires Fits(src, sizes) && InRange(sizes) && k < |sizes| < 256
    ensures ParseICO(Ico(sizes, Bitmaps(src, sizes))) == Some(Entries(sizes, Bitmaps(src, sizes), |sizes|))
    ensures Entries(sizes, Bitmaps(src, sizes), |sizes|)[k].width == sizes[k]
    ensures DecodeDIB(Entries(sizes, Bitmaps(src, sizes), |sizes|)[k].bitmap) == Some(Scaled(src, sizes[k]))
  {
    hide Ico, Dib, Scaled, ParseICO, Bitmap, Bitmaps, Payload;
    var bmps := Bitmaps(src, sizes);
    forall i | 0 <= i < |sizes|
      ensures |bmps[i]| <= 270376
    {
      BitmapsAt(src, sizes, i);
      BitmapLength(src, sizes[i]);
    }
    PayloadLength(bmps, |bmps|, 270376);
    FileLength(sizes, bmps);
    ParseOfIco(sizes, bmps);
    BitmapsAt(src, sizes, k);
    BitmapIsDib(src, sizes[k]);
    DecodeOfDib(Scaled(src, sizes[k]));
  }

  lemma BitmapIsDib(src: Image, s: nat)
    requires 1 <= s <= src.width && s <= src.Height()
    ensures Bitmap(src, s) == Dib(Scaled(src, s))
  {
    hide Dib, Scaled;
  }
}

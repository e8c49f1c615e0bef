/**
 The ustar archives aoox writes (POSIX.1-2017, pax utility, "ustar Interchange
 Format") and the incremental reader that takes the first file out of one.
 */
module Tar {
  import opened Bytes
  import opened Octal

  // ---- the header ---------------------------------------------------------------

  /** `buffer.write(s, off, max)`: at most `max` bytes are written. */
  function Put(h: seq<byte>, s: seq<byte>, off: nat, max: nat): (r: seq<byte>)
    requires off + max <= |h|
    ensures |r| == |h|
  {
    var w := if |s| <= max then s else s[..max];
    h[..off] + w + h[off + |w|..]
  }

  /** A number field: padded octal digits and a NUL. */
  function Field(n: nat, width: nat): (r: seq<byte>)
    ensures |r| >= width + 1
  {
    Pad(Digits(n), width) + [0]
  }

  const BLANK: seq<byte> := [32, 32, 32, 32, 32, 32, 32, 32]
  const NO_ID: seq<byte> := [48, 48, 48, 48, 48, 48, 48, 0]
  const MAGIC: seq<byte> := [117, 115, 116, 97, 114, 0]

  datatype File = File(name: seq<byte>, data: seq<byte>, mode: nat)

  function Fill(n: nat): (r: seq<byte>)
    ensures |r| == n && forall i | 0 <= i < n :: r[i] == 0
  {
    if n == 0 then [] else [0 as byte] + Fill(n - 1)
  }

  /** The header with a blank checksum field. */
  function Unsummed(f: File, mtime: nat): (h: seq<byte>)
    ensures |h| == 512
  {
    var h0 := Put(Fill(512), f.name, 0, 100);
    var h1 := Put(h0, Field(f.mode, 7), 100, 8);
    var h2 := Put(h1, NO_ID, 108, 8);
    var h3 := Put(h2, NO_ID, 116, 8);
    var h4 := Put(h3, Field(|f.data|, 11), 124, 12);
    var h5 := Put(h4, Field(mtime, 11), 136, 12);
    var h6 := Put(h5, BLANK, 148, 8);
    var h7 := Put(h6, [48], 156, 1);
    var h8 := Put(h7, MAGIC, 257, 6);
    Put(h8, [48, 48], 263, 2)
  }

  function Sum(h: seq<byte>): (s: nat)
    ensures s <= 255 * |h|
  {
    if h == [] then 0 else Sum(h[..|h| - 1]) + h[|h| - 1] as int
  }

  function ChecksumField(sum: nat): seq<byte> {
    Pad(Digits(sum), 6) + [0, 32]
  }

  function Header(f: File, mtime: nat): (h: seq<byte>)
    ensures |h| == 512
  {
    var h := Unsummed(f, mtime);
    Put(h, ChecksumField(Sum(h)), 148, 8)
  }

  function Padding(n: nat): nat {
    (512 - n % 512) % 512
  }

  function Entry(f: File, mtime: nat): seq<byte> {
    Header(f, mtime) + f.data + Fill(Padding(|f.data|))
  }

  function Archive(files: seq<File>, mtime: nat): seq<byte> {
    if files == [] then Fill(1024) else Entry(files[0], mtime) + Archive(files[1..], mtime)
  }

  // ---- writing it -----------------------------------------------------------------

  /** What `Put` leaves, byte by byte. */
  lemma PutEach(h: seq<byte>, s: seq<byte>, off: nat, max: nat, r: seq<byte>)
    requires off + max <= |h| == |r|
    requires var n := if |s| <= max then |s| else max;
             forall j | 0 <= j < |r| :: r[j] == if off <= j < off + n then s[j - off] else h[j]
    ensures r == Put(h, s, off, max)
  {
  }

  method WriteInto(a: array<byte>, s: seq<byte>, off: nat, max: nat)
    requires off + max <= a.Length
    modifies a
    ensures a[..] == Put(old(a[..]), s, off, max)
  {
    var n := if |s| <= max then |s| else max;
    for i := 0 to n
      invariant forall j | 0 <= j < a.Length :: a[j] == if off <= j < off + i then s[j - off] else old(a[j])
    {
      a[off + i] := s[i];
    }
    PutEach(old(a[..]), s, off, max, a[..]);
  }

  /** The header buffer, written field by field in place. */
  method WriteFields(header: array<byte>, f: File, mtime: nat)
    requires header[..] == Fill(512)
    modifies header
    ensures header[..] == Unsummed(f, mtime)
  {
    WriteInto(header, f.name, 0, 100);
    WriteInto(header, Field(f.mode, 7), 100, 8);
    WriteInto(header, NO_ID, 108, 8);
    WriteInto(header, NO_ID, 116, 8);
    WriteInto(header, Field(|f.data|, 11), 124, 12);
    WriteInto(header, Field(mtime, 11), 136, 12);
    WriteInto(header, BLANK, 148, 8);
    WriteInto(header, [48], 156, 1);
    WriteInto(header, MAGIC, 257, 6);
    WriteInto(header, [48, 48], 263, 2);
  }

  method SumBytes(header: array<byte>) returns (sum: nat)
    ensures sum == Sum(header[..])
  {
    sum := 0;
    for i := 0 to header.Length
      invariant sum == Sum(header[..i])
    {
      assert header[..i + 1][..i] == header[..i];
      sum := sum + header[i] as int;
    }
    assert header[..header.Length] == header[..];
  }

  /** The header is summed with a blank checksum field, and the field then written. */
  method WriteEntry(f: File, mtime: nat) returns (entry: seq<byte>)
    ensures entry == Entry(f, mtime)
  {
    var header := new byte[512](_ => 0);
    assert header[..] == Fill(512);
    WriteFields(header, f, mtime);
    var sum := SumBytes(header);
    WriteInto(header, ChecksumField(sum), 148, 8);
    entry := header[..] + f.data + Fill(Padding(|f.data|));
  }

  method WriteArchive(files: seq<File>, mtime: nat) returns (archive: seq<byte>)
    ensures archive == Archive(files, mtime)
  {
    archive := Fill(1024);
    for i := |files| downto 0
      invariant archive == Archive(files[i..], mtime)
    {
      assert files[i..][0] == files[i] && files[i..][1..] == files[i + 1..];
      var e := WriteEntry(files[i], mtime);
      archive := e + archive;
    }
    assert files[0..] == files;
  }

  // ---- what the header says --------------------------------------------------------

  lemma PutSlice(h: seq<byte>, s: seq<byte>, off: nat, max: nat, lo: nat, hi: nat)
    requires off + max <= |h| && lo <= hi <= |h| && (hi <= off || off + max <= lo)
    ensures Put(h, s, off, max)[lo..hi] == h[lo..hi]
  {
  }

  lemma PutRead(h: seq<byte>, s: seq<byte>, off: nat, max: nat)
    requires off + max <= |h|
    ensures Put(h, s, off, max)[off..off + (if |s| <= max then |s| else max)] == if |s| <= max then s else s[..max]
  {
  }

  lemma FieldsInPlace(f: File, mtime: nat)
    ensures Unsummed(f, mtime)[124..136] == Field(|f.data|, 11)[..12]
    ensures Unsummed(f, mtime)[148..156] == BLANK
  {
    var h0 := Put(Fill(512), f.name, 0, 100);
    var h1 := Put(h0, Field(f.mode, 7), 100, 8);
    var h2 := Put(h1, NO_ID, 108, 8);
    var h3 := Put(h2, NO_ID, 116, 8);
    var size := Field(|f.data|, 11);
    var h4 := Put(h3, size, 124, 12);
    PutRead(h3, size, 124, 12);
    assert (if |size| <= 12 then size else size[..12]) == size[..12];
    var h5 := Put(h4, Field(mtime, 11), 136, 12);
    PutSlice(h4, Field(mtime, 11), 136, 12, 124, 136);
    var h6 := Put(h5, BLANK, 148, 8);
    PutSlice(h5, BLANK, 148, 8, 124, 136);
    PutRead(h5, BLANK, 148, 8);
    var h7 := Put(h6, [48], 156, 1);
    PutSlice(h6, [48], 156, 1, 124, 136);
    PutSlice(h6, [48], 156, 1, 148, 156);
    var h8 := Put(h7, MAGIC, 257, 6);
    PutSlice(h7, MAGIC, 257, 6, 124, 136);
    PutSlice(h7, MAGIC, 257, 6, 148, 156);
    PutSlice(h8, [48, 48], 263, 2, 124, 136);
    PutSlice(h8, [48, 48], 263, 2, 148, 156);
  }

  /** The sum of all bytes: of none it is zero, of one it is the byte, and of two parts it is that of both. */
  lemma {:induction false} SumAdds(a: seq<byte>, b: seq<byte>, x: byte)
    ensures Sum([]) == 0 && Sum([x]) == x as int && Sum(a + b) == Sum(a) + Sum(b)
    decreases |b|
  {
    assert [x][..0] == [];
    if b == [] {
      assert a + b == a;
    } else {
      assert (a + b)[..|a + b| - 1] == a + b[..|b| - 1];
      SumAdds(a, b[..|b| - 1], x);
    }
  }

  /**
   The checksum always fits its six digits, and reads back as the sum of the
   header with its own field blank.
   */
  lemma ChecksumRight(f: File, mtime: nat)
    ensures var h := Header(f, mtime);
            && AllDigits(h[148..154]) && h[154] == 0 && h[155] == 32
            && Value(h[148..154]) == Sum(h[..148] + [32, 32, 32, 32, 32, 32, 32, 32] + h[156..]) < Pow8(6)
  {
    FieldsInPlace(f, mtime);
    SummedHeader(Unsummed(f, mtime));
    BlankedOut(Header(f, mtime));
  }

  lemma BlankedOut(h: seq<byte>)
    requires |h| == 512
    ensures Put(h, BLANK, 148, 8) == h[..148] + [32, 32, 32, 32, 32, 32, 32, 32] + h[156..]
  {
  }

  lemma SummedHeader(u: seq<byte>)
    requires |u| == 512 && u[148..156] == BLANK
    ensures var h := Put(u, ChecksumField(Sum(u)), 148, 8);
            && AllDigits(h[148..154]) && h[154] == 0 && h[155] == 32
            && Value(h[148..154]) == Sum(Put(h, BLANK, 148, 8)) < Pow8(6)
  {
    var sum := Sum(u);
    ChecksumFits(sum);
    var digits := Pad(Digits(sum), 6);
    ValueOfPadded(sum, 6);
    FieldAt148(u, digits);
    PutBack(u, digits + [0, 32]);
  }

  lemma ChecksumFits(sum: nat)
    requires sum <= 255 * 512
    ensures |Pad(Digits(sum), 6)| == 6 && sum < Pow8(6)
  {
    assert Pow8(6) == 262144 by {
      assert Pow8(2) == 64 && Pow8(4) == 4096;
    }
    DigitCount(sum, 6);
  }

  lemma FieldAt148(u: seq<byte>, digits: seq<byte>)
    requires |u| == 512 && |digits| == 6
    ensures var h := Put(u, digits + [0, 32], 148, 8);
            h[148..154] == digits && h[154] == 0 && h[155] == 32
  {
  }

  lemma PutBack(u: seq<byte>, c: seq<byte>)
    requires |u| == 512 && |c| == 8 && u[148..156] == BLANK
    ensures Put(Put(u, c, 148, 8), BLANK, 148, 8) == u
  {
    assert u == u[..148] + u[148..156] + u[156..];
  }

  // ---- every byte of the header --------------------------------------------------

  /** One byte behind `Put`. */
  lemma PutAt(h: seq<byte>, s: seq<byte>, off: nat, max: nat, j: nat)
    requires off + max <= |h| && j < |h|
    ensures var n := if |s| <= max then |s| else max;
            Put(h, s, off, max)[j] == if off <= j < off + n then s[j - off] else h[j]
  {
  }

  /** The first half of the fields, byte by byte. */
  lemma FrontAt(h: seq<byte>, name: seq<byte>, mode: seq<byte>, size: seq<byte>, j: nat)
    requires |h| == 512 && |mode| >= 8 && |size| >= 12 && j < 512
    ensures var h1 := Put(Put(h, name, 0, 100), mode, 100, 8);
            Put(Put(Put(h1, NO_ID, 108, 8), NO_ID, 116, 8), size, 124, 12)[j] ==
            if j < 100 then (if j < |name| then name[j] else h[j])
            else if j < 108 then mode[j - 100]
            else if j < 116 then NO_ID[j - 108]
            else if j < 124 then NO_ID[j - 116]
            else if j < 136 then size[j - 124]
            else h[j]
  {
    var h0 := Put(h, name, 0, 100);
    PutAt(h, name, 0, 100, j);
    var h1 := Put(h0, mode, 100, 8);
    PutAt(h0, mode, 100, 8, j);
    var h2 := Put(h1, NO_ID, 108, 8);
    PutAt(h1, NO_ID, 108, 8, j);
    var h3 := Put(h2, NO_ID, 116, 8);
    PutAt(h2, NO_ID, 116, 8, j);
    PutAt(h3, size, 124, 12, j);
  }

  /** The second half. */
  lemma BackAt(h: seq<byte>, time: seq<byte>, j: nat)
    requires |h| == 512 && |time| >= 12 && j < 512
    ensures var h6 := Put(Put(h, time, 136, 12), BLANK, 148, 8);
            Put(Put(Put(h6, [48], 156, 1), MAGIC, 257, 6), [48, 48], 263, 2)[j] ==
            if 136 <= j < 148 then time[j - 136]
            else if 148 <= j < 156 then 32
            else if j == 156 then 48
            else if 257 <= j < 263 then MAGIC[j - 257]
            else if 263 <= j < 265 then 48
            else h[j]
  {
    var h5 := Put(h, time, 136, 12);
    PutAt(h, time, 136, 12, j);
    var h6 := Put(h5, BLANK, 148, 8);
    PutAt(h5, BLANK, 148, 8, j);
    var h7 := Put(h6, [48], 156, 1);
    PutAt(h6, [48], 156, 1, j);
    var h8 := Put(h7, MAGIC, 257, 6);
    PutAt(h7, MAGIC, 257, 6, j);
    PutAt(h8, [48, 48], 263, 2, j);
  }

  /** Every byte but those of the checksum. */
  ghost predicate Laid(h: seq<byte>, f: File, mtime: nat) {
    |h| == 512 && forall j: nat | j < 512 :: ByteLaid(h[j], f, mtime, j)
  }

  ghost predicate ByteLaid(b: byte, f: File, mtime: nat, j: nat) {
    && (j < 100 ==> b == if j < |f.name| then f.name[j] else 0)
    && (100 <= j < 108 ==> b == Field(f.mode, 7)[j - 100])
    && (108 <= j < 116 ==> b == NO_ID[j - 108])
    && (116 <= j < 124 ==> b == NO_ID[j - 116])
    && (124 <= j < 136 ==> b == Field(|f.data|, 11)[j - 124])
    && (136 <= j < 148 ==> b == Field(mtime, 11)[j - 136])
    && (j == 156 || 263 <= j < 265 ==> b == 48)
    && (257 <= j < 263 ==> b == MAGIC[j - 257])
    && (157 <= j < 257 || 265 <= j ==> b == 0)
  }

  lemma HeaderAt(f: File, mtime: nat, j: nat)
    requires j < 512
    ensures ByteLaid(Header(f, mtime)[j], f, mtime, j)
  {
    var h0, mode, size, time := Fill(512), Field(f.mode, 7), Field(|f.data|, 11), Field(mtime, 11);
    var front := Put(Put(Put(Put(Put(h0, f.name, 0, 100), mode, 100, 8), NO_ID, 108, 8), NO_ID, 116, 8), size, 124, 12);
    FrontAt(h0, f.name, mode, size, j);
    BackAt(front, time, j);
    PutAt(Unsummed(f, mtime), ChecksumField(Sum(Unsummed(f, mtime))), 148, 8, j);
  }

  lemma HeaderLaid(f: File, mtime: nat)
    ensures Laid(Header(f, mtime), f, mtime)
  {
    forall j: nat | j < 512 ensures ByteLaid(Header(f, mtime)[j], f, mtime, j) { HeaderAt(f, mtime, j); }
  }

  /** So many octal digits that give the number, and a NUL. */
  ghost predicate OctalField(h: seq<byte>, off: nat, width: nat, n: nat)
    requires off + width < |h|
  {
    && (forall j | off <= j < off + width :: 48 <= h[j] < 56)
    && AllDigits(h[off..off + width]) && Value(h[off..off + width]) == n && h[off + width] == 0
  }

  lemma NumberInPlace(h: seq<byte>, off: nat, width: nat, n: nat)
    requires width >= 1 && off + width < |h| && n < Pow8(width)
    requires forall j | off <= j <= off + width :: h[j] == Field(n, width)[j - off]
    ensures OctalField(h, off, width, n)
  {
    var digits := Pad(Digits(n), width);
    DigitCount(n, width);
    ValueOfPadded(n, width);
    assert Field(n, width) == digits + [0];
    assert h[off..off + width] == digits;
    forall j | off <= j < off + width ensures 48 <= h[j] < 56 {
      assert h[j] == digits[j - off] && IsDigit(digits[j - off]);
    }
  }

  /** The name fills its field from the front; the unused fields hold zeros. */
  ghost predicate NameAndZeros(h: seq<byte>, name: seq<byte>)
    requires |h| == 512
  {
    && (forall j | 0 <= j < 100 :: h[j] == if j < |name| then name[j] else 0)
    && (forall j | 157 <= j < 257 || 265 <= j < 512 :: h[j] == 0)
  }

  /** User and group 0, a regular file, and the mark of the format. */
  ghost predicate KindAndMark(h: seq<byte>)
    requires |h| == 512
  {
    && (forall j | 108 <= j < 115 || 116 <= j < 123 :: h[j] == 48) && h[115] == h[123] == 0
    && h[156] == 48 && h[257..263] == [117, 115, 116, 97, 114, 0] && h[263] == h[264] == 48
  }

  lemma LaidName(h: seq<byte>, f: File, mtime: nat)
    requires Laid(h, f, mtime)
    ensures NameAndZeros(h, f.name)
  {
    assert forall j: nat | j < 512 :: ByteLaid(h[j], f, mtime, j);
  }

  lemma LaidKind(h: seq<byte>, f: File, mtime: nat)
    requires Laid(h, f, mtime)
    ensures KindAndMark(h)
  {
    forall j: nat | 108 <= j < 124 ensures h[j] == if j == 115 || j == 123 then 0 else 48 {
      assert ByteLaid(h[j], f, mtime, j);
    }
    assert ByteLaid(h[156], f, mtime, 156) && ByteLaid(h[263], f, mtime, 263) && ByteLaid(h[264], f, mtime, 264);
    forall j: nat | 257 <= j < 263 ensures h[j] == MAGIC[j - 257] { assert ByteLaid(h[j], f, mtime, j); }
    assert h[257..263] == MAGIC;
  }

  lemma LaidMode(h: seq<byte>, f: File, mtime: nat)
    requires Laid(h, f, mtime) && f.mode < Pow8(7)
    ensures OctalField(h, 100, 7, f.mode)
  {
    forall j: nat | 100 <= j <= 107 ensures h[j] == Field(f.mode, 7)[j - 100] { assert ByteLaid(h[j], f, mtime, j); }
    NumberInPlace(h, 100, 7, f.mode);
  }

  lemma LaidSize(h: seq<byte>, f: File, mtime: nat)
    requires Laid(h, f, mtime) && |f.data| < Pow8(11)
    ensures OctalField(h, 124, 11, |f.data|)
  {
    forall j: nat | 124 <= j <= 135 ensures h[j] == Field(|f.data|, 11)[j - 124] { assert ByteLaid(h[j], f, mtime, j); }
    NumberInPlace(h, 124, 11, |f.data|);
  }

  lemma LaidTime(h: seq<byte>, f: File, mtime: nat)
    requires Laid(h, f, mtime) && mtime < Pow8(11)
    ensures OctalField(h, 136, 11, mtime)
  {
    forall j: nat | 136 <= j <= 147 ensures h[j] == Field(mtime, 11)[j - 136] { assert ByteLaid(h[j], f, mtime, j); }
    NumberInPlace(h, 136, 11, mtime);
  }

  /** The fields of a regular file, where the format has them. */
  lemma HeaderLayout(f: File, mtime: nat)
    requires f.mode < Pow8(7) && |f.data| < Pow8(11) && mtime < Pow8(11)
    ensures var h := Header(f, mtime);
            && NameAndZeros(h, f.name) && KindAndMark(h)
            && OctalField(h, 100, 7, f.mode) && OctalField(h, 124, 11, |f.data|) && OctalField(h, 136, 11, mtime)
  {
    var h := Header(f, mtime);
    HeaderLaid(f, mtime);
    LaidName(h, f, mtime);
    LaidKind(h, f, mtime);
    LaidMode(h, f, mtime);
    LaidSize(h, f, mtime);
    LaidTime(h, f, mtime);
  }

  lemma PaddingFills(n: nat) returns (k: nat)
    ensures n + Padding(n) == 512 * k
  {
    k := if n % 512 == 0 then n / 512 else n / 512 + 1;
  }

  lemma WholeBlocks(k: nat)
    ensures (512 * k) % 512 == 0
  {
  }

  /** Every entry fills whole 512-byte blocks. */
  lemma EntryBlocks(f: File, mtime: nat)
    ensures |Entry(f, mtime)| % 512 == 0
  {
    Blocks(Header(f, mtime), f.data);
  }

  lemma Blocks(h: seq<byte>, data: seq<byte>)
    requires |h| == 512
    ensures |h + data + Fill(Padding(|data|))| % 512 == 0
  {
    var k := PaddingFills(|data|);
    WholeBlocks(k + 1);
  }

  // ---- reading the first file ------------------------------------------------------

  predicate IsSpace(b: byte) {
    9 <= b <= 13 || b == 32
  }

  function TrimStart(s: seq<byte>): seq<byte> {
    if s != [] && IsSpace(s[0]) then TrimStart(s[1..]) else s
  }

  /** `toString('ascii')`: the high bit is dropped. */
  function Ascii(s: seq<byte>): (r: seq<byte>)
    ensures |r| == |s| && forall i | 0 <= i < |s| :: r[i] == s[i] % 128
  {
    if s == [] then [] else [s[0] % 128] + Ascii(s[1..])
  }

  /** `parseInt(text.trim(), 8)`, with 0 where it yields no number. */
  function ParseSize(field: seq<byte>): int {
    var t := TrimStart(Ascii(field));
    if t != [] && t[0] == 45 then -(Value(Leading(t[1..])) as int)
    else if t != [] && t[0] == 43 then Value(Leading(t[1..]))
    else Value(Leading(t))
  }

  function SizeOf(header: seq<byte>): int
    requires |header| >= 512
  {
    ParseSize(header[124..136])
  }

  /** The reader between two pushes: header bytes so far, and the bytes still due. */
  datatype Reader = Reader(header: seq<byte>, remaining: int)

  function Step(r: Reader, chunk: seq<byte>): (Reader, seq<byte>) {
    var h := r.header + chunk;
    if r.remaining < 0 && |h| < 512 then (Reader(h, r.remaining), [])
    else
      var left := if r.remaining < 0 then SizeOf(h) else r.remaining;
      var buf := if r.remaining < 0 then h[512..] else chunk;
      var header := if r.remaining < 0 then [] else r.header;
      if left <= 0 then (Reader(header, left), [])
      else
        var out := if |buf| <= left then buf else buf[..left];
        (Reader(header, left - |out|), out)
  }

  class SingleFileUntar {
    var header: seq<byte>
    var remaining: int

    constructor ()
      ensures Reader(header, remaining) == Reader([], -1)
    {
      header, remaining := [], -1;
    }

    method Push(chunk: seq<byte>) returns (out: seq<byte>)
      modifies this
      ensures (Reader(header, remaining), out) == Step(old(Reader(header, remaining)), chunk)
    {
      var buf := chunk;
      if remaining < 0 {
        header := header + buf;
        if |header| < 512 { return []; }
        remaining := SizeOf(header);
        buf := header[512..];
        header := [];
      }
      if remaining <= 0 { return []; }
      out := if |buf| <= remaining then buf else buf[..remaining];
      remaining := remaining - |out|;
    }
  }

  ghost function Pushed(r: Reader, chunks: seq<seq<byte>>): seq<byte>
    decreases |chunks|
  {
    if chunks == [] then []
    else Step(r, chunks[0]).1 + Pushed(Step(r, chunks[0]).0, chunks[1..])
  }

  function Take(b: seq<byte>, n: int): seq<byte> {
    if n <= 0 then [] else if |b| <= n then b else b[..n]
  }

  /** What the whole stream holds of its first file. */
  function FirstFile(b: seq<byte>): seq<byte> {
    if |b| < 512 then [] else Take(b[512..], SizeOf(b))
  }

  lemma {:induction false} PushedBody(left: nat, chunks: seq<seq<byte>>)
    ensures Pushed(Reader([], left), chunks) == Take(Join(chunks), left)
    decreases |chunks|
  {
    if chunks != [] {
      var c, rest := chunks[0], Join(chunks[1..]);
      var out := Step(Reader([], left), c).1;
      assert out == Take(c, left);
      PushedBody(left - |out|, chunks[1..]);
      assert Join(chunks) == c + rest;
      if |c| <= left {
        assert Take(c + rest, left) == c + Take(rest, left - |c|);
      }
    }
  }

  lemma SizeOfPrefix(a: seq<byte>, b: seq<byte>)
    requires |a| >= 512
    ensures SizeOf(a + b) == SizeOf(a)
  {
    assert (a + b)[124..136] == a[124..136];
  }

  lemma PushOne(r: Reader, chunks: seq<seq<byte>>)
    requires chunks != []
    ensures Pushed(r, chunks) == Step(r, chunks[0]).1 + Pushed(Step(r, chunks[0]).0, chunks[1..])
    ensures Join(chunks) == chunks[0] + Join(chunks[1..])
  {
  }

  lemma StepInHeader(h: seq<byte>, c: seq<byte>)
    requires |h + c| < 512
    ensures Step(Reader(h, -1), c) == (Reader(h + c, -1), [])
  {
  }

  lemma StepPastHeader(h: seq<byte>, c: seq<byte>)
    requires |h + c| >= 512 && SizeOf(h + c) >= 0
    ensures var out := Take((h + c)[512..], SizeOf(h + c));
            Step(Reader(h, -1), c) == (Reader([], SizeOf(h + c) - |out|), out)
  {
  }

  lemma {:induction false} PushedHeader(h: seq<byte>, chunks: seq<seq<byte>>)
    requires |h| < 512
    requires var b := h + Join(chunks); |b| < 512 || SizeOf(b) >= 0
    ensures Pushed(Reader(h, -1), chunks) == FirstFile(h + Join(chunks))
    decreases |chunks|
  {
    if chunks == [] {
      assert h + Join(chunks) == h;
    } else {
      var c, rest := chunks[0], Join(chunks[1..]);
      PushOne(Reader(h, -1), chunks);
      assert h + Join(chunks) == (h + c) + rest;
      if |h + c| < 512 {
        StepInHeader(h, c);
        PushedHeader(h + c, chunks[1..]);
      } else {
        SizeOfPrefix(h + c, rest);
        StepPastHeader(h, c);
        PushedRest(h + c, chunks[1..]);
      }
    }
  }

  lemma FirstFileOf(h: seq<byte>, rest: seq<byte>)
    requires |h| >= 512
    ensures FirstFile(h + rest) == Take(h[512..] + rest, SizeOf(h))
  {
    SizeOfPrefix(h, rest);
    assert (h + rest)[512..] == h[512..] + rest;
  }

  /** Once the header is complete, the rest of the chunks is the body. */
  lemma PushedRest(h: seq<byte>, chunks: seq<seq<byte>>)
    requires |h| >= 512 && SizeOf(h) >= 0
    ensures var out := Take(h[512..], SizeOf(h));
            out + Pushed(Reader([], SizeOf(h) - |out|), chunks) == FirstFile(h + Join(chunks))
  {
    FirstFileOf(h, Join(chunks));
    PushedBody(SizeOf(h) - |Take(h[512..], SizeOf(h))|, chunks);
    TakeTwice(h[512..], Join(chunks), SizeOf(h));
  }

  lemma TakeTwice(a: seq<byte>, b: seq<byte>, n: nat)
    ensures Take(a + b, n) == Take(a, n) + Take(b, n - |Take(a, n)|)
  {
  }

  /** However the stream is cut, the reader yields the same bytes. */
  lemma ChunkingInvisible(chunks: seq<seq<byte>>)
    requires |Join(chunks)| < 512 || SizeOf(Join(chunks)) >= 0
    ensures Pushed(Reader([], -1), chunks) == FirstFile(Join(chunks))
  {
    assert [] + Join(chunks) == Join(chunks);
    PushedHeader([], chunks);
  }

  /** After a header of negative size the reader takes what follows for another header. */
  lemma NegativeSizeReadsOn(h: seq<byte>, g: seq<byte>, chunks: seq<seq<byte>>)
    requires |h| == 512 && SizeOf(h) < 0 && |g| == 513 && SizeOf(g) == 1 && chunks == [h, g]
    ensures Pushed(Reader([], -1), chunks) == [g[512]] && FirstFile(Join(chunks)) == []
  {
    var r := Reader([], SizeOf(h));
    assert [] + h == h && [] + g == g && g[512..] == [g[512]];
    assert Step(Reader([], -1), h) == (r, []);
    assert chunks[1..] == [g] && chunks[1..][1..] == [];
    assert Step(r, g).1 == [g[512]];
    assert Pushed(Step(r, g).0, []) == [];
    assert Pushed(r, [g]) == [g[512]] + [] == [g[512]];
    assert Join([g]) == g + Join([]) == g;
    assert Join(chunks) == h + g;
    SizeOfPrefix(h, g);
  }

  lemma OneByteFile() returns (g: seq<byte>)
    ensures |g| == 513 && SizeOf(g) == 1
  {
    var f := File([], [7], 0);
    g := Header(f, 0) + [7];
    SizeOfPrefix(Header(f, 0), [7]);
    SizeRead(f, 0);
    PowPositive(11);
    assert Pow8(12) == 8 * Pow8(11);
  }

  /**
   Whether the cutting of the stream can be seen depends on the header alone: it
   never can exactly when the header does not announce a negative size.
   */
  lemma ChunkingInvisibleIff(h: seq<byte>)
    requires |h| == 512
    ensures SizeOf(h) >= 0 <==>
            forall chunks | h <= Join(chunks) :: Pushed(Reader([], -1), chunks) == FirstFile(Join(chunks))
  {
    if SizeOf(h) >= 0 {
      forall chunks | h <= Join(chunks) ensures Pushed(Reader([], -1), chunks) == FirstFile(Join(chunks)) {
        assert Join(chunks) == h + Join(chunks)[512..];
        SizeOfPrefix(h, Join(chunks)[512..]);
        ChunkingInvisible(chunks);
      }
    } else {
      var g := OneByteFile();
      var chunks := [h, g];
      NegativeSizeReadsOn(h, g, chunks);
      assert Join(chunks) == h + Join(chunks[1..]);
      assert h <= Join(chunks);
    }
  }

  // ---- round trip --------------------------------------------------------------------

  lemma {:induction false} AsciiDigits(s: seq<byte>)
    requires forall i | 0 <= i < |s| :: s[i] < 128
    ensures Ascii(s) == s
  {
  }

  lemma SizeFieldInPlace(f: File, mtime: nat)
    ensures Header(f, mtime)[124..136] == Field(|f.data|, 11)[..12]
  {
    var u := Unsummed(f, mtime);
    PutSlice(u, ChecksumField(Sum(u)), 148, 8, 124, 136);
    FieldsInPlace(f, mtime);
  }

  lemma ParseDigits(s: seq<byte>, rest: seq<byte>)
    requires s != [] && AllDigits(s) && (rest == [] || rest == [0])
    ensures ParseSize(s + rest) == Value(s)
  {
    var t := s + rest;
    AsciiDigits(t);
    assert t[0] == s[0] && IsDigit(t[0]);
    assert TrimStart(t) == t;
    LeadingOf(s, rest);
  }

  /**
   Size fields of other writers: digits behind any blanks and a sign, ended by
   the field's end or by anything that is no digit.
   */
  lemma SizeFieldForms(blanks: seq<byte>, sign: seq<byte>, digits: seq<byte>, rest: seq<byte>)
    requires forall i | 0 <= i < |blanks| :: blanks[i] == 32 || 9 <= blanks[i] <= 13
    requires sign in {[], [43], [45]} && digits != [] && AllDigits(digits)
    requires rest == [] || !(48 <= rest[0] % 128 < 56)
    ensures ParseSize(blanks + (sign + (digits + rest))) == if sign == [45] then -(Value(digits) as int) else Value(digits)
  {
    FieldText(blanks, sign, digits, rest);
    AsciiStart(rest);
    ReadTrimmed(blanks + (sign + (digits + rest)), sign, digits, Ascii(rest));
  }

  lemma AsciiStart(rest: seq<byte>)
    ensures rest == [] ==> Ascii(rest) == []
    ensures rest != [] ==> Ascii(rest) != [] && Ascii(rest)[0] == rest[0] % 128
  {
  }

  lemma ReadTrimmed(field: seq<byte>, sign: seq<byte>, digits: seq<byte>, rest: seq<byte>)
    requires TrimStart(Ascii(field)) == sign + (digits + rest)
    requires sign in {[], [43], [45]} && digits != [] && AllDigits(digits) && (rest == [] || !IsDigit(rest[0]))
    ensures ParseSize(field) == if sign == [45] then -(Value(digits) as int) else Value(digits)
  {
    SignRead(sign, digits, rest);
  }

  lemma FieldText(blanks: seq<byte>, sign: seq<byte>, digits: seq<byte>, rest: seq<byte>)
    requires forall i | 0 <= i < |blanks| :: blanks[i] == 32 || 9 <= blanks[i] <= 13
    requires sign in {[], [43], [45]} && digits != [] && AllDigits(digits)
    ensures TrimStart(Ascii(blanks + (sign + (digits + rest)))) == sign + (digits + Ascii(rest))
  {
    var tail := digits + Ascii(rest);
    AsciiConcat(blanks, sign + (digits + rest));
    AsciiConcat(sign, digits + rest);
    AsciiConcat(digits, rest);
    AsciiDigits(blanks);
    AsciiDigits(sign);
    AsciiDigits(digits);
    assert IsDigit(digits[0]) && tail[0] == digits[0];
    TrimmedBlanks(blanks, sign + tail);
  }

  lemma SignRead(sign: seq<byte>, digits: seq<byte>, rest: seq<byte>)
    requires sign in {[], [43], [45]} && digits != [] && AllDigits(digits) && (rest == [] || !IsDigit(rest[0]))
    ensures var t := sign + (digits + rest);
            (if t[0] == 45 then -(Value(Leading(t[1..])) as int)
             else if t[0] == 43 then Value(Leading(t[1..])) else Value(Leading(t)))
            == if sign == [45] then -(Value(digits) as int) else Value(digits)
  {
    var t := sign + (digits + rest);
    LeadingOf(digits, rest);
    if sign == [] {
      assert t == digits + rest && IsDigit(digits[0]);
    } else {
      assert t[0] == sign[0] && t[1..] == digits + rest;
    }
  }

  lemma {:induction false} AsciiConcat(a: seq<byte>, b: seq<byte>)
    ensures Ascii(a + b) == Ascii(a) + Ascii(b)
  {
    forall i | 0 <= i < |a + b|
      ensures Ascii(a + b)[i] == (Ascii(a) + Ascii(b))[i]
    {
      assert (a + b)[i] == if i < |a| then a[i] else b[i - |a|];
    }
  }

  lemma {:induction false} TrimmedBlanks(blanks: seq<byte>, a: seq<byte>)
    requires forall i | 0 <= i < |blanks| :: blanks[i] == 32 || 9 <= blanks[i] <= 13
    requires a != [] && a[0] != 32 && !(9 <= a[0] <= 13)
    ensures TrimStart(blanks + a) == a
  {
    if blanks == [] {
      assert blanks + a == a;
    } else {
      assert (blanks + a)[1..] == blanks[1..] + a;
      TrimmedBlanks(blanks[1..], a);
    }
  }

  /** What a size field reads as: the size, unless its digits overflow the field. */
  lemma SizeFieldRead(n: nat)
    ensures var size := ParseSize(Field(n, 11)[..12]);
            if n < Pow8(12) then size == n else 0 <= size < n
  {
    var padded := Pad(Digits(n), 11);
    var field := Field(n, 11)[..12];
    DigitCount(n, 12);
    if |padded| == 11 {
      assert field == padded + [0];
      ParseDigits(padded, [0]);
      ValueOfPadded(n, 11);
    } else {
      assert padded == Digits(n) && field == padded[..12];
      assert field == field + [];
      ParseDigits(field, []);
      if |padded| == 12 {
        assert padded[..12] == padded;
        ValueOfDigits(n);
      } else {
        PrefixIsLess(n, 12);
      }
    }
  }

  lemma SizeRead(f: File, mtime: nat)
    ensures var n, size := |f.data|, SizeOf(Header(f, mtime));
            if n < Pow8(12) then size == n else 0 <= size < n
  {
    SizeFieldInPlace(f, mtime);
    SizeFieldRead(|f.data|);
  }

  /** A header, the data it may announce less of, and anything after it. */
  lemma ReadBack(h: seq<byte>, data: seq<byte>, rest: seq<byte>, chunks: seq<seq<byte>>)
    requires |h| == 512 && 0 <= SizeOf(h) <= |data| && Join(chunks) == h + (data + rest)
    ensures Pushed(Reader([], -1), chunks) == data[..SizeOf(h)]
  {
    var b := h + (data + rest);
    SizeOfPrefix(h, data + rest);
    ChunkingInvisible(chunks);
    assert b[512..] == data + rest;
    assert Take(data + rest, SizeOf(h)) == data[..SizeOf(h)];
  }

  lemma ArchiveShape(files: seq<File>, mtime: nat)
    requires files != []
    ensures var f := files[0];
            Archive(files, mtime) == Header(f, mtime) + (f.data + (Fill(Padding(|f.data|)) + Archive(files[1..], mtime)))
  {
    Regroup(Header(files[0], mtime), files[0].data, Fill(Padding(|files[0].data|)), Archive(files[1..], mtime));
  }

  lemma Regroup(a: seq<byte>, b: seq<byte>, c: seq<byte>, d: seq<byte>)
    ensures (a + b + c) + d == a + (b + (c + d))
  {
  }

  /**
   For every archive and every chunking, the reader returns exactly the first
   file if and only if its size has at most twelve octal digits.
   */
  lemma FirstFileRoundTrip(files: seq<File>, mtime: nat, chunks: seq<seq<byte>>)
    requires files != [] && Join(chunks) == Archive(files, mtime)
    ensures Pushed(Reader([], -1), chunks) == files[0].data <==> |files[0].data| < Pow8(12)
  {
    var f := files[0];
    SizeRead(f, mtime);
    ArchiveShape(files, mtime);
    ReadBack(Header(f, mtime), f.data, Fill(Padding(|f.data|)) + Archive(files[1..], mtime), chunks);
    assert f.data[..|f.data|] == f.data;
  }

  // ---- all files, as any reader of the format finds them --------------------------------

  ghost function UpToNul(s: seq<byte>): seq<byte> {
    if s == [] || s[0] == 0 then [] else [s[0]] + UpToNul(s[1..])
  }

  /** A header with this name, and the data it announces. */
  ghost predicate Begins(b: seq<byte>, name: seq<byte>, data: seq<byte>) {
    && |b| >= 512 + |data| && b[0] != 0 && SizeOf(b) == |data|
    && UpToNul(b[..100]) == name && b[512..512 + |data|] == data
  }

  /** Entry after entry, each from the next block on; a block that begins with a zero ends the archive. */
  ghost predicate Lists(b: seq<byte>, found: seq<(seq<byte>, seq<byte>)>)
    decreases |found|
  {
    if found == [] then |b| < 512 || b[0] == 0
    else
      var next := 512 + RoundedUp(|found[0].1|);
      Begins(b, found[0].0, found[0].1) && next <= |b| && Lists(b[next..], found[1..])
  }

  /** The next multiple of 512. */
  ghost function RoundedUp(n: nat): (r: nat)
    ensures r >= n
  {
    if n == 0 then 0 else if n <= 512 then 512 else 512 + RoundedUp(n - 512)
  }

  function ShortName(name: seq<byte>): seq<byte> {
    if |name| <= 100 then name else name[..100]
  }

  ghost predicate Storable(f: File) {
    f.name != [] && 0 !in f.name && |f.data| < Pow8(12)
  }

  lemma {:induction false} NameRead(s: seq<byte>, name: seq<byte>)
    requires |name| <= |s| && s[..|name|] == name && 0 !in name && (|name| < |s| ==> s[|name|] == 0)
    ensures UpToNul(s) == name
    decreases |s|
  {
    if name != [] {
      assert s[0] == name[0] && s[1..][..|name| - 1] == name[1..];
      assert |name| < |s| ==> s[1..][|name| - 1] == s[|name|];
      NameRead(s[1..], name[1..]);
      assert name == [name[0]] + name[1..];
    }
  }

  lemma HeaderName(h: seq<byte>, name: seq<byte>)
    requires |h| == 512 && NameAndZeros(h, name) && 0 !in name
    ensures UpToNul(h[..100]) == ShortName(name)
    ensures name != [] ==> h[0] != 0
  {
    var n := ShortName(name);
    assert h[..100][..|n|] == n;
    assert |n| < 100 ==> h[..100][|n|] == 0;
    NameRead(h[..100], n);
    assert name != [] ==> h[0] == name[0];
  }

  lemma BlocksUp(n: nat)
    ensures n + Padding(n) == RoundedUp(n)
  {
    var k := PaddingFills(n);
    WholeBlocksUp(n, Padding(n), k);
  }

  lemma {:induction false} WholeBlocksUp(n: nat, p: nat, k: nat)
    requires n + p == 512 * k && p < 512
    ensures RoundedUp(n) == 512 * k
  {
    if n > 512 {
      WholeBlocksUp(n - 512, p, k - 1);
    }
  }

  lemma BehindHeader(h: seq<byte>, data: seq<byte>, fill: seq<byte>, rest: seq<byte>)
    requires |h| == 512
    ensures var b := h + (data + (fill + rest));
            && b[0] == h[0] && b[..100] == h[..100] && b[512..512 + |data|] == data
            && |b| == 512 + |data| + |fill| + |rest| && b[512 + |data| + |fill|..] == rest
  {
    var b := h + (data + (fill + rest));
    assert b[512..] == data + (fill + rest);
    assert b[512..][|data|..] == fill + rest && (fill + rest)[|fill|..] == rest;
    assert b[512 + |data| + |fill|..] == b[512..][|data|..][|fill|..];
  }

  lemma OneListed(h: seq<byte>, data: seq<byte>, fill: seq<byte>, rest: seq<byte>)
    requires |h| == 512 && h[0] != 0 && SizeOf(h) == |data| && |data| + |fill| == RoundedUp(|data|)
    ensures var b := h + (data + (fill + rest));
            Begins(b, UpToNul(h[..100]), data) && b[512 + RoundedUp(|data|)..] == rest
  {
    SizeOfPrefix(h, data + (fill + rest));
    BehindHeader(h, data, fill, rest);
  }

  lemma FirstListed(files: seq<File>, mtime: nat)
    requires files != [] && Storable(files[0])
    ensures var next := 512 + RoundedUp(|files[0].data|);
            && Begins(Archive(files, mtime), ShortName(files[0].name), files[0].data)
            && next <= |Archive(files, mtime)| && Archive(files, mtime)[next..] == Archive(files[1..], mtime)
  {
    var f := files[0];
    ArchiveShape(files, mtime);
    StoredHeader(f, mtime);
    BlocksUp(|f.data|);
    OneListed(Header(f, mtime), f.data, Fill(Padding(|f.data|)), Archive(files[1..], mtime));
  }

  /** What is stored: the first hundred bytes of each name, and the contents. */
  ghost function Entries(files: seq<File>): (r: seq<(seq<byte>, seq<byte>)>)
    ensures |r| == |files|
    ensures forall i | 0 <= i < |files| :: r[i] == (ShortName(files[i].name), files[i].data)
  {
    seq(|files|, i requires 0 <= i < |files| => (ShortName(files[i].name), files[i].data))
  }

  lemma EntriesRest(files: seq<File>)
    requires files != []
    ensures Entries(files)[1..] == Entries(files[1..])
  {
  }

  lemma ListsNext(b: seq<byte>, found: seq<(seq<byte>, seq<byte>)>, next: nat)
    requires found != [] && Begins(b, found[0].0, found[0].1)
    requires next == 512 + RoundedUp(|found[0].1|) <= |b| && Lists(b[next..], found[1..])
    ensures Lists(b, found)
  {
  }

  /** Every file of an archive is found again, in order, under the first hundred bytes of its name. */
  lemma {:induction false} ArchiveLists(files: seq<File>, mtime: nat)
    requires forall i | 0 <= i < |files| :: Storable(files[i])
    ensures Lists(Archive(files, mtime), Entries(files))
  {
    if files != [] {
      ArchiveLists(files[1..], mtime);
      FirstListed(files, mtime);
      EntriesRest(files);
      ListsNext(Archive(files, mtime), Entries(files), 512 + RoundedUp(|files[0].data|));
    }
  }

  /** The bytes that headers and contents take, each filled up to whole blocks. */
  ghost function BytesOf(files: seq<File>): nat {
    if files == [] then 0 else 512 + RoundedUp(|files[0].data|) + BytesOf(files[1..])
  }

  lemma EntrySize(f: File, mtime: nat)
    ensures |Entry(f, mtime)| == 512 + RoundedUp(|f.data|)
  {
    BlocksUp(|f.data|);
  }

  lemma BehindFirst(a: seq<byte>, b: seq<byte>, k: nat, zeros: seq<byte>)
    requires k <= |b| && b[k..] == zeros
    ensures (a + b)[|a| + k..] == zeros
  {
  }

  lemma NothingStored(mtime: nat)
    ensures Archive([], mtime) == seq(1024, _ => 0)
  {
  }

  /** Behind the files an archive has two blocks of zeros, and nothing more. */
  lemma {:induction false} ArchiveEnds(files: seq<File>, mtime: nat)
    ensures |Archive(files, mtime)| == BytesOf(files) + 1024
    ensures Archive(files, mtime)[BytesOf(files)..] == seq(1024, _ => 0)
  {
    if files == [] {
      NothingStored(mtime);
    } else {
      EntrySize(files[0], mtime);
      ArchiveEnds(files[1..], mtime);
      BehindFirst(Entry(files[0], mtime), Archive(files[1..], mtime), BytesOf(files[1..]), seq(1024, _ => 0));
    }
  }

  lemma StoredHeader(f: File, mtime: nat)
    requires Storable(f)
    ensures var h := Header(f, mtime);
            h[0] != 0 && SizeOf(h) == |f.data| && UpToNul(h[..100]) == ShortName(f.name)
  {
    HeaderLaid(f, mtime);
    LaidName(Header(f, mtime), f, mtime);
    HeaderName(Header(f, mtime), f.name);
    SizeRead(f, mtime);
  }

  /** An archive of no files yields nothing. */
  lemma EmptyArchive(mtime: nat, chunks: seq<seq<byte>>)
    requires Join(chunks) == Archive([], mtime)
    ensures Pushed(Reader([], -1), chunks) == []
  {
    ZeroHeader(Archive([], mtime));
    ChunkingInvisible(chunks);
  }

  lemma ZeroHeader(b: seq<byte>)
    requires |b| >= 512 && b[124] == 0
    ensures SizeOf(b) == 0
  {
    var field := b[124..136];
    assert field[0] == 0 && Ascii(field)[0] == 0;
    assert Leading(Ascii(field)) == [];
  }
}

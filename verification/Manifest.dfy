/** Transfer manifests: chunk layout, and the byte stream whose hash identifies a manifest. */
module Manifest {
  import opened Words
  import opened Utf8

  datatype Result<+T> = Ok(value: T) | Err

  datatype Mode = Send | Sync | Live

  /** Paths are the bytes the operating system has for them. */
  datatype FileEntry = FileEntry(path: seq<u8>, size: u64, hash: Option<seq<u8>>)

  datatype ManifestFile =
    ManifestFile(index: u32, path: seq<u8>, size: u64, hash: seq<u8>, firstChunk: nat, chunkCount: u32)

  datatype Manifest = Manifest(id: seq<u8>, mode: Mode, files: seq<ManifestFile>, totalChunks: nat, hashed: seq<u8>)

  // ---------- chunks of one file ----------

  function ChunksForSize(fileSize: u64, chunkSize: u32): Result<u32> {
    if chunkSize == 0 then Err
    else if fileSize == 0 then Ok(0)
    else
      var count := fileSize / chunkSize + if fileSize % chunkSize == 0 then 0 else 1;
      if count < U32 then Ok(count) else Err
  }

  function ChunkByteRange(fileSize: u64, chunkSize: u32, local: u32): (nat, nat) {
    var offset := local * chunkSize;
    (offset, Min(chunkSize, SatSub(fileSize, offset)))
  }

  /** The count is the least number of chunks that hold the file; it fails just when there is no
      chunk size or that number does not fit in 32 bits. */
  lemma ChunksForSizeIsCeiling(fileSize: u64, chunkSize: u32)
    ensures var r := ChunksForSize(fileSize, chunkSize);
      && (r.Ok? ==> chunkSize > 0 && fileSize <= r.value * chunkSize < fileSize + chunkSize)
      && (r.Err? <==> chunkSize == 0 || (U32 - 1) * chunkSize < fileSize)
  {
    if chunkSize > 0 && fileSize > 0 {
      var q, m := fileSize / chunkSize, fileSize % chunkSize;
      assert fileSize == q * chunkSize + m;
      var count := q + if m == 0 then 0 else 1;
      assert (q + 1) * chunkSize == q * chunkSize + chunkSize;
      assert fileSize <= count * chunkSize < fileSize + chunkSize;
      if count < U32 {
        MulMono(count, U32 - 1, chunkSize);
      } else {
        MulMono(U32, count, chunkSize);
        assert U32 * chunkSize == (U32 - 1) * chunkSize + chunkSize;
      }
    }
  }

  /** The ranges follow one another from byte 0 to the end of the file, none of them empty; past the
      last chunk they are empty. */
  lemma RangesTileFile(fileSize: u64, chunkSize: u32, local: u32)
    requires ChunksForSize(fileSize, chunkSize).Ok?
    ensures var n := ChunksForSize(fileSize, chunkSize).value;
      var (offset, len) := ChunkByteRange(fileSize, chunkSize, local);
      && (local == 0 ==> offset == 0)
      && (local < n ==> len > 0 && offset + len <= fileSize)
      && (local + 1 < n ==> offset + len == ChunkByteRange(fileSize, chunkSize, local + 1).0)
      && (local + 1 == n ==> offset + len == fileSize)
      && (local >= n ==> len == 0)
  {
    ChunksForSizeIsCeiling(fileSize, chunkSize);
    var n := ChunksForSize(fileSize, chunkSize).value;
    assert (local + 1) * chunkSize == local * chunkSize + chunkSize;
    if local + 1 < n { MulMono(local + 2, n, chunkSize); assert (local + 2) * chunkSize == local * chunkSize + 2 * chunkSize; }
    if local >= n { MulMono(n, local, chunkSize); }
  }

  lemma ChunksApart(j: nat, k: nat, chunkSize: nat)
    requires j < k
    ensures j * chunkSize + chunkSize <= k * chunkSize
  {
    MulMono(j + 1, k, chunkSize);
    assert (j + 1) * chunkSize == j * chunkSize + chunkSize;
  }

  /** Every byte of the file lies in exactly one chunk. */
  lemma ByteHasOneChunk(fileSize: u64, chunkSize: u32, b: nat) returns (k: u32)
    requires ChunksForSize(fileSize, chunkSize).Ok? && b < fileSize
    ensures k < ChunksForSize(fileSize, chunkSize).value && InChunk(fileSize, chunkSize, b, k)
    ensures forall j: u32 :: InChunk(fileSize, chunkSize, b, j) ==> j == k
  {
    ChunksForSizeIsCeiling(fileSize, chunkSize);
    var n := ChunksForSize(fileSize, chunkSize).value;
    var q := b / chunkSize;
    assert b == q * chunkSize + b % chunkSize;
    if q >= n { MulMono(n, q, chunkSize); assert false; }
    k := q;
    forall j: u32 | InChunk(fileSize, chunkSize, b, j) ensures j == k {
      if j < k { ChunksApart(j, k, chunkSize); }
      if j > k { ChunksApart(k, j, chunkSize); }
    }
  }

  predicate InChunk(fileSize: u64, chunkSize: u32, b: nat, k: u32) {
    var r := ChunkByteRange(fileSize, chunkSize, k);
    r.0 <= b < r.0 + r.1
  }

  // ---------- the global chunk space ----------

  function ZeroHash(): seq<u8> { seq(32, _ => 0) }

  /** The files' chunk ranges follow one another from 0 to total. */
  ghost predicate Laid(files: seq<ManifestFile>, total: nat)
    decreases |files|
  {
    if files == [] then total == 0
    else
      var n := |files| - 1;
      files[n].firstChunk + files[n].chunkCount == total && Laid(files[..n], files[n].firstChunk)
  }

  ghost predicate Describes(f: ManifestFile, i: nat, e: FileEntry, chunkSize: u32) {
    && f.index == i % U32 && f.path == e.path && f.size == e.size
    && f.hash == (if e.hash.Some? then e.hash.value else ZeroHash())
    && ChunksForSize(e.size, chunkSize) == Ok(f.chunkCount)
  }

  ghost predicate Buildable(entries: seq<FileEntry>, chunkSize: u32) {
    chunkSize > 0 && forall i :: 0 <= i < |entries| ==> ChunksForSize(entries[i].size, chunkSize).Ok?
  }

  lemma NothingLaid()
    ensures Laid([], 0)
  {}

  lemma LaidPush(files: seq<ManifestFile>, total: nat, f: ManifestFile)
    requires Laid(files, total) && f.firstChunk == total
    ensures Laid(files + [f], total + f.chunkCount)
  {
    assert (files + [f])[..|files|] == files;
  }

  /** The manifest entry for the i-th input file. */
  function Place(e: FileEntry, i: nat, chunkSize: u32, offset: nat, count: u32): (f: ManifestFile)
    requires ChunksForSize(e.size, chunkSize) == Ok(count)
    ensures Describes(f, i, e, chunkSize) && f.firstChunk == offset && f.chunkCount == count
  {
    ManifestFile(i % U32, e.path, e.size, if e.hash.Some? then e.hash.value else ZeroHash(), offset, count)
  }

  method Build(id: seq<u8>, mode: Mode, chunkSize: u32, entries: seq<FileEntry>) returns (r: Result<Manifest>)
    ensures r.Ok? <==> Buildable(entries, chunkSize)
    ensures r.Ok? ==> var m := r.value;
      && m.id == id && m.mode == mode && |m.files| == |entries|
      && (forall i :: 0 <= i < |entries| ==> Describes(m.files[i], i, entries[i], chunkSize))
      && Laid(m.files, m.totalChunks)
      && m.hashed == Stream(id, mode, chunkSize, m.files)
  {
    if chunkSize == 0 { return Err; }
    hide ChunksForSize, Stream, Laid, Describes, Buildable;
    var layout := LayOut(chunkSize, entries);
    if layout.Err? { return Err; }
    var (files, offset) := layout.value;
    var stream := FeedManifest(id, mode, chunkSize, files);
    r := Ok(Manifest(id, mode, files, offset, stream));
  }

  /** Place the files one after another in the global chunk space. */
  method LayOut(chunkSize: u32, entries: seq<FileEntry>) returns (r: Result<(seq<ManifestFile>, nat)>)
    requires chunkSize > 0
    ensures r.Ok? <==> Buildable(entries, chunkSize)
    ensures r.Ok? ==>
      && |r.value.0| == |entries| && Laid(r.value.0, r.value.1)
      && forall i :: 0 <= i < |entries| ==> Describes(r.value.0[i], i, entries[i], chunkSize)
  {
    hide ChunksForSize, Laid, Describes;
    NothingLaid();
    var files: seq<ManifestFile>, offset: nat := [], 0;
    for i := 0 to |entries|
      invariant |files| == i && Laid(files, offset)
      invariant forall k :: 0 <= k < i ==> ChunksForSize(entries[k].size, chunkSize).Ok?
      invariant forall k :: 0 <= k < i ==> Describes(files[k], k, entries[k], chunkSize)
    {
      var count := ChunksForSize(entries[i].size, chunkSize);
      if count.Err? { return Err; }
      var f := Place(entries[i], i, chunkSize, offset, count.value);
      LaidPush(files, offset, f);
      files := files + [f];
      offset := offset + count.value;
    }
    r := Ok((files, offset));
  }

  /** Every global chunk belongs to exactly one file. */
  lemma {:induction false} ChunkHasOneFile(files: seq<ManifestFile>, total: nat, g: nat) returns (i: nat)
    requires Laid(files, total) && g < total
    ensures i < |files| && files[i].firstChunk <= g < files[i].firstChunk + files[i].chunkCount
    ensures forall j :: 0 <= j < |files| && files[j].firstChunk <= g < files[j].firstChunk + files[j].chunkCount ==> j == i
    decreases |files|
  {
    var n := |files| - 1;
    LaidBelow(files[..n], files[n].firstChunk);
    forall j | 0 <= j < n ensures files[..n][j] == files[j] {}
    if g >= files[n].firstChunk {
      i := n;
    } else {
      i := ChunkHasOneFile(files[..n], files[n].firstChunk, g);
    }
  }

  lemma {:induction false} LaidBelow(files: seq<ManifestFile>, total: nat)
    requires Laid(files, total)
    ensures forall j :: 0 <= j < |files| ==> files[j].firstChunk + files[j].chunkCount <= total
    decreases |files|
  {
    if files != [] {
      var n := |files| - 1;
      LaidBelow(files[..n], files[n].firstChunk);
      forall j | 0 <= j < n ensures files[..n][j] == files[j] {}
    }
  }

  /** With fewer than 2^32 files no chunk index overflows its 64 bits. */
  lemma {:induction false} LayoutFits(files: seq<ManifestFile>, total: nat)
    requires Laid(files, total) && |files| < U32
    ensures total <= |files| * (U32 - 1) && total < U64
    ensures forall i :: 0 <= i < |files| ==> files[i].firstChunk < U64
    decreases |files|
  {
    if files != [] {
      var n := |files| - 1;
      forall j | 0 <= j < n ensures files[..n][j] == files[j] {}
      LayoutFits(files[..n], files[n].firstChunk);
    }
  }

  // ---------- the hashed byte stream ----------

  /** The n low bytes of x, least significant first. */
  function Le(x: nat, n: nat): (s: seq<u8>)
    ensures |s| == n
    decreases n
  {
    if n == 0 then [] else [x % 256] + Le(x / 256, n - 1)
  }

  function Pow256(n: nat): nat { if n == 0 then 1 else 256 * Pow256(n - 1) }

  lemma {:induction false} LeInjective(x: nat, y: nat, n: nat)
    requires Le(x, n) == Le(y, n) && x < Pow256(n) && y < Pow256(n)
    ensures x == y
    decreases n
  {
    if n > 0 {
      assert Le(x, n)[0] == Le(y, n)[0] && Le(x, n)[1..] == Le(y, n)[1..];
      LeInjective(x / 256, y / 256, n - 1);
    }
  }

  function ModeByte(mode: Mode): u8 { match mode case Send => 0 case Sync => 1 case Live => 2 }

  /** A 32-bit length and the bytes it counts. */
  function Prefixed(s: seq<u8>): seq<u8> { Le(|s| % U32, 4) + s }

  /** A file's share of the stream; its path goes in as rendered text. */
  function FileBytes(f: ManifestFile): seq<u8> {
    Le(f.index, 4) + Prefixed(Lossy(f.path)) + Le(f.size, 8) + f.hash + Le(f.firstChunk, 8) + Le(f.chunkCount, 4)
  }

  function FilesBytes(files: seq<ManifestFile>): seq<u8> {
    if files == [] then [] else FileBytes(files[0]) + FilesBytes(files[1..])
  }

  function Header(id: seq<u8>, mode: Mode, chunkSize: u32, count: nat): seq<u8> {
    Prefixed(id) + [ModeByte(mode)] + Le(chunkSize, 4) + Le(count % U32, 4)
  }

  function Stream(id: seq<u8>, mode: Mode, chunkSize: u32, files: seq<ManifestFile>): seq<u8> {
    Header(id, mode, chunkSize, |files|) + FilesBytes(files)
  }

  lemma {:induction false} FilesBytesSnoc(files: seq<ManifestFile>, f: ManifestFile)
    ensures FilesBytes(files + [f]) == FilesBytes(files) + FileBytes(f)
    decreases |files|
  {
    hide FileBytes;
    if files == [] {
      assert files + [f] == [f] && [f][1..] == [] && FilesBytes([]) == [];
      assert FilesBytes([f]) == FileBytes(f) + [] == FileBytes(f);
    } else {
      assert (files + [f])[1..] == files[1..] + [f];
      FilesBytesSnoc(files[1..], f);
      assert FileBytes(files[0]) + (FilesBytes(files[1..]) + FileBytes(f)) == FilesBytes(files) + FileBytes(f);
    }
  }

  /** The updates fed to the hasher, field by field and file by file. */
  method FeedManifest(id: seq<u8>, mode: Mode, chunkSize: u32, files: seq<ManifestFile>) returns (fed: seq<u8>)
    ensures fed == Stream(id, mode, chunkSize, files)
  {
    hide FileBytes, Header, FilesBytes;
    fed := FeedHeader(id, mode, chunkSize, |files|);
    assert fed == Header(id, mode, chunkSize, |files|) + FilesBytes(files[..0]) by { NoFiles(); }
    for i := 0 to |files|
      invariant fed == Header(id, mode, chunkSize, |files|) + FilesBytes(files[..i])
    {
      FilesBytesSnoc(files[..i], files[i]);
      assert files[..i + 1] == files[..i] + [files[i]];
      var bytes := FeedFile(files[i]);
      fed := fed + bytes;
    }
    assert files[..|files|] == files;
  }

  lemma NoFiles()
    ensures FilesBytes([]) == []
  {}

  method FeedHeader(id: seq<u8>, mode: Mode, chunkSize: u32, count: nat) returns (fed: seq<u8>)
    ensures fed == Header(id, mode, chunkSize, count)
  {
    hide Le;
    fed := Le(|id| % U32, 4);
    fed := fed + id;
    fed := fed + [ModeByte(mode)];
    fed := fed + Le(chunkSize, 4);
    fed := fed + Le(count % U32, 4);
  }

  method FeedFile(f: ManifestFile) returns (fed: seq<u8>)
    ensures fed == FileBytes(f)
  {
    hide Le;
    fed := Le(f.index, 4);
    var path := Lossy(f.path);
    fed := fed + Le(|path| % U32, 4) + path;
    fed := fed + Le(f.size, 8);
    fed := fed + f.hash;
    fed := fed + Le(f.firstChunk, 8);
    fed := fed + Le(f.chunkCount, 4);
  }

  // ---------- injectivity ----------

  lemma SplitEqual(a: seq<u8>, b: seq<u8>, c: seq<u8>, d: seq<u8>)
    requires a + b == c + d && |a| == |c|
    ensures a == c && b == d
  {
    assert a == (a + b)[..|a|] && c == (c + d)[..|c|] && b == (a + b)[|a|..] && d == (c + d)[|c|..];
  }

  lemma LeSplit(x: nat, r: seq<u8>, y: nat, s: seq<u8>, n: nat)
    requires Le(x, n) + r == Le(y, n) + s && x < Pow256(n) && y < Pow256(n)
    ensures x == y && r == s
  {
    SplitEqual(Le(x, n), r, Le(y, n), s);
    LeInjective(x, y, n);
  }

  lemma Pow256Is()
    ensures Pow256(4) == U32 && Pow256(8) == U64
  {
    assert Pow256(2) == 65536;
    assert Pow256(4) == U32;
    assert Pow256(6) == 65536 * U32;
  }

  lemma PrefixedSplit(a: seq<u8>, r: seq<u8>, b: seq<u8>, s: seq<u8>)
    requires Prefixed(a) + r == Prefixed(b) + s && |a| < U32 && |b| < U32
    ensures a == b && r == s
  {
    Pow256Is();
    hide Le, Pow256;
    assert Prefixed(a) + r == Le(|a|, 4) + (a + r) && Prefixed(b) + s == Le(|b|, 4) + (b + s);
    LeSplit(|a|, a + r, |b|, b + s, 4);
    SplitEqual(a, r, b, s);
  }

  ghost predicate Encodable(f: ManifestFile) { |Lossy(f.path)| < U32 && |f.hash| == 32 && f.firstChunk < U64 }

  /** The two entries agree once their paths are rendered. */
  ghost predicate SameRendered(f: ManifestFile, g: ManifestFile) { Lossy(f.path) == Lossy(g.path) && f == g.(path := f.path) }

  ghost predicate AllSameRendered(fs: seq<ManifestFile>, gs: seq<ManifestFile>) {
    |fs| == |gs| && forall i :: 0 <= i < |fs| ==> SameRendered(fs[i], gs[i])
  }

  lemma FileSplit(f: ManifestFile, r: seq<u8>, g: ManifestFile, s: seq<u8>)
    requires FileBytes(f) + r == FileBytes(g) + s && Encodable(f) && Encodable(g)
    ensures SameRendered(f, g) && r == s
  {
    Pow256Is();
    hide Le, Pow256, Prefixed, Lossy;
    var fp, gp := Lossy(f.path), Lossy(g.path);
    var f4, g4 := Le(f.chunkCount, 4) + r, Le(g.chunkCount, 4) + s;
    var f3, g3 := Le(f.firstChunk, 8) + f4, Le(g.firstChunk, 8) + g4;
    var f2, g2 := Le(f.size, 8) + (f.hash + f3), Le(g.size, 8) + (g.hash + g3);
    assert FileBytes(f) + r == Le(f.index, 4) + (Prefixed(fp) + f2);
    assert FileBytes(g) + s == Le(g.index, 4) + (Prefixed(gp) + g2);
    LeSplit(f.index, Prefixed(fp) + f2, g.index, Prefixed(gp) + g2, 4);
    PrefixedSplit(fp, f2, gp, g2);
    LeSplit(f.size, f.hash + f3, g.size, g.hash + g3, 8);
    SplitEqual(f.hash, f3, g.hash, g3);
    LeSplit(f.firstChunk, f4, g.firstChunk, g4, 8);
    LeSplit(f.chunkCount, r, g.chunkCount, s, 4);
  }

  lemma {:induction false} FilesInjective(fs: seq<ManifestFile>, gs: seq<ManifestFile>)
    requires |fs| == |gs| && FilesBytes(fs) == FilesBytes(gs)
    requires forall i :: 0 <= i < |fs| ==> Encodable(fs[i]) && Encodable(gs[i])
    ensures AllSameRendered(fs, gs)
    decreases |fs|
  {
    hide FileBytes, Encodable, SameRendered;
    if fs != [] {
      FileSplit(fs[0], FilesBytes(fs[1..]), gs[0], FilesBytes(gs[1..]));
      forall i | 1 <= i < |fs| ensures fs[1..][i - 1] == fs[i] && gs[1..][i - 1] == gs[i] {}
      FilesInjective(fs[1..], gs[1..]);
    }
  }

  lemma {:induction false} RenderedFeedsSame(fs: seq<ManifestFile>, gs: seq<ManifestFile>)
    requires AllSameRendered(fs, gs)
    ensures FilesBytes(fs) == FilesBytes(gs)
    decreases |fs|
  {
    hide Lossy, Le, Prefixed;
    if fs != [] {
      assert SameRendered(fs[0], gs[0]);
      forall i | 1 <= i < |fs| ensures fs[1..][i - 1] == fs[i] && gs[1..][i - 1] == gs[i] {}
      RenderedFeedsSame(fs[1..], gs[1..]);
    }
  }

  lemma HeaderSplit(id1: seq<u8>, mode1: Mode, size1: u32, n1: nat, r: seq<u8>,
                    id2: seq<u8>, mode2: Mode, size2: u32, n2: nat, s: seq<u8>)
    requires Header(id1, mode1, size1, n1) + r == Header(id2, mode2, size2, n2) + s
    requires |id1| < U32 && |id2| < U32 && n1 < U32 && n2 < U32
    ensures id1 == id2 && mode1 == mode2 && size1 == size2 && n1 == n2 && r == s
  {
    Pow256Is();
    hide Le, Pow256, Prefixed;
    var a2, b2 := Le(n1, 4) + r, Le(n2, 4) + s;
    var a1, b1 := Le(size1, 4) + a2, Le(size2, 4) + b2;
    assert Header(id1, mode1, size1, n1) + r == Prefixed(id1) + ([ModeByte(mode1)] + a1);
    assert Header(id2, mode2, size2, n2) + s == Prefixed(id2) + ([ModeByte(mode2)] + b1);
    PrefixedSplit(id1, [ModeByte(mode1)] + a1, id2, [ModeByte(mode2)] + b1);
    SplitEqual([ModeByte(mode1)], a1, [ModeByte(mode2)], b1);
    assert [ModeByte(mode1)][0] == [ModeByte(mode2)][0];
    LeSplit(size1, a2, size2, b2, 4);
    LeSplit(n1, r, n2, s, 4);
  }

  /** What a manifest is hashed from. */
  datatype Hashed = Hashed(id: seq<u8>, mode: Mode, chunkSize: u32, files: seq<ManifestFile>)

  function StreamOf(h: Hashed): seq<u8> { Stream(h.id, h.mode, h.chunkSize, h.files) }

  /** Lengths and file count fit their 32-bit prefixes. */
  ghost predicate Fits(h: Hashed) {
    |h.id| < U32 && |h.files| < U32 && forall i :: 0 <= i < |h.files| ==> Encodable(h.files[i])
  }

  /** Two manifests feed the same stream if and only if id, mode, chunk size and all file entries agree, paths
      compared as rendered. */
  lemma StreamInjective(a: Hashed, b: Hashed)
    requires Fits(a) && Fits(b)
    ensures StreamOf(a) == StreamOf(b) <==>
            a.id == b.id && a.mode == b.mode && a.chunkSize == b.chunkSize && AllSameRendered(a.files, b.files)
  {
    hide Header, FilesBytes, Encodable, SameRendered;
    if StreamOf(a) == StreamOf(b) {
      HeaderSplit(a.id, a.mode, a.chunkSize, |a.files|, FilesBytes(a.files),
                  b.id, b.mode, b.chunkSize, |b.files|, FilesBytes(b.files));
      FilesInjective(a.files, b.files);
    }
    if a.id == b.id && a.mode == b.mode && a.chunkSize == b.chunkSize && AllSameRendered(a.files, b.files) {
      RenderedFeedsSame(a.files, b.files);
    }
  }

  ghost predicate PathsIn(h: Hashed, paths: iset<seq<u8>>) { forall i :: 0 <= i < |h.files| ==> h.files[i].path in paths }

  /** Among manifests whose paths come from this set, equal streams mean equal manifests. */
  ghost predicate Separates(paths: iset<seq<u8>>) {
    forall a, b :: Fits(a) && Fits(b) && PathsIn(a, paths) && PathsIn(b, paths) && StreamOf(a) == StreamOf(b) ==> a == b
  }

  /** The stream tells all manifests over a set of paths apart exactly when rendering tells the paths apart. */
  lemma SeparatesIff(paths: iset<seq<u8>>)
    requires forall p :: p in paths ==> |Lossy(p)| < U32
    ensures Separates(paths) <==> forall p, q :: p in paths && q in paths && Lossy(p) == Lossy(q) ==> p == q
  {
    hide Lossy, StreamOf, Le, Prefixed;
    if forall p, q :: p in paths && q in paths && Lossy(p) == Lossy(q) ==> p == q {
      forall a, b | Fits(a) && Fits(b) && PathsIn(a, paths) && PathsIn(b, paths) && StreamOf(a) == StreamOf(b) ensures a == b {
        StreamInjective(a, b);
        forall i | 0 <= i < |a.files| ensures a.files[i] == b.files[i] { assert SameRendered(a.files[i], b.files[i]); }
      }
    }
    if Separates(paths) {
      forall p, q | p in paths && q in paths && Lossy(p) == Lossy(q) ensures p == q {
        var a, b := OneFile(p), OneFile(q);
        StreamInjective(a, b);
        assert a.files[0].path == p && b.files[0].path == q;
      }
    }
  }

  /** A manifest of one empty file. */
  function OneFile(path: seq<u8>): Hashed { Hashed([], Send, 1, [ManifestFile(0, path, 0, ZeroHash(), 0, 0)]) }

  /** In particular among well-formed UTF-8 paths, which a caller can test for. */
  lemma WellFormedPathsSeparate(a: Hashed, b: Hashed)
    requires Fits(a) && Fits(b)
    requires forall i :: 0 <= i < |a.files| ==> WellFormed(a.files[i].path)
    requires forall i :: 0 <= i < |b.files| ==> WellFormed(b.files[i].path)
    ensures StreamOf(a) == StreamOf(b) <==> a == b
  {
    hide WellFormed, Lossy, StreamOf, Fits;
    StreamInjective(a, b);
    if StreamOf(a) == StreamOf(b) {
      forall i | 0 <= i < |a.files| ensures a.files[i] == b.files[i] {
        assert SameRendered(a.files[i], b.files[i]);
        WellFormedIsKept(a.files[i].path);
        WellFormedIsKept(b.files[i].path);
      }
    }
  }

  /** Not among all paths: the bytes FF and FE are both rendered as the replacement character. */
  lemma IllFormedPathsCollide()
    ensures OneFile([0xFF]) != OneFile([0xFE]) && StreamOf(OneFile([0xFF])) == StreamOf(OneFile([0xFE]))
  {
    assert Piece([0xFF]) == (1, false) && [0xFF][1..] == [] && Lossy([0xFF]) == REPLACEMENT + [];
    assert Piece([0xFE]) == (1, false) && [0xFE][1..] == [] && Lossy([0xFE]) == REPLACEMENT + [];
    hide Lossy, Le;
    var a, b := OneFile([0xFF]), OneFile([0xFE]);
    assert a.files[0].path[0] == 0xFF && b.files[0].path[0] == 0xFE;
    assert SameRendered(a.files[0], b.files[0]);
    RenderedFeedsSame(a.files, b.files);
  }
}

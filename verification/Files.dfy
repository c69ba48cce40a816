/**
 * Chunked files (apps/files/chunk.go and apps/files/stream.go): publishing,
 * fetching, and the seekable reader with its one-chunk cache, against the flat
 * file they stand for. The hash, the DHT's Get and JSON parsing are inputs.
 */
module Files {
  import opened NodeId
  import opened Options
  import opened Text

  const CHUNK: nat := 64 * 1024
  const MAX_VALUE: nat := 64 * 1024

  /** A manifest as parsed; the size is whatever it says, published ones say the length. */
  datatype Manifest = Manifest(size: int, chunks: seq<string>)

  // ----- the flat file in chunks -----

  function Count(n: nat): nat {
    (n + CHUNK - 1) / CHUNK
  }

  function EndOf(data: Bytes, i: nat): nat {
    if (i + 1) * CHUNK > |data| then |data| else (i + 1) * CHUNK
  }

  function ChunkAt(data: Bytes, i: nat): Bytes
    requires i < Count(|data|)
  {
    data[i * CHUNK..EndOf(data, i)]
  }

  function ManifestOf(hash: Bytes -> Id, data: Bytes): Manifest {
    Manifest(|data|, seq(Count(|data|), i requires 0 <= i < Count(|data|) => Hex(hash(ChunkAt(data, i)))))
  }

  // ----- the manifest as JSON -----

  function Quoted(chunks: seq<string>): string {
    if chunks == [] then ""
    else if |chunks| == 1 then "\"" + chunks[0] + "\""
    else "\"" + chunks[0] + "\"," + Quoted(chunks[1..])
  }

  function Json(m: Manifest): string {
    "{\"size\":" + Decimal(m.size) + ",\"chunks\":[" + Quoted(m.chunks) + "]}"
  }

  function Blob(s: string): (b: Bytes)
    ensures |b| == |s|
  {
    seq(|s|, i requires 0 <= i < |s| => s[i] as int % 256)
  }

  lemma SplitAtComma(x: string, u: string, y: string, v: string)
    requires ',' !in x && ',' !in y && x + "," + u == y + "," + v
    ensures x == y && u == v
  {
    var s, t := x + "," + u, y + "," + v;
    assert s[|x|] == ',' && t[|y|] == ',';
    assert s[..|x|] == x && t[..|y|] == y && s[|x| + 1..] == u && t[|y| + 1..] == v;
  }

  lemma {:induction false} QuotedInjective(a: seq<string>, b: seq<string>)
    requires (forall c :: c in a ==> |c| == 64) && (forall c :: c in b ==> |c| == 64) && Quoted(a) == Quoted(b)
    ensures a == b
    decreases |a|
  {
    QuotedLength(a);
    QuotedLength(b);
    if a != [] {
      assert a[0] in a && b[0] in b;
      var s := Quoted(a);
      assert s[1..65] == a[0] && s[1..65] == b[0];
      if |a| > 1 {
        assert s[67..] == Quoted(a[1..]) && s[67..] == Quoted(b[1..]);
        QuotedInjective(a[1..], b[1..]);
        assert a == [a[0]] + a[1..] && b == [b[0]] + b[1..];
      }
    }
  }

  lemma DecimalNoComma(n: int)
    ensures ',' !in Decimal(n)
  {
  }

  lemma SameBetween(a: string, x: string, y: string, b: string)
    requires a + x + b == a + y + b
    ensures x == y
  {
    assert |x| == |y|;
    assert (a + x + b)[|a|..|a| + |x|] == x && (a + y + b)[|a|..|a| + |x|] == y;
  }

  /** The JSON of a manifest up to its first comma, and from there on. */
  lemma JsonSplits(m: Manifest)
    ensures Json(m) == "{\"size\":" + (Decimal(m.size) + "," + ("\"chunks\":[" + Quoted(m.chunks) + "]}")) + ""
  {
    assert ",\"chunks\":[" == "," + "\"chunks\":[";
  }

  /** Manifests whose chunks are keys in hexadecimal are told apart by their JSON. */
  lemma JsonInjective(m: Manifest, n: Manifest)
    requires (forall c :: c in m.chunks ==> |c| == 64) && (forall c :: c in n.chunks ==> |c| == 64) && Json(m) == Json(n)
    ensures m == n
  {
    var x, y := Decimal(m.size), Decimal(n.size);
    var u, v := "\"chunks\":[" + Quoted(m.chunks) + "]}", "\"chunks\":[" + Quoted(n.chunks) + "]}";
    JsonSplits(m);
    JsonSplits(n);
    SameBetween("{\"size\":", x + "," + u, y + "," + v, "");
    DecimalNoComma(m.size);
    DecimalNoComma(n.size);
    SplitAtComma(x, u, y, v);
    SameBetween("\"chunks\":[", Quoted(m.chunks), Quoted(n.chunks), "]}");
    DecimalInjective(m.size, n.size);
    QuotedInjective(m.chunks, n.chunks);
  }

  // ----- PublishBytes -----

  /** The writes to the local store, in order: every chunk, then the manifest. */
  function Writes(hash: Bytes -> Id, data: Bytes): seq<(Id, Bytes)> {
    seq(Count(|data|), i requires 0 <= i < Count(|data|) => (hash(ChunkAt(data, i)), ChunkAt(data, i)))
  }

  datatype Published = TooLarge(stored: seq<(Id, Bytes)>) | Published(m: Manifest, key: Id, stored: seq<(Id, Bytes)>)

  /** What publishing promises: chunks stored, and the manifest too if it is small enough for one value. */
  function Publish(hash: Bytes -> Id, data: Bytes): Published {
    var m := ManifestOf(hash, data);
    var blob := Blob(Json(m));
    if |blob| > MAX_VALUE then TooLarge(Writes(hash, data))
    else Published(m, hash(blob), Writes(hash, data) + [(hash(blob), blob)])
  }

  method PublishBytes(hash: Bytes -> Id, data: Bytes) returns (r: Published)
    ensures r == Publish(hash, data)
  {
    var chunks: seq<string>, stored: seq<(Id, Bytes)> := [], [];
    var offset := 0;
    while offset < |data|
      invariant offset == |chunks| * CHUNK && |chunks| == |stored| <= Count(|data|)
      invariant chunks == ManifestOf(hash, data).chunks[..|chunks|]
      invariant stored == Writes(hash, data)[..|stored|]
      decreases |data| - offset
    {
      var end := offset + CHUNK;
      if end > |data| { end := |data|; }
      var chunk := data[offset..end];
      assert chunk == ChunkAt(data, |chunks|);
      var key := hash(chunk);
      assert |chunk| <= MAX_VALUE;
      stored := stored + [(key, chunk)];
      chunks := chunks + [Hex(key)];
      offset := offset + CHUNK;
    }
    assert |chunks| == Count(|data|);
    var m := Manifest(|data|, chunks);
    assert m == ManifestOf(hash, data);
    var blob := Blob(Json(m));
    if |blob| > MAX_VALUE { return TooLarge(stored); }
    return Published(m, hash(blob), stored + [(hash(blob), blob)]);
  }

  // ----- the largest file that can be published -----

  lemma {:induction false} QuotedLength(chunks: seq<string>)
    requires forall c :: c in chunks ==> |c| == 64
    ensures |Quoted(chunks)| == if chunks == [] then 0 else 67 * |chunks| - 1
  {
    if |chunks| > 1 {
      assert chunks[0] in chunks;
      QuotedLength(chunks[1..]);
    } else if |chunks| == 1 {
      assert chunks[0] in chunks;
    }
  }

  function Ten(k: nat): nat {
    if k == 0 then 1 else 10 * Ten(k - 1)
  }

  lemma {:induction false} DigitsBound(n: nat, k: nat)
    requires k > 0 && n < Ten(k)
    ensures |DecimalNat(n)| <= k
  {
    if n >= 10 { DigitsBound(n / 10, k - 1); }
  }

  lemma JsonLength(hash: Bytes -> Id, data: Bytes)
    ensures var n := Count(|data|);
            |Json(ManifestOf(hash, data))| == 21 + |DecimalNat(|data|)| + if n == 0 then 0 else 67 * n - 1
  {
    var m := ManifestOf(hash, data);
    forall c | c in m.chunks ensures |c| == 64 {
      var i :| 0 <= i < |m.chunks| && m.chunks[i] == c;
      assert c == Hex(hash(ChunkAt(data, i)));
    }
    QuotedLength(m.chunks);
  }

  /** Publishing succeeds exactly for files of at most 977 chunks, about 61 MiB: a bigger manifest does not fit a value. */
  lemma PublishLimit(hash: Bytes -> Id, data: Bytes)
    ensures Publish(hash, data).Published? <==> |data| <= 977 * CHUNK
  {
    JsonLength(hash, data);
    if |data| <= 977 * CHUNK {
      assert Ten(8) == 100_000_000 by { assert Ten(4) == 10000; }
      DigitsBound(|data|, 8);
      assert Count(|data|) <= 977;
    } else {
      assert Count(|data|) >= 978;
    }
  }

  /**
   * Whether or not the manifest fits: what was stored first is the file cut into pieces
   * of at most 64 KiB, each under its hash, all but the last of that size.
   */
  lemma {:induction false} PublishStoresFile(hash: Bytes -> Id, data: Bytes, i: nat)
    requires i <= Count(|data|)
    ensures var p := Publish(hash, data);
            && Count(|data|) <= |p.stored|
            && Joined(p.stored[i..Count(|data|)]) == data[StartOf(data, i)..]
            && (forall k :: 0 <= k < Count(|data|) ==>
                  && p.stored[k].0 == hash(p.stored[k].1)
                  && if k < Count(|data|) - 1 then |p.stored[k].1| == 65536 else 0 < |p.stored[k].1| <= 65536)
    decreases Count(|data|) - i
  {
    var n, stored := Count(|data|), Publish(hash, data).stored;
    assert forall k :: 0 <= k < n ==> stored[k] == (hash(ChunkAt(data, k)), ChunkAt(data, k));
    if i < n {
      PublishStoresFile(hash, data, i + 1);
      assert stored[i..n][1..] == stored[i + 1..n];
      ChunkThenRest(data, i);
    } else {
      assert data[StartOf(data, i)..] == [];
    }
  }

  /** The values of writes, one after the other. */
  function Joined(writes: seq<(Id, Bytes)>): Bytes {
    if writes == [] then [] else writes[0].1 + Joined(writes[1..])
  }

  // ----- FetchBytes -----

  /** What a node can retrieve: verified Get, and the manifest parser. */
  datatype Net = Net(get: Id -> Option<Bytes>, parse: Bytes -> Option<Manifest>)

  datatype Result<T> = Ok(value: T) | Error

  function FetchChunks(net: Net, chunks: seq<string>): Result<Bytes> {
    if chunks == [] then Ok([])
    else match IdFromHex(chunks[0])
         case None => Error
         case Some(key) =>
           match net.get(key)
           case None => Error
           case Some(chunk) => match FetchChunks(net, chunks[1..]) case Error => Error case Ok(rest) => Ok(chunk + rest)
  }

  /** The pieces one after the other. */
  function Concat(pieces: seq<Bytes>): Bytes {
    if pieces == [] then [] else pieces[0] + Concat(pieces[1..])
  }

  /** If every chunk is a key with something at it, fetching gives all of that in order. */
  lemma {:induction false} FetchChunksIs(net: Net, chunks: seq<string>, pieces: seq<Bytes>)
    requires |pieces| == |chunks|
    requires forall i :: 0 <= i < |chunks| ==> IdFromHex(chunks[i]).Some? && net.get(IdFromHex(chunks[i]).value) == Some(pieces[i])
    ensures FetchChunks(net, chunks) == Ok(Concat(pieces))
  {
    if chunks != [] { FetchChunksIs(net, chunks[1..], pieces[1..]); }
  }

  /** If one is not, fetching fails. */
  lemma {:induction false} FetchChunksFails(net: Net, chunks: seq<string>, i: nat)
    requires i < |chunks| && (IdFromHex(chunks[i]).Some? ==> net.get(IdFromHex(chunks[i]).value).None?)
    ensures FetchChunks(net, chunks) == Error
  {
    if i > 0 { FetchChunksFails(net, chunks[1..], i - 1); }
  }

  /** `out` in front of what is still to come. */
  function Prepend(out: Bytes, rest: Result<Bytes>): Result<Bytes> {
    match rest case Error => Error case Ok(more) => Ok(out + more)
  }

  lemma FetchStep(net: Net, chunks: seq<string>, out: Bytes)
    requires chunks != []
    ensures var key := IdFromHex(chunks[0]);
            Prepend(out, FetchChunks(net, chunks)) ==
            if key.None? || net.get(key.value).None? then Error
            else Prepend(out + net.get(key.value).value, FetchChunks(net, chunks[1..]))
  {
    var rest := FetchChunks(net, chunks[1..]);
    var key := IdFromHex(chunks[0]);
    if key.Some? && net.get(key.value).Some? && rest.Ok? {
      var c := net.get(key.value).value;
      assert out + (c + rest.value) == out + c + rest.value;
    }
  }

  /** The manifest at a key, if it can be fetched and parsed. */
  function ManifestAt(net: Net, key: Id): Option<Manifest> {
    match net.get(key) case None => None case Some(blob) => net.parse(blob)
  }

  /** A buffer of this capacity can be made. */
  predicate CanMake(size: int, maxAlloc: nat) {
    0 <= size <= maxAlloc
  }

  /**
   * FetchBytes makes its buffer with the size the manifest claims: the call panics, in
   * the source, exactly if that size is negative or more than can be allocated.
   */
  method FetchBytes(net: Net, key: Id, maxAlloc: nat) returns (panics: bool, r: Result<Bytes>)
    ensures panics <==> ManifestAt(net, key).Some? && !CanMake(ManifestAt(net, key).value.size, maxAlloc)
    ensures r.Ok? <==>
      && ManifestAt(net, key).Some?
      && var m := ManifestAt(net, key).value;
         CanMake(m.size, maxAlloc) && FetchChunks(net, m.chunks).Ok? && |FetchChunks(net, m.chunks).value| == m.size
    ensures r.Ok? ==> r == FetchChunks(net, ManifestAt(net, key).value.chunks)
  {
    panics := false;
    var blob := net.get(key);
    if blob.None? { return false, Error; }
    var parsed := net.parse(blob.value);
    if parsed.None? { return false, Error; }
    var m := parsed.value;
    if !CanMake(m.size, maxAlloc) { return true, Error; }
    var out: Bytes := [];
    ghost var whole := FetchChunks(net, m.chunks);
    assert m.chunks[0..] == m.chunks && (whole.Ok? ==> out + whole.value == whole.value);
    for i := 0 to |m.chunks|
      invariant whole == Prepend(out, FetchChunks(net, m.chunks[i..]))
    {
      FetchStep(net, m.chunks[i..], out);
      assert m.chunks[i..][1..] == m.chunks[i + 1..];
      var k := IdFromHex(m.chunks[i]);
      if k.None? { return false, Error; }
      var chunk := net.get(k.value);
      if chunk.None? { return false, Error; }
      out := out + chunk.value;
    }
    assert FetchChunks(net, m.chunks[|m.chunks|..]) == Ok([]) && out + [] == out;
    if |out| != m.size { return false, Error; }
    return false, Ok(out);
  }

  /** Every blob the publisher stored can be fetched, and its manifest parses back. */
  ghost predicate Available(net: Net, p: Published)
    requires p.Published?
  {
    && (forall i :: 0 <= i < |p.stored| ==> net.get(p.stored[i].0) == Some(p.stored[i].1))
    && net.parse(Blob(Json(p.m))) == Some(p.m)
  }

  /** Where chunk `i` starts, or the end of the file. */
  function StartOf(data: Bytes, i: nat): (k: nat)
    ensures k <= |data|
  {
    if i * CHUNK > |data| then |data| else i * CHUNK
  }

  lemma ChunkThenRest(data: Bytes, i: nat)
    requires i < Count(|data|)
    ensures i * CHUNK < |data| && StartOf(data, i + 1) == EndOf(data, i)
    ensures ChunkAt(data, i) + data[StartOf(data, i + 1)..] == data[StartOf(data, i)..]
  {
  }

  /** The chunks from `i` on, fetched, are the rest of the file. */
  lemma {:induction false} FetchFrom(net: Net, hash: Bytes -> Id, data: Bytes, i: nat)
    requires i <= Count(|data|)
    requires forall k :: 0 <= k < Count(|data|) ==> net.get(hash(ChunkAt(data, k))) == Some(ChunkAt(data, k))
    ensures FetchChunks(net, ManifestOf(hash, data).chunks[i..]) == Ok(data[StartOf(data, i)..])
    decreases Count(|data|) - i
  {
    var chunks := ManifestOf(hash, data).chunks;
    if i < |chunks| {
      FetchFrom(net, hash, data, i + 1);
      assert chunks[i..][1..] == chunks[i + 1..] && chunks[i..][0] == Hex(hash(ChunkAt(data, i)));
      HexRoundTrip(hash(ChunkAt(data, i)), chunks[i]);
      ChunkThenRest(data, i);
    } else {
      assert StartOf(data, i) == |data| && data[|data|..] == [] && chunks[i..] == [];
    }
  }

  lemma Stored(net: Net, hash: Bytes -> Id, data: Bytes, k: nat)
    requires Publish(hash, data).Published? && Available(net, Publish(hash, data)) && k < Count(|data|)
    ensures net.get(hash(ChunkAt(data, k))) == Some(ChunkAt(data, k))
  {
    assert Publish(hash, data).stored[k] == (hash(ChunkAt(data, k)), ChunkAt(data, k));
  }

  /** Fetching what was published returns the original bytes. */
  lemma FetchOfPublished(net: Net, hash: Bytes -> Id, data: Bytes)
    requires Publish(hash, data).Published? && Available(net, Publish(hash, data))
    ensures var p := Publish(hash, data);
            && net.get(p.key) == Some(Blob(Json(p.m))) && net.parse(Blob(Json(p.m))) == Some(ManifestOf(hash, data))
            && FetchChunks(net, p.m.chunks) == Ok(data) && p.m.size == |data|
  {
    var p := Publish(hash, data);
    assert p.stored[Count(|data|)] == (p.key, Blob(Json(p.m)));
    forall k | 0 <= k < Count(|data|) ensures net.get(hash(ChunkAt(data, k))) == Some(ChunkAt(data, k)) {
      Stored(net, hash, data, k);
    }
    FetchFrom(net, hash, data, 0);
    assert p.m.chunks[0..] == p.m.chunks;
  }

  lemma PublishedChunks(hash: Bytes -> Id, data: Bytes)
    ensures forall c :: c in ManifestOf(hash, data).chunks ==> |c| == 64 && forall j :: 0 <= j < |c| ==> c[j] < '\U{100}'
  {
    var m := ManifestOf(hash, data);
    forall c | c in m.chunks ensures |c| == 64 && forall j :: 0 <= j < |c| ==> c[j] < '\U{100}' {
      var i :| 0 <= i < |m.chunks| && m.chunks[i] == c;
      assert c == Hex(hash(ChunkAt(data, i)));
      FromHexOfHex(hash(ChunkAt(data, i)));
      forall j | 0 <= j < |c| ensures c[j] < '\U{100}' { HexChars(c, j); }
    }
  }

  predicate Narrow(s: string) {
    forall i :: 0 <= i < |s| ==> s[i] < '\U{100}'
  }

  lemma {:induction false} QuotedNarrow(chunks: seq<string>)
    requires forall c :: c in chunks ==> Narrow(c)
    ensures Narrow(Quoted(chunks))
  {
    if chunks != [] {
      assert chunks[0] in chunks;
      QuotedNarrow(chunks[1..]);
    }
  }

  lemma BlobInjective(s: string, t: string)
    requires Narrow(s) && Narrow(t) && Blob(s) == Blob(t)
    ensures s == t
  {
    assert |s| == |Blob(s)| == |t|;
    forall i | 0 <= i < |s| ensures s[i] == t[i] {
      assert Blob(s)[i] == s[i] as int && Blob(t)[i] == t[i] as int;
    }
  }

  lemma JsonNarrow(hash: Bytes -> Id, data: Bytes)
    ensures Narrow(Json(ManifestOf(hash, data)))
  {
    var m := ManifestOf(hash, data);
    PublishedChunks(hash, data);
    QuotedNarrow(m.chunks);
  }

  /** The stored manifests of two files are the same bytes only if they are the same manifest, */
  lemma StoredManifestTells(hash: Bytes -> Id, a: Bytes, b: Bytes)
    requires Blob(Json(ManifestOf(hash, a))) == Blob(Json(ManifestOf(hash, b)))
    ensures ManifestOf(hash, a) == ManifestOf(hash, b)
  {
    JsonNarrow(hash, a);
    JsonNarrow(hash, b);
    BlobInjective(Json(ManifestOf(hash, a)), Json(ManifestOf(hash, b)));
    PublishedChunks(hash, a);
    PublishedChunks(hash, b);
    JsonInjective(ManifestOf(hash, a), ManifestOf(hash, b));
  }

  /** so one parser reads all of them back, as Available asks. */
  lemma ParserExists(hash: Bytes -> Id)
    ensures exists parse: Bytes -> Option<Manifest> :: ReadsBack(parse, hash)
  {
    var parse := (blob: Bytes) =>
      if exists d :: Blob(Json(ManifestOf(hash, d))) == blob
      then var d :| Blob(Json(ManifestOf(hash, d))) == blob; Some(ManifestOf(hash, d))
      else None;
    forall data ensures parse(Blob(Json(ManifestOf(hash, data)))) == Some(ManifestOf(hash, data)) {
      var d :| Blob(Json(ManifestOf(hash, d))) == Blob(Json(ManifestOf(hash, data)))
               && parse(Blob(Json(ManifestOf(hash, data)))) == Some(ManifestOf(hash, d));
      StoredManifestTells(hash, d, data);
    }
    assert ReadsBack(parse, hash);
  }

  ghost predicate ReadsBack(parse: Bytes -> Option<Manifest>, hash: Bytes -> Id) {
    forall data :: parse(Blob(Json(ManifestOf(hash, data)))) == Some(ManifestOf(hash, data))
  }

  // ----- ChunkReader -----

  datatype Status = Fine | Eof | Failed

  /** What one Read of up to `n` bytes at `pos` yields: bytes up to the end of the chunk. */
  function ReadAt(data: Bytes, pos: nat, n: nat): (Bytes, Status) {
    if pos >= |data| then ([], Eof)
    else if n == 0 then ([], Fine)
    else
      var end := EndOf(data, pos / CHUNK);
      var k := if pos + n < end then pos + n else end;
      (data[pos..k], Fine)
  }

  /** Every read before the end makes progress with the bytes of the file at that position; the end is reported there and only there. */
  lemma ReadIsSlice(data: Bytes, pos: nat, n: nat)
    ensures var (out, status) := ReadAt(data, pos, n);
            && (status == Eof <==> pos >= |data|) && status != Failed
            && |out| <= n
            && (pos < |data| ==> pos + |out| <= |data| && out == data[pos..pos + |out|] && (n > 0 ==> out != []))
  {
  }

  /** Reading with any positive size until the end collects the rest of the file. */
  function ReadToEnd(data: Bytes, pos: nat, n: nat): Bytes
    requires n > 0
    decreases |data| - pos
  {
    var (out, status) := ReadAt(data, pos, n);
    if status == Eof || out == [] then [] else out + ReadToEnd(data, pos + |out|, n)
  }

  lemma {:induction false} ReadToEndIsRest(data: Bytes, pos: nat, n: nat)
    requires n > 0 && pos <= |data|
    ensures ReadToEnd(data, pos, n) == data[pos..]
    decreases |data| - pos
  {
    ReadIsSlice(data, pos, n);
    var (out, status) := ReadAt(data, pos, n);
    if pos < |data| {
      ReadToEndIsRest(data, pos + |out|, n);
      assert data[pos..pos + |out|] + data[pos + |out|..] == data[pos..];
    }
  }

  lemma PositionInChunk(data: Bytes, pos: nat)
    requires pos < |data|
    ensures var idx, offset := pos / CHUNK, pos % CHUNK;
            idx < Count(|data|) && offset < |ChunkAt(data, idx)| && pos == idx * CHUNK + offset
            && |ChunkAt(data, idx)| == EndOf(data, idx) - idx * CHUNK
  {
  }

  /** A read is a slice of the chunk that holds the position. */
  lemma ReadFromChunk(data: Bytes, pos: nat, n: nat)
    requires pos < |data| && n > 0
    ensures var idx, offset := pos / CHUNK, pos % CHUNK;
            && idx < Count(|data|) && offset < |ChunkAt(data, idx)|
            && var k := if offset + n < |ChunkAt(data, idx)| then offset + n else |ChunkAt(data, idx)|;
               ReadAt(data, pos, n) == (ChunkAt(data, idx)[offset..k], Fine)
  {
    PositionInChunk(data, pos);
    var idx, offset := pos / CHUNK, pos % CHUNK;
    var c := ChunkAt(data, idx);
    var k := if offset + n < |c| then offset + n else |c|;
    assert c[offset..k] == data[idx * CHUNK + offset..idx * CHUNK + k];
  }

  const INT64: int := 0x8000_0000_0000_0000

  /** Two's complement wrap-around of an int64 sum. */
  function Wrap64(x: int): int {
    (x + INT64) % (2 * INT64) - INT64
  }

  datatype Whence = Start | Current | End | Bad

  /** The reader's fields; cachedIdx is -1 when nothing is cached. */
  datatype Reader = Reader(m: Manifest, pos: nat, cachedIdx: int, cachedChunk: Bytes)

  /** A chunk as the network gives it now. */
  function FetchOne(net: Net, m: Manifest, idx: nat): Result<Bytes> {
    if idx >= |m.chunks| then Error
    else match IdFromHex(m.chunks[idx])
         case None => Error
         case Some(key) => match net.get(key) case None => Error case Some(chunk) => Ok(chunk)
  }

  /** fetchChunk: the cached chunk, or a fetched one that then becomes the cached chunk. */
  function FetchChunk(net: Net, r: Reader, idx: nat): (Reader, Result<Bytes>) {
    if idx == r.cachedIdx then (r, Ok(r.cachedChunk))
    else match FetchOne(net, r.m, idx)
         case Error => (r, Error)
         case Ok(chunk) => (r.(cachedIdx := idx, cachedChunk := chunk), Ok(chunk))
  }

  function ReadStep(net: Net, r: Reader, n: nat): (Reader, Bytes, Status) {
    if r.pos >= r.m.size then (r, [], Eof)
    else if n == 0 then (r, [], Fine)
    else
      var idx, offset := r.pos / CHUNK, r.pos % CHUNK;
      var (t, chunk) := FetchChunk(net, r, idx);
      if chunk.Error? || offset >= |chunk.value| then (t, [], Failed)
      else
        var k := if offset + n < |chunk.value| then offset + n else |chunk.value|;
        (t.(pos := r.pos + (k - offset)), chunk.value[offset..k], Fine)
  }

  /** The target of a seek, before any check. */
  function Target(r: Reader, offset: int, whence: Whence): int {
    offset + match whence case Current => r.pos case End => r.m.size case _ => 0
  }

  function SeekStep(r: Reader, offset: int, whence: Whence): (Reader, Result<int>) {
    var target := Wrap64(Target(r, offset, whence));
    if whence == Bad || target < 0 then (r, Error) else (r.(pos := target), Ok(target))
  }

  /**
   * Seek moves to the offset from the start, from the position or from the end, if and
   * only if that is a non-negative int64. The one other way to succeed needs a manifest
   * of negative size: the sum wraps around.
   */
  lemma SeekExact(r: Reader, offset: int, whence: Whence, target: int)
    requires -INT64 <= offset < INT64 && r.pos < INT64 && -INT64 <= r.m.size < INT64
    requires whence == Start ==> target == offset
    requires whence == Current ==> target == r.pos + offset
    requires whence == End ==> target == r.m.size + offset
    ensures SeekStep(r, offset, whence) ==
            if whence != Bad && 0 <= target < INT64 then (r.(pos := target), Ok(target))
            else if whence == End && target < -INT64 then (r.(pos := target + 2 * INT64), Ok(target + 2 * INT64))
            else (r, Error)
  {
  }

  // ----- the reader refines the flat file -----

  /** The reader is over the file `data`, and its cache, if any, holds one of its chunks. */
  ghost predicate Over(r: Reader, hash: Bytes -> Id, data: Bytes) {
    && r.m == ManifestOf(hash, data)
    && (r.cachedIdx == -1 || (0 <= r.cachedIdx < Count(|data|) && r.cachedChunk == ChunkAt(data, r.cachedIdx)))
  }

  /** A verified Get of a chunk's key returns that chunk or nothing. */
  ghost predicate Honest(net: Net, hash: Bytes -> Id, data: Bytes) {
    forall k :: 0 <= k < Count(|data|) ==>
      var got := net.get(hash(ChunkAt(data, k)));
      got.None? || got == Some(ChunkAt(data, k))
  }

  /** The chunk at `idx` is at hand: cached, or retrievable now. */
  predicate AtHand(net: Net, r: Reader, hash: Bytes -> Id, data: Bytes, idx: nat)
    requires idx < Count(|data|)
  {
    idx == r.cachedIdx || net.get(hash(ChunkAt(data, idx))).Some?
  }

  /** The cached chunk equals a fresh fetch: either way it is the chunk of the file. */
  lemma FetchIsChunk(net: Net, r: Reader, hash: Bytes -> Id, data: Bytes, idx: nat)
    requires Over(r, hash, data) && Honest(net, hash, data) && idx < Count(|data|)
    ensures var (t, chunk) := FetchChunk(net, r, idx);
            && Over(t, hash, data) && t.pos == r.pos
            && chunk == if AtHand(net, r, hash, data, idx) then Ok(ChunkAt(data, idx)) else Error
  {
    assert r.m.chunks[idx] == Hex(hash(ChunkAt(data, idx)));
    HexRoundTrip(hash(ChunkAt(data, idx)), r.m.chunks[idx]);
  }

  /**
   * A read of a published file yields the slice of the flat file at the position
   * and moves past it; it fails, without moving, exactly when it needs a chunk that
   * is neither cached nor retrievable.
   */
  lemma ReadRefinesFlat(net: Net, r: Reader, hash: Bytes -> Id, data: Bytes, n: nat)
    requires Over(r, hash, data) && Honest(net, hash, data)
    ensures var (t, out, status) := ReadStep(net, r, n);
            && Over(t, hash, data) && t.pos == r.pos + |out|
            && (status == Failed <==> r.pos < |data| && n > 0 && !AtHand(net, r, hash, data, r.pos / CHUNK))
            && (status == Failed ==> out == [])
            && (status != Failed ==> (out, status) == ReadAt(data, r.pos, n))
  {
    if r.pos < |data| && n > 0 {
      ReadFromChunk(data, r.pos, n);
      FetchIsChunk(net, r, hash, data, r.pos / CHUNK);
    }
  }

  datatype Op = ReadOp(net: Net, n: nat) | SeekOp(offset: int, whence: Whence)

  function Do(r: Reader, op: Op): Reader {
    match op
    case ReadOp(net, n) => ReadStep(net, r, n).0
    case SeekOp(offset, whence) => SeekStep(r, offset, whence).0
  }

  function DoAll(r: Reader, ops: seq<Op>): Reader
    decreases |ops|
  {
    if ops == [] then r else DoAll(Do(r, ops[0]), ops[1..])
  }

  /** Through any sequence of reads and seeks, with the network changing in between, the reader stays over its file. */
  lemma {:induction false} StaysOver(r: Reader, hash: Bytes -> Id, data: Bytes, ops: seq<Op>)
    requires Over(r, hash, data)
    requires forall i :: 0 <= i < |ops| && ops[i].ReadOp? ==> Honest(ops[i].net, hash, data)
    ensures Over(DoAll(r, ops), hash, data)
    decreases |ops|
  {
    if ops != [] {
      if ops[0].ReadOp? { ReadRefinesFlat(ops[0].net, r, hash, data, ops[0].n); }
      StaysOver(Do(r, ops[0]), hash, data, ops[1..]);
    }
  }

  // ----- the object -----

  class ChunkReader {
    const manifest: Manifest
    var pos: nat
    var cachedIdx: int
    var cachedChunk: Bytes

    constructor (m: Manifest)
      ensures View() == Reader(m, 0, -1, [])
    {
      manifest := m;
      pos, cachedIdx, cachedChunk := 0, -1, [];
    }

    ghost function View(): Reader
      reads this
    {
      Reader(manifest, pos, cachedIdx, cachedChunk)
    }

    method Fetch(net: Net, idx: nat) returns (r: Result<Bytes>)
      modifies `cachedIdx, `cachedChunk
      ensures (View(), r) == FetchChunk(net, old(View()), idx)
    {
      if idx == cachedIdx { return Ok(cachedChunk); }
      if idx >= |manifest.chunks| { return Error; }
      var key := IdFromHex(manifest.chunks[idx]);
      if key.None? { return Error; }
      var got := net.get(key.value);
      if got.None? { return Error; }
      cachedIdx, cachedChunk := idx, got.value;
      return Ok(got.value);
    }

    method Read(net: Net, n: nat) returns (out: Bytes, status: Status)
      modifies this
      ensures (View(), out, status) == ReadStep(net, old(View()), n)
    {
      if pos >= manifest.size { return [], Eof; }
      if n == 0 { return [], Fine; }
      var idx, offset := pos / CHUNK, pos % CHUNK;
      var chunk := Fetch(net, idx);
      if chunk.Error? { return [], Failed; }
      if offset >= |chunk.value| { return [], Failed; }
      var k := if offset + n < |chunk.value| then offset + n else |chunk.value|;
      out := chunk.value[offset..k];
      pos := pos + |out|;
      return out, Fine;
    }

    method Seek(offset: int, whence: Whence) returns (r: Result<int>)
      requires -INT64 <= offset < INT64
      modifies `pos
      ensures (View(), r) == SeekStep(old(View()), offset, whence)
    {
      var newPos: int;
      match whence {
        case Start => newPos := offset;
        case Current => newPos := Wrap64(pos + offset);
        case End => newPos := Wrap64(manifest.size + offset);
        case Bad => return Error;
      }
      if newPos < 0 { return Error; }
      pos := newPos;
      return Ok(newPos);
    }
  }
}

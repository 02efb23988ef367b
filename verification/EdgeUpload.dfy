/** The edge agent's chunked upload of a recorded clip. */
module EdgeUpload {
  import opened Prelude

  type Byte = n: int | 0 <= n < 256

  /** One POST: which chunk it says it is, of how many, and what it carries. */
  datatype Post = Post(chunkIndex: nat, totalChunks: nat, payload: seq<Byte>)

  function ChunkSize(chunkSizeMb: int): (size: nat)
    ensures size >= 1
  {
    (if chunkSizeMb > 1 then chunkSizeMb else 1) * 1024 * 1024
  }

  /** `max(1, ceil(size / chunk))`. */
  function TotalChunks(size: nat, chunk: nat): (total: nat)
    requires chunk > 0
    ensures total >= 1
  {
    var n := (size + chunk - 1) / chunk;
    if n > 1 then n else 1
  }

  /** The bytes a file yields to reads of `chunk` bytes, the n-th one. */
  function ChunkAt(file: seq<Byte>, chunk: nat, n: nat): seq<Byte>
    requires chunk > 0
  {
    file[Offset(file, chunk, n)..Offset(file, chunk, n + 1)]
  }

  /** Where the file handle stands before the n-th read. */
  function Offset(file: seq<Byte>, chunk: nat, n: nat): (offset: nat)
    ensures offset <= |file|
  {
    if n == 0 then 0
    else
      var before := Offset(file, chunk, n - 1);
      if before + chunk <= |file| then before + chunk else |file|
  }

  function Sent(file: seq<Byte>, chunk: nat, total: nat, n: nat): seq<Post>
    requires chunk > 0
  {
    if n == 0 then [] else Sent(file, chunk, total, n - 1) + [Post(n - 1, total, ChunkAt(file, chunk, n - 1))]
  }

  /** Which POST is answered with an error status, if any; the exception ends the upload after that POST. */
  method UploadFile(file: seq<Byte>, chunkSizeMb: int, failsAt: Option<nat>) returns (log: seq<Post>, answered: bool)
    ensures var chunk := ChunkSize(chunkSizeMb);
            var total := TotalChunks(|file|, chunk);
            if failsAt.Some? && failsAt.value < total
            then !answered && log == Sent(file, chunk, total, failsAt.value + 1)
            else answered && log == Sent(file, chunk, total, total)
    ensures answered ==> Carries(file, (if chunkSizeMb > 1 then chunkSizeMb else 1) * 1_048_576, log)
  {
    hide ChunkSize, TotalChunks;
    var chunk := ChunkSize(chunkSizeMb);
    var total := TotalChunks(|file|, chunk);
    var handle := 0;
    log, answered := [], false;
    for n := 0 to total
      invariant handle == Offset(file, chunk, n)
      invariant log == Sent(file, chunk, total, n)
      invariant n > 0 ==> answered
      invariant failsAt.Some? ==> n <= failsAt.value
    {
      var end := if handle + chunk <= |file| then handle + chunk else |file|;
      var payload := file[handle..end];
      handle := end;
      log := log + [Post(n, total, payload)];
      if failsAt == Some(n) {
        return log, false;
      }
      answered := true;
    }
    WholeUpload(file, chunkSizeMb);
  }

  /** The smallest positive number of chunks that holds the file. */
  ghost predicate Fewest(total: nat, bytes: nat, size: nat) {
    total >= 1 && size <= total * bytes && (total > 1 ==> (total - 1) * bytes < size)
  }

  /**
   * The posts are numbered in order and announce their own number, which is the fewest that can hold the file; each but
   * the last carries exactly `bytes` bytes; all together carry the file.
   */
  ghost predicate Carries(file: seq<Byte>, bytes: nat, posts: seq<Post>) {
    && Fewest(|posts|, bytes, |file|)
    && (forall i :: 0 <= i < |posts| ==> posts[i].chunkIndex == i && posts[i].totalChunks == |posts|)
    && (forall i :: 0 <= i < |posts| - 1 ==> |posts[i].payload| == bytes)
    && Payloads(posts) == file
  }

  function Payloads(posts: seq<Post>): seq<Byte> {
    if posts == [] then [] else Payloads(posts[..|posts| - 1]) + posts[|posts| - 1].payload
  }

  lemma {:induction false} OnePayload(posts: seq<Post>, post: Post)
    ensures Payloads(posts + [post]) == Payloads(posts) + post.payload
  {
  }

  // ----- arithmetic of the chunk count -----------------------------------------------

  lemma {:induction false} OffsetIs(file: seq<Byte>, chunk: nat, n: nat)
    ensures Offset(file, chunk, n) == if n * chunk <= |file| then n * chunk else |file|
  {
    if n > 0 {
      OffsetIs(file, chunk, n - 1);
      assert n * chunk == (n - 1) * chunk + chunk;
    }
  }

  /** The chunk count is the smallest positive number of chunks that holds the file. */
  lemma TotalChunksHold(size: nat, chunk: nat)
    requires chunk > 0
    ensures var total := TotalChunks(size, chunk);
            && total >= 1 && size <= total * chunk
            && (size > 0 ==> (total - 1) * chunk < size)
            && (size == 0 ==> total == 1)
  {
  }

  lemma Products(m: int, n: int, c: nat)
    requires m <= n
    ensures m * c <= n * c
  {
  }

  // ----- main results --------------------------------------------------------------------

  /** The posts are numbered in order, each with its own chunk. */
  lemma {:induction false} SentAt(file: seq<Byte>, chunk: nat, total: nat, n: nat, i: nat)
    requires chunk > 0
    ensures |Sent(file, chunk, total, n)| == n
    ensures i < n ==> Sent(file, chunk, total, n)[i] == Post(i, total, ChunkAt(file, chunk, i))
    decreases n
  {
    hide ChunkAt;
    if n > 0 {
      SentAt(file, chunk, total, n - 1, i);
    }
  }

  lemma {:induction false} PayloadsSoFar(file: seq<Byte>, chunk: nat, total: nat, n: nat)
    requires chunk > 0
    ensures Payloads(Sent(file, chunk, total, n)) == file[..Offset(file, chunk, n)]
  {
    if n > 0 {
      var before := Sent(file, chunk, total, n - 1);
      var post := Post(n - 1, total, ChunkAt(file, chunk, n - 1));
      var a, b := Offset(file, chunk, n - 1), Offset(file, chunk, n);
      assert a <= b && post.payload == file[a..b];
      hide Offset, ChunkAt, Payloads;
      PayloadsSoFar(file, chunk, total, n - 1);
      OnePayload(before, post);
      Adjacent(file, a, b);
    }
  }

  lemma Adjacent(file: seq<Byte>, a: nat, b: nat)
    requires a <= b <= |file|
    ensures file[..a] + file[a..b] == file[..b]
  {
  }

  lemma {:induction false} AllRead(file: seq<Byte>, chunk: nat)
    requires chunk > 0
    ensures Offset(file, chunk, TotalChunks(|file|, chunk)) == |file|
  {
    TotalChunksHold(|file|, chunk);
    OffsetIs(file, chunk, TotalChunks(|file|, chunk));
  }

  /** The announced number of posts is sent, and their payloads together are the file. */
  lemma {:induction false} UploadIsTheFile(file: seq<Byte>, chunkSizeMb: int)
    ensures var chunk := ChunkSize(chunkSizeMb);
            var total := TotalChunks(|file|, chunk);
            |Sent(file, chunk, total, total)| == total && Payloads(Sent(file, chunk, total, total)) == file
  {
    var chunk := ChunkSize(chunkSizeMb);
    var total := TotalChunks(|file|, chunk);
    hide ChunkSize, TotalChunks, Sent, Payloads, Offset;
    SentAt(file, chunk, total, total, 0);
    PayloadsSoFar(file, chunk, total, total);
    AllRead(file, chunk);
    assert file[..|file|] == file;
  }

  /** Every chunk but the last is full, and the last is not empty unless the file is. */
  lemma ChunkLengths(file: seq<Byte>, chunkSizeMb: int, i: nat)
    requires i < TotalChunks(|file|, ChunkSize(chunkSizeMb))
    ensures var chunk := ChunkSize(chunkSizeMb);
            var total := TotalChunks(|file|, chunk);
            && (i < total - 1 ==> |ChunkAt(file, chunk, i)| == chunk)
            && (i == total - 1 && file != [] ==> 0 < |ChunkAt(file, chunk, i)| <= chunk)
            && (file == [] ==> total == 1 && ChunkAt(file, chunk, i) == [])
  {
    var chunk := ChunkSize(chunkSizeMb);
    var total := TotalChunks(|file|, chunk);
    TotalChunksHold(|file|, chunk);
    OffsetIs(file, chunk, i);
    OffsetIs(file, chunk, i + 1);
    assert (i + 1) * chunk == i * chunk + chunk;
    Products(i + 1, total, chunk);
    if i < total - 1 {
      Products(i + 1, total - 1, chunk);
    }
  }

  lemma ChunkSizeInBytes(chunkSizeMb: int)
    ensures ChunkSize(chunkSizeMb) == (if chunkSizeMb > 1 then chunkSizeMb else 1) * 1_048_576
  {
  }

  /** A complete upload carries the file in chunks of the configured number of megabytes, or of one if that is less. */
  lemma {:induction false} WholeUpload(file: seq<Byte>, chunkSizeMb: int)
    ensures var chunk := ChunkSize(chunkSizeMb);
            var total := TotalChunks(|file|, chunk);
            Carries(file, (if chunkSizeMb > 1 then chunkSizeMb else 1) * 1_048_576, Sent(file, chunk, total, total))
  {
    hide ChunkSize, TotalChunks, ChunkAt, Payloads;
    ChunkSizeInBytes(chunkSizeMb);
    PostsCarry(file, chunkSizeMb);
  }

  lemma FewestChunks(size: nat, chunk: nat)
    requires chunk > 0
    ensures Fewest(TotalChunks(size, chunk), chunk, size)
  {
    TotalChunksHold(size, chunk);
  }

  lemma {:induction false} PostsCarry(file: seq<Byte>, chunkSizeMb: int)
    ensures var chunk := ChunkSize(chunkSizeMb);
            var total := TotalChunks(|file|, chunk);
            Carries(file, chunk, Sent(file, chunk, total, total))
  {
    hide ChunkSize, TotalChunks, Fewest, Sent, ChunkAt, Payloads;
    var chunk := ChunkSize(chunkSizeMb);
    var total := TotalChunks(|file|, chunk);
    var posts := Sent(file, chunk, total, total);
    UploadIsTheFile(file, chunkSizeMb);
    FewestChunks(|file|, chunk);
    forall i | 0 <= i < total
      ensures posts[i] == Post(i, total, ChunkAt(file, chunk, i))
      ensures i < total - 1 ==> |ChunkAt(file, chunk, i)| == chunk
    {
      SentAt(file, chunk, total, total, i);
      ChunkLengths(file, chunkSizeMb, i);
    }
  }
}

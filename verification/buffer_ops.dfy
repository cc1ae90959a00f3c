/**
  The libcurl read and write callbacks: `FillBufferCallback` appends a
  received block to a byte vector, `SendBufferCallback` moves the front of a
  string into curl's upload buffer. The user-data pointer is an `Option`:
  `None` is a null pointer.
*/
module BufferOps {
  import opened Wrappers

  const TwoTo64: int := 0x1_0000_0000_0000_0000

  /** `size_t`. */
  type Size = n: int | 0 <= n < TwoTo64

  /** Reduction into `size_t`. */
  function WrapSize(n: int): (r: Size)
    ensures 0 <= n < TwoTo64 ==> r == n
  {
    n % TwoTo64
  }

  /** `sz * nmemb` computed in `size_t`, so modulo 2^64. */
  function BlockSize(sz: Size, nmemb: Size): (r: Size)
    ensures sz * nmemb < TwoTo64 ==> r == sz * nmemb
  {
    var product: int := sz * nmemb;
    assert product >= 0;
    WrapSize(product)
  }

  datatype Filled = Filled(buf: Option<seq<char>>, written: Size)

  /**
    `FillBufferCallback`: with a buffer, appends the block's `sz * nmemb`
    bytes and reports them all written; with a null pointer, writes nothing.
    Curl hands over at least `sz * nmemb` bytes.
  */
  function FillBufferCallback(contents: seq<char>, sz: Size, nmemb: Size, userData: Option<seq<char>>): (r: Filled)
    requires userData.Some? ==> BlockSize(sz, nmemb) <= |contents|
    ensures userData.None? ==> r.written == 0 && r.buf.None?
    ensures userData.Some? ==>
      && r.buf.Some?
      && r.written == BlockSize(sz, nmemb)
      && |r.buf.value| == |userData.value| + r.written
      && r.buf.value[..|userData.value|] == userData.value
      && r.buf.value[|userData.value|..] == contents[..r.written]
  {
    match userData
    case None => Filled(None, 0)
    case Some(buf) =>
      var n := BlockSize(sz, nmemb);
      Filled(Some(buf + contents[..n]), n)
  }

  /** The concatenation of a list of blocks. */
  function Flatten(blocks: seq<seq<char>>): seq<char> {
    if |blocks| == 0 then [] else Flatten(blocks[..|blocks| - 1]) + blocks[|blocks| - 1]
  }

  /** Receiving a body in blocks, each passed as `sz = 1, nmemb = |block|`. */
  function FillAll(buf: seq<char>, blocks: seq<seq<char>>): seq<char>
    requires forall i :: 0 <= i < |blocks| ==> |blocks[i]| < TwoTo64
  {
    if |blocks| == 0 then buf
    else
      var last := blocks[|blocks| - 1];
      FillBufferCallback(last, 1, |last|, Some(FillAll(buf, blocks[..|blocks| - 1]))).buf.value
  }

  /** Receiving a body block by block accumulates exactly the blocks, in order, after what was there. */
  lemma {:induction false} FillAllConcatenates(buf: seq<char>, blocks: seq<seq<char>>)
    requires forall i :: 0 <= i < |blocks| ==> |blocks[i]| < TwoTo64
    ensures FillAll(buf, blocks) == buf + Flatten(blocks)
    decreases |blocks|
  {
    if |blocks| > 0 {
      var front := blocks[..|blocks| - 1];
      var last := blocks[|blocks| - 1];
      FillAllConcatenates(buf, front);
      var r := FillBufferCallback(last, 1, |last|, Some(FillAll(buf, front)));
      assert last[..|last|] == last;
      assert r.buf.value == (buf + Flatten(front)) + last;
    }
  }

  datatype Sent = Sent(dest: seq<char>, buf: Option<string>, copied: Size)

  /**
    `SendBufferCallback`: copies `min(sz * nmemb, |buf|)` characters from the
    front of the string into `dest` and drops them from the string; with a
    null pointer, copies nothing. Curl's buffer holds `sz * nmemb` bytes.
  */
  function SendBufferCallback(dest: seq<char>, sz: Size, nmemb: Size, userData: Option<string>): (r: Sent)
    requires userData.Some? ==> BlockSize(sz, nmemb) <= |dest|
    ensures userData.None? ==> r.copied == 0 && r.buf.None? && r.dest == dest
    ensures userData.Some? ==>
      && r.buf.Some?
      && r.copied == Min(BlockSize(sz, nmemb), |userData.value|)
      && |r.dest| == |dest|
      && r.dest[..r.copied] == userData.value[..r.copied]
      && r.dest[r.copied..] == dest[r.copied..]
      && r.buf.value == userData.value[r.copied..]
  {
    match userData
    case None => Sent(dest, None, 0)
    case Some(buf) =>
      var k := Min(BlockSize(sz, nmemb), |buf|);
      Sent(buf[..k] + dest[k..], Some(buf[k..]), k)
  }

  /** Nothing is lost or duplicated: the copied prefix and the rest make up the old string. */
  lemma SendSplits(dest: seq<char>, sz: Size, nmemb: Size, buf: string)
    requires BlockSize(sz, nmemb) <= |dest|
    ensures var r := SendBufferCallback(dest, sz, nmemb, Some(buf));
      r.dest[..r.copied] + r.buf.value == buf
  {
    var r := SendBufferCallback(dest, sz, nmemb, Some(buf));
    assert buf[..r.copied] + buf[r.copied..] == buf;
  }

  /** A blank upload buffer of `n` bytes. */
  function Blank(n: nat): (r: seq<char>)
    ensures |r| == n
  {
    seq(n, _ => '\0')
  }

  lemma FlattenSnoc(blocks: seq<seq<char>>, b: seq<char>)
    ensures Flatten(blocks + [b]) == Flatten(blocks) + b
  {
    assert (blocks + [b])[..|blocks|] == blocks;
  }

  /**
    Curl pulling a whole request body through a buffer of `capacity` bytes:
    the callback is called until it returns 0. The chunks put together are the
    payload; every chunk but the last fills the buffer.
  */
  method SendAll(payload: string, capacity: Size) returns (chunks: seq<string>, lastCopied: Size)
    requires capacity > 0
    ensures Flatten(chunks) == payload
    ensures lastCopied == 0
    ensures forall i :: 0 <= i < |chunks| ==> 0 < |chunks[i]| <= capacity
    ensures forall i :: 0 <= i < |chunks| - 1 ==> |chunks[i]| == capacity
  {
    chunks := [];
    var buf := payload;
    while true
      invariant Flatten(chunks) + buf == payload
      invariant forall i :: 0 <= i < |chunks| ==> 0 < |chunks[i]| <= capacity
      invariant forall i :: 0 <= i < |chunks| - 1 ==> |chunks[i]| == capacity
      invariant |chunks| > 0 && |chunks[|chunks| - 1]| < capacity ==> buf == []
      decreases |buf|
    {
      var r := SendBufferCallback(Blank(capacity), 1, capacity, Some(buf));
      if r.copied == 0 {
        lastCopied := 0;
        return;
      }
      var chunk := r.dest[..r.copied];
      SendSplits(Blank(capacity), 1, capacity, buf);
      FlattenSnoc(chunks, chunk);
      chunks := chunks + [chunk];
      buf := r.buf.value;
    }
  }
}

/** Chunks of one octet string, in any order and with any overlap, assemble exactly a prefix of that string. */
module PrefixAssembly {
  import opened Wrappers
  import opened Octets
  import opened Representation
  import opened RepresentationSpec
  import opened RepresentationSafety

  /** The octets [start, end) of the string being transferred. */
  datatype Chunk = Chunk(start: nat, end: nat)

  ghost predicate Cut(chunk: Chunk, whole: Bytes) {
    chunk.start < chunk.end <= |whole|
  }

  /** Where the contiguous prefix ends once a chunk arrives: a chunk beyond a gap changes nothing. */
  function Reach(prefix: nat, chunk: Chunk): nat {
    if chunk.start <= prefix < chunk.end then chunk.end else prefix
  }

  function ReachAll(prefix: nat, chunks: seq<Chunk>): nat
    decreases |chunks|
  {
    if chunks == [] then prefix else ReachAll(Reach(prefix, chunks[0]), chunks[1..])
  }

  /** A live, accepted store for a representation of exactly these octets, holding the first `prefix` of them. */
  ghost predicate Holding(sha: Hash, st: State, img: Image, whole: Bytes, prefix: nat) {
    && Live(sha, st, img)
    && st.status != Absent
    && st.descriptor.encodedLength == |whole|
    && prefix <= |whole|
    && ViewOf(st, img).content == whole[..prefix]
  }

  function Accept(st: State, img: Image, whole: Bytes, chunk: Chunk): Effect<Accepted>
    requires Cut(chunk, whole) && |whole| <= U64_MAX
  {
    AcceptData(st, img, st.descriptor.representationId, chunk.start, whole[chunk.start..chunk.end])
  }

  lemma SliceMatches(whole: Bytes, prefix: nat, chunk: Chunk)
    requires Cut(chunk, whole) && chunk.start <= prefix <= |whole|
    ensures var n := Min(chunk.end - chunk.start, prefix - chunk.start);
            && chunk.start + n <= prefix
            && whole[..prefix][chunk.start..chunk.start + n] == whole[chunk.start..chunk.end][..n]
  {
    var n := Min(chunk.end - chunk.start, prefix - chunk.start);
    assert whole[..prefix][chunk.start..chunk.start + n] == whole[chunk.start..chunk.start + n];
    assert whole[chunk.start..chunk.end][..n] == whole[chunk.start..chunk.start + n];
  }

  /** A string that begins with the prefix and carries the chunk in its place is a longer prefix. */
  lemma PrefixWithChunk(whole: Bytes, prefix: nat, chunk: Chunk, content: Bytes)
    requires Cut(chunk, whole) && chunk.start <= prefix <= |whole|
    requires whole[..prefix] <= content && |content| == Reach(prefix, chunk)
    requires content[chunk.start..chunk.end] == whole[chunk.start..chunk.end]
    ensures content == whole[..Reach(prefix, chunk)]
  {
    forall i | 0 <= i < |content|
      ensures content[i] == whole[i]
    {
      if i < prefix {
        assert content[i] == whole[..prefix][i];
      } else {
        assert content[i] == content[chunk.start..chunk.end][i - chunk.start];
      }
    }
  }

  lemma AcceptReplies(sha: Hash, st: State, img: Image, whole: Bytes, prefix: nat, chunk: Chunk)
    requires Holding(sha, st, img, whole, prefix) && Cut(chunk, whole) && st.sequence < U64_MAX
    ensures var e := Accept(st, img, whole, chunk);
            if chunk.start > prefix then
              e == Effect([], st, Err(NonContiguous))
            else
              var added := Reach(prefix, chunk) - prefix;
              e.result == Ok(Accepted(added, chunk.end - chunk.start - added))
  {
    if chunk.start <= prefix {
      SliceMatches(whole, prefix, chunk);
      var payload := whole[chunk.start..chunk.end];
      assert payload[..|payload|] == payload;
    }
  }

  /** One chunk moves the prefix to its end when it touches the prefix, and is refused without effect otherwise. */
  lemma AcceptHolds(sha: Hash, st: State, img: Image, whole: Bytes, prefix: nat, chunk: Chunk)
    requires Holding(sha, st, img, whole, prefix) && Cut(chunk, whole) && st.sequence < U64_MAX
    ensures var e := Accept(st, img, whole, chunk);
            && Holding(sha, e.state, After(img, e.trace), whole, Reach(prefix, chunk))
            && e.state.descriptor == st.descriptor && e.state.sequence <= st.sequence + 1
  {
    var id, payload := st.descriptor.representationId, whole[chunk.start..chunk.end];
    var e := Accept(st, img, whole, chunk);
    AcceptReplies(sha, st, img, whole, prefix, chunk);
    if chunk.start <= prefix {
      ContentKept(sha, st, img, id, chunk.start, payload);
      PrefixWithChunk(whole, prefix, chunk, ViewOf(e.state, After(img, e.trace)).content);
    }
  }

  lemma ContentKept(sha: Hash, st: State, img: Image, id: Octets32, offset: u64, payload: Bytes)
    requires Live(sha, st, img) && AcceptData(st, img, id, offset, payload).result.Ok? && st.status != Absent
    ensures var e := AcceptData(st, img, id, offset, payload);
            && Live(sha, e.state, After(img, e.trace))
            && ViewOf(st, img).content <= ViewOf(e.state, After(img, e.trace)).content
            && |ViewOf(e.state, After(img, e.trace)).content| == |ViewOf(st, img).content| + e.result.value.acceptedOctets
            && Durable(ViewOf(e.state, After(img, e.trace)), offset, payload)
            && e.state.descriptor == st.descriptor && e.state.status != Absent && e.state.sequence <= st.sequence + 1
  {
    AcceptDataSound(sha, st, img, id, offset, payload);
    var e := AcceptData(st, img, id, offset, payload);
    if e.trace != [] {
      var cut := e.trace[|e.trace| - 1];
      assert SoundCut(sha, AcceptDataCall(id, offset, payload), st, img, cut);
      BackedIsNewest(e.state, cut);
    }
  }

  /** All chunks in turn; a refused chunk leaves the store open, as the code does. */
  function AcceptAll(st: State, img: Image, whole: Bytes, chunks: seq<Chunk>): (State, Image)
    requires |whole| <= U64_MAX && forall c | c in chunks :: Cut(c, whole)
    decreases |chunks|
  {
    if chunks == [] then
      (st, img)
    else
      var e := Accept(st, img, whole, chunks[0]);
      AcceptAll(e.state, After(img, e.trace), whole, chunks[1..])
  }

  /** Whatever the order, overlaps, repeats and gaps, the durable octets are the string's prefix up to the furthest reach. */
  lemma {:induction false} ChunksAssemblePrefix(sha: Hash, st: State, img: Image, whole: Bytes, prefix: nat, chunks: seq<Chunk>)
    requires Holding(sha, st, img, whole, prefix)
    requires forall c | c in chunks :: Cut(c, whole)
    requires st.sequence + |chunks| <= U64_MAX
    ensures var (st', img') := AcceptAll(st, img, whole, chunks);
            Holding(sha, st', img', whole, ReachAll(prefix, chunks))
    decreases |chunks|
  {
    if chunks != [] {
      AcceptHolds(sha, st, img, whole, prefix, chunks[0]);
      var e := Accept(st, img, whole, chunks[0]);
      ChunksAssemblePrefix(sha, e.state, After(img, e.trace), whole, Reach(prefix, chunks[0]), chunks[1..]);
    }
  }

  /** Chunks that start inside the prefix reached so far lose nothing: the reach is the largest end seen. */
  lemma {:induction false} ReachIsFurthestEnd(prefix: nat, chunks: seq<Chunk>)
    ensures prefix <= ReachAll(prefix, chunks)
    ensures ReachAll(prefix, chunks) == prefix || exists c :: c in chunks && c.end == ReachAll(prefix, chunks)
    ensures (forall c | c in chunks :: c.start <= prefix) ==> forall c | c in chunks :: c.end <= ReachAll(prefix, chunks)
    decreases |chunks|
  {
    if chunks != [] {
      ReachIsFurthestEnd(Reach(prefix, chunks[0]), chunks[1..]);
      assert chunks[0] in chunks && forall c | c in chunks[1..] :: c in chunks;
    }
  }
}

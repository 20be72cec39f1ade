/** The standards corpus (processStandards.py): the chunks kept from the
    standards document, and the aligned texts, metadata and ids handed to
    the similarity index. The PDF conversion, the chunker and the index
    itself are outside the model; their chunks come in as values. */
module Standards {
  import opened Values
  import opened Text

  /** The heading of the front-matter chunks that are dropped. */
  const VersionMarker := "Version 5.0"

  /** A chunk as the hierarchical chunker exports it: its text, the list
      of headings in `meta.headings`, and `meta.origin.filename`. */
  datatype DocChunk = DocChunk(text: string, headings: seq<string>, originFilename: string)

  /** A record of the chunk file: filename, content and heading. */
  datatype Chunk = Chunk(filename: string, content: string, heading: string)

  /** The metadata stored beside each text in the index. */
  datatype Metadata = Metadata(fileName: string, heading: string)

  predicate HasHeading(c: DocChunk)
  {
    |c.headings| > 0
  }

  /** Every chunk has a first heading, so indexing `headings[0]` cannot fail. */
  predicate AllHeaded(cs: seq<DocChunk>)
  {
    forall i :: 0 <= i < |cs| ==> HasHeading(cs[i])
  }

  /** A chunk survives the filter when its first heading is not the marker. */
  predicate Kept(c: DocChunk)
    requires HasHeading(c)
  {
    c.headings[0] != VersionMarker
  }

  /** The record written for a kept chunk. */
  function ToChunk(c: DocChunk): (r: Chunk)
    requires HasHeading(c)
    ensures r.filename == c.originFilename && r.content == c.text && r.heading == c.headings[0]
  {
    Chunk(c.originFilename, c.text, c.headings[0])
  }

  /** The records the filter produces, built as the loop builds them:
      the records of a prefix, then the last chunk's if it is kept. */
  function KeptChunks(cs: seq<DocChunk>): (r: seq<Chunk>)
    requires AllHeaded(cs)
    ensures |r| <= |cs|
  {
    if cs == [] then []
    else
      var last := cs[|cs| - 1];
      KeptChunks(cs[..|cs| - 1]) + (if Kept(last) then [ToChunk(last)] else [])
  }

  /** The positions of the kept chunks: increasing, and exactly the
      positions whose first heading is not the marker. */
  function KeptIndices(cs: seq<DocChunk>): (idx: seq<nat>)
    requires AllHeaded(cs)
    ensures forall k :: 0 <= k < |idx| ==> idx[k] < |cs| && Kept(cs[idx[k]])
    ensures forall k, l :: 0 <= k < l < |idx| ==> idx[k] < idx[l]
    ensures forall i :: 0 <= i < |cs| && Kept(cs[i]) ==> i in idx
  {
    if cs == [] then []
    else
      var n := |cs| - 1;
      var front := KeptIndices(cs[..n]);
      assert forall i :: 0 <= i < n ==> cs[..n][i] == cs[i];
      front + (if Kept(cs[n]) then [n] else [])
  }

  /** The filter keeps exactly the chunks whose first heading is not the
      marker, in their original order: record k is the chunk at the k-th
      kept position. */
  lemma {:induction false} KeptChunksAreKeptIndices(cs: seq<DocChunk>)
    requires AllHeaded(cs)
    ensures |KeptChunks(cs)| == |KeptIndices(cs)|
    ensures forall k :: 0 <= k < |KeptIndices(cs)| ==>
      KeptChunks(cs)[k] == ToChunk(cs[KeptIndices(cs)[k]])
  {
    if cs != [] {
      var n := |cs| - 1;
      var front, fi := KeptChunks(cs[..n]), KeptIndices(cs[..n]);
      KeptChunksAreKeptIndices(cs[..n]);
      var chunks, idx := KeptChunks(cs), KeptIndices(cs);
      assert chunks == front + (if Kept(cs[n]) then [ToChunk(cs[n])] else []);
      assert idx == fi + (if Kept(cs[n]) then [n] else []);
      forall k | 0 <= k < |idx|
        ensures chunks[k] == ToChunk(cs[idx[k]])
      {
        if k < |fi| {
          assert chunks[k] == front[k] == ToChunk(cs[..n][fi[k]]);
          assert cs[..n][fi[k]] == cs[fi[k]];
        }
      }
    }
  }

  /** Filtering a concatenation filters each part: the filter keeps order. */
  lemma {:induction false} KeptChunksAppend(a: seq<DocChunk>, b: seq<DocChunk>)
    requires AllHeaded(a) && AllHeaded(b)
    ensures AllHeaded(a + b)
    ensures KeptChunks(a + b) == KeptChunks(a) + KeptChunks(b)
  {
    if b == [] {
      assert a + b == a;
    } else {
      var n := |b| - 1;
      assert (a + b)[..|a + b| - 1] == a + b[..n];
      KeptChunksAppend(a, b[..n]);
    }
  }

  /** chunk_standards: walk the converter's chunks, keep those whose first
      heading is not the marker. A chunk without headings makes `[0]`
      raise, and nothing is written: the result is then None. */
  method ChunkStandards(docChunks: seq<DocChunk>) returns (r: Option<seq<Chunk>>)
    ensures r.None? <==> !AllHeaded(docChunks)
    ensures r.Some? ==> r.value == KeptChunks(docChunks)
  {
    var chunks: seq<Chunk> := [];
    var i := 0;
    while i < |docChunks|
      invariant 0 <= i <= |docChunks|
      invariant AllHeaded(docChunks[..i])
      invariant chunks == KeptChunks(docChunks[..i])
    {
      var c := docChunks[i];
      if |c.headings| == 0 {
        return None;
      }
      assert docChunks[..i + 1][..i] == docChunks[..i];
      if c.headings[0] != VersionMarker {
        chunks := chunks + [Chunk(c.originFilename, c.text, c.headings[0])];
      }
      i := i + 1;
    }
    assert docChunks[..i] == docChunks;
    r := Some(chunks);
  }

  /** The ids `id0`, `id1`, ... for n texts. */
  function Ids(n: nat): (ids: seq<string>)
    ensures |ids| == n
  {
    seq(n, i requires 0 <= i => "id" + NatToString(i))
  }

  /** The ids are pairwise distinct. */
  lemma IdsDistinct(n: nat)
    ensures forall i, j :: 0 <= i < j < n ==> Ids(n)[i] != Ids(n)[j]
  {
    forall i, j | 0 <= i < j < n
      ensures Ids(n)[i] != Ids(n)[j]
    {
      if Ids(n)[i] == Ids(n)[j] {
        assert NatToString(i) == Ids(n)[i][2..] == Ids(n)[j][2..] == NatToString(j);
        NatToStringInjective(i, j);
      }
    }
  }

  /** The ids of a longer run extend those of a shorter one: an id names
      the same position however many chunks there are. */
  lemma IdsPrefix(m: nat, n: nat)
    requires m <= n
    ensures Ids(n)[..m] == Ids(m)
  {
  }

  /** create_standards_db, the part before the index: one text and one
      metadata entry per chunk, in chunk order, and positional ids. */
  method CreateStandardsDb(chunks: seq<Chunk>)
    returns (texts: seq<string>, metadatas: seq<Metadata>, ids: seq<string>)
    ensures |texts| == |metadatas| == |ids| == |chunks|
    ensures forall i :: 0 <= i < |chunks| ==>
      texts[i] == chunks[i].content &&
      metadatas[i] == Metadata(chunks[i].filename, chunks[i].heading)
    ensures ids == Ids(|texts|)
  {
    texts, metadatas := [], [];
    for i := 0 to |chunks|
      invariant |texts| == |metadatas| == i
      invariant forall k :: 0 <= k < i ==>
        texts[k] == chunks[k].content &&
        metadatas[k] == Metadata(chunks[k].filename, chunks[k].heading)
    {
      texts := texts + [chunks[i].content];
      metadatas := metadatas + [Metadata(chunks[i].filename, chunks[i].heading)];
    }
    ids := seq(|texts|, i requires 0 <= i => "id" + NatToString(i));
  }
}

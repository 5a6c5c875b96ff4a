/** The archive stream: several writers put blocks of their collections into one stream
    (pbm/archive/archive.go), and the reader takes it apart again by collection (parser and
    demultiplexer of mongo-tools). A block is a header document, any number of documents, and a
    terminator of four bytes 0xFF. Headers are encoded and decoded by the two functions of a codec. */
module ArchiveStream {
  import opened Options
  import opened Interleaving
  import opened Archive

  datatype Header = Header(ns: string, eof: bool, crc: int)

  datatype Codec = Codec(enc: Header -> Bytes, dec: Bytes -> Option<Header>)

  /** What the reader accepts as a document of the stream. */
  predicate IsDoc(d: Bytes) {
    5 <= |d| <= MAX_BSON_SIZE && Length(d) == |d| && d[|d| - 1] == 0
  }

  ghost predicate IsCodec(c: Codec) {
    forall h :: IsDoc(c.enc(h)) && c.dec(c.enc(h)) == Some(h)
  }

  const TERMINATOR: Bytes := [255, 255, 255, 255]

  datatype Block = Block(header: Header, body: seq<Bytes>)

  // ---------------------------------------------------------------------------------------------
  // Writing
  // ---------------------------------------------------------------------------------------------

  function Encode(c: Codec, b: Block): Bytes {
    c.enc(b.header) + Flat(b.body) + TERMINATOR
  }

  function EncodeAll(c: Codec, blocks: seq<Block>): Bytes {
    if blocks == [] then [] else Encode(c, blocks[0]) + EncodeAll(c, blocks[1..])
  }

  /** A collection as the backup lists it, with the dump of its documents and whether it can be opened. */
  datatype Namespace = Namespace(ns: string, size: int, crc: int, opens: bool, dump: Bytes)

  function DataBlocks(ns: Namespace, groups: seq<seq<Bytes>>): seq<Block> {
    if groups == [] then []
    else DataBlocks(ns, groups[..|groups| - 1]) + [Block(Header(ns.ns, false, 0), groups[|groups| - 1])]
  }

  function CloseBlock(ns: Namespace): Block {
    Block(Header(ns.ns, true, ns.crc), [])
  }

  /** What the writer of a collection puts into the stream: its chunks and an end marker. The dump of a
      collection of size 0 is not even opened. */
  function WriterBlocks(ns: Namespace): seq<Block> {
    if ns.size == 0 then [CloseBlock(ns)]
    else DataBlocks(ns, Groups(ReadAll(ns.dump).0, MAX_BSON_SIZE * 2)) + [CloseBlock(ns)]
  }

  function Delivered(ns: Namespace): seq<Bytes> {
    if ns.size == 0 then [] else ReadAll(ns.dump).0
  }

  type Step = (string, Block)

  /** The writers run side by side; each puts its own blocks in its own order. */
  ghost predicate IsSchedule(nss: map<string, Namespace>, steps: seq<Step>) {
    && (forall i :: 0 <= i < |steps| ==> steps[i].0 in nss && steps[i].1.header.ns == steps[i].0)
    && (forall n :: n in nss ==> nss[n].ns == n && Project(steps, n) == WriterBlocks(nss[n]))
  }

  function BlocksOf(steps: seq<Step>): (blocks: seq<Block>)
    ensures |blocks| == |steps| && forall i :: 0 <= i < |steps| ==> blocks[i] == steps[i].1
  {
    seq(|steps|, i requires 0 <= i < |steps| => steps[i].1)
  }

  // --- the writers at work ---------------------------------------------------------------------

  /** How the reading of a dump ends; that of an empty collection is not opened. */
  function EndOf(ns: Namespace): Outcome {
    if ns.size == 0 then Done else if !ns.opens then Failed else ReadAll(ns.dump).2
  }

  /** What a writer gets into the stream, also when its dump cannot be opened or read: there is no end
      marker then, and what is in the chunk being filled is lost. */
  function Written(ns: Namespace): seq<Block> {
    if EndOf(ns) == Done then WriterBlocks(ns)
    else if !ns.opens then []
    else DataBlocks(ns, Pack(ReadAll(ns.dump).0, MAX_BSON_SIZE * 2).groups)
  }

  /** A dump that holds these documents and nothing else, but for a length with nothing behind it. */
  predicate IsDumpOf(dump: Bytes, docs: seq<Bytes>) {
    && (forall d :: d in docs ==> IsReadable(d))
    && Flat(docs) <= dump
    && (|dump| == |Flat(docs)| || (|dump| == |Flat(docs)| + 4 && Signed(dump[|Flat(docs)|..]) > 4))
  }

  predicate HasEndMarker(blocks: seq<Block>) {
    exists b :: b in blocks && b.header.eof
  }

  /** A writer ends well exactly if the collection is empty or its dump can be opened and holds documents;
      these are delivered then. Exactly then it leaves an end marker. */
  lemma WriterEnds(ns: Namespace)
    ensures EndOf(ns) == Done <==> ns.size == 0 || (ns.opens && exists docs :: IsDumpOf(ns.dump, docs))
    ensures forall docs :: ns.size != 0 && IsDumpOf(ns.dump, docs) ==> Delivered(ns) == docs
    ensures ns.size == 0 ==> Delivered(ns) == []
    ensures HasEndMarker(Written(ns)) <==> EndOf(ns) == Done
    ensures ns.size != 0 && !ns.opens ==> Written(ns) == []
  {
    var (docs, tail, end) := ReadAll(ns.dump);
    ReadAllIsWhole(ns.dump);
    if end == Done {
      assert IsDumpOf(ns.dump, docs);
    }
    forall docs | IsDumpOf(ns.dump, docs) ensures ReadAll(ns.dump).0 == docs && ReadAll(ns.dump).2 == Done {
      DumpReads(ns.dump, docs);
    }
    EndMarked(ns);
  }

  lemma DumpReads(dump: Bytes, docs: seq<Bytes>)
    requires IsDumpOf(dump, docs)
    ensures ReadAll(dump).0 == docs && ReadAll(dump).2 == Done
  {
    var tail := dump[|Flat(docs)|..];
    assert dump == Flat(docs) + tail;
    ReadsWhatWasWritten(docs, tail);
  }

  lemma EndMarked(ns: Namespace)
    ensures HasEndMarker(Written(ns)) <==> EndOf(ns) == Done
  {
    var blocks := WriterBlocks(ns);
    assert blocks[|blocks| - 1] == CloseBlock(ns);
    NoMarkerInData(ns, Pack(ReadAll(ns.dump).0, MAX_BSON_SIZE * 2).groups);
  }

  lemma {:induction false} NoMarkerInData(ns: Namespace, groups: seq<seq<Bytes>>)
    ensures !HasEndMarker(DataBlocks(ns, groups))
    decreases |groups|
  {
    if groups != [] {
      NoMarkerInData(ns, groups[..|groups| - 1]);
    }
  }

  function Encodings(c: Codec, blocks: seq<Block>): (pieces: seq<Bytes>)
    ensures |pieces| == |blocks| && forall i :: 0 <= i < |blocks| ==> pieces[i] == Encode(c, blocks[i])
  {
    seq(|blocks|, i requires 0 <= i < |blocks| => Encode(c, blocks[i]))
  }

  lemma {:induction false} ChunksAre(groups: seq<seq<Bytes>>)
    ensures |Chunks(groups)| == |groups| && forall i :: 0 <= i < |groups| ==> Chunks(groups)[i] == Flat(groups[i])
    decreases |groups|
  {
    if groups != [] {
      ChunksAre(groups[..|groups| - 1]);
    }
  }

  lemma OneMorePiece(c: Codec, ns: Namespace, groups: seq<seq<Bytes>>, g: seq<Bytes>, pieces: seq<Bytes>)
    requires pieces == Encodings(c, DataBlocks(ns, groups))
    ensures pieces + [c.enc(Header(ns.ns, false, 0)) + Flat(g) + TERMINATOR] ==
      Encodings(c, DataBlocks(ns, groups + [g]))
  {
    assert (groups + [g])[..|groups|] == groups;
    assert DataBlocks(ns, groups + [g]) == DataBlocks(ns, groups) + [Block(Header(ns.ns, false, 0), g)];
  }

  lemma LastPiece(c: Codec, ns: Namespace, blocks: seq<Block>)
    ensures Encodings(c, blocks) + [c.enc(Header(ns.ns, true, ns.crc)) + TERMINATOR] ==
      Encodings(c, blocks + [CloseBlock(ns)])
    ensures [c.enc(Header(ns.ns, true, ns.crc)) + TERMINATOR] == Encodings(c, [CloseBlock(ns)])
  {
    var h := c.enc(Header(ns.ns, true, ns.crc));
    assert h + Flat([]) == h;
    assert Encode(c, CloseBlock(ns)) == h + TERMINATOR;
  }

  method DataPieces(c: Codec, ns: Namespace, chunks: seq<Bytes>, ghost groups: seq<seq<Bytes>>)
    returns (pieces: seq<Bytes>)
    requires chunks == Chunks(groups)
    ensures pieces == Encodings(c, DataBlocks(ns, groups))
  {
    ChunksAre(groups);
    pieces := [];
    for i := 0 to |chunks|
      invariant pieces == Encodings(c, DataBlocks(ns, groups[..i]))
    {
      OneMorePiece(c, ns, groups[..i], groups[i], pieces);
      assert groups[..i + 1] == groups[..i] + [groups[i]];
      pieces := pieces + [c.enc(Header(ns.ns, false, 0)) + chunks[i] + TERMINATOR];
    }
    assert groups[..|groups|] == groups;
  }

  /** The pieces that a writer puts into the stream, one at a time. */
  method WriterPieces(c: Codec, ns: Namespace) returns (pieces: seq<Bytes>, end: Outcome)
    ensures end == EndOf(ns) && pieces == Encodings(c, Written(ns))
  {
    var close := c.enc(Header(ns.ns, true, ns.crc)) + TERMINATOR;
    if ns.size == 0 {
      LastPiece(c, ns, []);
      return [close], Done;
    }
    if !ns.opens {
      return [], Failed;
    }
    var chunks: seq<Bytes>;
    chunks, end := SplitChunks(ns.dump, MAX_BSON_SIZE * 2);
    ghost var docs := ReadAll(ns.dump).0;
    ghost var groups := if end == Done then Groups(docs, MAX_BSON_SIZE * 2) else Pack(docs, MAX_BSON_SIZE * 2).groups;
    pieces := DataPieces(c, ns, chunks, groups);
    if end == Done {
      LastPiece(c, ns, DataBlocks(ns, groups));
      pieces := pieces + [close];
    }
  }

  predicate DistinctNames(nss: seq<Namespace>) {
    forall i, j :: 0 <= i < j < |nss| ==> nss[i].ns != nss[j].ns
  }

  function Named(nss: seq<Namespace>): map<string, Namespace> {
    if nss == [] then map[] else Named(nss[..|nss| - 1])[nss[|nss| - 1].ns := nss[|nss| - 1]]
  }

  lemma {:induction false} NamedFinds(nss: seq<Namespace>)
    requires DistinctNames(nss)
    ensures forall i :: 0 <= i < |nss| ==> nss[i].ns in Named(nss) && Named(nss)[nss[i].ns] == nss[i]
    ensures forall n :: n in Named(nss) ==> exists i :: 0 <= i < |nss| && nss[i].ns == n
    decreases |nss|
  {
    if nss != [] {
      var before := nss[..|nss| - 1];
      NamedFinds(before);
      forall i | 0 <= i < |before| ensures nss[i].ns in Named(nss) && Named(nss)[nss[i].ns] == nss[i] {
        assert before[i] == nss[i];
      }
      forall n | n in Named(nss) ensures exists i :: 0 <= i < |nss| && nss[i].ns == n {
        if n == nss[|nss| - 1].ns {
          assert nss[|nss| - 1].ns == n;
        } else {
          var i :| 0 <= i < |before| && before[i].ns == n;
          assert nss[i].ns == n;
        }
      }
    }
  }

  function Total(left: seq<seq<Bytes>>): nat {
    if left == [] then 0 else Total(left[..|left| - 1]) + |left[|left| - 1]|
  }

  lemma {:induction false} TotalDrops(left: seq<seq<Bytes>>, i: nat)
    requires i < |left| && left[i] != []
    ensures Total(left[i := left[i][1..]]) == Total(left) - 1
    decreases |left|
  {
    var before, less := left[..|left| - 1], left[i := left[i][1..]];
    if i == |left| - 1 {
      assert less[..|less| - 1] == before;
    } else {
      TotalDrops(before, i);
      assert less[..|less| - 1] == before[i := before[i][1..]];
    }
  }

  lemma {:induction false} EncodeAllAppend(c: Codec, blocks: seq<Block>, b: Block)
    ensures EncodeAll(c, blocks + [b]) == EncodeAll(c, blocks) + Encode(c, b)
    decreases |blocks|
  {
    if blocks == [] {
      assert [b][1..] == [] && blocks + [b] == [b];
      assert Encode(c, b) + [] == Encode(c, b);
    } else {
      EncodeAllAppend(c, blocks[1..], b);
      assert (blocks + [b])[1..] == blocks[1..] + [b];
      Assoc(Encode(c, blocks[0]), EncodeAll(c, blocks[1..]), Encode(c, b));
    }
  }

  lemma {:induction false} DataBlocksNamed(ns: Namespace, groups: seq<seq<Bytes>>)
    ensures forall b :: b in DataBlocks(ns, groups) ==> b.header.ns == ns.ns
    decreases |groups|
  {
    if groups != [] {
      DataBlocksNamed(ns, groups[..|groups| - 1]);
    }
  }

  lemma WrittenNamed(ns: Namespace)
    ensures forall b :: b in Written(ns) ==> b.header.ns == ns.ns
  {
    DataBlocksNamed(ns, Groups(ReadAll(ns.dump).0, MAX_BSON_SIZE * 2));
    DataBlocksNamed(ns, Pack(ReadAll(ns.dump).0, MAX_BSON_SIZE * 2).groups);
  }

  /** A writer has done the steps of its name and has `left` before it. */
  ghost predicate Writing(c: Codec, ns: Namespace, steps: seq<Step>, left: seq<Bytes>) {
    exists rest :: left == Encodings(c, rest) && Project(steps, ns.ns) + rest == Written(ns)
  }

  ghost predicate OwnSteps(nss: seq<Namespace>, steps: seq<Step>) {
    forall i :: 0 <= i < |steps| ==>
      steps[i].1.header.ns == steps[i].0 && exists k :: 0 <= k < |nss| && nss[k].ns == steps[i].0
  }

  ghost predicate AllWriting(c: Codec, nss: seq<Namespace>, steps: seq<Step>, left: seq<seq<Bytes>>) {
    |left| == |nss| && OwnSteps(nss, steps) && forall i :: 0 <= i < |nss| ==> Writing(c, nss[i], steps, left[i])
  }

  /** The step that writes the next piece of a writer. */
  lemma NextStep(c: Codec, ns: Namespace, steps: seq<Step>, left: seq<Bytes>) returns (step: Step)
    requires Writing(c, ns, steps, left) && left != []
    ensures step.0 == step.1.header.ns == ns.ns && left[0] == Encode(c, step.1)
    ensures Writing(c, ns, steps + [step], left[1..])
  {
    var rest :| left == Encodings(c, rest) && Project(steps, ns.ns) + rest == Written(ns);
    step := (ns.ns, rest[0]);
    WrittenNamed(ns);
    HeadMoves(Project(steps, ns.ns), rest);
    ProjectAppend(steps, step, ns.ns);
    EncodingsTail(c, rest);
  }

  lemma HeadMoves<T>(done: seq<T>, rest: seq<T>)
    requires rest != []
    ensures rest[0] in done + rest && done + [rest[0]] + rest[1..] == done + rest
  {
  }

  lemma EncodingsTail(c: Codec, blocks: seq<Block>)
    requires blocks != []
    ensures Encodings(c, blocks)[1..] == Encodings(c, blocks[1..])
  {
  }

  lemma OthersKeepWriting(c: Codec, ns: Namespace, steps: seq<Step>, step: Step, left: seq<Bytes>)
    requires Writing(c, ns, steps, left) && step.0 != ns.ns
    ensures Writing(c, ns, steps + [step], left)
  {
    ProjectAppend(steps, step, ns.ns);
    assert Project(steps, ns.ns) + [] == Project(steps, ns.ns);
  }

  lemma OneMoreStep(c: Codec, nss: seq<Namespace>, steps: seq<Step>, left: seq<seq<Bytes>>, i: nat)
    returns (step: Step)
    requires DistinctNames(nss) && AllWriting(c, nss, steps, left) && i < |nss| && left[i] != []
    ensures left[i][0] == Encode(c, step.1) && AllWriting(c, nss, steps + [step], left[i := left[i][1..]])
  {
    step := NextStep(c, nss[i], steps, left[i]);
    var less := left[i := left[i][1..]];
    forall k | 0 <= k < |nss| ensures Writing(c, nss[k], steps + [step], less[k]) {
      if k != i {
        OthersKeepWriting(c, nss[k], steps, step, left[k]);
      }
    }
  }

  lemma NothingLeft(c: Codec, nss: seq<Namespace>, steps: seq<Step>, left: seq<seq<Bytes>>)
    requires DistinctNames(nss) && AllWriting(c, nss, steps, left) && forall i :: 0 <= i < |left| ==> left[i] == []
    ensures forall i :: 0 <= i < |nss| ==> Project(steps, nss[i].ns) == Written(nss[i])
    ensures (forall i :: 0 <= i < |nss| ==> EndOf(nss[i]) == Done) ==> IsSchedule(Named(nss), steps)
  {
    forall i | 0 <= i < |nss| ensures Project(steps, nss[i].ns) == Written(nss[i]) {
      var rest :| left[i] == Encodings(c, rest) && Project(steps, nss[i].ns) + rest == Written(nss[i]);
      assert rest == [];
    }
    NamedFinds(nss);
  }

  method StartWriters(c: Codec, nss: seq<Namespace>) returns (left: seq<seq<Bytes>>, ok: bool)
    ensures AllWriting(c, nss, [], left)
    ensures ok <==> forall i :: 0 <= i < |nss| ==> EndOf(nss[i]) == Done
  {
    left, ok := [], true;
    for i := 0 to |nss|
      invariant AllWriting(c, nss[..i], [], left)
      invariant ok <==> forall k :: 0 <= k < i ==> EndOf(nss[k]) == Done
    {
      var pieces, end := WriterPieces(c, nss[i]);
      OneMoreWriter(c, nss, i, left, pieces);
      left := left + [pieces];
      ok := ok && end == Done;
    }
    assert nss[..|nss|] == nss;
  }

  lemma OneMoreWriter(c: Codec, nss: seq<Namespace>, i: nat, left: seq<seq<Bytes>>, pieces: seq<Bytes>)
    requires i < |nss| && AllWriting(c, nss[..i], [], left) && pieces == Encodings(c, Written(nss[i]))
    ensures AllWriting(c, nss[..i + 1], [], left + [pieces])
  {
    NothingWritten(c, nss[i]);
    var writers, all := nss[..i + 1], left + [pieces];
    forall k | 0 <= k < |writers| ensures Writing(c, writers[k], [], all[k]) {
      if k < i {
        assert writers[k] == nss[..i][k] && all[k] == left[k];
      }
    }
  }

  lemma NothingWritten(c: Codec, ns: Namespace)
    ensures Writing(c, ns, [], Encodings(c, Written(ns)))
  {
    assert Project([], ns.ns) + Written(ns) == Written(ns);
  }

  /** The stream holds the steps done so far, and the writers have the rest before them. */
  ghost predicate Multiplexed(c: Codec, nss: seq<Namespace>, steps: seq<Step>, left: seq<seq<Bytes>>, w: Bytes) {
    AllWriting(c, nss, steps, left) && w == EncodeAll(c, BlocksOf(steps))
  }

  lemma MultiplexedOneMore(
    c: Codec, nss: seq<Namespace>, steps: seq<Step>, left: seq<seq<Bytes>>, w: Bytes, i: nat) returns (step: Step)
    requires DistinctNames(nss) && Multiplexed(c, nss, steps, left, w) && i < |left| && left[i] != []
    ensures Multiplexed(c, nss, steps + [step], left[i := left[i][1..]], w + left[i][0])
  {
    step := OneMoreStep(c, nss, steps, left, i);
    EncodeAllAppend(c, BlocksOf(steps), step.1);
    assert BlocksOf(steps + [step]) == BlocksOf(steps) + [step.1];
  }

  /** Each writer hands over its pieces one at a time, in its own order; which writer comes next is open.
      A writer that fails stops there, and the others go on. */
  method WriteAllNamespaces(c: Codec, nss: seq<Namespace>) returns (w: Bytes, ok: bool, ghost steps: seq<Step>)
    requires DistinctNames(nss)
    ensures ok <==> forall i :: 0 <= i < |nss| ==> EndOf(nss[i]) == Done
    ensures w == EncodeAll(c, BlocksOf(steps)) && OwnSteps(nss, steps)
    ensures forall i :: 0 <= i < |nss| ==> Project(steps, nss[i].ns) == Written(nss[i])
    ensures ok ==> IsSchedule(Named(nss), steps)
  {
    var left: seq<seq<Bytes>>;
    left, ok := StartWriters(c, nss);
    w, steps := [], [];
    while exists i :: 0 <= i < |left| && left[i] != []
      invariant Multiplexed(c, nss, steps, left, w)
      decreases Total(left)
    {
      var i :| 0 <= i < |left| && left[i] != [];
      ghost var step := MultiplexedOneMore(c, nss, steps, left, w, i);
      TotalDrops(left, i);
      w, left, steps := w + left[i][0], left[i := left[i][1..]], steps + [step];
    }
    NothingLeft(c, nss, steps, left);
  }

  // ---------------------------------------------------------------------------------------------
  // Parsing
  // ---------------------------------------------------------------------------------------------

  datatype Token = Document(d: Bytes, rest: Bytes) | Terminator(rest: Bytes) | NoMore | Corrupt

  function ReadToken(s: Bytes): (t: Token)
    ensures t.Document? ==> |t.rest| < |s|
    ensures t.Terminator? ==> |t.rest| < |s|
  {
    if |s| == 0 then NoMore
    else if |s| < 4 then Corrupt
    else if s[..4] == TERMINATOR then Terminator(s[4..])
    else if Length(s) < 5 || Length(s) > MAX_BSON_SIZE || |s| < Length(s) || s[Length(s) - 1] != 0 then Corrupt
    else Document(s[..Length(s)], s[Length(s)..])
  }

  /** The documents up to the terminator. */
  function ReadBody(s: Bytes): (r: Option<(seq<Bytes>, Bytes)>)
    ensures r.Some? ==> |r.value.1| < |s|
    decreases |s|
  {
    match ReadToken(s)
    case Terminator(rest) => Some(([], rest))
    case Document(d, rest) =>
      (match ReadBody(rest)
       case None => None
       case Some((docs, after)) => Some(([d] + docs, after)))
    case _ => None
  }

  /** Header and body of every block; nothing if the stream is corrupt. */
  function Parse(s: Bytes): Option<seq<(Bytes, seq<Bytes>)>>
    decreases |s|
  {
    match ReadToken(s)
    case NoMore => Some([])
    case Document(h, rest) =>
      (match ReadBody(rest)
       case None => None
       case Some((docs, after)) =>
         match Parse(after)
         case None => None
         case Some(blocks) => Some([(h, docs)] + blocks))
    case _ => None
  }

  /** What the reader of the stream makes of the next bytes, by the number the first four of them say; and what
      it takes for a document. */
  lemma TokenExactly(s: Bytes, n: nat)
    requires Announces(s, n)
    ensures ReadToken(s) ==
      if n == 0xFFFF_FFFF then Terminator(s[4..])
      else if 5 <= n <= 16 * 1024 * 1024 && n <= |s| && s[n - 1] == 0 then Document(s[..n], s[n..])
      else Corrupt
    ensures IsDoc(s) <==> ReadToken(s) == Document(s, [])
  {
    LengthIsAnnounced(s, n);
    if s[..4] == TERMINATOR {
      assert s[0] == s[..4][0] && s[1] == s[..4][1] && s[2] == s[..4][2] && s[3] == s[..4][3];
    }
    assert s[..4] == TERMINATOR <==> n == 0xFFFF_FFFF by {
      assert s[..4] == [s[0], s[1], s[2], s[3]];
    }
    assert s[..|s|] == s && s[|s|..] == [];
  }

  /** The terminator is no length a document can have. */
  lemma TerminatorIsNoDocument(d: Bytes, rest: Bytes)
    requires IsDoc(d)
    ensures d[..4] != TERMINATOR && ReadToken(d + rest) == Document(d, rest)
  {
    var s := d + rest;
    assert d[..4][3] == d[3] != TERMINATOR[3];
    assert s[..4] == d[..4] && Length(s) == Length(d);
    assert s[..|d|] == d && s[|d|..] == rest && s[|d| - 1] == d[|d| - 1];
  }

  lemma {:induction false} BodyReadsBack(docs: seq<Bytes>, rest: Bytes)
    requires forall d :: d in docs ==> IsDoc(d)
    ensures ReadBody(Flat(docs) + TERMINATOR + rest) == Some((docs, rest))
    decreases |docs|
  {
    var s := Flat(docs) + TERMINATOR + rest;
    if docs == [] {
      assert s == TERMINATOR + rest;
      assert s[..4] == TERMINATOR && s[4..] == rest;
    } else {
      var d, more := docs[0], docs[1..];
      assert docs == [d] + more;
      FlatConcat([d], more);
      FlatOne(d);
      assert s == d + (Flat(more) + TERMINATOR + rest);
      TerminatorIsNoDocument(d, Flat(more) + TERMINATOR + rest);
      BodyReadsBack(more, rest);
    }
  }

  predicate IsSound(b: Block) {
    forall d :: d in b.body ==> IsDoc(d)
  }

  function Parsed(c: Codec, blocks: seq<Block>): seq<(Bytes, seq<Bytes>)> {
    if blocks == [] then [] else [(c.enc(blocks[0].header), blocks[0].body)] + Parsed(c, blocks[1..])
  }

  /** The stream parses back into exactly the blocks that were written. */
  lemma {:induction false} ParsesBack(c: Codec, blocks: seq<Block>)
    requires IsCodec(c) && forall b :: b in blocks ==> IsSound(b)
    ensures Parse(EncodeAll(c, blocks)) == Some(Parsed(c, blocks))
    decreases |blocks|
  {
    if blocks != [] {
      var b, more := blocks[0], blocks[1..];
      assert b in blocks && forall x :: x in more ==> x in blocks;
      var h, rest := c.enc(b.header), EncodeAll(c, more);
      assert EncodeAll(c, blocks) == h + (Flat(b.body) + TERMINATOR + rest) by {
        Assoc(h + Flat(b.body), TERMINATOR, rest);
        Assoc(h, Flat(b.body), TERMINATOR + rest);
        Assoc(Flat(b.body), TERMINATOR, rest);
      }
      assert IsDoc(h);
      TerminatorIsNoDocument(h, Flat(b.body) + TERMINATOR + rest);
      BodyReadsBack(b.body, rest);
      ParsesBack(c, more);
    }
  }

  // ---------------------------------------------------------------------------------------------
  // Taking the stream apart
  // ---------------------------------------------------------------------------------------------

  /** What has come for a collection. */
  datatype Out = Out(docs: seq<Bytes>, closed: bool)

  /** A further header for a closed collection, or data behind an end marker, is an error. */
  function Receive(o: Out, eof: bool, body: seq<Bytes>): Option<Out> {
    if o.closed || (eof && body != []) then None
    else Some(Out(o.docs + body, eof))
  }

  function OutOf(outs: map<string, Out>, ns: string): Out {
    if ns in outs then outs[ns] else Out([], false)
  }

  function Demux(c: Codec, outs: map<string, Out>, blocks: seq<(Bytes, seq<Bytes>)>): Option<map<string, Out>>
    decreases |blocks|
  {
    if blocks == [] then Some(outs)
    else
      match c.dec(blocks[0].0)
      case None => None
      case Some(h) =>
        match Receive(OutOf(outs, h.ns), h.eof, blocks[0].1)
        case None => None
        case Some(o) => Demux(c, outs[h.ns := o], blocks[1..])
  }

  /** The same for the blocks of one collection. */
  function ReceiveAll(o: Out, blocks: seq<Block>): Option<Out> {
    if blocks == [] then Some(o)
    else match ReceiveAll(o, blocks[..|blocks| - 1])
      case None => None
      case Some(p) => Receive(p, blocks[|blocks| - 1].header.eof, blocks[|blocks| - 1].body)
  }

  /** An end marker is the last block and has no documents. */
  predicate EndsOnce(blocks: seq<Block>) {
    forall i :: 0 <= i < |blocks| && blocks[i].header.eof ==> i == |blocks| - 1 && blocks[i].body == []
  }

  function AllDocs(blocks: seq<Block>): seq<Bytes> {
    if blocks == [] then [] else AllDocs(blocks[..|blocks| - 1]) + blocks[|blocks| - 1].body
  }

  /** The blocks of one collection are taken exactly if nothing comes with or behind its end marker; then all
      their documents have come, in order, and the collection is closed exactly by an end marker. */
  lemma {:induction false} ReceivedExactly(blocks: seq<Block>)
    ensures var r := ReceiveAll(Out([], false), blocks);
      && (r.Some? <==> EndsOnce(blocks))
      && (r.Some? ==> r.value == Out(AllDocs(blocks), blocks != [] && blocks[|blocks| - 1].header.eof))
    decreases |blocks|
  {
    if blocks != [] {
      var before, last := blocks[..|blocks| - 1], blocks[|blocks| - 1];
      ReceivedExactly(before);
      assert forall i :: 0 <= i < |before| ==> before[i] == blocks[i];
      if before != [] {
        assert before[|before| - 1] == blocks[|blocks| - 2];
      }
    }
  }

  /** Each collection receives its own blocks, whatever stands between them. */
  ghost predicate Receives(outs: map<string, Out>, steps: seq<Step>) {
    forall n :: ReceiveAll(Out([], false), Project(steps, n)) == Some(OutOf(outs, n))
  }

  lemma ReceiveAllAppend(o: Out, blocks: seq<Block>, b: Block)
    ensures ReceiveAll(o, blocks + [b]) ==
      match ReceiveAll(o, blocks) case None => None case Some(p) => Receive(p, b.header.eof, b.body)
  {
    assert (blocks + [b])[..|blocks + [b]| - 1] == blocks;
  }

  lemma {:induction false} ReceiveAllPrefix(o: Out, a: seq<Block>, b: seq<Block>)
    requires ReceiveAll(o, a + b).Some?
    ensures ReceiveAll(o, a).Some?
    decreases |b|
  {
    if b == [] {
      assert a + b == a;
    } else {
      assert (a + b)[..|a + b| - 1] == a + b[..|b| - 1];
      ReceiveAllPrefix(o, a, b[..|b| - 1]);
    }
  }

  /** The steps done and the steps to come; every collection can take all of its blocks. */
  ghost predicate AllReceivable(steps: seq<Step>) {
    forall n :: ReceiveAll(Out([], false), Project(steps, n)).Some?
  }

  lemma {:induction false} DemuxReceives(c: Codec, outs: map<string, Out>, done: seq<Step>, steps: seq<Step>)
    returns (outs': map<string, Out>)
    requires IsCodec(c) && Receives(outs, done) && AllReceivable(done + steps)
    requires forall i :: 0 <= i < |steps| ==> steps[i].1.header.ns == steps[i].0
    ensures Demux(c, outs, Parsed(c, BlocksOf(steps))) == Some(outs') && Receives(outs', done + steps)
    decreases |steps|
  {
    if steps == [] {
      assert done + steps == done;
      outs' := outs;
    } else {
      var step, more := steps[0], steps[1..];
      assert done + steps == (done + [step]) + more;
      OneMoreReceivable(done, step, more);
      var o := Takes(outs, done, step);
      ReceivesOneMore(outs, done, step, o);
      DemuxHead(c, outs, steps, o);
      outs' := DemuxReceives(c, outs[step.0 := o], done + [step], more);
    }
  }

  /** The collection of the next step takes its block. */
  lemma Takes(outs: map<string, Out>, done: seq<Step>, step: Step) returns (o: Out)
    requires Receives(outs, done) && ReceiveAll(Out([], false), Project(done + [step], step.0)).Some?
    ensures Receive(OutOf(outs, step.0), step.1.header.eof, step.1.body) == Some(o)
  {
    ProjectAppend(done, step, step.0);
    ReceiveAllAppend(Out([], false), Project(done, step.0), step.1);
    assert ReceiveAll(Out([], false), Project(done, step.0)) == Some(OutOf(outs, step.0));
    o := Receive(OutOf(outs, step.0), step.1.header.eof, step.1.body).value;
  }

  lemma DemuxHead(c: Codec, outs: map<string, Out>, steps: seq<Step>, o: Out)
    requires IsCodec(c) && steps != [] && steps[0].1.header.ns == steps[0].0
    requires Receive(OutOf(outs, steps[0].0), steps[0].1.header.eof, steps[0].1.body) == Some(o)
    ensures Demux(c, outs, Parsed(c, BlocksOf(steps))) ==
      Demux(c, outs[steps[0].0 := o], Parsed(c, BlocksOf(steps[1..])))
  {
    var b := steps[0].1;
    assert BlocksOf(steps)[0] == b && BlocksOf(steps)[1..] == BlocksOf(steps[1..]);
    assert c.dec(c.enc(b.header)) == Some(b.header);
    var all := Parsed(c, BlocksOf(steps));
    assert all[0] == (c.enc(b.header), b.body) && all[1..] == Parsed(c, BlocksOf(steps[1..]));
  }

  lemma OneMoreReceivable(done: seq<Step>, step: Step, more: seq<Step>)
    requires AllReceivable(done + [step] + more)
    ensures ReceiveAll(Out([], false), Project(done + [step], step.0)).Some?
  {
    ProjectConcat(done + [step], more, step.0);
    ReceiveAllPrefix(Out([], false), Project(done + [step], step.0), Project(more, step.0));
  }

  lemma ReceivesOneMore(outs: map<string, Out>, done: seq<Step>, step: Step, o: Out)
    requires Receives(outs, done)
    requires Receive(OutOf(outs, step.0), step.1.header.eof, step.1.body) == Some(o)
    ensures Receives(outs[step.0 := o], done + [step])
  {
    forall n ensures ReceiveAll(Out([], false), Project(done + [step], n)) == Some(OutOf(outs[step.0 := o], n)) {
      ProjectAppend(done, step, n);
      if n == step.0 {
        ReceiveAllAppend(Out([], false), Project(done, n), step.1);
      } else {
        assert Project(done, n) + [] == Project(done, n);
      }
    }
  }

  // --- what the blocks of one writer amount to -------------------------------------------------

  lemma {:induction false} DataReceived(ns: Namespace, groups: seq<seq<Bytes>>)
    ensures ReceiveAll(Out([], false), DataBlocks(ns, groups)) == Some(Out(Concat(groups), false))
    decreases |groups|
  {
    if groups != [] {
      var before := groups[..|groups| - 1];
      DataReceived(ns, before);
      ReceiveAllAppend(Out([], false), DataBlocks(ns, before), Block(Header(ns.ns, false, 0), groups[|groups| - 1]));
    }
  }

  lemma ReadableNotEmpty(docs: seq<Bytes>)
    requires forall d :: d in docs ==> IsReadable(d)
    ensures forall d :: d in docs ==> d != []
  {
  }

  lemma WriterReceived(ns: Namespace)
    ensures ReceiveAll(Out([], false), WriterBlocks(ns)) == Some(Out(Delivered(ns), true))
  {
    if ns.size == 0 {
      CloseReceived(ns, [], []);
    } else {
      var docs := ReadAll(ns.dump).0;
      ReadAllIsWhole(ns.dump);
      ReadableNotEmpty(docs);
      ChunksKeepDocs(docs, MAX_BSON_SIZE * 2);
      var groups := Groups(docs, MAX_BSON_SIZE * 2);
      DataReceived(ns, groups);
      CloseReceived(ns, DataBlocks(ns, groups), docs);
    }
  }

  lemma CloseReceived(ns: Namespace, blocks: seq<Block>, docs: seq<Bytes>)
    requires ReceiveAll(Out([], false), blocks) == Some(Out(docs, false))
    ensures ReceiveAll(Out([], false), blocks + [CloseBlock(ns)]) == Some(Out(docs, true))
    ensures blocks == [] ==> blocks + [CloseBlock(ns)] == [CloseBlock(ns)]
  {
    ReceiveAllAppend(Out([], false), blocks, CloseBlock(ns));
    assert docs + [] == docs;
  }

  lemma {:induction false} NotScheduled(steps: seq<Step>, n: string)
    requires forall i :: 0 <= i < |steps| ==> steps[i].0 != n
    ensures Project(steps, n) == []
    decreases |steps|
  {
    if steps != [] {
      NotScheduled(steps[..|steps| - 1], n);
    }
  }

  lemma {:induction false} BodiesAreDocs(ns: Namespace, groups: seq<seq<Bytes>>, b: Block)
    requires b in DataBlocks(ns, groups)
    ensures forall d :: d in b.body ==> d in Concat(groups)
    decreases |groups|
  {
    if b in DataBlocks(ns, groups[..|groups| - 1]) {
      BodiesAreDocs(ns, groups[..|groups| - 1], b);
    }
  }

  lemma {:induction false} ProjectHas<V>(steps: seq<(string, V)>, i: nat)
    requires i < |steps|
    ensures steps[i].1 in Project(steps, steps[i].0)
    decreases |steps|
  {
    if i < |steps| - 1 {
      ProjectHas(steps[..|steps| - 1], i);
    }
  }

  /** Every document the backup delivers can be read from an archive. */
  ghost predicate AllDocsFit(nss: map<string, Namespace>) {
    forall n, d :: n in nss && d in Delivered(nss[n]) ==> IsDoc(d)
  }

  lemma ScheduleIsSound(nss: map<string, Namespace>, steps: seq<Step>)
    requires IsSchedule(nss, steps) && AllDocsFit(nss)
    ensures forall b :: b in BlocksOf(steps) ==> IsSound(b)
  {
    forall b | b in BlocksOf(steps) ensures IsSound(b) {
      var i :| 0 <= i < |steps| && BlocksOf(steps)[i] == b;
      var ns := nss[steps[i].0];
      ProjectHas(steps, i);
      if b != CloseBlock(ns) {
        var docs := ReadAll(ns.dump).0;
        var groups := Groups(docs, MAX_BSON_SIZE * 2);
        BodiesAreDocs(ns, groups, b);
        ReadAllIsWhole(ns.dump);
        ReadableNotEmpty(docs);
        ChunksKeepDocs(docs, MAX_BSON_SIZE * 2);
        forall d | d in b.body ensures IsDoc(d) {
          assert d in Delivered(ns);
        }
      }
    }
  }

  /** Under every interleaving of the writers, taking the stream apart gives each collection its
      documents in order, and each is closed once, at its end. */
  lemma StreamDelivers(c: Codec, nss: map<string, Namespace>, steps: seq<Step>) returns (outs: map<string, Out>)
    requires IsCodec(c) && IsSchedule(nss, steps) && AllDocsFit(nss)
    ensures var blocks := Parse(EncodeAll(c, BlocksOf(steps)));
      blocks.Some? && Demux(c, map[], blocks.value) == Some(outs)
    ensures forall n :: n in nss ==> OutOf(outs, n) == Out(Delivered(nss[n]), true)
    ensures forall n :: n !in nss ==> OutOf(outs, n) == Out([], false)
  {
    ScheduleIsSound(nss, steps);
    ParsesBack(c, BlocksOf(steps));
    forall n ensures ReceiveAll(Out([], false), Project(steps, n)) ==
      Some(if n in nss then Out(Delivered(nss[n]), true) else Out([], false))
    {
      if n in nss {
        WriterReceived(nss[n]);
      } else {
        NotScheduled(steps, n);
      }
    }
    assert [] + steps == steps;
    assert Receives(map[], []);
    outs := DemuxReceives(c, map[], [], steps);
    forall n ensures OutOf(outs, n) == if n in nss then Out(Delivered(nss[n]), true) else Out([], false) {
      assert ReceiveAll(Out([], false), Project(steps, n)) == Some(OutOf(outs, n));
    }
  }

  /** No chunk is larger than twice the largest document, and none is empty, if the documents are
      within the limit. */
  lemma BlocksAreBounded(ns: Namespace, b: Block)
    requires ns.size != 0 && b in DataBlocks(ns, Groups(ReadAll(ns.dump).0, MAX_BSON_SIZE * 2))
    requires forall d :: d in ReadAll(ns.dump).0 ==> |d| <= MAX_BSON_SIZE
    ensures 0 < |Flat(b.body)| <= MAX_BSON_SIZE * 2
  {
    var docs := ReadAll(ns.dump).0;
    ReadAllIsWhole(ns.dump);
    ReadableNotEmpty(docs);
    GroupsAreBounded(docs, MAX_BSON_SIZE * 2);
    BodyIsGroup(ns, Groups(docs, MAX_BSON_SIZE * 2), b);
  }

  lemma {:induction false} BodyIsGroup(ns: Namespace, groups: seq<seq<Bytes>>, b: Block)
    requires b in DataBlocks(ns, groups)
    ensures b.body in groups
    decreases |groups|
  {
    if b in DataBlocks(ns, groups[..|groups| - 1]) {
      BodyIsGroup(ns, groups[..|groups| - 1], b);
      assert groups == groups[..|groups| - 1] + [groups[|groups| - 1]];
    }
  }
}

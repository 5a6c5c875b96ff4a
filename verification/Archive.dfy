/** Reading a collection dump document by document and packing the documents into chunks
    (pbm/archive/archive.go). A document starts with its length in four bytes, least significant byte
    first, and ends with a zero byte (`document` production of the BSON specification, version 1.1). */
module Archive {

  type Byte = n: nat | n < 256

  type Bytes = seq<Byte>

  const MAX_BSON_SIZE: nat := 16 * 1024 * 1024

  // ---------------------------------------------------------------------------------------------
  // Documents
  // ---------------------------------------------------------------------------------------------

  /** The first four bytes as an unsigned number. */
  function Length(s: Bytes): nat
    requires |s| >= 4
  {
    (s[0] as int) + 0x100 * (s[1] as int) + 0x1_0000 * (s[2] as int) + 0x100_0000 * (s[3] as int)
  }

  /** The same as a signed 32-bit number. */
  function Signed(s: Bytes): int
    requires |s| >= 4
  {
    if Length(s) >= 0x8000_0000 then Length(s) - 0x1_0000_0000 else Length(s)
  }

  /** What the reader takes for a document. */
  predicate IsReadable(d: Bytes) {
    |d| >= 4 && Signed(d) == |d| && d[|d| - 1] == 0
  }

  datatype Read = Doc(d: Bytes, rest: Bytes) | EndOfInput | Broken | Panics

  /** One document off the front. The end of the input counts as such also right behind the length of
      a document; a length below 4 makes the reader slice out of range. */
  function ReadBSONBuffer(s: Bytes): (r: Read)
    ensures r.Doc? ==> s == r.d + r.rest && IsReadable(r.d)
  {
    if |s| == 0 then EndOfInput
    else if |s| < 4 then Broken
    else if Signed(s) < 0 then Broken
    else if Signed(s) < 4 then Panics
    else if |s| == 4 && Signed(s) > 4 then EndOfInput
    else if |s| < Signed(s) then Broken
    else if s[Signed(s) - 1] != 0 then Broken
    else Doc(s[..Signed(s)], s[Signed(s)..])
  }

  /** The four bytes in front say `n`, least significant byte first. */
  predicate Announces(s: Bytes, n: nat) {
    |s| >= 4 && s[0] == n % 256 && s[1] == n / 256 % 256 && s[2] == n / 256 / 256 % 256
    && s[3] == n / 256 / 256 / 256
  }

  /** What one reading gives, by the length announced: a negative one has its highest bit set. */
  lemma ReadsExactly(s: Bytes, n: nat)
    requires Announces(s, n)
    ensures ReadBSONBuffer(s) ==
      if n >= 0x8000_0000 then Broken
      else if n < 4 then Panics
      else if |s| == 4 && n > 4 then EndOfInput
      else if n <= |s| && s[n - 1] == 0 then Doc(s[..n], s[n..])
      else Broken
    ensures IsReadable(s) <==> n == |s| && n < 0x8000_0000 && s[n - 1] == 0
  {
    LengthIsAnnounced(s, n);
  }

  lemma LengthIsAnnounced(s: Bytes, n: nat)
    requires Announces(s, n)
    ensures Length(s) == n
  {
    var m := n / 256;
    assert n == 256 * m + n % 256;
    assert m == 256 * (m / 256) + m % 256;
    assert m / 256 == 256 * (m / 256 / 256) + m / 256 % 256;
  }

  function Flat(docs: seq<Bytes>): Bytes {
    if docs == [] then [] else Flat(docs[..|docs| - 1]) + docs[|docs| - 1]
  }

  datatype Outcome = Done | Failed | Panicked

  /** All documents of a dump, what is left behind them, and how the reading ends. */
  function ReadAll(s: Bytes): (seq<Bytes>, Bytes, Outcome)
    decreases |s|
  {
    match ReadBSONBuffer(s)
    case Doc(d, rest) => var (docs, tail, end) := ReadAll(rest); ([d] + docs, tail, end)
    case EndOfInput => ([], s, Done)
    case Broken => ([], s, Failed)
    case Panics => ([], s, Panicked)
  }

  lemma {:induction false} FlatConcat(a: seq<Bytes>, b: seq<Bytes>)
    ensures Flat(a + b) == Flat(a) + Flat(b)
    decreases |b|
  {
    if b == [] {
      assert a + b == a;
    } else {
      assert (a + b)[..|a + b| - 1] == a + b[..|b| - 1];
      FlatConcat(a, b[..|b| - 1]);
    }
  }

  lemma Assoc<T>(a: seq<T>, b: seq<T>, c: seq<T>)
    ensures a + (b + c) == a + b + c
  {
  }

  lemma FlatOne(d: Bytes)
    ensures Flat([d]) == d
  {
    assert [d][..0] == [];
  }

  /** Nothing is lost in reading: the documents and what is left are the dump, and how it ends is what the next
      reading would give. If it ends well there is nothing left, or a length with nothing behind it. */
  lemma {:induction false} ReadAllIsWhole(s: Bytes)
    ensures var (docs, tail, end) := ReadAll(s);
      && s == Flat(docs) + tail
      && (forall d :: d in docs ==> IsReadable(d))
      && !ReadBSONBuffer(tail).Doc?
      && (end == Failed <==> ReadBSONBuffer(tail).Broken?)
      && (end == Panicked <==> ReadBSONBuffer(tail).Panics?)
      && (end == Done ==> tail == [] || (|tail| == 4 && Signed(tail) > 4))
    decreases |s|
  {
    match ReadBSONBuffer(s)
    case Doc(d, rest) =>
      ReadAllIsWhole(rest);
      FlatConcat([d], ReadAll(rest).0);
      FlatOne(d);
      Assoc(d, Flat(ReadAll(rest).0), ReadAll(rest).1);
    case _ =>
      assert Flat([]) + s == s;
  }

  /** A dump of readable documents is read as those documents, also when it is cut right behind the
      length of a further one. */
  lemma {:induction false} ReadsWhatWasWritten(docs: seq<Bytes>, tail: Bytes)
    requires (forall d :: d in docs ==> IsReadable(d)) && (tail == [] || (|tail| == 4 && Signed(tail) > 4))
    ensures ReadAll(Flat(docs) + tail) == (docs, tail, Done)
    decreases |docs|
  {
    if docs == [] {
      assert Flat(docs) + tail == tail;
    } else {
      var d, rest := docs[0], docs[1..];
      assert docs == [d] + rest;
      FlatConcat([d], rest);
      FlatOne(d);
      var s := Flat(docs) + tail;
      assert s == d + (Flat(rest) + tail);
      ReadsOne(d, Flat(rest) + tail);
      ReadsWhatWasWritten(rest, tail);
    }
  }

  lemma ReadsOne(d: Bytes, rest: Bytes)
    requires IsReadable(d)
    ensures ReadBSONBuffer(d + rest) == Doc(d, rest)
  {
    var s := d + rest;
    assert Length(s) == Length(d);
    assert s[..|d|] == d && s[|d|..] == rest && s[|d| - 1] == d[|d| - 1];
  }

  // ---------------------------------------------------------------------------------------------
  // Chunks
  // ---------------------------------------------------------------------------------------------

  /** The groups of documents that are closed, and the one being filled. */
  datatype Packing = Packing(groups: seq<seq<Bytes>>, current: seq<Bytes>)

  function Pack(docs: seq<Bytes>, size: nat): Packing {
    if docs == [] then Packing([], [])
    else
      PackOne(Pack(docs[..|docs| - 1], size), docs[|docs| - 1], size)
  }

  function PackOne(p: Packing, d: Bytes, size: nat): Packing {
    if |Flat(p.current)| + |d| > size then Packing(p.groups + [p.current], [d])
    else Packing(p.groups, p.current + [d])
  }

  /** The groups in the end; an empty chunk is not written as the last one. */
  function Groups(docs: seq<Bytes>, size: nat): seq<seq<Bytes>> {
    var p := Pack(docs, size);
    if |Flat(p.current)| == 0 then p.groups else p.groups + [p.current]
  }

  function Chunks(groups: seq<seq<Bytes>>): seq<Bytes> {
    if groups == [] then [] else Chunks(groups[..|groups| - 1]) + [Flat(groups[|groups| - 1])]
  }

  lemma ChunksAppend(groups: seq<seq<Bytes>>, g: seq<Bytes>)
    ensures Chunks(groups + [g]) == Chunks(groups) + [Flat(g)]
  {
    assert (groups + [g])[..|groups + [g]| - 1] == groups;
  }

  /** The reading has got past `docs` and has `rest` before it. */
  predicate HasRead(s: Bytes, docs: seq<Bytes>, rest: Bytes) {
    var (more, tail, end) := ReadAll(rest);
    ReadAll(s) == (docs + more, tail, end)
  }

  lemma ReadsOneMore(s: Bytes, docs: seq<Bytes>, rest: Bytes)
    requires HasRead(s, docs, rest) && ReadBSONBuffer(rest).Doc?
    ensures HasRead(s, docs + [ReadBSONBuffer(rest).d], ReadBSONBuffer(rest).rest)
  {
    var r := ReadBSONBuffer(rest);
    Assoc(docs, [r.d], ReadAll(r.rest).0);
  }

  /** The chunks written and the chunk being filled are those of the packing. */
  predicate HasPacked(docs: seq<Bytes>, size: nat, written: seq<Bytes>, chunk: Bytes) {
    written == Chunks(Pack(docs, size).groups) && chunk == Flat(Pack(docs, size).current)
  }

  lemma PacksOneMore(docs: seq<Bytes>, size: nat, written: seq<Bytes>, chunk: Bytes, d: Bytes)
    requires HasPacked(docs, size, written, chunk)
    ensures if |chunk| + |d| > size then HasPacked(docs + [d], size, written + [chunk], d)
      else HasPacked(docs + [d], size, written, chunk + d)
  {
    var p := Pack(docs, size);
    assert (docs + [d])[..|docs + [d]| - 1] == docs;
    ChunksAppend(p.groups, p.current);
    FlatConcat(p.current, [d]);
    FlatOne(d);
  }

  method SplitChunks(s: Bytes, size: nat) returns (written: seq<Bytes>, end: Outcome)
    ensures var (docs, _, outcome) := ReadAll(s);
      end == outcome && written == Chunks(if end == Done then Groups(docs, size) else Pack(docs, size).groups)
  {
    written := [];
    var chunk: Bytes := [];
    var rest := s;
    ghost var docs: seq<Bytes> := [];
    assert docs + ReadAll(s).0 == ReadAll(s).0;
    var r := ReadBSONBuffer(rest);
    while r.Doc?
      invariant r == ReadBSONBuffer(rest) && HasRead(s, docs, rest) && HasPacked(docs, size, written, chunk)
      decreases |rest|
    {
      PacksOneMore(docs, size, written, chunk, r.d);
      ReadsOneMore(s, docs, rest);
      if |chunk| + |r.d| > size {
        written := written + [chunk];
        chunk := [];
      }
      chunk := chunk + r.d;
      docs := docs + [r.d];
      rest := r.rest;
      r := ReadBSONBuffer(rest);
    }
    assert docs + [] == docs;
    if !r.EndOfInput? {
      return written, if r.Broken? then Failed else Panicked;
    }
    if |chunk| != 0 {
      ChunksAppend(Pack(docs, size).groups, Pack(docs, size).current);
      written := written + [chunk];
    }
    end := Done;
  }

  function Concat(groups: seq<seq<Bytes>>): seq<Bytes> {
    if groups == [] then [] else Concat(groups[..|groups| - 1]) + groups[|groups| - 1]
  }

  lemma ConcatAppend(groups: seq<seq<Bytes>>, g: seq<Bytes>)
    ensures Concat(groups + [g]) == Concat(groups) + g
  {
    assert (groups + [g])[..|groups + [g]| - 1] == groups;
  }

  lemma PackOneKeepsDocs(p: Packing, d: Bytes, size: nat)
    ensures Concat(PackOne(p, d, size).groups) + PackOne(p, d, size).current == Concat(p.groups) + p.current + [d]
  {
    ConcatAppend(p.groups, p.current);
    Assoc(Concat(p.groups), p.current, [d]);
  }

  lemma {:induction false} PackKeepsDocs(docs: seq<Bytes>, size: nat)
    ensures Concat(Pack(docs, size).groups) + Pack(docs, size).current == docs
    decreases |docs|
  {
    if docs != [] {
      var before, d := docs[..|docs| - 1], docs[|docs| - 1];
      assert docs == before + [d];
      PackKeepsDocs(before, size);
      var p := Pack(before, size);
      assert Pack(docs, size) == PackOne(p, d, size);
      PackOneKeepsDocs(p, d, size);
    }
  }

  lemma {:induction false} FlatNotEmpty(docs: seq<Bytes>)
    requires docs != [] && forall d :: d in docs ==> d != []
    ensures Flat(docs) != []
  {
    assert docs[|docs| - 1] in docs;
  }

  /** No document is cut, dropped or moved: the chunks hold whole documents, in order. */
  lemma ChunksKeepDocs(docs: seq<Bytes>, size: nat)
    requires forall d :: d in docs ==> d != []
    ensures Concat(Groups(docs, size)) == docs
  {
    PackKeepsDocs(docs, size);
    var p := Pack(docs, size);
    ConcatAppend(p.groups, p.current);
    if |Flat(p.current)| == 0 {
      if p.current != [] {
        CurrentAreDocs(docs, size);
        FlatNotEmpty(p.current);
      }
      assert Concat(p.groups) + [] == Concat(p.groups);
    }
  }

  lemma {:induction false} CurrentAreDocs(docs: seq<Bytes>, size: nat)
    ensures forall d :: d in Pack(docs, size).current ==> d in docs
  {
    PackKeepsDocs(docs, size);
    var p := Pack(docs, size);
    forall d | d in p.current ensures d in docs {
      assert d in Concat(p.groups) + p.current;
    }
  }

  predicate IsBounded(p: Packing, size: nat) {
    |Flat(p.current)| <= size && forall g :: g in p.groups ==> 0 < |Flat(g)| <= size
  }

  lemma PackOneIsBounded(p: Packing, d: Bytes, size: nat)
    requires IsBounded(p, size) && 0 < |d| <= size
    ensures IsBounded(PackOne(p, d, size), size) && 0 < |Flat(PackOne(p, d, size).current)|
  {
    FlatConcat(p.current, [d]);
    FlatOne(d);
  }

  /** Chunks respect the limit, and none is empty, if no document is larger than the limit. */
  lemma {:induction false} ChunksAreBounded(docs: seq<Bytes>, size: nat)
    requires forall d :: d in docs ==> 0 < |d| <= size
    ensures IsBounded(Pack(docs, size), size) && (docs != [] ==> 0 < |Flat(Pack(docs, size).current)|)
    decreases |docs|
  {
    if docs != [] {
      var before, d := docs[..|docs| - 1], docs[|docs| - 1];
      assert docs == before + [d] && d in docs;
      ChunksAreBounded(before, size);
      PackOneIsBounded(Pack(before, size), d, size);
    }
  }

  lemma GroupsAreBounded(docs: seq<Bytes>, size: nat)
    requires forall d :: d in docs ==> 0 < |d| <= size
    ensures forall g :: g in Groups(docs, size) ==> 0 < |Flat(g)| <= size
  {
    ChunksAreBounded(docs, size);
  }

  /** The document that opens `b` did not fit behind `a`. */
  predicate DidNotFit(a: seq<Bytes>, b: seq<Bytes>, size: nat) {
    b != [] && |Flat(a)| + |b[0]| > size
  }

  predicate NoneFits(groups: seq<seq<Bytes>>, size: nat) {
    forall i :: 0 < i < |groups| ==> DidNotFit(groups[i - 1], groups[i], size)
  }

  lemma {:induction false} PackIsTight(docs: seq<Bytes>, size: nat)
    ensures NoneFits(Pack(docs, size).groups + [Pack(docs, size).current], size)
    decreases |docs|
  {
    if docs != [] {
      PackIsTight(docs[..|docs| - 1], size);
      var p, d := Pack(docs[..|docs| - 1], size), docs[|docs| - 1];
      var all, q := p.groups + [p.current], PackOne(p, d, size);
      forall i | 0 < i <= |q.groups|
        ensures DidNotFit((q.groups + [q.current])[i - 1], (q.groups + [q.current])[i], size)
      {
        if i < |all| {
          assert DidNotFit(all[i - 1], all[i], size);
        }
      }
    }
  }

  /** A chunk is not closed before the next document would exceed the limit. */
  lemma GroupsAreTight(docs: seq<Bytes>, size: nat)
    ensures NoneFits(Groups(docs, size), size)
  {
    PackIsTight(docs, size);
    var p := Pack(docs, size);
    var all := p.groups + [p.current];
    forall i | 0 < i < |p.groups| ensures DidNotFit(p.groups[i - 1], p.groups[i], size) {
      assert DidNotFit(all[i - 1], all[i], size);
    }
  }

  predicate HasEmpty(groups: seq<seq<Bytes>>) {
    exists g :: g in groups && Flat(g) == []
  }

  lemma HasEmptyAppend(groups: seq<seq<Bytes>>, g: seq<Bytes>)
    ensures HasEmpty(groups + [g]) <==> HasEmpty(groups) || Flat(g) == []
  {
    assert g in groups + [g];
    if x :| x in groups && Flat(x) == [] {
      assert x in groups + [g];
    }
  }

  lemma {:induction false} PackEmptyExactly(docs: seq<Bytes>, size: nat)
    requires docs != [] && forall d :: d in docs ==> d != []
    ensures HasEmpty(Pack(docs, size).groups) <==> |docs[0]| > size
    ensures Flat(Pack(docs, size).current) != []
    decreases |docs|
  {
    var before, d := docs[..|docs| - 1], docs[|docs| - 1];
    assert docs == before + [d] && d in docs;
    var p := Pack(before, size);
    FlatConcat(p.current, [d]);
    FlatOne(d);
    HasEmptyAppend(p.groups, p.current);
    if before != [] {
      assert forall x :: x in before ==> x in docs;
      PackEmptyExactly(before, size);
    }
  }

  /** A chunk is empty exactly if the first document is above the limit. */
  lemma EmptyChunkExactly(docs: seq<Bytes>, size: nat)
    requires forall d :: d in docs ==> d != []
    ensures HasEmpty(Groups(docs, size)) <==> docs != [] && |docs[0]| > size
  {
    if docs != [] {
      PackEmptyExactly(docs, size);
      HasEmptyAppend(Pack(docs, size).groups, Pack(docs, size).current);
    }
  }
}

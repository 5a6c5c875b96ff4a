/** Names of oplog chunk files (pbm/oplog/chunk.go, pbm/backup/chunk.go, pbm/compress/compress.go): a
    name carries the replica set, the two timestamps and the compression, and is parsed back when the
    storage is listed. */
module ChunkNames {
  import opened Options
  import opened Timestamps
  import opened Calendar

  // ---------------------------------------------------------------------------------------------
  // Compression
  // ---------------------------------------------------------------------------------------------

  /** `Unset` is the empty string. */
  datatype Compression = Unset | Uncompressed | Gzip | Pgzip | Snappy | LZ4 | S2 | Zstandard

  function Suffix(c: Compression): string {
    match c
    case Gzip | Pgzip => ".gz"
    case LZ4 => ".lz4"
    case Snappy => ".snappy"
    case S2 => ".s2"
    case Zstandard => ".zst"
    case _ => ""
  }

  function FileCompression(ext: string): Compression {
    if ext == "gz" then Gzip
    else if ext == "lz4" then LZ4
    else if ext == "snappy" then Snappy
    else if ext == "s2" then S2
    else if ext == "zst" then Zstandard
    else Uncompressed
  }

  datatype Decoder = Plain | Gunzip | UnSnappy | UnLZ4 | UnS2 | UnZstd

  function DecoderOf(c: Compression): Decoder {
    match c
    case Gzip | Pgzip => Gunzip
    case LZ4 => UnLZ4
    case Snappy => UnSnappy
    case S2 => UnS2
    case Zstandard => UnZstd
    case _ => Plain
  }

  /** Each extension belongs to one decoder. */
  lemma EachHasItsExtension(c: Compression)
    ensures Suffix(c) == "" <==> DecoderOf(c) == Plain
    ensures Suffix(c) == ".gz" <==> DecoderOf(c) == Gunzip
    ensures Suffix(c) == ".lz4" <==> DecoderOf(c) == UnLZ4
    ensures Suffix(c) == ".snappy" <==> DecoderOf(c) == UnSnappy
    ensures Suffix(c) == ".s2" <==> DecoderOf(c) == UnS2
    ensures Suffix(c) == ".zst" <==> DecoderOf(c) == UnZstd
  {
    assert ".gz"[1] == 'g' && ".lz4"[1] == 'l' && ".snappy"[1..3] == "sn" && ".s2"[1..3] == "s2" && ".zst"[1] == 'z';
  }

  /** The extension names the decoder, and never nothing: the error for an unknown extension cannot
      happen. */
  lemma ExtensionNamesDecoder(c: Compression)
    ensures Suffix(c) != "" ==> Suffix(c)[0] == '.' && DecoderOf(FileCompression(Suffix(c)[1..])) == DecoderOf(c)
    ensures Suffix(c) == "" ==> DecoderOf(c) == Plain
    ensures forall ext :: FileCompression(ext) != Unset
  {
    assert ".gz"[1..] == "gz" && ".lz4"[1..] == "lz4" && ".snappy"[1..] == "snappy";
    assert ".s2"[1..] == "s2" && ".zst"[1..] == "zst";
  }

  // ---------------------------------------------------------------------------------------------
  // Splitting
  // ---------------------------------------------------------------------------------------------

  function IndexOf(s: string, sep: char): (i: nat)
    ensures i <= |s|
  {
    if s == "" || s[0] == sep then 0 else 1 + IndexOf(s[1..], sep)
  }

  lemma {:induction false} IndexOfFinds(s: string, sep: char)
    ensures var i := IndexOf(s, sep); sep !in s[..i] && (i < |s| ==> s[i] == sep)
    decreases |s|
  {
    if s != "" && s[0] != sep {
      IndexOfFinds(s[1..], sep);
      var i := IndexOf(s, sep);
      assert s[..i] == [s[0]] + s[1..][..i - 1];
    }
  }

  lemma Assoc<T>(a: seq<T>, b: seq<T>, c: seq<T>)
    ensures a + (b + c) == a + b + c
  {
  }

  function Split(s: string, sep: char): (parts: seq<string>)
    ensures |parts| > 0
    decreases |s|
  {
    var i := IndexOf(s, sep);
    if i == |s| then [s] else [s[..i]] + Split(s[i + 1..], sep)
  }

  /** At most `n` parts; the last one keeps its separators. */
  function SplitN(s: string, sep: char, n: nat): (parts: seq<string>)
    ensures |parts| > 0
    decreases n
  {
    var i := IndexOf(s, sep);
    if i == |s| || n <= 1 then [s] else [s[..i]] + SplitN(s[i + 1..], sep, n - 1)
  }

  lemma {:induction false} IndexAfter(a: string, sep: char, rest: string)
    requires sep !in a
    ensures IndexOf(a, sep) == |a| && IndexOf(a + [sep] + rest, sep) == |a|
    decreases |a|
  {
    var s := a + [sep] + rest;
    if a == "" {
      assert s[0] == sep;
    } else {
      assert s[0] == a[0] && a[0] in a && s[1..] == a[1..] + [sep] + rest;
      IndexAfter(a[1..], sep, rest);
    }
  }

  lemma SplitsNot(a: string, sep: char)
    requires sep !in a
    ensures Split(a, sep) == [a]
  {
    IndexAfter(a, sep, "");
  }

  lemma SplitsFirst(a: string, sep: char, rest: string)
    requires sep !in a
    ensures Split(a + [sep] + rest, sep) == [a] + Split(rest, sep)
  {
    IndexAfter(a, sep, rest);
    var s := a + [sep] + rest;
    assert s[..|a|] == a && s[|a| + 1..] == rest;
  }

  lemma SplitsNFirst(a: string, sep: char, rest: string, n: nat)
    requires sep !in a && n > 1
    ensures SplitN(a + [sep] + rest, sep, n) == [a] + SplitN(rest, sep, n - 1)
  {
    IndexAfter(a, sep, rest);
    var s := a + [sep] + rest;
    assert s[..|a|] == a && s[|a| + 1..] == rest;
  }

  lemma SplitsNNot(a: string, sep: char, n: nat)
    requires sep !in a || n <= 1
    ensures SplitN(a, sep, n) == [a]
  {
    if sep !in a {
      IndexAfter(a, sep, "");
    }
  }

  lemma SplitsInTwo(a: string, b: string, sep: char)
    requires sep !in a && sep !in b
    ensures Split(a + [sep] + b, sep) == [a, b]
  {
    SplitsFirst(a, sep, b);
    SplitsNot(b, sep);
  }

  lemma SplitsInThree(a: string, b: string, c: string, sep: char)
    requires sep !in a && sep !in b && sep !in c
    ensures Split(a + [sep] + b + [sep] + c, sep) == [a, b, c]
  {
    Assoc(a + [sep], b, [sep]);
    Assoc(a + [sep], b + [sep], c);
    SplitsFirst(a, sep, b + [sep] + c);
    SplitsInTwo(b, c, sep);
  }

  lemma SplitsInFour(a: string, b: string, c: string, d: string, sep: char)
    requires sep !in a && sep !in b && sep !in c && sep !in d
    ensures Split(a + [sep] + b + [sep] + c + [sep] + d, sep) == [a, b, c, d]
  {
    Assoc(a + [sep], b, [sep]);
    Assoc(a + [sep], b + [sep], c);
    Assoc(a + [sep], b + [sep] + c, [sep]);
    Assoc(a + [sep], b + [sep] + c + [sep], d);
    SplitsFirst(a, sep, b + [sep] + c + [sep] + d);
    SplitsInThree(b, c, d, sep);
  }

  /** The last part is what follows the last separator. */
  lemma {:induction false} SplitsLast(a: string, sep: char, b: string)
    requires sep !in b
    ensures var parts := Split(a + [sep] + b, sep);
      |parts| >= 2 && parts[|parts| - 1] == b && parts[0] == a[..IndexOf(a, sep)]
    decreases |a|
  {
    var s := a + [sep] + b;
    var i := IndexOf(a, sep);
    IndexOfFinds(a, sep);
    if i == |a| {
      assert a[..i] == a;
      SplitsInTwo(a, b, sep);
    } else {
      var head, more := a[..i], a[i + 1..];
      assert s == head + [sep] + (more + [sep] + b);
      SplitsFirst(head, sep, more + [sep] + b);
      SplitsLast(more, sep, b);
    }
  }

  lemma DigitsHaveNo(s: string, sep: char)
    requires AllDigits(s) && !IsDigit(sep)
    ensures sep !in s
  {
  }

  // ---------------------------------------------------------------------------------------------
  // Timestamps in names
  // ---------------------------------------------------------------------------------------------

  function Low32(n: int): uint32 {
    n % 0x1_0000_0000
  }

  function FormatTS(ts: Timestamp): string {
    FormatTime(ts.t) + "-" + Itoa(ts.i)
  }

  function PitrTSOf(parts: seq<string>): Option<Timestamp>
    requires |parts| > 0
  {
    match ParseTime(parts[0])
    case None => None
    case Some(t) =>
      if |parts| == 1 then Some(Timestamp(Low32(t), 0))
      else match Atoi(parts[1])
        case None => None
        case Some(i) => Some(Timestamp(Low32(t), Low32(i)))
  }

  /** The reader of PITR names takes a missing ordinal for 0. */
  function PitrParseTS(s: string): Option<Timestamp> {
    PitrTSOf(Split(s, '-'))
  }

  function ChunkTimeOf(parts: seq<string>): Option<Timestamp> {
    if |parts| != 2 || parts[0] == "" || parts[1] == "" then None
    else
      match ParseTime(parts[0])
      case None => None
      case Some(t) =>
        match Atoi(parts[1])
        case None => None
        case Some(i) => Some(Timestamp(Low32(t), Low32(i)))
  }

  /** The reader of backup chunk names demands one. */
  function ParseChunkTime(s: string): Option<Timestamp> {
    ChunkTimeOf(SplitN(s, '-', 2))
  }

  lemma PartsParse(time: string, ord: string, t: uint32, i: uint32)
    requires ParseTime(time) == Some(t) && Atoi(ord) == Some(i) && time != "" && ord != ""
    ensures PitrTSOf([time, ord]) == Some(Timestamp(t, i)) && ChunkTimeOf([time, ord]) == Some(Timestamp(t, i))
  {
  }

  lemma TSSplits(time: string, ord: string)
    requires AllDigits(time) && AllDigits(ord)
    ensures Split(time + "-" + ord, '-') == [time, ord] && SplitN(time + "-" + ord, '-', 2) == [time, ord]
  {
    DigitsHaveNo(time, '-');
    DigitsHaveNo(ord, '-');
    SplitsInTwo(time, ord, '-');
    SplitsNFirst(time, '-', ord, 2);
    SplitsNNot(ord, '-', 1);
  }

  lemma StringsReadBack(time: string, ord: string, t: uint32, i: uint32)
    requires AllDigits(time) && AllDigits(ord) && time != "" && ord != ""
    requires ParseTime(time) == Some(t) && Atoi(ord) == Some(i)
    ensures PitrParseTS(time + "-" + ord) == Some(Timestamp(t, i))
    ensures ParseChunkTime(time + "-" + ord) == Some(Timestamp(t, i))
  {
    TSSplits(time, ord);
    PartsParse(time, ord, t, i);
  }

  /** Every timestamp reads back, for both readers. */
  lemma TSReadsBack(ts: Timestamp)
    ensures PitrParseTS(FormatTS(ts)) == Some(ts) && ParseChunkTime(FormatTS(ts)) == Some(ts)
  {
    TimeReadsBack(ts.t);
    AtoiReadsItoa(ts.i);
    StringsReadBack(FormatTime(ts.t), Itoa(ts.i), ts.t, ts.i);
  }

  lemma TSHasNo(ts: Timestamp, sep: char)
    requires !IsDigit(sep) && sep != '-'
    ensures sep !in FormatTS(ts)
  {
    DigitsHaveNo(FormatTime(ts.t), sep);
    DigitsHaveNo(Itoa(ts.i), sep);
  }

  // ---------------------------------------------------------------------------------------------
  // Backup chunk names
  // ---------------------------------------------------------------------------------------------

  datatype ChunkName = ChunkName(start: Timestamp, end: Timestamp, comp: Compression)

  function FormatChunkName(start: Timestamp, end: Timestamp, cmp: Compression): string {
    FormatTS(start) + "." + FormatTS(end) + Suffix(cmp)
  }

  function ChunkNameOf(parts: seq<string>): Option<ChunkName> {
    if |parts| < 2 then None
    else
      match ParseChunkTime(parts[0])
      case None => None
      case Some(start) =>
        match ParseChunkTime(parts[1])
        case None => None
        case Some(end) =>
          if |parts| != 3 then Some(ChunkName(start, end, Unset))
          else
            var comp := FileCompression(parts[2]);
            if comp == Unset then None else Some(ChunkName(start, end, comp))
  }

  function ParseChunkName(filename: string): Option<ChunkName> {
    ChunkNameOf(SplitN(filename, '.', 3))
  }

  lemma ExtensionHasNo(c: Compression)
    requires Suffix(c) != ""
    ensures Suffix(c) == ['.'] + Suffix(c)[1..] && '.' !in Suffix(c)[1..]
  {
  }

  lemma SplitThree(a: string, b: string, c: Compression)
    requires '.' !in a && '.' !in b
    ensures SplitN(a + "." + b + Suffix(c), '.', 3) == if Suffix(c) == "" then [a, b] else [a, b, Suffix(c)[1..]]
  {
    Assoc(a + ['.'], b, Suffix(c));
    SplitsNFirst(a, '.', b + Suffix(c), 3);
    if Suffix(c) == "" {
      assert b + Suffix(c) == b;
      SplitsNNot(b, '.', 2);
    } else {
      ExtensionHasNo(c);
      var ext := Suffix(c)[1..];
      Assoc(b, ['.'], ext);
      SplitsNFirst(b, '.', ext, 2);
      SplitsNNot(ext, '.', 1);
    }
  }

  /** Every name parses back to its timestamps and to a compression with the same decoder. */
  lemma ChunkNameReadsBack(start: Timestamp, end: Timestamp, cmp: Compression)
    ensures var r := ParseChunkName(FormatChunkName(start, end, cmp));
      r.Some? && r.value.start == start && r.value.end == end && DecoderOf(r.value.comp) == DecoderOf(cmp)
  {
    TSReadsBack(start);
    TSReadsBack(end);
    TSHasNo(start, '.');
    TSHasNo(end, '.');
    SplitThree(FormatTS(start), FormatTS(end), cmp);
    ExtensionNamesDecoder(cmp);
  }

  // ---------------------------------------------------------------------------------------------
  // PITR chunk names
  // ---------------------------------------------------------------------------------------------

  const PITR_FS_PREFIX := "pbmPitr"

  datatype OplogChunk = OplogChunk(rs: string, comp: Compression, startTS: Timestamp, endTS: Timestamp)

  /** The name below the directory of PITR chunks. */
  function ChunkPath(rs: string, first: Timestamp, last: Timestamp, c: Compression): string {
    rs + "/" + FormatTime(first.t)[..8] + "/" + BaseName(first, last, c)
  }

  function FormatChunkFilepath(rs: string, first: Timestamp, last: Timestamp, c: Compression): string {
    (PITR_FS_PREFIX + "/") + ChunkPath(rs, first, last, c)
  }

  function TrimPrefix(s: string, prefix: string): string {
    if prefix <= s then s[|prefix|..] else s
  }

  function ChunkMetaOf(rs: string, fparts: seq<string>): Option<OplogChunk> {
    if |fparts| < 3 || fparts[2] != "oplog" then None
    else
      var comp := if |fparts| == 4 then FileCompression(fparts[3]) else Uncompressed;
      match PitrParseTS(fparts[0])
      case None => None
      case Some(start) =>
        match PitrParseTS(fparts[1])
        case None => None
        case Some(end) => Some(OplogChunk(rs, comp, start, end))
  }

  function MakeChunkMetaFromFilepath(f: string): Option<OplogChunk> {
    var ppath := Split(f, '/');
    if |ppath| < 2 then None else ChunkMetaOf(ppath[0], Split(ppath[|ppath| - 1], '.'))
  }

  function BaseName(first: Timestamp, last: Timestamp, c: Compression): string {
    FormatTS(first) + "." + FormatTS(last) + ".oplog" + Suffix(c)
  }

  lemma SplitBaseName(a: string, b: string, c: Compression)
    requires '.' !in a && '.' !in b
    ensures Split(a + "." + b + ".oplog" + Suffix(c), '.') ==
      if Suffix(c) == "" then [a, b, "oplog"] else [a, b, "oplog", Suffix(c)[1..]]
  {
    var oplog := "oplog";
    assert '.' !in oplog && ".oplog" == ['.'] + oplog;
    var s := a + ['.'] + b + ['.'] + oplog;
    assert a + "." + b + ".oplog" == s;
    if Suffix(c) == "" {
      assert s + Suffix(c) == s;
      SplitsInThree(a, b, oplog, '.');
    } else {
      ExtensionHasNo(c);
      var ext := Suffix(c)[1..];
      assert s + Suffix(c) == s + ['.'] + ext;
      SplitsInFour(a, b, oplog, ext, '.');
    }
  }

  lemma BaseNameHasNoSlash(first: Timestamp, last: Timestamp, c: Compression)
    ensures '/' !in BaseName(first, last, c)
  {
    TSHasNo(first, '/');
    TSHasNo(last, '/');
    assert '/' !in ".oplog" && '/' !in Suffix(c) && '/' !in ".";
  }

  /** The parts of a path that matter: the first and the last. */
  lemma PathSplits(rs: string, day: string, base: string)
    requires '/' !in base
    ensures var parts := Split(rs + "/" + day + "/" + base, '/');
      |parts| >= 2 && parts[|parts| - 1] == base && parts[0] == rs[..IndexOf(rs, '/')]
  {
    SplitsLast(rs + ['/'] + day, '/', base);
    FirstOfDir(rs, day);
  }

  lemma NamePartsParse(rs: string, a: string, b: string, c: Compression, first: Timestamp, last: Timestamp)
    requires '.' !in a && '.' !in b && PitrParseTS(a) == Some(first) && PitrParseTS(b) == Some(last)
    ensures var r := ChunkMetaOf(rs, Split(a + "." + b + ".oplog" + Suffix(c), '.'));
      r.Some? && r.value.rs == rs && r.value.startTS == first && r.value.endTS == last
      && DecoderOf(r.value.comp) == DecoderOf(c)
  {
    SplitBaseName(a, b, c);
    ExtensionNamesDecoder(c);
  }

  lemma BaseNameParses(rs: string, first: Timestamp, last: Timestamp, c: Compression)
    ensures var r := ChunkMetaOf(rs, Split(BaseName(first, last, c), '.'));
      r.Some? && r.value.rs == rs && r.value.startTS == first && r.value.endTS == last
      && DecoderOf(r.value.comp) == DecoderOf(c)
  {
    TSReadsBack(first);
    TSReadsBack(last);
    TSHasNo(first, '.');
    TSHasNo(last, '.');
    NamePartsParse(rs, FormatTS(first), FormatTS(last), c, first, last);
  }

  lemma MetaOfPath(f: string, rs: string, base: string)
    requires var parts := Split(f, '/'); |parts| >= 2 && parts[0] == rs && parts[|parts| - 1] == base
    ensures MakeChunkMetaFromFilepath(f) == ChunkMetaOf(rs, Split(base, '.'))
  {
  }

  /** Every name parses back to its timestamps, to a compression with the same decoder, and to the name
      of the replica set up to its first slash. */
  lemma FilepathReadsBack(rs: string, first: Timestamp, last: Timestamp, c: Compression)
    ensures var path := FormatChunkFilepath(rs, first, last, c);
      var r := MakeChunkMetaFromFilepath(TrimPrefix(path, PITR_FS_PREFIX + "/"));
      && r.Some? && r.value.startTS == first && r.value.endTS == last
      && DecoderOf(r.value.comp) == DecoderOf(c)
      && r.value.rs == rs[..IndexOf(rs, '/')]
  {
    PrefixTrimmed(PITR_FS_PREFIX + "/", ChunkPath(rs, first, last, c));
    PathParses(rs, first, last, c);
  }

  lemma PrefixTrimmed(prefix: string, s: string)
    ensures TrimPrefix(prefix + s, prefix) == s
  {
  }

  lemma PathParses(rs: string, first: Timestamp, last: Timestamp, c: Compression)
    ensures var r := MakeChunkMetaFromFilepath(ChunkPath(rs, first, last, c));
      && r.Some? && r.value.startTS == first && r.value.endTS == last
      && DecoderOf(r.value.comp) == DecoderOf(c)
      && r.value.rs == rs[..IndexOf(rs, '/')]
  {
    BaseNameHasNoSlash(first, last, c);
    PathSplits(rs, FormatTime(first.t)[..8], BaseName(first, last, c));
    MetaOfPath(ChunkPath(rs, first, last, c), rs[..IndexOf(rs, '/')], BaseName(first, last, c));
    BaseNameParses(rs[..IndexOf(rs, '/')], first, last, c);
  }

  lemma {:induction false} FirstOfDir(rs: string, day: string)
    ensures var dir := rs + ['/'] + day; dir[..IndexOf(dir, '/')] == rs[..IndexOf(rs, '/')]
    decreases |rs|
  {
    var dir := rs + ['/'] + day;
    var i := IndexOf(rs, '/');
    IndexOfFinds(rs, '/');
    if i == |rs| {
      assert rs[..i] == rs;
      IndexAfter(rs, '/', day);
      assert dir[..|rs|] == rs;
    } else {
      var head := rs[..i];
      assert rs == head + ['/'] + rs[i + 1..];
      assert dir == head + ['/'] + (rs[i + 1..] + ['/'] + day);
      IndexAfter(head, '/', rs[i + 1..] + ['/'] + day);
      assert dir[..i] == head;
    }
  }

  /** So the replica set reads back exactly if its name has no slash. */
  lemma ReplsetReadsBackUnlessSlash(rs: string, first: Timestamp, last: Timestamp, c: Compression)
    ensures var r := MakeChunkMetaFromFilepath(ChunkPath(rs, first, last, c));
      r.Some? && (r.value.rs == rs <==> '/' !in rs)
  {
    PathParses(rs, first, last, c);
    var i := IndexOf(rs, '/');
    IndexOfFinds(rs, '/');
    if '/' !in rs {
      IndexAfter(rs, '/', "");
      assert rs[..i] == rs;
    } else {
      assert '/' !in rs[..i];
    }
  }
}

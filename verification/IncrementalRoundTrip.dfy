/** The restore of an incremental backup gives back the files as they were: collecting the blocks
    along the chain of backups, and the proof that copying them base first restores the target. */
module IncrementalRoundTrip {
  import opened Options
  import opened Incremental
  import opened IncrementalRestore
  import opened Interleaving
  import opened PhysicalCopy

  // ---------------------------------------------------------------------------------------------
  // Collecting the layers
  // ---------------------------------------------------------------------------------------------

  /** A backup meta, as far as one replica set is concerned; `src` is empty for a base. */
  datatype Backup = Backup(name: string, src: string, files: seq<File>)

  /** The blocks that backup `files` holds for the files of the target. */
  function PickData(files: seq<File>, targets: set<string>): seq<File> {
    if files == [] then []
    else
      var before, f := PickData(files[..|files| - 1], targets), files[|files| - 1];
      if f.name in targets && f.off >= 0 && f.len >= 0 then before + [f] else before
  }

  function NamesOf(files: seq<File>): set<string> {
    set f | f in files :: f.name
  }

  /** From the target back to the base, or to a backup that is missing. */
  predicate IsChain(backups: map<string, Backup>, chain: seq<Backup>) {
    && chain != []
    && (forall i :: 0 <= i < |chain| - 1 ==>
          chain[i].src != "" && chain[i].src in backups && backups[chain[i].src] == chain[i + 1])
    && (chain[|chain| - 1].src == "" || chain[|chain| - 1].src !in backups)
  }

  function LayersOf(chain: seq<Backup>, targets: set<string>): (layers: seq<Layer>)
    ensures |layers| == |chain|
    ensures forall i :: 0 <= i < |chain| ==> layers[i] == Layer(chain[i].name, PickData(chain[i].files, targets), false)
  {
    seq(|chain|, i requires 0 <= i < |chain| => Layer(chain[i].name, PickData(chain[i].files, targets), false))
  }

  /** The directory part of a relative path. */
  function DirOf(name: string): string {
    if name == "" then "."
    else if name[|name| - 1] == '/' then if |name| == 1 then "/" else name[..|name| - 1]
    else DirOf(name[..|name| - 1])
  }

  /** The files of the target for which no backup has data. */
  function WithoutData(chain: seq<Backup>, targets: set<string>): set<string> {
    if chain == [] then targets
    else WithoutData(chain[..|chain| - 1], targets) - NamesOf(PickData(chain[|chain| - 1].files, targets))
  }

  function DirsOf(names: set<string>): set<string> {
    set n | n in names :: DirOf(n)
  }

  /** The last layer creates the directories of the files without data. */
  predicate IsDirs(layer: Layer, missing: set<string>) {
    && layer.dirsOnly
    && NamesOf(layer.data) <= missing
    && DirsOf(NamesOf(layer.data)) == DirsOf(missing) - {"."}
  }

  method CollectData(targets: set<string>, missing0: set<string>, files: seq<File>)
    returns (data: seq<File>, missing: set<string>)
    ensures data == PickData(files, targets)
    ensures missing == missing0 - NamesOf(PickData(files, targets))
  {
    data, missing := [], missing0;
    for k := 0 to |files|
      invariant data == PickData(files[..k], targets)
      invariant missing == missing0 - NamesOf(data)
    {
      assert files[..k + 1][..k] == files[..k];
      var f := files[k];
      if f.name in targets && f.off >= 0 && f.len >= 0 {
        NamesAdd(data, f);
        data := data + [f];
        missing := missing - {f.name};
      }
    }
    assert files[..|files|] == files;
  }

  method CollectDirs(missing: set<string>) returns (dirs: seq<File>)
    ensures NamesOf(dirs) <= missing && DirsOf(NamesOf(dirs)) == DirsOf(missing) - {"."}
  {
    dirs := [];
    var dirsm: set<string> := {};
    var left := missing;
    while left != {}
      invariant left <= missing && NamesOf(dirs) <= missing
      invariant dirsm == DirsOf(NamesOf(dirs)) == DirsOf(missing - left) - {"."}
      decreases left
    {
      var f :| f in left;
      var dir := DirOf(f);
      assert missing - (left - {f}) == (missing - left) + {f};
      DirsAdd(missing - left, f);
      if dir != "." && dir !in dirsm {
        DirsAdd(NamesOf(dirs), f);
        NamesAdd(dirs, File(f, -1, -1, -1));
        dirs := dirs + [File(f, -1, -1, -1)];
        dirsm := dirsm + {dir};
      }
      left := left - {f};
    }
    assert missing - left == missing;
  }

  lemma DirsAdd(names: set<string>, n: string)
    ensures DirsOf(names + {n}) == DirsOf(names) + {DirOf(n)}
  {
    assert n in names + {n};
    forall d | d in DirsOf(names) ensures d in DirsOf(names + {n}) {
      var m :| m in names && DirOf(m) == d;
      assert m in names + {n};
    }
  }

  lemma NamesAdd(files: seq<File>, f: File)
    ensures NamesOf(files + [f]) == NamesOf(files) + {f.name}
  {
    assert f in files + [f];
    forall g | g in files ensures g in files + [f] {
    }
  }

  predicate IsChainOf(backups: map<string, Backup>, chain: seq<Backup>, target: Backup) {
    IsChain(backups, chain) && chain[0] == target
  }

  /** Walks from the target to the base. A source that cannot be read is an error. */
  method CollectLayers(backups: map<string, Backup>, target: Backup, ghost chain: seq<Backup>)
    returns (layers: seq<Layer>, missing: set<string>, ok: bool)
    requires IsChainOf(backups, chain, target)
    ensures ok <==> chain[|chain| - 1].src == ""
    ensures ok ==> layers == LayersOf(chain, NamesOf(target.files))
    ensures ok ==> missing == WithoutData(chain, NamesOf(target.files))
  {
    var targets := NamesOf(target.files);
    var bcp := target;
    missing := targets;
    layers, ok := [], true;
    ghost var k: nat := 0;
    assert chain[..0] == [];
    while true
      invariant k < |chain| && bcp == chain[k] && ok
      invariant layers == LayersOf(chain[..k], targets)
      invariant missing == WithoutData(chain[..k], targets)
      decreases |chain| - k
    {
      assert chain[..k + 1][..k] == chain[..k];
      var data: seq<File>;
      data, missing := CollectData(targets, missing, bcp.files);
      layers := layers + [Layer(bcp.name, data, false)];
      assert layers == LayersOf(chain[..k + 1], targets);
      if bcp.src == "" {
        assert chain[..k + 1] == chain;
        return;
      }
      if bcp.src !in backups {
        ok := false;
        return;
      }
      bcp := backups[bcp.src];
      k := k + 1;
    }
  }

  /** One layer for each backup, and one for the missing directories if there are any. */
  predicate AreLayers(chain: seq<Backup>, targets: set<string>, layers: seq<Layer>) {
    && |chain| <= |layers| <= |chain| + 1
    && layers[..|chain|] == LayersOf(chain, targets)
    && var missing := WithoutData(chain, targets);
      if |layers| > |chain| then IsDirs(layers[|chain|], missing) else DirsOf(missing) <= {"."}
  }

  method SetBcpFiles(backups: map<string, Backup>, target: Backup, ghost chain: seq<Backup>)
    returns (layers: seq<Layer>, ok: bool)
    requires IsChainOf(backups, chain, target)
    ensures ok <==> chain[|chain| - 1].src == ""
    ensures ok ==> AreLayers(chain, NamesOf(target.files), layers)
  {
    var missing: set<string>;
    layers, missing, ok := CollectLayers(backups, target, chain);
    if !ok {
      return;
    }
    var dirs := CollectDirs(missing);
    if |dirs| > 0 {
      layers := layers + [Layer("pbm.dirs", dirs, true)];
    } else {
      assert DirsOf(NamesOf(dirs)) == {};
    }
  }

  /** No backup of the chain holds data of this file; an entry without offset or length holds none. */
  predicate HasNoData(chain: seq<Backup>, name: string) {
    forall b, f :: b in chain && f in b.files && f.name == name ==> f.off < 0 || f.len < 0
  }

  lemma {:induction false} PickedAre(files: seq<File>, targets: set<string>, name: string)
    ensures name in NamesOf(PickData(files, targets)) <==>
      name in targets && exists f :: f in files && f.name == name && f.off >= 0 && f.len >= 0
    decreases |files|
  {
    if files != [] {
      var before, f := files[..|files| - 1], files[|files| - 1];
      assert files == before + [f];
      PickedAre(before, targets, name);
      NamesAdd(PickData(before, targets), f);
    }
  }

  lemma {:induction false} WithoutDataAre(chain: seq<Backup>, targets: set<string>, name: string)
    ensures name in WithoutData(chain, targets) <==> name in targets && HasNoData(chain, name)
    decreases |chain|
  {
    if chain != [] {
      var before, b := chain[..|chain| - 1], chain[|chain| - 1];
      assert chain == before + [b];
      WithoutDataAre(before, targets, name);
      PickedAre(b.files, targets, name);
    }
  }

  /** The directory is what stands before the last slash. */
  lemma {:induction false} DirOfIs(dir: string, base: string)
    requires '/' !in base
    ensures DirOf(base) == "."
    ensures DirOf(dir + "/" + base) == if dir == "" then "/" else dir
    decreases |base|
  {
    var name := dir + "/" + base;
    if base == "" {
      assert name == dir + "/" && name[..|name| - 1] == dir;
    } else {
      var shorter := base[..|base| - 1];
      assert base[|base| - 1] in base && forall c :: c in shorter ==> c in base;
      assert name[..|name| - 1] == dir + "/" + shorter && name[|name| - 1] == base[|base| - 1];
      DirOfIs(dir, shorter);
    }
  }

  /** Every target file without data is in the directory of one that the last layer lists, unless that is
      the data directory itself; and nothing else is listed. */
  lemma DirectoriesAreListed(chain: seq<Backup>, targets: set<string>, layers: seq<Layer>)
    requires AreLayers(chain, targets, layers)
    ensures forall name :: name in targets && HasNoData(chain, name) && DirOf(name) != "." ==>
      |layers| == |chain| + 1 && exists f :: f in layers[|chain|].data && DirOf(f.name) == DirOf(name)
    ensures |layers| > |chain| ==>
      layers[|chain|].dirsOnly
      && forall f :: f in layers[|chain|].data ==> f.name in targets && HasNoData(chain, f.name)
  {
    var missing := WithoutData(chain, targets);
    forall name | name in targets && HasNoData(chain, name) && DirOf(name) != "."
      ensures |layers| > |chain| && exists f :: f in layers[|chain|].data && DirOf(f.name) == DirOf(name)
    {
      WithoutDataAre(chain, targets, name);
      assert DirOf(name) in DirsOf(missing);
      assert DirOf(name) in DirsOf(NamesOf(layers[|chain|].data));
      var n :| n in NamesOf(layers[|chain|].data) && DirOf(n) == DirOf(name);
    }
    if |layers| > |chain| {
      forall f | f in layers[|chain|].data ensures f.name in targets && HasNoData(chain, f.name) {
        assert f.name in NamesOf(layers[|chain|].data);
        WithoutDataAre(chain, targets, f.name);
      }
    }
  }

  // ---------------------------------------------------------------------------------------------
  // What a backup reports and what it stores
  // ---------------------------------------------------------------------------------------------

  type Disk = map<string, Bytes>

  /** A backup as it was taken: the blocks the cursor reported, the journals, and the files on disk. */
  datatype Stage = Stage(name: string, src: string, report: seq<File>, journal: seq<File>, disk: Disk)

  function MetaFiles(s: Stage): seq<File> {
    Records(PlanOf(s.report, true), s.disk) + Records(PlanOf(s.journal, false), s.disk)
  }

  function MetaOf(s: Stage): Backup {
    Backup(s.name, s.src, MetaFiles(s))
  }

  /** The backup succeeded: every file to upload was there. */
  predicate Taken(s: Stage) {
    && Plain(s.report) && Plain(s.journal)
    && (forall f :: f in s.journal ==> IsWhole(f, f.name))
    && OnDisk(PlanOf(s.report, true), s.disk) && OnDisk(PlanOf(s.journal, false), s.disk)
  }

  /** Byte `p` was reported, as part of a block or of a journal. */
  predicate Delivers(s: Stage, name: string, p: nat) {
    ReportsByte(s.report, true, name, p) || Listed(s.journal, name)
  }

  predicate Differs(prev: Disk, cur: Disk, name: string, p: nat)
    requires name in cur && p < |cur[name]|
  {
    name !in prev || p >= |prev[name]| || prev[name][p] != cur[name][p]
  }

  /** What the backup cursor promises about the files now, `s.disk`, and at the source backup, `prev`:
      it reports every byte that changed and, when the size of a file changes to another than 0, at least
      one block of it. */
  predicate Faithful(prev: Disk, s: Stage) {
    forall name :: name in s.disk ==>
      && (forall p: nat :: p < |s.disk[name]| && Differs(prev, s.disk, name, p) ==> Delivers(s, name, p))
      && (name in prev && |prev[name]| != |s.disk[name]| > 0 ==>
            exists p: nat :: p < |s.disk[name]| && Delivers(s, name, p))
  }

  /** Everything this backup recorded is on the storage. */
  predicate Uploaded(stg: map<Key, Bytes>, s: Stage) {
    forall f :: f in MetaFiles(s) ==> Stored(stg, s.name, f, s.disk)
  }

  predicate CoversByte(f: File, p: nat) {
    0 <= f.off && 0 <= f.len && ((f.off == 0 && f.len == 0) || f.off <= p < f.off + f.len)
  }

  lemma RecordedIn(items: seq<UpItem>, disk: Disk, it: UpItem)
    requires it in items
    ensures RecordOf(it, disk) in Records(items, disk)
  {
    var i :| 0 <= i < |items| && items[i] == it;
    assert Records(items, disk)[i] == RecordOf(it, disk);
  }

  /** A reported byte is covered by a block in the meta. */
  lemma DeliveredIsCovered(s: Stage, name: string, p: nat) returns (f: File)
    requires Taken(s) && Delivers(s, name, p)
    ensures f in MetaFiles(s) && f.name == name && CoversByte(f, p)
  {
    if ReportsByte(s.report, true, name, p) {
      var items := PlanOf(s.report, true);
      PlanKeepsBytes(s.report, true, name, p);
      PlanIsPlain(s.report, true);
      var it :| it in items && it.upload && Spans(it.file, name, p);
      f := RecordOf(it, s.disk);
      RecordedIn(items, s.disk, it);
    } else {
      var items := PlanOf(s.journal, false);
      WholeFilesStayWhole(s.journal, name);
      var it :| it in items && it.upload && IsWhole(it.file, name);
      f := RecordOf(it, s.disk);
      RecordedIn(items, s.disk, it);
    }
  }

  lemma RecordsGood(items: seq<UpItem>, disk: Disk, f: File)
    requires OnDisk(items, disk) && (forall it :: it in items ==> PlainItem(it)) && f in Records(items, disk)
    ensures f.off >= 0 ==> f.name in disk && f.size == |disk[f.name]| && f.len >= 0
  {
    var i :| 0 <= i < |items| && Records(items, disk)[i] == f;
    assert items[i] in items;
  }

  /** A block in the meta has the size the file has on disk. */
  lemma MetaGood(s: Stage, f: File)
    requires Taken(s) && f in MetaFiles(s)
    ensures f.off >= 0 ==> f.name in s.disk && f.size == |s.disk[f.name]| && f.len >= 0
  {
    PlanIsPlain(s.report, true);
    PlanIsPlain(s.journal, false);
    if f in Records(PlanOf(s.report, true), s.disk) {
      RecordsGood(PlanOf(s.report, true), s.disk, f);
    } else {
      RecordsGood(PlanOf(s.journal, false), s.disk, f);
    }
  }

  // ---------------------------------------------------------------------------------------------
  // One file, one layer
  // ---------------------------------------------------------------------------------------------

  /** The operation copies a block of `cur` and cuts the file to its size. */
  predicate CopiesFrom(stg: map<Key, Bytes>, op: CopyOp, cur: Bytes) {
    && Restorable(op.fMeta)
    && op.fMeta.size == |cur|
    && DataOf(stg, op.src) == Content(op.fMeta.off, op.fMeta.len, cur)
  }

  lemma CopyIntoBytes(stg: map<Key, Bytes>, s: Bytes, op: CopyOp, cur: Bytes, p: nat)
    requires CopiesFrom(stg, op, cur) && p < |cur|
    ensures |CopyInto(stg, s, op)| == |cur|
    ensures CopyInto(stg, s, op)[p] ==
      if CoversByte(op.fMeta, p) then cur[p] else if p < |s| then s[p] else 0
  {
    var f := op.fMeta;
    PlacedBytes(s, f.off, DataOf(stg, op.src), |cur|, p);
    ContentBytes(f, cur, p);
  }

  lemma PlacedBytes(s: Bytes, off: nat, data: Bytes, size: nat, p: nat)
    requires p < size
    ensures var t := Truncated(WriteAt(s, off, data), size);
      |t| == size && t[p] == if off <= p < off + |data| then data[p - off] else if p < |s| then s[p] else 0
  {
    WriteAtBytes(s, off, data, p);
    TruncatedBytes(WriteAt(s, off, data), size, p);
  }

  lemma TruncatedBytes(t: Bytes, size: nat, p: nat)
    requires p < size
    ensures |Truncated(t, size)| == size && Truncated(t, size)[p] == if p < |t| then t[p] else 0
  {
  }

  /** Where the block covers the byte, its content has it. */
  lemma ContentBytes(f: File, cur: Bytes, p: nat)
    requires Restorable(f) && p < |cur|
    ensures var data := Content(f.off, f.len, cur);
      if CoversByte(f, p) then f.off <= p < f.off + |data| && data[p - f.off] == cur[p]
      else !(f.off <= p < f.off + |data|)
  {
  }

  lemma WriteAtBytes(s: Bytes, off: nat, data: Bytes, p: nat)
    ensures var t := WriteAt(s, off, data);
      && |t| == (if data == [] || off + |data| <= |s| then |s| else off + |data|)
      && (p < |t| ==> t[p] == if off <= p < off + |data| then data[p - off] else if p < |s| then s[p] else 0)
  {
  }

  ghost predicate CoveredBy(ops: seq<CopyOp>, p: nat) {
    exists op :: op in ops && CoversByte(op.fMeta, p)
  }

  /** After the operations of one layer the file has the size of the layer, the bytes they cover come
      from the layer, and the others are as before. */
  lemma {:induction false} LayerBytes(stg: map<Key, Bytes>, s: Bytes, ops: seq<CopyOp>, cur: Bytes, p: nat)
    requires ops != [] && (forall op :: op in ops ==> CopiesFrom(stg, op, cur)) && p < |cur|
    ensures var t := CopyAllInto(stg, s, ops);
      |t| == |cur| && t[p] == if CoveredBy(ops, p) then cur[p] else if p < |s| then s[p] else 0
    decreases |ops|
  {
    var before, op := ops[..|ops| - 1], ops[|ops| - 1];
    assert ops == before + [op] && op in ops;
    assert forall o :: o in before ==> o in ops;
    if before == [] {
      CopyIntoBytes(stg, s, op, cur, p);
    } else {
      LayerBytes(stg, s, before, cur, p);
      CopyIntoBytes(stg, CopyAllInto(stg, s, before), op, cur, p);
    }
  }

  // ---------------------------------------------------------------------------------------------
  // One layer
  // ---------------------------------------------------------------------------------------------

  lemma {:induction false} PickedFrom(files: seq<File>, targets: set<string>, f: File)
    ensures f in PickData(files, targets) <==> f in files && f.name in targets && f.off >= 0 && f.len >= 0
    decreases |files|
  {
    if files != [] {
      var before := files[..|files| - 1];
      assert files == before + [files[|files| - 1]];
      PickedFrom(before, targets, f);
    }
  }

  lemma {:induction false} StepsOfFile(layer: Layer, n: nat, name: string, op: CopyOp)
    requires n <= |layer.data| && !layer.dirsOnly
    ensures op in Project(LayerSteps(layer, n), name) <==>
      op.fMeta in layer.data[..n] && op.fMeta.name == name && op.src == KeyOf(layer.bcpName, op.fMeta)
    decreases n
  {
    if n > 0 {
      StepsOfFile(layer, n - 1, name, op);
      var f := layer.data[n - 1];
      ProjectAppend(LayerSteps(layer, n - 1), (f.name, CopyOp(KeyOf(layer.bcpName, f), f)), name);
      assert layer.data[..n] == layer.data[..n - 1] + [f];
    }
  }

  function OpsOfLayer(layer: Layer, name: string): seq<CopyOp> {
    Project(LayerSteps(layer, |layer.data|), name)
  }

  function LayerOf(s: Stage, targets: set<string>): Layer {
    Layer(s.name, PickData(MetaFiles(s), targets), false)
  }

  lemma OpsCopyFrom(stg: map<Key, Bytes>, s: Stage, targets: set<string>, name: string, op: CopyOp)
    requires Taken(s) && Uploaded(stg, s) && name in s.disk && op in OpsOfLayer(LayerOf(s, targets), name)
    ensures CopiesFrom(stg, op, s.disk[name])
  {
    var layer := LayerOf(s, targets);
    assert layer.data[..|layer.data|] == layer.data;
    StepsOfFile(layer, |layer.data|, name, op);
    PickedFrom(MetaFiles(s), targets, op.fMeta);
    MetaGood(s, op.fMeta);
  }

  lemma DeliveredIsCopied(s: Stage, targets: set<string>, name: string, p: nat)
    requires Taken(s) && Delivers(s, name, p) && name in targets
    ensures CoveredBy(OpsOfLayer(LayerOf(s, targets), name), p)
  {
    var layer := LayerOf(s, targets);
    var f := DeliveredIsCovered(s, name, p);
    PickedFrom(MetaFiles(s), targets, f);
    var op := CopyOp(KeyOf(s.name, f), f);
    assert layer.data[..|layer.data|] == layer.data;
    StepsOfFile(layer, |layer.data|, name, op);
  }

  /** A file of which nothing is delivered is as it was. */
  lemma NothingChanged(prev: Disk, s: Stage, name: string)
    requires Faithful(prev, s) && name in s.disk && s.disk[name] != []
    requires forall p: nat :: p < |s.disk[name]| ==> !Delivers(s, name, p)
    ensures name in prev && prev[name] == s.disk[name]
  {
    assert !Differs(prev, s.disk, name, 0);
    forall p: nat | p < |s.disk[name]| ensures prev[name][p] == s.disk[name][p] {
      assert !Differs(prev, s.disk, name, p);
    }
  }

  /** If the file was as at the source backup, a layer brings it to the state of its own backup. If it was
      empty or missing there, it does not matter what was restored before. */
  lemma LayerRestores(
    stg: map<Key, Bytes>, prev: Disk, s: Stage, targets: set<string>, name: string, earlier: Option<Bytes>)
    requires Taken(s) && Uploaded(stg, s) && Faithful(prev, s) && name in targets && name in s.disk
    requires s.disk[name] != []
    requires name in prev && prev[name] != [] ==> earlier == Some(prev[name])
    ensures var ops := OpsOfLayer(LayerOf(s, targets), name);
      && (earlier.Some? || ops != [])
      && CopyAllInto(stg, if earlier.Some? then earlier.value else [], ops) == s.disk[name]
  {
    var ops, cur := OpsOfLayer(LayerOf(s, targets), name), s.disk[name];
    var bytes := if earlier.Some? then earlier.value else [];
    forall op | op in ops ensures CopiesFrom(stg, op, cur) {
      OpsCopyFrom(stg, s, targets, name, op);
    }
    forall p: nat | p < |cur| && Delivers(s, name, p) ensures CoveredBy(ops, p) {
      DeliveredIsCopied(s, targets, name, p);
    }
    if ops == [] {
      forall p: nat | p < |cur| ensures !Delivers(s, name, p) {
        assert !CoveredBy(ops, p);
      }
      NothingChanged(prev, s, name);
    } else {
      var restored := CopyAllInto(stg, bytes, ops);
      LayerBytes(stg, bytes, ops, cur, 0);
      forall p: nat | p < |cur| ensures restored[p] == cur[p] {
        LayerBytes(stg, bytes, ops, cur, p);
        assert Differs(prev, s.disk, name, p) ==> Delivers(s, name, p);
      }
      assert restored == cur;
    }
  }

  // ---------------------------------------------------------------------------------------------
  // The chain
  // ---------------------------------------------------------------------------------------------

  /** The files at the source of the backup at position `i`; before the base there is nothing. */
  function PrevDisk(stages: seq<Stage>, i: nat): Disk
    requires i < |stages|
  {
    if i + 1 < |stages| then stages[i + 1].disk else map[]
  }

  predicate Sound(stg: map<Key, Bytes>, stages: seq<Stage>) {
    forall i :: 0 <= i < |stages| ==>
      Taken(stages[i]) && Uploaded(stg, stages[i]) && Faithful(PrevDisk(stages, i), stages[i])
  }

  function StageLayers(stages: seq<Stage>, targets: set<string>): (layers: seq<Layer>)
    ensures |layers| == |stages|
    ensures forall i :: 0 <= i < |stages| ==> layers[i] == LayerOf(stages[i], targets)
  {
    seq(|stages|, i requires 0 <= i < |stages| => LayerOf(stages[i], targets))
  }

  /** After the layers from the base up to the backup at position `i`, each file of the target that
      existed at that backup and was not empty is as it was then. */
  lemma {:induction false} ChainRestores(
    stg: map<Key, Bytes>, stages: seq<Stage>, targets: set<string>, layers: seq<Layer>, i: nat, name: string)
    requires Sound(stg, stages) && i < |stages| && name in targets && name in stages[i].disk
    requires stages[i].disk[name] != []
    requires |layers| >= |stages| && layers[..|stages|] == StageLayers(stages, targets)
    requires forall l :: |stages| <= l < |layers| ==> layers[l].dirsOnly
    ensures var fs := CopyAll(stg, map[], StepsFrom(layers, i)); name in fs && fs[name] == stages[i].disk[name]
    decreases |stages| - i
  {
    var s := stages[i];
    assert layers[i] == layers[..|stages|][i] == LayerOf(s, targets);
    var earlier := StepsFrom(layers, i + 1);
    var own := LayerSteps(layers[i], |layers[i].data|);
    var before := CopyAll(stg, map[], earlier);
    if name in PrevDisk(stages, i) && PrevDisk(stages, i)[name] != [] {
      ChainRestores(stg, stages, targets, layers, i + 1, name);
    }
    ProjectConcat(earlier, own, name);
    FileByFile(stg, map[], earlier, name);
    FileByFile(stg, map[], earlier + own, name);
    CopyAllIntoConcat(stg, [], Project(earlier, name), Project(own, name));
    LayerRestores(stg, PrevDisk(stages, i), s, targets, name, if name in before then Some(before[name]) else None);
  }

  lemma {:induction false} CopyAllIntoConcat(stg: map<Key, Bytes>, s: Bytes, a: seq<CopyOp>, b: seq<CopyOp>)
    ensures CopyAllInto(stg, s, a + b) == CopyAllInto(stg, CopyAllInto(stg, s, a), b)
    decreases |b|
  {
    if b == [] {
      assert a + b == a;
    } else {
      assert (a + b)[..|a + b| - 1] == a + b[..|b| - 1];
      CopyAllIntoConcat(stg, s, a, b[..|b| - 1]);
    }
  }

  function Metas(stages: seq<Stage>): (chain: seq<Backup>)
    ensures |chain| == |stages| && forall i :: 0 <= i < |stages| ==> chain[i] == MetaOf(stages[i])
  {
    seq(|stages|, i requires 0 <= i < |stages| => MetaOf(stages[i]))
  }

  /** Only files of the target are written. */
  lemma {:induction false} OnlyTargets(layers: seq<Layer>, i: nat, targets: set<string>, name: string)
    requires i <= |layers| && name !in targets
    requires forall l :: 0 <= l < |layers| ==> layers[l].dirsOnly || NamesOf(layers[l].data) <= targets
    ensures Project(StepsFrom(layers, i), name) == []
    decreases |layers| - i
  {
    if i < |layers| {
      OnlyTargets(layers, i + 1, targets, name);
      var own := LayerSteps(layers[i], |layers[i].data|);
      ProjectConcat(StepsFrom(layers, i + 1), own, name);
      NotInLayer(layers[i], |layers[i].data|, name);
    }
  }

  lemma {:induction false} NotInLayer(layer: Layer, n: nat, name: string)
    requires n <= |layer.data| && (layer.dirsOnly || name !in NamesOf(layer.data))
    ensures Project(LayerSteps(layer, n), name) == []
    decreases n
  {
    if n > 0 && !layer.dirsOnly {
      NotInLayer(layer, n - 1, name);
      var f := layer.data[n - 1];
      assert f in layer.data && f.name in NamesOf(layer.data);
      ProjectAppend(LayerSteps(layer, n - 1), (f.name, CopyOp(KeyOf(layer.bcpName, f), f)), name);
    }
  }

  lemma {:induction false} PickedNames(files: seq<File>, targets: set<string>)
    ensures NamesOf(PickData(files, targets)) <= targets
  {
    forall n | n in NamesOf(PickData(files, targets)) ensures n in targets {
      var f :| f in PickData(files, targets) && f.name == n;
      PickedFrom(files, targets, f);
    }
  }

  /** The layers are those of the chain, and after them there are only directories. */
  predicate IsPlanned(stages: seq<Stage>, layers: seq<Layer>) {
    && stages != []
    && |stages| <= |layers| && layers[..|stages|] == LayersOf(Metas(stages), NamesOf(MetaFiles(stages[0])))
    && forall l :: |stages| <= l < |layers| ==> layers[l].dirsOnly
  }

  /** What a restore of the target leaves when all is copied. */
  ghost predicate IsRestored(stg: map<Key, Bytes>, stages: seq<Stage>, layers: seq<Layer>, fs: Files) {
    IsPlanned(stages, layers) && fs == CopyAll(stg, map[], StepsFrom(layers, 0))
  }

  /** The round trip. The target is the first of the stages, its base the last one. Whatever the order
      in which the blocks were uploaded and copied, the restored directory holds every file of the
      target that is not empty with exactly the bytes and the length it had, and no file that the target
      does not name. */
  lemma RestoresTheTarget(stg: map<Key, Bytes>, stages: seq<Stage>, layers: seq<Layer>, fs: Files)
    requires Sound(stg, stages) && IsRestored(stg, stages, layers, fs)
    ensures forall name ::
      name in NamesOf(MetaFiles(stages[0])) && name in stages[0].disk && stages[0].disk[name] != [] ==>
        name in fs && fs[name] == stages[0].disk[name]
    ensures forall name :: name in fs ==> name in NamesOf(MetaFiles(stages[0]))
  {
    var targets := NamesOf(MetaFiles(stages[0]));
    assert LayersOf(Metas(stages), targets) == StageLayers(stages, targets);
    forall name | name in targets && name in stages[0].disk && stages[0].disk[name] != []
      ensures name in fs && fs[name] == stages[0].disk[name]
    {
      ChainRestores(stg, stages, targets, layers, 0, name);
    }
    forall l | 0 <= l < |layers| ensures layers[l].dirsOnly || NamesOf(layers[l].data) <= targets {
      if l < |stages| {
        assert layers[l] == layers[..|stages|][l];
        PickedNames(MetaFiles(stages[l]), targets);
      }
    }
    forall name | name in fs ensures name in targets {
      if name !in targets {
        OnlyTargets(layers, 0, targets, name);
        FileByFile(stg, map[], StepsFrom(layers, 0), name);
      }
    }
  }

  // --- files that are empty at the target --------------------------------------------------------

  /** The backups record a block of the file; `sized` asks for one from when it was not empty. */
  predicate HasBlock(files: seq<File>, name: string, sized: bool) {
    exists f :: f in files && f.name == name && f.off >= 0 && f.len >= 0 && (sized ==> f.size > 0)
  }

  predicate StageHasBlock(stages: seq<Stage>, i: nat, name: string, sized: bool) {
    i < |stages| && HasBlock(MetaFiles(stages[i]), name, sized)
  }

  ghost predicate ChainHasBlock(stages: seq<Stage>, name: string, sized: bool) {
    exists i: nat :: StageHasBlock(stages, i, name, sized)
  }

  predicate SomeSized(ops: seq<CopyOp>) {
    exists op :: op in ops && op.fMeta.size > 0
  }

  lemma SomeSizedConcat(a: seq<CopyOp>, b: seq<CopyOp>)
    ensures SomeSized(a + b) <==> SomeSized(a) || SomeSized(b)
  {
    if op :| op in a && op.fMeta.size > 0 {
      assert op in a + b;
    }
    if op :| op in b && op.fMeta.size > 0 {
      assert op in a + b;
    }
  }

  /** The object is there and comes from a file of the recorded size; of an empty one there is nothing. */
  predicate CopiesSized(stg: map<Key, Bytes>, op: CopyOp) {
    Restorable(op.fMeta) && op.src in stg && (op.fMeta.size == 0 ==> DataOf(stg, op.src) == [])
  }

  /** A file stays empty exactly as long as no block from a file that was not empty is copied into it. */
  lemma {:induction false} EmptyExactly(stg: map<Key, Bytes>, ops: seq<CopyOp>)
    requires forall op :: op in ops ==> CopiesSized(stg, op)
    ensures CopyAllInto(stg, [], ops) == [] <==> !SomeSized(ops)
    decreases |ops|
  {
    if ops != [] {
      var before, op := ops[..|ops| - 1], ops[|ops| - 1];
      assert ops == before + [op] && op in ops && forall o :: o in before ==> o in ops;
      EmptyExactly(stg, before);
      SomeSizedConcat(before, [op]);
      OneSized(op);
      if op.fMeta.size > 0 {
        TruncatedBytes(WriteAt(CopyAllInto(stg, [], before), op.fMeta.off, DataOf(stg, op.src)), op.fMeta.size, 0);
      }
    }
  }

  lemma OneSized(op: CopyOp)
    ensures SomeSized([op]) <==> op.fMeta.size > 0
  {
    assert op in [op];
  }

  lemma OpsOfLayerAre(stg: map<Key, Bytes>, s: Stage, targets: set<string>, name: string)
    requires Taken(s) && Uploaded(stg, s) && name in targets
    ensures var ops := OpsOfLayer(LayerOf(s, targets), name);
      && (forall op :: op in ops ==> CopiesSized(stg, op))
      && (ops != [] <==> HasBlock(MetaFiles(s), name, false))
      && (SomeSized(ops) <==> HasBlock(MetaFiles(s), name, true))
  {
    var layer, ops := LayerOf(s, targets), OpsOfLayer(LayerOf(s, targets), name);
    assert layer.data[..|layer.data|] == layer.data;
    forall op | op in ops
      ensures op.fMeta in MetaFiles(s) && op.fMeta.name == name && op.fMeta.off >= 0 && op.fMeta.len >= 0
      ensures CopiesSized(stg, op)
    {
      StepsOfFile(layer, |layer.data|, name, op);
      PickedFrom(MetaFiles(s), targets, op.fMeta);
      MetaGood(s, op.fMeta);
      assert Stored(stg, s.name, op.fMeta, s.disk);
    }
    forall f | f in MetaFiles(s) && f.name == name && f.off >= 0 && f.len >= 0
      ensures CopyOp(KeyOf(s.name, f), f) in ops
    {
      PickedFrom(MetaFiles(s), targets, f);
      StepsOfFile(layer, |layer.data|, name, CopyOp(KeyOf(s.name, f), f));
    }
    if ops != [] {
      assert ops[0] in ops;
    }
  }

  lemma {:induction false} OpsOfChainAre(
    stg: map<Key, Bytes>, stages: seq<Stage>, targets: set<string>, layers: seq<Layer>, i: nat, name: string)
    requires Sound(stg, stages) && i <= |stages| && name in targets
    requires |layers| >= |stages| && layers[..|stages|] == StageLayers(stages, targets)
    requires forall l :: |stages| <= l < |layers| ==> layers[l].dirsOnly
    ensures var ops := Project(StepsFrom(layers, i), name);
      && (forall op :: op in ops ==> CopiesSized(stg, op))
      && (ops != [] <==> ChainHasBlock(stages[i..], name, false))
      && (SomeSized(ops) <==> ChainHasBlock(stages[i..], name, true))
    decreases |stages| - i
  {
    if i == |stages| {
      NothingFromDirs(layers, i, name);
    } else {
      assert layers[i] == layers[..|stages|][i] == LayerOf(stages[i], targets);
      OpsOfChainAre(stg, stages, targets, layers, i + 1, name);
      OpsOfLayerAre(stg, stages[i], targets, name);
      var earlier, own := StepsFrom(layers, i + 1), LayerSteps(layers[i], |layers[i].data|);
      ProjectConcat(earlier, own, name);
      SomeSizedConcat(Project(earlier, name), Project(own, name));
      OneMoreStage(stages, i, name, false);
      OneMoreStage(stages, i, name, true);
    }
  }

  lemma OneMoreStage(stages: seq<Stage>, i: nat, name: string, sized: bool)
    requires i < |stages|
    ensures ChainHasBlock(stages[i..], name, sized) <==>
      HasBlock(MetaFiles(stages[i]), name, sized) || ChainHasBlock(stages[i + 1..], name, sized)
  {
    var all, rest := stages[i..], stages[i + 1..];
    assert all == [stages[i]] + rest;
    if HasBlock(MetaFiles(stages[i]), name, sized) {
      assert StageHasBlock(all, 0, name, sized);
    }
    if j: nat :| StageHasBlock(rest, j, name, sized) {
      assert StageHasBlock(all, j + 1, name, sized);
    }
    if j: nat :| j > 0 && StageHasBlock(all, j, name, sized) {
      assert StageHasBlock(rest, j - 1, name, sized);
    }
  }

  lemma {:induction false} NothingFromDirs(layers: seq<Layer>, i: nat, name: string)
    requires i <= |layers| && forall l :: i <= l < |layers| ==> layers[l].dirsOnly
    ensures Project(StepsFrom(layers, i), name) == []
    decreases |layers| - i
  {
    if i < |layers| {
      NothingFromDirs(layers, i + 1, name);
      var own := LayerSteps(layers[i], |layers[i].data|);
      ProjectConcat(StepsFrom(layers, i + 1), own, name);
      NotInLayer(layers[i], |layers[i].data|, name);
    }
  }

  /** A file of the target comes back empty, or not at all, exactly if no backup of the chain recorded a
      block of it while it had any bytes; and not at all exactly if none recorded a block of it. */
  lemma RestoredEmptyExactly(stg: map<Key, Bytes>, stages: seq<Stage>, layers: seq<Layer>, fs: Files, name: string)
    requires Sound(stg, stages) && IsRestored(stg, stages, layers, fs) && name in NamesOf(MetaFiles(stages[0]))
    ensures name in fs <==> ChainHasBlock(stages, name, false)
    ensures Lookup(fs, name) == [] <==> !ChainHasBlock(stages, name, true)
  {
    var targets := NamesOf(MetaFiles(stages[0]));
    assert LayersOf(Metas(stages), targets) == StageLayers(stages, targets) && stages[0..] == stages;
    OpsOfChainAre(stg, stages, targets, layers, 0, name);
    FileByFile(stg, map[], StepsFrom(layers, 0), name);
    EmptyExactly(stg, Project(StepsFrom(layers, 0), name));
  }

  /** A file with a byte, which the next backup finds empty, between another that it finds first. */
  function FullStage(): Stage {
    Stage("base", "", [File("f", 0, 1, 1)], [], map["f" := [1]])
  }

  function EmptiedStage(): Stage {
    Stage("next", "base", [File("g", 0, 1, 1), File("f", 0, 1, 0)], [], map["g" := [2], "f" := []])
  }

  lemma EmptiedMetas()
    ensures MetaFiles(FullStage()) == [File("f", 0, 1, 1)]
    ensures MetaFiles(EmptiedStage()) == [File("f", -1, -1, 0), File("g", 0, 1, 1)]
  {
    var full, both := FullStage().report, EmptiedStage().report;
    assert PlanOf(full, true) == [UpItem(full[0], true)];
    assert both[..1] == [both[0]];
    assert PlanFold(both[..1], true) == Plan([], both[0]);
    assert PlanOf(both, true) == [UpItem(File("f", -1, -1, 0), false), UpItem(both[0], true)];
  }

  function ExampleStorage(): map<Key, Bytes> {
    map[Key("base", "f", Some((0, 1))) := [1], Key("next", "g", Some((0, 1))) := [2]]
  }

  lemma ExampleIsUploaded()
    ensures Uploaded(ExampleStorage(), FullStage()) && Uploaded(ExampleStorage(), EmptiedStage())
  {
    EmptiedMetas();
    assert Content(0, 1, [1]) == [1] && Content(0, 1, [2]) == [2];
  }

  lemma EmptiedIsSound(stg: map<Key, Bytes>)
    requires Uploaded(stg, FullStage()) && Uploaded(stg, EmptiedStage())
    ensures Sound(stg, [EmptiedStage(), FullStage()])
  {
    var stages := [EmptiedStage(), FullStage()];
    var full, both := FullStage().report, EmptiedStage().report;
    assert PlanOf(full, true) == [UpItem(full[0], true)];
    assert both[..1] == [both[0]] && PlanFold(both[..1], true) == Plan([], both[0]);
    assert PlanOf(both, true) == [UpItem(File("f", -1, -1, 0), false), UpItem(both[0], true)];
    assert ReportsByte(full, true, "f", 0) && ReportsByte(both[..1], true, "g", 0) && ReportsByte(both, true, "g", 0);
    assert Delivers(FullStage(), "f", 0) && Delivers(EmptiedStage(), "g", 0);
    assert Taken(FullStage()) && Taken(EmptiedStage());
    assert Faithful(map[], FullStage()) && Faithful(FullStage().disk, EmptiedStage());
    assert PrevDisk(stages, 0) == FullStage().disk && PrevDisk(stages, 1) == map[];
  }

  /** Such a file comes back with its old bytes: the new meta only marks it as unchanged. */
  lemma EmptiedFileComesBack() returns (stages: seq<Stage>, stg: map<Key, Bytes>, layers: seq<Layer>, fs: Files)
    ensures Sound(stg, stages) && IsRestored(stg, stages, layers, fs) && "f" in NamesOf(MetaFiles(stages[0]))
    ensures "f" in stages[0].disk && stages[0].disk["f"] == [] && "f" in fs && fs["f"] != []
  {
    stages, stg := [EmptiedStage(), FullStage()], ExampleStorage();
    ExampleIsUploaded();
    EmptiedIsSound(stg);
    EmptiedHasBlock(stages);
    layers, fs := BlockComesBack(stg, stages, "f");
  }

  lemma BlockComesBack(stg: map<Key, Bytes>, stages: seq<Stage>, name: string) returns (layers: seq<Layer>, fs: Files)
    requires Sound(stg, stages) && stages != [] && name in NamesOf(MetaFiles(stages[0]))
    requires ChainHasBlock(stages, name, true)
    ensures IsRestored(stg, stages, layers, fs) && name in fs && fs[name] != []
  {
    layers := LayersOf(Metas(stages), NamesOf(MetaFiles(stages[0])));
    fs := CopyAll(stg, map[], StepsFrom(layers, 0));
    assert layers[..|stages|] == layers;
    RestoredEmptyExactly(stg, stages, layers, fs, name);
  }

  lemma EmptiedHasBlock(stages: seq<Stage>)
    requires stages == [EmptiedStage(), FullStage()]
    ensures "f" in NamesOf(MetaFiles(stages[0])) && ChainHasBlock(stages, "f", true)
    ensures ChainHasBlock(stages, "f", false)
  {
    EmptiedMetas();
    assert File("f", -1, -1, 0) in MetaFiles(stages[0]);
    assert File("f", 0, 1, 1) in MetaFiles(stages[1]);
    assert StageHasBlock(stages, 1, "f", true) && StageHasBlock(stages, 1, "f", false);
  }

  /** Which files that is: all that the cursor or the journal listed, if the report does not lose its
      head. */
  lemma TargetsAreListed(s: Stage, name: string)
    requires Taken(s)
    ensures name in NamesOf(MetaFiles(s)) ==> Listed(s.report, name) || Listed(s.journal, name)
    ensures !LosesHead(s.report, true) && (Listed(s.report, name) || Listed(s.journal, name)) ==>
      name in NamesOf(MetaFiles(s))
  {
    if name in NamesOf(MetaFiles(s)) {
      var f :| f in MetaFiles(s) && f.name == name;
      if f in Records(PlanOf(s.report, true), s.disk) {
        RecordedName(PlanOf(s.report, true), s.disk, f);
        NothingInvented(s.report, true, name);
      } else {
        RecordedName(PlanOf(s.journal, false), s.disk, f);
        NothingInvented(s.journal, false, name);
      }
    }
    if !LosesHead(s.report, true) && Listed(s.report, name) {
      NoNameLost(s.report, true);
      PlannedIsRecorded(PlanOf(s.report, true), s.disk, name);
    } else if Listed(s.journal, name) {
      NoNameLost(s.journal, false);
      PlannedIsRecorded(PlanOf(s.journal, false), s.disk, name);
    }
  }

  lemma RecordedName(items: seq<UpItem>, disk: Disk, f: File)
    requires f in Records(items, disk)
    ensures Planned(items, f.name)
  {
    var i :| 0 <= i < |items| && Records(items, disk)[i] == f;
    assert items[i] in items;
  }

  lemma PlannedIsRecorded(items: seq<UpItem>, disk: Disk, name: string)
    requires Planned(items, name)
    ensures exists f :: f in Records(items, disk) && f.name == name
  {
    var it :| it in items && it.file.name == name;
    RecordedIn(items, disk, it);
    assert RecordOf(it, disk).name == name;
  }

  // ---------------------------------------------------------------------------------------------
  // Backups and restore in one
  // ---------------------------------------------------------------------------------------------

  predicate PlainStage(s: Stage) {
    Plain(s.report) && Plain(s.journal) && forall f :: f in s.journal ==> IsWhole(f, f.name)
  }

  lemma RecordsAreBlocks(files: seq<File>, incr: bool, disk: Disk, f: File)
    requires Plain(files) && f in Records(PlanOf(files, incr), disk)
    ensures f.off >= 0 ==> IsBlock(f)
  {
    PlanIsPlain(files, incr);
    var i :| 0 <= i < |PlanOf(files, incr)| && Records(PlanOf(files, incr), disk)[i] == f;
    assert PlanOf(files, incr)[i] in PlanOf(files, incr);
  }

  /** The data first, then the journals, under the same backup name. */
  method TakeBackup(s: Stage, stg0: map<Key, Bytes>) returns (meta: Backup, stg: map<Key, Bytes>, ok: bool)
    requires PlainStage(s)
    ensures ok <==> Taken(s)
    ensures ok ==> meta == MetaOf(s) && Uploaded(stg, s)
    ensures ok ==> OthersStay(stg0, stg, s.name)
  {
    meta := Backup(s.name, s.src, []);
    var data, journal: seq<File>;
    data, stg, ok := UploadFiles(s.name, s.report, true, s.disk, stg0);
    if !ok {
      return;
    }
    var stg1 := stg;
    journal, stg, ok := UploadFiles(s.name, s.journal, false, s.disk, stg1);
    if !ok {
      return;
    }
    forall f | f in data ensures Stored(stg, s.name, f, s.disk) {
      RecordsAreBlocks(s.report, true, s.disk, f);
      assert f.off >= 0 ==> IsBlock(f) && Stored(stg1, s.name, f, s.disk);
    }
    meta := Backup(s.name, s.src, data + journal);
  }

  /** The target first, its base last, each built on the next one. */
  predicate IsHistory(stages: seq<Stage>) {
    && stages != []
    && (forall i :: 0 <= i < |stages| ==> PlainStage(stages[i]) && stages[i].name != "")
    && (forall i, j :: 0 <= i < j < |stages| ==> stages[i].name != stages[j].name)
    && (forall i :: 0 <= i < |stages| - 1 ==> stages[i].src == stages[i + 1].name)
    && stages[|stages| - 1].src == ""
  }

  predicate FaithfulAll(stages: seq<Stage>) {
    forall i :: 0 <= i < |stages| ==> Faithful(PrevDisk(stages, i), stages[i])
  }

  predicate AllTaken(stages: seq<Stage>) {
    forall i :: 0 <= i < |stages| ==> Taken(stages[i])
  }

  /** The backup is on the storage and its meta is known by its name. */
  predicate IsKept(s: Stage, metas: map<string, Backup>, stg: map<Key, Bytes>) {
    Taken(s) && Uploaded(stg, s) && s.name in metas && metas[s.name] == MetaOf(s)
  }

  predicate AllStored(stages: seq<Stage>, metas: map<string, Backup>, stg: map<Key, Bytes>) {
    forall i :: 0 <= i < |stages| ==> IsKept(stages[i], metas, stg)
  }

  predicate StoredFrom(stages: seq<Stage>, i: nat, metas: map<string, Backup>, stg: map<Key, Bytes>) {
    forall j :: i <= j < |stages| ==> IsKept(stages[j], metas, stg)
  }

  predicate OthersStay(stg: map<Key, Bytes>, stg': map<Key, Bytes>, bcp: string) {
    forall k :: k in stg && k.bcp != bcp ==> k in stg' && stg'[k] == stg[k]
  }

  lemma KeptStays(
    s: Stage, metas: map<string, Backup>, stg: map<Key, Bytes>, meta: Backup, stg': map<Key, Bytes>, other: string)
    requires IsKept(s, metas, stg) && s.name != other && OthersStay(stg, stg', other)
    ensures IsKept(s, metas[other := meta], stg')
  {
    forall f | f in MetaFiles(s) ensures Stored(stg', s.name, f, s.disk) {
      assert Stored(stg, s.name, f, s.disk);
    }
  }

  lemma OneMoreStored(
    stages: seq<Stage>, i: nat, metas: map<string, Backup>, stg: map<Key, Bytes>, meta: Backup, stg': map<Key, Bytes>)
    requires IsHistory(stages) && i < |stages| && StoredFrom(stages, i + 1, metas, stg)
    requires OthersStay(stg, stg', stages[i].name)
    requires Taken(stages[i]) && Uploaded(stg', stages[i]) && meta == MetaOf(stages[i])
    ensures StoredFrom(stages, i, metas[stages[i].name := meta], stg')
  {
    forall j | i <= j < |stages| ensures IsKept(stages[j], metas[stages[i].name := meta], stg') {
      if j > i {
        KeptStays(stages[j], metas, stg, meta, stg', stages[i].name);
      }
    }
  }

  method TakeBackups(stages: seq<Stage>) returns (metas: map<string, Backup>, stg: map<Key, Bytes>, ok: bool)
    requires IsHistory(stages)
    ensures ok <==> AllTaken(stages)
    ensures ok ==> AllStored(stages, metas, stg)
  {
    metas, stg, ok := map[], map[], true;
    var i: nat := |stages|;
    while i > 0
      invariant i <= |stages| && StoredFrom(stages, i, metas, stg)
    {
      i := i - 1;
      var meta: Backup;
      var stg1: map<Key, Bytes>;
      meta, stg1, ok := TakeBackup(stages[i], stg);
      if !ok {
        return;
      }
      OneMoreStored(stages, i, metas, stg, meta, stg1);
      metas, stg := metas[stages[i].name := meta], stg1;
    }
    ok := true;
    assert forall j :: 0 <= j < |stages| ==> IsKept(stages[j], metas, stg);
  }

  lemma AllOpsGood(stg: map<Key, Bytes>, stages: seq<Stage>, layers: seq<Layer>, name: string)
    requires Sound(stg, stages) && IsPlanned(stages, layers)
    ensures forall op :: op in Project(StepsFrom(layers, 0), name) ==> CopiesSized(stg, op)
  {
    var targets := NamesOf(MetaFiles(stages[0]));
    assert LayersOf(Metas(stages), targets) == StageLayers(stages, targets);
    if name in targets {
      OpsOfChainAre(stg, stages, targets, layers, 0, name);
    } else {
      forall l | 0 <= l < |layers| ensures layers[l].dirsOnly || NamesOf(layers[l].data) <= targets {
        if l < |stages| {
          assert layers[l] == layers[..|stages|][l];
          PickedNames(MetaFiles(stages[l]), targets);
        }
      }
      OnlyTargets(layers, 0, targets, name);
    }
  }

  lemma MetasAreChain(stages: seq<Stage>, metas: map<string, Backup>, stg: map<Key, Bytes>)
    requires IsHistory(stages) && AllStored(stages, metas, stg)
    ensures IsChainOf(metas, Metas(stages), MetaOf(stages[0]))
    ensures Metas(stages)[|stages| - 1].src == ""
  {
    var chain := Metas(stages);
    forall i | 0 <= i < |chain| - 1
      ensures chain[i].src != "" && chain[i].src in metas && metas[chain[i].src] == chain[i + 1]
    {
      assert stages[i + 1].name in metas;
    }
  }

  lemma AllSound(stages: seq<Stage>, metas: map<string, Backup>, stg: map<Key, Bytes>)
    requires AllTaken(stages) && AllStored(stages, metas, stg) && FaithfulAll(stages)
    ensures Sound(stg, stages)
  {
  }

  lemma JobsAreGood(stg: map<Key, Bytes>, stages: seq<Stage>, layers: seq<Layer>, jobs: seq<Job>)
    requires Sound(stg, stages) && IsPlanned(stages, layers) && Groups(jobs, StepsFrom(layers, 0))
    ensures forall job :: job in jobs ==> forall op :: op in job.ops ==> CopiesSized(stg, op)
  {
    forall job | job in jobs ensures forall op :: op in job.ops ==> CopiesSized(stg, op) {
      AllOpsGood(stg, stages, layers, job.dst);
    }
  }

  /** All blocks are there, so the copying succeeds. */
  method Restore(ghost stages: seq<Stage>, stg: map<Key, Bytes>, layers: seq<Layer>) returns (fs: Files)
    requires Sound(stg, stages) && IsPlanned(stages, layers)
    ensures IsRestored(stg, stages, layers, fs)
  {
    var r := new PhysRestore(layers, stg, map[]);
    var jobs := r.PlanCopyFiles();
    JobsAreGood(stg, stages, layers, jobs);
    var ok := r.CopyFiles(jobs, StepsFrom(layers, 0));
    fs := r.fs;
  }

  /** What the restored directory has to do with the files at the target, all names considered. */
  ghost predicate HoldsTheTarget(stages: seq<Stage>, fs: Files)
    requires stages != []
  {
    && (forall name :: name in fs ==> name in NamesOf(MetaFiles(stages[0])))
    && (forall name :: name in NamesOf(MetaFiles(stages[0])) ==> HoldsFile(stages, fs, name))
  }

  ghost predicate HoldsFile(stages: seq<Stage>, fs: Files, name: string)
    requires stages != []
  {
    && (name in fs <==> ChainHasBlock(stages, name, false))
    && (Lookup(fs, name) == [] <==> !ChainHasBlock(stages, name, true))
    && (name in stages[0].disk && stages[0].disk[name] != [] ==> name in fs && fs[name] == stages[0].disk[name])
  }

  lemma RestoredHolds(stg: map<Key, Bytes>, stages: seq<Stage>, layers: seq<Layer>, fs: Files)
    requires Sound(stg, stages) && IsRestored(stg, stages, layers, fs)
    ensures HoldsTheTarget(stages, fs)
  {
    RestoresTheTarget(stg, stages, layers, fs);
    forall name | name in NamesOf(MetaFiles(stages[0])) ensures HoldsFile(stages, fs, name) {
      RestoredEmptyExactly(stg, stages, layers, fs, name);
    }
  }

  lemma LayersArePlanned(stages: seq<Stage>, layers: seq<Layer>)
    requires stages != [] && AreLayers(Metas(stages), NamesOf(MetaOf(stages[0]).files), layers)
    ensures IsPlanned(stages, layers)
  {
  }

  method Collect(target: Backup, metas: map<string, Backup>, ghost stages: seq<Stage>) returns (layers: seq<Layer>)
    requires stages != [] && target == MetaOf(stages[0]) && IsChainOf(metas, Metas(stages), target)
    requires Metas(stages)[|stages| - 1].src == ""
    ensures IsPlanned(stages, layers)
  {
    var ok: bool;
    layers, ok := SetBcpFiles(metas, target, Metas(stages));
    LayersArePlanned(stages, layers);
  }

  /** A chain of backups is taken, base first, and its target is restored into an empty directory: all the
      uploads and all the copies in whatever order they come. It succeeds exactly if every file to upload
      was there, and then the directory holds what the files of the target were. */
  method BackupAndRestore(stages: seq<Stage>) returns (fs: Files, ok: bool)
    requires IsHistory(stages) && FaithfulAll(stages)
    ensures ok <==> AllTaken(stages)
    ensures ok ==> HoldsTheTarget(stages, fs)
  {
    var metas: map<string, Backup>;
    var stg: map<Key, Bytes>;
    metas, stg, ok := TakeBackups(stages);
    if !ok {
      return map[], false;
    }
    MetasAreChain(stages, metas, stg);
    AllSound(stages, metas, stg);
    var layers := Collect(metas[stages[0].name], metas, stages);
    fs := Restore(stages, stg, layers);
    RestoredHolds(stg, stages, layers, fs);
  }
}

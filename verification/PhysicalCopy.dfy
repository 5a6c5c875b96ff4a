/** Copying backup blocks into the data directory (pbm/restore/physical.go): the operations are
    grouped by destination file, and the groups are copied side by side. */
module PhysicalCopy {
  import opened Incremental
  import opened IncrementalRestore
  import opened Interleaving

  // ---------------------------------------------------------------------------------------------
  // One copy
  // ---------------------------------------------------------------------------------------------

  function Zeros(n: nat): (s: Bytes)
    ensures |s| == n && forall i :: 0 <= i < n ==> s[i] == 0
  {
    seq(n, _ => 0)
  }

  function Padded(s: Bytes, n: nat): Bytes {
    if n <= |s| then s else s + Zeros(n - |s|)
  }

  /** Writing behind the end of a file fills the hole with zeros; writing nothing leaves it as it is. */
  function WriteAt(s: Bytes, off: nat, data: Bytes): Bytes {
    if data == [] then s
    else
      var t := Padded(s, off + |data|);
      t[..off] + data + t[off + |data|..]
  }

  /** Size 0 means that the size is not known. */
  function Truncated(s: Bytes, size: nat): Bytes {
    if size == 0 then s else Padded(s, size)[..size]
  }

  predicate Restorable(f: File) {
    0 <= f.off && 0 <= f.len && 0 <= f.size
  }

  datatype CopyOp = CopyOp(src: Key, fMeta: File)

  function DataOf(stg: map<Key, Bytes>, src: Key): Bytes {
    if src in stg then stg[src] else []
  }

  /** The destination file after one copy; a missing one is created empty. */
  function CopyInto(stg: map<Key, Bytes>, s: Bytes, op: CopyOp): Bytes {
    if Restorable(op.fMeta) then Truncated(WriteAt(s, op.fMeta.off, DataOf(stg, op.src)), op.fMeta.size) else s
  }

  function CopyAllInto(stg: map<Key, Bytes>, s: Bytes, ops: seq<CopyOp>): Bytes {
    if ops == [] then s else CopyInto(stg, CopyAllInto(stg, s, ops[..|ops| - 1]), ops[|ops| - 1])
  }

  // ---------------------------------------------------------------------------------------------
  // The whole directory
  // ---------------------------------------------------------------------------------------------

  type Files = map<string, Bytes>

  /** A copy operation and its destination. */
  type Step = (string, CopyOp)

  function Lookup(fs: Files, dst: string): Bytes {
    if dst in fs then fs[dst] else []
  }

  function CopyStep(stg: map<Key, Bytes>, fs: Files, step: Step): Files {
    fs[step.0 := CopyInto(stg, Lookup(fs, step.0), step.1)]
  }

  function CopyAll(stg: map<Key, Bytes>, fs: Files, steps: seq<Step>): Files {
    if steps == [] then fs else CopyStep(stg, CopyAll(stg, fs, steps[..|steps| - 1]), steps[|steps| - 1])
  }

  /** What becomes of a file depends on its own operations only. */
  lemma {:induction false} FileByFile(stg: map<Key, Bytes>, fs: Files, steps: seq<Step>, dst: string)
    ensures dst in CopyAll(stg, fs, steps) <==> dst in fs || Project(steps, dst) != []
    ensures Lookup(CopyAll(stg, fs, steps), dst) == CopyAllInto(stg, Lookup(fs, dst), Project(steps, dst))
    decreases |steps|
  {
    if steps != [] {
      FileByFile(stg, fs, steps[..|steps| - 1], dst);
    }
  }

  /** Any two orders that agree on each destination leave the same files. */
  lemma OrderAcrossFilesIsFree(stg: map<Key, Bytes>, fs: Files, a: seq<Step>, b: seq<Step>)
    requires SameForEach(a, b)
    ensures CopyAll(stg, fs, a) == CopyAll(stg, fs, b)
  {
    var x, y := CopyAll(stg, fs, a), CopyAll(stg, fs, b);
    forall dst ensures (dst in x <==> dst in y) && Lookup(x, dst) == Lookup(y, dst) {
      FileByFile(stg, fs, a, dst);
      FileByFile(stg, fs, b, dst);
    }
    forall dst | dst in x ensures dst in y && x[dst] == y[dst] {
      assert Lookup(x, dst) == Lookup(y, dst);
    }
  }

  // ---------------------------------------------------------------------------------------------
  // Planning the copies
  // ---------------------------------------------------------------------------------------------

  /** The blocks that one backup of the chain contributes, or the directories to create. */
  datatype Layer = Layer(bcpName: string, data: seq<File>, dirsOnly: bool)

  datatype Job = Job(dst: string, ops: seq<CopyOp>)

  function LayerSteps(layer: Layer, n: nat): seq<Step>
    requires n <= |layer.data|
  {
    if layer.dirsOnly || n == 0 then []
    else
      var f := layer.data[n - 1];
      LayerSteps(layer, n - 1) + [(f.name, CopyOp(KeyOf(layer.bcpName, f), f))]
  }

  /** All copy operations in restore order: the last layer is the base and comes first. */
  function StepsFrom(layers: seq<Layer>, i: nat): seq<Step>
    requires i <= |layers|
    decreases |layers| - i
  {
    if i == |layers| then [] else StepsFrom(layers, i + 1) + LayerSteps(layers[i], |layers[i].data|)
  }

  predicate DistinctJobs(jobs: seq<Job>) {
    forall i, j :: 0 <= i < j < |jobs| ==> jobs[i].dst != jobs[j].dst
  }

  /** The jobs are the operations sorted by destination, each keeping its order. */
  ghost predicate Groups(jobs: seq<Job>, steps: seq<Step>) {
    && DistinctJobs(jobs)
    && (forall job :: job in jobs ==> job.ops == Project(steps, job.dst))
    && (forall dst :: Project(steps, dst) != [] ==> HasJob(jobs, dst))
  }

  /** The jobs while they are being planned; `idxByDst` says where the job of a destination is. */
  ghost predicate Planning(jobs: seq<Job>, idxByDst: map<string, nat>, steps: seq<Step>) {
    && (forall i :: 0 <= i < |jobs| ==> jobs[i].dst in idxByDst && idxByDst[jobs[i].dst] == i)
    && (forall dst :: dst in idxByDst ==>
          idxByDst[dst] < |jobs| && jobs[idxByDst[dst]] == Job(dst, Project(steps, dst)))
    && (forall dst :: dst !in idxByDst ==> Project(steps, dst) == [])
  }

  class PhysRestore {
    var files: seq<Layer>
    var stg: map<Key, Bytes>
    var fs: Files

    constructor (files: seq<Layer>, stg: map<Key, Bytes>, fs: Files)
      ensures this.files == files && this.stg == stg && this.fs == fs
    {
      this.files := files;
      this.stg := stg;
      this.fs := fs;
    }

    method Add(jobs0: seq<Job>, idx0: map<string, nat>, dst: string, op: CopyOp, isDir: bool, ghost steps: seq<Step>)
      returns (jobs: seq<Job>, idxByDst: map<string, nat>)
      requires Planning(jobs0, idx0, steps)
      ensures Planning(jobs, idxByDst, if isDir then steps else steps + [(dst, op)])
    {
      jobs, idxByDst := jobs0, idx0;
      if dst !in idxByDst {
        idxByDst := idxByDst[dst := |jobs|];
        jobs := jobs + [Job(dst, [])];
      }
      if !isDir {
        MoreOps(jobs, idxByDst, dst, op, steps);
        var idx := idxByDst[dst];
        jobs := jobs[idx := Job(dst, jobs[idx].ops + [op])];
      }
    }

    method AddEntry(jobs0: seq<Job>, idx0: map<string, nat>, layer: Layer, k: nat, ghost before: seq<Step>)
      returns (jobs: seq<Job>, idxByDst: map<string, nat>)
      requires k < |layer.data| && Planning(jobs0, idx0, before + LayerSteps(layer, k))
      ensures Planning(jobs, idxByDst, before + LayerSteps(layer, k + 1))
    {
      var f := layer.data[k];
      var op := CopyOp(KeyOf(layer.bcpName, f), f);
      ghost var steps := before + LayerSteps(layer, k);
      assert steps + [(f.name, op)] == before + (LayerSteps(layer, k) + [(f.name, op)]);
      jobs, idxByDst := Add(jobs0, idx0, f.name, op, layer.dirsOnly, steps);
    }

    method AddLayer(jobs0: seq<Job>, idx0: map<string, nat>, layer: Layer, ghost before: seq<Step>)
      returns (jobs: seq<Job>, idxByDst: map<string, nat>)
      requires Planning(jobs0, idx0, before)
      ensures Planning(jobs, idxByDst, before + LayerSteps(layer, |layer.data|))
    {
      jobs, idxByDst := jobs0, idx0;
      assert before + LayerSteps(layer, 0) == before;
      for k := 0 to |layer.data|
        invariant Planning(jobs, idxByDst, before + LayerSteps(layer, k))
      {
        jobs, idxByDst := AddEntry(jobs, idxByDst, layer, k, before);
      }
    }

    method PlanCopyFiles() returns (jobs: seq<Job>)
      ensures Groups(jobs, StepsFrom(files, 0))
    {
      jobs := [];
      var idxByDst: map<string, nat> := map[];
      var i: nat := |files|;
      while i > 0
        invariant i <= |files| && Planning(jobs, idxByDst, StepsFrom(files, i))
      {
        i := i - 1;
        jobs, idxByDst := AddLayer(jobs, idxByDst, files[i], StepsFrom(files, i + 1));
      }
      PlannedGroups(jobs, idxByDst, StepsFrom(files, 0));
    }

    method CopyFile(dst: string, op: CopyOp) returns (ok: bool)
      requires Restorable(op.fMeta)
      modifies this`fs
      ensures ok <==> op.src in stg
      ensures fs == if ok then CopyStep(stg, old(fs), (dst, op)) else old(fs)
    {
      if op.src !in stg {
        return false;
      }
      var s := if dst in fs then fs[dst] else [];
      s := WriteAt(s, op.fMeta.off, stg[op.src]);
      if op.fMeta.size != 0 {
        s := Truncated(s, op.fMeta.size);
      }
      fs := fs[dst := s];
      ok := true;
    }

    /** Runs the jobs side by side: at any moment any unfinished job may be the next to copy a block.
        Whatever the schedule, the files end up as if all operations ran one after the other. */
    method CopyFiles(jobs: seq<Job>, ghost steps: seq<Step>) returns (ok: bool)
      requires Groups(jobs, steps)
      requires forall job :: job in jobs ==> forall op :: op in job.ops ==> Restorable(op.fMeta)
      modifies this`fs
      ensures ok ==> fs == CopyAll(stg, old(fs), steps)
      ensures ok <==> forall job :: job in jobs ==> forall op :: op in job.ops ==> op.src in stg
    {
      var next: seq<nat> := seq(|jobs|, _ => 0);
      ghost var done: seq<Step> := [];
      var left := Unfinished(jobs, next);
      while left != {}
        invariant |next| == |jobs| && left == Unfinished(jobs, next)
        invariant Copying(jobs, next, done, stg, old(fs), fs)
        decreases Remaining(jobs, next, 0)
      {
        var j :| j in left;
        var op := jobs[j].ops[next[j]];
        assert jobs[j] in jobs && op in jobs[j].ops;
        label L:
        ok := CopyFile(jobs[j].dst, op);
        if !ok {
          return;
        }
        CopiedOneMore(jobs, next, done, j, stg, old(fs), old@L(fs));
        done := done + [(jobs[j].dst, op)];
        next := next[j := next[j] + 1];
        left := Unfinished(jobs, next);
      }
      AllDone(jobs, next, done, steps);
      AllFound(jobs, next, stg);
      OrderAcrossFilesIsFree(stg, old(fs), done, steps);
      ok := true;
    }
  }

  predicate HasJob(jobs: seq<Job>, dst: string) {
    exists job :: job in jobs && job.dst == dst
  }

  // --- grouping keeps the order ----------------------------------------------------------------

  lemma MoreOps(jobs: seq<Job>, idx: map<string, nat>, dst: string, op: CopyOp, steps: seq<Step>)
    requires Planning(jobs, idx, steps) && dst in idx
    ensures Planning(jobs[idx[dst] := Job(dst, jobs[idx[dst]].ops + [op])], idx, steps + [(dst, op)])
  {
    ProjectAppendAll(steps, dst, op);
    forall d | d !in idx ensures Project(steps + [(dst, op)], d) == [] {
      assert Project(steps, d) + [] == [];
    }
  }

  lemma ProjectAppendAll(steps: seq<Step>, dst: string, op: CopyOp)
    ensures forall d :: Project(steps + [(dst, op)], d) == Project(steps, d) + if d == dst then [op] else []
  {
    forall d ensures Project(steps + [(dst, op)], d) == Project(steps, d) + if d == dst then [op] else [] {
      ProjectAppend(steps, (dst, op), d);
    }
  }

  lemma PlannedGroups(jobs: seq<Job>, idx: map<string, nat>, steps: seq<Step>)
    requires Planning(jobs, idx, steps)
    ensures Groups(jobs, steps)
  {
    forall dst | dst in idx ensures HasJob(jobs, dst) {
      assert jobs[idx[dst]] in jobs;
    }
    forall job | job in jobs ensures job.ops == Project(steps, job.dst) {
      var i :| 0 <= i < |jobs| && jobs[i] == job;
      assert jobs[idx[job.dst]] == job;
    }
  }

  // --- running the jobs ------------------------------------------------------------------------

  /** What has been copied so far was there to be copied. */
  ghost predicate Found(jobs: seq<Job>, next: seq<nat>, stg: map<Key, Bytes>) {
    && |next| == |jobs|
    && forall j, k :: 0 <= j < |jobs| && 0 <= k < next[j] && k < |jobs[j].ops| ==> jobs[j].ops[k].src in stg
  }

  ghost predicate Copying(
    jobs: seq<Job>, next: seq<nat>, done: seq<Step>, stg: map<Key, Bytes>, fs0: Files, fs: Files)
  {
    Found(jobs, next, stg) && Progress(jobs, next, done) && fs == CopyAll(stg, fs0, done)
  }

  lemma CopiedOneMore(
    jobs: seq<Job>, next: seq<nat>, done: seq<Step>, j: nat, stg: map<Key, Bytes>, fs0: Files, fs: Files)
    requires Copying(jobs, next, done, stg, fs0, fs) && j < |jobs| && next[j] < |jobs[j].ops|
    requires jobs[j].ops[next[j]].src in stg
    ensures var step := (jobs[j].dst, jobs[j].ops[next[j]]);
      Copying(jobs, next[j := next[j] + 1], done + [step], stg, fs0, CopyStep(stg, fs, step))
    ensures Remaining(jobs, next[j := next[j] + 1], 0) == Remaining(jobs, next, 0) - 1
  {
    ProgressStep(jobs, next, done, j);
    var step := (jobs[j].dst, jobs[j].ops[next[j]]);
    assert (done + [step])[..|done + [step]| - 1] == done;
  }

  lemma AllFound(jobs: seq<Job>, next: seq<nat>, stg: map<Key, Bytes>)
    requires Found(jobs, next, stg) && Unfinished(jobs, next) == {}
    ensures forall job :: job in jobs ==> forall op :: op in job.ops ==> op.src in stg
  {
    forall j, k | 0 <= j < |jobs| && 0 <= k < |jobs[j].ops| ensures jobs[j].ops[k].src in stg {
      assert j !in Unfinished(jobs, next);
    }
  }

  function Unfinished(jobs: seq<Job>, next: seq<nat>): set<nat>
    requires |next| == |jobs|
  {
    set j | j in Below(|jobs|) && next[j] < |jobs[j].ops|
  }

  function Remaining(jobs: seq<Job>, next: seq<nat>, i: nat): nat
    requires |next| == |jobs| && i <= |jobs|
    decreases |jobs| - i
  {
    if i == |jobs| then 0
    else (if next[i] < |jobs[i].ops| then |jobs[i].ops| - next[i] else 0) + Remaining(jobs, next, i + 1)
  }

  /** Each job has run its first operations, in order, and nothing else ran. */
  ghost predicate Progress(jobs: seq<Job>, next: seq<nat>, done: seq<Step>)
    requires |next| == |jobs|
  {
    && (forall j :: 0 <= j < |jobs| ==>
          next[j] <= |jobs[j].ops| && Project(done, jobs[j].dst) == jobs[j].ops[..next[j]])
    && (forall dst :: Project(done, dst) != [] ==> HasJob(jobs, dst))
    && DistinctJobs(jobs)
  }

  lemma {:induction false} RemainingDrops(jobs: seq<Job>, next: seq<nat>, j: nat, i: nat)
    requires |next| == |jobs| && i <= |jobs| && j < |jobs| && next[j] < |jobs[j].ops|
    ensures Remaining(jobs, next[j := next[j] + 1], i) == Remaining(jobs, next, i) - if i <= j then 1 else 0
    decreases |jobs| - i
  {
    if i < |jobs| {
      RemainingDrops(jobs, next, j, i + 1);
    }
  }

  lemma ProgressStep(jobs: seq<Job>, next: seq<nat>, done: seq<Step>, j: nat)
    requires |next| == |jobs| && Progress(jobs, next, done) && j < |jobs| && next[j] < |jobs[j].ops|
    ensures Progress(jobs, next[j := next[j] + 1], done + [(jobs[j].dst, jobs[j].ops[next[j]])])
    ensures Remaining(jobs, next[j := next[j] + 1], 0) == Remaining(jobs, next, 0) - 1
  {
    RemainingDrops(jobs, next, j, 0);
    var step := (jobs[j].dst, jobs[j].ops[next[j]]);
    var next' := next[j := next[j] + 1];
    forall i | 0 <= i < |jobs|
      ensures next'[i] <= |jobs[i].ops| && Project(done + [step], jobs[i].dst) == jobs[i].ops[..next'[i]]
    {
      ProjectAppend(done, step, jobs[i].dst);
      if i == j {
        assert jobs[i].ops[..next[i]] + [step.1] == jobs[i].ops[..next'[i]];
      } else {
        assert jobs[i].dst != jobs[j].dst;
      }
    }
    forall dst | Project(done + [step], dst) != [] ensures HasJob(jobs, dst) {
      ProjectAppend(done, step, dst);
      assert jobs[j] in jobs;
    }
  }

  lemma AllDone(jobs: seq<Job>, next: seq<nat>, done: seq<Step>, steps: seq<Step>)
    requires |next| == |jobs| && Progress(jobs, next, done) && Unfinished(jobs, next) == {} && Groups(jobs, steps)
    ensures SameForEach(done, steps)
  {
    forall dst ensures Project(done, dst) == Project(steps, dst) {
      if HasJob(jobs, dst) {
        var job :| job in jobs && job.dst == dst;
        var j :| 0 <= j < |jobs| && jobs[j] == job;
        assert j in Below(|jobs|);
        assert j !in Unfinished(jobs, next);
        assert jobs[j].ops[..next[j]] == jobs[j].ops;
      }
    }
  }
}

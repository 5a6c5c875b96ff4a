/** Incremental physical backup and restore: which blocks of the files reported by the backup cursor
    are uploaded (pbm/backup/physical.go), which uploaded blocks a restore collects along the chain
    of backups, and how they are written over each other (pbm/restore/physical.go).

    A file is a sequence of bytes, the storage a map from object keys to bytes. */
module Incremental {
  import opened Options

  type Bytes = seq<bv8>

  /** One entry of a file list: the block of `len` bytes at `off` of a file that has `size` bytes.
      Offset and length 0 stand for the whole file, offset and length -1 for "unchanged". */
  datatype File = File(name: string, off: int, len: int, size: int)

  // ---------------------------------------------------------------------------------------------
  // Planning the upload
  // ---------------------------------------------------------------------------------------------

  datatype UpItem = UpItem(file: File, upload: bool)

  /** The plan so far and the pending upload. */
  datatype Plan = Plan(items: seq<UpItem>, wfile: File)

  /** Unchanged files, and blocks that lie behind the end of the file, are not uploaded. */
  predicate Skips(incr: bool, f: File) {
    incr && (f.len == 0 || f.off >= f.size)
  }

  predicate Extends(wfile: File, f: File) {
    wfile.name == f.name && wfile.off + wfile.len == f.off
  }

  function PlanStep(incr: bool, p: Plan, f: File): Plan {
    if Skips(incr, f) then Plan(p.items + [UpItem(f.(off := -1, len := -1), false)], p.wfile)
    else if Extends(p.wfile, f) then Plan(p.items, p.wfile.(len := p.wfile.len + f.len, size := f.size))
    else Plan(p.items + [UpItem(p.wfile, true)], f)
  }

  function PlanFold(files: seq<File>, incr: bool): Plan
    requires files != []
  {
    if |files| == 1 then Plan([], files[0])
    else PlanStep(incr, PlanFold(files[..|files| - 1], incr), files[|files| - 1])
  }

  predicate IsNoOp(incr: bool, wfile: File) {
    incr && wfile.off == 0 && wfile.len == 0
  }

  function PlanOf(files: seq<File>, incr: bool): seq<UpItem> {
    if files == [] then []
    else
      var p := PlanFold(files, incr);
      if IsNoOp(incr, p.wfile) then p.items else p.items + [UpItem(p.wfile, true)]
  }

  method PlanUploads(files: seq<File>, incr: bool) returns (upItems: seq<UpItem>)
    ensures upItems == PlanOf(files, incr)
  {
    if |files| == 0 {
      return [];
    }
    upItems := [];
    var wfile := files[0];
    for i := 1 to |files|
      invariant Plan(upItems, wfile) == PlanFold(files[..i], incr)
    {
      assert files[..i + 1][..i] == files[..i];
      var file := files[i];
      if incr && (file.len == 0 || file.off >= file.size) {
        file := file.(off := -1, len := -1);
        upItems := upItems + [UpItem(file, false)];
        continue;
      }
      if wfile.name == file.name && wfile.off + wfile.len == file.off {
        wfile := wfile.(len := wfile.len + file.len, size := file.size);
        continue;
      }
      upItems := upItems + [UpItem(wfile, true)];
      wfile := file;
    }
    assert files[..|files|] == files;
    if !incr || wfile.off != 0 || wfile.len != 0 {
      upItems := upItems + [UpItem(wfile, true)];
    }
  }

  // --- the plan uploads the blocks that were reported ------------------------------------------

  predicate Spans(f: File, name: string, p: nat) {
    f.name == name && f.off <= p < f.off + f.len
  }

  predicate IsWhole(f: File, name: string) {
    f.name == name && f.off == 0 && f.len == 0
  }

  /** A file list as the backup cursor gives it: nothing negative, and only whole files have length 0. */
  predicate Plain(files: seq<File>) {
    forall f :: f in files ==> 0 <= f.off && 0 <= f.len && (f.len == 0 ==> f.off == 0)
  }

  /** Unchanged, or a block that lies behind the end of the file. */
  predicate HasNothingNew(f: File) {
    f.len == 0 || f.off >= f.size
  }

  /** Byte `p` of file `name` lies in a block that is reported; in an increment, other than the first entry,
      one that has something new. */
  predicate ReportsByte(files: seq<File>, incr: bool, name: string, p: nat) {
    files != [] &&
    var f := files[|files| - 1];
    if |files| == 1 then Spans(f, name, p)
    else ((incr ==> !HasNothingNew(f)) && Spans(f, name, p)) || ReportsByte(files[..|files| - 1], incr, name, p)
  }

  predicate UploadsByte(items: seq<UpItem>, name: string, p: nat) {
    exists it :: it in items && it.upload && Spans(it.file, name, p)
  }

  lemma UploadsByteAppend(items: seq<UpItem>, it: UpItem, name: string, p: nat)
    ensures UploadsByte(items + [it], name, p) <==>
      UploadsByte(items, name, p) || (it.upload && Spans(it.file, name, p))
  {
    if UploadsByte(items, name, p) {
      var x :| x in items && x.upload && Spans(x.file, name, p);
      assert x in items + [it];
    }
    assert it in items + [it];
  }

  lemma PendingIsPlain(files: seq<File>, incr: bool)
    requires Plain(files) && files != []
    ensures 0 <= PlanFold(files, incr).wfile.off && 0 <= PlanFold(files, incr).wfile.len
  {
    var before := files[..|files| - 1];
    assert files[|files| - 1] in files;
    if |files| > 1 {
      assert forall f :: f in before ==> f in files;
      PendingIsPlain(before, incr);
    }
  }

  predicate PlainItem(it: UpItem) {
    if it.upload then 0 <= it.file.off && 0 <= it.file.len && (it.file.len == 0 ==> it.file.off == 0)
    else it.file.off == -1 && it.file.len == -1
  }

  /** The uploads planned are as plain as the blocks reported, the other items are marked unchanged. */
  lemma PlanIsPlain(files: seq<File>, incr: bool)
    requires Plain(files)
    ensures forall it :: it in PlanOf(files, incr) ==> PlainItem(it)
  {
    if files != [] {
      FoldIsPlain(files, incr);
    }
  }

  lemma {:induction false} FoldIsPlain(files: seq<File>, incr: bool)
    requires Plain(files) && files != []
    ensures var q := PlanFold(files, incr);
      (forall it :: it in q.items ==> PlainItem(it)) && PlainItem(UpItem(q.wfile, true))
    decreases |files|
  {
    assert files[|files| - 1] in files;
    if |files| > 1 {
      var before := files[..|files| - 1];
      assert forall f :: f in before ==> f in files;
      FoldIsPlain(before, incr);
    }
  }

  lemma {:induction false} FoldKeepsBytes(files: seq<File>, incr: bool, name: string, p: nat)
    requires Plain(files) && files != []
    ensures var q := PlanFold(files, incr);
      UploadsByte(q.items, name, p) || Spans(q.wfile, name, p) <==> ReportsByte(files, incr, name, p)
    decreases |files|
  {
    if |files| > 1 {
      var before, f := files[..|files| - 1], files[|files| - 1];
      assert forall g :: g in before ==> g in files;
      assert f in files;
      FoldKeepsBytes(before, incr, name, p);
      PendingIsPlain(before, incr);
      var q := PlanFold(before, incr);
      if Skips(incr, f) {
        UploadsByteAppend(q.items, UpItem(f.(off := -1, len := -1), false), name, p);
      } else if !Extends(q.wfile, f) {
        UploadsByteAppend(q.items, UpItem(q.wfile, true), name, p);
      }
    }
  }

  /** Coalescing neither adds nor loses a byte: the blocks uploaded cover exactly the bytes of the
      blocks reported. */
  lemma PlanKeepsBytes(files: seq<File>, incr: bool, name: string, p: nat)
    requires Plain(files)
    ensures UploadsByte(PlanOf(files, incr), name, p) <==> ReportsByte(files, incr, name, p)
  {
    if files != [] {
      FoldKeepsBytes(files, incr, name, p);
      PendingIsPlain(files, incr);
      var q := PlanFold(files, incr);
      UploadsByteAppend(q.items, UpItem(q.wfile, true), name, p);
    }
  }

  // --- unchanged files are recorded --------------------------------------------------------------

  predicate IsMarkOf(it: UpItem, f: File) {
    it.file.name == f.name && it.file.size == f.size && it.file.off == -1 && it.file.len == -1
  }

  /** Among the first `n` entries, but for the very first, `it` marks one with nothing new. */
  predicate MarksOne(files: seq<File>, n: nat, it: UpItem) {
    exists i :: 0 < i < n <= |files| && HasNothingNew(files[i]) && IsMarkOf(it, files[i])
  }

  lemma {:induction false} FoldMarks(files: seq<File>, incr: bool, it: UpItem)
    requires files != [] && !it.upload
    ensures it in PlanFold(files, incr).items <==> incr && MarksOne(files, |files|, it)
    decreases |files|
  {
    if |files| > 1 {
      var before, f := files[..|files| - 1], files[|files| - 1];
      FoldMarks(before, incr, it);
      assert MarksOne(before, |before|, it) <==> MarksOne(files, |files| - 1, it);
      assert MarksOne(files, |files|, it) <==>
        MarksOne(files, |files| - 1, it) || (HasNothingNew(f) && IsMarkOf(it, f));
    }
  }

  /** What is planned without an upload marks, in an increment, exactly the entries with nothing new, the first
      one aside: by offset and length -1, with the size kept. */
  lemma UnchangedAreMarked(files: seq<File>, incr: bool, it: UpItem)
    requires !it.upload
    ensures it in PlanOf(files, incr) <==> incr && MarksOne(files, |files|, it)
  {
    if files != [] {
      FoldMarks(files, incr, it);
    }
  }

  // --- the plan mentions the files that were reported ------------------------------------------

  predicate Listed(files: seq<File>, name: string) {
    exists f :: f in files && f.name == name
  }

  predicate Planned(items: seq<UpItem>, name: string) {
    exists it :: it in items && it.file.name == name
  }

  lemma PlannedAppend(items: seq<UpItem>, it: UpItem, name: string)
    ensures Planned(items + [it], name) <==> Planned(items, name) || it.file.name == name
  {
    if Planned(items, name) {
      var x :| x in items && x.file.name == name;
      assert x in items + [it];
    }
    assert it in items + [it];
  }

  lemma ListedLast(files: seq<File>, name: string)
    requires files != []
    ensures Listed(files, name) <==> Listed(files[..|files| - 1], name) || files[|files| - 1].name == name
  {
    var before, f := files[..|files| - 1], files[|files| - 1];
    assert files == before + [f];
    assert f in files;
    if Listed(before, name) {
      var g :| g in before && g.name == name;
      assert g in files;
    }
  }

  lemma {:induction false} FoldKeepsNames(files: seq<File>, incr: bool, name: string)
    requires files != []
    ensures var q := PlanFold(files, incr); Planned(q.items, name) || q.wfile.name == name <==> Listed(files, name)
    decreases |files|
  {
    ListedLast(files, name);
    if |files| == 1 {
      assert files[..0] == [];
    } else {
      var before, f := files[..|files| - 1], files[|files| - 1];
      FoldKeepsNames(before, incr, name);
      var q := PlanFold(before, incr);
      if Skips(incr, f) {
        PlannedAppend(q.items, UpItem(f.(off := -1, len := -1), false), name);
      } else if !Extends(q.wfile, f) {
        PlannedAppend(q.items, UpItem(q.wfile, true), name);
      }
    }
  }

  /** The guard of the last step of the planning seen from its input: an unchanged first entry after
      which nothing is uploaded, of a file that is not mentioned again. */
  predicate LosesHead(files: seq<File>, incr: bool) {
    && incr && files != []
    && files[0].off == 0 && files[0].len == 0
    && forall i :: 0 < i < |files| ==> HasNothingNew(files[i]) && files[i].name != files[0].name
  }

  lemma {:induction false} PendingNoOp(files: seq<File>, incr: bool)
    requires Plain(files) && files != [] && incr
    ensures IsNoOp(incr, PlanFold(files, incr).wfile) <==>
      files[0].off == 0 && files[0].len == 0 && forall i :: 0 < i < |files| ==> Skips(incr, files[i])
    ensures IsNoOp(incr, PlanFold(files, incr).wfile) ==>
      PlanFold(files, incr).wfile == files[0] && |PlanFold(files, incr).items| == |files| - 1
    ensures IsNoOp(incr, PlanFold(files, incr).wfile) ==>
      forall i :: 0 < i < |files| ==> PlanFold(files, incr).items[i - 1].file.name == files[i].name
    decreases |files|
  {
    if |files| > 1 {
      var before, f := files[..|files| - 1], files[|files| - 1];
      assert forall g :: g in before ==> g in files;
      assert f in files;
      PendingNoOp(before, incr);
      PendingIsPlain(before, incr);
      NoOpStep(incr, PlanFold(before, incr), f);
      assert forall i :: 0 < i < |before| ==> before[i] == files[i];
    }
  }

  /** The pending upload stays one that is dropped as long as everything is skipped. */
  lemma NoOpStep(incr: bool, p: Plan, f: File)
    requires incr && 0 <= p.wfile.off && 0 <= p.wfile.len && 0 <= f.off && 0 <= f.len
    ensures var q := PlanStep(incr, p, f);
      && (IsNoOp(incr, q.wfile) <==> IsNoOp(incr, p.wfile) && Skips(incr, f))
      && (IsNoOp(incr, q.wfile) ==>
            q.wfile == p.wfile && |q.items| == |p.items| + 1 && q.items[|p.items|].file.name == f.name
            && q.items[..|p.items|] == p.items)
  {
  }

  /** Every file of the list is in the plan, unless the list loses its head. */
  lemma NoNameLost(files: seq<File>, incr: bool)
    requires Plain(files)
    ensures (forall name :: Listed(files, name) ==> Planned(PlanOf(files, incr), name)) <==> !LosesHead(files, incr)
  {
    if files != [] {
      var q := PlanFold(files, incr);
      forall name ensures Planned(q.items + [UpItem(q.wfile, true)], name) <==> Listed(files, name) {
        FoldKeepsNames(files, incr, name);
        PlannedAppend(q.items, UpItem(q.wfile, true), name);
      }
      if incr {
        PendingNoOp(files, incr);
        if IsNoOp(incr, q.wfile) {
          HeadAmongOthers(files, incr);
        }
      }
    }
  }

  lemma {:induction false} HeadAmongOthers(files: seq<File>, incr: bool)
    requires Plain(files) && files != [] && incr && IsNoOp(incr, PlanFold(files, incr).wfile)
    ensures (forall name :: Listed(files, name) ==> Planned(PlanFold(files, incr).items, name)) <==>
      !LosesHead(files, incr)
  {
    var items := PlanFold(files, incr).items;
    PendingNoOp(files, incr);
    assert files[0] in files && Listed(files, files[0].name);
    forall name | name != files[0].name ensures Listed(files, name) ==> Planned(items, name) {
      FoldKeepsNames(files, incr, name);
    }
    if i :| 0 < i < |files| && files[i].name == files[0].name {
      assert items[i - 1] in items;
      assert Planned(items, files[0].name);
    }
    if Planned(items, files[0].name) {
      var it :| it in items && it.file.name == files[0].name;
      var k :| 0 <= k < |items| && items[k] == it;
      assert items[k + 1 - 1].file.name == files[k + 1].name;
    }
  }

  /** Nothing gets into the plan that was not reported. */
  lemma NothingInvented(files: seq<File>, incr: bool, name: string)
    requires Planned(PlanOf(files, incr), name)
    ensures Listed(files, name)
  {
    var q := PlanFold(files, incr);
    FoldKeepsNames(files, incr, name);
    PlannedAppend(q.items, UpItem(q.wfile, true), name);
  }

  // --- whole files -----------------------------------------------------------------------------

  predicate PlansWhole(items: seq<UpItem>, name: string) {
    exists it :: it in items && it.upload && IsWhole(it.file, name)
  }

  lemma PlansWholeAppend(items: seq<UpItem>, it: UpItem, name: string)
    ensures PlansWhole(items + [it], name) <==> PlansWhole(items, name) || (it.upload && IsWhole(it.file, name))
  {
    if PlansWhole(items, name) {
      var x :| x in items && x.upload && IsWhole(x.file, name);
      assert x in items + [it];
    }
    assert it in items + [it];
  }

  lemma {:induction false} FoldKeepsWhole(files: seq<File>, name: string)
    requires files != [] && forall f :: f in files && f.name == name ==> IsWhole(f, name)
    ensures var q := PlanFold(files, false);
      (PlansWhole(q.items, name) || IsWhole(q.wfile, name) <==> Listed(files, name)) &&
      (q.wfile.name == name ==> IsWhole(q.wfile, name))
    decreases |files|
  {
    ListedLast(files, name);
    assert files[|files| - 1] in files;
    if |files| == 1 {
      assert files[..0] == [];
    } else {
      var before, f := files[..|files| - 1], files[|files| - 1];
      assert forall g :: g in before ==> g in files;
      FoldKeepsWhole(before, name);
      var q := PlanFold(before, false);
      PlansWholeAppend(q.items, UpItem(q.wfile, true), name);
    }
  }

  /** Files that are reported whole, like the journals, are uploaded whole. */
  lemma WholeFilesStayWhole(files: seq<File>, name: string)
    requires forall f :: f in files && f.name == name ==> f.off == 0 && f.len == 0
    ensures PlansWhole(PlanOf(files, false), name) <==> Listed(files, name)
  {
    if files != [] {
      FoldKeepsWhole(files, name);
      var q := PlanFold(files, false);
      PlansWholeAppend(q.items, UpItem(q.wfile, true), name);
    }
  }
}

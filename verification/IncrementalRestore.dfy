/** Uploading the planned blocks, collecting them along the chain of backups, and copying them over
    each other, base first (pbm/backup/physical.go, pbm/restore/physical.go). */
module IncrementalRestore {
  import opened Options
  import opened Incremental
  import opened Interleaving

  // ---------------------------------------------------------------------------------------------
  // Objects on the storage
  // ---------------------------------------------------------------------------------------------

  /** The path of an object: backup, file name and, except for length 0, offset and length. */
  datatype Key = Key(bcp: string, name: string, part: Option<(int, int)>)

  function KeyOf(bcp: string, f: File): Key {
    Key(bcp, f.name, if f.len == 0 then None else Some((f.off, f.len)))
  }

  function Clip(x: int, n: nat): nat {
    if x < 0 then 0 else if x > n then n else x
  }

  /** What reading a block of a file gives: a block that reaches behind the end is cut. */
  function Content(off: int, len: int, s: Bytes): Bytes
    requires 0 <= len
  {
    if off == 0 && len == 0 then s else s[Clip(off, |s|)..Clip(off + len, |s|)]
  }

  /** What the backup meta says about an item: an uploaded one gets the size the file has on disk. */
  function RecordOf(it: UpItem, disk: map<string, Bytes>): File {
    if it.upload && it.file.name in disk then it.file.(size := |disk[it.file.name]|) else it.file
  }

  function Records(items: seq<UpItem>, disk: map<string, Bytes>): (files: seq<File>)
    ensures |files| == |items|
    ensures forall i :: 0 <= i < |items| ==> files[i] == RecordOf(items[i], disk)
  {
    seq(|items|, i requires 0 <= i < |items| => RecordOf(items[i], disk))
  }

  predicate OnDisk(items: seq<UpItem>, disk: map<string, Bytes>) {
    forall it :: it in items && it.upload ==> it.file.name in disk
  }

  /** The object of a recorded block holds the bytes the block has on disk. */
  predicate Stored(stg: map<Key, Bytes>, bcp: string, f: File, disk: map<string, Bytes>) {
    0 <= f.off && 0 <= f.len && f.name in disk ==>
      KeyOf(bcp, f) in stg && stg[KeyOf(bcp, f)] == Content(f.off, f.len, disk[f.name])
  }

  /** Length 0 stands for the whole file. */
  predicate IsBlock(f: File) {
    f.len == 0 ==> f.off == 0
  }

  /** What of this state of the files has been stored before stays stored. */
  ghost predicate KeepsStored(stg0: map<Key, Bytes>, stg: map<Key, Bytes>, bcp: string, disk: map<string, Bytes>) {
    forall f :: IsBlock(f) && Stored(stg0, bcp, f, disk) ==> Stored(stg, bcp, f, disk)
  }

  /** The uploads run in any order; each result goes to the place of its item. */
  method UploadFiles(bcp: string, files: seq<File>, incr: bool, disk: map<string, Bytes>, stg0: map<Key, Bytes>)
    returns (results: seq<File>, stg: map<Key, Bytes>, ok: bool)
    requires Plain(files)
    ensures ok <==> OnDisk(PlanOf(files, incr), disk)
    ensures ok ==> results == Records(PlanOf(files, incr), disk)
    ensures ok ==> forall f :: f in results ==> Stored(stg, bcp, f, disk)
    ensures ok ==> forall k :: k in stg0 && k.bcp != bcp ==> k in stg && stg[k] == stg0[k]
    ensures ok ==> KeepsStored(stg0, stg, bcp, disk)
  {
    var items := PlanUploads(files, incr);
    PlanIsPlain(files, incr);
    stg, ok := stg0, true;
    var slots := new File[|items|](_ => File("", 0, 0, 0));
    var pending := Below(|items|);
    while pending != {}
      invariant forall i :: i in pending ==> i < |items|
      invariant forall i: nat :: i < |items| && i !in pending ==> Placed(items[i], slots[i], bcp, disk, stg)
      invariant forall k :: k in stg0 && k.bcp != bcp ==> k in stg && stg[k] == stg0[k]
      invariant KeepsStored(stg0, stg, bcp, disk)
      decreases pending
    {
      var i :| i in pending;
      pending := pending - {i};
      var file := items[i].file;
      if items[i].upload {
        if file.name !in disk {
          assert items[i] in items;
          return [], stg0, false;
        }
        assert PlainItem(items[i]);
        KeepsPlaced(items, slots[..], pending, i, bcp, disk, stg);
        StoringKeeps(stg, bcp, file, disk);
        stg := stg[KeyOf(bcp, file) := Content(file.off, file.len, disk[file.name])];
        file := file.(size := |disk[file.name]|);
      }
      slots[i] := file;
    }
    results := slots[..];
    PlacedAll(items, results, bcp, disk, stg);
  }

  /** The item is done: recorded, and on the storage if it was to be uploaded. */
  predicate Placed(it: UpItem, f: File, bcp: string, disk: map<string, Bytes>, stg: map<Key, Bytes>) {
    && f == RecordOf(it, disk)
    && PlainItem(it)
    && (it.upload ==> it.file.name in disk && Stored(stg, bcp, it.file, disk))
  }

  /** Two uploads with the same object key upload the same bytes. */
  lemma KeepsPlaced(
    items: seq<UpItem>, slots: seq<File>, pending: set<nat>, i: nat, bcp: string, disk: map<string, Bytes>,
    stg: map<Key, Bytes>)
    requires |slots| == |items| && i < |items| && items[i].upload && items[i].file.name in disk && PlainItem(items[i])
    ensures var f := items[i].file;
      var stg' := stg[KeyOf(bcp, f) := Content(f.off, f.len, disk[f.name])];
      Stored(stg', bcp, f, disk) &&
      forall j: nat :: j < |items| && Placed(items[j], slots[j], bcp, disk, stg) ==>
        Placed(items[j], slots[j], bcp, disk, stg')
  {
  }

  lemma StoringKeeps(stg: map<Key, Bytes>, bcp: string, g: File, disk: map<string, Bytes>)
    requires g.name in disk && 0 <= g.len && IsBlock(g)
    ensures KeepsStored(stg, stg[KeyOf(bcp, g) := Content(g.off, g.len, disk[g.name])], bcp, disk)
  {
  }

  lemma PlacedAll(items: seq<UpItem>, results: seq<File>, bcp: string, disk: map<string, Bytes>, stg: map<Key, Bytes>)
    requires |results| == |items|
    requires forall i: nat :: i < |items| ==> Placed(items[i], results[i], bcp, disk, stg)
    ensures OnDisk(items, disk) && results == Records(items, disk)
    ensures forall f :: f in results ==> Stored(stg, bcp, f, disk)
  {
    forall f | f in results ensures Stored(stg, bcp, f, disk) {
      var i :| 0 <= i < |results| && results[i] == f;
      assert Placed(items[i], results[i], bcp, disk, stg);
    }
  }

  function Below(n: nat): (s: set<nat>)
    ensures forall i: nat :: i in s <==> i < n
  {
    if n == 0 then {} else Below(n - 1) + {n - 1}
  }
}

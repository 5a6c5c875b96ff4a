/** Backup metadata and the links between incremental backups (pbm/backup, pbm/lifecycle/manager.go). */
module Backups {
  import opened Options
  import opened Timestamps

  datatype Kind = Logical | Physical | Incremental | External

  datatype Status = Active | Done | Cancelled | Error

  /** `src` names the backup an increment is based on and is empty otherwise. */
  datatype Meta = Meta(
    name: string, kind: Kind, status: Status, src: string, selective: bool, isProfile: bool, lastWriteTS: Timestamp,
    startTS: int)

  predicate IsRunning(b: Meta) {
    b.status == Active
  }

  /** A restore, and with the oplog a PITR, can start from it. */
  predicate IsValidBaseSnapshot(b: Meta) {
    b.status == Done && b.kind != External && !b.selective
  }

  /** Names identify backups, and only increments have a source. */
  predicate Proper(bs: seq<Meta>) {
    && (forall i, j :: 0 <= i < j < |bs| ==> bs[i].name != bs[j].name)
    && (forall b :: b in bs ==> b.name != "" && (b.kind != Incremental ==> b.src == ""))
  }

  /** The incremental backups by name. */
  function ByName(bs: seq<Meta>): map<string, Meta> {
    if bs == [] then map[]
    else
      var b := bs[|bs| - 1];
      if b.kind == Incremental then ByName(bs[..|bs| - 1])[b.name := b] else ByName(bs[..|bs| - 1])
  }

  predicate Indexes(byName: map<string, Meta>) {
    forall n :: n in byName ==> byName[n].name == n
  }

  lemma ProperPrefix(bs: seq<Meta>)
    requires Proper(bs) && bs != []
    ensures Proper(bs[..|bs| - 1]) && bs[|bs| - 1] !in bs[..|bs| - 1]
    ensures forall b :: b in bs[..|bs| - 1] ==> b in bs && b.name != bs[|bs| - 1].name
    ensures forall b :: b in bs ==> b in bs[..|bs| - 1] || b == bs[|bs| - 1]
  {
  }

  lemma {:induction false} ByNameFinds(bs: seq<Meta>)
    requires Proper(bs)
    ensures Indexes(ByName(bs))
    ensures forall n :: n in ByName(bs) ==> ByName(bs)[n] in bs && ByName(bs)[n].kind == Incremental
    ensures forall b :: b in bs && b.kind == Incremental ==> b.name in ByName(bs) && ByName(bs)[b.name] == b
    decreases |bs|
  {
    if bs != [] {
      ProperPrefix(bs);
      ByNameFinds(bs[..|bs| - 1]);
    }
  }

  lemma SameName(bs: seq<Meta>, a: Meta, b: Meta)
    requires Proper(bs) && a in bs && b in bs && a.name == b.name
    ensures a == b
  {
  }

  // ---------------------------------------------------------------------------------------------
  // Following the source links
  // ---------------------------------------------------------------------------------------------

  /** The base that the source links of `b` lead to; nothing when a link is missing or they run in a
      circle. */
  function FindBase(b: Meta, byName: map<string, Meta>, seen: set<string>): Option<Meta>
    requires Indexes(byName) && b.name in byName
    decreases byName.Keys - seen
  {
    if b.src == "" then if b.name == "" then None else Some(b)
    else if b.name in seen || b.src !in byName then None
    else
      assert b.name in byName.Keys - seen && b.name !in byName.Keys - (seen + {b.name});
      FindBase(byName[b.src], byName, seen + {b.name})
  }

  method FindIncrementalBase(bcp0: Meta, byName: map<string, Meta>) returns (r: Option<Meta>)
    requires Indexes(byName) && bcp0.name in byName
    ensures r == FindBase(bcp0, byName, {})
  {
    var bcp := bcp0;
    var seen: set<string> := {};
    while bcp.src != ""
      invariant bcp.name in byName
      invariant FindBase(bcp, byName, seen) == FindBase(bcp0, byName, {})
      decreases byName.Keys - seen, bcp.src != ""
    {
      if bcp.name in seen {
        return None;
      }
      if bcp.src !in byName {
        return None;
      }
      assert bcp.name in byName.Keys - seen && bcp.name !in byName.Keys - (seen + {bcp.name});
      seen := seen + {bcp.name};
      bcp := byName[bcp.src];
    }
    r := if bcp.name != "" then Some(bcp) else None;
  }

  /** The backup and all its ancestors are done, down to a base. */
  predicate IsComplete(b: Meta, byName: map<string, Meta>, seen: set<string>)
    requires Indexes(byName) && b.name in byName
    decreases byName.Keys - seen
  {
    b.status == Done &&
    (b.src == "" ||
     (b.name !in seen && b.src in byName &&
      (assert b.name in byName.Keys - seen && b.name !in byName.Keys - (seen + {b.name});
       IsComplete(byName[b.src], byName, seen + {b.name}))))
  }

  method IsCompleteIncrementalRestorePoint(bcp0: Meta, byName: map<string, Meta>) returns (r: bool)
    requires Indexes(byName) && bcp0.name in byName
    ensures r == IsComplete(bcp0, byName, {})
  {
    var bcp := bcp0;
    var seen: set<string> := {};
    while true
      invariant bcp.name in byName
      invariant IsComplete(bcp, byName, seen) == IsComplete(bcp0, byName, {})
      decreases byName.Keys - seen
    {
      if bcp.status != Done {
        return false;
      }
      if bcp.src == "" {
        return true;
      }
      if bcp.name in seen {
        return false;
      }
      if bcp.src !in byName {
        return false;
      }
      assert bcp.name in byName.Keys - seen && bcp.name !in byName.Keys - (seen + {bcp.name});
      seen := seen + {bcp.name};
      bcp := byName[bcp.src];
    }
  }

  /** A search that succeeds does not depend on what was seen before it. */
  lemma {:induction false} FindBaseSeenLess(b: Meta, byName: map<string, Meta>, seen: set<string>, less: set<string>)
    requires Indexes(byName) && b.name in byName && less <= seen
    requires FindBase(b, byName, seen).Some?
    ensures FindBase(b, byName, less) == FindBase(b, byName, seen)
    decreases byName.Keys - seen
  {
    if b.src != "" {
      assert b.name in byName.Keys - seen && b.name !in byName.Keys - (seen + {b.name});
      FindBaseSeenLess(byName[b.src], byName, seen + {b.name}, less + {b.name});
    }
  }

  /** Parent and child have the same base. */
  lemma ParentHasSameBase(b: Meta, byName: map<string, Meta>)
    requires Indexes(byName) && b.name in byName && FindBase(b, byName, {}).Some? && b.src != ""
    ensures b.src in byName && FindBase(byName[b.src], byName, {}) == FindBase(b, byName, {})
  {
    FindBaseSeenLess(byName[b.src], byName, {} + {b.name}, {});
  }

  lemma {:induction false} BaseIsBase(b: Meta, byName: map<string, Meta>, seen: set<string>)
    requires Indexes(byName) && b.name in byName && FindBase(b, byName, seen).Some?
    ensures var x := FindBase(b, byName, seen).value;
      x.src == "" && (x == b || (x.name in byName && byName[x.name] == x))
    decreases byName.Keys - seen
  {
    if b.src != "" {
      assert b.name in byName.Keys - seen && b.name !in byName.Keys - (seen + {b.name});
      BaseIsBase(byName[b.src], byName, seen + {b.name});
    }
  }

  lemma {:induction false} CompleteHasBase(b: Meta, byName: map<string, Meta>, seen: set<string>)
    requires Indexes(byName) && b.name in byName && b.name != "" && "" !in byName
    requires IsComplete(b, byName, seen)
    ensures FindBase(b, byName, seen).Some?
    decreases byName.Keys - seen
  {
    if b.src != "" {
      assert b.name in byName.Keys - seen && b.name !in byName.Keys - (seen + {b.name});
      CompleteHasBase(byName[b.src], byName, seen + {b.name});
    }
  }

  // ---------------------------------------------------------------------------------------------
  // What following the links finds
  // ---------------------------------------------------------------------------------------------

  /** From a backup down to a base, each the source of the one before it, none twice. */
  predicate IsLineDown(byName: map<string, Meta>, line: seq<Meta>) {
    && line != [] && line[|line| - 1].src == ""
    && (forall i :: 0 <= i < |line| - 1 ==>
          line[i].src != "" && line[i].src in byName && byName[line[i].src] == line[i + 1])
    && (forall i, j :: 0 <= i < j < |line| - 1 ==> line[i].name != line[j].name)
  }

  /** None but the last was seen before. */
  predicate IsNew(line: seq<Meta>, seen: set<string>) {
    forall i :: 0 <= i < |line| - 1 ==> line[i].name !in seen
  }

  predicate AllDone(line: seq<Meta>) {
    forall m :: m in line ==> m.status == Done
  }

  ghost predicate HasLineTo(byName: map<string, Meta>, b: Meta, seen: set<string>, base: Meta) {
    exists line :: IsLineDown(byName, line) && IsNew(line, seen) && line[0] == b && line[|line| - 1] == base
  }

  ghost predicate HasDoneLine(byName: map<string, Meta>, b: Meta, seen: set<string>) {
    exists line :: IsLineDown(byName, line) && IsNew(line, seen) && line[0] == b
                   && AllDone(line)
  }

  lemma LineGrows(byName: map<string, Meta>, b: Meta, line: seq<Meta>, seen: set<string>)
    requires IsLineDown(byName, line) && IsNew(line, seen + {b.name}) && b.name !in seen
    requires b.src != "" && b.src in byName && byName[b.src] == line[0]
    ensures IsLineDown(byName, [b] + line) && IsNew([b] + line, seen)
  {
    var longer := [b] + line;
    forall i | 0 <= i < |longer| - 1
      ensures longer[i].src != "" && longer[i].src in byName && byName[longer[i].src] == longer[i + 1]
    {
      if i > 0 {
        assert longer[i] == line[i - 1];
      }
    }
  }

  lemma LineShrinks(byName: map<string, Meta>, line: seq<Meta>, seen: set<string>)
    requires IsLineDown(byName, line) && IsNew(line, seen) && |line| > 1
    ensures IsLineDown(byName, line[1..]) && IsNew(line[1..], seen + {line[0].name})
    ensures line[0].src != "" && line[0].src in byName && byName[line[0].src] == line[1] && line[0].name !in seen
  {
    var rest := line[1..];
    assert rest[|rest| - 1] == line[|line| - 1];
    forall i | 0 <= i < |rest| - 1
      ensures rest[i].src != "" && rest[i].src in byName && byName[rest[i].src] == rest[i + 1]
    {
      assert rest[i] == line[i + 1];
    }
  }

  lemma {:induction false} FindsLine(b: Meta, byName: map<string, Meta>, seen: set<string>)
    requires Indexes(byName) && b.name in byName && FindBase(b, byName, seen).Some?
    ensures HasLineTo(byName, b, seen, FindBase(b, byName, seen).value) && FindBase(b, byName, seen).value.name != ""
    decreases byName.Keys - seen
  {
    if b.src == "" {
      assert IsLineDown(byName, [b]) && IsNew([b], seen);
    } else {
      assert b.name in byName.Keys - seen && b.name !in byName.Keys - (seen + {b.name});
      var base := FindBase(b, byName, seen).value;
      FindsLine(byName[b.src], byName, seen + {b.name});
      var line :| IsLineDown(byName, line) && IsNew(line, seen + {b.name}) && line[0] == byName[b.src]
                  && line[|line| - 1] == base;
      LineGrows(byName, b, line, seen);
    }
  }

  lemma {:induction false} LineIsFound(byName: map<string, Meta>, line: seq<Meta>, seen: set<string>)
    requires Indexes(byName) && IsLineDown(byName, line) && IsNew(line, seen) && line[0].name in byName
    ensures var base := line[|line| - 1];
      FindBase(line[0], byName, seen) == if base.name == "" then None else Some(base)
    decreases |line|
  {
    if |line| > 1 {
      LineShrinks(byName, line, seen);
      LineIsFound(byName, line[1..], seen + {line[0].name});
    }
  }

  /** The base found is the one the source links lead down to, without a gap or a circle; and if there is
      such a line its base is found. */
  lemma FindBaseExactly(b: Meta, byName: map<string, Meta>, base: Meta)
    requires Indexes(byName) && b.name in byName
    ensures FindBase(b, byName, {}) == Some(base) <==> base.name != "" && HasLineTo(byName, b, {}, base)
  {
    if FindBase(b, byName, {}).Some? {
      FindsLine(b, byName, {});
    }
    if HasLineTo(byName, b, {}, base) {
      var line :| IsLineDown(byName, line) && IsNew(line, {}) && line[0] == b && line[|line| - 1] == base;
      LineIsFound(byName, line, {});
    }
  }

  lemma {:induction false} CompleteHasLine(b: Meta, byName: map<string, Meta>, seen: set<string>)
    requires Indexes(byName) && b.name in byName && IsComplete(b, byName, seen)
    ensures HasDoneLine(byName, b, seen)
    decreases byName.Keys - seen
  {
    if b.src == "" {
      assert IsLineDown(byName, [b]) && IsNew([b], seen);
    } else {
      assert b.name in byName.Keys - seen && b.name !in byName.Keys - (seen + {b.name});
      CompleteHasLine(byName[b.src], byName, seen + {b.name});
      var line :| IsLineDown(byName, line) && IsNew(line, seen + {b.name}) && line[0] == byName[b.src]
                  && AllDone(line);
      LineGrows(byName, b, line, seen);
    }
  }

  lemma {:induction false} LineIsComplete(byName: map<string, Meta>, line: seq<Meta>, seen: set<string>)
    requires Indexes(byName) && IsLineDown(byName, line) && IsNew(line, seen) && line[0].name in byName
    requires AllDone(line)
    ensures IsComplete(line[0], byName, seen)
    decreases |line|
  {
    if |line| > 1 {
      LineShrinks(byName, line, seen);
      LineIsComplete(byName, line[1..], seen + {line[0].name});
    }
  }

  /** A backup is a complete restore point exactly if a line of done backups leads from it to a base. */
  lemma IsCompleteExactly(b: Meta, byName: map<string, Meta>)
    requires Indexes(byName) && b.name in byName
    ensures IsComplete(b, byName, {}) <==> HasDoneLine(byName, b, {})
  {
    if IsComplete(b, byName, {}) {
      CompleteHasLine(b, byName, {});
    }
    if line :| IsLineDown(byName, line) && IsNew(line, {}) && line[0] == b && AllDone(line) {
      LineIsComplete(byName, line, {});
    }
  }
}

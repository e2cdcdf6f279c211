/**
 * `check_free_disk_space_template`: the disks of the template's last
 * booted record, summed per storage repository and checked against the
 * storage limit.
 */
module TemplateDisks {
  import opened Wrappers
  import opened Xen
  import opened RubyCollections
  import opened StorageAdmission

  /** A VBD of the template's last booted record: its type, and the SR name and virtual size of its VDI. */
  datatype Vbd = Vbd(kind: string, srName: string, virtualSize: nat)

  predicate IsDisk(v: Vbd) {
    v.kind == "Disk"
  }

  /** `(sr name, virtual size)` for each VBD of type "Disk", in order. */
  function DiskRequests(vbds: seq<Vbd>): seq<(string, nat)> {
    if |vbds| == 0 then []
    else
      var last := vbds[|vbds| - 1];
      DiskRequests(vbds[..|vbds| - 1]) + (if IsDisk(last) then [(last.srName, last.virtualSize)] else [])
  }

  /** The `total_sr_bsize` hash the loop builds. */
  function TemplateTotals(vbds: seq<Vbd>): Totals {
    Group(DiskRequests(vbds))
  }

  /** The bytes the template's disks take on the SR named `name`. */
  function DiskBytesOn(vbds: seq<Vbd>, name: string): nat {
    if |vbds| == 0 then 0
    else
      var last := vbds[|vbds| - 1];
      DiskBytesOn(vbds[..|vbds| - 1], name) + (if IsDisk(last) && last.srName == name then last.virtualSize else 0)
  }

  /** Some disk of the template lives on the SR named `name`. */
  predicate HasDiskOn(vbds: seq<Vbd>, name: string) {
    exists i :: 0 <= i < |vbds| && IsDisk(vbds[i]) && vbds[i].srName == name
  }

  /** The last VBD adds its request, if it is a disk, behind those of the VBDs before it. */
  lemma DiskRequestsSnoc(vbds: seq<Vbd>)
    requires |vbds| > 0
    ensures var last := vbds[|vbds| - 1];
            var before := DiskRequests(vbds[..|vbds| - 1]);
            && (IsDisk(last) ==> DiskRequests(vbds) == before + [(last.srName, last.virtualSize)]
                                 && DiskRequests(vbds)[..|before|] == before)
            && (!IsDisk(last) ==> DiskRequests(vbds) == before)
  {
    var last := vbds[|vbds| - 1];
    var before := DiskRequests(vbds[..|vbds| - 1]);
    if IsDisk(last) {
      assert (before + [(last.srName, last.virtualSize)])[..|before|] == before;
    } else {
      assert before + [] == before;
    }
  }

  lemma {:induction false} DiskRequestsSum(vbds: seq<Vbd>, name: string)
    ensures SumFor(DiskRequests(vbds), name) == DiskBytesOn(vbds, name)
  {
    if |vbds| > 0 {
      DiskRequestsSum(vbds[..|vbds| - 1], name);
      DiskRequestsSnoc(vbds);
    }
  }

  lemma {:induction false} DiskRequestsKeys(vbds: seq<Vbd>, name: string)
    ensures HasKey(DiskRequests(vbds), name) <==> HasDiskOn(vbds, name)
  {
    if |vbds| > 0 {
      var init := vbds[..|vbds| - 1];
      var last := vbds[|vbds| - 1];
      DiskRequestsKeys(init, name);
      DiskRequestsSnoc(vbds);
      var before := DiskRequests(init);
      var after := DiskRequests(vbds);
      if HasKey(after, name) {
        var i :| 0 <= i < |after| && after[i].0 == name;
        if i < |before| {
          assert after[i] == before[i];
          var j :| 0 <= j < |init| && IsDisk(init[j]) && init[j].srName == name;
          assert vbds[j] == init[j];
        } else {
          assert IsDisk(vbds[|vbds| - 1]) && vbds[|vbds| - 1].srName == name;
        }
      }
      if HasDiskOn(vbds, name) {
        var j :| 0 <= j < |vbds| && IsDisk(vbds[j]) && vbds[j].srName == name;
        if j < |init| {
          assert init[j] == vbds[j];
          var i :| 0 <= i < |before| && before[i].0 == name;
          assert after[i] == before[i];
        } else {
          assert after[|before|].0 == name;
        }
      }
    }
  }

  /**
   * The hash has one entry per SR that holds a disk of the template, and
   * that entry is the total virtual size of the disks there; VBDs that are
   * not disks (CD drives) count for nothing.
   */
  lemma TemplateTotalsMeaning(vbds: seq<Vbd>)
    ensures var t := TemplateTotals(vbds);
            && DistinctKeys(t)
            && (forall name :: HasKey(t, name) <==> HasDiskOn(vbds, name))
            && (forall name :: Get(t, name) == DiskBytesOn(vbds, name))
  {
    GroupSpec(DiskRequests(vbds));
    forall name ensures HasKey(TemplateTotals(vbds), name) <==> HasDiskOn(vbds, name) {
      DiskRequestsKeys(vbds, name);
    }
    forall name ensures Get(TemplateTotals(vbds), name) == DiskBytesOn(vbds, name) {
      DiskRequestsSum(vbds, name);
    }
  }

  /** The loop over the template's VBDs: skip what is not a disk, add the rest to its SR's total. */
  method TotalTemplateDisks(vbds: seq<Vbd>) returns (totalSrBsize: Totals)
    ensures totalSrBsize == TemplateTotals(vbds)
  {
    totalSrBsize := [];
    var i := 0;
    while i < |vbds|
      invariant 0 <= i <= |vbds|
      invariant totalSrBsize == Group(DiskRequests(vbds[..i]))
    {
      var vbd := vbds[i];
      assert vbds[..i + 1][..i] == vbds[..i] && vbds[..i + 1][i] == vbd;
      if vbd.kind == "Disk" {
        var requests := DiskRequests(vbds[..i]) + [(vbd.srName, vbd.virtualSize)];
        assert DiskRequests(vbds[..i + 1]) == requests;
        assert requests[..|requests| - 1] == DiskRequests(vbds[..i]);
        assert Group(requests) == Add(Group(DiskRequests(vbds[..i])), vbd.srName, vbd.virtualSize);
        totalSrBsize := Add(totalSrBsize, vbd.srName, vbd.virtualSize);
      } else {
        assert DiskRequests(vbds[..i + 1]) == DiskRequests(vbds[..i]) + [];
        assert DiskRequests(vbds[..i]) + [] == DiskRequests(vbds[..i]);
      }
      i := i + 1;
    }
    assert vbds[..i] == vbds;
  }

  /** The outcome of `check_free_disk_space_template`. */
  function TemplateVerdict(vbds: seq<Vbd>, storage: Storage, allocationPct: real, limitPct: real): (r: Result<bool, Error>)
    ensures r.Err? ==> r.error.StorageRepositoryNotAvailable?
  {
    MultiVerdict(TemplateTotals(vbds), storage, allocationPct, limitPct)
  }

  /** `check_free_disk_space_template`, from the VBDs already read out of the template's record. */
  method CheckFreeDiskSpaceTemplate(vbds: seq<Vbd>, storage: Storage, allocationPct: real, limitPct: real)
    returns (r: Result<bool, Error>)
    ensures r == TemplateVerdict(vbds, storage, allocationPct, limitPct)
  {
    var totals := TotalTemplateDisks(vbds);
    r := CheckMultiFreeDiskSpace(totals, storage, allocationPct, limitPct);
  }

  /**
   * The template check raises when a disk lives on an SR it cannot
   * resolve, and otherwise passes exactly when every SR holding a disk can
   * take that SR's total.
   */
  lemma TemplateVerdictMeaning(vbds: seq<Vbd>, storage: Storage, allocationPct: real, limitPct: real)
    ensures var r := TemplateVerdict(vbds, storage, allocationPct, limitPct);
            && (r.Err? <==> exists name :: HasDiskOn(vbds, name) && ResolveKey(storage, name).None?)
            && (r.Ok? ==> (r.value <==> forall name :: HasDiskOn(vbds, name) ==>
                  CheckFreeDiskSpace(ResolveKey(storage, name).value, DiskBytesOn(vbds, name), allocationPct, limitPct)))
  {
    var t := TemplateTotals(vbds);
    TemplateTotalsMeaning(vbds);
    var r := TemplateVerdict(vbds, storage, allocationPct, limitPct);
    if r.Err? {
      var i :| 0 <= i < |t| && ResolveKey(storage, t[i].0).None?;
      assert HasKey(t, t[i].0);
    }
    if exists name :: HasDiskOn(vbds, name) && ResolveKey(storage, name).None? {
      var name :| HasDiskOn(vbds, name) && ResolveKey(storage, name).None?;
      assert HasKey(t, name);
    }
    if r.Ok? {
      forall name | HasDiskOn(vbds, name)
        ensures ResolveKey(storage, name).Some?
      {
        assert HasKey(t, name);
      }
      TotalKeyValue(t);
      if r.value {
        forall name | HasDiskOn(vbds, name)
          ensures CheckFreeDiskSpace(ResolveKey(storage, name).value, DiskBytesOn(vbds, name), allocationPct, limitPct)
        {
          assert HasKey(t, name);
          var i :| 0 <= i < |t| && t[i].0 == name;
          assert t[i].1 == Get(t, name);
        }
      } else {
        var i :| 0 <= i < |t| && !CheckFreeDiskSpace(ResolveKey(storage, t[i].0).value, t[i].1, allocationPct, limitPct);
        assert HasKey(t, t[i].0);
        assert t[i].1 == Get(t, t[i].0);
      }
    }
  }

  /** In a hash with distinct keys, the count stored at a position is the count `Get` finds for its key. */
  lemma TotalKeyValue(t: Totals)
    requires DistinctKeys(t)
    ensures forall i :: 0 <= i < |t| ==> t[i].1 == Get(t, t[i].0)
  {
    forall i | 0 <= i < |t| ensures t[i].1 == Get(t, t[i].0) {
      GetAt(t, i);
    }
  }

  lemma {:induction false} GetAt(t: Totals, i: nat)
    requires DistinctKeys(t) && i < |t|
    ensures Get(t, t[i].0) == t[i].1
    decreases i
  {
    if i > 0 {
      assert t[0].0 != t[i].0;
      assert t[1..][i - 1] == t[i];
      GetAt(t[1..], i - 1);
    }
  }
}

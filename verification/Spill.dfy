/** Spill files, the index record that names them, and when a record stands for a whole message. */
module Spill {
  import opened Prelude
  import opened InboxSpec

  /**
   * `<dir>/<id>.raw`, `<dir>/<id>.raw.tmp`, `<dir>/<id>-<i>.att` and `<dir>/<id>-<i>.att.tmp`:
   * the names the spill pattern matches.
   */
  datatype Path =
    | RawFile(dir: string, id: Id)
    | RawTemp(dir: string, id: Id)
    | AttFile(dir: string, id: Id, index: nat)
    | AttTemp(dir: string, id: Id, index: nat)

  function Final(tmp: Path): Path {
    match tmp
    case RawTemp(dir, id) => RawFile(dir, id)
    case AttTemp(dir, id, i) => AttFile(dir, id, i)
    case p => p
  }

  /** A directory tree of spill files. Writes, renames and reads may fail; a failed one changes nothing. */
  class Disk {
    var files: map<Path, Bytes>

    constructor (files: map<Path, Bytes>)
      ensures this.files == files
    {
      this.files := files;
    }

    method WriteFile(p: Path, data: Bytes) returns (ok: bool)
      modifies this
      ensures files == if ok then old(files)[p := data] else old(files)
    {
      ok := *;
      if ok {
        files := files[p := data];
      }
    }

    method Rename(from: Path, to: Path) returns (ok: bool)
      modifies this
      ensures ok ==> from in old(files) && files == (old(files) - {from})[to := old(files)[from]]
      ensures !ok ==> files == old(files)
    {
      ok := *;
      ok := ok && from in files;
      if ok {
        files := (files - {from})[to := files[from]];
      }
    }

    method Remove(p: Path)
      modifies this
      ensures files == old(files) - {p}
    {
      files := files - {p};
    }

    method RemoveDir(dir: string)
      modifies this
      ensures files == map p | p in old(files) && p.dir != dir :: old(files)[p]
    {
      files := map p | p in files && p.dir != dir :: files[p];
    }

    method ReadFile(p: Path) returns (r: Option<Bytes>)
      ensures r.Some? ==> p in files && r.value == files[p]
    {
      var ok: bool := *;
      r := if ok && p in files then Some(files[p]) else None;
    }
  }

  // ---------- records and jobs ----------

  datatype Record = Record(msg: Message, resident: nat, rawSpill: Option<Path>, attSpill: seq<Option<Path>>)

  /** Temporaries written for a message that is not indexed yet. */
  datatype Job = Job(rawTmp: Option<Path>, attTmp: seq<Option<Path>>)

  /** What `p` must contain when it belongs to message `m`. */
  function Datum(m: Message, p: Path): Bytes {
    match p
    case RawFile(_, _) => m.raw
    case RawTemp(_, _) => m.raw
    case AttFile(_, _, i) => if i < |m.attachments| then m.attachments[i].data else []
    case AttTemp(_, _, i) => if i < |m.attachments| then m.attachments[i].data else []
  }

  predicate Owns(rec: Record, p: Path) {
    rec.rawSpill == Some(p) || Some(p) in rec.attSpill
  }

  predicate Names(job: Job, p: Path) {
    job.rawTmp == Some(p) || Some(p) in job.attTmp
  }

  /** The job's names are those of message `m` in `dir`, and it spills only what is not empty. */
  ghost predicate JobFor(job: Job, m: Message, dir: string) {
    (job.rawTmp.Some? ==> job.rawTmp.value == RawTemp(dir, m.id) && |m.raw| > 0 && dir != "") &&
    (job.attTmp == [] || |job.attTmp| == |m.attachments|) &&
    (forall i :: 0 <= i < |job.attTmp| && job.attTmp[i].Some? ==>
       job.attTmp[i].value == AttTemp(dir, m.id, i) && |m.attachments[i].data| > 0 && dir != "")
  }

  /** The record is `m` with the spilled parts emptied, each under its own name in `dir`. */
  ghost predicate RecordFor(rec: Record, m: Message, dir: string) {
    rec.msg == m.(raw := rec.msg.raw, attachments := rec.msg.attachments) &&
    rec.msg.raw == (if rec.rawSpill.Some? then [] else m.raw) &&
    (rec.rawSpill.Some? ==> rec.rawSpill.value == RawFile(dir, m.id) && dir != "") &&
    |rec.msg.attachments| == |m.attachments| &&
    (rec.attSpill == [] || |rec.attSpill| == |m.attachments|) &&
    (forall i :: 0 <= i < |m.attachments| ==>
       rec.msg.attachments[i] == (if i < |rec.attSpill| && rec.attSpill[i].Some?
                                  then m.attachments[i].(data := []) else m.attachments[i])) &&
    (forall i :: 0 <= i < |rec.attSpill| && rec.attSpill[i].Some? ==>
       rec.attSpill[i].value == AttFile(dir, m.id, i) && dir != "")
  }

  /** Every path of `paths` is on disk with the bytes `m` has there. */
  ghost predicate Backed(files: map<Path, Bytes>, paths: iset<Path>, m: Message) {
    forall p :: p in paths ==> p in files && files[p] == Datum(m, p)
  }

  ghost function OwnedPaths(rec: Record): iset<Path> {
    iset p | Owns(rec, p)
  }

  ghost function JobPaths(job: Job): iset<Path> {
    iset p | Names(job, p)
  }

  /** Files of every other message are as they were. */
  ghost predicate OthersKept(before: map<Path, Bytes>, after: map<Path, Bytes>, id: Id) {
    forall p: Path :: p.id != id ==>
      (p in before <==> p in after) && (p in before ==> before[p] == after[p])
  }

  ghost predicate NoFilesOf(files: map<Path, Bytes>, id: Id) {
    forall p :: p in files ==> p.id != id
  }

  /** The files of `id` are exactly `paths`, holding what `m` has there. */
  ghost predicate FilesAre(files: map<Path, Bytes>, id: Id, paths: iset<Path>, m: Message) {
    (forall p :: p in files && p.id == id ==> p in paths) && Backed(files, paths, m)
  }

  // ---------- loading ----------

  function LoadedRaw(rec: Record, files: map<Path, Bytes>): Bytes {
    if rec.rawSpill.Some? && |rec.msg.raw| == 0 && rec.rawSpill.value in files
    then files[rec.rawSpill.value] else rec.msg.raw
  }

  function LoadedAttachment(rec: Record, files: map<Path, Bytes>, i: nat): Attachment
    requires i < |rec.msg.attachments|
  {
    var a := rec.msg.attachments[i];
    if |a.data| > 0 then a
    else if i < |rec.attSpill| && rec.attSpill[i].Some? && rec.attSpill[i].value in files
    then a.(data := files[rec.attSpill[i].value]) else a
  }

  function Loaded(rec: Record, files: map<Path, Bytes>): Message {
    rec.msg.(raw := LoadedRaw(rec, files),
             attachments := seq(|rec.msg.attachments|, i requires 0 <= i < |rec.msg.attachments| =>
                                                         LoadedAttachment(rec, files, i)))
  }

  /** Spilling is invisible to a reader. */
  lemma LoadedIsWhole(rec: Record, files: map<Path, Bytes>, m: Message, dir: string)
    requires RecordFor(rec, m, dir) && Backed(files, OwnedPaths(rec), m)
    ensures Loaded(rec, files) == m
  {
    if rec.rawSpill.Some? {
      assert Owns(rec, rec.rawSpill.value);
    }
    forall i | 0 <= i < |m.attachments|
      ensures LoadedAttachment(rec, files, i) == m.attachments[i]
    {
      if i < |rec.attSpill| && rec.attSpill[i].Some? {
        assert Some(rec.attSpill[i].value) in rec.attSpill;
        assert Owns(rec, rec.attSpill[i].value);
      }
    }
  }

  // ---------- methods over one message's files ----------

  /** The parts that go to disk are those of at least `threshold` bytes. */
  ghost predicate SpillsTheLarge(job: Job, m: Message, threshold: int) {
    (job.rawTmp.Some? <==> |m.raw| >= threshold) &&
    forall k :: 0 <= k < |m.attachments| ==>
      (k < |job.attTmp| && job.attTmp[k].Some? <==> |m.attachments[k].data| >= threshold)
  }

  method WriteSpillTemps(disk: Disk, dir: string, threshold: int, m: Message) returns (r: Result<Job, InsertError>)
    requires NoFilesOf(disk.files, m.id)
    modifies disk
    ensures OthersKept(old(disk.files), disk.files, m.id)
    ensures r.Ok? ==> JobFor(r.value, m, dir) && FilesAre(disk.files, m.id, JobPaths(r.value), m)
    ensures r.Err? ==> r.error == SpillFailed && disk.files == old(disk.files)
    ensures (dir == "" || threshold <= 0) ==> r == Ok(Job(None, []))
    ensures dir != "" && threshold > 0 && r.Ok? ==> SpillsTheLarge(r.value, m, threshold)
  {
    var job := Job(None, []);
    if dir == "" || threshold <= 0 {
      r := Ok(job);
    } else {
      var ok := true;
      if |m.raw| >= threshold {
        ok := disk.WriteFile(RawTemp(dir, m.id), m.raw);
        job := if ok then Job(Some(RawTemp(dir, m.id)), []) else job;
      }
      if !ok {
        r := Err(SpillFailed);
      } else if |m.attachments| == 0 {
        r := Ok(job);
      } else {
        ghost var before := disk.files;
        r := WriteAttachmentTemps(disk, dir, threshold, m, job);
        OthersKeptTrans(old(disk.files), before, disk.files, m.id);
        if r.Err? {
          OthersKeptAndNone(old(disk.files), disk.files, m.id);
        }
      }
    }
  }

  /** The attachments' temporaries; after a failed write everything written so far is unlinked. */
  method WriteAttachmentTemps(disk: Disk, dir: string, threshold: int, m: Message, job0: Job)
    returns (r: Result<Job, InsertError>)
    requires JobFor(job0, m, dir) && job0.attTmp == [] && FilesAre(disk.files, m.id, JobPaths(job0), m)
    requires dir != "" && threshold > 0 && m.attachments != []
    modifies disk
    ensures OthersKept(old(disk.files), disk.files, m.id)
    ensures r.Ok? ==> JobFor(r.value, m, dir) && FilesAre(disk.files, m.id, JobPaths(r.value), m)
    ensures r.Err? ==> r.error == SpillFailed && NoFilesOf(disk.files, m.id)
    ensures r.Ok? ==> r.value.rawTmp == job0.rawTmp && |r.value.attTmp| == |m.attachments| &&
                      forall k :: 0 <= k < |m.attachments| ==>
                        (r.value.attTmp[k].Some? <==> |m.attachments[k].data| >= threshold)
  {
    hide FilesAre, JobFor, OthersKept, NoFilesOf;
    var job := job0.(attTmp := seq(|m.attachments|, _ => None));
    NothingNamedYet(disk.files, job0, m, dir);
    var i, ok := 0, true;
    while ok && i < |m.attachments|
      invariant 0 <= i <= |m.attachments| == |job.attTmp|
      invariant JobFor(job, m, dir)
      invariant forall k :: i <= k < |job.attTmp| ==> job.attTmp[k].None?
      invariant job.rawTmp == job0.rawTmp
      invariant forall k :: 0 <= k < i ==> (job.attTmp[k].Some? <==> |m.attachments[k].data| >= threshold)
      invariant FilesAre(disk.files, m.id, JobPaths(job), m)
      invariant OthersKept(old(disk.files), disk.files, m.id)
      decreases ok, |m.attachments| - i
    {
      if |m.attachments[i].data| >= threshold {
        var tmp := AttTemp(dir, m.id, i);
        TempWritten(disk.files, job, i, m, dir);
        ghost var before := disk.files;
        ok := disk.WriteFile(tmp, m.attachments[i].data);
        if ok {
          job := job.(attTmp := job.attTmp[i := Some(tmp)]);
          OthersKeptTrans(old(disk.files), before, disk.files, m.id);
        }
      }
      i := if ok then i + 1 else i;
    }
    if ok {
      r := Ok(job);
    } else {
      ghost var half := disk.files;
      JobIsAllThere(half, job, m, dir);
      var gone := UnlinkSpillJob(disk, job, m.id, m);
      OthersKeptTrans(old(disk.files), half, disk.files, m.id);
      r := Err(SpillFailed);
    }
  }

  lemma NothingNamedYet(files: map<Path, Bytes>, job: Job, m: Message, dir: string)
    requires JobFor(job, m, dir) && job.attTmp == [] && FilesAre(files, m.id, JobPaths(job), m)
    ensures var wide := job.(attTmp := seq(|m.attachments|, _ => None));
            JobFor(wide, m, dir) && FilesAre(files, m.id, JobPaths(wide), m) && OthersKept(files, files, m.id)
  {
  }

  lemma JobIsAllThere(files: map<Path, Bytes>, job: Job, m: Message, dir: string)
    requires JobFor(job, m, dir) && FilesAre(files, m.id, JobPaths(job), m)
    ensures forall p :: Names(job, p) ==> p.id == m.id
    ensures forall p :: p in files && p.id == m.id ==> Names(job, p)
  {
    JobPathsHaveId(job, m, dir);
  }

  lemma TempWritten(files: map<Path, Bytes>, job: Job, i: nat, m: Message, dir: string)
    requires JobFor(job, m, dir) && FilesAre(files, m.id, JobPaths(job), m)
    requires i < |job.attTmp| == |m.attachments| && job.attTmp[i].None? && |m.attachments[i].data| > 0 && dir != ""
    ensures var tmp := AttTemp(dir, m.id, i);
            var after, written := job.(attTmp := job.attTmp[i := Some(tmp)]), files[tmp := m.attachments[i].data];
            JobFor(after, m, dir) && FilesAre(written, m.id, JobPaths(after), m) && OthersKept(files, written, m.id)
  {
    var tmp := AttTemp(dir, m.id, i);
    NamesAfterWrite(job, i, tmp);
    var after := job.(attTmp := job.attTmp[i := Some(tmp)]);
    assert forall p :: p in JobPaths(after) ==> p == tmp || p in JobPaths(job);
  }

  lemma NamesAfterWrite(job: Job, i: nat, tmp: Path)
    requires i < |job.attTmp| && job.attTmp[i].None?
    ensures var after := job.(attTmp := job.attTmp[i := Some(tmp)]);
            forall p :: Names(after, p) <==> p == tmp || Names(job, p)
  {
    var after := job.(attTmp := job.attTmp[i := Some(tmp)]);
    forall p
      ensures Names(after, p) <==> p == tmp || Names(job, p)
    {
      if Some(p) in job.attTmp {
        var k :| 0 <= k < |job.attTmp| && job.attTmp[k] == Some(p);
        assert after.attTmp[k] == Some(p);
      }
      assert after.attTmp[i] == Some(tmp);
    }
  }

  lemma OthersKeptAndNone(before: map<Path, Bytes>, after: map<Path, Bytes>, id: Id)
    requires OthersKept(before, after, id) && NoFilesOf(before, id) && NoFilesOf(after, id)
    ensures before == after
  {
    forall p: Path
      ensures (p in before <==> p in after) && (p in before ==> before[p] == after[p])
    {
    }
    assert before.Keys == after.Keys;
  }

  /** Removes what the job still names. */
  method UnlinkSpillJob(disk: Disk, job: Job, id: Id, ghost m: Message) returns (gone: Job)
    requires forall p :: Names(job, p) ==> p.id == id
    requires forall p :: p in disk.files && p.id == id ==> Names(job, p)
    modifies disk
    ensures OthersKept(old(disk.files), disk.files, id) && NoFilesOf(disk.files, id)
  {
    gone := job;
    if gone.rawTmp.Some? {
      disk.Remove(gone.rawTmp.value);
      gone := gone.(rawTmp := None);
    }
    var i := 0;
    while i < |gone.attTmp|
      invariant 0 <= i <= |gone.attTmp| == |job.attTmp|
      invariant gone.rawTmp.None? && gone.attTmp[i..] == job.attTmp[i..]
      invariant OthersKept(old(disk.files), disk.files, id)
      invariant forall p :: p in disk.files && p.id == id ==> Some(p) in job.attTmp[i..]
    {
      assert job.attTmp[i..] == [job.attTmp[i]] + job.attTmp[i + 1..];
      if gone.attTmp[i].Some? {
        assert Names(job, job.attTmp[i].value);
        disk.Remove(gone.attTmp[i].value);
        gone := gone.(attTmp := gone.attTmp[i := None]);
      }
      i := i + 1;
    }
  }

  method UnlinkRecord(disk: Disk, rec: Record, id: Id)
    requires forall p :: Owns(rec, p) ==> p.id == id
    modifies disk
    ensures OthersKept(old(disk.files), disk.files, id)
    ensures forall p :: p in disk.files <==> p in old(disk.files) && !Owns(rec, p)
    ensures forall p :: p in disk.files ==> disk.files[p] == old(disk.files)[p]
  {
    if rec.rawSpill.Some? {
      disk.Remove(rec.rawSpill.value);
    }
    var i := 0;
    while i < |rec.attSpill|
      invariant 0 <= i <= |rec.attSpill|
      invariant OthersKept(old(disk.files), disk.files, id)
      invariant forall p :: p in disk.files <==>
                  p in old(disk.files) && rec.rawSpill != Some(p) && Some(p) !in rec.attSpill[..i]
      invariant forall p :: p in disk.files ==> disk.files[p] == old(disk.files)[p]
    {
      assert rec.attSpill[..i + 1] == rec.attSpill[..i] + [rec.attSpill[i]];
      if rec.attSpill[i].Some? {
        assert Owns(rec, rec.attSpill[i].value);
        disk.Remove(rec.attSpill[i].value);
      }
      i := i + 1;
    }
    assert rec.attSpill[..i] == rec.attSpill;
  }

  /** The record that names nothing yet. */
  function Resided(m: Message): Record {
    Record(m, Resident(m), None, [])
  }

  /** Files of `m` while its temporaries are being renamed: record and job share them out. */
  ghost predicate HalfCommitted(files: map<Path, Bytes>, rec: Record, job: Job, m: Message, dir: string) {
    RecordFor(rec, m, dir) && JobFor(job, m, dir) &&
    FilesAre(files, m.id, (iset p | Owns(rec, p) || Names(job, p)), m)
  }

  /** One rename moves one name from the job to the record. */
  lemma RenameMovesName(files: map<Path, Bytes>, rec: Record, job: Job, m: Message, dir: string, i: nat)
    requires HalfCommitted(files, rec, job, m, dir)
    requires |rec.attSpill| == |job.attTmp| && i < |job.attTmp| && job.attTmp[i].Some? && rec.attSpill[i].None?
    ensures var tmp := job.attTmp[i].value;
            var rec' := rec.(attSpill := rec.attSpill[i := Some(Final(tmp))],
                             msg := rec.msg.(attachments :=
                               rec.msg.attachments[i := rec.msg.attachments[i].(data := [])]));
            var job' := job.(attTmp := job.attTmp[i := None]);
            tmp in files && HalfCommitted((files - {tmp})[Final(tmp) := files[tmp]], rec', job', m, dir)
  {
    var tmp := job.attTmp[i].value;
    var final := Final(tmp);
    var rec' := rec.(attSpill := rec.attSpill[i := Some(final)],
                     msg := rec.msg.(attachments := rec.msg.attachments[i := rec.msg.attachments[i].(data := [])]));
    var job' := job.(attTmp := job.attTmp[i := None]);
    assert Some(tmp) in job.attTmp;
    assert Names(job, tmp);
    var files' := (files - {tmp})[final := files[tmp]];
    forall p | p in files' && p.id == m.id
      ensures Owns(rec', p) || Names(job', p)
    {
      OwnsAfterUpdate(rec, i, final, p);
      NamesAfterClear(job, i, p);
      if p == final {
        assert rec'.attSpill[i] == Some(p);
      }
    }
    forall p | Owns(rec', p) || Names(job', p)
      ensures p in files' && files'[p] == Datum(m, p)
    {
      OwnsAfterUpdate(rec, i, final, p);
      NamesAfterClear(job, i, p);
      if Names(job', p) {
        if p.AttTemp? {
          var k :| 0 <= k < |job'.attTmp| && job'.attTmp[k] == Some(p);
          assert job.attTmp[k] == Some(p);
        }
        assert p != tmp;
      }
    }
  }

  lemma OwnsAfterUpdate(rec: Record, i: nat, final: Path, p: Path)
    requires i < |rec.attSpill| && rec.attSpill[i].None?
    ensures Some(p) in rec.attSpill[i := Some(final)] <==> p == final || Some(p) in rec.attSpill
  {
    var after := rec.attSpill[i := Some(final)];
    assert after[i] == Some(final);
    if Some(p) in rec.attSpill {
      var k :| 0 <= k < |rec.attSpill| && rec.attSpill[k] == Some(p);
      assert after[k] == Some(p);
    }
  }

  lemma NamesAfterClear(job: Job, i: nat, p: Path)
    requires i < |job.attTmp| && job.attTmp[i].Some?
    ensures Some(p) in job.attTmp[i := None] ==> Some(p) in job.attTmp
    ensures Some(p) in job.attTmp ==> Some(p) in job.attTmp[i := None] || p == job.attTmp[i].value
  {
    if Some(p) in job.attTmp {
      var k :| 0 <= k < |job.attTmp| && job.attTmp[k] == Some(p);
      assert k != i ==> job.attTmp[i := None][k] == Some(p);
    }
  }

  /** One attachment's rename. */
  method CommitAttachment(disk: Disk, rec0: Record, job0: Job, i: nat, ghost m: Message, ghost dir: string)
    returns (ok: bool, rec: Record, job: Job)
    requires HalfCommitted(disk.files, rec0, job0, m, dir)
    requires |rec0.attSpill| == |job0.attTmp| && i < |job0.attTmp| && job0.attTmp[i].Some? && rec0.attSpill[i].None?
    modifies disk
    ensures OthersKept(old(disk.files), disk.files, m.id)
    ensures !ok ==> disk.files == old(disk.files) && rec == rec0 && job == job0
    ensures ok ==> HalfCommitted(disk.files, rec, job, m, dir)
    ensures ok ==> job == job0.(attTmp := job0.attTmp[i := None])
    ensures ok ==> rec.attSpill == rec0.attSpill[i := Some(Final(job0.attTmp[i].value))]
    ensures ok ==> rec.resident == rec0.resident
  {
    rec, job := rec0, job0;
    var tmp := job.attTmp[i].value;
    RenameMovesName(disk.files, rec, job, m, dir, i);
    ok := disk.Rename(tmp, Final(tmp));
    if ok {
      job := job.(attTmp := job.attTmp[i := None]);
      rec := rec.(attSpill := rec.attSpill[i := Some(Final(tmp))],
                  msg := rec.msg.(attachments := rec.msg.attachments[i := rec.msg.attachments[i].(data := [])]));
    }
  }

  lemma NothingRenamedYet(files: map<Path, Bytes>, job: Job, m: Message, dir: string)
    requires JobFor(job, m, dir) && FilesAre(files, m.id, JobPaths(job), m)
    ensures HalfCommitted(files, Resided(m), job, m, dir)
  {
    assert forall p :: Names(job, p) ==> p in JobPaths(job);
  }

  /** Renaming the raw temporary moves its name from the job to the record. */
  lemma RawMoves(files: map<Path, Bytes>, job: Job, m: Message, dir: string)
    requires JobFor(job, m, dir) && FilesAre(files, m.id, JobPaths(job), m) && job.rawTmp.Some?
    ensures var tmp := job.rawTmp.value;
            tmp in files &&
            var moved := (files - {tmp})[Final(tmp) := files[tmp]];
            OthersKept(files, moved, m.id) &&
            var rec := Resided(m).(rawSpill := Some(Final(tmp)), msg := m.(raw := []));
            HalfCommitted(moved, rec, job.(rawTmp := None), m, dir)
  {
    hide Resident;
    assert Names(job, job.rawTmp.value);
  }

  method CommitRaw(disk: Disk, rec0: Record, job0: Job, m: Message, ghost dir: string)
    returns (ok: bool, rec: Record, job: Job)
    requires rec0 == Resided(m) && JobFor(job0, m, dir)
    requires FilesAre(disk.files, m.id, JobPaths(job0), m)
    modifies disk
    ensures OthersKept(old(disk.files), disk.files, m.id)
    ensures !ok ==> disk.files == old(disk.files) && rec == rec0 && job == job0
    ensures ok ==> HalfCommitted(disk.files, rec, job, m, dir)
    ensures ok ==> job == job0.(rawTmp := None) && rec.resident == Resident(m) && rec.attSpill == []
  {
    hide HalfCommitted, OthersKept, FilesAre;
    NothingRenamedYet(disk.files, job0, m, dir);
    KeptAtStart(disk.files, m.id);
    rec, job := rec0, job0;
    ok := true;
    if job.rawTmp.Some? {
      var tmp := job.rawTmp.value;
      RawMoves(disk.files, job, m, dir);
      ok := disk.Rename(tmp, Final(tmp));
      if ok {
        job := job.(rawTmp := None);
        rec := rec.(rawSpill := Some(Final(tmp)), msg := rec.msg.(raw := []));
      }
    }
  }

  lemma JobPathsHaveId(job: Job, m: Message, dir: string)
    requires JobFor(job, m, dir)
    ensures forall p :: Names(job, p) ==> p.id == m.id && p.dir == dir && dir != ""
  {
    forall p | Names(job, p)
      ensures p.id == m.id && p.dir == dir && dir != ""
    {
      if Some(p) in job.attTmp {
        var k :| 0 <= k < |job.attTmp| && job.attTmp[k] == Some(p);
      }
    }
  }

  lemma RecordPathsHaveId(rec: Record, m: Message, dir: string)
    requires RecordFor(rec, m, dir)
    ensures forall p :: Owns(rec, p) ==> p.id == m.id && p.dir == dir && dir != ""
  {
    forall p | Owns(rec, p)
      ensures p.id == m.id && p.dir == dir && dir != ""
    {
      if Some(p) in rec.attSpill {
        var k :| 0 <= k < |rec.attSpill| && rec.attSpill[k] == Some(p);
      }
    }
  }

  lemma KeptAtStart(files: map<Path, Bytes>, id: Id)
    ensures OthersKept(files, files, id)
  {
  }

  lemma OthersKeptTrans(a: map<Path, Bytes>, b: map<Path, Bytes>, c: map<Path, Bytes>, id: Id)
    requires OthersKept(a, b, id) && OthersKept(b, c, id)
    ensures OthersKept(a, c, id)
  {
  }

  ghost predicate Spent(job: Job) {
    job.rawTmp.None? && forall i :: 0 <= i < |job.attTmp| ==> job.attTmp[i].None?
  }

  lemma SpentMeansCommitted(files: map<Path, Bytes>, rec: Record, job: Job, m: Message, dir: string)
    requires HalfCommitted(files, rec, job, m, dir) && Spent(job)
    ensures RecordFor(rec, m, dir) && FilesAre(files, m.id, OwnedPaths(rec), m)
  {
  }

  lemma NothingOwnedMeansJobs(before: map<Path, Bytes>, after: map<Path, Bytes>, rec: Record, job: Job,
                              m: Message, dir: string)
    requires HalfCommitted(before, rec, job, m, dir)
    requires forall p :: p in after <==> p in before && !Owns(rec, p)
    ensures forall p :: p in after && p.id == m.id ==> Names(job, p)
  {
  }

  lemma NothingOwnedYet(files: map<Path, Bytes>, rec: Record, job: Job, m: Message, dir: string)
    requires HalfCommitted(files, rec, job, m, dir) && rec.attSpill == []
    ensures HalfCommitted(files, rec.(attSpill := seq(|job.attTmp|, _ => None)), job, m, dir)
  {
    var wide := rec.(attSpill := seq(|job.attTmp|, _ => None));
    assert forall p :: Owns(wide, p) <==> Owns(rec, p);
  }

  lemma HalfCommittedNames(files: map<Path, Bytes>, rec: Record, job: Job, m: Message, dir: string)
    requires HalfCommitted(files, rec, job, m, dir)
    ensures forall p :: Names(job, p) ==> p.id == m.id
    ensures forall p :: Owns(rec, p) ==> p.id == m.id
  {
    JobPathsHaveId(job, m, dir);
    RecordPathsHaveId(rec, m, dir);
  }

  /** The attachments' renames, stopping at the first that fails. */
  method CommitAttachments(disk: Disk, rec0: Record, job0: Job, ghost m: Message, ghost dir: string)
    returns (ok: bool, rec: Record, job: Job)
    requires HalfCommitted(disk.files, rec0, job0, m, dir)
    requires job0.rawTmp.None? && |rec0.attSpill| == |job0.attTmp|
    requires forall k :: 0 <= k < |rec0.attSpill| ==> rec0.attSpill[k].None?
    modifies disk
    ensures OthersKept(old(disk.files), disk.files, m.id)
    ensures HalfCommitted(disk.files, rec, job, m, dir) && rec.resident == rec0.resident
    ensures ok ==> Spent(job)
  {
    hide HalfCommitted, OthersKept;
    KeptAtStart(disk.files, m.id);
    ok, rec, job := true, rec0, job0;
    var i := 0;
    while ok && i < |job.attTmp|
      invariant 0 <= i <= |job.attTmp|
      invariant HalfCommitted(disk.files, rec, job, m, dir) && rec.resident == rec0.resident
      invariant ok ==> |job.attTmp| == |rec.attSpill| && job.rawTmp.None?
      invariant ok ==> forall k :: 0 <= k < i ==> job.attTmp[k].None?
      invariant ok ==> forall k :: i <= k < |job.attTmp| ==> rec.attSpill[k].None?
      invariant OthersKept(old(disk.files), disk.files, m.id)
      decreases ok, |job.attTmp| - i
    {
      if job.attTmp[i].Some? {
        ghost var before := disk.files;
        ok, rec, job := CommitAttachment(disk, rec, job, i, m, dir);
        OthersKeptTrans(old(disk.files), before, disk.files, m.id);
      }
      i := if ok then i + 1 else i;
    }
  }

  /** Renames every temporary; on a failure unlinks what it has renamed and leaves the rest to the job. */
  method CommitSpill(disk: Disk, rec0: Record, job0: Job, m: Message, ghost dir: string)
    returns (ok: bool, rec: Record, job: Job)
    requires rec0 == Resided(m) && JobFor(job0, m, dir)
    requires FilesAre(disk.files, m.id, JobPaths(job0), m)
    modifies disk
    ensures OthersKept(old(disk.files), disk.files, m.id)
    ensures forall p :: Names(job, p) ==> p.id == m.id
    ensures ok ==> RecordFor(rec, m, dir) && rec.resident == Resident(m)
    ensures ok ==> FilesAre(disk.files, m.id, OwnedPaths(rec), m)
    ensures !ok ==> forall p :: p in disk.files && p.id == m.id ==> Names(job, p)
  {
    hide HalfCommitted, OthersKept, FilesAre, JobFor, RecordFor;
    JobIsAllThere(disk.files, job0, m, dir);
    ok, rec, job := CommitRaw(disk, rec0, job0, m, dir);
    if ok && |job.attTmp| == 0 {
      SpentMeansCommitted(disk.files, rec, job, m, dir);
    } else if ok {
      ghost var before := disk.files;
      NothingOwnedYet(before, rec, job, m, dir);
      rec := rec.(attSpill := seq(|job.attTmp|, _ => None));
      ok, rec, job := CommitAttachments(disk, rec, job, m, dir);
      OthersKeptTrans(old(disk.files), before, disk.files, m.id);
      HalfCommittedNames(disk.files, rec, job, m, dir);
      if ok {
        SpentMeansCommitted(disk.files, rec, job, m, dir);
      } else {
        ghost var half := disk.files;
        UnlinkRecord(disk, rec, m.id);
        OthersKeptTrans(old(disk.files), half, disk.files, m.id);
        NothingOwnedMeansJobs(half, disk.files, rec, job, m, dir);
      }
    }
  }
}

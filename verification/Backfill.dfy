/** Enrolled face samples: the backfill from disk, the removal of one sample, and the count each subject carries. */
module Backfill {
  import opened Prelude

  datatype Sample = Sample(subject: string, path: string, imageId: string, source: string)

  datatype Subject = Subject(contactId: Option<int>, purged: bool, sampleCount: nat)

  datatype Db = Db(samples: seq<Sample>, subjects: map<string, Subject>)

  /** An entry of the enrolled directory, with its sample_*_full.jpg files in order. */
  datatype Entry = Entry(name: string, isDir: bool, images: seq<string>)

  /** Reading the file and pushing it to the recognition service. */
  datatype Reply = ReadFails | NoImageId | Pushed(imageId: string)

  type Remote = (string, string) -> Reply

  function PathOf(subject: string, image: string): string {
    "enrolled/" + subject + "/" + image
  }

  function RowsOf(samples: seq<Sample>, subject: string): seq<Sample> {
    if samples == [] then []
    else
      var n := |samples| - 1;
      RowsOf(samples[..n], subject) + if samples[n].subject == subject then [samples[n]] else []
  }

  function CountRows(samples: seq<Sample>, subject: string, path: string): nat {
    if samples == [] then 0
    else
      var n := |samples| - 1;
      CountRows(samples[..n], subject, path) + if samples[n].subject == subject && samples[n].path == path then 1 else 0
  }

  function Keys(samples: seq<Sample>): seq<(string, string)> {
    seq(|samples|, i requires 0 <= i < |samples| => (samples[i].subject, samples[i].path))
  }

  function WithImageId(samples: seq<Sample>, subject: string, path: string, imageId: string): seq<Sample> {
    seq(|samples|, i requires 0 <= i < |samples| =>
      if samples[i].subject == subject && samples[i].path == path then samples[i].(imageId := imageId) else samples[i])
  }

  // ----- one image, one directory, the whole disk

  /** Insert or update the row of an image; two rows of one path raise, as scalar_one_or_none does. */
  function PushOne(samples: seq<Sample>, subject: string, image: string, reply: Reply): (seq<Sample>, bool) {
    var path := PathOf(subject, image);
    if !reply.Pushed? then (samples, false)
    else if CountRows(samples, subject, path) == 0 then
      (samples + [Sample(subject, path, reply.imageId, "backfill")], true)
    else if CountRows(samples, subject, path) == 1 then
      (WithImageId(samples, subject, path, reply.imageId), true)
    else
      (samples, false)
  }

  datatype Pushes = Pushes(samples: seq<Sample>, pushed: nat, errors: nat)

  function PushAll(samples: seq<Sample>, subject: string, images: seq<string>, remote: Remote): Pushes {
    if images == [] then Pushes(samples, 0, 0)
    else
      var n := |images| - 1;
      var p := PushAll(samples, subject, images[..n], remote);
      var (after, ok) := PushOne(p.samples, subject, images[n], remote(subject, images[n]));
      if ok then Pushes(after, p.pushed + 1, p.errors) else Pushes(after, p.pushed, p.errors + 1)
  }

  datatype Report = Report(scanned: nat, found: nat, pushed: nat, errors: nat)

  predicate IsPurged(db: Db, subject: string) {
    subject in db.subjects && db.subjects[subject].purged
  }

  function Recounted(db: Db, subject: string): Db {
    if subject !in db.subjects then db
    else db.(subjects := db.subjects[subject := db.subjects[subject].(sampleCount := |RowsOf(db.samples, subject)|)])
  }

  function Dir(db: Db, r: Report, e: Entry, remote: Remote, dryRun: bool): (Db, Report) {
    if !e.isDir then (db, r)
    else if IsPurged(db, e.name) then (db, r.(scanned := r.scanned + 1))
    else
      var seen := r.(scanned := r.scanned + 1, found := r.found + |e.images|);
      if dryRun then (db, seen)
      else
        var p := PushAll(db.samples, e.name, e.images, remote);
        (Recounted(db.(samples := p.samples), e.name),
         seen.(pushed := r.pushed + p.pushed, errors := r.errors + p.errors))
  }

  function Scan(db: Db, disk: seq<Entry>, remote: Remote, dryRun: bool): (Db, Report) {
    if disk == [] then (db, Report(0, 0, 0, 0))
    else
      var n := |disk| - 1;
      var (db1, r) := Scan(db, disk[..n], remote, dryRun);
      Dir(db1, r, disk[n], remote, dryRun)
  }

  /** A row that the run adds has no subject: the foreign key from samples to subjects is violated. */
  predicate AddsDangling(before: Db, after: Db) {
    exists i :: |before.samples| <= i < |after.samples| && after.samples[i].subject !in before.subjects
  }

  class Enrollment {
    var samples: seq<Sample>
    var subjects: map<string, Subject>

    function Now(): Db
      reads this
    {
      Db(samples, subjects)
    }

    constructor (db: Db)
      ensures Now() == db
    {
      samples, subjects := db.samples, db.subjects;
    }

    /** `enforced`: the database checks foreign keys.  A violation ends the request, and nothing it wrote is kept. */
    method BackfillEnrollment(disk: seq<Entry>, remote: Remote, dryRun: bool, enforced: bool)
      returns (r: Option<Report>)
      modifies this
      ensures var (after, report) := Scan(old(Now()), disk, remote, dryRun);
              if enforced && AddsDangling(old(Now()), after) then r == None && Now() == old(Now())
              else r == Some(report) && Now() == after
    {
      var before := Now();
      var report := Report(0, 0, 0, 0);
      for i := 0 to |disk|
        invariant (Now(), report) == Scan(old(Now()), disk[..i], remote, dryRun)
      {
        assert disk[..i + 1][..i] == disk[..i];
        report := BackfillDir(report, disk[i], remote, dryRun);
      }
      assert disk[..|disk|] == disk;
      if enforced && AddsDangling(before, Now()) {
        samples, subjects := before.samples, before.subjects;
        return None;
      }
      return Some(report);
    }

    /** The body of the outer loop. */
    method BackfillDir(so: Report, e: Entry, remote: Remote, dryRun: bool) returns (r: Report)
      modifies this
      ensures (Now(), r) == Dir(old(Now()), so, e, remote, dryRun)
    {
      r := so;
      if !e.isDir {
        return;
      }
      r := r.(scanned := r.scanned + 1);
      if e.name in subjects && subjects[e.name].purged {
        return;
      }
      r := r.(found := r.found + |e.images|);
      if dryRun {
        return;
      }
      var pushed, errors := 0, 0;
      for k := 0 to |e.images|
        invariant Pushes(samples, pushed, errors) == PushAll(old(samples), e.name, e.images[..k], remote)
        invariant subjects == old(subjects)
      {
        assert e.images[..k + 1][..k] == e.images[..k];
        var ok := PushImage(e.name, e.images[k], remote(e.name, e.images[k]));
        if ok {
          pushed := pushed + 1;
        } else {
          errors := errors + 1;
        }
      }
      assert e.images[..|e.images|] == e.images;
      if e.name in subjects {
        subjects := subjects[e.name := subjects[e.name].(sampleCount := |RowsOf(samples, e.name)|)];
      }
      r := r.(pushed := r.pushed + pushed, errors := r.errors + errors);
    }

    method PushImage(subject: string, image: string, reply: Reply) returns (ok: bool)
      modifies this`samples
      ensures (samples, ok) == PushOne(old(samples), subject, image, reply)
    {
      if !reply.Pushed? {
        return false;
      }
      var path := PathOf(subject, image);
      var existing := CountRows(samples, subject, path);
      if existing > 1 {
        return false;
      }
      if existing == 0 {
        samples := samples + [Sample(subject, path, reply.imageId, "backfill")];
      } else {
        samples := WithImageId(samples, subject, path, reply.imageId);
      }
      return true;
    }

    /** Remove the k-th sample, if it belongs to the contact; the count is recomputed. */
    method DeleteFaceSample(contact: int, k: int) returns (a: DeleteAnswer)
      modifies this
      ensures a == DeleteVerdict(old(Now()), contact, k)
      ensures Now() == if a == Deleted then Removed(old(Now()), k) else old(Now())
    {
      if !(0 <= k < |samples|) {
        return NotFound;
      }
      var owner := samples[k].subject;
      if owner !in subjects || subjects[owner].contactId != Some(contact) {
        return NotFound;
      }
      if subjects[owner].purged {
        return Purged;
      }
      samples := samples[..k] + samples[k + 1..];
      subjects := subjects[owner := subjects[owner].(sampleCount := |RowsOf(samples, owner)|)];
      return Deleted;
    }
  }

  datatype DeleteAnswer = Deleted | NotFound | Purged

  function DeleteVerdict(db: Db, contact: int, k: int): DeleteAnswer {
    if !(0 <= k < |db.samples|) then NotFound
    else
      var owner := db.samples[k].subject;
      if owner !in db.subjects || db.subjects[owner].contactId != Some(contact) then NotFound
      else if db.subjects[owner].purged then Purged
      else Deleted
  }

  function Removed(db: Db, k: int): Db
    requires 0 <= k < |db.samples|
  {
    Recounted(db.(samples := db.samples[..k] + db.samples[k + 1..]), db.samples[k].subject)
  }

  // ----- what one push does to the rows

  ghost predicate HasRow(samples: seq<Sample>, subject: string, path: string) {
    exists i :: 0 <= i < |samples| && samples[i].subject == subject && samples[i].path == path
  }

  ghost predicate OneRowPerPath(samples: seq<Sample>) {
    forall i, j :: 0 <= i < j < |samples| ==>
      samples[i].subject != samples[j].subject || samples[i].path != samples[j].path
  }

  lemma {:induction false} CountFindsRow(samples: seq<Sample>, subject: string, path: string)
    ensures CountRows(samples, subject, path) > 0 <==> HasRow(samples, subject, path)
  {
    if samples != [] {
      var n := |samples| - 1;
      CountFindsRow(samples[..n], subject, path);
      if i :| 0 <= i < |samples| && samples[i].subject == subject && samples[i].path == path {
        if i < n {
          assert samples[..n][i] == samples[i];
        }
      }
    }
  }

  lemma {:induction false} RowsOfOthers(samples: seq<Sample>, subject: string, path: string, imageId: string,
                                        other: string)
    requires other != subject
    ensures RowsOf(WithImageId(samples, subject, path, imageId), other) == RowsOf(samples, other)
  {
    if samples != [] {
      var n := |samples| - 1;
      assert WithImageId(samples, subject, path, imageId)[..n] == WithImageId(samples[..n], subject, path, imageId);
      RowsOfOthers(samples[..n], subject, path, imageId, other);
    }
  }

  /** What a push promises of the rows: keys stay in place, it may add its own, and other subjects' rows stay. */
  ghost predicate PushKeeps(samples: seq<Sample>, after: seq<Sample>, subject: string) {
    && Keys(samples) <= Keys(after)
    && (OneRowPerPath(samples) ==> OneRowPerPath(after))
    && (forall other :: other != subject ==> RowsOf(after, other) == RowsOf(samples, other))
  }

  lemma AppendKeeps(samples: seq<Sample>, x: Sample)
    requires !HasRow(samples, x.subject, x.path)
    ensures PushKeeps(samples, samples + [x], x.subject) && HasRow(samples + [x], x.subject, x.path)
  {
    var after := samples + [x];
    assert after[|samples|] == x && after[..|samples|] == samples;
    assert forall i :: 0 <= i < |samples| ==> !(samples[i].subject == x.subject && samples[i].path == x.path);
  }

  lemma SameKeysKeep(samples: seq<Sample>, after: seq<Sample>)
    requires Keys(after) == Keys(samples)
    ensures OneRowPerPath(samples) ==> OneRowPerPath(after)
    ensures |after| == |samples|
  {
    assert |Keys(after)| == |after| && |Keys(samples)| == |samples|;
    forall i | 0 <= i < |samples|
      ensures after[i].subject == samples[i].subject && after[i].path == samples[i].path
    {
      assert Keys(after)[i] == Keys(samples)[i];
    }
  }

  lemma UpdateKeeps(samples: seq<Sample>, subject: string, path: string, imageId: string)
    requires HasRow(samples, subject, path)
    ensures var after := WithImageId(samples, subject, path, imageId);
            PushKeeps(samples, after, subject) && Keys(after) == Keys(samples) && HasRow(after, subject, path)
  {
    var after := WithImageId(samples, subject, path, imageId);
    var i :| 0 <= i < |samples| && samples[i].subject == subject && samples[i].path == path;
    assert after[i].subject == subject && after[i].path == path;
    assert Keys(after) == Keys(samples);
    SameKeysKeep(samples, after);
    forall other | other != subject
      ensures RowsOf(after, other) == RowsOf(samples, other)
    {
      RowsOfOthers(samples, subject, path, imageId, other);
    }
  }

  lemma PushOneRows(samples: seq<Sample>, subject: string, image: string, reply: Reply)
    ensures var (after, ok) := PushOne(samples, subject, image, reply);
            && PushKeeps(samples, after, subject)
            && (reply.Pushed? ==> HasRow(after, subject, PathOf(subject, image)))
            && (HasRow(samples, subject, PathOf(subject, image)) || !reply.Pushed? ==> Keys(after) == Keys(samples))
  {
    var path := PathOf(subject, image);
    CountFindsRow(samples, subject, path);
    if reply.Pushed? {
      if CountRows(samples, subject, path) == 0 {
        AppendKeeps(samples, Sample(subject, path, reply.imageId, "backfill"));
      } else {
        UpdateKeeps(samples, subject, path, reply.imageId);
      }
    }
  }

  lemma KeysCarryRows(before: seq<Sample>, after: seq<Sample>, subject: string, path: string)
    requires Keys(before) <= Keys(after) && HasRow(before, subject, path)
    ensures HasRow(after, subject, path)
  {
    var i :| 0 <= i < |before| && before[i].subject == subject && before[i].path == path;
    assert Keys(before)[i] == Keys(after)[i];
  }

  lemma {:induction false} PushAllRows(samples: seq<Sample>, subject: string, images: seq<string>, remote: Remote)
    ensures var p := PushAll(samples, subject, images, remote);
            && p.pushed + p.errors == |images|
            && PushKeeps(samples, p.samples, subject)
            && (forall i :: 0 <= i < |images| && remote(subject, images[i]).Pushed? ==>
                  HasRow(p.samples, subject, PathOf(subject, images[i])))
  {
    if images != [] {
      var n := |images| - 1;
      PushAllRows(samples, subject, images[..n], remote);
      var p := PushAll(samples, subject, images[..n], remote);
      PushOneRows(p.samples, subject, images[n], remote(subject, images[n]));
      var after := PushAll(samples, subject, images, remote).samples;
      forall i | 0 <= i < n && remote(subject, images[i]).Pushed?
        ensures HasRow(after, subject, PathOf(subject, images[i]))
      {
        assert images[..n][i] == images[i];
        KeysCarryRows(p.samples, after, subject, PathOf(subject, images[i]));
      }
    }
  }

  /** Pushing images that have a row already, where the push goes through at all, adds no row. */
  lemma {:induction false} PushAllAddsNothing(samples: seq<Sample>, subject: string, images: seq<string>,
                                              remote: Remote)
    requires forall i :: 0 <= i < |images| && remote(subject, images[i]).Pushed? ==>
               HasRow(samples, subject, PathOf(subject, images[i]))
    ensures Keys(PushAll(samples, subject, images, remote).samples) == Keys(samples)
  {
    if images != [] {
      var n := |images| - 1;
      assert forall i :: 0 <= i < n ==> images[..n][i] == images[i];
      PushAllAddsNothing(samples, subject, images[..n], remote);
      var p := PushAll(samples, subject, images[..n], remote);
      PushOneRows(p.samples, subject, images[n], remote(subject, images[n]));
      if remote(subject, images[n]).Pushed? {
        KeysCarryRows(samples, p.samples, subject, PathOf(subject, images[n]));
      }
    }
  }

  // ----- the accounts and the rows of a whole run

  ghost predicate Counted(db: Db, subject: string) {
    subject in db.subjects ==> db.subjects[subject].sampleCount == |RowsOf(db.samples, subject)|
  }

  /** The directory of a subject that is scanned and not purged. */
  ghost predicate Processed(db: Db, disk: seq<Entry>, subject: string) {
    !IsPurged(db, subject) && exists i :: 0 <= i < |disk| && disk[i].isDir && disk[i].name == subject
  }

  lemma SameFlags(db: Db, r: Report, e: Entry, remote: Remote, dryRun: bool)
    ensures var after := Dir(db, r, e, remote, dryRun).0;
            && after.subjects.Keys == db.subjects.Keys
            && forall s :: s in db.subjects ==> after.subjects[s].purged == db.subjects[s].purged
                                                && after.subjects[s].contactId == db.subjects[s].contactId
  {
  }

  lemma {:induction false} ScanFlags(db: Db, disk: seq<Entry>, remote: Remote, dryRun: bool)
    ensures var after := Scan(db, disk, remote, dryRun).0;
            && after.subjects.Keys == db.subjects.Keys
            && forall s :: s in db.subjects ==> after.subjects[s].purged == db.subjects[s].purged
                                                && after.subjects[s].contactId == db.subjects[s].contactId
  {
    if disk != [] {
      var n := |disk| - 1;
      ScanFlags(db, disk[..n], remote, dryRun);
      SameFlags(Scan(db, disk[..n], remote, dryRun).0, Scan(db, disk[..n], remote, dryRun).1, disk[n], remote, dryRun);
    }
  }

  /** Found samples are pushed or errors; a dry run finds the same samples and writes nothing. */
  lemma {:induction false} ReportAddsUp(db: Db, disk: seq<Entry>, remote: Remote)
    ensures var r, dry := Scan(db, disk, remote, false).1, Scan(db, disk, remote, true);
            && r.found == r.pushed + r.errors
            && dry == (db, Report(r.scanned, r.found, 0, 0))
  {
    if disk != [] {
      var n := |disk| - 1;
      ReportAddsUp(db, disk[..n], remote);
      ScanFlags(db, disk[..n], remote, false);
      var db1 := Scan(db, disk[..n], remote, false).0;
      PushAllRows(db1.samples, disk[n].name, disk[n].images, remote);
    }
  }

  /** A directory's processing leaves every other subject's rows and count alone, and counts its own. */
  lemma DirRows(db: Db, r: Report, e: Entry, remote: Remote)
    ensures var after := Dir(db, r, e, remote, false).0;
            && Keys(db.samples) <= Keys(after.samples)
            && (OneRowPerPath(db.samples) ==> OneRowPerPath(after.samples))
            && (e.isDir && !IsPurged(db, e.name) ==> Counted(after, e.name))
            && (forall s :: s != e.name || !e.isDir || IsPurged(db, s) ==>
                  RowsOf(after.samples, s) == RowsOf(db.samples, s)
                  && (s in db.subjects ==> after.subjects[s] == db.subjects[s]))
  {
    PushAllRows(db.samples, e.name, e.images, remote);
  }

  /**
   After a run: one row per path if it was so before, the count of every scanned subject that is not
   purged is its number of rows, and purged or unscanned subjects keep their rows and their count.
   */
  lemma {:induction false} ScanRows(db: Db, disk: seq<Entry>, remote: Remote, subject: string)
    ensures var after := Scan(db, disk, remote, false).0;
            && after.subjects.Keys == db.subjects.Keys
            && (OneRowPerPath(db.samples) ==> OneRowPerPath(after.samples))
            && (Processed(db, disk, subject) ==> Counted(after, subject))
            && (!Processed(db, disk, subject) ==>
                  RowsOf(after.samples, subject) == RowsOf(db.samples, subject)
                  && (subject in db.subjects ==> after.subjects[subject] == db.subjects[subject]))
  {
    if disk != [] {
      var n := |disk| - 1;
      ScanRows(db, disk[..n], remote, subject);
      ScanFlags(db, disk[..n], remote, false);
      var (db1, r) := Scan(db, disk[..n], remote, false);
      DirRows(db1, r, disk[n], remote);
      ProcessedExtends(db, disk, subject);
    }
  }

  lemma ProcessedExtends(db: Db, disk: seq<Entry>, subject: string)
    requires disk != []
    ensures var n := |disk| - 1;
            Processed(db, disk, subject) <==>
            Processed(db, disk[..n], subject) || (!IsPurged(db, subject) && disk[n].isDir && disk[n].name == subject)
  {
    var n := |disk| - 1;
    if Processed(db, disk[..n], subject) {
      var i :| 0 <= i < |disk[..n]| && disk[..n][i].isDir && disk[..n][i].name == subject;
      assert disk[i].isDir && disk[i].name == subject;
    }
    if Processed(db, disk, subject) {
      var i :| 0 <= i < |disk| && disk[i].isDir && disk[i].name == subject;
      if i < n {
        assert disk[..n][i] == disk[i];
      }
    }
  }

  lemma {:induction false} ScanPushesRows(db: Db, disk: seq<Entry>, remote: Remote, d: nat, k: nat)
    requires d < |disk| && k < |disk[d].images| && disk[d].isDir && !IsPurged(db, disk[d].name)
    requires remote(disk[d].name, disk[d].images[k]).Pushed?
    ensures HasRow(Scan(db, disk, remote, false).0.samples, disk[d].name, PathOf(disk[d].name, disk[d].images[k]))
  {
    var n := |disk| - 1;
    var (db1, r) := Scan(db, disk[..n], remote, false);
    ScanFlags(db, disk[..n], remote, false);
    if d < n {
      ScanPushesRows(db, disk[..n], remote, d, k);
      DirRows(db1, r, disk[n], remote);
      KeysCarryRows(db1.samples, Scan(db, disk, remote, false).0.samples,
                    disk[d].name, PathOf(disk[d].name, disk[d].images[k]));
    } else {
      PushAllRows(db1.samples, disk[n].name, disk[n].images, remote);
    }
  }

  /** Every image the scan manages to push has a row already. */
  ghost predicate PushesKnown(db: Db, disk: seq<Entry>, remote: Remote) {
    forall d, k ::
      (0 <= d < |disk| && 0 <= k < |disk[d].images| && disk[d].isDir && !IsPurged(db, disk[d].name)
       && remote(disk[d].name, disk[d].images[k]).Pushed?) ==>
      HasRow(db.samples, disk[d].name, PathOf(disk[d].name, disk[d].images[k]))
  }

  lemma {:induction false} KnownAddsNothing(db: Db, disk: seq<Entry>, remote: Remote)
    requires PushesKnown(db, disk, remote)
    ensures Keys(Scan(db, disk, remote, false).0.samples) == Keys(db.samples)
  {
    if disk != [] {
      var n := |disk| - 1;
      assert forall d :: 0 <= d < n ==> disk[..n][d] == disk[d];
      KnownAddsNothing(db, disk[..n], remote);
      ScanFlags(db, disk[..n], remote, false);
      var (db1, r) := Scan(db, disk[..n], remote, false);
      var e := disk[n];
      if e.isDir && !IsPurged(db, e.name) {
        forall k | 0 <= k < |e.images| && remote(e.name, e.images[k]).Pushed?
          ensures HasRow(db1.samples, e.name, PathOf(e.name, e.images[k]))
        {
          KeysCarryRows(db.samples, db1.samples, e.name, PathOf(e.name, e.images[k]));
        }
        PushAllAddsNothing(db1.samples, e.name, e.images, remote);
      }
    }
  }

  /** A scan adds no row if and only if every image it manages to push has one already. */
  lemma ScanAddsNothingExactly(db: Db, disk: seq<Entry>, remote: Remote)
    ensures Keys(Scan(db, disk, remote, false).0.samples) == Keys(db.samples) <==> PushesKnown(db, disk, remote)
  {
    var after := Scan(db, disk, remote, false).0.samples;
    if PushesKnown(db, disk, remote) {
      KnownAddsNothing(db, disk, remote);
    } else {
      var d, k :| 0 <= d < |disk| && 0 <= k < |disk[d].images| && disk[d].isDir && !IsPurged(db, disk[d].name)
                  && remote(disk[d].name, disk[d].images[k]).Pushed?
                  && !HasRow(db.samples, disk[d].name, PathOf(disk[d].name, disk[d].images[k]));
      ScanPushesRows(db, disk, remote, d, k);
      if Keys(after) == Keys(db.samples) {
        KeysCarryRows(after, db.samples, disk[d].name, PathOf(disk[d].name, disk[d].images[k]));
        assert false;
      }
    }
  }

  /** A second run on the same disk adds no row, provided it pushes nothing the first run failed to push. */
  lemma SecondRunAddsNothing(db: Db, disk: seq<Entry>, first: Remote, second: Remote)
    requires forall s, image :: second(s, image).Pushed? ==> first(s, image).Pushed?
    ensures var once := Scan(db, disk, first, false).0;
            Keys(Scan(once, disk, second, false).0.samples) == Keys(once.samples)
  {
    var once := Scan(db, disk, first, false).0;
    ScanFlags(db, disk, first, false);
    forall d, k | 0 <= d < |disk| && 0 <= k < |disk[d].images| && disk[d].isDir && !IsPurged(once, disk[d].name)
                  && second(disk[d].name, disk[d].images[k]).Pushed?
      ensures HasRow(once.samples, disk[d].name, PathOf(disk[d].name, disk[d].images[k]))
    {
      ScanPushesRows(db, disk, first, d, k);
    }
    KnownAddsNothing(once, disk, second);
  }

  // ----- when the foreign key ends the run

  /** Some image of a directory without a subject is pushed, and has no row yet. */
  ghost predicate PushesUnknown(db: Db, disk: seq<Entry>, remote: Remote) {
    exists d, k ::
      && 0 <= d < |disk| && 0 <= k < |disk[d].images| && disk[d].isDir && disk[d].name !in db.subjects
      && remote(disk[d].name, disk[d].images[k]).Pushed?
      && !HasRow(db.samples, disk[d].name, PathOf(disk[d].name, disk[d].images[k]))
  }

  /** A row that pushing a directory's images adds belongs to an image that was pushed and had none. */
  ghost predicate FromImage(samples: seq<Sample>, x: Sample, subject: string, images: seq<string>, remote: Remote) {
    && x.subject == subject && !HasRow(samples, subject, x.path)
    && exists k :: 0 <= k < |images| && remote(subject, images[k]).Pushed? && x.path == PathOf(subject, images[k])
  }

  lemma {:induction false} PushAllNewRows(samples: seq<Sample>, subject: string, images: seq<string>, remote: Remote,
                                          i: nat)
    requires |samples| <= i < |PushAll(samples, subject, images, remote).samples|
    ensures FromImage(samples, PushAll(samples, subject, images, remote).samples[i], subject, images, remote)
  {
    if images != [] {
      var n := |images| - 1;
      var p := PushAll(samples, subject, images[..n], remote);
      var after := PushAll(samples, subject, images, remote).samples;
      PushAllRows(samples, subject, images[..n], remote);
      PushOneRows(p.samples, subject, images[n], remote(subject, images[n]));
      if i < |p.samples| {
        PushAllNewRows(samples, subject, images[..n], remote, i);
        assert Keys(p.samples)[i] == Keys(after)[i];
        var k :| 0 <= k < n && remote(subject, images[..n][k]).Pushed?
                 && p.samples[i].path == PathOf(subject, images[..n][k]);
        assert images[k] == images[..n][k];
      } else {
        CountFindsRow(p.samples, subject, PathOf(subject, images[n]));
        if HasRow(samples, subject, after[i].path) {
          KeysCarryRows(samples, p.samples, subject, after[i].path);
        }
      }
    }
  }

  lemma {:induction false} NewRowsUnknown(db: Db, disk: seq<Entry>, remote: Remote, i: nat)
    requires var after := Scan(db, disk, remote, false).0;
             |db.samples| <= i < |after.samples| && after.samples[i].subject !in db.subjects
    ensures PushesUnknown(db, disk, remote)
  {
    if disk != [] {
      var n, e := |disk| - 1, disk[|disk| - 1];
      var (db1, r) := Scan(db, disk[..n], remote, false);
      var after := Scan(db, disk, remote, false).0;
      ScanFlags(db, disk[..n], remote, false);
      ScanKeepsKeys(db, disk[..n], remote);
      DirRows(db1, r, e, remote);
      if i < |db1.samples| {
        assert Keys(db1.samples)[i] == Keys(after.samples)[i];
        NewRowsUnknown(db, disk[..n], remote, i);
        var d, k :| 0 <= d < n && 0 <= k < |disk[..n][d].images|
                    && disk[..n][d].isDir && disk[..n][d].name !in db.subjects
                    && remote(disk[..n][d].name, disk[..n][d].images[k]).Pushed?
                    && !HasRow(db.samples, disk[..n][d].name, PathOf(disk[..n][d].name, disk[..n][d].images[k]));
        assert disk[..n][d] == disk[d];
      } else {
        PushAllNewRows(db1.samples, e.name, e.images, remote, i);
        if HasRow(db.samples, e.name, after.samples[i].path) {
          KeysCarryRows(db.samples, db1.samples, e.name, after.samples[i].path);
        }
        var k :| 0 <= k < |e.images| && remote(e.name, e.images[k]).Pushed?
                 && after.samples[i].path == PathOf(e.name, e.images[k]);
        assert disk[n].name !in db.subjects;
      }
    }
  }

  lemma {:induction false} ScanKeepsKeys(db: Db, disk: seq<Entry>, remote: Remote)
    ensures Keys(db.samples) <= Keys(Scan(db, disk, remote, false).0.samples)
  {
    if disk != [] {
      var n := |disk| - 1;
      var (db1, r) := Scan(db, disk[..n], remote, false);
      ScanKeepsKeys(db, disk[..n], remote);
      DirRows(db1, r, disk[n], remote);
    }
  }

  /** An enforced foreign key ends the run iff an image without a row is pushed from a directory without a subject. */
  lemma ForeignKeyFailsExactly(db: Db, disk: seq<Entry>, remote: Remote)
    ensures AddsDangling(db, Scan(db, disk, remote, false).0) <==> PushesUnknown(db, disk, remote)
    ensures !AddsDangling(db, Scan(db, disk, remote, true).0)
  {
    var after := Scan(db, disk, remote, false).0;
    ReportAddsUp(db, disk, remote);
    if i :| |db.samples| <= i < |after.samples| && after.samples[i].subject !in db.subjects {
      NewRowsUnknown(db, disk, remote, i);
    }
    if d, k :| 0 <= d < |disk| && 0 <= k < |disk[d].images| && disk[d].isDir && disk[d].name !in db.subjects
               && remote(disk[d].name, disk[d].images[k]).Pushed?
               && !HasRow(db.samples, disk[d].name, PathOf(disk[d].name, disk[d].images[k])) {
      ScanPushesRows(db, disk, remote, d, k);
      ScanKeepsKeys(db, disk, remote);
      var i :| 0 <= i < |after.samples| && after.samples[i].subject == disk[d].name
               && after.samples[i].path == PathOf(disk[d].name, disk[d].images[k]);
      if i < |db.samples| {
        assert Keys(db.samples)[i] == Keys(after.samples)[i];
      }
    }
  }

  /** One directory of a subject nobody knows, with one image that is pushed, ends the run. */
  lemma UnknownDirectoryFails(name: string, image: string)
    ensures var remote: Remote := (_, _) => Pushed("id");
            AddsDangling(Db([], map[]), Scan(Db([], map[]), [Entry(name, true, [image])], remote, false).0)
  {
    var db, disk := Db([], map[]), [Entry(name, true, [image])];
    var remote: Remote := (_, _) => Pushed("id");
    assert disk[0].images[0] == image && !HasRow(db.samples, name, PathOf(name, image));
    assert remote(disk[0].name, disk[0].images[0]).Pushed?;
    ForeignKeyFailsExactly(db, disk, remote);
  }

  lemma {:induction false} RowsConcat(a: seq<Sample>, b: seq<Sample>, subject: string)
    ensures RowsOf(a + b, subject) == RowsOf(a, subject) + RowsOf(b, subject)
  {
    if b == [] {
      assert a + b == a;
    } else {
      assert (a + b)[..|a + b| - 1] == a + b[..|b| - 1];
      RowsConcat(a, b[..|b| - 1], subject);
    }
  }

  lemma RowsWithout(a: seq<Sample>, x: Sample, b: seq<Sample>, subject: string)
    ensures RowsOf(a + b, subject) == RowsOf(a, subject) + RowsOf(b, subject)
    ensures RowsOf(a + [x] + b, subject) ==
            RowsOf(a, subject) + (if x.subject == subject then [x] else []) + RowsOf(b, subject)
  {
    RowsConcat(a + [x], b, subject);
    RowsConcat(a, b, subject);
    assert (a + [x])[..|a|] == a;
  }

  /** Removing a sample takes one row from its subject, whose count follows; other subjects keep rows and count. */
  lemma RemovalKeepsCounts(db: Db, k: int, subject: string)
    requires 0 <= k < |db.samples| && Counted(db, subject)
    ensures var after := Removed(db, k);
            && Counted(after, subject)
            && |RowsOf(after.samples, subject)| ==
               |RowsOf(db.samples, subject)| - (if db.samples[k].subject == subject then 1 else 0)
            && (db.samples[k].subject != subject ==> RowsOf(after.samples, subject) == RowsOf(db.samples, subject))
  {
    var a, x, b := db.samples[..k], db.samples[k], db.samples[k + 1..];
    assert db.samples == a + [x] + b;
    RowsWithout(a, x, b, subject);
    if x.subject != subject {
      assert RowsOf(a, subject) + [] == RowsOf(a, subject);
    }
  }

  /** A sample is removed exactly for the contact that its subject is linked to, and only while that is not purged. */
  lemma DeleteExactly(db: Db, contact: int, k: int)
    ensures DeleteVerdict(db, contact, k) == Deleted <==>
              && 0 <= k < |db.samples| && db.samples[k].subject in db.subjects
              && db.subjects[db.samples[k].subject].contactId == Some(contact)
              && !db.subjects[db.samples[k].subject].purged
    ensures DeleteVerdict(db, contact, k) == Purged <==>
              && 0 <= k < |db.samples| && db.samples[k].subject in db.subjects
              && db.subjects[db.samples[k].subject].contactId == Some(contact)
              && db.subjects[db.samples[k].subject].purged
    ensures 0 <= k < |db.samples| ==>
              && multiset(Removed(db, k).samples) == multiset(db.samples) - multiset{db.samples[k]}
              && Removed(db, k).subjects.Keys == db.subjects.Keys
              && forall s :: s in db.subjects && s != db.samples[k].subject ==>
                   Removed(db, k).subjects[s] == db.subjects[s]
  {
    if 0 <= k < |db.samples| {
      assert db.samples == db.samples[..k] + [db.samples[k]] + db.samples[k + 1..];
    }
  }
}

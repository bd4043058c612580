/** What a backfill leaves in the table and in its report, counted image by image. */
module BackfillRows {
  import opened Backfill

  // ----- how many rows a subject ends with

  /** Two images of a subject share a path only if they are the same. */
  lemma PathsDistinct(subject: string, a: string, b: string)
    ensures PathOf(subject, a) == PathOf(subject, b) <==> a == b
  {
    var p := "enrolled/" + subject + "/";
    assert PathOf(subject, a)[|p|..] == a && PathOf(subject, b)[|p|..] == b;
  }

  /** The images that are pushed, and have no row before. */
  ghost function NewImages(samples: seq<Sample>, subject: string, images: seq<string>, remote: Remote): set<string> {
    set k | 0 <= k < |images| && remote(subject, images[k]).Pushed?
            && !HasRow(samples, subject, PathOf(subject, images[k]))
      :: images[k]
  }

  lemma {:induction false} SameNumberOfRows(samples: seq<Sample>, subject: string, path: string, imageId: string)
    ensures |RowsOf(WithImageId(samples, subject, path, imageId), subject)| == |RowsOf(samples, subject)|
  {
    if samples != [] {
      var n := |samples| - 1;
      assert WithImageId(samples, subject, path, imageId)[..n] == WithImageId(samples[..n], subject, path, imageId);
      SameNumberOfRows(samples[..n], subject, path, imageId);
    }
  }

  lemma RowsOfAppended(samples: seq<Sample>, x: Sample)
    ensures RowsOf(samples + [x], x.subject) == RowsOf(samples, x.subject) + [x]
  {
    assert (samples + [x])[..|samples|] == samples;
  }

  lemma PushOneCounts(samples: seq<Sample>, subject: string, image: string, reply: Reply)
    ensures |RowsOf(PushOne(samples, subject, image, reply).0, subject)| ==
            |RowsOf(samples, subject)| +
            if reply.Pushed? && !HasRow(samples, subject, PathOf(subject, image)) then 1 else 0
  {
    var path := PathOf(subject, image);
    CountFindsRow(samples, subject, path);
    if reply.Pushed? {
      RowsOfAppended(samples, Sample(subject, path, reply.imageId, "backfill"));
      SameNumberOfRows(samples, subject, path, reply.imageId);
    }
  }

  /** After pushing some images a path has a row exactly if it had one, or its image was among those pushed. */
  lemma RowsAfterPushes(samples: seq<Sample>, subject: string, images: seq<string>, remote: Remote, image: string)
    ensures HasRow(PushAll(samples, subject, images, remote).samples, subject, PathOf(subject, image)) <==>
              || HasRow(samples, subject, PathOf(subject, image))
              || image in NewImages(samples, subject, images, remote)
  {
    var path := PathOf(subject, image);
    var after := PushAll(samples, subject, images, remote).samples;
    PushAllRows(samples, subject, images, remote);
    if HasRow(samples, subject, path) {
      KeysCarryRows(samples, after, subject, path);
    }
    if HasRow(after, subject, path) {
      var i :| 0 <= i < |after| && after[i].subject == subject && after[i].path == path;
      if i < |samples| {
        assert Keys(samples)[i] == Keys(after)[i];
      } else {
        PushAllNewRows(samples, subject, images, remote, i);
        var k :| 0 <= k < |images| && remote(subject, images[k]).Pushed? && path == PathOf(subject, images[k]);
        PathsDistinct(subject, image, images[k]);
      }
    }
  }

  lemma NewImagesExtend(samples: seq<Sample>, subject: string, images: seq<string>, remote: Remote)
    requires images != []
    ensures var n := |images| - 1;
            NewImages(samples, subject, images, remote) ==
            NewImages(samples, subject, images[..n], remote) +
            if remote(subject, images[n]).Pushed? && !HasRow(samples, subject, PathOf(subject, images[n]))
            then {images[n]} else {}
  {
    var n := |images| - 1;
    assert forall k :: 0 <= k < n ==> images[..n][k] == images[k];
  }

  lemma {:induction false} PushAllCounts(samples: seq<Sample>, subject: string, images: seq<string>, remote: Remote)
    ensures |RowsOf(PushAll(samples, subject, images, remote).samples, subject)| ==
            |RowsOf(samples, subject)| + |NewImages(samples, subject, images, remote)|
  {
    if images != [] {
      var n := |images| - 1;
      PushAllCounts(samples, subject, images[..n], remote);
      var p := PushAll(samples, subject, images[..n], remote);
      PushOneCounts(p.samples, subject, images[n], remote(subject, images[n]));
      RowsAfterPushes(samples, subject, images[..n], remote, images[n]);
      NewImagesExtend(samples, subject, images, remote);
    }
  }

  /** The images of the subject's directory that the scan pushes and that have no row. */
  ghost function NewOnDisk(db: Db, disk: seq<Entry>, remote: Remote, subject: string): set<string> {
    set d, k | 0 <= d < |disk| && 0 <= k < |disk[d].images| && disk[d].isDir && disk[d].name == subject
               && remote(subject, disk[d].images[k]).Pushed?
               && !HasRow(db.samples, subject, PathOf(subject, disk[d].images[k]))
      :: disk[d].images[k]
  }

  lemma {:induction false} HasRowInRows(samples: seq<Sample>, subject: string, path: string)
    ensures HasRow(samples, subject, path) <==> HasRow(RowsOf(samples, subject), subject, path)
  {
    if samples != [] {
      var n := |samples| - 1;
      HasRowInRows(samples[..n], subject, path);
      HasRowExtends(samples, subject, path);
      if samples[n].subject == subject {
        RowsOfAppended(samples[..n], samples[n]);
        assert samples[..n] + [samples[n]] == samples;
        var rows := RowsOf(samples, subject);
        assert rows[..|rows| - 1] == RowsOf(samples[..n], subject);
        HasRowExtends(rows, subject, path);
      } else {
        assert RowsOf(samples[..n], subject) + [] == RowsOf(samples[..n], subject);
      }
    }
  }

  lemma HasRowExtends(samples: seq<Sample>, subject: string, path: string)
    requires samples != []
    ensures var n := |samples| - 1;
            HasRow(samples, subject, path) <==>
            HasRow(samples[..n], subject, path) || (samples[n].subject == subject && samples[n].path == path)
  {
    var n := |samples| - 1;
    if HasRow(samples[..n], subject, path) {
      var i :| 0 <= i < n && samples[..n][i].subject == subject && samples[..n][i].path == path;
      assert samples[i].subject == subject;
    }
    if i :| 0 <= i < |samples| && samples[i].subject == subject && samples[i].path == path {
      assert i < n ==> samples[..n][i] == samples[i];
    }
  }

  /** Which paths of a subject have rows after a scan, and how many rows it has. */
  lemma {:induction false} ScanCounts(db: Db, disk: seq<Entry>, remote: Remote, subject: string)
    requires !IsPurged(db, subject)
    ensures var after := Scan(db, disk, remote, false).0;
            && |RowsOf(after.samples, subject)| ==
               |RowsOf(db.samples, subject)| + |NewOnDisk(db, disk, remote, subject)|
            && forall image :: HasRow(after.samples, subject, PathOf(subject, image)) <==>
                 || HasRow(db.samples, subject, PathOf(subject, image))
                 || image in NewOnDisk(db, disk, remote, subject)
  {
    if disk != [] {
      var n, e := |disk| - 1, disk[|disk| - 1];
      ScanCounts(db, disk[..n], remote, subject);
      ScanFlags(db, disk[..n], remote, false);
      var (db1, r) := Scan(db, disk[..n], remote, false);
      DirRows(db1, r, e, remote);
      var after := Scan(db, disk, remote, false).0;
      if e.isDir && e.name == subject {
        DirCounts(db, db1, disk, remote, subject);
      } else {
        assert RowsOf(after.samples, subject) == RowsOf(db1.samples, subject);
        NewOnDiskStays(db, disk, remote, subject);
        forall image
          ensures HasRow(after.samples, subject, PathOf(subject, image)) <==>
                  HasRow(db1.samples, subject, PathOf(subject, image))
        {
          HasRowInRows(after.samples, subject, PathOf(subject, image));
          HasRowInRows(db1.samples, subject, PathOf(subject, image));
        }
      }
    }
  }

  lemma NewOnDiskStays(db: Db, disk: seq<Entry>, remote: Remote, subject: string)
    requires disk != [] && !(disk[|disk| - 1].isDir && disk[|disk| - 1].name == subject)
    ensures NewOnDisk(db, disk, remote, subject) == NewOnDisk(db, disk[..|disk| - 1], remote, subject)
  {
    var n := |disk| - 1;
    assert forall d :: 0 <= d < n ==> disk[..n][d] == disk[d];
  }

  lemma NewOnDiskGrows(db: Db, mid: seq<Sample>, disk: seq<Entry>, remote: Remote, subject: string)
    requires disk != []
    requires var e := disk[|disk| - 1]; e.isDir && e.name == subject
    requires forall image :: HasRow(mid, subject, PathOf(subject, image)) <==>
               || HasRow(db.samples, subject, PathOf(subject, image))
               || image in NewOnDisk(db, disk[..|disk| - 1], remote, subject)
    ensures var known := NewOnDisk(db, disk[..|disk| - 1], remote, subject);
            var added := NewImages(mid, subject, disk[|disk| - 1].images, remote);
            NewOnDisk(db, disk, remote, subject) == known + added && known !! added
  {
    var n := |disk| - 1;
    assert forall d :: 0 <= d < n ==> disk[..n][d] == disk[d];
  }

  /** The case of a directory of the subject itself. */
  lemma DirCounts(db: Db, db1: Db, disk: seq<Entry>, remote: Remote, subject: string)
    requires disk != [] && !IsPurged(db, subject)
    requires var e := disk[|disk| - 1]; e.isDir && e.name == subject
    requires db1 == Scan(db, disk[..|disk| - 1], remote, false).0 && !IsPurged(db1, subject)
    requires |RowsOf(db1.samples, subject)| ==
             |RowsOf(db.samples, subject)| + |NewOnDisk(db, disk[..|disk| - 1], remote, subject)|
    requires forall image :: HasRow(db1.samples, subject, PathOf(subject, image)) <==>
               || HasRow(db.samples, subject, PathOf(subject, image))
               || image in NewOnDisk(db, disk[..|disk| - 1], remote, subject)
    ensures var after := Scan(db, disk, remote, false).0;
            && |RowsOf(after.samples, subject)| ==
               |RowsOf(db.samples, subject)| + |NewOnDisk(db, disk, remote, subject)|
            && forall image :: HasRow(after.samples, subject, PathOf(subject, image)) <==>
                 || HasRow(db.samples, subject, PathOf(subject, image))
                 || image in NewOnDisk(db, disk, remote, subject)
  {
    var images := disk[|disk| - 1].images;
    var after := Scan(db, disk, remote, false).0;
    assert after.samples == PushAll(db1.samples, subject, images, remote).samples;
    NewOnDiskGrows(db, db1.samples, disk, remote, subject);
    PushAllCounts(db1.samples, subject, images, remote);
    forall image
      ensures HasRow(after.samples, subject, PathOf(subject, image)) <==>
                || HasRow(db.samples, subject, PathOf(subject, image))
                || image in NewOnDisk(db, disk, remote, subject)
    {
      RowsAfterPushes(db1.samples, subject, images, remote, image);
    }
  }

  /**
   A subject that is not purged ends with its rows before and one for each image of its directory that was
   pushed and had none; if it was scanned and is known, that is its count.
   */
  lemma RowsAddedExactly(db: Db, disk: seq<Entry>, remote: Remote, subject: string)
    requires !IsPurged(db, subject)
    ensures var after := Scan(db, disk, remote, false).0;
            var rows := |RowsOf(db.samples, subject)| + |NewOnDisk(db, disk, remote, subject)|;
            && |RowsOf(after.samples, subject)| == rows
            && (Processed(db, disk, subject) && subject in db.subjects ==>
                  subject in after.subjects && after.subjects[subject].sampleCount == rows)
  {
    ScanCounts(db, disk, remote, subject);
    ScanRows(db, disk, remote, subject);
  }

  /** So n distinct images of a subject without rows, all of them pushed, give n rows and the count n. */
  lemma FirstBackfillCounts(db: Db, subject: string, images: seq<string>, remote: Remote)
    requires subject in db.subjects && !db.subjects[subject].purged && RowsOf(db.samples, subject) == []
    requires forall i, j :: 0 <= i < j < |images| ==> images[i] != images[j]
    requires forall k :: 0 <= k < |images| ==> remote(subject, images[k]).Pushed?
    ensures var after := Scan(db, [Entry(subject, true, images)], remote, false).0;
            && |RowsOf(after.samples, subject)| == |images|
            && subject in after.subjects && after.subjects[subject].sampleCount == |images|
  {
    var disk := [Entry(subject, true, images)];
    assert disk[0].isDir && disk[0].name == subject;
    RowsAddedExactly(db, disk, remote, subject);
    forall image: string
      ensures image in NewOnDisk(db, disk, remote, subject) <==> image in images
    {
      HasRowInRows(db.samples, subject, PathOf(subject, image));
      if image in images {
        var k :| 0 <= k < |images| && images[k] == image;
        assert disk[0].images[k] == image;
      }
    }
    assert NewOnDisk(db, disk, remote, subject) == set image | image in images;
    DistinctCount(images);
  }

  lemma {:induction false} DistinctCount(images: seq<string>)
    requires forall i, j :: 0 <= i < j < |images| ==> images[i] != images[j]
    ensures |set image | image in images| == |images|
  {
    if images != [] {
      var n := |images| - 1;
      DistinctCount(images[..n]);
      assert (set image | image in images) == (set image | image in images[..n]) + {images[n]};
    }
  }

  /** A purged subject keeps its rows, its count and its mark, whatever is in its directory. */
  lemma PurgedIsUntouched(db: Db, disk: seq<Entry>, remote: Remote, dryRun: bool, subject: string)
    requires subject in db.subjects && db.subjects[subject].purged
    ensures var after := Scan(db, disk, remote, dryRun).0;
            && RowsOf(after.samples, subject) == RowsOf(db.samples, subject)
            && subject in after.subjects && after.subjects[subject] == db.subjects[subject]
  {
    ReportAddsUp(db, disk, remote);
    ScanRows(db, disk, remote, subject);
  }

  // ----- what the rows carry

  /** Nothing of a row changes but its image id, and the rows added are marked as backfill. */
  ghost predicate RowsCarry(before: seq<Sample>, after: seq<Sample>) {
    && |before| <= |after|
    && (forall i :: 0 <= i < |before| ==> after[i] == before[i].(imageId := after[i].imageId))
    && (forall i :: |before| <= i < |after| ==> after[i].source == "backfill")
  }

  /** Every row of the path has the image id. */
  ghost predicate Carries(samples: seq<Sample>, subject: string, path: string, imageId: string) {
    forall i :: 0 <= i < |samples| && samples[i].subject == subject && samples[i].path == path ==>
      samples[i].imageId == imageId
  }

  lemma PushOneRowsCarry(samples: seq<Sample>, subject: string, image: string, reply: Reply)
    ensures RowsCarry(samples, PushOne(samples, subject, image, reply).0)
  {
  }

  lemma PushOneSetsId(samples: seq<Sample>, subject: string, image: string, reply: Reply)
    requires OneRowPerPath(samples) && reply.Pushed?
    ensures Carries(PushOne(samples, subject, image, reply).0, subject, PathOf(subject, image), reply.imageId)
  {
    var path := PathOf(subject, image);
    CountFindsRow(samples, subject, path);
    CountAtMostOne(samples, subject, path);
  }

  /** A row keeps its image id unless the push is for its path, goes through, and is answered with another. */
  lemma PushOneKeepsId(samples: seq<Sample>, subject: string, image: string, reply: Reply,
                       s: string, path: string, id: string)
    requires Carries(samples, s, path, id)
    requires s == subject && path == PathOf(subject, image) && reply.Pushed? ==> reply.imageId == id
    ensures Carries(PushOne(samples, subject, image, reply).0, s, path, id)
  {
  }

  lemma {:induction false} CountAtMostOne(samples: seq<Sample>, subject: string, path: string)
    requires OneRowPerPath(samples)
    ensures CountRows(samples, subject, path) <= 1
  {
    if samples != [] {
      var n := |samples| - 1;
      CountAtMostOne(samples[..n], subject, path);
      CountFindsRow(samples[..n], subject, path);
    }
  }

  lemma {:induction false} PushAllRowsCarry(samples: seq<Sample>, subject: string, images: seq<string>, remote: Remote)
    ensures RowsCarry(samples, PushAll(samples, subject, images, remote).samples)
  {
    if images != [] {
      var n := |images| - 1;
      var p := PushAll(samples, subject, images[..n], remote);
      PushAllRowsCarry(samples, subject, images[..n], remote);
      PushOneRowsCarry(p.samples, subject, images[n], remote(subject, images[n]));
      RowsCarryOn(samples, p.samples, PushAll(samples, subject, images, remote).samples);
    }
  }

  lemma {:induction false} PushAllKeepsId(samples: seq<Sample>, subject: string, images: seq<string>, remote: Remote,
                                          s: string, path: string, id: string)
    requires Carries(samples, s, path, id)
    requires s == subject ==>
               forall k ::
                 0 <= k < |images| && PathOf(subject, images[k]) == path && remote(subject, images[k]).Pushed? ==>
                 remote(subject, images[k]).imageId == id
    ensures Carries(PushAll(samples, subject, images, remote).samples, s, path, id)
  {
    if images != [] {
      var n := |images| - 1;
      assert forall k :: 0 <= k < n ==> images[..n][k] == images[k];
      PushAllKeepsId(samples, subject, images[..n], remote, s, path, id);
      PushOneKeepsId(PushAll(samples, subject, images[..n], remote).samples, subject, images[n],
                     remote(subject, images[n]), s, path, id);
    }
  }

  lemma {:induction false} PushAllSetsId(samples: seq<Sample>, subject: string, images: seq<string>, remote: Remote,
                                         k: nat)
    requires OneRowPerPath(samples) && k < |images| && remote(subject, images[k]).Pushed?
    ensures Carries(PushAll(samples, subject, images, remote).samples,
                    subject, PathOf(subject, images[k]), remote(subject, images[k]).imageId)
  {
    var n := |images| - 1;
    var p := PushAll(samples, subject, images[..n], remote);
    PushAllRows(samples, subject, images[..n], remote);
    if k < n {
      PushAllSetsId(samples, subject, images[..n], remote, k);
      PathsDistinct(subject, images[k], images[n]);
      PushOneKeepsId(p.samples, subject, images[n], remote(subject, images[n]),
                     subject, PathOf(subject, images[k]), remote(subject, images[k]).imageId);
    } else {
      PushOneSetsId(p.samples, subject, images[n], remote(subject, images[n]));
    }
  }

  lemma RowsCarryOn(a: seq<Sample>, b: seq<Sample>, c: seq<Sample>)
    requires RowsCarry(a, b) && RowsCarry(b, c)
    ensures RowsCarry(a, c)
  {
    forall i | 0 <= i < |a|
      ensures c[i] == a[i].(imageId := c[i].imageId)
    {
      assert b[i] == a[i].(imageId := b[i].imageId);
      assert c[i] == b[i].(imageId := c[i].imageId);
    }
    forall i | |a| <= i < |c|
      ensures c[i].source == "backfill"
    {
      if i < |b| {
        assert c[i] == b[i].(imageId := c[i].imageId);
      }
    }
  }

  lemma DirCarries(db: Db, r: Report, e: Entry, remote: Remote, subject: string, image: string)
    requires OneRowPerPath(db.samples) && !IsPurged(db, subject) && remote(subject, image).Pushed?
    ensures var path, id := PathOf(subject, image), remote(subject, image).imageId;
            var after := Dir(db, r, e, remote, false).0;
            && RowsCarry(db.samples, after.samples)
            && (Carries(db.samples, subject, path, id) || (e.isDir && e.name == subject && image in e.images) ==>
                  Carries(after.samples, subject, path, id))
  {
    var path, id := PathOf(subject, image), remote(subject, image).imageId;
    if e.isDir && !IsPurged(db, e.name) {
      PushAllRowsCarry(db.samples, e.name, e.images, remote);
      if e.name == subject && image in e.images {
        var k :| 0 <= k < |e.images| && e.images[k] == image;
        PushAllSetsId(db.samples, e.name, e.images, remote, k);
      } else if Carries(db.samples, subject, path, id) {
        forall k | 0 <= k < |e.images| && e.name == subject && PathOf(subject, e.images[k]) == path
          ensures e.images[k] == image
        {
          PathsDistinct(subject, e.images[k], image);
        }
        PushAllKeepsId(db.samples, e.name, e.images, remote, subject, path, id);
      }
    }
  }

  /**
   After a scan every row of an image that was pushed carries the image id that the service gave it; the rows that
   were there are otherwise as they were, and those added are marked as backfill.
   */
  lemma {:induction false} ScanCarries(db: Db, disk: seq<Entry>, remote: Remote, subject: string, image: string)
    requires OneRowPerPath(db.samples) && !IsPurged(db, subject) && remote(subject, image).Pushed?
    ensures var after := Scan(db, disk, remote, false).0;
            && RowsCarry(db.samples, after.samples)
            && ((exists d :: 0 <= d < |disk| && disk[d].isDir && disk[d].name == subject && image in disk[d].images) ==>
                  Carries(after.samples, subject, PathOf(subject, image), remote(subject, image).imageId))
  {
    if disk != [] {
      var n := |disk| - 1;
      var (db1, r) := Scan(db, disk[..n], remote, false);
      ScanCarries(db, disk[..n], remote, subject, image);
      ScanFlags(db, disk[..n], remote, false);
      ScanRows(db, disk[..n], remote, subject);
      DirCarries(db1, r, disk[n], remote, subject, image);
      RowsCarryOn(db.samples, db1.samples, Scan(db, disk, remote, false).0.samples);
      if d :| 0 <= d < |disk| && disk[d].isDir && disk[d].name == subject && image in disk[d].images {
        assert d < n ==> disk[..n][d] == disk[d];
      }
    }
  }

  /** The scan pushes the image with this path. */
  ghost predicate PushesPath(db: Db, disk: seq<Entry>, remote: Remote, subject: string, path: string) {
    exists d, k :: 0 <= d < |disk| && 0 <= k < |disk[d].images| && disk[d].isDir && disk[d].name == subject
                   && !IsPurged(db, subject)
                   && remote(subject, disk[d].images[k]).Pushed? && PathOf(subject, disk[d].images[k]) == path
  }

  /** A row whose image is not pushed keeps its image id. */
  lemma {:induction false} ScanKeepsIds(db: Db, disk: seq<Entry>, remote: Remote,
                                        subject: string, path: string, id: string)
    requires OneRowPerPath(db.samples) && Carries(db.samples, subject, path, id)
    requires !PushesPath(db, disk, remote, subject, path)
    ensures Carries(Scan(db, disk, remote, false).0.samples, subject, path, id)
  {
    if disk != [] {
      var n, e := |disk| - 1, disk[|disk| - 1];
      var (db1, r) := Scan(db, disk[..n], remote, false);
      assert forall d :: 0 <= d < n ==> disk[..n][d] == disk[d];
      ScanKeepsIds(db, disk[..n], remote, subject, path, id);
      ScanFlags(db, disk[..n], remote, false);
      ScanRows(db, disk[..n], remote, subject);
      if e.isDir && !IsPurged(db1, e.name) {
        forall k | 0 <= k < |e.images| && e.name == subject && PathOf(subject, e.images[k]) == path
          ensures !remote(subject, e.images[k]).Pushed?
        {
          assert disk[n].images[k] == e.images[k];
        }
        PushAllKeepsId(db1.samples, e.name, e.images, remote, subject, path, id);
      }
    }
  }

  // ----- what the report counts

  /** The images of the directories that are scanned and not purged, by directory and place in it. */
  ghost function FoundImages(db: Db, disk: seq<Entry>): set<(int, int)> {
    set d, k | 0 <= d < |disk| && 0 <= k < |disk[d].images| && disk[d].isDir && !IsPurged(db, disk[d].name) :: (d, k)
  }

  ghost function PushedImages(db: Db, disk: seq<Entry>, remote: Remote): set<(int, int)> {
    set d, k | 0 <= d < |disk| && 0 <= k < |disk[d].images| && disk[d].isDir && !IsPurged(db, disk[d].name)
               && remote(disk[d].name, disk[d].images[k]).Pushed? :: (d, k)
  }

  ghost function PushedIn(d: int, subject: string, images: seq<string>, remote: Remote): set<(int, int)> {
    set k | 0 <= k < |images| && remote(subject, images[k]).Pushed? :: (d, k)
  }

  lemma PushedInExtends(d: int, subject: string, images: seq<string>, remote: Remote)
    requires images != []
    ensures var n := |images| - 1;
            |PushedIn(d, subject, images, remote)| ==
            |PushedIn(d, subject, images[..n], remote)| + if remote(subject, images[n]).Pushed? then 1 else 0
  {
    var n := |images| - 1;
    assert forall k :: 0 <= k < n ==> images[..n][k] == images[k];
    var before := PushedIn(d, subject, images[..n], remote);
    if remote(subject, images[n]).Pushed? {
      assert PushedIn(d, subject, images, remote) == before + {(d, n)};
    } else {
      assert PushedIn(d, subject, images, remote) == before;
    }
  }

  lemma {:induction false} PushAllPushed(samples: seq<Sample>, subject: string, images: seq<string>, d: int,
                                         remote: Remote)
    requires OneRowPerPath(samples)
    ensures PushAll(samples, subject, images, remote).pushed == |PushedIn(d, subject, images, remote)|
  {
    if images == [] {
      assert PushedIn(d, subject, images, remote) == {};
    } else {
      var n := |images| - 1;
      var p := PushAll(samples, subject, images[..n], remote);
      PushAllPushed(samples, subject, images[..n], d, remote);
      PushAllRows(samples, subject, images[..n], remote);
      CountAtMostOne(p.samples, subject, PathOf(subject, images[n]));
      PushedInExtends(d, subject, images, remote);
    }
  }

  lemma {:induction false} PlacesCount(d: int, n: nat)
    ensures |set k | 0 <= k < n :: (d, k)| == n
  {
    if n > 0 {
      PlacesCount(d, n - 1);
      assert (set k | 0 <= k < n :: (d, k)) == (set k | 0 <= k < n - 1 :: (d, k)) + {(d, n - 1)};
    } else {
      assert (set k | 0 <= k < n :: (d, k)) == {};
    }
  }

  lemma FoundOfLast(db: Db, disk: seq<Entry>)
    requires disk != []
    ensures var n := |disk| - 1;
            |FoundImages(db, disk)| ==
            |FoundImages(db, disk[..n])| +
            if disk[n].isDir && !IsPurged(db, disk[n].name) then |disk[n].images| else 0
  {
    var n := |disk| - 1;
    assert forall d :: 0 <= d < n ==> disk[..n][d] == disk[d];
    if disk[n].isDir && !IsPurged(db, disk[n].name) {
      PlacesCount(n, |disk[n].images|);
      assert FoundImages(db, disk) == FoundImages(db, disk[..n]) + set k | 0 <= k < |disk[n].images| :: (n, k);
    } else {
      assert FoundImages(db, disk) == FoundImages(db, disk[..n]);
    }
  }

  lemma PushedOfLast(db: Db, disk: seq<Entry>, remote: Remote)
    requires disk != []
    ensures var n := |disk| - 1;
            |PushedImages(db, disk, remote)| ==
            |PushedImages(db, disk[..n], remote)| +
            if disk[n].isDir && !IsPurged(db, disk[n].name)
            then |PushedIn(n, disk[n].name, disk[n].images, remote)| else 0
  {
    var n := |disk| - 1;
    assert forall d :: 0 <= d < n ==> disk[..n][d] == disk[d];
    var before := PushedImages(db, disk[..n], remote);
    if disk[n].isDir && !IsPurged(db, disk[n].name) {
      assert PushedImages(db, disk, remote) == before + PushedIn(n, disk[n].name, disk[n].images, remote);
    } else {
      assert PushedImages(db, disk, remote) == before;
    }
  }

  ghost function Directories(disk: seq<Entry>): set<int> {
    set d | 0 <= d < |disk| && disk[d].isDir
  }

  lemma DirectoriesExtend(disk: seq<Entry>)
    requires disk != []
    ensures |Directories(disk)| == |Directories(disk[..|disk| - 1])| + if disk[|disk| - 1].isDir then 1 else 0
  {
    var n := |disk| - 1;
    assert Directories(disk) == Directories(disk[..n]) + if disk[n].isDir then {n} else {};
  }

  /**
   The report counts what was there: the directories scanned, the images of those not purged, and of these the ones
   that the service took; a row that is there twice would be the only exception.
   */
  lemma {:induction false} ReportCounts(db: Db, disk: seq<Entry>, remote: Remote)
    requires OneRowPerPath(db.samples)
    ensures var r := Scan(db, disk, remote, false).1;
            && r.scanned == |Directories(disk)| && r.found == |FoundImages(db, disk)|
            && r.pushed == |PushedImages(db, disk, remote)| && r.errors == r.found - r.pushed
  {
    ReportAddsUp(db, disk, remote);
    if disk != [] {
      var n := |disk| - 1;
      var (db1, r) := Scan(db, disk[..n], remote, false);
      ReportCounts(db, disk[..n], remote);
      ScanFlags(db, disk[..n], remote, false);
      ScanRows(db, disk[..n], remote, "");
      FoundOfLast(db, disk);
      PushedOfLast(db, disk, remote);
      DirectoriesExtend(disk);
      PushAllPushed(db1.samples, disk[n].name, disk[n].images, n, remote);
    }
  }
}

/**
 The sliding-window cache that suppresses repeated sightings of one face.

 The cache forgets: an expired subject may be dropped by `Cleanup`, the ring of unknown faces holds
 100 entries and loses the oldest.  The reference here is a history that never forgets.
 Times are microseconds, so that "less than 60 seconds" is an exact comparison.
 */
module Dedup {
  import opened Prelude
  import FaceHash

  const WINDOW := 60_000_000
  const RING := 100

  datatype Unknown = Unknown(hash: string, time: int)

  /** The two fields of the cache as a value. */
  datatype Cache = Cache(seen: map<string, int>, ring: seq<Unknown>)

  const EMPTY := Cache(map[], [])

  /** True while a sighting at `time` still suppresses one at `now`. */
  predicate Live(now: int, time: int) {
    now - time < WINDOW
  }

  // ----- what one call does to the fields

  /** A deque with maxlen=100 drops its oldest entry when a 101st is appended. */
  function Pushed(ring: seq<Unknown>, u: Unknown): seq<Unknown> {
    if |ring| < RING then ring + [u] else ring[|ring| + 1 - RING..] + [u]
  }

  predicate InRing(ring: seq<Unknown>, hash: string, now: int) {
    exists i :: 0 <= i < |ring| && ring[i].hash == hash && Live(now, ring[i].time)
  }

  function Decide(c: Cache, now: int, subject: Option<string>, face: Option<FaceHash.Gray>): (Cache, bool) {
    if subject.Some? && subject.value != "" then
      if subject.value in c.seen && Live(now, c.seen[subject.value]) then (c, true)
      else (c.(seen := c.seen[subject.value := now]), false)
    else if face.Some? then
      var h := FaceHash.HashOf(face.value);
      if InRing(c.ring, h, now) then (c, true)
      else (c.(ring := Pushed(c.ring, Unknown(h, now))), false)
    else
      (c, false)
  }

  function LiveOnly(ring: seq<Unknown>, now: int): seq<Unknown> {
    if ring == [] then []
    else if Live(now, ring[|ring| - 1].time) then LiveOnly(ring[..|ring| - 1], now) + [ring[|ring| - 1]]
    else LiveOnly(ring[..|ring| - 1], now)
  }

  function Swept(c: Cache, now: int): Cache {
    Cache(map id | id in c.seen && Live(now, c.seen[id]) :: c.seen[id], LiveOnly(c.ring, now))
  }

  /** The cache object.  The clock it reads is the parameter `now`. */
  class DedupCache {
    var seen: map<string, int>
    var unknownHashes: seq<Unknown>

    function State(): Cache
      reads this
    {
      Cache(seen, unknownHashes)
    }

    constructor ()
      ensures State() == EMPTY
    {
      seen := map[];
      unknownHashes := [];
    }

    method IsDuplicate(now: int, subjectId: Option<string>, faceCrop: Option<FaceHash.Gray>) returns (dup: bool)
      modifies this
      ensures (State(), dup) == Decide(old(State()), now, subjectId, faceCrop)
    {
      if subjectId.Some? && subjectId.value != "" {
        if subjectId.value in seen && Live(now, seen[subjectId.value]) {
          return true;
        }
        seen := seen[subjectId.value := now];
        return false;
      }
      if faceCrop.Some? {
        var faceHash := FaceHash.HashOf(faceCrop.value);
        for i := 0 to |unknownHashes|
          invariant !InRing(unknownHashes[..i], faceHash, now)
        {
          var u := unknownHashes[i];
          if u.hash == faceHash && Live(now, u.time) {
            return true;
          }
          assert unknownHashes[..i + 1] == unknownHashes[..i] + [u];
        }
        assert unknownHashes[..|unknownHashes|] == unknownHashes;
        unknownHashes := Pushed(unknownHashes, Unknown(faceHash, now));
      }
      return false;
    }

    method Cleanup(now: int)
      modifies this
      ensures State() == Swept(old(State()), now)
    {
      seen := map id | id in seen && Live(now, seen[id]) :: seen[id];
      var kept: seq<Unknown> := [];
      for i := 0 to |unknownHashes|
        invariant kept == LiveOnly(unknownHashes[..i], now)
        invariant unknownHashes == old(unknownHashes)
      {
        assert unknownHashes[..i + 1][..i] == unknownHashes[..i];
        if Live(now, unknownHashes[i].time) {
          kept := kept + [unknownHashes[i]];
        }
      }
      assert unknownHashes[..|unknownHashes|] == unknownHashes;
      unknownHashes := kept;
    }
  }

  // ----- the reference: everything ever accepted

  datatype Sighting = Sighting(id: string, time: int)
  datatype History = History(known: seq<Sighting>, unknown: seq<Unknown>)

  const NOTHING := History([], [])

  ghost predicate KnownRecently(h: History, id: string, now: int) {
    exists i :: 0 <= i < |h.known| && h.known[i].id == id && Live(now, h.known[i].time)
  }

  /** The hash occurs, less than 60 s old, among the last 100 accepted unknown hashes. */
  ghost predicate UnknownRecently(h: History, hash: string, now: int) {
    exists i :: Max(0, |h.unknown| - RING) <= i < |h.unknown|
                && h.unknown[i].hash == hash && Live(now, h.unknown[i].time)
  }

  ghost function Record(h: History, now: int, subject: Option<string>, face: Option<FaceHash.Gray>): (History, bool) {
    if subject.Some? && subject.value != "" then
      if KnownRecently(h, subject.value, now) then (h, true)
      else (h.(known := h.known + [Sighting(subject.value, now)]), false)
    else if face.Some? then
      var hash := FaceHash.HashOf(face.value);
      if UnknownRecently(h, hash, now) then (h, true)
      else (h.(unknown := h.unknown + [Unknown(hash, now)]), false)
    else
      (h, false)
  }

  // ----- runs

  datatype Op =
    | Ask(now: int, subject: Option<string>, face: Option<FaceHash.Gray>)
    | Clean(now: int)

  /** The clock never goes back. */
  predicate Chronological(ops: seq<Op>, start: int) {
    ops == [] || (start <= ops[0].now && Chronological(ops[1..], ops[0].now))
  }

  /** The time of the last operation, or of the start if there is none. */
  function EndTime(ops: seq<Op>, start: int): int
    decreases |ops|
  {
    if ops == [] then start else EndTime(ops[1..], ops[0].now)
  }

  /** The cache after a run, and the answers of its Asks in order. */
  function Run(c: Cache, ops: seq<Op>): (Cache, seq<bool>)
    decreases |ops|
  {
    if ops == [] then (c, [])
    else match ops[0]
      case Clean(now) => Run(Swept(c, now), ops[1..])
      case Ask(now, subject, face) =>
        var d := Decide(c, now, subject, face);
        var rest := Run(d.0, ops[1..]);
        (rest.0, [d.1] + rest.1)
  }

  /** The same run on the history; a Clean means nothing to it. */
  ghost function RunHistory(h: History, ops: seq<Op>): (History, seq<bool>)
    decreases |ops|
  {
    if ops == [] then (h, [])
    else match ops[0]
      case Clean(_) => RunHistory(h, ops[1..])
      case Ask(now, subject, face) =>
        var d := Record(h, now, subject, face);
        var rest := RunHistory(d.0, ops[1..]);
        (rest.0, [d.1] + rest.1)
  }

  /** The run without its Cleans. */
  function Asks(ops: seq<Op>): seq<Op> {
    if ops == [] then [] else if ops[0].Ask? then [ops[0]] + Asks(ops[1..]) else Asks(ops[1..])
  }

  // ----- the cache is a suffix of the history

  ghost predicate Dated(h: History, now: int) {
    && (forall i, j :: 0 <= i <= j < |h.unknown| ==> h.unknown[i].time <= h.unknown[j].time)
    && (forall i :: 0 <= i < |h.unknown| ==> h.unknown[i].time <= now)
    && (forall i, j :: 0 <= i <= j < |h.known| ==> h.known[i].time <= h.known[j].time)
    && (forall i :: 0 <= i < |h.known| ==> h.known[i].time <= now)
  }

  /** The ring is a suffix of the history, and what it lacks of the last 100 entries has expired. */
  ghost predicate RingAgrees(ring: seq<Unknown>, all: seq<Unknown>, now: int) {
    && |ring| <= RING && |ring| <= |all|
    && ring == all[|all| - |ring|..]
    && (forall i :: Max(0, |all| - RING) <= i < |all| - |ring| ==> !Live(now, all[i].time))
  }

  /** The map holds the newest sighting of a subject, and a subject it lacks has none that is live. */
  ghost predicate SeenAgrees(seen: map<string, int>, known: seq<Sighting>, now: int) {
    && (forall id :: id in seen ==> exists i :: 0 <= i < |known| && known[i] == Sighting(id, seen[id]))
    && (forall i :: 0 <= i < |known| ==>
          if known[i].id in seen then known[i].time <= seen[known[i].id] else !Live(now, known[i].time))
  }

  ghost predicate Agrees(c: Cache, h: History, now: int) {
    Dated(h, now) && RingAgrees(c.ring, h.unknown, now) && SeenAgrees(c.seen, h.known, now)
  }

  lemma AgreesLater(c: Cache, h: History, t: int, now: int)
    requires Agrees(c, h, t) && t <= now
    ensures Agrees(c, h, now)
  {
  }

  lemma AskAgrees(c: Cache, h: History, now: int, subject: Option<string>, face: Option<FaceHash.Gray>)
    requires Agrees(c, h, now)
    ensures Decide(c, now, subject, face).1 == Record(h, now, subject, face).1
    ensures Agrees(Decide(c, now, subject, face).0, Record(h, now, subject, face).0, now)
  {
    RecordDated(h, now, subject, face);
    if subject.Some? && subject.value != "" {
      KnownAgrees(c, h, now, subject.value);
    } else if face.Some? {
      UnknownAgrees(c, h, now, FaceHash.HashOf(face.value));
    }
  }

  lemma RecordDated(h: History, now: int, subject: Option<string>, face: Option<FaceHash.Gray>)
    requires Dated(h, now)
    ensures Dated(Record(h, now, subject, face).0, now)
  {
  }

  lemma KnownAgrees(c: Cache, h: History, now: int, id: string)
    requires Agrees(c, h, now)
    ensures (id in c.seen && Live(now, c.seen[id])) <==> KnownRecently(h, id, now)
    ensures SeenAgrees(c.seen[id := now], h.known + [Sighting(id, now)], now)
  {
    var seen, known := c.seen[id := now], h.known + [Sighting(id, now)];
    forall k | k in seen
      ensures exists i :: 0 <= i < |known| && known[i] == Sighting(k, seen[k])
    {
      if k == id {
        assert known[|h.known|] == Sighting(k, seen[k]);
      } else {
        var i :| 0 <= i < |h.known| && h.known[i] == Sighting(k, c.seen[k]);
        assert known[i] == Sighting(k, seen[k]);
      }
    }
  }

  lemma UnknownAgrees(c: Cache, h: History, now: int, hash: string)
    requires Agrees(c, h, now)
    ensures InRing(c.ring, hash, now) <==> UnknownRecently(h, hash, now)
    ensures RingAgrees(Pushed(c.ring, Unknown(hash, now)), h.unknown + [Unknown(hash, now)], now)
  {
    var off := |h.unknown| - |c.ring|;
    if InRing(c.ring, hash, now) {
      var i :| 0 <= i < |c.ring| && c.ring[i].hash == hash && Live(now, c.ring[i].time);
      assert h.unknown[off + i] == c.ring[i];
    }
    if UnknownRecently(h, hash, now) {
      var i :| Max(0, |h.unknown| - RING) <= i < |h.unknown|
               && h.unknown[i].hash == hash && Live(now, h.unknown[i].time);
      assert c.ring[i - off] == h.unknown[i];
    }
    PushAgrees(c.ring, h.unknown, Unknown(hash, now), now);
  }

  lemma PushAgrees(ring: seq<Unknown>, all: seq<Unknown>, u: Unknown, now: int)
    requires RingAgrees(ring, all, now)
    ensures RingAgrees(Pushed(ring, u), all + [u], now)
  {
    var off := |all| - |ring|;
    if |ring| < RING {
      assert (all + [u])[off..] == all[off..] + [u];
    } else {
      assert (all + [u])[off + 1..] == all[off..][1..] + [u];
    }
  }

  lemma {:induction false} LiveOnlyIsSuffix(ring: seq<Unknown>, now: int)
    requires forall i, j :: 0 <= i <= j < |ring| ==> ring[i].time <= ring[j].time
    ensures var k := |ring| - |LiveOnly(ring, now)|;
            0 <= k <= |ring| && LiveOnly(ring, now) == ring[k..] && forall i :: 0 <= i < k ==> !Live(now, ring[i].time)
  {
    if ring == [] {
    } else {
      var n := |ring| - 1;
      if Live(now, ring[n].time) {
        LiveOnlyIsSuffix(ring[..n], now);
        var k := n - |LiveOnly(ring[..n], now)|;
        assert ring[k..] == ring[..n][k..] + [ring[n]];
        forall i | 0 <= i < k
          ensures !Live(now, ring[i].time)
        {
          assert ring[..n][i] == ring[i];
        }
      } else {
        // the newest entry has expired, so every entry has
        AllExpired(ring, now);
      }
    }
  }

  lemma {:induction false} AllExpired(ring: seq<Unknown>, now: int)
    requires forall i :: 0 <= i < |ring| ==> !Live(now, ring[i].time)
    ensures LiveOnly(ring, now) == []
  {
    if ring != [] {
      AllExpired(ring[..|ring| - 1], now);
    }
  }

  lemma CleanAgrees(c: Cache, h: History, now: int)
    requires Agrees(c, h, now)
    ensures Agrees(Swept(c, now), h, now)
  {
    LiveOnlyIsSuffix(c.ring, now);
    var s := Swept(c, now);
    var off := |h.unknown| - |c.ring|;
    var k := |c.ring| - |s.ring|;
    forall i | Max(0, |h.unknown| - RING) <= i < |h.unknown| - |s.ring|
      ensures !Live(now, h.unknown[i].time)
    {
      if i >= off {
        assert h.unknown[i] == c.ring[i - off];
      }
    }
    forall id | id in s.seen
      ensures exists i :: 0 <= i < |h.known| && h.known[i] == Sighting(id, s.seen[id])
    {
      var i :| 0 <= i < |h.known| && h.known[i] == Sighting(id, c.seen[id]);
    }
  }

  lemma {:induction false} RunAgrees(c: Cache, h: History, ops: seq<Op>, t: int)
    requires Agrees(c, h, t) && Chronological(ops, t)
    ensures Run(c, ops).1 == RunHistory(h, ops).1
    ensures Agrees(Run(c, ops).0, RunHistory(h, ops).0, EndTime(ops, t))
    decreases |ops|
  {
    if ops != [] {
      var now := ops[0].now;
      AgreesLater(c, h, t, now);
      match ops[0]
      case Clean(_) =>
        CleanAgrees(c, h, now);
        RunAgrees(Swept(c, now), h, ops[1..], now);
      case Ask(_, subject, face) =>
        AskAgrees(c, h, now, subject, face);
        RunAgrees(Decide(c, now, subject, face).0, Record(h, now, subject, face).0, ops[1..], now);
    }
  }

  /**
   Every run of the cache answers as the unbounded history does.  At the time of its last operation the
   ring is a suffix of the accepted unknown faces holding every one of the last 100 that is still live, and
   the map holds the newest sighting of every subject seen less than 60 s ago.
   */
  lemma RefinesHistory(ops: seq<Op>, start: int)
    requires Chronological(ops, start)
    ensures Run(EMPTY, ops).1 == RunHistory(NOTHING, ops).1
    ensures Agrees(Run(EMPTY, ops).0, RunHistory(NOTHING, ops).0, EndTime(ops, start))
  {
    RunAgrees(EMPTY, NOTHING, ops, start);
  }

  lemma {:induction false} HistoryIgnoresCleanup(h: History, ops: seq<Op>)
    ensures RunHistory(h, ops) == RunHistory(h, Asks(ops))
    decreases |ops|
  {
    if ops == [] {
    } else if ops[0].Clean? {
      HistoryIgnoresCleanup(h, ops[1..]);
    } else {
      var d := Record(h, ops[0].now, ops[0].subject, ops[0].face);
      HistoryIgnoresCleanup(d.0, ops[1..]);
      assert Asks(ops)[1..] == Asks(ops[1..]);
    }
  }

  /** Two runs that ask the same questions at the same times get the same answers, wherever either cleans up. */
  lemma CleanupIsInvisible(a: seq<Op>, b: seq<Op>, start: int)
    requires Chronological(a, start) && Chronological(b, start)
    requires Asks(a) == Asks(b)
    ensures Run(EMPTY, a).1 == Run(EMPTY, b).1
  {
    RefinesHistory(a, start);
    RefinesHistory(b, start);
    HistoryIgnoresCleanup(NOTHING, a);
    HistoryIgnoresCleanup(NOTHING, b);
  }

  /** How a ring with one hash from 0 s answers at 30 s, and what a cleanup at 60 s leaves of it. */
  lemma OneHash(h: string)
    ensures !InRing([], h, 0) && !InRing([], h, 30_000_000) && Pushed([], Unknown(h, 0)) == [Unknown(h, 0)]
    ensures InRing([Unknown(h, 0)], h, 30_000_000) && LiveOnly([Unknown(h, 0)], 60_000_000) == []
  {
    var ring := [Unknown(h, 0)];
    assert ring[0].hash == h && Live(30_000_000, ring[0].time);
    assert ring[..0] == [];
  }

  lemma AskedBefore(c: Cache, now: int, face: FaceHash.Gray, h: string)
    requires h == FaceHash.HashOf(face) && InRing(c.ring, h, now)
    ensures Decide(c, now, None, Some(face)) == (c, true)
  {
  }

  lemma AskedFirst(c: Cache, now: int, face: FaceHash.Gray, h: string)
    requires h == FaceHash.HashOf(face) && !InRing(c.ring, h, now)
    ensures Decide(c, now, None, Some(face)) == (c.(ring := Pushed(c.ring, Unknown(h, now))), false)
  {
  }

  lemma SweptEmpty(ring: seq<Unknown>, now: int)
    requires LiveOnly(ring, now) == []
    ensures Swept(Cache(map[], ring), now) == EMPTY
  {
  }

  lemma AsksNext(op: Op, rest: seq<Op>)
    ensures Asks([op] + rest) == (if op.Ask? then [op] else []) + Asks(rest)
  {
    assert ([op] + rest)[1..] == rest;
  }

  /** If the clock goes back a cleanup can be seen: both runs ask at 0 s and 30 s, one cleans up at 60 s between. */
  lemma ClockMustNotGoBack(face: FaceHash.Gray)
    ensures var quiet := [Ask(0, None, Some(face)), Ask(30_000_000, None, Some(face))];
            var swept := [Ask(0, None, Some(face)), Clean(60_000_000), Ask(30_000_000, None, Some(face))];
            Asks(quiet) == Asks(swept) && Run(EMPTY, quiet).1 == [false, true] && Run(EMPTY, swept).1 == [false, false]
  {
    var q0, c, q1 := Ask(0, None, Some(face)), Clean(60_000_000), Ask(30_000_000, None, Some(face));
    assert [q0] + [q1] == [q0, q1] && [q0] + [c, q1] == [q0, c, q1] && [c] + [q1] == [c, q1] && [q1] + [] == [q1];
    AsksNext(c, [q1]);
    AsksNext(q0, [q1]);
    AsksNext(q0, [c, q1]);
    BackwardRuns(face, FaceHash.HashOf(face), q0, c, q1);
  }

  lemma AskAtStart(face: FaceHash.Gray, h: string, now: int)
    requires h == FaceHash.HashOf(face)
    ensures Decide(EMPTY, now, None, Some(face)) == (Cache(map[], [Unknown(h, now)]), false)
  {
    AskedFirst(EMPTY, now, face, h);
    assert Pushed([], Unknown(h, now)) == [Unknown(h, now)];
  }

  lemma AskAtHalfMinute(face: FaceHash.Gray, h: string)
    requires h == FaceHash.HashOf(face)
    ensures var one := Cache(map[], [Unknown(h, 0)]); Decide(one, 30_000_000, None, Some(face)) == (one, true)
  {
    OneHash(h);
    AskedBefore(Cache(map[], [Unknown(h, 0)]), 30_000_000, face, h);
  }

  lemma SweptAtOneMinute(h: string)
    ensures Swept(Cache(map[], [Unknown(h, 0)]), 60_000_000) == EMPTY
  {
    OneHash(h);
    SweptEmpty([Unknown(h, 0)], 60_000_000);
  }

  lemma BackwardRuns(face: FaceHash.Gray, h: string, q0: Op, c: Op, q1: Op)
    requires h == FaceHash.HashOf(face)
    requires q0 == Ask(0, None, Some(face)) && c == Clean(60_000_000) && q1 == Ask(30_000_000, None, Some(face))
    ensures Run(EMPTY, [q0] + ([q1] + [])).1 == [false, true]
    ensures Run(EMPTY, [q0] + ([c] + ([q1] + []))).1 == [false, false]
  {
    AskAtStart(face, h, 0);
    AskAtStart(face, h, 30_000_000);
    AskAtHalfMinute(face, h);
    SweptAtOneMinute(h);
    BackwardSteps(Cache(map[], [Unknown(h, 0)]), Cache(map[], [Unknown(h, 30_000_000)]), q0, c, q1);
  }

  /** The two runs, from the four steps that they are made of. */
  lemma BackwardSteps(one: Cache, last: Cache, q0: Op, c: Op, q1: Op)
    requires q0.Ask? && c.Clean? && q1.Ask?
    requires Decide(EMPTY, q0.now, q0.subject, q0.face) == (one, false)
    requires Decide(one, q1.now, q1.subject, q1.face) == (one, true)
    requires Swept(one, c.now) == EMPTY && Decide(EMPTY, q1.now, q1.subject, q1.face) == (last, false)
    ensures Run(EMPTY, [q0] + ([q1] + [])).1 == [false, true]
    ensures Run(EMPTY, [q0] + ([c] + ([q1] + []))).1 == [false, false]
  {
    RunNext(one, q1, []);
    RunNext(EMPTY, q1, []);
    RunNext(EMPTY, q0, [q1] + []);
    RunNext(one, c, [q1] + []);
    RunNext(EMPTY, q0, [c] + ([q1] + []));
  }

  /** A subject seen again within 60 s, not only within the documented 30 s, is a duplicate. */
  lemma RepeatedWithinWindow(id: string, now: int, gap: nat)
    requires id != ""
    ensures Run(EMPTY, [Ask(now, Some(id), None), Ask(now + gap, Some(id), None)]).1 == [false, gap < 60_000_000]
  {
    var a, b := Ask(now, Some(id), None), Ask(now + gap, Some(id), None);
    assert [a] + [b] == [a, b] && [b] + [] == [b];
    RunNext(Decide(EMPTY, now, Some(id), None).0, b, []);
    RunNext(EMPTY, a, [b]);
  }

  /** The ring holds the last 100 of the history, or all of it. */
  ghost predicate Full(ring: seq<Unknown>, all: seq<Unknown>) {
    |ring| == Min(100, |all|) && ring == all[|all| - |ring|..]
  }

  lemma PushFills(ring: seq<Unknown>, all: seq<Unknown>, u: Unknown)
    requires Full(ring, all)
    ensures Full(Pushed(ring, u), all + [u])
  {
    var off := |all| - |ring|;
    if |ring| < RING {
      assert (all + [u])[off..] == all[off..] + [u];
    } else {
      assert (all + [u])[off + 1..] == all[off..][1..] + [u];
    }
  }

  lemma SameAnswerFills(c: Cache, h: History, now: int, subject: Option<string>, face: Option<FaceHash.Gray>)
    requires Full(c.ring, h.unknown)
    requires Decide(c, now, subject, face).1 == Record(h, now, subject, face).1
    ensures Full(Decide(c, now, subject, face).0.ring, Record(h, now, subject, face).0.unknown)
  {
    if face.Some? {
      var hash := FaceHash.HashOf(face.value);
      PushFills(c.ring, h.unknown, Unknown(hash, now));
      OnlyPushes(c, h, now, subject, face.value, hash);
    }
  }

  /** An Ask pushes the hash where it records it. */
  lemma OnlyPushes(c: Cache, h: History, now: int, subject: Option<string>, face: FaceHash.Gray, hash: string)
    requires hash == FaceHash.HashOf(face)
    requires Decide(c, now, subject, Some(face)).1 == Record(h, now, subject, Some(face)).1
    ensures var ring, all := Decide(c, now, subject, Some(face)).0.ring, Record(h, now, subject, Some(face)).0.unknown;
            || (ring == c.ring && all == h.unknown)
            || (ring == Pushed(c.ring, Unknown(hash, now)) && all == h.unknown + [Unknown(hash, now)])
  {
  }

  lemma AskFillsRing(c: Cache, h: History, t: int, now: int, subject: Option<string>, face: Option<FaceHash.Gray>)
    requires Agrees(c, h, t) && t <= now && Full(c.ring, h.unknown)
    ensures var c1, h1 := Decide(c, now, subject, face).0, Record(h, now, subject, face).0;
            Agrees(c1, h1, now) && Full(c1.ring, h1.unknown)
  {
    AgreesLater(c, h, t, now);
    AskAgrees(c, h, now, subject, face);
    SameAnswerFills(c, h, now, subject, face);
  }

  /** A ring that is never cleaned up holds the last 100 accepted unknown faces, or all if there are fewer. */
  lemma {:induction false} RingHolds100(c: Cache, h: History, ops: seq<Op>, t: int)
    requires Agrees(c, h, t) && Full(c.ring, h.unknown) && Chronological(ops, t)
    requires forall i :: 0 <= i < |ops| ==> ops[i].Ask?
    ensures Full(Run(c, ops).0.ring, RunHistory(h, ops).0.unknown)
    decreases |ops|
  {
    if ops != [] {
      var now, subject, face := ops[0].now, ops[0].subject, ops[0].face;
      AskFillsRing(c, h, t, now, subject, face);
      assert forall i :: 0 <= i < |ops[1..]| ==> ops[1..][i] == ops[i + 1];
      RingHolds100(Decide(c, now, subject, face).0, Record(h, now, subject, face).0, ops[1..], now);
    }
  }

  // ----- how far apart accepted sightings are

  ghost predicate Spaced(h: History) {
    && (forall i, j :: 0 <= i < j < |h.known| && h.known[i].id == h.known[j].id ==>
          h.known[j].time - h.known[i].time >= WINDOW)
    && (forall i, j :: 0 <= i < j < |h.unknown| && h.unknown[i].hash == h.unknown[j].hash ==>
          h.unknown[j].time - h.unknown[i].time >= WINDOW || j - i - 1 >= RING)
  }

  lemma {:induction false} RunSpaced(h: History, ops: seq<Op>)
    requires Spaced(h)
    ensures Spaced(RunHistory(h, ops).0)
    decreases |ops|
  {
    if ops != [] {
      match ops[0]
      case Clean(_) => RunSpaced(h, ops[1..]);
      case Ask(now, subject, face) => RunSpaced(Record(h, now, subject, face).0, ops[1..]);
    }
  }

  function Plus(a: History, b: History): History {
    History(a.known + b.known, a.unknown + b.unknown)
  }

  /** The sighting that an Ask puts to the cache. */
  function Offered(now: int, subject: Option<string>, face: Option<FaceHash.Gray>): History {
    if subject.Some? && subject.value != "" then History([Sighting(subject.value, now)], [])
    else if face.Some? then History([], [Unknown(FaceHash.HashOf(face.value), now)])
    else NOTHING
  }

  /** The sightings of the Asks that were answered "no duplicate", in order. */
  function AcceptedBy(ops: seq<Op>, answers: seq<bool>): History
    decreases |ops|
  {
    if ops == [] || answers == [] then NOTHING
    else match ops[0]
      case Clean(_) => AcceptedBy(ops[1..], answers)
      case Ask(now, subject, face) =>
        Plus(if answers[0] then NOTHING else Offered(now, subject, face), AcceptedBy(ops[1..], answers[1..]))
  }

  lemma PlusAssociates(a: History, b: History, c: History)
    ensures Plus(Plus(a, b), c) == Plus(a, Plus(b, c)) && Plus(a, NOTHING) == a == Plus(NOTHING, a)
  {
  }

  /** The history's answers account for what it has recorded. */
  lemma {:induction false} HistoryIsAccepted(h: History, ops: seq<Op>)
    ensures RunHistory(h, ops).0 == Plus(h, AcceptedBy(ops, RunHistory(h, ops).1))
    decreases |ops|
  {
    PlusAssociates(h, NOTHING, NOTHING);
    if ops != [] {
      match ops[0]
      case Clean(_) =>
        HistoryIsAccepted(h, ops[1..]);
      case Ask(now, subject, face) =>
        var d := Record(h, now, subject, face);
        HistoryIsAccepted(d.0, ops[1..]);
        var offered := if d.1 then NOTHING else Offered(now, subject, face);
        assert d.0 == Plus(h, offered);
        PlusAssociates(h, offered, AcceptedBy(ops[1..], RunHistory(d.0, ops[1..]).1));
    }
  }

  /** What the cache accepts in a run is what the history records. */
  lemma AcceptedIsHistory(ops: seq<Op>, start: int)
    requires Chronological(ops, start)
    ensures AcceptedBy(ops, Run(EMPTY, ops).1) == RunHistory(NOTHING, ops).0
  {
    RefinesHistory(ops, start);
    HistoryIsAccepted(NOTHING, ops);
    var accepted := AcceptedBy(ops, Run(EMPTY, ops).1);
    PlusAssociates(accepted, NOTHING, NOTHING);
  }

  /**
   Any two sightings of one subject that the cache accepts are 60 s apart; two acceptances of one unknown
   hash less than 60 s apart have at least 100 other accepted unknown faces between them.
   */
  lemma AcceptedSightingsSpaced(ops: seq<Op>, start: int)
    requires Chronological(ops, start)
    ensures Spaced(AcceptedBy(ops, Run(EMPTY, ops).1))
  {
    AcceptedIsHistory(ops, start);
    RunSpaced(NOTHING, ops);
  }

  /** The clock that goes back again: the subject is accepted at 100 s and, after a cleanup at 200 s, at 110 s. */
  lemma BackwardClockNotSpaced(id: string)
    requires id != ""
    ensures var ops := [Ask(100_000_000, Some(id), None), Clean(200_000_000), Ask(110_000_000, Some(id), None)];
            Run(EMPTY, ops).1 == [false, false] && !Spaced(AcceptedBy(ops, Run(EMPTY, ops).1))
  {
    var a, c, b := Ask(100_000_000, Some(id), None), Clean(200_000_000), Ask(110_000_000, Some(id), None);
    assert [a] + [c, b] == [a, c, b] && [c] + [b] == [c, b] && [b] + [] == [b];
    var one := Cache(map[id := 100_000_000], []);
    assert Swept(one, 200_000_000) == EMPTY;
    RunNext(EMPTY, b, []);
    RunNext(one, c, [b]);
    RunNext(EMPTY, a, [c, b]);
    BackwardClockAccepts(id, a, c, b);
  }

  lemma BackwardClockAccepts(id: string, a: Op, c: Op, b: Op)
    requires id != "" && c.Clean?
    requires a == Ask(100_000_000, Some(id), None) && b == Ask(110_000_000, Some(id), None)
    ensures !Spaced(AcceptedBy([a, c, b], [false, false]))
  {
    assert [a] + [c, b] == [a, c, b] && [c] + [b] == [c, b] && [b] + [] == [b];
    AcceptedNext(b, [], [false]);
    AcceptedNext(c, [b], [false]);
    AcceptedNext(a, [c, b], [false, false]);
    var known := AcceptedBy([a, c, b], [false, false]).known;
    assert known == [Sighting(id, 100_000_000), Sighting(id, 110_000_000)];
    assert known[1].time - known[0].time < WINDOW;
  }

  lemma RunNext(c: Cache, op: Op, rest: seq<Op>)
    ensures Run(c, [op] + rest).1 ==
              if op.Clean? then Run(Swept(c, op.now), rest).1
              else var d := Decide(c, op.now, op.subject, op.face); [d.1] + Run(d.0, rest).1
  {
    assert ([op] + rest)[1..] == rest;
  }

  lemma AcceptedNext(op: Op, rest: seq<Op>, answers: seq<bool>)
    requires answers != [] && !answers[0]
    ensures AcceptedBy([op] + rest, answers) ==
              if op.Clean? then AcceptedBy(rest, answers)
              else Plus(Offered(op.now, op.subject, op.face), AcceptedBy(rest, answers[1..]))
  {
    assert ([op] + rest)[1..] == rest;
  }

  /** The times at which a subject was accepted, oldest first. */
  function TimesOf(known: seq<Sighting>, id: string): seq<int> {
    if known == [] then []
    else
      var n := |known| - 1;
      if known[n].id == id then TimesOf(known[..n], id) + [known[n].time] else TimesOf(known[..n], id)
  }

  ghost predicate KnownSpaced(known: seq<Sighting>) {
    forall i, j :: 0 <= i < j < |known| && known[i].id == known[j].id ==> known[j].time - known[i].time >= WINDOW
  }

  lemma {:induction false} TimesAccepted(known: seq<Sighting>, id: string)
    ensures forall t :: t in TimesOf(known, id) ==> Sighting(id, t) in known
  {
    if known != [] {
      TimesAccepted(known[..|known| - 1], id);
      assert known == known[..|known| - 1] + [known[|known| - 1]];
    }
  }

  lemma {:induction false} TimesSpaced(known: seq<Sighting>, id: string)
    requires KnownSpaced(known)
    ensures forall k :: 0 < k < |TimesOf(known, id)| ==> TimesOf(known, id)[k] - TimesOf(known, id)[k - 1] >= WINDOW
  {
    if known != [] {
      var n := |known| - 1;
      var before := TimesOf(known[..n], id);
      TimesSpaced(known[..n], id);
      if known[n].id == id && before != [] {
        TimesAccepted(known[..n], id);
        assert before[|before| - 1] in before;
        var i :| 0 <= i < n && known[..n][i] == Sighting(id, before[|before| - 1]);
        assert known[i].id == id;
      }
    }
  }

  lemma {:induction false} GapsAddUp(times: seq<int>, i: nat, j: nat)
    requires i <= j < |times|
    requires forall k :: 0 < k < |times| ==> times[k] - times[k - 1] >= WINDOW
    ensures times[j] - times[i] >= WINDOW * (j - i)
    decreases j
  {
    if i < j {
      GapsAddUp(times, i, j - 1);
    }
  }

  /** The sightings i to j of a subject accepted by the cache within `span` number at most span/60s + 1. */
  lemma AcceptanceRate(ops: seq<Op>, start: int, id: string, i: nat, j: nat, span: nat)
    requires Chronological(ops, start)
    requires var times := TimesOf(AcceptedBy(ops, Run(EMPTY, ops).1).known, id);
             i <= j < |times| && times[j] - times[i] <= span
    ensures j - i + 1 <= span / WINDOW + 1
  {
    var known := AcceptedBy(ops, Run(EMPTY, ops).1).known;
    AcceptedSightingsSpaced(ops, start);
    TimesSpaced(known, id);
    GapsAddUp(TimesOf(known, id), i, j);
    assert WINDOW * (j - i) <= span;
  }
}

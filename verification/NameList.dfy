/** Name-list intake: matched names become participants of an event, and the response accounts for every name. */
module NameList {
  import opened Prelude
  import opened ReviewQueue

  datatype Verdict = Single | Ambiguous | Unmatched

  /** What the matching pipeline answers for one name. */
  datatype Match = Match(verdict: Verdict, contactId: Option<int>)

  datatype Response = Response(total: nat, matched: int, skippedExisting: int, reviewQueue: nat)

  /** The contacts of the SINGLE results, in order and with repeats. */
  function ContactsOf(results: seq<Match>): seq<int> {
    if results == [] then []
    else
      var n := |results| - 1;
      ContactsOf(results[..n]) +
      if results[n].verdict == Single && results[n].contactId.Some? then [results[n].contactId.value] else []
  }

  /** list(dict.fromkeys(s)): each element once, where it first occurs. */
  function Unique(s: seq<int>): seq<int> {
    if s == [] then []
    else
      var n := |s| - 1;
      if s[n] in s[..n] then Unique(s[..n]) else Unique(s[..n]) + [s[n]]
  }

  function ReviewCount(results: seq<Match>): nat {
    if results == [] then 0
    else
      var n := |results| - 1;
      ReviewCount(results[..n]) + if results[n].verdict == Single then 0 else 1
  }

  /** SELECT count(*) WHERE event_id = event AND contact_id IN ids */
  function CountIn(ps: seq<Participant>, event: int, ids: seq<int>): nat {
    if ps == [] then 0
    else
      var n := |ps| - 1;
      CountIn(ps[..n], event, ids) + if ps[n].eventId == event && ps[n].contactId in ids then 1 else 0
  }

  /** INSERT of one row per id, ON CONFLICT DO NOTHING. */
  function InsertAll(ps: seq<Participant>, event: int, ids: seq<int>, source: string, caller: int): seq<Participant> {
    if ids == [] then ps
    else
      var n := |ids| - 1;
      InsertParticipant(InsertAll(ps, event, ids[..n], source, caller),
                        Participant(event, ids[n], "attended", source, Some(caller)))
  }

  /** The contacts of the list that do not attend yet. */
  function Newcomers(ps: seq<Participant>, event: int, ids: seq<int>): set<int> {
    set c | c in ids && !Attends(ps, event, c)
  }

  class Attendance {
    var participants: seq<Participant>

    constructor (participants: seq<Participant>)
      ensures this.participants == participants
    {
      this.participants := participants;
    }

    method Collect(results: seq<Match>) returns (matched: seq<int>, review: nat)
      ensures matched == ContactsOf(results) && review == ReviewCount(results)
    {
      matched, review := [], 0;
      for i := 0 to |results|
        invariant matched == ContactsOf(results[..i]) && review == ReviewCount(results[..i])
      {
        assert results[..i + 1][..i] == results[..i];
        if results[i].verdict == Single && results[i].contactId.Some? {
          matched := matched + [results[i].contactId.value];
        }
        if results[i].verdict != Single {
          review := review + 1;
        }
      }
      assert results[..|results|] == results;
    }

    method Deduplicate(s: seq<int>) returns (unique: seq<int>)
      ensures unique == Unique(s)
    {
      unique := [];
      for i := 0 to |s|
        invariant unique == Unique(s[..i])
      {
        assert s[..i + 1][..i] == s[..i];
        if s[i] !in s[..i] {
          unique := unique + [s[i]];
        }
      }
      assert s[..|s|] == s;
    }

    /** `rowcount` is what the driver reports for the INSERT; it is right whenever it is in range. */
    method ProcessNameList(event: int, results: seq<Match>, source: string, caller: int, rowcount: int)
      returns (r: Response)
      requires var ids := Unique(ContactsOf(results));
               var inserted := InsertAll(participants, event, ids, source, caller);
               0 <= rowcount <= |ids| ==> rowcount == |inserted| - |participants|
      modifies this
      ensures participants == InsertAll(old(participants), event, Unique(ContactsOf(results)), source, caller)
      ensures r.total == |results| && r.reviewQueue == ReviewCount(results)
      ensures r.matched == |Newcomers(old(participants), event, ContactsOf(results))|
      ensures r.matched + r.skippedExisting == |set c | c in ContactsOf(results)|
    {
      var matched, review := Collect(results);
      var unique := Deduplicate(matched);
      UniqueIsSet(matched);
      InsertAllAdds(participants, event, unique, source, caller);
      assert Newcomers(participants, event, matched) == Newcomers(participants, event, unique);
      var inserted, skipped := 0, 0;
      if unique != [] {
        var preExisting := CountIn(participants, event, unique);
        ghost var before := participants;
        participants := InsertAll(participants, event, unique, source, caller);
        if 0 <= rowcount <= |unique| {
          inserted := rowcount;
        } else {
          CountGrows(before, event, unique, source, caller, unique);
          inserted := CountIn(participants, event, unique) - preExisting;
        }
        skipped := |unique| - inserted;
      } else {
        assert Newcomers(participants, event, unique) == {};
      }
      return Response(|results|, inserted, skipped, review);
    }
  }

  lemma {:induction false} UniqueIsSet(s: seq<int>)
    ensures |Unique(s)| == |set c | c in s|
    ensures forall c :: c in Unique(s) <==> c in s
    ensures forall i, j :: 0 <= i < j < |Unique(s)| ==> Unique(s)[i] != Unique(s)[j]
  {
    if s != [] {
      var n := |s| - 1;
      UniqueIsSet(s[..n]);
      assert s == s[..n] + [s[n]];
      if s[n] in s[..n] {
        assert (set c | c in s) == set c | c in s[..n];
      } else {
        assert (set c | c in s) == (set c | c in s[..n]) + {s[n]};
      }
    }
  }

  /** The insert keeps every row, adds one per newcomer, and makes exactly the listed contacts attend. */
  lemma {:induction false} InsertAllAdds(ps: seq<Participant>, event: int, ids: seq<int>, source: string, caller: int)
    requires forall i, j :: 0 <= i < j < |ids| ==> ids[i] != ids[j]
    ensures var after := InsertAll(ps, event, ids, source, caller);
            && ps <= after
            && |after| == |ps| + |Newcomers(ps, event, ids)|
            && (forall e, c :: Attends(after, e, c) <==> Attends(ps, e, c) || (e == event && c in ids))
            && (UniqueParticipants(ps) ==> UniqueParticipants(after))
  {
    if ids == [] {
      assert Newcomers(ps, event, ids) == {};
    } else {
      var n := |ids| - 1;
      var before := InsertAll(ps, event, ids[..n], source, caller);
      InsertAllAdds(ps, event, ids[..n], source, caller);
      InsertAddsOne(before, Participant(event, ids[n], "attended", source, Some(caller)));
      assert ids == ids[..n] + [ids[n]];
      NewcomersGrow(ps, event, ids[..n], ids[n]);
    }
  }

  lemma NewcomersGrow(ps: seq<Participant>, event: int, ids: seq<int>, c: int)
    requires c !in ids
    ensures |Newcomers(ps, event, ids + [c])| == |Newcomers(ps, event, ids)| + if Attends(ps, event, c) then 0 else 1
  {
    var before, after := Newcomers(ps, event, ids), Newcomers(ps, event, ids + [c]);
    if Attends(ps, event, c) {
      assert after == before;
    } else {
      assert after == before + {c};
    }
  }

  lemma InsertAddsOne(ps: seq<Participant>, p: Participant)
    ensures var after := InsertParticipant(ps, p);
            && ps <= after
            && |after| == |ps| + (if Attends(ps, p.eventId, p.contactId) then 0 else 1)
            && (forall e, c :: Attends(after, e, c) <==> Attends(ps, e, c) || (e == p.eventId && c == p.contactId))
            && (UniqueParticipants(ps) ==> UniqueParticipants(after))
  {
    var after := InsertParticipant(ps, p);
    forall e, c
      ensures Attends(after, e, c) <==> Attends(ps, e, c) || (e == p.eventId && c == p.contactId)
    {
      if Attends(ps, e, c) {
        var i :| 0 <= i < |ps| && ps[i].eventId == e && ps[i].contactId == c;
        assert after[i] == ps[i];
      }
      if |after| > |ps| {
        assert after[|ps|] == p;
      }
    }
  }

  ghost function Places(ps: seq<Participant>, event: int, ids: seq<int>): set<int> {
    set i | 0 <= i < |ps| && ps[i].eventId == event && ps[i].contactId in ids
  }

  /** What is counted are the event's rows for the contacts. */
  lemma {:induction false} CountInExactly(ps: seq<Participant>, event: int, ids: seq<int>)
    ensures CountIn(ps, event, ids) == |Places(ps, event, ids)|
  {
    if ps == [] {
      assert Places(ps, event, ids) == {};
    } else {
      var n := |ps| - 1;
      CountInExactly(ps[..n], event, ids);
      assert forall i :: 0 <= i < n ==> ps[..n][i] == ps[i];
      assert Places(ps, event, ids) ==
             Places(ps[..n], event, ids) + if ps[n].eventId == event && ps[n].contactId in ids then {n} else {};
    }
  }

  lemma UniqueExtends(s: seq<int>, c: int)
    ensures Unique(s + [c]) == if c in s then Unique(s) else Unique(s) + [c]
  {
    var t := s + [c];
    assert t[..|t| - 1] == s && t[|t| - 1] == c;
  }

  lemma UniqueOfOne(c: int)
    ensures Unique([c]) == [c]
  {
    UniqueExtends([], c);
    assert [] + [c] == [c];
  }

  /** Each contact once, in the order of its first name. */
  lemma {:induction false} UniqueKeepsOrder(a: seq<int>, b: seq<int>)
    ensures Unique(a) <= Unique(a + b)
  {
    if b == [] {
      assert a + b == a;
    } else {
      var n := |b| - 1;
      UniqueKeepsOrder(a, b[..n]);
      UniqueExtends(a + b[..n], b[n]);
      assert a + b == (a + b[..n]) + [b[n]];
    }
  }

  /** Counting the rows before and after the insert gives the number of rows inserted. */
  lemma {:induction false} CountGrows(ps: seq<Participant>, event: int, ids: seq<int>, source: string, caller: int,
                                      all: seq<int>)
    requires forall c :: c in ids ==> c in all
    ensures var after := InsertAll(ps, event, ids, source, caller);
            CountIn(after, event, all) - CountIn(ps, event, all) == |after| - |ps|
  {
    if ids != [] {
      var n := |ids| - 1;
      CountGrows(ps, event, ids[..n], source, caller, all);
      var before := InsertAll(ps, event, ids[..n], source, caller);
      var after := InsertAll(ps, event, ids, source, caller);
      if |after| > |before| {
        assert after[..|before|] == before;
        assert ids[n] in ids;
      }
    }
  }

  /** No SINGLE result lacks a contact, and no two share one. */
  /** The rows added are those of the event's new attendees, with the source and the caller of the request. */
  lemma {:induction false} InsertAllRows(ps: seq<Participant>, event: int, ids: seq<int>, source: string, caller: int)
    ensures var after := InsertAll(ps, event, ids, source, caller);
            && ps <= after
            && forall i :: |ps| <= i < |after| ==>
                 && after[i].contactId in ids && !Attends(ps, event, after[i].contactId)
                 && after[i] == Participant(event, after[i].contactId, "attended", source, Some(caller))
  {
    if ids != [] {
      var n := |ids| - 1;
      InsertAllRows(ps, event, ids[..n], source, caller);
      var before := InsertAll(ps, event, ids[..n], source, caller);
      if Attends(ps, event, ids[n]) {
        var i :| 0 <= i < |ps| && ps[i].eventId == event && ps[i].contactId == ids[n];
        assert before[i] == ps[i];
      }
    }
  }

  ghost predicate DistinctSingles(results: seq<Match>) {
    && (forall i :: 0 <= i < |results| && results[i].verdict == Single ==> results[i].contactId.Some?)
    && (forall i, j :: 0 <= i < j < |results| && results[i].verdict == Single && results[j].verdict == Single ==>
          results[i].contactId != results[j].contactId)
  }

  lemma {:induction false} ContactsFrom(results: seq<Match>, c: int)
    ensures c in ContactsOf(results) <==> Match(Single, Some(c)) in results
  {
    if results != [] {
      var n := |results| - 1;
      ContactsFrom(results[..n], c);
      assert results == results[..n] + [results[n]];
    }
  }

  lemma {:induction false} AccountedFor(results: seq<Match>)
    ensures var distinct := |set c | c in ContactsOf(results)|;
            && distinct + ReviewCount(results) <= |results|
            && (distinct + ReviewCount(results) == |results| <==> DistinctSingles(results))
  {
    if results == [] {
      assert (set c | c in ContactsOf(results)) == {};
    } else {
      var n := |results| - 1;
      var front, last := results[..n], results[n];
      AccountedFor(front);
      var before, after := set c | c in ContactsOf(front), set c | c in ContactsOf(results);
      SinglesExtend(results);
      if last.verdict == Single && last.contactId.Some? {
        assert after == before + {last.contactId.value};
      } else {
        assert after == before;
      }
    }
  }

  lemma SinglesExtend(results: seq<Match>)
    requires results != []
    ensures var n := |results| - 1;
            DistinctSingles(results) <==>
            && DistinctSingles(results[..n])
            && (results[n].verdict == Single ==>
                  results[n].contactId.Some? && results[n].contactId.value !in ContactsOf(results[..n]))
  {
    var n := |results| - 1;
    var front, last := results[..n], results[n];
    assert forall i :: 0 <= i < n ==> front[i] == results[i];
    if DistinctSingles(results) && last.verdict == Single {
      ContactsFrom(front, last.contactId.value);
    }
    if DistinctSingles(front) && last.verdict == Single && last.contactId.Some?
       && last.contactId.value !in ContactsOf(front) {
      ContactsFrom(front, last.contactId.value);
      forall i | 0 <= i < n && results[i].verdict == Single
        ensures results[i].contactId != last.contactId
      {
        assert front[i] in front;
      }
    }
  }

  /**
   The documented sum, matched + skipped_existing + review_queue = total, holds exactly when the SINGLE names
   are distinct contacts.
   */
  lemma DocumentedSumExactly(results: seq<Match>, r: Response)
    requires r.total == |results| && r.reviewQueue == ReviewCount(results)
    requires r.matched + r.skippedExisting == |set c | c in ContactsOf(results)|
    ensures r.matched + r.skippedExisting + r.reviewQueue == r.total <==> DistinctSingles(results)
  {
    AccountedFor(results);
  }

  /** One contact under two names of the list: it is counted once, and the sum falls short of the total. */
  lemma SameContactTwice(c: int)
    ensures var results := [Match(Single, Some(c)), Match(Single, Some(c))];
            !DistinctSingles(results) && |set k | k in ContactsOf(results)| + ReviewCount(results) < |results|
  {
    var results := [Match(Single, Some(c)), Match(Single, Some(c))];
    assert results[0].contactId == results[1].contactId;
    AccountedFor(results);
  }

  /** Sending the same resolved list again inserts nothing: all its contacts attend, and no row changes. */
  lemma RepeatInsertsNothing(ps: seq<Participant>, event: int, results: seq<Match>, source: string, caller: int,
                             source2: string, caller2: int)
    ensures var ids := Unique(ContactsOf(results));
            var once := InsertAll(ps, event, ids, source, caller);
            && InsertAll(once, event, ids, source2, caller2) == once
            && Newcomers(once, event, ContactsOf(results)) == {}
  {
    var matched := ContactsOf(results);
    var ids := Unique(matched);
    var once := InsertAll(ps, event, ids, source, caller);
    UniqueIsSet(matched);
    InsertAllAdds(ps, event, ids, source, caller);
    InsertAllAdds(once, event, ids, source2, caller2);
    assert Newcomers(once, event, ids) == {};
  }
}

/**
 What the requests on the review queue leave behind, in terms of the rows, participants and aliases before,
 and of what the request and the pipeline said.
 */
module ReviewRecords {
  import opened Prelude
  import opened ReviewQueue

  // ----- answers

  /** The statuses that may still be resolved or rejected. */
  predicate Open(status: Status) {
    status == Pending || status == Accepted || status == Skipped
  }

  /** A request is accepted exactly for an open row, and a resolve only on a contact that is there and not deleted. */
  lemma AnswersExactly(db: Db, contacts: Contacts, normalize: string -> string, r: ResolveRequest, l: Lesson, id: int)
    ensures ResolveAnswer(db, contacts, r) == Ok <==>
              r.id in db.rows && Open(db.rows[r.id].status) && (r.contact, false) in contacts.Items
    ensures ResolveAnswer(db, contacts, r) == Conflict <==> r.id in db.rows && !Open(db.rows[r.id].status)
    ensures ResolveAnswer(db, contacts, r) == NotFound <==> r.id !in db.rows
    ensures UnmatchAnswer(db, id) == Ok <==> id in db.rows && Open(db.rows[id].status)
    ensures UnmatchAnswer(db, id) == NotFound <==> id !in db.rows
    ensures TeachAnswer(db, contacts, normalize, l) == NotFound <==> l.id !in db.rows
    ensures TeachAnswer(db, contacts, normalize, l) == BadContact <==>
              l.id in db.rows && (l.contact, false) !in contacts.Items
    ensures TeachAnswer(db, contacts, normalize, l) == BadAlias <==>
              && l.id in db.rows && (l.contact, false) in contacts.Items
              && (l.aliasText.None? || l.aliasText.value == "") && normalize(db.rows[l.id].rawName) == ""
  {
  }

  // ----- what one request records

  /** The row with another outcome; the name, the event and the suggestion are not touched. */
  ghost predicate Decides(before: Row, after: Row, status: Status, contact: Option<int>, actor: Option<int>, now: int) {
    && after.status == status && after.contactId == contact
    && after.resolvedBy == actor && after.resolvedAt == Some(now)
    && after.rawName == before.rawName && after.eventId == before.eventId
    && after.candidate == before.candidate && after.score == before.score
  }

  ghost predicate OthersAsBefore(before: Db, after: Db, id: int) {
    after.rows.Keys == before.rows.Keys && forall k :: k in before.rows && k != id ==> after.rows[k] == before.rows[k]
  }

  /** A rejection that was saved: that row, with its contact as it was; no other row, participant or alias. */
  lemma UnmatchRecords(db: Db, id: int, actor: int, now: int, saved: bool)
    ensures var after := Last(db, Unmatch(db, id, actor, now, saved));
            if saved && id in db.rows && Open(db.rows[id].status)
            then && Decides(db.rows[id], after.rows[id], Rejected, db.rows[id].contactId, Some(actor), now)
                 && OthersAsBefore(db, after, id)
                 && after.participants == db.participants && after.aliases == db.aliases
            else after == db
  {
  }

  /** The alias is the text given, or the row's name in normal form; it names the contact from the first commit on. */
  ghost predicate Learns(before: Db, after: Db, normalize: string -> string, l: Lesson)
    requires l.id in before.rows
  {
    exists text: string ::
      && text in after.aliases && after.aliases[text] == l.contact
      && after.aliases - {text} == before.aliases - {text}
      && text != ""
      && (l.aliasText == Some(text) ||
          ((l.aliasText.None? || l.aliasText.value == "") && text == normalize(before.rows[l.id].rawName)))
  }

  /** What a call of the teach endpoint leaves behind, by how far its lesson came. */
  lemma TeachRecords(db: Db, contacts: Contacts, normalize: string -> string, l: Lesson)
    ensures var after := Last(db, Teach(db, contacts, normalize, l));
            var answer := TeachAnswer(db, contacts, normalize, l);
            && (answer in {Ok, Failed} && l.fault !in {BeforeFirstCommit, InFirstCommit} ==>
                  && Learns(db, after, normalize, l)
                  && after.participants == db.participants && OthersAsBefore(db, after, l.id)
                  && (if answer == Ok
                      then Decides(db.rows[l.id], after.rows[l.id], Accepted, Some(l.contact), Some(l.actor), l.now)
                      else after.rows[l.id] == db.rows[l.id]))
            && (answer !in {Ok, Failed} || l.fault in {BeforeFirstCommit, InFirstCommit} ==> after == db)
  {
    if Teachable(db, normalize, l) {
      LearnedLearns(db, db, normalize, l);
    }
  }

  /** The contact is a participant of the event, if there is one: as it was before, or by a new row at the end. */
  ghost predicate Attended(before: seq<Participant>, after: seq<Participant>, event: Option<int>, contact: int,
                           actor: Option<int>) {
    match event
    case None => after == before
    case Some(e) =>
      after == (if exists i :: 0 <= i < |before| && before[i].eventId == e && before[i].contactId == contact
                then before
                else before + [Participant(e, contact, "attended", "name_list", actor)])
  }

  lemma SettledParticipants(db: Db, id: int, contact: int, actor: Option<int>, now: int)
    requires id in db.rows
    ensures var after := Settled(db, id, contact, actor, now).participants;
            Attended(db.participants, after, db.rows[id].eventId, contact, actor)
  {
  }

  /** What a resolve records besides what it decides: its row in full, its participant in full, and its alias. */
  lemma ResolveRecordsInFull(db: Db, contacts: Contacts, normalize: string -> string, r: ResolveRequest)
    requires ResolveAnswer(db, contacts, r) == Ok && !LosesTheMatch(db, normalize, r)
    ensures var after := Last(db, Resolve(db, contacts, normalize, r));
            var taught := TeachesOnResolve(db, ResolveStep(contacts, normalize, r));
            && r.id in after.rows
            && Decides(db.rows[r.id], after.rows[r.id], if taught then Accepted else Matched, Some(r.contact),
                       Some(r.actor), if taught then r.teachNow else r.now)
            && Attended(db.participants, after.participants, db.rows[r.id].eventId, r.contact, Some(r.actor))
            && (if LessonSaves(db, normalize, r) then Learns(db, after, normalize, r.TheLesson())
                else after.aliases == db.aliases)
  {
    ResolveEnds(db, contacts, normalize, r);
    SettledParticipants(db, r.id, r.contact, Some(r.actor), r.now);
    if LessonSaves(db, normalize, r) {
      var matched := Settled(db, r.id, r.contact, Some(r.actor), r.now);
      LearnedLearns(db, matched, normalize, r.TheLesson());
    }
  }

  lemma LearnedLearns(db: Db, working: Db, normalize: string -> string, l: Lesson)
    requires Teachable(db, normalize, l) && l.id in working.rows && working.aliases == db.aliases
    requires working.rows[l.id].rawName == db.rows[l.id].rawName
    ensures Learns(db, Learned(working, normalize, l), normalize, l)
  {
    var text := AliasOf(working, normalize, l);
    assert text in Learned(working, normalize, l).aliases;
  }

  /** A queued name is pending and undecided, with the best of its candidates; nothing else changes. */
  lemma EnqueueRecords(db: Db, id: int, rawName: string, event: Option<int>, candidates: seq<(int, real)>)
    requires id !in db.rows
    ensures var points := Enqueue(db, id, rawName, event, candidates);
            && |points| == 1
            && var after := points[0];
               && after.rows.Keys == db.rows.Keys + {id} && OthersAsBefore(db, after.(rows := after.rows - {id}), id)
               && after.participants == db.participants && after.aliases == db.aliases
               && var row := after.rows[id];
                  && row.rawName == rawName && row.eventId == event && row.status == Pending
                  && row.contactId == None && row.resolvedBy == None && row.resolvedAt == None
                  && (forall c, score :: candidates != [] && candidates[0] == (c, score) ==>
                        row.candidate == Some(c) && row.score == Some(score))
                  && (candidates == [] ==> row.candidate == None && row.score == None)
  {
    var after := Enqueue(db, id, rawName, event, candidates)[0];
    assert after.rows - {id} == db.rows;
  }

  /** The Claude pass writes its suggestion to that row, if it is still pending, and nothing else. */
  lemma ClaudeRecords(db: Db, id: int, contact: int, score: real)
    ensures var points := ClaudePick(db, id, contact, score);
            if id in db.rows && db.rows[id].status == Pending
            then && |points| == 1 && OthersAsBefore(db, points[0], id)
                 && points[0].rows[id].candidate == Some(contact) && points[0].rows[id].score == Some(score)
                 && points[0].rows[id].(candidate := None, score := None) ==
                    db.rows[id].(candidate := None, score := None)
                 && points[0].participants == db.participants && points[0].aliases == db.aliases
            else points == []
  {
  }

  // ----- whom a reprocess run may match a row to

  /**
   The pipeline names the contact of an alias, without one the only candidate, and of several candidates
   the one that Claude chose.
   */
  predicate Names(l: Lookup, c: int) {
    || l.alias == Some(c)
    || (l.alias == None && l.candidates == [c])
    || (l.alias == None && |l.candidates| >= 2 && l.claude == Some(c))
  }

  lemma ChoiceIsNamed(env: Env, row: Row, c: int)
    ensures Choice(env, row) == Some(c) <==> Names(env.lookup(row.rawName), c) && (c, false) in env.contacts.Items
  {
  }

  /** In any run, with any faults, a row is only changed to a match with a contact that the pipeline names. */
  lemma ReprocessMatchesNamed(start: Db, ids: seq<int>, env: Env, n: nat, id: int)
    requires n <= |ids| && id in start.rows
    ensures var db := ReprocessUpTo(start, ids, env, n).db;
            && id in db.rows
            && (db.rows[id] != start.rows[id] ==>
                  && id in ids && db.rows[id].status == Matched && db.rows[id].resolvedBy == None
                  && db.rows[id].contactId.Some?
                  && Names(env.lookup(start.rows[id].rawName), db.rows[id].contactId.value)
                  && (db.rows[id].contactId.value, false) in env.contacts.Items)
  {
    ReprocessRecords(start, ids, env, n, id);
    var choice := Choice(env, start.rows[id]);
    if choice.Some? {
      ChoiceIsNamed(env, start.rows[id], choice.value);
    }
  }

  lemma {:induction false} CleanRunSettles(start: Db, ids: seq<int>, env: Env, n: nat, k: nat)
    requires Enumerates(ids, start) && ExceptionFree(env) && k < n <= |ids|
    ensures var db := ReprocessUpTo(start, ids, env, n).db;
            var choice := Choice(env, start.rows[ids[k]]);
            && ids[k] in db.rows
            && (choice.Some? ==> Decides(start.rows[ids[k]], db.rows[ids[k]], Matched, choice, None, env.now))
            && (choice.None? ==> db.rows[ids[k]] == start.rows[ids[k]])
    decreases n
  {
    NextIsUntouched(start, ids, env, n - 1);
    LeftPendingHaveNoChoice(start, ids, env, n - 1);
    assert env.fault(ids[n - 1]) == Clean;
    if k < n - 1 {
      CleanRunSettles(start, ids, env, n - 1, k);
      assert ids[k] != ids[n - 1];
    }
  }

  /**
   In an exception-free run a pending row ends matched to a contact exactly if the pipeline names it and it is
   there and not deleted; a row for which there is no such contact stays as it was.
   */
  lemma ReprocessMatchesExactly(start: Db, ids: seq<int>, env: Env, id: int, c: int)
    requires Enumerates(ids, start) && ExceptionFree(env) && id in ids
    ensures var db := ReprocessUpTo(start, ids, env, |ids|).db;
            && id in db.rows && id in start.rows
            && (db.rows[id].status == Matched && db.rows[id].contactId == Some(c) <==>
                  Names(env.lookup(start.rows[id].rawName), c) && (c, false) in env.contacts.Items)
            && (db.rows[id] == start.rows[id] || db.rows[id].status == Matched)
  {
    var k :| 0 <= k < |ids| && ids[k] == id;
    assert IsPending(start, ids[k]);
    CleanRunSettles(start, ids, env, |ids|, k);
    ChoiceIsNamed(env, start.rows[id], c);
  }

  /** An ambiguous name without an alias, on which Claude does not decide, stays as it was at every commit point. */
  lemma AmbiguousStaysPending(db: Db, ids: seq<int>, env: Env, saved: bool, id: int, p: Db)
    requires IsPending(db, id) && p in Reprocess(db, ids, env, saved)
    requires var l := env.lookup(db.rows[id].rawName); l.alias == None && |l.candidates| != 1 && l.claude == None
    ensures id in p.rows && p.rows[id] == db.rows[id]
  {
    ReprocessMatchesNamed(db, ids, env, |ids|, id);
  }

  /** A reprocess run commits once at its end, unless a row's handler raised or the commits failed. */
  lemma ReprocessCommitsExactly(db: Db, ids: seq<int>, env: Env, saved: bool)
    requires Enumerates(ids, db)
    ensures Reprocess(db, ids, env, saved) == [] <==>
              !saved || exists k :: 0 <= k < |ids| && env.fault(ids[k]) == Escapes
    ensures |Reprocess(db, ids, env, saved)| <= 1
  {
    EscapesExactly(db, ids, env, |ids|);
  }

  lemma {:induction false} EscapesExactly(start: Db, ids: seq<int>, env: Env, n: nat)
    requires Enumerates(ids, start) && n <= |ids|
    ensures ReprocessUpTo(start, ids, env, n).escaped <==> exists k :: 0 <= k < n && env.fault(ids[k]) == Escapes
  {
    if n > 0 {
      EscapesExactly(start, ids, env, n - 1);
      NextIsUntouched(start, ids, env, n - 1);
    }
  }

  /** A row that is looked up and has no usable contact undoes nothing, even where a write would have failed. */
  lemma UnmatchedRowUndoesNothing(start: Db, s: Loop, id: int, env: Env)
    requires !s.escaped && id in s.db.rows && env.fault(id) in {Clean, InWrite}
    requires forall c :: Names(env.lookup(s.db.rows[id].rawName), c) ==> (c, false) !in env.contacts.Items
    ensures ReprocessRow(start, s, id, env) == s
  {
    var choice := Choice(env, s.db.rows[id]);
    if choice.Some? {
      ChoiceIsNamed(env, s.db.rows[id], choice.value);
    }
  }

  // ----- what no request does

  /** The contacts a request works with. */
  function ContactsOf(step: Step): Contacts {
    match step
    case ResolveStep(contacts, _, _) => contacts
    case TeachStep(contacts, _, _) => contacts
    case ReprocessStep(_, env, _) => env.contacts
    case _ => map[]
  }

  /** Each row's contact was there before the request, or is one that the request found undeleted. */
  ghost predicate LinksUsable(before: Db, after: Db, contacts: Contacts) {
    forall id :: id in after.rows && after.rows[id].contactId.Some? ==>
      || (id in before.rows && after.rows[id].contactId == before.rows[id].contactId)
      || (after.rows[id].contactId.value, false) in contacts.Items
  }

  lemma {:induction false} ReprocessLinksUsable(start: Db, ids: seq<int>, env: Env, n: nat)
    requires n <= |ids|
    ensures LinksUsable(start, ReprocessUpTo(start, ids, env, n).db, env.contacts)
  {
    if n > 0 {
      ReprocessLinksUsable(start, ids, env, n - 1);
      var s := ReprocessUpTo(start, ids, env, n - 1);
      if ids[n - 1] in s.db.rows && Choice(env, s.db.rows[ids[n - 1]]).Some? {
        ChoiceIsNamed(env, s.db.rows[ids[n - 1]], Choice(env, s.db.rows[ids[n - 1]]).value);
      }
    }
  }

  lemma ResolveLinksUsable(db: Db, contacts: Contacts, normalize: string -> string, r: ResolveRequest)
    ensures forall p :: p in Resolve(db, contacts, normalize, r) ==> LinksUsable(db, p, contacts)
  {
    if ResolveAnswer(db, contacts, r) == Ok {
      assert (r.contact, false) in contacts.Items;
    }
  }

  /** No request links a row to a contact that it has not found, or has found deleted. */
  lemma ContactsAreUsable(db: Db, step: Step)
    ensures forall p :: p in Commits(db, step) ==> LinksUsable(db, p, ContactsOf(step))
  {
    match step
    case ResolveStep(contacts, normalize, r) => ResolveLinksUsable(db, contacts, normalize, r);
    case TeachStep(contacts, normalize, l) =>
      if l.id in db.rows && Usable(contacts, l.contact) {
        assert (l.contact, false) in contacts.Items;
      }
    case ReprocessStep(ids, env, _) => ReprocessLinksUsable(db, ids, env, |ids|);
    case _ =>
  }

  /** Participants are added only, each for a row that is matched or accepted on that contact, for that event. */
  ghost predicate AddsSettled(before: Db, after: Db) {
    && before.participants <= after.participants
    && forall i :: |before.participants| <= i < |after.participants| ==> HasRowFor(after, after.participants[i])
  }

  ghost predicate HasRowFor(db: Db, p: Participant) {
    && p.status == "attended" && p.source == "name_list"
    && exists id :: id in db.rows && db.rows[id].status in {Matched, Accepted}
                    && db.rows[id].eventId == Some(p.eventId) && db.rows[id].contactId == Some(p.contactId)
  }

  lemma SettledAddsOne(db: Db, id: int, contact: int, actor: Option<int>, now: int)
    requires id in db.rows
    ensures AddsSettled(db, Settled(db, id, contact, actor, now))
  {
    var after := Settled(db, id, contact, actor, now);
    assert after.rows[id].status == Matched && after.rows[id].contactId == Some(contact);
    SettledParticipants(db, id, contact, actor, now);
  }

  /** Rows that were settled stay so while other rows are settled. */
  lemma AddsSettledExtends(start: Db, mid: Db, id: int, contact: int, actor: Option<int>, now: int)
    requires AddsSettled(start, mid) && id in mid.rows && mid.rows[id].status == Pending
    ensures AddsSettled(start, Settled(mid, id, contact, actor, now))
  {
    var after := Settled(mid, id, contact, actor, now);
    SettledAddsOne(mid, id, contact, actor, now);
    forall i | |start.participants| <= i < |after.participants|
      ensures HasRowFor(after, after.participants[i])
    {
      if i < |mid.participants| {
        assert HasRowFor(mid, mid.participants[i]);
        var k :| k in mid.rows && mid.rows[k].status in {Matched, Accepted}
                 && mid.rows[k].eventId == Some(mid.participants[i].eventId)
                 && mid.rows[k].contactId == Some(mid.participants[i].contactId);
        assert after.rows[k] == mid.rows[k];
      }
    }
  }

  lemma {:induction false} ReprocessAddsSettled(start: Db, ids: seq<int>, env: Env, n: nat)
    requires Enumerates(ids, start) && n <= |ids|
    ensures AddsSettled(start, ReprocessUpTo(start, ids, env, n).db)
  {
    if n > 0 {
      ReprocessAddsSettled(start, ids, env, n - 1);
      NextIsUntouched(start, ids, env, n - 1);
      var s := ReprocessUpTo(start, ids, env, n - 1);
      var choice := Choice(env, s.db.rows[ids[n - 1]]);
      if choice.Some? {
        AddsSettledExtends(start, s.db, ids[n - 1], choice.value, None, env.now);
      }
    }
  }

  lemma ResolveAddsSettled(db: Db, contacts: Contacts, normalize: string -> string, r: ResolveRequest)
    ensures forall p :: p in Resolve(db, contacts, normalize, r) ==> AddsSettled(db, p)
  {
    if ResolveAnswer(db, contacts, r) == Ok {
      var matched := Settled(db, r.id, r.contact, Some(r.actor), r.now);
      SettledAddsOne(db, r.id, r.contact, Some(r.actor), r.now);
      var learned := Learned(matched, normalize, r.TheLesson());
      var accepted := Accept(learned, r.TheLesson());
      SettledParticipants(db, r.id, r.contact, Some(r.actor), r.now);
      assert accepted.rows[r.id].status == Accepted && accepted.rows[r.id].contactId == Some(r.contact);
      assert learned.rows[r.id].status == Matched && learned.rows[r.id].contactId == Some(r.contact);
      assert AddsSettled(db, learned) && AddsSettled(db, accepted);
    }
  }

  /** No request removes or alters a participant, or adds one without a row settled on that contact for that event. */
  lemma ParticipantsAreSettled(db: Db, step: Step)
    requires step.ReprocessStep? ==> Enumerates(step.ids, db)
    ensures forall p :: p in Commits(db, step) ==> AddsSettled(db, p)
  {
    match step
    case ResolveStep(contacts, normalize, r) => ResolveAddsSettled(db, contacts, normalize, r);
    case ReprocessStep(ids, env, _) => ReprocessAddsSettled(db, ids, env, |ids|);
    case _ =>
  }
}

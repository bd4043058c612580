/**
 The review queue of the name-matching pipeline, the participants it creates, and the transactions
 of the endpoints that work on both.

 A request works on a session: `committed` is what the database keeps, `working` what the request
 sees.  A request is described by its commit points, the database states it makes durable.
 */
module ReviewQueue {
  import opened Prelude

  datatype Status = Pending | Matched | Rejected | Accepted | Skipped

  datatype Row = Row(rawName: string, eventId: Option<int>, status: Status, contactId: Option<int>,
                     resolvedBy: Option<int>, resolvedAt: Option<int>, candidate: Option<int>, score: Option<real>)

  datatype Participant = Participant(eventId: int, contactId: int, status: string, source: string,
                                     registeredBy: Option<int>)

  /** `aliases`: the contact that each alias text names. */
  datatype Db = Db(rows: map<int, Row>, participants: seq<Participant>, aliases: map<string, int>)

  predicate Attends(ps: seq<Participant>, event: int, contact: int) {
    exists i :: 0 <= i < |ps| && ps[i].eventId == event && ps[i].contactId == contact
  }

  /** INSERT ... ON CONFLICT (event_id, contact_id) DO NOTHING */
  function InsertParticipant(ps: seq<Participant>, p: Participant): seq<Participant> {
    if Attends(ps, p.eventId, p.contactId) then ps else ps + [p]
  }

  function NameListParticipant(event: int, contact: int, actor: Option<int>): Participant {
    Participant(event, contact, "attended", "name_list", actor)
  }

  /** The row becomes matched, and its contact a participant of its event. */
  function Settled(db: Db, id: int, contact: int, actor: Option<int>, now: int): Db
    requires id in db.rows
  {
    var row := db.rows[id].(status := Matched, contactId := Some(contact),
                            resolvedBy := actor, resolvedAt := Some(now));
    db.(rows := db.rows[id := row],
        participants := if row.eventId.None? then db.participants
                        else InsertParticipant(db.participants, NameListParticipant(row.eventId.value, contact, actor)))
  }

  // ----- requests

  /** Contacts by id, with their is_deleted flag. */
  type Contacts = map<int, bool>

  predicate Usable(contacts: Contacts, id: int) {
    id in contacts && !contacts[id]
  }

  datatype Answer = Ok | NotFound | Conflict | BadContact | BadAlias | Failed

  /** Where `teach_alias_from_resolution` fails: it commits twice, around setting the row to accepted. */
  datatype TeachFault = NoFault | BeforeFirstCommit | InFirstCommit | AfterFirstCommit | InSecondCommit

  /** One call of `teach_alias_from_resolution`. */
  datatype Lesson = Lesson(id: int, contact: int, actor: int, aliasText: Option<string>, now: int, fault: TeachFault)

  /** The alias to teach: the given text, or the row's name in normal form. */
  function AliasOf(db: Db, normalize: string -> string, l: Lesson): string {
    if l.aliasText.Some? && l.aliasText.value != "" then l.aliasText.value
    else if l.id in db.rows then normalize(db.rows[l.id].rawName) else ""
  }

  /** INSERT ... ON CONFLICT (alias_text) DO UPDATE SET contact_id */
  function Learned(db: Db, normalize: string -> string, l: Lesson): Db {
    db.(aliases := db.aliases[AliasOf(db, normalize, l) := l.contact])
  }

  /** The row becomes accepted, whatever its status was, and no participant is added. */
  function Accept(db: Db, l: Lesson): Db
    requires l.id in db.rows
  {
    db.(rows := db.rows[l.id := db.rows[l.id].(status := Accepted, contactId := Some(l.contact),
                                               resolvedBy := Some(l.actor), resolvedAt := Some(l.now))])
  }

  /** A missing row or an empty alias is a ValueError, raised before anything is done. */
  predicate Teachable(db: Db, normalize: string -> string, l: Lesson) {
    l.id in db.rows && AliasOf(db, normalize, l) != ""
  }

  predicate Completes(db: Db, normalize: string -> string, l: Lesson) {
    Teachable(db, normalize, l) && l.fault == NoFault
  }

  datatype Lessoned = Lessoned(points: seq<Db>, working: Db)

  /** What a lesson commits and what it leaves in the session; a commit that fails rolls the session back. */
  function Teaching(committed: Db, working: Db, normalize: string -> string, l: Lesson): Lessoned {
    if !Teachable(working, normalize, l) || l.fault == BeforeFirstCommit then Lessoned([], working)
    else if l.fault == InFirstCommit then Lessoned([], committed)
    else
      var learned := Learned(working, normalize, l);
      if l.fault == NoFault then Lessoned([learned, Accept(learned, l)], Accept(learned, l))
      else Lessoned([learned], learned)
  }

  /** After a failed second commit the objects that the response is made of cannot be read any more. */
  function LessonAnswer(db: Db, normalize: string -> string, l: Lesson): Answer {
    if !Teachable(db, normalize, l) then BadAlias else if l.fault == NoFault then Ok else Failed
  }

  /** POST /name-aliases/teach: it looks at the contact, but not at the status of the row. */
  function TeachAnswer(db: Db, contacts: Contacts, normalize: string -> string, l: Lesson): Answer {
    if l.id !in db.rows then NotFound
    else if !Usable(contacts, l.contact) then BadContact
    else LessonAnswer(db, normalize, l)
  }

  function Teach(db: Db, contacts: Contacts, normalize: string -> string, l: Lesson): seq<Db> {
    if TeachAnswer(db, contacts, normalize, l) in {NotFound, BadContact} then []
    else Teaching(db, db, normalize, l).points
  }

  /** `saved`: the commits at the end make the session's rows durable.  `fault` and `teachNow` belong to the lesson. */
  datatype ResolveRequest = ResolveRequest(id: int, contact: int, actor: int, now: int,
                                           teach: bool, aliasText: Option<string>, teachNow: int,
                                           fault: TeachFault, saved: bool)
  {
    function TheLesson(): Lesson {
      Lesson(id, contact, actor, aliasText, teachNow, fault)
    }
  }

  function ResolveAnswer(db: Db, contacts: Contacts, r: ResolveRequest): Answer {
    if r.id !in db.rows then NotFound
    else if db.rows[r.id].status in {Matched, Rejected} then Conflict
    else if !Usable(contacts, r.contact) then BadContact
    else Ok
  }

  /** The commit at the end of a request. */
  function SavedAs(db: Db, saved: bool): seq<Db> {
    if saved then [db] else []
  }

  function Resolve(db: Db, contacts: Contacts, normalize: string -> string, r: ResolveRequest): seq<Db> {
    if ResolveAnswer(db, contacts, r) != Ok then []
    else
      var matched := Settled(db, r.id, r.contact, Some(r.actor), r.now);
      var lessoned := if r.teach then Teaching(db, matched, normalize, r.TheLesson()) else Lessoned([], matched);
      lessoned.points + SavedAs(lessoned.working, r.saved)
  }

  function UnmatchAnswer(db: Db, id: int): Answer {
    if id !in db.rows then NotFound
    else if db.rows[id].status in {Matched, Rejected} then Conflict
    else Ok
  }

  function Unmatched(db: Db, id: int, actor: int, now: int): Db
    requires id in db.rows
  {
    db.(rows := db.rows[id := db.rows[id].(status := Rejected, resolvedBy := Some(actor), resolvedAt := Some(now))])
  }

  function Unmatch(db: Db, id: int, actor: int, now: int, saved: bool): seq<Db> {
    if UnmatchAnswer(db, id) == Ok && saved then [Unmatched(db, id, actor, now)] else []
  }

  /** One commit of the background Claude pass: it touches pending rows only, and only their suggestion. */
  function ClaudePick(db: Db, id: int, contact: int, score: real): seq<Db> {
    if id in db.rows && db.rows[id].status == Pending
    then [db.(rows := db.rows[id := db.rows[id].(candidate := Some(contact), score := Some(score))])]
    else []
  }

  /** `_enqueue_review`: a new pending row with its best candidate, of those found in order of score. */
  function Enqueue(db: Db, id: int, rawName: string, event: Option<int>, candidates: seq<(int, real)>): seq<Db> {
    if id in db.rows then []
    else
      var top := if candidates == [] then None else Some(candidates[0].0);
      var score := if candidates == [] then None else Some(candidates[0].1);
      [db.(rows := db.rows[id := Row(rawName, event, Pending, None, None, None, top, score)])]
  }

  // ----- reprocessing

  /** What the pipeline answers for one name: an alias, fuzzy candidates, and Claude's choice among several. */
  datatype Lookup = Lookup(alias: Option<int>, candidates: seq<int>, claude: Option<int>)

  function Pick(l: Lookup): Option<int> {
    if l.alias.Some? then l.alias
    else if |l.candidates| == 1 then Some(l.candidates[0])
    else if |l.candidates| > 1 then l.claude
    else None
  }

  /** Where processing a row raises; Escapes when the handler itself raises and the request dies. */
  datatype RowFault = Clean | InLookup | InWrite | Escapes

  datatype Env = Env(contacts: Contacts, lookup: string -> Lookup, fault: int -> RowFault, now: int)

  /** The contact a row will be matched to. */
  function Choice(env: Env, row: Row): Option<int> {
    var pick := Pick(env.lookup(row.rawName));
    if pick.Some? && Usable(env.contacts, pick.value) then pick else None
  }

  /** `surviving`: the matches not undone by a later rollback. */
  datatype Loop = Loop(db: Db, matched: nat, surviving: nat, escaped: bool)

  predicate Raises(env: Env, row: Row, id: int) {
    env.fault(id) == InLookup || (env.fault(id) == InWrite && Choice(env, row).Some?)
  }

  /** One row of the loop; a rollback takes the session back to the start of the request. */
  function ReprocessRow(start: Db, s: Loop, id: int, env: Env): Loop {
    if s.escaped || id !in s.db.rows then s
    else if env.fault(id) == Escapes then s.(db := start, surviving := 0, escaped := true)
    else if Raises(env, s.db.rows[id], id) then s.(db := start, surviving := 0)
    else
      match Choice(env, s.db.rows[id])
      case None => s
      case Some(contact) => Loop(Settled(s.db, id, contact, None, env.now), s.matched + 1, s.surviving + 1, false)
  }

  function ReprocessUpTo(start: Db, ids: seq<int>, env: Env, n: nat): Loop
    requires n <= |ids|
  {
    if n == 0 then Loop(start, 0, 0, false)
    else ReprocessRow(start, ReprocessUpTo(start, ids, env, n - 1), ids[n - 1], env)
  }

  function Reprocess(db: Db, ids: seq<int>, env: Env, saved: bool): seq<Db> {
    var s := ReprocessUpTo(db, ids, env, |ids|);
    if s.escaped || !saved then [] else [s.db]
  }

  predicate IsPending(db: Db, id: int) {
    id in db.rows && db.rows[id].status == Pending
  }

  function PendingIds(db: Db): set<int> {
    set id | id in db.rows && db.rows[id].status == Pending
  }

  /** The ids the query for pending rows returns, in some order. */
  ghost predicate Enumerates(ids: seq<int>, db: Db) {
    && (forall i, j :: 0 <= i < j < |ids| ==> ids[i] != ids[j])
    && (forall i :: 0 <= i < |ids| ==> IsPending(db, ids[i]))
    && (forall id :: IsPending(db, id) ==> id in ids)
  }

  // ----- the endpoints on a session

  function Last(db: Db, points: seq<Db>): Db {
    if points == [] then db else points[|points| - 1]
  }

  class DbSession {
    var committed: Db
    var working: Db
    ghost var points: seq<Db>

    constructor (db: Db)
      ensures committed == working == db && points == []
    {
      committed, working, points := db, db, [];
    }

    method Commit()
      modifies this
      ensures committed == working == old(working) && points == old(points) + [working]
    {
      committed := working;
      points := points + [working];
    }

    method Rollback()
      modifies this`working
      ensures working == committed
    {
      working := committed;
    }

    /** The end of every request: the first or second commit succeeds, or closing the session rolls back. */
    method Finish(saved: bool)
      modifies this
      ensures working == committed
      ensures saved ==> committed == old(working) && points == old(points) + [committed]
      ensures !saved ==> committed == old(committed) && points == old(points)
    {
      if saved {
        Commit();
      } else {
        Rollback();
      }
    }

    method AddParticipant(event: int, contact: int, actor: Option<int>)
      modifies this`working
      ensures working == old(working).(participants :=
                InsertParticipant(old(working).participants, NameListParticipant(event, contact, actor)))
    {
      working := working.(participants :=
        InsertParticipant(working.participants, NameListParticipant(event, contact, actor)));
    }

    method Settle(id: int, contact: int, actor: Option<int>, now: int)
      requires id in working.rows
      modifies this`working
      ensures working == Settled(old(working), id, contact, actor, now)
    {
      var row := working.rows[id];
      row := row.(status := Matched, contactId := Some(contact), resolvedBy := actor, resolvedAt := Some(now));
      working := working.(rows := working.rows[id := row]);
      if row.eventId.Some? {
        AddParticipant(row.eventId.value, contact, actor);
      }
    }

    /** A lesson within a request; its answer matters to the alias endpoint only. */
    method TeachAlias(normalize: string -> string, l: Lesson) returns (a: Answer)
      modifies this
      ensures a == LessonAnswer(old(working), normalize, l)
      ensures var t := Teaching(old(committed), old(working), normalize, l);
              && working == t.working && points == old(points) + t.points
              && committed == Last(old(committed), t.points)
    {
      if l.id !in working.rows || AliasOf(working, normalize, l) == "" {
        return BadAlias;
      }
      if l.fault == BeforeFirstCommit {
        return Failed;
      }
      working := Learned(working, normalize, l);
      if l.fault == InFirstCommit {
        Rollback();
        return Failed;
      }
      Commit();
      if l.fault == AfterFirstCommit {
        return Failed;
      }
      working := Accept(working, l);
      if l.fault == InSecondCommit {
        Rollback();
        return Failed;
      }
      Commit();
      return Ok;
    }

    method TeachItem(contacts: Contacts, normalize: string -> string, l: Lesson) returns (a: Answer)
      requires working == committed
      modifies this
      ensures a == TeachAnswer(old(committed), contacts, normalize, l)
      ensures points == old(points) + Teach(old(committed), contacts, normalize, l)
      ensures working == committed == Last(old(committed), Teach(old(committed), contacts, normalize, l))
    {
      if l.id !in working.rows {
        return NotFound;
      }
      if l.contact !in contacts || contacts[l.contact] {
        return BadContact;
      }
      a := TeachAlias(normalize, l);
      Rollback();
    }

    method ResolveItem(contacts: Contacts, normalize: string -> string, r: ResolveRequest) returns (a: Answer)
      requires working == committed
      modifies this
      ensures a == ResolveAnswer(old(committed), contacts, r)
      ensures points == old(points) + Resolve(old(committed), contacts, normalize, r)
      ensures working == committed == Last(old(committed), Resolve(old(committed), contacts, normalize, r))
    {
      if r.id !in working.rows {
        return NotFound;
      }
      if working.rows[r.id].status in {Matched, Rejected} {
        return Conflict;
      }
      if r.contact !in contacts || contacts[r.contact] {
        return BadContact;
      }
      Settle(r.id, r.contact, Some(r.actor), r.now);
      if r.teach {
        var _ := TeachAlias(normalize, r.TheLesson());
      }
      Finish(r.saved);
      return Ok;
    }

    method UnmatchItem(id: int, actor: int, now: int, saved: bool) returns (a: Answer)
      requires working == committed
      modifies this
      ensures a == UnmatchAnswer(old(committed), id)
      ensures points == old(points) + Unmatch(old(committed), id, actor, now, saved)
      ensures working == committed == Last(old(committed), Unmatch(old(committed), id, actor, now, saved))
    {
      if id !in working.rows {
        return NotFound;
      }
      if working.rows[id].status in {Matched, Rejected} {
        return Conflict;
      }
      working := Unmatched(working, id, actor, now);
      Finish(saved);
      return Ok;
    }

    /** Skipping answers with the status and changes nothing. */
    method SkipItem(id: int) returns (status: Option<Status>)
      ensures status == if id in working.rows then Some(working.rows[id].status) else None
      ensures status == Some(Pending) <==> IsPending(working, id)
      ensures status.Some? && status.value !in {Matched, Rejected} <==> UnmatchAnswer(working, id) == Ok
    {
      return if id in working.rows then Some(working.rows[id].status) else None;
    }

    /** The counters are None when the request dies. */
    method ReprocessAll(ids: seq<int>, env: Env, saved: bool) returns (counts: Option<(nat, nat, nat)>)
      requires working == committed && Enumerates(ids, committed)
      modifies this
      ensures points == old(points) + Reprocess(old(committed), ids, env, saved)
      ensures working == committed == Last(old(committed), Reprocess(old(committed), ids, env, saved))
      ensures var s := ReprocessUpTo(old(committed), ids, env, |ids|);
              counts == if s.escaped then None else Some((|ids|, s.matched, |PendingIds(committed)|))
    {
      var processed, autoMatched := 0, 0;
      while processed < |ids|
        invariant processed <= |ids|
        invariant committed == old(committed) && points == old(points)
        invariant var s := ReprocessUpTo(committed, ids, env, processed);
                  working == s.db && autoMatched == s.matched && !s.escaped
      {
        var id := ids[processed];
        SameKeys(committed, ids, env, processed);
        ghost var s := ReprocessUpTo(committed, ids, env, processed);
        processed := processed + 1;
        assert ReprocessUpTo(committed, ids, env, processed) == ReprocessRow(committed, s, id, env);
        if env.fault(id) == Escapes {
          Rollback();
          EscapeIsFinal(committed, ids, env, processed, |ids|);
          return None;
        }
        if env.fault(id) == InLookup {
          Rollback();
          continue;
        }
        var choice := Choice(env, working.rows[id]);
        if choice.Some? {
          Settle(id, choice.value, None, env.now);
          if env.fault(id) == InWrite {
            Rollback();
            continue;
          }
          autoMatched := autoMatched + 1;
        }
      }
      Finish(saved);
      return Some((processed, autoMatched, |PendingIds(committed)|));
    }
  }

  lemma {:induction false} SameKeys(start: Db, ids: seq<int>, env: Env, n: nat)
    requires n <= |ids| && forall i :: 0 <= i < |ids| ==> ids[i] in start.rows
    ensures ReprocessUpTo(start, ids, env, n).db.rows.Keys == start.rows.Keys
  {
    if n > 0 {
      SameKeys(start, ids, env, n - 1);
    }
  }

  lemma {:induction false} EscapeIsFinal(start: Db, ids: seq<int>, env: Env, n: nat, m: nat)
    requires n <= m <= |ids| && ReprocessUpTo(start, ids, env, n).escaped
    ensures ReprocessUpTo(start, ids, env, m).escaped
    decreases m
  {
    if n < m {
      EscapeIsFinal(start, ids, env, n, m - 1);
    }
  }

  // ----- what every commit point satisfies

  ghost predicate UniqueParticipants(ps: seq<Participant>) {
    forall i, j :: 0 <= i < j < |ps| ==> ps[i].eventId != ps[j].eventId || ps[i].contactId != ps[j].contactId
  }

  /** A matched row (`accepted`: or an accepted one) with an event has its contact among the participants. */
  ghost predicate RowAttended(row: Row, ps: seq<Participant>, accepted: bool) {
    (row.status == Matched || (accepted && row.status == Accepted)) && row.eventId.Some? ==>
      row.contactId.Some? && Attends(ps, row.eventId.value, row.contactId.value)
  }

  ghost predicate Safe(db: Db, accepted: bool) {
    && UniqueParticipants(db.participants)
    && forall id :: id in db.rows ==> RowAttended(db.rows[id], db.participants, accepted)
  }

  lemma InsertKeeps(ps: seq<Participant>, p: Participant)
    requires UniqueParticipants(ps)
    ensures var after := InsertParticipant(ps, p);
            && UniqueParticipants(after) && Attends(after, p.eventId, p.contactId) && ps <= after
            && (forall e, c :: Attends(ps, e, c) ==> Attends(after, e, c))
  {
    var after := InsertParticipant(ps, p);
    if |after| > |ps| {
      assert after[|ps|] == p;
    }
    forall e, c | Attends(ps, e, c)
      ensures Attends(after, e, c)
    {
      var i :| 0 <= i < |ps| && ps[i].eventId == e && ps[i].contactId == c;
      assert after[i] == ps[i];
    }
  }

  lemma SettledSafe(db: Db, id: int, contact: int, actor: Option<int>, now: int, accepted: bool)
    requires Safe(db, accepted) && id in db.rows
    ensures Safe(Settled(db, id, contact, actor, now), accepted)
  {
    var row := db.rows[id];
    if row.eventId.Some? {
      InsertKeeps(db.participants, NameListParticipant(row.eventId.value, contact, actor));
    }
  }

  lemma {:induction false} ReprocessSafe(start: Db, ids: seq<int>, env: Env, n: nat, accepted: bool)
    requires Safe(start, accepted) && n <= |ids|
    ensures Safe(ReprocessUpTo(start, ids, env, n).db, accepted)
  {
    if n > 0 {
      ReprocessSafe(start, ids, env, n - 1, accepted);
      var s := ReprocessUpTo(start, ids, env, n - 1);
      var id := ids[n - 1];
      if id in s.db.rows && Choice(env, s.db.rows[id]).Some? {
        SettledSafe(s.db, id, Choice(env, s.db.rows[id]).value, None, env.now, accepted);
      }
    }
  }

  datatype Step =
    | ResolveStep(contacts: Contacts, normalize: string -> string, request: ResolveRequest)
    | TeachStep(contacts: Contacts, normalize: string -> string, lesson: Lesson)
    | UnmatchStep(id: int, actor: int, now: int, saved: bool)
    | SkipStep(id: int)
    | ReprocessStep(ids: seq<int>, env: Env, saved: bool)
    | ClaudeStep(id: int, contact: int, score: real)
    | EnqueueStep(id: int, rawName: string, event: Option<int>, candidates: seq<(int, real)>)

  function Commits(db: Db, step: Step): seq<Db> {
    match step
    case ResolveStep(contacts, normalize, r) => Resolve(db, contacts, normalize, r)
    case TeachStep(contacts, normalize, l) => Teach(db, contacts, normalize, l)
    case UnmatchStep(id, actor, now, saved) => Unmatch(db, id, actor, now, saved)
    case SkipStep(_) => []
    case ReprocessStep(ids, env, saved) => Reprocess(db, ids, env, saved)
    case ClaudeStep(id, contact, score) => ClaudePick(db, id, contact, score)
    case EnqueueStep(id, rawName, event, candidates) => Enqueue(db, id, rawName, event, candidates)
  }

  ghost predicate ValidRun(db: Db, steps: seq<Step>)
    decreases |steps|
  {
    steps == [] ||
    ((steps[0].ReprocessStep? ==> Enumerates(steps[0].ids, db))
     && ValidRun(Last(db, Commits(db, steps[0])), steps[1..]))
  }

  /** Every commit point of a run, in order. */
  function Trace(db: Db, steps: seq<Step>): seq<Db>
    decreases |steps|
  {
    if steps == [] then [] else Commits(db, steps[0]) + Trace(Last(db, Commits(db, steps[0])), steps[1..])
  }

  /** A call of the teach endpoint that runs to its end. */
  predicate TeachesItem(db: Db, step: Step) {
    step.TeachStep? && Usable(step.contacts, step.lesson.contact) && Completes(db, step.normalize, step.lesson)
  }

  /** A resolve request that runs to the end of its lesson. */
  predicate TeachesOnResolve(db: Db, step: Step) {
    && step.ResolveStep? && step.request.teach
    && ResolveAnswer(db, step.contacts, step.request) == Ok
    && Completes(db, step.normalize, step.request.TheLesson())
  }

  /** The teach endpoint accepts a row on a contact that does not attend the row's event. */
  predicate Unattended(db: Db, step: Step) {
    TeachesItem(db, step) &&
    var l := step.lesson;
    db.rows[l.id].eventId.Some? && !Attends(db.participants, db.rows[l.id].eventId.value, l.contact)
  }

  predicate SomeUnattended(db: Db, steps: seq<Step>)
    decreases |steps|
  {
    steps != [] && (Unattended(db, steps[0]) || SomeUnattended(Last(db, Commits(db, steps[0])), steps[1..]))
  }

  lemma ResolveSafe(db: Db, contacts: Contacts, normalize: string -> string, r: ResolveRequest, accepted: bool)
    requires Safe(db, accepted)
    ensures forall p :: p in Resolve(db, contacts, normalize, r) ==> Safe(p, accepted)
  {
    if ResolveAnswer(db, contacts, r) == Ok {
      SettledSafe(db, r.id, r.contact, Some(r.actor), r.now, accepted);
      var matched := Settled(db, r.id, r.contact, Some(r.actor), r.now);
      var learned := Learned(matched, normalize, r.TheLesson());
      assert RowAttended(matched.rows[r.id], matched.participants, accepted);
      assert Safe(learned, accepted) && Safe(Accept(learned, r.TheLesson()), accepted);
    }
  }

  lemma TeachSafe(db: Db, contacts: Contacts, normalize: string -> string, l: Lesson, accepted: bool)
    requires Safe(db, accepted)
    ensures (forall p :: p in Teach(db, contacts, normalize, l) ==> Safe(p, accepted)) <==>
              !(accepted && Unattended(db, TeachStep(contacts, normalize, l)))
  {
    if TeachesItem(db, TeachStep(contacts, normalize, l)) {
      var learned := Learned(db, normalize, l);
      var p := Accept(learned, l);
      var points := Teach(db, contacts, normalize, l);
      assert points == [learned, p] && points[1] in points;
      assert p.rows[l.id].eventId == db.rows[l.id].eventId;
      if accepted && Unattended(db, TeachStep(contacts, normalize, l)) {
        assert !RowAttended(p.rows[l.id], p.participants, accepted);
      } else {
        assert RowAttended(p.rows[l.id], p.participants, accepted);
        assert Safe(p, accepted);
      }
    }
  }

  lemma CommitsSafe(db: Db, step: Step, accepted: bool)
    requires Safe(db, accepted)
    ensures (forall p :: p in Commits(db, step) ==> Safe(p, accepted)) <==> !(accepted && Unattended(db, step))
  {
    match step
    case ResolveStep(contacts, normalize, r) => ResolveSafe(db, contacts, normalize, r, accepted);
    case TeachStep(contacts, normalize, l) => TeachSafe(db, contacts, normalize, l, accepted);
    case ReprocessStep(ids, env, _) => ReprocessSafe(db, ids, env, |ids|, accepted);
    case _ =>
  }

  lemma {:induction false} TraceSafe(db: Db, steps: seq<Step>, accepted: bool)
    requires Safe(db, accepted)
    ensures (forall p :: p in Trace(db, steps) ==> Safe(p, accepted)) <==> !(accepted && SomeUnattended(db, steps))
    decreases |steps|
  {
    if steps != [] {
      CommitsSafe(db, steps[0], accepted);
      var points := Commits(db, steps[0]);
      var rest := Trace(Last(db, points), steps[1..]);
      assert forall p :: p in Trace(db, steps) <==> p in points || p in rest;
      assert points != [] ==> points[|points| - 1] in points;
      if !(accepted && Unattended(db, steps[0])) {
        TraceSafe(Last(db, points), steps[1..], accepted);
      }
    }
  }

  /** At every commit point of every run participants are unique and each matched row with an event has its own. */
  lemma MatchedRowsAttended(db: Db, steps: seq<Step>)
    requires Safe(db, false)
    ensures forall p :: p in Trace(db, steps) ==> Safe(p, false)
  {
    TraceSafe(db, steps, false);
  }

  /**
   The accepted rows have theirs too exactly in the runs where the teach endpoint never accepts, for a
   row with an event, a contact that does not attend it yet.
   */
  lemma AcceptedRowsAttendedExactly(db: Db, steps: seq<Step>)
    requires Safe(db, true)
    ensures (forall p :: p in Trace(db, steps) ==> Safe(p, true)) <==> !SomeUnattended(db, steps)
  {
    TraceSafe(db, steps, true);
  }

  // ----- what stays decided

  /**
   What may be promised of a decided row: that a match or a rejection keeps status, contact and
   resolver, that a rejection does, or only that the row does not become pending again.
   */
  datatype Promise = Decision | Rejection | Decided

  predicate Covers(p: Promise, status: Status) {
    match p
    case Decision => status in {Matched, Rejected}
    case Rejection => status == Rejected
    case Decided => status != Pending
  }

  ghost predicate Keeps(p: Promise, a: Db, b: Db) {
    forall id :: id in a.rows && Covers(p, a.rows[id].status) ==>
      && id in b.rows
      && Covers(p, b.rows[id].status)
      && (p != Decided ==>
            && b.rows[id].status == a.rows[id].status
            && b.rows[id].contactId == a.rows[id].contactId
            && b.rows[id].resolvedBy == a.rows[id].resolvedBy)
  }

  ghost predicate Link(p: Promise, t: seq<Db>, i: nat)
    requires 0 < i < |t|
  {
    Keeps(p, t[i - 1], t[i])
  }

  ghost predicate Chain(p: Promise, t: seq<Db>) {
    forall i :: 0 < i < |t| ==> Link(p, t, i)
  }

  /** The steps that break the promise: completed lessons, on a row that it covers. */
  predicate Breaks(p: Promise, db: Db, step: Step) {
    match p
    case Decision => TeachesOnResolve(db, step) || (TeachesItem(db, step) && Covers(p, db.rows[step.lesson.id].status))
    case Rejection => TeachesItem(db, step) && Covers(p, db.rows[step.lesson.id].status)
    case Decided => false
  }

  predicate SomeBreaks(p: Promise, db: Db, steps: seq<Step>)
    decreases |steps|
  {
    steps != [] && (Breaks(p, db, steps[0]) || SomeBreaks(p, Last(db, Commits(db, steps[0])), steps[1..]))
  }

  /** Rows that were not pending are not touched by reprocessing, and nothing is undone. */
  lemma {:induction false} ReprocessTouchesPending(start: Db, ids: seq<int>, env: Env, n: nat)
    requires n <= |ids| && forall i :: 0 <= i < |ids| ==> IsPending(start, ids[i])
    ensures var db := ReprocessUpTo(start, ids, env, n).db;
            && db.rows.Keys == start.rows.Keys
            && (forall id :: id in start.rows && start.rows[id].status != Pending ==> db.rows[id] == start.rows[id])
  {
    if n > 0 {
      ReprocessTouchesPending(start, ids, env, n - 1);
      assert IsPending(start, ids[n - 1]);
    }
  }

  lemma CommitsChain(p: Promise, db: Db, step: Step)
    requires step.ReprocessStep? ==> Enumerates(step.ids, db)
    ensures Chain(p, [db] + Commits(db, step)) <==> !Breaks(p, db, step)
  {
    match step
    case ResolveStep(contacts, normalize, r) => ResolveChain(p, db, contacts, normalize, r);
    case TeachStep(contacts, normalize, l) => TeachChain(p, db, contacts, normalize, l);
    case _ =>
      OthersKeep(p, db, step);
      ShortChain(p, db, Commits(db, step));
  }

  lemma OthersKeep(p: Promise, db: Db, step: Step)
    requires step.ReprocessStep? ==> Enumerates(step.ids, db)
    requires !step.ResolveStep? && !step.TeachStep?
    ensures |Commits(db, step)| <= 1 && forall after :: after in Commits(db, step) ==> Keeps(p, db, after)
  {
    if step.ReprocessStep? {
      ReprocessTouchesPending(db, step.ids, step.env, |step.ids|);
    }
  }

  lemma SettledKeeps(p: Promise, db: Db, r: ResolveRequest)
    requires r.id in db.rows && db.rows[r.id].status !in {Matched, Rejected}
    ensures Keeps(p, db, db)
    ensures Keeps(p, db, Settled(db, r.id, r.contact, Some(r.actor), r.now))
  {
  }

  lemma AcceptKeeps(p: Promise, db: Db, l: Lesson)
    requires l.id in db.rows
    ensures Keeps(p, Accept(db, l), Accept(db, l)) && Keeps(p, db, db)
    ensures Keeps(p, db, Accept(db, l)) <==> p == Decided || !Covers(p, db.rows[l.id].status)
  {
    var accepted := Accept(db, l);
    assert accepted.rows[l.id].status == Accepted;
  }

  /** A chain of at most three commit points after db. */
  lemma ShortChain(p: Promise, db: Db, points: seq<Db>)
    requires |points| <= 3
    ensures Chain(p, [db] + points) <==>
              && (|points| > 0 ==> Keeps(p, db, points[0]))
              && (|points| > 1 ==> Keeps(p, points[0], points[1]))
              && (|points| > 2 ==> Keeps(p, points[1], points[2]))
  {
    var t := [db] + points;
    if |points| > 0 {
      assert Link(p, t, 1) <==> Keeps(p, db, points[0]);
    }
    if |points| > 1 {
      assert Link(p, t, 2) <==> Keeps(p, points[0], points[1]);
    }
    if |points| > 2 {
      assert Link(p, t, 3) <==> Keeps(p, points[1], points[2]);
    }
  }

  /** The commit points of a resolve that answers ok. */
  lemma ResolvePoints(db: Db, contacts: Contacts, normalize: string -> string, r: ResolveRequest)
    requires ResolveAnswer(db, contacts, r) == Ok
    ensures var matched := Settled(db, r.id, r.contact, Some(r.actor), r.now);
            var learned := Learned(matched, normalize, r.TheLesson());
            var accepted := Accept(learned, r.TheLesson());
            var points := Resolve(db, contacts, normalize, r);
            if TeachesOnResolve(db, ResolveStep(contacts, normalize, r))
            then points == [learned, accepted] || points == [learned, accepted, accepted]
            else points == [] || points == [db] || points == [matched] || points == [learned]
                 || points == [learned, learned]
  {
    var matched := Settled(db, r.id, r.contact, Some(r.actor), r.now);
    var learned := Learned(matched, normalize, r.TheLesson());
    var accepted := Accept(learned, r.TheLesson());
    assert [learned, accepted] + [accepted] == [learned, accepted, accepted];
    assert [learned] + [learned] == [learned, learned];
    assert AliasOf(matched, normalize, r.TheLesson()) == AliasOf(db, normalize, r.TheLesson());
  }

  lemma ChainOfPoints(p: Promise, db: Db, matched: Db, learned: Db, accepted: Db)
    requires Keeps(p, db, db) && Keeps(p, db, matched) && Keeps(p, db, learned)
    requires Keeps(p, learned, learned) && Keeps(p, accepted, accepted)
    ensures Chain(p, [db] + []) && Chain(p, [db] + [db])
    ensures Chain(p, [db] + [matched]) && Chain(p, [db] + [learned]) && Chain(p, [db] + [learned, learned])
    ensures Chain(p, [db] + [learned, accepted]) <==> Keeps(p, learned, accepted)
    ensures Chain(p, [db] + [learned, accepted, accepted]) <==> Keeps(p, learned, accepted)
  {
    ShortChain(p, db, []);
    ShortChain(p, db, [db]);
    ShortChain(p, db, [matched]);
    ShortChain(p, db, [learned]);
    ShortChain(p, db, [learned, learned]);
    ShortChain(p, db, [learned, accepted]);
    ShortChain(p, db, [learned, accepted, accepted]);
  }

  lemma ResolveChain(p: Promise, db: Db, contacts: Contacts, normalize: string -> string, r: ResolveRequest)
    ensures Chain(p, [db] + Resolve(db, contacts, normalize, r)) <==>
            !Breaks(p, db, ResolveStep(contacts, normalize, r))
  {
    if ResolveAnswer(db, contacts, r) == Ok {
      var matched := Settled(db, r.id, r.contact, Some(r.actor), r.now);
      var learned := Learned(matched, normalize, r.TheLesson());
      SettledKeeps(p, db, r);
      AcceptKeeps(p, learned, r.TheLesson());
      SameRowsKeep(p, db, matched, learned);
      ChainOfPoints(p, db, matched, learned, Accept(learned, r.TheLesson()));
      ResolvePoints(db, contacts, normalize, r);
    }
  }

  lemma SameRowsKeep(p: Promise, a: Db, b: Db, c: Db)
    requires Keeps(p, a, b) && c.rows == b.rows
    ensures Keeps(p, a, c)
  {
  }

  lemma TeachChain(p: Promise, db: Db, contacts: Contacts, normalize: string -> string, l: Lesson)
    ensures Chain(p, [db] + Teach(db, contacts, normalize, l)) <==> !Breaks(p, db, TeachStep(contacts, normalize, l))
  {
    if l.id in db.rows {
      var learned := Learned(db, normalize, l);
      AcceptKeeps(p, learned, l);
      AcceptKeeps(p, db, l);
      SameRowsKeep(p, db, db, learned);
    }
    ShortChain(p, db, Teach(db, contacts, normalize, l));
  }

  lemma ChainSplit(p: Promise, db: Db, points: seq<Db>, rest: seq<Db>)
    ensures Chain(p, [db] + points + rest) <==> Chain(p, [db] + points) && Chain(p, [Last(db, points)] + rest)
  {
    var t, a, b := [db] + points + rest, [db] + points, [Last(db, points)] + rest;
    assert forall i :: 0 <= i < |a| ==> t[i] == a[i];
    assert forall i :: 0 <= i < |b| ==> t[|points| + i] == b[i];
    forall i | 0 < i < |a|
      ensures Link(p, a, i) <==> Link(p, t, i)
    {
    }
    forall i | 0 < i < |b|
      ensures Link(p, b, i) <==> Link(p, t, |points| + i)
    {
    }
    if Chain(p, a) && Chain(p, b) {
      forall i | 0 < i < |t|
        ensures Link(p, t, i)
      {
        if i >= |a| {
          assert Link(p, b, i - |points|);
        }
      }
    }
  }

  /** The chain of a run is broken by its first step or by the later ones. */
  lemma ChainOfRun(p: Promise, db: Db, points: seq<Db>, rest: seq<Db>, first: bool, later: bool)
    requires Chain(p, [db] + points) <==> !first
    requires Chain(p, [Last(db, points)] + rest) <==> !later
    ensures Chain(p, [db] + (points + rest)) <==> !(first || later)
  {
    ChainSplit(p, db, points, rest);
    assert [db] + (points + rest) == [db] + points + rest;
  }

  lemma {:induction false} TraceChain(p: Promise, db: Db, steps: seq<Step>)
    requires ValidRun(db, steps)
    ensures Chain(p, [db] + Trace(db, steps)) <==> !SomeBreaks(p, db, steps)
    decreases |steps|
  {
    if steps != [] {
      var points := Commits(db, steps[0]);
      var rest := Trace(Last(db, points), steps[1..]);
      CommitsChain(p, db, steps[0]);
      TraceChain(p, Last(db, points), steps[1..]);
      ChainOfRun(p, db, points, rest, Breaks(p, db, steps[0]), SomeBreaks(p, Last(db, points), steps[1..]));
    }
  }

  lemma {:induction false} ChainKeeps(p: Promise, t: seq<Db>, i: nat, j: nat)
    requires Chain(p, t) && i <= j < |t|
    ensures Keeps(p, t[i], t[j])
    decreases j
  {
    if i < j {
      ChainKeeps(p, t, i, j - 1);
      assert Link(p, t, j);
    }
  }

  /** A promise is kept from each commit point to every later one. */
  ghost predicate KeptThroughout(p: Promise, t: seq<Db>) {
    forall i, j :: 0 <= i <= j < |t| ==> Keeps(p, t[i], t[j])
  }

  /**
   A match or a rejection stands exactly in the runs where no resolve request completes a lesson and the
   teach endpoint completes none on a matched or rejected row; rejections alone stand exactly if it
   completes none on a rejected row; and that a decided row is never pending again holds in every run.
   */
  lemma PromisesKeptExactly(p: Promise, db: Db, steps: seq<Step>)
    requires ValidRun(db, steps)
    ensures KeptThroughout(p, [db] + Trace(db, steps)) <==> !SomeBreaks(p, db, steps)
  {
    var t := [db] + Trace(db, steps);
    TraceChain(p, db, steps);
    if Chain(p, t) {
      forall i, j | 0 <= i <= j < |t|
        ensures Keeps(p, t[i], t[j])
      {
        ChainKeeps(p, t, i, j);
      }
    } else {
      var i :| 0 < i < |t| && !Link(p, t, i);
    }
  }

  lemma {:induction false} NothingBreaksDecided(db: Db, steps: seq<Step>)
    ensures !SomeBreaks(Decided, db, steps)
    decreases |steps|
  {
    if steps != [] {
      NothingBreaksDecided(Last(db, Commits(db, steps[0])), steps[1..]);
    }
  }

  /** In every run, whatever is taught, each row stays in the queue and a decided one never becomes pending again. */
  lemma NeverPendingAgain(db: Db, steps: seq<Step>, i: nat, j: nat, id: int)
    requires ValidRun(db, steps) && i <= j <= |Trace(db, steps)|
    ensures var t := [db] + Trace(db, steps);
            id in t[i].rows && t[i].rows[id].status != Pending ==> id in t[j].rows && t[j].rows[id].status != Pending
  {
    var t := [db] + Trace(db, steps);
    NothingBreaksDecided(db, steps);
    PromisesKeptExactly(Decided, db, steps);
    assert Keeps(Decided, t[i], t[j]);
  }

  /**
   An item of event 7 is rejected and then taught: it ends as accepted, so the rejection does not stand,
   on a contact that is no participant of the event.
   */
  lemma TeachingOverridesRejection(normalize: string -> string)
    ensures var empty := Db(map[], [], map[]);
            var steps := [EnqueueStep(1, "ANNA", Some(7), []), UnmatchStep(1, 4, 0, true),
                          TeachStep(map[9 := false], normalize, Lesson(1, 9, 4, Some("ANNA"), 1, NoFault))];
            && ValidRun(empty, steps) && Safe(empty, true)
            && SomeBreaks(Rejection, empty, steps) && SomeUnattended(empty, steps)
            && (var t := Trace(empty, steps);
                && |t| == 4 && 1 in t[1].rows && 1 in t[3].rows
                && t[1].rows[1].status == Rejected && t[3].rows[1].status == Accepted && t[3].participants == [])
  {
    var empty := Db(map[], [], map[]);
    var enqueue := EnqueueStep(1, "ANNA", Some(7), []);
    var unmatch := UnmatchStep(1, 4, 0, true);
    var teach := TeachStep(map[9 := false], normalize, Lesson(1, 9, 4, Some("ANNA"), 1, NoFault));
    var pending := Enqueue(empty, 1, "ANNA", Some(7), [])[0];
    var rejected := Unmatched(pending, 1, 4, 0);
    assert Commits(empty, enqueue) == [pending] && Commits(pending, unmatch) == [rejected];
    var learned := Learned(rejected, normalize, teach.lesson);
    var accepted := Accept(learned, teach.lesson);
    assert Commits(rejected, teach) == [learned, accepted];
    assert TeachesItem(rejected, teach) && Unattended(rejected, teach) && Breaks(Rejection, rejected, teach);
    StepOne(rejected, teach, []);
    StepOne(pending, unmatch, [teach]);
    StepOne(empty, enqueue, [unmatch, teach]);
    assert Trace(accepted, []) == [];
  }

  lemma StepOne(db: Db, step: Step, rest: seq<Step>)
    ensures var after := Last(db, Commits(db, step));
            var steps := [step] + rest;
            && Trace(db, steps) == Commits(db, step) + Trace(after, rest)
            && (ValidRun(db, steps) <==> (step.ReprocessStep? ==> Enumerates(step.ids, db)) && ValidRun(after, rest))
            && (SomeUnattended(db, steps) <==> Unattended(db, step) || SomeUnattended(after, rest))
            && (forall p :: SomeBreaks(p, db, steps) <==> Breaks(p, db, step) || SomeBreaks(p, after, rest))
  {
    assert ([step] + rest)[1..] == rest;
  }

  /** The lesson's first commit goes through, and with it the match. */
  predicate LessonSaves(db: Db, normalize: string -> string, r: ResolveRequest) {
    r.teach && Teachable(db, normalize, r.TheLesson()) && r.fault !in {BeforeFirstCommit, InFirstCommit}
  }

  /**
   The match is lost, although the endpoint answers ok: the lesson does not save it, and either the commits
   at the end do not, or there is nothing left for them to save as the lesson's first commit failed.
   */
  predicate LosesTheMatch(db: Db, normalize: string -> string, r: ResolveRequest) {
    && !LessonSaves(db, normalize, r)
    && (!r.saved || (r.teach && Teachable(db, normalize, r.TheLesson()) && r.fault == InFirstCommit))
  }

  /**
   After a resolve that answered ok, another resolve of the item is refused exactly if the first neither
   completed its lesson nor lost the match.
   */
  lemma SecondResolveRefused(db: Db, contacts: Contacts, normalize: string -> string, r: ResolveRequest,
                             later: Contacts, again: ResolveRequest)
    requires ResolveAnswer(db, contacts, r) == Ok
    requires again.id == r.id
    ensures var after := Last(db, Resolve(db, contacts, normalize, r));
            ResolveAnswer(after, later, again) == Conflict <==>
              !TeachesOnResolve(db, ResolveStep(contacts, normalize, r)) && !LosesTheMatch(db, normalize, r)
  {
  }

  lemma ResolveEnds(db: Db, contacts: Contacts, normalize: string -> string, r: ResolveRequest)
    requires ResolveAnswer(db, contacts, r) == Ok
    ensures var matched := Settled(db, r.id, r.contact, Some(r.actor), r.now);
            Last(db, Resolve(db, contacts, normalize, r)) ==
            var learned := Learned(matched, normalize, r.TheLesson());
            if LosesTheMatch(db, normalize, r) then db
            else if TeachesOnResolve(db, ResolveStep(contacts, normalize, r)) then Accept(learned, r.TheLesson())
            else if LessonSaves(db, normalize, r) then learned
            else matched
  {
  }

  lemma ParticipantsSettled(db: Db, id: int, contact: int, actor: Option<int>, now: int)
    requires id in db.rows
    ensures var after := Settled(db, id, contact, actor, now).participants;
            && db.participants <= after && |after| <= |db.participants| + 1
            && (forall p :: p in after && p !in db.participants ==>
                  Some(p.eventId) == db.rows[id].eventId && p.contactId == contact && p.registeredBy == actor)
  {
  }

  /**
   What a resolve that answered ok leaves behind: nothing if it lost the match, else the item carries the
   chosen contact and the actor, the other rows are as they were, and at most that contact was added to that
   item's event.
   */
  lemma ResolveRecords(db: Db, contacts: Contacts, normalize: string -> string, r: ResolveRequest)
    requires ResolveAnswer(db, contacts, r) == Ok
    ensures var after := Last(db, Resolve(db, contacts, normalize, r));
            if LosesTheMatch(db, normalize, r) then after == db
            else
              && after.rows.Keys == db.rows.Keys
              && after.rows[r.id].contactId == Some(r.contact) && after.rows[r.id].resolvedBy == Some(r.actor)
              && after.rows[r.id].status ==
                 (if TeachesOnResolve(db, ResolveStep(contacts, normalize, r)) then Accepted else Matched)
              && (forall id :: id in db.rows && id != r.id ==> after.rows[id] == db.rows[id])
              && db.participants <= after.participants && |after.participants| <= |db.participants| + 1
              && (forall p :: p in after.participants && p !in db.participants ==>
                    && Some(p.eventId) == db.rows[r.id].eventId
                    && p.contactId == r.contact && p.registeredBy == Some(r.actor))
  {
    ResolveEnds(db, contacts, normalize, r);
    ParticipantsSettled(db, r.id, r.contact, Some(r.actor), r.now);
  }

  /**
   A match that is lost: the alias is too long for its column, the failed statement takes the transaction with it,
   neither closing commit saves anything, and the request has answered ok.
   */
  lemma LongAliasLosesTheMatch(normalize: string -> string, alias: string)
    requires alias != ""
    ensures var db := Db(map[1 := Row("ANNA", Some(7), Pending, None, None, None, None, None)], [], map[]);
            var r := ResolveRequest(1, 9, 4, 0, true, Some(alias), 0, BeforeFirstCommit, false);
            && ResolveAnswer(db, map[9 := false], r) == Ok && LosesTheMatch(db, normalize, r)
            && Resolve(db, map[9 := false], normalize, r) == []
  {
  }

  /** A reprocess run changes pending rows only, and each to a match with the pipeline's choice and no resolver. */
  lemma {:induction false} ReprocessRecords(start: Db, ids: seq<int>, env: Env, n: nat, id: int)
    requires n <= |ids| && id in start.rows
    ensures var db := ReprocessUpTo(start, ids, env, n).db;
            && id in db.rows
            && (db.rows[id] == start.rows[id] ||
                (id in ids && Choice(env, start.rows[id]).Some?
                 && db.rows[id].(resolvedAt := None) == start.rows[id].(status := Matched, resolvedBy := None,
                                                   contactId := Choice(env, start.rows[id]), resolvedAt := None)))
  {
    if n > 0 {
      ReprocessRecords(start, ids, env, n - 1, id);
    }
  }

  // ----- counting a reprocess run

  /** The loop has worked through the first n ids and the others are as they were. */
  ghost predicate Progress(start: Db, ids: seq<int>, n: nat, s: Loop)
    requires n <= |ids|
  {
    && s.db.rows.Keys == start.rows.Keys
    && (forall id :: id in PendingIds(s.db) ==> id in PendingIds(start) && s.db.rows[id] == start.rows[id])
    && (forall i :: n <= i < |ids| ==> ids[i] in PendingIds(s.db))
    && |PendingIds(s.db)| + s.surviving == |PendingIds(start)|
    && s.surviving <= s.matched
  }

  lemma RowProgress(start: Db, ids: seq<int>, env: Env, n: nat, s: Loop)
    requires n < |ids| && Progress(start, ids, n, s)
    requires forall i :: 0 <= i < |ids| ==> ids[i] in PendingIds(start)
    requires forall i :: n < i < |ids| ==> ids[i] != ids[n]
    ensures Progress(start, ids, n + 1, ReprocessRow(start, s, ids[n], env))
  {
    var t := ReprocessRow(start, s, ids[n], env);
    assert ids[n] in PendingIds(s.db);
    if t.surviving == s.surviving + 1 {
      assert PendingIds(t.db) == PendingIds(s.db) - {ids[n]};
    }
  }

  lemma {:induction false} ReprocessProgress(start: Db, ids: seq<int>, env: Env, n: nat)
    requires Enumerates(ids, start) && n <= |ids|
    ensures Progress(start, ids, n, ReprocessUpTo(start, ids, env, n))
  {
    forall i | 0 <= i < |ids|
      ensures ids[i] in PendingIds(start)
    {
      assert IsPending(start, ids[i]);
    }
    if n > 0 {
      ReprocessProgress(start, ids, env, n - 1);
      RowProgress(start, ids, env, n - 1, ReprocessUpTo(start, ids, env, n - 1));
    }
  }

  lemma {:induction false} DistinctCount(ids: seq<int>)
    requires forall i, j :: 0 <= i < j < |ids| ==> ids[i] != ids[j]
    ensures |set id | id in ids| == |ids|
  {
    if ids != [] {
      var n := |ids| - 1;
      DistinctCount(ids[..n]);
      assert (set id | id in ids) == (set id | id in ids[..n]) + {ids[n]};
    }
  }

  /** The row raises after an earlier match of the same run: that match is rolled back but stays counted. */
  predicate Loses(s: Loop, id: int, env: Env) {
    && !s.escaped && s.matched > 0 && id in s.db.rows
    && (env.fault(id) == Escapes || Raises(env, s.db.rows[id], id))
  }

  ghost predicate LosesMatch(start: Db, ids: seq<int>, env: Env, n: nat)
    requires n < |ids|
  {
    Loses(ReprocessUpTo(start, ids, env, n), ids[n], env)
  }

  lemma RowSurviving(start: Db, s: Loop, id: int, env: Env)
    requires s.surviving <= s.matched
    ensures var t := ReprocessRow(start, s, id, env);
            t.surviving == t.matched <==> s.surviving == s.matched && !Loses(s, id, env)
  {
  }

  lemma {:induction false} SurvivingAll(start: Db, ids: seq<int>, env: Env, n: nat)
    requires Enumerates(ids, start) && n <= |ids|
    ensures var s := ReprocessUpTo(start, ids, env, n);
            s.surviving == s.matched <==> forall k :: 0 <= k < n ==> !LosesMatch(start, ids, env, k)
  {
    if n > 0 {
      SurvivingAll(start, ids, env, n - 1);
      ReprocessProgress(start, ids, env, n - 1);
      RowSurviving(start, ReprocessUpTo(start, ids, env, n - 1), ids[n - 1], env);
      assert LosesMatch(start, ids, env, n - 1) <==> Loses(ReprocessUpTo(start, ids, env, n - 1), ids[n - 1], env);
    }
  }

  /**
   The reported counts add up, processed = auto_matched + still_pending, exactly when no row raises
   after an earlier match; the rows still pending are always those processed less the surviving matches.
   */
  lemma ReprocessCounts(db: Db, ids: seq<int>, env: Env)
    requires Enumerates(ids, db)
    ensures var s := ReprocessUpTo(db, ids, env, |ids|);
            var stillPending := |PendingIds(s.db)|;
            && |ids| == s.surviving + stillPending
            && (|ids| == s.matched + stillPending <==> forall k :: 0 <= k < |ids| ==> !LosesMatch(db, ids, env, k))
  {
    forall id
      ensures id in ids <==> id in PendingIds(db)
    {
      assert IsPending(db, id) <==> id in PendingIds(db);
    }
    assert PendingIds(db) == set id | id in ids;
    DistinctCount(ids);
    ReprocessProgress(db, ids, env, |ids|);
    SurvivingAll(db, ids, env, |ids|);
  }

  /** The row that raises takes back the match before it: two rows, one counted as matched, both still pending. */
  lemma LostMatchStaysCounted()
    ensures var row := Row("ANNA", None, Pending, None, None, None, None, None);
            var db := Db(map[1 := row, 2 := row], [], map[]);
            var env := Env(map[9 := false], _ => Lookup(Some(9), [], None),
                           id => if id == 2 then InLookup else Clean, 0);
            && Enumerates([1, 2], db) && LosesMatch(db, [1, 2], env, 1)
            && ReprocessUpTo(db, [1, 2], env, 2) == Loop(db, 1, 0, false) && |PendingIds(db)| == 2
  {
    var row := Row("ANNA", None, Pending, None, None, None, None, None);
    var db := Db(map[1 := row, 2 := row], [], map[]);
    var env := Env(map[9 := false], _ => Lookup(Some(9), [], None), id => if id == 2 then InLookup else Clean, 0);
    assert Choice(env, row) == Some(9);
    assert ReprocessUpTo(db, [1, 2], env, 0) == Loop(db, 0, 0, false);
    assert ReprocessUpTo(db, [1, 2], env, 1) == Loop(Settled(db, 1, 9, None, 0), 1, 1, false);
    assert PendingIds(db) == {1, 2};
  }

  ghost predicate ExceptionFree(env: Env) {
    forall id :: env.fault(id) == Clean
  }

  /** The rows among the first n that the loop has left pending have no choice. */
  ghost predicate LeftWithout(start: Db, ids: seq<int>, env: Env, n: nat, s: Loop)
    requires n <= |ids|
  {
    && !s.escaped && s.matched == s.surviving
    && forall i :: 0 <= i < n && ids[i] in PendingIds(s.db) ==>
         ids[i] in start.rows && Choice(env, start.rows[ids[i]]).None?
  }

  lemma RowLeftWithout(start: Db, ids: seq<int>, env: Env, n: nat, s: Loop)
    requires ExceptionFree(env) && n < |ids|
    requires LeftWithout(start, ids, env, n, s)
    requires ids[n] in PendingIds(s.db) && ids[n] in start.rows && s.db.rows[ids[n]] == start.rows[ids[n]]
    ensures LeftWithout(start, ids, env, n + 1, ReprocessRow(start, s, ids[n], env))
  {
    var id := ids[n];
    var t := ReprocessRow(start, s, id, env);
    assert env.fault(id) == Clean;
    forall i | 0 <= i < n + 1 && ids[i] in PendingIds(t.db)
      ensures ids[i] in start.rows && Choice(env, start.rows[ids[i]]).None?
    {
      if ids[i] != id {
        assert ids[i] in PendingIds(s.db);
      }
    }
  }

  /** The row that the loop comes to next is pending, and as it was at the start. */
  lemma NextIsUntouched(start: Db, ids: seq<int>, env: Env, n: nat)
    requires Enumerates(ids, start) && n < |ids|
    ensures var db := ReprocessUpTo(start, ids, env, n).db;
            ids[n] in PendingIds(db) && ids[n] in start.rows && db.rows[ids[n]] == start.rows[ids[n]]
  {
    ReprocessProgress(start, ids, env, n);
  }

  lemma {:induction false} LeftPendingHaveNoChoice(start: Db, ids: seq<int>, env: Env, n: nat)
    requires Enumerates(ids, start) && ExceptionFree(env) && n <= |ids|
    ensures LeftWithout(start, ids, env, n, ReprocessUpTo(start, ids, env, n))
  {
    if n > 0 {
      LeftPendingHaveNoChoice(start, ids, env, n - 1);
      NextIsUntouched(start, ids, env, n - 1);
      RowLeftWithout(start, ids, env, n - 1, ReprocessUpTo(start, ids, env, n - 1));
    }
  }

  lemma {:induction false} NothingToMatch(start: Db, ids: seq<int>, env: Env, n: nat)
    requires ExceptionFree(env) && n <= |ids|
    requires forall i :: 0 <= i < |ids| ==> ids[i] in start.rows && Choice(env, start.rows[ids[i]]).None?
    ensures ReprocessUpTo(start, ids, env, n) == Loop(start, 0, 0, false)
  {
    if n > 0 {
      NothingToMatch(start, ids, env, n - 1);
    }
  }

  /** An exception-free run adds up, and with the same lookups and contacts a second run matches and changes nothing. */
  lemma ReprocessIdempotent(db: Db, ids: seq<int>, env: Env, again: seq<int>, env2: Env)
    requires Enumerates(ids, db) && ExceptionFree(env) && ExceptionFree(env2)
    requires env2.lookup == env.lookup && env2.contacts == env.contacts
    requires Enumerates(again, ReprocessUpTo(db, ids, env, |ids|).db)
    ensures var s := ReprocessUpTo(db, ids, env, |ids|);
            && |ids| == s.matched + |PendingIds(s.db)|
            && ReprocessUpTo(s.db, again, env2, |again|) == Loop(s.db, 0, 0, false)
  {
    var s := ReprocessUpTo(db, ids, env, |ids|);
    ReprocessCounts(db, ids, env);
    LeftPendingHaveNoChoice(db, ids, env, |ids|);
    ReprocessProgress(db, ids, env, |ids|);
    forall i | 0 <= i < |again|
      ensures again[i] in s.db.rows && Choice(env2, s.db.rows[again[i]]).None?
    {
      assert IsPending(s.db, again[i]);
      assert again[i] in PendingIds(s.db);
      assert IsPending(db, again[i]);
      var k :| 0 <= k < |ids| && ids[k] == again[i];
      assert Choice(env, db.rows[ids[k]]).None?;
    }
    NothingToMatch(s.db, again, env2, |again|);
  }
}

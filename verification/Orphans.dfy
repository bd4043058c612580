/** Review of orphaned recognition subjects: every subject is in one class, and the review list empties. */
module Orphans {
  import opened Prelude

  datatype Status = Pending | Active | Purged

  /** `recognitionId`: the subject's id at the recognition service, if it has one. */
  datatype Subject = Subject(name: string, recognitionId: Option<string>, contactId: Option<int>, isOrphan: bool,
                             status: Status, purgedAt: Option<int>)

  type Subjects = map<int, Subject>

  // ----- the counts and the list

  predicate IsRemapped(s: Subject) {
    s.contactId.Some? && !s.isOrphan
  }

  predicate IsOrphaned(s: Subject) {
    (s.contactId.None? || s.isOrphan) && s.status != Purged
  }

  /** The remaining subjects: purged while unlinked or flagged. */
  predicate IsRetired(s: Subject) {
    (s.contactId.None? || s.isOrphan) && s.status == Purged
  }

  function Remapped(t: Subjects): set<int> {
    set id | id in t && IsRemapped(t[id])
  }

  /** The filter of the orphan list, and of the orphan count of the status page. */
  function Orphaned(t: Subjects): set<int> {
    set id | id in t && IsOrphaned(t[id])
  }

  function Retired(t: Subjects): set<int> {
    set id | id in t && IsRetired(t[id])
  }

  // ----- the two actions

  datatype Contact = Contact(firstName: string, lastName: string)

  datatype Action = Relink(id: int, contact: Option<int>) | Retire(id: int, now: int)

  /** `Ambiguous`: the second lookup, by recognition id, finds several rows and raises. */
  datatype Answer = Done | Missing | NoContactGiven | Ambiguous

  /** Another subject has the same recognition id, or like this one has none: `= NULL` is compiled to IS NULL. */
  predicate SharesId(t: Subjects, id: int)
    requires id in t
  {
    exists other :: other in t && other != id && t[other].recognitionId == t[id].recognitionId
  }

  function Answered(t: Subjects, contacts: map<int, Contact>, a: Action): Answer {
    match a
    case Relink(id, contact) =>
      if contact.None? then NoContactGiven
      else if id !in t then Missing
      else if SharesId(t, id) then Ambiguous
      else if contact.value !in contacts then Missing
      else Done
    case Retire(id, _) => if id in t then Done else Missing
  }

  function Acted(t: Subjects, contacts: map<int, Contact>, a: Action): Subjects {
    if Answered(t, contacts, a) != Done then t
    else
      match a
      case Relink(id, contact) =>
        var c := contacts[contact.value];
        t[id := t[id].(contactId := contact, name := c.firstName + " " + c.lastName, isOrphan := false)]
      case Retire(id, now) =>
        t[id := t[id].(isOrphan := true, status := Purged, purgedAt := Some(now))]
  }

  class Review {
    var subjects: Subjects

    constructor (subjects: Subjects)
      ensures this.subjects == subjects
    {
      this.subjects := subjects;
    }

    method RelinkOrphan(id: int, contactId: Option<int>, contacts: map<int, Contact>) returns (a: Answer)
      modifies this
      ensures a == Answered(old(subjects), contacts, Relink(id, contactId))
      ensures subjects == Acted(old(subjects), contacts, Relink(id, contactId))
    {
      if contactId.None? {
        return NoContactGiven;
      }
      if id !in subjects {
        return Missing;
      }
      if SharesId(subjects, id) {
        return Ambiguous;
      }
      if contactId.value !in contacts {
        return Missing;
      }
      var c := contacts[contactId.value];
      var s := subjects[id];
      s := s.(contactId := contactId, name := c.firstName + " " + c.lastName);
      s := s.(isOrphan := false);
      subjects := subjects[id := s];
      return Done;
    }

    method RetireOrphan(id: int, now: int) returns (a: Answer)
      modifies this
      ensures a == Answered(old(subjects), map[], Retire(id, now))
      ensures subjects == Acted(old(subjects), map[], Retire(id, now))
    {
      if id !in subjects {
        return Missing;
      }
      subjects := subjects[id := subjects[id].(isOrphan := true, status := Purged, purgedAt := Some(now))];
      return Done;
    }
  }

  // ----- what the actions record

  /** A relinked subject carries the contact given and shows its name; a retired one is flagged, and purged then. */
  lemma ActionRecords(t: Subjects, contacts: map<int, Contact>, a: Action)
    ensures var after := Acted(t, contacts, a);
            && (Answered(t, contacts, a) != Done ==> after == t)
            && (Answered(t, contacts, a) == NoContactGiven <==> a.Relink? && a.contact == None)
            && (a.id !in t && !(a.Relink? && a.contact == None) ==> Answered(t, contacts, a) == Missing)
            && (Answered(t, contacts, a) == Done ==>
                  && a.id in t && a.id in after
                  && after[a.id].recognitionId == t[a.id].recognitionId
                  && match a
                     case Relink(id, contact) =>
                       && contact.Some? && contact.value in contacts
                       && after[id].contactId == contact && !after[id].isOrphan
                       && after[id].name == contacts[contact.value].firstName + " " + contacts[contact.value].lastName
                       && after[id].status == t[id].status && after[id].purgedAt == t[id].purgedAt
                     case Retire(id, now) =>
                       && after[id].isOrphan && after[id].status == Purged && after[id].purgedAt == Some(now)
                       && after[id].contactId == t[id].contactId && after[id].name == t[id].name)
  {
  }

  // ----- when a relink goes through

  /** The unique constraint on the recognition id, which allows any number of subjects without one. */
  ghost predicate UniqueIds(t: Subjects) {
    forall i, j :: i in t && j in t && i != j && t[i].recognitionId.Some? ==> t[i].recognitionId != t[j].recognitionId
  }

  /** The subjects not enrolled at the recognition service. */
  function WithoutId(t: Subjects): set<int> {
    set id | id in t && t[id].recognitionId.None?
  }

  /** A relink goes through exactly if subject and contact exist and the subject is enrolled, or alone in not being. */
  lemma RelinkExactly(t: Subjects, contacts: map<int, Contact>, id: int, contact: int)
    requires UniqueIds(t)
    ensures Answered(t, contacts, Relink(id, Some(contact))) == Done <==>
            id in t && contact in contacts && (t[id].recognitionId.Some? || |WithoutId(t)| == 1)
  {
    if id in t && t[id].recognitionId.None? {
      Singleton(WithoutId(t), id);
      if !SharesId(t, id) {
        assert forall other :: other in WithoutId(t) ==> other == id;
        assert WithoutId(t) == {id};
      } else {
        var other :| other in t && other != id && t[other].recognitionId == t[id].recognitionId;
        assert other in WithoutId(t);
      }
    }
  }

  /** Two subjects that were never enrolled: neither can be relinked. */
  lemma TwoUnenrolledCannotRelink(c: Contact)
    ensures var s := Subject("ANNA", None, None, true, Pending, None);
            forall id :: id in {1, 2} ==>
              Answered(map[1 := s, 2 := s], map[9 := c], Relink(id, Some(9))) == Ambiguous
  {
    var s := Subject("ANNA", None, None, true, Pending, None);
    var t: Subjects := map[1 := s, 2 := s];
    assert t[1].recognitionId == t[2].recognitionId;
  }

  lemma Singleton(s: set<int>, x: int)
    requires x in s
    ensures |s| == 1 <==> s == {x}
  {
    var rest := s - {x};
    assert s == rest + {x};
    assert |s| == |rest| + 1;
    assert rest == {} ==> s == {x};
  }

  // ----- every subject is counted once

  lemma CountedOnce(t: Subjects)
    ensures |Remapped(t)| + |Orphaned(t)| + |Retired(t)| == |t|
  {
    var a, b, c := Remapped(t), Orphaned(t), Retired(t);
    forall id: int
      ensures id in t.Keys <==> id in a + b + c
      ensures !(id in a && id in b) && !(id in a + b && id in c)
    {
    }
    assert t.Keys == a + b + c;
    assert a !! b;
    assert (a + b) !! c;
  }

  /**
   An action that goes through on a listed orphan takes it, and only it, off the list; any other changes no
   subject but its own.
   */
  lemma ActionTakesOneOff(t: Subjects, contacts: map<int, Contact>, a: Action)
    ensures var after := Acted(t, contacts, a);
            && after.Keys == t.Keys
            && (forall id :: id in t && id != a.id ==> after[id] == t[id])
            && (Answered(t, contacts, a) == Done ==> Orphaned(after) == Orphaned(t) - {a.id})
            && (Answered(t, contacts, a) == Done && a.Retire? && a.id in Orphaned(t) ==>
                  Retired(after) == Retired(t) + {a.id})
            && (Answered(t, contacts, a) == Done && a.Relink? ==> Remapped(after) == Remapped(t) + {a.id})
  {
  }

  // ----- the review list empties

  function Run(t: Subjects, contacts: map<int, Contact>, actions: seq<Action>): Subjects
    decreases |actions|
  {
    if actions == [] then t else Run(Acted(t, contacts, actions[0]), contacts, actions[1..])
  }

  /** Each action goes through on a subject that is on the list at that moment. */
  predicate Reviews(t: Subjects, contacts: map<int, Contact>, actions: seq<Action>)
    decreases |actions|
  {
    actions == [] ||
    (Answered(t, contacts, actions[0]) == Done && actions[0].id in Orphaned(t)
     && Reviews(Acted(t, contacts, actions[0]), contacts, actions[1..]))
  }

  /** The list shortens by one with each action, so it is empty after exactly as many as it was long. */
  lemma {:induction false} ListEmpties(t: Subjects, contacts: map<int, Contact>, actions: seq<Action>)
    requires Reviews(t, contacts, actions)
    ensures |actions| + |Orphaned(Run(t, contacts, actions))| == |Orphaned(t)|
    ensures Orphaned(Run(t, contacts, actions)) == {} <==> |actions| == |Orphaned(t)|
    decreases |actions|
  {
    if actions != [] {
      ActionTakesOneOff(t, contacts, actions[0]);
      ListEmpties(Acted(t, contacts, actions[0]), contacts, actions[1..]);
    }
  }
}

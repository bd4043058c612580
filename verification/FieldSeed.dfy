/**
 Seeding of the custom-field groups and their fields: insert-if-absent into two tables, the second
 of which refers to the ids of the first.
 */
module FieldSeed {
  import opened Prelude

  datatype Group = Group(id: nat, entity: string, name: string, title: string, weight: int, isActive: bool)

  /** One entry of an option list. */
  datatype Choice = Choice(value: string, title: string)

  datatype Field = Field(id: nat, groupId: nat, name: string, title: string, dataType: string, options: seq<Choice>,
                         isRequired: bool, isMulti: bool, weight: int, isActive: bool, helpText: Option<string>)

  datatype Db = Db(groups: seq<Group>, fields: seq<Field>)

  datatype GroupDef = GroupDef(name: string, title: string, weight: int)

  datatype FieldDef = FieldDef(name: string, title: string, dataType: string, options: seq<Choice>,
                               isRequired: bool, isMulti: bool, weight: int, helpText: Option<string>)

  /** The fields listed for one group. */
  datatype Section = Section(group: string, fields: seq<FieldDef>)

  const ENTITY := "contact"

  const GROUPS: seq<GroupDef> := [
    GroupDef("constituent_info", "Constituent Info", 10),
    GroupDef("new_friend_info", "New Friend Info", 20),
    GroupDef("community_info", "Community Info", 30),
    GroupDef("leader_info", "Leader Info", 40),
    GroupDef("followup_info", "Followup Info", 50),
    GroupDef("church_info", "Church Info", 60)
  ]

  const STUB_HELP := "Pending owner confirmation \U{2014} update option list in admin UI"

  const PEPSOL :=
    [Choice("pre_encounter", "Pre-Encounter"), Choice("encounter", "Encounter"),
     Choice("post_encounter", "Post-Encounter")]
  const HOW_HEARD :=
    [Choice("friend", "Friend/Family"), Choice("social_media", "Social Media"), Choice("other", "Other")]
  const COMMUNITY :=
    [Choice("community_a", "Community A"), Choice("community_b", "Community B"), Choice("community_c", "Community C")]
  const MINISTRY := [Choice("worship", "Worship"), Choice("media", "Media"), Choice("ushering", "Ushering")]
  const FOLLOWUP_STATUS :=
    [Choice("pending", "Pending"), Choice("in_progress", "In Progress"), Choice("completed", "Completed")]
  const MEMBERSHIP_CLASS :=
    [Choice("class_101", "101 \U{2014} Membership"), Choice("class_201", "201 \U{2014} Maturity"),
     Choice("class_301", "301 \U{2014} Ministry")]

  const SECTIONS: seq<Section> := [
    Section("constituent_info", [
      FieldDef("barangay", "Barangay", "text", [], false, false, 10, None),
      FieldDef("pepsol", "PEPSOL Pathway", "select", PEPSOL, false, false, 20, Some(STUB_HELP)),
      FieldDef("facebook_name", "Facebook Name", "text", [], false, false, 30, None)
    ]),
    Section("new_friend_info", [
      FieldDef("invited_by", "Invited By", "contact_reference", [], false, false, 10, None),
      FieldDef("consolidated_by", "Consolidated By", "contact_reference", [], false, false, 20, None),
      FieldDef("first_visit_date", "First Visit Date", "date", [], false, false, 30, None),
      FieldDef("how_heard", "How Did You Hear About Us?", "select", HOW_HEARD, false, false, 40, Some(STUB_HELP))
    ]),
    Section("community_info", [
      FieldDef("community", "Community", "multiselect", COMMUNITY, false, true, 10, Some(STUB_HELP)),
      FieldDef("community_leader", "Community Leader", "contact_reference", [], false, false, 20, None),
      FieldDef("community_add_date", "Date Added to Community", "date", [], false, false, 30, None)
    ]),
    Section("leader_info", [
      FieldDef("ministry", "Ministry", "multiselect", MINISTRY, false, true, 10, Some(STUB_HELP)),
      FieldDef("ministry_leader", "Ministry Leader", "contact_reference", [], false, false, 20, None),
      FieldDef("network_leader", "Network Leader", "contact_reference", [], false, false, 30, None),
      FieldDef("lifegroup_leader", "Lifegroup Leader", "contact_reference", [], false, false, 40, None)
    ]),
    Section("followup_info", [
      FieldDef("followup_listing", "Followup Notes", "textarea", [], false, false, 10, None),
      FieldDef("followup_status", "Followup Status", "select", FOLLOWUP_STATUS, false, false, 20, Some(STUB_HELP))
    ]),
    Section("church_info", [
      FieldDef("membership_class", "Membership Class", "select", MEMBERSHIP_CLASS, false, false, 10, Some(STUB_HELP)),
      FieldDef("water_baptized", "Water Baptized?", "checkbox", [], false, false, 20, None),
      FieldDef("spirit_baptized", "Spirit Baptized?", "checkbox", [], false, false, 30, None),
      FieldDef("date_joined", "Date Joined", "date", [], false, false, 40, None)
    ])
  ]

  // ----- the two inserts

  /** The id of the group (entity, name), as the constraint makes it unique. */
  function GroupId(groups: seq<Group>, entity: string, name: string): Option<nat> {
    if groups == [] then None
    else
      var n := |groups| - 1;
      if groups[n].entity == entity && groups[n].name == name then Some(groups[n].id)
      else GroupId(groups[..n], entity, name)
  }

  predicate HasField(fields: seq<Field>, groupId: nat, name: string) {
    exists i :: 0 <= i < |fields| && fields[i].groupId == groupId && fields[i].name == name
  }

  /** An id that no group, or no field, has yet. */
  function NextGroupId(groups: seq<Group>): (id: nat)
    ensures forall i :: 0 <= i < |groups| ==> groups[i].id < id
  {
    if groups == [] then 1 else Max(NextGroupId(groups[..|groups| - 1]), groups[|groups| - 1].id + 1)
  }

  function NextFieldId(fields: seq<Field>): nat {
    if fields == [] then 1 else Max(NextFieldId(fields[..|fields| - 1]), fields[|fields| - 1].id + 1)
  }

  function NewGroup(groups: seq<Group>, g: GroupDef): Group {
    Group(NextGroupId(groups), ENTITY, g.name, g.title, g.weight, true)
  }

  function NewField(fields: seq<Field>, groupId: nat, f: FieldDef): Field {
    Field(NextFieldId(fields), groupId, f.name, f.title, f.dataType, f.options,
          f.isRequired, f.isMulti, f.weight, true, f.helpText)
  }

  /** ON CONFLICT (entity, name) DO NOTHING */
  function AddGroup(db: Db, g: GroupDef): Db {
    if GroupId(db.groups, ENTITY, g.name).Some? then db
    else db.(groups := db.groups + [NewGroup(db.groups, g)])
  }

  /** ON CONFLICT (group_id, name) DO NOTHING */
  function AddField(db: Db, groupId: nat, f: FieldDef): Db {
    if HasField(db.fields, groupId, f.name) then db
    else db.(fields := db.fields + [NewField(db.fields, groupId, f)])
  }

  function AddGroups(db: Db, gs: seq<GroupDef>): Db {
    if gs == [] then db else AddGroup(AddGroups(db, gs[..|gs| - 1]), gs[|gs| - 1])
  }

  function AddFields(db: Db, groupId: nat, fs: seq<FieldDef>): Db {
    if fs == [] then db else AddField(AddFields(db, groupId, fs[..|fs| - 1]), groupId, fs[|fs| - 1])
  }

  /** None: the RuntimeError for a group that is not there. */
  function AddSections(db: Db, sections: seq<Section>): Option<Db> {
    if sections == [] then Some(db)
    else
      var n := |sections| - 1;
      match AddSections(db, sections[..n])
      case None => None
      case Some(db1) =>
        match GroupId(db.groups, ENTITY, sections[n].group)
        case None => None
        case Some(id) => Some(AddFields(db1, id, sections[n].fields))
  }

  function Seeded(db: Db, gs: seq<GroupDef>, sections: seq<Section>): Option<Db> {
    AddSections(AddGroups(db, gs), sections)
  }

  class Connection {
    var groups: seq<Group>
    var fields: seq<Field>

    function Now(): Db
      reads this
    {
      Db(groups, fields)
    }

    constructor (db: Db)
      ensures Now() == db
    {
      groups, fields := db.groups, db.fields;
    }

    /** `failed` is the RuntimeError.  The ids are resolved once, between the two loops. */
    method Seed(gs: seq<GroupDef>, sections: seq<Section>) returns (failed: bool)
      modifies this
      ensures failed <==> Seeded(old(Now()), gs, sections).None?
      ensures !failed ==> Seeded(old(Now()), gs, sections) == Some(Now())
    {
      for i := 0 to |gs|
        invariant Now() == AddGroups(old(Now()), gs[..i])
      {
        assert gs[..i + 1][..i] == gs[..i];
        if GroupId(groups, ENTITY, gs[i].name).None? {
          groups := groups + [NewGroup(groups, gs[i])];
        }
      }
      assert gs[..|gs|] == gs;
      var resolved := groups;
      ghost var start := Now();
      for i := 0 to |sections|
        invariant groups == resolved && AddSections(start, sections[..i]) == Some(Now())
      {
        assert sections[..i + 1][..i] == sections[..i];
        var gid := GroupId(resolved, ENTITY, sections[i].group);
        if gid.None? {
          MissingGroupFails(start, sections, i);
          return true;
        }
        ghost var before := Now();
        var fs := sections[i].fields;
        for k := 0 to |fs|
          invariant groups == resolved && Now() == AddFields(before, gid.value, fs[..k])
        {
          assert fs[..k + 1][..k] == fs[..k];
          var f := fs[k];
          if !HasField(fields, gid.value, f.name) {
            fields := fields + [NewField(fields, gid.value, f)];
          }
        }
        assert fs[..|fs|] == fs;
      }
      assert sections[..|sections|] == sections;
      return false;
    }
  }

  lemma {:induction false} MissingGroupFails(db: Db, sections: seq<Section>, i: nat)
    requires i < |sections| && GroupId(db.groups, ENTITY, sections[i].group).None?
    ensures AddSections(db, sections).None?
    decreases |sections|
  {
    if i < |sections| - 1 {
      MissingGroupFails(db, sections[..|sections| - 1], i);
    }
  }

  // ----- the constraints

  ghost predicate Constrained(db: Db) {
    && (forall i, j :: 0 <= i < j < |db.groups| ==>
          db.groups[i].id != db.groups[j].id
          && (db.groups[i].entity != db.groups[j].entity || db.groups[i].name != db.groups[j].name))
    && (forall i, j :: 0 <= i < j < |db.fields| ==>
          db.fields[i].groupId != db.fields[j].groupId || db.fields[i].name != db.fields[j].name)
  }

  /** Every group listed is there. */
  ghost predicate HasGroups(db: Db, gs: seq<GroupDef>) {
    forall i :: 0 <= i < |gs| ==> GroupId(db.groups, ENTITY, gs[i].name).Some?
  }

  /** Every field listed is there, under the group of its section. */
  ghost predicate HasSections(db: Db, sections: seq<Section>) {
    forall i :: 0 <= i < |sections| ==> HasSection(db, sections[i])
  }

  ghost predicate HasSection(db: Db, s: Section) {
    var id := GroupId(db.groups, ENTITY, s.group);
    id.Some? && HasAll(db.fields, id.value, s.fields)
  }

  ghost predicate HasAll(fields: seq<Field>, groupId: nat, fs: seq<FieldDef>) {
    forall k :: 0 <= k < |fs| ==> HasField(fields, groupId, fs[k].name)
  }

  /** Every section's group is among the groups listed. */
  ghost predicate Closed(gs: seq<GroupDef>, sections: seq<Section>) {
    forall i :: 0 <= i < |sections| ==> exists k :: 0 <= k < |gs| && gs[k].name == sections[i].group
  }

  lemma {:induction false} GroupIdAbsent(groups: seq<Group>, entity: string, name: string)
    ensures GroupId(groups, entity, name).None? <==>
            forall i :: 0 <= i < |groups| ==> groups[i].entity != entity || groups[i].name != name
  {
    if groups != [] {
      var n := |groups| - 1;
      GroupIdAbsent(groups[..n], entity, name);
      assert forall i :: 0 <= i < n ==> groups[..n][i] == groups[i];
    }
  }

  lemma AddGroupKeeps(db: Db, g: GroupDef)
    requires Constrained(db)
    ensures var after := AddGroup(db, g);
            && Constrained(after) && db.groups <= after.groups && after.fields == db.fields
            && GroupId(after.groups, ENTITY, g.name).Some?
            && (forall e, n :: GroupId(db.groups, e, n).Some? ==>
                  GroupId(after.groups, e, n) == GroupId(db.groups, e, n))
  {
    var after := AddGroup(db, g);
    GroupIdAbsent(db.groups, ENTITY, g.name);
    if |after.groups| > |db.groups| {
      assert after.groups[..|db.groups|] == db.groups;
    }
  }

  lemma {:induction false} AddGroupsKeep(db: Db, gs: seq<GroupDef>)
    requires Constrained(db)
    ensures var after := AddGroups(db, gs);
            && Constrained(after) && db.groups <= after.groups && after.fields == db.fields && HasGroups(after, gs)
  {
    if gs != [] {
      var n := |gs| - 1;
      AddGroupsKeep(db, gs[..n]);
      var before := AddGroups(db, gs[..n]);
      AddGroupKeeps(before, gs[n]);
      forall i | 0 <= i < n
        ensures GroupId(AddGroups(db, gs).groups, ENTITY, gs[i].name).Some?
      {
        assert gs[..n][i] == gs[i];
        assert GroupId(before.groups, ENTITY, gs[..n][i].name).Some?;
      }
    }
  }

  lemma AddFieldKeeps(db: Db, groupId: nat, f: FieldDef)
    requires Constrained(db)
    ensures var after := AddField(db, groupId, f);
            && Constrained(after) && db.fields <= after.fields && after.groups == db.groups
            && HasField(after.fields, groupId, f.name)
            && (forall g, n :: HasField(db.fields, g, n) ==> HasField(after.fields, g, n))
  {
    var after := AddField(db, groupId, f);
    if |after.fields| > |db.fields| {
      assert after.fields[|db.fields|].groupId == groupId && after.fields[|db.fields|].name == f.name;
    }
    forall g, n | HasField(db.fields, g, n)
      ensures HasField(after.fields, g, n)
    {
      var i :| 0 <= i < |db.fields| && db.fields[i].groupId == g && db.fields[i].name == n;
      assert after.fields[i] == db.fields[i];
    }
  }

  lemma {:induction false} AddFieldsKeep(db: Db, groupId: nat, fs: seq<FieldDef>)
    requires Constrained(db)
    ensures var after := AddFields(db, groupId, fs);
            && Constrained(after) && db.fields <= after.fields && after.groups == db.groups
            && HasAll(after.fields, groupId, fs)
            && (forall g, n :: HasField(db.fields, g, n) ==> HasField(after.fields, g, n))
  {
    if fs != [] {
      var n := |fs| - 1;
      AddFieldsKeep(db, groupId, fs[..n]);
      var before := AddFields(db, groupId, fs[..n]);
      AddFieldKeeps(before, groupId, fs[n]);
      forall k | 0 <= k < n
        ensures HasField(AddFields(db, groupId, fs).fields, groupId, fs[k].name)
      {
        assert fs[..n][k] == fs[k];
        assert HasField(before.fields, groupId, fs[..n][k].name);
      }
    }
  }

  lemma {:induction false} AddSectionsKeep(db: Db, sections: seq<Section>)
    requires Constrained(db)
    requires forall i :: 0 <= i < |sections| ==> GroupId(db.groups, ENTITY, sections[i].group).Some?
    ensures var r := AddSections(db, sections);
            && r.Some? && Constrained(r.value) && r.value.groups == db.groups && db.fields <= r.value.fields
            && HasSections(r.value, sections)
  {
    if sections != [] {
      var n := |sections| - 1;
      assert forall i :: 0 <= i < n ==> sections[..n][i] == sections[i];
      AddSectionsKeep(db, sections[..n]);
      var before := AddSections(db, sections[..n]).value;
      AddFieldsKeep(before, GroupId(db.groups, ENTITY, sections[n].group).value, sections[n].fields);
      var after := AddSections(db, sections).value;
      forall i | 0 <= i < n
        ensures HasSection(after, sections[i])
      {
        assert HasSection(before, sections[..n][i]);
      }
    }
  }

  /**
   From any tables that satisfy the constraints the seed never raises, keeps every existing row,
   keeps the constraints, and ends with every listed group and field.
   */
  lemma SeedEstablishes(db: Db, gs: seq<GroupDef>, sections: seq<Section>)
    requires Constrained(db) && Closed(gs, sections)
    ensures var r := Seeded(db, gs, sections);
            && r.Some? && Constrained(r.value)
            && db.groups <= r.value.groups && db.fields <= r.value.fields
            && HasGroups(r.value, gs) && HasSections(r.value, sections)
  {
    AddGroupsKeep(db, gs);
    var mid := AddGroups(db, gs);
    forall i | 0 <= i < |sections|
      ensures GroupId(mid.groups, ENTITY, sections[i].group).Some?
    {
      var k :| 0 <= k < |gs| && gs[k].name == sections[i].group;
      assert GroupId(mid.groups, ENTITY, gs[k].name).Some?;
    }
    AddSectionsKeep(mid, sections);
  }

  predicate IsGroupOf(g: Group, d: GroupDef) {
    g.entity == "contact" && g.name == d.name && g.title == d.title && g.weight == d.weight && g.isActive
  }

  predicate IsFieldOf(f: Field, groupId: nat, d: FieldDef) {
    f.groupId == groupId && f.name == d.name && f.title == d.title && f.dataType == d.dataType
    && f.options == d.options && f.isRequired == d.isRequired && f.isMulti == d.isMulti && f.weight == d.weight
    && f.isActive && f.helpText == d.helpText
  }

  lemma {:induction false} NewGroupsAsListed(db: Db, gs: seq<GroupDef>, k: nat)
    requires |db.groups| <= k < |AddGroups(db, gs).groups|
    ensures exists i :: 0 <= i < |gs| && IsGroupOf(AddGroups(db, gs).groups[k], gs[i])
  {
    var n := |gs| - 1;
    var before := AddGroups(db, gs[..n]);
    if k < |before.groups| {
      NewGroupsAsListed(db, gs[..n], k);
      var i :| 0 <= i < |gs[..n]| && IsGroupOf(before.groups[k], gs[..n][i]);
      assert IsGroupOf(AddGroups(db, gs).groups[k], gs[i]);
    } else {
      assert IsGroupOf(AddGroups(db, gs).groups[k], gs[n]);
    }
  }

  lemma {:induction false} NewFieldsOfGroup(db: Db, groupId: nat, fs: seq<FieldDef>, k: nat)
    requires |db.fields| <= k < |AddFields(db, groupId, fs).fields|
    ensures exists i :: 0 <= i < |fs| && IsFieldOf(AddFields(db, groupId, fs).fields[k], groupId, fs[i])
  {
    var n := |fs| - 1;
    var before := AddFields(db, groupId, fs[..n]);
    if k < |before.fields| {
      NewFieldsOfGroup(db, groupId, fs[..n], k);
      var i :| 0 <= i < |fs[..n]| && IsFieldOf(before.fields[k], groupId, fs[..n][i]);
      assert IsFieldOf(AddFields(db, groupId, fs).fields[k], groupId, fs[i]);
    } else {
      assert IsFieldOf(AddFields(db, groupId, fs).fields[k], groupId, fs[n]);
    }
  }

  ghost predicate ListedUnder(f: Field, groups: seq<Group>, s: Section) {
    var id := GroupId(groups, ENTITY, s.group);
    id.Some? && exists i :: 0 <= i < |s.fields| && IsFieldOf(f, id.value, s.fields[i])
  }

  lemma {:induction false} NewFieldsAsListed(db: Db, sections: seq<Section>, k: nat)
    requires AddSections(db, sections).Some? && |db.fields| <= k < |AddSections(db, sections).value.fields|
    ensures exists i :: 0 <= i < |sections|
                        && ListedUnder(AddSections(db, sections).value.fields[k], db.groups, sections[i])
  {
    var n := |sections| - 1;
    var before := AddSections(db, sections[..n]).value;
    var after := AddSections(db, sections).value;
    var id := GroupId(db.groups, ENTITY, sections[n].group).value;
    FieldsKept(before, id, sections[n].fields);
    if k < |before.fields| {
      NewFieldsAsListed(db, sections[..n], k);
      var i :| 0 <= i < |sections[..n]| && ListedUnder(before.fields[k], db.groups, sections[..n][i]);
      assert ListedUnder(after.fields[k], db.groups, sections[i]);
    } else {
      NewFieldsOfGroup(before, id, sections[n].fields, k);
      assert ListedUnder(after.fields[k], db.groups, sections[n]);
    }
  }

  lemma {:induction false} FieldsKept(db: Db, groupId: nat, fs: seq<FieldDef>)
    ensures db.fields <= AddFields(db, groupId, fs).fields
  {
    if fs != [] {
      FieldsKept(db, groupId, fs[..|fs| - 1]);
    }
  }

  /** Every row the seed adds carries the values listed for it, a field under the id of its section's group. */
  lemma SeedAddsAsListed(db: Db, gs: seq<GroupDef>, sections: seq<Section>)
    requires Constrained(db) && Closed(gs, sections)
    ensures Seeded(db, gs, sections).Some?
    ensures var after := Seeded(db, gs, sections).value;
            && (forall k :: |db.groups| <= k < |after.groups| ==>
                  exists i :: 0 <= i < |gs| && IsGroupOf(after.groups[k], gs[i]))
            && (forall k :: |db.fields| <= k < |after.fields| ==>
                  exists i :: 0 <= i < |sections| && ListedUnder(after.fields[k], after.groups, sections[i]))
  {
    SeedEstablishes(db, gs, sections);
    var mid, after := AddGroups(db, gs), Seeded(db, gs, sections).value;
    SectionsKeepGroups(mid, sections);
    AddGroupsKeep(db, gs);
    forall k | |db.groups| <= k < |after.groups|
      ensures exists i :: 0 <= i < |gs| && IsGroupOf(after.groups[k], gs[i])
    {
      NewGroupsAsListed(db, gs, k);
    }
    forall k | |db.fields| <= k < |after.fields|
      ensures exists i :: 0 <= i < |sections| && ListedUnder(after.fields[k], after.groups, sections[i])
    {
      NewFieldsAsListed(mid, sections, k);
    }
  }

  lemma {:induction false} SectionsKeepGroups(db: Db, sections: seq<Section>)
    ensures AddSections(db, sections).Some? ==> AddSections(db, sections).value.groups == db.groups
  {
    if sections != [] {
      var n := |sections| - 1;
      SectionsKeepGroups(db, sections[..n]);
      if AddSections(db, sections).Some? {
        var before := AddSections(db, sections[..n]).value;
        FieldsKeepGroups(before, GroupId(db.groups, ENTITY, sections[n].group).value, sections[n].fields);
      }
    }
  }

  lemma {:induction false} FieldsKeepGroups(db: Db, groupId: nat, fs: seq<FieldDef>)
    ensures AddFields(db, groupId, fs).groups == db.groups
  {
    if fs != [] {
      FieldsKeepGroups(db, groupId, fs[..|fs| - 1]);
    }
  }

  lemma {:induction false} GroupsThereAddNothing(db: Db, gs: seq<GroupDef>)
    requires HasGroups(db, gs)
    ensures AddGroups(db, gs) == db
  {
    if gs != [] {
      var n := |gs| - 1;
      assert forall i :: 0 <= i < n ==> gs[..n][i] == gs[i];
      GroupsThereAddNothing(db, gs[..n]);
    }
  }

  lemma {:induction false} FieldsThereAddNothing(db: Db, groupId: nat, fs: seq<FieldDef>)
    requires HasAll(db.fields, groupId, fs)
    ensures AddFields(db, groupId, fs) == db
  {
    if fs != [] {
      var n := |fs| - 1;
      assert forall k :: 0 <= k < n ==> fs[..n][k] == fs[k];
      FieldsThereAddNothing(db, groupId, fs[..n]);
    }
  }

  lemma {:induction false} SectionsThereAddNothing(db: Db, sections: seq<Section>)
    requires HasSections(db, sections)
    ensures AddSections(db, sections) == Some(db)
  {
    if sections != [] {
      var n := |sections| - 1;
      assert forall i :: 0 <= i < n ==> sections[..n][i] == sections[i];
      SectionsThereAddNothing(db, sections[..n]);
      assert HasSection(db, sections[n]);
      FieldsThereAddNothing(db, GroupId(db.groups, ENTITY, sections[n].group).value, sections[n].fields);
    }
  }

  /** The seed changes nothing exactly when everything it lists is there; so a second run is the identity. */
  lemma SeedIdempotent(db: Db, gs: seq<GroupDef>, sections: seq<Section>)
    requires Constrained(db) && Closed(gs, sections)
    ensures Seeded(db, gs, sections) == Some(db) <==> HasGroups(db, gs) && HasSections(db, sections)
    ensures var once := Seeded(db, gs, sections); once.Some? && Seeded(once.value, gs, sections) == once
  {
    SeedEstablishes(db, gs, sections);
    if HasGroups(db, gs) && HasSections(db, sections) {
      GroupsThereAddNothing(db, gs);
      SectionsThereAddNothing(db, sections);
    }
    var once := Seeded(db, gs, sections).value;
    GroupsThereAddNothing(once, gs);
    SectionsThereAddNothing(once, sections);
  }

  /** After the seed there is, for every field listed, a contact group of its section's name that has the field. */
  lemma SeedLists(db: Db, gs: seq<GroupDef>, sections: seq<Section>, i: nat, k: nat)
    requires Constrained(db) && Closed(gs, sections) && i < |sections| && k < |sections[i].fields|
    ensures Seeded(db, gs, sections).Some?
    ensures var after := Seeded(db, gs, sections).value;
            exists g, f :: 0 <= g < |after.groups| && 0 <= f < |after.fields|
                           && after.groups[g].entity == "contact" && after.groups[g].name == sections[i].group
                           && after.fields[f].groupId == after.groups[g].id
                           && after.fields[f].name == sections[i].fields[k].name
  {
    SeedEstablishes(db, gs, sections);
    var after := Seeded(db, gs, sections).value;
    assert HasSection(after, sections[i]);
    var g := GroupIdIsOf(after.groups, ENTITY, sections[i].group);
    assert HasField(after.fields, after.groups[g].id, sections[i].fields[k].name);
    var f :| 0 <= f < |after.fields| && after.fields[f].groupId == after.groups[g].id
             && after.fields[f].name == sections[i].fields[k].name;
  }

  lemma {:induction false} GroupIdIsOf(groups: seq<Group>, entity: string, name: string) returns (g: nat)
    requires GroupId(groups, entity, name).Some?
    ensures g < |groups| && groups[g].entity == entity && groups[g].name == name
    ensures GroupId(groups, entity, name) == Some(groups[g].id)
  {
    var n := |groups| - 1;
    if groups[n].entity == entity && groups[n].name == name {
      g := n;
    } else {
      g := GroupIdIsOf(groups[..n], entity, name);
    }
  }

  /** The shipped tables list a group for each of their sections. */
  lemma ChurchSectionsClosed()
    ensures Closed(GROUPS, SECTIONS)
  {
    assert |GROUPS| == 6 && |SECTIONS| == 6;
    assert GROUPS[0].name == SECTIONS[0].group && GROUPS[1].name == SECTIONS[1].group;
    assert GROUPS[2].name == SECTIONS[2].group && GROUPS[3].name == SECTIONS[3].group;
    assert GROUPS[4].name == SECTIONS[4].group && GROUPS[5].name == SECTIONS[5].group;
  }
}

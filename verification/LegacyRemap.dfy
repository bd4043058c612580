/**
 The S24 migration: legacy contact and event ids become current ids, through `external_id`.
 Every UPDATE is set-valued: each row is rewritten once, from its own old value.
 */
module LegacyRemap {
  import opened Prelude
  import opened MemberName

  /** A contact or an event: its id and the id it had in the legacy system. */
  datatype Entity = Entity(id: int, externalId: Option<int>)

  datatype Dialect = Postgres | Sqlite

  /** The primary key, counted from 1, the partial unique index on external_id, and the 32-bit width of that column. */
  ghost predicate Indexed(table: seq<Entity>) {
    && (forall i, j :: 0 <= i < j < |table| ==> table[i].id != table[j].id)
    && (forall i :: 0 <= i < |table| ==> table[i].id > 0)
    && (forall i, j :: 0 <= i < j < |table| && table[i].externalId.Some? ==> table[i].externalId != table[j].externalId)
    && (forall i :: 0 <= i < |table| && table[i].externalId.Some? ==>
          -0x8000_0000 <= table[i].externalId.value < 0x8000_0000)
  }

  /** SELECT id FROM table WHERE external_id = ext */
  function Lookup(table: seq<Entity>, ext: int): Option<int> {
    if table == [] then None
    else if table[0].externalId == Some(ext) then Some(table[0].id)
    else Lookup(table[1..], ext)
  }

  lemma {:induction false} LookupFinds(table: seq<Entity>, ext: int)
    ensures Lookup(table, ext).Some? ==>
              exists i :: 0 <= i < |table| && table[i] == Entity(Lookup(table, ext).value, Some(ext))
    ensures Lookup(table, ext).None? ==> forall i :: 0 <= i < |table| ==> table[i].externalId != Some(ext)
  {
    if table == [] {
    } else if table[0].externalId == Some(ext) {
      assert table[0] == Entity(Lookup(table, ext).value, Some(ext));
    } else {
      LookupFinds(table[1..], ext);
      if Lookup(table, ext).Some? {
        var i :| 0 <= i < |table[1..]| && table[1..][i] == Entity(Lookup(table, ext).value, Some(ext));
        assert table[i + 1] == table[1..][i];
      }
    }
  }

  /** The join of a row with the indexed table has at most one match, so the new value is determined. */
  lemma LookupIsTheMatch(table: seq<Entity>, ext: int, i: nat)
    requires Indexed(table) && i < |table| && table[i].externalId == Some(ext)
    ensures Lookup(table, ext) == Some(table[i].id)
  {
    LookupFinds(table, ext);
  }

  lemma LookupInjective(table: seq<Entity>, x: int, y: int)
    requires Indexed(table)
    requires Lookup(table, x).Some? && Lookup(table, x) == Lookup(table, y)
    ensures x == y
  {
    LookupFinds(table, x);
    LookupFinds(table, y);
  }

  // ----- step 3: detections.matched_name

  /** name ~ '^member:[0-9]+$' */
  predicate IsMemberDigits(name: string) {
    PREFIX <= name && |name| > |PREFIX| && AllDigits(name[|PREFIX|..])
  }

  /** The number a name of that form carries. */
  function NumberOf(name: string): nat
    requires IsMemberDigits(name)
  {
    AllDigitsReads(name[|PREFIX|..]);
    Digits(name[|PREFIX|..]).value
  }

  function Lower(c: char): char {
    if 'A' <= c <= 'Z' then c - 'A' + 'a' else c
  }

  /** name LIKE 'member:%' in SQLite, where LIKE ignores the case of ASCII letters. */
  predicate LikeMember(name: string) {
    |name| >= |PREFIX| && forall i :: 0 <= i < |PREFIX| ==> Lower(name[i]) == PREFIX[i]
  }

  function DigitPrefix(s: string): (p: string)
    ensures AllDigits(p)
  {
    if s != "" && IsDigit(s[0]) then [s[0]] + DigitPrefix(s[1..]) else ""
  }

  /** Leading blanks as SQLite skips them. */
  function SkipBlanks(s: string): string {
    if s != "" && (s[0] == ' ' || 9 as char <= s[0] <= 13 as char) then SkipBlanks(s[1..]) else s
  }

  /** CAST(s AS INTEGER) in SQLite: the longest integer prefix, 0 when there is none, held within 64 bits. */
  function Cast(s: string): int {
    var t := SkipBlanks(s);
    if t != "" && t[0] == '-' then Max(0 - Magnitude(t[1..]), -0x8000_0000_0000_0000)
    else if t != "" && t[0] == '+' then Min(Magnitude(t[1..]), 0x7FFF_FFFF_FFFF_FFFF)
    else Min(Magnitude(t), 0x7FFF_FFFF_FFFF_FFFF)
  }

  function Magnitude(s: string): nat {
    var p := DigitPrefix(s);
    if p == "" then 0
    else
      AllDigitsReads(p);
      Digits(p).value
  }

  /** One row of the UPDATE of matched_name. */
  function RemapName(d: Dialect, contacts: seq<Entity>, name: Option<string>): Option<string> {
    match name
    case None => None
    case Some(text) =>
      match d
      case Postgres =>
        if IsMemberDigits(text) then Renamed(Lookup(contacts, NumberOf(text)), text) else name
      case Sqlite =>
        if LikeMember(text) then Renamed(Lookup(contacts, Cast(text[|PREFIX|..])), text) else name
  }

  function Renamed(id: Option<int>, text: string): Option<string> {
    Some(if id.Some? then NameOf(id.value) else text)
  }

  lemma {:induction false} DigitPrefixOfDigits(s: string)
    requires AllDigits(s)
    ensures DigitPrefix(s) == s
  {
    if s != "" {
      DigitPrefixOfDigits(s[1..]);
    }
  }

  lemma CastOfMember(contacts: seq<Entity>, text: string)
    requires Indexed(contacts) && IsMemberDigits(text)
    ensures LikeMember(text)
    ensures Lookup(contacts, Cast(text[|PREFIX|..])) == Lookup(contacts, NumberOf(text))
  {
    var s := text[|PREFIX|..];
    DigitPrefixOfDigits(s);
    forall i | 0 <= i < |PREFIX|
      ensures Lower(text[i]) == PREFIX[i]
    {
      assert text[i] == PREFIX[i];
    }
    assert IsDigit(s[0]);
    assert SkipBlanks(s) == s && Cast(s) == Min(NumberOf(text), 0x7FFF_FFFF_FFFF_FFFF);
    if NumberOf(text) > 0x7FFF_FFFF_FFFF_FFFF {
      LookupFinds(contacts, NumberOf(text));
      LookupFinds(contacts, 0x7FFF_FFFF_FFFF_FFFF);
    }
  }

  /** SQLite's looser pattern takes a name for that of a contact which Postgres leaves alone. */
  predicate OnlySqliteRemaps(contacts: seq<Entity>, text: string) {
    !IsMemberDigits(text) && LikeMember(text) && Lookup(contacts, Cast(text[|PREFIX|..])).Some?
  }

  lemma NameIsMemberDigits(id: int)
    requires id >= 0
    ensures IsMemberDigits(NameOf(id)) && NumberOf(NameOf(id)) == id
  {
    DecimalReadsBack(id);
    assert NameOf(id)[|PREFIX|..] == Decimal(id);
  }

  /**
   The two dialects rewrite a name alike exactly when it is `member:<digits>`, or SQLite's looser
   pattern passes it by, or the number SQLite reads in it is nobody's legacy id.
   */
  lemma DialectsAgreeOnNames(contacts: seq<Entity>, text: string)
    requires Indexed(contacts)
    ensures RemapName(Postgres, contacts, Some(text)) == RemapName(Sqlite, contacts, Some(text)) <==>
            !OnlySqliteRemaps(contacts, text)
  {
    if IsMemberDigits(text) {
      CastOfMember(contacts, text);
    } else if OnlySqliteRemaps(contacts, text) {
      var ext := Cast(text[|PREFIX|..]);
      LookupFinds(contacts, ext);
      NameIsMemberDigits(Lookup(contacts, ext).value);
    }
  }

  /** Postgres casts every number that it joins on to 32 bits, and one that does not fit fails the statement. */
  predicate Overflows(d: Dialect, contacts: seq<Entity>, names: seq<Option<string>>) {
    && d == Postgres
    && (exists i :: 0 <= i < |contacts| && contacts[i].externalId.Some?)
    && (exists i :: 0 <= i < |names| && names[i].Some? &&
          IsMemberDigits(names[i].value) && NumberOf(names[i].value) >= 0x8000_0000)
  }

  /** The UPDATE of a whole column of names; None when the statement fails. */
  function RemapNames(d: Dialect, contacts: seq<Entity>, names: seq<Option<string>>): Option<seq<Option<string>>> {
    if Overflows(d, contacts, names) then None
    else Some(seq(|names|, i requires 0 <= i < |names| => RemapName(d, contacts, names[i])))
  }

  /** On a whole column they agree exactly when no number overflows and no name is remapped by SQLite only. */
  lemma DialectsAgreeOnTables(contacts: seq<Entity>, names: seq<Option<string>>)
    requires Indexed(contacts)
    ensures RemapNames(Postgres, contacts, names) == RemapNames(Sqlite, contacts, names) <==>
            && !Overflows(Postgres, contacts, names)
            && (forall i :: 0 <= i < |names| && names[i].Some? ==> !OnlySqliteRemaps(contacts, names[i].value))
  {
    forall i | 0 <= i < |names|
      ensures RemapName(Postgres, contacts, names[i]) == RemapName(Sqlite, contacts, names[i]) <==>
              (names[i].Some? ==> !OnlySqliteRemaps(contacts, names[i].value))
    {
      if names[i].Some? {
        DialectsAgreeOnNames(contacts, names[i].value);
      }
    }
    if !Overflows(Postgres, contacts, names) {
      var p, q := RemapNames(Postgres, contacts, names).value, RemapNames(Sqlite, contacts, names).value;
      assert forall i :: 0 <= i < |names| ==> p[i] == RemapName(Postgres, contacts, names[i]);
      assert forall i :: 0 <= i < |names| ==> q[i] == RemapName(Sqlite, contacts, names[i]);
      if forall i :: 0 <= i < |names| ==> p[i] == q[i] {
        assert p == q;
      } else {
        var i :| 0 <= i < |names| && p[i] != q[i];
        assert names[i].Some? && OnlySqliteRemaps(contacts, names[i].value);
      }
    }
  }

  /** A name takes the id of the contact whose legacy id it carries, and any other name stays as it is. */
  lemma NamesByValue(d: Dialect, contacts: seq<Entity>, text: string)
    requires Indexed(contacts) && (d == Sqlite ==> IsMemberDigits(text) || !LikeMember(text))
    ensures RemapName(d, contacts, None) == None
    ensures forall i ::
              0 <= i < |contacts| && IsMemberDigits(text) && contacts[i].externalId == Some(NumberOf(text)) ==>
              RemapName(d, contacts, Some(text)) == Some("member:" + Decimal(contacts[i].id))
    ensures (forall i :: 0 <= i < |contacts| && IsMemberDigits(text) ==>
               contacts[i].externalId != Some(NumberOf(text))) ==>
              RemapName(d, contacts, Some(text)) == Some(text)
  {
    if IsMemberDigits(text) {
      CastOfMember(contacts, text);
      LookupFinds(contacts, NumberOf(text));
    }
  }

  // ----- SQLite's pattern and cast

  lemma LikePrefix(p: string, s: string)
    requires |p| == 7 && forall i :: 0 <= i < 7 ==> Lower(p[i]) == PREFIX[i]
    ensures LikeMember(p + s)
  {
  }

  lemma UpperPrefix()
    ensures var p := "MEMBER:"; forall i :: 0 <= i < 7 ==> Lower(p[i]) == PREFIX[i]
  {
    var p := "MEMBER:";
    assert Lower(p[0]) == 'm' && Lower(p[1]) == 'e' && Lower(p[2]) == 'm' && Lower(p[3]) == 'b';
    assert Lower(p[4]) == 'e' && Lower(p[5]) == 'r' && Lower(p[6]) == ':';
  }

  /** LIKE takes the prefix in any case, and nothing without it. */
  lemma LikeIgnoresCase(s: string)
    ensures LikeMember("member:" + s) && LikeMember("MEMBER:" + s)
    ensures |s| < 7 || (s[6] != ':' || s[0] !in {'m', 'M'}) ==> !LikeMember(s)
  {
    UpperPrefix();
    LikePrefix("MEMBER:", s);
    LikePrefix("member:", s);
    assert PREFIX[6] == ':' && PREFIX[0] == 'm';
  }

  lemma {:induction false} DigitPrefixThen(digits: string, junk: string)
    requires AllDigits(digits) && (junk == "" || !IsDigit(junk[0]))
    ensures DigitPrefix(digits + junk) == digits
  {
    if digits == "" {
      assert digits + junk == junk;
    } else {
      assert (digits + junk)[1..] == digits[1..] + junk;
      DigitPrefixThen(digits[1..], junk);
    }
  }

  lemma MagnitudeReads(n: nat, junk: string)
    requires junk == "" || !IsDigit(junk[0])
    ensures Magnitude(Decimal(n) + junk) == n
  {
    DecimalReadsBack(n);
    DigitPrefixThen(Decimal(n), junk);
  }

  lemma {:induction false} BlanksSkipped(pad: string, s: string)
    requires forall i :: 0 <= i < |pad| ==> pad[i] == ' ' || 9 as char <= pad[i] <= 13 as char
    requires s == "" || !(s[0] == ' ' || 9 as char <= s[0] <= 13 as char)
    ensures SkipBlanks(pad + s) == s
  {
    if pad == "" {
      assert pad + s == s;
    } else {
      assert (pad + s)[1..] == pad[1..] + s;
      BlanksSkipped(pad[1..], s);
    }
  }

  lemma CastOfDigits(n: nat, junk: string)
    requires junk == "" || !IsDigit(junk[0])
    ensures var s := Decimal(n) + junk;
            && IsDigit(s[0]) && Cast(s) == Min(n, 0x7FFF_FFFF_FFFF_FFFF)
            && Cast("-" + s) == Max(0 - n, -0x8000_0000_0000_0000)
            && Cast("+" + s) == Min(n, 0x7FFF_FFFF_FFFF_FFFF)
  {
    var s := Decimal(n) + junk;
    DecimalReadsBack(n);
    assert IsDigit(Decimal(n)[0]);
    MagnitudeReads(n, junk);
    assert ("-" + s)[1..] == s && ("+" + s)[1..] == s;
  }

  lemma CastSkipsBlanks(pad: string, s: string)
    requires forall i :: 0 <= i < |pad| ==> pad[i] == ' ' || 9 as char <= pad[i] <= 13 as char
    requires s == "" || !(s[0] == ' ' || 9 as char <= s[0] <= 13 as char)
    ensures Cast(pad + s) == Cast(s)
  {
    BlanksSkipped(pad, s);
    BlanksSkipped("", s);
    assert "" + s == s;
  }

  /** The cast reads a printed number behind blanks and up to what is no digit, with either sign, within 64 bits. */
  lemma CastReads(pad: string, n: nat, junk: string)
    requires forall i :: 0 <= i < |pad| ==> pad[i] == ' ' || 9 as char <= pad[i] <= 13 as char
    requires junk == "" || !IsDigit(junk[0])
    ensures Cast(pad + (Decimal(n) + junk)) == Min(n, 0x7FFF_FFFF_FFFF_FFFF)
    ensures Cast(pad + ("+" + (Decimal(n) + junk))) == Min(n, 0x7FFF_FFFF_FFFF_FFFF)
    ensures Cast(pad + ("-" + (Decimal(n) + junk))) == Max(0 - n, -0x8000_0000_0000_0000)
  {
    var s := Decimal(n) + junk;
    CastOfDigits(n, junk);
    CastSkipsBlanks(pad, s);
    CastSkipsBlanks(pad, "+" + s);
    CastSkipsBlanks(pad, "-" + s);
  }

  /** Where there is no number the cast reads 0. */
  lemma CastReadsNothing(s: string)
    requires s == "" || (!IsDigit(s[0]) && s[0] !in {'-', '+', ' '} && !(9 as char <= s[0] <= 13 as char))
    ensures Cast(s) == 0
  {
  }

  /** Numbers of 31 bits never fail the statement. */
  lemma NarrowNumbersPass(d: Dialect, contacts: seq<Entity>, names: seq<Option<string>>)
    requires forall i :: 0 <= i < |names| && names[i].Some? && IsMemberDigits(names[i].value) ==>
               NumberOf(names[i].value) <= 2147483647
    ensures RemapNames(d, contacts, names).Some? && |RemapNames(d, contacts, names).value| == |names|
  {
  }

  /** They do differ: 'member:x' is left alone by Postgres and becomes contact 4 in SQLite, if 4 was once 0. */
  lemma DialectsDifferOnNames()
    ensures var contacts := [Entity(4, Some(0))];
            RemapName(Postgres, contacts, Some("member:x")) == Some("member:x") &&
            RemapName(Sqlite, contacts, Some("member:x")) == Some("member:4")
  {
    var contacts := [Entity(4, Some(0))];
    var text := "member:x";
    assert text[|PREFIX|..] == "x";
    assert !IsDigit(text[|PREFIX|..][0]);
    assert Cast("x") == 0;
    assert Lookup(contacts, 0) == Some(4);
    assert LikeMember(text);
    assert NameOf(4) == "member:4";
  }

  /** Two remapped names are equal afterwards exactly when they carried the same legacy number. */
  lemma RemapDoesNotMerge(d: Dialect, contacts: seq<Entity>, a: string, b: string)
    requires Indexed(contacts) && IsMemberDigits(a) && IsMemberDigits(b)
    requires Lookup(contacts, NumberOf(a)).Some? && Lookup(contacts, NumberOf(b)).Some?
    ensures RemapName(d, contacts, Some(a)) == RemapName(d, contacts, Some(b)) <==> NumberOf(a) == NumberOf(b)
  {
    CastOfMember(contacts, a);
    CastOfMember(contacts, b);
    var x, y := Lookup(contacts, NumberOf(a)).value, Lookup(contacts, NumberOf(b)).value;
    NamesDistinct(x, y);
    if x == y {
      LookupInjective(contacts, NumberOf(a), NumberOf(b));
    }
  }

  /** A remapped name names the contact whose legacy id it carried, for the parsers of both views. */
  lemma RemapNamesTheContact(d: Dialect, contacts: seq<Entity>, text: string, i: nat)
    requires Indexed(contacts) && IsMemberDigits(text)
    requires i < |contacts| && contacts[i].externalId == Some(NumberOf(text))
    ensures ExtractContactId(RemapName(d, contacts, Some(text))) == Some(contacts[i].id)
  {
    LookupIsTheMatch(contacts, NumberOf(text), i);
    CastOfMember(contacts, text);
    NameReadsBack(contacts[i].id, map[]);
  }

  lemma MemberDigitsRead(text: string)
    requires IsMemberDigits(text)
    ensures ExtractContactId(Some(text)) == Some(NumberOf(text))
  {
    var s := text[|PREFIX|..];
    AllDigitsReads(s);
    assert IsDigit(s[0]) && IsDigit(s[|s| - 1]);
    assert Strip(s) == s;
  }

  /** The contact that a `member:<digits>` name of this number names once the step has run. */
  function NamedAfter(contacts: seq<Entity>, number: int): int {
    if Lookup(contacts, number).Some? then Lookup(contacts, number).value else number
  }

  lemma RemapReads(d: Dialect, contacts: seq<Entity>, text: string)
    requires Indexed(contacts) && IsMemberDigits(text)
    ensures ExtractContactId(RemapName(d, contacts, Some(text))) == Some(NamedAfter(contacts, NumberOf(text)))
  {
    CastOfMember(contacts, text);
    MemberDigitsRead(text);
    NameReadsBack(NamedAfter(contacts, NumberOf(text)), map[]);
  }

  /**
   Two `member:<digits>` names, matched or not, name one contact afterwards exactly when they carried the
   same number, or one carried the new id of the other's contact and was itself nobody's legacy id.
   */
  lemma RemapMergesExactly(d: Dialect, contacts: seq<Entity>, a: string, b: string)
    requires Indexed(contacts) && IsMemberDigits(a) && IsMemberDigits(b)
    ensures var x, y := NumberOf(a), NumberOf(b);
            ExtractContactId(RemapName(d, contacts, Some(a))) == ExtractContactId(RemapName(d, contacts, Some(b))) <==>
              || x == y
              || (Lookup(contacts, x) == Some(y) && Lookup(contacts, y).None?)
              || (Lookup(contacts, y) == Some(x) && Lookup(contacts, x).None?)
  {
    var x, y := NumberOf(a), NumberOf(b);
    RemapReads(d, contacts, a);
    RemapReads(d, contacts, b);
    if Lookup(contacts, x).Some? && Lookup(contacts, x) == Lookup(contacts, y) {
      LookupInjective(contacts, x, y);
    }
  }

  /** Contact 7 was once 5: the name of old 5, and the one that already said 7, both name it afterwards. */
  lemma RemapMergesTwo(d: Dialect)
    ensures var contacts := [Entity(7, Some(5))];
            RemapName(d, contacts, Some(NameOf(5))) == RemapName(d, contacts, Some(NameOf(7))) == Some(NameOf(7))
  {
    var contacts := [Entity(7, Some(5))];
    NameIsMemberDigits(5);
    NameIsMemberDigits(7);
    CastOfMember(contacts, NameOf(5));
    CastOfMember(contacts, NameOf(7));
    assert contacts[1..] == [];
    assert Lookup(contacts, 5) == Some(7) && Lookup(contacts, 7) == None;
  }

  /** A number of more than 32 bits fails the statement in Postgres and is left alone by SQLite. */
  lemma WideNumberFails(n: int)
    requires n >= 0x8000_0000
    ensures var contacts, names := [Entity(7, Some(5))], [Some(NameOf(n))];
            RemapNames(Postgres, contacts, names) == None && RemapNames(Sqlite, contacts, names) == Some(names)
  {
    var contacts, names := [Entity(7, Some(5))], [Some(NameOf(n))];
    NameIsMemberDigits(n);
    CastOfMember(contacts, NameOf(n));
    LookupFinds(contacts, n);
    assert contacts[0].externalId.Some? && names[0] == Some(NameOf(n));
    assert Lookup(contacts, n).None?;
    assert RemapName(Sqlite, contacts, names[0]) == names[0];
    assert RemapNames(Sqlite, contacts, names).value == names;
  }

  /** Running the step a second time changes a remapped name exactly when the new id is another contact's legacy id. */
  lemma SecondRunChangesNames(d: Dialect, contacts: seq<Entity>, text: string)
    requires Indexed(contacts) && IsMemberDigits(text) && Lookup(contacts, NumberOf(text)).Some?
    ensures var once := RemapName(d, contacts, Some(text));
            var id := Lookup(contacts, NumberOf(text)).value;
            RemapName(d, contacts, once) == once <==> Lookup(contacts, id) in {None, Some(id)}
  {
    var id := Lookup(contacts, NumberOf(text)).value;
    LookupFinds(contacts, NumberOf(text));
    CastOfMember(contacts, text);
    NameIsMemberDigits(id);
    CastOfMember(contacts, NameOf(id));
    if Lookup(contacts, id).Some? {
      NamesDistinct(Lookup(contacts, id).value, id);
    }
  }

  // ----- steps 1 and 2: the stashed legacy ids

  /** A row with a current id and a stashed legacy id: a subject's contact, or a detection's event. */
  datatype Link = Link(current: Option<int>, stash: Option<int>)

  function RemapLink(d: Dialect, table: seq<Entity>, l: Link): Link {
    if l.stash.None? then l
    else
      var id := Lookup(table, l.stash.value);
      match d
      case Postgres => if id.Some? then l.(current := id) else l
      case Sqlite => l.(current := id)
  }

  /** The dialects agree on a link exactly when its stash is empty or matched, or there was no current id to lose. */
  lemma DialectsAgreeOnLinks(table: seq<Entity>, l: Link)
    ensures RemapLink(Postgres, table, l) == RemapLink(Sqlite, table, l) <==>
            l.stash.None? || Lookup(table, l.stash.value).Some? || l.current.None?
  {
  }

  /** A stash that nobody matches: Postgres keeps the old id, SQLite clears it. */
  lemma DialectsDifferOnLinks(id: int, stash: int)
    ensures var l := Link(Some(id), Some(stash));
            RemapLink(Postgres, [], l) == l && RemapLink(Sqlite, [], l) == Link(None, Some(stash))
  {
  }

  /**
   What the remap owes a link, by value: the stash stays; an unstashed link stays; one whose stash is the
   legacy id of a row takes that row's id; one that nobody matches stays in Postgres and is cleared in SQLite.
   */
  ghost predicate LinkFollows(d: Dialect, table: seq<Entity>, before: Link, after: Link) {
    && after.stash == before.stash
    && (before.stash == None ==> after.current == before.current)
    && (forall i :: 0 <= i < |table| && before.stash.Some? && table[i].externalId == before.stash ==>
          after.current == Some(table[i].id))
    && (before.stash.Some? && (forall i :: 0 <= i < |table| ==> table[i].externalId != before.stash) ==>
          after.current == match d case Postgres => before.current case Sqlite => None)
  }

  lemma LinkRemapped(d: Dialect, table: seq<Entity>, l: Link)
    requires Indexed(table)
    ensures LinkFollows(d, table, l, RemapLink(d, table, l))
  {
    if l.stash.Some? {
      LookupFinds(table, l.stash.value);
    }
  }

  // ----- the migration as one in-place run

  datatype Subject = Subject(name: string, contact: Link)
  datatype Detection = Detection(matchedName: Option<string>, event: Link)

  function RemapDetection(d: Dialect, contacts: seq<Entity>, events: seq<Entity>, det: Detection): Detection {
    Detection(RemapName(d, contacts, det.matchedName), RemapLink(d, events, det.event))
  }

  predicate Unmatched(s: Subject) {
    s.contact.stash.Some? && s.contact.current.None?
  }

  /** The subjects the migration logs: stashed, but without a contact after the remap. */
  function UnmatchedNames(subjects: seq<Subject>): seq<string> {
    if subjects == [] then []
    else
      var n := |subjects| - 1;
      UnmatchedNames(subjects[..n]) + if Unmatched(subjects[n]) then [subjects[n].name] else []
  }

  predicate Aborts(subjects: seq<Subject>, contacts: seq<Entity>) {
    && (exists i :: 0 <= i < |subjects| && subjects[i].contact.stash.Some?)
    && (forall i :: 0 <= i < |contacts| ==> contacts[i].externalId.None?)
  }

  datatype Outcome = Aborted | OutOfRange | Upgraded(logged: seq<string>)

  function NamesOf(detections: seq<Detection>): seq<Option<string>> {
    seq(|detections|, i requires 0 <= i < |detections| => detections[i].matchedName)
  }

  /** A subject or an event link that a row with the migrated id stands behind. */
  ghost predicate HasMatch(table: seq<Entity>, l: Link) {
    exists i :: 0 <= i < |table| && l.stash.Some? && table[i].externalId == l.stash
  }

  /** The log names a subject exactly if it is stashed, unmatched, and has no contact, or in SQLite none any more. */
  lemma LoggedExactly(d: Dialect, contacts: seq<Entity>, before: seq<Subject>, after: seq<Subject>, name: string)
    requires Indexed(contacts) && |after| == |before|
    requires forall i :: 0 <= i < |before| ==>
               after[i].name == before[i].name && LinkFollows(d, contacts, before[i].contact, after[i].contact)
    ensures name in UnmatchedNames(after) <==>
            exists i :: 0 <= i < |before| && before[i].name == name && before[i].contact.stash.Some?
                        && !HasMatch(contacts, before[i].contact)
                        && (d == Sqlite || before[i].contact.current == None)
  {
    forall i | 0 <= i < |before|
      ensures Unmatched(after[i]) <==>
              before[i].contact.stash.Some? && !HasMatch(contacts, before[i].contact)
              && (d == Sqlite || before[i].contact.current == None)
    {
      UnmatchedByValue(d, contacts, before[i].contact, after[i].contact);
    }
    LoggedAre(after, name);
  }

  lemma UnmatchedByValue(d: Dialect, contacts: seq<Entity>, before: Link, after: Link)
    requires LinkFollows(d, contacts, before, after)
    ensures after.stash.Some? && after.current.None? <==>
            before.stash.Some? && !HasMatch(contacts, before) && (d == Sqlite || before.current == None)
  {
    if HasMatch(contacts, before) {
      var i :| 0 <= i < |contacts| && before.stash.Some? && contacts[i].externalId == before.stash;
      assert after.current == Some(contacts[i].id);
    } else if before.stash.Some? {
      assert forall i :: 0 <= i < |contacts| ==> contacts[i].externalId != before.stash;
    }
  }

  lemma {:induction false} LoggedAre(subjects: seq<Subject>, name: string)
    ensures name in UnmatchedNames(subjects) <==>
            exists i :: 0 <= i < |subjects| && subjects[i].name == name && Unmatched(subjects[i])
  {
    if subjects != [] {
      var n := |subjects| - 1;
      LoggedAre(subjects[..n], name);
      assert forall i :: 0 <= i < n ==> subjects[..n][i] == subjects[i];
    }
  }

  /**
   The data steps of `upgrade`: the guard aborts, or a number out of range fails the third step and takes
   the others back with it, or every row is rewritten and the subjects left without a contact are logged.
   */
  method Upgrade(d: Dialect, contacts: seq<Entity>, events: seq<Entity>,
                 subjects: array<Subject>, detections: array<Detection>) returns (o: Outcome)
    modifies subjects, detections
    ensures o == Aborted <==>
              && (exists i :: 0 <= i < subjects.Length && old(subjects[i]).contact.stash.Some?)
              && (forall i :: 0 <= i < |contacts| ==> contacts[i].externalId == None)
    ensures o == OutOfRange <==>
              !Aborts(old(subjects[..]), contacts) && Overflows(d, contacts, NamesOf(old(detections[..])))
    ensures !o.Upgraded? ==> subjects[..] == old(subjects[..]) && detections[..] == old(detections[..])
    ensures o.Upgraded? ==>
              && (forall i :: 0 <= i < subjects.Length ==>
                    subjects[i] == old(subjects[i]).(contact := RemapLink(d, contacts, old(subjects[i]).contact)))
              && (forall i :: 0 <= i < detections.Length ==>
                    detections[i] == RemapDetection(d, contacts, events, old(detections[i])))
              && o.logged == UnmatchedNames(subjects[..])
    ensures o.Upgraded? && Indexed(contacts) ==>
              forall i :: 0 <= i < subjects.Length ==>
                LinkFollows(d, contacts, old(subjects[i]).contact, subjects[i].contact)
                && subjects[i].name == old(subjects[i]).name
    ensures o.Upgraded? && Indexed(events) ==>
              forall i :: 0 <= i < detections.Length ==>
                LinkFollows(d, events, old(detections[i]).event, detections[i].event)
    ensures o.Upgraded? ==>
              forall i :: 0 <= i < detections.Length ==>
                detections[i].matchedName == RemapName(d, contacts, old(detections[i]).matchedName)
  {
    if Aborts(subjects[..], contacts) {
      return Aborted;
    }
    if Overflows(d, contacts, NamesOf(detections[..])) {
      return OutOfRange;
    }
    var names := RemapSubjects(d, contacts, subjects);
    RemapDetections(d, contacts, events, detections);
    forall l: Link
      ensures Indexed(contacts) ==> LinkFollows(d, contacts, l, RemapLink(d, contacts, l))
      ensures Indexed(events) ==> LinkFollows(d, events, l, RemapLink(d, events, l))
    {
      if Indexed(contacts) {
        LinkRemapped(d, contacts, l);
      }
      if Indexed(events) {
        LinkRemapped(d, events, l);
      }
    }
    return Upgraded(names);
  }

  /** Step 1 and its log. */
  method RemapSubjects(d: Dialect, contacts: seq<Entity>, subjects: array<Subject>) returns (names: seq<string>)
    modifies subjects
    ensures forall i :: 0 <= i < subjects.Length ==>
              subjects[i] == old(subjects[i]).(contact := RemapLink(d, contacts, old(subjects[i]).contact))
    ensures names == UnmatchedNames(subjects[..])
  {
    names := [];
    for i := 0 to subjects.Length
      invariant forall k :: 0 <= k < i ==>
                  subjects[k] == old(subjects[k]).(contact := RemapLink(d, contacts, old(subjects[k]).contact))
      invariant forall k :: i <= k < subjects.Length ==> subjects[k] == old(subjects[k])
      invariant names == UnmatchedNames(subjects[..i])
    {
      ghost var done := subjects[..i];
      subjects[i] := subjects[i].(contact := RemapLink(d, contacts, subjects[i].contact));
      if Unmatched(subjects[i]) {
        names := names + [subjects[i].name];
      }
      assert subjects[..i + 1][..i] == done;
    }
    assert subjects[..subjects.Length] == subjects[..];
  }

  /** Steps 2 and 3. */
  method RemapDetections(d: Dialect, contacts: seq<Entity>, events: seq<Entity>, detections: array<Detection>)
    modifies detections
    ensures forall i :: 0 <= i < detections.Length ==>
              detections[i] == RemapDetection(d, contacts, events, old(detections[i]))
  {
    for i := 0 to detections.Length
      invariant forall k :: 0 <= k < i ==> detections[k] == RemapDetection(d, contacts, events, old(detections[k]))
      invariant forall k :: i <= k < detections.Length ==> detections[k] == old(detections[k])
    {
      detections[i] := RemapDetection(d, contacts, events, detections[i]);
    }
  }
}
